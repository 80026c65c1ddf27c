/**
 The reader on the device: searching directories by display name, following a path, and copying a
 window of a chain.
 */
module Fat12Files {
  import opened Bytes
  import opened Paths
  import opened NameMatch
  import opened Fat12Layout
  import opened Fat12Journal
  import opened Fat12Chain
  import opened Fat12Dir
  import opened Fat12Sound
  import opened Fat12Ops
  import opened Fat12Device
  import opened Fat12Commands
  import opened Fat12Display
  import opened Fat12Reader

  // ----- lookup on the device -----

  method ScanUnitDisplay(dev: BlockDevice, g: Geometry, u: nat, wanted: seq<byte>) returns (r: Scan, entry: slot)
    requires Holds(dev, g) && u < g.Entries()
    ensures r == ScanDisplay(UnitOf(dev.Flat(), g, u), 0, wanted)
    ensures r.Hit? ==> entry == SlotIn(UnitOf(dev.Flat(), g, u), r.index)
  {
    hide FlatOf, UnitOf, Skipped, Name, ScanDisplay, SlotIn, Times, Display, NameEq;
    ghost var unit := UnitOf(dev.Flat(), g, u);
    entry := Zeros(SLOT);
    var i := 0;
    while i < g.UnitSectors(u)
      invariant i <= g.UnitSectors(u)
      invariant ScanDisplay(unit, 0, wanted) == ScanDisplay(unit, 16 * i, wanted)
    {
      UnitSector(dev, g, u, i);
      var buf := dev.Read(g.UnitLba(u) + i);
      var e := 0;
      while e < 16
        invariant e <= 16
        invariant ScanDisplay(unit, 0, wanted) == ScanDisplay(unit, 16 * i + e, wanted)
      {
        BufferSlot(unit, i, e, buf);
        ScanDisplayStep(unit, 16 * i + e, wanted);
        entry := buf[SLOT * e..SLOT * e + SLOT];
        if buf[SLOT * e] == 0 {
          return Stop, entry;
        }
        if !Skipped(entry) && NameEq(Display(Name(entry)), wanted) {
          return Hit(16 * i + e), entry;
        }
        e := e + 1;
      }
      i := i + 1;
    }
    ScanDisplayStep(unit, 16 * i, wanted);
    r := More;
  }

  lemma ScanDisplayStep(unit: seq<byte>, j: nat, wanted: seq<byte>)
    ensures ScanDisplay(unit, j, wanted) ==
            if |unit| < SLOT * j + SLOT then More
            else if unit[SLOT * j] == 0 then Stop
            else if !Skipped(SlotIn(unit, j)) && NameEq(Display(Name(SlotIn(unit, j))), wanted) then Hit(j)
            else ScanDisplay(unit, j + 1, wanted)
  {
    hide NameEq, Display;
  }

  lemma DisplaySearchStep(v: Volume, us: seq<nat>, i: nat, wanted: seq<byte>)
    requires UnitsIn(v, us) && i < |us|
    ensures UnitsIn(v, us[i..]) && UnitsIn(v, us[i + 1..])
    ensures SearchDisplay(v, us[i..], wanted) ==
            match ScanDisplay(v.units[us[i]], 0, wanted)
            case Stop => None
            case Hit(j) => Some(Ref(us[i], j))
            case More => SearchDisplay(v, us[i + 1..], wanted)
  {
    hide ScanDisplay;
    assert us[i..][0] == us[i] && us[i..][1..] == us[i + 1..];
  }

  lemma DisplayEnds(v: Volume, us: seq<nat>, wanted: seq<byte>)
    requires UnitsIn(v, us)
    ensures UnitsIn(v, us[0..]) && us[0..] == us
    ensures UnitsIn(v, us[|us|..]) && SearchDisplay(v, us[|us|..], wanted) == None
  {
    assert us[0..] == us && us[|us|..] == [];
  }

  method FindByName(dev: BlockDevice, g: Geometry, ghost cat: Catalog, d: nat, wanted: seq<byte>)
    returns (r: Option<Ref>, entry: slot)
    requires Holds(dev, g) && Sound(ViewOf(dev, g), g, cat) && Dir(d) in cat.chains
    ensures UnitsIn(ViewOf(dev, g), DirUnits(cat, d))
    ensures r == SearchDisplay(ViewOf(dev, g), DirUnits(cat, d), wanted)
    ensures r.Some? ==> r.value.unit < g.Entries() && SLOT * r.value.index + SLOT <= g.UnitLen(r.value.unit) &&
                        entry == SlotIn(UnitOf(dev.Flat(), g, r.value.unit), r.value.index)
  {
    hide SoundBut, View, FlatOf, UnitOf, ScanDisplay, SearchDisplay, LinkOf, SlotIn;
    ghost var v := ViewOf(dev, g);
    ghost var us := DirUnits(cat, d);
    FirstUnit(v, g, cat, None, d);
    DisplayEnds(v, us, wanted);
    var scan;
    var current, go := d, true;
    ghost var i := 0;
    while go
      invariant 0 <= i <= |us| && (go ==> i < |us| && current == us[i] < g.Entries()) && (!go ==> i == |us|)
      invariant SearchDisplay(v, us, wanted) == SearchDisplay(v, us[i..], wanted)
      decreases |us| - i, go
    {
      ViewUnit(dev, g, current);
      DisplaySearchStep(v, us, i, wanted);
      scan, entry := ScanUnitDisplay(dev, g, current, wanted);
      if scan.Stop? {
        return None, entry;
      }
      if scan.Hit? {
        return Some(Ref(current, scan.index)), entry;
      }
      if d == 0 {
        go := false;
      } else {
        NextUnit(v, g, cat, None, d, i);
        current := GetFatEntry(dev, g, current);
        go := current < EOC_MIN;
      }
      i := i + 1;
    }
    entry := Zeros(SLOT);
    r := None;
  }

  lemma LookupNil(v: Volume, g: Geometry, cat: Catalog, d: nat)
    requires Sound(v, g, cat) && Shaped(v, g) && AllCanonical(v, g, cat) && Dir(d) in cat.chains
    ensures Components([]) == [] && Plainly([]) && Lookup(v, g, cat, d, []) == Node(d, true, 0)
  {}

  /** Follow an absolute, normalised path by display names. */
  method ResolvePathInfo(dev: BlockDevice, g: Geometry, ghost cat: Catalog, path: seq<byte>) returns (r: Info)
    requires Holds(dev, g) && Sound(ViewOf(dev, g), g, cat) && Shaped(ViewOf(dev, g), g)
    requires AllCanonical(ViewOf(dev, g), g, cat) && Dir(0) in cat.chains
    requires path != [] && path[0] == SLASH && Plainly(Components(path))
    ensures r == Lookup(ViewOf(dev, g), g, cat, 0, Components(path))
  {
    hide SoundBut, View, FlatOf, UnitOf, SearchDisplay, Lookup, SlotAt, SlotIn, IsDir, Head, Size, Components,
         TokenLen, AllCanonical;
    ghost var v := ViewOf(dev, g);
    var current, isDir, size := 0, true, 0;
    assert path[0..] == path;
    LookupNil(v, g, cat, 0);
    var at := SkipSlashes(path, 0);
    while at < |path|
      invariant at <= |path|
      invariant at < |path| ==> path[at] != SLASH && Dir(current) in cat.chains && Plainly(Components(path[at..]))
      invariant Lookup(v, g, cat, 0, Components(path)) ==
                if at < |path| then Lookup(v, g, cat, current, Components(path[at..])) else Node(current, isDir, size)
      decreases |path| - at
    {
      var len := 0;
      while at + len < |path| && path[at + len] != SLASH
        invariant at + len <= |path| && len < NAME_CAP
        invariant forall i :: 0 <= i < len ==> path[at..][i] != SLASH
      {
        if len + 1 >= NAME_CAP {
          LongToken(path[at..], len + 1);
          LookupStep(v, g, cat, current, Components(path[at..]));
          return NoNode(Invalid);
        }
        len := len + 1;
      }
      TokenTaken(path[at..], len);
      var component := path[at..at + len];
      assert component == path[at..][..len] && path[at..][len..] == path[at + len..];
      LookupStep(v, g, cat, current, Components(path[at..]));
      at := SkipSlashes(path, at + len);
      var f, entry := FindByName(dev, g, cat, current, component);
      if f.None? {
        return NoNode(NotFound);
      }
      EntryIsSlot(dev, g, f.value);
      if at < |path| && !IsDir(entry) {
        return NoNode(NotDirectory);
      }
      current, size, isDir := Head(entry), Size(entry), IsDir(entry);
    }
    r := Node(current, isDir, size);
  }

  // ----- windows of a chain -----

  lemma {:induction false} UnitInRead(v: Volume, s: seq<nat>, i: nat, n: nat)
    requires UnitsIn(v, s) && (forall j :: 0 <= j < |s| ==> |v.units[s[j]]| == n) && i < |s|
    ensures Times(i, n) + n <= |ReadUnits(v, s)| == Times(|s|, n)
    ensures ReadUnits(v, s)[Times(i, n)..Times(i, n) + n] == v.units[s[i]]
  {
    hide Times;
    ReadUnitsLength(v, s, n);
    TimesMono(i, |s|, n);
    var front := s[..|s| - 1];
    ReadUnitsLength(v, front, n);
    var all, part := ReadUnits(v, s), ReadUnits(v, front);
    assert all == part + v.units[s[|s| - 1]];
    if i < |front| {
      UnitInRead(v, front, i, n);
      assert all[Times(i, n)..Times(i, n) + n] == part[Times(i, n)..Times(i, n) + n];
    }
  }

  /** Copy up to `n` bytes of a cluster, from an offset in it, sector by sector. */
  method CopyCluster(dev: BlockDevice, g: Geometry, c: nat, offset: nat, n: nat) returns (data: seq<byte>)
    requires Holds(dev, g) && 2 <= c < g.Entries() && offset < g.UnitLen(c)
    ensures |UnitOf(dev.Flat(), g, c)| == g.UnitLen(c)
    ensures data == UnitOf(dev.Flat(), g, c)[offset..offset + Min(n, g.UnitLen(c) - offset)]
  {
    hide FlatOf, UnitOf, Times;
    ghost var unit := UnitOf(dev.Flat(), g, c);
    UnitWhole(dev, g, c);
    var i, skip := 0, offset;
    data := [];
    while i < g.UnitSectors(c) && |data| < n
      invariant 0 <= i <= g.UnitSectors(c) && |data| <= n && offset + |data| <= |unit|
      invariant data == unit[offset..offset + |data|]
      invariant 0 <= skip && (skip > 0 ==> data == [] && skip == offset - i * SECTOR)
      invariant skip == 0 ==> offset <= i * SECTOR && (|data| < n ==> offset + |data| == i * SECTOR)
    {
      if skip >= SECTOR {
        skip := skip - SECTOR;
      } else {
        UnitSector(dev, g, c, i);
        var buf := dev.Read(g.UnitLba(c) + i);
        var chunk := Min(SECTOR - skip, n - |data|);
        PieceStep(unit, offset, data, i, skip, chunk, buf);
        data := data + buf[skip..skip + chunk];
        skip := 0;
      }
      i := i + 1;
    }
  }

  /** What one sector adds to a window of a cluster. */
  lemma PieceStep(unit: seq<byte>, offset: nat, data: seq<byte>, i: nat, skip: nat, chunk: nat, buf: seq<byte>)
    requires offset + |data| == i * SECTOR + skip && skip + chunk <= SECTOR && i * SECTOR + SECTOR <= |unit|
    requires data == unit[offset..offset + |data|] && buf == unit[i * SECTOR..i * SECTOR + SECTOR]
    ensures data + buf[skip..skip + chunk] == unit[offset..offset + |data| + chunk]
  {
    SliceOfSlice(unit, i * SECTOR, i * SECTOR + SECTOR, skip, chunk);
    SliceJoin(unit, offset, offset + |data|, offset + |data| + chunk);
  }

  lemma UnitWhole(dev: BlockDevice, g: Geometry, c: nat)
    requires Holds(dev, g) && 2 <= c < g.Entries()
    ensures |UnitOf(dev.Flat(), g, c)| == g.UnitLen(c) == g.UnitSectors(c) * SECTOR
  {
    UnitInside(g, |dev.sectors|, c);
  }

  lemma SliceOfSlice(s: seq<byte>, a: nat, b: nat, i: nat, n: nat)
    requires a <= b <= |s| && a + i + n <= b
    ensures s[a..b][i..i + n] == s[a + i..a + i + n]
  {
    var t := s[a..b];
    var x, y := t[i..i + n], s[a + i..a + i + n];
    forall k | 0 <= k < n
      ensures x[k] == y[k]
    {
      assert x[k] == t[i + k];
    }
  }

  lemma SliceJoin(s: seq<byte>, a: nat, b: nat, c: nat)
    requires a <= b <= c <= |s|
    ensures s[a..b] + s[b..c] == s[a..c]
  {}

  /** What one cluster contributes to a window of the chain. */
  lemma WindowStep(v: Volume, s: seq<nat>, i: nat, cb: nat, from: nat, at: nat, n: nat)
    requires UnitsIn(v, s) && (forall j :: 0 <= j < |s| ==> |v.units[s[j]]| == cb) && i < |s|
    requires from <= at && Times(i, cb) <= at && at + n <= Times(i, cb) + cb
    ensures at + n <= |ReadUnits(v, s)|
    ensures ReadUnits(v, s)[from..at] + v.units[s[i]][at - Times(i, cb)..at - Times(i, cb) + n] ==
            ReadUnits(v, s)[from..at + n]
  {
    hide ReadUnits, Times;
    UnitInRead(v, s, i, cb);
    var all, t := ReadUnits(v, s), Times(i, cb);
    SliceOfSlice(all, t, t + cb, at - t, n);
    SliceJoin(all, from, at, at + n);
  }

  /** Copy a window of a chain: skip whole clusters, then copy cluster by cluster. */
  method CopyChain(dev: BlockDevice, g: Geometry, ghost s: seq<nat>, head: nat, offset: nat, n: nat)
    returns (data: seq<byte>)
    requires Holds(dev, g) && IsChain(ViewOf(dev, g).fat, s) && head == FirstOf(s)
    requires offset + n <= Times(|s|, g.UnitLen(2))
    ensures UnitsIn(ViewOf(dev, g), s) && |ReadUnits(ViewOf(dev, g), s)| == Times(|s|, g.UnitLen(2))
    ensures data == ReadUnits(ViewOf(dev, g), s)[offset..offset + n]
  {
    hide FlatOf, UnitOf, View, ReadUnits, LinkOf, Times, IsChain;
    ghost var v := ViewOf(dev, g);
    ChainUnits(dev, g, s);
    var cb := g.UnitLen(2);
    NoTimes(cb);
    ReadUnitsLength(v, s, cb);
    var cluster, rest := head, offset;
    data := [];
    if n == 0 {
      return;
    }
    ghost var i := 0;
    while rest >= cb
      invariant 0 <= rest && i < |s| && cluster == s[i] && rest == offset - Times(i, cb)
      invariant rest + n <= Times(|s|, cb) - Times(i, cb)
      decreases rest
    {
      NextTimes(i, cb);
      ChainNext(dev, g, s, i);
      cluster := GetFatEntry(dev, g, cluster);
      rest := rest - cb;
      i := i + 1;
      EndReached(|s|, i, cb);
    }
    while |data| < n
      invariant |data| <= n && 0 <= rest
      invariant |data| < n ==> i < |s| && cluster == s[i] && rest < cb && offset + |data| == Times(i, cb) + rest
      invariant data == ReadUnits(v, s)[offset..offset + |data|]
    {
      ChainNext(dev, g, s, i);
      NextTimes(i, cb);
      UnitWhole(dev, g, cluster);
      var part := CopyCluster(dev, g, cluster, rest, n - |data|);
      WindowStep(v, s, i, cb, offset, offset + |data|, |part|);
      data := data + part;
      rest := 0;
      if |data| < n {
        cluster := GetFatEntry(dev, g, cluster);
        i := i + 1;
        EndReached(|s|, i, cb);
      }
    }
  }

  lemma NoTimes(cb: nat)
    ensures Times(0, cb) == 0
  {}

  lemma NextTimes(i: nat, cb: nat)
    ensures Times(i + 1, cb) == Times(i, cb) + cb
  {}

  lemma EndReached(n: nat, i: nat, cb: nat)
    requires i <= n
    ensures Times(i, cb) < Times(n, cb) ==> i < n
  {}

  /** Each cluster of a chain, and the link the driver reads from it. */
  lemma ChainNext(dev: BlockDevice, g: Geometry, s: seq<nat>, i: nat)
    requires Holds(dev, g) && IsChain(ViewOf(dev, g).fat, s) && i < |s|
    ensures 2 <= s[i] < g.Entries() && g.UnitLen(s[i]) == g.UnitLen(2)
    ensures ViewOf(dev, g).units[s[i]] == UnitOf(dev.Flat(), g, s[i])
    ensures i + 1 < |s| ==> LinkOf(dev.Flat(), g, s[i]) == s[i + 1]
  {
    ViewUnit(dev, g, s[i]);
  }

  lemma ChainUnits(dev: BlockDevice, g: Geometry, s: seq<nat>)
    requires Holds(dev, g) && IsChain(ViewOf(dev, g).fat, s)
    ensures UnitsIn(ViewOf(dev, g), s)
    ensures forall i :: 0 <= i < |s| ==> |ViewOf(dev, g).units[s[i]]| == g.UnitLen(2)
  {
    hide UnitOf;
    forall i | 0 <= i < |s|
      ensures s[i] < |ViewOf(dev, g).units| && |ViewOf(dev, g).units[s[i]]| == g.UnitLen(2)
    {
      ChainNext(dev, g, s, i);
      UnitWhole(dev, g, s[i]);
    }
  }

  // ----- the contents of files -----

  ghost predicate HasFile(v: Volume, g: Geometry, cat: Catalog, q: Ref) {
    Shaped(v, g) && IsSlot(g, cat, q) && File(q) in cat.chains && UnitsIn(v, cat.chains[File(q)])
  }

  function Upto(s: seq<byte>, n: nat): seq<byte> {
    if n <= |s| then s[..n] else s
  }

  /** The bytes of the file named at slot `q`: as many bytes of its chain as its entry says. */
  ghost function Contents(v: Volume, g: Geometry, cat: Catalog, q: Ref): (r: seq<byte>)
    requires HasFile(v, g, cat, q)
  {
    Upto(ReadUnits(v, cat.chains[File(q)]), Size(SlotAt(v, g, q)))
  }

  lemma FileKnown(v: Volume, g: Geometry, cat: Catalog, q: Ref)
    requires Sound(v, g, cat) && File(q) in cat.chains
    ensures HasFile(v, g, cat, q) && IsChain(v.fat, cat.chains[File(q)])
    ensures |ReadUnits(v, cat.chains[File(q)])| == Times(|cat.chains[File(q)]|, g.UnitLen(2))
    ensures JustFits(|cat.chains[File(q)]|, g.UnitLen(2), Size(SlotAt(v, g, q)))
    ensures Head(SlotAt(v, g, q)) == FirstOf(cat.chains[File(q)])
    ensures |Contents(v, g, cat, q)| == Size(SlotAt(v, g, q))
  {
    hide JustFits, Times, ReadUnits, SoundBut, Size, Head, Named, IsDir, SlotAt;
    var s := cat.chains[File(q)];
    FileNamed(v, g, cat, None, q);
    SlotAgrees(v, g, cat, None, q);
    ChainKnown(v, g, cat, q);
    ReadUnitsLength(v, s, g.UnitLen(2));
    FitsWithin(|s|, g.UnitLen(2), Size(SlotAt(v, g, q)));
  }

  lemma ChainKnown(v: Volume, g: Geometry, cat: Catalog, q: Ref)
    requires Sound(v, g, cat) && File(q) in cat.chains
    ensures IsChain(v.fat, cat.chains[File(q)]) && UnitsIn(v, cat.chains[File(q)])
    ensures forall i :: 0 <= i < |cat.chains[File(q)]| ==> |v.units[cat.chains[File(q)][i]]| == g.UnitLen(2)
  {
    assert IsChain(v.fat, cat.chains[File(q)]);
  }

  lemma FitsWithin(n: nat, cb: nat, size: nat)
    requires JustFits(n, cb, size)
    ensures size <= Times(n, cb) && (size == 0 <==> n == 0)
  {}
}
