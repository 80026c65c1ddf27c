/**
 The driver on an image held in memory: the same volume, edited in place, and
 proved to make the same updates as the device routines.
 */
module Fat12Image {
  import opened Bytes
  import opened Fat12Layout
  import opened Fat12Journal
  import opened Fat12Chain
  import opened Fat12Dir
  import opened Fat12Sound
  import opened Fat12Ops
  import opened Fat12Device

  ghost function ViewIn(image: array<byte>, g: Geometry): Volume
    requires Fits(image[..], g)
    reads image
  {
    View(image[..], g)
  }

  // ----- table entries -----

  method GetEntry(image: array<byte>, g: Geometry, c: nat) returns (value: nat)
    requires Fits(image[..], g) && c < g.Entries()
    ensures value == LinkOf(image[..], g, c)
  {
    EntryInside(g, image.Length / SECTOR, 0, c);
    var at := g.reserved * SECTOR + c + c / 2;
    value := image[at] as int + 256 * image[at + 1] as int;
    value := if c % 2 == 1 then value / 16 else value % 4096;
  }

  /** Store an entry in every table copy, two bytes at a time. */
  method SetEntry(image: array<byte>, g: Geometry, c: nat, value: nat)
    requires Fits(image[..], g) && Link(c, value).Ok(g)
    modifies image
    ensures Fits(image[..], g)
    ensures image[..] == ApplyBytes(old(image[..]), g, Link(c, value))
  {
    hide LowByte, HighByte, Times;
    var k := 0;
    while k < g.fats
      invariant k <= g.fats
      invariant image[..] == PackCopies(old(image[..]), g, c, value, k)
    {
      EntryInside(g, image.Length / SECTOR, k, c);
      ghost var before := image[..];
      var at := (g.reserved + Times(k, g.spf)) * SECTOR + c + c / 2;
      image[at] := LowByte(c, value, image[at]);
      image[at + 1] := HighByte(c, value, image[at + 1]);
      assert image[..] == Pack(before, g.FatBase(k), c, value);
      k := k + 1;
    }
  }

  // ----- clusters -----

  /** Store bytes in a unit, one at a time. */
  method PutBytes(image: array<byte>, g: Geometry, u: nat, at: nat, part: seq<byte>)
    requires Fits(image[..], g) && Put(u, at, part).Ok(g)
    modifies image
    ensures Fits(image[..], g)
    ensures image[..] == ApplyBytes(old(image[..]), g, Put(u, at, part))
  {
    UnitInside(g, image.Length / SECTOR, u);
    var base := g.UnitBase(u) + at;
    var i := 0;
    while i < |part|
      invariant i <= |part|
      invariant forall k :: 0 <= k < image.Length ==>
                  image[k] == if base <= k < base + i then part[k - base] else old(image[k])
    {
      image[base + i] := part[i];
      i := i + 1;
    }
    assert image[..] == Splice(old(image[..]), base, part);
  }

  /** Take the lowest free cluster, marked as the end of a chain and cleared; 0 when none is free. */
  method TakeCluster(image: array<byte>, g: Geometry) returns (c: nat)
    requires Fits(image[..], g)
    modifies image
    ensures Fits(image[..], g)
    ensures var free := FirstFree(old(ViewIn(image, g)).fat, 2);
            && (free.None? ==> c == 0 && image[..] == old(image[..]))
            && (free.Some? ==>
                  && c == free.value && OpsOk(AllocOps(g, c), g)
                  && image[..] == RunBytes(old(image[..]), g, AllocOps(g, c)))
  {
    hide ApplyBytes, LinkOf, UnitOf;
    ghost var fat := ViewIn(image, g).fat;
    c := 2;
    while c < g.clusters + 2
      invariant 2 <= c <= g.clusters + 2 && image[..] == old(image[..])
      invariant FirstFree(fat, 2) == FirstFree(fat, c)
    {
      var value := GetEntry(image, g, c);
      assert fat[c] == value;
      if value == FREE {
        AllocBytes(image[..], g, c);
        SetEntry(image, g, c, EOC);
        PutBytes(image, g, c, 0, Zeros(g.UnitLen(2)));
        return;
      }
      c := c + 1;
    }
    c := 0;
  }

  /** Free a chain: read each link, then cut it. */
  method ReleaseChain(image: array<byte>, g: Geometry, c: nat)
    requires Fits(image[..], g) && LinksInside(ViewIn(image, g).fat) && InTable(ViewIn(image, g).fat, c)
    modifies image
    ensures Fits(image[..], g)
    ensures OpsOk(FreeOps(old(ViewIn(image, g)).fat, c), g)
    ensures image[..] == RunBytes(old(image[..]), g, FreeOps(old(ViewIn(image, g)).fat, c))
  {
    hide ApplyBytes, LinkOf, UnitOf, RunBytes, FreeOps, CountUsed, LinksInside, OpsOk, View, Times;
    var cluster: nat := c;
    ghost var done: seq<Op> := [];
    FreeOpsRun(ViewIn(image, g), g, c);
    RunBytesNil(image[..], g);
    ConcatNil(FreeOps(ViewIn(image, g).fat, c));
    while 2 <= cluster < EOC_MIN
      invariant Fits(image[..], g)
      invariant LinksInside(ViewIn(image, g).fat) && InTable(ViewIn(image, g).fat, cluster)
      invariant OpsOk(done, g) && image[..] == RunBytes(old(image[..]), g, done)
      invariant FreeOps(old(ViewIn(image, g)).fat, c) == done + FreeOps(ViewIn(image, g).fat, cluster)
      decreases CountUsed(ViewIn(image, g).fat), if 2 <= cluster < EOC_MIN then 1 else 0
    {
      FreeStep(old(image[..]), g, done, image[..], cluster);
      var next := GetEntry(image, g, cluster);
      SetEntry(image, g, cluster, FREE);
      ConcatAssociates(done, [Link(cluster, FREE)], FreeOps(ViewIn(image, g).fat, next));
      done := done + [Link(cluster, FREE)];
      cluster := next;
    }
    FreeStop(ViewIn(image, g).fat, cluster);
    ConcatNil(done);
  }

  // ----- directories -----

  /** The bytes of a slot in the image. */
  lemma SlotBytes(img: seq<byte>, g: Geometry, u: nat, j: nat)
    requires Fits(img, g) && u < g.Entries() && SLOT * j + SLOT <= g.UnitLen(u)
    ensures g.UnitBase(u) + SLOT * j + SLOT <= |img|
    ensures img[g.UnitBase(u) + SLOT * j..g.UnitBase(u) + SLOT * j + SLOT] == SlotIn(UnitOf(img, g, u), j)
    ensures img[g.UnitBase(u) + SLOT * j] == UnitOf(img, g, u)[SLOT * j]
  {
    UnitInside(g, |img| / SECTOR, u);
    var base, unit := g.UnitBase(u), UnitOf(img, g, u);
    assert forall k :: 0 <= k < |unit| ==> unit[k] == img[base + k];
    assert img[base + SLOT * j..base + SLOT * j + SLOT] == unit[SLOT * j..SLOT * j + SLOT];
  }

  method ScanImageUnit(image: array<byte>, g: Geometry, u: nat, name: name83) returns (r: Scan, entry: slot)
    requires Fits(image[..], g) && u < g.Entries()
    ensures r == ScanName(UnitOf(image[..], g, u), 0, name)
    ensures r.Hit? ==> entry == SlotIn(UnitOf(image[..], g, u), r.index)
  {
    hide UnitOf, Skipped, Name, ScanName, SlotIn, Times;
    ghost var unit := UnitOf(image[..], g, u);
    entry := Zeros(SLOT);
    var j := 0;
    while j < 16 * g.UnitSectors(u)
      invariant j <= 16 * g.UnitSectors(u)
      invariant ScanName(unit, 0, name) == ScanName(unit, j, name)
    {
      SlotBytes(image[..], g, u, j);
      ScanNameStep(unit, j, name);
      var at := g.UnitBase(u) + SLOT * j;
      entry := image[at..at + SLOT];
      assert entry == image[..][at..at + SLOT];
      if image[at] == 0 {
        return Stop, entry;
      }
      if !Skipped(entry) && Name(entry) == name {
        return Hit(j), entry;
      }
      j := j + 1;
    }
    ScanNameStep(unit, j, name);
    r := More;
  }

  method ScanImageVacant(image: array<byte>, g: Geometry, u: nat) returns (r: Option<nat>)
    requires Fits(image[..], g) && u < g.Entries()
    ensures r == ScanVacant(UnitOf(image[..], g, u), 0)
  {
    hide UnitOf, ScanVacant, SlotIn, Times;
    ghost var unit := UnitOf(image[..], g, u);
    var j := 0;
    while j < 16 * g.UnitSectors(u)
      invariant j <= 16 * g.UnitSectors(u)
      invariant ScanVacant(unit, 0) == ScanVacant(unit, j)
    {
      SlotBytes(image[..], g, u, j);
      ScanVacantStep(unit, j);
      if Vacant(image[g.UnitBase(u) + SLOT * j]) {
        return Some(j);
      }
      j := j + 1;
    }
    ScanVacantStep(unit, j);
    r := None;
  }

  lemma ImageUnit(image: array<byte>, g: Geometry, u: nat)
    requires Fits(image[..], g) && u < g.Entries()
    ensures |ViewIn(image, g).units| == g.Entries() == |ViewIn(image, g).fat|
    ensures ViewIn(image, g).units[u] == UnitOf(image[..], g, u) && ViewIn(image, g).fat[u] == LinkOf(image[..], g, u)
  {}

  method FindInDir(image: array<byte>, g: Geometry, ghost cat: Catalog, d: nat, name: name83)
    returns (r: Option<Ref>, entry: slot)
    requires Fits(image[..], g) && Sound(ViewIn(image, g), g, cat) && Dir(d) in cat.chains
    ensures UnitsIn(ViewIn(image, g), DirUnits(cat, d))
    ensures r == Search(ViewIn(image, g), DirUnits(cat, d), name)
    ensures r.Some? ==> r.value.unit < g.Entries() && SLOT * r.value.index + SLOT <= g.UnitLen(r.value.unit) &&
                        entry == SlotIn(UnitOf(image[..], g, r.value.unit), r.value.index)
  {
    hide SoundBut, View, UnitOf, ScanName, Search, SearchVacant, LinkOf, SlotIn;
    ghost var v := ViewIn(image, g);
    ghost var us := DirUnits(cat, d);
    FirstUnit(v, g, cat, None, d);
    SearchEnds(v, us, name);
    var scan;
    var current, go := d, true;
    ghost var i := 0;
    while go
      invariant 0 <= i <= |us| && (go ==> i < |us| && current == us[i] < g.Entries()) && (!go ==> i == |us|)
      invariant Search(v, us, name) == Search(v, us[i..], name)
      decreases |us| - i, go
    {
      ImageUnit(image, g, current);
      SearchStep(v, us, i, name);
      scan, entry := ScanImageUnit(image, g, current, name);
      if scan.Stop? {
        return None, entry;
      }
      if scan.Hit? {
        return Some(Ref(current, scan.index)), entry;
      }
      if d == 0 {
        go := false;
      } else {
        NextUnit(v, g, cat, None, d, i);
        current := GetEntry(image, g, current);
        go := current < EOC_MIN;
      }
      i := i + 1;
    }
    entry := Zeros(SLOT);
    r := None;
  }

  /** `us` are the units of the directory that starts at `d`, as the table chains them. */
  ghost predicate DirWalk(v: Volume, g: Geometry, us: seq<nat>, d: nat) {
    && Shaped(v, g) && |v.fat| <= BAD && UnitsIn(v, us) && us != [] && us[0] == d
    && (d == 0 ==> us == [0])
    && (d != 0 ==> IsChain(v.fat, us))
  }

  lemma SoundWalk(v: Volume, g: Geometry, cat: Catalog, d: nat)
    requires Sound(v, g, cat) && Dir(d) in cat.chains
    ensures DirWalk(v, g, DirUnits(cat, d), d)
  {
    FirstUnit(v, g, cat, None, d);
  }

  lemma WalkNext(v: Volume, g: Geometry, us: seq<nat>, d: nat, i: nat)
    requires DirWalk(v, g, us, d) && d != 0 && i < |us|
    ensures us[i] < g.Entries()
    ensures if i + 1 < |us| then v.fat[us[i]] == us[i + 1] < g.Entries() < EOC_MIN else EOC_MIN <= v.fat[us[i]]
  {}

  /** The first free or deleted slot of a directory. */
  method FindVacant(image: array<byte>, g: Geometry, d: nat, ghost us: seq<nat>) returns (r: Option<Ref>)
    requires Fits(image[..], g) && DirWalk(ViewIn(image, g), g, us, d)
    ensures r == SearchVacant(ViewIn(image, g), us)
  {
    hide View, UnitOf, ScanVacant, Search, SearchVacant, LinkOf, IsChain;
    ghost var v := ViewIn(image, g);
    SearchEnds(v, us, Zeros(11));
    var current, go := d, true;
    ghost var i := 0;
    while go
      invariant 0 <= i <= |us| && (go ==> i < |us| && current == us[i] < g.Entries()) && (!go ==> i == |us|)
      invariant SearchVacant(v, us) == SearchVacant(v, us[i..])
      decreases |us| - i, go
    {
      ImageUnit(image, g, current);
      VacantSearchStep(v, us, i);
      var j := ScanImageVacant(image, g, current);
      if j.Some? {
        return Some(Ref(current, j.value));
      }
      if d == 0 {
        go := false;
      } else {
        WalkNext(v, g, us, d, i);
        current := GetEntry(image, g, current);
        go := current < EOC_MIN;
      }
      i := i + 1;
    }
    r := None;
  }
}
