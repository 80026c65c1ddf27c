/**
 The commands of the driver on a block device: create a directory, write a file,
 unlink, remove a directory.  Each makes exactly the updates of its journal, and
 so leaves a consistent volume behind.
 */
module Fat12Commands {
  import opened Bytes
  import opened Paths
  import opened Fat12Layout
  import opened Fat12Journal
  import opened Fat12Chain
  import opened Fat12Dir
  import opened Fat12Sound
  import opened Fat12Lookup
  import opened Fat12Ops
  import opened Fat12Keeps
  import opened Fat12Write
  import opened Fat12Room
  import opened Fat12Tree
  import opened Fat12Run
  import opened Fat12Device
  import opened Fat12Names

  // ----- growing a chain on the device -----

  lemma OkSmall(g: Geometry, total: nat)
    requires g.Ok(total)
    ensures Small(g)
  {}

  /** The bytes after a cluster was marked, cleared and linked: still cleared. */
  lemma TakeBytes(img: seq<byte>, g: Geometry, s: seq<nat>, c: nat, chunk: seq<byte>)
    requires Fits(img, g) && Clusters(g, s) && 2 <= c < g.Entries() && |chunk| <= g.UnitLen(2)
    ensures OpsOk(TakeOps(g, s, c, chunk), g) && OpsOk(AllocOps(g, c), g)
    ensures var a := RunBytes(img, g, AllocOps(g, c));
            && UnitOf(a, g, c) == Zeros(g.UnitLen(2))
            && (s == [] ==> RunBytes(img, g, TakeOps(g, s, c, chunk)) == ApplyBytes(a, g, Put(c, 0, chunk)))
            && (s != [] ==>
                  && Link(s[|s| - 1], c).Ok(g)
                  && UnitOf(ApplyBytes(a, g, Link(s[|s| - 1], c)), g, c) == Zeros(g.UnitLen(2))
                  && RunBytes(img, g, TakeOps(g, s, c, chunk)) ==
                     ApplyBytes(ApplyBytes(a, g, Link(s[|s| - 1], c)), g, Put(c, 0, chunk)))
  {
    hide UnitOf, ApplyBytes, RunBytes, Splice;
    OkSmall(g, |img| / SECTOR);
    TakeOk(g, s, c, chunk);
    AllocBytes(img, g, c);
    var cb, e := g.UnitLen(2), Put(c, 0, chunk);
    assert g.UnitLen(c) == cb;
    var a := RunBytes(img, g, AllocOps(g, c));
    PutInUnit(ApplyBytes(img, g, Link(c, EOC)), g, c, 0, Zeros(cb), c);
    SpliceWhole(UnitOf(ApplyBytes(img, g, Link(c, EOC)), g, c), Zeros(cb));
    if s == [] {
      assert AllocOps(g, c) + [] + [e] == AllocOps(g, c) + [e];
      RunBytesConcat(img, g, AllocOps(g, c), [e]);
      RunBytesOne(a, g, e);
    } else {
      var l := Link(s[|s| - 1], c);
      LinkKeepsUnit(a, g, s[|s| - 1], c, c);
      RunBytesOne(a, g, l);
      RunBytesConcat(img, g, AllocOps(g, c), [l]);
      RunBytesOne(ApplyBytes(a, g, l), g, e);
      RunBytesConcat(img, g, AllocOps(g, c) + [l], [e]);
    }
  }

  lemma SpliceWhole(s: seq<byte>, part: seq<byte>)
    requires |s| == |part|
    ensures Splice(s, 0, part) == part
  {}

  lemma GrowStep(v: Volume, g: Geometry, s: seq<nat>, data: seq<byte>)
    requires Shaped(v, g) && Small(g) && Clusters(g, s) && data != []
    ensures var free := FirstFree(v.fat, 2);
            && (free.None? ==> Grow(v, g, s, data) == Grown([], s, true))
            && (free.Some? ==>
                  var c, n := free.value, Min(|data|, g.UnitLen(2));
                  && OpsOk(TakeOps(g, s, c, data[..n]), g) && Clusters(g, s + [c])
                  && var rest := Grow(Run(v, g, TakeOps(g, s, c, data[..n])), g, s + [c], data[n..]);
                     Grow(v, g, s, data) == Grown(TakeOps(g, s, c, data[..n]) + rest.ops, rest.chain, rest.full))
  {
    var free := FirstFree(v.fat, 2);
    if free.Some? {
      TakeOk(g, s, free.value, data[..Min(|data|, g.UnitLen(2))]);
    }
  }

  /** The state of growing: what was done, and what is left to do, is the whole. */
  ghost predicate Growing(img: seq<byte>, g: Geometry, data: seq<byte>, now: seq<byte>, done: seq<Op>, s: seq<nat>,
                          written: nat) {
    && Fits(img, g) && Fits(now, g) && Small(g) && written <= |data| && Clusters(g, s) && OpsOk(done, g)
    && now == RunBytes(img, g, done)
    && var all, rest := Grow(View(img, g), g, [], data), Grow(View(now, g), g, s, data[written..]);
       all == Grown(done + rest.ops, rest.chain, rest.full)
  }

  lemma GrowingStarts(img: seq<byte>, g: Geometry, data: seq<byte>)
    requires Fits(img, g)
    ensures Growing(img, g, data, img, [], [], 0)
  {
    OkSmall(g, |img| / SECTOR);
    assert data[0..] == data;
    RunBytesNil(img, g);
    assert [] + Grow(View(img, g), g, [], data).ops == Grow(View(img, g), g, [], data).ops;
  }

  lemma GrowingStep(img: seq<byte>, g: Geometry, data: seq<byte>, now: seq<byte>, done: seq<Op>, s: seq<nat>,
                    written: nat, c: nat)
    requires Growing(img, g, data, now, done, s, written) && written < |data|
    requires FirstFree(View(now, g).fat, 2) == Some(c)
    ensures 2 <= c < g.Entries()
    ensures var n := Min(|data| - written, g.UnitLen(2)); var take := TakeOps(g, s, c, data[written..written + n]);
            OpsOk(take, g) && Growing(img, g, data, RunBytes(now, g, take), done + take, s + [c], written + n)
  {
    hide Run, RunBytes, OpsOk, Grow, TakeOps, View, Clusters;
    var n := Min(|data| - written, g.UnitLen(2));
    var left := data[written..];
    assert left[..n] == data[written..written + n] && left[n..] == data[written + n..];
    var take := TakeOps(g, s, c, left[..n]);
    GrowStep(View(now, g), g, s, left);
    ViewRun(now, g, take);
    RunBytesConcat(img, g, done, take);
    ConcatAssociates(done, take, Grow(View(RunBytes(now, g, take), g), g, s + [c], left[n..]).ops);
  }

  lemma GrowingEnds(img: seq<byte>, g: Geometry, data: seq<byte>, now: seq<byte>, done: seq<Op>, s: seq<nat>,
                    written: nat)
    requires Growing(img, g, data, now, done, s, written)
    requires written == |data| || FirstFree(View(now, g).fat, 2).None?
    ensures Grow(View(img, g), g, [], data) == Grown(done, s, written < |data|)
  {
    ConcatNil(done);
    if written < |data| {
      GrowStep(View(now, g), g, s, data[written..]);
    }
  }

  /** Store data in a new chain, cluster by cluster; stop when no cluster is free. */
  method GrowChain(dev: BlockDevice, g: Geometry, data: seq<byte>) returns (first: nat, full: bool)
    requires Holds(dev, g)
    modifies dev
    ensures Holds(dev, g) && |dev.sectors| == old(|dev.sectors|)
    ensures Small(g) && Clusters(g, [])
    ensures var gr := Grow(old(ViewOf(dev, g)), g, [], data);
            && full == gr.full && first == FirstOf(gr.chain)
            && dev.Flat() == RunBytes(old(dev.Flat()), g, gr.ops)
  {
    hide FlatOf, View, UnitOf, RunBytes, ApplyBytes, Growing, Grow, FirstFree, TakeOps, Run, OpsOk;
    ghost var img := dev.Flat();
    ghost var done: seq<Op>, s: seq<nat> := [], [];
    GrowingStarts(img, g, data);
    OkSmall(g, |dev.sectors|);
    first := 0;
    var prev, written := 0, 0;
    while written < |data|
      invariant Holds(dev, g) && |dev.sectors| == old(|dev.sectors|) && written <= |data|
      invariant Growing(img, g, data, dev.Flat(), done, s, written)
      invariant Clusters(g, s) && first == FirstOf(s) && prev == (if s == [] then 0 else s[|s| - 1])
    {
      ghost var now := dev.Flat();
      var c := AllocCluster(dev, g);
      if c == 0 {
        GrowingEnds(img, g, data, now, done, s, written);
        GrowingBytes(img, g, data, now, done, s, written);
        return first, true;
      }
      GrowingStep(img, g, data, now, done, s, written, c);
      var n := Min(|data| - written, g.UnitLen(2));
      TakeBytes(now, g, s, c, data[written..written + n]);
      if first == 0 {
        first := c;
      }
      if prev != 0 {
        SetFatEntry(dev, g, prev, c);
      }
      prev := c;
      FillCluster(dev, g, c, data[written..written + n]);
      done, s := done + TakeOps(g, s, c, data[written..written + n]), s + [c];
      written := written + n;
    }
    GrowingEnds(img, g, data, dev.Flat(), done, s, written);
    GrowingBytes(img, g, data, dev.Flat(), done, s, written);
    full := false;
  }

  lemma GrowingBytes(img: seq<byte>, g: Geometry, data: seq<byte>, now: seq<byte>, done: seq<Op>, s: seq<nat>,
                     written: nat)
    requires Growing(img, g, data, now, done, s, written)
    ensures Fits(img, g) && OpsOk(done, g) && now == RunBytes(img, g, done)
  {}

  // ----- paths on the device -----

  lemma ResolveStep(v: Volume, g: Geometry, cat: Catalog, d: nat, names: seq<seq<byte>>)
    requires Sound(v, g, cat) && Dir(d) in cat.chains && names != []
    ensures Shaped(v, g) && UnitsIn(v, DirUnits(cat, d))
    ensures var n := DirName(names[0]);
            && (NAME_CAP <= |names[0]| || n.None? ==> Resolve(v, g, cat, d, names) == Fail(Invalid))
            && (|names[0]| < NAME_CAP && n.Some? ==>
                  var f := Search(v, DirUnits(cat, d), n.value);
                  && (f.None? ==> Resolve(v, g, cat, d, names) == Fail(NotFound))
                  && (f.Some? ==>
                        && IsSlot(g, cat, f.value)
                        && (!IsDir(SlotAt(v, g, f.value)) ==> Resolve(v, g, cat, d, names) == Fail(NotDirectory))
                        && (IsDir(SlotAt(v, g, f.value)) ==>
                              && Dir(Head(SlotAt(v, g, f.value))) in cat.chains
                              && Resolve(v, g, cat, d, names) ==
                                 Resolve(v, g, cat, Head(SlotAt(v, g, f.value)), names[1..]))))
  {
    hide SoundBut;
    UnitsOk(v, g, cat, None, d);
    RootKnown(v, g, cat, None);
    if |names[0]| < NAME_CAP && DirName(names[0]).Some? {
      SearchFound(v, g, cat, d, names[0]);
    }
  }

  /** Follow the components of a path through the directories, from the root on. */
  method ResolveDir(dev: BlockDevice, g: Geometry, ghost cat: Catalog, path: seq<byte>) returns (r: Resolved)
    requires Holds(dev, g) && Sound(ViewOf(dev, g), g, cat) && Dir(0) in cat.chains
    ensures r == if path == [] || path[0] != SLASH then Fail(Invalid)
            else Resolve(ViewOf(dev, g), g, cat, 0, Components(path))
  {
    hide SoundBut, View, FlatOf, UnitOf, Search, Resolve, SlotAt, SlotIn, IsDir, Components, TokenLen, DirName;
    if path == [] || path[0] != SLASH {
      return Fail(Invalid);
    }
    ghost var v := ViewOf(dev, g);
    var at, current := 0, 0;
    assert path[0..] == path;
    while at < |path|
      invariant 0 <= at <= |path| && Dir(current) in cat.chains
      invariant Resolve(v, g, cat, 0, Components(path)) == Resolve(v, g, cat, current, Components(path[at..]))
    {
      if path[at] == SLASH {
        SlashSkipped(path[at..]);
        assert path[at..][1..] == path[at + 1..];
        at := at + 1;
      } else {
        var len := 0;
        while at + len < |path| && path[at + len] != SLASH
          invariant at + len <= |path| && len < NAME_CAP
          invariant forall i :: 0 <= i < len ==> path[at..][i] != SLASH
        {
          if len + 1 >= NAME_CAP {
            LongToken(path[at..], len + 1);
            ResolveStep(v, g, cat, current, Components(path[at..]));
            return Fail(Invalid);
          }
          len := len + 1;
        }
        TokenTaken(path[at..], len);
        var component := path[at..at + len];
        assert component == path[at..][..len] && path[at..][len..] == path[at + len..];
        ResolveStep(v, g, cat, current, Components(path[at..]));
        var name := MakeDirName(component);
        if name.None? {
          return Fail(Invalid);
        }
        var f, entry := FindEntry(dev, g, cat, current, name.value);
        if f.None? {
          return Fail(NotFound);
        }
        EntryIsSlot(dev, g, f.value);
        if !IsDir(entry) {
          return Fail(NotDirectory);
        }
        current := Head(entry);
        at := at + len;
      }
    }
    assert path[at..] == [];
    ResolveNil(v, g, cat, current);
    r := Directory(current);
  }

  lemma ResolveNil(v: Volume, g: Geometry, cat: Catalog, d: nat)
    requires Sound(v, g, cat) && Dir(d) in cat.chains
    ensures Components([]) == [] && Resolve(v, g, cat, d, []) == Directory(d)
  {}

  lemma EntryIsSlot(dev: BlockDevice, g: Geometry, r: Ref)
    requires Holds(dev, g) && r.unit < g.Entries() && SLOT * r.index + SLOT <= g.UnitLen(r.unit)
    ensures Shaped(ViewOf(dev, g), g)
    ensures SlotAt(ViewOf(dev, g), g, r) == SlotIn(UnitOf(dev.Flat(), g, r.unit), r.index)
  {
    ViewUnit(dev, g, r.unit);
  }

  // ----- commands -----

  /** The geometry found on a device, if its boot record is acceptable. */
  function Mounting(sectors: seq<sector>): Option<Geometry>
    requires 0 < |sectors|
  {
    var b := ParseBpb(sectors[0]);
    if b.None? then None else Some(GeometryOf(b.value, |sectors|))
  }

  /** A device whose volume, if it has an acceptable boot record, is consistent. */
  ghost predicate Mounted(sectors: seq<sector>, cat: Catalog) {
    && 0 < |sectors|
    && (Mounting(sectors).Some? ==>
          var g := Mounting(sectors).value;
          g.Ok(|sectors|) && Sound(View(FlatOf(sectors), g), g, cat))
  }

  /** Updates do not reach the boot sector. */
  lemma BootStays(before: seq<sector>, after: seq<sector>, g: Geometry, ops: seq<Op>)
    requires 0 < |before| == |after| && Mounting(before) == Some(g) && g.Ok(|before|) && OpsOk(ops, g)
    requires FlatOf(after) == RunBytes(FlatOf(before), g, ops)
    ensures Mounting(after) == Some(g)
  {
    hide RunBytes, ParseBpb, GeometryOf;
    RunKeepsBoot(FlatOf(before), g, ops);
    forall b | 0 <= b < SECTOR
      ensures after[0][b] == before[0][b]
    {
      FlatByte(after, 0, b);
      FlatByte(before, 0, b);
      assert FlatOf(after)[..SECTOR][b] == FlatOf(before)[..SECTOR][b];
    }
    assert after[0] == before[0];
  }

  /** A device whose volume stays consistent stays mounted as it was. */
  lemma StaysMounted(before: seq<sector>, after: seq<sector>, g: Geometry, ops: seq<Op>, cat': Catalog)
    requires 0 < |before| == |after| && Mounting(before) == Some(g) && g.Ok(|before|) && OpsOk(ops, g)
    requires FlatOf(after) == RunBytes(FlatOf(before), g, ops)
    requires Sound(Run(View(FlatOf(before), g), g, ops), g, cat')
    ensures Mounted(after, cat') && Mounting(after) == Some(g)
  {
    hide RunBytes, Run, SoundBut, View, ParseBpb, GeometryOf;
    ViewRun(FlatOf(before), g, ops);
    BootStays(before, after, g, ops);
  }

  /** Find the entry a split path and an 8.3 name refer to. */
  method LocateEntry(dev: BlockDevice, g: Geometry, ghost cat: Catalog, sp: Split, name: name83)
    returns (t: Target, entry: slot)
    requires Holds(dev, g) && Sound(ViewOf(dev, g), g, cat) && sp.Split? && name[0] != DOT
    requires sp.parent != [] && sp.parent[0] == SLASH
    ensures t == Locate(ViewOf(dev, g), g, cat, sp, Some(name))
    ensures t.Present? ==> Shaped(ViewOf(dev, g), g) && entry == SlotAt(ViewOf(dev, g), g, t.ref)
  {
    hide SoundBut, View, FlatOf, UnitOf, Search, Resolve, SlotIn, Components, SlotAt;
    entry := Zeros(SLOT);
    RootKnown(ViewOf(dev, g), g, cat, None);
    var at := ResolveDir(dev, g, cat, sp.parent);
    if at.Fail? {
      return Bad(at.rc), entry;
    }
    var f;
    f, entry := FindEntry(dev, g, cat, at.head, name);
    if f.None? {
      return Missing(at.head), entry;
    }
    EntryIsSlot(dev, g, f.value);
    t := Present(at.head, f.value);
  }

  /** Mark an entry deleted and free its chain. */
  method DropEntry(dev: BlockDevice, g: Geometry, r: Ref, head: nat)
    requires Holds(dev, g) && LinksInside(ViewOf(dev, g).fat) && InTable(ViewOf(dev, g).fat, head)
    requires r.unit < g.Entries() && r.unit != 1 && SLOT * r.index + SLOT <= g.UnitLen(r.unit)
    modifies dev
    ensures Holds(dev, g) && |dev.sectors| == old(|dev.sectors|)
    ensures OpsOk(DropOps(old(ViewOf(dev, g)), r, head), g)
    ensures dev.Flat() == RunBytes(old(dev.Flat()), g, DropOps(old(ViewOf(dev, g)), r, head))
  {
    hide View, FlatOf, UnitOf, RunBytes, ApplyBytes, FreeOps, LinksInside, OpsOk, Splice;
    ghost var img := dev.Flat();
    MarkDeleted(dev, g, r);
    MarkKeepsTable(img, g, r);
    RunBytesOne(img, g, PutSlot(r, [DELETED]));
    FreeOpsRun(View(img, g), g, head);
    RunBytesNil(dev.Flat(), g);
    if head != 0 {
      FreeClusterChain(dev, g, head);
    }
    RunBytesConcat(img, g, [PutSlot(r, [DELETED])], FreeHead(View(img, g), head));
  }

  lemma MarkKeepsTable(img: seq<byte>, g: Geometry, r: Ref)
    requires Fits(img, g) && PutSlot(r, [DELETED]).Ok(g)
    ensures OpsOk([PutSlot(r, [DELETED])], g)
    ensures View(ApplyBytes(img, g, PutSlot(r, [DELETED])), g).fat == View(img, g).fat
  {
    ViewPut(img, g, r.unit, SLOT * r.index, [DELETED]);
  }

  method UnlinkOnDevice(dev: BlockDevice, ghost cat: Catalog, path: cstring) returns (rc: Rc, ghost cat': Catalog)
    requires Mounted(dev.sectors, cat)
    modifies dev
    ensures Mounted(dev.sectors, cat') && Mounting(dev.sectors) == Mounting(old(dev.sectors))
    ensures match Mounting(old(dev.sectors))
            case None => rc == Invalid && dev.sectors == old(dev.sectors)
            case Some(g) =>
              var v := View(old(dev.Flat()), g);
              var o := Unlink(v, g, cat, path);
              && OpsOk(o.ops, g) && dev.Flat() == RunBytes(old(dev.Flat()), g, o.ops)
              && rc == match FileTarget(v, g, cat, path)
                       case Bad(e) => e
                       case Missing(_) => NotFound
                       case Present(_, r) => if IsDir(SlotAt(v, g, r)) then IsDirectory else Okay
  {
    hide View, FlatOf, UnitOf, RunBytes, Run, SoundBut, Resolve, Search, Components, SlotAt, Named, LinksInside,
         FreeOps, ParseBpb, GeometryOf, SplitPath, FileName, IsDir, Head, OpsOk, FilesBut, PathsBut;
    cat' := cat;
    var boot := dev.Read(0);
    var bpb := ParseBpb(boot);
    if bpb.None? {
      return Invalid, cat;
    }
    var g := GeometryOf(bpb.value, |dev.sectors|);
    ghost var v, first := View(dev.Flat(), g), dev.sectors;
    RunBytesNil(dev.Flat(), g);
    UnlinkAnswers(v, g, cat, path);
    var sp := SplitCreatePath(path);
    if sp.NoSplit? {
      return Invalid, cat;
    }
    var name := MakeFileName(sp.leaf);
    if name.None? {
      return Invalid, cat;
    }
    FileNamePlain(sp.leaf);
    var t, entry := LocateEntry(dev, g, cat, sp, name.value);
    if t.Bad? {
      return t.rc, cat;
    }
    if t.Missing? {
      return NotFound, cat;
    }
    if IsDir(entry) {
      return IsDirectory, cat;
    }
    HeadInTable(v, g, cat, t.ref);
    SlotUnit(v, g, cat, None, t.ref);
    DropEntry(dev, g, t.ref, Head(entry));
    ghost var w;
    w, cat' := UnlinkKeeps(v, g, cat, path);
    StaysMounted(first, dev.sectors, g, Unlink(v, g, cat, path).ops, cat');
    rc := Okay;
  }

  // ----- rmdir -----

  /** None of the first `n` slots of the unit names anything. */
  ghost predicate NothingNamed(unit: seq<byte>, n: nat) {
    forall j: nat :: j < n && SLOT * j + SLOT <= |unit| ==> !Named(SlotIn(unit, j))
  }

  /** Never-used slots end a unit. */
  ghost predicate UnitTail(unit: seq<byte>) {
    forall j: nat, n: nat :: j < n && SLOT * n + SLOT <= |unit| && unit[SLOT * j] == 0 ==> unit[SLOT * n] == 0
  }

  lemma ZeroUnnamed(unit: seq<byte>, i: nat, e: nat)
    requires UnitTail(unit) && NothingNamed(unit, 16 * i + e) && e < 16 && i * SECTOR + SECTOR <= |unit|
    requires unit[SLOT * (16 * i + e)] == 0
    ensures NothingNamed(unit, 16 * (i + 1))
  {
    forall j: nat | j < 16 * (i + 1) && SLOT * j + SLOT <= |unit|
      ensures !Named(SlotIn(unit, j))
    {
      assert SlotIn(unit, j)[0] == unit[SLOT * j];
      if 16 * i + e < j {
        assert unit[SLOT * j] == 0;
      }
    }
  }

  /** Check one cluster of a directory for entries; a never-used slot ends each sector's check. */
  method UnitIsEmpty(dev: BlockDevice, g: Geometry, u: nat) returns (empty: bool)
    requires Holds(dev, g) && u < g.Entries() && UnitTail(UnitOf(dev.Flat(), g, u))
    ensures empty <==> NothingNamed(UnitOf(dev.Flat(), g, u), g.UnitLen(u))
  {
    hide FlatOf, UnitOf, Named, SlotIn, UnitTail;
    ghost var unit := UnitOf(dev.Flat(), g, u);
    var i := 0;
    while i < g.UnitSectors(u)
      invariant i <= g.UnitSectors(u) && NothingNamed(unit, 16 * i)
    {
      UnitSector(dev, g, u, i);
      var buf := dev.Read(g.UnitLba(u) + i);
      var e := 0;
      while e < 16
        invariant 0 <= e <= 16 && NothingNamed(unit, 16 * i + e)
      {
        BufferSlot(unit, i, e, buf);
        var entry: slot := buf[SLOT * e..SLOT * e + SLOT];
        NamedIf(entry);
        if entry[0] == 0 {
          ZeroUnnamed(unit, i, e);
          break;
        }
        if !Skipped(entry) && !Dots(entry) {
          return false;
        }
        e := e + 1;
      }
      i := i + 1;
    }
    empty := true;
  }

  lemma NamedIf(s: slot)
    ensures Named(s) <==> s[0] != 0 && !Skipped(s) && !Dots(s)
  {}

  lemma DirUnitTail(v: Volume, g: Geometry, cat: Catalog, h: nat, i: nat)
    requires Sound(v, g, cat) && Dir(h) in cat.chains && i < |DirUnits(cat, h)|
    ensures DirUnits(cat, h)[i] < |v.units| && UnitTail(v.units[DirUnits(cat, h)[i]])
  {
    UnitsOk(v, g, cat, None, h);
    var us := DirUnits(cat, h);
    var unit := v.units[us[i]];
    forall j: nat, n: nat | j < n && SLOT * n + SLOT <= |unit| && unit[SLOT * j] == 0
      ensures unit[SLOT * n] == 0
    {
      assert TailAt(v, g, us, i, j, i, n);
    }
  }

  ghost predicate EmptyUpTo(v: Volume, us: seq<nat>, k: nat)
    requires UnitsIn(v, us)
  {
    forall i :: 0 <= i < k && i < |us| ==> NothingNamed(v.units[us[i]], |v.units[us[i]]|)
  }

  /** A directory is empty exactly when none of its clusters names anything. */
  lemma EmptyMeans(v: Volume, g: Geometry, cat: Catalog, h: nat)
    requires Sound(v, g, cat) && Dir(h) in cat.chains && UnitsIn(v, DirUnits(cat, h))
    ensures Shaped(v, g) && (EmptyDir(v, g, cat, h) <==> EmptyUpTo(v, DirUnits(cat, h), |DirUnits(cat, h)|))
  {
    hide SoundBut, Named, SlotIn;
    RootKnown(v, g, cat, None);
    UnitsOk(v, g, cat, None, h);
    var us := DirUnits(cat, h);
    if EmptyDir(v, g, cat, h) {
      forall i, j: nat | 0 <= i < |us| && j < |v.units[us[i]]| && SLOT * j + SLOT <= |v.units[us[i]]|
        ensures !Named(SlotIn(v.units[us[i]], j))
      {
        assert IsSlot(g, cat, Ref(us[i], j));
        assert SlotAt(v, g, Ref(us[i], j)) == SlotIn(v.units[us[i]], j);
      }
    }
    if EmptyUpTo(v, us, |us|) {
      forall q | IsSlot(g, cat, q) && Home(cat, q) == h
        ensures !Named(SlotAt(v, g, q))
      {
        SlotInUnits(v, g, cat, None, q);
        var i :| 0 <= i < |us| && us[i] == q.unit;
        assert NothingNamed(v.units[us[i]], |v.units[us[i]]|);
      }
    }
  }

  /** Check every cluster of a directory. */
  method DirIsEmpty(dev: BlockDevice, g: Geometry, ghost cat: Catalog, h: nat) returns (empty: bool)
    requires Holds(dev, g) && Sound(ViewOf(dev, g), g, cat) && Dir(h) in cat.chains && h != 0
    ensures Shaped(ViewOf(dev, g), g) && (empty <==> EmptyDir(ViewOf(dev, g), g, cat, h))
  {
    hide SoundBut, View, FlatOf, UnitOf, LinkOf, NothingNamed, UnitTail, EmptyDir;
    ghost var v := ViewOf(dev, g);
    ghost var us := DirUnits(cat, h);
    FirstUnit(v, g, cat, None, h);
    EmptyMeans(v, g, cat, h);
    FirstCluster(v, g, cat, h);
    var current := h;
    ghost var i := 0;
    while 2 <= current < EOC_MIN
      invariant 0 <= i <= |us| && (i < |us| ==> current == us[i] && 2 <= current < g.Entries())
      invariant i == |us| ==> EOC_MIN <= current
      invariant EmptyUpTo(v, us, i)
      decreases |us| - i
    {
      ViewUnit(dev, g, current);
      DirUnitTail(v, g, cat, h, i);
      NextUnit(v, g, cat, None, h, i);
      var none := UnitIsEmpty(dev, g, current);
      assert g.UnitLen(current) == |v.units[us[i]]|;
      if !none {
        return false;
      }
      current := GetFatEntry(dev, g, current);
      i := i + 1;
    }
    empty := true;
  }

  lemma FirstCluster(v: Volume, g: Geometry, cat: Catalog, h: nat)
    requires Sound(v, g, cat) && Dir(h) in cat.chains && h != 0
    ensures 2 <= h < g.Entries() < EOC_MIN
  {
    DirKnown(v, g, cat, None, h);
    assert IsChain(v.fat, cat.chains[Dir(h)]);
  }

  /** Remove an empty directory; the working directory's own path is refused. */
  method RmdirOnDevice(dev: BlockDevice, ghost cat: Catalog, cwd: cstring, path: cstring)
    returns (rc: Rc, ghost cat': Catalog)
    requires Mounted(dev.sectors, cat)
    modifies dev
    ensures Mounted(dev.sectors, cat') && Mounting(dev.sectors) == Mounting(old(dev.sectors))
    ensures path == [SLASH] || path == cwd ==> rc == Invalid && dev.sectors == old(dev.sectors)
    ensures path != [SLASH] && path != cwd ==>
            match Mounting(old(dev.sectors))
            case None => rc == Invalid && dev.sectors == old(dev.sectors)
            case Some(g) =>
              var v := View(old(dev.Flat()), g);
              var o := Rmdir(v, g, cat, path);
              && OpsOk(o.ops, g) && dev.Flat() == RunBytes(old(dev.Flat()), g, o.ops)
              && rc == match DirTarget(v, g, cat, path)
                       case Bad(e) => e
                       case Missing(_) => NotFound
                       case Present(_, r) =>
                         var s := SlotAt(v, g, r);
                         if !IsDir(s) then NotDirectory else if Occupied(v, g, cat, Head(s)) then NotEmpty else Okay
  {
    hide View, FlatOf, UnitOf, RunBytes, Run, SoundBut, Resolve, Search, Components, SlotAt, Named, LinksInside,
         FreeOps, ParseBpb, GeometryOf, SplitPath, DirName, IsDir, Head, OpsOk, EmptyDir, FilesBut, PathsBut, Occupied;
    cat' := cat;
    if path == [SLASH] || path == cwd {
      return Invalid, cat;
    }
    var boot := dev.Read(0);
    var bpb := ParseBpb(boot);
    if bpb.None? {
      return Invalid, cat;
    }
    var g := GeometryOf(bpb.value, |dev.sectors|);
    ghost var v, first := View(dev.Flat(), g), dev.sectors;
    RunBytesNil(dev.Flat(), g);
    RmdirAnswers(v, g, cat, path);
    var sp := SplitCreatePath(path);
    if sp.NoSplit? {
      return Invalid, cat;
    }
    var name := MakeDirName(sp.leaf);
    if name.None? {
      return Invalid, cat;
    }
    DirNamePlain(sp.leaf);
    var t, entry := LocateEntry(dev, g, cat, sp, name.value);
    if t.Bad? {
      return t.rc, cat;
    }
    if t.Missing? {
      return NotFound, cat;
    }
    if !IsDir(entry) || Head(entry) < 2 {
      return NotDirectory, cat;
    }
    var empty := DirIsEmpty(dev, g, cat, Head(entry));
    if !empty {
      return NotEmpty, cat;
    }
    HeadInTable(v, g, cat, t.ref);
    SlotUnit(v, g, cat, None, t.ref);
    DropEntry(dev, g, t.ref, Head(entry));
    ghost var w;
    w, cat' := RmdirKeeps(v, g, cat, path);
    StaysMounted(first, dev.sectors, g, Rmdir(v, g, cat, path).ops, cat');
    rc := Okay;
  }

  // ----- mkdir -----

  lemma MkdirBytes(img: seq<byte>, g: Geometry, r: Ref, c: nat, parent: nat, leaf: name83)
    requires Fits(img, g) && 2 <= c < g.Entries() && r.unit != 1 && r.unit < g.Entries()
    requires SLOT * r.index + SLOT <= g.UnitLen(r.unit)
    ensures OpsOk(AllocOps(g, c), g) && OpsOk(MkdirOps(g, r, c, parent, leaf), g)
    ensures var s, dot, dotdot := MakeEntry(leaf, ATTR_DIRECTORY, c, 0),
            MakeEntry(DOT_NAME, ATTR_DIRECTORY, c, 0), MakeEntry(DOTDOT_NAME, ATTR_DIRECTORY, parent, 0);
            && PutSlot(r, s).Ok(g) && PutSlot(Ref(c, 0), dot).Ok(g) && PutSlot(Ref(c, 1), dotdot).Ok(g)
            && RunBytes(img, g, MkdirOps(g, r, c, parent, leaf)) ==
               ApplyBytes(ApplyBytes(ApplyBytes(RunBytes(img, g, AllocOps(g, c)), g, PutSlot(r, s)), g,
                                     PutSlot(Ref(c, 0), dot)), g, PutSlot(Ref(c, 1), dotdot))
  {
    hide RunBytes, ApplyBytes, MakeEntry;
    var s, dot, dotdot := MakeEntry(leaf, ATTR_DIRECTORY, c, 0), MakeEntry(DOT_NAME, ATTR_DIRECTORY, c, 0),
      MakeEntry(DOTDOT_NAME, ATTR_DIRECTORY, parent, 0);
    var a, x, y, z := AllocOps(g, c), PutSlot(r, s), PutSlot(Ref(c, 0), dot), PutSlot(Ref(c, 1), dotdot);
    AllocBytes(img, g, c);
    assert a == [Link(c, EOC)] + [Put(c, 0, Zeros(g.UnitLen(2)))];
    var i0 := RunBytes(img, g, a);
    RunBytesOne(i0, g, x);
    RunBytesConcat(img, g, a, [x]);
    var i1 := ApplyBytes(i0, g, x);
    RunBytesOne(i1, g, y);
    RunBytesConcat(img, g, a + [x], [y]);
    var i2 := ApplyBytes(i1, g, y);
    RunBytesOne(i2, g, z);
    RunBytesConcat(img, g, a + [x] + [y], [z]);
    MkdirOpsAre(g, r, c, parent, leaf);
  }

  method CreateDirOnDevice(dev: BlockDevice, ghost cat: Catalog, path: cstring) returns (rc: Rc, ghost cat': Catalog)
    requires Mounted(dev.sectors, cat)
    modifies dev
    ensures 0 < |dev.sectors| && Mounting(dev.sectors) == Mounting(old(dev.sectors))
    ensures match Mounting(old(dev.sectors))
            case None => rc == Invalid && dev.sectors == old(dev.sectors)
            case Some(g) =>
              var v := View(old(dev.Flat()), g);
              var o := Mkdir(v, g, cat, path);
              && rc == o.rc && OpsOk(o.ops, g) && dev.Flat() == RunBytes(old(dev.Flat()), g, o.ops)
              && (!LosesDir(v, g, cat, path) ==> Mounted(dev.sectors, cat'))
  {
    hide View, FlatOf, UnitOf, RunBytes, ApplyBytes, Run, SoundBut, Resolve, Search, SearchVacant, FirstFree,
         Components, SlotAt, Named, ParseBpb, GeometryOf, SplitPath, DirName, IsDir, OpsOk, LosesDir, MkdirFits,
         MkdirOps, AllocOps, MakeEntry, UsedBefore, FilesBut, PathsBut, EmptyDir;
    cat' := cat;
    var boot := dev.Read(0);
    var bpb := ParseBpb(boot);
    if bpb.None? {
      return Invalid, cat;
    }
    var g := GeometryOf(bpb.value, |dev.sectors|);
    ghost var v, first := View(dev.Flat(), g), dev.sectors;
    RunBytesNil(dev.Flat(), g);
    OkSmall(g, |dev.sectors|);
    var sp := SplitCreatePath(path);
    if sp.NoSplit? {
      return Invalid, cat;
    }
    var name := MakeDirName(sp.leaf);
    if name.None? {
      return Invalid, cat;
    }
    DirNamePlain(sp.leaf);
    var t, entry := LocateEntry(dev, g, cat, sp, name.value);
    if t.Bad? {
      return t.rc, cat;
    }
    if t.Present? {
      return if IsDir(entry) then Okay else Exists, cat;
    }
    var f := FindFreeEntry(dev, g, cat, t.dir);
    if f.None? {
      return NoSpace, cat;
    }
    VacantFinds(v, g, cat, t.dir);
    SlotUnit(v, g, cat, None, f.value);
    var c := AllocCluster(dev, g);
    if c == 0 {
      return NoSpace, cat;
    }
    MkdirBytes(old(dev.Flat()), g, f.value, c, t.dir, name.value);
    WriteEntry(dev, g, f.value, MakeEntry(name.value, ATTR_DIRECTORY, c, 0));
    WriteEntry(dev, g, Ref(c, 0), MakeEntry(DOT_NAME, ATTR_DIRECTORY, c, 0));
    WriteEntry(dev, g, Ref(c, 1), MakeEntry(DOTDOT_NAME, ATTR_DIRECTORY, t.dir, 0));
    BootStays(first, dev.sectors, g, Mkdir(v, g, cat, path).ops);
    if !LosesDir(v, g, cat, path) {
      ghost var w;
      w, cat' := MkdirKeeps(v, g, cat, path);
      StaysMounted(first, dev.sectors, g, Mkdir(v, g, cat, path).ops, cat');
    }
    rc := Okay;
  }

  // ----- write -----

  /** Grow the chain and write the entry; when the volume runs full, undo and report it. */
  method FillFile(dev: BlockDevice, g: Geometry, ghost cat: Catalog, r: Ref, leaf: name83, data: seq<byte>, had: bool)
    returns (rc: Rc)
    requires Holds(dev, g) && Small(g) && Ready(ViewOf(dev, g), g, cat, r, leaf) && |data| < WORD
    requires r.unit < g.Entries() && r.unit != 1 && SLOT * r.index + SLOT <= g.UnitLen(r.unit)
    modifies dev
    ensures Holds(dev, g) && |dev.sectors| == old(|dev.sectors|)
    ensures var o := Fill(old(ViewOf(dev, g)), g, cat, r, leaf, data, had);
            rc == o.rc && OpsOk(o.ops, g) && dev.Flat() == RunBytes(old(dev.Flat()), g, o.ops)
  {
    hide View, FlatOf, UnitOf, RunBytes, ApplyBytes, Run, Grow, FreeOps, LinksInside, OpsOk, MakeEntry, Ready, SoundBut;
    ghost var img, v := dev.Flat(), ViewOf(dev, g);
    ghost var gr := Grow(v, g, [], data);
    var first, full := GrowChain(dev, g, data);
    if !full {
      WriteEntry(dev, g, r, MakeEntry(leaf, 0, first, |data|));
      OneMore(img, g, gr.ops, PutSlot(r, MakeEntry(leaf, 0, first, |data|)));
      return Okay;
    }
    ReadyLinks(v, g, cat, r, leaf, data);
    ViewRun(img, g, gr.ops);
    ghost var grown := dev.Flat();
    ghost var free := FreeHead(View(grown, g), first);
    RunBytesNil(grown, g);
    if first != 0 {
      FreeClusterChain(dev, g, first);
    }
    ConcatNil(free);
    if had {
      WriteEntry(dev, g, r, MakeEntry(leaf, 0, 0, 0));
      OneMore(grown, g, free, PutSlot(r, MakeEntry(leaf, 0, 0, 0)));
      RunBytesConcat(img, g, gr.ops, free + [PutSlot(r, MakeEntry(leaf, 0, 0, 0))]);
    } else {
      RunBytesConcat(img, g, gr.ops, free);
    }
    rc := NoSpace;
  }

  lemma OneMore(img: seq<byte>, g: Geometry, ops: seq<Op>, op: Op)
    requires Fits(img, g) && OpsOk(ops, g) && op.Ok(g)
    ensures OpsOk(ops + [op], g) && RunBytes(img, g, ops + [op]) == ApplyBytes(RunBytes(img, g, ops), g, op)
  {
    RunBytesOne(RunBytes(img, g, ops), g, op);
    RunBytesConcat(img, g, ops, [op]);
  }

  lemma ReadyLinks(v: Volume, g: Geometry, cat: Catalog, r: Ref, leaf: name83, data: seq<byte>)
    requires Ready(v, g, cat, r, leaf) && Small(g)
    ensures Shaped(v, g) && Clusters(g, [])
    ensures var gr := Grow(v, g, [], data); var w := Run(v, g, gr.ops);
            LinksInside(w.fat) && InTable(w.fat, FirstOf(gr.chain))
  {
    GrowLinks(v, g, cat, r, data);
  }

  /** Free what an existing file held, then fill it. */
  method OverwriteFile(dev: BlockDevice, g: Geometry, ghost cat: Catalog, r: Ref, entry: slot, data: seq<byte>)
    returns (rc: Rc)
    requires Holds(dev, g) && Small(g) && Sound(ViewOf(dev, g), g, cat) && |data| < WORD
    requires IsSlot(g, cat, r) && Shaped(ViewOf(dev, g), g) && entry == SlotAt(ViewOf(dev, g), g, r) && Named(entry)
    requires !IsDir(entry)
    modifies dev
    ensures Holds(dev, g) && |dev.sectors| == old(|dev.sectors|)
    ensures LinksInside(old(ViewOf(dev, g)).fat) && InTable(old(ViewOf(dev, g)).fat, Head(entry))
    ensures var v := old(ViewOf(dev, g)); var pre := FreeHead(v, Head(entry));
            && OpsOk(pre, g) && Ready(Run(v, g, pre), g, Truncated(cat, r), r, Name(entry))
            && var o := Fill(Run(v, g, pre), g, Truncated(cat, r), r, Name(entry), data, true);
               rc == o.rc && OpsOk(pre + o.ops, g) && dev.Flat() == RunBytes(old(dev.Flat()), g, pre + o.ops)
  {
    hide View, FlatOf, UnitOf, RunBytes, ApplyBytes, Run, Fill, FreeOps, LinksInside, OpsOk, Ready, SoundBut, SlotAt,
         Named, IsDir, Head, Name;
    ghost var img, v := dev.Flat(), ViewOf(dev, g);
    ReadyOver(v, g, cat, r);
    SlotUnit(v, g, cat, None, r);
    ghost var pre := FreeHead(v, Head(entry));
    RunBytesNil(img, g);
    ViewRun(img, g, pre);
    if Head(entry) != 0 {
      FreeClusterChain(dev, g, Head(entry));
    }
    rc := FillFile(dev, g, Truncated(cat, r), r, Name(entry), data, true);
    RunBytesConcat(img, g, pre, Fill(Run(v, g, pre), g, Truncated(cat, r), r, Name(entry), data, true).ops);
  }

  method WriteFileOnDevice(dev: BlockDevice, ghost cat: Catalog, path: cstring, data: seq<byte>)
    returns (rc: Rc, ghost cat': Catalog)
    requires Mounted(dev.sectors, cat) && |data| < WORD
    modifies dev
    ensures 0 < |dev.sectors| && Mounting(dev.sectors) == Mounting(old(dev.sectors))
    ensures match Mounting(old(dev.sectors))
            case None => rc == Invalid && dev.sectors == old(dev.sectors)
            case Some(g) =>
              && Small(g)
              && var v := View(old(dev.Flat()), g);
                 var o := Write(v, g, cat, path, data);
                 && rc == o.rc && OpsOk(o.ops, g) && dev.Flat() == RunBytes(old(dev.Flat()), g, o.ops)
                 && (!LosesFile(v, g, cat, path, |data|) ==> Mounted(dev.sectors, cat'))
  {
    hide View, FlatOf, UnitOf, RunBytes, ApplyBytes, Run, SoundBut, Resolve, Search, SearchVacant, Components, SlotAt,
         Named, ParseBpb, GeometryOf, SplitPath, FileName, IsDir, OpsOk, LosesFile, UsedBefore, Fill, Ready,
         LinksInside, FreeOps, Head, Name, Stored, SameFiles, SameTree, FilesBut, PathsBut;
    cat' := cat;
    var boot := dev.Read(0);
    var bpb := ParseBpb(boot);
    if bpb.None? {
      return Invalid, cat;
    }
    var g := GeometryOf(bpb.value, |dev.sectors|);
    ghost var v, first := View(dev.Flat(), g), dev.sectors;
    RunBytesNil(dev.Flat(), g);
    OkSmall(g, |dev.sectors|);
    var sp := SplitCreatePath(path);
    if sp.NoSplit? {
      return Invalid, cat;
    }
    var name := MakeFileName(sp.leaf);
    if name.None? {
      return Invalid, cat;
    }
    FileNamePlain(sp.leaf);
    var t, entry := LocateEntry(dev, g, cat, sp, name.value);
    if t.Bad? {
      return t.rc, cat;
    }
    if t.Present? {
      if IsDir(entry) {
        return Exists, cat;
      }
      rc := OverwriteFile(dev, g, cat, t.ref, entry, data);
    } else {
      var f := FindFreeEntry(dev, g, cat, t.dir);
      if f.None? {
        return NoSpace, cat;
      }
      ReadyNew(v, g, cat, t.dir, f.value, name.value);
      SlotUnit(v, g, cat, None, f.value);
      rc := FillFile(dev, g, WithChain(cat, f.value, []), f.value, name.value, data, false);
    }
    BootStays(first, dev.sectors, g, Write(v, g, cat, path, data).ops);
    if !LosesFile(v, g, cat, path, |data|) {
      ghost var w, r;
      w, cat', r := WriteKeeps(v, g, cat, path, data);
      StaysMounted(first, dev.sectors, g, Write(v, g, cat, path, data).ops, cat');
    }
  }
}
