/** Every operation of the driver keeps a consistent volume consistent. */
module Fat12Keeps {
  import opened Bytes
  import opened Paths
  import opened Fat12Layout
  import opened Fat12Journal
  import opened Fat12Chain
  import opened Fat12Dir
  import opened Fat12Sound
  import opened Fat12Lookup
  import opened Fat12Ops

  /** A geometry with cluster numbers below the reserved links. */
  predicate Small(g: Geometry) {
    0 < g.spc && g.Entries() <= BAD
  }

  // ----- finishing a change -----

  /** No other entry of the directory of `r` has this name. */
  ghost predicate FreshName(v: Volume, g: Geometry, cat: Catalog, r: Ref, name: name83)
    requires Shaped(v, g) && IsSlot(g, cat, r)
  {
    forall q :: IsSlot(g, cat, q) && q != r && Home(cat, q) == Home(cat, r) && Named(SlotAt(v, g, q)) ==>
                  Name(SlotAt(v, g, q)) != name
  }

  lemma StoreNoClash(v: Volume, g: Geometry, cat: Catalog, r: Ref, s: slot)
    requires Shaped(v, g) && IsSlot(g, cat, r) && FreshName(v, g, cat, r, Name(s))
    ensures forall q :: !Clash(WithSlot(v, g, r, s), g, cat, r, q)
  {
    forall q
      ensures !Clash(WithSlot(v, g, r, s), g, cat, r, q)
    {
      WithSlotAt(v, g, r, s, r);
      if IsSlot(g, cat, q) {
        WithSlotAt(v, g, r, s, q);
      }
    }
  }

  /** Storing an entry that agrees with the chain makes the volume whole. */
  lemma FinishFile(v: Volume, g: Geometry, cat: Catalog, r: Ref, s: slot)
    requires SoundBut(v, g, cat, Some(r)) && IsSlot(g, cat, r) && File(r) in cat.chains
    requires Named(s) && !IsDir(s) && Head(s) == FirstOf(cat.chains[File(r)])
    requires JustFits(|cat.chains[File(r)]|, g.UnitLen(2), Size(s))
    requires Dir(Home(cat, r)) in cat.chains && UsedBefore(v, g, cat, r) && FreshName(v, g, cat, r, Name(s))
    ensures Sound(WithSlot(v, g, r, s), g, cat)
  {
    WriteAside(v, g, cat, r, s);
    WithSlotAt(v, g, r, s, r);
    StoreNoClash(v, g, cat, r, s);
    ReturnSlot(WithSlot(v, g, r, s), g, cat, r);
  }

  function Marked(s: slot): slot {
    s[0 := DELETED]
  }

  /** Marking the entry deleted once the chain is empty makes the volume whole. */
  lemma FinishGone(v: Volume, g: Geometry, cat: Catalog, r: Ref)
    requires SoundBut(v, g, cat, Some(r)) && IsSlot(g, cat, r) && File(r) in cat.chains && cat.chains[File(r)] == []
    requires SlotAt(v, g, r)[0] != 0
    ensures Sound(WithSlot(v, g, r, Marked(SlotAt(v, g, r))), g, cat.(chains := cat.chains - {File(r)}))
  {
    var s := Marked(SlotAt(v, g, r));
    UsedBeforeUsed(v, g, cat, Some(r), r);
    WriteAside(v, g, cat, r, s);
    WithSlotAt(v, g, r, s, r);
    ForgetFile(WithSlot(v, g, r, s), g, cat, r);
  }

  lemma MarkIsStore(v: Volume, g: Geometry, r: Ref)
    requires Shaped(v, g) && r.unit < g.Entries() && r.unit != 1 && SLOT * r.index + SLOT <= g.UnitLen(r.unit)
    ensures PutSlot(r, [DELETED]).Ok(g)
    ensures Apply(v, g, PutSlot(r, [DELETED])) == WithSlot(v, g, r, Marked(SlotAt(v, g, r)))
  {
    var unit := v.units[r.unit];
    assert Splice(unit, SLOT * r.index, [DELETED]) == Splice(unit, SLOT * r.index, Marked(SlotAt(v, g, r)));
  }

  lemma SoundShaped(v: Volume, g: Geometry, cat: Catalog, x: Option<Ref>)
    requires SoundBut(v, g, cat, x)
    ensures Shaped(v, g)
  {}

  lemma SlotUnit(v: Volume, g: Geometry, cat: Catalog, x: Option<Ref>, r: Ref)
    requires SoundBut(v, g, cat, x) && IsSlot(g, cat, r)
    ensures r.unit != 1
  {}

  // ----- emptying a file -----

  ghost function Truncated(cat: Catalog, r: Ref): Catalog {
    WithChain(cat, r, []).(owner := Without(cat.owner, File(r)))
  }

  /** Freeing the chain of a file leaves it set aside with an empty chain. */
  lemma TruncateKeeps(v: Volume, g: Geometry, cat: Catalog, r: Ref) returns (w: Volume)
    requires SoundBut(v, g, cat, Some(r)) && File(r) in cat.chains
    ensures LinksInside(v.fat) && InTable(v.fat, FirstOf(cat.chains[File(r)]))
    ensures OpsOk(FreeHead(v, FirstOf(cat.chains[File(r)])), g)
    ensures w == Run(v, g, FreeHead(v, FirstOf(cat.chains[File(r)]))) && w.units == v.units
    ensures SoundBut(w, g, Truncated(cat, r), Some(r)) && Elsewhere(v, w, g, cat, Truncated(cat, r), r)
  {
    LinksStayInside(v.fat, cat.chains, cat.owner);
    ChainHead(v.fat, cat, r);
    if cat.chains[File(r)] == [] {
      w := v;
      TruncatedEmpty(cat, r);
      assert Elsewhere(v, v, g, cat, cat, r);
    } else {
      w := TruncateChain(v, g, cat, r);
    }
  }

  lemma ChainHead(fat: seq<nat>, cat: Catalog, r: Ref)
    requires Allocated(fat, cat.chains, cat.owner) && File(r) in cat.chains
    ensures InTable(fat, FirstOf(cat.chains[File(r)]))
    ensures cat.chains[File(r)] != [] ==> FirstOf(cat.chains[File(r)]) != 0
  {
    assert IsChain(fat, cat.chains[File(r)]);
  }

  lemma TruncatedEmpty(cat: Catalog, r: Ref)
    requires OwnerOk(cat.chains, cat.owner) && File(r) in cat.chains && cat.chains[File(r)] == []
    ensures Truncated(cat, r) == cat
  {
    assert Without(cat.owner, File(r)) == cat.owner;
    assert cat.chains[File(r) := []] == cat.chains;
  }

  lemma TruncateChain(v: Volume, g: Geometry, cat: Catalog, r: Ref) returns (w: Volume)
    requires SoundBut(v, g, cat, Some(r)) && File(r) in cat.chains && cat.chains[File(r)] != []
    requires LinksInside(v.fat) && InTable(v.fat, cat.chains[File(r)][0]) && cat.chains[File(r)][0] != 0
    ensures OpsOk(FreeHead(v, cat.chains[File(r)][0]), g)
    ensures w == Run(v, g, FreeHead(v, cat.chains[File(r)][0])) && w.units == v.units
    ensures SoundBut(w, g, Truncated(cat, r), Some(r)) && Elsewhere(v, w, g, cat, Truncated(cat, r), r)
  {
    FreeOpsRun(v, g, cat.chains[File(r)][0]);
    w := v.(fat := FreeFat(v.fat, cat.chains[File(r)][0]));
    var cat' := ReleaseFile(v, g, cat, r);
  }

  // ----- unlink -----

  lemma DropFile(v: Volume, g: Geometry, cat: Catalog, r: Ref) returns (w: Volume, cat': Catalog)
    requires SoundBut(v, g, cat, Some(r)) && IsSlot(g, cat, r) && File(r) in cat.chains
    requires SlotAt(v, g, r)[0] != 0
    ensures LinksInside(v.fat) && InTable(v.fat, FirstOf(cat.chains[File(r)]))
    ensures OpsOk(DropOps(v, r, FirstOf(cat.chains[File(r)])), g)
    ensures w == Run(v, g, DropOps(v, r, FirstOf(cat.chains[File(r)])))
    ensures cat' == Truncated(cat, r).(chains := Truncated(cat, r).chains - {File(r)})
    ensures Sound(w, g, cat')
  {
    var y := TruncateKeeps(v, g, cat, r);
    var head := FirstOf(cat.chains[File(r)]);
    cat' := Truncated(cat, r).(chains := Truncated(cat, r).chains - {File(r)});
    SlotUnit(v, g, cat, Some(r), r);
    MarkThenFree(v, g, r, head);
    w := WithSlot(y, g, r, Marked(SlotAt(v, g, r)));
    DropTruncated(v, y, g, cat, r);
  }

  lemma DropTruncated(v: Volume, y: Volume, g: Geometry, cat: Catalog, r: Ref)
    requires Shaped(v, g) && IsSlot(g, cat, r) && SlotAt(v, g, r)[0] != 0
    requires SoundBut(y, g, Truncated(cat, r), Some(r)) && y.units == v.units
    ensures Sound(WithSlot(y, g, r, Marked(SlotAt(v, g, r))), g,
                  Truncated(cat, r).(chains := Truncated(cat, r).chains - {File(r)}))
  {
    FinishGone(y, g, Truncated(cat, r), r);
  }

  /** Marking an entry and freeing a chain can be done in either order. */
  lemma MarkThenFree(v: Volume, g: Geometry, r: Ref, head: nat)
    requires Shaped(v, g) && r.unit < g.Entries() && r.unit != 1 && SLOT * r.index + SLOT <= g.UnitLen(r.unit)
    requires LinksInside(v.fat) && InTable(v.fat, head)
    ensures OpsOk(FreeHead(v, head), g) && OpsOk(DropOps(v, r, head), g)
    ensures Run(v, g, DropOps(v, r, head)) ==
            WithSlot(Run(v, g, FreeHead(v, head)), g, r, Marked(SlotAt(v, g, r)))
  {
    FreeOpsRun(v, g, head);
    MarkIsStore(v, g, r);
    var m := Apply(v, g, PutSlot(r, [DELETED]));
    FreeOpsRun(m, g, head);
    RunOne(v, g, PutSlot(r, [DELETED]));
    RunConcat(v, g, [PutSlot(r, [DELETED])], FreeHead(v, head));
  }

  // ----- mkdir -----

  ghost function DotEntries(c: nat, parent: nat): (s: seq<byte>)
    ensures |s| == 2 * SLOT
  {
    MakeEntry(DOT_NAME, ATTR_DIRECTORY, c, 0) + MakeEntry(DOTDOT_NAME, ATTR_DIRECTORY, parent, 0)
  }

  /** A cluster that holds nothing but its dot entries names nothing. */
  lemma DotsBlank(c: nat, parent: nat, n: nat)
    ensures BlankUnit(DotEntries(c, parent) + Zeros(n))
  {
    hide MakeEntry;
    var dot, dotdot := MakeEntry(DOT_NAME, ATTR_DIRECTORY, c, 0), MakeEntry(DOTDOT_NAME, ATTR_DIRECTORY, parent, 0);
    var unit := DotEntries(c, parent) + Zeros(n);
    assert SlotIn(unit, 0) == dot && SlotIn(unit, 1) == dotdot;
    assert Name(dot)[0] == DOT && Name(dot)[1] == SPACE && Name(dotdot)[0] == DOT && Name(dotdot)[1] == DOT;
    forall j: nat | SLOT * j + SLOT <= |unit|
      ensures !Named(SlotIn(unit, j))
    {
      if j >= 2 {
        assert SlotIn(unit, j)[0] == unit[SLOT * j] == 0;
      }
    }
  }

  /** What the updates of mkdir come to. */
  lemma MkdirRun(v: Volume, g: Geometry, r: Ref, c: nat, parent: nat, leaf: name83)
    requires Shaped(v, g) && Small(g) && 2 <= c < g.Entries() && r.unit != c && r.unit != 1
    requires r.unit < g.Entries() && SLOT * r.index + SLOT <= g.UnitLen(r.unit)
    ensures OpsOk(MkdirOps(g, r, c, parent, leaf), g)
    ensures Run(v, g, MkdirOps(g, r, c, parent, leaf)) ==
            WithSlot(Taken(v, [], c, DotEntries(c, parent), g.UnitLen(2)), g, r, MakeEntry(leaf, ATTR_DIRECTORY, c, 0))
  {
    hide Run, Apply, OpsOk, MakeEntry;
    MkdirOpsAre(g, r, c, parent, leaf);
    MkdirOpsOk(g, r, c, parent, leaf);
    var a, b := Link(c, EOC), Put(c, 0, Zeros(g.UnitLen(2)));
    var x := PutSlot(r, MakeEntry(leaf, ATTR_DIRECTORY, c, 0));
    var y := PutSlot(Ref(c, 0), MakeEntry(DOT_NAME, ATTR_DIRECTORY, c, 0));
    var z := PutSlot(Ref(c, 1), MakeEntry(DOTDOT_NAME, ATTR_DIRECTORY, parent, 0));
    RunOne(v, g, a);
    RunStep(v, g, [a], b);
    RunStep(v, g, [a] + [b], x);
    RunStep(v, g, [a] + [b] + [x], y);
    RunStep(v, g, [a] + [b] + [x] + [y], z);
    MkdirVolume(v, g, r, c, parent, leaf);
  }

  lemma RunStep(v: Volume, g: Geometry, ops: seq<Op>, op: Op)
    requires Shaped(v, g) && OpsOk(ops, g) && op.Ok(g)
    ensures OpsOk(ops + [op], g) && Run(v, g, ops + [op]) == Apply(Run(v, g, ops), g, op)
  {
    RunOne(Run(v, g, ops), g, op);
    RunConcat(v, g, ops, [op]);
  }

  lemma MkdirOpsAre(g: Geometry, r: Ref, c: nat, parent: nat, leaf: name83)
    ensures MkdirOps(g, r, c, parent, leaf) ==
            [Link(c, EOC)] + [Put(c, 0, Zeros(g.UnitLen(2)))] + [PutSlot(r, MakeEntry(leaf, ATTR_DIRECTORY, c, 0))] +
            [PutSlot(Ref(c, 0), MakeEntry(DOT_NAME, ATTR_DIRECTORY, c, 0))] +
            [PutSlot(Ref(c, 1), MakeEntry(DOTDOT_NAME, ATTR_DIRECTORY, parent, 0))]
  {
    hide MakeEntry;
  }

  lemma MkdirOpsOk(g: Geometry, r: Ref, c: nat, parent: nat, leaf: name83)
    requires Small(g) && 2 <= c < g.Entries() && r.unit != 1 && r.unit < g.Entries()
    requires SLOT * r.index + SLOT <= g.UnitLen(r.unit)
    ensures Link(c, EOC).Ok(g) && Put(c, 0, Zeros(g.UnitLen(2))).Ok(g)
    ensures PutSlot(r, MakeEntry(leaf, ATTR_DIRECTORY, c, 0)).Ok(g)
    ensures PutSlot(Ref(c, 0), MakeEntry(DOT_NAME, ATTR_DIRECTORY, c, 0)).Ok(g)
    ensures PutSlot(Ref(c, 1), MakeEntry(DOTDOT_NAME, ATTR_DIRECTORY, parent, 0)).Ok(g)
  {
    hide MakeEntry;
  }

  lemma MkdirVolume(v: Volume, g: Geometry, r: Ref, c: nat, parent: nat, leaf: name83)
    requires Shaped(v, g) && Small(g) && 2 <= c < g.Entries() && r.unit != c && r.unit != 1
    requires r.unit < g.Entries() && SLOT * r.index + SLOT <= g.UnitLen(r.unit)
    requires PutSlot(r, MakeEntry(leaf, ATTR_DIRECTORY, c, 0)).Ok(g)
    requires PutSlot(Ref(c, 0), MakeEntry(DOT_NAME, ATTR_DIRECTORY, c, 0)).Ok(g)
    requires PutSlot(Ref(c, 1), MakeEntry(DOTDOT_NAME, ATTR_DIRECTORY, parent, 0)).Ok(g)
    ensures Apply(Apply(Apply(Apply(Apply(v, g, Link(c, EOC)), g, Put(c, 0, Zeros(g.UnitLen(2)))), g,
                              PutSlot(r, MakeEntry(leaf, ATTR_DIRECTORY, c, 0))),
                        g, PutSlot(Ref(c, 0), MakeEntry(DOT_NAME, ATTR_DIRECTORY, c, 0))), g,
                          PutSlot(Ref(c, 1), MakeEntry(DOTDOT_NAME, ATTR_DIRECTORY, parent, 0))) ==
            WithSlot(Taken(v, [], c, DotEntries(c, parent), g.UnitLen(2)), g, r, MakeEntry(leaf, ATTR_DIRECTORY, c, 0))
  {
    hide MakeEntry, DotEntries, Splice;
    DotsStored(v.units[c], g.UnitLen(2), c, parent);
    var w := WithSlot(Taken(v, [], c, DotEntries(c, parent), g.UnitLen(2)), g, r,
                      MakeEntry(leaf, ATTR_DIRECTORY, c, 0));
    var x := Apply(Apply(Apply(Apply(Apply(v, g, Link(c, EOC)), g, Put(c, 0, Zeros(g.UnitLen(2)))), g,
                               PutSlot(r, MakeEntry(leaf, ATTR_DIRECTORY, c, 0))),
                        g, PutSlot(Ref(c, 0), MakeEntry(DOT_NAME, ATTR_DIRECTORY, c, 0))), g,
                          PutSlot(Ref(c, 1), MakeEntry(DOTDOT_NAME, ATTR_DIRECTORY, parent, 0)));
    assert x.units == w.units;
  }

  lemma DotsStored(unit: seq<byte>, cb: nat, c: nat, parent: nat)
    requires |unit| == cb && 2 * SLOT <= cb
    ensures Splice(Splice(Splice(unit, 0, Zeros(cb)), 0, MakeEntry(DOT_NAME, ATTR_DIRECTORY, c, 0)),
                   SLOT, MakeEntry(DOTDOT_NAME, ATTR_DIRECTORY, parent, 0)) ==
            DotEntries(c, parent) + Zeros(cb - 2 * SLOT)
  {}

  /** The leaf of the path does not start with the byte that marks deleted entries. */
  predicate CleanLeaf(path: cstring) {
    SplitPath(path).Split? && SplitPath(path).leaf != [] ==> SplitPath(path).leaf[0] != DELETED
  }

  /** A vacant slot set aside with one cluster in hand. */
  lemma ClaimVacant(v: Volume, g: Geometry, cat: Catalog, r: Ref, c: nat, chunk: seq<byte>) returns (cat': Catalog)
    requires SoundBut(v, g, cat, Some(r)) && Small(g) && IsSlot(g, cat, r) && File(r) !in cat.chains
    requires 2 <= c < g.Entries() && v.fat[c] == FREE && |chunk| <= g.UnitLen(2)
    ensures var y := Taken(v, [], c, chunk, g.UnitLen(2));
            SoundBut(y, g, cat', Some(r)) && SameElsewhere(v, y, g, cat, cat', r)
    ensures File(r) in cat'.chains && cat'.chains[File(r)] == [c]
  {
    hide SoundBut;
    SoundShaped(v, g, cat, Some(r));
    StartFile(v, g, cat, r);
    var cat1 := WithChain(cat, r, []);
    cat' := TakeKeeps(v, g, cat1, r, c, chunk);
    var y := Taken(v, [], c, chunk, g.UnitLen(2));
    assert IsSlot(g, cat1, r);
    SameWhenElsewhere(v, y, g, cat1, cat', r);
    assert SameElsewhere(v, y, g, cat, cat', r);
  }

  lemma NameNew(v: Volume, g: Geometry, cat: Catalog, d: nat, r: Ref, name: name83)
    requires Sound(v, g, cat) && Dir(d) in cat.chains && name[0] != DOT && IsSlot(g, cat, r) && Home(cat, r) == d
    requires UnitsIn(v, DirUnits(cat, d)) && Search(v, DirUnits(cat, d), name).None?
    ensures FreshName(v, g, cat, r, name)
  {
    SearchFinds(v, g, cat, d, name);
  }

  /** Names and used slots are unaffected by changes elsewhere. */
  lemma FreshStays(v: Volume, w: Volume, g: Geometry, cat: Catalog, cat': Catalog, r: Ref, name: name83)
    requires Shaped(v, g) && Shaped(w, g) && SameElsewhere(v, w, g, cat, cat', r) && FreshName(v, g, cat, r, name)
    ensures IsSlot(g, cat', r) && FreshName(w, g, cat', r, name)
  {
    forall q | IsSlot(g, cat', q) && q != r && Home(cat', q) == Home(cat', r) && Named(SlotAt(w, g, q))
      ensures Name(SlotAt(w, g, q)) != name
    {
      SameSlots(v, w, g, cat, cat', r, q);
      SameSlots(v, w, g, cat, cat', r, r);
    }
  }

  lemma UsedStays(v: Volume, w: Volume, g: Geometry, cat: Catalog, cat': Catalog, r: Ref)
    requires SoundBut(v, g, cat, Some(r)) && Shaped(w, g) && SameElsewhere(v, w, g, cat, cat', r)
    requires Dir(Home(cat, r)) in cat.chains && UsedBefore(v, g, cat, r)
    ensures IsSlot(g, cat', r) && Home(cat', r) == Home(cat, r) && Dir(Home(cat', r)) in cat'.chains
    ensures UsedBefore(w, g, cat', r)
  {
    SameSlots(v, w, g, cat, cat', r, r);
    var us := DirUnits(cat, Home(cat, r));
    assert DirUnits(cat', Home(cat', r)) == us;
    forall i: nat | i < |us|
      ensures us[i] < |v.units| && w.units[us[i]] == v.units[us[i]]
    {
      DirUnitsOwned(v.fat, cat, Home(cat, r), i);
    }
  }

  /** The entry of a new directory, stored once its cluster is ready. */
  lemma NameDir(y: Volume, g: Geometry, cat: Catalog, r: Ref, c: nat, leaf: name83)
    requires SoundBut(y, g, cat, Some(r)) && IsSlot(g, cat, r) && Small(g)
    requires File(r) in cat.chains && cat.chains[File(r)] == [c] && BlankUnit(y.units[c])
    requires Plain(leaf) && FreshName(y, g, cat, r, leaf)
    requires Dir(Home(cat, r)) in cat.chains && UsedBefore(y, g, cat, r)
    ensures Home(cat, r) in cat.rank
    ensures Sound(WithSlot(y, g, r, MakeEntry(leaf, ATTR_DIRECTORY, c, 0)), g, AsDir(cat, r, c))
  {
    hide SoundBut, UsedBefore, FreshName, BlankUnit, Clash, MakeEntry, Named, IsDir, Splice, Name;
    SoundShaped(y, g, cat, Some(r));
    FirstOwned(y, g, cat, r, c);
    HomeKnown(y, g, cat, Some(r), r);
    EntryNamed(leaf, ATTR_DIRECTORY, c, 0);
    var s := MakeEntry(leaf, ATTR_DIRECTORY, c, 0);
    WriteAside(y, g, cat, r, s);
    WithSlotAt(y, g, r, s, r);
    StoreNoClash(y, g, cat, r, s);
    BecomeDir(WithSlot(y, g, r, s), g, cat, r, c);
  }

  lemma EntryNamed(leaf: name83, attr: byte, head: nat, size: nat)
    requires Plain(leaf) && attr / 8 % 2 == 0 && size < WORD
    ensures var s := MakeEntry(leaf, attr, head, size); Named(s) && s[0] != 0 && (IsDir(s) <==> attr / 16 % 2 == 1)
  {
    var s := MakeEntry(leaf, attr, head, size);
    assert s[0] == Name(s)[0];
  }

  lemma FirstOwned(v: Volume, g: Geometry, cat: Catalog, r: Ref, c: nat)
    requires SoundBut(v, g, cat, Some(r)) && IsSlot(g, cat, r) && File(r) in cat.chains && cat.chains[File(r)] == [c]
    ensures 2 <= c < g.Entries() && r.unit != c
  {
    assert IsChain(v.fat, cat.chains[File(r)]);
    assert cat.chains[File(r)][0] == c;
  }

  lemma PrepareDir(v: Volume, g: Geometry, cat: Catalog, d: nat, r: Ref, c: nat, name: name83)
    returns (y: Volume, cat': Catalog)
    requires SoundBut(v, g, cat, Some(r)) && Small(g) && IsSlot(g, cat, r) && File(r) !in cat.chains
    requires 2 <= c < g.Entries() && v.fat[c] == FREE
    requires Dir(Home(cat, r)) in cat.chains && UsedBefore(v, g, cat, r) && FreshName(v, g, cat, r, name)
    ensures y == Taken(v, [], c, DotEntries(c, d), g.UnitLen(2)) && r.unit != c
    ensures Shaped(v, g) && Shaped(y, g) && SameElsewhere(v, y, g, cat, cat', r)
    ensures SoundBut(y, g, cat', Some(r)) && IsSlot(g, cat', r)
    ensures File(r) in cat'.chains && cat'.chains[File(r)] == [c] && BlankUnit(y.units[c])
    ensures Dir(Home(cat', r)) in cat'.chains && UsedBefore(y, g, cat', r) && FreshName(y, g, cat', r, name)
  {
    hide SoundBut, UsedBefore, FreshName, SameElsewhere, BlankUnit, DotEntries;
    SoundShaped(v, g, cat, Some(r));
    cat' := ClaimVacant(v, g, cat, r, c, DotEntries(c, d));
    y := Taken(v, [], c, DotEntries(c, d), g.UnitLen(2));
    SoundShaped(y, g, cat', Some(r));
    FreshStays(v, y, g, cat, cat', r, name);
    UsedStays(v, y, g, cat, cat', r);
    FirstOwned(y, g, cat', r, c);
    DotsBlank(c, d, g.UnitLen(2) - 2 * SLOT);
  }
}
