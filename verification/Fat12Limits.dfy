/**
 Where the driver stops being consistent, exactly: names that start with byte
 0xE5, and image writes that run full over a file with contents.
 */
module Fat12Limits {
  import opened Bytes
  import opened Fat12Layout
  import opened Fat12Journal
  import opened Fat12Chain
  import opened Fat12Dir
  import opened Fat12Sound
  import opened Fat12Lookup
  import opened Fat12Ops
  import opened Fat12Keeps
  import opened Fat12Write
  import opened Fat12Room
  import opened Fat12Tree
  import opened Fat12Run
  import opened Fat12Commands
  import opened Fat12Twins

  // ----- a volume determines its catalog -----

  /** A table has one chain from each head. */
  lemma {:induction false} ChainUnique(fat: seq<nat>, s: seq<nat>, t: seq<nat>)
    requires |fat| <= BAD && IsChain(fat, s) && IsChain(fat, t) && s != [] && t != [] && s[0] == t[0]
    ensures s == t
    decreases |s|
  {
    if |s| == 1 {
      assert t[..1] == [t[0]];
      SecondLink(fat, t);
      assert s == t;
    } else {
      SecondLink(fat, s);
      SecondLink(fat, t);
      assert |t| > 1;
      TailChain(fat, s);
      TailChain(fat, t);
      ChainUnique(fat, s[1..], t[1..]);
      assert s == [s[0]] + s[1..] && t == [t[0]] + t[1..];
    }
  }

  lemma SecondLink(fat: seq<nat>, s: seq<nat>)
    requires IsChain(fat, s) && s != []
    ensures s[0] < |fat| && (if |s| > 1 then fat[s[0]] == s[1] < |fat| else EOC_MIN <= fat[s[0]])
  {}

  lemma TailChain(fat: seq<nat>, s: seq<nat>)
    requires IsChain(fat, s) && |s| > 1
    ensures IsChain(fat, s[1..])
  {
    forall i | 0 <= i < |s[1..]| - 1
      ensures fat[s[1..][i]] == s[1..][i + 1]
    {
      assert fat[s[i + 1]] == s[i + 2];
    }
  }

  /** The directories of `cat` still chain the same clusters and hold the same directory entries. */
  ghost predicate TreeKept(v: Volume, w: Volume, g: Geometry, cat: Catalog) {
    && Shaped(v, g) && Shaped(w, g)
    && (forall h :: Dir(h) in cat.chains ==> IsChain(w.fat, cat.chains[Dir(h)]))
    && (forall q :: IsSlot(g, cat, q) && Named(SlotAt(v, g, q)) && IsDir(SlotAt(v, g, q)) ==>
          SlotAt(w, g, q) == SlotAt(v, g, q))
  }

  /** Slots of directories with equal chains are the same. */
  lemma SlotCarries(v: Volume, w: Volume, g: Geometry, cat: Catalog, cat2: Catalog, q: Ref)
    requires Sound(v, g, cat) && Sound(w, g, cat2) && IsSlot(g, cat, q)
    requires Dir(Home(cat, q)) in cat2.chains && Dir(Home(cat, q)) in cat.chains
    requires cat2.chains[Dir(Home(cat, q))] == cat.chains[Dir(Home(cat, q))]
    ensures IsSlot(g, cat2, q) && Home(cat2, q) == Home(cat, q)
  {
    hide SoundBut;
    SlotInUnits(v, g, cat, None, q);
    var d := Home(cat, q);
    var i :| 0 <= i < |DirUnits(cat, d)| && DirUnits(cat, d)[i] == q.unit;
    assert DirUnits(cat2, d) == DirUnits(cat, d);
    UnitsOk(w, g, cat2, None, d);
    assert Ref(DirUnits(cat2, d)[i], q.index) == q;
  }

  /** Every directory of `cat` is a directory, with the same chain, of any catalog of the later volume. */
  lemma {:induction false} TreeFixed(v: Volume, w: Volume, g: Geometry, cat: Catalog, cat2: Catalog, h: nat)
    requires Sound(v, g, cat) && Sound(w, g, cat2) && TreeKept(v, w, g, cat) && Dir(h) in cat.chains
    ensures Dir(h) in cat2.chains && cat2.chains[Dir(h)] == cat.chains[Dir(h)]
    decreases if h in cat.rank then cat.rank[h] else 0
  {
    hide SoundBut, IsChain, Named, IsDir;
    RootKnown(v, g, cat, None);
    RootKnown(w, g, cat2, None);
    if h != 0 {
      DirKnown(v, g, cat, None, h);
      var q := cat.up[h];
      HomeKnown(v, g, cat, None, q);
      TreeFixed(v, w, g, cat, cat2, Home(cat, q));
      SlotCarries(v, w, g, cat, cat2, q);
      SlotAgrees(w, g, cat2, None, q);
      SameDirChain(w, g, cat, cat2, h);
    }
  }

  lemma SameDirChain(w: Volume, g: Geometry, cat: Catalog, cat2: Catalog, h: nat)
    requires Sound(w, g, cat2) && Dir(h) in cat2.chains && Dir(h) in cat.chains && h != 0
    requires IsChain(w.fat, cat.chains[Dir(h)]) && FirstOf(cat.chains[Dir(h)]) == h
    ensures cat2.chains[Dir(h)] == cat.chains[Dir(h)]
  {
    DirKnown(w, g, cat2, None, h);
    assert IsChain(w.fat, cat2.chains[Dir(h)]);
    ChainUnique(w.fat, cat.chains[Dir(h)], cat2.chains[Dir(h)]);
  }

  /** Every slot of `cat` is a slot of any catalog of the later volume. */
  lemma SlotsFixed(v: Volume, w: Volume, g: Geometry, cat: Catalog, cat2: Catalog, q: Ref)
    requires Sound(v, g, cat) && Sound(w, g, cat2) && TreeKept(v, w, g, cat) && IsSlot(g, cat, q)
    ensures IsSlot(g, cat2, q)
  {
    hide SoundBut, TreeKept;
    HomeKnown(v, g, cat, None, q);
    TreeFixed(v, w, g, cat, cat2, Home(cat, q));
    SlotCarries(v, w, g, cat, cat2, q);
  }

  /** An entry that names a free cluster belongs to no consistent volume. */
  lemma DanglingBreaks(v: Volume, w: Volume, g: Geometry, cat: Catalog, r: Ref, cat2: Catalog)
    requires Sound(v, g, cat) && TreeKept(v, w, g, cat) && IsSlot(g, cat, r)
    requires Named(SlotAt(w, g, r)) && !IsDir(SlotAt(w, g, r))
    requires 2 <= Head(SlotAt(w, g, r)) < g.Entries() && w.fat[Head(SlotAt(w, g, r))] == FREE
    ensures !Sound(w, g, cat2)
  {
    hide TreeKept, Named, IsDir;
    if Sound(w, g, cat2) {
      SlotsFixed(v, w, g, cat, cat2, r);
      SlotAgrees(w, g, cat2, None, r);
      HeadUsed(w, g, cat2, r);
      assert false;
    }
  }

  lemma HeadUsed(w: Volume, g: Geometry, cat: Catalog, r: Ref)
    requires Sound(w, g, cat) && File(r) in cat.chains && cat.chains[File(r)] != []
    ensures FirstOf(cat.chains[File(r)]) < |w.fat| && w.fat[FirstOf(cat.chains[File(r)])] != FREE
  {
    var s := cat.chains[File(r)];
    assert IsChain(w.fat, s);
    assert |s| > 1 ==> w.fat[s[0]] == s[1];
  }

  /** Nothing was lost between `v` and `w` but slot `r`, which names nothing. */
  ghost predicate OnlySlotLost(v: Volume, w: Volume, g: Geometry, cat: Catalog, r: Ref) {
    && TreeKept(v, w, g, cat) && IsSlot(g, cat, r) && !Named(SlotAt(v, g, r)) && !Named(SlotAt(w, g, r))
    && (forall q :: IsSlot(g, cat, q) && q != r ==> SlotAt(w, g, q) == SlotAt(v, g, q))
    && (forall q :: File(q) in cat.chains ==> IsChain(w.fat, cat.chains[File(q)]))
  }

  /** Then every directory of a later catalog was there before. */
  lemma {:induction false} TreeFixedBack(v: Volume, w: Volume, g: Geometry, cat: Catalog, cat2: Catalog, r: Ref, h: nat)
    requires Sound(v, g, cat) && Sound(w, g, cat2) && OnlySlotLost(v, w, g, cat, r) && Dir(h) in cat2.chains
    ensures Dir(h) in cat.chains && cat2.chains[Dir(h)] == cat.chains[Dir(h)]
    decreases if h in cat2.rank then cat2.rank[h] else 0
  {
    hide SoundBut, IsChain, Named, IsDir;
    RootKnown(v, g, cat, None);
    RootKnown(w, g, cat2, None);
    if h != 0 {
      DirKnown(w, g, cat2, None, h);
      var q := cat2.up[h];
      HomeKnown(w, g, cat2, None, q);
      TreeFixedBack(v, w, g, cat, cat2, r, Home(cat2, q));
      SlotCarries(w, v, g, cat2, cat, q);
      SlotAgrees(v, g, cat, None, q);
      TreeFixed(v, w, g, cat, cat2, h);
    }
  }

  /** A cluster taken for an entry that names nothing belongs to no consistent volume. */
  lemma LeakBreaks(v: Volume, w: Volume, g: Geometry, cat: Catalog, r: Ref, c: nat, cat2: Catalog)
    requires Sound(v, g, cat) && OnlySlotLost(v, w, g, cat, r)
    requires 2 <= c < g.Entries() && v.fat[c] == FREE && w.fat[c] != FREE
    ensures !Sound(w, g, cat2)
  {
    hide SoundBut, OnlySlotLost;
    if Sound(w, g, cat2) {
      var t := OwnerOf(w, g, cat2, c);
      match t {
        case Dir(h) => TreeFixedBack(v, w, g, cat, cat2, r, h);
        case File(q) => FileFixedBack(v, w, g, cat, cat2, r, q, c);
      }
      ChainNotFree(v, g, cat, t, c);
      assert false;
    }
  }

  lemma OwnerOf(w: Volume, g: Geometry, cat: Catalog, c: nat) returns (t: Owner)
    requires Sound(w, g, cat) && 2 <= c < g.Entries() && w.fat[c] != FREE
    ensures t in cat.chains && c in cat.chains[t]
  {
    t := cat.owner[c];
  }

  lemma ChainNotFree(v: Volume, g: Geometry, cat: Catalog, t: Owner, c: nat)
    requires Sound(v, g, cat) && t in cat.chains && c in cat.chains[t]
    ensures c < |v.fat| && v.fat[c] != FREE
  {
    assert IsChain(v.fat, cat.chains[t]);
    var i :| 0 <= i < |cat.chains[t]| && cat.chains[t][i] == c;
    assert c in cat.owner;
  }

  lemma FileFixedBack(v: Volume, w: Volume, g: Geometry, cat: Catalog, cat2: Catalog, r: Ref, q: Ref, c: nat)
    requires Sound(v, g, cat) && Sound(w, g, cat2) && OnlySlotLost(v, w, g, cat, r)
    requires File(q) in cat2.chains && c in cat2.chains[File(q)]
    ensures File(q) in cat.chains && c in cat.chains[File(q)]
  {
    hide SoundBut, IsChain, Named, IsDir;
    FileNamed(w, g, cat2, None, q);
    SlotAgrees(w, g, cat2, None, q);
    HomeKnown(w, g, cat2, None, q);
    TreeFixedBack(v, w, g, cat, cat2, r, Home(cat2, q));
    SlotCarries(w, v, g, cat2, cat, q);
    SlotAgrees(v, g, cat, None, q);
    HeadPositive(w, g, cat2, q);
    SameFileChain(w, g, cat, cat2, q);
  }

  lemma HeadPositive(w: Volume, g: Geometry, cat: Catalog, q: Ref)
    requires Sound(w, g, cat) && File(q) in cat.chains && cat.chains[File(q)] != []
    ensures FirstOf(cat.chains[File(q)]) != 0
  {
    assert IsChain(w.fat, cat.chains[File(q)]);
  }

  lemma SameFileChain(w: Volume, g: Geometry, cat: Catalog, cat2: Catalog, q: Ref)
    requires Sound(w, g, cat2) && File(q) in cat.chains && File(q) in cat2.chains
    requires IsChain(w.fat, cat.chains[File(q)]) && cat2.chains[File(q)] != [] && FirstOf(cat2.chains[File(q)]) != 0
    requires FirstOf(cat.chains[File(q)]) == FirstOf(cat2.chains[File(q)])
    ensures cat2.chains[File(q)] == cat.chains[File(q)]
  {
    assert IsChain(w.fat, cat2.chains[File(q)]);
    ChainUnique(w.fat, cat.chains[File(q)], cat2.chains[File(q)]);
  }

  // ----- names that start with byte 0xE5 -----

  ghost predicate Consistent(v: Volume, g: Geometry) {
    exists cat :: Sound(v, g, cat)
  }

  /** A vacant slot overwritten by an entry that names nothing is the only thing lost. */
  lemma LostSlot(v: Volume, y: Volume, g: Geometry, cat: Catalog, mid: Catalog, r: Ref, s: slot)
    requires Sound(v, g, cat) && IsSlot(g, cat, r) && Shaped(v, g) && Shaped(y, g) && !Named(SlotAt(v, g, r))
    requires !Named(s)
    requires SoundBut(v, g, WithChain(cat, r, []), Some(r)) && SoundBut(y, g, mid, Some(r))
    requires Elsewhere(v, y, g, WithChain(cat, r, []), mid, r) && File(r) !in cat.chains
    ensures OnlySlotLost(v, WithSlot(y, g, r, s), g, cat, r)
  {
    hide SoundBut, Named, IsDir, IsChain, SlotAt, WithSlot, Splice, Elsewhere;
    var w := WithSlot(y, g, r, s);
    ElsewhereChains(v, y, g, WithChain(cat, r, []), mid, r);
    SameTreeNow(v, y, g, WithChain(cat, r, []), mid, r, s);
    SameTreeNew(v, w, g, cat, mid, r);
    WithSlotAt(y, g, r, s, r);
    forall t | t in cat.chains
      ensures IsChain(w.fat, cat.chains[t])
    {
      assert t != File(r) && mid.chains[t] == cat.chains[t];
      ChainOf(y, g, mid, r, t);
      WithSlotFat(y, g, r, s);
    }
  }

  lemma ChainOf(y: Volume, g: Geometry, mid: Catalog, r: Ref, t: Owner)
    requires SoundBut(y, g, mid, Some(r)) && t in mid.chains
    ensures IsChain(y.fat, mid.chains[t])
  {}

  lemma WithSlotFat(y: Volume, g: Geometry, r: Ref, s: slot)
    requires Shaped(y, g) && r.unit < g.Entries() && SLOT * r.index + SLOT <= g.UnitLen(r.unit)
    ensures WithSlot(y, g, r, s).fat == y.fat
  {}

  /** A directory whose name starts with 0xE5 is lost as soon as it is made, and its cluster with it. */
  lemma MkdirLoses(v: Volume, g: Geometry, cat: Catalog, d: nat, r: Ref, c: nat, leaf: name83, cat2: Catalog)
    requires Sound(v, g, cat) && Small(g) && Dir(d) in cat.chains && IsSlot(g, cat, r) && Shaped(v, g)
    requires !Named(SlotAt(v, g, r)) && 2 <= c < g.Entries() && v.fat[c] == FREE && leaf[0] == DELETED
    ensures OpsOk(MkdirOps(g, r, c, d, leaf), g)
    ensures !Sound(Run(v, g, MkdirOps(g, r, c, d, leaf)), g, cat2)
  {
    hide SoundBut, Named, SlotAt, Elsewhere, MakeEntry, MkdirOps, OnlySlotLost, Run, DotEntries;
    SetAside(v, g, cat, r);
    StartFile(v, g, cat, r);
    var cat1, chunk := WithChain(cat, r, []), DotEntries(c, d);
    var y := Taken(v, [], c, chunk, g.UnitLen(2));
    var mid := TakeKeeps(v, g, cat1, r, c, chunk);
    SoundShaped(y, g, mid, Some(r));
    FirstOwned2(y, g, mid, r, c, cat1);
    SlotUnit(v, g, cat, None, r);
    MarkedUnnamed(leaf, ATTR_DIRECTORY, c, 0);
    var s := MakeEntry(leaf, ATTR_DIRECTORY, c, 0);
    LostSlot(v, y, g, cat, mid, r, s);
    MkdirRun(v, g, r, c, d, leaf);
    WithSlotFat(y, g, r, s);
    LeakBreaks(v, WithSlot(y, g, r, s), g, cat, r, c, cat2);
  }

  lemma FirstOwned2(y: Volume, g: Geometry, mid: Catalog, r: Ref, c: nat, cat1: Catalog)
    requires SoundBut(y, g, mid, Some(r)) && File(r) in mid.chains && mid.chains[File(r)] == [] + [c]
    ensures r.unit != c
  {
    assert [] + [c] == [c];
    FileNamed(y, g, mid, Some(r), r);
    FirstOwned(y, g, mid, r, c);
  }

  /**
   Creating a directory keeps the volume consistent unless its name starts with
   0xE5 and there is nothing in the way: a new name, a vacant slot, a free cluster.
   */
  lemma MkdirExact(v: Volume, g: Geometry, cat: Catalog, path: cstring)
    requires Sound(v, g, cat) && Small(g)
    ensures Shaped(v, g) && OpsOk(Mkdir(v, g, cat, path).ops, g)
    ensures Consistent(Run(v, g, Mkdir(v, g, cat, path).ops), g) <==> !LosesDir(v, g, cat, path)
  {
    hide SoundBut, Search, SearchVacant, FirstFree, SlotAt, Named, UsedBefore, Run, OpsOk, Resolve, DirName,
         SplitPath, IsDir, FilesBut, PathsBut, MkdirOps, EmptyDir;
    SoundShaped(v, g, cat, None);
    MkdirAnswers(v, g, cat, path);
    if !LosesDir(v, g, cat, path) {
      var w, cat' := MkdirKeeps(v, g, cat, path);
      assert Sound(w, g, cat');
    } else {
      var t := DirTarget(v, g, cat, path);
      VacantFinds(v, g, cat, t.dir);
      var r := SearchVacant(v, DirUnits(cat, t.dir)).value;
      var c := FreeLowest(v.fat);
      FirstFreeIs(v.fat, c);
      var leaf := SplitPath(path).leaf;
      DirNamePlain(leaf);
      UpperMark(leaf[0]);
      MkdirLoses(v, g, cat, t.dir, r, c, DirName(leaf).value, cat);
      forall cat2
        ensures !Sound(Run(v, g, MkdirOps(g, r, c, t.dir, DirName(leaf).value)), g, cat2)
      {
        MkdirLoses(v, g, cat, t.dir, r, c, DirName(leaf).value, cat2);
      }
    }
  }

  lemma FirstFreeIs(fat: seq<nat>, c: nat)
    requires FirstFree(fat, 2) == Some(c)
    ensures 2 <= c < |fat| && fat[c] == FREE
  {}

  /** A file with contents whose name starts with 0xE5 is lost as soon as it is written. */
  lemma WriteLoses(v: Volume, g: Geometry, cat: Catalog, r: Ref, leaf: name83, data: seq<byte>, cat2: Catalog)
    requires Sound(v, g, cat) && Small(g) && IsSlot(g, cat, r) && Shaped(v, g) && !Named(SlotAt(v, g, r))
    requires File(r) !in cat.chains
    requires Ready(v, g, WithChain(cat, r, []), r, leaf) && leaf[0] == DELETED && data != [] && |data| < WORD
    requires Fill(v, g, WithChain(cat, r, []), r, leaf, data, false).rc == Okay
    ensures OpsOk(Fill(v, g, WithChain(cat, r, []), r, leaf, data, false).ops, g)
    ensures !Sound(Run(v, g, Fill(v, g, WithChain(cat, r, []), r, leaf, data, false).ops), g, cat2)
  {
    hide SoundBut, UsedBefore, FreshName, Named, MakeEntry, SlotAt, Run, OpsOk, Elsewhere, OnlySlotLost, WithSlot, Grow;
    var cat1, gr := WithChain(cat, r, []), Grow(v, g, [], data);
    var y, mid := GrowKeeps(v, g, cat1, r, data);
    SlotUnit(v, g, cat, None, r);
    var s := MakeEntry(leaf, 0, FirstOf(gr.chain), |data|);
    MarkedUnnamed(leaf, 0, FirstOf(gr.chain), |data|);
    StoreRun(y, g, r, s);
    RunConcat(v, g, gr.ops, [PutSlot(r, s)]);
    LostSlot(v, y, g, cat, mid, r, s);
    WithSlotFat(y, g, r, s);
    var c := GrowTakes(v, g, data);
    LeakBreaks(v, WithSlot(y, g, r, s), g, cat, r, c, cat2);
  }

  /** What growing does to the table: the new clusters were free, nothing else changes. */
  lemma {:induction false} GrowTable(v: Volume, g: Geometry, s: seq<nat>, data: seq<byte>)
    requires Shaped(v, g) && Small(g) && IsChain(v.fat, s)
    ensures Clusters(g, s)
    ensures var gr := Grow(v, g, s, data); var w := Run(v, g, gr.ops);
            && IsChain(w.fat, gr.chain) && s <= gr.chain && (data != [] && !gr.full ==> s < gr.chain)
            && (forall u :: 2 <= u < g.Entries() && u !in gr.chain ==> w.fat[u] == v.fat[u])
            && (forall i :: |s| <= i < |gr.chain| ==> v.fat[gr.chain[i]] == FREE)
            && w.fat[..2] == v.fat[..2]
    decreases |data|
  {
    hide Run, TakeOps, FirstFree, OpsOk, Grow, IsChain;
    ChainUnits(v, g, s);
    if data == [] {
      GrowNothing(v, g, s);
      RunNil(v, g);
    } else {
      GrowStep(v, g, s, data);
      var free := FirstFree(v.fat, 2);
      if free.None? {
        RunNil(v, g);
      } else {
        var c, n := free.value, Min(|data|, g.UnitLen(2));
        TakeRun(v, g, s, c, data[..n]);
        TakeReads(v, g, s, c, data[..n]);
        var y := Taken(v, s, c, data[..n], g.UnitLen(2));
        GrowTable(y, g, s + [c], data[n..]);
        var rest := Grow(y, g, s + [c], data[n..]);
        RunConcat(v, g, TakeOps(g, s, c, data[..n]), rest.ops);
        GrowTableStep(v, g, s, c, data[..n], rest.chain);
      }
    }
  }

  lemma GrowTableStep(v: Volume, g: Geometry, s: seq<nat>, c: nat, chunk: seq<byte>, t: seq<nat>)
    requires Shaped(v, g) && Small(g) && IsChain(v.fat, s) && 2 <= c < g.Entries() && v.fat[c] == FREE
    requires |chunk| <= g.UnitLen(2)
    requires Clusters(g, t) && s + [c] <= t
    requires var y := Taken(v, s, c, chunk, g.UnitLen(2)); forall i :: |s + [c]| <= i < |t| ==> y.fat[t[i]] == FREE
    ensures s < t
    ensures forall i :: |s| <= i < |t| ==> v.fat[t[i]] == FREE
    ensures var y := Taken(v, s, c, chunk, g.UnitLen(2));
            && (forall u :: 2 <= u < g.Entries() && u !in t ==> y.fat[u] == v.fat[u]) && y.fat[..2] == v.fat[..2]
  {
    var y := Taken(v, s, c, chunk, g.UnitLen(2));
    assert t[|s|] == (s + [c])[|s|] == c;
    assert forall i :: 0 <= i < |s| ==> t[i] == (s + [c])[i] == s[i];
    forall i | |s| <= i < |t|
      ensures v.fat[t[i]] == FREE
    {
      if i > |s| {
        assert y.fat[t[i]] == FREE;
        assert s != [] ==> y.fat[s[|s| - 1]] == c;
        assert y.fat[c] != FREE;
      }
    }
  }

  lemma GrowTakes(v: Volume, g: Geometry, data: seq<byte>) returns (c: nat)
    requires Shaped(v, g) && Small(g) && data != [] && Clusters(g, []) && !Grow(v, g, [], data).full
    ensures 2 <= c < g.Entries() && v.fat[c] == FREE && Run(v, g, Grow(v, g, [], data).ops).fat[c] != FREE
  {
    GrowTable(v, g, [], data);
    var gr := Grow(v, g, [], data);
    c := gr.chain[0];
    assert |gr.chain| > 1 ==> Run(v, g, gr.ops).fat[gr.chain[0]] == gr.chain[1];
  }

  /** Growing and undoing it leaves the table as it was and touches free clusters only. */
  lemma UndoRestores(v: Volume, g: Geometry, data: seq<byte>)
    requires Shaped(v, g) && Small(g) && LinksInside(v.fat)
    ensures OpsOk(UndoneOps(v, g, data), g)
    ensures var w := Run(v, g, UndoneOps(v, g, data));
            && w.fat == v.fat && w.units[0] == v.units[0]
            && forall u :: 2 <= u < g.Entries() && v.fat[u] != FREE ==> w.units[u] == v.units[u]
  {
    hide Run, OpsOk, Grow, IsChain, FreeOps, FreeFat, LinksInside;
    NothingChain(v.fat);
    GrowLinksInside(v, g, [], data);
    GrowTable(v, g, [], data);
    var gr := Grow(v, g, [], data);
    var y := Run(v, g, gr.ops);
    GrowFrame(v, g, [], data, 0);
    forall u | 2 <= u < g.Entries() && v.fat[u] != FREE
      ensures y.units[u] == v.units[u]
    {
      GrowFrame(v, g, [], data, u);
    }
    FreeOpsRun(y, g, FirstOf(gr.chain));
    RunConcat(v, g, gr.ops, FreeHead(y, FirstOf(gr.chain)));
    RunNil(y, g);
    var w := Run(v, g, UndoneOps(v, g, data));
    if gr.chain == [] {
      TableSame(v.fat, w.fat, []);
    } else {
      ChainUnits(y, g, gr.chain);
      FreeWhole(y.fat, gr.chain);
      TableSame(v.fat, w.fat, gr.chain);
    }
  }

  lemma TableSame(a: seq<nat>, b: seq<nat>, s: seq<nat>)
    requires |a| == |b| >= 2 && a[..2] == b[..2]
    requires forall u :: 2 <= u < |a| ==> b[u] == if u in s then FREE else a[u]
    requires forall i :: 0 <= i < |s| ==> s[i] < |a| && a[s[i]] == FREE
    ensures a == b
  {
    forall u | 0 <= u < |a|
      ensures a[u] == b[u]
    {
      if u < 2 {
        assert a[..2][u] == b[..2][u];
      }
    }
  }

  /**
   Writing keeps the volume consistent unless the name starts with 0xE5, there is
   data, and there is room for it: a vacant slot and enough free clusters.
   */
  lemma WriteExact(v: Volume, g: Geometry, cat: Catalog, path: cstring, data: seq<byte>)
    requires Sound(v, g, cat) && Small(g) && |data| < WORD
    ensures Shaped(v, g) && OpsOk(Write(v, g, cat, path, data).ops, g)
    ensures Consistent(Run(v, g, Write(v, g, cat, path, data).ops), g) <==> !LosesFile(v, g, cat, path, |data|)
  {
    hide SoundBut, Search, SearchVacant, SlotAt, Named, Run, OpsOk, Locate, FileName, SplitPath, IsDir, Fill, Ready,
         Stored, SameFiles, SameTree, FreeHead, Head, Name, FilesBut, PathsBut, WriteFits;
    SoundShaped(v, g, cat, None);
    if !LosesFile(v, g, cat, path, |data|) {
      var w, cat', r := WriteKeeps(v, g, cat, path, data);
      assert Sound(w, g, cat');
    } else {
      WriteAnswers(v, g, cat, path, data);
      TargetNamed(v, g, cat, path);
      var t := FileTarget(v, g, cat, path);
      UpperMark(SplitPath(path).leaf[0]);
      MarkedMissing(v, g, cat, path);
      UnitsOk(v, g, cat, None, t.dir);
      FillExact(v, g, cat, t.dir, SearchVacant(v, DirUnits(cat, t.dir)).value, LeafName(path), data);
    }
  }

  lemma FillExact(v: Volume, g: Geometry, cat: Catalog, d: nat, r: Ref, leaf: name83, data: seq<byte>)
    requires Sound(v, g, cat) && Small(g) && |data| < WORD && leaf[0] == DELETED
    requires Dir(d) in cat.chains && UnitsIn(v, DirUnits(cat, d))
    requires Search(v, DirUnits(cat, d), leaf).None? && SearchVacant(v, DirUnits(cat, d)) == Some(r)
    ensures Shaped(v, g) && Ready(v, g, WithChain(cat, r, []), r, leaf)
    ensures var o := Fill(v, g, WithChain(cat, r, []), r, leaf, data, false);
            OpsOk(o.ops, g) && (Consistent(Run(v, g, o.ops), g) <==> o.rc != Okay || data == [])
  {
    hide SoundBut, Search, SearchVacant, SlotAt, Named, Run, OpsOk, Fill, Ready, Stored, SameFiles;
    SoundShaped(v, g, cat, None);
    ReadyNew(v, g, cat, d, r, leaf);
    SlotUnit(v, g, cat, None, r);
    SetAside(v, g, cat, r);
    var cat1 := WithChain(cat, r, []);
    var o := Fill(v, g, cat1, r, leaf, data, false);
    FillCodes(v, g, cat1, r, leaf, data, false);
    if o.rc != Okay {
      var w, cat' := FillFull(v, g, cat1, r, leaf, data, false);
      assert Sound(w, g, cat');
    } else if data == [] {
      var w, cat' := WriteNothing(v, g, cat1, r, leaf);
      assert Sound(w, g, cat');
    } else {
      WriteLoses(v, g, cat, r, leaf, data, cat);
      forall cat2
        ensures !Sound(Run(v, g, o.ops), g, cat2)
      {
        WriteLoses(v, g, cat, r, leaf, data, cat2);
      }
    }
  }

  // ----- image writes that run full -----

  /** Changing bytes of free clusters does not matter. */
  lemma SoundUnits(v: Volume, w: Volume, g: Geometry, cat: Catalog)
    requires Sound(v, g, cat) && Shaped(v, g) && Shaped(w, g) && w.fat == v.fat && w.units[0] == v.units[0]
    requires forall u :: 2 <= u < g.Entries() && v.fat[u] != FREE ==> w.units[u] == v.units[u]
    ensures Sound(w, g, cat)
  {
    hide SoundBut, Named, IsDir, Clash, TailAt;
    forall q | IsSlot(g, cat, q)
      ensures w.units[q.unit] == v.units[q.unit] && SlotAt(w, g, q) == SlotAt(v, g, q)
    {
      SlotUsed(v, g, cat, q);
    }
    SoundSlots(v, w, g, cat);
  }

  lemma SlotUsed(v: Volume, g: Geometry, cat: Catalog, q: Ref)
    requires Sound(v, g, cat) && IsSlot(g, cat, q)
    ensures q.unit == 0 || (2 <= q.unit < g.Entries() && v.fat[q.unit] != FREE)
  {}

  /** Volumes with the same table and the same slots are consistent together. */
  lemma SoundSlots(v: Volume, w: Volume, g: Geometry, cat: Catalog)
    requires Sound(v, g, cat) && Shaped(w, g) && w.fat == v.fat
    requires forall q :: IsSlot(g, cat, q) ==> w.units[q.unit] == v.units[q.unit] && SlotAt(w, g, q) == SlotAt(v, g, q)
    ensures Sound(w, g, cat)
  {
    forall q | IsSlot(g, cat, q)
      ensures EntryOk(w, g, cat, q)
    {
      assert EntryOk(v, g, cat, q);
    }
    forall h | Dir(h) in cat.chains && h != 0
      ensures DirNamed(w, g, cat, None, h)
    {
      assert DirNamed(v, g, cat, None, h);
    }
    forall p, q
      ensures !Clash(w, g, cat, p, q)
    {
      assert !Clash(v, g, cat, p, q);
    }
    SoundTail(v, w, g, cat);
  }

  lemma SoundTail(v: Volume, w: Volume, g: Geometry, cat: Catalog)
    requires Sound(v, g, cat) && Shaped(w, g)
    requires forall q :: IsSlot(g, cat, q) ==> w.units[q.unit] == v.units[q.unit]
    ensures TailOk(w, g, cat)
  {
    hide SoundBut;
    forall d: nat, i: nat, j: nat, m: nat, n: nat | Dir(d) in cat.chains
      ensures TailAt(w, g, DirUnits(cat, d), i, j, m, n)
    {
      DirTail(v, g, cat, None, d);
      UnitsOk(v, g, cat, None, d);
      RootKnown(v, g, cat, None);
      var us := DirUnits(cat, d);
      assert TailAt(v, g, us, i, j, m, n);
      if i < |us| && m < |us| && SLOT * j + SLOT <= g.UnitLen(us[i]) && SLOT * n + SLOT <= g.UnitLen(us[m]) {
        assert IsSlot(g, cat, Ref(us[i], j)) && IsSlot(g, cat, Ref(us[m], n));
      }
    }
  }

  /** Undoing over a file with contents leaves its entry naming freed clusters. */
  lemma UndoDangles(v: Volume, g: Geometry, cat: Catalog, r: Ref, data: seq<byte>, cat2: Catalog)
    requires Sound(v, g, cat) && Small(g) && IsSlot(g, cat, r) && Shaped(v, g)
    requires Named(SlotAt(v, g, r)) && !IsDir(SlotAt(v, g, r)) && Head(SlotAt(v, g, r)) != 0
    requires LinksInside(v.fat) && InTable(v.fat, Head(SlotAt(v, g, r))) && OpsOk(FreeHead(v, Head(SlotAt(v, g, r))), g)
    requires LinksInside(Run(v, g, FreeHead(v, Head(SlotAt(v, g, r)))).fat)
    ensures var y := Run(v, g, FreeHead(v, Head(SlotAt(v, g, r))));
            OpsOk(UndoneOps(y, g, data), g) && !Sound(Run(y, g, UndoneOps(y, g, data)), g, cat2)
  {
    hide SoundBut, Named, IsDir, SlotIn, Run, OpsOk, FreeHead, UndoneOps, LinksInside, IsChain, Elsewhere, TreeKept,
         Head;
    EntryAgrees(v, g, cat, r);
    SetAside(v, g, cat, r);
    var y := TruncateKeeps(v, g, cat, r);
    UndoRestores(y, g, data);
    var w := Run(y, g, UndoneOps(y, g, data));
    UndoKeepsTree(v, y, w, g, cat, r);
    HeadFreed(v, y, g, cat, r);
    DanglingBreaks(v, w, g, cat, r, cat2);
  }

  lemma UndoKeepsTree(v: Volume, y: Volume, w: Volume, g: Geometry, cat: Catalog, r: Ref)
    requires Sound(v, g, cat) && SoundBut(y, g, Truncated(cat, r), Some(r)) && IsSlot(g, cat, r) && Shaped(v, g)
    requires Shaped(w, g) && File(r) in cat.chains
    requires y.units == v.units && w.fat == y.fat && w.units[0] == y.units[0]
    requires forall u :: 2 <= u < g.Entries() && y.fat[u] != FREE ==> w.units[u] == y.units[u]
    ensures TreeKept(v, w, g, cat) && SlotAt(w, g, r) == SlotAt(v, g, r)
  {
    hide SoundBut, Named, IsDir, IsChain;
    SoundShaped(y, g, Truncated(cat, r), Some(r));
    forall q | IsSlot(g, cat, q)
      ensures SlotAt(w, g, q) == SlotAt(v, g, q)
    {
      assert IsSlot(g, Truncated(cat, r), q);
      SlotUsedAside(y, g, Truncated(cat, r), r, q);
    }
    forall h | Dir(h) in cat.chains
      ensures IsChain(w.fat, cat.chains[Dir(h)])
    {
      ChainOf(y, g, Truncated(cat, r), r, Dir(h));
    }
  }

  lemma SlotUsedAside(v: Volume, g: Geometry, cat: Catalog, r: Ref, q: Ref)
    requires SoundBut(v, g, cat, Some(r)) && IsSlot(g, cat, q)
    ensures q.unit == 0 || (2 <= q.unit < g.Entries() && v.fat[q.unit] != FREE)
  {}

  lemma HeadFreed(v: Volume, y: Volume, g: Geometry, cat: Catalog, r: Ref)
    requires SoundBut(v, g, cat, Some(r)) && SoundBut(y, g, Truncated(cat, r), Some(r)) && File(r) in cat.chains
    requires FirstOf(cat.chains[File(r)]) != 0
    ensures 2 <= FirstOf(cat.chains[File(r)]) < g.Entries() && y.fat[FirstOf(cat.chains[File(r)])] == FREE
  {
    var s := cat.chains[File(r)];
    assert IsChain(v.fat, s);
    assert cat.owner[s[0]] == File(r);
    assert s[0] !in Truncated(cat, r).owner;
  }

  /** The image writer would run full over a file that has clusters. */
  ghost predicate Strands(v: Volume, g: Geometry, cat: Catalog, path: cstring, n: nat)
    requires Sound(v, g, cat)
  {
    var t := FileTarget(v, g, cat, path);
    && t.Present?
    && (EntryKnown(v, g, cat, path);
        !IsDir(SlotAt(v, g, t.ref)) && Head(SlotAt(v, g, t.ref)) != 0 && !WriteFits(v, g, cat, path, n))
  }

  /**
   The image writer keeps the volume consistent unless the name starts with 0xE5
   and is stored with data, or it runs full over a file that has clusters; in that
   case the device writer resets the entry.
   */
  lemma ImageWriteExact(v: Volume, g: Geometry, cat: Catalog, path: cstring, data: seq<byte>)
    requires Sound(v, g, cat) && Small(g) && |data| < WORD
    ensures Shaped(v, g) && OpsOk(ImageWrite(v, g, cat, path, data).ops, g)
    ensures Consistent(Run(v, g, ImageWrite(v, g, cat, path, data).ops), g) <==>
            !LosesFile(v, g, cat, path, |data|) && !Strands(v, g, cat, path, |data|)
  {
    hide SoundBut, Search, SearchVacant, SlotAt, Named, Run, OpsOk, Locate, FileName, SplitPath, IsDir, Ready, Stored,
         SameFiles, SameTree, FreeHead, Head, Name, Grow, UndoneOps, LinksInside, CleanLeaf, Write, WriteFits,
         Consistent;
    SoundShaped(v, g, cat, None);
    RunNil(v, g);
    WritersAgree(v, g, cat, path, data);
    WriteAnswers(v, g, cat, path, data);
    var t, o := FileTarget(v, g, cat, path), ImageWrite(v, g, cat, path, data);
    TargetNamed(v, g, cat, path);
    SoundConsistent(v, g, cat);
    if o.rc == Okay {
      WriteExact(v, g, cat, path, data);
    } else if t.Missing? {
      SoundLinks(v, g, cat);
      UndoRestores(v, g, data);
      SoundUnits(v, Run(v, g, UndoneOps(v, g, data)), g, cat);
      SoundConsistent(Run(v, g, UndoneOps(v, g, data)), g, cat);
    } else if t.Present? && !IsDir(SlotAt(v, g, t.ref)) {
      FullExact(v, g, cat, t.ref, data);
    }
  }

  lemma SoundConsistent(v: Volume, g: Geometry, cat: Catalog)
    requires Sound(v, g, cat)
    ensures Consistent(v, g)
  {}

  lemma FullExact(v: Volume, g: Geometry, cat: Catalog, r: Ref, data: seq<byte>)
    requires Sound(v, g, cat) && Small(g) && IsSlot(g, cat, r) && Shaped(v, g)
    requires Named(SlotAt(v, g, r)) && !IsDir(SlotAt(v, g, r))
    ensures LinksInside(v.fat) && InTable(v.fat, Head(SlotAt(v, g, r))) && OpsOk(FreeHead(v, Head(SlotAt(v, g, r))), g)
    ensures var pre := FreeHead(v, Head(SlotAt(v, g, r))); var y := Run(v, g, pre);
            && LinksInside(y.fat) && OpsOk(pre + UndoneOps(y, g, data), g)
            && (Consistent(Run(v, g, pre + UndoneOps(y, g, data)), g) <==> Head(SlotAt(v, g, r)) == 0)
  {
    hide SoundBut, SlotAt, Named, Run, OpsOk, IsDir, Ready, Head, Name, Grow, UndoneOps, LinksInside, FreeOps;
    ReadyOver(v, g, cat, r);
    var pre := FreeHead(v, Head(SlotAt(v, g, r)));
    var y := Run(v, g, pre);
    ReadyShape(y, g, Truncated(cat, r), r, Name(SlotAt(v, g, r)));
    UndoRestores(y, g, data);
    RunConcat(v, g, pre, UndoneOps(y, g, data));
    if Head(SlotAt(v, g, r)) == 0 {
      RunNil(v, g);
      SoundUnits(v, Run(y, g, UndoneOps(y, g, data)), g, cat);
    } else {
      forall cat2
        ensures !Sound(Run(y, g, UndoneOps(y, g, data)), g, cat2)
      {
        UndoDangles(v, g, cat, r, data, cat2);
      }
    }
  }

  // ----- runs -----

  /** One command keeps the volume consistent exactly when it does not lose what it stores. */
  lemma StepExact(v: Volume, g: Geometry, cat: Catalog, c: Command)
    requires Sound(v, g, cat) && Small(g) && Sized(c)
    ensures Shaped(v, g) && OpsOk(Perform(v, g, cat, c).ops, g)
    ensures Consistent(Run(v, g, Perform(v, g, cat, c).ops), g) <==> !Loses(v, g, cat, c)
  {
    hide SoundBut, Mkdir, Write, Unlink, Rmdir, LosesDir, LosesFile, FilesBut, PathsBut;
    SoundShaped(v, g, cat, None);
    match c {
      case MakeDir(path) => MkdirExact(v, g, cat, path);
      case WriteFile(path, data) => WriteExact(v, g, cat, path, data);
      case UnlinkFile(path) =>
        var w, cat' := UnlinkKeeps(v, g, cat, path);
        SoundConsistent(w, g, cat');
      case RemoveDir(path) =>
        var w, cat' := RmdirKeeps(v, g, cat, path);
        SoundConsistent(w, g, cat');
    }
  }

  /** A run of commands ends in a consistent volume exactly when none of them loses what it stores. */
  lemma {:induction false} RunExact(v: Volume, g: Geometry, cat: Catalog, cs: seq<Command>, w: Volume)
    requires Sound(v, g, cat) && RunsTo(v, g, cs, w)
    ensures Consistent(w, g) <==> RunsSafely(v, g, cs, w)
    decreases |cs|
  {
    hide SoundBut, Perform, Loses;
    if RunsSafely(v, g, cs, w) {
      var cat' := RunKeeps(v, g, cat, cs, w);
    }
    if Consistent(w, g) {
      RunSafe(v, g, cs, w);
    }
  }

  lemma {:induction false} RunSafe(v: Volume, g: Geometry, cs: seq<Command>, w: Volume)
    requires RunsTo(v, g, cs, w) && Consistent(w, g)
    ensures RunsSafely(v, g, cs, w)
    decreases |cs|
  {
    hide SoundBut, Perform, Loses;
    if cs != [] {
      var k, y :| Steps(v, g, k, cs[0], y) && RunsTo(y, g, cs[1..], w);
      if |cs| > 1 {
        var k2, z :| Steps(y, g, k2, cs[1..][0], z) && RunsTo(z, g, cs[1..][1..], w);
        SoundConsistent(y, g, k2);
      }
      StepExact(v, g, k, cs[0]);
      RunSafe(y, g, cs[1..], w);
      assert SafeStep(v, g, k, cs[0], y);
    }
  }
}
