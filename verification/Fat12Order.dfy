/**
 The order of updates: an entry is marked deleted before the clusters it names are
 freed, so that wherever a removal stops no live entry names a freed cluster.
 */
module Fat12Order {
  import opened Bytes
  import opened Fat12Layout
  import opened Fat12Journal
  import opened Fat12Chain
  import opened Fat12Dir
  import opened Fat12Sound
  import opened Fat12Ops
  import opened Fat12Keeps
  import opened Fat12Room

  // ----- cutting links -----

  /** Updates that only free clusters. */
  ghost predicate AllCuts(ops: seq<Op>) {
    forall i :: 0 <= i < |ops| ==> ops[i].Link? && ops[i].value == FREE
  }

  ghost predicate Cuts(ops: seq<Op>, c: nat) {
    exists i :: 0 <= i < |ops| && ops[i].Link? && ops[i].cluster == c
  }

  lemma {:induction false} CutsRun(v: Volume, g: Geometry, ops: seq<Op>)
    requires Shaped(v, g) && OpsOk(ops, g) && AllCuts(ops)
    ensures Run(v, g, ops).units == v.units
    ensures forall c :: 0 <= c < |v.fat| ==> Run(v, g, ops).fat[c] == if Cuts(ops, c) then FREE else v.fat[c]
    decreases |ops|
  {
    if ops != [] {
      var y := Apply(v, g, ops[0]);
      CutsRun(y, g, ops[1..]);
      forall c | 0 <= c < |v.fat|
        ensures Cuts(ops, c) <==> ops[0].cluster == c || Cuts(ops[1..], c)
      {
        if Cuts(ops[1..], c) {
          var i :| 0 <= i < |ops[1..]| && ops[1..][i].Link? && ops[1..][i].cluster == c;
          assert ops[i + 1].cluster == c;
        }
        if Cuts(ops, c) && ops[0].cluster != c {
          var i :| 0 <= i < |ops| && ops[i].Link? && ops[i].cluster == c;
          assert ops[1..][i - 1].cluster == c;
        }
      }
    }
  }

  lemma CutsPrefix(ops: seq<Op>, k: nat, c: nat)
    requires k <= |ops| && Cuts(ops[..k], c)
    ensures Cuts(ops, c)
  {
    var i :| 0 <= i < k && ops[..k][i].Link? && ops[..k][i].cluster == c;
    assert ops[i].cluster == c;
  }

  /** Freeing a chain, wherever it stops, has changed table entries of that chain only. */
  lemma FreePrefix(v: Volume, g: Geometry, cat: Catalog, t: Owner, k: nat)
    requires Shaped(v, g) && Allocated(v.fat, cat.chains, cat.owner) && t in cat.chains && cat.chains[t] != []
    requires LinksInside(v.fat) && InTable(v.fat, cat.chains[t][0]) && k <= |FreeOps(v.fat, cat.chains[t][0])|
    ensures OpsOk(FreeOps(v.fat, cat.chains[t][0])[..k], g)
    ensures var y := Run(v, g, FreeOps(v.fat, cat.chains[t][0])[..k]);
            y.units == v.units && forall c :: 0 <= c < |v.fat| && c !in cat.chains[t] ==> y.fat[c] == v.fat[c]
  {
    hide Run, FreeOps, FreeFat, LinksInside;
    var ops := FreeOps(v.fat, cat.chains[t][0]);
    FreeOpsRun(v, g, cat.chains[t][0]);
    ReleaseKeeps(v.fat, cat.chains, cat.owner, t);
    FreeAllCuts(v.fat, cat.chains[t][0]);
    CutsRun(v, g, ops);
    CutsRun(v, g, ops[..k]);
    forall c | 0 <= c < |v.fat| && c !in cat.chains[t]
      ensures Run(v, g, ops[..k]).fat[c] == v.fat[c]
    {
      if Cuts(ops[..k], c) {
        CutsPrefix(ops, k, c);
      }
    }
  }

  lemma FreeAllCuts(fat: seq<nat>, c: nat)
    requires LinksInside(fat) && InTable(fat, c)
    ensures AllCuts(FreeOps(fat, c))
  {}

  // ----- removals that stop on the way -----

  /** Whose chain a named entry heads. */
  ghost function OwnerAt(v: Volume, g: Geometry, q: Ref): Owner
    requires Shaped(v, g) && q.unit < g.Entries() && SLOT * q.index + SLOT <= g.UnitLen(q.unit)
  {
    if IsDir(SlotAt(v, g, q)) then Dir(Head(SlotAt(v, g, q))) else File(q)
  }

  /** Every named entry heads its whole chain. */
  ghost predicate NoneDangles(y: Volume, g: Geometry, cat: Catalog) {
    && Shaped(y, g)
    && forall q :: IsSlot(g, cat, q) && Named(SlotAt(y, g, q)) ==>
                     var t := OwnerAt(y, g, q);
                     && t in cat.chains && IsChain(y.fat, cat.chains[t])
                     && FirstOf(cat.chains[t]) == Head(SlotAt(y, g, q))
  }

  lemma SoundNoneDangles(v: Volume, g: Geometry, cat: Catalog)
    requires Sound(v, g, cat)
    ensures NoneDangles(v, g, cat)
  {
    hide IsChain;
    forall q | IsSlot(g, cat, q) && Named(SlotAt(v, g, q))
      ensures OwnerAt(v, g, q) in cat.chains
      ensures FirstOf(cat.chains[OwnerAt(v, g, q)]) == Head(SlotAt(v, g, q))
    {
      OwnerKnown(v, g, cat, q);
    }
  }

  lemma OwnerKnown(v: Volume, g: Geometry, cat: Catalog, q: Ref)
    requires Sound(v, g, cat) && IsSlot(g, cat, q) && Named(SlotAt(v, g, q))
    ensures var t := OwnerAt(v, g, q);
            t in cat.chains && IsChain(v.fat, cat.chains[t]) && FirstOf(cat.chains[t]) == Head(SlotAt(v, g, q))
  {
    hide IsChain, Named, IsDir, Head;
    SlotAgrees(v, g, cat, None, q);
    if IsDir(SlotAt(v, g, q)) {
      DirKnown(v, g, cat, None, Head(SlotAt(v, g, q)));
    }
  }

  /** Different entries head different chains. */
  lemma OwnersDiffer(v: Volume, g: Geometry, cat: Catalog, q: Ref, r: Ref)
    requires Sound(v, g, cat) && IsSlot(g, cat, q) && IsSlot(g, cat, r) && q != r
    requires Named(SlotAt(v, g, q)) && Named(SlotAt(v, g, r))
    ensures OwnerAt(v, g, q) != OwnerAt(v, g, r)
  {
    hide IsChain, Named, IsDir, Head;
    SlotAgrees(v, g, cat, None, q);
    SlotAgrees(v, g, cat, None, r);
  }

  /** Dropping an entry, wherever it stops: nothing dangles. */
  lemma DropOrder(v: Volume, g: Geometry, cat: Catalog, r: Ref, k: nat)
    requires Sound(v, g, cat) && IsSlot(g, cat, r) && Named(SlotAt(v, g, r)) && r.unit != 1
    requires LinksInside(v.fat) && InTable(v.fat, Head(SlotAt(v, g, r)))
    requires k <= |DropOps(v, r, Head(SlotAt(v, g, r)))|
    ensures OpsOk(DropOps(v, r, Head(SlotAt(v, g, r)))[..k], g)
    ensures NoneDangles(Run(v, g, DropOps(v, r, Head(SlotAt(v, g, r)))[..k]), g, cat)
  {
    hide SoundBut, IsChain, Named, IsDir, Head, Run, FreeHead, LinksInside, OpsOk, NoneDangles;
    SoundAllocated(v, g, cat, None);
    var ops := DropOps(v, r, Head(SlotAt(v, g, r)));
    if k == 0 {
      RunNil(v, g);
      SoundNoneDangles(v, g, cat);
      assert ops[..k] == [];
    } else {
      var rest := FreeHead(v, Head(SlotAt(v, g, r)));
      assert ops[..k] == [PutSlot(r, [DELETED])] + rest[..k - 1];
      var m, y := DropRun(v, g, cat, r, k - 1);
      DropDangles(v, m, y, g, cat, r);
    }
  }

  /** The volume with the entry marked, and then with part of the chain freed. */
  lemma DropRun(v: Volume, g: Geometry, cat: Catalog, r: Ref, k: nat) returns (m: Volume, y: Volume)
    requires Sound(v, g, cat) && IsSlot(g, cat, r) && Named(SlotAt(v, g, r)) && r.unit != 1 && Shaped(v, g)
    requires LinksInside(v.fat) && InTable(v.fat, Head(SlotAt(v, g, r)))
    requires k <= |FreeHead(v, Head(SlotAt(v, g, r)))|
    ensures OpsOk([PutSlot(r, [DELETED])] + FreeHead(v, Head(SlotAt(v, g, r)))[..k], g)
    ensures y == Run(v, g, [PutSlot(r, [DELETED])] + FreeHead(v, Head(SlotAt(v, g, r)))[..k])
    ensures m == WithSlot(v, g, r, Marked(SlotAt(v, g, r))) && Shaped(y, g) && y.units == m.units
    ensures OwnerAt(v, g, r) in cat.chains
    ensures forall c :: 0 <= c < |v.fat| && c !in cat.chains[OwnerAt(v, g, r)] ==> y.fat[c] == v.fat[c]
  {
    hide SoundBut, IsChain, Named, IsDir, Head, Run, LinksInside, OpsOk, FreeOps, Splice;
    SoundAllocated(v, g, cat, None);
    OwnerKnown(v, g, cat, r);
    var t, op := OwnerAt(v, g, r), PutSlot(r, [DELETED]);
    var rest := FreeHead(v, Head(SlotAt(v, g, r)))[..k];
    MarkRun(v, g, r);
    m := WithSlot(v, g, r, Marked(SlotAt(v, g, r)));
    if cat.chains[t] == [] {
      assert rest == [];
      RunNil(m, g);
    } else {
      HeadSome(v.fat, cat.chains[t]);
      FreePrefix(m, g, cat, t, k);
    }
    RunConcat(v, g, [op], rest);
    y := Run(m, g, rest);
  }

  lemma HeadSome(fat: seq<nat>, s: seq<nat>)
    requires IsChain(fat, s) && s != []
    ensures 2 <= s[0] == FirstOf(s)
  {}

  lemma MarkRun(v: Volume, g: Geometry, r: Ref)
    requires Shaped(v, g) && r.unit < g.Entries() && r.unit != 1 && SLOT * r.index + SLOT <= g.UnitLen(r.unit)
    ensures OpsOk([PutSlot(r, [DELETED])], g)
    ensures Run(v, g, [PutSlot(r, [DELETED])]) == WithSlot(v, g, r, Marked(SlotAt(v, g, r)))
  {
    MarkIsStore(v, g, r);
    RunOne(v, g, PutSlot(r, [DELETED]));
  }

  lemma DropDangles(v: Volume, m: Volume, y: Volume, g: Geometry, cat: Catalog, r: Ref)
    requires Sound(v, g, cat) && IsSlot(g, cat, r) && Named(SlotAt(v, g, r)) && Shaped(v, g) && Shaped(y, g)
    requires m == WithSlot(v, g, r, Marked(SlotAt(v, g, r))) && y.units == m.units && OwnerAt(v, g, r) in cat.chains
    requires forall c :: 0 <= c < |v.fat| && c !in cat.chains[OwnerAt(v, g, r)] ==> y.fat[c] == v.fat[c]
    ensures NoneDangles(y, g, cat)
  {
    hide SoundBut, Named, IsDir, Head, WithSlot, SlotAt, IsChain;
    SoundAllocated(v, g, cat, None);
    forall q | IsSlot(g, cat, q) && Named(SlotAt(y, g, q))
      ensures var t := OwnerAt(y, g, q);
              && t in cat.chains && IsChain(y.fat, cat.chains[t])
              && FirstOf(cat.chains[t]) == Head(SlotAt(y, g, q))
    {
      SlotSame(m, y, g, q);
      WithSlotAt(v, g, r, Marked(SlotAt(v, g, r)), q);
      MarkedGone(SlotAt(v, g, r));
      assert q != r;
      OwnerKnown(v, g, cat, q);
      OwnersDiffer(v, g, cat, q, r);
      ChainsDisjoint(v.fat, cat.chains, cat.owner, OwnerAt(v, g, q), OwnerAt(v, g, r));
      ChainSame(v.fat, y.fat, cat.chains[OwnerAt(v, g, q)]);
    }
  }

  lemma SlotSame(m: Volume, y: Volume, g: Geometry, q: Ref)
    requires Shaped(m, g) && Shaped(y, g) && y.units == m.units
    requires q.unit < g.Entries() && SLOT * q.index + SLOT <= g.UnitLen(q.unit)
    ensures SlotAt(y, g, q) == SlotAt(m, g, q)
  {}

  lemma MarkedGone(s: slot)
    ensures !Named(Marked(s))
  {}

  lemma ChainSame(fat: seq<nat>, f: seq<nat>, s: seq<nat>)
    requires IsChain(fat, s) && |f| == |fat| && forall c :: c in s && c < |fat| ==> f[c] == fat[c]
    ensures IsChain(f, s)
  {}

  /** Wherever unlinking stops, every entry left heads its whole chain. */
  lemma UnlinkOrder(v: Volume, g: Geometry, cat: Catalog, path: cstring, k: nat)
    requires Sound(v, g, cat) && k <= |Unlink(v, g, cat, path).ops|
    ensures Shaped(v, g) && OpsOk(Unlink(v, g, cat, path).ops[..k], g)
    ensures NoneDangles(Run(v, g, Unlink(v, g, cat, path).ops[..k]), g, cat)
  {
    hide SoundBut, Named, IsDir, Head, SlotAt, Search, FileName, SplitPath, Resolve, DropOps, Run, OpsOk, NoneDangles;
    SoundShaped(v, g, cat, None);
    var t := FileTarget(v, g, cat, path);
    if t.Present? && !IsDir(SlotAt(v, g, t.ref)) {
      HeadInTable(v, g, cat, t.ref);
      SlotUnit(v, g, cat, None, t.ref);
      DropOrder(v, g, cat, t.ref, k);
    } else {
      RunNil(v, g);
      SoundNoneDangles(v, g, cat);
      assert Unlink(v, g, cat, path).ops[..k] == [];
    }
  }

  /** The same for removing a directory. */
  lemma RmdirOrder(v: Volume, g: Geometry, cat: Catalog, path: cstring, k: nat)
    requires Sound(v, g, cat) && k <= |Rmdir(v, g, cat, path).ops|
    ensures Shaped(v, g) && OpsOk(Rmdir(v, g, cat, path).ops[..k], g)
    ensures NoneDangles(Run(v, g, Rmdir(v, g, cat, path).ops[..k]), g, cat)
  {
    hide SoundBut, Named, IsDir, Head, SlotAt, Search, DirName, SplitPath, Resolve, DropOps, Run, OpsOk, NoneDangles,
         EmptyDir;
    SoundShaped(v, g, cat, None);
    var t := DirTarget(v, g, cat, path);
    if t.Present? && Rmdir(v, g, cat, path).rc == Okay {
      var r := t.ref;
      HeadInTable(v, g, cat, r);
      SlotUnit(v, g, cat, None, r);
      DropOrder(v, g, cat, r, k);
    } else {
      RunNil(v, g);
      SoundNoneDangles(v, g, cat);
      assert Rmdir(v, g, cat, path).ops[..k] == [];
    }
  }
}
