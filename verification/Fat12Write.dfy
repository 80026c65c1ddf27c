/** Writing whole files: the journal, the consistency it keeps and the bytes it stores. */
module Fat12Write {
  import opened Bytes
  import opened Paths
  import opened Fat12Layout
  import opened Fat12Journal
  import opened Fat12Chain
  import opened Fat12Dir
  import opened Fat12Sound
  import opened Fat12Lookup
  import opened Fat12Ops
  import opened Fat12Keeps

  /** A file set aside with an empty chain, ready to be filled and named. */
  ghost predicate Ready(v: Volume, g: Geometry, cat: Catalog, r: Ref, leaf: name83) {
    && SoundBut(v, g, cat, Some(r)) && IsSlot(g, cat, r)
    && File(r) in cat.chains && cat.chains[File(r)] == []
    && Dir(Home(cat, r)) in cat.chains && UsedBefore(v, g, cat, r) && FreshName(v, g, cat, r, leaf)
  }

  lemma GrowLinks(v: Volume, g: Geometry, cat: Catalog, r: Ref, data: seq<byte>)
    requires SoundBut(v, g, cat, Some(r)) && Small(g) && File(r) in cat.chains && cat.chains[File(r)] == []
    ensures Clusters(g, [])
    ensures var gr := Grow(v, g, [], data); var w := Run(v, g, gr.ops);
            LinksInside(w.fat) && InTable(w.fat, FirstOf(gr.chain))
  {
    var w, cat' := GrowKeeps(v, g, cat, r, data);
    LinksStayInside(w.fat, cat'.chains, cat'.owner);
    ChainHead(w.fat, cat', r);
  }

  /**
   Fill and name the file: on success its entry is written; when the volume runs
   full the new chain is freed and an entry that existed is reset to length 0.
   */
  ghost function Fill(v: Volume, g: Geometry, cat: Catalog, r: Ref, leaf: name83, data: seq<byte>,
                      had: bool): (o: Outcome)
    requires Ready(v, g, cat, r, leaf) && Small(g) && |data| < WORD
  {
    var gr := Grow(v, g, [], data);
    if !gr.full then
      Outcome(Okay, gr.ops + [PutSlot(r, MakeEntry(leaf, 0, FirstOf(gr.chain), |data|))])
    else
      GrowLinks(v, g, cat, r, data);
      Outcome(NoSpace, gr.ops + (FreeHead(Run(v, g, gr.ops), FirstOf(gr.chain)) +
                                 if had then [PutSlot(r, MakeEntry(leaf, 0, 0, 0))] else []))
  }

  lemma StoreRun(v: Volume, g: Geometry, r: Ref, s: slot)
    requires Shaped(v, g) && r.unit < g.Entries() && r.unit != 1 && SLOT * r.index + SLOT <= g.UnitLen(r.unit)
    ensures OpsOk([PutSlot(r, s)], g)
    ensures Run(v, g, [PutSlot(r, s)]) == WithSlot(v, g, r, s)
  {
    RunOne(v, g, PutSlot(r, s));
  }

  /** The state after growing is again ready to be named, whatever the chain has become. */
  lemma ReadyStays(v: Volume, w: Volume, g: Geometry, cat: Catalog, cat': Catalog, r: Ref, leaf: name83)
    requires Ready(v, g, cat, r, leaf) && SoundBut(w, g, cat', Some(r)) && Shaped(v, g) && Shaped(w, g)
    requires Elsewhere(v, w, g, cat, cat', r)
    ensures IsSlot(g, cat', r) && Home(cat', r) == Home(cat, r) && r.unit != 1
    ensures Dir(Home(cat', r)) in cat'.chains && UsedBefore(w, g, cat', r) && FreshName(w, g, cat', r, leaf)
    ensures SlotAt(w, g, r) == SlotAt(v, g, r)
  {
    hide SoundBut, UsedBefore, FreshName, SameElsewhere, Elsewhere;
    SameWhenElsewhere(v, w, g, cat, cat', r);
    FreshStays(v, w, g, cat, cat', r, leaf);
    UsedStays(v, w, g, cat, cat', r);
    SameSlots(v, w, g, cat, cat', r, r);
    SlotUnit(v, g, cat, Some(r), r);
  }

  /** Naming a filled file makes the volume whole. */
  lemma NameFile(w: Volume, g: Geometry, cat: Catalog, r: Ref, leaf: name83, size: nat)
    requires SoundBut(w, g, cat, Some(r)) && Shaped(w, g) && IsSlot(g, cat, r) && r.unit != 1 && File(r) in cat.chains
    requires Small(g)
    requires Dir(Home(cat, r)) in cat.chains && UsedBefore(w, g, cat, r) && FreshName(w, g, cat, r, leaf)
    requires Plain(leaf) && size < WORD && JustFits(|cat.chains[File(r)]|, g.UnitLen(2), size)
    ensures var s := MakeEntry(leaf, 0, FirstOf(cat.chains[File(r)]), size);
            && OpsOk([PutSlot(r, s)], g) && Run(w, g, [PutSlot(r, s)]) == WithSlot(w, g, r, s)
            && Sound(WithSlot(w, g, r, s), g, cat) && SlotAt(WithSlot(w, g, r, s), g, r) == s
            && Head(s) == FirstOf(cat.chains[File(r)])
  {
    hide SoundBut, UsedBefore, FreshName, JustFits, MakeEntry, Splice;
    ChainHeadSmall(w, g, cat, r);
    EntryNamed(leaf, 0, FirstOf(cat.chains[File(r)]), size);
    var s := MakeEntry(leaf, 0, FirstOf(cat.chains[File(r)]), size);
    StoreRun(w, g, r, s);
    WithSlotAt(w, g, r, s, r);
    FinishFile(w, g, cat, r, s);
  }

  lemma ChainHeadSmall(w: Volume, g: Geometry, cat: Catalog, r: Ref)
    requires SoundBut(w, g, cat, Some(r)) && File(r) in cat.chains && Small(g)
    ensures FirstOf(cat.chains[File(r)]) < 0x1_0000
  {
    assert IsChain(w.fat, cat.chains[File(r)]);
  }

  /** A successful fill: a consistent volume in which the file holds the data. */
  lemma FillKeeps(v: Volume, g: Geometry, cat: Catalog, r: Ref, leaf: name83, data: seq<byte>, had: bool)
    returns (w: Volume, cat': Catalog)
    requires Ready(v, g, cat, r, leaf) && Small(g) && Plain(leaf) && |data| < WORD
    requires Fill(v, g, cat, r, leaf, data, had).rc == Okay
    ensures OpsOk(Fill(v, g, cat, r, leaf, data, had).ops, g)
    ensures w == Run(v, g, Fill(v, g, cat, r, leaf, data, had).ops) && Sound(w, g, cat')
    ensures Stored(w, g, cat', r, leaf, data) && cat'.chains == cat.chains[File(r) := cat'.chains[File(r)]]
    ensures SameFiles(v, w, g, cat, r) && SameTree(v, w, g, cat, cat', r)
  {
    hide SoundBut, UsedBefore, FreshName, JustFits, MakeEntry, Elsewhere, Stored, WithSlot, Grow, Run, OpsOk,
         SameFiles, SameTree;
    SoundShaped(v, g, cat, Some(r));
    var gr := Grow(v, g, [], data);
    var y, mid := GrowKeeps(v, g, cat, r, data);
    SoundShaped(y, g, mid, Some(r));
    GrowReads(v, g, [], data);
    NothingRead(v, g, data);
    ElsewhereChains(v, y, g, cat, mid, r);
    ReadyStays(v, y, g, cat, mid, r, leaf);
    NameFile(y, g, mid, r, leaf, |data|);
    var s := MakeEntry(leaf, 0, FirstOf(gr.chain), |data|);
    RunConcat(v, g, gr.ops, [PutSlot(r, s)]);
    w, cat' := WithSlot(y, g, r, s), mid;
    StoredNow(y, g, mid, r, leaf, data);
    SameFilesNow(v, y, g, cat, mid, r, s);
    SameTreeNow(v, y, g, cat, mid, r, s);
  }

  /** The same directories with the same slots and the same chains of files, except for slot `r`. */
  ghost predicate SameTree(v: Volume, w: Volume, g: Geometry, cat: Catalog, cat': Catalog, r: Ref) {
    && Shaped(v, g) && Shaped(w, g)
    && (forall h :: Dir(h) in cat'.chains <==> Dir(h) in cat.chains)
    && (forall q :: IsSlot(g, cat', q) <==> IsSlot(g, cat, q))
    && (forall q :: IsSlot(g, cat, q) ==>
          Home(cat', q) == Home(cat, q) && (q != r ==> SlotAt(w, g, q) == SlotAt(v, g, q)))
    && (forall q :: q != r && File(q) in cat.chains ==>
          File(q) in cat'.chains && cat'.chains[File(q)] == cat.chains[File(q)])
  }

  lemma SameTreeNow(v: Volume, y: Volume, g: Geometry, cat: Catalog, cat': Catalog, r: Ref, s: slot)
    requires SoundBut(v, g, cat, Some(r)) && IsSlot(g, cat, r) && Shaped(v, g) && Shaped(y, g)
    requires Elsewhere(v, y, g, cat, cat', r)
    ensures SameTree(v, WithSlot(y, g, r, s), g, cat, cat', r)
  {
    hide SoundBut;
    SameWhenElsewhere(v, y, g, cat, cat', r);
    forall q
      ensures IsSlot(g, cat', q) <==> IsSlot(g, cat, q)
      ensures IsSlot(g, cat, q) ==>
                Home(cat', q) == Home(cat, q) && (q != r ==> SlotAt(WithSlot(y, g, r, s), g, q) == SlotAt(v, g, q))
    {
      SameSlots(v, y, g, cat, cat', r, q);
      if IsSlot(g, cat, q) {
        WithSlotAt(y, g, r, s, q);
      }
    }
  }

  lemma SameTreeLess(v: Volume, w: Volume, g: Geometry, cat: Catalog, cat': Catalog, r: Ref)
    requires SameTree(v, w, g, cat, cat', r)
    ensures SameTree(v, w, g, cat, cat'.(chains := cat'.chains - {File(r)}), r)
  {
    hide SlotAt;
    forall q
      ensures IsSlot(g, cat'.(chains := cat'.chains - {File(r)}), q) <==> IsSlot(g, cat', q)
    {
    }
  }

  lemma ElsewhereChains(v: Volume, w: Volume, g: Geometry, cat: Catalog, cat': Catalog, r: Ref)
    requires Shaped(v, g) && Shaped(w, g) && Elsewhere(v, w, g, cat, cat', r)
    ensures File(r) in cat'.chains && cat'.chains == cat.chains[File(r) := cat'.chains[File(r)]]
  {}

  lemma NothingRead(v: Volume, g: Geometry, data: seq<byte>)
    requires Shaped(v, g)
    ensures UnitsIn(v, []) && ReadUnits(v, []) + data == data && Times(0, g.UnitLen(2)) == 0
  {}

  /** The file at `r` has this name and these bytes. */
  ghost predicate Stored(w: Volume, g: Geometry, cat: Catalog, r: Ref, leaf: name83, data: seq<byte>) {
    && Shaped(w, g) && IsSlot(g, cat, r) && File(r) in cat.chains && UnitsIn(w, cat.chains[File(r)])
    && Name(SlotAt(w, g, r)) == leaf && Named(SlotAt(w, g, r)) && SlotAt(w, g, r)[11] == 0
    && !IsDir(SlotAt(w, g, r)) && Size(SlotAt(w, g, r)) == |data|
    && Head(SlotAt(w, g, r)) == FirstOf(cat.chains[File(r)])
    && data <= ReadUnits(w, cat.chains[File(r)])
  }

  lemma StoredNow(y: Volume, g: Geometry, cat: Catalog, r: Ref, leaf: name83, data: seq<byte>)
    requires SoundBut(y, g, cat, Some(r)) && IsSlot(g, cat, r) && r.unit != 1 && File(r) in cat.chains && Small(g)
    requires Plain(leaf) && |data| < WORD
    requires UnitsIn(y, cat.chains[File(r)]) && data <= ReadUnits(y, cat.chains[File(r)])
    ensures Stored(WithSlot(y, g, r, MakeEntry(leaf, 0, FirstOf(cat.chains[File(r)]), |data|)), g, cat, r, leaf, data)
  {
    hide SoundBut, MakeEntry, ReadUnits, SlotAt, IsDir, Named;
    SoundShaped(y, g, cat, Some(r));
    var s := MakeEntry(leaf, 0, FirstOf(cat.chains[File(r)]), |data|);
    var w := WithSlot(y, g, r, s);
    WithSlotAt(y, g, r, s, r);
    EntryNamed(leaf, 0, FirstOf(cat.chains[File(r)]), |data|);
    ChainHeadSmall(y, g, cat, r);
    FileUnitsApart(y, g, cat, r, r);
    ReadUnitsSame(y, w, cat.chains[File(r)]);
  }

  /** No cluster of a file holds directory slots. */
  lemma FileUnitsApart(v: Volume, g: Geometry, cat: Catalog, r: Ref, q: Ref)
    requires SoundBut(v, g, cat, Some(r)) && IsSlot(g, cat, r) && File(q) in cat.chains
    ensures r.unit !in cat.chains[File(q)]
  {
    var s := cat.chains[File(q)];
    assert IsChain(v.fat, s);
    assert forall i :: 0 <= i < |s| ==> s[i] in cat.owner && cat.owner[s[i]] == File(q) && s[i] != 0;
  }

  /** Every file other than `r` has the entry and the bytes it had. */
  ghost predicate SameFiles(v: Volume, w: Volume, g: Geometry, cat: Catalog, r: Ref) {
    && Shaped(v, g) && Shaped(w, g)
    && forall q :: File(q) in cat.chains && q != r && IsSlot(g, cat, q) ==>
                     && SlotAt(w, g, q) == SlotAt(v, g, q)
                     && forall i :: 0 <= i < |cat.chains[File(q)]| ==>
                                      && cat.chains[File(q)][i] < g.Entries()
                                      && w.units[cat.chains[File(q)][i]] == v.units[cat.chains[File(q)][i]]
  }

  lemma FileUnits(v: Volume, g: Geometry, cat: Catalog, r: Ref, q: Ref)
    requires SoundBut(v, g, cat, Some(r)) && File(q) in cat.chains
    ensures forall i :: 0 <= i < |cat.chains[File(q)]| ==>
                          2 <= cat.chains[File(q)][i] < g.Entries() && cat.chains[File(q)][i] in cat.owner &&
                          cat.owner[cat.chains[File(q)][i]] == File(q)
  {
    assert IsChain(v.fat, cat.chains[File(q)]);
  }

  lemma SameFilesNow(v: Volume, y: Volume, g: Geometry, cat: Catalog, cat': Catalog, r: Ref, s: slot)
    requires SoundBut(v, g, cat, Some(r)) && IsSlot(g, cat, r) && SoundBut(y, g, cat', Some(r)) && Shaped(v, g)
    requires Shaped(y, g) && Elsewhere(v, y, g, cat, cat', r)
    ensures SameFiles(v, WithSlot(y, g, r, s), g, cat, r)
  {
    hide SoundBut;
    var w := WithSlot(y, g, r, s);
    forall q | File(q) in cat.chains && q != r && IsSlot(g, cat, q)
      ensures SlotAt(w, g, q) == SlotAt(v, g, q)
      ensures forall i :: 0 <= i < |cat.chains[File(q)]| ==>
                            cat.chains[File(q)][i] < g.Entries() &&
                              w.units[cat.chains[File(q)][i]] == v.units[cat.chains[File(q)][i]]
    {
      WithSlotAt(y, g, r, s, q);
      FileUnits(v, g, cat, r, q);
      FileUnitsApart(v, g, cat, r, q);
    }
  }

  /** A fill that runs full: a consistent volume again, the file emptied or still absent. */
  lemma FillFull(v: Volume, g: Geometry, cat: Catalog, r: Ref, leaf: name83, data: seq<byte>, had: bool)
    returns (w: Volume, cat': Catalog)
    requires Ready(v, g, cat, r, leaf) && Small(g) && (had ==> Plain(leaf)) && |data| < WORD
    requires Fill(v, g, cat, r, leaf, data, had).rc == NoSpace
    requires Shaped(v, g) && (!had ==> !Named(SlotAt(v, g, r)))
    ensures OpsOk(Fill(v, g, cat, r, leaf, data, had).ops, g)
    ensures w == Run(v, g, Fill(v, g, cat, r, leaf, data, had).ops) && Sound(w, g, cat')
    ensures had ==> Stored(w, g, cat', r, leaf, [])
    ensures !had ==> cat'.chains == cat.chains - {File(r)}
    ensures SameTree(v, w, g, cat, cat', r)
    ensures SameFiles(v, w, g, cat, r)
  {
    hide SoundBut, UsedBefore, FreshName, JustFits, MakeEntry, Elsewhere, Stored, WithSlot, Grow, Run, OpsOk,
         SameFiles, SameTree, FreeHead, Named;
    var gr := Grow(v, g, [], data);
    var y, mid := GrowKeeps(v, g, cat, r, data);
    SoundShaped(y, g, mid, Some(r));
    ElsewhereChains(v, y, g, cat, mid, r);
    var z := TruncateKeeps(y, g, mid, r);
    SoundShaped(z, g, Truncated(mid, r), Some(r));
    ElsewhereTransitive(v, y, z, g, cat, mid, Truncated(mid, r), r);
    RunConcat(v, g, gr.ops, FreeHead(y, FirstOf(gr.chain)));
    w, cat' := ClearEntry(v, z, g, cat, Truncated(mid, r), r, leaf, had);
    var last: seq<Op> := if had then [PutSlot(r, MakeEntry(leaf, 0, 0, 0))] else [];
    RunConcat(v, g, gr.ops + FreeHead(y, FirstOf(gr.chain)), last);
    assert gr.ops + FreeHead(y, FirstOf(gr.chain)) + last == gr.ops + (FreeHead(y, FirstOf(gr.chain)) + last);
  }

  /** With the chain empty again, reset the entry or forget the file. */
  lemma ClearEntry(v: Volume, z: Volume, g: Geometry, cat: Catalog, cat1: Catalog, r: Ref, leaf: name83, had: bool)
    returns (w: Volume, cat': Catalog)
    requires Ready(v, g, cat, r, leaf) && Small(g) && (had ==> Plain(leaf))
    requires Shaped(v, g) && Shaped(z, g) && SoundBut(z, g, cat1, Some(r)) && Elsewhere(v, z, g, cat, cat1, r)
    requires File(r) in cat1.chains && cat1.chains[File(r)] == [] && (!had ==> !Named(SlotAt(v, g, r)))
    ensures had ==> && OpsOk([PutSlot(r, MakeEntry(leaf, 0, 0, 0))], g)
                    && w == Run(z, g, [PutSlot(r, MakeEntry(leaf, 0, 0, 0))])
    ensures had ==> Stored(w, g, cat', r, leaf, [])
    ensures !had ==> cat'.chains == cat.chains - {File(r)}
    ensures SameTree(v, w, g, cat, cat', r)
    ensures OpsOk([], g) && (!had ==> w == Run(z, g, []))
    ensures Sound(w, g, cat') && SameFiles(v, w, g, cat, r)
  {
    hide SoundBut, UsedBefore, FreshName, MakeEntry, Elsewhere, Stored, WithSlot, SameFiles, SameTree, Named;
    ReadyStays(v, z, g, cat, cat1, r, leaf);
    ElsewhereChains(v, z, g, cat, cat1, r);
    RunNil(z, g);
    if had {
      NameFile(z, g, cat1, r, leaf, 0);
      var s := MakeEntry(leaf, 0, 0, 0);
      w, cat' := WithSlot(z, g, r, s), cat1;
      assert [] <= ReadUnits(z, []);
      StoredNow(z, g, cat1, r, leaf, []);
      SameFilesNow(v, z, g, cat, cat1, r, s);
      SameTreeNow(v, z, g, cat, cat1, r, s);
    } else {
      ForgetFile(z, g, cat1, r);
      w, cat' := z, cat1.(chains := cat1.chains - {File(r)});
      SameFilesNow(v, z, g, cat, cat1, r, SlotAt(z, g, r));
      SameTreeNow(v, z, g, cat, cat1, r, SlotAt(z, g, r));
      StoreSame(z, g, r);
      SameTreeLess(v, z, g, cat, cat1, r);
    }
  }

  lemma StoreSame(v: Volume, g: Geometry, r: Ref)
    requires Shaped(v, g) && r.unit < g.Entries() && SLOT * r.index + SLOT <= g.UnitLen(r.unit)
    ensures WithSlot(v, g, r, SlotAt(v, g, r)) == v
  {
    assert Splice(v.units[r.unit], SLOT * r.index, SlotAt(v, g, r)) == v.units[r.unit];
  }

  // ----- write -----

  /** The old contents of a file are freed before it is written again. */
  lemma ReadyOver(v: Volume, g: Geometry, cat: Catalog, r: Ref)
    requires Sound(v, g, cat) && IsSlot(g, cat, r) && Named(SlotAt(v, g, r)) && !IsDir(SlotAt(v, g, r))
    ensures LinksInside(v.fat) && InTable(v.fat, Head(SlotAt(v, g, r)))
    ensures OpsOk(FreeHead(v, Head(SlotAt(v, g, r))), g)
    ensures Ready(Run(v, g, FreeHead(v, Head(SlotAt(v, g, r)))), g, Truncated(cat, r), r, Name(SlotAt(v, g, r)))
    ensures Run(v, g, FreeHead(v, Head(SlotAt(v, g, r)))).units == v.units
  {
    hide SoundBut, UsedBefore, FreshName, FreeHead, Named, Run, Elsewhere, IsDir;
    SetAside(v, g, cat, r);
    EntryAgrees(v, g, cat, r);
    var w := TruncateKeeps(v, g, cat, r);
    SoundShaped(v, g, cat, None);
    SoundShaped(w, g, Truncated(cat, r), Some(r));
    SameWhenElsewhere(v, w, g, cat, Truncated(cat, r), r);
    NameUnique(v, g, cat, r);
    FreshStays(v, w, g, cat, Truncated(cat, r), r, Name(SlotAt(v, g, r)));
    UsedBeforeNamed(v, g, cat, r);
    UsedStays(v, w, g, cat, Truncated(cat, r), r);
  }

  lemma EntryAgrees(v: Volume, g: Geometry, cat: Catalog, r: Ref)
    requires Sound(v, g, cat) && IsSlot(g, cat, r) && Named(SlotAt(v, g, r)) && !IsDir(SlotAt(v, g, r))
    ensures File(r) in cat.chains && Head(SlotAt(v, g, r)) == FirstOf(cat.chains[File(r)])
  {
    assert EntryOk(v, g, cat, r);
  }

  lemma UsedBeforeNamed(v: Volume, g: Geometry, cat: Catalog, r: Ref)
    requires Sound(v, g, cat) && IsSlot(g, cat, r) && Named(SlotAt(v, g, r))
    ensures Dir(Home(cat, r)) in cat.chains && UsedBefore(v, g, cat, r)
  {
    UsedBeforeUsed(v, g, cat, None, r);
  }

  lemma NameUnique(v: Volume, g: Geometry, cat: Catalog, r: Ref)
    requires Sound(v, g, cat) && IsSlot(g, cat, r) && Named(SlotAt(v, g, r))
    ensures FreshName(v, g, cat, r, Name(SlotAt(v, g, r)))
  {
    forall q | IsSlot(g, cat, q) && q != r && Home(cat, q) == Home(cat, r) && Named(SlotAt(v, g, q))
      ensures Name(SlotAt(v, g, q)) != Name(SlotAt(v, g, r))
    {
      assert !Clash(v, g, cat, r, q);
    }
  }

  /** A vacant slot of a directory without the name is ready for a new file. */
  lemma ReadyNew(v: Volume, g: Geometry, cat: Catalog, d: nat, r: Ref, leaf: name83)
    requires Sound(v, g, cat) && Dir(d) in cat.chains && leaf[0] != DOT && UnitsIn(v, DirUnits(cat, d))
    requires Search(v, DirUnits(cat, d), leaf).None? && SearchVacant(v, DirUnits(cat, d)) == Some(r)
    ensures IsSlot(g, cat, r) && !Named(SlotAt(v, g, r)) && Ready(v, g, WithChain(cat, r, []), r, leaf)
  {
    hide SoundBut, UsedBefore, FreshName, Named;
    SoundShaped(v, g, cat, None);
    VacantFinds(v, g, cat, d);
    NameNew(v, g, cat, d, r, leaf);
    SetAside(v, g, cat, r);
    StartFile(v, g, cat, r);
    var cat1 := WithChain(cat, r, []);
    assert SameElsewhere(v, v, g, cat, cat1, r);
    FreshStays(v, v, g, cat, cat1, r, leaf);
    UsedStays(v, v, g, cat, cat1, r);
  }

  /** Write a whole file: over an existing one, or in the first vacant slot. */
  ghost function Write(v: Volume, g: Geometry, cat: Catalog, path: cstring, data: seq<byte>): (o: Outcome)
    requires Sound(v, g, cat) && Small(g) && |data| < WORD
  {
    var t := FileTarget(v, g, cat, path);
    match t
    case Bad(rc) => Outcome(rc, [])
    case Present(_, r) =>
      var s := SlotAt(v, g, r);
      if IsDir(s) then Outcome(Exists, [])
      else
        ReadyOver(v, g, cat, r);
        var pre := FreeHead(v, Head(s));
        var o := Fill(Run(v, g, pre), g, Truncated(cat, r), r, Name(s), data, true);
        Outcome(o.rc, pre + o.ops)
    case Missing(d) =>
      UnitsOk(v, g, cat, None, d);
      var leaf := FileName(SplitPath(path).leaf).value;
      FileNamePlain(SplitPath(path).leaf);
      var f := SearchVacant(v, DirUnits(cat, d));
      if f.None? then Outcome(NoSpace, [])
      else
        ReadyNew(v, g, cat, d, f.value, leaf);
        Fill(v, g, WithChain(cat, f.value, []), f.value, leaf, data, false)
  }
}
