/**
 Whole runs of the driver: every command, successful or not, keeps the volume
 consistent, and a written file is found again with the bytes written.
 */
module Fat12Run {
  import opened Bytes
  import opened Paths
  import opened Fat12Layout
  import opened Fat12Journal
  import opened Fat12Chain
  import opened Fat12Dir
  import opened Fat12Sound
  import opened Fat12Lookup
  import opened Fat12Ops
  import opened Fat12Keeps
  import opened Fat12Write
  import opened Fat12Room
  import opened Fat12Tree

  // ----- removing -----

  /** What dropping a file comes to: its slot is marked, its chain is gone, the rest is as it was. */
  lemma DropTree(v: Volume, w: Volume, g: Geometry, cat: Catalog, cat': Catalog, r: Ref)
    requires SoundBut(v, g, cat, Some(r)) && IsSlot(g, cat, r) && File(r) in cat.chains && Shaped(v, g)
    requires LinksInside(v.fat) && InTable(v.fat, FirstOf(cat.chains[File(r)]))
    requires OpsOk(DropOps(v, r, FirstOf(cat.chains[File(r)])), g)
    requires w == Run(v, g, DropOps(v, r, FirstOf(cat.chains[File(r)])))
    requires cat' == Truncated(cat, r).(chains := Truncated(cat, r).chains - {File(r)})
    ensures SameTree(v, w, g, cat, cat', r) && SameFiles(v, w, g, cat, r) && !Named(SlotAt(w, g, r))
  {
    hide SoundBut, Run, OpsOk, FreeHead, LinksInside, SameTree, SameFiles, SlotAt, WithSlot, Elsewhere, Splice;
    var head, s := FirstOf(cat.chains[File(r)]), Marked(SlotAt(v, g, r));
    var y := TruncateKeeps(v, g, cat, r);
    SoundShaped(y, g, Truncated(cat, r), Some(r));
    SlotUnit(v, g, cat, Some(r), r);
    MarkThenFree(v, g, r, head);
    SameTreeNow(v, y, g, cat, Truncated(cat, r), r, s);
    SameFilesNow(v, y, g, cat, Truncated(cat, r), r, s);
    SameTreeLess(v, w, g, cat, Truncated(cat, r), r);
    WithSlotAt(y, g, r, s, r);
  }

  /** Unlinking: the path leads nowhere any more, and everything else is as it was. */
  lemma UnlinkKeeps(v: Volume, g: Geometry, cat: Catalog, path: cstring) returns (w: Volume, cat': Catalog)
    requires Sound(v, g, cat)
    ensures OpsOk(Unlink(v, g, cat, path).ops, g)
    ensures w == Run(v, g, Unlink(v, g, cat, path).ops) && Sound(w, g, cat')
    ensures Unlink(v, g, cat, path).rc == Okay ==>
              var t := FileTarget(v, g, cat, path);
              && t.Present? && FileTarget(w, g, cat', path) == Missing(t.dir) && File(t.ref) !in cat'.chains
              && FilesBut(v, w, g, cat, cat', t.ref) && PathsBut(v, w, g, cat, cat', t.ref)
    ensures Unlink(v, g, cat, path).rc != Okay ==> w == v && cat' == cat
  {
    hide SoundBut, SlotAt, Named, IsDir, Head, Resolve, Search, FileName, SplitPath, SameTree, SameFiles, FreeHead,
         Run, OpsOk, FilesBut, PathsBut, Locate, TreeBut;
    w, cat' := v, cat;
    SoundShaped(v, g, cat, None);
    RunNil(v, g);
    TargetNamed(v, g, cat, path);
    var t := FileTarget(v, g, cat, path);
    if t.Present? && !IsDir(SlotAt(v, g, t.ref)) {
      EntryAgrees(v, g, cat, t.ref);
      SetAside(v, g, cat, t.ref);
      UsedFirst(SlotAt(v, g, t.ref));
      w, cat' := DropFile(v, g, cat, t.ref);
      DropTree(v, w, g, cat, cat', t.ref);
      SoundShaped(w, g, cat', None);
      SameTreeBut(v, w, g, cat, cat', t.ref);
      SameFilesBut(v, w, g, cat, cat', t.ref);
      PathsKept(v, w, g, cat, cat', t.ref);
      FileNamePlain(SplitPath(path).leaf);
      LocateGone(v, w, g, cat, cat', t.ref, SplitPath(path), FileName(SplitPath(path).leaf));
    }
  }

  lemma UsedFirst(s: slot)
    requires Named(s)
    ensures s[0] != 0
  {}

  /** The slots and chains of an empty directory given up at its slot. */
  lemma AsFileTree(v: Volume, w: Volume, g: Geometry, cat: Catalog, cat': Catalog, h: nat)
    requires Sound(v, g, cat) && Dir(h) in cat.chains && h != 0 && Shaped(v, g) && EmptyDir(v, g, cat, h) && h in cat.up
    requires SameTree(v, w, g, AsFile(cat, h), cat', cat.up[h]) && SameFiles(v, w, g, AsFile(cat, h), cat.up[h])
    ensures TreeBut(v, w, g, cat, cat', cat.up[h]) && FilesBut(v, w, g, cat, cat', cat.up[h])
  {
    hide SoundBut, SlotAt, Named, IsDir, EmptyDir;
    var base, r := AsFile(cat, h), cat.up[h];
    forall q
      ensures IsSlot(g, base, q) <==> IsSlot(g, cat, q) && Home(cat, q) != h
      ensures IsSlot(g, cat, q) && Home(cat, q) != h ==> Home(base, q) == Home(cat, q)
    {
      EmptyDirSlots(v, g, cat, h, q);
    }
    EmptyDirSlots(v, g, cat, h, r);
    forall d, q | Dir(d) in cat.chains && Dir(d) in cat'.chains
      ensures SlotOfDirectory(g, cat, d, q) <==> SlotOfDirectory(g, cat', d, q)
    {
      assert Dir(d) in base.chains;
    }
    forall q | q != r && File(q) in cat.chains
      ensures File(q) in base.chains && base.chains[File(q)] == cat.chains[File(q)] && IsSlot(g, cat, q)
      ensures Home(cat, q) != h
    {
      FileNamed(v, g, cat, None, q);
      NamedElsewhere(v, g, cat, h, q);
    }
  }

  lemma NamedElsewhere(v: Volume, g: Geometry, cat: Catalog, h: nat, q: Ref)
    requires Shaped(v, g) && EmptyDir(v, g, cat, h) && IsSlot(g, cat, q) && Named(SlotAt(v, g, q))
    ensures Home(cat, q) != h
  {}

  /** Removing a directory: the path leads nowhere any more, and everything else is as it was. */
  lemma RmdirKeeps(v: Volume, g: Geometry, cat: Catalog, path: cstring) returns (w: Volume, cat': Catalog)
    requires Sound(v, g, cat)
    ensures OpsOk(Rmdir(v, g, cat, path).ops, g)
    ensures w == Run(v, g, Rmdir(v, g, cat, path).ops) && Sound(w, g, cat')
    ensures Rmdir(v, g, cat, path).rc == Okay ==>
              var t := DirTarget(v, g, cat, path);
              && t.Present? && DirTarget(w, g, cat', path) == Missing(t.dir)
              && FilesBut(v, w, g, cat, cat', t.ref) && PathsBut(v, w, g, cat, cat', t.ref)
    ensures Rmdir(v, g, cat, path).rc != Okay ==> w == v && cat' == cat
  {
    hide SoundBut, SlotAt, Named, IsDir, Head, Resolve, Search, DirName, SplitPath, SameTree, SameFiles, FreeHead,
         Run, OpsOk, FilesBut, PathsBut, TreeBut, EmptyDir;
    w, cat' := v, cat;
    SoundShaped(v, g, cat, None);
    RunNil(v, g);
    DirTargetCodes(v, g, cat, path);
    var t := DirTarget(v, g, cat, path);
    if t.Present? && IsDir(SlotAt(v, g, t.ref)) {
      var h := Head(SlotAt(v, g, t.ref));
      if h >= 2 && EmptyDir(v, g, cat, h) {
        var base := AsFile(cat, h);
        BecomeFile(v, g, cat, h);
        DirHead(v, g, cat, h);
        EmptyDirSlots(v, g, cat, h, t.ref);
        UsedFirst(SlotAt(v, g, t.ref));
        w, cat' := DropFile(v, g, base, t.ref);
        DropTree(v, w, g, base, cat', t.ref);
        SoundShaped(w, g, cat', None);
        AsFileTree(v, w, g, cat, cat', h);
        assert EmptyAt(v, g, cat, t.ref);
        PathsKept(v, w, g, cat, cat', t.ref);
        DirNamePlain(SplitPath(path).leaf);
        LocateGone(v, w, g, cat, cat', t.ref, SplitPath(path), DirName(SplitPath(path).leaf));
      }
    }
  }

  lemma DirHead(v: Volume, g: Geometry, cat: Catalog, h: nat)
    requires Sound(v, g, cat) && Dir(h) in cat.chains && h != 0 && h in cat.up
    ensures File(cat.up[h]) in AsFile(cat, h).chains && FirstOf(AsFile(cat, h).chains[File(cat.up[h])]) == h
  {
    DirKnown(v, g, cat, None, h);
  }

  // ----- making a directory -----

  /** The slots of the volume with a new directory: those before, and the blank ones of its cluster. */
  lemma AsDirSlot(v: Volume, y: Volume, g: Geometry, cat: Catalog, mid: Catalog, r: Ref, c: nat, s: slot, q: Ref)
    requires Sound(v, g, cat) && SoundBut(y, g, mid, Some(r)) && Shaped(v, g) && Shaped(y, g)
    requires SameElsewhere(v, y, g, cat, mid, r)
    requires File(r) in mid.chains && mid.chains[File(r)] == [c] && Home(mid, r) in mid.rank && 2 <= c < g.Entries()
    requires v.fat[c] == FREE
    requires forall u :: 0 <= u < |v.units| && u != c ==> y.units[u] == v.units[u]
    requires File(r) !in cat.chains && r.unit != c && BlankUnit(y.units[c])
    ensures var w, cat' := WithSlot(y, g, r, s), AsDir(mid, r, c);
            && (IsSlot(g, cat', q) <==> IsSlot(g, cat, q) || (q.unit == c && SLOT * q.index + SLOT <= g.UnitLen(c)))
            && (IsSlot(g, cat, q) ==>
                  && Home(cat', q) == Home(cat, q) && q.unit != c && Dir(Home(cat, q)) in cat.chains
                  && (q != r ==> SlotAt(w, g, q) == SlotAt(v, g, q)))
            && (IsSlot(g, cat', q) && Home(cat', q) == c ==> !Named(SlotAt(w, g, q)))
  {
    hide SoundBut, Named, IsDir, BlankUnit;
    NewHead(v, g, cat, c);
    SameSlots(v, y, g, cat, mid, r, q);
    NewDirSlots(y, g, mid, r, c, q);
    HomeIn(v, g, cat, q);
    if IsSlot(g, cat, q) {
      WithSlotAt(y, g, r, s, q);
    }
  }

  lemma AsDirFiles(v: Volume, y: Volume, g: Geometry, cat: Catalog, mid: Catalog, r: Ref, c: nat, s: slot)
    requires Sound(v, g, cat) && SoundBut(y, g, mid, Some(r)) && Shaped(v, g) && Shaped(y, g)
    requires SameElsewhere(v, y, g, cat, mid, r)
    requires File(r) in mid.chains && mid.chains[File(r)] == [c] && Home(mid, r) in mid.rank && 2 <= c < g.Entries()
    requires v.fat[c] == FREE
    requires forall u :: 0 <= u < |v.units| && u != c ==> y.units[u] == v.units[u]
    requires File(r) !in cat.chains && r.unit != c && BlankUnit(y.units[c])
    ensures FilesBut(v, WithSlot(y, g, r, s), g, cat, AsDir(mid, r, c), r)
  {
    hide SoundBut, Named, IsDir, BlankUnit, SlotAt;
    var w, cat' := WithSlot(y, g, r, s), AsDir(mid, r, c);
    NewHead(v, g, cat, c);
    forall q | q != r && File(q) in cat.chains
      ensures IsSlot(g, cat, q) && IsSlot(g, cat', q) && SlotAt(w, g, q) == SlotAt(v, g, q)
      ensures r.unit !in cat.chains[File(q)] && c !in cat.chains[File(q)]
      ensures forall i :: 0 <= i < |cat.chains[File(q)]| ==> cat.chains[File(q)][i] < g.Entries()
    {
      FileNamed(v, g, cat, None, q);
      FileApart(v, g, cat, r, q, c);
      AsDirSlot(v, y, g, cat, mid, r, c, s, q);
    }
  }

  /** A new directory changes its slot and adds its own, nothing else. */
  lemma AsDirTree(v: Volume, y: Volume, g: Geometry, cat: Catalog, mid: Catalog, r: Ref, c: nat, s: slot)
    requires Sound(v, g, cat) && SoundBut(y, g, mid, Some(r)) && Shaped(v, g) && Shaped(y, g)
    requires SameElsewhere(v, y, g, cat, mid, r)
    requires File(r) in mid.chains && mid.chains[File(r)] == [c] && Home(mid, r) in mid.rank && 2 <= c < g.Entries()
    requires v.fat[c] == FREE
    requires forall u :: 0 <= u < |v.units| && u != c ==> y.units[u] == v.units[u]
    requires File(r) !in cat.chains && r.unit != c && BlankUnit(y.units[c])
    ensures var w, cat' := WithSlot(y, g, r, s), AsDir(mid, r, c);
            TreeBut(v, w, g, cat, cat', r) && FilesBut(v, w, g, cat, cat', r) && EmptyDir(w, g, cat', c)
  {
    hide SoundBut, Named, IsDir, BlankUnit, SlotAt, FilesBut;
    var w, cat' := WithSlot(y, g, r, s), AsDir(mid, r, c);
    AsDirFiles(v, y, g, cat, mid, r, c, s);
    NewHead(v, g, cat, c);
    forall q
      ensures IsSlot(g, cat', q) <==> IsSlot(g, cat, q) || (q.unit == c && SLOT * q.index + SLOT <= g.UnitLen(c))
      ensures IsSlot(g, cat, q) ==>
                Home(cat', q) == Home(cat, q) && q.unit != c && (q != r ==> SlotAt(w, g, q) == SlotAt(v, g, q))
      ensures IsSlot(g, cat', q) && Home(cat', q) == c ==> !Named(SlotAt(w, g, q))
    {
      AsDirSlot(v, y, g, cat, mid, r, c, s, q);
    }
    forall d, q | Dir(d) in cat.chains && Dir(d) in cat'.chains
      ensures SlotOfDirectory(g, cat, d, q) <==> SlotOfDirectory(g, cat', d, q)
    {
    }
  }

  lemma HomeIn(v: Volume, g: Geometry, cat: Catalog, q: Ref)
    requires Sound(v, g, cat)
    ensures IsSlot(g, cat, q) ==> Dir(Home(cat, q)) in cat.chains
  {
    hide SoundBut;
    if IsSlot(g, cat, q) {
      HomeKnown(v, g, cat, None, q);
    }
  }

  lemma NewHead(v: Volume, g: Geometry, cat: Catalog, c: nat)
    requires Sound(v, g, cat) && 2 <= c < g.Entries() && v.fat[c] == FREE
    ensures Dir(c) !in cat.chains && c !in cat.owner
  {
    if Dir(c) in cat.chains {
      DirHeadUsed(v, g, cat, c);
    }
  }

  lemma DirHeadUsed(v: Volume, g: Geometry, cat: Catalog, h: nat)
    requires Sound(v, g, cat) && Dir(h) in cat.chains && h != 0
    ensures h < |v.fat| && v.fat[h] != FREE
  {
    DirKnown(v, g, cat, None, h);
    assert IsChain(v.fat, cat.chains[Dir(h)]) && cat.chains[Dir(h)][0] == h;
  }

  lemma FileApart(v: Volume, g: Geometry, cat: Catalog, r: Ref, q: Ref, c: nat)
    requires Sound(v, g, cat) && IsSlot(g, cat, r) && File(q) in cat.chains && c !in cat.owner
    ensures r.unit !in cat.chains[File(q)] && c !in cat.chains[File(q)]
    ensures forall i :: 0 <= i < |cat.chains[File(q)]| ==> cat.chains[File(q)][i] < g.Entries()
  {
    var s := cat.chains[File(q)];
    assert IsChain(v.fat, s);
    assert forall i :: 0 <= i < |s| ==> s[i] in cat.owner && cat.owner[s[i]] == File(q) && s[i] != 0;
  }

  lemma MkdirAt(v: Volume, g: Geometry, cat: Catalog, d: nat, r: Ref, c: nat, leaf: cstring)
    returns (w: Volume, cat': Catalog)
    requires Sound(v, g, cat) && Small(g) && Dir(d) in cat.chains && IsSlot(g, cat, r) && Home(cat, r) == d
    requires !Named(SlotAt(v, g, r)) && UsedBefore(v, g, cat, r) && 2 <= c < g.Entries() && v.fat[c] == FREE
    requires DirName(leaf).Some? && leaf[0] != DELETED
    requires UnitsIn(v, DirUnits(cat, d)) && Search(v, DirUnits(cat, d), DirName(leaf).value).None?
    ensures OpsOk(MkdirOps(g, r, c, d, DirName(leaf).value), g)
    ensures w == Run(v, g, MkdirOps(g, r, c, d, DirName(leaf).value)) && Sound(w, g, cat')
    ensures TreeBut(v, w, g, cat, cat', r) && FilesBut(v, w, g, cat, cat', r)
    ensures IsSlot(g, cat', r) && Home(cat', r) == d
    ensures SlotAt(w, g, r) == MakeEntry(DirName(leaf).value, ATTR_DIRECTORY, c, 0)
    ensures Dir(c) in cat'.chains && EmptyDir(w, g, cat', c) && DirUnits(cat', c) == [c] && Dotted(w, g, c, d)
  {
    hide SoundBut, UsedBefore, FreshName, SameElsewhere, DirName, MakeEntry, SlotAt, Named, TreeBut, FilesBut,
         EmptyDir, BlankUnit, WithSlot, Search, Dotted;
    DirNamePlain(leaf);
    var name := DirName(leaf).value;
    SoundShaped(v, g, cat, None);
    NameNew(v, g, cat, d, r, name);
    SetAside(v, g, cat, r);
    var y, cat1 := PrepareDir(v, g, cat, d, r, c, name);
    NameDir(y, g, cat1, r, c, name);
    SlotUnit(v, g, cat, None, r);
    MkdirRun(v, g, r, c, d, name);
    var s := MakeEntry(name, ATTR_DIRECTORY, c, 0);
    w, cat' := WithSlot(y, g, r, s), AsDir(cat1, r, c);
    TakenElsewhere(v, g, c, DotEntries(c, d));
    AsDirTree(v, y, g, cat, cat1, r, c, s);
    WithSlotAt(y, g, r, s, r);
    NewDirSlots(y, g, cat1, r, c, r);
    SameSlots(v, y, g, cat, cat1, r, r);
    DottedNow(v, g, r, c, d, s);
  }

  /** A new directory's cluster: an entry for itself, one for the directory above, and never-used slots. */
  ghost predicate Dotted(w: Volume, g: Geometry, c: nat, parent: nat)
    requires Shaped(w, g) && c < g.Entries()
  {
    var unit := w.units[c];
    && 2 * SLOT <= |unit|
    && SlotIn(unit, 0) == MakeEntry(DOT_NAME, ATTR_DIRECTORY, c, 0)
    && SlotIn(unit, 1) == MakeEntry(DOTDOT_NAME, ATTR_DIRECTORY, parent, 0)
    && forall i :: 2 * SLOT <= i < |unit| ==> unit[i] == 0
  }

  lemma DottedNow(v: Volume, g: Geometry, r: Ref, c: nat, parent: nat, s: slot)
    requires Shaped(v, g) && 2 <= c < g.Entries() && 0 < g.spc && r.unit != c && r.unit < g.Entries()
    requires SLOT * r.index + SLOT <= g.UnitLen(r.unit)
    ensures Dotted(WithSlot(Taken(v, [], c, DotEntries(c, parent), g.UnitLen(2)), g, r, s), g, c, parent)
  {
    hide MakeEntry;
    var unit := WithSlot(Taken(v, [], c, DotEntries(c, parent), g.UnitLen(2)), g, r, s).units[c];
    assert unit == DotEntries(c, parent) + Zeros(g.UnitLen(2) - 2 * SLOT);
  }

  lemma TakenElsewhere(v: Volume, g: Geometry, c: nat, chunk: seq<byte>)
    requires Shaped(v, g) && 2 <= c < g.Entries() && |chunk| <= g.UnitLen(2)
    ensures forall u :: 0 <= u < |v.units| && u != c ==> Taken(v, [], c, chunk, g.UnitLen(2)).units[u] == v.units[u]
  {}

  /**
   Creating a directory: when it fits, the path leads to it, it is empty and its
   cluster is the lowest free one; otherwise nothing changes.
   */
  lemma MkdirKeeps(v: Volume, g: Geometry, cat: Catalog, path: cstring) returns (w: Volume, cat': Catalog)
    requires Sound(v, g, cat) && Small(g) && !LosesDir(v, g, cat, path)
    ensures OpsOk(Mkdir(v, g, cat, path).ops, g)
    ensures w == Run(v, g, Mkdir(v, g, cat, path).ops) && Sound(w, g, cat')
    ensures !MkdirFits(v, g, cat, path) ==> w == v && cat' == cat
    ensures MkdirFits(v, g, cat, path) ==>
              var d, t := DirTarget(v, g, cat, path).dir, DirTarget(w, g, cat', path);
              && t.Present? && t.dir == d && UnitsIn(v, DirUnits(cat, d)) &&
                 Some(t.ref) == SearchVacant(v, DirUnits(cat, d))
              && var s := SlotAt(w, g, t.ref);
                 && Some(Head(s)) == FirstFree(v.fat, 2) && SplitPath(path).Split?
                 && Some(Name(s)) == DirName(SplitPath(path).leaf) && s[11] == ATTR_DIRECTORY && IsDir(s) &&
                    Size(s) == 0
                 && Dir(Head(s)) in cat'.chains && EmptyDir(w, g, cat', Head(s)) && DirUnits(cat', Head(s)) == [Head(s)]
                 && Head(s) < g.Entries() && Dotted(w, g, Head(s), d)
                 && FilesBut(v, w, g, cat, cat', t.ref) && PathsBut(v, w, g, cat, cat', t.ref)
  {
    hide SoundBut, SlotAt, Named, Resolve, Search, SearchVacant, DirName, SplitPath, Run, OpsOk, FilesBut, PathsBut,
         TreeBut, EmptyDir, FirstFree, UsedBefore, MakeEntry, MkdirOps, Dotted;
    w, cat' := v, cat;
    SoundShaped(v, g, cat, None);
    RunNil(v, g);
    MkdirAnswers(v, g, cat, path);
    var t := DirTarget(v, g, cat, path);
    if MkdirFits(v, g, cat, path) {
      VacantFinds(v, g, cat, t.dir);
      var leaf := SplitPath(path).leaf;
      DirNamePlain(leaf);
      var r := SearchVacant(v, DirUnits(cat, t.dir)).value;
      var c := FreeLowest(v.fat);
      SearchFinds(v, g, cat, t.dir, DirName(leaf).value);
      w, cat' := MkdirAt(v, g, cat, t.dir, r, c, leaf);
      SoundShaped(w, g, cat', None);
      EntryNamed(DirName(leaf).value, ATTR_DIRECTORY, c, 0);
      LocateHere(v, w, g, cat, cat', r, SplitPath(path), DirName(leaf));
      PathsKept(v, w, g, cat, cat', r);
    }
  }

  lemma FreeLowest(fat: seq<nat>) returns (c: nat)
    requires FreeClusters(fat) != {}
    ensures FirstFree(fat, 2) == Some(c)
  {
    var x :| x in FreeClusters(fat);
    c := FirstFree(fat, 2).value;
  }

  // ----- writing a file -----

  lemma WriteOver(v: Volume, g: Geometry, cat: Catalog, r: Ref, data: seq<byte>) returns (w: Volume, cat': Catalog)
    requires Sound(v, g, cat) && Small(g) && |data| < WORD
    requires IsSlot(g, cat, r) && Named(SlotAt(v, g, r)) && !IsDir(SlotAt(v, g, r)) && Name(SlotAt(v, g, r))[0] != DOT
    ensures LinksInside(v.fat) && InTable(v.fat, Head(SlotAt(v, g, r)))
    ensures OpsOk(FreeHead(v, Head(SlotAt(v, g, r))), g)
    ensures Ready(Run(v, g, FreeHead(v, Head(SlotAt(v, g, r)))), g, Truncated(cat, r), r, Name(SlotAt(v, g, r)))
    ensures var s := SlotAt(v, g, r); var pre := FreeHead(v, Head(s));
            var o := Fill(Run(v, g, pre), g, Truncated(cat, r), r, Name(s), data, true);
            && OpsOk(pre + o.ops, g) && w == Run(v, g, pre + o.ops) && Sound(w, g, cat')
            && (o.rc == Okay ==> Stored(w, g, cat', r, Name(s), data))
            && (o.rc != Okay ==> Stored(w, g, cat', r, Name(s), []))
            && SameTree(v, w, g, cat, cat', r)
            && SameFiles(v, w, g, cat, r)
  {
    hide SoundBut, Ready, Stored, SameFiles, SameTree, FreeHead, Fill, Run, OpsOk, Named, IsDir, SlotAt, Elsewhere;
    SoundShaped(v, g, cat, None);
    ReadyOver(v, g, cat, r);
    EntryPlain(v, g, cat, r);
    var s := SlotAt(v, g, r);
    var pre := FreeHead(v, Head(s));
    var y := Run(v, g, pre);
    var o := Fill(y, g, Truncated(cat, r), r, Name(s), data, true);
    FillCodes(y, g, Truncated(cat, r), r, Name(s), data, true);
    if o.rc == Okay {
      w, cat' := FillKeeps(y, g, Truncated(cat, r), r, Name(s), data, true);
    } else {
      w, cat' := FillFull(y, g, Truncated(cat, r), r, Name(s), data, true);
    }
    SameTreeOver(v, y, w, g, cat, cat', r);
    SameFilesOver(v, y, w, g, cat, r);
    RunConcat(v, g, pre, o.ops);
  }

  lemma FillCodes(v: Volume, g: Geometry, cat: Catalog, r: Ref, leaf: name83, data: seq<byte>, had: bool)
    requires Ready(v, g, cat, r, leaf) && Small(g) && |data| < WORD
    ensures Fill(v, g, cat, r, leaf, data, had).rc in {Okay, NoSpace}
  {}

  lemma EntryPlain(v: Volume, g: Geometry, cat: Catalog, r: Ref)
    requires Sound(v, g, cat) && IsSlot(g, cat, r) && Named(SlotAt(v, g, r))
    ensures Name(SlotAt(v, g, r))[0] != DOT ==> Plain(Name(SlotAt(v, g, r)))
  {}

  lemma SameTreeOver(v: Volume, y: Volume, w: Volume, g: Geometry, cat: Catalog, cat': Catalog, r: Ref)
    requires Sound(v, g, cat) && Shaped(y, g) && y.units == v.units && SameTree(y, w, g, Truncated(cat, r), cat', r)
    ensures SameTree(v, w, g, cat, cat', r)
  {
    hide SoundBut;
    SoundShaped(v, g, cat, None);
    forall q
      ensures IsSlot(g, Truncated(cat, r), q) <==> IsSlot(g, cat, q)
      ensures IsSlot(g, cat, q) ==> SlotAt(y, g, q) == SlotAt(v, g, q) && Home(Truncated(cat, r), q) == Home(cat, q)
    {
    }
  }

  lemma SameFilesOver(v: Volume, y: Volume, w: Volume, g: Geometry, cat: Catalog, r: Ref)
    requires Sound(v, g, cat) && Shaped(y, g) && y.units == v.units && SameFiles(y, w, g, Truncated(cat, r), r)
    ensures SameFiles(v, w, g, cat, r)
  {
    assert Shaped(v, g);
    forall q | File(q) in cat.chains && q != r && IsSlot(g, cat, q)
      ensures SlotAt(w, g, q) == SlotAt(v, g, q)
      ensures forall i :: 0 <= i < |cat.chains[File(q)]| ==>
                            cat.chains[File(q)][i] < g.Entries() &&
                              w.units[cat.chains[File(q)][i]] == v.units[cat.chains[File(q)][i]]
    {
      assert IsSlot(g, Truncated(cat, r), q);
      assert File(q) in Truncated(cat, r).chains;
    }
  }

  /**
   Writing keeps the volume consistent, unless it stores a name that reads as
   deleted.  On success the slot found or taken holds the name and the data; when
   the volume runs full an existing file is left empty.  Every other file keeps its
   entry and its bytes, and every other path leads where it led.
   */
  lemma WriteKeeps(v: Volume, g: Geometry, cat: Catalog, path: cstring, data: seq<byte>)
    returns (w: Volume, cat': Catalog, r: Ref)
    requires Sound(v, g, cat) && Small(g) && |data| < WORD && !LosesFile(v, g, cat, path, |data|)
    ensures OpsOk(Write(v, g, cat, path, data).ops, g)
    ensures w == Run(v, g, Write(v, g, cat, path, data).ops) && Sound(w, g, cat')
    ensures var t := FileTarget(v, g, cat, path); var o := Write(v, g, cat, path, data);
            && (o.rc == Okay && CleanLeaf(path) ==>
                  && SplitPath(path).Split? && FileName(SplitPath(path).leaf).Some?
                  && !t.Bad? && IsSlot(g, cat, r) && Home(cat, r) == t.dir && (t.Present? ==> r == t.ref)
                  && !(Named(SlotAt(v, g, r)) && IsDir(SlotAt(v, g, r)))
                  && Stored(w, g, cat', r, LeafName(path), data) && FileTarget(w, g, cat', path) == Present(t.dir, r))
            && (o.rc == NoSpace && t.Present? ==> r == t.ref && Stored(w, g, cat', r, LeafName(path), []))
            && (o.rc in {Okay, NoSpace} ==> SameTree(v, w, g, cat, cat', r) && SameFiles(v, w, g, cat, r))
            && (o.rc in {Okay, NoSpace} ==> FilesBut(v, w, g, cat, cat', r) && PathsBut(v, w, g, cat, cat', r))
            && (o.rc !in {Okay, NoSpace} ==> w == v && cat' == cat)
  {
    hide SoundBut, Ready, Stored, SameFiles, SameTree, FreeHead, Fill, Run, OpsOk, Named, IsDir, FileName, SplitPath,
         Locate, SlotAt, FilesBut, PathsBut, TreeBut, WriteFits, CleanLeaf, SearchVacant;
    w, cat', r := v, cat, Ref(0, 0);
    SoundShaped(v, g, cat, None);
    RunNil(v, g);
    var t := FileTarget(v, g, cat, path);
    TargetNamed(v, g, cat, path);
    WriteAnswers(v, g, cat, path, data);
    if t.Present? {
      r := t.ref;
      if !IsDir(SlotAt(v, g, r)) {
        w, cat' := WriteOver(v, g, cat, r, data);
      }
    } else if t.Missing? {
      UnitsOk(v, g, cat, None, t.dir);
      var f := SearchVacant(v, DirUnits(cat, t.dir));
      if f.Some? {
        r := f.value;
        w, cat' := WriteNew(v, g, cat, t.dir, r, path, data);
      } else {
        SameSelf(v, g, cat, r);
        SamePaths(v, g, cat, r);
      }
    }
    if Write(v, g, cat, path, data).rc in {Okay, NoSpace} {
      SameTreeBut(v, w, g, cat, cat', r);
      SameFilesBut(v, w, g, cat, cat', r);
      if w != v || cat' != cat {
        PathsKept(v, w, g, cat, cat', r);
      } else {
        SamePaths(v, g, cat, r);
      }
      if Write(v, g, cat, path, data).rc == Okay && CleanLeaf(path) {
        WrittenFound(v, w, g, cat, cat', r, path, data);
      }
    }
  }

  lemma SameSelf(v: Volume, g: Geometry, cat: Catalog, r: Ref)
    requires Sound(v, g, cat)
    ensures Shaped(v, g) && SameFiles(v, v, g, cat, r) && SameTree(v, v, g, cat, cat, r)
  {
    forall q | File(q) in cat.chains
      ensures IsChain(v.fat, cat.chains[File(q)])
    {
    }
  }

  lemma SamePaths(v: Volume, g: Geometry, cat: Catalog, r: Ref)
    requires Sound(v, g, cat)
    ensures PathsBut(v, v, g, cat, cat, r)
  {}

  lemma WriteNew(v: Volume, g: Geometry, cat: Catalog, d: nat, r: Ref, path: cstring, data: seq<byte>)
    returns (w: Volume, cat': Catalog)
    requires Sound(v, g, cat) && Small(g) && |data| < WORD
    requires SplitPath(path).Split? && FileName(SplitPath(path).leaf).Some?
    requires LeafName(path)[0] == Upper(SplitPath(path).leaf[0]) && LeafName(path)[0] != 0 && LeafName(path)[0] != DOT
    requires Dir(d) in cat.chains && UnitsIn(v, DirUnits(cat, d))
    requires Search(v, DirUnits(cat, d), LeafName(path)).None? && SearchVacant(v, DirUnits(cat, d)) == Some(r)
    ensures IsSlot(g, cat, r) && Home(cat, r) == d && !Named(SlotAt(v, g, r))
    ensures Ready(v, g, WithChain(cat, r, []), r, LeafName(path))
    ensures var o := Fill(v, g, WithChain(cat, r, []), r, LeafName(path), data, false);
            && (CleanLeaf(path) || o.rc != Okay || data == [] ==>
                  && OpsOk(o.ops, g) && w == Run(v, g, o.ops) && Sound(w, g, cat')
                  && (o.rc == Okay && CleanLeaf(path) ==> Stored(w, g, cat', r, LeafName(path), data))
                  && SameTree(v, w, g, cat, cat', r) && SameFiles(v, w, g, cat, r))
  {
    hide SoundBut, Stored, SameFiles, SameTree, Fill, Run, OpsOk, Named, FileName, SplitPath, Search, SearchVacant,
         UsedBefore, FreshName, Ready;
    SoundShaped(v, g, cat, None);
    var leaf, cat1 := LeafName(path), WithChain(cat, r, []);
    VacantFinds(v, g, cat, d);
    ReadyNew(v, g, cat, d, r, leaf);
    FillCodes(v, g, cat1, r, leaf, data, false);
    w, cat' := v, cat;
    if Fill(v, g, cat1, r, leaf, data, false).rc != Okay {
      w, cat' := FillFull(v, g, cat1, r, leaf, data, false);
      SameTreeNew(v, w, g, cat, cat', r);
      SameFilesNew(v, w, g, cat, r);
    } else if CleanLeaf(path) {
      LeafPlain(path);
      w, cat' := FillKeeps(v, g, cat1, r, leaf, data, false);
      SameTreeNew(v, w, g, cat, cat', r);
      SameFilesNew(v, w, g, cat, r);
    } else if data == [] {
      LeafMarked(path);
      SlotUnit(v, g, cat, None, r);
      w, cat' := WriteNothing(v, g, cat1, r, leaf);
      SameTreeNew(v, w, g, cat, cat', r);
      SameFilesNew(v, w, g, cat, r);
    }
  }

  lemma LeafMarked(path: cstring)
    requires SplitPath(path).Split? && FileName(SplitPath(path).leaf).Some? && !CleanLeaf(path)
    requires LeafName(path)[0] == Upper(SplitPath(path).leaf[0])
    ensures LeafName(path)[0] == DELETED
  {
    UpperMark(SplitPath(path).leaf[0]);
  }

  lemma UpperMark(b: byte)
    ensures Upper(b) == DELETED <==> b == DELETED
  {}

  /** No entry that names something has a name that starts with the mark of deleted ones. */
  lemma MarkedMissing(v: Volume, g: Geometry, cat: Catalog, path: cstring)
    requires Sound(v, g, cat) && !CleanLeaf(path)
    ensures !FileTarget(v, g, cat, path).Present?
  {
    hide SoundBut, Locate, SlotAt, FileName, SplitPath;
    TargetNamed(v, g, cat, path);
    var t := FileTarget(v, g, cat, path);
    if !t.Bad? {
      UpperMark(SplitPath(path).leaf[0]);
    }
  }

  lemma MarkedUnnamed(leaf: name83, attr: byte, head: nat, size: nat)
    requires leaf[0] == DELETED && size < WORD
    ensures !Named(MakeEntry(leaf, attr, head, size)) && MakeEntry(leaf, attr, head, size)[0] == DELETED
  {
    var s := MakeEntry(leaf, attr, head, size);
    assert s[0] == Name(s)[0];
  }

  /** A stored entry that names nothing, for a file without clusters, changes nothing that counts. */
  lemma WriteNothing(v: Volume, g: Geometry, cat: Catalog, r: Ref, leaf: name83) returns (w: Volume, cat': Catalog)
    requires Ready(v, g, cat, r, leaf) && Small(g) && r.unit != 1 && leaf[0] == DELETED && Shaped(v, g)
    ensures OpsOk(Fill(v, g, cat, r, leaf, [], false).ops, g)
    ensures w == Run(v, g, Fill(v, g, cat, r, leaf, [], false).ops) && Sound(w, g, cat')
    ensures SameTree(v, w, g, cat, cat', r) && SameFiles(v, w, g, cat, r)
  {
    hide SoundBut, UsedBefore, FreshName, Named, MakeEntry, SlotAt, Run, OpsOk, WithSlot, SameTree, SameFiles;
    var s := MakeEntry(leaf, 0, 0, 0);
    MarkedUnnamed(leaf, 0, 0, 0);
    GrowNothing(v, g, []);
    assert [] + [PutSlot(r, s)] == [PutSlot(r, s)];
    StoreRun(v, g, r, s);
    WriteAside(v, g, cat, r, s);
    WithSlotAt(v, g, r, s, r);
    w, cat' := WithSlot(v, g, r, s), cat.(chains := cat.chains - {File(r)});
    ForgetFile(w, g, cat, r);
    ElsewhereSelf(v, g, cat, r);
    SameTreeNow(v, v, g, cat, cat, r, s);
    SameTreeLess(v, w, g, cat, cat, r);
    SameFilesNow(v, v, g, cat, cat, r, s);
  }

  lemma LeafPlain(path: cstring)
    requires SplitPath(path).Split? && FileName(SplitPath(path).leaf).Some? && CleanLeaf(path)
    ensures Plain(LeafName(path))
  {
    FileNamePlain(SplitPath(path).leaf);
    assert SplitPath(path).leaf != [];
  }

  lemma SameTreeNew(v: Volume, w: Volume, g: Geometry, cat: Catalog, cat': Catalog, r: Ref)
    requires SameTree(v, w, g, WithChain(cat, r, []), cat', r)
    ensures SameTree(v, w, g, cat, cat', r)
  {
    forall q
      ensures IsSlot(g, WithChain(cat, r, []), q) <==> IsSlot(g, cat, q)
    {
    }
  }

  lemma SameFilesNew(v: Volume, w: Volume, g: Geometry, cat: Catalog, r: Ref)
    requires SameFiles(v, w, g, WithChain(cat, r, []), r)
    ensures SameFiles(v, w, g, cat, r)
  {
    forall q | File(q) in cat.chains && q != r && IsSlot(g, cat, q)
      ensures SlotAt(w, g, q) == SlotAt(v, g, q)
      ensures forall i :: 0 <= i < |cat.chains[File(q)]| ==>
                            cat.chains[File(q)][i] < g.Entries() &&
                              w.units[cat.chains[File(q)][i]] == v.units[cat.chains[File(q)][i]]
    {
      assert IsSlot(g, WithChain(cat, r, []), q);
      assert File(q) in WithChain(cat, r, []).chains;
    }
  }

  // ----- finding it again -----

  /** Looking up the path just written finds the slot written. */
  lemma WrittenFound(v: Volume, w: Volume, g: Geometry, cat: Catalog, cat': Catalog, r: Ref, path: cstring,
                     data: seq<byte>)
    requires Sound(v, g, cat) && Sound(w, g, cat') && SameTree(v, w, g, cat, cat', r)
    requires IsSlot(g, cat, r) && !(Named(SlotAt(v, g, r)) && IsDir(SlotAt(v, g, r)))
    requires !FileTarget(v, g, cat, path).Bad? && Home(cat, r) == FileTarget(v, g, cat, path).dir
    requires SplitPath(path).Split? && FileName(SplitPath(path).leaf).Some?
    requires Stored(w, g, cat', r, LeafName(path), data)
    ensures FileTarget(w, g, cat', path) == Present(Home(cat, r), r)
  {
    hide SoundBut, Locate, Named, IsDir, SlotAt, Name, SameTree, TreeBut, FileName, SplitPath;
    var sp := SplitPath(path);
    FileNamePlain(sp.leaf);
    SoundShaped(v, g, cat, None);
    SameTreeBut(v, w, g, cat, cat', r);
    SameTreeSlot(v, w, g, cat, cat', r);
    LocateHere(v, w, g, cat, cat', r, sp, FileName(sp.leaf));
  }

  lemma SameTreeSlot(v: Volume, w: Volume, g: Geometry, cat: Catalog, cat': Catalog, r: Ref)
    requires SameTree(v, w, g, cat, cat', r) && IsSlot(g, cat, r)
    ensures IsSlot(g, cat', r) && Home(cat', r) == Home(cat, r)
  {}

  // ----- runs -----

  datatype Command =
    | MakeDir(path: cstring)
    | WriteFile(path: cstring, data: seq<byte>)
    | UnlinkFile(path: cstring)
    | RemoveDir(path: cstring)

  /** Commands carry data of a 32-bit size. */
  predicate Sized(c: Command) {
    c.WriteFile? ==> |c.data| < WORD
  }

  /** The command stores a name that starts with byte 0xE5, and clusters behind it. */
  ghost predicate Loses(v: Volume, g: Geometry, cat: Catalog, c: Command)
    requires Sound(v, g, cat)
  {
    match c
    case MakeDir(path) => LosesDir(v, g, cat, path)
    case WriteFile(path, data) => LosesFile(v, g, cat, path, |data|)
    case UnlinkFile(_) => false
    case RemoveDir(_) => false
  }

  ghost function Perform(v: Volume, g: Geometry, cat: Catalog, c: Command): (o: Outcome)
    requires Sound(v, g, cat) && Small(g) && Sized(c)
  {
    match c
    case MakeDir(path) => Mkdir(v, g, cat, path)
    case WriteFile(path, data) => Write(v, g, cat, path, data)
    case UnlinkFile(path) => Unlink(v, g, cat, path)
    case RemoveDir(path) => Rmdir(v, g, cat, path)
  }

  /** One command, whatever it returns, keeps the volume consistent unless it loses what it stores. */
  lemma StepKeeps(v: Volume, g: Geometry, cat: Catalog, c: Command) returns (w: Volume, cat': Catalog)
    requires Sound(v, g, cat) && Small(g) && Sized(c) && !Loses(v, g, cat, c)
    ensures OpsOk(Perform(v, g, cat, c).ops, g)
    ensures w == Run(v, g, Perform(v, g, cat, c).ops) && Sound(w, g, cat')
  {
    hide SoundBut, Mkdir, Write, Unlink, Rmdir, LosesDir, LosesFile, MkdirFits, FilesBut, PathsBut, SameTree,
         SameFiles, Stored;
    match c {
      case MakeDir(path) => w, cat' := MkdirKeeps(v, g, cat, path);
      case WriteFile(path, data) =>
        var r;
        w, cat', r := WriteKeeps(v, g, cat, path, data);
      case UnlinkFile(path) => w, cat' := UnlinkKeeps(v, g, cat, path);
      case RemoveDir(path) => w, cat' := RmdirKeeps(v, g, cat, path);
    }
  }

  ghost predicate Steps(v: Volume, g: Geometry, cat: Catalog, c: Command, y: Volume) {
    && Sound(v, g, cat) && Small(g) && Sized(c)
    && OpsOk(Perform(v, g, cat, c).ops, g) && y == Run(v, g, Perform(v, g, cat, c).ops)
  }

  /** `w` is reached from `v` by performing the commands in order. */
  ghost predicate RunsTo(v: Volume, g: Geometry, cs: seq<Command>, w: Volume)
    decreases |cs|
  {
    if cs == [] then w == v
    else exists cat, y :: Steps(v, g, cat, cs[0], y) && RunsTo(y, g, cs[1..], w)
  }

  ghost predicate SafeStep(v: Volume, g: Geometry, cat: Catalog, c: Command, y: Volume) {
    Steps(v, g, cat, c, y) && !Loses(v, g, cat, c)
  }

  /** The same, no command losing what it stores. */
  ghost predicate RunsSafely(v: Volume, g: Geometry, cs: seq<Command>, w: Volume)
    decreases |cs|
  {
    if cs == [] then w == v
    else exists cat, y :: SafeStep(v, g, cat, cs[0], y) && RunsSafely(y, g, cs[1..], w)
  }

  /**
   In every state reached from a consistent volume by any run of commands, failed
   ones included, the volume is consistent.
   */
  lemma {:induction false} RunKeeps(v: Volume, g: Geometry, cat: Catalog, cs: seq<Command>, w: Volume)
    returns (cat': Catalog)
    requires Sound(v, g, cat) && RunsSafely(v, g, cs, w)
    ensures Sound(w, g, cat')
    decreases |cs|
  {
    hide SoundBut, Perform, Loses;
    if cs == [] {
      cat' := cat;
    } else {
      var k, y :| SafeStep(v, g, k, cs[0], y) && RunsSafely(y, g, cs[1..], w);
      var z, next := StepKeeps(v, g, k, cs[0]);
      cat' := RunKeeps(y, g, next, cs[1..], w);
    }
  }

  /** What consistency says about the chains, in terms of the table and the entries alone. */
  lemma SoundMeans(v: Volume, g: Geometry, cat: Catalog)
    requires Sound(v, g, cat)
    ensures forall t :: t in cat.chains ==>
              var s := cat.chains[t];
              && (forall i :: 0 <= i < |s| ==> 2 <= s[i] < g.Entries())
              && (forall i :: 0 <= i < |s| - 1 ==> v.fat[s[i]] == s[i + 1])
              && (s != [] ==> 0xFF8 <= v.fat[s[|s| - 1]])
    ensures forall t, u, c :: t in cat.chains && u in cat.chains && c in cat.chains[t] && c in cat.chains[u] ==> t == u
    ensures forall c :: 2 <= c < g.Entries() ==>
              (v.fat[c] != 0 <==> exists t :: t in cat.chains && c in cat.chains[t])
    ensures forall r :: IsSlot(g, cat, r) && Named(SlotAt(v, g, r)) && !IsDir(SlotAt(v, g, r)) ==>
                          && File(r) in cat.chains && Head(SlotAt(v, g, r)) == FirstOf(cat.chains[File(r)])
                          && JustFits(|cat.chains[File(r)]|, g.UnitLen(2), Size(SlotAt(v, g, r)))
    ensures forall r :: IsSlot(g, cat, r) && Named(SlotAt(v, g, r)) && IsDir(SlotAt(v, g, r)) ==>
                          Dir(Head(SlotAt(v, g, r))) in cat.chains &&
                            FirstOf(cat.chains[Dir(Head(SlotAt(v, g, r)))]) == Head(SlotAt(v, g, r))
  {
    hide IsChain, JustFits, Named, IsDir, Size, Head, SlotAt;
    forall t | t in cat.chains
      ensures var s := cat.chains[t];
              && (forall i :: 0 <= i < |s| ==> 2 <= s[i] < g.Entries())
              && (forall i :: 0 <= i < |s| - 1 ==> v.fat[s[i]] == s[i + 1])
              && (s != [] ==> 0xFF8 <= v.fat[s[|s| - 1]])
    {
      ChainSpelled(v.fat, cat.chains[t]);
    }
    forall t, u, c | t in cat.chains && u in cat.chains && c in cat.chains[t] && c in cat.chains[u]
      ensures t == u
    {
      if t != u {
        ChainsDisjoint(v.fat, cat.chains, cat.owner, t, u);
      }
    }
    forall c | 2 <= c < g.Entries()
      ensures v.fat[c] != FREE <==> exists t :: t in cat.chains && c in cat.chains[t]
    {
      UsedByChain(v.fat, cat, c);
    }
    forall r | IsSlot(g, cat, r)
      ensures EntryOk(v, g, cat, r)
    {
    }
  }

  lemma ChainSpelled(fat: seq<nat>, s: seq<nat>)
    requires IsChain(fat, s)
    ensures forall i :: 0 <= i < |s| ==> 2 <= s[i] < |fat|
    ensures forall i :: 0 <= i < |s| - 1 ==> fat[s[i]] == s[i + 1]
    ensures s != [] ==> 0xFF8 <= fat[s[|s| - 1]]
  {}

  lemma UsedByChain(fat: seq<nat>, cat: Catalog, c: nat)
    requires Allocated(fat, cat.chains, cat.owner) && 2 <= c < |fat|
    ensures fat[c] != FREE <==> exists t :: t in cat.chains && c in cat.chains[t]
  {
    if fat[c] != FREE {
      assert cat.owner[c] in cat.chains && c in cat.chains[cat.owner[c]];
    }
    if t :| t in cat.chains && c in cat.chains[t] {
      var i :| 0 <= i < |cat.chains[t]| && cat.chains[t][i] == c;
    }
  }
}
