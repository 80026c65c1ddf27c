/** What a command leaves alone: the other files, and the paths that lead to them. */
module Fat12Tree {
  import opened Bytes
  import opened Paths
  import opened Fat12Layout
  import opened Fat12Journal
  import opened Fat12Chain
  import opened Fat12Dir
  import opened Fat12Sound
  import opened Fat12Lookup
  import opened Fat12Ops
  import opened Fat12Write

  /** A slot of directory `d`. */
  ghost predicate SlotOfDirectory(g: Geometry, cat: Catalog, d: nat, q: Ref) {
    IsSlot(g, cat, q) && Home(cat, q) == d
  }

  /**
   Directories there before and after have the same slots, and slots there before and after, but
   `r`, are unchanged.
   */
  ghost predicate TreeBut(v: Volume, w: Volume, g: Geometry, cat: Catalog, cat': Catalog, r: Ref) {
    && Shaped(v, g) && Shaped(w, g)
    && (forall d, q :: Dir(d) in cat.chains && Dir(d) in cat'.chains ==>
          (SlotOfDirectory(g, cat, d, q) <==> SlotOfDirectory(g, cat', d, q)))
    && (forall q :: IsSlot(g, cat, q) && IsSlot(g, cat', q) && q != r ==> SlotAt(w, g, q) == SlotAt(v, g, q))
  }

  /** Every file but the one at `r` is still there, with its entry, its chain and its bytes. */
  ghost predicate FilesBut(v: Volume, w: Volume, g: Geometry, cat: Catalog, cat': Catalog, r: Ref) {
    && Shaped(v, g) && Shaped(w, g)
    && forall q :: q != r && File(q) in cat.chains ==>
                     && IsSlot(g, cat, q) && IsSlot(g, cat', q) && SlotAt(w, g, q) == SlotAt(v, g, q)
                     && File(q) in cat'.chains && cat'.chains[File(q)] == cat.chains[File(q)]
                     && forall i :: 0 <= i < |cat.chains[File(q)]| ==>
                                      && cat.chains[File(q)][i] < g.Entries()
                                      && w.units[cat.chains[File(q)][i]] == v.units[cat.chains[File(q)][i]]
  }

  /** The directory that `r` names in `v`, if it names one, is empty. */
  ghost predicate EmptyAt(v: Volume, g: Geometry, cat: Catalog, r: Ref)
    requires Shaped(v, g)
  {
    IsSlot(g, cat, r) && Named(SlotAt(v, g, r)) && IsDir(SlotAt(v, g, r)) ==> EmptyDir(v, g, cat, Head(SlotAt(v, g, r)))
  }

  /** A lookup whose answer is not slot `r` has the same answer afterwards. */
  lemma SearchKept(v: Volume, w: Volume, g: Geometry, cat: Catalog, cat': Catalog, r: Ref, d: nat, name: name83, q: Ref)
    requires Sound(v, g, cat) && Sound(w, g, cat') && TreeBut(v, w, g, cat, cat', r)
    requires Dir(d) in cat.chains && Dir(d) in cat'.chains && name[0] != DOT && q != r
    requires UnitsIn(v, DirUnits(cat, d)) && Search(v, DirUnits(cat, d), name) == Some(q)
    ensures UnitsIn(w, DirUnits(cat', d)) && Search(w, DirUnits(cat', d), name) == Some(q)
    ensures IsSlot(g, cat, q) && IsSlot(g, cat', q) && SlotAt(w, g, q) == SlotAt(v, g, q)
  {
    hide SoundBut;
    SearchFinds(v, g, cat, d, name);
    SearchFinds(w, g, cat', d, name);
    assert SlotOfDirectory(g, cat, d, q);
  }

  /** A path to a directory that is not an emptied one leads to the same directory afterwards. */
  lemma {:induction false} ResolveKept(v: Volume, w: Volume, g: Geometry, cat: Catalog, cat': Catalog, r: Ref, d: nat,
                                       names: seq<seq<byte>>)
    requires Sound(v, g, cat) && Sound(w, g, cat') && TreeBut(v, w, g, cat, cat', r) && Shaped(v, g)
    requires EmptyAt(v, g, cat, r)
    requires Dir(d) in cat.chains && Dir(d) in cat'.chains && Resolve(v, g, cat, d, names).Directory?
    requires IsSlot(g, cat, r) && Named(SlotAt(v, g, r)) && IsDir(SlotAt(v, g, r)) ==>
               Resolve(v, g, cat, d, names).head != Head(SlotAt(v, g, r))
    ensures Resolve(w, g, cat', d, names) == Resolve(v, g, cat, d, names)
    decreases |names|
  {
    hide SoundBut, SlotAt, Named, IsDir, Head, Search, DirName, TreeBut;
    if names != [] {
      var name := DirName(names[0]).value;
      DirNameStart(names[0]);
      UnitsOk(v, g, cat, None, d);
      var q := Search(v, DirUnits(cat, d), name).value;
      SearchFound(v, g, cat, d, names[0]);
      var h := Head(SlotAt(v, g, q));
      if q == r {
        NothingBelow(v, g, cat, h, names[1..]);
      } else {
        SearchKept(v, w, g, cat, cat', r, d, name, q);
        SearchFound(w, g, cat', d, names[0]);
        ResolveKept(v, w, g, cat, cat', r, h, names[1..]);
      }
    }
  }

  lemma DirNameStart(name: seq<byte>)
    requires DirName(name).Some?
    ensures DirName(name).value[0] != DOT
  {
    assert name[0] in name;
  }

  /** From an empty directory no path leads on. */
  lemma NothingBelow(v: Volume, g: Geometry, cat: Catalog, h: nat, names: seq<seq<byte>>)
    requires Sound(v, g, cat) && Shaped(v, g) && Dir(h) in cat.chains && EmptyDir(v, g, cat, h)
    ensures Resolve(v, g, cat, h, names).Directory? ==> names == [] && Resolve(v, g, cat, h, names).head == h
  {
    hide SoundBut;
    if names != [] && |names[0]| < NAME_CAP && DirName(names[0]).Some? {
      DirNameStart(names[0]);
      SearchFinds(v, g, cat, h, DirName(names[0]).value);
    }
  }

  /** An entry found at another slot is found there afterwards. */
  lemma LocateKept(v: Volume, w: Volume, g: Geometry, cat: Catalog, cat': Catalog, r: Ref, sp: Split,
                   name: Option<name83>)
    requires Sound(v, g, cat) && Sound(w, g, cat') && TreeBut(v, w, g, cat, cat', r) && Shaped(v, g)
    requires EmptyAt(v, g, cat, r)
    requires (name.Some? ==> name.value[0] != DOT) && Locate(v, g, cat, sp, name).Present?
    requires Locate(v, g, cat, sp, name).ref != r
    ensures Locate(w, g, cat', sp, name) == Locate(v, g, cat, sp, name)
  {
    hide SoundBut, Named, IsDir, Head, TreeBut, Resolve, Search;
    RootKnown(v, g, cat, None);
    RootKnown(w, g, cat', None);
    var t := Locate(v, g, cat, sp, name);
    SearchFinds(v, g, cat, t.dir, name.value);
    ResolveKept(v, w, g, cat, cat', r, 0, Components(sp.parent));
    SearchKept(v, w, g, cat, cat', r, t.dir, name.value, t.ref);
  }

  /** An entry found at `r` is no longer found once `r` names nothing. */
  lemma LocateGone(v: Volume, w: Volume, g: Geometry, cat: Catalog, cat': Catalog, r: Ref, sp: Split,
                   name: Option<name83>)
    requires Sound(v, g, cat) && Sound(w, g, cat') && TreeBut(v, w, g, cat, cat', r) && Shaped(v, g) && Shaped(w, g)
    requires EmptyAt(v, g, cat, r)
    requires (name.Some? ==> name.value[0] != DOT) && Locate(v, g, cat, sp, name).Present?
    requires Locate(v, g, cat, sp, name).ref == r
    requires IsDir(SlotAt(v, g, r)) ==> Home(cat, r) != Head(SlotAt(v, g, r))
    requires IsSlot(g, cat', r) ==> !Named(SlotAt(w, g, r))
    ensures Locate(w, g, cat', sp, name) == Missing(Home(cat, r))
  {
    hide SoundBut, Named, IsDir, Head, Resolve, Name, SlotAt;
    RootKnown(v, g, cat, None);
    RootKnown(w, g, cat', None);
    var d := Home(cat, r);
    ResolveKept(v, w, g, cat, cat', r, 0, Components(sp.parent));
    SearchFinds(v, g, cat, d, name.value);
    SearchFinds(w, g, cat', d, name.value);
    var f := Search(w, DirUnits(cat', d), name.value);
    assert f.Some? ==> SlotOfDirectory(g, cat', d, f.value);
  }

  /** A name stored at `r` in the directory of the path is found there. */
  lemma LocateHere(v: Volume, w: Volume, g: Geometry, cat: Catalog, cat': Catalog, r: Ref, sp: Split,
                   name: Option<name83>)
    requires Sound(v, g, cat) && Sound(w, g, cat') && TreeBut(v, w, g, cat, cat', r) && Shaped(v, g) && Shaped(w, g)
    requires IsSlot(g, cat, r) && !(Named(SlotAt(v, g, r)) && IsDir(SlotAt(v, g, r)))
    requires (name.Some? ==> name.value[0] != DOT) && !Locate(v, g, cat, sp, name).Bad?
    requires Locate(v, g, cat, sp, name).dir == Home(cat, r)
    requires IsSlot(g, cat', r) && Home(cat', r) == Home(cat, r) && Named(SlotAt(w, g, r))
    requires Some(Name(SlotAt(w, g, r))) == name
    ensures Locate(w, g, cat', sp, name) == Present(Home(cat, r), r)
  {
    hide SoundBut, Named, IsDir, Head, Resolve, Name, SlotAt, Search, TreeBut;
    RootKnown(v, g, cat, None);
    RootKnown(w, g, cat', None);
    ResolveKept(v, w, g, cat, cat', r, 0, Components(sp.parent));
    SearchFinds(w, g, cat', Home(cat, r), name.value);
  }

  // ----- whole paths -----

  /** Paths to other entries lead to them as before. */
  ghost predicate PathsBut(v: Volume, w: Volume, g: Geometry, cat: Catalog, cat': Catalog, r: Ref) {
    && Sound(v, g, cat) && Sound(w, g, cat')
    && forall path: cstring ::
         && (FileTarget(v, g, cat, path).Present? && FileTarget(v, g, cat, path).ref != r ==>
               FileTarget(w, g, cat', path) == FileTarget(v, g, cat, path))
         && (DirTarget(v, g, cat, path).Present? && DirTarget(v, g, cat, path).ref != r ==>
               DirTarget(w, g, cat', path) == DirTarget(v, g, cat, path))
  }

  lemma PathsKept(v: Volume, w: Volume, g: Geometry, cat: Catalog, cat': Catalog, r: Ref)
    requires Sound(v, g, cat) && Sound(w, g, cat') && TreeBut(v, w, g, cat, cat', r) && Shaped(v, g)
    requires EmptyAt(v, g, cat, r)
    ensures PathsBut(v, w, g, cat, cat', r)
  {
    hide SoundBut, Locate, TreeBut, FileName, DirName, SplitPath, EmptyAt;
    forall path: cstring
      ensures FileTarget(v, g, cat, path).Present? && FileTarget(v, g, cat, path).ref != r ==>
                FileTarget(w, g, cat', path) == FileTarget(v, g, cat, path)
      ensures DirTarget(v, g, cat, path).Present? && DirTarget(v, g, cat, path).ref != r ==>
                DirTarget(w, g, cat', path) == DirTarget(v, g, cat, path)
    {
      var sp := SplitPath(path);
      if sp.Split? {
        FileNamePlain(sp.leaf);
        DirNamePlain(sp.leaf);
        if FileTarget(v, g, cat, path).Present? && FileTarget(v, g, cat, path).ref != r {
          LocateKept(v, w, g, cat, cat', r, sp, FileName(sp.leaf));
        }
        if DirTarget(v, g, cat, path).Present? && DirTarget(v, g, cat, path).ref != r {
          LocateKept(v, w, g, cat, cat', r, sp, DirName(sp.leaf));
        }
      }
    }
  }

  lemma SameTreeBut(v: Volume, w: Volume, g: Geometry, cat: Catalog, cat': Catalog, r: Ref)
    requires SameTree(v, w, g, cat, cat', r)
    ensures TreeBut(v, w, g, cat, cat', r)
  {
    hide SlotAt;
    forall d, q | Dir(d) in cat.chains && Dir(d) in cat'.chains
      ensures SlotOfDirectory(g, cat, d, q) <==> SlotOfDirectory(g, cat', d, q)
    {
    }
  }

  lemma SameFilesBut(v: Volume, w: Volume, g: Geometry, cat: Catalog, cat': Catalog, r: Ref)
    requires Sound(v, g, cat) && SameTree(v, w, g, cat, cat', r) && SameFiles(v, w, g, cat, r)
    ensures FilesBut(v, w, g, cat, cat', r)
  {
    hide SoundBut, SlotAt, Named, IsDir;
    forall q | q != r && File(q) in cat.chains
      ensures IsSlot(g, cat, q)
    {
      FileNamed(v, g, cat, None, q);
    }
  }

  // ----- the same names everywhere -----

  /** The entry at `r` is a file of the same name before and after. */
  ghost predicate SameName(v: Volume, w: Volume, g: Geometry, r: Ref)
    requires Shaped(v, g) && Shaped(w, g) && r.unit < g.Entries() && SLOT * r.index + SLOT <= g.UnitLen(r.unit)
  {
    && Named(SlotAt(v, g, r)) && Named(SlotAt(w, g, r)) && Name(SlotAt(v, g, r)) == Name(SlotAt(w, g, r))
    && !IsDir(SlotAt(v, g, r)) && !IsDir(SlotAt(w, g, r))
  }

  /** With the same names everywhere every lookup has the same answer. */
  lemma SearchSame(v: Volume, w: Volume, g: Geometry, cat: Catalog, cat': Catalog, r: Ref, d: nat, name: name83)
    requires Sound(v, g, cat) && Sound(w, g, cat') && SameTree(v, w, g, cat, cat', r) && IsSlot(g, cat, r)
    requires SameName(v, w, g, r)
    requires Dir(d) in cat.chains && Dir(d) in cat'.chains && name[0] != DOT
    ensures UnitsIn(v, DirUnits(cat, d)) && UnitsIn(w, DirUnits(cat', d))
    ensures Search(w, DirUnits(cat', d), name) == Search(v, DirUnits(cat, d), name)
  {
    hide SoundBut, Search, SlotAt, Named, IsDir, Name;
    SearchFinds(v, g, cat, d, name);
    SearchFinds(w, g, cat', d, name);
  }

  lemma {:induction false} ResolveSame(v: Volume, w: Volume, g: Geometry, cat: Catalog, cat': Catalog, r: Ref, d: nat,
                                       names: seq<seq<byte>>)
    requires Sound(v, g, cat) && Sound(w, g, cat') && SameTree(v, w, g, cat, cat', r) && IsSlot(g, cat, r)
    requires SameName(v, w, g, r)
    requires Dir(d) in cat.chains && Dir(d) in cat'.chains
    ensures Resolve(w, g, cat', d, names) == Resolve(v, g, cat, d, names)
    decreases |names|
  {
    hide SoundBut, SlotAt, Named, Name, IsDir, Head, Search, DirName;
    if names != [] && |names[0]| < NAME_CAP && DirName(names[0]).Some? {
      DirNameStart(names[0]);
      SearchSame(v, w, g, cat, cat', r, d, DirName(names[0]).value);
      var f := Search(v, DirUnits(cat, d), DirName(names[0]).value);
      if f.Some? {
        SearchFound(v, g, cat, d, names[0]);
        SearchFound(w, g, cat', d, names[0]);
        if f.value != r && IsDir(SlotAt(v, g, f.value)) {
          ResolveSame(v, w, g, cat, cat', r, Head(SlotAt(v, g, f.value)), names[1..]);
        }
      }
    }
  }

  /** Every path then leads where it led, to a file, to a directory or nowhere. */
  lemma TargetsSame(v: Volume, w: Volume, g: Geometry, cat: Catalog, cat': Catalog, r: Ref, path: cstring)
    requires Sound(v, g, cat) && Sound(w, g, cat') && SameTree(v, w, g, cat, cat', r) && IsSlot(g, cat, r)
    requires SameName(v, w, g, r)
    ensures FileTarget(w, g, cat', path) == FileTarget(v, g, cat, path)
    ensures DirTarget(w, g, cat', path) == DirTarget(v, g, cat, path)
  {
    hide SoundBut, SlotAt, Named, Name, IsDir, Search, Resolve, FileName, DirName, SplitPath, SameTree;
    RootKnown(v, g, cat, None);
    RootKnown(w, g, cat', None);
    var sp := SplitPath(path);
    if sp.Split? {
      FileNamePlain(sp.leaf);
      DirNamePlain(sp.leaf);
      ResolveSame(v, w, g, cat, cat', r, 0, Components(sp.parent));
      LocateSame(v, w, g, cat, cat', r, sp, FileName(sp.leaf));
      LocateSame(v, w, g, cat, cat', r, sp, DirName(sp.leaf));
    }
  }

  lemma LocateSame(v: Volume, w: Volume, g: Geometry, cat: Catalog, cat': Catalog, r: Ref, sp: Split,
                   name: Option<name83>)
    requires Sound(v, g, cat) && Sound(w, g, cat') && SameTree(v, w, g, cat, cat', r) && IsSlot(g, cat, r)
    requires SameName(v, w, g, r)
    requires (name.Some? ==> name.value[0] != DOT) && sp.Split?
    ensures Locate(w, g, cat', sp, name) == Locate(v, g, cat, sp, name)
  {
    hide SoundBut, SlotAt, Named, Name, IsDir, Search, Resolve, SameTree;
    RootKnown(v, g, cat, None);
    RootKnown(w, g, cat', None);
    ResolveSame(v, w, g, cat, cat', r, 0, Components(sp.parent));
    var at := Resolve(v, g, cat, 0, Components(sp.parent));
    if at.Directory? && name.Some? {
      ResolvedKnown(v, g, cat, 0, Components(sp.parent));
      ResolvedKnown(w, g, cat', 0, Components(sp.parent));
      SearchSame(v, w, g, cat, cat', r, at.head, name.value);
    }
  }

  lemma ResolvedKnown(v: Volume, g: Geometry, cat: Catalog, d: nat, names: seq<seq<byte>>)
    requires Sound(v, g, cat) && Dir(d) in cat.chains
    ensures Resolve(v, g, cat, d, names).Directory? ==> Dir(Resolve(v, g, cat, d, names).head) in cat.chains
  {
    hide SoundBut;
  }
}
