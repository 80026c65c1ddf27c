/** Reading: path lookup by display name, and copying a window out of a chain of clusters. */
module Fat12Reader {
  import opened Bytes
  import opened Paths
  import opened NameMatch
  import opened Fat12Layout
  import opened Fat12Journal
  import opened Fat12Chain
  import opened Fat12Dir
  import opened Fat12Sound
  import opened Fat12Lookup
  import opened Fat12Ops
  import opened Fat12Commands
  import opened Fat12Display

  // ----- lookup by display name -----

  function ScanDisplay(unit: seq<byte>, j: nat, wanted: seq<byte>): (r: Scan)
    ensures r.Hit? ==> j <= r.index && SLOT * r.index + SLOT <= |unit|
    decreases |unit| - SLOT * j
  {
    if |unit| < SLOT * j + SLOT then More
    else if unit[SLOT * j] == 0 then Stop
    else if !Skipped(SlotIn(unit, j)) && NameEq(Display(Name(SlotIn(unit, j))), wanted) then Hit(j)
    else ScanDisplay(unit, j + 1, wanted)
  }

  ghost function SearchDisplay(v: Volume, us: seq<nat>, wanted: seq<byte>): (r: Option<Ref>)
    requires UnitsIn(v, us)
    decreases |us|
  {
    if us == [] then None
    else
      match ScanDisplay(v.units[us[0]], 0, wanted)
      case Stop => None
      case Hit(j) => Some(Ref(us[0], j))
      case More => SearchDisplay(v, us[1..], wanted)
  }

  ghost predicate CanonicalUnit(unit: seq<byte>) {
    forall j: nat :: SLOT * j + SLOT <= |unit| && Named(SlotIn(unit, j)) ==> Canonical(Name(SlotIn(unit, j)))
  }

  lemma DotsShown(s: slot, wanted: seq<byte>)
    requires Dots(s) && wanted != [] && wanted[0] != DOT
    ensures !NameEq(Display(Name(s)), wanted)
  {
    var n := Name(s);
    var d := Display(n);
    assert Base83(n) != [] && Base83(n)[0] == DOT by {
      assert n[..8][0] == DOT;
    }
    assert d[0] == DOT;
    LowerUpper(wanted[0]);
    assert LowerAll(d)[0] == DOT && LowerAll(wanted)[0] == Lower(wanted[0]);
    assert Lower(d[0]) != Lower(wanted[0]);
  }

  /** One slot matches by display name exactly when it matches by 8.3 bytes. */
  lemma SlotAgreesBy(s: slot, wanted: seq<byte>)
    requires s[0] != 0 && (Named(s) ==> Canonical(Name(s))) && wanted != []
    requires FileName(wanted).Some? && Tidy(wanted) && wanted[0] != DOT
    ensures !Skipped(s) && NameEq(Display(Name(s)), wanted) <==> Matches(s, FileName(wanted).value)
  {
    hide NameEq, Display, Canonical, FileName, Tidy;
    if !Skipped(s) {
      if Dots(s) {
        DotsShown(s, wanted);
        NameFirst(wanted);
      } else {
        NamesAgree(Name(s), wanted);
      }
    }
  }

  lemma NameFirst(wanted: seq<byte>)
    requires wanted != [] && FileName(wanted).Some? && wanted[0] != DOT
    ensures FileName(wanted).value[0] != DOT
  {
    assert BaseOf(wanted)[0] == wanted[0];
  }

  lemma {:induction false} ScanAgrees(unit: seq<byte>, j: nat, wanted: seq<byte>)
    requires CanonicalUnit(unit) && wanted != []
    requires FileName(wanted).Some? && Tidy(wanted) && wanted[0] != DOT
    ensures ScanDisplay(unit, j, wanted) == ScanName(unit, j, FileName(wanted).value)
    decreases |unit| - SLOT * j
  {
    hide NameEq, Display, Canonical, FileName, Tidy, Named, Skipped, Name;
    if |unit| >= SLOT * j + SLOT && unit[SLOT * j] != 0 {
      SlotAgreesBy(SlotIn(unit, j), wanted);
      ScanAgrees(unit, j + 1, wanted);
    }
  }

  lemma {:induction false} SearchAgrees(v: Volume, us: seq<nat>, wanted: seq<byte>)
    requires UnitsIn(v, us) && wanted != [] && forall i :: 0 <= i < |us| ==> CanonicalUnit(v.units[us[i]])
    requires FileName(wanted).Some? && Tidy(wanted) && wanted[0] != DOT
    ensures SearchDisplay(v, us, wanted) == Search(v, us, FileName(wanted).value)
    decreases |us|
  {
    hide CanonicalUnit, ScanDisplay, ScanName, FileName, Tidy;
    if us != [] {
      ScanAgrees(v.units[us[0]], 0, wanted);
      assert forall i :: 0 <= i < |us[1..]| ==> us[1..][i] == us[i + 1];
      SearchAgrees(v, us[1..], wanted);
    }
  }

  /** Part of a long name kept beside an entry. */
  predicate LongName(s: slot) {
    s[0] != 0 && s[0] != DELETED && s[11] == ATTR_LONG_NAME
  }

  /** There are no long names, and every entry that names something has a canonical 8.3 name. */
  ghost predicate AllCanonical(v: Volume, g: Geometry, cat: Catalog)
    requires Shaped(v, g)
  {
    forall q :: IsSlot(g, cat, q) ==>
                  !LongName(SlotAt(v, g, q)) && (Named(SlotAt(v, g, q)) ==> Canonical(Name(SlotAt(v, g, q))))
  }

  /** On such volumes a directory is searched with the same result both ways. */
  lemma LookupsAgree(v: Volume, g: Geometry, cat: Catalog, d: nat, wanted: seq<byte>)
    requires Sound(v, g, cat) && Shaped(v, g) && AllCanonical(v, g, cat) && Dir(d) in cat.chains
    requires wanted != [] && FileName(wanted).Some? && Tidy(wanted) && wanted[0] != DOT
    ensures UnitsIn(v, DirUnits(cat, d))
    ensures SearchDisplay(v, DirUnits(cat, d), wanted) == Search(v, DirUnits(cat, d), FileName(wanted).value)
  {
    hide SoundBut, Canonical, Named, FileName, Tidy, SearchDisplay, Search, SlotIn, Name;
    UnitsOk(v, g, cat, None, d);
    var us := DirUnits(cat, d);
    forall i | 0 <= i < |us|
      ensures CanonicalUnit(v.units[us[i]])
    {
      forall j: nat | SLOT * j + SLOT <= |v.units[us[i]]| && Named(SlotIn(v.units[us[i]], j))
        ensures Canonical(Name(SlotIn(v.units[us[i]], j)))
      {
        assert IsSlot(g, cat, Ref(us[i], j));
        assert SlotAt(v, g, Ref(us[i], j)) == SlotIn(v.units[us[i]], j);
      }
    }
    SearchAgrees(v, us, wanted);
  }

  // ----- paths -----

  datatype Info = Node(head: nat, isDir: bool, size: nat) | NoNode(rc: Rc)

  /** The components of a normalised path: none is `.` or `..`. */
  predicate Plainly(names: seq<seq<byte>>) {
    forall i :: 0 <= i < |names| ==> names[i] != [] && names[i][0] != DOT
  }

  /** Follow a path by display names; every component but the last must be a directory. */
  ghost function Lookup(v: Volume, g: Geometry, cat: Catalog, d: nat, names: seq<seq<byte>>): (r: Info)
    requires Sound(v, g, cat) && Shaped(v, g) && AllCanonical(v, g, cat) && Dir(d) in cat.chains && Plainly(names)
    decreases |names|
  {
    if names == [] then Node(d, true, 0)
    else if NAME_CAP <= |names[0]| then NoNode(Invalid)
    else
      UnitsOk(v, g, cat, None, d);
      var f := SearchDisplay(v, DirUnits(cat, d), names[0]);
      if f.None? then NoNode(NotFound)
      else
        DisplayFound(v, g, cat, d, names[0]);
        var s := SlotAt(v, g, f.value);
        if |names| == 1 then Node(Head(s), IsDir(s), Size(s))
        else if !IsDir(s) then NoNode(NotDirectory)
        else Lookup(v, g, cat, Head(s), names[1..])
  }

  /** Whatever a display lookup finds is an entry that names something. */
  lemma DisplayFound(v: Volume, g: Geometry, cat: Catalog, d: nat, wanted: seq<byte>)
    requires Sound(v, g, cat) && Shaped(v, g) && Dir(d) in cat.chains && wanted != [] && wanted[0] != DOT
    ensures UnitsIn(v, DirUnits(cat, d))
    ensures var f := SearchDisplay(v, DirUnits(cat, d), wanted);
            f.Some? ==> IsSlot(g, cat, f.value) && Named(SlotAt(v, g, f.value)) && EntryOk(v, g, cat, f.value)
  {
    hide SoundBut, NameEq, Display;
    UnitsOk(v, g, cat, None, d);
    DisplayUnits(v, g, DirUnits(cat, d), wanted);
    var f := SearchDisplay(v, DirUnits(cat, d), wanted);
    if f.Some? {
      SlotOfDir(v, g, cat, None, d, f.value);
      SlotAgrees(v, g, cat, None, f.value);
    }
  }

  lemma {:induction false} ScanDisplayMeans(unit: seq<byte>, j: nat, wanted: seq<byte>)
    requires wanted != [] && wanted[0] != DOT
    ensures var r := ScanDisplay(unit, j, wanted); r.Hit? ==> Named(SlotIn(unit, r.index))
    decreases |unit| - SLOT * j
  {
    hide NameEq, Display;
    if |unit| >= SLOT * j + SLOT && unit[SLOT * j] != 0 {
      if Dots(SlotIn(unit, j)) {
        DotsShown(SlotIn(unit, j), wanted);
      }
      ScanDisplayMeans(unit, j + 1, wanted);
    }
  }

  lemma {:induction false} DisplayUnits(v: Volume, g: Geometry, us: seq<nat>, wanted: seq<byte>)
    requires Shaped(v, g) && UnitsIn(v, us) && wanted != [] && wanted[0] != DOT
    ensures var f := SearchDisplay(v, us, wanted); f.Some? ==> SlotOf(g, us, f.value) && Named(SlotAt(v, g, f.value))
    decreases |us|
  {
    hide NameEq, Display, Named, ScanDisplay, SlotIn;
    if us != [] {
      ScanDisplayMeans(v.units[us[0]], 0, wanted);
      DisplayUnits(v, g, us[1..], wanted);
      var f := SearchDisplay(v, us, wanted);
      if f.Some? {
        SlotOfSkip(g, us, f.value);
        assert [us[0]][0] == us[0];
      }
    }
  }

  predicate TidyAll(names: seq<seq<byte>>) {
    forall i :: 0 <= i < |names| ==> Tidy(names[i])
  }

  /** A path the writer can follow to a directory is followed the same way by the reader. */
  lemma {:induction false} LookupFollows(v: Volume, g: Geometry, cat: Catalog, d: nat, names: seq<seq<byte>>,
                                         leaf: seq<byte>)
    requires Sound(v, g, cat) && Shaped(v, g) && AllCanonical(v, g, cat) && Dir(d) in cat.chains
    requires Plainly(names + [leaf]) && TidyAll(names + [leaf]) && Resolve(v, g, cat, d, names).Directory?
    ensures var h := Resolve(v, g, cat, d, names).head;
            Dir(h) in cat.chains && Plainly([leaf]) &&
              Lookup(v, g, cat, d, names + [leaf]) == Lookup(v, g, cat, h, [leaf])
    decreases |names|
  {
    hide SoundBut, Tidy, DirName, FileName, Search, SearchDisplay, Named, Canonical, SlotAt, IsDir;
    assert (names + [leaf])[|names|] == leaf;
    if names == [] {
      assert names + [leaf] == [leaf];
    } else {
      var all := names + [leaf];
      assert all[0] == names[0] && all[1..] == names[1..] + [leaf];
      assert forall i :: 0 <= i < |all[1..]| ==> all[1..][i] == all[i + 1];
      ResolveStep(v, g, cat, d, names);
      DirNameIsFileName(names[0]);
      LookupsAgree(v, g, cat, d, names[0]);
      var q := Search(v, DirUnits(cat, d), DirName(names[0]).value).value;
      LookupFollows(v, g, cat, Head(SlotAt(v, g, q)), names[1..], leaf);
    }
  }

  /** The reader finds at a path the entry the writer finds there. */
  lemma LookupAgrees(v: Volume, g: Geometry, cat: Catalog, path: cstring)
    requires Sound(v, g, cat) && Shaped(v, g) && AllCanonical(v, g, cat)
    requires FileTarget(v, g, cat, path).Present? && Plainly(Components(path)) && TidyAll(Components(path))
    ensures Dir(0) in cat.chains
    ensures var s := SlotAt(v, g, FileTarget(v, g, cat, path).ref);
            Lookup(v, g, cat, 0, Components(path)) == Node(Head(s), IsDir(s), Size(s))
  {
    hide SoundBut, Tidy, FileName, Search, SearchDisplay, Named, Canonical, SlotAt, IsDir, Head, Size, Lookup;
    RootKnown(v, g, cat, None);
    var sp := SplitPath(path);
    var names := Components(sp.parent);
    assert (names + [sp.leaf])[|names|] == sp.leaf;
    LookupFollows(v, g, cat, 0, names, sp.leaf);
    var h := Resolve(v, g, cat, 0, names).head;
    LookupsAgree(v, g, cat, h, sp.leaf);
    LookupLast(v, g, cat, h, sp.leaf);
    LeafShort(path);
  }

  lemma LeafShort(path: cstring)
    requires SplitPath(path).Split?
    ensures |SplitPath(path).leaf| < NAME_CAP
  {}

  lemma LookupLast(v: Volume, g: Geometry, cat: Catalog, d: nat, leaf: seq<byte>)
    requires Sound(v, g, cat) && Shaped(v, g) && AllCanonical(v, g, cat) && Dir(d) in cat.chains && Plainly([leaf])
    ensures UnitsIn(v, DirUnits(cat, d))
    ensures var f := SearchDisplay(v, DirUnits(cat, d), leaf);
            f.Some? && |leaf| < NAME_CAP ==>
              IsSlot(g, cat, f.value) &&
              Lookup(v, g, cat, d, [leaf]) ==
                Node(Head(SlotAt(v, g, f.value)), IsDir(SlotAt(v, g, f.value)), Size(SlotAt(v, g, f.value)))
  {
    hide *;
    assert [leaf][0] == leaf;
    LookupStep(v, g, cat, d, [leaf]);
  }

  /** One step of a lookup. */
  lemma LookupStep(v: Volume, g: Geometry, cat: Catalog, d: nat, names: seq<seq<byte>>)
    requires Sound(v, g, cat) && Shaped(v, g) && AllCanonical(v, g, cat) && Dir(d) in cat.chains && Plainly(names)
    requires names != []
    ensures UnitsIn(v, DirUnits(cat, d))
    ensures NAME_CAP <= |names[0]| ==> Lookup(v, g, cat, d, names) == NoNode(Invalid)
    ensures var f := SearchDisplay(v, DirUnits(cat, d), names[0]);
            |names[0]| < NAME_CAP ==>
              && (f.None? ==> Lookup(v, g, cat, d, names) == NoNode(NotFound))
              && (f.Some? ==>
                    && IsSlot(g, cat, f.value) && Plainly(names[1..])
                    && var s := SlotAt(v, g, f.value);
                       && (|names| == 1 ==> Lookup(v, g, cat, d, names) == Node(Head(s), IsDir(s), Size(s)))
                       && (|names| > 1 && !IsDir(s) ==> Lookup(v, g, cat, d, names) == NoNode(NotDirectory))
                       && (|names| > 1 && IsDir(s) ==>
                             Dir(Head(s)) in cat.chains &&
                               Lookup(v, g, cat, d, names) == Lookup(v, g, cat, Head(s), names[1..])))
  {
    hide SoundBut, SearchDisplay, Named, Canonical, SlotAt, IsDir, Head, Size;
    UnitsOk(v, g, cat, None, d);
    DisplayFound(v, g, cat, d, names[0]);
    assert forall i :: 0 <= i < |names[1..]| ==> names[1..][i] == names[i + 1];
  }
}
