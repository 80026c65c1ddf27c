/** What lookups in the directories of a consistent volume find. */
module Fat12Lookup {
  import opened Bytes
  import opened Paths
  import opened Fat12Layout
  import opened Fat12Journal
  import opened Fat12Chain
  import opened Fat12Dir
  import opened Fat12Sound

  /** `q` lies in one of the units of `us` from the `k`-th on. */
  ghost predicate InFrom(us: seq<nat>, k: nat, q: Ref) {
    exists i :: k <= i < |us| && us[i] == q.unit
  }

  lemma UnitsOk(v: Volume, g: Geometry, cat: Catalog, x: Option<Ref>, d: nat)
    requires SoundBut(v, g, cat, x) && Dir(d) in cat.chains
    ensures UnitsIn(v, DirUnits(cat, d))
    ensures forall i, j: nat :: 0 <= i < |DirUnits(cat, d)| && SLOT * j + SLOT <= g.UnitLen(DirUnits(cat, d)[i]) ==>
                             IsSlot(g, cat, Ref(DirUnits(cat, d)[i], j)) && Home(cat, Ref(DirUnits(cat, d)[i], j)) == d
  {
    forall i: nat | i < |DirUnits(cat, d)|
      ensures DirUnits(cat, d)[i] < |v.units|
      ensures var u := DirUnits(cat, d)[i];
              if d == 0 then u == 0 else u in cat.owner && cat.owner[u] == Dir(d) && u != 0
    {
      DirUnitsOwned(v.fat, cat, d, i);
    }
  }

  /** A slot of directory `d` lies in one of the directory's units. */
  lemma SlotInUnits(v: Volume, g: Geometry, cat: Catalog, x: Option<Ref>, q: Ref)
    requires SoundBut(v, g, cat, x) && IsSlot(g, cat, q)
    ensures Dir(Home(cat, q)) in cat.chains && InFrom(DirUnits(cat, Home(cat, q)), 0, q)
  {
    HomeKnown(v, g, cat, x, q);
    var d := Home(cat, q);
    if q.unit == 0 {
      assert DirUnits(cat, d)[0] == q.unit;
    } else {
      assert d != 0 by {
        assert q.unit in cat.chains[Dir(d)];
      }
      var i :| 0 <= i < |cat.chains[Dir(d)]| && cat.chains[Dir(d)][i] == q.unit;
      assert DirUnits(cat, d)[i] == q.unit;
    }
  }

  lemma UnitsDistinct(v: Volume, g: Geometry, cat: Catalog, x: Option<Ref>, d: nat, i: nat, j: nat)
    requires SoundBut(v, g, cat, x) && Dir(d) in cat.chains && i < j < |DirUnits(cat, d)|
    ensures DirUnits(cat, d)[i] != DirUnits(cat, d)[j]
  {
    if d != 0 {
      ChainAcyclic(v.fat, cat.chains[Dir(d)], i, j);
    }
  }

  /** `q` is a slot of one of the units. */
  ghost predicate SlotOf(g: Geometry, us: seq<nat>, q: Ref) {
    q.unit < g.Entries() && InFrom(us, 0, q) && SLOT * q.index + SLOT <= g.UnitLen(q.unit)
  }

  ghost predicate TailUnits(v: Volume, g: Geometry, us: seq<nat>)
    requires Shaped(v, g)
  {
    forall i: nat, j: nat, m: nat, n: nat :: TailAt(v, g, us, i, j, m, n)
  }

  lemma SkipTail(v: Volume, g: Geometry, us: seq<nat>)
    requires Shaped(v, g) && TailUnits(v, g, us) && us != []
    ensures TailUnits(v, g, us[1..])
  {
    forall i: nat, j: nat, m: nat, n: nat
      ensures TailAt(v, g, us[1..], i, j, m, n)
    {
      assert TailAt(v, g, us, i + 1, j, m + 1, n);
    }
  }

  lemma SlotOfSkip(g: Geometry, us: seq<nat>, q: Ref)
    requires us != []
    ensures SlotOf(g, us, q) <==> SlotOf(g, [us[0]], q) || SlotOf(g, us[1..], q)
  {
    if InFrom(us, 0, q) {
      var i :| 0 <= i < |us| && us[i] == q.unit;
      if i == 0 {
        assert [us[0]][0] == q.unit;
      } else {
        assert us[1..][i - 1] == q.unit;
      }
    }
    if InFrom(us[1..], 0, q) {
      var i :| 0 <= i < |us[1..]| && us[1..][i] == q.unit;
      assert us[i + 1] == q.unit;
    }
  }

  /** A unit whose scan stops ends the directory: later slots were never used. */
  lemma StopEnds(v: Volume, g: Geometry, us: seq<nat>, name: name83, q: Ref)
    requires Shaped(v, g) && UnitsIn(v, us) && TailUnits(v, g, us) && us != []
    requires ScanName(v.units[us[0]], 0, name).Stop? && SlotOf(g, us, q) && Named(SlotAt(v, g, q))
    ensures Name(SlotAt(v, g, q)) != name
  {
    var u := us[0];
    ScanNameMeans(v.units[u], 0, name);
    var z: nat :| ZeroAt(v.units[u], z) && forall i :: 0 <= i < z ==> !Matches(SlotIn(v.units[u], i), name);
    var m :| 0 <= m < |us| && us[m] == q.unit;
    assert TailAt(v, g, us, 0, z, m, q.index);
    assert SlotAt(v, g, q)[0] == v.units[q.unit][SLOT * q.index];
  }

  /** A search over units finds a matching slot, or there is none. */
  lemma {:induction false} SearchUnits(v: Volume, g: Geometry, us: seq<nat>, name: name83)
    requires Shaped(v, g) && UnitsIn(v, us) && TailUnits(v, g, us) && name[0] != DOT
    ensures var f := Search(v, us, name);
            && (f.Some? ==> && SlotOf(g, us, f.value) && Named(SlotAt(v, g, f.value))
                            && Name(SlotAt(v, g, f.value)) == name)
            && (f.None? ==> forall q :: SlotOf(g, us, q) && Named(SlotAt(v, g, q)) ==> Name(SlotAt(v, g, q)) != name)
    decreases |us|
  {
    if us != [] {
      var u := us[0];
      ScanNameMeans(v.units[u], 0, name);
      match ScanName(v.units[u], 0, name) {
        case Stop =>
          forall q | SlotOf(g, us, q) && Named(SlotAt(v, g, q))
            ensures Name(SlotAt(v, g, q)) != name
          {
            StopEnds(v, g, us, name, q);
          }
        case Hit(j) =>
          assert us[0] == Ref(u, j).unit;
          assert SlotAt(v, g, Ref(u, j)) == SlotIn(v.units[u], j);
        case More =>
          SkipTail(v, g, us);
          SearchUnits(v, g, us[1..], name);
          forall q: Ref
            ensures SlotOf(g, us, q) <==> SlotOf(g, [u], q) || SlotOf(g, us[1..], q)
          {
            SlotOfSkip(g, us, q);
          }
      }
    }
  }

  /**
   Looking a name up in a directory finds the one entry with that name, and
   fails exactly when there is none.
   */
  lemma SearchFinds(v: Volume, g: Geometry, cat: Catalog, d: nat, name: name83)
    requires Sound(v, g, cat) && Dir(d) in cat.chains && name[0] != DOT
    ensures UnitsIn(v, DirUnits(cat, d))
    ensures var f := Search(v, DirUnits(cat, d), name);
            && (f.Some? ==> IsSlot(g, cat, f.value) && Home(cat, f.value) == d &&
                            Named(SlotAt(v, g, f.value)) && Name(SlotAt(v, g, f.value)) == name)
            && forall q :: && IsSlot(g, cat, q) && Home(cat, q) == d && Named(SlotAt(v, g, q))
                           && Name(SlotAt(v, g, q)) == name
                           ==> f == Some(q)
  {
    UnitsOk(v, g, cat, None, d);
    var us := DirUnits(cat, d);
    DirTail(v, g, cat, None, d);
    SearchUnits(v, g, us, name);
    var f := Search(v, us, name);
    if f.Some? {
      SlotOfDir(v, g, cat, None, d, f.value);
    }
    forall q | IsSlot(g, cat, q) && Home(cat, q) == d && Named(SlotAt(v, g, q)) && Name(SlotAt(v, g, q)) == name
      ensures f == Some(q)
    {
      SlotOfDir(v, g, cat, None, d, q);
      assert !Clash(v, g, cat, f.value, q);
    }
  }

  lemma DirTail(v: Volume, g: Geometry, cat: Catalog, x: Option<Ref>, d: nat)
    requires SoundBut(v, g, cat, x) && Dir(d) in cat.chains
    ensures TailUnits(v, g, DirUnits(cat, d))
  {}

  /** The slots of a directory's units are the slots whose home it is. */
  lemma SlotOfDir(v: Volume, g: Geometry, cat: Catalog, x: Option<Ref>, d: nat, q: Ref)
    requires SoundBut(v, g, cat, x) && Dir(d) in cat.chains
    ensures SlotOf(g, DirUnits(cat, d), q) <==> IsSlot(g, cat, q) && Home(cat, q) == d
  {
    UnitsOk(v, g, cat, x, d);
    if IsSlot(g, cat, q) && Home(cat, q) == d {
      SlotInUnits(v, g, cat, x, q);
    }
    if SlotOf(g, DirUnits(cat, d), q) {
      var i :| 0 <= i < |DirUnits(cat, d)| && DirUnits(cat, d)[i] == q.unit;
      assert IsSlot(g, cat, Ref(DirUnits(cat, d)[i], q.index));
    }
  }

  /** The slots of the units up to slot `n` of unit `m` have all been used. */
  ghost predicate UsedUpTo(v: Volume, g: Geometry, us: seq<nat>, m: nat, n: nat)
    requires Shaped(v, g) && UnitsIn(v, us)
  {
    forall i, j: nat :: 0 <= i < |us| && (i < m || (i == m && j < n)) && SLOT * j + SLOT <= g.UnitLen(us[i]) ==>
                          v.units[us[i]][SLOT * j] != 0
  }

  /** A search for a vacant slot passes over used slots only. */
  lemma {:induction false} VacantUnits(v: Volume, g: Geometry, us: seq<nat>) returns (m: nat)
    requires Shaped(v, g) && UnitsIn(v, us)
    ensures var f := SearchVacant(v, us);
            f.Some? ==>
              && m < |us| && us[m] == f.value.unit && SLOT * f.value.index + SLOT <= g.UnitLen(f.value.unit)
              && Vacant(v.units[f.value.unit][SLOT * f.value.index])
              && UsedUpTo(v, g, us, m, f.value.index) && NoneVacant(v, g, us, m, f.value.index)
    ensures SearchVacant(v, us).None? ==> NoneVacant(v, g, us, |us|, 0)
    decreases |us|
  {
    m := 0;
    if us != [] {
      ScanVacantMeans(v.units[us[0]], 0);
      if ScanVacant(v.units[us[0]], 0).None? {
        m := VacantUnits(v, g, us[1..]);
        var f := SearchVacant(v, us[1..]);
        if f.Some? {
          VacantStep(v, g, us, m, f.value.index);
          NoneVacantStep(v, g, us, m, f.value.index);
        } else {
          NoneVacantStep(v, g, us, |us| - 1, 0);
        }
        m := m + 1;
      }
    }
  }

  /** No slot of the units up to slot `n` of unit `m` is deleted or was never used. */
  ghost predicate NoneVacant(v: Volume, g: Geometry, us: seq<nat>, m: nat, n: nat)
    requires Shaped(v, g) && UnitsIn(v, us)
  {
    forall i, j: nat :: 0 <= i < |us| && (i < m || (i == m && j < n)) && SLOT * j + SLOT <= g.UnitLen(us[i]) ==>
                          v.units[us[i]][SLOT * j] != 0 && v.units[us[i]][SLOT * j] != 0xE5
  }

  lemma NoneVacantStep(v: Volume, g: Geometry, us: seq<nat>, m: nat, n: nat)
    requires Shaped(v, g) && UnitsIn(v, us) && us != [] && NoneVacant(v, g, us[1..], m, n)
    requires forall j: nat :: SLOT * j + SLOT <= g.UnitLen(us[0]) ==> !Vacant(v.units[us[0]][SLOT * j])
    ensures NoneVacant(v, g, us, m + 1, n)
  {
    forall i, j: nat | 0 <= i < |us| && (i < m + 1 || (i == m + 1 && j < n)) && SLOT * j + SLOT <= g.UnitLen(us[i])
      ensures v.units[us[i]][SLOT * j] != 0 && v.units[us[i]][SLOT * j] != 0xE5
    {
      if i > 0 {
        assert us[1..][i - 1] == us[i];
      }
    }
  }

  lemma VacantStep(v: Volume, g: Geometry, us: seq<nat>, m: nat, n: nat)
    requires Shaped(v, g) && UnitsIn(v, us) && us != [] && UsedUpTo(v, g, us[1..], m, n)
    requires forall j: nat :: SLOT * j + SLOT <= g.UnitLen(us[0]) ==> v.units[us[0]][SLOT * j] != 0
    ensures UsedUpTo(v, g, us, m + 1, n)
  {
    forall i, j: nat | 0 <= i < |us| && (i < m + 1 || (i == m + 1 && j < n)) && SLOT * j + SLOT <= g.UnitLen(us[i])
      ensures v.units[us[i]][SLOT * j] != 0
    {
      if i > 0 {
        assert us[1..][i - 1] == us[i];
      }
    }
  }

  /**
   The search takes the first slot of a directory that is deleted or was never used,
   and fails exactly when there is none.
   */
  lemma VacantFirst(v: Volume, g: Geometry, cat: Catalog, d: nat) returns (m: nat)
    requires Sound(v, g, cat) && Dir(d) in cat.chains
    ensures Shaped(v, g) && UnitsIn(v, DirUnits(cat, d))
    ensures var us, f := DirUnits(cat, d), SearchVacant(v, DirUnits(cat, d));
            if f.None? then NoneVacant(v, g, us, |us|, 0)
            else
              && m < |us| && us[m] == f.value.unit && SLOT * f.value.index + SLOT <= g.UnitLen(f.value.unit)
              && v.units[f.value.unit][SLOT * f.value.index] in {0, 0xE5}
              && NoneVacant(v, g, us, m, f.value.index)
  {
    hide SoundBut;
    UnitsOk(v, g, cat, None, d);
    RootKnown(v, g, cat, None);
    m := VacantUnits(v, g, DirUnits(cat, d));
  }

  /** A vacant slot found in a directory names nothing and follows used slots only. */
  lemma VacantFinds(v: Volume, g: Geometry, cat: Catalog, d: nat)
    requires Sound(v, g, cat) && Dir(d) in cat.chains
    ensures UnitsIn(v, DirUnits(cat, d))
    ensures var f := SearchVacant(v, DirUnits(cat, d));
            f.Some? ==>
              && IsSlot(g, cat, f.value) && Home(cat, f.value) == d
              && !Named(SlotAt(v, g, f.value)) && UsedBefore(v, g, cat, f.value)
  {
    hide SoundBut;
    UnitsOk(v, g, cat, None, d);
    RootKnown(v, g, cat, None);
    var us := DirUnits(cat, d);
    var m := VacantUnits(v, g, us);
    var f := SearchVacant(v, us);
    if f.Some? {
      var r := f.value;
      assert IsSlot(g, cat, Ref(us[m], r.index));
      assert SlotAt(v, g, r)[0] == v.units[r.unit][SLOT * r.index];
      forall i: nat, j: nat, k: nat | k < |us| && us[k] == r.unit && i < |us| && us[i] < g.Entries() &&
                                      SLOT * j + SLOT <= g.UnitLen(us[i]) && (i < k || (i == k && j < r.index))
        ensures v.units[us[i]][SLOT * j] != 0
      {
        if k != m {
          UnitsDistinct(v, g, cat, None, d, if k < m then k else m, if k < m then m else k);
        }
      }
    }
  }

  /** Slots before a used slot have been used. */
  lemma UsedBeforeUsed(v: Volume, g: Geometry, cat: Catalog, x: Option<Ref>, r: Ref)
    requires SoundBut(v, g, cat, x) && IsSlot(g, cat, r) && SlotAt(v, g, r)[0] != 0
    ensures Dir(Home(cat, r)) in cat.chains && UsedBefore(v, g, cat, r)
  {
    HomeKnown(v, g, cat, x, r);
    var us := DirUnits(cat, Home(cat, r));
    assert SlotAt(v, g, r)[0] == v.units[r.unit][SLOT * r.index];
    forall i: nat, j: nat, m: nat | m < |us| && us[m] == r.unit && i < |us| && us[i] < g.Entries() &&
                                    SLOT * j + SLOT <= g.UnitLen(us[i]) && (i < m || (i == m && j < r.index))
      ensures v.units[us[i]][SLOT * j] != 0
    {
      assert TailAt(v, g, us, i, j, m, r.index);
    }
  }
}
