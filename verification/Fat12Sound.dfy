/**
 The consistency of a whole volume, and how the elementary changes the driver
 makes keep it.  A change to one file happens while that file's slot is set
 aside: `SoundBut` asks everything of the volume except that this one slot agrees
 with its chain.
 */
module Fat12Sound {
  import opened Bytes
  import opened Fat12Layout
  import opened Fat12Journal
  import opened Fat12Chain
  import opened Fat12Dir

  /**
   A witness of consistency: the chain of every file and directory, the owner of
   every cluster in use, the slot that names each directory, and the depth of
   each directory in the tree.
   */
  datatype Catalog = Catalog(chains: map<Owner, seq<nat>>, owner: map<nat, Owner>, up: map<nat, Ref>,
                             rank: map<nat, nat>)

  /** A slot of some directory. */
  ghost predicate IsSlot(g: Geometry, cat: Catalog, r: Ref) {
    && r.unit < g.Entries()
    && (r.unit == 0 || (r.unit in cat.owner && cat.owner[r.unit].Dir?))
    && SLOT * r.index + SLOT <= g.UnitLen(r.unit)
  }

  /** The directory a slot lies in, by its first cluster (0 for the root). */
  ghost function Home(cat: Catalog, r: Ref): nat
    requires r.unit == 0 || (r.unit in cat.owner && cat.owner[r.unit].Dir?)
  {
    if r.unit == 0 then 0 else cat.owner[r.unit].head
  }

  ghost function SlotAt(v: Volume, g: Geometry, r: Ref): slot
    requires Shaped(v, g) && r.unit < g.Entries() && SLOT * r.index + SLOT <= g.UnitLen(r.unit)
  {
    SlotIn(v.units[r.unit], r.index)
  }

  /** A chain of `n` clusters of `cb` bytes is just long enough for `size` bytes. */
  ghost predicate JustFits(n: nat, cb: nat, size: nat) {
    size <= Times(n, cb) && (n > 0 ==> Times(n - 1, cb) < size)
  }

  function FirstOf(s: seq<nat>): nat {
    if s == [] then 0 else s[0]
  }

  ghost predicate EntryOk(v: Volume, g: Geometry, cat: Catalog, r: Ref)
    requires Shaped(v, g) && IsSlot(g, cat, r)
  {
    var s := SlotAt(v, g, r);
    Named(s) ==>
      if IsDir(s) then
        Head(s) != 0 && Dir(Head(s)) in cat.chains && Head(s) in cat.up && cat.up[Head(s)] == r
      else
        && File(r) in cat.chains
        && Head(s) == FirstOf(cat.chains[File(r)])
        && JustFits(|cat.chains[File(r)]|, g.UnitLen(2), Size(s))
  }

  /** Every named entry agrees with the catalog. */
  ghost predicate EntriesOk(v: Volume, g: Geometry, cat: Catalog, x: Option<Ref>)
    requires Shaped(v, g)
  {
    forall r :: IsSlot(g, cat, r) && Some(r) != x ==> EntryOk(v, g, cat, r)
  }

  /** Every file chain is named by a file entry. */
  ghost predicate FilesOk(v: Volume, g: Geometry, cat: Catalog, x: Option<Ref>)
    requires Shaped(v, g)
  {
    forall r :: File(r) in cat.chains ==>
                  IsSlot(g, cat, r) && (Some(r) != x ==> Named(SlotAt(v, g, r)) && !IsDir(SlotAt(v, g, r)))
  }

  /** Directory `h` is named by the slot `up[h]`, one level below the directory holding it. */
  ghost predicate DirNamed(v: Volume, g: Geometry, cat: Catalog, x: Option<Ref>, h: nat)
    requires Shaped(v, g)
  {
    && h in cat.up && Some(cat.up[h]) != x && IsSlot(g, cat, cat.up[h])
    && Named(SlotAt(v, g, cat.up[h])) && IsDir(SlotAt(v, g, cat.up[h])) && Head(SlotAt(v, g, cat.up[h])) == h
    && h in cat.rank && Home(cat, cat.up[h]) in cat.rank
    && cat.rank[Home(cat, cat.up[h])] < cat.rank[h]
  }

  ghost predicate DirsOk(v: Volume, g: Geometry, cat: Catalog, x: Option<Ref>)
    requires Shaped(v, g)
  {
    && Dir(0) in cat.chains && cat.chains[Dir(0)] == [] && 0 in cat.rank
    && (forall h :: Dir(h) in cat.chains && h != 0 ==>
          FirstOf(cat.chains[Dir(h)]) == h && DirNamed(v, g, cat, x, h))
  }

  /** Two entries of one directory have the same name. */
  ghost predicate Clash(v: Volume, g: Geometry, cat: Catalog, r: Ref, q: Ref)
    requires Shaped(v, g)
  {
    && IsSlot(g, cat, r) && IsSlot(g, cat, q) && r != q
    && Home(cat, r) == Home(cat, q)
    && Named(SlotAt(v, g, r)) && Named(SlotAt(v, g, q))
    && Name(SlotAt(v, g, r)) == Name(SlotAt(v, g, q))
  }

  lemma ClashSymmetric(v: Volume, g: Geometry, cat: Catalog, r: Ref, q: Ref)
    requires Shaped(v, g)
    ensures Clash(v, g, cat, r, q) <==> Clash(v, g, cat, q, r)
  {}

  ghost predicate UniqueOk(v: Volume, g: Geometry, cat: Catalog, x: Option<Ref>)
    requires Shaped(v, g)
  {
    forall r, q :: Some(r) != x && Some(q) != x ==> !Clash(v, g, cat, r, q)
  }

  ghost function DirUnits(cat: Catalog, d: nat): seq<nat>
    requires Dir(d) in cat.chains
  {
    if d == 0 then [0] else cat.chains[Dir(d)]
  }

  /** After the first never-used slot of a directory all slots are never-used. */
  ghost predicate TailAt(v: Volume, g: Geometry, us: seq<nat>, i: nat, j: nat, m: nat, n: nat)
    requires Shaped(v, g)
  {
    i < |us| && m < |us| && us[i] < g.Entries() && us[m] < g.Entries() &&
    SLOT * j + SLOT <= g.UnitLen(us[i]) && SLOT * n + SLOT <= g.UnitLen(us[m]) &&
    (i < m || (i == m && j < n)) && v.units[us[i]][SLOT * j] == 0 ==>
      v.units[us[m]][SLOT * n] == 0
  }

  ghost predicate TailOk(v: Volume, g: Geometry, cat: Catalog)
    requires Shaped(v, g)
  {
    forall d: nat, i: nat, j: nat, m: nat, n: nat :: Dir(d) in cat.chains ==> TailAt(v, g, DirUnits(cat, d), i, j, m, n)
  }

  ghost predicate SoundBut(v: Volume, g: Geometry, cat: Catalog, x: Option<Ref>) {
    && Shaped(v, g)
    && Allocated(v.fat, cat.chains, cat.owner)
    && EntriesOk(v, g, cat, x)
    && FilesOk(v, g, cat, x)
    && DirsOk(v, g, cat, x)
    && UniqueOk(v, g, cat, x)
    && TailOk(v, g, cat)
  }

  /** The whole volume is consistent. */
  ghost predicate Sound(v: Volume, g: Geometry, cat: Catalog) {
    SoundBut(v, g, cat, None)
  }

  // ----- what consistency says of one slot, file or directory -----

  lemma SlotAgrees(v: Volume, g: Geometry, cat: Catalog, x: Option<Ref>, q: Ref)
    requires SoundBut(v, g, cat, x) && IsSlot(g, cat, q) && Some(q) != x
    ensures Shaped(v, g) && EntryOk(v, g, cat, q)
  {}

  lemma FileNamed(v: Volume, g: Geometry, cat: Catalog, x: Option<Ref>, q: Ref)
    requires SoundBut(v, g, cat, x) && File(q) in cat.chains
    ensures Shaped(v, g) && IsSlot(g, cat, q) && (Some(q) != x ==> Named(SlotAt(v, g, q)) && !IsDir(SlotAt(v, g, q)))
  {}

  lemma DirKnown(v: Volume, g: Geometry, cat: Catalog, x: Option<Ref>, h: nat)
    requires SoundBut(v, g, cat, x) && Dir(h) in cat.chains && h != 0
    ensures Shaped(v, g) && FirstOf(cat.chains[Dir(h)]) == h && DirNamed(v, g, cat, x, h)
  {}

  lemma RootKnown(v: Volume, g: Geometry, cat: Catalog, x: Option<Ref>)
    requires SoundBut(v, g, cat, x)
    ensures Shaped(v, g) && Dir(0) in cat.chains && cat.chains[Dir(0)] == [] && 0 in cat.rank
  {}

  // ----- setting a slot aside -----

  /** The slot of a file, or a vacant slot, can be set aside. */
  lemma SetAside(v: Volume, g: Geometry, cat: Catalog, r: Ref)
    requires Sound(v, g, cat) && IsSlot(g, cat, r)
    requires !(Named(SlotAt(v, g, r)) && IsDir(SlotAt(v, g, r)))
    ensures SoundBut(v, g, cat, Some(r))
    ensures Named(SlotAt(v, g, r)) <==> File(r) in cat.chains
  {
    assert EntryOk(v, g, cat, r);
    forall h | Dir(h) in cat.chains && h != 0
      ensures DirNamed(v, g, cat, Some(r), h)
    {
      assert DirNamed(v, g, cat, None, h);
    }
  }

  // ----- changing the chain of the slot set aside -----

  /** Same directories, same catalog outside the file at `r`. */
  ghost predicate SameElsewhere(v: Volume, w: Volume, g: Geometry, cat: Catalog, cat': Catalog, r: Ref)
    requires Shaped(v, g) && Shaped(w, g)
  {
    && cat'.up == cat.up && cat'.rank == cat.rank
    && IsSlot(g, cat, r)
    && (forall t :: t != File(r) ==> (t in cat'.chains <==> t in cat.chains))
    && (forall t :: t in cat.chains && t != File(r) ==> cat'.chains[t] == cat.chains[t])
    && (forall u :: (u in cat.owner && cat.owner[u].Dir?) <==> (u in cat'.owner && cat'.owner[u].Dir?))
    && (forall u :: u in cat.owner && cat.owner[u].Dir? ==> cat'.owner[u] == cat.owner[u])
    && w.units[0] == v.units[0]
    && (forall u :: 0 <= u < |v.units| && u in cat.owner && cat.owner[u].Dir? ==> w.units[u] == v.units[u])
  }

  lemma SameSlots(v: Volume, w: Volume, g: Geometry, cat: Catalog, cat': Catalog, r: Ref, q: Ref)
    requires Shaped(v, g) && Shaped(w, g) && SameElsewhere(v, w, g, cat, cat', r)
    ensures IsSlot(g, cat', q) <==> IsSlot(g, cat, q)
    ensures IsSlot(g, cat, q) ==> SlotAt(w, g, q) == SlotAt(v, g, q) && Home(cat', q) == Home(cat, q)
  {}

  lemma ChangeEntries(v: Volume, w: Volume, g: Geometry, cat: Catalog, cat': Catalog, r: Ref)
    requires SoundBut(v, g, cat, Some(r)) && Shaped(w, g) && SameElsewhere(v, w, g, cat, cat', r)
    ensures EntriesOk(w, g, cat', Some(r)) && FilesOk(w, g, cat', Some(r))
  {
    forall q | IsSlot(g, cat', q) && Some(q) != Some(r)
      ensures EntryOk(w, g, cat', q)
    {
      SameSlots(v, w, g, cat, cat', r, q);
      assert EntryOk(v, g, cat, q);
    }
    forall q | File(q) in cat'.chains
      ensures IsSlot(g, cat', q) && (q != r ==> Named(SlotAt(w, g, q)) && !IsDir(SlotAt(w, g, q)))
    {
      SameSlots(v, w, g, cat, cat', r, q);
      assert q != r ==> File(q) in cat.chains;
    }
  }

  lemma ChangeDirs(v: Volume, w: Volume, g: Geometry, cat: Catalog, cat': Catalog, r: Ref)
    requires SoundBut(v, g, cat, Some(r)) && Shaped(w, g) && SameElsewhere(v, w, g, cat, cat', r)
    ensures DirsOk(w, g, cat', Some(r))
  {
    forall h | Dir(h) in cat'.chains && h != 0
      ensures FirstOf(cat'.chains[Dir(h)]) == h && DirNamed(w, g, cat', Some(r), h)
    {
      assert Dir(h) in cat.chains && DirNamed(v, g, cat, Some(r), h);
      SameSlots(v, w, g, cat, cat', r, cat.up[h]);
    }
  }

  lemma ChangeUnique(v: Volume, w: Volume, g: Geometry, cat: Catalog, cat': Catalog, r: Ref)
    requires Shaped(v, g) && UniqueOk(v, g, cat, Some(r)) && Shaped(w, g) && SameElsewhere(v, w, g, cat, cat', r)
    ensures UniqueOk(w, g, cat', Some(r))
  {
    forall p, q | Some(p) != Some(r) && Some(q) != Some(r)
      ensures !Clash(w, g, cat', p, q)
    {
      SameSlots(v, w, g, cat, cat', r, p);
      SameSlots(v, w, g, cat, cat', r, q);
      assert !Clash(v, g, cat, p, q);
    }
  }

  lemma DirUnitsOwned(fat: seq<nat>, cat: Catalog, d: nat, i: nat)
    requires Allocated(fat, cat.chains, cat.owner) && Dir(d) in cat.chains && i < |DirUnits(cat, d)|
    ensures var u := DirUnits(cat, d)[i];
            if d == 0 then u == 0 else 2 <= u < |fat| && u in cat.owner && cat.owner[u] == Dir(d)
  {}

  lemma ChangeTail(v: Volume, w: Volume, g: Geometry, cat: Catalog, cat': Catalog, r: Ref)
    requires SoundBut(v, g, cat, Some(r)) && Shaped(w, g) && SameElsewhere(v, w, g, cat, cat', r)
    ensures TailOk(w, g, cat')
  {
    forall d: nat, i: nat, j: nat, m: nat, n: nat | Dir(d) in cat'.chains
      ensures TailAt(w, g, DirUnits(cat', d), i, j, m, n)
    {
      assert Dir(d) in cat.chains;
      var us := DirUnits(cat, d);
      assert DirUnits(cat', d) == us;
      assert TailAt(v, g, us, i, j, m, n);
      if 0 <= i < |us| && 0 <= m < |us| {
        DirUnitsOwned(v.fat, cat, d, i);
        DirUnitsOwned(v.fat, cat, d, m);
      }
    }
  }

  lemma ChangeFile(v: Volume, w: Volume, g: Geometry, cat: Catalog, cat': Catalog, r: Ref)
    requires SoundBut(v, g, cat, Some(r)) && Shaped(w, g) && SameElsewhere(v, w, g, cat, cat', r)
    requires Allocated(w.fat, cat'.chains, cat'.owner)
    ensures SoundBut(w, g, cat', Some(r))
  {
    ChangeEntries(v, w, g, cat, cat', r);
    ChangeDirs(v, w, g, cat, cat', r);
    ChangeUnique(v, w, g, cat, cat', r);
    ChangeTail(v, w, g, cat, cat', r);
  }

  ghost function WithChain(cat: Catalog, r: Ref, s: seq<nat>): Catalog {
    cat.(chains := cat.chains[File(r) := s])
  }

  /** A vacant slot set aside starts a file with an empty chain. */
  lemma StartFile(v: Volume, g: Geometry, cat: Catalog, r: Ref)
    requires SoundBut(v, g, cat, Some(r)) && IsSlot(g, cat, r) && File(r) !in cat.chains
    ensures SoundBut(v, g, WithChain(cat, r, []), Some(r))
  {
    hide EntriesOk, FilesOk, DirsOk, UniqueOk, TailOk;
    WithoutChain(v.fat, cat.chains, cat.owner, File(r));
    ChangeFile(v, v, g, cat, WithChain(cat, r, []), r);
  }

  /** A file whose chain is empty and whose slot names nothing can be forgotten. */
  lemma ForgetFile(v: Volume, g: Geometry, cat: Catalog, r: Ref)
    requires SoundBut(v, g, cat, Some(r)) && File(r) in cat.chains && cat.chains[File(r)] == []
    requires IsSlot(g, cat, r) && !Named(SlotAt(v, g, r))
    ensures Sound(v, g, cat.(chains := cat.chains - {File(r)}))
  {
    var cat' := cat.(chains := cat.chains - {File(r)});
    ChangeFile(v, v, g, cat, cat', r);
    ReturnSlot(v, g, cat', r);
  }

  /** A slot set aside that agrees with its chain and clashes with no other makes the volume whole. */
  lemma ReturnSlot(v: Volume, g: Geometry, cat: Catalog, r: Ref)
    requires SoundBut(v, g, cat, Some(r)) && IsSlot(g, cat, r)
    requires EntryOk(v, g, cat, r) && (File(r) in cat.chains ==> Named(SlotAt(v, g, r)) && !IsDir(SlotAt(v, g, r)))
    requires forall q :: !Clash(v, g, cat, r, q)
    ensures Sound(v, g, cat)
  {
    forall p, q
      ensures !Clash(v, g, cat, p, q)
    {
      assert !Clash(v, g, cat, r, p) && !Clash(v, g, cat, r, q);
      ClashSymmetric(v, g, cat, p, r);
    }
    forall h | Dir(h) in cat.chains && h != 0
      ensures DirNamed(v, g, cat, None, h)
    {
      assert DirNamed(v, g, cat, Some(r), h);
    }
  }

  /** Only the chain of the file at `r`, and bytes of clusters nobody else owns, differ. */
  ghost predicate Elsewhere(v: Volume, w: Volume, g: Geometry, cat: Catalog, cat': Catalog, r: Ref)
    requires Shaped(v, g) && Shaped(w, g)
  {
    && cat'.up == cat.up && cat'.rank == cat.rank
    && File(r) in cat'.chains && cat'.chains == cat.chains[File(r) := cat'.chains[File(r)]]
    && (forall u :: u in cat.owner && cat.owner[u] != File(r) ==> u in cat'.owner && cat'.owner[u] == cat.owner[u])
    && (forall u :: u in cat'.owner && cat'.owner[u] != File(r) ==> u in cat.owner && cat'.owner[u] == cat.owner[u])
    && w.units[0] == v.units[0]
    && (forall u :: 0 <= u < |v.units| && u in cat.owner && cat.owner[u] != File(r) ==> w.units[u] == v.units[u])
  }

  lemma ElsewhereTransitive(v: Volume, w: Volume, y: Volume, g: Geometry, cat: Catalog, cat': Catalog, cat'': Catalog,
                            r: Ref)
    requires Shaped(v, g) && Shaped(w, g) && Shaped(y, g)
    requires Elsewhere(v, w, g, cat, cat', r) && Elsewhere(w, y, g, cat', cat'', r)
    ensures Elsewhere(v, y, g, cat, cat'', r)
  {}

  lemma SameWhenElsewhere(v: Volume, w: Volume, g: Geometry, cat: Catalog, cat': Catalog, r: Ref)
    requires Shaped(v, g) && Shaped(w, g) && IsSlot(g, cat, r) && Elsewhere(v, w, g, cat, cat', r)
    ensures SameElsewhere(v, w, g, cat, cat', r)
  {}

  /** Freeing the chain of the file set aside. */
  lemma ReleaseFile(v: Volume, g: Geometry, cat: Catalog, r: Ref) returns (cat': Catalog)
    requires SoundBut(v, g, cat, Some(r)) && File(r) in cat.chains && cat.chains[File(r)] != []
    ensures LinksInside(v.fat)
    ensures cat' == WithChain(cat, r, []).(owner := Without(cat.owner, File(r)))
    ensures var w := v.(fat := FreeFat(v.fat, cat.chains[File(r)][0]));
            SoundBut(w, g, cat', Some(r)) && Elsewhere(v, w, g, cat, cat', r)
  {
    cat' := WithChain(cat, r, []).(owner := Without(cat.owner, File(r)));
    var w := ReleaseShape(v, g, cat, r);
    assert Elsewhere(v, w, g, cat, cat', r);
    SameWhenElsewhere(v, w, g, cat, cat', r);
    ChangeFile(v, w, g, cat, cat', r);
  }

  lemma ReleaseShape(v: Volume, g: Geometry, cat: Catalog, r: Ref) returns (w: Volume)
    requires Shaped(v, g) && Allocated(v.fat, cat.chains, cat.owner)
    requires File(r) in cat.chains && cat.chains[File(r)] != []
    ensures LinksInside(v.fat) && Shaped(w, g)
    ensures w == v.(fat := FreeFat(v.fat, cat.chains[File(r)][0]))
    ensures Allocated(w.fat, cat.chains[File(r) := []], Without(cat.owner, File(r)))
  {
    ReleaseKeeps(v.fat, cat.chains, cat.owner, File(r));
    w := v.(fat := FreeFat(v.fat, cat.chains[File(r)][0]));
  }

  /** At most unit `c` differs. */
  ghost predicate OnlyUnit(v: Volume, w: Volume, c: nat) {
    && |w.units| == |v.units|
    && (forall u :: 0 <= u < |v.units| ==> |w.units[u]| == |v.units[u]|)
    && (forall u :: 0 <= u < |v.units| && u != c ==> w.units[u] == v.units[u])
  }

  /** Giving the file set aside one more cluster, with any contents. */
  lemma ExtendFile(v: Volume, g: Geometry, cat: Catalog, r: Ref, c: nat, w: Volume) returns (cat': Catalog)
    requires SoundBut(v, g, cat, Some(r)) && File(r) in cat.chains
    requires 2 <= c < g.Entries() && v.fat[c] == FREE
    requires var s := cat.chains[File(r)];
             w.fat == if s == [] then v.fat[c := EOC] else v.fat[c := EOC][s[|s| - 1] := c]
    requires OnlyUnit(v, w, c)
    ensures cat' == WithChain(cat, r, cat.chains[File(r)] + [c]).(owner := cat.owner[c := File(r)])
    ensures SoundBut(w, g, cat', Some(r)) && Elsewhere(v, w, g, cat, cat', r)
  {
    cat' := WithChain(cat, r, cat.chains[File(r)] + [c]).(owner := cat.owner[c := File(r)]);
    ExtendShape(v, g, cat, r, c, w);
    ExtendElsewhere(v, g, cat, r, c, w, cat');
    SameWhenElsewhere(v, w, g, cat, cat', r);
    ChangeFile(v, w, g, cat, cat', r);
  }

  lemma ExtendElsewhere(v: Volume, g: Geometry, cat: Catalog, r: Ref, c: nat, w: Volume, cat': Catalog)
    requires Shaped(v, g) && Shaped(w, g) && IsSlot(g, cat, r) && 2 <= c && c !in cat.owner && OnlyUnit(v, w, c)
    requires File(r) in cat.chains
    requires cat' == WithChain(cat, r, cat.chains[File(r)] + [c]).(owner := cat.owner[c := File(r)])
    ensures Elsewhere(v, w, g, cat, cat', r)
  {
  }

  lemma ExtendShape(v: Volume, g: Geometry, cat: Catalog, r: Ref, c: nat, w: Volume)
    requires Shaped(v, g) && Allocated(v.fat, cat.chains, cat.owner) && File(r) in cat.chains
    requires 2 <= c < g.Entries() && v.fat[c] == FREE
    requires var s := cat.chains[File(r)];
             w.fat == if s == [] then v.fat[c := EOC] else v.fat[c := EOC][s[|s| - 1] := c]
    requires OnlyUnit(v, w, c)
    ensures Shaped(w, g) && c !in cat.owner
    ensures Allocated(w.fat, cat.chains[File(r) := cat.chains[File(r)] + [c]], cat.owner[c := File(r)])
  {
    ExtendKeeps(v.fat, cat.chains, cat.owner, File(r), c, w.fat);
  }

  // ----- writing the slot set aside -----

  ghost function WithSlot(v: Volume, g: Geometry, r: Ref, s: slot): (w: Volume)
    requires Shaped(v, g) && r.unit < g.Entries() && SLOT * r.index + SLOT <= g.UnitLen(r.unit)
    ensures Shaped(w, g)
  {
    v.(units := v.units[r.unit := Splice(v.units[r.unit], SLOT * r.index, s)])
  }

  lemma WithSlotAt(v: Volume, g: Geometry, r: Ref, s: slot, q: Ref)
    requires Shaped(v, g) && r.unit < g.Entries() && SLOT * r.index + SLOT <= g.UnitLen(r.unit)
    requires q.unit < g.Entries() && SLOT * q.index + SLOT <= g.UnitLen(q.unit)
    ensures SlotAt(WithSlot(v, g, r, s), g, q) == if q == r then s else SlotAt(v, g, q)
  {
    var w := WithSlot(v, g, r, s);
    if q == r {
      assert SlotAt(w, g, q) == s;
    } else if q.unit == r.unit {
      assert q.index < r.index || r.index < q.index;
      assert SlotAt(w, g, q) == SlotAt(v, g, q);
    }
  }

  /** Every slot before `r` in its directory has been used. */
  ghost predicate UsedBefore(v: Volume, g: Geometry, cat: Catalog, r: Ref)
    requires Shaped(v, g) && IsSlot(g, cat, r) && Dir(Home(cat, r)) in cat.chains
  {
    var us := DirUnits(cat, Home(cat, r));
    forall i: nat, j: nat, m: nat :: m < |us| && us[m] == r.unit && i < |us| && us[i] < g.Entries() &&
                                     SLOT * j + SLOT <= g.UnitLen(us[i]) && (i < m || (i == m && j < r.index)) ==>
                                       v.units[us[i]][SLOT * j] != 0
  }

  /** Storing a used entry in the slot set aside, all earlier slots being used. */
  lemma WriteAside(v: Volume, g: Geometry, cat: Catalog, r: Ref, s: slot)
    requires SoundBut(v, g, cat, Some(r)) && IsSlot(g, cat, r) && s[0] != 0
    requires Dir(Home(cat, r)) in cat.chains && UsedBefore(v, g, cat, r)
    ensures SoundBut(WithSlot(v, g, r, s), g, cat, Some(r))
  {
    var w := WithSlot(v, g, r, s);
    forall q | IsSlot(g, cat, q)
      ensures SlotAt(w, g, q) == if q == r then s else SlotAt(v, g, q)
    {
      WithSlotAt(v, g, r, s, q);
    }
    WriteEntries(v, w, g, cat, r);
    WriteTail(v, g, cat, r, s);
  }

  lemma WriteEntries(v: Volume, w: Volume, g: Geometry, cat: Catalog, r: Ref)
    requires SoundBut(v, g, cat, Some(r)) && Shaped(w, g)
    requires forall q :: IsSlot(g, cat, q) && q != r ==> SlotAt(w, g, q) == SlotAt(v, g, q)
    ensures EntriesOk(w, g, cat, Some(r)) && FilesOk(w, g, cat, Some(r))
    ensures DirsOk(w, g, cat, Some(r)) && UniqueOk(w, g, cat, Some(r))
  {
    forall q | IsSlot(g, cat, q) && Some(q) != Some(r)
      ensures EntryOk(w, g, cat, q)
    {
      assert EntryOk(v, g, cat, q);
    }
    forall h | Dir(h) in cat.chains && h != 0
      ensures DirNamed(w, g, cat, Some(r), h)
    {
      assert DirNamed(v, g, cat, Some(r), h);
    }
    forall p, q | Some(p) != Some(r) && Some(q) != Some(r)
      ensures !Clash(w, g, cat, p, q)
    {
      assert !Clash(v, g, cat, p, q);
    }
  }

  lemma WriteTail(v: Volume, g: Geometry, cat: Catalog, r: Ref, s: slot)
    requires SoundBut(v, g, cat, Some(r)) && IsSlot(g, cat, r) && s[0] != 0
    requires Dir(Home(cat, r)) in cat.chains && UsedBefore(v, g, cat, r)
    ensures TailOk(WithSlot(v, g, r, s), g, cat)
  {
    var w := WithSlot(v, g, r, s);
    forall d: nat, i: nat, j: nat, m: nat, n: nat | Dir(d) in cat.chains
      ensures TailAt(w, g, DirUnits(cat, d), i, j, m, n)
    {
      var us := DirUnits(cat, d);
      assert TailAt(v, g, us, i, j, m, n);
      if i < |us| && m < |us| {
        DirUnitsOwned(v.fat, cat, d, i);
        DirUnitsOwned(v.fat, cat, d, m);
        if us[m] < g.Entries() && SLOT * n + SLOT <= g.UnitLen(us[m]) && Ref(us[m], n) != r {
          WithSlotAt(v, g, r, s, Ref(us[m], n));
          FirstByte(w, v, g, Ref(us[m], n));
        }
        if us[i] < g.Entries() && SLOT * j + SLOT <= g.UnitLen(us[i]) {
          WithSlotAt(v, g, r, s, Ref(us[i], j));
          if Ref(us[i], j) != r {
            FirstByte(w, v, g, Ref(us[i], j));
          }
        }
      }
    }
  }

  lemma FirstByte(w: Volume, v: Volume, g: Geometry, q: Ref)
    requires Shaped(v, g) && Shaped(w, g) && q.unit < g.Entries() && SLOT * q.index + SLOT <= g.UnitLen(q.unit)
    requires SlotAt(w, g, q) == SlotAt(v, g, q)
    ensures w.units[q.unit][SLOT * q.index] == v.units[q.unit][SLOT * q.index]
  {
    assert SlotAt(w, g, q)[0] == w.units[q.unit][SLOT * q.index];
    assert SlotAt(v, g, q)[0] == v.units[q.unit][SLOT * q.index];
  }

  // ----- directories -----

  ghost function AsDir(cat: Catalog, r: Ref, c: nat): Catalog
    requires File(r) in cat.chains && (r.unit == 0 || (r.unit in cat.owner && cat.owner[r.unit].Dir?))
    requires Home(cat, r) in cat.rank
  {
    Catalog(RetagChains(cat.chains, File(r), Dir(c)), RetagOwner(cat.owner, File(r), Dir(c)),
            cat.up[c := r], cat.rank[c := cat.rank[Home(cat, r)] + 1])
  }

  /** The slots of a unit name nothing, and no used slot follows a never-used one. */
  ghost predicate BlankUnit(unit: seq<byte>) {
    && (forall j: nat :: SLOT * j + SLOT <= |unit| ==> !Named(SlotIn(unit, j)))
    && (forall j: nat, n: nat :: j < n && SLOT * n + SLOT <= |unit| && unit[SLOT * j] == 0 ==> unit[SLOT * n] == 0)
  }

  lemma HomeKnown(v: Volume, g: Geometry, cat: Catalog, x: Option<Ref>, r: Ref)
    requires SoundBut(v, g, cat, x) && IsSlot(g, cat, r)
    ensures Dir(Home(cat, r)) in cat.chains && Home(cat, r) in cat.rank
  {
    if r.unit != 0 {
      var h := Home(cat, r);
      assert cat.owner[r.unit] == Dir(h);
      assert DirNamed(v, g, cat, x, h) || h == 0;
    }
  }

  lemma NewDirSlots(v: Volume, g: Geometry, cat: Catalog, r: Ref, c: nat, q: Ref)
    requires SoundBut(v, g, cat, Some(r)) && File(r) in cat.chains && cat.chains[File(r)] == [c]
    requires Home(cat, r) in cat.rank && BlankUnit(v.units[c])
    ensures c in cat.owner && cat.owner[c] == File(r) && 2 <= c && Dir(c) !in cat.chains
    ensures IsSlot(g, AsDir(cat, r, c), q) <==>
              IsSlot(g, cat, q) || (q.unit == c && SLOT * q.index + SLOT <= g.UnitLen(c))
    ensures IsSlot(g, cat, q) ==> Home(AsDir(cat, r, c), q) == Home(cat, q) && q.unit != c
    ensures q.unit == c && SLOT * q.index + SLOT <= g.UnitLen(c) ==> !Named(SlotAt(v, g, q))
  {
    assert cat.chains[File(r)][0] == c;
  }

  /** The file set aside becomes a directory, once its slot says so and its cluster is blank. */
  lemma BecomeDir(v: Volume, g: Geometry, cat: Catalog, r: Ref, c: nat)
    requires SoundBut(v, g, cat, Some(r)) && File(r) in cat.chains && cat.chains[File(r)] == [c]
    requires Home(cat, r) in cat.rank && BlankUnit(v.units[c])
    requires Named(SlotAt(v, g, r)) && IsDir(SlotAt(v, g, r)) && Head(SlotAt(v, g, r)) == c
    requires forall q :: !Clash(v, g, cat, r, q)
    ensures Sound(v, g, AsDir(cat, r, c))
  {
    NewDirSlots(v, g, cat, r, c, r);
    RetagKeeps(v.fat, cat.chains, cat.owner, File(r), Dir(c));
    NewDirEntries(v, g, cat, r, c);
    NewDirDirs(v, g, cat, r, c);
    NewDirUnique(v, g, cat, r, c);
    NewDirTail(v, g, cat, r, c);
  }

  lemma NewDirEntries(v: Volume, g: Geometry, cat: Catalog, r: Ref, c: nat)
    requires SoundBut(v, g, cat, Some(r)) && File(r) in cat.chains && cat.chains[File(r)] == [c]
    requires Home(cat, r) in cat.rank && BlankUnit(v.units[c])
    requires IsDir(SlotAt(v, g, r)) && Head(SlotAt(v, g, r)) == c
    ensures EntriesOk(v, g, AsDir(cat, r, c), None) && FilesOk(v, g, AsDir(cat, r, c), None)
  {
    hide SoundBut, BlankUnit, Named, IsDir, SlotAt;
    RootKnown(v, g, cat, Some(r));
    FileNamed(v, g, cat, Some(r), r);
    var cat' := AsDir(cat, r, c);
    forall q | IsSlot(g, cat', q)
      ensures EntryOk(v, g, cat', q)
    {
      NewDirSlots(v, g, cat, r, c, q);
      if IsSlot(g, cat, q) && q != r {
        SlotAgrees(v, g, cat, Some(r), q);
      }
    }
    forall q | File(q) in cat'.chains
      ensures IsSlot(g, cat', q) && Named(SlotAt(v, g, q)) && !IsDir(SlotAt(v, g, q))
    {
      NewDirSlots(v, g, cat, r, c, q);
      FileNamed(v, g, cat, Some(r), q);
    }
  }

  lemma NewDirDirs(v: Volume, g: Geometry, cat: Catalog, r: Ref, c: nat)
    requires SoundBut(v, g, cat, Some(r)) && File(r) in cat.chains && cat.chains[File(r)] == [c]
    requires Home(cat, r) in cat.rank && BlankUnit(v.units[c])
    requires Named(SlotAt(v, g, r)) && IsDir(SlotAt(v, g, r)) && Head(SlotAt(v, g, r)) == c
    ensures DirsOk(v, g, AsDir(cat, r, c), None)
  {
    hide SoundBut, BlankUnit, Named, IsDir, SlotAt;
    RootKnown(v, g, cat, Some(r));
    FileNamed(v, g, cat, Some(r), r);
    var cat' := AsDir(cat, r, c);
    NewDirSlots(v, g, cat, r, c, r);
    HomeKnown(v, g, cat, Some(r), r);
    forall h | Dir(h) in cat'.chains && h != 0
      ensures FirstOf(cat'.chains[Dir(h)]) == h && DirNamed(v, g, cat', None, h)
    {
      if h != c {
        DirKnown(v, g, cat, Some(r), h);
        NewDirSlots(v, g, cat, r, c, cat.up[h]);
        HomeKnown(v, g, cat, Some(r), cat.up[h]);
      }
    }
  }

  lemma NewDirUnique(v: Volume, g: Geometry, cat: Catalog, r: Ref, c: nat)
    requires SoundBut(v, g, cat, Some(r)) && File(r) in cat.chains && cat.chains[File(r)] == [c]
    requires Home(cat, r) in cat.rank && BlankUnit(v.units[c])
    requires forall q :: !Clash(v, g, cat, r, q)
    ensures UniqueOk(v, g, AsDir(cat, r, c), None)
  {
    var cat' := AsDir(cat, r, c);
    forall p, q
      ensures !Clash(v, g, cat', p, q)
    {
      NewDirSlots(v, g, cat, r, c, p);
      NewDirSlots(v, g, cat, r, c, q);
      ClashSymmetric(v, g, cat, p, q);
      assert p != r && q != r ==> !Clash(v, g, cat, p, q);
      assert !Clash(v, g, cat, r, p) && !Clash(v, g, cat, r, q);
    }
  }

  lemma NewDirTail(v: Volume, g: Geometry, cat: Catalog, r: Ref, c: nat)
    requires SoundBut(v, g, cat, Some(r)) && File(r) in cat.chains && cat.chains[File(r)] == [c]
    requires Home(cat, r) in cat.rank && BlankUnit(v.units[c])
    ensures TailOk(v, g, AsDir(cat, r, c))
  {
    var cat' := AsDir(cat, r, c);
    NewDirSlots(v, g, cat, r, c, r);
    forall d: nat, i: nat, j: nat, m: nat, n: nat | Dir(d) in cat'.chains
      ensures TailAt(v, g, DirUnits(cat', d), i, j, m, n)
    {
      if d != c {
        assert DirUnits(cat', d) == DirUnits(cat, d);
        assert TailAt(v, g, DirUnits(cat, d), i, j, m, n);
      }
    }
  }

  ghost function AsFile(cat: Catalog, h: nat): Catalog
    requires Dir(h) in cat.chains && h in cat.up
  {
    Catalog(RetagChains(cat.chains, Dir(h), File(cat.up[h])), RetagOwner(cat.owner, Dir(h), File(cat.up[h])),
            cat.up - {h}, cat.rank)
  }

  /** Every slot of directory `h` names nothing. */
  ghost predicate EmptyDir(v: Volume, g: Geometry, cat: Catalog, h: nat)
    requires Shaped(v, g)
  {
    forall q :: IsSlot(g, cat, q) && Home(cat, q) == h ==> !Named(SlotAt(v, g, q))
  }

  lemma EmptyDirSlots(v: Volume, g: Geometry, cat: Catalog, h: nat, q: Ref)
    requires Sound(v, g, cat) && Dir(h) in cat.chains && h != 0 && EmptyDir(v, g, cat, h)
    ensures h in cat.up && IsSlot(g, cat, cat.up[h]) && File(cat.up[h]) !in cat.chains
    ensures IsSlot(g, AsFile(cat, h), q) <==> IsSlot(g, cat, q) && Home(cat, q) != h
    ensures IsSlot(g, cat, q) && Home(cat, q) != h ==> Home(AsFile(cat, h), q) == Home(cat, q)
    ensures Home(cat, cat.up[h]) != h
  {
    assert DirNamed(v, g, cat, None, h);
  }

  /** An empty directory can be turned back into a plain chain at its slot, set aside. */
  lemma BecomeFile(v: Volume, g: Geometry, cat: Catalog, h: nat)
    requires Sound(v, g, cat) && Dir(h) in cat.chains && h != 0 && EmptyDir(v, g, cat, h)
    ensures h in cat.up && IsSlot(g, AsFile(cat, h), cat.up[h])
    ensures SoundBut(v, g, AsFile(cat, h), Some(cat.up[h]))
  {
    var r := cat.up[h];
    EmptyDirSlots(v, g, cat, h, r);
    RetagKeeps(v.fat, cat.chains, cat.owner, Dir(h), File(r));
    GoneDirEntries(v, g, cat, h);
    GoneDirFiles(v, g, cat, h);
    GoneDirDirs(v, g, cat, h);
    GoneDirUnique(v, g, cat, h);
    GoneDirTail(v, g, cat, h);
  }

  lemma GoneDirEntries(v: Volume, g: Geometry, cat: Catalog, h: nat)
    requires Sound(v, g, cat) && Dir(h) in cat.chains && h != 0 && EmptyDir(v, g, cat, h) && h in cat.up
    ensures EntriesOk(v, g, AsFile(cat, h), Some(cat.up[h]))
  {
    var cat', r := AsFile(cat, h), cat.up[h];
    forall q | IsSlot(g, cat', q) && Some(q) != Some(r)
      ensures EntryOk(v, g, cat', q)
    {
      EmptyDirSlots(v, g, cat, h, q);
      GoneDirEntry(v, g, cat, h, q);
    }
  }

  lemma GoneDirEntry(v: Volume, g: Geometry, cat: Catalog, h: nat, q: Ref)
    requires Shaped(v, g) && Dir(h) in cat.chains && h in cat.up && q != cat.up[h]
    requires IsSlot(g, cat, q) && IsSlot(g, AsFile(cat, h), q) && EntryOk(v, g, cat, q)
    ensures EntryOk(v, g, AsFile(cat, h), q)
  {}

  lemma GoneDirFiles(v: Volume, g: Geometry, cat: Catalog, h: nat)
    requires Sound(v, g, cat) && Dir(h) in cat.chains && h != 0 && EmptyDir(v, g, cat, h) && h in cat.up
    ensures FilesOk(v, g, AsFile(cat, h), Some(cat.up[h]))
  {
    var cat', r := AsFile(cat, h), cat.up[h];
    forall q | File(q) in cat'.chains
      ensures IsSlot(g, cat', q) && (Some(q) != Some(r) ==> Named(SlotAt(v, g, q)) && !IsDir(SlotAt(v, g, q)))
    {
      EmptyDirSlots(v, g, cat, h, q);
      assert q == r || File(q) in cat.chains;
    }
  }

  lemma GoneDirDirs(v: Volume, g: Geometry, cat: Catalog, h: nat)
    requires Sound(v, g, cat) && Dir(h) in cat.chains && h != 0 && EmptyDir(v, g, cat, h) && h in cat.up
    ensures DirsOk(v, g, AsFile(cat, h), Some(cat.up[h]))
  {
    hide SoundBut, Named, IsDir, SlotAt;
    RootKnown(v, g, cat, None);
    var cat', r := AsFile(cat, h), cat.up[h];
    DirKnown(v, g, cat, None, h);
    forall k | Dir(k) in cat'.chains && k != 0
      ensures FirstOf(cat'.chains[Dir(k)]) == k && DirNamed(v, g, cat', Some(r), k)
    {
      DirKnown(v, g, cat, None, k);
      EmptyDirSlots(v, g, cat, h, cat.up[k]);
    }
  }

  lemma GoneDirUnique(v: Volume, g: Geometry, cat: Catalog, h: nat)
    requires Sound(v, g, cat) && Dir(h) in cat.chains && h != 0 && EmptyDir(v, g, cat, h) && h in cat.up
    ensures UniqueOk(v, g, AsFile(cat, h), Some(cat.up[h]))
  {
    var cat' := AsFile(cat, h);
    forall p, q
      ensures !Clash(v, g, cat', p, q)
    {
      EmptyDirSlots(v, g, cat, h, p);
      EmptyDirSlots(v, g, cat, h, q);
      assert !Clash(v, g, cat, p, q);
    }
  }

  lemma GoneDirTail(v: Volume, g: Geometry, cat: Catalog, h: nat)
    requires Sound(v, g, cat) && Dir(h) in cat.chains && h != 0 && h in cat.up
    ensures TailOk(v, g, AsFile(cat, h))
  {
    var cat' := AsFile(cat, h);
    forall d: nat, i: nat, j: nat, m: nat, n: nat | Dir(d) in cat'.chains
      ensures TailAt(v, g, DirUnits(cat', d), i, j, m, n)
    {
      assert DirUnits(cat', d) == DirUnits(cat, d);
      assert TailAt(v, g, DirUnits(cat, d), i, j, m, n);
    }
  }
}
