/** How much room a volume has, and so when a write succeeds. */
module Fat12Room {
  import opened Bytes
  import opened Paths
  import opened Fat12Layout
  import opened Fat12Journal
  import opened Fat12Chain
  import opened Fat12Dir
  import opened Fat12Sound
  import opened Fat12Lookup
  import opened Fat12Ops
  import opened Fat12Keeps
  import opened Fat12Write

  // ----- free clusters -----

  ghost function FreeClusters(fat: seq<nat>): set<nat> {
    set c: nat | 2 <= c < |fat| && fat[c] == FREE
  }

  /** The bytes that so many clusters hold. */
  ghost function Capacity(g: Geometry, clusters: nat): nat {
    clusters * g.UnitLen(2)
  }

  lemma CapacityIs(g: Geometry, clusters: nat)
    ensures Capacity(g, clusters) == Times(clusters, g.UnitLen(2))
  {
    TimesIsProduct(clusters, g.UnitLen(2));
  }

  /** Taking a cluster for a chain uses up that cluster and no other. */
  lemma TakeUses(v: Volume, g: Geometry, s: seq<nat>, c: nat, chunk: seq<byte>)
    requires Shaped(v, g) && IsChain(v.fat, s) && 2 <= c < g.Entries() <= BAD && |chunk| <= g.UnitLen(2)
    requires v.fat[c] == FREE
    ensures Clusters(g, s)
    ensures FreeClusters(Taken(v, s, c, chunk, g.UnitLen(2)).fat) == FreeClusters(v.fat) - {c}
  {
    ChainUnits(v, g, s);
    assert s != [] ==> EOC_MIN <= v.fat[s[|s| - 1]];
  }

  /** Growing runs full exactly when the data needs more than the free clusters hold. */
  lemma {:induction false} GrowFull(v: Volume, g: Geometry, s: seq<nat>, data: seq<byte>)
    requires Shaped(v, g) && Small(g) && IsChain(v.fat, s)
    ensures Clusters(g, s)
    ensures Grow(v, g, s, data).full <==> Capacity(g, |FreeClusters(v.fat)|) < |data|
    decreases |data|
  {
    hide IsChain, Run, TakeOps, Capacity, Times, OpsOk;
    ChainUnits(v, g, s);
    var k, cb := |FreeClusters(v.fat)|, g.UnitLen(2);
    CapacityIs(g, k);
    if data != [] {
      var free := FirstFree(v.fat, 2);
      if free.None? {
        assert FreeClusters(v.fat) == {};
        TimesZero(cb);
      } else {
        var c, n := free.value, Min(|data|, cb);
        TakeRun(v, g, s, c, data[..n]);
        TakeReads(v, g, s, c, data[..n]);
        TakeUses(v, g, s, c, data[..n]);
        var y := Taken(v, s, c, data[..n], cb);
        assert c in FreeClusters(v.fat);
        assert |FreeClusters(y.fat)| == k - 1;
        GrowFull(y, g, s + [c], data[n..]);
        CapacityIs(g, k - 1);
        TimesNext(k - 1, cb);
      }
    }
  }

  lemma TimesZero(m: nat)
    ensures Times(0, m) == 0
  {}

  lemma TimesNext(n: nat, m: nat)
    ensures Times(n + 1, m) == Times(n, m) + m
  {}

  ghost function Elements(s: seq<nat>): set<nat> {
    set c | c in s
  }

  lemma {:induction false} ElementsCount(s: seq<nat>)
    requires forall i, j :: 0 <= i < j < |s| ==> s[i] != s[j]
    ensures |Elements(s)| == |s|
  {
    if s != [] {
      var front, last := s[..|s| - 1], s[|s| - 1];
      ElementsCount(front);
      assert s == front + [last];
      assert Elements(s) == Elements(front) + {last};
      assert last !in front;
    }
  }

  lemma FreedCount(fat: seq<nat>, f: seq<nat>, s: seq<nat>)
    requires |f| == |fat| && forall c :: 0 <= c < |fat| ==> f[c] == if c in s then FREE else fat[c]
    requires forall c :: c in s ==> 2 <= c < |fat| && fat[c] != FREE
    requires forall i, j :: 0 <= i < j < |s| ==> s[i] != s[j]
    ensures |FreeClusters(f)| == |FreeClusters(fat)| + |s|
  {
    assert FreeClusters(f) == FreeClusters(fat) + Elements(s);
    assert FreeClusters(fat) !! Elements(s);
    ElementsCount(s);
  }

  /** Freeing a file's chain frees just as many clusters as it has. */
  lemma FreedRoom(v: Volume, y: Volume, g: Geometry, cat: Catalog, r: Ref)
    requires SoundBut(v, g, cat, Some(r)) && File(r) in cat.chains
    requires LinksInside(v.fat) && InTable(v.fat, FirstOf(cat.chains[File(r)]))
    requires OpsOk(FreeHead(v, FirstOf(cat.chains[File(r)])), g)
    requires Shaped(v, g) && y == Run(v, g, FreeHead(v, FirstOf(cat.chains[File(r)])))
    ensures |FreeClusters(y.fat)| == |FreeClusters(v.fat)| + |cat.chains[File(r)]|
  {
    hide SoundBut, FreeOps, FreeFat, LinksInside, OpsOk, Run, FreeClusters, Allocated;
    var s := cat.chains[File(r)];
    SoundAllocated(v, g, cat, Some(r));
    ChainHead(v.fat, cat, r);
    if s == [] {
      RunNil(v, g);
    } else {
      FreeOpsRun(v, g, s[0]);
      ReleaseKeeps(v.fat, cat.chains, cat.owner, File(r));
      ChainInside(v.fat, cat, r);
      FreedCount(v.fat, FreeFat(v.fat, s[0]), s);
    }
  }

  lemma SoundAllocated(v: Volume, g: Geometry, cat: Catalog, x: Option<Ref>)
    requires SoundBut(v, g, cat, x)
    ensures Allocated(v.fat, cat.chains, cat.owner) && Shaped(v, g) && |v.fat| <= BAD
  {}

  lemma ChainInside(fat: seq<nat>, cat: Catalog, r: Ref)
    requires Allocated(fat, cat.chains, cat.owner) && File(r) in cat.chains && |fat| <= BAD
    ensures var s := cat.chains[File(r)];
            && (forall c :: c in s ==> 2 <= c < |fat| && fat[c] != FREE)
            && (forall i, j :: 0 <= i < j < |s| ==> s[i] != s[j])
  {
    var s := cat.chains[File(r)];
    assert IsChain(fat, s);
    forall i, j | 0 <= i < j < |s|
      ensures s[i] != s[j]
    {
      ChainAcyclic(fat, s, i, j);
    }
    forall c | c in s
      ensures fat[c] != FREE
    {
      var i :| 0 <= i < |s| && s[i] == c;
      assert c in cat.owner;
    }
  }

  // ----- what a path search finds -----

  /** The 8.3 name a path is written under. */
  function LeafName(path: cstring): (n: name83)
    requires SplitPath(path).Split? && FileName(SplitPath(path).leaf).Some?
  {
    FileName(SplitPath(path).leaf).value
  }

  lemma TargetNamed(v: Volume, g: Geometry, cat: Catalog, path: cstring)
    requires Sound(v, g, cat)
    ensures var t := FileTarget(v, g, cat, path);
            && (!t.Bad? ==> && SplitPath(path).Split? && FileName(SplitPath(path).leaf).Some?
                            && Dir(t.dir) in cat.chains
                            && LeafName(path)[0] == Upper(SplitPath(path).leaf[0]) && LeafName(path)[0] !in {DOT, 0})
            && (t.Present? ==> && IsSlot(g, cat, t.ref) && Home(cat, t.ref) == t.dir && Named(SlotAt(v, g, t.ref))
                               && Name(SlotAt(v, g, t.ref)) == LeafName(path))
            && (t.Missing? ==>
                  UnitsIn(v, DirUnits(cat, t.dir)) && Search(v, DirUnits(cat, t.dir), LeafName(path)).None?)
            && (t.Bad? ==> t.rc != Okay && t.rc != NoSpace)
  {
    var sp := SplitPath(path);
    if sp.Split? {
      FileNamePlain(sp.leaf);
      ResolveCodes(v, g, cat, 0, Components(sp.parent));
      assert FileName(sp.leaf).Some? ==> sp.leaf != [];
    }
    var t := FileTarget(v, g, cat, path);
    if t.Missing? {
      UnitsOk(v, g, cat, None, t.dir);
    }
  }

  lemma {:induction false} ResolveCodes(v: Volume, g: Geometry, cat: Catalog, d: nat, names: seq<seq<byte>>)
    requires Sound(v, g, cat) && Dir(d) in cat.chains
    ensures var at := Resolve(v, g, cat, d, names); at.Fail? ==> at.rc in {Invalid, NotFound, NotDirectory}
    decreases |names|
  {
    hide SoundBut;
    SoundShaped(v, g, cat, None);
    if names != [] && |names[0]| < NAME_CAP && DirName(names[0]).Some? {
      UnitsOk(v, g, cat, None, d);
      var f := Search(v, DirUnits(cat, d), DirName(names[0]).value);
      if f.Some? {
        SearchFound(v, g, cat, d, names[0]);
        if IsDir(SlotAt(v, g, f.value)) {
          ResolveCodes(v, g, cat, Head(SlotAt(v, g, f.value)), names[1..]);
        }
      }
    }
  }

  lemma DirTargetCodes(v: Volume, g: Geometry, cat: Catalog, path: cstring)
    requires Sound(v, g, cat)
    ensures var t := DirTarget(v, g, cat, path); t.Bad? ==> t.rc in {Invalid, NotFound, NotDirectory}
  {
    hide SoundBut, Resolve, DirName;
    RootKnown(v, g, cat, None);
    var sp := SplitPath(path);
    if sp.Split? {
      ResolveCodes(v, g, cat, 0, Components(sp.parent));
    }
  }

  // ----- when commands succeed -----

  /** A directory can be made: its name is new, a slot is vacant and a cluster is free. */
  ghost predicate MkdirFits(v: Volume, g: Geometry, cat: Catalog, path: cstring)
    requires Sound(v, g, cat)
  {
    var t := DirTarget(v, g, cat, path);
    t.Missing? && (UnitsOk(v, g, cat, None, t.dir); SearchVacant(v, DirUnits(cat, t.dir)).Some?) &&
      FreeClusters(v.fat) != {}
  }

  /** A file of `n` bytes can be written: over a file, whose clusters can be used again, or into a vacant slot. */
  ghost predicate WriteFits(v: Volume, g: Geometry, cat: Catalog, path: cstring, n: nat)
    requires Sound(v, g, cat)
  {
    var t := FileTarget(v, g, cat, path);
    match t
    case Bad(_) => false
    case Present(_, r) =>
      EntryKnown(v, g, cat, path);
      !IsDir(SlotAt(v, g, r)) && n <= Capacity(g, |FreeClusters(v.fat)| + |cat.chains[File(r)]|)
    case Missing(d) =>
      UnitsOk(v, g, cat, None, d);
      SearchVacant(v, DirUnits(cat, d)).Some? && n <= Capacity(g, |FreeClusters(v.fat)|)
  }

  /** Making the directory would store an entry that reads as deleted. */
  ghost predicate LosesDir(v: Volume, g: Geometry, cat: Catalog, path: cstring)
    requires Sound(v, g, cat)
  {
    !CleanLeaf(path) && MkdirFits(v, g, cat, path)
  }

  /** Writing the file would store an entry that reads as deleted, with clusters behind it. */
  ghost predicate LosesFile(v: Volume, g: Geometry, cat: Catalog, path: cstring, n: nat)
    requires Sound(v, g, cat)
  {
    !CleanLeaf(path) && 0 < n && WriteFits(v, g, cat, path, n)
  }

  lemma EntryKnown(v: Volume, g: Geometry, cat: Catalog, path: cstring)
    requires Sound(v, g, cat) && FileTarget(v, g, cat, path).Present?
    ensures var r := FileTarget(v, g, cat, path).ref;
            Shaped(v, g) && IsSlot(g, cat, r) && Named(SlotAt(v, g, r)) &&
              (!IsDir(SlotAt(v, g, r)) ==> File(r) in cat.chains)
  {
    hide SoundBut, Search, Resolve, FileName, SplitPath;
    SoundShaped(v, g, cat, None);
  }

  lemma MkdirAnswers(v: Volume, g: Geometry, cat: Catalog, path: cstring)
    requires Sound(v, g, cat)
    ensures Shaped(v, g)
    ensures Mkdir(v, g, cat, path).ops != [] <==> MkdirFits(v, g, cat, path)
    ensures Mkdir(v, g, cat, path).rc ==
            match DirTarget(v, g, cat, path)
            case Bad(rc) => rc
            case Present(_, r) => if IsDir(SlotAt(v, g, r)) then Okay else Exists
            case Missing(_) => if MkdirFits(v, g, cat, path) then Okay else NoSpace
  {
    hide SoundBut, Search, SearchVacant, Resolve, DirName, SplitPath;
    SoundShaped(v, g, cat, None);
    var free := FirstFree(v.fat, 2);
    assert free.Some? ==> free.value in FreeClusters(v.fat);
  }

  /** Unlinking succeeds exactly for files; otherwise the code says what is in the way. */
  lemma UnlinkAnswers(v: Volume, g: Geometry, cat: Catalog, path: cstring)
    requires Sound(v, g, cat)
    ensures Shaped(v, g)
    ensures Unlink(v, g, cat, path).rc ==
            match FileTarget(v, g, cat, path)
            case Bad(rc) => rc
            case Missing(_) => NotFound
            case Present(_, r) => if IsDir(SlotAt(v, g, r)) then IsDirectory else Okay
  {
    hide SoundBut, Search, Locate, FileName, SplitPath;
    SoundShaped(v, g, cat, None);
  }

  /** Some slot of directory `h` names something. */
  ghost predicate Occupied(v: Volume, g: Geometry, cat: Catalog, h: nat)
    requires Shaped(v, g)
  {
    exists q :: IsSlot(g, cat, q) && Home(cat, q) == h && Named(SlotAt(v, g, q))
  }

  /** Removing succeeds exactly for empty directories. */
  lemma RmdirAnswers(v: Volume, g: Geometry, cat: Catalog, path: cstring)
    requires Sound(v, g, cat)
    ensures Shaped(v, g)
    ensures Rmdir(v, g, cat, path).rc ==
            match DirTarget(v, g, cat, path)
            case Bad(rc) => rc
            case Missing(_) => NotFound
            case Present(_, r) =>
              var s := SlotAt(v, g, r);
              if !IsDir(s) then NotDirectory else if Occupied(v, g, cat, Head(s)) then NotEmpty else Okay
  {
    hide SoundBut, Search, Resolve, DirName, SplitPath, Head, IsDir, Named;
    SoundShaped(v, g, cat, None);
    var t := DirTarget(v, g, cat, path);
    if t.Present? && IsDir(SlotAt(v, g, t.ref)) {
      SubdirHead(v, g, cat, t.ref);
    }
  }

  lemma SubdirHead(v: Volume, g: Geometry, cat: Catalog, r: Ref)
    requires Sound(v, g, cat) && IsSlot(g, cat, r) && Named(SlotAt(v, g, r)) && IsDir(SlotAt(v, g, r))
    ensures 2 <= Head(SlotAt(v, g, r))
  {
    assert EntryOk(v, g, cat, r);
    var h := Head(SlotAt(v, g, r));
    DirKnown(v, g, cat, None, h);
    assert IsChain(v.fat, cat.chains[Dir(h)]);
  }

  lemma FillAnswers(v: Volume, g: Geometry, cat: Catalog, r: Ref, leaf: name83, data: seq<byte>, had: bool)
    requires Ready(v, g, cat, r, leaf) && Small(g) && |data| < WORD
    ensures Fill(v, g, cat, r, leaf, data, had).rc == if |data| <= Capacity(g, |FreeClusters(v.fat)|) then Okay
            else NoSpace
  {
    hide SoundBut, UsedBefore, FreshName, Grow, IsChain;
    SoundShaped(v, g, cat, Some(r));
    NothingChain(v.fat);
    GrowFull(v, g, [], data);
  }

  /** A write succeeds exactly when it fits; otherwise the code says what is in the way. */
  lemma WriteAnswers(v: Volume, g: Geometry, cat: Catalog, path: cstring, data: seq<byte>)
    requires Sound(v, g, cat) && Small(g) && |data| < WORD
    ensures Shaped(v, g)
    ensures Write(v, g, cat, path, data).rc == Okay <==> WriteFits(v, g, cat, path, |data|)
    ensures Write(v, g, cat, path, data).rc ==
            match FileTarget(v, g, cat, path)
            case Bad(rc) => rc
            case Present(_, r) =>
              if IsDir(SlotAt(v, g, r)) then Exists else if WriteFits(v, g, cat, path, |data|) then Okay else NoSpace
            case Missing(_) => if WriteFits(v, g, cat, path, |data|) then Okay else NoSpace
  {
    hide SoundBut, Search, SearchVacant, Locate, FileName, SplitPath, Fill, Ready, FreeHead, Run, SlotAt, IsDir, Head,
         Capacity;
    SoundShaped(v, g, cat, None);
    var t := FileTarget(v, g, cat, path);
    TargetNamed(v, g, cat, path);
    if t.Present? {
      EntryKnown(v, g, cat, path);
      if !IsDir(SlotAt(v, g, t.ref)) {
        OverAnswers(v, g, cat, t.ref, data);
      }
    } else if t.Missing? {
      UnitsOk(v, g, cat, None, t.dir);
      var f := SearchVacant(v, DirUnits(cat, t.dir));
      if f.Some? {
        var leaf := FileName(SplitPath(path).leaf).value;
        FileNamePlain(SplitPath(path).leaf);
        ReadyNew(v, g, cat, t.dir, f.value, leaf);
        FillAnswers(v, g, WithChain(cat, f.value, []), f.value, leaf, data, false);
      }
    }
  }

  lemma OverAnswers(v: Volume, g: Geometry, cat: Catalog, r: Ref, data: seq<byte>)
    requires Sound(v, g, cat) && Small(g) && |data| < WORD
    requires IsSlot(g, cat, r) && Shaped(v, g) && Named(SlotAt(v, g, r)) && !IsDir(SlotAt(v, g, r))
    requires File(r) in cat.chains
    ensures LinksInside(v.fat) && InTable(v.fat, Head(SlotAt(v, g, r))) && OpsOk(FreeHead(v, Head(SlotAt(v, g, r))), g)
    ensures var s := SlotAt(v, g, r); var y := Run(v, g, FreeHead(v, Head(s)));
            && Ready(y, g, Truncated(cat, r), r, Name(s))
            && Fill(y, g, Truncated(cat, r), r, Name(s), data, true).rc ==
               if |data| <= Capacity(g, |FreeClusters(v.fat)| + |cat.chains[File(r)]|) then Okay else NoSpace
  {
    hide SoundBut, SlotAt, Named, IsDir, Head, Name, Ready, Fill, Run, FreeHead, Capacity, LinksInside, OpsOk;
    ReadyOver(v, g, cat, r);
    EntryAgrees(v, g, cat, r);
    SetAside(v, g, cat, r);
    var y := Run(v, g, FreeHead(v, Head(SlotAt(v, g, r))));
    FreedRoom(v, y, g, cat, r);
    FillAnswers(y, g, Truncated(cat, r), r, Name(SlotAt(v, g, r)), data, true);
  }
}
