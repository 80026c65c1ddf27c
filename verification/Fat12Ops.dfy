/**
 The operations of the driver as journals of updates: creating directories,
 writing, unlinking and removing, each with the catalog it leaves behind.
 */
module Fat12Ops {
  import opened Bytes
  import opened Paths
  import opened Fat12Layout
  import opened Fat12Journal
  import opened Fat12Chain
  import opened Fat12Dir
  import opened Fat12Sound
  import opened Fat12Lookup

  datatype Rc = Okay | NotFound | Exists | NotDirectory | Invalid | NoSpace | IsDirectory | NotEmpty | ReadOnly

  // ----- paths -----

  /** The position of the last slash, or 0. */
  function LastSlash(p: seq<byte>): (n: nat)
    ensures n == 0 || (n < |p| && p[n] == SLASH)
    ensures forall i :: n < i < |p| ==> p[i] != SLASH
  {
    if p == [] then 0
    else if p[|p| - 1] == SLASH then |p| - 1
    else LastSlash(p[..|p| - 1])
  }

  datatype Split = NoSplit | Split(parent: seq<byte>, leaf: cstring)

  /** The directory part and the last component of an absolute path. */
  function SplitPath(path: cstring): (r: Split)
    ensures r.Split? ==> Components(path) == Components(r.parent) + [r.leaf]
    ensures r.Split? ==> r.parent != [] && r.parent[0] == SLASH && r.leaf != []
  {
    var slash := LastSlash(path);
    if path == [] || path[0] != SLASH || PATH_CAP <= |path| || |path| <= 1 || slash == |path| - 1 ||
       NAME_CAP <= |path| - slash - 1
    then NoSplit
    else
      var parent, leaf := if slash == 0 then [SLASH] else path[..slash], path[slash + 1..];
      assert path == path[..slash] + [SLASH] + leaf;
      ComponentsSplit(path[..slash], leaf);
      assert slash == 0 ==> Components(parent) == [] && path[..slash] == [];
      Split(parent, leaf)
  }

  datatype Resolved = Directory(head: nat) | Fail(rc: Rc)

  /** Follow directory names from directory `d` on. */
  ghost function Resolve(v: Volume, g: Geometry, cat: Catalog, d: nat, names: seq<seq<byte>>): (r: Resolved)
    requires Sound(v, g, cat) && Dir(d) in cat.chains
    ensures r.Directory? ==> Dir(r.head) in cat.chains
    decreases |names|
  {
    if names == [] then Directory(d)
    else if NAME_CAP <= |names[0]| || DirName(names[0]).None? then Fail(Invalid)
    else
      var name := DirName(names[0]).value;
      UnitsOk(v, g, cat, None, d);
      var f := Search(v, DirUnits(cat, d), name);
      if f.None? then Fail(NotFound)
      else
        SearchFound(v, g, cat, d, names[0]);
        var s := SlotAt(v, g, f.value);
        if !IsDir(s) then Fail(NotDirectory)
        else Resolve(v, g, cat, Head(s), names[1..])
  }

  lemma SearchFound(v: Volume, g: Geometry, cat: Catalog, d: nat, name: seq<byte>)
    requires Sound(v, g, cat) && Dir(d) in cat.chains && DirName(name).Some?
    ensures UnitsIn(v, DirUnits(cat, d))
    ensures var f := Search(v, DirUnits(cat, d), DirName(name).value);
            f.Some? ==> IsSlot(g, cat, f.value) && EntryOk(v, g, cat, f.value) && Named(SlotAt(v, g, f.value))
  {
    var n := DirName(name).value;
    assert name[0] in name;
    SearchFinds(v, g, cat, d, n);
  }

  datatype Target = Missing(dir: nat) | Present(dir: nat, ref: Ref) | Bad(rc: Rc)

  /** Find the entry with an 8.3 name in the directory that a path leads to. */
  ghost function Locate(v: Volume, g: Geometry, cat: Catalog, sp: Split, name: Option<name83>): (t: Target)
    requires Sound(v, g, cat)
    requires name.Some? ==> name.value[0] != DOT
    ensures t.Missing? ==> sp.Split? && name.Some? && Dir(t.dir) in cat.chains
    ensures t.Present? ==>
              sp.Split? && name.Some? && IsSlot(g, cat, t.ref) && Home(cat, t.ref) == t.dir &&
                Dir(t.dir) in cat.chains &&
                           Named(SlotAt(v, g, t.ref)) && Name(SlotAt(v, g, t.ref)) == name.value &&
                             EntryOk(v, g, cat, t.ref)
  {
    if sp.NoSplit? || name.None? then Bad(Invalid)
    else
      var at := Resolve(v, g, cat, 0, Components(sp.parent));
      if at.Fail? then Bad(at.rc)
      else
        SearchFinds(v, g, cat, at.head, name.value);
        var f := Search(v, DirUnits(cat, at.head), name.value);
        if f.None? then Missing(at.head) else Present(at.head, f.value)
  }

  ghost function FileTarget(v: Volume, g: Geometry, cat: Catalog, path: cstring): (t: Target)
    requires Sound(v, g, cat)
  {
    var sp := SplitPath(path);
    if sp.NoSplit? then Bad(Invalid)
    else
      FileNamePlain(sp.leaf);
      Locate(v, g, cat, sp, FileName(sp.leaf))
  }

  ghost function DirTarget(v: Volume, g: Geometry, cat: Catalog, path: cstring): (t: Target)
    requires Sound(v, g, cat)
  {
    var sp := SplitPath(path);
    if sp.NoSplit? then Bad(Invalid)
    else
      DirNamePlain(sp.leaf);
      Locate(v, g, cat, sp, DirName(sp.leaf))
  }

  // ----- outcomes -----

  /** A return code and the updates made. */
  datatype Outcome = Outcome(rc: Rc, ops: seq<Op>)

  ghost function PutSlot(r: Ref, s: seq<byte>): Op {
    Put(r.unit, SLOT * r.index, s)
  }

  ghost function FreeHead(v: Volume, head: nat): (ops: seq<Op>)
    requires LinksInside(v.fat) && InTable(v.fat, head)
  {
    if head == 0 then [] else FreeOps(v.fat, head)
  }

  /** Mark an entry deleted, then free the chain it named. */
  ghost function DropOps(v: Volume, r: Ref, head: nat): seq<Op>
    requires LinksInside(v.fat) && InTable(v.fat, head)
  {
    [PutSlot(r, [DELETED])] + FreeHead(v, head)
  }

  lemma HeadInTable(v: Volume, g: Geometry, cat: Catalog, r: Ref)
    requires Sound(v, g, cat) && IsSlot(g, cat, r) && Named(SlotAt(v, g, r))
    ensures LinksInside(v.fat) && InTable(v.fat, Head(SlotAt(v, g, r)))
  {
    LinksStayInside(v.fat, cat.chains, cat.owner);
    assert EntryOk(v, g, cat, r);
    var s := SlotAt(v, g, r);
    if IsDir(s) {
      assert FirstOf(cat.chains[Dir(Head(s))]) == Head(s);
      assert IsChain(v.fat, cat.chains[Dir(Head(s))]);
    } else {
      assert IsChain(v.fat, cat.chains[File(r)]);
    }
  }

  /** Unlinking marks the entry deleted and then frees the chain. */
  ghost function Unlink(v: Volume, g: Geometry, cat: Catalog, path: cstring): (o: Outcome)
    requires Sound(v, g, cat)
  {
    var t := FileTarget(v, g, cat, path);
    match t
    case Bad(rc) => Outcome(rc, [])
    case Missing(_) => Outcome(NotFound, [])
    case Present(_, r) =>
      var s := SlotAt(v, g, r);
      if IsDir(s) then Outcome(IsDirectory, [])
      else
        HeadInTable(v, g, cat, r);
        Outcome(Okay, DropOps(v, r, Head(s)))
  }

  /** Removing an empty directory does the same with the directory's entry and chain. */
  ghost function Rmdir(v: Volume, g: Geometry, cat: Catalog, path: cstring): (o: Outcome)
    requires Sound(v, g, cat)
  {
    var t := DirTarget(v, g, cat, path);
    match t
    case Bad(rc) => Outcome(rc, [])
    case Missing(_) => Outcome(NotFound, [])
    case Present(_, r) =>
      var s := SlotAt(v, g, r);
      if !IsDir(s) || Head(s) < 2 then Outcome(NotDirectory, [])
      else if !EmptyDir(v, g, cat, Head(s)) then Outcome(NotEmpty, [])
      else
        HeadInTable(v, g, cat, r);
        Outcome(Okay, DropOps(v, r, Head(s)))
  }

  /** Creating a directory allocates, clears and names one cluster and gives it its dot entries. */
  ghost function Mkdir(v: Volume, g: Geometry, cat: Catalog, path: cstring): (o: Outcome)
    requires Sound(v, g, cat)
  {
    var t := DirTarget(v, g, cat, path);
    match t
    case Bad(rc) => Outcome(rc, [])
    case Present(_, r) => Outcome(if IsDir(SlotAt(v, g, r)) then Okay else Exists, [])
    case Missing(d) =>
      VacantFinds(v, g, cat, d);
      var f, c := SearchVacant(v, DirUnits(cat, d)), FirstFree(v.fat, 2);
      if f.None? || c.None? then Outcome(NoSpace, [])
      else
        var r, leaf := f.value, DirName(SplitPath(path).leaf).value;
        Outcome(Okay, MkdirOps(g, r, c.value, d, leaf))
  }

  /** The updates that take cluster `c`. */
  ghost function AllocOps(g: Geometry, c: nat): seq<Op> {
    [Link(c, EOC), Put(c, 0, Zeros(g.UnitLen(2)))]
  }

  ghost function MkdirOps(g: Geometry, r: Ref, c: nat, parent: nat, leaf: name83): seq<Op> {
    [Link(c, EOC), Put(c, 0, Zeros(g.UnitLen(2))),
     PutSlot(r, MakeEntry(leaf, ATTR_DIRECTORY, c, 0)),
     Put(c, 0, MakeEntry(DOT_NAME, ATTR_DIRECTORY, c, 0)),
     Put(c, SLOT, MakeEntry(DOTDOT_NAME, ATTR_DIRECTORY, parent, 0))]
  }

  // ----- growing a chain -----

  /** Updates that extend a chain, the chain, and whether the volume ran full. */
  datatype Grown = Grown(ops: seq<Op>, chain: seq<nat>, full: bool)

  /** Take a cluster: mark it, clear it, link it behind the chain, fill it. */
  ghost function TakeOps(g: Geometry, s: seq<nat>, c: nat, chunk: seq<byte>): seq<Op> {
    AllocOps(g, c) +
    (if s == [] then [] else [Link(s[|s| - 1], c)]) +
    [Put(c, 0, chunk)]
  }

  ghost predicate Clusters(g: Geometry, s: seq<nat>) {
    forall i :: 0 <= i < |s| ==> 2 <= s[i] < g.Entries()
  }

  lemma TakeOk(g: Geometry, s: seq<nat>, c: nat, chunk: seq<byte>)
    requires Clusters(g, s) && 2 <= c < g.Entries() < 4096 && |chunk| <= g.UnitLen(2)
    ensures OpsOk(TakeOps(g, s, c, chunk), g)
  {}

  /** Extend the chain `s` cluster by cluster until `data` is stored. */
  ghost function Grow(v: Volume, g: Geometry, s: seq<nat>, data: seq<byte>): (r: Grown)
    requires Shaped(v, g) && 0 < g.spc && g.Entries() <= BAD && Clusters(g, s)
    ensures OpsOk(r.ops, g) && Clusters(g, r.chain)
    decreases |data|
  {
    if data == [] then Grown([], s, false)
    else
      var free := FirstFree(v.fat, 2);
      if free.None? then Grown([], s, true)
      else
        var c, n := free.value, Min(|data|, g.UnitLen(2));
        TakeOk(g, s, c, data[..n]);
        var take := TakeOps(g, s, c, data[..n]);
        var rest := Grow(Run(v, g, take), g, s + [c], data[n..]);
        Grown(take + rest.ops, rest.chain, rest.full)
  }

  // ----- what growing does -----

  /** The bytes of a sequence of clusters, one after the other. */
  ghost function ReadUnits(v: Volume, s: seq<nat>): (r: seq<byte>)
    requires UnitsIn(v, s)
  {
    if s == [] then [] else ReadUnits(v, s[..|s| - 1]) + v.units[s[|s| - 1]]
  }

  lemma {:induction false} ReadUnitsSame(v: Volume, w: Volume, s: seq<nat>)
    requires UnitsIn(v, s) && UnitsIn(w, s)
    requires forall i :: 0 <= i < |s| ==> w.units[s[i]] == v.units[s[i]]
    ensures ReadUnits(w, s) == ReadUnits(v, s)
  {
    if s != [] {
      ReadUnitsSame(v, w, s[..|s| - 1]);
    }
  }

  lemma {:induction false} ReadUnitsLength(v: Volume, s: seq<nat>, n: nat)
    requires UnitsIn(v, s) && forall i :: 0 <= i < |s| ==> |v.units[s[i]]| == n
    ensures |ReadUnits(v, s)| == Times(|s|, n)
  {
    if s != [] {
      ReadUnitsLength(v, s[..|s| - 1], n);
    }
  }

  ghost function Taken(v: Volume, s: seq<nat>, c: nat, chunk: seq<byte>, cb: nat): Volume
    requires 2 <= c < |v.fat| && c < |v.units| && |chunk| <= cb && (s != [] ==> s[|s| - 1] < |v.fat|)
  {
    Volume(if s == [] then v.fat[c := EOC] else v.fat[c := EOC][s[|s| - 1] := c],
           v.units[c := chunk + Zeros(cb - |chunk|)])
  }

  /** What taking a cluster comes to. */
  lemma TakeRun(v: Volume, g: Geometry, s: seq<nat>, c: nat, chunk: seq<byte>)
    requires Shaped(v, g) && Clusters(g, s) && 2 <= c < g.Entries() <= BAD && |chunk| <= g.UnitLen(2)
    ensures OpsOk(TakeOps(g, s, c, chunk), g)
    ensures Run(v, g, TakeOps(g, s, c, chunk)) == Taken(v, s, c, chunk, g.UnitLen(2))
  {
    hide Run, Apply, OpsOk, Splice;
    TakeOk(g, s, c, chunk);
    var cb := g.UnitLen(2);
    var a, b, e := Link(c, EOC), Put(c, 0, Zeros(cb)), Put(c, 0, chunk);
    var l: seq<Op> := if s == [] then [] else [Link(s[|s| - 1], c)];
    TakeParts(g, s, c, chunk);
    var v1 := Apply(v, g, a);
    var v2 := Apply(v1, g, b);
    RunOne(v, g, a);
    RunOne(v1, g, b);
    RunConcat(v, g, [a], [b]);
    var v3 := if s == [] then v2 else Apply(v2, g, Link(s[|s| - 1], c));
    RunNil(v2, g);
    if s != [] {
      RunOne(v2, g, Link(s[|s| - 1], c));
    }
    RunConcat(v, g, [a] + [b], l);
    RunOne(v3, g, e);
    RunConcat(v, g, [a] + [b] + l, [e]);
    TakenIs(v, g, s, c, chunk);
  }

  lemma TakeParts(g: Geometry, s: seq<nat>, c: nat, chunk: seq<byte>)
    requires Clusters(g, s) && 2 <= c < g.Entries() <= BAD && |chunk| <= g.UnitLen(2)
    ensures Link(c, EOC).Ok(g) && Put(c, 0, Zeros(g.UnitLen(2))).Ok(g) && Put(c, 0, chunk).Ok(g)
    ensures s != [] ==> Link(s[|s| - 1], c).Ok(g)
    ensures var l: seq<Op> := if s == [] then [] else [Link(s[|s| - 1], c)];
            OpsOk(l, g) && TakeOps(g, s, c, chunk) ==
              [Link(c, EOC)] + [Put(c, 0, Zeros(g.UnitLen(2)))] + l + [Put(c, 0, chunk)]
  {}

  lemma TakenIs(v: Volume, g: Geometry, s: seq<nat>, c: nat, chunk: seq<byte>)
    requires Shaped(v, g) && Clusters(g, s) && 2 <= c < g.Entries() <= BAD && |chunk| <= g.UnitLen(2)
    requires Link(c, EOC).Ok(g) && Put(c, 0, Zeros(g.UnitLen(2))).Ok(g) && Put(c, 0, chunk).Ok(g)
    requires s != [] ==> Link(s[|s| - 1], c).Ok(g)
    ensures var v2 := Apply(Apply(v, g, Link(c, EOC)), g, Put(c, 0, Zeros(g.UnitLen(2))));
            var v3 := if s == [] then v2 else Apply(v2, g, Link(s[|s| - 1], c));
            Apply(v3, g, Put(c, 0, chunk)) == Taken(v, s, c, chunk, g.UnitLen(2))
  {
    var cb := g.UnitLen(2);
    assert Splice(Splice(v.units[c], 0, Zeros(cb)), 0, chunk) == chunk + Zeros(cb - |chunk|);
    assert v.units[c := Splice(v.units[c], 0, Zeros(cb))][c := chunk + Zeros(cb - |chunk|)] ==
           v.units[c := chunk + Zeros(cb - |chunk|)];
  }

  /**
   Growing the chain of the file set aside keeps the volume consistent and every
   other file and directory as it was.
   */
  lemma {:induction false} GrowKeeps(v: Volume, g: Geometry, cat: Catalog, r: Ref, data: seq<byte>)
    returns (w: Volume, cat': Catalog)
    requires SoundBut(v, g, cat, Some(r)) && File(r) in cat.chains && 0 < g.spc && g.Entries() <= BAD
    ensures Clusters(g, cat.chains[File(r)])
    ensures w == Run(v, g, Grow(v, g, cat.chains[File(r)], data).ops)
    ensures SoundBut(w, g, cat', Some(r)) && Shaped(v, g) && Shaped(w, g) && Elsewhere(v, w, g, cat, cat', r)
    ensures File(r) in cat'.chains && cat'.chains[File(r)] == Grow(v, g, cat.chains[File(r)], data).chain
    decreases |data|
  {
    hide SoundBut, Taken, Elsewhere, TakeOps;
    var s, cb := cat.chains[File(r)], g.UnitLen(2);
    FileChain(v, g, cat, r);
    var free := FirstFree(v.fat, 2);
    if data == [] || free.None? {
      w, cat' := v, cat;
      ElsewhereSelf(v, g, cat, r);
    } else {
      var c, n := free.value, Min(|data|, cb);
      var y := Taken(v, s, c, data[..n], cb);
      TakeRun(v, g, s, c, data[..n]);
      var mid := TakeKeeps(v, g, cat, r, c, data[..n]);
      RootKnown(y, g, mid, Some(r));
      w, cat' := GrowKeeps(y, g, mid, r, data[n..]);
      RootKnown(w, g, cat', Some(r));
      ElsewhereTransitive(v, y, w, g, cat, mid, cat', r);
      RunConcat(v, g, TakeOps(g, s, c, data[..n]), Grow(y, g, s + [c], data[n..]).ops);
    }
  }

  lemma FileChain(v: Volume, g: Geometry, cat: Catalog, r: Ref)
    requires SoundBut(v, g, cat, Some(r)) && File(r) in cat.chains
    ensures Shaped(v, g) && Clusters(g, cat.chains[File(r)])
  {
    assert IsChain(v.fat, cat.chains[File(r)]);
  }

  lemma ElsewhereSelf(v: Volume, g: Geometry, cat: Catalog, r: Ref)
    requires Shaped(v, g) && File(r) in cat.chains
    ensures Elsewhere(v, v, g, cat, cat, r)
  {}

  lemma TakeKeeps(v: Volume, g: Geometry, cat: Catalog, r: Ref, c: nat, chunk: seq<byte>) returns (cat': Catalog)
    requires SoundBut(v, g, cat, Some(r)) && File(r) in cat.chains && g.Entries() <= BAD
    requires 2 <= c < g.Entries() && v.fat[c] == FREE && |chunk| <= g.UnitLen(2)
    requires Clusters(g, cat.chains[File(r)])
    ensures var y := Taken(v, cat.chains[File(r)], c, chunk, g.UnitLen(2));
            SoundBut(y, g, cat', Some(r)) && Elsewhere(v, y, g, cat, cat', r)
    ensures File(r) in cat'.chains && cat'.chains[File(r)] == cat.chains[File(r)] + [c]
  {
    var y := Taken(v, cat.chains[File(r)], c, chunk, g.UnitLen(2));
    assert OnlyUnit(v, y, c);
    cat' := ExtendFile(v, g, cat, r, c, y);
  }

  /**
   Unless the volume ran full, the grown chain is just long enough and holds the
   data behind what it held before.
   */
  lemma {:induction false} GrowReads(v: Volume, g: Geometry, s: seq<nat>, data: seq<byte>)
    requires Shaped(v, g) && 0 < g.spc && g.Entries() <= BAD && IsChain(v.fat, s)
    requires !Grow(v, g, s, data).full
    ensures var w := Run(v, g, Grow(v, g, s, data).ops); var t := Grow(v, g, s, data).chain;
            && UnitsIn(v, s) && UnitsIn(w, t)
            && JustFits(|t|, g.UnitLen(2), Times(|s|, g.UnitLen(2)) + |data|)
            && ReadUnits(v, s) + data <= ReadUnits(w, t)
    decreases |data|
  {
    hide IsChain, Taken, FirstFree, JustFits, TakeOps, Run, OpsOk, ReadUnits, Times;
    ChainUnits(v, g, s);
    if data == [] {
      assert ReadUnits(v, s) + [] == ReadUnits(v, s);
      ChainFits(|s|, g.UnitLen(2));
      RunNil(v, g);
    } else {
      var cb := g.UnitLen(2);
      var c, n := FirstFree(v.fat, 2).value, Min(|data|, cb);
      var y := Taken(v, s, c, data[..n], cb);
      TakeRun(v, g, s, c, data[..n]);
      TakeReads(v, g, s, c, data[..n]);
      GrowReads(y, g, s + [c], data[n..]);
      var rest := Grow(y, g, s + [c], data[n..]);
      RunConcat(v, g, TakeOps(g, s, c, data[..n]), rest.ops);
      GrowFits(v, y, Run(y, g, rest.ops), s, c, data, n, cb, rest.chain);
    }
  }

  lemma ChainUnits(v: Volume, g: Geometry, s: seq<nat>)
    requires Shaped(v, g) && IsChain(v.fat, s)
    ensures Clusters(g, s) && UnitsIn(v, s)
  {}

  lemma ChainFits(n: nat, cb: nat)
    requires 0 < cb
    ensures JustFits(n, cb, Times(n, cb))
  {}

  lemma TakeReads(v: Volume, g: Geometry, s: seq<nat>, c: nat, chunk: seq<byte>)
    requires Shaped(v, g) && IsChain(v.fat, s) && 2 <= c < g.Entries() <= BAD && |chunk| <= g.UnitLen(2)
    requires v.fat[c] == FREE
    ensures UnitsIn(v, s)
    ensures var y := Taken(v, s, c, chunk, g.UnitLen(2));
            IsChain(y.fat, s + [c]) && UnitsIn(y, s + [c]) &&
              ReadUnits(y, s + [c]) == ReadUnits(v, s) + (chunk + Zeros(g.UnitLen(2) - |chunk|))
  {
    var y := Taken(v, s, c, chunk, g.UnitLen(2));
    assert (s + [c])[..|s|] == s;
    forall i | 0 <= i < |s|
      ensures s[i] != c
    {
      assert i == |s| - 1 ==> EOC_MIN <= v.fat[s[i]];
      assert i < |s| - 1 ==> v.fat[s[i]] == s[i + 1];
    }
    ReadUnitsSame(v, y, s);
    ExtendChain(v.fat, s, c, y.fat);
  }

  lemma GrowFits(v: Volume, y: Volume, w: Volume, s: seq<nat>, c: nat, data: seq<byte>, n: nat, cb: nat, t: seq<nat>)
    requires UnitsIn(v, s) && UnitsIn(y, s + [c]) && UnitsIn(w, t) && 0 < cb
    requires 0 < |data| && n == Min(|data|, cb)
    requires ReadUnits(y, s + [c]) == ReadUnits(v, s) + (data[..n] + Zeros(cb - n))
    requires JustFits(|t|, cb, Times(|s| + 1, cb) + |data[n..]|)
    requires ReadUnits(y, s + [c]) + data[n..] <= ReadUnits(w, t)
    requires data[n..] == [] ==> |t| == |s| + 1
    ensures JustFits(|t|, cb, Times(|s|, cb) + |data|)
    ensures ReadUnits(v, s) + data <= ReadUnits(w, t)
  {
    var whole := ReadUnits(y, s + [c]) + data[n..];
    if n == |data| {
      assert ReadUnits(v, s) + data <= whole;
    } else {
      assert Zeros(cb - n) == [];
      assert whole == ReadUnits(v, s) + data;
    }
  }

  lemma GrowNothing(v: Volume, g: Geometry, s: seq<nat>)
    requires Shaped(v, g) && 0 < g.spc && g.Entries() <= BAD && Clusters(g, s)
    ensures Grow(v, g, s, []) == Grown([], s, false)
  {}
}
