/**
 Paths in the RAM file system: where they lead, how that fits the normalisation of
 the layer above, and that a created node is found at its path.
 */
module RamPaths {
  import opened Bytes
  import opened Paths
  import opened NameMatch
  import opened RamTree

  lemma WalkStep(nodes: seq<Node>, at: nat, comps: seq<seq<byte>>)
    requires Closed(nodes) && at < MAX_NODES
    ensures |nodes| == MAX_NODES
    ensures !nodes[at].Unused? && nodes[at].parent.Some? ==> nodes[at].parent.value < MAX_NODES
    ensures nodes[at].Dir? ==> forall i :: 0 <= i < |nodes[at].children| ==> nodes[at].children[i] < MAX_NODES
    ensures comps == [] ==> Walk(nodes, at, comps) == At(at)
    ensures comps != [] ==>
              Walk(nodes, at, comps) ==
              if NAME_CAP <= |comps[0]| then Err(Invalid)
              else if comps[0] == [DOT] then Walk(nodes, at, comps[1..])
              else if comps[0] == [DOT, DOT] then Walk(nodes, Above(nodes, at), comps[1..])
              else if !nodes[at].Dir? then Err(NotDir)
              else
                var f := Find(nodes, nodes[at].children, comps[0]);
                if f.None? then Err(NotFound)
                else if f.value < MAX_NODES then Walk(nodes, f.value, comps[1..])
                else Err(NotFound)
    ensures nodes[at].Dir? && comps != [] ==>
              var f := Find(nodes, nodes[at].children, comps[0]);
              f.Some? ==> f.value < MAX_NODES
  {
    hide NameEq;
  }

  lemma ArrivedAt(nodes: seq<Node>, at: nat)
    requires Closed(nodes) && at < MAX_NODES
    ensures Walk(nodes, at, []) == At(at)
  {}

  // ----- one step -----

  /** Where a single component leads. */
  lemma WalkName(nodes: seq<Node>, at: nat, c: seq<byte>)
    requires Closed(nodes) && at < MAX_NODES
    ensures NAME_CAP <= |c| ==> Walk(nodes, at, [c]) == Err(Invalid)
    ensures c == ['.' as int] ==> Walk(nodes, at, [c]) == At(at)
    ensures c == ['.' as int, '.' as int] ==>
              Walk(nodes, at, [c]) ==
              At(if !nodes[at].Unused? && nodes[at].parent.Some? then nodes[at].parent.value else at)
    ensures |c| < NAME_CAP && PathNorm.IsName(c) && !nodes[at].Dir? ==> Walk(nodes, at, [c]) == Err(NotDir)
    ensures |c| < NAME_CAP && PathNorm.IsName(c) && nodes[at].Dir? ==>
              var cs := nodes[at].children;
              && ((forall i :: 0 <= i < |cs| ==> !NameEq(NameOf(nodes, cs[i]), c)) ==>
                    Walk(nodes, at, [c]) == Err(NotFound))
              && forall j :: 0 <= j < |cs| && NameEq(NameOf(nodes, cs[j]), c) &&
                             (forall i :: 0 <= i < j ==> !NameEq(NameOf(nodes, cs[i]), c)) ==>
                   Walk(nodes, at, [c]) == At(cs[j])
  {
    hide NameEq;
    var one: seq<seq<byte>> := [c];
    assert one[0] == c && one[1..] == [];
    if nodes[at].Dir? {
      var cs := nodes[at].children;
      forall j | 0 <= j < |cs| && NameEq(NameOf(nodes, cs[j]), c) &&
                 (forall i :: 0 <= i < j ==> !NameEq(NameOf(nodes, cs[i]), c))
        ensures Find(nodes, cs, c) == Some(cs[j])
      {
        FindFirst(nodes, cs, j, c);
      }
    }
  }

  // ----- normalised paths -----

  /** A name followed from the root leads one level down. */
  lemma WalkDown(nodes: seq<Node>, rank: seq<nat>, stack: seq<seq<byte>>, at: nat)
    requires TreeOk(nodes, rank) && Closed(nodes) && stack != [] && PathNorm.AllNames(stack)
    requires Walk(nodes, 0, stack) == At(at)
    ensures at < MAX_NODES && !nodes[at].Unused? && nodes[at].parent.Some?
    ensures Walk(nodes, 0, stack[..|stack| - 1]) == At(nodes[at].parent.value)
  {
    hide NameEq, Closed, GoodName;
    var front, last := stack[..|stack| - 1], stack[|stack| - 1];
    assert stack == front + [last] && PathNorm.IsName(last);
    WalkConcat(nodes, 0, front, [last]);
    RootUsed(nodes, rank);
    WalkUsed(nodes, rank, 0, front);
    var q := Walk(nodes, 0, front).node;
    WalkStep(nodes, q, [last]);
    var one: seq<seq<byte>> := [last];
    assert one[1..] == [];
    ArrivedAt(nodes, at);
    assert Lists(nodes, q);
  }

  /**
   Where a path leads from a node is where its normalised form leads from the root,
   whenever it leads anywhere.
   */
  lemma {:induction false} WalkNormal(nodes: seq<Node>, rank: seq<nat>, stack: seq<seq<byte>>, at: nat,
                                      comps: seq<seq<byte>>)
    requires TreeOk(nodes, rank) && Closed(nodes) && PathNorm.AllNames(stack) && at < MAX_NODES
    requires Walk(nodes, 0, stack) == At(at) && Walk(nodes, at, comps).At?
    requires forall i :: 0 <= i < |comps| ==> comps[i] != [] && SLASH !in comps[i]
    ensures Walk(nodes, 0, PathNorm.Fold(stack, comps)) == Walk(nodes, at, comps)
    decreases |comps|
  {
    hide NameEq, Closed, GoodName;
    WalkStep(nodes, at, comps);
    RootUsed(nodes, rank);
    if comps != [] {
      var c, rest := comps[0], comps[1..];
      var next := PathNorm.Push(stack, c);
      assert forall i :: 0 <= i < |rest| ==> rest[i] == comps[i + 1];
      var to := at;
      if c == [DOT, DOT] {
        to := Above(nodes, at);
        if stack == [] {
          ArrivedAt(nodes, 0);
        } else {
          WalkDown(nodes, rank, stack, at);
        }
      } else if c != [DOT] {
        to := Find(nodes, nodes[at].children, c).value;
        WalkConcat(nodes, 0, stack, [c]);
        WalkStep(nodes, at, [c]);
        var one: seq<seq<byte>> := [c];
        assert one[1..] == [];
        ArrivedAt(nodes, to);
      }
      WalkNormal(nodes, rank, next, to, rest);
    }
  }

  /** The file-system layer hands on a normalised path; it leads where the path given to it led. */
  lemma NormalisedSame(nodes: seq<Node>, rank: seq<nat>, cwd: nat, path: seq<byte>, cap: nat)
    requires TreeOk(nodes, rank) && Closed(nodes) && cwd < MAX_NODES && !nodes[cwd].Unused?
    requires var text := PathNorm.Text(PathNames(nodes, rank, cwd)); PathNorm.Normalised(text, path, cap).Ok?
    requires Walk(nodes, if path != [] && path[0] == SLASH then 0 else cwd, Components(path)).At?
    ensures var text := PathNorm.Text(PathNames(nodes, rank, cwd));
            Walk(nodes, 0, Components(PathNorm.Normalised(text, path, cap).text)) ==
            Walk(nodes, if path != [] && path[0] == SLASH then 0 else cwd, Components(path))
  {
    hide NameEq, Closed, GoodName, TreeOk, Walk, PathNames, Components;
    var text := PathNorm.Text(PathNames(nodes, rank, cwd));
    PathLeadsHome(nodes, rank, cwd);
    PathNorm.ComponentsText(PathNames(nodes, rank, cwd));
    ComponentsClean(path);
    RootUsed(nodes, rank);
    ArrivedAt(nodes, 0);
    PathNorm.NormalisedClean(text, path, cap);
    if path[0] == SLASH {
      WalkNormal(nodes, rank, [], 0, Components(path));
    } else {
      WalkNormal(nodes, rank, PathNames(nodes, rank, cwd), cwd, Components(path));
    }
  }

  // ----- the directory and the last name -----

  datatype ParentOf = ParentOf(node: nat, name: seq<byte>) | NoParent(rc: Code)

  /** The directory and the last name of a path. */
  function SplitLast(nodes: seq<Node>, at: nat, comps: seq<seq<byte>>): (r: ParentOf)
    requires Closed(nodes) && at < MAX_NODES
    ensures r.ParentOf? ==> r.node < MAX_NODES && comps != [] && r.name == comps[|comps| - 1] && |r.name| < NAME_CAP
    decreases |comps|
  {
    if comps == [] || NAME_CAP <= |comps[0]| then NoParent(Invalid)
    else
      var dot, dotdot := comps[0] == [DOT], comps[0] == [DOT, DOT];
      if |comps| == 1 then if dot || dotdot then NoParent(Invalid) else ParentOf(at, comps[0])
      else if dot then SplitLast(nodes, at, comps[1..])
      else if dotdot then SplitLast(nodes, Above(nodes, at), comps[1..])
      else if !nodes[at].Dir? then NoParent(NotFound)
      else
        var f := Find(nodes, nodes[at].children, comps[0]);
        if f.None? then NoParent(NotFound)
        else if !nodes[f.value].Dir? then NoParent(NotDir)
        else SplitLast(nodes, f.value, comps[1..])
  }

  lemma SplitStep(nodes: seq<Node>, at: nat, comps: seq<seq<byte>>)
    requires Closed(nodes) && at < MAX_NODES
    ensures |nodes| == MAX_NODES
    ensures !nodes[at].Unused? && nodes[at].parent.Some? ==> nodes[at].parent.value < MAX_NODES
    ensures nodes[at].Dir? ==> forall i :: 0 <= i < |nodes[at].children| ==> nodes[at].children[i] < MAX_NODES
    ensures comps == [] ==> SplitLast(nodes, at, comps) == NoParent(Invalid)
    ensures nodes[at].Dir? && comps != [] ==>
              var f := Find(nodes, nodes[at].children, comps[0]);
              f.Some? ==> f.value < MAX_NODES
    ensures comps != [] ==>
              var dot, dotdot := comps[0] == [DOT], comps[0] == [DOT, DOT];
              SplitLast(nodes, at, comps) ==
              if NAME_CAP <= |comps[0]| then NoParent(Invalid)
              else if |comps| == 1 then if dot || dotdot then NoParent(Invalid) else ParentOf(at, comps[0])
              else if dot then SplitLast(nodes, at, comps[1..])
              else if dotdot then SplitLast(nodes, Above(nodes, at), comps[1..])
              else if !nodes[at].Dir? then NoParent(NotFound)
              else
                var f := Find(nodes, nodes[at].children, comps[0]);
                if f.None? then NoParent(NotFound)
                else if MAX_NODES <= f.value then NoParent(NotFound)
                else if !nodes[f.value].Dir? then NoParent(NotDir)
                else SplitLast(nodes, f.value, comps[1..])
  {
    hide NameEq;
  }

  lemma RootUsed(nodes: seq<Node>, rank: seq<nat>)
    requires TreeOk(nodes, rank)
    ensures |nodes| == MAX_NODES && nodes[0].Dir?
  {}

  /** The directory part of a path is a directory. */
  lemma {:induction false} ParentDir(nodes: seq<Node>, rank: seq<nat>, at: nat, comps: seq<seq<byte>>)
    requires TreeOk(nodes, rank) && Closed(nodes) && at < MAX_NODES && nodes[at].Dir?
    ensures var r := SplitLast(nodes, at, comps);
            && (r.ParentOf? ==> nodes[r.node].Dir? && r.name != [DOT] && r.name != [DOT, DOT])
            && (r.NoParent? ==> r.rc in {Invalid, NotFound, NotDir})
    decreases |comps|
  {
    hide NameEq, Closed, GoodName;
    SplitStep(nodes, at, comps);
    if comps != [] {
      assert Hangs(nodes, rank, at) && Lists(nodes, at);
      ParentDir(nodes, rank, at, comps[1..]);
      if nodes[at].parent.Some? {
        assert at != 0;
        ParentDir(nodes, rank, nodes[at].parent.value, comps[1..]);
      }
      var f := Find(nodes, nodes[at].children, comps[0]);
      if f.Some? && nodes[f.value].Dir? {
        ParentDir(nodes, rank, f.value, comps[1..]);
      }
    }
  }

  /** The directory is where the path without its last name leads. */
  lemma {:induction false} SplitWalks(nodes: seq<Node>, at: nat, comps: seq<seq<byte>>)
    requires Closed(nodes) && at < MAX_NODES && SplitLast(nodes, at, comps).ParentOf?
    ensures comps != [] && Walk(nodes, at, comps[..|comps| - 1]) == At(SplitLast(nodes, at, comps).node)
    decreases |comps|
  {
    hide NameEq, Closed;
    SplitStep(nodes, at, comps);
    WalkStep(nodes, at, comps[..|comps| - 1]);
    if |comps| > 1 {
      var front := comps[..|comps| - 1];
      assert front[0] == comps[0] && front[1..] == comps[1..][..|comps[1..]| - 1];
      if comps[0] == [DOT] {
        SplitWalks(nodes, at, comps[1..]);
      } else if comps[0] == [DOT, DOT] {
        SplitWalks(nodes, Above(nodes, at), comps[1..]);
      } else {
        SplitWalks(nodes, Find(nodes, nodes[at].children, comps[0]).value, comps[1..]);
      }
    }
  }

  /** Of a path of names that leads to a directory, and a name behind it, those are the parts. */
  lemma {:induction false} WalksSplit(nodes: seq<Node>, at: nat, front: seq<seq<byte>>, name: seq<byte>)
    requires Closed(nodes) && at < MAX_NODES && PathNorm.AllNames(front) && PathNorm.IsName(name) && |name| < NAME_CAP
    requires Walk(nodes, at, front).At? && nodes[Walk(nodes, at, front).node].Dir?
    ensures SplitLast(nodes, at, front + [name]) == ParentOf(Walk(nodes, at, front).node, name)
    decreases |front|
  {
    hide NameEq, Closed;
    var comps := front + [name];
    SplitStep(nodes, at, comps);
    WalkStep(nodes, at, front);
    if front != [] {
      assert comps[0] == front[0] && comps[1..] == front[1..] + [name] && PathNorm.IsName(front[0]);
      assert forall i :: 0 <= i < |front[1..]| ==> front[1..][i] == front[i + 1];
      var f := Find(nodes, nodes[at].children, front[0]).value;
      WalksSplit(nodes, f, front[1..], name);
      WalkStep(nodes, f, front[1..]);
      assert front[1..] != [] ==> PathNorm.IsName(front[1..][0]);
    }
  }

  // ----- created nodes -----

  /** The first child that matches still is, with one more behind that did not. */
  lemma {:induction false} FindMore(nodes: seq<Node>, after: seq<Node>, cs: seq<nat>, k: nat, name: seq<byte>)
    requires |after| == |nodes| && k < |nodes|
    requires forall i :: 0 <= i < |cs| ==> cs[i] < |nodes| && NameOf(after, cs[i]) == NameOf(nodes, cs[i])
    ensures Find(nodes, cs, name).Some? ==> Find(after, cs + [k], name) == Find(nodes, cs, name)
    ensures Find(nodes, cs, name).None? && NameEq(NameOf(after, k), name) ==> Find(after, cs + [k], name) == Some(k)
    ensures Find(nodes, cs, name).Some? ==> Find(after, cs, name) == Find(nodes, cs, name)
  {
    hide NameEq;
    if cs == [] {
      assert cs + [k] == [k];
    } else {
      assert (cs + [k])[0] == cs[0] && (cs + [k])[1..] == cs[1..] + [k];
      FindMore(nodes, after, cs[1..], k, name);
    }
  }

  /** A node created at a path is found there. */
  lemma {:induction false} CreatedFound(nodes: seq<Node>, rank: seq<nat>, p: nat, k: nat, made: Node, at: nat,
                                        comps: seq<seq<byte>>)
    requires TreeOk(nodes, rank) && Closed(nodes) && at < MAX_NODES && nodes[at].Dir? && p < MAX_NODES && k < MAX_NODES
    requires nodes[p].Dir? && nodes[k].Unused? && !made.Unused? && Closed(Added(nodes, p, k, made))
    requires SplitLast(nodes, at, comps) == ParentOf(p, made.name)
    requires forall i :: 0 <= i < |nodes[p].children| ==> nodes[p].children[i] < |nodes|
    requires Find(nodes, nodes[p].children, made.name).None?
    ensures Walk(Added(nodes, p, k, made), at, comps) == At(k)
    decreases |comps|
  {
    hide NameEq, Closed, GoodName, Find;
    var after := Added(nodes, p, k, made);
    SplitStep(nodes, at, comps);
    WalkStep(after, at, comps);
    assert Hangs(nodes, rank, at) && Lists(nodes, at);
    SameNames(nodes, rank, p, k, made, at);
    if |comps| == 1 {
      FindMore(nodes, after, nodes[at].children, k, comps[0]);
      NameEqSelf(made.name);
      WalkStep(after, k, comps[1..]);
    } else if comps[0] == [DOT] {
      CreatedFound(nodes, rank, p, k, made, at, comps[1..]);
    } else if comps[0] == [DOT, DOT] {
      AboveDir(nodes, rank, at);
      CreatedFound(nodes, rank, p, k, made, Above(nodes, at), comps[1..]);
    } else {
      var f := Find(nodes, nodes[at].children, comps[0]).value;
      FindMore(nodes, after, nodes[at].children, k, comps[0]);
      CreatedFound(nodes, rank, p, k, made, f, comps[1..]);
    }
  }

  lemma SameNames(nodes: seq<Node>, rank: seq<nat>, p: nat, k: nat, made: Node, at: nat)
    requires TreeOk(nodes, rank) && at < MAX_NODES && nodes[at].Dir? && p < MAX_NODES && k < MAX_NODES
    requires nodes[p].Dir? && nodes[k].Unused?
    ensures var after := Added(nodes, p, k, made);
            && at != k && after[at].Dir? && after[at].parent == nodes[at].parent
            && after[at].children == nodes[at].children + (if at == p then [k] else [])
            && forall i :: 0 <= i < |nodes[at].children| ==>
                 nodes[at].children[i] < |nodes| &&
                   NameOf(after, nodes[at].children[i]) == NameOf(nodes, nodes[at].children[i])
  {
    hide NameEq, GoodName;
    assert Lists(nodes, at);
  }

  lemma AboveDir(nodes: seq<Node>, rank: seq<nat>, at: nat)
    requires TreeOk(nodes, rank) && Closed(nodes) && at < MAX_NODES && nodes[at].Dir?
    ensures nodes[Above(nodes, at)].Dir?
  {
    hide NameEq, GoodName, Closed;
    assert Hangs(nodes, rank, at);
  }
}
