/** The RAM file system as a tree of nodes, with a small pool of data slots. */
module RamTree {
  import opened Bytes
  import opened NameMatch
  import opened Paths
  import PathNorm

  const MAX_NODES := 64
  const MAX_CHILDREN := 16
  const SLOT_COUNT := 4
  const SLOT_SIZE := 4096

  datatype Node =
    | Unused
    | Dir(name: seq<byte>, parent: Option<nat>, children: seq<nat>)
    | File(name: seq<byte>, parent: Option<nat>, slot: Option<nat>, size: nat)

  predicate GoodName(s: seq<byte>) {
    PathNorm.IsName(s) && |s| < NAME_CAP
  }

  /** A node other than the root hangs below a directory, one level deeper. */
  ghost predicate Hangs(nodes: seq<Node>, rank: seq<nat>, n: nat)
    requires |nodes| == |rank| == MAX_NODES && n < MAX_NODES
  {
    nodes[n].Unused? || n == 0 ||
    (&& nodes[n].parent.Some? && nodes[n].parent.value < MAX_NODES && GoodName(nodes[n].name)
     && var p := nodes[n].parent.value; nodes[p].Dir? && n in nodes[p].children && rank[p] < rank[n])
  }

  /** The children of a directory are used nodes that hang there, once each; none matches the name of a later one. */
  ghost predicate Lists(nodes: seq<Node>, d: nat)
    requires |nodes| == MAX_NODES && d < MAX_NODES
  {
    nodes[d].Dir? ==>
      var cs := nodes[d].children;
      && |cs| <= MAX_CHILDREN
      && (forall i :: 0 <= i < |cs| ==> cs[i] < MAX_NODES && !nodes[cs[i]].Unused? && nodes[cs[i]].parent == Some(d))
      && (forall i, j :: 0 <= i < j < |cs| ==> cs[i] != cs[j] && !NameEq(nodes[cs[i]].name, nodes[cs[j]].name))
  }

  ghost predicate TreeOk(nodes: seq<Node>, rank: seq<nat>) {
    && |nodes| == |rank| == MAX_NODES && nodes[0].Dir? && nodes[0].parent.None?
    && forall n :: 0 <= n < MAX_NODES ==> Hangs(nodes, rank, n) && Lists(nodes, n)
  }

  // ----- adding and removing -----

  function Added(nodes: seq<Node>, p: nat, k: nat, node: Node): (r: seq<Node>)
    requires p < |nodes| && k < |nodes| && nodes[p].Dir?
    ensures |r| == |nodes| && r[k] == node && forall n :: 0 <= n < |nodes| && n != p && n != k ==> r[n] == nodes[n]
  {
    nodes[p := nodes[p].(children := nodes[p].children + [k])][k := node]
  }

  lemma AddedKeeps(nodes: seq<Node>, rank: seq<nat>, p: nat, k: nat, node: Node)
    requires TreeOk(nodes, rank) && p < MAX_NODES && k < MAX_NODES && nodes[p].Dir? && nodes[k].Unused?
    requires |nodes[p].children| < MAX_CHILDREN
    requires !node.Unused? && node.parent == Some(p) && GoodName(node.name) && (node.Dir? ==> node.children == [])
    requires forall i :: 0 <= i < |nodes[p].children| ==>
               nodes[p].children[i] < MAX_NODES && !NameEq(NameOf(nodes, nodes[p].children[i]), node.name)
    ensures TreeOk(Added(nodes, p, k, node), rank[k := rank[p] + 1])
  {
    hide NameEq, GoodName;
    var after, rank' := Added(nodes, p, k, node), rank[k := rank[p] + 1];
    forall n | 0 <= n < MAX_NODES
      ensures Hangs(after, rank', n)
    {
      assert Hangs(nodes, rank, n);
      if n == k {
        assert after[p].children[|nodes[p].children|] == k;
      }
    }
    forall n | 0 <= n < MAX_NODES
      ensures Lists(after, n)
    {
      AddedLists(nodes, rank, p, k, node, n);
    }
  }

  lemma AddedLists(nodes: seq<Node>, rank: seq<nat>, p: nat, k: nat, node: Node, n: nat)
    requires TreeOk(nodes, rank) && p < MAX_NODES && k < MAX_NODES && nodes[p].Dir? && nodes[k].Unused?
    requires |nodes[p].children| < MAX_CHILDREN
    requires !node.Unused? && node.parent == Some(p) && (node.Dir? ==> node.children == []) && n < MAX_NODES
    requires forall i :: 0 <= i < |nodes[p].children| ==>
               nodes[p].children[i] < MAX_NODES && !NameEq(NameOf(nodes, nodes[p].children[i]), node.name)
    ensures Lists(Added(nodes, p, k, node), n)
  {
    hide NameEq, GoodName;
    assert Lists(nodes, n);
  }

  function NameOf(nodes: seq<Node>, n: nat): seq<byte>
    requires n < |nodes|
  {
    if nodes[n].Unused? then [] else nodes[n].name
  }

  function Without(cs: seq<nat>, i: nat): (r: seq<nat>)
    requires i < |cs|
    ensures |r| == |cs| - 1 && forall k :: 0 <= k < |r| ==> r[k] == if k < i then cs[k] else cs[k + 1]
  {
    cs[..i] + cs[i + 1..]
  }

  function Removed(nodes: seq<Node>, p: nat, i: nat): (r: seq<Node>)
    requires p < |nodes| && nodes[p].Dir? && i < |nodes[p].children| && nodes[p].children[i] < |nodes|
    ensures |r| == |nodes| && r[nodes[p].children[i]].Unused?
    ensures forall n :: 0 <= n < |nodes| && n != p && n != nodes[p].children[i] ==> r[n] == nodes[n]
  {
    nodes[p := nodes[p].(children := Without(nodes[p].children, i))][nodes[p].children[i] := Unused]
  }

  lemma StillListed(cs: seq<nat>, i: nat, m: nat)
    requires i < |cs| && m in cs && m != cs[i]
    ensures m in Without(cs, i)
  {
    var k :| 0 <= k < |cs| && cs[k] == m;
    assert Without(cs, i)[if k < i then k else k - 1] == m;
  }

  /** Removing a file or an empty directory. */
  lemma RemovedKeeps(nodes: seq<Node>, rank: seq<nat>, p: nat, i: nat)
    requires TreeOk(nodes, rank) && p < MAX_NODES && nodes[p].Dir? && i < |nodes[p].children|
    requires nodes[p].children[i] < MAX_NODES
    requires var n := nodes[p].children[i]; nodes[n].Dir? ==> nodes[n].children == []
    ensures TreeOk(Removed(nodes, p, i), rank)
  {
    hide NameEq, GoodName, Without;
    var after, n := Removed(nodes, p, i), nodes[p].children[i];
    assert Lists(nodes, p);
    assert Hangs(nodes, rank, n);
    WithoutAt(nodes[p].children, i);
    RemovedLists(nodes, p, i);
    forall m | 0 <= m < MAX_NODES
      ensures Hangs(after, rank, m)
    {
      assert Hangs(nodes, rank, m);
      if !nodes[m].Unused? && m != 0 && m != n && nodes[m].parent == Some(p) {
        StillListed(nodes[p].children, i, m);
      }
    }
    forall m | 0 <= m < MAX_NODES
      ensures Lists(after, m)
    {
      if m != p {
        OtherLists(nodes, rank, p, i, m);
      }
    }
  }

  lemma OtherLists(nodes: seq<Node>, rank: seq<nat>, p: nat, i: nat, m: nat)
    requires TreeOk(nodes, rank) && p < MAX_NODES && nodes[p].Dir? && i < |nodes[p].children|
    requires nodes[p].children[i] < MAX_NODES
    requires m < MAX_NODES && m != p
    ensures Lists(Removed(nodes, p, i), m)
  {
    hide NameEq, GoodName, Without;
    assert Lists(nodes, p) && Lists(nodes, m);
  }

  /** A child that stays keeps its name and parent. */
  lemma RemovedChild(nodes: seq<Node>, p: nat, i: nat, k: nat)
    requires |nodes| == MAX_NODES && p < MAX_NODES && Lists(nodes, p) && nodes[p].Dir? && i < |nodes[p].children|
    requires nodes[p].children[i] != p && k < |nodes[p].children| - 1
    ensures nodes[p].children[i] < MAX_NODES
    ensures var cs, after := nodes[p].children, Removed(nodes, p, i);
            var c := Without(cs, i)[k];
            && c == cs[if k < i then k else k + 1] && c < MAX_NODES
            && !after[c].Unused? && after[c].parent == Some(p) && after[c].name == nodes[c].name
  {
    hide NameEq;
    var cs := nodes[p].children;
    var l := if k < i then k else k + 1;
    assert if l < i then cs[l] != cs[i] else cs[i] != cs[l];
  }

  lemma RemovedLists(nodes: seq<Node>, p: nat, i: nat)
    requires |nodes| == MAX_NODES && p < MAX_NODES && Lists(nodes, p) && nodes[p].Dir? && i < |nodes[p].children|
    requires nodes[p].children[i] != p
    ensures nodes[p].children[i] < MAX_NODES && Lists(Removed(nodes, p, i), p)
  {
    hide NameEq;
    var cs, after := nodes[p].children, Removed(nodes, p, i);
    var ds := Without(cs, i);
    assert after[p].children == ds;
    forall k | 0 <= k < |ds|
      ensures ds[k] < MAX_NODES && !after[ds[k]].Unused? && after[ds[k]].parent == Some(p)
      ensures ds[k] == cs[if k < i then k else k + 1] && after[ds[k]].name == nodes[ds[k]].name
    {
      RemovedChild(nodes, p, i, k);
    }
    hide Removed, Without;
    forall k, l | 0 <= k < l < |ds|
      ensures ds[k] != ds[l] && !NameEq(after[ds[k]].name, after[ds[l]].name)
    {
      var k', l' := if k < i then k else k + 1, if l < i then l else l + 1;
      assert cs[k'] != cs[l'] && !NameEq(nodes[cs[k']].name, nodes[cs[l']].name);
    }
  }

  lemma WithoutAt(cs: seq<nat>, i: nat)
    requires i < |cs|
    ensures |Without(cs, i)| == |cs| - 1
    ensures forall k :: 0 <= k < |cs| - 1 ==> Without(cs, i)[k] == if k < i then cs[k] else cs[k + 1]
  {}

  // ----- looking names up -----

  datatype Code = Okay | NotFound | Exists | NotDir | Invalid | NoSpace | IsDir | NotEmpty
  datatype Found = At(node: nat) | Err(rc: Code)

  /** Links of nodes stay inside the table. */
  predicate Closed(nodes: seq<Node>) {
    && |nodes| == MAX_NODES
    && forall n :: 0 <= n < MAX_NODES ==>
                     && (!nodes[n].Unused? && nodes[n].parent.Some? ==> nodes[n].parent.value < MAX_NODES)
                     && (nodes[n].Dir? ==> forall i :: 0 <= i < |nodes[n].children| ==>
                           nodes[n].children[i] < MAX_NODES)
  }

  lemma TreeClosed(nodes: seq<Node>, rank: seq<nat>)
    requires TreeOk(nodes, rank)
    ensures Closed(nodes) && |rank| == MAX_NODES
  {
    hide NameEq, GoodName;
    forall n | 0 <= n < MAX_NODES
      ensures !nodes[n].Unused? && nodes[n].parent.Some? ==> nodes[n].parent.value < MAX_NODES
      ensures nodes[n].Dir? ==> forall i :: 0 <= i < |nodes[n].children| ==> nodes[n].children[i] < MAX_NODES
    {
      assert Hangs(nodes, rank, n) && Lists(nodes, n);
    }
  }

  /** The first child whose name matches. */
  function Find(nodes: seq<Node>, cs: seq<nat>, name: seq<byte>): (r: Option<nat>)
    requires forall i :: 0 <= i < |cs| ==> cs[i] < |nodes|
    ensures r.Some? ==> r.value in cs && NameEq(NameOf(nodes, r.value), name)
    ensures r.None? ==> forall i :: 0 <= i < |cs| ==> !NameEq(NameOf(nodes, cs[i]), name)
  {
    if cs == [] then None else if NameEq(NameOf(nodes, cs[0]), name) then Some(cs[0]) else Find(nodes, cs[1..], name)
  }

  /** The directory a node is in; the root is above itself. */
  function Above(nodes: seq<Node>, at: nat): (r: nat)
    requires Closed(nodes) && at < MAX_NODES
    ensures r < MAX_NODES
  {
    if !nodes[at].Unused? && nodes[at].parent.Some? then nodes[at].parent.value else at
  }

  /** Follow path components from a node on. */
  function Walk(nodes: seq<Node>, at: nat, comps: seq<seq<byte>>): (r: Found)
    requires Closed(nodes) && at < MAX_NODES
    ensures r.At? ==> r.node < MAX_NODES
    decreases |comps|
  {
    if comps == [] then At(at)
    else if NAME_CAP <= |comps[0]| then Err(Invalid)
    else if comps[0] == [DOT] then Walk(nodes, at, comps[1..])
    else if comps[0] == [DOT, DOT] then Walk(nodes, Above(nodes, at), comps[1..])
    else if !nodes[at].Dir? then Err(NotDir)
    else
      var f := Find(nodes, nodes[at].children, comps[0]);
      if f.None? then Err(NotFound) else Walk(nodes, f.value, comps[1..])
  }

  /** A path through used nodes stays on used nodes. */
  lemma {:induction false} WalkUsed(nodes: seq<Node>, rank: seq<nat>, at: nat, comps: seq<seq<byte>>)
    requires TreeOk(nodes, rank) && Closed(nodes) && at < MAX_NODES && !nodes[at].Unused?
    ensures Walk(nodes, at, comps).At? ==> !nodes[Walk(nodes, at, comps).node].Unused?
    ensures Walk(nodes, at, comps).Err? ==> Walk(nodes, at, comps).rc in {Invalid, NotDir, NotFound}
    decreases |comps|
  {
    hide NameEq, GoodName, Closed;
    TreeClosed(nodes, rank);
    if comps != [] {
      assert Hangs(nodes, rank, at) && Lists(nodes, at);
      WalkUsed(nodes, rank, at, comps[1..]);
      if nodes[at].parent.Some? {
        WalkUsed(nodes, rank, nodes[at].parent.value, comps[1..]);
      }
      if nodes[at].Dir? {
        ChildrenInside(nodes, at);
        var f := Find(nodes, nodes[at].children, comps[0]);
        if f.Some? {
          WalkUsed(nodes, rank, f.value, comps[1..]);
        }
      }
    }
  }

  lemma ChildrenInside(nodes: seq<Node>, d: nat)
    requires Closed(nodes) && d < MAX_NODES && nodes[d].Dir?
    ensures forall i :: 0 <= i < |nodes[d].children| ==> nodes[d].children[i] < |nodes|
  {}

  // ----- the path of a node -----

  /** The names from the root down to a node. */
  ghost function PathNames(nodes: seq<Node>, rank: seq<nat>, n: nat): (r: seq<seq<byte>>)
    requires TreeOk(nodes, rank) && n < MAX_NODES && !nodes[n].Unused?
    decreases if n < |rank| then rank[n] else 0
  {
    assert Hangs(nodes, rank, n);
    if n == 0 then [] else PathNames(nodes, rank, nodes[n].parent.value) + [nodes[n].name]
  }

  /** Looking a child's own name up finds that child: no earlier sibling matches it. */
  lemma FindSelf(nodes: seq<Node>, rank: seq<nat>, n: nat)
    requires TreeOk(nodes, rank) && n < MAX_NODES && n != 0 && !nodes[n].Unused?
    ensures nodes[n].parent.Some? && nodes[n].parent.value < MAX_NODES && nodes[nodes[n].parent.value].Dir?
    ensures var cs := nodes[nodes[n].parent.value].children;
            (forall i :: 0 <= i < |cs| ==> cs[i] < |nodes|) && Find(nodes, cs, nodes[n].name) == Some(n)
  {
    hide NameEq, GoodName;
    assert Hangs(nodes, rank, n);
    var p := nodes[n].parent.value;
    assert Lists(nodes, p);
    var cs := nodes[p].children;
    var j :| 0 <= j < |cs| && cs[j] == n;
    NameEqSelf(nodes[n].name);
    forall i | 0 <= i < j
      ensures !NameEq(NameOf(nodes, cs[i]), nodes[n].name)
    {
      assert !NameEq(nodes[cs[i]].name, nodes[cs[j]].name);
    }
    FindFirst(nodes, cs, j, nodes[n].name);
  }

  lemma {:induction false} FindFirst(nodes: seq<Node>, cs: seq<nat>, j: nat, name: seq<byte>)
    requires (forall i :: 0 <= i < |cs| ==> cs[i] < |nodes|) && j < |cs| && NameEq(NameOf(nodes, cs[j]), name)
    requires forall i :: 0 <= i < j ==> !NameEq(NameOf(nodes, cs[i]), name)
    ensures Find(nodes, cs, name) == Some(cs[j])
  {
    hide NameEq;
    if j > 0 {
      assert cs[1..][j - 1] == cs[j];
      FindFirst(nodes, cs[1..], j - 1, name);
    }
  }

  lemma {:induction false} WalkConcat(nodes: seq<Node>, at: nat, a: seq<seq<byte>>, b: seq<seq<byte>>)
    requires Closed(nodes) && at < MAX_NODES
    ensures Walk(nodes, at, a + b) == if Walk(nodes, at, a).Err? then Walk(nodes, at, a)
            else Walk(nodes, Walk(nodes, at, a).node, b)
    decreases |a|
  {
    hide NameEq, Closed;
    if a == [] {
      assert a + b == b;
    } else {
      assert (a + b)[0] == a[0] && (a + b)[1..] == a[1..] + b;
      WalkConcat(nodes, at, a[1..], b);
      ParentInside(nodes, at);
      if !nodes[at].Unused? && nodes[at].parent.Some? {
        WalkConcat(nodes, nodes[at].parent.value, a[1..], b);
      }
      if nodes[at].Dir? {
        ChildrenInside(nodes, at);
        var f := Find(nodes, nodes[at].children, a[0]);
        if f.Some? {
          WalkConcat(nodes, f.value, a[1..], b);
        }
      }
    }
  }

  lemma ParentInside(nodes: seq<Node>, n: nat)
    requires Closed(nodes) && n < MAX_NODES
    ensures |nodes| == MAX_NODES && (!nodes[n].Unused? && nodes[n].parent.Some? ==> nodes[n].parent.value < MAX_NODES)
  {}

  /** Every used node is reached from the root by its own names, aliases notwithstanding. */
  lemma {:induction false} PathLeadsHome(nodes: seq<Node>, rank: seq<nat>, n: nat)
    requires TreeOk(nodes, rank) && Closed(nodes) && n < MAX_NODES && !nodes[n].Unused?
    ensures Walk(nodes, 0, PathNames(nodes, rank, n)) == At(n)
    ensures PathNorm.AllNames(PathNames(nodes, rank, n))
    decreases rank[n]
  {
    hide NameEq, Closed;
    assert Hangs(nodes, rank, n);
    if n != 0 {
      var p := nodes[n].parent.value;
      PathLeadsHome(nodes, rank, p);
      FindSelf(nodes, rank, n);
      WalkConcat(nodes, 0, PathNames(nodes, rank, p), [nodes[n].name]);
      assert [nodes[n].name][0] == nodes[n].name && [nodes[n].name][1..] == [];
    }
  }
}
