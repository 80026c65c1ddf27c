/** The RAM file system driver. */
module Ramfs {
  import opened Bytes
  import opened Paths
  import opened NameMatch
  import opened RamTree
  import opened RamData
  import opened RamPaths
  import opened Syscalls

  function FirstUnused(nodes: seq<Node>, i: nat): (r: Option<nat>)
    requires i <= |nodes|
    ensures r.Some? ==> && i <= r.value < |nodes| && nodes[r.value].Unused?
                        && forall k :: i <= k < r.value ==> !nodes[k].Unused?
    ensures r.None? ==> forall k :: i <= k < |nodes| ==> !nodes[k].Unused?
    decreases |nodes| - i
  {
    if i == |nodes| then None else if nodes[i].Unused? then Some(i) else FirstUnused(nodes, i + 1)
  }

  predicate ValidName(name: seq<byte>) {
    name != [] && SLASH !in name && |name| < NAME_CAP
  }

  function NewNode(p: nat, name: seq<byte>, isDir: bool): Node {
    if isDir then Dir(name, Some(p), []) else File(name, Some(p), None, 0)
  }

  /** What creating a node below directory `p` returns. */
  function CreateCode(nodes: seq<Node>, p: nat, name: seq<byte>): Code
    requires Closed(nodes) && p < MAX_NODES && nodes[p].Dir?
  {
    if Find(nodes, nodes[p].children, name).Some? then Exists
    else if FirstUnused(nodes, 0).None? then NoSpace
    else if !ValidName(name) then Invalid
    else if |nodes[p].children| >= MAX_CHILDREN then NoSpace
    else Okay
  }

  /** What is in the way: a sibling that matches, then no unused node, then a bad name, then a full directory. */
  lemma CreateCodeMeans(nodes: seq<Node>, p: nat, name: seq<byte>)
    requires Closed(nodes) && p < MAX_NODES && nodes[p].Dir?
    ensures var cs := nodes[p].children;
            var taken := exists i :: 0 <= i < |cs| && NameEq(NameOf(nodes, cs[i]), name);
            var full := forall n :: 0 <= n < MAX_NODES ==> !nodes[n].Unused?;
            var good := 0 < |name| < 24 && '/' as int !in name;
            && (CreateCode(nodes, p, name) == Exists <==> taken)
            && (CreateCode(nodes, p, name) == Okay <==> !taken && !full && good && |cs| < 16)
            && (CreateCode(nodes, p, name) == Invalid <==> !taken && !full && !good)
            && (CreateCode(nodes, p, name) == NoSpace <==> !taken && (full || (good && |cs| >= 16)))
  {
    hide NameEq;
    var cs, f := nodes[p].children, Find(nodes, nodes[p].children, name);
    if f.Some? {
      var i :| 0 <= i < |cs| && cs[i] == f.value;
      assert NameEq(NameOf(nodes, cs[i]), name);
    }
  }

  lemma CreateFree(nodes: seq<Node>, p: nat, name: seq<byte>)
    requires Closed(nodes) && p < MAX_NODES && nodes[p].Dir? && CreateCode(nodes, p, name) == Okay
    ensures forall i :: 0 <= i < |nodes[p].children| ==> nodes[p].children[i] < |nodes|
    ensures Find(nodes, nodes[p].children, name).None? && FirstUnused(nodes, 0).Some?
  {}

  /** The first unused node has become `made`, a child of directory `p`. */
  ghost predicate Created(nodes: seq<Node>, p: nat, made: Node, nodes': seq<Node>)
    requires Closed(nodes) && p < MAX_NODES && nodes[p].Dir?
  {
    var free := FirstUnused(nodes, 0);
    free.Some? && nodes' == Added(nodes, p, free.value, made)
  }

  class Filesystem {
    var nodes: seq<Node>
    var data: slots
    var cwd: nat
    ghost var rank: seq<nat>

    /** A tree under the root, slots owned by its files, and a working directory in it. */
    ghost predicate Valid()
      reads this
    {
      TreeOk(nodes, rank) && SlotsOk(nodes, data) && cwd < MAX_NODES && nodes[cwd].Dir?
    }

    constructor ()
      ensures Valid() && cwd == 0 && nodes[0] == Dir([], None, [])
      ensures forall n :: 1 <= n < MAX_NODES ==> nodes[n].Unused?
    {
      nodes := seq(MAX_NODES, _ => Unused)[0 := Dir([], None, [])];
      data := seq(SLOT_COUNT, _ => None);
      cwd := 0;
      rank := seq(MAX_NODES, _ => 0);
      new;
      hide NameEq, GoodName;
      forall n | 0 <= n < MAX_NODES
        ensures Hangs(nodes, rank, n) && Lists(nodes, n)
      {
      }
    }

    method FindChild(d: nat, name: seq<byte>) returns (r: Option<nat>)
      requires Closed(nodes) && d < MAX_NODES
      ensures r == if nodes[d].Dir? then Find(nodes, nodes[d].children, name) else None
    {
      hide NameEq, Closed;
      ParentInside(nodes, d);
      if !nodes[d].Dir? {
        return None;
      }
      ChildrenInside(nodes, d);
      var cs, i := nodes[d].children, 0;
      assert cs[0..] == cs;
      while i < |cs|
        invariant 0 <= i <= |cs| && Find(nodes, cs, name) == Find(nodes, cs[i..], name)
      {
        assert cs[i..][0] == cs[i] && cs[i..][1..] == cs[i + 1..];
        if NameEq(NameOf(nodes, cs[i]), name) {
          return Some(cs[i]);
        }
        i := i + 1;
      }
      assert cs[i..] == [];
      r := None;
    }

    method AllocNode() returns (r: Option<nat>)
      requires |nodes| == MAX_NODES
      ensures r == FirstUnused(nodes, 0)
    {
      var i := 0;
      while i < MAX_NODES
        invariant 0 <= i <= MAX_NODES && FirstUnused(nodes, 0) == FirstUnused(nodes, i)
      {
        if nodes[i].Unused? {
          return Some(i);
        }
        i := i + 1;
      }
      r := None;
    }

    /** Create a file or directory in the first unused node, unless a sibling's name matches. */
    method CreateNode(p: nat, name: seq<byte>, isDir: bool) returns (rc: Code, node: nat)
      requires Valid() && p < MAX_NODES && nodes[p].Dir? && name != [DOT] && name != [DOT, DOT]
      modifies this`nodes, this`rank
      ensures Valid() && Closed(old(nodes)) && rc == CreateCode(old(nodes), p, name)
      ensures if rc == Okay then
                && node < MAX_NODES && Some(node) == FirstUnused(old(nodes), 0)
                && nodes == Added(old(nodes), p, node, NewNode(p, name, isDir))
              else nodes == old(nodes)
      ensures OthersKept(old(nodes), data, nodes, data, node)
    {
      hide NameEq, TreeOk, SlotsOk, Find, Closed, OthersKept;
      TreeClosed(nodes, rank);
      ParentInside(nodes, p);
      ChildrenInside(nodes, p);
      node := 0;
      NothingChanged(nodes, data, node);
      var found := FindChild(p, name);
      if found.Some? {
        return Exists, 0;
      }
      var free := AllocNode();
      if free.None? {
        return NoSpace, 0;
      }
      if !ValidName(name) {
        return Invalid, 0;
      }
      if |nodes[p].children| >= MAX_CHILDREN {
        return NoSpace, 0;
      }
      node := free.value;
      ghost var made := NewNode(p, name, isDir);
      FindNone(nodes, nodes[p].children, name);
      AddedKeeps(nodes, rank, p, node, made);
      AddedData(nodes, data, p, node, made);
      rank := rank[node := rank[p] + 1];
      nodes := nodes[p := nodes[p].(children := nodes[p].children + [node])][node := NewNode(p, name, isDir)];
      rc := Okay;
    }

    // ----- paths -----

    /** Read the next component: its text, and where it ends; None at the end of the path. */
    method NextSegment(path: seq<byte>, from: nat) returns (rc: Code, segment: Option<seq<byte>>, at: nat)
      requires from <= |path|
      ensures from <= at <= |path| && rc in {Okay, Invalid}
      ensures rc == Okay && segment.None? ==> Components(path[from..]) == []
      ensures rc == Okay && segment.Some? ==>
                && from < at && Components(path[from..]) != [] && segment.value == Components(path[from..])[0] &&
                   |segment.value| < NAME_CAP
                && Components(path[from..])[1..] == Components(path[at..])
      ensures rc == Invalid ==> Components(path[from..]) != [] && NAME_CAP <= |Components(path[from..])[0]|
    {
      hide Components;
      at := SkipSlashes(path, from);
      if at == |path| {
        return Okay, None, at;
      }
      ghost var rest := path[at..];
      var len := 0;
      while at + len < |path| && path[at + len] != SLASH
        invariant at + len <= |path| && len < NAME_CAP
        invariant forall i :: 0 <= i < len ==> rest[i] != SLASH
        invariant len == 0 ==> at < |path| && path[at] != SLASH
      {
        if len + 1 >= NAME_CAP {
          LongToken(rest, len + 1);
          return Invalid, None, at;
        }
        len := len + 1;
      }
      TokenTaken(rest, len);
      segment := Some(path[at..at + len]);
      assert segment.value == rest[..len] && rest[len..] == path[at + len..];
      at := at + len;
      rc := Okay;
    }

    /** Follow a path from the root or from the given node. */
    method ResolveFrom(start: nat, path: seq<byte>) returns (r: Found)
      requires Closed(nodes) && start < MAX_NODES
      ensures r == Walk(nodes, if path != [] && path[0] == SLASH then 0 else start, Components(path))
    {
      hide Components, NameEq, Walk, Find, Closed;
      var current: nat := if path != [] && path[0] == SLASH then 0 else start;
      var at := 0;
      assert path[0..] == path;
      ghost var goal := Walk(nodes, current, Components(path));
      while true
        invariant 0 <= at <= |path| && current < MAX_NODES && goal == Walk(nodes, current, Components(path[at..]))
        decreases |path| - at
      {
        var rc, segment, next := NextSegment(path, at);
        WalkStep(nodes, current, Components(path[at..]));
        if rc != Okay {
          return Err(rc);
        }
        if segment.None? {
          return At(current);
        }
        at := next;
        if segment.value == [DOT] {
          continue;
        }
        if segment.value == [DOT, DOT] {
          if !nodes[current].Unused? && nodes[current].parent.Some? {
            current := nodes[current].parent.value;
          }
          continue;
        }
        if !nodes[current].Dir? {
          return Err(NotDir);
        }
        var child := FindChild(current, segment.value);
        if child.None? {
          return Err(NotFound);
        }
        current := child.value;
      }
    }

    /** Find the directory and the last name of a path. */
    method ResolveParent(path: seq<byte>) returns (r: ParentOf)
      requires Closed(nodes) && cwd < MAX_NODES
      ensures r == SplitLast(nodes, if path != [] && path[0] == SLASH then 0 else cwd, Components(path))
    {
      hide Components, NameEq, SplitLast, Find, Closed;
      var current: nat := if path != [] && path[0] == SLASH then 0 else cwd;
      var at := 0;
      assert path[0..] == path;
      ghost var goal := SplitLast(nodes, current, Components(path));
      while true
        invariant 0 <= at <= |path| && current < MAX_NODES && goal == SplitLast(nodes, current, Components(path[at..]))
        decreases |path| - at
      {
        var rc, segment, next := NextSegment(path, at);
        SplitStep(nodes, current, Components(path[at..]));
        if rc != Okay || segment.None? {
          return NoParent(Invalid);
        }
        at := next;
        var ahead := SkipSlashes(path, at);
        if ahead == |path| {
          if segment.value == [DOT] || segment.value == [DOT, DOT] {
            return NoParent(Invalid);
          }
          return ParentOf(current, segment.value);
        }
        if segment.value == [DOT] {
          continue;
        }
        if segment.value == [DOT, DOT] {
          if !nodes[current].Unused? && nodes[current].parent.Some? {
            current := nodes[current].parent.value;
          }
          continue;
        }
        var child := FindChild(current, segment.value);
        if child.None? {
          return NoParent(NotFound);
        }
        current := child.value;
        if !nodes[current].Dir? {
          return NoParent(NotDir);
        }
      }
    }

    // ----- calls -----

    ghost function Where(path: seq<byte>): Found
      requires Closed(nodes) && cwd < MAX_NODES
      reads this
    {
      Walk(nodes, if path != [] && path[0] == SLASH then 0 else cwd, Components(path))
    }

    method ChangeDir(path: seq<byte>) returns (rc: Code)
      requires Valid()
      modifies this`cwd
      ensures Valid() && Closed(nodes)
      ensures match old(Where(path))
              case Err(e) => rc == e && cwd == old(cwd)
              case At(n) => if nodes[n].Dir? then rc == Okay && cwd == n else rc == NotDir && cwd == old(cwd)
    {
      hide TreeOk, SlotsOk, Walk, Components, Closed;
      TreeClosed(nodes, rank);
      ParentInside(nodes, cwd);
      var r := ResolveFrom(cwd, path);
      if r.Err? {
        return r.rc;
      }
      if !nodes[r.node].Dir? {
        return NotDir;
      }
      cwd := r.node;
      rc := Okay;
    }

    ghost function Last(path: seq<byte>): ParentOf
      requires Closed(nodes) && cwd < MAX_NODES
      reads this
    {
      SplitLast(nodes, if path != [] && path[0] == SLASH then 0 else cwd, Components(path))
    }

    /** Create the node a path names, below the directory it leads to. */
    method CreateAt(path: seq<byte>, isDir: bool) returns (rc: Code, node: nat)
      requires Valid()
      modifies this`nodes, this`rank
      ensures Valid() && Closed(old(nodes))
      ensures match old(Last(path))
              case NoParent(e) => rc == e
              case ParentOf(p, name) => old(nodes)[p].Dir? && rc == CreateCode(old(nodes), p, name)
      ensures rc == Okay ==>
                && Some(node) == FirstUnused(old(nodes), 0) && node < MAX_NODES
                && var p := old(Last(path));
                   p.ParentOf? && nodes == Added(old(nodes), p.node, node, NewNode(p.node, p.name, isDir))
      ensures rc == Okay ==> Closed(nodes) && Where(path) == At(node)
      ensures rc != Okay ==> nodes == old(nodes)
      ensures OthersKept(old(nodes), data, nodes, data, node)
    {
      hide TreeOk, SlotsOk, Find, SplitLast, Components, Closed, OthersKept, CreateCode, Walk;
      TreeClosed(nodes, rank);
      ParentInside(nodes, cwd);
      node := 0;
      NothingChanged(nodes, data, node);
      var r := ResolveParent(path);
      RootUsed(nodes, rank);
      ParentDir(nodes, rank, if path != [] && path[0] == SLASH then 0 else cwd, Components(path));
      if r.NoParent? {
        return r.rc, 0;
      }
      rc, node := CreateNode(r.node, r.name, isDir);
      if rc == Okay {
        TreeClosed(nodes, rank);
        CreateFree(old(nodes), r.node, r.name);
        CreatedFound(old(nodes), old(rank), r.node, node, NewNode(r.node, r.name, isDir),
                     if path != [] && path[0] == SLASH then 0 else cwd, Components(path));
      }
    }

    method MakeDir(path: seq<byte>) returns (rc: Code)
      requires Valid()
      modifies this`nodes, this`rank
      ensures Valid() && Closed(old(nodes))
      ensures match old(Last(path))
              case NoParent(e) => rc == e
              case ParentOf(p, name) =>
                && old(nodes)[p].Dir? && rc == CreateCode(old(nodes), p, name)
                && (rc == Okay ==> && Created(old(nodes), p, Dir(name, Some(p), []), nodes) && Closed(nodes)
                                   && Where(path).At? && nodes[Where(path).node] == Dir(name, Some(p), []))
      ensures rc != Okay ==> nodes == old(nodes)
    {
      hide TreeOk, SlotsOk, Find, SplitLast, Components, Closed, OthersKept, CreateCode, Walk;
      var node;
      rc, node := CreateAt(path, true);
    }

    /** The file is empty from now on; its slot is given back. */
    method Truncate(n: nat)
      requires Valid() && n < MAX_NODES && nodes[n].File?
      modifies this`nodes, this`data
      ensures Valid() && nodes == old(nodes)[n := old(nodes)[n].(slot := None, size := 0)]
      ensures old(nodes)[n].slot.None? ==> nodes == old(nodes) && data == old(data)
      ensures OthersKept(old(nodes), old(data), nodes, data, n)
    {
      hide TreeOk, SlotsOk, OthersKept;
      TreeClosed(nodes, rank);
      ParentInside(nodes, n);
      var node := nodes[n].(slot := None, size := 0);
      RetaggedKeeps(nodes, rank, n, node);
      if nodes[n].slot.Some? {
        var s := nodes[n].slot.value;
        FreeKeeps(nodes, data, n, s, node);
        OthersNow(nodes, data, nodes[n := node], data[s := None], n, s);
        data := data[s := None];
      } else {
        EmptyFile(nodes, data, n);
        NothingChanged(nodes, data, n);
      }
      nodes := nodes[n := node];
    }

    /**
     Open a file, creating it if asked to, emptying it if asked to.  An open that
     fails changes nothing, but for one: a file to be created and emptied without
     being opened for writing is refused only when it is there.
     */
    method OpenFile(path: seq<byte>, flags: nat) returns (rc: Code, id: nat)
      requires Valid()
      modifies this`nodes, this`rank, this`data
      ensures Valid() && Closed(old(nodes))
      ensures rc == Okay ==>
                0 < id <= MAX_NODES && nodes[id - 1].File? && OthersKept(old(nodes), old(data), nodes, data, id - 1)
      ensures var truncates, writes := flags / O_TRUNC % 2 == 1, flags / O_WRONLY % 2 == 1;
              match old(Where(path))
              case At(n) =>
                && rc == (if !old(nodes)[n].File? then NotDir else if truncates && !writes then Invalid else Okay)
                && (rc == Okay ==> && id == n + 1
                                   && nodes == if truncates
                                      then old(nodes)[n := old(nodes)[n].(slot := None, size := 0)]
                                      else old(nodes))
                && (rc != Okay ==> nodes == old(nodes) && data == old(data))
              case Err(e) =>
                data == old(data) &&
                if e != NotFound || flags / O_CREAT % 2 == 0 then rc == e && nodes == old(nodes)
                else match old(Last(path))
                     case NoParent(e) => rc == e && nodes == old(nodes)
                     case ParentOf(p, name) =>
                       && old(nodes)[p].Dir?
                       && var made := CreateCode(old(nodes), p, name);
                          if made != Okay then rc == made && nodes == old(nodes)
                          else
                            && rc == (if truncates && !writes then Invalid else Okay)
                            && Created(old(nodes), p, File(name, Some(p), None, 0), nodes) && Closed(nodes)
                            && (rc == Okay ==> Where(path) == At(id - 1))
    {
      hide TreeOk, SlotsOk, Find, SplitLast, Components, Closed, OthersKept, CreateCode, Walk;
      TreeClosed(nodes, rank);
      ParentInside(nodes, cwd);
      RootUsed(nodes, rank);
      WalkUsed(nodes, rank, if path != [] && path[0] == SLASH then 0 else cwd, Components(path));
      id := 0;
      var r := ResolveFrom(cwd, path);
      var n := 0;
      if r.At? {
        NothingChanged(nodes, data, r.node);
      }
      if r == Err(NotFound) && flags / O_CREAT % 2 == 1 {
        rc, n := CreateAt(path, false);
        if rc != Okay {
          return;
        }
      } else if r.Err? {
        return r.rc, 0;
      } else {
        n := r.node;
      }
      TreeClosed(nodes, rank);
      ParentInside(nodes, n);
      if !nodes[n].File? {
        return NotDir, 0;
      }
      if flags / O_TRUNC % 2 == 1 {
        if flags / O_WRONLY % 2 == 0 {
          return Invalid, 0;
        }
        Truncate(n);
      }
      return Okay, n + 1;
    }

    /** Read a window of an open file. */
    method ReadNode(id: nat, offset: nat, cap: nat) returns (rc: Code, bytes: seq<byte>)
      requires Valid()
      ensures rc == if id == 0 || id > MAX_NODES || nodes[id - 1].Unused? then Invalid
              else if nodes[id - 1].File? then Okay else NotDir
      ensures rc == Okay ==> FileOk(nodes, data, id - 1) && bytes == Window(Contents(nodes, data, id - 1), offset, cap)
    {
      hide TreeOk;
      TreeClosed(nodes, rank);
      if id == 0 || id > MAX_NODES || nodes[id - 1].Unused? {
        return Invalid, [];
      }
      var node := nodes[id - 1];
      if !node.File? {
        return NotDir, [];
      }
      assert FileOk(nodes, data, id - 1);
      if offset >= node.size {
        return Okay, [];
      }
      var available := node.size - offset;
      var count := if available < cap then available else cap;
      bytes := [];
      var i := 0;
      while i < count
        invariant 0 <= i <= count && bytes == data[node.slot.value].value[offset..offset + i]
      {
        bytes := bytes + [data[node.slot.value].value[offset + i]];
        i := i + 1;
      }
      rc := Okay;
    }

    /** Write at an offset of an open file, taking a data slot for its first bytes. */
    method WriteNode(id: nat, offset: nat, bytes: seq<byte>) returns (rc: Code, written: nat)
      requires Valid()
      modifies this`nodes, this`data
      ensures Valid()
      ensures rc != Okay ==> nodes == old(nodes) && data == old(data)
      ensures id == 0 || id > MAX_NODES || old(nodes)[id - 1].Unused? ==> rc == Invalid
      ensures 0 < id <= MAX_NODES && old(nodes)[id - 1].Dir? ==> rc == NotDir
      ensures 0 < id <= MAX_NODES && old(nodes)[id - 1].File? ==>
                var n := id - 1;
                && rc == (if offset + |bytes| > SLOT_SIZE then NoSpace
                          else if bytes != [] && old(nodes)[n].slot.None? &&
                            (forall s :: 0 <= s < SLOT_COUNT ==> old(data)[s].Some?) then NoSpace else Okay)
                && (rc == Okay ==>
                      && written == |bytes| && nodes[n].File? && FileOk(old(nodes), old(data), n) &&
                         FileOk(nodes, data, n)
                      && (bytes != [] ==>
                            Contents(nodes, data, n) == Overlay(Contents(old(nodes), old(data), n), offset, bytes))
                      && OthersKept(old(nodes), old(data), nodes, data, n))
    {
      hide TreeOk, Overlay, OthersKept, SlotsOk;
      written := 0;
      TreeClosed(nodes, rank);
      if id == 0 || id > MAX_NODES || nodes[id - 1].Unused? {
        return Invalid, 0;
      }
      var n := id - 1;
      if !nodes[n].File? {
        return NotDir, 0;
      }
      if offset > SLOT_SIZE || |bytes| > SLOT_SIZE - offset {
        return NoSpace, 0;
      }
      FileFits(nodes, data, n);
      NothingChanged(nodes, data, n);
      if |bytes| == 0 {
        return Okay, 0;
      }
      var s := 0;
      var was := Zeros(SLOT_SIZE);
      if nodes[n].slot.Some? {
        s := nodes[n].slot.value;
        was := data[s].value;
      } else {
        while s < SLOT_COUNT && data[s].Some?
          invariant 0 <= s <= SLOT_COUNT && forall k :: 0 <= k < s ==> data[k].Some?
        {
          s := s + 1;
        }
        if s == SLOT_COUNT {
          return NoSpace, 0;
        }
      }
      WriteMeans(nodes, data, n, s, offset, bytes);
      var size := if offset + |bytes| > nodes[n].size then offset + |bytes| else nodes[n].size;
      RetaggedKeeps(nodes, rank, n, nodes[n].(slot := Some(s), size := size));
      data := data[s := Some(Splice(was, offset, bytes))];
      nodes := nodes[n := nodes[n].(slot := Some(s), size := size)];
      rc, written := Okay, |bytes|;
    }

    /** Take a child out of its directory, moving the later ones up, and give its slot back. */
    method Detach(n: nat) returns (ghost i: nat)
      requires Valid() && 0 < n < MAX_NODES && !nodes[n].Unused? && n != cwd
      requires nodes[n].Dir? ==> nodes[n].children == []
      modifies this`nodes, this`data
      ensures Valid() && old(nodes)[n].parent.Some? && old(nodes)[n].parent.value < MAX_NODES
      ensures var p := old(nodes)[n].parent.value;
              old(nodes)[p].Dir? && i < |old(nodes)[p].children| && old(nodes)[p].children[i] == n &&
                nodes == Removed(old(nodes), p, i)
      ensures OthersKept(old(nodes), old(data), nodes, data, n)
    {
      hide TreeOk, SlotsOk, OthersKept, Hangs, Removed;
      TreeClosed(nodes, rank);
      ParentInside(nodes, n);
      IsListed(nodes, rank, n);
      var p := nodes[n].parent.value;
      var cs, k := nodes[p].children, 0;
      while cs[k] != n
        invariant 0 <= k < |cs| && n !in cs[..k] && n in cs && nodes == old(nodes) && data == old(data)
        decreases |cs| - k
      {
        MoreToCome(cs, k, n);
        k := k + 1;
      }
      i := k;
      RemovedKeeps(nodes, rank, p, k);
      var before := nodes;
      RemovedIs(nodes, rank, p, k);
      nodes := nodes[p := nodes[p].(children := cs[..k] + cs[k + 1..])];
      ListedData(before, nodes, data, p);
      if nodes[n].File? && nodes[n].slot.Some? {
        var s := nodes[n].slot.value;
        FreeKeeps(nodes, data, n, s, Unused);
        OthersNow(nodes, data, nodes[n := Unused], data[s := None], n, s);
        KeptThrough(before, nodes, data, nodes[n := Unused], data[s := None], n);
        data := data[s := None];
      } else {
        SameOwners(nodes, nodes[n := Unused], data);
        DroppedKept(before, nodes, data, n);
      }
      nodes := nodes[n := Unused];
    }

    method Unlink(path: seq<byte>) returns (rc: Code)
      requires Valid()
      modifies this`nodes, this`data
      ensures Valid() && Closed(old(nodes))
      ensures match old(Where(path))
              case Err(e) => rc == e
              case At(n) => rc == if old(nodes)[n].Dir? then IsDir else Okay
      ensures rc == Okay ==>
                && old(Where(path)).At?
                && var n := old(Where(path)).node;
                   && TakenOut(old(nodes), nodes, n) && nodes[n].Unused? &&
                      OthersKept(old(nodes), old(data), nodes, data, n)
      ensures rc != Okay ==> nodes == old(nodes) && data == old(data)
    {
      hide TreeOk, SlotsOk, Walk, Components, Closed, OthersKept, Removed, TakenOut;
      TreeClosed(nodes, rank);
      ParentInside(nodes, cwd);
      RootUsed(nodes, rank);
      WalkUsed(nodes, rank, if path != [] && path[0] == SLASH then 0 else cwd, Components(path));
      var r := ResolveFrom(cwd, path);
      if r.Err? {
        return r.rc;
      }
      if r.node == 0 || nodes[r.node].Dir? {
        return IsDir;
      }
      ghost var i := Detach(r.node);
      RemovedUnused(old(nodes), old(nodes)[r.node].parent.value, i);
      rc := Okay;
    }

    /** Remove an empty directory, but never the root or the working directory. */
    method Rmdir(path: seq<byte>) returns (rc: Code)
      requires Valid()
      modifies this`nodes, this`data
      ensures Valid() && Closed(old(nodes))
      ensures match old(Where(path))
              case Err(e) => rc == e
              case At(n) =>
                rc == if n == 0 || n == cwd || !old(nodes)[n].Dir? then Invalid
                  else if old(nodes)[n].children != [] then NotEmpty else Okay
      ensures rc == Okay ==>
                && old(Where(path)).At?
                && var n := old(Where(path)).node;
                   && TakenOut(old(nodes), nodes, n) && nodes[n].Unused? &&
                      OthersKept(old(nodes), old(data), nodes, data, n)
      ensures rc != Okay ==> nodes == old(nodes) && data == old(data)
    {
      hide TreeOk, SlotsOk, Walk, Components, Closed, OthersKept, Removed, TakenOut;
      TreeClosed(nodes, rank);
      ParentInside(nodes, cwd);
      RootUsed(nodes, rank);
      WalkUsed(nodes, rank, if path != [] && path[0] == SLASH then 0 else cwd, Components(path));
      var r := ResolveFrom(cwd, path);
      if r.Err? {
        return r.rc;
      }
      if r.node == 0 || r.node == cwd || !nodes[r.node].Dir? {
        return Invalid;
      }
      if |nodes[r.node].children| != 0 {
        return NotEmpty;
      }
      ghost var i := Detach(r.node);
      RemovedUnused(old(nodes), old(nodes)[r.node].parent.value, i);
      rc := Okay;
    }

    // ----- the working directory's path -----

    /** The nodes from the working directory up, as many as the path buffer could name. */
    method Ancestors() returns (chain: seq<nat>)
      requires Valid()
      ensures chain != [] && chain[0] == cwd && IsChain(nodes, rank, chain)
      ensures |PathNorm.Joined(PathNames(nodes, rank, cwd))| < PATH_CAP ==> chain[|chain| - 1] == 0
    {
      hide TreeOk, SlotsOk, PathNames;
      TreeClosed(nodes, rank);
      ParentInside(nodes, cwd);
      chain := [cwd];
      ghost var depth := |PathNames(nodes, rank, cwd)|;
      while chain[|chain| - 1] != 0 && |chain| < PATH_CAP / 2
        invariant 0 < |chain| <= PATH_CAP / 2 && chain[0] == cwd && IsChain(nodes, rank, chain)
        invariant depth == |chain| - 1 + |PathNames(nodes, rank, chain[|chain| - 1])|
        decreases PATH_CAP / 2 - |chain|
      {
        var last := chain[|chain| - 1];
        PathStep(nodes, rank, last);
        chain := chain + [nodes[last].parent.value];
      }
      PathLong(nodes, rank, cwd);
      if chain[|chain| - 1] != 0 {
        PathStep(nodes, rank, chain[|chain| - 1]);
      }
    }

    /** The path of the working directory, cut off where the buffer ends. */
    method CwdPath() returns (text: seq<byte>)
      requires Valid()
      ensures |text| < PATH_CAP
      ensures |PathNorm.Joined(PathNames(nodes, rank, cwd))| < PATH_CAP ==>
                text == PathNorm.Text(PathNames(nodes, rank, cwd))
    {
      hide TreeOk, SlotsOk, PathNames, IsChain, PathNorm.Joined;
      TreeClosed(nodes, rank);
      ParentInside(nodes, cwd);
      RootPath(nodes, rank);
      if cwd == 0 {
        return [SLASH];
      }
      var chain := Ancestors();
      ghost var fits := |PathNorm.Joined(PathNames(nodes, rank, cwd))| < PATH_CAP;
      text := [];
      var i := |chain|;
      while i > 0
        invariant 0 <= i <= |chain| && |text| < PATH_CAP && ChainAt(nodes, rank, chain, i)
        invariant fits ==> text == if i < |chain| then PathNorm.Joined(PathNames(nodes, rank, chain[i])) else []
      {
        ChainStep(nodes, rank, chain, i - 1);
        var n := chain[i - 1];
        if n != 0 {
          ChainText(nodes, rank, chain, i - 1);
          if |text| + 1 >= PATH_CAP {
            break;
          }
          text := AddName(text, nodes[n].name);
        }
        i := i - 1;
      }
      if fits {
        ChainAtEnd(nodes, rank, chain);
        PathNotRoot(nodes, rank, cwd);
      }
      if text == [] {
        text := [SLASH];
      }
    }
  }

  /** Append a slash and as much of a name as the buffer holds. */
  method AddName(before: seq<byte>, name: seq<byte>) returns (text: seq<byte>)
    requires |before| + 1 < PATH_CAP
    ensures |text| < PATH_CAP && (|before| + 1 + |name| < PATH_CAP ==> text == before + [SLASH] + name)
  {
    text := before + [SLASH];
    var j := 0;
    while j < |name| && |text| + 1 < PATH_CAP
      invariant 0 <= j <= |name| && |text| < PATH_CAP && text == before + [SLASH] + name[..j]
    {
      text := text + [name[j]];
      j := j + 1;
    }
    assert name[..|name|] == name;
  }

  ghost predicate IsChain(nodes: seq<Node>, rank: seq<nat>, chain: seq<nat>) {
    && TreeOk(nodes, rank)
    && (forall i :: 0 <= i < |chain| ==> chain[i] < MAX_NODES && !nodes[chain[i]].Unused?)
    && (forall i :: 0 <= i < |chain| - 1 ==> chain[i] != 0 && nodes[chain[i]].parent == Some(chain[i + 1]))
  }

  lemma PathStep(nodes: seq<Node>, rank: seq<nat>, n: nat)
    requires TreeOk(nodes, rank) && 0 < n < MAX_NODES && !nodes[n].Unused?
    ensures nodes[n].parent.Some? && nodes[n].parent.value < MAX_NODES && !nodes[nodes[n].parent.value].Unused?
    ensures PathNames(nodes, rank, n) == PathNames(nodes, rank, nodes[n].parent.value) + [nodes[n].name]
  {
    assert Hangs(nodes, rank, n);
  }

  lemma RootPath(nodes: seq<Node>, rank: seq<nat>)
    requires TreeOk(nodes, rank)
    ensures |nodes| == MAX_NODES && !nodes[0].Unused? && PathNames(nodes, rank, 0) == [] && PathNorm.Joined([]) == []
  {}

  /** Every name takes two bytes of the path at least. */
  lemma {:induction false} JoinedTwice(s: seq<seq<byte>>)
    requires PathNorm.AllNames(s)
    ensures 2 * |s| <= |PathNorm.Joined(s)|
  {
    if s != [] {
      assert PathNorm.IsName(s[|s| - 1]);
      JoinedTwice(s[..|s| - 1]);
    }
  }

  lemma PathLong(nodes: seq<Node>, rank: seq<nat>, n: nat)
    requires TreeOk(nodes, rank) && n < MAX_NODES && !nodes[n].Unused?
    ensures 2 * |PathNames(nodes, rank, n)| <= |PathNorm.Joined(PathNames(nodes, rank, n))|
  {
    TreeClosed(nodes, rank);
    PathLeadsHome(nodes, rank, n);
    JoinedTwice(PathNames(nodes, rank, n));
  }

  ghost predicate ChainAt(nodes: seq<Node>, rank: seq<nat>, chain: seq<nat>, i: nat) {
    && IsChain(nodes, rank, chain) && i <= |chain| && TreeOk(nodes, rank) && |nodes| == MAX_NODES
    && (i < |chain| ==> chain[i] < MAX_NODES && !nodes[chain[i]].Unused?)
  }

  lemma ChainStep(nodes: seq<Node>, rank: seq<nat>, chain: seq<nat>, i: nat)
    requires IsChain(nodes, rank, chain) && i < |chain|
    ensures TreeOk(nodes, rank) && |nodes| == MAX_NODES && chain[i] < MAX_NODES && !nodes[chain[i]].Unused?
    ensures chain[i] == 0 ==> i == |chain| - 1
  {}

  lemma ChainAtEnd(nodes: seq<Node>, rank: seq<nat>, chain: seq<nat>)
    requires IsChain(nodes, rank, chain)
    ensures TreeOk(nodes, rank)
  {}

  /** The text of one more name of the chain, and that it fits if the whole does. */
  lemma ChainText(nodes: seq<Node>, rank: seq<nat>, chain: seq<nat>, i: nat)
    requires IsChain(nodes, rank, chain) && i < |chain| && chain[i] != 0
    ensures chain[|chain| - 1] == 0 ==>
              && i + 1 < |chain| && chain[i + 1] < MAX_NODES && !nodes[chain[i + 1]].Unused?
              && PathNorm.Joined(PathNames(nodes, rank, chain[i])) ==
                 PathNorm.Joined(PathNames(nodes, rank, chain[i + 1])) + [SLASH] + nodes[chain[i]].name
              && |PathNorm.Joined(PathNames(nodes, rank, chain[i]))| <=
                 |PathNorm.Joined(PathNames(nodes, rank, chain[0]))|
  {
    hide PathNames, PathNorm.Joined;
    if chain[|chain| - 1] == 0 {
      PathStep(nodes, rank, chain[i]);
      PathNorm.JoinedPush(PathNames(nodes, rank, chain[i + 1]), nodes[chain[i]].name);
      ChainGrows(nodes, rank, chain, i);
    }
  }

  lemma {:induction false} ChainGrows(nodes: seq<Node>, rank: seq<nat>, chain: seq<nat>, i: nat)
    requires IsChain(nodes, rank, chain) && i < |chain|
    ensures |PathNorm.Joined(PathNames(nodes, rank, chain[i]))| <= |PathNorm.Joined(PathNames(nodes, rank, chain[0]))|
  {
    hide PathNames, PathNorm.Joined;
    if i > 0 {
      ChainGrows(nodes, rank, chain, i - 1);
      PathStep(nodes, rank, chain[i - 1]);
      PathNorm.JoinedPush(PathNames(nodes, rank, chain[i]), nodes[chain[i - 1]].name);
    }
  }

  lemma PathNotRoot(nodes: seq<Node>, rank: seq<nat>, n: nat)
    requires TreeOk(nodes, rank) && 0 < n < MAX_NODES && !nodes[n].Unused?
    ensures PathNames(nodes, rank, n) != [] && PathNorm.Joined(PathNames(nodes, rank, n)) != []
  {
    hide PathNames;
    PathStep(nodes, rank, n);
    PathLong(nodes, rank, n);
  }

  /** Resolving the printed path of the working directory leads back to it, whatever the aliases. */
  lemma CwdPathLeadsBack(nodes: seq<Node>, rank: seq<nat>, cwd: nat, from: nat)
    requires TreeOk(nodes, rank) && Closed(nodes) && cwd < MAX_NODES && !nodes[cwd].Unused? && from < MAX_NODES
    ensures var text := PathNorm.Text(PathNames(nodes, rank, cwd));
            Walk(nodes, if text != [] && text[0] == SLASH then 0 else from, Components(text)) == At(cwd)
  {
    hide Walk, PathNames, PathNorm.Text, Closed, TreeOk;
    PathLeadsHome(nodes, rank, cwd);
    PathNorm.ComponentsText(PathNames(nodes, rank, cwd));
  }

  // ----- runs -----

  datatype Command =
    | DoChangeDir(path: seq<byte>)
    | DoMakeDir(path: seq<byte>)
    | DoOpen(path: seq<byte>, flags: nat)
    | DoWrite(id: nat, offset: nat, bytes: seq<byte>)
    | DoUnlink(path: seq<byte>)
    | DoRmdir(path: seq<byte>)

  /**
   In every state reached by any calls the nodes are a tree, the slots are owned and the working
   directory is live.
   */
  method Perform(fs: Filesystem, commands: seq<Command>)
    requires fs.Valid()
    modifies fs
    ensures fs.Valid()
  {
    hide TreeOk, SlotsOk, OthersKept;
    var i := 0;
    while i < |commands|
      invariant 0 <= i <= |commands| && fs.Valid()
    {
      match commands[i] {
        case DoChangeDir(path) => var _ := fs.ChangeDir(path);
        case DoMakeDir(path) => var _ := fs.MakeDir(path);
        case DoOpen(path, flags) => var _, _ := fs.OpenFile(path, flags);
        case DoWrite(id, offset, bytes) => var _, _ := fs.WriteNode(id, offset, bytes);
        case DoUnlink(path) => var _ := fs.Unlink(path);
        case DoRmdir(path) => var _ := fs.Rmdir(path);
      }
      i := i + 1;
    }
  }

  /** Node `n` is taken out of its directory's list, the others keeping their order, and nothing else changes. */
  ghost predicate TakenOut(nodes: seq<Node>, after: seq<Node>, n: nat) {
    exists p, i ::
      && 0 <= p < |nodes| && nodes[p].Dir? && 0 <= i < |nodes[p].children| && nodes[p].children[i] == n < |nodes|
      && after == Removed(nodes, p, i)
  }

  lemma RemovedUnused(nodes: seq<Node>, p: nat, i: nat)
    requires p < |nodes| && nodes[p].Dir? && i < |nodes[p].children| && nodes[p].children[i] < |nodes|
    ensures Removed(nodes, p, i)[nodes[p].children[i]].Unused?
    ensures TakenOut(nodes, Removed(nodes, p, i), nodes[p].children[i])
  {}

  lemma IsListed(nodes: seq<Node>, rank: seq<nat>, n: nat)
    requires TreeOk(nodes, rank) && 0 < n < MAX_NODES && !nodes[n].Unused?
    ensures nodes[n].parent.Some? && nodes[n].parent.value < MAX_NODES && nodes[n].parent.value != n
    ensures nodes[nodes[n].parent.value].Dir? && n in nodes[nodes[n].parent.value].children
  {
    assert Hangs(nodes, rank, n);
  }

  lemma MoreToCome(cs: seq<nat>, k: nat, n: nat)
    requires k < |cs| && n !in cs[..k] && n in cs && cs[k] != n
    ensures k + 1 < |cs| && n !in cs[..k + 1]
  {
    assert cs[..k + 1] == cs[..k] + [cs[k]];
    var j :| 0 <= j < |cs| && cs[j] == n;
  }

  lemma RemovedIs(nodes: seq<Node>, rank: seq<nat>, p: nat, i: nat)
    requires TreeOk(nodes, rank) && p < MAX_NODES && nodes[p].Dir? && i < |nodes[p].children|
    requires nodes[p].children[i] < MAX_NODES
    ensures Removed(nodes, p, i) ==
            nodes[p := nodes[p].(children := nodes[p].children[..i] +
                                 nodes[p].children[i + 1..])][nodes[p].children[i] := Unused]
    ensures nodes[p].children[i] != 0
  {
    hide NameEq;
    assert Lists(nodes, p);
  }

  /** A change to a directory's list changes no data. */
  lemma ListedData(nodes: seq<Node>, after: seq<Node>, data: slots, p: nat)
    requires SlotsOk(nodes, data) && p < |nodes| && nodes[p].Dir? && |after| == |nodes|
    requires after == nodes[p := after[p]] && after[p].Dir?
    ensures SlotsOk(after, data)
  {
    SameOwners(nodes, after, data);
  }

  lemma KeptThrough(nodes: seq<Node>, mid: seq<Node>, data: slots, after: seq<Node>, data': slots, n: nat)
    requires SlotsOk(nodes, data) && |mid| == |nodes| && OthersKept(mid, data, after, data', n)
    requires forall m :: 0 <= m < |nodes| && nodes[m].File? ==> mid[m] == nodes[m]
    ensures OthersKept(nodes, data, after, data', n)
  {
    forall m | 0 <= m < |nodes| && m != n && nodes[m].File?
      ensures m < |after| && after[m] == nodes[m] && FileOk(nodes, data, m) && FileOk(after, data', m)
      ensures Contents(after, data', m) == Contents(nodes, data, m)
    {
      assert FileOk(nodes, data, m) && mid[m] == nodes[m];
    }
  }

  lemma DroppedKept(nodes: seq<Node>, mid: seq<Node>, data: slots, n: nat)
    requires SlotsOk(nodes, data) && |mid| == |nodes| && n < |nodes|
    requires forall m :: 0 <= m < |nodes| && nodes[m].File? ==> mid[m] == nodes[m]
    ensures OthersKept(nodes, data, mid[n := Unused], data, n)
  {
    forall m | 0 <= m < |nodes| && m != n && nodes[m].File?
      ensures FileOk(nodes, data, m) && FileOk(mid[n := Unused], data, m)
    {
    }
  }

  /** A change of a file's slot and size leaves the tree as it is. */
  lemma RetaggedKeeps(nodes: seq<Node>, rank: seq<nat>, n: nat, node: Node)
    requires TreeOk(nodes, rank) && n < MAX_NODES && nodes[n].File? && node.File? && node.name == nodes[n].name
    requires node.parent == nodes[n].parent
    ensures TreeOk(nodes[n := node], rank)
  {
    hide NameEq, GoodName;
    var after := nodes[n := node];
    forall m | 0 <= m < MAX_NODES
      ensures Hangs(after, rank, m) && Lists(after, m)
    {
      assert Hangs(nodes, rank, m) && Lists(nodes, m);
    }
  }

  lemma EmptyFile(nodes: seq<Node>, data: slots, n: nat)
    requires SlotsOk(nodes, data) && n < |nodes| && nodes[n].File? && nodes[n].slot.None?
    ensures nodes[n].size == 0 && nodes[n := nodes[n].(slot := None, size := 0)] == nodes
  {
    assert FileOk(nodes, data, n);
  }

  lemma FileFits(nodes: seq<Node>, data: slots, n: nat)
    requires SlotsOk(nodes, data) && n < |nodes| && nodes[n].File?
    ensures FileOk(nodes, data, n)
  {}

  lemma NothingChanged(nodes: seq<Node>, data: slots, n: nat)
    requires SlotsOk(nodes, data)
    ensures OthersKept(nodes, data, nodes, data, n)
  {
    forall m | 0 <= m < |nodes|
      ensures FileOk(nodes, data, m)
    {
    }
  }

  lemma FindNone(nodes: seq<Node>, cs: seq<nat>, name: seq<byte>)
    requires (forall i :: 0 <= i < |cs| ==> cs[i] < |nodes|) && Find(nodes, cs, name).None?
    ensures forall i :: 0 <= i < |cs| ==> !NameEq(NameOf(nodes, cs[i]), name)
  {}

  lemma AddedData(nodes: seq<Node>, data: slots, p: nat, k: nat, node: Node)
    requires SlotsOk(nodes, data) && p < |nodes| && k < |nodes| && nodes[p].Dir? && nodes[k].Unused?
    requires node.File? ==> node.slot.None? && node.size == 0
    ensures SlotsOk(Added(nodes, p, k, node), data) && OthersKept(nodes, data, Added(nodes, p, k, node), data, k)
  {
    var after := Added(nodes, p, k, node);
    SameOwners(nodes, after, data);
    forall m | 0 <= m < |nodes| && m != k && nodes[m].File?
      ensures after[m] == nodes[m] && FileOk(nodes, data, m) && FileOk(after, data, m)
    {
    }
  }
}
