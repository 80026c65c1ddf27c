/** Descriptor operations and the process table. */
module FdKernel {
  import opened Bytes
  import opened Syscalls
  import opened FdState

  datatype State = Free | Running | Zombie
  datatype Proc = Proc(pid: nat, ppid: nat, state: State)

  /** What the file system answers to an open: a node with its size, or an error number. */
  datatype OpenResult = Opened(node: nat, size: Option<nat>, sizeErr: nat) | Refused(errno: nat)

  predicate Names(st: Files, t: nat, fd: int)
    requires t < |st.tables|
  {
    0 <= fd < FD_CAP && st.tables[t].fds[fd].Some?
  }

  /** The lowest unused descriptor. */
  function FreeFd(fds: entries, i: nat): (r: Option<nat>)
    requires i <= FD_CAP
    ensures r.Some? ==> i <= r.value < FD_CAP && fds[r.value].None? && forall k :: i <= k < r.value ==> fds[k].Some?
    ensures r.None? ==> forall k :: i <= k < FD_CAP ==> fds[k].Some?
    decreases FD_CAP - i
  {
    if i == FD_CAP then None else if fds[i].None? then Some(i) else FreeFd(fds, i + 1)
  }

  /** The lowest unused description. */
  function FreeDesc(descs: seq<Desc>, i: nat): (r: Option<nat>)
    requires i <= |descs|
    ensures r.Some? ==> && i <= r.value < |descs| && descs[r.value].Unused?
                        && forall k :: i <= k < r.value ==> descs[k].Open?
    ensures r.None? ==> forall k :: i <= k < |descs| ==> descs[k].Open?
    decreases |descs| - i
  {
    if i == |descs| then None else if descs[i].Unused? then Some(i) else FreeDesc(descs, i + 1)
  }

  /** Descriptions keep everything but their counts. */
  ghost predicate SameDescs(before: seq<Desc>, after: seq<Desc>) {
    && |before| == |after|
    && forall d :: 0 <= d < |after| && after[d].Open? ==>
         before[d].Open? && after[d] == before[d].(refs := after[d].refs)
  }

  const BARE := Table(NO_ENTRIES, false)

  datatype Command =
    | DoOpen(result: OpenResult, flags: nat)
    | DoClose(fd: int, closeErr: nat)
    | DoDup(fd: int)
    | DoDup2(oldfd: int, newfd: int, closeErr: nat)
    | DoSpawn
    | DoExit
    | DoReap(process: nat)

  /** The first process in use with this number. */
  function FindPid(procs: seq<Proc>, i: nat, pid: nat): (r: Option<nat>)
    requires i <= |procs|
    ensures r.Some? ==> i <= r.value < |procs| && procs[r.value].state != Free && procs[r.value].pid == pid
    ensures r.None? ==> forall k :: i <= k < |procs| ==> procs[k].state == Free || procs[k].pid != pid
    decreases |procs| - i
  {
    if i == |procs| then None else if procs[i].state != Free && procs[i].pid == pid then Some(i)
      else FindPid(procs, i + 1, pid)
  }

  // ----- what the operations on one table do -----

  /** Both a node that finds no descriptor and one that finds no description are given back. */
  ghost function OpenSpec(st: Files, t: nat, node: nat, flags: nat, offset: nat): (r: Files)
    requires Consistent(st) && t < PROCESS_MAX
  {
    var fd, d := FreeFd(st.tables[t].fds, 0), FreeDesc(st.descs, 0);
    if fd.None? || d.None? then st.(issued := st.issued + multiset{node}, closed := st.closed + multiset{node})
    else Install(st, t, fd.value, d.value, Vfs, node, offset, flags)
  }

  lemma GivenBack(st: Files, node: nat)
    requires Consistent(st)
    ensures Consistent(st.(issued := st.issued + multiset{node}, closed := st.closed + multiset{node}))
  {
    hide Refs, Held;
    var st' := st.(issued := st.issued + multiset{node}, closed := st.closed + multiset{node});
    forall d | 0 <= d < OFD_CAP
      ensures CountOk(st', d)
    {
      assert CountOk(st, d);
    }
  }

  /** Descriptor `fd` of table `t` now names description `desc`, unused before; nothing else is different. */
  ghost predicate Opens(st: Files, st': Files, t: nat, fd: nat, desc: Desc) {
    && t < |st.tables| == |st'.tables| && fd < FD_CAP && |st.descs| == |st'.descs|
    && st.tables[t].fds[fd].None? && st'.tables[t].fds[fd].Some?
    && var d := st'.tables[t].fds[fd].value;
       && d < |st.descs| && st.descs[d].Unused? && st'.descs[d] == desc
       && (forall e :: 0 <= e < |st.descs| && e != d ==> st'.descs[e] == st.descs[e])
       && (forall k :: 0 <= k < |st.tables| && k != t ==> st'.tables[k] == st.tables[k])
       && st'.tables[t].initialized == st.tables[t].initialized
       && (forall f :: 0 <= f < FD_CAP && f != fd ==> st'.tables[t].fds[f] == st.tables[t].fds[f])
  }

  ghost predicate ThreeUnused(descs: seq<Desc>) {
    exists a, b, c :: 0 <= a < b < c < |descs| && descs[a].Unused? && descs[b].Unused? && descs[c].Unused?
  }

  /** Descriptor 0 reads the terminal, 1 and 2 write to it, and the others are unused. */
  ghost predicate Terminal(st: Files, t: nat) {
    && t < |st.tables|
    && (forall k :: 3 <= k < FD_CAP ==> st.tables[t].fds[k].None?)
    && forall k :: 0 <= k < 3 ==>
                     && st.tables[t].fds[k].Some? && st.tables[t].fds[k].value < |st.descs|
                     && st.descs[st.tables[t].fds[k].value] == Open(1, if k == 0 then TtyIn else TtyOut, 0, 0, 0)
  }

  /** Whether releasing a descriptor closes a node of the file system. */
  ghost predicate ClosesNode(st: Files, t: nat, fd: nat)
    requires Consistent(st) && t < PROCESS_MAX && fd < FD_CAP && st.tables[t].fds[fd].Some?
  {
    EntryOpen(st, t, fd);
    var desc := st.descs[st.tables[t].fds[fd].value];
    desc.refs == 1 && desc.kind == Vfs
  }

  ghost function CloseSpec(st: Files, t: nat, fd: nat): Files
    requires Consistent(st) && t < PROCESS_MAX && fd < FD_CAP && st.tables[t].fds[fd].Some?
  {
    EntryOpen(st, t, fd);
    Detach(st, t, fd)
  }

  ghost function DupSpec(st: Files, t: nat, fd: nat, to: nat): Files
    requires Consistent(st) && t < PROCESS_MAX && fd < FD_CAP && to < FD_CAP && st.tables[t].fds[fd].Some?
  {
    EntryOpen(st, t, fd);
    Attach(st, t, to, st.tables[t].fds[fd].value)
  }

  /** The second name a descriptor gets: what it named before is released first. */
  ghost function Dup2Spec(st: Files, t: nat, fd: nat, to: nat): Files
    requires Consistent(st) && t < PROCESS_MAX && fd < FD_CAP && to < FD_CAP && fd != to && st.tables[t].fds[fd].Some?
  {
    if st.tables[t].fds[to].Some? then
      DetachKeeps(st, t, to);
      DupSpec(CloseSpec(st, t, to), t, fd, to)
    else DupSpec(st, t, fd, to)
  }

  /** Processes have different numbers, all given out before. */
  ghost predicate Numbered(procs: seq<Proc>, nextPid: nat) {
    && (forall i :: 0 <= i < |procs| && procs[i].state != Free ==> procs[i].pid < nextPid)
    && (forall i, j :: 0 <= i < j < |procs| && procs[i].state != Free && procs[j].state != Free ==>
          procs[i].pid != procs[j].pid)
  }

  lemma StateChanges(procs: seq<Proc>, nextPid: nat, i: nat, now: State)
    requires Numbered(procs, nextPid) && i < |procs| && procs[i].state != Free && now != Free
    ensures Numbered(procs[i := procs[i].(state := now)], nextPid)
  {}

  class Kernel {
    var files: Files
    var procs: seq<Proc>
    var current: nat
    var nextPid: nat

    ghost predicate Valid()
      reads this
    {
      Orderly() && procs[current].state != Free
    }

    /** All of it but that there is a current process. */
    ghost predicate Orderly()
      reads this
    {
      && Consistent(files) && |procs| == PROCESS_MAX && current < PROCESS_MAX
      && Numbered(procs, nextPid)
      && (forall i :: 0 <= i < PROCESS_MAX ==>
            if procs[i].state == Free then procs[i] == Proc(0, 0, Free) && files.tables[i] == BARE
              else files.tables[i].initialized)
    }

    // ----- one table -----

    method AllocDescription(t: nat, fd: nat, kind: Kind, node: nat, flags: nat, offset: nat) returns (ok: bool)
      requires Consistent(files) && t < PROCESS_MAX && fd < FD_CAP && files.tables[t].fds[fd].None?
      modifies this`files
      ensures Consistent(files) && ok == FreeDesc(old(files.descs), 0).Some?
      ensures !ok ==> files == old(files)
      ensures kind != Vfs ==> files.issued == old(files.issued)
      ensures ok ==> Opens(old(files), files, t, fd, Open(1, kind, node, offset, flags))
      ensures ok ==> files == Install(old(files), t, fd, FreeDesc(old(files.descs), 0).value, kind, node, offset, flags)
    {
      hide Consistent, Refs, Held;
      ShapeOf(files);
      var i := 0;
      while i < OFD_CAP
        invariant 0 <= i <= OFD_CAP && files == old(files) && FreeDesc(files.descs, 0) == FreeDesc(files.descs, i)
      {
        if files.descs[i].Unused? {
          InstallKeeps(files, t, fd, i, kind, node, offset, flags);
          files := files.(descs := files.descs[i := Open(1, kind, node, offset, flags)],
                          issued := files.issued + if kind == Vfs then multiset{node} else multiset{});
          files := files.(tables := SetEntry(files.tables, t, fd, Some(i)));
          return true;
        }
        i := i + 1;
      }
      ok := false;
    }

    method ReleaseEntry(t: nat, fd: int, closeErr: int) returns (rc: int)
      requires Consistent(files) && t < PROCESS_MAX && 0 <= closeErr
      modifies this`files
      ensures Consistent(files)
      ensures !Names(old(files), t, fd) ==> rc == -EBADF && files == old(files)
      ensures Names(old(files), t, fd) ==>
                && files == CloseSpec(old(files), t, fd) && Drops(old(files), files, t, fd)
                && rc == (if ClosesNode(old(files), t, fd) then -closeErr else 0)
                && rc == if files.closed == old(files.closed) then 0 else -closeErr
    {
      hide Refs, Held, Consistent;
      ShapeOf(files);
      if fd < 0 || fd >= FD_CAP || files.tables[t].fds[fd].None? {
        return -EBADF;
      }
      EntryOpen(files, t, fd);
      DetachKeeps(files, t, fd);
      var index := files.tables[t].fds[fd].value;
      OpenCounted(files, index);
      files := files.(tables := SetEntry(files.tables, t, fd, None));
      var desc := files.descs[index];
      files := files.(descs := files.descs[index := desc.(refs := desc.refs - 1)]);
      if files.descs[index].refs != 0 {
        return 0;
      }
      rc := 0;
      if desc.kind == Vfs {
        files := files.(closed := files.closed + multiset{desc.node});
        rc := -closeErr;
      }
      files := files.(descs := files.descs[index := Unused]);
      assert files.descs == old(files.descs)[index := Unused];
      assert files.closed == old(files.closed) + NodeOf(desc);
    }

    /** Release every descriptor of a table. */
    method TableDestroy(t: nat)
      requires Consistent(files) && t < PROCESS_MAX
      modifies this`files
      ensures Consistent(files) && files.tables == old(files.tables)[t := BARE] && files.issued == old(files.issued)
      ensures SameDescs(old(files.descs), files.descs)
    {
      hide Consistent, Refs, Held;
      var i := 0;
      ShapeOf(files);
      while i < FD_CAP
        invariant 0 <= i <= FD_CAP && Consistent(files) && files.issued == old(files.issued)
        invariant SameDescs(old(files.descs), files.descs)
        invariant |files.tables| == PROCESS_MAX && files.tables[t].initialized == old(files.tables[t].initialized)
        invariant forall k :: 0 <= k < PROCESS_MAX && k != t ==> files.tables[k] == old(files.tables)[k]
        invariant forall k :: 0 <= k < i ==> files.tables[t].fds[k].None?
      {
        if files.tables[t].fds[i].Some? {
          EntryOpen(files, t, i);
          var _ := ReleaseEntry(t, i, 0);
        }
        i := i + 1;
      }
      ResetKeeps(files, t, false);
      files := files.(tables := files.tables[t := BARE]);
    }

    /** Give a bare table the three terminal descriptors; without room for them it stays bare. */
    method TableInit(t: nat)
      requires Consistent(files) && t < PROCESS_MAX && files.tables[t] == BARE
      modifies this`files
      ensures Consistent(files) && files.issued == old(files.issued) && |files.tables| == PROCESS_MAX
      ensures forall k :: 0 <= k < PROCESS_MAX && k != t ==> files.tables[k] == old(files.tables)[k]
      ensures files.tables[t].initialized ==> Terminal(files, t)
      ensures !files.tables[t].initialized ==> files.tables[t] == BARE
      ensures files.tables[t].initialized <==> ThreeUnused(old(files.descs))
    {
      hide Consistent, Refs, Held;
      ShapeOf(files);
      ghost var was := files.descs;
      var ok := AllocDescription(t, 0, TtyIn, 0, 0, 0);
      assert !ok ==> !ThreeUnused(was);
      if ok {
        ok := AllocDescription(t, 1, TtyOut, 0, 0, 0);
        assert !ok ==> !ThreeUnused(was);
      }
      if ok {
        ok := AllocDescription(t, 2, TtyOut, 0, 0, 0);
        assert ok <==> ThreeUnused(was);
      }
      if !ok {
        TableDestroy(t);
        return;
      }
      ResetKeeps(files, t, true);
      files := files.(tables := files.tables[t := files.tables[t].(initialized := true)]);
    }

    /** Share every description of one table with a bare one. */
    method TableClone(dst: nat, src: nat) returns (rc: int)
      requires Consistent(files) && dst < PROCESS_MAX && src < PROCESS_MAX && files.tables[dst] == BARE
      modifies this`files
      ensures Consistent(files) && files.issued == old(files.issued) && files.closed == old(files.closed)
      ensures SameDescs(old(files.descs), files.descs) && SameDescs(files.descs, old(files.descs))
      ensures rc == if old(files.tables)[src].initialized then 0 else -EINVAL
      ensures files.tables == if rc == 0 then old(files.tables)[dst := old(files.tables)[src]] else old(files.tables)
    {
      hide Consistent, Refs, Held;
      ShapeOf(files);
      if !files.tables[src].initialized {
        return -EINVAL;
      }
      var i := 0;
      while i < FD_CAP
        invariant 0 <= i <= FD_CAP && Consistent(files) && files.issued == old(files.issued)
        invariant files.closed == old(files.closed)
        invariant SameDescs(old(files.descs), files.descs) && SameDescs(files.descs, old(files.descs))
        invariant |files.tables| == PROCESS_MAX && !files.tables[dst].initialized
        invariant forall k :: 0 <= k < PROCESS_MAX && k != dst ==> files.tables[k] == old(files.tables)[k]
        invariant forall k :: 0 <= k < FD_CAP ==>
                    files.tables[dst].fds[k] == if k < i then files.tables[src].fds[k] else None
      {
        if files.tables[src].fds[i].Some? {
          EntryOpen(files, src, i);
          var index := files.tables[src].fds[i].value;
          ShapeOf(files);
          AttachKeeps(files, dst, i, index);
          files := files.(tables := SetEntry(files.tables, dst, i, Some(index)));
          files := files.(descs := files.descs[index := files.descs[index].(refs := files.descs[index].refs + 1)]);
        }
        i := i + 1;
      }
      ResetKeeps(files, dst, true);
      files := files.(tables := files.tables[dst := files.tables[dst].(initialized := true)]);
      assert files.tables[dst].fds == files.tables[src].fds;
      rc := 0;
    }

    // ----- calls of the current process -----

    /** A start with one process whose table holds the three terminal descriptors. */
    constructor ()
      ensures Valid() && files.tables[current].initialized && Terminal(files, current)
      ensures procs[current] == Proc(1, 0, Running)
      ensures forall i :: 0 <= i < PROCESS_MAX && i != current ==> procs[i].state == Free
    {
      files := Files(seq(OFD_CAP, _ => Unused), seq(PROCESS_MAX, _ => BARE), multiset{}, multiset{});
      procs := seq(PROCESS_MAX, _ => Proc(0, 0, Free))[0 := Proc(1, 0, Running)];
      nextPid := 2;
      current := 0;
      new;
      StartConsistent(files);
      assert files.descs[0].Unused? && files.descs[1].Unused? && files.descs[2].Unused?;
      assert ThreeUnused(files.descs);
      TableInit(0);
    }

    method OpenFd(result: OpenResult, flags: nat) returns (fd: int)
      requires Valid()
      modifies this`files
      ensures Valid()
      ensures match result
                case Refused(errno) => files == old(files) && fd == 0 - errno as int
                case Opened(node, size, sizeErr) =>
                  if flags / O_APPEND % 2 == 1 && size.None? then
                    fd == 0 - sizeErr as int &&
                      files == old(files).(issued := old(files.issued) + multiset{node},
                                           closed := old(files.closed) + multiset{node})
                  else
                    var free := FreeFd(old(files.tables[current].fds), 0);
                    && files == OpenSpec(old(files), current, node, flags,
                                         if flags / O_APPEND % 2 == 1 then size.value else 0)
                    && fd == if free.None? || FreeDesc(old(files.descs), 0).None? then -ENOSPC else free.value
      ensures 0 <= fd && result.Opened? && (flags / O_APPEND % 2 == 1 ==> result.size.Some?) ==>
                && fd < FD_CAP
                && Opens(old(files), files, current, fd,
                         Open(1, Vfs, result.node, if flags / O_APPEND % 2 == 1 then result.size.value else 0, flags))
    {
      hide Consistent, Opens, Refs, Held, Numbered;
      ShapeOf(files);
      if result.Refused? {
        return 0 - result.errno as int;
      }
      GivenBack(files, result.node);
      var offset := 0;
      if flags / O_APPEND % 2 == 1 {
        if result.size.None? {
          files := files.(issued := files.issued + multiset{result.node},
                          closed := files.closed + multiset{result.node});
          return 0 - result.sizeErr as int;
        }
        offset := result.size.value;
      }
      var free := FindFree(current);
      if free < 0 {
        files := files.(issued := files.issued + multiset{result.node}, closed := files.closed + multiset{result.node});
        return -ENOSPC;
      }
      var ok := AllocDescription(current, free, Vfs, result.node, flags, offset);
      if !ok {
        files := files.(issued := files.issued + multiset{result.node}, closed := files.closed + multiset{result.node});
        return -ENOSPC;
      }
      fd := free;
    }

    method FindFree(t: nat) returns (fd: int)
      requires t < |files.tables|
      ensures fd == match FreeFd(files.tables[t].fds, 0) case Some(i) => i case None => -1
    {
      fd := 0;
      while fd < FD_CAP
        invariant 0 <= fd <= FD_CAP && FreeFd(files.tables[t].fds, 0) == FreeFd(files.tables[t].fds, fd)
      {
        if files.tables[t].fds[fd].None? {
          return;
        }
        fd := fd + 1;
      }
      fd := -1;
    }

    method CloseFd(fd: int, closeErr: int) returns (rc: int)
      requires Valid() && 0 <= closeErr
      modifies this`files
      ensures Valid()
      ensures if Names(old(files), current, fd) then
                  && files == CloseSpec(old(files), current, fd) && Drops(old(files), files, current, fd)
                  && rc == (if ClosesNode(old(files), current, fd) then -closeErr else 0)
                  && rc == if files.closed == old(files.closed) then 0 else -closeErr
                else files == old(files) && rc == -EBADF
    {
      hide Consistent;
      ShapeOf(files);
      rc := ReleaseEntry(current, fd, closeErr);
      ShapeOf(files);
    }

    method Dup(oldfd: int) returns (newfd: int)
      requires Valid()
      modifies this`files
      ensures Valid()
      ensures newfd == -EBADF <==> !(0 <= oldfd < FD_CAP && old(files).tables[current].fds[oldfd].Some?)
      ensures var free := FreeFd(old(files.tables[current].fds), 0);
                if !Names(old(files), current, oldfd) then files == old(files) && newfd == -EBADF
                else if free.None? then files == old(files) && newfd == -ENOSPC
                else
                  && files == DupSpec(old(files), current, oldfd, free.value) && newfd == free.value
                  && Shares(old(files), files, current, oldfd, newfd)
    {
      hide Consistent;
      ShapeOf(files);
      if !Names(files, current, oldfd) {
        return -EBADF;
      }
      newfd := FindFree(current);
      if newfd < 0 {
        return -ENOSPC;
      }
      EntryOpen(files, current, oldfd);
      var d := files.tables[current].fds[oldfd].value;
      AttachKeeps(files, current, newfd, d);
      files := Attach(files, current, newfd, d);
    }

    method Dup2(oldfd: int, newfd: int, closeErr: int) returns (rc: int)
      requires Valid() && 0 <= closeErr
      modifies this`files
      ensures Valid()
      ensures if !Names(old(files), current, oldfd) || !(0 <= newfd < FD_CAP) then files == old(files) && rc == -EBADF
                else if oldfd == newfd then files == old(files) && rc == newfd
                else if Names(old(files), current, newfd) && ClosesNode(old(files), current, newfd) && closeErr > 0 then
                  files == CloseSpec(old(files), current, newfd) && rc == -closeErr
                else
                  && files == Dup2Spec(old(files), current, oldfd, newfd) && rc == newfd
                  && if !Names(old(files), current, newfd) then Shares(old(files), files, current, oldfd, newfd)
                     else exists mid :: && Drops(old(files), mid, current, newfd)
                                        && Shares(mid, files, current, oldfd, newfd)
    {
      hide Consistent;
      ShapeOf(files);
      if !Names(files, current, oldfd) || newfd < 0 || newfd >= FD_CAP {
        return -EBADF;
      }
      if oldfd == newfd {
        return newfd;
      }
      if files.tables[current].fds[newfd].Some? {
        EntryOpen(files, current, newfd);
        rc := ReleaseEntry(current, newfd, closeErr);
        ShapeOf(files);
        if rc < 0 {
          return;
        }
      }
      EntryOpen(files, current, oldfd);
      var d := files.tables[current].fds[oldfd].value;
      AttachKeeps(files, current, newfd, d);
      files := Attach(files, current, newfd, d);
      rc := newfd;
    }

    // ----- processes -----

    /** Start a child of the current process in the first free slot, sharing its descriptions. */
    method Spawn() returns (child: Option<nat>)
      requires Valid()
      modifies this
      ensures Valid()
      ensures child.None? ==>
                (forall i :: 0 <= i < PROCESS_MAX ==> old(procs[i]).state != Free) && files == old(files) &&
                  procs == old(procs) && current == old(current)
      ensures child.Some? ==>
                && child.value < PROCESS_MAX && old(procs[child.value]).state == Free && current == child.value
                && (forall i :: 0 <= i < child.value ==> old(procs[i]).state != Free)
                && procs == old(procs)[current := Proc(old(nextPid), old(procs[current]).pid, Running)]
                && files.tables == old(files.tables)[current := old(files.tables[current])]
                && files.issued == old(files.issued) && files.closed == old(files.closed)
                && SameDescs(old(files.descs), files.descs) && SameDescs(files.descs, old(files.descs))
    {
      hide Consistent, SameDescs;
      var i := 0;
      while i < PROCESS_MAX
        invariant 0 <= i <= PROCESS_MAX && files == old(files) && procs == old(procs) && current == old(current)
        invariant nextPid == old(nextPid)
        invariant forall k :: 0 <= k < i ==> procs[k].state != Free
      {
        if procs[i].state == Free {
          ShapeOf(files);
          var rc := TableClone(i, current);
          ShapeOf(files);
          procs := procs[i := Proc(nextPid, procs[current].pid, Running)];
          nextPid := nextPid + 1;
          current := i;
          return Some(i);
        }
        i := i + 1;
      }
      child := None;
    }

    /** End the current process; its parent, if it has one, goes on. */
    method ExitCurrent()
      requires Valid()
      modifies this`procs, this`current
      ensures Valid()
      ensures var dead := old(procs)[old(current) := old(procs[current]).(state := Zombie)];
              match FindPid(dead, 0, old(procs[current]).ppid)
              case None => procs == dead && current == old(current)
              case Some(p) => procs == dead[p := dead[p].(state := Running)] && current == p
    {
      hide Consistent, Refs, Held, Numbered;
      var me := current;
      StateChanges(procs, nextPid, me, Zombie);
      procs := procs[me := procs[me].(state := Zombie)];
      var i := 0;
      while i < PROCESS_MAX
        invariant 0 <= i <= PROCESS_MAX && current == me && procs == old(procs)[me := old(procs)[me].(state := Zombie)]
        invariant FindPid(procs, 0, procs[me].ppid) == FindPid(procs, i, procs[me].ppid)
      {
        if procs[i].state != Free && procs[i].pid == procs[me].ppid {
          StateChanges(procs, nextPid, i, Running);
          procs := procs[i := procs[i].(state := Running)];
          current := i;
          return;
        }
        i := i + 1;
      }
    }

    /**
     Remove a process that has ended: only the references of the others remain.
     There is no current process afterwards if that was the one, which had no parent
     to go on when it ended.
     */
    method Reap(p: nat)
      requires Valid() && p < PROCESS_MAX
      modifies this`files, this`procs
      ensures Orderly() && (Valid() <==> p != current || old(procs[p]).state != Zombie)
      ensures old(procs[p]).state != Zombie ==> files == old(files) && procs == old(procs)
      ensures old(procs[p]).state == Zombie ==>
                && files.tables == old(files.tables)[p := BARE] && procs == old(procs)[p := Proc(0, 0, Free)]
                && files.issued == old(files.issued) && SameDescs(old(files.descs), files.descs)
      ensures old(procs[p]).state == Zombie ==>
                forall d :: 0 <= d < OFD_CAP ==>
                              Refs(files.tables, d) ==
                                Refs(old(files.tables), d) - CountIn(old(files.tables[p]).fds, d) &&
                              (files.descs[d].Open? <==>
                                 old(files.descs)[d].Open? &&
                                   Refs(old(files.tables), d) > CountIn(old(files.tables[p]).fds, d))
    {
      hide Consistent, SameDescs, Refs, CountIn;
      if procs[p].state != Zombie {
        return;
      }
      ghost var before := files;
      ShapeOf(before);
      TableDestroy(p);
      ShapeOf(files);
      procs := procs[p := Proc(0, 0, Free)];
      forall d | 0 <= d < OFD_CAP
        ensures Refs(files.tables, d) == Refs(before.tables, d) - CountIn(before.tables[p].fds, d)
        ensures files.descs[d].Open? <==>
                  before.descs[d].Open? && Refs(before.tables, d) > CountIn(before.tables[p].fds, d)
      {
        RefsUpdate(before.tables, p, BARE, d);
        CountInNone(BARE.fds, d);
        InUseIff(before, d);
        InUseIff(files, d);
      }
    }

    /** Run a program that opens and closes nothing: start it, let it end, reap it.  No trace is left. */
    method RunAndReap() returns (ran: bool)
      requires Valid() && procs[current].state == Running
      modifies this
      ensures Valid() && current == old(current) && procs == old(procs)
      ensures files.tables == old(files.tables) && files.descs == old(files.descs)
      ensures ran <==> exists i :: 0 <= i < PROCESS_MAX && old(procs[i]).state == Free
    {
      hide Consistent, Refs;
      ghost var before, parent := files, current;
      ShapeOf(before);
      var child := Spawn();
      if child.None? {
        return false;
      }
      ghost var dead := procs[current := procs[current].(state := Zombie)];
      assert dead[parent] == old(procs)[parent];
      ParentFound(dead, parent, dead[current].ppid);
      ExitCurrent();
      Reap(child.value);
      assert procs == old(procs);
      assert files.tables == before.tables;
      SameAgain(before, files);
      ran := true;
    }

    // ----- runs -----

    /**
     Over any run of calls, failing ones included, every count stays right.  A run
     ends early only where the current process is reaped.
     */
    method Perform(commands: seq<Command>) returns (done: nat)
      requires Valid()
      modifies this
      ensures Orderly() && done <= |commands| && (done < |commands| ==> !Valid())
      ensures !Valid() ==> 0 < done && commands[done - 1] == DoReap(current) && procs[current].state == Free
    {
      hide Consistent;
      done := 0;
      while done < |commands|
        invariant 0 <= done <= |commands| && Valid()
      {
        done := done + 1;
        match commands[done - 1] {
          case DoOpen(result, flags) => var _ := OpenFd(result, flags);
          case DoClose(fd, closeErr) => var _ := CloseFd(fd, closeErr);
          case DoDup(fd) => var _ := Dup(fd);
          case DoDup2(oldfd, newfd, closeErr) => var _ := Dup2(oldfd, newfd, closeErr);
          case DoSpawn => var _ := Spawn();
          case DoExit => ExitCurrent();
          case DoReap(process) =>
            if process < PROCESS_MAX {
              Reap(process);
              if procs[current].state == Free {
                return;
              }
            }
        }
      }
    }
  }

  lemma ParentFound(procs: seq<Proc>, p: nat, pid: nat)
    requires p < |procs| && procs[p].state != Free && procs[p].pid == pid
    requires forall i :: 0 <= i < |procs| && i != p && procs[i].state != Free ==> procs[i].pid != pid
    ensures FindPid(procs, 0, pid) == Some(p)
  {}

  /** The counts, and with them the descriptions, are determined by the tables. */
  lemma SameAgain(a: Files, b: Files)
    requires Consistent(a) && Consistent(b) && a.tables == b.tables
    requires forall d :: 0 <= d < OFD_CAP && a.descs[d].Open? && b.descs[d].Open? ==>
                           b.descs[d] == a.descs[d].(refs := b.descs[d].refs)
    ensures a.descs == b.descs
  {
    hide Refs;
    forall d | 0 <= d < OFD_CAP
      ensures a.descs[d] == b.descs[d]
    {
      InUseIff(a, d);
      InUseIff(b, d);
      assert CountOk(a, d) && CountOk(b, d);
    }
  }

  lemma InUseIff(st: Files, d: nat)
    requires Consistent(st) && d < OFD_CAP
    ensures st.descs[d].Open? <==> Refs(st.tables, d) > 0
  {
    assert CountOk(st, d);
  }

  lemma StartConsistent(st: Files)
    requires st == Files(seq(OFD_CAP, _ => Unused), seq(PROCESS_MAX, _ => BARE), multiset{}, multiset{})
    ensures Consistent(st)
  {
    hide Refs, Held;
    forall d | 0 <= d < OFD_CAP
      ensures CountOk(st, d)
    {
      NoRefs(st.tables, d);
    }
    forall n: nat
      ensures Held(st.descs, n) == 0
    {
      NoneHeld(st.descs, n);
    }
  }

  lemma {:induction false} NoRefs(tables: seq<Table>, d: nat)
    requires forall t :: 0 <= t < |tables| ==> tables[t] == BARE
    ensures Refs(tables, d) == 0
  {
    if tables != [] {
      NoRefs(tables[..|tables| - 1], d);
      CountInNone(BARE.fds, d);
    }
  }

  lemma {:induction false} NoneHeld(descs: seq<Desc>, n: nat)
    requires forall d :: 0 <= d < |descs| ==> descs[d].Unused?
    ensures Held(descs, n) == 0
  {
    if descs != [] {
      NoneHeld(descs[..|descs| - 1], n);
    }
  }

  lemma OpenCounted(st: Files, d: nat)
    requires Consistent(st) && d < OFD_CAP && st.descs[d].Open?
    ensures 0 < st.descs[d].refs == Refs(st.tables, d)
  {
    assert CountOk(st, d);
  }

  lemma ShapeOf(st: Files)
    requires Consistent(st)
    ensures |st.descs| == OFD_CAP && |st.tables| == PROCESS_MAX
  {}

  /** The flag of a table does not count. */
  lemma ResetKeeps(st: Files, t: nat, flag: bool)
    requires Consistent(st) && t < PROCESS_MAX
    ensures Consistent(st.(tables := st.tables[t := st.tables[t].(initialized := flag)]))
    ensures (forall k :: 0 <= k < FD_CAP ==> st.tables[t].fds[k].None?) ==> st.tables[t].(initialized := false) == BARE
  {
    hide Refs, Held;
    var st' := st.(tables := st.tables[t := st.tables[t].(initialized := flag)]);
    forall d | 0 <= d < OFD_CAP
      ensures CountOk(st', d)
    {
      assert CountOk(st, d);
      RefsUpdate(st.tables, t, st'.tables[t], d);
    }
    if forall k :: 0 <= k < FD_CAP ==> st.tables[t].fds[k].None? {
      assert st.tables[t].fds == NO_ENTRIES;
    }
  }
}
