/**
 Shell redirection over the descriptor table: any number of redirections, whether
 they succeed or fail, followed by a restore leaves every descriptor and every
 description as it was.
 */
module FdRedir {
  import opened Bytes
  import opened Syscalls
  import opened FdState
  import opened FdKernel

  /** Everything of `a` but table `t` is still so in `b`. */
  ghost predicate Core(a: Files, b: Files, t: nat) {
    && Consistent(a) && Consistent(b) && t < PROCESS_MAX
    && |a.tables| == |b.tables| == PROCESS_MAX && |a.descs| == |b.descs| == OFD_CAP
    && b.tables[t].initialized == a.tables[t].initialized
    && (forall k :: 0 <= k < PROCESS_MAX && k != t ==> b.tables[k] == a.tables[k])
    && (forall d :: 0 <= d < OFD_CAP && a.descs[d].Open? ==>
          b.descs[d].Open? && b.descs[d] == a.descs[d].(refs := b.descs[d].refs))
  }

  lemma CoreInstall(a: Files, b: Files, t: nat, fd: nat, d: nat, node: nat, offset: nat, flags: nat)
    requires Core(a, b, t) && fd < FD_CAP && d < OFD_CAP && b.tables[t].fds[fd].None? && b.descs[d].Unused?
    ensures Core(a, Install(b, t, fd, d, Vfs, node, offset, flags), t) && a.descs[d].Unused?
  {
    hide Consistent;
    InstallKeeps(b, t, fd, d, Vfs, node, offset, flags);
  }

  lemma CoreAttach(a: Files, b: Files, t: nat, fd: nat, d: nat)
    requires Core(a, b, t) && fd < FD_CAP && d < OFD_CAP && b.tables[t].fds[fd].None? && b.descs[d].Open?
    ensures Core(a, Attach(b, t, fd, d), t)
  {
    hide Consistent;
    AttachKeeps(b, t, fd, d);
  }

  /** Releasing a descriptor whose description is new, or is also named by `other`. */
  lemma CoreDetach(a: Files, b: Files, t: nat, fd: nat, other: nat)
    requires Core(a, b, t) && fd < FD_CAP && b.tables[t].fds[fd].Some?
    requires var d := b.tables[t].fds[fd].value;
             (d < OFD_CAP && a.descs[d].Unused?) || (other < FD_CAP && other != fd && b.tables[t].fds[other] == Some(d))
    ensures var d := b.tables[t].fds[fd].value; d < OFD_CAP && b.descs[d].Open?
    ensures Core(a, Detach(b, t, fd), t)
  {
    hide Consistent;
    DetachKeeps(b, t, fd);
    var d, c := b.tables[t].fds[fd].value, Detach(b, t, fd);
    if a.descs[d].Open? {
      EntryOpen(c, t, other);
    }
  }

  predicate NotSaved(saved: seq<int>, f: int)
    requires |saved| == 3
  {
    saved[0] != f && saved[1] != f && saved[2] != f
  }

  /** A stream names what it named, or a new description while descriptor `saved[i]` keeps the old one. */
  ghost predicate Stream(a: Files, af: entries, bf: entries, saved: seq<int>, i: nat)
    requires i < 3 && |saved| == 3
  {
    && af[i].Some? && bf[i].Some? && bf[i].value < |a.descs|
    && if saved[i] == -1 then bf[i] == af[i]
       else
         && 3 <= saved[i] < FD_CAP && af[saved[i]].None? && bf[saved[i]] == af[i]
         && (bf[i] == af[i] || a.descs[bf[i].value].Unused?)
  }

  /** The descriptors while redirections are in force; `extra` is one just opened. */
  ghost predicate Arranged(a: Files, b: Files, t: nat, saved: seq<int>, extra: int) {
    && Core(a, b, t) && |saved| == 3
    && var af, bf := a.tables[t].fds, b.tables[t].fds;
       && Stream(a, af, bf, saved, 0) && Stream(a, af, bf, saved, 1) && Stream(a, af, bf, saved, 2)
       && (saved[0] != -1 ==> saved[0] != saved[1] && saved[0] != saved[2]) && (saved[1] != -1 ==> saved[1] != saved[2])
       && (forall f :: 3 <= f < FD_CAP && NotSaved(saved, f) && f != extra ==> bf[f] == af[f])
       && (extra != -1 ==>
             && 3 <= extra < FD_CAP && NotSaved(saved, extra) && af[extra].None? && bf[extra].Some?
             && bf[extra].value < OFD_CAP && a.descs[bf[extra].value].Unused?)
  }

  const NONE_SAVED := [-1, -1, -1]

  /** With nothing saved, the descriptors and the descriptions are as before. */
  lemma AllBack(a: Files, b: Files, t: nat)
    requires Arranged(a, b, t, NONE_SAVED, -1)
    ensures b.tables == a.tables && b.descs == a.descs
  {
    hide Consistent, Refs;
    forall f | 0 <= f < FD_CAP
      ensures b.tables[t].fds[f] == a.tables[t].fds[f]
    {
      if f < 3 {
        assert NONE_SAVED[f] == -1;
      }
    }
    assert b.tables[t].fds == a.tables[t].fds;
    assert b.tables == a.tables;
    forall d | 0 <= d < OFD_CAP
      ensures b.descs[d] == a.descs[d]
    {
      InUseIff(a, d);
      InUseIff(b, d);
      if a.descs[d].Open? {
        OpenCounted(a, d);
        OpenCounted(b, d);
      }
    }
  }

  /** The lowest unused descriptor is never one of the first three. */
  lemma FreeAbove(a: Files, b: Files, t: nat, saved: seq<int>, extra: int, f: nat)
    requires Arranged(a, b, t, saved, extra) && f < FD_CAP && b.tables[t].fds[f].None?
    ensures 3 <= f && NotSaved(saved, f) && f != extra && a.tables[t].fds[f].None?
  {}

  /** Opening the file. */
  lemma OpenArranged(a: Files, b: Files, t: nat, saved: seq<int>, f: nat, d: nat, node: nat, offset: nat, flags: nat)
    requires Arranged(a, b, t, saved, -1) && f < FD_CAP && d < OFD_CAP && b.tables[t].fds[f].None? && b.descs[d].Unused?
    ensures Arranged(a, Install(b, t, f, d, Vfs, node, offset, flags), t, saved, f)
  {
    hide Core;
    CoreParts(a, b, t);
    FreeAbove(a, b, t, saved, -1, f);
    CoreInstall(a, b, t, f, d, node, offset, flags);
  }

  lemma CoreParts(a: Files, b: Files, t: nat)
    requires Core(a, b, t)
    ensures Consistent(a) && Consistent(b) && t < PROCESS_MAX && |a.tables| == |b.tables| == PROCESS_MAX
    ensures |a.descs| == |b.descs| == OFD_CAP
  {}

  /** Keeping a second name for a stream before it is redirected. */
  lemma SaveArranged(a: Files, b: Files, t: nat, saved: seq<int>, extra: int, i: nat, f: nat)
    requires Arranged(a, b, t, saved, extra) && i < 3 && saved[i] == -1 && f < FD_CAP && b.tables[t].fds[f].None?
    ensures Arranged(a, DupSpec(b, t, i, f), t, saved[i := f], extra)
  {
    hide Core, Consistent, DupSpec;
    CoreParts(a, b, t);
    FreeAbove(a, b, t, saved, extra, f);
    DupIs(a, b, t, i, f);
  }

  /** What a dup2 over a stream does, when the description released is new or also named by `other`. */
  lemma Dup2Is(a: Files, b: Files, t: nat, f: nat, i: nat, other: nat)
    requires Core(a, b, t) && i < FD_CAP && f < FD_CAP && f != i && b.tables[t].fds[i].Some? && b.tables[t].fds[f].Some?
    requires var d := b.tables[t].fds[i].value;
             (d < OFD_CAP && a.descs[d].Unused?) || (other < FD_CAP && other != i && b.tables[t].fds[other] == Some(d))
    ensures Core(a, Dup2Spec(b, t, f, i), t)
    ensures Dup2Spec(b, t, f, i).tables[t].fds == b.tables[t].fds[i := b.tables[t].fds[f]]
  {
    hide Core, Consistent;
    CoreParts(a, b, t);
    CoreDetach(a, b, t, i, other);
    DetachKeeps(b, t, i);
    var m := Detach(b, t, i);
    CoreParts(a, m, t);
    EntryOpen(m, t, f);
    CoreAttach(a, m, t, i, m.tables[t].fds[f].value);
  }

  lemma CloseIs(a: Files, b: Files, t: nat, f: nat, other: nat)
    requires Core(a, b, t) && f < FD_CAP && b.tables[t].fds[f].Some?
    requires var d := b.tables[t].fds[f].value;
             (d < OFD_CAP && a.descs[d].Unused?) || (other < FD_CAP && other != f && b.tables[t].fds[other] == Some(d))
    ensures Core(a, CloseSpec(b, t, f), t) && CloseSpec(b, t, f).tables[t].fds == b.tables[t].fds[f := None]
  {
    hide Core, Consistent;
    CoreParts(a, b, t);
    CoreDetach(a, b, t, f, other);
  }

  lemma DupIs(a: Files, b: Files, t: nat, i: nat, f: nat)
    requires Core(a, b, t) && i < FD_CAP && f < FD_CAP && b.tables[t].fds[i].Some? && b.tables[t].fds[f].None?
    ensures Core(a, DupSpec(b, t, i, f), t)
    ensures DupSpec(b, t, i, f).tables[t].fds == b.tables[t].fds[f := b.tables[t].fds[i]]
  {
    hide Core, Consistent;
    CoreParts(a, b, t);
    EntryOpen(b, t, i);
    CoreAttach(a, b, t, f, b.tables[t].fds[i].value);
  }

  /** Redirecting a saved stream to the file just opened. */
  lemma OverArranged(a: Files, b: Files, t: nat, saved: seq<int>, f: nat, i: nat)
    requires Arranged(a, b, t, saved, f) && i < 3 && saved[i] != -1
    ensures Arranged(a, Dup2Spec(b, t, f, i), t, saved, f)
  {
    hide Core, Consistent, Dup2Spec;
    CoreParts(a, b, t);
    Dup2Is(a, b, t, f, i, saved[i]);
  }

  /** Closing the descriptor of the file just opened. */
  lemma DropArranged(a: Files, b: Files, t: nat, saved: seq<int>, f: nat)
    requires Arranged(a, b, t, saved, f)
    ensures Arranged(a, CloseSpec(b, t, f), t, saved, -1)
  {
    hide Core, Consistent, CloseSpec;
    CoreParts(a, b, t);
    CloseIs(a, b, t, f, f);
  }

  /** Giving a stream back its first name. */
  lemma BackArranged(a: Files, b: Files, t: nat, saved: seq<int>, i: nat)
    requires Arranged(a, b, t, saved, -1) && i < 3 && saved[i] != -1
    ensures var m := Dup2Spec(b, t, saved[i], i);
            Arranged(a, m, t, saved, -1) && m.tables[t].fds[i] == a.tables[t].fds[i]
  {
    hide Core, Consistent, Dup2Spec;
    CoreParts(a, b, t);
    Dup2Is(a, b, t, saved[i], i, saved[i]);
  }

  /** Closing its second name. */
  lemma ForgetArranged(a: Files, b: Files, t: nat, saved: seq<int>, i: nat)
    requires Arranged(a, b, t, saved, -1) && i < 3 && saved[i] != -1 && b.tables[t].fds[i] == a.tables[t].fds[i]
    ensures Arranged(a, CloseSpec(b, t, saved[i]), t, saved[i := -1], -1)
  {
    hide Core, Consistent, CloseSpec;
    CoreParts(a, b, t);
    CloseIs(a, b, t, saved[i], i);
  }

  // ----- the shell -----

  /** An open file: its node, where reading or writing goes on, and how it was opened. */
  datatype File = File(node: nat, offset: nat, flags: nat)

  /** The file was found, its size too where that matters, and there is a descriptor and a description for it. */
  ghost predicate Openable(b: Files, t: nat, result: OpenResult, flags: nat)
    requires t < |b.tables|
  {
    && result.Opened? && (flags / O_APPEND % 2 == 1 ==> result.size.Some?)
    && (exists f :: 0 <= f < FD_CAP && b.tables[t].fds[f].None?)
    && exists d :: 0 <= d < |b.descs| && b.descs[d].Unused?
  }

  ghost predicate TwoFree(fds: entries) {
    exists i, j :: 0 <= i < j < FD_CAP && fds[i].None? && fds[j].None?
  }

  /** After the lowest unused descriptor is taken there is another exactly if there were two. */
  lemma SecondFree(fds: entries, f: nat, d: nat)
    requires FreeFd(fds, 0) == Some(f)
    ensures TwoFree(fds) <==> FreeFd(fds[f := Some(d)], 0).Some?
  {
    var more := fds[f := Some(d)];
    if TwoFree(fds) {
      var i, j :| 0 <= i < j < FD_CAP && fds[i].None? && fds[j].None?;
      assert more[if i == f then j else i].None?;
    }
    var g := FreeFd(more, 0);
    if g.Some? {
      assert more[g.value] == fds[g.value] && f < g.value;
    }
  }

  /** The descriptor an operator redirects, and how the file is opened. */
  function Meaning(op: string): Option<(nat, nat)> {
    if op == "<" then Some((0, O_RDONLY))
    else if op == ">" then Some((1, O_CREAT + O_WRONLY + O_TRUNC))
    else if op == ">>" then Some((1, O_CREAT + O_WRONLY + O_APPEND))
    else if op == "2>" then Some((2, O_CREAT + O_WRONLY + O_TRUNC))
    else if op == "2>>" then Some((2, O_CREAT + O_WRONLY + O_APPEND))
    else None
  }

  /**
   `<` reads into stream 0; the others write stream 1, or 2 behind a `2`, creating the file and
   then emptying or extending it.
   */
  lemma MeaningMeans(op: string)
    ensures Meaning(op).Some? <==> op in {"<", ">", ">>", "2>", "2>>"}
    ensures Meaning(op).Some? ==>
              var (target, flags) := Meaning(op).value;
              && target == (if op == "<" then 0 else if op[0] == '2' then 2 else 1) && flags < 0x800
              && (flags / O_RDONLY % 2 == 1 <==> op == "<") && (flags / O_WRONLY % 2 == 1 <==> op != "<")
              && (flags / O_CREAT % 2 == 1 <==> op != "<")
              && (flags / O_APPEND % 2 == 1 <==> |op| >= 2 && op[|op| - 2..] == ">>")
              && (flags / O_TRUNC % 2 == 1 <==> op in {">", "2>"})
  {}

  /** The C library turns every error into -1. */
  function Posix(rc: int): int {
    if rc < 0 then -1 else rc
  }

  class Redirection {
    var saved: seq<int>

    constructor ()
      ensures saved == NONE_SAVED
    {
      saved := NONE_SAVED;
    }

    /** Open the file as the operator says. */
    method OpenTarget(k: Kernel, ghost a: Files, result: OpenResult, flags: nat) returns (fd: int)
      requires k.Valid() && Arranged(a, k.files, k.current, saved, -1) && (result.Refused? ==> result.errno > 0)
      requires result.Opened? ==> result.sizeErr > 0
      modifies k`files
      ensures k.Valid() && k.current < |old(k.files).tables|
      ensures 0 <= fd <==> Openable(old(k.files), k.current, result, flags)
      ensures fd < 0 ==> Arranged(a, k.files, k.current, saved, -1)
      ensures 0 <= fd ==>
                && fd < FD_CAP && |k.files.tables| == PROCESS_MAX && Arranged(a, k.files, k.current, saved, fd)
                && (TwoFree(old(k.files).tables[k.current].fds) <==> FreeFd(k.files.tables[k.current].fds, 0).Some?)
                && (flags / O_APPEND % 2 == 1 ==> result.Opened? && result.size.Some?) && result.Opened?
                && NamesFile(k.files, k.current, fd,
                             File(result.node, if flags / O_APPEND % 2 == 1 then result.size.value else 0, flags))
    {
      hide Kernel.Valid, Consistent, Arranged, Attach, Detach, NamesFile, Opens, TwoFree;
      ghost var b, t := k.files, k.current;
      ArrangedParts(a, b, t, saved, -1);
      fd := k.OpenFd(result, flags);
      fd := Posix(fd);
      if fd < 0 {
        ValidFiles(k);
        LogsApart(a, b, k.files, t, saved);
        return;
      }
      ghost var d := FreeDesc(b.descs, 0).value;
      ghost var offset := if flags / O_APPEND % 2 == 1 then result.size.value else 0;
      OpenArranged(a, b, t, saved, fd, d, result.node, offset, flags);
      InstallAt(b, t, fd, d, result.node, offset, flags);
      SecondFree(b.tables[t].fds, fd, d);
    }

    /** Redirect one stream; `result` is what opening the file brings. */
    method Apply(k: Kernel, ghost a: Files, op: string, result: OpenResult) returns (rc: int)
      requires k.Valid() && Arranged(a, k.files, k.current, saved, -1) && (result.Refused? ==> result.errno > 0)
      requires result.Opened? ==> result.sizeErr > 0
      modifies this, k`files
      ensures k.Valid() && Arranged(a, k.files, k.current, saved, -1)
      ensures rc in {0, -1} && (Meaning(op).None? ==> rc == -1 && k.files == old(k.files))
      ensures rc == 0 <==> && Meaning(op).Some?
                           && Openable(old(k.files), k.current, result, Meaning(op).value.1)
                           && (old(saved)[Meaning(op).value.0] == -1 ==> TwoFree(old(k.files).tables[k.current].fds))
      ensures rc == 0 ==>
                var (target, flags) := Meaning(op).value;
                && saved[target] != -1
                && NamesFile(k.files, k.current, target,
                             File(result.node, if flags / O_APPEND % 2 == 1 then result.size.value else 0, flags))
    {
      hide Kernel.Valid, Consistent, Arranged, NamesFile, Openable, TwoFree, FreeFd;
      var meaning := Meaning(op);
      if meaning.None? {
        return -1;
      }
      var (target, flags) := meaning.value;
      ArrangedParts(a, k.files, k.current, saved, -1);
      var fd := OpenTarget(k, a, result, flags);
      if fd < 0 {
        return -1;
      }
      ghost var offset := if flags / O_APPEND % 2 == 1 then result.size.value else 0;
      rc := Redirect(k, a, fd, target, File(result.node, offset, flags));
    }

    /** Point a stream to the file just opened, keeping what it named; the file's first descriptor goes either way. */
    method Redirect(k: Kernel, ghost a: Files, fd: nat, target: nat, ghost file: File) returns (rc: int)
      requires k.Valid() && Arranged(a, k.files, k.current, saved, fd) && target < 3 && fd < FD_CAP
      requires NamesFile(k.files, k.current, fd, file)
      modifies this, k`files
      ensures k.Valid() && Arranged(a, k.files, k.current, saved, -1)
      ensures rc in {0, -1}
      ensures rc == 0 <==> old(saved)[target] != -1 || FreeFd(old(k.files).tables[k.current].fds, 0).Some?
      ensures rc == 0 ==> |saved| == 3 && saved[target] != -1 && NamesFile(k.files, k.current, target, file)
    {
      hide Kernel.Valid, Consistent, Arranged, Install, Attach, Detach, NamesFile, DupSpec, CloseSpec, Dup2Spec;
      ghost var t := k.current;
      ArrangedParts(a, k.files, t, saved, fd);
      if saved[target] == -1 {
        ghost var c := k.files;
        var s := k.Dup(target);
        s := Posix(s);
        saved := saved[target := s];
        if saved[target] < 0 {
          assert saved == old(saved);
          DropArranged(a, k.files, t, saved, fd);
          var _ := k.CloseFd(fd, 0);
          return -1;
        }
        SaveArranged(a, c, t, old(saved), fd, target, s);
        DupAt(c, t, target, s, fd);
        ArrangedParts(a, k.files, t, saved, fd);
      }
      OverArranged(a, k.files, t, saved, fd, target);
      RedirectedTo(k.files, t, fd, target);
      var over := k.Dup2(fd, target, 0);
      DropArranged(a, k.files, t, saved, fd);
      var _ := k.CloseFd(fd, 0);
      rc := 0;
    }

    /** Give every redirected stream back what it named. */
    method Restore(k: Kernel, ghost a: Files)
      requires k.Valid() && Arranged(a, k.files, k.current, saved, -1)
      modifies this, k`files
      ensures k.Valid() && saved == NONE_SAVED
      ensures k.files.tables == a.tables && k.files.descs == a.descs
    {
      hide Kernel.Valid, Consistent, Arranged, DupSpec, CloseSpec, Dup2Spec;
      ArrangedParts(a, k.files, k.current, saved, -1);
      var i := 0;
      while i < 3
        invariant 0 <= i <= 3 && k.Valid() && Arranged(a, k.files, k.current, saved, -1) && |saved| == 3
        invariant forall j :: 0 <= j < i ==> saved[j] == -1
      {
        ArrangedParts(a, k.files, k.current, saved, -1);
        if saved[i] >= 0 {
          BackArranged(a, k.files, k.current, saved, i);
          var _ := k.Dup2(saved[i], i, 0);
          ArrangedParts(a, k.files, k.current, saved, -1);
          ForgetArranged(a, k.files, k.current, saved, i);
          var _ := k.CloseFd(saved[i], 0);
          saved := saved[i := -1];
        }
        i := i + 1;
      }
      assert saved == NONE_SAVED;
      AllBack(a, k.files, k.current);
    }
  }

  /**
   What a shell line does between start and restore: redirect a stream, or run a program that opens
   and closes nothing.
   */
  datatype Act = Redirect(op: string, result: OpenResult) | RunProgram

  /**
   Any sequence of redirections, successful or failing, and programs run under
   them, and then a restore: with descriptors 0 to 2 open and no close failing,
   every descriptor of every process and every description is as before.
   */
  method Session(k: Kernel, acts: seq<Act>)
    requires k.Valid() && k.procs[k.current].state == Running
    requires forall i :: 0 <= i < 3 ==> k.files.tables[k.current].fds[i].Some?
    requires forall i :: 0 <= i < |acts| && acts[i].Redirect? ==>
               if acts[i].result.Refused? then acts[i].result.errno > 0 else acts[i].result.sizeErr > 0
    modifies k
    ensures k.Valid() && k.files.tables == old(k.files.tables) && k.files.descs == old(k.files.descs)
    ensures k.procs == old(k.procs) && k.current == old(k.current)
  {
    hide Consistent, Arranged;
    var redir := new Redirection();
    ghost var a := k.files;
    StartArranged(a, k.current);
    var i := 0;
    while i < |acts|
      invariant 0 <= i <= |acts| && k.Valid() && Arranged(a, k.files, k.current, redir.saved, -1) && fresh(redir)
      invariant k.procs == old(k.procs) && k.current == old(k.current)
    {
      match acts[i] {
        case Redirect(op, result) => var _ := redir.Apply(k, a, op, result);
        case RunProgram =>
          ghost var b := k.files;
          var _ := k.RunAndReap();
          LogsApart(a, b, k.files, k.current, redir.saved);
      }
      i := i + 1;
    }
    redir.Restore(k, a);
  }

  lemma StartArranged(a: Files, t: nat)
    requires Consistent(a) && t < PROCESS_MAX && forall i :: 0 <= i < 3 ==> a.tables[t].fds[i].Some?
    ensures Arranged(a, a, t, NONE_SAVED, -1)
  {
    var af := a.tables[t].fds;
    forall i | 0 <= i < 3
      ensures Stream(a, af, af, NONE_SAVED, i)
    {
      EntryOpen(a, t, i);
      assert NONE_SAVED[i] == -1;
    }
  }

  lemma InstallAt(b: Files, t: nat, f: nat, d: nat, node: nat, offset: nat, flags: nat)
    requires Consistent(b) && t < PROCESS_MAX && f < FD_CAP && d < OFD_CAP
    ensures var c := Install(b, t, f, d, Vfs, node, offset, flags);
            |c.descs| == OFD_CAP && |c.tables| == PROCESS_MAX && NamesFile(c, t, f, File(node, offset, flags))
  {}

  /** The descriptor names a description of a file. */
  ghost predicate NamesFile(b: Files, t: nat, f: nat, file: File)
    requires t < |b.tables| && f < FD_CAP
  {
    exists d :: && 0 <= d < |b.descs| && b.tables[t].fds[f] == Some(d) && b.descs[d].Open?
                && b.descs[d] == Open(b.descs[d].refs, Vfs, file.node, file.offset, file.flags)
  }

  /** A second name for another descriptor leaves this one alone. */
  lemma DupAt(b: Files, t: nat, i: nat, s: nat, f: nat)
    requires Consistent(b) && t < PROCESS_MAX && i < FD_CAP && s < FD_CAP && f < FD_CAP && f != s
    requires b.tables[t].fds[i].Some?
    ensures var c := DupSpec(b, t, i, s);
            |c.tables| == PROCESS_MAX && forall file :: NamesFile(b, t, f, file) ==> NamesFile(c, t, f, file)
  {}

  /** After the redirection the stream names the file. */
  lemma RedirectedTo(b: Files, t: nat, f: nat, i: nat)
    requires Consistent(b) && t < PROCESS_MAX && f < FD_CAP && i < FD_CAP && f != i && b.tables[t].fds[f].Some?
    ensures var m := Dup2Spec(b, t, f, i);
            && Consistent(m) && m.tables[t].fds[f].Some?
            && var c := CloseSpec(m, t, f);
               |c.tables| == PROCESS_MAX && forall file :: NamesFile(b, t, f, file) ==> NamesFile(c, t, i, file)
  {
    hide Consistent;
    ShapeOf(b);
    EntryOpen(b, t, f);
    var l := b;
    if b.tables[t].fds[i].Some? {
      DetachKeeps(b, t, i);
      l := Detach(b, t, i);
    }
    ShapeOf(l);
    EntryOpen(l, t, f);
    AttachKeeps(l, t, i, l.tables[t].fds[f].value);
    var m := Dup2Spec(b, t, f, i);
    ShapeOf(m);
    DetachKeeps(m, t, f);
    var c := CloseSpec(m, t, f);
    ShapeOf(c);
    EntryOpen(c, t, i);
  }

  lemma ArrangedParts(a: Files, b: Files, t: nat, saved: seq<int>, extra: int)
    requires Arranged(a, b, t, saved, extra)
    ensures |saved| == 3 && Consistent(a) && Consistent(b) && t < PROCESS_MAX && |b.tables| == PROCESS_MAX
    ensures |b.descs| == OFD_CAP
    ensures forall i :: 0 <= i < 3 ==>
              b.tables[t].fds[i].Some? &&
                (saved[i] == -1 || (3 <= saved[i] < FD_CAP && b.tables[t].fds[saved[i]].Some?))
    ensures extra != -1 ==> 3 <= extra < FD_CAP && b.tables[t].fds[extra].Some?
  {}

  lemma ValidFiles(k: Kernel)
    requires k.Valid()
    ensures Consistent(k.files)
  {}

  /** The record of nodes issued and closed plays no part. */
  lemma LogsApart(a: Files, b: Files, c: Files, t: nat, saved: seq<int>)
    requires Arranged(a, b, t, saved, -1) && Consistent(c) && c.descs == b.descs && c.tables == b.tables
    ensures Arranged(a, c, t, saved, -1)
  {}
}
