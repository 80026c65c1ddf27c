/**
 Open-file descriptions shared by the descriptor tables of all processes, and the
 three elementary changes every descriptor operation is made of.
 */
module FdState {
  import opened Bytes

  const FD_CAP := 32
  const OFD_CAP := 32
  const PROCESS_MAX := 16

  datatype Kind = TtyIn | TtyOut | Vfs
  datatype Desc = Unused | Open(refs: nat, kind: Kind, node: nat, offset: nat, flags: nat)

  /** The description each descriptor names. */
  type entries = s: seq<Option<nat>> | |s| == FD_CAP witness seq(FD_CAP, _ => None)

  const NO_ENTRIES: entries := seq(FD_CAP, _ => None)

  datatype Table = Table(fds: entries, initialized: bool)

  /** Descriptions, tables, and the nodes the file system has handed out and taken back. */
  datatype Files = Files(descs: seq<Desc>, tables: seq<Table>, issued: multiset<nat>, closed: multiset<nat>)

  function Bit(b: bool): nat {
    if b then 1 else 0
  }

  // ----- counting references -----

  function CountIn(s: seq<Option<nat>>, d: nat): nat {
    if s == [] then 0 else CountIn(s[..|s| - 1], d) + Bit(s[|s| - 1] == Some(d))
  }

  /** How many descriptors of all tables name description `d`. */
  function Refs(tables: seq<Table>, d: nat): nat {
    if tables == [] then 0 else Refs(tables[..|tables| - 1], d) + CountIn(tables[|tables| - 1].fds, d)
  }

  lemma {:induction false} CountInUpdate(s: seq<Option<nat>>, i: nat, e: Option<nat>, d: nat)
    requires i < |s|
    ensures CountIn(s[i := e], d) + Bit(s[i] == Some(d)) == CountIn(s, d) + Bit(e == Some(d))
  {
    var last := |s| - 1;
    if i < last {
      assert s[i := e][..last] == s[..last][i := e];
      CountInUpdate(s[..last], i, e, d);
    } else {
      assert s[i := e][..last] == s[..last];
    }
  }

  lemma {:induction false} RefsUpdate(tables: seq<Table>, t: nat, table: Table, d: nat)
    requires t < |tables|
    ensures Refs(tables[t := table], d) + CountIn(tables[t].fds, d) == Refs(tables, d) + CountIn(table.fds, d)
  {
    var last := |tables| - 1;
    if t < last {
      assert tables[t := table][..last] == tables[..last][t := table];
      RefsUpdate(tables[..last], t, table, d);
    } else {
      assert tables[t := table][..last] == tables[..last];
    }
  }

  lemma {:induction false} CountInPositive(s: seq<Option<nat>>, i: nat, d: nat)
    requires i < |s| && s[i] == Some(d)
    ensures CountIn(s, d) > 0
  {
    if i < |s| - 1 {
      CountInPositive(s[..|s| - 1], i, d);
    }
  }

  lemma {:induction false} RefsAtLeast(tables: seq<Table>, t: nat, d: nat)
    requires t < |tables|
    ensures CountIn(tables[t].fds, d) <= Refs(tables, d)
  {
    if t < |tables| - 1 {
      RefsAtLeast(tables[..|tables| - 1], t, d);
    }
  }

  lemma {:induction false} CountInNone(s: seq<Option<nat>>, d: nat)
    requires forall i :: 0 <= i < |s| ==> s[i] == None
    ensures CountIn(s, d) == 0
  {
    if s != [] {
      CountInNone(s[..|s| - 1], d);
    }
  }

  // ----- nodes held by descriptions -----

  function NodeOf(d: Desc): multiset<nat> {
    if d.Open? && d.kind == Vfs then multiset{d.node} else multiset{}
  }

  /** How many descriptions hold node `n`. */
  function Held(descs: seq<Desc>, n: nat): nat {
    if descs == [] then 0 else Held(descs[..|descs| - 1], n) + NodeOf(descs[|descs| - 1])[n]
  }

  lemma {:induction false} HeldUpdate(descs: seq<Desc>, i: nat, d: Desc, n: nat)
    requires i < |descs|
    ensures Held(descs[i := d], n) + NodeOf(descs[i])[n] == Held(descs, n) + NodeOf(d)[n]
  {
    var last := |descs| - 1;
    if i < last {
      assert descs[i := d][..last] == descs[..last][i := d];
      HeldUpdate(descs[..last], i, d, n);
    } else {
      assert descs[i := d][..last] == descs[..last];
    }
  }

  // ----- consistency -----

  ghost predicate CountOk(st: Files, d: nat)
    requires d < |st.descs|
  {
    match st.descs[d]
    case Unused => Refs(st.tables, d) == 0
    case Open(refs, _, _, _, _) => 0 < refs == Refs(st.tables, d)
  }

  /**
   Every description counts the descriptors that name it and exists exactly while
   there are some; every node handed out is held by one description or was taken back.
   */
  ghost predicate Consistent(st: Files) {
    && |st.descs| == OFD_CAP && |st.tables| == PROCESS_MAX
    && (forall t, fd :: 0 <= t < PROCESS_MAX && 0 <= fd < FD_CAP && st.tables[t].fds[fd].Some? ==>
          st.tables[t].fds[fd].value < OFD_CAP)
    && (forall d :: 0 <= d < OFD_CAP ==> CountOk(st, d))
    && (forall n: nat :: st.issued[n] == st.closed[n] + Held(st.descs, n))
  }

  function SetEntry(tables: seq<Table>, t: nat, fd: nat, e: Option<nat>): (r: seq<Table>)
    requires t < |tables| && fd < FD_CAP
    ensures |r| == |tables|
  {
    tables[t := tables[t].(fds := tables[t].fds[fd := e])]
  }

  lemma RefsSet(tables: seq<Table>, t: nat, fd: nat, e: Option<nat>, d: nat)
    requires t < |tables| && fd < FD_CAP
    ensures Refs(SetEntry(tables, t, fd, e), d) + Bit(tables[t].fds[fd] == Some(d)) ==
            Refs(tables, d) + Bit(e == Some(d))
  {
    hide CountIn, Refs;
    CountInUpdate(tables[t].fds, fd, e, d);
    RefsUpdate(tables, t, tables[t].(fds := tables[t].fds[fd := e]), d);
  }

  lemma {:induction false} CountInBound(s: seq<Option<nat>>, d: nat)
    ensures CountIn(s, d) <= |s|
  {
    if s != [] {
      CountInBound(s[..|s| - 1], d);
    }
  }

  lemma {:induction false} RefsBound(tables: seq<Table>, d: nat)
    ensures Refs(tables, d) <= |tables| * FD_CAP
  {
    if tables != [] {
      RefsBound(tables[..|tables| - 1], d);
      CountInBound(tables[|tables| - 1].fds, d);
    }
  }

  /** No reference count comes near the limit of its 16-bit field. */
  lemma CountFits(st: Files, d: nat)
    requires Consistent(st) && d < OFD_CAP && st.descs[d].Open?
    ensures 0 < st.descs[d].refs <= PROCESS_MAX * FD_CAP < 0x1_0000
  {
    RefsBound(st.tables, d);
    assert CountOk(st, d);
  }

  /** A named description is in use. */
  lemma EntryOpen(st: Files, t: nat, fd: nat)
    requires Consistent(st) && t < PROCESS_MAX && fd < FD_CAP && st.tables[t].fds[fd].Some?
    ensures st.tables[t].fds[fd].value < OFD_CAP && st.descs[st.tables[t].fds[fd].value].Open?
  {
    hide CountIn, Refs;
    var d := st.tables[t].fds[fd].value;
    CountInPositive(st.tables[t].fds, fd, d);
    RefsAtLeast(st.tables, t, d);
    assert CountOk(st, d);
  }

  // ----- the elementary changes -----

  /** One more descriptor for a description in use. */
  function Attach(st: Files, t: nat, fd: nat, d: nat): (r: Files)
    requires t < |st.tables| && fd < FD_CAP && d < |st.descs| && st.descs[d].Open?
  {
    st.(descs := st.descs[d := st.descs[d].(refs := st.descs[d].refs + 1)],
        tables := SetEntry(st.tables, t, fd, Some(d)))
  }

  /** The first descriptor of a new description. */
  function Install(st: Files, t: nat, fd: nat, d: nat, kind: Kind, node: nat, offset: nat, flags: nat): (r: Files)
    requires t < |st.tables| && fd < FD_CAP && d < |st.descs|
  {
    st.(descs := st.descs[d := Open(1, kind, node, offset, flags)], tables := SetEntry(st.tables, t, fd, Some(d)),
        issued := st.issued + if kind == Vfs then multiset{node} else multiset{})
  }

  /** A descriptor goes; with the last one the description goes, and its node is closed. */
  function Detach(st: Files, t: nat, fd: nat): (r: Files)
    requires t < |st.tables| && fd < FD_CAP && st.tables[t].fds[fd].Some?
    requires st.tables[t].fds[fd].value < |st.descs| && st.descs[st.tables[t].fds[fd].value].Open?
  {
    var d := st.tables[t].fds[fd].value;
    var desc := st.descs[d];
    var left := if desc.refs > 0 then desc.refs - 1 else 0;
    var tables := SetEntry(st.tables, t, fd, None);
    if left != 0 then st.(descs := st.descs[d := desc.(refs := left)], tables := tables)
    else st.(descs := st.descs[d := Unused], tables := tables, closed := st.closed + NodeOf(desc))
  }

  /** The tables differ in one descriptor, which names `e` now. */
  ghost predicate OneEntry(ts: seq<Table>, ts': seq<Table>, t: nat, fd: nat, e: Option<nat>) {
    && t < |ts| == |ts'| && fd < FD_CAP && ts'[t].fds[fd] == e && ts'[t].initialized == ts[t].initialized
    && (forall k :: 0 <= k < |ts| && k != t ==> ts'[k] == ts[k])
    && (forall f :: 0 <= f < FD_CAP && f != fd ==> ts'[t].fds[f] == ts[t].fds[f])
  }

  /** The descriptions differ in one. */
  ghost predicate OneDesc(ds: seq<Desc>, ds': seq<Desc>, d: nat, desc: Desc) {
    d < |ds| == |ds'| && ds'[d] == desc && forall e :: 0 <= e < |ds| && e != d ==> ds'[e] == ds[e]
  }

  /** Descriptor `to` names what `fd` names, which has one more reference; nothing else is different. */
  ghost predicate Shares(st: Files, st': Files, t: nat, fd: nat, to: nat) {
    && t < |st.tables| && fd < FD_CAP && st.tables[t].fds[fd].Some?
    && var d := st.tables[t].fds[fd].value;
       && d < |st.descs| && st.descs[d].Open? && OneEntry(st.tables, st'.tables, t, to, Some(d))
       && OneDesc(st.descs, st'.descs, d, st.descs[d].(refs := st.descs[d].refs + 1))
       && st'.issued == st.issued && st'.closed == st.closed
  }

  /** Descriptor `fd` names nothing; its description has one reference less, or is gone with its node closed. */
  ghost predicate Drops(st: Files, st': Files, t: nat, fd: nat) {
    && t < |st.tables| && fd < FD_CAP && st.tables[t].fds[fd].Some?
    && var d := st.tables[t].fds[fd].value;
       && d < |st.descs| && st.descs[d].Open? && OneEntry(st.tables, st'.tables, t, fd, None) && st'.issued == st.issued
       && var desc := st.descs[d];
          if desc.refs > 1 then
            OneDesc(st.descs, st'.descs, d, desc.(refs := desc.refs - 1)) && st'.closed == st.closed
          else
            && OneDesc(st.descs, st'.descs, d, Unused)
            && st'.closed == st.closed + if desc.kind == Vfs then multiset{desc.node} else multiset{}
  }

  lemma AttachKeeps(st: Files, t: nat, fd: nat, d: nat)
    requires Consistent(st) && t < PROCESS_MAX && fd < FD_CAP && d < OFD_CAP && st.descs[d].Open?
    requires st.tables[t].fds[fd].None?
    ensures Consistent(Attach(st, t, fd, d))
    ensures forall f :: 0 <= f < FD_CAP && st.tables[t].fds[f] == Some(d) ==> Shares(st, Attach(st, t, fd, d), t, f, fd)
  {
    hide Refs, Held;
    var st' := Attach(st, t, fd, d);
    forall e | 0 <= e < OFD_CAP
      ensures CountOk(st', e)
    {
      assert CountOk(st, e);
      RefsSet(st.tables, t, fd, Some(d), e);
    }
    forall n: nat
      ensures st'.issued[n] == st'.closed[n] + Held(st'.descs, n)
    {
      HeldUpdate(st.descs, d, st'.descs[d], n);
    }
  }

  lemma InstallKeeps(st: Files, t: nat, fd: nat, d: nat, kind: Kind, node: nat, offset: nat, flags: nat)
    requires Consistent(st) && t < PROCESS_MAX && fd < FD_CAP && d < OFD_CAP && st.descs[d].Unused?
    requires st.tables[t].fds[fd].None?
    ensures Consistent(Install(st, t, fd, d, kind, node, offset, flags))
  {
    hide Refs, Held;
    var st' := Install(st, t, fd, d, kind, node, offset, flags);
    forall e | 0 <= e < OFD_CAP
      ensures CountOk(st', e)
    {
      assert CountOk(st, e);
      RefsSet(st.tables, t, fd, Some(d), e);
    }
    forall n: nat
      ensures st'.issued[n] == st'.closed[n] + Held(st'.descs, n)
    {
      HeldUpdate(st.descs, d, st'.descs[d], n);
    }
  }

  lemma DetachKeeps(st: Files, t: nat, fd: nat)
    requires Consistent(st) && t < PROCESS_MAX && fd < FD_CAP && st.tables[t].fds[fd].Some?
    ensures var d := st.tables[t].fds[fd].value; d < OFD_CAP && st.descs[d].Open?
    ensures Consistent(Detach(st, t, fd)) && Drops(st, Detach(st, t, fd), t, fd)
  {
    hide Refs, Held, CountIn;
    EntryOpen(st, t, fd);
    var d, st' := st.tables[t].fds[fd].value, Detach(st, t, fd);
    forall e | 0 <= e < OFD_CAP
      ensures CountOk(st', e)
    {
      assert CountOk(st, e);
      RefsSet(st.tables, t, fd, None, e);
    }
    forall n: nat
      ensures st'.issued[n] == st'.closed[n] + Held(st'.descs, n)
    {
      HeldUpdate(st.descs, d, st'.descs[d], n);
    }
  }

  /** A node of the file system is closed exactly when its last descriptor, in whatever process, goes. */
  lemma LastCloses(st: Files, t: nat, fd: nat)
    requires Consistent(st) && t < PROCESS_MAX && fd < FD_CAP && st.tables[t].fds[fd].Some?
    ensures var d := st.tables[t].fds[fd].value;
            && d < OFD_CAP && st.descs[d].Open?
            && var desc, after := st.descs[d], Detach(st, t, fd);
               && (after.descs[d].Unused? <==> Refs(after.tables, d) == 0)
               && after.closed == st.closed +
                  (if desc.kind == Vfs && Refs(after.tables, d) == 0 then multiset{desc.node} else multiset{})
  {
    hide Refs, Held, CountIn, Consistent;
    Counted(st, 0);
    EntryOpen(st, t, fd);
    DetachKeeps(st, t, fd);
    var d := st.tables[t].fds[fd].value;
    Counted(st, d);
    Counted(Detach(st, t, fd), d);
    RefsSet(st.tables, t, fd, None, d);
  }

  lemma Counted(st: Files, d: nat)
    requires Consistent(st) && d < OFD_CAP
    ensures |st.descs| == OFD_CAP && |st.tables| == PROCESS_MAX && CountOk(st, d)
  {}
}
