/** The first stack of a program: strings, then the pointer tables and the count the start code reads. */
module UserStack {
  import opened Bytes
  import opened Syscalls

  const STRING_MAX := 128
  const ARG_MAX := 16
  const ENV_MAX := 8

  // ----- how a program reads its stack -----

  /** The C string at an address. */
  function CString(m: seq<byte>, a: nat): (s: seq<byte>)
    decreases |m| - a
  {
    if |m| <= a || m[a] == 0 then [] else [m[a]] + CString(m, a + 1)
  }

  /** The pointers from an address on, up to a null pointer. */
  function Pointers(m: seq<byte>, a: nat): (s: seq<nat>)
    decreases |m| - a
  {
    if |m| < a + 4 || Le32(m, a) == 0 then [] else [Le32(m, a)] + Pointers(m, a + 4)
  }

  function Strings(m: seq<byte>, addrs: seq<nat>): seq<seq<byte>> {
    seq(|addrs|, i requires 0 <= i < |addrs| => CString(m, addrs[i]))
  }

  datatype Start = Start(args: seq<seq<byte>>, env: seq<seq<byte>>)

  /**
   The start code: the count at the stack pointer, the arguments behind it, the environment behind
   their null pointer.
   */
  function Decode(m: seq<byte>, sp: nat): Start
    requires sp + 4 <= |m|
  {
    var argc := Le32(m, sp);
    var argv := sp + 4;
    var envp := argv + 4 * argc + 4;
    Start(seq(argc, i requires 0 <= i < argc => if argv + 4 * i + 4 <= |m| then CString(m, Le32(m, argv + 4 * i))
              else []),
          Strings(m, Pointers(m, envp)))
  }

  // ----- strings -----

  ghost predicate StringAt(m: seq<byte>, a: nat, text: seq<byte>) {
    a + |text| + 1 <= |m| && m[a..a + |text|] == text && m[a + |text|] == 0
  }

  lemma {:induction false} StringReads(m: seq<byte>, a: nat, text: seq<byte>)
    requires StringAt(m, a, text) && 0 !in text
    ensures CString(m, a) == text
    decreases |text|
  {
    if text != [] {
      assert m[a] == m[a..a + |text|][0] == text[0] && text[0] in text;
      assert m[a + 1..a + |text|] == text[1..];
      StringReads(m, a + 1, text[1..]);
    }
  }

  /** Copy a string and its terminator below the stack pointer. */
  method CopyString(mem: array<byte>, sp: nat, min: nat, text: cstring) returns (rc: int, next: nat)
    requires min <= sp <= mem.Length
    modifies mem
    ensures rc == if STRING_MAX <= |text| then -E2BIG else if sp < min + |text| + 1 then -ENOSPC else 0
    ensures if rc == 0 then next == sp - |text| - 1 && StringAt(mem[..], next, text) else next == sp
    ensures forall a :: 0 <= a < mem.Length && !(next <= a < sp) ==> mem[a] == old(mem[a])
  {
    var len := 0;
    while len < |text|
      invariant 0 <= len <= |text| && len < STRING_MAX
    {
      if len + 1 >= STRING_MAX {
        return -E2BIG, sp;
      }
      len := len + 1;
    }
    len := len + 1;
    if sp < min + len {
      return -ENOSPC, sp;
    }
    next := sp - len;
    var i := 0;
    while i < len
      invariant 0 <= i <= len
      invariant forall a :: 0 <= a < mem.Length ==>
                              mem[a] == if next <= a < next + i
                                then (if a - next < |text| then text[a - next] else 0) else old(mem[a])
    {
      mem[next + i] := if i < |text| then text[i] else 0;
      i := i + 1;
    }
    rc := 0;
  }

  ghost predicate AllStrings(m: seq<byte>, addrs: seq<nat>, texts: seq<cstring>, lo: nat, hi: nat) {
    && |addrs| == |texts|
    && forall i :: 0 <= i < |addrs| ==>
         lo <= addrs[i] && addrs[i] + |texts[i]| + 1 <= hi && StringAt(m, addrs[i], texts[i])
  }

  /** Writes outside the strings leave them alone. */
  lemma StringsStay(m: seq<byte>, m': seq<byte>, addrs: seq<nat>, texts: seq<cstring>, lo: nat, hi: nat)
    requires AllStrings(m, addrs, texts, lo, hi) && |m'| == |m| && forall a :: lo <= a < hi && a < |m| ==> m'[a] == m[a]
    ensures AllStrings(m', addrs, texts, lo, hi)
  {
    forall i | 0 <= i < |addrs|
      ensures StringAt(m', addrs[i], texts[i])
    {
      assert StringAt(m, addrs[i], texts[i]);
      assert m'[addrs[i]..addrs[i] + |texts[i]|] == m[addrs[i]..addrs[i] + |texts[i]|];
    }
  }

  /** The bytes that strings take with their terminators. */
  ghost function StringBytes(texts: seq<cstring>): nat {
    if texts == [] then 0 else StringBytes(texts[..|texts| - 1]) + |texts[|texts| - 1]| + 1
  }

  ghost predicate AllShort(texts: seq<cstring>) {
    forall i :: 0 <= i < |texts| ==> |texts[i]| < STRING_MAX
  }

  lemma ShortAll(args: seq<cstring>, envp: seq<cstring>)
    ensures (forall s :: s in args + envp ==> |s| < 128) <==> AllShort(args) && AllShort(envp)
  {
    assert forall i :: 0 <= i < |args| ==> args[i] in args + envp;
    assert forall i :: 0 <= i < |envp| ==> envp[i] in args + envp;
    assert forall s :: s in args + envp ==> s in args || s in envp;
  }

  lemma {:induction false} StringBytesGrow(texts: seq<cstring>, i: nat)
    requires i <= |texts|
    ensures StringBytes(texts[..i]) <= StringBytes(texts)
    decreases |texts|
  {
    if i < |texts| {
      assert texts[..|texts| - 1][..i] == texts[..i];
      StringBytesGrow(texts[..|texts| - 1], i);
    } else {
      assert texts[..i] == texts;
    }
  }

  lemma StringBytesNext(texts: seq<cstring>, i: nat)
    requires i < |texts|
    ensures StringBytes(texts[..i + 1]) == StringBytes(texts[..i]) + |texts[i]| + 1 <= StringBytes(texts)
    ensures AllShort(texts[..i]) && |texts[i]| < STRING_MAX ==> AllShort(texts[..i + 1])
  {
    assert texts[..i + 1][..i] == texts[..i];
    StringBytesGrow(texts, i + 1);
  }

  lemma AllStringsMore(m: seq<byte>, addrs: seq<nat>, texts: seq<cstring>, i: nat, lo: nat, hi: nat, below: nat)
    requires i < |texts| && AllStrings(m, addrs, texts[..i], lo, hi)
    requires below + |texts[i]| + 1 == lo <= hi && StringAt(m, below, texts[i])
    ensures AllStrings(m, addrs + [below], texts[..i + 1], below, hi)
  {
    hide StringAt;
  }

  /** Copy the strings, each below the one before. */
  method CopyStrings(mem: array<byte>, sp: nat, min: nat, texts: seq<cstring>)
    returns (rc: int, next: nat, addrs: seq<nat>)
    requires min <= sp <= mem.Length
    modifies mem
    ensures min <= next <= sp
    ensures rc == 0 <==> AllShort(texts) && min + StringBytes(texts) <= sp
    ensures rc == 0 ==> next == sp - StringBytes(texts)
    ensures rc != 0 ==> (rc == -E2BIG && !AllShort(texts)) || (rc == -ENOSPC && sp < min + StringBytes(texts))
    ensures rc == 0 ==> AllStrings(mem[..], addrs, texts, next, sp)
    ensures forall a :: 0 <= a < mem.Length && !(next <= a < sp) ==> mem[a] == old(mem[a])
  {
    hide StringAt;
    addrs, next, rc := [], sp, 0;
    var i := 0;
    while i < |texts|
      invariant 0 <= i <= |texts| && |addrs| == i && min <= next <= sp && rc == 0
      invariant next == sp - StringBytes(texts[..i]) && AllShort(texts[..i])
      invariant AllStrings(mem[..], addrs, texts[..i], next, sp)
      invariant forall a :: 0 <= a < mem.Length && !(next <= a < sp) ==> mem[a] == old(mem[a])
    {
      ghost var m := mem[..];
      var below;
      rc, below := CopyString(mem, next, min, texts[i]);
      StringBytesNext(texts, i);
      if rc != 0 {
        return;
      }
      StringsStay(m, mem[..], addrs, texts[..i], next, sp);
      AllStringsMore(mem[..], addrs, texts, i, next, sp, below);
      addrs, next := addrs + [below], below;
      i := i + 1;
    }
    assert texts[..i] == texts;
  }

  // ----- words -----

  /** The words in memory from an address on. */
  ghost predicate Words(m: seq<byte>, a: nat, ws: seq<nat>) {
    a + 4 * |ws| <= |m| && forall i :: 0 <= i < |ws| ==> ws[i] == Le32(m, a + 4 * i)
  }

  lemma WordsPush(m: seq<byte>, m': seq<byte>, a: nat, v: nat, ws: seq<nat>)
    requires Words(m, a, ws) && 4 <= a && |m'| == |m| && Le32(m', a - 4) == v
    requires forall b :: a <= b < |m| ==> m'[b] == m[b]
    ensures Words(m', a - 4, [v] + ws)
  {
    var all := [v] + ws;
    forall i | 0 <= i < |all|
      ensures all[i] == Le32(m', a - 4 + 4 * i)
    {
      if i > 0 {
        assert all[i] == ws[i - 1];
        assert a - 4 + 4 * i == a + 4 * (i - 1);
      }
    }
  }

  method PushWord(mem: array<byte>, sp: nat, min: nat, v: nat, ghost ws: seq<nat>) returns (ok: bool, next: nat)
    requires sp <= mem.Length && v < WORD && Words(mem[..], sp, ws)
    modifies mem
    ensures ok == (min + 4 <= sp)
    ensures if ok then next == sp - 4 && Words(mem[..], next, [v] + ws) else next == sp
    ensures forall a :: 0 <= a < mem.Length && !(next <= a < sp) ==> mem[a] == old(mem[a])
  {
    if sp < min + 4 {
      return false, sp;
    }
    next := sp - 4;
    var bytes := PutLe32(v);
    mem[next] := bytes[0];
    mem[next + 1] := bytes[1];
    mem[next + 2] := bytes[2];
    mem[next + 3] := bytes[3];
    WordsPush(old(mem[..]), mem[..], sp, v, ws);
    ok := true;
  }

  /** Push a table of pointers, the last one first. */
  method PushAll(mem: array<byte>, sp: nat, min: nat, values: seq<nat>, ghost ws: seq<nat>)
    returns (ok: bool, next: nat)
    requires min <= sp <= mem.Length && Words(mem[..], sp, ws) && forall i :: 0 <= i < |values| ==> values[i] < WORD
    modifies mem
    ensures min <= next <= sp && next % 4 == sp % 4
    ensures ok <==> min + 4 * |values| <= sp
    ensures ok ==> next == sp - 4 * |values| && Words(mem[..], next, values + ws)
    ensures forall a :: 0 <= a < mem.Length && !(next <= a < sp) ==> mem[a] == old(mem[a])
  {
    hide Words;
    next, ok := sp, true;
    var i := |values|;
    assert values[i..] + ws == ws;
    while i > 0
      invariant 0 <= i <= |values| && min <= next <= sp && next == sp - 4 * (|values| - i) && next % 4 == sp % 4 && ok
      invariant Words(mem[..], next, values[i..] + ws)
      invariant forall a :: 0 <= a < mem.Length && !(next <= a < sp) ==> mem[a] == old(mem[a])
    {
      ok, next := PushWord(mem, next, min, values[i - 1], values[i..] + ws);
      if !ok {
        return;
      }
      assert [values[i - 1]] + (values[i..] + ws) == values[i - 1..] + ws;
      i := i - 1;
    }
    assert values[0..] == values;
  }

  lemma WordAt(m: seq<byte>, a: nat, ws: seq<nat>, i: nat)
    requires Words(m, a, ws) && i < |ws|
    ensures a + 4 * i + 4 <= |m| && Le32(m, a + 4 * i) == ws[i]
  {}

  /** A table of non-null pointers and the null pointer behind it read back. */
  lemma {:induction false} PointersRead(m: seq<byte>, a: nat, ptrs: seq<nat>, rest: seq<nat>)
    requires Words(m, a, ptrs + [0] + rest) && forall i :: 0 <= i < |ptrs| ==> ptrs[i] != 0
    ensures Pointers(m, a) == ptrs
    decreases |ptrs|
  {
    var all := ptrs + [0] + rest;
    WordAt(m, a, all, 0);
    if ptrs != [] {
      assert all[1..] == ptrs[1..] + [0] + rest;
      WordsDrop(m, a, all, 1);
      PointersRead(m, a + 4, ptrs[1..], rest);
    }
  }

  lemma WordsDrop(m: seq<byte>, a: nat, ws: seq<nat>, k: nat)
    requires Words(m, a, ws) && k <= |ws|
    ensures Words(m, a + 4 * k, ws[k..])
  {
    var rest := ws[k..];
    forall i | 0 <= i < |rest|
      ensures rest[i] == Le32(m, a + 4 * k + 4 * i)
    {
      assert rest[i] == ws[k + i];
      assert a + 4 * (k + i) == a + 4 * k + 4 * i;
    }
  }

  lemma StringsRead(m: seq<byte>, addrs: seq<nat>, texts: seq<cstring>, lo: nat, hi: nat)
    requires AllStrings(m, addrs, texts, lo, hi)
    ensures Strings(m, addrs) == texts
  {
    forall i | 0 <= i < |addrs|
      ensures CString(m, addrs[i]) == texts[i]
    {
      StringReads(m, addrs[i], texts[i]);
    }
  }

  /** The finished stack decodes to what was put there. */
  lemma Decodes(m: seq<byte>, sp: nat, argAddrs: seq<nat>, args: seq<cstring>, envAddrs: seq<nat>, env: seq<cstring>,
                lo: nat, mid: nat, hi: nat)
    requires 0 < lo && AllStrings(m, argAddrs, args, lo, mid) && AllStrings(m, envAddrs, env, mid, hi) && 0 < mid
    requires Words(m, sp, [|args|] + (argAddrs + ([0] + (envAddrs + [0]))))
    ensures sp + 4 <= |m| && Decode(m, sp) == Start(args, env) && LaidOut(m, sp, args, env)
  {
    hide Words, AllStrings, CString, Strings, Le32;
    var ws := [|args|] + (argAddrs + ([0] + (envAddrs + [0])));
    var argc := |args|;
    AllLengths(m, argAddrs, args, lo, mid);
    AllLengths(m, envAddrs, env, mid, hi);
    WordAt(m, sp, ws, 0);
    StringsRead(m, argAddrs, args, lo, mid);
    StringsRead(m, envAddrs, env, mid, hi);
    Lays(m, sp, argAddrs, args, envAddrs, env);
    hide LaidOut;
    ArgsRead(m, sp, argAddrs, args, ws);
    WordsDrop(m, sp, ws, argc + 2);
    assert ws[argc + 2..] == envAddrs + [0] + [];
    assert sp + 4 * (argc + 2) == sp + 4 + 4 * argc + 4;
    PointersRead(m, sp + 4 + 4 * argc + 4, envAddrs, []);
  }

  lemma ArgsRead(m: seq<byte>, sp: nat, addrs: seq<nat>, args: seq<cstring>, ws: seq<nat>)
    requires Words(m, sp, ws) && |addrs| == |args| && Strings(m, addrs) == args
    requires |ws| > |addrs| && ws[1..1 + |addrs|] == addrs
    ensures forall i :: 0 <= i < |args| ==> sp + 4 + 4 * i + 4 <= |m| && args[i] == CString(m, Le32(m, sp + 4 + 4 * i))
  {
    hide CString, Words;
    forall i | 0 <= i < |args|
      ensures sp + 4 + 4 * i + 4 <= |m| && args[i] == CString(m, Le32(m, sp + 4 + 4 * i))
    {
      WordAt(m, sp, ws, 1 + i);
      assert ws[1 + i] == ws[1..1 + |addrs|][i] == addrs[i];
      assert sp + 4 * (1 + i) == sp + 4 + 4 * i;
      assert Strings(m, addrs)[i] == CString(m, addrs[i]);
    }
  }

  lemma AllLengths(m: seq<byte>, addrs: seq<nat>, texts: seq<cstring>, lo: nat, hi: nat)
    requires AllStrings(m, addrs, texts, lo, hi)
    ensures |addrs| == |texts| && forall i :: 0 <= i < |addrs| ==> lo <= addrs[i] < hi
  {}

  /**
   The words on the stack: the count, a pointer to each argument and a null pointer,
   a pointer to each environment string and a null pointer.
   */
  ghost predicate LaidOut(m: seq<byte>, sp: nat, args: seq<cstring>, env: seq<cstring>) {
    var n, e := |args|, |env|;
    && sp + 4 * (n + e + 3) <= |m| && Le32(m, sp) == n
    && (forall i :: 0 <= i < n ==> CString(m, Le32(m, sp + 4 + 4 * i)) == args[i]) && Le32(m, sp + 4 + 4 * n) == 0
    && (forall i :: 0 <= i < e ==> CString(m, Le32(m, sp + 8 + 4 * n + 4 * i)) == env[i])
    && Le32(m, sp + 8 + 4 * (n + e)) == 0
  }

  lemma Lays(m: seq<byte>, sp: nat, argAddrs: seq<nat>, args: seq<cstring>, envAddrs: seq<nat>, env: seq<cstring>)
    requires Words(m, sp, [|args|] + (argAddrs + ([0] + (envAddrs + [0]))))
    requires |argAddrs| == |args| && |envAddrs| == |env| && Strings(m, argAddrs) == args && Strings(m, envAddrs) == env
    ensures LaidOut(m, sp, args, env)
  {
    hide Words, CString, Le32;
    var ws, n, e := [|args|] + (argAddrs + ([0] + (envAddrs + [0]))), |args|, |env|;
    WordAt(m, sp, ws, 0);
    WordAt(m, sp, ws, 1 + n);
    WordAt(m, sp, ws, 2 + n + e);
    forall i | 0 <= i < n
      ensures CString(m, Le32(m, sp + 4 + 4 * i)) == args[i]
    {
      WordAt(m, sp, ws, 1 + i);
      assert ws[1 + i] == argAddrs[i] && sp + 4 * (1 + i) == sp + 4 + 4 * i;
      assert Strings(m, argAddrs)[i] == CString(m, argAddrs[i]);
    }
    forall i | 0 <= i < e
      ensures CString(m, Le32(m, sp + 8 + 4 * n + 4 * i)) == env[i]
    {
      WordAt(m, sp, ws, 2 + n + i);
      assert ws[2 + n + i] == envAddrs[i] && sp + 4 * (2 + n + i) == sp + 8 + 4 * n + 4 * i;
      assert Strings(m, envAddrs)[i] == CString(m, envAddrs[i]);
    }
  }

  /** The strings fit, and below them, from a multiple of four down, the tables with two null pointers and the count. */
  ghost predicate StackFits(min: nat, top: nat, args: seq<cstring>, envp: seq<cstring>) {
    && min + StringBytes(envp) + StringBytes(args) <= top
    && min + 4 * (|args| + |envp| + 3) <= (top - StringBytes(envp) - StringBytes(args)) / 4 * 4
  }

  /**
   Build the first stack.  `argv` without entries means the path alone.  What the
   start code decodes is what was passed in; no byte outside the stack is written.
   */
  method BuildInitialStack(mem: array<byte>, min: nat, top: nat, path: cstring, argv: seq<cstring>, envp: seq<cstring>)
    returns (rc: int, sp: nat)
    requires 0 < min <= top <= mem.Length && top < WORD
    modifies mem
    ensures var args := if argv == [] then [path] else argv;
            var few := |argv| <= 16 && |envp| <= 8 && forall s :: s in args + envp ==> |s| < 128;
            && (rc == 0 <==> few && StackFits(min, top, args, envp))
            && (rc != 0 ==> (rc == -E2BIG && !few) || (rc == -ENOSPC && !StackFits(min, top, args, envp)))
            && (rc == 0 ==> && min <= sp && sp % 4 == 0 && sp + 4 <= mem.Length
                            && LaidOut(mem[..], sp, args, envp) && Decode(mem[..], sp) == Start(args, envp))
    ensures forall a :: 0 <= a < mem.Length && !(min <= a < top) ==> mem[a] == old(mem[a])
  {
    hide Words, AllStrings, Decode, StringBytes, AllShort, LaidOut;
    sp := top;
    if |argv| > ARG_MAX || |envp| > ENV_MAX {
      return -E2BIG, sp;
    }
    var args: seq<cstring> := if argv == [] then [path] else argv;
    ShortAll(args, envp);
    var envAddrs, argAddrs;
    rc, sp, envAddrs := CopyStrings(mem, sp, min, envp);
    if rc < 0 {
      return;
    }
    ghost var mid, m1 := sp, mem[..];
    rc, sp, argAddrs := CopyStrings(mem, sp, min, args);
    if rc < 0 {
      return;
    }
    ghost var lo := sp;
    StringsStay(m1, mem[..], envAddrs, envp, mid, top);
    AllLengths(mem[..], argAddrs, args, lo, mid);
    AllLengths(mem[..], envAddrs, envp, mid, top);
    ghost var m2 := mem[..];
    rc, sp := PushTables(mem, sp / 4 * 4, min, |args|, argAddrs, envAddrs);
    if rc == 0 {
      StringsStay(m2, mem[..], envAddrs, envp, mid, top);
      StringsStay(m2, mem[..], argAddrs, args, lo, mid);
      Decodes(mem[..], sp, argAddrs, args, envAddrs, envp, lo, mid, top);
    }
  }

  method PushTables(mem: array<byte>, from: nat, min: nat, argc: nat, argAddrs: seq<nat>, envAddrs: seq<nat>)
    returns (rc: int, sp: nat)
    requires from <= mem.Length && argc < WORD
    requires forall i :: 0 <= i < |argAddrs| ==> argAddrs[i] < WORD
    requires forall i :: 0 <= i < |envAddrs| ==> envAddrs[i] < WORD
    modifies mem
    ensures rc in {0, -ENOSPC} && sp <= from && sp % 4 == from % 4 && (sp < from ==> min <= sp)
    ensures rc == 0 <==> min + 4 * (|argAddrs| + |envAddrs| + 3) <= from
    ensures rc == 0 ==> min <= sp && Words(mem[..], sp, [argc] + (argAddrs + ([0] + (envAddrs + [0]))))
    ensures forall a :: 0 <= a < mem.Length && !(sp <= a < from) ==> mem[a] == old(mem[a])
  {
    hide Words;
    NoWords(mem[..], from);
    ghost var ends := envAddrs + [0];
    ghost var env := [0] + ends;
    ghost var all := argAddrs + env;
    var ok;
    ok, sp := PushWord(mem, from, min, 0, []);
    if !ok {
      return -ENOSPC, sp;
    }
    assert [0] + [] == [0];
    ok, sp := PushAll(mem, sp, min, envAddrs, [0]);
    if !ok {
      return -ENOSPC, sp;
    }
    ok, sp := PushWord(mem, sp, min, 0, ends);
    if !ok {
      return -ENOSPC, sp;
    }
    rc, sp := PushArgs(mem, sp, min, argc, argAddrs, env);
  }

  method PushArgs(mem: array<byte>, from: nat, min: nat, argc: nat, argAddrs: seq<nat>, ghost ws: seq<nat>)
    returns (rc: int, sp: nat)
    requires min <= from <= mem.Length && argc < WORD && Words(mem[..], from, ws)
    requires forall i :: 0 <= i < |argAddrs| ==> argAddrs[i] < WORD
    modifies mem
    ensures rc in {0, -ENOSPC} && min <= sp <= from && sp % 4 == from % 4
    ensures rc == 0 <==> min + 4 * (|argAddrs| + 1) <= from
    ensures rc == 0 ==> Words(mem[..], sp, [argc] + (argAddrs + ws))
    ensures forall a :: 0 <= a < mem.Length && !(sp <= a < from) ==> mem[a] == old(mem[a])
  {
    hide Words;
    var ok;
    ok, sp := PushAll(mem, from, min, argAddrs, ws);
    if !ok {
      return -ENOSPC, sp;
    }
    ok, sp := PushWord(mem, sp, min, argc, argAddrs + ws);
    rc := if ok then 0 else -ENOSPC;
  }

  lemma NoWords(m: seq<byte>, a: nat)
    requires a <= |m|
    ensures Words(m, a, [])
  {}
}
