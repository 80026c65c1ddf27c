/** Splitting slash-separated paths. */
module Paths {
  import opened Bytes

  const SLASH: byte := 0x2F
  const DOT: byte := 0x2E

  // Both include the terminator.
  const NAME_CAP := 24
  const PATH_CAP := 128

  /** The length of the part before the first slash. */
  function TokenLen(p: seq<byte>): (n: nat)
    ensures n <= |p|
    ensures forall i :: 0 <= i < n ==> p[i] != SLASH
    ensures n < |p| ==> p[n] == SLASH
  {
    if p == [] || p[0] == SLASH then 0 else 1 + TokenLen(p[1..])
  }

  /** The non-empty components of a path. */
  function Components(p: seq<byte>): (r: seq<seq<byte>>)
    decreases |p|
  {
    if p == [] then []
    else if p[0] == SLASH then Components(p[1..])
    else
      var n := TokenLen(p);
      [p[..n]] + Components(p[n..])
  }

  lemma {:induction false} ComponentsClean(p: seq<byte>)
    ensures forall i :: 0 <= i < |Components(p)| ==> Components(p)[i] != [] && SLASH !in Components(p)[i]
    decreases |p|
  {
    if p != [] && p[0] == SLASH {
      ComponentsClean(p[1..]);
    } else if p != [] {
      ComponentsClean(p[TokenLen(p)..]);
    }
  }

  /** A path is its last component behind the directory that holds it. */
  lemma {:induction false} ComponentsSplit(p: seq<byte>, q: seq<byte>)
    requires q != [] && SLASH !in q
    ensures Components(p + [SLASH] + q) == Components(p) + [q]
    decreases |p|
  {
    var w := p + [SLASH] + q;
    if p == [] {
      assert w[1..] == q;
      ComponentsOne(q);
    } else if p[0] == SLASH {
      assert w[1..] == p[1..] + [SLASH] + q;
      ComponentsSplit(p[1..], q);
    } else {
      var n := TokenLen(p);
      TokenPrefix(p, [SLASH] + q);
      assert p + ([SLASH] + q) == w;
      assert w[..n] == p[..n] && w[n..] == p[n..] + [SLASH] + q;
      ComponentsSplit(p[n..], q);
    }
  }

  lemma ComponentsOne(q: seq<byte>)
    requires q != [] && SLASH !in q
    ensures Components(q) == [q]
  {
    assert TokenLen(q) == |q|;
    assert q[|q|..] == [] && q[..|q|] == q;
  }

  lemma {:induction false} TokenPrefix(p: seq<byte>, q: seq<byte>)
    requires q != [] && q[0] == SLASH
    ensures TokenLen(p + q) == TokenLen(p)
  {
    if p == [] {
      assert p + q == q;
    } else if p[0] != SLASH {
      assert (p + q)[1..] == p[1..] + q;
      TokenPrefix(p[1..], q);
    }
  }

  // ----- walking along a path -----

  lemma SlashSkipped(p: seq<byte>)
    requires p != [] && p[0] == SLASH
    ensures Components(p) == Components(p[1..])
  {}

  lemma TokenTaken(p: seq<byte>, n: nat)
    requires 0 < n <= |p| && (forall i :: 0 <= i < n ==> p[i] != SLASH) && (n < |p| ==> p[n] == SLASH)
    ensures Components(p) != [] && Components(p)[0] == p[..n] && Components(p)[1..] == Components(p[n..])
  {
    assert TokenLen(p) == n;
  }

  lemma LongToken(p: seq<byte>, n: nat)
    requires 0 < n <= |p| && forall i :: 0 <= i < n ==> p[i] != SLASH
    ensures Components(p) != [] && |Components(p)[0]| >= n
  {
    assert TokenLen(p) >= n;
  }

  /** Skip the slashes at a position of a path. */
  method SkipSlashes(path: seq<byte>, start: nat) returns (at: nat)
    requires start <= |path|
    ensures start <= at <= |path| && (at < |path| ==> path[at] != SLASH)
    ensures Components(path[at..]) == Components(path[start..])
    ensures at < |path| <==> Components(path[start..]) != []
  {
    hide Components;
    at := start;
    while at < |path| && path[at] == SLASH
      invariant start <= at <= |path| && Components(path[at..]) == Components(path[start..])
    {
      SlashSkipped(path[at..]);
      assert path[at..][1..] == path[at + 1..];
      at := at + 1;
    }
    ghost var rest := path[at..];
    if rest != [] {
      LongToken(rest, 1);
    }
    NoComponents();
  }

  lemma NoComponents()
    ensures Components([]) == []
  {}
}
