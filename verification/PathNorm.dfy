/**
 Path normalisation.  The file-system layer rejects what does not fit; the FAT12
 and ISO 9660 drivers each carry a copy that cuts it off instead.
 */
module PathNorm {
  import opened Bytes
  import opened Paths

  // ----- paths as stacks of names -----

  predicate IsName(c: seq<byte>) {
    c != [] && SLASH !in c && c != [DOT] && c != [DOT, DOT]
  }

  predicate AllNames(s: seq<seq<byte>>) {
    forall i :: 0 <= i < |s| ==> IsName(s[i])
  }

  /** One component: skip `.`, pop at `..`, push a name. */
  function Push(stack: seq<seq<byte>>, c: seq<byte>): seq<seq<byte>> {
    if c == [] || c == [DOT] then stack
    else if c == [DOT, DOT] then if stack == [] then [] else stack[..|stack| - 1]
    else stack + [c]
  }

  function Fold(stack: seq<seq<byte>>, comps: seq<seq<byte>>): seq<seq<byte>>
    decreases |comps|
  {
    if comps == [] then stack else Fold(Push(stack, comps[0]), comps[1..])
  }

  /** Each name behind a slash. */
  function Joined(stack: seq<seq<byte>>): seq<byte> {
    if stack == [] then [] else Joined(stack[..|stack| - 1]) + [SLASH] + stack[|stack| - 1]
  }

  function Text(stack: seq<seq<byte>>): seq<byte> {
    if stack == [] then [SLASH] else Joined(stack)
  }

  /** The fold as far as every component and every text on the way fits. */
  function Norm(stack: seq<seq<byte>>, comps: seq<seq<byte>>): Option<seq<seq<byte>>>
    decreases |comps|
  {
    if comps == [] then Some(stack)
    else if NAME_CAP <= |comps[0]| then None
    else
      var next := Push(stack, comps[0]);
      if |next| > |stack| && PATH_CAP <= |Joined(next)| then None else Norm(next, comps[1..])
  }

  lemma {:induction false} NormIsFold(stack: seq<seq<byte>>, comps: seq<seq<byte>>)
    requires Norm(stack, comps).Some?
    ensures Norm(stack, comps).value == Fold(stack, comps)
    decreases |comps|
  {
    if comps != [] {
      NormIsFold(Push(stack, comps[0]), comps[1..]);
    }
  }

  /** A normalised path: absolute, without empty, `.` or `..` components. */
  ghost predicate Normal(p: seq<byte>) {
    exists stack :: AllNames(stack) && p == Text(stack)
  }

  lemma {:induction false} FoldClean(stack: seq<seq<byte>>, comps: seq<seq<byte>>)
    requires AllNames(stack) && forall i :: 0 <= i < |comps| ==> SLASH !in comps[i]
    ensures AllNames(Fold(stack, comps))
    decreases |comps|
  {
    if comps != [] {
      assert forall i :: 0 <= i < |comps[1..]| ==> comps[1..][i] == comps[i + 1];
      FoldClean(Push(stack, comps[0]), comps[1..]);
    }
  }

  lemma {:induction false} NormConcat(stack: seq<seq<byte>>, a: seq<seq<byte>>, b: seq<seq<byte>>)
    ensures Norm(stack, a + b) == if Norm(stack, a).None? then None else Norm(Norm(stack, a).value, b)
    decreases |a|
  {
    if a == [] {
      assert a + b == b;
    } else {
      assert (a + b)[0] == a[0] && (a + b)[1..] == a[1..] + b;
      NormConcat(Push(stack, a[0]), a[1..], b);
    }
  }

  /** The components of two paths joined by a slash. */
  lemma {:induction false} ComponentsJoin(p: seq<byte>, q: seq<byte>)
    ensures Components(p + [SLASH] + q) == Components(p) + Components(q)
    decreases |p|
  {
    var w := p + [SLASH] + q;
    if p == [] {
      assert w[1..] == q;
    } else if p[0] == SLASH {
      assert w[1..] == p[1..] + [SLASH] + q;
      ComponentsJoin(p[1..], q);
    } else {
      var n := TokenLen(p);
      TokenPrefix(p, [SLASH] + q);
      assert p + ([SLASH] + q) == w;
      assert w[..n] == p[..n] && w[n..] == p[n..] + [SLASH] + q;
      ComponentsJoin(p[n..], q);
    }
  }

  /** The components of a normalised path are its names. */
  lemma {:induction false} ComponentsJoined(stack: seq<seq<byte>>)
    requires AllNames(stack)
    ensures Components(Joined(stack)) == stack
  {
    if stack != [] {
      var front, last := stack[..|stack| - 1], stack[|stack| - 1];
      ComponentsJoined(front);
      ComponentsJoin(Joined(front), last);
      assert IsName(last);
      ComponentsOne(last);
    }
  }

  lemma ComponentsText(stack: seq<seq<byte>>)
    requires AllNames(stack)
    ensures Components(Text(stack)) == stack && Text(stack) != [] && Text(stack)[0] == SLASH
  {
    ComponentsJoined(stack);
    JoinedStarts(stack);
    if stack == [] {
      assert [SLASH][1..] == [];
    }
  }

  lemma {:induction false} JoinedStarts(stack: seq<seq<byte>>)
    ensures stack != [] ==> Joined(stack) != [] && Joined(stack)[0] == SLASH
  {
    if stack != [] {
      JoinedStarts(stack[..|stack| - 1]);
    }
  }

  /** The stack a path starts from. */
  function Start(cwd: seq<byte>, path: seq<byte>): seq<seq<byte>> {
    if path != [] && path[0] == SLASH then [] else Components(cwd)
  }

  datatype Result = Ok(text: seq<byte>) | Invalid

  /** What normalising comes to. */
  function Normalised(cwd: seq<byte>, path: seq<byte>, cap: nat): Result {
    if path == [] || cap < 2 then Invalid
    else
      match Norm(Start(cwd, path), Components(path))
      case None => Invalid
      case Some(stack) => if cap < |Text(stack)| + 1 then Invalid else Ok(Text(stack))
  }

  /** The result is the push/pop fold and a normalised path. */
  lemma NormalisedClean(cwd: seq<byte>, path: seq<byte>, cap: nat)
    requires Normal(cwd) && Normalised(cwd, path, cap).Ok?
    ensures Normalised(cwd, path, cap).text == Text(Fold(Start(cwd, path), Components(path)))
    ensures Normal(Normalised(cwd, path, cap).text)
    ensures var names := Components(Normalised(cwd, path, cap).text);
            AllNames(names) && names == Fold(Start(cwd, path), Components(path))
  {
    var s :| AllNames(s) && cwd == Text(s);
    ComponentsText(s);
    NormIsFold(Start(cwd, path), Components(path));
    ComponentsClean(path);
    FoldClean(Start(cwd, path), Components(path));
    ComponentsText(Fold(Start(cwd, path), Components(path)));
  }

  /** Names and text within the limits. */
  predicate Fits(stack: seq<seq<byte>>) {
    AllNames(stack) && |Joined(stack)| < PATH_CAP && forall i :: 0 <= i < |stack| ==> |stack[i]| < NAME_CAP
  }

  /** A working directory as the kernel keeps it. */
  ghost predicate Proper(cwd: seq<byte>) {
    exists stack :: Fits(stack) && cwd == Text(stack)
  }

  lemma {:induction false} NormFits(stack: seq<seq<byte>>, comps: seq<seq<byte>>)
    requires Fits(stack) && Norm(stack, comps).Some? && forall i :: 0 <= i < |comps| ==> SLASH !in comps[i]
    ensures Fits(Norm(stack, comps).value)
    decreases |comps|
  {
    if comps != [] {
      var next := Push(stack, comps[0]);
      assert forall i :: 0 <= i < |comps[1..]| ==> comps[1..][i] == comps[i + 1];
      assert |next| < |stack| ==> Joined(stack) == Joined(next) + [SLASH] + stack[|stack| - 1];
      assert next == stack + [comps[0]] || |next| <= |stack|;
      NormFits(next, comps[1..]);
    }
  }

  /** A stack within the limits is rebuilt from its names. */
  lemma {:induction false} NormRebuilds(stack: seq<seq<byte>>, k: nat)
    requires Fits(stack) && k <= |stack|
    ensures Norm(stack[..k], stack[k..]) == Some(stack)
    decreases |stack| - k
  {
    if k == |stack| {
      assert stack[..k] == stack && stack[k..] == [];
    } else {
      assert IsName(stack[k]);
      assert stack[k..][0] == stack[k] && stack[k..][1..] == stack[k + 1..];
      assert stack[..k] + [stack[k]] == stack[..k + 1];
      JoinedGrows(stack, k + 1);
      NormRebuilds(stack, k + 1);
    }
  }

  lemma {:induction false} JoinedGrows(stack: seq<seq<byte>>, k: nat)
    requires k <= |stack|
    ensures |Joined(stack[..k])| <= |Joined(stack)|
    decreases |stack| - k
  {
    if k < |stack| {
      assert stack[..k + 1][..k] == stack[..k];
      JoinedGrows(stack, k + 1);
    } else {
      assert stack[..k] == stack;
    }
  }

  /** Normalising a normalised path, from anywhere, changes nothing. */
  lemma NormalisedAgain(cwd: seq<byte>, path: seq<byte>, cap: nat, from: seq<byte>)
    requires Proper(cwd) && Normalised(cwd, path, cap).Ok?
    ensures Proper(Normalised(cwd, path, cap).text)
    ensures Normalised(from, Normalised(cwd, path, cap).text, cap) == Normalised(cwd, path, cap)
  {
    var s :| Fits(s) && cwd == Text(s);
    ComponentsText(s);
    ComponentsClean(path);
    assert Fits([]);
    NormFits(Start(cwd, path), Components(path));
    var stack := Norm(Start(cwd, path), Components(path)).value;
    ComponentsText(stack);
    NormRebuilds(stack, 0);
    assert stack[..0] == [] && stack[0..] == stack;
  }

  /** Following a path in two steps is following it in one, failures included. */
  lemma NormalisedJoin(cwd: seq<byte>, p: seq<byte>, q: seq<byte>, cap: nat)
    requires Normal(cwd) && Normalised(cwd, p, cap).Ok? && q != [] && q[0] != SLASH
    ensures Normalised(cwd, p + [SLASH] + q, cap) == Normalised(Normalised(cwd, p, cap).text, q, cap)
  {
    var stack := Start(cwd, p);
    assert (p + [SLASH] + q)[0] == p[0];
    NormalisedClean(cwd, p, cap);
    NormIsFold(stack, Components(p));
    ComponentsJoin(p, q);
    NormConcat(stack, Components(p), Components(q));
  }

  // ----- laws -----

  /** A name and `..` behind it cancel, `.` does nothing, and there is nothing above the root. */
  lemma FoldLaws(stack: seq<seq<byte>>, x: seq<byte>)
    requires IsName(x)
    ensures Fold(stack, [x]) == stack + [x]
    ensures Fold(stack, [x, ['.' as int, '.' as int]]) == stack
    ensures Fold(stack, [['.' as int]]) == stack
    ensures Fold([], [['.' as int, '.' as int]]) == []
  {
    var up: seq<byte> := ['.' as int, '.' as int];
    var both: seq<seq<byte>> := [x, up];
    assert both[1..] == [up] && (stack + [x])[..|stack|] == stack;
    FoldOne(stack, x);
    FoldOne(stack + [x], up);
    FoldOne(stack, ['.' as int]);
    FoldOne([], up);
  }

  lemma FoldOne(stack: seq<seq<byte>>, c: seq<byte>)
    ensures Fold(stack, [c]) == Push(stack, c)
  {
    var one: seq<seq<byte>> := [c];
    assert one[1..] == [];
  }

  /** At every point on the way the text fits. */
  ghost predicate FitsOnTheWay(stack: seq<seq<byte>>, comps: seq<seq<byte>>) {
    forall k :: 0 <= k <= |comps| ==> |Joined(Fold(stack, comps[..k]))| < PATH_CAP
  }

  lemma FitsLater(stack: seq<seq<byte>>, comps: seq<seq<byte>>)
    requires comps != []
    ensures FitsOnTheWay(stack, comps) <==>
            |Joined(stack)| < PATH_CAP && FitsOnTheWay(Push(stack, comps[0]), comps[1..])
  {
    var next := Push(stack, comps[0]);
    forall k | 0 < k <= |comps|
      ensures Fold(stack, comps[..k]) == Fold(next, comps[1..][..k - 1])
    {
      assert comps[..k][0] == comps[0] && comps[..k][1..] == comps[1..][..k - 1];
    }
    assert comps[..0] == [];
    if FitsOnTheWay(next, comps[1..]) && |Joined(stack)| < PATH_CAP {
      forall k | 0 <= k <= |comps|
        ensures |Joined(Fold(stack, comps[..k]))| < PATH_CAP
      {
        if k > 0 {
          assert |Joined(Fold(next, comps[1..][..k - 1]))| < PATH_CAP;
        }
      }
    }
    if FitsOnTheWay(stack, comps) {
      assert |Joined(Fold(stack, comps[..0]))| < PATH_CAP;
      forall k | 0 <= k <= |comps[1..]|
        ensures |Joined(Fold(next, comps[1..][..k]))| < PATH_CAP
      {
        assert |Joined(Fold(stack, comps[..k + 1]))| < PATH_CAP;
      }
    }
  }

  /** The fold succeeds exactly when every component and every text on the way fits. */
  lemma {:induction false} NormExact(stack: seq<seq<byte>>, comps: seq<seq<byte>>)
    requires |Joined(stack)| < PATH_CAP
    ensures Norm(stack, comps).Some? <==>
            (forall i :: 0 <= i < |comps| ==> |comps[i]| < NAME_CAP) && FitsOnTheWay(stack, comps)
    decreases |comps|
  {
    hide FitsOnTheWay, Joined;
    if comps == [] {
      NothingOnTheWay(stack);
    } else {
      var next := Push(stack, comps[0]);
      FitsLater(stack, comps);
      assert forall i :: 1 <= i < |comps| ==> comps[i] == comps[1..][i - 1];
      assert (forall i :: 0 <= i < |comps| ==> |comps[i]| < NAME_CAP) <==>
             |comps[0]| < NAME_CAP && forall i :: 0 <= i < |comps[1..]| ==> |comps[1..][i]| < NAME_CAP;
      PushShrinks(stack, comps[0]);
      if |Joined(next)| < PATH_CAP {
        NormExact(next, comps[1..]);
      } else {
        FitsStart(next, comps[1..]);
      }
    }
  }

  lemma NothingOnTheWay(stack: seq<seq<byte>>)
    requires |Joined(stack)| < PATH_CAP
    ensures FitsOnTheWay(stack, [])
  {}

  lemma FitsStart(stack: seq<seq<byte>>, comps: seq<seq<byte>>)
    ensures FitsOnTheWay(stack, comps) ==> |Joined(stack)| < PATH_CAP
  {
    assert comps[..0] == [];
    assert FitsOnTheWay(stack, comps) ==> |Joined(Fold(stack, comps[..0]))| < PATH_CAP;
  }

  lemma PushShrinks(stack: seq<seq<byte>>, c: seq<byte>)
    ensures |Push(stack, c)| <= |stack| ==> |Joined(Push(stack, c))| <= |Joined(stack)|
  {}

  /** Normalising succeeds exactly when there is a path, all of it fits on the way, and the result fits the buffer. */
  lemma NormalisedExact(cwd: seq<byte>, path: seq<byte>, cap: nat)
    requires Proper(cwd)
    ensures Normalised(cwd, path, cap).Ok? <==>
            && path != [] && 2 <= cap && FitsOnTheWay(Start(cwd, path), Components(path))
            && (forall i :: 0 <= i < |Components(path)| ==> |Components(path)[i]| < NAME_CAP)
            && |Text(Fold(Start(cwd, path), Components(path)))| < cap
  {
    hide FitsOnTheWay, Components, Joined;
    var s :| Fits(s) && cwd == Text(s);
    ComponentsText(s);
    RootJoined();
    NormExact(Start(cwd, path), Components(path));
    if Norm(Start(cwd, path), Components(path)).Some? {
      NormIsFold(Start(cwd, path), Components(path));
    }
  }

  lemma RootJoined()
    ensures Joined([]) == []
  {}

  // ----- the loops -----

  /** The buffer holds the stack; the root is empty text or a slash. */
  predicate Holds(temp: seq<byte>, stack: seq<seq<byte>>) {
    temp == Joined(stack) || (stack == [] && temp == [SLASH])
  }

  lemma JoinedLong(stack: seq<seq<byte>>)
    requires AllNames(stack)
    ensures stack == [] <==> Joined(stack) == []
    ensures stack != [] ==> |Joined(stack)| >= 2 && Joined(stack)[|Joined(stack)| - 1] != SLASH
  {
    if stack != [] {
      var last := stack[|stack| - 1];
      assert IsName(last) && last[|last| - 1] in last;
    }
  }

  /** Drop the last name. */
  method Pop(temp: seq<byte>, ghost stack: seq<seq<byte>>) returns (r: seq<byte>)
    requires AllNames(stack) && Holds(temp, stack)
    ensures Holds(r, Push(stack, [DOT, DOT]))
  {
    hide AllNames;
    JoinedLong(stack);
    var len := |temp|;
    ghost var front := if stack == [] then [] else stack[..|stack| - 1];
    ghost var cut := |Joined(front)|;
    if stack != [] {
      LastName(stack);
    }
    while len > 1 && temp[len - 1] != SLASH
      invariant 0 <= len <= |temp| && (stack == [] ==> len == |temp|) && (stack != [] ==> cut + 1 <= len)
    {
      len := len - 1;
    }
    if len > 1 {
      len := len - 1;
    }
    r := temp[..len];
    if stack != [] {
      assert temp[..cut] == Joined(front);
      FrontLong(stack);
    }
  }

  lemma LastName(stack: seq<seq<byte>>)
    requires AllNames(stack) && stack != []
    ensures var cut, text := |Joined(stack[..|stack| - 1])|, Joined(stack);
            cut + 1 < |text| && text[cut] == SLASH && text[..cut] == Joined(stack[..|stack| - 1]) &&
              forall i :: cut < i < |text| ==> text[i] != SLASH
  {
    var last := stack[|stack| - 1];
    assert IsName(last);
    assert forall i :: 0 <= i < |last| ==> last[i] in last;
  }

  lemma FrontLong(stack: seq<seq<byte>>)
    requires AllNames(stack) && stack != []
    ensures stack[..|stack| - 1] == [] <==> Joined(stack[..|stack| - 1]) == []
  {
    JoinedLong(stack[..|stack| - 1]);
  }

  /** Append a name, unless the buffer cannot hold it. */
  method Append(temp: seq<byte>, comp: seq<byte>, ghost stack: seq<seq<byte>>) returns (r: Option<seq<byte>>)
    requires AllNames(stack) && Holds(temp, stack) && IsName(comp)
    ensures r == if PATH_CAP <= |Joined(stack + [comp])| then None else Some(Joined(stack + [comp]))
  {
    JoinedLong(stack);
    JoinedPush(stack, comp);
    var text := temp;
    if |text| == 0 {
      text := text + [SLASH];
    } else if !(|text| == 1 && text[0] == SLASH) {
      if |text| + 1 >= PATH_CAP {
        return None;
      }
      text := text + [SLASH];
    }
    assert text == Joined(stack) + [SLASH];
    var i := 0;
    while i < |comp|
      invariant 0 <= i <= |comp| && text == Joined(stack) + [SLASH] + comp[..i] && (i > 0 ==> |text| < PATH_CAP)
    {
      if |text| + 1 >= PATH_CAP {
        return None;
      }
      text := text + [comp[i]];
      i := i + 1;
    }
    assert comp[..i] == comp;
    r := Some(text);
  }

  lemma JoinedPush(stack: seq<seq<byte>>, comp: seq<byte>)
    ensures Joined(stack + [comp]) == Joined(stack) + [SLASH] + comp
  {
    assert (stack + [comp])[..|stack|] == stack;
  }

  /** Append a name as far as the buffer can hold it. */
  method AppendCut(temp: seq<byte>, comp: seq<byte>, ghost stack: seq<seq<byte>>) returns (text: seq<byte>)
    requires |temp| < PATH_CAP
    ensures |text| < PATH_CAP
    ensures AllNames(stack) && Holds(temp, stack) && IsName(comp) && |Joined(stack + [comp])| < PATH_CAP ==>
              text == Joined(stack + [comp])
  {
    hide AllNames, IsName, Joined;
    ghost var good := AllNames(stack) && Holds(temp, stack) && IsName(comp) && |Joined(stack + [comp])| < PATH_CAP;
    JoinedPush(stack, comp);
    RootJoined();
    if good {
      JoinedLong(stack);
    }
    text := temp;
    if |text| == 0 || text[|text| - 1] != SLASH {
      if |text| + 1 < PATH_CAP {
        text := text + [SLASH];
      }
    }
    assert good ==> text == Joined(stack) + [SLASH];
    var i := 0;
    while i < |comp| && |text| + 1 < PATH_CAP
      invariant 0 <= i <= |comp| && |text| < PATH_CAP && (good ==> text == Joined(stack) + [SLASH] + comp[..i])
    {
      text := text + [comp[i]];
      i := i + 1;
    }
    assert comp[..|comp|] == comp;
  }

  /** Drop the last name, as the drivers do it. */
  method PopCut(temp: seq<byte>, ghost stack: seq<seq<byte>>) returns (r: seq<byte>)
    ensures |r| <= |temp|
    ensures AllNames(stack) && Holds(temp, stack) ==> Holds(r, Push(stack, [DOT, DOT]))
  {
    hide AllNames;
    ghost var good := AllNames(stack) && Holds(temp, stack);
    ghost var front := if stack == [] then [] else stack[..|stack| - 1];
    ghost var cut := |Joined(front)|;
    if good {
      JoinedLong(stack);
      if stack != [] {
        LastName(stack);
        FrontLong(stack);
      }
    }
    var len := |temp|;
    while len > 0 && temp[len - 1] != SLASH
      invariant 0 <= len <= |temp| && (good && stack == [] ==> len == |temp|)
      invariant good && stack != [] ==> cut + 1 <= len
    {
      len := len - 1;
    }
    if len > 1 && temp[len - 1] == SLASH {
      r := temp[..len - 1];
    } else if len == 1 {
      r := temp[..1];
    } else {
      r := [];
    }
  }

  /** What one component does to the fold. */
  lemma NormStep(stack: seq<seq<byte>>, comps: seq<seq<byte>>)
    requires comps != []
    ensures Norm(stack, comps) ==
            if NAME_CAP <= |comps[0]| then None
            else if |Push(stack, comps[0])| > |stack| && PATH_CAP <= |Joined(Push(stack, comps[0]))| then None
            else Norm(Push(stack, comps[0]), comps[1..])
  {}

  lemma PushName(stack: seq<seq<byte>>, c: seq<byte>)
    requires AllNames(stack) && c != [] && SLASH !in c
    ensures AllNames(Push(stack, c))
    ensures c != [DOT] && c != [DOT, DOT] ==> IsName(c) && Push(stack, c) == stack + [c]
  {}

  /** Read a component, unless it is too long for the name buffer. */
  method Take(path: seq<byte>, at: nat) returns (name: Option<seq<byte>>)
    requires at < |path| && path[at] != SLASH
    ensures Components(path[at..]) != []
    ensures var c := Components(path[at..])[0]; name == if NAME_CAP <= |c| then None else Some(c)
    ensures name.Some? ==>
              && name.value != [] && SLASH !in name.value && at + |name.value| <= |path|
              && Components(path[at..])[1..] == Components(path[at + |name.value|..])
  {
    hide Components;
    ghost var rest := path[at..];
    var len := 0;
    while at + len < |path| && path[at + len] != SLASH
      invariant at + len <= |path| && len < NAME_CAP
      invariant forall i :: 0 <= i < len ==> rest[i] != SLASH
      invariant len == 0 ==> at < |path| && path[at] != SLASH
    {
      if len + 1 >= NAME_CAP {
        LongToken(rest, len + 1);
        return None;
      }
      len := len + 1;
    }
    TokenTaken(rest, len);
    NoSlash(rest, len);
    assert path[at..at + len] == rest[..len] && rest[len..] == path[at + len..];
    name := Some(path[at..at + len]);
  }

  /** The file-system layer's normalisation, into a buffer of `cap` bytes. */
  method NormalizePath(cwd: seq<byte>, path: seq<byte>, cap: nat) returns (r: Result)
    requires cwd == [] || Proper(cwd)
    ensures r == Normalised(cwd, path, cap)
  {
    hide Norm, Components, AllNames, Push, Joined, IsName;
    if path == [] || cap < 2 {
      return Invalid;
    }
    ghost var stack := Start(cwd, path);
    var temp: seq<byte>, at := [], 0;
    if path[0] == SLASH {
      at := SkipSlashes(path, 0);
    } else {
      temp := if cwd == [] then [SLASH] else cwd;
    }
    assert path[0..] == path;
    StartHolds(cwd, path, temp);
    while at < |path|
      invariant at <= |path| && AllNames(stack) && Holds(temp, stack) && (at < |path| ==> path[at] != SLASH)
      invariant Norm(Start(cwd, path), Components(path)) == Norm(stack, Components(path[at..]))
      decreases |path| - at
    {
      var name := Take(path, at);
      NormStep(stack, Components(path[at..]));
      if name.None? {
        return Invalid;
      }
      var comp := name.value;
      PushName(stack, comp);
      PushSkips(stack);
      at := SkipSlashes(path, at + |comp|);
      if comp != [DOT] {
        if comp == [DOT, DOT] {
          temp := Pop(temp, stack);
        } else {
          var text := Append(temp, comp, stack);
          if text.None? {
            return Invalid;
          }
          temp := text.value;
        }
      }
      stack := Push(stack, comp);
    }
    assert path[at..] == [];
    NoComponents();
    NormEnds(stack);
    JoinedLong(stack);
    if temp == [] {
      r := Ok([SLASH]);
    } else if |temp| + 1 > cap {
      r := Invalid;
    } else {
      r := Ok(temp);
    }
  }

  lemma NoSlash(s: seq<byte>, n: nat)
    requires n <= |s| && forall i :: 0 <= i < n ==> s[i] != SLASH
    ensures SLASH !in s[..n]
  {}

  lemma NormEnds(stack: seq<seq<byte>>)
    ensures Norm(stack, []) == Some(stack)
  {}

  /** A dot changes nothing, two dots never lengthen the stack. */
  lemma PushSkips(stack: seq<seq<byte>>)
    ensures Push(stack, [DOT]) == stack && |Push(stack, [DOT, DOT])| <= |stack|
  {}

  lemma StartHolds(cwd: seq<byte>, path: seq<byte>, temp: seq<byte>)
    requires (cwd == [] || Proper(cwd)) && path != []
    requires temp == if path[0] == SLASH then [] else if cwd == [] then [SLASH] else cwd
    ensures AllNames(Start(cwd, path)) && Holds(temp, Start(cwd, path)) && |temp| < PATH_CAP
  {
    if path[0] != SLASH {
      if cwd != [] {
        var s :| Fits(s) && cwd == Text(s);
        ComponentsText(s);
      } else {
        NoComponents();
      }
    }
  }

  /** Read a component, keeping as much of it as the name buffer holds. */
  method TakeCut(path: seq<byte>, at: nat) returns (comp: seq<byte>, len: nat)
    requires at < |path| && path[at] != SLASH
    ensures 0 < len && at + len <= |path| && comp != [] && SLASH !in comp
    ensures Components(path[at..]) != [] && Components(path[at..])[1..] == Components(path[at + len..])
    ensures |Components(path[at..])[0]| < NAME_CAP ==> comp == Components(path[at..])[0]
  {
    hide Components;
    ghost var rest := path[at..];
    len, comp := 0, [];
    while at + len < |path| && path[at + len] != SLASH
      invariant at + len <= |path| && comp == path[at..at + if len < NAME_CAP then len else NAME_CAP - 1]
      invariant forall i :: 0 <= i < len ==> rest[i] != SLASH
      invariant len == 0 ==> at < |path| && path[at] != SLASH
    {
      if |comp| + 1 < NAME_CAP {
        comp := comp + [path[at + len]];
      }
      len := len + 1;
    }
    TokenTaken(rest, len);
    assert path[at..at + len] == rest[..len] && rest[len..] == path[at + len..];
    NoSlash(rest, |comp|);
    assert comp == rest[..|comp|];
  }

  /**
   The drivers' copies, which cut what does not fit: whenever the file-system layer succeeds they
   give the same text.
   */
  method NormalizeCut(cwd: seq<byte>, path: seq<byte>) returns (text: seq<byte>)
    requires Proper(cwd) && path != []
    ensures |text| < PATH_CAP
    ensures forall cap: nat :: Normalised(cwd, path, cap).Ok? ==> text == Normalised(cwd, path, cap).text
  {
    hide Norm, Components, AllNames, Push, Joined, IsName;
    ghost var stack := Start(cwd, path);
    ghost var all := Norm(stack, Components(path));
    var temp: seq<byte>, at := [], 0;
    NotEmpty(cwd);
    if path[0] == SLASH {
      at := SkipSlashes(path, 0);
    } else {
      temp := cwd;
    }
    assert path[0..] == path;
    StartHolds(cwd, path, temp);
    while at < |path|
      invariant at <= |path| && |temp| < PATH_CAP && (at < |path| ==> path[at] != SLASH)
      invariant all.Some? ==> AllNames(stack) && Holds(temp, stack) && all == Norm(stack, Components(path[at..]))
      decreases |path| - at
    {
      ghost var rest := path[at..];
      var comp, len := TakeCut(path, at);
      NormStep(stack, Components(rest));
      if all.Some? {
        PushName(stack, comp);
      }
      PushSkips(stack);
      at := SkipSlashes(path, at + len);
      if comp != [DOT] {
        if comp == [DOT, DOT] {
          temp := PopCut(temp, stack);
        } else {
          temp := AppendCut(temp, comp, stack);
        }
      }
      stack := Push(stack, comp);
    }
    assert path[at..] == [];
    NoComponents();
    NormEnds(stack);
    if all.Some? {
      JoinedLong(stack);
    }
    text := if temp == [] then [SLASH] else temp;
  }

  lemma NotEmpty(cwd: seq<byte>)
    requires Proper(cwd)
    ensures cwd != []
  {
    var s :| Fits(s) && cwd == Text(s);
    ComponentsText(s);
  }
}
