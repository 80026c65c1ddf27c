/**
 The reading side looks entries up by display name, ignoring case; the writing
 side by 8.3 bytes.  On volumes without long names and `~` names they agree.
 */
module Fat12Display {
  import opened Bytes
  import opened Paths
  import opened NameMatch
  import opened Fat12Dir

  const ATTR_LONG_NAME: byte := 0x0F

  /** A field without its trailing spaces. */
  function Trim(s: seq<byte>): (r: seq<byte>)
    ensures |r| <= |s| && r == s[..|r|] && (r != [] ==> r[|r| - 1] != SPACE)
    ensures forall i :: |r| <= i < |s| ==> s[i] == SPACE
  {
    if s == [] || s[|s| - 1] != SPACE then s else Trim(s[..|s| - 1])
  }

  function Base83(n: name83): seq<byte> {
    Trim(n[..8])
  }

  function Ext83(n: name83): seq<byte> {
    Trim(n[8..])
  }

  /** base, or base dot extension, in lower case. */
  function Display(n: name83): seq<byte> {
    if Ext83(n) == [] then LowerAll(Base83(n)) else LowerAll(Base83(n)) + [DOT] + LowerAll(Ext83(n))
  }

  /** A stored name as the driver writes them: upper case, no dot and no tilde inside its fields. */
  predicate Canonical(n: name83) {
    && Base83(n) != []
    && forall i :: 0 <= i < 11 ==> n[i] != DOT && n[i] != TILDE && !(0x61 <= n[i] <= 0x7A)
  }

  /** A name whose base and extension do not end in a space. */
  predicate Tidy(s: seq<byte>) {
    && (BaseOf(s) != [] ==> BaseOf(s)[|BaseOf(s)| - 1] != SPACE)
    && (ExtOf(s) != [] ==> ExtOf(s)[|ExtOf(s)| - 1] != SPACE)
  }

  lemma LowerUpper(b: byte)
    ensures Lower(Upper(b)) == Lower(b) && Upper(Lower(b)) == Upper(b) && Lower(Lower(b)) == Lower(b)
    ensures Lower(b) == DOT <==> b == DOT
    ensures Upper(b) == SPACE <==> b == SPACE
    ensures !(0x61 <= b <= 0x7A) ==> Upper(b) == b
  {}

  lemma TrimPadded(s: seq<byte>, n: nat)
    requires |s| <= n && (s != [] ==> s[|s| - 1] != SPACE)
    ensures Trim(Padded(s, n)) == s
  {
    var p := Padded(s, n);
    var t := Trim(p);
    assert forall i :: |s| <= i < n ==> p[i] == SPACE;
    assert forall i :: 0 <= i < |s| ==> p[i] == s[i];
    assert |t| == |s|;
    assert p[..|s|] == s;
  }

  /** The fields of a name made from text are the text's parts in upper case. */
  lemma FieldsOf(s: seq<byte>)
    requires FileName(s).Some? && Tidy(s)
    ensures Base83(FileName(s).value) == UpperAll(BaseOf(s)) && Ext83(FileName(s).value) == UpperAll(ExtOf(s))
  {
    var b, e, n := UpperAll(BaseOf(s)), UpperAll(ExtOf(s)), FileName(s).value;
    assert n[..8] == Padded(b, 8) && n[8..] == Padded(e, 3);
    if b != [] {
      LowerUpper(BaseOf(s)[|b| - 1]);
    }
    if e != [] {
      LowerUpper(ExtOf(s)[|e| - 1]);
    }
    TrimPadded(b, 8);
    TrimPadded(e, 3);
  }

  /** A name is determined by its fields. */
  lemma FieldsDetermine(m: name83, n: name83)
    requires Base83(m) == Base83(n) && Ext83(m) == Ext83(n)
    ensures m == n
  {
    forall i | 0 <= i < 11
      ensures m[i] == n[i]
    {
      if i < 8 {
        assert m[i] == m[..8][i] && n[i] == n[..8][i];
      } else {
        assert m[i] == m[8..][i - 8] && n[i] == n[8..][i - 8];
      }
    }
  }

  /** Text split at its first dot. */
  lemma JoinParts(s: seq<byte>)
    requires FileName(s).Some?
    ensures s == if ExtOf(s) == [] then BaseOf(s) else BaseOf(s) + [DOT] + ExtOf(s)
  {}

  lemma FirstDot(a: seq<byte>, x: seq<byte>, b: seq<byte>, y: seq<byte>)
    requires DOT !in a && DOT !in b
    requires (x == [] || x[0] == DOT) && (y == [] || y[0] == DOT)
    requires a + x == b + y
    ensures a == b && x == y
  {
    var w := a + x;
    assert forall i :: 0 <= i < |a| ==> w[i] == a[i] && a[i] in a;
    assert forall i :: 0 <= i < |b| ==> w[i] == b[i] && b[i] in b;
    assert x != [] ==> w[|a|] == DOT;
    assert y != [] ==> w[|b|] == DOT;
    assert |a| == |b|;
    assert a == w[..|a|] && b == w[..|b|] && x == w[|a|..] && y == w[|b|..];
  }

  lemma LowerDotless(s: seq<byte>)
    requires DOT !in s
    ensures DOT !in LowerAll(s)
  {
    assert forall i :: 0 <= i < |s| ==> s[i] in s;
  }

  lemma LowerInjective(a: seq<byte>, b: seq<byte>)
    requires LowerAll(a) == LowerAll(UpperAll(b)) && forall i :: 0 <= i < |a| ==> !(0x61 <= a[i] <= 0x7A)
    ensures a == UpperAll(b)
  {
    assert |a| == |b|;
    forall i | 0 <= i < |a|
      ensures a[i] == UpperAll(b)[i]
    {
      assert LowerAll(a)[i] == LowerAll(UpperAll(b))[i];
      LowerUpper(a[i]);
      LowerUpper(b[i]);
      LowerUpper(Upper(b[i]));
    }
  }

  lemma LowerConcat(a: seq<byte>, b: seq<byte>)
    ensures LowerAll(a + b) == LowerAll(a) + LowerAll(b)
  {}

  lemma LowerTwice(a: seq<byte>)
    ensures LowerAll(LowerAll(a)) == LowerAll(a) && LowerAll(UpperAll(a)) == LowerAll(a)
  {
    forall i | 0 <= i < |a|
      ensures Lower(Lower(a[i])) == Lower(a[i]) && Lower(Upper(a[i])) == Lower(a[i])
    {
      LowerUpper(a[i]);
    }
  }

  /** The part of the text from the first dot on. */
  function Tail(e: seq<byte>): seq<byte> {
    if e == [] then [] else [DOT] + e
  }

  lemma LowerTail(e: seq<byte>)
    ensures LowerAll(Tail(e)) == Tail(LowerAll(e))
  {
    LowerConcat([DOT], e);
    assert LowerAll([DOT]) == [DOT];
  }

  lemma DisplayParts(n: name83)
    ensures LowerAll(Display(n)) == LowerAll(Base83(n)) + Tail(LowerAll(Ext83(n)))
  {
    var b, e := Base83(n), Ext83(n);
    assert Display(n) == LowerAll(b) + Tail(LowerAll(e));
    LowerConcat(LowerAll(b), Tail(LowerAll(e)));
    LowerTwice(b);
    LowerTail(LowerAll(e));
    LowerTwice(e);
  }

  /** The display name of a canonical entry equals the text, ignoring case, exactly when the 8.3 bytes do. */
  lemma NamesAgree(n: name83, s: seq<byte>)
    requires Canonical(n) && FileName(s).Some? && Tidy(s)
    ensures NameEq(Display(n), s) <==> n == FileName(s).value
  {
    hide LowerAll, UpperAll, FileName, BaseOf, ExtOf, Display, Base83, Ext83, AliasEq, Canonical, Tidy;
    NoAlias(n, s);
    DisplayParts(n);
    FieldsOf(s);
    BaseDotless(s);
    var b, e := Base83(n), Ext83(n);
    var sb, se := BaseOf(s), ExtOf(s);
    JoinParts(s);
    assert sb + [] == sb && sb + ([DOT] + se) == sb + [DOT] + se;
    LowerConcat(sb, Tail(se));
    LowerTail(se);
    LowerTwice(sb);
    LowerTwice(se);
    Fields(n);
    if n == FileName(s).value {
      assert LowerAll(b) == LowerAll(sb) && LowerAll(e) == LowerAll(se);
    }
    if LowerAll(Display(n)) == LowerAll(s) {
      LowerDotless(b);
      LowerDotless(sb);
      FirstDot(LowerAll(b), Tail(LowerAll(e)), LowerAll(sb), Tail(LowerAll(se)));
      TailInjective(LowerAll(e), LowerAll(se));
      LowerInjective(b, sb);
      LowerInjective(e, se);
      FieldsDetermine(n, FileName(s).value);
    }
  }

  lemma BaseDotless(s: seq<byte>)
    ensures DOT !in BaseOf(s)
  {}

  lemma TailInjective(a: seq<byte>, b: seq<byte>)
    requires Tail(a) == Tail(b)
    ensures a == b
  {
    assert a != [] ==> a == Tail(a)[1..];
    assert b != [] ==> b == Tail(b)[1..];
  }

  lemma Fields(n: name83)
    requires Canonical(n)
    ensures forall i :: 0 <= i < |Base83(n)| ==> Base83(n)[i] != TILDE && !(0x61 <= Base83(n)[i] <= 0x7A)
    ensures forall i :: 0 <= i < |Ext83(n)| ==> Ext83(n)[i] != TILDE && !(0x61 <= Ext83(n)[i] <= 0x7A)
    ensures DOT !in Base83(n) && DOT !in Ext83(n)
  {
    assert forall i :: 0 <= i < |Base83(n)| ==> Base83(n)[i] == n[i];
    assert forall i :: 0 <= i < |Ext83(n)| ==> Ext83(n)[i] == n[8..][i] == n[8 + i];
  }

  /** A canonical name is nobody's alias. */
  lemma NoAlias(n: name83, s: seq<byte>)
    requires Canonical(n)
    ensures !AliasEq(Display(n), s)
  {
    Fields(n);
    var b, e, d := Base83(n), Ext83(n), Display(n);
    forall i | 0 <= i < |d|
      ensures d[i] != TILDE
    {
      if i < |b| {
        assert d[i] == Lower(b[i]);
      } else if i > |b| {
        assert d[i] == Lower(e[i - |b| - 1]);
      }
    }
  }

  /** A directory name is also a file name, with the same 8.3 bytes. */
  lemma DirNameIsFileName(s: seq<byte>)
    requires DirName(s).Some?
    ensures FileName(s) == Some(DirName(s).value) && BaseOf(s) == s && ExtOf(s) == []
  {
    var b := BaseOf(s);
    assert forall i :: 0 <= i < |s| ==> s[i] in s;
    assert b == s;
    assert Padded(UpperAll(s), 8) + Padded(UpperAll([]), 3) == Padded(UpperAll(s), 11);
  }
}
