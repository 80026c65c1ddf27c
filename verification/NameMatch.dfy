/** Comparing a stored name with a requested one: without regard to case, or as an alias `stem~digits`. */
module NameMatch {
  import opened Bytes

  const TILDE: byte := 0x7E

  function Lower(b: byte): byte {
    if 0x41 <= b <= 0x5A then b + 32 else b
  }

  function LowerAll(s: seq<byte>): (r: seq<byte>)
    ensures |r| == |s| && forall i :: 0 <= i < |s| ==> r[i] == Lower(s[i])
  {
    seq(|s|, i requires 0 <= i < |s| => Lower(s[i]))
  }

  /** The stem of a stored name before its first tilde. */
  function StemLen(s: seq<byte>): (n: nat)
    ensures n <= |s| && (forall i :: 0 <= i < n ==> s[i] != TILDE) && (n < |s| ==> s[n] == TILDE)
  {
    if s == [] || s[0] == TILDE then 0 else 1 + StemLen(s[1..])
  }

  /** A stored alias `stem~digits` stands for every longer name with that stem. */
  predicate AliasEq(stored: seq<byte>, wanted: seq<byte>) {
    var n := StemLen(stored);
    && 0 < n < |stored| && n < |wanted|
    && (forall i :: n < i < |stored| ==> 0x30 <= stored[i] <= 0x39)
    && (forall i :: 0 <= i < n ==> Lower(stored[i]) == Lower(wanted[i]))
  }

  predicate NameEq(stored: seq<byte>, wanted: seq<byte>) {
    LowerAll(stored) == LowerAll(wanted) || AliasEq(stored, wanted)
  }

  /** Letters A to Z become a to z. */
  lemma LowerMeans(b: byte)
    ensures Lower(b) == if 'A' as int <= b <= 'Z' as int then b - 'A' as int + 'a' as int else b
  {}

  /** The stored name is a stem, a tilde and digits; the wanted one is longer than the stem and starts with it. */
  ghost predicate AliasOf(stored: seq<byte>, wanted: seq<byte>, stem: seq<byte>, digits: seq<byte>) {
    && stored == stem + ['~' as int] + digits && stem != [] && TILDE !in stem
    && (forall d :: d in digits ==> '0' as int <= d <= '9' as int)
    && |stem| < |wanted| && LowerAll(wanted[..|stem|]) == LowerAll(stem)
  }

  lemma AliasMeans(stored: seq<byte>, wanted: seq<byte>)
    ensures AliasEq(stored, wanted) <==> exists stem, digits :: AliasOf(stored, wanted, stem, digits)
  {
    var n := StemLen(stored);
    if AliasEq(stored, wanted) {
      var stem, digits := stored[..n], stored[n + 1..];
      assert stored == stem + ['~' as int] + digits;
      assert LowerAll(wanted[..n]) == LowerAll(stem);
      assert AliasOf(stored, wanted, stem, digits);
    }
    if stem, digits :| AliasOf(stored, wanted, stem, digits) {
      assert stored[|stem|] == TILDE;
      assert forall i :: 0 <= i < |stem| ==> stored[i] == stem[i] && stem[i] in stem;
      assert n == |stem|;
      assert forall i :: n < i < |stored| ==> stored[i] == digits[i - n - 1] && stored[i] in digits;
      forall i | 0 <= i < n
        ensures Lower(stored[i]) == Lower(wanted[i])
      {
        assert LowerAll(wanted[..n])[i] == LowerAll(stem)[i];
      }
    }
  }

  /** Names match without regard to case, or as an alias. */
  lemma NameEqMeans(stored: seq<byte>, wanted: seq<byte>)
    ensures NameEq(stored, wanted) <==>
            || (|stored| == |wanted| && forall i :: 0 <= i < |stored| ==> Lower(stored[i]) == Lower(wanted[i]))
            || exists stem, digits :: AliasOf(stored, wanted, stem, digits)
  {
    AliasMeans(stored, wanted);
    if |stored| == |wanted| && forall i :: 0 <= i < |stored| ==> Lower(stored[i]) == Lower(wanted[i]) {
      assert LowerAll(stored) == LowerAll(wanted);
    }
    if LowerAll(stored) == LowerAll(wanted) {
      assert forall i :: 0 <= i < |stored| ==> LowerAll(stored)[i] == LowerAll(wanted)[i];
    }
  }

  /** Every name matches itself. */
  lemma NameEqSelf(s: seq<byte>)
    ensures NameEq(s, s)
  {}
}
