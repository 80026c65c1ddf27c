/** Bytes, little-endian fields and in-place splices of byte sequences. */
module Bytes {

  type byte = b: int | 0 <= b < 256

  /** The number of 32-bit values. */
  const WORD := 0x1_0000_0000

  /** A C string without its terminator. */
  type cstring = s: seq<byte> | 0 !in s

  datatype Option<+T> = None | Some(value: T)

  function Le16(s: seq<byte>, at: nat): (v: nat)
    requires at + 2 <= |s|
    ensures v < 0x1_0000
  {
    s[at] as int + 256 * s[at + 1] as int
  }

  function Le32(s: seq<byte>, at: nat): (v: nat)
    requires at + 4 <= |s|
    ensures v < WORD
  {
    s[at] as int + 0x100 * s[at + 1] as int + 0x1_0000 * s[at + 2] as int + 0x100_0000 * s[at + 3] as int
  }

  /** The two bytes fat12_put_le16 stores for a 16-bit value. */
  function PutLe16(v: nat): (s: seq<byte>)
    ensures |s| == 2 && Le16(s, 0) == v % 0x1_0000 && s[0] == v % 256
  {
    [v % 256, v / 256 % 256]
  }

  function PutLe32(v: nat): (s: seq<byte>)
    requires v < WORD
    ensures |s| == 4 && Le32(s, 0) == v && s[0] == v % 256 && s[3] == v / 0x100_0000
  {
    assert v / 0x1_0000 == v / 0x100 / 0x100 && v / 0x100_0000 == v / 0x1_0000 / 0x100;
    [v % 256, v / 0x100 % 256, v / 0x1_0000 % 256, v / 0x100_0000]
  }

  /** `s` with `part` stored over the elements from `at` on. */
  function Splice<T>(s: seq<T>, at: nat, part: seq<T>): (r: seq<T>)
    requires at + |part| <= |s|
    ensures |r| == |s|
    ensures forall i :: 0 <= i < |s| ==> r[i] == if at <= i < at + |part| then part[i - at] else s[i]
  {
    s[..at] + part + s[at + |part|..]
  }

  function Zeros(n: nat): (s: seq<byte>)
    ensures |s| == n && forall i :: 0 <= i < n ==> s[i] == 0
  {
    seq(n, _ => 0)
  }

  function Max(a: nat, b: nat): nat {
    if a < b then b else a
  }

  function Min(a: nat, b: nat): nat {
    if a < b then a else b
  }

  /** The part of a file a read from an offset returns. */
  function Window(s: seq<byte>, offset: nat, cap: nat): (r: seq<byte>)
    ensures |r| == if |s| <= offset then 0 else Min(cap, |s| - offset)
    ensures forall i :: 0 <= i < |r| ==> r[i] == s[offset + i]
  {
    if |s| <= offset then [] else s[offset..offset + Min(cap, |s| - offset)]
  }

  /** The old bytes with new ones from an offset on, and zeros in the gap if the offset lies behind the end. */
  function Overlay(was: seq<byte>, offset: nat, data: seq<byte>): (r: seq<byte>)
    ensures |r| == if offset + |data| > |was| then offset + |data| else |was|
    ensures forall i :: 0 <= i < |r| ==>
                          r[i] == if offset <= i < offset + |data| then data[i - offset]
                            else if i < |was| then was[i] else 0
  {
    (if offset <= |was| then was[..offset] else was + Zeros(offset - |was|)) + data +
    (if offset + |data| <= |was| then was[offset + |data|..] else [])
  }
}
