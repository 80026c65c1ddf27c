/** Directory entries, 8.3 names, and the scans over the slots of a directory. */
module Fat12Dir {
  import opened Bytes
  import opened Paths
  import opened Fat12Journal
  import opened Fat12Chain

  const SLOT := 32
  const DELETED: byte := 0xE5
  const SPACE: byte := 0x20
  const ATTR_DIRECTORY: byte := 0x10

  type slot = s: seq<byte> | |s| == SLOT witness Zeros(SLOT)
  type name83 = s: seq<byte> | |s| == 11 witness Zeros(11)

  // ----- entries -----

  function Name(s: slot): name83 {
    s[..11]
  }

  predicate IsDir(s: slot) {
    s[11] / 16 % 2 == 1
  }

  function Head(s: slot): nat {
    Le16(s, 26)
  }

  function Size(s: slot): nat {
    Le32(s, 28)
  }

  /** An entry the lookups step over: deleted, a volume label or a long-name part. */
  predicate Skipped(s: slot) {
    s[0] == DELETED || s[11] / 8 % 2 == 1
  }

  predicate Dots(s: slot) {
    s[0] == DOT && (s[1] == SPACE || s[1] == DOT)
  }

  /** An entry that names a file or a directory of the tree. */
  predicate Named(s: slot) {
    s[0] != 0 && !Skipped(s) && !Dots(s)
  }

  /** The entry written for a name, attributes, first cluster and size. */
  function MakeEntry(name: name83, attr: byte, head: nat, size: nat): (s: slot)
    requires size < WORD
    ensures Name(s) == name && s[11] == attr && Head(s) == head % 0x1_0000 && Size(s) == size
  {
    var s := name + [attr] + Zeros(14) + PutLe16(head) + PutLe32(size);
    assert s[26..28] == PutLe16(head) && s[28..32] == PutLe32(size);
    assert s[..11] == name;
    s
  }

  const DOT_NAME: name83 := [0x2E, 0x20, 0x20, 0x20, 0x20, 0x20, 0x20, 0x20, 0x20, 0x20, 0x20]
  const DOTDOT_NAME: name83 := [0x2E, 0x2E, 0x20, 0x20, 0x20, 0x20, 0x20, 0x20, 0x20, 0x20, 0x20]

  // ----- names -----

  function Upper(b: byte): byte {
    if 0x61 <= b <= 0x7A then b - 32 else b
  }

  function Padded(s: seq<byte>, n: nat): (r: seq<byte>)
    requires |s| <= n
    ensures |r| == n
  {
    s + seq(n - |s|, _ => SPACE)
  }

  function UpperAll(s: seq<byte>): (r: seq<byte>)
    ensures |r| == |s|
  {
    seq(|s|, i requires 0 <= i < |s| => Upper(s[i]))
  }

  /** The 8.3 form of a directory name: at most eight bytes, no dot, no slash. */
  function DirName(name: seq<byte>): (r: Option<name83>)
  {
    if name == [] || |name| > 8 || DOT in name || SLASH in name then None
    else Some(Padded(UpperAll(name), 11))
  }

  /** Everything before the first dot. */
  function BaseOf(name: seq<byte>): (r: seq<byte>)
    ensures |r| <= |name| && r == name[..|r|] && DOT !in r
    ensures |r| < |name| ==> name[|r|] == DOT
  {
    if name == [] || name[0] == DOT then [] else [name[0]] + BaseOf(name[1..])
  }

  /** Everything after the first dot. */
  function ExtOf(name: seq<byte>): (r: seq<byte>)
  {
    var n := |BaseOf(name)|;
    if n < |name| then name[n + 1..] else []
  }

  /**
   The 8.3 form of a file name: a base of one to eight bytes, optionally one dot
   and an extension of one to three bytes.
   */
  function FileName(name: seq<byte>): (r: Option<name83>)
  {
    var base, ext := BaseOf(name), ExtOf(name);
    if base == [] || |base| > 8 || SLASH in name || DOT in ext || |ext| > 3 || (|base| < |name| && ext == []) then None
    else Some(Padded(UpperAll(base), 8) + Padded(UpperAll(ext), 3))
  }

  /** A name that is not mistaken for a never-used, deleted or dot entry once it is stored. */
  predicate Plain(n: name83) {
    n[0] != 0 && n[0] != DELETED && n[0] != DOT
  }

  lemma DirNamePlain(name: cstring)
    ensures DirName(name).Some? ==> var n := DirName(name).value; n[0] == Upper(name[0]) && n[0] != 0 && n[0] != DOT
  {
    if DirName(name).Some? {
      assert name[0] in name;
    }
  }

  lemma FileNamePlain(name: cstring)
    ensures FileName(name).Some? ==> var n := FileName(name).value; n[0] == Upper(name[0]) && n[0] != 0 && n[0] != DOT
  {
    if FileName(name).Some? {
      assert name[0] == BaseOf(name)[0];
      assert name[0] in name && name[0] in BaseOf(name);
    }
  }

  // ----- scanning -----

  function SlotIn(unit: seq<byte>, j: nat): slot
    requires SLOT * j + SLOT <= |unit|
  {
    unit[SLOT * j..SLOT * j + SLOT]
  }

  predicate Matches(s: slot, name: name83) {
    !Skipped(s) && Name(s) == name
  }

  /** The scan of one unit: the end of the directory, a match, or nothing yet. */
  datatype Scan = Stop | Hit(index: nat) | More

  function ScanName(unit: seq<byte>, j: nat, name: name83): (r: Scan)
    ensures r.Hit? ==> j <= r.index && SLOT * r.index + SLOT <= |unit|
    decreases |unit| - SLOT * j
  {
    if |unit| < SLOT * j + SLOT then More
    else if unit[SLOT * j] == 0 then Stop
    else if Matches(SlotIn(unit, j), name) then Hit(j)
    else ScanName(unit, j + 1, name)
  }

  predicate Vacant(b: byte) {
    b == 0 || b == DELETED
  }

  function ScanVacant(unit: seq<byte>, j: nat): (r: Option<nat>)
    ensures r.Some? ==> j <= r.value && SLOT * r.value + SLOT <= |unit| && Vacant(unit[SLOT * r.value])
    decreases |unit| - SLOT * j
  {
    if |unit| < SLOT * j + SLOT then None
    else if Vacant(unit[SLOT * j]) then Some(j)
    else ScanVacant(unit, j + 1)
  }

  ghost predicate UnitsIn(v: Volume, us: seq<nat>) {
    forall i :: 0 <= i < |us| ==> us[i] < |v.units|
  }

  /** The first match in the units of a directory, in order. */
  ghost function Search(v: Volume, us: seq<nat>, name: name83): (r: Option<Ref>)
    requires UnitsIn(v, us)
    decreases |us|
  {
    if us == [] then None
    else
      match ScanName(v.units[us[0]], 0, name)
      case Stop => None
      case Hit(j) => Some(Ref(us[0], j))
      case More => Search(v, us[1..], name)
  }

  /** The first free or deleted slot in the units of a directory, in order. */
  ghost function SearchVacant(v: Volume, us: seq<nat>): (r: Option<Ref>)
    requires UnitsIn(v, us)
    decreases |us|
  {
    if us == [] then None
    else
      match ScanVacant(v.units[us[0]], 0)
      case Some(j) => Some(Ref(us[0], j))
      case None => SearchVacant(v, us[1..])
  }

  // ----- what the scans mean -----

  lemma {:induction false} ScanNameMeans(unit: seq<byte>, j: nat, name: name83)
    ensures var r := ScanName(unit, j, name);
            && (r.Hit? ==> Matches(SlotIn(unit, r.index), name) && unit[SLOT * r.index] != 0)
            && (r.Stop? ==> exists k: nat :: ZeroAt(unit, k) && j <= k &&
                                        forall i :: j <= i < k ==> !Matches(SlotIn(unit, i), name))
            && (r.More? ==> forall i :: j <= i && SLOT * i + SLOT <= |unit| ==>
                                          unit[SLOT * i] != 0 && !Matches(SlotIn(unit, i), name))
    decreases |unit| - SLOT * j
  {
    if |unit| >= SLOT * j + SLOT {
      if unit[SLOT * j] == 0 {
        assert ZeroAt(unit, j);
      } else if !Matches(SlotIn(unit, j), name) {
        ScanNameMeans(unit, j + 1, name);
      }
    }
  }

  ghost predicate ZeroAt(unit: seq<byte>, k: nat) {
    SLOT * k + SLOT <= |unit| && unit[SLOT * k] == 0
  }

  lemma {:induction false} ScanVacantMeans(unit: seq<byte>, j: nat)
    ensures var r := ScanVacant(unit, j);
            && (r.Some? ==> forall i :: j <= i < r.value ==> !Vacant(unit[SLOT * i]))
            && (r.None? ==> forall i :: j <= i && SLOT * i + SLOT <= |unit| ==> !Vacant(unit[SLOT * i]))
    decreases |unit| - SLOT * j
  {
    if |unit| >= SLOT * j + SLOT && !Vacant(unit[SLOT * j]) {
      ScanVacantMeans(unit, j + 1);
    }
  }
}
