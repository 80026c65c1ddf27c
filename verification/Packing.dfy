/**
 The files the build makes for the loaders: programs as the userland linker scripts
 lay them out, and driver modules as the packing tool writes them.  The loaders
 accept them and find in them what was put there.
 */
module Packing {
  import opened Bytes
  import Sprg
  import Modules

  // ----- words -----

  /** Little-endian 32-bit words, one after the other. */
  function Words(ws: seq<nat>): (r: seq<byte>)
    requires forall i :: 0 <= i < |ws| ==> ws[i] < WORD
    ensures |r| == 4 * |ws|
  {
    if ws == [] then [] else Words(ws[..|ws| - 1]) + PutLe32(ws[|ws| - 1])
  }

  lemma {:induction false} WordAt(before: seq<byte>, ws: seq<nat>, after: seq<byte>, i: nat)
    requires i < |ws| && forall k :: 0 <= k < |ws| ==> ws[k] < WORD
    ensures Le32(before + Words(ws) + after, |before| + 4 * i) == ws[i]
  {
    var front, last := ws[..|ws| - 1], PutLe32(ws[|ws| - 1]);
    var all := before + Words(ws) + after;
    if i == |ws| - 1 {
      assert forall k :: 0 <= k < 4 ==> all[|before| + 4 * i + k] == last[k];
    } else {
      WordAt(before, front, last + after, i);
      assert all == before + Words(front) + (last + after);
    }
  }

  // ----- programs -----

  const SPRG: seq<byte> := ['S' as int, 'P' as int, 'R' as int, 'G' as int]

  /** A position the linker script counts from: the code follows the header and the one segment entry. */
  const PROGRAM_START := 60

  ghost predicate Linkable(base: nat, entry: nat, code: seq<byte>, bss: nat) {
    base + PROGRAM_START + |code| + bss < WORD && entry < WORD
  }

  /** The words behind the magic: header, then the one segment. */
  function ProgramWords(base: nat, entry: nat, n: nat, bss: nat): seq<nat> {
    [1, 1, entry, 28, 1, 0,
     1, PROGRAM_START, base + PROGRAM_START, n, n + bss, 7, 0x1000, 0]
  }

  /** The file linked at `base` with its entry point, its code and data, and its cleared memory. */
  function Program(base: nat, entry: nat, code: seq<byte>, bss: nat): (file: seq<byte>)
    requires base + PROGRAM_START + |code| + bss < WORD && entry < WORD
    ensures |file| == PROGRAM_START + |code| && file[PROGRAM_START..] == code
  {
    SPRG + Words(ProgramWords(base, entry, |code|, bss)) + code
  }

  lemma ProgramWord(base: nat, entry: nat, code: seq<byte>, bss: nat, i: nat)
    requires Linkable(base, entry, code, bss) && i < 14
    ensures Le32(Program(base, entry, code, bss), 4 + 4 * i) == ProgramWords(base, entry, |code|, bss)[i]
  {
    WordAt(SPRG, ProgramWords(base, entry, |code|, bss), code, i);
  }

  /** The loader reads back one executable segment: the code at its place, then cleared memory. */
  lemma ProgramImage(base: nat, entry: nat, code: seq<byte>, bss: nat)
    requires Linkable(base, entry, code, bss)
    ensures var file := Program(base, entry, code, bss);
            && Sprg.HeaderCheck(file, 1) == Sprg.Okay
            && Sprg.ImageOf(file) ==
               Sprg.Image(entry, [Sprg.Segment(1, PROGRAM_START, base + PROGRAM_START, |code|, |code| + bss, 7,
                                               0x1000, 0)],
                          |file|)
  {
    hide Words, Le32;
    var file := Program(base, entry, code, bss);
    ProgramWord(base, entry, code, bss, 0);
    ProgramWord(base, entry, code, bss, 1);
    ProgramWord(base, entry, code, bss, 2);
    ProgramWord(base, entry, code, bss, 3);
    ProgramWord(base, entry, code, bss, 4);
    ProgramWord(base, entry, code, bss, 5);
    ProgramWord(base, entry, code, bss, 6);
    ProgramWord(base, entry, code, bss, 7);
    ProgramWord(base, entry, code, bss, 8);
    ProgramWord(base, entry, code, bss, 9);
    ProgramWord(base, entry, code, bss, 10);
    ProgramWord(base, entry, code, bss, 11);
    ProgramWord(base, entry, code, bss, 12);
    ProgramWord(base, entry, code, bss, 13);
    assert file[..4] == SPRG;
  }

  /** A linked program of at most 64 KiB is a good file, and runs wherever it was linked for. */
  lemma ProgramLoads(path: string, base: nat, entry: nat, code: seq<byte>, bss: nat, userMin: nat, userMax: nat)
    requires Linkable(base, entry, code, bss) && Sprg.HasPrgSuffix(path) && PROGRAM_START + |code| <= 0x1_0000
    ensures Sprg.GoodFile(path, Sprg.Found(true), Program(base, entry, code, bss), 1)
    ensures var start := base + PROGRAM_START;
            Sprg.Runnable(Sprg.ImageOf(Program(base, entry, code, bss)), userMin, userMax) <==>
            userMin <= start <= entry < start + |code| + bss <= userMax
  {
    hide Program, Words;
    ProgramSize(base, entry, code, bss);
    ProgramImage(base, entry, code, bss);
    var m := Sprg.ImageOf(Program(base, entry, code, bss));
    assert Sprg.GoodSegment(m, 0);
    assert m.segments[0].Executable();
  }

  lemma ProgramSize(base: nat, entry: nat, code: seq<byte>, bss: nat)
    requires Linkable(base, entry, code, bss)
    ensures |Program(base, entry, code, bss)| == PROGRAM_START + |code|
  {}

  /** Loading a linked program: its code lies where it was linked, cleared memory behind it, nothing else changed. */
  method LoadLinked(path: string, src: Sprg.Source, mem: array<byte>, userMin: nat, userMax: nat, ghost base: nat,
                    ghost entry: nat, ghost code: seq<byte>, ghost bss: nat) returns (rc: Sprg.Code)
    requires Linkable(base, entry, code, bss) && src.bytes == Program(base, entry, code, bss) && src.Steady()
    requires Sprg.HasPrgSuffix(path) && |src.bytes| <= 0x1_0000 && userMax <= mem.Length && userMax < WORD
    requires userMin <= base + PROGRAM_START <= entry < base + PROGRAM_START + |code| + bss <= userMax
    modifies mem, src
    ensures rc == Sprg.Okay
    ensures var start := base + PROGRAM_START;
            && mem[start..start + |code|] == code
            && (forall a :: start + |code| <= a < start + |code| + bss ==> mem[a] == 0)
    ensures forall a :: 0 <= a < mem.Length && !(userMin <= a < userMax) ==> mem[a] == old(mem[a])
  {
    hide Program, Words, Sprg.GoodFile, Sprg.Runnable;
    ProgramSize(base, entry, code, bss);
    ProgramLoads(path, base, entry, code, bss, userMin, userMax);
    ProgramImage(base, entry, code, bss);
    var image;
    rc, image := Sprg.LoadFile(path, Sprg.Found(true), src, 1, mem, userMin, userMax);
    assert Sprg.Loaded(mem[..], image.segments[0], src.bytes);
    ProgramCode(base, entry, code, bss);
  }

  lemma ProgramCode(base: nat, entry: nat, code: seq<byte>, bss: nat)
    requires Linkable(base, entry, code, bss)
    ensures var file := Program(base, entry, code, bss);
            |file| == PROGRAM_START + |code| && forall k :: 0 <= k < |code| ==> file[PROGRAM_START + k] == code[k]
  {
    var file := Program(base, entry, code, bss);
    assert forall k :: 0 <= k < |code| ==> file[PROGRAM_START + k] == file[PROGRAM_START..][k];
  }

  // ----- modules -----

  const SMOD: seq<byte> := ['S' as int, 'M' as int, 'O' as int, 'D' as int]

  /** Format 1, interface 3, i386, executable. */
  function SmodTags(): (r: seq<byte>)
    ensures |r| == 12
  {
    SMOD + PutLe16(1) + PutLe16(3) + PutLe16(1) + PutLe16(1)
  }

  /**
   A module file: header size, code size, memory size, entry point and a reserved word behind the
   tags, then the code.
   */
  function Pack(code: seq<byte>, memory: nat, entry: nat): (file: seq<byte>)
    requires |code| < WORD && memory < WORD && entry < WORD
    ensures |file| == 32 + |code|
  {
    SmodTags() + Words([32, |code|, memory, entry, 0]) + code
  }

  /** What the packing tool asks of a module. */
  predicate Packable(code: seq<byte>, memory: nat, entry: nat) {
    0 < |code| <= 16384 && |code| <= memory <= 16384 && entry < |code|
  }

  lemma PackedFields(code: seq<byte>, memory: nat, entry: nat)
    requires |code| < WORD && memory < WORD && entry < WORD
    ensures var f := Pack(code, memory, entry);
            && f[..4] == SMOD && Le16(f, 4) == 1 && Le16(f, 6) == 3 && Le16(f, 8) == 1 && Le16(f, 10) == 1
            && Le32(f, 12) == 32 && Le32(f, 16) == |code| && Le32(f, 20) == memory && Le32(f, 24) == entry
            && Le32(f, 28) == 0 && f[32..] == code
  {
    var tags, ws, f := SmodTags(), [32, |code|, memory, entry, 0], Pack(code, memory, entry);
    assert forall i :: 0 <= i < 12 ==> f[i] == tags[i];
    assert tags[4] == PutLe16(1)[0] && tags[5] == PutLe16(1)[1] && tags[6] == PutLe16(3)[0] && tags[7] == PutLe16(3)[1];
    assert tags[8] == PutLe16(1)[0] && tags[9] == PutLe16(1)[1] && tags[10] == PutLe16(1)[0] &&
           tags[11] == PutLe16(1)[1];
    WordAt(tags, ws, code, 0);
    WordAt(tags, ws, code, 1);
    WordAt(tags, ws, code, 2);
    WordAt(tags, ws, code, 3);
    WordAt(tags, ws, code, 4);
    hide Words;
    assert f[32..] == code;
    assert f[..4] == SMOD;
  }

  /** The kernel accepts what the tool packs, and reads back what was packed. */
  lemma PackedLoads(code: seq<byte>, memory: nat, entry: nat)
    requires |code| < WORD && memory < WORD && entry < WORD
    ensures var f := Pack(code, memory, entry);
            Modules.Validate(f, |f|) ==
            if Packable(code, memory, entry) then Some(Modules.Header(|code|, memory, entry)) else None
  {
    hide Pack, Le16, Le32;
    PackedFields(code, memory, entry);
    PackedSize(code, memory, entry);
  }

  lemma PackedSize(code: seq<byte>, memory: nat, entry: nat)
    requires |code| < WORD && memory < WORD && entry < WORD
    ensures |Pack(code, memory, entry)| == 32 + |code|
  {}

  /** It accepts nothing else: every accepted file is one the tool could have packed. */
  lemma AcceptedPacked(f: seq<byte>)
    requires Modules.Validate(f, |f|).Some?
    ensures var h := Modules.Validate(f, |f|).value;
            && |f| == 32 + h.code && h.memory < WORD && h.entry < WORD
            && Packable(f[32..], h.memory, h.entry) && f == Pack(f[32..], h.memory, h.entry)
  {
    hide Pack, Le16, Le32;
    var h := Modules.Validate(f, |f|).value;
    PackedFields(f[32..], h.memory, h.entry);
    PackedSize(f[32..], h.memory, h.entry);
    SameHeaders(f, Pack(f[32..], h.memory, h.entry));
  }

  lemma SameHeaders(f: seq<byte>, p: seq<byte>)
    requires |f| == |p| >= 32 && f[..4] == p[..4] && f[32..] == p[32..]
    requires Le16(f, 4) == Le16(p, 4) && Le16(f, 6) == Le16(p, 6) && Le16(f, 8) == Le16(p, 8)
    requires Le16(f, 10) == Le16(p, 10)
    requires Le32(f, 12) == Le32(p, 12) && Le32(f, 16) == Le32(p, 16) && Le32(f, 20) == Le32(p, 20)
    requires Le32(f, 24) == Le32(p, 24) && Le32(f, 28) == Le32(p, 28)
    ensures f == p
  {
    hide Le16, Le32;
    SameLe16(f, p, 4);
    SameLe16(f, p, 6);
    SameLe16(f, p, 8);
    SameLe16(f, p, 10);
    SameLe32(f, p, 12);
    SameLe32(f, p, 16);
    SameLe32(f, p, 20);
    SameLe32(f, p, 24);
    SameLe32(f, p, 28);
    assert forall i :: 0 <= i < 4 ==> f[i] == f[..4][i] && p[i] == p[..4][i];
    assert forall i :: 32 <= i < |f| ==> f[i] == f[32..][i - 32] && p[i] == p[32..][i - 32];
    assert forall i :: 0 <= i < |f| ==> f[i] == p[i];
  }

  lemma SameLe16(f: seq<byte>, p: seq<byte>, at: nat)
    requires at + 2 <= |f| && at + 2 <= |p| && Le16(f, at) == Le16(p, at)
    ensures f[at] == p[at] && f[at + 1] == p[at + 1]
  {}

  lemma Digit(a: byte, x: nat, b: byte, y: nat)
    requires a as int + 256 * x == b as int + 256 * y
    ensures a == b && x == y
  {}

  lemma SameLe32(f: seq<byte>, p: seq<byte>, at: nat)
    requires at + 4 <= |f| && at + 4 <= |p| && Le32(f, at) == Le32(p, at)
    ensures f[at] == p[at] && f[at + 1] == p[at + 1] && f[at + 2] == p[at + 2] && f[at + 3] == p[at + 3]
  {
    var x3: nat, y3: nat := f[at + 3], p[at + 3];
    var x2: nat, y2: nat := f[at + 2] as int + 256 * x3, p[at + 2] as int + 256 * y3;
    var x1: nat, y1: nat := f[at + 1] as int + 256 * x2, p[at + 1] as int + 256 * y2;
    Digit(f[at], x1, p[at], y1);
    Digit(f[at + 1], x2, p[at + 1], y2);
    Digit(f[at + 2], x3, p[at + 2], y3);
  }
}
