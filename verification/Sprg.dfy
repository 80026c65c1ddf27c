/** Loading an executable: header and segment checks, then streaming the segments into user memory. */
module Sprg {
  import opened Bytes

  const HEADER_SIZE := 28
  const PHDR_SIZE := 32
  const CHUNK := 512
  const MAX_PHDRS := 8
  const MAX_FILE_SIZE := 65536

  datatype Code = Okay | Invalid | NotFound | TooLarge | BadMagic | BadVersion | BadArch | BadHeader | Unsupported

  datatype Segment = Segment(kind: nat, offset: nat, vaddr: nat, filesz: nat, memsz: nat, flags: nat, align: nat,
                             reserved: nat) {
    function End(): nat { vaddr + memsz }

    predicate Words() {
      kind < WORD && offset < WORD && vaddr < WORD && filesz < WORD && memsz < WORD && flags < WORD &&
        align < WORD && reserved < WORD
    }

    predicate Covers(a: nat) { vaddr <= a < vaddr + memsz }

    predicate Executable() { flags / 4 % 2 == 1 }
  }

  datatype Image = Image(entry: nat, segments: seq<Segment>, fileSize: nat)

  // ----- checks -----

  function RangeValid(offset: nat, size: nat, fileSize: nat): (r: bool)
    ensures r <==> offset + size <= fileSize
  {
    if offset > fileSize then false else size <= fileSize - offset
  }

  /** Segments that share an address; ones whose end wraps around count as sharing. */
  function Overlap(left: Segment, right: Segment): (r: bool)
    requires left.Words() && right.Words()
    ensures left.memsz > 0 && right.memsz > 0 && (left.End() >= WORD || right.End() >= WORD) ==> r
    ensures left.End() < WORD && right.End() < WORD ==> (r <==> exists a: nat :: left.Covers(a) && right.Covers(a))
  {
    assert left.End() < WORD && right.End() < WORD && left.memsz != 0 && right.memsz != 0 &&
           left.vaddr < right.End() && right.vaddr < left.End() ==>
        left.Covers(if left.vaddr < right.vaddr then right.vaddr else left.vaddr) &&
          right.Covers(if left.vaddr < right.vaddr then right.vaddr else left.vaddr);
    if left.memsz == 0 || right.memsz == 0 then false
    else
      var leftEnd, rightEnd := left.End() % WORD, right.End() % WORD;
      if leftEnd < left.vaddr || rightEnd < right.vaddr then true
      else left.vaddr < rightEnd && right.vaddr < leftEnd
  }

  /** A segment the table check lets pass, with those behind it. */
  ghost predicate GoodSegment(image: Image, i: nat)
    requires i < |image.segments| && forall k :: 0 <= k < |image.segments| ==> image.segments[k].Words()
  {
    var s := image.segments[i];
    && s.kind == 1 && s.filesz <= s.memsz && s.offset + s.filesz <= image.fileSize && s.reserved == 0
    && forall j :: i < j < |image.segments| ==> !Overlap(s, image.segments[j])
  }

  method ValidateSegments(image: Image) returns (rc: Code)
    requires forall k :: 0 <= k < |image.segments| ==> image.segments[k].Words()
    ensures rc == Okay <==> forall i :: 0 <= i < |image.segments| ==> GoodSegment(image, i)
    ensures rc in {Okay, Unsupported, BadHeader}
    ensures rc == Unsupported ==> exists i :: 0 <= i < |image.segments| && image.segments[i].kind != 1
    ensures rc == BadHeader ==>
              exists i :: 0 <= i < |image.segments| && image.segments[i].kind == 1 && !GoodSegment(image, i)
  {
    var i := 0;
    while i < |image.segments|
      invariant 0 <= i <= |image.segments| && forall k :: 0 <= k < i ==> GoodSegment(image, k)
    {
      var s := image.segments[i];
      if s.kind != 1 {
        assert !GoodSegment(image, i);
        return Unsupported;
      }
      if s.memsz < s.filesz || !RangeValid(s.offset, s.filesz, image.fileSize) || s.reserved != 0 {
        assert !GoodSegment(image, i);
        return BadHeader;
      }
      var j := i + 1;
      while j < |image.segments|
        invariant i < j <= |image.segments| && forall k :: i < k < j ==> !Overlap(s, image.segments[k])
      {
        if Overlap(s, image.segments[j]) {
          assert !GoodSegment(image, i);
          return BadHeader;
        }
        j := j + 1;
      }
      assert GoodSegment(image, i);
      i := i + 1;
    }
    rc := Okay;
  }

  // ----- reading -----

  /**
   A file that answers each read with some of the bytes asked for, or fails: the bytes it is ready
   to give, read by read.
   */
  class Source {
    const bytes: seq<byte>
    const answers: nat -> Option<nat>
    var asked: nat

    constructor (bytes: seq<byte>, answers: nat -> Option<nat>)
      ensures this.bytes == bytes && this.answers == answers
    {
      this.bytes, this.answers, this.asked := bytes, answers, 0;
    }

    /** No read fails, and each gives at least a byte if there is one. */
    ghost predicate Steady() {
      forall n :: answers(n).Some? && answers(n).value > 0
    }

    method Read(offset: nat, n: nat) returns (ok: bool, data: seq<byte>)
      modifies this
      ensures !ok ==> data == []
      ensures |data| <= n && (data != [] ==> offset + |data| <= |bytes| && data == bytes[offset..offset + |data|])
      ensures Steady() && n > 0 && offset < |bytes| ==> ok && data != []
    {
      var answer := answers(asked);
      asked := asked + 1;
      if answer.None? {
        return false, [];
      }
      var got := answer.value;
      var there := if offset < |bytes| then |bytes| - offset else 0;
      got := if got > n then n else got;
      got := if got > there then there else got;
      return true, if got == 0 then [] else bytes[offset..offset + got];
    }
  }

  /** Read exactly so many bytes, in chunks. */
  method ReadExact(src: Source, offset: nat, size: nat) returns (rc: Code, data: seq<byte>)
    modifies src
    ensures rc in {Okay, Invalid}
    ensures src.Steady() ==> (rc == Okay <==> size == 0 || offset + size <= |src.bytes|)
    ensures rc == Okay ==>
              |data| == size && (size > 0 ==> offset + size <= |src.bytes| && data == src.bytes[offset..offset + size])
  {
    data := [];
    while |data| < size
      invariant |data| <= size
      invariant data != [] ==> offset + |data| <= |src.bytes| && data == src.bytes[offset..offset + |data|]
    {
      var chunk := size - |data|;
      if chunk > CHUNK {
        chunk := CHUNK;
      }
      var ok, got := src.Read(offset + |data|, chunk);
      if !ok || |got| == 0 {
        return Invalid, data;
      }
      data := data + got;
    }
    rc := Okay;
  }

  function SegmentAt(b: seq<byte>, o: nat): (s: Segment)
    requires o + PHDR_SIZE <= |b|
    ensures s.Words()
  {
    Segment(Le32(b, o), Le32(b, o + 4), Le32(b, o + 8), Le32(b, o + 12), Le32(b, o + 16), Le32(b, o + 20),
            Le32(b, o + 24), Le32(b, o + 28))
  }

  /** The image a file describes, if its header is acceptable. */
  function HeaderCheck(b: seq<byte>, arch: nat): (rc: Code)
    requires HEADER_SIZE <= |b|
  {
    if b[..4] != [0x53, 0x50, 0x52, 0x47] then BadMagic
    else if Le32(b, 4) != 1 then BadVersion
    else if Le32(b, 8) != arch then BadArch
    else if Le32(b, 24) != 0 || Le32(b, 20) == 0 || Le32(b, 20) > MAX_PHDRS then BadHeader
    else if |b| < Le32(b, 16) + Le32(b, 20) * PHDR_SIZE then BadHeader
    else Okay
  }

  function ImageOf(b: seq<byte>): (m: Image)
    requires HEADER_SIZE <= |b| && Le32(b, 16) + Le32(b, 20) * PHDR_SIZE <= |b|
  {
    Image(Le32(b, 12), seq(Le32(b, 20),
                           i requires 0 <= i < Le32(b, 20) => SegmentAt(b, Le32(b, 16) + i * PHDR_SIZE)), |b|)
  }

  datatype Stat = Missing | Failed | Found(isFile: bool)

  predicate HasPrgSuffix(path: string) {
    4 <= |path| && path[|path| - 4..] == ".prg"
  }

  /** The header and the segment table of a file pass every check. */
  ghost predicate GoodFile(path: string, stat: Stat, b: seq<byte>, arch: nat) {
    && HasPrgSuffix(path) && stat == Found(true) && HEADER_SIZE <= |b| <= MAX_FILE_SIZE && HeaderCheck(b, arch) == Okay
    && forall i :: 0 <= i < |ImageOf(b).segments| ==> GoodSegment(ImageOf(b), i)
  }

  /** Read the header and the segment table and check them. */
  method ValidateFile(path: string, stat: Stat, src: Source, arch: nat) returns (rc: Code, image: Image)
    modifies src
    ensures rc == Okay ==> GoodFile(path, stat, src.bytes, arch) && image == ImageOf(src.bytes)
    ensures src.Steady() && GoodFile(path, stat, src.bytes, arch) ==> rc == Okay
    ensures HasPrgSuffix(path) && stat == Found(true) && HEADER_SIZE <= |src.bytes| <= MAX_FILE_SIZE ==>
              var code := HeaderCheck(src.bytes, arch);
              code != Okay ==> rc in {Invalid, code} && (src.Steady() ==> rc == code)
  {
    image := Image(0, [], 0);
    if !HasPrgSuffix(path) || stat.Failed? {
      return Invalid, image;
    }
    if stat.Missing? {
      return NotFound, image;
    }
    if !stat.isFile {
      return Invalid, image;
    }
    if |src.bytes| > MAX_FILE_SIZE {
      return TooLarge, image;
    }
    var header;
    rc, header := ReadExact(src, 0, HEADER_SIZE);
    if rc != Okay {
      return;
    }
    HeaderBytes(src.bytes, header);
    if header[..4] != [0x53, 0x50, 0x52, 0x47] {
      return BadMagic, image;
    }
    var entry, phoff, phnum := Le32(header, 12), Le32(header, 16), Le32(header, 20);
    if Le32(header, 4) != 1 {
      return BadVersion, image;
    }
    if Le32(header, 8) != arch {
      return BadArch, image;
    }
    if Le32(header, 24) != 0 || phnum == 0 || phnum > MAX_PHDRS {
      return BadHeader, image;
    }
    if !RangeValid(phoff, phnum * PHDR_SIZE, |src.bytes|) {
      return BadHeader, image;
    }
    rc, image := ReadTable(src, entry, phoff, phnum);
    if rc == Okay {
      rc := ValidateSegments(image);
    }
  }

  lemma HeaderBytes(b: seq<byte>, header: seq<byte>)
    requires HEADER_SIZE <= |b| && header == b[0..HEADER_SIZE]
    ensures header[..4] == b[..4]
    ensures Le32(header, 4) == Le32(b, 4) && Le32(header, 8) == Le32(b, 8) && Le32(header, 12) == Le32(b, 12)
    ensures Le32(header, 16) == Le32(b, 16) && Le32(header, 20) == Le32(b, 20) && Le32(header, 24) == Le32(b, 24)
  {}

  /** Read the segment table entry by entry. */
  method ReadTable(src: Source, entry: nat, phoff: nat, phnum: nat) returns (rc: Code, image: Image)
    requires HEADER_SIZE <= |src.bytes| && entry == Le32(src.bytes, 12) && phoff == Le32(src.bytes, 16)
    requires phnum == Le32(src.bytes, 20)
    requires phoff + phnum * PHDR_SIZE <= |src.bytes|
    modifies src
    ensures rc in {Okay, Invalid} && (rc == Okay ==> image == ImageOf(src.bytes)) && (src.Steady() ==> rc == Okay)
  {
    hide Le32;
    var segments: seq<Segment>, i := [], 0;
    image := Image(0, [], 0);
    while i < phnum
      invariant 0 <= i <= phnum && |segments| == i
      invariant forall k :: 0 <= k < i ==> segments[k] == SegmentAt(src.bytes, phoff + k * PHDR_SIZE)
    {
      var phdr;
      rc, phdr := ReadExact(src, phoff + i * PHDR_SIZE, PHDR_SIZE);
      if rc != Okay {
        return;
      }
      SegmentBytes(src.bytes, phoff + i * PHDR_SIZE, phdr);
      segments := segments + [SegmentAt(phdr, 0)];
      i := i + 1;
    }
    image := Image(entry, segments, |src.bytes|);
    assert segments == ImageOf(src.bytes).segments;
    rc := Okay;
  }

  lemma SegmentBytes(b: seq<byte>, o: nat, phdr: seq<byte>)
    requires o + PHDR_SIZE <= |b| && phdr == b[o..o + PHDR_SIZE]
    ensures SegmentAt(phdr, 0) == SegmentAt(b, o)
  {
    assert forall k :: 0 <= k < PHDR_SIZE ==> phdr[k] == b[o + k];
  }

  // ----- loading -----

  /** The segment is in memory: its file bytes, then zeros. */
  ghost predicate Loaded(mem: seq<byte>, s: Segment, file: seq<byte>) {
    && s.offset + s.filesz <= |file| && s.filesz <= s.memsz && s.End() <= |mem|
    && forall a :: s.vaddr <= a < s.End() ==>
         mem[a] == if a < s.vaddr + s.filesz then file[s.offset + (a - s.vaddr)] else 0
  }

  /** Stream one segment into memory and clear what the file does not fill. */
  method LoadSegment(mem: array<byte>, s: Segment, src: Source) returns (rc: Code)
    requires s.offset + s.filesz <= |src.bytes| && s.filesz <= s.memsz && s.End() <= mem.Length
    modifies mem, src
    ensures rc in {Okay, Invalid} && (rc == Okay ==> Loaded(mem[..], s, src.bytes)) && (src.Steady() ==> rc == Okay)
    ensures forall a :: 0 <= a < mem.Length && !s.Covers(a) ==> mem[a] == old(mem[a])
  {
    var done := 0;
    while done < s.filesz
      invariant 0 <= done <= s.filesz
      invariant forall a :: s.vaddr <= a < s.vaddr + done ==> mem[a] == src.bytes[s.offset + (a - s.vaddr)]
      invariant forall a :: 0 <= a < mem.Length && !s.Covers(a) ==> mem[a] == old(mem[a])
    {
      var chunk := s.filesz - done;
      if chunk > CHUNK {
        chunk := CHUNK;
      }
      var ok, got := src.Read(s.offset + done, chunk);
      if !ok || |got| == 0 {
        return Invalid;
      }
      Store(mem, s.vaddr + done, got);
      done := done + |got|;
    }
    var j := s.filesz;
    while j < s.memsz
      invariant s.filesz <= j <= s.memsz
      invariant forall a :: s.vaddr <= a < s.vaddr + j ==>
                  mem[a] == if a < s.vaddr + s.filesz then src.bytes[s.offset + (a - s.vaddr)] else 0
      invariant forall a :: 0 <= a < mem.Length && !s.Covers(a) ==> mem[a] == old(mem[a])
    {
      mem[s.vaddr + j] := 0;
      j := j + 1;
    }
    rc := Okay;
  }

  method Store(mem: array<byte>, at: nat, data: seq<byte>)
    requires at + |data| <= mem.Length
    modifies mem
    ensures forall a :: 0 <= a < mem.Length ==> mem[a] == if at <= a < at + |data| then data[a - at] else old(mem[a])
  {
    var i := 0;
    while i < |data|
      invariant 0 <= i <= |data|
      invariant forall a :: 0 <= a < mem.Length ==> mem[a] == if at <= a < at + i then data[a - at] else old(mem[a])
    {
      mem[at + i] := data[i];
      i := i + 1;
    }
  }

  /** Two good segments of a table share no address, whichever comes first. */
  lemma SegmentsApart(image: Image, i: nat, k: nat, a: nat)
    requires forall k :: 0 <= k < |image.segments| ==> image.segments[k].Words()
    requires k < i < |image.segments| && GoodSegment(image, k)
    requires image.segments[i].End() < WORD && image.segments[k].End() < WORD && image.segments[i].Covers(a)
    ensures !image.segments[k].Covers(a)
  {
    assert !Overlap(image.segments[k], image.segments[i]);
  }

  /** Loading one more segment leaves the others loaded. */
  lemma StillLoaded(before: seq<byte>, after: seq<byte>, s: Segment, t: Segment, file: seq<byte>)
    requires Loaded(before, t, file) && |after| == |before|
    requires forall a: nat :: a < |before| && !s.Covers(a) ==> after[a] == before[a]
    requires forall a: nat :: s.Covers(a) ==> !t.Covers(a)
    ensures Loaded(after, t, file)
  {
    forall a | t.vaddr <= a < t.End()
      ensures after[a] == before[a]
    {
      assert t.Covers(a);
    }
  }

  /**
   What the segment table of the file asks for: at the address of each entry the
   bytes from its file offset on, as many as it says, and zeros up to its size.
   */
  ghost predicate TableLoaded(mem: seq<byte>, b: seq<byte>)
    requires HEADER_SIZE <= |b| && Le32(b, 16) + Le32(b, 20) * PHDR_SIZE <= |b|
  {
    forall i :: 0 <= i < Le32(b, 20) ==> EntryLoaded(mem, b, Le32(b, 16) + i * PHDR_SIZE)
  }

  ghost predicate EntryLoaded(mem: seq<byte>, b: seq<byte>, o: nat)
    requires o + PHDR_SIZE <= |b|
  {
    var offset, vaddr, filesz, memsz := Le32(b, o + 4), Le32(b, o + 8), Le32(b, o + 12), Le32(b, o + 16);
    && filesz <= memsz && offset + filesz <= |b| && vaddr + memsz <= |mem|
    && (forall a :: vaddr <= a < vaddr + filesz ==> mem[a] == b[offset + (a - vaddr)])
    && forall a :: vaddr + filesz <= a < vaddr + memsz ==> mem[a] == 0
  }

  lemma TableIs(mem: seq<byte>, b: seq<byte>)
    requires HEADER_SIZE <= |b| && Le32(b, 16) + Le32(b, 20) * PHDR_SIZE <= |b|
    requires forall i :: 0 <= i < |ImageOf(b).segments| ==> Loaded(mem, ImageOf(b).segments[i], b)
    ensures TableLoaded(mem, b)
  {
    hide Le32;
    forall i | 0 <= i < Le32(b, 20)
      ensures EntryLoaded(mem, b, Le32(b, 16) + i * PHDR_SIZE)
    {
      var s := ImageOf(b).segments[i];
      assert Loaded(mem, s, b);
    }
  }

  /** A header is accepted exactly with magic, version, machine, one to eight segments inside the file and no flags. */
  lemma HeaderMeans(b: seq<byte>, arch: nat)
    requires HEADER_SIZE <= |b|
    ensures HeaderCheck(b, arch) == Okay <==>
            && b[0] == 'S' as int && b[1] == 'P' as int && b[2] == 'R' as int && b[3] == 'G' as int
            && Le32(b, 4) == 1 && Le32(b, 8) == arch && Le32(b, 24) == 0 && 1 <= Le32(b, 20) <= 8
            && Le32(b, 16) + 32 * Le32(b, 20) <= |b|
    ensures HeaderCheck(b, arch) == BadMagic <==> b[..4] != ['S' as int, 'P' as int, 'R' as int, 'G' as int]
    ensures HeaderCheck(b, arch) == BadVersion <==> HeaderCheck(b, arch) != BadMagic && Le32(b, 4) != 1
    ensures HeaderCheck(b, arch) == BadArch <==>
            HeaderCheck(b, arch) !in {BadMagic, BadVersion} && Le32(b, 8) != arch
    ensures HeaderCheck(b, arch) in {Okay, BadMagic, BadVersion, BadArch, BadHeader}
  {}

  /** Bit 2 of the flags. */
  lemma ExecutableMeans(s: Segment)
    requires s.Words()
    ensures s.Executable() <==> s.flags as bv32 & 4 != 0
  {}

  /** The segments lie in user memory with known flags, and the entry point in an executable one. */
  ghost predicate Runnable(image: Image, userMin: nat, userMax: nat) {
    && (forall i :: 0 <= i < |image.segments| ==>
          userMin <= image.segments[i].vaddr && image.segments[i].End() <= userMax && image.segments[i].flags < 8)
    && exists i :: 0 <= i < |image.segments| && image.segments[i].Executable() && image.segments[i].Covers(image.entry)
  }

  /**
   Load a program into user memory.  On success every segment holds its file
   bytes followed by zeros and the entry point lies in an executable one; whatever
   is returned, no byte outside the user range has changed.
   */
  method LoadFile(path: string, stat: Stat, src: Source, arch: nat, mem: array<byte>, userMin: nat, userMax: nat)
    returns (rc: Code, image: Image)
    requires userMax <= mem.Length && userMax < WORD
    modifies mem, src
    ensures forall a :: 0 <= a < mem.Length && !(userMin <= a < userMax) ==> mem[a] == old(mem[a])
    ensures rc == Okay ==>
              && userMin < userMax && GoodFile(path, stat, src.bytes, arch) && image == ImageOf(src.bytes)
              && Runnable(image, userMin, userMax)
              && (forall i :: 0 <= i < |image.segments| ==> Loaded(mem[..], image.segments[i], src.bytes))
              && TableLoaded(mem[..], src.bytes) && image.entry == Le32(src.bytes, 12)
    ensures src.Steady() && userMin < userMax && GoodFile(path, stat, src.bytes, arch) ==>
              (rc == Okay <==> Runnable(ImageOf(src.bytes), userMin, userMax))
  {
    hide HeaderCheck, ImageOf, Overlap, Loaded, TableLoaded, Le32;
    image := Image(0, [], 0);
    if userMin >= userMax {
      return Invalid, image;
    }
    rc, image := ValidateFile(path, stat, src, arch);
    if rc != Okay {
      return;
    }
    WordsOf(src.bytes, arch);
    var executable := false;
    var i := 0;
    while i < |image.segments|
      invariant 0 <= i <= |image.segments|
      invariant forall k :: 0 <= k < i ==>
                  userMin <= image.segments[k].vaddr && image.segments[k].End() <= userMax &&
                    image.segments[k].flags < 8
      invariant forall k :: 0 <= k < i ==> Loaded(mem[..], image.segments[k], src.bytes)
      invariant executable <==>
                  exists k :: 0 <= k < i && image.segments[k].Executable() && image.segments[k].Covers(image.entry)
      invariant forall a :: 0 <= a < mem.Length && !(userMin <= a < userMax) ==> mem[a] == old(mem[a])
    {
      var s := image.segments[i];
      var end := s.End() % WORD;
      if end < s.vaddr || s.vaddr < userMin || end > userMax {
        return BadHeader, image;
      }
      assert end == s.End();
      if s.flags / 8 != 0 {
        return BadHeader, image;
      }
      if s.Executable() && s.vaddr <= image.entry < end {
        executable := true;
      }
      ghost var before := mem[..];
      assert GoodSegment(image, i);
      rc := LoadSegment(mem, s, src);
      if rc != Okay {
        return;
      }
      forall k | 0 <= k < i
        ensures Loaded(mem[..], image.segments[k], src.bytes)
      {
        assert GoodSegment(image, k);
        forall a: nat | s.Covers(a)
          ensures !image.segments[k].Covers(a)
        {
          SegmentsApart(image, i, k, a);
        }
        StillLoaded(before, mem[..], s, image.segments[k], src.bytes);
      }
      i := i + 1;
    }
    if !executable {
      return BadHeader, image;
    }
    TableIs(mem[..], src.bytes);
    rc := Okay;
  }

  lemma WordsOf(b: seq<byte>, arch: nat)
    requires HEADER_SIZE <= |b| && HeaderCheck(b, arch) == Okay
    ensures Le32(b, 16) + Le32(b, 20) * PHDR_SIZE <= |b| && ImageOf(b).entry == Le32(b, 12)
    ensures ImageOf(b).fileSize == |b| && forall k :: 0 <= k < |ImageOf(b).segments| ==> ImageOf(b).segments[k].Words()
  {}
}
