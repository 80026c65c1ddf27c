/**
 An open file: reading any window of it, and writing at any offset through its
 only handle, where the whole file is composed in a buffer and written again.
 */
module Fat12Handles {
  import opened Bytes
  import opened Paths
  import opened Syscalls
  import opened Fat12Layout
  import opened Fat12Journal
  import opened Fat12Chain
  import opened Fat12Dir
  import opened Fat12Sound
  import opened Fat12Ops
  import opened Fat12Keeps
  import opened Fat12Write
  import opened Fat12Room
  import opened Fat12Tree
  import opened Fat12Run
  import opened Fat12Device
  import opened Fat12Commands
  import opened Fat12Display
  import opened Fat12Reader
  import opened Fat12Files

  const WRITE_BUFFER_CAP := 4096

  /** Every file but the one at `r` is still there, with the entry and the bytes it had. */
  ghost predicate SameContents(v: Volume, w: Volume, g: Geometry, cat: Catalog, cat': Catalog, r: Ref) {
    forall q :: q != r && File(q) in cat.chains ==>
                  && HasFile(v, g, cat, q) && HasFile(w, g, cat', q)
                  && SlotAt(w, g, q) == SlotAt(v, g, q) && Contents(w, g, cat', q) == Contents(v, g, cat, q)
  }

  lemma SameContentsNow(v: Volume, w: Volume, g: Geometry, cat: Catalog, cat': Catalog, r: Ref)
    requires Sound(v, g, cat) && Sound(w, g, cat') && SameTree(v, w, g, cat, cat', r) && SameFiles(v, w, g, cat, r)
    ensures SameContents(v, w, g, cat, cat', r)
  {
    hide SoundBut, Contents, SlotAt, Size, IsDir, Named;
    forall q | q != r && File(q) in cat.chains
      ensures HasFile(v, g, cat, q) && HasFile(w, g, cat', q)
      ensures SlotAt(w, g, q) == SlotAt(v, g, q) && Contents(w, g, cat', q) == Contents(v, g, cat, q)
    {
      FileKnown(v, g, cat, q);
      FileKnown(w, g, cat', q);
      ContentsSame(v, w, g, cat, cat', q);
    }
  }

  lemma ContentsSame(v: Volume, w: Volume, g: Geometry, cat: Catalog, cat': Catalog, q: Ref)
    requires HasFile(v, g, cat, q) && HasFile(w, g, cat', q) && cat'.chains[File(q)] == cat.chains[File(q)]
    requires SlotAt(w, g, q) == SlotAt(v, g, q)
    requires forall i :: 0 <= i < |cat.chains[File(q)]| ==>
               w.units[cat.chains[File(q)][i]] == v.units[cat.chains[File(q)][i]]
    ensures Contents(w, g, cat', q) == Contents(v, g, cat, q)
  {
    ReadUnitsSame(v, w, cat.chains[File(q)]);
  }

  lemma StoredContents(w: Volume, g: Geometry, cat: Catalog, r: Ref, leaf: name83, data: seq<byte>)
    requires Stored(w, g, cat, r, leaf, data)
    ensures HasFile(w, g, cat, r) && Contents(w, g, cat, r) == data && Named(SlotAt(w, g, r)) && !IsDir(SlotAt(w, g, r))
    ensures Size(SlotAt(w, g, r)) == |data| && Head(SlotAt(w, g, r)) == FirstOf(cat.chains[File(r)])
    ensures Name(SlotAt(w, g, r)) == leaf
  {}

  lemma CanonicalStays(v: Volume, w: Volume, g: Geometry, cat: Catalog, cat': Catalog, r: Ref)
    requires Shaped(v, g) && AllCanonical(v, g, cat) && SameTree(v, w, g, cat, cat', r) && IsSlot(g, cat, r)
    requires Named(SlotAt(v, g, r)) && Named(SlotAt(w, g, r)) && Name(SlotAt(w, g, r)) == Name(SlotAt(v, g, r))
    ensures AllCanonical(w, g, cat')
  {
    hide SlotAt, Canonical, Name;
    forall q | IsSlot(g, cat', q)
      ensures !LongName(SlotAt(w, g, q)) && (Named(SlotAt(w, g, q)) ==> Canonical(Name(SlotAt(w, g, q))))
    {
      assert IsSlot(g, cat, q);
    }
  }

  lemma TargetIsEntry(v: Volume, g: Geometry, cat: Catalog, path: cstring)
    requires Sound(v, g, cat) && Shaped(v, g) && FileTarget(v, g, cat, path).Present?
    ensures var r := FileTarget(v, g, cat, path).ref;
            && IsSlot(g, cat, r) && Named(SlotAt(v, g, r)) && Home(cat, r) == FileTarget(v, g, cat, path).dir
            && SplitPath(path).Split? && FileName(SplitPath(path).leaf).Some? && Name(SlotAt(v, g, r)) == LeafName(path)
            && (!IsDir(SlotAt(v, g, r)) ==> File(r) in cat.chains)
  {
    hide SoundBut, SlotAt, Named, IsDir;
    TargetNamed(v, g, cat, path);
    SlotAgrees(v, g, cat, None, FileTarget(v, g, cat, path).ref);
  }

  /** Every path leads where it led. */
  ghost predicate EveryPath(v: Volume, w: Volume, g: Geometry, cat: Catalog, cat': Catalog) {
    && Sound(v, g, cat) && Sound(w, g, cat')
    && forall path: cstring ::
         FileTarget(w, g, cat', path) == FileTarget(v, g, cat, path) &&
           DirTarget(w, g, cat', path) == DirTarget(v, g, cat, path)
  }

  lemma EveryPathNow(v: Volume, w: Volume, g: Geometry, cat: Catalog, cat': Catalog, r: Ref)
    requires Sound(v, g, cat) && Sound(w, g, cat') && SameTree(v, w, g, cat, cat', r) && IsSlot(g, cat, r)
    requires SameName(v, w, g, r)
    ensures EveryPath(v, w, g, cat, cat')
  {
    hide SoundBut, FileTarget, DirTarget, SameTree, SameName;
    forall path: cstring
      ensures FileTarget(w, g, cat', path) == FileTarget(v, g, cat, path)
      ensures DirTarget(w, g, cat', path) == DirTarget(v, g, cat, path)
    {
      TargetsSame(v, w, g, cat, cat', r, path);
    }
  }

  /** The bytes the volume can hold in place of an open file: its free clusters and those of the file. */
  ghost function RoomOver(v: Volume, g: Geometry, cat: Catalog, r: Ref): nat
    requires File(r) in cat.chains
  {
    Capacity(g, |FreeClusters(v.fat)| + |cat.chains[File(r)]|)
  }

  /**
   Writing a whole file over an existing one succeeds exactly when there is room
   for it.  Afterwards every path leads where it led; the file holds the new bytes,
   or none when there was no room; every other file has its entry and its bytes.
   */
  lemma OverwriteMeans(v: Volume, g: Geometry, cat: Catalog, path: cstring, data: seq<byte>)
    returns (w: Volume, cat': Catalog)
    requires Sound(v, g, cat) && Shaped(v, g) && Small(g) && |data| < WORD && AllCanonical(v, g, cat)
    requires FileTarget(v, g, cat, path).Present? && !IsDir(SlotAt(v, g, FileTarget(v, g, cat, path).ref))
    ensures OpsOk(Write(v, g, cat, path, data).ops, g)
    ensures w == Run(v, g, Write(v, g, cat, path, data).ops) && Sound(w, g, cat') && Shaped(w, g)
    ensures AllCanonical(w, g, cat')
    ensures EveryPath(v, w, g, cat, cat') && !LosesFile(v, g, cat, path, |data|)
    ensures var r := FileTarget(v, g, cat, path).ref;
            && File(r) in cat.chains
            && var fits := |data| <= RoomOver(v, g, cat, r);
               && Write(v, g, cat, path, data).rc == (if fits then Okay else NoSpace)
               && HasFile(w, g, cat', r) && !IsDir(SlotAt(w, g, r))
               && Contents(w, g, cat', r) == (if fits then data else [])
               && SameContents(v, w, g, cat, cat', r)
  {
    hide SoundBut, Stored, SameFiles, SameTree, SameContents, Write, Run, OpsOk, Named, IsDir, FileName, SplitPath,
         SlotAt, AllCanonical, HasFile, Contents, Locate, LeafName, Name, Size, Head, EveryPath, FilesBut, PathsBut,
         CleanLeaf;
    TargetIsEntry(v, g, cat, path);
    NotLost(v, g, cat, path, |data|);
    WriteAnswers(v, g, cat, path, data);
    var r;
    w, cat', r := WriteKeeps(v, g, cat, path, data);
    var now := if Write(v, g, cat, path, data).rc == Okay then data else [];
    SoundShaped(w, g, cat', None);
    StoredContents(w, g, cat', r, LeafName(path), now);
    EveryPathNow(v, w, g, cat, cat', r);
    CanonicalStays(v, w, g, cat, cat', r);
    SameContentsNow(v, w, g, cat, cat', r);
  }

  /** A path that leads to an entry has a clean last component. */
  lemma NotLost(v: Volume, g: Geometry, cat: Catalog, path: cstring, n: nat)
    requires Sound(v, g, cat) && FileTarget(v, g, cat, path).Present?
    ensures CleanLeaf(path) && !LosesFile(v, g, cat, path, n)
  {
    hide SoundBut, FileTarget, CleanLeaf, WriteFits;
    if !CleanLeaf(path) {
      MarkedMissing(v, g, cat, path);
    }
  }

  // ----- reading a whole file -----

  /** A path that leads to a file leads to the entry of one. */
  lemma {:induction false} LookupEntry(v: Volume, g: Geometry, cat: Catalog, d: nat, names: seq<seq<byte>>)
    returns (q: Ref)
    requires Sound(v, g, cat) && Shaped(v, g) && AllCanonical(v, g, cat) && Dir(d) in cat.chains && Plainly(names)
    requires Lookup(v, g, cat, d, names).Node? && !Lookup(v, g, cat, d, names).isDir
    ensures HasFile(v, g, cat, q)
    ensures Lookup(v, g, cat, d, names) == Node(Head(SlotAt(v, g, q)), false, Size(SlotAt(v, g, q)))
    decreases |names|
  {
    hide SoundBut, SearchDisplay, SlotAt, Head, Size, IsDir, AllCanonical, Named, ReadUnits, Lookup;
    LookupNil(v, g, cat, d);
    LookupStep(v, g, cat, d, names);
    q := SearchDisplay(v, DirUnits(cat, d), names[0]).value;
    DisplayFound(v, g, cat, d, names[0]);
    if |names| > 1 {
      q := LookupEntry(v, g, cat, Head(SlotAt(v, g, q)), names[1..]);
    } else {
      FileKnown(v, g, cat, q);
    }
  }

  /** Read a whole file by its path; `q` is the slot that names it. */
  method ReadFile(dev: BlockDevice, g: Geometry, ghost cat: Catalog, path: cstring, cap: nat)
    returns (rc: Rc, data: seq<byte>, ghost q: Ref)
    requires Holds(dev, g) && Sound(ViewOf(dev, g), g, cat) && Shaped(ViewOf(dev, g), g)
    requires AllCanonical(ViewOf(dev, g), g, cat) && Dir(0) in cat.chains
    requires path != [] && path[0] == SLASH && Plainly(Components(path))
    ensures match Lookup(ViewOf(dev, g), g, cat, 0, Components(path))
            case NoNode(e) => rc == e
            case Node(_, isDir, size) =>
              if isDir then rc == NotDirectory else if cap < size then rc == NoSpace
              else rc == Okay && HasFile(ViewOf(dev, g), g, cat, q) && data == Contents(ViewOf(dev, g), g, cat, q)
    ensures FileTarget(ViewOf(dev, g), g, cat, path).Present? && TidyAll(Components(path)) ==>
              var s := SlotAt(ViewOf(dev, g), g, FileTarget(ViewOf(dev, g), g, cat, path).ref);
              if IsDir(s) then rc == NotDirectory
              else if cap < Size(s) then rc == NoSpace
              else && rc == Okay && q == FileTarget(ViewOf(dev, g), g, cat, path).ref
                   && HasFile(ViewOf(dev, g), g, cat, q) && data == Contents(ViewOf(dev, g), g, cat, q)
  {
    hide SoundBut, View, FlatOf, Lookup, AllCanonical, Contents, SlotAt, Head, Size, IsDir, FileTarget, Components,
         ReadUnits, Named;
    ghost var v, t := ViewOf(dev, g), FileTarget(ViewOf(dev, g), g, cat, path);
    data, q := [], Ref(0, 0);
    if t.Present? && TidyAll(Components(path)) {
      LookupAgrees(v, g, cat, path);
      TargetIsEntry(v, g, cat, path);
      q := t.ref;
    }
    var info := ResolvePathInfo(dev, g, cat, path);
    if info.NoNode? {
      return info.rc, data, q;
    }
    if info.isDir {
      return NotDirectory, data, q;
    }
    ghost var e := LookupEntry(v, g, cat, 0, Components(path));
    FileOf(v, g, cat, e);
    q := if t.Present? && TidyAll(Components(path)) then q else e;
    if cap < info.size {
      return NoSpace, data, q;
    }
    FileOf(v, g, cat, q);
    data := CopyChain(dev, g, cat.chains[File(q)], info.head, 0, info.size);
    ContentsAre(v, g, cat, q);
    rc := Okay;
  }

  /** What a file entry says about its chain. */
  lemma FileOf(v: Volume, g: Geometry, cat: Catalog, q: Ref)
    requires Sound(v, g, cat) && File(q) in cat.chains
    ensures HasFile(v, g, cat, q) && IsChain(v.fat, cat.chains[File(q)])
    ensures Head(SlotAt(v, g, q)) == FirstOf(cat.chains[File(q)])
    ensures Size(SlotAt(v, g, q)) <= Times(|cat.chains[File(q)]|, g.UnitLen(2)) == |ReadUnits(v, cat.chains[File(q)])|
    ensures |Contents(v, g, cat, q)| == Size(SlotAt(v, g, q))
    ensures Size(SlotAt(v, g, q)) == 0 ==> Head(SlotAt(v, g, q)) == 0
  {
    hide SoundBut, JustFits, ReadUnits, Times, SlotAt, Size, Head;
    FileKnown(v, g, cat, q);
    FitsWithin(|cat.chains[File(q)]|, g.UnitLen(2), Size(SlotAt(v, g, q)));
  }

  lemma ContentsAre(v: Volume, g: Geometry, cat: Catalog, q: Ref)
    requires HasFile(v, g, cat, q) && Size(SlotAt(v, g, q)) <= |ReadUnits(v, cat.chains[File(q)])|
    ensures Contents(v, g, cat, q) == ReadUnits(v, cat.chains[File(q)])[0..Size(SlotAt(v, g, q))]
  {}

  // ----- open files -----

  /** What a handle says about a file is so on the volume, and its path leads there. */
  ghost predicate Tracks(v: Volume, g: Geometry, cat: Catalog, path: cstring, cluster: nat, size: nat) {
    && Sound(v, g, cat) && Shaped(v, g) && AllCanonical(v, g, cat) && Dir(0) in cat.chains
    && path != [] && path[0] == SLASH && Plainly(Components(path)) && TidyAll(Components(path))
    && FileTarget(v, g, cat, path).Present?
    && var s := SlotAt(v, g, FileTarget(v, g, cat, path).ref);
       !IsDir(s) && cluster == Head(s) && size == Size(s)
  }

  /** The slot of the open file. */
  ghost function Opened(v: Volume, g: Geometry, cat: Catalog, path: cstring): Ref
    requires Sound(v, g, cat) && FileTarget(v, g, cat, path).Present?
  {
    FileTarget(v, g, cat, path).ref
  }

  lemma TracksFile(v: Volume, g: Geometry, cat: Catalog, path: cstring, cluster: nat, size: nat)
    requires Tracks(v, g, cat, path, cluster, size)
    ensures Sound(v, g, cat) && Shaped(v, g) && AllCanonical(v, g, cat) && Dir(0) in cat.chains
    ensures FileTarget(v, g, cat, path).Present?
    ensures var q := Opened(v, g, cat, path);
            && HasFile(v, g, cat, q) && IsChain(v.fat, cat.chains[File(q)]) && cluster == FirstOf(cat.chains[File(q)])
            && size == |Contents(v, g, cat, q)| <= Times(|cat.chains[File(q)]|, g.UnitLen(2)) ==
               |ReadUnits(v, cat.chains[File(q)])|
            && Contents(v, g, cat, q) == ReadUnits(v, cat.chains[File(q)])[..size] && (size == 0 ==> cluster == 0)
  {
    hide SoundBut, ReadUnits, Times, SlotAt, Size, Head, IsDir, Named, FileTarget, AllCanonical, Components;
    TargetIsEntry(v, g, cat, path);
    FileOf(v, g, cat, Opened(v, g, cat, path));
  }

  lemma WindowOf(all: seq<byte>, size: nat, offset: nat, n: nat)
    requires offset < size <= |all| && n <= size - offset
    ensures all[offset..offset + n] == all[..size][offset..offset + n]
  {}

  /** Compose the new file in the buffer: zeros in the gap, then the new bytes. */
  method Compose(buffer: array<byte>, size: nat, offset: nat, data: seq<byte>) returns (total: nat)
    requires size <= buffer.Length && offset + |data| <= buffer.Length
    modifies buffer
    ensures total <= buffer.Length && buffer[..total] == Overlay(old(buffer[..size]), offset, data)
  {
    var i := size;
    while i < offset
      invariant size <= i && (size <= offset ==> i <= offset)
      invariant forall k :: 0 <= k < buffer.Length ==> buffer[k] == if size <= k < i then 0 else old(buffer[k])
    {
      buffer[i] := 0;
      i := i + 1;
    }
    ghost var gapped := buffer[..];
    i := 0;
    while i < |data|
      invariant i <= |data|
      invariant forall k :: 0 <= k < buffer.Length ==>
                  buffer[k] == if offset <= k < offset + i then data[k - offset] else gapped[k]
    {
      buffer[offset + i] := data[i];
      i := i + 1;
    }
    total := size;
    if offset + |data| > total {
      total := offset + |data|;
    }
  }

  method Load(buffer: array<byte>, data: seq<byte>)
    requires |data| <= buffer.Length
    modifies buffer
    ensures buffer[..|data|] == data
  {
    var i := 0;
    while i < |data|
      invariant i <= |data| && buffer[..i] == data[..i]
    {
      buffer[i] := data[i];
      i := i + 1;
    }
  }

  /** Every path leads where it led, the path's entry holds `now`, and every other file is as before. */
  ghost predicate Rewritten(v: Volume, w: Volume, g: Geometry, cat: Catalog, cat': Catalog, path: cstring,
                            now: seq<byte>) {
    && Sound(v, g, cat) && Sound(w, g, cat') && FileTarget(v, g, cat, path).Present?
    && EveryPath(v, w, g, cat, cat') && Shaped(w, g) && AllCanonical(w, g, cat')
    && var r := Opened(v, g, cat, path);
       HasFile(w, g, cat', r) && Contents(w, g, cat', r) == now && SameContents(v, w, g, cat, cat', r)
  }

  /** Handles on other files are as right afterwards as they were. */
  lemma OtherTracks(v: Volume, w: Volume, g: Geometry, cat: Catalog, cat': Catalog, path: cstring, now: seq<byte>,
                    other: cstring, cluster: nat, size: nat)
    requires Rewritten(v, w, g, cat, cat', path, now) && Tracks(v, g, cat, other, cluster, size)
    requires Opened(v, g, cat, other) != Opened(v, g, cat, path)
    ensures Tracks(w, g, cat', other, cluster, size) && Opened(w, g, cat', other) == Opened(v, g, cat, other)
  {
    hide SoundBut, SlotAt, IsDir, Size, Head, Named, FileTarget, DirTarget, AllCanonical, Components, Contents;
    RootKnown(w, g, cat', None);
    TargetIsEntry(v, g, cat, other);
  }

  /** Overwriting an open file, on the volume: what it then holds, and whether the old handle is still right. */
  lemma Rewrite(v: Volume, g: Geometry, cat: Catalog, path: cstring, cluster: nat, size: nat, data: seq<byte>)
    returns (w: Volume, cat': Catalog)
    requires Tracks(v, g, cat, path, cluster, size) && Small(g) && |data| < WORD
    ensures File(Opened(v, g, cat, path)) in cat.chains && !LosesFile(v, g, cat, path, |data|)
    ensures var o, fits := Fat12Write.Write(v, g, cat, path, data),
            |data| <= RoomOver(v, g, cat, Opened(v, g, cat, path));
            && OpsOk(o.ops, g) && w == Run(v, g, o.ops) && o.rc == (if fits then Okay else NoSpace)
            && Rewritten(v, w, g, cat, cat', path, if fits then data else [])
            && (!fits ==> (Tracks(w, g, cat', path, cluster, size) <==> size == 0))
    ensures Sound(w, g, cat') && Shaped(w, g) && AllCanonical(w, g, cat') && Dir(0) in cat'.chains
    ensures FileTarget(w, g, cat', path) == FileTarget(v, g, cat, path)
    ensures var s := SlotAt(w, g, Opened(v, g, cat, path));
            Tracks(w, g, cat', path, Head(s), Size(s)) &&
              Lookup(w, g, cat', 0, Components(path)) == Node(Head(s), false, Size(s))
  {
    hide SoundBut, SameContents, Fat12Write.Write, Run, OpsOk, Named, IsDir, SlotAt, AllCanonical, Contents,
         FileTarget, DirTarget, Size, Head, Components, Lookup, RoomOver, LosesFile;
    TracksFile(v, g, cat, path, cluster, size);
    w, cat' := OverwriteMeans(v, g, cat, path, data);
    assert FileTarget(w, g, cat', path) == FileTarget(v, g, cat, path);
    FileOf(w, g, cat', Opened(v, g, cat, path));
    LookupAgrees(w, g, cat', path);
  }

  /** A mounted device on which the handle's record of the file is right. */
  ghost predicate Backed(sectors: seq<sector>, g: Geometry, cat: Catalog, path: cstring, cluster: nat, size: nat) {
    && Mounted(sectors, cat) && Mounting(sectors) == Some(g)
    && Tracks(View(FlatOf(sectors), g), g, cat, path, cluster, size)
  }

  class OpenFile {
    var cluster: nat
    var size: nat
    const flags: nat
    const path: cstring
    const buffer: array<byte>  // one write buffer serves every handle; what it holds between calls does not matter

    /** A handle on the file a path was found to lead to. */
    constructor (dev: BlockDevice, g: Geometry, ghost cat: Catalog, path: cstring, flags: nat, cluster: nat,
                 size: nat, buffer: array<byte>)
      requires buffer.Length == WRITE_BUFFER_CAP && Backed(dev.sectors, g, cat, path, cluster, size)
      ensures Valid(dev, g, cat) && this.path == path && this.flags == flags && this.buffer == buffer
    {
      hide Backed;
      this.path, this.flags, this.cluster, this.size, this.buffer := path, flags, cluster, size, buffer;
    }

    ghost predicate Valid(dev: BlockDevice, g: Geometry, cat: Catalog)
      reads this, dev
    {
      buffer.Length == WRITE_BUFFER_CAP && Backed(dev.sectors, g, cat, path, cluster, size)
    }

    /** The bytes of the open file, as the volume holds them. */
    ghost function Bytes(dev: BlockDevice, g: Geometry, cat: Catalog): seq<byte>
      requires Valid(dev, g, cat)
      reads this, dev
    {
      TracksFile(ViewOf(dev, g), g, cat, path, cluster, size);
      Contents(ViewOf(dev, g), g, cat, Opened(ViewOf(dev, g), g, cat, path))
    }

    /** Read a window of the file. */
    method Read(dev: BlockDevice, g: Geometry, ghost cat: Catalog, offset: nat, cap: nat) returns (data: seq<byte>)
      requires Valid(dev, g, cat)
      ensures data == Window(Bytes(dev, g, cat), offset, cap)
    {
      hide SoundBut, View, FlatOf, Mounting, Tracks, Contents, ReadUnits, IsChain, Times, FileTarget;
      ghost var v := ViewOf(dev, g);
      TracksFile(v, g, cat, path, cluster, size);
      if offset >= size {
        return [];
      }
      var target := Min(size - offset, cap);
      if target == 0 {
        return [];
      }
      ghost var s := cat.chains[File(Opened(v, g, cat, path))];
      data := CopyChain(dev, g, s, cluster, offset, target);
      WindowOf(ReadUnits(v, s), size, offset, target);
    }

    /** Bring the file's bytes into the buffer. */
    method Fetch(dev: BlockDevice, g: Geometry, ghost cat: Catalog)
      requires Valid(dev, g, cat) && size <= WRITE_BUFFER_CAP
      modifies buffer
      ensures buffer[..size] == Bytes(dev, g, cat)
    {
      hide SoundBut, View, FlatOf, Mounting, Contents, ReadUnits, IsChain, Times, FileTarget, Lookup, AllCanonical,
           SlotAt, IsDir, Size, Head, Components;
      TracksFile(ViewOf(dev, g), g, cat, path, cluster, size);
      if size != 0 {
        var rc, was, _ := ReadFile(dev, g, cat, path, WRITE_BUFFER_CAP);
        Load(buffer, was);
      }
    }

    /**
     Write at an offset. A handle not opened for writing is refused, an empty write
     changes nothing, and file and data have to fit the write buffer. Otherwise it
     succeeds exactly when the volume has room for the whole new file in place of the old
     one; then the file holds its old bytes overlaid with the new ones and the handle is
     right again. Without room the file is left empty, and the handle is right only if it
     was empty before. Either way every path leads where it led, every other file keeps
     its bytes, and every handle on another file is as right as it was.
     */
    method Write(dev: BlockDevice, g: Geometry, ghost cat: Catalog, offset: nat, data: seq<byte>)
      returns (rc: Rc, written: nat, ghost cat': Catalog)
      requires Valid(dev, g, cat)
      modifies this`cluster, this`size, dev, buffer
      ensures Mounted(dev.sectors, cat') && Mounting(dev.sectors) == Some(g)
      ensures rc == ReadOnly <==> flags / O_WRONLY % 2 == 0
      ensures flags / O_WRONLY % 2 == 1 && data == [] ==> rc == Okay
      ensures flags / O_WRONLY % 2 == 1 && data != [] && WRITE_BUFFER_CAP < Max(old(size), offset + |data|) ==>
                rc == NoSpace
      ensures var reaches := && flags / O_WRONLY % 2 == 1 && data != []
                             && Max(old(size), offset + |data|) <= WRITE_BUFFER_CAP;
              if !reaches then
                written == 0 && dev.sectors == old(dev.sectors) && cat' == cat && Valid(dev, g, cat)
              else
                var v, w, whole := old(ViewOf(dev, g)), View(dev.Flat(), g),
                  Overlay(old(Bytes(dev, g, cat)), offset, data);
                && File(Opened(v, g, cat, path)) in cat.chains
                && var fits := |whole| <= RoomOver(v, g, cat, Opened(v, g, cat, path));
                   && rc == (if fits then Okay else NoSpace)
                   && Rewritten(v, w, g, cat, cat', path, if fits then whole else [])
                   && (fits ==> written == |data| && Valid(dev, g, cat') && Bytes(dev, g, cat') == whole)
                   && (Valid(dev, g, cat') <==> fits || old(size) == 0)
                   && OthersBacked(old(dev.sectors), dev.sectors, g, cat, cat', path)
    {
      hide SoundBut, View, FlatOf, Mounting, Contents, ReadUnits, IsChain, Times, FileTarget, Lookup, AllCanonical,
           SlotAt, IsDir, Size, Head, Components, Fat12Write.Write, RunBytes, Run, OpsOk, SameContents, Overlay,
           RoomOver, LosesFile, EveryPath, OthersBacked;
      cat', written := cat, 0;
      if flags / O_WRONLY % 2 == 0 {
        return ReadOnly, 0, cat;
      }
      if |data| == 0 {
        return Okay, 0, cat;
      }
      if offset > WRITE_BUFFER_CAP || |data| > WRITE_BUFFER_CAP - offset || size > WRITE_BUFFER_CAP {
        return NoSpace, 0, cat;
      }
      ghost var v, first, bytes := ViewOf(dev, g), dev.sectors, Bytes(dev, g, cat);
      TracksFile(v, g, cat, path, cluster, size);
      Fetch(dev, g, cat);
      var total := Compose(buffer, size, offset, data);
      var whole := buffer[..total];
      ghost var mine;
      rc, mine := WriteFileOnDevice(dev, cat, path, whole);
      ghost var w;
      w, cat' := Rewrite(v, g, cat, path, cluster, size, whole);
      StaysMounted(first, dev.sectors, g, Fat12Write.Write(v, g, cat, path, whole).ops, cat');
      ViewRun(FlatOf(first), g, Fat12Write.Write(v, g, cat, path, whole).ops);
      StillBacked(first, dev.sectors, g, cat, cat', path, if rc == Okay then whole else []);
      if rc == Okay {
        var info := ResolvePathInfo(dev, g, cat', path);
        cluster, size := info.head, info.size;
        written := |data|;
      }
    }
  }

  /** Handles on other files than the one the path leads to are as right as they were. */
  ghost predicate OthersBacked(before: seq<sector>, after: seq<sector>, g: Geometry, cat: Catalog, cat': Catalog,
                               path: cstring) {
    forall other: cstring, cluster: nat, size: nat ::
      Backed(before, g, cat, other, cluster, size) && FileTarget(View(FlatOf(before), g), g, cat, path).Present? &&
      Opened(View(FlatOf(before), g), g, cat, other) != Opened(View(FlatOf(before), g), g, cat, path) ==>
        Backed(after, g, cat', other, cluster, size)
  }

  lemma StillBacked(before: seq<sector>, after: seq<sector>, g: Geometry, cat: Catalog, cat': Catalog, path: cstring,
                    now: seq<byte>)
    requires Mounted(before, cat) && Mounting(before) == Some(g) && Mounted(after, cat') && Mounting(after) == Some(g)
    requires Rewritten(View(FlatOf(before), g), View(FlatOf(after), g), g, cat, cat', path, now)
    ensures OthersBacked(before, after, g, cat, cat', path)
  {
    hide SoundBut, View, FlatOf, Mounting, Rewritten, FileTarget, AllCanonical, SlotAt, IsDir, Head, Size, Components;
    var v, w := View(FlatOf(before), g), View(FlatOf(after), g);
    forall other: cstring, cluster: nat, size: nat |
      Backed(before, g, cat, other, cluster, size) && FileTarget(v, g, cat, path).Present? &&
      Opened(v, g, cat, other) != Opened(v, g, cat, path)
      ensures Backed(after, g, cat', other, cluster, size)
    {
      OtherTracks(v, w, g, cat, cat', path, now, other, cluster, size);
    }
  }
}
