/**
 The on-disk format behind the model: which bytes of boot record, table and
 directory mean what, and what a path means in terms of the entries on the volume.
 */
module Fat12Format {
  import opened Bytes
  import opened Paths
  import opened Fat12Layout
  import opened Fat12Journal
  import opened Fat12Chain
  import opened Fat12Dir
  import opened Fat12Sound
  import opened Fat12Lookup
  import opened Fat12Ops
  import opened Fat12Names
  import opened Fat12Device
  import opened Fat12Commands
  import opened Fat12Twins

  // ----- bytes -----

  /** Three table bytes hold two entries: eight bits and four, four bits and eight. */
  lemma TablePair(img: seq<byte>, base: nat, k: nat)
    requires base + 3 * k + 2 < |img|
    ensures Unpack(img, base, 2 * k) == img[base + 3 * k] as int + 256 * (img[base + 3 * k + 1] % 16) as int
    ensures Unpack(img, base, 2 * k + 1) == img[base + 3 * k + 1] / 16 + 16 * img[base + 3 * k + 2] as int
  {
    assert 2 * k + 2 * k / 2 == 3 * k && 2 * k + 1 + (2 * k + 1) / 2 == 3 * k + 1;
    WordHalves(img[base + 3 * k], img[base + 3 * k + 1]);
    WordHalves(img[base + 3 * k + 1], img[base + 3 * k + 2]);
  }

  /** The 32 bytes of an entry as the driver writes it. */
  lemma EntryBytes(name: name83, attr: byte, head: nat, size: nat)
    requires size < WORD
    ensures var s := MakeEntry(name, attr, head, size);
            && s[..11] == name && s[11] == attr && (forall i :: 12 <= i < 26 ==> s[i] == 0)
            && s[26] == head % 256 && s[27] == head / 256 % 256
            && s[28] == size % 256 && s[29] == size / 0x100 % 256
            && s[30] == size / 0x1_0000 % 256 && s[31] == size / 0x100_0000
  {}

  /** What the driver takes from the 32 bytes of any entry. */
  lemma EntryFields(s: slot)
    ensures Name(s) == s[..11] && Head(s) == s[26] as int + 256 * s[27] as int
    ensures Size(s) == s[28] as int + 256 * (s[29] as int + 256 * (s[30] as int + 256 * s[31] as int))
    ensures IsDir(s) <==> s[11] as bv8 & 0x10 != 0
    ensures Named(s) <==>
            && s[0] != 0 && s[0] != 0xE5 && s[11] as bv8 & 0x08 == 0
            && !(s[..2] == ['.' as int, ' ' as int]) && !(s[..2] == ['.' as int, '.' as int])
  {
  }

  /** The names of the two dot entries, and the attribute of a directory. */
  lemma DotNames()
    ensures DOT_NAME == Padded(['.' as int], 11) && DOTDOT_NAME == Padded(['.' as int, '.' as int], 11)
    ensures forall n, c, z :: 0 <= z < WORD ==> IsDir(MakeEntry(n, ATTR_DIRECTORY, c, z))
    ensures ATTR_DIRECTORY == 0x10
  {}

  // ----- boot record -----

  /** The boot record of a 1.44 MB floppy, from the bytes per sector to the sectors per table. */
  const FLOPPY_BPB: seq<byte> := [0x00, 0x02, 0x01, 0x01, 0x00, 0x02, 0xE0, 0x00, 0x40, 0x0B, 0xF0, 0x09, 0x00]

  const FLOPPY := Geometry(1, 1, 2, 9, 14, 2847)

  /** Tables at sectors 1 and 10, root directory at 19, clusters from 33 to the end. */
  lemma FloppyLayout()
    ensures FLOPPY.Ok(2880)
    ensures FLOPPY.FatBase(0) == 1 * SECTOR && FLOPPY.FatBase(1) == 10 * SECTOR
    ensures FLOPPY.UnitLba(0) == 19 && FLOPPY.UnitSectors(0) == 14
    ensures forall c :: 2 <= c < FLOPPY.Entries() ==> FLOPPY.UnitLba(c) == 33 + (c - 2) && FLOPPY.UnitSectors(c) == 1
    ensures FLOPPY.UnitLba(FLOPPY.Entries() - 1) == 2879
  {
    TimesIsProduct(2, 9);
    TimesIsProduct(0, 9);
    TimesIsProduct(1, 9);
    TimesIsProduct(FLOPPY.clusters, 1);
    forall c | 2 <= c < FLOPPY.Entries()
      ensures FLOPPY.UnitLba(c) == 33 + (c - 2)
    {
      TimesIsProduct(c - 2, 1);
    }
  }

  /** Device and image code both find that layout on such a floppy. */
  lemma FloppyMounts(sectors: seq<sector>, img: seq<byte>)
    requires |sectors| == 2880 && sectors[0][11..24] == FLOPPY_BPB
    requires SECTOR <= |img| && img[11..24] == FLOPPY_BPB
    ensures Mounting(sectors) == Some(FLOPPY) && ImageGeometry(img) == Some(FLOPPY)
  {
    FloppyBpb(sectors[0]);
    FloppyBpb(img[..SECTOR]);
    assert img[..SECTOR][11..24] == img[11..24];
    TimesIsProduct(2, 9);
  }

  lemma FloppyBpb(s: seq<byte>)
    requires |s| >= SECTOR && s[11..24] == FLOPPY_BPB
    ensures ParseBpb(s) == Some(Bpb(1, 1, 2, 224, 9, 2880))
  {
    assert forall i :: 11 <= i < 24 ==> s[i] == FLOPPY_BPB[i - 11];
  }

  // ----- names -----

  /** A base of `b` bytes, then nothing, or a dot and an extension. */
  ghost predicate Shape83(name: seq<byte>, b: nat) {
    && 1 <= b <= 8 && b <= |name| && SLASH !in name && DOT !in name[..b]
    && (b == |name| || (name[b] == DOT && 1 <= |name| - b - 1 <= 3 && DOT !in name[b + 1..]))
  }

  /** A name of that shape has an 8.3 form: base and extension padded and in upper case. */
  lemma FileNameBytes(name: seq<byte>, b: nat)
    requires Shape83(name, b)
    ensures FileName(name).Some?
    ensures forall i :: 0 <= i < 8 ==> FileName(name).value[i] == if i < b then Upper(name[i]) else 0x20
    ensures forall i :: 8 <= i < 11 ==>
              FileName(name).value[i] == if b + i - 7 < |name| then Upper(name[b + i - 7]) else 0x20
  {
    BaseIs(name, b);
    assert ExtOf(name) == if b == |name| then [] else name[b + 1..];
  }

  /** Only those names have one. */
  lemma FileNameMeans(name: seq<byte>)
    ensures FileName(name).Some? <==> exists b: nat :: Shape83(name, b)
  {
    if FileName(name).Some? {
      assert name[..|BaseOf(name)|] == BaseOf(name);
      assert Shape83(name, |BaseOf(name)|);
    }
    if b: nat :| Shape83(name, b) {
      FileNameBytes(name, b);
    }
  }

  /** Letters a to z become A to Z. */
  lemma UpperMeans(b: byte)
    ensures Upper(b) == if 'a' as int <= b <= 'z' as int then b - 'a' as int + 'A' as int else b
  {}

  /** Directory names are the file names without a dot. */
  lemma DirNameMeans(name: seq<byte>)
    ensures DirName(name) == if DOT in name then None else FileName(name)
  {
    if DOT !in name {
      BaseIs(name, |name|);
      assert name[..|name|] == name;
      if FileName(name).Some? {
        assert Padded(UpperAll(name), 11) == Padded(UpperAll(name), 8) + Padded(UpperAll([]), 3);
      }
    }
  }

  /** A path of a directory and a last name splits into them, when both fit their buffers. */
  lemma SplitPathJoin(path: cstring, dir: seq<byte>, leaf: cstring)
    requires path == dir + [SLASH] + leaf && leaf != [] && SLASH !in leaf && (dir == [] || dir[0] == SLASH)
    ensures SplitPath(path) == if |path| < 128 && |leaf| < 24
            then Split(if dir == [] then [SLASH] else dir, leaf) else NoSplit
  {
    hide Components, LastSlash;
    SlashBefore(path, dir, leaf);
  }

  lemma SlashBefore(path: seq<byte>, dir: seq<byte>, leaf: seq<byte>)
    requires path == dir + [SLASH] + leaf && SLASH !in leaf
    ensures LastSlash(path) == |dir| && path[..|dir|] == dir && path[|dir| + 1..] == leaf
  {
    hide LastSlash;
    assert forall i :: |dir| < i < |path| ==> path[i] == leaf[i - |dir| - 1] && path[i] in leaf;
    LastSlashIs(path, |dir|);
  }

  /** Other paths do not split: relative ones, and those that end in a slash. */
  lemma SplitPathNot(path: cstring)
    requires path == [] || path[0] != SLASH || path[|path| - 1] == SLASH
    ensures SplitPath(path) == NoSplit
  {
    hide Components;
  }

  // ----- entries and paths -----

  /** Slot `q` of directory `d` holds an entry with this name. */
  ghost predicate Entry(v: Volume, g: Geometry, cat: Catalog, d: nat, name: name83, q: Ref)
    requires Shaped(v, g)
  {
    IsSlot(g, cat, q) && Home(cat, q) == d && Named(SlotAt(v, g, q)) && Name(SlotAt(v, g, q)) == name
  }

  /** Following one more name: into the directory entry of that name, if there is one. */
  lemma ResolveName(v: Volume, g: Geometry, cat: Catalog, d: nat, name: seq<byte>)
    requires Sound(v, g, cat) && Dir(d) in cat.chains
    ensures Shaped(v, g)
    ensures |name| < NAME_CAP && DirName(name).Some? ==>
              && (forall q :: Entry(v, g, cat, d, DirName(name).value, q) ==>
                    var s := SlotAt(v, g, q);
                    Resolve(v, g, cat, d, [name]) == if IsDir(s) then Directory(Head(s)) else Fail(NotDirectory))
              && ((forall q :: !Entry(v, g, cat, d, DirName(name).value, q)) ==>
                    Resolve(v, g, cat, d, [name]) == Fail(NotFound))
    ensures NAME_CAP <= |name| || DirName(name).None? ==> Resolve(v, g, cat, d, [name]) == Fail(Invalid)
  {
    hide SoundBut, Search, DirName, SlotAt, IsDir, Head, Named;
    RootKnown(v, g, cat, None);
    ResolveStep(v, g, cat, d, [name]);
    if |name| < NAME_CAP && DirName(name).Some? {
      FirstByte(name);
      SearchFinds(v, g, cat, d, DirName(name).value);
      var f := Search(v, DirUnits(cat, d), DirName(name).value);
      assert f.Some? ==> Entry(v, g, cat, d, DirName(name).value, f.value);
      if f.Some? && IsDir(SlotAt(v, g, f.value)) {
        ResolveNone(v, g, cat, Head(SlotAt(v, g, f.value)));
        assert [name][1..] == [];
      }
    }
  }

  lemma FirstByte(name: seq<byte>)
    ensures DirName(name).Some? ==> DirName(name).value[0] != DOT
  {
    if DirName(name).Some? {
      assert name[0] in name;
    }
  }

  lemma ResolveNone(v: Volume, g: Geometry, cat: Catalog, d: nat)
    requires Sound(v, g, cat) && Dir(d) in cat.chains
    ensures Resolve(v, g, cat, d, []) == Directory(d)
  {}

  /** A path is followed name by name, and the first failure is its answer. */
  lemma {:induction false} ResolveSnoc(v: Volume, g: Geometry, cat: Catalog, d: nat, names: seq<seq<byte>>,
                                       name: seq<byte>)
    requires Sound(v, g, cat) && Dir(d) in cat.chains
    ensures Resolve(v, g, cat, d, names + [name]) ==
            match Resolve(v, g, cat, d, names)
            case Fail(rc) => Fail(rc)
            case Directory(h) => Resolve(v, g, cat, h, [name])
    decreases |names|
  {
    hide SoundBut, Search, DirName, SlotAt, IsDir, Head, Named;
    if names == [] {
      ResolveNone(v, g, cat, d);
      assert names + [name] == [name];
    } else {
      var all := names + [name];
      assert all[0] == names[0] && all[1..] == names[1..] + [name];
      ResolveStep(v, g, cat, d, names);
      ResolveStep(v, g, cat, d, all);
      if |names[0]| < NAME_CAP && DirName(names[0]).Some? {
        var f := Search(v, DirUnits(cat, d), DirName(names[0]).value);
        if f.Some? && IsDir(SlotAt(v, g, f.value)) {
          ResolveSnoc(v, g, cat, Head(SlotAt(v, g, f.value)), names[1..], name);
        }
      }
    }
  }

  /** What a path to a file leads to: the entry of its 8.3 name in the directory its other names lead to. */
  lemma FileTargetMeans(v: Volume, g: Geometry, cat: Catalog, path: cstring)
    requires Sound(v, g, cat)
    ensures Shaped(v, g) && Dir(0) in cat.chains
    ensures var sp, t := SplitPath(path), FileTarget(v, g, cat, path);
            if sp.NoSplit? || FileName(sp.leaf).None? then t == Bad(Invalid)
            else
              match Resolve(v, g, cat, 0, Components(sp.parent))
              case Fail(rc) => t == Bad(rc)
              case Directory(h) =>
                && (forall q :: Entry(v, g, cat, h, FileName(sp.leaf).value, q) ==> t == Present(h, q))
                && ((forall q :: !Entry(v, g, cat, h, FileName(sp.leaf).value, q)) ==> t == Missing(h))
  {
    hide SoundBut, Search, FileName, SlotAt, Named, Resolve, SplitPath;
    RootKnown(v, g, cat, None);
    var sp := SplitPath(path);
    if sp.Split? && FileName(sp.leaf).Some? {
      FileNamePlain(sp.leaf);
      var at := Resolve(v, g, cat, 0, Components(sp.parent));
      if at.Directory? {
        SearchFinds(v, g, cat, at.head, FileName(sp.leaf).value);
        var f := Search(v, DirUnits(cat, at.head), FileName(sp.leaf).value);
        assert f.Some? ==> Entry(v, g, cat, at.head, FileName(sp.leaf).value, f.value);
      }
    }
  }

  lemma DirTargetMeans(v: Volume, g: Geometry, cat: Catalog, path: cstring)
    requires Sound(v, g, cat)
    ensures Shaped(v, g) && Dir(0) in cat.chains
    ensures var sp, t := SplitPath(path), DirTarget(v, g, cat, path);
            if sp.NoSplit? || DirName(sp.leaf).None? then t == Bad(Invalid)
            else
              match Resolve(v, g, cat, 0, Components(sp.parent))
              case Fail(rc) => t == Bad(rc)
              case Directory(h) =>
                && (forall q :: Entry(v, g, cat, h, DirName(sp.leaf).value, q) ==> t == Present(h, q))
                && ((forall q :: !Entry(v, g, cat, h, DirName(sp.leaf).value, q)) ==> t == Missing(h))
  {
    hide SoundBut, Search, DirName, SlotAt, Named, Resolve, SplitPath;
    RootKnown(v, g, cat, None);
    var sp := SplitPath(path);
    if sp.Split? && DirName(sp.leaf).Some? {
      DirNamePlain(sp.leaf);
      var at := Resolve(v, g, cat, 0, Components(sp.parent));
      if at.Directory? {
        SearchFinds(v, g, cat, at.head, DirName(sp.leaf).value);
        var f := Search(v, DirUnits(cat, at.head), DirName(sp.leaf).value);
        assert f.Some? ==> Entry(v, g, cat, at.head, DirName(sp.leaf).value, f.value);
      }
    }
  }
}
