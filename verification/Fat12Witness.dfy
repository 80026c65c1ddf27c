/**
 Volumes at which the driver stops being consistent: a freshly formatted volume of
 one cluster, and the same volume with one small file on it.
 */
module Fat12Witness {
  import opened Bytes
  import opened Paths
  import opened Fat12Layout
  import opened Fat12Journal
  import opened Fat12Chain
  import opened Fat12Dir
  import opened Fat12Sound
  import opened Fat12Ops
  import opened Fat12Keeps
  import opened Fat12Write
  import opened Fat12Room
  import opened Fat12Tree
  import opened Fat12Run
  import opened Fat12Twins
  import opened Fat12Limits
  import opened Fat12Display
  import opened Fat12Reader
  import opened Fat12Files
  import opened Fat12Handles

  // ----- a formatted volume -----

  /** A volume as formatting leaves it: nothing allocated, every directory slot never used. */
  ghost function Formatted(g: Geometry): Volume {
    Volume([0xFF0, 0xFFF] + seq(g.clusters, _ => FREE),
           seq(g.Entries(), u requires 0 <= u < g.Entries() => Zeros(g.UnitLen(u))))
  }

  ghost const EMPTY := Catalog(map[Dir(0) := []], map[], map[], map[0 := 0])

  lemma FormattedShaped(g: Geometry)
    requires Small(g)
    ensures Shaped(Formatted(g), g)
    ensures forall c :: 2 <= c < g.Entries() ==> Formatted(g).fat[c] == FREE
    ensures forall u :: 0 <= u < g.Entries() ==> Formatted(g).units[u] == Zeros(g.UnitLen(u))
  {}

  lemma BlankSlot(n: nat, j: nat)
    requires SLOT * j + SLOT <= n
    ensures !Named(SlotIn(Zeros(n), j)) && !LongName(SlotIn(Zeros(n), j))
  {
    assert SlotIn(Zeros(n), j)[0] == 0;
  }

  /** Every formatted volume is consistent. */
  lemma FormattedSound(g: Geometry)
    requires Small(g)
    ensures Sound(Formatted(g), g, EMPTY)
  {
    hide Formatted, Named, IsDir;
    FormattedShaped(g);
    var v := Formatted(g);
    forall q | IsSlot(g, EMPTY, q)
      ensures !Named(SlotAt(v, g, q))
    {
      BlankSlot(g.UnitLen(q.unit), q.index);
    }
    forall d: nat, i: nat, j: nat, m: nat, n: nat | Dir(d) in EMPTY.chains
      ensures TailAt(v, g, DirUnits(EMPTY, d), i, j, m, n)
    {
    }
  }

  // ----- one cluster -----

  /** A boot sector, one table of one sector, one sector of root directory, one cluster of one sector. */
  const TINY := Geometry(1, 1, 1, 1, 1, 1)

  const LOST: cstring := [0x2F, 0xE5]
  const FILE_A: cstring := [0x2F, 0x41]

  lemma TinyFits()
    ensures TINY.Ok(4) && Small(TINY) && TINY.Entries() == 3 && TINY.UnitLen(0) == 512 && TINY.UnitLen(2) == 512
  {
    TimesIsProduct(1, 1);
  }

  /** A path of one component in the root. */
  lemma ShortPath(b: byte)
    requires b != 0 && b != SLASH && b != DOT
    ensures SplitPath([SLASH, b]) == Split([SLASH], [b]) && Components([SLASH]) == []
    ensures DirName([b]).Some? && FileName([b]).Some?
    ensures Components([SLASH, b]) == [[b]]
  {
    var p: cstring := [SLASH, b];
    assert p[..1] == [SLASH] && p[1..] == [b];
    assert LastSlash(p) == 0;
    assert [SLASH][1..] == [];
    ComponentsOne([b]);
    assert BaseOf([b][1..]) == [];
    assert BaseOf([b]) == [b];
  }

  /** Nothing is found in the root of a formatted volume, and its first slot is vacant. */
  lemma FormattedSearch(g: Geometry, name: name83)
    requires Small(g) && 0 < g.rootSectors
    ensures Shaped(Formatted(g), g) && Dir(0) in EMPTY.chains && DirUnits(EMPTY, 0) == [0] && UnitsIn(Formatted(g), [0])
    ensures Search(Formatted(g), [0], name) == None && SearchVacant(Formatted(g), [0]) == Some(Ref(0, 0))
  {
    FormattedShaped(g);
    var unit := Formatted(g).units[0];
    assert |unit| >= SLOT && unit[SLOT * 0] == 0;
    assert ScanName(unit, 0, name) == Stop;
    assert ScanVacant(unit, 0) == Some(0);
  }

  /** On the formatted volume a path of one component leads to a missing entry, and everything else is at hand. */
  lemma FormattedTargets(b: byte)
    requires b != 0 && b != SLASH && b != DOT
    ensures Small(TINY) && Sound(Formatted(TINY), TINY, EMPTY) && FreeClusters(Formatted(TINY).fat) == {2}
    ensures FileTarget(Formatted(TINY), TINY, EMPTY, [SLASH, b]) == Missing(0)
    ensures DirTarget(Formatted(TINY), TINY, EMPTY, [SLASH, b]) == Missing(0)
    ensures MkdirFits(Formatted(TINY), TINY, EMPTY, [SLASH, b])
    ensures forall n: nat :: n <= 512 ==> WriteFits(Formatted(TINY), TINY, EMPTY, [SLASH, b], n)
  {
    hide Formatted, SoundBut, Search, SearchVacant, DirName, FileName, SplitPath, Components;
    TinyFits();
    FormattedSound(TINY);
    FormattedShaped(TINY);
    ShortPath(b);
    FileNamePlain([b]);
    DirNamePlain([b]);
    FormattedSearch(TINY, FileName([b]).value);
    FormattedSearch(TINY, DirName([b]).value);
    assert 2 in FreeClusters(Formatted(TINY).fat);
  }

  lemma NotClean()
    ensures !CleanLeaf(LOST)
  {
    hide SplitPath;
    ShortPath(0xE5);
  }

  /** Creating a directory named by byte 0xE5 on a formatted volume leaves it inconsistent. */
  lemma MkdirWitness()
    ensures Small(TINY) && Sound(Formatted(TINY), TINY, EMPTY)
    ensures var o := Mkdir(Formatted(TINY), TINY, EMPTY, LOST);
            && o.rc == Okay && OpsOk(o.ops, TINY) && Shaped(Formatted(TINY), TINY)
            && !Consistent(Run(Formatted(TINY), TINY, o.ops), TINY)
  {
    hide Formatted, SoundBut, Mkdir, MkdirFits, DirTarget, CleanLeaf, Consistent, Run, OpsOk;
    FormattedTargets(0xE5);
    NotClean();
    MkdirAnswers(Formatted(TINY), TINY, EMPTY, LOST);
    MkdirExact(Formatted(TINY), TINY, EMPTY, LOST);
  }

  /** So does writing one byte to a file of that name. */
  lemma WriteWitness()
    ensures Small(TINY) && Sound(Formatted(TINY), TINY, EMPTY)
    ensures var o := Write(Formatted(TINY), TINY, EMPTY, LOST, [0]);
            && o.rc == Okay && OpsOk(o.ops, TINY) && Shaped(Formatted(TINY), TINY)
            && !Consistent(Run(Formatted(TINY), TINY, o.ops), TINY)
  {
    hide Formatted, SoundBut, Write, WriteFits, FileTarget, CleanLeaf, Consistent, Run, OpsOk;
    FormattedTargets(0xE5);
    NotClean();
    WriteAnswers(Formatted(TINY), TINY, EMPTY, LOST, [0]);
    WriteExact(Formatted(TINY), TINY, EMPTY, LOST, [0]);
  }

  // ----- one file -----

  /** The formatted volume after writing one byte to the file A. */
  ghost predicate OneFile(v: Volume, cat: Catalog, r: Ref) {
    && Small(TINY) && Sound(v, TINY, cat) && Shaped(v, TINY) && AllCanonical(v, TINY, cat)
    && FileTarget(v, TINY, cat, FILE_A) == Present(0, r) && File(r) in cat.chains
    && !IsDir(SlotAt(v, TINY, r)) && Size(SlotAt(v, TINY, r)) == 1 && Head(SlotAt(v, TINY, r)) != 0
    && |FreeClusters(v.fat)| + |cat.chains[File(r)]| == 1
  }

  lemma NameOfA()
    ensures SplitPath(FILE_A).Split? && FileName(SplitPath(FILE_A).leaf).Some? && CleanLeaf(FILE_A)
    ensures Canonical(LeafName(FILE_A))
    ensures Components(FILE_A) == [[0x41]] && Plainly(Components(FILE_A)) && TidyAll(Components(FILE_A))
  {
    ShortPath(0x41);
    var n := LeafName(FILE_A);
    assert BaseOf([0x41][1..]) == [] && BaseOf([0x41]) == [0x41] && ExtOf([0x41]) == [];
    assert n[0] == 0x41 && forall i :: 1 <= i < 11 ==> n[i] == SPACE;
    assert n[..8][0] == 0x41;
    assert Base83(n) != [];
  }

  lemma FileWritten() returns (v: Volume, cat: Catalog, r: Ref)
    ensures Small(TINY) && Sound(Formatted(TINY), TINY, EMPTY)
    ensures var o := Write(Formatted(TINY), TINY, EMPTY, FILE_A, [0x41]);
            o.rc == Okay && OpsOk(o.ops, TINY) && Shaped(Formatted(TINY), TINY) &&
              v == Run(Formatted(TINY), TINY, o.ops)
    ensures OneFile(v, cat, r)
  {
    hide Formatted, SoundBut, Write, WriteFits, FileTarget, SplitPath, FileName, LeafName, Canonical, Run, OpsOk,
         FilesBut, PathsBut, SameTree, SameFiles, Contents, AllCanonical, Components, CleanLeaf, Search, Locate,
         SlotAt, Name, Named, IsDir, Size, Head;
    FormattedTargets(0x41);
    NameOfA();
    var data: seq<byte> := [0x41];
    WriteAnswers(Formatted(TINY), TINY, EMPTY, FILE_A, data);
    v, cat, r := WriteKeeps(Formatted(TINY), TINY, EMPTY, FILE_A, data);
    SoundShaped(v, TINY, cat, None);
    StoredContents(v, TINY, cat, r, LeafName(FILE_A), data);
    FileOf(v, TINY, cat, r);
    FileHasHead(v, TINY, cat, r);
    OneCanonical(v, cat, r);
    OneCluster(v, cat, r);
  }

  lemma FileHasHead(v: Volume, g: Geometry, cat: Catalog, r: Ref)
    requires Sound(v, g, cat) && Shaped(v, g) && IsSlot(g, cat, r) && File(r) in cat.chains
    requires Size(SlotAt(v, g, r)) != 0
    ensures Head(SlotAt(v, g, r)) != 0 && cat.chains[File(r)] != []
  {
    hide SoundBut, SlotAt, Size, Head;
    FileKnown(v, g, cat, r);
    FitsWithin(|cat.chains[File(r)]|, g.UnitLen(2), Size(SlotAt(v, g, r)));
    HeadPositive(v, g, cat, r);
  }

  /** The slots other than that of A have never been used. */
  lemma OneCanonical(v: Volume, cat: Catalog, r: Ref)
    requires Shaped(v, TINY) && SameTree(Formatted(TINY), v, TINY, EMPTY, cat, r) && Small(TINY) && IsSlot(TINY, cat, r)
    requires Named(SlotAt(v, TINY, r)) && Canonical(Name(SlotAt(v, TINY, r)))
    ensures AllCanonical(v, TINY, cat)
  {
    hide Formatted, Canonical, Name;
    FormattedShaped(TINY);
    forall q | IsSlot(TINY, cat, q)
      ensures !LongName(SlotAt(v, TINY, q)) && (Named(SlotAt(v, TINY, q)) ==> Canonical(Name(SlotAt(v, TINY, q))))
    {
      if q != r {
        assert IsSlot(TINY, EMPTY, q);
        BlankSlot(TINY.UnitLen(q.unit), q.index);
      }
    }
  }

  /** The one cluster is free or the file's. */
  lemma OneCluster(v: Volume, cat: Catalog, r: Ref)
    requires Sound(v, TINY, cat) && File(r) in cat.chains && cat.chains[File(r)] != []
    ensures |FreeClusters(v.fat)| + |cat.chains[File(r)]| == 1
  {
    hide SoundBut;
    var s := cat.chains[File(r)];
    SoundAllocated(v, TINY, cat, None);
    ChainInside(v.fat, cat, r);
    TinyFits();
    assert s[0] in s && s[0] == 2;
    assert Elements(s) == {2};
    ElementsCount(s);
    assert FreeClusters(v.fat) == {};
  }

  /** Writing 513 bytes over A in an image runs full and leaves its entry on a freed cluster. */
  lemma ImageWitness() returns (v: Volume, cat: Catalog)
    ensures Small(TINY) && Sound(v, TINY, cat) && Shaped(v, TINY)
    ensures var o := ImageWrite(v, TINY, cat, FILE_A, Zeros(513));
            o.rc == NoSpace && OpsOk(o.ops, TINY) && !Consistent(Run(v, TINY, o.ops), TINY)
  {
    hide Formatted, SoundBut, Write, ImageWrite, FileTarget, CleanLeaf, Consistent, Run, OpsOk, IsDir, SlotAt, Head,
         Size, AllCanonical, Zeros;
    var r;
    v, cat, r := FileWritten();
    TinyFits();
    ZerosLength(513);
    WriteAnswers(v, TINY, cat, FILE_A, Zeros(513));
    WritersAgree(v, TINY, cat, FILE_A, Zeros(513));
    ImageWriteExact(v, TINY, cat, FILE_A, Zeros(513));
  }

  lemma ZerosLength(n: nat)
    ensures |Zeros(n)| == n
  {}

  /** A handle on A is wrong once a write through it has found no room, whatever catalog one takes. */
  lemma HandleWitness() returns (v: Volume, cat: Catalog, cluster: nat)
    ensures Small(TINY) && Tracks(v, TINY, cat, FILE_A, cluster, 1)
    ensures var o := Write(v, TINY, cat, FILE_A, Zeros(513));
            && o.rc == NoSpace && OpsOk(o.ops, TINY) && Shaped(v, TINY)
            && forall cat2 :: !Tracks(Run(v, TINY, o.ops), TINY, cat2, FILE_A, cluster, 1)
  {
    hide Formatted, SoundBut, Write, FileTarget, CleanLeaf, Run, OpsOk, IsDir, SlotAt, Head, Size, AllCanonical,
         Zeros, Components, Contents;
    var r;
    v, cat, r := FileWritten();
    NameOfA();
    TinyFits();
    ZerosLength(513);
    RootKnown(v, TINY, cat, None);
    FileOf(v, TINY, cat, r);
    cluster := Head(SlotAt(v, TINY, r));
    var w, cat' := Rewrite(v, TINY, cat, FILE_A, cluster, 1, Zeros(513));
    FileOf(w, TINY, cat', r);
    forall cat2
      ensures !Tracks(w, TINY, cat2, FILE_A, cluster, 1)
    {
      if Tracks(w, TINY, cat2, FILE_A, cluster, 1) {
        RootTarget(w, TINY, cat', cat2);
      }
    }
  }

  /** What a path in the root leads to does not depend on the catalog. */
  lemma RootTarget(w: Volume, g: Geometry, cat: Catalog, cat2: Catalog)
    requires Sound(w, g, cat) && Sound(w, g, cat2)
    ensures FileTarget(w, g, cat2, FILE_A) == FileTarget(w, g, cat, FILE_A)
  {
    hide SoundBut, Search, FileName, SplitPath, Components;
    ShortPath(0x41);
    RootKnown(w, g, cat, None);
    RootKnown(w, g, cat2, None);
  }
}
