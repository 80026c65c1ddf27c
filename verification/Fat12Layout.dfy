/**
 Where a FAT12 volume keeps its boot record, allocation tables, root directory
 and clusters, and how 12-bit entries are packed into table bytes.
 */
module Fat12Layout {
  import opened Bytes

  const SECTOR := 512

  const FREE := 0
  const BAD := 0xFF7
  const EOC_MIN := 0xFF8
  const EOC := 0xFFF

  /** `n * m`, by repeated addition so that proofs stay linear (see TimesIsProduct). */
  function Times(n: nat, m: nat): nat {
    if n == 0 then 0 else Times(n - 1, m) + m
  }

  lemma {:induction false} TimesIsProduct(n: nat, m: nat)
    ensures Times(n, m) == n * m
  {
    if n > 0 {
      TimesIsProduct(n - 1, m);
      assert n * m == (n - 1) * m + m;
    }
  }

  lemma {:induction false} TimesMono(a: nat, b: nat, m: nat)
    requires a <= b
    ensures Times(a, m) <= Times(b, m)
    ensures a < b ==> Times(a, m) + m <= Times(b, m)
  {
    if a < b {
      TimesMono(a, b - 1, m);
    }
  }

  /**
   The fields of the boot record the driver keeps, and the number of data
   clusters.  A *unit* is a directory or file area addressed by one number:
   unit 0 is the root directory, unit c >= 2 is cluster c, and unit 1 is empty.
   */
  datatype Geometry = Geometry(spc: nat, reserved: nat, fats: nat, spf: nat, rootSectors: nat, clusters: nat)
  {
    function RootLba(): nat {
      reserved + Times(fats, spf)
    }

    function DataLba(): nat {
      RootLba() + rootSectors
    }

    /** Number of table entries in use, counting the two reserved ones. */
    function Entries(): nat {
      clusters + 2
    }

    function UnitLba(u: nat): nat {
      if u < 2 then RootLba() else DataLba() + Times(u - 2, spc)
    }

    function UnitSectors(u: nat): nat {
      if u == 0 then rootSectors else if u == 1 then 0 else spc
    }

    function UnitBase(u: nat): nat {
      UnitLba(u) * SECTOR
    }

    function UnitLen(u: nat): nat {
      UnitSectors(u) * SECTOR
    }

    function FatBase(k: nat): nat {
      (reserved + Times(k, spf)) * SECTOR
    }

    /**
     A FAT12 geometry that fits `total` sectors: fewer than 4085 clusters, and
     allocation tables long enough to hold an entry for each of them.
     */
    predicate Ok(total: nat) {
      && 0 < spc && 0 < reserved && 0 < fats && 0 < spf && 0 < rootSectors
      && clusters < 4085
      && clusters + 1 + (clusters + 1) / 2 + 1 < spf * SECTOR
      && DataLba() + Times(clusters, spc) <= total
    }
  }

  predicate Fits(img: seq<byte>, g: Geometry) {
    g.Ok(|img| / SECTOR)
  }

  // ----- boot record -----

  datatype Bpb = Bpb(spc: nat, reserved: nat, fats: nat, rootEntries: nat, spf: nat, totalSectors: nat)

  /** The boot record fields, or None where the driver reports an invalid volume. */
  function ParseBpb(sector: seq<byte>): (r: Option<Bpb>)
    requires |sector| >= SECTOR
    ensures r.Some? ==>
              var b := r.value;
              0 < b.spc && 0 < b.reserved && 0 < b.fats && 0 < b.rootEntries && 0 < b.spf && 0 < b.totalSectors
    ensures r.Some? ==>
              var b := r.value;
              && sector[11] == 0 && sector[12] == 2
              && b.spc == sector[13] && b.fats == sector[16]
              && b.reserved == sector[14] + 256 * sector[15] as int
              && b.rootEntries == sector[17] + 256 * sector[18] as int
              && b.spf == sector[22] + 256 * sector[23] as int
              && b.totalSectors == if sector[19] != 0 || sector[20] != 0 then sector[19] + 256 * sector[20] as int
                 else sector[32] + 256 * (sector[33] + 256 * (sector[34] + 256 * sector[35] as int))
    ensures r.None? ==>
              || sector[11] != 0 || sector[12] != 2 || sector[13] == 0 || sector[16] == 0
              || (sector[14] == 0 && sector[15] == 0) || (sector[17] == 0 && sector[18] == 0)
              || (sector[22] == 0 && sector[23] == 0)
              || (sector[19] == 0 && sector[20] == 0 && forall i :: 32 <= i < 36 ==> sector[i] == 0)
  {
    var total16 := Le16(sector, 19);
    var total32 := Le32(sector, 32);
    var b := Bpb(sector[13], Le16(sector, 14), sector[16], Le16(sector, 17), Le16(sector, 22),
                 if total16 != 0 then total16 else total32);
    if Le16(sector, 11) != 512 || b.spc == 0 || b.reserved == 0 || b.fats == 0 ||
       b.rootEntries == 0 || b.spf == 0 || (total16 == 0 && total32 == 0)
    then None
    else Some(b)
  }

  /** The geometry of a volume held on `total` sectors. */
  function GeometryOf(b: Bpb, total: nat): (g: Geometry)
    requires 0 < b.spc
    ensures g.DataLba() + Times(g.clusters, g.spc) <= total || g.clusters == 0
    ensures total < g.DataLba() + Times(g.clusters + 1, g.spc)
    ensures (g.rootSectors - 1) * SECTOR < 32 * b.rootEntries <= g.rootSectors * SECTOR
  {
    var rootSectors := (b.rootEntries * 32 + 511) / 512;
    var dataLba := b.reserved + Times(b.fats, b.spf) + rootSectors;
    var clusters := if total <= dataLba then 0 else (total - dataLba) / b.spc;
    DivTimes(if total <= dataLba then 0 else total - dataLba, b.spc);
    TimesIsProduct(clusters, b.spc);
    TimesIsProduct(clusters + 1, b.spc);
    Geometry(b.spc, b.reserved, b.fats, b.spf, rootSectors, clusters)
  }

  lemma DivTimes(x: nat, d: nat)
    requires 0 < d
    ensures x / d * d <= x < (x / d + 1) * d
  {}

  // ----- regions -----

  /** Every unit lies behind the tables and inside the volume. */
  lemma UnitInside(g: Geometry, total: nat, u: nat)
    requires g.Ok(total) && u < g.Entries()
    ensures g.RootLba() <= g.UnitLba(u)
    ensures g.UnitLba(u) + g.UnitSectors(u) <= total
    ensures SECTOR < g.FatBase(g.fats) + 1 && g.FatBase(g.fats) <= g.UnitBase(u)
    ensures g.UnitBase(u) + g.UnitLen(u) <= total * SECTOR
  {
    if u >= 2 {
      TimesMono(u - 2, g.clusters, g.spc);
    }
  }

  /** Different units share no byte. */
  lemma UnitsApart(g: Geometry, total: nat, u: nat, v: nat)
    requires g.Ok(total) && u < v < g.Entries() && u != 1 && v != 1
    ensures g.UnitBase(u) + g.UnitLen(u) <= g.UnitBase(v)
  {
    if u >= 2 {
      TimesMono(u - 2, v - 2, g.spc);
    }
  }

  /** The two bytes of an entry lie inside its own table copy. */
  lemma EntryInside(g: Geometry, total: nat, k: nat, c: nat)
    requires g.Ok(total) && k < g.fats && c < g.Entries()
    ensures SECTOR <= g.FatBase(k)
    ensures g.FatBase(k) + c + c / 2 + 1 < g.FatBase(k + 1) <= g.FatBase(g.fats)
    ensures g.FatBase(g.fats) == g.RootLba() * SECTOR <= total * SECTOR
  {
    TimesMono(k + 1, g.fats, g.spf);
    assert g.FatBase(k + 1) == g.FatBase(k) + g.spf * SECTOR;
    TimesMono(0, g.clusters, g.spc);
  }

  lemma FatBasesOrdered(g: Geometry, j: nat, k: nat)
    requires j < k
    ensures g.FatBase(j + 1) <= g.FatBase(k)
  {
    TimesMono(j + 1, k, g.spf);
  }

  // ----- packed entries -----

  /** The 12-bit entry of cluster `c` in the table that starts at byte `base`. */
  function Unpack(img: seq<byte>, base: nat, c: nat): (v: nat)
    requires base + c + c / 2 + 1 < |img|
    ensures v < 4096
  {
    var w := Le16(img, base + c + c / 2);
    if c % 2 == 1 then w / 16 else w % 4096
  }

  /** The lower byte of an entry: shared with the cluster before an odd one. */
  function LowByte(c: nat, v: nat, was: byte): byte {
    var w := v % 4096;
    if c % 2 == 1 then was % 16 + w % 16 * 16 else w % 256
  }

  /** The upper byte of an entry: shared with the cluster after an even one. */
  function HighByte(c: nat, v: nat, was: byte): byte {
    var w := v % 4096;
    if c % 2 == 1 then w / 16 else was / 16 * 16 + w / 256
  }

  /** Store a 12-bit entry, keeping the half byte it shares with its neighbour. */
  function Pack(img: seq<byte>, base: nat, c: nat, v: nat): (r: seq<byte>)
    requires base + c + c / 2 + 1 < |img|
    ensures |r| == |img|
  {
    var o := base + c + c / 2;
    img[o := LowByte(c, v, img[o])][o + 1 := HighByte(c, v, img[o + 1])]
  }

  lemma WordHalves(lo: byte, hi: byte)
    ensures (lo as int + 256 * hi as int) / 16 == lo / 16 + 16 * hi as int
    ensures (lo as int + 256 * hi as int) % 4096 == lo as int + 256 * (hi % 16) as int
  {}

  /** Set-then-get on one table copy, for odd and even clusters alike. */
  lemma PackUnpack(img: seq<byte>, base: nat, c: nat, v: nat, d: nat)
    requires base + c + c / 2 + 1 < |img| && base + d + d / 2 + 1 < |img|
    ensures Unpack(Pack(img, base, c, v), base, d) == if d == c then v % 4096 else Unpack(img, base, d)
  {
    var r := Pack(img, base, c, v);
    var o, p := base + c + c / 2, base + d + d / 2;
    if d == c {
      PackUnpackSame(img, base, c, v);
    } else if d == c + 1 && c % 2 == 0 {
      assert p == o + 1 && r[p] / 16 == img[p] / 16 && r[p + 1] == img[p + 1];
      WordHalves(img[p], img[p + 1]);
      WordHalves(r[p], r[p + 1]);
    } else if c == d + 1 && c % 2 == 1 {
      assert o == p + 1 && r[p] == img[p] && r[o] % 16 == img[o] % 16;
      WordHalves(img[p], img[p + 1]);
      WordHalves(r[p], r[p + 1]);
    } else {
      EntriesApart(c, d);
      assert r[p] == img[p] && r[p + 1] == img[p + 1];
    }
  }

  lemma PackUnpackSame(img: seq<byte>, base: nat, c: nat, v: nat)
    requires base + c + c / 2 + 1 < |img|
    ensures Unpack(Pack(img, base, c, v), base, c) == v % 4096
  {
    var r, o, w := Pack(img, base, c, v), base + c + c / 2, v % 4096;
    if c % 2 == 1 {
      assert r[o] == img[o] % 16 + w % 16 * 16 && r[o + 1] == w / 16;
      OddWord(img[o], w);
    } else {
      assert r[o] == w % 256 && r[o + 1] == img[o + 1] / 16 * 16 + w / 256;
      EvenWord(img[o + 1], w);
    }
  }

  lemma OddWord(was: byte, w: nat)
    requires w < 4096
    ensures (was % 16 + w % 16 * 16 + 256 * (w / 16)) / 16 == w
  {
    var hi: int, lo: int, k: int := w / 16, w % 16, was % 16;
    assert k + lo * 16 + 256 * hi == 16 * (lo + 16 * hi) + k;
  }

  lemma EvenWord(was: byte, w: nat)
    requires w < 4096
    ensures (w % 256 + 256 * (was / 16 * 16 + w / 256)) % 4096 == w
  {
    var hi: int, lo: int, k: int := w / 256, w % 256, was / 16;
    assert lo + 256 * (k * 16 + hi) == 4096 * k + (lo + 256 * hi);
  }

  /** Only the two clusters of a pair share a byte. */
  lemma EntriesApart(c: nat, d: nat)
    requires d != c && !(d == c + 1 && c % 2 == 0) && !(c == d + 1 && c % 2 == 1)
    ensures d + d / 2 + 1 < c + c / 2 || c + c / 2 + 1 < d + d / 2
  {}

  /** Store an entry in the first `k` table copies. */
  function PackCopies(img: seq<byte>, g: Geometry, c: nat, v: nat, k: nat): (r: seq<byte>)
    requires Fits(img, g) && k <= g.fats && c < g.Entries()
    ensures |r| == |img|
  {
    if k == 0 then img
    else
      EntryInside(g, |img| / SECTOR, k - 1, c);
      Pack(PackCopies(img, g, c, v, k - 1), g.FatBase(k - 1), c, v)
  }

  /** PackCopies changes nothing outside the copies it was asked for. */
  lemma {:induction false} PackCopiesOutside(img: seq<byte>, g: Geometry, c: nat, v: nat, k: nat, i: nat)
    requires Fits(img, g) && k <= g.fats && c < g.Entries() && i < |img|
    requires i < g.FatBase(0) || g.FatBase(k) <= i
    ensures PackCopies(img, g, c, v, k)[i] == img[i]
  {
    hide Times;
    if k > 0 {
      EntryInside(g, |img| / SECTOR, k - 1, c);
      FatBasesOrdered(g, k - 1, k);
      if k > 1 {
        FatBasesOrdered(g, 0, k - 1);
      }
      TimesMono(0, k - 1, g.spf);
      PackCopiesOutside(img, g, c, v, k - 1, i);
    }
  }

  /** Reading an entry of copy `j` back after the first `k` copies were written. */
  lemma {:induction false} PackCopiesUnpack(img: seq<byte>, g: Geometry, c: nat, v: nat, k: nat, j: nat, d: nat)
    requires Fits(img, g) && k <= g.fats && j < g.fats && c < g.Entries() && d < g.Entries()
    requires g.FatBase(j) + d + d / 2 + 1 < |img|
    ensures Unpack(PackCopies(img, g, c, v, k), g.FatBase(j), d) ==
            if j < k && d == c then v % 4096 else Unpack(img, g.FatBase(j), d)
  {
    hide Unpack, Pack, Times;
    if k > 0 {
      PackCopiesUnpack(img, g, c, v, k - 1, j, d);
      EntryInside(g, |img| / SECTOR, k - 1, c);
      EntryInside(g, |img| / SECTOR, j, d);
      var part := PackCopies(img, g, c, v, k - 1);
      if j == k - 1 {
        PackUnpack(part, g.FatBase(j), c, v, d);
      } else {
        FatBasesOrdered(g, if j < k then j else k - 1, if j < k then k - 1 else j);
        PackOtherTable(part, g.FatBase(k - 1), c, v, g.FatBase(j), d);
      }
    }
  }

  /** Packing an entry of one table leaves a table elsewhere alone. */
  lemma PackOtherTable(img: seq<byte>, base: nat, c: nat, v: nat, other: nat, d: nat)
    requires base + c + c / 2 + 1 < |img| && other + d + d / 2 + 1 < |img|
    requires base + c + c / 2 + 1 < other || other + d + d / 2 + 1 < base
    ensures Unpack(Pack(img, base, c, v), other, d) == Unpack(img, other, d)
  {
    var r, p := Pack(img, base, c, v), other + d + d / 2;
    assert r[p] == img[p] && r[p + 1] == img[p + 1];
  }
}
