/**
 The driver on a block device of 512-byte sectors: every routine reads sectors,
 patches its sector buffer and writes sectors back, and is proved to make exactly
 the updates of the journal.
 */
module Fat12Device {
  import opened Bytes
  import opened Fat12Layout
  import opened Fat12Journal
  import opened Fat12Chain
  import opened Fat12Dir
  import opened Fat12Sound
  import opened Fat12Lookup
  import opened Fat12Ops

  type sector = s: seq<byte> | |s| == SECTOR witness Zeros(SECTOR)

  /** The bytes of a device, sector after sector. */
  function FlatOf(sectors: seq<sector>): (img: seq<byte>)
    ensures |img| == |sectors| * SECTOR
  {
    seq(|sectors| * SECTOR, i requires 0 <= i < |sectors| * SECTOR => sectors[i / SECTOR][i % SECTOR])
  }

  lemma FlatByte(sectors: seq<sector>, l: nat, b: nat)
    requires l < |sectors| && b < SECTOR
    ensures FlatOf(sectors)[l * SECTOR + b] == sectors[l][b]
  {}

  lemma FlatWrite(sectors: seq<sector>, l: nat, buf: sector)
    requires l < |sectors|
    ensures FlatOf(sectors[l := buf]) == Splice(FlatOf(sectors), l * SECTOR, buf)
  {}

  lemma FlatPoke(sectors: seq<sector>, l: nat, b: nat, x: byte)
    requires l < |sectors| && b < SECTOR
    ensures FlatOf(sectors[l := sectors[l][b := x]]) == FlatOf(sectors)[l * SECTOR + b := x]
  {}

  class BlockDevice {
    var sectors: seq<sector>

    ghost function Flat(): (img: seq<byte>)
      reads this
      ensures |img| == |sectors| * SECTOR
    {
      FlatOf(sectors)
    }

    method Read(lba: nat) returns (buf: sector)
      requires lba < |sectors|
      ensures buf == sectors[lba]
    {
      buf := sectors[lba];
    }

    method Write(lba: nat, buf: sector)
      requires lba < |sectors|
      modifies this
      ensures sectors == old(sectors)[lba := buf]
    {
      sectors := sectors[lba := buf];
    }
  }

  ghost predicate Holds(dev: BlockDevice, g: Geometry)
    reads dev
  {
    g.Ok(|dev.sectors|)
  }

  ghost function ViewOf(dev: BlockDevice, g: Geometry): Volume
    requires Holds(dev, g)
    reads dev
  {
    View(dev.Flat(), g)
  }

  // ----- table entries -----

  lemma EntrySector(g: Geometry, total: nat, k: nat, c: nat)
    requires g.Ok(total) && k < g.fats && c < g.Entries()
    ensures var o := c + c / 2; var l := g.reserved + Times(k, g.spf) + o / SECTOR;
            && l * SECTOR + o % SECTOR == g.FatBase(k) + o
            && l < total && (o % SECTOR == SECTOR - 1 ==> l + 1 < total)
  {
    EntryInside(g, total, k, c);
  }

  /** Read a 12-bit entry, from two sectors when it straddles their border. */
  method GetFatEntry(dev: BlockDevice, g: Geometry, c: nat) returns (value: nat)
    requires Holds(dev, g) && c < g.Entries()
    ensures value == LinkOf(dev.Flat(), g, c)
  {
    hide FlatOf;
    EntrySector(g, |dev.sectors|, 0, c);
    EntryInside(g, |dev.sectors|, 0, c);
    var offset := c + c / 2;
    var lba, at := g.reserved + offset / SECTOR, offset % SECTOR;
    var buf := dev.Read(lba);
    FlatByte(dev.sectors, lba, at);
    var low, high := buf[at], 0;
    if at == SECTOR - 1 {
      buf := dev.Read(lba + 1);
      FlatByte(dev.sectors, lba + 1, 0);
      high := buf[0];
    } else {
      FlatByte(dev.sectors, lba, at + 1);
      high := buf[at + 1];
    }
    value := low as int + 256 * high as int;
    value := if c % 2 == 1 then value / 16 else value % 4096;
  }

  /** Store a 12-bit entry in one table copy. */
  method SetFatCopy(dev: BlockDevice, g: Geometry, c: nat, value: nat, k: nat)
    requires Holds(dev, g) && c < g.Entries() && k < g.fats
    modifies dev
    ensures Holds(dev, g) && |dev.sectors| == old(|dev.sectors|)
    ensures g.FatBase(k) + c + c / 2 + 1 < |dev.Flat()|
    ensures dev.Flat() == Pack(old(dev.Flat()), g.FatBase(k), c, value)
  {
    hide LowByte, HighByte, FlatOf, Times;
    EntrySector(g, |dev.sectors|, k, c);
    EntryInside(g, |dev.sectors|, k, c);
    var offset := c + c / 2;
    var lba, at := g.reserved + Times(k, g.spf) + offset / SECTOR, offset % SECTOR;
    ghost var first := dev.sectors;
    var buf := dev.Read(lba);
    FlatByte(first, lba, at);
    var low := LowByte(c, value, buf[at]);
    FlatPoke(first, lba, at, low);
    buf := buf[at := low];
    if at == SECTOR - 1 {
      dev.Write(lba, buf);
      FlatByte(first, lba + 1, 0);
      buf := dev.Read(lba + 1);
      var high := HighByte(c, value, buf[0]);
      FlatPoke(dev.sectors, lba + 1, 0, high);
      buf := buf[0 := high];
      dev.Write(lba + 1, buf);
    } else {
      FlatByte(first, lba, at + 1);
      var high := HighByte(c, value, buf[at + 1]);
      ghost var patched := first[lba := buf];
      FlatPoke(patched, lba, at + 1, high);
      buf := buf[at + 1 := high];
      dev.Write(lba, buf);
      assert dev.sectors == patched[lba := buf];
    }
  }

  /** Store a 12-bit entry in every table copy. */
  method SetFatEntry(dev: BlockDevice, g: Geometry, c: nat, value: nat)
    requires Holds(dev, g) && Link(c, value).Ok(g)
    modifies dev
    ensures Holds(dev, g) && |dev.sectors| == old(|dev.sectors|)
    ensures dev.Flat() == ApplyBytes(old(dev.Flat()), g, Link(c, value))
  {
    hide FlatOf, Pack, Times;
    var k := 0;
    while k < g.fats
      invariant k <= g.fats && |dev.sectors| == old(|dev.sectors|)
      invariant dev.Flat() == PackCopies(old(dev.Flat()), g, c, value, k)
    {
      EntryInside(g, |dev.sectors|, k, c);
      SetFatCopy(dev, g, c, value, k);
      k := k + 1;
    }
  }

  // ----- clusters -----

  /** A sector of a unit is the stretch of the unit's bytes. */
  lemma UnitSector(dev: BlockDevice, g: Geometry, u: nat, s: nat)
    requires Holds(dev, g) && u < g.Entries() && s < g.UnitSectors(u)
    ensures g.UnitLba(u) + s < |dev.sectors|
    ensures dev.sectors[g.UnitLba(u) + s] == UnitOf(dev.Flat(), g, u)[s * SECTOR..s * SECTOR + SECTOR]
  {
    UnitInside(g, |dev.sectors|, u);
    var unit, buf := UnitOf(dev.Flat(), g, u), dev.sectors[g.UnitLba(u) + s];
    forall b | 0 <= b < SECTOR
      ensures buf[b] == unit[s * SECTOR + b]
    {
      FlatByte(dev.sectors, g.UnitLba(u) + s, b);
    }
  }

  /** Writing a sector of a unit is a Put. */
  lemma SectorIsPut(sectors: seq<sector>, g: Geometry, u: nat, s: nat, buf: sector)
    requires g.Ok(|sectors|) && u < g.Entries() && u != 1 && s < g.UnitSectors(u)
    ensures g.UnitLba(u) + s < |sectors| && Put(u, s * SECTOR, buf).Ok(g)
    ensures FlatOf(sectors[g.UnitLba(u) + s := buf]) == ApplyBytes(FlatOf(sectors), g, Put(u, s * SECTOR, buf))
  {
    UnitInside(g, |sectors|, u);
    FlatWrite(sectors, g.UnitLba(u) + s, buf);
  }

  /** Two adjacent Puts are one. */
  lemma PutPut(img: seq<byte>, g: Geometry, u: nat, a: seq<byte>, b: seq<byte>)
    requires Fits(img, g) && Put(u, 0, a + b).Ok(g)
    ensures Put(u, 0, a).Ok(g) && Put(u, |a|, b).Ok(g)
    ensures ApplyBytes(ApplyBytes(img, g, Put(u, 0, a)), g, Put(u, |a|, b)) == ApplyBytes(img, g, Put(u, 0, a + b))
  {
    UnitInside(g, |img| / SECTOR, u);
  }

  /** Clear a cluster sector by sector. */
  method ZeroCluster(dev: BlockDevice, g: Geometry, c: nat)
    requires Holds(dev, g) && 2 <= c < g.Entries()
    modifies dev
    ensures Holds(dev, g) && |dev.sectors| == old(|dev.sectors|)
    ensures dev.Flat() == ApplyBytes(old(dev.Flat()), g, Put(c, 0, Zeros(g.UnitLen(2))))
  {
    hide FlatOf, ApplyBytes;
    var i := 0;
    PutNothing(dev.Flat(), g, c);
    while i < g.spc
      invariant i <= g.spc && |dev.sectors| == old(|dev.sectors|)
      invariant dev.Flat() == ApplyBytes(old(dev.Flat()), g, Put(c, 0, Zeros(i * SECTOR)))
    {
      SectorIsPut(dev.sectors, g, c, i, Zeros(SECTOR));
      PutPut(old(dev.Flat()), g, c, Zeros(i * SECTOR), Zeros(SECTOR));
      assert Zeros(i * SECTOR) + Zeros(SECTOR) == Zeros((i + 1) * SECTOR);
      dev.Write(g.UnitLba(c) + i, Zeros(SECTOR));
      i := i + 1;
    }
  }

  lemma PutNothing(img: seq<byte>, g: Geometry, u: nat)
    requires Fits(img, g) && u < g.Entries() && u != 1
    ensures Put(u, 0, Zeros(0)).Ok(g) && ApplyBytes(img, g, Put(u, 0, Zeros(0))) == img
  {
    UnitInside(g, |img| / SECTOR, u);
  }

  /** Take the lowest free cluster, marked as the end of a chain and cleared; 0 when none is free. */
  method AllocCluster(dev: BlockDevice, g: Geometry) returns (c: nat)
    requires Holds(dev, g)
    modifies dev
    ensures Holds(dev, g) && |dev.sectors| == old(|dev.sectors|)
    ensures var free := FirstFree(old(ViewOf(dev, g)).fat, 2);
            && (free.None? ==> c == 0 && dev.sectors == old(dev.sectors))
            && (free.Some? ==>
                  && c == free.value && OpsOk(AllocOps(g, c), g)
                  && dev.Flat() == RunBytes(old(dev.Flat()), g, AllocOps(g, c)))
  {
    hide FlatOf, ApplyBytes, LinkOf, UnitOf;
    ghost var fat := ViewOf(dev, g).fat;
    c := 2;
    while c < g.clusters + 2
      invariant 2 <= c <= g.clusters + 2 && dev.sectors == old(dev.sectors)
      invariant FirstFree(fat, 2) == FirstFree(fat, c)
    {
      var value := GetFatEntry(dev, g, c);
      assert fat[c] == value;
      if value == FREE {
        AllocBytes(dev.Flat(), g, c);
        SetFatEntry(dev, g, c, EOC);
        ZeroCluster(dev, g, c);
        return;
      }
      c := c + 1;
    }
    c := 0;
  }

  lemma AllocBytes(img: seq<byte>, g: Geometry, c: nat)
    requires Fits(img, g) && 2 <= c < g.Entries()
    ensures Link(c, EOC).Ok(g) && Put(c, 0, Zeros(g.UnitLen(2))).Ok(g) && OpsOk(AllocOps(g, c), g)
    ensures RunBytes(img, g, AllocOps(g, c)) ==
            ApplyBytes(ApplyBytes(img, g, Link(c, EOC)), g, Put(c, 0, Zeros(g.UnitLen(2))))
  {
    var a, b := Link(c, EOC), Put(c, 0, Zeros(g.UnitLen(2)));
    assert [a] + [b] == AllocOps(g, c);
    RunBytesOne(img, g, a);
    RunBytesOne(ApplyBytes(img, g, a), g, b);
    RunBytesConcat(img, g, [a], [b]);
  }

  /** Free a chain: read each link, then cut it.  Ends on every table whose links stay inside. */
  method FreeClusterChain(dev: BlockDevice, g: Geometry, c: nat)
    requires Holds(dev, g) && LinksInside(ViewOf(dev, g).fat) && InTable(ViewOf(dev, g).fat, c)
    modifies dev
    ensures Holds(dev, g) && |dev.sectors| == old(|dev.sectors|)
    ensures OpsOk(FreeOps(old(ViewOf(dev, g)).fat, c), g)
    ensures dev.Flat() == RunBytes(old(dev.Flat()), g, FreeOps(old(ViewOf(dev, g)).fat, c))
  {
    hide FlatOf, ApplyBytes, LinkOf, UnitOf, RunBytes, FreeOps, CountUsed, LinksInside, OpsOk, View, Times;
    var cluster: nat := c;
    ghost var done: seq<Op> := [];
    FreeOpsRun(ViewOf(dev, g), g, c);
    RunBytesNil(dev.Flat(), g);
    ConcatNil(FreeOps(ViewOf(dev, g).fat, c));
    while 2 <= cluster < EOC_MIN
      invariant Holds(dev, g) && |dev.sectors| == old(|dev.sectors|)
      invariant LinksInside(ViewOf(dev, g).fat) && InTable(ViewOf(dev, g).fat, cluster)
      invariant OpsOk(done, g) && dev.Flat() == RunBytes(old(dev.Flat()), g, done)
      invariant FreeOps(old(ViewOf(dev, g)).fat, c) == done + FreeOps(ViewOf(dev, g).fat, cluster)
      decreases CountUsed(ViewOf(dev, g).fat), if 2 <= cluster < EOC_MIN then 1 else 0
    {
      ghost var img := dev.Flat();
      FreeStep(old(dev.Flat()), g, done, img, cluster);
      var next := GetFatEntry(dev, g, cluster);
      SetFatEntry(dev, g, cluster, FREE);
      ConcatAssociates(done, [Link(cluster, FREE)], FreeOps(ViewOf(dev, g).fat, next));
      done := done + [Link(cluster, FREE)];
      cluster := next;
    }
    FreeStop(ViewOf(dev, g).fat, cluster);
    ConcatNil(done);
  }

  lemma ConcatAssociates(a: seq<Op>, b: seq<Op>, c: seq<Op>)
    ensures a + (b + c) == (a + b) + c
  {}

  lemma ConcatNil(a: seq<Op>)
    ensures [] + a == a && a + [] == a
  {}

  lemma FreeStop(fat: seq<nat>, c: nat)
    requires LinksInside(fat) && InTable(fat, c) && !(2 <= c < EOC_MIN)
    ensures FreeOps(fat, c) == []
  {}

  /** One round of freeing, on the bytes and on the table. */
  lemma FreeStep(img0: seq<byte>, g: Geometry, done: seq<Op>, img: seq<byte>, c: nat)
    requires Fits(img0, g) && OpsOk(done, g) && img == RunBytes(img0, g, done)
    requires LinksInside(View(img, g).fat) && InTable(View(img, g).fat, c) && 2 <= c < EOC_MIN
    ensures c < g.Entries() && Link(c, FREE).Ok(g) && OpsOk(done + [Link(c, FREE)], g)
    ensures var img' := ApplyBytes(img, g, Link(c, FREE)); var next := LinkOf(img, g, c);
            && img' == RunBytes(img0, g, done + [Link(c, FREE)])
            && LinksInside(View(img', g).fat) && InTable(View(img', g).fat, next)
            && FreeOps(View(img, g).fat, c) == [Link(c, FREE)] + FreeOps(View(img', g).fat, next)
            && (CountUsed(View(img', g).fat) < CountUsed(View(img, g).fat) ||
                (CountUsed(View(img', g).fat) == CountUsed(View(img, g).fat) && !(2 <= next < EOC_MIN)))
  {
    hide ApplyBytes, LinkOf, UnitOf, RunBytes;
    var fat := View(img, g).fat;
    CountDrops(fat, c);
    ViewLink(img, g, c, FREE);
    assert View(ApplyBytes(img, g, Link(c, FREE)), g).fat == fat[c := FREE];
    assert fat[c] == LinkOf(img, g, c);
    if fat[c] == FREE {
      assert fat[c := FREE] == fat;
    }
    RunBytesOne(img, g, Link(c, FREE));
    RunBytesConcat(img0, g, done, [Link(c, FREE)]);
  }

  lemma RunBytesNil(img: seq<byte>, g: Geometry)
    requires Fits(img, g)
    ensures OpsOk([], g) && RunBytes(img, g, []) == img
  {}

  // ----- scanning directories -----

  /** The entry in a sector buffer is the slot of the unit. */
  lemma BufferSlot(unit: seq<byte>, s: nat, e: nat, buf: sector)
    requires s * SECTOR + SECTOR <= |unit| && buf == unit[s * SECTOR..s * SECTOR + SECTOR] && e < 16
    ensures SLOT * (16 * s + e) + SLOT <= |unit|
    ensures buf[SLOT * e..SLOT * e + SLOT] == SlotIn(unit, 16 * s + e) && buf[SLOT * e] == unit[SLOT * (16 * s + e)]
  {}

  /** Scan the sectors of one unit for a name. */
  method ScanUnit(dev: BlockDevice, g: Geometry, u: nat, name: name83) returns (r: Scan, entry: slot)
    requires Holds(dev, g) && u < g.Entries()
    ensures r == ScanName(UnitOf(dev.Flat(), g, u), 0, name)
    ensures r.Hit? ==> entry == SlotIn(UnitOf(dev.Flat(), g, u), r.index)
  {
    hide FlatOf, UnitOf, Skipped, Name, ScanName, SlotIn, Times;
    ghost var unit := UnitOf(dev.Flat(), g, u);
    entry := Zeros(SLOT);
    var i := 0;
    while i < g.UnitSectors(u)
      invariant i <= g.UnitSectors(u)
      invariant ScanName(unit, 0, name) == ScanName(unit, 16 * i, name)
    {
      UnitSector(dev, g, u, i);
      var buf := dev.Read(g.UnitLba(u) + i);
      var e := 0;
      while e < 16
        invariant e <= 16
        invariant ScanName(unit, 0, name) == ScanName(unit, 16 * i + e, name)
      {
        BufferSlot(unit, i, e, buf);
        ScanNameStep(unit, 16 * i + e, name);
        entry := buf[SLOT * e..SLOT * e + SLOT];
        if buf[SLOT * e] == 0 {
          return Stop, entry;
        }
        if !Skipped(entry) && Name(entry) == name {
          return Hit(16 * i + e), entry;
        }
        e := e + 1;
      }
      i := i + 1;
    }
    ScanNameStep(unit, 16 * i, name);
    r := More;
  }

  lemma ScanNameStep(unit: seq<byte>, j: nat, name: name83)
    ensures ScanName(unit, j, name) ==
            if |unit| < SLOT * j + SLOT then More
            else if unit[SLOT * j] == 0 then Stop
            else if Matches(SlotIn(unit, j), name) then Hit(j)
            else ScanName(unit, j + 1, name)
  {}

  lemma ScanVacantStep(unit: seq<byte>, j: nat)
    ensures ScanVacant(unit, j) ==
            if |unit| < SLOT * j + SLOT then None
            else if Vacant(unit[SLOT * j]) then Some(j)
            else ScanVacant(unit, j + 1)
  {}

  /** Scan the sectors of one unit for a free or deleted slot. */
  method ScanUnitVacant(dev: BlockDevice, g: Geometry, u: nat) returns (r: Option<nat>)
    requires Holds(dev, g) && u < g.Entries()
    ensures r == ScanVacant(UnitOf(dev.Flat(), g, u), 0)
  {
    hide FlatOf, UnitOf, ScanVacant, SlotIn, Times;
    ghost var unit := UnitOf(dev.Flat(), g, u);
    var i := 0;
    while i < g.UnitSectors(u)
      invariant i <= g.UnitSectors(u)
      invariant ScanVacant(unit, 0) == ScanVacant(unit, 16 * i)
    {
      UnitSector(dev, g, u, i);
      var buf := dev.Read(g.UnitLba(u) + i);
      var e := 0;
      while e < 16
        invariant e <= 16
        invariant ScanVacant(unit, 0) == ScanVacant(unit, 16 * i + e)
      {
        BufferSlot(unit, i, e, buf);
        ScanVacantStep(unit, 16 * i + e);
        if Vacant(buf[SLOT * e]) {
          return Some(16 * i + e);
        }
        e := e + 1;
      }
      i := i + 1;
    }
    ScanVacantStep(unit, 16 * i);
    r := None;
  }

  /** The unit after the `i`-th of a directory chain, as the table gives it. */
  lemma NextUnit(v: Volume, g: Geometry, cat: Catalog, x: Option<Ref>, d: nat, i: nat)
    requires SoundBut(v, g, cat, x) && Dir(d) in cat.chains && d != 0 && i < |DirUnits(cat, d)|
    ensures var us := DirUnits(cat, d);
            && 2 <= us[i] < g.Entries() == |v.fat|
            && (i + 1 < |us| ==> v.fat[us[i]] == us[i + 1] && 2 <= us[i + 1] < g.Entries() && us[i + 1] < EOC_MIN)
            && (i + 1 == |us| ==> EOC_MIN <= v.fat[us[i]])
  {
    assert IsChain(v.fat, cat.chains[Dir(d)]);
  }

  lemma FirstUnit(v: Volume, g: Geometry, cat: Catalog, x: Option<Ref>, d: nat)
    requires SoundBut(v, g, cat, x) && Dir(d) in cat.chains
    ensures DirUnits(cat, d) != [] && DirUnits(cat, d)[0] == d && d < g.Entries() && d < EOC_MIN
    ensures UnitsIn(v, DirUnits(cat, d)) && Shaped(v, g)
  {
    UnitsOk(v, g, cat, x, d);
    if d != 0 {
      DirKnown(v, g, cat, x, d);
      assert IsChain(v.fat, cat.chains[Dir(d)]);
      assert cat.chains[Dir(d)] != [];
    }
  }

  lemma SearchStep(v: Volume, us: seq<nat>, i: nat, name: name83)
    requires UnitsIn(v, us) && i < |us|
    ensures UnitsIn(v, us[i..]) && UnitsIn(v, us[i + 1..])
    ensures Search(v, us[i..], name) ==
            match ScanName(v.units[us[i]], 0, name)
            case Stop => None
            case Hit(j) => Some(Ref(us[i], j))
            case More => Search(v, us[i + 1..], name)
  {
    assert us[i..][0] == us[i] && us[i..][1..] == us[i + 1..];
  }

  lemma VacantSearchStep(v: Volume, us: seq<nat>, i: nat)
    requires UnitsIn(v, us) && i < |us|
    ensures UnitsIn(v, us[i..]) && UnitsIn(v, us[i + 1..])
    ensures SearchVacant(v, us[i..]) ==
            match ScanVacant(v.units[us[i]], 0)
            case Some(j) => Some(Ref(us[i], j))
            case None => SearchVacant(v, us[i + 1..])
  {
    assert us[i..][0] == us[i] && us[i..][1..] == us[i + 1..];
  }

  lemma SearchEnds(v: Volume, us: seq<nat>, name: name83)
    requires UnitsIn(v, us)
    ensures UnitsIn(v, us[0..]) && us[0..] == us
    ensures UnitsIn(v, us[|us|..]) && Search(v, us[|us|..], name) == None && SearchVacant(v, us[|us|..]) == None
  {
    assert us[0..] == us && us[|us|..] == [];
  }

  lemma ViewUnit(dev: BlockDevice, g: Geometry, u: nat)
    requires Holds(dev, g) && u < g.Entries()
    ensures |ViewOf(dev, g).units| == g.Entries() == |ViewOf(dev, g).fat|
    ensures ViewOf(dev, g).units[u] == UnitOf(dev.Flat(), g, u) && ViewOf(dev, g).fat[u] == LinkOf(dev.Flat(), g, u)
  {}

  /** Look a name up in a directory: the root area, or the chain of clusters from `d` on. */
  method FindEntry(dev: BlockDevice, g: Geometry, ghost cat: Catalog, d: nat, name: name83)
    returns (r: Option<Ref>, entry: slot)
    requires Holds(dev, g) && Sound(ViewOf(dev, g), g, cat) && Dir(d) in cat.chains
    ensures UnitsIn(ViewOf(dev, g), DirUnits(cat, d))
    ensures r == Search(ViewOf(dev, g), DirUnits(cat, d), name)
    ensures r.Some? ==> r.value.unit < g.Entries() && SLOT * r.value.index + SLOT <= g.UnitLen(r.value.unit) &&
                        entry == SlotIn(UnitOf(dev.Flat(), g, r.value.unit), r.value.index)
  {
    hide SoundBut, View, FlatOf, UnitOf, ScanName, Search, SearchVacant, LinkOf, SlotIn;
    ghost var v := ViewOf(dev, g);
    ghost var us := DirUnits(cat, d);
    FirstUnit(v, g, cat, None, d);
    SearchEnds(v, us, name);
    var scan;
    var current, go := d, true;
    ghost var i := 0;
    while go
      invariant 0 <= i <= |us| && (go ==> i < |us| && current == us[i] < g.Entries()) && (!go ==> i == |us|)
      invariant Search(v, us, name) == Search(v, us[i..], name)
      decreases |us| - i, go
    {
      ViewUnit(dev, g, current);
      SearchStep(v, us, i, name);
      scan, entry := ScanUnit(dev, g, current, name);
      if scan.Stop? {
        return None, entry;
      }
      if scan.Hit? {
        return Some(Ref(current, scan.index)), entry;
      }
      if d == 0 {
        go := false;
      } else {
        NextUnit(v, g, cat, None, d, i);
        current := GetFatEntry(dev, g, current);
        go := current < EOC_MIN;
      }
      i := i + 1;
    }
    entry := Zeros(SLOT);
    r := None;
  }

  /** Find the first free or deleted slot of a directory. */
  method FindFreeEntry(dev: BlockDevice, g: Geometry, ghost cat: Catalog, d: nat) returns (r: Option<Ref>)
    requires Holds(dev, g) && Sound(ViewOf(dev, g), g, cat) && Dir(d) in cat.chains
    ensures UnitsIn(ViewOf(dev, g), DirUnits(cat, d))
    ensures r == SearchVacant(ViewOf(dev, g), DirUnits(cat, d))
  {
    hide SoundBut, View, FlatOf, UnitOf, ScanVacant, Search, SearchVacant, LinkOf;
    ghost var v := ViewOf(dev, g);
    ghost var us := DirUnits(cat, d);
    FirstUnit(v, g, cat, None, d);
    SearchEnds(v, us, Zeros(11));
    var current, go := d, true;
    ghost var i := 0;
    while go
      invariant 0 <= i <= |us| && (go ==> i < |us| && current == us[i] < g.Entries()) && (!go ==> i == |us|)
      invariant SearchVacant(v, us) == SearchVacant(v, us[i..])
      decreases |us| - i, go
    {
      ViewUnit(dev, g, current);
      VacantSearchStep(v, us, i);
      var j := ScanUnitVacant(dev, g, current);
      if j.Some? {
        return Some(Ref(current, j.value));
      }
      if d == 0 {
        go := false;
      } else {
        NextUnit(v, g, cat, None, d, i);
        current := GetFatEntry(dev, g, current);
        go := current < EOC_MIN;
      }
      i := i + 1;
    }
    r := None;
  }

  // ----- writing entries and data -----

  /** Rewrite 32 bytes of one sector. */
  method WriteEntry(dev: BlockDevice, g: Geometry, r: Ref, entry: slot)
    requires Holds(dev, g) && r.unit < g.Entries() && r.unit != 1 && SLOT * r.index + SLOT <= g.UnitLen(r.unit)
    modifies dev
    ensures Holds(dev, g) && |dev.sectors| == old(|dev.sectors|)
    ensures PutSlot(r, entry).Ok(g) && dev.Flat() == ApplyBytes(old(dev.Flat()), g, PutSlot(r, entry))
  {
    hide FlatOf, UnitOf;
    var i, at := r.index / 16, r.index % 16 * SLOT;
    UnitSector(dev, g, r.unit, i);
    var buf := dev.Read(g.UnitLba(r.unit) + i);
    PatchIsPut(dev.sectors, g, r.unit, i, at, entry);
    assert i * SECTOR + at == SLOT * r.index;
    buf := Splice(buf, at, entry);
    dev.Write(g.UnitLba(r.unit) + i, buf);
  }

  /** Mark an entry deleted: rewrite its first byte. */
  method MarkDeleted(dev: BlockDevice, g: Geometry, r: Ref)
    requires Holds(dev, g) && r.unit < g.Entries() && r.unit != 1 && SLOT * r.index + SLOT <= g.UnitLen(r.unit)
    modifies dev
    ensures Holds(dev, g) && |dev.sectors| == old(|dev.sectors|)
    ensures PutSlot(r, [DELETED]).Ok(g) && dev.Flat() == ApplyBytes(old(dev.Flat()), g, PutSlot(r, [DELETED]))
  {
    hide FlatOf, UnitOf;
    var i, at := r.index / 16, r.index % 16 * SLOT;
    UnitSector(dev, g, r.unit, i);
    var buf := dev.Read(g.UnitLba(r.unit) + i);
    PatchIsPut(dev.sectors, g, r.unit, i, at, [DELETED]);
    assert i * SECTOR + at == SLOT * r.index;
    assert Splice(buf, at, [DELETED]) == buf[at := DELETED];
    buf := buf[at := DELETED];
    dev.Write(g.UnitLba(r.unit) + i, buf);
  }

  /** Writing back a sector with part of it replaced is a Put of the part. */
  lemma PatchIsPut(sectors: seq<sector>, g: Geometry, u: nat, i: nat, at: nat, part: seq<byte>)
    requires g.Ok(|sectors|) && u < g.Entries() && u != 1 && i < g.UnitSectors(u) && at + |part| <= SECTOR
    ensures g.UnitLba(u) + i < |sectors| && Put(u, i * SECTOR + at, part).Ok(g)
    ensures FlatOf(sectors[g.UnitLba(u) + i := Splice(sectors[g.UnitLba(u) + i], at, part)]) ==
            ApplyBytes(FlatOf(sectors), g, Put(u, i * SECTOR + at, part))
  {
    hide FlatOf;
    UnitInside(g, |sectors|, u);
    var l := g.UnitLba(u) + i;
    FlatWrite(sectors, l, Splice(sectors[l], at, part));
    forall b | 0 <= b < SECTOR
      ensures FlatOf(sectors)[l * SECTOR + b] == sectors[l][b]
    {
      FlatByte(sectors, l, b);
    }
    SpliceInside(FlatOf(sectors), l * SECTOR, sectors[l], at, part);
  }

  lemma SpliceInside(img: seq<byte>, base: nat, buf: sector, at: nat, part: seq<byte>)
    requires base + SECTOR <= |img| && at + |part| <= SECTOR
    requires forall b :: 0 <= b < SECTOR ==> img[base + b] == buf[b]
    ensures Splice(img, base, Splice(buf, at, part)) == Splice(img, base + at, part)
  {
    var x, y := Splice(img, base, Splice(buf, at, part)), Splice(img, base + at, part);
    forall i | 0 <= i < |img|
      ensures x[i] == y[i]
    {
      if base <= i < base + SECTOR {
        assert img[base + (i - base)] == buf[i - base];
      }
    }
  }

  /** A cleared cluster padded with zeros reads as the unpadded data. */
  lemma PadIsPut(img: seq<byte>, g: Geometry, c: nat, done: seq<byte>, part: seq<byte>, pad: nat)
    requires Fits(img, g) && 2 <= c < g.Entries() && UnitOf(img, g, c) == Zeros(g.UnitLen(2))
    requires |done| + |part| + pad <= g.UnitLen(2)
    ensures Put(c, 0, done).Ok(g) && Put(c, |done|, part + Zeros(pad)).Ok(g) && Put(c, 0, done + part).Ok(g)
    ensures ApplyBytes(ApplyBytes(img, g, Put(c, 0, done)), g, Put(c, |done|, part + Zeros(pad))) ==
            ApplyBytes(img, g, Put(c, 0, done + part))
  {
    UnitInside(g, |img| / SECTOR, c);
    var base := g.UnitBase(c);
    var y := ApplyBytes(img, g, Put(c, 0, done));
    var x, z := ApplyBytes(y, g, Put(c, |done|, part + Zeros(pad))), ApplyBytes(img, g, Put(c, 0, done + part));
    forall i | 0 <= i < |img|
      ensures x[i] == z[i]
    {
      if base <= i < base + g.UnitLen(2) {
        assert UnitOf(img, g, c)[i - base] == img[i];
      }
    }
  }

  /** Fill a cleared cluster with data, sector by sector, the last one padded with zeros. */
  method FillCluster(dev: BlockDevice, g: Geometry, c: nat, chunk: seq<byte>)
    requires Holds(dev, g) && 2 <= c < g.Entries() && |chunk| <= g.UnitLen(2)
    requires UnitOf(dev.Flat(), g, c) == Zeros(g.UnitLen(2))
    modifies dev
    ensures Holds(dev, g) && |dev.sectors| == old(|dev.sectors|)
    ensures dev.Flat() == ApplyBytes(old(dev.Flat()), g, Put(c, 0, chunk))
  {
    hide FlatOf, UnitOf, ApplyBytes;
    ghost var img := dev.Flat();
    PutNothing(img, g, c);
    assert chunk[..0] == Zeros(0);
    var i := 0;
    var written := 0;
    while i < g.spc && written < |chunk|
      invariant 0 <= i <= g.spc && written == Min(i * SECTOR, |chunk|) && |dev.sectors| == old(|dev.sectors|)
      invariant dev.Flat() == ApplyBytes(img, g, Put(c, 0, chunk[..written]))
    {
      var n := Min(SECTOR, |chunk| - written);
      var part, pad := chunk[written..written + n], SECTOR - n;
      PadIsPut(img, g, c, chunk[..written], part, pad);
      assert chunk[..written] + part == chunk[..written + n];
      SectorIsPut(dev.sectors, g, c, i, part + Zeros(pad));
      dev.Write(g.UnitLba(c) + i, part + Zeros(pad));
      written := written + n;
      i := i + 1;
    }
    assert chunk[..written] == chunk;
  }
}
