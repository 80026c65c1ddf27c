/**
 The volume as the driver sees it (a table of links and numbered units of
 bytes), the two kinds of update the driver makes, and the proof that an update
 of the raw bytes is the same update of that view.
 */
module Fat12Journal {
  import opened Bytes
  import opened Fat12Layout

  datatype Volume = Volume(fat: seq<nat>, units: seq<seq<byte>>)

  /** The unit `u` of an image. */
  function UnitOf(img: seq<byte>, g: Geometry, u: nat): (s: seq<byte>)
    requires Fits(img, g) && u < g.Entries()
    ensures |s| == g.UnitLen(u)
  {
    UnitInside(g, |img| / SECTOR, u);
    img[g.UnitBase(u)..g.UnitBase(u) + g.UnitLen(u)]
  }

  /** The link of cluster `c`, read from the first table copy. */
  function LinkOf(img: seq<byte>, g: Geometry, c: nat): (v: nat)
    requires Fits(img, g) && c < g.Entries()
    ensures v < 4096
  {
    EntryInside(g, |img| / SECTOR, 0, c);
    Unpack(img, g.FatBase(0), c)
  }

  ghost function View(img: seq<byte>, g: Geometry): (v: Volume)
    requires Fits(img, g)
    ensures Shaped(v, g)
  {
    Volume(seq(g.Entries(), c requires 0 <= c < g.Entries() => LinkOf(img, g, c)),
           seq(g.Entries(), u requires 0 <= u < g.Entries() => UnitOf(img, g, u)))
  }

  ghost predicate Shaped(v: Volume, g: Geometry) {
    && |v.fat| == |v.units| == g.Entries()
    && (forall c :: 0 <= c < |v.fat| ==> v.fat[c] < 4096)
    && (forall u :: 0 <= u < |v.units| ==> |v.units[u]| == g.UnitLen(u))
  }

  // ----- updates -----

  /** One update: link a cluster in every table copy, or store bytes in a unit. */
  datatype Op = Link(cluster: nat, value: nat) | Put(unit: nat, at: nat, part: seq<byte>)
  {
    predicate Ok(g: Geometry) {
      match this
      case Link(c, v) => 2 <= c < g.Entries() && v < 4096
      case Put(u, at, part) => u < g.Entries() && u != 1 && at + |part| <= g.UnitLen(u)
    }
  }

  predicate OpsOk(ops: seq<Op>, g: Geometry) {
    forall i :: 0 <= i < |ops| ==> ops[i].Ok(g)
  }

  /** The update on raw bytes. */
  function ApplyBytes(img: seq<byte>, g: Geometry, op: Op): (r: seq<byte>)
    requires Fits(img, g) && op.Ok(g)
    ensures |r| == |img|
  {
    match op
    case Link(c, v) => PackCopies(img, g, c, v, g.fats)
    case Put(u, at, part) =>
      UnitInside(g, |img| / SECTOR, u);
      Splice(img, g.UnitBase(u) + at, part)
  }

  /** The update on the view. */
  ghost function Apply(v: Volume, g: Geometry, op: Op): (r: Volume)
    requires Shaped(v, g) && op.Ok(g)
    ensures Shaped(r, g)
  {
    match op
    case Link(c, x) => v.(fat := v.fat[c := x])
    case Put(u, at, part) => v.(units := v.units[u := Splice(v.units[u], at, part)])
  }

  function RunBytes(img: seq<byte>, g: Geometry, ops: seq<Op>): (r: seq<byte>)
    requires Fits(img, g) && OpsOk(ops, g)
    ensures |r| == |img|
    decreases |ops|
  {
    if ops == [] then img else RunBytes(ApplyBytes(img, g, ops[0]), g, ops[1..])
  }

  ghost function Run(v: Volume, g: Geometry, ops: seq<Op>): (r: Volume)
    requires Shaped(v, g) && OpsOk(ops, g)
    ensures Shaped(r, g)
    decreases |ops|
  {
    if ops == [] then v else Run(Apply(v, g, ops[0]), g, ops[1..])
  }

  // ----- the view of an updated image -----

  lemma ViewLink(img: seq<byte>, g: Geometry, c: nat, x: nat)
    requires Fits(img, g) && Link(c, x).Ok(g)
    ensures View(ApplyBytes(img, g, Link(c, x)), g) == Apply(View(img, g), g, Link(c, x))
  {
    hide ApplyBytes, UnitOf, LinkOf;
    var r := ApplyBytes(img, g, Link(c, x));
    var v, w := View(img, g), View(r, g);
    forall d | 0 <= d < g.Entries()
      ensures w.fat[d] == if d == c then x else v.fat[d]
    {
      LinkSetsLink(img, g, c, x, d);
    }
    forall u | 0 <= u < g.Entries()
      ensures w.units[u] == v.units[u]
    {
      LinkKeepsUnit(img, g, c, x, u);
    }
  }

  lemma LinkSetsLink(img: seq<byte>, g: Geometry, c: nat, x: nat, d: nat)
    requires Fits(img, g) && Link(c, x).Ok(g) && d < g.Entries()
    ensures LinkOf(ApplyBytes(img, g, Link(c, x)), g, d) == if d == c then x else LinkOf(img, g, d)
  {
    hide Unpack;
    EntryInside(g, |img| / SECTOR, 0, d);
    PackCopiesUnpack(img, g, c, x, g.fats, 0, d);
  }

  lemma LinkKeepsUnit(img: seq<byte>, g: Geometry, c: nat, x: nat, u: nat)
    requires Fits(img, g) && Link(c, x).Ok(g) && u < g.Entries()
    ensures UnitOf(ApplyBytes(img, g, Link(c, x)), g, u) == UnitOf(img, g, u)
  {
    UnitInside(g, |img| / SECTOR, u);
    forall i | g.UnitBase(u) <= i < g.UnitBase(u) + g.UnitLen(u)
      ensures ApplyBytes(img, g, Link(c, x))[i] == img[i]
    {
      PackCopiesOutside(img, g, c, x, g.fats, i);
    }
  }

  lemma ViewPut(img: seq<byte>, g: Geometry, u: nat, at: nat, part: seq<byte>)
    requires Fits(img, g) && Put(u, at, part).Ok(g)
    ensures View(ApplyBytes(img, g, Put(u, at, part)), g) == Apply(View(img, g), g, Put(u, at, part))
  {
    var r := ApplyBytes(img, g, Put(u, at, part));
    var v, w := View(img, g), View(r, g);
    forall d | 0 <= d < g.Entries()
      ensures w.fat[d] == v.fat[d]
    {
      PutKeepsLink(img, g, u, at, part, d);
    }
    forall x | 0 <= x < g.Entries()
      ensures w.units[x] == if x == u then Splice(v.units[u], at, part) else v.units[x]
    {
      PutInUnit(img, g, u, at, part, x);
    }
  }

  lemma PutKeepsLink(img: seq<byte>, g: Geometry, u: nat, at: nat, part: seq<byte>, d: nat)
    requires Fits(img, g) && Put(u, at, part).Ok(g) && d < g.Entries()
    ensures LinkOf(ApplyBytes(img, g, Put(u, at, part)), g, d) == LinkOf(img, g, d)
  {
    UnitInside(g, |img| / SECTOR, u);
    EntryInside(g, |img| / SECTOR, 0, d);
  }

  lemma PutInUnit(img: seq<byte>, g: Geometry, u: nat, at: nat, part: seq<byte>, x: nat)
    requires Fits(img, g) && Put(u, at, part).Ok(g) && x < g.Entries()
    ensures UnitOf(ApplyBytes(img, g, Put(u, at, part)), g, x) ==
            if x == u then Splice(UnitOf(img, g, u), at, part) else UnitOf(img, g, x)
  {
    UnitInside(g, |img| / SECTOR, u);
    UnitInside(g, |img| / SECTOR, x);
    if x != u && x != 1 {
      UnitsApart(g, |img| / SECTOR, if x < u then x else u, if x < u then u else x);
    }
  }

  /** Updating bytes and then looking is looking and then updating. */
  lemma {:induction false} ViewRun(img: seq<byte>, g: Geometry, ops: seq<Op>)
    requires Fits(img, g) && OpsOk(ops, g)
    ensures View(RunBytes(img, g, ops), g) == Run(View(img, g), g, ops)
    decreases |ops|
  {
    if ops != [] {
      match ops[0] {
        case Link(c, x) => ViewLink(img, g, c, x);
        case Put(u, at, part) => ViewPut(img, g, u, at, part);
      }
      ViewRun(ApplyBytes(img, g, ops[0]), g, ops[1..]);
    }
  }

  /** No update reaches the boot sector. */
  lemma {:induction false} RunKeepsBoot(img: seq<byte>, g: Geometry, ops: seq<Op>)
    requires Fits(img, g) && OpsOk(ops, g)
    ensures SECTOR <= |img|
    ensures RunBytes(img, g, ops)[..SECTOR] == img[..SECTOR]
    decreases |ops|
  {
    EntryInside(g, |img| / SECTOR, 0, 0);
    if ops != [] {
      var r := ApplyBytes(img, g, ops[0]);
      forall i | 0 <= i < SECTOR
        ensures r[i] == img[i]
      {
        match ops[0]
        case Link(c, x) => PackCopiesOutside(img, g, c, x, g.fats, i);
        case Put(u, at, part) => UnitInside(g, |img| / SECTOR, u);
      }
      RunKeepsBoot(r, g, ops[1..]);
      assert r[..SECTOR] == img[..SECTOR];
    }
  }

  // ----- table copies -----

  ghost function EntryOf(img: seq<byte>, g: Geometry, k: nat, d: nat): nat
    requires Fits(img, g) && k < g.fats && d < g.Entries()
  {
    EntryInside(g, |img| / SECTOR, k, d);
    Unpack(img, g.FatBase(k), d)
  }

  /** Every copy of the table says the same. */
  ghost predicate Mirrored(img: seq<byte>, g: Geometry)
    requires Fits(img, g)
  {
    forall k, d :: 0 <= k < g.fats && 0 <= d < g.Entries() ==> EntryOf(img, g, k, d) == LinkOf(img, g, d)
  }

  lemma MirrorsApply(img: seq<byte>, g: Geometry, op: Op)
    requires Fits(img, g) && op.Ok(g) && Mirrored(img, g)
    ensures Mirrored(ApplyBytes(img, g, op), g)
  {
    hide Unpack, PackCopies;
    var r := ApplyBytes(img, g, op);
    forall k, d | 0 <= k < g.fats && 0 <= d < g.Entries()
      ensures EntryOf(r, g, k, d) == LinkOf(r, g, d)
    {
      EntryInside(g, |img| / SECTOR, k, d);
      assert EntryOf(img, g, k, d) == LinkOf(img, g, d);
      match op {
        case Link(c, x) =>
          PackCopiesUnpack(img, g, c, x, g.fats, k, d);
          LinkSetsLink(img, g, c, x, d);
        case Put(u, at, part) =>
          PutKeepsLink(img, g, u, at, part, d);
          PutKeepsEntry(img, g, u, at, part, k, d);
      }
    }
  }

  lemma PutKeepsEntry(img: seq<byte>, g: Geometry, u: nat, at: nat, part: seq<byte>, k: nat, d: nat)
    requires Fits(img, g) && Put(u, at, part).Ok(g) && k < g.fats && d < g.Entries()
    ensures EntryOf(ApplyBytes(img, g, Put(u, at, part)), g, k, d) == EntryOf(img, g, k, d)
  {
    UnitInside(g, |img| / SECTOR, u);
    EntryInside(g, |img| / SECTOR, k, d);
  }

  /** Copies of the table that agree go on agreeing. */
  lemma {:induction false} MirrorsStay(img: seq<byte>, g: Geometry, ops: seq<Op>)
    requires Fits(img, g) && OpsOk(ops, g) && Mirrored(img, g)
    ensures Mirrored(RunBytes(img, g, ops), g)
    decreases |ops|
  {
    hide Mirrored, ApplyBytes;
    if ops != [] {
      MirrorsApply(img, g, ops[0]);
      MirrorsStay(ApplyBytes(img, g, ops[0]), g, ops[1..]);
    }
  }

  // ----- journals are sequences -----

  lemma {:induction false} RunBytesConcat(img: seq<byte>, g: Geometry, a: seq<Op>, b: seq<Op>)
    requires Fits(img, g) && OpsOk(a, g) && OpsOk(b, g)
    ensures OpsOk(a + b, g)
    ensures RunBytes(img, g, a + b) == RunBytes(RunBytes(img, g, a), g, b)
    decreases |a|
  {
    if a == [] {
      assert a + b == b;
    } else {
      assert (a + b)[1..] == a[1..] + b;
      RunBytesConcat(ApplyBytes(img, g, a[0]), g, a[1..], b);
    }
  }

  lemma RunBytesOne(img: seq<byte>, g: Geometry, op: Op)
    requires Fits(img, g) && op.Ok(g)
    ensures RunBytes(img, g, [op]) == ApplyBytes(img, g, op)
  {
    assert [op][1..] == [];
  }

  lemma {:induction false} RunConcat(v: Volume, g: Geometry, a: seq<Op>, b: seq<Op>)
    requires Shaped(v, g) && OpsOk(a, g) && OpsOk(b, g)
    ensures OpsOk(a + b, g)
    ensures Run(v, g, a + b) == Run(Run(v, g, a), g, b)
    decreases |a|
  {
    if a == [] {
      assert a + b == b;
    } else {
      assert (a + b)[1..] == a[1..] + b;
      RunConcat(Apply(v, g, a[0]), g, a[1..], b);
    }
  }

  lemma RunNil(v: Volume, g: Geometry)
    requires Shaped(v, g)
    ensures OpsOk([], g) && Run(v, g, []) == v
  {}

  lemma RunOne(v: Volume, g: Geometry, op: Op)
    requires Shaped(v, g) && op.Ok(g)
    ensures Run(v, g, [op]) == Apply(v, g, op)
  {
    assert [op][1..] == [];
  }
}
