/**
 Creating directories and writing files in an image, and the proof that the image
 and the device end up byte for byte the same whenever the command succeeds.
 */
module Fat12Twins {
  import opened Bytes
  import opened Paths
  import opened Fat12Layout
  import opened Fat12Journal
  import opened Fat12Chain
  import opened Fat12Dir
  import opened Fat12Sound
  import opened Fat12Lookup
  import opened Fat12Ops
  import opened Fat12Keeps
  import opened Fat12Write
  import opened Fat12Room
  import opened Fat12Device
  import opened Fat12Names
  import opened Fat12Commands
  import opened Fat12Image

  method ResolveDirInImage(image: array<byte>, g: Geometry, ghost cat: Catalog, path: seq<byte>) returns (r: Resolved)
    requires Fits(image[..], g) && Sound(ViewIn(image, g), g, cat) && Dir(0) in cat.chains
    ensures r == if path == [] || path[0] != SLASH then Fail(Invalid)
            else Resolve(ViewIn(image, g), g, cat, 0, Components(path))
  {
    hide SoundBut, View, UnitOf, Search, Resolve, SlotAt, SlotIn, IsDir, Components, TokenLen, DirName;
    if path == [] || path[0] != SLASH {
      return Fail(Invalid);
    }
    ghost var v := ViewIn(image, g);
    var at, current := 0, 0;
    assert path[0..] == path;
    while at < |path|
      invariant 0 <= at <= |path| && Dir(current) in cat.chains
      invariant Resolve(v, g, cat, 0, Components(path)) == Resolve(v, g, cat, current, Components(path[at..]))
    {
      if path[at] == SLASH {
        SlashSkipped(path[at..]);
        assert path[at..][1..] == path[at + 1..];
        at := at + 1;
      } else {
        var len := 0;
        while at + len < |path| && path[at + len] != SLASH
          invariant at + len <= |path| && len < NAME_CAP
          invariant forall i :: 0 <= i < len ==> path[at..][i] != SLASH
        {
          if len + 1 >= NAME_CAP {
            LongToken(path[at..], len + 1);
            ResolveStep(v, g, cat, current, Components(path[at..]));
            return Fail(Invalid);
          }
          len := len + 1;
        }
        TokenTaken(path[at..], len);
        var component := path[at..at + len];
        assert component == path[at..][..len] && path[at..][len..] == path[at + len..];
        ResolveStep(v, g, cat, current, Components(path[at..]));
        var name := MakeDirName(component);
        if name.None? {
          return Fail(Invalid);
        }
        var f, entry := FindInDir(image, g, cat, current, name.value);
        if f.None? {
          return Fail(NotFound);
        }
        ImageSlot(image, g, f.value);
        if !IsDir(entry) {
          return Fail(NotDirectory);
        }
        current := Head(entry);
        at := at + len;
      }
    }
    assert path[at..] == [];
    ResolveNil(v, g, cat, current);
    r := Directory(current);
  }

  lemma ImageSlot(image: array<byte>, g: Geometry, r: Ref)
    requires Fits(image[..], g) && r.unit < g.Entries() && SLOT * r.index + SLOT <= g.UnitLen(r.unit)
    ensures Shaped(ViewIn(image, g), g)
    ensures SlotAt(ViewIn(image, g), g, r) == SlotIn(UnitOf(image[..], g, r.unit), r.index)
  {
    ImageUnit(image, g, r.unit);
  }

  method LocateInImage(image: array<byte>, g: Geometry, ghost cat: Catalog, sp: Split, name: name83)
    returns (t: Target, entry: slot)
    requires Fits(image[..], g) && Sound(ViewIn(image, g), g, cat) && sp.Split? && name[0] != DOT
    requires sp.parent != [] && sp.parent[0] == SLASH
    ensures t == Locate(ViewIn(image, g), g, cat, sp, Some(name))
    ensures t.Present? ==> Shaped(ViewIn(image, g), g) && entry == SlotAt(ViewIn(image, g), g, t.ref)
  {
    hide SoundBut, View, UnitOf, Search, Resolve, SlotIn, Components, SlotAt;
    entry := Zeros(SLOT);
    RootKnown(ViewIn(image, g), g, cat, None);
    var at := ResolveDirInImage(image, g, cat, sp.parent);
    if at.Fail? {
      return Bad(at.rc), entry;
    }
    var f;
    f, entry := FindInDir(image, g, cat, at.head, name);
    if f.None? {
      return Missing(at.head), entry;
    }
    ImageSlot(image, g, f.value);
    t := Present(at.head, f.value);
  }

  method PutEntry(image: array<byte>, g: Geometry, r: Ref, entry: slot)
    requires Fits(image[..], g) && r.unit < g.Entries() && r.unit != 1 && SLOT * r.index + SLOT <= g.UnitLen(r.unit)
    modifies image
    ensures Fits(image[..], g)
    ensures PutSlot(r, entry).Ok(g) && image[..] == ApplyBytes(old(image[..]), g, PutSlot(r, entry))
  {
    PutBytes(image, g, r.unit, SLOT * r.index, entry);
  }

  /** Store data in a new chain; only the data bytes are written, over cleared clusters. */
  method GrowInImage(image: array<byte>, g: Geometry, data: seq<byte>) returns (first: nat, full: bool)
    requires Fits(image[..], g)
    modifies image
    ensures Fits(image[..], g) && Small(g) && Clusters(g, [])
    ensures var gr := Grow(old(ViewIn(image, g)), g, [], data);
            && full == gr.full && first == FirstOf(gr.chain)
            && image[..] == RunBytes(old(image[..]), g, gr.ops)
  {
    hide View, UnitOf, RunBytes, ApplyBytes, Growing, Grow, FirstFree, TakeOps, Run, OpsOk;
    ghost var img := image[..];
    ghost var done: seq<Op>, s: seq<nat> := [], [];
    GrowingStarts(img, g, data);
    OkSmall(g, image.Length / SECTOR);
    first := 0;
    var prev, written := 0, 0;
    while written < |data|
      invariant Fits(image[..], g) && written <= |data|
      invariant Growing(img, g, data, image[..], done, s, written)
      invariant Clusters(g, s) && first == FirstOf(s) && prev == (if s == [] then 0 else s[|s| - 1])
    {
      ghost var now := image[..];
      var c := TakeCluster(image, g);
      if c == 0 {
        GrowingEnds(img, g, data, now, done, s, written);
        GrowingBytes(img, g, data, now, done, s, written);
        return first, true;
      }
      GrowingStep(img, g, data, now, done, s, written, c);
      var n := Min(|data| - written, g.UnitLen(2));
      TakeBytes(now, g, s, c, data[written..written + n]);
      if first == 0 {
        first := c;
      }
      if prev != 0 {
        SetEntry(image, g, prev, c);
      }
      prev := c;
      PutBytes(image, g, c, 0, data[written..written + n]);
      done, s := done + TakeOps(g, s, c, data[written..written + n]), s + [c];
      written := written + n;
    }
    GrowingEnds(img, g, data, image[..], done, s, written);
    GrowingBytes(img, g, data, image[..], done, s, written);
    full := false;
  }

  // ----- what growing leaves alone -----

  /** Growing changes no link and no byte of a cluster that is in use and not the chain's last. */
  lemma {:induction false} GrowFrame(v: Volume, g: Geometry, s: seq<nat>, data: seq<byte>, u: nat)
    requires Shaped(v, g) && Small(g) && Clusters(g, s) && u < g.Entries()
    requires u == 0 || (2 <= u && v.fat[u] != FREE && u !in s)
    ensures var w := Run(v, g, Grow(v, g, s, data).ops);
            w.units[u] == v.units[u] && (u != 0 ==> w.fat[u] == v.fat[u])
    decreases |data|
  {
    hide Run, TakeOps, FirstFree, OpsOk, Grow;
    if data == [] {
      GrowNothing(v, g, s);
      RunNil(v, g);
    } else {
      GrowStep(v, g, s, data);
      var free := FirstFree(v.fat, 2);
      if free.None? {
        RunNil(v, g);
      } else {
        var c, n := free.value, Min(|data|, g.UnitLen(2));
        TakeRun(v, g, s, c, data[..n]);
        var y := Taken(v, s, c, data[..n], g.UnitLen(2));
        assert s != [] ==> s[|s| - 1] in s;
        GrowFrame(y, g, s + [c], data[n..], u);
        RunConcat(v, g, TakeOps(g, s, c, data[..n]), Grow(y, g, s + [c], data[n..]).ops);
      }
    }
  }

  lemma {:induction false} VacantSame(v: Volume, w: Volume, us: seq<nat>)
    requires UnitsIn(v, us) && UnitsIn(w, us) && forall i :: 0 <= i < |us| ==> w.units[us[i]] == v.units[us[i]]
    ensures SearchVacant(w, us) == SearchVacant(v, us)
    decreases |us|
  {
    if us != [] {
      assert forall i :: 0 <= i < |us[1..]| ==> us[1..][i] == us[i + 1];
      VacantSame(v, w, us[1..]);
    }
  }

  /** The search for a vacant slot gives the same answer before and after growing. */
  lemma GrowKeepsWalk(v: Volume, g: Geometry, us: seq<nat>, d: nat, data: seq<byte>)
    requires DirWalk(v, g, us, d) && Small(g)
    ensures Clusters(g, [])
    ensures var w := Run(v, g, Grow(v, g, [], data).ops);
            DirWalk(w, g, us, d) && SearchVacant(w, us) == SearchVacant(v, us)
  {
    var w := Run(v, g, Grow(v, g, [], data).ops);
    forall i | 0 <= i < |us|
      ensures w.units[us[i]] == v.units[us[i]] && (d != 0 ==> w.fat[us[i]] == v.fat[us[i]])
    {
      assert d != 0 && i + 1 < |us| ==> v.fat[us[i]] == us[i + 1];
      GrowFrame(v, g, [], data, us[i]);
    }
    VacantSame(v, w, us);
  }

  // ----- commands on an image -----

  /** The geometry of an image, from the sector total in its boot record. */
  function ImageGeometry(img: seq<byte>): Option<Geometry>
    requires SECTOR <= |img|
  {
    var b := ParseBpb(img[..SECTOR]);
    if b.None? then None else Some(GeometryOf(b.value, b.value.totalSectors))
  }

  ghost predicate Loaded(img: seq<byte>, cat: Catalog) {
    && SECTOR <= |img|
    && (ImageGeometry(img).Some? ==>
          var g := ImageGeometry(img).value;
          Fits(img, g) && Sound(View(img, g), g, cat))
  }

  /** Create a directory in an image; one without room for a boot record, or with a bad one, is left alone. */
  method CreateDirInImage(image: array<byte>, ghost cat: Catalog, path: cstring) returns (rc: Rc)
    requires SECTOR <= image.Length ==> Loaded(image[..], cat)
    modifies image
    ensures image.Length < SECTOR ==> rc == Invalid && image[..] == old(image[..])
    ensures SECTOR <= image.Length ==>
              match ImageGeometry(old(image[..]))
              case None => rc == Invalid && image[..] == old(image[..])
              case Some(g) =>
                var o := Mkdir(View(old(image[..]), g), g, cat, path);
                rc == o.rc && OpsOk(o.ops, g) && image[..] == RunBytes(old(image[..]), g, o.ops)
  {
    hide View, UnitOf, RunBytes, ApplyBytes, Run, SoundBut, Resolve, Search, SearchVacant, FirstFree, Components,
         SlotAt, Named, ParseBpb, GeometryOf, SplitPath, DirName, IsDir, OpsOk, MkdirOps, AllocOps, MakeEntry,
         UsedBefore;
    if image.Length < SECTOR {
      return Invalid;
    }
    var bpb := ParseBpb(image[..SECTOR]);
    assert image[..SECTOR] == image[..][..SECTOR];
    if bpb.None? {
      return Invalid;
    }
    var g := GeometryOf(bpb.value, bpb.value.totalSectors);
    ghost var v := View(image[..], g);
    RunBytesNil(image[..], g);
    OkSmall(g, image.Length / SECTOR);
    var sp := SplitCreatePath(path);
    if sp.NoSplit? {
      return Invalid;
    }
    var name := MakeDirName(sp.leaf);
    if name.None? {
      return Invalid;
    }
    DirNamePlain(sp.leaf);
    var t, entry := LocateInImage(image, g, cat, sp, name.value);
    if t.Bad? {
      return t.rc;
    }
    if t.Present? {
      return if IsDir(entry) then Okay else Exists;
    }
    SoundWalk(v, g, cat, t.dir);
    var f := FindVacant(image, g, t.dir, DirUnits(cat, t.dir));
    if f.None? {
      return NoSpace;
    }
    VacantFinds(v, g, cat, t.dir);
    SlotUnit(v, g, cat, None, f.value);
    var c := TakeCluster(image, g);
    if c == 0 {
      return NoSpace;
    }
    MkdirBytes(old(image[..]), g, f.value, c, t.dir, name.value);
    PutEntry(image, g, f.value, MakeEntry(name.value, ATTR_DIRECTORY, c, 0));
    PutEntry(image, g, Ref(c, 0), MakeEntry(DOT_NAME, ATTR_DIRECTORY, c, 0));
    PutEntry(image, g, Ref(c, 1), MakeEntry(DOTDOT_NAME, ATTR_DIRECTORY, t.dir, 0));
    rc := Okay;
  }

  /** Growing keeps links in the table. */
  lemma {:induction false} GrowLinksInside(v: Volume, g: Geometry, s: seq<nat>, data: seq<byte>)
    requires Shaped(v, g) && Small(g) && Clusters(g, s) && LinksInside(v.fat)
    ensures var gr := Grow(v, g, s, data); var w := Run(v, g, gr.ops);
            LinksInside(w.fat) && InTable(w.fat, FirstOf(gr.chain))
    decreases |data|
  {
    hide Run, TakeOps, FirstFree, OpsOk, Grow;
    if data == [] {
      GrowNothing(v, g, s);
      RunNil(v, g);
    } else {
      GrowStep(v, g, s, data);
      var free := FirstFree(v.fat, 2);
      if free.None? {
        RunNil(v, g);
      } else {
        var c, n := free.value, Min(|data|, g.UnitLen(2));
        TakeRun(v, g, s, c, data[..n]);
        var y := Taken(v, s, c, data[..n], g.UnitLen(2));
        GrowLinksInside(y, g, s + [c], data[n..]);
        RunConcat(v, g, TakeOps(g, s, c, data[..n]), Grow(y, g, s + [c], data[n..]).ops);
      }
    }
  }

  /** Grow a chain and undo it again. */
  ghost function UndoneOps(v: Volume, g: Geometry, data: seq<byte>): (ops: seq<Op>)
    requires Shaped(v, g) && Small(g) && LinksInside(v.fat)
  {
    GrowLinksInside(v, g, [], data);
    var gr := Grow(v, g, [], data);
    gr.ops + FreeHead(Run(v, g, gr.ops), FirstOf(gr.chain))
  }

  /** What follows once the place of the file is known: a full volume is undone, but an old entry is left. */
  ghost function ImageFill(v: Volume, g: Geometry, r: Option<Ref>, leaf: name83, data: seq<byte>): (o: Outcome)
    requires Shaped(v, g) && Small(g) && LinksInside(v.fat) && |data| < WORD
  {
    var gr := Grow(v, g, [], data);
    if gr.full || r.None? then Outcome(NoSpace, UndoneOps(v, g, data))
    else Outcome(Okay, gr.ops + [PutSlot(r.value, MakeEntry(leaf, 0, FirstOf(gr.chain), |data|))])
  }

  lemma ReadyShape(v: Volume, g: Geometry, cat: Catalog, r: Ref, leaf: name83)
    requires Ready(v, g, cat, r, leaf)
    ensures Shaped(v, g) && LinksInside(v.fat)
  {
    LinksStayInside(v.fat, cat.chains, cat.owner);
  }

  lemma SoundLinks(v: Volume, g: Geometry, cat: Catalog)
    requires Sound(v, g, cat)
    ensures Shaped(v, g) && LinksInside(v.fat)
  {
    LinksStayInside(v.fat, cat.chains, cat.owner);
  }

  /** The image writer: as Write, but a new entry is looked for after growing, and no entry is reset. */
  ghost function ImageWrite(v: Volume, g: Geometry, cat: Catalog, path: cstring, data: seq<byte>): (o: Outcome)
    requires Sound(v, g, cat) && Small(g) && |data| < WORD
  {
    var t := FileTarget(v, g, cat, path);
    match t
    case Bad(rc) => Outcome(rc, [])
    case Present(_, r) =>
      var s := SlotAt(v, g, r);
      if IsDir(s) then Outcome(Exists, [])
      else
        ReadyOver(v, g, cat, r);
        var pre := FreeHead(v, Head(s));
        ReadyShape(Run(v, g, pre), g, Truncated(cat, r), r, Name(s));
        var o := ImageFill(Run(v, g, pre), g, Some(r), Name(s), data);
        Outcome(o.rc, pre + o.ops)
    case Missing(d) =>
      UnitsOk(v, g, cat, None, d);
      SoundLinks(v, g, cat);
      ImageFill(v, g, SearchVacant(v, DirUnits(cat, d)), FileName(SplitPath(path).leaf).value, data)
  }

  /** The two writers return the same code, and on success make the same updates. */
  lemma WritersAgree(v: Volume, g: Geometry, cat: Catalog, path: cstring, data: seq<byte>)
    requires Sound(v, g, cat) && Small(g) && |data| < WORD
    ensures ImageWrite(v, g, cat, path, data).rc == Write(v, g, cat, path, data).rc
    ensures ImageWrite(v, g, cat, path, data).rc == Okay ==>
              ImageWrite(v, g, cat, path, data).ops == Write(v, g, cat, path, data).ops
  {
    hide SoundBut, Locate, SplitPath, Grow, Run, FreeOps, LinksInside, Ready, SearchVacant, SlotAt, IsDir, Head, Name,
         MakeEntry, UndoneOps;
  }

  /** Grow a chain, then either name it or undo it. */
  method FillInImage(image: array<byte>, g: Geometry, d: nat, ghost us: seq<nat>, known: Option<Ref>, leaf: name83,
                     data: seq<byte>)
    returns (rc: Rc)
    requires Fits(image[..], g) && Small(g) && LinksInside(ViewIn(image, g).fat) && |data| < WORD
    requires known.Some? ==>
               known.value.unit < g.Entries() && known.value.unit != 1 &&
                 SLOT * known.value.index + SLOT <= g.UnitLen(known.value.unit)
    requires known.None? ==> DirWalk(ViewIn(image, g), g, us, d) && 1 !in us
    modifies image
    ensures Fits(image[..], g)
    ensures Shaped(old(ViewIn(image, g)), g)
    ensures var v := old(ViewIn(image, g));
            var r := if known.Some? then known else SearchVacant(v, us);
            var o := ImageFill(v, g, r, leaf, data);
            rc == o.rc && OpsOk(o.ops, g) && image[..] == RunBytes(old(image[..]), g, o.ops)
  {
    hide View, UnitOf, RunBytes, ApplyBytes, Run, FreeOps, LinksInside, OpsOk, Grow, MakeEntry, DirWalk, SearchVacant;
    ghost var img, v := image[..], ViewIn(image, g);
    ghost var gr := Grow(v, g, [], data);
    if known.None? {
      GrowKeepsWalk(v, g, us, d, data);
      VacantPlace(v, g, us, d);
    }
    GrowLinksInside(v, g, [], data);
    var first, full := GrowInImage(image, g, data);
    ViewRun(img, g, gr.ops);
    ghost var grown := image[..];
    var place := known;
    if !full && known.None? {
      place := FindVacant(image, g, d, us);
    }
    if full || place.None? {
      RunBytesNil(grown, g);
      if first != 0 {
        ReleaseChain(image, g, first);
      }
      RunBytesConcat(img, g, gr.ops, FreeHead(View(grown, g), first));
      return NoSpace;
    }
    PutEntry(image, g, place.value, MakeEntry(leaf, 0, first, |data|));
    OneMore(img, g, gr.ops, PutSlot(place.value, MakeEntry(leaf, 0, first, |data|)));
    rc := Okay;
  }

  lemma VacantPlace(v: Volume, g: Geometry, us: seq<nat>, d: nat)
    requires DirWalk(v, g, us, d) && 1 !in us
    ensures var f := SearchVacant(v, us);
            f.Some? ==> && f.value.unit < g.Entries() && f.value.unit != 1
                        && SLOT * f.value.index + SLOT <= g.UnitLen(f.value.unit)
  {
    var m := VacantUnits(v, g, us);
  }

  method WriteFileInImage(image: array<byte>, ghost cat: Catalog, path: cstring, data: seq<byte>) returns (rc: Rc)
    requires SECTOR <= image.Length ==> Loaded(image[..], cat)
    requires |data| < WORD
    modifies image
    ensures image.Length < SECTOR ==> rc == Invalid && image[..] == old(image[..])
    ensures SECTOR <= image.Length ==>
              match ImageGeometry(old(image[..]))
              case None => rc == Invalid && image[..] == old(image[..])
              case Some(g) =>
                Small(g) &&
                var o := ImageWrite(View(old(image[..]), g), g, cat, path, data);
                rc == o.rc && OpsOk(o.ops, g) && image[..] == RunBytes(old(image[..]), g, o.ops)
  {
    hide View, UnitOf, RunBytes, ApplyBytes, Run, SoundBut, Resolve, Search, SearchVacant, Components, SlotAt, Named,
         ParseBpb, GeometryOf, SplitPath, FileName, IsDir, OpsOk, Ready, LinksInside, FreeOps, Head, Name, Grow,
         MakeEntry, DirWalk, ImageFill;
    if image.Length < SECTOR {
      return Invalid;
    }
    var bpb := ParseBpb(image[..SECTOR]);
    assert image[..SECTOR] == image[..][..SECTOR];
    if bpb.None? {
      return Invalid;
    }
    var g := GeometryOf(bpb.value, bpb.value.totalSectors);
    ghost var img, v := image[..], View(image[..], g);
    RunBytesNil(image[..], g);
    OkSmall(g, image.Length / SECTOR);
    var sp := SplitCreatePath(path);
    if sp.NoSplit? {
      return Invalid;
    }
    var name := MakeFileName(sp.leaf);
    if name.None? {
      return Invalid;
    }
    FileNamePlain(sp.leaf);
    var t, entry := LocateInImage(image, g, cat, sp, name.value);
    if t.Bad? {
      return t.rc;
    }
    if t.Present? {
      if IsDir(entry) {
        return Exists;
      }
      ReadyOver(v, g, cat, t.ref);
      SlotUnit(v, g, cat, None, t.ref);
      ghost var pre := FreeHead(v, Head(entry));
      ViewRun(img, g, pre);
      ReadyShape(Run(v, g, pre), g, Truncated(cat, t.ref), t.ref, Name(entry));
      if Head(entry) != 0 {
        ReleaseChain(image, g, Head(entry));
      }
      rc := FillInImage(image, g, 0, [], Some(t.ref), name.value, data);
      RunBytesConcat(img, g, pre, ImageFill(Run(v, g, pre), g, Some(t.ref), Name(entry), data).ops);
    } else {
      SoundLinks(v, g, cat);
      SoundWalk(v, g, cat, t.dir);
      NoUnitOne(v, g, cat, t.dir);
      rc := FillInImage(image, g, t.dir, DirUnits(cat, t.dir), None, name.value, data);
    }
  }

  lemma NoUnitOne(v: Volume, g: Geometry, cat: Catalog, d: nat)
    requires Sound(v, g, cat) && Dir(d) in cat.chains
    ensures 1 !in DirUnits(cat, d)
  {
    if d != 0 {
      assert IsChain(v.fat, cat.chains[Dir(d)]);
    }
  }

  // ----- the twins agree -----

  lemma BootSector(sectors: seq<sector>)
    requires 0 < |sectors|
    ensures FlatOf(sectors)[..SECTOR] == sectors[0]
  {}

  /**
   Run on a device and on an image with the same bytes and the same sector total,
   the two implementations return the same code and leave the same bytes.
   */
  method CreateDirOnBoth(dev: BlockDevice, image: array<byte>, ghost cat: Catalog, path: cstring)
    returns (rc: Rc, rc': Rc)
    requires Mounted(dev.sectors, cat) && image[..] == dev.Flat()
    requires ParseBpb(dev.sectors[0]).Some? ==> ParseBpb(dev.sectors[0]).value.totalSectors == |dev.sectors|
    modifies dev, image
    ensures rc == rc' && image[..] == dev.Flat()
  {
    hide View, FlatOf, RunBytes, SoundBut, Mkdir, ParseBpb, GeometryOf, LosesDir;
    BootSector(dev.sectors);
    ghost var cat';
    rc, cat' := CreateDirOnDevice(dev, cat, path);
    rc' := CreateDirInImage(image, cat, path);
  }

  /** For writes the codes agree always and the bytes whenever the write succeeds. */
  method WriteFileOnBoth(dev: BlockDevice, image: array<byte>, ghost cat: Catalog, path: cstring, data: seq<byte>)
    returns (rc: Rc, rc': Rc)
    requires Mounted(dev.sectors, cat) && image[..] == dev.Flat() && |data| < WORD
    requires ParseBpb(dev.sectors[0]).Some? ==> ParseBpb(dev.sectors[0]).value.totalSectors == |dev.sectors|
    modifies dev, image
    ensures rc == rc' && (rc == Okay ==> image[..] == dev.Flat())
  {
    hide View, FlatOf, RunBytes, SoundBut, Write, ImageWrite, ParseBpb, GeometryOf, LosesFile;
    BootSector(dev.sectors);
    if Mounting(dev.sectors).Some? {
      OkSmall(Mounting(dev.sectors).value, |dev.sectors|);
      WritersAgree(View(dev.Flat(), Mounting(dev.sectors).value), Mounting(dev.sectors).value, cat, path, data);
    }
    ghost var cat';
    rc, cat' := WriteFileOnDevice(dev, cat, path, data);
    rc' := WriteFileInImage(image, cat, path, data);
  }
}
