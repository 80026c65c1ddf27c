/**
 Driver modules: header check, placement in the boot arena, and activation, in
 which a module's registrations are staged and take effect together or not at all.
 */
module Modules {
  import opened Bytes
  import opened Paths
  import opened NameMatch

  const HEADER_SIZE := 32
  const IMAGE_LIMIT := 16384
  const ARENA_SIZE := 16384
  const MAX_LOADED := 16
  const FORMAT_VERSION := 1
  const API_VERSION := 3
  const ARCH := 1
  const FLAG_EXECUTABLE := 1

  // ----- headers -----

  datatype Header = Header(code: nat, memory: nat, entry: nat)

  /** The header of a module file of so many bytes, if it is acceptable. */
  function Validate(hdr: seq<byte>, bytes: nat): (r: Option<Header>)
    requires HEADER_SIZE <= bytes ==> HEADER_SIZE <= |hdr|
    ensures r.Some? ==>
              0 < r.value.code <= r.value.memory <= IMAGE_LIMIT && r.value.entry < r.value.code &&
                bytes == HEADER_SIZE + r.value.code
  {
    if bytes < HEADER_SIZE || bytes > HEADER_SIZE + IMAGE_LIMIT then None
    else
      var code, memory, entry := Le32(hdr, 16), Le32(hdr, 20), Le32(hdr, 24);
      if hdr[..4] != [0x53, 0x4D, 0x4F, 0x44] || Le16(hdr, 4) != FORMAT_VERSION || Le16(hdr, 6) != API_VERSION ||
         Le16(hdr, 8) != ARCH ||
         Le16(hdr, 10) != FLAG_EXECUTABLE || Le32(hdr, 12) != HEADER_SIZE || Le32(hdr, 28) != 0 ||
         code == 0 || code > IMAGE_LIMIT || memory < code || memory > IMAGE_LIMIT || entry >= code ||
           bytes != HEADER_SIZE + code
      then None
      else Some(Header(code, memory, entry))
  }

  // ----- services -----

  datatype Service = Uart | Rtc | Display | Input | IrqChip | Floppy

  /** A table of driver functions: who provides it, its interface version, and whether no entry is missing. */
  datatype Ops = Ops(provider: nat, abi: nat, complete: bool)

  function Abi(s: Service): nat {
    match s
    case Uart => 0
    case Rtc => 0
    case Display => 1
    case Input => 1
    case IrqChip => 1
    case Floppy => 1
  }

  predicate Usable(s: Service, ops: Option<Ops>) {
    ops.Some? && ops.value.complete && (s != Uart && s != Rtc ==> ops.value.abi == Abi(s))
  }

  /** Nothing may be missing in a table, and all but the two that are bare functions carry interface version 1. */
  lemma UsableMeans(s: Service, ops: Option<Ops>)
    ensures Usable(s, ops) <==> ops.Some? && ops.value.complete && (s in {Uart, Rtc} || ops.value.abi == 1)
  {}

  /** A module's entry point: the registrations it asks for, and what it returns. */
  datatype Behaviour = Behaviour(calls: seq<(Service, Option<Ops>)>, rc: int)

  /** The registrations that are accepted: the first usable one for each service nobody owns. */
  function Staged(active: map<Service, Ops>, calls: seq<(Service, Option<Ops>)>): (r: map<Service, Ops>)
    ensures forall s :: s in r ==> s !in active && (s, Some(r[s])) in calls && Usable(s, Some(r[s]))
  {
    if calls == [] then map[]
    else
      var before := Staged(active, calls[..|calls| - 1]);
      var (s, ops) := calls[|calls| - 1];
      if Usable(s, ops) && s !in active && s !in before then before[s := ops.value] else before
  }

  lemma {:induction false} StagedAll(active: map<Service, Ops>, calls: seq<(Service, Option<Ops>)>, i: nat)
    requires i < |calls| && Usable(calls[i].0, calls[i].1) && calls[i].0 !in active
    ensures calls[i].0 in Staged(active, calls)
  {
    if i < |calls| - 1 {
      StagedAll(active, calls[..|calls| - 1], i);
    }
  }

  /** The first usable registration for an unowned service is the one staged. */
  lemma {:induction false} StagedFirst(active: map<Service, Ops>, calls: seq<(Service, Option<Ops>)>, i: nat)
    requires i < |calls| && Usable(calls[i].0, calls[i].1) && calls[i].0 !in active
    requires forall k :: 0 <= k < i ==> calls[k].0 != calls[i].0 || !Usable(calls[k].0, calls[k].1)
    ensures calls[i].0 in Staged(active, calls) && Staged(active, calls)[calls[i].0] == calls[i].1.value
  {
    var front := calls[..|calls| - 1];
    if i < |calls| - 1 {
      StagedFirst(active, front, i);
    }
  }

  // ----- the arena -----

  datatype Image = Image(addr: nat, size: nat)

  function Aligned(n: nat): (r: nat)
    ensures n <= r < n + 16 && r % 16 == 0
  {
    (n + 15) / 16 * 16
  }

  /** Images in the arena: one behind the other, inside what is used of it. */
  ghost predicate Placed(images: seq<Image>, used: nat) {
    && used <= ARENA_SIZE && used % 16 == 0
    && (forall i :: 0 <= i < |images| ==> images[i].addr % 16 == 0 && images[i].addr + images[i].size <= used)
    && (forall i, j :: 0 <= i < j < |images| ==> images[i].addr + images[i].size <= images[j].addr)
  }

  /** The same file name, ignoring case. */
  predicate SameName(a: cstring, b: cstring) {
    |a| == |b| < NAME_CAP && forall i :: 0 <= i < |a| ==> Lower(a[i]) == Lower(b[i])
  }

  lemma SameNameMeans(a: cstring, b: cstring)
    ensures SameName(a, b) <==> |a| < 24 && LowerAll(a) == LowerAll(b)
  {
    if LowerAll(a) == LowerAll(b) {
      assert forall i :: 0 <= i < |a| ==> LowerAll(a)[i] == LowerAll(b)[i];
    }
  }

  /** One more image behind the others. */
  lemma PlacedMore(images: seq<Image>, used: nat, size: nat)
    requires Placed(images, used) && used + Aligned(size) <= ARENA_SIZE
    ensures Placed(images + [Image(used, size)], used + Aligned(size))
  {}

  class ModuleCore {
    var active: map<Service, Ops>
    var pending: map<Service, Ops>
    var inEntry: bool
    var loaded: nat
    const arena: array<byte>
    var used: nat
    var names: seq<cstring>
    ghost var images: seq<Image>

    ghost predicate Valid()
      reads this
    {
      && arena.Length == ARENA_SIZE && Placed(images, used) && loaded <= MAX_LOADED && |names| <= MAX_LOADED
      && pending == map[] && !inEntry
      && (forall i, j :: 0 <= i < j < |names| ==> !SameName(names[i], names[j]))
    }

    constructor ()
      ensures Valid() && active == map[] && loaded == 0 && images == [] && fresh(arena)
    {
      active, pending, inEntry, loaded, used, names, images := map[], map[], false, 0, 0, [], [];
      arena := new byte[ARENA_SIZE](_ => 0);
    }

    /** Ask for a service; refused outside an entry call, when unusable, and when somebody owns it. */
    method Register(s: Service, ops: Option<Ops>) returns (rc: int)
      modifies this`pending
      ensures var ok := inEntry && Usable(s, ops) && s !in active && s !in old(pending);
              rc == (if ok then 0 else -1) && pending == if ok then old(pending)[s := ops.value] else old(pending)
    {
      if !inEntry || !Usable(s, ops) || s in active || s in pending {
        return -1;
      }
      pending := pending[s := ops.value];
      rc := 0;
    }

    /** Run a module's entry point; its registrations all take effect, or none does. */
    method Activate(b: Behaviour) returns (rc: int)
      requires loaded < MAX_LOADED
      modifies this`active, this`pending, this`inEntry, this`loaded
      ensures rc == (if b.rc == 0 then 0 else -1) && pending == map[] && !inEntry
      ensures rc != 0 ==> active == old(active) && loaded == old(loaded)
      ensures rc == 0 ==> active == old(active) + Staged(old(active), b.calls) && loaded == old(loaded) + 1
      ensures forall s :: s in old(active) ==> s in active && active[s] == old(active)[s]
    {
      pending, inEntry := map[], true;
      var i := 0;
      while i < |b.calls|
        invariant 0 <= i <= |b.calls| && active == old(active) && inEntry && loaded == old(loaded)
        invariant pending == Staged(old(active), b.calls[..i])
      {
        assert b.calls[..i + 1][..i] == b.calls[..i];
        var _ := Register(b.calls[i].0, b.calls[i].1);
        i := i + 1;
      }
      assert b.calls[..i] == b.calls;
      inEntry := false;
      if b.rc != 0 {
        pending := map[];
        return -1;
      }
      active := active + pending;
      pending := map[];
      loaded := loaded + 1;
      rc := 0;
    }

    method NameLoaded(name: cstring) returns (r: bool)
      ensures r <==> exists i :: 0 <= i < |names| && SameName(name, names[i])
    {
      var i := 0;
      while i < |names|
        invariant 0 <= i <= |names| && forall k :: 0 <= k < i ==> !SameName(name, names[k])
      {
        if SameName(name, names[i]) {
          return true;
        }
        i := i + 1;
      }
      r := false;
    }

    /** Put code and cleared memory behind the images in the arena. */
    method Place(code: seq<byte>, memory: nat)
      requires arena.Length == ARENA_SIZE && |code| <= memory && used + memory <= ARENA_SIZE
      modifies arena
      ensures arena[used..used + memory] == code + Zeros(memory - |code|)
      ensures forall a :: 0 <= a < ARENA_SIZE && !(used <= a < used + memory) ==> arena[a] == old(arena[a])
    {
      ghost var want := code + Zeros(memory - |code|);
      var i := 0;
      while i < memory
        invariant 0 <= i <= memory
        invariant forall a :: 0 <= a < ARENA_SIZE ==>
                    arena[a] == if used <= a < used + i then want[a - used] else old(arena[a])
      {
        arena[used + i] := if i < |code| then code[i] else 0;
        i := i + 1;
      }
    }

    /** What no load changes: the bytes of the images already there, and who owns a service. */
    twostate predicate Kept()
      reads this, arena
    {
      && arena.Length == ARENA_SIZE && old(used) <= used <= ARENA_SIZE && old(images) <= images
      && (forall a :: 0 <= a < old(used) ==> arena[a] == old(arena[a]))
      && (forall s :: s in old(active) ==> s in active && active[s] == old(active)[s])
    }

    /** There is an entry left for the module, its file is good, and its entry point answers 0. */
    ghost predicate Loadable(file: seq<byte>, b: Behaviour)
      reads this
    {
      loaded < MAX_LOADED && Validate(file, |file|).Some? && b.rc == 0
    }

    /** Its memory fits behind the images in the arena. */
    ghost predicate ArenaRoom(file: seq<byte>)
      reads this
    {
      Validate(file, |file|).Some? && used + Aligned(Validate(file, |file|).value.memory) <= ARENA_SIZE
    }

    /** A name not too long for the table of names and not yet in it. */
    ghost predicate NameFree(name: cstring)
      reads this
    {
      |names| < MAX_LOADED && 0 < |name| < NAME_CAP && forall i :: 0 <= i < |names| ==> !SameName(name, names[i])
    }

    /** The module became resident behind the others: its code, then cleared memory. */
    twostate predicate Resident(file: seq<byte>)
      reads this, arena
    {
      var h := Validate(file, |file|);
      && arena.Length == ARENA_SIZE && h.Some? && |file| == HEADER_SIZE + h.value.code && h.value.code <= h.value.memory
      && images == old(images) + [Image(old(used), h.value.memory)] && old(used) + h.value.memory <= ARENA_SIZE
      && arena[old(used)..old(used) + h.value.memory] == file[HEADER_SIZE..] + Zeros(h.value.memory - h.value.code)
    }

    /** Load a module the boot loader brought. */
    method Preload(file: seq<byte>, name: cstring, b: Behaviour) returns (rc: int)
      requires Valid()
      modifies this, arena
      ensures Valid() && Kept() && rc in {0, -1}
      ensures rc == 0 <==> old(Loadable(file, b)) && old(NameFree(name)) && old(ArenaRoom(file))
      ensures rc == 0 ==> && active == old(active) + Staged(old(active), b.calls) && loaded == old(loaded) + 1
                          && Resident(file) && names == old(names) + [name]
      ensures rc != 0 ==> && active == old(active) && loaded == old(loaded)
                          && images == old(images) && names == old(names) && used == old(used)
    {
      hide Validate, Staged, Placed, SameName;
      PlacedBound(images, used);
      var known := NameLoaded(name);
      if loaded >= MAX_LOADED || |names| >= MAX_LOADED || known {
        return -1;
      }
      var h := Validate(file, |file|);
      if h.None? {
        return -1;
      }
      ValidateMeans(file);
      if |name| == 0 || |name| >= NAME_CAP {
        return -1;
      }
      var size := Aligned(h.value.memory);
      if size > ARENA_SIZE - used {
        return -1;
      }
      Place(file[HEADER_SIZE..], h.value.memory);
      rc := Activate(b);
      if rc != 0 {
        return -1;
      }
      PlacedMore(images, used, h.value.memory);
      images := images + [Image(used, h.value.memory)];
      used := used + size;
      NameNew(names, name);
      names := names + [name];
    }

    /** Load a module file; only on a floppy boot does it go into the arena, otherwise on the heap. */
    method LoadFile(file: seq<byte>, readOk: bool, floppyBoot: bool, heapOk: bool, b: Behaviour) returns (rc: int)
      requires Valid()
      modifies this, arena
      ensures Valid() && Kept() && rc in {0, -1} && names == old(names)
      ensures rc == 0 <==> old(Loadable(file, b)) && readOk && if floppyBoot then old(ArenaRoom(file)) else heapOk
      ensures rc == 0 ==> && active == old(active) + Staged(old(active), b.calls) && loaded == old(loaded) + 1
                          && (floppyBoot ==> Resident(file))
      ensures !floppyBoot ==> images == old(images) && used == old(used) && arena[..] == old(arena[..])
      ensures rc != 0 ==> active == old(active) && loaded == old(loaded) && images == old(images) && used == old(used)
    {
      hide Validate, Staged, Placed, SameName;
      PlacedBound(images, used);
      if loaded >= MAX_LOADED || !readOk {
        return -1;
      }
      var h := Validate(file, |file|);
      if h.None? {
        return -1;
      }
      ValidateMeans(file);
      var size := 0;
      if floppyBoot {
        size := Aligned(h.value.memory);
        if size > IMAGE_LIMIT - used {
          return -1;
        }
        Place(file[HEADER_SIZE..], h.value.memory);
      } else if !heapOk {
        return -1;
      }
      rc := Activate(b);
      if rc != 0 {
        return;
      }
      if floppyBoot {
        PlacedMore(images, used, h.value.memory);
        images := images + [Image(used, h.value.memory)];
        used := used + size;
      }
    }
  }

  lemma ValidateMeans(file: seq<byte>)
    requires Validate(file, |file|).Some?
    ensures var h := Validate(file, |file|).value;
            0 < h.code <= h.memory <= IMAGE_LIMIT && h.entry < h.code && |file| == HEADER_SIZE + h.code
  {}

  lemma PlacedBound(images: seq<Image>, used: nat)
    requires Placed(images, used)
    ensures used <= ARENA_SIZE
  {}

  lemma NameNew(names: seq<cstring>, name: cstring)
    requires forall i, j :: 0 <= i < j < |names| ==> !SameName(names[i], names[j])
    requires forall i :: 0 <= i < |names| ==> !SameName(name, names[i])
    ensures var more := names + [name]; forall i, j :: 0 <= i < j < |more| ==> !SameName(more[i], more[j])
  {
    forall i | 0 <= i < |names|
      ensures !SameName(names[i], name)
    {
      assert SameName(names[i], name) ==> SameName(name, names[i]);
    }
  }

  datatype Load =
    | BootModule(file: seq<byte>, name: cstring, behaviour: Behaviour)
    | ModuleFile(bytes: seq<byte>, readOk: bool, heapOk: bool, entry: Behaviour)

  /**
   Any sequence of loads: every image that became resident stays where it is,
   whole, inside the arena and apart from the others; no service changes owner.
   */
  method LoadAll(core: ModuleCore, loads: seq<Load>, floppyBoot: bool)
    requires core.Valid()
    modifies core, core.arena
    ensures core.Valid() && core.Kept()
  {
    hide Placed;
    PlacedBound(core.images, core.used);
    var i := 0;
    while i < |loads|
      invariant 0 <= i <= |loads| && core.Valid() && core.Kept()
    {
      label step:
      match loads[i] {
        case BootModule(file, name, b) => var _ := core.Preload(file, name, b);
        case ModuleFile(bytes, readOk, heapOk, b) => var _ := core.LoadFile(bytes, readOk, floppyBoot, heapOk, b);
      }
      assert core.Kept@step();
      i := i + 1;
    }
  }
}
