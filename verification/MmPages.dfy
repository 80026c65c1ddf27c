/** The page bitmap of the memory manager. */
module MmPages {
  import opened Bytes

  const PAGE := 4096
  const MAX_PAGES := 16384
  const LOW_MEMORY_LIMIT := 0x10_0000

  // ----- counting -----

  function Count(s: seq<bool>): (n: nat)
    ensures n <= |s|
  {
    if s == [] then 0 else Count(s[..|s| - 1]) + if s[|s| - 1] then 1 else 0
  }

  lemma {:induction false} CountUpdate(s: seq<bool>, i: nat, b: bool)
    requires i < |s|
    ensures Count(s[i := b]) == Count(s) + (if b then 1 else 0) - (if s[i] then 1 else 0)
  {
    var last := |s| - 1;
    var t := s[i := b];
    if i < last {
      assert t[..last] == s[..last][i := b];
      CountUpdate(s[..last], i, b);
    } else {
      assert t[..last] == s[..last];
    }
  }

  lemma {:induction false} CountAll(s: seq<bool>)
    requires forall i :: 0 <= i < |s| ==> s[i]
    ensures Count(s) == |s|
  {
    if s != [] {
      CountAll(s[..|s| - 1]);
    }
  }

  // ----- runs of free pages -----

  ghost predicate FreeRun(used: seq<bool>, start: nat, count: nat) {
    start + count <= |used| && forall p :: start <= p < start + count ==> !used[p]
  }

  /** The lowest run of `count` free pages from page `t` on. */
  ghost function LowestRun(used: seq<bool>, t: nat, count: nat): (r: Option<nat>)
    ensures r.Some? ==> && t <= r.value && FreeRun(used, r.value, count)
                        && forall s :: t <= s < r.value ==> !FreeRun(used, s, count)
    ensures r.None? ==> forall s :: t <= s ==> !FreeRun(used, s, count)
    decreases |used| - t
  {
    if |used| < t + count then None
    else if FreeRun(used, t, count) then Some(t)
    else if |used| == t then None
    else LowestRun(used, t + 1, count)
  }

  function Marked(used: seq<bool>, start: nat, count: nat, flag: bool): (r: seq<bool>)
    ensures |r| == |used|
    ensures forall p :: 0 <= p < |used| ==> r[p] == if start <= p < start + count then flag else used[p]
  {
    seq(|used|, p requires 0 <= p < |used| => if start <= p < start + count then flag else used[p])
  }

  // ----- what the boot loader reports -----

  datatype Range = Range(start: nat, end: nat)

  /** A 64-bit number. */
  type quad = n: nat | n < WORD * WORD

  datatype Region = Region(addr: quad, len: quad, kind: nat)

  /** The tags before the end tag. */
  datatype Tag = MemoryMap(entrySize: nat, regions: seq<Region>) | BootModule(start: nat, end: nat) | OtherTag

  datatype Boot = Multiboot(info: nat, size: nat, tags: seq<Tag>) | Floppy(info: nat) | Unknown

  /** The whole page lies in the range, below the limit of mapped memory. */
  predicate Within(r: Range, p: nat, limit: nat) {
    r.start < limit && r.start <= p * PAGE && (p + 1) * PAGE <= r.end && (p + 1) * PAGE <= limit
  }

  /** Some byte of the page lies in the range, below the limit of mapped memory. */
  predicate Touched(r: Range, p: nat, limit: nat) {
    r.start < limit && r.start < (p + 1) * PAGE && p * PAGE < r.end && p * PAGE < limit
  }

  ghost predicate OnPage(a: nat, p: nat) {
    p * PAGE <= a < (p + 1) * PAGE
  }

  /** A page is within a range exactly if each of its bytes is, and below the limit. */
  lemma WithinMeans(r: Range, p: nat, limit: nat)
    ensures Within(r, p, limit) <==> forall a: nat :: OnPage(a, p) ==> r.start <= a < r.end && a < limit
  {
    if forall a: nat :: OnPage(a, p) ==> r.start <= a < r.end && a < limit {
      assert OnPage(p * PAGE, p) && OnPage((p + 1) * PAGE - 1, p);
    }
  }

  /** A range that starts below the limit touches a page exactly if they share a byte. */
  lemma TouchedMeans(r: Range, p: nat, limit: nat)
    requires r.start < r.end && r.start < limit && p * PAGE < limit
    ensures Touched(r, p, limit) <==> exists a: nat :: OnPage(a, p) && r.start <= a < r.end
  {
    if Touched(r, p, limit) {
      assert OnPage(if r.start < p * PAGE then p * PAGE else r.start, p);
    }
  }

  ghost predicate AnyWithin(rs: seq<Range>, p: nat, limit: nat) {
    exists i :: 0 <= i < |rs| && Within(rs[i], p, limit)
  }

  ghost predicate AnyTouched(rs: seq<Range>, p: nat, limit: nat) {
    exists i :: 0 <= i < |rs| && Touched(rs[i], p, limit)
  }

  /** A usable region as a 32-bit range; one that reaches 4 GiB ends at 0 after the cast. */
  function UsableRange(g: Region): seq<Range> {
    if g.kind == 1 && g.addr < WORD then
      var end := (g.addr + g.len) % (WORD * WORD);
      [Range(g.addr, (if end > WORD then WORD else end) % WORD)]
    else []
  }

  function UsableRegions(gs: seq<Region>): seq<Range> {
    if gs == [] then [] else UsableRange(gs[0]) + UsableRegions(gs[1..])
  }

  /** A memory map with undersized entries ends the search for usable memory. */
  function UsableTags(tags: seq<Tag>): seq<Range> {
    if tags == [] then []
    else
      match tags[0]
      case MemoryMap(entrySize, regions) => if entrySize < 24 then []
        else UsableRegions(regions) + UsableTags(tags[1..])
      case BootModule(_, _) => UsableTags(tags[1..])
      case OtherTag => UsableTags(tags[1..])
  }

  function ModuleRanges(tags: seq<Tag>): seq<Range> {
    if tags == [] then []
    else
      match tags[0]
      case MemoryMap(_, _) => ModuleRanges(tags[1..])
      case BootModule(start, end) => (if start < end then [Range(start, end)] else []) + ModuleRanges(tags[1..])
      case OtherTag => ModuleRanges(tags[1..])
  }

  function Usable(boot: Boot, limit: nat): seq<Range> {
    match boot
    case Multiboot(info, _, tags) => if info != 0 then UsableTags(tags) else [Range(LOW_MEMORY_LIMIT, limit)]
    case Floppy(_) => [Range(LOW_MEMORY_LIMIT, limit)]
    case Unknown => [Range(LOW_MEMORY_LIMIT, limit)]
  }

  /** Low memory, the kernel, the boot information and the boot modules. */
  function Reserved(boot: Boot, kernel: Range): seq<Range> {
    [Range(0, LOW_MEMORY_LIMIT), kernel] +
    match boot
    case Multiboot(info, size, tags) => if info != 0 then [Range(info, info + size)] + ModuleRanges(tags) else []
    case Floppy(info) => if info != 0 then [Range(info, info + PAGE)] else []
    case Unknown => []
  }

  // ----- what that means for a page -----

  /** The page lies in usable memory of the `j`-th region of the `i`-th tag, and no map up to there is undersized. */
  ghost predicate RamAt(tags: seq<Tag>, i: nat, j: nat, p: nat, limit: nat) {
    && i < |tags| && tags[i].MemoryMap? && j < |tags[i].regions|
    && (forall k :: 0 <= k <= i && tags[k].MemoryMap? ==> 24 <= tags[k].entrySize)
    && var g := tags[i].regions[j];
       && g.kind == 1 && g.addr + g.len < WORD
       && g.addr <= p * PAGE && (p + 1) * PAGE <= g.addr + g.len && (p + 1) * PAGE <= limit
  }

  /**
   A page reported as memory: by a memory map if the boot loader passed one,
   otherwise everything above low memory.  A region that reaches 4 GiB counts for
   nothing.
   */
  ghost predicate UsablePage(boot: Boot, p: nat, limit: nat) {
    if boot.Multiboot? && boot.info != 0 then exists i: nat, j: nat :: RamAt(boot.tags, i, j, p, limit)
    else LOW_MEMORY_LIMIT <= p * PAGE && (p + 1) * PAGE <= limit
  }

  ghost predicate ModuleAt(tags: seq<Tag>, i: nat, p: nat, limit: nat) {
    && i < |tags| && tags[i].BootModule? && tags[i].start < tags[i].end
    && Touched(Range(tags[i].start, tags[i].end), p, limit)
  }

  /** A page with a byte of low memory, the kernel, the boot information or a boot module. */
  ghost predicate ReservedPage(boot: Boot, kernel: Range, p: nat, limit: nat) {
    || (p * PAGE < LOW_MEMORY_LIMIT && p * PAGE < limit)
    || Touched(kernel, p, limit)
    || match boot
       case Multiboot(info, size, tags) =>
         info != 0 && (Touched(Range(info, info + size), p, limit) || exists i: nat :: ModuleAt(tags, i, p, limit))
       case Floppy(info) => info != 0 && Touched(Range(info, info + PAGE), p, limit)
       case Unknown => false
  }

  lemma {:induction false} RegionsMean(gs: seq<Region>, p: nat, limit: nat)
    ensures AnyWithin(UsableRegions(gs), p, limit) <==>
            exists j :: 0 <= j < |gs| && gs[j].kind == 1 && gs[j].addr + gs[j].len < WORD &&
                        Within(Range(gs[j].addr, gs[j].addr + gs[j].len), p, limit)
  {
    if gs != [] {
      RegionsMean(gs[1..], p, limit);
      AnyWithinMore(UsableRange(gs[0]), UsableRegions(gs[1..]), limit);
      RegionMeans(gs[0], p, limit);
      assert forall j :: 1 <= j < |gs| ==> gs[j] == gs[1..][j - 1];
    }
  }

  lemma RegionMeans(g: Region, p: nat, limit: nat)
    ensures AnyWithin(UsableRange(g), p, limit) <==>
            g.kind == 1 && g.addr + g.len < WORD && Within(Range(g.addr, g.addr + g.len), p, limit)
  {
    var rs := UsableRange(g);
    AnyWithinMore([], rs, limit);
    if g.kind == 1 && g.addr < WORD {
      assert rs[0].start == g.addr;
      assert g.addr + g.len < WORD ==> rs[0].end == g.addr + g.len;
      assert g.addr + g.len >= WORD ==> rs[0].end <= g.addr;
    }
  }

  /** A page inside a usable region below the limit is taken as memory exactly if the region ends below 4 GiB. */
  lemma RegionExact(g: Region, p: nat, limit: nat)
    requires g.kind == 1 && g.addr <= p * PAGE && (p + 1) * PAGE <= g.addr + g.len && (p + 1) * PAGE <= limit
    ensures AnyWithin(UsableRange(g), p, limit) <==> g.addr + g.len < WORD
  {
    RegionMeans(g, p, limit);
  }

  /** Memory from 1 MiB to 4 GiB in one region: no page is taken as memory. */
  lemma RegionWitness() returns (boot: Boot)
    ensures boot.Multiboot? && boot.info != 0 && |boot.tags| == 1 && boot.tags[0].MemoryMap?
    ensures boot.tags[0].entrySize == 24 && boot.tags[0].regions == [Region(0x10_0000, WORD - 0x10_0000, 1)]
    ensures forall p: nat, limit: nat :: !UsablePage(boot, p, limit)
  {
    boot := Multiboot(0x1_0000, 64, [MemoryMap(24, [Region(0x10_0000, WORD - 0x10_0000, 1)])]);
  }

  lemma {:induction false} TagsMean(tags: seq<Tag>, p: nat, limit: nat)
    ensures AnyWithin(UsableTags(tags), p, limit) <==> exists i: nat, j: nat :: RamAt(tags, i, j, p, limit)
  {
    hide UsableRegions, Within;
    if tags != [] {
      TagsMean(tags[1..], p, limit);
      FirstTag(tags, p, limit);
      if tags[0].MemoryMap? && tags[0].entrySize >= 24 {
        AnyWithinMore(UsableRegions(tags[0].regions), UsableTags(tags[1..]), limit);
      }
    }
  }

  /** The tags behind the first count exactly if that is not an undersized map. */
  lemma FirstTag(tags: seq<Tag>, p: nat, limit: nat)
    requires tags != []
    ensures (exists i: nat, j: nat :: RamAt(tags, i, j, p, limit)) <==>
            && !(tags[0].MemoryMap? && tags[0].entrySize < 24)
            && (|| (tags[0].MemoryMap? && AnyWithin(UsableRegions(tags[0].regions), p, limit))
                || exists i: nat, j: nat :: RamAt(tags[1..], i, j, p, limit))
  {
    if tags[0].MemoryMap? {
      RegionsMean(tags[0].regions, p, limit);
    }
    forall i: nat, j: nat
      ensures i > 0 && !(tags[0].MemoryMap? && tags[0].entrySize < 24) ==>
                (RamAt(tags, i, j, p, limit) <==> RamAt(tags[1..], i - 1, j, p, limit))
    {
      assert forall k :: 1 <= k < |tags| ==> tags[k] == tags[1..][k - 1];
    }
    if tags[0].MemoryMap? && tags[0].entrySize >= 24 && AnyWithin(UsableRegions(tags[0].regions), p, limit) {
      var j :| 0 <= j < |tags[0].regions| && tags[0].regions[j].kind == 1 &&
               tags[0].regions[j].addr + tags[0].regions[j].len < WORD &&
               Within(Range(tags[0].regions[j].addr, tags[0].regions[j].addr + tags[0].regions[j].len), p, limit);
      assert RamAt(tags, 0, j, p, limit);
    }
    if i: nat, j: nat :| RamAt(tags[1..], i, j, p, limit) {
      assert !(tags[0].MemoryMap? && tags[0].entrySize < 24) ==> RamAt(tags, i + 1, j, p, limit);
    }
  }

  lemma {:induction false} ModulesMean(tags: seq<Tag>, p: nat, limit: nat)
    ensures AnyTouched(ModuleRanges(tags), p, limit) <==> exists i: nat :: ModuleAt(tags, i, p, limit)
  {
    if tags != [] {
      ModulesMean(tags[1..], p, limit);
      var first: seq<Range> := if tags[0].BootModule? && tags[0].start < tags[0].end
      then [Range(tags[0].start, tags[0].end)] else [];
      assert ModuleRanges(tags) == first + ModuleRanges(tags[1..]);
      AnyTouchedMore(first, ModuleRanges(tags[1..]), limit);
      AnyTouchedMore([], first, limit);
      forall i: nat
        ensures i > 0 ==> (ModuleAt(tags, i, p, limit) <==> ModuleAt(tags[1..], i - 1, p, limit))
      {
      }
      assert ModuleAt(tags, 0, p, limit) <==> AnyTouched(first, p, limit);
      if i: nat :| ModuleAt(tags[1..], i, p, limit) {
        assert ModuleAt(tags, i + 1, p, limit);
      }
    }
  }

  lemma UsableMeans(boot: Boot, p: nat, limit: nat)
    ensures AnyWithin(Usable(boot, limit), p, limit) <==> UsablePage(boot, p, limit)
  {
    hide UsableTags, RamAt;
    if boot.Multiboot? {
      TagsMean(boot.tags, p, limit);
    }
    AnyWithinMore([], [Range(LOW_MEMORY_LIMIT, limit)], limit);
  }

  lemma ReservedMeans(boot: Boot, kernel: Range, p: nat, limit: nat)
    requires 0 < limit
    ensures AnyTouched(Reserved(boot, kernel), p, limit) <==> ReservedPage(boot, kernel, p, limit)
  {
    hide ModuleRanges, ModuleAt;
    var low, rest := Range(0, LOW_MEMORY_LIMIT), Reserved(boot, kernel)[2..];
    assert Reserved(boot, kernel) == [low] + [kernel] + rest;
    AnyTouchedMore([], [low], limit);
    AnyTouchedMore([low], [kernel], limit);
    AnyTouchedMore([low] + [kernel], rest, limit);
    match boot {
      case Multiboot(info, size, tags) =>
        ModulesMean(tags, p, limit);
        AnyTouchedMore([], [Range(info, info + size)], limit);
        AnyTouchedMore([Range(info, info + size)], ModuleRanges(tags), limit);
      case Floppy(info) => AnyTouchedMore([], [Range(info, info + PAGE)], limit);
      case Unknown =>
    }
  }

  function AlignDown(x: nat, a: nat): nat
    requires a > 0
  {
    x / a * a
  }

  function AlignUp(x: nat, a: nat): nat
    requires a > 0
  {
    (x + a - 1) / a * a
  }

  class PageMap {
    const used: array<bool>
    var usedPages: nat
    var totalPages: nat

    ghost predicate Valid()
      reads this, used
    {
      used.Length == MAX_PAGES && usedPages == Count(used[..])
    }

    constructor ()
      ensures Valid() && fresh(used)
    {
      used := new bool[MAX_PAGES](_ => true);
      usedPages := MAX_PAGES;
      totalPages := 0;
      new;
      CountAll(used[..]);
    }

    method SetPageUsed(page: nat, flag: bool)
      requires Valid()
      modifies this`usedPages, used
      ensures Valid() && used[..] == if page < MAX_PAGES then old(used[..])[page := flag] else old(used[..])
    {
      if page >= MAX_PAGES || used[page] == flag {
        return;
      }
      CountUpdate(used[..], page, flag);
      used[page] := flag;
      usedPages := if flag then usedPages + 1 else usedPages - 1;
    }

    /** Mark a stretch of whole pages. */
    method MarkPages(start: nat, end: nat, flag: bool)
      requires Valid() && start % PAGE == 0 && end % PAGE == 0
      modifies this`usedPages, used
      ensures Valid()
      ensures forall p :: 0 <= p < MAX_PAGES ==> used[p] == if start <= p * PAGE < end then flag else old(used[p])
    {
      var addr := start;
      while addr < end
        invariant addr % PAGE == 0 && Valid() && addr <= if start <= end then end else start
        invariant forall p :: 0 <= p < MAX_PAGES ==> used[p] == if start <= p * PAGE < addr then flag else old(used[p])
        decreases end - addr
      {
        ghost var was := used[..];
        SetPageUsed(addr / PAGE, flag);
        assert forall p :: 0 <= p < MAX_PAGES ==> used[p] == if p == addr / PAGE then flag else was[p];
        addr := addr + PAGE;
      }
    }

    method MarkRangeFree(r: Range, limit: nat)
      requires Valid()
      modifies this`usedPages, used
      ensures Valid()
      ensures forall p :: 0 <= p < MAX_PAGES ==> used[p] == (old(used[p]) && !Within(r, p, limit))
    {
      if r.start >= limit {
        return;
      }
      var end := if r.end > limit then limit else r.end;
      MarkPages(AlignUp(r.start, PAGE), AlignDown(end, PAGE), false);
    }

    method MarkRangeUsed(r: Range, limit: nat)
      requires Valid()
      modifies this`usedPages, used
      ensures Valid()
      ensures forall p :: 0 <= p < MAX_PAGES ==> used[p] == (old(used[p]) || Touched(r, p, limit))
    {
      if r.start >= limit {
        return;
      }
      var end := if r.end > limit then limit else r.end;
      MarkPages(AlignDown(r.start, PAGE), AlignUp(end, PAGE), true);
    }

    method MarkUsableRegions(regions: seq<Region>, limit: nat)
      requires Valid()
      modifies this`usedPages, used
      ensures Valid()
      ensures forall p :: 0 <= p < MAX_PAGES ==>
                used[p] == (old(used[p]) && !AnyWithin(UsableRegions(regions), p, limit))
    {
      var i := 0;
      ghost var done: seq<Range> := [];
      assert regions[0..] == regions;
      while i < |regions|
        invariant 0 <= i <= |regions| && Valid() && UsableRegions(regions) == done + UsableRegions(regions[i..])
        invariant forall p :: 0 <= p < MAX_PAGES ==> used[p] == (old(used[p]) && !AnyWithin(done, p, limit))
      {
        var rs := UsableRange(regions[i]);
        assert regions[i..][1..] == regions[i + 1..];
        assert done + (rs + UsableRegions(regions[i + 1..])) == (done + rs) + UsableRegions(regions[i + 1..]);
        if rs != [] {
          MarkRangeFree(rs[0], limit);
        }
        AnyWithinMore(done, rs, limit);
        done := done + rs;
        i := i + 1;
      }
      assert done + UsableRegions([]) == done;
    }

    method MarkUsableTags(tags: seq<Tag>, limit: nat)
      requires Valid()
      modifies this`usedPages, used
      ensures Valid()
      ensures forall p :: 0 <= p < MAX_PAGES ==> used[p] == (old(used[p]) && !AnyWithin(UsableTags(tags), p, limit))
    {
      var i := 0;
      ghost var done: seq<Range> := [];
      assert tags[0..] == tags;
      while i < |tags|
        invariant 0 <= i <= |tags| && Valid() && UsableTags(tags) == done + UsableTags(tags[i..])
        invariant forall p :: 0 <= p < MAX_PAGES ==> used[p] == (old(used[p]) && !AnyWithin(done, p, limit))
      {
        assert tags[i..][1..] == tags[i + 1..];
        if tags[i].MemoryMap? {
          if tags[i].entrySize < 24 {
            assert done + [] == done;
            return;
          }
          ghost var rs := UsableRegions(tags[i].regions);
          assert done + (rs + UsableTags(tags[i + 1..])) == (done + rs) + UsableTags(tags[i + 1..]);
          MarkUsableRegions(tags[i].regions, limit);
          AnyWithinMore(done, rs, limit);
          done := done + rs;
        }
        i := i + 1;
      }
      assert done + UsableTags([]) == done;
    }

    method ReserveModules(tags: seq<Tag>, limit: nat)
      requires Valid()
      modifies this`usedPages, used
      ensures Valid()
      ensures forall p :: 0 <= p < MAX_PAGES ==> used[p] == (old(used[p]) || AnyTouched(ModuleRanges(tags), p, limit))
    {
      var i := 0;
      ghost var done: seq<Range> := [];
      assert tags[0..] == tags;
      while i < |tags|
        invariant 0 <= i <= |tags| && Valid() && ModuleRanges(tags) == done + ModuleRanges(tags[i..])
        invariant forall p :: 0 <= p < MAX_PAGES ==> used[p] == (old(used[p]) || AnyTouched(done, p, limit))
      {
        assert tags[i..][1..] == tags[i + 1..];
        if tags[i].BootModule? && tags[i].start < tags[i].end {
          var r := Range(tags[i].start, tags[i].end);
          assert done + ([r] + ModuleRanges(tags[i + 1..])) == (done + [r]) + ModuleRanges(tags[i + 1..]);
          MarkRangeUsed(r, limit);
          AnyTouchedMore(done, [r], limit);
          done := done + [r];
        } else {
          assert [] + ModuleRanges(tags[i + 1..]) == ModuleRanges(tags[i + 1..]);
        }
        i := i + 1;
      }
      assert done + ModuleRanges([]) == done;
    }

    /**
     After start-up a page is in use exactly when it does not lie within memory
     reported usable, or touches low memory, the kernel, the boot information or
     a boot module.
     */
    method Init(boot: Boot, kernel: Range, limit: nat)
      requires used.Length == MAX_PAGES && PAGE <= limit
      modifies this, used
      ensures Valid() && used[0] && totalPages == MAX_PAGES
      ensures forall p :: 0 <= p < MAX_PAGES ==>
                            used[p] == (!UsablePage(boot, p, limit) || ReservedPage(boot, kernel, p, limit))
    {
      var i := 0;
      while i < MAX_PAGES
        invariant 0 <= i <= MAX_PAGES && forall p :: 0 <= p < i ==> used[p]
      {
        used[i] := true;
        i := i + 1;
      }
      usedPages := MAX_PAGES;
      CountAll(used[..]);
      if boot.Multiboot? && boot.info != 0 {
        MarkUsableTags(boot.tags, limit);
      } else {
        MarkRangeFree(Range(LOW_MEMORY_LIMIT, limit), limit);
        AnyWithinMore([], [Range(LOW_MEMORY_LIMIT, limit)], limit);
      }
      ghost var low, more: seq<Range> := [Range(0, LOW_MEMORY_LIMIT), kernel], [];
      MarkRangeUsed(Range(0, LOW_MEMORY_LIMIT), limit);
      MarkRangeUsed(kernel, limit);
      if boot.Multiboot? && boot.info != 0 {
        MarkRangeUsed(Range(boot.info, boot.info + boot.size), limit);
        ReserveModules(boot.tags, limit);
        more := [Range(boot.info, boot.info + boot.size)] + ModuleRanges(boot.tags);
        AnyTouchedMore([], [Range(boot.info, boot.info + boot.size)], limit);
        AnyTouchedMore([Range(boot.info, boot.info + boot.size)], ModuleRanges(boot.tags), limit);
      } else if boot.Floppy? && boot.info != 0 {
        MarkRangeUsed(Range(boot.info, boot.info + PAGE), limit);
        more := [Range(boot.info, boot.info + PAGE)];
        AnyTouchedMore([], more, limit);
      }
      AnyTouchedMore([], [Range(0, LOW_MEMORY_LIMIT)], limit);
      AnyTouchedMore([Range(0, LOW_MEMORY_LIMIT)], [kernel], limit);
      assert low == [Range(0, LOW_MEMORY_LIMIT)] + [kernel];
      AnyTouchedMore(low, more, limit);
      assert Reserved(boot, kernel) == low + more;
      forall p | 0 <= p < MAX_PAGES
        ensures used[p] == (!UsablePage(boot, p, limit) || ReservedPage(boot, kernel, p, limit))
      {
        UsableMeans(boot, p, limit);
        ReservedMeans(boot, kernel, p, limit);
      }
      CountTotal();
    }

    method CountTotal()
      requires Valid()
      modifies this`totalPages
      ensures totalPages == MAX_PAGES
    {
      totalPages := 0;
      var i := 0;
      while i < MAX_PAGES
        invariant 0 <= i <= MAX_PAGES && totalPages == i - Count(used[..i])
      {
        assert used[..i + 1][..i] == used[..i];
        if !used[i] {
          totalPages := totalPages + 1;
        }
        i := i + 1;
      }
      assert used[..MAX_PAGES] == used[..];
      totalPages := totalPages + usedPages;
    }

    /** Take the lowest run of free pages; 0 exactly when there is none. */
    method AllocPages(count: nat) returns (addr: nat)
      requires Valid() && used[0]
      modifies this`usedPages, used
      ensures Valid() && used[0]
      ensures var run := if count == 0 then None else LowestRun(old(used[..]), 0, count);
              && (run.None? ==> addr == 0 && used[..] == old(used[..]))
              && (run.Some? ==>
                    addr != 0 && addr == run.value * PAGE && used[..] == Marked(old(used[..]), run.value, count, true))
    {
      if count == 0 {
        return 0;
      }
      ghost var was := used[..];
      var run, start, i := 0, 0, 0;
      while i < MAX_PAGES
        invariant 0 <= i <= MAX_PAGES && used[..] == was && Valid() && 0 <= run < count
        invariant run > 0 ==> start == i - run && start >= 0 && FreeRun(was, start, run)
        invariant i > run ==> was[i - run - 1]
        invariant run <= i && forall s :: 0 <= s && s + count <= i ==> !FreeRun(was, s, count)
      {
        if !used[i] {
          if run == 0 {
            start := i;
          }
          run := run + 1;
          if run == count {
            var j := 0;
            while j < count
              invariant 0 <= j <= count && Valid() && used[..] == Marked(was, start, j, true)
            {
              SetPageUsed(start + j, true);
              j := j + 1;
            }
            LowestIs(was, start, count);
            return start * PAGE;
          }
        } else {
          run := 0;
        }
        i := i + 1;
      }
      addr := 0;
    }

    /** Give pages back. */
    method FreePages(addr: nat, count: nat)
      requires Valid()
      modifies this`usedPages, used
      ensures Valid()
      ensures used[..] == if addr == 0 || addr % PAGE != 0 then old(used[..])
              else Marked(old(used[..]), addr / PAGE, count, false)
    {
      ghost var was := used[..];
      assert Marked(was, addr / PAGE, 0, false) == was;
      if addr == 0 || count == 0 || addr % PAGE != 0 {
        return;
      }
      var page, i := addr / PAGE, 0;
      while i < count && page + i < MAX_PAGES
        invariant 0 <= i <= count && Valid() && used[..] == Marked(was, page, i, false)
      {
        SetPageUsed(page + i, false);
        i := i + 1;
      }
    }
  }

  lemma AnyWithinMore(a: seq<Range>, b: seq<Range>, limit: nat)
    ensures forall p: nat :: AnyWithin(a + b, p, limit) <==> AnyWithin(a, p, limit) || AnyWithin(b, p, limit)
    ensures |b| == 1 ==> forall p: nat :: AnyWithin(b, p, limit) <==> Within(b[0], p, limit)
  {
    forall p: nat
      ensures AnyWithin(a + b, p, limit) <==> AnyWithin(a, p, limit) || AnyWithin(b, p, limit)
    {
      if i :| 0 <= i < |a| && Within(a[i], p, limit) {
        assert Within((a + b)[i], p, limit);
      }
      if i :| 0 <= i < |b| && Within(b[i], p, limit) {
        assert Within((a + b)[|a| + i], p, limit);
      }
    }
  }

  lemma AnyTouchedMore(a: seq<Range>, b: seq<Range>, limit: nat)
    ensures forall p: nat :: AnyTouched(a + b, p, limit) <==> AnyTouched(a, p, limit) || AnyTouched(b, p, limit)
    ensures |b| == 1 ==> forall p: nat :: AnyTouched(b, p, limit) <==> Touched(b[0], p, limit)
  {
    forall p: nat
      ensures AnyTouched(a + b, p, limit) <==> AnyTouched(a, p, limit) || AnyTouched(b, p, limit)
    {
      if i :| 0 <= i < |a| && Touched(a[i], p, limit) {
        assert Touched((a + b)[i], p, limit);
      }
      if i :| 0 <= i < |b| && Touched(b[i], p, limit) {
        assert Touched((a + b)[|a| + i], p, limit);
      }
    }
  }

  lemma LowestIs(used: seq<bool>, start: nat, count: nat)
    requires FreeRun(used, start, count) && forall s :: 0 <= s < start ==> !FreeRun(used, s, count)
    ensures LowestRun(used, 0, count) == Some(start)
  {}
}
