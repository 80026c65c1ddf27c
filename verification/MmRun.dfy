/** Allocation and release of heap memory and pages, over whole runs. */
module MmRun {
  import opened Bytes
  import opened MmPages
  import opened MmBlocks

  datatype Heap = Heap(bs: seq<Block>, total: nat, used: seq<bool>)

  /** A consistent heap; `pages` are the pages held by others. */
  ghost predicate Good(h: Heap, pages: set<nat>) {
    && |h.used| == MAX_PAGES && h.used[0]
    && Tight(h.bs) && AllApart(h.bs) && AllProper(h.bs) && InUse(h.bs, h.used) && Held(h.bs, h.used, pages)
    && Total(h.bs) == h.total
  }

  /** The first free block from index `i` on that is large enough. */
  function FirstFit(bs: seq<Block>, i: nat, n: nat): (r: Option<nat>)
    requires i <= |bs|
    ensures r.Some? ==> i <= r.value < |bs| && bs[r.value].free && n <= bs[r.value].size &&
                        forall k :: i <= k < r.value ==> !(bs[k].free && n <= bs[k].size)
    ensures r.None? ==> forall k :: i <= k < |bs| ==> !(bs[k].free && n <= bs[k].size)
    decreases |bs| - i
  {
    if i == |bs| then None else if bs[i].free && n <= bs[i].size then Some(i) else FirstFit(bs, i + 1, n)
  }

  function PagesFor(n: nat): (r: nat)
    ensures r > 0 && n + HEADER <= r * PAGE < n + HEADER + PAGE
  {
    (n + HEADER + PAGE - 1) / PAGE
  }

  datatype Grant = Grant(heap: Heap, ptr: nat)

  /** Take the first block that fits, or grow the heap by the lowest run of pages. */
  ghost function Malloc(h: Heap, size: nat): (r: Grant) {
    if size == 0 then Grant(h, 0)
    else
      var n := AlignUp(size, ALIGN);
      var f := FirstFit(h.bs, 0, n);
      if f.Some? then Grant(h.(bs := Carve(h.bs, f.value, n)), h.bs[f.value].Payload())
      else
        var run := LowestRun(h.used, 0, PagesFor(n));
        if run.None? then Grant(h, 0)
        else
          var bs := Extend(h.bs, run.value, PagesFor(n));
          Grant(Heap(Carve(bs, |bs| - 1, n), h.total + PagesFor(n) * PAGE,
                     Marked(h.used, run.value, PagesFor(n), true)),
                bs[|bs| - 1].Payload())
  }

  /** Free block `i` and merge it with its neighbours. */
  function Free(h: Heap, i: nat): Heap
    requires i < |h.bs|
  {
    h.(bs := Coalesce(h.bs[i := h.bs[i].(free := true)], i))
  }

  /** The payload of an allocated block was nobody's before. */
  ghost predicate Fresh(bs: seq<Block>, x: Block) {
    forall b :: b in bs && !b.free ==> Apart(b, x)
  }

  lemma FreshAt(bs: seq<Block>, i: nat, n: nat)
    requires AllApart(bs) && i < |bs| && bs[i].free && n <= bs[i].size
    ensures Fresh(bs, Carve(bs, i, n)[i])
  {
    hide Carve;
    CarveAt(bs, i, n);
    forall b | b in bs && !b.free
      ensures Apart(b, Carve(bs, i, n)[i])
    {
      var k :| 0 <= k < |bs| && bs[k] == b;
      assert k < i ==> Apart(bs[k], bs[i]);
      assert i < k ==> Apart(bs[i], bs[k]);
    }
  }

  lemma AlignUpMeans(size: nat)
    ensures size <= AlignUp(size, ALIGN) < size + ALIGN && AlignUp(size, ALIGN) % ALIGN == 0
  {}

  /**
   An allocation keeps the heap consistent.  It returns 0 exactly when no free
   block fits and there is no run of free pages; otherwise the block is aligned,
   large enough, apart from every live block, and the only change to the live ones.
   */
  lemma MallocKeeps(h: Heap, size: nat, pages: set<nat>) returns (x: Block)
    requires Good(h, pages) && size > 0
    ensures Good(Malloc(h, size).heap, pages)
    ensures var g, n := Malloc(h, size), AlignUp(size, ALIGN);
            && (g.ptr == 0 <==> FirstFit(h.bs, 0, n).None? && LowestRun(h.used, 0, PagesFor(n)).None?)
            && (g.ptr == 0 ==> g.heap == h)
            && (g.ptr != 0 ==>
                  && g.ptr == x.Payload() && g.ptr % ALIGN == 0 && x.size >= size && !x.free && x in g.heap.bs
                  && NewLive(h.bs, g.heap.bs, x) && Fresh(h.bs, x))
  {
    hide Tight, AllApart, InUse, Held, Total, NewLive, Fresh, Extend, Carve, AlignUp;
    AlignUpMeans(size);
    var n := AlignUp(size, ALIGN);
    var f := FirstFit(h.bs, 0, n);
    x := Block(0, 0, true);
    if f.Some? {
      CarveKeeps(h.bs, f.value, n, h.used, pages);
      FreshAt(h.bs, f.value, n);
      x := Carve(h.bs, f.value, n)[f.value];
      assert Proper(x);
    } else {
      var run := LowestRun(h.used, 0, PagesFor(n));
      if run.Some? {
        var s, count := run.value, PagesFor(n);
        ExtendKeeps(h.bs, s, count, h.used, pages);
        var bs := Extend(h.bs, s, count);
        var i := |bs| - 1;
        CarveKeeps(bs, i, n, Marked(h.used, s, count, true), pages);
        FreshAt(bs, i, n);
        x := Carve(bs, i, n)[i];
        assert Proper(x);
        LiveThrough(h.bs, bs, Carve(bs, i, n), x);
      }
    }
  }

  lemma MallocGood(h: Heap, size: nat, pages: set<nat>)
    requires Good(h, pages) && size > 0
    ensures Good(Malloc(h, size).heap, pages)
  {
    hide Good, Malloc;
    var _ := MallocKeeps(h, size, pages);
  }

  // ----- 32-bit arithmetic -----

  function AlignWord(size: nat): nat {
    AlignUp(size, ALIGN) % WORD
  }

  function PagesWord(n: nat): nat {
    ((n + HEADER) % WORD + PAGE - 1) % WORD / PAGE
  }

  ghost function RunFor(used: seq<bool>, count: nat): Option<nat> {
    if count == 0 then None else LowestRun(used, 0, count)
  }

  /** The pointer an allocation answers when its sizes are computed in 32 bits. */
  ghost function Pointer(h: Heap, size: nat): nat {
    if size == 0 then 0
    else
      var n := AlignWord(size);
      var f := FirstFit(h.bs, 0, n);
      if f.Some? then h.bs[f.value].Payload()
      else
        var count := PagesWord(n);
        var run := RunFor(h.used, count);
        if run.None? then 0 else var bs := Extend(h.bs, run.value, count); bs[|bs| - 1].Payload()
  }

  /** A request whose rounded size wraps around, when there is a page, or for the largest a block, to answer it with. */
  ghost predicate Wraps(h: Heap, size: nat) {
    && WORD - HEADER < size
    && (LowestRun(h.used, 0, 1).Some? || (WORD - ALIGN < size && exists i :: 0 <= i < |h.bs| && h.bs[i].free))
  }

  lemma WordSizes(size: nat)
    requires 0 < size < WORD
    ensures size <= WORD - PAGE - HEADER ==>
              AlignWord(size) == AlignUp(size, ALIGN) && PagesWord(AlignWord(size)) == PagesFor(AlignWord(size))
    ensures WORD - PAGE - HEADER < size <= WORD - HEADER ==> AlignWord(size) >= size && PagesWord(AlignWord(size)) == 0
    ensures WORD - HEADER < size <= WORD - ALIGN ==> AlignWord(size) >= size && PagesWord(AlignWord(size)) == 1
    ensures WORD - ALIGN < size ==> AlignWord(size) == 0 && PagesWord(0) == 1
  {}

  /** A request larger than the memory is refused. */
  lemma HugeRefused(h: Heap, size: nat, pages: set<nat>)
    requires Good(h, pages) && MAX_PAGES * PAGE <= size
    ensures Malloc(h, size) == Grant(h, 0) && forall n :: size <= n ==> FirstFit(h.bs, 0, n).None?
  {
    hide Good, Carve, Extend;
    GoodParts(h, pages);
    AlignUpMeans(size);
    forall i | 0 <= i < |h.bs|
      ensures h.bs[i].size < size
    {
      BlockInside(h, pages, i);
    }
  }

  /**
   For requests that do not wrap so, the sizes are those of `Malloc`, or both the
   search and the growing fail and `Malloc` refuses too.
   */
  lemma WordMeans(h: Heap, size: nat, pages: set<nat>)
    requires Good(h, pages) && 0 < size < WORD && !Wraps(h, size)
    ensures var n := AlignWord(size);
            || (n == AlignUp(size, ALIGN) && PagesWord(n) == PagesFor(n))
            || (FirstFit(h.bs, 0, n).None? && RunFor(h.used, PagesWord(n)).None? && Malloc(h, size) == Grant(h, 0))
  {
    hide Good, Malloc, AlignWord, PagesWord, PagesFor, AlignUp;
    WordSizes(size);
    if WORD - PAGE - HEADER < size {
      HugeRefused(h, size, pages);
    }
  }

  /** The pointer is the right one exactly for the requests that do not wrap so. */
  lemma PointerExact(h: Heap, size: nat, pages: set<nat>)
    requires Good(h, pages) && size < WORD
    ensures Pointer(h, size) == Malloc(h, size).ptr <==> !Wraps(h, size)
  {
    hide Good, AlignWord, PagesWord, PagesFor, AlignUp;
    if size == 0 {
      return;
    }
    WordSizes(size);
    if Wraps(h, size) {
      HugeRefused(h, size, pages);
      PointerThere(h, size, pages);
    } else {
      WordMeans(h, size, pages);
    }
  }

  lemma PointerThere(h: Heap, size: nat, pages: set<nat>)
    requires Good(h, pages) && size < WORD && Wraps(h, size)
    ensures Pointer(h, size) > 0
  {
    hide Good, AlignWord, PagesWord, Extend;
    WordSizes(size);
  }

  /** A heap without blocks and with one free page answers a request for 4 GB less a byte with a pointer. */
  lemma WrapWitness() returns (h: Heap)
    ensures Good(h, {0}) && Malloc(h, WORD - 1).ptr == 0 < Pointer(h, WORD - 1)
  {
    h := Heap([], 0, seq(MAX_PAGES, i => i != 1));
    StartSane(h.used, {0});
    assert FreeRun(h.used, 1, 1);
    HugeRefused(h, WORD - 1, {0});
    PointerThere(h, WORD - 1, {0});
  }

  lemma LiveThrough(xs: seq<Block>, bs: seq<Block>, cs: seq<Block>, x: Block)
    requires SameLive(xs, bs) && NewLive(bs, cs, x) && Fresh(bs, x)
    ensures NewLive(xs, cs, x) && Fresh(xs, x)
  {}

  /** One live block less. */
  ghost predicate LostLive(bs: seq<Block>, cs: seq<Block>, x: Block) {
    forall b: Block :: !b.free ==> (b in cs <==> b in bs && b != x)
  }

  lemma FreedLive(bs: seq<Block>, i: nat)
    requires i < |bs| && !bs[i].free && AllApart(bs)
    ensures LostLive(bs, bs[i := bs[i].(free := true)], bs[i])
  {
    var cs := bs[i := bs[i].(free := true)];
    forall b: Block | !b.free
      ensures b in cs <==> b in bs && b != bs[i]
    {
      if b in bs && b != bs[i] {
        var k :| 0 <= k < |bs| && bs[k] == b;
        assert cs[k] == b;
      }
      if b in cs {
        var k :| 0 <= k < |cs| && cs[k] == b;
        assert k != i && bs[k] == b;
        assert if k < i then Apart(bs[k], bs[i]) else Apart(bs[i], bs[k]);
      }
    }
  }

  lemma FreedKeeps(bs: seq<Block>, i: nat, used: seq<bool>, pages: set<nat>)
    requires i < |bs| && Tight(bs) && AllApart(bs) && AllProper(bs) && InUse(bs, used) && Held(bs, used, pages)
    ensures var cs := bs[i := bs[i].(free := true)];
            TightBut(cs, i) && AllApart(cs) && AllProper(cs) && InUse(cs, used) && Held(cs, used, pages) &&
              Total(cs) == Total(bs)
  {
    var c := bs[i].(free := true);
    var cs := bs[i := c];
    forall k: nat | k != i && k + 1 != i
      ensures !Mergeable(cs, k)
    {
      assert !Mergeable(bs, k);
    }
    forall k, l | 0 <= k < l < |cs|
      ensures Apart(cs[k], cs[l])
    {
      assert Apart(bs[k], bs[l]);
    }
    forall p: nat | TouchedBy(cs, p)
      ensures TouchedBy(bs, p)
    {
      var k :| 0 <= k < |cs| && Touches(cs[k], p);
      assert Touches(bs[k], p);
    }
    assert forall k :: 0 <= k < |cs| ==> Proper(bs[k]) ==> Proper(cs[k]);
    MarkTotal(bs, i, c);
  }

  lemma MarkTotal(bs: seq<Block>, i: nat, c: Block)
    requires i < |bs| && c.size == bs[i].size
    ensures Total(bs[i := c]) == Total(bs)
  {
    hide Total;
    TotalOne(bs[i]);
    TotalOne(c);
    TotalReplace(bs[..i], [c], [bs[i]], bs[i + 1..]);
    assert bs == bs[..i] + [bs[i]] + bs[i + 1..];
    assert bs[i := c] == bs[..i] + [c] + bs[i + 1..];
  }

  /** A release keeps the heap consistent and takes away that live block only. */
  lemma FreeKeeps(h: Heap, i: nat, pages: set<nat>)
    requires Good(h, pages) && i < |h.bs| && !h.bs[i].free
    ensures Good(Free(h, i), pages) && LostLive(h.bs, Free(h, i).bs, h.bs[i])
  {
    hide Tight, AllApart, AllProper, InUse, Held, Total, Coalesce;
    FreedKeeps(h.bs, i, h.used, pages);
    FreedLive(h.bs, i);
    CoalesceKeeps(h.bs[i := h.bs[i].(free := true)], i, h.used, pages);
  }

  // ----- pages -----

  lemma PageGivenKeeps(h: Heap, s: nat, pages: set<nat>)
    requires Good(h, pages) && FreeRun(h.used, s, 1)
    ensures Good(h.(used := Marked(h.used, s, 1, true)), pages + {s}) && s !in pages
  {
    hide Tight, AllApart, AllProper, Total, TouchedBy;
  }

  lemma PageBackKeeps(h: Heap, s: nat, pages: set<nat>)
    requires Good(h, pages) && s in pages && s != 0
    ensures Good(h.(used := Marked(h.used, s, 1, false)), pages - {s})
  {
    hide Tight, AllApart, AllProper, Total, TouchedBy;
  }

  // ----- runs -----

  /** A call to the memory manager. */
  datatype Call = KMalloc(size: nat) | KFree(ptr: nat) | AllocPage | FreePage(page: nat)

  /** The heap, the size asked for at each live pointer, and the pages given to clients. */
  datatype Machine = Machine(h: Heap, want: map<nat, nat>, given: set<nat>)

  ghost predicate LiveIndex(bs: seq<Block>, i: nat, ptr: nat) {
    i < |bs| && !bs[i].free && bs[i].Payload() == ptr
  }

  /** One call, by clients that release only what they were given and ask for no size that wraps around. */
  ghost predicate Step(m: Machine, c: Call, m': Machine) {
    match c
    case KMalloc(size) =>
      var g := Malloc(m.h, size);
      size < WORD && !Wraps(m.h, size) &&
      m' == m.(h := g.heap, want := if g.ptr == 0 then m.want else m.want[g.ptr := size])
    case KFree(ptr) =>
      ptr in m.want && exists i: nat :: LiveIndex(m.h.bs, i, ptr) && m' == m.(h := Free(m.h, i), want := m.want - {ptr})
    case AllocPage =>
      var run := LowestRun(m.h.used, 0, 1);
      if run.None? then m' == m
      else m' == m.(h := m.h.(used := Marked(m.h.used, run.value, 1, true)), given := m.given + {run.value})
    case FreePage(s) =>
      s in m.given && m' == m.(h := m.h.(used := Marked(m.h.used, s, 1, false)), given := m.given - {s})
  }

  ghost predicate Granted(bs: seq<Block>, ptr: nat, size: nat) {
    exists b: Block :: b in bs && !b.free && b.Payload() == ptr && size <= b.size
  }

  /** The live blocks are those asked for, each at least as large as asked. */
  ghost predicate Wanted(bs: seq<Block>, want: map<nat, nat>) {
    && (forall ptr :: ptr in want ==> Granted(bs, ptr, want[ptr]))
    && (forall b: Block :: b in bs && !b.free ==> b.Payload() in want)
  }

  /** `base` are the pages reserved at start-up. */
  ghost predicate Sane(m: Machine, base: set<nat>) {
    && 0 in base && base !! m.given
    && Good(m.h, base + m.given) && Wanted(m.h.bs, m.want)
  }

  lemma WantedMore(bs: seq<Block>, cs: seq<Block>, want: map<nat, nat>, x: Block, size: nat)
    requires Wanted(bs, want) && NewLive(bs, cs, x) && !x.free && size <= x.size && Fresh(bs, x) && x in cs
    ensures Wanted(cs, want[x.Payload() := size])
  {
    var want' := want[x.Payload() := size];
    forall ptr | ptr in want'
      ensures Granted(cs, ptr, want'[ptr])
    {
      if ptr != x.Payload() {
        var b: Block :| b in bs && !b.free && b.Payload() == ptr && want[ptr] <= b.size;
        assert b in cs;
      }
    }
  }

  lemma WantedLess(bs: seq<Block>, cs: seq<Block>, want: map<nat, nat>, x: Block)
    requires Wanted(bs, want) && LostLive(bs, cs, x) && x in bs && AllApart(bs)
    ensures Wanted(cs, want - {x.Payload()})
  {
    var want' := want - {x.Payload()};
    forall ptr | ptr in want'
      ensures Granted(cs, ptr, want'[ptr])
    {
      var b: Block :| b in bs && !b.free && b.Payload() == ptr && want[ptr] <= b.size;
      assert b in cs;
    }
    forall b: Block | b in cs && !b.free
      ensures b.Payload() in want'
    {
      var k :| 0 <= k < |bs| && bs[k] == b;
      var i :| 0 <= i < |bs| && bs[i] == x;
      assert k < i ==> Apart(bs[k], bs[i]);
      assert i < k ==> Apart(bs[i], bs[k]);
    }
  }

  /** Every call keeps the machine sane, and no page reserved or already given out is given again. */
  lemma StepKeeps(m: Machine, c: Call, m': Machine, base: set<nat>)
    requires Sane(m, base) && Step(m, c, m')
    ensures Sane(m', base)
    ensures m'.given - m.given !! base
  {
    hide Good, Wanted, NewLive, Fresh, Malloc, LostLive, Free;
    match c {
      case KMalloc(size) =>
        if size > 0 {
          var x := MallocKeeps(m.h, size, base + m.given);
          if m'.want != m.want || m'.h != m.h {
            WantedMore(m.h.bs, m'.h.bs, m.want, x, size);
          }
        } else {
          MallocNothing(m.h);
        }
      case KFree(ptr) =>
        var i: nat :| LiveIndex(m.h.bs, i, ptr) && m' == m.(h := Free(m.h, i), want := m.want - {ptr});
        FreeKeeps(m.h, i, base + m.given);
        GoodApart(m.h, base + m.given);
        WantedLess(m.h.bs, m'.h.bs, m.want, m.h.bs[i]);
      case AllocPage =>
        var run := LowestRun(m.h.used, 0, 1);
        if run.Some? {
          PageGivenKeeps(m.h, run.value, base + m.given);
          assert base + m'.given == base + m.given + {run.value};
        }
      case FreePage(s) =>
        PageBackKeeps(m.h, s, base + m.given);
        assert base + m'.given == base + m.given - {s};
    }
  }

  lemma MallocNothing(h: Heap)
    ensures Malloc(h, 0) == Grant(h, 0)
  {}

  lemma GoodParts(h: Heap, held: set<nat>)
    requires Good(h, held)
    ensures |h.used| == MAX_PAGES && h.used[0] && Tight(h.bs)
    ensures AllApart(h.bs) && InUse(h.bs, h.used) && AllProper(h.bs) && Held(h.bs, h.used, held)
  {}

  lemma GoodApart(h: Heap, pages: set<nat>)
    requires Good(h, pages)
    ensures AllApart(h.bs)
  {}

  ghost predicate RunsTo(m: Machine, cs: seq<Call>, m': Machine)
    decreases |cs|
  {
    if cs == [] then m' == m else exists mid :: Step(m, cs[0], mid) && RunsTo(mid, cs[1..], m')
  }

  lemma {:induction false} RunKeeps(m: Machine, cs: seq<Call>, m': Machine, base: set<nat>)
    requires Sane(m, base) && RunsTo(m, cs, m')
    ensures Sane(m', base)
    decreases |cs|
  {
    hide Sane, Step;
    if cs != [] {
      var mid :| Step(m, cs[0], mid) && RunsTo(mid, cs[1..], m');
      StepKeeps(m, cs[0], mid, base);
      RunKeeps(mid, cs[1..], m', base);
    }
  }

  /** The heap starts empty, with every reserved page in use. */
  lemma StartSane(used: seq<bool>, base: set<nat>)
    requires |used| == MAX_PAGES && 0 in base && forall p :: p in base ==> p < MAX_PAGES && used[p]
    ensures Sane(Machine(Heap([], 0, used), map[], {}), base)
  {}

  /** What that means for two clients: they have disjoint memory of the size each asked for. */
  lemma SaneApart(m: Machine, base: set<nat>, p: nat, q: nat)
    requires Sane(m, base) && p in m.want && q in m.want && p != q
    ensures p + m.want[p] <= q || q + m.want[q] <= p
  {
    hide Good, Wanted, Proper;
    var i := LiveBlock(m.h.bs, m.want, p);
    var j := LiveBlock(m.h.bs, m.want, q);
    GoodApart(m.h, base + m.given);
    assert if i < j then Apart(m.h.bs[i], m.h.bs[j]) else Apart(m.h.bs[j], m.h.bs[i]);
  }

  /** And for each: memory of the size asked for, inside mapped memory and off every reserved or given page. */
  lemma SaneMeans(m: Machine, base: set<nat>, p: nat)
    requires Sane(m, base) && p in m.want
    ensures p % ALIGN == 0 && p + m.want[p] <= MAX_PAGES * PAGE
    ensures forall g :: g in base + m.given ==> p + m.want[p] <= g * PAGE || (g + 1) * PAGE <= p
  {
    hide Good, Wanted, Proper;
    var i := LiveBlock(m.h.bs, m.want, p);
    BlockInside(m.h, base + m.given, i);
  }

  lemma LiveBlock(bs: seq<Block>, want: map<nat, nat>, ptr: nat) returns (i: nat)
    requires Wanted(bs, want) && ptr in want
    ensures LiveIndex(bs, i, ptr) && want[ptr] <= bs[i].size
  {
    var b: Block :| b in bs && !b.free && b.Payload() == ptr && want[ptr] <= b.size;
    i :| i < |bs| && bs[i] == b;
  }

  lemma BlockInside(h: Heap, pages: set<nat>, i: nat)
    requires Good(h, pages) && i < |h.bs|
    ensures h.bs[i].Payload() % ALIGN == 0 && h.bs[i].End() <= MAX_PAGES * PAGE
    ensures forall g :: g in pages ==> h.bs[i].End() <= g * PAGE || (g + 1) * PAGE <= h.bs[i].addr
  {
    var b := h.bs[i];
    hide Tight, AllApart, Total, Held, Touches;
    PayloadAligned(h.bs, i);
    var last := LastPage(b);
    assert TouchedBy(h.bs, last);
    HeldApart(h.bs, h.used, pages, i);
  }

  lemma PayloadAligned(bs: seq<Block>, i: nat)
    requires AllProper(bs) && i < |bs|
    ensures bs[i].Payload() % ALIGN == 0
  {
    assert Proper(bs[i]);
  }

  /** The page of a block's last byte. */
  lemma LastPage(b: Block) returns (last: nat)
    ensures Touches(b, last) && b.End() <= (last + 1) * PAGE
  {
    last := (b.End() - 1) / PAGE;
  }

  lemma HeldApart(bs: seq<Block>, used: seq<bool>, pages: set<nat>, i: nat)
    requires Held(bs, used, pages) && i < |bs|
    ensures forall g :: g in pages ==> bs[i].End() <= g * PAGE || (g + 1) * PAGE <= bs[i].addr
  {
    var b := bs[i];
    forall g: nat | g in pages
      ensures b.End() <= g * PAGE || (g + 1) * PAGE <= b.addr
    {
      assert Touches(b, g) ==> TouchedBy(bs, g);
    }
  }

  /** The pages in use at start-up. */
  ghost function UsedAt(used: seq<bool>): set<nat>
    requires |used| == MAX_PAGES
  {
    set p: nat | p < MAX_PAGES && used[p]
  }

  /**
   Whatever the run, no page that touches low memory, the kernel, the boot
   information or a boot module is free, given to a client or part of the heap.
   */
  lemma ReservedNeverGiven(used: seq<bool>, boot: Boot, kernel: Range, limit: nat, cs: seq<Call>, m: Machine, p: nat)
    requires |used| == MAX_PAGES && used[0] && p < MAX_PAGES && ReservedPage(boot, kernel, p, limit)
    requires forall q :: 0 <= q < MAX_PAGES ==>
                           used[q] == (!UsablePage(boot, q, limit) || ReservedPage(boot, kernel, q, limit))
    requires RunsTo(Machine(Heap([], 0, used), map[], {}), cs, m)
    ensures |m.h.used| == MAX_PAGES && m.h.used[p] && p !in m.given && !TouchedBy(m.h.bs, p)
  {
    hide ReservedPage, UsablePage, RunsTo;
    var base := UsedAt(used);
    StartSane(used, base);
    RunKeeps(Machine(Heap([], 0, used), map[], {}), cs, m, base);
    assert p in base;
  }
}
