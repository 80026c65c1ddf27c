/**
 The memory manager: block headers in memory, linked both ways through their
 addresses, over the page bitmap.
 */
module MmHeap {
  import opened Bytes
  import opened MmPages
  import opened MmBlocks
  import opened MmRun

  /** A block header; links are addresses, 0 for none. */
  datatype Node = Node(size: nat, free: bool, next: nat, prev: nat)

  function NextOf(bs: seq<Block>, i: nat): nat {
    if i + 1 < |bs| then bs[i + 1].addr else 0
  }

  function PrevOf(bs: seq<Block>, i: nat): nat {
    if 0 < i <= |bs| then bs[i - 1].addr else 0
  }

  function NodeAt(bs: seq<Block>, i: nat): Node
    requires i < |bs|
  {
    Node(bs[i].size, bs[i].free, NextOf(bs, i), PrevOf(bs, i))
  }

  ghost predicate Distinct(bs: seq<Block>) {
    forall i, j :: 0 <= i < j < |bs| ==> bs[i].addr != bs[j].addr
  }

  lemma Different(bs: seq<Block>, i: nat, j: nat)
    requires Distinct(bs) && i < |bs| && j < |bs| && i != j
    ensures bs[i].addr != bs[j].addr
  {}

  ghost predicate Headed(headers: map<nat, Node>, bs: seq<Block>) {
    forall i :: 0 <= i < |bs| ==> 0 < bs[i].addr && bs[i].addr in headers && headers[bs[i].addr] == NodeAt(bs, i)
  }

  /** The headers in memory form the list of blocks, linked both ways. */
  ghost predicate Linked(headers: map<nat, Node>, head: nat, tail: nat, bs: seq<Block>) {
    && head == (if bs == [] then 0 else bs[0].addr) && tail == (if bs == [] then 0 else bs[|bs| - 1].addr)
    && Headed(headers, bs) && Distinct(bs)
  }

  lemma LinkedAt(headers: map<nat, Node>, head: nat, tail: nat, bs: seq<Block>, i: nat)
    requires Linked(headers, head, tail, bs) && i < |bs|
    ensures bs[i].addr in headers && 0 < bs[i].addr && headers[bs[i].addr] == NodeAt(bs, i)
    ensures NextOf(bs, i) == 0 <==> i + 1 == |bs|
    ensures PrevOf(bs, i) == 0 <==> i == 0
  {}

  // ----- joining -----

  lemma JoinNode(bs: seq<Block>, i: nat, k: nat)
    requires i + 1 < |bs| && k < |bs| - 1
    ensures NodeAt(Join(bs, i), k) ==
            if k == i then Node(bs[i].size + HEADER + bs[i + 1].size, bs[i].free, NextOf(bs, i + 1), PrevOf(bs, i))
            else if k == i + 1 then NodeAt(bs, i + 2).(prev := bs[i].addr)
            else NodeAt(bs, if k < i then k else k + 1)
  {
    var cs := Join(bs, i);
    if k > 0 {
      assert cs[k - 1].addr == bs[if k - 1 <= i then k - 1 else k].addr;
    }
    if k + 1 < |cs| {
      assert cs[k + 1].addr == bs[if k + 1 <= i then k + 1 else k + 2].addr;
    }
  }

  lemma JoinDistinct(bs: seq<Block>, i: nat)
    requires i + 1 < |bs| && Distinct(bs)
    ensures Distinct(Join(bs, i))
  {
    var cs := Join(bs, i);
    forall k, l | 0 <= k < l < |cs|
      ensures cs[k].addr != cs[l].addr
    {
      Different(bs, if k <= i then k else k + 1, if l <= i then l else l + 1);
    }
  }

  /** Unlinking the block behind block `i` and adding its bytes to it. */
  lemma JoinLinked(headers: map<nat, Node>, head: nat, tail: nat, bs: seq<Block>, i: nat, after: map<nat, Node>,
                   tail': nat)
    requires Linked(headers, head, tail, bs) && i + 1 < |bs|
    requires var b, c := bs[i].addr, bs[i + 1].addr;
             var joined := headers[b :=
                                   Node(bs[i].size + HEADER + bs[i + 1].size, bs[i].free, NextOf(bs, i + 1),
                                        PrevOf(bs, i))];
             if i + 2 < |bs| then after == joined[bs[i + 2].addr := NodeAt(bs, i + 2).(prev := b)] && tail' == tail
             else after == joined && tail' == b
    ensures Linked(after, head, tail', Join(bs, i))
  {
    hide NodeAt, NextOf, PrevOf, Distinct;
    var cs := Join(bs, i);
    JoinDistinct(bs, i);
    forall k | 0 <= k < |cs|
      ensures 0 < cs[k].addr && cs[k].addr in after && after[cs[k].addr] == NodeAt(cs, k)
    {
      var l := if k <= i then k else k + 1;
      assert cs[k].addr == bs[l].addr;
      JoinNode(bs, i, k);
      if l != i {
        Different(bs, l, i);
      }
      if i + 2 < |bs| && l != i + 2 {
        Different(bs, l, i + 2);
      }
    }
  }

  // ----- splitting, appending, marking -----

  lemma SplitAt(bs: seq<Block>, i: nat, n: nat)
    requires i < |bs| && n + HEADER + ALIGN <= bs[i].size
    ensures var b, cs := bs[i], Split(bs, i, n);
            && |cs| == |bs| + 1 && cs[i] == Block(b.addr, n, b.free) &&
               cs[i + 1] == Block(b.addr + HEADER + n, b.size - n - HEADER, true)
            && forall k :: 0 <= k < |cs| && k != i && k != i + 1 ==> cs[k] == if k < i then bs[k] else bs[k - 1]
  {}

  lemma SplitNode(bs: seq<Block>, i: nat, n: nat, k: nat)
    requires i < |bs| && n + HEADER + ALIGN <= bs[i].size && k <= |bs|
    ensures |Split(bs, i, n)| == |bs| + 1
    ensures var rest := bs[i].addr + HEADER + n;
            NodeAt(Split(bs, i, n), k) ==
            if k == i then Node(n, bs[i].free, rest, PrevOf(bs, i))
            else if k == i + 1 then Node(bs[i].size - n - HEADER, true, NextOf(bs, i), bs[i].addr)
            else if k == i + 2 then NodeAt(bs, i + 1).(prev := rest)
            else NodeAt(bs, if k < i then k else k - 1)
  {
    var cs := Split(bs, i, n);
    hide Split;
    SplitAt(bs, i, n);
    if k > 0 {
      assert cs[k - 1].addr == if k - 1 == i + 1 then bs[i].addr + HEADER + n
             else bs[if k - 1 <= i then k - 1 else k - 2].addr;
    }
    if k + 1 < |cs| {
      assert cs[k + 1].addr == if k + 1 == i + 1 then bs[i].addr + HEADER + n
             else bs[if k + 1 <= i then k + 1 else k].addr;
    }
  }

  /** The address of the rest of a split block is no other block's. */
  lemma SplitDistinct(bs: seq<Block>, i: nat, n: nat)
    requires i < |bs| && n + HEADER + ALIGN <= bs[i].size && AllApart(bs) && Distinct(bs)
    ensures Distinct(Split(bs, i, n))
  {
    hide Split, AllApart;
    var cs := Split(bs, i, n);
    forall k, l | 0 <= k < l < |cs|
      ensures cs[k].addr != cs[l].addr
    {
      SplitAddr(bs, i, n, 0);
      SplitAddr(bs, i, n, k);
      SplitAddr(bs, i, n, l);
      var k', l' := if k <= i then k else k - 1, if l <= i then l else l - 1;
      RestNew(bs, i, n, k');
      RestNew(bs, i, n, l');
      if k' != l' {
        Different(bs, k', l');
      }
    }
  }

  /** The header writes of a split. */
  ghost function SplitHeaders(headers: map<nat, Node>, bs: seq<Block>, i: nat, n: nat): map<nat, Node>
    requires i < |bs| && n + HEADER + ALIGN <= bs[i].size
  {
    var b, rest := bs[i].addr, bs[i].addr + HEADER + n;
    var first := headers[rest := Node(bs[i].size - n - HEADER, true, NextOf(bs, i), b)];
    var second := if i + 1 < |bs| then first[bs[i + 1].addr := NodeAt(bs, i + 1).(prev := rest)] else first;
    second[b := Node(n, bs[i].free, rest, PrevOf(bs, i))]
  }

  lemma SplitStored(headers: map<nat, Node>, head: nat, tail: nat, bs: seq<Block>, i: nat, n: nat, k: nat)
    requires Linked(headers, head, tail, bs) && i < |bs| && n + HEADER + ALIGN <= bs[i].size && AllApart(bs)
    requires k <= |bs|
    ensures |Split(bs, i, n)| == |bs| + 1
    ensures var cs, after := Split(bs, i, n), SplitHeaders(headers, bs, i, n);
            0 < cs[k].addr && cs[k].addr in after && after[cs[k].addr] == NodeAt(cs, k)
  {
    hide Headed, NodeAt, NextOf, PrevOf, Distinct, Split, AllApart;
    SplitAddr(bs, i, n, k);
    SplitNode(bs, i, n, k);
    LinkedAt(headers, head, tail, bs, i);
    if i + 1 < |bs| {
      RestNew(bs, i, n, i + 1);
    }
    RestNew(bs, i, n, i);
    if k != i + 1 {
      var l := if k <= i then k else k - 1;
      LinkedAt(headers, head, tail, bs, l);
      RestNew(bs, i, n, l);
      if l != i {
        Different(bs, l, i);
      }
      if i + 1 < |bs| && l != i + 1 {
        Different(bs, l, i + 1);
      }
    }
  }

  lemma SplitAddr(bs: seq<Block>, i: nat, n: nat, k: nat)
    requires i < |bs| && n + HEADER + ALIGN <= bs[i].size && k <= |bs|
    ensures |Split(bs, i, n)| == |bs| + 1
    ensures Split(bs, i, n)[k].addr == if k == i + 1 then bs[i].addr + HEADER + n
            else bs[if k <= i then k else k - 1].addr
  {
    SplitAt(bs, i, n);
  }

  lemma RestNew(bs: seq<Block>, i: nat, n: nat, k: nat)
    requires i < |bs| && n + HEADER + ALIGN <= bs[i].size && AllApart(bs) && k < |bs|
    ensures bs[k].addr != bs[i].addr + HEADER + n
  {
    assert k < i ==> Apart(bs[k], bs[i]);
    assert i < k ==> Apart(bs[i], bs[k]);
  }

  lemma SplitHeaded(headers: map<nat, Node>, head: nat, tail: nat, bs: seq<Block>, i: nat, n: nat)
    requires Linked(headers, head, tail, bs) && i < |bs| && n + HEADER + ALIGN <= bs[i].size && AllApart(bs)
    ensures Headed(SplitHeaders(headers, bs, i, n), Split(bs, i, n))
  {
    hide *;
    var cs, after := Split(bs, i, n), SplitHeaders(headers, bs, i, n);
    forall k | 0 <= k < |cs|
      ensures 0 < cs[k].addr && cs[k].addr in after && after[cs[k].addr] == NodeAt(cs, k)
    {
      SplitAddr(bs, i, n, 0);
      SplitStored(headers, head, tail, bs, i, n, k);
    }
    AllHeaded(after, cs);
  }

  lemma SplitLinked(headers: map<nat, Node>, head: nat, tail: nat, bs: seq<Block>, i: nat, n: nat)
    requires Linked(headers, head, tail, bs) && i < |bs| && n + HEADER + ALIGN <= bs[i].size && AllApart(bs)
    ensures Linked(SplitHeaders(headers, bs, i, n), head, if i + 1 < |bs| then tail
                   else bs[i].addr + HEADER + n, Split(bs, i, n))
  {
    hide Headed, Distinct, Split, SplitHeaders, AllApart;
    SplitHeaded(headers, head, tail, bs, i, n);
    SplitDistinct(bs, i, n);
    SplitAddr(bs, i, n, 0);
    SplitAddr(bs, i, n, |bs|);
  }

  lemma AllHeaded(headers: map<nat, Node>, bs: seq<Block>)
    requires forall i :: 0 <= i < |bs| ==>
               0 < bs[i].addr && bs[i].addr in headers && headers[bs[i].addr] == NodeAt(bs, i)
    ensures Headed(headers, bs)
  {}

  /** Linking a new block behind the last one. */
  lemma AppendLinked(headers: map<nat, Node>, head: nat, tail: nat, bs: seq<Block>, b: Block, after: map<nat, Node>,
                     head': nat)
    requires Linked(headers, head, tail, bs) && 0 < b.addr && forall k :: 0 <= k < |bs| ==> bs[k].addr != b.addr
    requires var first := headers[b.addr := Node(b.size, b.free, 0, tail)];
             if bs != [] then after == first[tail := NodeAt(bs, |bs| - 1).(next := b.addr)] && head' == head
             else after == first && head' == b.addr
    ensures Linked(after, head', b.addr, bs + [b])
  {
    var cs := bs + [b];
    forall k | 0 <= k < |cs|
      ensures 0 < cs[k].addr && cs[k].addr in after && after[cs[k].addr] == NodeAt(cs, k)
    {
      if k < |bs| - 1 {
        Different(bs, k, |bs| - 1);
      }
    }
  }

  lemma MarkLinked(headers: map<nat, Node>, head: nat, tail: nat, bs: seq<Block>, i: nat, free: bool)
    requires Linked(headers, head, tail, bs) && i < |bs|
    ensures bs[i].addr in headers
    ensures Linked(headers[bs[i].addr := headers[bs[i].addr].(free := free)], head, tail, bs[i := bs[i].(free := free)])
  {
    hide Headed, NodeAt, Distinct;
    var cs := bs[i := bs[i].(free := free)];
    LinkedAt(headers, head, tail, bs, i);
    var after := headers[bs[i].addr := headers[bs[i].addr].(free := free)];
    forall k | 0 <= k < |cs|
      ensures 0 < cs[k].addr && cs[k].addr in after && after[cs[k].addr] == NodeAt(cs, k)
    {
      LinkedAt(headers, head, tail, bs, k);
      MarkNode(bs, i, free, k);
      if k != i {
        Different(bs, k, i);
      }
    }
    AllHeaded(after, cs);
    MarkDistinct(bs, i, free);
  }

  lemma MarkNode(bs: seq<Block>, i: nat, free: bool, k: nat)
    requires i < |bs| && k < |bs|
    ensures NodeAt(bs[i := bs[i].(free := free)], k) == if k == i then NodeAt(bs, i).(free := free) else NodeAt(bs, k)
  {}

  lemma MarkDistinct(bs: seq<Block>, i: nat, free: bool)
    requires i < |bs| && Distinct(bs)
    ensures Distinct(bs[i := bs[i].(free := free)])
  {}

  // ----- the manager -----

  /** The payload bytes of the free, or of the other, blocks. */
  ghost function Sizes(bs: seq<Block>, free: bool): nat {
    if bs == [] then 0
    else Sizes(bs[..|bs| - 1], free) + if bs[|bs| - 1].free == free then bs[|bs| - 1].size else 0
  }

  class MemoryManager {
    const pages: PageMap
    var headers: map<nat, Node>
    var head: nat
    var tail: nat
    var total: nat
    ghost var bs: seq<Block>

    constructor (pages: PageMap)
      requires pages.Valid() && pages.used[0]
      ensures this.pages == pages && State() == Heap([], 0, pages.used[..])
      ensures Linked(headers, head, tail, bs) && pages.Valid()
    {
      this.pages, headers, head, tail, total, bs := pages, map[], 0, 0, 0, [];
    }

    ghost function State(): Heap
      reads this, pages.used
    {
      Heap(bs, total, pages.used[..])
    }

    /** Consistent, with `held` the pages held by others. */
    ghost predicate Valid(held: set<nat>)
      reads this, pages, pages.used
    {
      pages.Valid() && Linked(headers, head, tail, bs) && Good(State(), held)
    }

    method FindFreeBlock(size: nat) returns (block: nat)
      requires Linked(headers, head, tail, bs)
      ensures var f := FirstFit(bs, 0, size); block == if f.Some? then bs[f.value].addr else 0
    {
      hide Linked, NodeAt;
      HeadOf(headers, head, tail, bs);
      AllPositive(headers, head, tail, bs);
      block := head;
      ghost var i := 0;
      while block != 0
        invariant 0 <= i <= |bs| && FirstFit(bs, 0, size) == FirstFit(bs, i, size)
        invariant block == if i < |bs| then bs[i].addr else 0
        decreases |bs| - i
      {
        NodeFields(headers, head, tail, bs, i);
        var node := headers[block];
        if node.free && node.size >= size {
          return;
        }
        block := node.next;
        i := i + 1;
      }
    }

    method SplitBlock(block: nat, size: nat, ghost i: nat)
      requires Linked(headers, head, tail, bs) && AllApart(bs) && i < |bs| && block == bs[i].addr
      modifies this`headers, this`tail, this`bs
      ensures Linked(headers, head, tail, bs) && bs == Split(old(bs), i, size)
    {
      hide Linked, NodeAt, AllApart;
      NodeFields(headers, head, tail, bs, i);
      var node := headers[block];
      if node.size < size + HEADER + ALIGN {
        return;
      }
      SplitLinked(headers, head, tail, bs, i, size);
      ghost var before := headers;
      var split := block + HEADER + size;
      headers := headers[split := Node(node.size - size - HEADER, true, node.next, block)];
      if node.next != 0 {
        NodeFields(before, head, tail, bs, i + 1);
        RestNew(bs, i, size, i + 1);
        headers := headers[node.next := headers[node.next].(prev := split)];
      } else {
        tail := split;
      }
      headers := headers[block := Node(size, node.free, split, node.prev)];
      bs := Split(bs, i, size);
    }

    /** Merge a block with the free one behind it. */
    method AbsorbNext(block: nat, ghost i: nat)
      requires Linked(headers, head, tail, bs) && i < |bs| && block == bs[i].addr
      modifies this`headers, this`tail, this`bs
      ensures Linked(headers, head, tail, bs) && bs == Absorbed(old(bs), i)
      ensures Untouched(old(headers), headers, bs)
    {
      hide Linked, NodeAt, Untouched;
      NodeFields(headers, head, tail, bs, i);
      var node := headers[block];
      UntouchedSame(headers, bs);
      if node.next != 0 {
        NodeFields(headers, head, tail, bs, i + 1);
        var next := headers[node.next];
        if next.free && block + HEADER + node.size == node.next {
          ghost var h0, t0, bs0 := headers, tail, bs;
          headers := headers[block := Node(node.size + HEADER + next.size, node.free, next.next, node.prev)];
          if next.next != 0 {
            NodeFields(h0, head, t0, bs0, i + 2);
            LinkedDifferent(h0, head, t0, bs0, i, i + 2);
            headers := headers[next.next := headers[next.next].(prev := block)];
          } else {
            tail := block;
          }
          JoinLinked(h0, head, t0, bs0, i, headers, tail);
          bs := Join(bs, i);
          JoinUntouched(h0, headers, bs0, i);
        }
      }
    }

    /** Merge a block with the free one behind it, then with a free one before it. */
    method CoalesceBlock(block: nat, ghost i: nat)
      requires Linked(headers, head, tail, bs) && i < |bs| && block == bs[i].addr
      modifies this`headers, this`tail, this`bs
      ensures Linked(headers, head, tail, bs) && bs == Coalesce(old(bs), i)
      ensures Untouched(old(headers), headers, Absorbed(old(bs), i))
      decreases i
    {
      hide Linked, NodeAt, Untouched;
      AbsorbNext(block, i);
      NodeFields(headers, head, tail, bs, i);
      var prev := headers[block].prev;
      if prev != 0 {
        NodeFields(headers, head, tail, bs, i - 1);
        if headers[prev].free && prev + HEADER + headers[prev].size == block {
          ghost var mid, cs := headers, bs;
          CoalesceBlock(prev, i - 1);
          UntouchedThrough(old(headers), mid, headers, cs, i - 1);
        }
      }
    }

    /** Grow the heap by whole pages; the block returned is the last one, which a free last block may have absorbed. */
    method GrowHeap(size: nat, ghost held: set<nat>) returns (block: nat)
      requires Valid(held)
      modifies this, pages, pages.used
      ensures pages.Valid() && Linked(headers, head, tail, bs)
      ensures var count := PagesWord(size);
              var run := RunFor(old(State()).used, count);
              && (run.None? ==> block == 0 && State() == old(State()))
              && (run.Some? ==>
                    && State() == Heap(Extend(old(bs), run.value, count), old(total) + count * PAGE,
                                       Marked(old(State()).used, run.value, count, true))
                    && block == bs[|bs| - 1].addr && block != 0)
    {
      hide Linked, NodeAt, Untouched, Tight, AllApart, AllProper, InUse, Held, Total, Extend, Coalesce, Good;
      GoodParts(State(), held);
      var count := PagesWord(size);
      ghost var used0, bs0, h0 := pages.used[..], bs, headers;
      block := pages.AllocPages(count);
      if block == 0 {
        return;
      }
      ghost var s := LowestRun(used0, 0, count).value;
      AppendApart(bs, s, count, used0);
      LinkLast(block, s, count);
      total := total + count * PAGE;
      NodeFields(headers, head, tail, bs, |bs| - 1);
      var prev := headers[block].prev;
      ExtendCases(bs0, s, count);
      if prev != 0 {
        NodeFields(headers, head, tail, bs, |bs| - 2);
        if headers[prev].free && prev + HEADER + headers[prev].size == block {
          ghost var mid := headers;
          LinkedDistinct(headers, head, tail, bs);
          ExtendIsCoalesce(bs0, s, count);
          CoalesceBlock(prev, |bs| - 2);
          DeadHeader(mid, headers, bs0 + [NewBlock(s, count)], |bs0| - 1);
          block := headers[block].prev;
          NodeFields(headers, head, tail, bs, |bs| - 1);
        }
      }
    }

    /** Link a block of fresh pages behind the last one. */
    method LinkLast(block: nat, ghost s: nat, count: nat)
      requires Linked(headers, head, tail, bs) && count > 0 && block == s * PAGE > 0
      requires AllApart(bs + [NewBlock(s, count)])
      modifies this`headers, this`head, this`tail, this`bs
      ensures Linked(headers, head, tail, bs) && bs == old(bs) + [NewBlock(s, count)]
    {
      hide Linked, NodeAt, AllApart;
      HeadOf(headers, head, tail, bs);
      NewAddress(bs, s, count);
      ghost var h0, head0, tail0 := headers, head, tail;
      if bs != [] {
        NodeFields(headers, head, tail, bs, |bs| - 1);
      }
      headers := headers[block := Node(count * PAGE - HEADER, true, 0, tail)];
      if tail != 0 {
        headers := headers[tail := headers[tail].(next := block)];
      } else {
        head := block;
      }
      AppendLinked(h0, head0, tail0, bs, NewBlock(s, count), headers, head);
      tail := block;
      bs := bs + [NewBlock(s, count)];
    }

    method KMalloc(size: nat, ghost held: set<nat>) returns (ptr: nat)
      requires Valid(held) && size < WORD && !Wraps(State(), size)
      modifies this, pages, pages.used
      ensures Valid(held) && Grant(State(), ptr) == Malloc(old(State()), size)
    {
      hide Linked, NodeAt, Tight, AllApart, AllProper, InUse, Held, Total, Extend, Good, Split, Carve, AlignUp,
           AlignWord, PagesWord;
      if size == 0 {
        return 0;
      }
      ghost var h := State();
      MallocGood(h, size, held);
      GoodParts(h, held);
      WordMeans(h, size, held);
      var n := AlignWord(size);
      var block := FindFreeBlock(n);
      ghost var f := FirstFit(bs, 0, n);
      ghost var i := if f.Some? then f.value else 0;
      if f.Some? {
        NodeFields(headers, head, tail, bs, i);
      }
      if block == 0 {
        block := GrowHeap(n, held);
        if block == 0 {
          return 0;
        }
        ExtendKeeps(h.bs, RunFor(h.used, PagesFor(n)).value, PagesFor(n), h.used, held);
        i := |bs| - 1;
      }
      TakeBlock(block, n, i);
      ptr := block + HEADER;
    }

    /** Split a block and mark its front used. */
    method TakeBlock(block: nat, size: nat, ghost i: nat)
      requires Linked(headers, head, tail, bs) && AllApart(bs) && i < |bs| && block == bs[i].addr
      modifies this`headers, this`tail, this`bs
      ensures Linked(headers, head, tail, bs) && bs == Carve(old(bs), i, size)
    {
      hide Linked, AllApart, Split, Carve;
      CarveMark(bs, i, size);
      SplitBlock(block, size, i);
      MarkLinked(headers, head, tail, bs, i, false);
      headers := headers[block := headers[block].(free := false)];
      bs := bs[i := bs[i].(free := false)];
    }

    method KFree(ptr: nat, ghost i: nat, ghost held: set<nat>)
      requires Valid(held) && (ptr != 0 ==> LiveIndex(bs, i, ptr))
      modifies this`headers, this`tail, this`bs
      ensures Valid(held) && State() == if ptr == 0 then old(State()) else Free(old(State()), i)
    {
      hide Linked, NodeAt, Good, Coalesce;
      if ptr == 0 {
        return;
      }
      FreeKeeps(State(), i, held);
      NodeFields(headers, head, tail, bs, i);
      MarkLinked(headers, head, tail, bs, i, true);
      var block := ptr - HEADER;
      headers := headers[block := headers[block].(free := true)];
      bs := bs[i := bs[i].(free := true)];
      CoalesceBlock(block, i);
    }

    /** Add up the payload bytes in use and free, and find the largest free block. */
    method HeapStats(ghost held: set<nat>) returns (used: nat, free: nat, largest: nat)
      requires Valid(held)
      ensures used == Sizes(bs, false) && free == Sizes(bs, true) && used + free + HEADER * |bs| == total
      ensures forall i :: 0 <= i < |bs| && bs[i].free ==> bs[i].size <= largest <= free
      ensures largest == 0 || exists i :: 0 <= i < |bs| && bs[i].free && bs[i].size == largest
    {
      hide Linked, NodeAt, Tight, AllApart, InUse, Held, Total;
      HeadOf(headers, head, tail, bs);
      AllPositive(headers, head, tail, bs);
      used, free, largest := 0, 0, 0;
      var block := head;
      ghost var i := 0;
      TotalNone(bs);
      while block != 0
        invariant 0 <= i <= |bs| && block == (if i < |bs| then bs[i].addr else 0)
        invariant used + free + HEADER * i == Total(bs[..i]) && largest <= free
        invariant used == Sizes(bs[..i], false) && free == Sizes(bs[..i], true)
        invariant forall k :: 0 <= k < i && bs[k].free ==> bs[k].size <= largest
        invariant largest == 0 || exists k :: 0 <= k < i && bs[k].free && bs[k].size == largest
        decreases |bs| - i
      {
        NodeFields(headers, head, tail, bs, i);
        TotalStep(bs, i);
        assert bs[..i + 1][..i] == bs[..i];
        var node := headers[block];
        if node.free {
          free := free + node.size;
          if node.size > largest {
            largest := node.size;
          }
        } else {
          used := used + node.size;
        }
        block := node.next;
        i := i + 1;
      }
      assert bs[..|bs|] == bs;
    }

    method AllocPage(ghost held: set<nat>) returns (addr: nat)
      requires Valid(held)
      modifies pages, pages.used
      ensures var run := LowestRun(old(State()).used, 0, 1);
              && (run.None? ==> addr == 0 && State() == old(State()) && Valid(held))
              && (run.Some? ==> addr == run.value * PAGE && run.value !in held && Valid(held + {run.value}) &&
                                State() == old(State()).(used := Marked(old(State()).used, run.value, 1, true)))
    {
      hide Linked, Good, Tight, AllApart, AllProper, InUse, Held, Total;
      GoodParts(State(), held);
      ghost var h := State();
      addr := pages.AllocPages(1);
      if addr != 0 {
        PageGivenKeeps(h, LowestRun(h.used, 0, 1).value, held);
      }
    }

    method FreePage(addr: nat, ghost held: set<nat>)
      requires Valid(held) && addr % PAGE == 0 && addr / PAGE in held
      modifies pages, pages.used
      ensures addr != 0 ==>
                Valid(held - {addr / PAGE}) &&
                  State() == old(State()).(used := Marked(old(State()).used, addr / PAGE, 1, false))
      ensures addr == 0 ==> Valid(held) && State() == old(State())
    {
      hide Linked, Good;
      ghost var h := State();
      pages.FreePages(addr, 1);
      if addr != 0 {
        PageBackKeeps(h, addr / PAGE, held);
      }
    }
  }

  lemma TotalNone(bs: seq<Block>)
    ensures Total(bs[..0]) == 0
  {}

  lemma TotalStep(bs: seq<Block>, i: nat)
    requires i < |bs|
    ensures Total(bs[..i + 1]) == Total(bs[..i]) + HEADER + bs[i].size
  {
    assert bs[..i + 1][..i] == bs[..i];
  }

  lemma CarveMark(bs: seq<Block>, i: nat, n: nat)
    requires i < |bs|
    ensures i < |Split(bs, i, n)| && Split(bs, i, n)[i].addr == bs[i].addr
    ensures Carve(bs, i, n) == Split(bs, i, n)[i := Split(bs, i, n)[i].(free := false)]
  {}

  lemma LinkedDistinct(headers: map<nat, Node>, head: nat, tail: nat, bs: seq<Block>)
    requires Linked(headers, head, tail, bs)
    ensures Distinct(bs)
  {}

  /** Block `i` merged with a free block it touches behind it. */
  ghost function Absorbed(bs: seq<Block>, i: nat): seq<Block>
    requires i < |bs|
  {
    if i + 1 < |bs| && bs[i + 1].free && Touch(bs[i], bs[i + 1]) then Join(bs, i) else bs
  }

  ghost predicate OffList(bs: seq<Block>, a: nat) {
    forall k :: 0 <= k < |bs| ==> bs[k].addr != a
  }

  /** Headers off the list are as they were. */
  ghost predicate Untouched(before: map<nat, Node>, after: map<nat, Node>, bs: seq<Block>) {
    forall a :: a in before && OffList(bs, a) ==> a in after && after[a] == before[a]
  }

  lemma UntouchedSame(headers: map<nat, Node>, bs: seq<Block>)
    ensures Untouched(headers, headers, bs)
  {}

  lemma JoinUntouched(before: map<nat, Node>, after: map<nat, Node>, bs: seq<Block>, i: nat)
    requires i + 1 < |bs|
    requires forall a :: a in before && a != bs[i].addr && (i + 2 < |bs| ==> a != bs[i + 2].addr) ==>
               a in after && after[a] == before[a]
    ensures Untouched(before, after, Join(bs, i))
  {
    var cs := Join(bs, i);
    assert cs[i].addr == bs[i].addr && (i + 2 < |bs| ==> cs[i + 1].addr == bs[i + 2].addr);
  }

  lemma UntouchedThrough(before: map<nat, Node>, mid: map<nat, Node>, after: map<nat, Node>, bs: seq<Block>, i: nat)
    requires i < |bs| && Untouched(before, mid, bs) && Untouched(mid, after, Absorbed(bs, i))
    ensures Untouched(before, after, bs)
  {
    var cs := Absorbed(bs, i);
    forall a | OffList(bs, a)
      ensures OffList(cs, a)
    {
      forall k | 0 <= k < |cs|
        ensures cs[k].addr != a
      {
        assert cs[k].addr == bs[if k <= i || cs == bs then k else k + 1].addr;
      }
    }
  }

  /** A block absorbed by the one before it keeps its header, though it is off the list. */
  lemma DeadHeader(before: map<nat, Node>, after: map<nat, Node>, bs: seq<Block>, i: nat)
    requires i + 1 < |bs| && bs[i + 1].free && Touch(bs[i], bs[i + 1]) && Distinct(bs)
    requires Untouched(before, after, Absorbed(bs, i)) && bs[i + 1].addr in before
    ensures bs[i + 1].addr in after && after[bs[i + 1].addr] == before[bs[i + 1].addr]
  {
    var cs := Join(bs, i);
    forall k | 0 <= k < |cs|
      ensures cs[k].addr != bs[i + 1].addr
    {
      Different(bs, if k <= i then k else k + 1, i + 1);
    }
  }

  /** Fresh pages begin at no block's address. */
  lemma NewAddress(bs: seq<Block>, s: nat, count: nat)
    requires count > 0 && AllApart(bs + [NewBlock(s, count)])
    ensures forall k :: 0 <= k < |bs| ==> bs[k].addr != s * PAGE
  {
    var cs := bs + [NewBlock(s, count)];
    forall k | 0 <= k < |bs|
      ensures bs[k].addr != s * PAGE
    {
      assert Apart(cs[k], cs[|bs|]);
    }
  }

  lemma ExtendCases(bs: seq<Block>, s: nat, count: nat)
    requires count > 0
    ensures !(bs != [] && bs[|bs| - 1].free && Touch(bs[|bs| - 1], NewBlock(s, count))) ==>
              Extend(bs, s, count) == bs + [NewBlock(s, count)]
  {}

  lemma LinkedDifferent(headers: map<nat, Node>, head: nat, tail: nat, bs: seq<Block>, i: nat, j: nat)
    requires Linked(headers, head, tail, bs) && i < j < |bs|
    ensures bs[i].addr != bs[j].addr
  {}

  lemma AllPositive(headers: map<nat, Node>, head: nat, tail: nat, bs: seq<Block>)
    requires Linked(headers, head, tail, bs)
    ensures forall i :: 0 <= i < |bs| ==> 0 < bs[i].addr
  {}

  lemma HeadOf(headers: map<nat, Node>, head: nat, tail: nat, bs: seq<Block>)
    requires Linked(headers, head, tail, bs)
    ensures head == (if bs == [] then 0 else bs[0].addr) && tail == (if bs == [] then 0 else bs[|bs| - 1].addr)
  {}

  /** What the driver reads in a block's header. */
  lemma NodeFields(headers: map<nat, Node>, head: nat, tail: nat, bs: seq<Block>, i: nat)
    requires Linked(headers, head, tail, bs) && i < |bs|
    ensures bs[i].addr in headers && 0 < bs[i].addr
    ensures headers[bs[i].addr] == NodeAt(bs, i) == Node(bs[i].size, bs[i].free, NextOf(bs, i), PrevOf(bs, i))
    ensures NextOf(bs, i) == 0 <==> i + 1 == |bs|
    ensures PrevOf(bs, i) == 0 <==> i == 0
  {}
}
