/** The kernel heap as a list of blocks: splitting, merging, growing, and what they keep. */
module MmBlocks {
  import opened MmPages

  const HEADER := 16
  const ALIGN := 4

  datatype Block = Block(addr: nat, size: nat, free: bool) {
    function Payload(): nat { addr + HEADER }
    function End(): nat { addr + HEADER + size }
  }

  predicate Touch(b: Block, c: Block) {
    b.End() == c.addr
  }

  predicate Apart(b: Block, c: Block) {
    b.End() <= c.addr || c.End() <= b.addr
  }

  predicate AllApart(bs: seq<Block>) {
    forall i, j :: 0 <= i < j < |bs| ==> Apart(bs[i], bs[j])
  }

  /** List neighbours that touch and are both free. */
  predicate Mergeable(bs: seq<Block>, i: nat) {
    i + 1 < |bs| && bs[i].free && bs[i + 1].free && Touch(bs[i], bs[i + 1])
  }

  ghost predicate Tight(bs: seq<Block>) {
    forall i: nat :: !Mergeable(bs, i)
  }

  /** Only the neighbours of block `i` may have to be merged with it. */
  ghost predicate TightBut(bs: seq<Block>, i: nat) {
    forall k: nat :: k != i && k + 1 != i ==> !Mergeable(bs, k)
  }

  predicate Proper(b: Block) {
    0 < b.addr && b.addr % ALIGN == 0 && b.size % ALIGN == 0
  }

  predicate AllProper(bs: seq<Block>) {
    forall i :: 0 <= i < |bs| ==> Proper(bs[i])
  }

  /** Header and payload bytes. */
  function Total(bs: seq<Block>): nat {
    if bs == [] then 0 else Total(bs[..|bs| - 1]) + HEADER + bs[|bs| - 1].size
  }

  lemma {:induction false} TotalConcat(a: seq<Block>, b: seq<Block>)
    ensures Total(a + b) == Total(a) + Total(b)
    decreases |b|
  {
    if b == [] {
      assert a + b == a;
    } else {
      var front := b[..|b| - 1];
      assert (a + b)[..|a + b| - 1] == a + front;
      TotalConcat(a, front);
    }
  }

  lemma TotalOne(b: Block)
    ensures Total([b]) == HEADER + b.size
  {
    assert [b][..0] == [];
  }

  lemma TotalTwo(b: Block, c: Block)
    ensures Total([b, c]) == HEADER + b.size + HEADER + c.size
  {
    TotalConcat([b], [c]);
    TotalOne(b);
    TotalOne(c);
    assert [b] + [c] == [b, c];
  }

  /** Replacing a stretch of the list by one of the same bytes. */
  lemma TotalReplace(a: seq<Block>, x: seq<Block>, y: seq<Block>, z: seq<Block>)
    requires Total(x) == Total(y)
    ensures Total(a + x + z) == Total(a + y + z)
  {
    TotalConcat(a, x);
    TotalConcat(a + x, z);
    TotalConcat(a, y);
    TotalConcat(a + y, z);
  }

  predicate Touches(b: Block, p: nat) {
    p * PAGE < b.End() && b.addr < (p + 1) * PAGE
  }

  ghost predicate TouchedBy(bs: seq<Block>, p: nat) {
    exists i :: 0 <= i < |bs| && Touches(bs[i], p)
  }

  /** Every page a block touches is in use. */
  ghost predicate InUse(bs: seq<Block>, used: seq<bool>) {
    forall p: nat :: TouchedBy(bs, p) ==> p < |used| && used[p]
  }

  /** Pages somebody else holds: in use, and no block touches them. */
  ghost predicate Held(bs: seq<Block>, used: seq<bool>, pages: set<nat>) {
    forall p :: p in pages ==> p < |used| && used[p] && !TouchedBy(bs, p)
  }

  // ----- merging -----

  function Joined(b: Block, c: Block): Block {
    Block(b.addr, b.size + HEADER + c.size, b.free)
  }

  function Join(bs: seq<Block>, i: nat): (r: seq<Block>)
    requires i + 1 < |bs|
    ensures |r| == |bs| - 1 && r[i] == Joined(bs[i], bs[i + 1])
    ensures forall k :: 0 <= k < |r| && k != i ==> r[k] == if k < i then bs[k] else bs[k + 1]
  {
    bs[..i] + [Joined(bs[i], bs[i + 1])] + bs[i + 2..]
  }

  lemma JoinTotal(bs: seq<Block>, i: nat)
    requires i + 1 < |bs|
    ensures Total(Join(bs, i)) == Total(bs)
  {
    hide Total;
    var a, b, c, z := bs[..i], bs[i], bs[i + 1], bs[i + 2..];
    TotalTwo(b, c);
    TotalOne(Joined(b, c));
    TotalReplace(a, [Joined(b, c)], [b, c], z);
    assert bs == a + [b, c] + z;
  }

  /** The live blocks are the same ones. */
  ghost predicate SameLive(bs: seq<Block>, cs: seq<Block>) {
    forall b: Block :: !b.free ==> (b in bs <==> b in cs)
  }

  lemma JoinApart(bs: seq<Block>, i: nat)
    requires i + 1 < |bs| && Touch(bs[i], bs[i + 1]) && AllApart(bs)
    ensures AllApart(Join(bs, i))
  {
    var cs := Join(bs, i);
    forall k, l | 0 <= k < l < |cs|
      ensures Apart(cs[k], cs[l])
    {
      assert Apart(bs[if k <= i then k else k + 1], bs[if l <= i then l else l + 1]);
      if k == i {
        assert Apart(bs[i + 1], bs[l + 1]);
      }
      if l == i {
        assert Apart(bs[k], bs[i + 1]);
      }
    }
  }

  /** A joined block touches the pages its parts touch. */
  lemma JoinPages(bs: seq<Block>, i: nat, p: nat)
    requires i + 1 < |bs| && Touch(bs[i], bs[i + 1]) && TouchedBy(Join(bs, i), p)
    ensures TouchedBy(bs, p)
  {
    var k :| 0 <= k < |bs| - 1 && Touches(Join(bs, i)[k], p);
    if k == i {
      assert Touches(bs[i], p) || Touches(bs[i + 1], p);
    } else {
      assert Touches(bs[if k < i then k else k + 1], p);
    }
  }

  lemma JoinProper(bs: seq<Block>, i: nat)
    requires i + 1 < |bs| && AllProper(bs)
    ensures AllProper(Join(bs, i))
  {
    assert Proper(bs[i]) && Proper(bs[i + 1]);
  }

  lemma JoinLive(bs: seq<Block>, i: nat)
    requires Mergeable(bs, i)
    ensures SameLive(bs, Join(bs, i))
  {
    var cs := Join(bs, i);
    forall b: Block | !b.free
      ensures b in bs <==> b in cs
    {
      if b in bs {
        var k :| 0 <= k < |bs| && bs[k] == b;
        assert cs[if k < i then k else k - 1] == b;
      }
    }
  }

  /** Joining two touching free blocks. */
  lemma JoinKeeps(bs: seq<Block>, i: nat, used: seq<bool>, pages: set<nat>)
    requires Mergeable(bs, i) && AllApart(bs) && AllProper(bs) && InUse(bs, used) && Held(bs, used, pages)
    ensures var cs := Join(bs, i);
            AllApart(cs) && AllProper(cs) && InUse(cs, used) && Held(cs, used, pages) && Total(cs) == Total(bs) &&
              SameLive(bs, cs)
  {
    hide AllApart, AllProper, Total, SameLive, TouchedBy, Join;
    var cs := Join(bs, i);
    JoinTotal(bs, i);
    JoinApart(bs, i);
    JoinProper(bs, i);
    JoinLive(bs, i);
    forall p: nat | TouchedBy(cs, p)
      ensures TouchedBy(bs, p)
    {
      JoinPages(bs, i, p);
    }
  }

  /** Merge block `i` with a free block behind it, then with a free block before it. */
  function Coalesce(bs: seq<Block>, i: nat): (r: seq<Block>)
    requires i < |bs|
    decreases i
  {
    var cs := if i + 1 < |bs| && bs[i + 1].free && Touch(bs[i], bs[i + 1]) then Join(bs, i) else bs;
    if i > 0 && cs[i - 1].free && Touch(cs[i - 1], cs[i]) then Coalesce(cs, i - 1) else cs
  }

  lemma JoinTight(bs: seq<Block>, i: nat)
    requires Mergeable(bs, i) && (forall k: nat :: k + 1 != i && k != i && k != i + 1 ==> !Mergeable(bs, k))
    requires !Mergeable(bs, i + 1)
    ensures forall k: nat :: k + 1 != i ==> !Mergeable(Join(bs, i), k)
    ensures i > 0 ==> (Mergeable(Join(bs, i), i - 1) <==> Mergeable(bs, i - 1))
  {
    var cs := Join(bs, i);
    forall k: nat | k + 1 != i
      ensures !Mergeable(cs, k)
    {
      assert !Mergeable(bs, if k < i then k else k + 1);
    }
  }

  /** Freeing a block and merging it leaves no two touching free neighbours, after at most one recursive call. */
  lemma CoalesceTight(bs: seq<Block>, i: nat)
    requires i < |bs| && bs[i].free && TightBut(bs, i)
    ensures Tight(Coalesce(bs, i))
    ensures var cs := if Mergeable(bs, i) then Join(bs, i) else bs;
            Coalesce(bs, i) == if i > 0 && Mergeable(cs, i - 1) then Join(cs, i - 1) else cs
  {
    var cs := if Mergeable(bs, i) then Join(bs, i) else bs;
    if Mergeable(bs, i) {
      JoinTight(bs, i);
    }
    assert forall k: nat :: k + 1 != i ==> !Mergeable(cs, k);
    if i > 0 && Mergeable(cs, i - 1) {
      JoinTight(cs, i - 1);
      if i > 1 {
        assert !Mergeable(cs, i - 2);
      }
    }
  }

  /** What merging after a free keeps. */
  lemma CoalesceKeeps(bs: seq<Block>, i: nat, used: seq<bool>, pages: set<nat>)
    requires i < |bs| && bs[i].free && TightBut(bs, i)
    requires AllApart(bs) && AllProper(bs) && InUse(bs, used) && Held(bs, used, pages)
    ensures var cs := Coalesce(bs, i);
            Tight(cs) && AllApart(cs) && AllProper(cs) && InUse(cs, used) && Held(cs, used, pages) &&
              Total(cs) == Total(bs) && SameLive(bs, cs)
  {
    hide AllApart, AllProper, InUse, Held, Total, Coalesce, Mergeable, TightBut, Tight;
    CoalesceTight(bs, i);
    var cs := bs;
    if Mergeable(bs, i) {
      JoinKeeps(bs, i, used, pages);
      cs := Join(bs, i);
    }
    if i > 0 && Mergeable(cs, i - 1) {
      JoinKeeps(cs, i - 1, used, pages);
    }
  }

  // ----- splitting -----

  /** Cut the front `n` bytes of a block's payload off, if the rest can hold a block. */
  function Split(bs: seq<Block>, i: nat, n: nat): (r: seq<Block>)
    requires i < |bs|
    ensures |bs| <= |r| && r[i].addr == bs[i].addr && r[i].free == bs[i].free
  {
    var b := bs[i];
    if b.size < n + HEADER + ALIGN then bs
    else bs[..i] + [Block(b.addr, n, b.free), Block(b.addr + HEADER + n, b.size - n - HEADER, true)] + bs[i + 1..]
  }

  /** Split a free block and take its front. */
  function Carve(bs: seq<Block>, i: nat, n: nat): (r: seq<Block>)
    requires i < |bs|
    ensures i < |r| && r[i].addr == bs[i].addr && !r[i].free
  {
    var cs := Split(bs, i, n);
    cs[i := cs[i].(free := false)]
  }

  lemma CarveAt(bs: seq<Block>, i: nat, n: nat)
    requires i < |bs| && n <= bs[i].size
    ensures var b, cs := bs[i], Carve(bs, i, n);
            if b.size < n + HEADER + ALIGN then
              |cs| == |bs| && cs[i] == b.(free := false) && forall k :: 0 <= k < |cs| && k != i ==> cs[k] == bs[k]
            else
              && |cs| == |bs| + 1 && cs[i] == Block(b.addr, n, false) &&
                 cs[i + 1] == Block(b.addr + HEADER + n, b.size - n - HEADER, true)
              && forall k :: 0 <= k < |cs| && k != i && k != i + 1 ==> cs[k] == if k < i then bs[k] else bs[k - 1]
  {}

  lemma CarveTotal(bs: seq<Block>, i: nat, n: nat)
    requires i < |bs| && n <= bs[i].size
    ensures Total(Carve(bs, i, n)) == Total(bs)
  {
    hide Carve, Total;
    var b, cs := bs[i], Carve(bs, i, n);
    CarveAt(bs, i, n);
    var a, z := bs[..i], bs[i + 1..];
    assert bs == a + [b] + z;
    TotalOne(b);
    if b.size < n + HEADER + ALIGN {
      TotalOne(cs[i]);
      TotalReplace(a, [cs[i]], [b], z);
      assert cs == a + [cs[i]] + z;
    } else {
      TotalTwo(cs[i], cs[i + 1]);
      TotalReplace(a, [cs[i], cs[i + 1]], [b], z);
      CarveIs(bs, i, n);
    }
  }

  lemma CarveIs(bs: seq<Block>, i: nat, n: nat)
    requires i < |bs| && n + HEADER + ALIGN <= bs[i].size
    ensures |Carve(bs, i, n)| == |bs| + 1
    ensures Carve(bs, i, n) == bs[..i] + [Carve(bs, i, n)[i], Carve(bs, i, n)[i + 1]] + bs[i + 1..]
  {
    var b := bs[i];
    var x, y := Block(b.addr, n, b.free), Block(b.addr + HEADER + n, b.size - n - HEADER, true);
    SetInside(bs[..i], x, y, bs[i + 1..], x.(free := false));
  }

  lemma SetInside(a: seq<Block>, x: Block, y: Block, z: seq<Block>, x': Block)
    ensures (a + [x, y] + z)[|a| := x'] == a + [x', y] + z
  {}

  lemma CarveApart(bs: seq<Block>, i: nat, n: nat)
    requires i < |bs| && n <= bs[i].size && AllApart(bs)
    ensures AllApart(Carve(bs, i, n))
  {
    var cs := Carve(bs, i, n);
    hide Carve;
    CarveAt(bs, i, n);
    var cut := bs[i].size >= n + HEADER + ALIGN;
    forall k, l | 0 <= k < l < |cs|
      ensures Apart(cs[k], cs[l])
    {
      var k', l' := if cut && k > i then k - 1 else k, if cut && l > i then l - 1 else l;
      if k' < l' {
        assert Apart(bs[k'], bs[l']);
      }
    }
  }

  lemma CarvePages(bs: seq<Block>, i: nat, n: nat, p: nat)
    requires i < |bs| && n <= bs[i].size && TouchedBy(Carve(bs, i, n), p)
    ensures TouchedBy(bs, p)
  {
    var cs := Carve(bs, i, n);
    var k :| 0 <= k < |cs| && Touches(cs[k], p);
    hide Carve;
    CarveAt(bs, i, n);
    var cut := bs[i].size >= n + HEADER + ALIGN;
    assert Touches(bs[if cut && k > i then k - 1 else k], p);
  }

  lemma CarveProper(bs: seq<Block>, i: nat, n: nat)
    requires i < |bs| && n <= bs[i].size && AllProper(bs) && n % ALIGN == 0
    ensures AllProper(Carve(bs, i, n))
  {
    var cs := Carve(bs, i, n);
    hide Carve;
    CarveAt(bs, i, n);
    assert Proper(bs[i]);
    assert Proper(cs[i]);
  }

  lemma CarveTight(bs: seq<Block>, i: nat, n: nat)
    requires i < |bs| && bs[i].free && n <= bs[i].size && Tight(bs)
    ensures Tight(Carve(bs, i, n))
  {
    var cs := Carve(bs, i, n);
    hide Carve;
    CarveAt(bs, i, n);
    var cut := bs[i].size >= n + HEADER + ALIGN;
    forall k: nat
      ensures !Mergeable(cs, k)
    {
      assert !Mergeable(bs, if cut && k > i then k - 1 else k);
    }
  }

  /** One live block more. */
  ghost predicate NewLive(bs: seq<Block>, cs: seq<Block>, x: Block) {
    forall b: Block :: !b.free ==> (b in cs <==> b in bs || b == x)
  }

  lemma CarveLive(bs: seq<Block>, i: nat, n: nat)
    requires i < |bs| && bs[i].free && n <= bs[i].size
    ensures NewLive(bs, Carve(bs, i, n), Carve(bs, i, n)[i]) && Carve(bs, i, n)[i].size >= n
  {
    var cs := Carve(bs, i, n);
    hide Carve;
    CarveAt(bs, i, n);
    var cut := bs[i].size >= n + HEADER + ALIGN;
    forall b: Block | !b.free
      ensures b in cs <==> b in bs || b == cs[i]
    {
      if b in bs {
        var k :| 0 <= k < |bs| && bs[k] == b;
        assert cs[if cut && k > i then k + 1 else k] == b;
      }
    }
  }

  lemma CarveKeeps(bs: seq<Block>, i: nat, n: nat, used: seq<bool>, pages: set<nat>)
    requires i < |bs| && bs[i].free && n <= bs[i].size && n % ALIGN == 0
    requires Tight(bs) && AllApart(bs) && AllProper(bs) && InUse(bs, used) && Held(bs, used, pages)
    ensures var cs := Carve(bs, i, n);
            && Tight(cs) && AllApart(cs) && AllProper(cs) && InUse(cs, used) && Held(cs, used, pages) &&
               Total(cs) == Total(bs)
            && NewLive(bs, cs, cs[i]) && cs[i].size >= n && cs[i].addr == bs[i].addr
  {
    hide AllApart, AllProper, Total, NewLive, TouchedBy, Tight, Carve;
    CarveTotal(bs, i, n);
    CarveApart(bs, i, n);
    CarveProper(bs, i, n);
    CarveTight(bs, i, n);
    CarveLive(bs, i, n);
    forall p: nat | TouchedBy(Carve(bs, i, n), p)
      ensures TouchedBy(bs, p)
    {
      CarvePages(bs, i, n, p);
    }
  }

  // ----- growing -----

  function NewBlock(s: nat, count: nat): Block
    requires count > 0
  {
    Block(s * PAGE, count * PAGE - HEADER, true)
  }

  /** A new block at the end of the list, merged with a free last block it touches. */
  function Extend(bs: seq<Block>, s: nat, count: nat): (r: seq<Block>)
    requires count > 0
    ensures r != []
  {
    var cs := bs + [NewBlock(s, count)];
    if bs != [] && bs[|bs| - 1].free && Touch(bs[|bs| - 1], NewBlock(s, count)) then Join(cs, |bs| - 1) else cs
  }

  /** A block that touches none of the pages lies apart from a block made of them. */
  lemma FreshApart(b: Block, s: nat, count: nat)
    requires count > 0 && forall p: nat :: s <= p < s + count ==> !Touches(b, p)
    ensures Apart(b, NewBlock(s, count))
  {
    var p := if b.addr >= s * PAGE then b.addr / PAGE else s;
    assert s <= p < s + count ==> !Touches(b, p);
  }

  lemma NewTouches(s: nat, count: nat, p: nat)
    requires count > 0
    ensures Touches(NewBlock(s, count), p) <==> s <= p < s + count
  {}

  lemma AppendPages(bs: seq<Block>, s: nat, count: nat, used: seq<bool>, pages: set<nat>)
    requires count > 0 && InUse(bs, used) && Held(bs, used, pages) && FreeRun(used, s, count)
    ensures var cs, used' := bs + [NewBlock(s, count)], Marked(used, s, count, true);
            InUse(cs, used') && Held(cs, used', pages)
  {
    hide Touches, NewBlock;
    var cs := bs + [NewBlock(s, count)];
    forall p: nat | TouchedBy(cs, p)
      ensures TouchedBy(bs, p) || s <= p < s + count
    {
      var i :| 0 <= i < |cs| && Touches(cs[i], p);
      NewTouches(s, count, p);
    }
  }

  lemma AppendApart(bs: seq<Block>, s: nat, count: nat, used: seq<bool>)
    requires count > 0 && InUse(bs, used) && FreeRun(used, s, count) && AllApart(bs)
    ensures AllApart(bs + [NewBlock(s, count)])
  {
    hide Touches;
    var cs := bs + [NewBlock(s, count)];
    forall k | 0 <= k < |bs|
      ensures Apart(bs[k], NewBlock(s, count))
    {
      forall p: nat | s <= p < s + count
        ensures !Touches(bs[k], p)
      {
        assert Touches(bs[k], p) ==> TouchedBy(bs, p);
      }
      FreshApart(bs[k], s, count);
    }
  }

  lemma AppendTight(bs: seq<Block>, s: nat, count: nat)
    requires count > 0 && Tight(bs)
    ensures forall k: nat :: k + 1 != |bs| ==> !Mergeable(bs + [NewBlock(s, count)], k)
  {
    forall k: nat | k + 1 != |bs|
      ensures !Mergeable(bs + [NewBlock(s, count)], k)
    {
      assert !Mergeable(bs, k);
    }
  }

  /** Merging a new block with the last one is what the general merge does there, so the block before it survives. */
  lemma ExtendIsCoalesce(bs: seq<Block>, s: nat, count: nat)
    requires count > 0 && Tight(bs) && bs != [] && bs[|bs| - 1].free && Touch(bs[|bs| - 1], NewBlock(s, count))
    ensures Coalesce(bs + [NewBlock(s, count)], |bs| - 1) == Extend(bs, s, count)
    ensures Extend(bs, s, count)[|Extend(bs, s, count)| - 1].addr == bs[|bs| - 1].addr
  {
    hide Coalesce, Tight;
    AppendTight(bs, s, count);
    var cs, i := bs + [NewBlock(s, count)], |bs| - 1;
    CoalesceTight(cs, i);
    assert i > 0 ==> !Mergeable(cs, i - 1);
    assert Join(cs, i)[i].addr == bs[i].addr;
    assert i > 0 ==> Join(cs, i)[i - 1] == cs[i - 1];
  }

  lemma ExtendKeeps(bs: seq<Block>, s: nat, count: nat, used: seq<bool>, pages: set<nat>)
    requires s > 0 && count > 0 && FreeRun(used, s, count)
    requires Tight(bs) && AllApart(bs) && AllProper(bs) && InUse(bs, used) && Held(bs, used, pages)
    ensures var cs, used' := Extend(bs, s, count), Marked(used, s, count, true);
            && Tight(cs) && AllApart(cs) && AllProper(cs) && InUse(cs, used') && Held(cs, used', pages)
            && Total(cs) == Total(bs) + count * PAGE && SameLive(bs, cs)
            && cs[|cs| - 1].free && cs[|cs| - 1].size >= count * PAGE - HEADER
  {
    hide AllApart, AllProper, Total, InUse, Held, Tight, Coalesce;
    var b := NewBlock(s, count);
    var cs, used' := bs + [b], Marked(used, s, count, true);
    AppendPages(bs, s, count, used, pages);
    AppendApart(bs, s, count, used);
    AppendTight(bs, s, count);
    TotalConcat(bs, [b]);
    TotalOne(b);
    AppendProper(bs, s, count);
    if bs != [] && bs[|bs| - 1].free && Touch(bs[|bs| - 1], b) {
      ExtendIsCoalesce(bs, s, count);
      CoalesceKeeps(cs, |bs| - 1, used', pages);
    } else {
      LastTight(bs, b);
    }
  }

  lemma AppendProper(bs: seq<Block>, s: nat, count: nat)
    requires s > 0 && count > 0 && AllProper(bs)
    ensures AllProper(bs + [NewBlock(s, count)])
  {
    assert Proper(NewBlock(s, count));
  }

  lemma LastTight(bs: seq<Block>, b: Block)
    requires forall k: nat :: k + 1 != |bs| ==> !Mergeable(bs + [b], k)
    requires !(bs != [] && bs[|bs| - 1].free && Touch(bs[|bs| - 1], b))
    ensures Tight(bs + [b])
  {
    var cs := bs + [b];
    forall k: nat
      ensures !Mergeable(cs, k)
    {
      assert k + 1 == |bs| ==> cs[k] == bs[|bs| - 1] && cs[k + 1] == b;
    }
  }
}
