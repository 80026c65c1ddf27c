/** The data slots of the RAM file system: each used one belongs to one file and is zero past its end. */
module RamData {
  import opened Bytes
  import opened RamTree

  type slots = s: seq<Option<seq<byte>>> | |s| == SLOT_COUNT witness seq(SLOT_COUNT, _ => None)

  ghost predicate FileOk(nodes: seq<Node>, data: slots, n: nat)
    requires n < |nodes|
  {
    nodes[n].File? ==>
      && nodes[n].size <= SLOT_SIZE
      && match nodes[n].slot
         case None => nodes[n].size == 0
         case Some(s) =>
           && s < SLOT_COUNT && data[s].Some? && |data[s].value| == SLOT_SIZE
           && forall b :: nodes[n].size <= b < SLOT_SIZE ==> data[s].value[b] == 0
  }

  predicate Owns(node: Node, s: nat) {
    node.File? && node.slot == Some(s)
  }

  ghost predicate SlotsOk(nodes: seq<Node>, data: slots) {
    && (forall n :: 0 <= n < |nodes| ==> FileOk(nodes, data, n))
    && (forall n, m, s: nat :: 0 <= n < |nodes| && 0 <= m < |nodes| && Owns(nodes[n], s) && Owns(nodes[m], s) ==>
          n == m)
    && (forall s :: 0 <= s < SLOT_COUNT && data[s].Some? ==> exists n :: 0 <= n < |nodes| && Owns(nodes[n], s))
  }

  /** The bytes of a file. */
  ghost function Contents(nodes: seq<Node>, data: slots, n: nat): seq<byte>
    requires n < |nodes| && nodes[n].File? && FileOk(nodes, data, n)
  {
    if nodes[n].slot.None? then [] else data[nodes[n].slot.value].value[..nodes[n].size]
  }

  /** A change of nodes that touches no file's slot. */
  lemma SameOwners(nodes: seq<Node>, after: seq<Node>, data: slots)
    requires SlotsOk(nodes, data) && |after| == |nodes|
    requires forall n :: 0 <= n < |nodes| ==>
               after[n] == nodes[n] || ((nodes[n].File? ==> nodes[n].slot.None?) &&
                                        (after[n].File? ==> after[n].slot.None? && after[n].size == 0))
    ensures SlotsOk(after, data)
  {
    forall n | 0 <= n < |after|
      ensures FileOk(after, data, n)
    {
      assert FileOk(nodes, data, n);
    }
    forall s | 0 <= s < SLOT_COUNT && data[s].Some?
      ensures exists n :: 0 <= n < |after| && Owns(after[n], s)
    {
      var n :| 0 <= n < |nodes| && Owns(nodes[n], s);
      assert Owns(after[n], s);
    }
  }

  /** Storing into a file's own slot, or into an unused one that becomes its own. */
  lemma StoreKeeps(nodes: seq<Node>, data: slots, n: nat, s: nat, bytes: seq<byte>, size: nat)
    requires SlotsOk(nodes, data) && n < |nodes| && nodes[n].File? && s < SLOT_COUNT
    requires nodes[n].slot == Some(s) || (nodes[n].slot.None? && data[s].None?)
    requires |bytes| == SLOT_SIZE && size <= SLOT_SIZE && forall b :: size <= b < SLOT_SIZE ==> bytes[b] == 0
    ensures var after := nodes[n := nodes[n].(slot := Some(s), size := size)]; SlotsOk(after, data[s := Some(bytes)])
  {
    var after, data' := nodes[n := nodes[n].(slot := Some(s), size := size)], data[s := Some(bytes)];
    forall m | 0 <= m < |nodes| && m != n
      ensures !Owns(nodes[m], s) && FileOk(after, data', m)
    {
      assert FileOk(nodes, data, m);
      assert nodes[n].slot == Some(s) ==> Owns(nodes[n], s);
    }
    assert Owns(after[n], s) && FileOk(after, data', n);
    forall t | 0 <= t < SLOT_COUNT && data'[t].Some?
      ensures exists m :: 0 <= m < |after| && Owns(after[m], t)
    {
      if t != s {
        var m :| 0 <= m < |nodes| && Owns(nodes[m], t);
        assert Owns(after[m], t);
      }
    }
  }

  /** Giving a file's slot back; the node becomes an empty file or is unused. */
  lemma FreeKeeps(nodes: seq<Node>, data: slots, n: nat, s: nat, node: Node)
    requires SlotsOk(nodes, data) && n < |nodes| && Owns(nodes[n], s)
    requires node.File? ==> node.slot.None? && node.size == 0
    ensures s < SLOT_COUNT && SlotsOk(nodes[n := node], data[s := None])
  {
    assert FileOk(nodes, data, n);
    var after, data' := nodes[n := node], data[s := None];
    forall m | 0 <= m < |nodes|
      ensures FileOk(after, data', m)
    {
      assert FileOk(nodes, data, m);
      if m != n && nodes[m].File? && nodes[m].slot.Some? {
        assert Owns(nodes[m], nodes[m].slot.value);
      }
    }
    forall t | 0 <= t < SLOT_COUNT && data'[t].Some?
      ensures exists m :: 0 <= m < |after| && Owns(after[m], t)
    {
      var m :| 0 <= m < |nodes| && Owns(nodes[m], t);
      assert Owns(after[m], t);
    }
  }

  /**
   Writing at an offset: the file then holds its old bytes overlaid with the new ones, and every
   other file its own.
   */
  lemma WriteMeans(nodes: seq<Node>, data: slots, n: nat, s: nat, offset: nat, bytes: seq<byte>)
    requires SlotsOk(nodes, data) && n < |nodes| && nodes[n].File? && s < SLOT_COUNT && offset + |bytes| <= SLOT_SIZE
    requires nodes[n].slot == Some(s) || (nodes[n].slot.None? && data[s].None?)
    ensures FileOk(nodes, data, n)
    ensures var was := if nodes[n].slot.None? then Zeros(SLOT_SIZE) else data[s].value;
            && |was| == SLOT_SIZE
            && var size := if offset + |bytes| > nodes[n].size then offset + |bytes| else nodes[n].size;
               var after, data' := nodes[n := nodes[n].(slot := Some(s), size := size)],
                 data[s := Some(Splice(was, offset, bytes))];
               && SlotsOk(after, data')
               && FileOk(after, data', n) &&
                  Contents(after, data', n) == Overlay(Contents(nodes, data, n), offset, bytes)
               && OthersKept(nodes, data, after, data', n)
  {
    hide Overlay;
    assert FileOk(nodes, data, n);
    var was := if nodes[n].slot.None? then Zeros(SLOT_SIZE) else data[s].value;
    var size := if offset + |bytes| > nodes[n].size then offset + |bytes| else nodes[n].size;
    var now := Splice(was, offset, bytes);
    StoreKeeps(nodes, data, n, s, now, size);
    var after, data' := nodes[n := nodes[n].(slot := Some(s), size := size)], data[s := Some(now)];
    assert FileOk(after, data', n);
    OverlayIs(Contents(nodes, data, n), offset, bytes, was, now, nodes[n].size, size);
    OthersNow(nodes, data, after, data', n, s);
  }

  lemma OverlayIs(held: seq<byte>, offset: nat, bytes: seq<byte>, was: seq<byte>, now: seq<byte>, from: nat, size: nat)
    requires from <= |was| && held == was[..from] && (forall b :: from <= b < |was| ==> was[b] == 0)
    requires offset + |bytes| <= |was| && now == Splice(was, offset, bytes)
    requires size == if offset + |bytes| > from then offset + |bytes| else from
    ensures now[..size] == Overlay(held, offset, bytes)
  {}

  ghost predicate OthersKept(nodes: seq<Node>, data: slots, after: seq<Node>, data': slots, n: nat) {
    forall m :: 0 <= m < |nodes| && m != n && nodes[m].File? ==>
                  && m < |after| && after[m] == nodes[m] && FileOk(nodes, data, m) && FileOk(after, data', m)
                  && Contents(after, data', m) == Contents(nodes, data, m)
  }

  lemma OthersNow(nodes: seq<Node>, data: slots, after: seq<Node>, data': slots, n: nat, s: nat)
    requires SlotsOk(nodes, data) && SlotsOk(after, data') && |after| == |nodes| && n < |nodes| && s < SLOT_COUNT
    requires forall m :: 0 <= m < |nodes| && m != n ==> after[m] == nodes[m]
    requires forall t :: 0 <= t < SLOT_COUNT && t != s ==> data'[t] == data[t]
    requires Owns(nodes[n], s) || data[s].None?
    ensures OthersKept(nodes, data, after, data', n)
  {
    forall m | 0 <= m < |nodes| && m != n && nodes[m].File?
      ensures FileOk(nodes, data, m) && FileOk(after, data', m) && Contents(after, data', m) == Contents(nodes, data, m)
    {
      assert FileOk(nodes, data, m) && FileOk(after, data', m);
      assert nodes[m].slot.Some? ==> Owns(nodes[m], nodes[m].slot.value);
    }
  }
}
