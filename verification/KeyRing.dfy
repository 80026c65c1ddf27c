/**
 The keyboard ring: the interrupt handler pushes, one consumer pops.  A push is one
 step, since interrupts do not nest; a pop is several, and pushes may come between them.
 */
module KeyRing {
  const SIZE := 64

  /** Where the consumer is inside a pop. */
  datatype At = Idle | SawHead(head: nat) | NotEmpty | Fetched(key: int)

  datatype Ring = Ring(buffer: seq<int>, head: nat, tail: nat, at: At)

  predicate Shaped(r: Ring) {
    |r.buffer| == SIZE && r.head < SIZE && r.tail < SIZE && (r.at.SawHead? ==> r.at.head < SIZE)
  }

  function Cell(n: nat): nat {
    n % SIZE
  }

  datatype Event = Nothing | Accepted(key: int) | Refused(key: int) | Empty | Popped(key: int)

  datatype Move = Interrupt(key: int) | Consumer

  datatype Next = Next(ring: Ring, event: Event)

  /** The whole of a push. */
  function Push(r: Ring, key: int): (n: Next)
    requires Shaped(r)
    ensures Shaped(n.ring)
  {
    var next := (r.head + 1) % SIZE;
    if next == r.tail then Next(r, Refused(key))
    else Next(r.(buffer := r.buffer[r.head := key], head := next), Accepted(key))
  }

  /** One step of a pop: read the head, compare it with the tail, fetch the key, advance the tail and return. */
  function Pop(r: Ring): (n: Next)
    requires Shaped(r)
    ensures Shaped(n.ring)
  {
    match r.at
    case Idle => Next(r.(at := SawHead(r.head)), Nothing)
    case SawHead(head) => if head == r.tail then Next(r.(at := Idle), Empty) else Next(r.(at := NotEmpty), Nothing)
    case NotEmpty => Next(r.(at := Fetched(r.buffer[r.tail])), Nothing)
    case Fetched(key) => Next(r.(tail := (r.tail + 1) % SIZE, at := Idle), Popped(key))
  }

  function Step(r: Ring, m: Move): (n: Next)
    requires Shaped(r)
    ensures Shaped(n.ring)
  {
    match m
    case Interrupt(key) => Push(r, key)
    case Consumer => Pop(r)
  }

  function Run(r: Ring, moves: seq<Move>): (s: (Ring, seq<Event>))
    requires Shaped(r)
    ensures Shaped(s.0)
    decreases |moves|
  {
    if moves == [] then (r, [])
    else
      var front := Run(r, moves[..|moves| - 1]);
      var n := Step(front.0, moves[|moves| - 1]);
      (n.ring, front.1 + [n.event])
  }

  // ----- what went in and what came out -----

  function AcceptedKeys(es: seq<Event>): seq<int> {
    if es == [] then []
    else AcceptedKeys(es[..|es| - 1]) + match es[|es| - 1] case Accepted(key) => [key] case _ => []
  }

  function PoppedKeys(es: seq<Event>): seq<int> {
    if es == [] then []
    else PoppedKeys(es[..|es| - 1]) + match es[|es| - 1] case Popped(key) => [key] case _ => []
  }

  /** The ring holds the keys accepted and not yet released, in order, wherever the consumer is. */
  ghost predicate Holds(r: Ring, ins: seq<int>, outs: seq<int>) {
    && Shaped(r) && |outs| <= |ins| < |outs| + SIZE && outs == ins[..|outs|]
    && r.head == Cell(|ins|) && r.tail == Cell(|outs|)
    && (forall k :: |outs| <= k < |ins| ==> r.buffer[Cell(k)] == ins[k])
    && Where(r.at, ins, |outs|)
  }

  /** What the consumer knows: a head it saw was passed since its last pop; the key it holds is the oldest. */
  ghost predicate Where(at: At, ins: seq<int>, out: nat) {
    match at
    case Idle => true
    case SawHead(head) => exists n :: out <= n <= |ins| && head == Cell(n)
    case NotEmpty => out < |ins|
    case Fetched(key) => out < |ins| && key == ins[out]
  }

  /** Positions less than a lap apart fall on the same cell only if they are equal. */
  lemma SameCell(a: nat, b: nat)
    requires a <= b < a + SIZE && Cell(a) == Cell(b)
    ensures a == b
  {}

  /** A lap later the cell is the same, and not before. */
  lemma LapCell(a: nat, b: nat)
    requires a < b <= a + SIZE
    ensures Cell(a) == Cell(b) <==> b == a + SIZE
  {}

  lemma CellsInside()
    ensures forall n: nat :: Cell(n) < SIZE
  {}

  lemma NextCell(n: nat)
    ensures Cell(n + 1) == (Cell(n) + 1) % SIZE
  {}

  lemma PushKeeps(r: Ring, key: int, ins: seq<int>, outs: seq<int>)
    requires Holds(r, ins, outs)
    ensures var n := Push(r, key);
            if n.event == Refused(key) then Holds(n.ring, ins, outs) && |ins| == |outs| + SIZE - 1
            else n.event == Accepted(key) && Holds(n.ring, ins + [key], outs)
    ensures |ins| == |outs| + SIZE - 1 ==> Push(r, key).event == Refused(key)
  {
    hide Cell, Where;
    var n := Push(r, key);
    NextCell(|ins|);
    LapCell(|outs|, |ins| + 1);
    CellsInside();
    if n.event != Refused(key) {
      var more := ins + [key];
      forall k | |outs| <= k < |more|
        ensures n.ring.buffer[Cell(k)] == more[k]
      {
        if k < |ins| && Cell(k) == Cell(|ins|) {
          SameCell(k, |ins|);
        }
      }
      WhereStays(r.at, ins, key, |outs|);
    }
  }
  lemma WhereStays(at: At, ins: seq<int>, key: int, out: nat)
    requires Where(at, ins, out)
    ensures Where(at, ins + [key], out)
  {}

  lemma PopKeeps(r: Ring, ins: seq<int>, outs: seq<int>)
    requires Holds(r, ins, outs)
    ensures var n := Pop(r);
            match n.event
            case Popped(key) => |outs| < |ins| && key == ins[|outs|] && Holds(n.ring, ins, outs + [key])
            case Nothing => Holds(n.ring, ins, outs)
            case Empty => Holds(n.ring, ins, outs) && r.at == SawHead(Cell(|outs|))
            case Accepted(_) => false
            case Refused(_) => false
  {
    hide Cell;
    match r.at {
      case Idle =>
        assert Cell(|ins|) == r.head;
      case SawHead(head) =>
        var m :| |outs| <= m <= |ins| && head == Cell(m);
        assert Cell(m) != Cell(|outs|) ==> m != |outs|;
      case NotEmpty =>
      case Fetched(key) =>
        NextCell(|outs|);
        assert outs + [key] == ins[..|outs| + 1];
    }
  }

  const START := Ring(seq(SIZE, _ => 0), 0, 0, Idle)

  lemma Logs(es: seq<Event>, e: Event)
    ensures AcceptedKeys(es + [e]) == AcceptedKeys(es) + match e case Accepted(key) => [key] case _ => []
    ensures PoppedKeys(es + [e]) == PoppedKeys(es) + match e case Popped(key) => [key] case _ => []
  {
    assert (es + [e])[..|es|] == es;
  }

  /**
   For every interleaving of whole pushes with the steps of pops: the keys popped
   are the first keys accepted, in order, none lost and none twice.
   */
  lemma {:induction false} InOrder(moves: seq<Move>)
    ensures var s := Run(START, moves); Holds(s.0, AcceptedKeys(s.1), PoppedKeys(s.1))
    decreases |moves|
  {
    hide Holds;
    if moves == [] {
      StartHolds();
    } else {
      var front := moves[..|moves| - 1];
      InOrder(front);
      var s := Run(START, front);
      var ins, outs := AcceptedKeys(s.1), PoppedKeys(s.1);
      var m := moves[|moves| - 1];
      var n := Step(s.0, m);
      Logs(s.1, n.event);
      match m {
        case Interrupt(key) => PushKeeps(s.0, key, ins, outs);
        case Consumer => PopKeeps(s.0, ins, outs);
      }
      assert ins + [] == ins && outs + [] == outs;
    }
  }

  lemma StartHolds()
    ensures Holds(START, [], [])
  {}

  /** A key is refused exactly when 63 keys were accepted and not yet released. */
  lemma RefusedWhenFull(moves: seq<Move>, key: int)
    ensures var s := Run(START, moves);
            Push(s.0, key).event == Refused(key) <==> |AcceptedKeys(s.1)| == |PoppedKeys(s.1)| + SIZE - 1
  {
    InOrder(moves);
    var s := Run(START, moves);
    PushKeeps(s.0, key, AcceptedKeys(s.1), PoppedKeys(s.1));
  }

  /** Keys left alone come out: a pop run without interruption takes the oldest key. */
  lemma PopTakesOldest(r: Ring, ins: seq<int>, outs: seq<int>)
    requires Holds(r, ins, outs) && r.at == Idle && |outs| < |ins|
    ensures var a := Pop(r).ring; var b := Pop(a).ring; var c := Pop(b).ring; Pop(c).event == Popped(ins[|outs|])
  {
    PopKeeps(r, ins, outs);
    if Cell(|ins|) == Cell(|outs|) {
      SameCell(|outs|, |ins|);
    }
  }
}
