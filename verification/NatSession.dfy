/**
 One session of the UDP NAT: packets wait in a bounded queue until a handler takes over.

 First the calls one after the other, then the same calls interleaved.
 */
module NatSession {
  import opened Prelude

  const CAPACITY := 64

  /** A packet is named by its rank among the arrivals of its session. The histories are what was
      read, what the handler got and what was dropped, in order. `queue` is None when the session was
      created with a handler. */
  datatype Session = Session(
    queue: Option<seq<nat>>, handler: bool,
    arrived: nat, read: seq<nat>, handled: seq<nat>, dropped: seq<nat>)

  datatype Op = Packet | Read | SetHandler

  function New(withHandler: bool): Session {
    if withHandler then Session(None, true, 0, [], [], []) else Session(Some([]), false, 0, [], [], [])
  }

  function Queued(s: Session): seq<nat> {
    match s.queue case Some(q) => q case None => []
  }

  function Apply(s: Session, op: Op): Session {
    match op
    case Packet =>
      var p := s.arrived;
      var t := s.(arrived := p + 1);
      if s.handler then t.(handled := s.handled + [p])
      else if s.queue.Some? && |s.queue.value| < CAPACITY then t.(queue := Some(s.queue.value + [p]))
      else t.(dropped := s.dropped + [p])
    case Read =>
      if Queued(s) != [] then s.(queue := Some(Queued(s)[1..]), read := s.read + [Queued(s)[0]])
      else s // blocks, or ends with an error
    case SetHandler =>
      if s.queue.Some? then s.(handler := true, queue := Some([]), handled := s.handled + s.queue.value)
      else s.(handler := true)
  }

  function ApplyAll(s: Session, ops: seq<Op>): Session {
    if ops == [] then s else Apply(ApplyAll(s, ops[..|ops| - 1]), ops[|ops| - 1])
  }

  // ---- what should be delivered, told without the queue ----

  /** How many packets wait after `ops`, and whether a handler is set: a counter machine. */
  function Waiting(ops: seq<Op>): (n: nat)
    ensures n <= CAPACITY
  {
    if ops == [] then 0
    else
      var n := Waiting(ops[..|ops| - 1]);
      match ops[|ops| - 1]
      case Packet => if SetHandler in ops[..|ops| - 1] || n == CAPACITY then n else n + 1
      case Read => if n == 0 then 0 else n - 1
      case SetHandler => 0
  }

  function Arrivals(ops: seq<Op>): nat {
    Count(ops, Packet)
  }

  /** The arrivals, in order, without those that came while the queue was full. */
  function Kept(ops: seq<Op>): seq<nat> {
    if ops == [] then []
    else
      var before := ops[..|ops| - 1];
      Kept(before) +
      (if ops[|ops| - 1] == Packet && (SetHandler in before || Waiting(before) < CAPACITY)
       then [Arrivals(before)] else [])
  }

  lemma ArrivalsSnoc(ops: seq<Op>, op: Op)
    ensures Arrivals(ops + [op]) == Arrivals(ops) + (if op == Packet then 1 else 0)
  {
    CountAppend(ops, [op], Packet);
    assert Count([op], Packet) == if op == Packet then 1 else 0;
  }

  /** First in, first out: what was read, then handled, then still waits are the kept arrivals in
      their order; never more than 64 wait, and none once a handler has taken over. */
  lemma {:induction false} FirstInFirstOut(ops: seq<Op>)
    ensures var s := ApplyAll(New(false), ops);
            && s.queue.Some?
            && s.read + s.handled + s.queue.value == Kept(ops)
            && |s.queue.value| == Waiting(ops) <= CAPACITY
            && s.arrived == Arrivals(ops)
            && (s.handler <==> SetHandler in ops)
            && (s.handler ==> s.queue.value == [])
            && (!s.handler ==> s.handled == [])
  {
    if ops != [] {
      var before, op := ops[..|ops| - 1], ops[|ops| - 1];
      FirstInFirstOut(before);
      assert ops == before + [op];
      ArrivalsSnoc(before, op);
      var s := ApplyAll(New(false), before);
      match op {
        case Packet =>
          assert s.handler ==> s.handled + [s.arrived] + [] == s.handled + s.queue.value + [s.arrived];
          assert s.read + s.handled + (s.queue.value + [s.arrived]) == s.read + s.handled + s.queue.value + [s.arrived];
        case Read =>
          if s.queue.value != [] {
            assert s.queue.value == [s.queue.value[0]] + s.queue.value[1..];
          }
        case SetHandler =>
          assert s.read + (s.handled + s.queue.value) + [] == s.read + s.handled + s.queue.value;
      }
    }
  }

  /** The kept arrivals are in strictly increasing order: nothing is delivered twice or reordered. */
  lemma {:induction false} KeptIsOrdered(ops: seq<Op>)
    ensures forall i, j | 0 <= i < j < |Kept(ops)| :: Kept(ops)[i] < Kept(ops)[j]
    ensures forall p <- Kept(ops) :: p < Arrivals(ops)
  {
    if ops != [] {
      var before := ops[..|ops| - 1];
      KeptIsOrdered(before);
      ArrivalsSnoc(before, ops[|ops| - 1]);
      assert ops == before + [ops[|ops| - 1]];
      forall i, j | 0 <= i < j < |Kept(ops)| ensures Kept(ops)[i] < Kept(ops)[j] {
        assert Kept(before)[i] in Kept(before);
      }
    }
  }

  /** Everything else was dropped: the numbers of kept and dropped packets add up. */
  lemma {:induction false} KeptAndDropped(ops: seq<Op>)
    ensures |Kept(ops)| + |ApplyAll(New(false), ops).dropped| == Arrivals(ops)
  {
    if ops != [] {
      var before, op := ops[..|ops| - 1], ops[|ops| - 1];
      KeptAndDropped(before);
      FirstInFirstOut(before);
      ArrivalsSnoc(before, op);
      assert ops == before + [op];
    }
  }

  /** Without a handler and a read the first 64 of any number of packets wait and the rest is dropped. */
  lemma {:induction false} FirstPacketsWait(n: nat)
    ensures var s := ApplyAll(New(false), Repeated(Packet, n));
            && s == Session(Some(FirstRanks(if n < 64 then n else 64)), false, n, [], [], s.dropped)
            && |s.dropped| == (if n < 64 then 0 else n - 64)
  {
    assert FirstRanks(0) == [] && Repeated(Packet, 0) == [];
    if n > 0 {
      FirstPacketsWait(n - 1);
      var ops := Repeated(Packet, n);
      assert ops[..n - 1] == Repeated(Packet, n - 1) && ops[n - 1] == Packet;
      assert ApplyAll(New(false), ops) == Apply(ApplyAll(New(false), ops[..n - 1]), Packet);
      assert FirstRanks(n) == FirstRanks(n - 1) + [n - 1];
    }
  }

  function Repeated(op: Op, n: nat): seq<Op> {
    seq(n, _ => op)
  }

  function FirstRanks(n: nat): seq<nat> {
    seq(n, i => i)
  }

  // ---- the object ----

  /** The cases of the select in a read, and what the read ends with. */
  datatype Ready = PacketWaits | SessionClosed | DeadlinePassed
  datatype ReadResult = Case(ready: Ready, packet: Option<nat>) | Blocks

  predicate IsReady(expired: bool, c: Ready, queue: seq<nat>, closed: bool) {
    match c
    case PacketWaits => queue != []
    case SessionClosed => closed
    case DeadlinePassed => expired
  }

  class NatConn {
    const source: nat
    var packets: Option<seq<nat>>
    var handler: bool
    var closed: bool
    var onCloseCalls: nat
    var arrived: nat
    ghost var read: seq<nat>
    ghost var handled: seq<nat>
    ghost var dropped: seq<nat>

    ghost function Abs(): Session
      reads this
    {
      Session(packets, handler, arrived, read, handled, dropped)
    }

    ghost predicate Valid()
      reads this
    {
      && onCloseCalls == (if closed then 1 else 0)
      && (packets.Some? ==> |packets.value| <= CAPACITY)
      && (packets.None? ==> handler)
    }

    constructor (source: nat, withHandler: bool)
      ensures Valid() && !closed && this.source == source && Abs() == New(withHandler)
    {
      this.source := source;
      packets := if withHandler then None else Some([]);
      handler := withHandler;
      closed, onCloseCalls, arrived := false, 0, 0;
      read, handled, dropped := [], [], [];
    }

    /** The dispatch of a packet: to the handler, into the queue if it has room, or away. */
    method Dispatch()
      requires Valid()
      modifies this
      ensures Valid() && Abs() == Apply(old(Abs()), Packet) && closed == old(closed)
    {
      var pack := arrived;
      arrived := arrived + 1;
      if handler {
        handled := handled + [pack];
      } else if packets.Some? && |packets.value| < CAPACITY {
        packets := Some(packets.value + [pack]);
      } else {
        dropped := dropped + [pack];
      }
    }

    /** Stores the handler, then hands it everything that waits. */
    method TakeOver()
      requires Valid()
      modifies this
      ensures Valid() && Abs() == Apply(old(Abs()), SetHandler) && closed == old(closed)
    {
      handler := true;
      if packets.None? {
        return;
      }
      while packets.value != []
        invariant packets.Some? && |packets.value| <= CAPACITY
        invariant handled + packets.value == old(handled) + old(packets.value)
        invariant handler && closed == old(closed) && onCloseCalls == old(onCloseCalls)
        invariant arrived == old(arrived) && read == old(read) && dropped == old(dropped)
        decreases |packets.value|
      {
        var pack := packets.value[0];
        packets := Some(packets.value[1..]);
        handled := handled + [pack];
      }
      assert handled + [] == handled;
    }

    /** A read takes any case that is ready: a packet waits, the session is closed, or the read deadline
        has passed (`expired`); `preferred` resolves the choice between them. With none ready it blocks. */
    method ReadPacket(expired: bool, preferred: Ready) returns (r: ReadResult)
      requires Valid()
      modifies this
      ensures Valid() && closed == old(closed)
      ensures IsReady(expired, preferred, old(Queued(Abs())), closed) ==> r.Case? && r.ready == preferred
      ensures r.Case? ==> IsReady(expired, r.ready, old(Queued(Abs())), closed)
      ensures r.Blocks? <==> old(Queued(Abs())) == [] && !closed && !expired
      ensures if r.Case? && r.ready == PacketWaits
              then r.packet == Some(old(Queued(Abs()))[0]) && Abs() == Apply(old(Abs()), Read)
              else (r.Case? ==> r.packet == None) && Abs() == old(Abs())
    {
      var queue := if packets.Some? then packets.value else [];
      var choice;
      if IsReady(expired, preferred, queue, closed) {
        choice := preferred;
      } else if queue != [] {
        choice := PacketWaits;
      } else if closed {
        choice := SessionClosed;
      } else if expired {
        choice := DeadlinePassed;
      } else {
        return Blocks;
      }
      if choice != PacketWaits {
        return Case(choice, None);
      }
      read := read + [queue[0]];
      packets := Some(queue[1..]);
      r := Case(choice, Some(queue[0]));
    }

    /** The close callback runs at the first close only. */
    method Close()
      requires Valid()
      modifies this
      ensures Valid() && closed && Abs() == old(Abs())
    {
      if !closed {
        closed := true;
        onCloseCalls := onCloseCalls + 1;
      }
    }
  }
}
