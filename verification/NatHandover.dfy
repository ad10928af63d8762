/**
 The same session with its calls interleaved: a packet loads the handler first and is delivered
 later, and the handover stores the handler first and then drains the queue packet by packet.
 */
module NatHandover {
  import opened Prelude
  import opened NatSession
  import opened Pigeonhole

  /** A call that has loaded the handler field but not delivered its packet yet. */
  datatype Flight = Flight(packet: nat, sawHandler: bool)

  datatype State = State(
    queue: seq<nat>, handler: bool, draining: bool, flights: seq<Flight>,
    arrived: nat, read: seq<nat>, handled: seq<nat>, dropped: seq<nat>)

  const INITIAL := State([], false, false, [], 0, [], [], [])

  datatype Action = Load | Deliver(f: nat) | Read | Store | Drain | DrainEnd

  predicate Enabled(s: State, a: Action) {
    match a
    case Load => true
    case Deliver(f) => f < |s.flights|
    case Read => s.queue != []
    case Store => !s.draining
    case Drain => s.draining && s.queue != []
    case DrainEnd => s.draining && s.queue == []
  }

  function Without<T>(s: seq<T>, i: nat): (r: seq<T>)
    requires i < |s|
  {
    s[..i] + s[i + 1..]
  }

  function Step(s: State, a: Action): State
    requires Enabled(s, a)
  {
    match a
    case Load => s.(arrived := s.arrived + 1, flights := s.flights + [Flight(s.arrived, s.handler)])
    case Deliver(f) =>
      var p, t := s.flights[f].packet, s.(flights := Without(s.flights, f));
      if s.flights[f].sawHandler then t.(handled := s.handled + [p])
      else if |s.queue| < CAPACITY then t.(queue := s.queue + [p])
      else t.(dropped := s.dropped + [p])
    case Read => s.(queue := s.queue[1..], read := s.read + [s.queue[0]])
    case Store => s.(handler := true, draining := true)
    case Drain => s.(queue := s.queue[1..], handled := s.handled + [s.queue[0]])
    case DrainEnd => s.(draining := false)
  }

  predicate Runs(s: State, run: seq<Action>)
    decreases |run|
  {
    run == [] || (Enabled(s, run[0]) && Runs(Step(s, run[0]), run[1..]))
  }

  function Exec(s: State, run: seq<Action>): State
    requires Runs(s, run)
    decreases |run|
  {
    if run == [] then s else Exec(Step(s, run[0]), run[1..])
  }

  // ---- no packet is lost or duplicated, in any interleaving ----

  function Packets(flights: seq<Flight>): seq<nat> {
    if flights == [] then [] else [flights[0].packet] + Packets(flights[1..])
  }

  /** In how many places a packet is. */
  function Places(s: State, p: nat): nat {
    Count(Packets(s.flights), p) + Count(s.queue, p) + Count(s.read, p) + Count(s.handled, p) + Count(s.dropped, p)
  }

  ghost predicate Inv(s: State) {
    && |s.queue| <= CAPACITY
    && (s.draining ==> s.handler)
    && forall p: nat :: Places(s, p) == if p < s.arrived then 1 else 0
  }

  lemma CountOne(x: nat, p: nat)
    ensures Count([x], p) == if x == p then 1 else 0
  {
    assert [x][1..] == [];
  }

  lemma CountSnoc(s: seq<nat>, x: nat, p: nat)
    ensures Count(s + [x], p) == Count(s, p) + (if x == p then 1 else 0)
  {
    CountAppend(s, [x], p);
    CountOne(x, p);
  }

  lemma {:induction false} PacketsSnoc(flights: seq<Flight>, f: Flight)
    ensures Packets(flights + [f]) == Packets(flights) + [f.packet]
  {
    if flights == [] {
      assert flights + [f] == [f] && [f][1..] == [];
    } else {
      assert (flights + [f])[1..] == flights[1..] + [f];
      PacketsSnoc(flights[1..], f);
    }
  }

  lemma {:induction false} CountWithout(flights: seq<Flight>, i: nat, p: nat)
    requires i < |flights|
    ensures Count(Packets(Without(flights, i)), p)
      == Count(Packets(flights), p) - (if flights[i].packet == p then 1 else 0)
  {
    if i == 0 {
      assert Without(flights, 0) == flights[1..];
    } else {
      assert Without(flights, i) == [flights[0]] + Without(flights[1..], i - 1);
      CountWithout(flights[1..], i - 1, p);
    }
  }

  lemma DeliverKeepsPlaces(s: State, f: nat, p: nat)
    requires Enabled(s, Deliver(f))
    ensures Places(Step(s, Deliver(f)), p) == Places(s, p)
  {
    var x := s.flights[f].packet;
    CountWithout(s.flights, f, p);
    if s.flights[f].sawHandler {
      CountSnoc(s.handled, x, p);
    } else if |s.queue| < CAPACITY {
      CountSnoc(s.queue, x, p);
    } else {
      CountSnoc(s.dropped, x, p);
    }
  }

  lemma StepKeepsPlaces(s: State, a: Action, p: nat)
    requires Enabled(s, a)
    ensures Places(Step(s, a), p) == Places(s, p) + (if a.Load? && p == s.arrived then 1 else 0)
  {
    match a {
      case Load =>
        PacketsSnoc(s.flights, Flight(s.arrived, s.handler));
        CountSnoc(Packets(s.flights), s.arrived, p);
      case Deliver(f) => DeliverKeepsPlaces(s, f, p);
      case Read => CountSnoc(s.read, s.queue[0], p);
      case Drain => CountSnoc(s.handled, s.queue[0], p);
      case _ =>
    }
  }

  lemma {:induction false} RunKeepsInv(s: State, run: seq<Action>)
    requires Inv(s) && Runs(s, run)
    ensures Inv(Exec(s, run))
    decreases |run|
  {
    if run != [] {
      forall p: nat
        ensures Places(Step(s, run[0]), p) == if p < Step(s, run[0]).arrived then 1 else 0
      {
        StepKeepsPlaces(s, run[0], p);
      }
      RunKeepsInv(Step(s, run[0]), run[1..]);
    }
  }

  /** Conservation: at every moment of every interleaving each packet that has arrived is in exactly
      one place: on its way, queued, read, handled or dropped. */
  lemma EveryPacketIsSomewhere(run: seq<Action>, p: nat)
    requires Runs(INITIAL, run)
    ensures Places(Exec(INITIAL, run), p) == if p < Exec(INITIAL, run).arrived then 1 else 0
    ensures |Exec(INITIAL, run).queue| <= CAPACITY
  {
    RunKeepsInv(INITIAL, run);
  }

  function Reads(n: nat): seq<Action> {
    if n == 0 then [] else [Action.Read] + Reads(n - 1)
  }

  /** Reads can take everything that waits, the oldest first. */
  lemma {:induction false} ReadsTakeAll(s: State)
    ensures Runs(s, Reads(|s.queue|))
    ensures Exec(s, Reads(|s.queue|)) == s.(queue := [], read := s.read + s.queue)
    decreases |s.queue|
  {
    if s.queue != [] {
      var run, t := Reads(|s.queue|), Step(s, Action.Read);
      ReadsTakeAll(t);
      assert run[1..] == Reads(|t.queue|);
      assert t.read + t.queue == s.read + s.queue;
    } else {
      assert s.read + s.queue == s.read;
    }
  }

  // ---- what overlapping calls can do, and exactly when ----

  /** Some packet is on its way whose call has not seen the handler. */
  predicate HasStale(s: State) {
    exists f :: 0 <= f < |s.flights| && !s.flights[f].sawHandler
  }

  lemma HandedOverStays(s: State, a: Action)
    requires Enabled(s, a) && s.handler && s.queue == [] && !HasStale(s)
    ensures var t := Step(s, a); t.handler && t.queue == [] && !HasStale(t)
  {
    var t := Step(s, a);
    if a.Deliver? {
      assert forall f | 0 <= f < |t.flights| :: t.flights[f] == s.flights[if f < a.f then f else f + 1];
    }
  }

  lemma {:induction false} HandedOverForever(s: State, run: seq<Action>)
    requires Runs(s, run) && s.handler && s.queue == [] && !HasStale(s)
    ensures Exec(s, run).queue == []
    decreases |run|
  {
    if run != [] {
      HandedOverStays(s, run[0]);
      HandedOverForever(Step(s, run[0]), run[1..]);
    }
  }

  /** The run leads from `s` to a state in which some packet waits. */
  predicate Strands(s: State, run: seq<Action>) {
    Runs(s, run) && Exec(s, run).queue != []
  }

  /** After a handover a packet can still get into the queue, which the handler never sees, if and
      only if some call had loaded the handler field before it was stored and is still on its way. */
  lemma StrandedExactly(s: State)
    requires s.handler && !s.draining && s.queue == []
    ensures (exists run :: Strands(s, run)) <==> HasStale(s)
  {
    if HasStale(s) {
      var f: nat :| f < |s.flights| && !s.flights[f].sawHandler;
      Unroll(s, Deliver(f), []);
      assert [Deliver(f)] + [] == [Deliver(f)];
      assert Strands(s, [Deliver(f)]);
    } else {
      forall run | Runs(s, run)
        ensures !Strands(s, run)
      {
        HandedOverForever(s, run);
      }
    }
  }

  /** Such a state does arise: a packet whose call looked before the handler was stored stays behind. */
  lemma OverlapStrands()
    ensures var run := [Load, Store, DrainEnd, Deliver(0)];
            Runs(INITIAL, run) && Exec(INITIAL, run).handler && !Exec(INITIAL, run).draining &&
              Exec(INITIAL, run).queue == [0]
  {
    var s1 := Step(INITIAL, Load);
    var s2 := Step(s1, Store);
    var s3 := Step(s2, DrainEnd);
    Unroll(s3, Deliver(0), []);
    Unroll(s2, DrainEnd, [Deliver(0)]);
    Unroll(s1, Store, [DrainEnd, Deliver(0)]);
    Unroll(INITIAL, Load, [Store, DrainEnd, Deliver(0)]);
  }

  ghost predicate Increasing(ps: seq<nat>) {
    forall i, j | 0 <= i < j < |ps| :: ps[i] < ps[j]
  }

  /** Each packet is delivered before the next one arrives. */
  predicate OneByOne(s: State, run: seq<Action>)
    requires Runs(s, run)
    decreases |run|
  {
    run == [] || ((run[0].Load? ==> s.flights == []) && OneByOne(Step(s, run[0]), run[1..]))
  }

  /** The run hands packets to the handler out of order, although they arrive one by one. */
  ghost predicate Reorders(s: State, run: seq<Action>) {
    Runs(s, run) && OneByOne(s, run) && !Increasing(Exec(s, run).handled)
  }

  /** A handover that found nothing waiting: the handler sees one packet after the other. */
  ghost predicate Orderly(s: State) {
    && s.handler && s.queue == [] && Increasing(s.handled)
    && (forall p <- s.handled :: p < s.arrived)
    && |s.flights| <= 1
    && forall f <- s.flights :: f.sawHandler && f.packet < s.arrived && forall p <- s.handled :: p < f.packet
  }

  lemma StepKeepsOrder(s: State, a: Action)
    requires Orderly(s) && Enabled(s, a) && (a.Load? ==> s.flights == [])
    ensures Orderly(Step(s, a))
  {
    if a.Deliver? {
      assert s.flights[0] in s.flights && Without(s.flights, 0) == [];
      forall i | 0 <= i < |s.handled| ensures s.handled[i] < s.flights[0].packet { assert s.handled[i] in s.handled; }
    }
  }

  lemma {:induction false} RunKeepsOrder(s: State, run: seq<Action>)
    requires Orderly(s) && Runs(s, run) && OneByOne(s, run)
    ensures Orderly(Exec(s, run))
    decreases |run|
  {
    if run != [] {
      StepKeepsOrder(s, run[0]);
      RunKeepsOrder(Step(s, run[0]), run[1..]);
    }
  }

  lemma PacketsHaveArrived(s: State, p: nat)
    requires Inv(s) && (p in s.handled || p in s.queue)
    ensures p < s.arrived
  {
    CountIsMembership(s.handled, p);
    CountIsMembership(s.queue, p);
    assert Places(s, p) > 0;
  }

  /** The packet that arrives next overtakes the one that waits. */
  lemma OvertakesInDrain(s: State)
    requires Inv(s) && s.flights == [] && !s.draining && s.queue != []
    ensures Reorders(Step(s, Store), [Load, Deliver(0), Drain])
  {
    var t0 := Step(s, Store);
    var t1 := Step(t0, Load);
    var t2 := Step(t1, Deliver(0));
    Unroll(t2, Drain, []);
    Unroll(t1, Deliver(0), [Drain]);
    Unroll(t0, Load, [Deliver(0), Drain]);
    assert OneByOne(t2, [Drain]) && [Deliver(0), Drain][1..] == [Drain];
    assert OneByOne(t1, [Deliver(0), Drain]) && [Load, Deliver(0), Drain][1..] == [Deliver(0), Drain];
    var q := s.queue[0];
    PacketsHaveArrived(s, q);
    var n, handled := |s.handled|, Step(t2, Drain).handled;
    assert handled == s.handled + [s.arrived] + [q];
    assert handled[n] == s.arrived && handled[n + 1] == q;
  }

  /** The exact condition for reordering, at the call: when no call is on its way and packets arrive one
      by one, a handover can put what the handler gets out of order if and only if a packet waits when
      the handler is stored. */
  lemma ReordersExactly(s: State)
    requires Inv(s) && s.flights == [] && !s.draining && Increasing(s.handled)
    ensures (exists run :: Reorders(Step(s, Store), run)) <==> s.queue != []
  {
    if s.queue != [] {
      OvertakesInDrain(s);
    } else {
      forall p <- s.handled ensures p < s.arrived { PacketsHaveArrived(s, p); }
      forall run | Runs(Step(s, Store), run) && OneByOne(Step(s, Store), run)
        ensures Increasing(Exec(Step(s, Store), run).handled)
      {
        RunKeepsOrder(Step(s, Store), run);
      }
    }
  }

  /** An overlap that reorders: a packet that arrives between the store and the drain reaches the
      handler before the one that was queued earlier. */
  lemma OverlapReorders()
    ensures var run := [Load, Deliver(0), Store, Load, Deliver(0), Drain, DrainEnd];
            Runs(INITIAL, run) && Exec(INITIAL, run).handled == [1, 0]
  {
    var s1 := Step(INITIAL, Load);
    var s2 := Step(s1, Deliver(0));
    var s3 := Step(s2, Store);
    var s4 := Step(s3, Load);
    var s5 := Step(s4, Deliver(0));
    var s6 := Step(s5, Drain);
    Unroll(s6, DrainEnd, []);
    Unroll(s5, Drain, [DrainEnd]);
    Unroll(s4, Deliver(0), [Drain, DrainEnd]);
    Unroll(s3, Load, [Deliver(0), Drain, DrainEnd]);
    Unroll(s2, Store, [Load, Deliver(0), Drain, DrainEnd]);
    Unroll(s1, Deliver(0), [Store, Load, Deliver(0), Drain, DrainEnd]);
    Unroll(INITIAL, Load, [Deliver(0), Store, Load, Deliver(0), Drain, DrainEnd]);
  }

  lemma Unroll(s: State, a: Action, rest: seq<Action>)
    requires Enabled(s, a) && Runs(Step(s, a), rest)
    ensures Runs(s, [a] + rest) && Exec(s, [a] + rest) == Exec(Step(s, a), rest)
  {
    assert ([a] + rest)[1..] == rest;
  }
}
