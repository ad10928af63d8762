/**
 Happy eyeballs: the two-family form of the race described in section 5 of RFC 8305.

 `Decide` is the sequential front of `DialParallel`. The rest is the race itself as a machine: the
 main loop, the fallback timer, two racers that hand their result over an unbuffered channel, and
 the `returned` channel that tells a late racer to clean up after itself.
 */
module DialRace {
  import opened Prelude
  import opened DialSerial

  datatype Strategy = PreferIPv6 | PreferIPv4 | IPv6Only | IPv4Only | Other

  /** Dial one list serially, or race two. */
  datatype Plan = Serial(list: seq<Addr>) | Race(primaries: seq<Addr>, fallbacks: seq<Addr>)

  function Family(addresses: seq<Addr>, four: bool): seq<Addr> {
    Filter((a: Addr) => if four then Family4(a) else Family6(a), addresses)
  }

  /** `sorted` is what the address sort returns for the input. */
  function Decide(protocol: Protocol, version: Version, addresses: seq<Addr>, sorted: seq<Addr>,
      strategy: Strategy): Plan {
    if protocol == UDP || version != Dual then Serial(sorted)
    else
      var addresses4, addresses6 := Family(addresses, true), Family(addresses, false);
      if addresses4 == [] || addresses6 == [] then Serial(addresses)
      else if strategy == IPv4Only then Serial(addresses4)
      else if strategy == IPv6Only then Serial(addresses6)
      else if strategy == PreferIPv6 then Race(addresses6, addresses4)
      else Race(addresses4, addresses6)
  }

  lemma {:induction false} FamilyIsValid(addresses: seq<Addr>, four: bool)
    ensures Valid(Family(addresses, four)) == Family(addresses, four)
  {
    if addresses != [] {
      var a, rest := addresses[0], Family(addresses[1..], four);
      FamilyIsValid(addresses[1..], four);
      if (if four then Family4(a) else Family6(a)) {
        assert Family(addresses, four) == [a] + rest && ([a] + rest)[1..] == rest;
      } else {
        assert Family(addresses, four) == rest;
      }
    }
  }

  /** The families split the valid addresses: each occurrence lands in exactly one, in order. */
  lemma {:induction false} FamiliesPartition(addresses: seq<Addr>)
    ensures multiset(Family(addresses, true)) + multiset(Family(addresses, false)) == multiset(Valid(addresses))
  {
    if addresses != [] {
      FamiliesPartition(addresses[1..]);
    }
  }

  predicate OfFamily(a: Addr, four: bool) {
    if four then Family4(a) else Family6(a)
  }

  lemma FamilyMember(addresses: seq<Addr>, four: bool, a: Addr)
    ensures a in Family(addresses, four) <==> a in addresses && OfFamily(a, four)
  {
    FilterMember((a: Addr) => if four then Family4(a) else Family6(a), addresses, a);
  }

  lemma UsableMember(version: Version, addresses: seq<Addr>, a: Addr)
    ensures a in Usable(version, addresses) <==> a in addresses && !Dropped(version, a)
  {
    FilterMember((a: Addr) => !Dropped(version, a), addresses, a);
  }

  /** A family is determined by this: its members, each as often as in the input, in input order. */
  lemma FamilyOfSum(a: seq<Addr>, b: seq<Addr>, four: bool)
    ensures Family(a + b, four) == Family(a, four) + Family(b, four)
  {
    FilterAppend((a: Addr) => if four then Family4(a) else Family6(a), a, b);
  }

  lemma FamilyOfOne(a: Addr, four: bool)
    ensures Family([a], four) == if (if four then a.V4? || a.V4In6? else a.V6?) then [a] else []
    ensures Family([], four) == []
  {
    assert [a][1..] == [];
  }

  /** Both families have a member. */
  predicate BothFamilies(addresses: seq<Addr>) {
    (exists a <- addresses :: OfFamily(a, true)) && (exists a <- addresses :: OfFamily(a, false))
  }

  lemma FamilyIsEmpty(addresses: seq<Addr>, four: bool)
    ensures Family(addresses, four) == [] <==> forall a <- addresses :: !OfFamily(a, four)
  {
    var family := Family(addresses, four);
    if family != [] {
      FamilyMember(addresses, four, family[0]);
    } else if a :| a in addresses && OfFamily(a, four) {
      FamilyMember(addresses, four, a);
    }
  }

  /** When there is a race, and of what: TCP on a dual network, both families in the input, and a strategy
      that does not exclude one. The preferred family is the primary, IPv4 unless IPv6 is preferred. */
  lemma RacesExactly(protocol: Protocol, version: Version, addresses: seq<Addr>, sorted: seq<Addr>, strategy: Strategy)
    ensures var plan := Decide(protocol, version, addresses, sorted, strategy);
            && (plan.Race? <==>
                  && protocol == TCP && version == Dual && BothFamilies(addresses)
                  && strategy != IPv4Only && strategy != IPv6Only)
            && (plan.Race? ==>
                  && plan.primaries == Family(addresses, strategy != PreferIPv6) != []
                  && plan.fallbacks == Family(addresses, strategy == PreferIPv6) != [])
  {
    FamilyIsEmpty(addresses, true);
    FamilyIsEmpty(addresses, false);
  }

  /** What is dialed one after the other: the whole sorted input for UDP or a network of one version; on the
      others the whole input if a family is missing, and else the one family that the strategy allows. */
  lemma SerialExactly(protocol: Protocol, version: Version, addresses: seq<Addr>, sorted: seq<Addr>, strategy: Strategy)
    requires Decide(protocol, version, addresses, sorted, strategy).Serial?
    ensures var list := Decide(protocol, version, addresses, sorted, strategy).list;
            && (protocol == UDP || version != Dual ==> list == sorted)
            && (protocol == TCP && version == Dual && !BothFamilies(addresses) ==> list == addresses)
            && (protocol == TCP && version == Dual && BothFamilies(addresses) ==>
                  && (strategy == IPv4Only || strategy == IPv6Only)
                  && list == Family(addresses, strategy == IPv4Only) != [])
  {
    FamilyIsEmpty(addresses, true);
    FamilyIsEmpty(addresses, false);
  }

  /** When a single-family strategy keeps the other family from the dialer, read off the call. */
  predicate LeavesOut(protocol: Protocol, version: Version, addresses: seq<Addr>, four: bool) {
    || (protocol == TCP && version == Dual && exists a <- addresses :: OfFamily(a, four))
    || (forall a <- addresses :: OfFamily(a, !four) ==> Dropped(version, a))
  }

  /** What the serial dial of a single-family strategy works on, before it drops addresses. */
  lemma OnlyStrategyList(protocol: Protocol, version: Version, addresses: seq<Addr>, sorted: seq<Addr>, four: bool,
      a: Addr)
    requires multiset(sorted) == multiset(addresses)
    ensures var plan := Decide(protocol, version, addresses, sorted, if four then IPv4Only else IPv6Only);
            var own := protocol == TCP && version == Dual && exists b <- addresses :: OfFamily(b, four);
            plan.Serial? && (OfFamily(a, !four) ==> (a in plan.list <==> a in addresses && !own))
  {
    FamilyMember(addresses, four, a);
    assert a in sorted <==> a in multiset(sorted);
    assert a in addresses <==> a in multiset(addresses);
    var own, other := Family(addresses, four), Family(addresses, !four);
    if own != [] { FamilyMember(addresses, four, own[0]); }
    if b :| b in addresses && OfFamily(b, four) { FamilyMember(addresses, four, b); }
    if a in addresses && OfFamily(a, !four) { FamilyMember(addresses, !four, a); }
    if other != [] { FamilyMember(addresses, !four, other[0]); }
  }

  /** Where the code departs from its strategy names: on any network, "IPv4 only" keeps IPv6 from the
      dialer exactly if the race's own filter gets its turn, which takes TCP, a dual network and an IPv4
      address in the input, or if the network's version drops whatever IPv6 there is. And the same for
      "IPv6 only". */
  lemma OnlyStrategyBinds(protocol: Protocol, version: Version, addresses: seq<Addr>, sorted: seq<Addr>, four: bool)
    requires multiset(sorted) == multiset(addresses)
    ensures var plan := Decide(protocol, version, addresses, sorted, if four then IPv4Only else IPv6Only);
            plan.Serial? &&
            ((forall a <- Usable(version, plan.list) :: !OfFamily(a, !four)) <==>
             LeavesOut(protocol, version, addresses, four))
  {
    var plan := Decide(protocol, version, addresses, sorted, if four then IPv4Only else IPv6Only);
    forall a | OfFamily(a, !four)
      ensures a in Usable(version, plan.list) <==>
              a in addresses && !Dropped(version, a) &&
              !(protocol == TCP && version == Dual && exists b <- addresses :: OfFamily(b, four))
    {
      OnlyStrategyList(protocol, version, addresses, sorted, four, a);
      UsableMember(version, plan.list, a);
    }
    OnlyStrategyList(protocol, version, addresses, sorted, four, Invalid);
  }

  /** Two such inputs: a lone IPv6 address, and a UDP dial. */
  lemma OnlyStrategyMayDialOtherFamily()
    ensures Decide(TCP, Dual, [V6(1)], [V6(1)], IPv4Only) == Serial([V6(1)])
    ensures Decide(UDP, Dual, [V4(1), V6(1)], [V4(1), V6(1)], IPv4Only) == Serial([V4(1), V6(1)])
    ensures V6(1) in Usable(Dual, [V6(1)]) && V6(1) in Usable(Dual, [V4(1), V6(1)])
  {
    if Family([V6(1)], true) != [] {
      FamilyMember([V6(1)], true, Family([V6(1)], true)[0]);
    }
    UsableMember(Dual, [V6(1)], V6(1));
    UsableMember(Dual, [V4(1), V6(1)], V6(1));
  }

  // ---- the race ----

  datatype Result = Got(id: nat) | Lost(causes: seq<Cause>)

  datatype RacerPc = NotStarted | Dialing | Offering | Finished

  /** A racer runs the serial dial over `list`: `causes` are the failures so far, so |causes| is its
      position; `tried` the addresses it handed to the dialer; `result` what it offers. */
  datatype Racer = Racer(list: seq<Addr>, pc: RacerPc, tried: seq<Addr>, causes: seq<Cause>, result: Option<Result>)

  /** The fallback timer: running, expired with its tick not yet received, or received or stopped.
      `Stop` reports true in the first two states, and after it no stale tick is received. */
  datatype Timer = Running | Due | Spent

  datatype Main = Looping | Leaving(result: Result) | Left(result: Result)

  /** `closes[id]` counts how often connection `id` was closed, `rounds` the turns of the main loop. */
  datatype State = State(
    primary: Racer, fallback: Racer,
    timer: Timer,
    main: Main,
    primaryDone: bool, fallbackDone: bool,
    returned: bool,
    closes: seq<nat>,
    rounds: nat)

  datatype Action =
    | DialNext(primary: bool, answer: Option<nat>) // None connects, Some(e) fails with e
    | Expire
    | Tick
    | Receive(primary: bool)
    | Unwind                                       // the deferred calls, which close `returned`
    | Abandon(primary: bool)

  function Start(primaries: seq<Addr>, fallbacks: seq<Addr>): State {
    State(Racer(primaries, Dialing, [], [], None), Racer(fallbacks, NotStarted, [], [], None),
          Running, Looping, false, false, false, [], 0)
  }

  function Get(s: State, primary: bool): Racer {
    if primary then s.primary else s.fallback
  }

  function Put(s: State, primary: bool, r: Racer): State {
    if primary then s.(primary := r) else s.(fallback := r)
  }

  predicate Enabled(s: State, a: Action) {
    match a
    case DialNext(p, _) => Get(s, p).pc == Dialing && |Get(s, p).causes| <= |Get(s, p).list|
    case Expire => s.timer == Running
    case Tick => s.main == Looping && s.timer == Due
    case Receive(p) => s.main == Looping && Get(s, p).pc == Offering && Get(s, p).result.Some?
    case Unwind => s.main.Leaving?
    case Abandon(p) => s.returned && Get(s, p).pc == Offering && Get(s, p).result.Some?
  }

  /** One turn of the serial dial's loop; a connection gets the next free identity. */
  function DialTurn(s: State, p: bool, answer: Option<nat>): State
    requires Enabled(s, DialNext(p, answer))
  {
    var r := Get(s, p);
    if |r.causes| == |r.list| then Put(s, p, r.(pc := Offering, result := Some(Lost(r.causes))))
    else
      var a := r.list[|r.causes|];
      if !a.IsValid() then Put(s, p, r.(causes := r.causes + [BadAddress]))
      else if answer.Some? then
        Put(s, p, r.(tried := r.tried + [a], causes := r.causes + [DialError(answer.value)]))
      else
        var winner := r.(tried := r.tried + [a], pc := Offering, result := Some(Got(|s.closes|)));
        Put(s, p, winner).(closes := s.closes + [0])
  }

  function Step(s: State, a: Action): State
    requires Enabled(s, a)
  {
    match a
    case DialNext(p, answer) => DialTurn(s, p, answer)
    case Expire => s.(timer := Due)
    case Tick => s.(timer := Spent, fallback := s.fallback.(pc := Dialing), rounds := s.rounds + 1)
    case Receive(p) =>
      var res := Get(s, p).result.value;
      var t := Put(s, p, Get(s, p).(pc := Finished)).(rounds := s.rounds + 1);
      if res.Got? then t.(main := Leaving(res))
      else
        var u := if p then t.(primaryDone := true) else t.(fallbackDone := true);
        if u.primaryDone && u.fallbackDone && u.primary.result.Some? then u.(main := Leaving(u.primary.result.value))
        else if p && u.timer != Spent then u.(timer := Due) // stopped in time, then reset to zero
        else u
    case Unwind => s.(main := Left(s.main.result), timer := Spent, returned := true)
    case Abandon(p) =>
      var t := Put(s, p, Get(s, p).(pc := Finished));
      match Get(s, p).result.value
      case Got(id) => if id < |s.closes| then t.(closes := s.closes[id := s.closes[id] + 1]) else t
      case Lost(_) => t
  }

  predicate Runs(s: State, run: seq<Action>)
    decreases |run|
  {
    run == [] || (Enabled(s, run[0]) && Runs(Step(s, run[0]), run[1..]))
  }

  function Exec(s: State, run: seq<Action>): State
    requires Runs(s, run)
    decreases |run|
  {
    if run == [] then s else Exec(Step(s, run[0]), run[1..])
  }

  // ---- what every run keeps ----

  predicate Holds(r: Racer, id: nat) {
    r.pc == Offering && r.result == Some(Got(id))
  }

  function One(b: bool): nat {
    if b then 1 else 0
  }

  /** In how many places connection `id` is: offered, returned, or closed. */
  function Places(s: State, id: nat): nat
    requires id < |s.closes|
  {
    One(Holds(s.primary, id)) + One(Holds(s.fallback, id)) + One(!s.main.Looping? && s.main.result == Got(id)) +
      s.closes[id]
  }

  ghost predicate RacerOk(r: Racer) {
    var k := |r.causes|;
    && k <= |r.list|
    && (r.pc == NotStarted ==> r.causes == [])
    && ((r.pc == NotStarted || r.pc == Dialing) ==> r.tried == Valid(r.list[..k]) && r.result.None?)
    && ((r.pc == Offering || r.pc == Finished) ==>
          match r.result
          case None => false
          case Some(Lost(causes)) => k == |r.list| && causes == r.causes && r.tried == Valid(r.list)
          // the first `k` addresses failed and the next one answered
          case Some(Got(_)) => k < |r.list| && r.list[k].IsValid() && r.tried == Valid(r.list[..k + 1]))
  }

  /** How the main loop, the timer and the two racers stand to each other. */
  ghost predicate Control(s: State) {
    && s.primary.pc != NotStarted
    && (s.timer != Spent ==> s.fallback.pc == NotStarted)
    && (s.main.Looping? && s.fallback.pc == NotStarted ==> s.timer != Spent)
    && (s.main.Looping? && s.primaryDone ==> s.timer != Running)
    && (s.returned <==> s.main.Left?)
    && (s.primaryDone ==> s.primary.pc == Finished && s.primary.result.Some? && s.primary.result.value.Lost?)
    && (s.fallbackDone ==> s.fallback.pc == Finished && s.fallback.result.Some? && s.fallback.result.value.Lost?)
    && (s.main.Looping? ==>
          && (s.primary.pc == Finished <==> s.primaryDone)
          && (s.fallback.pc == Finished <==> s.fallbackDone)
          && !(s.primaryDone && s.fallbackDone))
    && (!s.main.Looping? ==>
          match s.main.result
          case Got(_) => (s.primary.pc == Finished && s.primary.result == Some(s.main.result)) ||
                         (s.fallback.pc == Finished && s.fallback.result == Some(s.main.result))
          case Lost(_) => s.primaryDone && s.fallbackDone && s.primary.result == Some(s.main.result))
    && (!s.main.Looping? && s.primaryDone ==> s.fallback.pc == Finished)
    && (!s.main.Left? ==>
          s.rounds == One(s.timer == Spent) + One(s.primary.pc == Finished) + One(s.fallback.pc == Finished))
    && s.rounds <= 3
  }

  /** Every connection is in exactly one place. */
  ghost predicate Conns(s: State) {
    && (forall id | 0 <= id < |s.closes| :: Places(s, id) == 1)
    && (forall id: nat :: Holds(s.primary, id) || Holds(s.fallback, id) ==> id < |s.closes|)
    && (!s.main.Looping? && s.main.result.Got? ==> s.main.result.id < |s.closes|)
  }

  ghost predicate Inv(s: State) {
    RacerOk(s.primary) && RacerOk(s.fallback) && Control(s) && Conns(s)
  }

  lemma DialTurnKeepsControl(s: State, p: bool, answer: Option<nat>)
    requires Control(s) && Enabled(s, DialNext(p, answer))
    ensures Control(DialTurn(s, p, answer))
  {
  }

  lemma ReceiveKeepsControl(s: State, p: bool)
    requires Control(s) && Enabled(s, Receive(p))
    ensures Control(Step(s, Receive(p)))
  {
  }

  lemma ControlKept(s: State, a: Action)
    requires Control(s) && Enabled(s, a)
    ensures Control(Step(s, a))
  {
    match a {
      case DialNext(p, answer) => DialTurnKeepsControl(s, p, answer);
      case Receive(p) => ReceiveKeepsControl(s, p);
      case _ =>
    }
  }

  /** The racer in whose hands a new connection is had none before, and has only that. */
  lemma DialTurnHolds(s: State, p: bool, answer: Option<nat>, id: nat)
    requires Enabled(s, DialNext(p, answer))
    ensures var t := DialTurn(s, p, answer);
            && !Holds(Get(s, p), id) && Get(t, !p) == Get(s, !p)
            && (Holds(Get(t, p), id) <==> id == |s.closes| && t.closes == s.closes + [0])
            && (t.closes == s.closes || t.closes == s.closes + [0])
            && t.main == s.main
            && (t.closes == s.closes + [0] ==> Holds(Get(t, p), |s.closes|))
  {
  }

  /** A dial leaves every connection where it is. */
  lemma DialTurnKeepsConns(s: State, p: bool, answer: Option<nat>)
    requires Conns(s) && Enabled(s, DialNext(p, answer))
    ensures Conns(DialTurn(s, p, answer))
  {
    var t := DialTurn(s, p, answer);
    forall id: nat
      ensures Holds(t.primary, id) || Holds(t.fallback, id) ==> id < |t.closes|
      ensures id < |t.closes| ==> Places(t, id) == 1
    {
      DialTurnHolds(s, p, answer, id);
      if id < |s.closes| { assert Places(s, id) == 1 && t.closes[id] == s.closes[id]; }
    }
    DialTurnHolds(s, p, answer, 0);
  }

  lemma HandOverKeepsConns(s: State, a: Action)
    requires Control(s) && Conns(s) && Enabled(s, a) && (a.Receive? || a.Abandon?)
    ensures Conns(Step(s, a))
  {
    var t := Step(s, a);
    if Get(s, a.primary).result.value.Got? {
      assert Holds(Get(s, a.primary), Get(s, a.primary).result.value.id);
    }
    forall id | 0 <= id < |t.closes|
      ensures Places(t, id) == 1
    {
      assert Places(s, id) == 1;
    }
  }

  lemma TimerKeepsConns(s: State, a: Action)
    requires Control(s) && Conns(s) && Enabled(s, a) && (a.Expire? || a.Tick? || a.Unwind?)
    ensures Conns(Step(s, a))
  {
    var t := Step(s, a);
    forall id | 0 <= id < |t.closes|
      ensures Places(t, id) == 1
    {
      assert Places(s, id) == 1;
    }
  }

  lemma ConnsKept(s: State, a: Action)
    requires Control(s) && Conns(s) && Enabled(s, a)
    ensures Conns(Step(s, a))
  {
    match a {
      case DialNext(p, answer) => DialTurnKeepsConns(s, p, answer);
      case Receive(_) => HandOverKeepsConns(s, a);
      case Abandon(_) => HandOverKeepsConns(s, a);
      case _ => TimerKeepsConns(s, a);
    }
  }

  lemma DialTurnKeepsRacer(s: State, p: bool, answer: Option<nat>)
    requires RacerOk(Get(s, p)) && Enabled(s, DialNext(p, answer))
    ensures RacerOk(Get(DialTurn(s, p, answer), p))
  {
    var r := Get(s, p);
    var k := |r.causes|;
    if k == |r.list| {
      assert r.list[..k] == r.list;
    } else {
      assert r.list[..k + 1] == r.list[..k] + [r.list[k]];
      ValidSnoc(r.list[..k], r.list[k]);
    }
  }

  /** Steps other than a dial change at most the program counter of a racer. */
  lemma OtherStepKeepsRacers(s: State, a: Action)
    requires RacerOk(s.primary) && RacerOk(s.fallback) && Control(s) && Enabled(s, a) && !a.DialNext?
    ensures RacerOk(Step(s, a).primary) && RacerOk(Step(s, a).fallback)
  {
    var t := Step(s, a);
    assert t.primary == s.primary || t.primary == s.primary.(pc := Finished);
    assert t.fallback == s.fallback || t.fallback == s.fallback.(pc := Finished) ||
        t.fallback == s.fallback.(pc := Dialing);
  }

  lemma RacersKept(s: State, a: Action)
    requires RacerOk(s.primary) && RacerOk(s.fallback) && Control(s) && Enabled(s, a)
    ensures RacerOk(Step(s, a).primary) && RacerOk(Step(s, a).fallback)
  {
    if a.DialNext? {
      DialTurnKeepsRacer(s, a.primary, a.answer);
      assert Get(Step(s, a), !a.primary) == Get(s, !a.primary);
    } else {
      OtherStepKeepsRacers(s, a);
    }
  }

  lemma StepKeepsInv(s: State, a: Action)
    requires Inv(s) && Enabled(s, a)
    ensures Inv(Step(s, a))
  {
    ControlKept(s, a);
    ConnsKept(s, a);
    RacersKept(s, a);
  }

  lemma {:induction false} RunKeepsInv(s: State, run: seq<Action>)
    requires Inv(s) && Runs(s, run)
    ensures Inv(Exec(s, run))
    decreases |run|
  {
    if run != [] {
      StepKeepsInv(s, run[0]);
      RunKeepsInv(Step(s, run[0]), run[1..]);
    }
  }

  // ---- main results ----

  /** Nothing is left to do: the main function has returned and no racer is under way. */
  predicate Completed(s: State) {
    s.main.Left? && s.primary.pc == Finished && (s.fallback.pc == Finished || s.fallback.pc == NotStarted)
  }

  /** No connection leaks, whatever the order of dials, tick and return: once the race is over, each
      connection opened is the one returned, never closed, or has been closed exactly once. */
  lemma NothingLeaks(primaries: seq<Addr>, fallbacks: seq<Addr>, run: seq<Action>)
    requires Runs(Start(primaries, fallbacks), run) && Completed(Exec(Start(primaries, fallbacks), run))
    ensures var s := Exec(Start(primaries, fallbacks), run);
            forall id | 0 <= id < |s.closes| :: s.closes[id] == (if s.main.result == Got(id) then 0 else 1)
  {
    RunKeepsInv(Start(primaries, fallbacks), run);
    var s := Exec(Start(primaries, fallbacks), run);
    forall id | 0 <= id < |s.closes|
      ensures s.closes[id] == (if s.main.result == Got(id) then 0 else 1)
    {
      assert Places(s, id) == 1;
    }
  }

  /** The work left in a state: it bounds the length of every run. */
  function RacerWork(r: Racer): nat {
    match r.pc
    case NotStarted => |r.list| + 3
    case Dialing => if |r.causes| <= |r.list| then |r.list| - |r.causes| + 2 else 0
    case Offering => 1
    case Finished => 0
  }

  function Work(s: State): nat {
    RacerWork(s.primary) + RacerWork(s.fallback) + One(s.timer == Running) +
      (match s.main case Looping => 2 case Leaving(_) => 1 case Left(_) => 0)
  }

  lemma DialTurnUsesWork(s: State, p: bool, answer: Option<nat>)
    requires Enabled(s, DialNext(p, answer))
    ensures Work(DialTurn(s, p, answer)) < Work(s)
  {
    var t := DialTurn(s, p, answer);
    RacerUsesWork(s, p, answer);
    assert t.main == s.main && t.timer == s.timer;
    if p { assert t.fallback == s.fallback; } else { assert t.primary == s.primary; }
  }

  lemma RacerUsesWork(s: State, p: bool, answer: Option<nat>)
    requires Enabled(s, DialNext(p, answer))
    ensures RacerWork(Get(DialTurn(s, p, answer), p)) < RacerWork(Get(s, p))
  {
    var r, r' := Get(s, p), Get(DialTurn(s, p, answer), p);
    if r'.pc == Dialing {
      assert |r'.causes| == |r.causes| + 1 && r'.list == r.list;
    } else {
      assert r'.pc == Offering;
    }
  }

  lemma StepsUseWork(s: State, a: Action)
    requires Control(s) && Enabled(s, a) && (s.fallback.pc == NotStarted ==> s.fallback.causes == [])
    ensures Work(Step(s, a)) < Work(s)
  {
    if a.DialNext? { DialTurnUsesWork(s, a.primary, a.answer); }
  }

  lemma {:induction false} RunsAreBounded(s: State, run: seq<Action>)
    requires Inv(s) && Runs(s, run)
    ensures |run| + Work(Exec(s, run)) <= Work(s)
    decreases |run|
  {
    if run != [] {
      StepKeepsInv(s, run[0]);
      StepsUseWork(s, run[0]);
      RunsAreBounded(Step(s, run[0]), run[1..]);
    }
  }

  /** What can happen next in a state that is not complete, as long as every dial gets an answer. */
  function NextAction(s: State): Action {
    match s.main
    case Leaving(_) => Unwind
    case Looping =>
      if s.primary.pc == Dialing then DialNext(true, None)
      else if s.primary.pc == Offering then Receive(true)
      else if s.timer == Due then Tick
      else if s.fallback.pc == Dialing then DialNext(false, None)
      else Receive(false)
    case Left(_) =>
      if s.primary.pc == Dialing then DialNext(true, None)
      else if s.primary.pc == Offering then Abandon(true)
      else if s.fallback.pc == Dialing then DialNext(false, None)
      else Abandon(false)
  }

  lemma NextIsEnabled(s: State)
    requires RacerOk(s.primary) && RacerOk(s.fallback) && Control(s)
    ensures Completed(s) || Enabled(s, NextAction(s))
  {
  }

  /** The race always finishes: no run is longer than a bound read off its input, a run can be
      extended until it is complete, and the main loop turns at most three times. */
  lemma RaceFinishes(primaries: seq<Addr>, fallbacks: seq<Addr>, run: seq<Action>)
    requires Runs(Start(primaries, fallbacks), run)
    ensures var s := Exec(Start(primaries, fallbacks), run);
            && |run| <= |primaries| + |fallbacks| + 8
            && (Completed(s) || Enabled(s, NextAction(s)))
            && s.rounds <= 3
  {
    RunsAreBounded(Start(primaries, fallbacks), run);
    RunKeepsInv(Start(primaries, fallbacks), run);
    NextIsEnabled(Exec(Start(primaries, fallbacks), run));
  }

  /** The fallback starts at most once, and a failed primary always leads to it, without waiting for
      the delay: while the loop runs and the fallback has not started its tick is still to come, at
      once when the primary's failure has been received; and the function never returns after
      receiving that failure without having heard from the fallback. */
  lemma FallbackIsStarted(primaries: seq<Addr>, fallbacks: seq<Addr>, run: seq<Action>)
    requires Runs(Start(primaries, fallbacks), run)
    ensures var s := Exec(Start(primaries, fallbacks), run);
            && (s.main.Looping? && s.fallback.pc == NotStarted ==> Enabled(s, Tick) || Enabled(s, Expire))
            && (s.main.Looping? && s.fallback.pc == NotStarted && s.primaryDone ==> Enabled(s, Tick))
            && (s.fallback.pc != NotStarted ==> !Enabled(s, Tick))
            && (s.primaryDone && !s.main.Looping? ==> s.fallback.pc == Finished)
  {
    RunKeepsInv(Start(primaries, fallbacks), run);
  }

  lemma DialTurnKeepsLists(s: State, p: bool, answer: Option<nat>)
    requires Enabled(s, DialNext(p, answer))
    ensures Get(DialTurn(s, p, answer), p).list == Get(s, p).list && Get(DialTurn(s, p, answer), !p) == Get(s, !p)
  {
  }

  lemma StepKeepsLists(s: State, a: Action)
    requires Enabled(s, a)
    ensures Get(Step(s, a), true).list == Get(s, true).list && Get(Step(s, a), false).list == Get(s, false).list
  {
    if a.DialNext? { DialTurnKeepsLists(s, a.primary, a.answer); }
  }

  /** A racer never changes its list. */
  lemma {:induction false} ListsKept(s: State, run: seq<Action>)
    requires Runs(s, run)
    ensures Exec(s, run).primary.list == s.primary.list && Exec(s, run).fallback.list == s.fallback.list
    decreases |run|
  {
    if run != [] {
      StepKeepsLists(s, run[0]);
      ListsKept(Step(s, run[0]), run[1..]);
    }
  }

  /** `s` occurs in a race that `DialParallel` starts for this input. */
  ghost predicate Racing(addresses: seq<Addr>, strategy: Strategy, s: State) {
    var plan := Decide(TCP, Dual, addresses, addresses, strategy);
    plan.Race? && exists run ::
      Runs(Start(plan.primaries, plan.fallbacks), run) && s == Exec(Start(plan.primaries, plan.fallbacks), run)
  }

  /** Such races there are: for every input with both families, and from their start. */
  lemma RaceStarts(addresses: seq<Addr>, strategy: Strategy)
    requires BothFamilies(addresses) && strategy != IPv4Only && strategy != IPv6Only
    ensures var primaries := Family(addresses, strategy != PreferIPv6);
            var fallbacks := Family(addresses, strategy == PreferIPv6);
            Racing(addresses, strategy, Start(primaries, fallbacks))
  {
    RacesExactly(TCP, Dual, addresses, addresses, strategy);
    var start := Start(Family(addresses, strategy != PreferIPv6), Family(addresses, strategy == PreferIPv6));
    assert Runs(start, []) && start == Exec(start, []);
  }

  lemma RacingInv(addresses: seq<Addr>, strategy: Strategy, s: State)
    requires Racing(addresses, strategy, s)
    ensures Inv(s)
    ensures s.primary.list == Family(addresses, strategy != PreferIPv6)
    ensures s.fallback.list == Family(addresses, strategy == PreferIPv6)
  {
    var plan := Decide(TCP, Dual, addresses, addresses, strategy);
    var start := Start(plan.primaries, plan.fallbacks);
    var run :| Runs(start, run) && s == Exec(start, run);
    RunKeepsInv(start, run);
    ListsKept(start, run);
  }

  // ---- what the dialer answered ----

  /** The dials of the step get their answers from the oracles; a connection is named by its rank among
      those opened in the race. */
  predicate Answers(s: State, a: Action, primary: Oracle, fallback: Oracle)
    requires Enabled(s, a)
  {
    a.DialNext? ==>
      var r, dial := Get(s, a.primary), if a.primary then primary else fallback;
      var k := |r.causes|;
      k < |r.list| && r.list[k].IsValid() ==>
        dial(k, r.list[k]) == match a.answer case None => Conn(|s.closes|) case Some(e) => Failed(e)
  }

  /** So do all dials of the run. */
  predicate Follows(s: State, run: seq<Action>, primary: Oracle, fallback: Oracle)
    requires Runs(s, run)
    decreases |run|
  {
    run == [] || (Answers(s, run[0], primary, fallback) && Follows(Step(s, run[0]), run[1..], primary, fallback))
  }

  /** What a racer has noted is what its oracle said. */
  ghost predicate Told(r: Racer, dial: Oracle) {
    var k := |r.causes|;
    && k <= |r.list|
    && r.causes == Causes(dial, r.list, k)
    && (forall j | 0 <= j < k :: r.list[j].IsValid() ==> dial(j, r.list[j]).Failed?)
    && (r.result.Some? && r.result.value.Got? ==> k < |r.list| && dial(k, r.list[k]) == Conn(r.result.value.id))
  }

  lemma DialTurnKeepsTold(s: State, p: bool, answer: Option<nat>, dial: Oracle)
    requires Enabled(s, DialNext(p, answer)) && Told(Get(s, p), dial) && Get(s, p).result.None?
    requires Answers(s, DialNext(p, answer), dial, dial)
    ensures Told(Get(DialTurn(s, p, answer), p), dial)
  {
  }

  /** Steps other than a dial change at most the program counter of a racer. */
  lemma OtherStepMovesRacers(s: State, a: Action)
    requires Enabled(s, a) && !a.DialNext?
    ensures Step(s, a).primary == s.primary.(pc := Step(s, a).primary.pc)
    ensures Step(s, a).fallback == s.fallback.(pc := Step(s, a).fallback.pc)
  {
  }

  lemma StepKeepsTold(s: State, a: Action, primary: Oracle, fallback: Oracle)
    requires Inv(s) && Enabled(s, a) && Told(s.primary, primary) && Told(s.fallback, fallback)
    requires Answers(s, a, primary, fallback)
    ensures Told(Step(s, a).primary, primary) && Told(Step(s, a).fallback, fallback)
  {
    var t := Step(s, a);
    if a.DialNext? {
      DialTurnKeepsTold(s, a.primary, a.answer, if a.primary then primary else fallback);
      assert Get(t, !a.primary) == Get(s, !a.primary);
    } else {
      OtherStepMovesRacers(s, a);
    }
  }

  lemma {:induction false} RunKeepsTold(s: State, run: seq<Action>, primary: Oracle, fallback: Oracle)
    requires Inv(s) && Runs(s, run) && Told(s.primary, primary) && Told(s.fallback, fallback)
    requires Follows(s, run, primary, fallback)
    ensures Told(Exec(s, run).primary, primary) && Told(Exec(s, run).fallback, fallback)
    decreases |run|
  {
    if run != [] {
      StepKeepsInv(s, run[0]);
      StepKeepsTold(s, run[0], primary, fallback);
      RunKeepsTold(Step(s, run[0]), run[1..], primary, fallback);
    }
  }

  function OutcomeOf(r: Racer): Outcome
    requires r.result.Some?
  {
    match r.result.value
    case Got(id) => Opened(id)
    case Lost(causes) => if r.list == [] then NoAddress else AllFailed(causes)
  }

  /** A racer is a serial dial: what it ends with is what `DialSerial` would give over its list. */
  lemma RacerIsSerialDial(r: Racer, dial: Oracle)
    requires RacerOk(r) && Told(r, dial) && (r.pc == Offering || r.pc == Finished)
    ensures Explains(dial, r.list, OutcomeOf(r), r.tried)
  {
    match r.result.value {
      case Got(id) => assert FirstSuccess(dial, r.list, |r.causes|);
      case Lost(_) =>
    }
  }

  /** `s` occurs in a race that `DialParallel` starts for this input and in which the dialer answers
      the two racers as the oracles say. */
  ghost predicate RacingWith(addresses: seq<Addr>, strategy: Strategy, primary: Oracle, fallback: Oracle, s: State) {
    var plan := Decide(TCP, Dual, addresses, addresses, strategy);
    plan.Race? && exists run ::
      && Runs(Start(plan.primaries, plan.fallbacks), run)
      && Follows(Start(plan.primaries, plan.fallbacks), run, primary, fallback)
      && s == Exec(Start(plan.primaries, plan.fallbacks), run)
  }

  /** The oracle that answers as a racer has noted. */
  function Noted(r: Racer): Oracle {
    (j: nat, a: Addr) =>
      if j < |r.causes| && r.causes[j].DialError? then Failed(r.causes[j].err)
      else Conn(if r.result.Some? && r.result.value.Got? then r.result.value.id else 0)
  }

  /** A racer's notes only grow, and its result is final. */
  predicate Extends(t: Racer, r: Racer) {
    r.causes <= t.causes && (r.result.Some? ==> t.result == r.result && t.causes == r.causes)
  }

  lemma DialTurnExtends(s: State, p: bool, answer: Option<nat>)
    requires Enabled(s, DialNext(p, answer)) && Get(s, p).result.None?
    ensures Extends(Get(DialTurn(s, p, answer), p), Get(s, p))
  {
    var r, t := Get(s, p), Get(DialTurn(s, p, answer), p);
    assert t.causes == r.causes || t.causes[..|r.causes|] == r.causes;
  }

  lemma StepExtends(s: State, a: Action)
    requires Inv(s) && Enabled(s, a)
    ensures Extends(Step(s, a).primary, s.primary) && Extends(Step(s, a).fallback, s.fallback)
  {
    var t := Step(s, a);
    if a.DialNext? {
      DialTurnExtends(s, a.primary, a.answer);
      assert Get(t, !a.primary) == Get(s, !a.primary);
    } else {
      OtherStepMovesRacers(s, a);
    }
  }

  lemma {:induction false} RunExtends(s: State, run: seq<Action>)
    requires Inv(s) && Runs(s, run)
    ensures Extends(Exec(s, run).primary, s.primary) && Extends(Exec(s, run).fallback, s.fallback)
    decreases |run|
  {
    if run != [] {
      StepKeepsInv(s, run[0]);
      StepExtends(s, run[0]);
      RunExtends(Step(s, run[0]), run[1..]);
    }
  }

  lemma StepIsNoted(s: State, a: Action, primary: Racer, fallback: Racer)
    requires Inv(s) && Enabled(s, a)
    requires Extends(primary, Step(s, a).primary) && Extends(fallback, Step(s, a).fallback)
    ensures Answers(s, a, Noted(primary), Noted(fallback))
  {
    if a.DialNext? {
      var r, t := Get(s, a.primary), Get(Step(s, a), a.primary);
      var k := |r.causes|;
      if k < |r.list| && r.list[k].IsValid() && a.answer.Some? {
        assert t.causes[k] == DialError(a.answer.value);
      }
    }
  }

  lemma {:induction false} RunIsNoted(s: State, run: seq<Action>, t: State)
    requires Inv(s) && Runs(s, run) && t == Exec(s, run)
    ensures Follows(s, run, Noted(t.primary), Noted(t.fallback))
    decreases |run|
  {
    if run != [] {
      StepKeepsInv(s, run[0]);
      RunExtends(Step(s, run[0]), run[1..]);
      StepIsNoted(s, run[0], t.primary, t.fallback);
      RunIsNoted(Step(s, run[0]), run[1..], t);
    }
  }

  /** Oracles lose no generality: every race there is follows some. */
  lemma EveryRaceHasOracles(addresses: seq<Addr>, strategy: Strategy, s: State)
    ensures Racing(addresses, strategy, s) <==>
            exists primary: Oracle, fallback: Oracle :: RacingWith(addresses, strategy, primary, fallback, s)
  {
    if Racing(addresses, strategy, s) {
      var plan := Decide(TCP, Dual, addresses, addresses, strategy);
      var start := Start(plan.primaries, plan.fallbacks);
      var run :| Runs(start, run) && s == Exec(start, run);
      RunIsNoted(start, run, s);
      assert RacingWith(addresses, strategy, Noted(s.primary), Noted(s.fallback), s);
    }
  }

  lemma RacingWithTold(addresses: seq<Addr>, strategy: Strategy, primary: Oracle, fallback: Oracle, s: State)
    requires RacingWith(addresses, strategy, primary, fallback, s)
    ensures Racing(addresses, strategy, s) && Told(s.primary, primary) && Told(s.fallback, fallback)
  {
    var plan := Decide(TCP, Dual, addresses, addresses, strategy);
    var start := Start(plan.primaries, plan.fallbacks);
    var run :| Runs(start, run) && Follows(start, run, primary, fallback) && s == Exec(start, run);
    RunKeepsTold(start, run, primary, fallback);
  }

  /** Both racers have tried their whole family. */
  lemma RaceErrorTried(addresses: seq<Addr>, strategy: Strategy, s: State)
    requires Racing(addresses, strategy, s) && !s.main.Looping? && s.main.result.Lost?
    ensures s.primary.pc == Finished && s.primary.result == Some(s.main.result)
    ensures s.fallback.pc == Finished && s.fallback.result.Some? && s.fallback.result.value.Lost?
    ensures s.primary.tried == s.primary.list == Family(addresses, strategy != PreferIPv6)
    ensures s.fallback.tried == s.fallback.list == Family(addresses, strategy == PreferIPv6)
  {
    RacingInv(addresses, strategy, s);
    FamilyIsValid(addresses, true);
    FamilyIsValid(addresses, false);
  }

  /** A racer that tried its whole list of valid addresses in vain. */
  lemma LoserExplained(r: Racer, dial: Oracle)
    requires RacerOk(r) && Told(r, dial) && r.pc == Finished && r.result.Some? && r.result.value.Lost?
    requires Valid(r.list) == r.list
    ensures forall j | 0 <= j < |r.list| :: dial(j, r.list[j]).Failed?
    ensures r.result.value.causes == Causes(dial, r.list, |r.list|)
  {
    AllTriedAreValid(r.list);
  }

  /** An error from a race means that each valid address of the input was tried, once per occurrence
      and in input order within its family, that every dial failed, and that the error lists the
      primary family's failures, one cause per address. */
  lemma RaceErrorTriedAll(addresses: seq<Addr>, strategy: Strategy, primary: Oracle, fallback: Oracle, s: State)
    requires RacingWith(addresses, strategy, primary, fallback, s) && !s.main.Looping? && s.main.result.Lost?
    ensures s.primary.tried == Family(addresses, strategy != PreferIPv6)
    ensures s.fallback.tried == Family(addresses, strategy == PreferIPv6)
    ensures multiset(s.primary.tried) + multiset(s.fallback.tried) == multiset(Valid(addresses))
    ensures forall j | 0 <= j < |s.primary.tried| :: primary(j, s.primary.tried[j]).Failed?
    ensures forall j | 0 <= j < |s.fallback.tried| :: fallback(j, s.fallback.tried[j]).Failed?
    ensures s.main.result.causes == Causes(primary, s.primary.tried, |s.primary.tried|)
  {
    RacingWithTold(addresses, strategy, primary, fallback, s);
    RacingInv(addresses, strategy, s);
    RaceErrorTried(addresses, strategy, s);
    FamiliesPartition(addresses);
    FamilyIsValid(addresses, true);
    FamilyIsValid(addresses, false);
    LoserExplained(s.primary, primary);
    LoserExplained(s.fallback, fallback);
  }

  /** The racer whose connection the main function returns. */
  function Winner(s: State): bool
    requires !s.main.Looping?
  {
    s.primary.pc == Finished && s.primary.result == Some(s.main.result)
  }

  lemma AllTriedAreValid(list: seq<Addr>)
    requires Valid(list) == list
    ensures forall j | 0 <= j < |list| :: list[j].IsValid()
  {
    forall j | 0 <= j < |list| ensures list[j].IsValid() { assert list[j] in Valid(list); }
  }

  lemma ValidPrefix(addresses: seq<Addr>, four: bool, k: nat)
    requires k <= |Family(addresses, four)|
    ensures Valid(Family(addresses, four)[..k]) == Family(addresses, four)[..k]
  {
    FamilyIsValid(addresses, four);
    AllValid(Family(addresses, four), k);
  }

  /** Connection `id` is the dialer's answer to the first address of the list that did not fail: all
      before it were tried, in order, and failed. */
  predicate WonFirst(r: Racer, dial: Oracle, list: seq<Addr>, id: nat) {
    var k := |r.causes|;
    FirstSuccess(dial, list, k) && dial(k, list[k]) == Conn(id) && r.tried == list[..k + 1]
  }

  lemma WinnerOfFamily(addresses: seq<Addr>, four: bool, r: Racer, dial: Oracle)
    requires RacerOk(r) && Told(r, dial) && r.pc == Finished && r.result.Some? && r.result.value.Got?
    requires r.list == Family(addresses, four)
    ensures WonFirst(r, dial, Family(addresses, four), r.result.value.id)
  {
    ValidPrefix(addresses, four, |r.causes| + 1);
  }

  /** A connection from a race is the first success over the winner's family. */
  lemma RaceConnIsFirstSuccess(addresses: seq<Addr>, strategy: Strategy, primary: Oracle, fallback: Oracle, s: State)
    requires RacingWith(addresses, strategy, primary, fallback, s) && !s.main.Looping? && s.main.result.Got?
    ensures if Winner(s)
            then WonFirst(s.primary, primary, Family(addresses, strategy != PreferIPv6), s.main.result.id)
            else WonFirst(s.fallback, fallback, Family(addresses, strategy == PreferIPv6), s.main.result.id)
  {
    RacingWithTold(addresses, strategy, primary, fallback, s);
    RacingInv(addresses, strategy, s);
    if Winner(s) {
      WinnerOfFamily(addresses, strategy != PreferIPv6, s.primary, primary);
    } else {
      WinnerOfFamily(addresses, strategy == PreferIPv6, s.fallback, fallback);
    }
  }

  /** The connection that a race returns is open. */
  lemma RaceConnIsOpen(addresses: seq<Addr>, strategy: Strategy, s: State)
    requires Racing(addresses, strategy, s) && !s.main.Looping? && s.main.result.Got?
    ensures s.main.result.id < |s.closes| && s.closes[s.main.result.id] == 0
  {
    RacingInv(addresses, strategy, s);
    assert Places(s, s.main.result.id) == 1;
  }

  /** A prefix of a list of valid addresses is its own valid part. */
  lemma {:induction false} AllValid(s: seq<Addr>, k: nat)
    requires Valid(s) == s && k <= |s|
    ensures Valid(s[..k]) == s[..k]
  {
    FilterAppend((a: Addr) => a.IsValid(), s[..k], s[k..]);
    assert s == s[..k] + s[k..];
    var a, b := Valid(s[..k]), Valid(s[k..]);
    assert |a| <= k && |b| <= |s| - k && |a + b| == |s|;
    assert a == (a + b)[..k] == s[..k];
  }
}
