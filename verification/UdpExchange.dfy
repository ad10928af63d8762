/**
 DNS over one UDP socket shared by many exchanges.

 Every exchange takes the next 16-bit id of the current connection, registers a callback under it,
 sends, waits and removes the entry; a receive loop for each connection completes the callback it
 finds under a reply's id. The steps are the critical sections and channel operations of these
 parties, in any order.
 */
module UdpExchange {
  import opened Prelude

  const IDS := 0x1_0000

  /** Errors are opaque; this one is what a waiter gets when the transport is closed. */
  const ERR_TRANSPORT_CLOSED: nat := 0

  datatype Msg = Msg(id: nat, payload: nat)

  datatype Result = Replied(msg: Msg) | Failed(err: nat)

  /** The receive loop: in the read, between lookup and completion, or returned. */
  datatype Loop = Reading | Found(cb: nat, msg: Msg) | Returned

  /** A connection. `closes` counts the calls of the socket's Close; the history `registered` counts
      the exchanges that ever registered, of which `queryId` is the low 16 bits. A callback is named
      by its exchange. */
  datatype Conn = Conn(
    done: bool, err: Option<nat>, closes: nat,
    queryId: nat, registered: nat,
    callbacks: map<nat, nat>,
    loop: Loop)

  datatype Pc =
    | Opening | Registering | Sending | Waiting
    | Removing(result: Result)  // the deferred removal is still to run
    | Finished(result: Result)

  /** An exchange and its callback: `done` and `message` are the callback's fields, `completions`
      counts how often its channel was closed, `serial` is its rank among the registrations. */
  datatype Exchange = Exchange(
    origId: nat, pc: Pc, conn: nat, serial: nat, wireId: nat,
    done: bool, message: Option<Msg>, completions: nat)

  datatype State = State(conns: seq<Conn>, current: Option<nat>, exchanges: seq<Exchange>)

  const INITIAL := State([], None, [])

  datatype Action =
    | Begin(origId: nat)
    | Open(x: nat, dial: Option<nat>)   // None: a dial would succeed; Some(e): it would fail with e
    | Register(x: nat)
    | PackFails(x: nat, err: nat)
    | Write(x: nat, fails: Option<nat>)
    | TakeReply(x: nat)
    | SeeConnDone(x: nat)
    | SeeTransportClosed(x: nat)
    | Cancel(x: nat, err: nat)
    | Remove(x: nat)
    | Receive(c: nat, msg: Msg)
    | ReceiveFails(c: nat, err: nat)
    | Complete(c: nat)

  // ---- the critical sections of a connection ----

  /** Closing is guarded by a once: only the first error is kept. */
  function Shut(c: Conn, err: nat): Conn {
    if c.done then c else c.(done := true, err := Some(err), closes := c.closes + 1)
  }

  function Enter(c: Conn, x: nat): Conn {
    var id := (c.queryId + 1) % IDS;
    c.(queryId := id, registered := c.registered + 1, callbacks := c.callbacks[id := x])
  }

  function Leave(c: Conn, id: nat): Conn {
    c.(callbacks := c.callbacks - {id})
  }

  const NEW_CONN := Conn(false, None, 0, 0, 0, map[], Reading)

  // ---- transitions ----

  predicate At(s: State, x: nat, pc: Pc) {
    x < |s.exchanges| && s.exchanges[x].pc == pc && (pc != Opening ==> s.exchanges[x].conn < |s.conns|)
  }

  predicate Enabled(s: State, a: Action) {
    match a
    case Begin(origId) => origId < IDS
    case Open(x, _) => At(s, x, Opening) && (s.current.Some? ==> s.current.value < |s.conns|)
    case Register(x) => At(s, x, Registering)
    case PackFails(x, _) => At(s, x, Sending)
    case Write(x, _) => At(s, x, Sending)
    case TakeReply(x) => At(s, x, Waiting) && s.exchanges[x].done && s.exchanges[x].message.Some?
    case SeeConnDone(x) => At(s, x, Waiting) && s.conns[s.exchanges[x].conn].done &&
        s.conns[s.exchanges[x].conn].err.Some?
    case SeeTransportClosed(x) => At(s, x, Waiting)
    case Cancel(x, _) => At(s, x, Waiting)
    case Remove(x) => x < |s.exchanges| && s.exchanges[x].pc.Removing? && s.exchanges[x].conn < |s.conns|
    case Receive(c, m) => c < |s.conns| && s.conns[c].loop == Reading && m.id < IDS
    case ReceiveFails(c, _) => c < |s.conns| && s.conns[c].loop == Reading
    case Complete(c) => c < |s.conns| && s.conns[c].loop.Found? && s.conns[c].loop.cb < |s.exchanges|
  }

  function SetConn(s: State, c: nat, y: Conn): State
    requires c < |s.conns|
  {
    s.(conns := s.conns[c := y])
  }

  function SetExchange(s: State, x: nat, y: Exchange): State
    requires x < |s.exchanges|
  {
    s.(exchanges := s.exchanges[x := y])
  }

  function Goto(s: State, x: nat, pc: Pc): State
    requires x < |s.exchanges|
  {
    SetExchange(s, x, s.exchanges[x].(pc := pc))
  }

  function DoOpen(s: State, x: nat, dial: Option<nat>): State
    requires Enabled(s, Open(x, dial))
  {
    var ex := s.exchanges[x];
    if s.current.Some? && !s.conns[s.current.value].done then
      SetExchange(s, x, ex.(pc := Registering, conn := s.current.value))
    else if dial.Some? then Goto(s, x, Finished(Failed(dial.value)))
    else
      SetExchange(s.(conns := s.conns + [NEW_CONN], current := Some(|s.conns|)), x,
                  ex.(pc := Registering, conn := |s.conns|))
  }

  function DoRegister(s: State, x: nat): State
    requires Enabled(s, Register(x))
  {
    var ex := s.exchanges[x];
    var c := Enter(s.conns[ex.conn], x);
    SetExchange(SetConn(s, ex.conn, c), x, ex.(pc := Sending, serial := c.registered, wireId := c.queryId))
  }

  /** A failure that also closes the connection. */
  function DoFail(s: State, x: nat, err: nat): State
    requires x < |s.exchanges| && s.exchanges[x].conn < |s.conns|
  {
    var c := s.exchanges[x].conn;
    Goto(SetConn(s, c, Shut(s.conns[c], err)), x, Removing(Failed(err)))
  }

  function DoRemove(s: State, x: nat): State
    requires Enabled(s, Remove(x))
  {
    var ex := s.exchanges[x];
    Goto(SetConn(s, ex.conn, Leave(s.conns[ex.conn], ex.wireId)), x, Finished(ex.pc.result))
  }

  function DoReceive(s: State, c: nat, m: Msg): State
    requires Enabled(s, Receive(c, m))
  {
    if m.id in s.conns[c].callbacks then SetConn(s, c, s.conns[c].(loop := Found(s.conns[c].callbacks[m.id], m)))
    else s
  }

  function DoComplete(s: State, c: nat): State
    requires Enabled(s, Complete(c))
  {
    var cb, m := s.conns[c].loop.cb, s.conns[c].loop.msg;
    var t := SetConn(s, c, s.conns[c].(loop := Reading));
    var ex := s.exchanges[cb];
    if ex.done then t
    else SetExchange(t, cb, ex.(done := true, message := Some(m), completions := ex.completions + 1))
  }

  function Step(s: State, a: Action): State
    requires Enabled(s, a)
  {
    match a
    case Begin(origId) => s.(exchanges := s.exchanges + [Exchange(origId, Opening, 0, 0, 0, false, None, 0)])
    case Open(x, dial) => DoOpen(s, x, dial)
    case Register(x) => DoRegister(s, x)
    case PackFails(x, err) => Goto(s, x, Removing(Failed(err)))
    case Write(x, fails) => if fails.Some? then DoFail(s, x, fails.value) else Goto(s, x, Waiting)
    case TakeReply(x) => Goto(s, x, Removing(Replied(s.exchanges[x].message.value.(id := s.exchanges[x].origId))))
    case SeeConnDone(x) => Goto(s, x, Removing(Failed(s.conns[s.exchanges[x].conn].err.value)))
    case SeeTransportClosed(x) => Goto(s, x, Removing(Failed(ERR_TRANSPORT_CLOSED)))
    case Cancel(x, err) => DoFail(s, x, err)
    case Remove(x) => DoRemove(s, x)
    case Receive(c, m) => DoReceive(s, c, m)
    case ReceiveFails(c, err) => SetConn(s, c, Shut(s.conns[c], err).(loop := Returned))
    case Complete(c) => DoComplete(s, c)
  }

  predicate Runs(s: State, run: seq<Action>)
    decreases |run|
  {
    run == [] || (Enabled(s, run[0]) && Runs(Step(s, run[0]), run[1..]))
  }

  function Exec(s: State, run: seq<Action>): State
    requires Runs(s, run)
    decreases |run|
  {
    if run == [] then s else Exec(Step(s, run[0]), run[1..])
  }

  // ---- what every run keeps, also when ids wrap around and collide ----

  /** Registered and not yet removed. */
  predicate Live(e: Exchange) {
    e.pc.Sending? || e.pc.Waiting? || e.pc.Removing?
  }

  predicate Registered(e: Exchange) {
    e.serial > 0
  }

  ghost predicate ConnOk(s: State, c: nat)
    requires c < |s.conns|
  {
    var y := s.conns[c];
    && y.queryId == y.registered % IDS
    && (y.done <==> y.err.Some?)
    && y.closes == (if y.done then 1 else 0)
    && (s.current != Some(c) ==> y.done)
    // an entry belongs to a live exchange that holds its id
    && (forall id <- y.callbacks :: y.callbacks[id] < |s.exchanges| &&
          Live(s.exchanges[y.callbacks[id]]) && s.exchanges[y.callbacks[id]].conn == c &&
            s.exchanges[y.callbacks[id]].wireId == id)
    && (y.loop.Found? ==>
          && y.loop.cb < |s.exchanges| && Registered(s.exchanges[y.loop.cb])
          && s.exchanges[y.loop.cb].wireId == y.loop.msg.id)
  }

  ghost predicate ExchangeOk(s: State, x: nat)
    requires x < |s.exchanges|
  {
    var e := s.exchanges[x];
    && ((e.pc == Registering || Registered(e)) ==> e.conn < |s.conns|)
    && (Live(e) ==> Registered(e))
    && ((e.pc == Opening || e.pc == Registering) ==> !Registered(e))
    && (Registered(e) ==> e.serial <= s.conns[e.conn].registered && e.wireId == e.serial % IDS)
    && e.done == e.message.Some?
    && e.completions == (if e.done then 1 else 0)
    && (e.done ==> Registered(e) && e.message.value.id == e.wireId)
    && ((e.pc.Removing? || e.pc.Finished?) && e.pc.result.Replied? ==>
          e.done && e.pc.result.msg == e.message.value.(id := e.origId))
  }

  ghost predicate Inv(s: State) {
    && (s.current.Some? ==> s.current.value < |s.conns|)
    && (forall c | 0 <= c < |s.conns| :: ConnOk(s, c))
    && (forall x | 0 <= x < |s.exchanges| :: ExchangeOk(s, x))
  }

  lemma NextId(r: nat)
    ensures (r % IDS + 1) % IDS == (r + 1) % IDS
  {
  }

  predicate Moves(a: Action) {
    a.PackFails? || a.Write? || a.TakeReply? || a.SeeConnDone? || a.SeeTransportClosed? || a.Cancel?
  }

  lemma BeginKeepsInv(s: State, origId: nat)
    requires Inv(s) && Enabled(s, Begin(origId))
    ensures Inv(Step(s, Begin(origId)))
  {
    var t := Step(s, Begin(origId));
    forall c | 0 <= c < |t.conns| ensures ConnOk(t, c) { assert ConnOk(s, c); }
    forall x | 0 <= x < |t.exchanges| ensures ExchangeOk(t, x) {
      if x < |s.exchanges| { assert ExchangeOk(s, x); }
    }
  }

  lemma OpenKeepsInv(s: State, x: nat, dial: Option<nat>)
    requires Inv(s) && Enabled(s, Open(x, dial))
    ensures Inv(DoOpen(s, x, dial))
  {
    var t := DoOpen(s, x, dial);
    assert ExchangeOk(s, x);
    forall c | 0 <= c < |t.conns| ensures ConnOk(t, c) {
      if c < |s.conns| { assert ConnOk(s, c); }
    }
    forall y | 0 <= y < |t.exchanges| ensures ExchangeOk(t, y) { assert ExchangeOk(s, y); }
  }

  lemma RegisterKeepsInv(s: State, x: nat)
    requires Inv(s) && Enabled(s, Register(x))
    ensures Inv(DoRegister(s, x))
  {
    var t := DoRegister(s, x);
    assert ExchangeOk(s, x);
    assert ConnOk(s, s.exchanges[x].conn);
    NextId(s.conns[s.exchanges[x].conn].registered);
    forall c | 0 <= c < |t.conns| ensures ConnOk(t, c) { assert ConnOk(s, c); }
    forall y | 0 <= y < |t.exchanges| ensures ExchangeOk(t, y) { assert ExchangeOk(s, y); }
  }

  /** A live exchange moves on; if it has a reply, that is its callback's. */
  lemma GotoKeepsInv(s: State, x: nat, pc: Pc)
    requires Inv(s) && x < |s.exchanges| && Live(s.exchanges[x]) && (pc.Waiting? || pc.Removing?)
    requires pc.Removing? && pc.result.Replied? ==>
               s.exchanges[x].done && s.exchanges[x].message.Some? &&
               pc.result.msg == s.exchanges[x].message.value.(id := s.exchanges[x].origId)
    ensures Inv(Goto(s, x, pc))
  {
    var t := Goto(s, x, pc);
    forall c | 0 <= c < |t.conns| ensures ConnOk(t, c) { assert ConnOk(s, c); }
    forall y | 0 <= y < |t.exchanges| ensures ExchangeOk(t, y) { assert ExchangeOk(s, y); }
  }

  lemma ShutKeepsInv(s: State, c: nat, err: nat, loop: Loop)
    requires Inv(s) && c < |s.conns| && (loop == s.conns[c].loop || loop == Returned)
    ensures Inv(SetConn(s, c, Shut(s.conns[c], err).(loop := loop)))
  {
    var t := SetConn(s, c, Shut(s.conns[c], err).(loop := loop));
    forall d | 0 <= d < |t.conns| ensures ConnOk(t, d) { assert ConnOk(s, d); }
    forall y | 0 <= y < |t.exchanges| ensures ExchangeOk(t, y) { assert ExchangeOk(s, y); }
  }

  lemma FailKeepsInv(s: State, x: nat, err: nat)
    requires Inv(s) && x < |s.exchanges| && s.exchanges[x].conn < |s.conns| && Live(s.exchanges[x])
    ensures Inv(DoFail(s, x, err))
  {
    var c := s.exchanges[x].conn;
    ShutKeepsInv(s, c, err, s.conns[c].loop);
    GotoKeepsInv(SetConn(s, c, Shut(s.conns[c], err)), x, Removing(Failed(err)));
  }

  lemma MoveKeepsInv(s: State, a: Action)
    requires Inv(s) && Enabled(s, a) && Moves(a)
    ensures Inv(Step(s, a))
  {
    if a.Cancel? {
      FailKeepsInv(s, a.x, a.err);
    } else if a.Write? && a.fails.Some? {
      FailKeepsInv(s, a.x, a.fails.value);
    } else {
      GotoKeepsInv(s, a.x, Step(s, a).exchanges[a.x].pc);
    }
  }

  lemma RemoveKeepsInv(s: State, x: nat)
    requires Inv(s) && Enabled(s, Remove(x))
    ensures Inv(DoRemove(s, x))
  {
    var t := DoRemove(s, x);
    assert ExchangeOk(s, x);
    forall c | 0 <= c < |t.conns| ensures ConnOk(t, c) { assert ConnOk(s, c); }
    forall y | 0 <= y < |t.exchanges| ensures ExchangeOk(t, y) { assert ExchangeOk(s, y); }
  }

  lemma CompleteKeepsInv(s: State, c: nat)
    requires Inv(s) && Enabled(s, Complete(c))
    ensures Inv(DoComplete(s, c))
  {
    var t := DoComplete(s, c);
    assert ConnOk(s, c);
    forall d | 0 <= d < |t.conns| ensures ConnOk(t, d) { assert ConnOk(s, d); }
    forall x | 0 <= x < |t.exchanges| ensures ExchangeOk(t, x) { assert ExchangeOk(s, x); }
  }

  lemma LookupKeepsInv(s: State, c: nat, m: Msg)
    requires Inv(s) && Enabled(s, Receive(c, m))
    ensures Inv(DoReceive(s, c, m))
  {
    var t := DoReceive(s, c, m);
    assert ConnOk(s, c);
    assert m.id in s.conns[c].callbacks ==> ExchangeOk(s, s.conns[c].callbacks[m.id]);
    forall d | 0 <= d < |t.conns| ensures ConnOk(t, d) { assert ConnOk(s, d); }
    forall x | 0 <= x < |t.exchanges| ensures ExchangeOk(t, x) { assert ExchangeOk(s, x); }
  }

  lemma StepKeepsInv(s: State, a: Action)
    requires Inv(s) && Enabled(s, a)
    ensures Inv(Step(s, a))
  {
    match a {
      case Register(x) => RegisterKeepsInv(s, x);
      case Remove(x) => RemoveKeepsInv(s, x);
      case Receive(c, m) => LookupKeepsInv(s, c, m);
      case ReceiveFails(c, err) => ShutKeepsInv(s, c, err, Returned);
      case Complete(c) => CompleteKeepsInv(s, c);
      case Begin(origId) => BeginKeepsInv(s, origId);
      case Open(x, dial) => OpenKeepsInv(s, x, dial);
      case _ => MoveKeepsInv(s, a);
    }
  }

  lemma {:induction false} RunKeepsInv(s: State, run: seq<Action>)
    requires Inv(s) && Runs(s, run)
    ensures Inv(Exec(s, run))
    decreases |run|
  {
    if run != [] {
      StepKeepsInv(s, run[0]);
      RunKeepsInv(Step(s, run[0]), run[1..]);
    }
  }

  // ---- main results, for every run ----

  ghost predicate Reachable(s: State) {
    exists run :: Runs(INITIAL, run) && s == Exec(INITIAL, run)
  }

  lemma ReachableInv(s: State)
    requires Reachable(s)
    ensures Inv(s)
  {
    var run :| Runs(INITIAL, run) && s == Exec(INITIAL, run);
    RunKeepsInv(INITIAL, run);
  }

  /** Even when ids wrap around and entries are overwritten, the table holds only ids of exchanges
      that are not finished; so it is empty when there are none. */
  lemma TableHoldsLiveIds(s: State, c: nat)
    requires Reachable(s) && c < |s.conns|
    ensures forall id <- s.conns[c].callbacks ::
              exists x: nat :: x < |s.exchanges| && Live(s.exchanges[x]) && s.exchanges[x].conn == c &&
                s.exchanges[x].wireId == id
    ensures (forall x | 0 <= x < |s.exchanges| :: !Live(s.exchanges[x])) ==> s.conns[c].callbacks == map[]
  {
    ReachableInv(s);
    var y := s.conns[c];
    assert ConnOk(s, c);
    forall id <- y.callbacks
      ensures exists x: nat ::
          x < |s.exchanges| && Live(s.exchanges[x]) && s.exchanges[x].conn == c && s.exchanges[x].wireId == id
    {
      assert Live(s.exchanges[y.callbacks[id]]);
    }
    if forall x | 0 <= x < |s.exchanges| :: !Live(s.exchanges[x]) {
      assert y.callbacks.Keys == {};
    }
  }

  /** A callback completes at most once, its channel is closed exactly when its message is there, and
      the message carried the exchange's id on the wire. What the caller gets is that message under
      the caller's own id, section 4.1.1 of RFC 1035. */
  lemma RepliesAreOwn(s: State, x: nat)
    requires Reachable(s) && x < |s.exchanges|
    ensures var e := s.exchanges[x];
            && e.completions <= 1
            && (e.completions == 1 <==> e.done) && (e.done <==> e.message.Some?)
            && (e.message.Some? ==> e.message.value.id == e.wireId)
            && (e.pc.Finished? && e.pc.result.Replied? ==>
                  && e.message.Some? && e.pc.result.msg.id == e.origId
                  && e.pc.result.msg.payload == e.message.value.payload)
  {
    ReachableInv(s);
    assert ExchangeOk(s, x);
  }

  /** A transport has at most one connection that is not closed, its current one, and no socket is
      closed twice. */
  lemma OneOpenConnection(s: State, c: nat)
    requires Reachable(s) && c < |s.conns|
    ensures s.conns[c].closes <= 1 && (s.conns[c].closes == 1 <==> s.conns[c].done)
    ensures !s.conns[c].done ==> s.current == Some(c)
  {
    ReachableInv(s);
    assert ConnOk(s, c);
  }

  /** `open` hands out the transport's one open connection, dialing exactly when there is none; only
      a dial that fails makes it fail, and then nothing changes but the exchange. */
  lemma OpenGivesTheOpenConnection(s: State, x: nat, dial: Option<nat>)
    requires Reachable(s) && Enabled(s, Open(x, dial))
    ensures var t := Step(s, Open(x, dial));
            var c := t.exchanges[x].conn;
            var has := exists d: nat :: d < |s.conns| && !s.conns[d].done;
            if has || dial.None? then
              && t.exchanges[x].pc == Registering
              && c < |t.conns| && t.current == Some(c) && !t.conns[c].done
              && (c < |s.conns| <==> has)
              && (has ==> t.conns == s.conns)
            else
              t.exchanges[x].pc == Finished(Failed(dial.value)) && t.conns == s.conns && t.current == s.current
  {
    ReachableInv(s);
    forall d: nat | d < |s.conns| && !s.conns[d].done ensures s.current == Some(d) {
      assert ConnOk(s, d);
    }
  }

  lemma StepKeepsError(s: State, a: Action, c: nat)
    requires Inv(s) && Enabled(s, a) && c < |s.conns| && s.conns[c].done
    ensures c < |Step(s, a).conns| && Step(s, a).conns[c].done && Step(s, a).conns[c].err == s.conns[c].err
  {
  }

  /** The first close error is final: whatever happens later, the connection stays closed with it,
      and it is what every exchange that sees the closed connection returns. */
  lemma {:induction false} FirstErrorIsFinal(s: State, run: seq<Action>, c: nat)
    requires Inv(s) && Runs(s, run) && c < |s.conns| && s.conns[c].done
    ensures var t := Exec(s, run);
            && c < |t.conns| && t.conns[c].done && t.conns[c].err == s.conns[c].err
            && forall x: nat :: Enabled(t, SeeConnDone(x)) && t.exchanges[x].conn == c ==>
                 Step(t, SeeConnDone(x)).exchanges[x].pc == Removing(Failed(s.conns[c].err.value))
    decreases |run|
  {
    assert ConnOk(s, c);
    if run != [] {
      StepKeepsInv(s, run[0]);
      StepKeepsError(s, run[0], c);
      FirstErrorIsFinal(Step(s, run[0]), run[1..], c);
    }
  }

  // ---- ids are unambiguous while fewer than 2^16 registrations overlap ----

  /** Fewer than 2^16 exchanges have registered since any exchange that is still live did. */
  ghost predicate Window(s: State) {
    forall x | 0 <= x < |s.exchanges| && Live(s.exchanges[x]) && s.exchanges[x].conn < |s.conns| ::
      s.conns[s.exchanges[x].conn].registered - s.exchanges[x].serial < IDS
  }

  /** No two exchanges of a connection have the same rank. */
  ghost predicate SerialsDiffer(s: State) {
    forall x, y | 0 <= x < |s.exchanges| && 0 <= y < |s.exchanges| && x != y
                  && Registered(s.exchanges[x]) && Registered(s.exchanges[y]) &&
                     s.exchanges[x].conn == s.exchanges[y].conn ::
      s.exchanges[x].serial != s.exchanges[y].serial
  }

  predicate HasEntry(s: State, x: nat) {
    x < |s.exchanges| && s.exchanges[x].conn < |s.conns| &&
    s.exchanges[x].wireId in s.conns[s.exchanges[x].conn].callbacks &&
    s.conns[s.exchanges[x].conn].callbacks[s.exchanges[x].wireId] == x
  }

  ghost predicate TableIsExact(s: State) {
    forall x | 0 <= x < |s.exchanges| && Live(s.exchanges[x]) :: HasEntry(s, x)
  }

  lemma CloseRanksHaveDistinctIds(m: nat, n: nat)
    requires m < n < m + IDS
    ensures m % IDS != n % IDS
  {
  }

  /** The ids of two live exchanges of one connection differ. */
  lemma LiveIdsDiffer(s: State, x: nat, y: nat)
    requires Inv(s) && Window(s) && SerialsDiffer(s)
    requires x < |s.exchanges| && y < |s.exchanges| && x != y && Live(s.exchanges[x]) && Live(s.exchanges[y])
    requires s.exchanges[x].conn == s.exchanges[y].conn
    ensures s.exchanges[x].wireId != s.exchanges[y].wireId
  {
    assert ExchangeOk(s, x) && ExchangeOk(s, y);
    var m, n := s.exchanges[x].serial, s.exchanges[y].serial;
    if m < n { CloseRanksHaveDistinctIds(m, n); } else { CloseRanksHaveDistinctIds(n, m); }
  }

  lemma OtherStepKeepsSerial(s: State, a: Action, x: nat)
    requires Inv(s) && Enabled(s, a) && !a.Register?
    requires x < |Step(s, a).exchanges| && Registered(Step(s, a).exchanges[x])
    ensures x < |s.exchanges| && Registered(s.exchanges[x])
    ensures var e, f := s.exchanges[x], Step(s, a).exchanges[x]; f.conn == e.conn && f.serial == e.serial
  {
    assert x < |s.exchanges| ==> ExchangeOk(s, x);
  }

  /** The new rank is above all others of its connection. */
  lemma RegisterKeepsSerials(s: State, r: nat)
    requires Inv(s) && SerialsDiffer(s) && Enabled(s, Register(r))
    ensures SerialsDiffer(DoRegister(s, r))
  {
    var t := DoRegister(s, r);
    forall x | 0 <= x < |t.exchanges| && x != r && Registered(t.exchanges[x])
               && t.exchanges[x].conn == t.exchanges[r].conn
      ensures t.exchanges[x].serial < t.exchanges[r].serial
    {
      assert ExchangeOk(s, x);
    }
  }

  lemma SerialsKept(s: State, a: Action)
    requires Inv(s) && SerialsDiffer(s) && Enabled(s, a)
    ensures SerialsDiffer(Step(s, a))
  {
    if a.Register? {
      RegisterKeepsSerials(s, a.x);
    } else {
      var t := Step(s, a);
      forall x | 0 <= x < |t.exchanges| && Registered(t.exchanges[x])
        ensures x < |s.exchanges| && Registered(s.exchanges[x])
        ensures t.exchanges[x].conn == s.exchanges[x].conn && t.exchanges[x].serial == s.exchanges[x].serial
      {
        OtherStepKeepsSerial(s, a, x);
      }
    }
  }

  lemma RegisterKeepsEntries(s: State, r: nat)
    requires Inv(s) && TableIsExact(s) && Enabled(s, Register(r))
    requires var t := DoRegister(s, r); Inv(t) && SerialsDiffer(t) && Window(t)
    ensures TableIsExact(DoRegister(s, r))
  {
    var t := DoRegister(s, r);
    forall x | 0 <= x < |t.exchanges| && Live(t.exchanges[x])
      ensures HasEntry(t, x)
    {
      if x != r {
        assert HasEntry(s, x);
        if s.exchanges[x].conn == s.exchanges[r].conn { LiveIdsDiffer(t, x, r); }
      }
    }
  }

  lemma RemoveKeepsEntries(s: State, r: nat)
    requires Inv(s) && SerialsDiffer(s) && Window(s) && TableIsExact(s) && Enabled(s, Remove(r))
    ensures TableIsExact(DoRemove(s, r))
  {
    var t := DoRemove(s, r);
    forall x | 0 <= x < |t.exchanges| && Live(t.exchanges[x])
      ensures HasEntry(t, x)
    {
      assert x != r && HasEntry(s, x);
      if s.exchanges[x].conn == s.exchanges[r].conn { LiveIdsDiffer(s, x, r); }
    }
  }

  /** What the other steps leave alone in the tables, and in an exchange that is live afterwards. */
  lemma OtherStepKeepsTables(s: State, a: Action)
    requires Enabled(s, a) && !a.Register? && !a.Remove?
    ensures |s.conns| <= |Step(s, a).conns|
    ensures forall c | 0 <= c < |s.conns| ::
              Step(s, a).conns[c].callbacks == s.conns[c].callbacks &&
                Step(s, a).conns[c].registered == s.conns[c].registered
  {
  }

  lemma OtherStepKeepsIds(s: State, a: Action, x: nat)
    requires Enabled(s, a) && !a.Register? && x < |Step(s, a).exchanges| && Live(Step(s, a).exchanges[x])
    ensures x < |s.exchanges| && Live(s.exchanges[x])
    ensures var e, f := s.exchanges[x], Step(s, a).exchanges[x];
            f.conn == e.conn && f.serial == e.serial && f.wireId == e.wireId
  {
  }

  lemma OtherStepKeepsEntries(s: State, a: Action)
    requires Inv(s) && TableIsExact(s) && Enabled(s, a) && !a.Register? && !a.Remove?
    ensures TableIsExact(Step(s, a))
  {
    var t := Step(s, a);
    OtherStepKeepsTables(s, a);
    forall x | 0 <= x < |t.exchanges| && Live(t.exchanges[x])
      ensures HasEntry(t, x)
    {
      OtherStepKeepsIds(s, a, x);
      assert HasEntry(s, x);
    }
  }

  lemma EntriesKept(s: State, a: Action)
    requires Inv(s) && SerialsDiffer(s) && Window(s) && TableIsExact(s) && Enabled(s, a)
    requires Inv(Step(s, a)) && SerialsDiffer(Step(s, a)) && Window(Step(s, a))
    ensures TableIsExact(Step(s, a))
  {
    match a {
      case Register(x) => RegisterKeepsEntries(s, x);
      case Remove(x) => RemoveKeepsEntries(s, x);
      case _ => OtherStepKeepsEntries(s, a);
    }
  }

  /** Every state of the run satisfies `Window`. */
  ghost predicate StaysInWindow(s: State, run: seq<Action>)
    requires Runs(s, run)
    decreases |run|
  {
    Window(s) && (run != [] ==> StaysInWindow(Step(s, run[0]), run[1..]))
  }

  lemma {:induction false} RunKeepsTable(s: State, run: seq<Action>)
    requires Inv(s) && SerialsDiffer(s) && TableIsExact(s) && Runs(s, run) && StaysInWindow(s, run)
    ensures var t := Exec(s, run); Inv(t) && SerialsDiffer(t) && Window(t) && TableIsExact(t)
    decreases |run|
  {
    if run != [] {
      var t := Step(s, run[0]);
      StepKeepsInv(s, run[0]);
      SerialsKept(s, run[0]);
      assert Window(t);
      EntriesKept(s, run[0]);
      RunKeepsTable(t, run[1..]);
    }
  }

  lemma OtherStepKeepsCounts(s: State, a: Action)
    requires Enabled(s, a) && !a.Register?
    ensures |s.conns| <= |Step(s, a).conns|
    ensures forall c | 0 <= c < |s.conns| :: Step(s, a).conns[c].registered == s.conns[c].registered
  {
    if !a.Remove? { OtherStepKeepsTables(s, a); }
  }

  lemma OtherStepKeepsWindow(s: State, a: Action)
    requires Inv(s) && Window(s) && Enabled(s, a) && !a.Register?
    ensures Window(Step(s, a))
  {
    var t := Step(s, a);
    OtherStepKeepsCounts(s, a);
    forall x | 0 <= x < |t.exchanges| && Live(t.exchanges[x]) && t.exchanges[x].conn < |t.conns|
      ensures t.conns[t.exchanges[x].conn].registered - t.exchanges[x].serial < IDS
    {
      OtherStepKeepsIds(s, a, x);
      assert ExchangeOk(s, x);
    }
  }

  lemma SameIdAfterWrap(n: nat)
    ensures (n + IDS) % IDS == n % IDS
  {
  }

  /** The registration that leaves the window takes over the entry of the exchange that it leaves behind. */
  lemma RegisterOverwrites(s: State, r: nat, x: nat)
    requires Inv(s) && Window(s) && Enabled(s, Register(r)) && Inv(DoRegister(s, r))
    requires var t := DoRegister(s, r);
             && x < |t.exchanges| && Live(t.exchanges[x]) && t.exchanges[x].conn < |t.conns|
             && t.conns[t.exchanges[x].conn].registered - t.exchanges[x].serial >= IDS
    ensures !HasEntry(DoRegister(s, r), x)
  {
    var t := DoRegister(s, r);
    assert x != r && t.exchanges[x] == s.exchanges[x];
    assert t.exchanges[x].conn == t.exchanges[r].conn;
    assert ExchangeOk(t, x) && ExchangeOk(t, r);
    SameIdAfterWrap(t.exchanges[x].serial);
    assert t.exchanges[r].serial == t.exchanges[x].serial + IDS;
  }

  lemma RegisterIsExact(s: State, r: nat)
    requires Inv(s) && SerialsDiffer(s) && Window(s) && TableIsExact(s) && Enabled(s, Register(r))
    ensures TableIsExact(DoRegister(s, r)) <==> Window(DoRegister(s, r))
  {
    var t := DoRegister(s, r);
    RegisterKeepsInv(s, r);
    SerialsKept(s, Register(r));
    if Window(t) {
      RegisterKeepsEntries(s, r);
    } else {
      var x :| 0 <= x < |t.exchanges| && Live(t.exchanges[x]) && t.exchanges[x].conn < |t.conns| &&
               t.conns[t.exchanges[x].conn].registered - t.exchanges[x].serial >= IDS;
      RegisterOverwrites(s, r, x);
    }
  }

  /** In every state of the run each live exchange finds its own entry under its id. */
  ghost predicate StaysExact(s: State, run: seq<Action>)
    requires Runs(s, run)
    decreases |run|
  {
    TableIsExact(s) && (run != [] ==> StaysExact(Step(s, run[0]), run[1..]))
  }

  lemma {:induction false} WindowFollowsTable(s: State, run: seq<Action>)
    requires Inv(s) && SerialsDiffer(s) && Window(s) && TableIsExact(s) && Runs(s, run)
    ensures StaysExact(s, run) <==> StaysInWindow(s, run)
    decreases |run|
  {
    if run != [] {
      var t := Step(s, run[0]);
      StepKeepsInv(s, run[0]);
      SerialsKept(s, run[0]);
      if run[0].Register? {
        RegisterIsExact(s, run[0].x);
      } else {
        OtherStepKeepsWindow(s, run[0]);
        EntriesKept(s, run[0]);
      }
      if Window(t) { WindowFollowsTable(t, run[1..]); }
    }
  }

  /** The exact condition, for runs: throughout a run every live exchange has the table entry under its
      id if and only if throughout the run fewer than 2^16 registrations follow that of any live one. */
  lemma UnambiguousExactly(run: seq<Action>)
    requires Runs(INITIAL, run)
    ensures StaysExact(INITIAL, run) <==> StaysInWindow(INITIAL, run)
  {
    InitialIsExact();
    WindowFollowsTable(INITIAL, run);
  }

  lemma InitialIsExact()
    ensures Inv(INITIAL) && SerialsDiffer(INITIAL) && Window(INITIAL) && TableIsExact(INITIAL)
  {
  }

  // ---- a crowd that leaves the window ----

  /** Exchanges begin, open the connection and register, and none of them ends. */
  function Crowd(n: nat): seq<Action> {
    if n == 0 then [] else Crowd(n - 1) + [Begin(0), Open(n - 1, None), Register(n - 1)]
  }

  ghost predicate Crowded(s: State, n: nat) {
    && |s.exchanges| == n
    && (forall i | 0 <= i < n :: s.exchanges[i] == Exchange(0, Sending, 0, i + 1, (i + 1) % IDS, false, None, 0))
    && (n == 0 ==> s == INITIAL)
    && (n > 0 ==>
          && |s.conns| == 1 && s.current == Some(0) && !s.conns[0].done
          && s.conns[0].registered == n && s.conns[0].queryId == n % IDS
          && n % IDS in s.conns[0].callbacks && s.conns[0].callbacks[n % IDS] == n - 1)
  }

  lemma ExecCons(s: State, a: Action, rest: seq<Action>)
    requires Enabled(s, a) && Runs(Step(s, a), rest)
    ensures Runs(s, [a] + rest) && Exec(s, [a] + rest) == Exec(Step(s, a), rest)
  {
    assert ([a] + rest)[1..] == rest;
  }

  lemma {:induction false} ExecAppend(s: State, run: seq<Action>, more: seq<Action>)
    requires Runs(s, run) && Runs(Exec(s, run), more)
    ensures Runs(s, run + more) && Exec(s, run + more) == Exec(Exec(s, run), more)
    decreases |run|
  {
    if run == [] {
      assert run + more == more;
    } else {
      assert (run + more)[1..] == run[1..] + more;
      ExecAppend(Step(s, run[0]), run[1..], more);
    }
  }

  lemma CrowdGrows(s: State, n: nat)
    requires Crowded(s, n)
    ensures var more := [Begin(0), Open(n, None), Register(n)];
            Runs(s, more) && Crowded(Exec(s, more), n + 1)
  {
    NextId(n);
    var s1 := Step(s, Begin(0));
    var s2 := Step(s1, Open(n, None));
    assert |s2.conns| == 1 && s2.exchanges[n] == Exchange(0, Registering, 0, 0, 0, false, None, 0);
    ExecCons(s2, Register(n), []);
    ExecCons(s1, Open(n, None), [Register(n)]);
    ExecCons(s, Begin(0), [Open(n, None), Register(n)]);
  }

  lemma {:induction false} CrowdRuns(n: nat)
    ensures Runs(INITIAL, Crowd(n)) && Crowded(Exec(INITIAL, Crowd(n)), n)
  {
    if n > 0 {
      CrowdRuns(n - 1);
      CrowdGrows(Exec(INITIAL, Crowd(n - 1)), n - 1);
      ExecAppend(INITIAL, Crowd(n - 1), [Begin(0), Open(n - 1, None), Register(n - 1)]);
    }
  }

  /** More than 2^16 exchanges that begin before any of them ends do collide: the last one has taken over
      the entry of the one that registered 2^16 before it, which is still waiting for its reply. */
  lemma CrowdCollides(n: nat)
    requires n > IDS
    ensures Runs(INITIAL, Crowd(n))
    ensures var s, x := Exec(INITIAL, Crowd(n)), n - 1 - IDS;
            && x < |s.exchanges| && Live(s.exchanges[x]) && !HasEntry(s, x)
            && HasEntry(s, n - 1) && s.exchanges[x].wireId == s.exchanges[n - 1].wireId
  {
    CrowdRuns(n);
    SameIdAfterWrap(n - IDS);
  }

  /** `s` is the state after a run in which fewer than 2^16 exchanges ever register between any
      exchange's registration and its removal. */
  ghost predicate ReachableInWindow(s: State) {
    exists run :: Runs(INITIAL, run) && StaysInWindow(INITIAL, run) && s == Exec(INITIAL, run)
  }

  lemma InWindow(s: State)
    requires ReachableInWindow(s)
    ensures Inv(s) && SerialsDiffer(s) && Window(s) && TableIsExact(s)
  {
    var run :| Runs(INITIAL, run) && StaysInWindow(INITIAL, run) && s == Exec(INITIAL, run);
    RunKeepsTable(INITIAL, run);
  }

  /** Then the table entry under a live exchange's id is its own throughout, and no other live
      exchange of the connection has its id. */
  lemma IdsAreUnambiguous(s: State, x: nat)
    requires ReachableInWindow(s) && x < |s.exchanges| && Live(s.exchanges[x])
    ensures HasEntry(s, x)
    ensures forall y | 0 <= y < |s.exchanges| && y != x && Live(s.exchanges[y]) &&
      s.exchanges[y].conn == s.exchanges[x].conn ::
              s.exchanges[y].wireId != s.exchanges[x].wireId
  {
    InWindow(s);
    forall y | 0 <= y < |s.exchanges| && y != x && Live(s.exchanges[y]) && s.exchanges[y].conn == s.exchanges[x].conn
      ensures s.exchanges[y].wireId != s.exchanges[x].wireId
    {
      LiveIdsDiffer(s, x, y);
    }
  }

  /** Hence the table is exactly the assignment of ids to live exchanges, and a reply is handed to
      the live exchange that holds its id, or dropped if there is none. */
  lemma RepliesFindTheirExchange(s: State, c: nat, m: Msg, x: nat)
    requires ReachableInWindow(s) && Enabled(s, Receive(c, m)) && x < |s.exchanges|
    ensures Step(s, Receive(c, m)).conns[c].loop == Found(x, m) <==>
            Live(s.exchanges[x]) && s.exchanges[x].conn == c && s.exchanges[x].wireId == m.id
  {
    InWindow(s);
    assert ConnOk(s, c);
    if Live(s.exchanges[x]) { assert HasEntry(s, x); }
  }

  // ---- delivery ----

  /** A lookup that found a callback ends with that callback's message there: the looked-up one, unless
      the callback had one before. */
  lemma CompletionDelivers(s: State, c: nat)
    requires Reachable(s) && c < |s.conns| && s.conns[c].loop.Found?
    ensures Enabled(s, Complete(c))
    ensures var cb, m, t := s.conns[c].loop.cb, s.conns[c].loop.msg, Step(s, Complete(c));
            && t.exchanges[cb].done && t.exchanges[cb].completions == 1
            && t.exchanges[cb].message == (if s.exchanges[cb].done then s.exchanges[cb].message else Some(m))
            && t.exchanges[cb].pc == s.exchanges[cb].pc && t.conns[c].loop == Reading
            && forall x | 0 <= x < |s.exchanges| && x != cb :: t.exchanges[x] == s.exchanges[x]
  {
    ReachableInv(s);
    assert ConnOk(s, c);
    assert ExchangeOk(s, s.conns[c].loop.cb);
  }

  /** The reply as the caller gets it: the message under the caller's own id. */
  function Answer(e: Exchange): Result
    requires e.message.Some?
  {
    Replied(Msg(e.origId, e.message.value.payload))
  }

  /** An exchange that waits takes the reply as soon as it is there, and then returns it whatever else
      happens. */
  lemma TakesReply(s: State, x: nat)
    requires Reachable(s) && At(s, x, Waiting) && s.exchanges[x].done
    ensures s.exchanges[x].message.Some? && Enabled(s, TakeReply(x))
    ensures Step(s, TakeReply(x)).exchanges[x].pc == Removing(Answer(s.exchanges[x]))
  {
    ReachableInv(s);
    assert ExchangeOk(s, x);
  }

  /** From the deferred removal on the result is settled, and the removal can run. */
  lemma {:induction false} ResultIsSettled(s: State, run: seq<Action>, x: nat, result: Result)
    requires Inv(s) && Runs(s, run) && x < |s.exchanges|
    requires s.exchanges[x].pc == Removing(result) || s.exchanges[x].pc == Finished(result)
    ensures var t := Exec(s, run);
            && x < |t.exchanges|
            && (t.exchanges[x].pc == Finished(result) ||
                (t.exchanges[x].pc == Removing(result) && Enabled(t, Remove(x))))
    decreases |run|
  {
    assert ExchangeOk(s, x);
    if run != [] {
      StepKeepsInv(s, run[0]);
      ResultStays(s, run[0], x, result);
      ResultIsSettled(Step(s, run[0]), run[1..], x, result);
    }
  }

  lemma ResultStays(s: State, a: Action, x: nat, result: Result)
    requires Enabled(s, a) && x < |s.exchanges|
    requires s.exchanges[x].pc == Removing(result) || s.exchanges[x].pc == Finished(result)
    ensures var t := Step(s, a);
            && x < |t.exchanges|
            && (t.exchanges[x].pc == Finished(result) || (t.exchanges[x].pc == Removing(result) && a != Remove(x)))
  {
  }

  /** An exchange that takes a reply finishes with it and with nothing else. */
  lemma TakenReplyIsReturned(s: State, x: nat, run: seq<Action>)
    requires Reachable(s) && At(s, x, Waiting) && s.exchanges[x].done && Enabled(s, TakeReply(x))
    requires Runs(Step(s, TakeReply(x)), run)
    ensures var t := Exec(Step(s, TakeReply(x)), run);
            && x < |t.exchanges| && s.exchanges[x].message.Some?
            && (t.exchanges[x].pc.Finished? ==> t.exchanges[x].pc == Finished(Answer(s.exchanges[x])))
            && (!t.exchanges[x].pc.Finished? ==> Enabled(t, Remove(x)))
  {
    TakesReply(s, x);
    ReachableInv(s);
    StepKeepsInv(s, TakeReply(x));
    ResultIsSettled(Step(s, TakeReply(x)), run, x, Answer(s.exchanges[x]));
  }

  lemma ReachableStep(s: State, a: Action)
    requires Reachable(s) && Enabled(s, a)
    ensures Reachable(Step(s, a))
  {
    var run :| Runs(INITIAL, run) && s == Exec(INITIAL, run);
    ExecCons(s, a, []);
    assert [a] + [] == [a];
    ExecAppend(INITIAL, run, [a]);
  }

  lemma WindowIsReachable(s: State)
    requires ReachableInWindow(s)
    ensures Reachable(s)
  {
    var run :| Runs(INITIAL, run) && StaysInWindow(INITIAL, run) && s == Exec(INITIAL, run);
  }

  /** A reply with the id of a waiting exchange gets to it: some run begins with that reply and ends with
      the exchange returning its payload under the caller's id. */
  lemma ReplyIsDelivered(s: State, x: nat, m: Msg)
    requires ReachableInWindow(s) && At(s, x, Waiting) && !s.exchanges[x].done
    requires m.id == s.exchanges[x].wireId < IDS && s.conns[s.exchanges[x].conn].loop == Reading
    ensures var c := s.exchanges[x].conn;
            var run := [Receive(c, m)] + ([Complete(c)] + ([TakeReply(x)] + ([Remove(x)] + [])));
            && Runs(s, run) && x < |Exec(s, run).exchanges|
            && Exec(s, run).exchanges[x].pc == Finished(Replied(Msg(s.exchanges[x].origId, m.payload)))
  {
    var c := s.exchanges[x].conn;
    WindowIsReachable(s);
    RepliesFindTheirExchange(s, c, m, x);
    var s1 := Step(s, Receive(c, m));
    ReachableStep(s, Receive(c, m));
    CompletionDelivers(s1, c);
    var s2 := Step(s1, Complete(c));
    ReachableStep(s1, Complete(c));
    TakesReply(s2, x);
    var s3 := Step(s2, TakeReply(x));
    ReachableStep(s2, TakeReply(x));
    TakenReplyIsReturned(s2, x, []);
    assert Enabled(s3, Remove(x));
    ResultStays(s3, Remove(x), x, Answer(s2.exchanges[x]));
    ExecCons(s3, Remove(x), []);
    ExecCons(s2, TakeReply(x), [Remove(x)] + []);
    ExecCons(s1, Complete(c), [TakeReply(x)] + ([Remove(x)] + []));
    ExecCons(s, Receive(c, m), [Complete(c)] + ([TakeReply(x)] + ([Remove(x)] + [])));
  }

  /** An exchange may begin with any 16-bit id, and keeps it for its caller. */
  lemma BeginKeepsId(s: State, origId: nat, run: seq<Action>)
    requires origId < 65536
    ensures Enabled(s, Begin(origId))
    ensures Runs(Step(s, Begin(origId)), run) ==>
              var t := Exec(Step(s, Begin(origId)), run);
              |s.exchanges| < |t.exchanges| && t.exchanges[|s.exchanges|].origId == origId
  {
    if Runs(Step(s, Begin(origId)), run) { OrigIdStays(Step(s, Begin(origId)), run, |s.exchanges|); }
  }

  lemma {:induction false} OrigIdStays(s: State, run: seq<Action>, x: nat)
    requires Runs(s, run) && x < |s.exchanges|
    ensures x < |Exec(s, run).exchanges| && Exec(s, run).exchanges[x].origId == s.exchanges[x].origId
    decreases |run|
  {
    if run != [] {
      StepKeepsOrigId(s, run[0], x);
      OrigIdStays(Step(s, run[0]), run[1..], x);
    }
  }

  lemma StepKeepsOrigId(s: State, a: Action, x: nat)
    requires Enabled(s, a) && x < |s.exchanges|
    ensures x < |Step(s, a).exchanges| && Step(s, a).exchanges[x].origId == s.exchanges[x].origId
  {
  }

  /** The id on the wire is the low 16 bits of the rank among the registrations of the connection. */
  lemma IdIsLowBitsOfRank(s: State, x: nat)
    requires Reachable(s) && x < |s.exchanges| && Registered(s.exchanges[x])
    ensures s.exchanges[x].wireId == s.exchanges[x].serial % 65536
    ensures s.exchanges[x].conn < |s.conns| && s.exchanges[x].serial <= s.conns[s.exchanges[x].conn].registered
  {
    ReachableInv(s);
    assert ExchangeOk(s, x);
  }

  // ---- what closes a connection, and how an exchange gets on ----

  /** An open connection is closed by a failed write or a cancelled wait of one of its exchanges and by a
      failed read of its loop, with that error, and by nothing else. */
  lemma ClosesExactly(s: State, a: Action, c: nat)
    requires Enabled(s, a) && c < |s.conns| && !s.conns[c].done
    ensures var t := Step(s, a);
            var fails := (a.Write? && a.fails.Some? && s.exchanges[a.x].conn == c) ||
                         (a.Cancel? && s.exchanges[a.x].conn == c) || (a.ReceiveFails? && a.c == c);
            && c < |t.conns| && (t.conns[c].done <==> fails)
            && (fails ==> t.conns[c].closes == s.conns[c].closes + 1
                          && t.conns[c].err == Some(if a.Write? then a.fails.value else a.err))
  {
  }

  /** The next step of an exchange that is not interrupted. */
  function Forward(e: Exchange, x: nat): Action {
    match e.pc
    case Opening => Open(x, None)
    case Registering => Register(x)
    case Sending => Write(x, None)
    case Waiting => TakeReply(x)
    case Removing(_) => Remove(x)
    case Finished(_) => Begin(0)
  }

  /** An exchange gets on: it opens, registers, sends and waits, and once its reply is there it takes it,
      removes its entry and finishes. */
  lemma ExchangeGetsOn(s: State, x: nat)
    requires Reachable(s) && x < |s.exchanges| && !s.exchanges[x].pc.Finished?
    ensures s.exchanges[x].pc == Waiting || Enabled(s, Forward(s.exchanges[x], x))
    ensures s.exchanges[x].pc == Waiting && s.exchanges[x].done ==> Enabled(s, Forward(s.exchanges[x], x))
    ensures s.exchanges[x].pc == Waiting ==> Enabled(s, Cancel(x, 1)) && Enabled(s, SeeTransportClosed(x))
    ensures Enabled(s, Forward(s.exchanges[x], x)) ==>
              var e, f := s.exchanges[x], Step(s, Forward(s.exchanges[x], x)).exchanges[x];
              && (e.pc == Opening ==> f.pc == Registering)
              && (e.pc == Registering ==> f.pc == Sending)
              && (e.pc == Sending ==> f.pc == Waiting)
              && (e.pc == Waiting ==> f.pc.Removing? && f.pc.result.Replied?)
              && (e.pc.Removing? ==> f.pc == Finished(e.pc.result))
  {
    ReachableInv(s);
    assert ExchangeOk(s, x);
  }

  /** What an interrupted exchange reports is the error that interrupted it. */
  lemma InterruptedExactly(s: State, x: nat, err: nat)
    requires Reachable(s) && x < |s.exchanges|
    ensures Enabled(s, PackFails(x, err)) ==> Step(s, PackFails(x, err)).exchanges[x].pc == Removing(Failed(err))
    ensures Enabled(s, Write(x, Some(err))) ==> Step(s, Write(x, Some(err))).exchanges[x].pc == Removing(Failed(err))
    ensures Enabled(s, Cancel(x, err)) ==> Step(s, Cancel(x, err)).exchanges[x].pc == Removing(Failed(err))
    ensures Enabled(s, SeeTransportClosed(x)) ==> Step(s, SeeTransportClosed(x)).exchanges[x].pc == Removing(Failed(0))
    ensures At(s, x, Waiting) && s.conns[s.exchanges[x].conn].done ==>
              && Enabled(s, SeeConnDone(x)) && s.conns[s.exchanges[x].conn].err.Some?
              && Step(s, SeeConnDone(x)).exchanges[x].pc == Removing(Failed(s.conns[s.exchanges[x].conn].err.value))
  {
    ReachableInv(s);
    assert ExchangeOk(s, x);
    if s.exchanges[x].conn < |s.conns| { assert ConnOk(s, s.exchanges[x].conn); }
  }

  /** The window is the exact condition: a registration takes over the entry of an older exchange
      precisely when the distance of their ranks is a multiple of 2^16. */
  lemma CollisionsExactly(s: State, x: nat, y: nat)
    requires Reachable(s) && Enabled(s, Register(x)) && y < |s.exchanges| && y != x && HasEntry(s, y)
    requires s.exchanges[y].conn == s.exchanges[x].conn
    ensures var t := Step(s, Register(x));
            HasEntry(t, y) <==> (t.exchanges[x].serial - t.exchanges[y].serial) % IDS != 0
  {
    ReachableInv(s);
    var t := Step(s, Register(x));
    StepKeepsInv(s, Register(x));
    assert ConnOk(s, s.exchanges[y].conn);
    assert ExchangeOk(t, x) && ExchangeOk(t, y);
    SameIdExactly(t.exchanges[y].serial, t.exchanges[x].serial);
  }

  lemma SameIdExactly(m: nat, n: nat)
    ensures m % IDS == n % IDS <==> (n - m) % IDS == 0
  {
  }

  // ---- the objects whose critical sections the transitions are ----

  class DnsConnection {
    var done: bool
    var err: Option<nat>
    var closes: nat
    var queryId: nat
    var callbacks: map<nat, nat>
    ghost var registered: nat

    ghost function Abs(loop: Loop): Conn
      reads this
    {
      Conn(done, err, closes, queryId, registered, callbacks, loop)
    }

    constructor ()
      ensures Abs(Reading) == NEW_CONN
    {
      done, err, closes := false, None, 0;
      queryId, callbacks, registered := 0, map[], 0;
    }

    /** Takes the next id and registers the callback of exchange `x` under it. */
    method Register(x: nat) returns (id: nat)
      modifies this
      ensures forall loop :: Abs(loop) == Enter(old(Abs(loop)), x)
      ensures id == queryId < IDS && id in callbacks && callbacks[id] == x
      ensures forall k <- old(callbacks) :: k != id ==> k in callbacks && callbacks[k] == old(callbacks[k])
    {
      queryId := (queryId + 1) % IDS;
      registered := registered + 1;
      id := queryId;
      callbacks := callbacks[id := x];
    }

    method Remove(id: nat)
      modifies this
      ensures forall loop :: Abs(loop) == Leave(old(Abs(loop)), id)
      ensures id !in callbacks
    {
      callbacks := map k | k in callbacks && k != id :: callbacks[k];
    }

    /** Only the first call has an effect. */
    method Close(e: nat)
      modifies this
      ensures forall loop :: Abs(loop) == Shut(old(Abs(loop)), e)
      ensures done && (old(done) ==> err == old(err) && closes == old(closes))
    {
      if !done {
        err := Some(e);
        done := true;
        closes := closes + 1;
      }
    }
  }

  class DnsCallback {
    var message: Option<Msg>
    var done: bool

    ghost predicate Valid()
      reads this
    {
      done == message.Some?
    }

    constructor ()
      ensures Valid() && !done
    {
      message, done := None, false;
    }

    /** The first message stays; later ones with the same id are dropped. */
    method Complete(m: Msg)
      requires Valid()
      modifies this
      ensures Valid() && done
      ensures message == (if old(done) then old(message) else Some(m))
    {
      if !done {
        message := Some(m);
        done := true;
      }
    }
  }
}
