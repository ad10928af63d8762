/**
 The synchronous in-memory pipe.

 Two ends are wired crosswise by two byte channels, two count channels and two done channels, all
 unbuffered. Any number of goroutines read, write, close and set deadlines on both ends. Every
 channel operation, check and lock acquisition is a transition of its own, so a run is an
 arbitrary interleaving.
 */
module Pipe {
  import opened Prelude
  import D = Deadline

  newtype byte = x: int | 0 <= x < 256

  /** A timeout names, as history, the deadline channel that the call found closed. */
  datatype Err = Nil | ClosedPipe | EOF | DeadlineExceeded(ch: nat)

  /** Program counters of `read` and `write`; `Lock` occurs in `write` only. */
  datatype Pc =
    | CheckLocal | CheckRemote | WaitDeadline | CheckDeadline(ch: nat) // the checks on entry
    | Lock                                                           // about to take wrMu
    | Enter | Select(ch: nat)                                        // evaluating, then inside, select
    | Handshake                                                      // the count is outstanding
    | Done(err: Err)

  /** A call of `read` with a buffer of length `room`; `got` is what it has copied. */
  datatype Reader = Reader(end: nat, room: nat, pc: Pc, got: seq<byte>, n: nat)

  /** A call of `write`; `rest` and `n` are the source's `b` and `n`. The history variable `taken`
      counts the bytes that readers have copied from it, whether or not it knows. */
  datatype Writer = Writer(end: nat, data: seq<byte>, rest: seq<byte>, n: nat, taken: nat, pc: Pc)

  /** The mutable part of one end. `order` and `received` are histories: the writes in the order in
      which they took the lock, and the reads in the order in which they received bytes. */
  datatype End = End(lock: Option<nat>, order: seq<nat>, received: seq<nat>, rd: D.State, wr: D.State)

  datatype State = State(readers: seq<Reader>, writers: seq<Writer>, ends: seq<End>, done: set<nat>)

  datatype Wiring = Wiring(rdRx: nat, rdTx: nat, wrTx: nat, wrRx: nat, localDone: nat, remoteDone: nat)

  /** The channels of the two ends as the constructor hands them out. */
  function Wire(e: nat): Wiring {
    var cb1, cb2, cn1, cn2, done1, done2 := 0, 1, 0, 1, 0, 1;
    if e == 0 then Wiring(cb1, cn1, cb2, cn2, done1, done2)
    else Wiring(cb2, cn2, cb1, cn1, done2, done1)
  }

  function Peer(e: nat): nat {
    if e == 0 then 1 else 0
  }

  const NEW_END := End(None, [], [], D.INITIAL, D.INITIAL)
  const INITIAL := State([], [], [NEW_END, NEW_END], {})

  datatype Cause = Local | Remote | Expired

  datatype Action =
    | Read(e: nat, room: nat)
    | Write(e: nat, data: seq<byte>)
    | Close(e: nat)
    | SetReadDeadline(e: nat, a: D.Action)
    | SetWriteDeadline(e: nat, a: D.Action)
    | ReadStep(r: nat)
    | WriteStep(w: nat)
    | ReadExit(r: nat, cause: Cause)
    | WriteExit(w: nat, cause: Cause)
    | Transfer(w: nat, r: nat)  // wrTx <- b meets <-rdRx
    | Count(w: nat, r: nat)     // rdTx <- nr meets <-wrRx

  predicate LocalClosed(s: State, e: nat) {
    Wire(e).localDone in s.done
  }

  predicate RemoteClosed(s: State, e: nat) {
    Wire(e).remoteDone in s.done
  }

  /** Whether a goroutine at `pc` can move on without a partner. */
  predicate Moves(pc: Pc, d: D.State, lock: Option<nat>) {
    match pc
    case CheckLocal => true
    case CheckRemote => true
    case WaitDeadline => D.Enabled(d, D.Wait)
    case CheckDeadline(_) => true
    case Lock => lock.None?
    case Enter => D.Enabled(d, D.Wait)
    case _ => false
  }

  function Next(s: State, pc: Pc, e: nat, d: D.State, remote: Err, checked: Pc): Pc {
    match pc
    case CheckLocal => if LocalClosed(s, e) then Done(ClosedPipe) else CheckRemote
    case CheckRemote => if RemoteClosed(s, e) then Done(remote) else WaitDeadline
    case WaitDeadline => CheckDeadline(d.cancel)
    case CheckDeadline(ch) => if D.Closed(d, ch) then Done(DeadlineExceeded(ch)) else checked
    case Lock => Enter
    case Enter => Select(d.cancel)
    case other => other
  }

  function NextDeadline(pc: Pc, d: D.State): D.State
  {
    if (pc.WaitDeadline? || pc.Enter?) && D.Enabled(d, D.Wait) then D.Step(d, D.Wait) else d
  }

  predicate CauseHolds(s: State, e: nat, d: D.State, pc: Pc, cause: Cause) {
    pc.Select? &&
    match cause
    case Local => LocalClosed(s, e)
    case Remote => RemoteClosed(s, e)
    case Expired => D.Closed(d, pc.ch)
  }

  predicate Enabled(s: State, a: Action)
    requires |s.ends| == 2
  {
    match a
    case Read(e, _) => e < 2
    case Write(e, _) => e < 2
    case Close(e) => e < 2
    case SetReadDeadline(e, d) => e < 2 && !d.Wait? && D.Enabled(s.ends[e].rd, d)
    case SetWriteDeadline(e, d) => e < 2 && !d.Wait? && D.Enabled(s.ends[e].wr, d)
    case ReadStep(r) =>
      r < |s.readers| && s.readers[r].end < 2 && !s.readers[r].pc.Lock? &&
      Moves(s.readers[r].pc, s.ends[s.readers[r].end].rd, None)
    case WriteStep(w) =>
      w < |s.writers| && s.writers[w].end < 2 &&
      Moves(s.writers[w].pc, s.ends[s.writers[w].end].wr, s.ends[s.writers[w].end].lock)
    case ReadExit(r, c) =>
      r < |s.readers| && s.readers[r].end < 2 &&
      CauseHolds(s, s.readers[r].end, s.ends[s.readers[r].end].rd, s.readers[r].pc, c)
    case WriteExit(w, c) =>
      w < |s.writers| && s.writers[w].end < 2 &&
      CauseHolds(s, s.writers[w].end, s.ends[s.writers[w].end].wr, s.writers[w].pc, c)
    case Transfer(w, r) =>
      w < |s.writers| && r < |s.readers| && s.writers[w].pc.Select? && s.readers[r].pc.Select? &&
      s.writers[w].end < 2 && s.readers[r].end < 2 &&
      Wire(s.writers[w].end).wrTx == Wire(s.readers[r].end).rdRx
    case Count(w, r) =>
      w < |s.writers| && r < |s.readers| && s.writers[w].pc.Handshake? && s.readers[r].pc.Handshake? &&
      s.writers[w].end < 2 && s.readers[r].end < 2 &&
      Wire(s.readers[r].end).rdTx == Wire(s.writers[w].end).wrRx &&
      s.readers[r].n <= |s.writers[w].rest| // b[nw:] panics otherwise
  }

  function SetEnd(s: State, e: nat, x: End): State
    requires e < |s.ends|
  {
    s.(ends := s.ends[e := x])
  }

  function SetReader(s: State, r: nat, x: Reader): State
    requires r < |s.readers|
  {
    s.(readers := s.readers[r := x])
  }

  function SetWriter(s: State, w: nat, x: Writer): State
    requires w < |s.writers|
  {
    s.(writers := s.writers[w := x])
  }

  /** The deferred unlock of a `write` that returns. */
  function Unlock(s: State, e: nat): State
    requires e < |s.ends|
  {
    SetEnd(s, e, s.ends[e].(lock := None))
  }

  function ReadMove(s: State, r: nat): State
    requires |s.ends| == 2 && Enabled(s, ReadStep(r))
  {
    var x := s.readers[r];
    var end := s.ends[x.end];
    SetEnd(SetReader(s, r, x.(pc := Next(s, x.pc, x.end, end.rd, EOF, Enter))),
           x.end, end.(rd := NextDeadline(x.pc, end.rd)))
  }

  function WriteMove(s: State, w: nat): State
    requires |s.ends| == 2 && Enabled(s, WriteStep(w))
  {
    var x := s.writers[w];
    var end := s.ends[x.end];
    var locked := if x.pc.Lock? then end.(lock := Some(w), order := end.order + [w]) else end;
    SetEnd(SetWriter(s, w, x.(pc := Next(s, x.pc, x.end, end.wr, ClosedPipe, Lock))),
           x.end, locked.(wr := NextDeadline(x.pc, end.wr)))
  }

  function Min(a: nat, b: nat): nat {
    if a < b then a else b
  }

  /** The reader copies as much as fits, then owes the writer the count. */
  function DoTransfer(s: State, w: nat, r: nat): State
    requires |s.ends| == 2 && Enabled(s, Transfer(w, r))
  {
    var x, y := s.readers[r], s.writers[w];
    var nr := Min(x.room, |y.rest|);
    var s1 := SetReader(s, r, x.(pc := Handshake, got := y.rest[..nr], n := nr));
    var s2 := SetWriter(s1, w, y.(pc := Handshake, taken := y.taken + nr));
    SetEnd(s2, x.end, s2.ends[x.end].(received := s2.ends[x.end].received + [r]))
  }

  function DoCount(s: State, w: nat, r: nat): State
    requires |s.ends| == 2 && Enabled(s, Count(w, r))
  {
    var x, y := s.readers[r], s.writers[w];
    var rest := y.rest[x.n..];
    var s1 := SetReader(s, r, x.(pc := Done(Nil)));
    var s2 := SetWriter(s1, w, y.(rest := rest, n := y.n + x.n, pc := if |rest| > 0 then Enter else Done(Nil)));
    if |rest| > 0 then s2 else Unlock(s2, y.end)
  }

  function Step(s: State, a: Action): State
    requires |s.ends| == 2 && Enabled(s, a)
  {
    match a
    case Read(e, room) => s.(readers := s.readers + [Reader(e, room, CheckLocal, [], 0)])
    case Write(e, data) => s.(writers := s.writers + [Writer(e, data, data, 0, 0, CheckLocal)])
    case Close(e) => s.(done := s.done + {Wire(e).localDone})
    case SetReadDeadline(e, d) => SetEnd(s, e, s.ends[e].(rd := D.Step(s.ends[e].rd, d)))
    case SetWriteDeadline(e, d) => SetEnd(s, e, s.ends[e].(wr := D.Step(s.ends[e].wr, d)))
    case ReadStep(r) => ReadMove(s, r)
    case WriteStep(w) => WriteMove(s, w)
    case ReadExit(r, cause) =>
      var err := if cause == Local then ClosedPipe else if cause == Remote then EOF
                 else DeadlineExceeded(s.readers[r].pc.ch);
      SetReader(s, r, s.readers[r].(pc := Done(err)))
    case WriteExit(w, cause) =>
      var err := if cause == Expired then DeadlineExceeded(s.writers[w].pc.ch) else ClosedPipe;
      Unlock(SetWriter(s, w, s.writers[w].(pc := Done(err))), s.writers[w].end)
    case Transfer(w, r) => DoTransfer(s, w, r)
    case Count(w, r) => DoCount(s, w, r)
  }

  predicate Runs(s: State, run: seq<Action>)
    requires |s.ends| == 2
    decreases |run|
  {
    run == [] || (Enabled(s, run[0]) && Runs(Step(s, run[0]), run[1..]))
  }

  function Exec(s: State, run: seq<Action>): (t: State)
    requires |s.ends| == 2 && Runs(s, run)
    ensures |t.ends| == 2
    decreases |run|
  {
    if run == [] then s else Exec(Step(s, run[0]), run[1..])
  }
}
