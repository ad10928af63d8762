/**
 The resettable deadline of the in-memory pipe.

 A deadline owns a channel that is closed when the deadline passes. `Set` replaces the deadline
 under a mutex, while timer callbacks run on goroutines of their own and take no mutex. The
 module gives every step of these parties as a transition, proves what all interleavings keep,
 and ties the fields of the object to the transitions.
 */
module Deadline {
  import opened Prelude

  /** How the argument of `Set` compares with the clock: zero, in the future, or not. */
  datatype When = Never | Future | Past

  datatype Status = Active | Stopped | Expired

  /** A runtime timer. `ran` says that its callback has finished; `armedFor` records (as history)
      which channel was current when it was armed. */
  datatype Timer = Timer(status: Status, ran: bool, armedFor: nat)

  /** Where the holder of the mutex is inside `Set`. */
  datatype Setter = Idle | Waiting(when: When) | Stopping(when: When)

  /** `closes[c]` counts how often channel `c` was closed: Go panics at the second time.
      `handed` are the channels `Wait` has returned, `last` the latest completed `Set`. */
  datatype State = State(
    timers: seq<Timer>,
    timer: Option<nat>,
    cancel: nat,
    closes: seq<nat>,
    setter: Setter,
    handed: set<nat>,
    last: When)

  datatype Action =
    | SetEnter(when: When)  // lock, then stop the timer
    | SetWake               // the receive from the cancel channel returns
    | SetFinish             // the rest of Set, then unlock
    | Fire(i: nat)          // the runtime starts the callback of timer i
    | Callback(i: nat)      // that callback closes the channel it finds in the field
    | Wait

  const INITIAL := State([], None, 0, [0], Idle, {}, Never)

  predicate Closed(s: State, c: nat) {
    c < |s.closes| && s.closes[c] > 0
  }

  predicate Pending(s: State, i: nat) {
    i < |s.timers| && s.timers[i].status == Expired && !s.timers[i].ran
  }

  predicate Enabled(s: State, a: Action) {
    match a
    case SetEnter(_) => s.setter == Idle && (s.timer.Some? ==> s.timer.value < |s.timers|)
    case SetWake => s.setter.Waiting? && Closed(s, s.cancel)
    case SetFinish => s.setter.Stopping?
    case Fire(i) => i < |s.timers| && s.timers[i].status == Active
    case Callback(i) => Pending(s, i) && s.cancel < |s.closes|
    case Wait => s.setter == Idle
  }

  /** A fresh channel if the current one is closed. */
  function Refresh(s: State): State {
    if Closed(s, s.cancel) then s.(cancel := |s.closes|, closes := s.closes + [0]) else s
  }

  function Close(s: State, c: nat): State
    requires c < |s.closes|
  {
    s.(closes := s.closes[c := s.closes[c] + 1])
  }

  function Arm(s: State): State {
    s.(timer := Some(|s.timers|), timers := s.timers + [Timer(Active, false, s.cancel)])
  }

  function Step(s: State, a: Action): State
    requires Enabled(s, a)
  {
    match a
    case SetEnter(w) =>
      if s.timer.None? then s.(setter := Stopping(w))
      else if s.timers[s.timer.value].status == Active then
        s.(setter := Stopping(w), timers := s.timers[s.timer.value := s.timers[s.timer.value].(status := Stopped)])
      else s.(setter := Waiting(w))
    case SetWake => s.(setter := Stopping(s.setter.when))
    case SetFinish =>
      var w := s.setter.when;
      var t := s.(timer := None, setter := Idle, last := w);
      (match w
       case Never => Refresh(t)
       case Future => Arm(Refresh(t))
       case Past => if Closed(t, t.cancel) || t.cancel >= |t.closes| then t else Close(t, t.cancel))
    case Fire(i) => s.(timers := s.timers[i := s.timers[i].(status := Expired)])
    case Callback(i) => Close(s, s.cancel).(timers := s.timers[i := s.timers[i].(ran := true)])
    case Wait => s.(handed := s.handed + {s.cancel})
  }

  /** Every action of the run is enabled when its turn comes. */
  predicate Runs(s: State, run: seq<Action>)
    decreases |run|
  {
    run == [] || (Enabled(s, run[0]) && Runs(Step(s, run[0]), run[1..]))
  }

  function Exec(s: State, run: seq<Action>): State
    requires Runs(s, run)
    decreases |run|
  {
    if run == [] then s else Exec(Step(s, run[0]), run[1..])
  }

  /** What every interleaving keeps. */
  ghost predicate Inv(s: State) {
    && s.cancel < |s.closes|
    // no channel is closed twice
    && (forall c | 0 <= c < |s.closes| :: s.closes[c] <= 1)
    // a channel that was handed out is current or closed
    && (forall c <- s.handed :: c == s.cancel || Closed(s, c))
    // only the timer in the field can still act
    && (s.timer.Some? ==> s.timer.value < |s.timers|)
    && (forall i | 0 <= i < |s.timers| && s.timer != Some(i) :: s.timers[i].status != Active && !Pending(s, i))
    && (forall i | 0 <= i < |s.timers| && s.timers[i].ran :: s.timers[i].status == Expired)
    // while a timer is in the field, its callback alone decides whether the channel is closed
    && (s.timer.Some? ==>
          && s.timers[s.timer.value].armedFor == s.cancel
          && s.last == Future
          && (Closed(s, s.cancel) <==> s.timers[s.timer.value].ran)
          && (s.setter == Idle ==> s.timers[s.timer.value].status != Stopped)
          && (s.setter.Waiting? ==> s.timers[s.timer.value].status == Expired)
          && (s.setter.Stopping? ==> s.timers[s.timer.value].status != Active && !Pending(s, s.timer.value)))
    && (s.timer.None? ==> !s.setter.Waiting? && s.last != Future && (Closed(s, s.cancel) <==> s.last == Past))
  }

  lemma InitialInv()
    ensures Inv(INITIAL)
  {
  }

  lemma SetStepKeepsInv(s: State, a: Action)
    requires Inv(s) && Enabled(s, a) && (a.SetEnter? || a.SetWake? || a.Wait?)
    ensures Inv(Step(s, a))
  {
  }

  lemma FinishKeepsInv(s: State)
    requires Inv(s) && Enabled(s, SetFinish)
    ensures Inv(Step(s, SetFinish))
  {
  }

  lemma FireKeepsInv(s: State, i: nat)
    requires Inv(s) && Enabled(s, Fire(i))
    ensures Inv(Step(s, Fire(i)))
  {
    assert s.timer == Some(i);
  }

  lemma CallbackKeepsInv(s: State, i: nat)
    requires Inv(s) && Enabled(s, Callback(i))
    ensures Inv(Step(s, Callback(i)))
  {
    assert s.timer == Some(i);
  }

  lemma StepKeepsInv(s: State, a: Action)
    requires Inv(s) && Enabled(s, a)
    ensures Inv(Step(s, a))
  {
    match a {
      case SetFinish => FinishKeepsInv(s);
      case Fire(i) => FireKeepsInv(s, i);
      case Callback(i) => CallbackKeepsInv(s, i);
      case _ => SetStepKeepsInv(s, a);
    }
  }

  lemma {:induction false} RunKeepsInv(s: State, run: seq<Action>)
    requires Inv(s) && Runs(s, run)
    ensures Inv(Exec(s, run))
    decreases |run|
  {
    if run != [] {
      StepKeepsInv(s, run[0]);
      RunKeepsInv(Step(s, run[0]), run[1..]);
    }
  }

  /** In every run from a new deadline: no channel is closed twice, every channel handed out is
      the current one or closed, and a callback finds in the field the channel it was armed for. */
  lemma {:induction false} NoDoubleClose(run: seq<Action>)
    requires Runs(INITIAL, run)
    ensures var s := Exec(INITIAL, run);
            && (forall c | 0 <= c < |s.closes| :: s.closes[c] <= 1)
            && (forall c <- s.handed :: c == s.cancel || Closed(s, c))
            && (forall i | 0 <= i < |s.timers| && Enabled(s, Callback(i)) ::
                  s.timers[i].armedFor == s.cancel && !Closed(s, s.cancel))
  {
    RunKeepsInv(INITIAL, run);
  }

  /** A `Set` that waits is never stranded: its channel is closed already, or the callback that
      will close that very channel has been started. */
  lemma {:induction false} WaitingSetIsReleased(run: seq<Action>)
    requires Runs(INITIAL, run)
    ensures var s := Exec(INITIAL, run);
            s.setter.Waiting? ==>
              || Enabled(s, SetWake)
              || (s.timer.Some? && Enabled(s, Callback(s.timer.value))
                  && Enabled(Step(s, Callback(s.timer.value)), SetWake))
  {
    RunKeepsInv(INITIAL, run);
  }

  /** The meaning of the channel, for a caller that holds no lock: when no `Set` is under way, the
      current channel is closed exactly if the latest deadline lay in the past, or lay in the
      future and its own callback has run; callbacks of earlier deadlines cannot run any more. */
  lemma {:induction false} ChannelMeansLatestDeadline(run: seq<Action>)
    requires Runs(INITIAL, run)
    ensures var s := Exec(INITIAL, run);
            s.setter == Idle ==>
              && (s.last == Future <==> s.timer.Some?)
              && (s.timer.Some? ==> s.timer.value < |s.timers|)
              && (Closed(s, s.cancel) <==> s.last == Past || (s.last == Future && s.timers[s.timer.value].ran))
              && (forall i | 0 <= i < |s.timers| && s.timer != Some(i) ::
                    !Enabled(s, Fire(i)) && !Enabled(s, Callback(i)))
  {
    RunKeepsInv(INITIAL, run);
  }

  /** What the runtime and the callback do when a deadline in the future passes. */
  function Passing(s: State): seq<Action> {
    if s.timer.None? || s.timer.value >= |s.timers| then []
    else if s.timers[s.timer.value].status == Active then [Fire(s.timer.value)] + [Callback(s.timer.value)]
    else [Callback(s.timer.value)]
  }

  /** A deadline in the future can pass, at any time that no `Set` is under way: then the channel of that time
      is closed, and still current. */
  lemma {:induction false} FutureDeadlineCanPass(run: seq<Action>)
    requires Runs(INITIAL, run)
    ensures var s := Exec(INITIAL, run);
            s.setter == Idle && s.last == Future && !Closed(s, s.cancel) ==>
              && Runs(s, Passing(s)) && Closed(Exec(s, Passing(s)), s.cancel) && Exec(s, Passing(s)).cancel == s.cancel
  {
    var s := Exec(INITIAL, run);
    InitialInv();
    RunKeepsInv(INITIAL, run);
    if s.setter == Idle && s.last == Future && !Closed(s, s.cancel) {
      var i := s.timer.value;
      if s.timers[i].status == Active {
        ExecOne(Step(s, Fire(i)), Callback(i));
        ExecCons(s, Fire(i), [Callback(i)]);
      } else {
        ExecOne(s, Callback(i));
      }
    }
  }

  /** The actions of one call of `Set` that meets no interference but the callback it waits for. */
  function SetRun(s: State, w: When): seq<Action> {
    if s.timer.Some? && s.timer.value < |s.timers| && s.timers[s.timer.value].status != Active then
      var wake := [SetWake] + [SetFinish];
      [SetEnter(w)] + (if Closed(s, s.cancel) then wake else [Callback(s.timer.value)] + wake)
    else [SetEnter(w)] + [SetFinish]
  }

  /** The previous timer can no longer act: it was stopped, or its callback has closed the channel. */
  ghost function Quiet(s: State): State
    requires Inv(s) && s.setter == Idle
  {
    if s.timer.None? then s
    else if s.timers[s.timer.value].status == Active then
      s.(timers := s.timers[s.timer.value := s.timers[s.timer.value].(status := Stopped)])
    else if Closed(s, s.cancel) then s
    else Step(s, Callback(s.timer.value))
  }

  /** The state a `Set` leaves behind, without the run in between. */
  ghost function AfterSet(s: State, w: When): State
    requires Inv(s) && s.setter == Idle
  {
    Step(Quiet(s).(setter := Stopping(w)), SetFinish)
  }

  lemma ExecCons(s: State, a: Action, rest: seq<Action>)
    requires Enabled(s, a) && Runs(Step(s, a), rest)
    ensures Runs(s, [a] + rest) && Exec(s, [a] + rest) == Exec(Step(s, a), rest)
  {
    assert ([a] + rest)[1..] == rest;
  }

  lemma ExecOne(s: State, a: Action)
    requires Enabled(s, a)
    ensures Runs(s, [a]) && Exec(s, [a]) == Step(s, a)
  {
    ExecCons(s, a, []);
  }

  lemma WakeRun(s: State)
    requires Enabled(s, SetWake)
    ensures var run := [SetWake] + [SetFinish];
            Runs(s, run) && Exec(s, run) == Step(s.(setter := Stopping(s.setter.when)), SetFinish)
  {
    ExecOne(Step(s, SetWake), SetFinish);
    ExecCons(s, SetWake, [SetFinish]);
  }

  lemma ClosedSetRun(s: State, w: When)
    requires Inv(s) && s.setter == Idle && s.timer.Some? && s.timers[s.timer.value].status != Active
    requires Closed(s, s.cancel)
    ensures var run := [SetEnter(w)] + ([SetWake] + [SetFinish]);
            Runs(s, run) && Exec(s, run) == AfterSet(s, w)
  {
    WakeRun(Step(s, SetEnter(w)));
    ExecCons(s, SetEnter(w), [SetWake] + [SetFinish]);
  }

  /** The callback that a waiting `Set` waits for closes the channel and lets it go on. */
  lemma CallbackWakes(s: State, w: When)
    requires Inv(s) && s.setter == Idle && s.timer.Some? && s.timers[s.timer.value].status != Active
    requires !Closed(s, s.cancel)
    ensures var a := Callback(s.timer.value);
            && Enabled(s, SetEnter(w)) && Step(s, SetEnter(w)) == s.(setter := Waiting(w))
            && Enabled(Step(s, SetEnter(w)), a)
            && var t := Step(Step(s, SetEnter(w)), a);
               && Enabled(t, SetWake) && t.setter == Waiting(w)
               && t.(setter := Stopping(w)) == Quiet(s).(setter := Stopping(w))
  {
    assert Pending(s, s.timer.value);
  }

  lemma CallbackSetRun(s: State, w: When)
    requires Inv(s) && s.setter == Idle && s.timer.Some? && s.timers[s.timer.value].status != Active
    requires !Closed(s, s.cancel)
    ensures var run := [SetEnter(w)] + ([Callback(s.timer.value)] + ([SetWake] + [SetFinish]));
            Runs(s, run) && Exec(s, run) == AfterSet(s, w)
  {
    var s1, a := s.(setter := Waiting(w)), Callback(s.timer.value);
    CallbackWakes(s, w);
    WakeRun(Step(s1, a));
    ExecCons(s1, a, [SetWake] + [SetFinish]);
    ExecCons(s, SetEnter(w), [a] + ([SetWake] + [SetFinish]));
  }

  lemma WaitingSetRun(s: State, w: When)
    requires Inv(s) && s.setter == Idle && s.timer.Some? && s.timers[s.timer.value].status != Active
    ensures Runs(s, SetRun(s, w)) && Exec(s, SetRun(s, w)) == AfterSet(s, w)
  {
    if Closed(s, s.cancel) { ClosedSetRun(s, w); } else { CallbackSetRun(s, w); }
  }

  /** `AfterSet` is what the machine computes. */
  lemma SetIsARun(s: State, w: When)
    requires Inv(s) && s.setter == Idle
    ensures Runs(s, SetRun(s, w)) && Exec(s, SetRun(s, w)) == AfterSet(s, w)
  {
    if s.timer.Some? && s.timers[s.timer.value].status != Active {
      WaitingSetRun(s, w);
    } else {
      ExecOne(Step(s, SetEnter(w)), SetFinish);
      ExecCons(s, SetEnter(w), [SetFinish]);
    }
  }

  /** `Set` keeps its promise: afterwards the channel is closed exactly if the new deadline lies in
      the past, and a channel that the previous deadline closed, or was about to close, has been
      replaced by an open one. */
  lemma SetRefreshes(s: State, w: When)
    requires Inv(s) && s.setter == Idle
    ensures var t := AfterSet(s, w);
            var due := Closed(s, s.cancel) || (s.timer.Some? && Pending(s, s.timer.value));
            && Inv(t) && t.setter == Idle && t.last == w
            && (Closed(t, t.cancel) <==> w == Past)
            && t.cancel == (if due && w != Past then |s.closes| else s.cancel)
  {
    SetIsARun(s, w);
    RunKeepsInv(s, SetRun(s, w));
  }

  /** The object: the two fields of the source, over the runtime's timers and channels. */
  class Timeout {
    var timer: Option<nat>
    var cancel: nat
    var timers: seq<Timer>
    var closes: seq<nat>
    ghost var handed: set<nat>
    ghost var last: When

    ghost function Abs(): State
      reads this
    {
      State(timers, timer, cancel, closes, Idle, handed, last)
    }

    ghost predicate Valid()
      reads this
    {
      Inv(Abs())
    }

    constructor ()
      ensures Valid() && Abs() == INITIAL
    {
      timer, cancel, timers, closes := None, 0, [], [0];
      handed, last := {}, Never;
    }

    method Set(w: When)
      requires Valid()
      modifies this
      ensures Valid()
      ensures Abs() == old(AfterSet(Abs(), w))
      ensures closes[cancel] == (if w == Past then 1 else 0)
    {
      SetRefreshes(Abs(), w);
      QuietTimer();
      Install(w);
    }

    /** The first part of `Set`: stop the timer, or wait for its callback. */
    method QuietTimer()
      requires Valid()
      modifies this`timers, this`closes
      ensures Abs() == old(Quiet(Abs()))
    {
      if timer.Some? {
        if timers[timer.value].status == Active {
          timers := timers[timer.value := timers[timer.value].(status := Stopped)];
        } else if closes[cancel] == 0 {
          // the receive blocks until the callback that was started has closed the channel
          timers := timers[timer.value := timers[timer.value].(ran := true)];
          closes := closes[cancel := closes[cancel] + 1];
        }
      }
    }

    /** The second part of `Set`. */
    method Install(w: When)
      requires cancel < |closes|
      modifies this
      ensures Abs() == old(Step(Abs().(setter := Stopping(w)), SetFinish))
    {
      timer := None;
      last := w;
      var closed := closes[cancel] > 0;
      match w {
        case Never =>
          if closed { cancel := |closes|; closes := closes + [0]; }
        case Future =>
          if closed { cancel := |closes|; closes := closes + [0]; }
          timer, timers := Some(|timers|), timers + [Timer(Active, false, cancel)];
        case Past =>
          if !closed { closes := closes[cancel := closes[cancel] + 1]; }
      }
    }

    method Wait() returns (c: nat)
      requires Valid()
      modifies this
      ensures Valid() && Abs() == old(Step(Abs(), Action.Wait)) && c == cancel
    {
      handed := handed + {cancel};
      c := cancel;
    }
  }
}
