/**
 First packets that race: looking a session up and entering a new one are two steps of a call, between
 which other calls may run. Whether the table calls its eviction callback for an entry that is replaced is
 a parameter of the state.
 */
module NatRace {
  /** A session; only its source and whether it has been closed matter here. */
  datatype Session = Session(source: nat, closed: bool)

  datatype Pc = Looking | Adding | Refused | Got(session: nat)

  datatype Call = Call(source: nat, pc: Pc)

  datatype State = State(table: map<nat, nat>, sessions: seq<Session>, calls: seq<Call>, closesReplaced: bool)

  datatype Action =
    | Arrive(source: nat)
    | Look(p: nat, prepared: bool)  // GetAndRefresh, and prepare if there is no usable session
    | Add(p: nat)
    | Close(c: nat)                 // somebody closes a session
    | Evict(k: nat)                 // the table drops an entry and closes its session

  function Start(closesReplaced: bool): State {
    State(map[], [], [], closesReplaced)
  }

  predicate Usable(s: State, source: nat) {
    source in s.table && s.table[source] < |s.sessions| && !s.sessions[s.table[source]].closed
  }

  predicate Enabled(s: State, a: Action) {
    match a
    case Arrive(_) => true
    case Look(p, _) => p < |s.calls| && s.calls[p].pc == Looking
    case Add(p) => p < |s.calls| && s.calls[p].pc == Adding
    case Close(c) => c < |s.sessions|
    case Evict(k) => k in s.table && s.table[k] < |s.sessions|
  }

  function SetPc(s: State, p: nat, pc: Pc): State
    requires p < |s.calls|
  {
    s.(calls := s.calls[p := s.calls[p].(pc := pc)])
  }

  function Shut(sessions: seq<Session>, c: nat): seq<Session>
    requires c < |sessions|
  {
    sessions[c := sessions[c].(closed := true)]
  }

  function DoAdd(s: State, p: nat): State
    requires Enabled(s, Add(p))
  {
    var source, c := s.calls[p].source, |s.sessions|;
    var before := if s.closesReplaced && Usable(s, source) then Shut(s.sessions, s.table[source]) else s.sessions;
    SetPc(s, p, Got(c)).(sessions := before + [Session(source, false)], table := s.table[source := c])
  }

  function Step(s: State, a: Action): State
    requires Enabled(s, a)
  {
    match a
    case Arrive(source) => s.(calls := s.calls + [Call(source, Looking)])
    case Look(p, prepared) =>
      if Usable(s, s.calls[p].source) then SetPc(s, p, Got(s.table[s.calls[p].source]))
      else SetPc(s, p, if prepared then Adding else Refused)
    case Add(p) => DoAdd(s, p)
    case Close(c) => s.(sessions := Shut(s.sessions, c))
    case Evict(k) => s.(sessions := Shut(s.sessions, s.table[k]), table := s.table - {k})
  }

  predicate Runs(s: State, run: seq<Action>)
    decreases |run|
  {
    run == [] || (Enabled(s, run[0]) && Runs(Step(s, run[0]), run[1..]))
  }

  function Exec(s: State, run: seq<Action>): State
    requires Runs(s, run)
    decreases |run|
  {
    if run == [] then s else Exec(Step(s, run[0]), run[1..])
  }

  // ---- sessions left behind ----

  ghost predicate Inv(s: State) {
    forall k <- s.table :: s.table[k] < |s.sessions| && s.sessions[s.table[k]].source == k
  }

  predicate InTable(s: State, c: nat) {
    c < |s.sessions| && s.sessions[c].source in s.table && s.table[s.sessions[c].source] == c
  }

  /** Every session outside the table has been closed. */
  ghost predicate Clean(s: State) {
    forall c | 0 <= c < |s.sessions| :: s.sessions[c].closed || InTable(s, c)
  }

  /** An insertion finds an open session under its source and does not close it. */
  predicate Abandons(s: State, a: Action)
    requires Enabled(s, a)
  {
    a.Add? && !s.closesReplaced && Usable(s, s.calls[a.p].source)
  }

  lemma StepKeepsInv(s: State, a: Action)
    requires Inv(s) && Enabled(s, a)
    ensures Inv(Step(s, a))
  {
  }

  /** Exactly the insertions that abandon a session leave one open outside the table. */
  lemma StepStaysClean(s: State, a: Action)
    requires Inv(s) && Clean(s) && Enabled(s, a)
    ensures Clean(Step(s, a)) <==> !Abandons(s, a)
  {
    var t := Step(s, a);
    if Abandons(s, a) {
      var c := s.table[s.calls[a.p].source];
      assert t.sessions[c] == s.sessions[c] && !InTable(t, c);
    } else {
      forall c | 0 <= c < |t.sessions| ensures t.sessions[c].closed || InTable(t, c) {
        if c < |s.sessions| { assert s.sessions[c].closed || InTable(s, c); }
      }
    }
  }

  ghost predicate StaysClean(s: State, run: seq<Action>)
    requires Runs(s, run)
    decreases |run|
  {
    Clean(s) && (run != [] ==> StaysClean(Step(s, run[0]), run[1..]))
  }

  predicate NeverAbandons(s: State, run: seq<Action>)
    requires Runs(s, run)
    decreases |run|
  {
    run == [] || (!Abandons(s, run[0]) && NeverAbandons(Step(s, run[0]), run[1..]))
  }

  lemma {:induction false} CleanFollowsAdds(s: State, run: seq<Action>)
    requires Inv(s) && Clean(s) && Runs(s, run)
    ensures StaysClean(s, run) <==> NeverAbandons(s, run)
    decreases |run|
  {
    if run != [] {
      StepKeepsInv(s, run[0]);
      StepStaysClean(s, run[0]);
      if !Abandons(s, run[0]) { CleanFollowsAdds(Step(s, run[0]), run[1..]); }
    }
  }

  /** For every interleaving of calls: throughout the run all sessions outside the table are closed if and
      only if no insertion finds an open session that it replaces without closing it. */
  lemma CleanExactly(run: seq<Action>, closesReplaced: bool)
    requires Runs(Start(closesReplaced), run)
    ensures StaysClean(Start(closesReplaced), run) <==> NeverAbandons(Start(closesReplaced), run)
  {
    CleanFollowsAdds(Start(closesReplaced), run);
  }

  // ---- when that is so ----

  predicate UnderWay(s: State, p: nat) {
    p < |s.calls| && (s.calls[p].pc == Looking || s.calls[p].pc == Adding)
  }

  /** Packets of one source arrive one after another. */
  ghost predicate SourcesTakeTurns(s: State, run: seq<Action>)
    requires Runs(s, run)
    decreases |run|
  {
    run == [] ||
    (&& (run[0].Arrive? ==> forall p: nat | UnderWay(s, p) :: s.calls[p].source != run[0].source)
     && SourcesTakeTurns(Step(s, run[0]), run[1..]))
  }

  ghost predicate Alone(s: State) {
    && (forall p: nat, q: nat | UnderWay(s, p) && UnderWay(s, q) && s.calls[p].source == s.calls[q].source :: p == q)
    && (forall p: nat | UnderWay(s, p) && s.calls[p].pc == Adding :: !Usable(s, s.calls[p].source))
  }

  lemma StepKeepsAlone(s: State, a: Action)
    requires Inv(s) && Alone(s) && Enabled(s, a)
    requires a.Arrive? ==> forall p: nat | UnderWay(s, p) :: s.calls[p].source != a.source
    ensures Alone(Step(s, a)) && !Abandons(s, a)
  {
    var t := Step(s, a);
    forall p: nat | UnderWay(t, p) ensures p < |s.calls| ==> UnderWay(s, p) && t.calls[p].source == s.calls[p].source {
    }
    forall p: nat | UnderWay(t, p) && t.calls[p].pc == Adding ensures !Usable(t, t.calls[p].source) {
      assert UnderWay(s, p);
      if a.Add? { assert UnderWay(s, a.p); }
    }
    if a.Add? { assert UnderWay(s, a.p); }
  }

  /** If packets of one source arrive one after another, nothing is left behind, whatever else the table
      does; and so if the table closes what it replaces. */
  lemma {:induction false} TurnsNeverAbandon(s: State, run: seq<Action>)
    requires Runs(s, run) && Inv(s)
    requires s.closesReplaced || (Alone(s) && SourcesTakeTurns(s, run))
    ensures NeverAbandons(s, run)
    decreases |run|
  {
    if run != [] {
      StepKeepsInv(s, run[0]);
      if !s.closesReplaced { StepKeepsAlone(s, run[0]); }
      TurnsNeverAbandon(Step(s, run[0]), run[1..]);
    }
  }

  lemma TurnsStayClean(run: seq<Action>, closesReplaced: bool)
    requires Runs(Start(closesReplaced), run)
    requires closesReplaced || SourcesTakeTurns(Start(closesReplaced), run)
    ensures StaysClean(Start(closesReplaced), run)
  {
    TurnsNeverAbandon(Start(closesReplaced), run);
    CleanExactly(run, closesReplaced);
  }

  /** A whole call that nothing interrupts: it gets the session in use if that is usable; else a new one, which
      is then in the table, if one can be prepared; and is refused otherwise. */
  lemma CallOf(s: State, source: nat, prepared: bool)
    requires Inv(s)
    ensures var p, s1 := |s.calls|, Step(s, Arrive(source));
            && Enabled(s1, Look(p, prepared))
            && var s2 := Step(s1, Look(p, prepared));
               && (s2.calls[p].pc == Adding ==> Enabled(s2, Add(p)))
               && var t := if s2.calls[p].pc == Adding then Step(s2, Add(p)) else s2;
                  && (Usable(s, source) ==>
                        t.calls[p].pc == Got(s.table[source]) && t.table == s.table && t.sessions == s.sessions)
                  && (!Usable(s, source) && prepared ==>
                        && t.calls[p].pc == Got(|s.sessions|) && t.table == s.table[source := |s.sessions|]
                        && t.sessions == s.sessions + [Session(source, false)])
                  && (!Usable(s, source) && !prepared ==>
                        t.calls[p].pc == Refused && t.table == s.table && t.sessions == s.sessions)
  {
  }

  // ---- exactly which calls under way can leave a session behind ----

  /** Two different calls of one source are under way. */
  predicate Overlaps(s: State, p: nat, q: nat) {
    p != q && UnderWay(s, p) && UnderWay(s, q) && s.calls[p].source == s.calls[q].source
  }

  /** A call is about to enter a session although by now its source has a usable one. */
  predicate Overtaken(s: State, p: nat) {
    UnderWay(s, p) && s.calls[p].pc == Adding && Usable(s, s.calls[p].source)
  }

  predicate NoArrival(run: seq<Action>) {
    forall i | 0 <= i < |run| :: !run[i].Arrive?
  }

  /** The calls under way can leave a session behind, without any further packet. */
  ghost predicate Breaks(s: State, run: seq<Action>) {
    Runs(s, run) && NoArrival(run) && !StaysClean(s, run)
  }

  lemma BreaksLater(s: State, a: Action, run: seq<Action>)
    requires Enabled(s, a) && !a.Arrive? && Breaks(Step(s, a), run)
    ensures Breaks(s, [a] + run)
  {
    Unroll(s, a, run);
    assert ([a] + run)[1..] == run;
  }

  /** The insertion that abandons a session. */
  lemma OvertakenBreaks(s: State, p: nat) returns (run: seq<Action>)
    requires Inv(s) && Clean(s) && !s.closesReplaced && Overtaken(s, p)
    ensures Breaks(s, run)
  {
    var t := Step(s, Add(p));
    StepStaysClean(s, Add(p));
    assert Breaks(t, []);
    BreaksLater(s, Add(p), []);
    run := [Add(p)] + [];
  }

  /** Two insertions under one source: the second abandons what the first has entered. */
  lemma BothAddingBreak(s: State, p: nat, q: nat) returns (run: seq<Action>)
    requires Inv(s) && Clean(s) && !s.closesReplaced && Overlaps(s, p, q)
    requires s.calls[p].pc == Adding && s.calls[q].pc == Adding && !Usable(s, s.calls[p].source)
    ensures Breaks(s, run)
  {
    var t := Step(s, Add(p));
    StepKeepsInv(s, Add(p));
    StepStaysClean(s, Add(p));
    var rest := OvertakenBreaks(t, q);
    BreaksLater(s, Add(p), rest);
    run := [Add(p)] + rest;
  }

  lemma LookKeepsState(s: State, p: nat)
    requires Inv(s) && Clean(s) && Enabled(s, Look(p, true)) && !Usable(s, s.calls[p].source)
    ensures var t := Step(s, Look(p, true));
            && t == s.(calls := t.calls) && t.calls == s.calls[p := s.calls[p].(pc := Adding)]
            && Inv(t) && Clean(t)
  {
    StepKeepsInv(s, Look(p, true));
    StepStaysClean(s, Look(p, true));
  }

  /** Calls that still have to look do so, and find nothing usable. */
  lemma UnservedOverlapBreaks(s: State, p: nat, q: nat) returns (run: seq<Action>)
    requires Inv(s) && Clean(s) && !s.closesReplaced && Overlaps(s, p, q) && !Usable(s, s.calls[p].source)
    ensures Breaks(s, run)
    decreases (if s.calls[p].pc == Looking then 1 else 0) + (if s.calls[q].pc == Looking then 1 else 0)
  {
    if s.calls[p].pc == Adding && s.calls[q].pc == Adding {
      run := BothAddingBreak(s, p, q);
    } else {
      var c := if s.calls[p].pc == Looking then p else q;
      LookKeepsState(s, c);
      var rest := UnservedOverlapBreaks(Step(s, Look(c, true)), p, q);
      BreaksLater(s, Look(c, true), rest);
      run := [Look(c, true)] + rest;
    }
  }

  /** A usable session can be closed before the calls look. */
  lemma OverlapBreaks(s: State, p: nat, q: nat) returns (run: seq<Action>)
    requires Inv(s) && Clean(s) && !s.closesReplaced && Overlaps(s, p, q)
    ensures Breaks(s, run)
  {
    if !Usable(s, s.calls[p].source) {
      run := UnservedOverlapBreaks(s, p, q);
    } else {
      var a := Close(s.table[s.calls[p].source]);
      StepKeepsInv(s, a);
      StepStaysClean(s, a);
      var rest := UnservedOverlapBreaks(Step(s, a), p, q);
      BreaksLater(s, a, rest);
      run := [a] + rest;
    }
  }

  lemma {:induction false} WithoutArrivalsTakeTurns(s: State, run: seq<Action>)
    requires Runs(s, run) && NoArrival(run)
    ensures SourcesTakeTurns(s, run)
    decreases |run|
  {
    if run != [] {
      assert NoArrival(run[1..]);
      WithoutArrivalsTakeTurns(Step(s, run[0]), run[1..]);
    }
  }

  /** The exact condition, at the calls: where nothing has been left behind yet and the table does not close
      what it replaces, what is under way can leave a session open outside the table if and only if two
      calls of one source overlap, or a call is about to enter a session beside a usable one. */
  lemma OverlapsExactly(s: State)
    requires Inv(s) && Clean(s) && !s.closesReplaced
    ensures (exists run :: Breaks(s, run)) <==>
            (exists p: nat, q: nat :: Overlaps(s, p, q)) || (exists p: nat :: Overtaken(s, p))
  {
    if p: nat, q: nat :| Overlaps(s, p, q) {
      var run := OverlapBreaks(s, p, q);
    } else if p: nat :| Overtaken(s, p) {
      var run := OvertakenBreaks(s, p);
    } else {
      forall p: nat, q: nat | UnderWay(s, p) && UnderWay(s, q) && s.calls[p].source == s.calls[q].source
        ensures p == q
      {
        assert !Overlaps(s, p, q);
      }
      forall p: nat | UnderWay(s, p) && s.calls[p].pc == Adding ensures !Usable(s, s.calls[p].source) {
        assert !Overtaken(s, p);
      }
      forall run | Runs(s, run) && NoArrival(run) ensures StaysClean(s, run) {
        WithoutArrivalsTakeTurns(s, run);
        TurnsNeverAbandon(s, run);
        CleanFollowsAdds(s, run);
      }
    }
  }

  /** So where no call is overtaken only the overlap counts: two first packets of one source. */
  lemma ArrivalsExactly(s: State)
    requires Inv(s) && Clean(s) && !s.closesReplaced && forall p: nat :: !Overtaken(s, p)
    ensures (exists run :: Breaks(s, run)) <==> exists p: nat, q: nat :: Overlaps(s, p, q)
  {
    OverlapsExactly(s);
  }

  lemma Unroll(s: State, a: Action, rest: seq<Action>)
    requires Enabled(s, a) && Runs(Step(s, a), rest)
    ensures Runs(s, [a] + rest) && Exec(s, [a] + rest) == Exec(Step(s, a), rest)
  {
    assert ([a] + rest)[1..] == rest;
  }

  /** Two first packets of one source that overlap: the first session stays open outside the table. */
  lemma OverlapAbandons()
    ensures var run := [Arrive(0), Arrive(0), Look(0, true), Look(1, true), Add(0), Add(1)];
            && Runs(Start(false), run)
            && var s := Exec(Start(false), run);
               |s.sessions| == 2 && !s.sessions[0].closed && !InTable(s, 0)
  {
    var s0 := Start(false);
    var s1 := Step(s0, Arrive(0));
    var s2 := Step(s1, Arrive(0));
    var s3 := Step(s2, Look(0, true));
    var s4 := Step(s3, Look(1, true));
    var s5 := Step(s4, Add(0));
    Unroll(s5, Add(1), []);
    Unroll(s4, Add(0), [Add(1)]);
    Unroll(s3, Look(1, true), [Add(0), Add(1)]);
    Unroll(s2, Look(0, true), [Look(1, true), Add(0), Add(1)]);
    Unroll(s1, Arrive(0), [Look(0, true), Look(1, true), Add(0), Add(1)]);
    Unroll(s0, Arrive(0), [Arrive(0), Look(0, true), Look(1, true), Add(0), Add(1)]);
  }
}
