/** Why a call on the pipe returns: each error has its cause, and a close is seen by whom it should. */
module PipeExits {
  import opened Prelude
  import D = Deadline
  import opened Pipe
  import opened PipeSafety

  // ---- who sees a close ----

  /** An end is closed for itself exactly if it was closed in the run, and closed for the other end at
      the same time: the channels are wired crosswise. */
  lemma {:induction false} CloseIsSeenExactly(s: State, run: seq<Action>, e: nat)
    requires |s.ends| == 2 && Runs(s, run) && e < 2
    ensures LocalClosed(Exec(s, run), e) <==> LocalClosed(s, e) || Close(e) in run
    ensures RemoteClosed(Exec(s, run), e) <==> RemoteClosed(s, e) || Close(Peer(e)) in run
    decreases |run|
  {
    if run != [] {
      CloseIsSeenExactly(Step(s, run[0]), run[1..], e);
      assert run == [run[0]] + run[1..];
      DoneChangesOnClose(s, run[0]);
    }
  }

  lemma DoneChangesOnClose(s: State, a: Action)
    requires |s.ends| == 2 && Enabled(s, a)
    ensures Step(s, a).done == s.done + (if a.Close? then {a.e} else {})
    ensures |Step(s, a).ends| == 2
  {
  }

  // ---- why calls return ----

  /** The cause behind an error; `remote` is what the call reports when the other end is closed. */
  predicate Explained(s: State, e: nat, d: D.State, pc: Pc, remote: Err) {
    Captured(pc, d) &&
    match pc
    case Done(ClosedPipe) => LocalClosed(s, e) || (remote == ClosedPipe && RemoteClosed(s, e))
    case Done(EOF) => remote == EOF && RemoteClosed(s, e)
    case Done(DeadlineExceeded(ch)) => ch in d.handed && D.Closed(d, ch)
    case _ => true
  }

  ghost predicate AllExplained(s: State)
    requires |s.ends| == 2
  {
    && (forall r | 0 <= r < |s.readers| ::
          s.readers[r].end < 2 && Explained(s, s.readers[r].end, s.ends[s.readers[r].end].rd, s.readers[r].pc, EOF))
    && (forall w | 0 <= w < |s.writers| ::
          s.writers[w].end < 2 && Explained(s, s.writers[w].end, s.ends[s.writers[w].end].wr, s.writers[w].pc,
            ClosedPipe))
  }

  lemma DeadlineGrows(d: D.State, a: D.Action)
    requires D.Enabled(d, a)
    ensures d.handed <= D.Step(d, a).handed
    ensures forall ch | D.Closed(d, ch) :: D.Closed(D.Step(d, a), ch)
  {
  }

  /** A deadline that has passed stays so, and channels stay closed. */
  predicate Grows(d: D.State, t: D.State) {
    d.handed <= t.handed && forall ch <- d.handed :: D.Closed(d, ch) ==> D.Closed(t, ch)
  }

  lemma NextDeadlineGrows(pc: Pc, d: D.State)
    ensures Grows(d, NextDeadline(pc, d))
  {
    if D.Enabled(d, D.Wait) { DeadlineGrows(d, D.Wait); }
  }

  lemma EndsGrow(s: State, a: Action, e: nat)
    requires |s.ends| == 2 && Enabled(s, a) && e < 2
    ensures |Step(s, a).ends| == 2
    ensures Grows(s.ends[e].rd, Step(s, a).ends[e].rd) && Grows(s.ends[e].wr, Step(s, a).ends[e].wr)
  {
    match a {
      case SetReadDeadline(f, d) => DeadlineGrows(s.ends[f].rd, d);
      case SetWriteDeadline(f, d) => DeadlineGrows(s.ends[f].wr, d);
      case ReadStep(r) => NextDeadlineGrows(s.readers[r].pc, s.ends[s.readers[r].end].rd);
      case WriteStep(w) => NextDeadlineGrows(s.writers[w].pc, s.ends[s.writers[w].end].wr);
      case _ =>
    }
  }

  lemma ExplainedStays(s: State, t: State, e: nat, d: D.State, d': D.State, pc: Pc, remote: Err)
    requires Explained(s, e, d, pc, remote) && s.done <= t.done && Grows(d, d')
    ensures Explained(t, e, d', pc, remote)
  {
  }

  /** The checks on entry and the entry into `select` report only what holds. */
  lemma NextIsExplained(s: State, pc: Pc, e: nat, d: D.State, remote: Err, checked: Pc)
    requires Explained(s, e, d, pc, remote) && Moves(pc, d, None)
    requires remote == EOF || remote == ClosedPipe
    requires checked == Enter || checked == Lock
    ensures Explained(s, e, NextDeadline(pc, d), Next(s, pc, e, d, remote, checked), remote)
  {
  }

  lemma ReaderExplained(s: State, a: Action, r: nat)
    requires |s.ends| == 2 && AllExplained(s) && Enabled(s, a) && |Step(s, a).ends| == 2 && r < |Step(s, a).readers|
    ensures var t := Step(s, a);
            t.readers[r].end < 2 && Explained(t, t.readers[r].end, t.ends[t.readers[r].end].rd, t.readers[r].pc, EOF)
  {
    DoneChangesOnClose(s, a);
    if r < |s.readers| {
      var x, t := s.readers[r], Step(s, a);
      EndsGrow(s, a, x.end);
      if a == ReadStep(r) {
        NextIsExplained(s, x.pc, x.end, s.ends[x.end].rd, EOF, Enter);
      } else if a.ReadExit? && a.r == r {
      } else if t.readers[r].pc == x.pc {
        ExplainedStays(s, t, x.end, s.ends[x.end].rd, t.ends[x.end].rd, x.pc, EOF);
      }
    }
  }

  lemma WriterExplained(s: State, a: Action, w: nat)
    requires |s.ends| == 2 && AllExplained(s) && Enabled(s, a) && |Step(s, a).ends| == 2 && w < |Step(s, a).writers|
    ensures var t := Step(s, a);
            t.writers[w].end < 2 && Explained(t, t.writers[w].end, t.ends[t.writers[w].end].wr, t.writers[w].pc,
              ClosedPipe)
  {
    DoneChangesOnClose(s, a);
    if w < |s.writers| {
      var x, t := s.writers[w], Step(s, a);
      EndsGrow(s, a, x.end);
      if a == WriteStep(w) {
        if !x.pc.Lock? { NextIsExplained(s, x.pc, x.end, s.ends[x.end].wr, ClosedPipe, Lock); }
      } else if a.WriteExit? && a.w == w {
      } else if t.writers[w].pc == x.pc {
        ExplainedStays(s, t, x.end, s.ends[x.end].wr, t.ends[x.end].wr, x.pc, ClosedPipe);
      }
    }
  }

  lemma {:induction false} RunExplains(s: State, run: seq<Action>)
    requires |s.ends| == 2 && AllExplained(s) && Runs(s, run)
    ensures AllExplained(Exec(s, run))
    decreases |run|
  {
    if run != [] {
      var t := Step(s, run[0]);
      DoneChangesOnClose(s, run[0]);
      forall r | 0 <= r < |t.readers|
        ensures t.readers[r].end < 2 &&
          Explained(t, t.readers[r].end, t.ends[t.readers[r].end].rd, t.readers[r].pc, EOF)
      {
        ReaderExplained(s, run[0], r);
      }
      forall w | 0 <= w < |t.writers|
        ensures t.writers[w].end < 2 &&
          Explained(t, t.writers[w].end, t.ends[t.writers[w].end].wr, t.writers[w].pc, ClosedPipe)
      {
        WriterExplained(s, run[0], w);
      }
      RunExplains(t, run[1..]);
    }
  }

  // ---- a timeout is the call's own ----

  predicate Shows(pc: Pc, ch: nat) {
    match pc
    case CheckDeadline(c) => c == ch
    case Select(c) => c == ch
    case Done(DeadlineExceeded(c)) => c == ch
    case _ => false
  }

  /** At some step of the read, `ch` is the current channel of its deadline. */
  predicate ReadCaptures(s: State, run: seq<Action>, r: nat, ch: nat)
    requires |s.ends| == 2 && Runs(s, run)
    decreases |run|
  {
    run != [] &&
    ((run[0] == ReadStep(r) && s.ends[s.readers[r].end].rd.cancel == ch) ||
      ReadCaptures(Step(s, run[0]), run[1..], r, ch))
  }

  predicate WriteCaptures(s: State, run: seq<Action>, w: nat, ch: nat)
    requires |s.ends| == 2 && Runs(s, run)
    decreases |run|
  {
    run != [] &&
    ((run[0] == WriteStep(w) && s.ends[s.writers[w].end].wr.cancel == ch) ||
      WriteCaptures(Step(s, run[0]), run[1..], w, ch))
  }

  lemma ReadShows(s: State, a: Action, r: nat, ch: nat)
    requires |s.ends| == 2 && Enabled(s, a)
    requires r < |Step(s, a).readers| && Shows(Step(s, a).readers[r].pc, ch)
    ensures r < |s.readers|
    ensures Shows(s.readers[r].pc, ch) || (a == ReadStep(r) && s.ends[s.readers[r].end].rd.cancel == ch)
  {
  }

  lemma WriteShows(s: State, a: Action, w: nat, ch: nat)
    requires |s.ends| == 2 && Enabled(s, a)
    requires w < |Step(s, a).writers| && Shows(Step(s, a).writers[w].pc, ch)
    ensures w < |s.writers|
    ensures Shows(s.writers[w].pc, ch) || (a == WriteStep(w) && s.ends[s.writers[w].end].wr.cancel == ch)
  {
  }

  lemma {:induction false} ShownWasRead(s: State, run: seq<Action>, r: nat, ch: nat)
    requires |s.ends| == 2 && Runs(s, run)
    requires r < |Exec(s, run).readers| && Shows(Exec(s, run).readers[r].pc, ch)
    ensures (r < |s.readers| && Shows(s.readers[r].pc, ch)) || ReadCaptures(s, run, r, ch)
    decreases |run|
  {
    if run != [] {
      DoneChangesOnClose(s, run[0]);
      ShownWasRead(Step(s, run[0]), run[1..], r, ch);
      var t := Step(s, run[0]);
      if r < |t.readers| && Shows(t.readers[r].pc, ch) { ReadShows(s, run[0], r, ch); }
    }
  }

  lemma {:induction false} ShownWasWritten(s: State, run: seq<Action>, w: nat, ch: nat)
    requires |s.ends| == 2 && Runs(s, run)
    requires w < |Exec(s, run).writers| && Shows(Exec(s, run).writers[w].pc, ch)
    ensures (w < |s.writers| && Shows(s.writers[w].pc, ch)) || WriteCaptures(s, run, w, ch)
    decreases |run|
  {
    if run != [] {
      DoneChangesOnClose(s, run[0]);
      ShownWasWritten(Step(s, run[0]), run[1..], w, ch);
      var t := Step(s, run[0]);
      if w < |t.writers| && Shows(t.writers[w].pc, ch) { WriteShows(s, run[0], w, ch); }
    }
  }

  /** A read reports a closed pipe only if its own end was closed, end of file only if the other end
      was, and a timeout only if the deadline that was current at one of its own steps has passed. */
  lemma ReadErrorsHaveCauses(run: seq<Action>, r: nat)
    requires Runs(INITIAL, run) && r < |Exec(INITIAL, run).readers|
    ensures var s := Exec(INITIAL, run);
            var x := s.readers[r];
            && x.end < 2
            && (x.pc == Done(ClosedPipe) ==> Close(x.end) in run)
            && (x.pc == Done(EOF) ==> Close(Peer(x.end)) in run)
            && (x.pc.Done? && x.pc.err.DeadlineExceeded? ==>
                  D.Closed(s.ends[x.end].rd, x.pc.err.ch) && ReadCaptures(INITIAL, run, r, x.pc.err.ch))
  {
    var x := Exec(INITIAL, run).readers[r];
    RunExplains(INITIAL, run);
    CloseIsSeenExactly(INITIAL, run, x.end);
    if x.pc.Done? && x.pc.err.DeadlineExceeded? { ShownWasRead(INITIAL, run, r, x.pc.err.ch); }
  }

  /** A write reports a closed pipe only if one of the ends was closed, and a timeout only if the deadline
      that was current at one of its own steps has passed. */
  lemma WriteErrorsHaveCauses(run: seq<Action>, w: nat)
    requires Runs(INITIAL, run) && w < |Exec(INITIAL, run).writers|
    ensures var s := Exec(INITIAL, run);
            var x := s.writers[w];
            && x.end < 2 && x.pc != Done(EOF)
            && (x.pc == Done(ClosedPipe) ==> Close(x.end) in run || Close(Peer(x.end)) in run)
            && (x.pc.Done? && x.pc.err.DeadlineExceeded? ==>
                  D.Closed(s.ends[x.end].wr, x.pc.err.ch) && WriteCaptures(INITIAL, run, w, x.pc.err.ch))
  {
    var x := Exec(INITIAL, run).writers[w];
    RunExplains(INITIAL, run);
    CloseIsSeenExactly(INITIAL, run, x.end);
    if x.pc.Done? && x.pc.err.DeadlineExceeded? { ShownWasWritten(INITIAL, run, w, x.pc.err.ch); }
  }
}
