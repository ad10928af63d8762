/** What a call returns that starts on a closed pipe, or with its deadline passed. */
module PipeEntry {
  import opened Prelude
  import D = Deadline
  import opened Pipe
  import opened PipeSafety
  import opened PipeExits

  /** Why a call is turned away at its checks. */
  datatype Why = OwnClosed | OtherClosed | Late(ch: nat)

  // ---- reads ----

  /** Read `r` of end `e` is at a check that it will not pass, or has failed one. */
  ghost predicate ReadRefused(s: State, r: nat, e: nat, why: Why) {
    && |s.ends| == 2 && e < 2 && r < |s.readers|
    && s.readers[r].end == e && s.readers[r].got == [] && s.readers[r].n == 0 && r !in s.ends[e].received
    && var pc, rd := s.readers[r].pc, s.ends[e].rd;
       match why
       case OwnClosed => LocalClosed(s, e) && (pc == CheckLocal || pc == Done(ClosedPipe))
       case OtherClosed =>
         && RemoteClosed(s, e)
         && (pc == CheckLocal || pc == CheckRemote || pc == Done(EOF) || (pc == Done(ClosedPipe) && LocalClosed(s, e)))
       case Late(ch) =>
         && !LocalClosed(s, e) && !RemoteClosed(s, e)
         && rd.setter == D.Idle && rd.cancel == ch && D.Closed(rd, ch)
         && (pc == CheckLocal || pc == CheckRemote || pc == WaitDeadline || pc == CheckDeadline(ch) ||
             pc == Done(DeadlineExceeded(ch)))
  }

  /** The action neither closes the pipe nor begins a `Set` of this deadline, if that matters. */
  predicate LeavesRead(a: Action, e: nat, why: Why) {
    why.Late? ==> !a.Close? && !(a.SetReadDeadline? && a.e == e && a.a.SetEnter?)
  }

  lemma ReadStaysRefused(s: State, a: Action, r: nat, e: nat, why: Why)
    requires ReadRefused(s, r, e, why) && Enabled(s, a) && LeavesRead(a, e, why)
    ensures ReadRefused(Step(s, a), r, e, why)
  {
    DoneChangesOnClose(s, a);
  }

  lemma {:induction false} RunRefusesRead(s: State, run: seq<Action>, r: nat, e: nat, why: Why)
    requires ReadRefused(s, r, e, why) && Runs(s, run) && forall a <- run :: LeavesRead(a, e, why)
    ensures ReadRefused(Exec(s, run), r, e, why)
    decreases |run|
  {
    if run != [] {
      assert run[0] in run && forall a <- run[1..] :: a in run;
      ReadStaysRefused(s, run[0], r, e, why);
      RunRefusesRead(Step(s, run[0]), run[1..], r, e, why);
    }
  }

  lemma NewReadIsUnlisted(run: seq<Action>, e: nat)
    requires Runs(INITIAL, run) && e < 2
    ensures var s := Exec(INITIAL, run); |s.readers| !in s.ends[e].received && |s.writers| !in s.ends[e].order
    ensures var s := Exec(INITIAL, run); D.Inv(s.ends[e].rd) && D.Inv(s.ends[e].wr)
  {
    ReachesInv(run, Exec(INITIAL, run));
  }

  /** A read that begins after the run `before` and is followed by the run `after`: if either end was closed
      when it began, it gets nothing, and it reports a closed pipe for its own end, or the end of the file if
      only the other end has been closed. */
  lemma ReadOnClosedPipe(before: seq<Action>, e: nat, room: nat, after: seq<Action>)
    requires Runs(INITIAL, before) && e < 2 && Runs(Step(Exec(INITIAL, before), Read(e, room)), after)
    ensures var s, t := Exec(INITIAL, before), Exec(Step(Exec(INITIAL, before), Read(e, room)), after);
            && |s.readers| < |t.readers|
            && var r := |s.readers|; var x := t.readers[r];
               && x.end == e
               && (x.pc.Done? && (Close(e) in before || Close(Peer(e)) in before) ==>
                     && x.got == [] && x.n == 0 && r !in t.ends[e].received
                     && (Close(e) in before ==> x.pc == Done(ClosedPipe))
                     && (Close(e) !in before && Close(e) !in after ==> x.pc == Done(EOF))
                     && (x.pc == Done(ClosedPipe) || x.pc == Done(EOF)))
  {
    var s := Exec(INITIAL, before);
    var s1 := Step(s, Read(e, room));
    NewReadIsUnlisted(before, e);
    CloseIsSeenExactly(INITIAL, before, e);
    CloseIsSeenExactly(s1, after, e);
    CallsStay(s1, after);
    if Close(e) in before {
      RunRefusesRead(s1, after, |s.readers|, e, OwnClosed);
    } else if Close(Peer(e)) in before {
      RunRefusesRead(s1, after, |s.readers|, e, OtherClosed);
    }
  }

  /** With the pipe open throughout, a read that begins after its deadline has passed times out with nothing,
      unless a new deadline is set meanwhile. */
  lemma ReadOnPassedDeadline(before: seq<Action>, e: nat, room: nat, after: seq<Action>)
    requires Runs(INITIAL, before) && e < 2 && Runs(Step(Exec(INITIAL, before), Read(e, room)), after)
    requires Close(0) !in before && Close(1) !in before && forall a <- after :: LeavesRead(a, e, Late(0))
    requires var rd := Exec(INITIAL, before).ends[e].rd;
             rd.setter == D.Idle && (rd.last == D.Past || D.Closed(rd, rd.cancel))
    ensures var s, t := Exec(INITIAL, before), Exec(Step(Exec(INITIAL, before), Read(e, room)), after);
            var r := |s.readers|;
            && r < |t.readers| && t.readers[r].end == e
            && (t.readers[r].pc.Done? ==>
                  && t.readers[r].pc == Done(DeadlineExceeded(s.ends[e].rd.cancel))
                  && t.readers[r].got == [] && t.readers[r].n == 0 && r !in t.ends[e].received)
  {
    var s := Exec(INITIAL, before);
    NewReadIsUnlisted(before, e);
    CloseIsSeenExactly(INITIAL, before, e);
    RunRefusesRead(Step(s, Read(e, room)), after, |s.readers|, e, Late(s.ends[e].rd.cancel));
  }

  /** Calls keep their number, their end and their arguments. */
  ghost predicate CallsKept(s: State, t: State) {
    && |s.readers| <= |t.readers| && |s.writers| <= |t.writers|
    && (forall r | 0 <= r < |s.readers| ::
          t.readers[r].end == s.readers[r].end && t.readers[r].room == s.readers[r].room)
    && (forall w | 0 <= w < |s.writers| ::
          t.writers[w].end == s.writers[w].end && t.writers[w].data == s.writers[w].data)
  }

  lemma CallsStayOnce(s: State, a: Action)
    requires |s.ends| == 2 && Enabled(s, a)
    ensures |Step(s, a).ends| == 2 && CallsKept(s, Step(s, a))
  {
  }

  lemma {:induction false} CallsStay(s: State, run: seq<Action>)
    requires |s.ends| == 2 && Runs(s, run)
    ensures CallsKept(s, Exec(s, run))
    decreases |run|
  {
    if run != [] {
      CallsStayOnce(s, run[0]);
      CallsStay(Step(s, run[0]), run[1..]);
    }
  }

  /** Either end can be read, written and closed at any time, and a call works on what it was called with. */
  lemma CallsTakeTheirArguments(s: State, e: nat, room: nat, data: seq<byte>, after: seq<Action>)
    requires |s.ends| == 2 && (e == 0 || e == 1)
    ensures Enabled(s, Read(e, room)) && Enabled(s, Write(e, data)) && Enabled(s, Close(e))
    ensures Runs(Step(s, Read(e, room)), after) ==>
              var t := Exec(Step(s, Read(e, room)), after);
              |s.readers| < |t.readers| && t.readers[|s.readers|].end == e && t.readers[|s.readers|].room == room
    ensures Runs(Step(s, Write(e, data)), after) ==>
              var t := Exec(Step(s, Write(e, data)), after);
              |s.writers| < |t.writers| && t.writers[|s.writers|].end == e && t.writers[|s.writers|].data == data
  {
    if Runs(Step(s, Read(e, room)), after) { CallsStay(Step(s, Read(e, room)), after); }
    if Runs(Step(s, Write(e, data)), after) { CallsStay(Step(s, Write(e, data)), after); }
  }

  // ---- writes ----

  ghost predicate WriteRefused(s: State, w: nat, e: nat, why: Why) {
    && |s.ends| == 2 && e < 2 && w < |s.writers|
    && s.writers[w].end == e && s.writers[w].taken == 0 && s.writers[w].n == 0 && w !in s.ends[e].order
    && var pc, wr := s.writers[w].pc, s.ends[e].wr;
       match why
       case OwnClosed => LocalClosed(s, e) && (pc == CheckLocal || pc == Done(ClosedPipe))
       case OtherClosed => RemoteClosed(s, e) && (pc == CheckLocal || pc == CheckRemote || pc == Done(ClosedPipe))
       case Late(ch) =>
         && !LocalClosed(s, e) && !RemoteClosed(s, e)
         && wr.setter == D.Idle && wr.cancel == ch && D.Closed(wr, ch)
         && (pc == CheckLocal || pc == CheckRemote || pc == WaitDeadline || pc == CheckDeadline(ch) ||
             pc == Done(DeadlineExceeded(ch)))
  }

  predicate LeavesWrite(a: Action, e: nat, why: Why) {
    why.Late? ==> !a.Close? && !(a.SetWriteDeadline? && a.e == e && a.a.SetEnter?)
  }

  lemma WriteStaysRefused(s: State, a: Action, w: nat, e: nat, why: Why)
    requires WriteRefused(s, w, e, why) && Enabled(s, a) && LeavesWrite(a, e, why)
    ensures WriteRefused(Step(s, a), w, e, why)
  {
    DoneChangesOnClose(s, a);
  }

  lemma {:induction false} RunRefusesWrite(s: State, run: seq<Action>, w: nat, e: nat, why: Why)
    requires WriteRefused(s, w, e, why) && Runs(s, run) && forall a <- run :: LeavesWrite(a, e, why)
    ensures WriteRefused(Exec(s, run), w, e, why)
    decreases |run|
  {
    if run != [] {
      assert run[0] in run && forall a <- run[1..] :: a in run;
      WriteStaysRefused(s, run[0], w, e, why);
      RunRefusesWrite(Step(s, run[0]), run[1..], w, e, why);
    }
  }

  /** A write that begins after either end was closed writes nothing and reports a closed pipe; it never
      takes the lock. */
  lemma WriteOnClosedPipe(before: seq<Action>, e: nat, data: seq<byte>, after: seq<Action>)
    requires Runs(INITIAL, before) && e < 2 && Runs(Step(Exec(INITIAL, before), Write(e, data)), after)
    requires Close(e) in before || Close(Peer(e)) in before
    ensures var s, t := Exec(INITIAL, before), Exec(Step(Exec(INITIAL, before), Write(e, data)), after);
            var w := |s.writers|;
            && w < |t.writers| && t.writers[w].end == e
            && t.writers[w].n == 0 && t.writers[w].taken == 0 && w !in t.ends[e].order
            && (t.writers[w].pc.Done? ==> t.writers[w].pc == Done(ClosedPipe))
  {
    var s := Exec(INITIAL, before);
    NewReadIsUnlisted(before, e);
    CloseIsSeenExactly(INITIAL, before, e);
    var why := if Close(e) in before then OwnClosed else OtherClosed;
    RunRefusesWrite(Step(s, Write(e, data)), after, |s.writers|, e, why);
  }

  /** The same for a write after its deadline. */
  lemma WriteOnPassedDeadline(before: seq<Action>, e: nat, data: seq<byte>, after: seq<Action>)
    requires Runs(INITIAL, before) && e < 2 && Runs(Step(Exec(INITIAL, before), Write(e, data)), after)
    requires Close(0) !in before && Close(1) !in before && forall a <- after :: LeavesWrite(a, e, Late(0))
    requires var wr := Exec(INITIAL, before).ends[e].wr;
             wr.setter == D.Idle && (wr.last == D.Past || D.Closed(wr, wr.cancel))
    ensures var s, t := Exec(INITIAL, before), Exec(Step(Exec(INITIAL, before), Write(e, data)), after);
            var w := |s.writers|;
            && w < |t.writers| && t.writers[w].end == e
            && t.writers[w].n == 0 && t.writers[w].taken == 0 && w !in t.ends[e].order
            && (t.writers[w].pc.Done? ==> t.writers[w].pc == Done(DeadlineExceeded(s.ends[e].wr.cancel)))
  {
    var s := Exec(INITIAL, before);
    NewReadIsUnlisted(before, e);
    CloseIsSeenExactly(INITIAL, before, e);
    RunRefusesWrite(Step(s, Write(e, data)), after, |s.writers|, e, Late(s.ends[e].wr.cancel));
  }
}
