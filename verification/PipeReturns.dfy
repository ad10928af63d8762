/** Calls on the pipe use up their steps, and after a close they all return. */
module PipeReturns {
  import opened Prelude
  import D = Deadline
  import opened Pipe
  import opened PipeSafety

  // ---- the work that is left ----

  /** How far a call is from its end; a write can go back from the handshake to `Enter`. */
  function Rank(pc: Pc): nat {
    match pc
    case CheckLocal => 8
    case CheckRemote => 7
    case WaitDeadline => 6
    case CheckDeadline(_) => 5
    case Lock => 4
    case Enter => 3
    case Select(_) => 2
    case Handshake => 1
    case Done(_) => 0
  }

  function RankSum(pcs: seq<Pc>): nat {
    if pcs == [] then 0 else RankSum(pcs[..|pcs| - 1]) + Rank(pcs[|pcs| - 1])
  }

  function ReadPcs(readers: seq<Reader>): (r: seq<Pc>)
    ensures |r| == |readers| && forall i | 0 <= i < |r| :: r[i] == readers[i].pc
  {
    seq(|readers|, i requires 0 <= i < |readers| => readers[i].pc)
  }

  function WritePcs(writers: seq<Writer>): (r: seq<Pc>)
    ensures |r| == |writers| && forall i | 0 <= i < |r| :: r[i] == writers[i].pc
  {
    seq(|writers|, i requires 0 <= i < |writers| => writers[i].pc)
  }

  /** What a `Set` under way and a callback that has started still have to do. */
  function DeadlineWork(d: D.State): nat {
    (match d.setter case Idle => 0 case Waiting(_) => 2 case Stopping(_) => 1) +
    (if d.timer.Some? && D.Pending(d, d.timer.value) then 1 else 0)
  }

  function EndWork(end: End): nat {
    DeadlineWork(end.rd) + DeadlineWork(end.wr)
  }

  /** Every count sends a write back by two, and ends a read for it. */
  function CallWork(s: State): nat {
    4 * RankSum(ReadPcs(s.readers)) + RankSum(WritePcs(s.writers))
  }

  function Work(s: State): nat
    requires |s.ends| == 2
  {
    CallWork(s) + EndWork(s.ends[0]) + EndWork(s.ends[1])
  }

  /** The steps that calls take by themselves or with each other, and those that finish a `Set`. */
  predicate Inner(a: Action) {
    match a
    case ReadStep(_) => true
    case WriteStep(_) => true
    case ReadExit(_, _) => true
    case WriteExit(_, _) => true
    case Transfer(_, _) => true
    case Count(_, _) => true
    case SetReadDeadline(_, d) => d.SetWake? || d.SetFinish? || d.Callback?
    case SetWriteDeadline(_, d) => d.SetWake? || d.SetFinish? || d.Callback?
    case _ => false
  }

  lemma {:induction false} RankSumUpdate(pcs: seq<Pc>, i: nat, pc: Pc)
    requires i < |pcs|
    ensures RankSum(pcs[i := pc]) == RankSum(pcs) - Rank(pcs[i]) + Rank(pc)
  {
    var last := |pcs| - 1;
    if i == last {
      assert pcs[i := pc][..last] == pcs[..last];
    } else {
      RankSumUpdate(pcs[..last], i, pc);
      assert pcs[i := pc][..last] == pcs[..last][i := pc];
    }
  }

  lemma ReadRankUpdate(readers: seq<Reader>, r: nat, x: Reader)
    requires r < |readers|
    ensures RankSum(ReadPcs(readers[r := x])) == RankSum(ReadPcs(readers)) - Rank(readers[r].pc) + Rank(x.pc)
  {
    RankSumUpdate(ReadPcs(readers), r, x.pc);
    assert ReadPcs(readers[r := x]) == ReadPcs(readers)[r := x.pc];
  }

  lemma WriteRankUpdate(writers: seq<Writer>, w: nat, x: Writer)
    requires w < |writers|
    ensures RankSum(WritePcs(writers[w := x])) == RankSum(WritePcs(writers)) - Rank(writers[w].pc) + Rank(x.pc)
  {
    RankSumUpdate(WritePcs(writers), w, x.pc);
    assert WritePcs(writers[w := x]) == WritePcs(writers)[w := x.pc];
  }

  lemma DeadlineUsesWork(d: D.State, a: D.Action)
    requires D.Inv(d) && D.Enabled(d, a) && (a.SetWake? || a.SetFinish? || a.Callback?)
    ensures DeadlineWork(D.Step(d, a)) < DeadlineWork(d)
  {
    if a.Callback? { assert d.timer == Some(a.i); }
  }

  lemma NextUsesRank(s: State, pc: Pc, e: nat, d: D.State, remote: Err, checked: Pc, lock: Option<nat>)
    requires Moves(pc, d, lock) && (checked == Enter || checked == Lock)
    ensures Rank(Next(s, pc, e, d, remote, checked)) < Rank(pc)
    ensures DeadlineWork(NextDeadline(pc, d)) == DeadlineWork(d)
  {
  }

  lemma ReadMoveUsesWork(s: State, r: nat)
    requires |s.ends| == 2 && Enabled(s, ReadStep(r))
    ensures |ReadMove(s, r).ends| == 2 && Work(ReadMove(s, r)) < Work(s)
  {
    var x, t := s.readers[r], ReadMove(s, r);
    NextUsesRank(s, x.pc, x.end, s.ends[x.end].rd, EOF, Enter, None);
    ReadRankUpdate(s.readers, r, t.readers[r]);
    assert EndWork(t.ends[x.end]) == EndWork(s.ends[x.end]) && t.writers == s.writers;
  }

  lemma WriteMoveUsesWork(s: State, w: nat)
    requires |s.ends| == 2 && Enabled(s, WriteStep(w))
    ensures |WriteMove(s, w).ends| == 2 && Work(WriteMove(s, w)) < Work(s)
  {
    var x, t := s.writers[w], WriteMove(s, w);
    NextUsesRank(s, x.pc, x.end, s.ends[x.end].wr, ClosedPipe, Lock, s.ends[x.end].lock);
    WriteRankUpdate(s.writers, w, t.writers[w]);
    assert EndWork(t.ends[x.end]) == EndWork(s.ends[x.end]) && t.readers == s.readers;
  }

  /** A step that leaves the deadlines alone. */
  lemma SameDeadlines(s: State, t: State)
    requires |s.ends| == 2 && |t.ends| == 2
    requires forall e | 0 <= e < 2 :: t.ends[e].rd == s.ends[e].rd && t.ends[e].wr == s.ends[e].wr
    ensures Work(t) - CallWork(t) == Work(s) - CallWork(s)
  {
  }

  lemma ExitUsesWork(s: State, a: Action)
    requires |s.ends| == 2 && Enabled(s, a) && (a.ReadExit? || a.WriteExit?)
    ensures |Step(s, a).ends| == 2 && Work(Step(s, a)) < Work(s)
  {
    var t := Step(s, a);
    SameDeadlines(s, t);
    if a.ReadExit? {
      ReadRankUpdate(s.readers, a.r, t.readers[a.r]);
    } else {
      WriteRankUpdate(s.writers, a.w, t.writers[a.w]);
    }
  }

  lemma TransferUsesWork(s: State, w: nat, r: nat)
    requires |s.ends| == 2 && Enabled(s, Transfer(w, r))
    ensures |DoTransfer(s, w, r).ends| == 2 && Work(DoTransfer(s, w, r)) < Work(s)
  {
    var t := DoTransfer(s, w, r);
    SameDeadlines(s, t);
    ReadRankUpdate(s.readers, r, t.readers[r]);
    WriteRankUpdate(s.writers, w, t.writers[w]);
  }

  /** A write goes back by at most two steps. */
  lemma CountRanks(s: State, w: nat, r: nat)
    requires |s.ends| == 2 && Enabled(s, Count(w, r))
    ensures var t := DoCount(s, w, r);
            && |t.ends| == 2 && |t.readers| == |s.readers| && |t.writers| == |s.writers|
            && t.readers == s.readers[r := t.readers[r]] && t.writers == s.writers[w := t.writers[w]]
            && Rank(s.readers[r].pc) == 1 && Rank(t.readers[r].pc) == 0
            && Rank(s.writers[w].pc) == 1 && Rank(t.writers[w].pc) <= 3
            && forall e | 0 <= e < 2 :: t.ends[e].rd == s.ends[e].rd && t.ends[e].wr == s.ends[e].wr
  {
  }

  lemma CountUsesWork(s: State, w: nat, r: nat)
    requires |s.ends| == 2 && Enabled(s, Count(w, r))
    ensures |DoCount(s, w, r).ends| == 2 && Work(DoCount(s, w, r)) < Work(s)
  {
    var t := DoCount(s, w, r);
    CountRanks(s, w, r);
    SameDeadlines(s, t);
    ReadRankUpdate(s.readers, r, t.readers[r]);
    WriteRankUpdate(s.writers, w, t.writers[w]);
  }

  lemma SetUsesWork(s: State, a: Action)
    requires |s.ends| == 2 && DeadlinesOk(s) && Enabled(s, a) && Inner(a) && (a.SetReadDeadline? || a.SetWriteDeadline?)
    ensures |Step(s, a).ends| == 2 && Work(Step(s, a)) < Work(s)
  {
    var t := Step(s, a);
    if a.SetReadDeadline? {
      DeadlineUsesWork(s.ends[a.e].rd, a.a);
    } else {
      DeadlineUsesWork(s.ends[a.e].wr, a.a);
    }
    assert CallWork(t) == CallWork(s);
  }

  /** Every inner step uses up some of the work that is left, closed or not: a write that goes back to
      offer its rest does so at the cost of a read. */
  lemma InnerUsesWork(s: State, a: Action)
    requires |s.ends| == 2 && DeadlinesOk(s) && Enabled(s, a) && Inner(a)
    ensures |Step(s, a).ends| == 2 && Work(Step(s, a)) < Work(s)
  {
    match a {
      case ReadStep(r) => ReadMoveUsesWork(s, r);
      case WriteStep(w) => WriteMoveUsesWork(s, w);
      case Transfer(w, r) => TransferUsesWork(s, w, r);
      case Count(w, r) => CountUsesWork(s, w, r);
      case ReadExit(_, _) => ExitUsesWork(s, a);
      case WriteExit(_, _) => ExitUsesWork(s, a);
      case _ => SetUsesWork(s, a);
    }
  }

  predicate AllInner(run: seq<Action>) {
    forall i | 0 <= i < |run| :: Inner(run[i])
  }

  lemma {:induction false} InnerRunsAreBounded(s: State, run: seq<Action>)
    requires |s.ends| == 2 && DeadlinesOk(s) && Runs(s, run) && AllInner(run)
    ensures |run| + Work(Exec(s, run)) <= Work(s)
    decreases |run|
  {
    if run != [] {
      InnerUsesWork(s, run[0]);
      DeadlinesKept(s, run[0]);
      InnerRunsAreBounded(Step(s, run[0]), run[1..]);
    }
  }

  // ---- after a close ----

  predicate AllDone(s: State) {
    && (forall r | 0 <= r < |s.readers| :: s.readers[r].pc.Done?)
    && (forall w | 0 <= w < |s.writers| :: s.writers[w].pc.Done?)
  }

  predicate Closed(s: State) {
    EitherEndClosed(s, 0) || EitherEndClosed(s, 1)
  }

  /** Both ends see it. */
  lemma ClosedForBoth(s: State, e: nat)
    requires Closed(s) && e < 2
    ensures EitherEndClosed(s, e)
  {
  }

  lemma {:induction false} ExecSnoc(s: State, run: seq<Action>, a: Action)
    requires |s.ends| == 2 && Runs(s, run) && Enabled(Exec(s, run), a)
    ensures Runs(s, run + [a]) && Exec(s, run + [a]) == Step(Exec(s, run), a)
    decreases |run|
  {
    if run == [] {
      assert run + [a] == [a] && [a][1..] == [];
      assert |Step(s, a).ends| == 2 && Runs(Step(s, a), []);
    } else {
      assert (run + [a])[1..] == run[1..] + [a];
      ExecSnoc(Step(s, run[0]), run[1..], a);
    }
  }

  lemma ReachableStep(s: State, a: Action)
    requires Reachable(s) && Enabled(s, a)
    ensures Reachable(Step(s, a))
  {
    var run :| Reaches(run, s);
    ExecSnoc(INITIAL, run, a);
    assert Reaches(run + [a], Step(s, a));
  }

  lemma StaysClosed(s: State, a: Action)
    requires |s.ends| == 2 && Closed(s) && Enabled(s, a)
    ensures Closed(Step(s, a))
  {
  }

  /** As long as a call is under way, some inner step is enabled. */
  lemma UnfinishedMoves(s: State) returns (a: Action)
    requires Reachable(s) && Closed(s) && !AllDone(s)
    ensures Inner(a) && Enabled(s, a)
  {
    if r: nat :| r < |s.readers| && !s.readers[r].pc.Done? {
      ReachableReader(s, r);
      ClosedForBoth(s, s.readers[r].end);
      ReadsMoveAfterClose(s, r);
      a := ReadProgress(s, r);
    } else {
      var w: nat :| w < |s.writers| && !s.writers[w].pc.Done?;
      a := UnfinishedWriteMoves(s, w);
    }
  }

  lemma UnfinishedWriteMoves(s: State, w: nat) returns (a: Action)
    requires Reachable(s) && Closed(s) && w < |s.writers| && !s.writers[w].pc.Done?
    ensures Inner(a) && Enabled(s, a)
  {
    ReachableWriter(s, w);
    ClosedForBoth(s, s.writers[w].end);
    WritesMoveAfterClose(s, w);
    var lock := s.ends[s.writers[w].end].lock;
    var v := if s.writers[w].pc.Lock? && lock.Some? then lock.value else w;
    ReachableWriter(s, v);
    var r: nat :| Enabled(s, WriteProgress(s, v, r));
    a := WriteProgress(s, v, r);
  }

  lemma {:induction false} InnerRunKeeps(s: State, run: seq<Action>)
    requires Reachable(s) && Closed(s) && Runs(s, run)
    ensures Reachable(Exec(s, run)) && Closed(Exec(s, run))
    decreases |run|
  {
    if run != [] {
      ReachableStep(s, run[0]);
      StaysClosed(s, run[0]);
      InnerRunKeeps(Step(s, run[0]), run[1..]);
    }
  }

  /** Once either end is closed, every call returns, however the steps are scheduled: the calls under way
      take no more steps than a bound read off the state, with each other or alone, and they do not come
      to a halt before all of them have returned. */
  lemma CallsReturnAfterClose(s: State, run: seq<Action>)
    requires Reachable(s) && Closed(s) && Runs(s, run) && AllInner(run)
    ensures |run| <= Work(s)
    ensures AllDone(Exec(s, run)) || exists a :: Inner(a) && Enabled(Exec(s, run), a)
  {
    ReachableInv(s);
    InnerRunsAreBounded(s, run);
    InnerRunKeeps(s, run);
    if !AllDone(Exec(s, run)) {
      var a := UnfinishedMoves(Exec(s, run));
    }
  }

  // ---- open or closed, calls wait for a partner only ----

  lemma ReadMoves(s: State, r: nat) returns (a: Action)
    requires Reachable(s) && r < |s.readers| && !s.readers[r].pc.Done? && !s.readers[r].pc.Select?
    ensures Inner(a) && Enabled(s, a)
  {
    ReachableReader(s, r);
    var e := s.readers[r].end;
    if s.readers[r].pc.Handshake? {
      CountReachesItsWriter(s, r);
      a := Count(s.ends[Peer(e)].lock.value, r);
    } else {
      DeadlineMoves(s.ends[e].rd);
      a := if Enabled(s, ReadStep(r)) then ReadStep(r) else SetReadDeadline(e, ReleaseDeadline(s.ends[e].rd));
    }
  }

  lemma WriteMoves(s: State, w: nat) returns (a: Action)
    requires Reachable(s) && w < |s.writers| && !s.writers[w].pc.Done? && !s.writers[w].pc.Select?
    requires s.writers[w].pc.Lock? ==> s.writers[w].end < |s.ends| && s.ends[s.writers[w].end].lock.None?
    ensures Inner(a) && Enabled(s, a)
  {
    ReachableWriter(s, w);
    var e := s.writers[w].end;
    if s.writers[w].pc.Handshake? {
      CountHasOneReader(s, w);
      var r: nat :| Enabled(s, Count(w, r));
      a := Count(w, r);
    } else {
      DeadlineMoves(s.ends[e].wr);
      a := if Enabled(s, WriteStep(w)) then WriteStep(w) else SetWriteDeadline(e, ReleaseDeadline(s.ends[e].wr));
    }
  }

  /** The write that is to be served before, or with, a given one. */
  lemma ServedFirst(s: State, w: nat) returns (v: nat)
    requires Reachable(s) && w < |s.writers| && !s.writers[w].pc.Done?
    ensures v < |s.writers| && s.writers[v].end == s.writers[w].end && !s.writers[v].pc.Done?
    ensures s.writers[v].pc.Lock? ==> s.ends[s.writers[v].end].lock.None?
  {
    ReachableInv(s);
    assert WriterOk(s, w);
    v := w;
    if s.writers[w].pc.Lock? && s.ends[s.writers[w].end].lock.Some? {
      v := s.ends[s.writers[w].end].lock.value;
      assert WriterOk(s, v);
    }
  }

  /** Data that is offered is passed on: as long as there are an unfinished read at one end and an unfinished
      write at the other, some call can go on. (So calls come to rest with all reads of an end, or all
      writes of the other, finished.) */
  lemma OppositesMove(s: State, w: nat, r: nat) returns (a: Action)
    requires Reachable(s) && w < |s.writers| && r < |s.readers|
    requires s.writers[w].end != s.readers[r].end && !s.writers[w].pc.Done? && !s.readers[r].pc.Done?
    ensures Inner(a) && Enabled(s, a)
  {
    var v := ServedFirst(s, w);
    if !s.readers[r].pc.Select? {
      a := ReadMoves(s, r);
    } else if !s.writers[v].pc.Select? {
      a := WriteMoves(s, v);
    } else {
      ReachableReader(s, r);
      ReachableWriter(s, v);
      a := Transfer(v, r);
    }
  }

  lemma OuterDeadline(d: D.State, a: D.Action)
    requires D.Inv(d) && D.Enabled(d, a)
    ensures DeadlineWork(D.Step(d, a)) <= DeadlineWork(d) + 2
  {
    if a.Callback? { assert d.timer == Some(a.i); }
  }

  lemma RankSumSnoc(pcs: seq<Pc>, pc: Pc)
    ensures RankSum(pcs + [pc]) == RankSum(pcs) + Rank(pc)
  {
    assert (pcs + [pc])[..|pcs|] == pcs;
  }

  lemma CallAddsWork(s: State, a: Action)
    requires |s.ends| == 2 && Enabled(s, a) && (a.Read? || a.Write? || a.Close?)
    ensures |Step(s, a).ends| == 2 && Work(Step(s, a)) <= Work(s) + 32
  {
    var t := Step(s, a);
    assert t.ends == s.ends;
    if a.Read? {
      RankSumSnoc(ReadPcs(s.readers), CheckLocal);
      assert ReadPcs(t.readers) == ReadPcs(s.readers) + [CheckLocal];
    } else if a.Write? {
      RankSumSnoc(WritePcs(s.writers), CheckLocal);
      assert WritePcs(t.writers) == WritePcs(s.writers) + [CheckLocal];
    }
  }

  lemma SetAddsWork(s: State, a: Action)
    requires |s.ends| == 2 && DeadlinesOk(s) && Enabled(s, a) && (a.SetReadDeadline? || a.SetWriteDeadline?)
    ensures |Step(s, a).ends| == 2 && Work(Step(s, a)) <= Work(s) + 2
  {
    var t := Step(s, a);
    if a.SetReadDeadline? {
      OuterDeadline(s.ends[a.e].rd, a.a);
    } else {
      OuterDeadline(s.ends[a.e].wr, a.a);
    }
    assert CallWork(t) == CallWork(s);
  }

  /** What comes from outside, a new call or a new deadline, adds a bounded amount of work. */
  lemma OuterAddsWork(s: State, a: Action)
    requires |s.ends| == 2 && DeadlinesOk(s) && Enabled(s, a) && !Inner(a)
    ensures |Step(s, a).ends| == 2 && Work(Step(s, a)) <= Work(s) + 32
  {
    if a.SetReadDeadline? || a.SetWriteDeadline? { SetAddsWork(s, a); } else { CallAddsWork(s, a); }
  }

  /** The number of inner steps of a run. */
  function InnerSteps(run: seq<Action>): nat {
    if run == [] then 0 else (if Inner(run[0]) then 1 else 0) + InnerSteps(run[1..])
  }

  /** In any run at all, of an open pipe too, inner steps are paid for by what comes from outside. */
  lemma {:induction false} InnerStepsAreBounded(s: State, run: seq<Action>)
    requires |s.ends| == 2 && DeadlinesOk(s) && Runs(s, run)
    ensures InnerSteps(run) <= |run| && InnerSteps(run) + Work(Exec(s, run)) <= Work(s) + 32 * (|run| - InnerSteps(run))
    decreases |run|
  {
    if run != [] {
      if Inner(run[0]) { InnerUsesWork(s, run[0]); } else { OuterAddsWork(s, run[0]); }
      DeadlinesKept(s, run[0]);
      InnerStepsAreBounded(Step(s, run[0]), run[1..]);
    }
  }
}
