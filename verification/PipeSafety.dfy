/** What every interleaving of the pipe keeps, and what it means for its callers. */
module PipeSafety {
  import opened Prelude
  import D = Deadline
  import opened Pipe
  import opened Pigeonhole

  /** The bytes copied out by the listed reads, in order. */
  function BytesRead(readers: seq<Reader>, received: seq<nat>): seq<byte> {
    if received == [] then []
    else
      var r := received[|received| - 1];
      BytesRead(readers, received[..|received| - 1]) + (if r < |readers| then readers[r].got else [])
  }

  /** The consumed prefix of a write. */
  function Consumed(x: Writer): seq<byte> {
    if x.taken <= |x.data| then x.data[..x.taken] else x.data
  }

  /** The consumed prefixes of the listed writes, in order. */
  function BytesWritten(writers: seq<Writer>, order: seq<nat>): seq<byte> {
    if order == [] then []
    else
      var w := order[|order| - 1];
      BytesWritten(writers, order[..|order| - 1]) + (if w < |writers| then Consumed(writers[w]) else [])
  }

  predicate Holding(pc: Pc) {
    pc.Enter? || pc.Select? || pc.Handshake?
  }

  predicate BeforeLock(pc: Pc) {
    pc.CheckLocal? || pc.CheckRemote? || pc.WaitDeadline? || pc.CheckDeadline? || pc.Lock?
  }

  /** A captured deadline channel is one that `Wait` handed out. */
  predicate Captured(pc: Pc, d: D.State) {
    (pc.CheckDeadline? || pc.Select?) ==> pc.ch in d.handed
  }

  ghost predicate Shape(s: State) {
    && |s.ends| == 2
    && (forall r | 0 <= r < |s.readers| :: s.readers[r].end < 2)
    && (forall w | 0 <= w < |s.writers| :: s.writers[w].end < 2)
    && (forall e, k | 0 <= e < 2 && 0 <= k < |s.ends[e].order| ::
          s.ends[e].order[k] < |s.writers| && s.writers[s.ends[e].order[k]].end == e)
    && (forall e, k | 0 <= e < 2 && 0 <= k < |s.ends[e].received| ::
          s.ends[e].received[k] < |s.readers| && s.readers[s.ends[e].received[k]].end == e)
    && (forall e | 0 <= e < 2 && s.ends[e].lock.Some? ::
          s.ends[e].lock.value < |s.writers| && s.writers[s.ends[e].lock.value].end == e)
  }

  ghost predicate DeadlinesOk(s: State)
    requires |s.ends| == 2
  {
    forall e | 0 <= e < 2 :: D.Inv(s.ends[e].rd) && D.Inv(s.ends[e].wr)
  }

  ghost predicate WriterOk(s: State, w: nat)
    requires Shape(s) && w < |s.writers|
  {
    var x := s.writers[w];
    var end := s.ends[x.end];
    && x.n <= x.taken <= |x.data| && x.rest == x.data[x.n..]
    && (Holding(x.pc) <==> end.lock == Some(w))
    && (Holding(x.pc) ==> |end.order| > 0 && end.order[|end.order| - 1] == w && w !in end.order[..|end.order| - 1])
    && (BeforeLock(x.pc) ==> w !in end.order && x.n == 0)
    && (!x.pc.Handshake? ==> x.taken == x.n)
    && (w !in end.order ==> x.taken == 0)
    && (x.pc == Done(Nil) ==> x.n == |x.data|)
    && x.pc != Done(EOF)
    && Captured(x.pc, end.wr)
  }

  ghost predicate ReaderOk(s: State, r: nat)
    requires Shape(s) && r < |s.readers|
  {
    var x := s.readers[r];
    && x.n == |x.got| <= x.room
    && !x.pc.Lock?
    && (r in s.ends[x.end].received <==> (x.pc.Handshake? || x.pc == Done(Nil)))
    && (r !in s.ends[x.end].received ==> x.got == [])
    && Captured(x.pc, s.ends[x.end].rd)
  }

  /** The writer whose bytes reader `r` holds while the count is outstanding. */
  ghost predicate Owes(s: State, r: nat, w: nat)
    requires Shape(s)
  {
    && r < |s.readers| && w < |s.writers|
    && s.readers[r].pc.Handshake? && s.writers[w].pc.Handshake?
    && s.readers[r].end == Peer(s.writers[w].end)
    && s.readers[r].got <= s.writers[w].rest
    && s.writers[w].taken == s.writers[w].n + |s.readers[r].got|
  }

  /** Every reader that owes a count owes it to the write that holds the lock of the other end. */
  ghost predicate ReadersOwe(s: State)
    requires Shape(s)
  {
    forall r | 0 <= r < |s.readers| && s.readers[r].pc.Handshake? ::
      var lock := s.ends[Peer(s.readers[r].end)].lock; lock.Some? && Owes(s, r, lock.value)
  }

  ghost predicate WritersAwait(s: State)
    requires Shape(s)
  {
    forall w | 0 <= w < |s.writers| && s.writers[w].pc.Handshake? :: exists r :: Owes(s, r, w)
  }

  ghost predicate OneAtATime(s: State)
    requires Shape(s)
  {
    forall q, r | 0 <= q < |s.readers| && 0 <= r < |s.readers| && s.readers[q].pc.Handshake?
                  && s.readers[r].pc.Handshake? && s.readers[q].end == s.readers[r].end :: q == r
  }

  /** Counts are owed one to one. */
  ghost predicate Paired(s: State)
    requires Shape(s)
  {
    ReadersOwe(s) && WritersAwait(s) && OneAtATime(s)
  }

  ghost predicate StreamAt(s: State, e: nat)
    requires Shape(s) && e < 2
  {
    BytesRead(s.readers, s.ends[Peer(e)].received) == BytesWritten(s.writers, s.ends[e].order)
  }

  ghost predicate Streams(s: State)
    requires Shape(s)
  {
    StreamAt(s, 0) && StreamAt(s, 1)
  }

  /** No call is listed twice. */
  ghost predicate Once(s: State)
    requires Shape(s)
  {
    forall e | 0 <= e < 2 :: Distinct(s.ends[e].order) && Distinct(s.ends[e].received)
  }

  ghost predicate WritersOk(s: State)
    requires Shape(s)
  {
    forall w | 0 <= w < |s.writers| :: WriterOk(s, w)
  }

  ghost predicate ReadersOk(s: State)
    requires Shape(s)
  {
    forall r | 0 <= r < |s.readers| :: ReaderOk(s, r)
  }

  ghost predicate Inv(s: State) {
    Shape(s) && DeadlinesOk(s) && WritersOk(s) && ReadersOk(s) && Paired(s) && Streams(s) && Once(s)
  }

  // ---- frames ----

  lemma {:induction false} FrameRead(xs: seq<Reader>, ys: seq<Reader>, ids: seq<nat>)
    requires forall k | 0 <= k < |ids| :: ids[k] < |xs| && ids[k] < |ys| && xs[ids[k]].got == ys[ids[k]].got
    ensures BytesRead(xs, ids) == BytesRead(ys, ids)
  {
    if ids != [] {
      assert ids[|ids| - 1] < |xs|;
      FrameRead(xs, ys, ids[..|ids| - 1]);
    }
  }

  lemma {:induction false} FrameWritten(xs: seq<Writer>, ys: seq<Writer>, ids: seq<nat>)
    requires forall k | 0 <= k < |ids| :: ids[k] < |xs| && ids[k] < |ys| && Consumed(xs[ids[k]]) == Consumed(ys[ids[k]])
    ensures BytesWritten(xs, ids) == BytesWritten(ys, ids)
  {
    if ids != [] {
      assert ids[|ids| - 1] < |xs|;
      FrameWritten(xs, ys, ids[..|ids| - 1]);
    }
  }

  /** No call that was under way in `s` has different bytes in `t`. */
  ghost predicate SameBytes(s: State, t: State) {
    && |s.readers| <= |t.readers| && |s.writers| <= |t.writers|
    && (forall r | 0 <= r < |s.readers| :: t.readers[r].got == s.readers[r].got)
    && (forall w | 0 <= w < |s.writers| :: Consumed(t.writers[w]) == Consumed(s.writers[w]))
  }

  lemma FrameStreamAt(s: State, t: State, e: nat)
    requires Shape(s) && Shape(t) && e < 2 && StreamAt(s, e) && SameBytes(s, t)
    requires t.ends[e].order == s.ends[e].order && t.ends[Peer(e)].received == s.ends[Peer(e)].received
    ensures StreamAt(t, e)
  {
    FrameRead(s.readers, t.readers, s.ends[Peer(e)].received);
    FrameWritten(s.writers, t.writers, s.ends[e].order);
  }

  lemma FramePaired(s: State, t: State)
    requires Shape(s) && Shape(t) && Paired(s)
    requires |s.readers| <= |t.readers| && |s.writers| <= |t.writers|
    requires forall r | 0 <= r < |t.readers| && t.readers[r].pc.Handshake? ::
        r < |s.readers| && t.readers[r] == s.readers[r]
    requires forall w | 0 <= w < |t.writers| && t.writers[w].pc.Handshake? ::
        w < |s.writers| && t.writers[w] == s.writers[w]
    requires forall r | 0 <= r < |s.readers| && s.readers[r].pc.Handshake? :: t.readers[r] == s.readers[r]
    requires forall w | 0 <= w < |s.writers| && s.writers[w].pc.Handshake? :: t.writers[w] == s.writers[w]
    requires forall e | 0 <= e < 2 && s.ends[e].lock.Some? && s.ends[e].lock.value < |s.writers| &&
      s.writers[s.ends[e].lock.value].pc.Handshake? ::
               t.ends[e].lock == s.ends[e].lock
    ensures Paired(t)
  {
    forall w | 0 <= w < |t.writers| && t.writers[w].pc.Handshake?
      ensures exists r :: Owes(t, r, w)
    {
      var r :| Owes(s, r, w);
      assert Owes(t, r, w);
    }
  }

  /** A writer that the step leaves alone; `v` is the writer that takes a lock, if any. */
  lemma FrameWriter(s: State, t: State, w: nat, v: nat)
    requires Shape(s) && Shape(t) && w < |s.writers| && w < |t.writers| && WriterOk(s, w)
    requires t.writers[w] == s.writers[w]
    requires var x, y := s.ends[s.writers[w].end], t.ends[s.writers[w].end];
             && x.wr.handed <= y.wr.handed
             && (y.lock == Some(w) <==> x.lock == Some(w))
             && (y.order == x.order || (y.order == x.order + [v] && v != w && x.lock != Some(w)))
    ensures WriterOk(t, w)
  {
  }

  /** A reader that the step leaves alone; `q` is the reader that receives bytes, if any. */
  lemma FrameReader(s: State, t: State, r: nat, q: nat)
    requires Shape(s) && Shape(t) && r < |s.readers| && r < |t.readers| && ReaderOk(s, r)
    requires t.readers[r] == s.readers[r]
    requires var x, y := s.ends[s.readers[r].end], t.ends[s.readers[r].end];
             && x.rd.handed <= y.rd.handed
             && (y.received == x.received || (y.received == x.received + [q] && q != r))
    ensures ReaderOk(t, r)
  {
  }

  // ---- every step keeps the shape and what each call knows ----

  ghost predicate Ok(s: State) {
    Shape(s) && WritersOk(s) && ReadersOk(s)
  }

  lemma DeadlinesKept(s: State, a: Action)
    requires |s.ends| == 2 && DeadlinesOk(s) && Enabled(s, a)
    ensures DeadlinesOk(Step(s, a))
  {
    forall e, d | 0 <= e < 2 && D.Enabled(s.ends[e].rd, d)
      ensures D.Inv(D.Step(s.ends[e].rd, d))
    {
      D.StepKeepsInv(s.ends[e].rd, d);
    }
    forall e, d | 0 <= e < 2 && D.Enabled(s.ends[e].wr, d)
      ensures D.Inv(D.Step(s.ends[e].wr, d))
    {
      D.StepKeepsInv(s.ends[e].wr, d);
    }
  }

  lemma CallKeepsOk(s: State, a: Action)
    requires Ok(s) && Enabled(s, a) && (a.Read? || a.Write? || a.Close?)
    ensures Ok(Step(s, a))
  {
    var t := Step(s, a);
    assert Shape(t);
    forall w | 0 <= w < |t.writers| ensures WriterOk(t, w) {
      if w < |s.writers| { assert WriterOk(s, w); FrameWriter(s, t, w, 0); }
    }
    forall r | 0 <= r < |t.readers| ensures ReaderOk(t, r) {
      if r < |s.readers| { assert ReaderOk(s, r); FrameReader(s, t, r, 0); }
    }
  }

  lemma HandedGrows(d: D.State, a: D.Action)
    requires D.Enabled(d, a)
    ensures d.handed <= D.Step(d, a).handed
  {
  }

  lemma SetKeepsOk(s: State, a: Action)
    requires Ok(s) && Enabled(s, a) && (a.SetReadDeadline? || a.SetWriteDeadline?)
    ensures Ok(Step(s, a))
  {
    var t := Step(s, a);
    if a.SetReadDeadline? { HandedGrows(s.ends[a.e].rd, a.a); } else { HandedGrows(s.ends[a.e].wr, a.a); }
    DeadlineStepKeepsOk(s, t, a.e, t.ends[a.e].rd, t.ends[a.e].wr);
  }

  /** Only the deadlines of an end change. */
  lemma DeadlineStepKeepsOk(s: State, t: State, e: nat, rd: D.State, wr: D.State)
    requires Ok(s) && e < 2 && t == SetEnd(s, e, s.ends[e].(rd := rd, wr := wr))
    requires s.ends[e].rd.handed <= rd.handed && s.ends[e].wr.handed <= wr.handed
    ensures Ok(t)
  {
    assert Shape(t);
    forall w | 0 <= w < |t.writers| ensures WriterOk(t, w) { assert WriterOk(s, w); FrameWriter(s, t, w, 0); }
    forall r | 0 <= r < |t.readers| ensures ReaderOk(t, r) { assert ReaderOk(s, r); FrameReader(s, t, r, 0); }
  }

  lemma ReadMoveKeepsOk(s: State, q: nat)
    requires Ok(s) && Enabled(s, ReadStep(q))
    ensures Ok(ReadMove(s, q))
  {
    var t := ReadMove(s, q);
    assert Shape(t);
    forall w | 0 <= w < |t.writers| ensures WriterOk(t, w) { assert WriterOk(s, w); FrameWriter(s, t, w, 0); }
    forall r | 0 <= r < |t.readers| ensures ReaderOk(t, r) {
      assert ReaderOk(s, r);
      if r != q { FrameReader(s, t, r, 0); }
    }
  }

  lemma WriteMoveKeepsOk(s: State, v: nat)
    requires Ok(s) && Enabled(s, WriteStep(v))
    ensures Ok(WriteMove(s, v))
  {
    var t := WriteMove(s, v);
    assert Shape(t);
    forall w | 0 <= w < |t.writers| ensures WriterOk(t, w) {
      assert WriterOk(s, w);
      if w != v { FrameWriter(s, t, w, v); } else { WriterMoved(s, v); }
    }
    forall r | 0 <= r < |t.readers| ensures ReaderOk(t, r) { assert ReaderOk(s, r); FrameReader(s, t, r, 0); }
  }

  lemma WriterMoved(s: State, v: nat)
    requires Shape(s) && Enabled(s, WriteStep(v)) && WriterOk(s, v) && Shape(WriteMove(s, v))
    ensures WriterOk(WriteMove(s, v), v)
  {
    var x := s.writers[v];
    var order := s.ends[x.end].order;
    assert (order + [v])[..|order|] == order;
  }

  lemma ReadExitKeepsOk(s: State, q: nat, cause: Cause)
    requires Ok(s) && Enabled(s, ReadExit(q, cause))
    ensures Ok(Step(s, ReadExit(q, cause)))
  {
    var t := Step(s, ReadExit(q, cause));
    assert t.ends == s.ends && t.writers == s.writers;
    assert Shape(t);
    forall w | 0 <= w < |t.writers| ensures WriterOk(t, w) { assert WriterOk(s, w); FrameWriter(s, t, w, 0); }
    forall r | 0 <= r < |t.readers| ensures ReaderOk(t, r) {
      assert ReaderOk(s, r);
      if r != q { FrameReader(s, t, r, 0); }
    }
  }

  lemma WriterExited(s: State, v: nat, cause: Cause)
    requires Shape(s) && Enabled(s, WriteExit(v, cause)) && WriterOk(s, v) && Shape(Step(s, WriteExit(v, cause)))
    ensures WriterOk(Step(s, WriteExit(v, cause)), v)
  {
  }

  lemma WriteExitKeepsOk(s: State, v: nat, cause: Cause)
    requires Ok(s) && Enabled(s, WriteExit(v, cause))
    ensures Ok(Step(s, WriteExit(v, cause)))
  {
    var t := Step(s, WriteExit(v, cause));
    assert WriterOk(s, v);
    assert Shape(t);
    forall w | 0 <= w < |t.writers| ensures WriterOk(t, w) {
      assert WriterOk(s, w);
      if w != v { FrameWriter(s, t, w, 0); } else { WriterExited(s, v, cause); }
    }
    forall r | 0 <= r < |t.readers| ensures ReaderOk(t, r) { assert ReaderOk(s, r); FrameReader(s, t, r, 0); }
  }

  lemma WriterTransferred(s: State, v: nat, q: nat)
    requires Shape(s) && Enabled(s, Transfer(v, q)) && WriterOk(s, v) && Shape(DoTransfer(s, v, q))
    ensures WriterOk(DoTransfer(s, v, q), v)
  {
    var e := s.writers[v].end;
    assert DoTransfer(s, v, q).ends[e] == s.ends[e];
  }

  lemma ReaderTransferred(s: State, v: nat, q: nat)
    requires Shape(s) && Enabled(s, Transfer(v, q)) && ReaderOk(s, q) && Shape(DoTransfer(s, v, q))
    ensures ReaderOk(DoTransfer(s, v, q), q)
  {
    var t, e := DoTransfer(s, v, q), s.readers[q].end;
    assert t.ends[e].received == s.ends[e].received + [q];
    assert q in t.ends[e].received;
  }

  lemma TransferKeepsOk(s: State, v: nat, q: nat)
    requires Ok(s) && Enabled(s, Transfer(v, q))
    ensures Ok(DoTransfer(s, v, q))
  {
    var t := DoTransfer(s, v, q);
    assert Shape(t);
    forall w | 0 <= w < |t.writers| ensures WriterOk(t, w) {
      assert WriterOk(s, w);
      if w != v { FrameWriter(s, t, w, 0); } else { WriterTransferred(s, v, q); }
    }
    forall r | 0 <= r < |t.readers| ensures ReaderOk(t, r) {
      assert ReaderOk(s, r);
      if r != q { FrameReader(s, t, r, q); } else { ReaderTransferred(s, v, q); }
    }
  }

  lemma RestOfRest(data: seq<byte>, n: nat, m: nat)
    requires n + m <= |data|
    ensures data[n..][m..] == data[n + m..]
  {
  }

  lemma WriterCounted(s: State, v: nat, q: nat)
    requires Shape(s) && Enabled(s, Count(v, q)) && Owes(s, q, v) && WriterOk(s, v) && ReaderOk(s, q)
    requires Shape(DoCount(s, v, q))
    ensures WriterOk(DoCount(s, v, q), v)
  {
    var x, y, t := s.readers[q], s.writers[v], DoCount(s, v, q);
    RestOfRest(y.data, y.n, x.n);
    var z := t.writers[v];
    assert z.n == z.taken <= |z.data| && z.rest == z.data[z.n..];
    assert t.ends[y.end].order == s.ends[y.end].order && t.ends[y.end].wr == s.ends[y.end].wr;
    if z.rest == [] {
      assert z.pc == Done(Nil) && t.ends[y.end].lock == None;
    } else {
      assert z.pc == Enter && t.ends == s.ends;
    }
  }

  lemma ReaderCounted(s: State, v: nat, q: nat)
    requires Shape(s) && Enabled(s, Count(v, q)) && ReaderOk(s, q) && Shape(DoCount(s, v, q))
    ensures ReaderOk(DoCount(s, v, q), q)
  {
  }

  /** What a count leaves alone. */
  lemma CountFrame(s: State, v: nat, q: nat)
    requires Shape(s) && Enabled(s, Count(v, q)) && WriterOk(s, v)
    ensures var t := DoCount(s, v, q);
            && Shape(t) && s.ends[s.writers[v].end].lock == Some(v)
            && |t.readers| == |s.readers| && |t.writers| == |s.writers|
            && (forall r | 0 <= r < |s.readers| && r != q :: t.readers[r] == s.readers[r])
            && (forall w | 0 <= w < |s.writers| && w != v :: t.writers[w] == s.writers[w])
            && forall e | 0 <= e < 2 ::
                 && t.ends[e] == s.ends[e].(lock := t.ends[e].lock)
                 && (t.ends[e].lock == s.ends[e].lock || (s.ends[e].lock == Some(v) && t.ends[e].lock == None))
  {
  }

  lemma CountKeepsOk(s: State, v: nat, q: nat)
    requires Ok(s) && Enabled(s, Count(v, q)) && Owes(s, q, v)
    ensures Ok(DoCount(s, v, q))
  {
    var t := DoCount(s, v, q);
    assert WriterOk(s, v) && ReaderOk(s, q);
    CountFrame(s, v, q);
    forall w | 0 <= w < |t.writers| ensures WriterOk(t, w) {
      if w != v { assert WriterOk(s, w); FrameWriter(s, t, w, 0); } else { WriterCounted(s, v, q); }
    }
    forall r | 0 <= r < |t.readers| ensures ReaderOk(t, r) {
      if r != q { assert ReaderOk(s, r); FrameReader(s, t, r, 0); } else { ReaderCounted(s, v, q); }
    }
  }

  /** A reader can hand its count only to the write whose bytes it copied. */
  lemma CountFindsItsWriter(s: State, w: nat, r: nat)
    requires Ok(s) && Paired(s) && w < |s.writers| && r < |s.readers|
    requires s.writers[w].pc.Handshake? && s.readers[r].pc.Handshake?
    requires Wire(s.readers[r].end).rdTx == Wire(s.writers[w].end).wrRx
    ensures Owes(s, r, w) && Enabled(s, Count(w, r))
  {
    assert WriterOk(s, w) && ReaderOk(s, r);
  }

  // ---- every step keeps the pairing of the handshakes ----

  /** A step of a call that exchanges nothing leaves the calls in a handshake alone. */
  lemma LocalStepKeepsHandshakes(s: State, a: Action)
    requires Shape(s) && Enabled(s, a) && !a.Transfer? && !a.Count?
    ensures var t := Step(s, a);
            && |s.readers| <= |t.readers| && |s.writers| <= |t.writers|
            && (forall r | 0 <= r < |t.readers| && t.readers[r].pc.Handshake? ::
                r < |s.readers| && t.readers[r] == s.readers[r])
            && (forall w | 0 <= w < |t.writers| && t.writers[w].pc.Handshake? ::
                w < |s.writers| && t.writers[w] == s.writers[w])
            && (forall r | 0 <= r < |s.readers| && s.readers[r].pc.Handshake? :: t.readers[r] == s.readers[r])
            && (forall w | 0 <= w < |s.writers| && s.writers[w].pc.Handshake? :: t.writers[w] == s.writers[w])
  {
  }

  /** Nor does it take a lock away from a write in a handshake. */
  lemma LocalStepKeepsLocks(s: State, a: Action, e: nat)
    requires Shape(s) && Enabled(s, a) && !a.Transfer? && !a.Count? && (a.WriteExit? ==> WriterOk(s, a.w))
    requires e < 2 && s.ends[e].lock.Some? && s.writers[s.ends[e].lock.value].pc.Handshake?
    ensures |Step(s, a).ends| == 2 && Step(s, a).ends[e].lock == s.ends[e].lock
  {
  }

  lemma LocalStepKeepsPaired(s: State, a: Action)
    requires Shape(s) && Paired(s) && Enabled(s, a) && !a.Transfer? && !a.Count? && Shape(Step(s, a))
    requires a.WriteExit? ==> WriterOk(s, a.w)
    ensures Paired(Step(s, a))
  {
    LocalStepKeepsHandshakes(s, a);
    forall e | 0 <= e < 2 && s.ends[e].lock.Some? && s.writers[s.ends[e].lock.value].pc.Handshake?
      ensures Step(s, a).ends[e].lock == s.ends[e].lock
    {
      LocalStepKeepsLocks(s, a, e);
    }
    FramePaired(s, Step(s, a));
  }

  lemma FrameOwes(s: State, t: State, r: nat, w: nat)
    requires Shape(s) && Shape(t) && Owes(s, r, w)
    requires r < |t.readers| && t.readers[r] == s.readers[r] && w < |t.writers| && t.writers[w] == s.writers[w]
    ensures Owes(t, r, w)
  {
  }

  /** The end at which a transfer is about to happen has no count outstanding. */
  lemma TransferFindsNoDebt(s: State, v: nat, q: nat, r: nat)
    requires Shape(s) && ReadersOwe(s) && Enabled(s, Transfer(v, q)) && WriterOk(s, v)
    requires r < |s.readers| && s.readers[r].pc.Handshake?
    ensures s.readers[r].end != s.readers[q].end && s.ends[Peer(s.readers[r].end)].lock != Some(v)
  {
    assert Owes(s, r, s.ends[Peer(s.readers[r].end)].lock.value);
  }

  /** Writers that the step leaves alone keep their readers. */
  lemma OtherWritersAwait(s: State, t: State, v: nat, q: nat)
    requires Shape(s) && Shape(t) && WritersAwait(s)
    requires |t.readers| == |s.readers| && |t.writers| == |s.writers|
    requires forall r | 0 <= r < |s.readers| && r != q :: t.readers[r] == s.readers[r]
    requires forall w | 0 <= w < |s.writers| && w != v :: t.writers[w] == s.writers[w]
    requires forall w | 0 <= w < |s.writers| && w != v && s.writers[w].pc.Handshake? :: !Owes(s, q, w)
    ensures forall w | 0 <= w < |t.writers| && t.writers[w].pc.Handshake? && w != v :: exists r :: Owes(t, r, w)
  {
    forall w | 0 <= w < |t.writers| && t.writers[w].pc.Handshake? && w != v
      ensures exists r :: Owes(t, r, w)
    {
      var r :| Owes(s, r, w);
      FrameOwes(s, t, r, w);
    }
  }

  lemma TransferKeepsReadersOwe(s: State, v: nat, q: nat)
    requires Shape(s) && Paired(s) && Enabled(s, Transfer(v, q)) && Shape(DoTransfer(s, v, q)) && WriterOk(s, v)
    ensures Owes(DoTransfer(s, v, q), q, v) && ReadersOwe(DoTransfer(s, v, q)) && OneAtATime(DoTransfer(s, v, q))
  {
    var t := DoTransfer(s, v, q);
    assert Owes(t, q, v);
    forall r | 0 <= r < |t.readers| && t.readers[r].pc.Handshake? && r != q
      ensures t.readers[r].end != t.readers[q].end && s.readers[r].pc.Handshake?
      ensures var lock := t.ends[Peer(t.readers[r].end)].lock; lock.Some? && Owes(t, r, lock.value)
    {
      TransferFindsNoDebt(s, v, q, r);
      FrameOwes(s, t, r, s.ends[Peer(s.readers[r].end)].lock.value);
    }
  }

  lemma TransferKeepsPaired(s: State, v: nat, q: nat)
    requires Shape(s) && Paired(s) && Enabled(s, Transfer(v, q)) && Shape(DoTransfer(s, v, q)) && WriterOk(s, v)
    ensures Paired(DoTransfer(s, v, q))
  {
    TransferKeepsReadersOwe(s, v, q);
    OtherWritersAwait(s, DoTransfer(s, v, q), v, q);
  }

  lemma CountKeepsReadersOwe(s: State, v: nat, q: nat)
    requires Shape(s) && Paired(s) && Enabled(s, Count(v, q)) && Owes(s, q, v) && Shape(DoCount(s, v, q))
    ensures ReadersOwe(DoCount(s, v, q)) && OneAtATime(DoCount(s, v, q))
  {
    var t := DoCount(s, v, q);
    forall r | 0 <= r < |t.readers| && t.readers[r].pc.Handshake?
      ensures s.readers[r].pc.Handshake? && t.readers[r] == s.readers[r]
      ensures var lock := t.ends[Peer(t.readers[r].end)].lock; lock.Some? && Owes(t, r, lock.value)
    {
      assert r != q && s.readers[r].end != s.readers[q].end;
      FrameOwes(s, t, r, s.ends[Peer(s.readers[r].end)].lock.value);
    }
  }

  lemma CountKeepsPaired(s: State, v: nat, q: nat)
    requires Shape(s) && Paired(s) && Enabled(s, Count(v, q)) && Owes(s, q, v) && Shape(DoCount(s, v, q))
    requires forall w | 0 <= w < |s.writers| && s.writers[w].pc.Handshake? :: s.ends[s.writers[w].end].lock == Some(w)
    ensures Paired(DoCount(s, v, q))
  {
    var t := DoCount(s, v, q);
    CountKeepsReadersOwe(s, v, q);
    OtherWritersAwait(s, t, v, q);
    assert !t.writers[v].pc.Handshake?;
  }

  // ---- every step keeps the streams equal ----

  lemma LocalStepKeepsBytes(s: State, a: Action)
    requires |s.ends| == 2 && Enabled(s, a) && !a.Transfer? && (a.WriteStep? ==> !s.writers[a.w].pc.Lock?)
    ensures var t := Step(s, a);
            SameBytes(s, t) && |t.ends| == 2
            && forall e | 0 <= e < 2 :: t.ends[e].order == s.ends[e].order && t.ends[e].received == s.ends[e].received
  {
  }

  /** A write that takes the lock joins the stream with an empty prefix. */
  lemma LockExtendsStream(s: State, v: nat)
    requires Shape(s) && Enabled(s, WriteStep(v)) && s.writers[v].pc.Lock? && WriterOk(s, v)
    requires StreamAt(s, s.writers[v].end) && Shape(WriteMove(s, v))
    ensures StreamAt(WriteMove(s, v), s.writers[v].end)
  {
    var t, e := WriteMove(s, v), s.writers[v].end;
    assert (s.ends[e].order + [v])[..|s.ends[e].order|] == s.ends[e].order;
    FrameRead(s.readers, t.readers, s.ends[Peer(e)].received);
    FrameWritten(s.writers, t.writers, s.ends[e].order);
    assert Consumed(t.writers[v]) == [];
  }

  /** The heart of the matter: the bytes that a reader copies extend both streams alike. */
  lemma TransferExtendsStream(s: State, v: nat, q: nat)
    requires Shape(s) && Enabled(s, Transfer(v, q)) && WriterOk(s, v) && ReaderOk(s, q)
    requires StreamAt(s, s.writers[v].end) && Shape(DoTransfer(s, v, q))
    ensures StreamAt(DoTransfer(s, v, q), s.writers[v].end)
  {
    TransferExtendsReads(s, v, q);
    TransferExtendsWrites(s, v, q);
  }

  lemma TransferExtendsReads(s: State, v: nat, q: nat)
    requires Shape(s) && Enabled(s, Transfer(v, q)) && ReaderOk(s, q)
    ensures var t, f := DoTransfer(s, v, q), s.readers[q].end;
            BytesRead(t.readers, t.ends[f].received) == BytesRead(s.readers, s.ends[f].received) + t.readers[q].got
  {
    var t, f := DoTransfer(s, v, q), s.readers[q].end;
    FrameRead(s.readers, t.readers, s.ends[f].received);
    BytesReadSnoc(t.readers, s.ends[f].received, q);
  }

  lemma TransferExtendsWrites(s: State, v: nat, q: nat)
    requires Shape(s) && Enabled(s, Transfer(v, q)) && WriterOk(s, v)
    ensures var t, e := DoTransfer(s, v, q), s.writers[v].end;
            BytesWritten(t.writers, t.ends[e].order) == BytesWritten(s.writers, s.ends[e].order) + t.readers[q].got
  {
    var t, order := DoTransfer(s, v, q), s.ends[s.writers[v].end].order;
    FrameWritten(s.writers, t.writers, order[..|order| - 1]);
    TransferCopies(s, v, q);
    var before, taken, got := BytesWritten(s.writers, order[..|order| - 1]), Consumed(s.writers[v]), t.readers[q].got;
    assert (before + taken) + got == before + (taken + got);
  }

  lemma BytesReadSnoc(xs: seq<Reader>, ids: seq<nat>, q: nat)
    requires q < |xs|
    ensures BytesRead(xs, ids + [q]) == BytesRead(xs, ids) + xs[q].got
  {
    assert (ids + [q])[..|ids|] == ids;
  }

  /** What the reader copies is the next stretch of the write's data. */
  lemma TransferCopies(s: State, v: nat, q: nat)
    requires Shape(s) && Enabled(s, Transfer(v, q)) && WriterOk(s, v)
    ensures var t := DoTransfer(s, v, q); Consumed(t.writers[v]) == Consumed(s.writers[v]) + t.readers[q].got
  {
    var y := s.writers[v];
    var nr := Min(s.readers[q].room, |y.rest|);
    assert y.data[..y.taken + nr] == y.data[..y.taken] + y.rest[..nr];
  }

  lemma TransferKeepsOtherStream(s: State, v: nat, q: nat)
    requires Shape(s) && Enabled(s, Transfer(v, q)) && Shape(DoTransfer(s, v, q))
    requires StreamAt(s, Peer(s.writers[v].end))
    ensures StreamAt(DoTransfer(s, v, q), Peer(s.writers[v].end))
  {
    var t, e := DoTransfer(s, v, q), Peer(s.writers[v].end);
    FrameRead(s.readers, t.readers, s.ends[Peer(e)].received);
    FrameWritten(s.writers, t.writers, s.ends[e].order);
  }

  lemma LockKeepsOtherStream(s: State, v: nat)
    requires Shape(s) && Enabled(s, WriteStep(v)) && Shape(WriteMove(s, v))
    requires StreamAt(s, Peer(s.writers[v].end))
    ensures StreamAt(WriteMove(s, v), Peer(s.writers[v].end))
  {
    var t, e := WriteMove(s, v), Peer(s.writers[v].end);
    FrameRead(s.readers, t.readers, s.ends[Peer(e)].received);
    FrameWritten(s.writers, t.writers, s.ends[e].order);
  }

  // ---- hence every step keeps the invariant ----

  lemma OkKept(s: State, a: Action)
    requires Ok(s) && Paired(s) && Enabled(s, a)
    ensures Ok(Step(s, a))
  {
    match a {
      case Transfer(w, r) => TransferKeepsOk(s, w, r);
      case Count(w, r) => CountFindsItsWriter(s, w, r); CountKeepsOk(s, w, r);
      case ReadStep(r) => ReadMoveKeepsOk(s, r);
      case WriteStep(w) => WriteMoveKeepsOk(s, w);
      case Read(_, _) => CallKeepsOk(s, a);
      case Write(_, _) => CallKeepsOk(s, a);
      case Close(_) => CallKeepsOk(s, a);
      case SetReadDeadline(_, _) => SetKeepsOk(s, a);
      case SetWriteDeadline(_, _) => SetKeepsOk(s, a);
      case ReadExit(r, cause) => ReadExitKeepsOk(s, r, cause);
      case WriteExit(w, cause) => WriteExitKeepsOk(s, w, cause);
    }
  }

  lemma HandshakesHoldLocks(s: State)
    requires Shape(s) && WritersOk(s)
    ensures forall w | 0 <= w < |s.writers| && s.writers[w].pc.Handshake? :: s.ends[s.writers[w].end].lock == Some(w)
  {
    forall w | 0 <= w < |s.writers| && s.writers[w].pc.Handshake?
      ensures s.ends[s.writers[w].end].lock == Some(w)
    {
      assert WriterOk(s, w);
    }
  }

  lemma PairedKept(s: State, a: Action)
    requires Ok(s) && Paired(s) && Enabled(s, a) && Shape(Step(s, a))
    ensures Paired(Step(s, a))
  {
    match a {
      case Transfer(w, r) => assert WriterOk(s, w); TransferKeepsPaired(s, w, r);
      case Count(w, r) =>
        CountFindsItsWriter(s, w, r);
        HandshakesHoldLocks(s);
        CountKeepsPaired(s, w, r);
      case WriteExit(w, _) => assert WriterOk(s, w); LocalStepKeepsPaired(s, a);
      case _ => LocalStepKeepsPaired(s, a);
    }
  }

  lemma TransferKeepsStream(s: State, v: nat, q: nat, e: nat)
    requires Ok(s) && e < 2 && StreamAt(s, e) && Enabled(s, Transfer(v, q)) && Shape(DoTransfer(s, v, q))
    ensures StreamAt(DoTransfer(s, v, q), e)
  {
    assert WriterOk(s, v) && ReaderOk(s, q);
    if s.writers[v].end == e { TransferExtendsStream(s, v, q); } else { TransferKeepsOtherStream(s, v, q); }
  }

  lemma LockKeepsStream(s: State, v: nat, e: nat)
    requires Ok(s) && e < 2 && StreamAt(s, e) && Enabled(s, WriteStep(v)) && s.writers[v].pc.Lock? &&
      Shape(WriteMove(s, v))
    ensures StreamAt(WriteMove(s, v), e)
  {
    assert WriterOk(s, v);
    if s.writers[v].end == e { LockExtendsStream(s, v); } else { LockKeepsOtherStream(s, v); }
  }

  lemma StreamKept(s: State, a: Action, e: nat)
    requires Ok(s) && e < 2 && StreamAt(s, e) && Enabled(s, a) && Shape(Step(s, a))
    ensures StreamAt(Step(s, a), e)
  {
    if a.Transfer? {
      TransferKeepsStream(s, a.w, a.r, e);
    } else if a.WriteStep? && s.writers[a.w].pc.Lock? {
      LockKeepsStream(s, a.w, e);
    } else {
      LocalStepKeepsBytes(s, a);
      FrameStreamAt(s, Step(s, a), e);
    }
  }

  lemma DistinctSnoc(ids: seq<nat>, id: nat)
    requires Distinct(ids) && id !in ids
    ensures Distinct(ids + [id])
  {
  }

  lemma TransferKeepsOnce(s: State, v: nat, q: nat)
    requires Shape(s) && Enabled(s, Transfer(v, q)) && ReaderOk(s, q) && Once(s) && Shape(DoTransfer(s, v, q))
    ensures Once(DoTransfer(s, v, q))
  {
    DistinctSnoc(s.ends[s.readers[q].end].received, q);
  }

  lemma LockKeepsOnce(s: State, v: nat)
    requires Shape(s) && Enabled(s, WriteStep(v)) && s.writers[v].pc.Lock? && WriterOk(s, v) && Once(s)
    requires Shape(WriteMove(s, v))
    ensures Once(WriteMove(s, v))
  {
    DistinctSnoc(s.ends[s.writers[v].end].order, v);
  }

  lemma OnceKept(s: State, a: Action)
    requires Ok(s) && Once(s) && Enabled(s, a) && Shape(Step(s, a))
    ensures Once(Step(s, a))
  {
    if a.Transfer? {
      assert ReaderOk(s, a.r);
      TransferKeepsOnce(s, a.w, a.r);
    } else if a.WriteStep? && s.writers[a.w].pc.Lock? {
      assert WriterOk(s, a.w);
      LockKeepsOnce(s, a.w);
    } else {
      LocalStepKeepsBytes(s, a);
    }
  }

  lemma StepKeepsInv(s: State, a: Action)
    requires Inv(s) && Enabled(s, a)
    ensures Inv(Step(s, a))
  {
    OkKept(s, a);
    DeadlinesKept(s, a);
    PairedKept(s, a);
    StreamKept(s, a, 0);
    StreamKept(s, a, 1);
    OnceKept(s, a);
  }

  lemma {:induction false} RunKeepsInv(s: State, run: seq<Action>)
    requires Inv(s) && Runs(s, run)
    ensures Inv(Exec(s, run))
    decreases |run|
  {
    if run != [] {
      StepKeepsInv(s, run[0]);
      RunKeepsInv(Step(s, run[0]), run[1..]);
    }
  }

  // ---- main results, for every run ----

  ghost predicate Reaches(run: seq<Action>, s: State) {
    Runs(INITIAL, run) && s == Exec(INITIAL, run)
  }

  lemma InitialInv()
    ensures Inv(INITIAL)
  {
    D.InitialInv();
  }

  lemma ReachesInv(run: seq<Action>, s: State)
    requires Reaches(run, s)
    ensures Inv(s)
  {
    InitialInv();
    RunKeepsInv(INITIAL, run);
  }

  /** `s` is the state after some run, that is, after any interleaving of any calls. */
  ghost predicate Reachable(s: State)
    ensures Reachable(s) ==> Shape(s)
  {
    if exists run :: Reaches(run, s) then
      var run :| Reaches(run, s);
      ReachesInv(run, s);
      true
    else false
  }

  lemma ReachableInv(s: State)
    requires Reachable(s)
    ensures DeadlinesOk(s) && WritersOk(s) && ReadersOk(s) && Paired(s) && Streams(s) && Once(s)
  {
    var run :| Reaches(run, s);
    ReachesInv(run, s);
  }

  lemma ReachableReader(s: State, r: nat)
    requires Reachable(s) && r < |s.readers|
    ensures ReaderOk(s, r) && D.Inv(s.ends[s.readers[r].end].rd)
  {
    ReachableInv(s);
  }

  lemma ReachableWriter(s: State, w: nat)
    requires Reachable(s) && w < |s.writers|
    ensures WriterOk(s, w) && D.Inv(s.ends[s.writers[w].end].wr)
  {
    ReachableInv(s);
  }

  lemma ReachablePaired(s: State)
    requires Reachable(s)
    ensures Paired(s)
  {
    ReachableInv(s);
  }

  lemma ReachableStreams(s: State)
    requires Reachable(s)
    ensures Streams(s)
  {
    ReachableInv(s);
  }

  lemma ReachableOnce(s: State, e: nat)
    requires Reachable(s) && e < 2
    ensures Distinct(s.ends[e].order) && Distinct(s.ends[e].received)
  {
    ReachableInv(s);
  }

  /** Nothing is lost, duplicated, reordered or interleaved: in both directions, the bytes that the
      reads received, in the order of their rendezvous, are the consumed prefixes of the writes,
      in the order in which these took the lock. */
  lemma StreamIsExact(s: State, e: nat)
    requires Reachable(s) && e < 2
    ensures BytesRead(s.readers, s.ends[Peer(e)].received) == BytesWritten(s.writers, s.ends[e].order)
  {
    ReachableStreams(s);
    if e == 0 { assert StreamAt(s, 0); } else { assert StreamAt(s, 1); }
  }

  /** These lists leave nobody out and name nobody twice: every read of the end that holds bytes
      received them once, every write that readers took bytes from held the lock once. */
  lemma StreamListsEachOnce(s: State, e: nat)
    requires Reachable(s) && e < 2
    ensures Distinct(s.ends[e].received) && Distinct(s.ends[e].order)
    ensures forall r | 0 <= r < |s.readers| && s.readers[r].end == e && s.readers[r].got != [] ::
        r in s.ends[e].received
    ensures forall w | 0 <= w < |s.writers| && s.writers[w].end == e && s.writers[w].taken > 0 :: w in s.ends[e].order
  {
    ReachableOnce(s, e);
    forall r | 0 <= r < |s.readers| && s.readers[r].end == e && s.readers[r].got != []
      ensures r in s.ends[e].received
    {
      ReachableReader(s, r);
    }
    forall w | 0 <= w < |s.writers| && s.writers[w].end == e && s.writers[w].taken > 0
      ensures w in s.ends[e].order
    {
      ReachableWriter(s, w);
    }
  }

  /** What a read that has returned reports: its bytes, and none when it reports an error. */
  lemma ReadExitIsHonest(s: State, r: nat)
    requires Reachable(s) && r < |s.readers| && s.readers[r].pc.Done?
    ensures s.readers[r].n == |s.readers[r].got| <= s.readers[r].room
    ensures s.readers[r].pc.err != Nil ==> s.readers[r].n == 0 && r !in s.ends[s.readers[r].end].received
  {
    ReachableReader(s, r);
  }

  /** What a write that has returned reports: exactly the prefix that readers copied, which is all
      of its data when it reports no error. */
  lemma WriteExitIsHonest(s: State, w: nat)
    requires Reachable(s) && w < |s.writers| && s.writers[w].pc.Done?
    ensures s.writers[w].n <= |s.writers[w].data| && Consumed(s.writers[w]) == s.writers[w].data[..s.writers[w].n]
    ensures s.writers[w].pc.err == Nil ==> Consumed(s.writers[w]) == s.writers[w].data
    ensures s.writers[w].n > 0 ==> w in s.ends[s.writers[w].end].order
  {
    ReachableWriter(s, w);
  }

  /** A reader that owes a count can hand it over, and only to the one write whose bytes it copied. */
  lemma CountReachesItsWriter(s: State, r: nat)
    requires Reachable(s) && r < |s.readers| && s.readers[r].pc.Handshake?
    ensures var lock := s.ends[Peer(s.readers[r].end)].lock;
            && lock.Some? && Enabled(s, Count(lock.value, r))
            && s.readers[r].got <= s.writers[lock.value].rest
            && s.readers[r].n == s.writers[lock.value].taken - s.writers[lock.value].n
            && forall w: nat :: Enabled(s, Count(w, r)) ==> w == lock.value
  {
    ReachablePaired(s);
    ReachableReader(s, r);
    var v := s.ends[Peer(s.readers[r].end)].lock.value;
    assert Owes(s, r, v);
    forall w: nat | Enabled(s, Count(w, r))
      ensures w == v
    {
      ReachableWriter(s, w);
    }
  }

  lemma CountersAgree(s: State, w: nat, q: nat, r: nat)
    requires Shape(s) && OneAtATime(s) && Enabled(s, Count(w, q)) && Enabled(s, Count(w, r))
    ensures q == r
  {
  }

  /** A writer that awaits a count gets it from exactly one reader. */
  lemma CountHasOneReader(s: State, w: nat)
    requires Reachable(s) && w < |s.writers| && s.writers[w].pc.Handshake?
    ensures exists r: nat :: Enabled(s, Count(w, r)) && forall q: nat :: Enabled(s, Count(w, q)) ==> q == r
  {
    ReachablePaired(s);
    var r :| Owes(s, r, w);
    OwedCountIsEnabled(s, r, w);
    forall q: nat | Enabled(s, Count(w, q)) ensures q == r { CountersAgree(s, w, q, r); }
  }

  lemma OwedCountIsEnabled(s: State, r: nat, w: nat)
    requires Reachable(s) && Owes(s, r, w)
    ensures Enabled(s, Count(w, r))
  {
    ReachableReader(s, r);
  }

  /** The variant of the write loop: an exchange shortens what is left by what was read. */
  lemma ExchangeShortensRest(s: State, w: nat, r: nat)
    requires Reachable(s) && Enabled(s, Count(w, r))
    ensures var t := Step(s, Count(w, r));
            && |t.writers[w].rest| == |s.writers[w].rest| - |s.readers[r].got|
            && t.writers[w].n == s.writers[w].n + |s.readers[r].got|
            && (t.writers[w].pc == Done(Nil) <==> t.writers[w].n == |s.writers[w].data|)
  {
    ReachableReader(s, r);
    ReachableWriter(s, w);
  }

  /** A transfer fills the read's buffer or empties the write; so it moves something if both sides can. */
  lemma TransferTakesSomething(s: State, w: nat, r: nat)
    requires |s.ends| == 2 && Enabled(s, Transfer(w, r))
    ensures var t := Step(s, Transfer(w, r));
            var moved := t.writers[w].taken - s.writers[w].taken;
            && moved == |t.readers[r].got| == t.readers[r].n
            && t.readers[r].got <= s.writers[w].rest && moved <= s.readers[r].room
            && (moved == s.readers[r].room || t.readers[r].got == s.writers[w].rest)
            && (moved > 0 <==> s.readers[r].room > 0 && s.writers[w].rest != [])
  {
  }

  /** A read blocked in `select` never sits on a stale deadline: the channel it captured is the
      current one, or it is closed and the read can return. */
  lemma ReadSeesCurrentDeadline(s: State, r: nat)
    requires Reachable(s) && r < |s.readers| && s.readers[r].pc.Select?
    ensures s.readers[r].pc.ch == s.ends[s.readers[r].end].rd.cancel || Enabled(s, ReadExit(r, Expired))
  {
    ReachableReader(s, r);
  }

  lemma WriteSeesCurrentDeadline(s: State, w: nat)
    requires Reachable(s) && w < |s.writers| && s.writers[w].pc.Select?
    ensures s.writers[w].pc.ch == s.ends[s.writers[w].end].wr.cancel || Enabled(s, WriteExit(w, Expired))
  {
    ReachableWriter(s, w);
  }

  // ---- progress after a close ----

  /** The step that a `Set` in progress, or the callback it waits for, can take. */
  function ReleaseDeadline(d: D.State): D.Action {
    match d.setter
    case Waiting(_) =>
      if D.Closed(d, d.cancel) then D.SetWake else D.Callback(if d.timer.Some? then d.timer.value else 0)
    case _ => D.SetFinish
  }

  lemma DeadlineMoves(d: D.State)
    requires D.Inv(d)
    ensures D.Enabled(d, D.Wait) || D.Enabled(d, ReleaseDeadline(d))
  {
  }

  predicate EitherEndClosed(s: State, e: nat) {
    LocalClosed(s, e) || RemoteClosed(s, e)
  }

  /** An action that moves a read along once an end is closed: a step of its own, the exchange of
      the count, or a step of the `Set` that holds the mutex it needs. */
  function ReadProgress(s: State, r: nat): Action
    requires |s.ends| == 2 && r < |s.readers| && s.readers[r].end < 2
  {
    var x := s.readers[r];
    var e := x.end;
    match x.pc
    case Select(_) => ReadExit(r, if LocalClosed(s, e) then Local else Remote)
    case Handshake =>
      var lock := s.ends[Peer(e)].lock;
      Count(if lock.Some? then lock.value else 0, r)
    case _ =>
      if Enabled(s, ReadStep(r)) then ReadStep(r)
      else SetReadDeadline(e, ReleaseDeadline(s.ends[e].rd))
  }

  /** On a pipe of which either end is closed, every unfinished read has a step that moves it along. */
  lemma ReadsMoveAfterClose(s: State, r: nat)
    requires Reachable(s) && r < |s.readers| && !s.readers[r].pc.Done? && EitherEndClosed(s, s.readers[r].end)
    ensures Enabled(s, ReadProgress(s, r))
  {
    ReachableReader(s, r);
    if s.readers[r].pc.Handshake? {
      CountReachesItsWriter(s, r);
    } else {
      DeadlineMoves(s.ends[s.readers[r].end].rd);
    }
  }

  /** The same for a write; `r` is the reader that owes it a count, if one does. */
  function WriteProgress(s: State, w: nat, r: nat): Action
    requires |s.ends| == 2 && w < |s.writers| && s.writers[w].end < 2
  {
    var x := s.writers[w];
    var e := x.end;
    match x.pc
    case Select(_) => WriteExit(w, if LocalClosed(s, e) then Local else Remote)
    case Handshake => Count(w, r)
    case _ =>
      if Enabled(s, WriteStep(w)) then WriteStep(w)
      else SetWriteDeadline(e, ReleaseDeadline(s.ends[e].wr))
  }

  lemma AwaitingWriteMoves(s: State, w: nat)
    requires Reachable(s) && w < |s.writers| && s.writers[w].pc.Handshake?
    ensures exists r: nat :: Enabled(s, WriteProgress(s, w, r))
  {
    CountHasOneReader(s, w);
    var r: nat :| Enabled(s, Count(w, r));
    assert Enabled(s, WriteProgress(s, w, r));
  }

  lemma HolderMoves(s: State, w: nat)
    requires Reachable(s) && w < |s.writers| && !s.writers[w].pc.Done? && EitherEndClosed(s, s.writers[w].end)
    requires s.writers[w].pc.Lock? ==> s.ends[s.writers[w].end].lock.None?
    ensures exists r: nat :: Enabled(s, WriteProgress(s, w, r))
  {
    if s.writers[w].pc.Handshake? {
      AwaitingWriteMoves(s, w);
    } else {
      ReachableWriter(s, w);
      DeadlineMoves(s.ends[s.writers[w].end].wr);
      assert Enabled(s, WriteProgress(s, w, 0));
    }
  }

  /** So has every unfinished write, or the write that holds its lock. */
  lemma WritesMoveAfterClose(s: State, w: nat)
    requires Reachable(s) && w < |s.writers| && !s.writers[w].pc.Done? && EitherEndClosed(s, s.writers[w].end)
    ensures var lock := s.ends[s.writers[w].end].lock;
            var v := if s.writers[w].pc.Lock? && lock.Some? then lock.value else w;
            exists r: nat :: Enabled(s, WriteProgress(s, v, r))
  {
    var lock := s.ends[s.writers[w].end].lock;
    var v := if s.writers[w].pc.Lock? && lock.Some? then lock.value else w;
    ReachableWriter(s, v);
    HolderMoves(s, v);
  }

  // ---- the write loop by itself ----

  function Flatten(chunks: seq<seq<byte>>): seq<byte> {
    if chunks == [] then [] else Flatten(chunks[..|chunks| - 1]) + chunks[|chunks| - 1]
  }

  lemma FlattenSnoc(chunks: seq<seq<byte>>, chunk: seq<byte>)
    ensures Flatten(chunks + [chunk]) == Flatten(chunks) + chunk
  {
    assert (chunks + [chunk])[..|chunks|] == chunks;
  }

  /** The loop of `write`, served by readers with buffers of the given lengths, one after the other;
      when there are no more of them the pipe is closed. `chunks` are the bytes each reader gets. It
      runs at least once, also for empty data, and readers with non-empty buffers complete it. */
  method WriteLoop(data: seq<byte>, rooms: seq<nat>) returns (n: nat, err: Err, chunks: seq<seq<byte>>)
    ensures n <= |data| && Flatten(chunks) == data[..n]
    ensures err == Nil || err == ClosedPipe
    ensures err == Nil ==> n == |data| && 1 <= |chunks| <= |rooms|
    ensures err == ClosedPipe ==> |chunks| == |rooms| && (rooms == [] || n < |data|)
    ensures forall i | 0 <= i < |chunks| :: i < |rooms| && |chunks[i]| <= rooms[i]
    ensures |rooms| > 0 && |rooms| >= |data| && (forall r <- rooms :: r > 0) ==> err == Nil
  {
    var b := data;
    n, chunks := 0, [];
    var once := true;
    while once || |b| > 0
      invariant n <= |data| && b == data[n..] && Flatten(chunks) == data[..n]
      invariant |chunks| <= |rooms| && (once <==> chunks == [])
      invariant forall i | 0 <= i < |chunks| :: |chunks[i]| <= rooms[i]
      invariant (forall r <- rooms :: r > 0) ==> n >= |chunks| || b == []
      decreases |rooms| - |chunks|, once
    {
      if |chunks| == |rooms| {
        return n, ClosedPipe, chunks;
      }
      var nw := Min(rooms[|chunks|], |b|);
      ghost var before := chunks;
      chunks := chunks + [b[..nw]];
      FlattenSnoc(before, b[..nw]);
      assert data[..n] + data[n..][..nw] == data[..n + nw];
      RestOfRest(data, n, nw);
      assert rooms[|before|] in rooms;
      b := b[nw..];
      n := n + nw;
      once := false;
    }
    err := Nil;
  }
}
