/** Trying one name at the configured servers, from a rotating start. */
module ServerRotation {
  import opened Prelude
  import opened Modular
  import opened Pigeonhole
  import T = Text
  import R = ResolvConf

  const TWO32 := 0x1_0000_0000

  datatype Reply = Answer(msg: nat) | Fails(err: nat) | PullFails(err: nat)

  datatype Result = Found(msg: nat) | NoTransport(err: nat) | AllFailed(last: Option<nat>)

  /** One question to a server: in which attempt, and at which position of the server list. */
  datatype Turn = Turn(attempt: nat, position: nat)

  type Network = Turn -> Reply

  /** The position asked as the `j`-th of an attempt: the sum is a 32-bit sum. */
  function Position(offset: nat, j: nat, n: nat): (p: nat)
    requires n > 0
    ensures p < n
  {
    ((offset + j) % TWO32) % n
  }

  /** The positions asked in one attempt. */
  function Round(offset: nat, n: nat): (r: seq<nat>)
    ensures |r| == n && (forall p <- r :: p < n)
    ensures forall j | 0 <= j < n :: r[j] == Position(offset, j, n)
  {
    seq(n, j requires 0 <= j < n => Position(offset, j, n))
  }

  function Turns(attempt: nat, round: seq<nat>): (r: seq<Turn>)
    ensures |r| == |round| && forall j | 0 <= j < |round| :: r[j] == Turn(attempt, round[j])
  {
    seq(|round|, j requires 0 <= j < |round| => Turn(attempt, round[j]))
  }

  /** All questions that are asked when every server fails. */
  function Schedule(round: seq<nat>, attempts: nat): seq<Turn> {
    if attempts == 0 then [] else Schedule(round, attempts - 1) + Turns(attempts - 1, round)
  }

  ghost predicate AllFail(net: Network, turns: seq<Turn>) {
    forall k | 0 <= k < |turns| :: net(turns[k]).Fails?
  }

  /** Determines the result and the questions asked. */
  ghost predicate Explains(net: Network, schedule: seq<Turn>, result: Result, tried: seq<Turn>) {
    match result
    case AllFailed(last) =>
      tried == schedule && AllFail(net, schedule) &&
      last == (if schedule == [] then None else Some(net(schedule[|schedule| - 1]).err))
    case Found(msg) =>
      tried != [] && tried <= schedule && AllFail(net, tried[..|tried| - 1]) && net(tried[|tried| - 1]) == Answer(msg)
    case NoTransport(err) =>
      tried != [] && tried <= schedule && AllFail(net, tried[..|tried| - 1]) &&
        net(tried[|tried| - 1]) == PullFails(err)
  }

  lemma ExplainsAppend(net: Network, before: seq<Turn>, last: Option<nat>, round: seq<Turn>, result: Result,
      tried: seq<Turn>)
    requires Explains(net, before, AllFailed(last), before) && Explains(net, round, result, tried)
    ensures Explains(net, before + round,
                     if result.AllFailed? && round == [] then AllFailed(last) else result, before + tried)
  {
    if tried == [] {
      assert before + tried == before;
    } else {
      assert (before + tried)[..|before + tried| - 1] == before + tried[..|tried| - 1];
    }
  }

  lemma ExplainsLonger(net: Network, schedule: seq<Turn>, longer: seq<Turn>, result: Result, tried: seq<Turn>)
    requires Explains(net, schedule, result, tried) && !result.AllFailed? && schedule <= longer
    ensures Explains(net, longer, result, tried)
  {
  }

  /** The outer loop; `tried` are the questions asked. */
  method TryOneName(net: Network, offset: nat, n: nat, attempts: nat) returns (result: Result, tried: seq<Turn>)
    requires offset < TWO32 && n < TWO32
    ensures Explains(net, Schedule(Round(offset, n), attempts), result, tried)
  {
    ghost var round := Round(offset, n);
    tried := [];
    var last := None;
    for i := 0 to attempts
      invariant tried == Schedule(round, i) && Explains(net, tried, AllFailed(last), tried)
    {
      var answer, asked := TryRound(net, offset, n, i);
      ExplainsAppend(net, tried, last, Turns(i, round), answer, asked);
      if !answer.AllFailed? {
        ScheduleContains(round, attempts, i);
        ExplainsLonger(net, tried + Turns(i, round), Schedule(round, attempts), answer, tried + asked);
        return answer, tried + asked;
      }
      tried := tried + asked;
      if answer.last.Some? {
        last := answer.last;
      }
    }
    result := AllFailed(last);
  }

  /** The inner loop: one attempt at every position. */
  method TryRound(net: Network, offset: nat, n: nat, attempt: nat) returns (result: Result, tried: seq<Turn>)
    requires offset < TWO32 && n < TWO32
    ensures Explains(net, Turns(attempt, Round(offset, n)), result, tried)
  {
    ghost var turns := Turns(attempt, Round(offset, n));
    tried := [];
    var last := None;
    for j := 0 to n
      invariant tried == turns[..j] && AllFail(net, tried)
      invariant last == if j == 0 then None else Some(net(turns[j - 1]).err)
    {
      var turn := Turn(attempt, ((offset + j) % TWO32) % n);
      assert turn == turns[j] && turns[..j + 1] == turns[..j] + [turn];
      assert turns[..j + 1][..j] == turns[..j];
      tried := tried + [turn];
      match net(turn) {
        case PullFails(err) => return NoTransport(err), tried;
        case Fails(err) => last := Some(err);
        case Answer(msg) => return Found(msg), tried;
      }
    }
    result := AllFailed(last);
  }

  lemma {:induction false} ScheduleContains(round: seq<nat>, attempts: nat, i: nat)
    requires i < attempts
    ensures Schedule(round, i) + Turns(i, round) <= Schedule(round, attempts)
  {
    if i + 1 < attempts {
      ScheduleContains(round, attempts - 1, i);
    }
  }

  // ---- which servers an all-failing search asks ----

  function Positions(turns: seq<Turn>): (r: seq<nat>)
    ensures |r| == |turns| && forall k | 0 <= k < |turns| :: r[k] == turns[k].position
  {
    seq(|turns|, k requires 0 <= k < |turns| => turns[k].position)
  }

  /** Every attempt asks the same positions. */
  lemma {:induction false} ScheduleCounts(round: seq<nat>, attempts: nat, p: nat)
    ensures Count(Positions(Schedule(round, attempts)), p) == attempts * Count(round, p)
  {
    if attempts > 0 {
      ScheduleCounts(round, attempts - 1, p);
      var before, turns := Schedule(round, attempts - 1), Turns(attempts - 1, round);
      assert Positions(before + turns) == Positions(before) + round;
      CountAppend(Positions(before), round, p);
      assert attempts * Count(round, p) == (attempts - 1) * Count(round, p) + Count(round, p);
    }
  }

  // ---- when a round asks everybody ----

  /** The sums of a round do not wrap, or wrap without harm. */
  predicate Fair(offset: nat, n: nat)
    requires n > 0
  {
    offset + n <= TWO32 || TWO32 % n == 0
  }

  /** In a fair round a position is the residue of its sum. */
  lemma FairPosition(offset: nat, n: nat, j: nat)
    requires 0 < n <= TWO32 && offset < TWO32 && Fair(offset, n) && j < n
    ensures Position(offset, j, n) == (offset + j) % n
  {
    if offset + j >= TWO32 { Unwrap(offset + j, n); }
  }

  lemma Unwrap(v: nat, n: nat)
    requires n > 0 && TWO32 <= v < 2 * TWO32 && TWO32 % n == 0
    ensures (v % TWO32) % n == v % n
  {
    assert v % TWO32 == v - TWO32;
    AddMultiple(v - TWO32, TWO32 / n, n);
  }

  lemma FairIsDistinct(offset: nat, n: nat, i: nat, j: nat)
    requires 0 < n <= TWO32 && offset < TWO32 && Fair(offset, n) && i < j < n
    ensures Position(offset, i, n) != Position(offset, j, n)
  {
    FairPosition(offset, n, i);
    FairPosition(offset, n, j);
    CloseAreDistinct(offset + i, offset + j, n);
  }

  /** The sum that is the largest multiple of n below 2^32 and the sum 0 meet at position 0. */
  lemma RepeatsAtZero(offset: nat, n: nat, r: nat, k: nat)
    requires 0 < n <= TWO32 && r == TWO32 % n && offset == TWO32 - k && 0 < r <= k < n
    ensures Position(offset, k - r, n) == Position(offset, k, n)
  {
    assert TWO32 - r == (TWO32 / n) * n + 0;
    ModOf(TWO32 / n, 0, n);
    ModOf(0, 0, n);
  }

  /** Otherwise the first sum meets the sum with its residue after the wrap. */
  lemma RepeatsTheFirst(offset: nat, n: nat, r: nat, k: nat)
    requires 0 < n <= TWO32 && r == TWO32 % n && offset == TWO32 - k && 0 < k < r
    ensures Position(offset, 0, n) == Position(offset, r, n)
  {
    assert offset == (TWO32 / n) * n + (r - k);
    ModOf(TWO32 / n, r - k, n);
    assert (offset + r) % TWO32 == r - k;
    ModOf(0, r - k, n);
  }

  /** The order of a round: it starts at the offset's residue and goes on to the next position each time, from
      the last to the first; where the 32-bit sum wraps it goes on at the first. */
  lemma RoundRotates(offset: nat, n: nat, j: nat)
    requires 0 < n <= TWO32 && offset < TWO32 && j < n
    ensures Round(offset, n)[0] == offset % n
    ensures j + 1 < n ==>
              Round(offset, n)[j + 1] ==
                if offset + j + 1 == 4294967296 || Round(offset, n)[j] == n - 1 then 0 else Round(offset, n)[j] + 1
  {
    SmallSum(offset);
    if j + 1 < n {
      var v := (offset + j) % TWO32;
      NextSum(offset, j);
      assert Round(offset, n)[j + 1] == Position(offset, j + 1, n) == (offset + (j + 1)) % TWO32 % n;
      assert Round(offset, n)[j] == v % n;
      NextResidue(v, n);
      ModOf(0, 0, n);
    }
  }

  lemma SmallSum(offset: nat)
    requires offset < TWO32
    ensures (offset + 0) % TWO32 == offset
  {
  }

  lemma NextSum(offset: nat, j: nat)
    requires offset < TWO32 && j + 1 < TWO32
    ensures (offset + (j + 1)) % TWO32 == if offset + j + 1 == 4294967296 then 0 else (offset + j) % TWO32 + 1
  {
  }

  lemma NextResidue(v: nat, n: nat)
    requires n > 0
    ensures (v + 1) % n == if v % n == n - 1 then 0 else v % n + 1
  {
    var q, r := v / n, v % n;
    if r == n - 1 {
      assert v + 1 == (q + 1) * n + 0;
      ModOf(q + 1, 0, n);
    } else {
      assert v + 1 == q * n + (r + 1);
      ModOf(q, r + 1, n);
    }
  }

  /** A round that wraps where 2^32 is not a multiple of n asks some position twice. */
  lemma UnfairRepeats(offset: nat, n: nat) returns (i: nat, j: nat)
    requires 0 < n <= TWO32 && offset < TWO32 && !Fair(offset, n)
    ensures i < j < n && Position(offset, i, n) == Position(offset, j, n)
  {
    var r := TWO32 % n;
    var k := TWO32 - offset; // the sums before the k-th do not wrap, the k-th is 0
    if k >= r {
      i, j := k - r, k;
      RepeatsAtZero(offset, n, r, k);
    } else {
      i, j := 0, r;
      RepeatsTheFirst(offset, n, r, k);
    }
  }

  /** An all-failing search asks each of its servers exactly `attempts` times, if and only if the
      32-bit sum does not wrap within a round or 2^32 is a multiple of the number of servers. */
  lemma EveryServerAskedExactly(offset: nat, n: nat, attempts: nat)
    requires 0 < n <= TWO32 && offset < TWO32 && attempts > 0
    ensures Fair(offset, n) <==>
            forall p: nat | p < n :: Count(Positions(Schedule(Round(offset, n), attempts)), p) == attempts
  {
    var round := Round(offset, n);
    if Fair(offset, n) {
      assert Distinct(round) by {
        forall i, j | 0 <= i < j < n ensures round[i] != round[j] { FairIsDistinct(offset, n, i, j); }
      }
      forall p: nat | p < n
        ensures Count(Positions(Schedule(round, attempts)), p) == attempts
      {
        DistinctCovers(round, p);
        ScheduleCounts(round, attempts, p);
      }
    } else {
      var i, j := UnfairRepeats(offset, n);
      var p := RepetitionMisses(round, i, j);
      ScheduleCounts(round, attempts, p);
    }
  }

  /** For the one to three servers of a configuration: one or two are always all asked, three exactly
      unless the sum wraps within the round; and then one of them is never asked. */
  lemma ThreeServers(offset: nat, n: nat, attempts: nat)
    requires 1 <= n <= 3 && offset < TWO32 && attempts > 0
    ensures (forall p: nat | p < n :: Count(Positions(Schedule(Round(offset, n), attempts)), p) == attempts) <==>
            n < 3 || offset + n <= TWO32
    ensures n == 3 && offset + n > TWO32 ==>
            exists p: nat :: p < n && Count(Positions(Schedule(Round(offset, n), attempts)), p) == 0
  {
    EveryServerAskedExactly(offset, n, attempts);
    if n == 3 && offset + n > TWO32 {
      var i, j := UnfairRepeats(offset, n);
      var p := RepetitionMisses(Round(offset, n), i, j);
      ScheduleCounts(Round(offset, n), attempts, p);
    }
  }

  /** From the file to the servers: whatever resolv.conf says, a search in which every pull gives a
      transport and every server fails asks each configured server exactly the configured number of times,
      unless there are three and the rotating offset wraps within the round. That pulls succeed is an
      assumption about the keys of the table, which the code as written does not meet: see
      `NoServerIsAsked`. */
  lemma ConfiguredServersAreAsked(parses: R.AddressTest, chunks: seq<T.Chunk>, defaultSearch: seq<string>, net: Network,
                                  offset: nat, result: Result, tried: seq<Turn>)
    requires (forall s <- defaultSearch :: R.EndsInDot(s)) && offset < TWO32
    requires var conf := R.Finish(R.ApplyLines(parses, R.INITIAL, T.Assemble("", chunks)), defaultSearch);
             Explains(net, Schedule(Round(offset, |conf.servers|), conf.attempts), result, tried) && result.AllFailed?
    ensures var conf := R.Finish(R.ApplyLines(parses, R.INITIAL, T.Assemble("", chunks)), defaultSearch);
            var n := |conf.servers|;
            && |tried| == conf.attempts * n
            && ((forall p: nat | p < n :: Count(Positions(tried), p) == conf.attempts) <==>
                n < 3 || offset + n <= TWO32)
  {
    var conf := R.Finish(R.ApplyLines(parses, R.INITIAL, T.Assemble("", chunks)), defaultSearch);
    R.ConfigIsUsable(parses, chunks, defaultSearch);
    ThreeServers(offset, |conf.servers|, conf.attempts);
    ScheduleLength(Round(offset, |conf.servers|), conf.attempts);
  }

  lemma FirstIsScheduled(schedule: seq<Turn>, before: seq<Turn>)
    requires before <= schedule
    ensures before != [] ==> before[0] in schedule
  {
    assert before != [] ==> schedule[0] == before[0];
  }

  lemma NothingFails(net: Network, schedule: seq<Turn>, before: seq<Turn>)
    requires before <= schedule && AllFail(net, before) && forall turn <- schedule :: net(turn).PullFails?
    ensures before == []
  {
    FirstIsScheduled(schedule, before);
  }

  /** One question of a schedule is considered when every pull fails. */
  lemma FirstPullFails(net: Network, schedule: seq<Turn>, result: Result, tried: seq<Turn>)
    requires Explains(net, schedule, result, tried) && schedule != []
    requires forall turn <- schedule :: net(turn).PullFails?
    ensures result.NoTransport? && |tried| == 1
  {
    var before := if result.AllFailed? || tried == [] then tried else tried[..|tried| - 1];
    NothingFails(net, schedule, before);
    assert schedule[0] in schedule;
    assert tried != [] ==> tried[|tried| - 1] == schedule[|tried| - 1];
  }

  lemma {:induction false} SchedulePositions(round: seq<nat>, attempts: nat, n: nat)
    requires forall p <- round :: p < n
    ensures forall turn <- Schedule(round, attempts) :: turn.position < n
  {
    if attempts > 0 {
      SchedulePositions(round, attempts - 1, n);
      var turns := Turns(attempts - 1, round);
      forall turn <- turns ensures turn.position < n {
        var j :| 0 <= j < |turns| && turns[j] == turn;
        assert round[j] in round;
      }
    }
  }

  /** Where the code departs from its intent: servers are configured with their port and pulled by their
      address alone, so the first pull already fails, whatever the file says. `keyOf` gives the text of
      the address in a server's name, which parses as an address. */
  lemma NoServerIsAsked(parses: R.AddressTest, chunks: seq<T.Chunk>, defaultSearch: seq<string>,
                        keyOf: string -> string, net: Network, offset: nat, result: Result, tried: seq<Turn>)
    requires R.PortsDoNotParse(parses) && parses("127.0.0.1") && parses("::1")
    requires (forall s <- defaultSearch :: R.EndsInDot(s)) && offset < TWO32
    requires var conf := R.Finish(R.ApplyLines(parses, R.INITIAL, T.Assemble("", chunks)), defaultSearch);
             var n := |conf.servers|;
             && (forall s <- conf.servers :: parses(keyOf(s)))
             // a pull is refused unless its key is configured
             && (forall turn: Turn | turn.position < n && keyOf(conf.servers[turn.position]) !in conf.servers ::
                 net(turn).PullFails?)
             && Explains(net, Schedule(Round(offset, n), conf.attempts), result, tried)
    ensures result.NoTransport? && |tried| == 1
  {
    var conf := R.Finish(R.ApplyLines(parses, R.INITIAL, T.Assemble("", chunks)), defaultSearch);
    var n := |conf.servers|;
    var schedule := Schedule(Round(offset, n), conf.attempts);
    R.ConfigIsUsable(parses, chunks, defaultSearch);
    R.ServersNamePorts(parses, chunks, defaultSearch);
    ScheduleLength(Round(offset, n), conf.attempts);
    SchedulePositions(Round(offset, n), conf.attempts, n);
    forall turn <- schedule
      ensures net(turn).PullFails?
    {
      assert parses(keyOf(conf.servers[turn.position]));
    }
    assert |schedule| == conf.attempts * n && schedule != [];
    FirstPullFails(net, schedule, result, tried);
  }

  lemma {:induction false} ScheduleLength(round: seq<nat>, attempts: nat)
    ensures |Schedule(round, attempts)| == attempts * |round|
  {
    if attempts > 0 {
      ScheduleLength(round, attempts - 1);
      assert attempts * |round| == (attempts - 1) * |round| + |round|;
    }
  }
}
