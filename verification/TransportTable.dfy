/**
 The table of transports of the local resolver: replaced server lists evict, pulls insert under
 double-checked locking. Pulls consist of two critical sections, between which anything may happen.
 */
module TransportTable {
  import opened Prelude
  import P = Pigeonhole

  /** A transport that was created, and how often it was closed. */
  datatype Made = Made(key: string, closes: nat)

  datatype PullPc = Looking | Upgrading | Refused | Got(transport: nat)

  datatype Pull = Pull(key: string, pc: PullPc)

  /** `servers` is None until the first update; `table` maps a key to the transport in use. */
  datatype State = State(servers: Option<set<string>>, table: map<string, nat>, made: seq<Made>, pulls: seq<Pull>)

  const INITIAL := State(None, map[], [], [])

  datatype Action =
    | Update(list: seq<string>)
    | Begin(key: string)
    | Look(p: nat)     // the part under the read lock
    | Upgrade(p: nat)  // the part under the write lock

  function SetOf(list: seq<string>): (r: set<string>)
    ensures forall x :: x in r <==> x in list
  {
    set x | x in list
  }

  /** The test that skips an update: same length, and every new server is known. */
  predicate Skips(servers: Option<set<string>>, list: seq<string>) {
    servers.Some? && |servers.value| == |list| && forall x <- list :: x in servers.value
  }

  /** Closes the transports of the table whose key is not kept. */
  function CloseOthers(made: seq<Made>, table: map<string, nat>, keep: set<string>): (r: seq<Made>)
    ensures |r| == |made|
  {
    seq(|made|, t requires 0 <= t < |made| =>
      if made[t].key in table && table[made[t].key] == t && made[t].key !in keep
      then made[t].(closes := made[t].closes + 1)
      else made[t])
  }

  function Restrict(table: map<string, nat>, keep: set<string>): map<string, nat> {
    map k | k in table && k in keep :: table[k]
  }

  function DoUpdate(s: State, list: seq<string>): State {
    if Skips(s.servers, list) then s
    else
      var keep := SetOf(list);
      s.(servers := Some(keep), made := CloseOthers(s.made, s.table, keep), table := Restrict(s.table, keep))
  }

  predicate Configured(s: State, key: string) {
    s.servers.Some? && key in s.servers.value
  }

  predicate Enabled(s: State, a: Action) {
    match a
    case Update(_) => true
    case Begin(_) => true
    case Look(p) => p < |s.pulls| && s.pulls[p].pc == Looking
    case Upgrade(p) => p < |s.pulls| && s.pulls[p].pc == Upgrading
  }

  function SetPull(s: State, p: nat, pc: PullPc): State
    requires p < |s.pulls|
  {
    s.(pulls := s.pulls[p := s.pulls[p].(pc := pc)])
  }

  function Step(s: State, a: Action): State
    requires Enabled(s, a)
  {
    match a
    case Update(list) => DoUpdate(s, list)
    case Begin(key) => s.(pulls := s.pulls + [Pull(key, Looking)])
    case Look(p) =>
      var key := s.pulls[p].key;
      if !Configured(s, key) then SetPull(s, p, Refused)
      else if key in s.table then SetPull(s, p, Got(s.table[key]))
      else SetPull(s, p, Upgrading)
    case Upgrade(p) =>
      var key := s.pulls[p].key;
      if !Configured(s, key) then SetPull(s, p, Refused)
      else if key in s.table then SetPull(s, p, Got(s.table[key]))
      else SetPull(s.(made := s.made + [Made(key, 0)], table := s.table[key := |s.made|]), p, Got(|s.made|))
  }

  predicate Runs(s: State, run: seq<Action>)
    decreases |run|
  {
    run == [] || (Enabled(s, run[0]) && Runs(Step(s, run[0]), run[1..]))
  }

  function Exec(s: State, run: seq<Action>): State
    requires Runs(s, run)
    decreases |run|
  {
    if run == [] then s else Exec(Step(s, run[0]), run[1..])
  }

  // ---- what every run keeps ----

  predicate InUse(s: State, t: nat) {
    t < |s.made| && s.made[t].key in s.table && s.table[s.made[t].key] == t
  }

  ghost predicate Inv(s: State) {
    && (forall k <- s.table :: Configured(s, k) && s.table[k] < |s.made| && s.made[s.table[k]].key == k)
    && (forall t | 0 <= t < |s.made| :: s.made[t].closes == if InUse(s, t) then 0 else 1)
    && (forall p | 0 <= p < |s.pulls| && s.pulls[p].pc.Got? ::
          s.pulls[p].pc.transport < |s.made| && s.made[s.pulls[p].pc.transport].key == s.pulls[p].key)
  }

  lemma StepKeepsInv(s: State, a: Action)
    requires Inv(s) && Enabled(s, a)
    ensures Inv(Step(s, a))
  {
    var t := Step(s, a);
    forall i | 0 <= i < |t.made|
      ensures t.made[i].closes == if InUse(t, i) then 0 else 1
    {
      if i < |s.made| { assert s.made[i].closes == if InUse(s, i) then 0 else 1; }
    }
  }

  lemma {:induction false} RunKeepsInv(s: State, run: seq<Action>)
    requires Inv(s) && Runs(s, run)
    ensures Inv(Exec(s, run))
    decreases |run|
  {
    if run != [] {
      StepKeepsInv(s, run[0]);
      RunKeepsInv(Step(s, run[0]), run[1..]);
    }
  }

  /** In every run: only configured servers have a transport, every transport that left the table
      was closed exactly once, and no key ever has two open transports. (This takes a transport's Close to
      return: with its `done` channel never created, as the code has it, the first one panics.) */
  lemma TableIsSafe(run: seq<Action>)
    requires Runs(INITIAL, run)
    ensures var s := Exec(INITIAL, run);
            && (forall k <- s.table :: Configured(s, k))
            && (forall t | 0 <= t < |s.made| :: s.made[t].closes <= 1 && (s.made[t].closes == 0 <==> InUse(s, t)))
            && (forall t, u | 0 <= t < |s.made| && 0 <= u < |s.made| && s.made[t].key == s.made[u].key
                              && s.made[t].closes == 0 && s.made[u].closes == 0 :: t == u)
  {
    RunKeepsInv(INITIAL, run);
  }

  /** A pull hands out a transport for the server asked for: the one in use at that moment, unless
      the server is not configured at that moment. It takes the write lock exactly if there is none in use,
      and creates one exactly if there is none by then. */
  lemma PullHandsOutTheOneInUse(run: seq<Action>, a: Action)
    requires Runs(INITIAL, run) && Enabled(Exec(INITIAL, run), a) && (a.Look? || a.Upgrade?)
    ensures var s := Exec(INITIAL, run);
            var t := Step(s, a);
            var key := s.pulls[a.p].key;
            && (t.pulls[a.p].pc == Refused <==> !Configured(s, key))
            && (t.pulls[a.p].pc.Got? ==>
                InUse(t, t.pulls[a.p].pc.transport) && t.made[t.pulls[a.p].pc.transport] == Made(key, 0))
            && (t.pulls[a.p].pc == Upgrading <==> a.Look? && Configured(s, key) && key !in s.table)
            && (t.table == s.table && t.made == s.made <==> !a.Upgrade? || !Configured(s, key) || key in s.table)
  {
    RunKeepsInv(INITIAL, run);
    StepKeepsInv(Exec(INITIAL, run), a);
  }

  /** A whole pull that nothing interrupts: it ends with the transport in use for the server asked for if that
      is configured, and is refused if not. */
  lemma PullOf(run: seq<Action>, key: string)
    requires Runs(INITIAL, run)
    ensures var s := Exec(INITIAL, run);
            var p, s1 := |s.pulls|, Step(s, Begin(key));
            && Enabled(s1, Look(p))
            && var s2 := Step(s1, Look(p));
               && (s2.pulls[p].pc == Upgrading ==> Enabled(s2, Upgrade(p)))
               && var t := if s2.pulls[p].pc == Upgrading then Step(s2, Upgrade(p)) else s2;
                  && (!Configured(s, key) ==> t.pulls[p].pc == Refused)
                  && (Configured(s, key) ==>
                        && t.pulls[p].pc.Got? && key in t.table && t.table[key] == t.pulls[p].pc.transport
                        && InUse(t, t.table[key]) && t.made[t.table[key]] == Made(key, 0))
  {
    var s := Exec(INITIAL, run);
    RunKeepsInv(INITIAL, run);
    var p, s1 := |s.pulls|, Step(s, Begin(key));
    StepKeepsInv(s, Begin(key));
    var s2 := Step(s1, Look(p));
    StepKeepsInv(s1, Look(p));
    if s2.pulls[p].pc == Upgrading { StepKeepsInv(s2, Upgrade(p)); }
  }

  // ---- the test that skips an update ----

  predicate NoDuplicates(list: seq<string>) {
    forall i, j | 0 <= i < j < |list| :: list[i] != list[j]
  }

  lemma {:induction false} SetOfSize(list: seq<string>)
    ensures |SetOf(list)| <= |list|
    ensures |SetOf(list)| == |list| <==> NoDuplicates(list)
  {
    if list == [] {
      assert SetOf(list) == {};
    } else {
      var rest := list[1..];
      SetOfSize(rest);
      assert SetOf(list) == SetOf(rest) + {list[0]};
      if list[0] in rest {
        assert SetOf(list) == SetOf(rest);
        var j :| 0 <= j < |rest| && rest[j] == list[0];
        assert list[j + 1] == list[0];
      } else {
        assert NoDuplicates(rest) ==> NoDuplicates(list);
        if NoDuplicates(list) {
          forall i, j | 0 <= i < j < |rest| ensures rest[i] != rest[j] {
            assert rest[i] == list[i + 1] && rest[j] == list[j + 1];
          }
        }
      }
    }
  }

  /** The test is right exactly for lists without duplicates: there it fires if and only if the new
      servers are the known ones; a list with duplicates for which it fires is never the known set. */
  lemma SkipsExactly(servers: set<string>, list: seq<string>)
    ensures NoDuplicates(list) ==> (Skips(Some(servers), list) <==> SetOf(list) == servers)
    ensures Skips(Some(servers), list) ==> (NoDuplicates(list) <==> SetOf(list) == servers)
  {
    SetOfSize(list);
    if Skips(Some(servers), list) && |SetOf(list)| == |list| {
      P.SubsetOfSameSize(SetOf(list), servers);
    }
  }

  /** Hence an update installs the given servers, unless the list has duplicates and the test fires. */
  lemma UpdateInstalls(s: State, list: seq<string>)
    ensures DoUpdate(s, list).servers == Some(SetOf(list)) <==> !Skips(s.servers, list) || NoDuplicates(list)
  {
    if Skips(s.servers, list) {
      SkipsExactly(s.servers.value, list);
    }
  }

  /** A stale server can survive an update whose list repeats another one: a run in which "b" stays. */
  lemma DuplicatesKeepStaleServer()
    ensures var run := [Update(["a", "b"]), Update(["a", "a"])];
            Runs(INITIAL, run) && Exec(INITIAL, run).servers == Some({"a", "b"})
  {
    var s1 := Step(INITIAL, Update(["a", "b"]));
    assert SetOf(["a", "b"]) == {"a", "b"};
    assert "a" != "b" && |{"a", "b"}| == 2;
    var list := ["a", "a"];
    assert forall x <- list :: x in {"a", "b"};
    assert Skips(s1.servers, list);
    assert [Update(["a", "b"]), Update(list)][1..] == [Update(list)] && [Update(list)][1..] == [];
    assert Runs(s1, [Update(list)]);
  }

  lemma EvictNothing(made: seq<Made>, table: map<string, nat>, keep: set<string>)
    ensures CloseOthers(made, table, keep + table.Keys) == made && Restrict(table, keep + table.Keys) == table
  {
  }

  lemma SmallerKeep(keep: set<string>, todo: set<string>, k: string)
    requires k in todo
    ensures keep + (todo - {k}) + {k} == keep + todo
    ensures k in keep ==> keep + (todo - {k}) == keep + todo
  {
  }

  lemma EvictOneMore(made: seq<Made>, table: map<string, nat>, keep: set<string>, k: string)
    requires k in table && table[k] < |made| && made[table[k]].key == k && k !in keep
    ensures var one := CloseOthers(made, table, keep + {k});
            && one[table[k]] == made[table[k]]
            && CloseOthers(made, table, keep) == one[table[k] := made[table[k]].(closes := made[table[k]].closes + 1)]
    ensures var less := Restrict(table, keep + {k});
            k in less && less[k] == table[k] && Restrict(table, keep) == less - {k}
  {
  }

  lemma CreateKeepsInv(s: State, key: string)
    requires Inv(s) && s.pulls == [] && Configured(s, key) && key !in s.table
    ensures Inv(s.(made := s.made + [Made(key, 0)], table := s.table[key := |s.made|]))
  {
    var before := s.(pulls := [Pull(key, Upgrading)]);
    assert forall t | 0 <= t < |s.made| :: InUse(before, t) == InUse(s, t);
    StepKeepsInv(before, Upgrade(0));
    var t, after := Step(before, Upgrade(0)), s.(made := s.made + [Made(key, 0)], table := s.table[key := |s.made|]);
    assert forall u | 0 <= u < |after.made| :: InUse(after, u) == InUse(t, u);
  }

  // ---- the object ----

  class Transports {
    var servers: Option<set<string>>
    var table: map<string, nat>
    var made: seq<Made>

    ghost function Abs(pulls: seq<Pull>): State
      reads this
    {
      State(servers, table, made, pulls)
    }

    ghost predicate Valid()
      reads this
    {
      Inv(Abs([]))
    }

    constructor ()
      ensures Valid() && Abs([]) == INITIAL
    {
      servers, table, made := None, map[], [];
    }

    /** The body of the update, under the write lock. */
    method UpdateTransports(list: seq<string>)
      requires Valid()
      modifies this
      ensures Valid() && Abs([]) == DoUpdate(old(Abs([])), list)
    {
      StepKeepsInv(Abs([]), Update(list));
      if servers.Some? && |servers.value| == |list| && forall x <- list :: x in servers.value {
        return;
      }
      servers := Some(set x | x in list);
      Evict(SetOf(list));
    }

    /** Closes and removes the transports whose key is not kept, visiting the table in any order. */
    method Evict(keep: set<string>)
      requires forall k <- table :: table[k] < |made| && made[table[k]].key == k
      modifies this`table, this`made
      ensures made == CloseOthers(old(made), old(table), keep)
      ensures table == Restrict(old(table), keep)
    {
      var todo := table.Keys;
      ghost var table0, made0 := table, made;
      EvictNothing(made, table, keep);
      while todo != {}
        invariant todo <= table0.Keys
        invariant table == Restrict(table0, keep + todo)
        invariant made == CloseOthers(made0, table0, keep + todo)
        decreases |todo|
      {
        var k :| k in todo;
        SmallerKeep(keep, todo, k);
        if k !in keep {
          EvictOneMore(made0, table0, keep + (todo - {k}), k);
          EvictOne(k);
        }
        todo := todo - {k};
      }
      assert keep + todo == keep;
    }

    /** Closes and removes one transport. */
    method EvictOne(k: string)
      requires k in table && table[k] < |made|
      modifies this`table, this`made
      ensures made == old(made)[old(table[k]) := old(made[table[k]]).(closes := old(made[table[k]].closes) + 1)]
      ensures table == old(table) - {k}
    {
      var t := table[k];
      made := made[t := made[t].(closes := made[t].closes + 1)];
      table := table - {k};
    }

    /** The part of a pull under the write lock, which looks again before it creates. */
    method PullLocked(key: string) returns (r: Option<nat>)
      requires Valid()
      modifies this
      ensures Valid()
      ensures r.Some? <==> old(servers.Some? && key in servers.value)
      ensures servers == old(servers)
      ensures r.Some? ==> key in table && table[key] == r.value && made[r.value] == Made(key, 0)
      ensures old(key in table) || r.None? ==> table == old(table) && made == old(made)
      ensures r.Some? && old(key !in table) ==>
        made == old(made) + [Made(key, 0)] && table == old(table)[key := old(|made|)]
    {
      if servers.None? || key !in servers.value {
        return None;
      }
      if key in table {
        return Some(table[key]);
      }
      CreateKeepsInv(Abs([]), key);
      r := Some(|made|);
      table := table[key := |made|];
      made := made + [Made(key, 0)];
    }
  }
}
