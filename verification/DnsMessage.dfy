/** DNS messages, their TTLs and their EDNS record. */
module DnsMessage {
  import opened Prelude

  const OPT := 41

  datatype Question = Question(name: string, qtype: nat, qclass: nat)

  /** A resource record. For an OPT record `rclass` is the UDP payload size and `ttl` packs the
      extended code, the version and the flags, section 6.1.3 of RFC 6891. */
  datatype RR = RR(rtype: nat, rclass: nat, ttl: nat, data: nat)

  datatype Value = Value(
    id: nat, rcode: nat, response: bool, question: seq<Question>, answer: seq<RR>, ns: seq<RR>, extra: seq<RR>)

  // ---- TTLs ----

  function Ttls(rrs: seq<RR>): (r: seq<nat>)
    ensures |r| == |rrs| && forall i | 0 <= i < |rrs| :: r[i] == rrs[i].ttl
  {
    seq(|rrs|, i requires 0 <= i < |rrs| => rrs[i].ttl)
  }

  lemma TtlsSnoc(seen: seq<nat>, rrs: seq<RR>, j: nat)
    requires j < |rrs|
    ensures seen + Ttls(rrs[..j + 1]) == seen + Ttls(rrs[..j]) + [rrs[j].ttl]
  {
  }

  function AllRecords(m: Value): seq<RR> {
    m.answer + m.ns + m.extra
  }

  /** Where the part after the last zero begins. */
  function TailStart(ts: seq<nat>): (k: nat)
    ensures k <= |ts|
    ensures forall i | k <= i < |ts| :: ts[i] != 0
    ensures k > 0 ==> ts[k - 1] == 0
  {
    if ts == [] || ts[|ts| - 1] == 0 then |ts| else TailStart(ts[..|ts| - 1])
  }

  function AfterLastZero(ts: seq<nat>): seq<nat> {
    ts[TailStart(ts)..]
  }

  /** The least element, 0 for none. */
  function Least(ts: seq<nat>): nat {
    if ts == [] then 0
    else if |ts| == 1 then ts[0]
    else
      var rest, last := Least(ts[..|ts| - 1]), ts[|ts| - 1];
      if last < rest then last else rest
  }

  lemma {:induction false} LeastIsLeast(ts: seq<nat>)
    requires ts != []
    ensures Least(ts) in ts && forall t <- ts :: Least(ts) <= t
  {
    if |ts| > 1 {
      LeastIsLeast(ts[..|ts| - 1]);
      assert ts == ts[..|ts| - 1] + [ts[|ts| - 1]];
    }
  }

  function MessageTTL(m: Value): nat {
    Least(AfterLastZero(Ttls(AllRecords(m))))
  }

  /** The running minimum that restarts after a zero. */
  function RunningTTL(ttl: nat, t: nat): nat {
    if ttl == 0 || ttl > t then t else ttl
  }

  lemma RunningIsLeast(ts: seq<nat>, t: nat)
    ensures RunningTTL(Least(AfterLastZero(ts)), t) == Least(AfterLastZero(ts + [t]))
  {
    assert (ts + [t])[..|ts|] == ts;
    var tail := AfterLastZero(ts);
    if tail != [] {
      LeastIsLeast(tail);
      assert Least(tail) != 0;
    }
    if t != 0 {
      assert AfterLastZero(ts + [t]) == tail + [t];
      assert (tail + [t])[..|tail|] == tail;
    }
  }

  /** What the number means: the minimum of the TTLs after the last zero, and 0 if there are none.
      With no zero among them it is the minimum of all, section 3.2.1 of RFC 1035. */
  lemma TTLMeans(m: Value)
    ensures var ts := Ttls(AllRecords(m));
            && (MessageTTL(m) == 0 <==> ts == [] || ts[|ts| - 1] == 0)
            && (MessageTTL(m) != 0 ==>
                MessageTTL(m) in AfterLastZero(ts) && forall t <- AfterLastZero(ts) :: MessageTTL(m) <= t)
            && (0 !in ts ==> AfterLastZero(ts) == ts)
  {
    var ts := Ttls(AllRecords(m));
    if AfterLastZero(ts) != [] {
      LeastIsLeast(AfterLastZero(ts));
    }
    if TailStart(ts) > 0 {
      assert ts[TailStart(ts) - 1] in ts;
    }
  }

  lemma {:induction false} LeastOfZero(ts: seq<nat>)
    requires 0 in ts
    ensures Least(ts) == 0
  {
    LeastIsLeast(ts);
  }

  /** The restart after a zero is exactly what can go wrong: the number is the minimum of all TTLs if and
      only if none is zero or the last one is. */
  lemma MinimumExactly(m: Value)
    ensures var ts := Ttls(AllRecords(m));
            MessageTTL(m) == Least(ts) <==> 0 !in ts || ts[|ts| - 1] == 0
  {
    TTLMeans(m);
    var ts := Ttls(AllRecords(m));
    if 0 in ts { LeastOfZero(ts); }
  }

  /** Such a message: a record that must not be cached, followed by one that may be. */
  lemma ZeroIsForgotten()
    ensures var m := Value(0, 0, true, [], [RR(1, 1, 0, 1), RR(1, 1, 300, 2)], [], []);
            Least(Ttls(AllRecords(m))) == 0 && MessageTTL(m) == 300
  {
    var m := Value(0, 0, true, [], [RR(1, 1, 0, 1), RR(1, 1, 300, 2)], [], []);
    assert Ttls(AllRecords(m)) == [0, 300];
    assert [0, 300][..1] == [0];
    assert TailStart([0, 300]) == 1 && AfterLastZero([0, 300]) == [300];
    LeastOfZero([0, 300]);
  }

  lemma {:induction false} AfterLastZeroOfSum(a: seq<nat>, b: seq<nat>)
    ensures AfterLastZero(a + b) == if 0 in b then AfterLastZero(b) else AfterLastZero(a) + b
  {
    if b == [] {
      assert a + b == a;
    } else {
      var before, last := b[..|b| - 1], b[|b| - 1];
      assert (a + b)[..|a + b| - 1] == a + before;
      assert b == before + [last];
      if last != 0 { AfterLastZeroOfSum(a, before); }
    }
  }

  lemma LeastIs(ts: seq<nat>, v: nat)
    requires v in ts && forall t <- ts :: v <= t
    ensures Least(ts) == v
  {
    LeastIsLeast(ts);
  }

  /** One more element among others. */
  lemma LeastOfMore(a: seq<nat>, o: nat, b: seq<nat>)
    ensures Least(a + [o] + b) == if a + b == [] || o <= Least(a + b) then o else Least(a + b)
  {
    var all := a + [o] + b;
    assert forall t :: t in all <==> t in a + b || t == o;
    if a + b == [] || o <= Least(a + b) {
      if a + b != [] { LeastIsLeast(a + b); }
      LeastIs(all, o);
    } else {
      LeastIsLeast(a + b);
      LeastIs(all, Least(a + b));
    }
  }

  lemma AfterLastZeroSnoc(a: seq<nat>, o: nat)
    ensures AfterLastZero(a + [o]) == if o == 0 then [] else AfterLastZero(a) + [o]
  {
    assert (a + [o])[..|a|] == a;
  }

  /** What is left after the last zero of TTLs with `o` among them. */
  lemma TailOfMore(a: seq<nat>, o: nat, b: seq<nat>)
    ensures AfterLastZero(a + [o] + b) ==
            if 0 in b then AfterLastZero(b) else if o == 0 then b else AfterLastZero(a) + [o] + b
  {
    AfterLastZeroOfSum(a + [o], b);
    AfterLastZeroSnoc(a, o);
    assert [] + b == b;
  }

  lemma LeastIsPositive(ts: seq<nat>)
    requires 0 !in ts && ts != []
    ensures Least(ts) != 0
  {
    LeastIsLeast(ts);
  }

  /** A number `o` among TTLs, wherever it stands: it leaves the result alone exactly if a zero follows, or,
      with none following, if it is no less than a result that is not 0; a zero takes all before it away. */
  lemma OneMoreExactly(a: seq<nat>, o: nat, b: seq<nat>)
    ensures var t, n := Least(AfterLastZero(a + b)), Least(AfterLastZero(a + [o] + b));
            && (0 in b ==> n == t)
            && (0 !in b && o > 0 ==> n <= o && (n == t <==> t != 0 && t <= o))
            && (0 !in b && o == 0 ==> n == Least(b))
  {
    AfterLastZeroOfSum(a, b);
    TailOfMore(a, o, b);
    if 0 !in b && o > 0 {
      var tail := AfterLastZero(a);
      LeastOfMore(tail, o, b);
      assert 0 !in tail + b;
      if tail + b != [] { LeastIsPositive(tail + b); }
    }
  }

  /** The packed field of an OPT record counts as a TTL. With the OPT record anywhere in the additional
      section: it leaves the number alone if a zero TTL follows; without one, a field that is not 0 does so
      exactly if the number is neither 0 nor greater, and a field 0, without version and flags, exactly if
      the least TTL that follows (0 if none does) is the number. */
  lemma OptExactly(m: Value, before: seq<RR>, opt: RR, after: seq<RR>)
    requires m.extra == before + after
    ensures var t, n := MessageTTL(m), MessageTTL(m.(extra := before + [opt] + after));
            && (0 in Ttls(after) ==> n == t)
            && (0 !in Ttls(after) && opt.ttl > 0 ==> n <= opt.ttl && (n == t <==> t != 0 && t <= opt.ttl))
            && (0 !in Ttls(after) && opt.ttl == 0 ==> n == Least(Ttls(after)) && (n == t <==> t == Least(Ttls(after))))
  {
    var n := m.(extra := before + [opt] + after);
    var a, b := Ttls(m.answer + m.ns + before), Ttls(after);
    assert Ttls(AllRecords(m)) == a + b;
    assert Ttls(AllRecords(n)) == a + [opt.ttl] + b;
    OneMoreExactly(a, opt.ttl, b);
  }

  /** The usual place of an OPT record is the last: then it leaves the number alone exactly if its field is
      no less than it, or is 0 where it is 0. */
  lemma TrailingOptExactly(m: Value, opt: RR)
    ensures var t, n := MessageTTL(m), MessageTTL(m.(extra := m.extra + [opt]));
            && (n == t <==> if t == 0 then opt.ttl == 0 else t <= opt.ttl)
            && (opt.ttl == 0 ==> n == 0)
            && n <= opt.ttl
  {
    assert m.extra == m.extra + [] && m.extra + [opt] == m.extra + [opt] + [];
    OptExactly(m, m.extra, opt, []);
  }

  function WithTTL(rrs: seq<RR>, ttl: nat): (r: seq<RR>)
    ensures |r| == |rrs| && forall i | 0 <= i < |rrs| :: r[i] == rrs[i].(ttl := ttl)
  {
    seq(|rrs|, i requires 0 <= i < |rrs| => rrs[i].(ttl := ttl))
  }

  // ---- EDNS ----

  /** The EDNS record: the last OPT record of the additional section. */
  function Edns(extra: seq<RR>): (r: Option<RR>)
    ensures r.Some? ==> r.value in extra && r.value.rtype == OPT
    ensures r.None? ==> forall rr <- extra :: rr.rtype != OPT
  {
    if extra == [] then None
    else if extra[|extra| - 1].rtype == OPT then Some(extra[|extra| - 1])
    else Edns(extra[..|extra| - 1])
  }

  /** The EDNS record of a message is its last record of type 41, section 6.1.1 of RFC 6891. */
  lemma {:induction false} EdnsExactly(before: seq<RR>, opt: RR, after: seq<RR>)
    requires opt.rtype == 41 && forall rr <- after :: rr.rtype != 41
    ensures Edns(before + [opt] + after) == Some(opt)
  {
    var extra := before + [opt] + after;
    if after == [] {
      assert extra[..|extra| - 1] == before;
    } else {
      assert extra[..|extra| - 1] == before + [opt] + after[..|after| - 1];
      EdnsExactly(before, opt, after[..|after| - 1]);
    }
  }

  function Version(opt: RR): nat {
    (opt.ttl / 0x1_0000) % 0x100
  }

  function Do(opt: RR): bool {
    (opt.ttl / 0x8000) % 2 == 1
  }

  function NewOpt(udpSize: nat, d: bool): RR {
    RR(OPT, udpSize, if d then 0x8000 else 0, 0)
  }

  function WithoutOpt(extra: seq<RR>): (r: seq<RR>)
    ensures forall rr <- r :: rr in extra && rr.rtype != OPT
  {
    Filter((rr: RR) => rr.rtype != OPT, extra)
  }

  /** The additional section after the adjustment of a response to its request. */
  function Backwards(request: seq<RR>, response: seq<RR>): seq<RR> {
    var req, resp := Edns(request), Edns(response);
    if resp.Some? && (req.None? || Version(req.value) < Version(resp.value)) then
      WithoutOpt(response) + (if req.Some? then [NewOpt(req.value.rclass, Do(resp.value))] else [])
    else response
  }

  lemma {:induction false} FilterIdempotent(extra: seq<RR>)
    requires forall rr <- extra :: rr.rtype != OPT
    ensures WithoutOpt(extra) == extra
  {
    if extra != [] { FilterIdempotent(extra[1..]); }
  }

  /** Overwriting TTLs keeps the EDNS record, with its packed field overwritten. */
  lemma {:induction false} EdnsWithTTL(extra: seq<RR>, ttl: nat)
    ensures Edns(WithTTL(extra, ttl)) == match Edns(extra) case None => None case Some(opt) => Some(opt.(ttl := ttl))
  {
    if extra != [] {
      EdnsWithTTL(extra[..|extra| - 1], ttl);
      assert WithTTL(extra, ttl)[..|extra| - 1] == WithTTL(extra[..|extra| - 1], ttl);
    }
  }

  lemma NewOptFields(udpSize: nat, d: bool)
    ensures Version(NewOpt(udpSize, d)) == 0 && Do(NewOpt(udpSize, d)) == d
  {
  }

  lemma PlainHasNoEdns(extra: seq<RR>)
    requires forall rr <- extra :: rr.rtype != OPT
    ensures Edns(extra).None?
  {
  }

  lemma EdnsOfSnoc(extra: seq<RR>, opt: RR)
    requires opt.rtype == OPT
    ensures Edns(extra + [opt]) == Some(opt)
  {
  }

  /** A response carries EDNS only to a request that did, and its version is no higher, section 7 of
      RFC 6891; the DO flag stays where EDNS is kept, and a record that is replaced takes the request's
      UDP size. */
  lemma BackwardsMeans(request: seq<RR>, response: seq<RR>)
    ensures var r := Edns(Backwards(request, response));
            && (r.Some? <==> Edns(request).Some? && Edns(response).Some?)
            && (r.Some? ==> Version(r.value) <= Version(Edns(request).value)
                            && Version(r.value) <= Version(Edns(response).value)
                            && Do(r.value) == Do(Edns(response).value)
                            && (if Version(Edns(request).value) < Version(Edns(response).value)
                                then r.value.rclass == Edns(request).value.rclass else r == Edns(response)))
  {
    var req, resp := Edns(request), Edns(response);
    if resp.Some? && (req.None? || Version(req.value) < Version(resp.value)) {
      PlainHasNoEdns(WithoutOpt(response));
      if req.Some? {
        NewOptFields(req.value.rclass, Do(resp.value));
        EdnsOfSnoc(WithoutOpt(response), NewOpt(req.value.rclass, Do(resp.value)));
      } else {
        assert WithoutOpt(response) + [] == WithoutOpt(response);
      }
    }
  }

  /** `WithoutOpt` leaves out the records of type 41 and nothing else. */
  lemma {:induction false} WithoutOptKeeps(extra: seq<RR>, rr: RR)
    ensures Count(WithoutOpt(extra), rr) == if rr.rtype == 41 then 0 else Count(extra, rr)
  {
    if extra != [] {
      var one, rest := if extra[0].rtype != OPT then [extra[0]] else [], WithoutOpt(extra[1..]);
      WithoutOptKeeps(extra[1..], rr);
      assert WithoutOpt(extra) == one + rest;
      CountAppend(one, rest, rr);
      assert [extra[0]][1..] == [];
    }
  }

  /** The adjustment leaves all other records of the section alone, each as often as before and in their
      order. */
  lemma BackwardsKeepsOthers(request: seq<RR>, response: seq<RR>)
    ensures WithoutOpt(Backwards(request, response)) == WithoutOpt(response)
    ensures forall rr: RR | rr.rtype != 41 :: Count(Backwards(request, response), rr) == Count(response, rr)
  {
    forall rr: RR | rr.rtype != 41
      ensures WithoutOpt(Backwards(request, response)) == WithoutOpt(response) ==>
                Count(Backwards(request, response), rr) == Count(response, rr)
    {
      WithoutOptKeeps(Backwards(request, response), rr);
      WithoutOptKeeps(response, rr);
    }
    var plain := WithoutOpt(response);
    FilterIdempotent(plain);
    if Backwards(request, response) != response {
      var tail := if Edns(request).Some? then [NewOpt(Edns(request).value.rclass, Do(Edns(response).value))] else [];
      FilterAppend((rr: RR) => rr.rtype != OPT, plain, tail);
      assert WithoutOpt(tail) == [];
    }
  }

  // ---- the mutable message ----

  class Message {
    var id: nat
    var rcode: nat
    var response: bool
    var question: seq<Question>
    var answer: seq<RR>
    var ns: seq<RR>
    var extra: seq<RR>

    function Get(): Value
      reads this
    {
      Value(id, rcode, response, question, answer, ns, extra)
    }

    constructor (v: Value)
      ensures Get() == v
    {
      id, rcode, response, question := v.id, v.rcode, v.response, v.question;
      answer, ns, extra := v.answer, v.ns, v.extra;
    }

    /** A deep copy. */
    method Copy() returns (m: Message)
      ensures fresh(m) && m.Get() == Get()
    {
      m := new Message(Get());
    }
  }

  /** The loops over one section; `seen` are the TTLs of the sections before. */
  method LowerTTL(start: nat, rrs: seq<RR>, ghost seen: seq<nat>) returns (ttl: nat)
    requires start == Least(AfterLastZero(seen))
    ensures ttl == Least(AfterLastZero(seen + Ttls(rrs)))
  {
    ttl := start;
    assert seen + Ttls(rrs[..0]) == seen;
    for j := 0 to |rrs|
      invariant ttl == Least(AfterLastZero(seen + Ttls(rrs[..j])))
    {
      RunningIsLeast(seen + Ttls(rrs[..j]), rrs[j].ttl);
      TtlsSnoc(seen, rrs, j);
      if ttl == 0 || ttl > rrs[j].ttl {
        ttl := rrs[j].ttl;
      }
    }
    assert rrs[..|rrs|] == rrs;
  }

  lemma TtlsOfSections(m: Value)
    ensures Ttls(AllRecords(m)) == [] + Ttls(m.answer) + Ttls(m.ns) + Ttls(m.extra)
  {
  }

  method CalculateTTL(m: Message) returns (ttl: nat)
    ensures ttl == MessageTTL(m.Get())
  {
    ttl := LowerTTL(0, m.answer, []);
    ttl := LowerTTL(ttl, m.ns, [] + Ttls(m.answer));
    ttl := LowerTTL(ttl, m.extra, [] + Ttls(m.answer) + Ttls(m.ns));
    TtlsOfSections(m.Get());
  }

  method WriteTTL(rrs: seq<RR>, ttl: nat) returns (r: seq<RR>)
    ensures r == WithTTL(rrs, ttl)
  {
    r := rrs;
    for i := 0 to |rrs|
      invariant |r| == |rrs| && r[..i] == WithTTL(rrs, ttl)[..i] && r[i..] == rrs[i..]
    {
      r := r[i := r[i].(ttl := ttl)];
    }
  }

  /** Overwrites the TTL of every record; of an OPT record, too, whose field is no TTL. */
  method OverwriteTTL(m: Message, ttl: nat)
    modifies m
    ensures m.Get() == old(m.Get()).(answer := WithTTL(old(m.answer), ttl), ns := WithTTL(old(m.ns), ttl),
      extra := WithTTL(old(m.extra), ttl))
  {
    m.answer := WriteTTL(m.answer, ttl);
    m.ns := WriteTTL(m.ns, ttl);
    m.extra := WriteTTL(m.extra, ttl);
  }

  method EdnsBackwards(req: Message, resp: Message)
    requires req != resp
    modifies resp`extra
    ensures resp.extra == Backwards(req.extra, old(resp.extra))
  {
    var requestEdns0, responseEdns0 := Edns(req.extra), Edns(resp.extra);
    if responseEdns0.Some? && (requestEdns0.None? || Version(requestEdns0.value) < Version(responseEdns0.value)) {
      resp.extra := WithoutOpt(resp.extra);
      if requestEdns0.Some? {
        resp.extra := resp.extra + [NewOpt(requestEdns0.value.rclass, Do(responseEdns0.value))];
      }
    }
  }
}
