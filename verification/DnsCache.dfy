/**
 The DNS cache. Times are nanoseconds; `unit` is the number of nanoseconds that one unit of TTL adds
 to an expiry time (the source adds single nanoseconds where seconds are meant).
 */
module DnsCache {
  import opened Prelude
  import opened DnsMessage

  const SECOND: nat := 1_000_000_000
  const TWO32: nat := 0x1_0000_0000

  function Clamp(minTTL: nat, maxTTL: nat, ttl: nat): nat {
    var t := if minTTL > ttl then minTTL else ttl;
    if maxTTL < t then maxTTL else t
  }

  function Expiry(now: int, ttl: nat, unit: nat): int {
    now + ttl * unit
  }

  /** The whole seconds that are left, truncated toward zero and to 32 bits. */
  function Remaining(expire: int, now: int): nat {
    var d := expire - now;
    if d >= 0 then (d / SECOND) % TWO32 else (TWO32 - ((-d) / SECOND) % TWO32) % TWO32
  }

  /** Whether an entry is still served. */
  predicate Serves(expire: int, now: int) {
    expire >= now && Remaining(expire, now) != 0
  }

  lemma {:induction false} TimesUnit(ttl: nat, unit: nat, bound: nat)
    requires unit <= bound
    ensures 0 <= ttl * unit <= ttl * bound
  {
    if ttl > 0 { TimesUnit(ttl - 1, unit, bound); }
  }

  /** What a hit promises: the TTL served is at least 1, fits 32 bits without truncation, and together
      with the time since the entry was stored never exceeds the lifetime it was stored with. */
  lemma ServedTTLIsSafe(stored: int, now: int, ttl: nat, unit: nat)
    requires stored <= now && ttl < TWO32 && 0 < unit <= SECOND
    requires Serves(Expiry(stored, ttl, unit), now)
    ensures var left := Remaining(Expiry(stored, ttl, unit), now);
            && 1 <= left < TWO32
            && left * SECOND + (now - stored) <= ttl * unit
            && left == (Expiry(stored, ttl, unit) - now) / SECOND
            && left <= ttl
  {
    TimesUnit(ttl, unit, SECOND);
    var d := Expiry(stored, ttl, unit) - now;
    assert 0 <= d <= ttl * SECOND;
    assert d / SECOND <= ttl;
  }

  /** Exactly how long an entry is served: while at least a second of its lifetime is left. */
  lemma ServedExactly(stored: int, now: int, ttl: nat, unit: nat)
    requires stored <= now && ttl < TWO32 && 0 < unit <= SECOND
    ensures Serves(Expiry(stored, ttl, unit), now) <==> now - stored + SECOND <= ttl * unit
  {
    TimesUnit(ttl, unit, SECOND);
    var d := Expiry(stored, ttl, unit) - now;
    if d >= 0 {
      assert d / SECOND <= ttl;
    }
  }

  /** With seconds as the unit an entry of TTL t is served for t - 1 seconds; with nanoseconds, as the
      code has it, only entries with a TTL of at least 10^9 are ever served at all. */
  lemma UnitMatters(stored: int, ttl: nat)
    requires ttl < TWO32
    ensures forall now: int | stored <= now :: Serves(Expiry(stored, ttl, SECOND), now) <==>
      now - stored <= (ttl - 1) * SECOND
    ensures (exists now: int :: stored <= now && Serves(Expiry(stored, ttl, 1), now)) <==> ttl >= SECOND
  {
    forall now: int | stored <= now
      ensures Serves(Expiry(stored, ttl, SECOND), now) <==> now - stored <= (ttl - 1) * SECOND
      ensures Serves(Expiry(stored, ttl, 1), now) <==> now - stored + SECOND <= ttl
    {
      ServedExactly(stored, now, ttl, SECOND);
      ServedExactly(stored, now, ttl, 1);
    }
    assert Serves(Expiry(stored, ttl, 1), stored) <==> SECOND <= ttl;
  }

  /** From the records to the reply: what a hit serves derives from the clamped TTL of the message. */
  lemma HitTTLDerives(m: Value, minTTL: nat, maxTTL: nat, stored: int, now: int)
    requires minTTL <= maxTTL < TWO32 && stored <= now
    requires Serves(Expiry(stored, Clamp(minTTL, maxTTL, MessageTTL(m)), SECOND), now)
    ensures var lifetime := Clamp(minTTL, maxTTL, MessageTTL(m));
            var left := Remaining(Expiry(stored, lifetime, SECOND), now);
            && minTTL <= lifetime <= maxTTL
            && (minTTL <= MessageTTL(m) <= maxTTL ==> lifetime == MessageTTL(m))
            && 1 <= left && left * SECOND + (now - stored) <= lifetime * SECOND
            && (minTTL <= MessageTTL(m) && 0 !in Ttls(AllRecords(m)) ==> forall rr <- AllRecords(m) :: left <= rr.ttl)
  {
    var lifetime := Clamp(minTTL, maxTTL, MessageTTL(m));
    var left := Remaining(Expiry(stored, lifetime, SECOND), now);
    ServedTTLIsSafe(stored, now, lifetime, SECOND);
    TTLMeans(m);
    if minTTL <= MessageTTL(m) && 0 !in Ttls(AllRecords(m)) {
      MessageTTLIsBound(m);
    }
  }

  lemma MessageTTLIsBound(m: Value)
    requires 0 !in Ttls(AllRecords(m))
    ensures forall rr <- AllRecords(m) :: MessageTTL(m) <= rr.ttl
  {
    TTLMeans(m);
    forall rr <- AllRecords(m)
      ensures MessageTTL(m) <= rr.ttl
    {
      var i :| 0 <= i < |AllRecords(m)| && AllRecords(m)[i] == rr;
      assert Ttls(AllRecords(m))[i] == rr.ttl;
      assert rr.ttl in Ttls(AllRecords(m));
    }
  }

  // ---- the cache ----

  datatype Entry = Entry(expire: int, message: Message)

  /** What the constructor would give for a request. */
  datatype Build = NoConstructor | BuildFails(err: nat) | Built(message: Message)

  datatype Outcome = Nothing | Failure(err: nat) | Reply(message: Message)

  const FORMAT_ERROR: nat := 1
  const SUCCESS: nat := 0

  /** The reply made from a stored message. */
  function HitReply(request: Value, stored: Value, ttl: nat): Value {
    stored.(id := request.id, answer := WithTTL(stored.answer, ttl), ns := WithTTL(stored.ns, ttl),
            extra := Backwards(request.extra, WithTTL(stored.extra, ttl)))
  }

  /** The reply made from a message that has just been built. */
  function MissReply(request: Value, built: Value): Value {
    built.(id := request.id, extra := Backwards(request.extra, built.extra))
  }

  /** The DO flag and the version that the served TTL looks like in the place of an OPT record's field. */
  function DoBit(ttl: nat): bool {
    (ttl / 0x8000) % 2 == 1
  }

  function VersionBits(ttl: nat): nat {
    (ttl / 0x1_0000) % 0x100
  }

  lemma SmallTTLs(ttl: nat)
    ensures ttl < 0x8000 ==> !DoBit(ttl)
    ensures ttl < 0x1_0000 ==> VersionBits(ttl) == 0
  {
  }

  /** The EDNS record of a reply. */
  ghost predicate EdnsFits(request: Value, m: Value, r: Value) {
    && (Edns(r.extra).Some? <==> Edns(request.extra).Some? && Edns(m.extra).Some?)
    && (Edns(r.extra).Some? ==> Version(Edns(r.extra).value) <= Version(Edns(request.extra).value))
  }

  /** Every reply on the cached path answers its request: it has the request's id and the message's
      question, and EDNS only if the request has, in no higher version. A reply from a message just
      built keeps its DO flag; a hit has the served TTL's bit 15 instead. */
  lemma RepliesFit(request: Value, m: Value, ttl: nat)
    ensures var miss, hit := MissReply(request, m), HitReply(request, m, ttl);
            && miss.id == request.id && miss.question == m.question && EdnsFits(request, m, miss)
            && hit.id == request.id && hit.question == m.question && EdnsFits(request, m, hit)
            && (Edns(miss.extra).Some? ==> Do(Edns(miss.extra).value) == Do(Edns(m.extra).value))
            && (Edns(hit.extra).Some? ==> Do(Edns(hit.extra).value) == DoBit(ttl))
  {
    BackwardsMeans(request.extra, m.extra);
    BackwardsMeans(request.extra, WithTTL(m.extra, ttl));
    EdnsWithTTL(m.extra, ttl);
  }

  /** A reply carries the records of the message, in order, and a hit gives each of them the TTL that is left;
      of the additional section that holds for all records but the EDNS one. */
  lemma RepliesCarryRecords(request: Value, m: Value, ttl: nat)
    ensures var miss, hit := MissReply(request, m), HitReply(request, m, ttl);
            && miss.answer == m.answer && miss.ns == m.ns && WithoutOpt(miss.extra) == WithoutOpt(m.extra)
            && |hit.answer| == |m.answer| && |hit.ns| == |m.ns|
            && (forall i | 0 <= i < |m.answer| :: hit.answer[i] == m.answer[i].(ttl := ttl))
            && (forall i | 0 <= i < |m.ns| :: hit.ns[i] == m.ns[i].(ttl := ttl))
            && WithoutOpt(hit.extra) == WithTTL(WithoutOpt(m.extra), ttl)
            && miss.rcode == hit.rcode == m.rcode && miss.response == hit.response == m.response
  {
    BackwardsKeepsOthers(request.extra, m.extra);
    BackwardsKeepsOthers(request.extra, WithTTL(m.extra, ttl));
    WithoutOptAndTTL(m.extra, ttl);
  }

  lemma {:induction false} WithoutOptAndTTL(extra: seq<RR>, ttl: nat)
    ensures WithoutOpt(WithTTL(extra, ttl)) == WithTTL(WithoutOpt(extra), ttl)
  {
    if extra != [] {
      WithoutOptAndTTL(extra[1..], ttl);
      assert WithTTL(extra, ttl)[1..] == WithTTL(extra[1..], ttl);
    }
  }

  /** Exactly when a hit keeps the stored DO flag, section 6.1.3 of RFC 6891: when bit 15 of the TTL it
      serves happens to be that flag. A TTL below 2^15 loses the flag exactly if it was set. */
  lemma HitKeepsDoExactly(request: Value, stored: Value, ttl: nat)
    requires Edns(request.extra).Some? && Edns(stored.extra).Some?
    ensures var was, now := Edns(stored.extra).value, Edns(HitReply(request, stored, ttl).extra);
            && now.Some?
            && (Do(now.value) == Do(was) <==> Do(was) == DoBit(ttl))
            && (ttl < 0x8000 ==> !Do(now.value))
  {
    RepliesFit(request, stored, ttl);
    SmallTTLs(ttl);
  }

  /** Exactly when a hit keeps the stored version: the TTL's bits 16 to 23 take its place, and are lowered
      to 0 when the request's version is below them. A TTL below 2^16 turns any version into 0. */
  lemma HitKeepsVersionExactly(request: Value, stored: Value, ttl: nat)
    requires Edns(request.extra).Some? && Edns(stored.extra).Some?
    ensures var was, now := Edns(stored.extra).value, Edns(HitReply(request, stored, ttl).extra);
            && now.Some?
            && (Version(now.value) == Version(was) <==>
                Version(was) == if VersionBits(ttl) <= Version(Edns(request.extra).value) then VersionBits(ttl) else 0)
            && (ttl < 0x1_0000 ==> Version(now.value) == 0)
  {
    var req, extra := Edns(request.extra).value, WithTTL(stored.extra, ttl);
    BackwardsMeans(request.extra, extra);
    EdnsWithTTL(stored.extra, ttl);
    SmallTTLs(ttl);
    assert Version(Edns(extra).value) == VersionBits(ttl);
    if Version(req) < VersionBits(ttl) {
      EdnsOfSnoc(WithoutOpt(extra), NewOpt(req.rclass, Do(Edns(extra).value)));
      NewOptFields(req.rclass, Do(Edns(extra).value));
    }
  }

  /** The code's own unit: a hit serves a TTL of 1 to 4, so with EDNS in the request and in the stored
      message its DO flag is off and its version 0, whatever they were. */
  lemma NanosecondHits(request: Value, m: Value, stored: int, now: int, ttl: nat)
    requires stored <= now && ttl < TWO32 && Serves(Expiry(stored, ttl, 1), now)
    requires Edns(request.extra).Some? && Edns(m.extra).Some?
    ensures var left := Remaining(Expiry(stored, ttl, 1), now);
            var r := Edns(HitReply(request, m, left).extra);
            1 <= left <= 4 && r.Some? && !Do(r.value) && Version(r.value) == 0
  {
    var left := Remaining(Expiry(stored, ttl, 1), now);
    ServedTTLIsSafe(stored, now, ttl, 1);
    HitKeepsDoExactly(request, m, left);
    HitKeepsVersionExactly(request, m, left);
  }

  const MAX_TTL: nat := 0xFFFF_FFFF

  /** The lifetime of a message whose records are an answer and an OPT record with the DO flag. */
  lemma SignedLifetime(m: Value, ttl: nat)
    requires m.answer == [RR(1, 1, ttl, 1)] && m.ns == [] && m.extra == [RR(OPT, 1232, 0x8000, 0)]
    requires 0 < ttl < 0x8000
    ensures MessageTTL(m) == ttl
  {
    var first := Value(m.id, m.rcode, m.response, m.question, m.answer, [], []);
    assert m == first.(id := m.id, extra := first.extra + m.extra);
    assert Ttls(AllRecords(first)) == [ttl] && [ttl][..0] == [];
    assert AfterLastZero([ttl]) == [ttl];
    TrailingOptExactly(first, m.extra[0]);
  }

  lemma OneOpt(opt: RR, ttl: nat)
    requires opt.rtype == OPT
    ensures Edns([opt]) == Some(opt) && WithTTL([opt], ttl) == [opt.(ttl := ttl)]
  {
  }

  /** A hit that loses the flag, where the first reply had it. The message has a TTL of 301; were the unit a
      second, it would be served one second later, with a TTL of 300 and without the flag. In nanoseconds
      it is never served with the default bounds; with a least TTL of 2 * 10^9 it is served at once, with a
      TTL of 2 and without the flag. */
  lemma HitLosesDo(now: int)
    ensures var request := Value(7, 0, false, [], [], [], [RR(OPT, 1232, 0x8000, 0)]);
            var stored := Value(1, 0, true, [], [RR(1, 1, 301, 1)], [], [RR(OPT, 1232, 0x8000, 0)]);
            var ttl, least := Clamp(0, MAX_TTL, MessageTTL(stored)), Clamp(2_000_000_000, MAX_TTL, MessageTTL(stored));
            && Do(Edns(stored.extra).value) && MissReply(request, stored).extra == stored.extra
            && ttl == 301
            && Serves(Expiry(now, ttl, SECOND), now + SECOND)
            && Remaining(Expiry(now, ttl, SECOND), now + SECOND) == 300
            && HitReply(request, stored, 300).extra == [RR(OPT, 1232, 300, 0)] && !Do(RR(OPT, 1232, 300, 0))
            && (forall later: int | now <= later :: !Serves(Expiry(now, ttl, 1), later))
            && Serves(Expiry(now, least, 1), now) && Remaining(Expiry(now, least, 1), now) == 2
            && HitReply(request, stored, 2).extra == [RR(OPT, 1232, 2, 0)] && !Do(RR(OPT, 1232, 2, 0))
  {
    var stored := Value(1, 0, true, [], [RR(1, 1, 301, 1)], [], [RR(OPT, 1232, 0x8000, 0)]);
    var opt := RR(OPT, 1232, 0x8000, 0);
    SignedLifetime(stored, 301);
    OneOpt(opt, 300);
    OneOpt(opt, 2);
    OneOpt(opt.(ttl := 300), 0);
    OneOpt(opt.(ttl := 2), 0);
    forall later: int | now <= later ensures !Serves(Expiry(now, 301, 1), later) { ServedExactly(now, later, 301, 1); }
  }

  class Cache {
    var lru: map<Question, Entry>
    const minTTL: nat
    const maxTTL: nat
    const unit: nat

    /** Every entry is stored under the one question of its message. */
    ghost predicate Valid()
      reads this, set q | q in lru :: lru[q].message
    {
      && minTTL <= maxTTL < TWO32
      && forall q <- lru :: lru[q].message.question == [q]
    }

    /** The options are adjusted so that the bounds are in order. */
    constructor (minTTL: nat, maxTTL: nat, unit: nat)
      requires minTTL < TWO32 && maxTTL < TWO32
      ensures Valid() && lru == map[] && this.unit == unit
      ensures this.minTTL == minTTL && this.maxTTL == if maxTTL < minTTL then minTTL else maxTTL
    {
      this.minTTL := minTTL;
      this.maxTTL := if maxTTL < minTTL then minTTL else maxTTL;
      this.unit := unit;
      lru := map[];
    }

    /** Whether a message is worth storing, and with which lifetime. */
    ghost predicate Storable(m: Value) {
      |m.question| == 1 && Clamp(minTTL, maxTTL, MessageTTL(m)) > 1
    }

    /** What is stored is worth it: served in seconds, it is still there when a second has passed. */
    lemma StorableExactly(m: Value, now: int)
      requires minTTL <= maxTTL < TWO32
      ensures Storable(m) <==>
        |m.question| == 1 && Serves(Expiry(now, Clamp(minTTL, maxTTL, MessageTTL(m)), SECOND), now + SECOND)
    {
      UnitMatters(now, Clamp(minTTL, maxTTL, MessageTTL(m)));
    }

    /** How storing `message` changes the table: it is entered under its question if it is storable,
        and the other entries stay, except for evicted ones. */
    ghost predicate StoreEffect(before: map<Question, Entry>, after: map<Question, Entry>, message: Message, now: int,
        evicted: set<Question>)
      reads message
    {
      if !Storable(message.Get()) then after == before
      else
        var q := message.question[0];
        && after.Keys == (before.Keys - evicted) + {q}
        && after[q] == Entry(Expiry(now, Clamp(minTTL, maxTTL, MessageTTL(message.Get())), unit), message)
        && forall k <- after :: k != q ==> after[k] == before[k]
    }

    /** `evicted` are the keys that the table drops to make room. */
    method Store(message: Message, now: int, evicted: set<Question>) returns (ok: bool)
      requires Valid()
      modifies this`lru
      ensures Valid()
      ensures ok <==> Storable(message.Get())
      ensures StoreEffect(old(lru), lru, message, now, evicted)
    {
      if |message.question| != 1 {
        return false;
      }
      var ttl := CalculateTTL(message);
      ttl := if minTTL > ttl then minTTL else ttl;
      ttl := if maxTTL < ttl then maxTTL else ttl;
      if ttl <= 1 {
        return false;
      }
      var question := message.question[0];
      lru := (lru - evicted)[question := Entry(Expiry(now, ttl, unit), message)];
      ok := true;
    }

    method Clear() returns (n: nat)
      modifies this`lru
      ensures lru == map[] && n == |old(lru)|
    {
      n := |lru|;
      lru := map[];
    }

    /** The table holds an entry under the question that is still served. */
    ghost predicate Hits(q: Question, now: int)
      reads this
    {
      q in lru && Serves(lru[q].expire, now)
    }

    /** `now` is the time of the lookup, `later` the time at which a built message is stored. The frame
        says that no message that existed before, in particular none that is stored, is written to. The
        codes are those of section 4.1.1 of RFC 1035: 0 is a success, 1 a format error. */
    method LoadOrStore(request: Message, build: Build, now: int, later: int, evicted: set<Question>)
        returns (r: Outcome)
      requires Valid()
      modifies this`lru
      ensures Valid()
      // not cacheable
      ensures |request.question| == 0 ==>
                && lru == old(lru) && r.Reply? && fresh(r.message)
                && r.message.Get() == Value(request.id, 1, true, request.question, [], [], [])
      ensures |request.question| > 1 ==>
                && lru == old(lru)
                && (match build
                    case NoConstructor => r == Nothing
                    case BuildFails(e) => r == Failure(e)
                    case Built(m) => r == Reply(m))
      // hit: nothing changes, the reply is a new message
      ensures |request.question| == 1 && old(Hits(request.question[0], now)) ==>
                var e := old(lru)[request.question[0]];
                && lru == old(lru) && r.Reply? && fresh(r.message)
                && r.message.Get() == HitReply(request.Get(), e.message.Get(), Remaining(e.expire, now))
                && r.message.question == request.question
      // miss
      ensures |request.question| == 1 && !old(Hits(request.question[0], now)) ==>
                && (match build
                    case NoConstructor => r == Nothing
                    case BuildFails(e) => r == Failure(e)
                    case Built(m) =>
                      r.Reply? && fresh(r.message) && r.message.Get() == MissReply(request.Get(), m.Get()))
                && (var left := old(lru) - {request.question[0]};
                    if build.Built? && build.message.rcode == 0 then
                      StoreEffect(left, lru, build.message, later, evicted)
                    else lru == left)
    {
      if |request.question| == 0 {
        var response := new Message(Value(request.id, FORMAT_ERROR, true, request.question, [], [], []));
        return Reply(response);
      }
      if |request.question| != 1 {
        match build {
          case NoConstructor => return Nothing;
          case BuildFails(e) => return Failure(e);
          case Built(m) => return Reply(m);
        }
      }
      var question := request.question[0];
      if question in lru {
        var e := lru[question];
        if Serves(e.expire, now) {
          r := Hit(request, e, Remaining(e.expire, now));
          return;
        }
        lru := lru - {question};
      }
      r := Miss(request, build, later, evicted);
    }

    /** Builds a reply and stores it if it is a success; the caller gets a copy. */
    method Miss(request: Message, build: Build, later: int, evicted: set<Question>) returns (r: Outcome)
      requires Valid()
      modifies this`lru
      ensures Valid()
      ensures match build
              case NoConstructor => r == Nothing
              case BuildFails(e) => r == Failure(e)
              case Built(m) => r.Reply? && fresh(r.message) && r.message.Get() == MissReply(request.Get(), m.Get())
      ensures if build.Built? && build.message.rcode == SUCCESS
              then StoreEffect(old(lru), lru, build.message, later, evicted)
              else lru == old(lru)
    {
      match build {
        case NoConstructor => r := Nothing;
        case BuildFails(e) => r := Failure(e);
        case Built(m) =>
          if m.rcode == SUCCESS {
            var _ := Store(m, later, evicted);
          }
          var response := m.Copy();
          EdnsBackwards(request, response);
          response.id := request.id;
          r := Reply(response);
      }
    }

    method Hit(request: Message, e: Entry, ttl: nat) returns (r: Outcome)
      ensures r.Reply? && fresh(r.message) && r.message.Get() == HitReply(request.Get(), e.message.Get(), ttl)
    {
      var response := e.message.Copy();
      response.id := request.id;
      OverwriteTTL(response, ttl);
      EdnsBackwards(request, response);
      return Reply(response);
    }
  }

  /** The whole seconds that are left of a lifetime. */
  function SecondsLeft(lifetime: nat, elapsed: int): (left: nat)
    requires elapsed <= lifetime * SECOND
    ensures left * SECOND <= lifetime * SECOND - elapsed < (left + 1) * SECOND
  {
    (lifetime * SECOND - elapsed) / SECOND
  }

  lemma ServesSecondsLeft(stored: int, now: int, lifetime: nat)
    requires lifetime < TWO32 && stored <= now && now - stored <= (lifetime - 1) * SECOND
    ensures Serves(Expiry(stored, lifetime, SECOND), now)
    ensures Remaining(Expiry(stored, lifetime, SECOND), now) == SecondsLeft(lifetime, now - stored) >= 1
  {
    UnitMatters(stored, lifetime);
    ServedTTLIsSafe(stored, now, lifetime, SECOND);
  }

  /** Storing a message and asking for it later, with no eviction in between: the reply carries the
      question asked, the asker's id and the whole seconds left of the lifetime as its TTL; the stored message is as
      before and is served again. */
  method StoreThenLoad(cache: Cache, message: Message, request: Message, stored: int, now: int) returns (r: Outcome)
    requires cache.Valid() && cache.unit == SECOND
    requires message.question == request.question && |message.question| == 1
    requires var ttl := Clamp(cache.minTTL, cache.maxTTL, MessageTTL(message.Get()));
             ttl > 1 && stored <= now && now - stored <= (ttl - 1) * SECOND
    modifies cache`lru
    ensures cache.Valid() && r.Reply? && fresh(r.message)
    ensures var lifetime := Clamp(cache.minTTL, cache.maxTTL, MessageTTL(message.Get()));
            var left := SecondsLeft(lifetime, now - stored);
            1 <= left && r.message.Get() == HitReply(request.Get(), message.Get(), left)
    ensures request.question[0] in cache.lru && cache.lru[request.question[0]].message == message
  {
    var ok := cache.Store(message, stored, {});
    ghost var ttl := Clamp(cache.minTTL, cache.maxTTL, MessageTTL(message.Get()));
    ServesSecondsLeft(stored, now, ttl);
    r := cache.LoadOrStore(request, NoConstructor, now, now, {});
  }
}
