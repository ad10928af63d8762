/** Serial dialing: one address after the other until one answers. */
module DialSerial {
  import opened Prelude

  /** An IP address as `netip.Addr` sees it; the zero value is `Invalid`. */
  datatype Addr = Invalid | V4(bits: nat) | V4In6(bits: nat) | V6(bits: nat) {
    predicate Is4() { V4? }
    predicate Is4In6() { V4In6? }
    predicate Is6() { V6? || V4In6? }
    predicate IsValid() { !Invalid? }
  }

  /** The family tests of the address helpers: a mapped IPv4 address counts as IPv4. */
  predicate Family4(a: Addr) { a.Is4() || a.Is4In6() }
  predicate Family6(a: Addr) { a.Is6() && !a.Is4In6() }

  datatype Version = Dual | Only4 | Only6
  datatype Protocol = TCP | UDP

  /** One answer of the dialer: a connection or an error, both opaque. */
  datatype Answer = Conn(id: nat) | Failed(err: nat)

  /** The dialer as an oracle: its answer may depend on the address and on when it is asked. */
  type Oracle = (nat, Addr) -> Answer

  datatype Cause = BadAddress | DialError(err: nat)
  datatype Outcome = Opened(id: nat) | NoAddress | AllFailed(causes: seq<Cause>)

  predicate Dropped(version: Version, a: Addr) {
    (version == Only4 && a.Is6()) || (version == Only6 && a.Is4())
  }

  function Usable(version: Version, addresses: seq<Addr>): seq<Addr> {
    Filter((a: Addr) => !Dropped(version, a), addresses)
  }

  function Valid(addresses: seq<Addr>): seq<Addr> {
    Filter((a: Addr) => a.IsValid(), addresses)
  }

  lemma ValidSnoc(s: seq<Addr>, a: Addr)
    ensures Valid(s + [a]) == Valid(s) + (if a.IsValid() then [a] else [])
  {
    FilterAppend((a: Addr) => a.IsValid(), s, [a]);
  }

  /** What the source's loop must find: position `k` is the first that answers with a connection. */
  predicate FirstSuccess(dial: Oracle, addresses: seq<Addr>, k: nat) {
    && k < |addresses| && addresses[k].IsValid() && dial(k, addresses[k]).Conn?
    && forall j | 0 <= j < k :: addresses[j].IsValid() ==> dial(j, addresses[j]).Failed?
  }

  /** The errors of the first `n` addresses, in order. */
  function Causes(dial: Oracle, addresses: seq<Addr>, n: nat): seq<Cause>
    requires n <= |addresses|
  {
    if n == 0 then []
    else
      Causes(dial, addresses, n - 1) +
      [if !addresses[n - 1].IsValid() then BadAddress
       else match dial(n - 1, addresses[n - 1]) case Conn(_) => BadAddress case Failed(e) => DialError(e)]
  }

  /** Tells what any result of a serial dial over `addresses` means. */
  ghost predicate Explains(dial: Oracle, addresses: seq<Addr>, result: Outcome, tried: seq<Addr>) {
    match result
    case NoAddress => addresses == [] && tried == []
    case Opened(id) =>
      exists k: nat :: FirstSuccess(dial, addresses, k) && dial(k, addresses[k]) == Conn(id) &&
        tried == Valid(addresses[..k + 1])
    case AllFailed(causes) =>
      && addresses != [] && tried == Valid(addresses)
      && (forall j | 0 <= j < |addresses| :: addresses[j].IsValid() ==> dial(j, addresses[j]).Failed?)
      && causes == Causes(dial, addresses, |addresses|)
  }

  lemma UsableSnoc(version: Version, s: seq<Addr>, i: nat)
    requires i < |s|
    ensures Usable(version, s[..i + 1]) == Usable(version, s[..i]) + (if Dropped(version, s[i]) then [] else [s[i]])
  {
    assert s[..i + 1] == s[..i] + [s[i]];
    FilterAppend((a: Addr) => !Dropped(version, a), s[..i], [s[i]]);
  }

  /** Moves the addresses that stay to the front of the slice, in order. */
  method Compact(a: array<Addr>, version: Version) returns (n: nat)
    modifies a
    ensures n <= a.Length && a[..n] == Usable(version, old(a[..]))
  {
    ghost var before := a[..];
    n := 0;
    for i := 0 to a.Length
      invariant n <= i
      invariant forall j | i <= j < a.Length :: a[j] == before[j]
      invariant a[..n] == Usable(version, before[..i])
    {
      UsableSnoc(version, before, i);
      if !Dropped(version, a[i]) {
        a[n] := a[i];
        n := n + 1;
        assert a[..n] == a[..n - 1] + [before[i]];
      }
    }
    assert before[..a.Length] == before;
  }

  /** The in-place deletion of the addresses of the wrong family. It overwrites the caller's slice:
      the survivors move to the front in order and the tail is zeroed. */
  method DeleteDropped(a: array<Addr>, version: Version) returns (n: nat)
    modifies a
    ensures n <= a.Length && a[..n] == Usable(version, old(a[..]))
    ensures forall j | n <= j < a.Length :: a[j] == Invalid
  {
    n := Compact(a, version);
    ghost var kept := a[..n];
    for i := n to a.Length
      invariant a[..n] == kept
      invariant forall j | n <= j < i :: a[j] == Invalid
    {
      a[i] := Invalid;
    }
  }

  /** The loop over the addresses that are left. */
  method DialEach(dial: Oracle, list: seq<Addr>) returns (result: Outcome, tried: seq<Addr>)
    ensures Explains(dial, list, result, tried)
  {
    tried := [];
    if list == [] {
      return NoAddress, tried;
    }
    var causes := [];
    for i := 0 to |list|
      invariant tried == Valid(list[..i])
      invariant forall j | 0 <= j < i :: list[j].IsValid() ==> dial(j, list[j]).Failed?
      invariant causes == Causes(dial, list, i)
    {
      assert list[..i + 1] == list[..i] + [list[i]];
      ValidSnoc(list[..i], list[i]);
      if !list[i].IsValid() {
        causes := causes + [BadAddress];
        continue;
      }
      tried := tried + [list[i]];
      match dial(i, list[i]) {
        case Conn(id) =>
          assert FirstSuccess(dial, list, i);
          return Opened(id), tried;
        case Failed(e) => causes := causes + [DialError(e)];
      }
    }
    assert list[..|list|] == list;
    result := AllFailed(causes);
  }

  /** `DialSerial`; `tried` lists the addresses handed to the dialer. */
  method Dial(dial: Oracle, version: Version, a: array<Addr>) returns (result: Outcome, tried: seq<Addr>)
    modifies a
    ensures version == Dual ==> a[..] == old(a[..])
    ensures Explains(dial, Usable(version, old(a[..])), result, tried)
  {
    var n := a.Length;
    if version != Dual {
      n := DeleteDropped(a, version);
    } else {
      DualKeepsAll(a[..]);
      assert a[..n] == a[..];
    }
    result, tried := DialEach(dial, a[..n]);
  }

  /** The kind of address that a network of one version dials: a mapped address goes with IPv6 here. */
  predicate Fits(version: Version, a: Addr) {
    match version
    case Dual => a.IsValid()
    case Only4 => a.V4?
    case Only6 => a.V6? || a.V4In6?
  }

  /** What a serial dial tries are addresses of the network's version only, and when it fails all of them. */
  lemma TriedFitVersion(dial: Oracle, version: Version, addresses: seq<Addr>, result: Outcome, tried: seq<Addr>)
    requires Explains(dial, Usable(version, addresses), result, tried)
    ensures forall a <- tried :: a in addresses && Fits(version, a)
    ensures !result.Opened? ==> forall a <- addresses :: Fits(version, a) ==> a in tried
  {
    var keep, usable := (a: Addr) => !Dropped(version, a), Usable(version, addresses);
    forall a: Addr ensures a in usable <==> a in addresses && !Dropped(version, a) { FilterMember(keep, addresses, a); }
    forall a: Addr ensures a in Valid(usable) <==> a in usable && a.IsValid() {
      FilterMember((a: Addr) => a.IsValid(), usable, a);
    }
    if result.Opened? {
      var k: nat :| FirstSuccess(dial, usable, k) && tried == Valid(usable[..k + 1]);
      assert forall a <- tried :: a in usable && a.IsValid();
    }
  }

  lemma {:induction false} DualKeepsAll(s: seq<Addr>)
    ensures Usable(Dual, s) == s
  {
    if s != [] { DualKeepsAll(s[1..]); }
  }

  /** The explanation leaves no choice: it determines the result and the addresses tried. */
  lemma ExplainsIsUnique(dial: Oracle, addresses: seq<Addr>, r1: Outcome, t1: seq<Addr>, r2: Outcome, t2: seq<Addr>)
    requires Explains(dial, addresses, r1, t1) && Explains(dial, addresses, r2, t2)
    ensures r1 == r2 && t1 == t2
  {
    if r1.Opened? {
      var k: nat :| FirstSuccess(dial, addresses, k) && dial(k, addresses[k]) == Conn(r1.id) &&
          t1 == Valid(addresses[..k + 1]);
      if r2.Opened? {
        var m: nat :| FirstSuccess(dial, addresses, m) && dial(m, addresses[m]) == Conn(r2.id) &&
            t2 == Valid(addresses[..m + 1]);
        assert k == m;
      }
    }
  }
}
