/** Expanding a name over the search list. */
module NameList {
  import opened Prelude
  import opened ResolvConf

  const MAX_NAME := 254

  predicate HasSuffix(s: string, suffix: string) {
    |suffix| <= |s| && s[|s| - |suffix|..] == suffix
  }

  /** The names that must not be sent to DNS, as the resolver decides it. */
  predicate AvoidDNS(name: string) {
    if name == "" then true
    else HasSuffix(if name[|name| - 1] == '.' then name[..|name| - 1] else name, ".onion")
  }

  /** A name below the onion domain, absolute or not. */
  ghost predicate UnderOnion(name: string) {
    exists p: string {:trigger p + ".onion"} :: name == p + ".onion" || name == (p + ".onion") + "."
  }

  lemma AvoidsExactlyOnion(name: string)
    ensures AvoidDNS(name) <==> name == "" || UnderOnion(name)
  {
    if name != "" {
      var n := if name[|name| - 1] == '.' then name[..|name| - 1] else name;
      if HasSuffix(n, ".onion") {
        var p := n[..|n| - 6];
        assert n == p + ".onion";
        assert name == n || name == n + ".";
      }
      if UnderOnion(name) {
        var p: string :| name == p + ".onion" || name == (p + ".onion") + ".";
        assert n == p + ".onion";
        assert n[|n| - 6..] == ".onion";
      }
    }
  }

  predicate Admissible(name: string) {
    !AvoidDNS(name) && |name| <= MAX_NAME
  }

  /** The candidates that the search list adds, in its order. */
  function Expanded(absolute: string, search: seq<string>): seq<string> {
    if search == [] then []
    else
      var fqdn := absolute + search[|search| - 1];
      Expanded(absolute, search[..|search| - 1]) + (if Admissible(fqdn) then [fqdn] else [])
  }

  function Rooted(name: string): bool {
    name != "" && name[|name| - 1] == '.'
  }

  function Names(search: seq<string>, ndots: nat, name: string): seq<string> {
    if |name| > MAX_NAME || (|name| == MAX_NAME && !Rooted(name)) then []
    else if Rooted(name) then if AvoidDNS(name) then [] else [name]
    else
      var absolute := name + ".";
      var alone := if AvoidDNS(absolute) then [] else [absolute];
      if Count(name, '.') >= ndots then alone + Expanded(absolute, search) else Expanded(absolute, search) + alone
  }

  method List(search: seq<string>, ndots: nat, name: string) returns (names: seq<string>)
    ensures names == Names(search, ndots, name)
  {
    var l := |name|;
    var rooted := l > 0 && name[l - 1] == '.';
    if l > MAX_NAME || (l == MAX_NAME && !rooted) {
      return [];
    }
    if rooted {
      if AvoidDNS(name) {
        return [];
      }
      return [name];
    }
    var hasNdots := Count(name, '.') >= ndots;
    var absolute := name + ".";
    names := [];
    if hasNdots && !AvoidDNS(absolute) {
      names := names + [absolute];
    }
    names := AppendExpanded(names, absolute, search);
    if !hasNdots && !AvoidDNS(absolute) {
      names := names + [absolute];
    }
  }

  /** The loop over the search list. */
  method AppendExpanded(before: seq<string>, absolute: string, search: seq<string>) returns (names: seq<string>)
    ensures names == before + Expanded(absolute, search)
  {
    names := before;
    for i := 0 to |search|
      invariant names == before + Expanded(absolute, search[..i])
    {
      assert search[..i + 1][..i] == search[..i];
      var fqdn := absolute + search[i];
      if !AvoidDNS(fqdn) && |fqdn| <= MAX_NAME {
        names := names + [fqdn];
      }
    }
    assert search[..|search|] == search;
  }

  // ---- what the list is for ----

  lemma {:induction false} ExpandedIsAdmissible(absolute: string, search: seq<string>)
    requires forall s <- search :: EndsInDot(s)
    ensures forall r <- Expanded(absolute, search) ::
              EndsInDot(r) && Admissible(r) && |r| > |absolute| && r[..|absolute|] == absolute
  {
    if search != [] {
      ExpandedIsAdmissible(absolute, search[..|search| - 1]);
      var suffix := search[|search| - 1];
      var fqdn := absolute + suffix;
      assert suffix in search && fqdn[..|absolute|] == absolute;
    }
  }

  /** Every name tried is absolute, at most 254 characters long, and not an onion name. */
  lemma NamesAreQueryable(search: seq<string>, ndots: nat, name: string)
    requires forall s <- search :: EndsInDot(s)
    ensures forall r <- Names(search, ndots, name) :: EndsInDot(r) && |r| <= MAX_NAME && !UnderOnion(r)
  {
    ExpandedIsAdmissible(name + ".", search);
    forall r <- Names(search, ndots, name)
      ensures EndsInDot(r) && |r| <= MAX_NAME && !UnderOnion(r)
    {
      AvoidsExactlyOnion(r);
    }
  }

  lemma {:induction false} NotExpanded(absolute: string, search: seq<string>)
    requires forall s <- search :: EndsInDot(s)
    ensures Count(Expanded(absolute, search), absolute) == 0
  {
    if search != [] {
      NotExpanded(absolute, search[..|search| - 1]);
      var before, suffix := Expanded(absolute, search[..|search| - 1]), search[|search| - 1];
      assert suffix in search;
      assert |absolute + suffix| > |absolute|;
      CountAppend(before, [absolute + suffix], absolute);
      assert before + [] == before;
      assert Count([absolute + suffix], absolute) == 0;
    }
  }

  /** The bare absolute name is tried exactly once: first if the name has at least ndots dots, last
      otherwise. The rest of the list is the search list's names, in its order. */
  lemma BareNameOnce(search: seq<string>, ndots: nat, name: string)
    requires forall s <- search :: EndsInDot(s)
    requires !Rooted(name) && |name| < MAX_NAME && !AvoidDNS(name + ".")
    ensures var names, absolute := Names(search, ndots, name), name + ".";
            && Count(names, absolute) == 1
            && (Count(name, '.') >= ndots ==> names[0] == absolute && names[1..] == Expanded(absolute, search))
            && (Count(name, '.') < ndots ==>
                names[|names| - 1] == absolute && names[..|names| - 1] == Expanded(absolute, search))
  {
    var absolute := name + ".";
    NotExpanded(absolute, search);
    CountAppend([absolute], Expanded(absolute, search), absolute);
    CountAppend(Expanded(absolute, search), [absolute], absolute);
    assert Count([absolute], absolute) == 1;
  }

  /** Which names the search list contributes. */
  lemma {:induction false} ExpandedMeans(absolute: string, search: seq<string>, r: string)
    ensures r in Expanded(absolute, search) <==> Admissible(r) && exists s <- search :: r == absolute + s
  {
    if search != [] {
      var before, suffix := search[..|search| - 1], search[|search| - 1];
      ExpandedMeans(absolute, before, r);
      assert forall s :: s in search <==> s in before || s == suffix;
    }
  }

  /** The name with its final dot, without the search list. */
  function Bare(name: string): string {
    if name != "" && name[|name| - 1] == '.' then name else name + "."
  }

  ghost predicate Queryable(r: string) {
    r != "" && |r| <= 254 && !UnderOnion(r)
  }

  /** Exactly which names are tried: those that may be asked for among the name itself, made absolute, and,
      for a name without a final dot, its continuations by the search list; none if the name itself is too
      long. A name with a final dot is tried alone. */
  lemma NamesExactly(search: seq<string>, ndots: nat, name: string, r: string)
    ensures r in Names(search, ndots, name) <==>
              && |Bare(name)| <= 254 && Queryable(r)
              && (r == Bare(name) || (Bare(name) != name && exists s <- search :: r == Bare(name) + s))
    ensures Bare(name) == name ==> |Names(search, ndots, name)| <= 1
  {
    ExpandedMeans(name + ".", search, r);
    AvoidsExactlyOnion(r);
  }

  /** It contributes them in its own order. */
  lemma {:induction false} ExpandedAppend(absolute: string, a: seq<string>, b: seq<string>)
    ensures Expanded(absolute, a + b) == Expanded(absolute, a) + Expanded(absolute, b)
  {
    if b == [] {
      assert a + b == a;
    } else {
      assert (a + b)[..|a + b| - 1] == a + b[..|b| - 1];
      ExpandedAppend(absolute, a, b[..|b| - 1]);
    }
  }
}
