/** Writing a configuration as a resolv.conf text and reading it back. */
module ConfRoundTrip {
  import opened Text
  import opened ResolvConf

  function Flag(b: bool, s: string): seq<string> {
    if b then [s] else []
  }

  function RenderNumbers(ndots: nat, timeout: nat, attempts: nat): seq<string> {
    ["ndots:" + Decimal(ndots)] + ["timeout:" + Decimal(timeout)] + ["attempts:" + Decimal(attempts)]
  }

  function RenderFlags(conf: Conf): seq<string> {
    Flag(conf.rotate, "rotate") + Flag(conf.singleRequest, "single-request") + Flag(conf.useTCP, "use-vc") +
    Flag(conf.trustAD, "trust-ad") + Flag(conf.noReload, "no-reload")
  }

  function RenderOptions(conf: Conf): seq<string> {
    RenderNumbers(conf.ndots, conf.timeoutSeconds, conf.attempts) + RenderFlags(conf)
  }

  function NameserverLines(hosts: seq<string>): seq<string> {
    if hosts == [] then [] else NameserverLines(hosts[..|hosts| - 1]) + [Unwords(["nameserver", hosts[|hosts| - 1]])]
  }

  function Render(hosts: seq<string>, conf: Conf): seq<string> {
    NameserverLines(hosts) + [Unwords(["search"] + conf.search)] + [Unwords(["options"] + RenderOptions(conf))]
  }

  function Servers(hosts: seq<string>): seq<string> {
    if hosts == [] then [] else Servers(hosts[..|hosts| - 1]) + [JoinPort53(hosts[|hosts| - 1])]
  }

  /** A configuration that a file can express. */
  ghost predicate Expressible(parses: AddressTest, hosts: seq<string>, conf: Conf) {
    && |hosts| <= 3 && (forall h <- hosts :: IsWord(h) && parses(h))
    && conf.servers == Servers(hosts)
    && (forall n <- conf.search :: IsWord(n) && IsFqdn(n) && n != ".")
    && conf.ndots <= 15 && 1 <= conf.timeoutSeconds < BIG && 1 <= conf.attempts < BIG
    && !conf.unknownOpt && conf.lookup == []
  }

  lemma DecimalIsWord(n: nat, key: string)
    requires IsWord(key)
    ensures IsWord(key + Decimal(n))
  {
    var d := Decimal(n);
    forall c <- key + d ensures !IsSpace(c) {
      assert c in key || c in d;
    }
  }

  lemma {:induction false} OptionsAppend(conf: Conf, a: seq<string>, b: seq<string>)
    ensures ApplyOptions(conf, a + b) == ApplyOptions(ApplyOptions(conf, a), b)
  {
    if b == [] {
      assert a + b == a;
    } else {
      assert (a + b)[..|a + b| - 1] == a + b[..|b| - 1];
      OptionsAppend(conf, a, b[..|b| - 1]);
    }
  }

  lemma OneOption(conf: Conf, s: string)
    ensures ApplyOptions(conf, [s]) == ApplySetting(conf, ParseOption(s))
  {
    assert [s][..0] == [];
    assert ApplyOptions(conf, []) == conf;
  }

  lemma PrefixDiffers(s: string, prefix: string, i: nat)
    requires i < |s| && i < |prefix| && s[i] != prefix[i]
    ensures !HasPrefix(s, prefix)
  {
    if |prefix| <= |s| { assert s[..|prefix|][i] == s[i]; }
  }

  lemma PrefixOfSum(prefix: string, rest: string)
    ensures HasPrefix(prefix + rest, prefix) && (prefix + rest)[|prefix|..] == rest
  {
  }

  lemma NdotsOption(n: nat)
    requires n < BIG
    ensures ParseOption("ndots:" + Decimal(n)) == Ndots(n)
  {
    PrefixOfSum("ndots:", Decimal(n));
    NumberReadsBack(n);
  }

  lemma TimeoutOption(n: nat)
    requires n < BIG
    ensures ParseOption("timeout:" + Decimal(n)) == Timeout(n)
  {
    PrefixOfSum("timeout:", Decimal(n));
    PrefixDiffers("timeout:" + Decimal(n), "ndots:", 0);
    NumberReadsBack(n);
  }

  lemma AttemptsOption(n: nat)
    requires n < BIG
    ensures ParseOption("attempts:" + Decimal(n)) == Attempts(n)
  {
    PrefixOfSum("attempts:", Decimal(n));
    PrefixDiffers("attempts:" + Decimal(n), "ndots:", 0);
    PrefixDiffers("attempts:" + Decimal(n), "timeout:", 0);
    NumberReadsBack(n);
  }

  lemma NumberReadsBack(n: nat)
    requires n < BIG
    ensures Number(Decimal(n)) == n
  {
    NumberOfDecimal(n, "");
    assert Decimal(n) + "" == Decimal(n);
  }

  lemma NotNumeric(s: string, i: nat)
    requires i < 2 <= |s| && s[i] != "ndots:"[i] && s[i] != "timeout:"[i] && s[i] != "attempts:"[i]
    ensures !HasPrefix(s, "ndots:") && !HasPrefix(s, "timeout:") && !HasPrefix(s, "attempts:")
  {
    PrefixDiffers(s, "ndots:", i);
    PrefixDiffers(s, "timeout:", i);
    PrefixDiffers(s, "attempts:", i);
  }

  lemma ModeFlags()
    ensures ParseOption("rotate") == Rotate && ParseOption("single-request") == SingleRequest
    ensures ParseOption("use-vc") == UseTCP
  {
    NotNumeric("rotate", 0);
    NotNumeric("single-request", 0);
    NotNumeric("use-vc", 0);
    assert "use-vc"[0] != "rotate"[0];
  }

  lemma OtherFlags()
    ensures ParseOption("trust-ad") == TrustAD && ParseOption("no-reload") == NoReload
  {
    NotNumeric("trust-ad", 1);
    NotNumeric("no-reload", 1);
  }

  lemma FlagApplied(conf: Conf, b: bool, s: string)
    ensures ApplyOptions(conf, Flag(b, s)) == if b then ApplySetting(conf, ParseOption(s)) else conf
  {
    if b { OneOption(conf, s); }
  }

  lemma ThreeOptions(base: Conf, a: string, b: string, c: string)
    ensures ApplyOptions(base, [a] + [b] + [c])
            == ApplySetting(ApplySetting(ApplySetting(base, ParseOption(a)), ParseOption(b)), ParseOption(c))
  {
    var base1 := ApplySetting(base, ParseOption(a));
    OneOption(base, a);
    OptionsAppend(base, [a], [b]);
    OneOption(base1, b);
    OptionsAppend(base, [a] + [b], [c]);
    OneOption(ApplySetting(base1, ParseOption(b)), c);
  }

  lemma NumbersReadBack(base: Conf, ndots: Num, timeout: Num, attempts: Num)
    requires ndots <= 15 && 1 <= timeout < BIG && 1 <= attempts < BIG
    ensures ApplyOptions(base, RenderNumbers(ndots, timeout, attempts))
            == base.(ndots := ndots, timeoutSeconds := timeout, attempts := attempts)
  {
    ThreeOptions(base, "ndots:" + Decimal(ndots), "timeout:" + Decimal(timeout), "attempts:" + Decimal(attempts));
    NdotsOption(ndots);
    TimeoutOption(timeout);
    AttemptsOption(attempts);
  }

  lemma FiveParts(base: Conf, a: seq<string>, b: seq<string>, c: seq<string>, d: seq<string>, e: seq<string>)
    ensures ApplyOptions(base, a + b + c + d + e) ==
            ApplyOptions(ApplyOptions(ApplyOptions(ApplyOptions(ApplyOptions(base, a), b), c), d), e)
  {
    OptionsAppend(base, a, b);
    OptionsAppend(base, a + b, c);
    OptionsAppend(base, a + b + c, d);
    OptionsAppend(base, a + b + c + d, e);
  }

  lemma FlagsReadBack(base: Conf, conf: Conf)
    requires !base.rotate && !base.singleRequest && !base.useTCP && !base.trustAD && !base.noReload
    ensures ApplyOptions(base, RenderFlags(conf))
            == base.(rotate := conf.rotate, singleRequest := conf.singleRequest, useTCP := conf.useTCP,
                     trustAD := conf.trustAD, noReload := conf.noReload)
  {
    ModeFlags();
    OtherFlags();
    var f1, f2, f3, f4, f5 := Flag(conf.rotate, "rotate"), Flag(conf.singleRequest, "single-request"),
      Flag(conf.useTCP, "use-vc"), Flag(conf.trustAD, "trust-ad"), Flag(conf.noReload, "no-reload");
    var base1 := base.(rotate := conf.rotate);
    var base2 := base1.(singleRequest := conf.singleRequest);
    var base3 := base2.(useTCP := conf.useTCP);
    var base4 := base3.(trustAD := conf.trustAD);
    FlagApplied(base, conf.rotate, "rotate");
    FlagApplied(base1, conf.singleRequest, "single-request");
    FlagApplied(base2, conf.useTCP, "use-vc");
    FlagApplied(base3, conf.trustAD, "trust-ad");
    FlagApplied(base4, conf.noReload, "no-reload");
    FiveParts(base, f1, f2, f3, f4, f5);
  }

  lemma OptionsReadBack(base: Conf, conf: Conf)
    requires !base.rotate && !base.singleRequest && !base.useTCP && !base.trustAD && !base.noReload
    requires conf.ndots <= 15 && 1 <= conf.timeoutSeconds < BIG && 1 <= conf.attempts < BIG
    ensures ApplyOptions(base, RenderOptions(conf))
            == base.(ndots := conf.ndots, timeoutSeconds := conf.timeoutSeconds, attempts := conf.attempts,
                     rotate := conf.rotate, singleRequest := conf.singleRequest, useTCP := conf.useTCP,
                     trustAD := conf.trustAD, noReload := conf.noReload)
  {
    var numbers, flags := RenderNumbers(conf.ndots, conf.timeoutSeconds, conf.attempts), RenderFlags(conf);
    NumbersReadBack(base, conf.ndots, conf.timeoutSeconds, conf.attempts);
    FlagsReadBack(base.(ndots := conf.ndots, timeoutSeconds := conf.timeoutSeconds, attempts := conf.attempts), conf);
    OptionsAppend(base, numbers, flags);
  }

  /** A line put together from a keyword and words is read as that. */
  lemma LineReadBack(key: string, words: seq<string>)
    requires key == "nameserver" || key == "search" || key == "options"
    requires forall w <- words :: IsWord(w)
    ensures ParseLine(Unwords([key] + words)) ==
            if key == "nameserver" then Nameserver(words) else if key == "search" then Search(words) else Options(words)
  {
    var all := [key] + words;
    assert IsWord(key);
    FieldsOfUnwords(all);
    assert Unwords(all)[0] == key[0];
    assert all[1..] == words;
  }

  lemma {:induction false} SearchReadBack(names: seq<string>)
    requires forall n <- names :: IsFqdn(n) && n != "."
    ensures SearchList(names) == names
  {
    if names != [] {
      SearchReadBack(names[..|names| - 1]);
    }
  }

  lemma {:induction false} NameserversReadBack(parses: AddressTest, hosts: seq<string>)
    requires |hosts| <= 3 && forall h <- hosts :: IsWord(h) && parses(h)
    ensures ApplyLines(parses, INITIAL, NameserverLines(hosts)) == INITIAL.(servers := Servers(hosts))
    ensures |Servers(hosts)| == |hosts|
  {
    if hosts != [] {
      var before, h := hosts[..|hosts| - 1], hosts[|hosts| - 1];
      NameserversReadBack(parses, before);
      LineReadBack("nameserver", [h]);
      assert ["nameserver"] + [h] == ["nameserver", h];
      ApplySnoc(parses, INITIAL, NameserverLines(before), Unwords(["nameserver", h]));
    }
  }

  lemma PrintableIsWord(s: string)
    requires s != "" && forall i | 0 <= i < |s| :: '!' <= s[i] <= '~'
    ensures IsWord(s)
  {
  }

  lemma KeysAreWords()
    ensures IsWord("ndots:") && IsWord("timeout:") && IsWord("attempts:")
  {
    PrintableIsWord("ndots:");
    PrintableIsWord("timeout:");
    PrintableIsWord("attempts:");
  }

  lemma FlagsAreWords()
    ensures IsWord("rotate") && IsWord("single-request") && IsWord("use-vc") && IsWord("trust-ad") &&
      IsWord("no-reload")
  {
    PrintableIsWord("rotate");
    PrintableIsWord("single-request");
    PrintableIsWord("use-vc");
    PrintableIsWord("trust-ad");
    PrintableIsWord("no-reload");
  }

  lemma OptionsAreWords(conf: Conf)
    ensures forall w <- RenderOptions(conf) :: IsWord(w)
  {
    KeysAreWords();
    FlagsAreWords();
    DecimalIsWord(conf.ndots, "ndots:");
    DecimalIsWord(conf.timeoutSeconds, "timeout:");
    DecimalIsWord(conf.attempts, "attempts:");
  }

  lemma SearchLine(parses: AddressTest, base: Conf, names: seq<string>)
    requires forall n <- names :: IsWord(n) && IsFqdn(n) && n != "."
    ensures ApplyLine(parses, base, Unwords(["search"] + names)) == base.(search := names)
  {
    LineReadBack("search", names);
    SearchReadBack(names);
  }

  lemma OptionsLine(parses: AddressTest, base: Conf, conf: Conf)
    ensures ApplyLine(parses, base, Unwords(["options"] + RenderOptions(conf)))
      == ApplyOptions(base, RenderOptions(conf))
  {
    OptionsAreWords(conf);
    LineReadBack("options", RenderOptions(conf));
  }

  /** Reading undoes writing: every configuration that a file can express is read back unchanged,
      however the file's lines are cut into pieces. */
  lemma ReadsBack(parses: AddressTest, hosts: seq<string>, conf: Conf, split: seq<seq<string>>)
    requires Expressible(parses, hosts, conf) && Splits(split, Render(hosts, conf))
    ensures ApplyLines(parses, INITIAL, Assemble("", FileChunks(split))) == conf
  {
    AssembleFile(split, Render(hosts, conf));
    var servers := NameserverLines(hosts);
    var search, options := Unwords(["search"] + conf.search), Unwords(["options"] + RenderOptions(conf));
    NameserversReadBack(parses, hosts);
    ApplySnoc(parses, INITIAL, servers, search);
    var base := INITIAL.(servers := Servers(hosts));
    SearchLine(parses, base, conf.search);
    ApplySnoc(parses, INITIAL, servers + [search], options);
    OptionsLine(parses, base.(search := conf.search), conf);
    OptionsReadBack(base.(search := conf.search), conf);
  }
}
