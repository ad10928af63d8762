/** What a configuration file means, field by field, without the parser's state. */
module ConfMeaning {
  import opened Prelude
  import opened Text
  import opened ResolvConf
  import opened ConfRoundTrip

  // ---- lines ----

  /** The line is not a comment and consists of the keyword and the words. */
  ghost predicate Says(line: string, key: string, words: seq<string>) {
    (line == "" || (line[0] != ';' && line[0] != '#')) && Spells(line, [key] + words)
  }

  ghost predicate IsComment(line: string) {
    line != "" && (line[0] == ';' || line[0] == '#')
  }

  /** The keyword decides what a line does; comments and blank lines do nothing, unknown keywords are noted. */
  lemma DirectiveMeans(line: string, key: string, words: seq<string>)
    ensures Says(line, key, words) ==> ParseLine(line) == Keyword(key, words)
    ensures IsComment(line) || Spells(line, []) ==> ParseLine(line) == Nothing
  {
    if Says(line, key, words) {
      FieldsExactly(line, [key] + words);
      assert ([key] + words)[1..] == words;
    }
    if Spells(line, []) { FieldsExactly(line, []); }
  }

  lemma KeywordsMean(words: seq<string>)
    ensures Keyword("nameserver", words) == Nameserver(words) && Keyword("domain", words) == Domain(words)
    ensures Keyword("search", words) == Search(words) && Keyword("options", words) == Options(words)
    ensures Keyword("lookup", words) == Lookup(words) && Keyword("sortlist", words) == Other
  {
    assert "domain"[0] == 'd' && "search"[0] == 's' && "lookup"[0] == 'l';
  }

  /** The other names of options, and the option that is accepted without effect. */
  lemma OptionAliases()
    ensures ParseOption("single-request-reopen") == SingleRequest
    ensures ParseOption("usevc") == UseTCP && ParseOption("tcp") == UseTCP
    ensures ParseOption("edns0") == Edns0
  {
    NotNumeric("single-request-reopen", 0);
    NotNumeric("usevc", 0);
    NotNumeric("tcp", 1);
    NotNumeric("edns0", 0);
  }

  // ---- what the lines say, field by field ----

  function Ask(ds: seq<Directive>): seq<Setting> {
    if ds == [] then []
    else Ask(ds[..|ds| - 1]) + (match ds[|ds| - 1] case Options(words) => Parsed(words) case _ => [])
  }

  function Parsed(words: seq<string>): (r: seq<Setting>)
    ensures |r| == |words| && forall i | 0 <= i < |words| :: r[i] == ParseOption(words[i])
  {
    seq(|words|, i requires 0 <= i < |words| => ParseOption(words[i]))
  }

  function Directives(lines: seq<string>): (r: seq<Directive>)
    ensures |r| == |lines| && forall i | 0 <= i < |lines| :: r[i] == ParseLine(lines[i])
  {
    seq(|lines|, i requires 0 <= i < |lines| => ParseLine(lines[i]))
  }

  /** The addresses that nameserver lines give, in file order. */
  function Addresses(parses: AddressTest, ds: seq<Directive>): seq<string> {
    if ds == [] then []
    else
      Addresses(parses, ds[..|ds| - 1]) +
      (match ds[|ds| - 1]
       case Nameserver(words) => if words != [] && parses(words[0]) then [words[0]] else []
       case _ => [])
  }

  function WithPort(hosts: seq<string>): (r: seq<string>)
    ensures |r| == |hosts| && forall i | 0 <= i < |hosts| :: r[i] == JoinPort53(hosts[i])
  {
    seq(|hosts|, i requires 0 <= i < |hosts| => JoinPort53(hosts[i]))
  }

  function FirstThree<T>(s: seq<T>): seq<T> {
    if |s| <= 3 then s else s[..3]
  }

  /** The names of a search line: absolute, without the root. */
  function Absolute(words: seq<string>): seq<string> {
    Filter((n: string) => n != ".", AllFqdn(words))
  }

  function AllFqdn(words: seq<string>): (r: seq<string>)
    ensures |r| == |words| && forall i | 0 <= i < |words| :: r[i] == Fqdn(words[i])
  {
    seq(|words|, i requires 0 <= i < |words| => Fqdn(words[i]))
  }

  /** The search list of the last line that gives one. */
  function LastSearch(ds: seq<Directive>): seq<string> {
    if ds == [] then []
    else match ds[|ds| - 1]
      case Domain(words) => if words != [] then [Fqdn(words[0])] else LastSearch(ds[..|ds| - 1])
      case Search(words) => Absolute(words)
      case _ => LastSearch(ds[..|ds| - 1])
  }

  function LastLookup(ds: seq<Directive>): seq<string> {
    if ds == [] then []
    else match ds[|ds| - 1]
      case Lookup(words) => words
      case _ => LastLookup(ds[..|ds| - 1])
  }

  /** The last number given for ndots, at most 15. */
  function LastNdots(settings: seq<Setting>): nat {
    if settings == [] then 1
    else match settings[|settings| - 1]
      case Ndots(n) => if n <= 15 then n else 15
      case _ => LastNdots(settings[..|settings| - 1])
  }

  /** The last number given for the timeout, at least 1. */
  function LastTimeout(settings: seq<Setting>): nat {
    if settings == [] then 5
    else match settings[|settings| - 1]
      case Timeout(n) => if n == 0 then 1 else n
      case _ => LastTimeout(settings[..|settings| - 1])
  }

  function LastAttempts(settings: seq<Setting>): nat {
    if settings == [] then 2
    else match settings[|settings| - 1]
      case Attempts(n) => if n == 0 then 1 else n
      case _ => LastAttempts(settings[..|settings| - 1])
  }

  /** What options add up to, over what was there before. */
  ghost predicate Sums(base: Conf, settings: seq<Setting>, conf: Conf) {
    && conf.servers == base.servers && conf.search == base.search && conf.lookup == base.lookup
    && (conf.rotate <==> base.rotate || Rotate in settings)
    && (conf.singleRequest <==> base.singleRequest || SingleRequest in settings)
    && (conf.useTCP <==> base.useTCP || UseTCP in settings)
    && (conf.trustAD <==> base.trustAD || TrustAD in settings)
    && (conf.noReload <==> base.noReload || NoReload in settings)
    && (conf.unknownOpt <==> base.unknownOpt || Unknown in settings)
  }

  ghost predicate Numbers(settings: seq<Setting>, conf: Conf) {
    && conf.ndots == LastNdots(settings)
    && conf.timeoutSeconds == LastTimeout(settings) && conf.attempts == LastAttempts(settings)
  }

  lemma SettingSums(base: Conf, before: seq<Setting>, conf: Conf, setting: Setting)
    requires Sums(base, before, conf)
    ensures Sums(base, before + [setting], ApplySetting(conf, setting))
  {
    var after := before + [setting];
    assert forall x :: x in after <==> x in before || x == setting;
  }

  lemma SettingNumbers(before: seq<Setting>, conf: Conf, setting: Setting)
    requires Numbers(before, conf)
    ensures Numbers(before + [setting], ApplySetting(conf, setting))
  {
    assert (before + [setting])[..|before|] == before;
  }

  lemma {:induction false} OptionsSum(base: Conf, words: seq<string>)
    ensures Sums(base, Parsed(words), ApplyOptions(base, words))
  {
    if words != [] {
      var init, last := words[..|words| - 1], ParseOption(words[|words| - 1]);
      OptionsSum(base, init);
      assert Parsed(words) == Parsed(init) + [last];
      SettingSums(base, Parsed(init), ApplyOptions(base, init), last);
    }
  }

  lemma ParsedSnoc(before: seq<Setting>, words: seq<string>)
    requires words != []
    ensures var init, last := words[..|words| - 1], ParseOption(words[|words| - 1]);
            before + Parsed(words) == (before + Parsed(init)) + [last]
  {
  }

  lemma {:induction false} OptionsNumbers(base: Conf, before: seq<Setting>, words: seq<string>)
    requires Numbers(before, base)
    ensures Numbers(before + Parsed(words), ApplyOptions(base, words))
  {
    if words == [] {
      assert before + Parsed(words) == before;
    } else {
      var init, last := words[..|words| - 1], ParseOption(words[|words| - 1]);
      OptionsNumbers(base, before, init);
      ParsedSnoc(before, words);
      SettingNumbers(before + Parsed(init), ApplyOptions(base, init), last);
    }
  }

  lemma AbsoluteSnoc(words: seq<string>, word: string)
    ensures Absolute(words + [word]) == Absolute(words) + (if Fqdn(word) == "." then [] else [Fqdn(word)])
  {
    var keep := (n: string) => n != ".";
    assert AllFqdn(words + [word]) == AllFqdn(words) + [Fqdn(word)];
    FilterAppend(keep, AllFqdn(words), [Fqdn(word)]);
    FilterOne(keep, Fqdn(word));
  }

  lemma FilterOne<T>(keep: T -> bool, x: T)
    ensures Filter(keep, [x]) == if keep(x) then [x] else []
  {
    assert [x][1..] == [];
  }

  lemma SearchListSnoc(words: seq<string>, word: string)
    ensures SearchList(words + [word]) == SearchList(words) + (if Fqdn(word) == "." then [] else [Fqdn(word)])
  {
    assert (words + [word])[..|words|] == words;
  }

  lemma NoNames()
    ensures SearchList([]) == [] && Absolute([]) == []
  {
    assert AllFqdn([]) == [];
  }

  lemma OneMoreName(words: seq<string>, word: string)
    requires SearchList(words) == Absolute(words)
    ensures SearchList(words + [word]) == Absolute(words + [word])
  {
    AbsoluteSnoc(words, word);
    SearchListSnoc(words, word);
  }

  lemma {:induction false} SearchListIsAbsolute(words: seq<string>, n: nat)
    requires n <= |words|
    ensures SearchList(words[..n]) == Absolute(words[..n])
  {
    if n == 0 {
      NoNames();
      assert words[..0] == [];
    } else {
      SearchListIsAbsolute(words, n - 1);
      assert words[..n] == words[..n - 1] + [words[n - 1]];
      OneMoreName(words[..n - 1], words[n - 1]);
    }
  }

  // ---- the whole configuration ----

  /** The servers and the lists. */
  ghost predicate ListsAre(parses: AddressTest, ds: seq<Directive>, conf: Conf) {
    && conf.servers == WithPort(FirstThree(Addresses(parses, ds)))
    && conf.search == LastSearch(ds)
    && conf.lookup == LastLookup(ds)
  }

  /** The numbers and the flags; an unknown keyword or option is remembered. */
  ghost predicate OptionsAre(ds: seq<Directive>, conf: Conf) {
    var settings := Ask(ds);
    && Numbers(settings, conf)
    && (conf.rotate <==> Rotate in settings)
    && (conf.singleRequest <==> SingleRequest in settings)
    && (conf.useTCP <==> UseTCP in settings)
    && (conf.trustAD <==> TrustAD in settings)
    && (conf.noReload <==> NoReload in settings)
    && (conf.unknownOpt <==> Unknown in settings || Other in ds)
  }

  lemma OneMoreServer(hosts: seq<string>, host: string)
    ensures WithPort(FirstThree(hosts + [host])) ==
            if |hosts| < 3 then WithPort(FirstThree(hosts)) + [JoinPort53(host)] else WithPort(FirstThree(hosts))
  {
    if |hosts| >= 3 { assert (hosts + [host])[..3] == FirstThree(hosts); }
  }

  lemma DirectiveKeepsLists(parses: AddressTest, ds: seq<Directive>, conf: Conf, d: Directive)
    requires ListsAre(parses, ds, conf)
    ensures ListsAre(parses, ds + [d], Obey(parses, conf, d))
  {
    assert (ds + [d])[..|ds|] == ds;
    match d {
      case Nameserver(words) =>
        if words != [] && parses(words[0]) {
          OneMoreServer(Addresses(parses, ds), words[0]);
        } else {
          assert Addresses(parses, ds) + [] == Addresses(parses, ds);
        }
      case Search(words) =>
        SearchListIsAbsolute(words, |words|);
        assert words[..|words|] == words;
      case Options(words) => OptionsSum(conf, words);
      case _ =>
    }
    assert !d.Nameserver? ==> Addresses(parses, ds) + [] == Addresses(parses, ds);
  }

  lemma AskSnoc(ds: seq<Directive>, d: Directive)
    ensures Ask(ds + [d]) == if d.Options? then Ask(ds) + Parsed(d.words) else Ask(ds)
    ensures Other in ds + [d] <==> Other in ds || d == Other
  {
    assert (ds + [d])[..|ds|] == ds;
    assert !d.Options? ==> Ask(ds) + [] == Ask(ds);
  }

  /** The numbers and flags of the two are the same, but for what is unknown. */
  predicate SameOptions(t: Conf, conf: Conf) {
    && t.ndots == conf.ndots && t.timeoutSeconds == conf.timeoutSeconds && t.attempts == conf.attempts
    && t.rotate == conf.rotate && t.singleRequest == conf.singleRequest && t.useTCP == conf.useTCP
    && t.trustAD == conf.trustAD && t.noReload == conf.noReload
  }

  lemma ObeyKeepsOptions(parses: AddressTest, conf: Conf, d: Directive)
    requires !d.Options?
    ensures SameOptions(Obey(parses, conf, d), conf)
    ensures Obey(parses, conf, d).unknownOpt == (conf.unknownOpt || d == Other)
  {
    match d {
      case Nameserver(_) =>
      case Domain(_) =>
      case Search(_) =>
      case _ =>
    }
  }

  lemma MoreOptions(ds: seq<Directive>, conf: Conf, words: seq<string>)
    requires OptionsAre(ds, conf)
    ensures OptionsAre(ds + [Options(words)], ApplyOptions(conf, words))
  {
    AskSnoc(ds, Options(words));
    OptionsSum(conf, words);
    OptionsNumbers(conf, Ask(ds), words);
    assert forall x :: x in Ask(ds) + Parsed(words) <==> x in Ask(ds) || x in Parsed(words);
  }

  lemma DirectiveKeepsOptions(parses: AddressTest, ds: seq<Directive>, conf: Conf, d: Directive)
    requires OptionsAre(ds, conf)
    ensures OptionsAre(ds + [d], Obey(parses, conf, d))
  {
    if d.Options? {
      MoreOptions(ds, conf, d.words);
    } else {
      AskSnoc(ds, d);
      ObeyKeepsOptions(parses, conf, d);
    }
  }

  lemma DirectivesSnoc(lines: seq<string>, line: string)
    ensures Directives(lines + [line]) == Directives(lines) + [ParseLine(line)]
  {
  }

  lemma {:induction false} ListsMean(parses: AddressTest, lines: seq<string>)
    ensures ListsAre(parses, Directives(lines), ApplyLines(parses, INITIAL, lines))
  {
    if lines == [] {
      assert Directives(lines) == [] && WithPort([]) == [];
    } else {
      var init, last := lines[..|lines| - 1], lines[|lines| - 1];
      ListsMean(parses, init);
      assert lines == init + [last];
      DirectivesSnoc(init, last);
      DirectiveKeepsLists(parses, Directives(init), ApplyLines(parses, INITIAL, init), ParseLine(last));
    }
  }

  lemma {:induction false} OptionsMean(parses: AddressTest, lines: seq<string>)
    ensures OptionsAre(Directives(lines), ApplyLines(parses, INITIAL, lines))
  {
    if lines == [] {
      assert Directives(lines) == [];
    } else {
      var init, last := lines[..|lines| - 1], lines[|lines| - 1];
      OptionsMean(parses, init);
      assert lines == init + [last];
      DirectivesSnoc(init, last);
      DirectiveKeepsOptions(parses, Directives(init), ApplyLines(parses, INITIAL, init), ParseLine(last));
    }
  }

  /** The configuration read from a file, however its lines come in pieces: the servers are the first three
      addresses of its nameserver lines, with port 53, and the two local ones exactly if it has none; the search
      list is that of the last line that gives one, and the given default exactly if that is empty; numbers
      are the last ones given, within their bounds; flags are set exactly if they occur. */
  method ReadConfig(parses: AddressTest, chunks: seq<Chunk>, defaultSearch: seq<string>) returns (c: DnsConfig)
    requires forall s <- defaultSearch :: EndsInDot(s)
    ensures fresh(c) && c.soffset == 0
    ensures var ds := Directives(Assemble("", chunks));
            && c.conf.servers == (if Addresses(parses, ds) == [] then ["127.0.0.1:53", "[::1]:53"]
                                  else WithPort(FirstThree(Addresses(parses, ds))))
            && c.conf.search == (if LastSearch(ds) == [] then defaultSearch else LastSearch(ds))
            && c.conf.lookup == LastLookup(ds)
            && OptionsAre(ds, c.conf)
  {
    c := new DnsConfig(parses, chunks, defaultSearch);
    ListsMean(parses, Assemble("", chunks));
    OptionsMean(parses, Assemble("", chunks));
  }

  /** Writing a configuration with servers and a search list, and reading it into a new object. */
  method WriteAndRead(parses: AddressTest, hosts: seq<string>, conf: Conf, split: seq<seq<string>>,
                      defaultSearch: seq<string>) returns (c: DnsConfig)
    requires Expressible(parses, hosts, conf) && Splits(split, Render(hosts, conf))
    requires forall s <- defaultSearch :: EndsInDot(s)
    ensures fresh(c) && c.soffset == 0
    ensures hosts != [] && conf.search != [] ==> c.conf == conf
    ensures c.conf == conf.(servers := if hosts == [] then ["127.0.0.1:53", "[::1]:53"] else conf.servers,
                            search := if conf.search == [] then defaultSearch else conf.search)
  {
    ReadsBack(parses, hosts, conf, split);
    c := new DnsConfig(parses, FileChunks(split), defaultSearch);
    ServersCount(hosts);
  }

  lemma {:induction false} ServersCount(hosts: seq<string>)
    ensures |Servers(hosts)| == |hosts|
  {
    if hosts != [] { ServersCount(hosts[..|hosts| - 1]); }
  }
}
