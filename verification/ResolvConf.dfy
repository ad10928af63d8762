/** Reading resolv.conf. */
module ResolvConf {
  import opened Prelude
  import opened Text

  const BIG := 0xFFFFFF

  type Num = n: nat | n <= BIG

  // ---- decimal numbers ----

  predicate IsDigit(c: char) {
    '0' <= c <= '9'
  }

  function DigitValue(c: char): nat
    requires IsDigit(c)
  {
    (c - '0') as nat
  }

  /** The number of leading digits. */
  function Digits(s: string): (k: nat)
    ensures k <= |s| && forall i | 0 <= i < k :: IsDigit(s[i])
    ensures k < |s| ==> !IsDigit(s[k])
  {
    if s == "" || !IsDigit(s[0]) then 0 else 1 + Digits(s[1..])
  }

  /** The value of a string of digits. */
  function Value(s: string): nat
    requires forall c <- s :: IsDigit(c)
  {
    if s == "" then 0 else Value(s[..|s| - 1]) * 10 + DigitValue(s[|s| - 1])
  }

  lemma {:induction false} ValueGrows(s: string, i: nat)
    requires (forall c <- s :: IsDigit(c)) && i <= |s|
    ensures Value(s[..i]) <= Value(s)
  {
    if i < |s| {
      ValueGrows(s[..|s| - 1], i);
      assert s[..|s| - 1][..i] == s[..i];
    } else {
      assert s[..i] == s;
    }
  }

  /** The leading number of a string, cut off at `BIG`; whether it was there and below `BIG`; and
      where it stopped reading. */
  predicate Reads(s: string, n: nat, i: nat, ok: bool) {
    var v := Value(s[..Digits(s)]);
    && n == (if v < BIG then v else BIG)
    && (ok <==> Digits(s) > 0 && v < BIG)
    && (v < BIG ==> i == Digits(s))
    && (v >= BIG ==> i < Digits(s) && Value(s[..i]) < BIG <= Value(s[..i + 1]))
  }

  method Dtoi(s: string) returns (n: nat, i: nat, ok: bool)
    ensures Reads(s, n, i, ok)
  {
    n, i := 0, 0;
    var k := Digits(s);
    while i < |s| && IsDigit(s[i])
      invariant i <= k && n == Value(s[..i]) && n < BIG
    {
      var m := n * 10 + DigitValue(s[i]);
      assert s[..i + 1][..i] == s[..i];
      if m >= BIG {
        ValueGrows(s[..k], i + 1);
        assert s[..k][..i + 1] == s[..i + 1];
        return BIG, i, false;
      }
      n, i := m, i + 1;
    }
    ok := i != 0;
  }

  /** The number as the parser uses it. */
  function Number(s: string): Num
  {
    var v := Value(s[..Digits(s)]);
    if v < BIG then v else BIG
  }

  function Decimal(n: nat): (s: string)
    ensures s != "" && forall c <- s :: IsDigit(c)
  {
    var last := ['0' + (n % 10) as char];
    if n < 10 then last else Decimal(n / 10) + last
  }

  lemma {:induction false} ValueOfDecimal(n: nat)
    ensures Value(Decimal(n)) == n
  {
    var last := ['0' + (n % 10) as char];
    assert DigitValue(last[0]) == n % 10;
    if n < 10 {
      assert last[..0] == "";
    } else {
      ValueOfDecimal(n / 10);
      assert (Decimal(n / 10) + last)[..|Decimal(n)| - 1] == Decimal(n / 10);
    }
  }

  /** Reading undoes printing, for every number that fits. */
  lemma NumberOfDecimal(n: nat, rest: string)
    requires rest == "" || !IsDigit(rest[0])
    ensures Number(Decimal(n) + rest) == (if n < 16777215 then n else 16777215)
  {
    var d := Decimal(n);
    var s := d + rest;
    ValueOfDecimal(n);
    forall i | 0 <= i < |d| ensures IsDigit(s[i]) { assert s[i] == d[i] && d[i] in d; }
    assert |d| < |s| ==> !IsDigit(s[|d|]);
    assert s[..|d|] == d;
  }

  // ---- the configuration ----

  datatype Conf = Conf(
    servers: seq<string>, search: seq<string>,
    ndots: nat, timeoutSeconds: nat, attempts: nat,
    rotate: bool, unknownOpt: bool, lookup: seq<string>,
    singleRequest: bool, useTCP: bool, trustAD: bool, noReload: bool)

  const INITIAL := Conf([], [], 1, 5, 2, false, false, [], false, false, false, false)

  const DEFAULT_SERVERS: seq<string> := ["127.0.0.1:53", "[::1]:53"]

  /** Whether a string parses as an IP address. */
  type AddressTest = string -> bool

  function JoinPort53(host: string): string {
    if ':' in host then "[" + host + "]:53" else host + ":53"
  }

  predicate HasPrefix(s: string, prefix: string) {
    |prefix| <= |s| && s[..|prefix|] == prefix
  }

  function AtLeastOne(n: Num): Num {
    if n < 1 then 1 else n
  }

  datatype Setting =
    | Ndots(n: Num) | Timeout(n: Num) | Attempts(n: Num)
    | Rotate | SingleRequest | UseTCP | TrustAD | NoReload | Edns0 | Unknown

  function ParseOption(s: string): Setting {
    if HasPrefix(s, "ndots:") then Ndots(Number(s[6..]))
    else if HasPrefix(s, "timeout:") then Timeout(Number(s[8..]))
    else if HasPrefix(s, "attempts:") then Attempts(Number(s[9..]))
    else if s == "rotate" then Rotate
    else if s == "single-request" || s == "single-request-reopen" then SingleRequest
    else if s == "use-vc" || s == "usevc" || s == "tcp" then UseTCP
    else if s == "trust-ad" then TrustAD
    else if s == "edns0" then Edns0
    else if s == "no-reload" then NoReload
    else Unknown
  }

  function ApplySetting(conf: Conf, setting: Setting): Conf {
    match setting
    case Ndots(n) => conf.(ndots := if n > 15 then 15 else n)
    case Timeout(n) => conf.(timeoutSeconds := AtLeastOne(n))
    case Attempts(n) => conf.(attempts := AtLeastOne(n))
    case Rotate => conf.(rotate := true)
    case SingleRequest => conf.(singleRequest := true)
    case UseTCP => conf.(useTCP := true)
    case TrustAD => conf.(trustAD := true)
    case NoReload => conf.(noReload := true)
    case Edns0 => conf
    case Unknown => conf.(unknownOpt := true)
  }

  function ApplyOptions(conf: Conf, options: seq<string>): Conf {
    if options == [] then conf
    else ApplySetting(ApplyOptions(conf, options[..|options| - 1]), ParseOption(options[|options| - 1]))
  }

  /** The search list of the given words: each made absolute, the root left out. */
  function SearchList(words: seq<string>): seq<string> {
    if words == [] then []
    else
      var name := Fqdn(words[|words| - 1]);
      SearchList(words[..|words| - 1]) + (if name == "." then [] else [name])
  }

  datatype Directive =
    | Nothing | Nameserver(words: seq<string>) | Domain(words: seq<string>) | Search(words: seq<string>)
    | Options(words: seq<string>) | Lookup(words: seq<string>) | Other

  /** What a line with this keyword is. */
  function Keyword(key: string, words: seq<string>): Directive {
    if key == "nameserver" then Nameserver(words)
    else if key == "domain" then Domain(words)
    else if key == "search" then Search(words)
    else if key == "options" then Options(words)
    else if key == "lookup" then Lookup(words)
    else Other
  }

  function ParseLine(line: string): Directive {
    var f := Fields(line);
    if (line != "" && (line[0] == ';' || line[0] == '#')) || f == [] then Nothing
    else Keyword(f[0], f[1..])
  }

  function Obey(parses: AddressTest, conf: Conf, d: Directive): Conf {
    match d
    case Nothing => conf
    case Nameserver(words) =>
      if words != [] && |conf.servers| < 3 && parses(words[0])
      then conf.(servers := conf.servers + [JoinPort53(words[0])])
      else conf
    case Domain(words) => if words != [] then conf.(search := [Fqdn(words[0])]) else conf
    case Search(words) => conf.(search := SearchList(words))
    case Options(words) => ApplyOptions(conf, words)
    case Lookup(words) => conf.(lookup := words)
    case Other => conf.(unknownOpt := true)
  }

  function ApplyLine(parses: AddressTest, conf: Conf, line: string): Conf {
    Obey(parses, conf, ParseLine(line))
  }

  function ApplyLines(parses: AddressTest, conf: Conf, lines: seq<string>): Conf {
    if lines == [] then conf
    else ApplyLine(parses, ApplyLines(parses, conf, lines[..|lines| - 1]), lines[|lines| - 1])
  }

  lemma ApplySnoc(parses: AddressTest, conf: Conf, lines: seq<string>, line: string)
    ensures ApplyLines(parses, conf, lines + [line]) == ApplyLine(parses, ApplyLines(parses, conf, lines), line)
  {
    assert (lines + [line])[..|lines|] == lines;
  }

  function Finish(conf: Conf, defaultSearch: seq<string>): Conf {
    conf.(servers := if conf.servers == [] then DEFAULT_SERVERS else conf.servers,
          search := if conf.search == [] then defaultSearch else conf.search)
  }

  predicate EndsInDot(s: string) {
    s != "" && s[|s| - 1] == '.'
  }

  /** The bounds that the resolver relies on. */
  ghost predicate InBounds(conf: Conf) {
    && |conf.servers| <= 3
    && 1 <= conf.attempts <= BIG
    && conf.ndots <= 15
    && 1 <= conf.timeoutSeconds <= BIG
    && forall s <- conf.search :: EndsInDot(s)
  }

  lemma {:induction false} SearchListEndsInDots(words: seq<string>)
    ensures forall s <- SearchList(words) :: EndsInDot(s) && s != "."
    ensures |SearchList(words)| <= |words|
  {
    if words != [] {
      SearchListEndsInDots(words[..|words| - 1]);
    }
  }

  lemma SettingKeepsBounds(conf: Conf, setting: Setting)
    requires InBounds(conf)
    ensures InBounds(ApplySetting(conf, setting))
  {
  }

  lemma {:induction false} OptionsKeepBounds(conf: Conf, options: seq<string>)
    requires InBounds(conf)
    ensures InBounds(ApplyOptions(conf, options))
  {
    if options != [] {
      var before := ApplyOptions(conf, options[..|options| - 1]);
      OptionsKeepBounds(conf, options[..|options| - 1]);
      SettingKeepsBounds(before, ParseOption(options[|options| - 1]));
    }
  }

  lemma DirectiveKeepsBounds(parses: AddressTest, conf: Conf, d: Directive)
    requires InBounds(conf)
    ensures InBounds(Obey(parses, conf, d))
  {
    match d {
      case Search(words) => SearchListEndsInDots(words);
      case Options(words) => OptionsKeepBounds(conf, words);
      case _ =>
    }
  }

  lemma {:induction false} LinesKeepBounds(parses: AddressTest, conf: Conf, lines: seq<string>)
    requires InBounds(conf)
    ensures InBounds(ApplyLines(parses, conf, lines))
  {
    if lines != [] {
      LinesKeepBounds(parses, conf, lines[..|lines| - 1]);
      DirectiveKeepsBounds(parses, ApplyLines(parses, conf, lines[..|lines| - 1]), ParseLine(lines[|lines| - 1]));
    }
  }

  /** For every text, however it reaches the reader: one to three servers, at least one attempt,
      ndots at most 15, a positive timeout that fits 63 bits of nanoseconds, and a search list of
      absolute names. */
  lemma ConfigIsUsable(parses: AddressTest, chunks: seq<Chunk>, defaultSearch: seq<string>)
    requires forall s <- defaultSearch :: EndsInDot(s)
    ensures var conf := Finish(ApplyLines(parses, INITIAL, Assemble("", chunks)), defaultSearch);
            && 1 <= |conf.servers| <= 3
            && 1 <= conf.attempts <= BIG
            && conf.ndots <= 15
            && 0 < conf.timeoutSeconds * 1_000_000_000 < 0x8000_0000_0000_0000
            && forall s <- conf.search :: EndsInDot(s)
  {
    LinesKeepBounds(parses, INITIAL, Assemble("", chunks));
  }

  // ---- how servers are named ----

  /** An address with a port is not an address. */
  ghost predicate PortsDoNotParse(parses: AddressTest) {
    forall host: string {:trigger JoinPort53(host)} :: parses(host) ==> !parses(JoinPort53(host))
  }

  lemma DirectiveNamesPorts(parses: AddressTest, conf: Conf, d: Directive)
    requires PortsDoNotParse(parses) && forall s <- conf.servers :: !parses(s)
    ensures forall s <- Obey(parses, conf, d).servers :: !parses(s)
  {
    match d {
      case Options(words) => OptionsKeepServers(conf, words);
      case _ =>
    }
  }

  lemma SettingKeepsServers(conf: Conf, setting: Setting)
    ensures ApplySetting(conf, setting).servers == conf.servers
  {
  }

  lemma {:induction false} OptionsKeepServers(conf: Conf, options: seq<string>)
    ensures ApplyOptions(conf, options).servers == conf.servers
  {
    if options != [] {
      OptionsKeepServers(conf, options[..|options| - 1]);
      SettingKeepsServers(ApplyOptions(conf, options[..|options| - 1]), ParseOption(options[|options| - 1]));
    }
  }

  lemma {:induction false} LinesNamePorts(parses: AddressTest, lines: seq<string>)
    requires PortsDoNotParse(parses)
    ensures forall s <- ApplyLines(parses, INITIAL, lines).servers :: !parses(s)
  {
    if lines != [] {
      var before := lines[..|lines| - 1];
      LinesNamePorts(parses, before);
      DirectiveNamesPorts(parses, ApplyLines(parses, INITIAL, before), ParseLine(lines[|lines| - 1]));
    }
  }

  lemma DefaultsNamePorts()
    ensures DEFAULT_SERVERS == [JoinPort53("127.0.0.1"), JoinPort53("::1")]
  {
    assert "127.0.0.1" + ":53" == "127.0.0.1:53";
    assert "::1"[0] == ':' && "[" + "::1" + "]:53" == "[::1]:53";
  }

  /** No server of a configuration is named by an address alone. */
  lemma ServersNamePorts(parses: AddressTest, chunks: seq<Chunk>, defaultSearch: seq<string>)
    requires PortsDoNotParse(parses) && parses("127.0.0.1") && parses("::1")
    ensures forall s <- Finish(ApplyLines(parses, INITIAL, Assemble("", chunks)), defaultSearch).servers :: !parses(s)
  {
    LinesNamePorts(parses, Assemble("", chunks));
    DefaultsNamePorts();
  }

  /** The configuration object. */
  class DnsConfig {
    var conf: Conf
    var soffset: nat

    constructor (parses: AddressTest, chunks: seq<Chunk>, defaultSearch: seq<string>)
      requires forall s <- defaultSearch :: EndsInDot(s)
      ensures conf == Finish(ApplyLines(parses, INITIAL, Assemble("", chunks)), defaultSearch)
      ensures 1 <= |conf.servers| <= 3 && InBounds(conf) && soffset == 0
    {
      conf := INITIAL;
      soffset := 0;
      new;
      ReadChunks(parses, chunks);
      LinesKeepBounds(parses, INITIAL, Assemble("", chunks));
      if |conf.servers| == 0 {
        conf := conf.(servers := DEFAULT_SERVERS);
      }
      if |conf.search| == 0 {
        conf := conf.(search := defaultSearch);
      }
    }

    /** The parser's loop over the calls of ReadLine. */
    method ReadChunks(parses: AddressTest, chunks: seq<Chunk>)
      modifies this`conf
      ensures conf == ApplyLines(parses, old(conf), Assemble("", chunks))
    {
      var prefix := "";
      for i := 0 to |chunks|
        invariant prefix == Held("", chunks[..i])
        invariant conf == ApplyLines(parses, old(conf), Assemble("", chunks[..i]))
      {
        assert chunks[..i + 1] == chunks[..i] + [chunks[i]];
        AssembleSnoc("", chunks[..i], chunks[i]);
        HeldSnoc("", chunks[..i], chunks[i]);
        if chunks[i].isPrefix {
          assert Assemble("", chunks[..i]) + [] == Assemble("", chunks[..i]);
          prefix := prefix + chunks[i].text;
          continue;
        }
        var line := prefix + chunks[i].text;
        prefix := "";
        ApplySnoc(parses, old(conf), Assemble("", chunks[..i]), line);
        ReadLine(parses, line);
      }
      assert chunks[..|chunks|] == chunks;
    }

    /** One line of the file. */
    method ReadLine(parses: AddressTest, line: string)
      modifies this`conf
      ensures conf == ApplyLine(parses, old(conf), line)
    {
      if line != "" && (line[0] == ';' || line[0] == '#') {
        return;
      }
      var f := Fields(line);
      if |f| < 1 {
        return;
      }
      match f[0] {
        case "nameserver" =>
          if |f| > 1 && |conf.servers| < 3 && parses(f[1]) {
            conf := conf.(servers := conf.servers + [JoinPort53(f[1])]);
          }
        case "domain" =>
          if |f| > 1 {
            conf := conf.(search := [Fqdn(f[1])]);
          }
        case "search" => ReadSearch(f[1..]);
        case "options" => ReadOptions(f[1..]);
        case "lookup" => conf := conf.(lookup := f[1..]);
        case _ => conf := conf.(unknownOpt := true);
      }
    }

    method ReadSearch(words: seq<string>)
      modifies this`conf
      ensures conf == old(conf).(search := SearchList(words))
    {
      conf := conf.(search := []);
      for i := 0 to |words|
        invariant conf == old(conf).(search := SearchList(words[..i]))
      {
        assert words[..i + 1][..i] == words[..i];
        var name := Fqdn(words[i]);
        if name == "." {
          continue;
        }
        conf := conf.(search := conf.search + [name]);
      }
      assert words[..|words|] == words;
    }

    method ReadOptions(options: seq<string>)
      modifies this`conf
      ensures conf == ApplyOptions(old(conf), options)
    {
      for i := 0 to |options|
        invariant conf == ApplyOptions(old(conf), options[..i])
      {
        assert options[..i + 1][..i] == options[..i];
        ReadOption(options[i]);
      }
      assert options[..|options|] == options;
    }

    method ReadOption(s: string)
      modifies this`conf
      ensures conf == ApplySetting(old(conf), ParseOption(s))
    {
      if HasPrefix(s, "ndots:") {
        var n, _, _ := Dtoi(s[6..]);
        conf := conf.(ndots := if n > 15 then 15 else n);
      } else if HasPrefix(s, "timeout:") {
        var n, _, _ := Dtoi(s[8..]);
        conf := conf.(timeoutSeconds := if n < 1 then 1 else n);
      } else if HasPrefix(s, "attempts:") {
        var n, _, _ := Dtoi(s[9..]);
        conf := conf.(attempts := if n < 1 then 1 else n);
      } else if s == "rotate" {
        conf := conf.(rotate := true);
      } else if s == "single-request" || s == "single-request-reopen" {
        conf := conf.(singleRequest := true);
      } else if s == "use-vc" || s == "usevc" || s == "tcp" {
        conf := conf.(useTCP := true);
      } else if s == "trust-ad" {
        conf := conf.(trustAD := true);
      } else if s == "edns0" {
      } else if s == "no-reload" {
        conf := conf.(noReload := true);
      } else {
        conf := conf.(unknownOpt := true);
      }
    }

    /** The position of the first server to ask; it moves on with every call, modulo 2^32. */
    method ServerOffset() returns (offset: nat)
      requires soffset < 0x1_0000_0000
      modifies this`soffset
      ensures offset < 0x1_0000_0000 && soffset < 0x1_0000_0000
      ensures conf.rotate ==> offset == old(soffset) && soffset == (old(soffset) + 1) % 0x1_0000_0000
      ensures !conf.rotate ==> offset == 0 && soffset == old(soffset)
    {
      if conf.rotate {
        soffset := (soffset + 1) % 0x1_0000_0000;
        return (soffset + 0xFFFF_FFFF) % 0x1_0000_0000;
      }
      return 0;
    }
  }
}
