/** The index of a hosts file, against a plain scan of the file. */
module Hosts {
  import opened Prelude
  import opened Text

  /** The address parser as an oracle. */
  type AddressParser = string -> Option<nat>

  function WithoutComment(line: string): string {
    line[..IndexOf(line, '#')]
  }

  /** The canonical forms of the words of a line. */
  function Canonicals(words: seq<string>): (r: seq<string>)
    ensures |r| == |words| && forall i | 0 <= i < |words| :: r[i] == CanonicalName(words[i])
  {
    seq(|words|, i requires 0 <= i < |words| => CanonicalName(words[i]))
  }

  /** `addr` once for each of the names that is `name`. */
  function Hits(addr: nat, names: seq<string>, name: string): seq<nat> {
    if names == [] then []
    else Hits(addr, names[..|names| - 1], name) + (if names[|names| - 1] == name then [addr] else [])
  }

  /** What one line says about a canonical name. */
  function ScanLine(parse: AddressParser, line: string, name: string): seq<nat> {
    var fields := Fields(WithoutComment(line));
    if |fields| < 2 then []
    else match parse(fields[0])
      case None => []
      case Some(addr) => Hits(addr, Canonicals(fields[1..]), name)
  }

  /** What the lines say about a canonical name, line by line. */
  function Scan(parse: AddressParser, lines: seq<string>, name: string): seq<nat> {
    if lines == [] then []
    else Scan(parse, lines[..|lines| - 1], name) + ScanLine(parse, lines[|lines| - 1], name)
  }

  function Entry(index: map<string, seq<nat>>, name: string): seq<nat> {
    if name in index then index[name] else []
  }

  // ---- the index as the parser builds it ----

  function AddName(index: map<string, seq<nat>>, addr: nat, canonical: string): map<string, seq<nat>> {
    index[canonical := Entry(index, canonical) + [addr]]
  }

  /** The first of the fields is the address; the words after it, up to the `n`-th field, are entered. */
  function AddFields(index: map<string, seq<nat>>, addr: nat, fields: seq<string>, n: nat): map<string, seq<nat>>
    requires 1 <= n <= |fields|
  {
    if n == 1 then index else AddName(AddFields(index, addr, fields, n - 1), addr, CanonicalName(fields[n - 1]))
  }

  function AddLine(parse: AddressParser, index: map<string, seq<nat>>, line: string): map<string, seq<nat>> {
    var fields := Fields(WithoutComment(line));
    if |fields| < 2 then index
    else match parse(fields[0])
      case None => index
      case Some(addr) => AddFields(index, addr, fields, |fields|)
  }

  function Index(parse: AddressParser, lines: seq<string>): map<string, seq<nat>> {
    if lines == [] then map[]
    else AddLine(parse, Index(parse, lines[..|lines| - 1]), lines[|lines| - 1])
  }

  lemma HitsSnoc(addr: nat, names: seq<string>, last: string, name: string)
    ensures Hits(addr, names + [last], name) == Hits(addr, names, name) + (if last == name then [addr] else [])
  {
    assert (names + [last])[..|names|] == names;
  }

  lemma CanonicalsSnoc(words: seq<string>, word: string)
    ensures Canonicals(words + [word]) == Canonicals(words) + [CanonicalName(word)]
  {
  }

  lemma SumOfThree(a: seq<nat>, b: seq<nat>, c: seq<nat>)
    ensures (a + b) + c == a + (b + c)
  {
  }

  /** The address if the name is the canonical form of the word. */
  function Hit(addr: nat, word: string, name: string): seq<nat> {
    if CanonicalName(word) == name then [addr] else []
  }

  lemma HitsOfLastField(addr: nat, fields: seq<string>, n: nat, name: string)
    requires 1 < n <= |fields|
    ensures Hits(addr, Canonicals(fields[1..n]), name)
            == Hits(addr, Canonicals(fields[1..n - 1]), name) + Hit(addr, fields[n - 1], name)
  {
    assert fields[1..n] == fields[1..n - 1] + [fields[n - 1]];
    CanonicalsSnoc(fields[1..n - 1], fields[n - 1]);
    HitsSnoc(addr, Canonicals(fields[1..n - 1]), CanonicalName(fields[n - 1]), name);
  }

  lemma LastFieldEntry(index: map<string, seq<nat>>, addr: nat, fields: seq<string>, n: nat, name: string)
    requires 1 < n <= |fields|
    ensures Entry(AddFields(index, addr, fields, n), name)
            == Entry(AddFields(index, addr, fields, n - 1), name) + Hit(addr, fields[n - 1], name)
  {
    PutEntry(AddFields(index, addr, fields, n - 1), CanonicalName(fields[n - 1]), addr, name);
  }

  lemma {:induction false} FieldsEntry(index: map<string, seq<nat>>, addr: nat, fields: seq<string>, n: nat,
                                       name: string)
    requires 1 <= n <= |fields|
    ensures Entry(AddFields(index, addr, fields, n), name)
            == Entry(index, name) + Hits(addr, Canonicals(fields[1..n]), name)
  {
    if n > 1 {
      FieldsEntry(index, addr, fields, n - 1, name);
      LastFieldEntry(index, addr, fields, n, name);
      HitsOfLastField(addr, fields, n, name);
      SumOfThree(Entry(index, name), Hits(addr, Canonicals(fields[1..n - 1]), name), Hit(addr, fields[n - 1], name));
    } else {
      assert fields[1..1] == [] && Entry(index, name) + [] == Entry(index, name);
    }
  }

  /** Appending under one key changes that entry only. */
  lemma PutEntry(index: map<string, seq<nat>>, key: string, addr: nat, name: string)
    ensures Entry(AddName(index, addr, key), name) == Entry(index, name) + (if key == name then [addr] else [])
  {
  }

  lemma LineEntry(parse: AddressParser, index: map<string, seq<nat>>, line: string, name: string)
    ensures Entry(AddLine(parse, index, line), name) == Entry(index, name) + ScanLine(parse, line, name)
  {
    var fields := Fields(WithoutComment(line));
    if |fields| >= 2 && parse(fields[0]).Some? {
      FieldsEntry(index, parse(fields[0]).value, fields, |fields|, name);
      assert fields[1..|fields|] == fields[1..];
    }
  }

  /** The index agrees with the plain scan on every name. */
  lemma {:induction false} IndexAgrees(parse: AddressParser, lines: seq<string>, name: string)
    ensures Entry(Index(parse, lines), name) == Scan(parse, lines, name)
  {
    if lines != [] {
      IndexAgrees(parse, lines[..|lines| - 1], name);
      LineEntry(parse, Index(parse, lines[..|lines| - 1]), lines[|lines| - 1], name);
    }
  }

  lemma IndexSnoc(parse: AddressParser, lines: seq<string>, line: string)
    ensures Index(parse, lines + [line]) == AddLine(parse, Index(parse, lines), line)
  {
    assert (lines + [line])[..|lines|] == lines;
  }

  class File {
    var byName: map<string, seq<nat>>

    constructor ()
      ensures byName == map[]
    {
      byName := map[];
    }

    /** The parser's loop over the calls of ReadLine, which end at the end of the file or, if `fails`,
        with another error; then the old index stays. */
    method Update(parse: AddressParser, chunks: seq<Chunk>, fails: bool)
      modifies this
      ensures byName == if fails then old(byName) else Index(parse, Assemble("", chunks))
    {
      var index: map<string, seq<nat>> := map[];
      var prefix := "";
      for i := 0 to |chunks|
        invariant byName == old(byName)
        invariant prefix == Held("", chunks[..i])
        invariant index == Index(parse, Assemble("", chunks[..i]))
      {
        assert chunks[..i + 1] == chunks[..i] + [chunks[i]];
        AssembleSnoc("", chunks[..i], chunks[i]);
        HeldSnoc("", chunks[..i], chunks[i]);
        if chunks[i].isPrefix {
          assert Assemble("", chunks[..i]) + [] == Assemble("", chunks[..i]);
          prefix := prefix + chunks[i].text;
          continue;
        }
        var line := prefix + chunks[i].text;
        prefix := "";
        IndexSnoc(parse, Assemble("", chunks[..i]), line);
        index := EnterLine(parse, index, line);
      }
      assert chunks[..|chunks|] == chunks;
      if fails {
        return;
      }
      byName := index;
    }

    /** One line of the file, up to its comment: its names are entered one by one. */
    static method EnterLine(parse: AddressParser, index: map<string, seq<nat>>, line: string)
        returns (r: map<string, seq<nat>>)
      ensures r == AddLine(parse, index, line)
    {
      var fields := Fields(line[..IndexOf(line, '#')]);
      if |fields| < 2 {
        return index;
      }
      match parse(fields[0]) {
        case None => r := index;
        case Some(addr) => r := EnterNames(index, addr, fields);
      }
    }

    /** The loop over the names of a line. */
    static method EnterNames(index: map<string, seq<nat>>, addr: nat, fields: seq<string>)
        returns (r: map<string, seq<nat>>)
      requires |fields| >= 2
      ensures r == AddFields(index, addr, fields, |fields|)
    {
      r := index;
      for i := 1 to |fields|
        invariant r == AddFields(index, addr, fields, i)
      {
        r := AddName(r, addr, CanonicalName(fields[i]));
      }
    }

    /** `Lookup`, after the update it begins with. */
    method Lookup(name: string) returns (addresses: seq<nat>)
      ensures addresses == Entry(byName, CanonicalName(name))
    {
      var canonical := CanonicalName(name);
      addresses := if canonical in byName then byName[canonical] else [];
    }
  }

  lemma ScanUnfinished(parse: AddressParser, lines: seq<string>, held: string, name: string)
    ensures Scan(parse, lines + Unfinished(held), name) == Scan(parse, lines, name) + ScanLine(parse, held, name)
  {
    if held == "" {
      assert lines + [] == lines && ScanLine(parse, "", name) == [];
    } else {
      assert (lines + [held])[..|lines|] == lines;
    }
  }

  /** The whole of it: after reading a text, however it comes in pieces, looking up a name gives what a
      plain scan finds in the lines the loop got to see, in file order. That is what the scan finds in all
      lines of the text if and only if the loop holds no unfinished line at the end, or that line says
      nothing about the name. */
  method ReadAndLookup(parse: AddressParser, text: string, chunks: seq<Chunk>, name: string)
      returns (addresses: seq<nat>)
    requires Delivers(chunks, text)
    ensures addresses == Scan(parse, Assemble("", chunks), CanonicalName(name))
    ensures addresses == Scan(parse, Lines(text), CanonicalName(name)) <==>
            ScanLine(parse, Held("", chunks), CanonicalName(name)) == []
    ensures Held("", chunks) == "" ==> addresses == Scan(parse, Lines(text), CanonicalName(name))
  {
    var file := new File();
    file.Update(parse, chunks, false);
    addresses := file.Lookup(name);
    IndexAgrees(parse, Assemble("", chunks), CanonicalName(name));
    ScanUnfinished(parse, Assemble("", chunks), Held("", chunks), CanonicalName(name));
    ScanUnfinished(parse, [], "", CanonicalName(name));
  }

  /** With the reader's buffer, read off the text: the scan of what the loop sees is that of the text
      exactly if full pieces do not make up the last line (which, without carriage returns, is to say that
      its length is not a multiple of the buffer's size), or it says nothing about the name. */
  lemma LostLineExactly(size: nat, parse: AddressParser, text: string, name: string)
    requires size >= 2
    ensures Delivers(ReadLines(size, text), text)
    ensures Scan(parse, Assemble("", ReadLines(size, text)), name) == Scan(parse, Lines(text), name) <==>
            !JustFills(size, LastLine(text)) || ScanLine(parse, LastLine(text), name) == []
    ensures '\r' !in LastLine(text) ==> (JustFills(size, LastLine(text)) <==> Fills(|LastLine(text)|, size))
  {
    ReadLinesDeliver(size, text);
    LostExactly(size, text);
    ScanUnfinished(parse, Assemble("", ReadLines(size, text)), Held("", ReadLines(size, text)), name);
    ScanUnfinished(parse, [], "", name);
  }

  /** So a file of one line that just fills the buffer and lacks its newline is as good as empty. */
  lemma FullLineIsLost(parse: AddressParser, line: string, name: string)
    requires |line| >= 2 && '\n' !in line && '\r' !in line
    ensures Scan(parse, Assemble("", ReadLines(|line|, line)), name) == []
    ensures Scan(parse, Lines(line), name) == ScanLine(parse, line, name)
  {
    OneLine(line);
    ScanUnfinished(parse, [], line, name);
    assert [] + Unfinished(line) == Unfinished(line);
    assert ReadLines(|line|, line)[1..] == [];
  }

  /** A line of an address and one name. */
  lemma TwoWords(parse: AddressParser, line: string, first: string, word: string, addr: nat)
    requires Fields(WithoutComment(line)) == [first, word] && parse(first) == Some(addr)
    ensures ScanLine(parse, line, CanonicalName(word)) == [addr]
  {
    var names := Canonicals([word]);
    assert [first, word][1..] == [word] && names == [CanonicalName(word)];
    assert names[..0] == [] && Hits(addr, [], CanonicalName(word)) == [];
  }

  /** Such a line, in a buffer of its size: it names address 1 as "a", which no lookup then finds. */
  lemma FullLineIsLostInput()
    ensures var parse: AddressParser := (s: string) => if s == "1" then Some(1) else None;
            && Scan(parse, Lines("1 a "), CanonicalName("a")) == [1]
            && Scan(parse, Assemble("", ReadLines(4, "1 a ")), CanonicalName("a")) == []
  {
    var parse: AddressParser := (s: string) => if s == "1" then Some(1) else None;
    var line := "1 a ";
    InputFields();
    TwoWords(parse, line, "1", "a", 1);
    FullLineIsLost(parse, line, CanonicalName("a"));
  }

  lemma InputFields()
    ensures Fields(WithoutComment("1 a ")) == ["1", "a"]
  {
    var line := "1 a ";
    UncommentedExactly(line, line);
    assert IsWord("1") && IsWord("a");
    assert line == "1" + (" a ") && " a " == " " + "a" + " ";
    FieldsOfWord("1", " a ");
    FieldsAround(" ", "a", " ");
    FieldsOfSpace(" ");
  }

  lemma TabbedFields(address: string, word: string)
    requires IsWord(address) && IsWord(word) && '#' !in address && '#' !in word
    ensures Fields(WithoutComment(address + "\t" + word)) == [address, word]
  {
    var line := address + "\t" + word;
    SpaceAndTab();
    UncommentedExactly(line, line);
    assert line == address + ("\t" + word) && "\t" + word == "\t" + word + "";
    FieldsOfWord(address, "\t" + word);
    FieldsAround("\t", word, "");
    FieldsOfSpace("\t");
  }

  lemma LinesOfOne(line: string)
    requires '\n' !in line && (line == "" || line[|line| - 1] != '\r')
    ensures Lines(line + "\n") == [line]
  {
    var text := line + "\n";
    IndexIs(text, '\n', |line|);
    assert text[..|line|] == line && text[|line| + 1..] == "";
    LinesAt(text, |line|, line, "");
  }

  lemma OneLineText(line: string)
    requires '\n' !in line && (line == "" || line[|line| - 1] != '\r')
    ensures Delivers([Chunk(line, false)], line + "\n") && Assemble("", [Chunk(line, false)]) == [line]
  {
    LinesOfOne(line);
    assert [Chunk(line, false)] == [Chunk(line, false)] + [];
    AssembleFirst("", Chunk(line, false), []);
    assert "" + line == line;
  }

  lemma NoBreakInWord(w: string)
    requires IsWord(w)
    ensures '\n' !in w && '\r' !in w
  {
    SpaceAndTab();
  }

  /** The usual kind of line, an address, a tab and a name that ends the line, looked up in other letters. */
  method TabbedNameIsFound(parse: AddressParser, addr: nat, address: string, word: string, name: string)
      returns (addresses: seq<nat>)
    requires IsWord(address) && IsWord(word) && '#' !in address && '#' !in word
    requires parse(address) == Some(addr) && EqualFold(word, name)
    ensures addresses == [addr]
  {
    var line := address + "\t" + word;
    NoBreakInWord(address);
    NoBreakInWord(word);
    assert line[|line| - 1] == word[|word| - 1] && word[|word| - 1] in word;
    OneLineText(line);
    addresses := ReadAndLookup(parse, line + "\n", [Chunk(line, false)], name);
    TabbedFields(address, word);
    TwoWords(parse, line, address, word, addr);
    FoldsExactly(word, name);
    CanonicalIgnoresCase(word, name);
    assert [line][..0] == [] && Scan(parse, [], CanonicalName(name)) == [];
  }

  method LoopbackIsFound() returns (addresses: seq<nat>)
    ensures addresses == [1]
  {
    var parse: AddressParser := (s: string) => if s == "127.0.0.1" then Some(1) else None;
    SpaceAndTab();
    addresses := TabbedNameIsFound(parse, 1, "127.0.0.1", "localhost", "LocalHost");
  }

  /** A name's hits are the one address, once per occurrence of the name. */
  lemma {:induction false} HitsMeans(addr: nat, names: seq<string>, name: string)
    ensures forall a <- Hits(addr, names, name) :: a == addr
    ensures |Hits(addr, names, name)| == Count(names, name)
  {
    if names != [] {
      var before, last := names[..|names| - 1], names[|names| - 1];
      HitsMeans(addr, before, name);
      CountAppend(before, [last], name);
      assert names == before + [last];
      assert Count([last], name) == if last == name then 1 else 0;
    }
  }

  /** `text` is the line up to its comment. */
  ghost predicate Uncommented(line: string, text: string) {
    '#' !in text && (line == text || (|text| < |line| && line[..|text|] == text && line[|text|] == '#'))
  }

  lemma UncommentedExactly(line: string, text: string)
    ensures Uncommented(line, text) <==> text == WithoutComment(line)
  {
    var k := IndexOf(line, '#');
    if Uncommented(line, text) {
      forall i | 0 <= i < |text| ensures line[i] != '#' { assert line[i] == text[i] && text[i] in text; }
      IndexIs(line, '#', |text|);
    } else {
      assert '#' !in line[..k];
    }
  }

  /** A line, up to its comment, consists of words of which the first is the address and a later one the
      name, in canonical form. */
  ghost predicate Lists(parse: AddressParser, line: string, addr: nat, name: string) {
    exists text, words :: Names(parse, line, text, words, addr, name)
  }

  ghost predicate Names(parse: AddressParser, line: string, text: string, words: seq<string>, addr: nat, name: string) {
    && Uncommented(line, text) && Spells(text, words)
    && |words| >= 2 && parse(words[0]) == Some(addr)
    && exists i :: 1 <= i < |words| && CanonicalName(words[i]) == name
  }

  lemma ScannedIsListed(parse: AddressParser, line: string, addr: nat, name: string)
    requires addr in ScanLine(parse, line, name)
    ensures Lists(parse, line, addr, name)
  {
    var text := WithoutComment(line);
    var fields := Fields(text);
    UncommentedExactly(line, text);
    FieldsExactly(text, fields);
    HitsMember(parse(fields[0]).value, Canonicals(fields[1..]), name, addr);
    var j :| 0 <= j < |fields[1..]| && Canonicals(fields[1..])[j] == name;
    assert CanonicalName(fields[j + 1]) == name;
    assert Names(parse, line, text, fields, addr, name);
  }

  lemma ListedIsScanned(parse: AddressParser, line: string, text: string, words: seq<string>, addr: nat, name: string)
    requires Names(parse, line, text, words, addr, name)
    ensures addr in ScanLine(parse, line, name)
  {
    UncommentedExactly(line, text);
    FieldsExactly(text, words);
    var i :| 1 <= i < |words| && CanonicalName(words[i]) == name;
    assert Canonicals(words[1..])[i - 1] == name;
    HitsMember(addr, Canonicals(words[1..]), name, addr);
  }

  /** The scan of a line finds exactly the address that the line lists for the name. */
  lemma LineMeans(parse: AddressParser, line: string, addr: nat, name: string)
    ensures addr in ScanLine(parse, line, name) <==> Lists(parse, line, addr, name)
  {
    if addr in ScanLine(parse, line, name) {
      ScannedIsListed(parse, line, addr, name);
    } else if Lists(parse, line, addr, name) {
      var text, words :| Names(parse, line, text, words, addr, name);
      ListedIsScanned(parse, line, text, words, addr, name);
    }
  }

  lemma HitsMember(addr: nat, names: seq<string>, name: string, a: nat)
    ensures a in Hits(addr, names, name) <==> a == addr && name in names
  {
    HitsMeans(addr, names, name);
    CountIsMembership(names, name);
    var hits := Hits(addr, names, name);
    if hits != [] { assert hits[0] in hits; }
  }

  /** The scan goes through the lines in order. */
  lemma {:induction false} ScanOfSum(parse: AddressParser, a: seq<string>, b: seq<string>, name: string)
    ensures Scan(parse, a + b, name) == Scan(parse, a, name) + Scan(parse, b, name)
  {
    if b == [] {
      assert a + b == a;
      assert Scan(parse, a, name) + [] == Scan(parse, a, name);
    } else {
      var init, last := b[..|b| - 1], b[|b| - 1];
      assert (a + b)[..|a + b| - 1] == a + init;
      ScanOfSum(parse, a, init, name);
      SumOfThree(Scan(parse, a, name), Scan(parse, init, name), ScanLine(parse, last, name));
    }
  }

  /** A name has exactly the addresses that some line lists for it. */
  lemma {:induction false} ScanMeans(parse: AddressParser, lines: seq<string>, addr: nat, name: string)
    ensures addr in Scan(parse, lines, name) <==> exists line <- lines :: Lists(parse, line, addr, name)
  {
    if lines != [] {
      var init, last := lines[..|lines| - 1], lines[|lines| - 1];
      ScanMeans(parse, init, addr, name);
      LineMeans(parse, last, addr, name);
      assert forall line :: line in lines <==> line in init || line == last;
    }
  }
}
