/** The string functions that the configuration and hosts parsers rely on. Strings are sequences of
    characters; names are plain ASCII in practice. */
module Text {
  import opened Modular

  /** White space in the sense of Unicode. */
  predicate IsSpace(c: char) {
    c in "\t\n \r" || c == '\U{0b}' || c == '\U{0c}' || c == '\U{85}' || c == '\U{a0}' || c == '\U{1680}' ||
    '\U{2000}' <= c <= '\U{200a}' || c == '\U{2028}' || c == '\U{2029}' || c == '\U{202f}' || c == '\U{205f}' ||
      c == '\U{3000}'
  }

  function WordFrom(s: string, i: nat): (k: nat)
    requires i <= |s|
    ensures i <= k <= |s|
    ensures forall j | i <= j < k :: !IsSpace(s[j])
    ensures k < |s| ==> IsSpace(s[k])
    decreases |s| - i
  {
    if i == |s| || IsSpace(s[i]) then i else WordFrom(s, i + 1)
  }

  /** The length of the leading run without white space. */
  function WordLength(s: string): (k: nat)
    ensures k <= |s|
    ensures forall i | 0 <= i < k :: !IsSpace(s[i])
    ensures k < |s| ==> IsSpace(s[k])
  {
    WordFrom(s, 0)
  }

  /** The words of a line. */
  function Fields(s: string): (r: seq<string>)
    ensures forall f <- r :: IsWord(f)
    decreases |s|
  {
    if s == "" then []
    else if IsSpace(s[0]) then Fields(s[1..])
    else
      var k := WordLength(s);
      [s[..k]] + Fields(s[k..])
  }

  ghost predicate IsWord(f: string) {
    f != "" && forall c <- f :: !IsSpace(c)
  }

  function Unwords(words: seq<string>): string {
    if words == [] then "" else words[0] + " " + Unwords(words[1..])
  }

  lemma WordLengthIs(s: string, k: nat)
    requires k <= |s| && (forall i | 0 <= i < k :: !IsSpace(s[i])) && (k < |s| ==> IsSpace(s[k]))
    ensures WordLength(s) == k
  {
  }

  // ---- what the words of a line are ----

  ghost predicate AllSpace(s: string) {
    forall i | 0 <= i < |s| :: IsSpace(s[i])
  }

  lemma SpaceAndTab()
    ensures IsSpace(' ') && IsSpace('\t') && IsSpace('\n') && IsSpace('\r')
    ensures forall c: char | '!' <= c <= '~' :: !IsSpace(c)
  {
  }

  lemma {:induction false} FieldsOfSpace(s: string)
    requires AllSpace(s)
    ensures Fields(s) == []
    decreases |s|
  {
    if s != "" { FieldsOfSpace(s[1..]); }
  }

  /** A word at the start of a line, up to white space or the end. */
  lemma FieldsOfWord(w: string, b: string)
    requires IsWord(w) && (b == "" || IsSpace(b[0]))
    ensures Fields(w + b) == [w] + Fields(b)
  {
    var s := w + b;
    forall i | 0 <= i < |w| ensures !IsSpace(s[i]) { assert s[i] == w[i] && w[i] in w; }
    WordLengthIs(s, |w|);
    assert s[..|w|] == w && s[|w|..] == b;
  }

  lemma SlicesOfThree(a: string, w: string, b: string, k: nat)
    requires k <= |a|
    ensures (a + w + b)[..k] == a[..k] && (a + w + b)[k..] == a[k..] + w + b
  {
  }

  /** The first word of a line that goes on after it. */
  lemma FieldsOfFirst(a: string, w: string, b: string)
    requires a != "" && !IsSpace(a[0]) && IsSpace(a[|a| - 1])
    ensures var k := WordLength(a);
            && 0 < k < |a| && Fields(a) == [a[..k]] + Fields(a[k..])
            && Fields(a + w + b) == [a[..k]] + Fields(a[k..] + w + b)
  {
    var k, s := WordLength(a), a + w + b;
    SlicesOfThree(a, w, b, k);
    assert forall i | 0 <= i < |a| :: s[i] == a[i];
    WordLengthIs(s, k);
  }

  lemma SumOfFields(first: string, before: seq<string>, w: string, after: seq<string>)
    ensures [first] + (before + [w] + after) == ([first] + before) + [w] + after
  {
  }

  /** A word anywhere in a line, between white space or the ends of the line: the words of the line are
      those before it, it, and those after it. With `FieldsOfSpace` this determines the words of any line. */
  lemma {:induction false} FieldsAround(a: string, w: string, b: string)
    requires IsWord(w) && (a == "" || IsSpace(a[|a| - 1])) && (b == "" || IsSpace(b[0]))
    ensures Fields(a + w + b) == Fields(a) + [w] + Fields(b)
    decreases |a|
  {
    var s := a + w + b;
    if a == "" {
      assert s == w + b;
      FieldsOfWord(w, b);
    } else if IsSpace(a[0]) {
      SlicesOfThree(a, w, b, 1);
      FieldsAround(a[1..], w, b);
      assert s[0] == a[0];
    } else {
      var k := WordLength(a);
      FieldsOfFirst(a, w, b);
      FieldsAround(a[k..], w, b);
      SumOfFields(a[..k], Fields(a[k..]), w, Fields(b));
    }
  }

  /** The line begins with white space, if any, and the word; `b` is the rest. */
  ghost predicate Opens(line: string, a: string, w: string, b: string) {
    line == a + w + b && AllSpace(a) && IsWord(w) && (b == "" || IsSpace(b[0]))
  }

  /** The line consists of these words, in this order, with white space between them and, if at all,
      before and after them. */
  ghost predicate Spells(line: string, words: seq<string>)
    decreases |words|
  {
    if words == [] then AllSpace(line)
    else exists a, b :: Opens(line, a, words[0], b) && Spells(b, words[1..])
  }

  lemma FieldsOfOpened(line: string, a: string, w: string, b: string)
    requires Opens(line, a, w, b)
    ensures Fields(line) == [w] + Fields(b)
  {
    FieldsAround(a, w, b);
    FieldsOfSpace(a);
    assert [] + [w] + Fields(b) == [w] + Fields(b);
  }

  lemma {:induction false} SpelledWords(line: string, words: seq<string>)
    requires Spells(line, words)
    ensures Fields(line) == words
    decreases |words|
  {
    if words == [] {
      FieldsOfSpace(line);
    } else {
      var a, b :| Opens(line, a, words[0], b) && Spells(b, words[1..]);
      FieldsOfOpened(line, a, words[0], b);
      SpelledWords(b, words[1..]);
    }
  }

  lemma OpensWithWord(line: string)
    requires line != "" && !IsSpace(line[0])
    ensures var k := WordLength(line);
            k > 0 && Opens(line, "", line[..k], line[k..]) && Fields(line) == [line[..k]] + Fields(line[k..])
  {
    var k := WordLength(line);
    assert line == "" + line[..k] + line[k..];
  }

  lemma SpelledFrom(line: string, a: string, w: string, b: string, rest: seq<string>)
    requires Opens(line, a, w, b) && Spells(b, rest)
    ensures Spells(line, [w] + rest)
  {
    var words := [w] + rest;
    assert words[1..] == rest && Opens(line, a, words[0], b);
  }

  lemma {:induction false} FieldsAreSpelled(line: string)
    ensures Spells(line, Fields(line))
    decreases |line|
  {
    if line == "" {
    } else if IsSpace(line[0]) {
      FieldsAreSpelled(line[1..]);
      SpelledAfterSpace(line[0], line[1..], Fields(line[1..]));
      assert line == [line[0]] + line[1..];
    } else {
      var k := WordLength(line);
      OpensWithWord(line);
      FieldsAreSpelled(line[k..]);
      SpelledFrom(line, "", line[..k], line[k..], Fields(line[k..]));
    }
  }

  lemma SpelledAfterSpace(space: char, line: string, words: seq<string>)
    requires IsSpace(space) && Spells(line, words)
    ensures Spells([space] + line, words)
  {
    if words != [] {
      var a, b :| Opens(line, a, words[0], b) && Spells(b, words[1..]);
      SumOfSpace(space, a, words[0], b);
      assert AllSpace([space] + a);
      assert Opens([space] + line, [space] + a, words[0], b);
    }
  }

  lemma SumOfSpace(space: char, a: string, w: string, b: string)
    ensures [space] + (a + w + b) == ([space] + a) + w + b
  {
  }

  /** Splitting finds exactly the words that the line consists of. */
  lemma FieldsExactly(line: string, words: seq<string>)
    ensures Fields(line) == words <==> Spells(line, words)
  {
    FieldsAreSpelled(line);
    if Spells(line, words) { SpelledWords(line, words); }
  }

  /** In particular it recovers the words of a line that was put together from words. */
  lemma {:induction false} FieldsOfUnwords(words: seq<string>)
    requires forall w <- words :: IsWord(w)
    ensures Fields(Unwords(words)) == words
  {
    if words != [] {
      var rest := Unwords(words[1..]);
      FieldsOfUnwords(words[1..]);
      assert words[0] + " " + rest == words[0] + (" " + rest);
      FieldsOfWord(words[0], " " + rest);
      assert (" " + rest)[1..] == rest;
    }
  }

  /** The number of backslashes that end at position `k`. */
  function BackslashesBefore(s: string, k: nat): nat
    requires k <= |s|
  {
    if k > 0 && s[k - 1] == '\\' then 1 + BackslashesBefore(s, k - 1) else 0
  }

  /** Ends with a dot that is not escaped. */
  predicate IsFqdn(s: string) {
    s != "" && s[|s| - 1] == '.' && BackslashesBefore(s, |s| - 1) % 2 == 0
  }

  function Fqdn(s: string): (r: string)
    ensures r != "" && r[|r| - 1] == '.'
  {
    if IsFqdn(s) then s else s + "."
  }

  /** Which names are absolute: those that end in a dot, unless it is escaped; a further backslash before the
      dot escapes it or undoes that. Others are made absolute by a dot. */
  lemma FqdnExactly(s: string)
    ensures s == "" || s[|s| - 1] != '.' ==> !IsFqdn(s)
    ensures s == "" || s[|s| - 1] != '\\' ==> IsFqdn(s + ".")
    ensures IsFqdn(s + "\\" + ".") <==> !IsFqdn(s + ".")
    ensures Fqdn(s) == if IsFqdn(s) then s else s + "."
  {
    var escaped := s + "\\" + ".";
    SameBackslashes(s, s + ".", |s|);
    SameBackslashes(s, escaped, |s|);
    assert BackslashesBefore(escaped, |s| + 1) == 1 + BackslashesBefore(escaped, |s|);
  }

  function Lower(c: char): char {
    if 'A' <= c <= 'Z' then c - 'A' + 'a' else c
  }

  function LowerAll(s: string): (r: string)
    ensures |r| == |s| && forall i | 0 <= i < |s| :: r[i] == Lower(s[i])
  {
    seq(|s|, i requires 0 <= i < |s| => Lower(s[i]))
  }

  /** The form under which names are indexed. */
  function CanonicalName(s: string): string {
    LowerAll(Fqdn(s))
  }

  /** Only where the backslashes are matters. */
  lemma {:induction false} SameBackslashes(s: string, t: string, k: nat)
    requires k <= |s| && k <= |t| && forall i | 0 <= i < k :: s[i] == '\\' <==> t[i] == '\\'
    ensures BackslashesBefore(s, k) == BackslashesBefore(t, k)
  {
    if k > 0 && s[k - 1] == '\\' { SameBackslashes(s, t, k - 1); }
  }

  lemma LowerKeepsFqdn(s: string)
    ensures IsFqdn(LowerAll(s)) <==> IsFqdn(s)
  {
    if s != "" { SameBackslashes(LowerAll(s), s, |s| - 1); }
  }

  /** Two names are indexed alike exactly if they differ only in case, and in a final dot that makes one of them
      absolute. */
  lemma SameNameExactly(s: string, t: string)
    ensures CanonicalName(s) == CanonicalName(t) <==>
              || EqualFold(s, t)
              || (!IsFqdn(s) && IsFqdn(t) && EqualFold(s + ".", t))
              || (IsFqdn(s) && !IsFqdn(t) && EqualFold(s, t + "."))
  {
    FoldsExactly(Fqdn(s), Fqdn(t));
    FoldsExactly(s, t);
    LowerKeepsFqdn(s);
    LowerKeepsFqdn(t);
    if !IsFqdn(s) && !IsFqdn(t) {
      LowerOfDot(s);
      LowerOfDot(t);
      assert LowerAll(s) == LowerAll(s + ".")[..|s|] && LowerAll(t) == LowerAll(t + ".")[..|t|];
      assert |LowerAll(s)| == |s| && |LowerAll(t)| == |t|;
    }
  }

  lemma LowerOfDot(s: string)
    ensures LowerAll(s + ".") == LowerAll(s) + "."
  {
  }

  predicate IsUpper(c: char) {
    'A' <= c <= 'Z'
  }

  /** The two are the same letter in upper and in lower case. */
  predicate Pair(upper: char, lower: char) {
    IsUpper(upper) && upper as int + 32 == lower as int
  }

  predicate EqualFold(s: string, t: string) {
    |s| == |t| && forall i | 0 <= i < |s| :: s[i] == t[i] || Pair(s[i], t[i]) || Pair(t[i], s[i])
  }

  /** Names are told apart exactly by what is left when case is ignored. */
  lemma FoldsExactly(s: string, t: string)
    ensures LowerAll(s) == LowerAll(t) <==> EqualFold(s, t)
  {
    if LowerAll(s) == LowerAll(t) {
      assert |s| == |LowerAll(s)| && |t| == |LowerAll(t)|;
      forall i | 0 <= i < |s| ensures s[i] == t[i] || Pair(s[i], t[i]) || Pair(t[i], s[i]) {
        assert LowerAll(s)[i] == LowerAll(t)[i];
      }
    } else if EqualFold(s, t) {
      assert forall i | 0 <= i < |s| :: Lower(s[i]) == Lower(t[i]);
    }
  }

  /** Names that differ in case, or in the final dot, have the same canonical form. */
  lemma CanonicalIgnoresCase(s: string, t: string)
    requires LowerAll(s) == LowerAll(t)
    ensures CanonicalName(s) == CanonicalName(t)
  {
    LowerKeepsFqdn(s);
    LowerKeepsFqdn(t);
    LowerOfDot(s);
    LowerOfDot(t);
  }

  lemma CanonicalIgnoresFinalDot(s: string)
    requires BackslashesBefore(s, |s|) % 2 == 0 && !IsFqdn(s)
    ensures CanonicalName(s + ".") == CanonicalName(s)
  {
    SameBackslashes(s + ".", s, |s|);
  }

  // ---- lines ----

  /** What one call of ReadLine returns: a piece of a line, and whether the line goes on. */
  datatype Chunk = Chunk(text: string, isPrefix: bool)

  /** The lines that a loop over ReadLine sees. `prefix` is what it holds of an unfinished line; a
      line that is still unfinished at the end of the input is lost. */
  function Assemble(prefix: string, chunks: seq<Chunk>): seq<string>
    decreases |chunks|
  {
    if chunks == [] then []
    else if chunks[0].isPrefix then Assemble(prefix + chunks[0].text, chunks[1..])
    else [prefix + chunks[0].text] + Assemble("", chunks[1..])
  }

  function Concat(pieces: seq<string>): string {
    if pieces == [] then "" else pieces[0] + Concat(pieces[1..])
  }

  /** One line delivered in the given pieces: all but the last are marked. */
  function LineChunks(pieces: seq<string>): seq<Chunk> {
    if pieces == [] then [] else [Chunk(pieces[0], |pieces| > 1)] + LineChunks(pieces[1..])
  }

  function FileChunks(split: seq<seq<string>>): seq<Chunk> {
    if split == [] then [] else LineChunks(split[0]) + FileChunks(split[1..])
  }

  /** `split` cuts each line into one or more pieces. */
  ghost predicate Splits(split: seq<seq<string>>, lines: seq<string>) {
    |split| == |lines| && forall i | 0 <= i < |lines| :: split[i] != [] && Concat(split[i]) == lines[i]
  }

  lemma {:induction false} AssembleLine(prefix: string, pieces: seq<string>, rest: seq<Chunk>)
    requires pieces != []
    ensures Assemble(prefix, LineChunks(pieces) + rest) == [prefix + Concat(pieces)] + Assemble("", rest)
    decreases |pieces|
  {
    var tail := LineChunks(pieces[1..]);
    assert LineChunks(pieces) + rest == [LineChunks(pieces)[0]] + (tail + rest);
    if |pieces| == 1 {
      assert tail + rest == rest;
      assert Concat(pieces) == pieces[0];
    } else {
      AssembleLine(prefix + pieces[0], pieces[1..], rest);
      assert prefix + pieces[0] + Concat(pieces[1..]) == prefix + Concat(pieces);
    }
  }

  /** However long lines are split, the loop sees the lines themselves. */
  lemma {:induction false} AssembleFile(split: seq<seq<string>>, lines: seq<string>)
    requires Splits(split, lines)
    ensures Assemble("", FileChunks(split)) == lines
    decreases |split|
  {
    if split != [] {
      AssembleFile(split[1..], lines[1..]);
      AssembleLine("", split[0], FileChunks(split[1..]));
      assert "" + lines[0] == lines[0];
    }
  }

  function IndexFrom(s: string, c: char, i: nat): (k: nat)
    requires i <= |s|
    ensures i <= k <= |s|
    ensures forall j | i <= j < k :: s[j] != c
    ensures k < |s| ==> s[k] == c
    decreases |s| - i
  {
    if i == |s| || s[i] == c then i else IndexFrom(s, c, i + 1)
  }

  /** The position of the first `c`, or the length. */
  function IndexOf(s: string, c: char): (k: nat)
    ensures k <= |s|
    ensures forall j | 0 <= j < k :: s[j] != c
    ensures k < |s| ==> s[k] == c
  {
    IndexFrom(s, c, 0)
  }

  function WithoutCR(line: string): string {
    if line != "" && line[|line| - 1] == '\r' then line[..|line| - 1] else line
  }

  /** The lines of a text, without their terminators; the last one may lack its newline. */
  function Lines(text: string): seq<string>
    decreases |text|
  {
    var k := IndexOf(text, '\n');
    if text == "" then []
    else if k == |text| then [text]
    else [WithoutCR(text[..k])] + Lines(text[k + 1..])
  }

  lemma {:induction false} AssembleSnoc(prefix: string, chunks: seq<Chunk>, c: Chunk)
    ensures Assemble(prefix, chunks + [c]) ==
            Assemble(prefix, chunks) + (if c.isPrefix then [] else [Held(prefix, chunks) + c.text])
    decreases |chunks|
  {
    if chunks == [] {
      assert chunks + [c] == [c];
    } else {
      assert (chunks + [c])[1..] == chunks[1..] + [c];
      AssembleSnoc(if chunks[0].isPrefix then prefix + chunks[0].text else "", chunks[1..], c);
    }
  }

  /** What the loop holds of an unfinished line after `chunks`. */
  function Held(prefix: string, chunks: seq<Chunk>): string
    decreases |chunks|
  {
    if chunks == [] then prefix
    else Held(if chunks[0].isPrefix then prefix + chunks[0].text else "", chunks[1..])
  }

  lemma {:induction false} HeldSnoc(prefix: string, chunks: seq<Chunk>, c: Chunk)
    ensures Held(prefix, chunks + [c]) == if c.isPrefix then Held(prefix, chunks) + c.text else ""
    decreases |chunks|
  {
    if chunks == [] {
      assert chunks + [c] == [c];
      assert [c][1..] == [];
    } else {
      assert (chunks + [c])[1..] == chunks[1..] + [c];
      HeldSnoc(if chunks[0].isPrefix then prefix + chunks[0].text else "", chunks[1..], c);
    }
  }

  // ---- a reader with a buffer ----

  /** What the calls of ReadLine return for a text when the buffer holds `size` characters. A full buffer
      without a newline is an unfinished piece; a carriage return at its end is kept back for the next
      call. At the end of the text, what is left comes as a line of its own. */
  function ReadLines(size: nat, text: string): seq<Chunk>
    requires size >= 2
    decreases |text|
  {
    var k := IndexOf(text, '\n');
    if text == "" then []
    else if k < size && k < |text| then [Chunk(WithoutCR(text[..k]), false)] + ReadLines(size, text[k + 1..])
    else if |text| < size then [Chunk(text, false)]
    else if text[size - 1] == '\r' then [Chunk(text[..size - 1], true)] + ReadLines(size, text[size - 1..])
    else [Chunk(text[..size], true)] + ReadLines(size, text[size..])
  }

  function Unfinished(held: string): seq<string> {
    if held == "" then [] else [held]
  }

  /** The chunks are the lines of the text, except that a last one without a newline may still be held
      when the chunks end; then the loop never sees it. */
  ghost predicate Delivers(chunks: seq<Chunk>, text: string) {
    Lines(text) == Assemble("", chunks) + Unfinished(Held("", chunks))
  }

  lemma IndexIs(s: string, c: char, k: nat)
    requires k <= |s| && (forall j | 0 <= j < k :: s[j] != c) && (k < |s| ==> s[k] == c)
    ensures IndexOf(s, c) == k
  {
  }

  lemma IndexOfSum(p: string, t: string, c: char)
    requires c !in p
    ensures IndexOf(p + t, c) == |p| + IndexOf(t, c)
  {
    IndexIs(p + t, c, |p| + IndexOf(t, c));
  }

  lemma OneLine(text: string)
    requires '\n' !in text
    ensures Lines(text) == Unfinished(text)
  {
  }

  lemma WithoutCROfSum(p: string, line: string)
    requires line == "" && p != "" ==> p[|p| - 1] != '\r'
    ensures WithoutCR(p + line) == p + WithoutCR(line)
  {
    if line != "" {
      assert (p + line)[..|p + line| - 1] == p + line[..|line| - 1];
    } else {
      assert p + line == p;
    }
  }

  lemma SlicesOfSum(p: string, t: string, k: nat)
    requires k < |t|
    ensures (p + t)[..|p| + k] == p + t[..k] && (p + t)[|p| + k + 1..] == t[k + 1..]
  {
  }

  lemma LinesAt(s: string, k: nat, line: string, rest: string)
    requires k == IndexOf(s, '\n') < |s| && WithoutCR(s[..k]) == line && s[k + 1..] == rest
    ensures Lines(s) == [line] + Lines(rest)
  {
  }

  lemma FirstLineOfSum(p: string, t: string)
    requires '\n' !in p && IndexOf(t, '\n') < |t|
    requires p != "" && p[|p| - 1] == '\r' ==> t[0] == '\r'
    ensures var k, s := IndexOf(t, '\n'), p + t;
            && IndexOf(s, '\n') == |p| + k && s[|p| + k + 1..] == t[k + 1..]
            && s[..|p| + k] == p + t[..k] && WithoutCR(p + t[..k]) == p + WithoutCR(t[..k])
  {
    var k := IndexOf(t, '\n');
    IndexOfSum(p, t, '\n');
    SlicesOfSum(p, t, k);
    if k > 0 { assert t[..k] != ""; }
    WithoutCROfSum(p, t[..k]);
  }

  lemma LinesOfSum(p: string, t: string)
    requires '\n' !in p && IndexOf(t, '\n') < |t|
    requires p != "" && p[|p| - 1] == '\r' ==> t[0] == '\r'
    ensures var k := IndexOf(t, '\n');
            Lines(p + t) == [p + WithoutCR(t[..k])] + Lines(t[k + 1..])
  {
    var k := IndexOf(t, '\n');
    FirstLineOfSum(p, t);
    LinesAt(p + t, |p| + k, p + WithoutCR(t[..k]), t[k + 1..]);
  }

  lemma PieceHasNoNewline(t: string, k: nat)
    requires k <= IndexOf(t, '\n')
    ensures '\n' !in t[..k]
  {
    assert t[..k] == t[..IndexOf(t, '\n')][..k];
  }

  lemma AssembleFirst(p: string, c: Chunk, rest: seq<Chunk>)
    ensures Assemble(p, [c] + rest) ==
            if c.isPrefix then Assemble(p + c.text, rest) else [p + c.text] + Assemble("", rest)
    ensures Held(p, [c] + rest) == Held(if c.isPrefix then p + c.text else "", rest)
  {
    assert ([c] + rest)[1..] == rest;
  }

  /** How much of a full buffer without a newline is delivered. */
  function PieceLength(size: nat, text: string): (n: nat)
    requires 2 <= size <= |text|
    ensures 0 < n <= size
    ensures text[n - 1] == '\r' ==> n < |text| && text[n] == '\r'
  {
    if text[size - 1] == '\r' then size - 1 else size
  }

  /** The loop takes a finished line. */
  lemma TakeLine(p: string, line: string, rest: seq<Chunk>, lines: seq<string>)
    requires lines == Assemble("", rest) + Unfinished(Held("", rest))
    ensures var chunks := [Chunk(line, false)] + rest;
            [p + line] + lines == Assemble(p, chunks) + Unfinished(Held(p, chunks))
  {
    AssembleFirst(p, Chunk(line, false), rest);
    var a, b := Assemble("", rest), Unfinished(Held("", rest));
    assert [p + line] + (a + b) == [p + line] + a + b;
  }

  /** The loop takes what is left at the end. */
  lemma TakeRest(p: string, t: string)
    requires t != "" && '\n' !in p && IndexOf(t, '\n') == |t|
    ensures Lines(p + t) == Assemble(p, [Chunk(t, false)]) + Unfinished(Held(p, [Chunk(t, false)]))
  {
    PieceHasNoNewline(t, |t|);
    assert t[..|t|] == t;
    OneLine(p + t);
    assert [Chunk(t, false)] + [] == [Chunk(t, false)];
    AssembleFirst(p, Chunk(t, false), []);
  }

  /** `p` is what the loop holds when the rest `t` of the text is still to be read. */
  lemma {:induction false} ReadLinesFrom(size: nat, p: string, t: string)
    requires size >= 2 && '\n' !in p
    requires p != "" && p[|p| - 1] == '\r' ==> t != "" && t[0] == '\r'
    ensures Lines(p + t) == Assemble(p, ReadLines(size, t)) + Unfinished(Held(p, ReadLines(size, t)))
    decreases |t|
  {
    var k := IndexOf(t, '\n');
    if t == "" {
      assert p + t == p;
      OneLine(p);
    } else if k < size && k < |t| {
      LinesOfSum(p, t);
      ReadLinesFrom(size, "", t[k + 1..]);
      assert "" + t[k + 1..] == t[k + 1..];
      TakeLine(p, WithoutCR(t[..k]), ReadLines(size, t[k + 1..]), Lines(t[k + 1..]));
    } else if |t| < size {
      TakeRest(p, t);
    } else {
      ReadLinesFromPiece(size, p, t);
      var n := PieceLength(size, t);
      AssembleFirst(p, Chunk(t[..n], true), ReadLines(size, t[n..]));
    }
  }

  lemma {:induction false} ReadLinesFromPiece(size: nat, p: string, t: string)
    requires 2 <= size <= |t| && '\n' !in p && IndexOf(t, '\n') >= size
    ensures var n := PieceLength(size, t);
            && ReadLines(size, t) == [Chunk(t[..n], true)] + ReadLines(size, t[n..])
            && var q := p + t[..n];
               Lines(p + t) == Assemble(q, ReadLines(size, t[n..])) + Unfinished(Held(q, ReadLines(size, t[n..])))
    decreases |t|, 0
  {
    var n := PieceLength(size, t);
    var q := p + t[..n];
    PieceHasNoNewline(t, n);
    assert q + t[n..] == p + t;
    assert q[|q| - 1] == t[n - 1];
    ReadLinesFrom(size, q, t[n..]);
  }

  lemma ReadLinesDeliver(size: nat, text: string)
    requires size >= 2
    ensures Delivers(ReadLines(size, text), text)
  {
    ReadLinesFrom(size, "", text);
    assert "" + text == text;
  }

  lemma {:induction false} HeldAfterLine(prefix: string, pieces: seq<string>, rest: seq<Chunk>)
    requires pieces != []
    ensures Held(prefix, LineChunks(pieces) + rest) == Held("", rest)
    decreases |pieces|
  {
    var first, tail := Chunk(pieces[0], |pieces| > 1), LineChunks(pieces[1..]);
    assert LineChunks(pieces) + rest == [first] + (tail + rest);
    AssembleFirst(prefix, first, tail + rest);
    if |pieces| == 1 {
      assert tail + rest == rest;
    } else {
      HeldAfterLine(prefix + pieces[0], pieces[1..], rest);
    }
  }

  lemma {:induction false} NothingHeldAfterFile(split: seq<seq<string>>)
    requires forall i | 0 <= i < |split| :: split[i] != []
    ensures Held("", FileChunks(split)) == ""
  {
    if split != [] {
      HeldAfterLine("", split[0], FileChunks(split[1..]));
      NothingHeldAfterFile(split[1..]);
    }
  }

  /** Lines that end in a newline are all delivered, however a reader may split them. */
  lemma FileDelivers(split: seq<seq<string>>, text: string)
    requires Splits(split, Lines(text))
    ensures Delivers(FileChunks(split), text) && Held("", FileChunks(split)) == ""
  {
    AssembleFile(split, Lines(text));
    NothingHeldAfterFile(split);
  }

  /** What follows the last newline. */
  function LastLine(text: string): string
    decreases |text|
  {
    var k := IndexOf(text, '\n');
    if k == |text| then text else LastLine(text[k + 1..])
  }

  lemma IndexAfter(t: string, n: nat)
    requires n <= IndexOf(t, '\n') < |t|
    ensures var k := IndexOf(t, '\n');
            IndexOf(t[n..], '\n') == k - n && t[n..][k - n + 1..] == t[k + 1..]
  {
    IndexIs(t[n..], '\n', IndexOf(t, '\n') - n);
  }

  lemma LastLineAfter(t: string, n: nat)
    requires n <= IndexOf(t, '\n') < |t|
    ensures IndexOf(t[n..], '\n') < |t[n..]| && LastLine(t[n..]) == LastLine(t)
  {
    IndexAfter(t, n);
  }

  lemma NoNewlineAfter(t: string, n: nat)
    requires '\n' !in t && n <= |t|
    ensures '\n' !in t[n..] && IndexOf(t, '\n') == |t|
  {
  }

  /** A full buffer of a line. */
  lemma HeldAfterPiece(size: nat, p: string, t: string)
    requires 2 <= size <= |t| && '\n' !in t
    ensures var n := PieceLength(size, t);
            Held(p, ReadLines(size, t)) == Held(p + t[..n], ReadLines(size, t[n..]))
  {
    var n := PieceLength(size, t);
    NoNewlineAfter(t, n);
    AssembleFirst(p, Chunk(t[..n], true), ReadLines(size, t[n..]));
  }

  lemma HeldOfShort(size: nat, p: string, t: string)
    requires 2 <= size && 0 < |t| < size && '\n' !in t
    ensures Held(p, ReadLines(size, t)) == ""
  {
    assert ReadLines(size, t)[1..] == [];
  }

  lemma SumOfSlices(p: string, t: string, n: nat)
    requires n <= |t|
    ensures (p + t[..n]) + t[n..] == p + t
  {
  }

  /** Full pieces make up the line, with nothing left. */
  predicate JustFills(size: nat, line: string)
    requires size >= 2
    decreases |line|
  {
    line == "" || (|line| >= size && JustFills(size, line[PieceLength(size, line)..]))
  }

  predicate Fills(length: nat, size: nat)
    requires size > 0
  {
    length % size == 0
  }

  lemma FillsMore(length: nat, size: nat)
    requires 0 < size <= length
    ensures Fills(length, size) <==> Fills(length - size, size)
  {
    AddMultiple(length - size, 1, size);
  }

  lemma NoReturnAfter(t: string, n: nat)
    requires '\r' !in t && n <= |t|
    ensures '\r' !in t[n..]
  {
  }

  /** Without carriage returns the pieces have the size of the buffer. */
  lemma {:induction false} JustFillsExactly(size: nat, line: string)
    requires size >= 2 && '\r' !in line
    ensures JustFills(size, line) <==> Fills(|line|, size)
    decreases |line|
  {
    if |line| >= size {
      assert line[size - 1] in line;
      NoReturnAfter(line, size);
      JustFillsExactly(size, line[size..]);
      FillsMore(|line|, size);
    }
  }

  lemma {:induction false} HeldOfRest(size: nat, p: string, t: string)
    requires size >= 2 && '\n' !in t
    ensures Held(p, ReadLines(size, t)) == if JustFills(size, t) then p + t else ""
    decreases |t|
  {
    if t == "" {
      assert p + t == p;
    } else if |t| < size {
      HeldOfShort(size, p, t);
    } else {
      var n := PieceLength(size, t);
      HeldAfterPiece(size, p, t);
      NoNewlineAfter(t, n);
      HeldOfRest(size, p + t[..n], t[n..]);
      SumOfSlices(p, t, n);
    }
  }

  lemma {:induction false} HeldAtEnd(size: nat, p: string, t: string)
    requires size >= 2 && IndexOf(t, '\n') < |t|
    ensures Held(p, ReadLines(size, t)) == if JustFills(size, LastLine(t)) then LastLine(t) else ""
    decreases |t|
  {
    var k := IndexOf(t, '\n');
    var chunks := ReadLines(size, t);
    if k < size {
      var rest := t[k + 1..];
      assert chunks[1..] == ReadLines(size, rest);
      if IndexOf(rest, '\n') < |rest| {
        HeldAtEnd(size, "", rest);
      } else {
        assert rest[..|rest|] == rest;
        HeldOfRest(size, "", rest);
        assert "" + rest == rest;
      }
    } else {
      var n := if t[size - 1] == '\r' then size - 1 else size;
      assert chunks[1..] == ReadLines(size, t[n..]);
      LastLineAfter(t, n);
      HeldAtEnd(size, p + t[..n], t[n..]);
    }
  }

  /** Which last line the loop never sees: one without a newline that full pieces make up. Without carriage
      returns that is one whose length is a multiple of the buffer's size. */
  lemma LostExactly(size: nat, text: string)
    requires size >= 2
    ensures Held("", ReadLines(size, text)) == if JustFills(size, LastLine(text)) then LastLine(text) else ""
    ensures '\r' !in LastLine(text) ==> (JustFills(size, LastLine(text)) <==> Fills(|LastLine(text)|, size))
  {
    if '\r' !in LastLine(text) { JustFillsExactly(size, LastLine(text)); }
    if IndexOf(text, '\n') < |text| {
      HeldAtEnd(size, "", text);
    } else {
      assert text[..|text|] == text;
      HeldOfRest(size, "", text);
      assert "" + text == text;
    }
  }
}
