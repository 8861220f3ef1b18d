/** The rules of the N-Triples dialect, apart from the code: escapes, suffixes,
    what a line may carry, and which lines do not matter. */
module NTriplesLaws {
  import opened Text
  import opened NTriples
  import opened NTriplesRoundTrip

  // -------------------------------------------------------------- characters

  /** Printed literals stay on one line and hold no raw tab or return. */
  lemma {:induction false} EscapeIsPlain(v: string)
    ensures Lacks(Escape(v), '\n') && Lacks(Escape(v), '\r') && Lacks(Escape(v), '\t')
  {
    if v != "" {
      EscapeIsPlain(v[1..]);
    }
  }

  /** How a literal is read, character by character: a quote ends it, the end of
      the text too; a backslash stands for newline, return or tab before n, r and
      t, for the next character otherwise, and for itself at the end. */
  lemma ScanRules(c: char, rest: string)
    requires IsAscii(c)
    ensures ScanChars("") == ("", "") && ScanChars("\\") == ("\\", "") && ScanChars("\"" + rest) == ("", rest)
    ensures c != '\\' && c != '"' ==> ScanChars([c] + rest) == ([c] + ScanChars(rest).0, ScanChars(rest).1)
    ensures var meant := if c == 'n' then '\n' else if c == 'r' then '\r' else if c == 't' then '\t' else c;
            ScanChars(['\\', c] + rest) == ([meant] + ScanChars(rest).0, ScanChars(rest).1)
  {
    hide ScanChars;
    ScanEnds(rest);
    ScanPlain(c, rest);
    ScanEscape(c, rest);
  }

  lemma ScanEnds(rest: string)
    ensures ScanChars("") == ("", "") && ScanChars("\\") == ("\\", "") && ScanChars("\"" + rest) == ("", rest)
  {
    assert ("\"" + rest)[1..] == rest && "\\"[1..] == "";
    assert RawChar('\\') + "" == "\\";
  }

  lemma ScanPlain(c: char, rest: string)
    requires IsAscii(c)
    ensures c != '\\' && c != '"' ==> ScanChars([c] + rest) == ([c] + ScanChars(rest).0, ScanChars(rest).1)
  {
    assert ([c] + rest)[1..] == rest;
  }

  lemma ScanEscape(c: char, rest: string)
    requires IsAscii(c)
    ensures var meant := if c == 'n' then '\n' else if c == 'r' then '\r' else if c == 't' then '\t' else c;
            ScanChars(['\\', c] + rest) == ([meant] + ScanChars(rest).0, ScanChars(rest).1)
  {
    var text := ['\\', c] + rest;
    assert text[2..] == rest && text[0] == '\\' && text[1] == c;
  }

  function Num(b: Byte): int {
    b
  }

  /** The payload of a byte that follows. */
  function Six(b: Byte): int {
    Num(b) - 0x80
  }

  /** UTF-8, read backwards: as many bytes as the code point needs, a leading
      byte that says so, and six bits in each byte that follows. */
  lemma Utf8Means(c: char)
    ensures var b, n := Utf8(c), c as int;
            && |b| == (if n < 0x80 then 1 else if n < 0x800 then 2 else if n < 0x10000 then 3 else 4)
            && (forall i | 1 <= i < |b| :: 0 <= Six(b[i]) < 64)
            && (|b| == 1 ==> n == Num(b[0]))
            && (|b| == 2 ==> 0xC0 <= Num(b[0]) < 0xE0 && n == (Num(b[0]) - 0xC0) * 64 + Six(b[1]))
            && (|b| == 3 ==> 0xE0 <= Num(b[0]) < 0xF0 && n == (Num(b[0]) - 0xE0) * 4096 + Six(b[1]) * 64 + Six(b[2]))
            && (|b| == 4 ==> 0xF0 <= Num(b[0]) < 0xF8
                             && n == (Num(b[0]) - 0xF0) * 262144 + Six(b[1]) * 4096 + Six(b[2]) * 64 + Six(b[3]))
  {
    var n := c as int;
    SixBits(n);
    SixBits(n / 64);
    SixBits(n / 64 / 64);
    Nested(n);
    assert n < 0x110000;
  }

  lemma SixBits(n: nat)
    ensures n == n / 64 * 64 + n % 64 && 0 <= n % 64 < 64
  {
  }

  lemma Nested(n: nat)
    ensures n / 64 / 64 == n / 4096 && n / 4096 / 64 == n / 262144
  {
  }

  /** A label, of a blank node or a language, runs to white space or a full stop. */
  lemma LabelMeans(s: string)
    ensures LabelText(s) <==> forall i | 0 <= i < |s| :: s[i] != '.' && !IsWhitespace(s[i])
  {
    hide IsWhitespace;
  }

  /** A literal with both is printed with its language alone. */
  lemma LanguageWins(v: string, dt: string, lang: string)
    ensures WriteTerm(Literal(v, Some(dt), Some(lang))) == WriteTerm(Literal(v, None, Some(lang)))
  {
  }

  /** Which terms are refused as unterminated: an IRI without its closing
      bracket, a literal whose datatype has none. */
  lemma UnterminatedExactly(text: string)
    ensures ReadTerm(text) == Err(UnterminatedIri) <==>
            var input := TrimStart(text); input != "" && input[0] == '<' && Lacks(input[1..], '>')
    ensures ReadTerm(text) == Err(UnterminatedDatatype) <==>
            var input := TrimStart(text);
            && input != "" && input[0] == '"'
            && var after := ScanChars(input[1..]).1;
            "^^<" <= after && Lacks(after[3..], '>')
  {
    hide TrimStart, ScanChars, IsWhitespace, LabelEnd;
    var input := TrimStart(text);
    if input != "" && input[0] == '<' && Lacks(input[1..], '>') {
      SplitOnceLacks(input[1..], '>');
    }
    if input != "" && input[0] == '"' {
      var after := ScanChars(input[1..]).1;
      assert "^^<" <= after <==> |after| >= 3 && after[0] == '^' && after[1] == '^' && after[2] == '<';
      if "^^<" <= after && Lacks(after[3..], '>') {
        SplitOnceLacks(after[3..], '>');
      }
    }
  }

  // ------------------------------------------------------------------- lines

  /** Text after the object does not matter, nor does the full stop: a line of
      three terms is read for these terms whatever follows them. */
  lemma LooseLine(t: Triple, junk: string)
    requires TripleShape(t)
    ensures ParseLine(WriteTerm(t.subject) + " " + WriteTerm(t.predicate_) + " " + WriteTerm(t.object_) + " " + junk)
         == Ok(ReadBackTriple(t))
  {
    hide *;
    TripleParts(t);
    var s, p, o := WriteTerm(t.subject), WriteTerm(t.predicate_), WriteTerm(t.object_);
    WrittenIsSolid(t.subject);
    WrittenIsSolid(t.object_);
    var line := s + " " + p + " " + o;
    var rest := TrimLoose(line, junk);
    FirstOf(s, p, o);
    SolidEnd(s, p, o);
    Regroup(s, p, o, rest);
    var afterP := " " + (o + rest);
    var afterS := " " + (p + afterP);
    Spaced(p + afterP);
    Spaced(o + rest);
    ReadWritten(t.subject, afterS);
    ReadBlankThen(t.predicate_, afterP);
    ReadBlankThen(t.object_, rest);
    ThreeTerms(line + " " + junk, s + afterS, ReadBack(t.subject), afterS, ReadBack(t.predicate_), afterP, ReadBack(t.object_), rest);
    ReadBackParts(t);
  }

  lemma TripleParts(t: Triple)
    requires TripleShape(t)
    ensures TermShape(t.subject) && TermShape(t.predicate_) && TermShape(t.object_)
  {
    hide TermShape;
  }

  lemma ReadBackParts(t: Triple)
    ensures ReadBackTriple(t) == Triple(ReadBack(t.subject), ReadBack(t.predicate_), ReadBack(t.object_))
  {
    hide ReadBack;
  }

  lemma Spaced(s: string)
    ensures Delimited(" " + s)
  {
  }

  lemma FirstOf(s: string, p: string, o: string)
    requires s != ""
    ensures var line := s + " " + p + " " + o; line != "" && line[0] == s[0]
  {
  }

  lemma SolidEnd(s: string, p: string, o: string)
    requires o != ""
    ensures var line := s + " " + p + " " + o; line != "" && line[|line| - 1] == o[|o| - 1]
  {
  }

  lemma Regroup(s: string, p: string, o: string, rest: string)
    ensures s + " " + p + " " + o + rest == s + (" " + (p + (" " + (o + rest))))
  {
  }

  lemma ThreeTerms(text: string, line: string, s: Term, r1: string, p: Term, r2: string, o: Term, r3: string)
    requires Trim(TrimEndChar(text, '.')) == line && ReadTerm(line) == Ok((s, r1))
    requires ReadTerm(TrimStart(r1)) == Ok((p, r2)) && ReadTerm(TrimStart(r2)) == Ok((o, r3))
    ensures ParseLine(text) == Ok(Triple(s, p, o))
  {
    hide ReadTerm, Trim, TrimEndChar, TrimStart;
  }

  /** Trimming dots and blanks off the end reaches at most into the junk. */
  lemma TrimLoose(line: string, junk: string) returns (rest: string)
    requires line != "" && !IsWhitespace(line[0]) && !IsWhitespace(line[|line| - 1])
    ensures Delimited(rest) && Trim(TrimEndChar(line + " " + junk, '.')) == line + rest
  {
    var text := line + " " + junk;
    assert text[|line|] == ' ';
    hide IsWhitespace;
    var a := TrimEndChar(text, '.');
    assert |a| > |line| by { assert text[|line|] != '.'; }
    assert a == text[..|a|] && a[0] == line[0] && a[|line| - 1] == line[|line| - 1];
    TrimStartSolid(a);
    hide TrimEndChar, TrimStart;
    var b := TrimEnd(a);
    assert !IsWhitespace(a[|line| - 1]);
    assert |b| >= |line|;
    rest := b[|line|..];
    assert b == a[..|b|] && b == line + rest;
    assert rest != "" ==> rest[0] == b[|line|] == ' ';
  }

  // -------------------------------------------------- lines that do not matter

  /** `k` blanks, and then nothing or a `#`. */
  ghost predicate CommentAt(line: string, k: nat) {
    k <= |line| && (forall i | 0 <= i < k :: IsWhitespace(line[i])) && (k == |line| || line[k] == '#')
  }

  ghost predicate Comment(line: string) {
    exists k: nat :: CommentAt(line, k)
  }

  lemma CommentsAreSkipped(line: string)
    ensures SkipsLine(Trim(line)) <==> Comment(line)
  {
    hide Comment, TrimStart, TrimEnd;
    CommentMeans(line);
    TrimFirst(TrimStart(line));
  }

  lemma {:induction false} CommentMeans(line: string)
    ensures Comment(line) <==> TrimStart(line) == "" || TrimStart(line)[0] == '#'
    decreases |line|
  {
    if line == "" || line[0] == '#' {
      assert !IsWhitespace('#');
      assert CommentAt(line, 0);
    } else if IsWhitespace(line[0]) {
      CommentMeans(line[1..]);
      BlankThenComment(line);
    } else {
      forall k: nat ensures !CommentAt(line, k) {
        assert k > 0 && k <= |line| ==> !IsWhitespace(line[0]);
      }
    }
  }

  lemma BlankThenComment(line: string)
    requires line != "" && IsWhitespace(line[0])
    ensures Comment(line) <==> Comment(line[1..])
  {
    assert !IsWhitespace('#');
    hide IsWhitespace;
    var t := line[1..];
    if k: nat :| CommentAt(line, k) {
      assert k > 0;
      assert CommentAt(t, k - 1);
    }
    if k: nat :| CommentAt(t, k) {
      forall i | 0 <= i < k + 1 ensures IsWhitespace(line[i]) {
        assert i > 0 ==> line[i] == t[i - 1];
      }
      assert CommentAt(line, k + 1);
    }
  }

  lemma TrimFirst(t: string)
    requires t == "" || !IsWhitespace(t[0])
    ensures TrimEnd(t) == "" <==> t == ""
    ensures TrimEnd(t) != "" ==> TrimEnd(t)[0] == t[0]
  {
    hide IsWhitespace;
    var b := TrimEnd(t);
    if t != "" {
      assert b != "";
      assert t[..|b|] == b;
    }
  }

  /** The outcome without the line number. */
  function Unnumbered(r: Parsed): Result<set<Triple>, ReadError> {
    match r
    case Ok(g) => Ok(g)
    case Err(e) => Err(e.cause)
  }

  function Then(a: Result<set<Triple>, ReadError>, b: Result<set<Triple>, ReadError>): Result<set<Triple>, ReadError> {
    if a.Err? then a else if b.Err? then b else Ok(a.value + b.value)
  }

  lemma {:induction false} NumbersDoNotMatter(text: string, n: nat, m: nat)
    ensures Unnumbered(Parse(text, n)) == Unnumbered(Parse(text, m))
    decreases |text|
  {
    hide ParseLine, SkipsLine, FirstLine;
    if text != "" {
      NumbersDoNotMatter(FirstLine(text).1, n + 1, m + 1);
    }
  }

  /** One line and the rest of a text. */
  lemma LineThenRest(text: string, line: string, rest: string, n: nat)
    requires text != "" && FirstLine(text) == (Trim(line), rest)
    ensures Unnumbered(Parse(text, n)) == Then(LineAlone(line), Unnumbered(Parse(rest, 1)))
  {
    hide ParseLine, SkipsLine, FirstLine, Trim;
    NumbersDoNotMatter(rest, n + 1, 1);
    var r := Parse(rest, n + 1);
    if r.Ok? {
      assert {} + r.value == r.value;
    }
  }

  function LineAlone(line: string): Result<set<Triple>, ReadError> {
    if SkipsLine(Trim(line)) then Ok({})
    else
      match ParseLine(Trim(line))
      case Err(e) => Err(e)
      case Ok(t) => Ok({t})
  }

  lemma ThenAssoc(a: Result<set<Triple>, ReadError>, b: Result<set<Triple>, ReadError>, c: Result<set<Triple>, ReadError>)
    ensures Then(Then(a, b), c) == Then(a, Then(b, c)) && Then(Ok({}), c) == c && Then(a, Ok({})) == a
  {
    if a.Ok? && b.Ok? && c.Ok? {
      assert a.value + b.value + c.value == a.value + (b.value + c.value);
    }
    if c.Ok? {
      assert {} + c.value == c.value;
    }
    if a.Ok? {
      assert a.value + {} == a.value;
    }
  }

  /** A text is its lines: parsing two texts on lines of their own is parsing
      the one and then the other. */
  lemma {:induction false} TextsOneAfterTheOther(a: string, b: string)
    ensures Unnumbered(Parse(a + "\n" + b, 1)) == Then(Unnumbered(Parse(a, 1)), Unnumbered(Parse(b, 1)))
    decreases |a|
  {
    hide Parse, LineAlone, Then, SplitOnce, Trim;
    var all := a + "\n" + b;
    match SplitOnce(a, '\n')
    case None =>
      SplitOnceAfter(a, '\n', b);
      assert all == a + ['\n'] + b;
      LineThenRest(all, a, b, 1);
      AloneIs(a);
    case Some((x, y)) =>
      assert all == x + ['\n'] + (y + "\n" + b);
      SplitOnceAfter(x, '\n', y + "\n" + b);
      LineThenRest(all, x, y + "\n" + b, 1);
      LineThenRest(a, x, y, 1);
      TextsOneAfterTheOther(y, b);
      ThenAssoc(LineAlone(x), Unnumbered(Parse(y, 1)), Unnumbered(Parse(b, 1)));
  }

  lemma AloneIs(line: string)
    requires Lacks(line, '\n')
    ensures Unnumbered(Parse(line, 1)) == LineAlone(line)
  {
    hide ParseLine;
    SplitOnceLacks(line, '\n');
    if line == "" {
      assert Trim("") == "";
    } else {
      LineThenRest(line, line, "", 1);
      ThenAssoc(LineAlone(line), Ok({}), Ok({}));
    }
  }

  /** A blank or comment line anywhere leaves the outcome as it is. */
  lemma CommentsDoNotMatter(a: string, line: string, b: string)
    requires Lacks(line, '\n') && Comment(line)
    ensures Unnumbered(Parse(a + "\n" + (line + "\n" + b))) == Unnumbered(Parse(a + "\n" + b))
    ensures Unnumbered(Parse(line + "\n" + b)) == Unnumbered(Parse(b))
  {
    hide Parse, Comment, Then, Trim, SkipsLine;
    CommentsAreSkipped(line);
    AloneIs(line);
    TextsOneAfterTheOther(line, b);
    TextsOneAfterTheOther(a, line + "\n" + b);
    TextsOneAfterTheOther(a, b);
    ThenAssoc(Unnumbered(Parse(a, 1)), Ok({}), Unnumbered(Parse(b, 1)));
  }
}
