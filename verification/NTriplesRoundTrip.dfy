/** Printing a graph and parsing the text back: exactly which graphs survive. */
module NTriplesRoundTrip {
  import opened Text
  import opened NTriples

  // ------------------------------------------------------------- conditions

  predicate IriText(s: string) {
    Lacks(s, '>') && Lacks(s, '\n')
  }

  predicate LabelText(s: string) {
    forall i | 0 <= i < |s| :: !EndsLabel(s[i])
  }

  /** What every parsed term satisfies. */
  predicate TermShape(t: Term) {
    match t
    case Iri(i) => IriText(i)
    case BlankNode(b) => LabelText(b)
    case Literal(_, dt, lang) =>
      && (dt.None? || lang.None?)
      && (dt.Some? ==> IriText(dt.value))
      && (lang.Some? ==> LabelText(lang.value))
  }

  predicate AsciiText(s: string) {
    forall i | 0 <= i < |s| :: IsAscii(s[i])
  }

  predicate WellFormedTerm(t: Term) {
    TermShape(t) && (t.Literal? ==> AsciiText(t.value))
  }

  predicate TripleShape(t: Triple) {
    TermShape(t.subject) && TermShape(t.predicate_) && TermShape(t.object_)
  }

  /** The graphs a caller may expect back: printable IRIs and labels, ASCII
      literal values, never both a language and a datatype. */
  predicate WellFormed(t: Triple) {
    WellFormedTerm(t.subject) && WellFormedTerm(t.predicate_) && WellFormedTerm(t.object_)
  }

  // ---------------------------------------------------- what is read back

  function Latin1(v: string): string {
    if v == "" then "" else RawChar(v[0]) + Latin1(v[1..])
  }

  function ReadBack(t: Term): Term {
    if t.Literal? then t.(value := Latin1(t.value)) else t
  }

  function ReadBackTriple(t: Triple): Triple {
    Triple(ReadBack(t.subject), ReadBack(t.predicate_), ReadBack(t.object_))
  }

  function ReadBackGraph(ts: seq<Triple>): set<Triple> {
    set t | t in ts :: ReadBackTriple(t)
  }

  /** Reading back grows a value unless every character is ASCII. */
  lemma {:induction false} Latin1Length(v: string)
    ensures |Latin1(v)| >= |v|
    ensures AsciiText(v) ==> Latin1(v) == v
    ensures !AsciiText(v) ==> |Latin1(v)| > |v|
  {
    hide RawChar;
    if v != "" {
      Latin1Length(v[1..]);
      assert AsciiText(v) == (IsAscii(v[0]) && AsciiText(v[1..]));
    }
  }

  // ------------------------------------------------------------- one term

  lemma ScanEscapedChar(c: char, tail: string)
    ensures ScanChars(EscapeChar(c) + tail) == (RawChar(c) + ScanChars(tail).0, ScanChars(tail).1)
  {
    hide RawChar;
    var s := EscapeChar(c) + tail;
    assert s[|EscapeChar(c)|..] == tail;
  }

  lemma {:induction false} ScanEscaped(v: string, rest: string)
    ensures ScanChars(Escape(v) + "\"" + rest) == (Latin1(v), rest)
  {
    hide RawChar, EscapeChar;
    if v == "" {
      assert Escape(v) + "\"" + rest == "\"" + rest;
    } else {
      hide ScanChars;
      var tail := Escape(v[1..]) + "\"" + rest;
      ScanEscaped(v[1..], rest);
      assert Escape(v) + "\"" + rest == EscapeChar(v[0]) + tail;
      ScanEscapedChar(v[0], tail);
    }
  }

  /** A term is always printed at the end of the line or before a space. */
  predicate Delimited(rest: string) {
    rest == "" || rest[0] == ' '
  }

  lemma LabelEndAt(a: string, rest: string)
    requires LabelText(a) && Delimited(rest)
    ensures var s := a + rest;
            LabelEnd(s) == |a| && s[..|a|] == a && s[|a|..] == rest
  {
    var s := a + rest;
    assert forall i | 0 <= i < |a| :: s[i] == a[i];
    assert rest != "" ==> s[|a|] == rest[0];
  }

  lemma ReadWrittenLanguage(v: string, lang: string, rest: string)
    requires LabelText(lang) && Delimited(rest)
    ensures ReadSuffix(v, "@" + lang + rest) == Ok((Literal(v, None, Some(lang)), rest))
  {
    hide SplitOnce, Lacks, LabelText;
    var after := "@" + lang + rest;
    assert after[1..] == lang + rest;
    LabelEndAt(lang, rest);
    hide LabelEnd, Delimited;
  }

  lemma ReadWrittenDatatype(v: string, dt: string, rest: string)
    requires IriText(dt)
    ensures ReadSuffix(v, "^^<" + dt + ">" + rest) == Ok((Literal(v, Some(dt), None), rest))
  {
    hide LabelEnd, SplitOnce, Lacks, EndsLabel;
    var after := "^^<" + dt + ">" + rest;
    assert after[3..] == dt + ['>'] + rest;
    SplitOnceAfter(dt, '>', rest);
  }

  lemma ReadWrittenSuffix(v: string, dt: Option<string>, lang: Option<string>, rest: string)
    requires TermShape(Literal(v, dt, lang)) && Delimited(rest)
    ensures ReadSuffix(v, Suffix(dt, lang) + rest) == Ok((Literal(v, dt, lang), rest))
  {
    hide SplitOnce, LabelEnd, LabelText, IriText, EndsLabel;
    if lang.Some? {
      hide ReadSuffix;
      ReadWrittenLanguage(v, lang.value, rest);
    } else if dt.Some? {
      hide ReadSuffix;
      ReadWrittenDatatype(v, dt.value, rest);
    } else {
      assert Suffix(dt, lang) + rest == rest;
    }
  }

  lemma ReadWrittenLiteral(t: Term, rest: string)
    requires t.Literal? && TermShape(t) && Delimited(rest)
    ensures ReadTerm(WriteTerm(t) + rest) == Ok((ReadBack(t), rest))
  {
    hide TermShape, ReadSuffix, Suffix, ScanChars, Escape, Latin1, ReadIri, ReadBlank, TrimStart, IsWhitespace;
    var s := WriteTerm(t) + rest;
    var tail := Suffix(t.datatyp, t.language) + rest;
    assert s[1..] == Escape(t.value) + "\"" + tail;
    ScanEscaped(t.value, tail);
    assert TermShape(ReadBack(t)) by { ReadBackKeepsShape(t); }
    ReadWrittenSuffix(Latin1(t.value), t.datatyp, t.language, rest);
    assert !IsWhitespace('"') by { QuoteIsSolid(); }
    TrimStartSolid(s);
  }

  lemma QuoteIsSolid()
    ensures !IsWhitespace('"') && !IsWhitespace('<') && !IsWhitespace('_') && !IsWhitespace('.')
  {
  }

  lemma ReadBackKeepsShape(t: Term)
    requires TermShape(t)
    ensures TermShape(ReadBack(t))
  {
  }

  lemma TrimStartSolid(s: string)
    requires s != "" && !IsWhitespace(s[0])
    ensures TrimStart(s) == s
  {
  }

  /** One term, wherever it stands in a line. */
  lemma ReadWritten(t: Term, rest: string)
    requires TermShape(t) && Delimited(rest)
    ensures ReadTerm(WriteTerm(t) + rest) == Ok((ReadBack(t), rest))
  {
    hide ReadLiteral, TrimStart, IsWhitespace;
    var s := WriteTerm(t) + rest;
    QuoteIsSolid();
    match t
    case Iri(i) =>
      assert s[1..] == i + ['>'] + rest;
      SplitOnceAfter(i, '>', rest);
      TrimStartSolid(s);
    case BlankNode(b) =>
      assert s[2..] == b + rest;
      LabelEndAt(b, rest);
      TrimStartSolid(s);
    case Literal(_, _, _) => ReadWrittenLiteral(t, rest);
  }

  // ------------------------------------------------------------- one line

  lemma EscapeHasNoNewline(v: string)
    ensures Lacks(Escape(v), '\n')
  {
  }

  /** Printed terms carry no newline and neither start nor end with white space. */
  lemma WrittenIsSolid(t: Term)
    requires TermShape(t)
    ensures var w := WriteTerm(t);
            w != "" && Lacks(w, '\n') && !IsWhitespace(w[0]) && !IsWhitespace(w[|w| - 1]) && w[0] != '#'
  {
    if t.Literal? {
      EscapeHasNoNewline(t.value);
    }
  }

  lemma TrimDot(a: string)
    requires a != "" && !IsWhitespace(a[0]) && !IsWhitespace(a[|a| - 1])
    ensures Trim(TrimEndChar(a + " .", '.')) == a
  {
    var s := a + " .";
    assert s[..|s| - 1] == a + " ";
    assert TrimEndChar(s, '.') == a + " ";
    assert TrimStart(a + " ") == a + " ";
    assert (a + " ")[..|a|] == a;
    assert TrimEnd(a + " ") == TrimEnd(a);
  }

  lemma ReadBlankThen(t: Term, rest: string)
    requires TermShape(t) && Delimited(rest)
    ensures ReadTerm(TrimStart(" " + (WriteTerm(t) + rest))) == Ok((ReadBack(t), rest))
  {
    var w := WriteTerm(t) + rest;
    WrittenIsSolid(t);
    assert (" " + w)[1..] == w;
    assert TrimStart(" " + w) == TrimStart(w) == w;
    ReadWritten(t, rest);
  }

  lemma ParseWrittenLine(t: Triple)
    requires TripleShape(t)
    ensures ParseLine(WriteLine(t)) == Ok(ReadBackTriple(t))
  {
    hide WriteTerm, ReadTerm, TermShape, ReadBack, Trim, TrimStart, TrimEndChar, IsWhitespace;
    var s, p, o := WriteTerm(t.subject), WriteTerm(t.predicate_), WriteTerm(t.object_);
    WrittenIsSolid(t.subject);
    WrittenIsSolid(t.object_);
    var line := s + " " + p + " " + o;
    TrimDot(line);
    assert WriteLine(t) == line + " .";
    var afterP := " " + (o + "");
    var afterS := " " + (p + afterP);
    assert line == s + afterS;
    ReadWritten(t.subject, afterS);
    ReadBlankThen(t.predicate_, afterP);
    ReadBlankThen(t.object_, "");
  }

  lemma SpacedLine(s: string, p: string, o: string)
    requires s != "" && s[0] != '#' && Lacks(s, '\n') && Lacks(p, '\n') && Lacks(o, '\n')
    ensures var w := s + " " + p + " " + o + " .";
            w[0] == s[0] && w[|w| - 1] == '.' && Lacks(w, '\n') && !SkipsLine(w)
  {
  }

  lemma WrittenLineIsSolid(t: Triple)
    requires TripleShape(t)
    ensures var w := WriteLine(t); Lacks(w, '\n') && Trim(w) == w && !SkipsLine(w)
  {
    WrittenIsSolid(t.subject);
    WrittenIsSolid(t.predicate_);
    WrittenIsSolid(t.object_);
    hide WriteTerm, TermShape, Trim, IsWhitespace, Lacks;
    QuoteIsSolid();
    SpacedLine(WriteTerm(t.subject), WriteTerm(t.predicate_), WriteTerm(t.object_));
    TrimKeepsSolid(WriteLine(t));
  }

  lemma FirstWrittenLine(line: string, rest: string)
    requires Lacks(line, '\n') && Trim(line) == line
    ensures FirstLine(line + "\n" + rest) == (line, rest)
  {
    SplitOnceAfter(line, '\n', rest);
  }

  // ------------------------------------------------------------ whole graph

  /** Every listing of shaped triples parses, to exactly the triples read back. */
  lemma {:induction false} ParsePrinted(ts: seq<Triple>, n: nat)
    requires forall t | t in ts :: TripleShape(t)
    ensures Parse(Print(ts), n) == Ok(ReadBackGraph(ts))
  {
    hide WriteLine, ParseLine, TripleShape, ReadBackTriple, FirstLine, SkipsLine, Trim;
    if ts == [] {
      assert Lines(ts) == [] && ReadBackGraph(ts) == {};
    } else {
      var t, rest := ts[0], Print(ts[1..]);
      assert Lines(ts)[1..] == Lines(ts[1..]);
      assert Print(ts) == WriteLine(t) + "\n" + rest;
      WrittenLineIsSolid(t);
      FirstWrittenLine(WriteLine(t), rest);
      ParseWrittenLine(t);
      ParsePrinted(ts[1..], n + 1);
      assert ts == [t] + ts[1..];
      assert ReadBackGraph(ts) == {ReadBackTriple(t)} + ReadBackGraph(ts[1..]);
    }
  }

  lemma ScanKeepsLines(s: string)
    requires Lacks(s, '\n')
    ensures Lacks(ScanChars(s).1, '\n')
  {
    hide RawChar, UnescapeChar;
  }

  lemma ReadSuffixShape(value: string, rest: string)
    requires Lacks(rest, '\n') && ReadSuffix(value, rest).Ok?
    ensures TermShape(ReadSuffix(value, rest).value.0) && Lacks(ReadSuffix(value, rest).value.1, '\n')
  {
    if |rest| >= 3 && rest[0] == '^' && rest[1] == '^' && rest[2] == '<' {
      var r := rest[3..];
      assert Lacks(r, '\n');
      LacksParts(r, '>');
    }
  }

  lemma LacksParts(s: string, c: char)
    requires Lacks(s, '\n') && SplitOnce(s, c).Some?
    ensures Lacks(SplitOnce(s, c).value.0, '\n') && Lacks(SplitOnce(s, c).value.1, '\n')
  {
  }

  lemma ReadTermShape(text: string)
    requires Lacks(text, '\n') && ReadTerm(text).Ok?
    ensures TermShape(ReadTerm(text).value.0) && Lacks(ReadTerm(text).value.1, '\n')
  {
    hide ReadSuffix, ScanChars, SplitOnce, TrimStart, IsWhitespace;
    var input := TrimStart(text);
    if input != "" {
      if input[0] == '<' {
        if SplitOnce(input[1..], '>').Some? {
          LacksParts(input[1..], '>');
        }
      } else if input[0] == '"' {
        ScanKeepsLines(input[1..]);
        ReadSuffixShape(ScanChars(input[1..]).0, ScanChars(input[1..]).1);
      }
    }
  }

  lemma LacksTrimmed(s: string)
    requires Lacks(s, '\n')
    ensures Lacks(TrimStart(s), '\n') && Lacks(Trim(s), '\n') && Lacks(TrimEndChar(s, '.'), '\n')
  {
  }

  lemma ParseLineShape(text: string)
    requires Lacks(text, '\n') && ParseLine(text).Ok?
    ensures TripleShape(ParseLine(text).value)
  {
    hide ReadTerm, TermShape, Trim, TrimStart, TrimEndChar, Lacks;
    LacksTrimmed(text);
    LacksTrimmed(TrimEndChar(text, '.'));
    var line := Trim(TrimEndChar(text, '.'));
    ReadTermShape(line);
    LacksTrimmed(ReadTerm(line).value.1);
    var rest := TrimStart(ReadTerm(line).value.1);
    ReadTermShape(rest);
    LacksTrimmed(ReadTerm(rest).value.1);
    ReadTermShape(TrimStart(ReadTerm(rest).value.1));
  }

  lemma FirstLineLacks(input: string)
    requires input != ""
    ensures Lacks(FirstLine(input).0, '\n')
  {
  }

  /** The parser only ever yields shaped triples, whatever the input. */
  lemma {:induction false} ParsedIsShaped(input: string, n: nat)
    requires Parse(input, n).Ok?
    ensures forall t | t in Parse(input, n).value :: TripleShape(t)
    decreases |input|
  {
    hide ParseLine, TripleShape, FirstLine;
    if input != "" {
      var (line, rest) := FirstLine(input);
      ParsedIsShaped(rest, n + 1);
      FirstLineLacks(input);
      if !SkipsLine(line) {
        ParseLineShape(line);
      }
    }
  }

  // ----------------------------------------------------------- the theorem

  function TextSize(t: Term): nat {
    if t.Literal? then |t.value| else 0
  }

  function Size(t: Triple): nat {
    TextSize(t.subject) + TextSize(t.predicate_) + TextSize(t.object_)
  }

  lemma ReadBackTermGrows(t: Term)
    requires TermShape(t)
    ensures WellFormedTerm(t) ==> ReadBack(t) == t
    ensures !WellFormedTerm(t) ==> TextSize(ReadBack(t)) > TextSize(t)
  {
    if t.Literal? {
      Latin1Length(t.value);
    }
  }

  lemma ReadBackGrows(t: Triple)
    requires TripleShape(t)
    ensures WellFormed(t) ==> ReadBackTriple(t) == t
    ensures !WellFormed(t) ==> Size(ReadBackTriple(t)) > Size(t)
  {
    ReadBackTermGrows(t.subject);
    ReadBackTermGrows(t.predicate_);
    ReadBackTermGrows(t.object_);
  }

  /** A damaged triple could only come back as itself if a smaller damaged
      triple produced it, and there is no infinite descent. */
  lemma {:induction false} DamageShows(ts: seq<Triple>, t: Triple)
    requires forall u | u in ts :: TripleShape(u)
    requires t in ts && !WellFormed(t)
    ensures ReadBackGraph(ts) != GraphOf(ts)
    decreases Size(t)
  {
    if ReadBackGraph(ts) == GraphOf(ts) {
      assert t in ReadBackGraph(ts);
      var u :| u in ts && ReadBackTriple(u) == t;
      ReadBackGrows(u);
      ReadBackGrows(t);
      DamageShows(ts, u);
    }
  }

  /** Round trip, exactly: printing and parsing gives the graph back if and
      only if each of its triples is well formed. */
  lemma {:induction false} RoundTrip(ts: seq<Triple>)
    ensures Parse(Print(ts)) == Ok(GraphOf(ts)) <==> forall t | t in ts :: WellFormed(t)
  {
    if forall t | t in ts :: WellFormed(t) {
      ParsePrinted(ts, 1);
      forall t | t in ts ensures ReadBackTriple(t) == t {
        ReadBackGrows(t);
      }
      assert ReadBackGraph(ts) == GraphOf(ts);
    } else {
      var t :| t in ts && !WellFormed(t);
      if Parse(Print(ts)) == Ok(GraphOf(ts)) {
        ParsedIsShaped(Print(ts), 1);
        forall u | u in ts ensures TripleShape(u) {
          assert u in GraphOf(ts);
        }
        ParsePrinted(ts, 1);
        DamageShows(ts, t);
      }
    }
  }

  /** The printer is injective on well-formed graphs. */
  lemma PrintInjective(ts: seq<Triple>, us: seq<Triple>)
    requires forall t | t in ts :: WellFormed(t)
    requires forall u | u in us :: WellFormed(u)
    requires Print(ts) == Print(us)
    ensures GraphOf(ts) == GraphOf(us)
  {
    RoundTrip(ts);
    RoundTrip(us);
  }

  lemma EAcuteReadsAsTwo()
    ensures Latin1("\U{E9}") == "\U{C3}\U{A9}"
  {
    var c := '\U{E9}';
    assert Utf8(c) == [0xC3, 0xA9];
    assert [0xC3, 0xA9][1..] == [0xA9];
    assert AsChars([0xA9]) == ['\U{A9}'];
    assert RawChar(c) == "\U{C3}\U{A9}";
  }

  /** A literal value above ASCII is damaged: U+00E9 comes back as two characters. */
  lemma {:induction false} NonAsciiIsDamaged(s: string, p: string)
    requires IriText(s) && IriText(p)
    ensures var t := Triple(Iri(s), Iri(p), Literal("\U{E9}", None, None));
            Parse(Print([t])) == Ok({t.(object_ := Literal("\U{C3}\U{A9}", None, None))})
  {
    hide Parse, Print, Latin1;
    var t := Triple(Iri(s), Iri(p), Literal("\U{E9}", None, None));
    ParsePrinted([t], 1);
    EAcuteReadsAsTwo();
    assert ReadBackGraph([t]) == {ReadBackTriple(t)};
  }
}
