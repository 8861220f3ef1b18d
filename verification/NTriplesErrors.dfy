/** Exactly which texts the N-Triples parser refuses, and where. */
module NTriplesErrors {
  import opened Text
  import opened NTriples
  import opened NTriplesRoundTrip

  // ------------------------------------------------------------------ terms

  predicate StartsTerm(input: string) {
    input != "" && (input[0] == '<' || input[0] == '"' || (input[0] == '_' && |input| >= 2 && input[1] == ':'))
  }

  /** A term is unexpected exactly if it starts as neither an IRI, a literal
      nor a blank node does. */
  lemma UnexpectedExactly(text: string)
    ensures ReadTerm(text) == Err(UnexpectedChar) <==> !StartsTerm(TrimStart(text))
  {
    hide TrimStart, IsWhitespace, ScanChars, LabelEnd;
  }

  // ------------------------------------------------------------------ lines

  /** A line that is read, and whose reading fails. */
  predicate BadLine(text: string) {
    !SkipsLine(Trim(text)) && ParseLine(Trim(text)).Err?
  }

  /** The verdict on the lines of a text: no bad line, or the first one. */
  ghost predicate Verdict(lines: seq<string>, n: nat, r: Parsed) {
    match r
    case Ok(_) => forall k | 0 <= k < |lines| :: !BadLine(lines[k])
    case Err(e) =>
      && n <= e.lineNumber < n + |lines|
      && BadLine(lines[e.lineNumber - n]) && ParseLine(Trim(lines[e.lineNumber - n])) == Err(e.cause)
      && forall k | 0 <= k < e.lineNumber - n :: !BadLine(lines[k])
  }

  lemma EmptyIsNotBad()
    ensures !BadLine("")
  {
  }

  lemma VerdictSteps(line: string, lines: seq<string>, n: nat, r: Parsed)
    requires !BadLine(line) && Verdict(lines, n + 1, r)
    ensures Verdict([line] + lines, n, r)
  {
    hide BadLine, ParseLine, Trim;
    var all := [line] + lines;
    assert forall k | 0 < k < |all| :: all[k] == lines[k - 1];
  }

  lemma VerdictHere(line: string, lines: seq<string>, n: nat, cause: ReadError)
    requires BadLine(line) && ParseLine(Trim(line)) == Err(cause)
    ensures Verdict([line] + lines, n, Err(ParseError(n, cause)))
  {
    hide BadLine, ParseLine, Trim;
  }

  lemma VerdictOnUnion(lines: seq<string>, n: nat, g: set<Triple>, r: Parsed)
    requires Verdict(lines, n, r)
    ensures Verdict(lines, n, Union(g, r))
  {
    hide BadLine, ParseLine, Trim;
  }

  /** A text is refused exactly if one of its lines is bad, and the error
      names the first such line and its cause. */
  lemma {:induction false} ParseExactly(input: string, n: nat)
    ensures Verdict(Split(input, '\n'), n, Parse(input, n))
    decreases |input|
  {
    hide BadLine, Verdict, ParseLine, Trim, SplitOnce, SkipsLine, Union;
    if input == "" {
      EmptyParses(n);
    } else {
      match SplitOnce(input, '\n')
      case None =>
        EmptyParses(n + 1);
        assert Split(input, '\n') == [input] + [];
        LineThen(input, [], n, Parse("", n + 1));
      case Some((line, rest)) =>
        ParseExactly(rest, n + 1);
        LineThen(line, Split(rest, '\n'), n, Parse(rest, n + 1));
    }
  }

  lemma EmptyParses(n: nat)
    ensures Parse("", n) == Ok({}) && Verdict([], n, Parse("", n)) && Verdict(Split("", '\n'), n, Parse("", n))
  {
    assert Split("", '\n') == [""];
    EmptyIsNotBad();
  }

  /** One line, then what the rest of the text comes to. */
  lemma LineThen(line: string, lines: seq<string>, n: nat, rest: Parsed)
    requires Verdict(lines, n + 1, rest)
    ensures Verdict([line] + lines, n,
              if SkipsLine(Trim(line)) then rest
              else match ParseLine(Trim(line))
                   case Err(e) => Err(ParseError(n, e))
                   case Ok(t) => Union({t}, rest))
  {
    hide ParseLine, Trim, SkipsLine, Verdict, Union;
    if SkipsLine(Trim(line)) {
      VerdictSteps(line, lines, n, rest);
    } else {
      match ParseLine(Trim(line))
      case Err(e) => VerdictHere(line, lines, n, e);
      case Ok(t) =>
        VerdictSteps(line, lines, n, rest);
        VerdictOnUnion([line] + lines, n, {t}, rest);
    }
  }

  // ----------------------------------------------------------- foreign text

  /** Text at which no term can start, such as `?name`, and whatever follows. */
  predicate Foreign(v: string) {
    v != "" && !IsWhitespace(v[0]) && v[0] != '.' && v[0] != '<' && v[0] != '"' && v[0] != '_'
  }

  lemma DotsEndAfter(prefix: string, v: string) returns (r: string)
    requires Foreign(v)
    ensures Foreign(r) && TrimEndChar(prefix + v, '.') == prefix + r
  {
    var text := prefix + v;
    assert text[|prefix|] == v[0];
    hide IsWhitespace;
    var a := TrimEndChar(text, '.');
    assert |a| > |prefix|;
    r := v[..|a| - |prefix|];
  }

  lemma SpaceEndsAfter(prefix: string, v: string) returns (r: string)
    requires Foreign(v)
    ensures Foreign(r) && TrimEnd(prefix + v) == prefix + r
  {
    var text := prefix + v;
    assert text[|prefix|] == v[0];
    hide IsWhitespace;
    var a := TrimEnd(text);
    assert |a| > |prefix|;
    r := v[..|a| - |prefix|];
  }

  /** Trimming a line never reaches past such text. */
  lemma MarkSurvives(prefix: string, v: string) returns (r: string)
    requires Foreign(v) && (prefix == "" || !IsWhitespace(prefix[0]))
    ensures Foreign(r) && Trim(TrimEndChar(prefix + v, '.')) == prefix + r
  {
    hide IsWhitespace, TrimEnd, TrimEndChar;
    var a := DotsEndAfter(prefix, v);
    TrimStartSolid(prefix + a);
    r := SpaceEndsAfter(prefix, a);
  }

  lemma ForeignIsNoTerm(v: string)
    requires Foreign(v)
    ensures ReadTerm(v) == ReadTerm(TrimStart(" " + v)) == Err(UnexpectedChar)
  {
    assert IsWhitespace(' ');
    assert (" " + v)[1..] == v;
    UnexpectedExactly(v);
    hide ReadTerm;
    TrimStartSolid(v);
  }

  /** Such text where a term is due makes a line bad, whatever follows it: as
      subject, as predicate and as object. */
  lemma ForeignIsRefused(s: Term, p: Term, v: string)
    requires TermShape(s) && TermShape(p) && Foreign(v)
    ensures ParseLine(v) == Err(UnexpectedChar)
    ensures ParseLine(WriteTerm(s) + " " + v) == Err(UnexpectedChar)
    ensures ParseLine(WriteTerm(s) + " " + WriteTerm(p) + " " + v) == Err(UnexpectedChar)
  {
    hide ParseLine, WriteTerm, TermShape;
    ForeignAsSubject(v);
    ForeignAsPredicate(s, v);
    ForeignAsObject(s, p, v);
  }

  lemma ForeignAsSubject(v: string)
    requires Foreign(v)
    ensures ParseLine(v) == Err(UnexpectedChar)
  {
    hide ReadTerm, Trim, TrimEndChar, TrimStart, IsWhitespace;
    var r := MarkSurvives("", v);
    assert "" + v == v && "" + r == r;
    ForeignIsNoTerm(r);
  }

  lemma SecondTermFails(text: string, line: string, s: Term, rest: string)
    requires Trim(TrimEndChar(text, '.')) == line && ReadTerm(line) == Ok((s, rest))
    requires ReadTerm(TrimStart(rest)) == Err(UnexpectedChar)
    ensures ParseLine(text) == Err(UnexpectedChar)
  {
    hide ReadTerm, Trim, TrimEndChar, TrimStart;
  }

  lemma ThirdTermFails(text: string, line: string, s: Term, rest: string, p: Term, last: string)
    requires Trim(TrimEndChar(text, '.')) == line && ReadTerm(line) == Ok((s, rest))
    requires ReadTerm(TrimStart(rest)) == Ok((p, last)) && ReadTerm(TrimStart(last)) == Err(UnexpectedChar)
    ensures ParseLine(text) == Err(UnexpectedChar)
  {
    hide ReadTerm, Trim, TrimEndChar, TrimStart;
  }

  lemma ForeignAsPredicate(s: Term, v: string)
    requires TermShape(s) && Foreign(v)
    ensures ParseLine(WriteTerm(s) + " " + v) == Err(UnexpectedChar)
  {
    hide *;
    WrittenIsSolid(s);
    var w := WriteTerm(s);
    var r := MarkSurvives(w + " ", v);
    assert w + " " + r == w + (" " + r);
    DelimitedBySpace(r);
    ReadWritten(s, " " + r);
    ForeignIsNoTerm(r);
    SecondTermFails(w + " " + v, w + " " + r, ReadBack(s), " " + r);
  }

  lemma ForeignAsObject(s: Term, p: Term, v: string)
    requires TermShape(s) && TermShape(p) && Foreign(v)
    ensures ParseLine(WriteTerm(s) + " " + WriteTerm(p) + " " + v) == Err(UnexpectedChar)
  {
    hide *;
    WrittenIsSolid(s);
    var w, q := WriteTerm(s), WriteTerm(p);
    var r := MarkSurvives(w + " " + q + " ", v);
    var last := " " + r;
    var rest := " " + (q + last);
    Regrouped(w, q, r);
    DelimitedBySpace(q + last);
    ReadWritten(s, rest);
    DelimitedBySpace(r);
    ReadBlankThen(p, last);
    ForeignIsNoTerm(r);
    ThirdTermFails(w + " " + q + " " + v, w + rest, ReadBack(s), rest, ReadBack(p), last);
  }

  lemma DelimitedBySpace(s: string)
    ensures Delimited(" " + s)
  {
  }

  lemma Regrouped(w: string, q: string, r: string)
    ensures w + " " + q + " " + r == w + (" " + (q + (" " + r)))
  {
  }
}
