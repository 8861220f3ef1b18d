/** Exactly which printed graphs a patch document can carry: the reader finds
    the end of a block by counting braces, and braces in literals and IRIs count. */
module Braces {
  import opened Text
  import opened NTriples
  import opened NTriplesRoundTrip
  import opened NTriplesErrors
  import opened Blocks
  import opened RdfPatch
  import opened N3Layout
  import opened N3Document

  // ---------------------------------------------------- counting the closing

  /** How many closing braces a text holds. */
  function Count(s: string): nat {
    if s == "" then 0 else Count(s[..|s| - 1]) + if s[|s| - 1] == '}' then 1 else 0
  }

  function CountOption(s: Option<string>): nat {
    if s.Some? then Count(s.value) else 0
  }

  function TermCount(t: Term): nat {
    match t
    case Iri(i) => Count(i)
    case BlankNode(b) => Count(b)
    case Literal(v, dt, lang) => Count(v) + CountOption(dt) + CountOption(lang)
  }

  function TripleCount(t: Triple): nat {
    TermCount(t.subject) + TermCount(t.predicate_) + TermCount(t.object_)
  }

  function Total(ts: seq<Triple>): nat {
    if ts == [] then 0 else TripleCount(ts[0]) + Total(ts[1..])
  }

  lemma {:induction false} CountConcat(a: string, b: string)
    ensures Count(a + b) == Count(a) + Count(b)
    decreases |b|
  {
    if b == "" {
      assert a + b == a;
    } else {
      assert (a + b)[..|a + b| - 1] == a + b[..|b| - 1];
      CountConcat(a, b[..|b| - 1]);
    }
  }

  lemma CountParts(s: string, n: nat)
    requires n <= |s|
    ensures Count(s) == Count(s[..n]) + Count(s[n..])
  {
    assert s == s[..n] + s[n..];
    CountConcat(s[..n], s[n..]);
  }

  lemma CountChar(c: char)
    ensures Count([c]) == if c == '}' then 1 else 0
  {
    assert [c][..0] == "";
  }

  lemma {:induction false} CountNone(s: string)
    requires Lacks(s, '}')
    ensures Count(s) == 0
  {
    if s != "" {
      CountNone(s[..|s| - 1]);
    }
  }

  // ------------------------------------------------ the parser adds no brace

  lemma {:induction false} HighHasNone(bs: seq<Byte>)
    requires High(bs)
    ensures Lacks(AsChars(bs), '}')
  {
    if bs != [] {
      HighHasNone(bs[1..]);
    }
  }

  lemma RawCounts(c: char)
    ensures Count(RawChar(c)) <= Count([c]) && Count(UnescapeChar(c)) <= Count([c])
  {
    CountChar(c);
    if IsAscii(c) {
      CountChar(Unescape(c as int));
    } else {
      HighHasNone(Utf8(c));
      CountNone(RawChar(c));
    }
  }

  lemma FirstChars(s: string)
    requires s != ""
    ensures Count(s) == Count([s[0]]) + Count(s[1..])
    ensures |s| > 1 ==> Count(s) == Count([s[0]]) + Count([s[1]]) + Count(s[2..])
  {
    CountParts(s, 1);
    assert s[..1] == [s[0]];
    if |s| > 1 {
      CountParts(s[1..], 1);
      assert s[1..][..1] == [s[1]] && s[1..][1..] == s[2..];
    }
  }

  lemma {:induction false} ScanCounts(s: string)
    ensures Count(ScanChars(s).0) + Count(ScanChars(s).1) <= Count(s)
    decreases |s|
  {
    hide RawChar, UnescapeChar, Count;
    EmptyCount();
    if s != "" {
      FirstChars(s);
      RawCounts(s[0]);
      if s[0] == '\\' && |s| > 1 {
        RawCounts(s[1]);
        ScanCounts(s[2..]);
        CountConcat(UnescapeChar(s[1]), ScanChars(s[2..]).0);
      } else if s[0] != '"' {
        ScanCounts(s[1..]);
        CountConcat(RawChar(s[0]), ScanChars(s[1..]).0);
      }
    }
  }

  lemma EmptyCount()
    ensures Count("") == 0
  {
  }

  lemma SplitCounts(s: string, c: char)
    requires SplitOnce(s, c).Some?
    ensures Count(SplitOnce(s, c).value.0) + Count(SplitOnce(s, c).value.1) <= Count(s)
  {
    hide Count, SplitOnce;
    var (a, b) := SplitOnce(s, c).value;
    CountConcat(a + [c], b);
    CountConcat(a, [c]);
  }

  lemma SuffixCounts(value: string, rest: string)
    requires ReadSuffix(value, rest).Ok?
    ensures TermCount(ReadSuffix(value, rest).value.0) + Count(ReadSuffix(value, rest).value.1) <= Count(value) + Count(rest)
  {
    hide Count, SplitOnce, LabelEnd;
    if |rest| >= 3 && rest[0] == '^' && rest[1] == '^' && rest[2] == '<' {
      CountParts(rest, 3);
      SplitCounts(rest[3..], '>');
    } else if |rest| >= 1 && rest[0] == '@' {
      CountParts(rest, 1);
      CountParts(rest[1..], LabelEnd(rest[1..]));
    }
  }

  lemma PrefixCounts(a: string, b: string)
    requires a <= b
    ensures Count(a) <= Count(b)
  {
    CountParts(b, |a|);
  }

  lemma TrimCounts(s: string)
    ensures Count(TrimStart(s)) <= Count(s) && Count(Trim(s)) <= Count(s) && Count(TrimEndChar(s, '.')) <= Count(s)
  {
    hide Count, TrimStart, TrimEnd, TrimEndChar, IsWhitespace;
    var t := TrimStart(s);
    CountParts(s, |s| - |t|);
    PrefixCounts(TrimEnd(t), t);
    PrefixCounts(TrimEndChar(s, '.'), s);
  }

  lemma TermCounts(text: string)
    requires ReadTerm(text).Ok?
    ensures TermCount(ReadTerm(text).value.0) + Count(ReadTerm(text).value.1) <= Count(text)
  {
    hide Count, TrimStart, SplitOnce, LabelEnd, ScanChars, ReadSuffix;
    var input := TrimStart(text);
    TrimCounts(text);
    if |input| >= 1 && input[0] == '<' {
      CountParts(input, 1);
      SplitCounts(input[1..], '>');
    } else if |input| >= 2 && input[0] == '_' && input[1] == ':' {
      CountParts(input, 2);
      CountParts(input[2..], LabelEnd(input[2..]));
    } else {
      CountParts(input, 1);
      ScanCounts(input[1..]);
      SuffixCounts(ScanChars(input[1..]).0, ScanChars(input[1..]).1);
    }
  }

  lemma LineCounts(text: string)
    requires ParseLine(text).Ok?
    ensures TripleCount(ParseLine(text).value) <= Count(text)
  {
    hide Count, ReadTerm, Trim, TrimStart, TrimEndChar, TermCount;
    TrimCounts(text);
    TrimCounts(TrimEndChar(text, '.'));
    var line := Trim(TrimEndChar(text, '.'));
    TermCounts(line);
    TrimCounts(ReadTerm(line).value.1);
    var rest := TrimStart(ReadTerm(line).value.1);
    TermCounts(rest);
    TrimCounts(ReadTerm(rest).value.1);
    TermCounts(TrimStart(ReadTerm(rest).value.1));
  }

  lemma FirstLineCounts(input: string)
    requires input != ""
    ensures Count(FirstLine(input).0) + Count(FirstLine(input).1) <= Count(input)
  {
    hide Count, Trim, SplitOnce;
    match SplitOnce(input, '\n')
    case None =>
      TrimCounts(input);
      EmptyCount();
    case Some((line, _)) =>
      SplitCounts(input, '\n');
      TrimCounts(line);
  }

  /** The triples that were parsed, line by line, hold no more closing braces
      than the text. */
  lemma {:induction false} ParseCounts(input: string, n: nat) returns (us: seq<Triple>)
    requires Parse(input, n).Ok?
    ensures GraphOf(us) == Parse(input, n).value && Total(us) <= Count(input)
    decreases |input|
  {
    hide ParseLine, TripleCount, FirstLine, Count, GraphOf;
    if input == "" {
      us := [];
      EmptyGraph();
    } else {
      var (line, rest) := FirstLine(input);
      FirstLineCounts(input);
      us := ParseCounts(rest, n + 1);
      if !SkipsLine(line) {
        LineCounts(line);
        GraphCons(ParseLine(line).value, us);
        us := [ParseLine(line).value] + us;
      }
    }
  }

  lemma EmptyGraph()
    ensures GraphOf([]) == {}
  {
  }

  lemma GraphCons(t: Triple, us: seq<Triple>)
    ensures GraphOf([t] + us) == {t} + GraphOf(us) && Total([t] + us) == TripleCount(t) + Total(us)
  {
    hide TripleCount;
    assert ([t] + us)[1..] == us;
    forall u ensures u in GraphOf([t] + us) <==> u in {t} + GraphOf(us) {
      assert u in [t] + us <==> u == t || u in us;
    }
  }

  // ------------------------------------------------ nor does the printer

  lemma {:induction false} EscapeCounts(v: string)
    ensures Count(Escape(v)) <= Count(v)
  {
    hide Count;
    if v != "" {
      EscapeCounts(v[1..]);
      FirstChars(v);
      EscapeCharCounts(v[0]);
      CountConcat(EscapeChar(v[0]), Escape(v[1..]));
    }
  }

  lemma EscapeCharCounts(c: char)
    ensures Count(EscapeChar(c)) <= Count([c])
  {
    if EscapeChar(c) != [c] {
      CountNone(EscapeChar(c));
    }
  }

  /** Text around a value, without closing braces of its own. */
  lemma Wrapped(a: string, v: string, b: string)
    requires Lacks(a, '}') && Lacks(b, '}')
    ensures Count(a + v + b) == Count(v)
  {
    hide Count;
    CountConcat(a + v, b);
    CountConcat(a, v);
    CountNone(a);
    CountNone(b);
  }

  lemma SuffixTextCounts(dt: Option<string>, lang: Option<string>)
    ensures Count(Suffix(dt, lang)) <= CountOption(dt) + CountOption(lang)
  {
    hide Count;
    EmptyCount();
    if lang.Some? {
      Wrapped("@", lang.value, "");
      assert "@" + lang.value + "" == "@" + lang.value;
    } else if dt.Some? {
      Wrapped("^^<", dt.value, ">");
    }
  }

  lemma WrittenCounts(t: Term)
    ensures Count(WriteTerm(t)) <= TermCount(t)
  {
    hide Count, Escape, Suffix, CountOption;
    match t
    case Iri(i) => Wrapped("<", i, ">");
    case BlankNode(b) =>
      Wrapped("_:", b, "");
      assert "_:" + b + "" == "_:" + b;
    case Literal(v, dt, lang) =>
      EscapeCounts(v);
      SuffixTextCounts(dt, lang);
      Wrapped("\"", Escape(v), "\"");
      CountConcat("\"" + Escape(v) + "\"", Suffix(dt, lang));
  }

  lemma LineTextCounts(t: Triple)
    ensures Count(WriteLine(t) + "\n") <= TripleCount(t)
  {
    hide *;
    var s, p, o := WriteTerm(t.subject), WriteTerm(t.predicate_), WriteTerm(t.object_);
    WrittenCounts(t.subject);
    WrittenCounts(t.predicate_);
    WrittenCounts(t.object_);
    LineIs(t);
    SumOfTerms(t);
    PlainBits();
    CountConcat(s + " " + p + " " + o, " .\n");
    CountConcat(s + " " + p + " ", o);
    CountConcat(s + " " + p, " ");
    CountConcat(s + " ", p);
    CountConcat(s, " ");
  }

  lemma LineIs(t: Triple)
    ensures WriteLine(t) + "\n"
         == WriteTerm(t.subject) + " " + WriteTerm(t.predicate_) + " " + WriteTerm(t.object_) + " .\n"
  {
    hide WriteTerm;
    assert " .\n" == " ." + "\n";
  }

  lemma SumOfTerms(t: Triple)
    ensures TripleCount(t) == TermCount(t.subject) + TermCount(t.predicate_) + TermCount(t.object_)
  {
    hide TermCount;
  }

  lemma PlainBits()
    ensures Count(" ") == 0 && Count(" .\n") == 0
  {
    CountNone(" ");
    CountNone(" .\n");
  }

  lemma {:induction false} PrintCounts(ts: seq<Triple>)
    ensures Count(Print(ts)) <= Total(ts)
  {
    hide Count, WriteLine, TripleCount;
    if ts == [] {
      assert Lines(ts) == [];
      EmptyCount();
    } else {
      PrintCounts(ts[1..]);
      LineTextCounts(ts[0]);
      PrintCons(ts);
      CountConcat(WriteLine(ts[0]) + "\n", Print(ts[1..]));
    }
  }

  lemma PrintCons(ts: seq<Triple>)
    requires ts != []
    ensures Print(ts) == WriteLine(ts[0]) + "\n" + Print(ts[1..])
  {
    hide WriteLine;
    assert Lines(ts)[1..] == Lines(ts[1..]);
  }

  // ------------------------------------------------------- closing too early

  /** A listing of a graph names each triple once. */
  ghost predicate NoRepeats(ts: seq<Triple>) {
    forall i, j | 0 <= i < j < |ts| :: ts[i] != ts[j]
  }

  lemma {:induction false} TotalWithout(us: seq<Triple>, i: nat)
    requires i < |us|
    ensures Total(us) == TripleCount(us[i]) + Total(us[..i] + us[i + 1..])
  {
    hide TripleCount;
    if i == 0 {
      assert us[..0] + us[1..] == us[1..];
    } else {
      TotalWithout(us[1..], i - 1);
      var rest := us[..i] + us[i + 1..];
      assert rest[0] == us[0] && rest[1..] == us[1..][..i - 1] + us[1..][i..];
    }
  }

  lemma {:induction false} SubTotal(ts: seq<Triple>, us: seq<Triple>)
    requires NoRepeats(ts) && forall t | t in ts :: t in us
    ensures Total(ts) <= Total(us)
    decreases |ts|
  {
    hide TripleCount;
    if ts != [] {
      assert ts[0] in us;
      var i :| 0 <= i < |us| && us[i] == ts[0];
      var rest := us[..i] + us[i + 1..];
      TotalWithout(us, i);
      forall t | t in ts[1..] ensures t in rest {
        var k :| 0 <= k < |ts[1..]| && ts[1..][k] == t;
        assert ts[k + 1] == t && t in ts;
        var j :| 0 <= j < |us| && us[j] == t;
        assert j != i;
        assert rest[if j < i then j else j - 1] == t;
      }
      SubTotal(ts[1..], rest);
    }
  }

  /** Text with fewer closing braces than the printed graph is never read back
      as the graph. */
  lemma FewerIsNotTheGraph(ts: seq<Triple>, text: string)
    requires NoRepeats(ts) && Count(text) < Count(Print(ts))
    ensures Parse(text) != Ok(GraphOf(ts))
  {
    hide Parse, Print, Count, Total, NoRepeats;
    if Parse(text) == Ok(GraphOf(ts)) {
      var us := ParseCounts(text, 1);
      forall t | t in ts ensures t in us {
        assert t in GraphOf(ts);
        assert t in GraphOf(us);
      }
      SubTotal(ts, us);
      PrintCounts(ts);
    }
  }

  lemma EarlyIsNotTheGraph(ts: seq<Triple>, rest: string, end: nat)
    requires NoRepeats(ts) && 2 <= end < |Print(ts)| + 2
    requires var src := Braced(Print(ts)) + rest; src[end - 1] == '}'
    ensures Parse(StripBraces((Braced(Print(ts)) + rest)[..end])) != Ok(GraphOf(ts))
  {
    hide Parse, Print, StripBraces, Trim, Count, NoRepeats, GraphOf;
    var body := Print(ts);
    var cut := body[..end - 2];
    assert (Braced(body) + rest)[..end] == "{" + cut + "}";
    assert body[end - 2] == '}';
    StripFlat(cut);
    TrimCounts(cut);
    CountParts(body, end - 2);
    FirstChars(body[end - 2..]);
    CountChar('}');
    FewerIsNotTheGraph(ts, Trim(cut));
  }

  // -------------------------------------------------------- closing too late

  /** After the lines of a graph, text that starts no term is an error. */
  lemma {:induction false} ForeignAfterGraph(ts: seq<Triple>, v: string, n: nat)
    requires (forall t | t in ts :: WellFormed(t)) && Foreign(v) && v[0] != '#'
    ensures Parse(Print(ts) + v, n).Err?
    decreases |ts|
  {
    hide Parse, Print, WellFormed, Foreign, WriteLine;
    if ts == [] {
      EmptyPrint(v);
      ForeignIsRefusedFirst(v, n);
    } else {
      var rest := Print(ts[1..]) + v;
      PrintCons(ts);
      assert Print(ts) + v == WriteLine(ts[0]) + "\n" + rest;
      ForeignAfterGraph(ts[1..], v, n + 1);
      LineThenRest(ts[0], rest, n);
    }
  }

  lemma EmptyPrint(v: string)
    ensures Print([]) == "" && Print([]) + v == v
  {
    assert Lines([]) == [];
  }

  lemma LineThenRest(t: Triple, rest: string, n: nat)
    requires WellFormed(t) && Parse(rest, n + 1).Err?
    ensures Parse(WriteLine(t) + "\n" + rest, n).Err?
  {
    hide *;
    WellFormedIsShaped(t);
    WrittenLineIsSolid(t);
    FirstWrittenLine(WriteLine(t), rest);
    RestDecides(WriteLine(t) + "\n" + rest, n);
  }

  lemma WellFormedIsShaped(t: Triple)
    requires WellFormed(t)
    ensures TripleShape(t)
  {
    hide TermShape;
  }

  lemma RestDecides(text: string, n: nat)
    requires text != "" && Parse(FirstLine(text).1, n + 1).Err?
    ensures Parse(text, n).Err?
  {
    hide ParseLine, FirstLine, SkipsLine;
  }

  lemma ForeignIsRefusedFirst(v: string, n: nat)
    requires Foreign(v) && v[0] != '#'
    ensures Parse(v, n).Err?
  {
    hide ParseLine, TrimStart, TrimEnd, SplitOnce, IsWhitespace;
    var line := match SplitOnce(v, '\n') case None => v case Some((a, _)) => a;
    assert IsWhitespace('\n') by { NewlineIsWhite(); }
    assert line != "" && line[0] == v[0];
    TrimStartSolid(line);
    var r := SpaceEndsAfter("", line);
    assert "" + line == line && "" + r == r;
    assert r[0] == line[0] by { PrefixFirst(r, line); }
    ForeignAsSubject(r);
  }

  lemma NewlineIsWhite()
    ensures IsWhitespace('\n')
  {
  }

  lemma PrefixFirst(r: string, line: string)
    requires r != "" && r == TrimEnd(line)
    ensures line != "" && r[0] == line[0]
  {
    hide IsWhitespace;
    assert line[..|r|] == r;
  }

  lemma LateIsNotTheGraph(ts: seq<Triple>, rest: string, end: nat)
    requires forall t | t in ts :: WellFormed(t)
    requires var src := Braced(Print(ts)) + rest; |Print(ts)| + 2 < end <= |src| && src[end - 1] == '}'
    ensures Parse(StripBraces((Braced(Print(ts)) + rest)[..end])).Err?
  {
    hide Parse, Print, StripBraces, Trim, WellFormed;
    var body := Print(ts);
    var more := "}" + rest[..end - |body| - 3];
    assert (Braced(body) + rest)[..end] == "{" + (body + more) + "}";
    StripFlat(body + more);
    BraceIsForeign(more);
    var r := TrimGraphAnd(ts, more);
    ForeignAfterGraph(ts, r, 1);
  }

  lemma BraceIsForeign(more: string)
    requires more != "" && more[0] == '}'
    ensures Foreign(more)
  {
  }

  lemma TrimGraphAnd(ts: seq<Triple>, more: string) returns (r: string)
    requires (forall t | t in ts :: WellFormed(t)) && Foreign(more) && more[0] != '#'
    ensures Foreign(r) && r[0] != '#' && Trim(Print(ts) + more) == Print(ts) + r
  {
    var body := Print(ts);
    var all := body + more;
    assert !IsWhitespace(all[0]) by {
      if ts == [] {
        EmptyPrint(more);
      } else {
        PrintStarts(ts);
        FirstCharIsSolid(ts[0]);
      }
    }
    hide Print, IsWhitespace, TrimEnd, WellFormed;
    TrimStartSolid(all);
    r := SpaceEndsAfter(body, more);
    assert r[0] == (body + r)[|body|] == all[|body|];
  }

  // ---------------------------------------------------------------- theorem

  lemma CloseIsBrace(src: string, end: nat)
    requires src != "" && src[0] == '{' && CloseFrom(src, 0, 0) == Some(end)
    ensures 2 <= end <= |src| && src[end - 1] == '}'
  {
    hide CloseFrom;
    CloseFromExact(src, 0, 0);
    assert Depth(src, 0, end) == Depth(src, 0, end - 1) + Delta(src[end - 1]);
  }

  lemma OnlyEmptyPrintsEmpty(ts: seq<Triple>)
    ensures GraphOf(ts) == {} ==> ts == [] && ClosesLast(Print(ts))
  {
    if ts == [] {
      EmptyPrint("");
      BraceFreeClosesLast("");
    } else {
      assert ts[0] in GraphOf(ts);
    }
  }

  /** The block of a printed graph is read back as the graph, whatever follows
      it, exactly if its braces balance: if it closes with its own last brace
      and not before. */
  lemma BlockReadsExactly(ts: seq<Triple>, rest: string)
    requires NoRepeats(ts) && forall t | t in ts :: WellFormed(t)
    ensures ReadBlock(Braced(Print(ts)) + rest) == Ok(GraphOf(ts)) <==> ClosesLast(Print(ts))
  {
    hide Parse, Print, StripBraces, WellFormed, ClosesLast, CloseFrom, NoRepeats, Trim, GraphOf;
    var body := Print(ts);
    var src := Braced(body) + rest;
    WholeBlock(body, rest);
    if ClosesLast(body) {
      WholeBodyIsRead(body, rest);
      BodyParses(ts);
    } else {
      match CloseFrom(src, 0, 0)
      case None => OnlyEmptyPrintsEmpty(ts);
      case Some(end) =>
        CloseIsBrace(src, end);
        if end < |body| + 2 {
          EarlyIsNotTheGraph(ts, rest, end);
        } else {
          LateIsNotTheGraph(ts, rest, end);
        }
    }
  }

  /** A document printed from graphs says what they say exactly if every one of
      its blocks closes with its own last brace. */
  lemma DocumentReadsExactly(parts: seq<Part>, tail: string, graphs: seq<seq<Triple>>)
    requires DocumentOk(parts, tail) && PrintedFrom(parts, graphs) && forall k | 0 <= k < |graphs| :: NoRepeats(graphs[k])
    ensures (forall k | 0 <= k < |parts| ::
               Clause(Render(parts, tail), Keywords(parts[k].kind)) == Ok(GraphOf(graphs[k])))
            <==> AllCloseLast(parts)
  {
    hide Print, Clause, WellFormed, ClosesLast, PartOk, ClauseOf, GraphOf, NoRepeats, Render, ReadBlock, Quiet, Keywords;
    forall k | 0 <= k < |parts|
      ensures Clause(Render(parts, tail), Keywords(parts[k].kind)) == Ok(GraphOf(graphs[k])) <==> ClosesLast(parts[k].body)
    {
      ReadsClause(parts, tail, parts[k].kind);
      ClauseOfPart(parts, tail, k);
      BlockReadsExactly(graphs[k], Render(parts[k + 1..], tail));
    }
  }

  // --------------------------------------------------------------- instances

  /** A triple whose object is a literal of braces, under plain IRIs. */
  function Braceful(s: string, p: string, value: string): Triple {
    Triple(Iri(s), Iri(p), Literal(value, None, None))
  }

  /** Three literals under IRIs without braces: `{}` comes back, `{` and `}` do not. */
  lemma BraceLiterals(s: string, p: string, rest: string)
    requires IriText(s) && IriText(p) && BraceFree(s) && BraceFree(p)
    ensures ReadBlock(Braced(Print([Braceful(s, p, "{}")])) + rest) == Ok({Braceful(s, p, "{}")})
    ensures ReadBlock(Braced(Print([Braceful(s, p, "{")])) + rest) != Ok({Braceful(s, p, "{")})
    ensures ReadBlock(Braced(Print([Braceful(s, p, "}")])) + rest) != Ok({Braceful(s, p, "}")})
  {
    hide ReadBlock, Print, ClosesLast, IriText, BraceFree;
    var before := "<" + s + "> <" + p + "> \"";
    BracefulPrints(s, p, "{}");
    BracefulPrints(s, p, "{");
    BracefulPrints(s, p, "}");
    ThreeDepths(before, "\" .\n");
    BracefulReads(s, p, "{}", rest);
    BracefulReads(s, p, "{", rest);
    BracefulReads(s, p, "}", rest);
  }

  lemma BracefulReads(s: string, p: string, value: string, rest: string)
    requires IriText(s) && IriText(p) && (value == "{}" || value == "{" || value == "}")
    ensures var t := Braceful(s, p, value);
            ReadBlock(Braced(Print([t])) + rest) == Ok({t}) <==> ClosesLast(Print([t]))
  {
    var t := Braceful(s, p, value);
    assert WellFormed(t);
    hide ReadBlock, Print, ClosesLast, WellFormed;
    OneLine(t);
    BlockReadsExactly([t], rest);
  }

  lemma BracefulPrints(s: string, p: string, value: string)
    requires BraceFree(s) && BraceFree(p) && (value == "{}" || value == "{" || value == "}")
    ensures var before := "<" + s + "> <" + p + "> \"";
            BraceFree(before) && Print([Braceful(s, p, value)]) == before + value + "\" .\n"
  {
    var t := Braceful(s, p, value);
    assert Escape(value) == value by { BracesAreNotEscaped(value); }
    OneLine(t);
    hide Print, Escape;
    assert WriteTerm(t.object_) == "\"" + value + "\"" + "";
  }

  lemma {:induction false} BracesAreNotEscaped(v: string)
    requires forall i | 0 <= i < |v| :: v[i] == '{' || v[i] == '}'
    ensures Escape(v) == v
  {
    if v != "" {
      BracesAreNotEscaped(v[1..]);
    }
  }

  /** Depth after the part of a block before its inner braces. */
  lemma DepthAfter(before: string, more: string)
    requires BraceFree(before)
    ensures var text := "{" + before + more;
            forall k | 1 <= k <= |before| + 1 :: Depth(text, 0, k) == 1
  {
    var text := "{" + before + more;
    assert forall i | 0 < i <= |before| :: text[i] == before[i - 1];
    forall k | 1 <= k <= |before| + 1 ensures Depth(text, 0, k) == 1 {
      FlatDepth(text, 0, k);
    }
  }

  lemma {:induction false} FlatRun(text: string, from: nat, k: nat)
    requires from <= k <= |text| && forall i | from <= i < k :: Delta(text[i]) == 0
    ensures Depth(text, 0, k) == Depth(text, 0, from)
    decreases k
  {
    if from < k {
      FlatRun(text, from, k - 1);
    }
  }

  lemma ThreeDepths(before: string, after: string)
    requires BraceFree(before) && after == "\" .\n"
    ensures ClosesLast(before + "{}" + after) && !ClosesLast(before + "{" + after) && !ClosesLast(before + "}" + after)
  {
    hide BraceFree;
    BothClose(before, after);
    OpenStays(before, after);
    CloseIsEarly(before, after);
  }

  lemma BothClose(before: string, after: string)
    requires BraceFree(before) && after == "\" .\n"
    ensures ClosesLast(before + "{}" + after)
  {
    var text := Braced(before + "{}" + after);
    var m := |before| + 1;
    assert text == "{" + before + ("{}" + after + "}");
    DepthAfter(before, "{}" + after + "}");
    assert text[m] == '{' && text[m + 1] == '}' && |text| == m + 2 + |after| + 1;
    assert forall i | m + 2 <= i < |text| - 1 :: text[i] == after[i - m - 2];
    assert Depth(text, 0, m + 1) == Depth(text, 0, m) + Delta(text[m]) == 2;
    assert Depth(text, 0, m + 2) == Depth(text, 0, m + 1) + Delta(text[m + 1]) == 1;
    forall k | m + 2 <= k < |text| ensures Depth(text, 0, k) == 1 {
      FlatRun(text, m + 2, k);
    }
    assert text[|text| - 1] == '}';
    assert Depth(text, 0, |text|) == Depth(text, 0, |text| - 1) + Delta(text[|text| - 1]) == 0;
    forall k | 0 < k < |text| ensures Depth(text, 0, k) > 0 {
      assert k <= m || k == m + 1 || m + 2 <= k;
    }
  }

  lemma OpenStays(before: string, after: string)
    requires BraceFree(before) && after == "\" .\n"
    ensures !ClosesLast(before + "{" + after)
  {
    var text := Braced(before + "{" + after);
    var m := |before| + 1;
    assert text == "{" + before + ("{" + after + "}");
    DepthAfter(before, "{" + after + "}");
    assert text[m] == '{' && |text| == m + 1 + |after| + 1;
    assert forall i | m + 1 <= i < |text| - 1 :: text[i] == after[i - m - 1];
    FlatRun(text, m + 1, |text| - 1);
    assert Depth(text, 0, |text|) == 1;
  }

  lemma CloseIsEarly(before: string, after: string)
    requires BraceFree(before) && after == "\" .\n"
    ensures !ClosesLast(before + "}" + after)
  {
    var text := Braced(before + "}" + after);
    var m := |before| + 1;
    assert text == "{" + before + ("}" + after + "}");
    DepthAfter(before, "}" + after + "}");
    assert text[m] == '}' && Depth(text, 0, m + 1) == 0;
    assert 0 < m + 1 < |before + "}" + after| + 2;
  }
}
