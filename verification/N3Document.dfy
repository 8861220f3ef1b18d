/** What a patch document written for graphs does, and which documents are refused. */
module N3Document {
  import opened Text
  import opened NTriples
  import opened NTriplesRoundTrip
  import opened NTriplesErrors
  import opened Blocks
  import opened RdfPatch
  import opened N3Layout

  // ------------------------------------------------------------ block text

  lemma EmptyLineIsSkipped()
    ensures SkipsLine(Trim(""))
  {
  }

  lemma {:induction false} FinalNewline(s: string, n: nat)
    ensures Parse(s + "\n", n) == Parse(s, n)
    decreases |s|
  {
    hide ParseLine, SkipsLine, Trim;
    var t := s + "\n";
    match SplitOnce(s, '\n')
    case None =>
      EmptyLineIsSkipped();
      assert t == s + ['\n'] + "";
      SplitOnceAfter(s, '\n', "");
    case Some((a, b)) =>
      assert t == a + ['\n'] + (b + "\n");
      SplitOnceAfter(a, '\n', b + "\n");
      FinalNewline(b, n + 1);
  }

  lemma TrimNewline(text: string)
    requires text != "" && !IsWhitespace(text[0]) && !IsWhitespace(text[|text| - 1])
    ensures Trim(text + "\n") == text
  {
    var s := text + "\n";
    assert TrimStart(s) == s;
    assert s[..|s| - 1] == text;
    assert TrimEnd(s) == TrimEnd(text);
  }

  lemma PrintStarts(ts: seq<Triple>)
    requires ts != []
    ensures WriteLine(ts[0]) != "" && Print(ts) != "" && Print(ts)[0] == WriteLine(ts[0])[0]
  {
    hide WriteTerm;
    assert Lines(ts)[0] == WriteLine(ts[0]);
  }

  lemma LineEndsInDot(t: Triple)
    ensures var w := WriteLine(t); w != "" && w[|w| - 1] == '.'
  {
  }

  /** The text of a block parses to the graph it was printed from. */
  lemma BlockParses(ts: seq<Triple>)
    requires forall t | t in ts :: WellFormed(t)
    ensures Parse(StripBraces("{" + Print(ts) + "}")) == Ok(GraphOf(ts))
  {
    hide *;
    StripFlat(Print(ts));
    BodyParses(ts);
  }

  lemma BodyParses(ts: seq<Triple>)
    requires forall t | t in ts :: WellFormed(t)
    ensures Parse(Trim(Print(ts))) == Ok(GraphOf(ts))
  {
    hide Parse, WriteLine, Trim, WellFormed, IsWhitespace;
    RoundTrip(ts);
    if ts == [] {
      assert Lines(ts) == [];
      assert Trim("") == "" by { TrimKeepsSolid(""); }
    } else {
      var last := |ts| - 1;
      var line := WriteLine(ts[last]);
      var text := Print(ts[..last]) + line;
      assert Lines(ts) == Lines(ts[..last]) + [line];
      UnlinesAppend(Lines(ts[..last]), line);
      PrintStarts(ts);
      LineEndsInDot(ts[last]);
      FirstCharIsSolid(ts[0]);
      TrimNewline(text);
      FinalNewline(text, 1);
    }
  }

  lemma FirstCharIsSolid(t: Triple)
    requires WellFormed(t)
    ensures var w := WriteLine(t); w != "" && !IsWhitespace(w[0]) && !IsWhitespace('.')
  {
    QuoteIsSolid();
    WrittenIsSolid(t.subject);
    hide WriteTerm, WellFormed, IsWhitespace, Lacks;
    assert WriteLine(t)[0] == WriteTerm(t.subject)[0];
  }

  // -------------------------------------------------- documents from graphs

  /** The graph printed into the part of a kind. */
  function GraphFor(parts: seq<Part>, graphs: seq<seq<Triple>>, kind: Kind): set<Triple>
    requires |graphs| == |parts|
  {
    if parts == [] then {}
    else if parts[0].kind == kind then GraphOf(graphs[0])
    else GraphFor(parts[1..], graphs[1..], kind)
  }

  ghost predicate PrintedFrom(parts: seq<Part>, graphs: seq<seq<Triple>>) {
    && |graphs| == |parts|
    && forall k | 0 <= k < |parts| ::
         parts[k].body == Print(graphs[k]) && forall t | t in graphs[k] :: WellFormed(t)
  }

  ghost predicate AllCloseLast(parts: seq<Part>) {
    forall k | 0 <= k < |parts| :: ClosesLast(parts[k].body)
  }

  lemma {:induction false} PrintedClause(parts: seq<Part>, tail: string, graphs: seq<seq<Triple>>, kind: Kind)
    requires PrintedFrom(parts, graphs) && AllCloseLast(parts)
    ensures ClauseOf(parts, tail, kind) == Ok(GraphFor(parts, graphs, kind))
    decreases |parts|
  {
    hide Print, Parse, Trim, WellFormed, GraphOf, ClosesLast, ReadBlock, Render;
    if parts != [] {
      if parts[0].kind == kind {
        WholeBodyIsRead(parts[0].body, Render(parts[1..], tail));
        BodyParses(graphs[0]);
      } else {
        PrintedClause(parts[1..], tail, graphs[1..], kind);
      }
    }
  }

  /** End to end: a document whose clauses are printed from graphs, each block
      closing with its own last brace, applies exactly if the WHERE graph is
      contained in the target, and then removes exactly the one graph and adds
      exactly the other. */
  lemma DocumentApplies(target: set<Triple>, parts: seq<Part>, tail: string, graphs: seq<seq<Triple>>)
    requires DocumentOk(parts, tail) && PrintedFrom(parts, graphs) && AllCloseLast(parts)
    ensures var i, d, w := GraphFor(parts, graphs, Inserts), GraphFor(parts, graphs, Deletes), GraphFor(parts, graphs, Wheres);
            N3(target, Render(parts, tail)) ==
            if w <= target then Ok(Outcome(target - d + i, |i|, |target * d|)) else Err(WhereUnmet)
  {
    assert |graphs| == |parts|;
    hide Render, DocumentOk, PrintedFrom, ClauseOf, GraphFor, N3, AllCloseLast;
    PrintedClause(parts, tail, graphs, Inserts);
    PrintedClause(parts, tail, graphs, Deletes);
    PrintedClause(parts, tail, graphs, Wheres);
    DocumentMeaning(target, parts, tail);
  }

  // ------------------------------------------------------ refused documents

  /** The block of a clause has a line that cannot be read. */
  ghost predicate BadClause(patch: string, kind: Kind) {
    var b := FindBlock(patch, Keywords(kind));
    b.Some? && exists line | line in Split(StripBraces(patch[b.value.0..b.value.1]), '\n') :: BadLine(line)
  }

  lemma ClauseFails(patch: string, kind: Kind)
    ensures Clause(patch, Keywords(kind)).Err? <==> BadClause(patch, kind)
  {
    hide Keywords, FindBlock, Parse, StripBraces, Split, BadLine;
    var b := FindBlock(patch, Keywords(kind));
    if b.Some? {
      ParseExactly(StripBraces(patch[b.value.0..b.value.1]), 1);
    }
  }

  /** Any patch, any target: malformed exactly if some clause has a bad line. */
  lemma MalformedExactly(target: set<Triple>, patch: string)
    ensures N3(target, patch).Err? && N3(target, patch).error.Malformed? <==> exists kind :: BadClause(patch, kind)
  {
    hide Clause, BadClause;
    ClauseFails(patch, Inserts);
    ClauseFails(patch, Deletes);
    ClauseFails(patch, Wheres);
    if kind :| BadClause(patch, kind) {
      ClauseFails(patch, kind);
    }
  }

  lemma ForeignBody(s: Term, p: Term, v: string)
    requires TermShape(s) && TermShape(p) && Foreign(v) && Lacks(v, '\n')
    ensures Parse(Trim(" " + (WriteTerm(s) + " " + WriteTerm(p) + " " + v))) == Err(ParseError(1, UnexpectedChar))
  {
    var prefix := WriteTerm(s) + " " + WriteTerm(p) + " ";
    hide *;
    WrittenIsSolid(s);
    WrittenIsSolid(p);
    SpacedTerms(WriteTerm(s), WriteTerm(p));
    var r := TrimsToForeign(prefix, v);
    var q := TrimsToForeign(prefix, r);
    ForeignIsRefused(s, p, q);
    OneBadLine(prefix + r, prefix + q, UnexpectedChar);
  }

  lemma SpacedTerms(w: string, q: string)
    requires w != "" && Lacks(w, '\n') && Lacks(q, '\n')
    ensures var prefix := w + " " + q + " ";
            prefix != "" && prefix[0] == w[0] && Lacks(prefix, '\n')
  {
  }

  lemma OneBadLine(text: string, line: string, cause: ReadError)
    requires text != "" && Lacks(text, '\n') && Trim(text) == line && ParseLine(line) == Err(cause)
    requires line != "" && line[0] != '#'
    ensures Parse(text) == Err(ParseError(1, cause))
  {
    hide Trim, ParseLine;
    SplitOnceLacks(text, '\n');
  }

  lemma TrimsToForeign(prefix: string, v: string) returns (r: string)
    requires prefix != "" && !IsWhitespace(prefix[0]) && Lacks(prefix, '\n') && Foreign(v) && Lacks(v, '\n')
    ensures Foreign(r) && Lacks(prefix + r, '\n') && Lacks(r, '\n') && (prefix + r)[0] == prefix[0]
    ensures Trim(" " + (prefix + v)) == Trim(prefix + v) == prefix + r
  {
    assert IsWhitespace(' ');
    hide IsWhitespace, TrimEnd;
    assert (" " + (prefix + v))[1..] == prefix + v;
    TrimStartSolid(prefix + v);
    r := SpaceEndsAfter(prefix, v);
    assert prefix + r <= prefix + v;
    assert forall i | 0 <= i < |r| :: r[i] == (prefix + r)[|prefix| + i] == v[i];
  }

  /** A line with foreign text, such as a variable, in one of its three places. */
  ghost predicate ForeignLine(line: string) {
    || (Foreign(line) && line[0] != '#')
    || (exists s, v :: TermShape(s) && Foreign(v) && line == WriteTerm(s) + " " + v)
    || (exists s, p, v :: TermShape(s) && TermShape(p) && Foreign(v) && line == WriteTerm(s) + " " + WriteTerm(p) + " " + v)
  }

  lemma ForeignLineFails(line: string)
    requires ForeignLine(line)
    ensures !SkipsLine(line) && ParseLine(line) == Err(UnexpectedChar)
  {
    hide ParseLine, WriteTerm, TermShape;
    if Foreign(line) && line[0] != '#' {
      ForeignAsSubject(line);
    } else if s, v :| TermShape(s) && Foreign(v) && line == WriteTerm(s) + " " + v {
      ForeignAsPredicate(s, v);
      WrittenIsSolid(s);
    } else {
      var s, p, v :| TermShape(s) && TermShape(p) && Foreign(v) && line == WriteTerm(s) + " " + WriteTerm(p) + " " + v;
      ForeignAsObject(s, p, v);
      WrittenIsSolid(s);
    }
  }

  /** One such line, in any clause, among any others and whatever white space is
      around it, makes a document malformed for every target. */
  lemma ForeignLineRefuses(target: set<Triple>, parts: seq<Part>, tail: string, k: nat, line: string)
    requires DocumentOk(parts, tail) && k < |parts| && ClosesLast(parts[k].body)
    requires line in Split(Trim(parts[k].body), '\n') && ForeignLine(Trim(line))
    ensures N3(target, Render(parts, tail)).Err? && N3(target, Render(parts, tail)).error.Malformed?
  {
    hide *;
    DocumentFacts(parts, tail);
    ClauseOfPart(parts, tail, k);
    WholeBodyIsRead(parts[k].body, Render(parts[k + 1..], tail));
    ForeignLineIsBad(line);
    BadLineFails(Trim(parts[k].body), line);
    DocumentMeaning(target, parts, tail);
    var kind := parts[k].kind;
    AnyFails(target, parts, tail, kind);
  }

  lemma ForeignLineIsBad(line: string)
    requires ForeignLine(Trim(line))
    ensures BadLine(line)
  {
    hide ForeignLine, ParseLine, SkipsLine, Trim;
    ForeignLineFails(Trim(line));
  }

  lemma BadLineFails(input: string, line: string)
    requires line in Split(input, '\n') && BadLine(line)
    ensures Parse(input).Err?
  {
    hide Split, BadLine, Parse;
    ParseExactly(input, 1);
  }

  lemma AnyFails(target: set<Triple>, parts: seq<Part>, tail: string, kind: Kind)
    requires ClauseOf(parts, tail, kind).Err?
    ensures var r := Patched(target, ClauseOf(parts, tail, Inserts), ClauseOf(parts, tail, Deletes), ClauseOf(parts, tail, Wheres));
            r.Err? && r.error.Malformed?
  {
    hide ClauseOf;
  }

  // ------------------------------------------------- the documented example

  const NAMED := Triple(Iri("#s"), Iri("#p"), Iri("#o"))

  const LEAD := "_:rename a solid:InsertDeletePatch ;\n  solid:"

  const DOCUMENTED: seq<Part> := [
    Part(Inserts, LEAD, "inserts", " ", " <#s> <#p> <#o> . "),
    Part(Deletes, " ;\n  solid:", "deletes", " ", " <#s> <#p> <#o> . "),
    Part(Wheres, " ;\n  solid:", "where", "   ", " <#s> <#p> ?var . ")]

  lemma PlainPart(p: Part)
    requires Lacks(p.before, '{') && p.before != "" && p.before[|p.before| - 1] == ':'
    requires IsKeyword(p.kind, p.word) && (p.gap == " " || p.gap == "   ") && BraceFree(p.body)
    requires forall i | 0 <= i < |p.word| :: 'a' <= p.word[i] <= 'z'
    ensures PartOk(p) && ClosesLast(p.body)
  {
    hide IsKeyword, Lacks, Quiet, ClosesLast;
    NoBraceIsQuiet(p.before);
    BraceFreeClosesLast(p.body);
    assert Lower(p.word) == p.word;
    assert IsWhitespace(' ') && !WordChar(':');
  }

  lemma LeadText()
    ensures Lacks(LEAD, '{') && LEAD != "" && LEAD[|LEAD| - 1] == ':'
  {
    var a, b := "_:rename a solid:InsertDelete", "Patch ;\n  solid:";
    assert LEAD == a + b;
    assert Lacks(a, '{') && Lacks(b, '{');
  }

  lemma DocumentedTexts()
    ensures Lacks(" ;\n  solid:", '{') && Lacks(" .", '{')
    ensures BraceFree(" <#s> <#p> <#o> . ") && BraceFree(" <#s> <#p> ?var . ")
  {
  }

  lemma DocumentedKeywords()
    ensures IsKeyword(Inserts, "inserts") && IsKeyword(Deletes, "deletes") && IsKeyword(Wheres, "where")
  {
    assert INSERT_KEYWORDS[1] == "inserts" && DELETE_KEYWORDS[1] == "deletes" && WHERE_KEYWORDS[0] == "where";
  }

  lemma DocumentedIsOk()
    ensures |DOCUMENTED| == 3 && DocumentOk(DOCUMENTED, " .") && forall k | 0 <= k < 3 :: ClosesLast(DOCUMENTED[k].body)
  {
    hide PartOk, Lacks, IsKeyword, Keywords, Quiet, ClosesLast, LEAD;
    LeadText();
    DocumentedTexts();
    DocumentedKeywords();
    NoBraceIsQuiet(" .");
    PlainPart(DOCUMENTED[0]);
    PlainPart(DOCUMENTED[1]);
    PlainPart(DOCUMENTED[2]);
  }

  lemma SpacedLineParses(t: Triple)
    requires WellFormed(t)
    ensures Parse(Trim(" " + WriteLine(t) + " ")) == Ok({t})
  {
    hide *;
    var w := WriteLine(t);
    FirstCharIsSolid(t);
    LineEndsInDot(t);
    TrimSpaces(w);
    OneLine(t);
    BodyParses([t]);
    TrimNewline(w);
  }

  lemma OneLine(t: Triple)
    ensures Print([t]) == WriteLine(t) + "\n" && GraphOf([t]) == {t}
  {
    hide WriteLine;
    assert Lines([t]) == [WriteLine(t)];
    assert Unlines([WriteLine(t)]) == WriteLine(t) + "\n" + Unlines([]);
  }

  lemma TrimSpaces(w: string)
    requires w != "" && !IsWhitespace(w[0]) && !IsWhitespace(w[|w| - 1])
    ensures Trim(" " + w + " ") == w
  {
    assert IsWhitespace(' ');
    hide IsWhitespace;
    var s := " " + w + " ";
    assert s[1..] == w + " ";
    TrimStartSolid(w + " ");
    assert TrimStart(s) == w + " ";
    assert (w + " ")[..|w|] == w;
    assert TrimEnd(w + " ") == TrimEnd(w) == w;
  }

  lemma NamedIsWellFormed()
    ensures WellFormed(NAMED) && TermShape(NAMED.subject) && TermShape(NAMED.predicate_)
  {
  }

  lemma DocumentedBodies()
    ensures " " + WriteLine(NAMED) + " " == " <#s> <#p> <#o> . "
    ensures " " + (WriteTerm(NAMED.subject) + " " + WriteTerm(NAMED.predicate_) + " " + "?var . ") == " <#s> <#p> ?var . "
    ensures Foreign("?var . ") && Lacks("?var . ", '\n')
  {
  }

  /** Each clause of the example is read whole. */
  lemma DocumentedClause(k: nat)
    requires k < |DOCUMENTED|
    ensures ClauseOf(DOCUMENTED, " .", DOCUMENTED[k].kind) == Parse(Trim(DOCUMENTED[k].body))
  {
    DocumentedIsOk();
    assert forall j | 0 <= j < k :: DOCUMENTED[j].kind != DOCUMENTED[k].kind;
    hide Parse, Trim, ClosesLast, ReadBlock, Render, ClauseOf, DocumentOk, LEAD;
    ClauseOfPart(DOCUMENTED, " .", k);
    WholeBodyIsRead(DOCUMENTED[k].body, Render(DOCUMENTED[k + 1..], " ."));
  }

  lemma DocumentedParts()
    ensures |DOCUMENTED| == 3 && DOCUMENTED[0].kind == Inserts && DOCUMENTED[1].kind == Deletes && DOCUMENTED[2].kind == Wheres
    ensures DOCUMENTED[0].body == DOCUMENTED[1].body == " <#s> <#p> <#o> . " && DOCUMENTED[2].body == " <#s> <#p> ?var . "
  {
    hide LEAD;
  }

  /** The example in the documentation of `apply_n3_patch` is refused, whatever
      graph it is applied to. */
  lemma DocumentedExampleIsRefused(target: set<Triple>)
    ensures N3(target, Render(DOCUMENTED, " .")) == Err(Malformed(ParseError(1, UnexpectedChar)))
  {
    hide *;
    DocumentedIsOk();
    DocumentedParts();
    NamedIsWellFormed();
    DocumentedBodies();
    DocumentedClause(0);
    DocumentedClause(1);
    DocumentedClause(2);
    SpacedLineParses(NAMED);
    ForeignBody(NAMED.subject, NAMED.predicate_, "?var . ");
    DocumentMeaning(target, DOCUMENTED, " .");
    ThirdFails(target, ClauseOf(DOCUMENTED, " .", Inserts), ClauseOf(DOCUMENTED, " .", Deletes), ParseError(1, UnexpectedChar));
  }

  lemma ThirdFails(target: set<Triple>, inserts: Parsed, deletes: Parsed, e: ParseError)
    requires inserts.Ok? && deletes.Ok?
    ensures Patched(target, inserts, deletes, Err(e)) == Err(Malformed(e))
  {
  }
}
