/** What the RDF patch operations do, triple by triple and count by count. */
module PatchLaws {
  import opened Text
  import opened NTriples
  import opened Blocks
  import opened RdfPatch
  import opened SparqlQuads
  import opened N3Layout

  // ------------------------------------------------------------------ SPARQL

  lemma GroundedMeans(qs: seq<Option<Triple>>, t: Triple)
    ensures t in Grounded(qs) <==> Some(t) in qs
  {
  }

  lemma OneOp(st: Outcome, ds: seq<Option<Triple>>, qs: seq<Option<Triple>>)
    ensures Sparql(st, [InsertData(qs)]) == Some(Inserted(st, Grounded(qs)))
    ensures Sparql(st, [DeleteData(ds)]) == Some(Deleted(st, Grounded(ds)))
    ensures Sparql(st, [DeleteInsert(ds, qs)]) == Some(Inserted(Deleted(st, Grounded(ds)), Grounded(qs)))
  {
    hide Grounded, Inserted, Deleted;
    assert [InsertData(qs)][1..] == [] && [DeleteData(ds)][1..] == [] && [DeleteInsert(ds, qs)][1..] == [];
  }

  /** INSERT DATA: what was there or is named; the count is what is new. */
  lemma InsertDataMeans(st: Outcome, qs: seq<Option<Triple>>, t: Triple)
    ensures var r := Sparql(st, [InsertData(qs)]);
            && r.Some? && (t in r.value.graph <==> t in st.graph || Some(t) in qs)
            && r.value.inserted == st.inserted + |r.value.graph - st.graph| && r.value.deleted == st.deleted
  {
    hide Grounded;
    var ts := Grounded(qs);
    OneOp(st, [], qs);
    GroundedMeans(qs, t);
    assert st.graph + ts - st.graph == ts - st.graph;
  }

  /** DELETE DATA: what was there and is not named; the count is what is gone. */
  lemma DeleteDataMeans(st: Outcome, ds: seq<Option<Triple>>, t: Triple)
    ensures var r := Sparql(st, [DeleteData(ds)]);
            && r.Some? && (t in r.value.graph <==> t in st.graph && Some(t) !in ds)
            && r.value.deleted == st.deleted + |st.graph - r.value.graph| && r.value.inserted == st.inserted
  {
    hide Grounded;
    var ts := Grounded(ds);
    OneOp(st, ds, []);
    GroundedMeans(ds, t);
    assert st.graph - (st.graph - ts) == ts * st.graph;
  }

  /** DELETE and INSERT templates: what is inserted, or was there and is not
      deleted; and all of it, counts included, as DELETE DATA then INSERT DATA. */
  lemma DeleteInsertMeans(st: Outcome, ds: seq<Option<Triple>>, qs: seq<Option<Triple>>, t: Triple)
    ensures var r := Sparql(st, [DeleteInsert(ds, qs)]);
            && r.Some? && (t in r.value.graph <==> Some(t) in qs || (t in st.graph && Some(t) !in ds))
    ensures Sparql(st, [DeleteInsert(ds, qs)]) == Sparql(st, [DeleteData(ds), InsertData(qs)])
  {
    hide Grounded;
    var mid := Deleted(st, Grounded(ds));
    OneOp(st, ds, qs);
    GroundedMeans(ds, t);
    GroundedMeans(qs, t);
    var two := [DeleteData(ds), InsertData(qs)];
    assert two[1..] == [InsertData(qs)];
    assert Sparql(st, two) == Sparql(mid, two[1..]);
    OneOp(mid, ds, qs);
  }

  /** Operations act one after the other; any other operation refuses the document. */
  lemma {:induction false} OpsInSequence(st: Outcome, a: seq<Op>, b: seq<Op>)
    ensures Sparql(st, a + b) ==
            match Sparql(st, a) case None => None case Some(mid) => Sparql(mid, b)
    ensures Other in a ==> Sparql(st, a) == None
    decreases |a|
  {
    hide Grounded, Inserted, Deleted;
    if a == [] {
      assert a + b == b;
    } else {
      assert (a + b)[1..] == a[1..] + b && (a + b)[0] == a[0];
      match a[0]
      case InsertData(qs) => OpsInSequence(Inserted(st, Grounded(qs)), a[1..], b);
      case DeleteData(ds) => OpsInSequence(Deleted(st, Grounded(ds)), a[1..], b);
      case DeleteInsert(ds, qs) => OpsInSequence(Inserted(Deleted(st, Grounded(ds)), Grounded(qs)), a[1..], b);
      case Other =>
    }
  }

  // ------------------------------------------------------------------- quads

  lemma GroundInverts(n: Node, t: Term)
    ensures GroundNode(n) == Some(t) <==> PlainTerm(t) && n == AsNode(t)
    ensures ObjectNode(n) == Some(t) <==> (PlainTerm(t) || t.BlankNode?) && n == AsNode(t)
    ensures SubjectNode(n) == Some(t) <==> (t.Iri? || t.BlankNode?) && n == AsNode(t)
  {
    hide XSD_STRING;
  }

  /** The three conversions, exactly: a quad becomes a triple if and only if it
      is that triple's own quad, in the default graph, and the triple can be
      said there. So named graphs, variables and nested triples are skipped. */
  lemma ConversionsInvert(q: Quad, t: Triple)
    ensures InsertTriple(q) == Some(t) <==> Insertable(t) && q == AsQuad(t)
    ensures DeleteTriple(q) == Some(t) <==> Deletable(t) && q == AsQuad(t)
    ensures TemplateTriple(q) == Some(t) <==> Templatable(t) && q == AsQuad(t)
  {
    GroundInverts(q.subject, t.subject);
    GroundInverts(q.object_, t.object_);
    GroundInverts(q.predicate_, t.predicate_);
    hide PlainTerm, GroundNode, ObjectNode, SubjectNode, XSD_STRING;
  }

  lemma ConvertedMeans(qs: seq<Quad>, convert: Quad -> Option<Triple>, t: Triple)
    ensures Some(t) in Converted(qs, convert) <==> exists q :: q in qs && convert(q) == Some(t)
  {
    GroundedMember(qs, convert, t);
    GroundedMeans(Converted(qs, convert), t);
  }

  /** A DELETE and INSERT update on its quads: a triple is in the new graph if
      its quad is inserted and it can be said in a template, or if it was there
      and is not deleted so. */
  lemma UpdateMeans(st: Outcome, ds: seq<Quad>, qs: seq<Quad>, t: Triple)
    ensures var r := Sparql(st, [AsOp(DeleteInsertOf(ds, qs))]);
            && r.Some?
            && (t in r.value.graph <==>
                || (Templatable(t) && AsQuad(t) in qs)
                || (t in st.graph && !(Templatable(t) && AsQuad(t) in ds)))
            && (t !in st.graph && Templatable(t) && AsQuad(t) in qs ==> r.value.inserted > st.inserted)
  {
    hide Sparql, Templatable, AsQuad, TemplateTriple;
    DeleteInsertMeans(st, Converted(ds, TemplateTriple), Converted(qs, TemplateTriple), t);
    TemplateIn(ds, t);
    TemplateIn(qs, t);
    if t !in st.graph && Templatable(t) && AsQuad(t) in qs {
      CountedIfNew(st, Converted(ds, TemplateTriple), Converted(qs, TemplateTriple), t);
    }
  }

  lemma TemplateIn(qs: seq<Quad>, t: Triple)
    ensures Some(t) in Converted(qs, TemplateTriple) <==> Templatable(t) && AsQuad(t) in qs
  {
    hide Templatable, AsQuad, TemplateTriple;
    ConvertedMeans(qs, TemplateTriple, t);
    forall q ensures TemplateTriple(q) == Some(t) <==> Templatable(t) && q == AsQuad(t) {
      ConversionsInvert(q, t);
    }
  }

  lemma CountedIfNew(st: Outcome, ds: seq<Option<Triple>>, qs: seq<Option<Triple>>, t: Triple)
    requires t !in st.graph && Some(t) in qs
    ensures Sparql(st, [DeleteInsert(ds, qs)]).Some? && Sparql(st, [DeleteInsert(ds, qs)]).value.inserted > st.inserted
  {
    hide Grounded;
    var mid := Deleted(st, Grounded(ds));
    OneOp(st, ds, qs);
    GroundedMeans(qs, t);
    assert t in Grounded(qs) - mid.graph;
  }

  // ---------------------------------------------------------------------- N3

  /** The order in which the clauses are read. */
  function Rank(kind: Kind): nat {
    match kind
    case Inserts => 0
    case Deletes => 1
    case Wheres => 2
  }

  /** Which error a patch gives: that of the first clause, in reading order,
      that does not parse; WHERE is checked only after all have. */
  lemma ErrorsInOrder(target: set<Triple>, patch: string, e: ParseError)
    ensures N3(target, patch) == Err(Malformed(e)) <==>
            exists kind :: Clause(patch, Keywords(kind)) == Err(e)
                           && forall other | Rank(other) < Rank(kind) :: Clause(patch, Keywords(other)).Ok?
    ensures N3(target, patch) == Err(WhereUnmet) <==>
            && (forall kind :: Clause(patch, Keywords(kind)).Ok?)
            && exists t :: t in Clause(patch, Keywords(Wheres)).value && t !in target
  {
    hide Clause;
    var i, d, w := Clause(patch, Keywords(Inserts)), Clause(patch, Keywords(Deletes)), Clause(patch, Keywords(Wheres));
    if N3(target, patch) == Err(Malformed(e)) {
      var kind := if i.Err? then Inserts else if d.Err? then Deletes else Wheres;
      assert Clause(patch, Keywords(kind)) == Err(e);
    }
    if i.Ok? && d.Ok? && w.Ok? {
      forall kind ensures Clause(patch, Keywords(kind)).Ok? {
        assert kind == Inserts || kind == Deletes || kind == Wheres;
      }
    }
  }

  /** What an accepted patch does, triple by triple. */
  lemma PatchMeans(target: set<Triple>, patch: string, t: Triple)
    requires N3(target, patch).Ok?
    ensures var inserts, deletes := Clause(patch, INSERT_KEYWORDS), Clause(patch, DELETE_KEYWORDS);
            && inserts.Ok? && deletes.Ok?
            && (t in N3(target, patch).value.graph <==> t in inserts.value || (t in target && t !in deletes.value))
  {
    hide Clause;
  }

  /** White space around a block and inside its braces does not matter. */
  lemma StripsPadding(before: string, body: string, after: string)
    requires (forall i | 0 <= i < |before| :: IsWhitespace(before[i])) && (forall i | 0 <= i < |after| :: IsWhitespace(after[i]))
    ensures StripBraces(before + ("{" + body + "}") + after) == Trim(body)
  {
    var block := "{" + body + "}";
    assert !IsWhitespace('{') && !IsWhitespace('}');
    PaddingIsTrimmed(before, block, after);
    StripFlat(body);
    TrimKeepsSolid(block);
    hide Trim, IsWhitespace;
  }

  lemma PaddingIsTrimmed(before: string, text: string, after: string)
    requires (forall i | 0 <= i < |before| :: IsWhitespace(before[i])) && (forall i | 0 <= i < |after| :: IsWhitespace(after[i]))
    requires text != "" && !IsWhitespace(text[0]) && !IsWhitespace(text[|text| - 1])
    ensures Trim(before + text + after) == text
  {
    hide IsWhitespace, TrimStart, TrimEnd;
    assert before + text + after == before + (text + after);
    PaddingBefore(before, text + after);
    PaddingAfter(text, after);
  }

  lemma {:induction false} PaddingBefore(before: string, rest: string)
    requires (forall i | 0 <= i < |before| :: IsWhitespace(before[i])) && rest != "" && !IsWhitespace(rest[0])
    ensures TrimStart(before + rest) == rest
    decreases |before|
  {
    hide IsWhitespace;
    if before == "" {
      assert before + rest == rest;
    } else {
      PaddingBefore(before[1..], rest);
      assert (before + rest)[1..] == before[1..] + rest;
    }
  }

  lemma {:induction false} PaddingAfter(text: string, after: string)
    requires (forall i | 0 <= i < |after| :: IsWhitespace(after[i])) && text != "" && !IsWhitespace(text[|text| - 1])
    ensures TrimEnd(text + after) == text
    decreases |after|
  {
    hide IsWhitespace;
    if after == "" {
      assert text + after == text;
    } else {
      PaddingAfter(text, after[..|after| - 1]);
      assert (text + after)[..|text + after| - 1] == text + after[..|after| - 1];
    }
  }

  /** The keywords of the three clauses, and no others. */
  lemma KeywordsAre(kind: Kind, w: string)
    ensures IsKeyword(kind, w) <==>
            match kind
            case Inserts => w == "insert" || w == "inserts" || w == "solid:inserts"
            case Deletes => w == "delete" || w == "deletes" || w == "solid:deletes"
            case Wheres => w == "where" || w == "solid:where"
  {
    assert INSERT_KEYWORDS[0] == "insert" && INSERT_KEYWORDS[1] == "inserts" && INSERT_KEYWORDS[2] == "solid:inserts";
    assert DELETE_KEYWORDS[0] == "delete" && DELETE_KEYWORDS[1] == "deletes" && DELETE_KEYWORDS[2] == "solid:deletes";
    assert WHERE_KEYWORDS[0] == "where" && WHERE_KEYWORDS[1] == "solid:where";
  }

  /** A keyword glued to a letter, a digit or an underscore opens no block;
      after anything else, or at the start, it is free to. */
  lemma GluedKeywords(src: string, kw: string, p: nat)
    requires 0 < p <= |src|
    ensures '0' <= src[p - 1] <= '9' || 'a' <= src[p - 1] <= 'z' || 'A' <= src[p - 1] <= 'Z' || src[p - 1] == '_'
            <==> !LeftBoundary(src, p)
    ensures !LeftBoundary(src, p) ==> BlockAt(src, kw, p).None?
  {
  }
}
