/** From the quads of a parsed SPARQL Update to triples, and exactly which N3
    patches a SPARQL Update can express. */
module SparqlQuads {
  import opened Text
  import opened NTriples
  import opened RdfPatch

  const XSD_STRING := "http://www.w3.org/2001/XMLSchema#string"

  /** A literal has a language or a datatype; a plain one is an `xsd:string`. */
  datatype Lexical = Typed(value: string, datatyp: string) | Tagged(value: string, language: string)

  datatype Node = Named(iri: string) | Blank(label_: string) | Lit(lexical: Lexical) | Nested | Variable(name: string)

  datatype GraphName = DefaultGraph | NamedGraph(iri: string) | GraphVariable(name: string)

  datatype Quad = Quad(subject: Node, predicate_: Node, object_: Node, graph: GraphName)

  // -------------------------------------------------------------- conversion

  /** `build_literal`: `xsd:string` is written back as no datatype. */
  function FromLexical(l: Lexical): Term {
    match l
    case Tagged(v, lang) => Literal(v, None, Some(lang))
    case Typed(v, dt) => Literal(v, if dt == XSD_STRING then None else Some(dt), None)
  }

  /** A name or a literal; nothing else. */
  function GroundNode(n: Node): Option<Term> {
    match n
    case Named(i) => Some(Iri(i))
    case Lit(l) => Some(FromLexical(l))
    case _ => None
  }

  function SubjectNode(n: Node): Option<Term> {
    match n
    case Named(i) => Some(Iri(i))
    case Blank(b) => Some(BlankNode(b))
    case _ => None
  }

  function ObjectNode(n: Node): Option<Term> {
    if n.Blank? then Some(BlankNode(n.label_)) else GroundNode(n)
  }

  function Build(s: Option<Term>, p: Node, o: Option<Term>, graph: GraphName): Option<Triple> {
    if graph.DefaultGraph? && s.Some? && p.Named? && o.Some? then Some(Triple(s.value, Iri(p.iri), o.value)) else None
  }

  /** `quad_to_triple`, for INSERT DATA. */
  function InsertTriple(q: Quad): Option<Triple> {
    Build(SubjectNode(q.subject), q.predicate_, ObjectNode(q.object_), q.graph)
  }

  /** `ground_quad_to_triple`, for DELETE DATA: no blank nodes. */
  function DeleteTriple(q: Quad): Option<Triple> {
    Build(if q.subject.Named? then Some(Iri(q.subject.iri)) else None, q.predicate_, GroundNode(q.object_), q.graph)
  }

  /** `ground_quad_pattern_to_triple`, for DELETE and INSERT templates. */
  function TemplateTriple(q: Quad): Option<Triple> {
    Build(GroundNode(q.subject), q.predicate_, GroundNode(q.object_), q.graph)
  }

  datatype Update =
    | InsertDataOf(data: seq<Quad>)
    | DeleteDataOf(data: seq<Quad>)
    | DeleteInsertOf(delete: seq<Quad>, insert: seq<Quad>)
    | OtherUpdate

  function Converted(qs: seq<Quad>, convert: Quad -> Option<Triple>): (r: seq<Option<Triple>>)
    ensures |r| == |qs| && forall i | 0 <= i < |qs| :: r[i] == convert(qs[i])
  {
    seq(|qs|, i requires 0 <= i < |qs| => convert(qs[i]))
  }

  function AsOp(u: Update): Op {
    match u
    case InsertDataOf(qs) => InsertData(Converted(qs, InsertTriple))
    case DeleteDataOf(qs) => DeleteData(Converted(qs, DeleteTriple))
    case DeleteInsertOf(ds, qs) => DeleteInsert(Converted(ds, TemplateTriple), Converted(qs, TemplateTriple))
    case OtherUpdate => Other
  }

  function AsOps(us: seq<Update>): (r: seq<Op>)
    ensures |r| == |us| && forall i | 0 <= i < |us| :: r[i] == AsOp(us[i])
  {
    seq(|us|, i requires 0 <= i < |us| => AsOp(us[i]))
  }

  // ----------------------------------------------- which triples can be said

  /** A name, or a literal as the normalisation leaves it. */
  predicate PlainTerm(t: Term) {
    match t
    case Iri(_) => true
    case BlankNode(_) => false
    case Literal(_, dt, lang) => (lang.Some? && dt.None?) || (lang.None? && dt != Some(XSD_STRING))
  }

  predicate Insertable(t: Triple) {
    && (t.subject.Iri? || t.subject.BlankNode?) && t.predicate_.Iri?
    && (t.object_.BlankNode? || PlainTerm(t.object_))
  }

  predicate Deletable(t: Triple) {
    t.subject.Iri? && t.predicate_.Iri? && PlainTerm(t.object_)
  }

  predicate Templatable(t: Triple) {
    PlainTerm(t.subject) && t.predicate_.Iri? && PlainTerm(t.object_)
  }

  function AsNode(t: Term): Node {
    match t
    case Iri(i) => Named(i)
    case BlankNode(b) => Blank(b)
    case Literal(v, dt, lang) =>
      Lit(if lang.Some? then Tagged(v, lang.value) else Typed(v, if dt.Some? then dt.value else XSD_STRING))
  }

  function AsQuad(t: Triple): Quad {
    Quad(AsNode(t.subject), AsNode(t.predicate_), AsNode(t.object_), DefaultGraph)
  }

  lemma NodeRoundTrip(t: Term)
    ensures GroundNode(AsNode(t)) == Some(t) <==> PlainTerm(t)
    ensures SubjectNode(AsNode(t)) == Some(t) <==> t.Iri? || t.BlankNode?
  {
    hide XSD_STRING;
  }

  lemma GroundIsPlain(n: Node)
    ensures GroundNode(n).Some? ==> PlainTerm(GroundNode(n).value)
  {
    hide XSD_STRING;
  }

  /** The three conversions reach exactly these triples. */
  lemma ReachesExactly(t: Triple)
    ensures (exists q :: InsertTriple(q) == Some(t)) <==> Insertable(t)
    ensures (exists q :: DeleteTriple(q) == Some(t)) <==> Deletable(t)
    ensures (exists q :: TemplateTriple(q) == Some(t)) <==> Templatable(t)
  {
    hide PlainTerm, GroundNode, XSD_STRING;
    NodeRoundTrip(t.subject);
    NodeRoundTrip(t.object_);
    assert Insertable(t) ==> InsertTriple(AsQuad(t)) == Some(t);
    assert Deletable(t) ==> DeleteTriple(AsQuad(t)) == Some(t);
    assert Templatable(t) ==> TemplateTriple(AsQuad(t)) == Some(t);
    forall q ensures InsertTriple(q) == Some(t) ==> Insertable(t)
             ensures DeleteTriple(q) == Some(t) ==> Deletable(t)
             ensures TemplateTriple(q) == Some(t) ==> Templatable(t) {
      GroundIsPlain(q.subject);
      GroundIsPlain(q.object_);
    }
  }

  lemma GroundedMember(qs: seq<Quad>, convert: Quad -> Option<Triple>, t: Triple)
    ensures t in Grounded(Converted(qs, convert)) <==> exists q :: q in qs && convert(q) == Some(t)
  {
    var r := Converted(qs, convert);
    if t in Grounded(r) {
      var i :| 0 <= i < |r| && r[i] == Some(t);
      assert qs[i] in qs;
    }
    if q :| q in qs && convert(q) == Some(t) {
      var i :| 0 <= i < |qs| && qs[i] == q;
      assert r[i] in r;
    }
  }

  // ------------------------------------------------------ the two languages

  /** The SPARQL document `DELETE DATA { ds } ; INSERT DATA { qs }`. */
  function Twin(ds: seq<Quad>, qs: seq<Quad>): seq<Op> {
    AsOps([DeleteDataOf(ds), InsertDataOf(qs)])
  }

  /** It does to every graph what deleting `d` and inserting `i` does. */
  ghost predicate Expresses(ds: seq<Quad>, qs: seq<Quad>, d: set<Triple>, i: set<Triple>) {
    forall target: set<Triple> ::
      Sparql(Start(target), Twin(ds, qs)).Some? && Sparql(Start(target), Twin(ds, qs)).value.graph == target - d + i
  }

  lemma TwinRuns(target: set<Triple>, ds: seq<Quad>, qs: seq<Quad>)
    ensures var r := Sparql(Start(target), Twin(ds, qs));
            r.Some? && r.value.graph == target - Grounded(Converted(ds, DeleteTriple)) + Grounded(Converted(qs, InsertTriple))
  {
    hide Grounded, InsertTriple, DeleteTriple;
    var ops := Twin(ds, qs);
    assert ops[0] == DeleteData(Converted(ds, DeleteTriple)) && ops[1] == InsertData(Converted(qs, InsertTriple));
    assert ops[1..] == [ops[1]] && ops[1..][1..] == [];
    var mid := Deleted(Start(target), Grounded(Converted(ds, DeleteTriple)));
    assert Sparql(Start(target), ops) == Sparql(mid, ops[1..]);
  }

  lemma {:induction false} Listing(s: set<Triple>) returns (qs: seq<Quad>)
    ensures forall t | t in s :: AsQuad(t) in qs
    ensures forall q | q in qs :: exists t :: t in s && q == AsQuad(t)
    decreases |s|
  {
    hide AsQuad;
    qs := [];
    if s != {} {
      var t :| t in s;
      var rest := Listing(s - {t});
      qs := rest + [AsQuad(t)];
      forall u | u in s ensures AsQuad(u) in qs {
        assert u == t || u in s - {t};
      }
    }
  }

  lemma ListingReaches(s: set<Triple>, qs: seq<Quad>, convert: Quad -> Option<Triple>)
    requires forall t | t in s :: AsQuad(t) in qs && convert(AsQuad(t)) == Some(t)
    requires forall q | q in qs :: exists t :: t in s && q == AsQuad(t)
    ensures Grounded(Converted(qs, convert)) == s
  {
    hide AsQuad, Grounded;
    forall t ensures t in Grounded(Converted(qs, convert)) <==> t in s {
      GroundedMember(qs, convert, t);
    }
  }

  /** If a SPARQL document expresses the change, its parts can be said. */
  lemma ExpressedIsSayable(ds: seq<Quad>, qs: seq<Quad>, d: set<Triple>, i: set<Triple>)
    requires Expresses(ds, qs, d, i)
    ensures (forall t | t in i :: Insertable(t)) && (forall t | t in d - i :: Deletable(t))
  {
    hide Grounded, Sparql, Insertable, Deletable, InsertTriple, DeleteTriple, Twin;
    var e, j := Grounded(Converted(ds, DeleteTriple)), Grounded(Converted(qs, InsertTriple));
    forall t | t in i ensures Insertable(t) {
      TwinRuns({}, ds, qs);
      assert t in {} - d + i;
      assert t in j;
      GroundedMember(qs, InsertTriple, t);
      ReachesExactly(t);
    }
    forall t | t in d - i ensures Deletable(t) {
      TwinRuns({t}, ds, qs);
      assert t !in {t} - d + i;
      assert t in e;
      GroundedMember(ds, DeleteTriple, t);
      ReachesExactly(t);
    }
  }

  /** Exactly which changes, as an N3 patch makes them, SPARQL can express: all
      that is inserted and all that is really deleted must be sayable. */
  lemma ExpressibleIff(d: set<Triple>, i: set<Triple>)
    ensures (exists ds: seq<Quad>, qs: seq<Quad> :: Expresses(ds, qs, d, i))
            <==> (forall t | t in i :: Insertable(t)) && (forall t | t in d - i :: Deletable(t))
  {
    hide Grounded, Sparql, Insertable, Deletable, InsertTriple, DeleteTriple, Twin, Expresses;
    if ds: seq<Quad>, qs: seq<Quad> :| Expresses(ds, qs, d, i) {
      ExpressedIsSayable(ds, qs, d, i);
    }
    if (forall t | t in i :: Insertable(t)) && (forall t | t in d - i :: Deletable(t)) {
      SayableIsExpressed(d, i);
    }
  }

  lemma SayableIsExpressed(d: set<Triple>, i: set<Triple>)
    requires (forall t | t in i :: Insertable(t)) && (forall t | t in d - i :: Deletable(t))
    ensures exists ds: seq<Quad>, qs: seq<Quad> :: Expresses(ds, qs, d, i)
  {
    hide Grounded, Sparql, Insertable, Deletable, InsertTriple, DeleteTriple, Twin, AsQuad;
    var qs := Listing(i);
    var ds := Listing(d - i);
    forall t | t in i ensures InsertTriple(AsQuad(t)) == Some(t) {
      CanonicalInsert(t);
    }
    forall t | t in d - i ensures DeleteTriple(AsQuad(t)) == Some(t) {
      CanonicalDelete(t);
    }
    ListingReaches(i, qs, InsertTriple);
    ListingReaches(d - i, ds, DeleteTriple);
    forall target: set<Triple>
      ensures Sparql(Start(target), Twin(ds, qs)).Some? && Sparql(Start(target), Twin(ds, qs)).value.graph == target - d + i
    {
      TwinRuns(target, ds, qs);
      assert target - (d - i) + i == target - d + i;
    }
    assert Expresses(ds, qs, d, i);
  }

  lemma CanonicalInsert(t: Triple)
    requires Insertable(t)
    ensures InsertTriple(AsQuad(t)) == Some(t)
  {
    hide PlainTerm, GroundNode, XSD_STRING;
    NodeRoundTrip(t.subject);
    NodeRoundTrip(t.object_);
  }

  lemma CanonicalDelete(t: Triple)
    requires Deletable(t)
    ensures DeleteTriple(AsQuad(t)) == Some(t)
  {
    hide PlainTerm, GroundNode, XSD_STRING;
    NodeRoundTrip(t.object_);
  }

  /** An input that only N3 can insert: a literal typed `xsd:string`. */
  lemma TypedStringsAreN3Only(s: string, p: string, v: string)
    ensures var t := Triple(Iri(s), Iri(p), Literal(v, Some(XSD_STRING), None));
            !exists ds: seq<Quad>, qs: seq<Quad> :: Expresses(ds, qs, {}, {t})
  {
    hide XSD_STRING, Expresses;
    var t := Triple(Iri(s), Iri(p), Literal(v, Some(XSD_STRING), None));
    assert !Insertable(t);
    ExpressibleIff({}, {t});
  }
}
