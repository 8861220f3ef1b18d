/** PATCH on RDF graphs: the N3 dialect and the SPARQL-Update operation loop. */
module RdfPatch {
  import opened Text
  import opened NTriples
  import opened Blocks

  datatype Outcome = Outcome(graph: set<Triple>, inserted: nat, deleted: nat)

  // --------------------------------------------------------------- N3 patch

  datatype PatchError = Malformed(cause: ParseError) | WhereUnmet

  function StripBraces(block: string): string {
    var t := Trim(block);
    var t := if t != "" && t[0] == '{' then t[1..] else t;
    var t := if t != "" && t[|t| - 1] == '}' then t[..|t| - 1] else t;
    Trim(t)
  }

  /** The triples of the first block that one of the keywords introduces;
      no block means no triples. */
  function Clause(patch: string, kws: seq<string>): Parsed {
    match FindBlock(patch, kws)
    case None => Ok({})
    case Some((open, end)) => Parse(StripBraces(patch[open..end]))
  }

  /** What three clauses do: all must have parsed, every WHERE triple must be
      present, then deletes are taken away and inserts added. */
  function Patched(target: set<Triple>, inserts: Parsed, deletes: Parsed, wheres: Parsed): Result<Outcome, PatchError> {
    if inserts.Err? then Err(Malformed(inserts.error))
    else if deletes.Err? then Err(Malformed(deletes.error))
    else if wheres.Err? then Err(Malformed(wheres.error))
    else if !(wheres.value <= target) then Err(WhereUnmet)
    else Ok(Outcome(target - deletes.value + inserts.value, |inserts.value|, |target * deletes.value|))
  }

  /** What an N3 patch means. */
  function N3(target: set<Triple>, patch: string): Result<Outcome, PatchError> {
    Patched(target, Clause(patch, INSERT_KEYWORDS), Clause(patch, DELETE_KEYWORDS), Clause(patch, WHERE_KEYWORDS))
  }

  method ReadClause(patch: string, kws: seq<string>) returns (r: Parsed)
    requires forall i | 0 <= i < |kws| :: Searchable(kws[i])
    ensures r == Clause(patch, kws)
  {
    hide Parse, StripBraces, FindBlock, Searchable;
    var block := ExtractBlock(patch, kws);
    if block.None? {
      return Ok({});
    }
    r := ParseNTriples(StripBraces(patch[block.value.0..block.value.1]));
  }

  /** `apply_n3_patch`: checks WHERE triple by triple, counts the deletes that
      are present, then edits the graph in place. */
  method ApplyN3Patch(target: set<Triple>, patch: string) returns (r: Result<Outcome, PatchError>)
    ensures r == N3(target, patch)
  {
    hide Clause;
    KeywordsAreSearchable();
    var inserts := ReadClause(patch, INSERT_KEYWORDS);
    var deletes := ReadClause(patch, DELETE_KEYWORDS);
    var wheres := ReadClause(patch, WHERE_KEYWORDS);
    if inserts.Err? { return Err(Malformed(inserts.error)); }
    if deletes.Err? { return Err(Malformed(deletes.error)); }
    if wheres.Err? { return Err(Malformed(wheres.error)); }
    var holds := AllPresent(target, wheres.value);
    if !holds { return Err(WhereUnmet); }
    var deleted := CountPresent(target, deletes.value);
    var graph := Subtract(target, deletes.value);
    graph := Extend(graph, inserts.value);
    r := Ok(Outcome(graph, |inserts.value|, deleted));
  }

  method AllPresent(target: set<Triple>, wanted: set<Triple>) returns (holds: bool)
    ensures holds <==> wanted <= target
  {
    var rest := wanted;
    while rest != {}
      invariant rest <= wanted && wanted - rest <= target
    {
      var t :| t in rest;
      if t !in target {
        return false;
      }
      rest := rest - {t};
    }
    holds := true;
  }

  method CountPresent(target: set<Triple>, ts: set<Triple>) returns (n: nat)
    ensures n == |target * ts|
  {
    n := 0;
    var rest := ts;
    while rest != {}
      invariant rest <= ts && n == |target * (ts - rest)|
    {
      var t :| t in rest;
      ghost var before := target * (ts - rest);
      rest := rest - {t};
      ghost var after := target * (ts - rest);
      if t in target {
        assert after == before + {t} && t !in before;
        n := n + 1;
      } else {
        assert after == before;
      }
    }
    assert ts - rest == ts;
  }

  method Subtract(graph: set<Triple>, other: set<Triple>) returns (g: set<Triple>)
    ensures g == graph - other
  {
    g := graph;
    var rest := other;
    while rest != {}
      invariant rest <= other && g == graph - (other - rest)
    {
      var t :| t in rest;
      g := g - {t};
      rest := rest - {t};
    }
  }

  method Extend(graph: set<Triple>, other: set<Triple>) returns (g: set<Triple>)
    ensures g == graph + other
  {
    g := graph;
    var rest := other;
    while rest != {}
      invariant rest <= other && g == graph + (other - rest)
    {
      var t :| t in rest;
      g := g + {t};
      rest := rest - {t};
    }
  }

  // ---------------------------------------------------------------- SPARQL

  /** An update operation, holding the triple each quad converts to; `None`
      is a quad the loop skips (a named graph, a variable, a nested triple). */
  datatype Op =
    | InsertData(data: seq<Option<Triple>>)
    | DeleteData(data: seq<Option<Triple>>)
    | DeleteInsert(delete: seq<Option<Triple>>, insert: seq<Option<Triple>>)
    | Other

  function Grounded(qs: seq<Option<Triple>>): set<Triple> {
    set q | q in qs && q.Some? :: q.value
  }

  /** What the loop over one list of quads means. */
  function Inserted(st: Outcome, ts: set<Triple>): Outcome {
    Outcome(st.graph + ts, st.inserted + |ts - st.graph|, st.deleted)
  }

  function Deleted(st: Outcome, ts: set<Triple>): Outcome {
    Outcome(st.graph - ts, st.inserted, st.deleted + |ts * st.graph|)
  }

  function Sparql(st: Outcome, ops: seq<Op>): Option<Outcome>
    decreases |ops|
  {
    if ops == [] then Some(st)
    else
      match ops[0]
      case InsertData(qs) => Sparql(Inserted(st, Grounded(qs)), ops[1..])
      case DeleteData(qs) => Sparql(Deleted(st, Grounded(qs)), ops[1..])
      case DeleteInsert(ds, qs) => Sparql(Inserted(Deleted(st, Grounded(ds)), Grounded(qs)), ops[1..])
      case Other => None
  }

  function Start(target: set<Triple>): Outcome {
    Outcome(target, 0, 0)
  }

  lemma GroundedStep(qs: seq<Option<Triple>>, k: nat)
    requires k < |qs|
    ensures Grounded(qs[..k + 1]) == Grounded(qs[..k]) + (if qs[k].Some? then {qs[k].value} else {})
  {
    assert qs[..k + 1] == qs[..k] + [qs[k]];
  }

  lemma InsertedStep(st: Outcome, done: set<Triple>, t: Triple)
    ensures var out := Inserted(st, done);
            Inserted(st, done + {t}) ==
            if t in out.graph then out else Outcome(out.graph + {t}, out.inserted + 1, out.deleted)
  {
    assert st.graph + (done + {t}) == st.graph + done + {t};
    if t in st.graph + done {
      assert done + {t} - st.graph == done - st.graph;
    } else {
      assert done + {t} - st.graph == (done - st.graph) + {t};
    }
  }

  lemma DeletedStep(st: Outcome, done: set<Triple>, t: Triple)
    ensures var out := Deleted(st, done);
            Deleted(st, done + {t}) ==
            if t !in out.graph then out else Outcome(out.graph - {t}, out.inserted, out.deleted + 1)
  {
    assert st.graph - (done + {t}) == st.graph - done - {t};
    if t in st.graph - done {
      assert (done + {t}) * st.graph == done * st.graph + {t};
    } else {
      assert (done + {t}) * st.graph == done * st.graph;
    }
  }

  lemma NothingYet(st: Outcome)
    ensures Inserted(st, {}) == st && Deleted(st, {}) == st
  {
    assert st.graph + {} == st.graph && st.graph - {} == st.graph;
    assert {} - st.graph == {} && {} * st.graph == {};
  }

  /** Inserting quad by quad, counting only triples that were not there yet. */
  method InsertQuads(st: Outcome, qs: seq<Option<Triple>>) returns (out: Outcome)
    ensures out == Inserted(st, Grounded(qs))
  {
    hide Inserted;
    out := st;
    assert Grounded(qs[..0]) == {};
    NothingYet(st);
    for k := 0 to |qs|
      invariant out == Inserted(st, Grounded(qs[..k]))
    {
      GroundedStep(qs, k);
      if qs[k].Some? {
        InsertedStep(st, Grounded(qs[..k]), qs[k].value);
        if qs[k].value !in out.graph {
          out := Outcome(out.graph + {qs[k].value}, out.inserted + 1, out.deleted);
        }
      }
    }
    assert qs[..|qs|] == qs;
  }

  method DeleteQuads(st: Outcome, qs: seq<Option<Triple>>) returns (out: Outcome)
    ensures out == Deleted(st, Grounded(qs))
  {
    hide Deleted;
    out := st;
    assert Grounded(qs[..0]) == {};
    NothingYet(st);
    for k := 0 to |qs|
      invariant out == Deleted(st, Grounded(qs[..k]))
    {
      GroundedStep(qs, k);
      if qs[k].Some? {
        DeletedStep(st, Grounded(qs[..k]), qs[k].value);
        if qs[k].value in out.graph {
          out := Outcome(out.graph - {qs[k].value}, out.inserted, out.deleted + 1);
        }
      }
    }
    assert qs[..|qs|] == qs;
  }

  /** The operation loop of `apply_sparql_patch`. */
  method ApplySparql(target: set<Triple>, ops: seq<Op>) returns (r: Option<Outcome>)
    ensures r == Sparql(Start(target), ops)
  {
    hide Inserted, Deleted, Grounded;
    var st := Start(target);
    for k := 0 to |ops|
      invariant Sparql(Start(target), ops) == Sparql(st, ops[k..])
    {
      assert ops[k..][1..] == ops[k + 1..];
      match ops[k]
      case InsertData(qs) => st := InsertQuads(st, qs);
      case DeleteData(qs) => st := DeleteQuads(st, qs);
      case DeleteInsert(ds, qs) =>
        st := DeleteQuads(st, ds);
        st := InsertQuads(st, qs);
      case Other => return None;
    }
    r := Some(st);
  }

  // ------------------------------------------------------------------- laws

  lemma CountInserted(st: Outcome, ts: set<Triple>)
    ensures |Inserted(st, ts).graph| == |st.graph| + |ts - st.graph|
  {
    assert st.graph + ts == st.graph + (ts - st.graph);
  }

  lemma CountDeleted(st: Outcome, ts: set<Triple>)
    ensures |Deleted(st, ts).graph| + |ts * st.graph| == |st.graph|
  {
    assert st.graph == (st.graph - ts) + (ts * st.graph);
  }

  /** No triple appears or vanishes uncounted, whatever the operations. */
  lemma {:induction false} Conservation(st: Outcome, ops: seq<Op>)
    requires Sparql(st, ops).Some?
    ensures var out := Sparql(st, ops).value;
            |out.graph| + out.deleted - out.inserted == |st.graph| + st.deleted - st.inserted
    decreases |ops|
  {
    hide Grounded;
    if ops != [] {
      match ops[0]
      case InsertData(qs) =>
        CountInserted(st, Grounded(qs));
        Conservation(Inserted(st, Grounded(qs)), ops[1..]);
      case DeleteData(qs) =>
        CountDeleted(st, Grounded(qs));
        Conservation(Deleted(st, Grounded(qs)), ops[1..]);
      case DeleteInsert(ds, qs) =>
        var mid := Deleted(st, Grounded(ds));
        CountDeleted(st, Grounded(ds));
        CountInserted(mid, Grounded(qs));
        Conservation(Inserted(mid, Grounded(qs)), ops[1..]);
    }
  }

  lemma ConservationFromTarget(target: set<Triple>, ops: seq<Op>)
    requires Sparql(Start(target), ops).Some?
    ensures var out := Sparql(Start(target), ops).value;
            |out.graph| + out.deleted == |target| + out.inserted
  {
    Conservation(Start(target), ops);
  }

  /** An N3 patch succeeds exactly when its clauses parse and every WHERE
      triple is present; then it leaves the graph, and counts the deletes,
      that DELETE DATA followed by INSERT DATA would. Only the insert counts
      differ: N3 also counts triples that were already there, so they agree
      exactly when no insert survives the deletes. */
  lemma EnginesAgree(target: set<Triple>, patch: string, ds: seq<Option<Triple>>, qs: seq<Option<Triple>>)
    requires Clause(patch, DELETE_KEYWORDS) == Ok(Grounded(ds))
    requires Clause(patch, INSERT_KEYWORDS) == Ok(Grounded(qs))
    ensures var wheres := Clause(patch, WHERE_KEYWORDS);
            N3(target, patch).Ok? <==> wheres.Ok? && wheres.value <= target
    ensures N3(target, patch).Ok? ==>
              var n3 := N3(target, patch).value;
              var sparql := Sparql(Start(target), [DeleteData(ds), InsertData(qs)]);
              && sparql.Some?
              && sparql.value.graph == n3.graph
              && sparql.value.deleted == n3.deleted
              && (sparql.value.inserted == n3.inserted <==> Grounded(qs) !! target - Grounded(ds))
  {
    hide Clause, Grounded;
    if N3(target, patch).Ok? {
      var d, i := Grounded(ds), Grounded(qs);
      var ops := [DeleteData(ds), InsertData(qs)];
      var mid := Deleted(Start(target), d);
      assert ops[1..] == [InsertData(qs)];
      assert Sparql(Start(target), ops) == Sparql(mid, ops[1..]);
      assert ops[1..][1..] == [];
      assert Sparql(mid, ops[1..]) == Sparql(Inserted(mid, i), []);
      assert d * target == target * d;
      assert |i| == |i - mid.graph| + |i * mid.graph| by {
        assert i == (i - mid.graph) + (i * mid.graph);
      }
      assert i !! mid.graph <==> i * mid.graph == {};
    }
  }
}
