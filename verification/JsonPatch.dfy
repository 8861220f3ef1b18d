/** JSON Patch (RFC 6902) on a document that is edited in place. */
module JsonPatch {
  import opened Text
  import opened Json
  import opened JsonPointer

  datatype Error = PreconditionFailed | Unsupported

  type Edit = Result<Json, Error>

  // ------------------------------------------------------------- operations

  function Read(doc: Json, path: string): Option<Json> {
    match Tokens(path)
    case None => None
    case Some(ts) => Get(doc, ts)
  }

  /** The container a non-empty path edits, with its tokens, if it exists. */
  function Parent(doc: Json, path: string): Option<(seq<string>, Json)> {
    match Tokens(SplitPointer(path).0)
    case None => None
    case Some(ts) =>
      match Get(doc, ts)
      case None => None
      case Some(p) => Some((ts, p))
  }

  /** `json_pointer_set` on the container itself. */
  function SetIn(p: Json, last: string, v: Json, add: bool): Edit {
    match p
    case Obj(m) => if !add && last !in m then Err(PreconditionFailed) else Ok(Obj(m[last := v]))
    case Arr(a) =>
      if last == "-" then Ok(Arr(a + [v]))
      else
        var idx := ParseUsize(last);
        if idx.None? then Err(Unsupported)
        else if add then
          if idx.value > |a| then Err(PreconditionFailed) else Ok(Arr(a[..idx.value] + [v] + a[idx.value..]))
        else if idx.value >= |a| then Err(PreconditionFailed)
        else Ok(Arr(a[idx.value := v]))
    case _ => Err(PreconditionFailed)
  }

  function RemoveIn(p: Json, last: string): Edit {
    match p
    case Obj(m) => if last !in m then Err(PreconditionFailed) else Ok(Obj(m - {last}))
    case Arr(a) =>
      var idx := ParseUsize(last);
      if idx.None? then Err(Unsupported)
      else if idx.value >= |a| then Err(PreconditionFailed)
      else Ok(Arr(a[..idx.value] + a[idx.value + 1..]))
    case _ => Err(PreconditionFailed)
  }

  /** Write an edited container back where it came from. */
  function WriteBack(doc: Json, parent: (seq<string>, Json), edit: Edit): Edit
    requires Get(doc, parent.0) == Some(parent.1)
  {
    match edit
    case Err(e) => Err(e)
    case Ok(p) => Ok(Put(doc, parent.0, p))
  }

  function Set(doc: Json, path: string, v: Json, add: bool): Edit {
    if path == "" then Ok(v)
    else
      match Parent(doc, path)
      case None => Err(PreconditionFailed)
      case Some(p) => WriteBack(doc, p, SetIn(p.1, SplitPointer(path).1, v, add))
  }

  function Remove(doc: Json, path: string): Edit {
    if path == "" then Err(Unsupported)
    else
      match Parent(doc, path)
      case None => Err(PreconditionFailed)
      case Some(p) => WriteBack(doc, p, RemoveIn(p.1, SplitPointer(path).1))
  }

  datatype Op =
    | Add(path: string, value: Json)
    | Replace(path: string, value: Json)
    | RemoveOp(path: string)
    | Test(path: string, value: Json)
    | Copy(from: string, path: string)
    | Move(from: string, path: string)
    | Malformed

  /** The document after an operation and whether it failed. A move whose
      second half fails has already removed its source. */
  function Do(doc: Json, op: Op): (Json, Option<Error>) {
    match op
    case Add(path, v) => Settle(doc, Set(doc, path, v, true))
    case Replace(path, v) => Settle(doc, Set(doc, path, v, false))
    case RemoveOp(path) => Settle(doc, Remove(doc, path))
    case Test(path, v) => (doc, if Read(doc, path) == Some(v) then None else Some(PreconditionFailed))
    case Copy(from, path) =>
      (match Read(doc, from)
       case None => (doc, Some(PreconditionFailed))
       case Some(v) => Settle(doc, Set(doc, path, v, true)))
    case Move(from, path) =>
      (match Read(doc, from)
       case None => (doc, Some(PreconditionFailed))
       case Some(v) =>
         match Remove(doc, from)
         case Err(e) => (doc, Some(e))
         case Ok(mid) => Settle(mid, Set(mid, path, v, true)))
    case Malformed => (doc, Some(Unsupported))
  }

  function Settle(doc: Json, edit: Edit): (Json, Option<Error>) {
    match edit
    case Ok(d) => (d, None)
    case Err(e) => (doc, Some(e))
  }

  /** The whole patch: stops at the first failure, keeping what was done. */
  function Patched(doc: Json, ops: seq<Op>): (Json, Option<Error>)
    decreases |ops|
  {
    if ops == [] then (doc, None)
    else
      var (d, e) := Do(doc, ops[0]);
      if e.Some? then (d, e) else Patched(d, ops[1..])
  }

  /** A resource's JSON representation, edited in place. */
  class Document {
    var root: Json

    constructor (root: Json)
      ensures this.root == root
    {
      this.root := root;
    }

    /** A set that fails leaves the document as it was. */
    method JsonPointerSet(path: string, v: Json, add: bool) returns (err: Option<Error>)
      modifies this
      ensures (root, err) == Settle(old(root), Set(old(root), path, v, add))
    {
      hide SetIn, Put, Get, Tokens;
      if path == "" {
        root := v;
        return None;
      }
      var parent := Parent(root, path);
      if parent.None? {
        return Some(PreconditionFailed);
      }
      var edited := SetIn(parent.value.1, SplitPointer(path).1, v, add);
      if edited.Err? {
        return Some(edited.error);
      }
      root := Put(root, parent.value.0, edited.value);
      err := None;
    }

    method JsonPointerRemove(path: string) returns (err: Option<Error>)
      modifies this
      ensures (root, err) == Settle(old(root), Remove(old(root), path))
    {
      hide RemoveIn, Put, Get, Tokens;
      if path == "" {
        return Some(Unsupported);
      }
      var parent := Parent(root, path);
      if parent.None? {
        return Some(PreconditionFailed);
      }
      var edited := RemoveIn(parent.value.1, SplitPointer(path).1);
      if edited.Err? {
        return Some(edited.error);
      }
      root := Put(root, parent.value.0, edited.value);
      err := None;
    }

    method ApplyOp(op: Op) returns (err: Option<Error>)
      modifies this
      ensures (root, err) == Do(old(root), op)
    {
      hide Set, Remove, Read;
      match op {
        case Add(path, v) => err := JsonPointerSet(path, v, true);
        case Replace(path, v) => err := JsonPointerSet(path, v, false);
        case RemoveOp(path) => err := JsonPointerRemove(path);
        case Test(path, v) => err := if Read(root, path) == Some(v) then None else Some(PreconditionFailed);
        case Copy(from, path) =>
          var v := Read(root, from);
          if v.None? { return Some(PreconditionFailed); }
          err := JsonPointerSet(path, v.value, true);
        case Move(from, path) =>
          var v := Read(root, from);
          if v.None? { return Some(PreconditionFailed); }
          err := JsonPointerRemove(from);
          if err.Some? { return; }
          err := JsonPointerSet(path, v.value, true);
        case Malformed => err := Some(Unsupported);
      }
    }

    /** `apply_json_patch`. */
    method ApplyJsonPatch(ops: seq<Op>) returns (err: Option<Error>)
      modifies this
      ensures (root, err) == Patched(old(root), ops)
    {
      hide Do;
      for i := 0 to |ops|
        invariant Patched(old(root), ops) == Patched(root, ops[i..])
      {
        assert ops[i..][1..] == ops[i + 1..];
        err := ApplyOp(ops[i]);
        if err.Some? {
          return;
        }
      }
      err := None;
    }
  }

  // ------------------------------------------------------------------- laws

  /** Well-formed and not the root. */
  predicate Inner(path: string) {
    path != "" && path[0] == '/'
  }

  lemma StrictIsLoose(token: string)
    ensures ParseIndex(token).Some? ==> ParseUsize(token) == ParseIndex(token) && token != "-"
  {
  }

  lemma ReadIsChild(doc: Json, path: string)
    requires Inner(path)
    ensures Read(doc, path) ==
            match Parent(doc, path)
            case None => None
            case Some(p) => Child(p.1, SplitPointer(path).1)
  {
    hide Tokens, SplitPointer, Get, Child;
    SplitIsLastToken(path);
    var (parent, last) := SplitPointer(path);
    GetStep(doc, Tokens(parent).value, last);
  }

  /** After an edit the path still has the same container, now edited. */
  lemma ParentAfter(doc: Json, path: string, p: Json)
    requires Parent(doc, path).Some?
    ensures var (ts, _) := Parent(doc, path).value;
            && Parent(Put(doc, ts, p), path) == Some((ts, p))
            && (forall q :: Put(Put(doc, ts, p), ts, q) == Put(doc, ts, q))
            && Put(doc, ts, Parent(doc, path).value.1) == doc
  {
    hide Tokens, SplitPointer;
    var ts := Parent(doc, path).value.0;
    LensLaws(doc, ts, p, p);
    hide Put, Get;
    forall q ensures Get(Put(doc, ts, p), ts).Some? && Put(Put(doc, ts, p), ts, q) == Put(doc, ts, q) {
      LensLaws(doc, ts, p, q);
    }
  }

  /** An `add` that is granted a new place: a fresh member, or any position of
      an array that is given by number. */
  ghost predicate AddsNewPlace(doc: Json, path: string) {
    && path != "" && Parent(doc, path).Some?
    && var p, last := Parent(doc, path).value.1, SplitPointer(path).1;
    (p.Obj? && last !in p.members) || (p.Arr? && last != "-")
  }

  lemma AddThenRemoveIn(p: Json, last: string, v: Json)
    requires SetIn(p, last, v, true).Ok?
    ensures RemoveIn(SetIn(p, last, v, true).value, last) == Ok(p)
        <==> (p.Obj? && last !in p.members) || (p.Arr? && last != "-")
  {
    hide Decimal;
    var q := SetIn(p, last, v, true).value;
    if p.Obj? {
      if last !in p.members {
        assert p.members[last := v] - {last} == p.members;
      }
    } else if last == "-" {
      assert ParseUsize("-").None?;
    } else {
      var i := ParseUsize(last).value;
      assert q.items[..i] + q.items[i + 1..] == p.items;
    }
  }

  /** `add` then `remove` of the same path restores the document exactly when
      the add made a new place: not when it overwrote a member, nor at the
      array end marker, which `remove` does not understand. */
  lemma AddThenRemove(doc: Json, path: string, v: Json)
    requires path != "" && Set(doc, path, v, true).Ok?
    ensures Remove(Set(doc, path, v, true).value, path) == Ok(doc) <==> AddsNewPlace(doc, path)
  {
    hide SetIn, RemoveIn, Put, Get, Tokens, SplitPointer;
    var (ts, p) := Parent(doc, path).value;
    var last := SplitPointer(path).1;
    var q := SetIn(p, last, v, true).value;
    ParentAfter(doc, path, q);
    AddThenRemoveIn(p, last, v);
    var removed := RemoveIn(q, last);
    if removed.Ok? {
      var r := removed.value;
      ParentAfter(doc, path, r);
      assert Remove(Put(doc, ts, q), path) == Ok(Put(doc, ts, r));
      if Put(doc, ts, r) == doc {
        assert Parent(doc, path) == Some((ts, r));
      }
    }
  }

  /** The last token can be read back: a member name or a canonical index. */
  predicate Readable(p: Json, last: string) {
    p.Obj? || (p.Arr? && ParseIndex(last).Some?)
  }

  lemma SetThenChild(p: Json, last: string, v: Json, add: bool)
    requires SetIn(p, last, v, add).Ok?
    ensures Child(SetIn(p, last, v, add).value, last) == Some(v) <==> Readable(p, last)
  {
    StrictIsLoose(last);
    hide ParseIndex, ParseUsize;
  }

  /** What was added or replaced is what is read next, exactly when the last
      token is a member name or a canonical index. */
  lemma SetThenRead(doc: Json, path: string, v: Json, add: bool)
    requires Inner(path) && Set(doc, path, v, add).Ok?
    ensures Read(Set(doc, path, v, add).value, path) == Some(v)
        <==> Readable(Parent(doc, path).value.1, SplitPointer(path).1)
  {
    hide SetIn, Put, Get, Tokens, SplitPointer, Readable, Child, Read;
    var (ts, p) := Parent(doc, path).value;
    var last := SplitPointer(path).1;
    var q := SetIn(p, last, v, add).value;
    ParentAfter(doc, path, q);
    SetThenChild(p, last, v, add);
    ReadIsChild(Put(doc, ts, q), path);
  }

  lemma ReplaceIsPutChild(p: Json, last: string, v: Json)
    requires Readable(p, last) && SetIn(p, last, v, false).Ok?
    ensures Child(p, last).Some? && SetIn(p, last, v, false).value == PutChild(p, last, v)
  {
    StrictIsLoose(last);
    hide ParseIndex, ParseUsize;
  }

  /** `replace` of an existing member or canonical index leaves every path, given
      by its tokens, that is not above or below it unchanged. */
  lemma {:induction false} ReplaceElsewhere(doc: Json, path: string, v: Json, other: seq<string>)
    requires Inner(path) && Set(doc, path, v, false).Ok?
    requires Readable(Parent(doc, path).value.1, SplitPointer(path).1)
    requires Unrelated(Tokens(path).value, other)
    ensures Get(Set(doc, path, v, false).value, other) == Get(doc, other)
  {
    hide SetIn, Put, Get, Tokens, SplitPointer, Readable, Child, Unrelated, PutChild;
    var (ts, p) := Parent(doc, path).value;
    var last := SplitPointer(path).1;
    SplitIsLastToken(path);
    ReplaceIsPutChild(p, last, v);
    PutStep(doc, ts, last, v);
    PutElsewhere(doc, ts + [last], v, other);
  }

  /** The position an unreadable last token really writes to. */
  lemma UnreadableWrites(p: Json, last: string, v: Json)
    requires !Readable(p, last) && SetIn(p, last, v, false).Ok? && SetIn(p, last, v, false).value != p
    requires p.Arr? ==> |p.items| < WORD
    ensures exists i: nat :: i < WORD && DecimalText(i) != last
              && Child(SetIn(p, last, v, false).value, DecimalText(i)) != Child(p, DecimalText(i))
  {
    var q := SetIn(p, last, v, false).value;
    var i := if last == "-" then |p.items| else ParseUsize(last).value;
    if last != "-" {
      assert p.items[i := p.items[i]] == p.items;
    }
    IndexOfText(i);
    hide ParseIndex, ParseUsize, DecimalText;
    assert Child(q, DecimalText(i)) == Some(v);
  }

  /** The condition is needed: with the end marker, which `replace` takes for
      an append, or with an index like `01`, a replace that changes anything
      changes a path that is neither above nor below the one it names. */
  lemma UnreadableReplaceStrays(doc: Json, path: string, v: Json)
    requires Inner(path) && Set(doc, path, v, false).Ok? && Set(doc, path, v, false).value != doc
    requires !Readable(Parent(doc, path).value.1, SplitPointer(path).1)
    requires var p := Parent(doc, path).value.1; p.Arr? ==> |p.items| < WORD
    ensures exists other: string :: Tokens(other).Some? && Unrelated(Tokens(path).value, Tokens(other).value)
              && Read(Set(doc, path, v, false).value, other) != Read(doc, other)
  {
    hide SetIn, Put, Get, Tokens, SplitPointer, Readable, Child;
    var (ts, p) := Parent(doc, path).value;
    var last := SplitPointer(path).1;
    var q := SetIn(p, last, v, false).value;
    ParentAfter(doc, path, q);
    UnreadableWrites(p, last, v);
    var i: nat :| i < WORD && DecimalText(i) != last && Child(q, DecimalText(i)) != Child(p, DecimalText(i));
    var token := DecimalText(i);
    var other := PointerTo(ts + [token]);
    TokensOfPointer(ts + [token]);
    SplitIsLastToken(path);
    GetStep(doc, ts, token);
    GetStep(Put(doc, ts, q), ts, token);
    assert (ts + [token])[|ts|] != (ts + [last])[|ts|];
    assert Unrelated(Tokens(path).value, Tokens(other).value);
  }

  lemma PlainKey(c: char)
    requires c != '~' && c != '/'
    ensures Escape([c]) == [c]
  {
    assert Escape([c]) == EscapeChar(c) + Escape([c][1..]);
  }

  /** A last token of one character. */
  lemma OneCharPath(parent: string, c: char)
    requires c != '~' && c != '/'
    ensures SplitPointer(parent + "/" + [c]) == (parent, [c])
    ensures parent == "" ==> Tokens(parent + "/" + [c]) == Some([[c]])
  {
    hide SplitPointer, Escape, Tokens;
    PlainKey(c);
    SplitPointerInverts(parent, [c]);
    if parent == "" {
      SplitIsLastToken(parent + "/" + [c]);
      EmptyTokens();
      assert Tokens("").value + [[c]] == [[c]];
    }
  }

  lemma DashIsNoIndex()
    ensures SplitPointer("/-") == ("", "-") && ParseIndex("-").None? && ParseUsize("-").None?
  {
    hide SplitPointer;
    OneCharPath("", '-');
    assert "/-" == "" + "/" + ['-'];
    assert !IsDigit("-"[0]);
  }

  lemma ZeroOnePath()
    ensures SplitPointer("/01") == ("", "01") && ParseUsize("01") == Some(1) && ParseIndex("01").None?
  {
    var key := "01";
    assert Escape(key) == EscapeChar('0') + Escape(key[1..]);
    assert key[1..] == ['1'];
    PlainKey('1');
    assert "/01" == "" + "/" + Escape(key);
    SplitPointerInverts("", key);
    assert key[..1] == "0" && "0"[..0] == "";
    assert Decimal("0") == 0;
  }

  /** Two inputs that stray, in every array: `-` appends, `01` overwrites index 1. */
  lemma StrayingReplaces(items: seq<Json>, v: Json)
    ensures !Readable(Arr(items), "-") && Set(Arr(items), "/-", v, false) == Ok(Arr(items + [v]))
    ensures |items| >= 2 ==> !Readable(Arr(items), "01") && Set(Arr(items), "/01", v, false) == Ok(Arr(items[1 := v]))
  {
    hide SplitPointer, Tokens, ParseUsize, ParseIndex;
    DashIsNoIndex();
    ZeroOnePath();
    EmptyTokens();
  }

  lemma MoveSelfIn(p: Json, last: string)
    requires Child(p, last).Some?
    ensures RemoveIn(p, last).Ok? && SetIn(RemoveIn(p, last).value, last, Child(p, last).value, true) == Ok(p)
  {
    StrictIsLoose(last);
    hide ParseIndex, ParseUsize;
    if p.Obj? {
      assert (p.members - {last})[last := p.members[last]] == p.members;
    } else {
      var i := ParseIndex(last).value;
      var cut := p.items[..i] + p.items[i + 1..];
      assert cut[..i] + [p.items[i]] + cut[i..] == p.items;
    }
  }

  /** Moving a value that can be read to its own place changes nothing; the
      root, which cannot be removed, is refused. */
  lemma MoveToItself(doc: Json, path: string)
    requires Read(doc, path).Some?
    ensures Do(doc, Move(path, path)) == (doc, if path == "" then Some(Unsupported) else None)
  {
    hide SetIn, RemoveIn, Put, Get, Tokens, SplitPointer, Child;
    if path != "" {
      ReadableIsInner(doc, path);
      ReadIsChild(doc, path);
      var (ts, p) := Parent(doc, path).value;
      var last := SplitPointer(path).1;
      MoveSelfIn(p, last);
      ParentAfter(doc, path, RemoveIn(p, last).value);
    }
  }

  lemma ReadableIsInner(doc: Json, path: string)
    requires Read(doc, path).Some? && path != ""
    ensures Inner(path)
  {
  }

  lemma RemoveInShrinks(p: Json, last: string)
    requires RemoveIn(p, last).Ok?
    ensures RemoveIn(p, last).value != p
  {
    hide ParseUsize;
    if p.Arr? {
      assert |RemoveIn(p, last).value.items| < |p.items|;
    }
  }

  /** A failing move leaves the document alone only if its source cannot be
      read or is the root; otherwise the source is already gone. */
  lemma FailingMove(doc: Json, from: string, path: string)
    requires Do(doc, Move(from, path)).1.Some?
    ensures Do(doc, Move(from, path)).0 == doc <==> Read(doc, from).None? || from == ""
  {
    hide SetIn, RemoveIn, Put, Get, Tokens, SplitPointer, Child, Set;
    if Read(doc, from).Some? && from != "" {
      ReadableIsInner(doc, from);
      ReadIsChild(doc, from);
      var (ts, p) := Parent(doc, from).value;
      var last := SplitPointer(from).1;
      MoveSelfIn(p, last);
      RemoveInShrinks(p, last);
      var cut := RemoveIn(p, last).value;
      ParentAfter(doc, from, cut);
      assert Parent(Put(doc, ts, cut), from) != Parent(doc, from);
    }
  }

  lemma LostPaths()
    ensures Tokens("/a") == Some(["a"]) && SplitPointer("/a") == ("", "a")
    ensures SplitPointer("/b/c") == ("/b", "c") && Tokens("/b") == Some(["b"])
  {
    hide SplitPointer, Tokens;
    OneCharPath("", 'a');
    OneCharPath("", 'b');
    OneCharPath("/b", 'c');
    assert "/a" == "" + "/" + ['a'] && "/b" == "" + "/" + ['b'] && "/b/c" == "/b" + "/" + ['c'];
  }

  /** An input on which a failing move loses its source, whatever the value:
      the destination's parent is missing. */
  lemma LosingMove(v: Json)
    ensures Do(Obj(map["a" := v]), Move("/a", "/b/c")) == (Obj(map[]), Some(PreconditionFailed))
  {
    var doc := Obj(map["a" := v]);
    hide SplitPointer, Tokens;
    LostPaths();
    EmptyTokens();
    assert map["a" := v] - {"a"} == map[];
    assert Get(doc, ["a"]) == Some(v) by { assert ["a"][1..] == []; }
    assert Remove(doc, "/a") == Ok(Obj(map[]));
    assert Get(Obj(map[]), ["b"]).None?;
  }

  /** A patch is not atomic: when it fails, some operation failed after all
      earlier ones succeeded, and their effect stays. */
  lemma {:induction false} FailureKeepsPrefix(doc: Json, ops: seq<Op>) returns (k: nat)
    requires Patched(doc, ops).1.Some?
    ensures k < |ops| && Patched(doc, ops[..k]).1.None?
    ensures Patched(doc, ops) == Do(Patched(doc, ops[..k]).0, ops[k])
    decreases |ops|
  {
    hide Do;
    if Do(doc, ops[0]).1.Some? {
      k := 0;
      assert ops[..0] == [];
    } else {
      var rest := FailureKeepsPrefix(Do(doc, ops[0]).0, ops[1..]);
      k := rest + 1;
      assert ops[..k][0] == ops[0] && ops[..k][1..] == ops[1..][..rest];
    }
  }

  /** A value that was copied or moved is found at its destination, exactly
      when the last token there can be read. */
  lemma TransferThenRead(doc: Json, op: Op, path: string)
    requires (op.Copy? || op.Move?) && op.path == path && Inner(path) && Do(doc, op).1.None?
    ensures Read(doc, op.from).Some?
    ensures var base := if op.Copy? then doc else Remove(doc, op.from).value;
            && Parent(base, path).Some?
            && (Read(Do(doc, op).0, path) == Read(doc, op.from)
                <==> Readable(Parent(base, path).value.1, SplitPointer(path).1))
  {
    hide Read, Remove, SplitPointer, Readable;
    var base := if op.Copy? then doc else Remove(doc, op.from).value;
    SetThenRead(base, path, Read(doc, op.from).value, true);
  }
}
