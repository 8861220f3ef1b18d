/** What each JSON Patch operation does and when it is refused, member by member
    and position by position, as RFC 6902 puts it. */
module JsonPatchLaws {
  import opened Text
  import opened Json
  import opened JsonPointer
  import opened JsonPatch

  // -------------------------------------------------------------------- test

  /** After a set at a readable place, `test` passes for exactly that value. */
  lemma TestAfterSet(doc: Json, path: string, v: Json, add: bool, w: Json)
    requires Inner(path) && Set(doc, path, v, add).Ok?
    requires Readable(Parent(doc, path).value.1, SplitPointer(path).1)
    ensures var next := Set(doc, path, v, add).value;
            Do(next, Test(path, w)) == (next, if w == v then None else Some(PreconditionFailed))
  {
    hide Set, Read, Parent, SplitPointer, Readable;
    SetThenRead(doc, path, v, add);
  }

  /** `test` asks what a pointer reads: it passes for the value found, for no
      other, and for none where nothing is; it never changes the document. */
  lemma TestMeans(doc: Json, ts: seq<string>, w: Json)
    ensures Do(doc, Test(PointerTo(ts), w)) ==
            (doc, if Get(doc, ts) == Some(w) then None else Some(PreconditionFailed))
  {
    hide Tokens, PointerTo, Get;
    TokensOfPointer(ts);
  }

  lemma {:induction false} PatchedConcat(doc: Json, a: seq<Op>, b: seq<Op>)
    ensures Patched(doc, a + b) ==
            if Patched(doc, a).1.Some? then Patched(doc, a) else Patched(Patched(doc, a).0, b)
    decreases |a|
  {
    hide Do;
    if a == [] {
      assert a + b == b;
    } else {
      assert (a + b)[1..] == a[1..] + b;
      if Do(doc, a[0]).1.None? {
        PatchedConcat(Do(doc, a[0]).0, a[1..], b);
      }
    }
  }

  /** In a patch, a `test` that passes is as if it were not there, and one that
      fails ends the patch with the effect of the operations before it. */
  lemma TestInPatch(doc: Json, a: seq<Op>, ts: seq<string>, w: Json, b: seq<Op>)
    requires Patched(doc, a).1.None?
    ensures Patched(doc, a + ([Test(PointerTo(ts), w)] + b)) ==
            if Get(Patched(doc, a).0, ts) == Some(w) then Patched(doc, a + b)
            else (Patched(doc, a).0, Some(PreconditionFailed))
  {
    hide Do, PointerTo, Get;
    var mid := Patched(doc, a).0;
    TestMeans(mid, ts, w);
    PatchedConcat(doc, a, [Test(PointerTo(ts), w)] + b);
    PatchedConcat(doc, a, b);
    assert ([Test(PointerTo(ts), w)] + b)[1..] == b;
  }

  // ----------------------------------------------------------- copy and move

  /** `copy` is an `add` of what is read; `move` is a `remove` and such an `add`. */
  lemma CopyAndMove(doc: Json, from: string, path: string)
    ensures Do(doc, Copy(from, path)) ==
            match Read(doc, from) case None => (doc, Some(PreconditionFailed)) case Some(v) => Do(doc, Add(path, v))
    ensures Do(doc, Move(from, path)) ==
            match Read(doc, from)
            case None => (doc, Some(PreconditionFailed))
            case Some(v) => Patched(doc, [RemoveOp(from), Add(path, v)])
  {
    hide Read, Set, Remove;
    match Read(doc, from)
    case None =>
    case Some(v) =>
      var ops := [RemoveOp(from), Add(path, v)];
      assert ops[1..] == [Add(path, v)] && [Add(path, v)][1..] == [];
      var (mid, err) := Do(doc, RemoveOp(from));
      assert Patched(doc, ops) == if err.Some? then (mid, err) else Patched(mid, ops[1..]);
      assert Patched(mid, [Add(path, v)]) == Do(mid, Add(path, v)) by {
        assert Patched(Do(mid, Add(path, v)).0, []) == (Do(mid, Add(path, v)).0, None);
      }
  }

  /** The root can be set, as a whole, and not removed; an operation that does
      not decode changes nothing. */
  lemma RootAndMalformed(doc: Json, v: Json)
    ensures Do(doc, Add("", v)) == Do(doc, Replace("", v)) == (v, None)
    ensures Do(doc, RemoveOp("")) == (doc, Some(Unsupported)) && Do(doc, Malformed) == (doc, Some(Unsupported))
  {
  }

  // ---------------------------------------------------------------- containers

  /** A path into a container: `add`, `replace` and `remove` edit that container,
      there, or fail and change nothing. */
  lemma EditsContainer(doc: Json, ts: seq<string>, key: string, v: Json)
    ensures var path := PointerTo(ts) + "/" + Escape(key);
            match Get(doc, ts)
            case None =>
              && Do(doc, Add(path, v)) == (doc, Some(PreconditionFailed))
              && Do(doc, Replace(path, v)) == (doc, Some(PreconditionFailed))
              && Do(doc, RemoveOp(path)) == (doc, Some(PreconditionFailed))
            case Some(p) =>
              && Do(doc, Add(path, v)) == Written(doc, ts, SetIn(p, key, v, true))
              && Do(doc, Replace(path, v)) == Written(doc, ts, SetIn(p, key, v, false))
              && Do(doc, RemoveOp(path)) == Written(doc, ts, RemoveIn(p, key))
  {
    hide Tokens, PointerTo, Get, Put, SetIn, RemoveIn, SplitPointer, Escape;
    TokensOfPointer(ts);
    SplitPointerInverts(PointerTo(ts), key);
    assert PointerTo(ts) + "/" + Escape(key) != "";
  }

  /** The document with an edited container in its place. */
  function Written(doc: Json, ts: seq<string>, edit: Edit): (Json, Option<Error>)
    requires Get(doc, ts).Some?
  {
    match edit
    case Ok(p) => (Put(doc, ts, p), None)
    case Err(e) => (doc, Some(e))
  }

  /** A path without a slash names a member of the root, and cannot be read. */
  lemma SlashlessPath(doc: Json, key: string, v: Json, add: bool)
    requires key != "" && Lacks(key, '/')
    ensures Set(doc, key, v, add) == SetIn(doc, key, v, add) && Remove(doc, key) == RemoveIn(doc, key)
    ensures Read(doc, key) == None
  {
    hide SetIn, RemoveIn;
    assert SplitPointer(key) == ("", key);
    assert Parent(doc, key) == Some(([], doc));
  }

  /** Objects: `add` sets any member, `replace` and `remove` only one that is there. */
  lemma MemberEdits(m: map<string, Json>, key: string, v: Json, other: string)
    ensures var added := SetIn(Obj(m), key, v, true);
            && added.Ok? && added.value.Obj?
            && (other in added.value.members <==> other == key || other in m)
            && (other in added.value.members ==> added.value.members[other] == if other == key then v else m[other])
    ensures SetIn(Obj(m), key, v, false) == if key in m then SetIn(Obj(m), key, v, true) else Err(PreconditionFailed)
    ensures match RemoveIn(Obj(m), key)
            case Err(e) => key !in m && e == PreconditionFailed
            case Ok(r) => key in m && r.Obj? && (other in r.members <==> other in m && other != key)
                          && (other in r.members ==> r.members[other] == m[other])
  {
  }

  /** Arrays, by position: `add` shifts what follows, and is refused exactly
      beyond the end ... */
  lemma PositionAdd(a: seq<Json>, last: string, i: nat, v: Json)
    requires ParseUsize(last) == Some(i)
    ensures match SetIn(Arr(a), last, v, true)
            case Err(e) => |a| < i && e == PreconditionFailed
            case Ok(r) => i <= |a| && r.Arr? && |r.items| == |a| + 1 && r.items[i] == v
                          && (forall j | 0 <= j < i :: r.items[j] == a[j]) && (forall j | i < j <= |a| :: r.items[j] == a[j - 1])
  {
    assert last != "-" by { DashIsNoIndex(); }
    hide ParseUsize;
  }

  /** ... `replace` changes one position, and needs it to be there ... */
  lemma PositionReplace(a: seq<Json>, last: string, i: nat, v: Json)
    requires ParseUsize(last) == Some(i)
    ensures match SetIn(Arr(a), last, v, false)
            case Err(e) => |a| <= i && e == PreconditionFailed
            case Ok(r) => i < |a| && r.Arr? && |r.items| == |a| && r.items[i] == v
                          && (forall j | 0 <= j < |a| && j != i :: r.items[j] == a[j])
  {
    assert last != "-" by { DashIsNoIndex(); }
    hide ParseUsize;
  }

  /** ... and `remove` closes the gap. */
  lemma PositionRemove(a: seq<Json>, last: string, i: nat)
    requires ParseUsize(last) == Some(i)
    ensures match RemoveIn(Arr(a), last)
            case Err(e) => |a| <= i && e == PreconditionFailed
            case Ok(r) => i < |a| && r.Arr? && |r.items| == |a| - 1
                          && (forall j | 0 <= j < i :: r.items[j] == a[j])
                          && (forall j | i <= j < |a| - 1 :: r.items[j] == a[j + 1])
  {
    hide ParseUsize;
  }

  /** The end marker appends; what is no position is unsupported; anything but
      an object or an array holds nothing. */
  lemma OtherEdits(a: seq<Json>, last: string, p: Json, v: Json, add: bool)
    ensures SetIn(Arr(a), "-", v, add) == Ok(Arr(a + [v])) && RemoveIn(Arr(a), "-") == Err(Unsupported)
    ensures ParseUsize(last).None? ==>
              RemoveIn(Arr(a), last) == Err(Unsupported) && (last != "-" ==> SetIn(Arr(a), last, v, add) == Err(Unsupported))
    ensures !p.Obj? && !p.Arr? ==> SetIn(p, last, v, add) == RemoveIn(p, last) == Err(PreconditionFailed)
  {
    DashIsNoIndex();
    hide ParseUsize;
  }

  /** What a pointer reads: the document, then members by name and elements by
      their decimal position. */
  lemma ReadsStepwise(doc: Json, ts: seq<string>, key: string, i: nat)
    ensures Get(doc, []) == Some(doc)
    ensures var at := Get(doc, ts);
            && (at.Some? && at.value.Obj? ==>
                  Get(doc, ts + [key]) == if key in at.value.members then Some(at.value.members[key]) else None)
            && (at.Some? && at.value.Arr? ==>
                  Get(doc, ts + [DecimalText(i)]) == if i < WORD && i < |at.value.items| then Some(at.value.items[i]) else None)
            && (at.None? || !(at.value.Obj? || at.value.Arr?) ==> Get(doc, ts + [key]) == None)
  {
    hide DecimalText, ParseIndex, Get;
    assert Get(doc, []) == Some(doc) by { ReadsWhole(doc); }
    if Get(doc, ts).Some? {
      GetStep(doc, ts, key);
      GetStep(doc, ts, DecimalText(i));
      PositionTexts(i, 0);
    } else {
      NothingBelow(doc, ts, key);
    }
  }

  lemma ReadsWhole(doc: Json)
    ensures Get(doc, []) == Some(doc)
  {
  }

  lemma {:induction false} NothingBelow(doc: Json, ts: seq<string>, key: string)
    requires Get(doc, ts) == None
    ensures Get(doc, ts + [key]) == None
    decreases |ts|
  {
    hide Child;
    assert ts != [];
    var all := ts + [key];
    assert all[0] == ts[0] && all[1..] == ts[1..] + [key];
    match Child(doc, ts[0])
    case None =>
    case Some(c) => NothingBelow(c, ts[1..], key);
  }

  // ------------------------------------------------------------------ indices

  function Zeros(n: nat): (r: string)
    ensures |r| == n && forall i | 0 <= i < n :: r[i] == '0'
  {
    seq(n, _ => '0')
  }

  lemma {:induction false} DecimalOfConcat(zeros: string, s: string)
    requires (forall i | 0 <= i < |zeros| :: zeros[i] == '0') && (forall i | 0 <= i < |s| :: IsDigit(s[i]))
    ensures (forall i | 0 <= i < |zeros + s| :: IsDigit((zeros + s)[i])) && Decimal(zeros + s) == Decimal(s)
    decreases |s|, |zeros|
  {
    var all := zeros + s;
    if s != "" {
      DecimalOfConcat(zeros, s[..|s| - 1]);
      assert all[..|all| - 1] == zeros + s[..|s| - 1];
    } else if zeros != "" {
      DecimalOfConcat(zeros[..|zeros| - 1], "");
      assert all[..|all| - 1] == zeros[..|zeros| - 1] + "";
    }
  }

  lemma DigitsAre(t: string, n: nat)
    requires AllDigits(t) && Decimal(t) == n
    ensures ParseUsize(t) == ParseUsize("+" + t) == (if n < WORD then Some(n) else None)
    ensures ParseIndex(t) == (if t[0] == '0' && |t| != 1 then None else ParseUsize(t)) && ParseIndex("+" + t) == None
  {
    hide Decimal;
    assert IsDigit(t[0]);
    assert ("+" + t)[1..] == t;
  }

  /** Which texts are positions for an edit: an optional plus sign, any zeros,
      and the decimal digits of a 64-bit number. Reading allows the digits only. */
  lemma PositionTexts(n: nat, zeros: nat)
    ensures var digits := Zeros(zeros) + DecimalText(n);
            ParseUsize(digits) == ParseUsize("+" + digits) == if n < WORD then Some(n) else None
    ensures ParseIndex(DecimalText(n)) == if n < WORD then Some(n) else None
    ensures zeros > 0 ==> ParseIndex(Zeros(zeros) + DecimalText(n)) == None
    ensures ParseIndex("+" + DecimalText(n)) == None
  {
    hide DecimalText, Decimal, ParseUsize, ParseIndex;
    DecimalTextExact(n);
    DecimalOfConcat(Zeros(zeros), DecimalText(n));
    DigitsAre(DecimalText(n), n);
    DigitsAre(Zeros(zeros) + DecimalText(n), n);
  }

  lemma NoPosition(s: string)
    requires s == "" || s == "+" || exists i :: 0 < i < |s| && !IsDigit(s[i])
    ensures ParseUsize(s) == None
  {
    var t := if s != "" && s[0] == '+' then s[1..] else s;
    if i :| 0 < i < |s| && !IsDigit(s[i]) {
      assert s[0] == '+' ==> t[i - 1] == s[i];
    }
  }
}
