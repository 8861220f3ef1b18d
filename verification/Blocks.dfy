/** The brace-delimited block extractor of the N3 patch reader. */
module Blocks {
  import opened Text

  // ---------------------------------------------------------- specification

  predicate WordChar(c: char) {
    IsAsciiAlnum(c) || c == '_'
  }

  predicate StandsAt(s: string, needle: string, p: nat) {
    p + |needle| <= |s| && s[p..p + |needle|] == needle
  }

  /** The keyword `kw`, in lower case, occurs at `p`, ignoring case. */
  predicate Occurs(src: string, kw: string, p: nat) {
    StandsAt(Lower(src), kw, p)
  }

  predicate LeftBoundary(src: string, p: nat)
    requires p <= |src|
  {
    p == 0 || !WordChar(src[p - 1])
  }

  function Delta(c: char): int {
    if c == '{' then 1 else if c == '}' then -1 else 0
  }

  /** Brace depth of `src[open..k]`. */
  function Depth(src: string, open: nat, k: nat): int
    requires open <= k <= |src|
    decreases k
  {
    if open == k then 0 else Depth(src, open, k - 1) + Delta(src[k - 1])
  }

  /** `src[open..end]` opens with a brace and closes it with its last character. */
  ghost predicate Balanced(src: string, open: nat, end: nat) {
    && open < end <= |src| && src[open] == '{'
    && Depth(src, open, end) == 0
    && forall k | open < k < end :: Depth(src, open, k) > 0
  }

  /** A block the reader is meant to find: a keyword at a left word boundary,
      white space, then a balanced block. */
  ghost predicate Qualifies(src: string, kw: string, p: nat, open: nat, end: nat) {
    && p + |kw| <= open <= |src|
    && Occurs(src, kw, p) && LeftBoundary(src, p)
    && (forall i | p + |kw| <= i < open :: IsWhitespace(src[i]))
    && Balanced(src, open, end)
  }

  // --------------------------------------------------------- as a function

  /** The depth-counting scan: where the block being read closes. */
  function CloseFrom(src: string, i: nat, depth: int): (r: Option<nat>)
    requires i <= |src|
    ensures r.Some? ==> i < r.value <= |src|
    decreases |src| - i
  {
    if i == |src| then None
    else if src[i] == '}' && depth - 1 == 0 then Some(i + 1)
    else CloseFrom(src, i + 1, depth + Delta(src[i]))
  }

  function OpenAfter(src: string, p: nat): (r: nat)
    requires p <= |src|
    ensures p <= r <= |src|
    ensures forall i | p <= i < r :: IsWhitespace(src[i])
    ensures r < |src| ==> !IsWhitespace(src[r])
  {
    |src| - |TrimStart(src[p..])|
  }

  /** The block introduced by an occurrence of `kw` at `p`, if there is one. */
  function BlockAt(src: string, kw: string, p: nat): (r: Option<(nat, nat)>)
    ensures r.Some? ==> r.value.0 < r.value.1 <= |src|
  {
    if |src| < p + |kw| || !Occurs(src, kw, p) || !LeftBoundary(src, p) then None
    else
      var open := OpenAfter(src, p + |kw|);
      if open == |src| || src[open] != '{' then None
      else
        match CloseFrom(src, open, 0)
        case None => None
        case Some(end) => Some((open, end))
  }

  function FirstBlock(src: string, kw: string, p: nat): (r: Option<(nat, nat)>)
    ensures r.Some? ==> r.value.0 < r.value.1 <= |src|
    decreases |src| - p
  {
    if |src| < p then None
    else if BlockAt(src, kw, p).Some? then BlockAt(src, kw, p)
    else FirstBlock(src, kw, p + 1)
  }

  function FindBlock(src: string, kws: seq<string>): (r: Option<(nat, nat)>)
    ensures r.Some? ==> r.value.0 < r.value.1 <= |src|
  {
    if kws == [] then None
    else if FirstBlock(src, kws[0], 0).Some? then FirstBlock(src, kws[0], 0)
    else FindBlock(src, kws[1..])
  }

  // ------------------------------------------------- function meets meaning

  lemma {:induction false} CloseFromExact(src: string, open: nat, i: nat)
    requires open < |src| && src[open] == '{' && open <= i <= |src|
    requires forall k | open < k <= i :: Depth(src, open, k) > 0
    ensures var r := CloseFrom(src, i, Depth(src, open, i));
            && (r.Some? ==> Balanced(src, open, r.value))
            && (forall end: nat :: Balanced(src, open, end) ==> r == Some(end))
    decreases |src| - i
  {
    if i < |src| {
      assert Depth(src, open, i + 1) == Depth(src, open, i) + Delta(src[i]);
      if src[i] == '}' && Depth(src, open, i) - 1 == 0 {
        assert Balanced(src, open, i + 1);
      } else {
        CloseFromExact(src, open, i + 1);
      }
    }
  }

  lemma OpenIsUnique(src: string, kw: string, p: nat, open: nat, end: nat)
    requires Qualifies(src, kw, p, open, end)
    ensures open == OpenAfter(src, p + |kw|) && open < |src| && src[open] == '{'
  {
    assert !IsWhitespace('{');
  }

  /** `BlockAt` finds a block exactly when the occurrence qualifies. */
  lemma {:induction false} BlockAtExact(src: string, kw: string, p: nat, open: nat, end: nat)
    ensures BlockAt(src, kw, p) == Some((open, end)) <==> Qualifies(src, kw, p, open, end)
  {
    hide CloseFrom, OpenAfter, Occurs, Balanced, IsWhitespace, WordChar;
    if p + |kw| <= |src| && Occurs(src, kw, p) && LeftBoundary(src, p) {
      var o := OpenAfter(src, p + |kw|);
      if o < |src| && src[o] == '{' {
        CloseFromExact(src, o, o);
      }
      if Qualifies(src, kw, p, open, end) {
        OpenIsUnique(src, kw, p, open, end);
      }
    }
  }

  lemma {:induction false} FirstBlockExact(src: string, kw: string, p: nat)
    ensures match FirstBlock(src, kw, p)
            case None => forall q | p <= q :: BlockAt(src, kw, q).None?
            case Some(b) =>
              exists q :: p <= q && BlockAt(src, kw, q) == Some(b)
                          && forall r | p <= r < q :: BlockAt(src, kw, r).None?
    decreases |src| - p
  {
    hide BlockAt;
    if |src| < p {
      forall q | p <= q ensures BlockAt(src, kw, q).None? {
        NoBlockPastEnd(src, kw, q);
      }
    } else if BlockAt(src, kw, p).None? {
      FirstBlockExact(src, kw, p + 1);
    }
  }

  lemma NoBlockPastEnd(src: string, kw: string, q: nat)
    requires |src| < q
    ensures BlockAt(src, kw, q).None?
  {
  }

  /** No position in `src` yields a block for `kw`. */
  ghost predicate NoBlock(src: string, kw: string) {
    forall p, open, end :: !Qualifies(src, kw, p, open, end)
  }

  lemma NoBlockIff(src: string, kw: string)
    ensures NoBlock(src, kw) <==> FirstBlock(src, kw, 0).None?
  {
    hide BlockAt, Qualifies, FirstBlock;
    FirstBlockExact(src, kw, 0);
    if FirstBlock(src, kw, 0).None? {
      forall p, open, end ensures !Qualifies(src, kw, p, open, end) {
        BlockAtExact(src, kw, p, open, end);
      }
    } else {
      var b := FirstBlock(src, kw, 0).value;
      var q :| 0 <= q && BlockAt(src, kw, q) == Some(b);
      BlockAtExact(src, kw, q, b.0, b.1);
    }
  }

  /** Sound, complete and first: the extractor answers with the first
      qualifying occurrence of the first keyword that has one, and with `None`
      only when no keyword has one. */
  lemma {:induction false} FindBlockExact(src: string, kws: seq<string>)
    ensures FindBlock(src, kws).None? <==> forall k | 0 <= k < |kws| :: NoBlock(src, kws[k])
    ensures FindBlock(src, kws).Some? ==>
              exists k, p ::
                && 0 <= k < |kws| && 0 <= p
                && Qualifies(src, kws[k], p, FindBlock(src, kws).value.0, FindBlock(src, kws).value.1)
                && (forall j | 0 <= j < k :: NoBlock(src, kws[j]))
                && (forall r | 0 <= r < p :: BlockAt(src, kws[k], r).None?)
  {
    hide BlockAt, Qualifies, FirstBlock, NoBlock;
    if kws != [] {
      NoBlockIff(src, kws[0]);
      if FirstBlock(src, kws[0], 0).Some? {
        FirstBlockExact(src, kws[0], 0);
        var b := FirstBlock(src, kws[0], 0).value;
        var q :| 0 <= q && BlockAt(src, kws[0], q) == Some(b)
                 && forall r | 0 <= r < q :: BlockAt(src, kws[0], r).None?;
        BlockAtExact(src, kws[0], q, b.0, b.1);
      } else {
        FindBlockExact(src, kws[1..]);
        if FindBlock(src, kws).Some? {
          var b := FindBlock(src, kws).value;
          var k, p :|
            && 0 <= k < |kws| - 1 && 0 <= p
            && Qualifies(src, kws[1..][k], p, b.0, b.1)
            && (forall j | 0 <= j < k :: NoBlock(src, kws[1..][j]))
            && (forall r | 0 <= r < p :: BlockAt(src, kws[1..][k], r).None?);
          assert kws[k + 1] == kws[1..][k];
          forall j | 0 <= j < k + 1 ensures NoBlock(src, kws[j]) {
            if j > 0 { assert kws[j] == kws[1..][j - 1]; }
          }
        } else {
          forall j | 0 <= j < |kws| ensures NoBlock(src, kws[j]) {
            if j > 0 { assert kws[j] == kws[1..][j - 1]; }
          }
        }
      }
    }
  }

  // ----------------------------------------------------------- as it is run

  /** The search restarts after a whole keyword, so it must be impossible for
      a skipped, overlapping occurrence to stand at a word boundary. */
  predicate Searchable(kw: string) {
    && kw != "" && Lower(kw) == kw
    && forall d | 0 < d < |kw| && kw[d] == kw[0] :: WordChar(kw[d - 1])
  }

  const INSERT_KEYWORDS := ["insert", "inserts", "solid:inserts"]
  const DELETE_KEYWORDS := ["delete", "deletes", "solid:deletes"]
  const WHERE_KEYWORDS := ["where", "solid:where"]

  lemma KeywordsAreSearchable()
    ensures forall i | 0 <= i < |INSERT_KEYWORDS| :: Searchable(INSERT_KEYWORDS[i])
    ensures forall i | 0 <= i < |DELETE_KEYWORDS| :: Searchable(DELETE_KEYWORDS[i])
    ensures forall i | 0 <= i < |WHERE_KEYWORDS| :: Searchable(WHERE_KEYWORDS[i])
  {
    assert Searchable("insert") by { PlainIsSearchable("insert"); }
    assert Searchable("inserts") by { PlainIsSearchable("inserts"); }
    assert Searchable("delete") by { PlainIsSearchable("delete"); }
    assert Searchable("deletes") by { PlainIsSearchable("deletes"); }
    assert Searchable("where") by { PlainIsSearchable("where"); }
    hide Searchable;
    SolidInserts();
    SolidDeletes();
    SolidWhere();
  }

  lemma PlainIsSearchable(kw: string)
    requires kw != "" && forall i | 0 <= i < |kw| :: 'a' <= kw[i] <= 'z'
    ensures Searchable(kw)
  {
  }

  lemma SolidInserts()
    ensures Searchable("solid:inserts")
  {
  }

  lemma SolidDeletes()
    ensures Searchable("solid:deletes")
  {
  }

  lemma SolidWhere()
    ensures Searchable("solid:where")
  {
  }

  /** `str::find` from an offset. */
  function Find(s: string, needle: string, from: nat): (r: Option<nat>)
    requires from <= |s|
    ensures r.Some? ==> from <= r.value && StandsAt(s, needle, r.value)
    ensures forall q | from <= q && (r.Some? ==> q < r.value) :: !StandsAt(s, needle, q)
    decreases |s| - from
  {
    if StandsAt(s, needle, from) then Some(from)
    else if from == |s| then None
    else Find(s, needle, from + 1)
  }

  lemma OverlapIsInsideAWord(src: string, kw: string, p: nat, q: nat)
    requires Searchable(kw) && Occurs(src, kw, p) && p < q < p + |kw|
    ensures BlockAt(src, kw, q).None?
  {
    if Occurs(src, kw, q) {
      var low := Lower(src);
      assert low[q] == low[q..q + |kw|][0] == kw[0];
      assert low[q] == low[p..p + |kw|][q - p] == kw[q - p];
      assert low[q - 1] == low[p..p + |kw|][q - p - 1] == kw[q - p - 1];
      assert WordChar(LowerChar(src[q - 1]));
    }
  }

  lemma {:induction false} SkipTo(src: string, kw: string, p: nat, q: nat)
    requires p <= q && forall r | p <= r < q :: BlockAt(src, kw, r).None?
    ensures FirstBlock(src, kw, p) == FirstBlock(src, kw, q)
    decreases q - p
  {
    hide BlockAt;
    if p < q {
      if p <= |src| {
        SkipTo(src, kw, p + 1, q);
      } else {
        assert FirstBlock(src, kw, q).None?;
      }
    }
  }

  /** Counts braces from `open` and stops where the depth returns to zero. */
  method MatchBrace(src: string, open: nat) returns (end: Option<nat>)
    requires open <= |src|
    ensures end == CloseFrom(src, open, 0)
  {
    var depth := 0;
    for i := open to |src|
      invariant CloseFrom(src, open, 0) == CloseFrom(src, i, depth)
    {
      match src[i] {
        case '{' => depth := depth + 1;
        case '}' =>
          depth := depth - 1;
          if depth == 0 {
            return Some(i + 1);
          }
        case _ =>
      }
    }
    end := None;
  }

  method SearchKeyword(src: string, kw: string) returns (r: Option<(nat, nat)>)
    requires Searchable(kw)
    ensures r == FirstBlock(src, kw, 0)
  {
    hide BlockAt, FirstBlock, Searchable;
    var low := Lower(src);
    var from := 0;
    while true
      invariant from <= |src|
      invariant forall q | 0 <= q < from :: BlockAt(src, kw, q).None?
      decreases |src| - from
    {
      var found := Find(low, kw, from);
      if found.None? {
        forall q | 0 <= q ensures BlockAt(src, kw, q).None? {
          if from <= q { NotOccurring(src, kw, q); }
        }
        SkipTo(src, kw, 0, |src| + 1);
        PastEnd(src, kw);
        return None;
      }
      var at := found.value;
      var after := at + |kw|;
      forall q | 0 <= q < at ensures BlockAt(src, kw, q).None? {
        if from <= q { NotOccurring(src, kw, q); }
      }
      var block := TryBlock(src, kw, at);
      if block.Some? {
        SkipTo(src, kw, 0, at);
        FirstBlockHere(src, kw, at);
        return block;
      }
      forall q | 0 <= q < after ensures BlockAt(src, kw, q).None? {
        if at < q { OverlapIsInsideAWord(src, kw, at, q); }
      }
      SearchableIsNonEmpty(kw);
      from := after;
    }
  }

  lemma SearchableIsNonEmpty(kw: string)
    requires Searchable(kw)
    ensures |kw| > 0
  {
  }

  lemma PastEnd(src: string, kw: string)
    ensures FirstBlock(src, kw, |src| + 1).None?
  {
  }

  lemma FirstBlockHere(src: string, kw: string, p: nat)
    requires p <= |src| && BlockAt(src, kw, p).Some?
    ensures FirstBlock(src, kw, p) == BlockAt(src, kw, p)
  {
  }

  lemma NotOccurring(src: string, kw: string, q: nat)
    requires !Occurs(src, kw, q)
    ensures BlockAt(src, kw, q).None?
  {
  }

  /** One iteration of the search: boundary, white space, brace, match. */
  method TryBlock(src: string, kw: string, at: nat) returns (r: Option<(nat, nat)>)
    requires Occurs(src, kw, at)
    ensures r == BlockAt(src, kw, at)
  {
    hide CloseFrom, WordChar, IsWhitespace, TrimStart, Lower;
    if at != 0 && WordChar(src[at - 1]) {
      return None;
    }
    var tail := src[at + |kw|..];
    var trimmed := TrimStart(tail);
    if trimmed == "" || trimmed[0] != '{' {
      return None;
    }
    var open := at + |kw| + (|tail| - |trimmed|);
    assert open == OpenAfter(src, at + |kw|) && src[open] == '{';
    var end := MatchBrace(src, open);
    r := if end.Some? then Some((open, end.value)) else None;
  }

  /** `extract_block`: the bounds of the block it returns. */
  method ExtractBlock(src: string, kws: seq<string>) returns (r: Option<(nat, nat)>)
    requires forall i | 0 <= i < |kws| :: Searchable(kws[i])
    ensures r == FindBlock(src, kws)
  {
    hide FirstBlock, Searchable;
    for i := 0 to |kws|
      invariant FindBlock(src, kws) == FindBlock(src, kws[i..])
    {
      var block := SearchKeyword(src, kws[i]);
      assert kws[i..][1..] == kws[i + 1..];
      if block.Some? {
        return block;
      }
    }
    r := None;
  }
}
