/** Patch documents as text: which part of a document the N3 reader takes for
    which clause, whatever the order of the clauses and the text around them. */
module N3Layout {
  import opened Text
  import opened NTriples
  import opened Blocks
  import opened RdfPatch

  // -------------------------------------------------------------- documents

  datatype Kind = Inserts | Deletes | Wheres

  function Keywords(kind: Kind): seq<string> {
    match kind
    case Inserts => INSERT_KEYWORDS
    case Deletes => DELETE_KEYWORDS
    case Wheres => WHERE_KEYWORDS
  }

  predicate IsKeyword(kind: Kind, w: string) {
    w in Keywords(kind)
  }

  /** One clause of a document, with the text that leads up to its keyword. */
  datatype Part = Part(kind: Kind, before: string, word: string, gap: string, body: string)

  function Lead(p: Part): string {
    p.before + p.word + p.gap
  }

  function Braced(body: string): string {
    "{" + body + "}"
  }

  function Render(parts: seq<Part>, tail: string): string {
    if parts == [] then tail else Lead(parts[0]) + Braced(parts[0].body) + Render(parts[1..], tail)
  }

  predicate BraceFree(s: string) {
    Lacks(s, '{') && Lacks(s, '}')
  }

  /** A keyword at a left word boundary, then white space, then a brace. */
  ghost predicate Opens(text: string, kw: string, at: nat, open: nat) {
    && at + |kw| <= open < |text| && text[open] == '{'
    && Occurs(text, kw, at) && LeftBoundary(text, at)
    && forall i | at + |kw| <= i < open :: IsWhitespace(text[i])
  }

  /** No keyword in this text is followed by a brace; other braces are free. */
  ghost predicate Quiet(text: string) {
    forall kind, kw, at, open | IsKeyword(kind, kw) :: !Opens(text, kw, at, open)
  }

  /** A keyword of its kind, in any case, not glued to a word; then white space
      and the block. */
  ghost predicate PartOk(p: Part) {
    && (p.before == "" || !WordChar(p.before[|p.before| - 1]))
    && IsKeyword(p.kind, Lower(p.word))
    && (forall i | 0 <= i < |p.gap| :: IsWhitespace(p.gap[i]))
    && Quiet(p.before) && Quiet(p.body)
  }

  /** Clauses in any order, none twice, with any quiet text in between. */
  ghost predicate DocumentOk(parts: seq<Part>, tail: string) {
    && Quiet(tail)
    && (forall k | 0 <= k < |parts| :: PartOk(parts[k]))
    && (forall j, k | 0 <= j < k < |parts| :: parts[j].kind != parts[k].kind)
  }

  // --------------------------------------------------------- block positions

  lemma {:induction false} FlatDepth(src: string, open: nat, k: nat)
    requires open < k <= |src| && src[open] == '{'
    requires forall i | open < i < k :: Delta(src[i]) == 0
    ensures Depth(src, open, k) == 1
    decreases k
  {
    if open + 1 < k {
      FlatDepth(src, open, k - 1);
    } else {
      assert Depth(src, open, open) == 0;
    }
  }

  lemma FlatBlock(src: string, open: nat, body: string)
    requires open + |body| + 2 <= |src| && src[open..open + |body| + 2] == "{" + body + "}"
    requires BraceFree(body)
    ensures Balanced(src, open, open + |body| + 2)
  {
    var end := open + |body| + 2;
    var block := "{" + body + "}";
    assert forall i | open <= i < end :: src[i] == block[i - open];
    assert forall i | open < i < end - 1 :: src[i] == body[i - open - 1];
    forall k | open < k < end ensures Depth(src, open, k) == 1 {
      FlatDepth(src, open, k);
    }
    assert Depth(src, open, end) == Depth(src, open, end - 1) + Delta(src[end - 1]);
  }

  /** Where the brace of part `k` stands. */
  function OpenOf(parts: seq<Part>, k: nat): nat
    requires k < |parts|
  {
    if k == 0 then |Lead(parts[0])|
    else |Lead(parts[0])| + |Braced(parts[0].body)| + OpenOf(parts[1..], k - 1)
  }

  lemma StandsSplit(src: string, a: string, b: string, p: nat)
    requires StandsAt(src, a + b, p)
    ensures StandsAt(src, a, p) && StandsAt(src, b, p + |a|)
  {
    var cut := src[p..p + |a| + |b|];
    assert src[p..p + |a|] == cut[..|a|] && src[p + |a|..p + |a| + |b|] == cut[|a|..];
  }

  lemma StandsShifted(pre: string, src: string, needle: string, p: nat)
    requires StandsAt(src, needle, p)
    ensures StandsAt(pre + src, needle, |pre| + p)
  {
    assert (pre + src)[|pre| + p..|pre| + p + |needle|] == src[p..p + |needle|];
  }

  lemma StandsChars(src: string, needle: string, p: nat)
    requires StandsAt(src, needle, p)
    ensures p + |needle| <= |src| && forall i | p <= i < p + |needle| :: src[i] == needle[i - p]
  {
    assert forall i | p <= i < p + |needle| :: src[i] == src[p..p + |needle|][i - p];
  }

  /** Part `p` stands in `src`, its brace at `o`, at the start or after a block. */
  ghost predicate Stands(src: string, o: nat, p: Part) {
    && |p.before| + |p.word| + |p.gap| <= o <= |src|
    && StandsAt(src, p.before, o - |p.gap| - |p.word| - |p.before|)
    && StandsAt(src, p.word, o - |p.gap| - |p.word|)
    && StandsAt(src, p.gap, o - |p.gap|)
    && StandsAt(src, Braced(p.body), o)
    && (o == |p.before| + |p.word| + |p.gap| || src[o - |p.gap| - |p.word| - |p.before| - 1] == '}')
  }

  lemma StandsLater(pre: string, src: string, o: nat, p: Part)
    requires Stands(src, o, p) && pre != "" && pre[|pre| - 1] == '}'
    ensures Stands(pre + src, |pre| + o, p)
  {
    hide StandsAt, Braced;
    StandsShifted(pre, src, p.before, o - |p.gap| - |p.word| - |p.before|);
    StandsShifted(pre, src, p.word, o - |p.gap| - |p.word|);
    StandsShifted(pre, src, p.gap, o - |p.gap|);
    StandsShifted(pre, src, Braced(p.body), o);
  }

  lemma StandsFirst(p: Part, rest: string)
    ensures Stands(Lead(p) + Braced(p.body) + rest, |Lead(p)|, p)
  {
    var text := p.before + p.word + p.gap + Braced(p.body);
    assert StandsAt(text + rest, text, 0);
    hide StandsAt, Braced;
    StandsSplit(text + rest, p.before + p.word + p.gap, Braced(p.body), 0);
    StandsSplit(text + rest, p.before + p.word, p.gap, 0);
    StandsSplit(text + rest, p.before, p.word, 0);
  }

  lemma {:induction false} PartStands(parts: seq<Part>, tail: string, k: nat)
    requires k < |parts|
    ensures Stands(Render(parts, tail), OpenOf(parts, k), parts[k])
    decreases |parts|
  {
    hide Stands, Lead;
    var p := parts[0];
    if k == 0 {
      StandsFirst(p, Render(parts[1..], tail));
    } else {
      PartStands(parts[1..], tail, k - 1);
      StandsLater(Lead(p) + Braced(p.body), Render(parts[1..], tail), OpenOf(parts[1..], k - 1), parts[k]);
    }
  }

  // ----------------------------------------------------- keywords and words

  lemma KeywordsEnd(kind: Kind, w: string)
    requires IsKeyword(kind, w)
    ensures |w| >= 2 && 'a' <= w[|w| - 1] <= 'z' && 'a' <= w[|w| - 2] <= 'z'
    ensures match kind
            case Inserts => w[|w| - 2..] == "rt" || w[|w| - 2..] == "ts"
            case Deletes => w[|w| - 2..] == "te" || w[|w| - 2..] == "es"
            case Wheres => w[|w| - 2..] == "re"
  {
  }

  lemma KeywordHasNoBrace(kind: Kind, w: string)
    requires IsKeyword(kind, Lower(w))
    ensures BraceFree(w)
  {
    var low := Lower(w);
    assert BraceFree(low);
    forall i | 0 <= i < |w| ensures w[i] != '{' && w[i] != '}' {
      assert low[i] == LowerChar(w[i]);
    }
  }

  lemma KeywordsDiffer(a: Kind, v: string, b: Kind, w: string)
    requires IsKeyword(a, v) && IsKeyword(b, w) && a != b
    ensures |v| >= 2 && |w| >= 2 && (v[|v| - 1] != w[|w| - 1] || v[|v| - 2] != w[|w| - 2])
  {
    hide *;
    KeywordsEnd(a, v);
    KeywordsEnd(b, w);
    assert v[|v| - 2..][0] == v[|v| - 2] && v[|v| - 2..][1] == v[|v| - 1];
    assert w[|w| - 2..][0] == w[|w| - 2] && w[|w| - 2..][1] == w[|w| - 1];
  }

  // -------------------------------------- where a keyword may open a block

  lemma KeywordIsBraceFree(kind: Kind, kw: string)
    requires IsKeyword(kind, kw)
    ensures BraceFree(kw)
  {
  }

  /** Between a keyword and the brace it opens there is no other brace. */
  lemma OpeningIsPlain(text: string, kind: Kind, kw: string, at: nat, open: nat, i: nat)
    requires IsKeyword(kind, kw) && Opens(text, kw, at, open) && at <= i < open
    ensures text[i] != '{' && text[i] != '}'
  {
    hide IsKeyword;
    KeywordIsBraceFree(kind, kw);
    if i < at + |kw| {
      assert Lower(text)[at..at + |kw|][i - at] == LowerChar(text[i]);
    } else {
      assert !IsWhitespace('{') && !IsWhitespace('}');
    }
  }

  lemma OccursInside(pre: string, text: string, post: string, kw: string, at: nat)
    requires Occurs(pre + text + post, kw, at) && |pre| <= at && at + |kw| <= |pre| + |text|
    ensures Occurs(text, kw, at - |pre|)
  {
    var src := pre + text + post;
    var low, p := Lower(src), at - |pre|;
    assert src[|pre|..|pre| + |text|] == text;
    assert low[|pre|..|pre| + |text|] == Lower(text);
    assert Lower(text)[p..p + |kw|] == low[at..at + |kw|];
  }

  /** An opening whose brace lies in a piece of text that starts the document
      or follows a brace lies wholly in that piece. */
  lemma OpensInside(pre: string, text: string, post: string, kind: Kind, kw: string, at: nat, open: nat)
    requires pre == "" || pre[|pre| - 1] == '{' || pre[|pre| - 1] == '}'
    requires IsKeyword(kind, kw) && Opens(pre + text + post, kw, at, open) && |pre| <= open < |pre| + |text|
    ensures |pre| <= at && Opens(text, kw, at - |pre|, open - |pre|)
  {
    hide *;
    var src := pre + text + post;
    OpensFacts(src, kw, at, open);
    if at < |pre| {
      OpeningIsPlain(src, kind, kw, at, open, |pre| - 1);
    }
    OccursInside(pre, text, post, kw, at);
    BoundaryInside(pre, text, post, at);
    WhiteInside(pre, text, post, at + |kw|, open);
    AllOpens(text, kw, at - |pre|, open - |pre|);
  }

  lemma BoundaryInside(pre: string, text: string, post: string, at: nat)
    requires |pre| <= at < |pre| + |text| && LeftBoundary(pre + text + post, at)
    ensures LeftBoundary(text, at - |pre|)
  {
    hide WordChar;
    assert at > |pre| ==> (pre + text + post)[at - 1] == text[at - |pre| - 1];
  }

  lemma WhiteInside(pre: string, text: string, post: string, a: nat, open: nat)
    requires |pre| <= a <= open < |pre| + |text| && forall i | a <= i < open :: IsWhitespace((pre + text + post)[i])
    ensures forall i | a - |pre| <= i < open - |pre| :: IsWhitespace(text[i])
    ensures (pre + text + post)[open] == text[open - |pre|]
  {
    hide *;
    forall i | a - |pre| <= i < open - |pre| ensures IsWhitespace(text[i]) {
      assert (pre + text + post)[|pre| + i] == text[i];
    }
  }

  /** The brace of an opening is the brace of a part. */
  lemma {:induction false} OpensOnly(parts: seq<Part>, tail: string, kind: Kind, kw: string, at: nat, open: nat)
    returns (k: nat)
    requires Quiet(tail) && forall k | 0 <= k < |parts| :: PartOk(parts[k])
    requires IsKeyword(kind, kw) && Opens(Render(parts, tail), kw, at, open)
    ensures k < |parts| && open == OpenOf(parts, k)
    decreases |parts|
  {
    hide IsKeyword, Opens, Quiet, PartOk, Lead, Braced;
    if parts == [] {
      k := 0;
      QuietHasNone(tail, kind, kw, at, open);
    } else {
      var p, rest := parts[0], Render(parts[1..], tail);
      var first := Lead(p) + Braced(p.body);
      OpensBounds(first + rest, kw, at, open);
      BracedEnds(p);
      if open < |first| {
        OpensInFirst(p, rest, kind, kw, at, open);
        k := 0;
      } else {
        assert first + rest + "" == first + rest;
        OpensInside(first, rest, "", kind, kw, at, open);
        k := OpensOnly(parts[1..], tail, kind, kw, at - |first|, open - |first|);
        k := k + 1;
      }
    }
  }

  lemma QuietHasNone(text: string, kind: Kind, kw: string, at: nat, open: nat)
    requires Quiet(text) && IsKeyword(kind, kw)
    ensures !Opens(text, kw, at, open)
  {
    hide Opens, IsKeyword;
  }

  lemma OpensBounds(text: string, kw: string, at: nat, open: nat)
    requires Opens(text, kw, at, open)
    ensures open < |text| && text[open] == '{'
  {
    hide Occurs, LeftBoundary, IsWhitespace;
  }

  lemma BracedEnds(p: Part)
    ensures var first := Lead(p) + Braced(p.body);
            first != "" && first[|first| - 1] == '}' && |first| == |Lead(p)| + |p.body| + 2
  {
    hide Lead;
  }

  lemma OpensInFirst(p: Part, rest: string, kind: Kind, kw: string, at: nat, open: nat)
    requires PartOk(p) && IsKeyword(kind, kw)
    requires Opens(Lead(p) + Braced(p.body) + rest, kw, at, open) && open < |Lead(p)| + |p.body| + 2
    ensures open == |Lead(p)|
  {
    hide *;
    PartFacts(p);
    var src := Lead(p) + Braced(p.body) + rest;
    OpensBounds(src, kw, at, open);
    if open < |p.before| {
      BeforeIsFirst(p, rest);
      OpensInside("", p.before, p.word + p.gap + Braced(p.body) + rest, kind, kw, at, open);
      QuietHasNone(p.before, kind, kw, at, open);
    } else if open < |Lead(p)| {
      NoBraceBetween(p, rest, open);
    } else if open > |Lead(p)| {
      BodyIsInside(p, rest);
      if open < |Lead(p)| + 1 + |p.body| {
        OpensInside(Lead(p) + "{", p.body, "}" + rest, kind, kw, at, open);
        QuietHasNone(p.body, kind, kw, at - |Lead(p)| - 1, open - |Lead(p)| - 1);
      }
    }
  }

  lemma BeforeIsFirst(p: Part, rest: string)
    ensures Lead(p) + Braced(p.body) + rest == "" + p.before + (p.word + p.gap + Braced(p.body) + rest)
    ensures |Lead(p)| == |p.before| + |p.word| + |p.gap|
  {
    hide Braced;
  }

  lemma BodyIsInside(p: Part, rest: string)
    ensures Lead(p) + Braced(p.body) + rest == Lead(p) + "{" + p.body + ("}" + rest)
    ensures (Lead(p) + Braced(p.body) + rest)[|Lead(p)| + 1 + |p.body|] == '}'
    ensures (Lead(p) + "{")[|Lead(p)|] == '{'
  {
    hide Lead;
  }

  lemma NoBraceBetween(p: Part, rest: string, i: nat)
    requires PartOk(p) && |p.before| <= i < |Lead(p)|
    ensures (Lead(p) + Braced(p.body) + rest)[i] != '{'
  {
    hide IsKeyword, WordChar, Quiet, Lower, Braced;
    KeywordHasNoBrace(p.kind, p.word);
    assert !IsWhitespace('{');
    hide IsWhitespace;
    assert (Lead(p) + Braced(p.body) + rest)[i] == Lead(p)[i];
    assert i >= |p.before| + |p.word| ==> Lead(p)[i] == p.gap[i - |p.before| - |p.word|];
    assert i < |p.before| + |p.word| ==> Lead(p)[i] == p.word[i - |p.before|];
  }

  lemma WordEndIsSolid(p: Part)
    requires PartOk(p)
    ensures |p.word| >= 2 && !IsWhitespace(p.word[|p.word| - 1])
  {
    hide IsKeyword;
    var low := Lower(p.word);
    KeywordsEnd(p.kind, low);
    assert low[|low| - 1] == LowerChar(p.word[|low| - 1]);
  }

  lemma GapIsWhite(src: string, gap: string, at: nat)
    requires StandsAt(src, gap, at) && forall i | 0 <= i < |gap| :: IsWhitespace(gap[i])
    ensures at + |gap| <= |src| && forall i | at <= i < at + |gap| :: IsWhitespace(src[i])
  {
    hide IsWhitespace;
    StandsChars(src, gap, at);
  }

  lemma Boundary(src: string, before: string, at: nat)
    requires StandsAt(src, before, at) && (at == 0 || src[at - 1] == '}')
    requires before == "" || !WordChar(before[|before| - 1])
    ensures LeftBoundary(src, at + |before|)
  {
    StandsChars(src, before, at);
  }

  lemma EndsSolid(src: string, word: string, at: nat)
    requires StandsAt(src, word, at) && word != "" && !IsWhitespace(word[|word| - 1])
    ensures !IsWhitespace(src[at + |word| - 1])
  {
    StandsChars(src, word, at);
  }

  /** Where the keyword of a standing part ends, and how. */
  lemma WordBefore(src: string, o: nat, p: Part)
    requires Stands(src, o, p) && PartOk(p)
    ensures var stop := o - |p.gap|;
            && 2 <= |p.word| <= stop && o <= |src|
            && (forall i | stop <= i < o :: IsWhitespace(src[i]))
            && !IsWhitespace(src[stop - 1])
            && LeftBoundary(src, stop - |p.word|)
  {
    hide *;
    PartFacts(p);
    StandsFacts(src, o, p);
    WordEndIsSolid(p);
    EndsSolid(src, p.word, o - |p.gap| - |p.word|);
    GapIsWhite(src, p.gap, o - |p.gap|);
    Boundary(src, p.before, o - |p.gap| - |p.word| - |p.before|);
  }

  lemma PartFacts(p: Part)
    requires PartOk(p)
    ensures IsKeyword(p.kind, Lower(p.word)) && Quiet(p.before) && Quiet(p.body)
    ensures forall i | 0 <= i < |p.gap| :: IsWhitespace(p.gap[i])
    ensures p.before == "" || !WordChar(p.before[|p.before| - 1])
  {
    hide IsKeyword, IsWhitespace, WordChar, Quiet, Lower;
  }

  lemma StandsFacts(src: string, o: nat, p: Part)
    requires Stands(src, o, p)
    ensures |p.before| + |p.word| + |p.gap| <= o <= |src|
    ensures var start := o - |p.gap| - |p.word| - |p.before|;
            StandsAt(src, p.before, start) && (start == 0 || src[start - 1] == '}')
    ensures StandsAt(src, p.word, o - |p.gap| - |p.word|) && StandsAt(src, p.gap, o - |p.gap|)
    ensures o < |src| && src[o] == '{'
  {
    StandsChars(src, Braced(p.body), o);
    hide StandsAt;
  }

  lemma LowerStands(src: string, w: string, at: nat)
    requires StandsAt(src, w, at)
    ensures Occurs(src, Lower(w), at)
  {
    StandsChars(src, w, at);
    assert Lower(src)[at..at + |w|] == Lower(w);
  }

  lemma PartOpens(src: string, o: nat, p: Part)
    requires Stands(src, o, p) && PartOk(p)
    ensures |p.gap| + |p.word| <= o && Opens(src, Lower(p.word), o - |p.gap| - |p.word|, o)
  {
    hide *;
    StandsFacts(src, o, p);
    WordBefore(src, o, p);
    LowerStands(src, p.word, o - |p.gap| - |p.word|);
    AllOpens(src, Lower(p.word), o - |p.gap| - |p.word|, o);
  }

  lemma AllOpens(src: string, kw: string, at: nat, open: nat)
    requires at + |kw| <= open < |src| && src[open] == '{' && Occurs(src, kw, at) && LeftBoundary(src, at)
    requires forall i | at + |kw| <= i < open :: IsWhitespace(src[i])
    ensures Opens(src, kw, at, open)
  {
    hide Occurs, LeftBoundary, IsWhitespace;
  }

  lemma OpensIsHalf(src: string, kw: string, at: nat, open: nat, end: nat)
    ensures Qualifies(src, kw, at, open, end) <==> Opens(src, kw, at, open) && Balanced(src, open, end)
  {
    hide Occurs, LeftBoundary, IsWhitespace, Depth;
  }

  lemma OpensFacts(src: string, kw: string, at: nat, open: nat)
    requires Opens(src, kw, at, open)
    ensures at + |kw| <= open < |src| && src[open] == '{' && Occurs(src, kw, at) && LeftBoundary(src, at)
    ensures forall i | at + |kw| <= i < open :: IsWhitespace(src[i])
  {
    hide Occurs, LeftBoundary, IsWhitespace;
  }

  /** No keyword of another kind opens the block of a part. */
  lemma NotAnother(src: string, o: nat, p: Part, kind: Kind, kw: string, at: nat)
    requires Stands(src, o, p) && PartOk(p) && IsKeyword(kind, kw) && kind != p.kind
    ensures !Opens(src, kw, at, o)
  {
    hide *;
    if Opens(src, kw, at, o) {
      var stop, w := o - |p.gap|, Lower(p.word);
      OpensFacts(src, kw, at, o);
      PartFacts(p);
      StandsFacts(src, o, p);
      WordBefore(src, o, p);
      KeywordEndIsSolid(src, kw, at, kind);
      SameStop(src, at + |kw|, stop, o);
      LowerStands(src, p.word, stop - |p.word|);
      LastTwo(src, w, stop - |p.word|);
      LastTwo(src, kw, at);
      KeywordsDiffer(kind, kw, p.kind, w);
    }
  }

  lemma SameStop(src: string, a: nat, b: nat, o: nat)
    requires 0 < a <= o <= |src| && 0 < b <= o
    requires !IsWhitespace(src[a - 1]) && !IsWhitespace(src[b - 1])
    requires forall i | a <= i < o :: IsWhitespace(src[i])
    requires forall i | b <= i < o :: IsWhitespace(src[i])
    ensures a == b
  {
    hide *;
    if a < b {
      NotWhite(src, a, b, o);
    } else if b < a {
      NotWhite(src, b, a, o);
    }
  }

  lemma NotWhite(src: string, a: nat, b: nat, o: nat)
    requires b <= o <= |src| && 0 < b && !IsWhitespace(src[b - 1]) && forall i | a <= i < o :: IsWhitespace(src[i])
    ensures b <= a
  {
    hide *;
  }

  lemma KeywordEndIsSolid(src: string, kw: string, at: nat, kind: Kind)
    requires Occurs(src, kw, at) && IsKeyword(kind, kw)
    ensures |kw| >= 2 && !IsWhitespace(src[at + |kw| - 1])
  {
    hide IsKeyword;
    KeywordsEnd(kind, kw);
    assert Lower(src)[at..at + |kw|][|kw| - 1] == LowerChar(src[at + |kw| - 1]);
  }

  lemma LastTwo(src: string, kw: string, at: nat)
    requires Occurs(src, kw, at) && |kw| >= 2
    ensures var low := Lower(src);
            low[at + |kw| - 1] == kw[|kw| - 1] && low[at + |kw| - 2] == kw[|kw| - 2]
  {
    var cut := Lower(src)[at..at + |kw|];
    assert cut[|kw| - 1] == kw[|kw| - 1] && cut[|kw| - 2] == kw[|kw| - 2];
  }

  // ---------------------------------------------------- what a clause reads

  /** Any block found for a kind is that of the part of this kind. */
  lemma FoundIsMine(parts: seq<Part>, tail: string, kind: Kind, kw: string, at: nat, open: nat) returns (k: nat)
    requires DocumentOk(parts, tail) && IsKeyword(kind, kw) && Opens(Render(parts, tail), kw, at, open)
    ensures k < |parts| && parts[k].kind == kind && open == OpenOf(parts, k)
  {
    hide *;
    DocumentFacts(parts, tail);
    k := OpensOnly(parts, tail, kind, kw, at, open);
    PartStands(parts, tail, k);
    if parts[k].kind != kind {
      NotAnother(Render(parts, tail), open, parts[k], kind, kw, at);
    }
  }

  lemma DocumentFacts(parts: seq<Part>, tail: string)
    requires DocumentOk(parts, tail)
    ensures Quiet(tail) && forall k | 0 <= k < |parts| :: PartOk(parts[k])
    ensures forall j, k | 0 <= j < k < |parts| :: parts[j].kind != parts[k].kind
  {
    hide PartOk, Quiet;
  }

  /** Where the block that opens at `o` closes, if it does. */
  function BlockFrom(src: string, o: nat): Option<(nat, nat)>
    requires o <= |src|
  {
    match CloseFrom(src, o, 0)
    case None => None
    case Some(end) => Some((o, end))
  }

  lemma BlockFromExact(src: string, o: nat)
    requires o < |src| && src[o] == '{'
    ensures BlockFrom(src, o).Some? ==> BlockFrom(src, o).value.0 == o && Balanced(src, o, BlockFrom(src, o).value.1)
    ensures forall end: nat | Balanced(src, o, end) :: BlockFrom(src, o) == Some((o, end))
  {
    hide CloseFrom, Balanced;
    CloseFromExact(src, o, o);
  }

  /** The reader takes for a clause the block of its part, as far as it goes. */
  lemma Selects(parts: seq<Part>, tail: string, k: nat)
    requires DocumentOk(parts, tail) && k < |parts|
    ensures var src, o := Render(parts, tail), OpenOf(parts, k);
            o <= |src| && FindBlock(src, Keywords(parts[k].kind)) == BlockFrom(src, o)
  {
    hide *;
    DocumentFacts(parts, tail);
    PartStands(parts, tail, k);
    var src, o, kws := Render(parts, tail), OpenOf(parts, k), Keywords(parts[k].kind);
    StandsFacts(src, o, parts[k]);
    BlockFromExact(src, o);
    if BlockFrom(src, o).Some? {
      PartFound(src, o, parts[k], BlockFrom(src, o).value.1);
    }
    if FindBlock(src, kws).Some? {
      FoundIs(parts, tail, k, FindBlock(src, kws).value);
    }
  }

  lemma PartFound(src: string, o: nat, p: Part, end: nat)
    requires Stands(src, o, p) && PartOk(p) && Balanced(src, o, end)
    ensures FindBlock(src, Keywords(p.kind)).Some?
  {
    hide *;
    PartFacts(p);
    PartOpens(src, o, p);
    OpensIsHalf(src, Lower(p.word), o - |p.gap| - |p.word|, o, end);
    SomeBlock(src, p.kind, Lower(p.word), o - |p.gap| - |p.word|, o, end);
  }

  lemma IsKeywordAt(kind: Kind, j: nat)
    requires j < |Keywords(kind)|
    ensures IsKeyword(kind, Keywords(kind)[j])
  {
    hide Keywords;
  }

  lemma FoundIs(parts: seq<Part>, tail: string, k: nat, b: (nat, nat))
    requires DocumentOk(parts, tail) && k < |parts|
    requires FindBlock(Render(parts, tail), Keywords(parts[k].kind)) == Some(b)
    ensures b.0 == OpenOf(parts, k) && Balanced(Render(parts, tail), b.0, b.1)
  {
    hide *;
    var at, kw := FoundQualifies(parts, tail, parts[k].kind);
    var m := FoundIsMine(parts, tail, parts[k].kind, kw, at, b.0);
    DocumentFacts(parts, tail);
    assert m == k;
  }

  /** The keyword behind a block that was found. */
  lemma FoundQualifies(parts: seq<Part>, tail: string, kind: Kind) returns (at: nat, kw: string)
    requires FindBlock(Render(parts, tail), Keywords(kind)).Some?
    ensures var src := Render(parts, tail);
            var b := FindBlock(src, Keywords(kind)).value;
            IsKeyword(kind, kw) && Opens(src, kw, at, b.0) && Balanced(src, b.0, b.1)
  {
    hide *;
    var src, kws := Render(parts, tail), Keywords(kind);
    var b := FindBlock(src, kws).value;
    FindBlockExact(src, kws);
    var x, y :| 0 <= x < |kws| && 0 <= y && Qualifies(src, kws[x], y, b.0, b.1);
    at, kw := y, kws[x];
    IsKeywordAt(kind, x);
    OpensIsHalf(src, kw, at, b.0, b.1);
  }

  lemma SomeBlock(src: string, kind: Kind, w: string, at: nat, open: nat, end: nat)
    requires IsKeyword(kind, w) && Qualifies(src, w, at, open, end)
    ensures FindBlock(src, Keywords(kind)).Some?
  {
    hide FindBlock, Qualifies, BlockAt, Keywords;
    var kws := Keywords(kind);
    FindBlockExact(src, kws);
    var i :| 0 <= i < |kws| && kws[i] == w;
    assert !NoBlock(src, kws[i]);
  }

  lemma SelectsNone(parts: seq<Part>, tail: string, kind: Kind)
    requires DocumentOk(parts, tail) && forall k | 0 <= k < |parts| :: parts[k].kind != kind
    ensures FindBlock(Render(parts, tail), Keywords(kind)).None?
  {
    hide *;
    var src := Render(parts, tail);
    if FindBlock(src, Keywords(kind)).Some? {
      var at, kw := FoundQualifies(parts, tail, kind);
      var m := FoundIsMine(parts, tail, kind, kw, at, FindBlock(src, Keywords(kind)).value.0);
    }
  }

  /** What the block at the start of a text says, whatever follows it; a block
      that never closes says nothing. */
  function ReadBlock(text: string): Parsed {
    match CloseFrom(text, 0, 0)
    case None => Ok({})
    case Some(end) => Parse(StripBraces(text[..end]))
  }

  /** What the part of a kind says; without one, nothing. */
  function ClauseOf(parts: seq<Part>, tail: string, kind: Kind): Parsed {
    if parts == [] then Ok({})
    else if parts[0].kind == kind then ReadBlock(Braced(parts[0].body) + Render(parts[1..], tail))
    else ClauseOf(parts[1..], tail, kind)
  }

  lemma {:induction false} ClauseOfPart(parts: seq<Part>, tail: string, k: nat)
    requires k < |parts| && forall j | 0 <= j < k :: parts[j].kind != parts[k].kind
    ensures ClauseOf(parts, tail, parts[k].kind) == ReadBlock(Braced(parts[k].body) + Render(parts[k + 1..], tail))
  {
    hide ReadBlock, Braced, Render;
    if k > 0 {
      ClauseOfPart(parts[1..], tail, k - 1);
      assert parts[1..][k..] == parts[k + 1..];
    }
  }

  lemma {:induction false} ClauseOfNone(parts: seq<Part>, tail: string, kind: Kind)
    requires forall j | 0 <= j < |parts| :: parts[j].kind != kind
    ensures ClauseOf(parts, tail, kind) == Ok({})
  {
    if parts != [] {
      ClauseOfNone(parts[1..], tail, kind);
    }
  }

  /** The document from the brace of part `k` on. */
  lemma {:induction false} FromPart(parts: seq<Part>, tail: string, k: nat)
    requires k < |parts|
    ensures var src, o := Render(parts, tail), OpenOf(parts, k);
            o <= |src| && src[o..] == Braced(parts[k].body) + Render(parts[k + 1..], tail)
    decreases |parts|
  {
    hide Lead, Braced;
    var src, o, rest := Render(parts, tail), OpenOf(parts, k), Render(parts[1..], tail);
    var first := Lead(parts[0]) + Braced(parts[0].body);
    if k > 0 {
      FromPart(parts[1..], tail, k - 1);
      assert parts[1..][k..] == parts[k + 1..];
      assert src == first + rest;
      assert src[o..] == rest[o - |first|..];
    } else {
      assert src == Lead(parts[0]) + (Braced(parts[0].body) + rest);
    }
  }

  lemma {:induction false} CloseShifts(src: string, o: nat, i: nat, depth: int)
    requires o + i <= |src|
    ensures CloseFrom(src, o + i, depth) ==
            match CloseFrom(src[o..], i, depth) case None => None case Some(end) => Some(o + end)
    decreases |src| - i
  {
    if o + i < |src| {
      CloseShifts(src, o, i + 1, depth + Delta(src[o + i]));
    }
  }

  lemma ReadsFrom(src: string, o: nat)
    requires o <= |src|
    ensures (match BlockFrom(src, o) case None => Ok({}) case Some((open, end)) => Parse(StripBraces(src[open..end])))
         == ReadBlock(src[o..])
  {
    hide CloseFrom, Parse, StripBraces;
    CloseShifts(src, o, 0, 0);
    var r := CloseFrom(src[o..], 0, 0);
    if r.Some? {
      assert src[o..o + r.value] == src[o..][..r.value];
    }
  }

  lemma StripFlat(body: string)
    ensures StripBraces("{" + body + "}") == Trim(body)
  {
    var block := "{" + body + "}";
    assert !IsWhitespace('{') && !IsWhitespace('}');
    TrimKeepsSolid(block);
    hide Trim, IsWhitespace;
    var t := block[1..];
    assert t == body + "}";
    assert t[..|t| - 1] == body;
  }

  lemma ReadsClause(parts: seq<Part>, tail: string, kind: Kind)
    requires DocumentOk(parts, tail)
    ensures Clause(Render(parts, tail), Keywords(kind)) == ClauseOf(parts, tail, kind)
  {
    hide Render, Keywords, OpenOf, PartOk, FindBlock, Parse, StripBraces, ClauseOf, Braced, Quiet, BlockFrom, ReadBlock;
    if k :| 0 <= k < |parts| && parts[k].kind == kind {
      var src, o := Render(parts, tail), OpenOf(parts, k);
      Selects(parts, tail, k);
      FromPart(parts, tail, k);
      ReadsFrom(src, o);
      ClauseOfPart(parts, tail, k);
    } else {
      SelectsNone(parts, tail, kind);
      ClauseOfNone(parts, tail, kind);
    }
  }

  /** The meaning of a document, whatever its layout, the order of its clauses
      and the text between them: each clause is read from its own block. */
  lemma DocumentMeaning(target: set<Triple>, parts: seq<Part>, tail: string)
    requires DocumentOk(parts, tail)
    ensures N3(target, Render(parts, tail)) ==
            Patched(target, ClauseOf(parts, tail, Inserts), ClauseOf(parts, tail, Deletes), ClauseOf(parts, tail, Wheres))
  {
    hide Render, DocumentOk, Clause, ClauseOf, Patched;
    ReadsClause(parts, tail, Inserts);
    ReadsClause(parts, tail, Deletes);
    ReadsClause(parts, tail, Wheres);
  }

  // ------------------------------------------------- blocks that close last

  /** The block closes with its own last brace, and not before. */
  ghost predicate ClosesLast(body: string) {
    Balanced(Braced(body), 0, |body| + 2)
  }

  lemma {:induction false} DepthOfPrefix(text: string, rest: string, k: nat)
    requires k <= |text|
    ensures Depth(text + rest, 0, k) == Depth(text, 0, k)
    decreases k
  {
    if k > 0 {
      DepthOfPrefix(text, rest, k - 1);
    }
  }

  lemma BalancedPrefix(text: string, rest: string, end: nat)
    requires end <= |text|
    ensures Balanced(text + rest, 0, end) <==> Balanced(text, 0, end)
  {
    hide Depth;
    forall k: nat | k <= end ensures Depth(text + rest, 0, k) == Depth(text, 0, k) {
      DepthOfPrefix(text, rest, k);
    }
  }

  /** Then the whole body is read, whatever follows the block. */
  lemma WholeBlock(body: string, rest: string)
    ensures Braced(body) + rest != "" && (Braced(body) + rest)[0] == '{' && |Braced(body)| == |body| + 2
    ensures CloseFrom(Braced(body) + rest, 0, 0) == Some(|body| + 2) <==> ClosesLast(body)
  {
    var text := Braced(body);
    BalancedPrefix(text, rest, |body| + 2);
    hide CloseFrom, Balanced;
    BlockFromExact(text + rest, 0);
  }

  lemma WholeBodyIsRead(body: string, rest: string)
    requires ClosesLast(body)
    ensures ReadBlock(Braced(body) + rest) == Parse(Trim(body))
  {
    hide ClosesLast, Parse, StripBraces, Trim, CloseFrom;
    WholeBlock(body, rest);
    StripFlat(body);
    assert (Braced(body) + rest)[..|body| + 2] == "{" + body + "}";
  }

  lemma BraceFreeClosesLast(body: string)
    requires BraceFree(body)
    ensures ClosesLast(body) && Quiet(body)
  {
    hide Balanced, Occurs, LeftBoundary, IsWhitespace, IsKeyword, Quiet, Lacks;
    FlatBlock(Braced(body), 0, body);
    assert Quiet(body) by { NoBraceIsQuiet(body); }
  }

  lemma NoBraceIsQuiet(text: string)
    requires Lacks(text, '{')
    ensures Quiet(text)
  {
    hide Occurs, LeftBoundary, IsWhitespace, IsKeyword;
  }
}
