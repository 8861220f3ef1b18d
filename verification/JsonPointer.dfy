/** JSON Pointer (RFC 6901) as the patch code and its library use it, and the
    lens laws of reading and replacing the value a pointer names. */
module JsonPointer {
  import opened Text
  import opened Json

  // ----------------------------------------------------------------- tokens

  /** Replace every `~d` by `by_`, left to right. */
  function ReplaceTilde(s: string, d: char, by_: char): string {
    if s == "" then ""
    else if |s| >= 2 && s[0] == '~' && s[1] == d then [by_] + ReplaceTilde(s[2..], d, by_)
    else [s[0]] + ReplaceTilde(s[1..], d, by_)
  }

  /** `replace("~1", "/")`, then `replace("~0", "~")`. */
  function Unescape(s: string): string {
    ReplaceTilde(ReplaceTilde(s, '1', '/'), '0', '~')
  }

  /** Section 3 of RFC 6901. */
  function EscapeChar(c: char): string {
    if c == '~' then "~0" else if c == '/' then "~1" else [c]
  }

  function Escape(key: string): string {
    if key == "" then "" else EscapeChar(key[0]) + Escape(key[1..])
  }

  /** Half-way: slashes restored, tildes still escaped. */
  function HalfEscape(key: string): string {
    if key == "" then "" else (if key[0] == '~' then "~0" else [key[0]]) + HalfEscape(key[1..])
  }

  lemma {:induction false} FirstPass(key: string)
    ensures ReplaceTilde(Escape(key), '1', '/') == HalfEscape(key)
  {
    if key != "" {
      FirstPass(key[1..]);
      var rest, all := Escape(key[1..]), Escape(key);
      if key[0] == '~' {
        assert all[1..] == "0" + rest && all[1..][1..] == rest;
        assert ReplaceTilde("0" + rest, '1', '/') == "0" + ReplaceTilde(rest, '1', '/');
      } else if key[0] == '/' {
        assert all[2..] == rest;
      } else {
        assert all[1..] == rest;
      }
    }
  }

  lemma {:induction false} SecondPass(key: string)
    ensures ReplaceTilde(HalfEscape(key), '0', '~') == key
  {
    if key != "" {
      SecondPass(key[1..]);
      var rest, all := HalfEscape(key[1..]), HalfEscape(key);
      if key[0] == '~' {
        assert all[2..] == rest;
      } else {
        assert all[1..] == rest;
      }
    }
  }

  /** Unescaping undoes escaping, for every key. */
  lemma UnescapeEscape(key: string)
    ensures Unescape(Escape(key)) == key
  {
    FirstPass(key);
    SecondPass(key);
  }

  lemma {:induction false} EscapeLacksSlash(key: string)
    ensures Lacks(Escape(key), '/')
  {
    if key != "" {
      EscapeLacksSlash(key[1..]);
    }
  }

  function UnescapeAll(ts: seq<string>): (r: seq<string>)
    ensures |r| == |ts| && forall i | 0 <= i < |ts| :: r[i] == Unescape(ts[i])
  {
    seq(|ts|, i requires 0 <= i < |ts| => Unescape(ts[i]))
  }

  /** The reference tokens of a pointer; `None` if it is neither empty nor
      starts with a slash. */
  function Tokens(path: string): Option<seq<string>> {
    if path == "" then Some([])
    else if path[0] != '/' then None
    else Some(UnescapeAll(Split(path[1..], '/')))
  }

  /** Index of the last `c`. */
  function LastIndexOf(s: string, c: char): (r: Option<nat>)
    ensures r.Some? ==> r.value < |s| && s[r.value] == c && forall i | r.value < i < |s| :: s[i] != c
    ensures r.None? ==> Lacks(s, c)
  {
    if s == "" then None
    else if s[|s| - 1] == c then Some(|s| - 1)
    else LastIndexOf(s[..|s| - 1], c)
  }

  /** `split_pointer`: the parent's pointer, and the last token unescaped. */
  function SplitPointer(path: string): (string, string) {
    match LastIndexOf(path, '/')
    case Some(pos) => (path[..pos], Unescape(path[pos + 1..]))
    case None => ("", path)
  }

  lemma {:induction false} SplitAppend(a: string, raw: string, sep: char)
    requires Lacks(raw, sep)
    ensures Split(a + [sep] + raw, sep) == Split(a, sep) + [raw]
    decreases |a|
  {
    hide SplitOnce;
    match SplitOnce(a, sep)
    case None =>
      SplitOnceAfter(a, sep, raw);
      SplitOnceLacks(raw, sep);
    case Some((x, y)) =>
      assert a + [sep] + raw == x + [sep] + (y + [sep] + raw);
      SplitOnceAfter(x, sep, y + [sep] + raw);
      SplitAppend(y, raw, sep);
  }

  /** Splitting agrees with tokenising: the parent's tokens, then the last one. */
  lemma SplitIsLastToken(path: string)
    requires path != "" && path[0] == '/'
    ensures var (parent, last) := SplitPointer(path);
            Tokens(parent).Some? && Tokens(path) == Some(Tokens(parent).value + [last])
  {
    hide Split, Unescape;
    var pos := LastIndexOf(path, '/').value;
    var parent, raw := path[..pos], path[pos + 1..];
    assert Lacks(raw, '/');
    if pos == 0 {
      assert parent == "" && path[1..] == raw;
      SplitOnceLacks(raw, '/');
      SplitSingle(raw);
      assert UnescapeAll([raw]) == [] + [Unescape(raw)];
    } else {
      assert parent[0] == '/' && path[1..] == parent[1..] + ['/'] + raw;
      SplitAppend(parent[1..], raw, '/');
      var ts := Split(parent[1..], '/');
      assert UnescapeAll(ts + [raw]) == UnescapeAll(ts) + [Unescape(raw)];
    }
  }

  lemma SplitSingle(raw: string)
    requires SplitOnce(raw, '/').None?
    ensures Split(raw, '/') == [raw]
  {
  }

  /** `split_pointer` recovers any key from its escaped form, under any parent. */
  lemma SplitPointerInverts(parent: string, key: string)
    ensures SplitPointer(parent + "/" + Escape(key)) == (parent, key)
  {
    hide Escape, Unescape;
    EscapeLacksSlash(key);
    UnescapeEscape(key);
    var raw := Escape(key);
    var path := parent + "/" + raw;
    var pos := LastIndexOf(path, '/').value;
    assert path[|parent|] == '/';
    assert forall i | |parent| < i < |path| :: path[i] == raw[i - |parent| - 1];
    assert pos == |parent|;
    assert path[..pos] == parent && path[pos + 1..] == raw;
  }

  function PointerTo(keys: seq<string>): string {
    if keys == [] then "" else PointerTo(keys[..|keys| - 1]) + "/" + Escape(keys[|keys| - 1])
  }

  /** A pointer built from any keys names exactly those keys. */
  lemma {:induction false} TokensOfPointer(keys: seq<string>)
    ensures Tokens(PointerTo(keys)) == Some(keys)
  {
    hide Tokens, Escape, SplitPointer;
    if keys == [] {
      EmptyTokens();
    } else {
      var init, key := keys[..|keys| - 1], keys[|keys| - 1];
      TokensOfPointer(init);
      PointerStarts(keys);
      LastTokenIs(PointerTo(init), key);
      assert init + [key] == keys;
    }
  }

  lemma EmptyTokens()
    ensures Tokens("") == Some([])
  {
  }

  lemma LastTokenIs(parent: string, key: string)
    requires (parent + "/" + Escape(key))[0] == '/' && Tokens(parent).Some?
    ensures Tokens(parent + "/" + Escape(key)) == Some(Tokens(parent).value + [key])
  {
    hide *;
    SplitPointerInverts(parent, key);
    SplitIsLastToken(parent + "/" + Escape(key));
  }

  lemma {:induction false} PointerStarts(keys: seq<string>)
    requires keys != []
    ensures PointerTo(keys) != "" && PointerTo(keys)[0] == '/'
  {
    hide Escape;
    if |keys| > 1 {
      PointerStarts(keys[..|keys| - 1]);
    }
  }

  // ---------------------------------------------------------------- indices

  predicate IsDigit(c: char) {
    '0' <= c <= '9'
  }

  function Decimal(s: string): nat
    requires forall i | 0 <= i < |s| :: IsDigit(s[i])
  {
    if s == "" then 0
    else
      assert IsDigit(s[|s| - 1]);
      10 * Decimal(s[..|s| - 1]) + (s[|s| - 1] as int - '0' as int)
  }

  predicate AllDigits(s: string) {
    s != "" && forall i | 0 <= i < |s| :: IsDigit(s[i])
  }

  /** `str::parse::<usize>`: an optional plus sign, digits, 64 bits. */
  function ParseUsize(s: string): Option<nat> {
    var t := if s != "" && s[0] == '+' then s[1..] else s;
    if AllDigits(t) && Decimal(t) < WORD then Some(Decimal(t)) else None
  }

  /** The stricter index of JSON Pointer: no sign and no leading zero. */
  function ParseIndex(s: string): Option<nat> {
    if s != "" && (s[0] == '+' || (s[0] == '0' && |s| != 1)) then None else ParseUsize(s)
  }

  lemma {:induction false} DecimalPositive(s: string)
    requires AllDigits(s) && s[0] != '0'
    ensures Decimal(s) > 0
  {
    if |s| > 1 {
      DecimalPositive(s[..|s| - 1]);
    }
  }

  lemma {:induction false} DecimalInjective(a: string, b: string)
    requires AllDigits(a) && AllDigits(b) && Decimal(a) == Decimal(b)
    requires (a[0] == '0' ==> |a| == 1) && (b[0] == '0' ==> |b| == 1)
    ensures a == b
    decreases |a|
  {
    var ai, bi := a[..|a| - 1], b[..|b| - 1];
    assert a == ai + [a[|a| - 1]] && b == bi + [b[|b| - 1]];
    assert Decimal(ai) == Decimal(bi) && a[|a| - 1] == b[|b| - 1];
    if ai != "" && bi != "" {
      DecimalInjective(ai, bi);
    } else if ai != "" {
      DecimalPositive(ai);
    } else if bi != "" {
      DecimalPositive(bi);
    }
  }

  /** A strict index has one spelling. */
  lemma IndexInjective(a: string, b: string)
    requires ParseIndex(a).Some? && ParseIndex(a) == ParseIndex(b)
    ensures a == b
  {
    DecimalInjective(a, b);
  }

  /** The strict spelling of an index. */
  function DecimalText(n: nat): string {
    (if n < 10 then "" else DecimalText(n / 10)) + [('0' as int + n % 10) as char]
  }

  lemma {:induction false} DecimalTextExact(n: nat)
    ensures var s := DecimalText(n);
            AllDigits(s) && Decimal(s) == n && (s[0] == '0' ==> n == 0) && (n < 10 ==> |s| == 1)
  {
    var s := DecimalText(n);
    if n >= 10 {
      DecimalTextExact(n / 10);
      assert s[..|s| - 1] == DecimalText(n / 10);
    } else {
      assert s[..|s| - 1] == "";
    }
  }

  lemma IndexOfText(n: nat)
    requires n < WORD
    ensures ParseIndex(DecimalText(n)) == Some(n)
  {
    hide DecimalText, Decimal;
    DecimalTextExact(n);
  }

  // ------------------------------------------------------------------ lens

  /** The child a token names, if any. */
  function Child(doc: Json, token: string): Option<Json> {
    match doc
    case Obj(m) => if token in m then Some(m[token]) else None
    case Arr(a) =>
      var i := ParseIndex(token);
      if i.Some? && i.value < |a| then Some(a[i.value]) else None
    case _ => None
  }

  function Get(doc: Json, tokens: seq<string>): Option<Json> {
    if tokens == [] then Some(doc)
    else
      match Child(doc, tokens[0])
      case None => None
      case Some(c) => Get(c, tokens[1..])
  }

  function PutChild(doc: Json, token: string, v: Json): Json
    requires Child(doc, token).Some?
  {
    match doc
    case Obj(m) => Obj(m[token := v])
    case Arr(a) => Arr(a[ParseIndex(token).value := v])
  }

  /** The document with the named value replaced: what writing through
      `pointer_mut` leaves behind. */
  function Put(doc: Json, tokens: seq<string>, v: Json): Json
    requires Get(doc, tokens).Some?
  {
    if tokens == [] then v
    else PutChild(doc, tokens[0], Put(Child(doc, tokens[0]).value, tokens[1..], v))
  }

  lemma PutChildExact(doc: Json, token: string, v: Json)
    requires Child(doc, token).Some?
    ensures Child(PutChild(doc, token, v), token) == Some(v)
    ensures forall w :: PutChild(PutChild(doc, token, v), token, w) == PutChild(doc, token, w)
    ensures PutChild(doc, token, Child(doc, token).value) == doc
    ensures forall other | other != token :: Child(PutChild(doc, token, v), other) == Child(doc, other)
  {
    hide ParseIndex;
    if doc.Obj? {
      assert doc.members[token := doc.members[token]] == doc.members;
    } else {
      var i := ParseIndex(token).value;
      assert doc.items[i := doc.items[i]] == doc.items;
      forall other | other != token && ParseIndex(other) == Some(i) ensures false {
        IndexInjective(other, token);
      }
    }
  }

  /** Reading after writing, writing twice, and writing back what was read. */
  lemma {:induction false} LensLaws(doc: Json, tokens: seq<string>, v: Json, w: Json)
    requires Get(doc, tokens).Some?
    ensures Get(Put(doc, tokens, v), tokens) == Some(v)
    ensures Put(Put(doc, tokens, v), tokens, w) == Put(doc, tokens, w)
    ensures Put(doc, tokens, Get(doc, tokens).value) == doc
    decreases |tokens|
  {
    hide Child, PutChild;
    if tokens != [] {
      var t, rest := tokens[0], tokens[1..];
      var c := Child(doc, t).value;
      LensLaws(c, rest, v, w);
      PutChildExact(doc, t, Put(c, rest, v));
      PutChildExact(doc, t, c);
    }
  }

  /** Neither path is a prefix of the other. */
  predicate Unrelated(a: seq<string>, b: seq<string>) {
    !(a <= b) && !(b <= a)
  }

  /** Writing at one path leaves every unrelated path as it was. */
  lemma {:induction false} PutElsewhere(doc: Json, tokens: seq<string>, v: Json, other: seq<string>)
    requires Get(doc, tokens).Some? && Unrelated(tokens, other)
    ensures Get(Put(doc, tokens, v), other) == Get(doc, other)
    decreases |tokens|
  {
    hide Child, PutChild;
    var t, rest := tokens[0], tokens[1..];
    var c := Child(doc, t).value;
    PutChildExact(doc, t, Put(c, rest, v));
    if other[0] == t {
      assert tokens == [t] + rest && other == [t] + other[1..];
      assert Unrelated(rest, other[1..]);
      PutElsewhere(c, rest, v, other[1..]);
    }
  }

  lemma {:induction false} GetStep(doc: Json, parent: seq<string>, last: string)
    ensures Get(doc, parent + [last]) ==
            match Get(doc, parent)
            case None => None
            case Some(p) => Child(p, last)
    decreases |parent|
  {
    hide Child;
    var all := parent + [last];
    if parent == [] {
      assert all[1..] == [] && all[0] == last;
    } else {
      assert all[1..] == parent[1..] + [last];
      if Child(doc, parent[0]).Some? {
        GetStep(Child(doc, parent[0]).value, parent[1..], last);
      }
    }
  }

  lemma {:induction false} PutStep(doc: Json, parent: seq<string>, last: string, v: Json)
    requires Get(doc, parent).Some? && Child(Get(doc, parent).value, last).Some?
    ensures Get(doc, parent + [last]).Some?
    ensures Put(doc, parent + [last], v) == Put(doc, parent, PutChild(Get(doc, parent).value, last, v))
    decreases |parent|
  {
    hide Child, PutChild;
    GetStep(doc, parent, last);
    var all := parent + [last];
    if parent == [] {
      assert all[1..] == [];
      assert Put(Child(doc, last).value, [], v) == v;
    } else {
      assert all[1..] == parent[1..] + [last];
      PutStep(Child(doc, parent[0]).value, parent[1..], last, v);
    }
  }
}
