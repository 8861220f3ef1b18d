/** Option and Result, and the string operations of the Rust standard library
    that the modelled code leans on, each with a contract that pins its result. */
module Text {

  datatype Option<+T> = None | Some(value: T)

  datatype Result<+T, +E> = Ok(value: T) | Err(error: E)

  type Byte = b: int | 0 <= b < 256

  /** The number of 64-bit values. */
  const WORD: nat := 0x1_0000_0000_0000_0000

  /** The Unicode White_Space property, which `char::is_whitespace` tests. */
  predicate IsWhitespace(c: char) {
    var n := c as int;
    || 9 <= n <= 13 || n == 32 || n == 0x85 || n == 0xA0 || n == 0x1680
    || 0x2000 <= n <= 0x200A || n == 0x2028 || n == 0x2029
    || n == 0x202F || n == 0x205F || n == 0x3000
  }

  /** `char::is_ascii_whitespace`: no vertical tab. */
  predicate IsAsciiWhitespace(c: char) {
    c == ' ' || c == '\t' || c == '\n' || c == '\r' || c as int == 12
  }

  predicate IsAscii(c: char) {
    c as int < 0x80
  }

  predicate IsAsciiAlnum(c: char) {
    '0' <= c <= '9' || 'a' <= c <= 'z' || 'A' <= c <= 'Z'
  }

  function LowerChar(c: char): char {
    if 'A' <= c <= 'Z' then (c as int + 32) as char else c
  }

  /** `to_ascii_lowercase`. */
  function Lower(s: string): (r: string)
    ensures |r| == |s|
    ensures forall i | 0 <= i < |s| :: r[i] == LowerChar(s[i])
  {
    seq(|s|, i requires 0 <= i < |s| => LowerChar(s[i]))
  }

  /** Equal, or one the capital of the other. */
  predicate SameLetter(x: char, y: char) {
    || x == y
    || ('a' <= x <= 'z' && x as int - 32 == y as int)
    || ('a' <= y <= 'z' && y as int - 32 == x as int)
  }

  predicate SameLetters(a: string, b: string) {
    |a| == |b| && forall i | 0 <= i < |a| :: SameLetter(a[i], b[i])
  }

  lemma LowerMeans(a: string, b: string)
    ensures Lower(a) == Lower(b) <==> SameLetters(a, b)
  {
    var la, lb := Lower(a), Lower(b);
    if la == lb {
      forall i | 0 <= i < |a| ensures SameLetter(a[i], b[i]) {
        assert la[i] == LowerChar(a[i]) && lb[i] == LowerChar(b[i]);
      }
    }
    if SameLetters(a, b) {
      forall i | 0 <= i < |a| ensures la[i] == lb[i] {
        assert SameLetter(a[i], b[i]);
      }
    }
  }

  /** `trim_start`: the longest suffix that does not begin with white space. */
  function TrimStart(s: string): (r: string)
    ensures |r| <= |s| && r == s[|s| - |r|..]
    ensures r == "" || !IsWhitespace(r[0])
    ensures forall i | 0 <= i < |s| - |r| :: IsWhitespace(s[i])
  {
    if s != "" && IsWhitespace(s[0]) then TrimStart(s[1..]) else s
  }

  /** `trim_end`: the longest prefix that does not end with white space. */
  function TrimEnd(s: string): (r: string)
    ensures r <= s
    ensures r == "" || !IsWhitespace(r[|r| - 1])
    ensures forall i | |r| <= i < |s| :: IsWhitespace(s[i])
  {
    if s != "" && IsWhitespace(s[|s| - 1]) then TrimEnd(s[..|s| - 1]) else s
  }

  function Trim(s: string): string {
    TrimEnd(TrimStart(s))
  }

  /** `trim_end_matches(c)`. */
  function TrimEndChar(s: string, c: char): (r: string)
    ensures r <= s
    ensures r == "" || r[|r| - 1] != c
    ensures forall i | |r| <= i < |s| :: s[i] == c
  {
    if s != "" && s[|s| - 1] == c then TrimEndChar(s[..|s| - 1], c) else s
  }

  lemma TrimKeepsSolid(s: string)
    requires s != "" ==> !IsWhitespace(s[0]) && !IsWhitespace(s[|s| - 1])
    ensures Trim(s) == TrimStart(s) == s
  {
  }

  predicate Lacks(s: string, c: char) {
    forall i | 0 <= i < |s| :: s[i] != c
  }

  /** Index of the first `c`, or the length when there is none. */
  function IndexOf(s: string, c: char): (r: nat)
    ensures r <= |s|
    ensures forall i | 0 <= i < r :: s[i] != c
    ensures r < |s| ==> s[r] == c
  {
    if s == "" || s[0] == c then 0 else 1 + IndexOf(s[1..], c)
  }

  /** `split_once`: the text before and after the first `c`. */
  function SplitOnce(s: string, c: char): (r: Option<(string, string)>)
    ensures r.None? ==> Lacks(s, c)
    ensures r.Some? ==> s == r.value.0 + [c] + r.value.1 && Lacks(r.value.0, c)
  {
    var i := IndexOf(s, c);
    if i == |s| then None else Some((s[..i], s[i + 1..]))
  }

  lemma SplitOnceAfter(a: string, c: char, b: string)
    requires Lacks(a, c)
    ensures SplitOnce(a + [c] + b, c) == Some((a, b))
  {
    var s := a + [c] + b;
    assert s[|a|] == c;
    assert forall i | 0 <= i < |a| :: s[i] == a[i];
    assert IndexOf(s, c) == |a|;
    assert s[..|a|] == a && s[|a| + 1..] == b;
  }

  /** Split `s` on every `sep`; never empty. */
  function Split(s: string, sep: char): (r: seq<string>)
    ensures |r| >= 1
    ensures forall k | 0 <= k < |r| :: Lacks(r[k], sep)
    decreases |s|
  {
    match SplitOnce(s, sep)
    case None => [s]
    case Some((a, b)) => [a] + Split(b, sep)
  }

  /** `slice::join`. */
  function Join(parts: seq<string>, sep: string): string {
    if parts == [] then ""
    else if |parts| == 1 then parts[0]
    else parts[0] + sep + Join(parts[1..], sep)
  }

  /** Splitting undoes joining when no part contains the separator. */
  lemma {:induction false} SplitJoin(parts: seq<string>, sep: char)
    requires parts != [] && forall i | 0 <= i < |parts| :: Lacks(parts[i], sep)
    ensures Split(Join(parts, [sep]), sep) == parts
  {
    hide SplitOnce;
    if |parts| == 1 {
      assert SplitOnce(parts[0], sep).None? by { SplitOnceLacks(parts[0], sep); }
    } else {
      SplitJoin(parts[1..], sep);
      SplitOnceAfter(parts[0], sep, Join(parts[1..], [sep]));
    }
  }

  lemma SplitOnceLacks(s: string, sep: char)
    requires Lacks(s, sep)
    ensures SplitOnce(s, sep).None?
  {
  }
}
