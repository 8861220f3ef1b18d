/** Base58btc as a bijection: the decoder of the specification and both round trips. */
module Base58Codec {
  import opened Text
  import opened Base58

  // ----------------------------------------------------------- the decoder

  function LeadingOnes(s: string): (n: nat)
    ensures n <= |s| && (forall i | 0 <= i < n :: s[i] == '1') && (n < |s| ==> s[n] != '1')
  {
    if s != "" && s[0] == '1' then 1 + LeadingOnes(s[1..]) else 0
  }

  /** The digits of a text, least significant first, if all characters are in the alphabet. */
  function DigitsOf(s: string): Option<Digits> {
    if s == "" then Some([])
    else
      match (DigitsOf(s[1..]), DigitOf(s[0]))
      case (Some(ds), Some(d)) => Some(ds + [d])
      case _ => None
  }

  ghost predicate AreBytes(d: Digits) {
    forall i | 0 <= i < |d| :: d[i] < 256
  }

  /** Base-256 digits as a byte string, most significant first. */
  function BytesOf(d: Digits): (r: seq<Byte>)
    requires AreBytes(d)
    ensures |r| == |d| && forall i | 0 <= i < |d| :: r[i] == d[|d| - 1 - i]
  {
    if d == [] then [] else BytesOf(d[1..]) + [d[0]]
  }

  function Zeros(n: nat): (r: seq<Byte>)
    ensures |r| == n && forall i | 0 <= i < n :: r[i] == 0
  {
    seq(n, _ => 0)
  }

  /** A zero byte per leading '1', then the bytes of the numeral's value. */
  function Decode(s: string): Option<seq<Byte>> {
    var ones := LeadingOnes(s);
    match DigitsOf(s[ones..])
    case None => None
    case Some(d) =>
      NumeralExact(Value(d, 58), 256);
      Some(Zeros(ones) + BytesOf(Numeral(Value(d, 58), 256)))
  }

  // ------------------------------------------------------------- text side

  lemma {:induction false} DigitsOfRendered(d: Digits)
    requires AllBelow58(d)
    ensures DigitsOf(Render(d)) == Some(d)
  {
    hide CharOf, DigitOf;
    if d != [] {
      var init, top := d[..|d| - 1], d[|d| - 1];
      assert AllBelow58(init);
      DigitsOfRendered(init);
      CharsAreDistinct(top);
      var s := Render(d);
      assert s == [CharOf(top)] + Render(init);
      assert s[1..] == Render(init);
      assert DigitsOf(s) == Some(init + [top]);
      assert init + [top] == d;
    }
  }

  lemma {:induction false} RenderedDigitsOf(s: string)
    requires DigitsOf(s).Some?
    ensures AllBelow58(DigitsOf(s).value) && Render(DigitsOf(s).value) == s
  {
    hide CharOf, DigitOf;
    if s != "" {
      RenderedDigitsOf(s[1..]);
      var init, top := DigitsOf(s[1..]).value, DigitOf(s[0]).value;
      assert (init + [top])[..|init|] == init;
    }
  }

  lemma OnesSplit(n: nat, rest: string)
    requires rest == "" || rest[0] != '1'
    ensures LeadingOnes(Ones(n) + rest) == n && (Ones(n) + rest)[n..] == rest
  {
    var s := Ones(n) + rest;
    var k := LeadingOnes(s);
    assert forall i | 0 <= i < n :: s[i] == '1';
    if n < |s| {
      assert s[n] == rest[0];
    }
  }

  // ------------------------------------------------------------- byte side

  lemma {:induction false} NumberOfBytes(d: Digits)
    requires AreBytes(d)
    ensures Number(BytesOf(d)) == Value(d, 256)
  {
    if d != [] {
      NumberOfBytes(d[1..]);
      var bs := BytesOf(d);
      assert bs[..|bs| - 1] == BytesOf(d[1..]);
    }
  }

  lemma {:induction false} NumberSkipsZeros(n: nat, bs: seq<Byte>)
    ensures Number(Zeros(n) + bs) == Number(bs)
    decreases |bs|, n
  {
    var all := Zeros(n) + bs;
    if bs == [] {
      if n > 0 {
        NumberSkipsZeros(n - 1, []);
        assert all[..|all| - 1] == Zeros(n - 1) + [];
      }
    } else {
      NumberSkipsZeros(n, bs[..|bs| - 1]);
      assert all[..|all| - 1] == Zeros(n) + bs[..|bs| - 1];
    }
  }

  /** Bytes as base-256 digits, least significant first. */
  function DigitsFrom(bs: seq<Byte>): (d: Digits)
    ensures |d| == |bs| && forall i | 0 <= i < |bs| :: d[i] == bs[|bs| - 1 - i]
  {
    seq(|bs|, i requires 0 <= i < |bs| => bs[|bs| - 1 - i])
  }

  /** A byte string without leading zeros is the numeral of its value. */
  lemma BytesAreNumeral(bs: seq<Byte>)
    requires bs == [] || bs[0] != 0
    ensures Canonical(Numeral(Number(bs), 256), 256) && BytesOf(Numeral(Number(bs), 256)) == bs
  {
    var d := DigitsFrom(bs);
    assert BytesOf(d) == bs;
    NumberOfBytes(d);
    CanonicalIsNumeral(d, 256);
  }

  lemma ZerosSplit(bs: seq<Byte>)
    ensures var n := LeadingZeros(bs); Zeros(n) + bs[n..] == bs && (bs[n..] == [] || bs[n..][0] != 0)
  {
  }

  lemma ZerosCount(n: nat, rest: seq<Byte>)
    requires rest == [] || rest[0] != 0
    ensures LeadingZeros(Zeros(n) + rest) == n
  {
    var s := Zeros(n) + rest;
    assert forall i | 0 <= i < n :: s[i] == 0;
    if n < |s| {
      assert s[n] == rest[0];
    }
  }

  // ----------------------------------------------------------- round trips

  lemma TopIsNotOne(d: Digits)
    requires Canonical(d, 58)
    ensures AllBelow58(d) && (Render(d) == "" || Render(d)[0] != '1')
  {
    if d != [] {
      CharsAreDistinct(d[|d| - 1]);
    }
  }

  /** Decoding undoes encoding, for every byte string, leading zeros included. */
  lemma DecodeEncode(bs: seq<Byte>)
    ensures Decode(Encode(bs)) == Some(bs)
  {
    hide Render, Value, Number, Numeral, DigitsOf, LeadingOnes, LeadingZeros, BytesOf;
    var n, v := LeadingZeros(bs), Number(bs);
    ZerosSplit(bs);
    NumberSkipsZeros(n, bs[n..]);
    BytesAreNumeral(bs[n..]);
    NumeralExact(v, 58);
    var d := Numeral(v, 58);
    TopIsNotOne(d);
    OnesSplit(n, Render(d));
    DigitsOfRendered(d);
  }

  lemma {:induction false} TopDigit(s: string)
    requires DigitsOf(s).Some? && (s == "" || s[0] != '1')
    ensures Canonical(DigitsOf(s).value, 58)
  {
    hide DigitsOf;
    RenderedDigitsOf(s);
    var d := DigitsOf(s).value;
    if d != [] {
      CharsAreDistinct(d[|d| - 1]);
    }
  }

  lemma OnesPrefix(s: string)
    ensures Ones(LeadingOnes(s)) + s[LeadingOnes(s)..] == s
  {
  }

  /** And encoding undoes decoding: no byte string has two texts. */
  lemma EncodeDecode(s: string)
    requires Decode(s).Some?
    ensures Encode(Decode(s).value) == s
  {
    var n := LeadingOnes(s);
    var rest := s[n..];
    OnesPrefix(s);
    hide Render, Value, Number, Numeral, DigitsOf, LeadingOnes, LeadingZeros, BytesOf;
    var d := DigitsOf(rest).value;
    TopDigit(rest);
    RenderedDigitsOf(rest);
    CanonicalIsNumeral(d, 58);
    var v := Value(d, 58);
    NumeralExact(v, 256);
    var bytes := BytesOf(Numeral(v, 256));
    NumberOfBytes(Numeral(v, 256));
    NumberSkipsZeros(n, bytes);
    LeadIsNotZero(Numeral(v, 256));
    ZerosCount(n, bytes);
  }

  lemma LeadIsNotZero(d: Digits)
    requires Canonical(d, 256)
    ensures AreBytes(d) && (BytesOf(d) == [] || BytesOf(d)[0] != 0)
  {
  }

  lemma EncodeInjective(a: seq<Byte>, b: seq<Byte>)
    requires Encode(a) == Encode(b)
    ensures a == b
  {
    DecodeEncode(a);
    DecodeEncode(b);
  }

  /** Encoded text stays inside the alphabet. */
  lemma EncodedText(bs: seq<Byte>)
    ensures Lacks(Encode(bs), '#')
  {
    hide CharOf, Numeral, Number;
    NumeralExact(Number(bs), 58);
    var d := Numeral(Number(bs), 58);
    forall i | 0 <= i < |d| ensures CharOf(d[i]) != '#' {
      CharsAreDistinct(d[i]);
    }
  }
}
