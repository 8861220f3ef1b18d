/** The hand-written base58btc encoder, against positional numerals. */
module Base58 {
  import opened Text

  // --------------------------------------------------------------- numerals

  /** Digits of some base, least significant first. */
  type Digits = seq<nat>

  function Value(d: Digits, base: nat): nat {
    if d == [] then 0 else d[0] + base * Value(d[1..], base)
  }

  /** Proper digits, without a leading (last) zero. */
  ghost predicate Canonical(d: Digits, base: nat) {
    (forall i | 0 <= i < |d| :: d[i] < base) && (d != [] ==> d[|d| - 1] != 0)
  }

  /** The two bases in play; a fixed base keeps the arithmetic linear. */
  predicate IsBase(base: nat) {
    base == 58 || base == 256
  }

  function Numeral(v: nat, base: nat): Digits
    requires IsBase(base)
    decreases v
  {
    if v == 0 then [] else DivShrinks(v, base); [v % base] + Numeral(v / base, base)
  }

  lemma DivShrinks(v: nat, base: nat)
    requires IsBase(base) && v > 0
    ensures v / base < v && v == v % base + base * (v / base) && v % base < base
  {
    if base == 58 {
    } else {
    }
  }

  lemma DivMod58(d: nat, rest: nat)
    requires d < 58
    ensures (d + 58 * rest) % 58 == d && (d + 58 * rest) / 58 == rest
  {
  }

  lemma DivMod256(d: nat, rest: nat)
    requires d < 256
    ensures (d + 256 * rest) % 256 == d && (d + 256 * rest) / 256 == rest
  {
  }

  lemma DivMod(d: nat, base: nat, rest: nat)
    requires IsBase(base) && d < base
    ensures (d + base * rest) % base == d && (d + base * rest) / base == rest
  {
    if base == 58 {
      DivMod58(d, rest);
    } else {
      DivMod256(d, rest);
    }
  }

  lemma {:induction false} NumeralExact(v: nat, base: nat)
    requires IsBase(base)
    ensures Value(Numeral(v, base), base) == v && Canonical(Numeral(v, base), base)
    decreases v
  {
    if v > 0 {
      DivShrinks(v, base);
      NumeralExact(v / base, base);
      var rest := Numeral(v / base, base);
      assert Numeral(v, base)[1..] == rest;
      if rest == [] {
        assert v / base == 0;
      }
    }
  }

  /** Canonical digits are determined by their value. */
  lemma {:induction false} CanonicalIsNumeral(d: Digits, base: nat)
    requires IsBase(base) && Canonical(d, base)
    ensures Numeral(Value(d, base), base) == d
  {
    if d != [] {
      var rest := Value(d[1..], base);
      CanonicalIsNumeral(d[1..], base);
      DivMod(d[0], base, rest);
      if Value(d, base) == 0 {
        ZeroValue(d, base);
      }
    }
  }

  lemma {:induction false} ZeroValue(d: Digits, base: nat)
    requires IsBase(base) && Canonical(d, base) && Value(d, base) == 0
    ensures d == []
  {
    if d != [] {
      if base == 58 {
        ZeroValue(d[1..], base);
      } else {
        ZeroValue(d[1..], base);
      }
    }
  }

  // ------------------------------------------------------- the carry loops

  function PushCarry(carry: nat): Digits {
    if carry == 0 then [] else [carry % 58] + PushCarry(carry / 58)
  }

  /** Digits of `256 * d + carry`, the way the loops produce them. */
  function Shifted(d: Digits, carry: nat): Digits {
    if d == [] then PushCarry(carry)
    else
      var c := carry + d[0] * 256;
      [c % 58] + Shifted(d[1..], c / 58)
  }

  lemma {:induction false} PushCarryExact(carry: nat)
    ensures Value(PushCarry(carry), 58) == carry && Canonical(PushCarry(carry), 58)
  {
    if carry > 0 {
      PushCarryExact(carry / 58);
      assert PushCarry(carry)[1..] == PushCarry(carry / 58);
    }
  }

  lemma {:induction false} ShiftedExact(d: Digits, carry: nat)
    requires Canonical(d, 58)
    ensures Value(Shifted(d, carry), 58) == 256 * Value(d, 58) + carry
    ensures Canonical(Shifted(d, carry), 58)
    ensures d != [] ==> Shifted(d, carry) != []
  {
    if d == [] {
      PushCarryExact(carry);
    } else {
      var c := carry + d[0] * 256;
      ShiftedExact(d[1..], c / 58);
      var r := Shifted(d, carry);
      assert r[1..] == Shifted(d[1..], c / 58);
      if |d| == 1 {
        assert d[1..] == [];
        assert c / 58 > 0;
      }
    }
  }

  /** Big-endian value of a byte string. */
  function Number(bs: seq<Byte>): nat {
    if bs == [] then 0 else 256 * Number(bs[..|bs| - 1]) + bs[|bs| - 1]
  }

  function LeadingZeros(bs: seq<Byte>): (n: nat)
    ensures n <= |bs| && (forall i | 0 <= i < n :: bs[i] == 0) && (n < |bs| ==> bs[n] != 0)
  {
    if bs != [] && bs[0] == 0 then 1 + LeadingZeros(bs[1..]) else 0
  }

  /** The Bitcoin alphabet by ranges: digits and letters without 0, I, O and l. */
  function CharOf(d: nat): char
    requires d < 58
  {
    if d < 9 then ('1' as int + d) as char
    else if d < 17 then ('A' as int + d - 9) as char
    else if d < 22 then ('J' as int + d - 17) as char
    else if d < 33 then ('P' as int + d - 22) as char
    else if d < 44 then ('a' as int + d - 33) as char
    else ('m' as int + d - 44) as char
  }

  function DigitOf(c: char): (r: Option<nat>)
    ensures r.Some? ==> r.value < 58 && CharOf(r.value) == c
    ensures r.None? ==> forall d: nat | d < 58 :: CharOf(d) != c
  {
    var n := c as int;
    if '1' <= c <= '9' then Some(n - '1' as int)
    else if 'A' <= c <= 'H' then Some(n - 'A' as int + 9)
    else if 'J' <= c <= 'N' then Some(n - 'J' as int + 17)
    else if 'P' <= c <= 'Z' then Some(n - 'P' as int + 22)
    else if 'a' <= c <= 'k' then Some(n - 'a' as int + 33)
    else if 'm' <= c <= 'z' then Some(n - 'm' as int + 44)
    else None
  }

  lemma CharsAreDistinct(d: nat)
    requires d < 58
    ensures DigitOf(CharOf(d)) == Some(d) && (CharOf(d) == '1' <==> d == 0) && CharOf(d) != '#'
  {
  }

  /** The alphabet, exactly: the ASCII letters and digits except 0, O, I and l,
      in ASCII order. */
  lemma AlphabetIs(c: char, d: nat, e: nat)
    ensures DigitOf(c).Some? <==> IsAsciiAlnum(c) && c !in {'0', 'O', 'I', 'l'}
    ensures d < e < 58 ==> CharOf(d) < CharOf(e)
  {
  }

  ghost predicate AllBelow58(d: Digits) {
    forall i | 0 <= i < |d| :: d[i] < 58
  }

  /** Digits as text, most significant first. */
  function Render(d: Digits): (r: string)
    requires AllBelow58(d)
    ensures |r| == |d| && forall i | 0 <= i < |d| :: r[i] == CharOf(d[|d| - 1 - i])
  {
    if d == [] then "" else [CharOf(d[|d| - 1])] + Render(d[..|d| - 1])
  }

  function Ones(n: nat): (r: string)
    ensures |r| == n && forall i | 0 <= i < n :: r[i] == '1'
  {
    seq(n, _ => '1')
  }

  /** What the encoding is: one '1' per leading zero byte, then the base-58
      numeral of the whole byte string read as a number. */
  function Encode(bs: seq<Byte>): string {
    NumeralExact(Number(bs), 58);
    Ones(LeadingZeros(bs)) + Render(Numeral(Number(bs), 58))
  }

  method CountZeros(input: seq<Byte>) returns (zeros: nat)
    ensures zeros == LeadingZeros(input)
  {
    zeros := 0;
    while zeros < |input| && input[zeros] == 0
      invariant zeros <= |input| && forall i | 0 <= i < zeros :: input[i] == 0
    {
      zeros := zeros + 1;
    }
  }

  method RenderInto(prefix: string, digits: Digits) returns (out: string)
    requires AllBelow58(digits)
    ensures out == prefix + Render(digits)
  {
    out := prefix;
    var i := |digits|;
    assert digits[..i] == digits;
    while i > 0
      invariant 0 <= i <= |digits|
      invariant out + Render(digits[..i]) == prefix + Render(digits)
    {
      i := i - 1;
      assert digits[..i + 1][..i] == digits[..i];
      assert out + ([CharOf(digits[i])] + Render(digits[..i])) == out + [CharOf(digits[i])] + Render(digits[..i]);
      out := out + [CharOf(digits[i])];
    }
    assert out + "" == out;
  }

  /** `base58_encode`. Between inner steps the carry stays below 256, so the
      32-bit arithmetic is exact. */
  method Base58Encode(input: seq<Byte>) returns (out: string)
    ensures out == Encode(input)
  {
    var zeros := CountZeros(input);
    var digits: Digits := [];
    for k := 0 to |input|
      invariant Canonical(digits, 58) && Value(digits, 58) == Number(input[..k])
    {
      assert input[..k + 1][..k] == input[..k];
      digits := ShiftIn(digits, input[k]);
    }
    assert input[..|input|] == input;
    CanonicalIsNumeral(digits, 58);
    out := RenderInto(Ones(zeros), digits);
  }

  lemma ShiftedStep(done: Digits, tail: Digits, carry: nat)
    requires tail != []
    ensures var c := carry + tail[0] * 256;
            done + Shifted(tail, carry) == done + [c % 58] + Shifted(tail[1..], c / 58)
  {
  }

  lemma CarryStep(done: Digits, carry: nat)
    requires carry > 0
    ensures done + PushCarry(carry) == done + [carry % 58] + PushCarry(carry / 58)
  {
  }

  lemma PutDigit(done: Digits, tail: Digits, x: nat)
    requires tail != []
    ensures (done + tail)[|done| := x] == done + [x] + tail[1..]
  {
  }

  /** The first inner loop: every digit times 256, the carry passed on. */
  method MultiplyIn(old_: Digits, byte: Byte) returns (digits: Digits, carry: nat)
    requires AllBelow58(old_)
    ensures carry < 256 && digits + PushCarry(carry) == Shifted(old_, byte)
  {
    hide Shifted, PushCarry;
    digits, carry := old_, byte;
    ghost var done: Digits := [];
    assert old_[0..] == old_ && [] + Shifted(old_, byte) == Shifted(old_, byte);
    for i := 0 to |old_|
      invariant |done| == i && digits == done + old_[i..] && carry < 256
      invariant done + Shifted(old_[i..], carry) == Shifted(old_, byte)
    {
      ghost var tail := old_[i..];
      assert tail[1..] == old_[i + 1..] && tail[0] == old_[i];
      ShiftedStep(done, tail, carry);
      carry := carry + digits[i] * 256;
      PutDigit(done, tail, carry % 58);
      digits := digits[i := carry % 58];
      done := done + [carry % 58];
      carry := carry / 58;
    }
    assert old_[|old_|..] == [] && done + [] == done;
    NoMoreDigits(carry);
  }

  /** Both inner loops: multiply the digits by 256 and add a byte. */
  method ShiftIn(old_: Digits, byte: Byte) returns (digits: Digits)
    requires Canonical(old_, 58)
    ensures Canonical(digits, 58) && Value(digits, 58) == 256 * Value(old_, 58) + byte
  {
    ShiftedExact(old_, byte);
    assert AllBelow58(old_);
    hide Canonical, Value, Shifted, PushCarry;
    var carry;
    digits, carry := MultiplyIn(old_, byte);
    while carry > 0
      invariant digits + PushCarry(carry) == Shifted(old_, byte)
    {
      CarryStep(digits, carry);
      digits := digits + [carry % 58];
      carry := carry / 58;
    }
    NoMoreDigits(carry);
    assert digits + [] == digits;
  }

  lemma NoMoreDigits(carry: nat)
    ensures Shifted([], carry) == PushCarry(carry) && PushCarry(0) == []
  {
  }
}
