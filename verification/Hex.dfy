/** Hexadecimal text: fixed-width lower-case printing, radix-16 parsing, byte splitting. */
module Hex {
  import opened Options

  function Digit(v: nat): char
    requires v < 16
  {
    "0123456789abcdef"[v]
  }

  function DigitValue(c: char): (r: Option<nat>)
    ensures r.Some? ==> r.value < 16
  {
    if '0' <= c <= '9' then Some(c as nat - '0' as nat)
    else if 'a' <= c <= 'f' then Some(10 + (c as nat - 'a' as nat))
    else if 'A' <= c <= 'F' then Some(10 + (c as nat - 'A' as nat))
    else None
  }

  predicate IsLowerHex(c: char) {
    '0' <= c <= '9' || 'a' <= c <= 'f'
  }

  ghost predicate AllLowerHex(s: string) {
    forall i :: 0 <= i < |s| ==> IsLowerHex(s[i])
  }

  lemma DigitInverse(v: nat)
    requires v < 16
    ensures IsLowerHex(Digit(v)) && DigitValue(Digit(v)) == Some(v)
  {
  }

  lemma DigitValueInverse(c: char)
    requires IsLowerHex(c)
    ensures DigitValue(c).Some? && Digit(DigitValue(c).value) == c
  {
  }

  /** The low `w` hexadecimal digits of `v`. */
  function Digits(v: nat, w: nat): (s: string)
    ensures |s| == w
  {
    if w == 0 then [] else Digits(v / 16, w - 1) + [Digit(v % 16)]
  }

  /** The number written by the digits, or None if some character is not one. */
  function Number(s: string): Option<nat> {
    if s == [] then Some(0)
    else
      var high, low := Number(s[..|s| - 1]), DigitValue(s[|s| - 1]);
      if high.None? || low.None? then None else Some(high.value * 16 + low.value)
  }

  function Pow16(w: nat): (r: nat)
    ensures r > 0
  {
    if w == 0 then 1 else 16 * Pow16(w - 1)
  }

  lemma {:induction false} DigitsLowerHex(v: nat, w: nat)
    ensures AllLowerHex(Digits(v, w))
  {
    if w > 0 {
      DigitsLowerHex(v / 16, w - 1);
      DigitInverse(v % 16);
    }
  }

  lemma {:induction false} NumberOfDigits(v: nat, w: nat)
    requires v < Pow16(w)
    ensures Number(Digits(v, w)) == Some(v)
  {
    if w > 0 {
      NumberOfDigits(v / 16, w - 1);
      DigitInverse(v % 16);
      assert Digits(v, w)[..w - 1] == Digits(v / 16, w - 1);
    }
  }

  lemma SplitLowDigit(high: nat, low: nat)
    requires low < 16
    ensures (high * 16 + low) / 16 == high && (high * 16 + low) % 16 == low
  {
  }

  lemma {:induction false} DigitsOfNumber(s: string)
    requires AllLowerHex(s)
    ensures Number(s).Some? && Number(s).value < Pow16(|s|) && Digits(Number(s).value, |s|) == s
  {
    if s != [] {
      var init, last := s[..|s| - 1], s[|s| - 1];
      DigitsOfNumber(init);
      DigitValueInverse(last);
      var high, low := Number(init).value, DigitValue(last).value;
      SplitLowDigit(high, low);
      assert Digits(high * 16 + low, |s|) == Digits(high, |init|) + [Digit(low)] == init + [last] == s;
    }
  }

  /** The low `n` bytes of `v`, most significant first. */
  function Bytes(v: nat, n: nat): (s: seq<nat>)
    ensures |s| == n && forall i :: 0 <= i < n ==> s[i] < 256
  {
    if n == 0 then [] else Bytes(v / 256, n - 1) + [v % 256]
  }

  /** Shift right by `k` bytes. */
  function ShiftBytes(v: nat, k: nat): nat {
    if k == 0 then v else ShiftBytes(v / 256, k - 1)
  }

  lemma {:induction false} BytesAt(v: nat, n: nat, i: nat)
    requires i < n
    ensures Bytes(v, n)[i] == ShiftBytes(v, n - 1 - i) % 256
  {
    if i < n - 1 {
      BytesAt(v / 256, n - 1, i);
    }
  }

  function FromBytes(b: seq<nat>): nat {
    if b == [] then 0 else FromBytes(b[..|b| - 1]) * 256 + b[|b| - 1]
  }

  lemma {:induction false} BytesOfFromBytes(b: seq<nat>)
    requires forall i :: 0 <= i < |b| ==> b[i] < 256
    ensures Bytes(FromBytes(b), |b|) == b && FromBytes(b) < Pow16(2 * |b|)
  {
    if b != [] {
      var init, last := b[..|b| - 1], b[|b| - 1];
      BytesOfFromBytes(init);
      assert b == init + [last];
      assert Pow16(2 * |b|) == 16 * (16 * Pow16(2 * |init|));
    }
  }

  function HexBytes(b: seq<nat>): string {
    if b == [] then [] else HexBytes(b[..|b| - 1]) + Digits(b[|b| - 1], 2)
  }

  /** Printing bytes two digits each is printing the number they make up. */
  lemma {:induction false} HexBytesAreDigits(v: nat, n: nat)
    ensures HexBytes(Bytes(v, n)) == Digits(v, 2 * n)
  {
    if n > 0 {
      HexBytesAreDigits(v / 256, n - 1);
      assert Bytes(v, n)[..n - 1] == Bytes(v / 256, n - 1);
      TwoDigits(v, 2 * n);
      DigitsOfLowByte(v);
    }
  }

  lemma {:induction false} DigitsOfLowByte(v: nat)
    ensures Digits(v % 256, 2) == [Digit(v / 16 % 16), Digit(v % 16)]
  {
    TwoDigits(v % 256, 2);
    Nibbles(v);
  }

  lemma Nibbles(v: nat)
    ensures v % 256 / 16 % 16 == v / 16 % 16 && v % 256 % 16 == v % 16
  {
    var q, r := v / 256, v % 256;
    assert v == 256 * q + r;
    assert v / 16 == 16 * q + r / 16;
  }

  lemma TwoDigits(v: nat, w: nat)
    requires w >= 2
    ensures Digits(v, w) == Digits(v / 256, w - 2) + [Digit(v / 16 % 16), Digit(v % 16)]
  {
    assert v / 16 / 16 == v / 256;
    assert Digits(v / 16, w - 1) == Digits(v / 16 / 16, w - 2) + [Digit(v / 16 % 16)];
  }

  /** `from_str_radix(_, 16)` into an unsigned integer below `bound`. */
  function ParseRadix16(s: string, bound: nat): Option<nat> {
    if s == [] || s == "+" then None
    else
      var n := Number(if s[0] == '+' then s[1..] else s);
      if n.None? || n.value >= bound then None else n
  }

  lemma {:induction false} ParseUnsigned(s: string, v: nat, bound: nat)
    requires s != [] && s[0] != '+' && Number(s) == Some(v) && v < bound
    ensures ParseRadix16(s, bound) == Some(v)
  {
  }

  lemma {:induction false} ParseDigits(v: nat, w: nat, bound: nat)
    requires w > 0 && v < Pow16(w) && v < bound
    ensures ParseRadix16(Digits(v, w), bound) == Some(v)
  {
    NumberOfDigits(v, w);
    DigitsLowerHex(v, w);
  }

  predicate IsHexDigit(c: char) {
    c in "0123456789abcdefABCDEF"
  }

  /** Exactly the strings of hexadecimal digits, of either case, are numbers. */
  lemma {:induction false} NumberIff(s: string)
    ensures Number(s).Some? <==> forall i :: 0 <= i < |s| ==> IsHexDigit(s[i])
  {
    if s != [] {
      NumberIff(s[..|s| - 1]);
      DigitIff(s[|s| - 1]);
      assert forall i :: 0 <= i < |s| - 1 ==> s[..|s| - 1][i] == s[i];
    }
  }

  lemma DigitIff(c: char)
    ensures DigitValue(c).Some? <==> IsHexDigit(c)
  {
    if DigitValue(c).Some? {
      var v := DigitValue(c).value;
      assert c == "0123456789abcdef"[v] || (v >= 10 && c == "ABCDEF"[v - 10]);
      assert "0123456789abcdefABCDEF"[v] == "0123456789abcdef"[v];
      assert v >= 10 ==> "0123456789abcdefABCDEF"[v + 6] == "ABCDEF"[v - 10];
    }
  }

  /** Letter case and a leading plus sign do not matter. */
  lemma CaseAndSign(c: char, s: string, bound: nat)
    requires 'a' <= c <= 'f' && s != [] && s[0] != '+'
    ensures DigitValue(c - 'a' + 'A') == DigitValue(c)
    ensures ParseRadix16("+" + s, bound) == ParseRadix16(s, bound)
  {
    assert ("+" + s)[1..] == s;
  }
}
