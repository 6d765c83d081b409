/** The two lengths of a message as numbers: the decimal Content-Length and the hexadecimal chunk size. */
module HttpLengths {
  import opened Ascii
  import opened HttpTypes
  import opened HttpAutomaton

  /** The value of a sequence of digits, most significant first. */
  function Number(digits: seq<nat>, base: nat): nat
  {
    if digits == [] then 0 else Number(digits[..|digits| - 1], base) * base + digits[|digits| - 1]
  }

  lemma NumberMore(digits: seq<nat>, d: nat, base: nat)
    ensures Number(digits + [d], base) == Number(digits, base) * base + d
  {
    assert (digits + [d])[..|digits|] == digits;
  }

  lemma NumberOne(d: nat, base: nat)
    ensures Number([d], base) == d
  {
    var none: seq<nat> := [];
    assert none + [d] == [d];
    NumberMore(none, d, base);
    assert Number(none, base) == 0;
  }

  /** The largest lengths the overflow tests let through are just below these. */
  function Limit(base: nat): nat
    requires base == 10 || base == 16
  {
    if base == 10 then 18446744073709551610 else 18446744073709551600
  }

  /** The overflow test, which looks only at the value before the digit, is exactly a bound on the value
      after it. The bound is below the "absent" value, so an accepted length never wraps and never
      reads as absent. */
  lemma DigitAccepted(c: Core, base: nat, digit: nat)
    requires (base == 10 || base == 16) && digit < base
    ensures Limit(base) <= ULLONG_MAX
    ensures LengthDigit(c, base, digit).Some? <==> c.clen * base + digit < Limit(base)
  {}

  // ----- Content-Length -----

  function Decimal(b: byte): nat
    requires IsNum(b)
  {
    b - 48
  }

  /** The digits of a value, spaces dropped. */
  function Digits(v: bytes): seq<nat>
    requires forall i :: 0 <= i < |v| ==> IsNum(v[i]) || v[i] == SP
  {
    if v == [] then []
    else
      var init := Digits(v[..|v| - 1]);
      if v[|v| - 1] == SP then init else init + [Decimal(v[|v| - 1])]
  }

  predicate DigitsAndSpaces(v: bytes)
  {
    v != [] && IsNum(v[0]) && forall i :: 0 <= i < |v| ==> IsNum(v[i]) || v[i] == SP
  }

  predicate IsLength(v: bytes)
  {
    DigitsAndSpaces(v) && Number(Digits(v), 10) < Limit(10)
  }

  function LengthOf(v: bytes): nat
    requires IsLength(v)
  {
    Number(Digits(v), 10)
  }

  /** One more byte of a length. */
  lemma LengthMore(v: bytes, ch: byte)
    requires DigitsAndSpaces(v)
    ensures DigitsAndSpaces(v + [ch]) <==> IsNum(ch) || ch == SP
    ensures ch == SP ==> Number(Digits(v + [ch]), 10) == Number(Digits(v), 10)
    ensures IsNum(ch) ==> Number(Digits(v + [ch]), 10) == Number(Digits(v), 10) * 10 + (ch - 48)
  {
    var w := v + [ch];
    assert w[|v|] == ch && w[..|v|] == v;
    if IsNum(ch) { NumberMore(Digits(v), Decimal(ch), 10); }
  }

  lemma LengthOne(ch: byte)
    ensures IsLength([ch]) <==> IsNum(ch)
    ensures IsNum(ch) ==> LengthOf([ch]) == ch - 48
  {
    hide Number;
    var v := [ch];
    assert v[..0] == [];
    if IsNum(ch) {
      assert Digits(v) == [Decimal(ch)];
      NumberOne(Decimal(ch), 10);
    }
  }

  /** What cannot be a length cannot become one. */
  lemma NotALength(v: bytes, ch: byte)
    requires v != [] && !IsLength(v)
    ensures !IsLength(v + [ch])
  {
    var w := v + [ch];
    assert w[..|v|] == v;
    if DigitsAndSpaces(w) {
      assert forall i :: 0 <= i < |v| ==> v[i] == w[i];
      LengthMore(v, ch);
    }
  }

  // ----- chunk sizes -----

  /** The bytes the size line takes as digits: the hexadecimal ones, and every byte above 127. */
  predicate SizeDigit(b: byte) { Unhex(b) != -1 }

  function DigitOf(b: byte): nat
    requires SizeDigit(b)
  {
    Unhex(b)
  }

  function SizeDigits(s: bytes): (r: seq<nat>)
    requires forall i :: 0 <= i < |s| ==> SizeDigit(s[i])
    ensures |r| == |s|
  {
    seq(|s|, i requires 0 <= i < |s| => DigitOf(s[i]))
  }

  function SizeOf(s: bytes): nat
    requires forall i :: 0 <= i < |s| ==> SizeDigit(s[i])
  {
    Number(SizeDigits(s), 16)
  }

  lemma SizeMore(s: bytes, b: byte)
    requires forall i :: 0 <= i < |s| ==> SizeDigit(s[i])
    requires SizeDigit(b)
    ensures SizeOf(s + [b]) == SizeOf(s) * 16 + DigitOf(b)
  {
    assert SizeDigits(s + [b]) == SizeDigits(s) + [DigitOf(b)];
    NumberMore(SizeDigits(s), DigitOf(b), 16);
  }

  /** A hexadecimal digit as its value, the standard reading of one character. */
  function HexDigitValue(b: byte): nat
    requires IsHex(b)
  {
    if IsNum(b) then b - 48 else Lower(b) - 87
  }

  /** The table is right on ASCII: a byte is taken as a digit exactly when it is one, with its value. */
  lemma TableOnAscii(b: byte)
    requires b < 128
    ensures SizeDigit(b) <==> IsHex(b)
    ensures IsHex(b) ==> Unhex(b) == HexDigitValue(b)
  {}

  /** Above ASCII it is wrong for every byte: no such byte is a digit, all are taken as 0. */
  lemma TableAboveAscii(b: byte)
    requires b >= 128
    ensures SizeDigit(b) && Unhex(b) == 0 && !IsHex(b)
  {}
}
