/** Itoa: digits produced least significant first and then reversed in place. */
module Itoa {
  import opened LongMath

  /** Entry d of the digit table "0123456789abcdefghijklmnopqrstuvwxyz". */
  function Digit(d: nat): char
    requires d < 36
  {
    if d < 10 then '0' + d as char else 'a' + (d - 10) as char
  }

  /** The radix a caller may pass: one the digit table covers. */
  predicate Radix(r: int) { 2 <= r <= 36 }

  predicate Int32(value: int) { -0x8000_0000 <= value < 0x8000_0000 }

  /** The magnitude the digit loop works on.  Only radix 10 is signed; the other radices print
      the two's complement pattern.  Negating the least integer wraps to itself, whose pattern is
      its magnitude. */
  function Magnitude(value: int, radix: int): nat
    requires Int32(value)
  {
    if radix == 10 && value < 0 then -value else if value < 0 then value + 0x1_0000_0000 else value
  }

  /** The digits of v, most significant first. */
  function Numeral(v: nat, radix: int): seq<char>
    requires Radix(radix)
    decreases v
  {
    Shrinks(v, radix);
    if v < radix then [Digit(v)] else Numeral(v / radix, radix) + [Digit(v % radix)]
  }

  lemma Shrinks(v: nat, radix: int)
    requires Radix(radix)
    ensures 0 <= v / radix && (v > 0 ==> v / radix < v) && 0 <= v % radix < radix && v == v / radix * radix + v % radix
    ensures v / radix == 0 <==> v < radix
  {
    NonNegativeQuotient(v, radix);
    if v < radix {
      DivisionUnique(v, radix, 0, v);
    } else {
      SmallerQuotient(v, radix, v / radix, v % radix);
    }
  }

  lemma SmallerQuotient(v: nat, radix: int, q: nat, r: nat)
    requires Radix(radix) && v == q * radix + r && r < radix <= v
    ensures 0 < q < v
  {
    assert q * radix == q * 2 + q * (radix - 2);
    assert q * (radix - 2) >= 0;
  }

  /** The whole string: an optional sign, then the digits. */
  function Text(value: int, radix: int): seq<char>
    requires Int32(value) && Radix(radix)
  {
    (if radix == 10 && value < 0 then ['-'] else []) + Numeral(Magnitude(value, radix), radix)
  }

  function Reverse<T>(s: seq<T>): seq<T> {
    seq(|s|, i requires 0 <= i < |s| => s[|s| - 1 - i])
  }

  // ----- the routine -----

  /** The digit loop: the digits of v from the least significant on. */
  method EmitDigits(v0: nat, str: array<char>, radix: int) returns (n: nat)
    requires Radix(radix) && |Numeral(v0, radix)| <= str.Length
    modifies str
    ensures n == |Numeral(v0, radix)| && Reverse(str[..n]) == Numeral(v0, radix)
    ensures str[n..] == old(str[n..])
  {
    hide Numeral, Digit, Reverse;
    ghost var numeral := Numeral(v0, radix);
    var v: nat := v0;
    n := 0;
    ReverseNothing(str[..0]);
    while n == 0 || v != 0
      invariant 0 <= n <= |numeral| && (n == 0 ==> v == v0)
      invariant numeral == (if n > 0 && v == 0 then [] else Numeral(v, radix)) + Reverse(str[..n])
      invariant str[|numeral|..] == old(str[|numeral|..])
      decreases v, if n == 0 then 1 else 0
    {
      NumeralStep(v, radix);
      Shrinks(v, radix);
      ReverseLength(str[..n]);
      ReverseCons(str[..n], Digit(v % radix));
      ghost var before := str[..n];
      str[n] := Digit(v % radix);
      n := n + 1;
      assert str[..n] == before + [Digit(v % radix)];
      v := v / radix;
    }
    ReverseLength(str[..n]);
  }

  /** Itoa on a buffer long enough for the text and its terminator. */
  method Itoa(value: int, str: array<char>, radix: int)
    requires Int32(value) && Radix(radix) && |Text(value, radix)| < str.Length
    modifies str
    ensures var n := |Text(value, radix)|;
            && str[..n] == Text(value, radix) && str[n] == '\0'
            && str[n + 1..] == old(str[n + 1..])
  {
    hide Numeral, Reverse;
    var neg := radix == 10 && value < 0;
    var v: int := if neg then -value else if value < 0 then value + 0x1_0000_0000 else value;
    var n := EmitDigits(v, str, radix);
    ghost var digits, rest := str[..n], str[n..];
    if neg {
      ReverseCons(digits, '-');
      str[n] := '-';
      n := n + 1;
      assert str[..n] == digits + ['-'];
    }
    ghost var reversed := str[..n];
    assert Reverse(reversed) == Text(value, radix);
    ReverseLength(reversed);
    str[n] := '\0';
    assert str[..n] == reversed && str[n + 1..] == rest[n + 1 - |digits|..];
    ReverseInPlace(str, n);
    assert str[n] == str[n..][0] && str[n + 1..] == str[n..][1..];
  }

  lemma ReverseNothing<T>(s: seq<T>)
    requires s == []
    ensures Reverse(s) == []
  {
  }

  lemma ReverseLength<T>(s: seq<T>)
    ensures |Reverse(s)| == |s|
  {
  }

  lemma NumeralStep(v: nat, radix: int)
    requires Radix(radix)
    ensures Numeral(v, radix) ==
            (if v / radix == 0 then [] else Numeral(v / radix, radix)) + [Digit(v % radix)]
  {
    Shrinks(v, radix);
  }

  lemma ReverseCons<T>(s: seq<T>, x: T)
    ensures Reverse(s + [x]) == [x] + Reverse(s)
  {
  }

  /** The two pointers walking towards each other over the first n characters. */
  method ReverseInPlace(str: array<char>, n: nat)
    requires n <= str.Length
    modifies str
    ensures str[..n] == Reverse(old(str[..n])) && str[n..] == old(str[n..])
  {
    var p, q := 0, n - 1;
    while p < q
      invariant 0 <= p && p + q == n - 1 && p <= q + 1
      invariant forall i :: 0 <= i < p || q < i < n ==> str[i] == old(str[n - 1 - i])
      invariant forall i :: p <= i <= q ==> str[i] == old(str[i])
      invariant str[n..] == old(str[n..])
    {
      str[p], str[q] := str[q], str[p];
      p, q := p + 1, q - 1;
    }
    assert forall i :: 0 <= i < n ==> str[..n][i] == old(str[..n])[n - 1 - i];
  }

  // ----- reading it back -----

  /** The value of a digit, or 36 for any other character. */
  function DigitValue(c: char): nat {
    if '0' <= c <= '9' then c as int - '0' as int
    else if 'a' <= c <= 'z' then c as int - 'a' as int + 10 else 36
  }

  /** Positional value, most significant digit first. */
  function Value(s: seq<char>, radix: int): int {
    if s == [] then 0 else Value(s[..|s| - 1], radix) * radix + DigitValue(s[|s| - 1])
  }

  function Parse(s: seq<char>, radix: int): int {
    if s != [] && s[0] == '-' then -Value(s[1..], radix) else Value(s, radix)
  }

  lemma DigitRoundTrip(d: nat)
    requires d < 36
    ensures DigitValue(Digit(d)) == d && Digit(d) != '-' && (Digit(d) == '0' <==> d == 0)
  {
  }

  lemma {:induction false} NumeralRoundTrip(v: nat, radix: int)
    requires Radix(radix)
    ensures Value(Numeral(v, radix), radix) == v
    ensures Numeral(v, radix)[0] != '-' && (Numeral(v, radix)[0] == '0' <==> v == 0)
    decreases v
  {
    hide Digit, DigitValue;
    Shrinks(v, radix);
    if v < radix {
      DigitRoundTrip(v);
      assert Value(Numeral(v, radix)[..0], radix) == 0;
    } else {
      DigitRoundTrip(v % radix);
      NumeralRoundTrip(v / radix, radix);
      var s := Numeral(v, radix);
      assert s[..|s| - 1] == Numeral(v / radix, radix);
    }
  }

  /** The text parses back to the value: to the signed value in radix 10, to the unsigned 32-bit
      pattern otherwise. */
  lemma TextRoundTrip(value: int, radix: int)
    requires Int32(value) && Radix(radix)
    ensures Parse(Text(value, radix), radix) == if radix == 10 || value >= 0 then value else value + 0x1_0000_0000
  {
    hide Value, Numeral;
    var ds := Numeral(Magnitude(value, radix), radix);
    NumeralRoundTrip(Magnitude(value, radix), radix);
    if radix == 10 && value < 0 {
      assert Text(value, radix)[1..] == ds;
    } else {
      assert Text(value, radix) == ds;
    }
  }

  function Power(b: nat, n: nat): nat {
    if n == 0 then 1 else b * Power(b, n - 1)
  }

  /** The number of digits is exact: n digits for values from radix^(n-1) up to radix^n. */
  lemma {:induction false} DigitCount(v: nat, radix: int)
    requires Radix(radix)
    ensures var n := |Numeral(v, radix)|;
            n >= 1 && v < Power(radix, n) && (v > 0 ==> Power(radix, n - 1) <= v)
    decreases v
  {
    hide Digit;
    Shrinks(v, radix);
    if v < radix {
      assert Power(radix, 1) == radix * Power(radix, 0);
    } else {
      DigitCount(v / radix, radix);
      var q, r, p, n := v / radix, v % radix, Power(radix, |Numeral(v / radix, radix)|), |Numeral(v, radix)|;
      assert Power(radix, n) == radix * p;
      MulBounds(q, r, radix, p);
      MulAtLeast(q, r, radix, Power(radix, n - 2));
    }
  }

  lemma MulBounds(q: nat, r: nat, radix: nat, p: nat)
    requires q < p && r < radix
    ensures q * radix + r < radix * p
  {
    assert (q + 1) * radix <= p * radix;
  }

  lemma MulAtLeast(q: nat, r: nat, radix: nat, p: nat)
    requires p <= q
    ensures radix * p <= q * radix + r
  {
    assert p * radix <= q * radix;
  }

  /** A 32-bit value has at most 8 hexadecimal digits. */
  lemma HexWidth(value: int)
    requires Int32(value)
    ensures |Text(value, 16)| <= 8
  {
    var v := Magnitude(value, 16);
    if v > 0 {
      AtMostEight(v);
    }
  }

  lemma AtMostEight(v: nat)
    requires 0 < v < 0x1_0000_0000
    ensures |Numeral(v, 16)| <= 8
  {
    hide Numeral, Power;
    var n := |Numeral(v, 16)|;
    DigitCount(v, 16);
    if n > 8 {
      PowerGrows(16, 8, n - 1);
      SixteenToTheEighth();
    }
  }

  lemma SixteenToTheEighth()
    ensures Power(16, 8) == 0x1_0000_0000
  {
    assert Power(16, 4) == 0x1_0000;
  }

  lemma {:induction false} PowerGrows(b: nat, i: nat, j: nat)
    requires b >= 1 && i <= j
    ensures 1 <= Power(b, i) <= Power(b, j)
    decreases j
  {
    if i < j {
      PowerGrows(b, i, j - 1);
      assert b * Power(b, j - 1) >= Power(b, j - 1);
    } else if i > 0 {
      PowerGrows(b, i - 1, j - 1);
      assert b * Power(b, j - 1) >= 1;
    }
  }
}
