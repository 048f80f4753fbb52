/** Decimal numerals as XFontName.c writes and reads them, with numbers of 32 bits. */
module Decimal {
  const UNSIGNED := 0x1_0000_0000

  predicate IsDigit(c: char) {
    '0' <= c <= '9'
  }

  predicate AllDigits(t: string) {
    forall i :: 0 <= i < |t| ==> IsDigit(t[i])
  }

  function Digit(d: nat): char
    requires d < 10
  {
    ('0' as int + d) as char
  }

  /** The number a string of digits stands for, the empty string standing for 0. */
  function Value(t: string): nat
    requires AllDigits(t)
  {
    if t == "" then 0 else Value(t[..|t| - 1]) * 10 + (t[|t| - 1] as int - '0' as int)
  }

  /** The numeral without leading zeros. */
  function Numeral(n: nat): (t: string)
    ensures AllDigits(t) && t != "" && Value(t) == n
  {
    if n < 10 then [Digit(n)]
    else
      var front, last := Numeral(n / 10), Digit(n % 10);
      assert (front + [last])[..|front|] == front;
      front + [last]
  }

  /** A non-empty string of digits without a leading zero, except "0" itself. */
  predicate Canonical(t: string) {
    AllDigits(t) && t != "" && (t[0] == '0' ==> t == "0")
  }

  lemma {:induction false} CanonicalIsNumeral(t: string)
    requires Canonical(t)
    ensures Numeral(Value(t)) == t && (t != "0" ==> Value(t) > 0)
    decreases |t|
  {
    if |t| == 1 {
      assert Value(t[..0]) == 0;
    } else {
      var front := t[..|t| - 1];
      assert front[0] == t[0];
      CanonicalIsNumeral(front);
      assert Value(t) / 10 == Value(front);
      assert t == front + [t[|t| - 1]];
    }
  }

  lemma {:induction false} NumeralIsCanonical(n: nat)
    ensures Canonical(Numeral(n)) && (n > 0 ==> Numeral(n)[0] != '0')
  {
    if n >= 10 {
      NumeralIsCanonical(n / 10);
      assert Numeral(n)[0] == Numeral(n / 10)[0];
    }
  }

  function Power(k: nat): nat {
    if k == 0 then 1 else 10 * Power(k - 1)
  }

  lemma {:induction false} NumeralLength(n: nat, k: nat)
    requires n < Power(k) && k > 0
    ensures |Numeral(n)| <= k
    decreases k
  {
    if n >= 10 {
      NumeralLength(n / 10, k - 1);
    }
  }

  lemma UnsignedFits(n: nat)
    requires n < UNSIGNED
    ensures |Numeral(n)| <= 10
  {
    assert Power(5) == 100000;
    assert Power(10) == 10000000000;
    NumeralLength(n, 10);
  }

  /** A 32-bit number is written back as it was read exactly when it was a canonical numeral below 2 to the 32. */
  lemma ReadThenWritten(t: string)
    requires AllDigits(t)
    ensures Numeral(Value(t) % UNSIGNED) == t <==> Canonical(t) && Value(t) < UNSIGNED
  {
    var v := Value(t);
    SameNumeral(t, v % UNSIGNED);
    Unwrapped(v);
  }

  lemma Unwrapped(v: nat)
    ensures v % UNSIGNED == v <==> v < UNSIGNED
  {
  }

  lemma SameNumeral(t: string, m: nat)
    requires AllDigits(t)
    ensures Numeral(m) == t <==> Canonical(t) && Value(t) == m
  {
    if Numeral(m) == t {
      NumeralIsCanonical(m);
    } else if Canonical(t) {
      CanonicalIsNumeral(t);
    }
  }

  /** Reading digit by digit with wrap-around keeps the value modulo 2 to the 32. */
  lemma WrappedStep(t: string, i: nat, d: nat)
    requires AllDigits(t) && i == Value(t) % UNSIGNED && d < 10
    ensures (i * 10 + d) % UNSIGNED == (Value(t) * 10 + d) % UNSIGNED
  {
    var q := Value(t) / UNSIGNED;
    assert Value(t) == q * UNSIGNED + i;
    assert Value(t) * 10 + d == (q * 10) * UNSIGNED + (i * 10 + d);
    Wrapped(q * 10, i * 10 + d);
  }

  lemma Wrapped(q: nat, r: nat)
    ensures (q * UNSIGNED + r) % UNSIGNED == r % UNSIGNED
  {
    var a := r / UNSIGNED;
    assert q * UNSIGNED + r == (q + a) * UNSIGNED + r % UNSIGNED;
  }

  /** The digits of u still to be written, the lowest last. */
  function Digits(u: nat): string {
    if u == 0 then "" else Numeral(u)
  }

  lemma DigitStep(u: nat, tail: string)
    ensures Digits(u / 10) + ([Digit(u % 10)] + tail) == Numeral(u) + tail
  {
    var last := [Digit(u % 10)];
    NumeralEnd(u);
    Associate(Digits(u / 10), last, tail);
  }

  lemma NumeralEnd(u: nat)
    ensures Numeral(u) == Digits(u / 10) + [Digit(u % 10)]
  {
    if u < 10 {
      assert u / 10 == 0 && u % 10 == u;
    } else {
      assert u / 10 > 0;
    }
  }

  lemma Associate(a: string, b: string, c: string)
    ensures a + (b + c) == (a + b) + c
  {
  }

  /** The lowest digit of u goes in front of what stands in the buffer from p on. */
  method PutDigit(s: array<char>, p: nat, u: nat) returns (q: nat)
    requires 0 < p < s.Length
    modifies s
    ensures q == p - 1 && s[q..s.Length - 1] == [Digit(u % 10)] + old(s[p..s.Length - 1])
  {
    q := p - 1;
    s[q] := Digit(u % 10);
  }

  /** The digits of u, written from the end of a buffer. */
  method Utoa(u0: nat, size: nat) returns (t: string)
    requires u0 < UNSIGNED && size >= 11
    ensures t == Numeral(u0)
  {
    UnsignedFits(u0);
    var s := new char[size];
    var p, u := size - 1, u0;
    s[p] := '\0';
    DigitStep(u, "");
    p := PutDigit(s, p, u);
    u := u / 10;
    while u != 0
      invariant 0 <= p < size - 1
      invariant Digits(u) + s[p..size - 1] == Numeral(u0)
    {
      DigitStep(u, s[p..size - 1]);
      p := PutDigit(s, p, u);
      u := u / 10;
    }
    return s[p..size - 1];
  }
}
