/** Decimal digit text: the ASCII digits that `%Y`, `%m`, `%d`, `%M` and `%S`
    read and write, zero-padded fields, and the `str()` of a Python int. */
module Digits {
  import opened Wrappers

  predicate IsDigit(c: char) {
    '0' <= c <= '9'
  }

  predicate AllDigits(s: string) {
    forall i :: 0 <= i < |s| ==> IsDigit(s[i])
  }

  function DigitValue(c: char): (n: nat)
    requires IsDigit(c)
    ensures n < 10
  {
    c as int - '0' as int
  }

  function DigitChar(n: nat): (c: char)
    requires n < 10
    ensures IsDigit(c) && DigitValue(c) == n
  {
    (n + '0' as int) as char
  }

  /** The number a string of digits spells, most significant digit first. */
  function NatValue(s: string): nat
    requires AllDigits(s)
    decreases |s|
  {
    if |s| == 0 then 0 else 10 * NatValue(s[..|s| - 1]) + DigitValue(s[|s| - 1])
  }

  function Pow10(n: nat): (p: nat)
    ensures p >= 1
  {
    if n == 0 then 1 else 10 * Pow10(n - 1)
  }

  /** `n` written with exactly `width` digits, zero-padded on the left
      (the low `width` digits when `n` is wider). */
  function PadText(n: nat, width: nat): (s: string)
    ensures |s| == width && AllDigits(s)
  {
    if width == 0 then [] else PadText(n / 10, width - 1) + [DigitChar(n % 10)]
  }

  lemma {:induction false} PadTextValue(n: nat, width: nat)
    requires n < Pow10(width)
    ensures NatValue(PadText(n, width)) == n
  {
    if width > 0 {
      var q, d := n / 10, n % 10;
      assert n == 10 * q + d && d < 10;
      var prefix := PadText(q, width - 1);
      var s := prefix + [DigitChar(d)];
      assert PadText(n, width) == s;
      assert s[..width - 1] == prefix;
      assert q < Pow10(width - 1);
      PadTextValue(q, width - 1);
      assert NatValue(s) == 10 * NatValue(prefix) + DigitValue(s[width - 1]);
    }
  }

  lemma PadTwo(n: nat)
    requires n < 100
    ensures PadText(n, 2) == [DigitChar(n / 10), DigitChar(n % 10)]
  {
    assert PadText(n / 10, 1) == [DigitChar(n / 10 % 10)];
  }

  lemma PadFour(n: nat)
    requires n < 10000
    ensures PadText(n, 4) == [DigitChar(n / 1000), DigitChar(n / 100 % 10), DigitChar(n / 10 % 10), DigitChar(n % 10)]
  {
    PadTwo(n / 100);
    assert n / 100 / 10 == n / 1000;
    assert n / 10 / 10 == n / 100;
  }

  /** Writing back the value of a digit string, padded to its own width,
      gives the string again (leading zeros included). */
  lemma {:induction false} PadTextOfValue(t: string)
    requires AllDigits(t)
    ensures PadText(NatValue(t), |t|) == t
    decreases |t|
  {
    if |t| > 0 {
      var w := |t| - 1;
      var v := NatValue(t);
      assert v / 10 == NatValue(t[..w]) && v % 10 == DigitValue(t[w]);
      assert DigitChar(DigitValue(t[w])) == t[w];
      PadTextOfValue(t[..w]);
      assert t == t[..w] + [t[w]];
    }
  }

  /** The shortest decimal spelling of `n`, as Python's `str(n)` writes it. */
  function NatText(n: nat): (s: string)
    ensures 1 <= |s| && AllDigits(s)
    ensures s[0] == '0' ==> n == 0
    decreases n
  {
    if n < 10 then [DigitChar(n)] else NatText(n / 10) + [DigitChar(n % 10)]
  }

  lemma {:induction false} NatTextValue(n: nat)
    ensures NatValue(NatText(n)) == n
    decreases n
  {
    if n >= 10 {
      var s := NatText(n);
      assert s[..|s| - 1] == NatText(n / 10);
      NatTextValue(n / 10);
    }
  }

  /** Python's `str(n)` for an int: a minus sign for negatives, then the digits. */
  function IntText(n: int): (s: string)
    ensures 1 <= |s|
    ensures (s[0] == '-') <==> n < 0
  {
    if n < 0 then "-" + NatText(-n) else NatText(n)
  }

  /** Reads back what `IntText` writes: an optional minus sign and at least
      one digit; anything else is rejected. */
  function ParseIntText(s: string): (r: Option<int>)
    ensures r.Some? ==> 1 <= |s|
  {
    if 1 < |s| && s[0] == '-' && AllDigits(s[1..]) then Some(0 - NatValue(s[1..]) as int)
    else if 1 <= |s| && AllDigits(s) then Some(NatValue(s))
    else None
  }

  lemma IntTextRoundTrip(n: int)
    ensures ParseIntText(IntText(n)) == Some(n)
  {
    var s := IntText(n);
    if n < 0 {
      assert s == "-" + NatText(-n);
      assert s[1..] == NatText(-n);
      NatTextValue(-n);
      assert 1 < |s| && s[0] == '-' && AllDigits(s[1..]);
    } else {
      NatTextValue(n);
      assert s[0] != '-';
    }
  }

  /** Distinct ints have distinct `str()` spellings. */
  lemma IntTextInjective(a: int, b: int)
    ensures IntText(a) == IntText(b) <==> a == b
  {
    IntTextRoundTrip(a);
    IntTextRoundTrip(b);
  }
}
