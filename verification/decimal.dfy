/** Decimal digits: the positional value of a digit string, and the two ways the
    program writes numbers (fixed width in pairing codes, shortest form in text). */
module Decimal {
  type Digit = d: int | 0 <= d < 10

  ghost function Pow10(n: nat): nat {
    if n == 0 then 1 else 10 * Pow10(n - 1)
  }

  /** The fold `acc * 10 + d` over the digits, most significant first. */
  function Value(ds: seq<Digit>): nat {
    if ds == [] then 0 else Value(ds[..|ds| - 1]) * 10 + ds[|ds| - 1]
  }

  /** `n` in exactly `width` digits, dropping what does not fit. */
  function Fixed(n: nat, width: nat): (ds: seq<Digit>)
    ensures |ds| == width
  {
    if width == 0 then [] else Fixed(n / 10, width - 1) + [n % 10]
  }

  lemma {:induction false} ValueBound(ds: seq<Digit>)
    ensures Value(ds) < Pow10(|ds|)
  {
    if ds != [] {
      ValueBound(ds[..|ds| - 1]);
    }
  }

  lemma {:induction false} ValueOfFixed(n: nat, width: nat)
    requires n < Pow10(width)
    ensures Value(Fixed(n, width)) == n
  {
    if width > 0 {
      ValueOfFixed(n / 10, width - 1);
      assert Fixed(n, width)[..width - 1] == Fixed(n / 10, width - 1);
    }
  }

  lemma {:induction false} FixedOfValue(ds: seq<Digit>)
    ensures Fixed(Value(ds), |ds|) == ds
  {
    if ds != [] {
      var front, last := ds[..|ds| - 1], ds[|ds| - 1];
      assert Value(ds) == Value(front) * 10 + last;
      FixedOfValue(front);
      assert Value(ds) / 10 == Value(front) && Value(ds) % 10 == last;
      assert ds == front + [last];
    }
  }

  predicate IsDigit(c: char) {
    '0' <= c <= '9'
  }

  function DigitOf(c: char): Digit
    requires IsDigit(c)
  {
    c as int - '0' as int
  }

  function CharOf(d: Digit): (c: char)
    ensures IsDigit(c) && DigitOf(c) == d
  {
    ('0' as int + d) as char
  }

  /** The shortest decimal text of `n`, as `{n}` formats it. */
  function Text(n: nat): (s: string)
    ensures |s| > 0 && forall i :: 0 <= i < |s| ==> IsDigit(s[i])
  {
    if n < 10 then [CharOf(n)] else Text(n / 10) + [CharOf(n % 10)]
  }

  function Digits(s: string): (ds: seq<Digit>)
    requires forall i :: 0 <= i < |s| ==> IsDigit(s[i])
    ensures |ds| == |s|
  {
    seq(|s|, i requires 0 <= i < |s| => DigitOf(s[i]))
  }

  lemma {:induction false} ValueOfText(n: nat)
    ensures Value(Digits(Text(n))) == n
  {
    var t := Text(n);
    if n < 10 {
      assert Digits(t) == [n];
      assert Value([n]) == Value([]) * 10 + n by { assert [n][..0] == []; }
    } else {
      ValueOfText(n / 10);
      assert Digits(t)[..|t| - 1] == Digits(Text(n / 10));
    }
  }

  /** How many digits the text starts with. */
  function LeadingDigits(s: string): (n: nat)
    ensures n <= |s|
    ensures forall i :: 0 <= i < n ==> IsDigit(s[i])
    ensures n < |s| ==> !IsDigit(s[n])
  {
    if s == [] || !IsDigit(s[0]) then 0 else 1 + LeadingDigits(s[1..])
  }
}
