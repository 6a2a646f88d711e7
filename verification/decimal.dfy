/** Decimal numerals as Python renders them: `str(n)` for a non-negative
    integer, and the zero-padded `f"{n:0Wd}"` / `strftime("%d")` forms. Also
    the reading-back direction, which the serial-number and progress-text
    round trips need. */
module Decimal {

  predicate IsDigit(c: char) {
    '0' <= c <= '9'
  }

  predicate AllDigits(s: string) {
    forall i :: 0 <= i < |s| ==> IsDigit(s[i])
  }

  /** The form `str(n)` produces: non-empty, digits only, and no leading zero
      unless the numeral is "0" itself. */
  predicate Canonical(s: string) {
    |s| >= 1 && AllDigits(s) && (s[0] == '0' ==> |s| == 1)
  }

  function DigitChar(d: nat): (c: char)
    requires d < 10
    ensures IsDigit(c)
  {
    ('0' as int + d) as char
  }

  function DigitValue(c: char): (d: nat)
    requires IsDigit(c)
    ensures d < 10 && DigitChar(d) == c
  {
    c as int - '0' as int
  }

  function Pow10(k: nat): (p: nat)
    ensures p >= 1
  {
    if k == 0 then 1 else 10 * Pow10(k - 1)
  }

  /** `str(n)` for a non-negative integer. */
  function NatToString(n: nat): (s: string)
    ensures Canonical(s)
    ensures n > 0 ==> s[0] != '0'
    decreases n
  {
    if n < 10 then [DigitChar(n)] else NatToString(n / 10) + [DigitChar(n % 10)]
  }

  /** The value of a digit string, read most significant digit first;
      leading zeros are allowed and the empty string reads as 0. */
  function ParseDigits(s: string): (n: nat)
    requires AllDigits(s)
    ensures n < Pow10(|s|)
  {
    if s == [] then 0 else 10 * ParseDigits(s[..|s| - 1]) + DigitValue(s[|s| - 1])
  }

  function Zeros(k: nat): (s: string)
    ensures |s| == k && AllDigits(s)
    ensures forall i :: 0 <= i < k ==> s[i] == '0'
  {
    seq(k, _ => '0')
  }

  /** `f"{n:0{width}d}"`: `str(n)` left-padded with zeros to at least
      `width` characters; a longer numeral is left as it is. */
  function PadLeft(n: nat, width: nat): (s: string)
    ensures AllDigits(s)
    ensures |s| >= width && |s| >= |NatToString(n)|
    ensures |s| == width || s == NatToString(n)
  {
    var t := NatToString(n);
    if |t| < width then Zeros(width - |t|) + t else t
  }

  /** Reading back `str(n)` gives `n`. */
  lemma {:induction false} ParseNatToString(n: nat)
    ensures ParseDigits(NatToString(n)) == n
    decreases n
  {
    if n >= 10 {
      var s := NatToString(n);
      assert s[..|s| - 1] == NatToString(n / 10);
      ParseNatToString(n / 10);
    }
  }

  /** A digit string whose first digit is not zero has a positive value. */
  lemma {:induction false} ParsePositive(s: string)
    requires |s| >= 1 && AllDigits(s) && s[0] != '0'
    ensures ParseDigits(s) >= Pow10(|s| - 1)
  {
    if |s| > 1 {
      ParsePositive(s[..|s| - 1]);
    }
  }

  /** `str` is the inverse of reading a canonical numeral. */
  lemma {:induction false} NatToStringOfParse(s: string)
    requires Canonical(s)
    ensures NatToString(ParseDigits(s)) == s
  {
    if |s| > 1 {
      var init := s[..|s| - 1];
      ParsePositive(s);
      ParsePositive(init);
      NatToStringOfParse(init);
      var n := ParseDigits(s);
      assert n / 10 == ParseDigits(init);
      assert n % 10 == DigitValue(s[|s| - 1]);
      assert s == init + [s[|s| - 1]];
    }
  }

  /** `str(n)` has at most `k` digits exactly when `n < 10^k`. */
  lemma {:induction false} NatToStringLength(n: nat, k: nat)
    requires k >= 1
    ensures |NatToString(n)| <= k <==> n < Pow10(k)
    decreases n
  {
    if n >= 10 {
      if k > 1 {
        NatToStringLength(n / 10, k - 1);
      }
    }
  }

  /** Reading a concatenation: the left part is shifted by the right part's
      length. */
  lemma {:induction false} ParseConcat(a: string, b: string)
    requires AllDigits(a) && AllDigits(b)
    ensures AllDigits(a + b)
    ensures ParseDigits(a + b) == ParseDigits(a) * Pow10(|b|) + ParseDigits(b)
    decreases |b|
  {
    var ab := a + b;
    assert AllDigits(ab) by {
      forall i | 0 <= i < |ab|
        ensures IsDigit(ab[i])
      {
        if i < |a| { assert ab[i] == a[i]; } else { assert ab[i] == b[i - |a|]; }
      }
    }
    if b == [] {
      assert ab == a;
    } else {
      var b' := b[..|b| - 1];
      var d := DigitValue(b[|b| - 1]);
      assert ab[..|ab| - 1] == a + b';
      assert ab[|ab| - 1] == b[|b| - 1];
      ParseConcat(a, b');
      var pa, pb', w := ParseDigits(a), ParseDigits(b'), Pow10(|b'|);
      assert ParseDigits(ab) == 10 * ParseDigits(a + b') + d;
      assert ParseDigits(b) == 10 * pb' + d;
      assert Pow10(|b|) == 10 * w;
      MulShift(pa, w);
    }
  }

  lemma MulShift(x: nat, w: nat)
    ensures x * (10 * w) == 10 * (x * w)
  {
  }

  lemma {:induction false} ParseZeros(k: nat)
    ensures ParseDigits(Zeros(k)) == 0
  {
    if k > 0 {
      assert Zeros(k)[..k - 1] == Zeros(k - 1);
      ParseZeros(k - 1);
    }
  }

  /** Zero padding does not change the value read back. */
  lemma {:induction false} PadLeftValue(n: nat, width: nat)
    ensures ParseDigits(PadLeft(n, width)) == n
  {
    var t := NatToString(n);
    ParseNatToString(n);
    if |t| < width {
      var z := Zeros(width - |t|);
      ParseConcat(z, t);
      ParseZeros(width - |t|);
      assert ParseDigits(z) * Pow10(|t|) == 0;
    }
  }

  /** A value below `10^width` pads to exactly `width` digits. */
  lemma PadLeftWidth(n: nat, width: nat)
    requires width >= 1 && n < Pow10(width)
    ensures |PadLeft(n, width)| == width
  {
    NatToStringLength(n, width);
  }

  /** Two digit strings of one length with one value are the same string. */
  lemma {:induction false} ParseInjective(a: string, b: string)
    requires |a| == |b| && AllDigits(a) && AllDigits(b)
    requires ParseDigits(a) == ParseDigits(b)
    ensures a == b
    decreases |a|
  {
    if a != [] {
      var a', b' := a[..|a| - 1], b[..|b| - 1];
      var da, db := DigitValue(a[|a| - 1]), DigitValue(b[|b| - 1]);
      assert 10 * ParseDigits(a') + da == 10 * ParseDigits(b') + db;
      assert da == db;
      ParseInjective(a', b');
      assert a == a' + [a[|a| - 1]] && b == b' + [b[|b| - 1]];
    }
  }

  /** Padding a fixed-width field's value back to its width restores the
      field, leading zeros included. */
  lemma PadLeftOfParse(s: string)
    requires |s| >= 1 && AllDigits(s)
    ensures PadLeft(ParseDigits(s), |s|) == s
  {
    var n := ParseDigits(s);
    PadLeftWidth(n, |s|);
    PadLeftValue(n, |s|);
    ParseInjective(PadLeft(n, |s|), s);
  }
}
