/** Decimal text for natural numbers: `Number.prototype.toString()`,
    `parseInt(s, 10)` on digit strings, and `padStart(width, '0')`. */
module Decimal {

  predicate IsDigit(c: char) {
    '0' <= c <= '9'
  }

  predicate AllDigits(s: string) {
    forall i :: 0 <= i < |s| ==> IsDigit(s[i])
  }

  function DigitChar(d: nat): (c: char)
    requires d < 10
    ensures IsDigit(c)
  {
    ('0' as int + d) as char
  }

  function DigitValue(c: char): (d: nat)
    requires IsDigit(c)
    ensures d < 10 && DigitChar(d) == c
  {
    c as int - '0' as int
  }

  function Pow10(k: nat): (p: nat)
    ensures p >= 1
  {
    if k == 0 then 1 else 10 * Pow10(k - 1)
  }

  /** `n.toString()`: the shortest decimal spelling of `n`, so a single `0`
      for zero and no leading zero otherwise. */
  function ToString(n: nat): (r: string)
    ensures |r| >= 1 && AllDigits(r)
    ensures |r| > 1 ==> r[0] != '0'
    decreases n
  {
    if n < 10 then [DigitChar(n)] else ToString(n / 10) + [DigitChar(n % 10)]
  }

  /** `parseInt(s, 10)` on a non-empty string of decimal digits; leading
      zeros are allowed. On the empty string JavaScript gives `NaN`; the page
      never parses it, because its `saved ? ... : 0` guard reads an absent or
      empty value as zero (`QuizPage.DecodeNumber`), so the value here at
      `[]` is only the base of the recursion. */
  function ParseInt(s: string): (r: nat)
    requires AllDigits(s)
    ensures r < Pow10(|s|)
    decreases |s|
  {
    if s == [] then 0 else 10 * ParseInt(s[..|s| - 1]) + DigitValue(s[|s| - 1])
  }

  /** `s.padStart(width, '0')`. */
  function PadStart(s: string, width: nat): (r: string)
    ensures |r| == if |s| >= width then |s| else width
    ensures r[|r| - |s|..] == s
    ensures forall i :: 0 <= i < |r| - |s| ==> r[i] == '0'
  {
    if |s| >= width then s else Zeros(width - |s|) + s
  }

  function Zeros(k: nat): (r: string)
    ensures |r| == k && AllDigits(r)
    ensures forall i :: 0 <= i < k ==> r[i] == '0'
  {
    seq(k, _ => '0')
  }

  /** What `toString` writes, `parseInt` reads back. */
  lemma {:induction false} ParseToString(n: nat)
    ensures ParseInt(ToString(n)) == n
    decreases n
  {
    var s := ToString(n);
    if n < 10 {
      assert s[..0] == [];
    } else {
      ParseToString(n / 10);
      assert s[..|s| - 1] == ToString(n / 10);
    }
  }

  /** Conversely, `toString` reproduces any digit string without a leading
      zero that `parseInt` reads. */
  lemma {:induction false} ToStringOfParse(s: string)
    requires AllDigits(s) && |s| >= 1 && (|s| > 1 ==> s[0] != '0')
    ensures ToString(ParseInt(s)) == s
    decreases |s|
  {
    var init := s[..|s| - 1];
    var n := ParseInt(s);
    if |s| == 1 {
      assert init == [];
    } else {
      assert init[0] == s[0];
      ToStringOfParse(init);
      var m := ParseInt(init);
      LeadingDigitBound(init);
      assert n / 10 == m && n % 10 == DigitValue(s[|s| - 1]);
      assert s == init + [s[|s| - 1]];
    }
  }

  /** A digit string of length `k` without a leading zero reads as at least
      `10^(k-1)`. */
  lemma {:induction false} LeadingDigitBound(s: string)
    requires AllDigits(s) && |s| >= 1 && (|s| > 1 ==> s[0] != '0')
    ensures |s| > 1 ==> ParseInt(s) >= Pow10(|s| - 1)
    ensures |s| == 1 ==> ParseInt(s) == DigitValue(s[0])
    decreases |s|
  {
    var init := s[..|s| - 1];
    if |s| == 1 {
      assert init == [];
    } else if |s| == 2 {
      assert init == [s[0]];
      assert init[..0] == [];
    } else {
      assert init[0] == s[0];
      LeadingDigitBound(init);
    }
  }

  /** `toString` is one-to-one, so a stored number identifies the value
      that was written. */
  lemma ToStringInjective(a: nat, b: nat)
    ensures ToString(a) == ToString(b) <==> a == b
  {
    if ToString(a) == ToString(b) {
      ParseToString(a);
      ParseToString(b);
    }
  }

  /** Zeros in front do not change what `parseInt` reads. */
  lemma {:induction false} ParseLeadingZeros(k: nat, s: string)
    requires AllDigits(s)
    ensures ParseInt(Zeros(k) + s) == ParseInt(s)
    decreases |s|, k
  {
    var z := Zeros(k);
    if s == [] {
      assert z + s == z;
      if k > 0 {
        assert z[..k - 1] == Zeros(k - 1);
        ParseLeadingZeros(k - 1, []);
        assert Zeros(k - 1) + [] == Zeros(k - 1);
      }
    } else {
      var t := z + s;
      assert t[..|t| - 1] == z + s[..|s| - 1];
      ParseLeadingZeros(k, s[..|s| - 1]);
    }
  }

  /** Padding a digit string with zeros keeps it a digit string. */
  lemma PadStartDigits(s: string, width: nat)
    requires AllDigits(s)
    ensures AllDigits(PadStart(s, width))
  {
    var r := PadStart(s, width);
    forall i | 0 <= i < |r|
      ensures IsDigit(r[i])
    {
      if i >= |r| - |s| {
        assert r[i] == r[|r| - |s|..][i - (|r| - |s|)];
      }
    }
  }

  /** Two digit strings side by side form a digit string. */
  lemma DigitsConcat(a: string, b: string)
    requires AllDigits(a) && AllDigits(b)
    ensures AllDigits(a + b)
  {
  }

  /** Padding with zeros keeps the value. */
  lemma ParsePadStart(s: string, width: nat)
    requires AllDigits(s)
    ensures AllDigits(PadStart(s, width))
    ensures ParseInt(PadStart(s, width)) == ParseInt(s)
  {
    if |s| < width {
      ParseLeadingZeros(width - |s|, s);
    }
  }

  /** A two-character digit string reads as tens and units. */
  lemma ParseTwoDigits(s: string)
    requires AllDigits(s) && |s| == 2
    ensures ParseInt(s) == 10 * DigitValue(s[0]) + DigitValue(s[1])
  {
    assert s[..1] == [s[0]];
    assert s[..1][..0] == [];
  }
}
