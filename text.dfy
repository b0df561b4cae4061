/** String helpers the case-record logic relies on: decimal rendering with
    zero padding (Python's `format(n, "03d")`), ASCII case folding and the
    substring test behind a case-insensitive search. */
module Text {

  predicate IsDigit(c: char) { '0' <= c <= '9' }

  predicate IsDigits(s: string) {
    forall i :: 0 <= i < |s| ==> IsDigit(s[i])
  }

  function DigitChar(d: nat): (c: char)
    requires d < 10
    ensures IsDigit(c)
  {
    ('0' as int + d) as char
  }

  function DigitValue(c: char): nat
    requires IsDigit(c)
  {
    c as int - '0' as int
  }

  function Pow10(k: nat): nat {
    if k == 0 then 1 else 10 * Pow10(k - 1)
  }

  /** The decimal rendering of `n`, without sign or leading zeros. */
  function Digits(n: nat): (s: string)
    ensures 1 <= |s| && IsDigits(s)
    ensures s[0] == '0' <==> n == 0
    decreases n
  {
    if n < 10 then [DigitChar(n)] else Digits(n / 10) + [DigitChar(n % 10)]
  }

  /** Reads a string of decimal digits back as a number (leading zeros allowed). */
  function ParseDigits(s: string): nat
    requires IsDigits(s)
  {
    if s == [] then 0 else 10 * ParseDigits(s[..|s| - 1]) + DigitValue(s[|s| - 1])
  }

  function Zeros(k: nat): (z: string)
    ensures |z| == k && forall i :: 0 <= i < k ==> z[i] == '0'
  {
    seq(k, _ => '0')
  }

  /** Left-pads `s` with '0' up to `width` characters; a longer `s` is kept whole. */
  function ZeroPad(s: string, width: nat): (r: string)
    ensures |r| == if |s| < width then width else |s|
    ensures r[|r| - |s|..] == s
    ensures forall i :: 0 <= i < |r| - |s| ==> r[i] == '0'
  {
    if |s| < width then Zeros(width - |s|) + s else s
  }

  /** `n` rendered in decimal, zero-padded to at least `width` digits. */
  function PadNumber(n: nat, width: nat): string {
    ZeroPad(Digits(n), width)
  }

  lemma {:induction false} ParseDigitsOfDigits(n: nat)
    ensures ParseDigits(Digits(n)) == n
    decreases n
  {
    if n >= 10 {
      ParseDigitsOfDigits(n / 10);
      var s := Digits(n);
      assert s[..|s| - 1] == Digits(n / 10);
    }
  }

  lemma {:induction false} ParseLeadingZeros(k: nat, s: string)
    requires IsDigits(s)
    ensures IsDigits(Zeros(k) + s) && ParseDigits(Zeros(k) + s) == ParseDigits(s)
    decreases |s| + k
  {
    var z := Zeros(k) + s;
    if s == [] {
      if k > 0 {
        assert z[..|z| - 1] == Zeros(k - 1) + s;
        ParseLeadingZeros(k - 1, s);
      }
    } else {
      assert z[..|z| - 1] == Zeros(k) + s[..|s| - 1];
      ParseLeadingZeros(k, s[..|s| - 1]);
    }
  }

  lemma {:induction false} DigitsFit(n: nat, k: nat)
    requires 1 <= k && n < Pow10(k)
    ensures |Digits(n)| <= k
    decreases k
  {
    if n >= 10 {
      assert k >= 2;
      assert n / 10 < Pow10(k - 1);
      DigitsFit(n / 10, k - 1);
    }
  }

  /** Padding never truncates, yields only digits and reads back as the number:
      the shape Python's `f"{n:0<width>d}"` gives for n >= 0. */
  lemma PadNumberReadsBack(n: nat, width: nat)
    ensures var r := PadNumber(n, width);
      |r| == (if |Digits(n)| < width then width else |Digits(n)|) &&
      IsDigits(r) && ParseDigits(r) == n
  {
    var d := Digits(n);
    ParseDigitsOfDigits(n);
    if |d| < width {
      ParseLeadingZeros(width - |d|, d);
    }
  }

  /** A number below 10^width is padded to exactly `width` digits. */
  lemma PadNumberExact(n: nat, width: nat)
    requires 1 <= width && n < Pow10(width)
    ensures |PadNumber(n, width)| == width && IsDigits(PadNumber(n, width))
  {
    DigitsFit(n, width);
    PadNumberReadsBack(n, width);
  }

  // Case folding of the ASCII letters only; accented letters such as É, È or Ç
  // are left as they are.

  function LowerChar(c: char): char {
    if 'A' <= c <= 'Z' then (c as int + 32) as char else c
  }

  function UpperChar(c: char): char {
    if 'a' <= c <= 'z' then (c as int - 32) as char else c
  }

  function Lower(s: string): string {
    seq(|s|, i requires 0 <= i < |s| => LowerChar(s[i]))
  }

  function Upper(s: string): string {
    seq(|s|, i requires 0 <= i < |s| => UpperChar(s[i]))
  }

  /** `t` occurs in `s` as a contiguous block. */
  predicate Contains(s: string, t: string)
    decreases |s|
  {
    t <= s || (s != [] && Contains(s[1..], t))
  }

  /** Substring test that ignores the case of ASCII letters (pandas' `case=False`). */
  predicate ContainsIgnoreCase(s: string, t: string) {
    Contains(Lower(s), Lower(t))
  }

  /** `Contains` agrees with the positional definition of a substring. */
  lemma {:induction false} ContainsAt(s: string, t: string)
    ensures Contains(s, t) <==> exists i :: 0 <= i <= |s| && t <= s[i..]
    decreases |s|
  {
    assert s[0..] == s;
    if s != [] {
      ContainsAt(s[1..], t);
      if Contains(s[1..], t) {
        var i :| 0 <= i <= |s| - 1 && t <= s[1..][i..];
        assert s[1..][i..] == s[i + 1..];
      }
      if i :| 0 <= i <= |s| && t <= s[i..] {
        if i > 0 {
          assert s[i..] == s[1..][i - 1..];
          assert Contains(s[1..], t);
        }
        assert Contains(s, t);
      }
    } else {
      if i :| 0 <= i <= |s| && t <= s[i..] {
        assert s[i..] == s;
      }
    }
  }

  lemma LowerUpperFold(t: string)
    ensures Lower(Lower(t)) == Lower(t) && Lower(Upper(t)) == Lower(t)
  {
    assert forall i :: 0 <= i < |t| ==> Lower(Upper(t))[i] == Lower(t)[i];
  }

  /** The search term's own case makes no difference. */
  lemma ContainsIgnoreCaseOfFolded(s: string, t: string)
    ensures ContainsIgnoreCase(s, Lower(t)) == ContainsIgnoreCase(s, t)
    ensures ContainsIgnoreCase(s, Upper(t)) == ContainsIgnoreCase(s, t)
  {
    LowerUpperFold(t);
  }
}
