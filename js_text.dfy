/** The few JavaScript string and number builtins the timer page relies on:
    `s.replace(/\D/g, "")`, `parseInt(s)`, `n.toString()` and
    `s.padStart(width, fill)`, each modelled on Dafny strings (`seq<char>`). */
module JsText {

  datatype Option<T> = None | Some(value: T)

  /** The class `\d` of a JavaScript regular expression without the `u` flag: ASCII digits only. */
  predicate IsDigit(c: char) {
    '0' <= c <= '9'
  }

  predicate AllDigits(s: string) {
    forall i :: 0 <= i < |s| ==> IsDigit(s[i])
  }

  function DigitValue(c: char): (d: nat)
    requires IsDigit(c)
    ensures d < 10
  {
    c as int - '0' as int
  }

  function DigitChar(d: nat): (c: char)
    requires d < 10
    ensures IsDigit(c) && DigitValue(c) == d
  {
    ('0' as int + d) as char
  }

  function Pow10(k: nat): (p: nat)
    ensures p >= 1
  {
    if k == 0 then 1 else 10 * Pow10(k - 1)
  }

  lemma {:induction false} PowMonotone(i: nat, j: nat)
    requires i <= j
    ensures Pow10(i) <= Pow10(j)
  {
    if i < j {
      PowMonotone(i, j - 1);
    }
  }

  /** `s.replace(/\D/g, "")`: every character that is not a digit is removed. */
  function StripNonDigits(s: string): (r: string)
    ensures AllDigits(r)
    ensures |r| <= |s|
    ensures AllDigits(s) ==> r == s
  {
    if s == [] then []
    else (if IsDigit(s[0]) then [s[0]] else []) + StripNonDigits(s[1..])
  }

  /** Stripping works character by character, so it distributes over concatenation. */
  lemma {:induction false} StripConcat(a: string, b: string)
    ensures StripNonDigits(a + b) == StripNonDigits(a) + StripNonDigits(b)
  {
    if a == [] {
      assert a + b == b;
    } else {
      assert (a + b)[1..] == a[1..] + b;
      StripConcat(a[1..], b);
    }
  }

  /** Stripping keeps every digit, as often as it occurs, and nothing else. */
  lemma {:induction false} StripKeepsDigits(s: string, c: char)
    ensures multiset(StripNonDigits(s))[c] == if IsDigit(c) then multiset(s)[c] else 0
  {
    if s != [] {
      StripKeepsDigits(s[1..], c);
      assert s == [s[0]] + s[1..];
      assert multiset(s) == multiset([s[0]]) + multiset(s[1..]);
    } else {
      assert multiset(s) == multiset{};
    }
  }

  /** The decimal value of a digit string, most significant digit first. */
  function DigitsValue(s: string): (v: nat)
    requires AllDigits(s)
    ensures v < Pow10(|s|)
  {
    if s == [] then 0
    else DigitsValue(s[..|s| - 1]) * 10 + DigitValue(s[|s| - 1])
  }

  /** The longest prefix of `s` made of digits: where `parseInt` stops reading. */
  function LeadingDigits(s: string): (r: string)
    ensures AllDigits(r)
    ensures r <= s
    ensures |r| < |s| ==> !IsDigit(s[|r|])
  {
    if s == [] || !IsDigit(s[0]) then []
    else [s[0]] + LeadingDigits(s[1..])
  }

  /** The sign `parseInt` accepts in front of the digits: (negative?, the rest). */
  function SplitSign(s: string): (r: (string, bool))
    ensures |r.0| == if |s| > 0 && (s[0] == '-' || s[0] == '+') then |s| - 1 else |s|
    ensures r.0 == s[|s| - |r.0|..]
    ensures r.1 <==> |s| > 0 && s[0] == '-'
  {
    if |s| > 0 && (s[0] == '-' || s[0] == '+') then (s[1..], s[0] == '-')
    else (s, false)
  }

  /** `parseInt(s)` with the default radix on a string without leading white space
      and without a `0x` prefix: an optional sign, then as many decimal digits as
      there are; `None` is JavaScript's `NaN` (no digit at all). */
  function ParseInt(s: string): (r: Option<int>)
    ensures r.Some? ==> -(Pow10(|s|) as int) < r.value < Pow10(|s|)
    ensures r.Some? && r.value < 0 ==> s[0] == '-'
  {
    var (rest, negative) := SplitSign(s);
    var digits := LeadingDigits(rest);
    if digits == [] then None
    else
      PowMonotone(|digits|, |s|);
      var magnitude: int := DigitsValue(digits);
      Some(if negative then -magnitude else magnitude)
  }

  /** A digit string is read in full, and only the empty one is `NaN`. */
  lemma ParseDigits(s: string)
    requires AllDigits(s)
    ensures s == [] ==> ParseInt(s) == None
    ensures s != [] ==> ParseInt(s) == Some(DigitsValue(s))
  {
    if s != [] {
      assert SplitSign(s) == (s, false);
      assert LeadingDigits(s) == s;
    }
  }

  /** `ParseInt` finds a number exactly when a digit follows the optional sign. */
  lemma ParseNaN(s: string)
    ensures ParseInt(s).None? <==> (SplitSign(s).0 == [] || !IsDigit(SplitSign(s).0[0]))
  {
    var rest := SplitSign(s).0;
    if rest != [] && IsDigit(rest[0]) {
      assert LeadingDigits(rest)[0] == rest[0];
    }
  }

  /** `n.toString()` for a non-negative integer: its decimal digits with no leading zero. */
  function ToDecimal(n: nat): (r: string)
    ensures AllDigits(r) && |r| >= 1
    ensures |r| > 1 ==> r[0] != '0'
    ensures DigitsValue(r) == n
  {
    if n < 10 then [DigitChar(n)]
    else
      var front := ToDecimal(n / 10);
      var r := front + [DigitChar(n % 10)];
      assert r[..|r| - 1] == front;
      r
  }

  /** A number below `10^k` takes at most `k` digits. */
  lemma {:induction false} ToDecimalLength(n: nat, k: nat)
    requires 1 <= k && n < Pow10(k)
    ensures |ToDecimal(n)| <= k
  {
    if n >= 10 {
      assert k != 1;
      assert n / 10 < Pow10(k - 1);
      ToDecimalLength(n / 10, k - 1);
    }
  }

  /** `toString` and `parseInt` are inverse on non-negative integers. */
  lemma ParseToDecimal(n: nat)
    ensures ParseInt(ToDecimal(n)) == Some(n)
  {
    ParseDigits(ToDecimal(n));
  }

  /** `s.padStart(width, fill)` with a one-character fill: `fill` is repeated in
      front of `s` until it is `width` long; a longer `s` is left as it is. */
  function PadStart(s: string, width: nat, fill: char): (r: string)
    ensures |r| == if |s| >= width then |s| else width
    ensures r[|r| - |s|..] == s
    ensures forall i :: 0 <= i < |r| - |s| ==> r[i] == fill
  {
    if |s| >= width then s else seq(width - |s|, _ => fill) + s
  }
}
