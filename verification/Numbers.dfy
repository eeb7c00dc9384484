/** Decimal texts, as the Go standard library reads them. */
module Numbers {
  import opened Options

  const MIN_INT64 := -0x8000_0000_0000_0000
  const MAX_INT64 := 0x7fff_ffff_ffff_ffff

  predicate IsDigit(c: char) { '0' <= c <= '9' }

  predicate AllDigits(s: string) { forall k :: 0 <= k < |s| ==> IsDigit(s[k]) }

  function DigitsValue(s: string): nat
    requires AllDigits(s)
  {
    if s == "" then 0 else 10 * DigitsValue(s[..|s| - 1]) + (s[|s| - 1] - '0') as nat
  }

  function Digits(n: nat): (s: string)
    ensures s != "" && AllDigits(s)
    ensures DigitsValue(s) == n
  {
    var last := [(n % 10) as char + '0'];
    if n < 10 then last
    else
      var front := Digits(n / 10);
      assert (front + last)[..|front + last| - 1] == front;
      front + last
  }

  predicate IsSign(c: char) { c == '-' || c == '+' }

  function SignLen(s: string): nat {
    if s != "" && IsSign(s[0]) then 1 else 0
  }

  function Signed(s: string, magnitude: int): int {
    if s != "" && s[0] == '-' then -magnitude else magnitude
  }

  /** Base-10 text to a 64-bit integer; None stands for a syntax or range error. */
  function ParseInt(s: string): Option<int> {
    var body := s[SignLen(s)..];
    if body == "" || !AllDigits(body) then None
    else
      var n := Signed(s, DigitsValue(body));
      if MIN_INT64 <= n <= MAX_INT64 then Some(n) else None
  }

  function IntText(n: int): (s: string)
    ensures s != ""
    ensures if n < 0 then s[0] == '-' && AllDigits(s[1..]) && |s| > 1 else AllDigits(s)
  {
    if n < 0 then "-" + Digits(-n) else Digits(n)
  }

  lemma {:induction false} ParseIntText(n: int)
    ensures ParseInt(IntText(n)) == if MIN_INT64 <= n <= MAX_INT64 then Some(n) else None
  {
    var s := IntText(n);
    if n < 0 {
      assert s[1..] == Digits(-n);
    } else {
      assert s[0] in Digits(n);
      assert s[0..] == s;
    }
  }

  function Pow10(k: nat): nat { if k == 0 then 1 else 10 * Pow10(k - 1) }

  lemma {:induction false} Pow10Positive(k: nat)
    ensures Pow10(k) > 0
  {
    if k > 0 { Pow10Positive(k - 1); }
  }

  /** Position of the first decimal point, or the length when there is none. */
  function PointAt(s: string): (k: nat)
    ensures k <= |s|
    ensures k < |s| ==> s[k] == '.'
    ensures '.' !in s[..k]
  {
    if s == "" || s[0] == '.' then 0 else 1 + PointAt(s[1..])
  }

  /** Decimal text with a point to a number, taken exactly. */
  function ParseFloat(s: string): Option<real> {
    var body := s[SignLen(s)..];
    var k := PointAt(body);
    var whole, frac := body[..k], if k < |body| then body[k + 1..] else "";
    if whole + frac == "" || !AllDigits(whole) || !AllDigits(frac) then None
    else
      Pow10Positive(|frac|);
      var magnitude := DigitsValue(whole) as real + DigitsValue(frac) as real / Pow10(|frac|) as real;
      Some(if s != "" && s[0] == '-' then -magnitude else magnitude)
  }

  // ----- What the texts mean -----

  /** Digits by byte value. */
  lemma {:induction false} DigitMeaning(c: char, s: string)
    ensures IsDigit(c) <==> 48 <= c as int <= 57
    ensures IsDigit(c) && AllDigits(s) ==> DigitsValue(s + [c]) == 10 * DigitsValue(s) + (c as int - 48)
  {
    assert (s + [c])[..|s + [c]| - 1] == s;
  }

  lemma {:induction false} DigitsConcat(a: string, b: string)
    requires AllDigits(a) && AllDigits(b)
    ensures AllDigits(a + b) && DigitsValue(a + b) == DigitsValue(a) * Pow10(|b|) + DigitsValue(b)
  {
    if b == "" {
      assert a + b == a;
    } else {
      var front := b[..|b| - 1];
      DigitsConcat(a, front);
      assert (a + b)[..|a + b| - 1] == a + front;
      assert DigitsValue(a) * Pow10(|b|) == 10 * (DigitsValue(a) * Pow10(|front|));
    }
  }

  /** A body behind the sign, if any. */
  ghost predicate IsSigned(s: string, negative: bool, body: string) {
    body != "" && !IsSign(body[0]) && (s == "-" + body || (!negative && (s == body || s == "+" + body))) && (negative <==> s == "-" + body)
  }

  lemma {:induction false} SignedBody(s: string, negative: bool, body: string)
    requires IsSigned(s, negative, body)
    ensures s[SignLen(s)..] == body && forall n :: Signed(s, n) == if negative then -n else n
  {
    assert body[0..] == body;
    assert ("-" + body)[1..] == body && ("+" + body)[1..] == body;
  }

  /** Digits behind an optional sign are read as their number, if it fits into 64 bits. */
  lemma {:induction false} IntMeaning(s: string, negative: bool, digits: string)
    requires AllDigits(digits) && IsSigned(s, negative, digits)
    ensures var d: int := DigitsValue(digits); var n := if negative then -d else d;
            ParseInt(s) == if -0x8000_0000_0000_0000 <= n < 0x8000_0000_0000_0000 then Some(n) else None
  {
    hide DigitsValue, SignLen, Signed;
    SignedBody(s, negative, digits);
  }

  lemma {:induction false} PointFound(whole: string, frac: string)
    requires AllDigits(whole)
    ensures PointAt(whole + ("." + frac)) == |whole|
  {
    if whole != "" {
      assert (whole + ("." + frac))[1..] == whole[1..] + ("." + frac);
      PointFound(whole[1..], frac);
    }
  }

  /** A decimal text times the power of ten of its places is the number of all its digits, with the sign. */
  lemma {:induction false} FloatMeaning(s: string, negative: bool, whole: string, frac: string)
    requires AllDigits(whole) && AllDigits(frac) && whole + frac != "" && IsSigned(s, negative, whole + ("." + frac))
    ensures AllDigits(whole + frac)
    ensures var n: int := DigitsValue(whole + frac);
            ParseFloat(s).Some? && ParseFloat(s).value * Pow10(|frac|) as real == (if negative then -n else n) as real
  {
    hide DigitsValue, SignLen, PointAt, Pow10, IsSigned;
    var body := whole + ("." + frac);
    SignedBody(s, negative, body);
    SignOf(s, negative, body);
    PointFound(whole, frac);
    assert body[..|whole|] == whole && body[|whole| + 1..] == frac;
    DigitsConcat(whole, frac);
    Pow10Positive(|frac|);
    Placed(DigitsValue(whole), DigitsValue(frac), Pow10(|frac|));
  }

  lemma {:induction false} SignOf(s: string, negative: bool, body: string)
    requires IsSigned(s, negative, body)
    ensures negative <==> s != "" && s[0] == '-'
  {
  }

  lemma {:induction false} Placed(w: nat, f: nat, p: nat)
    requires p > 0
    ensures (w as real + f as real / p as real) * p as real == (w * p + f) as real
    ensures -(w as real + f as real / p as real) * p as real == (-(w * p + f)) as real
  {
    var q := f as real / p as real;
    assert q * p as real == f as real;
    assert (w as real + q) * p as real == w as real * p as real + q * p as real;
    assert (w * p) as real == w as real * p as real;
  }
}
