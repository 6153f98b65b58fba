/**
 * Decimal text: digits, the number they stand for, and the notation both formatters read
 * (the pattern at ui/lib/dashboardLayout.ts:70 and ui/lib/telemetryPresentation.ts:28, 45).
 */
module Decimals {
  import opened Wrappers
  import opened Arithmetic

  // ---------------------------------------------------------------- digits

  predicate IsDigit(c: char) { '0' <= c <= '9' }

  predicate AllDigits(s: string) { forall i :: 0 <= i < |s| ==> IsDigit(s[i]) }

  function Digit(c: char): (d: nat)
    requires IsDigit(c)
    ensures d < 10
  {
    c as int - '0' as int
  }

  function DigitChar(d: nat): (c: char)
    requires d < 10
    ensures IsDigit(c) && Digit(c) == d
  {
    ('0' as int + d) as char
  }

  /** The number that a string of digits stands for. */
  function Val(s: string): nat
    requires AllDigits(s)
  {
    if s == "" then 0 else 10 * Val(s[..|s| - 1]) + Digit(s[|s| - 1])
  }

  function Pow10(n: nat): (p: nat)
    ensures p > 0
  {
    if n == 0 then 1 else 10 * Pow10(n - 1)
  }

  function Zeros(n: nat): (s: string)
    ensures |s| == n && AllDigits(s)
  {
    seq(n, _ => '0')
  }

  lemma {:induction false} PowAdd(a: nat, b: nat)
    ensures Pow10(a + b) == Pow10(a) * Pow10(b)
  {
    if b == 0 {
    } else {
      PowAdd(a, b - 1);
      assert Pow10(a + b) == 10 * Pow10(a + (b - 1));
      assert 10 * (Pow10(a) * Pow10(b - 1)) == Pow10(a) * (10 * Pow10(b - 1));
    }
  }

  lemma {:induction false} ValBound(s: string)
    requires AllDigits(s)
    ensures Val(s) < Pow10(|s|)
  {
    if s == "" {
    } else {
      ValBound(s[..|s| - 1]);
    }
  }

  lemma {:induction false} TimesTen(a: nat, p: nat)
    ensures a * (10 * p) == 10 * (a * p)
  {
  }

  lemma {:induction false} ValAppend(a: string, b: string)
    requires AllDigits(a) && AllDigits(b)
    ensures AllDigits(a + b) && Val(a + b) == Val(a) * Pow10(|b|) + Val(b)
  {
    hide IsDigit, Digit;
    if b == "" {
      assert a + b == a;
    } else {
      var n := |b| - 1;
      ValAppend(a, b[..n]);
      assert (a + b)[..|a + b| - 1] == a + b[..n];
      assert (a + b)[|a + b| - 1] == b[n];
      TimesTen(Val(a), Pow10(n));
    }
  }

  lemma {:induction false} ValZeros(n: nat)
    ensures Val(Zeros(n)) == 0
  {
    if n == 0 {
    } else {
      assert Zeros(n)[..n - 1] == Zeros(n - 1);
      ValZeros(n - 1);
    }
  }

  // ---------------------------------------------------------------- padding and stripping

  function PadEnd(s: string, n: nat): string { if |s| >= n then s else s + Zeros(n - |s|) }

  function PadStart(s: string, n: nat): string { if |s| >= n then s else Zeros(n - |s|) + s }

  /** Drop leading zeros while another digit follows: /^0+(?=\d)/. */
  function StripLeading(s: string): string {
    if |s| > 1 && s[0] == '0' then StripLeading(s[1..]) else s
  }

  /** Drop trailing zeros: /0+$/. */
  function StripTrailing(s: string): string {
    if s != "" && s[|s| - 1] == '0' then StripTrailing(s[..|s| - 1]) else s
  }

  lemma {:induction false} PadEndVal(s: string, n: nat)
    requires AllDigits(s)
    ensures AllDigits(PadEnd(s, n)) && |PadEnd(s, n)| == (if |s| >= n then |s| else n)
    ensures Val(PadEnd(s, n)) == Val(s) * Pow10(|PadEnd(s, n)| - |s|)
  {
    if |s| < n {
      ValAppend(s, Zeros(n - |s|));
      ValZeros(n - |s|);
    }
  }

  lemma {:induction false} PadStartVal(s: string, n: nat)
    requires AllDigits(s)
    ensures AllDigits(PadStart(s, n)) && Val(PadStart(s, n)) == Val(s)
    ensures |PadStart(s, n)| == if |s| >= n then |s| else n
  {
    if |s| < n {
      ValAppend(Zeros(n - |s|), s);
      ValZeros(n - |s|);
    }
  }

  lemma {:induction false} StripLeadingVal(s: string)
    requires AllDigits(s)
    ensures AllDigits(StripLeading(s)) && Val(StripLeading(s)) == Val(s)
    ensures s != "" ==> StripLeading(s) != ""
    ensures |StripLeading(s)| > 1 ==> StripLeading(s)[0] != '0'
  {
    if |s| > 1 && s[0] == '0' {
      StripLeadingVal(s[1..]);
      assert s == s[..1] + s[1..];
      ValAppend(s[..1], s[1..]);
      assert Val(s[..1]) == 0 by { assert s[..1][..0] == ""; }
    }
  }

  /** Stripping trailing zeros and padding them back is the identity. */
  lemma {:induction false} StripTrailingPad(s: string)
    ensures |StripTrailing(s)| <= |s| && PadEnd(StripTrailing(s), |s|) == s
    ensures AllDigits(s) ==> AllDigits(StripTrailing(s))
    ensures StripTrailing(s) != "" ==> StripTrailing(s)[|StripTrailing(s)| - 1] != '0'
  {
    if s != "" && s[|s| - 1] == '0' {
      var r := s[..|s| - 1];
      StripTrailingPad(r);
      assert s == r + "0";
      assert PadEnd(StripTrailing(r), |s|) == PadEnd(StripTrailing(r), |r|) + "0";
    }
  }

  // ---------------------------------------------------------------- canonical digits of a number

  /** BigInt.prototype.toString for a number that is not negative. */
  function NatText(n: nat): (s: string)
    ensures s != "" && AllDigits(s)
  {
    if n < 10 then [DigitChar(n)] else NatText(n / 10) + [DigitChar(n % 10)]
  }

  lemma {:induction false} NatTextVal(n: nat)
    ensures Val(NatText(n)) == n
    ensures n > 0 ==> NatText(n)[0] != '0'
  {
    if n < 10 {
      assert NatText(n)[..0] == "";
    } else {
      NatTextVal(n / 10);
      assert NatText(n)[..|NatText(n)| - 1] == NatText(n / 10);
    }
  }

  /** Digit strings of one length are told apart by their value. */
  lemma {:induction false} ValInjective(a: string, b: string)
    requires AllDigits(a) && AllDigits(b) && |a| == |b| && Val(a) == Val(b)
    ensures a == b
  {
    if a == "" {
    } else {
      var n := |a| - 1;
      assert Digit(a[n]) == Digit(b[n]) && Val(a[..n]) == Val(b[..n]);
      ValInjective(a[..n], b[..n]);
      assert a == a[..n] + [a[n]] && b == b[..n] + [b[n]];
    }
  }

  lemma {:induction false} LeadingDigit(s: string)
    requires AllDigits(s) && s != "" && s[0] != '0'
    ensures Val(s) >= Pow10(|s| - 1)
  {
    if |s| > 1 {
      LeadingDigit(s[..|s| - 1]);
    } else {
      assert s[..0] == "";
    }
  }

  lemma {:induction false} PowMonotone(a: nat, b: nat)
    requires a <= b
    ensures Pow10(a) <= Pow10(b)
    decreases b - a
  {
    if a < b { PowMonotone(a + 1, b); }
  }

  /** The only text of a number without superfluous zeros in front. */
  predicate Canonical(s: string) { s != "" && AllDigits(s) && (|s| > 1 ==> s[0] != '0') }

  lemma {:induction false} CanonicalIsNatText(s: string)
    requires Canonical(s)
    ensures s == NatText(Val(s))
  {
    var t := NatText(Val(s));
    NatTextVal(Val(s));
    if Val(s) == 0 {
      if |s| > 1 { LeadingDigit(s); }
      assert |s| == |t| == 1;
    } else {
      if |s| == 1 { assert s[0] != '0' by { assert s[..0] == ""; } }
      LeadingDigit(s);
      LeadingDigit(t);
      ValBound(s);
      ValBound(t);
      if |s| < |t| { PowMonotone(|s|, |t| - 1); }
      if |t| < |s| { PowMonotone(|t|, |s| - 1); }
    }
    ValInjective(s, t);
  }

  // ---------------------------------------------------------------- the notation

  /** Sign, integer digits, fraction digits: what /^(-?)(\d+)(?:\.(\d+))?$/ captures. */
  datatype Decimal = Decimal(negative: bool, integer: string, fraction: string)
  {
    predicate Valid() { integer != "" && AllDigits(integer) && AllDigits(fraction) }

    function Text(): string {
      (if negative then "-" else "") + integer + (if fraction == "" then "" else "." + fraction)
    }

    /** The magnitude is Units() / Pow10(|fraction|). */
    function Units(): nat
      requires Valid()
    {
      assert AllDigits(integer + fraction);
      Val(integer + fraction)
    }
  }

  /** The leading run of digits. */
  function Run(s: string): (n: nat)
    ensures n <= |s| && AllDigits(s[..n]) && (n < |s| ==> !IsDigit(s[n]))
  {
    if s == "" || !IsDigit(s[0]) then 0
    else
      assert forall i :: 0 < i < |s| ==> s[i] == s[1..][i - 1];
      1 + Run(s[1..])
  }

  function Parse(s: string): Option<Decimal> {
    var negative := s != "" && s[0] == '-';
    var rest := if negative then s[1..] else s;
    var n := Run(rest);
    if n == 0 then None
    else if n == |rest| then Some(Decimal(negative, rest, ""))
    else if rest[n] != '.' || n + 1 == |rest| || Run(rest[n + 1..]) < |rest| - n - 1 then None
    else Some(Decimal(negative, rest[..n], rest[n + 1..]))
  }

  lemma {:induction false} RunIs(s: string, n: nat)
    requires n <= |s| && AllDigits(s[..n]) && (n < |s| ==> !IsDigit(s[n]))
    ensures Run(s) == n
  {
    if n == 0 {
    } else {
      assert s[..n][0] == s[0];
      assert s[1..][..n - 1] == s[..n][1..];
      RunIs(s[1..], n - 1);
    }
  }

  /** The pattern accepts exactly the texts of valid decimals, and captures their parts. */
  lemma {:induction false} ParseIsExact(s: string)
    ensures Parse(s).Some? ==> Parse(s).value.Valid() && Parse(s).value.Text() == s
    ensures forall d: Decimal :: d.Valid() && d.Text() == s ==> Parse(s) == Some(d)
  {
    forall d: Decimal | d.Valid() && d.Text() == s ensures Parse(s) == Some(d) {
      ParseText(d);
    }
    if Parse(s).Some? {
      ParsedText(s);
    }
  }

  lemma {:induction false} ParsedText(s: string)
    requires Parse(s).Some?
    ensures Parse(s).value.Valid() && Parse(s).value.Text() == s
  {
    hide Run, IsDigit, AllDigits;
    assert AllDigits("") by { NoDigits(); }
    var rest := if s != "" && s[0] == '-' then s[1..] else s;
    var n := Run(rest);
    WholeRun(rest);
    if n < |rest| {
      WholeRun(rest[n + 1..]);
    }
    Rejoin(s, n);
  }

  lemma {:induction false} NoDigits()
    ensures AllDigits("")
  {
  }

  lemma {:induction false} WholeRun(s: string)
    ensures AllDigits(s[..Run(s)]) && (Run(s) == |s| ==> AllDigits(s))
  {
    if Run(s) == |s| { assert s[..Run(s)] == s; }
  }

  lemma {:induction false} Rejoin(s: string, n: nat)
    ensures var sign := if s != "" && s[0] == '-' then "-" else "";
            var rest := if s != "" && s[0] == '-' then s[1..] else s;
            && sign + rest + "" == s
            && (n < |rest| && rest[n] == '.' ==> sign + rest[..n] + ("." + rest[n + 1..]) == s)
  {
  }

  lemma {:induction false} ParseText(d: Decimal)
    requires d.Valid()
    ensures Parse(d.Text()) == Some(d)
  {
    var rest := d.integer + (if d.fraction == "" then "" else "." + d.fraction);
    ParseUnsigned(d, rest);
    assert IsDigit(d.integer[0]);
    assert d.Text() == (if d.negative then "-" else "") + rest;
    assert (d.Text() != "" && d.Text()[0] == '-') == d.negative;
    assert (if d.negative then d.Text()[1..] else d.Text()) == rest;
  }

  lemma {:induction false} ParseUnsigned(d: Decimal, rest: string)
    requires d.Valid() && rest == d.integer + (if d.fraction == "" then "" else "." + d.fraction)
    ensures Run(rest) == |d.integer| && rest[..|d.integer|] == d.integer
    ensures d.fraction != "" ==>
              rest[|d.integer|] == '.' && rest[|d.integer| + 1..] == d.fraction && Run(d.fraction) == |d.fraction|
    ensures d.fraction == "" ==> rest == d.integer
  {
    assert rest[..|d.integer|] == d.integer;
    RunIs(rest, |d.integer|);
    if d.fraction != "" {
      assert rest[|d.integer| + 1..] == d.fraction;
      assert d.fraction[..|d.fraction|] == d.fraction;
      RunIs(d.fraction, |d.fraction|);
    }
  }

  // ---------------------------------------------------------------- rounding

  /** `q` is `n / d` rounded to the nearest integer, halves up. */
  predicate RoundedHalfUp(q: nat, n: nat, d: nat) { 2 * (q * d) - d <= 2 * n < 2 * (q * d) + d }

  lemma {:induction false} RoundingIsUnique(q: nat, q': nat, n: nat, d: nat)
    requires d > 0 && RoundedHalfUp(q, n, d) && RoundedHalfUp(q', n, d)
    ensures q == q'
  {
    if q < q' {
      MulLe(q + 1, q', d);
      MulSucc(q, d);
    } else if q' < q {
      MulLe(q' + 1, q, d);
      MulSucc(q', d);
    }
  }

  /** Rounding a digit string after the digits of `head` by the digit that follows. */
  lemma {:induction false} RoundByNextDigit(head: string, next: char, tail: string)
    requires AllDigits(head) && IsDigit(next) && AllDigits(tail)
    ensures AllDigits(head + [next] + tail)
    ensures RoundedHalfUp(Val(head) + (if Digit(next) >= 5 then 1 else 0), Val(head + [next] + tail), Pow10(1 + |tail|))
  {
    hide RoundedHalfUp, Val, Pow10, IsDigit, Digit;
    ValAppend(head, [next]);
    ValAppend(head + [next], tail);
    ValBound(tail);
    OneDigit(next, |tail|);
    RoundArithmetic(Val(head), Digit(next), Pow10(|tail|), Val(tail));
  }

  lemma {:induction false} OneDigit(c: char, n: nat)
    requires IsDigit(c)
    ensures Val([c]) == Digit(c) && Pow10(1) == 10 && Pow10(1 + n) == 10 * Pow10(n)
  {
    assert [c][..0] == "" && Pow10(0) == 1;
  }

  lemma {:induction false} RoundArithmetic(h: nat, d: nat, p: nat, v: nat)
    requires d < 10 && v < p
    ensures RoundedHalfUp(h + (if d >= 5 then 1 else 0), (h * 10 + d) * p + v, 10 * p)
  {
    var hp, dp := h * p, d * p;
    assert (h * 10 + d) * p == 10 * hp + dp;
    assert h * (10 * p) == 10 * hp;
    if d >= 5 {
      MulSucc(h, 10 * p);
      MulLe(5, d, p);
      MulLe(d, 9, p);
    } else {
      MulLe(d, 4, p);
    }
  }
}
