/**
 * Two exact formatters for decimal text, one over a big integer (ui/lib/dashboardLayout.ts:66-82)
 * and one over an array of digits (ui/lib/telemetryPresentation.ts:10-16 and 27-51), against one
 * rational rounding.
 */
module DecimalFormats {
  import opened Wrappers
  import opened Arithmetic
  import opened Decimals

  // ---------------------------------------------------------------- what should be shown

  function RoundHalfUp(n: nat, d: nat): (q: nat)
    requires d > 0
  {
    (2 * n + d) / (2 * d)
  }

  /** The magnitude of `d` in units of 10^-places, times 100 for a percentage, rounded half up. */
  function Target(d: Decimal, places: nat, percent: bool): nat
    requires d.Valid()
  {
    RoundHalfUp(d.Units() * Pow10(places + if percent then 2 else 0), Pow10(|d.fraction|))
  }

  /** A comma before every position that a positive multiple of three digits follows, but the first. */
  function GroupFrom(s: string, i: nat): string
    requires i <= |s|
    decreases |s| - i
  {
    if i == |s| then "" else Separator(|s|, i) + [s[i]] + GroupFrom(s, i + 1)
  }

  function Separator(length: nat, i: nat): string
    requires i < length
  {
    if i > 0 && (length - i) % 3 == 0 then "," else ""
  }

  function Group(s: string): string { GroupFrom(s, 0) }

  function Ungroup(s: string): string {
    if s == "" then "" else (if s[0] == ',' then "" else [s[0]]) + Ungroup(s[1..])
  }

  /** The fraction digits of `q` units of 10^-places, without trailing zeros. */
  function Tail(q: nat, places: nat): string {
    if places == 0 then "" else StripTrailing(PadStart(NatText(q % Pow10(places)), places))
  }

  /** The integer digits of `q` units of 10^-places. */
  function Whole(q: nat, places: nat): string { NatText(Quotient(q, Pow10(places))) }

  function Quotient(n: nat, m: nat): nat
    requires m > 0
  {
    n / m
  }

  function Notation(negative: bool, whole: string, tail: string): string {
    (if negative then "-" else "") + whole + (if tail == "" then "" else "." + tail)
  }

  /** `q` units of 10^-places in plain notation; no sign on zero. */
  function Show(negative: bool, q: nat, places: nat, grouped: bool): string {
    Notation(negative && q != 0, if grouped then Group(Whole(q, places)) else Whole(q, places), Tail(q, places))
  }

  function Clamp(precision: int): nat { if precision < 0 then 0 else if precision > 6 then 6 else precision }

  /** What the dashboard shows for a text, if it is a decimal. */
  function DashboardText(raw: string, percent: bool, precision: int): Option<string> {
    var parsed := Parse(raw);
    if parsed.None? || !parsed.value.Valid() then None
    else
      var d := parsed.value;
      Some(Show(d.negative, Target(d, Clamp(precision), percent), Clamp(precision), true) + if percent then "%" else "")
  }

  /** What a telemetry percentage shows; a text that is no decimal is passed on. */
  function TelemetryPercentText(raw: string): string {
    var parsed := Parse(raw);
    if parsed.None? || !parsed.value.Valid() then raw + "%"
    else Show(parsed.value.negative, Target(parsed.value, 2, true), 2, false) + "%"
  }

  // ---------------------------------------------------------------- arithmetic

  lemma {:induction false} LeScale(a: int, b: int, k: nat)
    requires k > 0
    ensures a <= b <==> a * k <= b * k
  {
    if a <= b {
      assert (b - a) * k >= 0;
    } else {
      assert (a - b - 1) * k >= 0;
    }
  }

  lemma {:induction false} RoundHalfUpRounds(n: nat, d: nat)
    requires d > 0
    ensures RoundedHalfUp(RoundHalfUp(n, d), n, d)
  {
    var q, m := RoundHalfUp(n, d), 2 * d;
    assert q * m <= 2 * n + d < q * m + m by { DivBounds(2 * n + d, m); }
    assert q * m == 2 * (q * d);
  }

  lemma {:induction false} ScaleLow(low: int, n: nat, d: nat, n': nat, d': nat)
    requires d > 0 && d' > 0 && n * d' == n' * d && low * d <= 2 * n
    ensures low * d' <= 2 * n'
  {
    LeScale(low * d, 2 * n, d');
    LeScale(low * d', 2 * n', d);
    Swap(low, d, d');
    assert (2 * n) * d' == 2 * (n * d');
    assert (2 * n') * d == 2 * (n' * d);
  }

  lemma {:induction false} ScaleHigh(high: int, n: nat, d: nat, n': nat, d': nat)
    requires d > 0 && d' > 0 && n * d' == n' * d && 2 * n < high * d
    ensures 2 * n' < high * d'
  {
    LeScale(high * d, 2 * n, d');
    LeScale(high * d', 2 * n', d);
    Swap(high, d, d');
    assert (2 * n) * d' == 2 * (n * d');
    assert (2 * n') * d == 2 * (n' * d);
  }

  lemma {:induction false} Halves(q: nat, d: nat)
    ensures (2 * q - 1) * d == 2 * (q * d) - d && (2 * q + 1) * d == 2 * (q * d) + d
  {
  }

  /** Rounding depends on the ratio only. */
  lemma {:induction false} RoundScale(q: nat, n: nat, d: nat, n': nat, d': nat)
    requires d > 0 && d' > 0 && n * d' == n' * d && RoundedHalfUp(q, n, d)
    ensures RoundedHalfUp(q, n', d')
  {
    Halves(q, d);
    Halves(q, d');
    ScaleLow(2 * q - 1, n, d, n', d');
    ScaleHigh(2 * q + 1, n, d, n', d');
  }

  lemma {:induction false} Swap(a: int, d: nat, d': nat)
    ensures (a * d) * d' == (a * d') * d
  {
    assert (a * d) * d' == a * (d * d');
    assert (a * d') * d == a * (d' * d);
    assert d * d' == d' * d;
  }

  lemma {:induction false} TargetIs(d: Decimal, places: nat, percent: bool, q: nat, n: nat, m: nat)
    requires d.Valid() && m > 0 && RoundedHalfUp(q, n, m)
    requires n * Pow10(|d.fraction|) == d.Units() * Pow10(places + if percent then 2 else 0) * m
    ensures q == Target(d, places, percent)
  {
    hide RoundedHalfUp, RoundHalfUp;
    var n', m' := d.Units() * Pow10(places + if percent then 2 else 0), Pow10(|d.fraction|);
    RoundScale(q, n, m, n', m');
    RoundHalfUpRounds(n', m');
    RoundingIsUnique(q, RoundHalfUp(n', m'), n', m');
  }

  // ---------------------------------------------------------------- digit manipulation

  /** Cut a digit string behind its integer part and round it there. */
  lemma {:induction false} CutAndRound(integer: string, fraction: string, places: nat, q: nat)
    requires integer != "" && AllDigits(integer) && AllDigits(fraction)
    requires var kept := PadEnd(fraction, places + 1);
             && AllDigits(kept) && AllDigits(integer + kept[..places])
             && q == Val(integer + kept[..places]) + (if Digit(kept[places]) >= 5 then 1 else 0)
    ensures AllDigits(integer + fraction)
    ensures RoundedHalfUp(q, Val(integer + fraction) * Pow10(places), Pow10(|fraction|))
  {
    hide RoundedHalfUp, Val, IsDigit, Digit, Pow10;
    var kept := PadEnd(fraction, places + 1);
    PadEndVal(fraction, places + 1);
    var head, next, tail := integer + kept[..places], kept[places], kept[places + 1..];
    assert kept == kept[..places] + [next] + tail;
    assert head + [next] + tail == integer + kept;
    RoundByNextDigit(head, next, tail);
    var k, f := |kept|, |fraction|;
    ValAppend(integer, kept);
    ValAppend(integer, fraction);
    PowAdd(f, k - f);
    PowAdd(places, k - places);
    var v, w := Val(integer + fraction), Val(integer + kept);
    assert w == v * Pow10(k - f) by {
      Distribute(Val(integer), Pow10(f), Pow10(k - f), Val(fraction));
    }
    assert Pow10(f) * Pow10(k - f) == Pow10(places) * Pow10(k - places);
    SameProduct(v, Pow10(k - f), Pow10(f), Pow10(places), Pow10(k - places));
    RoundScale(q, w, Pow10(k - places), v * Pow10(places), Pow10(f));
  }

  lemma {:induction false} Regroup(a: nat, b: nat, c: nat)
    ensures a * b * c == a * (b * c)
  {
  }

  lemma {:induction false} SameProduct(v: nat, a: nat, b: nat, c: nat, d: nat)
    requires b * a == c * d
    ensures (v * a) * b == (v * c) * d
  {
    Regroup(v, a, b);
    Regroup(v, c, d);
    assert a * b == b * a;
  }

  lemma {:induction false} Distribute(i: nat, pf: nat, pk: nat, f: nat)
    ensures i * (pf * pk) + f * pk == (i * pf + f) * pk
  {
    assert (i * pf + f) * pk == (i * pf) * pk + f * pk;
    Regroup(i, pf, pk);
  }

  /** Moving the point two places: `integer'.fraction'` is a hundred times `integer.fraction`. */
  lemma {:induction false} ShiftTwo(integer: string, fraction: string)
    requires integer != "" && AllDigits(integer) && AllDigits(fraction)
    ensures var padded := PadEnd(fraction, 2);
            && AllDigits(padded) && AllDigits(integer + fraction)
            && AllDigits(integer + padded[..2]) && AllDigits(padded[2..])
               && AllDigits(integer + padded[..2] + padded[2..])
            && Val(integer + padded[..2] + padded[2..]) * Pow10(|fraction|)
               == Val(integer + fraction) * 100 * Pow10(|padded[2..]|)
  {
    hide Val, IsDigit, Pow10;
    var padded := PadEnd(fraction, 2);
    PadEndVal(fraction, 2);
    assert integer + padded[..2] + padded[2..] == integer + padded by { assert padded == padded[..2] + padded[2..]; }
    ValAppend(integer, padded);
    ValAppend(integer, fraction);
    var k, f, v := |padded|, |fraction|, Val(integer + fraction);
    PowAdd(f, k - f);
    PowAdd(2, k - 2);
    HundredIs();
    Distribute(Val(integer), Pow10(f), Pow10(k - f), Val(fraction));
    assert Val(integer + padded) == v * Pow10(k - f);
    Regroup(v, Pow10(k - f), Pow10(f));
    Regroup(v, 100, Pow10(k - 2));
    assert Pow10(k - f) * Pow10(f) == Pow10(f) * Pow10(k - f);
  }

  lemma {:induction false} HundredIs()
    ensures Pow10(2) == 100
  {
    assert Pow10(0) == 1 && Pow10(1) == 10;
  }

  // ---------------------------------------------------------------- from rounded units to text

  /** `combined` are digits of `q`, at least one more than `places`: the shown parts are its parts. */
  lemma {:induction false} PartsOf(q: nat, places: nat, combined: string)
    requires AllDigits(combined) && Val(combined) == q && |combined| > places
    ensures var cut := |combined| - places;
            && AllDigits(combined[..cut]) && Val(combined[..cut]) == q / Pow10(places)
            && (places == 0 ==> combined[..cut] == combined)
            && (places > 0 ==> StripTrailing(combined[cut..]) == Tail(q, places))
  {
    hide StripTrailing;
    var cut := |combined| - places;
    var hi, lo := combined[..cut], combined[cut..];
    assert combined == hi + lo;
    ValAppend(hi, lo);
    ValBound(lo);
    DivUnique(q, Val(hi), Val(lo), Pow10(places));
    if places > 0 {
      FractionDigits(lo);
    }
  }

  lemma {:induction false} ShortText(n: nat, places: nat)
    requires n < Pow10(places) && places > 0
    ensures |NatText(n)| <= places
  {
    hide Val, IsDigit;
    NatTextVal(n);
    if n >= 10 && |NatText(n)| > places {
      LeadingDigit(NatText(n));
      PowMonotone(places, |NatText(n)| - 1);
    }
  }

  /** Digits are their value's text, padded to their length. */
  lemma {:induction false} FractionDigits(lo: string)
    requires AllDigits(lo) && lo != ""
    ensures lo == PadStart(NatText(Val(lo)), |lo|)
  {
    hide NatText, Val, Pow10, IsDigit, PadStart;
    var t := NatText(Val(lo));
    NatTextVal(Val(lo));
    ValBound(lo);
    ShortText(Val(lo), |lo|);
    PadStartVal(t, |lo|);
    ValInjective(lo, PadStart(t, |lo|));
  }

  // ---------------------------------------------------------------- dashboard: a big integer

  /** None where the text is no decimal, which the caller shows in another way. */
  method FormatDashboardValue(raw: string, percent: bool, precision: int) returns (text: Option<string>)
    ensures text == DashboardText(raw, percent, precision)
  {
    hide Show, Group, Whole, Tail, PadEnd, PadStart, Parse, Val, NatText, StripTrailing, Target, Pow10, IsDigit;
    ParseIsExact(raw);
    var parsed := Parse(raw);
    if parsed.None? {
      return None;
    }
    var d := parsed.value;
    var places := Clamp(precision);
    var integer, fraction := d.integer, d.fraction;
    if percent {
      ShiftTwo(integer, fraction);
      PadEndVal(fraction, 2);
      fraction := PadEnd(fraction, 2);
      integer := integer + fraction[..2];
      fraction := fraction[2..];
    }
    var kept := PadEnd(fraction, places + 1);
    PadEndVal(fraction, places + 1);
    var digits := Val(integer + kept[..places]);
    if Digit(kept[places]) >= 5 {
      digits := digits + 1;
    }
    DashboardTarget(d, percent, places, integer, fraction, digits);
    var combined := PadStart(NatText(digits), places + 1);
    DashboardParts(digits, places);
    var whole := Group(if places > 0 then combined[..|combined| - places] else combined);
    var tail := if places > 0 then StripTrailing(combined[|combined| - places..]) else "";
    ShowIs(d.negative, digits, places);
    return Some(Notation(d.negative && digits != 0, whole, tail) + if percent then "%" else "");
  }

  lemma {:induction false} ShowIs(negative: bool, q: nat, places: nat)
    ensures Show(negative, q, places, true) == Notation(negative && q != 0, Group(Whole(q, places)), Tail(q, places))
    ensures Show(negative, q, places, false) == Notation(negative && q != 0, Whole(q, places), Tail(q, places))
    ensures places == 0 ==> Tail(q, places) == ""
  {
  }

  lemma {:induction false} DashboardTarget(d: Decimal, percent: bool, places: nat, integer: string, fraction: string,
                                           q: nat)
    requires d.Valid() && integer != "" && AllDigits(integer) && AllDigits(fraction)
    requires if percent then integer == d.integer + PadEnd(d.fraction, 2)[..2] && fraction == PadEnd(d.fraction, 2)[2..]
             else integer == d.integer && fraction == d.fraction
    requires var kept := PadEnd(fraction, places + 1);
             && AllDigits(kept) && AllDigits(integer + kept[..places])
             && q == Val(integer + kept[..places]) + (if Digit(kept[places]) >= 5 then 1 else 0)
    ensures q == Target(d, places, percent)
  {
    hide RoundedHalfUp, Val, Pow10, Digit, IsDigit;
    CutAndRound(integer, fraction, places, q);
    var v, p, f := Val(integer + fraction), Pow10(places), Pow10(|fraction|);
    if percent {
      ShiftTwo(d.integer, d.fraction);
      PowAdd(places, 2);
      HundredIs();
      Hundredfold(v, d.Units(), p, f, Pow10(|d.fraction|));
    } else {
      Swap(v, p, f);
    }
    TargetIs(d, places, percent, q, v * p, f);
  }

  lemma {:induction false} Hundredfold(v: nat, u: nat, p: nat, f: nat, g: nat)
    requires v * g == u * 100 * f
    ensures (v * p) * g == u * (p * 100) * f
  {
    Swap(v, p, g);
    assert (v * g) * p == (u * 100 * f) * p;
    Regroup(u, 100, f);
    assert (u * 100 * f) * p == u * (100 * f) * p;
    Regroup(u, 100 * f, p);
    Regroup(u, p * 100, f);
    assert (100 * f) * p == (p * 100) * f;
  }

  /** The text of a big integer, padded, splits into the shown integer and fraction digits. */
  lemma {:induction false} DashboardParts(q: nat, places: nat)
    ensures var combined := PadStart(NatText(q), places + 1);
            && |combined| > places
            && combined[..|combined| - places] == Whole(q, places)
            && (places == 0 ==> combined == Whole(q, places))
            && (places > 0 ==> StripTrailing(combined[|combined| - places..]) == Tail(q, places))
  {
    hide NatText, PadStart, Tail, StripTrailing, Val;
    NatTextVal(q);
    PadStartVal(NatText(q), places + 1);
    var combined := PadStart(NatText(q), places + 1);
    PartsOf(q, places, combined);
    PaddedHead(q, places);
    CanonicalIsNatText(combined[..|combined| - places]);
  }

  lemma {:induction false} PaddedHead(q: nat, places: nat)
    ensures var combined := PadStart(NatText(q), places + 1);
            |combined| > places && Canonical(combined[..|combined| - places])
  {
    hide NatText;
    NatTextVal(q);
    PadStartVal(NatText(q), places + 1);
    if |NatText(q)| > 1 { ValBound(NatText(q)); SingleDigit(q); }
  }

  lemma {:induction false} SingleDigit(q: nat)
    ensures q == 0 ==> |NatText(q)| == 1
  {
  }

  // ---------------------------------------------------------------- telemetry: an array of digits

  function ShiftDecimal(value: string, places: nat): string {
    var parsed := Parse(value);
    if parsed.None? then value
    else
      var d := parsed.value;
      var decimals := PadEnd(d.fraction, places);
      Decimal(d.negative, StripLeading(d.integer + decimals[..places]), StripTrailing(decimals[places..])).Text()
  }

  lemma {:induction false} ValUpdate(s: string, i: nat, c: char)
    requires AllDigits(s) && i < |s| && IsDigit(c)
    ensures AllDigits(s[i := c])
    ensures Val(s[i := c]) == Val(s) + (Digit(c) - Digit(s[i])) * Pow10(|s| - 1 - i)
  {
    var n := |s| - 1;
    if i == n {
      assert s[i := c][..n] == s[..n];
      assert Pow10(0) == 1;
    } else {
      ValUpdate(s[..n], i, c);
      assert s[i := c][..n] == s[..n][i := c];
      assert s[i := c][n] == s[n] && s[..n][i] == s[i];
      TimesTenInt(Digit(c) - Digit(s[i]), Pow10(n - 1 - i));
    }
  }

  lemma {:induction false} TimesTenInt(a: int, p: nat)
    ensures a * (10 * p) == 10 * (a * p)
  {
  }

  /** Add one to the number in `digits`, in place; what is carried out of the front is returned. */
  method CarryOne(digits: array<char>) returns (carry: nat)
    requires AllDigits(digits[..])
    modifies digits
    ensures AllDigits(digits[..]) && carry <= 1
    ensures Val(digits[..]) + carry * Pow10(digits.Length) == old(Val(digits[..])) + 1
  {
    hide Val, IsDigit, Digit, DigitChar;
    carry := 1;
    var index := digits.Length - 1;
    assert Pow10(0) == 1;
    while index >= 0 && carry > 0
      invariant -1 <= index < digits.Length && carry <= 1
      invariant AllDigits(digits[..])
      invariant carry == 1 ==> Val(digits[..]) + Pow10(digits.Length - 1 - index) == old(Val(digits[..])) + 1
      invariant carry == 0 ==> Val(digits[..]) == old(Val(digits[..])) + 1
    {
      hide Pow10;
      ghost var before := digits[..];
      assert before[index] == digits[index];
      CarryStep(before, index);
      var next := Digit(digits[index]) + carry;
      digits[index] := DigitChar(next % 10);
      assert digits[..] == before[index := DigitChar(next % 10)];
      carry := if next >= 10 then 1 else 0;
      index := index - 1;
    }
    OnceOrNot(Pow10(digits.Length));
  }

  lemma {:induction false} OnceOrNot(p: nat)
    ensures 0 * p == 0 && 1 * p == p
  {
  }

  lemma {:induction false} CarryStep(s: string, i: nat)
    requires AllDigits(s) && i < |s|
    ensures var next := Digit(s[i]) + 1;
            var s' := s[i := DigitChar(next % 10)];
            && AllDigits(s')
            && Val(s') + (if next >= 10 then Pow10(|s| - i) else 0) == Val(s) + Pow10(|s| - 1 - i)
  {
    hide Val, IsDigit, Digit, DigitChar;
    var next, p := Digit(s[i]) + 1, Pow10(|s| - 1 - i);
    var c := DigitChar(next % 10);
    ValUpdate(s, i, c);
    ScaledStep(Digit(c) - Digit(s[i]), p);
    assert Pow10(|s| - i) == 10 * p;
  }

  lemma {:induction false} ScaledStep(diff: int, p: nat)
    ensures diff == 1 ==> diff * p == p
    ensures diff == -9 ==> diff * p + 10 * p == p
  {
  }

  predicate AllZeros(s: string) { forall i :: 0 <= i < |s| ==> s[i] == '0' }

  lemma {:induction false} ZeroIsAllZeros(s: string)
    requires AllDigits(s)
    ensures AllZeros(s) <==> Val(s) == 0
  {
    if s == "" {
    } else {
      ZeroIsAllZeros(s[..|s| - 1]);
      assert AllZeros(s) <==> AllZeros(s[..|s| - 1]) && s[|s| - 1] == '0';
    }
  }

  /** What rounding to no places shows: `slice(0, -0)` is empty, so all digits end up behind the point. */
  ghost predicate AllBehindPoint(negative: bool, q: nat, text: string) {
    exists digits :: AllDigits(digits) && Val(digits) == q && digits != ""
      && text == Notation(negative && q > 0, "", StripTrailing(digits))
  }

  method RoundDecimalText(value: string, places: nat) returns (text: string)
    ensures Parse(value).None? ==> text == value
    ensures Parse(value).Some? ==>
              var d := Parse(value).value;
              && d.Valid()
              && if places > 0 then text == Show(d.negative, Target(d, places, false), places, false)
                 else AllBehindPoint(d.negative, Target(d, 0, false), text)
  {
    hide Show, Whole, Tail, PadEnd, PadStart, Parse, Val, NatText, StripTrailing, StripLeading, Target, Pow10, IsDigit;
    ParseIsExact(value);
    var parsed := Parse(value);
    if parsed.None? {
      return value;
    }
    var d := parsed.value;
    var fraction := PadEnd(d.fraction, places + 1);
    PadEndVal(d.fraction, places + 1);
    var head := d.integer + fraction[..places];
    var digits := new char[|head|](i requires 0 <= i < |head| => head[i]);
    assert digits[..] == head;
    var joined := head;
    if Digit(fraction[places]) >= 5 {
      var carry := CarryOne(digits);
      joined := digits[..];
      if carry > 0 {
        CarriedOut(digits[..]);
        joined := "1" + joined;
      } else {
        OnceOrNot(Pow10(digits.Length));
      }
    }
    ghost var q := Val(joined);
    DashboardTarget(d, false, places, d.integer, d.fraction, q);
    var combined := PadStart(joined, places + 1);
    PadStartVal(joined, places + 1);
    ZeroIsAllZeros(combined);
    if places == 0 {
      text := Notation(d.negative && !AllZeros(combined), "", StripTrailing(combined));
      return;
    }
    TelemetryParts(q, places, combined);
    var integer := StripLeading(combined[..|combined| - places]);
    var decimals := StripTrailing(combined[|combined| - places..]);
    ShowIs(d.negative, q, places);
    return Notation(d.negative && !AllZeros(combined), integer, decimals);
  }

  lemma {:induction false} OneIsOne()
    ensures Digit('1') == 1
  {
  }

  lemma {:induction false} CarriedOut(s: string)
    requires AllDigits(s)
    ensures AllDigits("1" + s) && Val("1" + s) == Val(s) + 1 * Pow10(|s|)
  {
    hide Val, Pow10, Digit;
    ValAppend("1", s);
    OneDigit('1', 0);
    assert ['1'] == "1" && Digit('1') == 1 by { OneIsOne(); }
  }

  lemma {:induction false} TelemetryParts(q: nat, places: nat, combined: string)
    requires places > 0 && AllDigits(combined) && Val(combined) == q && |combined| > places
    ensures StripLeading(combined[..|combined| - places]) == Whole(q, places)
    ensures StripTrailing(combined[|combined| - places..]) == Tail(q, places)
  {
    hide Val, StripLeading, StripTrailing, Tail, NatText, Pow10, IsDigit;
    PartsOf(q, places, combined);
    var hi := combined[..|combined| - places];
    StripLeadingVal(hi);
    CanonicalIsNatText(StripLeading(hi));
  }

  method FormatTelemetryPercent(raw: string) returns (text: string)
    ensures text == TelemetryPercentText(raw)
  {
    hide Show, Target;
    ParseIsExact(raw);
    if Parse(raw).Some? {
      ShiftedTarget(raw);
    }
    var rounded := RoundDecimalText(ShiftDecimal(raw, 2), 2);
    return rounded + "%";
  }

  /** Shifting the text by two places and rounding it is rounding a hundred times the number. */
  lemma {:induction false} ShiftedTarget(raw: string)
    requires Parse(raw).Some? && Parse(raw).value.Valid()
    ensures var shifted := Parse(ShiftDecimal(raw, 2));
            && shifted.Some? && shifted.value.Valid()
            && shifted.value.negative == Parse(raw).value.negative
            && Target(shifted.value, 2, false) == Target(Parse(raw).value, 2, true)
  {
    hide Parse, Val, StripLeading, StripTrailing, PadEnd, IsDigit, Pow10, RoundHalfUp, RoundedHalfUp;
    var d := Parse(raw).value;
    var decimals := PadEnd(d.fraction, 2);
    PadEndVal(d.fraction, 2);
    ShiftTwo(d.integer, d.fraction);
    var integer, rest := d.integer + decimals[..2], decimals[2..];
    StripLeadingVal(integer);
    StripTrailingPad(rest);
    var s := Decimal(d.negative, StripLeading(integer), StripTrailing(rest));
    ParseText(s);
    StrippedUnits(integer, rest);
    var g, f, k := Pow10(|d.fraction|), Pow10(|s.fraction|), Pow10(|rest| - |s.fraction|);
    PowAdd(|s.fraction|, |rest| - |s.fraction|);
    PowAdd(2, 2);
    HundredIs();
    SameRatio(s.Units(), d.Units(), g, f, k);
    RoundHalfUpRounds(s.Units() * Pow10(2), f);
    TargetIs(d, 2, true, Target(s, 2, false), s.Units() * Pow10(2), f);
  }

  lemma {:induction false} StrippedUnits(integer: string, rest: string)
    requires integer != "" && AllDigits(integer) && AllDigits(rest)
    ensures AllDigits(StripLeading(integer) + StripTrailing(rest)) && AllDigits(integer + rest)
    ensures |StripTrailing(rest)| <= |rest|
    ensures Val(StripLeading(integer) + StripTrailing(rest)) * Pow10(|rest| - |StripTrailing(rest)|)
        == Val(integer + rest)
  {
    hide Val, StripLeading, StripTrailing, IsDigit, Pow10;
    StripLeadingVal(integer);
    StripTrailingPad(rest);
    var t := StripTrailing(rest);
    var k := |rest| - |t|;
    PadEndVal(t, |rest|);
    ValAppend(integer, rest);
    ValAppend(StripLeading(integer), t);
    PowAdd(|t|, k);
    Distribute(Val(integer), Pow10(|t|), Pow10(k), Val(t));
  }

  lemma {:induction false} SameRatio(u: nat, v: nat, g: nat, f: nat, k: nat)
    requires (u * k) * g == v * 100 * (f * k) && k > 0
    ensures (u * 100) * g == v * 10000 * f
  {
    assert (u * g) * k == (u * k) * g by { Swap(u, g, k); }
    assert (v * 100 * f) * k == v * 100 * (f * k) by { Regroup(v * 100, f, k); }
    LeScale(u * g, v * 100 * f, k);
    LeScale(v * 100 * f, u * g, k);
    assert (u * 100) * g == 100 * (u * g);
    assert v * 10000 * f == 100 * (v * 100 * f);
  }

  // ---------------------------------------------------------------- the two agree, and read back

  lemma {:induction false} GroupStep(s: string, i: nat)
    requires i < |s|
    ensures GroupFrom(s, i) == Separator(|s|, i) + [s[i]] + GroupFrom(s, i + 1)
  {
    hide Separator;
  }

  lemma {:induction false} GroupEnd(s: string)
    ensures GroupFrom(s, |s|) == ""
  {
  }

  lemma {:induction false} UngroupGroup(s: string, i: nat)
    requires AllDigits(s) && i <= |s|
    ensures Ungroup(GroupFrom(s, i)) == s[i..]
    decreases |s| - i
  {
    if i < |s| {
      assert s[i] != ',';
      UngroupOne(|s|, i, s[i]);
      hide IsDigit, Ungroup, Separator, GroupFrom;
      UngroupGroup(s, i + 1);
      GroupStep(s, i);
      UngroupAppend(Separator(|s|, i) + [s[i]], GroupFrom(s, i + 1));
      FirstOf(s, i);
    } else {
      assert s[i..] == "";
    }
  }

  lemma {:induction false} FirstOf(s: string, i: nat)
    requires i < |s|
    ensures s[i..] == [s[i]] + s[i + 1..]
  {
  }

  lemma {:induction false} UngroupOne(length: nat, i: nat, c: char)
    requires c != ',' && i < length
    ensures Ungroup(Separator(length, i) + [c]) == [c]
  {
    UngroupAppend(Separator(length, i), [c]);
    assert Ungroup([c]) == [c];
    assert Ungroup(Separator(length, i)) == "";
    assert "" + [c] == [c];
  }

  lemma {:induction false} GroupTail(s: string, i: nat)
    requires i <= |s| - 3
    ensures GroupFrom(s, i) == GroupFrom(s[..|s| - 3], i) + GroupFrom(s, |s| - 3)
    decreases |s| - i
  {
    var head := s[..|s| - 3];
    var end := GroupFrom(s, |s| - 3);
    hide Separator, GroupFrom;
    if i == |head| {
      GroupEnd(head);
      Assoc("", "", end);
    } else {
      SameSeparator(|s|, i);
      GroupTail(s, i + 1);
      GroupStep(s, i);
      GroupStep(head, i);
      Assoc(Separator(|s|, i) + [s[i]], GroupFrom(head, i + 1), end);
    }
  }

  lemma {:induction false} Assoc(a: string, b: string, c: string)
    ensures a + (b + c) == a + b + c
    ensures "" + c == c
  {
  }

  lemma {:induction false} SameSeparator(length: nat, i: nat)
    requires i + 3 < length
    ensures Separator(length, i) == Separator(length - 3, i)
  {
    assert (length - i) % 3 == (length - 3 - i) % 3;
  }

  lemma {:induction false} LastThree(s: string)
    requires |s| >= 3
    ensures GroupFrom(s, |s| - 3) == Separator(|s|, |s| - 3) + s[|s| - 3..]
  {
    var k := |s|;
    LastSeparators(k);
    hide Separator, GroupFrom;
    GroupStep(s, k - 3);
    GroupStep(s, k - 2);
    GroupStep(s, k - 1);
    GroupEnd(s);
    Assemble(Separator(k, k - 3), [s[k - 3]], [s[k - 2]], [s[k - 1]]);
    ThreeDigits(s, k - 3);
  }

  lemma {:induction false} ThreeDigits(s: string, i: nat)
    requires i + 3 == |s|
    ensures s[i..] == [s[i]] + [s[i + 1]] + [s[i + 2]]
  {
  }

  lemma {:induction false} Assemble(sep: string, a: string, b: string, c: string)
    ensures sep + a + ("" + b + ("" + c + "")) == sep + (a + b + c)
  {
  }

  lemma {:induction false} LastSeparators(k: nat)
    requires k >= 3
    ensures Separator(k, k - 1) == "" && Separator(k, k - 2) == ""
  {
  }

  /** Up to three digits stay as they are; of more, the last three follow a comma. */
  lemma {:induction false} GroupsOfThree(s: string)
    ensures |s| <= 3 ==> Group(s) == s
    ensures |s| > 3 ==> Group(s) == Group(s[..|s| - 3]) + ("," + s[|s| - 3..])
  {
    if |s| > 3 {
      LastSeparator(|s|);
      hide Separator, GroupFrom;
      GroupTail(s, 0);
      LastThree(s);
    } else {
      ShortGroup(s);
    }
  }

  lemma {:induction false} LastSeparator(k: nat)
    requires k > 3
    ensures Separator(k, k - 3) == ","
  {
  }

  lemma {:induction false} ShortGroup(s: string)
    requires |s| <= 3
    ensures GroupFrom(s, 0) == s
  {
    ShortSeparators(|s|);
    hide Separator, GroupFrom;
    GroupEnd(s);
    if |s| == 3 {
      LastThree(s);
    } else if |s| == 2 {
      GroupStep(s, 0);
      GroupStep(s, 1);
    } else if |s| == 1 {
      GroupStep(s, 0);
    }
  }

  lemma {:induction false} ShortSeparators(k: nat)
    requires k <= 3
    ensures forall i: nat :: i < k ==> Separator(k, i) == ""
  {
  }

  lemma {:induction false} UngroupAppend(a: string, b: string)
    ensures Ungroup(a + b) == Ungroup(a) + Ungroup(b)
  {
    hide Ungroup;
    if a == "" {
      assert a + b == b && Ungroup(a) == "" by { UngroupNothing(); }
      assert "" + Ungroup(b) == Ungroup(b);
    } else {
      assert a == [a[0]] + a[1..];
      assert a + b == [a[0]] + (a[1..] + b);
      UngroupFirst(a[0], a[1..]);
      UngroupFirst(a[0], a[1..] + b);
      UngroupAppend(a[1..], b);
    }
  }

  lemma {:induction false} UngroupNothing()
    ensures Ungroup("") == ""
  {
  }

  lemma {:induction false} UngroupFirst(c: char, s: string)
    ensures Ungroup([c] + s) == (if c == ',' then "" else [c]) + Ungroup(s)
  {
    assert ([c] + s)[1..] == s;
  }

  lemma {:induction false} UngroupPlain(s: string)
    requires forall i :: 0 <= i < |s| ==> s[i] != ','
    ensures Ungroup(s) == s
  {
    if s == "" {
    } else {
      UngroupPlain(s[1..]);
      assert s == [s[0]] + s[1..];
    }
  }

  lemma {:induction false} TailDigits(q: nat, places: nat)
    ensures AllDigits(Tail(q, places))
    ensures |Tail(q, places)| <= places
    ensures Val(Tail(q, places)) * Pow10(places - |Tail(q, places)|) == q % Pow10(places)
  {
    hide Val, IsDigit, StripTrailing, NatText;
    if places == 0 {
      assert Pow10(0) == 1 && Val("") == 0 by { EmptyVal(); }
    } else {
      var r := q % Pow10(places);
      ShortText(r, places);
      NatTextVal(r);
      var padded := PadStart(NatText(r), places);
      PadStartVal(NatText(r), places);
      StripTrailingPad(padded);
      PadEndVal(StripTrailing(padded), places);
    }
  }

  lemma {:induction false} EmptyVal()
    ensures Val("") == 0
  {
  }

  /** Taking the commas out of the grouped form gives the plain form. */
  lemma {:induction false} UngroupShow(negative: bool, q: nat, places: nat, suffix: string)
    requires suffix == "" || suffix == "%"
    ensures Ungroup(Show(negative, q, places, true) + suffix) == Show(negative, q, places, false) + suffix
  {
    hide Group, Ungroup, Whole, Tail, IsDigit, Val, Notation, Show;
    var sign, whole, tail := negative && q != 0, Whole(q, places), Tail(q, places);
    TailDigits(q, places);
    WholeDigits(q, places);
    UngroupWhole(whole);
    ShowIs(negative, q, places);
    UngroupNotation(sign, Group(whole), tail, suffix);
  }

  lemma {:induction false} UngroupNotation(sign: bool, whole: string, tail: string, suffix: string)
    requires AllDigits(tail) && (suffix == "" || suffix == "%")
    ensures Ungroup(Notation(sign, whole, tail) + suffix) == Notation(sign, Ungroup(whole), tail) + suffix
  {
    var rest := (if tail == "" then "" else "." + tail) + suffix;
    var front := if sign then "-" else "";
    assert forall i :: 0 <= i < |rest| ==> rest[i] != ',';
    UngroupPlain(front);
    UngroupPlain(rest);
    hide Ungroup, IsDigit;
    NotationParts(sign, whole, tail, suffix);
    NotationParts(sign, Ungroup(whole), tail, suffix);
    UngroupAppend(front, whole + rest);
    UngroupAppend(whole, rest);
  }

  lemma {:induction false} NotationParts(sign: bool, whole: string, tail: string, suffix: string)
    ensures Notation(sign, whole, tail) + suffix
         == (if sign then "-" else "") + (whole + ((if tail == "" then "" else "." + tail) + suffix))
  {
  }

  lemma {:induction false} UngroupWhole(s: string)
    requires AllDigits(s)
    ensures Ungroup(Group(s)) == s
  {
    UngroupGroup(s, 0);
  }

  lemma {:induction false} WholeDigits(q: nat, places: nat)
    ensures AllDigits(Whole(q, places)) && Whole(q, places) != ""
    ensures Val(Whole(q, places)) == Quotient(q, Pow10(places))
  {
    hide Quotient, Pow10;
    NatTextVal(Quotient(q, Pow10(places)));
  }

  /**
   * For every text, decimal or not, the dashboard shows a percentage at precision 2 exactly when
   * the text is a decimal, and then it is the telemetry form but for the thousands separators.
   */
  lemma {:induction false} PercentFormsAgree(raw: string)
    ensures DashboardText(raw, true, 2).Some? <==> Parse(raw).Some?
    ensures DashboardText(raw, true, 2).Some? ==>
        Ungroup(DashboardText(raw, true, 2).value) == TelemetryPercentText(raw)
  {
    hide Show, Target, Parse, Ungroup;
    if Parse(raw).Some? {
      ParseIsExact(raw);
      UngroupShow(Parse(raw).value.negative, Target(Parse(raw).value, 2, true), 2, "%");
    }
  }

  /**
   * The plain form reads back as a decimal that is exactly `q` units of 10^-places: restoring the
   * stripped zeros recovers `q`. Its sign is never on a zero.
   */
  lemma {:induction false} ShownReadsBack(negative: bool, q: nat, places: nat)
    ensures var shown := Parse(Show(negative, q, places, false));
            && shown.Some? && shown.value.Valid() && |shown.value.fraction| <= places
            && shown.value.Units() * Pow10(places - |shown.value.fraction|) == q
            && shown.value.negative == (negative && q != 0)
  {
    hide Val, IsDigit, NatText, Tail, Parse, Pow10, Whole;
    var whole, tail := Whole(q, places), Tail(q, places);
    TailDigits(q, places);
    WholeDigits(q, places);
    var d := Decimal(negative && q != 0, whole, tail);
    assert Show(negative, q, places, false) == d.Text();
    ParseText(d);
    ValAppend(whole, tail);
    var k := places - |tail|;
    PowAdd(|tail|, k);
    Distribute(Val(whole), Pow10(|tail|), Pow10(k), Val(tail));
    DivBack(q, Pow10(places));
  }

  lemma {:induction false} DivBack(q: nat, m: nat)
    requires m > 0
    ensures Quotient(q, m) * m + q % m == q
  {
  }

  /** What is shown is within half a unit of the last place of the number, with its full precision. */
  lemma {:induction false} TargetIsNearest(d: Decimal, places: nat, percent: bool)
    requires d.Valid()
    ensures RoundedHalfUp(Target(d, places, percent),
                          d.Units() * Pow10(places + if percent then 2 else 0), Pow10(|d.fraction|))
  {
    RoundHalfUpRounds(d.Units() * Pow10(places + if percent then 2 else 0), Pow10(|d.fraction|));
  }
}
