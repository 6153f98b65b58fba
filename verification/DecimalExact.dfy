/**
 * What the two formatters show, told of the number that is read and the number that is shown: no
 * word on how it is computed (ui/lib/dashboardLayout.ts:66-82, ui/lib/telemetryPresentation.ts:18-51).
 */
module DecimalExact {
  import opened Wrappers
  import opened Arithmetic
  import opened Decimals
  import opened DecimalFormats

  /** No zeros that could be left out. */
  ghost predicate Trimmed(d: Decimal) {
    && d.Valid()
    && (|d.integer| > 1 ==> d.integer[0] != '0')
    && (d.fraction != "" ==> d.fraction[|d.fraction| - 1] != '0')
  }

  /** `shown` is `factor` times `d`, rounded to the nearest number of at most `places` places, halves away from zero. */
  ghost predicate Nearest(d: Decimal, shown: Decimal, places: nat, factor: nat) {
    && d.Valid() && Trimmed(shown) && |shown.fraction| <= places
    && shown.negative == (d.negative && shown.Units() != 0)
    && var q := shown.Units() * Pow10(places - |shown.fraction|);
       var n, m := d.Units() * (Pow10(places) * factor), Pow10(|d.fraction|);
       2 * (q * m) - m <= 2 * n < 2 * (q * m) + m
  }

  function Number(q: nat, places: nat, negative: bool): Decimal {
    Decimal(negative && q != 0, Whole(q, places), Tail(q, places))
  }

  lemma {:induction false} NumberIsNearest(d: Decimal, places: nat, percent: bool)
    requires d.Valid()
    ensures Nearest(d, Number(Target(d, places, percent), places, d.negative), places, if percent then 100 else 1)
  {
    hide Val, IsDigit, NatText, StripTrailing, Target, Parse, Whole, Tail, Notation;
    var q := Target(d, places, percent);
    var shown := Number(q, places, d.negative);
    TargetIsNearest(d, places, percent);
    NumberReads(d.negative, q, places);
    HundredIs();
    PowAdd(places, 2);
    PartsAreTrimmed(q, places);
    assert shown.Units() == 0 <==> q == 0 by {
      ZeroTimes(shown.Units(), Pow10(places - |shown.fraction|));
    }
  }

  lemma {:induction false} ZeroTimes(a: nat, b: nat)
    requires b > 0
    ensures a * b == 0 <==> a == 0
  {
  }

  lemma {:induction false} NumberReads(negative: bool, q: nat, places: nat)
    ensures var shown := Number(q, places, negative);
            && shown.Valid() && |shown.fraction| <= places
            && shown.Units() * Pow10(places - |shown.fraction|) == q
  {
    hide Val, IsDigit, Parse, Whole, Tail, Pow10;
    ShownReadsBack(negative, q, places);
    TailDigits(q, places);
    WholeDigits(q, places);
    var shown := Number(q, places, negative);
    ShowIs(negative, q, places);
    ParseText(shown);
  }

  lemma {:induction false} PartsAreTrimmed(q: nat, places: nat)
    ensures |Whole(q, places)| > 1 ==> Whole(q, places)[0] != '0'
    ensures Tail(q, places) != "" ==> Tail(q, places)[|Tail(q, places)| - 1] != '0'
  {
    hide Val, IsDigit, NatText, StripTrailing, PadStart;
    var n := Quotient(q, Pow10(places));
    NatTextVal(n);
    SingleDigit(n);
    StripTrailingPad(PadStart(NatText(q % Pow10(places)), places));
  }

  /** At most one text is the nearest, so `Nearest` says all there is to say. */
  lemma {:induction false} NearestIsOne(d: Decimal, a: Decimal, b: Decimal, places: nat, factor: nat)
    requires Nearest(d, a, places, factor) && Nearest(d, b, places, factor)
    ensures a == b
  {
    hide Val, IsDigit, Pow10;
    var p, q := a.Units() * Pow10(places - |a.fraction|), b.Units() * Pow10(places - |b.fraction|);
    RoundingIsUnique(p, q, d.Units() * (Pow10(places) * factor), Pow10(|d.fraction|));
    TrimmedIsNumber(a, places);
    TrimmedIsNumber(b, places);
    ZeroTimes(a.Units(), Pow10(places - |a.fraction|));
    ZeroTimes(b.Units(), Pow10(places - |b.fraction|));
  }

  lemma {:induction false} TrimmedIsNumber(a: Decimal, places: nat)
    requires Trimmed(a) && |a.fraction| <= places
    ensures var q := a.Units() * Pow10(places - |a.fraction|);
            a.integer == Whole(q, places) && a.fraction == Tail(q, places)
  {
    hide Val, IsDigit, Pow10, StripTrailing, Tail, NatText;
    var padded := PadEnd(a.fraction, places);
    var q, combined := a.Units() * Pow10(places - |a.fraction|), a.integer + padded;
    PadEndVal(a.fraction, places);
    ValAppend(a.integer, a.fraction);
    ValAppend(a.integer, padded);
    PowAdd(|a.fraction|, places - |a.fraction|);
    Distribute(Val(a.integer), Pow10(|a.fraction|), Pow10(places - |a.fraction|), Val(a.fraction));
    PartsOf(q, places, combined);
    assert combined[..|combined| - places] == a.integer && combined[|combined| - places..] == padded;
    CanonicalIsNatText(a.integer);
    StripPadded(a.fraction, places);
    ShowIs(false, q, places);
  }

  lemma {:induction false} StripPadded(s: string, n: nat)
    requires |s| <= n && (s != "" ==> s[|s| - 1] != '0')
    ensures StripTrailing(PadEnd(s, n)) == s
    decreases n
  {
    if |s| < n {
      StripPadded(s, n - 1);
      PadOneMore(s, n);
      var t, r := PadEnd(s, n), PadEnd(s, n - 1);
      hide PadEnd;
      assert t[|t| - 1] == '0' && t[..|t| - 1] == r;
    }
  }

  lemma {:induction false} PadOneMore(s: string, n: nat)
    requires |s| < n
    ensures PadEnd(s, n) == PadEnd(s, n - 1) + ['0']
  {
    hide StripTrailing;
    assert Zeros(n - |s|) == Zeros(n - 1 - |s|) + ['0'];
    assert s + Zeros(0) == s;
  }

  /** The dashboard: at most six places, a comma before each three digits, a percentage a hundredfold. */
  lemma {:induction false} DashboardShowsNearest(raw: string, percent: bool, precision: int) returns (shown: Decimal)
    requires Parse(raw).Some?
    ensures Nearest(Parse(raw).value, shown, if precision < 0 then 0 else if precision < 6 then precision else 6,
                    if percent then 100 else 1)
    ensures DashboardText(raw, percent, precision)
         == Some((if shown.negative then "-" else "") + Group(shown.integer)
                 + (if shown.fraction == "" then "" else "." + shown.fraction) + (if percent then "%" else ""))
  {
    hide Parse, Target, Whole, Tail, Group, Nearest;
    ParseIsExact(raw);
    var d, places := Parse(raw).value, Clamp(precision);
    shown := Number(Target(d, places, percent), places, d.negative);
    NumberIsNearest(d, places, percent);
  }

  /** The telemetry percentage: a hundredfold, at most two places, no commas. */
  lemma {:induction false} TelemetryShowsNearest(raw: string) returns (shown: Decimal)
    requires Parse(raw).Some?
    ensures Nearest(Parse(raw).value, shown, 2, 100)
    ensures TelemetryPercentText(raw)
         == (if shown.negative then "-" else "") + shown.integer
            + (if shown.fraction == "" then "" else "." + shown.fraction) + "%"
  {
    hide Parse, Target, Whole, Tail, Nearest;
    ParseIsExact(raw);
    var d := Parse(raw).value;
    shown := Number(Target(d, 2, true), 2, d.negative);
    NumberIsNearest(d, 2, true);
  }

  /** Text that is not a decimal: the dashboard shows something else, telemetry the text as it is. */
  lemma {:induction false} OtherTextIsPassedOn(raw: string, percent: bool, precision: int)
    requires forall d: Decimal :: d.Valid() ==>
               raw != (if d.negative then "-" else "") + d.integer + (if d.fraction == "" then "" else "." + d.fraction)
    ensures DashboardText(raw, percent, precision) == None && TelemetryPercentText(raw) == raw + "%"
  {
    hide Parse;
    ParseIsExact(raw);
    assert forall d: Decimal :: d.Valid() ==> raw != d.Text();
    assert Parse(raw) != None ==> exists d: Decimal :: d.Valid() && d.Text() == raw;
  }
}
