/**
 * From a wall-clock reading to the instant it names (ui/lib/telemetryBuilder.ts:171-191).
 *
 * Times are whole seconds. A zone is its offset function: at instant `i` the clock on the wall
 * reads `i + off(i)`. Calendar parsing and the formatter behind `wallAt` are not modelled.
 */
module WallClock {

  const DAY := 86400

  datatype Verdict = Resolved(instant: int) | DoesNotExist | OccursTwice

  function WallAt(off: int -> int, instant: int): int { instant + off(instant) }

  /** At this instant the wall clock of the zone reads `desired`. */
  predicate Shows(off: int -> int, desired: int, instant: int) { WallAt(off, instant) == desired }

  function Approach(off: int -> int, desired: int, rounds: nat): int {
    if rounds == 0 then desired
    else
      var instant := Approach(off, desired, rounds - 1);
      instant + (desired - WallAt(off, instant))
  }

  function SampleTimes(instant: int): set<int> {
    {instant - 2 * DAY, instant - DAY, instant, instant + DAY, instant + 2 * DAY}
  }

  function OffsetsNear(off: int -> int, instant: int): set<int> {
    set sample | sample in SampleTimes(instant) :: WallAt(off, sample) - sample
  }

  function Matching(off: int -> int, desired: int, instant: int): set<int> {
    set offset | offset in OffsetsNear(off, instant) && Shows(off, desired, desired - offset) :: desired - offset
  }

  function Solve(off: int -> int, desired: int): Verdict {
    var instant := Approach(off, desired, 4);
    if !Shows(off, desired, instant) then DoesNotExist
    else if |Matching(off, desired, instant)| > 1 then OccursTwice
    else Resolved(instant)
  }

  method TelemetryUtcBoundary(off: int -> int, desired: int) returns (verdict: Verdict)
    ensures verdict == Solve(off, desired)
  {
    var instant := desired;
    for count := 0 to 4
      invariant instant == Approach(off, desired, count)
    {
      instant := instant + (desired - WallAt(off, instant));
    }
    if WallAt(off, instant) != desired {
      return DoesNotExist;
    }
    var offsets := OffsetsNear(off, instant);
    var matchingInstants :=
      set offset | offset in offsets && WallAt(off, desired - offset) == desired :: desired - offset;
    assert matchingInstants == Matching(off, desired, instant);
    if |matchingInstants| > 1 {
      return OccursTwice;
    }
    return Resolved(instant);
  }

  // ---------------------------------------------------------------- every zone

  lemma {:induction false} Member(s: set<int>) returns (x: int)
    requires |s| > 0
    ensures x in s
  {
    assert (forall i :: i !in s) ==> s == {};
    x :| x in s;
  }

  lemma {:induction false} TwoMembers(s: set<int>) returns (x: int, y: int)
    requires |s| > 1
    ensures x in s && y in s && x != y
  {
    x := Member(s);
    y := Member(s - {x});
  }

  lemma {:induction false} SizeOfTwo(s: set<int>, x: int, y: int)
    requires x in s && y in s && x != y
    ensures |s| > 1
  {
    assert {x, y} <= s;
    assert s == {x, y} + (s - {x, y});
  }

  /** Whatever the zone does, the two positive answers are right. */
  lemma {:induction false} AnswersAreSound(off: int -> int, desired: int)
    ensures Solve(off, desired).Resolved? ==> Shows(off, desired, Solve(off, desired).instant)
    ensures Solve(off, desired).OccursTwice? ==>
              exists i, j :: i != j && Shows(off, desired, i) && Shows(off, desired, j)
  {
    if Solve(off, desired).OccursTwice? {
      var x, y := TwoMembers(Matching(off, desired, Approach(off, desired, 4)));
    }
  }

  lemma {:induction false} SampledOffset(off: int -> int, instant: int, sample: int)
    requires sample in SampleTimes(instant)
    ensures off(sample) in OffsetsNear(off, instant)
  {
    assert WallAt(off, sample) - sample == off(sample);
  }

  /** The samples are two days and one day before, the instant, and one day and two days after. */
  lemma {:induction false} FiveSamples(off: int -> int, instant: int, offset: int)
    ensures offset in OffsetsNear(off, instant)
            <==> exists days :: -2 <= days <= 2 && off(instant + days * 86400) == offset
  {
    forall days: int | -2 <= days <= 2 ensures off(instant + days * 86400) in OffsetsNear(off, instant) {
      SampledOffset(off, instant, instant + days * 86400);
    }
    if offset in OffsetsNear(off, instant) {
      var sample :| sample in SampleTimes(instant) && offset == WallAt(off, sample) - sample;
      var days := if sample == instant - 2 * DAY then -2 else if sample == instant - DAY then -1
                  else if sample == instant then 0 else if sample == instant + DAY then 1 else 2;
      assert off(instant + days * 86400) == offset;
    }
  }

  /** Another instant that shows the reading, under an offset that is in force at one of the samples. */
  predicate SeenBeside(off: int -> int, desired: int, instant: int, other: int) {
    other != instant && Shows(off, desired, other) && off(other) in OffsetsNear(off, instant)
  }

  lemma {:induction false} MatchingIsSeen(off: int -> int, desired: int, instant: int, other: int)
    ensures other in Matching(off, desired, instant)
        <==> Shows(off, desired, other) && off(other) in OffsetsNear(off, instant)
  {
    if Shows(off, desired, other) && off(other) in OffsetsNear(off, instant) {
      assert desired - off(other) == other;
    }
  }

  /** In any zone, a reading that the iteration finds is called ambiguous iff the samples see another instant. */
  lemma {:induction false} RepeatIsSeenIff(off: int -> int, desired: int)
    requires Shows(off, desired, Approach(off, desired, 4))
    ensures Solve(off, desired).OccursTwice? <==> exists j :: SeenBeside(off, desired, Approach(off, desired, 4), j)
  {
    hide Approach, Matching;
    var instant := Approach(off, desired, 4);
    SampledOffset(off, instant, instant);
    MatchingIsSeen(off, desired, instant, instant);
    if |Matching(off, desired, instant)| > 1 {
      var x, y := TwoMembers(Matching(off, desired, instant));
      MatchingIsSeen(off, desired, instant, x);
      MatchingIsSeen(off, desired, instant, y);
      assert SeenBeside(off, desired, instant, if x == instant then y else x);
    } else if j :| SeenBeside(off, desired, instant, j) {
      MatchingIsSeen(off, desired, instant, j);
      SizeOfTwo(Matching(off, desired, instant), instant, j);
      assert false;
    }
  }

  /** In any zone, a repeat is missed iff no other instant of the reading has an offset of a sample. */
  lemma {:induction false} RepeatIsMissedIff(off: int -> int, desired: int)
    ensures var instant := Approach(off, desired, 4);
            Solve(off, desired).Resolved? && (exists j :: j != instant && Shows(off, desired, j))
            <==> Shows(off, desired, instant) && (exists j :: j != instant && Shows(off, desired, j))
                 && (forall j :: j != instant && Shows(off, desired, j) ==> off(j) !in OffsetsNear(off, instant))
  {
    hide Approach, Matching;
    var instant := Approach(off, desired, 4);
    if Shows(off, desired, instant) {
      RepeatIsSeenIff(off, desired);
      if Solve(off, desired).Resolved? {
        forall j | j != instant && Shows(off, desired, j) ensures off(j) !in OffsetsNear(off, instant) {
          assert !SeenBeside(off, desired, instant, j);
        }
      }
    }
  }

  /** An approximation that shows the reading is kept by every later round. */
  lemma {:induction false} ApproachStays(off: int -> int, desired: int, k: nat, n: nat)
    requires k <= n && Shows(off, desired, Approach(off, desired, k))
    ensures Approach(off, desired, n) == Approach(off, desired, k)
    decreases n
  {
    if k == n {
    } else {
      ApproachStays(off, desired, k, n - 1);
    }
  }

  /**
   * In any zone, a reading is rejected iff neither it nor any of the four approximations shows it:
   * each round lands under an offset other than the one it used.
   */
  lemma {:induction false} RejectedIff(off: int -> int, desired: int)
    ensures Solve(off, desired).DoesNotExist?
            <==> forall k: nat :: k <= 4 ==> !Shows(off, desired, Approach(off, desired, k))
    ensures Solve(off, desired).DoesNotExist? <==> off(Approach(off, desired, 4)) != off(Approach(off, desired, 3))
  {
    if k: nat :| k <= 4 && Shows(off, desired, Approach(off, desired, k)) {
      ApproachStays(off, desired, k, 4);
    }
    assert Approach(off, desired, 4) == desired - off(Approach(off, desired, 3));
  }

  // ---------------------------------------------------------------- one offset change nearby

  /**
   * Offsets stay within a day, as those of every zone do. Of the instants within a day of `desired`,
   * those before `change` have offset `before` and the others `after`; if the change is among them,
   * both offsets last for two days.
   */
  ghost predicate OneChange(off: int -> int, desired: int, change: int, before: int, after: int) {
    && (forall i :: -DAY <= off(i) <= DAY)
    && (forall i :: desired - DAY <= i <= desired + DAY ==> off(i) == if i < change then before else after)
    && (desired - DAY < change <= desired + DAY ==>
         forall i :: change - 2 * DAY <= i < change + 2 * DAY ==> off(i) == if i < change then before else after)
  }

  /** Clocks went forward over this reading. */
  predicate Skipped(desired: int, change: int, before: int, after: int) {
    change + before <= desired < change + after
  }

  /** Clocks went back over this reading. */
  predicate Repeated(desired: int, change: int, before: int, after: int) {
    change + after <= desired < change + before
  }

  lemma {:induction false} OffsetsBounded(off: int -> int, desired: int, change: int, before: int, after: int)
    requires OneChange(off, desired, change, before, after)
    ensures off(desired) == before || off(desired) == after
    ensures -DAY <= off(desired) <= DAY
    ensures desired - DAY < change <= desired + DAY ==> -DAY <= before <= DAY && -DAY <= after <= DAY
  {
    assert -DAY <= off(desired - DAY) <= DAY && -DAY <= off(desired + DAY) <= DAY;
  }

  /** The instants that show `desired` are among the two candidates. */
  lemma {:induction false} Preimages(off: int -> int, desired: int, change: int, before: int, after: int, i: int)
    requires OneChange(off, desired, change, before, after)
    ensures Shows(off, desired, i) <==>
              || (i == desired - before && i < change && -DAY <= before <= DAY)
              || (i == desired - after && i >= change && -DAY <= after <= DAY)
  {
    assert -DAY <= off(i) <= DAY;
  }

  /** The fixed-point iteration settles after two rounds unless the reading was skipped. */
  lemma {:induction false} Settles(off: int -> int, desired: int, change: int, before: int, after: int)
    requires OneChange(off, desired, change, before, after)
    requires -DAY <= before <= DAY && -DAY <= after <= DAY
    ensures Approach(off, desired, 4) in {desired - before, desired - after}
    ensures !Skipped(desired, change, before, after) ==> Shows(off, desired, Approach(off, desired, 4))
  {
    OffsetsBounded(off, desired, change, before, after);
    var x1, x2, x3 := Approach(off, desired, 1), Approach(off, desired, 2), Approach(off, desired, 3);
    assert Approach(off, desired, 0) == desired;
    assert x1 == desired - off(desired);
    assert x2 == desired - off(x1);
    assert x3 == desired - off(x2);
    assert Approach(off, desired, 4) == desired - off(x3);
  }

  /** Five samples, a day apart, reach the other side of a change that repeats the reading. */
  lemma {:induction false} SamplesReachAcross(off: int -> int, desired: int, change: int, before: int, after: int,
                                              instant: int)
    requires OneChange(off, desired, change, before, after)
    requires -DAY <= before <= DAY && -DAY <= after <= DAY
    requires Repeated(desired, change, before, after)
    requires instant == desired - before || instant == desired - after
    ensures exists j :: SeenBeside(off, desired, instant, j)
  {
    Preimages(off, desired, change, before, after, desired - before);
    Preimages(off, desired, change, before, after, desired - after);
    if instant == desired - before {
      SampledOffset(off, instant, instant + 2 * DAY);
      assert SeenBeside(off, desired, instant, desired - after);
    } else {
      SampledOffset(off, instant, instant - 2 * DAY);
      assert SeenBeside(off, desired, instant, desired - before);
    }
  }

  /** The answer, read off the transition. */
  lemma {:induction false} VerdictAtTransition(off: int -> int, desired: int, change: int, before: int, after: int)
    requires OneChange(off, desired, change, before, after)
    requires -DAY <= before <= DAY && -DAY <= after <= DAY
    ensures Solve(off, desired) ==
              if Skipped(desired, change, before, after) then DoesNotExist
              else if Repeated(desired, change, before, after) then OccursTwice
              else Resolved(if desired < change + before then desired - before else desired - after)
  {
    hide Approach, Matching;
    var instant := Approach(off, desired, 4);
    Settles(off, desired, change, before, after);
    Preimages(off, desired, change, before, after, desired - before);
    Preimages(off, desired, change, before, after, desired - after);
    if Shows(off, desired, instant) {
      RepeatIsSeenIff(off, desired);
      if Repeated(desired, change, before, after) {
        SamplesReachAcross(off, desired, change, before, after, instant);
      } else if j :| SeenBeside(off, desired, instant, j) {
        Preimages(off, desired, change, before, after, instant);
        Preimages(off, desired, change, before, after, j);
        assert false;
      }
    }
  }

  /**
   * With at most one offset change nearby the solver is exact: it rejects the reading as missing
   * when no instant shows it, as ambiguous when two do, and otherwise returns the only one.
   */
  lemma {:induction false} SolverIsExact(off: int -> int, desired: int, change: int, before: int, after: int)
    requires OneChange(off, desired, change, before, after)
    ensures Solve(off, desired).DoesNotExist? <==> forall i :: !Shows(off, desired, i)
    ensures Solve(off, desired).OccursTwice?
            <==> exists i, j :: i < j && Shows(off, desired, i) && Shows(off, desired, j)
    ensures Solve(off, desired).Resolved? ==>
              forall i :: Shows(off, desired, i) <==> i == Solve(off, desired).instant
    ensures forall i, j, k :: Shows(off, desired, i) && Shows(off, desired, j) && Shows(off, desired, k)
              ==> i == j || j == k || i == k
  {
    // A change outside the window is no change: both offsets are the one in force throughout.
    var b := if change <= desired - DAY then after else before;
    var a := if change > desired + DAY then before else after;
    assert OneChange(off, desired, change, b, a) && -DAY <= a <= DAY && -DAY <= b <= DAY by {
      OffsetsBounded(off, desired, change, before, after);
      assert off(desired - DAY) == b && off(desired + DAY) == a;
    }
    VerdictAtTransition(off, desired, change, b, a);
    forall i
      ensures Shows(off, desired, i) <==> (i == desired - b && i < change) || (i == desired - a && i >= change)
    {
      Preimages(off, desired, change, b, a, i);
    }
    assert Shows(off, desired, desired - b) <==> desired - b < change || (a == b && desired - b >= change);
    assert Shows(off, desired, desired - a) <==> desired - a >= change || (a == b && desired - a < change);
  }

  // ---------------------------------------------------------------- every zone whose offsets last

  /** The clock is set at this instant. */
  predicate Changes(off: int -> int, at: int) { off(at) != off(at - 1) }

  /** Two changes are at least two days apart. */
  ghost predicate LastsTwoDays(off: int -> int) {
    forall c, d :: c < d && Changes(off, c) && Changes(off, d) ==> d - c >= 2 * DAY
  }

  lemma {:induction false} SteadyBetween(off: int -> int, first: int, last: int)
    requires first <= last && forall c :: first < c <= last ==> !Changes(off, c)
    ensures forall i :: first <= i <= last ==> off(i) == off(first)
    decreases last - first
  {
    if first == last {
    } else {
      SteadyBetween(off, first, last - 1);
      assert !Changes(off, last);
    }
  }

  /** Such a zone has at most one change that matters to a reading. */
  lemma {:induction false} ChangeNearby(off: int -> int, desired: int) returns (change: int, before: int, after: int)
    requires LastsTwoDays(off) && forall i :: -DAY <= off(i) <= DAY
    ensures OneChange(off, desired, change, before, after)
  {
    if c :| desired - DAY < c <= desired + DAY && Changes(off, c) {
      change, before, after := c, off(c - 1), off(c);
      forall d | c - 2 * DAY < d < c + 2 * DAY && d != c ensures !Changes(off, d) {
      }
      SteadyBetween(off, c - 2 * DAY, c - 1);
      SteadyBetween(off, c, c + 2 * DAY - 1);
    } else {
      change, before, after := desired + DAY + 1, off(desired), off(desired);
      SteadyBetween(off, desired - DAY, desired + DAY);
    }
  }

  ghost predicate OnlyTwoShow(off: int -> int, desired: int, i: int, j: int) {
    forall k :: Shows(off, desired, k) <==> k == i || k == j
  }

  /** In a zone whose offsets stay within a day and last two days, the solver is exact for every reading. */
  lemma {:induction false} ZonesAreSolved(off: int -> int, desired: int)
    requires LastsTwoDays(off) && forall i :: -DAY <= off(i) <= DAY
    ensures match Solve(off, desired)
            case DoesNotExist => forall i :: !Shows(off, desired, i)
            case OccursTwice => exists i, j :: i < j && OnlyTwoShow(off, desired, i, j)
            case Resolved(instant) => forall i :: Shows(off, desired, i) <==> i == instant
  {
    var change, before, after := ChangeNearby(off, desired);
    SolverIsExact(off, desired, change, before, after);
    if Solve(off, desired).OccursTwice? {
      var i, j :| i < j && Shows(off, desired, i) && Shows(off, desired, j);
      assert OnlyTwoShow(off, desired, i, j);
    }
  }

  // ---------------------------------------------------------------- offsets that do not last

  /** An artificial zone that falls back for a thousand seconds. */
  function BriefFallBack(i: int): int { if 18000 <= i < 19000 then -18000 else 0 }

  /** A repeat that fits between two samples is missed. */
  lemma {:induction false} TwoChangesCanHideARepeat()
    ensures Solve(BriefFallBack, 0) == Resolved(0)
    ensures Shows(BriefFallBack, 0, 0) && Shows(BriefFallBack, 0, 18000)
  {
    var off := BriefFallBack;
    assert Approach(off, 0, 0) == 0;
    ApproachStays(off, 0, 0, 4);
    RepeatIsMissedIff(off, 0);
    assert Shows(off, 0, 18000);
    forall offset | offset in OffsetsNear(off, 0) ensures offset == 0 {
      var sample :| sample in SampleTimes(0) && offset == WallAt(off, sample) - sample;
    }
    assert forall j :: j != 0 && Shows(off, 0, j) ==> off(j) != 0;
  }

  /** An artificial zone that goes forward by a hundred seconds, after twenty seconds of half of that. */
  function UnsteadyForward(i: int): int { if 40 <= i < 60 then -50 else if i < 100 then -100 else 0 }

  /** Where the rounds swing between two offsets, a reading under a third is rejected as missing. */
  lemma {:induction false} ThreeChangesCanHideAReading()
    ensures Solve(UnsteadyForward, 0) == DoesNotExist && Shows(UnsteadyForward, 0, 50)
  {
    var off := UnsteadyForward;
    assert Approach(off, 0, 0) == 0;
    assert Approach(off, 0, 1) == 100;
    assert Approach(off, 0, 2) == 0;
    assert Approach(off, 0, 3) == 100;
    RejectedIff(off, 0);
  }
}
