/**
 * Exactly which rows a transcript gets, read off the messages: what a gap between two messages holds in
 * the end, and how the gaps are shown (ui/lib/chatMessages.ts:275-370).
 */
module TranscriptExact {
  import opened Wrappers
  import opened Sequences
  import opened ChatMessages
  import opened ChatTextTheorems
  import opened Transcript
  import opened TranscriptTheorems

  // ---------------------------------------------------------------- the gaps between the messages

  /** Messages and gaps in turn: gap 0, message 0, gap 1, … */
  function Joined(ordinary: seq<Message>, gaps: seq<seq<Message>>): seq<Message>
    requires |gaps| == |ordinary| + 1
  {
    if ordinary == [] then gaps[0]
    else
      var n := |ordinary| - 1;
      Joined(ordinary[..n], gaps[..n + 1]) + [ordinary[n]] + gaps[n + 1]
  }

  /** A tool call, a tool result or a run-end marker. */
  predicate IsEvent(m: Message) { KindOf(m) in {ToolCall, ToolResult, TurnEnd} }

  lemma {:induction false} JoinedGrows(ordinary: seq<Message>, gaps: seq<seq<Message>>, m: Message)
    requires |gaps| == |ordinary| + 1
    ensures var g := |ordinary|; Joined(ordinary, gaps[g := gaps[g] + [m]]) == Joined(ordinary, gaps) + [m]
    ensures Joined(ordinary + [m], gaps + [[]]) == Joined(ordinary, gaps) + [m]
  {
    var g := |ordinary|;
    if g > 0 { assert gaps[g := gaps[g] + [m]][..g] == gaps[..g]; }
    assert (ordinary + [m])[..g] == ordinary && (gaps + [[]])[..g + 1] == gaps;
    assert Joined(ordinary, gaps) + [m] + [] == Joined(ordinary, gaps) + [m];
  }

  lemma {:induction false} SplitJoins(messages: seq<Message>)
    ensures Joined(Split(messages).ordinary, Split(messages).gaps) == messages
  {
    hide Joined, IsGroupable;
    if messages == [] {
      JoinedNothing();
    } else {
      var n := |messages| - 1;
      var t := Split(messages[..n]);
      SplitJoins(messages[..n]);
      JoinedGrows(t.ordinary, t.gaps, messages[n]);
      assert messages == messages[..n] + [messages[n]];
    }
  }

  lemma {:induction false} JoinedNothing()
    ensures Joined([], [[]]) == []
  {
  }

  lemma {:induction false} EventsAreGroupable(m: Message)
    ensures IsEvent(m) <==> IsGroupable(m)
  {
  }

  lemma {:induction false} SplitKinds(messages: seq<Message>)
    ensures forall m :: m in Split(messages).ordinary ==> !IsEvent(m)
    ensures forall g, m :: 0 <= g < |Split(messages).gaps| && m in Split(messages).gaps[g] ==> IsEvent(m)
  {
    hide IsEvent, IsGroupable;
    if messages == [] {
    } else {
      SplitKinds(messages[..|messages| - 1]);
      EventsAreGroupable(messages[|messages| - 1]);
    }
  }

  /** The transcript is its messages and its gaps in turn, and the gaps hold exactly the events. */
  lemma {:induction false} SplitIsTranscript(messages: seq<Message>)
    ensures var t := Split(messages);
            && Joined(t.ordinary, t.gaps) == messages
            && (forall m :: m in t.ordinary ==> !IsEvent(m))
            && (forall g, m :: 0 <= g < |t.gaps| && m in t.gaps[g] ==> IsEvent(m))
  {
    hide Joined, Split, IsEvent;
    SplitJoins(messages);
    SplitKinds(messages);
  }

  // ---------------------------------------------------------------- where run-end markers stop

  /** A gap that holds run-end markers and nothing else. */
  predicate MarkersOnly(events: seq<Message>) { events != [] && forall e :: e in events ==> KindOf(e) == TurnEnd }

  /** The gaps from `k` to `g`, as far as they hold markers only. */
  function MarkersFrom(gaps: seq<seq<Message>>, k: nat, g: nat): seq<Message>
    requires g < |gaps|
    decreases g + 1 - k
  {
    if k <= g && MarkersOnly(gaps[k]) then gaps[k] + MarkersFrom(gaps, k + 1, g) else []
  }

  /** Markers behind a message go ahead of it, together with the markers that stop in their gap, and no further. */
  function FinalGap(gaps: seq<seq<Message>>, i: nat, g: nat): seq<Message>
    requires i <= g < |gaps|
  {
    if i >= 1 && MarkersOnly(gaps[i]) then [] else gaps[i] + MarkersFrom(gaps, i + 1, g)
  }

  lemma {:induction false} MarkersEndBefore(gaps: seq<seq<Message>>, k: nat, g: nat)
    requires 0 < g < |gaps| && k <= g && !MarkersOnly(gaps[g])
    ensures MarkersFrom(gaps, k, g) == MarkersFrom(gaps, k, g - 1)
    decreases g - k
  {
    if k == g {
    } else {
      MarkersEndBefore(gaps, k + 1, g);
    }
  }

  lemma {:induction false} MarkersSame(gaps: seq<seq<Message>>, gaps': seq<seq<Message>>, k: nat, g: nat)
    requires g < |gaps| == |gaps'| && forall i :: k <= i <= g ==> gaps[i] == gaps'[i]
    ensures MarkersFrom(gaps, k, g) == MarkersFrom(gaps', k, g)
    decreases g + 1 - k
  {
    if k > g {
    } else {
      MarkersSame(gaps, gaps', k + 1, g);
    }
  }

  /** Moving the last gap of a stretch into the one before it leaves the stretch as a whole. */
  lemma {:induction false} MarkersShift(gaps: seq<seq<Message>>, k: nat, g: nat)
    requires 0 < g < |gaps| && k < g && MarkersOnly(gaps[g]) && gaps[g - 1] != []
    ensures MarkersFrom(Shift(gaps, g), k, g - 1) == MarkersFrom(gaps, k, g)
    decreases g - k
  {
    var last, moved := gaps[g - 1], gaps[g - 1] + gaps[g];
    assert MarkersOnly(moved) <==> MarkersOnly(last) by {
      assert forall e :: e in moved <==> e in last || e in gaps[g];
    }
    if k == g - 1 {
      assert MarkersFrom(gaps, g, g) == gaps[g] + MarkersFrom(gaps, g + 1, g);
      assert MarkersFrom(Shift(gaps, g), g, g - 1) == [];
      assert gaps[g] + [] == gaps[g] && moved + [] == moved;
    } else {
      MarkersShift(gaps, k + 1, g);
    }
  }

  lemma {:induction false} MarkersAre(events: seq<Message>)
    ensures MarkersOnly(events) <==> events != [] && OnlyTurnEnds(events)
  {
  }

  lemma {:induction false} SettleIsFinal(gaps: seq<seq<Message>>, g: nat, i: nat)
    requires i <= g < |gaps|
    ensures Settle(gaps, g, false)[i] == FinalGap(gaps, i, g)
    decreases g
  {
    if g == 0 {
      assert gaps[0] + [] == gaps[0];
    } else {
      MarkersAre(gaps[g]);
      if !MarkersOnly(gaps[g]) {
        SettleLeavesAbove(gaps, g - 1, false);
        if i < g {
          SettleIsFinal(gaps, g - 1, i);
          MarkersEndBefore(gaps, i + 1, g);
        } else {
          assert gaps[g] + [] == gaps[g];
        }
      } else if gaps[g - 1] == [] {
        SettledInEmpty(gaps, g, i);
      } else {
        SettledInGroup(gaps, g, i);
      }
    }
  }

  lemma {:induction false} SettledInEmpty(gaps: seq<seq<Message>>, g: nat, i: nat)
    requires 0 < g < |gaps| && i <= g && MarkersOnly(gaps[g]) && gaps[g - 1] == []
    ensures Settle(gaps, g, false)[i] == FinalGap(gaps, i, g)
    decreases g, 0
  {
    MarkersAre(gaps[g]);
    var moved := Shift(gaps, g);
    assert Settle(gaps, g, false) == Settle(moved, g - 1, true);
    SettleLeavesAbove(moved, g - 1, true);
    assert MarkersFrom(gaps, g, g) == gaps[g] + MarkersFrom(gaps, g + 1, g);
    assert [] + gaps[g] == gaps[g] && gaps[g] + [] == gaps[g];
    if g - 1 > 0 {
      SettleLeavesAbove(moved, g - 2, false);
      if i < g - 1 {
        SettleIsFinal(moved, g - 2, i);
        MarkersSame(moved, gaps, i + 1, g - 2);
        MarkersStopAt(gaps, i + 1, g - 1, g);
      }
    }
  }

  /** A stretch does not reach past a gap that holds no markers only. */
  lemma {:induction false} MarkersStopAt(gaps: seq<seq<Message>>, k: nat, stop: nat, g: nat)
    requires 0 < stop <= g < |gaps| && k <= stop && !MarkersOnly(gaps[stop])
    ensures MarkersFrom(gaps, k, g) == MarkersFrom(gaps, k, stop - 1)
    decreases stop - k
  {
    if k == stop {
    } else {
      MarkersStopAt(gaps, k + 1, stop, g);
    }
  }

  lemma {:induction false} SettledInGroup(gaps: seq<seq<Message>>, g: nat, i: nat)
    requires 0 < g < |gaps| && i <= g && MarkersOnly(gaps[g]) && gaps[g - 1] != []
    ensures Settle(gaps, g, false)[i] == FinalGap(gaps, i, g)
    decreases g, 0
  {
    MarkersAre(gaps[g]);
    var moved := Shift(gaps, g);
    assert Settle(gaps, g, false) == Settle(moved, g - 1, false);
    SettleLeavesAbove(moved, g - 1, false);
    if i < g {
      SettleIsFinal(moved, g - 1, i);
      assert MarkersOnly(moved[g - 1]) <==> MarkersOnly(gaps[g - 1]) by {
        assert forall e :: e in moved[g - 1] <==> e in gaps[g - 1] || e in gaps[g];
      }
      if i < g - 1 {
        MarkersShift(gaps, i + 1, g);
      } else {
        assert MarkersFrom(gaps, g, g) == gaps[g] + MarkersFrom(gaps, g + 1, g);
        assert gaps[g] + [] == gaps[g] && moved[g - 1] + [] == moved[g - 1];
      }
    }
  }

  /** What every gap holds in the end, read off the transcript. */
  lemma {:induction false} GapsAreFinal(messages: seq<Message>, i: nat)
    requires i <= |Split(messages).ordinary|
    ensures Settled(messages).ordinary == Split(messages).ordinary
    ensures Settled(messages).gaps[i] == FinalGap(Split(messages).gaps, i, |Split(messages).ordinary|)
  {
    SettleIsFinal(Split(messages).gaps, |Split(messages).ordinary|, i);
  }

  lemma {:induction false} StretchIsFlat(gaps: seq<seq<Message>>, j: nat, k: nat, g: nat)
    requires j <= k <= g < |gaps| && (forall l :: j <= l <= k ==> MarkersOnly(gaps[l]))
    requires k < g ==> !MarkersOnly(gaps[k + 1])
    ensures MarkersFrom(gaps, j, g) == Flat(gaps[j..k + 1])
    decreases k - j
  {
    assert gaps[j..k + 1] == [gaps[j]] + gaps[j + 1..k + 1];
    FlatAppend([gaps[j]], gaps[j + 1..k + 1]);
    assert Flat([gaps[j]]) == gaps[j] by { assert [gaps[j]][..0] == []; }
    if j == k {
      assert gaps[j + 1..k + 1] == [];
    } else {
      StretchIsFlat(gaps, j + 1, k, g);
    }
  }

  /**
   * A stretch of gaps `j` to `k` that hold run-end markers only stops in the gap before it, behind what is
   * there, in its order; its own gaps are empty afterwards.
   */
  lemma {:induction false} RunEndStopsAheadOfItsReply(messages: seq<Message>, j: nat, k: nat)
    requires 1 <= j <= k <= |Split(messages).ordinary|
    requires forall l :: j <= l <= k ==> MarkersOnly(Split(messages).gaps[l])
    requires k < |Split(messages).ordinary| ==> !MarkersOnly(Split(messages).gaps[k + 1])
    requires j == 1 || !MarkersOnly(Split(messages).gaps[j - 1])
    ensures var was, now := Split(messages).gaps, Settled(messages).gaps;
            && now[j - 1] == was[j - 1] + Flat(was[j..k + 1])
            && forall l :: j <= l <= k ==> now[l] == []
  {
    var gaps, n := Split(messages).gaps, |Split(messages).ordinary|;
    GapsAreFinal(messages, j - 1);
    StretchIsFlat(gaps, j, k, n);
    forall l | j <= l <= k ensures Settled(messages).gaps[l] == [] {
      GapsAreFinal(messages, l);
    }
  }

  /** Any other gap that no stretch follows holds what it held. */
  lemma {:induction false} OtherGapsStay(messages: seq<Message>, i: nat)
    requires i <= |Split(messages).ordinary| && (i == 0 || !MarkersOnly(Split(messages).gaps[i]))
    requires i < |Split(messages).ordinary| ==> !MarkersOnly(Split(messages).gaps[i + 1])
    ensures Settled(messages).gaps[i] == Split(messages).gaps[i]
  {
    var gaps := Split(messages).gaps;
    GapsAreFinal(messages, i);
    assert gaps[i] + [] == gaps[i];
  }

  // ---------------------------------------------------------------- how the gaps are shown

  /** The messages and events that rows show, one after another. */
  function Shown(views: seq<View>): seq<Message> {
    if views == [] then []
    else
      var n := |views| - 1;
      Shown(views[..n]) + match views[n] case MessageView(_, m) => [m] case ToolsView(_, events) => events
  }

  /** A row is named after its message, or after the first of its events, of which it has some. */
  predicate Named(v: View) {
    match v
    case MessageView(key, m) => key == m.id && !IsEvent(m)
    case ToolsView(key, events) => events != [] && key == "tools-" + events[0].id
  }

  lemma {:induction false} ShownSlot(views: seq<View>, events: seq<Message>)
    ensures Shown(views + Slot(events)) == Shown(views) + events
  {
    if events == [] {
      assert views + Slot(events) == views;
    } else {
      assert (views + Slot(events))[..|views|] == views;
    }
  }

  lemma {:induction false} ShownPrefix(t: Gapped, g: nat)
    requires t.Valid() && g <= |t.ordinary|
    ensures Shown(Prefix(t, g) + Slot(t.gaps[g])) == Joined(t.ordinary[..g], t.gaps[..g + 1])
  {
    hide Slot, Shown;
    ShownSlot(Prefix(t, g), t.gaps[g]);
    if g == 0 {
      assert Shown([]) == [] by { NothingShown(); }
      assert t.ordinary[..0] == [] && [] + t.gaps[0] == t.gaps[0];
    } else {
      ShownPrefix(t, g - 1);
      var before, m := Prefix(t, g - 1) + Slot(t.gaps[g - 1]), t.ordinary[g - 1];
      assert Prefix(t, g) == before + [MessageViewOf(m)];
      ShownMessage(before, m);
      assert t.ordinary[..g][..g - 1] == t.ordinary[..g - 1] && t.gaps[..g + 1][..g] == t.gaps[..g];
    }
  }

  lemma {:induction false} NothingShown()
    ensures Shown([]) == []
  {
  }

  lemma {:induction false} ShownMessage(views: seq<View>, m: Message)
    ensures Shown(views + [MessageViewOf(m)]) == Shown(views) + [m]
  {
    assert (views + [MessageViewOf(m)])[..|views|] == views;
  }

  lemma {:induction false} NamedPrefix(t: Gapped, g: nat)
    requires t.Valid() && g <= |t.ordinary| && forall m :: m in t.ordinary ==> !IsEvent(m)
    ensures forall v :: v in Prefix(t, g) + Slot(t.gaps[g]) ==> Named(v)
  {
    hide IsEvent;
    if g == 0 {
    } else {
      NamedPrefix(t, g - 1);
    }
  }

  /**
   * The rows show the messages and the final gaps in turn, no two groups adjoin, and each row is named
   * after what it shows first: with the final gaps this says what every row is.
   */
  lemma {:induction false} RowsShowFinalGaps(messages: seq<Message>)
    ensures var rows, t := Render(Settled(messages)), Settled(messages);
            && Shown(rows) == Joined(t.ordinary, t.gaps)
            && (forall v :: v in rows ==> Named(v))
            && (forall i :: 0 <= i < |rows| - 1 ==> !(rows[i].ToolsView? && rows[i + 1].ToolsView?))
  {
    var t, n := Settled(messages), |Settled(messages).ordinary|;
    SplitIsTranscript(messages);
    hide Split, Settle, IsEvent, Slot, Prefix;
    assert t.ordinary == Split(messages).ordinary;
    ShownPrefix(t, n);
    NamedPrefix(t, n);
    assert t.ordinary[..n] == t.ordinary && t.gaps[..n + 1] == t.gaps;
    NoDanglingRunEnd(messages);
  }
}
