/** What grouping and settling keep: every row once, both orders, tools in place, no dangling run end. */
module TranscriptTheorems {
  import opened Sequences
  import opened ChatMessages
  import opened Transcript

  function Flat(gaps: seq<seq<Message>>): seq<Message> {
    if gaps == [] then [] else Flat(gaps[..|gaps| - 1]) + gaps[|gaps| - 1]
  }

  lemma {:induction false} FlatAppend(a: seq<seq<Message>>, b: seq<seq<Message>>)
    ensures Flat(a + b) == Flat(a) + Flat(b)
  {
    hide Flat;
    if b == [] {
      assert a + b == a;
      NothingFlat();
      assert Flat(a) + [] == Flat(a);
    } else {
      var n := |b| - 1;
      FlatAppend(a, b[..n]);
      FlatLast(b);
      FlatLast(a + b);
      assert (a + b)[..|a + b| - 1] == a + b[..n];
      assert (Flat(a) + Flat(b[..n])) + b[n] == Flat(a) + (Flat(b[..n]) + b[n]);
    }
  }

  lemma {:induction false} FlatLast(gaps: seq<seq<Message>>)
    requires gaps != []
    ensures Flat(gaps) == Flat(gaps[..|gaps| - 1]) + gaps[|gaps| - 1]
  {
  }

  lemma {:induction false} NothingFlat()
    ensures Flat([]) == []
  {
  }

  lemma {:induction false} FlatPair(x: seq<Message>, y: seq<Message>)
    ensures Flat([x, y]) == x + y
  {
    assert [x, y][..1] == [x] && [x][..0] == [];
    assert Flat([x]) == x;
  }

  function Shift(gaps: seq<seq<Message>>, g: nat): seq<seq<Message>>
    requires 0 < g < |gaps|
  {
    gaps[g - 1 := gaps[g - 1] + gaps[g]][g := []]
  }

  lemma {:induction false} ShiftKeepsFlat(gaps: seq<seq<Message>>, g: nat)
    requires 0 < g < |gaps|
    ensures Flat(Shift(gaps, g)) == Flat(gaps)
  {
    hide Flat;
    var x, y := gaps[g - 1], gaps[g];
    var front, back := gaps[..g - 1], gaps[g + 1..];
    assert gaps == front + [x, y] + back && Shift(gaps, g) == front + [x + y, []] + back;
    FlatAppend(front + [x, y], back);
    FlatAppend(front, [x, y]);
    FlatAppend(front + [x + y, []], back);
    FlatAppend(front, [x + y, []]);
    FlatPair(x, y);
    FlatPair(x + y, []);
    assert x + y + [] == x + y;
  }

  lemma {:induction false} SettleKeepsFlat(gaps: seq<seq<Message>>, g: nat, settled: bool)
    requires g < |gaps|
    ensures Flat(Settle(gaps, g, settled)) == Flat(gaps)
    decreases g
  {
    if g == 0 {
    } else {
      if gaps[g] == [] || settled || !OnlyTurnEnds(gaps[g]) {
        SettleKeepsFlat(gaps, g - 1, false);
      } else {
        ShiftKeepsFlat(gaps, g);
        SettleKeepsFlat(Shift(gaps, g), g - 1, gaps[g - 1] == []);
      }
    }
  }

  /** Gaps above the scan are done with. */
  lemma {:induction false} SettleLeavesAbove(gaps: seq<seq<Message>>, g: nat, settled: bool)
    requires g < |gaps|
    ensures forall k :: g < k < |gaps| ==> Settle(gaps, g, settled)[k] == gaps[k]
    decreases g
  {
    if g == 0 {
    } else {
      if gaps[g] == [] || settled || !OnlyTurnEnds(gaps[g]) {
        SettleLeavesAbove(gaps, g - 1, false);
      } else {
        SettleLeavesAbove(Shift(gaps, g), g - 1, gaps[g - 1] == []);
      }
    }
  }

  // ---------------------------------------------------------------- what the rows show

  function MessagesOf(views: seq<View>): seq<Message> {
    if views == [] then []
    else
      var n := |views| - 1;
      MessagesOf(views[..n]) + if views[n].MessageView? then [views[n].message] else []
  }

  function EventsOf(views: seq<View>): seq<Message> {
    if views == [] then []
    else
      var n := |views| - 1;
      EventsOf(views[..n]) + if views[n].ToolsView? then views[n].events else []
  }

  lemma {:induction false} ViewsSnoc(views: seq<View>, v: View)
    ensures MessagesOf(views + [v]) == MessagesOf(views) + if v.MessageView? then [v.message] else []
    ensures EventsOf(views + [v]) == EventsOf(views) + if v.ToolsView? then v.events else []
  {
    assert (views + [v])[..|views|] == views;
  }

  lemma {:induction false} SlotShows(views: seq<View>, events: seq<Message>)
    ensures MessagesOf(views + Slot(events)) == MessagesOf(views)
    ensures EventsOf(views + Slot(events)) == EventsOf(views) + events
  {
    if events == [] {
      assert views + Slot(events) == views;
    } else {
      ViewsSnoc(views, Slot(events)[0]);
      assert MessagesOf(views) + [] == MessagesOf(views);
    }
  }

  lemma {:induction false} PrefixShows(t: Gapped, g: nat)
    requires t.Valid() && g <= |t.ordinary|
    ensures MessagesOf(Prefix(t, g)) == t.ordinary[..g] && EventsOf(Prefix(t, g)) == Flat(t.gaps[..g])
  {
    hide Slot, MessagesOf, EventsOf, Flat;
    if g == 0 {
      assert t.ordinary[..0] == [] && t.gaps[..0] == [];
      NothingShows(t);
    } else {
      var before, slot, last := Prefix(t, g - 1), Slot(t.gaps[g - 1]), MessageViewOf(t.ordinary[g - 1]);
      PrefixShows(t, g - 1);
      SlotShows(before, t.gaps[g - 1]);
      ViewsSnoc(before + slot, last);
      FlatSnoc(t.gaps, g - 1);
      assert Prefix(t, g) == before + slot + [last];
      assert t.ordinary[..g] == t.ordinary[..g - 1] + [t.ordinary[g - 1]];
      assert EventsOf(before + slot) + [] == EventsOf(before + slot);
    }
  }

  lemma {:induction false} NothingShows(t: Gapped)
    requires t.Valid()
    ensures MessagesOf(Prefix(t, 0)) == [] && EventsOf(Prefix(t, 0)) == [] && Flat([]) == []
  {
  }

  lemma {:induction false} FlatSnoc(gaps: seq<seq<Message>>, g: nat)
    requires g < |gaps|
    ensures Flat(gaps[..g + 1]) == Flat(gaps[..g]) + gaps[g]
  {
    assert gaps[..g + 1][..g] == gaps[..g];
  }

  lemma {:induction false} RenderShows(t: Gapped)
    requires t.Valid()
    ensures MessagesOf(Render(t)) == t.ordinary && EventsOf(Render(t)) == Flat(t.gaps)
  {
    hide Slot, MessagesOf, EventsOf, Flat, Prefix;
    var n := |t.ordinary|;
    PrefixShows(t, n);
    FlatSnoc(t.gaps, n);
    SlotShows(Prefix(t, n), t.gaps[n]);
    assert t.gaps[..n + 1] == t.gaps;
    assert t.ordinary[..n] == t.ordinary;
  }

  predicate IsOrdinary(m: Message) { !IsGroupable(m) }
  predicate IsNoTurnEnd(m: Message) { !IsTurnEnd(m) }

  function OrdinaryIn(messages: seq<Message>): seq<Message> { Filter(IsOrdinary, messages) }
  function EventsIn(messages: seq<Message>): seq<Message> { Filter(IsGroupable, messages) }

  lemma {:induction false} SplitFilters(messages: seq<Message>)
    ensures Split(messages).ordinary == OrdinaryIn(messages) && Flat(Split(messages).gaps) == EventsIn(messages)
  {
    hide IsGroupable, Flat, Filter;
    if messages == [] {
      EmptySplit();
    } else {
      var n := |messages| - 1;
      var t, m := Split(messages[..n]), messages[n];
      SplitFilters(messages[..n]);
      assert messages == messages[..n] + [m];
      SplitSnoc(messages[..n], m);
      FilterSnoc(IsOrdinary, messages[..n], m);
      FilterSnoc(IsGroupable, messages[..n], m);
      SplitStepFlat(t, m);
    }
  }

  lemma {:induction false} EmptySplit()
    ensures Split([]).ordinary == OrdinaryIn([]) && Flat(Split([]).gaps) == EventsIn([])
  {
    var gaps: seq<seq<Message>> := [[]];
    assert gaps[..0] == [];
    assert Flat(gaps) == Flat(gaps[..0]) + gaps[0];
  }

  lemma {:induction false} SplitStepFlat(t: Gapped, m: Message)
    requires t.Valid()
    ensures var g := |t.ordinary|; Flat(t.gaps[g := t.gaps[g] + [m]]) == Flat(t.gaps) + [m]
    ensures Flat(t.gaps + [[]]) == Flat(t.gaps)
  {
    var g := |t.ordinary|;
    assert t.gaps[g := t.gaps[g] + [m]][..g] == t.gaps[..g];
    assert (t.gaps + [[]])[..|t.gaps|] == t.gaps;
    assert Flat(t.gaps) + [] == Flat(t.gaps);
  }

  /**
   * The rows show every message exactly once: the ordinary ones in their order, and the tool and
   * run-end events in theirs, however the groups were moved and merged.
   */
  lemma {:induction false} RowsKeepBothOrders(messages: seq<Message>)
    ensures MessagesOf(Render(Settled(messages))) == OrdinaryIn(messages)
    ensures EventsOf(Render(Settled(messages))) == EventsIn(messages)
    ensures multiset(MessagesOf(Render(Settled(messages)))) + multiset(EventsOf(Render(Settled(messages))))
        == multiset(messages)
  {
    var t := Split(messages);
    RenderShows(Settled(messages));
    SettleKeepsFlat(t.gaps, |t.ordinary|, false);
    SplitFilters(messages);
    FilterMultiset(IsOrdinary, messages);
    FilterMultiset(IsGroupable, messages);
  }

  // ---------------------------------------------------------------- where the groups end up

  /** A tools row in the rows is never next to another, so each turn has one group. */
  lemma {:induction false} PrefixAlternates(t: Gapped, g: nat)
    requires t.Valid() && g <= |t.ordinary|
    ensures g > 0 ==> Prefix(t, g) != [] && Prefix(t, g)[|Prefix(t, g)| - 1].MessageView?
    ensures g == 0 ==> Prefix(t, g) == []
    ensures forall i :: 0 <= i < |Prefix(t, g)| - 1 ==> !(Prefix(t, g)[i].ToolsView? && Prefix(t, g)[i + 1].ToolsView?)
  {
    if g == 0 {
    } else {
      PrefixAlternates(t, g - 1);
    }
  }

  predicate BareRunEnd(v: View) { v.ToolsView? && OnlyTurnEnds(v.events) }

  /** No two groups are adjacent, and a bare run-end group is last only if nothing else was said. */
  lemma {:induction false} NoDanglingRunEnd(messages: seq<Message>)
    ensures var rows := Render(Settled(messages));
            && (forall i :: 0 <= i < |rows| - 1 ==> !(rows[i].ToolsView? && rows[i + 1].ToolsView?))
            && (OrdinaryIn(messages) != [] && rows != [] ==> !BareRunEnd(rows[|rows| - 1]))
  {
    var t := Settled(messages);
    var n := |t.ordinary|;
    PrefixAlternates(t, n);
    SplitFilters(messages);
    if n > 0 {
      LastGapSettled(Split(messages).gaps, n);
      assert Render(t) == Prefix(t, n) + Slot(t.gaps[n]);
    }
  }

  lemma {:induction false} LastGapSettled(gaps: seq<seq<Message>>, n: nat)
    requires 0 < n < |gaps|
    ensures Settle(gaps, n, false)[n] == if OnlyTurnEnds(gaps[n]) then [] else gaps[n]
  {
    if gaps[n] == [] || !OnlyTurnEnds(gaps[n]) {
      SettleLeavesAbove(gaps, n - 1, false);
    } else {
      SettleLeavesAbove(Shift(gaps, n), n - 1, gaps[n - 1] == []);
    }
  }

  function ToolsIn(events: seq<Message>): seq<Message> { Filter(IsNoTurnEnd, events) }

  lemma {:induction false} NoToolsInMarkers(events: seq<Message>)
    ensures ToolsIn(events) == [] <==> OnlyTurnEnds(events)
  {
    if events == [] {
    } else {
      NoToolsInMarkers(events[1..]);
      assert events == [events[0]] + events[1..];
    }
  }

  lemma {:induction false} ShiftKeepsTools(gaps: seq<seq<Message>>, g: nat)
    requires 0 < g < |gaps| && OnlyTurnEnds(gaps[g])
    ensures forall k :: 0 <= k < |gaps| ==> ToolsIn(Shift(gaps, g)[k]) == ToolsIn(gaps[k])
  {
    FilterAppend(IsNoTurnEnd, gaps[g - 1], gaps[g]);
    NoToolsInMarkers(gaps[g]);
    assert ToolsIn(gaps[g - 1]) + [] == ToolsIn(gaps[g - 1]);
  }

  lemma {:induction false} SettleKeepsTools(gaps: seq<seq<Message>>, g: nat, settled: bool)
    requires g < |gaps|
    ensures forall k :: 0 <= k < |gaps| ==> ToolsIn(Settle(gaps, g, settled)[k]) == ToolsIn(gaps[k])
    decreases g
  {
    hide ToolsIn, OnlyTurnEnds;
    if g == 0 {
    } else {
      if gaps[g] == [] || settled || !OnlyTurnEnds(gaps[g]) {
        SettleKeepsTools(gaps, g - 1, false);
      } else {
        SettleKeepsTools(Shift(gaps, g), g - 1, gaps[g - 1] == []);
        ShiftKeepsTools(gaps, g);
      }
    }
  }

  /** Tool calls and results stay between the two messages they came between. */
  lemma {:induction false} ToolsNeverMove(messages: seq<Message>, g: nat)
    requires g <= |Split(messages).ordinary|
    ensures ToolsIn(Settled(messages).gaps[g]) == ToolsIn(Split(messages).gaps[g])
  {
    SettleKeepsTools(Split(messages).gaps, |Split(messages).ordinary|, false);
  }

  // ---------------------------------------------------------------- a run end goes ahead of its reply

  /** How many events are shown before message `g`. */
  function Ahead(gaps: seq<seq<Message>>, g: nat): nat
    requires g <= |gaps|
  {
    |Flat(gaps[..g])|
  }

  lemma {:induction false} ShiftAhead(gaps: seq<seq<Message>>, g: nat, k: nat)
    requires 0 < g < |gaps| && k <= |gaps|
    ensures Ahead(Shift(gaps, g), k) == if k == g then Ahead(gaps, g + 1) else Ahead(gaps, k)
  {
    if k < g {
      assert Shift(gaps, g)[..k] == gaps[..k];
    } else if k == g {
      var front := gaps[..g - 1];
      assert Shift(gaps, g)[..g] == front + [gaps[g - 1] + gaps[g]];
      assert gaps[..g + 1] == front + [gaps[g - 1], gaps[g]];
      FlatAppend(front, [gaps[g - 1] + gaps[g]]);
      FlatAppend(front, [gaps[g - 1], gaps[g]]);
      FlatPair(gaps[g - 1], gaps[g]);
      assert Flat([gaps[g - 1] + gaps[g]]) == gaps[g - 1] + gaps[g] by {
        assert [gaps[g - 1] + gaps[g]][..0] == [];
      }
    } else {
      assert Shift(gaps, g)[..k] == Shift(gaps[..k], g);
      ShiftKeepsFlat(gaps[..k], g);
    }
  }

  /** No event is pushed behind a message it was shown before. */
  lemma {:induction false} SettleMovesAhead(gaps: seq<seq<Message>>, g: nat, settled: bool, k: nat)
    requires g < |gaps| && k <= |gaps|
    ensures Ahead(Settle(gaps, g, settled), k) >= Ahead(gaps, k)
    decreases g
  {
    if g == 0 {
    } else {
      if gaps[g] == [] || settled || !OnlyTurnEnds(gaps[g]) {
        SettleMovesAhead(gaps, g - 1, false, k);
      } else {
        ShiftAhead(gaps, g, k);
        assert gaps[..g + 1][..g] == gaps[..g];
        SettleMovesAhead(Shift(gaps, g), g - 1, gaps[g - 1] == [], k);
      }
    }
  }

  /** A gap of run-end markers only is emptied, whatever the scan did above it. */
  lemma {:induction false} SettleEmpties(gaps: seq<seq<Message>>, g: nat, settled: bool, k: nat)
    requires 0 < k <= g < |gaps| && gaps[k] != [] && OnlyTurnEnds(gaps[k])
    requires k == g ==> !settled
    ensures Ahead(Settle(gaps, g, settled), k) >= Ahead(gaps, k + 1)
    decreases g
  {
    if gaps[g] == [] || settled || !OnlyTurnEnds(gaps[g]) {
      SettleEmpties(gaps, g - 1, false, k);
    } else if k == g {
      ShiftAhead(gaps, g, k);
      SettleMovesAhead(Shift(gaps, g), g - 1, gaps[g - 1] == [], k);
    } else {
      ShiftAhead(gaps, g, k + 1);
      assert gaps[..g + 1][..g] == gaps[..g];
      SettleEmpties(Shift(gaps, g), g - 1, gaps[g - 1] == [], k);
    }
  }

  /**
   * Markers that alone follow reply `k - 1` are all shown before that reply in the end, together
   * with everything shown before them.
   */
  lemma {:induction false} RunEndGoesAheadOfItsReply(messages: seq<Message>, k: nat)
    requires 0 < k <= |Split(messages).ordinary|
    requires Split(messages).gaps[k] != [] && OnlyTurnEnds(Split(messages).gaps[k])
    ensures Ahead(Settled(messages).gaps, k) >= Ahead(Split(messages).gaps, k + 1)
  {
    SettleEmpties(Split(messages).gaps, |Split(messages).ordinary|, false, k);
  }
}
