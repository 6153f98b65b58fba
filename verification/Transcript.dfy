/**
 * Grouping tool events into rows, and pulling run-end markers back onto their turn
 * (ui/lib/chatMessages.ts:275-370).
 */
module Transcript {
  import opened ChatMessages

  predicate IsTurnEnd(m: Message) { Event(m) == TurnEnd }

  predicate IsGroupable(m: Message) { Event(m) == ToolCall || Event(m) == ToolResult || IsTurnEnd(m) }

  /** `identity` numbers the row objects: rows with equal contents are still different objects. */
  datatype Row =
    | MessageRow(key: string, message: Message)
    | ToolsRow(key: string, events: seq<Message>, identity: nat)

  predicate OnlyTurnEnds(events: seq<Message>) { forall e :: e in events ==> IsTurnEnd(e) }

  // ---------------------------------------------------------------- specification: gaps between messages

  /**
   * A transcript as its ordinary messages and the events in the gaps around them: `gaps[g]` lies
   * before message `g`, the last gap behind the last message.
   */
  datatype Gapped = Gapped(ordinary: seq<Message>, gaps: seq<seq<Message>>)
  {
    ghost predicate Valid() { |gaps| == |ordinary| + 1 }
  }

  function Split(messages: seq<Message>): (t: Gapped)
    ensures t.Valid()
  {
    if messages == [] then Gapped([], [[]])
    else
      var n := |messages| - 1;
      var t, last := Split(messages[..n]), messages[n];
      var g := |t.ordinary|;
      if IsGroupable(last) then Gapped(t.ordinary, t.gaps[g := t.gaps[g] + [last]])
      else Gapped(t.ordinary + [last], t.gaps + [[]])
  }

  /**
   * From gap `g` down to gap 1, a gap that holds run-end markers only is emptied into the gap
   * before it. One that lands in an empty gap is settled there and passed over.
   */
  function Settle(gaps: seq<seq<Message>>, g: nat, settled: bool): (r: seq<seq<Message>>)
    requires g < |gaps|
    ensures |r| == |gaps|
    decreases g
  {
    if g == 0 then gaps
    else if gaps[g] == [] || settled || !OnlyTurnEnds(gaps[g]) then Settle(gaps, g - 1, false)
    else Settle(gaps[g - 1 := gaps[g - 1] + gaps[g]][g := []], g - 1, gaps[g - 1] == [])
  }

  function Settled(messages: seq<Message>): (t: Gapped)
    ensures t.Valid()
  {
    var t := Split(messages);
    Gapped(t.ordinary, Settle(t.gaps, |t.ordinary|, false))
  }

  // ---------------------------------------------------------------- specification: rows

  /** A row as it is displayed, without the identity of the object. */
  datatype View = MessageView(key: string, message: Message) | ToolsView(key: string, events: seq<Message>)

  function ViewOf(r: Row): View {
    match r
    case MessageRow(key, message) => MessageView(key, message)
    case ToolsRow(key, events, _) => ToolsView(key, events)
  }

  function Views(rows: seq<Row>): (v: seq<View>)
    ensures |v| == |rows| && forall i :: 0 <= i < |rows| ==> v[i] == ViewOf(rows[i])
  {
    seq(|rows|, i requires 0 <= i < |rows| => ViewOf(rows[i]))
  }

  function MessageViewOf(m: Message): View { MessageView(m.id, m) }

  function Slot(events: seq<Message>): seq<View> {
    if events == [] then [] else [ToolsView("tools-" + events[0].id, events)]
  }

  /** The rows before gap `g`. */
  function Prefix(t: Gapped, g: nat): seq<View>
    requires t.Valid() && g <= |t.ordinary|
  {
    if g == 0 then [] else Prefix(t, g - 1) + Slot(t.gaps[g - 1]) + [MessageViewOf(t.ordinary[g - 1])]
  }

  /** The rows behind gap `g`. */
  function Suffix(t: Gapped, g: nat): seq<View>
    requires t.Valid() && g <= |t.ordinary|
    decreases |t.ordinary| - g
  {
    if g == |t.ordinary| then [] else [MessageViewOf(t.ordinary[g])] + Slot(t.gaps[g + 1]) + Suffix(t, g + 1)
  }

  function Render(t: Gapped): seq<View>
    requires t.Valid()
  {
    Prefix(t, |t.ordinary|) + Slot(t.gaps[|t.ordinary|])
  }

  lemma {:induction false} RenderAt(t: Gapped, g: nat)
    requires t.Valid() && g <= |t.ordinary|
    ensures Render(t) == Prefix(t, g) + Slot(t.gaps[g]) + Suffix(t, g)
    decreases |t.ordinary| - g
  {
    hide Slot;
    if g < |t.ordinary| {
      RenderAt(t, g + 1);
      var p, m, rest := Prefix(t, g), MessageViewOf(t.ordinary[g]), Suffix(t, g + 1);
      assert Prefix(t, g + 1) == p + Slot(t.gaps[g]) + [m];
      assert Suffix(t, g) == [m] + Slot(t.gaps[g + 1]) + rest;
    }
  }

  lemma {:induction false} PrefixFrame(t: Gapped, t': Gapped, g: nat)
    requires t.Valid() && t'.Valid() && g <= |t.ordinary| && g <= |t'.ordinary|
    requires t.gaps[..g] == t'.gaps[..g] && t.ordinary[..g] == t'.ordinary[..g]
    ensures Prefix(t, g) == Prefix(t', g)
  {
    if g == 0 {
    } else {
      assert t.gaps[..g][..g - 1] == t.gaps[..g - 1] && t'.gaps[..g][..g - 1] == t'.gaps[..g - 1];
      assert t.ordinary[..g][..g - 1] == t.ordinary[..g - 1] && t'.ordinary[..g][..g - 1] == t'.ordinary[..g - 1];
      PrefixFrame(t, t', g - 1);
      assert t.gaps[..g][g - 1] == t'.gaps[..g][g - 1] && t.ordinary[..g][g - 1] == t'.ordinary[..g][g - 1];
    }
  }

  lemma {:induction false} SuffixFrame(t: Gapped, t': Gapped, g: nat)
    requires t.Valid() && t'.Valid() && t.ordinary == t'.ordinary && g <= |t.ordinary|
    requires forall k :: g < k <= |t.ordinary| ==> t.gaps[k] == t'.gaps[k]
    ensures Suffix(t, g) == Suffix(t', g)
    decreases |t.ordinary| - g
  {
    if g < |t.ordinary| {
      SuffixFrame(t, t', g + 1);
    }
  }

  // ---------------------------------------------------------------- the algorithm: grouping

  /** Row objects are numbered below `next`, each number once. */
  ghost predicate ObjectsDistinct(rows: seq<Row>, next: nat) {
    && (forall i :: 0 <= i < |rows| && rows[i].ToolsRow? ==> rows[i].identity < next)
    && (forall i, j :: 0 <= i < j < |rows| && rows[i].ToolsRow? && rows[j].ToolsRow? ==>
       rows[i].identity != rows[j].identity)
  }

  lemma {:induction false} SplitSnoc(messages: seq<Message>, m: Message)
    ensures var t := Split(messages);
            var g := |t.ordinary|;
            Split(messages + [m]) == if IsGroupable(m) then Gapped(t.ordinary, t.gaps[g := t.gaps[g] + [m]])
                                     else Gapped(t.ordinary + [m], t.gaps + [[]])
  {
    assert (messages + [m])[..|messages|] == messages;
  }

  /** Rows flushed so far and the pending events, as the gapped transcript has them. */
  ghost predicate Grouped(rows: seq<Row>, pending: seq<Message>, t: Gapped) {
    t.Valid() && Views(rows) == Prefix(t, |t.ordinary|) && pending == t.gaps[|t.ordinary|]
  }

  lemma {:induction false} GroupEvent(rows: seq<Row>, pending: seq<Message>, t: Gapped, m: Message)
    requires Grouped(rows, pending, t)
    ensures Grouped(rows, pending + [m], Gapped(t.ordinary, t.gaps[|t.ordinary| := t.gaps[|t.ordinary|] + [m]]))
  {
    var t' := Gapped(t.ordinary, t.gaps[|t.ordinary| := t.gaps[|t.ordinary|] + [m]]);
    PrefixFrame(t, t', |t.ordinary|);
  }

  lemma {:induction false} GroupMessage(rows: seq<Row>, pending: seq<Message>, t: Gapped, m: Message, rows': seq<Row>)
    requires Grouped(rows, pending, t) && Views(rows') == Views(rows) + Slot(pending)
    ensures Grouped(rows' + [MessageRow(m.id, m)], [], Gapped(t.ordinary + [m], t.gaps + [[]]))
  {
    hide Slot;
    var t' := Gapped(t.ordinary + [m], t.gaps + [[]]);
    PrefixFrame(t, t', |t.ordinary|);
    assert Views(rows' + [MessageRow(m.id, m)]) == Views(rows') + [MessageViewOf(m)];
  }

  lemma {:induction false} ObjectsSnoc(rows: seq<Row>, next: nat, m: Message)
    requires ObjectsDistinct(rows, next)
    ensures ObjectsDistinct(rows + [MessageRow(m.id, m)], next)
  {
  }

  lemma {:induction false} GroupStart()
    ensures Grouped([], [], Split([])) && ObjectsDistinct([], 0)
  {
  }

  lemma {:induction false} GroupEnd(rows: seq<Row>, pending: seq<Message>, t: Gapped, rows': seq<Row>)
    requires Grouped(rows, pending, t) && Views(rows') == Views(rows) + Slot(pending)
    ensures t.Valid() && Views(rows') == Render(t)
  {
  }

  method GroupRows(messages: seq<Message>) returns (rows: seq<Row>, next: nat)
    ensures Views(rows) == Render(Split(messages))
    ensures ObjectsDistinct(rows, next)
  {
    hide *;
    var pendingTools: seq<Message> := [];
    rows, next := [], 0;
    GroupStart();
    assert messages[..0] == [];
    for i := 0 to |messages|
      invariant Grouped(rows, pendingTools, Split(messages[..i]))
      invariant ObjectsDistinct(rows, next)
    {
      var message := messages[i];
      ghost var t, was, pending := Split(messages[..i]), rows, pendingTools;
      assert messages[..i + 1] == messages[..i] + [message];
      SplitSnoc(messages[..i], message);
      if IsGroupable(message) {
        pendingTools := pendingTools + [message];
        GroupEvent(rows, pending, t, message);
        continue;
      }
      rows, next := FlushTools(rows, pendingTools, next);
      pendingTools := [];
      GroupMessage(was, pending, t, message, rows);
      ObjectsSnoc(rows, next, message);
      rows := rows + [MessageRow(message.id, message)];
    }
    assert messages[..|messages|] == messages;
    ghost var was := rows;
    rows, next := FlushTools(rows, pendingTools, next);
    GroupEnd(was, pendingTools, Split(messages), rows);
  }

  method FlushTools(rows: seq<Row>, pendingTools: seq<Message>, next: nat) returns (rows': seq<Row>, next': nat)
    requires ObjectsDistinct(rows, next)
    ensures Views(rows') == Views(rows) + Slot(pendingTools)
    ensures ObjectsDistinct(rows', next')
  {
    if |pendingTools| == 0 {
      return rows, next;
    }
    return rows + [ToolsRow("tools-" + pendingTools[0].id, pendingTools, next)], next + 1;
  }

  // ---------------------------------------------------------------- the algorithm: settling

  predicate HoldsOnlyTurnEnd(r: Row) { r.ToolsRow? && OnlyTurnEnds(r.events) }

  /**
   * The scan stands at gap `g`: at its row, settled or not, when `atGroup` holds, and otherwise at
   * the message in front of it, with the gap dealt with.
   */
  ghost predicate Standing(rows: seq<Row>, settled: set<nat>, index: int, t: Gapped, g: nat, flag: bool,
                           atGroup: bool) {
    && t.Valid() && g <= |t.ordinary|
    && Views(rows) == Render(t)
    && index == |Prefix(t, g)| - (if atGroup then 0 else 1) && index < |rows|
    && (atGroup ==>
          t.gaps[g] != [] && index >= 0 && rows[index].ToolsRow? && (flag <==> rows[index].identity in settled))
    && (!atGroup ==> !flag)
    && (forall k :: 0 <= k < index && k < |rows| && rows[k].ToolsRow? ==> rows[k].identity !in settled)
  }

  /** What the scan still has to do to the gaps. */
  ghost function Remaining(t: Gapped, g: nat, flag: bool, atGroup: bool): seq<seq<Message>>
    requires t.Valid() && g <= |t.ordinary|
  {
    if atGroup then Settle(t.gaps, g, flag) else if g == 0 then t.gaps else Settle(t.gaps, g - 1, false)
  }

  /** The rows on either side of gap `g`, for `g > 0`. */
  lemma {:induction false} RowsAround(t: Gapped, g: nat)
    requires t.Valid() && 0 < g <= |t.ordinary|
    ensures Render(t) == Prefix(t, g - 1) + Slot(t.gaps[g - 1]) + [MessageViewOf(t.ordinary[g - 1])]
                         + Slot(t.gaps[g]) + Suffix(t, g)
    ensures |Prefix(t, g)| == |Prefix(t, g - 1)| + |Slot(t.gaps[g - 1])| + 1
  {
    RenderAt(t, g);
  }

  lemma {:induction false} PrefixLength(t: Gapped, g: nat)
    requires t.Valid() && g <= |t.ordinary|
    ensures |Prefix(t, g)| >= g
    ensures g > 0 && t.gaps[g - 1] != [] ==> |Prefix(t, g)| > g
  {
    if g == 0 {
    } else {
      PrefixLength(t, g - 1);
    }
  }

  lemma {:induction false} PassMessage(rows: seq<Row>, settled: set<nat>, index: int, t: Gapped, g: nat)
    requires Standing(rows, settled, index, t, g, false, false) && index > 0
    ensures g > 0 && index < |rows| && rows[index].MessageRow?
    ensures Standing(rows, settled, index - 1, t, g - 1, false, t.gaps[g - 1] != [])
    ensures Remaining(t, g, false, false) == Remaining(t, g - 1, false, t.gaps[g - 1] != [])
  {
    RowsAround(t, g);
    assert Views(rows)[index] == MessageViewOf(t.ordinary[g - 1]);
    if t.gaps[g - 1] != [] {
      assert Views(rows)[index - 1] == Slot(t.gaps[g - 1])[0];
    }
  }

  lemma {:induction false} AtGroup(rows: seq<Row>, settled: set<nat>, index: int, t: Gapped, g: nat, flag: bool)
    requires Standing(rows, settled, index, t, g, flag, true) && index > 0
    ensures g > 0 && t.Valid() && g <= |t.ordinary| && index < |rows| && t.gaps[g] != []
    ensures rows[index].ToolsRow? && (flag <==> rows[index].identity in settled)
    ensures rows[index].events == t.gaps[g] && rows[index - 1].MessageRow?
    ensures index >= 2 && rows[index - 2].ToolsRow? <==> t.gaps[g - 1] != []
  {
    assert g > 0;
    hide Prefix, Suffix, Render;
    RowsAround(t, g);
    assert Views(rows)[index] == Slot(t.gaps[g])[0];
    assert Views(rows)[index - 1] == MessageViewOf(t.ordinary[g - 1]);
    if t.gaps[g - 1] != [] {
      assert Views(rows)[index - 2] == Slot(t.gaps[g - 1])[0];
    } else if index >= 2 {
      LastBefore(t, g - 1);
      assert Views(rows)[index - 2] == Prefix(t, g - 1)[index - 2];
    }
  }

  lemma {:induction false} LastBefore(t: Gapped, g: nat)
    requires t.Valid() && g <= |t.ordinary| && Prefix(t, g) != []
    ensures Prefix(t, g)[|Prefix(t, g)| - 1].MessageView?
  {
  }

  function Moved(t: Gapped, g: nat): Gapped
    requires t.Valid() && 0 < g <= |t.ordinary|
  {
    Gapped(t.ordinary, t.gaps[g - 1 := t.gaps[g - 1] + t.gaps[g]][g := []])
  }

  lemma {:induction false} MovedRows(t: Gapped, g: nat)
    requires t.Valid() && 0 < g <= |t.ordinary|
    ensures Moved(t, g).Valid()
    ensures Render(Moved(t, g)) == Prefix(t, g - 1) + Slot(t.gaps[g - 1] + t.gaps[g])
                                   + [MessageViewOf(t.ordinary[g - 1])] + Suffix(t, g)
    ensures Prefix(Moved(t, g), g - 1) == Prefix(t, g - 1)
    ensures |Prefix(Moved(t, g), g)| == |Prefix(t, g - 1)| + |Slot(t.gaps[g - 1] + t.gaps[g])| + 1
  {
    hide Prefix, Suffix, Render;
    var t' := Moved(t, g);
    RowsAround(t', g);
    PrefixFrame(t, t', g - 1);
    SuffixFrame(t, t', g);
    assert Slot(t'.gaps[g]) == [];
    assert Prefix(t, g - 1) + Slot(t'.gaps[g - 1]) + [MessageViewOf(t.ordinary[g - 1])] + []
        == Prefix(t, g - 1) + Slot(t'.gaps[g - 1]) + [MessageViewOf(t.ordinary[g - 1])];
  }

  /** The five stretches of the displayed rows around a group that is about to move. */
  lemma {:induction false} Stretches(rows: seq<Row>, settled: set<nat>, index: int, t: Gapped, g: nat)
    requires Standing(rows, settled, index, t, g, false, true) && index > 0
    ensures g > 0 && index == |Prefix(t, g - 1)| + |Slot(t.gaps[g - 1])| + 1
    ensures Views(rows)[..|Prefix(t, g - 1)|] == Prefix(t, g - 1)
    ensures Views(rows)[index + 1..] == Suffix(t, g)
    ensures ViewOf(rows[index - 1]) == MessageViewOf(t.ordinary[g - 1])
    ensures t.gaps[g - 1] != [] ==> [ViewOf(rows[index - 2])] == Slot(t.gaps[g - 1])
    ensures [ViewOf(rows[index])] == Slot(t.gaps[g])
  {
    hide Prefix, Suffix, Render, Remaining, OnlyTurnEnds;
    AtGroup(rows, settled, index, t, g, false);
    RowsAround(t, g);
    assert Views(rows)[index] == Slot(t.gaps[g])[0];
    assert Views(rows)[index - 1] == MessageViewOf(t.ordinary[g - 1]);
    if t.gaps[g - 1] != [] {
      assert Views(rows)[index - 2] == Slot(t.gaps[g - 1])[0];
    }
  }

  lemma {:induction false} MergeGroup(rows: seq<Row>, settled: set<nat>, index: int, t: Gapped, g: nat, rows': seq<Row>)
    requires Standing(rows, settled, index, t, g, false, true) && index >= 2 && rows[index - 2].ToolsRow?
    requires var before := rows[index - 2];
             rows' == rows[..index - 2] + [before.(events := before.events + rows[index].events)]
                      + [rows[index - 1]] + rows[index + 1..]
    ensures g > 0 && Standing(rows', settled, index - 1, Moved(t, g), g, false, false)
  {
    hide Prefix, Suffix, Render, Remaining, OnlyTurnEnds;
    AtGroup(rows, settled, index, t, g, false);
    Stretches(rows, settled, index, t, g);
    MovedRows(t, g);
    assert [ViewOf(rows'[index - 2])] == Slot(t.gaps[g - 1] + t.gaps[g]);
    assert Views(rows') == Views(rows)[..index - 2] + [ViewOf(rows'[index - 2])]
                           + [ViewOf(rows[index - 1])] + Views(rows)[index + 1..];
  }

  lemma {:induction false} MoveGroup(rows: seq<Row>, settled: set<nat>, index: int, t: Gapped, g: nat, rows': seq<Row>,
                                     next: nat)
    requires Standing(rows, settled, index, t, g, false, true) && index >= 1 && g >= 1 && t.gaps[g - 1] == []
    requires ObjectsDistinct(rows, next)
    requires rows' == rows[..index - 1] + [rows[index]] + [rows[index - 1]] + rows[index + 1..]
    ensures Standing(rows', settled + {rows[index].identity}, index - 1, Moved(t, g), g - 1, true, true)
  {
    hide Prefix, Suffix, Render, Remaining, OnlyTurnEnds;
    AtGroup(rows, settled, index, t, g, false);
    Stretches(rows, settled, index, t, g);
    MovedRows(t, g);
    assert t.gaps[g - 1] + t.gaps[g] == t.gaps[g];
    assert Views(rows') == Views(rows)[..index - 1] + [ViewOf(rows[index])] + [ViewOf(rows[index - 1])]
                           + Views(rows)[index + 1..];
    forall k | 0 <= k < index - 1 && rows'[k].ToolsRow?
      ensures rows'[k].identity !in settled + {rows[index].identity}
    {
      assert rows'[k] == rows[k];
    }
  }

  lemma {:induction false} StartScan(rows: seq<Row>, t: Gapped)
    requires t.Valid() && Views(rows) == Render(t)
    ensures var n := |t.ordinary|;
            && Standing(rows, {}, |rows| - 1, t, n, false, t.gaps[n] != [])
            && Remaining(t, n, false, t.gaps[n] != []) == Settle(t.gaps, n, false)
  {
    var n := |t.ordinary|;
    if t.gaps[n] != [] {
      assert Views(rows)[|rows| - 1] == Slot(t.gaps[n])[0];
    }
  }

  lemma {:induction false} PassGroup(rows: seq<Row>, settled: set<nat>, index: int, t: Gapped, g: nat, flag: bool)
    requires Standing(rows, settled, index, t, g, flag, true) && index > 0
    requires flag || !OnlyTurnEnds(t.gaps[g])
    ensures Standing(rows, settled, index - 1, t, g, false, false)
    ensures Remaining(t, g, flag, true) == Remaining(t, g, false, false)
  {
    AtGroup(rows, settled, index, t, g, flag);
  }

  lemma {:induction false} MoveRemains(t: Gapped, g: nat)
    requires t.Valid() && 0 < g <= |t.ordinary| && t.gaps[g] != [] && OnlyTurnEnds(t.gaps[g])
    ensures t.gaps[g - 1] != [] ==> Remaining(t, g, false, true) == Remaining(Moved(t, g), g, false, false)
    ensures t.gaps[g - 1] == [] ==> Remaining(t, g, false, true) == Remaining(Moved(t, g), g - 1, true, true)
  {
  }

  lemma {:induction false} ObjectsAfter(rows: seq<Row>, next: nat, index: int, events: seq<Message>)
    requires ObjectsDistinct(rows, next) && 0 < index < |rows| && rows[index].ToolsRow? && rows[index - 1].MessageRow?
    ensures ObjectsDistinct(rows[..index - 1] + [rows[index]] + [rows[index - 1]] + rows[index + 1..], next)
    ensures index >= 2 && rows[index - 2].ToolsRow? ==>
              ObjectsDistinct(rows[..index - 2] + [rows[index - 2].(events := events)] + [rows[index - 1]]
                  + rows[index + 1..], next)
  {
  }

  lemma {:induction false} EndScan(rows: seq<Row>, settled: set<nat>, index: int, t: Gapped, g: nat, flag: bool,
                                   atGroup: bool)
    requires Standing(rows, settled, index, t, g, flag, atGroup) && index <= 0
    ensures t.Valid() && Views(rows) == Render(t) && Remaining(t, g, flag, atGroup) == t.gaps
  {
    PrefixLength(t, g);
  }

  /** Two groups are never neighbours, so the guard on the kind of the previous row never skips one. */
  method BuildTranscriptRows(messages: seq<Message>) returns (rows: seq<Row>)
    ensures Views(rows) == Render(Settled(messages))
  {
    hide Prefix, Suffix, Render, Settle, Remaining, Views, Split, ObjectsDistinct, Standing;
    var next;
    rows, next := GroupRows(messages);
    var settled: set<nat> := {};
    var index := |rows| - 1;
    ghost var t := Split(messages);
    ghost var g: nat, flag, atGroup := |t.ordinary|, false, t.gaps[|t.ordinary|] != [];
    StartScan(rows, t);
    while index > 0
      invariant t.Valid() && g <= |t.ordinary| && (flag ==> atGroup)
      invariant Standing(rows, settled, index, t, g, flag, atGroup)
      invariant t.ordinary == Split(messages).ordinary && Remaining(t, g, flag, atGroup) == Settled(messages).gaps
      invariant ObjectsDistinct(rows, next)
    {
      hide Settled;
      if !atGroup { PassMessage(rows, settled, index, t, g); } else { AtGroup(rows, settled, index, t, g, flag); }
      var row := rows[index];
      if row.MessageRow? || row.identity in settled || !HoldsOnlyTurnEnd(row) {
        if atGroup {
          PassGroup(rows, settled, index, t, g, flag);
          flag, atGroup := false, false;
        } else {
          g, atGroup := g - 1, t.gaps[g - 1] != [];
        }
        index := index - 1;
        continue;
      }
      MoveRemains(t, g);
      ghost var was := rows;
      var previous := rows[index - 1];
      assert previous.MessageRow?;
      if index >= 2 && rows[index - 2].ToolsRow? {
        var beforeMessage := rows[index - 2];
        rows := rows[..index - 2] + [beforeMessage.(events := beforeMessage.events + row.events)]
                + [previous] + rows[index + 1..];
        ObjectsAfter(was, next, index, beforeMessage.events + row.events);
        MergeGroup(was, settled, index, t, g, rows);
        t, atGroup := Moved(t, g), false;
      } else {
        rows := rows[..index - 1] + [row] + [previous] + rows[index + 1..];
        ObjectsAfter(was, next, index, []);
        MoveGroup(was, settled, index, t, g, rows, next);
        settled := settled + {row.identity};
        t, g, flag := Moved(t, g), g - 1, true;
      }
      index := index - 1;
    }
    EndScan(rows, settled, index, t, g, flag, atGroup);
  }
}
