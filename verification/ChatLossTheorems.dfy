/** Exactly which texts a merge of chat rows loses or doubles, and what it does to the order of undated rows. */
module ChatLossTheorems {
  import opened Wrappers
  import opened Sequences
  import opened ChatMessages
  import opened ChatMergeTheorems
  import opened ChatDedupTheorems
  import opened ChatPlaces

  // ---------------------------------------------------------------- one row

  /** The fingerprint index names a row that no longer has the fingerprint, and that row stays. */
  ghost predicate Shadowed(s: State, m: Message)
    requires s.InRange()
  {
    && m.id !in s.byId && Fingerprint(m) in s.byPrint
    && (IsPersisted(s.merged[s.byPrint[Fingerprint(m)]]) || IsOptimistic(m))
    && !HasPrint(s.merged, Fingerprint(m))
  }

  /** The row that an incoming row takes the place of. */
  function Taken(s: State, m: Message): (at: Option<nat>)
    requires s.InRange()
    ensures at.Some? ==> at.value < |s.merged|
  {
    if m.id in s.byId then Some(s.byId[m.id])
    else if Fingerprint(m) in s.byPrint && !IsPersisted(s.merged[s.byPrint[Fingerprint(m)]]) && !IsOptimistic(m)
    then Some(s.byPrint[Fingerprint(m)])
    else None
  }

  /** The incoming row takes the place of the only row with another text. */
  ghost predicate Ousted(s: State, m: Message, text: string)
    requires s.InRange()
  {
    && text != Fingerprint(m) && Taken(s, m).Some?
    && forall i :: 0 <= i < |s.merged| && Fingerprint(s.merged[i]) == text ==> i == Taken(s, m).value
  }

  /**
   * From any state with an exact id index, an incoming row is lost if and only if it is shadowed, and
   * any other text that was there is lost if and only if the incoming row ousts it.
   */
  lemma {:induction false} RowIsLostIffShadowed(s: State, m: Message)
    requires IdsIndexed(s)
    ensures HasPrint(Step(s, m).merged, Fingerprint(m)) <==> !Shadowed(s, m)
    ensures forall text :: text != Fingerprint(m) && HasPrint(s.merged, text) ==>
              (HasPrint(Step(s, m).merged, text) <==> !Ousted(s, m, text))
  {
    hide Fingerprint, IsOptimistic, IsPersisted;
    var s' := Step(s, m);
    StepTakes(s, m);
    if Taken(s, m).Some? { assert s'.merged[Taken(s, m).value] == m; }
    if Taken(s, m).None? && m.id !in s.byId && Fingerprint(m) !in s.byPrint { assert s'.merged[|s.merged|] == m; }
    forall text | text != Fingerprint(m) && HasPrint(s.merged, text)
      ensures HasPrint(s'.merged, text) <==> !Ousted(s, m, text)
    {
      OthersSurvive(s, m, text);
    }
  }

  lemma {:induction false} StepTakes(s: State, m: Message)
    requires IdsIndexed(s)
    ensures Step(s, m).merged ==
              if Taken(s, m).Some? then s.merged[Taken(s, m).value := m]
              else if m.id !in s.byId && Fingerprint(m) !in s.byPrint then s.merged + [m]
              else s.merged
  {
    hide Fingerprint, IsOptimistic, IsPersisted;
  }

  lemma {:induction false} OthersSurvive(s: State, m: Message, text: string)
    requires IdsIndexed(s) && text != Fingerprint(m) && HasPrint(s.merged, text)
    ensures HasPrint(Step(s, m).merged, text) <==> !Ousted(s, m, text)
  {
    hide Fingerprint, Taken, Step;
    var s' := Step(s, m);
    StepTakes(s, m);
    if !Ousted(s, m, text) {
      var i :| 0 <= i < |s.merged| && Fingerprint(s.merged[i]) == text && Taken(s, m) != Some(i);
      assert s'.merged[i] == s.merged[i];
    }
  }

  // ---------------------------------------------------------------- a whole merge: lost texts

  /**
   * A text is in the merged rows if and only if a place of an existing row holds it at the end, or it
   * is new to the existing rows and arrives under an id that no place holds.
   */
  lemma {:induction false} TextSurvivesIff(p: Platform, existing: seq<Message>, incoming: seq<Message>, text: string)
    requires DistinctIds(existing) && DistinctIds(incoming)
    ensures HasPrint(Merge(p, existing, incoming), text)
            <==> HasPrint(Held(existing, incoming), text)
                 || (!HasPrint(existing, text) && Arrives(existing, incoming, text))
  {
    hide Fingerprint, HasPrint, Arrives, Held;
    var s := Run(Start(existing), incoming);
    RunTracked(existing, incoming);
    TrackedTexts(existing, incoming, s, text);
    if s.changed {
      SortMembers(Order(p), s.merged);
      SamePrints(s.merged, Merge(p, existing, incoming), text);
      SamePrints(Merge(p, existing, incoming), s.merged, text);
    } else {
      UnchangedRun(Start(existing), incoming);
    }
  }

  lemma {:induction false} TrackedTexts(existing: seq<Message>, before: seq<Message>, s: State, text: string)
    requires Tracked(existing, before, s)
    ensures HasPrint(s.merged, text)
            <==> HasPrint(Held(existing, before), text)
                 || (!HasPrint(existing, text) && Arrives(existing, before, text))
  {
    hide Fingerprint, Arrives, Held, LastWith;
    var held := Held(existing, before);
    if HasPrint(s.merged, text) {
      var i :| 0 <= i < |s.merged| && Fingerprint(s.merged[i]) == text;
      if i < |existing| { assert held[i] == s.merged[i]; } else { assert AddedPlace(existing, before, s, i); }
    }
    if i :| 0 <= i < |held| && Fingerprint(held[i]) == text { assert s.merged[i] == held[i]; }
    if !HasPrint(existing, text) && Arrives(existing, before, text) { assert PointsRight(existing, s, text); }
  }

  lemma {:induction false} SamePrints(a: seq<Message>, b: seq<Message>, text: string)
    requires forall x :: x in a ==> x in b
    ensures HasPrint(a, text) ==> HasPrint(b, text)
  {
    if i :| 0 <= i < |a| && Fingerprint(a[i]) == text {
      assert a[i] in b;
      var j :| 0 <= j < |b| && b[j] == a[i];
    }
  }

  // ---------------------------------------------------------------- lost rows, where no edit is displaced

  /** Every existing row that is not stored keeps its text where the batch has its id. */
  ghost predicate UnstoredKeepText(existing: seq<Message>, incoming: seq<Message>) {
    forall x, m :: x in existing && m in incoming && !IsPersisted(x) && m.id == x.id ==>
      Fingerprint(m) == Fingerprint(x)
  }

  /** The text of a new row was that of an existing row, and no existing row has it once the batch is in. */
  ghost predicate EditedAway(existing: seq<Message>, incoming: seq<Message>, m: Message) {
    && !HasId(existing, m.id) && HasPrint(existing, Fingerprint(m))
    && !HasPrint(Updated(existing, incoming), Fingerprint(m))
  }

  lemma {:induction false} HeldReadsUpdated(existing: seq<Message>, incoming: seq<Message>, i: nat)
    requires DistinctIds(existing) && DistinctIds(incoming) && UnstoredKeepText(existing, incoming) && i < |existing|
    ensures Fingerprint(Held(existing, incoming)[i]) == Fingerprint(Updated(existing, incoming)[i])
  {
    hide Fingerprint, IsPersisted, Held;
    assert existing[i] in existing;
    if IsPersisted(existing[i]) {
      StoredPlace(existing, incoming, i);
    } else {
      PlaceKeepsText(existing, incoming, i);
    }
  }

  /**
   * Where rows that are not stored keep their text, a merge leaves out an incoming row if and only if
   * the row is new, repeats the text of an existing row, and no existing row has it afterwards.
   */
  lemma {:induction false} RowIsLostIffEditedAway(p: Platform, existing: seq<Message>, incoming: seq<Message>,
                                                  m: Message)
    requires DistinctIds(existing) && DistinctIds(incoming) && UnstoredKeepText(existing, incoming) && m in incoming
    ensures HasPrint(Merge(p, existing, incoming), Fingerprint(m)) <==> !EditedAway(existing, incoming, m)
  {
    hide Fingerprint, IsPersisted, Held, Arrives, Merge;
    var held, updated, text := Held(existing, incoming), Updated(existing, incoming), Fingerprint(m);
    TextSurvivesIff(p, existing, incoming, text);
    forall i | 0 <= i < |existing| ensures Fingerprint(held[i]) == Fingerprint(updated[i]) {
      HeldReadsUpdated(existing, incoming, i);
    }
    assert HasPrint(held, text) <==> HasPrint(updated, text);
    if HasId(existing, m.id) {
      var i :| 0 <= i < |existing| && existing[i].id == m.id;
      CurrentIs(existing[i], incoming, m);
      assert updated[i] == m;
    } else {
      NewIdArrives(existing, incoming, m);
    }
  }

  /** An edit of the only row, and then a row under another id. */
  lemma {:induction false} EditThenOther(draft: Message, edited: Message, other: Message)
    requires edited.id == draft.id && edited != draft && other.id != draft.id
    ensures var s := Run(Start([draft]), [edited, other]);
            && s.changed
            && s.merged == if Fingerprint(other) != Fingerprint(draft) then [edited, other]
                           else if !IsPersisted(edited) && !IsOptimistic(other) then [other]
                           else [edited]
  {
    hide Fingerprint, IsPersisted, IsOptimistic;
    var s := Start([draft]);
    OneRowIndexes(draft);
    assert Step(s, edited) == State([edited], s.byId, s.byPrint, true);
    assert [edited, other][..1] == [edited] && [edited][..0] == [];
    assert Run(s, [edited]) == Step(Run(s, []), edited);
  }

  lemma {:induction false} OneRowIndexes(x: Message)
    ensures Start([x]) == State([x], map[x.id := 0], map[Fingerprint(x) := 0], false)
  {
    hide Fingerprint;
    assert [x][..0] == [];
    assert IndexBy(IdOf, []) == map[] && IndexBy(Fingerprint, []) == map[];
  }

  /** Contents that differ in the first character differ in the fingerprint. */
  lemma {:induction false} TextsDiffer(a: Message, b: Message)
    requires a.role == b.role && a.eventType == b.eventType && a.content == "draft" && b.content == "final"
    ensures Fingerprint(a) != Fingerprint(b)
  {
    var prefix := RoleText(a.role) + "\U{001F}" + EventText(Event(a)) + "\U{001F}";
    assert Fingerprint(a)[|prefix|] == 'd' && Fingerprint(b)[|prefix|] == 'f';
  }

  /**
   * A batch that edits a stored row and then repeats its old text under a new id loses the new row: its
   * fingerprint still points at the edited row, which stays.
   */
  lemma {:induction false} EditThenRepeatIsLost(p: Platform)
    ensures var draft := Message("1", Assistant, "draft", "", None, "");
            var edited, repeated := draft.(content := "final"), draft.(id := "2");
            Merge(p, [draft], [edited, repeated]) == [edited] && !Represented([edited], repeated)
  {
    var draft := Message("1", Assistant, "draft", "", None, "");
    var edited, repeated := draft.(content := "final"), draft.(id := "2");
    TextsDiffer(draft, edited);
    assert "1"[0] != "2"[0] && IsPersisted(edited);
    assert Fingerprint(repeated) == Fingerprint(draft);
    EditThenOther(draft, edited, repeated);
    assert SortBy(Order(p), [edited]) == [edited];
  }

  // ---------------------------------------------------------------- displaced edits

  /** Until something displaces it, a place holds its own id. */
  lemma {:induction false} UndisplacedPlace(existing: seq<Message>, incoming: seq<Message>, i: nat, k: nat)
    requires DistinctIds(existing) && DistinctIds(incoming) && i < |existing| && k <= |incoming|
    requires forall l :: 0 <= l < k ==> !Displaces(existing, incoming, i, l)
    ensures Held(existing, incoming[..k])[i].id == existing[i].id
  {
    hide Displaces;
    if k == 0 {
    } else {
      UndisplacedPlace(existing, incoming, i, k - 1);
      SeatAt(existing, incoming, i, k - 1);
    }
  }

  /** Once edited, a place that is not stored holds the edit up to the first row that displaces it. */
  lemma {:induction false} EditStays(existing: seq<Message>, incoming: seq<Message>, i: nat, k: nat, n: nat)
    requires DistinctIds(existing) && DistinctIds(incoming) && i < |existing| && k < n <= |incoming|
    requires incoming[k].id == existing[i].id && !IsPersisted(existing[i])
    requires forall l :: 0 <= l < k ==> !Displaces(existing, incoming, i, l)
    ensures Held(existing, incoming[..n])[i] == incoming[k]
            <==> forall l :: k < l < n ==> !Displaces(existing, incoming, i, l)
    ensures Held(existing, incoming[..n])[i] in incoming[k..n]
  {
    hide Displaces, IsPersisted, Held;
    if n == k + 1 {
      UndisplacedPlace(existing, incoming, i, k);
      SeatAt(existing, incoming, i, k);
    } else {
      EditStays(existing, incoming, i, k, n - 1);
      SeatAt(existing, incoming, i, n - 1);
      var h := Held(existing, incoming[..n - 1])[i];
      assert h in incoming[k..n - 1] && h.id != incoming[n - 1].id;
      if h == incoming[k] { SameIdPersisted(existing[i], h); }
      assert incoming[k..n] == incoming[k..n - 1] + [incoming[n - 1]];
    }
  }

  /** A row of the batch is at one place only, the one it took on arrival. */
  lemma {:induction false} HeldWhereSeated(existing: seq<Message>, incoming: seq<Message>, j: nat, k: nat, n: nat)
    requires DistinctIds(existing) && DistinctIds(incoming) && j < |existing| && k < n <= |incoming|
    requires Held(existing, incoming[..n])[j] == incoming[k]
    ensures Held(existing, incoming[..k + 1])[j] == incoming[k]
  {
    hide Displaces, IsPersisted, Held;
    if n == k + 1 {
    } else {
      SeatAt(existing, incoming, j, n - 1);
      HeldWhereSeated(existing, incoming, j, k, n - 1);
    }
  }

  /**
   * An edit of a row that is not stored, to a text that no other row has, is lost if and only if a later
   * row of the batch displaces it: a row under a new id that repeats the text from before the edit.
   */
  lemma {:induction false} EditIsLostIffDisplaced(p: Platform, existing: seq<Message>, incoming: seq<Message>, i: nat,
                                                  k: nat)
    requires DistinctIds(existing) && DistinctIds(incoming) && i < |existing| && k < |incoming|
    requires incoming[k].id == existing[i].id && !IsPersisted(existing[i])
    requires forall l :: 0 <= l < k ==> !Displaces(existing, incoming, i, l)
    requires !HasPrint(existing, Fingerprint(incoming[k]))
    requires forall l :: 0 <= l < |incoming| && l != k ==> Fingerprint(incoming[l]) != Fingerprint(incoming[k])
    ensures !HasPrint(Merge(p, existing, incoming), Fingerprint(incoming[k]))
            <==> exists l :: k < l < |incoming| && Displaces(existing, incoming, i, l)
  {
    hide Fingerprint, Merge, Displaces, IsPersisted, Held;
    var n, held, text := |incoming|, Held(existing, incoming), Fingerprint(incoming[k]);
    assert incoming[..n] == incoming;
    TextSurvivesIff(p, existing, incoming, text);
    EditStays(existing, incoming, i, k, n);
    EditStays(existing, incoming, i, k, k + 1);
    UndisplacedPlace(existing, incoming, i, k);
    assert HasId(Held(existing, incoming[..k]), incoming[k].id);
    assert !Arrives(existing, incoming, text);
    HeldDistinct(existing, incoming[..k + 1]);
    forall j | 0 <= j < |existing| && Fingerprint(held[j]) == text ensures j == i && held[j] == incoming[k] {
      HeldFrom(existing, incoming, held[j]);
      assert held[j] == incoming[k];
      HeldWhereSeated(existing, incoming, j, k, n);
    }
    assert HasPrint(held, text) <==> held[i] == incoming[k];
  }

  /** A stored repeat of a rolling row's old text displaces the edit that came before it in the batch. */
  lemma {:induction false} RollingEditIsDisplaced(p: Platform)
    ensures var draft := Message("oc-stream-7", Assistant, "draft", "", None, "");
            var edited, repeated := draft.(content := "final"), draft.(id := "9");
            Merge(p, [draft], [edited, repeated]) == [repeated] && !HasPrint([repeated], Fingerprint(edited))
  {
    var draft := Message("oc-stream-7", Assistant, "draft", "", None, "");
    var edited, repeated := draft.(content := "final"), draft.(id := "9");
    TextsDiffer(draft, edited);
    assert draft.id[0] != repeated.id[0] && IsRolling(edited) && !IsPersisted(edited);
    assert repeated.id[0] != "user-"[0] && repeated.id[0] != "stream-"[0] && !IsOptimistic(repeated);
    assert Fingerprint(repeated) == Fingerprint(draft);
    EditThenOther(draft, edited, repeated);
    assert SortBy(Order(p), [repeated]) == [repeated];
  }

  // ---------------------------------------------------------------- a whole merge: doubled texts

  /** No place holds a text that also got a place of its own. */
  ghost predicate AddedApart(existing: seq<Message>, incoming: seq<Message>) {
    forall text :: Arrives(existing, incoming, text) && !HasPrint(existing, text)
      ==> !HasPrint(Held(existing, incoming), text)
  }

  lemma {:induction false} TrackedDistinct(existing: seq<Message>, incoming: seq<Message>, s: State)
    requires Tracked(existing, incoming, s)
    ensures DistinctPrints(s.merged) <==> DistinctPrints(Held(existing, incoming)) && AddedApart(existing, incoming)
  {
    hide Fingerprint, Held, Arrives, LastWith;
    var held := Held(existing, incoming);
    assert forall i :: 0 <= i < |existing| ==> s.merged[i] == held[i];
    if DistinctPrints(s.merged) {
      forall text | Arrives(existing, incoming, text) && !HasPrint(existing, text) ensures !HasPrint(held, text) {
        assert PointsRight(existing, s, text);
      }
    }
    if DistinctPrints(held) && AddedApart(existing, incoming) {
      forall i, j | 0 <= i < j < |s.merged| ensures Fingerprint(s.merged[i]) != Fingerprint(s.merged[j]) {
        if j >= |existing| {
          assert AddedPlace(existing, incoming, s, j);
          if i >= |existing| { assert AddedPlace(existing, incoming, s, i); }
        }
      }
    }
  }

  /**
   * A merge leaves one row per text if and only if the places of the existing rows hold different texts at
   * the end, and none of them holds a text that got a place of its own.
   */
  lemma {:induction false} OneRowPerTextIff(p: Platform, existing: seq<Message>, incoming: seq<Message>)
    requires DistinctIds(existing) && DistinctIds(incoming)
    ensures DistinctPrints(Merge(p, existing, incoming))
            <==> DistinctPrints(Held(existing, incoming)) && AddedApart(existing, incoming)
  {
    hide Fingerprint, AddedApart, Held;
    var s := Run(Start(existing), incoming);
    RunTracked(existing, incoming);
    TrackedDistinct(existing, incoming, s);
    if s.changed {
      SortMultiset(Order(p), s.merged);
      if DistinctPrints(s.merged) { PrintsPermute(s.merged, Merge(p, existing, incoming)); }
      if DistinctPrints(Merge(p, existing, incoming)) { PrintsPermute(Merge(p, existing, incoming), s.merged); }
    } else {
      UnchangedRun(Start(existing), incoming);
    }
  }

  /** An edit and a new row with one text: both stay. */
  lemma {:induction false} EditCanDouble(p: Platform)
    ensures var draft := Message("1", Assistant, "draft", "", None, "");
            var edited, twin := draft.(content := "final"), draft.(id := "2", content := "final");
            var r := Merge(p, [draft], [edited, twin]);
            edited in r && twin in r && !DistinctPrints(r)
  {
    var draft := Message("1", Assistant, "draft", "", None, "");
    var edited, twin := draft.(content := "final"), draft.(id := "2", content := "final");
    TextsDiffer(draft, edited);
    assert "1"[0] != "2"[0] && Fingerprint(twin) == Fingerprint(edited);
    EditMeetsTwin(p, draft, edited, twin);
  }

  lemma {:induction false} EditMeetsTwin(p: Platform, draft: Message, edited: Message, twin: Message)
    requires edited.id == draft.id && twin.id != draft.id
    requires Fingerprint(edited) != Fingerprint(draft) && Fingerprint(twin) == Fingerprint(edited)
    ensures var r := Merge(p, [draft], [edited, twin]); edited in r && twin in r && !DistinctPrints(r)
  {
    hide Fingerprint, Run, Start, SortBy;
    EditThenOther(draft, edited, twin);
    var r := Merge(p, [draft], [edited, twin]);
    SortMembers(Order(p), [edited, twin]);
    assert edited in r && twin in r;
    var i, j :| 0 <= i < |r| && 0 <= j < |r| && r[i] == edited && r[j] == twin;
    assert i < j || j < i;
  }

  // ---------------------------------------------------------------- rows without a valid time

  function Undated(p: Platform): Message -> bool { (m: Message) => p.parse(m.timestamp).None? }

  /** All undated rows tie, so a sort keeps their order. */
  lemma {:induction false} SortKeepsUndated(p: Platform, rows: seq<Message>)
    requires Collation(p.compare)
    ensures Filter(Undated(p), SortChatMessages(p, rows)) == Filter(Undated(p), rows)
  {
    var sorted := SortChatMessages(p, rows);
    OrderIsPreorder(p);
    SortMembers(Order(p), rows);
    if y :| y in rows && Undated(p)(y) {
      SortStable(Order(p), rows, y);
      FilterSame(Undated(p), Tie(Order(p), y), rows);
      FilterSame(Undated(p), Tie(Order(p), y), sorted);
    } else {
      FilterNone(Undated(p), rows);
      FilterNone(Undated(p), sorted);
    }
  }

  lemma {:induction false} FilterNone(keep: Message -> bool, rows: seq<Message>)
    requires forall m :: m in rows ==> !keep(m)
    ensures Filter(keep, rows) == []
  {
    if rows == [] {
    } else {
      FilterNone(keep, rows[1..]);
    }
  }

  /** The places of the existing rows keep their order through a merge, ahead of the undated rows that it adds. */
  lemma {:induction false} UndatedRowsKeepOrder(p: Platform, existing: seq<Message>, incoming: seq<Message>)
    requires Collation(p.compare) && DistinctIds(existing) && DistinctIds(incoming)
    ensures Filter(Undated(p), Held(existing, incoming)) <= Filter(Undated(p), Merge(p, existing, incoming))
  {
    hide Fingerprint, Held, Run, SortBy;
    var s, held := Run(Start(existing), incoming), Held(existing, incoming);
    PlacesLead(existing, incoming);
    assert s.merged == held + s.merged[|held|..];
    FilterAppend(Undated(p), held, s.merged[|held|..]);
    if s.changed {
      SortKeepsUndated(p, s.merged);
    } else {
      UnchangedRun(Start(existing), incoming);
    }
  }
}
