/**
 * What the results on merging say of roles, kinds, contents, metadata and ids themselves
 * (ui/lib/chatMessages.ts:42-139).
 */
module ChatTextTheorems {
  import opened Wrappers
  import opened Sequences
  import opened ChatMessages
  import opened ChatMergeTheorems
  import opened ChatDedupTheorems
  import opened ChatPlaces
  import opened ChatLossTheorems

  // ---------------------------------------------------------------- which rows have one fingerprint

  /** The kind of a row: absent means text. */
  function KindOf(m: Message): EventType { match m.eventType case None => TextEvent case Some(e) => e }

  /** Nothing to tell two rows apart but id and time. */
  predicate SameText(a: Message, b: Message) {
    a.role == b.role && KindOf(a) == KindOf(b) && a.content == b.content && a.meta == b.meta
  }

  const SEPARATOR := '\U{001F}'

  lemma {:induction false} SplitAtFirst(a: string, b: string, c: string, d: string)
    requires a + [SEPARATOR] + b == c + [SEPARATOR] + d && SEPARATOR !in a && SEPARATOR !in c
    ensures a == c && b == d
  {
    var s := a + [SEPARATOR] + b;
    assert s[|a|] == SEPARATOR && s[|c|] == SEPARATOR;
    forall i | 0 <= i < |a| ensures s[i] != SEPARATOR { assert s[i] == a[i]; }
    forall i | 0 <= i < |c| ensures s[i] != SEPARATOR { assert s[i] == c[i]; }
    assert s[..|a|] == a && s[..|c|] == c && s[|a| + 1..] == b && s[|c| + 1..] == d;
  }

  lemma {:induction false} SplitAtLast(a: string, b: string, c: string, d: string)
    requires a + [SEPARATOR] + b == c + [SEPARATOR] + d && SEPARATOR !in b && SEPARATOR !in d
    ensures a == c && b == d
  {
    var s := a + [SEPARATOR] + b;
    assert s[|a|] == SEPARATOR && s[|c|] == SEPARATOR;
    forall i | |a| < i < |s| ensures s[i] != SEPARATOR { assert s[i] == b[i - |a| - 1]; }
    forall i | |c| < i < |s| ensures s[i] != SEPARATOR { assert s[i] == d[i - |c| - 1]; }
    assert s[..|a|] == a && s[..|c|] == c && s[|a| + 1..] == b && s[|c| + 1..] == d;
  }

  lemma {:induction false} NamesDiffer(r: Role, r': Role, e: EventType, e': EventType)
    ensures SEPARATOR !in RoleText(r) && SEPARATOR !in EventText(e)
    ensures RoleText(r) == RoleText(r') ==> r == r'
    ensures EventText(e) == EventText(e') ==> e == e'
  {
    assert RoleText(User)[0] == 'u' && RoleText(Assistant)[0] == 'a' && RoleText(System)[0] == 's';
    assert EventText(TextEvent)[..2] == "te" && EventText(Thought)[..2] == "th" && EventText(SystemEvent)[..2] == "sy";
    assert EventText(ToolCall)[..6] == "tool_c" && EventText(ToolResult)[..6] == "tool_r";
    assert EventText(ToolCall)[..2] == "to" && EventText(ToolResult)[..2] == "to" && EventText(ErrorEvent)[..2] == "er";
    assert EventText(TurnStart)[..2] == "tu" && EventText(TurnEnd)[..2] == "tu";
    assert EventText(TurnStart)[..6] == "turn_s" && EventText(TurnEnd)[..6] == "turn_e";
  }

  /**
   * Rows with one fingerprint have one role and one kind; and where the metadata, as JSON text, has no
   * separator, rows have one fingerprint if and only if nothing but id and time tells them apart.
   */
  lemma {:induction false} SamePrintIff(a: Message, b: Message)
    ensures Fingerprint(a) == Fingerprint(b) ==> a.role == b.role && KindOf(a) == KindOf(b)
    ensures SEPARATOR !in a.meta && SEPARATOR !in b.meta ==> (Fingerprint(a) == Fingerprint(b) <==> SameText(a, b))
  {
    hide RoleText, EventText;
    NamesDiffer(a.role, b.role, KindOf(a), KindOf(b));
    NamesDiffer(b.role, a.role, KindOf(b), KindOf(a));
    var sep := [SEPARATOR];
    var rest, rest' := a.content + sep + a.meta, b.content + sep + b.meta;
    var tail, tail' := EventText(KindOf(a)) + sep + rest, EventText(KindOf(b)) + sep + rest';
    assert Fingerprint(a) == RoleText(a.role) + sep + tail;
    assert Fingerprint(b) == RoleText(b.role) + sep + tail';
    if Fingerprint(a) == Fingerprint(b) {
      SplitAtFirst(RoleText(a.role), tail, RoleText(b.role), tail');
      SplitAtFirst(EventText(KindOf(a)), rest, EventText(KindOf(b)), rest');
      if SEPARATOR !in a.meta && SEPARATOR !in b.meta { SplitAtLast(a.content, a.meta, b.content, b.meta); }
    }
  }

  ghost predicate PlainMeta(rows: seq<Message>) { forall m :: m in rows ==> SEPARATOR !in m.meta }

  // ---------------------------------------------------------------- what a merge does with a row

  /** A row under a new id that differs from every other row in more than id and time is in the result. */
  lemma {:induction false} NewRowIsKept(p: Platform, existing: seq<Message>, incoming: seq<Message>, m: Message)
    requires DistinctIds(existing) && DistinctIds(incoming) && PlainMeta(existing + incoming)
    requires m in incoming && !HasId(existing, m.id)
    requires forall x :: x in existing || (x in incoming && x != m) ==> !SameText(x, m)
    ensures m in Merge(p, existing, incoming)
  {
    hide Fingerprint, Merge, Held, Arrives;
    var text := Fingerprint(m);
    forall x | x in existing || x in incoming ensures Fingerprint(x) == text <==> x == m {
      assert x in existing + incoming && m in existing + incoming;
      SamePrintIff(x, m);
    }
    assert forall i :: 0 <= i < |existing| ==> existing[i].id != m.id;
    NewIdArrives(existing, incoming, m);
    TextSurvivesIff(p, existing, incoming, text);
    MergeKeepsStoredRows(p, existing, incoming);
    var i :| 0 <= i < |Merge(p, existing, incoming)| && Fingerprint(Merge(p, existing, incoming)[i]) == text;
    assert Merge(p, existing, incoming)[i] in Merge(p, existing, incoming);
  }

  /** What a merge of one row leaves, in the order of the places. */
  lemma {:induction false} MergeOfOne(p: Platform, existing: seq<Message>, m: Message)
    requires DistinctIds(existing)
    ensures Run(Start(existing), [m]) == Step(Start(existing), m)
    ensures multiset(Merge(p, existing, [m])) == multiset(Step(Start(existing), m).merged)
  {
    var s := Run(Start(existing), [m]);
    assert [m][..0] == [];
    assert Run(Start(existing), []) == Start(existing);
    if s.changed { SortMultiset(Order(p), s.merged); } else { UnchangedRun(Start(existing), [m]); }
  }

  /** The only row with the text of `m`, under another id. */
  ghost predicate OnlyTwin(existing: seq<Message>, i: nat, m: Message) {
    && i < |existing| && SameText(existing[i], m)
    && forall j :: 0 <= j < |existing| && j != i ==> !SameText(existing[j], m)
  }

  lemma {:induction false} TwinIsFound(existing: seq<Message>, i: nat, m: Message)
    requires DistinctIds(existing) && PlainMeta(existing + [m]) && OnlyTwin(existing, i, m) && !HasId(existing, m.id)
    ensures var s := Start(existing);
            m.id !in s.byId && Fingerprint(m) in s.byPrint && s.byPrint[Fingerprint(m)] == i
  {
    hide Fingerprint;
    var s := Start(existing);
    StartIndexesIds(existing);
    forall j | 0 <= j < |existing| ensures Fingerprint(existing[j]) == Fingerprint(m) <==> j == i {
      assert existing[j] in existing + [m] && m in existing + [m];
      SamePrintIff(existing[j], m);
    }
    IndexIsLast(existing, Fingerprint(m));
    assert HasPrint(existing, Fingerprint(m));
  }

  /**
   * The stored row takes the place of the optimistic or rolling row that it repeats: ids that begin with
   * "user-", "stream-" or "oc-stream-". A rolling row takes it too, an optimistic one does not.
   */
  lemma {:induction false} EchoIsReplaced(p: Platform, existing: seq<Message>, i: nat, m: Message)
    requires DistinctIds(existing) && PlainMeta(existing + [m]) && OnlyTwin(existing, i, m) && !HasId(existing, m.id)
    requires "user-" <= existing[i].id || "stream-" <= existing[i].id || "oc-stream-" <= existing[i].id
    requires !("user-" <= m.id) && !("stream-" <= m.id)
    ensures multiset(Merge(p, existing, [m])) == multiset(existing[i := m])
  {
    hide Fingerprint;
    TwinIsFound(existing, i, m);
    MergeOfOne(p, existing, m);
  }

  /** A repeat of a stored row is dropped, and so is an optimistic repeat of any row. */
  lemma {:induction false} RepeatIsDropped(p: Platform, existing: seq<Message>, i: nat, m: Message)
    requires DistinctIds(existing) && PlainMeta(existing + [m]) && OnlyTwin(existing, i, m) && !HasId(existing, m.id)
    requires || (!("user-" <= existing[i].id) && !("stream-" <= existing[i].id) && !("oc-stream-" <= existing[i].id))
             || "user-" <= m.id || "stream-" <= m.id
    ensures Merge(p, existing, [m]) == existing
  {
    hide Step, Start;
    RepeatChangesNothing(existing, i, m);
    MergeOfOne(p, existing, m);
    assert !Step(Start(existing), m).changed;
  }

  lemma {:induction false} RepeatChangesNothing(existing: seq<Message>, i: nat, m: Message)
    requires DistinctIds(existing) && PlainMeta(existing + [m]) && OnlyTwin(existing, i, m) && !HasId(existing, m.id)
    requires || (!("user-" <= existing[i].id) && !("stream-" <= existing[i].id) && !("oc-stream-" <= existing[i].id))
             || "user-" <= m.id || "stream-" <= m.id
    ensures !Step(Start(existing), m).changed
  {
    hide Fingerprint, PlainMeta, DistinctIds, HasId, OnlyTwin;
    TwinIsFound(existing, i, m);
    assert i < |existing| by { TwinIsThere(existing, i, m); }
  }

  lemma {:induction false} TwinIsThere(existing: seq<Message>, i: nat, m: Message)
    requires OnlyTwin(existing, i, m)
    ensures i < |existing|
  {
  }

  // ---------------------------------------------------------------- the order of the rows

  /** The kinds in the order in which the work happens. */
  const WORK_ORDER: seq<EventType> :=
    [TurnStart, Thought, ToolCall, ToolResult, TextEvent, TurnEnd, SystemEvent, ErrorEvent]

  /** At one instant: the earlier kind first, and among one kind the id that comes first. */
  ghost predicate BeforeAtOnce(p: Platform, a: Message, b: Message) {
    || (exists i, j :: 0 <= i < j < 8 && WORK_ORDER[i] == KindOf(a) && WORK_ORDER[j] == KindOf(b))
    || (KindOf(a) == KindOf(b) && p.compare(a.id, b.id) <= 0)
  }

  /** The earlier time first, and no valid time last; what is at one instant by kind and id. */
  ghost predicate ShownBefore(p: Platform, a: Message, b: Message) {
    match (p.parse(a.timestamp), p.parse(b.timestamp))
    case (Some(ta), Some(tb)) => ta < tb || (ta == tb && BeforeAtOnce(p, a, b))
    case (None, Some(_)) => false
    case _ => true
  }

  lemma {:induction false} OrderIsWorkOrder(p: Platform, a: Message, b: Message)
    ensures MessageLe(p, a, b) <==> ShownBefore(p, a, b)
  {
    forall i, j | 0 <= i < 8 && 0 <= j < 8 && WORK_ORDER[i] == KindOf(a) && WORK_ORDER[j] == KindOf(b)
      ensures EventRank(Event(a)) == i && EventRank(Event(b)) == j
    {
    }
    assert WORK_ORDER[EventRank(Event(a))] == KindOf(a) && WORK_ORDER[EventRank(Event(b))] == KindOf(b);
  }

  lemma {:induction false} SortedIsShown(p: Platform, rows: seq<Message>)
    requires Collation(p.compare)
    ensures var r := SortChatMessages(p, rows); forall i, j :: 0 <= i < j < |r| ==> ShownBefore(p, r[i], r[j])
  {
    OrderIsPreorder(p);
    SortSorted(Order(p), rows);
    var r := SortChatMessages(p, rows);
    forall i, j | 0 <= i < j < |r| ensures ShownBefore(p, r[i], r[j]) {
      assert Order(p)(r[i], r[j]);
      OrderIsWorkOrder(p, r[i], r[j]);
    }
  }

  /** A merge that changes anything, and every reconciliation, shows its rows in this order. */
  lemma {:induction false} RowsAreShownInOrder(p: Platform, existing: seq<Message>, incoming: seq<Message>)
    requires Collation(p.compare)
    ensures var r := Merge(p, existing, incoming);
            r == existing || forall i, j :: 0 <= i < j < |r| ==> ShownBefore(p, r[i], r[j])
    ensures var r := Reconcile(p, existing, incoming);
            forall i, j :: 0 <= i < j < |r| ==> ShownBefore(p, r[i], r[j])
  {
    var kept := WithoutStaleRolling(existing, incoming);
    SortedIsShown(p, Run(Start(existing), incoming).merged);
    SortedIsShown(p, Run(Start(kept), incoming).merged);
    SortedIsShown(p, kept);
  }

  // ---------------------------------------------------------------- what a snapshot leaves alone

  /** What the snapshot is merged into: all rows but the rolling ones whose ids it does not bring again. */
  lemma {:induction false} StaleRowsAreDropped(existing: seq<Message>, incoming: seq<Message>, x: Message)
    ensures x in WithoutStaleRolling(existing, incoming) <==>
              x in existing && ("oc-stream-" <= x.id ==> exists m :: m in incoming && m.id == x.id)
  {
    FilterMembers(NotStale(incoming), existing);
  }

  /**
   * Reconciling drops an existing row only if it is rolling and not in the snapshot: any other row that
   * the snapshot neither updates nor repeats is still there, as it was.
   */
  lemma {:induction false} ReconcileKeepsOthers(p: Platform, existing: seq<Message>, incoming: seq<Message>, x: Message)
    requires DistinctIds(existing) && DistinctIds(incoming) && PlainMeta(existing + incoming)
    requires x in existing && forall m :: m in incoming ==> m.id != x.id && !SameText(m, x)
    ensures x in Reconcile(p, existing, incoming) <==> !("oc-stream-" <= x.id)
  {
    hide Fingerprint, Held, Merge, Run, Start;
    var kept := WithoutStaleRolling(existing, incoming);
    FilterMembers(NotStale(incoming), existing);
    FilterDistinctIds(NotStale(incoming), existing);
    MergeKeepsStoredRows(p, kept, incoming);
    SortMembers(Order(p), kept);
    if x in kept {
      var i :| 0 <= i < |kept| && kept[i] == x;
      Undisturbed(kept, incoming, i);
      PlacesLead(kept, incoming);
      var s := Run(Start(kept), incoming);
      assert s.merged[i] == Held(kept, incoming)[i] == x;
      ReconcileHas(p, existing, incoming, x);
    } else {
      if x in Reconcile(p, existing, incoming) { ReconcileFrom(p, existing, incoming, x); }
    }
  }

  lemma {:induction false} ReconcileHas(p: Platform, existing: seq<Message>, incoming: seq<Message>, x: Message)
    requires x in Run(Start(WithoutStaleRolling(existing, incoming)), incoming).merged
    ensures x in Reconcile(p, existing, incoming)
  {
    var kept := WithoutStaleRolling(existing, incoming);
    SortMembers(Order(p), kept);
    SortMembers(Order(p), Run(Start(kept), incoming).merged);
    if !Run(Start(kept), incoming).changed { UnchangedRun(Start(kept), incoming); }
  }

  lemma {:induction false} ReconcileFrom(p: Platform, existing: seq<Message>, incoming: seq<Message>, x: Message)
    requires DistinctIds(WithoutStaleRolling(existing, incoming)) && x in Reconcile(p, existing, incoming)
    ensures x in WithoutStaleRolling(existing, incoming) || x in incoming
  {
    var kept := WithoutStaleRolling(existing, incoming);
    MergeKeepsStoredRows(p, kept, incoming);
    SortMembers(Order(p), kept);
  }

  /** A place whose id and text the batch does not have is left as it is. */
  lemma {:induction false} Undisturbed(existing: seq<Message>, incoming: seq<Message>, i: nat)
    requires DistinctIds(existing) && DistinctIds(incoming) && PlainMeta(existing + incoming) && i < |existing|
    requires forall m :: m in incoming ==> m.id != existing[i].id && !SameText(m, existing[i])
    ensures Held(existing, incoming)[i] == existing[i]
  {
    hide Fingerprint, LastWith, PlaceOf, IsPersisted, IsOptimistic;
    if incoming == [] {
    } else {
      var n := |incoming| - 1;
      assert forall m :: m in existing + incoming[..n] ==> m in existing + incoming;
      Undisturbed(existing, incoming[..n], i);
      assert existing[i] in existing + incoming && incoming[n] in existing + incoming;
      SamePrintIff(incoming[n], existing[i]);
    }
  }
}
