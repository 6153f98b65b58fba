/** What merging and reconciling chat rows keeps, loses and leaves alone. */
module ChatMergeTheorems {
  import opened Wrappers
  import opened Sequences
  import opened ChatMessages

  // ---------------------------------------------------------------- the id index is always exact

  ghost predicate DistinctIds(s: seq<Message>) {
    forall i, j :: 0 <= i < j < |s| ==> s[i].id != s[j].id
  }

  /** `indexById` is the inverse of "the id at position i". */
  ghost predicate IdsIndexed(s: State) {
    && s.InRange()
    && (forall i :: 0 <= i < |s.merged| ==> s.merged[i].id in s.byId && s.byId[s.merged[i].id] == i)
    && (forall id :: id in s.byId ==> s.merged[s.byId[id]].id == id)
  }

  lemma {:induction false} StartIndexesIds(existing: seq<Message>)
    requires DistinctIds(existing)
    ensures IdsIndexed(Start(existing))
  {
    forall i | 0 <= i < |existing|
      ensures existing[i].id in Start(existing).byId && Start(existing).byId[existing[i].id] == i
    {
      assert IdOf(existing[i]) in Start(existing).byId;
      var j := Start(existing).byId[existing[i].id];
      assert IdOf(existing[j]) == existing[i].id;
    }
    forall id | id in Start(existing).byId ensures existing[Start(existing).byId[id]].id == id {
      assert IdOf(existing[Start(existing).byId[id]]) == id;
    }
  }

  lemma {:induction false} StepIndexesIds(s: State, m: Message)
    requires IdsIndexed(s)
    ensures IdsIndexed(Step(s, m))
  {
  }

  /** With distinct ids to start from, the id index is exact after every row of the batch. */
  lemma {:induction false} RunIndexesIds(existing: seq<Message>, incoming: seq<Message>)
    requires DistinctIds(existing)
    ensures IdsIndexed(Run(Start(existing), incoming))
  {
    if incoming == [] {
      StartIndexesIds(existing);
    } else {
      RunIndexesIds(existing, incoming[..|incoming| - 1]);
      StepIndexesIds(Run(Start(existing), incoming[..|incoming| - 1]), incoming[|incoming| - 1]);
    }
  }

  ghost predicate HasId(s: seq<Message>, id: string) {
    exists i :: 0 <= i < |s| && s[i].id == id
  }

  /** Rows come from one of the two inputs, and a stored row keeps its place under its id. */
  ghost predicate Accounted(existing: seq<Message>, incoming: seq<Message>, result: seq<Message>) {
    && (forall m :: m in result ==> m in existing || m in incoming)
    && (forall m :: m in existing && IsPersisted(m) ==> HasId(result, m.id))
  }

  lemma {:induction false} StepKeepsPlaces(s: State, m: Message)
    requires IdsIndexed(s)
    ensures |Step(s, m).merged| >= |s.merged|
    ensures forall i :: 0 <= i < |s.merged| && IsPersisted(s.merged[i]) ==> Step(s, m).merged[i].id == s.merged[i].id
    ensures forall x :: x in Step(s, m).merged ==> x in s.merged || x == m
  {
  }

  lemma {:induction false} StepAccounts(existing: seq<Message>, before: seq<Message>, s: State, m: Message)
    requires IdsIndexed(s) && Accounted(existing, before, s.merged)
    ensures Accounted(existing, before + [m], Step(s, m).merged)
  {
    StepKeepsPlaces(s, m);
    var s' := Step(s, m);
    forall x | x in existing && IsPersisted(x) ensures HasId(s'.merged, x.id) {
      var i :| 0 <= i < |s.merged| && s.merged[i].id == x.id;
      assert s'.merged[i].id == x.id;
    }
  }

  lemma {:induction false} RunAccounts(existing: seq<Message>, incoming: seq<Message>)
    requires DistinctIds(existing)
    ensures Accounted(existing, incoming, Run(Start(existing), incoming).merged)
  {
    if incoming == [] {
      forall m | m in existing ensures HasId(existing, m.id) {
        var i :| 0 <= i < |existing| && existing[i] == m;
      }
    } else {
      var n := |incoming| - 1;
      RunAccounts(existing, incoming[..n]);
      RunIndexesIds(existing, incoming[..n]);
      StepAccounts(existing, incoming[..n], Run(Start(existing), incoming[..n]), incoming[n]);
      assert incoming == incoming[..n] + [incoming[n]];
    }
  }

  lemma {:induction false} AccountedPermutes(existing: seq<Message>, incoming: seq<Message>, a: seq<Message>,
                                             b: seq<Message>)
    requires Accounted(existing, incoming, a) && forall m :: m in a <==> m in b
    ensures Accounted(existing, incoming, b)
  {
    forall m | m in existing && IsPersisted(m) ensures HasId(b, m.id) {
      var i :| 0 <= i < |a| && a[i].id == m.id;
      assert a[i] in b;
      var j :| 0 <= j < |b| && b[j] == a[i];
    }
  }

  lemma {:induction false} IndexedIdsDistinct(s: State, t: seq<Message>)
    requires IdsIndexed(s) && multiset(t) == multiset(s.merged)
    ensures DistinctIds(t)
  {
    assert Distinct(s.merged) by {
      forall i, j | 0 <= i < j < |s.merged| ensures s.merged[i] != s.merged[j] { }
    }
    DistinctByMultiset(s.merged, t);
    forall i, j | 0 <= i < j < |t| ensures t[i].id != t[j].id {
      assert t[i] in multiset(s.merged) && t[j] in multiset(s.merged);
      assert t[i] != t[j];
    }
  }

  /**
   * Any merge from distinct ids: ids stay distinct, no row is invented, and no stored row is
   * dropped. Nothing is asked of the incoming batch.
   */
  lemma {:induction false} MergeKeepsStoredRows(p: Platform, existing: seq<Message>, incoming: seq<Message>)
    requires DistinctIds(existing)
    ensures DistinctIds(Merge(p, existing, incoming))
    ensures Accounted(existing, incoming, Merge(p, existing, incoming))
  {
    var s := Run(Start(existing), incoming);
    RunIndexesIds(existing, incoming);
    RunAccounts(existing, incoming);
    if s.changed {
      SortMultiset(Order(p), s.merged);
      SortMembers(Order(p), s.merged);
      IndexedIdsDistinct(s, Merge(p, existing, incoming));
      AccountedPermutes(existing, incoming, s.merged, Merge(p, existing, incoming));
    } else {
      UnchangedRun(Start(existing), incoming);
    }
  }

  /** Times ascend, rows without a valid time come last, and a turn's tool events precede its text. */
  ghost predicate Chronological(p: Platform, a: Message, b: Message) {
    match (p.parse(a.timestamp), p.parse(b.timestamp))
    case (None, Some(_)) => false
    case (Some(ta), Some(tb)) => ta <= tb && (ta == tb && Event(b) in {ToolCall, ToolResult} ==> Event(a) != TextEvent)
    case _ => true
  }

  /** A merge that changes anything returns its rows in order. */
  lemma {:induction false} ChangedMergeIsChronological(p: Platform, existing: seq<Message>, incoming: seq<Message>)
    requires Collation(p.compare) && Run(Start(existing), incoming).changed
    ensures var r := Merge(p, existing, incoming);
            forall i, j :: 0 <= i < j < |r| ==> Chronological(p, r[i], r[j])
  {
    OrderIsPreorder(p);
    SortSorted(Order(p), Run(Start(existing), incoming).merged);
    var r := Merge(p, existing, incoming);
    forall i, j | 0 <= i < j < |r| ensures Chronological(p, r[i], r[j]) {
      assert Order(p)(r[i], r[j]);
    }
  }

  lemma {:induction false} StepKeepsRow(s: State, m: Message, row: Message)
    requires IdsIndexed(s) && row in s.merged && IsPersisted(row) && row.id != m.id
    ensures row in Step(s, m).merged
  {
    var i :| 0 <= i < |s.merged| && s.merged[i] == row;
    assert Step(s, m).merged[i] == row;
  }

  lemma {:induction false} StepUpdates(s: State, m: Message)
    requires IdsIndexed(s) && HasId(s.merged, m.id)
    ensures m in Step(s, m).merged
  {
    hide Fingerprint;
    var i :| 0 <= i < |s.merged| && s.merged[i].id == m.id;
    assert Step(s, m).merged[i] == m;
  }

  lemma {:induction false} SameIdPersisted(a: Message, b: Message)
    requires a.id == b.id
    ensures IsPersisted(a) == IsPersisted(b)
  {
  }

  /** A row whose id is stored under `existing` finds that id wherever the run has got to. */
  lemma {:induction false} StoredIdStays(existing: seq<Message>, incoming: seq<Message>, m: Message)
    requires DistinctIds(existing) && IsPersisted(m) && HasId(existing, m.id)
    ensures HasId(Run(Start(existing), incoming).merged, m.id)
  {
    hide Run, Start;
    RunAccounts(existing, incoming);
    var i :| 0 <= i < |existing| && existing[i].id == m.id;
    SameIdPersisted(existing[i], m);
    assert existing[i] in existing;
  }

  /** An update of a stored row arrives: the result holds the incoming version itself. */
  lemma {:induction false} UpdatesArrive(existing: seq<Message>, incoming: seq<Message>, m: Message)
    requires DistinctIds(existing) && DistinctIds(incoming)
    requires m in incoming && IsPersisted(m) && HasId(existing, m.id)
    ensures m in Run(Start(existing), incoming).merged
  {
    hide IsPersisted, Step, IdsIndexed, HasId, Start;
    var n := |incoming| - 1;
    var s := Run(Start(existing), incoming[..n]);
    RunIndexesIds(existing, incoming[..n]);
    if m == incoming[n] {
      StoredIdStays(existing, incoming[..n], m);
      StepUpdates(s, m);
    } else {
      assert m in incoming[..n] && m.id != incoming[n].id;
      UpdatesArrive(existing, incoming[..n], m);
      StepKeepsRow(s, incoming[n], m);
    }
  }

  /** The same for the merge as a whole. */
  lemma {:induction false} MergeDeliversUpdates(p: Platform, existing: seq<Message>, incoming: seq<Message>, m: Message)
    requires DistinctIds(existing) && DistinctIds(incoming)
    requires m in incoming && IsPersisted(m) && HasId(existing, m.id)
    ensures m in Merge(p, existing, incoming)
  {
    UpdatesArrive(existing, incoming, m);
    SortMembers(Order(p), Run(Start(existing), incoming).merged);
    if !Run(Start(existing), incoming).changed { UnchangedRun(Start(existing), incoming); }
  }

  lemma {:induction false} UnchangedRun(s: State, incoming: seq<Message>)
    requires s.InRange() && !Run(s, incoming).changed
    ensures Run(s, incoming) == s
  {
    if incoming == [] {
    } else {
      UnchangedRun(s, incoming[..|incoming| - 1]);
    }
  }

  /** After reconciling with a snapshot, every rolling row left is one of the snapshot's. */
  lemma {:induction false} ReconcileDropsStaleRollingRows(p: Platform, existing: seq<Message>, incoming: seq<Message>)
    requires DistinctIds(existing)
    ensures var r := Reconcile(p, existing, incoming);
            && DistinctIds(r)
            && (forall m :: m in r && IsRolling(m) ==> HasId(incoming, m.id))
            && (forall m :: m in existing && IsPersisted(m) ==> HasId(r, m.id))
  {
    var kept := WithoutStaleRolling(existing, incoming);
    FilterDistinctIds(NotStale(incoming), existing);
    FilterMembers(NotStale(incoming), existing);
    MergeKeepsStoredRows(p, kept, incoming);
    var r := Reconcile(p, existing, incoming);
    if !Run(Start(kept), incoming).changed {
      StartIndexesIds(kept);
      SortMultiset(Order(p), kept);
      SortMembers(Order(p), kept);
      IndexedIdsDistinct(Start(kept), r);
      AccountedPermutes(kept, incoming, kept, r);
    }
    forall m | m in r && IsRolling(m) ensures HasId(incoming, m.id) {
      if m in incoming {
        var i :| 0 <= i < |incoming| && incoming[i] == m;
      } else {
        var n :| n in incoming && n.id == m.id;
        var i :| 0 <= i < |incoming| && incoming[i] == n;
      }
    }
  }

  lemma {:induction false} FilterDistinctIds(keep: Message -> bool, s: seq<Message>)
    requires DistinctIds(s)
    ensures DistinctIds(Filter(keep, s))
  {
    if s == [] {
    } else {
      FilterDistinctIds(keep, s[1..]);
      FilterMembers(keep, s[1..]);
      forall m | m in Filter(keep, s[1..]) ensures m.id != s[0].id {
        var i :| 0 <= i < |s[1..]| && s[1..][i] == m;
      }
    }
  }
}
