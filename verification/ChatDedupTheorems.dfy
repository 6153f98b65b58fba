/** How a merge of chat rows removes duplicates, as long as a recurring id keeps its fingerprint. */
module ChatDedupTheorems {
  import opened Wrappers
  import opened Sequences
  import opened ChatMessages
  import opened ChatMergeTheorems

  ghost predicate DistinctPrints(s: seq<Message>) {
    forall i, j :: 0 <= i < j < |s| ==> Fingerprint(s[i]) != Fingerprint(s[j])
  }

  /** No id occurs with two fingerprints. */
  ghost predicate IdsKeepPrints(s: seq<Message>) {
    forall x, y :: x in s && y in s && x.id == y.id ==> Fingerprint(x) == Fingerprint(y)
  }

  /** `indexByFingerprint` is the inverse of "the fingerprint at position i". */
  ghost predicate PrintsIndexed(s: State) {
    && s.InRange()
    && (forall i :: 0 <= i < |s.merged| ==>
          Fingerprint(s.merged[i]) in s.byPrint && s.byPrint[Fingerprint(s.merged[i])] == i)
    && (forall f :: f in s.byPrint ==> Fingerprint(s.merged[s.byPrint[f]]) == f)
  }

  lemma {:induction false} StartIndexesPrints(existing: seq<Message>)
    requires DistinctPrints(existing)
    ensures PrintsIndexed(Start(existing))
  {
    forall i | 0 <= i < |existing|
      ensures Fingerprint(existing[i]) in Start(existing).byPrint
          && Start(existing).byPrint[Fingerprint(existing[i])] == i
    {
      var j := Start(existing).byPrint[Fingerprint(existing[i])];
      assert Fingerprint(existing[j]) == Fingerprint(existing[i]);
    }
  }

  /** The row keeps the fingerprint that its id has, if the id is known. */
  ghost predicate KeepsPrint(s: State, m: Message)
    requires s.InRange()
  {
    m.id in s.byId ==> Fingerprint(m) == Fingerprint(s.merged[s.byId[m.id]])
  }

  lemma {:induction false} StepKeepsPrintIndex(s: State, m: Message)
    requires IdsIndexed(s) && PrintsIndexed(s) && KeepsPrint(s, m)
    ensures PrintsIndexed(Step(s, m))
  {
    hide Fingerprint, IsOptimistic, IsRolling;
    var s' := Step(s, m);
    forall i | 0 <= i < |s'.merged|
      ensures Fingerprint(s'.merged[i]) in s'.byPrint && s'.byPrint[Fingerprint(s'.merged[i])] == i
    {
      assert i == |s.merged| || Fingerprint(s'.merged[i]) == Fingerprint(s.merged[i]);
    }
  }

  lemma {:induction false} StepLosesPrintIndex(s: State, m: Message)
    requires IdsIndexed(s) && PrintsIndexed(s) && !KeepsPrint(s, m)
    ensures !PrintsIndexed(Step(s, m))
  {
    hide Fingerprint, IsOptimistic, IsRolling;
    var i := s.byId[m.id];
    assert s.byPrint[Fingerprint(s.merged[i])] == i;
    assert Step(s, m).merged[i] == m && Step(s, m).byPrint == s.byPrint;
  }

  /**
   * From an exact state, one row leaves the fingerprint index exact if and only if it does not
   * give a known id a new fingerprint: the branch for known ids replaces the row but not its entry.
   */
  lemma {:induction false} StepKeepsPrintIndexIff(s: State, m: Message)
    requires IdsIndexed(s) && PrintsIndexed(s)
    ensures PrintsIndexed(Step(s, m)) <==> KeepsPrint(s, m)
  {
    if KeepsPrint(s, m) {
      StepKeepsPrintIndex(s, m);
    } else {
      StepLosesPrintIndex(s, m);
    }
  }

  // ---------------------------------------------------------------- one slot at a time

  /** Stored rows outrank rolling ones, which outrank optimistic ones. */
  function Rank(m: Message): nat { if IsOptimistic(m) then 0 else if IsRolling(m) then 1 else 2 }

  /** What a slot that holds `h` holds after `m` has arrived. */
  function Take(h: Message, m: Message): Message {
    if Fingerprint(h) != Fingerprint(m) then h
    else if h.id == m.id || (Rank(h) < 2 && Rank(m) > 0) then m
    else h
  }

  function Carry(h: Message, incoming: seq<Message>): Message {
    if incoming == [] then h else Take(Carry(h, incoming[..|incoming| - 1]), incoming[|incoming| - 1])
  }

  /** On an exact state the merge is slot by slot: a row updates the slot of its fingerprint or adds one. */
  ghost predicate Slotwise(s: State, m: Message, s': State) {
    && |s'.merged| == |s.merged| + (if Fingerprint(m) in s.byPrint then 0 else 1)
    && (forall i :: 0 <= i < |s.merged| ==> s'.merged[i] == Take(s.merged[i], m))
    && (Fingerprint(m) !in s.byPrint ==> s'.merged[|s.merged|] == m)
  }

  lemma {:induction false} StepIsSlotwise(s: State, m: Message)
    requires IdsIndexed(s) && PrintsIndexed(s)
    requires KeepsPrint(s, m)
    ensures Slotwise(s, m, Step(s, m))
  {
    hide Fingerprint, IsOptimistic, IsRolling;
    var s' := Step(s, m);
    forall i | 0 <= i < |s.merged| ensures s'.merged[i] == Take(s.merged[i], m) {
      if Fingerprint(s.merged[i]) == Fingerprint(m) {
        assert s.byPrint[Fingerprint(m)] == i;
        assert m.id in s.byId ==> s.byId[m.id] == i;
      } else if m.id in s.byId {
        assert s.byId[m.id] != i;
      }
    }
  }

  ghost predicate Exact(s: State) { IdsIndexed(s) && PrintsIndexed(s) }

  lemma {:induction false} CarryOrigin(h: Message, incoming: seq<Message>)
    ensures Carry(h, incoming) == h || Carry(h, incoming) in incoming
    ensures Fingerprint(Carry(h, incoming)) == Fingerprint(h)
  {
    if incoming == [] {
    } else {
      CarryOrigin(h, incoming[..|incoming| - 1]);
    }
  }

  ghost predicate Carried(x: Message, incoming: seq<Message>) {
    exists h :: h in incoming && x == Carry(h, incoming)
  }

  /** Every slot of the merged rows is what some input row carries through the batch. */
  ghost predicate SlotsCarried(existing: seq<Message>, incoming: seq<Message>, s: State) {
    && s.InRange() && |existing| <= |s.merged|
    && (forall i :: 0 <= i < |existing| ==> s.merged[i] == Carry(existing[i], incoming))
    && (forall i :: |existing| <= i < |s.merged| ==> Carried(s.merged[i], incoming))
    && (forall m :: m in incoming ==> Fingerprint(m) in s.byPrint)
  }

  lemma {:induction false} CarryForeign(h: Message, incoming: seq<Message>)
    requires forall m :: m in incoming ==> Fingerprint(m) != Fingerprint(h)
    ensures Carry(h, incoming) == h
  {
    if incoming == [] {
    } else {
      CarryForeign(h, incoming[..|incoming| - 1]);
    }
  }

  lemma {:induction false} CarrySnoc(h: Message, before: seq<Message>, m: Message)
    ensures Carry(h, before + [m]) == Take(Carry(h, before), m)
  {
    assert (before + [m])[..|before|] == before;
  }

  lemma {:induction false} FreshSlot(before: seq<Message>, s: State, m: Message, i: nat)
    requires s.InRange() && Slotwise(s, m, Step(s, m)) && i < |Step(s, m).merged|
    requires i < |s.merged| ==> Carried(s.merged[i], before)
    requires i == |s.merged| ==> forall x :: x in before ==> Fingerprint(x) != Fingerprint(m)
    ensures Carried(Step(s, m).merged[i], before + [m])
  {
    hide Fingerprint, Rank;
    if i < |s.merged| {
      var h :| h in before && s.merged[i] == Carry(h, before);
      CarrySnoc(h, before, m);
      assert h in before + [m];
    } else {
      CarryForeign(m, before);
      CarrySnoc(m, before, m);
      assert m in before + [m];
    }
  }

  lemma {:induction false} StepSlots(existing: seq<Message>, before: seq<Message>, s: State, m: Message)
    requires SlotsCarried(existing, before, s) && Slotwise(s, m, Step(s, m))
    ensures SlotsCarried(existing, before + [m], Step(s, m))
  {
    hide Fingerprint, Rank;
    var s' := Step(s, m);
    forall i | 0 <= i < |existing| ensures s'.merged[i] == Carry(existing[i], before + [m]) {
      CarrySnoc(existing[i], before, m);
    }
    forall i | |existing| <= i < |s'.merged| ensures Carried(s'.merged[i], before + [m]) {
      FreshSlot(before, s, m, i);
    }
    assert s.byPrint.Keys <= s'.byPrint.Keys && Fingerprint(m) in s'.byPrint;
  }

  lemma {:induction false} RunIsSlotwise(existing: seq<Message>, incoming: seq<Message>)
    requires DistinctIds(existing) && DistinctPrints(existing) && IdsKeepPrints(existing + incoming)
    ensures Exact(Run(Start(existing), incoming))
    ensures SlotsCarried(existing, incoming, Run(Start(existing), incoming))
  {
    if incoming == [] {
      StartIndexesIds(existing);
      StartIndexesPrints(existing);
    } else {
      var n := |incoming| - 1;
      var before, m := incoming[..n], incoming[n];
      assert incoming == before + [m];
      assert forall x :: x in existing + before ==> x in existing + incoming;
      RunIsSlotwise(existing, before);
      var s := Run(Start(existing), before);
      RunAccounts(existing, before);
      assert KeepsPrint(s, m) by {
        if m.id in s.byId {
          assert s.merged[s.byId[m.id]] in s.merged;
          assert m in existing + incoming;
        }
      }
      StepIndexesIds(s, m);
      StepKeepsPrintIndex(s, m);
      StepIsSlotwise(s, m);
      StepSlots(existing, before, s, m);
    }
  }

  // ---------------------------------------------------------------- carrying twice is carrying once

  lemma {:induction false} CarryRank(h: Message, incoming: seq<Message>)
    ensures Rank(Carry(h, incoming)) >= Rank(h)
    ensures forall m :: m in incoming && Fingerprint(m) == Fingerprint(h) ==> Rank(Carry(h, incoming)) >= Rank(m)
  {
    hide Fingerprint;
    if incoming == [] {
    } else {
      var n := |incoming| - 1;
      CarryRank(h, incoming[..n]);
      CarryOrigin(h, incoming[..n]);
      assert forall m :: m in incoming ==> m in incoming[..n] || m == incoming[n];
    }
  }

  /** The survivor is the batch's own row wherever the batch has a row with its id. */
  lemma {:induction false} CarryAgrees(h: Message, incoming: seq<Message>)
    requires DistinctIds(incoming) && IdsKeepPrints([h] + incoming)
    ensures forall m :: m in incoming && m.id == Carry(h, incoming).id ==> m == Carry(h, incoming)
  {
    hide Fingerprint, IsOptimistic, IsRolling;
    if incoming == [] {
    } else {
      var n := |incoming| - 1;
      var last, held := incoming[n], Carry(h, incoming[..n]);
      assert forall m :: m in [h] + incoming[..n] ==> m in [h] + incoming;
      CarryAgrees(h, incoming[..n]);
      CarryOrigin(h, incoming[..n]);
      assert held in [h] + incoming && last in [h] + incoming;
      assert held.id == last.id ==> Fingerprint(held) == Fingerprint(last);
      hide IdsKeepPrints;
      forall m | m in incoming && m.id == Carry(h, incoming).id ensures m == Carry(h, incoming) {
        if m != last {
          assert m in incoming[..n] && m.id != last.id;
        }
      }
    }
  }

  lemma {:induction false} CarryStays(r: Message, incoming: seq<Message>)
    requires forall m :: m in incoming && Fingerprint(m) == Fingerprint(r) ==>
        m == r || (m.id != r.id && (Rank(r) == 2 || Rank(m) == 0))
    ensures Carry(r, incoming) == r
  {
    hide Fingerprint, IsOptimistic, IsRolling;
    if incoming == [] {
    } else {
      CarryStays(r, incoming[..|incoming| - 1]);
    }
  }

  lemma {:induction false} TakeRolling(x: Message, m: Message)
    requires Fingerprint(x) == Fingerprint(m) && Rank(x) < 2 && Rank(m) < 2
    ensures Rank(Take(x, m)) < 2
    ensures Rank(m) == 1 ==> Take(x, m) == m
    ensures Rank(x) == 1 ==> Rank(Take(x, m)) == 1
  {
    assert x.id == m.id ==> Rank(x) == Rank(m);
  }

  /** A rolling row in the batch makes the survivor independent of the row carried in. */
  lemma {:induction false} CarryForgets(x: Message, y: Message, incoming: seq<Message>, rolling: Message)
    requires Fingerprint(x) == Fingerprint(y) == Fingerprint(rolling) && Rank(x) < 2 && Rank(y) < 2
    requires forall m :: m in incoming && Fingerprint(m) == Fingerprint(x) ==> Rank(m) < 2
    requires rolling in incoming && Rank(rolling) == 1
    ensures Carry(x, incoming) == Carry(y, incoming) && Rank(Carry(x, incoming)) == 1
    ensures Fingerprint(Carry(x, incoming)) == Fingerprint(x)
  {
    hide Fingerprint, Rank;
    var n := |incoming| - 1;
    var last := incoming[n];
    if last == rolling {
      CarryLow(x, incoming[..n]);
      CarryLow(y, incoming[..n]);
      TakeRolling(Carry(x, incoming[..n]), last);
      TakeRolling(Carry(y, incoming[..n]), last);
    } else {
      CarryForgets(x, y, incoming[..n], rolling);
      if Fingerprint(last) == Fingerprint(x) {
        TakeRolling(Carry(x, incoming[..n]), last);
      }
    }
  }

  lemma {:induction false} CarryLow(x: Message, incoming: seq<Message>)
    requires Rank(x) < 2 && forall m :: m in incoming && Fingerprint(m) == Fingerprint(x) ==> Rank(m) < 2
    ensures Rank(Carry(x, incoming)) < 2 && Fingerprint(Carry(x, incoming)) == Fingerprint(x)
  {
    if incoming == [] {
    } else {
      CarryLow(x, incoming[..|incoming| - 1]);
    }
  }

  lemma {:induction false} CarryTwice(h: Message, incoming: seq<Message>)
    requires DistinctIds(incoming) && IdsKeepPrints([h] + incoming)
    ensures Carry(Carry(h, incoming), incoming) == Carry(h, incoming)
  {
    var r := Carry(h, incoming);
    CarryRank(h, incoming);
    CarryAgrees(h, incoming);
    CarryOrigin(h, incoming);
    if rolling :| rolling in incoming && Fingerprint(rolling) == Fingerprint(r) && Rank(rolling) == 1 && Rank(r) == 1 {
      CarryForgets(r, h, incoming, rolling);
    } else {
      CarryStays(r, incoming);
    }
  }

  // ---------------------------------------------------------------- main results

  /** Some row of `s` has the fingerprint of `m`, and is stored if `m` is. */
  ghost predicate Represented(s: seq<Message>, m: Message) {
    exists x :: x in s && Fingerprint(x) == Fingerprint(m) && Rank(x) >= Rank(m)
  }

  lemma {:induction false} RunRepresents(existing: seq<Message>, incoming: seq<Message>, m: Message)
    requires DistinctIds(existing) && DistinctPrints(existing) && IdsKeepPrints(existing + incoming) && m in incoming
    ensures Represented(Run(Start(existing), incoming).merged, m)
  {
    hide Fingerprint, Rank;
    RunIsSlotwise(existing, incoming);
    var s := Run(Start(existing), incoming);
    var i := s.byPrint[Fingerprint(m)];
    var x := s.merged[i];
    assert x in s.merged;
    if i < |existing| {
      CarryOrigin(existing[i], incoming);
      CarryRank(existing[i], incoming);
    } else {
      assert Carried(x, incoming);
      var h :| h in incoming && x == Carry(h, incoming);
      CarryOrigin(h, incoming);
      CarryRank(h, incoming);
    }
  }

  lemma {:induction false} PrintsPermute(a: seq<Message>, b: seq<Message>)
    requires DistinctPrints(a) && multiset(a) == multiset(b)
    ensures DistinctPrints(b)
  {
    hide Fingerprint, Rank;
    assert Distinct(a) by {
      forall i, j | 0 <= i < j < |a| ensures a[i] != a[j] { assert Fingerprint(a[i]) != Fingerprint(a[j]); }
    }
    DistinctByMultiset(a, b);
    forall i, j | 0 <= i < j < |b| ensures Fingerprint(b[i]) != Fingerprint(b[j]) {
      assert b[i] in multiset(a) && b[j] in multiset(a) && b[i] != b[j];
      var k, l :| 0 <= k < |a| && 0 <= l < |a| && a[k] == b[i] && a[l] == b[j];
      assert k < l || l < k;
    }
  }

  /** A clean batch leaves one row per fingerprint and loses no incoming row. */
  lemma {:induction false} MergeDeduplicates(p: Platform, existing: seq<Message>, incoming: seq<Message>)
    requires DistinctIds(existing) && DistinctPrints(existing) && IdsKeepPrints(existing + incoming)
    ensures var r := Merge(p, existing, incoming);
            && DistinctIds(r) && DistinctPrints(r)
            && forall m :: m in incoming ==> Represented(r, m)
  {
    hide Fingerprint, Rank;
    var s, r := Run(Start(existing), incoming), Merge(p, existing, incoming);
    MergeKeepsStoredRows(p, existing, incoming);
    RunIsSlotwise(existing, incoming);
    if s.changed {
      SortMultiset(Order(p), s.merged);
      SortMembers(Order(p), s.merged);
    } else {
      UnchangedRun(Start(existing), incoming);
    }
    assert DistinctPrints(s.merged);
    PrintsPermute(s.merged, r);
    forall m | m in incoming ensures Represented(r, m) {
      RunRepresents(existing, incoming, m);
      var x :| x in s.merged && Fingerprint(x) == Fingerprint(m) && Rank(x) >= Rank(m);
      assert x in r;
    }
  }

  lemma {:induction false} OwnerOf(r: seq<Message>, incoming: seq<Message>, x: Message) returns (j: nat)
    requires Carried(x, incoming) && forall m :: m in incoming ==> Represented(r, m)
    ensures j < |r| && Fingerprint(r[j]) == Fingerprint(x)
  {
    hide Fingerprint, Rank;
    var h :| h in incoming && x == Carry(h, incoming);
    CarryOrigin(h, incoming);
    assert Represented(r, h);
    var y :| y in r && Fingerprint(y) == Fingerprint(h);
    j :| 0 <= j < |r| && r[j] == y;
  }

  /** Every incoming row finds its fingerprint among `r` already, so nothing is appended. */
  lemma {:induction false} NothingAppended(r: seq<Message>, incoming: seq<Message>, again: State)
    requires PrintsIndexed(again) && |r| <= |again.merged|
    requires forall i :: 0 <= i < |r| ==> again.merged[i] == r[i]
    requires forall i :: |r| <= i < |again.merged| ==> Carried(again.merged[i], incoming)
    requires forall m :: m in incoming ==> Represented(r, m)
    ensures again.merged == r
  {
    hide Fingerprint, Rank;
    if |r| < |again.merged| {
      var j := OwnerOf(r, incoming, again.merged[|r|]);
      assert false;
    }
  }
}
