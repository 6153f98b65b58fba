/**
 * When a merge of chat rows leaves one row per text, loses none, and is idempotent: rows may change
 * their text, as a growing reply does on every poll, as long as nothing else has the old or the new text.
 */
module ChatRepeatTheorems {
  import opened Wrappers
  import opened Sequences
  import opened ChatMessages
  import opened ChatMergeTheorems
  import opened ChatDedupTheorems
  import opened ChatPlaces
  import opened ChatLossTheorems

  // ---------------------------------------------------------------- batches whose edits stay apart

  /** `m` is a new version of `x` with another text. */
  predicate Edits(x: Message, m: Message) { m.id == x.id && Fingerprint(m) != Fingerprint(x) }

  ghost predicate Edited(x: Message, incoming: seq<Message>) { exists m :: m in incoming && Edits(x, m) }

  /**
   * No other incoming row has the new text, no existing row has it unless it is edited too, and no row
   * under a new id has the old text.
   */
  ghost predicate EditApart(existing: seq<Message>, incoming: seq<Message>, x: Message, m: Message) {
    && (forall n :: n in incoming && Fingerprint(n) == Fingerprint(m) ==> n == m)
    && (forall y :: y in existing && Fingerprint(y) == Fingerprint(m) ==> Edited(y, incoming))
    && (forall n :: n in incoming && Fingerprint(n) == Fingerprint(x) ==> HasId(existing, n.id))
  }

  ghost predicate EditsApart(existing: seq<Message>, incoming: seq<Message>) {
    forall x, m :: x in existing && m in incoming && Edits(x, m) ==> EditApart(existing, incoming, x, m)
  }

  /** What is asked of a poll: distinct ids, one row per text to begin with, and edits that stay apart. */
  ghost predicate CleanPoll(existing: seq<Message>, incoming: seq<Message>) {
    && DistinctIds(existing) && DistinctPrints(existing) && DistinctIds(incoming) && EditsApart(existing, incoming)
  }

  /** A batch that edits nothing is clean. */
  lemma {:induction false} NoEditsAreClean(existing: seq<Message>, incoming: seq<Message>)
    requires DistinctIds(existing) && DistinctPrints(existing) && DistinctIds(incoming)
    requires IdsKeepPrints(existing + incoming)
    ensures CleanPoll(existing, incoming)
  {
    hide Fingerprint;
    assert forall x :: x in existing || x in incoming ==> x in existing + incoming;
  }

  /** One growing row, to a text that nothing else has, while nothing new repeats what it was. */
  lemma {:induction false} GrowingRowIsClean(existing: seq<Message>, incoming: seq<Message>, x: Message, m: Message)
    requires DistinctIds(existing) && DistinctPrints(existing) && DistinctIds(incoming)
    requires x in existing && m in incoming && Edits(x, m)
    requires forall y, n :: y in existing && n in incoming && Edits(y, n) ==> n == m
    requires forall n :: n in incoming && n != m ==>
               Fingerprint(n) != Fingerprint(m) && Fingerprint(n) != Fingerprint(x)
    requires forall y :: y in existing ==> Fingerprint(y) != Fingerprint(m)
    ensures CleanPoll(existing, incoming)
  {
    hide Fingerprint;
    forall y | y in existing && Edits(y, m) ensures y == x {
      var i, j :| 0 <= i < |existing| && 0 <= j < |existing| && existing[i] == x && existing[j] == y;
      assert i == j;
    }
  }

  // ---------------------------------------------------------------- the places, row by row

  /** What the place of an existing row holds after the first `k` rows: its edit, or what is carried to it. */
  function PlaceAfter(x: Message, edited: bool, before: seq<Message>): Message {
    if edited then Current(x, before) else Carry(x, before)
  }

  ghost predicate PlacesAre(existing: seq<Message>, incoming: seq<Message>, k: nat)
    requires k <= |incoming|
  {
    forall i :: 0 <= i < |existing| ==>
      Held(existing, incoming[..k])[i] == PlaceAfter(existing[i], Edited(existing[i], incoming), incoming[..k])
  }

  /** A row is the only one of its batch with its id, so an existing row is edited by it or keeps its text. */
  lemma {:induction false} OnlyVersion(incoming: seq<Message>, x: Message, m: Message)
    requires DistinctIds(incoming) && m in incoming && m.id == x.id
    ensures Edited(x, incoming) <==> Edits(x, m)
  {
    hide Fingerprint;
    if n :| n in incoming && Edits(x, n) {
      var i, j :| 0 <= i < |incoming| && 0 <= j < |incoming| && incoming[i] == m && incoming[j] == n;
      assert i == j;
    }
  }

  /** A place that holds the id of a row yet to come holds its existing row still. */
  lemma {:induction false} HoldsOwnRow(existing: seq<Message>, incoming: seq<Message>, k: nat, j: nat)
    requires DistinctIds(incoming) && k < |incoming| && j < |existing| && PlacesAre(existing, incoming, k)
    ensures var h := Held(existing, incoming[..k])[j]; h.id == incoming[k].id ==> h == existing[j]
  {
    hide Fingerprint, Held;
    CarryOrigin(existing[j], incoming[..k]);
    assert incoming[k] !in incoming[..k];
  }

  /** An incoming row with the text of an edited row has the id of an edited row. */
  lemma {:induction false} OldTextOldId(existing: seq<Message>, incoming: seq<Message>, m: Message, i: nat)
    returns (j: nat)
    requires CleanPoll(existing, incoming) && m in incoming && i < |existing|
    requires Edited(existing[i], incoming) && Fingerprint(m) == Fingerprint(existing[i])
    ensures j < |existing| && existing[j].id == m.id && Edited(existing[j], incoming)
  {
    hide Fingerprint;
    var n :| n in incoming && Edits(existing[i], n);
    assert EditApart(existing, incoming, existing[i], n);
    j :| 0 <= j < |existing| && existing[j].id == m.id;
    assert i != j ==> Fingerprint(existing[i]) != Fingerprint(existing[j]);
    OnlyVersion(incoming, existing[j], m);
  }

  /** An incoming row with the text of an unedited row has that row's id, or that of no existing row. */
  lemma {:induction false} TextKeepsId(existing: seq<Message>, incoming: seq<Message>, m: Message, i: nat, j: nat)
    requires CleanPoll(existing, incoming) && m in incoming && i < |existing| && j < |existing|
    requires !Edited(existing[i], incoming) && Fingerprint(m) == Fingerprint(existing[i]) && existing[j].id == m.id
    ensures j == i
  {
    hide Fingerprint;
    OnlyVersion(incoming, existing[j], m);
    assert existing[i] in existing && existing[j] in existing;
  }

  /** The new text of an edit is that of no other incoming row. */
  lemma {:induction false} EditIsAlone(existing: seq<Message>, incoming: seq<Message>, x: Message, m: Message)
    requires EditsApart(existing, incoming) && x in existing && m in incoming && Edits(x, m)
    ensures forall n :: n in incoming && Fingerprint(n) == Fingerprint(m) ==> n == m
    ensures forall y :: y in existing && Fingerprint(y) == Fingerprint(m) ==> Edited(y, incoming)
  {
    assert EditApart(existing, incoming, x, m);
  }

  /** An edited row is never displaced. */
  lemma {:induction false} EditedHoldsOut(existing: seq<Message>, incoming: seq<Message>, k: nat, i: nat)
    requires CleanPoll(existing, incoming) && k < |incoming| && i < |existing| && PlacesAre(existing, incoming, k)
    requires Edited(existing[i], incoming)
    ensures !Displaces(existing, incoming, i, k)
  {
    hide Fingerprint, Held, LastWith;
    if Fingerprint(incoming[k]) == Fingerprint(existing[i]) {
      var j := OldTextOldId(existing, incoming, incoming[k], i);
      assert Held(existing, incoming[..k])[j].id == incoming[k].id;
      assert HasId(Held(existing, incoming[..k]), incoming[k].id);
    }
  }

  /** A row with the text of an unedited place comes for that place. */
  lemma {:induction false} ComesForPlace(existing: seq<Message>, incoming: seq<Message>, k: nat, i: nat)
    requires CleanPoll(existing, incoming) && k < |incoming| && i < |existing| && PlacesAre(existing, incoming, k)
    requires !Edited(existing[i], incoming) && Fingerprint(incoming[k]) == Fingerprint(existing[i])
    requires Held(existing, incoming[..k])[i].id != incoming[k].id
    ensures Displaces(existing, incoming, i, k) <==> !IsOptimistic(incoming[k])
  {
    hide Fingerprint, Held, IsOptimistic;
    var held, m := Held(existing, incoming[..k]), incoming[k];
    assert LastWith(existing, Fingerprint(m)) == Some(i);
    forall j | 0 <= j < |existing| ensures held[j].id != m.id {
      HoldsOwnRow(existing, incoming, k, j);
      if existing[j].id == m.id { TextKeepsId(existing, incoming, m, i, j); }
    }
  }

  lemma {:induction false} PlaceStep(existing: seq<Message>, incoming: seq<Message>, k: nat, i: nat)
    requires CleanPoll(existing, incoming) && k < |incoming| && i < |existing| && PlacesAre(existing, incoming, k)
    ensures Held(existing, incoming[..k + 1])[i]
            == PlaceAfter(existing[i], Edited(existing[i], incoming), incoming[..k + 1])
  {
    hide Fingerprint, Held, IsOptimistic, IsRolling, Displaces;
    var h, m, x := Held(existing, incoming[..k])[i], incoming[k], existing[i];
    SeatAt(existing, incoming, i, k);
    assert incoming[..k + 1][..k] == incoming[..k];
    if Edited(x, incoming) {
      EditedHoldsOut(existing, incoming, k, i);
    } else {
      CarryOrigin(x, incoming[..k]);
      if h.id == m.id {
        HoldsOwnRow(existing, incoming, k, i);
        OnlyVersion(incoming, x, m);
      } else if Fingerprint(m) == Fingerprint(x) {
        ComesForPlace(existing, incoming, k, i);
      } else {
        NoneOfItsText(existing, incoming, k, i);
      }
    }
  }

  lemma {:induction false} NoneOfItsText(existing: seq<Message>, incoming: seq<Message>, k: nat, i: nat)
    requires k < |incoming| && i < |existing| && Fingerprint(incoming[k]) != Fingerprint(existing[i])
    ensures !Displaces(existing, incoming, i, k)
  {
    hide Fingerprint, Held;
  }

  /** After every row of a clean poll, each place holds its edit, or what is carried to it. */
  lemma {:induction false} PlacesFollow(existing: seq<Message>, incoming: seq<Message>, k: nat)
    requires CleanPoll(existing, incoming) && k <= |incoming|
    ensures PlacesAre(existing, incoming, k)
  {
    hide CleanPoll, PlaceAfter, Edited, Held;
    if k == 0 {
      NothingCarried(existing, incoming);
    } else {
      PlacesFollow(existing, incoming, k - 1);
      forall i | 0 <= i < |existing|
        ensures Held(existing, incoming[..k])[i]
                == PlaceAfter(existing[i], Edited(existing[i], incoming), incoming[..k])
      {
        PlaceStep(existing, incoming, k - 1, i);
      }
    }
  }

  lemma {:induction false} NothingCarried(existing: seq<Message>, incoming: seq<Message>)
    ensures PlacesAre(existing, incoming, 0)
  {
    assert incoming[..0] == [];
  }

  // ---------------------------------------------------------------- the added places

  ghost predicate AddedCarried(existing: seq<Message>, before: seq<Message>, s: State) {
    |existing| <= |s.merged| && forall i :: |existing| <= i < |s.merged| ==> Carried(s.merged[i], before)
  }

  /** A row that has come is known by its text, or is an edit. */
  lemma {:induction false} TextIsKnown(existing: seq<Message>, incoming: seq<Message>, k: nat, s: State, n: Message)
    requires DistinctIds(incoming) && k <= |incoming| && Tracked(existing, incoming[..k], s) && n in incoming[..k]
    ensures Fingerprint(n) in s.byPrint || exists x :: x in existing && Edits(x, n)
  {
    hide Fingerprint, Held, Arrives;
    if HasId(existing, n.id) {
      var j :| 0 <= j < |existing| && existing[j].id == n.id;
      assert existing[j] in existing;
      if !Edits(existing[j], n) { assert HasPrint(existing, Fingerprint(n)); }
    } else {
      NewIdArrives(existing, incoming[..k], n);
    }
  }

  /** A row under a known id does not have the text of an added place. */
  lemma {:induction false} KnownIsNotAdded(existing: seq<Message>, incoming: seq<Message>, k: nat, s: State, i: nat)
    requires CleanPoll(existing, incoming) && k < |incoming| && PlacesAre(existing, incoming, k)
    requires Tracked(existing, incoming[..k], s) && incoming[k].id in s.byId && |existing| <= i < |s.merged|
    ensures Fingerprint(s.merged[i]) != Fingerprint(incoming[k])
  {
    hide Fingerprint, Held, Arrives;
    var m := incoming[k];
    KnownIsHeld(existing, incoming[..k], s, m);
    var j := s.byId[m.id];
    assert AddedPlace(existing, incoming[..k], s, i);
    HoldsOwnRow(existing, incoming, k, j);
    assert existing[j] in existing && s.merged[i] in incoming;
    if Edits(existing[j], m) {
      EditIsAlone(existing, incoming, existing[j], m);
      assert m !in incoming[..k];
    } else {
      assert HasPrint(existing, Fingerprint(m));
    }
  }

  lemma {:induction false} CarriedOn(x: Message, before: seq<Message>, m: Message)
    requires Carried(x, before)
    ensures Carried(Take(x, m), before + [m])
  {
    hide Fingerprint, Rank;
    var h :| h in before && x == Carry(h, before);
    CarrySnoc(h, before, m);
    assert h in before + [m];
  }

  lemma {:induction false} NewlyCarried(existing: seq<Message>, incoming: seq<Message>, k: nat, s: State)
    requires CleanPoll(existing, incoming) && k < |incoming| && Tracked(existing, incoming[..k], s)
    requires Fingerprint(incoming[k]) !in s.byPrint && incoming[k].id !in s.byId
    ensures Carried(incoming[k], incoming[..k] + [incoming[k]])
  {
    hide Fingerprint, Held, Arrives, Rank;
    var m := incoming[k];
    assert m !in incoming[..k];
    forall n | n in incoming[..k] ensures Fingerprint(n) != Fingerprint(m) {
      TextIsKnown(existing, incoming, k, s, n);
      if x :| x in existing && Edits(x, n) { EditIsAlone(existing, incoming, x, n); }
    }
    CarryForeign(m, incoming[..k]);
    CarrySnoc(m, incoming[..k], m);
    assert m in incoming[..k] + [m];
  }

  lemma {:induction false} AddedStep(existing: seq<Message>, incoming: seq<Message>, k: nat, s: State)
    requires CleanPoll(existing, incoming) && k < |incoming| && PlacesAre(existing, incoming, k)
    requires Tracked(existing, incoming[..k], s) && AddedCarried(existing, incoming[..k], s)
    ensures AddedCarried(existing, incoming[..k] + [incoming[k]], Step(s, incoming[k]))
  {
    hide Fingerprint, Held, Arrives, IsRolling, IsOptimistic, CleanPoll, PlacesAre, Carried;
    var m, s' := incoming[k], Step(s, incoming[k]);
    forall i | |existing| <= i < |s'.merged| ensures Carried(s'.merged[i], incoming[..k] + [m]) {
      if i < |s.merged| {
        CarriedOn(s.merged[i], incoming[..k], m);
        assert AddedPlace(existing, incoming[..k], s, i);
        if m.id in s.byId {
          KnownIsExisting(existing, incoming, k, s);
          KnownIsNotAdded(existing, incoming, k, s, i);
        } else {
          assert s.merged[i].id in s.byId;
          if Fingerprint(m) in s.byPrint { assert PointsRight(existing, s, Fingerprint(m)); }
        }
      } else {
        NewlyCarried(existing, incoming, k, s);
      }
    }
  }

  lemma {:induction false} KnownIsExisting(existing: seq<Message>, incoming: seq<Message>, k: nat, s: State)
    requires CleanPoll(existing, incoming) && k < |incoming| && Tracked(existing, incoming[..k], s)
    requires incoming[k].id in s.byId
    ensures s.byId[incoming[k].id] < |existing|
  {
    KnownIsHeld(existing, incoming[..k], s, incoming[k]);
  }

  lemma {:induction false} AddedFollow(existing: seq<Message>, incoming: seq<Message>, k: nat)
    requires CleanPoll(existing, incoming) && k <= |incoming|
    ensures AddedCarried(existing, incoming[..k], Run(Start(existing), incoming[..k]))
  {
    hide CleanPoll, Held, Step, Tracked, PlacesAre, AddedCarried, Run, Start, DistinctIds, DistinctPrints;
    assert DistinctIds(existing) && DistinctIds(incoming) by { CleanParts(existing, incoming); }
    if k == 0 {
      assert incoming[..0] == [];
      NothingAdded(existing);
    } else {
      AddedFollow(existing, incoming, k - 1);
      PlacesFollow(existing, incoming, k - 1);
      PrefixDistinct(incoming, k - 1);
      RunTracked(existing, incoming[..k - 1]);
      AddedStep(existing, incoming, k - 1, Run(Start(existing), incoming[..k - 1]));
      assert incoming[..k] == incoming[..k - 1] + [incoming[k - 1]];
      RunSnoc(Start(existing), incoming[..k - 1], incoming[k - 1]);
    }
  }

  lemma {:induction false} RunSnoc(s: State, before: seq<Message>, m: Message)
    requires s.InRange()
    ensures Run(s, before + [m]) == Step(Run(s, before), m)
  {
    assert (before + [m])[..|before|] == before;
  }

  lemma {:induction false} PrefixDistinct(incoming: seq<Message>, k: nat)
    requires DistinctIds(incoming) && k <= |incoming|
    ensures DistinctIds(incoming[..k])
  {
  }

  lemma {:induction false} CleanParts(existing: seq<Message>, incoming: seq<Message>)
    requires CleanPoll(existing, incoming)
    ensures DistinctIds(existing) && DistinctPrints(existing) && DistinctIds(incoming)
  {
  }

  lemma {:induction false} NothingAdded(existing: seq<Message>)
    ensures AddedCarried(existing, [], Run(Start(existing), []))
  {
  }

  // ---------------------------------------------------------------- what a clean poll leaves

  /** Where a row of the result comes from: an edit, an unedited row and what is carried to it, or the batch. */
  ghost predicate Origin(existing: seq<Message>, incoming: seq<Message>, x: Message) {
    || (x in incoming && exists y :: y in existing && Edits(y, x))
    || (exists y :: y in existing && !Edited(y, incoming) && x == Carry(y, incoming))
    || Carried(x, incoming)
  }

  /** The places after the whole batch. */
  ghost predicate Followed(existing: seq<Message>, incoming: seq<Message>, s: State) {
    && Tracked(existing, incoming, s) && AddedCarried(existing, incoming, s)
    && forall i :: 0 <= i < |existing| ==>
         s.merged[i] == PlaceAfter(existing[i], Edited(existing[i], incoming), incoming)
  }

  lemma {:induction false} CleanPollFollowed(existing: seq<Message>, incoming: seq<Message>)
    requires CleanPoll(existing, incoming)
    ensures Followed(existing, incoming, Run(Start(existing), incoming))
  {
    hide Held, Fingerprint, PlaceAfter, Edited;
    var n := |incoming|;
    assert incoming[..n] == incoming;
    PlacesFollow(existing, incoming, n);
    AddedFollow(existing, incoming, n);
    RunTracked(existing, incoming);
    var s := Run(Start(existing), incoming);
    assert forall i :: 0 <= i < |existing| ==> s.merged[i] == Held(existing, incoming)[i];
  }

  /** An edited place holds the edit at the end. */
  lemma {:induction false} EditIsHeld(existing: seq<Message>, incoming: seq<Message>, s: State, i: nat, m: Message)
    requires DistinctIds(incoming) && Followed(existing, incoming, s) && i < |existing|
    requires m in incoming && Edits(existing[i], m)
    ensures s.merged[i] == m
  {
    hide Fingerprint, Held;
    CurrentIs(existing[i], incoming, m);
    assert Edited(existing[i], incoming);
  }

  lemma {:induction false} RowOrigin(existing: seq<Message>, incoming: seq<Message>, s: State, i: nat)
    requires CleanPoll(existing, incoming) && Followed(existing, incoming, s) && i < |s.merged|
    ensures Origin(existing, incoming, s.merged[i])
  {
    hide Fingerprint, Held, Tracked;
    if i < |existing| {
      assert existing[i] in existing;
      if m :| m in incoming && Edits(existing[i], m) {
        EditIsHeld(existing, incoming, s, i, m);
      }
    }
  }

  /** Such a row is final: carrying it through the batch again leaves it. */
  lemma {:induction false} OriginIsFinal(existing: seq<Message>, incoming: seq<Message>, x: Message)
    requires CleanPoll(existing, incoming) && Origin(existing, incoming, x)
    ensures Carry(x, incoming) == x
  {
    hide Fingerprint, Rank;
    if x in incoming && exists y :: y in existing && Edits(y, x) {
      var y :| y in existing && Edits(y, x);
      EditIsAlone(existing, incoming, y, x);
      CarryStays(x, incoming);
    } else if y :| y in existing && !Edited(y, incoming) && x == Carry(y, incoming) {
      OneVersionEach(incoming, y);
      CarryTwice(y, incoming);
    } else {
      var h :| h in incoming && x == Carry(h, incoming);
      OneVersionEach(incoming, h);
      CarryTwice(h, incoming);
    }
  }

  /** A row that the batch does not edit has one text, with the batch. */
  lemma {:induction false} OneVersionEach(incoming: seq<Message>, y: Message)
    requires DistinctIds(incoming) && !Edited(y, incoming)
    ensures IdsKeepPrints([y] + incoming)
  {
    hide Fingerprint;
    forall a, b | a in [y] + incoming && b in [y] + incoming && a.id == b.id ensures Fingerprint(a) == Fingerprint(b) {
      if a in incoming && b in incoming {
        var i, j :| 0 <= i < |incoming| && 0 <= j < |incoming| && incoming[i] == a && incoming[j] == b;
        assert i == j;
      } else {
        assert !Edits(y, a) || a !in incoming;
        assert !Edits(y, b) || b !in incoming;
      }
    }
  }

  /** A row of the result agrees with any version of it in the batch. */
  lemma {:induction false} OriginKeepsPrint(existing: seq<Message>, incoming: seq<Message>, x: Message, m: Message)
    requires DistinctIds(incoming) && Origin(existing, incoming, x) && m in incoming && m.id == x.id
    ensures Fingerprint(x) == Fingerprint(m)
  {
    hide Fingerprint, Rank;
    if y :| y in existing && !Edited(y, incoming) && x == Carry(y, incoming) { CarryOrigin(y, incoming); }
    if h :| h in incoming && x == Carry(h, incoming) { CarryOrigin(h, incoming); }
    if x in incoming {
      var i, j :| 0 <= i < |incoming| && 0 <= j < |incoming| && incoming[i] == x && incoming[j] == m;
      assert i == j;
    } else {
      assert !Edits(x, m);
    }
  }

  // ---------------------------------------------------------------- one row per text, and none lost

  lemma {:induction false} UneditedText(existing: seq<Message>, incoming: seq<Message>, s: State, i: nat)
    requires Followed(existing, incoming, s) && i < |existing| && !Edited(existing[i], incoming)
    ensures s.merged[i] == Carry(existing[i], incoming) && Fingerprint(s.merged[i]) == Fingerprint(existing[i])
  {
    CarryOrigin(existing[i], incoming);
  }

  /** Two places differ in their text: each has its own, or an edit's, which nothing else has. */
  lemma {:induction false} PlacesApart(existing: seq<Message>, incoming: seq<Message>, s: State, i: nat, j: nat)
    requires CleanPoll(existing, incoming) && Followed(existing, incoming, s)
    requires i < |existing| && j < |existing| && i != j
    ensures Fingerprint(s.merged[i]) != Fingerprint(s.merged[j])
  {
    hide Fingerprint, Held, Tracked;
    assert Fingerprint(existing[i]) != Fingerprint(existing[j]) && existing[i].id != existing[j].id by {
      if j < i { assert Fingerprint(existing[j]) != Fingerprint(existing[i]) && existing[j].id != existing[i].id; }
    }
    assert existing[i] in existing && existing[j] in existing;
    if Edited(existing[i], incoming) {
      EditedApart(existing, incoming, s, i, j);
    } else if Edited(existing[j], incoming) {
      EditedApart(existing, incoming, s, j, i);
    } else {
      UneditedText(existing, incoming, s, i);
      UneditedText(existing, incoming, s, j);
    }
  }

  lemma {:induction false} EditedApart(existing: seq<Message>, incoming: seq<Message>, s: State, i: nat, j: nat)
    requires CleanPoll(existing, incoming) && Followed(existing, incoming, s)
    requires i < |existing| && j < |existing| && existing[i].id != existing[j].id && Edited(existing[i], incoming)
    ensures Fingerprint(s.merged[i]) != Fingerprint(s.merged[j])
  {
    hide Fingerprint, Held, Tracked;
    var m :| m in incoming && Edits(existing[i], m);
    EditIsHeld(existing, incoming, s, i, m);
    EditIsAlone(existing, incoming, existing[i], m);
    if n :| n in incoming && Edits(existing[j], n) {
      EditIsHeld(existing, incoming, s, j, n);
    } else {
      UneditedText(existing, incoming, s, j);
      assert existing[j] in existing;
    }
  }

  /** An added place has no text of a place of an existing row. */
  lemma {:induction false} AddedIsApart(existing: seq<Message>, incoming: seq<Message>, s: State, i: nat, a: nat)
    requires CleanPoll(existing, incoming) && Followed(existing, incoming, s)
    requires i < |existing| <= a < |s.merged|
    ensures Fingerprint(s.merged[i]) != Fingerprint(s.merged[a])
  {
    hide Fingerprint, Held, Arrives;
    assert AddedPlace(existing, incoming, s, a);
    assert s.merged[i].id != s.merged[a].id;
    if m :| m in incoming && Edits(existing[i], m) {
      EditIsHeld(existing, incoming, s, i, m);
      EditIsAlone(existing, incoming, existing[i], m);
    } else {
      UneditedText(existing, incoming, s, i);
    }
  }

  lemma {:induction false} CleanPrintsDistinct(existing: seq<Message>, incoming: seq<Message>, s: State)
    requires CleanPoll(existing, incoming) && Followed(existing, incoming, s)
    ensures DistinctPrints(s.merged)
  {
    hide Fingerprint, Held, Arrives, CleanPoll;
    forall i, j | 0 <= i < j < |s.merged| ensures Fingerprint(s.merged[i]) != Fingerprint(s.merged[j]) {
      if j < |existing| {
        PlacesApart(existing, incoming, s, i, j);
      } else if i < |existing| {
        AddedIsApart(existing, incoming, s, i, j);
      } else {
        assert AddedPlace(existing, incoming, s, i) && AddedPlace(existing, incoming, s, j);
      }
    }
  }

  /** A row of the batch is represented by the place of its id, of its text, or by one of its own. */
  lemma {:induction false} CleanRepresents(existing: seq<Message>, incoming: seq<Message>, s: State, m: Message)
    requires CleanPoll(existing, incoming) && Followed(existing, incoming, s) && m in incoming
    ensures Represented(s.merged, m)
  {
    hide Fingerprint, Held, Rank, Arrives;
    if HasId(existing, m.id) {
      var j :| 0 <= j < |existing| && existing[j].id == m.id;
      OnlyVersion(incoming, existing[j], m);
      if Edits(existing[j], m) {
        EditIsHeld(existing, incoming, s, j, m);
      } else {
        UneditedRepresents(existing, incoming, s, j, m);
      }
      assert s.merged[j] in s.merged;
    } else if HasPrint(existing, Fingerprint(m)) {
      var i :| 0 <= i < |existing| && Fingerprint(existing[i]) == Fingerprint(m);
      if Edited(existing[i], incoming) {
        var j := OldTextOldId(existing, incoming, m, i);
      } else {
        UneditedRepresents(existing, incoming, s, i, m);
      }
    } else {
      NewIdArrives(existing, incoming, m);
      AddedRepresents(existing, incoming, s, m);
    }
  }

  lemma {:induction false} UneditedRepresents(existing: seq<Message>, incoming: seq<Message>, s: State, i: nat,
                                              m: Message)
    requires Followed(existing, incoming, s) && i < |existing| && !Edited(existing[i], incoming)
    requires m in incoming && Fingerprint(m) == Fingerprint(existing[i])
    ensures Represented(s.merged, m)
  {
    hide Fingerprint, Held, Rank, Tracked;
    UneditedText(existing, incoming, s, i);
    CarryRank(existing[i], incoming);
    assert s.merged[i] in s.merged;
  }

  lemma {:induction false} AddedRepresents(existing: seq<Message>, incoming: seq<Message>, s: State, m: Message)
    requires Followed(existing, incoming, s) && m in incoming
    requires Arrives(existing, incoming, Fingerprint(m)) && !HasPrint(existing, Fingerprint(m))
    ensures Represented(s.merged, m)
  {
    hide Fingerprint, Held, Rank, Arrives;
    assert PointsRight(existing, s, Fingerprint(m));
    var x := s.merged[s.byPrint[Fingerprint(m)]];
    var h :| h in incoming && x == Carry(h, incoming);
    CarryOrigin(h, incoming);
    CarryRank(h, incoming);
    assert x in s.merged;
  }

  /** A clean poll leaves one row per text and loses none: each incoming row is there, or one at least as final. */
  lemma {:induction false} CleanPollDeduplicates(p: Platform, existing: seq<Message>, incoming: seq<Message>)
    requires CleanPoll(existing, incoming)
    ensures var r := Merge(p, existing, incoming);
            && DistinctIds(r) && DistinctPrints(r)
            && forall m :: m in incoming ==> Represented(r, m)
  {
    hide Fingerprint, Rank, CleanPoll, Followed;
    CleanParts(existing, incoming);
    var s, r := Run(Start(existing), incoming), Merge(p, existing, incoming);
    MergeKeepsStoredRows(p, existing, incoming);
    CleanPollFollowed(existing, incoming);
    CleanPrintsDistinct(existing, incoming, s);
    if s.changed {
      SortMultiset(Order(p), s.merged);
      SortMembers(Order(p), s.merged);
    } else {
      UnchangedRun(Start(existing), incoming);
    }
    PrintsPermute(s.merged, r);
    forall m | m in incoming ensures Represented(r, m) {
      CleanRepresents(existing, incoming, s, m);
      var x :| x in s.merged && Fingerprint(x) == Fingerprint(m) && Rank(x) >= Rank(m);
      assert x in r;
    }
  }

  // ---------------------------------------------------------------- polling again

  lemma {:induction false} ResultKeepsPrints(existing: seq<Message>, incoming: seq<Message>, r: seq<Message>)
    requires DistinctIds(incoming) && DistinctIds(r) && forall x :: x in r ==> Origin(existing, incoming, x)
    ensures IdsKeepPrints(r + incoming)
  {
    hide Fingerprint, Origin;
    forall x, y | x in r + incoming && y in r + incoming && x.id == y.id ensures Fingerprint(x) == Fingerprint(y) {
      if y in incoming {
        if x in r { OriginKeepsPrint(existing, incoming, x, y); } else { SameRow(incoming, x, y); }
      } else if x in incoming {
        OriginKeepsPrint(existing, incoming, y, x);
      } else {
        SameRow(r, x, y);
      }
    }
  }

  lemma {:induction false} SameRow(rows: seq<Message>, x: Message, y: Message)
    requires DistinctIds(rows) && x in rows && y in rows && x.id == y.id
    ensures x == y
  {
    var i, j :| 0 <= i < |rows| && 0 <= j < |rows| && rows[i] == x && rows[j] == y;
    assert i == j;
  }

  /** Running a batch over rows that came out of a clean poll of it changes no row. */
  lemma {:induction false} RunAgain(existing: seq<Message>, incoming: seq<Message>, r: seq<Message>)
    requires CleanPoll(existing, incoming) && DistinctIds(r) && DistinctPrints(r)
    requires forall x :: x in r <==> x in Run(Start(existing), incoming).merged
    ensures Run(Start(r), incoming).merged == r
  {
    hide Fingerprint, Rank, CleanPoll, Followed, Origin;
    CleanParts(existing, incoming);
    CleanPollFollowed(existing, incoming);
    var first, again := Run(Start(existing), incoming), Run(Start(r), incoming);
    forall x | x in r ensures Origin(existing, incoming, x) {
      var i :| 0 <= i < |first.merged| && first.merged[i] == x;
      RowOrigin(existing, incoming, first, i);
    }
    ResultKeepsPrints(existing, incoming, r);
    RunIsSlotwise(r, incoming);
    forall i | 0 <= i < |r| ensures again.merged[i] == r[i] {
      OriginIsFinal(existing, incoming, r[i]);
    }
    forall m | m in incoming ensures Represented(r, m) {
      CleanRepresents(existing, incoming, first, m);
      var x :| x in first.merged && Fingerprint(x) == Fingerprint(m) && Rank(x) >= Rank(m);
      assert x in r;
    }
    NothingAppended(r, incoming, again);
  }

  /** Polling the same clean batch twice is polling it once. */
  lemma {:induction false} MergeIsIdempotent(p: Platform, existing: seq<Message>, incoming: seq<Message>)
    requires Collation(p.compare) && CleanPoll(existing, incoming)
    ensures var r := Merge(p, existing, incoming); Merge(p, r, incoming) == r
  {
    hide CleanPoll, Fingerprint;
    CleanParts(existing, incoming);
    var s, r := Run(Start(existing), incoming), Merge(p, existing, incoming);
    CleanPollDeduplicates(p, existing, incoming);
    if s.changed {
      OrderIsPreorder(p);
      SortMembers(Order(p), s.merged);
      RunAgain(existing, incoming, r);
      SortSorted(Order(p), s.merged);
      SortFixed(Order(p), r);
    }
  }

  /** What is left after dropping stale rolling rows makes a clean poll too. */
  lemma {:induction false} KeptIsClean(existing: seq<Message>, incoming: seq<Message>)
    requires CleanPoll(existing, incoming)
    ensures CleanPoll(WithoutStaleRolling(existing, incoming), incoming)
  {
    hide Fingerprint, IsRolling;
    var kept := WithoutStaleRolling(existing, incoming);
    FilterDistinctIds(NotStale(incoming), existing);
    FilterDistinctPrints(NotStale(incoming), existing);
    FilterMembers(NotStale(incoming), existing);
    forall x, m | x in kept && m in incoming && Edits(x, m) ensures EditApart(kept, incoming, x, m) {
      assert EditApart(existing, incoming, x, m);
      forall n | n in incoming && Fingerprint(n) == Fingerprint(x) ensures HasId(kept, n.id) {
        var i :| 0 <= i < |existing| && existing[i].id == n.id;
        assert NotStale(incoming)(existing[i]) && existing[i] in kept;
        var j :| 0 <= j < |kept| && kept[j] == existing[i];
      }
    }
  }

  lemma {:induction false} NothingStale(r: seq<Message>, incoming: seq<Message>)
    requires forall m :: m in r && IsRolling(m) ==> HasId(incoming, m.id)
    ensures WithoutStaleRolling(r, incoming) == r
  {
    forall m | m in r ensures NotStale(incoming)(m) {
      if IsRolling(m) {
        var i :| 0 <= i < |incoming| && incoming[i].id == m.id;
        assert incoming[i] in incoming;
      }
    }
    FilterAll(NotStale(incoming), r);
  }

  lemma {:induction false} ReconcileSortsRun(p: Platform, existing: seq<Message>, incoming: seq<Message>)
    ensures Reconcile(p, existing, incoming)
         == SortChatMessages(p, Run(Start(WithoutStaleRolling(existing, incoming)), incoming).merged)
  {
    var kept := WithoutStaleRolling(existing, incoming);
    if !Run(Start(kept), incoming).changed { UnchangedRun(Start(kept), incoming); }
  }

  /** Reconciling with the same snapshot twice is reconciling once. */
  lemma {:induction false} ReconcileIsIdempotent(p: Platform, existing: seq<Message>, incoming: seq<Message>)
    requires Collation(p.compare) && CleanPoll(existing, incoming)
    ensures var r := Reconcile(p, existing, incoming); Reconcile(p, r, incoming) == r
  {
    hide CleanPoll, Fingerprint, Followed;
    CleanParts(existing, incoming);
    var kept, r := WithoutStaleRolling(existing, incoming), Reconcile(p, existing, incoming);
    var s := Run(Start(kept), incoming);
    KeptIsClean(existing, incoming);
    ReconcileDropsStaleRollingRows(p, existing, incoming);
    NothingStale(r, incoming);
    ReconcileSortsRun(p, existing, incoming);
    ReconcileSortsRun(p, r, incoming);
    SortMultiset(Order(p), s.merged);
    SortMembers(Order(p), s.merged);
    CleanPollFollowed(kept, incoming);
    CleanPrintsDistinct(kept, incoming, s);
    PrintsPermute(s.merged, r);
    RunAgain(kept, incoming, r);
    OrderIsPreorder(p);
    SortSorted(Order(p), s.merged);
    SortFixed(Order(p), r);
  }

  lemma {:induction false} FilterDistinctPrints(keep: Message -> bool, s: seq<Message>)
    requires DistinctPrints(s)
    ensures DistinctPrints(Filter(keep, s))
  {
    if s == [] {
    } else {
      FilterDistinctPrints(keep, s[1..]);
      FilterMembers(keep, s[1..]);
      forall m | m in Filter(keep, s[1..]) ensures Fingerprint(m) != Fingerprint(s[0]) {
        var i :| 0 <= i < |s[1..]| && s[1..][i] == m;
      }
    }
  }

  lemma {:induction false} FilterAll(keep: Message -> bool, s: seq<Message>)
    requires forall m :: m in s ==> keep(m)
    ensures Filter(keep, s) == s
  {
    if s == [] {
    } else {
      FilterAll(keep, s[1..]);
      assert s == [s[0]] + s[1..];
    }
  }

  // ---------------------------------------------------------------- polling again brings lost rows back

  lemma {:induction false} OnceIncoming(existing: seq<Message>, incoming: seq<Message>, i: nat, k: nat, n: nat)
    requires DistinctIds(existing) && DistinctIds(incoming) && i < |existing| && k <= n <= |incoming|
    ensures Held(existing, incoming[..k])[i] in incoming ==> Held(existing, incoming[..n])[i] in incoming
  {
    hide Fingerprint, Held, Displaces, IsPersisted;
    if k == n {
    } else {
      OnceIncoming(existing, incoming, i, k, n - 1);
      SeatAt(existing, incoming, i, n - 1);
    }
  }

  /** A place that holds no row of the batch at the end never did, so the batch has no row with its id. */
  lemma {:induction false} UntouchedId(existing: seq<Message>, incoming: seq<Message>, i: nat, k: nat)
    requires DistinctIds(existing) && DistinctIds(incoming) && i < |existing| && k < |incoming|
    requires Held(existing, incoming)[i] !in incoming
    ensures incoming[k].id != existing[i].id
  {
    hide Fingerprint, Displaces, IsPersisted, LastWith, PlaceOf;
    assert incoming[..|incoming|] == incoming;
    SeatAt(existing, incoming, i, k);
    OnceIncoming(existing, incoming, i, k, |incoming|);
    OnceIncoming(existing, incoming, i, k + 1, |incoming|);
    StillExisting(existing, incoming, i, k);
  }

  lemma {:induction false} StillExisting(existing: seq<Message>, incoming: seq<Message>, i: nat, k: nat)
    requires DistinctIds(existing) && DistinctIds(incoming) && i < |existing| && k <= |incoming|
    ensures Held(existing, incoming[..k])[i] == existing[i] || Held(existing, incoming[..k])[i] in incoming
  {
    hide Fingerprint, Displaces, IsPersisted, LastWith, PlaceOf;
    if k == 0 {
      assert incoming[..0] == [];
    } else {
      StillExisting(existing, incoming, i, k - 1);
      SeatAt(existing, incoming, i, k - 1);
    }
  }

  /** A row whose text the merge lost left no row with its id either. */
  lemma {:induction false} LostIdIsGone(p: Platform, existing: seq<Message>, incoming: seq<Message>, m: Message)
    requires DistinctIds(existing) && DistinctIds(incoming) && m in incoming
    requires !HasPrint(Merge(p, existing, incoming), Fingerprint(m))
    ensures !HasId(Merge(p, existing, incoming), m.id)
  {
    hide Fingerprint, Held, Arrives;
    var s, r := Run(Start(existing), incoming), Merge(p, existing, incoming);
    RunTracked(existing, incoming);
    if s.changed { SortMembers(Order(p), s.merged); } else { UnchangedRun(Start(existing), incoming); }
    forall i | |existing| <= i < |s.merged| ensures s.merged[i] in incoming {
      assert AddedPlace(existing, incoming, s, i);
    }
    var k :| 0 <= k < |incoming| && incoming[k] == m;
    forall j | 0 <= j < |r| ensures r[j].id != m.id {
      assert r[j] in r && r[j] in s.merged;
      var i :| 0 <= i < |s.merged| && s.merged[i] == r[j];
      if r[j] in incoming {
        if r[j].id == m.id { SameRow(incoming, r[j], m); }
      } else if i < |existing| {
        assert s.merged[i] == Held(existing, incoming)[i];
        UntouchedId(existing, incoming, i, k);
        assert incoming[..|incoming|] == incoming;
        StillExisting(existing, incoming, i, |incoming|);
      }
    }
  }

  /** Merging is idempotent only if it loses nothing: polled again, the batch brings a lost row back. */
  lemma {:induction false} IdempotentOnlyIfNothingLost(p: Platform, existing: seq<Message>, incoming: seq<Message>)
    requires DistinctIds(existing) && DistinctIds(incoming)
    ensures var r := Merge(p, existing, incoming);
            Merge(p, r, incoming) == r ==> forall m :: m in incoming ==> HasPrint(r, Fingerprint(m))
  {
    hide Fingerprint, Held, Arrives, Merge, HasPrint;
    var r := Merge(p, existing, incoming);
    MergeKeepsStoredRows(p, existing, incoming);
    forall m | m in incoming && !HasPrint(r, Fingerprint(m)) ensures HasPrint(Merge(p, r, incoming), Fingerprint(m)) {
      LostIdIsGone(p, existing, incoming, m);
      NewIdArrives(r, incoming, m);
      TextSurvivesIff(p, r, incoming, Fingerprint(m));
    }
  }
}
