/**
 * A merge of chat rows without its index maps (ui/lib/chatMessages.ts:141-189): what the places of the
 * existing rows hold after a batch, and which texts get a place of their own. The ids of the existing
 * rows are distinct, and so are those of the batch.
 */
module ChatPlaces {
  import opened Wrappers
  import opened Sequences
  import opened ChatMessages
  import opened ChatMergeTheorems

  // ---------------------------------------------------------------- specification

  /** Some row has this text: role, event type, content and metadata. */
  ghost predicate HasPrint(rows: seq<Message>, text: string) {
    exists i :: 0 <= i < |rows| && Fingerprint(rows[i]) == text
  }

  function LastWith(rows: seq<Message>, text: string): (at: Option<nat>)
    ensures at.Some? ==> at.value < |rows| && Fingerprint(rows[at.value]) == text
    ensures at.Some? <==> HasPrint(rows, text)
  {
    if rows == [] then None
    else
      var n := |rows| - 1;
      var earlier := LastWith(rows[..n], text);
      if Fingerprint(rows[n]) == text then Some(n)
      else
        assert HasPrint(rows, text) ==> HasPrint(rows[..n], text) by {
          if i :| 0 <= i < |rows| && Fingerprint(rows[i]) == text { assert rows[..n][i] == rows[i]; }
        }
        earlier
  }

  function PlaceOf(rows: seq<Message>, id: string): (at: Option<nat>)
    ensures at.Some? ==> at.value < |rows| && rows[at.value].id == id
    ensures at.Some? <==> HasId(rows, id)
  {
    if rows == [] then None
    else
      var n := |rows| - 1;
      if rows[n].id == id then Some(n)
      else
        assert HasId(rows, id) ==> HasId(rows[..n], id) by {
          if i :| 0 <= i < |rows| && rows[i].id == id { assert rows[..n][i] == rows[i]; }
        }
        PlaceOf(rows[..n], id)
  }

  /**
   * What one row does to the places: it takes the place that holds its id; or else, unless it is
   * optimistic, the last place whose existing row had its text, if what is there now is not stored.
   */
  function Seat(existing: seq<Message>, held: seq<Message>, m: Message): (r: seq<Message>)
    requires |held| == |existing|
    ensures |r| == |existing|
  {
    var known, same := PlaceOf(held, m.id), LastWith(existing, Fingerprint(m));
    if known.Some? then held[known.value := m]
    else if same.Some? && !IsPersisted(held[same.value]) && !IsOptimistic(m) then held[same.value := m]
    else held
  }

  /** The places of the existing rows after a batch. */
  function Held(existing: seq<Message>, batch: seq<Message>): (held: seq<Message>)
    ensures |held| == |existing|
  {
    if batch == [] then existing
    else Seat(existing, Held(existing, batch[..|batch| - 1]), batch[|batch| - 1])
  }

  /** A row with this text arrives under an id that no place holds when it does. */
  ghost predicate Arrives(existing: seq<Message>, batch: seq<Message>, text: string) {
    exists k :: 0 <= k < |batch| && ArrivesAt(existing, batch, text, k)
  }

  ghost predicate ArrivesAt(existing: seq<Message>, batch: seq<Message>, text: string, k: nat)
    requires k < |batch|
  {
    Fingerprint(batch[k]) == text && !HasId(Held(existing, batch[..k]), batch[k].id)
  }

  lemma {:induction false} HeldSnoc(existing: seq<Message>, before: seq<Message>, m: Message)
    ensures Held(existing, before + [m]) == Seat(existing, Held(existing, before), m)
  {
    assert (before + [m])[..|before|] == before;
  }

  lemma {:induction false} ArrivesSnoc(existing: seq<Message>, before: seq<Message>, m: Message, text: string)
    ensures Arrives(existing, before + [m], text) <==>
              Arrives(existing, before, text) || (Fingerprint(m) == text && !HasId(Held(existing, before), m.id))
  {
    hide Fingerprint, Held, HasId;
    var after, n := before + [m], |before|;
    assert forall k :: 0 <= k <= n ==> after[..k] == before[..k];
    assert before[..n] == before;
    if k :| 0 <= k < |after| && ArrivesAt(existing, after, text, k) {
      assert k < n ==> ArrivesAt(existing, before, text, k);
    }
    if k :| 0 <= k < n && ArrivesAt(existing, before, text, k) { assert ArrivesAt(existing, after, text, k); }
    if Fingerprint(m) == text && !HasId(Held(existing, before), m.id) { assert ArrivesAt(existing, after, text, n); }
  }

  // ---------------------------------------------------------------- the merge keeps to it

  /** A place that the batch added: its row is of the batch, and its text is new. */
  ghost predicate AddedPlace(existing: seq<Message>, before: seq<Message>, s: State, i: nat)
    requires i < |s.merged|
  {
    && s.merged[i] in before && !HasPrint(existing, Fingerprint(s.merged[i]))
    && Fingerprint(s.merged[i]) in s.byPrint && s.byPrint[Fingerprint(s.merged[i])] == i
  }

  /** Where a text points: at the last existing row that had it, or at the added row that has it. */
  ghost predicate PointsRight(existing: seq<Message>, s: State, text: string)
    requires s.InRange() && text in s.byPrint
  {
    if HasPrint(existing, text) then LastWith(existing, text) == Some(s.byPrint[text])
    else s.byPrint[text] >= |existing| && Fingerprint(s.merged[s.byPrint[text]]) == text
  }

  ghost predicate Tracked(existing: seq<Message>, before: seq<Message>, s: State) {
    && IdsIndexed(s) && Held(existing, before) <= s.merged
    && (forall i :: |existing| <= i < |s.merged| ==> AddedPlace(existing, before, s, i))
    && (forall text :: text in s.byPrint ==> PointsRight(existing, s, text))
    && (forall text :: text in s.byPrint <==> HasPrint(existing, text) || Arrives(existing, before, text))
  }

  lemma {:induction false} IndexIsLast(existing: seq<Message>, text: string)
    ensures text in IndexBy(Fingerprint, existing) <==> LastWith(existing, text).Some?
    ensures text in IndexBy(Fingerprint, existing) ==>
              LastWith(existing, text) == Some(IndexBy(Fingerprint, existing)[text])
  {
    hide Fingerprint;
    if existing == [] {
    } else {
      IndexIsLast(existing[..|existing| - 1], text);
    }
  }

  lemma {:induction false} StartTracked(existing: seq<Message>)
    requires DistinctIds(existing)
    ensures Tracked(existing, [], Start(existing))
  {
    hide Fingerprint;
    StartIndexesIds(existing);
    forall text { IndexIsLast(existing, text); }
  }

  /** A known id is that of a place of an existing row. */
  lemma {:induction false} KnownIsHeld(existing: seq<Message>, before: seq<Message>, s: State, m: Message)
    requires Tracked(existing, before, s) && m.id in s.byId && forall x :: x in before ==> x.id != m.id
    ensures s.byId[m.id] < |existing| && PlaceOf(Held(existing, before), m.id) == Some(s.byId[m.id])
    ensures forall text :: Arrives(existing, before + [m], text) <==> Arrives(existing, before, text)
  {
    hide Fingerprint, Held, PlaceOf;
    var j, held := s.byId[m.id], Held(existing, before);
    forall i | |existing| <= i < |s.merged| ensures s.merged[i].id != m.id {
      assert AddedPlace(existing, before, s, i);
    }
    assert held[j].id == m.id && HasId(held, m.id);
    forall text { ArrivesSnoc(existing, before, m, text); }
  }

  /** The new row takes that place. */
  lemma {:induction false} KnownTracked(existing: seq<Message>, before: seq<Message>, s: State, m: Message)
    requires Tracked(existing, before, s) && m.id in s.byId && forall x :: x in before ==> x.id != m.id
    ensures Tracked(existing, before + [m], Step(s, m))
  {
    hide Fingerprint, IsPersisted, IsOptimistic, Held, Arrives, HasPrint, HasId, LastWith, PlaceOf;
    var j, s' := s.byId[m.id], Step(s, m);
    StepIndexesIds(s, m);
    KnownIsHeld(existing, before, s, m);
    HeldSnoc(existing, before, m);
    assert s'.merged == s.merged[j := m] && s'.byPrint == s.byPrint;
    forall i | |existing| <= i < |s'.merged| ensures AddedPlace(existing, before + [m], s', i) {
      assert AddedPlace(existing, before, s, i);
    }
    forall text | text in s'.byPrint ensures PointsRight(existing, s', text) {
      assert PointsRight(existing, s, text);
    }
  }

  lemma {:induction false} NotHeld(existing: seq<Message>, before: seq<Message>, s: State, m: Message)
    requires Tracked(existing, before, s) && m.id !in s.byId
    ensures !HasId(Held(existing, before), m.id)
    ensures forall text ::
              Arrives(existing, before + [m], text) <==> Arrives(existing, before, text) || text == Fingerprint(m)
  {
    hide Fingerprint;
    var held := Held(existing, before);
    forall i | 0 <= i < |held| ensures held[i].id in s.byId { assert s.merged[i] == held[i]; }
    forall text { ArrivesSnoc(existing, before, m, text); }
  }

  /** The text is known: the row takes the place of that text, if it may. */
  lemma {:induction false} RepeatTracked(existing: seq<Message>, before: seq<Message>, s: State, m: Message)
    requires Tracked(existing, before, s) && m.id !in s.byId && Fingerprint(m) in s.byPrint
    ensures Tracked(existing, before + [m], Step(s, m))
  {
    hide Fingerprint, IsPersisted, IsOptimistic, Held, Arrives, HasPrint, HasId, LastWith, PlaceOf;
    var s', at, held := Step(s, m), s.byPrint[Fingerprint(m)], Held(existing, before);
    StepIndexesIds(s, m);
    NotHeld(existing, before, s, m);
    HeldSnoc(existing, before, m);
    assert PointsRight(existing, s, Fingerprint(m));
    assert s'.merged == if !IsPersisted(s.merged[at]) && !IsOptimistic(m) then s.merged[at := m] else s.merged;
    assert at < |existing| ==> held[at] == s.merged[at];
    forall text | text in s'.byPrint ensures PointsRight(existing, s', text) {
      assert PointsRight(existing, s, text);
    }
    forall i | |existing| <= i < |s'.merged| ensures AddedPlace(existing, before + [m], s', i) {
      assert AddedPlace(existing, before, s, i);
    }
  }

  /** The text is new: the row gets a place of its own. */
  lemma {:induction false} FreshTracked(existing: seq<Message>, before: seq<Message>, s: State, m: Message)
    requires Tracked(existing, before, s) && m.id !in s.byId && Fingerprint(m) !in s.byPrint
    ensures Tracked(existing, before + [m], Step(s, m))
  {
    hide Fingerprint, IsPersisted, IsOptimistic, Held, Arrives, HasPrint, HasId, LastWith, PlaceOf;
    var s' := Step(s, m);
    StepIndexesIds(s, m);
    NotHeld(existing, before, s, m);
    HeldSnoc(existing, before, m);
    assert s'.merged == s.merged + [m] && s'.byPrint == s.byPrint[Fingerprint(m) := |s.merged|];
    forall text | text in s'.byPrint ensures PointsRight(existing, s', text) {
      if text in s.byPrint { assert PointsRight(existing, s, text); }
    }
    forall i | |existing| <= i < |s'.merged| ensures AddedPlace(existing, before + [m], s', i) {
      if i < |s.merged| { assert AddedPlace(existing, before, s, i); }
    }
  }

  /** The places after any part of a merge, and the texts that have one of their own. */
  lemma {:induction false} RunTracked(existing: seq<Message>, incoming: seq<Message>)
    requires DistinctIds(existing) && DistinctIds(incoming)
    ensures Tracked(existing, incoming, Run(Start(existing), incoming))
  {
    hide Tracked, Step, Start, Fingerprint;
    if incoming == [] {
      StartTracked(existing);
    } else {
      var n := |incoming| - 1;
      var s, m := Run(Start(existing), incoming[..n]), incoming[n];
      RunTracked(existing, incoming[..n]);
      assert incoming == incoming[..n] + [m];
      if m.id in s.byId {
        KnownTracked(existing, incoming[..n], s, m);
      } else if Fingerprint(m) in s.byPrint {
        RepeatTracked(existing, incoming[..n], s, m);
      } else {
        FreshTracked(existing, incoming[..n], s, m);
      }
    }
  }

  lemma {:induction false} PlacesLead(existing: seq<Message>, incoming: seq<Message>)
    requires DistinctIds(existing) && DistinctIds(incoming)
    ensures Held(existing, incoming) <= Run(Start(existing), incoming).merged
  {
    hide Fingerprint, Held, Run, Start;
    RunTracked(existing, incoming);
  }

  // ---------------------------------------------------------------- what a place holds

  lemma {:induction false} HeldDistinct(existing: seq<Message>, batch: seq<Message>)
    requires DistinctIds(existing) && DistinctIds(batch)
    ensures DistinctIds(Held(existing, batch))
  {
    hide Fingerprint, Held;
    RunTracked(existing, batch);
    var s := Run(Start(existing), batch);
    assert forall i :: 0 <= i < |existing| ==> s.merged[i] == Held(existing, batch)[i];
  }

  lemma {:induction false} HeldFrom(existing: seq<Message>, batch: seq<Message>, x: Message)
    requires x in Held(existing, batch)
    ensures x in existing || x in batch
  {
    hide Fingerprint, LastWith, PlaceOf;
    if batch == [] {
    } else {
      var n := |batch| - 1;
      if x in Held(existing, batch[..n]) { HeldFrom(existing, batch[..n], x); }
    }
  }

  /** What a batch makes of a stored row: the row of the batch with its id, or itself. */
  function Current(x: Message, batch: seq<Message>): (c: Message)
    ensures c.id == x.id && (c == x || c in batch)
  {
    if batch == [] then x
    else if batch[|batch| - 1].id == x.id then batch[|batch| - 1]
    else Current(x, batch[..|batch| - 1])
  }

  /** The existing rows, each as the batch updates it. */
  function Updated(existing: seq<Message>, batch: seq<Message>): seq<Message> {
    seq(|existing|, i requires 0 <= i < |existing| => Current(existing[i], batch))
  }

  lemma {:induction false} CurrentIs(x: Message, batch: seq<Message>, m: Message)
    requires DistinctIds(batch) && m in batch && m.id == x.id
    ensures Current(x, batch) == m
  {
    var n := |batch| - 1;
    if batch[n] != m { CurrentIs(x, batch[..n], m); }
  }

  /** A stored row keeps its place and is updated there. */
  lemma {:induction false} StoredPlace(existing: seq<Message>, batch: seq<Message>, i: nat)
    requires DistinctIds(existing) && DistinctIds(batch) && i < |existing| && IsPersisted(existing[i])
    ensures Held(existing, batch)[i] == Current(existing[i], batch)
  {
    hide Fingerprint, LastWith, PlaceOf, IsPersisted;
    if batch == [] {
    } else {
      var n := |batch| - 1;
      var held, m := Held(existing, batch[..n]), batch[n];
      StoredPlace(existing, batch[..n], i);
      HeldDistinct(existing, batch[..n]);
      SameIdPersisted(existing[i], held[i]);
      if m.id == held[i].id { assert HasId(held, m.id); }
    }
  }

  /** A place whose row keeps its text, as far as the batch knows its id, keeps that text. */
  lemma {:induction false} PlaceKeepsText(existing: seq<Message>, batch: seq<Message>, i: nat)
    requires DistinctIds(existing) && DistinctIds(batch) && i < |existing|
    requires forall m :: m in batch && m.id == existing[i].id ==> Fingerprint(m) == Fingerprint(existing[i])
    ensures var h := Held(existing, batch)[i];
            Fingerprint(h) == Fingerprint(existing[i]) && (h == existing[i] || h in batch)
  {
    hide Fingerprint, LastWith, PlaceOf, IsPersisted, IsOptimistic;
    if batch == [] {
    } else {
      var n := |batch| - 1;
      PlaceKeepsText(existing, batch[..n], i);
      assert batch[n] !in batch[..n];
    }
  }

  /** A row under an id that is new to the existing rows arrives. */
  lemma {:induction false} NewIdArrives(existing: seq<Message>, incoming: seq<Message>, m: Message)
    requires DistinctIds(incoming) && m in incoming && !HasId(existing, m.id)
    ensures Arrives(existing, incoming, Fingerprint(m))
  {
    hide Fingerprint, Held;
    var k :| 0 <= k < |incoming| && incoming[k] == m;
    var held := Held(existing, incoming[..k]);
    forall i | 0 <= i < |held| ensures held[i].id != m.id {
      HeldFrom(existing, incoming[..k], held[i]);
    }
    assert ArrivesAt(existing, incoming, Fingerprint(m), k);
  }

  /** Row `l` takes place `i`, if what is there is not stored: it repeats the text that the place had first. */
  ghost predicate Displaces(existing: seq<Message>, incoming: seq<Message>, i: nat, l: nat)
    requires l < |incoming|
  {
    && LastWith(existing, Fingerprint(incoming[l])) == Some(i) && !IsOptimistic(incoming[l])
    && !HasId(Held(existing, incoming[..l]), incoming[l].id)
  }

  lemma {:induction false} SeatAt(existing: seq<Message>, incoming: seq<Message>, i: nat, l: nat)
    requires DistinctIds(existing) && DistinctIds(incoming) && i < |existing| && l < |incoming|
    ensures var held := Held(existing, incoming[..l]);
            Held(existing, incoming[..l + 1])[i] ==
              if held[i].id == incoming[l].id || (!IsPersisted(held[i]) && Displaces(existing, incoming, i, l))
              then incoming[l] else held[i]
  {
    hide Fingerprint, LastWith, PlaceOf, IsPersisted, IsOptimistic, Held;
    assert incoming[..l + 1] == incoming[..l] + [incoming[l]];
    HeldSnoc(existing, incoming[..l], incoming[l]);
    HeldDistinct(existing, incoming[..l]);
    var held := Held(existing, incoming[..l]);
    if held[i].id == incoming[l].id { assert HasId(held, incoming[l].id); }
  }
}
