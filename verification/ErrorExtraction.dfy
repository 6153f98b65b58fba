/**
 * Finding a message in an error object that may contain itself
 * (api/src/lib/chatGatewayErrors.ts:1-8 and 48-99).
 *
 * Objects live in a heap and refer to each other by number, so a graph may share nodes and have
 * cycles. A field that is missing, null, a number, a boolean or a function is `Opaque`.
 */
module ErrorExtraction {
  import opened Wrappers

  datatype Field =
    | ErrorMessage | Error | Summary | Details | ReasonDetail
    | Message | Data | Payload | Cause | Reason | StopReason

  datatype Value = Opaque | Text(text: string) | Ref(id: nat)
  datatype Object = List(entries: seq<Value>) | Record(fields: map<Field, Value>)
  type Heap = map<nat, Object>

  // ---------------------------------------------------------------- text

  /** The characters that String.prototype.trim removes. */
  predicate IsSpace(c: char) {
    || '\U{0009}' <= c <= '\U{000D}' || c == ' ' || c == '\U{00A0}' || c == '\U{1680}'
    || '\U{2000}' <= c <= '\U{200A}' || c == '\U{2028}' || c == '\U{2029}' || c == '\U{202F}'
    || c == '\U{205F}' || c == '\U{3000}' || c == '\U{FEFF}'
  }

  function TrimStart(s: string): string {
    if s != "" && IsSpace(s[0]) then TrimStart(s[1..]) else s
  }

  function TrimEnd(s: string): string {
    if s != "" && IsSpace(s[|s| - 1]) then TrimEnd(s[..|s| - 1]) else s
  }

  function Trim(s: string): string { TrimEnd(TrimStart(s)) }

  predicate Blank(s: string) { forall i :: 0 <= i < |s| ==> IsSpace(s[i]) }

  /** Non-empty, with no white space at either end. */
  predicate Trimmed(s: string) { s != "" && !IsSpace(s[0]) && !IsSpace(s[|s| - 1]) }

  lemma {:induction false} TrimStartSpec(s: string)
    ensures Blank(s) ==> TrimStart(s) == ""
    ensures !Blank(s) ==> TrimStart(s) != "" && !IsSpace(TrimStart(s)[0])
  {
    if s != "" && IsSpace(s[0]) {
      TrimStartSpec(s[1..]);
      assert s == [s[0]] + s[1..];
    }
  }

  lemma {:induction false} TrimEndSpec(s: string)
    requires s != "" && !IsSpace(s[0])
    ensures TrimEnd(s) != "" && TrimEnd(s)[0] == s[0] && !IsSpace(TrimEnd(s)[|TrimEnd(s)| - 1])
  {
    if IsSpace(s[|s| - 1]) {
      TrimEndSpec(s[..|s| - 1]);
    }
  }

  lemma {:induction false} TrimSpec(s: string)
    ensures Blank(s) <==> Trim(s) == ""
    ensures !Blank(s) ==> Trimmed(Trim(s))
  {
    TrimStartSpec(s);
    if !Blank(s) {
      TrimEndSpec(TrimStart(s));
    }
  }

  function FirstNonEmptyString(values: seq<Value>): Option<string> {
    if values == [] then None
    else if values[0].Text? && Trim(values[0].text) != "" then Some(Trim(values[0].text))
    else FirstNonEmptyString(values[1..])
  }

  // ---------------------------------------------------------------- objects

  function Get(fields: map<Field, Value>, field: Field): Value {
    if field in fields then fields[field] else Opaque
  }

  function DirectValues(fields: map<Field, Value>): seq<Value> {
    [Get(fields, ErrorMessage), Get(fields, Error), Get(fields, Summary), Get(fields, Details),
        Get(fields, ReasonDetail)]
  }

  function NestedValues(fields: map<Field, Value>): seq<Value> {
    [Get(fields, Error), Get(fields, Message), Get(fields, Data), Get(fields, Payload),
     Get(fields, Details), Get(fields, ReasonDetail), Get(fields, Cause)]
  }

  function FallbackValues(fields: map<Field, Value>): seq<Value> {
    [Get(fields, Reason), Get(fields, StopReason)]
  }

  /** The values a search descends into. */
  function Children(o: Object): seq<Value> {
    match o
    case List(entries) => entries
    case Record(fields) => NestedValues(fields)
  }

  /** What a record offers before its children are searched, and after. */
  function Before(o: Object): Option<string> {
    if o.Record? then FirstNonEmptyString(DirectValues(o.fields)) else None
  }

  function After(o: Object): Option<string> {
    if o.Record? then FirstNonEmptyString(FallbackValues(o.fields)) else None
  }

  /** Every reference in the heap points into the heap. */
  ghost predicate InHeap(h: Heap, v: Value) { v.Ref? ==> v.id in h }

  ghost predicate Closed(h: Heap) {
    forall id, v :: id in h && v in Children(h[id]) ==> InHeap(h, v)
  }

  // ---------------------------------------------------------------- specification

  datatype Found = Found(message: Option<string>, seen: set<nat>)

  function Search(h: Heap, v: Value, seen: set<nat>): (r: Found)
    requires Closed(h) && InHeap(h, v)
    ensures seen <= r.seen
    ensures r.seen <= seen + h.Keys
    decreases |h.Keys - seen|, 0, 1
  {
    match v
    case Opaque => Found(None, seen)
    case Text(text) => Found(if Trim(text) != "" then Some(Trim(text)) else None, seen)
    case Ref(id) =>
      if id in seen then Found(None, seen)
      else
        var o := h[id];
        Shrinks(h.Keys, seen, id);
        if Before(o).Some? then Found(Before(o), seen + {id})
        else
          var nested := SearchAll(h, Children(o), seen + {id});
          if nested.message.Some? then nested else Found(After(o), nested.seen)
  }

  function SearchAll(h: Heap, vs: seq<Value>, seen: set<nat>): (r: Found)
    requires Closed(h) && forall v :: v in vs ==> InHeap(h, v)
    ensures seen <= r.seen
    ensures r.seen <= seen + h.Keys
    decreases |h.Keys - seen|, 1, |vs|
  {
    if vs == [] then Found(None, seen)
    else
      var first := Search(h, vs[0], seen);
      if first.message.Some? then first
      else
        ShrinksToo(h.Keys, seen, first.seen);
        SearchAll(h, vs[1..], first.seen)
  }

  lemma {:induction false} Shrinks(all: set<nat>, seen: set<nat>, id: nat)
    requires id in all && id !in seen
    ensures |all - (seen + {id})| < |all - seen|
  {
    assert all - (seen + {id}) == (all - seen) - {id};
  }

  lemma {:induction false} ShrinksToo(all: set<nat>, seen: set<nat>, seen': set<nat>)
    requires seen <= seen'
    ensures |all - seen'| <= |all - seen|
  {
    assert all - seen == (all - seen') + ((all - seen) * seen');
    assert (all - seen') !! ((all - seen) * seen');
  }

  // ---------------------------------------------------------------- the algorithm

  /** The recursive search with the `seen` set it shares and updates. */
  class Extractor {
    const heap: Heap
    var seen: set<nat>

    constructor (h: Heap)
      ensures heap == h && seen == {}
    {
      heap, seen := h, {};
    }

    method Visit(v: Value) returns (message: Option<string>)
      requires Closed(heap) && InHeap(heap, v)
      modifies this
      ensures Found(message, seen) == Search(heap, v, old(seen))
      decreases |heap.Keys - seen|
    {
      if v.Text? && Trim(v.text) != "" {
        return Some(Trim(v.text));
      }
      if !v.Ref? || v.id in seen {
        return None;
      }
      Shrinks(heap.Keys, seen, v.id);
      seen := seen + {v.id};
      ghost var start := seen;
      var found := heap[v.id];
      if found.Record? {
        message := FirstNonEmptyString(DirectValues(found.fields));
        if message.Some? { return; }
      }
      var children := Children(found);
      for i := 0 to |children|
        invariant start <= seen
        invariant SearchAll(heap, children, start) == SearchAll(heap, children[i..], seen)
      {
        assert children[i..][1..] == children[i + 1..];
        ShrinksToo(heap.Keys, start, seen);
        message := Visit(children[i]);
        if message.Some? { return; }
      }
      return if found.Record? then FirstNonEmptyString(FallbackValues(found.fields)) else None;
    }
  }

  method ExtractGatewayErrorMessage(h: Heap, v: Value) returns (message: Option<string>)
    requires Closed(h) && InHeap(h, v)
    ensures message == Search(h, v, {}).message
  {
    var extractor := new Extractor(h);
    message := extractor.Visit(v);
  }

  // ---------------------------------------------------------------- positions of a graph

  /** `w` is `steps` descents below `v`: list entries and the seven nested fields. */
  ghost predicate Below(h: Heap, v: Value, w: Value, steps: nat)
    decreases steps
  {
    if steps == 0 then v == w
    else v.Ref? && v.id in h && exists u :: u in Children(h[v.id]) && Below(h, u, w, steps - 1)
  }

  predicate OffersIn(values: seq<Value>, s: string) {
    exists i :: 0 <= i < |values| && values[i].Text? && !Blank(values[i].text) && s == Trim(values[i].text)
  }

  /** `s` is what a non-blank string at `w`, or in a direct or fallback field of `w`, reads as. */
  ghost predicate Offers(h: Heap, w: Value, s: string) {
    match w
    case Opaque => false
    case Text(text) => !Blank(text) && s == Trim(text)
    case Ref(id) =>
      id in h && h[id].Record? && (OffersIn(DirectValues(h[id].fields), s) || OffersIn(FallbackValues(h[id].fields), s))
  }

  lemma {:induction false} FirstNonEmptySpec(values: seq<Value>)
    ensures FirstNonEmptyString(values).Some? ==> OffersIn(values, FirstNonEmptyString(values).value)
    ensures FirstNonEmptyString(values).None? ==> forall s :: !OffersIn(values, s)
  {
    if values == [] {
    } else {
      if values[0].Text? { TrimSpec(values[0].text); }
      FirstNonEmptySpec(values[1..]);
      forall s ensures OffersIn(values, s) <==> OffersIn(values[..1], s) || OffersIn(values[1..], s) {
        OffersSplit(values, s);
      }
    }
  }

  lemma {:induction false} OffersSplit(values: seq<Value>, s: string)
    requires values != []
    ensures OffersIn(values, s) <==> OffersIn(values[..1], s) || OffersIn(values[1..], s)
  {
    if OffersIn(values, s) {
      var i :| 0 <= i < |values| && values[i].Text? && !Blank(values[i].text) && s == Trim(values[i].text);
      if i == 0 { assert values[..1][0] == values[0]; } else { assert values[1..][i - 1] == values[i]; }
    }
    if OffersIn(values[1..], s) {
      var i :| 0 <= i < |values[1..]| && values[1..][i].Text? && !Blank(values[1..][i].text)
          && s == Trim(values[1..][i].text);
      assert values[i + 1] == values[1..][i];
    }
  }

  /** A message that is found stands at a position below the root, at no object seen before. */
  lemma {:induction false} FoundIsOffered(h: Heap, v: Value, seen: set<nat>) returns (w: Value, steps: nat)
    requires Closed(h) && InHeap(h, v) && Search(h, v, seen).message.Some?
    ensures Below(h, v, w, steps) && Offers(h, w, Search(h, v, seen).message.value)
    ensures w.Ref? ==> w.id !in seen
    decreases |h.Keys - seen|, 0, 1
  {
    hide IsSpace, OffersIn, DirectValues, FallbackValues, NestedValues, FirstNonEmptyString, Trim, Blank;
    w, steps := v, 0;
    if v.Text? {
      TrimSpec(v.text);
    } else {
      var o := h[v.id];
      Shrinks(h.Keys, seen, v.id);
      if o.Record? {
        FirstNonEmptySpec(DirectValues(o.fields));
        FirstNonEmptySpec(FallbackValues(o.fields));
      }
      if Before(o).None? && SearchAll(h, Children(o), seen + {v.id}).message.Some? {
        var u;
        u, w, steps := FoundIsOfferedAll(h, Children(o), seen + {v.id});
        steps := steps + 1;
      }
    }
  }

  lemma {:induction false} FoundIsOfferedAll(h: Heap, vs: seq<Value>, seen: set<nat>)
    returns (u: Value, w: Value, steps: nat)
    requires Closed(h) && (forall v :: v in vs ==> InHeap(h, v)) && SearchAll(h, vs, seen).message.Some?
    ensures u in vs && Below(h, u, w, steps) && Offers(h, w, SearchAll(h, vs, seen).message.value)
    ensures w.Ref? ==> w.id !in seen
    decreases |h.Keys - seen|, 1, |vs|
  {
    var first := Search(h, vs[0], seen);
    if first.message.Some? {
      u := vs[0];
      w, steps := FoundIsOffered(h, vs[0], seen);
    } else {
      ShrinksToo(h.Keys, seen, first.seen);
      u, w, steps := FoundIsOfferedAll(h, vs[1..], first.seen);
    }
  }

  // ---------------------------------------------------------------- nothing is missed

  /** `v` is no message itself, and an object it refers to is among `visited`. */
  ghost predicate QuietValue(v: Value, visited: set<nat>) {
    match v
    case Opaque => true
    case Text(text) => Blank(text)
    case Ref(id) => id in visited
  }

  ghost predicate QuietObject(h: Heap, id: nat, visited: set<nat>)
    requires id in h
  {
    && (forall s :: !Offers(h, Ref(id), s))
    && (forall u :: u in Children(h[id]) ==> QuietValue(u, visited))
  }

  /** After a search that finds nothing, the newly visited objects are closed and silent. */
  lemma {:induction false} SilenceIsClosed(h: Heap, v: Value, seen: set<nat>)
    requires Closed(h) && InHeap(h, v) && Search(h, v, seen).message.None?
    ensures var visited := Search(h, v, seen).seen;
            && QuietValue(v, visited)
            && forall id :: id in visited - seen ==> id in h && QuietObject(h, id, visited)
    decreases |h.Keys - seen|, 0, 1
  {
    if v.Text? {
      TrimSpec(v.text);
    } else if v.Ref? && v.id !in seen {
      var o := h[v.id];
      Shrinks(h.Keys, seen, v.id);
      SilenceIsClosedAll(h, Children(o), seen + {v.id});
      if o.Record? {
        FirstNonEmptySpec(DirectValues(o.fields));
        FirstNonEmptySpec(FallbackValues(o.fields));
      }
    }
  }

  lemma {:induction false} SilenceIsClosedAll(h: Heap, vs: seq<Value>, seen: set<nat>)
    requires Closed(h) && (forall v :: v in vs ==> InHeap(h, v)) && SearchAll(h, vs, seen).message.None?
    ensures var visited := SearchAll(h, vs, seen).seen;
            && (forall v :: v in vs ==> QuietValue(v, visited))
            && forall id :: id in visited - seen ==> id in h && QuietObject(h, id, visited)
    decreases |h.Keys - seen|, 1, |vs|
  {
    if vs == [] {
    } else {
      var first := Search(h, vs[0], seen);
      SilenceIsClosed(h, vs[0], seen);
      ShrinksToo(h.Keys, seen, first.seen);
      SilenceIsClosedAll(h, vs[1..], first.seen);
      assert forall v :: v in vs ==> v == vs[0] || v in vs[1..];
    }
  }

  /** Stated by index, so that the solver does not chase descents of its own accord. */
  ghost predicate ClosedUnderDescent(h: Heap, visited: set<nat>) {
    visited <= h.Keys
    && forall id, i :: id in visited && 0 <= i < |Children(h[id])| ==> QuietValue(Children(h[id])[i], visited)
  }

  lemma {:induction false} QuietBelow(h: Heap, v: Value, visited: set<nat>, w: Value, steps: nat)
    requires QuietValue(v, visited) && Below(h, v, w, steps)
    requires ClosedUnderDescent(h, visited)
    ensures QuietValue(w, visited)
    decreases steps
  {
    hide Children, Blank;
    if steps == 0 {
    } else {
      var u :| u in Children(h[v.id]) && Below(h, u, w, steps - 1);
      QuietBelow(h, u, visited, w, steps - 1);
    }
  }

  /**
   * Extraction answers null exactly when no position below the root offers a message, and
   * otherwise answers a trimmed, non-empty message that one of them offers, cycles or not.
   */
  lemma {:induction false} ExtractionIsExact(h: Heap, v: Value)
    requires Closed(h) && InHeap(h, v)
    ensures var answer := Search(h, v, {}).message;
            && (answer.None? <==> forall w, steps, s :: Below(h, v, w, steps) ==> !Offers(h, w, s))
            && (answer.Some? ==>
                  (Trimmed(answer.value) && exists w, steps :: Below(h, v, w, steps) && Offers(h, w, answer.value)))
  {
    hide Search, Below, Offers, Trimmed, QuietValue, QuietObject;
    if Search(h, v, {}).message.Some? {
      var w, steps := FoundIsOffered(h, v, {});
      assert Below(h, v, w, steps) && Offers(h, w, Search(h, v, {}).message.value);
      OffersTrimmed(h, w, Search(h, v, {}).message.value);
    } else {
      var visited := Search(h, v, {}).seen;
      SilenceIsClosed(h, v, {});
      forall w, steps, s | Below(h, v, w, steps) ensures !Offers(h, w, s) {
        NothingOffered(h, v, visited, w, steps, s);
      }
    }
  }

  lemma {:induction false} NothingOffered(h: Heap, v: Value, visited: set<nat>, w: Value, steps: nat, s: string)
    requires QuietValue(v, visited) && Below(h, v, w, steps)
    requires forall id :: id in visited - {} ==> id in h && QuietObject(h, id, visited)
    ensures !Offers(h, w, s)
  {
    forall o | o in visited ensures o in h && QuietObject(h, o, visited) { assert o in visited - {}; }
    forall o, i | o in visited && 0 <= i < |Children(h[o])| ensures QuietValue(Children(h[o])[i], visited) {
      assert QuietObject(h, o, visited) && Children(h[o])[i] in Children(h[o]);
    }
    hide Children, Below;
    QuietBelow(h, v, visited, w, steps);
  }

  lemma {:induction false} OffersTrimmed(h: Heap, w: Value, s: string)
    requires Offers(h, w, s)
    ensures Trimmed(s)
  {
    if w.Text? {
      TrimSpec(w.text);
    } else {
      var values := if OffersIn(DirectValues(h[w.id].fields), s) then DirectValues(h[w.id].fields)
                    else FallbackValues(h[w.id].fields);
      var i :| 0 <= i < |values| && values[i].Text? && !Blank(values[i].text) && s == Trim(values[i].text);
      TrimSpec(values[i].text);
    }
  }

  // ---------------------------------------------------------------- which message wins

  /** At any depth: a record with a direct field that the search gets to ends it, with that field's text. */
  lemma {:induction false} DirectFieldWins(h: Heap, v: Value, seen: set<nat>, id: nat)
    requires Closed(h) && InHeap(h, v)
    requires id in Search(h, v, seen).seen - seen && Before(h[id]).Some?
    ensures Search(h, v, seen).message == Before(h[id])
    decreases |h.Keys - seen|, 0, 1
  {
    Shrinks(h.Keys, seen, v.id);
    if v.id != id {
      assert Before(h[v.id]).None?;
      DirectFieldWinsAll(h, Children(h[v.id]), seen + {v.id}, id);
    }
  }

  lemma {:induction false} DirectFieldWinsAll(h: Heap, vs: seq<Value>, seen: set<nat>, id: nat)
    requires Closed(h) && forall v :: v in vs ==> InHeap(h, v)
    requires id in SearchAll(h, vs, seen).seen - seen && Before(h[id]).Some?
    ensures SearchAll(h, vs, seen).message == Before(h[id])
    decreases |h.Keys - seen|, 1, |vs|
  {
    var first := Search(h, vs[0], seen);
    if id in first.seen {
      DirectFieldWins(h, vs[0], seen, id);
    } else {
      ShrinksToo(h.Keys, seen, first.seen);
      DirectFieldWinsAll(h, vs[1..], first.seen, id);
    }
  }

  /**
   * A record without one answers from below exactly when some other position offers a message;
   * `reason` and `stopReason` speak only if none does.
   */
  lemma {:induction false} FallbackSpeaksLast(h: Heap, id: nat)
    requires Closed(h) && id in h && Before(h[id]).None?
    ensures SearchAll(h, Children(h[id]), {id}).message.None?
       <==> forall w, steps, s :: Below(h, Ref(id), w, steps) && w != Ref(id) ==> !Offers(h, w, s)
    ensures Search(h, Ref(id), {}).message ==
              if SearchAll(h, Children(h[id]), {id}).message.None? then After(h[id])
              else SearchAll(h, Children(h[id]), {id}).message
  {
    assert {} + {id} == {id};
    var nested := SearchAll(h, Children(h[id]), {id});
    if nested.message.None? {
      SilenceIsClosedAll(h, Children(h[id]), {id});
      VisitedIsClosed(h, id, nested.seen);
      forall w, steps, s | Below(h, Ref(id), w, steps) && w != Ref(id) ensures !Offers(h, w, s) {
        QuietBelow(h, Ref(id), nested.seen, w, steps);
      }
    } else {
      var u, w, steps := FoundIsOfferedAll(h, Children(h[id]), {id});
      assert Below(h, Ref(id), w, steps + 1) && w != Ref(id) && Offers(h, w, nested.message.value);
    }
  }

  lemma {:induction false} VisitedIsClosed(h: Heap, id: nat, visited: set<nat>)
    requires id in h && id in visited
    requires forall v :: v in Children(h[id]) ==> QuietValue(v, visited)
    requires forall o :: o in visited - {id} ==> o in h && QuietObject(h, o, visited)
    ensures ClosedUnderDescent(h, visited)
  {
    forall o, i | o in visited && 0 <= i < |Children(h[o])| ensures QuietValue(Children(h[o])[i], visited) {
      assert Children(h[o])[i] in Children(h[o]);
      if o != id { assert o in visited - {id} && QuietObject(h, o, visited); }
    }
  }

  // ---------------------------------------------------------------- the `seen` set is invisible

  datatype Outcome = OutOfFuel | Done(message: Option<string>)

  /** The same search with no memory, cut off after `fuel` descents. */
  function Naive(h: Heap, v: Value, fuel: nat): Outcome
    requires Closed(h) && InHeap(h, v)
    decreases fuel, 0
  {
    match v
    case Opaque => Done(None)
    case Text(text) => Done(if Trim(text) != "" then Some(Trim(text)) else None)
    case Ref(id) =>
      if fuel == 0 then OutOfFuel
      else if Before(h[id]).Some? then Done(Before(h[id]))
      else
        var nested := NaiveAll(h, Children(h[id]), fuel - 1);
        if nested == Done(None) then Done(After(h[id])) else nested
  }

  function NaiveAll(h: Heap, vs: seq<Value>, fuel: nat): Outcome
    requires Closed(h) && forall v :: v in vs ==> InHeap(h, v)
    decreases fuel, 1, |vs|
  {
    if vs == [] then Done(None)
    else
      var first := Naive(h, vs[0], fuel);
      if first == Done(None) then NaiveAll(h, vs[1..], fuel) else first
  }

  lemma {:induction false} MoreFuel(h: Heap, v: Value, fuel: nat, fuel': nat)
    requires Closed(h) && InHeap(h, v) && fuel <= fuel' && Naive(h, v, fuel).Done?
    ensures Naive(h, v, fuel') == Naive(h, v, fuel)
    decreases fuel, 0
  {
    if v.Ref? && Before(h[v.id]).None? {
      MoreFuelAll(h, Children(h[v.id]), fuel - 1, fuel' - 1);
    }
  }

  lemma {:induction false} MoreFuelAll(h: Heap, vs: seq<Value>, fuel: nat, fuel': nat)
    requires Closed(h) && (forall v :: v in vs ==> InHeap(h, v)) && fuel <= fuel' && NaiveAll(h, vs, fuel).Done?
    ensures NaiveAll(h, vs, fuel') == NaiveAll(h, vs, fuel)
    decreases fuel, 1, |vs|
  {
    if vs == [] {
    } else {
      MoreFuel(h, vs[0], fuel, fuel');
      if Naive(h, vs[0], fuel) == Done(None) {
        MoreFuelAll(h, vs[1..], fuel, fuel');
      }
    }
  }

  lemma {:induction false} LeastFuel(h: Heap, v: Value, fuel: nat) returns (least: nat)
    requires Closed(h) && InHeap(h, v) && Naive(h, v, fuel).Done?
    ensures least <= fuel && Naive(h, v, least) == Naive(h, v, fuel)
    ensures forall k: nat :: k < least ==> Naive(h, v, k) == OutOfFuel
  {
    least := fuel;
    while least > 0 && Naive(h, v, least - 1).Done?
      invariant least <= fuel && Naive(h, v, least).Done?
    {
      least := least - 1;
    }
    MoreFuel(h, v, least, fuel);
    forall k: nat | k < least ensures Naive(h, v, k) == OutOfFuel {
      if Naive(h, v, k).Done? { MoreFuel(h, v, k, least - 1); }
    }
  }

  /** With up to `fuel` descents, the plain search from object `id` finds no message. */
  ghost predicate Fruitless(h: Heap, id: nat, fuel: nat)
    requires Closed(h)
  {
    id in h ==> forall k: nat :: k <= fuel ==> Naive(h, Ref(id), k) == OutOfFuel || Naive(h, Ref(id), k) == Done(None)
  }

  lemma {:induction false} SearchRefinesNaive(h: Heap, v: Value, seen: set<nat>, fuel: nat)
    requires Closed(h) && InHeap(h, v) && Naive(h, v, fuel).Done?
    requires forall id :: id in seen ==> Fruitless(h, id, fuel)
    ensures Search(h, v, seen).message == Naive(h, v, fuel).message
    ensures Search(h, v, seen).message.None? ==>
              forall id, k: nat :: id in Search(h, v, seen).seen - seen ==> Fruitless(h, id, k)
    decreases fuel, 0
  {
    if v.Ref? && v.id !in seen {
      var least := LeastFuel(h, v, fuel);
      Shrinks(h.Keys, seen, v.id);
      if Before(h[v.id]).None? {
        SearchAllRefinesNaive(h, Children(h[v.id]), seen + {v.id}, least - 1);
        if Naive(h, v, fuel).message.None? {
          forall k: nat ensures Fruitless(h, v.id, k) {
            forall j: nat | j <= k ensures Naive(h, v, j) == OutOfFuel || Naive(h, v, j) == Done(None) {
              if j >= least { MoreFuel(h, v, least, j); }
            }
          }
        }
      }
    }
  }

  lemma {:induction false} SearchAllRefinesNaive(h: Heap, vs: seq<Value>, seen: set<nat>, fuel: nat)
    requires Closed(h) && (forall v :: v in vs ==> InHeap(h, v)) && NaiveAll(h, vs, fuel).Done?
    requires forall id :: id in seen ==> Fruitless(h, id, fuel)
    ensures SearchAll(h, vs, seen).message == NaiveAll(h, vs, fuel).message
    ensures SearchAll(h, vs, seen).message.None? ==>
              forall id, k: nat :: id in SearchAll(h, vs, seen).seen - seen ==> Fruitless(h, id, k)
    decreases fuel, 1, |vs|
  {
    if vs == [] {
    } else {
      SearchRefinesNaive(h, vs[0], seen, fuel);
      var first := Search(h, vs[0], seen);
      if first.message.None? {
        SearchAllRefinesNaive(h, vs[1..], first.seen, fuel);
      }
    }
  }

  /** Wherever the search without a `seen` set ends, the set changes nothing about its answer. */
  lemma {:induction false} SeenSetIsInvisible(h: Heap, v: Value, fuel: nat)
    requires Closed(h) && InHeap(h, v) && Naive(h, v, fuel).Done?
    ensures Search(h, v, {}).message == Naive(h, v, fuel).message
  {
    SearchRefinesNaive(h, v, {}, fuel);
  }
}
