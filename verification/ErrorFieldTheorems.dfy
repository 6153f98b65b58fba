/**
 * What the search for a message finds, read off the fields of the objects themselves, and which of
 * several messages wins (api/src/lib/chatGatewayErrors.ts:1-8 and 52-99).
 */
module ErrorFieldTheorems {
  import opened Wrappers
  import opened ErrorExtraction

  // ---------------------------------------------------------------- white space

  /** The white space and line ends of ECMAScript, one by one. */
  const WHITE_SPACE :=
    "\U{0009}\U{000A}\U{000B}\U{000C}\U{000D}\U{0020}\U{00A0}\U{1680}\U{2000}\U{2001}\U{2002}\U{2003}\U{2004}\U{2005}"
    + "\U{2006}\U{2007}\U{2008}\U{2009}\U{200A}\U{2028}\U{2029}\U{202F}\U{205F}\U{3000}\U{FEFF}"

  predicate WhiteSpace(s: string) { forall i :: 0 <= i < |s| ==> s[i] in WHITE_SPACE }

  lemma {:induction false} SpaceIsWhite(c: char)
    ensures IsSpace(c) <==> c in WHITE_SPACE
  {
    assert |WHITE_SPACE| == 25;
    if c in WHITE_SPACE {
      var i :| 0 <= i < 25 && WHITE_SPACE[i] == c;
    }
    if IsSpace(c) {
      assert WHITE_SPACE[0] == '\U{0009}' && WHITE_SPACE[1] == '\U{000A}' && WHITE_SPACE[2] == '\U{000B}';
      assert WHITE_SPACE[3] == '\U{000C}' && WHITE_SPACE[4] == '\U{000D}' && WHITE_SPACE[5] == ' ';
      assert WHITE_SPACE[6] == '\U{00A0}' && WHITE_SPACE[7] == '\U{1680}' && WHITE_SPACE[8] == '\U{2000}';
      assert WHITE_SPACE[9] == '\U{2001}' && WHITE_SPACE[10] == '\U{2002}' && WHITE_SPACE[11] == '\U{2003}';
      assert WHITE_SPACE[12] == '\U{2004}' && WHITE_SPACE[13] == '\U{2005}' && WHITE_SPACE[14] == '\U{2006}';
      assert WHITE_SPACE[15] == '\U{2007}' && WHITE_SPACE[16] == '\U{2008}' && WHITE_SPACE[17] == '\U{2009}';
      assert WHITE_SPACE[18] == '\U{200A}' && WHITE_SPACE[19] == '\U{2028}' && WHITE_SPACE[20] == '\U{2029}';
      assert WHITE_SPACE[21] == '\U{202F}' && WHITE_SPACE[22] == '\U{205F}' && WHITE_SPACE[23] == '\U{3000}';
      assert WHITE_SPACE[24] == '\U{FEFF}';
    }
  }

  /** `t` is `s` without the white space at its ends. */
  ghost predicate IsTrimOf(t: string, s: string) {
    exists i, j :: 0 <= i <= j <= |s| && TrimsTo(s, i, j) && t == s[i..j]
  }

  ghost predicate TrimsTo(s: string, i: nat, j: nat)
    requires i <= j <= |s|
  {
    && (forall k :: 0 <= k < i ==> s[k] in WHITE_SPACE)
    && (forall k :: j <= k < |s| ==> s[k] in WHITE_SPACE)
    && (i < j ==> s[i] !in WHITE_SPACE && s[j - 1] !in WHITE_SPACE)
  }

  lemma {:induction false} TrimStartIsSuffix(s: string) returns (i: nat)
    ensures i <= |s| && TrimStart(s) == s[i..] && WhiteSpace(s[..i]) && (i < |s| ==> s[i] !in WHITE_SPACE)
  {
    hide IsSpace, WHITE_SPACE;
    if s != "" { SpaceIsWhite(s[0]); }
    if s != "" && IsSpace(s[0]) {
      i := TrimStartIsSuffix(s[1..]);
      assert s[1..][i..] == s[i + 1..] && s[..i + 1] == [s[0]] + s[1..][..i];
      i := i + 1;
    } else {
      i := 0;
    }
  }

  lemma {:induction false} TrimEndIsPrefix(s: string) returns (j: nat)
    ensures j <= |s| && TrimEnd(s) == s[..j] && WhiteSpace(s[j..]) && (j > 0 ==> s[j - 1] !in WHITE_SPACE)
  {
    hide IsSpace, WHITE_SPACE;
    var n := |s| - 1;
    if s != "" { SpaceIsWhite(s[n]); }
    if s != "" && IsSpace(s[n]) {
      var front := s[..n];
      j := TrimEndIsPrefix(front);
      assert front[..j] == s[..j];
      forall i | 0 <= i < |s[j..]| ensures s[j..][i] in WHITE_SPACE {
        if i < n - j { assert s[j..][i] == front[j..][i]; }
      }
    } else {
      j := |s|;
      assert s[..j] == s;
    }
  }

  lemma {:induction false} TrimIsExact(s: string)
    ensures IsTrimOf(Trim(s), s)
  {
    var i := TrimStartIsSuffix(s);
    var j := TrimEndIsPrefix(s[i..]);
    assert s[i..][..j] == s[i..i + j] && s[i..][j..] == s[i + j..];
    assert TrimsTo(s, i, i + j) by {
      forall k | 0 <= k < i ensures s[k] in WHITE_SPACE { assert s[..i][k] == s[k]; }
      forall k | i + j <= k < |s| ensures s[k] in WHITE_SPACE { assert s[i + j..][k - i - j] == s[k]; }
      if j > 0 { assert s[i..][0] == s[i] && s[i..][j - 1] == s[i + j - 1]; }
    }
  }

  lemma {:induction false} BlankIsWhite(s: string)
    ensures Blank(s) <==> WhiteSpace(s)
  {
    hide IsSpace, WHITE_SPACE;
    forall i | 0 <= i < |s| ensures IsSpace(s[i]) <==> s[i] in WHITE_SPACE { SpaceIsWhite(s[i]); }
  }

  // ---------------------------------------------------------------- what is reached, and what it says

  /** Every reference in the heap points into it. */
  ghost predicate Complete(h: Heap) {
    && (forall id, v :: id in h && h[id].List? && v in h[id].entries && v.Ref? ==> v.id in h)
    && (forall id, f :: id in h && h[id].Record? && f in h[id].fields && h[id].fields[f].Ref? ==>
          h[id].fields[f].id in h)
  }

  /** An entry of a list, or one of seven fields of a record. */
  ghost predicate Inside(o: Object, w: Value) {
    match o
    case List(entries) => w in entries
    case Record(fields) =>
      exists f :: f in {Error, Message, Data, Payload, Details, ReasonDetail, Cause} && f in fields && fields[f] == w
  }

  ghost predicate Reached(h: Heap, v: Value, w: Value, steps: nat)
    decreases steps
  {
    if steps == 0 then v == w
    else v.Ref? && v.id in h && exists u :: Inside(h[v.id], u) && Reached(h, u, w, steps - 1)
  }

  /** A value that is a string with something in it, and the string without the white space at its ends. */
  ghost predicate Speaks(v: Value, s: string) { v.Text? && !WhiteSpace(v.text) && IsTrimOf(s, v.text) }

  /** A string speaks for itself, a record by five direct fields and two fallback fields. */
  ghost predicate Says(h: Heap, w: Value, s: string) {
    || Speaks(w, s)
    || (w.Ref? && w.id in h && h[w.id].Record?
        && exists f :: f in {ErrorMessage, Error, Summary, Details, ReasonDetail, Reason, StopReason}
             && f in h[w.id].fields && Speaks(h[w.id].fields[f], s))
  }

  lemma {:induction false} TrimOfIsUnique(s: string, t: string)
    ensures !WhiteSpace(s) ==> (IsTrimOf(t, s) <==> t == Trim(s))
  {
    TrimIsExact(s);
    if !WhiteSpace(s) && IsTrimOf(t, s) {
      var i, j :| 0 <= i <= j <= |s| && TrimsTo(s, i, j) && t == s[i..j];
      var k, l :| 0 <= k <= l <= |s| && TrimsTo(s, k, l) && Trim(s) == s[k..l];
      SameEnds(s, i, j, k, l);
    }
  }

  lemma {:induction false} SameEnds(s: string, i: nat, j: nat, k: nat, l: nat)
    requires i <= j <= |s| && k <= l <= |s| && TrimsTo(s, i, j) && TrimsTo(s, k, l) && !WhiteSpace(s)
    ensures i == k && j == l
  {
    var p :| 0 <= p < |s| && s[p] !in WHITE_SPACE;
    assert i <= p < j && k <= p < l;
  }

  lemma {:induction false} SpeaksIs(v: Value, s: string)
    ensures Speaks(v, s) <==> v.Text? && !Blank(v.text) && s == Trim(v.text)
  {
    if v.Text? {
      BlankIsWhite(v.text);
      TrimOfIsUnique(v.text, s);
    }
  }

  lemma {:induction false} ListedSpeaks(values: seq<Value>, s: string)
    ensures OffersIn(values, s) <==> exists i :: 0 <= i < |values| && Speaks(values[i], s)
  {
    hide Speaks, Blank, Trim;
    forall i | 0 <= i < |values|
      ensures Speaks(values[i], s) <==> values[i].Text? && !Blank(values[i].text) && s == Trim(values[i].text)
    {
      SpeaksIs(values[i], s);
    }
  }

  lemma {:induction false} FieldsSpeak(fields: map<Field, Value>, s: string)
    ensures OffersIn(DirectValues(fields), s) || OffersIn(FallbackValues(fields), s)
            <==> exists f :: f in {ErrorMessage, Error, Summary, Details, ReasonDetail, Reason, StopReason}
                   && f in fields && Speaks(fields[f], s)
  {
    hide Speaks, OffersIn;
    var direct, fallback := DirectValues(fields), FallbackValues(fields);
    ListedSpeaks(direct, s);
    ListedSpeaks(fallback, s);
    assert !Speaks(Opaque, s) by { SpeaksIs(Opaque, s); }
    if i :| 0 <= i < |direct| && Speaks(direct[i], s) {
      var f := if i == 0 then ErrorMessage else if i == 1 then Error else if i == 2 then Summary
               else if i == 3 then Details else ReasonDetail;
      assert direct[i] == Get(fields, f);
    }
    if i :| 0 <= i < |fallback| && Speaks(fallback[i], s) {
      var f := if i == 0 then Reason else StopReason;
      assert fallback[i] == Get(fields, f);
    }
    if f :| f in {ErrorMessage, Error, Summary, Details, ReasonDetail, Reason, StopReason} && f in fields
            && Speaks(fields[f], s)
    {
      match f
      case ErrorMessage => assert direct[0] == fields[f];
      case Error => assert direct[1] == fields[f];
      case Summary => assert direct[2] == fields[f];
      case Details => assert direct[3] == fields[f];
      case ReasonDetail => assert direct[4] == fields[f];
      case Reason => assert fallback[0] == fields[f];
      case StopReason => assert fallback[1] == fields[f];
    }
  }

  lemma {:induction false} SaysIsOffers(h: Heap, w: Value, s: string)
    ensures Says(h, w, s) <==> Offers(h, w, s)
  {
    hide Speaks, OffersIn, Blank, Trim;
    SpeaksIs(w, s);
    if w.Ref? && w.id in h && h[w.id].Record? { FieldsSpeak(h[w.id].fields, s); }
  }

  lemma {:induction false} InsideIsChild(o: Object, w: Value)
    ensures Inside(o, w) ==> w in Children(o)
    ensures w in Children(o) ==> Inside(o, w) || w == Opaque
  {
    if o.Record? {
      var nested := NestedValues(o.fields);
      if f :| f in {Error, Message, Data, Payload, Details, ReasonDetail, Cause} && f in o.fields && o.fields[f] == w {
        match f
        case Error => assert nested[0] == w;
        case Message => assert nested[1] == w;
        case Data => assert nested[2] == w;
        case Payload => assert nested[3] == w;
        case Details => assert nested[4] == w;
        case ReasonDetail => assert nested[5] == w;
        case Cause => assert nested[6] == w;
      }
      if w in nested && w != Opaque {
        var i :| 0 <= i < |nested| && nested[i] == w;
        var f := if i == 0 then Error else if i == 1 then Message else if i == 2 then Data
                 else if i == 3 then Payload else if i == 4 then Details else if i == 5 then ReasonDetail else Cause;
        assert w == Get(o.fields, f);
      }
    }
  }

  lemma {:induction false} ReachedIsBelow(h: Heap, v: Value, w: Value, steps: nat)
    ensures Reached(h, v, w, steps) ==> Below(h, v, w, steps)
    ensures Below(h, v, w, steps) && w != Opaque ==> Reached(h, v, w, steps)
    decreases steps
  {
    hide Inside, Children;
    if steps == 0 || !v.Ref? || v.id !in h {
    } else {
      if u :| Inside(h[v.id], u) && Reached(h, u, w, steps - 1) {
        InsideIsChild(h[v.id], u);
        ReachedIsBelow(h, u, w, steps - 1);
      }
      if Below(h, v, w, steps) && w != Opaque {
        var u :| u in Children(h[v.id]) && Below(h, u, w, steps - 1);
        InsideIsChild(h[v.id], u);
        ReachedIsBelow(h, u, w, steps - 1);
      }
    }
  }

  lemma {:induction false} CompleteIsClosed(h: Heap)
    requires Complete(h)
    ensures Closed(h)
  {
    forall id, v | id in h && v in Children(h[id]) ensures InHeap(h, v) {
      InsideIsChild(h[id], v);
    }
  }

  /**
   * The answer is null if and only if nothing that is reached through list entries and the seven fields
   * says anything; otherwise something that is reached says it.
   */
  lemma {:induction false} AnswerIsSaid(h: Heap, v: Value)
    requires Complete(h) && (v.Ref? ==> v.id in h)
    ensures Closed(h) && InHeap(h, v)
    ensures var answer := Search(h, v, {}).message;
            && (answer.None? <==> forall w, steps, s :: Reached(h, v, w, steps) ==> !Says(h, w, s))
            && (answer.Some? ==> exists w, steps :: Reached(h, v, w, steps) && Says(h, w, answer.value))
  {
    hide Says, Reached, Below, Offers, Search, Children;
    CompleteIsClosed(h);
    ExtractionIsExact(h, v);
    forall w, steps, s
      ensures Reached(h, v, w, steps) && Says(h, w, s) <==> Below(h, v, w, steps) && Offers(h, w, s)
    {
      SaysIsOffers(h, w, s);
      ReachedIsBelow(h, v, w, steps);
      assert w == Opaque ==> !Offers(h, w, s) by { OpaqueIsSilent(h, s); }
    }
    var answer := Search(h, v, {}).message;
    if answer.Some? {
      var w, steps :| Below(h, v, w, steps) && Offers(h, w, answer.value);
      assert Reached(h, v, w, steps) && Says(h, w, answer.value);
    } else {
      forall w, steps, s | Reached(h, v, w, steps) ensures !Says(h, w, s) {
        SaysIsOffers(h, w, s);
        ReachedIsBelow(h, v, w, steps);
      }
    }
  }

  lemma {:induction false} OpaqueIsSilent(h: Heap, s: string)
    ensures !Offers(h, Opaque, s)
  {
  }

  // ---------------------------------------------------------------- which message wins

  const DIRECT := [ErrorMessage, Error, Summary, Details, ReasonDetail]
  const NESTED := [Error, Message, Data, Payload, Details, ReasonDetail, Cause]
  const FALLBACK := [Reason, StopReason]

  /** `s` is what the first of the fields that speaks says. */
  ghost predicate FirstSays(fields: map<Field, Value>, order: seq<Field>, s: string) {
    exists i :: 0 <= i < |order| && SaysFirst(fields, order, s, i)
  }

  ghost predicate SaysFirst(fields: map<Field, Value>, order: seq<Field>, s: string, i: nat)
    requires i < |order|
  {
    && order[i] in fields && Speaks(fields[order[i]], s)
    && forall j, t :: 0 <= j < i && order[j] in fields ==> !Speaks(fields[order[j]], t)
  }

  ghost predicate SpeaksFirst(values: seq<Value>, s: string, i: nat)
    requires i < |values|
  {
    Speaks(values[i], s) && forall j, t :: 0 <= j < i ==> !Speaks(values[j], t)
  }

  lemma {:induction false} FirstIsFirst(values: seq<Value>, s: string)
    ensures FirstNonEmptyString(values) == Some(s)
            <==> exists i :: 0 <= i < |values| && SpeaksFirst(values, s, i)
  {
    hide Speaks, Blank, Trim;
    if values == [] {
    } else {
      var rest := values[1..];
      FirstIsFirst(rest, s);
      FirstSpeaks(values[0]);
      assert values[0].Text? ==> Speaks(values[0], Trim(values[0].text)) || Trim(values[0].text) == "";
      if forall t :: !Speaks(values[0], t) {
        if i :| 0 <= i < |rest| && SpeaksFirst(rest, s, i) {
          forall j, t | 0 <= j < i + 1 ensures !Speaks(values[j], t) { if j > 0 { assert values[j] == rest[j - 1]; } }
          assert SpeaksFirst(values, s, i + 1);
        }
        if i :| 0 <= i < |values| && SpeaksFirst(values, s, i) {
          assert i > 0;
          forall j, t | 0 <= j < i - 1 ensures !Speaks(rest[j], t) { assert rest[j] == values[j + 1]; }
          assert SpeaksFirst(rest, s, i - 1);
        }
      } else {
        if i :| 0 <= i < |values| && SpeaksFirst(values, s, i) { assert i == 0; }
        if Speaks(values[0], s) { assert SpeaksFirst(values, s, 0); }
      }
    }
  }

  lemma {:induction false} FirstSpeaks(v: Value)
    ensures v.Text? && Trim(v.text) != "" ==> forall s :: Speaks(v, s) <==> s == Trim(v.text)
    ensures !(v.Text? && Trim(v.text) != "") ==> forall s :: !Speaks(v, s)
  {
    hide Speaks;
    forall s { SpeaksIs(v, s); }
    if v.Text? { TrimSpec(v.text); }
  }

  lemma {:induction false} BeforeIs(o: Object, s: string)
    requires o.Record?
    ensures Before(o) == Some(s) <==> FirstSays(o.fields, DIRECT, s)
  {
    hide Speaks, FirstNonEmptyString;
    var values := DirectValues(o.fields);
    FirstIsFirst(values, s);
    ListedFirst(o.fields, DIRECT, values, s);
  }

  lemma {:induction false} AfterIs(o: Object, s: string)
    requires o.Record?
    ensures After(o) == Some(s) <==> FirstSays(o.fields, FALLBACK, s)
  {
    hide Speaks, FirstNonEmptyString;
    var values := FallbackValues(o.fields);
    FirstIsFirst(values, s);
    ListedFirst(o.fields, FALLBACK, values, s);
  }

  lemma {:induction false} ListedFirst(fields: map<Field, Value>, order: seq<Field>, values: seq<Value>, s: string)
    requires |values| == |order| && forall i :: 0 <= i < |order| ==> values[i] == Get(fields, order[i])
    ensures FirstSays(fields, order, s)
            <==> exists i :: 0 <= i < |values| && SpeaksFirst(values, s, i)
  {
    hide Speaks;
    forall t ensures !Speaks(Opaque, t) { SpeaksIs(Opaque, t); }
    if i :| 0 <= i < |order| && SaysFirst(fields, order, s, i) {
      assert SpeaksFirst(values, s, i);
    }
    if i :| 0 <= i < |values| && SpeaksFirst(values, s, i) {
      assert SaysFirst(fields, order, s, i);
    }
  }

  /** A record's direct fields are asked first, in their order, and decide if one of them speaks. */
  lemma {:induction false} DirectFieldsInOrder(h: Heap, id: nat, s: string)
    requires Complete(h) && id in h && h[id].Record? && FirstSays(h[id].fields, DIRECT, s)
    ensures Closed(h) && Search(h, Ref(id), {}).message == Some(s)
  {
    hide FirstSays, Before;
    CompleteIsClosed(h);
    BeforeIs(h[id], s);
  }

  /** `reason` is asked before `stopReason`, and both only if nothing else that is reached says anything. */
  lemma {:induction false} FallbackInOrder(h: Heap, id: nat)
    requires Complete(h) && id in h && h[id].Record?
    requires forall w, steps, s :: Reached(h, Ref(id), w, steps) && w != Ref(id) ==> !Says(h, w, s)
    requires forall s :: !FirstSays(h[id].fields, DIRECT, s)
    ensures Closed(h) && forall s :: Search(h, Ref(id), {}).message == Some(s) <==> FirstSays(h[id].fields, FALLBACK, s)
  {
    hide FirstSays, Before, After, Reached, Says, Below, Offers, Search, Children;
    CompleteIsClosed(h);
    assert Before(h[id]).None? by {
      if Before(h[id]).Some? { BeforeIs(h[id], Before(h[id]).value); }
    }
    forall w, steps, s | Below(h, Ref(id), w, steps) && w != Ref(id) ensures !Offers(h, w, s) {
      SaysIsOffers(h, w, s);
      ReachedIsBelow(h, Ref(id), w, steps);
      OpaqueIsSilent(h, s);
    }
    FallbackSpeaksLast(h, id);
    forall s ensures After(h[id]) == Some(s) <==> FirstSays(h[id].fields, FALLBACK, s) {
      AfterIs(h[id], s);
    }
  }

  // ---------------------------------------------------------------- silent objects make no difference

  /** The objects in `quiet` are silent, and lead nowhere but to each other and to `seen`. */
  ghost predicate Silent(h: Heap, quiet: set<nat>, seen: set<nat>) {
    forall id :: id in quiet ==> id in h && QuietObject(h, id, quiet + seen)
  }

  lemma {:induction false} SilentMore(h: Heap, quiet: set<nat>, seen: set<nat>, seen': set<nat>)
    requires Silent(h, quiet, seen) && seen <= seen'
    ensures Silent(h, quiet, seen') && Silent(h, quiet - seen', seen')
  {
    forall id | id in quiet ensures QuietObject(h, id, quiet + seen') && QuietObject(h, id, quiet - seen' + seen') {
      assert QuietObject(h, id, quiet + seen);
    }
  }

  lemma {:induction false} QuietIsMute(h: Heap, id: nat, visited: set<nat>)
    requires id in h && QuietObject(h, id, visited)
    ensures Before(h[id]).None? && After(h[id]).None?
  {
    if h[id].Record? {
      FirstNonEmptySpec(DirectValues(h[id].fields));
      FirstNonEmptySpec(FallbackValues(h[id].fields));
      forall s ensures !OffersIn(DirectValues(h[id].fields), s) && !OffersIn(FallbackValues(h[id].fields), s) {
        assert !Offers(h, Ref(id), s);
      }
    }
  }

  /** A search among silent objects finds nothing and stays among them. */
  lemma {:induction false} QuietSearch(h: Heap, v: Value, quiet: set<nat>, seen: set<nat>)
    requires Closed(h) && InHeap(h, v) && Silent(h, quiet, seen) && QuietValue(v, quiet + seen)
    ensures Search(h, v, seen).message.None? && Search(h, v, seen).seen <= quiet + seen
    decreases |h.Keys - seen|, 0, 1
  {
    hide QuietObject, Before, After, Blank;
    if v.Text? {
      TrimSpec(v.text);
    } else if v.Ref? && v.id !in seen {
      Shrinks(h.Keys, seen, v.id);
      QuietIsMute(h, v.id, quiet + seen);
      SilentMore(h, quiet, seen, seen + {v.id});
      assert forall u :: u in Children(h[v.id]) ==> QuietValue(u, quiet + (seen + {v.id})) by {
        QuietChildren(h, v.id, quiet + seen, quiet + (seen + {v.id}));
      }
      QuietSearchAll(h, Children(h[v.id]), quiet, seen + {v.id});
    }
  }

  lemma {:induction false} QuietChildren(h: Heap, id: nat, visited: set<nat>, visited': set<nat>)
    requires id in h && QuietObject(h, id, visited) && visited <= visited'
    ensures forall u :: u in Children(h[id]) ==> QuietValue(u, visited')
  {
  }

  lemma {:induction false} QuietSearchAll(h: Heap, vs: seq<Value>, quiet: set<nat>, seen: set<nat>)
    requires Closed(h) && (forall v :: v in vs ==> InHeap(h, v)) && Silent(h, quiet, seen)
    requires forall v :: v in vs ==> QuietValue(v, quiet + seen)
    ensures SearchAll(h, vs, seen).message.None? && SearchAll(h, vs, seen).seen <= quiet + seen
    decreases |h.Keys - seen|, 1, |vs|
  {
    hide QuietObject, QuietValue, Closed, Silent;
    if vs == [] {
    } else {
      QuietSearch(h, vs[0], quiet, seen);
      var first := Search(h, vs[0], seen);
      ShrinksToo(h.Keys, seen, first.seen);
      SilentMore(h, quiet, seen, first.seen);
      forall v | v in vs[1..] ensures QuietValue(v, quiet + first.seen) {
        QuietValueGrows(v, quiet + seen, quiet + first.seen);
      }
      QuietSearchAll(h, vs[1..], quiet, first.seen);
    }
  }

  lemma {:induction false} QuietValueGrows(v: Value, visited: set<nat>, visited': set<nat>)
    requires QuietValue(v, visited) && visited <= visited'
    ensures QuietValue(v, visited')
  {
  }

  /** Having seen silent objects before changes no answer. */
  lemma {:induction false} SilentIsInvisible(h: Heap, v: Value, quiet: set<nat>, seen: set<nat>)
    requires Closed(h) && InHeap(h, v) && Silent(h, quiet, seen)
    ensures Search(h, v, seen + quiet).message == Search(h, v, seen).message
    ensures Search(h, v, seen).message.None? ==> Search(h, v, seen + quiet).seen == Search(h, v, seen).seen + quiet
    decreases |h.Keys - seen|, 0, 1
  {
    hide QuietObject, Before, After, Blank, Trim;
    if v.Ref? && v.id !in seen {
      Shrinks(h.Keys, seen, v.id);
      if v.id in quiet {
        assert QuietValue(v, quiet + seen);
        QuietSearch(h, v, quiet, seen);
      } else {
        SilentMore(h, quiet, seen, seen + {v.id});
        SilentIsInvisibleAll(h, Children(h[v.id]), quiet, seen + {v.id});
        assert seen + quiet + {v.id} == seen + {v.id} + quiet;
      }
    }
  }

  lemma {:induction false} SearchNone(h: Heap, seen: set<nat>)
    requires Closed(h)
    ensures SearchAll(h, [], seen) == Found(None, seen)
  {
  }

  lemma {:induction false} SearchFirst(h: Heap, vs: seq<Value>, seen: set<nat>)
    requires Closed(h) && vs != [] && forall v :: v in vs ==> InHeap(h, v)
    ensures var first := Search(h, vs[0], seen);
            SearchAll(h, vs, seen) == if first.message.Some? then first else SearchAll(h, vs[1..], first.seen)
  {
  }

  lemma {:induction false} SilentIsInvisibleAll(h: Heap, vs: seq<Value>, quiet: set<nat>, seen: set<nat>)
    requires Closed(h) && (forall v :: v in vs ==> InHeap(h, v)) && Silent(h, quiet, seen)
    ensures SearchAll(h, vs, seen + quiet).message == SearchAll(h, vs, seen).message
    ensures SearchAll(h, vs, seen).message.None? ==>
              SearchAll(h, vs, seen + quiet).seen == SearchAll(h, vs, seen).seen + quiet
    decreases |h.Keys - seen|, 1, |vs|
  {
    hide QuietObject, QuietValue, Closed, Silent, Search, SearchAll;
    if vs == [] {
      SearchNone(h, seen);
      SearchNone(h, seen + quiet);
    } else {
      SearchFirst(h, vs, seen);
      SearchFirst(h, vs, seen + quiet);
      SilentIsInvisible(h, vs[0], quiet, seen);
      var first := Search(h, vs[0], seen);
      if first.message.None? {
        ShrinksToo(h.Keys, seen, first.seen);
        SilentMore(h, quiet, seen, first.seen);
        SilentIsInvisibleAll(h, vs[1..], quiet, first.seen);
      }
    }
  }

  /** Of several values the first that finds a message by itself answers, whatever was seen before it. */
  lemma {:induction false} FirstChildAnswers(h: Heap, vs: seq<Value>, quiet: set<nat>, seen: set<nat>, i: nat)
    requires Closed(h) && (forall v :: v in vs ==> InHeap(h, v)) && Silent(h, quiet, seen) && i < |vs|
    requires Search(h, vs[i], seen).message.Some? && forall j :: 0 <= j < i ==> Search(h, vs[j], seen).message.None?
    ensures SearchAll(h, vs, seen + quiet).message == Search(h, vs[i], seen).message
    decreases i
  {
    hide QuietObject;
    SilentIsInvisible(h, vs[0], quiet, seen);
    if i > 0 {
      SilenceIsClosed(h, vs[0], seen);
      var visited := Search(h, vs[0], seen).seen;
      var more := quiet + (visited - seen);
      assert Silent(h, more, seen) by {
        forall id | id in more ensures id in h && QuietObject(h, id, more + seen) {
          QuietGrows(h, id, if id in quiet then quiet + seen else visited, more + seen);
        }
      }
      assert seen + more == visited + quiet;
      FirstChildAnswers(h, vs[1..], more, seen, i - 1);
    }
  }

  lemma {:induction false} QuietGrows(h: Heap, id: nat, visited: set<nat>, visited': set<nat>)
    requires id in h && QuietObject(h, id, visited) && visited <= visited'
    ensures QuietObject(h, id, visited')
  {
  }

  /**
   * Where no direct field speaks, the first of the seven nested fields that leads to a message by itself,
   * not through the record again, decides.
   */
  lemma {:induction false} NestedFieldsInOrder(h: Heap, id: nat, i: nat)
    requires Complete(h) && id in h && h[id].Record? && (forall s :: !FirstSays(h[id].fields, DIRECT, s))
    requires i < 7 && NESTED[i] in h[id].fields
    ensures Closed(h) && InHeap(h, h[id].fields[NESTED[i]])
    ensures (forall j :: 0 <= j < 7 && NESTED[j] in h[id].fields ==> InHeap(h, h[id].fields[NESTED[j]]))
    ensures Search(h, h[id].fields[NESTED[i]], {id}).message.Some?
            && (forall j :: 0 <= j < i && NESTED[j] in h[id].fields ==>
                  Search(h, h[id].fields[NESTED[j]], {id}).message.None?)
            ==> Search(h, Ref(id), {}).message == Search(h, h[id].fields[NESTED[i]], {id}).message
  {
    hide FirstSays, Before, After;
    CompleteIsClosed(h);
    assert Before(h[id]).None? by {
      if Before(h[id]).Some? { BeforeIs(h[id], Before(h[id]).value); }
    }
    var fields := h[id].fields;
    var vs := NestedValues(fields);
    assert forall j :: 0 <= j < 7 ==> vs[j] == Get(fields, NESTED[j]);
    if Search(h, fields[NESTED[i]], {id}).message.Some?
       && (forall j :: 0 <= j < i && NESTED[j] in fields ==> Search(h, fields[NESTED[j]], {id}).message.None?)
    {
      FirstChildAnswers(h, vs, {}, {id}, i);
      assert {id} + {} == {} + {id} == {id};
    }
  }
}
