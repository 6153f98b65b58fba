/** What the canvas layout promises: tidy lanes, as few as possible, and an arc for every edge. */
module GraphLayoutTheorems {
  import opened Sequences
  import opened GraphLayout

  // ---------------------------------------------------------------- the greedy pass

  lemma {:induction false} LayPrefix(cs: seq<Candidate>, k: nat)
    requires k <= |cs|
    ensures Lay(cs)[..k] == Lay(cs[..k])
  {
    if k < |cs| {
      LayPrefix(cs[..|cs| - 1], k);
      assert cs[..|cs| - 1][..k] == cs[..k];
      assert Lay(cs)[..k] == Lay(cs[..|cs| - 1])[..k];
    } else {
      assert cs[..k] == cs;
    }
  }

  lemma {:induction false} LayAt(cs: seq<Candidate>, i: nat)
    requires i < |cs|
    ensures Lay(cs)[i] == ArcFor(cs[i], Lay(cs)[..i])
  {
    LayPrefix(cs, i + 1);
    LayPrefix(cs, i);
    assert cs[..i + 1][..i] == cs[..i];
    assert Lay(cs)[i] == Lay(cs)[..i + 1][i];
  }

  lemma {:induction false} PlacedFrom(arcs: seq<Arc>, side: Side, p: Placed) returns (i: nat)
    requires p in PlacedOn(arcs, side)
    ensures i < |arcs| && InGutter(arcs[i], side)
    ensures p == Placed(arcs[i].candidate.Lo(), arcs[i].candidate.Hi(), arcs[i].lane)
  {
    var n := |arcs| - 1;
    if p in PlacedOn(arcs[..n], side) {
      i := PlacedFrom(arcs[..n], side, p);
    } else {
      i := n;
    }
  }

  lemma {:induction false} PlacedAt(arcs: seq<Arc>, side: Side, i: nat)
    requires i < |arcs| && InGutter(arcs[i], side)
    ensures Placed(arcs[i].candidate.Lo(), arcs[i].candidate.Hi(), arcs[i].lane) in PlacedOn(arcs, side)
  {
    var n := |arcs| - 1;
    if i < n {
      PlacedAt(arcs[..n], side, i);
    }
  }

  predicate Clash(a: Arc, b: Arc) {
    && !a.candidate.adjacent && !b.candidate.adjacent
    && a.candidate.side == b.candidate.side
    && SpansOverlap(a.candidate.Lo(), a.candidate.Hi(), b.candidate.Lo(), b.candidate.Hi())
  }

  lemma {:induction false} LaneIsFree(cs: seq<Candidate>, j: nat, i: nat)
    requires j < i < |cs| && Clash(Lay(cs)[j], Lay(cs)[i])
    ensures Lay(cs)[j].lane != Lay(cs)[i].lane
  {
    LayAt(cs, i);
    LayAt(cs, j);
    PlacedAt(Lay(cs)[..i], cs[i].side, j);
  }

  /** Every lane below the one chosen is held by an earlier arc that clashes. */
  lemma {:induction false} LaneIsLowest(cs: seq<Candidate>, i: nat, lane: nat) returns (j: nat)
    requires i < |cs| && lane < Lay(cs)[i].lane
    ensures j < i && Clash(Lay(cs)[j], Lay(cs)[i]) && Lay(cs)[j].lane == lane
  {
    var arcs := Lay(cs);
    LayAt(cs, i);
    var taken := Taken(PlacedOn(arcs[..i], cs[i].side), cs[i].Lo(), cs[i].Hi());
    assert lane in taken;
    var p :| p in PlacedOn(arcs[..i], cs[i].side) && SpansOverlap(cs[i].Lo(), cs[i].Hi(), p.lo, p.hi) && p.lane == lane;
    j := PlacedFrom(arcs[..i], cs[i].side, p);
  }

  ghost predicate ByStart(cs: seq<Candidate>) {
    forall i, j :: 0 <= i < j < |cs| ==> cs[i].Lo() <= cs[j].Lo()
  }

  /** The row is one of those from the first to the last that the arc joins. */
  predicate Spans(c: Candidate, row: int) {
    c.fromIndex <= row <= c.toIndex || c.toIndex <= row <= c.fromIndex
  }

  /** Arcs of `side`, hops to the next row left out, whose inclusive span contains `row`. */
  ghost function Crossing(arcs: seq<Arc>, side: Side, row: int): set<nat> {
    set i: nat | i < |arcs| && !arcs[i].candidate.adjacent && arcs[i].candidate.side == side && arcs[i].lane >= 0
                 && Spans(arcs[i].candidate, row)
  }

  function LaneAt(arcs: seq<Arc>): nat -> int {
    (i: nat) => if i < |arcs| then arcs[i].lane else -1
  }

  lemma {:induction false} DepthAtMostLanes(cs: seq<Candidate>, side: Side, row: int)
    ensures |Crossing(Lay(cs), side, row)| <= LaneCount(PlacedOn(Lay(cs), side))
  {
    var arcs := Lay(cs);
    var s := Crossing(arcs, side, row);
    forall i | i in s ensures 0 <= LaneAt(arcs)(i) < LaneCount(PlacedOn(arcs, side)) {
      PlacedAt(arcs, side, i);
    }
    forall i, j | i in s && j in s && i < j ensures LaneAt(arcs)(i) != LaneAt(arcs)(j) {
      LaneIsFree(cs, i, j);
    }
    InjectionBounds(s, LaneAt(arcs), LaneCount(PlacedOn(arcs, side)));
  }

  /** The arc in the highest lane starts on a row crossed once per lane. */
  lemma {:induction false} DeepestRow(cs: seq<Candidate>, side: Side) returns (top: nat)
    requires ByStart(cs) && LaneCount(PlacedOn(Lay(cs), side)) > 0
    ensures top < |cs| && top in Crossing(Lay(cs), side, cs[top].Lo())
    ensures |Crossing(Lay(cs), side, cs[top].Lo())| >= LaneCount(PlacedOn(Lay(cs), side))
  {
    hide Lay, PlacedOn, LaneCount;
    var arcs, count := Lay(cs), LaneCount(PlacedOn(Lay(cs), side));
    var p :| p in PlacedOn(arcs, side) && p.lane == count - 1;
    top := PlacedFrom(arcs, side, p);
    var s := Crossing(arcs, side, cs[top].Lo());
    forall l: int | 0 <= l < count ensures Reaches(s, LaneAt(arcs), l) {
      if l == count - 1 {
        assert top in s && LaneAt(arcs)(top) == l;
      } else {
        var j := LaneIsLowest(cs, top, l);
        assert j in s && LaneAt(arcs)(j) == l;
      }
    }
    SurjectionBounds(s, LaneAt(arcs), count);
  }

  // ---------------------------------------------------------------- the order of the candidates

  lemma {:induction false} OrderIsPreorder(compare: (string, string) -> int)
    requires Collation(compare)
    ensures Preorder(Order(compare))
  {
    forall a, b, c | Order(compare)(a, b) && Order(compare)(b, c) ensures Order(compare)(a, c) {
    }
  }

  lemma {:induction false} SortedByStart(nodes: seq<string>, edges: seq<Edge>, compare: (string, string) -> int)
    requires Collation(compare)
    ensures ByStart(SortedCandidates(nodes, edges, compare))
  {
    OrderIsPreorder(compare);
    var known := Known(IndexOf(nodes), edges);
    KnownGroupable(IndexOf(nodes), edges);
    SortSorted(Order(compare), Candidates(IndexOf(nodes), known, Keys(known)));
    var cs := SortedCandidates(nodes, edges, compare);
    forall i, j | 0 <= i < j < |cs| ensures cs[i].Lo() <= cs[j].Lo() {
      assert Order(compare)(cs[i], cs[j]);
    }
  }

  // ---------------------------------------------------------------- main results: lanes

  function Lanes(layout: Layout, side: Side): nat {
    if side == Left then layout.leftLanes else layout.rightLanes
  }

  /** Arcs of one side that meet on a row never share a lane, so no two draw as one line. */
  lemma {:induction false} NoTwoClashingArcsShareALane(nodes: seq<string>, edges: seq<Edge>,
                                                       compare: (string, string) -> int)
    ensures var arcs := LayoutOf(nodes, edges, compare).arcs;
            forall i, j :: 0 <= i < j < |arcs| && Clash(arcs[i], arcs[j]) ==> arcs[i].lane != arcs[j].lane
  {
    var cs := SortedCandidates(nodes, edges, compare);
    forall i, j | 0 <= i < j < |cs| && Clash(Lay(cs)[i], Lay(cs)[j]) ensures Lay(cs)[i].lane != Lay(cs)[j].lane {
      LaneIsFree(cs, i, j);
    }
  }

  ghost predicate Occupied(arcs: seq<Arc>, i: nat, lane: int)
    requires i < |arcs|
  {
    exists j: nat :: j < i && Clash(arcs[j], arcs[i]) && arcs[j].lane == lane
  }

  /** Each arc has the lowest lane that the arcs before it leave free. */
  lemma {:induction false} LanesAreLowest(nodes: seq<string>, edges: seq<Edge>, compare: (string, string) -> int)
    ensures var arcs := LayoutOf(nodes, edges, compare).arcs;
            forall i: nat, lane: nat :: i < |arcs| && lane < arcs[i].lane ==> Occupied(arcs, i, lane)
  {
    var cs := SortedCandidates(nodes, edges, compare);
    hide SortedCandidates, Clash;
    forall i: nat, lane: nat | i < |cs| && lane < Lay(cs)[i].lane ensures Occupied(Lay(cs), i, lane) {
      var j := LaneIsLowest(cs, i, lane);
    }
  }

  /** The lane count of a side is the greatest number of its gutter arcs that cross one row. */
  lemma {:induction false} LaneCountIsMaximumDepth(nodes: seq<string>, edges: seq<Edge>,
                                                   compare: (string, string) -> int, side: Side)
    returns (row: nat)
    requires Collation(compare)
    ensures var layout := LayoutOf(nodes, edges, compare);
            && (forall r: int :: |Crossing(layout.arcs, side, r)| <= Lanes(layout, side))
            && |Crossing(layout.arcs, side, row)| == Lanes(layout, side)
  {
    hide Lay, PlacedOn, LaneCount, Crossing, SortedCandidates;
    var cs := SortedCandidates(nodes, edges, compare);
    forall r: int ensures |Crossing(Lay(cs), side, r)| <= LaneCount(PlacedOn(Lay(cs), side)) {
      DepthAtMostLanes(cs, side, r);
    }
    row := 0;
    if LaneCount(PlacedOn(Lay(cs), side)) > 0 {
      SortedByStart(nodes, edges, compare);
      var top := DeepestRow(cs, side);
      row := cs[top].Lo();
    }
  }

  /** No colouring that keeps clashing arcs apart uses fewer lanes on either side. */
  lemma {:induction false} NoColouringUsesFewerLanes(nodes: seq<string>, edges: seq<Edge>,
                                                     compare: (string, string) -> int, side: Side, colour: nat -> int,
                                                     k: nat)
    requires Collation(compare)
    requires var arcs := LayoutOf(nodes, edges, compare).arcs;
             && (forall i: nat :: i < |arcs| && InGutter(arcs[i], side) ==> 0 <= colour(i) < k)
             && (forall i: nat, j: nat :: i < j < |arcs| && Clash(arcs[i], arcs[j]) ==> colour(i) != colour(j))
    ensures Lanes(LayoutOf(nodes, edges, compare), side) <= k
  {
    hide Lay, PlacedOn, LaneCount, SortedCandidates, LayoutOf;
    var arcs := LayoutOf(nodes, edges, compare).arcs;
    var row := LaneCountIsMaximumDepth(nodes, edges, compare, side);
    var s := Crossing(arcs, side, row);
    forall i, j | i in s && j in s && i < j ensures colour(i) != colour(j) {
      assert Clash(arcs[i], arcs[j]);
    }
    InjectionBounds(s, colour, k);
  }

  // ---------------------------------------------------------------- main results: edges

  /** What is common to the candidates before and after sorting: one for each group. */
  ghost predicate OnePerGroup(index: map<string, nat>, known: seq<Edge>, cs: seq<Candidate>) {
    && Groupable(index, known, Keys(known))
    && (forall c :: c in cs ==> c.key in Keys(known) && c == MakeCandidate(index, c.key, Group(known, c.key)))
    && (forall k :: k in Keys(known) ==> MakeCandidate(index, k, Group(known, k)) in cs)
    && Distinct(cs)
  }

  lemma {:induction false} CandidatesOnePerGroup(index: map<string, nat>, known: seq<Edge>)
    requires Groupable(index, known, Keys(known))
    ensures OnePerGroup(index, known, Candidates(index, known, Keys(known)))
  {
    hide MakeCandidate, Group, Keys;
    KeysMembers(known);
    var raw := Candidates(index, known, Keys(known));
    forall k | k in Keys(known) ensures MakeCandidate(index, k, Group(known, k)) in raw {
      var i :| 0 <= i < |Keys(known)| && Keys(known)[i] == k;
      assert raw[i] in raw;
    }
    forall i, j | 0 <= i < j < |raw| ensures raw[i] != raw[j] { assert Keys(known)[i] != Keys(known)[j]; }
  }

  lemma {:induction false} SortedOnePerGroup(nodes: seq<string>, edges: seq<Edge>, compare: (string, string) -> int)
    ensures OnePerGroup(IndexOf(nodes), Known(IndexOf(nodes), edges), SortedCandidates(nodes, edges, compare))
  {
    hide MakeCandidate, Group, Keys, Known, IndexOf, SortBy;
    var index, known := IndexOf(nodes), Known(IndexOf(nodes), edges);
    KnownGroupable(index, edges);
    CandidatesOnePerGroup(index, known);
    var raw := Candidates(index, known, Keys(known));
    SortMembers(Order(compare), raw);
    SortMultiset(Order(compare), raw);
    DistinctByMultiset(raw, SortBy(Order(compare), raw));
  }

  ghost predicate HasEdge(edges: seq<Edge>, key: string, id: string) {
    exists e :: e in edges && e.group == key && e.id == id
  }

  lemma {:induction false} IdsOfGroup(known: seq<Edge>, key: string, id: string)
    ensures id in SortBy(TextLe, Ids(Group(known, key))) <==> HasEdge(known, key, id)
  {
    hide Group, TextLe, SortBy;
    var g := Group(known, key);
    GroupMembers(known, key);
    SortMembers(TextLe, Ids(g));
    assert id in Ids(g) <==> exists e :: e in g && e.id == id by {
      if id in Ids(g) {
        var i :| 0 <= i < |g| && Ids(g)[i] == id;
        assert g[i] in g;
      }
      if e :| e in g && e.id == id {
        var i :| 0 <= i < |g| && g[i] == e;
        assert Ids(g)[i] == id;
      }
    }
  }

  /**
   * The id lists of the arcs partition the edges whose endpoints are on the canvas: arc `i` lists
   * exactly the ids of its own group's edges, every such edge has an arc, no two arcs share a key.
   */
  lemma {:induction false} ArcsPartitionKnownEdges(nodes: seq<string>, edges: seq<Edge>,
                                                   compare: (string, string) -> int)
    ensures var arcs, known := LayoutOf(nodes, edges, compare).arcs, Known(IndexOf(nodes), edges);
            && (forall i, id :: 0 <= i < |arcs| ==>
                  (id in arcs[i].candidate.edgeIds <==> HasEdge(known, arcs[i].candidate.key, id)))
            && (forall e :: e in known ==> exists i :: 0 <= i < |arcs| && arcs[i].candidate.key == e.group)
            && (forall i, j :: 0 <= i < j < |arcs| ==> arcs[i].candidate.key != arcs[j].candidate.key)
  {
    var known, cs := Known(IndexOf(nodes), edges), SortedCandidates(nodes, edges, compare);
    SortedOnePerGroup(nodes, edges, compare);
    forall i, id | 0 <= i < |cs| ensures id in cs[i].edgeIds <==> HasEdge(known, cs[i].key, id) {
      IdsOfGroup(known, cs[i].key, id);
      assert cs[i] in cs;
    }
    forall e | e in known ensures exists i :: 0 <= i < |cs| && Lay(cs)[i].candidate.key == e.group {
      var i := ArcOfEdge(IndexOf(nodes), known, cs, e);
      assert Lay(cs)[i].candidate.key == e.group;
    }
    DistinctKeys(IndexOf(nodes), known, cs);
  }

  lemma {:induction false} ArcOfEdge(index: map<string, nat>, known: seq<Edge>, cs: seq<Candidate>,
                                     e: Edge) returns (i: nat)
    requires OnePerGroup(index, known, cs) && e in known
    ensures i < |cs| && Group(known, e.group) != [] && OnCanvas(index, Group(known, e.group)[0])
    ensures cs[i] == MakeCandidate(index, e.group, Group(known, e.group))
  {
    KeysMembers(known);
    GroupMembers(known, e.group);
    assert e in Group(known, e.group);
    i :| 0 <= i < |cs| && cs[i] == MakeCandidate(index, e.group, Group(known, e.group));
  }

  lemma {:induction false} DistinctKeys(index: map<string, nat>, known: seq<Edge>, cs: seq<Candidate>)
    requires OnePerGroup(index, known, cs)
    ensures forall i, j :: 0 <= i < j < |cs| ==> cs[i].key != cs[j].key
  {
    forall i, j | 0 <= i < j < |cs| ensures cs[i].key != cs[j].key {
      assert cs[i] in cs && cs[j] in cs;
    }
  }

  /** With unique edge ids, no id is listed twice, on one arc or on two. */
  lemma {:induction false} NoIdOnTwoArcs(nodes: seq<string>, edges: seq<Edge>, compare: (string, string) -> int, i: nat,
                                         j: nat, id: string)
    requires forall e, e' :: e in edges && e' in edges && e.id == e'.id ==> e == e'
    requires var arcs := LayoutOf(nodes, edges, compare).arcs;
             && i < |arcs| && j < |arcs|
             && id in arcs[i].candidate.edgeIds && id in arcs[j].candidate.edgeIds
    ensures i == j
  {
    var arcs, known := LayoutOf(nodes, edges, compare).arcs, Known(IndexOf(nodes), edges);
    ArcsPartitionKnownEdges(nodes, edges, compare);
    KnownMembers(IndexOf(nodes), edges);
    var e :| e in known && e.group == arcs[i].candidate.key && e.id == id;
    var e' :| e' in known && e'.group == arcs[j].candidate.key && e'.id == id;
    assert e == e';
  }

  /** An arc runs between the rows of its statuses: down on the right, up or in place on the left. */
  ghost predicate DrawnBetween(nodes: seq<string>, a: Arc) {
    var c := a.candidate;
    && c.fromIndex < |nodes| && nodes[c.fromIndex] == c.from && c.toIndex < |nodes| && nodes[c.toIndex] == c.to
    && a.fromY == 78 * c.fromIndex + 29 && a.toY == 78 * c.toIndex + 29
    && (c.side == Right <==> a.toY > a.fromY)
    && (c.selfLoop <==> a.toY == a.fromY)
    && (c.adjacent <==> a.toY == a.fromY + 78)
    && (if c.adjacent then a.lane == -1 else a.lane >= 0)
  }

  /** The badge of an arc counts its group's edges, each as often as it occurs, in id order. */
  ghost predicate BadgeComplete(known: seq<Edge>, c: Candidate) {
    && multiset(c.edgeIds) == multiset(Ids(Group(known, c.key)))
    && SortedBy(TextLe, c.edgeIds)
    && exists e :: e in known && e.group == c.key && e.from == c.from && e.to == c.to
  }

  /** Every arc is drawn between its rows, carries its whole group, and arcs come by start, length, key. */
  lemma {:induction false} ArcsAreFaithful(nodes: seq<string>, edges: seq<Edge>, compare: (string, string) -> int)
    requires Collation(compare)
    ensures var arcs := LayoutOf(nodes, edges, compare).arcs;
            && (forall i :: 0 <= i < |arcs| ==> DrawnBetween(nodes, arcs[i]))
            && (forall i :: 0 <= i < |arcs| ==> BadgeComplete(Known(IndexOf(nodes), edges), arcs[i].candidate))
            && (forall i, j :: 0 <= i < j < |arcs| ==> CandidateLe(compare, arcs[i].candidate, arcs[j].candidate))
  {
    hide IndexOf, Known, Keys, Group, MakeCandidate, SortBy, CandidateLe, NodesOf, Candidates;
    var index, known := IndexOf(nodes), Known(IndexOf(nodes), edges);
    var cs := SortedCandidates(nodes, edges, compare);
    SortedOnePerGroup(nodes, edges, compare);
    forall i | 0 <= i < |cs| ensures DrawnBetween(nodes, Lay(cs)[i]) && BadgeComplete(known, cs[i]) {
      assert cs[i] in cs;
      LayAt(cs, i);
      CandidateFaithful(nodes, known, cs[i]);
      ArcDrawn(nodes, cs[i], Lay(cs)[..i]);
    }
    OrderIsPreorder(compare);
    KnownGroupable(index, edges);
    SortSorted(Order(compare), Candidates(index, known, Keys(known)));
    forall i, j | 0 <= i < j < |cs| ensures CandidateLe(compare, cs[i], cs[j]) {
      assert Order(compare)(cs[i], cs[j]);
    }
  }

  lemma {:induction false} CandidateFaithful(nodes: seq<string>, known: seq<Edge>, c: Candidate)
    requires var index := IndexOf(nodes);
             && Group(known, c.key) != [] && OnCanvas(index, Group(known, c.key)[0])
             && c == MakeCandidate(index, c.key, Group(known, c.key))
    ensures c.from in IndexOf(nodes) && c.to in IndexOf(nodes)
    ensures c.fromIndex == IndexOf(nodes)[c.from] && c.toIndex == IndexOf(nodes)[c.to]
    ensures c.side == (if c.toIndex > c.fromIndex then Right else Left)
    ensures c.selfLoop == (c.fromIndex == c.toIndex) && c.adjacent == (c.toIndex == c.fromIndex + 1)
    ensures BadgeComplete(known, c)
  {
    hide IndexOf, Group;
    var g := Group(known, c.key);
    GroupMembers(known, c.key);
    assert g[0] in g;
    SortMultiset(TextLe, Ids(g));
    TextLeOrder();
    SortSorted(TextLe, Ids(g));
  }

  lemma {:induction false} ArcDrawn(nodes: seq<string>, c: Candidate, before: seq<Arc>)
    requires c.from in IndexOf(nodes) && c.to in IndexOf(nodes)
    requires c.fromIndex == IndexOf(nodes)[c.from] && c.toIndex == IndexOf(nodes)[c.to]
    requires c.side == (if c.toIndex > c.fromIndex then Right else Left)
    requires c.selfLoop == (c.fromIndex == c.toIndex) && c.adjacent == (c.toIndex == c.fromIndex + 1)
    ensures DrawnBetween(nodes, ArcFor(c, before))
  {
  }

  // ---------------------------------------------------------------- main results: what is on the canvas

  /** The boxes come in the order of the statuses, 78 apart; arcs end at the boxes of their statuses. */
  lemma {:induction false} CanvasIsDrawn(nodes: seq<string>, edges: seq<Edge>, compare: (string, string) -> int)
    requires Collation(compare)
    ensures var l := LayoutOf(nodes, edges, compare);
            && |l.nodes| == |nodes|
            && (forall i :: 0 <= i < |nodes| ==>
                  l.nodes[i].id == nodes[i] && l.nodes[i].index == i && l.nodes[i].y == 78 * i + 29)
            && (forall i :: 0 <= i < |l.arcs| ==> EndsAtBoxes(l, l.arcs[i]))
            && l.height == if |nodes| == 0 then 0 else l.nodes[|nodes| - 1].y + 29
  {
    hide SortedCandidates, Lay;
    ArcsAreFaithful(nodes, edges, compare);
    var l := LayoutOf(nodes, edges, compare);
    forall i | 0 <= i < |l.arcs| ensures EndsAtBoxes(l, l.arcs[i]) {
      assert DrawnBetween(nodes, l.arcs[i]);
    }
  }

  ghost predicate EndsAtBoxes(l: Layout, a: Arc) {
    var c := a.candidate;
    && c.fromIndex < |l.nodes| && l.nodes[c.fromIndex].id == c.from && a.fromY == l.nodes[c.fromIndex].y
    && c.toIndex < |l.nodes| && l.nodes[c.toIndex].id == c.to && a.toY == l.nodes[c.toIndex].y
  }

  /** The edges that count are those whose two statuses are listed, self loops and repeats included. */
  lemma {:induction false} KnownIsListed(nodes: seq<string>, edges: seq<Edge>, e: Edge)
    ensures multiset(Known(IndexOf(nodes), edges))[e]
            == if e.from in nodes && e.to in nodes then multiset(edges)[e] else 0
  {
    KnownMembers(IndexOf(nodes), edges);
  }

  /** Arcs clash if they are on one side, neither is a hop to the next row, and some row is in both spans. */
  lemma {:induction false} ClashMeansSharedRow(a: Arc, b: Arc)
    ensures Clash(a, b)
            <==> && !a.candidate.adjacent && !b.candidate.adjacent && a.candidate.side == b.candidate.side
                 && exists row: int :: Spans(a.candidate, row) && Spans(b.candidate, row)
  {
    var c, d := a.candidate, b.candidate;
    if Clash(a, b) {
      var row := if c.Lo() < d.Lo() then d.Lo() else c.Lo();
      assert Spans(c, row) && Spans(d, row);
    }
  }

  /** `a` starts above `b`, or they start on one row and `a` is shorter, or as long with the earlier key. */
  ghost predicate ComesBefore(compare: (string, string) -> int, a: Candidate, b: Candidate) {
    var top := if a.fromIndex <= a.toIndex then a.fromIndex else a.toIndex;
    var top' := if b.fromIndex <= b.toIndex then b.fromIndex else b.toIndex;
    var length := if a.fromIndex <= a.toIndex then a.toIndex - a.fromIndex else a.fromIndex - a.toIndex;
    var length' := if b.fromIndex <= b.toIndex then b.toIndex - b.fromIndex else b.fromIndex - b.toIndex;
    top < top' || (top == top' && (length < length' || (length == length' && compare(a.key, b.key) <= 0)))
  }

  lemma {:induction false} ArcsComeInOrder(nodes: seq<string>, edges: seq<Edge>, compare: (string, string) -> int)
    requires Collation(compare)
    ensures var arcs := LayoutOf(nodes, edges, compare).arcs;
            forall i, j :: 0 <= i < j < |arcs| ==> ComesBefore(compare, arcs[i].candidate, arcs[j].candidate)
  {
    hide LayoutOf;
    ArcsAreFaithful(nodes, edges, compare);
    var arcs := LayoutOf(nodes, edges, compare).arcs;
    forall i, j | 0 <= i < j < |arcs| ensures ComesBefore(compare, arcs[i].candidate, arcs[j].candidate) {
      assert CandidateLe(compare, arcs[i].candidate, arcs[j].candidate);
    }
  }

  // ---------------------------------------------------------------- which edge of a group, which group of a tie

  /** The first edge of the group that joins two statuses of the canvas. */
  ghost predicate FirstEdge(nodes: seq<string>, edges: seq<Edge>, key: string, at: nat) {
    && at < |edges| && Joins(nodes, edges[at], key)
    && forall m :: 0 <= m < at ==> !Joins(nodes, edges[m], key)
  }

  ghost predicate Joins(nodes: seq<string>, e: Edge, key: string) { e.group == key && e.from in nodes && e.to in nodes }

  /** `places[i]` is where the group of `keys[i]` begins. */
  ghost predicate PlacedKeys(nodes: seq<string>, edges: seq<Edge>, keys: seq<string>, places: seq<nat>) {
    && |places| == |keys|
    && (forall i :: 0 <= i < |keys| ==> Begins(nodes, edges, keys[i], places[i]))
    && (forall i, j :: 0 <= i < j < |keys| ==> places[i] < places[j])
  }

  ghost predicate Begins(nodes: seq<string>, edges: seq<Edge>, key: string, at: nat) {
    && FirstEdge(nodes, edges, key, at)
    && var group := Group(Known(IndexOf(nodes), edges), key); group != [] && group[0] == edges[at]
  }

  lemma {:induction false} KeysArePlaced(nodes: seq<string>, edges: seq<Edge>) returns (places: seq<nat>)
    ensures PlacedKeys(nodes, edges, Keys(Known(IndexOf(nodes), edges)), places)
  {
    hide *;
    if edges == [] {
      places := [];
      NoPlaces(nodes);
    } else {
      var n := |edges| - 1;
      places := KeysArePlaced(nodes, edges[..n]);
      PlacesStay(nodes, edges, Keys(Known(IndexOf(nodes), edges[..n])), places);
      KeysStep(IndexOf(nodes), edges);
      if OnCanvas(IndexOf(nodes), edges[n]) && edges[n].group !in Keys(Known(IndexOf(nodes), edges[..n])) {
        NewBegins(nodes, edges);
        PlaceAdded(nodes, edges, Keys(Known(IndexOf(nodes), edges[..n])), places);
        places := places + [n];
      }
    }
  }

  lemma {:induction false} NoPlaces(nodes: seq<string>)
    ensures PlacedKeys(nodes, [], Keys(Known(IndexOf(nodes), [])), [])
  {
    hide IndexOf;
  }

  lemma {:induction false} PlacesStay(nodes: seq<string>, edges: seq<Edge>, keys: seq<string>, places: seq<nat>)
    requires edges != [] && PlacedKeys(nodes, edges[..|edges| - 1], keys, places)
    ensures PlacedKeys(nodes, edges, keys, places) && forall i :: 0 <= i < |places| ==> places[i] < |edges| - 1
  {
    hide Begins;
    forall i | 0 <= i < |places| ensures Begins(nodes, edges, keys[i], places[i]) && places[i] < |edges| - 1 {
      assert Begins(nodes, edges[..|edges| - 1], keys[i], places[i]);
      StillBegins(nodes, edges, keys[i], places[i]);
    }
  }

  lemma {:induction false} PlaceAdded(nodes: seq<string>, edges: seq<Edge>, keys: seq<string>, places: seq<nat>)
    requires edges != [] && PlacedKeys(nodes, edges, keys, places)
    requires forall i :: 0 <= i < |places| ==> places[i] < |edges| - 1
    requires Begins(nodes, edges, edges[|edges| - 1].group, |edges| - 1)
    ensures PlacedKeys(nodes, edges, keys + [edges[|edges| - 1].group], places + [|edges| - 1])
  {
    hide Begins;
  }

  lemma {:induction false} KeysStep(index: map<string, nat>, edges: seq<Edge>)
    requires edges != []
    ensures var n := |edges| - 1;
            var before := Keys(Known(index, edges[..n]));
            Keys(Known(index, edges))
            == if OnCanvas(index, edges[n]) && edges[n].group !in before then before + [edges[n].group] else before
  {
    KnownStep(index, edges);
    hide Known;
    var n := |edges| - 1;
    var before := Known(index, edges[..n]);
    assert (before + [edges[n]])[..|before|] == before;
  }

  lemma {:induction false} KnownStep(index: map<string, nat>, edges: seq<Edge>)
    requires edges != []
    ensures var n := |edges| - 1;
            Known(index, edges)
            == if OnCanvas(index, edges[n]) then Known(index, edges[..n]) + [edges[n]] else Known(index, edges[..n])
  {
  }

  lemma {:induction false} StillBegins(nodes: seq<string>, edges: seq<Edge>, key: string, at: nat)
    requires edges != [] && Begins(nodes, edges[..|edges| - 1], key, at)
    ensures Begins(nodes, edges, key, at) && at < |edges| - 1
  {
    var n, index := |edges| - 1, IndexOf(nodes);
    var before := Known(index, edges[..n]);
    KnownStep(index, edges);
    hide IndexOf, Known;
    assert (before + [edges[n]])[..|before|] == before;
    assert forall m :: 0 <= m < n ==> edges[..n][m] == edges[m];
  }

  lemma {:induction false} NewBegins(nodes: seq<string>, edges: seq<Edge>)
    requires var n, index := |edges| - 1, IndexOf(nodes);
             edges != [] && OnCanvas(index, edges[n]) && edges[n].group !in Keys(Known(index, edges[..n]))
    ensures Begins(nodes, edges, edges[|edges| - 1].group, |edges| - 1)
  {
    hide Known, Keys, Group, IndexOf, OnCanvas, Joins;
    var n, index := |edges| - 1, IndexOf(nodes);
    var before, e := Known(index, edges[..n]), edges[n];
    KeysMembers(before);
    KnownStep(index, edges);
    GroupStep(before, e);
    assert Joins(nodes, e, e.group) by { CanvasJoins(nodes, e); }
    forall m | 0 <= m < n ensures !Joins(nodes, edges[m], e.group) {
      NotYetKnown(nodes, edges[..n], e.group, m);
    }
  }

  lemma {:induction false} CanvasJoins(nodes: seq<string>, e: Edge)
    requires OnCanvas(IndexOf(nodes), e)
    ensures Joins(nodes, e, e.group)
  {
    hide IndexOf;
  }

  lemma {:induction false} GroupStep(edges: seq<Edge>, e: Edge)
    ensures Group(edges + [e], e.group) == Group(edges, e.group) + [e]
  {
    assert (edges + [e])[..|edges|] == edges;
  }

  lemma {:induction false} NotYetKnown(nodes: seq<string>, edges: seq<Edge>, key: string, m: nat)
    requires m < |edges| && Group(Known(IndexOf(nodes), edges), key) == []
    ensures !Joins(nodes, edges[m], key)
  {
    var index := IndexOf(nodes);
    KnownMembers(index, edges);
    GroupMembers(Known(index, edges), key);
    assert edges[m] !in Group(Known(index, edges), key);
  }

  /** Of two groups that tie in the order of the arcs, the one whose first edge comes first is first. */
  ghost predicate TieBroken(nodes: seq<string>, edges: seq<Edge>, a: Candidate, b: Candidate) {
    exists m: nat, m': nat :: FirstEdge(nodes, edges, a.key, m) && FirstEdge(nodes, edges, b.key, m') && m < m'
  }

  ghost predicate FollowsFirst(nodes: seq<string>, edges: seq<Edge>, c: Candidate) {
    exists m: nat :: FirstEdge(nodes, edges, c.key, m) && c.from == edges[m].from && c.to == edges[m].to
  }

  /** An arc joins the statuses of the first edge of its group, and ties keep the order of those edges. */
  lemma {:induction false} ArcsFollowEdges(nodes: seq<string>, edges: seq<Edge>, compare: (string, string) -> int)
    requires Collation(compare)
    ensures var arcs := LayoutOf(nodes, edges, compare).arcs;
            && (forall i :: 0 <= i < |arcs| ==> FollowsFirst(nodes, edges, arcs[i].candidate))
            && (forall i, j :: 0 <= i < j < |arcs| && ComesBefore(compare, arcs[j].candidate, arcs[i].candidate) ==>
                  TieBroken(nodes, edges, arcs[i].candidate, arcs[j].candidate))
  {
    hide IndexOf, Known, Keys, Group, SortBy, NodesOf, FirstEdge, TieBroken, ComesBefore, FollowsFirst;
    var index, known := IndexOf(nodes), Known(IndexOf(nodes), edges);
    KnownGroupable(index, edges);
    var keys, cs := Keys(known), Candidates(index, known, Keys(known));
    var sorted := SortBy(Order(compare), cs);
    var places := KeysArePlaced(nodes, edges);
    SortMembers(Order(compare), cs);
    forall i | 0 <= i < |sorted| ensures FollowsFirst(nodes, edges, sorted[i]) {
      assert sorted[i] in cs;
      var k :| 0 <= k < |cs| && cs[k] == sorted[i];
      assert Begins(nodes, edges, keys[k], places[k]);
      FirstIsFollowed(nodes, edges, cs[k], places[k]);
    }
    forall i, j | 0 <= i < j < |sorted| && ComesBefore(compare, sorted[j], sorted[i])
      ensures TieBroken(nodes, edges, sorted[i], sorted[j])
    {
      TiesKeepOrder(compare, cs, i, j);
      var x, y :| 0 <= x < y < |cs| && cs[x] == sorted[i] && cs[y] == sorted[j];
      assert Begins(nodes, edges, keys[x], places[x]) && Begins(nodes, edges, keys[y], places[y]);
      TieIsBroken(nodes, edges, cs[x], cs[y], places[x], places[y]);
    }
    assert LayoutOf(nodes, edges, compare).arcs == Lay(sorted);
  }

  lemma {:induction false} FirstIsFollowed(nodes: seq<string>, edges: seq<Edge>, c: Candidate, m: nat)
    requires FirstEdge(nodes, edges, c.key, m) && c.from == edges[m].from && c.to == edges[m].to
    ensures FollowsFirst(nodes, edges, c)
  {
  }

  lemma {:induction false} TieIsBroken(nodes: seq<string>, edges: seq<Edge>, a: Candidate, b: Candidate, m: nat,
                                       m': nat)
    requires FirstEdge(nodes, edges, a.key, m) && FirstEdge(nodes, edges, b.key, m') && m < m'
    ensures TieBroken(nodes, edges, a, b)
  {
  }

  lemma {:induction false} TiesKeepOrder(compare: (string, string) -> int, cs: seq<Candidate>, i: nat, j: nat)
    requires Collation(compare)
    requires var sorted := SortBy(Order(compare), cs);
             i < j < |sorted| && ComesBefore(compare, sorted[j], sorted[i])
    ensures var sorted := SortBy(Order(compare), cs); Ahead(cs, sorted[i], sorted[j])
  {
    hide SortBy, Ahead;
    var le, sorted := Order(compare), SortBy(Order(compare), cs);
    var a, b := sorted[i], sorted[j];
    var tie := Tie(le, a);
    OrderIsPreorder(compare);
    SortSorted(le, cs);
    assert le(a, b) && le(b, a) && le(a, a);
    assert Ahead(sorted, a, b) by { StandsAhead(sorted, i, j); }
    FilterAhead(tie, sorted, a, b);
    SortStable(le, cs, a);
    FilterAhead(tie, cs, a, b);
  }

  lemma {:induction false} StandsAhead<T>(s: seq<T>, i: nat, j: nat)
    requires i < j < |s|
    ensures Ahead(s, s[i], s[j])
  {
  }
}
