/**
 * The routing canvas: statuses in one column, transitions as arcs in lanes on either side
 * (ui/lib/workflowGraphLayout.ts).
 *
 * `compare` stands for String.prototype.localeCompare. It is a parameter, required only to be a
 * total preorder; what depends on it having no ties says so.
 */
module GraphLayout {
  import opened Sequences

  const ROW_PITCH := 78
  const NODE_HEIGHT := 58

  datatype Edge = Edge(id: string, from: string, to: string, group: string)
  datatype Side = Left | Right
  datatype LayoutNode = LayoutNode(id: string, index: nat, y: int)

  datatype Candidate = Candidate(
    key: string, from: string, to: string, fromIndex: nat, toIndex: nat,
    side: Side, selfLoop: bool, adjacent: bool, edgeIds: seq<string>)
  {
    function Lo(): nat { if fromIndex < toIndex then fromIndex else toIndex }
    function Hi(): nat { if fromIndex < toIndex then toIndex else fromIndex }
  }

  datatype Arc = Arc(candidate: Candidate, lane: int, fromY: int, toY: int)
  datatype Placed = Placed(lo: nat, hi: nat, lane: nat)
  datatype Layout = Layout(nodes: seq<LayoutNode>, arcs: seq<Arc>, leftLanes: nat, rightLanes: nat, height: nat)

  // ---------------------------------------------------------------- specification

  /** Map of node id to row; a repeated id keeps its last row. */
  function IndexOf(nodes: seq<string>): (index: map<string, nat>)
    ensures forall id :: id in index ==> index[id] < |nodes| && nodes[index[id]] == id
    ensures forall id :: id in nodes ==> id in index
    ensures forall id, j :: id in index && index[id] < j < |nodes| ==> nodes[j] != id
  {
    if nodes == [] then map[]
    else
      var n := |nodes| - 1;
      assert nodes == nodes[..n] + [nodes[n]];
      IndexOf(nodes[..n])[nodes[n] := n]
  }

  function NodesOf(nodes: seq<string>): seq<LayoutNode> {
    seq(|nodes|, i requires 0 <= i < |nodes| => LayoutNode(nodes[i], i, RowY(i)))
  }

  function RowY(row: nat): int { row * ROW_PITCH + NODE_HEIGHT / 2 }

  predicate OnCanvas(index: map<string, nat>, e: Edge) { e.from in index && e.to in index }

  /** The edges whose two endpoints are rows of the canvas. */
  function Known(index: map<string, nat>, edges: seq<Edge>): seq<Edge> {
    if edges == [] then []
    else
      var n := |edges| - 1;
      Known(index, edges[..n]) + if OnCanvas(index, edges[n]) then [edges[n]] else []
  }

  /** The group keys in the order in which they first occur. */
  function Keys(edges: seq<Edge>): seq<string> {
    if edges == [] then []
    else
      var n := |edges| - 1;
      var before := Keys(edges[..n]);
      if edges[n].group in before then before else before + [edges[n].group]
  }

  function Group(edges: seq<Edge>, key: string): seq<Edge> {
    if edges == [] then []
    else
      var n := |edges| - 1;
      Group(edges[..n], key) + if edges[n].group == key then [edges[n]] else []
  }

  lemma {:induction false} KnownMembers(index: map<string, nat>, edges: seq<Edge>)
    ensures forall e :: multiset(Known(index, edges))[e] == if OnCanvas(index, e) then multiset(edges)[e] else 0
    ensures forall e :: e in Known(index, edges) <==> e in edges && OnCanvas(index, e)
  {
    if edges == [] {
    } else {
      var n := |edges| - 1;
      KnownMembers(index, edges[..n]);
      assert edges == edges[..n] + [edges[n]];
    }
  }

  lemma {:induction false} GroupMembers(edges: seq<Edge>, key: string)
    ensures forall e :: multiset(Group(edges, key))[e] == if e.group == key then multiset(edges)[e] else 0
    ensures forall e :: e in Group(edges, key) <==> e in edges && e.group == key
  {
    if edges == [] {
    } else {
      var n := |edges| - 1;
      GroupMembers(edges[..n], key);
      assert edges == edges[..n] + [edges[n]];
    }
  }

  lemma {:induction false} KeysMembers(edges: seq<Edge>)
    ensures Distinct(Keys(edges))
    ensures forall k :: k in Keys(edges) <==> Group(edges, k) != []
  {
    if edges == [] {
    } else {
      KeysMembers(edges[..|edges| - 1]);
    }
  }

  function Ids(edges: seq<Edge>): (ids: seq<string>)
    ensures |ids| == |edges| && forall i :: 0 <= i < |ids| ==> ids[i] == edges[i].id
  {
    seq(|edges|, i requires 0 <= i < |edges| => edges[i].id)
  }

  /** One arc per group: endpoints from its first edge, ids in code-unit order. */
  function MakeCandidate(index: map<string, nat>, key: string, group: seq<Edge>): (c: Candidate)
    requires group != [] && OnCanvas(index, group[0])
    ensures c.key == key
  {
    var from, to := index[group[0].from], index[group[0].to];
    Candidate(key, group[0].from, group[0].to, from, to,
              if to > from then Right else Left, from == to, to == from + 1,
              SortBy(TextLe, Ids(group)))
  }

  ghost predicate Groupable(index: map<string, nat>, edges: seq<Edge>, keys: seq<string>) {
    forall k :: k in keys ==> Group(edges, k) != [] && OnCanvas(index, Group(edges, k)[0])
  }

  function Candidates(index: map<string, nat>, edges: seq<Edge>, keys: seq<string>): (cs: seq<Candidate>)
    requires Groupable(index, edges, keys)
    ensures |cs| == |keys|
    ensures forall i :: 0 <= i < |cs| ==> cs[i] == MakeCandidate(index, keys[i], Group(edges, keys[i]))
  {
    seq(|keys|, i requires 0 <= i < |keys| => MakeCandidate(index, keys[i], Group(edges, keys[i])))
  }

  /** Span start, then span length, then the collation of the keys. */
  predicate CandidateLe(compare: (string, string) -> int, a: Candidate, b: Candidate) {
    if a.Lo() != b.Lo() then a.Lo() < b.Lo()
    else if a.Hi() - a.Lo() != b.Hi() - b.Lo() then a.Hi() - a.Lo() < b.Hi() - b.Lo()
    else compare(a.key, b.key) <= 0
  }

  function Order(compare: (string, string) -> int): (Candidate, Candidate) -> bool {
    (a, b) => CandidateLe(compare, a, b)
  }

  predicate SpansOverlap(lo: nat, hi: nat, lo': nat, hi': nat) { lo <= hi' && lo' <= hi }

  function Taken(placed: seq<Placed>, lo: nat, hi: nat): set<nat> {
    set p | p in placed && SpansOverlap(lo, hi, p.lo, p.hi) :: p.lane
  }

  /** The least number from `lane` on that is not in `taken`. */
  function LowestFree(taken: set<nat>, lane: nat): (free: nat)
    ensures lane <= free && free !in taken
    ensures forall l :: lane <= l < free ==> l in taken
    decreases taken
  {
    if lane in taken then LowestFree(taken - {lane}, lane + 1) else lane
  }

  /** The gutter entries of one side, adjacent hops left out. */
  function PlacedOn(arcs: seq<Arc>, side: Side): seq<Placed> {
    if arcs == [] then []
    else
      var a := arcs[|arcs| - 1];
      PlacedOn(arcs[..|arcs| - 1], side)
      + (if InGutter(a, side) then [Placed(a.candidate.Lo(), a.candidate.Hi(), a.lane)] else [])
  }

  predicate InGutter(a: Arc, side: Side) {
    !a.candidate.adjacent && a.candidate.side == side && a.lane >= 0
  }

  function ArcFor(c: Candidate, arcs: seq<Arc>): Arc {
    var lane := if c.adjacent then -1 else LowestFree(Taken(PlacedOn(arcs, c.side), c.Lo(), c.Hi()), 0);
    Arc(c, lane, RowY(c.fromIndex), RowY(c.toIndex))
  }

  function Lay(cs: seq<Candidate>): (arcs: seq<Arc>)
    ensures |arcs| == |cs|
    ensures forall i :: 0 <= i < |cs| ==> arcs[i].candidate == cs[i]
  {
    if cs == [] then []
    else
      var before := Lay(cs[..|cs| - 1]);
      before + [ArcFor(cs[|cs| - 1], before)]
  }

  /** One more than the greatest lane in use. */
  function LaneCount(placed: seq<Placed>): (n: nat)
    ensures forall p :: p in placed ==> p.lane < n
    ensures n > 0 ==> exists p :: p in placed && p.lane == n - 1
  {
    if placed == [] then 0
    else
      var last, rest := placed[|placed| - 1], LaneCount(placed[..|placed| - 1]);
      assert placed == placed[..|placed| - 1] + [last];
      if last.lane + 1 > rest then last.lane + 1 else rest
  }

  function SortedCandidates(nodes: seq<string>, edges: seq<Edge>, compare: (string, string) -> int): seq<Candidate> {
    var known := Known(IndexOf(nodes), edges);
    KnownGroupable(IndexOf(nodes), edges);
    SortBy(Order(compare), Candidates(IndexOf(nodes), known, Keys(known)))
  }

  function LayoutOf(nodes: seq<string>, edges: seq<Edge>, compare: (string, string) -> int): Layout {
    var arcs := Lay(SortedCandidates(nodes, edges, compare));
    Layout(NodesOf(nodes), arcs,
           LaneCount(PlacedOn(arcs, Left)), LaneCount(PlacedOn(arcs, Right)),
           if |nodes| == 0 then 0 else (|nodes| - 1) * ROW_PITCH + NODE_HEIGHT)
  }

  lemma {:induction false} KnownGroupable(index: map<string, nat>, edges: seq<Edge>)
    ensures Groupable(index, Known(index, edges), Keys(Known(index, edges)))
  {
    KnownMembers(index, edges);
    KeysMembers(Known(index, edges));
    forall k | k in Keys(Known(index, edges)) ensures OnCanvas(index, Group(Known(index, edges), k)[0]) {
      GroupMembers(Known(index, edges), k);
      assert Group(Known(index, edges), k)[0] in Known(index, edges);
    }
  }

  // ---------------------------------------------------------------- the algorithm

  method AllocateLane(lo: nat, hi: nat, placed: seq<Placed>) returns (lane: nat)
    ensures lane == LowestFree(Taken(placed, lo, hi), 0)
  {
    var taken := Taken(placed, lo, hi);
    ghost var rest := taken;
    lane := 0;
    while lane in taken
      invariant rest == set l | l in taken && l >= lane
      invariant LowestFree(rest, lane) == LowestFree(taken, 0)
      decreases rest
    {
      assert rest - {lane} == set l | l in taken && l >= lane + 1;
      rest := rest - {lane};
      lane := lane + 1;
    }
  }

  ghost predicate Collected(keys: seq<string>, grouped: map<string, seq<Edge>>, known: seq<Edge>) {
    && keys == Keys(known)
    && (forall k :: k in grouped <==> k in keys)
    && (forall k :: k in grouped ==> grouped[k] == Group(known, k))
  }

  lemma {:induction false} CollectStep(keys: seq<string>, grouped: map<string, seq<Edge>>, known: seq<Edge>, edge: Edge)
    requires Collected(keys, grouped, known)
    ensures var before := if edge.group in grouped then grouped[edge.group] else [];
            Collected(if edge.group in grouped then keys else keys + [edge.group],
                      grouped[edge.group := before + [edge]], known + [edge])
  {
    assert (known + [edge])[..|known|] == known;
    KeysMembers(known);
    forall k ensures Group(known + [edge], k) == Group(known, k) + if edge.group == k then [edge] else [] {
    }
  }

  /** The `grouped` map, with the insertion order of its keys. */
  method CollectGroups(index: map<string, nat>, edges: seq<Edge>)
    returns (keys: seq<string>, grouped: map<string, seq<Edge>>)
    ensures Collected(keys, grouped, Known(index, edges))
  {
    keys, grouped := [], map[];
    for i := 0 to |edges|
      invariant Collected(keys, grouped, Known(index, edges[..i]))
    {
      var edge := edges[i];
      ghost var known := Known(index, edges[..i]);
      assert Known(index, edges[..i + 1]) == known + if OnCanvas(index, edge) then [edge] else [] by {
        assert edges[..i + 1][..i] == edges[..i];
      }
      assert known + [] == known;
      if OnCanvas(index, edge) {
        CollectStep(keys, grouped, known, edge);
        if edge.group in grouped {
          grouped := grouped[edge.group := grouped[edge.group] + [edge]];
        } else {
          keys := keys + [edge.group];
          grouped := grouped[edge.group := [] + [edge]];
        }
      }
    }
    assert edges[..|edges|] == edges;
  }

  lemma {:induction false} PlacedSnoc(arcs: seq<Arc>, a: Arc, side: Side)
    ensures PlacedOn(arcs + [a], side)
         == PlacedOn(arcs, side) + if InGutter(a, side)
             then [Placed(a.candidate.Lo(), a.candidate.Hi(), a.lane)] else []
  {
    assert (arcs + [a])[..|arcs|] == arcs;
  }

  lemma {:induction false} LaySnoc(cs: seq<Candidate>, c: Candidate)
    ensures Lay(cs + [c]) == Lay(cs) + [ArcFor(c, Lay(cs))]
  {
    assert (cs + [c])[..|cs|] == cs;
  }

  /** The lane pass over the sorted candidates, with one `placed` list a side. */
  method PlaceArcs(candidates: seq<Candidate>) returns (arcs: seq<Arc>, left: seq<Placed>, right: seq<Placed>)
    ensures arcs == Lay(candidates)
    ensures left == PlacedOn(arcs, Left) && right == PlacedOn(arcs, Right)
  {
    hide LowestFree, Taken, RowY;
    left, right, arcs := [], [], [];
    for i := 0 to |candidates|
      invariant arcs == Lay(candidates[..i])
      invariant left == PlacedOn(arcs, Left) && right == PlacedOn(arcs, Right)
    {
      var c := candidates[i];
      assert candidates[..i + 1] == candidates[..i] + [c];
      LaySnoc(candidates[..i], c);
      PlacedSnoc(arcs, ArcFor(c, arcs), Left);
      PlacedSnoc(arcs, ArcFor(c, arcs), Right);
      if c.adjacent {
        arcs := arcs + [Arc(c, -1, RowY(c.fromIndex), RowY(c.toIndex))];
        continue;
      }
      var lane := AllocateLane(c.Lo(), c.Hi(), if c.side == Left then left else right);
      if c.side == Left {
        left := left + [Placed(c.Lo(), c.Hi(), lane)];
      } else {
        right := right + [Placed(c.Lo(), c.Hi(), lane)];
      }
      arcs := arcs + [Arc(c, lane, RowY(c.fromIndex), RowY(c.toIndex))];
    }
    assert candidates[..|candidates|] == candidates;
  }

  method ComputeGraphLayout(nodes: seq<string>, edges: seq<Edge>, compare: (string, string) -> int)
    returns (layout: Layout)
    ensures layout == LayoutOf(nodes, edges, compare)
  {
    var index := IndexOf(nodes);
    var keys, grouped := CollectGroups(index, edges);
    KnownGroupable(index, edges);
    var candidates := seq(|keys|, i requires 0 <= i < |keys| =>
      assert grouped[keys[i]] == Group(Known(index, edges), keys[i]) != [];
      MakeCandidate(index, keys[i], grouped[keys[i]]));
    assert candidates == Candidates(index, Known(index, edges), keys);
    var arcs, left, right := PlaceArcs(SortBy(Order(compare), candidates));
    layout := Layout(NodesOf(nodes), arcs, LaneCount(left), LaneCount(right),
                     if |nodes| == 0 then 0 else (|nodes| - 1) * ROW_PITCH + NODE_HEIGHT);
  }
}
