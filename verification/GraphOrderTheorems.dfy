/** When the canvas layout does not depend on the order in which the edges are given. */
module GraphOrderTheorems {
  import opened Sequences
  import opened GraphLayout
  import opened GraphLayoutTheorems

  /** A group's edges all join the same two statuses, as the `from->to` group keys intend. */
  ghost predicate GroupFixesEndpoints(edges: seq<Edge>) {
    forall e, e' :: e in edges && e' in edges && e.group == e'.group ==> e.from == e'.from && e.to == e'.to
  }

  /** The rows that an edge spans, as a set: one row for a self loop. */
  function Rows(index: map<string, nat>, e: Edge): set<nat>
    requires OnCanvas(index, e)
  {
    {index[e.from], index[e.to]}
  }

  predicate Tied(index: map<string, nat>, compare: (string, string) -> int, e: Edge, e': Edge) {
    && OnCanvas(index, e) && OnCanvas(index, e') && Rows(index, e) == Rows(index, e')
    && compare(e.group, e'.group) <= 0 && compare(e'.group, e.group) <= 0
  }

  /** No two groups that span the same rows tie in the collation. */
  ghost predicate SpansUntied(index: map<string, nat>, known: seq<Edge>, compare: (string, string) -> int) {
    forall e, e' :: e in known && e' in known && Tied(index, compare, e, e') ==> e.group == e'.group
  }

  lemma {:induction false} IdsMultiset(a: seq<Edge>, b: seq<Edge>)
    requires multiset(a) == multiset(b)
    ensures multiset(Ids(a)) == multiset(Ids(b))
    decreases |a|
  {
    if a == [] {
      assert |multiset(b)| == |b|;
    } else {
      assert a[0] in multiset(b);
      var i :| 0 <= i < |b| && b[i] == a[0];
      RemoveSame(a, b, i);
      IdsMultiset(a[1..], b[..i] + b[i + 1..]);
      IdsSplit(b, i);
      assert multiset(Ids(a)) == multiset(Ids(a[1..])) + multiset{a[0].id} by {
        assert Ids(a) == [a[0].id] + Ids(a[1..]);
      }
    }
  }

  lemma {:induction false} IdsSplit(b: seq<Edge>, i: nat)
    requires i < |b|
    ensures multiset(Ids(b)) == multiset(Ids(b[..i] + b[i + 1..])) + multiset{b[i].id}
  {
    MultisetSplit(Ids(b), i);
    assert Ids(b[..i] + b[i + 1..]) == Ids(b)[..i] + Ids(b)[i + 1..];
  }

  lemma {:induction false} GroupMultiset(known: seq<Edge>, known': seq<Edge>, key: string)
    requires multiset(known) == multiset(known')
    ensures multiset(Group(known, key)) == multiset(Group(known', key))
    ensures |Group(known, key)| == |Group(known', key)|
  {
    GroupMembers(known, key);
    GroupMembers(known', key);
    var g, g' := Group(known, key), Group(known', key);
    assert multiset(g) == multiset(g');
    assert |multiset(g)| == |g| && |multiset(g')| == |g'|;
  }

  lemma {:induction false} SortedIdsPermute(g: seq<Edge>, g': seq<Edge>)
    requires multiset(g) == multiset(g')
    ensures SortBy(TextLe, Ids(g)) == SortBy(TextLe, Ids(g'))
  {
    IdsMultiset(g, g');
    TextLeOrder();
    SortPermutationInvariant(TextLe, Ids(g), Ids(g'));
  }

  lemma {:induction false} GroupPermutes(index: map<string, nat>, known: seq<Edge>, known': seq<Edge>, key: string)
    requires multiset(known) == multiset(known') && GroupFixesEndpoints(known)
    requires Group(known, key) != [] && OnCanvas(index, Group(known, key)[0])
    ensures Group(known', key) != [] && OnCanvas(index, Group(known', key)[0])
    ensures MakeCandidate(index, key, Group(known, key)) == MakeCandidate(index, key, Group(known', key))
  {
    GroupMultiset(known, known', key);
    var g, g' := Group(known, key), Group(known', key);
    assert g'[0] in multiset(g) && g[0] in g;
    assert g'[0].from == g[0].from && g'[0].to == g[0].to by { GroupMembers(known, key); }
    SortedIdsPermute(g, g');
  }

  lemma {:induction false} CandidatesPermute(index: map<string, nat>, known: seq<Edge>, known': seq<Edge>)
    requires multiset(known) == multiset(known') && GroupFixesEndpoints(known)
    requires Groupable(index, known, Keys(known)) && Groupable(index, known', Keys(known'))
    ensures multiset(Candidates(index, known, Keys(known))) == multiset(Candidates(index, known', Keys(known')))
  {
    hide MakeCandidate, Group, Keys;
    CandidatesOnePerGroup(index, known);
    CandidatesOnePerGroup(index, known');
    forall k ensures k in Keys(known) <==> k in Keys(known') {
      KeysMembers(known);
      KeysMembers(known');
      GroupMultiset(known, known', k);
    }
    forall k | k in Keys(known)
      ensures MakeCandidate(index, k, Group(known, k)) == MakeCandidate(index, k, Group(known', k))
    {
      GroupPermutes(index, known, known', k);
    }
    var a, b := Candidates(index, known, Keys(known)), Candidates(index, known', Keys(known'));
    SameMembersSameMultiset(a, b);
  }

  lemma {:induction false} CandidatesUntied(index: map<string, nat>, known: seq<Edge>, compare: (string, string) -> int)
    requires Groupable(index, known, Keys(known)) && SpansUntied(index, known, compare)
    ensures TieFree(Order(compare), Candidates(index, known, Keys(known)))
  {
    hide MakeCandidate, Group, Keys, CandidateLe, Candidates;
    CandidatesOnePerGroup(index, known);
    var a := Candidates(index, known, Keys(known));
    forall x, y | x in a && y in a && Order(compare)(x, y) && Order(compare)(y, x) ensures x == y {
      FirstEdge(index, known, x);
      FirstEdge(index, known, y);
      SameSpan(index, compare, x, y);
    }
  }

  /** A candidate spans the rows of the first edge of its group. */
  lemma {:induction false} FirstEdge(index: map<string, nat>, known: seq<Edge>, c: Candidate)
    requires Group(known, c.key) != [] && OnCanvas(index, Group(known, c.key)[0])
    requires c == MakeCandidate(index, c.key, Group(known, c.key))
    ensures var e := Group(known, c.key)[0];
            e in known && e.group == c.key && Rows(index, e) == {c.fromIndex, c.toIndex}
  {
    GroupMembers(known, c.key);
    assert Group(known, c.key)[0] in Group(known, c.key);
  }

  lemma {:induction false} SameSpan(index: map<string, nat>, compare: (string, string) -> int, x: Candidate,
                                    y: Candidate)
    ensures var sameRows := {x.fromIndex, x.toIndex} == {y.fromIndex, y.toIndex};
            Order(compare)(x, y) && Order(compare)(y, x)
            <==> sameRows && compare(x.key, y.key) <= 0 && compare(y.key, x.key) <= 0
  {
    var a, b := {x.fromIndex, x.toIndex}, {y.fromIndex, y.toIndex};
    assert a == {x.Lo(), x.Hi()} && b == {y.Lo(), y.Hi()};
    if a == b {
      assert x.fromIndex in b && x.toIndex in b && y.fromIndex in a && y.toIndex in a;
    }
  }

  /** Permuting the rows that the API returns changes nothing: neither arcs nor lanes. */
  lemma {:induction false} LayoutIgnoresEdgeOrder(nodes: seq<string>, edges: seq<Edge>, edges': seq<Edge>,
                                                  compare: (string, string) -> int)
    requires Collation(compare) && multiset(edges) == multiset(edges')
    requires GroupFixesEndpoints(Known(IndexOf(nodes), edges))
    requires SpansUntied(IndexOf(nodes), Known(IndexOf(nodes), edges), compare)
    ensures LayoutOf(nodes, edges, compare) == LayoutOf(nodes, edges', compare)
  {
    hide IndexOf, Known, Keys, Group, MakeCandidate, SortBy, CandidateLe, Lay, NodesOf;
    var index := IndexOf(nodes);
    var known, known' := Known(index, edges), Known(index, edges');
    KnownPermutes(index, edges, edges');
    KnownGroupable(index, edges);
    KnownGroupable(index, edges');
    CandidatesPermute(index, known, known');
    OrderIsPreorder(compare);
    CandidatesUntied(index, known, compare);
    SortPermutationInvariant(Order(compare), Candidates(index, known, Keys(known)),
        Candidates(index, known', Keys(known')));
  }

  lemma {:induction false} KnownPermutes(index: map<string, nat>, edges: seq<Edge>, edges': seq<Edge>)
    requires multiset(edges) == multiset(edges')
    ensures multiset(Known(index, edges)) == multiset(Known(index, edges'))
  {
    KnownMembers(index, edges);
    KnownMembers(index, edges');
  }

  // ---------------------------------------------------------------- when the order of the edges shows

  /** Every permutation of the edges is laid out alike. */
  ghost predicate OrderFree(nodes: seq<string>, edges: seq<Edge>, compare: (string, string) -> int) {
    forall edges' :: multiset(edges') == multiset(edges) ==>
        LayoutOf(nodes, edges', compare) == LayoutOf(nodes, edges, compare)
  }

  function ToFront(edges: seq<Edge>, i: nat): (r: seq<Edge>)
    requires i < |edges|
    ensures multiset(r) == multiset(edges)
  {
    assert edges == edges[..i] + [edges[i]] + edges[i + 1..];
    [edges[i]] + edges[..i] + edges[i + 1..]
  }

  lemma {:induction false} KnownCons(index: map<string, nat>, e: Edge, edges: seq<Edge>)
    requires OnCanvas(index, e)
    ensures Known(index, [e] + edges) == [e] + Known(index, edges)
  {
    if edges == [] {
      assert Known(index, [e]) == Known(index, []) + [e];
    } else {
      var n := |edges| - 1;
      KnownCons(index, e, edges[..n]);
      assert ([e] + edges)[..n + 1] == [e] + edges[..n];
    }
  }

  lemma {:induction false} FirstKnown(e: Edge, known: seq<Edge>)
    ensures Group([e] + known, e.group) != [] && Group([e] + known, e.group)[0] == e
    ensures Keys([e] + known) != [] && Keys([e] + known)[0] == e.group
  {
    if known == [] {
      assert Group([e], e.group) == [e] && Keys([e]) == [e.group] by { assert [e][..0] == []; }
      assert [e] + known == [e];
    } else {
      var n := |known| - 1;
      FirstKnown(e, known[..n]);
      assert ([e] + known)[..n + 1] == [e] + known[..n];
    }
  }

  /** With `edges[i]` in front, its group's candidate has its endpoints and is first of all candidates. */
  lemma {:induction false} FrontCandidate(nodes: seq<string>, edges: seq<Edge>, i: nat) returns (c: Candidate)
    requires i < |edges| && OnCanvas(IndexOf(nodes), edges[i])
    ensures var known := Known(IndexOf(nodes), ToFront(edges, i));
            && Groupable(IndexOf(nodes), known, Keys(known)) && Keys(known) != [] && edges[i] in known
            && Group(known, edges[i].group) != [] && OnCanvas(IndexOf(nodes), Group(known, edges[i].group)[0])
            && c == MakeCandidate(IndexOf(nodes), edges[i].group, Group(known, edges[i].group))
            && c == Candidates(IndexOf(nodes), known, Keys(known))[0]
    ensures c.key == edges[i].group && c.from == edges[i].from && c.to == edges[i].to
    ensures {c.fromIndex, c.toIndex} == Rows(IndexOf(nodes), edges[i])
  {
    hide IndexOf, Known, Group, Keys;
    var index, rest := IndexOf(nodes), edges[..i] + edges[i + 1..];
    assert ToFront(edges, i) == [edges[i]] + rest;
    KnownCons(index, edges[i], rest);
    FirstKnown(edges[i], Known(index, rest));
    KnownGroupable(index, ToFront(edges, i));
    c := Candidates(index, Known(index, ToFront(edges, i)), Keys(Known(index, ToFront(edges, i))))[0];
  }

  /** A layout determines its candidates, and with them the arc of each group. */
  lemma {:induction false} LayoutShowsCandidates(nodes: seq<string>, a: seq<Edge>, b: seq<Edge>,
                                                 compare: (string, string) -> int)
    requires LayoutOf(nodes, a, compare) == LayoutOf(nodes, b, compare)
    ensures SortedCandidates(nodes, a, compare) == SortedCandidates(nodes, b, compare)
  {
    hide SortedCandidates, LaneCount, PlacedOn, NodesOf;
    var x, y := SortedCandidates(nodes, a, compare), SortedCandidates(nodes, b, compare);
    assert Lay(x) == Lay(y);
    assert forall i :: 0 <= i < |x| ==> x[i] == Lay(x)[i].candidate && y[i] == Lay(y)[i].candidate;
  }

  /** Two edges of one group that join different statuses: whichever comes first is drawn. */
  lemma {:induction false} MixedGroupShowsOrder(nodes: seq<string>, edges: seq<Edge>, compare: (string, string) -> int,
                                                i: nat, j: nat)
    requires i < |edges| && j < |edges| && OnCanvas(IndexOf(nodes), edges[i]) && OnCanvas(IndexOf(nodes), edges[j])
    requires edges[i].group == edges[j].group && (edges[i].from != edges[j].from || edges[i].to != edges[j].to)
    ensures LayoutOf(nodes, ToFront(edges, i), compare) != LayoutOf(nodes, ToFront(edges, j), compare)
  {
    hide IndexOf, Known, Group, Keys, LayoutOf, SortedCandidates, MakeCandidate;
    var a, b := ToFront(edges, i), ToFront(edges, j);
    var c := FrontCandidate(nodes, edges, i);
    var d := FrontCandidate(nodes, edges, j);
    if LayoutOf(nodes, a, compare) == LayoutOf(nodes, b, compare) {
      LayoutShowsCandidates(nodes, a, b, compare);
      SortedOnePerGroup(nodes, a, compare);
      SortedOnePerGroup(nodes, b, compare);
      var cs, index := SortedCandidates(nodes, a, compare), IndexOf(nodes);
      var k := ArcOfEdge(index, Known(index, a), cs, edges[i]);
      var l := ArcOfEdge(index, Known(index, b), cs, edges[j]);
      DistinctKeys(index, Known(index, a), cs);
      assert false;
    }
  }

  /** Two groups over the same rows that tie in the collation: whichever comes first is first. */
  lemma {:induction false} TiedGroupsShowOrder(nodes: seq<string>, edges: seq<Edge>, compare: (string, string) -> int,
                                               i: nat, j: nat)
    requires Collation(compare) && i < |edges| && j < |edges|
    requires Tied(IndexOf(nodes), compare, edges[i], edges[j]) && edges[i].group != edges[j].group
    ensures LayoutOf(nodes, ToFront(edges, i), compare) != LayoutOf(nodes, ToFront(edges, j), compare)
  {
    hide IndexOf, Known, Group, Keys, LayoutOf, MakeCandidate, CandidateLe, SortBy, Tie, Filter;
    var a, b := ToFront(edges, i), ToFront(edges, j);
    var c := FrontCandidate(nodes, edges, i);
    var d := FrontCandidate(nodes, edges, j);
    OrderIsPreorder(compare);
    if LayoutOf(nodes, a, compare) == LayoutOf(nodes, b, compare) {
      LayoutShowsCandidates(nodes, a, b, compare);
      var index, s := IndexOf(nodes), SortedCandidates(nodes, a, compare);
      FirstOfItsTies(Order(compare), Candidates(index, Known(index, a), Keys(Known(index, a))));
      FirstOfItsTies(Order(compare), Candidates(index, Known(index, b), Keys(Known(index, b))));
      SameSpan(index, compare, c, d);
      forall x | x in s ensures Tie(Order(compare), c)(x) == Tie(Order(compare), d)(x) {
        TiesShared(Order(compare), c, d, x);
      }
      FilterSame(Tie(Order(compare), c), Tie(Order(compare), d), s);
      assert false;
    }
  }

  lemma {:induction false} TiesShared<T(!new)>(le: (T, T) -> bool, c: T, d: T, x: T)
    requires Preorder(le) && le(c, d) && le(d, c)
    ensures Tie(le, c)(x) == Tie(le, d)(x)
  {
  }

  /**
   * The layout is the same for every order of the edges if and only if, among the edges on the
   * canvas, each group joins one pair of statuses and no two groups over the same rows tie.
   */
  lemma {:induction false} LayoutIgnoresEdgeOrderIff(nodes: seq<string>, edges: seq<Edge>,
                                                     compare: (string, string) -> int)
    requires Collation(compare)
    ensures var known := Known(IndexOf(nodes), edges);
            OrderFree(nodes, edges, compare)
            <==> GroupFixesEndpoints(known) && SpansUntied(IndexOf(nodes), known, compare)
  {
    hide IndexOf, Known, LayoutOf, GroupFixesEndpoints, SpansUntied;
    var index, known := IndexOf(nodes), Known(IndexOf(nodes), edges);
    if GroupFixesEndpoints(known) && SpansUntied(index, known, compare) {
      forall edges' | multiset(edges') == multiset(edges)
        ensures LayoutOf(nodes, edges', compare) == LayoutOf(nodes, edges, compare)
      {
        LayoutIgnoresEdgeOrder(nodes, edges, edges', compare);
      }
    } else {
      OrderShows(nodes, edges, compare);
    }
  }

  lemma {:induction false} OrderShows(nodes: seq<string>, edges: seq<Edge>, compare: (string, string) -> int)
    requires Collation(compare)
    requires var known := Known(IndexOf(nodes), edges);
             !GroupFixesEndpoints(known) || !SpansUntied(IndexOf(nodes), known, compare)
    ensures !OrderFree(nodes, edges, compare)
  {
    hide IndexOf, Known, LayoutOf, Rows, OrderFree, ToFront, Tied;
    var index, known := IndexOf(nodes), Known(IndexOf(nodes), edges);
    KnownMembers(index, edges);
    if !GroupFixesEndpoints(known) {
      var e, e' :| e in known && e' in known && e.group == e'.group && (e.from != e'.from || e.to != e'.to);
      var i, j :| 0 <= i < |edges| && 0 <= j < |edges| && edges[i] == e && edges[j] == e';
      MixedGroupShowsOrder(nodes, edges, compare, i, j);
      TwoLayouts(nodes, edges, compare, i, j);
    } else {
      var e, e' :| e in known && e' in known && Tied(index, compare, e, e') && e.group != e'.group;
      var i, j :| 0 <= i < |edges| && 0 <= j < |edges| && edges[i] == e && edges[j] == e';
      assert OnCanvas(index, e) && OnCanvas(index, e');
      TiedGroupsShowOrder(nodes, edges, compare, i, j);
      TwoLayouts(nodes, edges, compare, i, j);
    }
  }

  lemma {:induction false} TwoLayouts(nodes: seq<string>, edges: seq<Edge>, compare: (string, string) -> int, i: nat,
                                      j: nat)
    requires i < |edges| && j < |edges|
    requires LayoutOf(nodes, ToFront(edges, i), compare) != LayoutOf(nodes, ToFront(edges, j), compare)
    ensures !OrderFree(nodes, edges, compare)
  {
    hide LayoutOf, ToFront;
  }

  /** The smallest case: two edges of one group, one up and one down. */
  lemma {:induction false} EdgeOrderMattersInMixedGroups(compare: (string, string) -> int)
    requires Collation(compare)
    ensures !OrderFree(["a", "b"], [Edge("1", "b", "a", "g"), Edge("2", "a", "b", "g")], compare)
  {
    hide LayoutOf;
    var nodes, edges := ["a", "b"], [Edge("1", "b", "a", "g"), Edge("2", "a", "b", "g")];
    assert nodes[0] == "a" && nodes[1] == "b" && "a"[0] != "b"[0];
    MixedGroupShowsOrder(nodes, edges, compare, 0, 1);
  }

  /** The keys that the API forms: `from->to` (api/src/domains/routing/graph.ts:484 and 526). */
  ghost predicate ApiKeys(edges: seq<Edge>) {
    forall e :: e in edges ==> e.group == Arrow(e.from, e.to)
  }

  function Arrow(from: string, target: string): string { from + "->" + target }

  /** Read at another arrow, the key of `a` to `b` is that of `c` to `d`: some `x` is between the two arrows. */
  ghost predicate Ambiguous(a: string, b: string, c: string, d: string) {
    exists x :: c == Arrow(a, x) && b == Arrow(x, d)
  }

  /** Keys of that form fix the endpoints if and only if no status key hides the arrow of another edge. */
  lemma {:induction false} ApiKeysFixEndpointsIff(edges: seq<Edge>)
    requires ApiKeys(edges)
    ensures GroupFixesEndpoints(edges)
            <==> forall e, e' :: e in edges && e' in edges ==> !Ambiguous(e.from, e.to, e'.from, e'.to)
  {
    hide Arrow, Ambiguous;
    forall e, e' | e in edges && e' in edges
      ensures e.group == e'.group
              <==> || (e.from == e'.from && e.to == e'.to)
                   || Ambiguous(e.from, e.to, e'.from, e'.to) || Ambiguous(e'.from, e'.to, e.from, e.to)
      ensures Ambiguous(e.from, e.to, e'.from, e'.to) ==> e.from != e'.from
    {
      SameArrowIff(e.from, e.to, e'.from, e'.to);
      if Ambiguous(e.from, e.to, e'.from, e'.to) { AmbiguousDiffers(e.from, e.to, e'.from, e'.to); }
    }
  }

  lemma {:induction false} AmbiguousDiffers(a: string, b: string, c: string, d: string)
    requires Ambiguous(a, b, c, d)
    ensures a != c
  {
    var x :| c == Arrow(a, x) && b == Arrow(x, d);
    assert |c| > |a|;
  }

  lemma {:induction false} SameArrowIff(a: string, b: string, c: string, d: string)
    ensures Arrow(a, b) == Arrow(c, d) <==> (a == c && b == d) || Ambiguous(a, b, c, d) || Ambiguous(c, d, a, b)
  {
    if Ambiguous(a, b, c, d) { AmbiguousIsSame(a, b, c, d); }
    if Ambiguous(c, d, a, b) { AmbiguousIsSame(c, d, a, b); }
    if Arrow(a, b) == Arrow(c, d) {
      if |a| <= |c| { ArrowsInOrder(a, b, c, d); } else { ArrowsInOrder(c, d, a, b); }
    }
  }

  lemma {:induction false} AmbiguousIsSame(a: string, b: string, c: string, d: string)
    requires Ambiguous(a, b, c, d)
    ensures Arrow(a, b) == Arrow(c, d)
  {
    var x :| c == Arrow(a, x) && b == Arrow(x, d);
    assert a + "->" + (x + "->" + d) == a + "->" + x + "->" + d;
  }

  lemma {:induction false} ArrowsInOrder(a: string, b: string, c: string, d: string)
    requires Arrow(a, b) == Arrow(c, d) && |a| <= |c|
    ensures (a == c && b == d) || Ambiguous(a, b, c, d)
  {
    var s, n, m := Arrow(a, b), |a|, |c|;
    assert s[..n] == a && s[..m] == c && s[n + 2..] == b && s[m + 2..] == d;
    assert s[n] == '-' && s[n + 1] == '>' && s[m] == '-' && s[m + 1] == '>';
    if n < m {
      var x := s[n + 2..m];
      assert c == Arrow(a, x) by { assert s[..m] == s[..n] + [s[n], s[n + 1]] + s[n + 2..m]; }
      assert b == Arrow(x, d) by { assert s[n + 2..] == s[n + 2..m] + [s[m], s[m + 1]] + s[m + 2..]; }
    }
  }

  /** "a" to "b->c" and "a->b" to "c" have one key. */
  lemma {:induction false} ApiKeysCanCollide()
    ensures Arrow("a", "b->c") == Arrow("a->b", "c") && Ambiguous("a", "b->c", "a->b", "c")
  {
    assert "a->b" == Arrow("a", "b") && "b->c" == Arrow("b", "c");
  }

  /** So a status key without the head of an arrow, as `from`, is enough. */
  lemma {:induction false} ApiKeysFixEndpoints(edges: seq<Edge>)
    requires ApiKeys(edges) && forall e :: e in edges ==> '>' !in e.from
    ensures GroupFixesEndpoints(edges)
  {
    forall e, e' | e in edges && e' in edges ensures !Ambiguous(e.from, e.to, e'.from, e'.to) {
      forall x ensures e'.from != Arrow(e.from, x) { assert Arrow(e.from, x)[|e.from| + 1] == '>'; }
    }
    ApiKeysFixEndpointsIff(edges);
  }
}
