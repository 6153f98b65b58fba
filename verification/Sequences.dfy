/** Facts about sequences, stable sorting and counting that the other modules share. */
module Sequences {

  /** The elements of `s` that satisfy `p`, in order (Array.prototype.filter). */
  function Filter<T>(p: T -> bool, s: seq<T>): seq<T> {
    if s == [] then []
    else if p(s[0]) then [s[0]] + Filter(p, s[1..])
    else Filter(p, s[1..])
  }

  lemma {:induction false} FilterMembers<T(!new)>(p: T -> bool, s: seq<T>)
    ensures forall x :: x in Filter(p, s) <==> x in s && p(x)
  {
    if s == [] {
    } else {
      FilterMembers(p, s[1..]);
      assert s == [s[0]] + s[1..];
    }
  }

  lemma {:induction false} FilterAppend<T>(p: T -> bool, a: seq<T>, b: seq<T>)
    ensures Filter(p, a + b) == Filter(p, a) + Filter(p, b)
  {
    if a == [] {
      assert a + b == b;
    } else {
      FilterAppend(p, a[1..], b);
      assert (a + b)[1..] == a[1..] + b && (a + b)[0] == a[0];
    }
  }

  lemma {:induction false} FilterSnoc<T>(p: T -> bool, s: seq<T>, x: T)
    ensures Filter(p, s + [x]) == if p(x) then Filter(p, s) + [x] else Filter(p, s)
  {
    FilterAppend(p, s, [x]);
    assert Filter(p, s) + [] == Filter(p, s);
  }

  lemma {:induction false} FilterMultiset<T(!new)>(p: T -> bool, s: seq<T>)
    ensures forall x :: multiset(Filter(p, s))[x] == if p(x) then multiset(s)[x] else 0
  {
    if s == [] {
    } else {
      FilterMultiset(p, s[1..]);
      assert s == [s[0]] + s[1..];
    }
  }

  ghost predicate Distinct<T>(s: seq<T>) {
    forall i, j :: 0 <= i < j < |s| ==> s[i] != s[j]
  }

  lemma {:induction false} MultisetSplit<T>(s: seq<T>, i: nat)
    requires i < |s|
    ensures multiset(s) == multiset(s[..i] + s[i + 1..]) + multiset{s[i]}
  {
    assert s == s[..i] + [s[i]] + s[i + 1..];
  }

  lemma {:induction false} RemoveSame<T>(a: seq<T>, b: seq<T>, i: nat)
    requires multiset(a) == multiset(b) && a != [] && i < |b| && b[i] == a[0]
    ensures multiset(a[1..]) == multiset(b[..i] + b[i + 1..])
  {
    MultisetSplit(b, i);
    assert a == [a[0]] + a[1..];
    assert multiset(a[1..]) == multiset(a) - multiset{a[0]};
  }

  lemma {:induction false} DistinctCounts<T>(s: seq<T>)
    ensures Distinct(s) <==> forall x :: x in s ==> multiset(s)[x] == 1
  {
    if s == [] {
    } else {
      var n := |s| - 1;
      DistinctCounts(s[..n]);
      assert s == s[..n] + [s[n]];
      assert multiset(s) == multiset(s[..n]) + multiset{s[n]};
      if Distinct(s) {
        forall x | x in s ensures multiset(s)[x] == 1 {
          assert x == s[n] ==> x !in s[..n];
        }
      }
      if forall x :: x in s ==> multiset(s)[x] == 1 {
        assert multiset(s)[s[n]] == 1;
        forall x | x in s[..n] ensures multiset(s[..n])[x] == 1 { assert multiset(s)[x] == 1; }
      }
    }
  }

  lemma {:induction false} DistinctByMultiset<T>(a: seq<T>, b: seq<T>)
    requires Distinct(a) && multiset(a) == multiset(b)
    ensures Distinct(b)
  {
    DistinctCounts(a);
    DistinctCounts(b);
    forall x | x in b ensures multiset(b)[x] == 1 { assert x in multiset(a); }
  }

  lemma {:induction false} SameMembersSameMultiset<T(!new)>(a: seq<T>, b: seq<T>)
    requires Distinct(a) && Distinct(b) && forall x :: x in a <==> x in b
    ensures multiset(a) == multiset(b)
  {
    DistinctCounts(a);
    DistinctCounts(b);
    forall x ensures multiset(a)[x] == multiset(b)[x] {
      if x in a { assert x in b; } else { assert x !in multiset(a) && x !in multiset(b); }
    }
  }

  // ---------------------------------------------------------------- sorting

  /** `le(x, y)` says that the comparator does not put `y` strictly before `x`. */
  ghost predicate Preorder<T(!new)>(le: (T, T) -> bool) {
    && (forall x, y :: le(x, y) || le(y, x))
    && (forall x, y, z :: le(x, y) && le(y, z) ==> le(x, z))
  }

  /** What String.prototype.localeCompare guarantees of its results: a total preorder. */
  ghost predicate Collation(compare: (string, string) -> int) {
    && (forall x, y :: compare(x, y) <= 0 || compare(y, x) <= 0)
    && (forall x, y, z :: compare(x, y) <= 0 && compare(y, z) <= 0 ==> compare(x, z) <= 0)
  }

  ghost predicate SortedBy<T>(le: (T, T) -> bool, s: seq<T>) {
    forall i, j :: 0 <= i < j < |s| ==> le(s[i], s[j])
  }

  function Insert<T>(le: (T, T) -> bool, x: T, s: seq<T>): seq<T> {
    if s == [] || le(x, s[0]) then [x] + s else [s[0]] + Insert(le, x, s[1..])
  }

  /** The stable sort that Array.prototype.sort performs. */
  function SortBy<T>(le: (T, T) -> bool, s: seq<T>): seq<T> {
    if s == [] then [] else Insert(le, s[0], SortBy(le, s[1..]))
  }

  lemma {:induction false} InsertMultiset<T>(le: (T, T) -> bool, x: T, s: seq<T>)
    ensures multiset(Insert(le, x, s)) == multiset{x} + multiset(s)
  {
    if s == [] || le(x, s[0]) {
    } else {
      InsertMultiset(le, x, s[1..]);
      assert s == [s[0]] + s[1..];
    }
  }

  lemma {:induction false} SortMultiset<T>(le: (T, T) -> bool, s: seq<T>)
    ensures multiset(SortBy(le, s)) == multiset(s)
  {
    if s == [] {
    } else {
      SortMultiset(le, s[1..]);
      InsertMultiset(le, s[0], SortBy(le, s[1..]));
      assert s == [s[0]] + s[1..];
    }
  }

  lemma {:induction false} SortMembers<T>(le: (T, T) -> bool, s: seq<T>)
    ensures |SortBy(le, s)| == |s|
    ensures forall x :: x in SortBy(le, s) <==> x in s
  {
    SortMultiset(le, s);
    assert |multiset(SortBy(le, s))| == |multiset(s)|;
    assert forall x :: x in SortBy(le, s) <==> x in multiset(SortBy(le, s));
    assert forall x :: x in s <==> x in multiset(s);
  }

  lemma {:induction false} InsertSorted<T(!new)>(le: (T, T) -> bool, x: T, s: seq<T>)
    requires Preorder(le) && SortedBy(le, s)
    ensures SortedBy(le, Insert(le, x, s))
  {
    if s == [] {
    } else if le(x, s[0]) {
      forall j | 0 <= j < |s| ensures le(x, s[j]) {
        assert le(s[0], s[j]);
      }
    } else {
      var t := Insert(le, x, s[1..]);
      InsertSorted(le, x, s[1..]);
      InsertMultiset(le, x, s[1..]);
      forall j | 0 <= j < |t| ensures le(s[0], t[j]) {
        assert t[j] in multiset(t);
        assert t[j] == x || t[j] in s[1..];
      }
    }
  }

  lemma {:induction false} SortSorted<T(!new)>(le: (T, T) -> bool, s: seq<T>)
    requires Preorder(le)
    ensures SortedBy(le, SortBy(le, s))
  {
    if s == [] {
    } else {
      SortSorted(le, s[1..]);
      InsertSorted(le, s[0], SortBy(le, s[1..]));
    }
  }

  /** Sorting a sequence that is in order already leaves it alone. */
  lemma {:induction false} SortFixed<T>(le: (T, T) -> bool, s: seq<T>)
    requires SortedBy(le, s)
    ensures SortBy(le, s) == s
  {
    if s == [] {
    } else {
      SortFixed(le, s[1..]);
      assert s == [s[0]] + s[1..];
      if |s| > 1 { assert le(s[0], s[1]); }
    }
  }

  /** What compares equal to `y`. */
  function Tie<T>(le: (T, T) -> bool, y: T): T -> bool { z => le(y, z) && le(z, y) }

  lemma {:induction false} InsertStable<T(!new)>(le: (T, T) -> bool, x: T, s: seq<T>, y: T)
    requires Preorder(le) && SortedBy(le, s)
    ensures Filter(Tie(le, y), Insert(le, x, s)) == Filter(Tie(le, y), [x] + s)
  {
    var tie := Tie(le, y);
    if s == [] || le(x, s[0]) {
    } else {
      InsertStable(le, x, s[1..], y);
      assert Filter(tie, Insert(le, x, s)) == Filter(tie, [s[0]]) + Filter(tie, [x] + s[1..]) by {
        FilterAppend(tie, [s[0]], Insert(le, x, s[1..]));
      }
      FilterAppend(tie, [x], s[1..]);
      FilterAppend(tie, [x], s);
      assert !(tie(x) && tie(s[0]));
    }
  }

  /** Elements that compare equal keep their relative order. */
  lemma {:induction false} SortStable<T(!new)>(le: (T, T) -> bool, s: seq<T>, y: T)
    requires Preorder(le)
    ensures Filter(Tie(le, y), SortBy(le, s)) == Filter(Tie(le, y), s)
  {
    if s == [] {
    } else {
      var tie := Tie(le, y);
      var t := SortBy(le, s[1..]);
      SortStable(le, s[1..], y);
      SortSorted(le, s[1..]);
      InsertStable(le, s[0], t, y);
      FilterAppend(tie, [s[0]], t);
    }
  }

  /** Of all that tie with it, the first element is still first after sorting. */
  lemma {:induction false} FirstOfItsTies<T(!new)>(le: (T, T) -> bool, s: seq<T>)
    requires Preorder(le) && s != []
    ensures Filter(Tie(le, s[0]), SortBy(le, s)) != [] && Filter(Tie(le, s[0]), SortBy(le, s))[0] == s[0]
  {
    SortStable(le, s, s[0]);
    assert le(s[0], s[0]);
  }

  /** Somewhere in `s`, `x` stands before `y`. */
  ghost predicate Ahead<T>(s: seq<T>, x: T, y: T) { exists i, j :: 0 <= i < j < |s| && s[i] == x && s[j] == y }

  /** Filtering keeps the order of what it keeps. */
  lemma {:induction false} FilterAhead<T(!new)>(p: T -> bool, s: seq<T>, x: T, y: T)
    requires p(x) && p(y)
    ensures Ahead(Filter(p, s), x, y) <==> Ahead(s, x, y)
  {
    if s == [] {
    } else {
      var rest := s[1..];
      FilterAhead(p, rest, x, y);
      FilterMembers(p, rest);
      AheadFirst(s, x, y);
      if p(s[0]) { AheadFirst(Filter(p, s), x, y); }
    }
  }

  lemma {:induction false} AheadFirst<T>(s: seq<T>, x: T, y: T)
    requires s != []
    ensures Ahead(s, x, y) <==> Ahead(s[1..], x, y) || (s[0] == x && y in s[1..])
  {
    var rest := s[1..];
    if i, j :| 0 <= i < j < |s| && s[i] == x && s[j] == y { assert rest[j - 1] == y && (i > 0 ==> rest[i - 1] == x); }
    if i, j :| 0 <= i < j < |rest| && rest[i] == x && rest[j] == y { assert s[i + 1] == x && s[j + 1] == y; }
    if y in rest {
      var j :| 0 <= j < |rest| && rest[j] == y;
      assert s[j + 1] == y;
    }
  }

  lemma {:induction false} FilterSame<T>(p: T -> bool, q: T -> bool, s: seq<T>)
    requires forall x :: x in s ==> p(x) == q(x)
    ensures Filter(p, s) == Filter(q, s)
  {
    if s == [] {
    } else {
      FilterSame(p, q, s[1..]);
    }
  }

  ghost predicate TieFree<T>(le: (T, T) -> bool, s: seq<T>) {
    forall x, y :: x in s && y in s && le(x, y) && le(y, x) ==> x == y
  }

  lemma {:induction false} FirstLe<T(!new)>(le: (T, T) -> bool, a: seq<T>, x: T)
    requires Preorder(le) && SortedBy(le, a) && x in a
    ensures le(a[0], x)
  {
    var i :| 0 <= i < |a| && a[i] == x;
    assert i == 0 || le(a[0], a[i]);
    assert le(a[0], a[0]);
  }

  lemma {:induction false} SameFirst<T(!new)>(le: (T, T) -> bool, a: seq<T>, b: seq<T>)
    requires Preorder(le) && SortedBy(le, a) && SortedBy(le, b)
    requires multiset(a) == multiset(b) && TieFree(le, a) && a != []
    ensures b != [] && a[0] == b[0]
  {
    assert a[0] in multiset(b);
    assert b[0] in multiset(a);
    FirstLe(le, a, b[0]);
    FirstLe(le, b, a[0]);
  }

  lemma {:induction false} TailFacts<T(!new)>(le: (T, T) -> bool, a: seq<T>)
    requires a != [] && SortedBy(le, a)
    ensures SortedBy(le, a[1..]) && (TieFree(le, a) ==> TieFree(le, a[1..]))
  {
  }

  lemma {:induction false} TailMultiset<T>(a: seq<T>, b: seq<T>)
    requires a != [] && b != [] && multiset(a) == multiset(b) && a[0] == b[0]
    ensures multiset(a[1..]) == multiset(b[1..])
  {
    assert a == [a[0]] + a[1..] && b == [b[0]] + b[1..];
    assert multiset(a[1..]) == multiset(a) - multiset{a[0]};
    assert multiset(b[1..]) == multiset(b) - multiset{b[0]};
  }

  lemma {:induction false} SortedUnique<T(!new)>(le: (T, T) -> bool, a: seq<T>, b: seq<T>)
    requires Preorder(le) && SortedBy(le, a) && SortedBy(le, b)
    requires multiset(a) == multiset(b) && TieFree(le, a)
    ensures a == b
  {
    hide Preorder, SortedBy, TieFree;
    if a == [] {
      assert |multiset(b)| == |b|;
    } else {
      SameFirst(le, a, b);
      TailFacts(le, a);
      TailFacts(le, b);
      TailMultiset(a, b);
      SortedUnique(le, a[1..], b[1..]);
      assert a == [a[0]] + a[1..];
      assert b == [b[0]] + b[1..];
    }
  }

  /** Without ties, the sorted order does not depend on the order of the input. */
  lemma {:induction false} SortPermutationInvariant<T(!new)>(le: (T, T) -> bool, a: seq<T>, b: seq<T>)
    requires Preorder(le) && multiset(a) == multiset(b) && TieFree(le, a)
    ensures SortBy(le, a) == SortBy(le, b)
  {
    SortMultiset(le, a);
    SortMultiset(le, b);
    SortSorted(le, a);
    SortSorted(le, b);
    SortMembers(le, a);
    SortedUnique(le, SortBy(le, a), SortBy(le, b));
  }

  // ---------------------------------------------------------------- strings in code-unit order

  /** The order of Array.prototype.sort without a comparator: by code units. */
  predicate TextLe(a: string, b: string) {
    a == [] || (b != [] && (a[0] < b[0] || (a[0] == b[0] && TextLe(a[1..], b[1..]))))
  }

  /** Code-unit order: a prefix comes first, otherwise the first difference decides. */
  lemma {:induction false} TextLeIsCodeUnitOrder(a: string, b: string)
    ensures TextLe(a, b) <==> a <= b || exists i :: 0 <= i < |a| && i < |b| && FirstDifference(a, b, i) && a[i] < b[i]
  {
    if a == [] || b == [] {
    } else if a[0] != b[0] {
      if a[0] < b[0] { assert FirstDifference(a, b, 0); }
      if i :| 0 <= i < |a| && i < |b| && FirstDifference(a, b, i) {
        assert i > 0 ==> a[..i][0] == b[..i][0];
      }
    } else {
      TextLeIsCodeUnitOrder(a[1..], b[1..]);
      assert a == [a[0]] + a[1..] && b == [b[0]] + b[1..];
      assert a <= b <==> a[1..] <= b[1..];
      forall i: nat | i < |a| - 1 && i < |b| - 1
        ensures FirstDifference(a[1..], b[1..], i) <==> FirstDifference(a, b, i + 1)
      {
        assert a[..i + 1] == [a[0]] + a[1..][..i] && b[..i + 1] == [b[0]] + b[1..][..i];
        if a[..i + 1] == b[..i + 1] { assert a[..i + 1][1..] == a[1..][..i] && b[..i + 1][1..] == b[1..][..i]; }
      }
      if i :| 0 <= i < |a| && i < |b| && FirstDifference(a, b, i) && a[i] < b[i] {
        assert i > 0;
        assert FirstDifference(a[1..], b[1..], i - 1) && a[1..][i - 1] < b[1..][i - 1];
      }
      if i :| 0 <= i < |a| - 1 && i < |b| - 1 && FirstDifference(a[1..], b[1..], i) && a[1..][i] < b[1..][i] {
        assert FirstDifference(a, b, i + 1) && a[i + 1] < b[i + 1];
      }
    }
  }

  ghost predicate FirstDifference(a: string, b: string, i: nat)
    requires i < |a| && i < |b|
  {
    a[..i] == b[..i] && a[i] != b[i]
  }

  lemma {:induction false} TextLeTotal(a: string, b: string)
    ensures TextLe(a, b) || TextLe(b, a)
    ensures TextLe(a, b) && TextLe(b, a) ==> a == b
  {
    if a != [] && b != [] && a[0] == b[0] {
      TextLeTotal(a[1..], b[1..]);
      assert a == [a[0]] + a[1..] && b == [b[0]] + b[1..];
    }
  }

  lemma {:induction false} TextLeTransitive(a: string, b: string, c: string)
    requires TextLe(a, b) && TextLe(b, c)
    ensures TextLe(a, c)
  {
    if a != [] && a[0] == b[0] && b[0] == c[0] {
      TextLeTransitive(a[1..], b[1..], c[1..]);
    }
  }

  lemma {:induction false} TextLeOrder()
    ensures Preorder(TextLe)
    ensures forall a, b :: TextLe(a, b) && TextLe(b, a) ==> a == b
  {
    forall a, b
      ensures TextLe(a, b) || TextLe(b, a)
      ensures TextLe(a, b) && TextLe(b, a) ==> a == b
    {
      TextLeTotal(a, b);
    }
    forall a, b, c | TextLe(a, b) && TextLe(b, c) ensures TextLe(a, c) {
      TextLeTransitive(a, b, c);
    }
  }

  // ---------------------------------------------------------------- counting

  /** A function that is injective on `s` and stays below `k` bounds the size of `s`. */
  lemma {:induction false} InjectionBounds(s: set<nat>, f: nat -> int, k: nat)
    requires forall i :: i in s ==> 0 <= f(i) < k
    requires forall i, j :: i in s && j in s && f(i) == f(j) ==> i == j
    ensures |s| <= k
    decreases k
  {
    if i :| i in s && f(i) == k - 1 {
      InjectionBounds(s - {i}, f, k - 1);
    } else if k > 0 {
      InjectionBounds(s, f, k - 1);
    } else {
      assert s == {} by {
        if i :| i in s { assert false; }
      }
    }
  }

  ghost predicate Reaches(s: set<nat>, f: nat -> int, l: int) {
    exists i :: i in s && f(i) == l
  }

  /** A function that reaches every number below `k` from `s` needs at least `k` elements. */
  lemma {:induction false} SurjectionBounds(s: set<nat>, f: nat -> int, k: nat)
    requires forall l: int :: 0 <= l < k ==> Reaches(s, f, l)
    ensures k <= |s|
    decreases k
  {
    if k == 0 {
    } else {
      assert Reaches(s, f, k - 1);
      var i :| i in s && f(i) == k - 1;
      forall l: int | 0 <= l < k - 1 ensures Reaches(s - {i}, f, l) {
        assert Reaches(s, f, l);
        var j :| j in s && f(j) == l;
        assert j in s - {i};
      }
      SurjectionBounds(s - {i}, f, k - 1);
    }
  }
}
