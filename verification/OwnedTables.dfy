/**
 * Tables whose rows belong either to the package or to the tenant, and the upsert of seeds into
 * them (api/src/lib/defaultInstallPackage.ts:250-286, 312-343 and 348-437).
 *
 * The lookups say LIMIT 1 without an order, so the database may yield any row that has the key.
 * `picks` stands for its choice: `picks(n)` is the row it yields for the n-th seed, if that row has
 * the key. What is proved for every `picks` holds whatever the database does.
 */
module OwnedTables {
  import opened Wrappers

  /** A row with its owner: `is_system`, or `source = 'system'`. */
  datatype Owned<K, V> = Owned(key: K, system: bool, value: V)

  /** `caption` names the seed in a conflict. */
  datatype Seed<K, V> = Seed(key: K, value: V, caption: string)

  type Picks = nat -> nat

  function Always(i: nat): Picks { _ => i }

  // ---------------------------------------------------------------- specification

  /** A row with key `k`: row `hint`, or else the first. */
  function Pick<K(==), V>(t: seq<Owned<K, V>>, k: K, hint: nat): (at: Option<nat>)
    ensures at.Some? ==> at.value < |t| && t[at.value].key == k
    ensures at.None? ==> forall i :: 0 <= i < |t| ==> t[i].key != k
    ensures hint < |t| && t[hint].key == k ==> at == Some(hint)
  {
    if hint < |t| && t[hint].key == k then Some(hint)
    else if t == [] then None
    else
      var n := |t| - 1;
      var earlier := Pick(t[..n], k, n);
      if earlier.Some? then earlier else if t[n].key == k then Some(n) else None
  }

  predicate HasKey<K(==), V>(t: seq<Owned<K, V>>, k: K) { exists i :: 0 <= i < |t| && t[i].key == k }

  /** UPDATE … WHERE key: every row with the key becomes the package's. */
  function Overwritten<K(==), V>(t: seq<Owned<K, V>>, k: K, v: V): seq<Owned<K, V>> {
    seq(|t|, i requires 0 <= i < |t| => if t[i].key == k then Owned(k, true, v) else t[i])
  }

  function Put<K(==), V>(t: seq<Owned<K, V>>, s: Seed<K, V>, hint: nat): seq<Owned<K, V>> {
    var at := Pick(t, s.key, hint);
    if at.None? then t + [Owned(s.key, true, s.value)]
    else if t[at.value].system then Overwritten(t, s.key, s.value)
    else t
  }

  function PutAll<K(==), V>(t: seq<Owned<K, V>>, seeds: seq<Seed<K, V>>, picks: Picks): seq<Owned<K, V>> {
    if seeds == [] then t
    else
      var n := |seeds| - 1;
      Put(PutAll(t, seeds[..n], picks), seeds[n], picks(n))
  }

  /** The last seed for a key has the last word. */
  function LastValue<K(==), V>(seeds: seq<Seed<K, V>>, k: K): Option<V> {
    if seeds == [] then None
    else if seeds[|seeds| - 1].key == k then Some(seeds[|seeds| - 1].value)
    else LastValue(seeds[..|seeds| - 1], k)
  }

  lemma {:induction false} LastValueIsSeeded<K, V>(seeds: seq<Seed<K, V>>, k: K)
    ensures LastValue(seeds, k).Some? <==> exists n :: 0 <= n < |seeds| && seeds[n].key == k
  {
    if seeds == [] {
    } else {
      var m := |seeds| - 1;
      LastValueIsSeeded(seeds[..m], k);
      if n :| 0 <= n < m && seeds[n].key == k { assert seeds[..m][n].key == k; }
    }
  }

  // ---------------------------------------------------------------- keys

  lemma {:induction false} PutKeys<K, V>(t: seq<Owned<K, V>>, s: Seed<K, V>, hint: nat)
    ensures |t| <= |Put(t, s, hint)|
    ensures forall i :: 0 <= i < |t| ==> Put(t, s, hint)[i].key == t[i].key
    ensures forall i :: 0 <= i < |t| && t[i].key != s.key ==> Put(t, s, hint)[i] == t[i]
    ensures forall k :: HasKey(Put(t, s, hint), k) <==> HasKey(t, k) || k == s.key
  {
    var t' := Put(t, s, hint);
    assert HasKey(t', s.key) by {
      var at := Pick(t, s.key, hint);
      assert t'[if at.Some? then at.value else |t|].key == s.key;
    }
    forall k | HasKey(t, k) ensures HasKey(t', k) {
      var i :| 0 <= i < |t| && t[i].key == k;
      assert t'[i].key == k;
    }
  }

  lemma {:induction false} PutAllKeys<K, V>(t: seq<Owned<K, V>>, seeds: seq<Seed<K, V>>, picks: Picks)
    ensures |t| <= |PutAll(t, seeds, picks)|
    ensures forall i :: 0 <= i < |t| ==> PutAll(t, seeds, picks)[i].key == t[i].key
    ensures forall k :: HasKey(PutAll(t, seeds, picks), k) <==> HasKey(t, k) || LastValue(seeds, k).Some?
  {
    hide Put, HasKey;
    if seeds == [] {
    } else {
      var n := |seeds| - 1;
      PutAllKeys(t, seeds[..n], picks);
      PutKeys(PutAll(t, seeds[..n], picks), seeds[n], picks(n));
    }
  }

  /** Rows whose key has no seed stay as they are. */
  lemma {:induction false} UnseededRowsKept<K, V>(t: seq<Owned<K, V>>, seeds: seq<Seed<K, V>>, picks: Picks, i: nat)
    requires i < |t| && LastValue(seeds, t[i].key).None?
    ensures |t| <= |PutAll(t, seeds, picks)| && PutAll(t, seeds, picks)[i] == t[i]
  {
    if seeds == [] {
    } else {
      var n := |seeds| - 1;
      UnseededRowsKept(t, seeds[..n], picks, i);
      PutKeys(PutAll(t, seeds[..n], picks), seeds[n], picks(n));
    }
  }

  ghost predicate KeysUnique<K, V>(t: seq<Owned<K, V>>) {
    forall i, j :: 0 <= i < j < |t| ==> t[i].key != t[j].key
  }

  lemma {:induction false} PutAllKeepsKeysUnique<K, V>(t: seq<Owned<K, V>>, seeds: seq<Seed<K, V>>, picks: Picks)
    requires KeysUnique(t)
    ensures KeysUnique(PutAll(t, seeds, picks))
  {
    if seeds == [] {
    } else {
      PutAllKeepsKeysUnique(t, seeds[..|seeds| - 1], picks);
    }
  }

  /** Where keys are unique, updating by key is updating the one row that was found, by its id. */
  lemma {:induction false} ByKeyIsById<K, V>(t: seq<Owned<K, V>>, k: K, v: V, hint: nat)
    requires KeysUnique(t) && HasKey(t, k)
    ensures Pick(t, k, hint).Some?
    ensures Overwritten(t, k, v) == t[Pick(t, k, hint).value := Owned(k, true, v)]
  {
    var at := Pick(t, k, hint).value;
    forall i | 0 <= i < |t| && i != at ensures t[i].key != k {
      assert if i < at then t[i].key != t[at].key else t[at].key != t[i].key;
    }
  }

  // ---------------------------------------------------------------- keys with one kind of owner

  /** Some seeded key has a row of the tenant and a row of the package. */
  ghost predicate Contested<K, V>(t: seq<Owned<K, V>>, seeds: seq<Seed<K, V>>) {
    exists i, j :: 0 <= i < |t| && 0 <= j < |t| && SharedKey(t, seeds, i, j)
  }

  ghost predicate SharedKey<K, V>(t: seq<Owned<K, V>>, seeds: seq<Seed<K, V>>, i: nat, j: nat)
    requires i < |t| && j < |t|
  {
    t[i].key == t[j].key && !t[i].system && t[j].system && LastValue(seeds, t[i].key).Some?
  }

  /** What becomes of a row, if its key is not contested. */
  function Settle<K(==), V>(seeds: seq<Seed<K, V>>, row: Owned<K, V>): Owned<K, V> {
    var last := LastValue(seeds, row.key);
    if row.system && last.Some? then Owned(row.key, true, last.value) else row
  }

  ghost predicate AllSettled<K, V>(t: seq<Owned<K, V>>, seeds: seq<Seed<K, V>>, t': seq<Owned<K, V>>) {
    && |t| <= |t'|
    && (forall i :: 0 <= i < |t| ==> t'[i] == Settle(seeds, t[i]))
    && (forall i :: |t| <= i < |t'| ==>
          t'[i].system && LastValue(seeds, t'[i].key) == Some(t'[i].value) && !HasKey(t, t'[i].key))
  }

  /** From a table where no seeded key is contested, the outcome does not depend on the database's choices. */
  lemma {:induction false} PutAllSettles<K, V>(t: seq<Owned<K, V>>, seeds: seq<Seed<K, V>>, picks: Picks)
    requires !Contested(t, seeds)
    ensures AllSettled(t, seeds, PutAll(t, seeds, picks))
  {
    if seeds == [] {
    } else {
      var n := |seeds| - 1;
      var front, s := seeds[..n], seeds[n];
      assert !Contested(t, front) by {
        if i, j :| 0 <= i < |t| && 0 <= j < |t| && SharedKey(t, front, i, j) { assert SharedKey(t, seeds, i, j); }
      }
      PutAllSettles(t, front, picks);
      var u := PutAll(t, front, picks);
      assert seeds == front + [s];
      PutSettles(t, front, s, u, picks(n));
    }
  }

  lemma {:induction false} PutSettles<K, V>(t: seq<Owned<K, V>>, front: seq<Seed<K, V>>, s: Seed<K, V>,
                                            u: seq<Owned<K, V>>, hint: nat)
    requires AllSettled(t, front, u) && !Contested(t, front + [s])
    ensures AllSettled(t, front + [s], Put(u, s, hint))
  {
    var seeds, t', at := front + [s], Put(u, s, hint), Pick(u, s.key, hint);
    assert seeds[..|seeds| - 1] == front;
    PutKeys(u, s, hint);
    forall i | 0 <= i < |t| ensures t'[i] == Settle(seeds, t[i]) {
      assert u[i] == Settle(front, t[i]);
      if t[i].key == s.key {
        assert at.Some?;
        if at.value < |t| {
          assert u[at.value] == Settle(front, t[at.value]);
          assert !SharedKey(t, seeds, i, at.value) && !SharedKey(t, seeds, at.value, i);
        } else {
          assert HasKey(t, s.key);
        }
      }
    }
    forall i | |t| <= i < |t'|
      ensures t'[i].system && LastValue(seeds, t'[i].key) == Some(t'[i].value) && !HasKey(t, t'[i].key)
    {
      if i < |u| && u[i].key == s.key {
        assert at.Some? && !HasKey(t, s.key);
        assert at.value >= |t|;
      } else if i == |u| {
        assert at.None?;
        assert forall j :: 0 <= j < |t| ==> u[j].key == t[j].key;
      }
    }
  }

  /** Settling is final, whatever rows the database yields on either occasion. */
  lemma {:induction false} PutAllTwice<K, V>(t: seq<Owned<K, V>>, seeds: seq<Seed<K, V>>, picks: Picks, picks': Picks)
    requires !Contested(t, seeds)
    ensures PutAll(PutAll(t, seeds, picks), seeds, picks') == PutAll(t, seeds, picks)
    ensures !Contested(PutAll(t, seeds, picks), seeds)
  {
    var t' := PutAll(t, seeds, picks);
    PutAllSettles(t, seeds, picks);
    SettledUncontested(t, seeds, t');
    PutAllSettles(t', seeds, picks');
    var t'' := PutAll(t', seeds, picks');
    forall i | 0 <= i < |t'| ensures t''[i] == t'[i] {
      if i < |t| { assert t'[i] == Settle(seeds, t[i]); }
    }
    PutAllKeys(t, seeds, picks);
    NothingNew(t', seeds, t'');
  }

  lemma {:induction false} NothingNew<K, V>(t: seq<Owned<K, V>>, seeds: seq<Seed<K, V>>, t': seq<Owned<K, V>>)
    requires AllSettled(t, seeds, t') && forall k :: LastValue(seeds, k).Some? ==> HasKey(t, k)
    ensures |t'| == |t|
  {
    assert |t| < |t'| ==> HasKey(t, t'[|t|].key);
  }

  lemma {:induction false} SettledUncontested<K, V>(t: seq<Owned<K, V>>, seeds: seq<Seed<K, V>>, t': seq<Owned<K, V>>)
    requires !Contested(t, seeds) && AllSettled(t, seeds, t')
    ensures !Contested(t', seeds)
  {
    if i, j :| 0 <= i < |t'| && 0 <= j < |t'| && SharedKey(t', seeds, i, j) {
      assert i < |t| && t'[i] == Settle(seeds, t[i]);
      if j < |t| {
        assert t'[j] == Settle(seeds, t[j]);
        assert SharedKey(t, seeds, i, j);
      } else {
        assert HasKey(t, t'[j].key);
      }
    }
  }

  // ---------------------------------------------------------------- contested keys

  /** If the database yields the tenant's row every time, nothing under its key changes. */
  lemma {:induction false} YieldTenant<K, V>(t: seq<Owned<K, V>>, seeds: seq<Seed<K, V>>, i: nat, j: nat)
    requires i < |t| && j < |t| && !t[i].system && t[j].key == t[i].key
    ensures var t' := PutAll(t, seeds, Always(i)); |t| <= |t'| && t'[i] == t[i] && t'[j] == t[j]
  {
    if seeds == [] {
    } else {
      var n := |seeds| - 1;
      YieldTenant(t, seeds[..n], i, j);
      PutKeys(PutAll(t, seeds[..n], Always(i)), seeds[n], i);
    }
  }

  /** If it yields the package's row every time, all rows under a seeded key become the package's. */
  lemma {:induction false} YieldPackage<K, V>(t: seq<Owned<K, V>>, seeds: seq<Seed<K, V>>, i: nat, j: nat)
    requires i < |t| && j < |t| && t[j].system && t[j].key == t[i].key
    ensures var t' := PutAll(t, seeds, Always(j));
            |t| <= |t'| && t'[j].system && (LastValue(seeds, t[i].key).Some? ==> t'[i].system)
  {
    if seeds == [] {
    } else {
      var n := |seeds| - 1;
      var u := PutAll(t, seeds[..n], Always(j));
      YieldPackage(t, seeds[..n], i, j);
      PutAllKeys(t, seeds[..n], Always(j));
      PutKeys(u, seeds[n], j);
    }
  }

  ghost predicate TenantRowsKept<K, V>(t: seq<Owned<K, V>>, t': seq<Owned<K, V>>) {
    |t| <= |t'| && forall i :: 0 <= i < |t| && !t[i].system ==> t'[i] == t[i]
  }

  /** The tenant's rows survive whatever the database yields if and only if no seeded key is contested. */
  lemma {:induction false} TenantRowsKeptIff<K, V>(t: seq<Owned<K, V>>, seeds: seq<Seed<K, V>>)
    ensures (forall picks: Picks :: TenantRowsKept(t, PutAll(t, seeds, picks))) <==> !Contested(t, seeds)
  {
    if i, j :| 0 <= i < |t| && 0 <= j < |t| && SharedKey(t, seeds, i, j) {
      YieldPackage(t, seeds, i, j);
      assert !TenantRowsKept(t, PutAll(t, seeds, Always(j)));
    } else {
      forall picks: Picks ensures TenantRowsKept(t, PutAll(t, seeds, picks)) {
        PutAllSettles(t, seeds, picks);
      }
    }
  }

  ghost predicate Repeatable<K, V>(t: seq<Owned<K, V>>, seeds: seq<Seed<K, V>>) {
    forall picks: Picks, picks': Picks :: PutAll(PutAll(t, seeds, picks), seeds, picks') == PutAll(t, seeds, picks)
  }

  /** A second application changes nothing, whatever the database yields, under just the same condition. */
  lemma {:induction false} RepeatableIff<K, V>(t: seq<Owned<K, V>>, seeds: seq<Seed<K, V>>)
    ensures Repeatable(t, seeds) <==> !Contested(t, seeds)
  {
    if i, j :| 0 <= i < |t| && 0 <= j < |t| && SharedKey(t, seeds, i, j) {
      var t' := PutAll(t, seeds, Always(i));
      YieldTenant(t, seeds, i, j);
      YieldPackage(t', seeds, i, j);
      assert PutAll(t', seeds, Always(j)) != t';
    } else {
      forall picks: Picks, picks': Picks
        ensures PutAll(PutAll(t, seeds, picks), seeds, picks') == PutAll(t, seeds, picks)
      {
        PutAllTwice(t, seeds, picks, picks');
      }
    }
  }

  /** Where a unique index covers the key, no row of a tenant is ever altered. */
  lemma {:induction false} UniqueKeysProtect<K, V>(t: seq<Owned<K, V>>, seeds: seq<Seed<K, V>>, picks: Picks)
    requires KeysUnique(t)
    ensures !Contested(t, seeds) && TenantRowsKept(t, PutAll(t, seeds, picks)) && KeysUnique(PutAll(t, seeds, picks))
  {
    forall i, j | 0 <= i < |t| && 0 <= j < |t| ensures !SharedKey(t, seeds, i, j) {
      if i < j {
        assert t[i].key != t[j].key;
      } else if j < i {
        assert t[j].key != t[i].key;
      }
    }
    TenantRowsKeptIff(t, seeds);
    PutAllKeepsKeysUnique(t, seeds, picks);
  }

  /** Afterwards a seeded key has rows, each the tenant's as it was or the package's with the last value. */
  lemma {:induction false} SeedsAreHeld<K, V>(t: seq<Owned<K, V>>, seeds: seq<Seed<K, V>>, picks: Picks, k: K)
    requires !Contested(t, seeds) && LastValue(seeds, k).Some?
    ensures var t' := PutAll(t, seeds, picks);
            && HasKey(t', k)
            && forall i :: 0 <= i < |t'| && t'[i].key == k ==>
                 if t'[i].system then t'[i].value == LastValue(seeds, k).value else i < |t| && t'[i] == t[i]
  {
    PutAllKeys(t, seeds, picks);
    PutAllSettles(t, seeds, picks);
  }

  /**
   * The smallest contested tables: a null task type lets two rows of one key past the unique index,
   * and the tenant's row is taken whether it comes after the package's row or before it.
   */
  lemma {:induction false} TenantRowCanBeTaken<K, V>(k: K, was: V, mine: V, seeded: V, caption: string)
    ensures var package, tenant, s := Owned(k, true, was), Owned(k, false, mine), Seed(k, seeded, caption);
            && PutAll([package, tenant], [s], Always(0)) == [Owned(k, true, seeded), Owned(k, true, seeded)]
            && PutAll([tenant, package], [s], Always(1)) == [Owned(k, true, seeded), Owned(k, true, seeded)]
            && PutAll([tenant, package], [s], Always(0)) == [tenant, package]
  {
    var package, tenant, s := Owned(k, true, was), Owned(k, false, mine), Seed(k, seeded, caption);
    assert [s][..0] == [];
    assert PutAll([package, tenant], [s], Always(0)) == Put(PutAll([package, tenant], [], Always(0)), s, 0);
    assert PutAll([tenant, package], [s], Always(1)) == Put(PutAll([tenant, package], [], Always(1)), s, 1);
    assert PutAll([tenant, package], [s], Always(0)) == Put(PutAll([tenant, package], [], Always(0)), s, 0);
  }
}
