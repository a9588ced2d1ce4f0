/**
 A JavaScript `Map`: key-value pairs in insertion order, one pair per key.
 `delete` followed by `set` moves a key to the end, which is how the SDK keeps
 its two LRU caches in touch order.
 */
module OrderedMap {
  import opened Wrappers

  ghost predicate DistinctKeys<K, V>(m: seq<(K, V)>) {
    m == [] || (m[0].0 !in KeysOf(m[1..]) && DistinctKeys(m[1..]))
  }

  ghost function KeysOf<K, V>(m: seq<(K, V)>): set<K> {
    set p <- m :: p.0
  }

  function Get<K(==), V>(m: seq<(K, V)>, k: K): Option<V>
  {
    if m == [] then None
    else if m[0].0 == k then Some(m[0].1)
    else Get(m[1..], k)
  }

  function Delete<K(==), V>(m: seq<(K, V)>, k: K): seq<(K, V)>
  {
    if m == [] then []
    else if m[0].0 == k then Delete(m[1..], k)
    else [m[0]] + Delete(m[1..], k)
  }

  /** `map.delete(k); map.set(k, v)`. */
  function MoveToEnd<K(==), V>(m: seq<(K, V)>, k: K, v: V): seq<(K, V)> {
    Delete(m, k) + [(k, v)]
  }

  /**
   One pass over the map in order that deletes the removable values it meets
   until it has deleted `excess` of them.
   */
  function Sweep<K, V(==)>(m: seq<(K, V)>, removable: set<V>, excess: nat): seq<(K, V)>
  {
    if m == [] || excess == 0 then m
    else if m[0].1 in removable then Sweep(m[1..], removable, excess - 1)
    else [m[0]] + Sweep(m[1..], removable, excess)
  }

  /** The pairs that `Sweep` deletes, in the order it deletes them. */
  function Swept<K, V(==)>(m: seq<(K, V)>, removable: set<V>, excess: nat): seq<(K, V)>
  {
    if m == [] || excess == 0 then []
    else if m[0].1 in removable then [m[0]] + Swept(m[1..], removable, excess - 1)
    else Swept(m[1..], removable, excess)
  }

  function CountIn<K, V(==)>(m: seq<(K, V)>, s: set<V>): nat
  {
    if m == [] then 0 else (if m[0].1 in s then 1 else 0) + CountIn(m[1..], s)
  }

  lemma {:induction false} GetFinds<K, V>(m: seq<(K, V)>, k: K)
    ensures match Get(m, k)
      case Some(v) => (k, v) in m
      case None => k !in KeysOf(m)
  {
    if m != [] {
      GetFinds(m[1..], k);
    }
  }

  /** `Delete` takes out the pairs of one key and no others. */
  lemma {:induction false} DeleteMembers<K, V>(m: seq<(K, V)>, k: K)
    ensures forall p <- Delete(m, k) :: p in m && p.0 != k
    ensures forall p <- m :: p.0 != k ==> p in Delete(m, k)
  {
    if m != [] {
      DeleteMembers(m[1..], k);
    }
  }

  lemma {:induction false} GetIsMembership<K, V>(m: seq<(K, V)>, k: K, v: V)
    requires DistinctKeys(m)
    ensures Get(m, k) == Some(v) <==> (k, v) in m
  {
    if m != [] {
      GetIsMembership(m[1..], k, v);
      GetFinds(m[1..], k);
    }
  }

  /** Two pairs with the same key are the same pair. */
  lemma {:induction false} KeyDecides<K, V>(m: seq<(K, V)>, p: (K, V), q: (K, V))
    requires DistinctKeys(m) && p in m && q in m && p.0 == q.0
    ensures p == q
  {
    GetIsMembership(m, p.0, p.1);
    GetIsMembership(m, q.0, q.1);
  }

  lemma {:induction false} DeleteKeepsDistinct<K, V>(m: seq<(K, V)>, k: K)
    requires DistinctKeys(m)
    ensures DistinctKeys(Delete(m, k))
  {
    if m != [] {
      DeleteKeepsDistinct(m[1..], k);
      DeleteMembers(m[1..], k);
      if m[0].0 != k {
        var r := [m[0]] + Delete(m[1..], k);
        assert r[1..] == Delete(m[1..], k);
      }
    }
  }

  lemma {:induction false} AppendKeepsDistinct<K, V>(m: seq<(K, V)>, q: (K, V))
    requires DistinctKeys(m) && q.0 !in KeysOf(m)
    ensures DistinctKeys(m + [q])
  {
    if m == [] {
      assert [q][1..] == [];
    } else {
      assert forall k <- KeysOf(m[1..]) :: k in KeysOf(m);
      assert m[0].0 in KeysOf(m);
      AppendKeepsDistinct(m[1..], q);
      assert (m + [q])[1..] == m[1..] + [q];
    }
  }

  lemma {:induction false} DeleteAbsent<K, V>(m: seq<(K, V)>, k: K)
    requires k !in KeysOf(m)
    ensures Delete(m, k) == m
  {
    if m != [] {
      assert m[0].0 in KeysOf(m) && forall p <- m[1..] :: p.0 in KeysOf(m);
      DeleteAbsent(m[1..], k);
    }
  }

  lemma {:induction false} DeleteAppended<K, V>(m: seq<(K, V)>, k: K, v: V)
    requires k !in KeysOf(m)
    ensures Delete(m + [(k, v)], k) == m
  {
    if m != [] {
      assert m[0].0 in KeysOf(m) && forall p <- m[1..] :: p.0 in KeysOf(m);
      assert (m + [(k, v)])[1..] == m[1..] + [(k, v)];
      DeleteAppended(m[1..], k, v);
    }
  }

  lemma {:induction false} SweepMembers<K, V>(m: seq<(K, V)>, removable: set<V>, excess: nat)
    ensures forall p <- Sweep(m, removable, excess) :: p in m
    ensures forall p <- Swept(m, removable, excess) :: p in m && p.1 in removable
  {
    if m != [] && excess > 0 {
      SweepMembers(m[1..], removable, if m[0].1 in removable then excess - 1 else excess);
    }
  }

  lemma {:induction false} SweepKeepsDistinct<K, V>(m: seq<(K, V)>, removable: set<V>, excess: nat)
    requires DistinctKeys(m)
    ensures DistinctKeys(Sweep(m, removable, excess))
  {
    if m != [] && excess > 0 {
      if m[0].1 in removable {
        SweepKeepsDistinct(m[1..], removable, excess - 1);
      } else {
        SweepKeepsDistinct(m[1..], removable, excess);
        SweepMembers(m[1..], removable, excess);
        var r := [m[0]] + Sweep(m[1..], removable, excess);
        assert r[1..] == Sweep(m[1..], removable, excess);
      }
    }
  }

  /** A pass deletes as many removable values as it was asked to, or all of them. */
  lemma {:induction false} SweepCounts<K, V>(m: seq<(K, V)>, removable: set<V>, excess: nat)
    ensures CountIn(Sweep(m, removable, excess), removable)
         == if excess <= CountIn(m, removable) then CountIn(m, removable) - excess else 0
    ensures |Sweep(m, removable, excess)| + |Swept(m, removable, excess)| == |m|
    ensures |Swept(m, removable, excess)|
         == if excess <= CountIn(m, removable) then excess else CountIn(m, removable)
  {
    if m != [] && excess > 0 {
      if m[0].1 in removable {
        SweepCounts(m[1..], removable, excess - 1);
      } else {
        SweepCounts(m[1..], removable, excess);
        assert ([m[0]] + Sweep(m[1..], removable, excess))[1..] == Sweep(m[1..], removable, excess);
      }
    }
  }

  lemma {:induction false} CountZero<K, V>(m: seq<(K, V)>, s: set<V>)
    requires CountIn(m, s) == 0
    ensures forall p <- m :: p.1 !in s
  {
    if m != [] {
      CountZero(m[1..], s);
    }
  }

  /** Kept and deleted pairs together are exactly the pairs there were. */
  lemma {:induction false} SweepPartitions<K, V>(m: seq<(K, V)>, removable: set<V>, excess: nat, p: (K, V))
    requires DistinctKeys(m)
    ensures p in m <==> p in Sweep(m, removable, excess) || p in Swept(m, removable, excess)
    ensures !(p in Sweep(m, removable, excess) && p in Swept(m, removable, excess))
  {
    if m != [] && excess > 0 {
      SweepMembers(m, removable, excess);
      SweepPartitions(m[1..], removable, if m[0].1 in removable then excess - 1 else excess, p);
    }
  }

  /** Every deleted pair stood before every removable pair that was kept. */
  lemma {:induction false} SweepTakesOldest<K, V>(
      m: seq<(K, V)>, removable: set<V>, excess: nat, i: nat, j: nat)
    requires DistinctKeys(m) && i < |m| && j < |m|
    requires m[i] in Swept(m, removable, excess)
    requires m[j] in Sweep(m, removable, excess) && m[j].1 in removable
    ensures i < j
  {
    SweepPartitions(m, removable, excess, m[i]);
    SweepPartitions(m, removable, excess, m[j]);
    if m != [] {
      SweepMembers(m[1..], removable, if m[0].1 in removable && excess > 0 then excess - 1 else excess);
    }
    if i > 0 {
      if j > 0 {
        SweepTakesOldest(m[1..], removable, if m[0].1 in removable then excess - 1 else excess, i - 1, j - 1);
      }
    }
  }

  /** What becomes of a last pair: it goes only when it is removable and those before it are too few. */
  lemma {:induction false} SweepOfAppend<K, V>(m: seq<(K, V)>, q: (K, V), removable: set<V>, excess: nat)
    ensures Sweep(m + [q], removable, excess)
         == Sweep(m, removable, excess) + if q.1 in removable && excess > CountIn(m, removable) then [] else [q]
  {
    if m == [] {
      assert m + [q] == [q] && [q][1..] == [];
    } else if excess > 0 {
      assert (m + [q])[1..] == m[1..] + [q];
      SweepOfAppend(m[1..], q, removable, if m[0].1 in removable then excess - 1 else excess);
    }
  }

  lemma {:induction false} DeleteMiddle<K, V>(a: seq<(K, V)>, q: (K, V), b: seq<(K, V)>)
    requires DistinctKeys(a + [q] + b)
    ensures Delete(a + [q] + b, q.0) == a + b
    ensures DistinctKeys(a + b)
  {
    if a == [] {
      assert [q] + b == a + [q] + b && ([q] + b)[1..] == b && a + b == b;
      DeleteAbsent(b, q.0);
    } else {
      assert (a + [q] + b)[1..] == a[1..] + [q] + b;
      assert (a + b)[1..] == a[1..] + b && a + b == [a[0]] + (a[1..] + b);
      assert q in a[1..] + [q] + b;
      DeleteMiddle(a[1..], q, b);
      forall p <- a[1..] + b ensures p.0 != a[0].0 {
        assert p in a[1..] + [q] + b;
      }
    }
  }
}
