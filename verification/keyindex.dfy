/**
 * The key -> row-positions index that `create_index`, `group_by`, the join's
 * multi-column index and pivot's two-level grouping all build in one pass
 * over the rows, and the matching row pairs of a hash join. The keys are of
 * any type: a text, a tuple of texts, or a (row key, column key) pair.
 */
module KeyIndexes {

  predicate StrictlyIncreasing(xs: seq<nat>)
  {
    forall a, b :: 0 <= a < b < |xs| ==> xs[a] < xs[b]
  }

  /** The positions at which k occurs in keys, in ascending order. */
  function Positions<K(==)>(keys: seq<K>, k: K): (r: seq<nat>)
    ensures forall i: nat :: i in r <==> i < |keys| && keys[i] == k
    ensures StrictlyIncreasing(r)
    ensures |r| == multiset(keys)[k]
  {
    if keys == [] then []
    else
      var n := |keys| - 1;
      assert keys == keys[..n] + [keys[n]];
      var p := Positions(keys[..n], k);
      assert forall a :: 0 <= a < |p| ==> p[a] in p;
      if keys[n] == k then p + [n] else p
  }

  /**
   * The index the building loop produces: row by row, `entry(key).or_default().push(i)`
   * files position i under its key, opening the bucket on the key's first occurrence.
   */
  function KeyIndex<K(==)>(keys: seq<K>): map<K, seq<nat>>
  {
    if keys == [] then map[]
    else
      var n := |keys| - 1;
      var m := KeyIndex(keys[..n]);
      m[keys[n] := (if keys[n] in m then m[keys[n]] else []) + [n]]
  }

  /** The keys of the index are the keys that occur; each maps to all its positions, ascending. */
  lemma {:induction false} KeyIndexEntries<K(!new)>(keys: seq<K>)
    ensures forall k :: k in KeyIndex(keys) <==> k in keys
    ensures forall k :: k in KeyIndex(keys) ==> KeyIndex(keys)[k] == Positions(keys, k)
  {
    if keys != [] {
      var n := |keys| - 1;
      var x := keys[n];
      KeyIndexEntries(keys[..n]);
      assert keys == keys[..n] + [x];
      var m := KeyIndex(keys[..n]);
      if x !in m {
        assert multiset(keys[..n])[x] == 0;
      }
    }
  }

  /** Looking one key up: its positions, or nothing for a key that does not occur. */
  lemma KeyIndexLookup<K(!new)>(keys: seq<K>, k: K)
    ensures k in KeyIndex(keys) ==> KeyIndex(keys)[k] == Positions(keys, k)
    ensures k !in KeyIndex(keys) ==> Positions(keys, k) == []
    ensures k in KeyIndex(keys) <==> k in keys
    ensures k in keys <==> Positions(keys, k) != []
  {
    KeyIndexEntries(keys);
    if Positions(keys, k) != [] {
      assert Positions(keys, k)[0] in Positions(keys, k);
    }
    if k in keys {
      var i :| 0 <= i < |keys| && keys[i] == k;
      assert (i as nat) in Positions(keys, k);
    }
  }

  /** One step of the building loop, at position i. */
  lemma KeyIndexStep<K>(keys: seq<K>, i: nat)
    requires i < |keys|
    ensures var m := KeyIndex(keys[..i]);
      KeyIndex(keys[..i + 1]) == m[keys[i] := (if keys[i] in m then m[keys[i]] else []) + [i]]
  {
    assert keys[..i + 1][..i] == keys[..i];
  }

  /**
   * The building loop itself: one pass over the keys in row order, filing
   * row i under keys[i].
   */
  method BuildIndex<K(==)>(keys: seq<K>) returns (m: map<K, seq<nat>>)
    ensures m == KeyIndex(keys)
  {
    m := map[];
    for i := 0 to |keys|
      invariant m == KeyIndex(keys[..i])
    {
      KeyIndexStep(keys, i);
      m := m[keys[i] := (if keys[i] in m then m[keys[i]] else []) + [i]];
    }
    assert keys[..|keys|] == keys;
  }

  /** Every position lands in exactly one bucket: the bucket of its own key. */
  lemma KeyIndexBuckets<K(!new)>(keys: seq<K>)
    ensures var m := KeyIndex(keys);
      forall i: nat :: i < |keys| ==> keys[i] in m && i in m[keys[i]]
    ensures var m := KeyIndex(keys);
      forall k, i: nat :: k in m && i in m[k] ==> i < |keys| && keys[i] == k
    ensures var m := KeyIndex(keys);
      forall k :: k in m ==> m[k] != [] && StrictlyIncreasing(m[k])
  {
    var m := KeyIndex(keys);
    KeyIndexEntries(keys);
    forall k | k in m ensures m[k] != [] {
      var i :| 0 <= i < |keys| && keys[i] == k;
      assert (i as nat) in m[k];
    }
  }

  // ---------------------------------------------------------------------------
  // The two-level index: first key -> second key -> positions

  /**
   * Row by row, `entry(a).or_default().entry(b).or_default().push(i)` files
   * position i under its pair of keys (a, b).
   */
  function NestedIndex<A(==), B(==)>(keys: seq<(A, B)>): map<A, map<B, seq<nat>>>
  {
    if keys == [] then map[]
    else
      var n := |keys| - 1;
      var g := NestedIndex(keys[..n]);
      NestedFile(g, keys[n], n)
  }

  /** Filing one position under its pair of keys. */
  function NestedFile<A(==), B(==)>(g: map<A, map<B, seq<nat>>>, key: (A, B), i: nat): (r: map<A, map<B, seq<nat>>>)
    ensures r.Keys == g.Keys + {key.0}
  {
    var inner := if key.0 in g then g[key.0] else map[];
    g[key.0 := inner[key.1 := (if key.1 in inner then inner[key.1] else []) + [i]]]
  }

  /** The first key is in the index exactly when some row has it. */
  lemma {:induction false} NestedFirst<A(!new), B(!new)>(keys: seq<(A, B)>, a: A)
    ensures a in NestedIndex(keys) <==> exists i :: 0 <= i < |keys| && keys[i].0 == a
  {
    if keys != [] {
      var n := |keys| - 1;
      var prefix := keys[..n];
      NestedFirst(prefix, a);
      if exists i :: 0 <= i < |keys| && keys[i].0 == a {
        var i :| 0 <= i < |keys| && keys[i].0 == a;
        if i < n { assert prefix[i].0 == a; }
      }
      if exists i :: 0 <= i < |prefix| && prefix[i].0 == a {
        var i :| 0 <= i < |prefix| && prefix[i].0 == a;
        assert keys[i].0 == a;
      }
    }
  }

  /**
   * Under a first key that is there, the second key is there exactly when
   * some row has both, and maps to all the rows that have both, ascending.
   */
  lemma {:induction false} NestedSecond<A(!new), B(!new)>(keys: seq<(A, B)>, a: A, b: B)
    ensures a in NestedIndex(keys) ==> (b in NestedIndex(keys)[a] <==> (a, b) in keys)
    ensures a in NestedIndex(keys) && b in NestedIndex(keys)[a] ==> NestedIndex(keys)[a][b] == Positions(keys, (a, b))
  {
    if keys != [] {
      var n := |keys| - 1;
      var prefix := keys[..n];
      NestedSecond(prefix, a, b);
      NestedFirst(prefix, a);
      assert keys == prefix + [keys[n]];
      var g := NestedIndex(prefix);
      var (x, y) := keys[n];
      var inPrefix := (a, b) in prefix;
      assert (a, b) in keys <==> inPrefix || (a, b) == (x, y);
      if (a, b) == (x, y) {
        assert Positions(keys, (a, b)) == Positions(prefix, (a, b)) + [n];
        if !(a in g && b in g[a]) {
          assert multiset(prefix)[(a, b)] == 0;
        }
      } else {
        assert Positions(keys, (a, b)) == Positions(prefix, (a, b));
      }
    }
  }

  /** Both lookups at once. */
  lemma NestedLookup<A(!new), B(!new)>(keys: seq<(A, B)>, a: A, b: B)
    ensures a in NestedIndex(keys) <==> exists i :: 0 <= i < |keys| && keys[i].0 == a
    ensures a in NestedIndex(keys) ==> (b in NestedIndex(keys)[a] <==> (a, b) in keys)
    ensures a in NestedIndex(keys) && b in NestedIndex(keys)[a] ==> NestedIndex(keys)[a][b] == Positions(keys, (a, b))
  {
    NestedFirst(keys, a);
    NestedSecond(keys, a, b);
  }

  /** One step of the grouping loop, at position i. */
  lemma NestedStep<A, B>(keys: seq<(A, B)>, i: nat)
    requires i < |keys|
    ensures NestedIndex(keys[..i + 1]) == NestedFile(NestedIndex(keys[..i]), keys[i], i)
  {
    assert keys[..i + 1][..i] == keys[..i];
  }

  /** The grouping loop: one pass over the key pairs in row order. */
  method BuildNested<A(==), B(==)>(keys: seq<(A, B)>) returns (g: map<A, map<B, seq<nat>>>)
    ensures g == NestedIndex(keys)
  {
    g := map[];
    for i := 0 to |keys|
      invariant g == NestedIndex(keys[..i])
    {
      NestedStep(keys, i);
      var (a, b) := keys[i];
      var inner := if a in g then g[a] else map[];
      g := g[a := inner[b := (if b in inner then inner[b] else []) + [i]]];
    }
    assert keys[..|keys|] == keys;
  }

  /** Every second key under any first key. */
  function Seconds<A, B>(g: map<A, map<B, seq<nat>>>): set<B>
  {
    set a, b | a in g && b in g[a] :: b
  }

  /** The loop over the inner maps collecting their keys, in an order left open as a hash map's is. */
  method CollectSeconds<A(==), B(==)>(g: map<A, map<B, seq<nat>>>) returns (s: set<B>)
    ensures s == Seconds(g)
  {
    s := {};
    var rest := g.Keys;
    while rest != {}
      invariant rest <= g.Keys
      invariant s == set a, b | a in g && a !in rest && b in g[a] :: b
      decreases rest
    {
      var a :| a in rest;
      var inner := g[a].Keys;
      ghost var before := s;
      while inner != {}
        invariant inner <= g[a].Keys
        invariant s == before + (g[a].Keys - inner)
        decreases inner
      {
        var b :| b in inner;
        s := s + {b};
        inner := inner - {b};
      }
      rest := rest - {a};
    }
  }

  /** The second keys of the two-level index are those of the rows. */
  lemma SecondsOfNested<A(!new), B(!new)>(keys: seq<(A, B)>)
    ensures Seconds(NestedIndex(keys)) == set i | 0 <= i < |keys| :: keys[i].1
  {
    var g := NestedIndex(keys);
    forall b | b in Seconds(g) ensures exists i :: 0 <= i < |keys| && keys[i].1 == b {
      var a :| a in g && b in g[a];
      NestedSecond(keys, a, b);
      var i :| 0 <= i < |keys| && keys[i] == (a, b);
    }
    forall i | 0 <= i < |keys| ensures keys[i].1 in Seconds(g) {
      var (a, b) := keys[i];
      NestedFirst(keys, a);
      NestedSecond(keys, a, b);
      assert keys[i] in keys;
    }
  }

  /** The first keys of the two-level index are those of the rows. */
  lemma FirstsOfNested<A(!new), B(!new)>(keys: seq<(A, B)>)
    ensures NestedIndex(keys).Keys == set i | 0 <= i < |keys| :: keys[i].0
  {
    forall a ensures a in NestedIndex(keys) <==> exists i :: 0 <= i < |keys| && keys[i].0 == a {
      NestedFirst(keys, a);
    }
  }

  // ---------------------------------------------------------------------------
  // The bucket sizes add up to the number of positions

  /** The total length of all buckets. */
  ghost function TotalSize<K>(m: map<K, seq<nat>>): nat
    decreases |m|
  {
    if |m| == 0 then 0
    else
      var k :| k in m;
      |m[k]| + TotalSize(m - {k})
  }

  lemma TotalSizeUnfold<K>(m: map<K, seq<nat>>, x: K)
    requires x in m
    ensures exists k :: k in m && TotalSize(m) == |m[k]| + TotalSize(m - {k})
  {
    assert |m| != 0 by { assert x in m.Keys; }
  }

  lemma RemoveTwo<K>(m: map<K, seq<nat>>, x: K, k: K)
    requires x in m && k in m && k != x
    ensures |m - {k}| < |m| && |m - {x}| < |m|
    ensures x in m - {k} && k in m - {x}
    ensures (m - {k})[x] == m[x] && (m - {x})[k] == m[k]
    ensures m - {k} - {x} == m - {x} - {k}
  {
    assert (m - {k}).Keys < m.Keys;
    assert (m - {x}).Keys < m.Keys;
  }

  /** The total does not depend on which key is taken out first. */
  lemma {:induction false} TotalSizeRemove<K>(m: map<K, seq<nat>>, x: K)
    requires x in m
    ensures TotalSize(m) == |m[x]| + TotalSize(m - {x})
    decreases |m|
  {
    TotalSizeUnfold(m, x);
    var k :| k in m && TotalSize(m) == |m[k]| + TotalSize(m - {k});
    if k != x {
      RemoveTwo(m, x, k);
      TotalSizeRemove(m - {k}, x);
      TotalSizeRemove(m - {x}, k);
    }
  }

  /** Growing one bucket by one position grows the total by one. */
  lemma TotalSizeSnoc<K>(m: map<K, seq<nat>>, x: K, i: nat)
    ensures TotalSize(m[x := (if x in m then m[x] else []) + [i]]) == TotalSize(m) + 1
  {
    var m' := m[x := (if x in m then m[x] else []) + [i]];
    TotalSizeRemove(m', x);
    if x in m {
      TotalSizeRemove(m, x);
      assert m' - {x} == m - {x};
    } else {
      assert m' - {x} == m;
    }
  }

  /** The buckets of the index hold |keys| positions in all. */
  lemma {:induction false} KeyIndexTotal<K(!new)>(keys: seq<K>)
    ensures TotalSize(KeyIndex(keys)) == |keys|
  {
    if keys != [] {
      var n := |keys| - 1;
      var x := keys[n];
      var m := KeyIndex(keys[..n]);
      KeyIndexTotal(keys[..n]);
      TotalSizeSnoc(m, x, n);
    }
  }

  // ---------------------------------------------------------------------------
  // Hash join: the matching (left row, right row) pairs

  /** The pairs (i, j) for the positions js of the right rows matching left row i. */
  function Pairs(i: nat, js: seq<nat>): (r: seq<(nat, nat)>)
    ensures |r| == |js| && forall t :: 0 <= t < |js| ==> r[t] == (i, js[t])
  {
    if js == [] then [] else Pairs(i, js[..|js| - 1]) + [(i, js[|js| - 1])]
  }

  /** The pairs for one more position of the bucket. */
  lemma PairsSnoc(ps: seq<(nat, nat)>, i: nat, js: seq<nat>, t: nat)
    requires t < |js|
    ensures ps + Pairs(i, js[..t + 1]) == (ps + Pairs(i, js[..t])) + [(i, js[t])]
  {
    assert js[..t + 1][..t] == js[..t];
  }

  /**
   * The join loop's output order: for each left row in turn, the right rows
   * whose key equals its key, in the order the right index lists them.
   */
  function JoinPairs<K(==)>(lkeys: seq<K>, rkeys: seq<K>): (r: seq<(nat, nat)>)
    ensures forall p :: p in r ==> p.0 < |lkeys| && p.1 < |rkeys| && lkeys[p.0] == rkeys[p.1]
  {
    if lkeys == [] then []
    else
      var n := |lkeys| - 1;
      var ps := JoinPairs(lkeys[..n], rkeys);
      var qs := Pairs(n, Positions(rkeys, lkeys[n]));
      assert forall p :: p in qs ==> p.0 == n && p.1 in Positions(rkeys, lkeys[n]);
      ps + qs
  }

  /** The pairs of the first i + 1 left rows: those of the first i, then row i's matches. */
  lemma JoinPairsPrefix<K>(lkeys: seq<K>, rkeys: seq<K>, i: nat)
    requires i < |lkeys|
    ensures JoinPairs(lkeys[..i + 1], rkeys) == JoinPairs(lkeys[..i], rkeys) + Pairs(i, Positions(rkeys, lkeys[i]))
  {
    assert lkeys[..i + 1][..i] == lkeys[..i];
  }

  /**
   * One step of the join loop, through the index: left row i adds a pair for
   * each position in its key's bucket, and none when the key has no bucket.
   */
  lemma JoinPairsStep<K(!new)>(lkeys: seq<K>, rkeys: seq<K>, m: map<K, seq<nat>>, i: nat)
    requires m == KeyIndex(rkeys) && i < |lkeys|
    ensures lkeys[i] in m ==> JoinPairs(lkeys[..i + 1], rkeys) == JoinPairs(lkeys[..i], rkeys) + Pairs(i, m[lkeys[i]])
    ensures lkeys[i] in m ==> forall t :: 0 <= t < |m[lkeys[i]]| ==> m[lkeys[i]][t] < |rkeys|
    ensures lkeys[i] !in m ==> JoinPairs(lkeys[..i + 1], rkeys) == JoinPairs(lkeys[..i], rkeys)
  {
    var k := lkeys[i];
    JoinPairsPrefix(lkeys, rkeys, i);
    KeyIndexBucket(rkeys, m, k);
    if k !in m {
      assert Pairs(i, []) == [];
      assert JoinPairs(lkeys[..i], rkeys) + [] == JoinPairs(lkeys[..i], rkeys);
    }
  }

  /** The bucket the index holds for a key: its positions, all within the keys; no bucket means no position. */
  lemma KeyIndexBucket<K(!new)>(keys: seq<K>, m: map<K, seq<nat>>, k: K)
    requires m == KeyIndex(keys)
    ensures k in m ==> m[k] == Positions(keys, k) && forall t :: 0 <= t < |m[k]| ==> m[k][t] < |keys|
    ensures k !in m ==> Positions(keys, k) == []
  {
    KeyIndexLookup(keys, k);
    var js := Positions(keys, k);
    assert forall t :: 0 <= t < |js| ==> js[t] in js;
  }

  /** Every matching pair is produced. */
  lemma {:induction false} JoinPairsComplete<K>(lkeys: seq<K>, rkeys: seq<K>, i: nat, j: nat)
    requires i < |lkeys| && j < |rkeys| && lkeys[i] == rkeys[j]
    ensures (i, j) in JoinPairs(lkeys, rkeys)
  {
    var n := |lkeys| - 1;
    if i < n {
      JoinPairsComplete(lkeys[..n], rkeys, i, j);
    } else {
      var js := Positions(rkeys, lkeys[n]);
      var t :| 0 <= t < |js| && js[t] == j;
      assert Pairs(n, js)[t] == (i, j);
    }
  }

  /** Ordered by first component, then by second: so no pair occurs twice. */
  predicate PairsOrdered(r: seq<(nat, nat)>)
  {
    forall a, b :: 0 <= a < b < |r| ==> r[a].0 < r[b].0 || (r[a].0 == r[b].0 && r[a].1 < r[b].1)
  }

  lemma OrderedAppend(ps: seq<(nat, nat)>, n: nat, js: seq<nat>)
    requires PairsOrdered(ps) && StrictlyIncreasing(js)
    requires forall p :: p in ps ==> p.0 < n
    ensures PairsOrdered(ps + Pairs(n, js))
  {
    var qs := Pairs(n, js);
    var r := ps + qs;
    forall a, b | 0 <= a < b < |r|
      ensures r[a].0 < r[b].0 || (r[a].0 == r[b].0 && r[a].1 < r[b].1)
    {
      if b >= |ps| {
        assert r[b] == qs[b - |ps|];
        if a < |ps| {
          assert r[a] in ps;
        } else {
          assert r[a] == qs[a - |ps|];
        }
      } else {
        assert r[a] == ps[a] && r[b] == ps[b];
      }
    }
  }

  /** Pairs come ordered by left row, then by right row. */
  lemma {:induction false} JoinPairsOrdered<K>(lkeys: seq<K>, rkeys: seq<K>)
    ensures PairsOrdered(JoinPairs(lkeys, rkeys))
  {
    if lkeys != [] {
      var n := |lkeys| - 1;
      JoinPairsOrdered(lkeys[..n], rkeys);
      OrderedAppend(JoinPairs(lkeys[..n], rkeys), n, Positions(rkeys, lkeys[n]));
    }
  }

  /** The number of right keys matching each left key, summed over the left keys. */
  function MatchTotal<K(==)>(lkeys: seq<K>, rkeys: seq<K>): nat
  {
    if lkeys == [] then 0
    else MatchTotal(lkeys[..|lkeys| - 1], rkeys) + multiset(rkeys)[lkeys[|lkeys| - 1]]
  }

  /** The join produces one pair per (left row, matching right row). */
  lemma {:induction false} JoinPairsCount<K>(lkeys: seq<K>, rkeys: seq<K>)
    ensures |JoinPairs(lkeys, rkeys)| == MatchTotal(lkeys, rkeys)
  {
    if lkeys != [] {
      JoinPairsCount(lkeys[..|lkeys| - 1], rkeys);
    }
  }
}
