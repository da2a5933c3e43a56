/**
 * The order `Vec<String>::sort` puts keys in: lexicographic, character by
 * character (UTF-8 byte order and code-point order agree), a proper prefix
 * first. Pivot sorts its row keys and column keys with it.
 */
module Ordering {

  predicate Less(a: string, b: string)
  {
    if |a| == 0 then |b| > 0
    else if |b| == 0 then false
    else if a[0] != b[0] then a[0] < b[0]
    else Less(a[1..], b[1..])
  }

  lemma {:induction false} LessIrreflexive(a: string)
    ensures !Less(a, a)
  {
    if |a| > 0 {
      LessIrreflexive(a[1..]);
    }
  }

  lemma {:induction false} LessTransitive(a: string, b: string, c: string)
    requires Less(a, b) && Less(b, c)
    ensures Less(a, c)
  {
    if |a| > 0 && a[0] == b[0] && b[0] == c[0] {
      LessTransitive(a[1..], b[1..], c[1..]);
    }
  }

  /** Any two different strings are ordered one way or the other. */
  lemma {:induction false} LessTotal(a: string, b: string)
    ensures a == b || Less(a, b) || Less(b, a)
  {
    if |a| > 0 && |b| > 0 && a[0] == b[0] {
      LessTotal(a[1..], b[1..]);
      assert a == [a[0]] + a[1..] && b == [b[0]] + b[1..];
    }
  }

  predicate StrictlySorted(xs: seq<string>)
  {
    forall i, j :: 0 <= i < j < |xs| ==> Less(xs[i], xs[j])
  }

  /** Puts x into a strictly sorted sequence that does not hold it yet. */
  function Insert(xs: seq<string>, x: string): (r: seq<string>)
    requires StrictlySorted(xs) && x !in xs
    ensures StrictlySorted(r) && |r| == |xs| + 1
    ensures forall y :: y in r <==> y == x || y in xs
  {
    if xs == [] then [x]
    else if Less(x, xs[0]) then
      assert forall j :: 0 < j < |xs| ==> Less(x, xs[j]) by {
        forall j | 0 < j < |xs| ensures Less(x, xs[j]) {
          LessTransitive(x, xs[0], xs[j]);
        }
      }
      [x] + xs
    else
      LessTotal(x, xs[0]);
      var rest := Insert(xs[1..], x);
      assert forall y :: y in rest ==> Less(xs[0], y) by {
        forall y | y in rest ensures Less(xs[0], y) {
          if y != x {
            var j :| 0 <= j < |xs[1..]| && xs[1..][j] == y;
            assert xs[j + 1] == y;
          }
        }
      }
      assert forall j :: 0 < j < |rest| + 1 ==> Less(xs[0], ([xs[0]] + rest)[j]) by {
        forall j | 0 < j < |rest| + 1 ensures Less(xs[0], ([xs[0]] + rest)[j]) {
          assert ([xs[0]] + rest)[j] == rest[j - 1];
        }
      }
      assert forall y :: y in xs <==> y == xs[0] || y in xs[1..] by {
        assert xs == [xs[0]] + xs[1..];
      }
      [xs[0]] + rest
  }

  /** The keys of a finite set in ascending order. */
  ghost function SortedOf(s: set<string>): (r: seq<string>)
    ensures StrictlySorted(r)
    ensures forall y :: y in r <==> y in s
  {
    if s == {} then []
    else
      var x :| x in s;
      Insert(SortedOf(s - {x}), x)
  }

  /** A strictly sorted sequence is determined by the strings it holds. */
  lemma {:induction false} SortedUnique(a: seq<string>, b: seq<string>)
    requires StrictlySorted(a) && StrictlySorted(b)
    requires forall y :: y in a <==> y in b
    ensures a == b
  {
    assert a != [] <==> b != [] by {
      if a != [] { assert a[0] in a; }
      if b != [] { assert b[0] in b; }
    }
    if a != [] {
      if a[0] != b[0] {
        assert a[0] in a && b[0] in b;
        var k :| 0 <= k < |b| && b[k] == a[0];
        var m :| 0 <= m < |a| && a[m] == b[0];
        assert Less(b[0], a[0]);
        assert Less(a[0], b[0]);
        LessTransitive(a[0], b[0], a[0]);
        LessIrreflexive(a[0]);
      }
      forall y | y in a[1..] ensures y in b[1..] {
        var i :| 1 <= i < |a| && a[1..][i - 1] == y;
        assert y in a;
        var k :| 0 <= k < |b| && b[k] == y;
        if k == 0 { LessIrreflexive(a[0]); }
        assert b[1..][k - 1] == y;
      }
      forall y | y in b[1..] ensures y in a[1..] {
        var i :| 1 <= i < |b| && b[1..][i - 1] == y;
        assert y in b;
        var k :| 0 <= k < |a| && a[k] == y;
        if k == 0 { LessIrreflexive(b[0]); }
        assert a[1..][k - 1] == y;
      }
      SortedUnique(a[1..], b[1..]);
      assert a == [a[0]] + a[1..] && b == [b[0]] + b[1..];
    }
  }

  /**
   * Collecting a set of keys into a vector and sorting it: the keys are
   * taken in an arbitrary order and each is put into place.
   */
  method SortedKeys(s: set<string>) returns (ks: seq<string>)
    ensures StrictlySorted(ks)
    ensures forall y :: y in ks <==> y in s
    ensures ks == SortedOf(s)
  {
    ks := [];
    var rest := s;
    while rest != {}
      invariant rest <= s
      invariant StrictlySorted(ks)
      invariant forall y :: y in ks <==> y in s && y !in rest
      decreases rest
    {
      var x :| x in rest;
      ks := Insert(ks, x);
      rest := rest - {x};
    }
    SortedUnique(ks, SortedOf(s));
  }
}
