/** Strings in lexicographic order, the iteration order of the compiler's ordered maps and sets. */
module Order {
  predicate Less(a: string, b: string) {
    if b == [] then false
    else if a == [] then true
    else if a[0] != b[0] then a[0] < b[0]
    else Less(a[1..], b[1..])
  }

  predicate Leq(a: string, b: string) {
    a == b || Less(a, b)
  }

  /** The strings agree up to `k`, where the first ends or has the smaller character. */
  predicate DiffersAt(a: string, b: string, k: nat) {
    k <= |a| && k < |b| && a[..k] == b[..k] && (k == |a| || a[k] < b[k])
  }

  /** The order is decided at the first position where the strings differ. */
  lemma {:induction false} LessByFirstDifference(a: string, b: string)
    ensures Less(a, b) <==> exists k: nat :: DiffersAt(a, b, k)
    decreases |b|
  {
    if b != [] && (a == [] || a[0] != b[0]) {
      assert a[..0] == b[..0];
      assert DiffersAt(a, b, 0) <==> a == [] || a[0] < b[0];
      forall k: nat | k > 0 ensures !DiffersAt(a, b, k) {
        assert k <= |a| && k < |b| ==> a[..k][0] != b[..k][0];
      }
    } else if b != [] {
      LessByFirstDifference(a[1..], b[1..]);
      assert !DiffersAt(a, b, 0);
      forall k: nat ensures DiffersAt(a[1..], b[1..], k) <==> DiffersAt(a, b, k + 1) {
        if k < |a| && k + 1 < |b| {
          assert a[..k + 1] == [a[0]] + a[1..][..k] && b[..k + 1] == [b[0]] + b[1..][..k];
          assert a[1..][..k] == a[..k + 1][1..] && b[1..][..k] == b[..k + 1][1..];
        }
      }
      if k: nat :| DiffersAt(a, b, k) {
        assert DiffersAt(a[1..], b[1..], k - 1);
      }
      if k: nat :| DiffersAt(a[1..], b[1..], k) {
        assert DiffersAt(a, b, k + 1);
      }
    }
  }

  lemma {:induction false} Irreflexive(a: string)
    ensures !Less(a, a)
  {
    if a != [] {
      Irreflexive(a[1..]);
    }
  }

  lemma {:induction false} Transitive(a: string, b: string, c: string)
    requires Less(a, b) && Less(b, c)
    ensures Less(a, c)
  {
    if a != [] && a[0] == b[0] && b[0] == c[0] {
      Transitive(a[1..], b[1..], c[1..]);
    }
  }

  lemma {:induction false} Total(a: string, b: string)
    ensures a == b || Less(a, b) || Less(b, a)
  {
    if a != [] && b != [] && a[0] == b[0] {
      Total(a[1..], b[1..]);
      assert a == [a[0]] + a[1..] && b == [b[0]] + b[1..];
    }
  }

  lemma Asymmetric(a: string, b: string)
    requires Less(a, b)
    ensures !Less(b, a) && a != b
  {
    Irreflexive(a);
    if Less(b, a) {
      Transitive(a, b, a);
    }
  }

  ghost predicate IsLeast(m: string, s: set<string>) {
    m in s && forall x | x in s :: Leq(m, x)
  }

  /** A nonempty set's elements are read off in increasing order. */
  method TakeLeast(s: set<string>) returns (m: string)
    requires s != {}
    ensures IsLeast(m, s)
  {
    m :| m in s;
    var rest := s - {m};
    while rest != {}
      invariant rest <= s && IsLeast(m, s - rest)
      decreases rest
    {
      var x :| x in rest;
      ghost var before := m;
      Total(x, m);
      if Less(x, m) {
        m := x;
      }
      forall y | y in s - (rest - {x}) ensures Leq(m, y) {
        if y != x && m == x && y != before {
          assert y in s - rest;
          Transitive(x, before, y);
        }
      }
      rest := rest - {x};
    }
    assert s - rest == s;
  }

  // ---------------------------------------------------------------------
  // Sorted sequences
  // ---------------------------------------------------------------------

  ghost predicate Sorted(q: seq<string>) {
    forall i, j | 0 <= i < j < |q| :: Less(q[i], q[j])
  }

  /** A strictly increasing sequence is determined by its elements. */
  lemma {:induction false} SortedUnique(p: seq<string>, q: seq<string>)
    requires Sorted(p) && Sorted(q)
    requires forall x :: x in p <==> x in q
    ensures p == q
    decreases |p|
  {
    if p == [] {
      var y := if q == [] then "" else q[0];
      assert y in q <==> y in p;
    } else {
      assert p[0] in p;
      var k :| 0 <= k < |q| && q[k] == p[0];
      assert q[0] in q;
      var j :| 0 <= j < |p| && p[j] == q[0];
      if k != 0 {
        Asymmetric(q[0], q[k]);
      }
      forall x ensures x in p[1..] <==> x in q[1..] {
        Irreflexive(p[0]);
        assert x in p[1..] <==> x in p && x != p[0];
        assert x in q[1..] <==> x in q && x != q[0];
      }
      SortedUnique(p[1..], q[1..]);
      assert p == [p[0]] + p[1..] && q == [q[0]] + q[1..];
    }
  }

  method SortedElements(s: set<string>) returns (q: seq<string>)
    ensures Sorted(q) && forall x :: x in q <==> x in s
  {
    q := [];
    var rest := s;
    while rest != {}
      invariant rest <= s && Sorted(q)
      invariant forall x :: x in q <==> x in s - rest
      invariant forall x, y | x in q && y in rest :: Less(x, y)
      decreases rest
    {
      var m := TakeLeast(rest);
      q := q + [m];
      rest := rest - {m};
    }
  }
}
