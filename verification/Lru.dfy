/** Least-recently-used order, from the history of uses alone. */
module Lru {

  function Remove(r: seq<nat>, x: nat): seq<nat> {
    if r == [] then [] else if r[0] == x then r[1..] else [r[0]] + Remove(r[1..], x)
  }

  /** The distinct indices of a history, least recently used first. */
  function Recency(h: seq<nat>): seq<nat> {
    if h == [] then [] else Remove(Recency(h[..|h| - 1]), h[|h| - 1]) + [h[|h| - 1]]
  }

  function Last(r: seq<nat>, n: nat): seq<nat> {
    if |r| <= n then r else r[|r| - n..]
  }

  predicate Distinct(r: seq<nat>) {
    forall i, j | 0 <= i < j < |r| :: r[i] != r[j]
  }

  lemma {:induction false} RemoveAbsent(r: seq<nat>, x: nat)
    requires x !in r
    ensures Remove(r, x) == r
  {
    if r != [] { RemoveAbsent(r[1..], x); }
  }

  /** Removing cuts one position out. */
  lemma {:induction false} RemovePresent(r: seq<nat>, x: nat) returns (p: nat)
    requires x in r
    ensures p < |r| && r[p] == x && Remove(r, x) == r[..p] + r[p + 1..]
  {
    if r[0] == x {
      p := 0;
    } else {
      assert r == [r[0]] + r[1..];
      p := RemovePresent(r[1..], x);
      p := p + 1;
    }
  }

  /** Where entry i of a sequence without position p was in it. */
  function Skip(p: nat, i: nat): nat { if i < p then i else i + 1 }

  lemma CutAt(r: seq<nat>, p: nat)
    requires p < |r|
    ensures var q := r[..p] + r[p + 1..]; |q| == |r| - 1 && forall i | 0 <= i < |q| :: q[i] == r[Skip(p, i)]
  {}

  lemma CutMembers(r: seq<nat>, p: nat, q: seq<nat>, y: nat)
    requires Distinct(r) && p < |r| && |q| == |r| - 1 && forall i | 0 <= i < |q| :: q[i] == r[Skip(p, i)]
    ensures y in q <==> y in r && y != r[p]
  {
    if y in q {
      var i :| 0 <= i < |q| && q[i] == y;
      assert r[Skip(p, i)] == y;
    }
    if y in r && y != r[p] {
      var k :| 0 <= k < |r| && r[k] == y;
      assert q[if k < p then k else k - 1] == y;
    }
  }

  lemma CutDistinct(r: seq<nat>, p: nat, q: seq<nat>)
    requires Distinct(r) && p < |r| && |q| == |r| - 1 && forall i | 0 <= i < |q| :: q[i] == r[Skip(p, i)]
    ensures Distinct(q)
  {
    forall i, j | 0 <= i < j < |q| ensures q[i] != q[j] {
      assert r[Skip(p, i)] != r[Skip(p, j)];
    }
  }

  lemma RemoveMembers(r: seq<nat>, x: nat)
    requires Distinct(r)
    ensures Distinct(Remove(r, x))
    ensures forall y :: y in Remove(r, x) <==> y in r && y != x
    ensures |Remove(r, x)| == if x in r then |r| - 1 else |r|
  {
    if x in r {
      var p := RemovePresent(r, x);
      var q := Remove(r, x);
      CutAt(r, p);
      CutDistinct(r, p, q);
      forall y ensures y in q <==> y in r && y != x { CutMembers(r, p, q, y); }
    } else {
      RemoveAbsent(r, x);
    }
  }

  lemma {:induction false} RemoveConcat(a: seq<nat>, b: seq<nat>, x: nat)
    requires x !in a
    ensures Remove(a + b, x) == a + Remove(b, x)
  {
    if a == [] {
      assert a + b == b;
    } else {
      assert (a + b)[1..] == a[1..] + b;
      RemoveConcat(a[1..], b, x);
    }
  }

  lemma DistinctHalves(a: seq<nat>, b: seq<nat>, x: nat)
    requires Distinct(a + b) && x in b
    ensures x !in a
  {
    var j :| 0 <= j < |b| && b[j] == x;
    assert (a + b)[|a| + j] == x;
    assert forall i | 0 <= i < |a| :: (a + b)[i] == a[i];
  }

  lemma LastOfConcat(a: seq<nat>, b: seq<nat>, n: nat)
    requires |b| == n || (|b| < n && a == [])
    ensures Last(a + b, n) == b
  {}

  lemma TouchParts(a: seq<nat>, t: seq<nat>, x: nat, n: nat)
    requires Distinct(a + t) && x in t && (|t| == n || (|t| < n && a == []))
    ensures Last(Remove(a + t, x) + [x], n) == Remove(t, x) + [x]
  {
    DistinctHalves(a, t, x);
    RemoveConcat(a, t, x);
    var left := Remove(t, x);
    assert |left| == |t| - 1 by { var p := RemovePresent(t, x); }
    LastOfConcat(a, left + [x], n);
    assert a + left + [x] == a + (left + [x]);
  }

  /** Touching an entry the cache holds moves it to the end. */
  lemma TouchHit(r: seq<nat>, x: nat, n: nat)
    requires Distinct(r) && x in Last(r, n)
    ensures Last(Remove(r, x) + [x], n) == Remove(Last(r, n), x) + [x]
  {
    var t := Last(r, n);
    var a := r[..|r| - |t|];
    assert r == a + t;
    TouchParts(a, t, x, n);
  }

  lemma LastOmits(r: seq<nat>, x: nat, n: nat, p: nat)
    requires p < |r| && r[p] == x && x !in Last(r, n)
    ensures p + n < |r|
  {
    var t := Last(r, n);
    assert forall k | |r| - |t| <= k < |r| :: r[k] == t[k - (|r| - |t|)];
  }

  /** Cutting out an entry older than the newest n does not show in them. */
  lemma CutBefore(r: seq<nat>, x: nat, n: nat, p: nat)
    requires 0 < n && p + n < |r|
    ensures Last(r[..p] + r[p + 1..] + [x], n) == Last(Last(r, n) + [x], n)
  {
    var a, b := Last(r[..p] + r[p + 1..] + [x], n), Last(Last(r, n) + [x], n);
    forall k | 0 <= k < n ensures a[k] == b[k] {}
  }

  /** Adding an entry it does not hold drops the oldest once the cache is full. */
  lemma TouchMiss(r: seq<nat>, x: nat, n: nat)
    requires Distinct(r) && x !in Last(r, n) && n > 0
    ensures Last(Remove(r, x) + [x], n) == Last(Last(r, n) + [x], n)
  {
    if x in r {
      var p := RemovePresent(r, x);
      LastOmits(r, x, n, p);
      CutBefore(r, x, n, p);
    } else {
      RemoveAbsent(r, x);
    }
  }

  // ---- What the order means -----------------------------------------------------------------

  /** The position of the last use of k. */
  function LastUse(h: seq<nat>, k: nat): (n: nat)
    requires k in h
    ensures n < |h| && h[n] == k && forall i | n < i < |h| :: h[i] != k
  {
    if h[|h| - 1] == k then |h| - 1
    else
      assert h == h[..|h| - 1] + [h[|h| - 1]];
      LastUse(h[..|h| - 1], k)
  }

  lemma LastUseUnique(h: seq<nat>, k: nat, n: nat)
    requires n < |h| && h[n] == k && forall i | n < i < |h| :: h[i] != k
    ensures LastUse(h, k) == n
  {
  }

  predicate OrderedByUse(h: seq<nat>, r: seq<nat>) {
    && (forall i | 0 <= i < |r| :: r[i] in h)
    && (forall i, j | 0 <= i < j < |r| :: LastUse(h, r[i]) < LastUse(h, r[j]))
  }

  lemma CutOrder(h: seq<nat>, r: seq<nat>, p: nat, q: seq<nat>)
    requires OrderedByUse(h, r) && p < |r| && |q| == |r| - 1
    requires forall i | 0 <= i < |q| :: q[i] == r[Skip(p, i)]
    ensures OrderedByUse(h, q)
  {
    forall i, j | 0 <= i < j < |q| ensures q[i] in h && q[j] in h && LastUse(h, q[i]) < LastUse(h, q[j]) {
      var a, b := Skip(p, i), Skip(p, j);
      assert r[a] in h && r[b] in h;
    }
  }

  lemma RemoveOrder(h: seq<nat>, r: seq<nat>, x: nat)
    requires OrderedByUse(h, r)
    ensures OrderedByUse(h, Remove(r, x))
  {
    if x in r {
      var p := RemovePresent(r, x);
      CutAt(r, p);
      CutOrder(h, r, p, r[..p] + r[p + 1..]);
    } else {
      RemoveAbsent(r, x);
    }
  }

  /** Recency lists exactly the used indices, once each, in the order of their last uses. */
  lemma {:induction false} RecencyMeaning(h: seq<nat>)
    ensures Distinct(Recency(h))
    ensures forall k :: k in Recency(h) <==> k in h
    ensures forall i, j | 0 <= i < j < |Recency(h)| :: LastUse(h, Recency(h)[i]) < LastUse(h, Recency(h)[j])
  {
    if h != [] {
      var n, r := |h| - 1, Recency(h[..|h| - 1]);
      var x := h[n];
      assert h == h[..n] + [x];
      RecencyMeaning(h[..n]);
      RemoveMembers(r, x);
      RemoveOrder(h[..n], r, x);
      var q := Remove(r, x);
      forall i, j | 0 <= i < j < |Recency(h)| ensures LastUse(h, Recency(h)[i]) < LastUse(h, Recency(h)[j]) {
        assert q[i] in q;
        LastUseUnique(h, q[i], LastUse(h[..n], q[i]));
        if j < |q| {
          assert q[j] in q;
          LastUseUnique(h, q[j], LastUse(h[..n], q[j]));
        }
      }
    }
  }

  function Elements(r: seq<nat>): set<nat> { set k | k in r }

  lemma {:induction false} DistinctSize(r: seq<nat>)
    requires Distinct(r)
    ensures |Elements(r)| == |r|
  {
    if r != [] {
      assert Elements(r) == {r[0]} + Elements(r[1..]);
      DistinctSize(r[1..]);
    }
  }

  /** The other indices used after the last use of k. */
  function Since(h: seq<nat>, k: nat): set<nat>
    requires k in h
  {
    set j | j in h && LastUse(h, j) > LastUse(h, k)
  }

  /** What was used after k is what stands after it in the order. */
  lemma SinceIs(h: seq<nat>, k: nat, r: seq<nat>, p: nat)
    requires r == Recency(h) && p < |r| && r[p] == k && k in h
    ensures Since(h, k) == Elements(r[p + 1..]) && Distinct(r[p + 1..])
  {
    RecencyMeaning(h);
    var after := r[p + 1..];
    forall j ensures j in Since(h, k) <==> j in Elements(after) {
      if j in h {
        var q :| 0 <= q < |r| && r[q] == j;
        if q > p { assert after[q - p - 1] == j; }
      }
    }
  }

  lemma LastHolds(r: seq<nat>, n: nat, p: nat)
    requires Distinct(r) && p < |r|
    ensures r[p] in Last(r, n) <==> |r| - p - 1 < n
  {
    var t := Last(r, n);
    if r[p] in t {
      var j :| 0 <= j < |t| && t[j] == r[p];
      assert r[|r| - |t| + j] == r[p];
    }
    if |r| - p - 1 < n { assert t[p - (|r| - |t|)] == r[p]; }
  }

  /** An index is among the last n exactly when fewer than n others were used after it. */
  lemma HeldIffRecent(h: seq<nat>, n: nat, k: nat)
    ensures k in Last(Recency(h), n) <==> k in h && |Since(h, k)| < n
  {
    RecencyMeaning(h);
    var r := Recency(h);
    if k in h {
      var p :| 0 <= p < |r| && r[p] == k;
      SinceIs(h, k, r, p);
      DistinctSize(r[p + 1..]);
      LastHolds(r, n, p);
    } else {
      assert forall i | 0 <= i < |Last(r, n)| :: Last(r, n)[i] in r;
    }
  }
}
