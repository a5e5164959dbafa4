/** Cycles of a finite relation, and the listings in which nothing points forward. */
module Graph {

  /** The sequence lists the set, each element once: a result set of unspecified order. */
  ghost predicate Lists<T(!new)>(q: seq<T>, s: set<T>) {
    && (forall i, j | 0 <= i < j < |q| :: q[i] != q[j])
    && (forall x :: x in q <==> x in s)
  }

  function Following(c: seq<string>, i: nat): string
    requires i < |c|
  {
    if i + 1 == |c| then c[0] else c[i + 1]
  }

  /** Each element is related to the next one, and the last to the first. */
  ghost predicate Cycle(r: set<(string, string)>, c: seq<string>) {
    c != [] && forall i: nat | i < |c| :: (c[i], Following(c, i)) in r
  }

  ghost predicate Acyclic(r: set<(string, string)>) {
    forall c :: !Cycle(r, c)
  }

  ghost predicate Irreflexive(r: set<(string, string)>) {
    forall l | l in r :: l.0 != l.1
  }

  ghost predicate Within(r: set<(string, string)>, v: set<string>) {
    forall l | l in r :: l.0 in v && l.1 in v
  }

  /** Nothing in the listing is related to anything after it. */
  ghost predicate Backward(r: set<(string, string)>, q: seq<string>) {
    forall a, b | 0 <= a < b < |q| :: (q[a], q[b]) !in r
  }

  lemma StepBack(r: set<(string, string)>, q: seq<string>, v: set<string>, at: nat, y: string) returns (b: nat)
    requires Lists(q, v) && Within(r, v) && Irreflexive(r) && Backward(r, q) && at < |q| && (q[at], y) in r
    ensures b < at && q[b] == y
  {
    assert (q[at], y).1 in v && q[at] != y;
    b :| 0 <= b < |q| && q[b] == y;
    assert (q[at], q[b]) in r;
  }

  /** Round a cycle the positions would have to fall for ever. */
  lemma NoCycle(r: set<(string, string)>, q: seq<string>, v: set<string>, c: seq<string>)
    requires Lists(q, v) && Within(r, v) && Irreflexive(r) && Backward(r, q)
    ensures !Cycle(r, c)
  {
    if Cycle(r, c) {
      assert (c[0], Following(c, 0)) in r && c[0] in q;
      var first :| 0 <= first < |q| && q[first] == c[0];
      var at := first;
      for i := 0 to |c|
        invariant 0 <= at <= first && (i > 0 ==> at < first)
        invariant q[at] == if i == |c| then c[0] else c[i]
      {
        assert (c[i], Following(c, i)) in r;
        at := StepBack(r, q, v, at, Following(c, i));
      }
      assert false;
    }
  }

  lemma BackwardIsAcyclic(r: set<(string, string)>, q: seq<string>, v: set<string>)
    requires Lists(q, v) && Within(r, v) && Irreflexive(r) && Backward(r, q)
    ensures Acyclic(r)
  {
    forall c ensures !Cycle(r, c) {
      NoCycle(r, q, v, c);
    }
  }

  lemma {:induction false} DistinctFits(w: seq<string>, v: set<string>)
    requires forall i, j | 0 <= i < j < |w| :: w[i] != w[j]
    requires forall x | x in w :: x in v
    ensures |w| <= |v|
    decreases w
  {
    if w != [] {
      var n := |w| - 1;
      var front := w[..n];
      assert forall x | x in front :: x in w && x != w[n];
      DistinctFits(front, v - {w[n]});
    }
  }

  ghost predicate Walk(r: set<(string, string)>, w: seq<string>) {
    && w != []
    && (forall i, j | 0 <= i < j < |w| :: w[i] != w[j])
    && forall i | 0 <= i < |w| - 1 :: (w[i], w[i + 1]) in r
  }

  lemma ReturnIsCycle(r: set<(string, string)>, w: seq<string>, i: nat)
    requires Walk(r, w) && i < |w| && (w[|w| - 1], w[i]) in r
    ensures Cycle(r, w[i..])
  {
    var c := w[i..];
    forall k: nat | k < |c| ensures (c[k], Following(c, k)) in r {
      if k + 1 < |c| {
        assert (w[i + k], w[i + k + 1]) in r;
      }
    }
  }

  /** Walking on from anywhere ends at an element related to none of the set. */
  lemma {:induction false} Sink(r: set<(string, string)>, v: set<string>, w: seq<string>) returns (x: string)
    requires Acyclic(r) && Walk(r, w) && forall y | y in w :: y in v
    ensures x in v && forall y | y in v :: (x, y) !in r
    decreases |v| - |w|
  {
    DistinctFits(w, v);
    x := w[|w| - 1];
    if y :| y in v && (x, y) in r {
      if y in w {
        var i :| 0 <= i < |w| && w[i] == y;
        ReturnIsCycle(r, w, i);
        assert false;
      } else {
        var longer := w + [y];
        DistinctFits(longer, v);
        x := Sink(r, v, longer);
      }
    }
  }

  /** A finite set has a listing in which nothing points forward, if the relation has no cycle. */
  lemma {:induction false} AcyclicHasListing(r: set<(string, string)>, v: set<string>) returns (q: seq<string>)
    requires Acyclic(r)
    ensures Lists(q, v) && Backward(r, q)
    decreases |v|
  {
    if v == {} {
      q := [];
    } else {
      var start :| start in v;
      var x := Sink(r, v, [start]);
      var rest := AcyclicHasListing(r, v - {x});
      q := [x] + rest;
      forall a, b | 0 <= a < b < |q| ensures (q[a], q[b]) !in r && q[a] != q[b] {
        assert q[b] == rest[b - 1] && rest[b - 1] in rest;
      }
      forall y ensures y in q <==> y in v {
        assert y in q <==> y == x || y in rest;
      }
    }
  }

  /** Any finite set can be listed with a given element first. */
  lemma {:induction false} ListingFrom(v: set<string>, first: string) returns (q: seq<string>)
    requires first in v
    ensures Lists(q, v) && q[0] == first
  {
    var none: set<(string, string)> := {};
    assert Acyclic(none) by {
      forall c ensures !Cycle(none, c) {
        if c != [] { assert (c[0], Following(c, 0)) !in none; }
      }
    }
    var rest := AcyclicHasListing(none, v - {first});
    q := [first] + rest;
    forall y ensures y in q <==> y in v {
      assert y in q <==> y == first || y in rest;
    }
    forall b | 0 < b < |q| ensures q[b] != first {
      assert q[b] == rest[b - 1] && rest[b - 1] in rest;
    }
  }
}
