/** Counting consensus-node signatures: two sets that each hold more than two thirds
    of the node orders share an order. */
module Quorum {

  /** The orders below `n` that hold a signature. */
  ghost function SignedOrders<S>(w: map<nat, S>, n: nat): (r: set<nat>) {
    set i: nat | i < n && i in w
  }

  /** All orders below `n`. */
  ghost function Orders(n: nat): (r: set<nat>)
    ensures |r| == n
    ensures forall i: nat :: i in r <==> i < n
  {
    if n == 0 then {} else Orders(n - 1) + {n - 1}
  }

  /** The two-thirds mark of a header with witness `w` among `n` consensus nodes. */
  ghost predicate Enough<S>(w: map<nat, S>, n: nat) {
    |SignedOrders(w, n)| > n * 2 / 3
  }

  lemma {:induction false} SubsetCount<T>(a: set<T>, b: set<T>)
    requires a <= b
    ensures |a| <= |b|
  {
    assert b == a + (b - a);
    assert |a + (b - a)| == |a| + |b - a|;
  }

  lemma {:induction false} QuorumsIntersect<S>(w1: map<nat, S>, w2: map<nat, S>, n: nat) returns (i: nat)
    requires Enough(w1, n) && Enough(w2, n)
    ensures i < n && i in w1 && i in w2
  {
    var a, b := SignedOrders(w1, n), SignedOrders(w2, n);
    SubsetCount(a + b, Orders(n));
    assert |a + b| + |a * b| == |a| + |b|;
    assert 3 * |a| > 2 * n && 3 * |b| > 2 * n;
    assert a * b != {};
    i :| i in a * b;
  }

  /** The mark is more than two thirds, without rounding. */
  lemma {:induction false} MarkExact<S>(w: map<nat, S>, n: nat)
    ensures Enough(w, n) <==> 3 * |SignedOrders(w, n)| > 2 * n
  {
  }

  /** Two sets past the mark share more than a third of the orders, so an honest one whenever less
      than a third are not. */
  lemma {:induction false} OverlapPastThird<S>(w1: map<nat, S>, w2: map<nat, S>, n: nat)
    requires Enough(w1, n) && Enough(w2, n)
    ensures 3 * |SignedOrders(w1, n) * SignedOrders(w2, n)| > n
  {
    var a, b := SignedOrders(w1, n), SignedOrders(w2, n);
    SubsetCount(a + b, Orders(n));
    assert |a + b| + |a * b| == |a| + |b|;
    MarkExact(w1, n);
    MarkExact(w2, n);
  }

  lemma {:induction false} HonestInBoth<S>(w1: map<nat, S>, w2: map<nat, S>, n: nat, faulty: set<nat>) returns (i: nat)
    requires Enough(w1, n) && Enough(w2, n) && 3 * |faulty| <= n
    ensures i < n && i in w1 && i in w2 && i !in faulty
  {
    OverlapPastThird(w1, w2, n);
    var both := SignedOrders(w1, n) * SignedOrders(w2, n);
    if both <= faulty {
      SubsetCount(both, faulty);
    }
    i :| i in both && i !in faulty;
  }

  /** The honest ones reach the mark by themselves whenever less than a third are not. */
  lemma {:induction false} HonestSuffice<S>(w: map<nat, S>, n: nat, f: nat)
    requires 3 * f < n && |SignedOrders(w, n)| >= n - f
    ensures Enough(w, n)
  {
  }

  /** More signatures never undo the mark. */
  lemma {:induction false} EnoughGrows<S>(w1: map<nat, S>, w2: map<nat, S>, n: nat)
    requires w1.Keys <= w2.Keys
    requires Enough(w1, n)
    ensures Enough(w2, n)
  {
    SubsetCount(SignedOrders(w1, n), SignedOrders(w2, n));
  }

  /** The signature-counting loop decides the mark. */
  method CountReachesTwoThirds<S>(w: map<nat, S>, n: nat) returns (irreversible: bool)
    ensures irreversible <==> Enough(w, n)
    ensures irreversible <==> 3 * |SignedOrders(w, n)| > 2 * n
  {
    var signCount := 0;
    var i := 0;
    while i < n
      invariant i <= n
      invariant signCount == |SignedOrders(w, i)|
    {
      assert SignedOrders(w, i + 1) == SignedOrders(w, i) + if i in w then {i} else {};
      if i in w {
        signCount := signCount + 1;
      }
      i := i + 1;
    }
    irreversible := signCount > n * 2 / 3;
  }
}
