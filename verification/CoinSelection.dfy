/** Choosing outputs for an amount: take the largest first, then trade the largest for smaller ones
    as long as few outputs result. Amounts are exact: no sum here reaches 2^64. */
module CoinSelection {
  import opened Options

  type Hash = int

  datatype Utxo = Utxo(id: Hash, account: int, asset: int, vote: seq<int>, amount: nat, validHeight: nat)

  const DESIRED_COUNT := 5

  function Sum(us: seq<Utxo>): (n: nat) {
    if us == [] then 0 else us[0].amount + Sum(us[1..])
  }

  ghost predicate Descending(us: seq<Utxo>) {
    forall i, j :: 0 <= i < j < |us| ==> us[i].amount >= us[j].amount
  }

  lemma {:induction false} SumAppend(a: seq<Utxo>, b: seq<Utxo>)
    ensures Sum(a + b) == Sum(a) + Sum(b)
    decreases |a|
  {
    if a == [] {
      assert a + b == b;
    } else {
      assert (a + b)[1..] == a[1..] + b;
      SumAppend(a[1..], b);
    }
  }

  lemma {:induction false} SumSplit(us: seq<Utxo>, i: nat)
    requires i <= |us|
    ensures Sum(us) == Sum(us[..i]) + Sum(us[i..])
  {
    assert us == us[..i] + us[i..];
    SumAppend(us[..i], us[i..]);
  }

  lemma {:induction false} SumSnoc(us: seq<Utxo>, i: nat)
    requires i < |us|
    ensures Sum(us[..i + 1]) == Sum(us[..i]) + us[i].amount
  {
    assert us[..i + 1] == us[..i] + [us[i]];
    SumAppend(us[..i], [us[i]]);
    assert [us[i]][1..] == [];
  }

  function Without(us: seq<Utxo>, i: nat): (r: seq<Utxo>)
    requires i < |us|
    ensures |r| == |us| - 1
  {
    us[..i] + us[i + 1..]
  }

  lemma {:induction false} SumWithout(us: seq<Utxo>, i: nat)
    requires i < |us|
    ensures Sum(us) == us[i].amount + Sum(Without(us, i))
  {
    SumSplit(us, i);
    assert us[i..][1..] == us[i + 1..];
    SumAppend(us[..i], us[i + 1..]);
  }

  lemma {:induction false} PickWithout(us: seq<Utxo>, i: nat)
    requires i < |us|
    ensures multiset(us) == multiset(Without(us, i)) + multiset{us[i]}
  {
    assert us == us[..i] + [us[i]] + us[i + 1..];
  }

  lemma {:induction false} WithoutPermuted(a: seq<Utxo>, i: nat, b: seq<Utxo>, j: nat)
    requires multiset(a) == multiset(b) && i < |a| && j < |b| && a[i] == b[j]
    ensures multiset(Without(a, i)) == multiset(Without(b, j))
  {
    PickWithout(a, i);
    PickWithout(b, j);
    forall x ensures multiset(Without(a, i))[x] == multiset(Without(b, j))[x] {
      assert multiset(a)[x] == multiset(b)[x];
    }
  }

  lemma {:induction false} SumPermuted(a: seq<Utxo>, b: seq<Utxo>)
    requires multiset(a) == multiset(b)
    ensures Sum(a) == Sum(b)
    decreases |a|
  {
    assert |multiset(a)| == |a| && |multiset(b)| == |b|;
    if a != [] {
      assert a[0] in multiset(b);
      var j :| 0 <= j < |b| && b[j] == a[0];
      WithoutPermuted(a, 0, b, j);
      SumPermuted(Without(a, 0), Without(b, j));
      SumWithout(a, 0);
      SumWithout(b, j);
    }
  }

  // ----- no selection of m outputs is worth more than the m largest

  /** `s` can be picked out of `us`. */
  ghost predicate Picked(s: seq<Utxo>, us: seq<Utxo>) {
    multiset(s) <= multiset(us)
  }

  lemma {:induction false} PickedRest(s: seq<Utxo>, front: seq<Utxo>, last: Utxo, i: nat)
    requires i < |s| && s[i] == last && Picked(s, front + [last])
    ensures Picked(Without(s, i), front)
  {
    PickWithout(s, i);
    var t := Without(s, i);
    forall x ensures multiset(t)[x] <= multiset(front)[x] {
      assert multiset(s)[x] <= multiset(front + [last])[x];
    }
  }

  lemma {:induction false} PickedFront(s: seq<Utxo>, front: seq<Utxo>, last: Utxo)
    requires Picked(s, front + [last]) && last !in s
    ensures Picked(s, front)
  {
    forall x ensures multiset(s)[x] <= multiset(front)[x] {
      assert multiset(s)[x] <= multiset(front + [last])[x];
      if x == last {
        assert multiset(s)[last] == 0;
      }
    }
  }

  ghost predicate DistinctIds(us: seq<Utxo>) {
    forall i, j :: 0 <= i < j < |us| ==> us[i].id != us[j].id
  }

  lemma {:induction false} AtMostOnce(us: seq<Utxo>, x: Utxo)
    requires DistinctIds(us)
    ensures multiset(us)[x] <= 1
  {
    if x in us {
      var k :| 0 <= k < |us| && us[k] == x;
      PickWithout(us, k);
      forall i | 0 <= i < |us| - 1 ensures Without(us, k)[i] != x {
        assert Without(us, k)[i] == us[if i < k then i else i + 1];
      }
      assert multiset(Without(us, k))[x] == 0;
    }
  }

  lemma {:induction false} TwiceIn(us: seq<Utxo>, i: nat, j: nat)
    requires i < j < |us| && us[i] == us[j]
    ensures multiset(us)[us[i]] >= 2
  {
    PickWithout(us, i);
    assert Without(us, i)[j - 1] == us[j];
    assert us[j] in Without(us, i);
  }

  /** Distinct outputs stay distinct in any selection. */
  lemma {:induction false} PickedDistinct(us: seq<Utxo>, s: seq<Utxo>)
    requires DistinctIds(us) && Picked(s, us)
    ensures DistinctIds(s)
  {
    forall i, j | 0 <= i < j < |s| ensures s[i].id != s[j].id {
      assert s[i] in multiset(us) && s[j] in multiset(us);
      var k :| 0 <= k < |us| && us[k] == s[i];
      var l :| 0 <= l < |us| && us[l] == s[j];
      AtMostOnce(us, s[i]);
      if s[i] == s[j] {
        TwiceIn(s, i, j);
      }
    }
  }

  lemma {:induction false} NothingPicked(s: seq<Utxo>)
    requires Picked(s, [])
    ensures s == []
  {
    assert multiset(s) == multiset{};
    assert |s| == |multiset(s)|;
  }

  lemma {:induction false} LargestAreWorthMost(us: seq<Utxo>, s: seq<Utxo>)
    requires Descending(us) && Picked(s, us)
    ensures |s| <= |us| && Sum(s) <= Sum(us[..|s|])
    decreases |us|, 1
  {
    if us == [] {
      NothingPicked(s);
    } else {
      var front, last := us[..|us| - 1], us[|us| - 1];
      assert us == front + [last];
      if last in s {
        var i :| 0 <= i < |s| && s[i] == last;
        LargestWithLast(front, last, s, i);
      } else {
        LargestWithoutLast(front, last, s);
      }
    }
  }

  lemma {:induction false} LargestWithLast(front: seq<Utxo>, last: Utxo, s: seq<Utxo>, i: nat)
    requires Descending(front + [last]) && Picked(s, front + [last]) && i < |s| && s[i] == last
    ensures |s| <= |front| + 1 && Sum(s) <= Sum((front + [last])[..|s|])
    decreases |front|, 2
  {
    FrontDescends(front, last);
    PickedRest(s, front, last, i);
    LargestAreWorthMost(front, Without(s, i));
    SumWithout(s, i);
    LastIsSmallest(front, last, |s| - 1);
  }

  lemma {:induction false} FrontDescends(front: seq<Utxo>, last: Utxo)
    requires Descending(front + [last])
    ensures Descending(front) && forall i :: 0 <= i < |front| ==> front[i].amount >= last.amount
  {
    var us := front + [last];
    assert forall i :: 0 <= i < |front| ==> us[i] == front[i];
    assert us[|front|] == last;
  }

  lemma {:induction false} LargestWithoutLast(front: seq<Utxo>, last: Utxo, s: seq<Utxo>)
    requires Descending(front + [last]) && Picked(s, front + [last]) && last !in s
    ensures |s| <= |front| + 1 && Sum(s) <= Sum((front + [last])[..|s|])
    decreases |front|, 2
  {
    FrontDescends(front, last);
    PickedFront(s, front, last);
    LargestAreWorthMost(front, s);
    assert (front + [last])[..|s|] == front[..|s|];
  }

  lemma {:induction false} LastIsSmallest(front: seq<Utxo>, last: Utxo, n: nat)
    requires Descending(front + [last]) && n <= |front|
    ensures Sum((front + [last])[..n + 1]) >= Sum(front[..n]) + last.amount
  {
    FrontDescends(front, last);
    SumSnoc(front + [last], n);
    assert (front + [last])[..n] == front[..n];
  }

  // ----- the selection

  function Max(a: nat, b: nat): (m: nat) {
    if a < b then b else a
  }

  /** Without any one of the outputs the rest does not reach the amount. */
  ghost predicate Irredundant(opt: seq<Utxo>, amount: nat) {
    forall i :: 0 <= i < |opt| ==> Sum(opt) - opt[i].amount < amount
  }

  /** No more outputs than the fewest that reach the amount, or five. */
  ghost predicate Few(us: seq<Utxo>, opt: seq<Utxo>, amount: nat) {
    forall s {:trigger Picked(s, us)} :: Picked(s, us) && Sum(s) >= amount ==> |opt| <= Max(|s|, DESIRED_COUNT)
  }

  /** Five outputs in a row from `c` on, or as many as are left. */
  function Five(us: seq<Utxo>, c: nat): (r: seq<Utxo>)
    requires c <= |us|
  {
    us[c..if c + DESIRED_COUNT <= |us| then c + DESIRED_COUNT else |us|]
  }

  predicate FiveReach(us: seq<Utxo>, amount: nat, c: nat) {
    c <= |us| && Sum(Five(us, c)) >= amount
  }

  /** The outputs from `d` up to `e` reach the amount, those up to `e - 1` do not, and `d` is the last
      start, after the largest output, from which five outputs in a row do. */
  ghost predicate LastWindow(us: seq<Utxo>, amount: nat, opt: seq<Utxo>, d: nat, e: nat) {
    && d < e <= |us| && opt == us[d..e]
    && Sum(us[d..e]) >= amount && Sum(us[d..e - 1]) < amount
    && (d == 0 || FiveReach(us, amount, d))
    && forall c :: d < c ==> !FiveReach(us, amount, c)
  }

  ghost predicate Ranking(ranked: seq<Utxo>, us: seq<Utxo>) {
    Descending(ranked) && multiset(ranked) == multiset(us)
  }

  /** Ranked by amount, the outputs are the last window. */
  ghost predicate Smallest(us: seq<Utxo>, amount: nat, opt: seq<Utxo>) {
    exists ranked, d, e :: Ranking(ranked, us) && LastWindow(ranked, amount, opt, d, e)
  }

  /** What is chosen of the available outputs `us`: all of them when they do not reach the amount. */
  ghost predicate Chosen(us: seq<Utxo>, amount: nat, opt: seq<Utxo>) {
    && Picked(opt, us)
    && (if Sum(us) < amount then multiset(opt) == multiset(us)
        else Sum(opt) >= amount && Irredundant(opt, amount) && Few(us, opt, amount)
             && (amount > 0 ==> Smallest(us, amount, opt)))
  }

  /** In numbers: from no later start do five outputs in a row reach the amount, and from the start
      of the window they do, unless that is the largest output. */
  lemma {:induction false} LastWindowFive(us: seq<Utxo>, amount: nat, opt: seq<Utxo>, d: nat, e: nat, c: nat)
    requires LastWindow(us, amount, opt, d, e) && c <= |us|
    ensures d < c ==> Sum(us[c..if c + 5 <= |us| then c + 5 else |us|]) < amount
    ensures d > 0 ==> Sum(us[d..if d + 5 <= |us| then d + 5 else |us|]) >= amount
  {
    assert FiveReach(us, amount, c) <==> Sum(us[c..if c + 5 <= |us| then c + 5 else |us|]) >= amount;
  }

  /** A ranking has one last window. */
  lemma {:induction false} LastWindowUnique(us: seq<Utxo>, amount: nat, opt: seq<Utxo>, d: nat, e: nat, opt2: seq<Utxo>, d2: nat, e2: nat)
    requires LastWindow(us, amount, opt, d, e) && LastWindow(us, amount, opt2, d2, e2)
    ensures opt == opt2
  {
    assert d == d2;
    if e < e2 {
      RangeGrows(us, d, e, e2 - 1);
    } else if e2 < e {
      RangeGrows(us, d, e2, e - 1);
    }
  }

  lemma {:induction false} RangeGrows(us: seq<Utxo>, d: nat, i: nat, j: nat)
    requires d <= i <= j <= |us|
    ensures Sum(us[d..i]) <= Sum(us[d..j])
  {
    assert us[d..j][..i - d] == us[d..i];
    SumSplit(us[d..j], i - d);
  }

  lemma {:induction false} Dominates(a: seq<Utxo>, b: seq<Utxo>)
    requires |a| >= |b| && forall i :: 0 <= i < |b| ==> a[i].amount >= b[i].amount
    ensures Sum(a) >= Sum(b)
    decreases |b|
  {
    if b != [] {
      Dominates(a[1..], b[1..]);
    }
  }

  /** Five outputs reach less the further down the ranking they start. */
  lemma {:induction false} FiveDescend(us: seq<Utxo>, amount: nat, d: nat, c: nat)
    requires Descending(us) && d <= c && FiveReach(us, amount, c)
    ensures FiveReach(us, amount, d)
  {
    var a, b := Five(us, d), Five(us, c);
    forall i | 0 <= i < |b| ensures a[i].amount >= b[i].amount {
      assert a[i] == us[d + i] && b[i] == us[c + i];
    }
    Dominates(a, b);
  }

  /** `opt` is the stretch of outputs from `d` to `i`, where it got to by trading. */
  ghost predicate Slid(us: seq<Utxo>, amount: nat, opt: seq<Utxo>, d: nat, i: nat) {
    d < i <= |us| && opt == us[d..i] && (d == 0 || FiveReach(us, amount, d))
  }

  lemma {:induction false} SlideOn(us: seq<Utxo>, amount: nat, opt: seq<Utxo>, d: nat, i: nat, j: nat)
    requires Slid(us, amount, opt, d, i) && i < j <= |us| && |opt[1..]| + (j - i) <= DESIRED_COUNT
    requires Sum(opt[1..] + us[i..j]) >= amount
    ensures Slid(us, amount, opt[1..] + us[i..j], d + 1, j)
  {
    assert opt[1..] + us[i..j] == us[d + 1..j];
    RangeGrows(us, d + 1, j, if d + 1 + DESIRED_COUNT <= |us| then d + 1 + DESIRED_COUNT else |us|);
  }

  lemma {:induction false} ButLast(us: seq<Utxo>, d: nat, i: nat)
    requires d < i <= |us|
    ensures Sum(us[d..i - 1]) == Sum(us[d..i]) - us[i - 1].amount
  {
    var w := us[d..i];
    SumSnoc(w, |w| - 1);
    assert w[..|w|] == w && w[..|w| - 1] == us[d..i - 1];
  }

  lemma {:induction false} NoneLater(us: seq<Utxo>, amount: nat, d: nat, j: nat)
    requires Descending(us) && d + 1 <= j <= |us| && (j == |us| || j - (d + 1) >= DESIRED_COUNT) && Sum(us[d + 1..j]) < amount
    ensures forall c :: d < c ==> !FiveReach(us, amount, c)
  {
    RangeGrows(us, d + 1, if d + 1 + DESIRED_COUNT <= |us| then d + 1 + DESIRED_COUNT else |us|, j);
    forall c | d < c ensures !FiveReach(us, amount, c) {
      if FiveReach(us, amount, c) {
        FiveDescend(us, amount, d + 1, c);
      }
    }
  }

  /** Where no trade is left the stretch is the last window. */
  lemma {:induction false} SlideEnds(us: seq<Utxo>, amount: nat, opt: seq<Utxo>, d: nat, i: nat, j: nat)
    requires Descending(us) && Slid(us, amount, opt, d, i) && Sum(opt) >= amount && Sum(opt) - opt[|opt| - 1].amount < amount
    requires i <= j <= |us| && (j == |us| || j - (d + 1) >= DESIRED_COUNT) && Sum(us[d + 1..j]) < amount
    ensures LastWindow(us, amount, opt, d, i)
  {
    ButLast(us, d, i);
    NoneLater(us, amount, d, j);
  }

  /** The amount is reached by `opt`, made of the first `i` outputs: its last output is its smallest
      and no larger one follows, and it cannot spare that one. The first `k` were needed to get there. */
  ghost predicate Reached(us: seq<Utxo>, amount: nat, opt: seq<Utxo>, i: nat, k: nat)
    requires i <= |us|
  {
    && Descending(opt + us[i..]) && Picked(opt, us[..i])
    && opt != [] && Sum(opt) >= amount && Sum(opt) - opt[|opt| - 1].amount < amount
    && |opt| <= Max(k, DESIRED_COUNT) && 1 <= k <= i && Sum(us[..k - 1]) < amount
  }

  lemma {:induction false} PickedMore(s: seq<Utxo>, us: seq<Utxo>, i: nat, j: nat)
    requires i <= j <= |us| && Picked(s, us[..i])
    ensures Picked(s, us[..j]) && Picked(s, us)
  {
    assert us[..j] == us[..i] + us[i..j];
    assert us == us[..i] + us[i..];
  }

  lemma {:induction false} PrefixGrows(us: seq<Utxo>, i: nat, j: nat)
    requires i <= j <= |us|
    ensures Sum(us[..i]) <= Sum(us[..j])
  {
    SumSplit(us[..j], i);
    assert us[..j][..i] == us[..i];
  }

  lemma {:induction false} FewestNeeded(us: seq<Utxo>, amount: nat, k: nat, s: seq<Utxo>)
    requires Descending(us) && 1 <= k <= |us| && Sum(us[..k - 1]) < amount
    requires Picked(s, us) && Sum(s) >= amount
    ensures k <= |s|
  {
    LargestAreWorthMost(us, s);
    if |s| < k {
      PrefixGrows(us, |s|, k - 1);
    }
  }

  lemma {:induction false} ReachedIsChosen(us: seq<Utxo>, amount: nat, opt: seq<Utxo>, i: nat, k: nat, d: nat)
    requires Descending(us) && i <= |us| && Reached(us, amount, opt, i, k) && Sum(us) >= amount
    requires LastWindow(us, amount, opt, d, i)
    ensures Chosen(us, amount, opt)
  {
    assert Ranking(us, us);
    PickedMore(opt, us, i, i);
    forall j | 0 <= j < |opt| ensures Sum(opt) - opt[j].amount < amount {
      var all := opt + us[i..];
      assert all[j] == opt[j] && all[|opt| - 1] == opt[|opt| - 1];
    }
    forall s | Picked(s, us) && Sum(s) >= amount ensures |opt| <= Max(|s|, DESIRED_COUNT) {
      FewestNeeded(us, amount, k, s);
    }
  }

  /** Look for outputs from `i` on that make up for the largest one, few enough to be worth it. */
  method FindReplacement(us: seq<Utxo>, amount: nat, opt: seq<Utxo>, i: nat, optAmount: nat) returns (found: bool, j: nat, newAmount: nat)
    requires i < |us| && opt != [] && optAmount == Sum(opt) && Sum(opt) - opt[0].amount < amount
    ensures found ==> i < j <= |us| && |opt[1..]| + (j - i) <= DESIRED_COUNT
    ensures found ==> newAmount == Sum(opt[1..]) + Sum(us[i..j]) >= amount && newAmount - us[j - 1].amount < amount
    ensures !found ==> i <= j <= |us| && (j == |us| || |opt[1..]| + (j - i) >= DESIRED_COUNT)
    ensures !found ==> newAmount == Sum(opt[1..]) + Sum(us[i..j]) < amount
  {
    newAmount := optAmount - opt[0].amount;
    j := i;
    assert us[i..i] == [];
    while j < |us| && j - i <= DESIRED_COUNT - |opt|
      invariant i <= j <= |us| && newAmount == Sum(opt[1..]) + Sum(us[i..j]) < amount
    {
      SumSnoc(us[i..], j - i);
      assert us[i..][..j - i] == us[i..j] && us[i..][..j - i + 1] == us[i..j + 1];
      newAmount := newAmount + us[j].amount;
      j := j + 1;
      if newAmount >= amount {
        return true, j, newAmount;
      }
    }
    found := false;
  }

  lemma {:induction false} Replaced(us: seq<Utxo>, amount: nat, opt: seq<Utxo>, i: nat, k: nat, j: nat)
    requires Descending(us) && i < j <= |us| && Reached(us, amount, opt, i, k) && |opt[1..]| + (j - i) <= DESIRED_COUNT
    requires var n := Sum(opt[1..]) + Sum(us[i..j]); n >= amount && n - us[j - 1].amount < amount
    ensures Sum(opt[1..] + us[i..j]) == Sum(opt[1..]) + Sum(us[i..j]) && Reached(us, amount, opt[1..] + us[i..j], j, k)
  {
    var after := opt[1..] + us[i..j];
    SumAppend(opt[1..], us[i..j]);
    ReplacedOrder(us, opt, i, j);
    ReplacedPicked(us, opt, i, j);
    assert after[|after| - 1] == us[i..j][j - i - 1] == us[j - 1];
  }

  lemma {:induction false} ReplacedOrder(us: seq<Utxo>, opt: seq<Utxo>, i: nat, j: nat)
    requires i < j <= |us| && opt != [] && Descending(opt + us[i..])
    ensures Descending(opt[1..] + us[i..j] + us[j..])
  {
    assert us[i..j] + us[j..] == us[i..];
    assert opt[1..] + us[i..j] + us[j..] == (opt + us[i..])[1..];
  }

  lemma {:induction false} ReplacedPicked(us: seq<Utxo>, opt: seq<Utxo>, i: nat, j: nat)
    requires i <= j <= |us| && opt != [] && Picked(opt, us[..i])
    ensures Picked(opt[1..] + us[i..j], us[..j])
  {
    assert opt == [opt[0]] + opt[1..];
    assert us[..j] == us[..i] + us[i..j];
  }

  lemma {:induction false} OneMore(us: seq<Utxo>, amount: nat, i: nat)
    requires Descending(us) && i < |us| && Sum(us[..i]) < amount
    ensures Sum(us[..i + 1]) == Sum(us[..i]) + us[i].amount
    ensures Sum(us[..i + 1]) >= amount ==> Reached(us, amount, us[..i + 1], i + 1, i + 1)
  {
    SumSnoc(us, i);
    assert us[..i + 1] + us[i + 1..] == us;
    assert us[..i + 1][i] == us[i];
  }

  lemma {:induction false} TooLittle(us: seq<Utxo>, amount: nat, i: nat)
    requires i <= |us| && Sum(us[..i]) >= amount
    ensures Sum(us) >= amount
  {
    PrefixGrows(us, i, |us|);
    assert us[..|us|] == us;
  }

  lemma {:induction false} FrontIsLargest(opt: seq<Utxo>, rest: seq<Utxo>)
    requires opt != [] && Descending(opt + rest)
    ensures opt[0].amount >= opt[|opt| - 1].amount
  {
    assert (opt + rest)[0] == opt[0] && (opt + rest)[|opt| - 1] == opt[|opt| - 1];
  }

  /** The amount is reached, by a stretch of outputs trading got to. */
  ghost predicate Trading(us: seq<Utxo>, amount: nat, opt: seq<Utxo>, i: nat, k: nat, d: nat)
    requires i <= |us|
  {
    amount > 0 && Sum(us) >= amount && Reached(us, amount, opt, i, k) && Slid(us, amount, opt, d, i)
  }

  lemma {:induction false} FirstReached(us: seq<Utxo>, amount: nat, i: nat)
    requires Descending(us) && i < |us| && Sum(us[..i]) < amount
    ensures us[..i + 1] == us[..i] + [us[i]] && Sum(us[..i + 1]) == Sum(us[..i]) + us[i].amount
    ensures Sum(us[..i + 1]) >= amount ==> Trading(us, amount, us[..i + 1], i + 1, i + 1, 0)
  {
    OneMore(us, amount, i);
    assert us[0..i + 1] == us[..i + 1];
    if Sum(us[..i + 1]) >= amount {
      TooLittle(us, amount, i + 1);
    }
  }

  lemma {:induction false} StretchSum(us: seq<Utxo>, opt: seq<Utxo>, d: nat, i: nat, j: nat)
    requires d < i <= j <= |us| && opt == us[d..i]
    ensures Sum(us[d + 1..j]) == Sum(opt[1..]) + Sum(us[i..j]) && |opt[1..]| + (j - i) == j - (d + 1)
  {
    SumAppend(opt[1..], us[i..j]);
    assert opt[1..] + us[i..j] == us[d + 1..j];
  }

  /** No trade within five outputs is left up to `j`. */
  lemma {:induction false} NoTradeLeft(us: seq<Utxo>, amount: nat, opt: seq<Utxo>, i: nat, k: nat, d: nat, j: nat)
    requires Descending(us) && i <= j <= |us| && Trading(us, amount, opt, i, k, d)
    requires (j == |us| || |opt[1..]| + (j - i) >= DESIRED_COUNT) && Sum(opt[1..]) + Sum(us[i..j]) < amount
    ensures Chosen(us, amount, opt)
  {
    StretchSum(us, opt, d, i, j);
    SlideEnds(us, amount, opt, d, i, j);
    ReachedIsChosen(us, amount, opt, i, k, d);
  }

  lemma {:induction false} NothingToTrade(us: seq<Utxo>, amount: nat, opt: seq<Utxo>, k: nat, d: nat)
    requires Descending(us) && Trading(us, amount, opt, |us|, k, d)
    ensures Chosen(us, amount, opt)
  {
    FrontIsLargest(opt, us[|us|..]);
    assert us[|us|..|us|] == [];
    NoTradeLeft(us, amount, opt, |us|, k, d, |us|);
  }

  lemma {:induction false} AllTaken(us: seq<Utxo>, amount: nat, opt: seq<Utxo>)
    requires opt == us[..|us|] && (Sum(opt) < amount || us == [])
    ensures Chosen(us, amount, opt)
  {
    assert opt == us;
  }

  /** Trade the largest chosen output for smaller ones, if few enough of them do. */
  method Replace(us: seq<Utxo>, amount: nat, opt0: seq<Utxo>, optAmount0: nat, i0: nat, ghost k: nat, ghost d: nat)
    returns (replaced: bool, opt: seq<Utxo>, optAmount: nat, i: nat)
    requires Descending(us) && i0 < |us| && Trading(us, amount, opt0, i0, k, d) && optAmount0 == Sum(opt0)
    ensures i0 <= i <= |us| && (replaced ==> i0 < i) && optAmount == Sum(opt)
    ensures if replaced then Trading(us, amount, opt, i, k, d + 1) else Chosen(us, amount, opt)
  {
    FrontIsLargest(opt0, us[i0..]);
    var found, j, newAmount := FindReplacement(us, amount, opt0, i0, optAmount0);
    if !found {
      NoTradeLeft(us, amount, opt0, i0, k, d, j);
      return false, opt0, optAmount0, i0;
    }
    Replaced(us, amount, opt0, i0, k, j);
    SlideOn(us, amount, opt0, d, i0, j);
    return true, opt0[1..] + us[i0..j], newAmount, j;
  }

  /** The loop has looked at the first `i` outputs for an amount above zero. */
  ghost predicate Looked(us: seq<Utxo>, amount: nat, opt: seq<Utxo>, i: nat, k: nat, d: nat)
    requires i <= |us|
  {
    if Sum(opt) < amount then opt == us[..i] else Trading(us, amount, opt, i, k, d)
  }

  lemma {:induction false} AllLooked(us: seq<Utxo>, amount: nat, opt: seq<Utxo>, k: nat, d: nat)
    requires Descending(us) && Looked(us, amount, opt, |us|, k, d)
    ensures Chosen(us, amount, opt)
  {
    if Sum(opt) < amount {
      AllTaken(us, amount, opt);
    } else {
      NothingToTrade(us, amount, opt, k, d);
    }
  }

  /** The loop body: take the next output, or trade. */
  method LookAt(us: seq<Utxo>, amount: nat, opt0: seq<Utxo>, optAmount0: nat, i0: nat, ghost k0: nat, ghost d0: nat)
    returns (settled: bool, opt: seq<Utxo>, optAmount: nat, i: nat, ghost k: nat, ghost d: nat)
    requires Descending(us) && amount > 0 && i0 < |us| && optAmount0 == Sum(opt0) && Looked(us, amount, opt0, i0, k0, d0)
    ensures optAmount == Sum(opt) && i0 <= i <= |us|
    ensures if settled then Chosen(us, amount, opt) else i0 < i && Looked(us, amount, opt, i, k, d)
  {
    if optAmount0 < amount {
      FirstReached(us, amount, i0);
      return false, opt0 + [us[i0]], optAmount0 + us[i0].amount, i0 + 1, i0 + 1, 0;
    }
    var replaced;
    replaced, opt, optAmount, i := Replace(us, amount, opt0, optAmount0, i0, k0, d0);
    settled, k, d := !replaced, k0, d0 + 1;
  }

  /** The outputs chosen for an amount that can be reached: they reach it, none of them could be left
      out, and there are at most five of them or no more than any other choice would need. */
  lemma {:induction false} ChosenInNumbers(us: seq<Utxo>, amount: nat, opt: seq<Utxo>, s: seq<Utxo>, i: nat)
    requires Chosen(us, amount, opt) && Sum(us) >= amount
    requires multiset(s) <= multiset(us) && Sum(s) >= amount && i < |opt|
    ensures multiset(opt) <= multiset(us) && Sum(opt) >= amount && Sum(opt) - opt[i].amount < amount
    ensures |opt| <= 5 || |opt| <= |s|
  {
    assert Picked(s, us);
  }

  /** The loop over the available outputs. For the amount zero the code looks at the front of an
      empty list as soon as there is an output. */
  method Choose(us: seq<Utxo>, amount: nat) returns (r: Option<seq<Utxo>>, optAmount: nat)
    requires Descending(us)
    ensures r.None? <==> amount == 0 && us != []
    ensures r.Some? ==> Chosen(us, amount, r.value) && optAmount == Sum(r.value)
  {
    var opt: seq<Utxo> := [];
    optAmount := 0;
    if amount == 0 {
      if us != [] {
        return None, 0;
      }
      AllTaken(us, amount, opt);
      return Some(opt), optAmount;
    }
    var i, settled := 0, false;
    ghost var k, d := 0, 0;
    while i < |us| && !settled
      invariant i <= |us| && optAmount == Sum(opt)
      invariant if settled then Chosen(us, amount, opt) else Looked(us, amount, opt, i, k, d)
      decreases |us| - i, !settled
    {
      settled, opt, optAmount, i, k, d := LookAt(us, amount, opt, optAmount, i, k, d);
    }
    if !settled {
      AllLooked(us, amount, opt, k, d);
    }
    r := Some(opt);
  }

  // ----- when an output can be chosen twice

  /** The outputs that are worth something. */
  function Worthy(us: seq<Utxo>): (r: seq<Utxo>) {
    if us == [] then []
    else Worthy(us[..|us| - 1]) + (if us[|us| - 1].amount > 0 then [us[|us| - 1]] else [])
  }

  lemma {:induction false} WorthyCount(us: seq<Utxo>, x: Utxo)
    ensures multiset(Worthy(us))[x] == if x.amount > 0 then multiset(us)[x] else 0
    decreases |us|
  {
    if us != [] {
      var n := |us| - 1;
      WorthyCount(us[..n], x);
      assert us == us[..n] + [us[n]];
    }
  }

  lemma {:induction false} WorthySum(us: seq<Utxo>)
    ensures Sum(Worthy(us)) == Sum(us) && forall i :: 0 <= i < |Worthy(us)| ==> Worthy(us)[i].amount > 0
    decreases |us|
  {
    if us != [] {
      var n := |us| - 1;
      WorthySum(us[..n]);
      SumSnoc(us, n);
      assert us[..n + 1] == us;
      SumAppend(Worthy(us[..n]), [us[n]]);
      assert [us[n]][1..] == [];
      assert Worthy(us[..n]) + [] == Worthy(us[..n]);
    }
  }

  /** A choice that reaches its amount holds no worthless output. */
  lemma {:induction false} ChosenWorthy(us: seq<Utxo>, amount: nat, opt: seq<Utxo>)
    requires Picked(opt, us) && Sum(opt) >= amount && Irredundant(opt, amount)
    ensures Picked(opt, Worthy(us))
  {
    forall x ensures multiset(opt)[x] <= multiset(Worthy(us))[x] {
      WorthyCount(us, x);
      if x in opt {
        var i :| 0 <= i < |opt| && opt[i] == x;
        assert Sum(opt) - opt[i].amount < amount;
      }
    }
  }

  /** No selection is worth more than the whole, and of outputs worth something only the whole is
      worth as much. */
  lemma {:induction false} PickedSum(s: seq<Utxo>, us: seq<Utxo>)
    requires Picked(s, us) && forall i :: 0 <= i < |us| ==> us[i].amount > 0
    ensures Sum(s) <= Sum(us) && (Sum(s) == Sum(us) ==> multiset(s) == multiset(us))
    decreases |us|
  {
    if us == [] {
      NothingPicked(s);
    } else {
      var front, last := us[..|us| - 1], us[|us| - 1];
      assert us == front + [last];
      SumSnoc(us, |us| - 1);
      assert us[..|us|] == us;
      if last in s {
        var i :| 0 <= i < |s| && s[i] == last;
        PickedRest(s, front, last, i);
        SumWithout(s, i);
        PickWithout(s, i);
        PickedSum(Without(s, i), front);
      } else {
        PickedFront(s, front, last);
        PickedSum(s, front);
      }
    }
  }

  /** Outputs chosen for an amount are distinct when those worth something are. */
  lemma {:induction false} ChosenDistinct(us: seq<Utxo>, amount: nat, opt: seq<Utxo>)
    requires Chosen(us, amount, opt) && Sum(opt) >= amount && DistinctIds(Worthy(us))
    ensures DistinctIds(opt)
  {
    TotalChosen(us, amount, opt);
    ChosenWorthy(us, amount, opt);
    PickedDistinct(Worthy(us), opt);
  }

  lemma {:induction false} TotalChosen(us: seq<Utxo>, amount: nat, opt: seq<Utxo>)
    requires Chosen(us, amount, opt) && Sum(opt) >= amount
    ensures Sum(us) >= amount
  {
    if Sum(us) < amount {
      SumPermuted(us, opt);
    }
  }

  /** This is exact: whatever is chosen for the whole amount is distinct only then. */
  lemma {:induction false} WholeDistinct(us: seq<Utxo>, opt: seq<Utxo>)
    requires Chosen(us, Sum(us), opt)
    ensures DistinctIds(opt) <==> DistinctIds(Worthy(us))
  {
    ChosenWorthy(us, Sum(us), opt);
    WorthySum(us);
    PickedSum(opt, Worthy(us));
    if DistinctIds(opt) {
      PickedDistinct(opt, Worthy(us));
    }
    if DistinctIds(Worthy(us)) {
      PickedDistinct(Worthy(us), opt);
    }
  }
}
