/** Reserving enough outputs for an amount and for the gas of merging them, and taking all of it back. */
module ReserveChain {
  import opened Options
  import opened Arithmetic
  import opened CoinSelection
  import opened UtxoKeeper
  import opened MergeChain

  /** The ids of all outputs a request may look at. */
  function Pool(listed: seq<Utxo>, unconfirmed: map<Hash, Utxo>, useUnconfirmed: bool): (ids: set<Hash>) {
    if useUnconfirmed then Ids(listed) + unconfirmed.Keys else Ids(listed)
  }

  lemma {:induction false} PickedIds(a: seq<Utxo>, b: seq<Utxo>)
    requires Picked(a, b)
    ensures Ids(a) <= Ids(b)
  {
    forall o | o in Ids(a) ensures o in Ids(b) {
      var i :| 0 <= i < |a| && a[i].id == o;
      assert a[i] in multiset(b);
      var j :| 0 <= j < |b| && b[j] == a[i];
    }
  }

  lemma {:induction false} UsablePicked(q: Request, all: seq<Utxo>, reserved: Reserved)
    ensures Picked(Usable(q, all, reserved), all)
  {
    forall x ensures multiset(Usable(q, all, reserved))[x] <= multiset(all)[x] {
      FreeCount(Mature(q, all), reserved, x);
      MatureCount(q, all, x);
    }
  }

  lemma {:induction false} AllIds(listed: seq<Utxo>, all: seq<Utxo>, useUnconfirmed: bool, unconfirmed: map<Hash, Utxo>)
    requires listed <= all && (if useUnconfirmed then Lists(all[|listed|..], unconfirmed, {}) else all == listed)
    ensures Ids(all) == Pool(listed, unconfirmed, useUnconfirmed)
  {
    var more := all[|listed|..];
    assert all == listed + more;
    forall o | o in Ids(all) ensures o in Ids(listed) + Ids(more) {
      var i :| 0 <= i < |all| && all[i].id == o;
      assert if i < |listed| then listed[i].id == o else more[i - |listed|].id == o;
    }
    forall o | o in Ids(listed) + Ids(more) ensures o in Ids(all) {
      if o in Ids(listed) {
        var i :| 0 <= i < |listed| && listed[i].id == o;
        assert all[i].id == o;
      } else {
        var i :| 0 <= i < |more| && more[i].id == o;
        assert all[|listed| + i].id == o;
      }
    }
  }

  /** A request for something that is served takes at least one output, free before and looked at. */
  lemma {:induction false} ServedIds(q: Request, amount: nat, all: seq<Utxo>, reserved: Reserved, r: Answer)
    requires Answered(q, amount, all, reserved, r) && r.Done? && amount > 0
    ensures r.reservation.utxos != [] && Ids(r.reservation.utxos) <= Ids(all) && Ids(r.reservation.utxos) !! reserved.Keys
    ensures Sum(r.reservation.utxos) == amount + r.reservation.change
  {
    ServedPicked(q, amount, all, reserved, r);
    var opt := r.reservation.utxos;
    UsablePicked(q, all, reserved);
    PickedIds(opt, Usable(q, all, reserved));
    PickedIds(Usable(q, all, reserved), all);
    FreeIsFree(Mature(q, all), reserved, opt);
  }

  lemma {:induction false} ServedPicked(q: Request, amount: nat, all: seq<Utxo>, reserved: Reserved, r: Answer)
    requires Answered(q, amount, all, reserved, r) && r.Done?
    ensures Picked(r.reservation.utxos, Usable(q, all, reserved))
    ensures Sum(r.reservation.utxos) == amount + r.reservation.change
  {
  }

  lemma {:induction false} FewerFree(pool: set<Hash>, reserved: Reserved, us: seq<Utxo>, id: nat)
    requires us != [] && Ids(us) <= pool && Ids(us) !! reserved.Keys
    ensures |pool - Mark(reserved, Ids(us), id).Keys| < |pool - reserved.Keys|
  {
    var before, after := pool - reserved.Keys, pool - Mark(reserved, Ids(us), id).Keys;
    assert us[0].id in Ids(us);
    assert after <= before - {us[0].id};
    Smaller(after, before - {us[0].id});
  }

  lemma {:induction false} Smaller<T>(a: set<T>, b: set<T>)
    requires a <= b
    ensures |a| <= |b|
  {
    assert b == a + (b - a);
  }

  /** The tables before, with the reservations `made` on top. */
  ghost predicate Grown(reservations0: Reservations, reservations: Reservations, made: set<nat>) {
    && reservations.Keys == reservations0.Keys + made && reservations0.Keys !! made
    && forall r :: r in reservations0 ==> reservations[r] == reservations0[r]
  }

  lemma {:induction false} GrownMore(reservations0: Reservations, reservations: Reservations, made: set<nat>, res: Reservation)
    requires Grown(reservations0, reservations, made) && res.id !in reservations
    ensures Grown(reservations0, reservations[res.id := res], made + {res.id})
  {
  }

  /** Reserve until what is reserved covers the amount and the gas of merging it; `made` are the
      reservations to take back if the transaction is not built. */
  method ReserveBtmUtxoChain(k: Keeper, q: Request, amount: nat, useUnconfirmed: bool, expiry: int, listed: seq<Utxo>, mergeGas: nat)
    returns (r: Option<seq<Utxo>>, made: set<nat>)
    requires k.Valid()
    modifies k`nextIndex, k`reserved, k`reservations
    ensures k.Valid() && Grown(old(k.reservations), k.reservations, made)
    ensures r.Some? ==> Sum(r.value) >= amount + GasFor(|r.value|, mergeGas)
  {
    var utxos: seq<Utxo>, reservedAmount, gasAmount := [], 0, 0;
    made := {};
    while reservedAmount < gasAmount + amount
      invariant k.Valid() && Grown(old(k.reservations), k.reservations, made)
      invariant reservedAmount == Sum(utxos) && gasAmount == GasFor(|utxos|, mergeGas)
      decreases FreeCountIn(Pool(listed, k.unconfirmed, useUnconfirmed), k.reserved)
    {
      ghost var before := k.reservations;
      var answer, utxos2 := ReserveMore(k, q, amount + gasAmount - reservedAmount, useUnconfirmed, expiry, listed, utxos);
      if !answer.Done? {
        return None, made;
      }
      GrownMore(old(k.reservations), before, made, answer.reservation);
      reservedAmount := reservedAmount + (amount + gasAmount - reservedAmount) + answer.reservation.change;
      utxos, made := utxos2, made + {answer.reservation.id};
      gasAmount := CalcMergeGas(|utxos|, mergeGas);
    }
    r := Some(utxos);
  }

  /** How many outputs of the pool are free. */
  function FreeCountIn(pool: set<Hash>, reserved: Reserved): (n: nat) {
    |pool - reserved.Keys|
  }

  /** What a request that is served adds to the outputs reserved so far. */
  ghost predicate Adds(res: Reservation, amount: nat, utxos0: seq<Utxo>, pool: set<Hash>, reserved0: Reserved, reserved: Reserved) {
    && Sum(utxos0 + res.utxos) == Sum(utxos0) + amount + res.change
    && FreeCountIn(pool, reserved) < FreeCountIn(pool, reserved0)
  }

  lemma {:induction false} ServedAdds(res: Reservation, amount: nat, reserved: Reserved, utxos0: seq<Utxo>, pool: set<Hash>)
    requires res.utxos != [] && Ids(res.utxos) <= pool && Ids(res.utxos) !! reserved.Keys && Sum(res.utxos) == amount + res.change
    ensures Adds(res, amount, utxos0, pool, reserved, Mark(reserved, Ids(res.utxos), res.id))
  {
    FewerFree(pool, reserved, res.utxos, res.id);
    SumAppend(utxos0, res.utxos);
  }

  method ReserveMore(k: Keeper, q: Request, reserveAmount: nat, useUnconfirmed: bool, expiry: int, listed: seq<Utxo>, utxos0: seq<Utxo>)
    returns (answer: Answer, utxos: seq<Utxo>)
    requires k.Valid() && reserveAmount > 0
    modifies k`nextIndex, k`reserved, k`reservations
    ensures k.Valid()
    ensures !answer.Done? ==> k.reservations == old(k.reservations)
    ensures answer.Done? ==>
              && answer.reservation.id !in old(k.reservations)
              && k.reservations == old(k.reservations)[answer.reservation.id := answer.reservation]
              && utxos == utxos0 + answer.reservation.utxos
              && Adds(answer.reservation, reserveAmount, utxos0, Pool(listed, k.unconfirmed, useUnconfirmed), old(k.reserved), k.reserved)
  {
    utxos := utxos0;
    ghost var all;
    answer, all := k.Reserve(q, reserveAmount, useUnconfirmed, expiry, listed);
    if answer.Done? {
      AllIds(listed, all, useUnconfirmed, k.unconfirmed);
      ServedIds(q, reserveAmount, all, old(k.reserved), answer);
      ServedAdds(answer.reservation, reserveAmount, old(k.reserved), utxos0, Pool(listed, k.unconfirmed, useUnconfirmed));
      utxos := utxos0 + answer.reservation.utxos;
    }
  }

  /** Merged, what was reserved gives an output of at least the amount asked for. */
  lemma {:induction false} MergedCovers(utxos: seq<Utxo>, tpls: seq<Template>, last: Utxo, mergeGas: nat, amount: nat)
    requires |utxos| >= 2 && Merges(utxos, tpls, last, mergeGas)
    requires Sum(utxos) >= amount + GasFor(|utxos|, mergeGas)
    requires Sum(utxos) < TWO64 && TemplateCount(|utxos|) * mergeGas < TWO64
    ensures last.amount >= amount && last.amount + TemplateCount(|utxos|) * mergeGas == Sum(utxos)
  {
    FinalRight(Sum(utxos), TemplateCount(|utxos|) * mergeGas, last.amount);
  }

  /** The tables agree on what is reserved, so the reservations determine it. */
  lemma {:induction false} ReservedDetermined(a: Reserved, b: Reserved, reservations: Reservations, n: nat, m: nat)
    requires Consistent(a, reservations, n) && Consistent(b, reservations, m)
    ensures a == b
  {
    assert forall o :: o in a ==> o in b && b[o] == a[o];
    assert forall o :: o in b ==> o in a;
  }

  /** Taking back all that was made. */
  method Rollback(k: Keeper, made: set<nat>)
    requires k.Valid()
    modifies k`nextIndex, k`reserved, k`reservations
    ensures k.Valid() && k.reservations == old(k.reservations) - made
  {
    var rest := made;
    while rest != {}
      invariant rest <= made && k.Valid() && k.reservations == old(k.reservations) - (made - rest)
      decreases |rest|
    {
      var rid :| rid in rest;
      k.Cancel(rid);
      rest := rest - {rid};
    }
  }

  /** A request that could not be met, taken back, leaves the tables as they were. */
  method ReserveAndRollback(k: Keeper, q: Request, amount: nat, useUnconfirmed: bool, expiry: int, listed: seq<Utxo>, mergeGas: nat)
    returns (r: Option<seq<Utxo>>)
    requires k.Valid()
    modifies k`nextIndex, k`reserved, k`reservations
    ensures k.Valid()
    ensures r.None? ==> k.reservations == old(k.reservations) && k.reserved == old(k.reserved)
    ensures r.Some? ==> Sum(r.value) >= amount + GasFor(|r.value|, mergeGas)
  {
    var made;
    r, made := ReserveBtmUtxoChain(k, q, amount, useUnconfirmed, expiry, listed, mergeGas);
    if r.None? {
      Rollback(k, made);
      assert k.reservations == old(k.reservations);
      ReservedDetermined(k.reserved, old(k.reserved), k.reservations, k.nextIndex, old(k.nextIndex));
    }
  }
}
