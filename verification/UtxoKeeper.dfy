/** Reserving outputs: a table of live reservations and a table that says which reservation holds
    an output, kept in step. */
module UtxoKeeper {
  import opened Options
  import opened Collections
  import opened CoinSelection

  datatype Reservation = Reservation(id: nat, utxos: seq<Utxo>, change: nat, expiry: int)

  datatype Error = Insufficient | VoteLock | Immature | AlreadyReserved | NotFound

  /** How a request ends. `Panicked` stands for the crash on a nil list element. */
  datatype Answer = Done(reservation: Reservation) | Refused(error: Error) | Panicked

  // ----- the tables

  type Reserved = map<Hash, nat>
  type Reservations = map<nat, Reservation>

  function Ids(us: seq<Utxo>): (ids: set<Hash>) {
    set i | 0 <= i < |us| :: us[i].id
  }

  /** An output is reserved exactly for the live reservation that holds it; ids are not reused. */
  ghost predicate Consistent(reserved: Reserved, reservations: Reservations, nextIndex: nat) {
    && (forall o :: o in reserved ==> reserved[o] in reservations && o in Ids(reservations[reserved[o]].utxos))
    && (forall r :: r in reservations ==> 1 <= r <= nextIndex && reservations[r].id == r)
    && (forall r, o :: r in reservations && o in Ids(reservations[r].utxos) ==> o in reserved && reserved[o] == r)
  }

  /** No output is in two live reservations. */
  lemma {:induction false} OneHolder(reserved: Reserved, reservations: Reservations, nextIndex: nat, q: nat, r: nat, o: Hash)
    requires Consistent(reserved, reservations, nextIndex)
    requires q in reservations && r in reservations && o in Ids(reservations[q].utxos) && o in Ids(reservations[r].utxos)
    ensures q == r
  {
    assert reserved[o] == q;
  }

  function Mark(reserved: Reserved, ids: set<Hash>, r: nat): (m: Reserved) {
    map o | o in reserved.Keys + ids :: if o in ids then r else reserved[o]
  }

  lemma {:induction false} MarkNone(reserved: Reserved, r: nat)
    ensures Mark(reserved, Ids([]), r) == reserved
  {
  }

  lemma {:induction false} MarkMore(reserved: Reserved, ids: set<Hash>, o: Hash, r: nat)
    ensures Mark(reserved, ids, r)[o := r] == Mark(reserved, ids + {o}, r)
  {
  }

  /** The reservations not yet looked at, and those whose time is not over. */
  function Live(reservations: Reservations, rest: set<nat>, now: int): (m: Reservations) {
    map r | r in reservations && (r in rest || reservations[r].expiry >= now) :: reservations[r]
  }

  lemma {:induction false} LiveStep(reservations: Reservations, rest: set<nat>, now: int, r: nat)
    requires r in rest && rest <= reservations.Keys
    ensures Live(reservations, rest - {r}, now) ==
            if reservations[r].expiry < now then Live(reservations, rest, now) - {r} else Live(reservations, rest, now)
    ensures r in Live(reservations, rest, now)
  {
  }

  /** The outputs held are those of the reservations whose time is not over. */
  lemma {:induction false} LiveHolds(reserved: Reserved, reservations: Reservations, reserved1: Reserved, reservations1: Reservations, nextIndex: nat, now: int)
    requires Consistent(reserved, reservations, nextIndex) && Consistent(reserved1, reservations1, nextIndex)
    requires reservations1 == Live(reservations, {}, now)
    ensures forall o :: o in reserved1 <==> o in reserved && reservations[reserved[o]].expiry >= now
    ensures forall o :: o in reserved1 ==> reserved1[o] == reserved[o]
  {
    forall o | o in reserved1 ensures o in reserved && reserved1[o] == reserved[o] && reservations[reserved[o]].expiry >= now {
      assert o in Ids(reservations[reserved1[o]].utxos);
    }
    forall o | o in reserved && reservations[reserved[o]].expiry >= now ensures o in reserved1 {
      assert o in Ids(reservations1[reserved[o]].utxos);
    }
  }

  /** A new reservation of outputs that were free. */
  lemma {:induction false} AddConsistent(reserved: Reserved, reservations: Reservations, nextIndex: nat, res: Reservation)
    requires Consistent(reserved, reservations, nextIndex) && res.id == nextIndex + 1
    requires forall o :: o in Ids(res.utxos) ==> o !in reserved
    ensures Consistent(Mark(reserved, Ids(res.utxos), res.id), reservations[res.id := res], nextIndex + 1)
  {
    assert res.id !in reservations;
  }

  /** A new reservation keeps the tables in step exactly when its outputs were free. */
  lemma {:induction false} AddExact(reserved: Reserved, reservations: Reservations, nextIndex: nat, res: Reservation)
    requires Consistent(reserved, reservations, nextIndex) && res.id == nextIndex + 1
    ensures Consistent(Mark(reserved, Ids(res.utxos), res.id), reservations[res.id := res], nextIndex + 1) <==>
              forall o :: o in Ids(res.utxos) ==> o !in reserved
  {
    if forall o :: o in Ids(res.utxos) ==> o !in reserved {
      AddConsistent(reserved, reservations, nextIndex, res);
    } else {
      var o :| o in Ids(res.utxos) && o in reserved;
      var held := reserved[o];
      assert o in Ids(reservations[res.id := res][held].utxos);
      assert Mark(reserved, Ids(res.utxos), res.id)[o] == res.id;
    }
  }

  /** Taking a reservation away frees its outputs and no others. */
  lemma {:induction false} DropConsistent(reserved: Reserved, reservations: Reservations, nextIndex: nat, r: nat)
    requires Consistent(reserved, reservations, nextIndex) && r in reservations
    ensures Consistent(reserved - Ids(reservations[r].utxos), reservations - {r}, nextIndex)
    ensures forall o :: o in reserved && reserved[o] != r ==> o !in Ids(reservations[r].utxos)
  {
    var gone := Ids(reservations[r].utxos);
    forall o | o in reserved - gone ensures reserved[o] in reservations - {r} {
      assert reserved[o] == r ==> o in gone;
    }
    forall q, o | q in reservations - {r} && o in Ids(reservations[q].utxos) ensures o in reserved - gone {
      assert reserved[o] == q;
    }
  }

  lemma {:induction false} IdsSnoc(us: seq<Utxo>, i: nat)
    requires i < |us|
    ensures Ids(us[..i + 1]) == Ids(us[..i]) + {us[i].id}
  {
    forall o | o in Ids(us[..i + 1]) ensures o in Ids(us[..i]) + {us[i].id} {
      var j :| 0 <= j < i + 1 && us[..i + 1][j].id == o;
      assert j < i ==> us[..i][j].id == o;
    }
    forall o | o in Ids(us[..i]) + {us[i].id} ensures o in Ids(us[..i + 1]) {
      if o == us[i].id {
        assert us[..i + 1][i].id == o;
      } else {
        var j :| 0 <= j < i && us[..i][j].id == o;
        assert us[..i + 1][j].id == o;
      }
    }
  }

  lemma {:induction false} OneId(u: Utxo)
    ensures Ids([u]) == {u.id}
  {
    assert [u][0].id == u.id;
  }

  // ----- which outputs count for a request

  datatype Request = Request(account: int, asset: int, vote: Option<seq<int>>, height: nat)

  /** A missing vote and an empty one are the same to an output. */
  predicate Matches(q: Request, u: Utxo) {
    u.account == q.account && u.asset == q.asset && u.vote == (if q.vote.None? then [] else q.vote.value)
  }

  function Mature(q: Request, us: seq<Utxo>): (r: seq<Utxo>) {
    if us == [] then []
    else Mature(q, us[..|us| - 1]) + (if Matches(q, us[|us| - 1]) && us[|us| - 1].validHeight <= q.height then [us[|us| - 1]] else [])
  }

  function ImmatureAmount(q: Request, us: seq<Utxo>): (n: nat) {
    if us == [] then 0
    else ImmatureAmount(q, us[..|us| - 1]) + if Matches(q, us[|us| - 1]) && us[|us| - 1].validHeight > q.height then us[|us| - 1].amount else 0
  }

  function Free(us: seq<Utxo>, reserved: Reserved): (r: seq<Utxo>) {
    if us == [] then []
    else Free(us[..|us| - 1], reserved) + (if us[|us| - 1].id in reserved then [] else [us[|us| - 1]])
  }

  function ReservedAmount(us: seq<Utxo>, reserved: Reserved): (n: nat) {
    if us == [] then 0
    else ReservedAmount(us[..|us| - 1], reserved) + if us[|us| - 1].id in reserved then us[|us| - 1].amount else 0
  }

  // ----- the same in any order

  lemma {:induction false} CountSnoc(us: seq<Utxo>, u: Utxo, x: Utxo)
    ensures multiset(us + [u])[x] == multiset(us)[x] + if x == u then 1 else 0
  {
  }

  lemma {:induction false} FreeCount(us: seq<Utxo>, reserved: Reserved, x: Utxo)
    ensures multiset(Free(us, reserved))[x] == if x.id in reserved then 0 else multiset(us)[x]
    decreases |us|
  {
    if us != [] {
      var n := |us| - 1;
      FreeCount(us[..n], reserved, x);
      assert us == us[..n] + [us[n]];
      CountSnoc(us[..n], us[n], x);
      if us[n].id in reserved {
        assert Free(us, reserved) == Free(us[..n], reserved);
      } else {
        CountSnoc(Free(us[..n], reserved), us[n], x);
      }
    }
  }

  lemma {:induction false} FreeIsFree(us: seq<Utxo>, reserved: Reserved, opt: seq<Utxo>)
    requires Picked(opt, Free(us, reserved))
    ensures forall o :: o in Ids(opt) ==> o !in reserved
  {
    forall i | 0 <= i < |opt| ensures opt[i].id !in reserved {
      FreeCount(us, reserved, opt[i]);
      assert opt[i] in multiset(opt);
    }
  }

  lemma {:induction false} FreeAndReserved(us: seq<Utxo>, reserved: Reserved)
    ensures Sum(us) == Sum(Free(us, reserved)) + ReservedAmount(us, reserved)
    decreases |us|
  {
    if us != [] {
      var n := |us| - 1;
      FreeAndReserved(us[..n], reserved);
      SumSnoc(us, n);
      assert us[..n + 1] == us;
      SumAppend(Free(us[..n], reserved), [us[n]]);
      assert [us[n]][1..] == [];
      assert Free(us[..n], reserved) + [] == Free(us[..n], reserved);
    }
  }

  lemma {:induction false} FreePermuted(a: seq<Utxo>, b: seq<Utxo>, reserved: Reserved)
    requires multiset(a) == multiset(b)
    ensures multiset(Free(a, reserved)) == multiset(Free(b, reserved))
    ensures ReservedAmount(a, reserved) == ReservedAmount(b, reserved)
  {
    forall x ensures multiset(Free(a, reserved))[x] == multiset(Free(b, reserved))[x] {
      FreeCount(a, reserved, x);
      FreeCount(b, reserved, x);
    }
    SumPermuted(a, b);
    SumPermuted(Free(a, reserved), Free(b, reserved));
    FreeAndReserved(a, reserved);
    FreeAndReserved(b, reserved);
  }

  lemma {:induction false} ChosenPermuted(a: seq<Utxo>, b: seq<Utxo>, amount: nat, opt: seq<Utxo>)
    requires multiset(a) == multiset(b) && Chosen(a, amount, opt)
    ensures Chosen(b, amount, opt) && (a == [] <==> b == [])
  {
    SumPermuted(a, b);
    assert |multiset(a)| == |a| && |multiset(b)| == |b|;
    if Sum(a) >= amount {
      forall s | Picked(s, b) && Sum(s) >= amount ensures |opt| <= Max(|s|, DESIRED_COUNT) {
        assert Picked(s, a);
      }
      if amount > 0 {
        var ranked, d, e :| Ranking(ranked, a) && LastWindow(ranked, amount, opt, d, e);
        assert Ranking(ranked, b);
      }
    }
  }

  method Insert(s: seq<Utxo>, u: Utxo) returns (t: seq<Utxo>)
    requires Descending(s)
    ensures Descending(t) && multiset(t) == multiset(s) + multiset{u}
  {
    var k := 0;
    while k < |s| && s[k].amount >= u.amount
      invariant 0 <= k <= |s| && forall j :: 0 <= j < k ==> s[j].amount >= u.amount
    {
      k := k + 1;
    }
    t := s[..k] + [u] + s[k..];
    InsertOrder(s, u, k);
    InsertContents(s, u, k);
  }

  lemma {:induction false} InsertContents(s: seq<Utxo>, u: Utxo, k: nat)
    requires k <= |s|
    ensures multiset(s[..k] + [u] + s[k..]) == multiset(s) + multiset{u}
  {
    assert s == s[..k] + s[k..];
  }

  lemma {:induction false} InsertOrder(s: seq<Utxo>, u: Utxo, k: nat)
    requires Descending(s) && k <= |s| && forall j :: 0 <= j < k ==> s[j].amount >= u.amount
    requires k < |s| ==> s[k].amount < u.amount
    ensures Descending(s[..k] + [u] + s[k..])
  {
    var t := s[..k] + [u] + s[k..];
    forall i, j | 0 <= i < j < |t| ensures t[i].amount >= t[j].amount {
      assert t[i] == if i < k then s[i] else if i == k then u else s[i - 1];
      assert t[j] == if j < k then s[j] else if j == k then u else s[j - 1];
    }
  }

  // ----- an output that is listed twice

  /** An output may stay away from a list without making it any less distinct. */
  lemma {:induction false} FreeDistinct(us: seq<Utxo>, reserved: Reserved)
    requires DistinctIds(us)
    ensures DistinctIds(Free(us, reserved))
  {
    forall x ensures multiset(Free(us, reserved))[x] <= multiset(us)[x] {
      FreeCount(us, reserved, x);
    }
    PickedDistinct(us, Free(us, reserved));
  }

  lemma {:induction false} MatureCount(q: Request, us: seq<Utxo>, x: Utxo)
    ensures multiset(Mature(q, us))[x] == if Matches(q, x) && x.validHeight <= q.height then multiset(us)[x] else 0
    decreases |us|
  {
    if us != [] {
      var n := |us| - 1;
      MatureCount(q, us[..n], x);
      assert us == us[..n] + [us[n]];
    }
  }

  /** The outputs of a request that are not ripe yet. */
  function Unripe(q: Request, us: seq<Utxo>): (r: seq<Utxo>) {
    if us == [] then []
    else Unripe(q, us[..|us| - 1]) + (if Matches(q, us[|us| - 1]) && us[|us| - 1].validHeight > q.height then [us[|us| - 1]] else [])
  }

  lemma {:induction false} UnripeCount(q: Request, us: seq<Utxo>, x: Utxo)
    ensures multiset(Unripe(q, us))[x] == if Matches(q, x) && x.validHeight > q.height then multiset(us)[x] else 0
    decreases |us|
  {
    if us != [] {
      var n := |us| - 1;
      UnripeCount(q, us[..n], x);
      assert us == us[..n] + [us[n]];
    }
  }

  lemma {:induction false} UnripeTotal(q: Request, us: seq<Utxo>)
    ensures Sum(Unripe(q, us)) == ImmatureAmount(q, us)
    decreases |us|
  {
    if us != [] {
      var n := |us| - 1;
      UnripeTotal(q, us[..n]);
      SumAppend(Unripe(q, us[..n]), [us[n]]);
      assert [us[n]][1..] == [];
      assert Unripe(q, us[..n]) + [] == Unripe(q, us[..n]);
    }
  }

  /** The outputs found are those of the account, the asset and the vote whose height has come, each
      as often as it was looked at; the amount beside them is that of the others of the account, the
      asset and the vote. */
  lemma {:induction false} FoundExactly(q: Request, all: seq<Utxo>)
    ensures forall x :: multiset(Mature(q, all))[x] ==
              if x.account == q.account && x.asset == q.asset && x.vote == (if q.vote.Some? then q.vote.value else [])
                 && x.validHeight <= q.height then multiset(all)[x] else 0
    ensures forall x :: multiset(Unripe(q, all))[x] ==
              if x.account == q.account && x.asset == q.asset && x.vote == (if q.vote.Some? then q.vote.value else [])
                 && x.validHeight > q.height then multiset(all)[x] else 0
    ensures Sum(Unripe(q, all)) == ImmatureAmount(q, all)
  {
    forall x
      ensures multiset(Mature(q, all))[x] == if Matches(q, x) && x.validHeight <= q.height then multiset(all)[x] else 0
      ensures multiset(Unripe(q, all))[x] == if Matches(q, x) && x.validHeight > q.height then multiset(all)[x] else 0
    {
      MatureCount(q, all, x);
      UnripeCount(q, all, x);
    }
    UnripeTotal(q, all);
  }

  lemma {:induction false} FoundAre(q: Request, all: seq<Utxo>)
    ensures forall u :: u in Mature(q, all) <==>
                && u in all && u.account == q.account && u.asset == q.asset
                && u.vote == (if q.vote.Some? then q.vote.value else []) && u.validHeight <= q.height
    ensures forall u :: u in Unripe(q, all) <==>
                && u in all && u.account == q.account && u.asset == q.asset
                && u.vote == (if q.vote.Some? then q.vote.value else []) && u.validHeight > q.height
    ensures Sum(Unripe(q, all)) == ImmatureAmount(q, all)
  {
    FoundExactly(q, all);
    forall u
      ensures u in Mature(q, all) <==> multiset(Mature(q, all))[u] > 0
      ensures u in Unripe(q, all) <==> multiset(Unripe(q, all))[u] > 0
      ensures u in all <==> multiset(all)[u] > 0
    {
    }
  }

  lemma {:induction false} MatureDistinct(q: Request, us: seq<Utxo>)
    requires DistinctIds(us)
    ensures DistinctIds(Mature(q, us))
  {
    forall x ensures multiset(Mature(q, us))[x] <= multiset(us)[x] {
      MatureCount(q, us, x);
    }
    PickedDistinct(us, Mature(q, us));
  }

  lemma {:induction false} WorthyDistinct(us: seq<Utxo>)
    requires DistinctIds(us)
    ensures DistinctIds(Worthy(us))
  {
    forall x ensures multiset(Worthy(us))[x] <= multiset(us)[x] {
      WorthyCount(us, x);
    }
    PickedDistinct(us, Worthy(us));
  }

  lemma {:induction false} SharedId(a: seq<Utxo>, b: seq<Utxo>, i: nat, j: nat)
    requires i < |a| && j < |b| && a[i].id == b[j].id
    ensures !DistinctIds(a + b)
  {
    assert (a + b)[i].id == (a + b)[|a| + j].id;
  }

  lemma {:induction false} FrontDistinct(a: seq<Utxo>, b: seq<Utxo>)
    requires DistinctIds(a + b)
    ensures DistinctIds(a)
  {
    forall i, j | 0 <= i < j < |a| ensures a[i].id != a[j].id {
      assert (a + b)[i].id != (a + b)[j].id;
    }
  }

  /** What the store lists, followed by the unconfirmed outputs, is distinct exactly when the store's
      list is and holds no unconfirmed output. */
  lemma {:induction false} JoinedDistinct(listed: seq<Utxo>, more: seq<Utxo>, m: map<Hash, Utxo>)
    requires Lists(more, m, {})
    ensures DistinctIds(listed + more) <==> DistinctIds(listed) && Ids(listed) !! m.Keys
  {
    forall h | h in Ids(listed) && h in Ids(more) ensures !DistinctIds(listed + more) {
      var i :| 0 <= i < |listed| && listed[i].id == h;
      var j :| 0 <= j < |more| && more[j].id == h;
      SharedId(listed, more, i, j);
    }
    if DistinctIds(listed + more) {
      FrontDistinct(listed, more);
    }
    if DistinctIds(listed) && Ids(listed) !! m.Keys {
      var all := listed + more;
      forall i, j | 0 <= i < j < |all| ensures all[i].id != all[j].id {
        if i < |listed| <= j {
          assert listed[i].id in Ids(listed) && more[j - |listed|].id in Ids(more);
        }
      }
    }
  }

  /** The outputs a request can be served with, among those looked at. */
  function Usable(q: Request, all: seq<Utxo>, reserved: Reserved): (us: seq<Utxo>) {
    Free(Mature(q, all), reserved)
  }

  /** A request is served with distinct outputs when the usable ones worth something are distinct;
      for the whole of them, only then. */
  lemma {:induction false} AnsweredDistinct(q: Request, amount: nat, all: seq<Utxo>, reserved: Reserved, r: Answer)
    requires Answered(q, amount, all, reserved, r) && r.Done?
    ensures DistinctIds(Worthy(Usable(q, all, reserved))) ==> DistinctIds(r.reservation.utxos)
    ensures amount == Sum(Usable(q, all, reserved)) ==>
              (DistinctIds(r.reservation.utxos) <==> DistinctIds(Worthy(Usable(q, all, reserved))))
    ensures DistinctIds(all) ==> DistinctIds(Worthy(Usable(q, all, reserved)))
  {
    var us, opt := Usable(q, all, reserved), r.reservation.utxos;
    if DistinctIds(all) {
      MatureDistinct(q, all);
      FreeDistinct(Mature(q, all), reserved);
      WorthyDistinct(us);
    }
    if DistinctIds(Worthy(us)) {
      ChosenDistinct(us, amount, opt);
    }
    if amount == Sum(us) {
      WholeDistinct(us, opt);
    }
  }

  /** Some order with the larger amounts in front. */
  method SortDescending(us: seq<Utxo>) returns (s: seq<Utxo>)
    ensures Descending(s) && multiset(s) == multiset(us)
  {
    s := [];
    for i := 0 to |us|
      invariant Descending(s) && multiset(s) == multiset(us[..i])
    {
      assert us[..i + 1] == us[..i] + [us[i]];
      s := Insert(s, us[i]);
    }
    assert us[..|us|] == us;
  }

  /** `us` lists the values of `m` under the keys not in `rest`, each once. */
  ghost predicate Lists(us: seq<Utxo>, m: map<Hash, Utxo>, rest: set<Hash>) {
    && Ids(us) == m.Keys - rest
    && (forall i :: 0 <= i < |us| ==> us[i].id in m && us[i] == m[us[i].id])
    && (forall i, j :: 0 <= i < j < |us| ==> us[i].id != us[j].id)
  }

  lemma {:induction false} ListsMore(us: seq<Utxo>, m: map<Hash, Utxo>, rest: set<Hash>, h: Hash)
    requires Lists(us, m, rest) && h in rest && h in m && m[h].id == h
    ensures Lists(us + [m[h]], m, rest - {h})
  {
    var more := us + [m[h]];
    assert more[..|us|] == us && more[..|us| + 1] == more;
    IdsSnoc(more, |us|);
    forall i | 0 <= i < |us| ensures us[i].id != h {
      assert us[i].id in Ids(us);
    }
  }

  class Keeper {
    var nextIndex: nat
    var unconfirmed: map<Hash, Utxo>
    var reserved: Reserved
    var reservations: Reservations

    constructor ()
      ensures Valid() && unconfirmed == map[] && reservations == map[] && reserved == map[]
    {
      nextIndex, unconfirmed, reserved, reservations := 0, map[], map[], map[];
    }

    /** Unconfirmed outputs are filed under their own id, and the tables agree. */
    ghost predicate Valid()
      reads this
    {
      && (forall h :: h in unconfirmed ==> unconfirmed[h].id == h)
      && Consistent(reserved, reservations, nextIndex)
    }

    method AddUnconfirmedUtxo(utxos: seq<Utxo>)
      requires Valid()
      modifies this`unconfirmed
      ensures Valid() && forall h :: h in unconfirmed <==> h in old(unconfirmed) || h in Ids(utxos)
      ensures forall h :: h in old(unconfirmed) && h !in Ids(utxos) ==> unconfirmed[h] == old(unconfirmed)[h]
      ensures forall h :: h in Ids(utxos) ==> unconfirmed[h] in utxos
    {
      for i := 0 to |utxos|
        invariant Valid() && forall h :: h in unconfirmed <==> h in old(unconfirmed) || h in Ids(utxos[..i])
        invariant forall h :: h in old(unconfirmed) && h !in Ids(utxos[..i]) ==> unconfirmed[h] == old(unconfirmed)[h]
        invariant forall h :: h in Ids(utxos[..i]) ==> unconfirmed[h] in utxos
      {
        IdsSnoc(utxos, i);
        unconfirmed := unconfirmed[utxos[i].id := utxos[i]];
      }
      assert utxos[..|utxos|] == utxos;
    }

    method RemoveUnconfirmedUtxo(hashes: seq<Hash>)
      requires Valid()
      modifies this`unconfirmed
      ensures Valid() && unconfirmed == old(unconfirmed) - set i | 0 <= i < |hashes| :: hashes[i]
    {
      for i := 0 to |hashes|
        invariant Valid() && unconfirmed == old(unconfirmed) - set j | 0 <= j < i :: hashes[j]
      {
        unconfirmed := unconfirmed - {hashes[i]};
      }
    }

    /** The unconfirmed outputs in some order. */
    method ListUnconfirmed() returns (us: seq<Utxo>)
      requires Valid()
      ensures Lists(us, unconfirmed, {})
    {
      us := [];
      var rest := unconfirmed.Keys;
      while rest != {}
        invariant rest <= unconfirmed.Keys && Lists(us, unconfirmed, rest)
        decreases |rest|
      {
        ghost var some := SomeKey(rest);
        assert some in rest;
        var h :| h in rest;
        ListsMore(us, unconfirmed, rest, h);
        us, rest := us + [unconfirmed[h]], rest - {h};
      }
    }

    /** The matching mature outputs and the amount of the immature ones, over what the store lists
        and, if asked for, the unconfirmed outputs. */
    method FindUtxos(q: Request, useUnconfirmed: bool, listed: seq<Utxo>) returns (utxos: seq<Utxo>, immature: nat, ghost all: seq<Utxo>)
      requires Valid()
      ensures listed <= all && (!useUnconfirmed ==> all == listed)
      ensures useUnconfirmed ==> Lists(all[|listed|..], unconfirmed, {})
      ensures utxos == Mature(q, all) && immature == ImmatureAmount(q, all)
      ensures forall u :: u in utxos <==>
                && u in all && u.account == q.account && u.asset == q.asset
                && u.vote == (if q.vote.Some? then q.vote.value else []) && u.validHeight <= q.height
      ensures immature == Sum(Unripe(q, all))
      ensures forall u :: u in Unripe(q, all) <==>
                && u in all && u.account == q.account && u.asset == q.asset
                && u.vote == (if q.vote.Some? then q.vote.value else []) && u.validHeight > q.height
    {
      var more: seq<Utxo> := [];
      if useUnconfirmed {
        more := ListUnconfirmed();
      }
      var us := listed + more;
      all := us;
      assert all[|listed|..] == more;
      utxos, immature := [], 0;
      for i := 0 to |us|
        invariant utxos == Mature(q, us[..i]) && immature == ImmatureAmount(q, us[..i])
      {
        assert us[..i + 1][..i] == us[..i];
        if Matches(q, us[i]) {
          if us[i].validHeight > q.height {
            immature := immature + us[i].amount;
          } else {
            utxos := utxos + [us[i]];
          }
        }
      }
      assert us[..|us|] == us;
      FoundAre(q, us);
    }

    /** The outputs chosen for an amount, their total and the total of the reserved ones. */
    method OptUtxos(utxos: seq<Utxo>, amount: nat) returns (r: Option<seq<Utxo>>, optAmount: nat, reservedAmount: nat)
      ensures r.None? <==> amount == 0 && Free(utxos, reserved) != []
      ensures r.Some? ==> Chosen(Free(utxos, reserved), amount, r.value) && optAmount == Sum(r.value)
      ensures reservedAmount == ReservedAmount(utxos, reserved)
      ensures r.Some? && DistinctIds(utxos) ==> DistinctIds(r.value)
    {
      var sorted := SortDescending(utxos);
      var available: seq<Utxo> := [];
      reservedAmount := 0;
      for i := 0 to |sorted|
        invariant available == Free(sorted[..i], reserved) && reservedAmount == ReservedAmount(sorted[..i], reserved)
        invariant Descending(available + sorted[i..])
      {
        assert sorted[..i + 1][..i] == sorted[..i];
        ghost var before := available;
        if sorted[i].id in reserved {
          reservedAmount := reservedAmount + sorted[i].amount;
          DropFrom(before, sorted, i);
        } else {
          available := available + [sorted[i]];
          assert available + sorted[i + 1..] == before + sorted[i..];
        }
      }
      assert sorted[..|sorted|] == sorted;
      assert available + [] == available;
      FreePermuted(sorted, utxos, reserved);
      r, optAmount := Choose(available, amount);
      if r.Some? {
        ChosenPermuted(available, Free(utxos, reserved), amount, r.value);
        if DistinctIds(utxos) {
          FreeDistinct(utxos, reserved);
          PickedDistinct(Free(utxos, reserved), r.value);
        }
      } else {
        assert |multiset(available)| == |available| && |multiset(Free(utxos, reserved))| == |Free(utxos, reserved)|;
      }
    }

    /** Reserve outputs for an amount. `all` is what was looked at: the store's list and, if asked
        for, the unconfirmed outputs. An output that is in both may be taken twice. */
    method Reserve(q: Request, amount: nat, useUnconfirmed: bool, expiry: int, listed: seq<Utxo>) returns (r: Answer, ghost all: seq<Utxo>)
      requires Valid()
      modifies this`nextIndex, this`reserved, this`reservations
      ensures Valid()
      ensures listed <= all && (if useUnconfirmed then Lists(all[|listed|..], unconfirmed, {}) else all == listed)
      ensures Answered(q, amount, all, old(reserved), r)
      ensures if r.Done? then Recorded(r.reservation, expiry, old(reserved), old(reservations), old(nextIndex))
              else reserved == old(reserved) && reservations == old(reservations) && nextIndex == old(nextIndex)
      ensures r.Done? ==> forall u :: u in r.reservation.utxos ==>
                && u in all && u.account == q.account && u.asset == q.asset
                && u.vote == (if q.vote.Some? then q.vote.value else [])
                && u.validHeight <= q.height && u.id !in old(reserved)
      ensures r.Done? ==> Sum(r.reservation.utxos) == amount + r.reservation.change
      ensures DistinctIds(all) <==> DistinctIds(listed) && (useUnconfirmed ==> Ids(listed) !! unconfirmed.Keys)
      ensures r.Done? && DistinctIds(listed) && (useUnconfirmed ==> Ids(listed) !! unconfirmed.Keys) ==> DistinctIds(r.reservation.utxos)
    {
      var utxos, immature;
      utxos, immature, all := LookUp(q, useUnconfirmed, listed);
      r := Serve(q, amount, expiry, utxos, immature, all);
      if r.Done? {
        AnsweredDistinct(q, amount, all, old(reserved), r);
      }
    }

    /** FindUtxos, and when what was looked at is distinct. */
    method LookUp(q: Request, useUnconfirmed: bool, listed: seq<Utxo>) returns (utxos: seq<Utxo>, immature: nat, ghost all: seq<Utxo>)
      requires Valid()
      ensures listed <= all && (if useUnconfirmed then Lists(all[|listed|..], unconfirmed, {}) else all == listed)
      ensures utxos == Mature(q, all) && immature == ImmatureAmount(q, all)
      ensures DistinctIds(all) <==> DistinctIds(listed) && (useUnconfirmed ==> Ids(listed) !! unconfirmed.Keys)
    {
      utxos, immature, all := FindUtxos(q, useUnconfirmed, listed);
      if useUnconfirmed {
        assert all == listed + all[|listed|..];
        JoinedDistinct(listed, all[|listed|..], unconfirmed);
      }
    }

    /** Serve a request with the outputs found for it. */
    method Serve(q: Request, amount: nat, expiry: int, utxos: seq<Utxo>, immature: nat, ghost all: seq<Utxo>) returns (r: Answer)
      requires Valid() && utxos == Mature(q, all) && immature == ImmatureAmount(q, all)
      modifies this`nextIndex, this`reserved, this`reservations
      ensures Valid() && Answered(q, amount, all, old(reserved), r)
      ensures r.Done? ==> forall u :: u in r.reservation.utxos ==>
                && u in all && u.account == q.account && u.asset == q.asset
                && u.vote == (if q.vote.Some? then q.vote.value else [])
                && u.validHeight <= q.height && u.id !in old(reserved)
      ensures r.Done? ==> Sum(r.reservation.utxos) == amount + r.reservation.change
      ensures if r.Done? then Recorded(r.reservation, expiry, old(reserved), old(reservations), old(nextIndex))
              else reserved == old(reserved) && reservations == old(reservations) && nextIndex == old(nextIndex)
    {
      var opt, optAmount, reservedAmount := OptUtxos(utxos, amount);
      if opt.None? {
        return Panicked;
      }
      ChosenTotal(Free(utxos, reserved), amount, opt.value);
      if optAmount + reservedAmount + immature < amount {
        return Refused(Insufficient);
      }
      if optAmount + reservedAmount < amount {
        return Refused(if q.vote.Some? then VoteLock else Immature);
      }
      if optAmount < amount {
        return Refused(AlreadyReserved);
      }
      FreeIsFree(utxos, reserved, opt.value);
      var res := Reservation(nextIndex + 1, opt.value, optAmount - amount, expiry);
      Record(res);
      r := Done(res);
      ServedWith(q, amount, all, old(reserved), r);
    }

    /** The tables after recording `res`. */
    ghost predicate Recorded(res: Reservation, expiry: int, reserved0: Reserved, reservations0: Reservations, nextIndex0: nat)
      reads this
    {
      && res.id == nextIndex == nextIndex0 + 1 && res.expiry == expiry
      && reservations == reservations0[res.id := res] && reserved == Mark(reserved0, Ids(res.utxos), res.id)
    }

    method Record(res: Reservation)
      requires Valid() && res.id == nextIndex + 1
      modifies this`nextIndex, this`reserved, this`reservations
      ensures Recorded(res, res.expiry, old(reserved), old(reservations), old(nextIndex))
      ensures Valid() <==> forall o :: o in Ids(res.utxos) ==> o !in old(reserved)
    {
      AddExact(reserved, reservations, nextIndex, res);
      MarkNone(reserved, res.id);
      assert res.utxos[..0] == [];
      nextIndex := nextIndex + 1;
      reservations := reservations[res.id := res];
      for i := 0 to |res.utxos|
        invariant reserved == Mark(old(reserved), Ids(res.utxos[..i]), res.id)
        invariant nextIndex == old(nextIndex) + 1 && reservations == old(reservations)[res.id := res]
      {
        IdsSnoc(res.utxos, i);
        MarkMore(old(reserved), Ids(res.utxos[..i]), res.utxos[i].id, res.id);
        reserved := reserved[res.utxos[i].id := res.id];
      }
      assert res.utxos[..|res.utxos|] == res.utxos;
    }

    /** Reserve one given output; `stored` is what the store has under its id. The tables stay in step
        unless the store answers with another output, which is reserved already. */
    method ReserveParticular(outHash: Hash, useUnconfirmed: bool, expiry: int, height: nat, stored: Option<Utxo>) returns (r: Answer)
      requires Valid()
      modifies this`nextIndex, this`reserved, this`reservations
      ensures Valid() <==> (r.Done? ==> forall o :: o in Ids(r.reservation.utxos) ==> o !in old(reserved))
      ensures (stored.Some? ==> stored.value.id == outHash) ==> Valid()
      ensures var u := if useUnconfirmed && outHash in unconfirmed then Some(unconfirmed[outHash]) else stored;
              if outHash in old(reserved) then r == Refused(AlreadyReserved)
              else if u.None? then r == Refused(NotFound)
              else if u.value.validHeight > height then r == Refused(Immature)
              else r == Done(Reservation(old(nextIndex) + 1, [u.value], 0, expiry))
      ensures if r.Done? then Recorded(r.reservation, expiry, old(reserved), old(reservations), old(nextIndex))
              else reserved == old(reserved) && reservations == old(reservations) && nextIndex == old(nextIndex)
    {
      if outHash in reserved {
        return Refused(AlreadyReserved);
      }
      var u := if useUnconfirmed && outHash in unconfirmed then Some(unconfirmed[outHash]) else stored;
      if u.None? {
        return Refused(NotFound);
      }
      if u.value.validHeight > height {
        return Refused(Immature);
      }
      var res := Reservation(nextIndex + 1, [u.value], 0, expiry);
      OneId(u.value);
      Record(res);
      r := Done(res);
    }

    /** Take a reservation back: its outputs become free, all others stay as they are. */
    method Cancel(rid: nat)
      requires Valid()
      modifies this`reserved, this`reservations
      ensures Valid() && reservations == old(reservations) - {rid}
      ensures forall o :: o in reserved <==> o in old(reserved) && old(reserved)[o] != rid
      ensures forall o :: o in reserved ==> reserved[o] == old(reserved)[o]
    {
      if rid !in reservations {
        return;
      }
      DropConsistent(reserved, reservations, nextIndex, rid);
      var us := reservations[rid].utxos;
      reservations := reservations - {rid};
      for i := 0 to |us|
        invariant reserved == old(reserved) - Ids(us[..i]) && reservations == old(reservations) - {rid}
      {
        IdsSnoc(us, i);
        reserved := reserved - {us[i].id};
      }
      assert us[..|us|] == us;
    }

    /** Take back every reservation whose time is over. */
    method ExpireReservation(now: int)
      requires Valid()
      modifies this`reserved, this`reservations
      ensures Valid() && reservations == Live(old(reservations), {}, now)
      ensures forall r :: r in reservations <==> r in old(reservations) && old(reservations)[r].expiry >= now
      ensures forall o :: o in reserved <==> o in old(reserved) && old(reservations)[old(reserved)[o]].expiry >= now
      ensures forall o :: o in reserved ==> reserved[o] == old(reserved)[o]
    {
      assert Live(reservations, reservations.Keys, now) == reservations;
      var rest := reservations.Keys;
      while rest != {}
        invariant Valid() && rest <= old(reservations).Keys
        invariant reservations == Live(old(reservations), rest, now)
        decreases |rest|
      {
        ghost var some := SomeKey(rest);
        assert some in rest;
        var rid :| rid in rest;
        LiveStep(old(reservations), rest, now, rid);
        if reservations[rid].expiry < now {
          Cancel(rid);
        }
        rest := rest - {rid};
      }
      LiveHolds(old(reserved), old(reservations), reserved, reservations, nextIndex, now);
    }
  }

  /** The answer to a request as the available, the reserved and the immature totals decide it. */
  ghost predicate Answered(q: Request, amount: nat, all: seq<Utxo>, reserved: Reserved, r: Answer) {
    var fit := Mature(q, all);
    var free := Free(fit, reserved);
    var available, held, immature := Sum(free), ReservedAmount(fit, reserved), ImmatureAmount(q, all);
    if amount == 0 && free != [] then r == Panicked
    else if available + held + immature < amount then r == Refused(Insufficient)
    else if available + held < amount then r == Refused(if q.vote.Some? then VoteLock else Immature)
    else if available < amount then r == Refused(AlreadyReserved)
    else r.Done? && Chosen(free, amount, r.reservation.utxos) && r.reservation.change == Sum(r.reservation.utxos) - amount
  }

  lemma {:induction false} ChosenTotal(us: seq<Utxo>, amount: nat, opt: seq<Utxo>)
    requires Chosen(us, amount, opt)
    ensures Sum(us) < amount ==> Sum(opt) == Sum(us)
    ensures Sum(opt) >= amount <==> Sum(us) >= amount
  {
    if Sum(us) < amount {
      SumPermuted(us, opt);
    }
  }

  lemma {:induction false} DropFrom(a: seq<Utxo>, us: seq<Utxo>, i: nat)
    requires i < |us| && Descending(a + us[i..])
    ensures Descending(a + us[i + 1..])
  {
    var s, t := a + us[i..], a + us[i + 1..];
    forall j, k | 0 <= j < k < |t| ensures t[j].amount >= t[k].amount {
      assert t[j] == s[if j < |a| then j else j + 1] && t[k] == s[if k < |a| then k else k + 1];
    }
  }

  lemma {:induction false} ListsOne(us: seq<Utxo>, u: Utxo)
    requires Lists(us, map[u.id := u], {})
    ensures us == [u]
  {
    assert u.id in Ids(us);
    assert us[0] == us[|us| - 1];
  }

  /** A request is served with outputs it asked for, which nobody has reserved. */
  lemma {:induction false} ServedWith(q: Request, amount: nat, all: seq<Utxo>, reserved: Reserved, r: Answer)
    requires Answered(q, amount, all, reserved, r) && r.Done?
    ensures forall u :: u in r.reservation.utxos ==>
              && u in all && u.account == q.account && u.asset == q.asset
              && u.vote == (if q.vote.Some? then q.vote.value else [])
              && u.validHeight <= q.height && u.id !in reserved
    ensures Sum(r.reservation.utxos) == amount + r.reservation.change
  {
    FoundAre(q, all);
    var opt := r.reservation.utxos;
    forall u | u in opt ensures u in Mature(q, all) && u.id !in reserved {
      FreeCount(Mature(q, all), reserved, u);
      assert u in multiset(opt);
      assert multiset(Free(Mature(q, all), reserved))[u] > 0;
    }
    ChosenTotal(Usable(q, all, reserved), amount, opt);
  }

  /** `us` lists what `all` does, of the outputs that pass. */
  ghost predicate Sifted(us: seq<Utxo>, all: seq<Utxo>, pass: Utxo -> bool) {
    forall x :: multiset(us)[x] == if pass(x) then multiset(all)[x] else 0
  }

  /** How a request ends, by three totals: of what was asked for, of what is ripe among it, and of
      what is free among that. The lists are given by what they hold. */
  lemma {:induction false} AnswerMeans(q: Request, amount: nat, all: seq<Utxo>, reserved: Reserved, r: Answer,
                                       wanted: seq<Utxo>, ripe: seq<Utxo>, free: seq<Utxo>)
    requires Answered(q, amount, all, reserved, r)
    requires var vote := if q.vote.Some? then q.vote.value else [];
             && Sifted(wanted, all, (x: Utxo) => x.account == q.account && x.asset == q.asset && x.vote == vote)
             && Sifted(ripe, wanted, (x: Utxo) => x.validHeight <= q.height)
             && Sifted(free, ripe, (x: Utxo) => x.id !in reserved)
    ensures r == Panicked <==> amount == 0 && free != []
    ensures r == Refused(Insufficient) <==> Sum(wanted) < amount
    ensures r == Refused(if q.vote.Some? then VoteLock else Immature) <==> Sum(ripe) < amount <= Sum(wanted)
    ensures r == Refused(AlreadyReserved) <==> Sum(free) < amount <= Sum(ripe)
    ensures r.Done? <==> amount <= Sum(free) && (amount > 0 || free == [])
  {
    TotalsMean(q, all, reserved, wanted, ripe, free);
  }

  lemma {:induction false} TotalsMean(q: Request, all: seq<Utxo>, reserved: Reserved, wanted: seq<Utxo>, ripe: seq<Utxo>, free: seq<Utxo>)
    requires var vote := if q.vote.Some? then q.vote.value else [];
             && Sifted(wanted, all, (x: Utxo) => x.account == q.account && x.asset == q.asset && x.vote == vote)
             && Sifted(ripe, wanted, (x: Utxo) => x.validHeight <= q.height)
             && Sifted(free, ripe, (x: Utxo) => x.id !in reserved)
    ensures Sum(wanted) == Sum(ripe) + ImmatureAmount(q, all)
    ensures Sum(ripe) == Sum(free) + ReservedAmount(Mature(q, all), reserved)
    ensures Sum(free) == Sum(Usable(q, all, reserved)) && (free == [] <==> Usable(q, all, reserved) == [])
  {
    WantedSplits(q, all, wanted);
    RipeAre(q, all, wanted, ripe);
    SumPermuted(ripe, Mature(q, all));
    FreeAre(Mature(q, all), reserved, ripe, free);
    SumPermuted(free, Usable(q, all, reserved));
    FreeAndReserved(Mature(q, all), reserved);
    assert |multiset(free)| == |free| && |multiset(Usable(q, all, reserved))| == |Usable(q, all, reserved)|;
  }

  lemma {:induction false} WantedSplits(q: Request, all: seq<Utxo>, wanted: seq<Utxo>)
    requires var vote := if q.vote.Some? then q.vote.value else [];
             Sifted(wanted, all, (x: Utxo) => x.account == q.account && x.asset == q.asset && x.vote == vote)
    ensures Sum(wanted) == Sum(Mature(q, all)) + ImmatureAmount(q, all)
  {
    var fit, late := Mature(q, all), Unripe(q, all);
    forall x ensures multiset(wanted)[x] == multiset(fit + late)[x] {
      MatureCount(q, all, x);
      UnripeCount(q, all, x);
    }
    SumPermuted(wanted, fit + late);
    SumAppend(fit, late);
    UnripeTotal(q, all);
  }

  lemma {:induction false} RipeAre(q: Request, all: seq<Utxo>, wanted: seq<Utxo>, ripe: seq<Utxo>)
    requires var vote := if q.vote.Some? then q.vote.value else [];
             Sifted(wanted, all, (x: Utxo) => x.account == q.account && x.asset == q.asset && x.vote == vote)
    requires Sifted(ripe, wanted, (x: Utxo) => x.validHeight <= q.height)
    ensures multiset(ripe) == multiset(Mature(q, all))
  {
    forall x ensures multiset(ripe)[x] == multiset(Mature(q, all))[x] {
      MatureCount(q, all, x);
      assert multiset(wanted)[x] == if Matches(q, x) then multiset(all)[x] else 0;
    }
  }

  lemma {:induction false} FreeAre(fit: seq<Utxo>, reserved: Reserved, ripe: seq<Utxo>, free: seq<Utxo>)
    requires multiset(ripe) == multiset(fit) && Sifted(free, ripe, (x: Utxo) => x.id !in reserved)
    ensures multiset(free) == multiset(Free(fit, reserved))
  {
    forall x ensures multiset(free)[x] == multiset(Free(fit, reserved))[x] {
      FreeCount(fit, reserved, x);
    }
  }

  lemma {:induction false} Served(q: Request, amount: nat, all: seq<Utxo>, reserved: Reserved, r: Answer)
    requires Answered(q, amount, all, reserved, r) && 0 < amount <= Sum(Usable(q, all, reserved))
    ensures r.Done? && Picked(r.reservation.utxos, Usable(q, all, reserved))
    ensures Sum(r.reservation.utxos) == amount + r.reservation.change
  {
  }

  lemma {:induction false} MatureTwice(q: Request, u: Utxo)
    requires Matches(q, u) && u.validHeight <= q.height
    ensures Mature(q, [u, u]) == [u, u]
  {
    assert [u, u][..1] == [u] && [u][..0] == [];
    assert Mature(q, [u]) == Mature(q, []) + [u];
  }

  lemma {:induction false} FreeTwice(u: Utxo, reserved: Reserved)
    requires u.id !in reserved
    ensures Free([u, u], reserved) == [u, u]
  {
    assert [u, u][..1] == [u] && [u][..0] == [];
    assert Free([u], reserved) == Free([], reserved) + [u];
  }

  lemma {:induction false} UsableTwice(q: Request, u: Utxo, reserved: Reserved)
    requires Matches(q, u) && u.validHeight <= q.height && u.id !in reserved
    ensures Usable(q, [u, u], reserved) == [u, u]
  {
    MatureTwice(q, u);
    FreeTwice(u, reserved);
  }

  lemma {:induction false} SumTwice(u: Utxo)
    ensures Sum([u, u]) == 2 * u.amount
  {
    assert [u, u][1..] == [u] && [u][1..] == [];
    assert Sum([u]) == u.amount;
  }

  /** Of an output that is looked at twice, twice its amount takes it twice. */
  lemma {:induction false} PickedTwice(u: Utxo, opt: seq<Utxo>)
    requires Picked(opt, [u, u]) && Sum(opt) >= 2 * u.amount && u.amount > 0
    ensures opt == [u, u] && Sum(opt) == 2 * u.amount && !DistinctIds(opt)
  {
    PickedSum(opt, [u, u]);
    SumTwice(u);
    assert |multiset(opt)| == |opt| && |multiset([u, u])| == 2;
    assert opt[0] in multiset([u, u]) && opt[1] in multiset([u, u]);
    assert opt[0].id == opt[1].id;
  }

  /** A usable output that is looked at twice is reserved twice for twice its amount. */
  lemma {:induction false} TakenTwice(q: Request, u: Utxo, all: seq<Utxo>, reserved: Reserved, r: Answer)
    requires Answered(q, 2 * u.amount, all, reserved, r) && Usable(q, all, reserved) == [u, u] && u.amount > 0
    ensures r.Done? && r.reservation.utxos == [u, u] && r.reservation.change == 0 && !DistinctIds(r.reservation.utxos)
  {
    SumTwice(u);
    Served(q, 2 * u.amount, all, reserved, r);
    PickedTwice(u, r.reservation.utxos);
  }

  /** A keeper with one unconfirmed output. */
  method OneUnconfirmed(u: Utxo) returns (k: Keeper)
    ensures fresh(k) && k.Valid() && k.unconfirmed == map[u.id := u] && k.reserved == map[]
  {
    k := new Keeper();
    k.AddUnconfirmedUtxo([u]);
    OneId(u);
    assert forall h :: h in k.unconfirmed <==> h == u.id;
    assert k.unconfirmed[u.id] == u;
  }

  /** An output worth 5 that the store lists and that is still filed as unconfirmed: a request for 10
      takes it twice. */
  method ReservedTwice() returns (k: Keeper, r: Answer)
    ensures var u := Utxo(1, 0, 0, [], 5, 0);
            r.Done? && r.reservation.utxos == [u, u] && r.reservation.change == 0 && !DistinctIds(r.reservation.utxos)
  {
    var u := Utxo(1, 0, 0, [], 5, 0);
    k := OneUnconfirmed(u);
    ghost var all;
    r, all := k.Reserve(Request(0, 0, None, 0), 10, true, 0, [u]);
    ListsOne(all[1..], u);
    assert all == [u, u];
    UsableTwice(Request(0, 0, None, 0), u, map[]);
    TakenTwice(Request(0, 0, None, 0), u, all, map[], r);
  }
}
