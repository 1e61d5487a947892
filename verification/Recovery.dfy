/** Finding a wallet's accounts and addresses again by scanning blocks, with a look-ahead window over
    accounts and one over the addresses of each branch (compare section "Address gap limit" of
    BIP 44, with other window sizes here). An address stands for its control program. */
module Recovery {
  import opened Options
  import opened Collections

  const ACCT_RECOVERY_WINDOW := 6
  const ADDR_RECOVERY_WINDOW := 128

  /** An account: the one with this number under the recovered keys, or another of the wallet. The
      paths of a flat one, derived by BIP 32, have no change field. */
  datatype Id = Derived(key: nat) | Other(n: int) | Flat(n: int)

  datatype Addr = Addr(account: Id, change: bool, index: nat)

  datatype Branch = Branch(window: nat, horizon: nat, nextUnfound: nat)

  datatype Scope = Scope(external: Branch, internal: Branch)

  datatype State = State(xpubs: Option<Branch>, accounts: map<Id, Scope>, addresses: set<Addr>)

  // ----- one branch

  function NewBranch(window: nat): (b: Branch) {
    Branch(window, 1, 1)
  }

  function Extended(b: Branch): (r: Branch) {
    if b.horizon >= b.nextUnfound + b.window then b else b.(horizon := b.nextUnfound + b.window)
  }

  function Reported(b: Branch, index: nat): (r: Branch) {
    if index >= b.nextUnfound then b.(nextUnfound := index + 1) else b
  }

  /** The branch looks `window` indexes past the last one found. */
  predicate Ready(b: Branch, window: nat) {
    b.window == window && 1 <= b.nextUnfound && b.horizon >= b.nextUnfound + window
  }

  lemma {:induction false} BranchStaysReady(b: Branch, window: nat, index: nat)
    requires Ready(b, window)
    ensures Extended(b) == b && Ready(Extended(Reported(b, index)), window)
    ensures Extended(Reported(b, index)).horizon >= b.horizon
  {
  }

  function BranchOf(s: Scope, change: bool): (b: Branch) {
    if change then s.internal else s.external
  }

  function WithBranch(s: Scope, change: bool, b: Branch): (r: Scope) {
    if change then s.(internal := b) else s.(external := b)
  }

  // ----- the steps

  /** The control program of an address: in a flat account both branches give the same. */
  function Program(id: Id, change: bool, index: nat): (a: Addr) {
    Addr(id, change && !id.Flat?, index)
  }

  function Watch(id: Id, change: bool, lo: nat, hi: nat): (r: set<Addr>) {
    set i | lo <= i < hi :: Program(id, change, i)
  }

  function SetBranch(st: State, id: Id, change: bool, b: Branch): (r: State)
    requires id in st.accounts
  {
    st.(accounts := st.accounts[id := WithBranch(st.accounts[id], change, b)])
  }

  /** Move the horizon of a branch and watch the addresses up to it. */
  function ExtendScan(st: State, id: Id, change: bool): (r: State)
    requires id in st.accounts
    ensures r.accounts.Keys == st.accounts.Keys
  {
    var b := BranchOf(st.accounts[id], change);
    SetBranch(st, id, change, Extended(b)).(addresses := st.addresses + Watch(id, change, b.horizon, Extended(b).horizon))
  }

  function ForScope(st: State, id: Id): (r: State)
    ensures r.accounts.Keys == st.accounts.Keys + {id}
  {
    if id in st.accounts then st
    else st.(accounts := st.accounts[id := Scope(NewBranch(ADDR_RECOVERY_WINDOW), NewBranch(ADDR_RECOVERY_WINDOW))])
  }

  function AddScope(st: State, id: Id): (r: State)
    ensures r.accounts.Keys == st.accounts.Keys + {id}
  {
    ExtendScan(ExtendScan(ForScope(st, id), id, true), id, false)
  }

  /** A flat account has one branch to watch. */
  function AddFlat(st: State, id: Id): (r: State)
    ensures r.accounts.Keys == st.accounts.Keys + {id}
  {
    ExtendScan(ForScope(st, id), id, false)
  }

  function AddDerived(st: State, k: nat): (r: State) {
    AddScope(st, Derived(k))
  }

  function Iterate<S>(f: (S, nat) -> S, st: S, lo: nat, hi: nat): (r: S)
    decreases hi - lo
  {
    if lo >= hi then st else f(Iterate(f, st, lo, hi - 1), hi - 1)
  }

  function AddScopes(st: State, lo: nat, hi: nat): (r: State) {
    Iterate(AddDerived, st, lo, hi)
  }

  /** Each step of `f` adds one account. */
  ghost predicate AddsAt<S>(f: (S, nat) -> S, keys: S -> set<Id>, st: S, k: nat) {
    keys(f(st, k)) == keys(st) + {Derived(k)}
  }

  function DerivedIds(lo: nat, hi: nat): (r: set<Id>) {
    set k | lo <= k < hi :: Derived(k)
  }

  lemma {:induction false} IterateAdds<S(!new)>(f: (S, nat) -> S, keys: S -> set<Id>, st: S, lo: nat, hi: nat)
    requires forall s, k {:trigger AddsAt(f, keys, s, k)} :: AddsAt(f, keys, s, k)
    ensures keys(Iterate(f, st, lo, hi)) == keys(st) + DerivedIds(lo, hi)
    decreases hi - lo
  {
    if lo < hi {
      IterateAdds(f, keys, st, lo, hi - 1);
      assert AddsAt(f, keys, Iterate(f, st, lo, hi - 1), hi - 1);
      assert DerivedIds(lo, hi) == DerivedIds(lo, hi - 1) + {Derived(hi - 1)};
    }
  }

  ghost function KeysOf(st: State): (ids: set<Id>) {
    st.accounts.Keys
  }

  /** The accounts taken in are exactly those of the range. */
  lemma {:induction false} AddScopesExact(st: State, lo: nat, hi: nat)
    ensures AddScopes(st, lo, hi).accounts.Keys == st.accounts.Keys + DerivedIds(lo, hi)
  {
    forall s, k: nat ensures AddsAt(AddDerived, KeysOf, s, k) {
    }
    IterateAdds(AddDerived, KeysOf, st, lo, hi);
  }

  /** Move the account horizon and take in the accounts up to it. */
  function ExtendAccounts(st: State): (r: State)
    ensures st.accounts.Keys <= r.accounts.Keys
  {
    if st.xpubs.None? then st else
    var b := st.xpubs.value;
    AddScopesExact(st.(xpubs := Some(Extended(b))), b.horizon, Extended(b).horizon);
    AddScopes(st.(xpubs := Some(Extended(b))), b.horizon, Extended(b).horizon)
  }

  /** An account of the recovered keys has been found. */
  function FoundAccount(st: State, id: Id): (r: State)
    ensures st.accounts.Keys <= r.accounts.Keys
  {
    if st.xpubs.Some? && id.Derived? then ExtendAccounts(st.(xpubs := Some(Reported(st.xpubs.value, id.key)))) else st
  }

  function FoundAddress(st: State, a: Addr): (r: State)
    requires a.account in st.accounts
  {
    var b := BranchOf(st.accounts[a.account], a.change);
    ExtendScan(SetBranch(st, a.account, a.change, Reported(b, a.index)), a.account, a.change)
  }

  /** A watched address has been seen. */
  function Report(st: State, a: Addr): (r: State)
    requires a.account in st.accounts
  {
    FoundAddress(FoundAccount(st, a.account), a)
  }

  /** One output: nothing happens unless its address is watched. */
  function Step(st: State, a: Addr): (r: State) {
    if a in st.addresses && a.account in st.accounts then Report(st, a) else st
  }

  function Run(st: State, outs: seq<Addr>): (r: State) {
    if outs == [] then st else Step(Run(st, outs[..|outs| - 1]), outs[|outs| - 1])
  }

  // ----- what every step keeps

  /** The branches of an account that are watched; the internal one of a flat account never moves. */
  ghost predicate ScopeReady(id: Id, s: Scope) {
    && Ready(s.external, ADDR_RECOVERY_WINDOW)
    && if id.Flat? then s.internal == NewBranch(ADDR_RECOVERY_WINDOW) else Ready(s.internal, ADDR_RECOVERY_WINDOW)
  }

  ghost predicate Watched(addresses: set<Addr>, id: Id, change: bool, horizon: nat) {
    forall i {:trigger Program(id, change, i)} :: 1 <= i < horizon ==> Program(id, change, i) in addresses
  }

  ghost predicate ScopeWatched(addresses: set<Addr>, id: Id, s: Scope) {
    Watched(addresses, id, false, s.external.horizon) && Watched(addresses, id, true, s.internal.horizon)
  }

  ghost predicate AccountsReady(st: State) {
    forall id :: id in st.accounts ==> ScopeReady(id, st.accounts[id]) && ScopeWatched(st.addresses, id, st.accounts[id])
  }

  ghost predicate OnlyAccounts(st: State) {
    forall a :: a in st.addresses ==> a.account in st.accounts && a.index >= 1 && a == Program(a.account, a.change, a.index)
  }

  ghost predicate AllDerived(accounts: map<Id, Scope>, horizon: nat) {
    forall k {:trigger Derived(k)} :: 1 <= k < horizon ==> Derived(k) in accounts
  }

  /** Every index below the horizon is watched and every horizon is a window ahead, on both levels. */
  ghost predicate Inv(st: State) {
    && AccountsReady(st) && OnlyAccounts(st)
    && (st.xpubs.Some? ==> Ready(st.xpubs.value, ACCT_RECOVERY_WINDOW) && AllDerived(st.accounts, st.xpubs.value.horizon))
  }

  /** The scopes `r` has beyond those of `st` are new, and the others are the same. */
  ghost predicate Grows(st: State, r: State) {
    && st.addresses <= r.addresses
    && (forall id :: id in st.accounts ==> id in r.accounts && r.accounts[id] == st.accounts[id])
    && (forall id :: id in r.accounts && id !in st.accounts ==>
          r.accounts[id].external.nextUnfound == 1 && r.accounts[id].internal.nextUnfound == 1)
  }

  lemma {:induction false} NewScope(st: State, id: Id)
    requires id !in st.accounts && !id.Flat?
    ensures var b := Branch(ADDR_RECOVERY_WINDOW, ADDR_RECOVERY_WINDOW + 1, 1);
            AddScope(st, id) == st.(accounts := st.accounts[id := Scope(b, b)],
              addresses := st.addresses + Watch(id, true, 1, ADDR_RECOVERY_WINDOW + 1) + Watch(id, false, 1, ADDR_RECOVERY_WINDOW + 1))
  {
    var s1 := ForScope(st, id);
    var s2 := ExtendScan(s1, id, true);
    assert AddScope(st, id) == ExtendScan(s2, id, false);
    assert s2.accounts[id].external == NewBranch(ADDR_RECOVERY_WINDOW);
  }

  lemma {:induction false} OldScope(st: State, id: Id)
    requires id in st.accounts && !id.Flat? && ScopeReady(id, st.accounts[id])
    ensures AddScope(st, id) == st
  {
    var s := st.accounts[id];
    assert Watch(id, true, s.internal.horizon, s.internal.horizon) == {};
    assert Watch(id, false, s.external.horizon, s.external.horizon) == {};
    assert st.accounts[id := s] == st.accounts;
    assert ExtendScan(st, id, true) == st;
  }

  /** `r` is a good state that only grew from `st`. */
  ghost predicate Kept(st: State, r: State) {
    AccountsReady(r) && OnlyAccounts(r) && Grows(st, r) && r.xpubs == st.xpubs
  }

  lemma {:induction false} NewFlat(st: State, id: Id)
    requires id !in st.accounts && id.Flat?
    ensures AddFlat(st, id) == st.(
              accounts := st.accounts[id := Scope(Branch(ADDR_RECOVERY_WINDOW, ADDR_RECOVERY_WINDOW + 1, 1), NewBranch(ADDR_RECOVERY_WINDOW))],
              addresses := st.addresses + Watch(id, false, 1, ADDR_RECOVERY_WINDOW + 1))
  {
  }

  lemma {:induction false} AddFlatKeeps(st: State, id: Id)
    requires AccountsReady(st) && OnlyAccounts(st) && id.Flat?
    ensures Kept(st, AddFlat(st, id))
  {
    if id in st.accounts {
      var s := st.accounts[id];
      assert Watch(id, false, s.external.horizon, s.external.horizon) == {};
      assert AddFlat(st, id) == st;
    } else {
      NewFlat(st, id);
    }
  }

  lemma {:induction false} AddScopeKeeps(st: State, id: Id)
    requires AccountsReady(st) && OnlyAccounts(st) && !id.Flat?
    ensures Kept(st, AddScope(st, id))
  {
    if id in st.accounts {
      OldScope(st, id);
    } else {
      NewScope(st, id);
      NewScopeOnly(st, id);
    }
  }

  lemma {:induction false} NewScopeOnly(st: State, id: Id)
    requires OnlyAccounts(st) && id !in st.accounts && !id.Flat?
    ensures OnlyAccounts(AddScope(st, id))
  {
    NewScope(st, id);
    var r := AddScope(st, id);
    forall a | a in r.addresses ensures a.account in r.accounts && a.index >= 1 && a == Program(a.account, a.change, a.index) {
      if a in st.addresses {
        assert a.account in st.accounts;
      }
    }
  }

  lemma {:induction false} KeptTransitive(a: State, b: State, c: State)
    requires Kept(a, b) && Kept(b, c)
    ensures Kept(a, c)
  {
  }

  /** One step of `f` leads from a good state to one related to it, and relations add up. */
  ghost predicate KeepsAt<S>(f: (S, nat) -> S, good: S -> bool, rel: (S, S) -> bool, a: S, b: S, k: nat) {
    && (good(b) ==> rel(b, f(b, k)) && good(f(b, k)))
    && (rel(a, b) && rel(b, f(b, k)) ==> rel(a, f(b, k)))
  }

  ghost predicate KeepsAll<S(!new)>(f: (S, nat) -> S, good: S -> bool, rel: (S, S) -> bool) {
    forall a, b, k {:trigger KeepsAt(f, good, rel, a, b, k)} :: KeepsAt(f, good, rel, a, b, k)
  }

  lemma {:induction false} IterateKeeps<S(!new)>(f: (S, nat) -> S, good: S -> bool, rel: (S, S) -> bool, st: S, lo: nat, hi: nat)
    requires KeepsAll(f, good, rel) && good(st) && rel(st, st)
    ensures rel(st, Iterate(f, st, lo, hi)) && good(Iterate(f, st, lo, hi))
    decreases hi - lo
  {
    if lo < hi {
      IterateKeeps(f, good, rel, st, lo, hi - 1);
      assert KeepsAt(f, good, rel, st, Iterate(f, st, lo, hi - 1), hi - 1);
    }
  }

  ghost predicate InOrder(st: State) {
    AccountsReady(st) && OnlyAccounts(st)
  }

  lemma {:induction false} AddDerivedKeeps(a: State, b: State, k: nat)
    ensures KeepsAt(AddDerived, InOrder, Kept, a, b, k)
  {
    if InOrder(b) {
      AddScopeKeeps(b, Derived(k));
    }
    if Kept(a, b) && Kept(b, AddDerived(b, k)) {
      KeptTransitive(a, b, AddDerived(b, k));
    }
  }

  lemma {:induction false} AddScopesKeep(st: State, lo: nat, hi: nat)
    requires AccountsReady(st) && OnlyAccounts(st)
    ensures Kept(st, AddScopes(st, lo, hi))
  {
    forall a, b, k: nat ensures KeepsAt(AddDerived, InOrder, Kept, a, b, k) {
      AddDerivedKeeps(a, b, k);
    }
    IterateKeeps(AddDerived, InOrder, Kept, st, lo, hi);
  }

  /** Extending the account horizon restores the account window and takes in nothing but new accounts. */
  lemma {:induction false} ExtendAccountsReady(st: State)
    requires AccountsReady(st) && OnlyAccounts(st) && st.xpubs.Some?
    requires var x := st.xpubs.value; x.window == ACCT_RECOVERY_WINDOW && 1 <= x.nextUnfound && 1 <= x.horizon && AllDerived(st.accounts, x.horizon)
    ensures var r := ExtendAccounts(st);
            && Inv(r) && Grows(st, r) && r.xpubs.Some? && r.xpubs.value.nextUnfound == st.xpubs.value.nextUnfound
            && (forall i :: i in r.accounts && i !in st.accounts ==> i.Derived? && i.key >= 1)
  {
    var x := st.xpubs.value;
    var mid, lo, hi := st.(xpubs := Some(Extended(x))), x.horizon, Extended(x).horizon;
    AddScopesKeep(mid, lo, hi);
    AddScopesExact(mid, lo, hi);
    forall k | 1 <= k < hi ensures Derived(k) in AddScopes(mid, lo, hi).accounts {
      assert k < lo ==> Derived(k) in st.accounts;
    }
  }

  lemma {:induction false} FoundAccountKeeps(st: State, id: Id)
    requires Inv(st)
    ensures var r := FoundAccount(st, id);
            && Inv(r) && Grows(st, r)
            && (if st.xpubs.Some? && id.Derived? then r.xpubs.Some? && r.xpubs.value.nextUnfound == Reported(st.xpubs.value, id.key).nextUnfound
                else r == st)
            && (forall i :: i in r.accounts && i !in st.accounts ==> i.Derived? && i.key >= 1)
  {
    if st.xpubs.Some? && id.Derived? {
      ExtendAccountsReady(st.(xpubs := Some(Reported(st.xpubs.value, id.key))));
    }
  }

  lemma {:induction false} FoundAddressKeeps(st: State, a: Addr)
    requires Inv(st) && a.account in st.accounts && a == Program(a.account, a.change, a.index)
    ensures var r := FoundAddress(st, a);
            var b := BranchOf(st.accounts[a.account], a.change);
            && Inv(r) && r.xpubs == st.xpubs && st.addresses <= r.addresses
            && r.accounts == st.accounts[a.account := WithBranch(st.accounts[a.account], a.change, Extended(Reported(b, a.index)))]
  {
    var s := st.accounts[a.account];
    var b := BranchOf(s, a.change);
    BranchStaysReady(b, ADDR_RECOVERY_WINDOW, a.index);
    var r := FoundAddress(st, a);
    var mid := SetBranch(st, a.account, a.change, Reported(b, a.index));
    assert mid.accounts[a.account := r.accounts[a.account]] == st.accounts[a.account := r.accounts[a.account]];
    WatchedMore(st.addresses, a.account, a.change, b.horizon, Extended(Reported(b, a.index)).horizon);
  }

  lemma {:induction false} WatchedMore(addresses: set<Addr>, id: Id, change: bool, lo: nat, hi: nat)
    requires Watched(addresses, id, change, lo)
    ensures Watched(addresses + Watch(id, change, lo, hi), id, change, hi)
  {
    forall i | 1 <= i < hi ensures Program(id, change, i) in addresses + Watch(id, change, lo, hi) {
      assert i < lo ==> Program(id, change, i) in addresses;
    }
  }

  /** The invariant survives every output of every block. */
  lemma {:induction false} StepKeeps(st: State, a: Addr)
    requires Inv(st)
    ensures Inv(Step(st, a))
  {
    if a in st.addresses {
      FoundAccountKeeps(st, a.account);
      FoundAddressKeeps(FoundAccount(st, a.account), a);
    }
  }

  // ----- every owned output within the windows is recognised

  /** Outputs to the wallet: of an account it started with, or of any account under the recovered keys. */
  ghost predicate Owned(st0: State, a: Addr) {
    a.index >= 1 && a == Program(a.account, a.change, a.index) && (a.account in st0.accounts || (st0.xpubs.Some? && a.account.Derived? && a.account.key >= 1))
  }

  /** One more than the largest address index on a branch in `outs`, or what `st0` started with. */
  ghost function NextAddr(st0: State, outs: seq<Addr>, id: Id, change: bool): (n: nat) {
    if outs == [] then
      if id in st0.accounts then BranchOf(st0.accounts[id], change).nextUnfound else 1
    else
      var n, a := NextAddr(st0, outs[..|outs| - 1], id, change), outs[|outs| - 1];
      if a.account == id && a.change == change && Owned(st0, a) && a.index >= n then a.index + 1 else n
  }

  /** One more than the largest account number among the owned outputs in `outs`. */
  ghost function NextAcct(st0: State, outs: seq<Addr>): (n: nat)
    requires st0.xpubs.Some?
  {
    if outs == [] then st0.xpubs.value.nextUnfound
    else
      var n, a := NextAcct(st0, outs[..|outs| - 1]), outs[|outs| - 1];
      if Owned(st0, a) && a.account.Derived? && a.account.key >= n then a.account.key + 1 else n
  }

  /** The output `a`, seen after `outs`, is within both windows of what was seen before it. */
  ghost predicate InWindow(st0: State, outs: seq<Addr>, a: Addr) {
    && a.index < NextAddr(st0, outs, a.account, a.change) + ADDR_RECOVERY_WINDOW
    && (a.account in st0.accounts ||
        (st0.xpubs.Some? && a.account.Derived? && a.account.key < NextAcct(st0, outs) + ACCT_RECOVERY_WINDOW))
  }

  ghost predicate AllInWindow(st0: State, outs: seq<Addr>) {
    forall j :: 0 <= j < |outs| && Owned(st0, outs[j]) ==> InWindow(st0, outs[..j], outs[j])
  }

  /** The state knows exactly what was seen. */
  ghost predicate Tracks(st0: State, outs: seq<Addr>, st: State) {
    && Inv(st) && (st.xpubs.Some? <==> st0.xpubs.Some?)
    && (forall id :: id in st0.accounts ==> id in st.accounts)
    && (forall id :: id in st.accounts ==> id in st0.accounts || (st0.xpubs.Some? && id.Derived? && id.key >= 1))
    && (st0.xpubs.Some? ==> st.xpubs.value.nextUnfound == NextAcct(st0, outs))
    && (forall id, c {:trigger NextAddr(st0, outs, id, c)} :: id in st.accounts ==> BranchOf(st.accounts[id], c).nextUnfound == NextAddr(st0, outs, id, c))
    && (forall id, c {:trigger NextAddr(st0, outs, id, c)} :: id !in st.accounts && id.Derived? && id.key >= 1 && st0.xpubs.Some? ==>
          NextAddr(st0, outs, id, c) == 1)
  }

  lemma {:induction false} Recognised(st0: State, outs: seq<Addr>, st: State, a: Addr)
    requires Tracks(st0, outs, st) && Owned(st0, a) && InWindow(st0, outs, a)
    ensures a.account in st.accounts && a in st.addresses
  {
    if a.account !in st0.accounts {
      assert a.account == Derived(a.account.key);
    }
    assert NextAddr(st0, outs, a.account, a.change) == BranchOf(st.accounts[a.account], a.change).nextUnfound;
    assert a == Program(a.account, a.change, a.index);
  }

  lemma {:induction false} Ignored(st0: State, outs: seq<Addr>, st: State, a: Addr)
    requires Tracks(st0, outs, st) && !Owned(st0, a)
    ensures a !in st.addresses && Tracks(st0, outs + [a], st)
  {
    var more := outs + [a];
    assert more[..|outs|] == outs;
    forall id, c ensures id in st.accounts || (id.Derived? && id.key >= 1 && st0.xpubs.Some?) ==> NextAddr(st0, more, id, c) == NextAddr(st0, outs, id, c) {
    }
  }

  lemma {:induction false} TracksFound(st0: State, outs: seq<Addr>, st: State, a: Addr)
    requires Tracks(st0, outs, st) && Owned(st0, a) && a.account in st.accounts
    ensures Tracks(st0, outs + [a], Report(st, a))
  {
    var more := outs + [a];
    assert more[..|outs|] == outs;
    var mid := FoundAccount(st, a.account);
    FoundAccountKeeps(st, a.account);
    FoundAddressKeeps(mid, a);
    var r := Report(st, a);
    forall id, c {:trigger NextAddr(st0, more, id, c)} | id in r.accounts
      ensures BranchOf(r.accounts[id], c).nextUnfound == NextAddr(st0, more, id, c)
    {
      NextAfterFound(st0, outs, st, a, id, c);
    }
    forall id, c {:trigger NextAddr(st0, more, id, c)} | id !in r.accounts && id.Derived? && id.key >= 1 && st0.xpubs.Some?
      ensures NextAddr(st0, more, id, c) == 1
    {
      assert id !in st.accounts && id != a.account;
      assert NextAddr(st0, outs, id, c) == 1;
    }
  }

  lemma {:induction false} NextAfterFound(st0: State, outs: seq<Addr>, st: State, a: Addr, id: Id, c: bool)
    requires Tracks(st0, outs, st) && Owned(st0, a) && a.account in st.accounts && id in Report(st, a).accounts
    ensures BranchOf(Report(st, a).accounts[id], c).nextUnfound == NextAddr(st0, outs + [a], id, c)
  {
    var more := outs + [a];
    assert more[..|outs|] == outs;
    var mid := FoundAccount(st, a.account);
    FoundAccountKeeps(st, a.account);
    FoundAddressKeeps(mid, a);
    if id in st.accounts {
      assert NextAddr(st0, outs, id, c) == BranchOf(st.accounts[id], c).nextUnfound;
    } else {
      assert id in mid.accounts;
      assert NextAddr(st0, outs, id, c) == 1;
    }
  }

  lemma {:induction false} TracksStart(st0: State)
    requires Inv(st0)
    ensures Tracks(st0, [], st0)
  {
  }

  lemma {:induction false} RunTracks(st0: State, outs: seq<Addr>)
    requires Inv(st0) && AllInWindow(st0, outs)
    ensures Tracks(st0, outs, Run(st0, outs))
    decreases |outs|
  {
    if outs == [] {
      TracksStart(st0);
    } else {
      var n := |outs| - 1;
      var p, a := outs[..n], outs[n];
      PrefixesInWindow(st0, outs, n);
      RunTracks(st0, p);
      assert p + [a] == outs;
      if Owned(st0, a) {
        assert InWindow(st0, outs[..n], outs[n]);
        Recognised(st0, p, Run(st0, p), a);
        TracksFound(st0, p, Run(st0, p), a);
      } else {
        Ignored(st0, p, Run(st0, p), a);
      }
    }
  }

  /** In any sequence of outputs in which every owned one is within its windows, every owned one is
      recognised when it comes, and no other output is. */
  lemma {:induction false} AllRecognised(st0: State, outs: seq<Addr>, j: nat)
    requires Inv(st0) && AllInWindow(st0, outs) && j < |outs|
    ensures outs[j] in Run(st0, outs[..j]).addresses <==> Owned(st0, outs[j])
  {
    PrefixesInWindow(st0, outs, j);
    RunTracks(st0, outs[..j]);
    if Owned(st0, outs[j]) {
      Recognised(st0, outs[..j], Run(st0, outs[..j]), outs[j]);
    } else {
      Ignored(st0, outs[..j], Run(st0, outs[..j]), outs[j]);
    }
  }

  /** The same with the gaps in numbers: 128 addresses on a branch, six accounts under the keys. */
  lemma {:induction false} WithinGaps(st0: State, outs: seq<Addr>, j: nat)
    requires Inv(st0) && j < |outs|
    requires forall i :: 0 <= i < |outs| && Owned(st0, outs[i]) ==>
               && outs[i].index < NextAddr(st0, outs[..i], outs[i].account, outs[i].change) + 128
               && (outs[i].account in st0.accounts || outs[i].account.key < NextAcct(st0, outs[..i]) + 6)
    ensures outs[j] in Run(st0, outs[..j]).addresses <==> Owned(st0, outs[j])
  {
    forall i | 0 <= i < |outs| && Owned(st0, outs[i]) ensures InWindow(st0, outs[..i], outs[i]) {
    }
    AllRecognised(st0, outs, j);
  }

  lemma {:induction false} PrefixesInWindow(st0: State, outs: seq<Addr>, j: nat)
    requires AllInWindow(st0, outs) && j <= |outs|
    ensures AllInWindow(st0, outs[..j])
  {
    var p := outs[..j];
    forall i | 0 <= i < |p| && Owned(st0, p[i]) ensures InWindow(st0, p[..i], p[i]) {
      assert p[..i] == outs[..i] && p[i] == outs[i];
    }
  }

  /** The owned outputs, in order. */
  ghost function OwnedOnes(st0: State, outs: seq<Addr>): (r: seq<Addr>) {
    if outs == [] then [] else OwnedOnes(st0, outs[..|outs| - 1]) + (if Owned(st0, outs[|outs| - 1]) then [outs[|outs| - 1]] else [])
  }

  /** The outputs recognised in a run, in order. */
  ghost function Seen(st0: State, outs: seq<Addr>): (r: seq<Addr>) {
    if outs == [] then []
    else
      var p, a := outs[..|outs| - 1], outs[|outs| - 1];
      Seen(st0, p) + (if a in Run(st0, p).addresses then [a] else [])
  }

  lemma {:induction false} SeenIsOwned(st0: State, outs: seq<Addr>)
    requires Inv(st0) && AllInWindow(st0, outs)
    ensures Seen(st0, outs) == OwnedOnes(st0, outs)
    decreases |outs|
  {
    if outs != [] {
      var n := |outs| - 1;
      PrefixesInWindow(st0, outs, n);
      SeenIsOwned(st0, outs[..n]);
      AllRecognised(st0, outs, n);
    }
  }

  lemma {:induction false} RunKeeps(st: State, outs: seq<Addr>)
    requires Inv(st)
    ensures Inv(Run(st, outs))
    decreases |outs|
  {
    if outs != [] {
      RunKeeps(st, outs[..|outs| - 1]);
      StepKeeps(Run(st, outs[..|outs| - 1]), outs[|outs| - 1]);
    }
  }

  // ----- starting

  /** Start looking for the accounts under the recovered keys. */
  function Resurrect(st: State): (r: State) {
    ExtendAccounts(st.(xpubs := Some(NewBranch(ACCT_RECOVERY_WINDOW))))
  }

  lemma {:induction false} ResurrectReady(st: State)
    requires AccountsReady(st) && OnlyAccounts(st)
    ensures Inv(Resurrect(st))
  {
    ExtendAccountsReady(st.(xpubs := Some(NewBranch(ACCT_RECOVERY_WINDOW))));
  }

  // ----- nothing is watched beyond the windows

  ghost predicate ScopeTight(id: Id, s: Scope) {
    s.external.horizon == s.external.nextUnfound + 128 && (!id.Flat? ==> s.internal.horizon == s.internal.nextUnfound + 128)
  }

  /** Every horizon is just one window ahead, and no address beyond it is watched. */
  ghost predicate TightScopes(st: State) {
    && (forall id :: id in st.accounts ==> ScopeTight(id, st.accounts[id]))
    && (forall a :: a in st.addresses ==> a.account in st.accounts && a.index < BranchOf(st.accounts[a.account], a.change).horizon)
  }

  /** Likewise for accounts: those that `st0` did not have are below the account horizon. */
  ghost predicate TightFrom(st0: State, st: State) {
    && TightScopes(st)
    && (st.xpubs.Some? ==> st.xpubs.value.horizon == st.xpubs.value.nextUnfound + 6)
    && (forall id :: id in st.accounts && id !in st0.accounts ==> st.xpubs.Some? && id.Derived? && id.key < st.xpubs.value.horizon)
  }

  lemma {:induction false} AddScopeTight(st: State, id: Id)
    requires InOrder(st) && TightScopes(st) && !id.Flat?
    ensures TightScopes(AddScope(st, id))
  {
    if id in st.accounts {
      OldScope(st, id);
    } else {
      NewScope(st, id);
      var r := AddScope(st, id);
      forall a | a in r.addresses ensures a.account in r.accounts && a.index < BranchOf(r.accounts[a.account], a.change).horizon {
        if a in st.addresses {
          assert a.account in st.accounts;
        }
      }
    }
  }

  ghost predicate TightOrder(st: State) {
    InOrder(st) && TightScopes(st)
  }

  lemma {:induction false} AddScopesTight(st: State, lo: nat, hi: nat)
    requires TightOrder(st)
    ensures TightOrder(AddScopes(st, lo, hi))
  {
    var any := (a: State, b: State) => true;
    forall a, b, k: nat ensures KeepsAt(AddDerived, TightOrder, any, a, b, k) {
      if TightOrder(b) {
        AddScopeKeeps(b, Derived(k));
        AddScopeTight(b, Derived(k));
      }
    }
    IterateKeeps(AddDerived, TightOrder, any, st, lo, hi);
  }

  lemma {:induction false} ExtendAccountsTight(st0: State, st: State)
    requires TightOrder(st) && st.xpubs.Some?
    requires var x := st.xpubs.value;
             x.window == 6 && x.horizon <= x.nextUnfound + 6
             && forall id :: id in st.accounts && id !in st0.accounts ==> id.Derived? && id.key < x.horizon
    ensures TightFrom(st0, ExtendAccounts(st))
  {
    var x := st.xpubs.value;
    var mid, lo, hi := st.(xpubs := Some(Extended(x))), x.horizon, Extended(x).horizon;
    assert TightOrder(mid);
    AddScopesTight(mid, lo, hi);
    AddScopesKeep(mid, lo, hi);
    AddScopesExact(mid, lo, hi);
  }

  lemma {:induction false} FoundAddressTight(st0: State, st: State, a: Addr)
    requires Inv(st) && TightFrom(st0, st) && a.account in st.accounts && a == Program(a.account, a.change, a.index)
    ensures TightFrom(st0, FoundAddress(st, a))
  {
    FoundAddressKeeps(st, a);
    var s, r := st.accounts[a.account], FoundAddress(st, a);
    var b := BranchOf(s, a.change);
    var e := Extended(Reported(b, a.index));
    assert r.addresses == st.addresses + Watch(a.account, a.change, b.horizon, e.horizon);
    forall x | x in r.addresses ensures x.account in r.accounts && x.index < BranchOf(r.accounts[x.account], x.change).horizon {
      if x in st.addresses {
        assert x.account in st.accounts;
      }
    }
  }

  lemma {:induction false} StepTight(st0: State, st: State, a: Addr)
    requires Inv(st) && TightFrom(st0, st)
    ensures TightFrom(st0, Step(st, a))
  {
    if a in st.addresses {
      FoundAccountKeeps(st, a.account);
      var mid := FoundAccount(st, a.account);
      if st.xpubs.Some? && a.account.Derived? {
        var reported := st.(xpubs := Some(Reported(st.xpubs.value, a.account.key)));
        assert TightOrder(reported);
        ExtendAccountsTight(st0, reported);
      }
      FoundAddressTight(st0, mid, a);
    }
  }

  lemma {:induction false} RunTight(st0: State, outs: seq<Addr>)
    requires Inv(st0) && TightFrom(st0, st0)
    ensures TightFrom(st0, Run(st0, outs))
    decreases |outs|
  {
    if outs != [] {
      var n := |outs| - 1;
      RunTight(st0, outs[..n]);
      RunKeeps(st0, outs[..n]);
      StepTight(st0, Run(st0, outs[..n]), outs[n]);
    }
  }

  /** The windows are exact: as long as every owned output came within them, the next output is
      recognised if and only if it is owned and within them too. */
  lemma {:induction false} GapExact(st0: State, outs: seq<Addr>, a: Addr)
    requires Inv(st0) && TightFrom(st0, st0) && AllInWindow(st0, outs)
    ensures a in Run(st0, outs).addresses <==>
              && Owned(st0, a) && a.index < NextAddr(st0, outs, a.account, a.change) + 128
              && (a.account in st0.accounts || a.account.key < NextAcct(st0, outs) + 6)
  {
    RunTracks(st0, outs);
    RunTight(st0, outs);
    var st := Run(st0, outs);
    if a in st.addresses {
      if !Owned(st0, a) {
        Ignored(st0, outs, st, a);
      }
      assert NextAddr(st0, outs, a.account, a.change) == BranchOf(st.accounts[a.account], a.change).nextUnfound;
      assert ScopeTight(a.account, st.accounts[a.account]);
    } else if Owned(st0, a) && InWindow(st0, outs, a) {
      Recognised(st0, outs, st, a);
    }
  }

  /** A wallet without accounts starts that way. */
  lemma {:induction false} ResurrectTight(xpubs: Option<Branch>)
    ensures var st := Resurrect(State(xpubs, map[], {})); Inv(st) && TightFrom(st, st)
  {
    var st := State(xpubs, map[], {});
    ResurrectReady(st);
    var start := st.(xpubs := Some(NewBranch(ACCT_RECOVERY_WINDOW)));
    ExtendAccountsTight(start, start);
  }

  lemma {:induction false} ScopeOrder(st: State, id: Id)
    ensures ExtendScan(ExtendScan(ForScope(st, id), id, false), id, true) == AddScope(st, id)
  {
    var s := ForScope(st, id);
    var a, b := ExtendScan(ExtendScan(s, id, false), id, true), AddScope(st, id);
    assert a.accounts == b.accounts;
    assert a.addresses == b.addresses;
  }

  lemma {:induction false} AddScopeInv(st: State, id: Id)
    requires Inv(st)
    ensures var r := if id.Flat? then AddFlat(st, id) else AddScope(st, id); Inv(r) && id in r.accounts
  {
    if id.Flat? {
      AddFlatKeeps(st, id);
    } else {
      AddScopeKeeps(st, id);
    }
  }

  // ----- the manager

  ghost predicate Adds(add: (State, nat) -> State) {
    forall st, k {:trigger AddDerived(st, k)} :: add(st, k) == AddDerived(st, k)
  }

  /** Watched are the programs of all accounts but those in `rest`, up to and including the horizons. */
  ghost predicate Restored(addresses: set<Addr>, accounts: map<Id, Scope>, rest: set<Id>) {
    forall a :: a in addresses <==>
      && a.account in accounts && a.account !in rest && a == Program(a.account, a.change, a.index)
      && 1 <= a.index <= BranchOf(accounts[a.account], a.change).horizon
  }

  lemma {:induction false} WatchIs(id: Id, change: bool, lo: nat, hi: nat, a: Addr)
    ensures a in Watch(id, change, lo, hi) <==> a == Program(id, change, a.index) && lo <= a.index < hi
  {
    if a == Program(id, change, a.index) && lo <= a.index < hi {
      assert Program(id, change, a.index) in Watch(id, change, lo, hi);
    }
  }

  lemma {:induction false} RestoredMore(addresses: set<Addr>, accounts: map<Id, Scope>, rest: set<Id>, id: Id)
    requires Restored(addresses, accounts, rest) && id in rest && id in accounts && ScopeReady(id, accounts[id])
    ensures Restored(addresses + Watch(id, true, 1, accounts[id].internal.horizon + 1) + Watch(id, false, 1, accounts[id].external.horizon + 1),
                     accounts, rest - {id})
  {
    var s := accounts[id];
    var r := addresses + Watch(id, true, 1, s.internal.horizon + 1) + Watch(id, false, 1, s.external.horizon + 1);
    forall a ensures a in r <==>
      && a.account in accounts && a.account !in rest - {id} && a == Program(a.account, a.change, a.index)
      && 1 <= a.index <= BranchOf(accounts[a.account], a.change).horizon
    {
      WatchIs(id, true, 1, s.internal.horizon + 1, a);
      WatchIs(id, false, 1, s.external.horizon + 1, a);
    }
  }

  lemma {:induction false} RestoredAll(st: State)
    requires Restored(st.addresses, st.accounts, {}) && forall id :: id in st.accounts ==> ScopeReady(id, st.accounts[id])
    ensures AccountsReady(st) && OnlyAccounts(st)
  {
    forall id | id in st.accounts ensures ScopeWatched(st.addresses, id, st.accounts[id]) {
      ScopeRestored(st, id);
    }
  }

  lemma {:induction false} ScopeRestored(st: State, id: Id)
    requires Restored(st.addresses, st.accounts, {}) && id in st.accounts && ScopeReady(id, st.accounts[id])
    ensures ScopeWatched(st.addresses, id, st.accounts[id])
  {
    var s := st.accounts[id];
    forall i | 1 <= i < s.external.horizon ensures Program(id, false, i) in st.addresses {
    }
    forall i | 1 <= i < s.internal.horizon ensures Program(id, true, i) in st.addresses {
    }
  }

  class Manager {
    var xpubs: Option<Branch>
    var accounts: map<Id, Scope>
    var addresses: set<Addr>

    constructor ()
      ensures Abs() == State(None, map[], {}) && Inv(Abs())
    {
      xpubs, accounts, addresses := None, map[], {};
    }

    ghost function Abs(): (st: State)
      reads this
    {
      State(xpubs, accounts, addresses)
    }

    method StateForScope(id: Id)
      modifies this`accounts
      ensures Abs() == ForScope(old(Abs()), id)
    {
      if id !in accounts {
        accounts := accounts[id := Scope(NewBranch(ADDR_RECOVERY_WINDOW), NewBranch(ADDR_RECOVERY_WINDOW))];
      }
    }

    method ExtendScanAddresses(id: Id, change: bool) returns (ok: bool)
      modifies this`accounts, this`addresses
      ensures ok == (id in old(accounts))
      ensures Abs() == if ok then ExtendScan(old(Abs()), id, change) else old(Abs())
    {
      if id !in accounts {
        return false;
      }
      var b := BranchOf(accounts[id], change);
      var horizon := Extended(b).horizon;
      accounts := accounts[id := WithBranch(accounts[id], change, Extended(b))];
      WatchFrom(id, change, b.horizon, horizon);
      ok := true;
    }

    /** Watch the addresses from one index up to another. */
    method WatchFrom(id: Id, change: bool, lo: nat, hi: nat)
      requires lo <= hi
      modifies this`addresses
      ensures addresses == old(addresses) + Watch(id, change, lo, hi)
    {
      for index := lo to hi
        invariant addresses == old(addresses) + Watch(id, change, lo, index)
      {
        WatchOneMore(id, change, lo, index);
        addresses := addresses + {Program(id, change, index)};
      }
    }

    method ExtendScanAccounts()
      modifies this
      ensures Abs() == ExtendAccounts(old(Abs()))
    {
      if xpubs.None? {
        return;
      }
      var b := xpubs.value;
      var horizon := Extended(b).horizon;
      xpubs := Some(Extended(b));
      TakeInAll(AddDerived, b.horizon, horizon);
    }

    /** `add` is `AddDerived`, handed in as a value. */
    method TakeInAll(ghost add: (State, nat) -> State, lo: nat, hi: nat)
      requires lo <= hi && Adds(add)
      modifies this`accounts, this`addresses
      ensures Abs() == Iterate(add, old(Abs()), lo, hi)
    {
      for index := lo to hi
        invariant Abs() == Iterate(add, old(Abs()), lo, index)
      {
        TakeInDerived(add, index);
      }
    }

    method TakeInDerived(ghost add: (State, nat) -> State, k: nat)
      requires Adds(add)
      modifies this`accounts, this`addresses
      ensures Abs() == add(old(Abs()), k)
    {
      ghost var st := Abs();
      TakeIn(Derived(k));
      assert add(st, k) == AddDerived(st, k);
    }

    /** Begin a new account's scope and watch both its branches. */
    method TakeIn(id: Id)
      modifies this`accounts, this`addresses
      ensures Abs() == AddScope(old(Abs()), id)
    {
      StateForScope(id);
      var ok := ExtendScanAddresses(id, true);
      ok := ExtendScanAddresses(id, false);
    }

    method ReportFound(a: Addr)
      requires a.account in accounts
      modifies this
      ensures Abs() == Report(old(Abs()), a)
    {
      if xpubs.Some? && a.account.Derived? {
        xpubs := Some(Reported(xpubs.value, a.account.key));
        ExtendScanAccounts();
      }
      var b := BranchOf(accounts[a.account], a.change);
      accounts := accounts[a.account := WithBranch(accounts[a.account], a.change, Reported(b, a.index))];
      var ok := ExtendScanAddresses(a.account, a.change);
    }

    /** The outputs of a block. Every output whose address is watched is reported, and the addresses
        up to it are created; `created` lists these. */
    method ProcessBlock(outs: seq<Addr>) returns (ok: bool, created: seq<Addr>)
      requires Inv(Abs())
      modifies this
      ensures ok && Inv(Abs()) && Abs() == Run(old(Abs()), outs) && created == Seen(old(Abs()), outs)
      ensures AllInWindow(old(Abs()), outs) ==> created == OwnedOnes(old(Abs()), outs)
    {
      ghost var start := Abs();
      created := [];
      for i := 0 to |outs|
        invariant Inv(Abs()) && Abs() == Run(start, outs[..i]) && created == Seen(start, outs[..i])
      {
        assert outs[..i + 1][..i] == outs[..i];
        StepKeeps(Abs(), outs[i]);
        if outs[i] in addresses {
          if outs[i].account !in accounts {
            return false, created;
          }
          ReportFound(outs[i]);
          created := created + [outs[i]];
        }
      }
      assert outs[..|outs|] == outs;
      if AllInWindow(start, outs) {
        SeenIsOwned(start, outs);
      }
      ok := true;
    }

    /** Start the recovery of the accounts under some keys. */
    method AcctResurrect()
      requires Inv(Abs())
      modifies this
      ensures Inv(Abs()) && Abs() == Resurrect(old(Abs()))
    {
      ResurrectReady(Abs());
      xpubs := Some(NewBranch(ACCT_RECOVERY_WINDOW));
      ExtendScanAccounts();
    }

    /** Start the recovery of the addresses of some accounts. */
    method AddrResurrect(ids: seq<Id>)
      requires Inv(Abs())
      modifies this`accounts, this`addresses
      ensures Inv(Abs()) && xpubs == old(xpubs)
      ensures forall id :: id in accounts <==> id in old(accounts) || id in ids
    {
      for k := 0 to |ids|
        invariant Inv(Abs()) && xpubs == old(xpubs)
        invariant forall id :: id in accounts <==> id in old(accounts) || id in ids[..k]
      {
        ResurrectOne(ids[k]);
      }
    }

    method ResurrectOne(id: Id)
      requires Inv(Abs())
      modifies this`accounts, this`addresses
      ensures Inv(Abs()) && accounts.Keys == old(accounts).Keys + {id}
      ensures Abs() == if id.Flat? then AddFlat(old(Abs()), id) else AddScope(old(Abs()), id)
    {
      AddScopeInv(Abs(), id);
      ScopeOrder(Abs(), id);
      StateForScope(id);
      var ok := ExtendScanAddresses(id, false);
      if id.Flat? {
        return;
      }
      ok := ExtendScanAddresses(id, true);
    }

    /** Watch the addresses again after loading the saved branches: every branch up to and including
        its horizon. */
    method RestoreAddresses()
      requires forall id :: id in accounts ==> ScopeReady(id, accounts[id])
      requires xpubs.Some? ==> Ready(xpubs.value, ACCT_RECOVERY_WINDOW) && AllDerived(accounts, xpubs.value.horizon)
      requires addresses == {}
      modifies this`addresses
      ensures Inv(Abs()) && Restored(addresses, accounts, {})
    {
      var rest := accounts.Keys;
      while rest != {}
        invariant rest <= accounts.Keys
        invariant Restored(addresses, accounts, rest)
        decreases |rest|
      {
        ghost var some := SomeKey(rest);
        assert some in rest;
        var id :| id in rest;
        RestoredMore(addresses, accounts, rest, id);
        WatchFrom(id, true, 1, accounts[id].internal.horizon + 1);
        WatchFrom(id, false, 1, accounts[id].external.horizon + 1);
        rest := rest - {id};
      }
      RestoredAll(Abs());
    }
  }

  lemma {:induction false} WatchOneMore(id: Id, change: bool, lo: nat, i: nat)
    requires lo <= i
    ensures Watch(id, change, lo, i + 1) == Watch(id, change, lo, i) + {Program(id, change, i)}
  {
  }
}
