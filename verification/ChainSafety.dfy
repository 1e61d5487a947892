/** What every run of block and signature steps keeps. */
module ChainSafety {
  import opened Options
  import opened BlockTree
  import opened Quorum
  import opened ChainState

  // ----- the invariant

  ghost predicate NoDoubleSign(env: Env, t: Tree, sigs: Signatures)
    requires sigs.Keys == t.Keys
  {
    forall a, b, k {:trigger SignedBy(env, t, sigs, a, k), SignedBy(env, t, sigs, b, k)} ::
      a in t && b in t && a != b && t[a].height == t[b].height ==>
        !(SignedBy(env, t, sigs, a, k) && SignedBy(env, t, sigs, b, k))
  }

  /** The index lists exactly the ancestors of the best block. */
  ghost predicate IndexExact(t: Tree, g: Hash, index: map<nat, Hash>, best: Hash)
    requires Rooted(t, g) && best in t
  {
    && (forall n: nat :: n in index <==> n <= t[best].height)
    && forall n: nat :: n in index ==> index[n] == Ancestor(t, g, best, n)
  }

  ghost predicate Inv(env: Env, st: State) {
    && Stored(env, st)
    && NoDoubleSign(env, st.tree, st.signatures)
    && IndexExact(st.tree, env.genesis, st.index, st.best)
    && InMainChain(st.tree, st.index, st.irr)
    && (st.irr == env.genesis || Irreversible(env, st.tree, st.signatures, st.irr))
  }

  // ----- signatures

  /** `r` holds every signature of `s`, on the same blocks. */
  ghost predicate MoreSigned(s: Signatures, r: Signatures) {
    s.Keys == r.Keys && forall h :: h in s ==> s[h].Keys <= r[h].Keys
  }

  lemma {:induction false} StaysIrreversible(env: Env, t: Tree, s: Signatures, r: Signatures, h: Hash)
    requires MoreSigned(s, r) && h in t && h in s && Irreversible(env, t, s, h)
    ensures Irreversible(env, t, r, h)
  {
    EnoughGrows(s[h], r[h], |env.nodes(t[h].prev)|);
  }

  /** A signature by a key with no rival block keeps the store free of double signs. */
  lemma {:induction false} AddSignatureSafe(env: Env, t: Tree, sigs: Signatures, h: Hash, k: Key, s: Sig)
    requires GoodEnv(env) && sigs.Keys == t.Keys && NoDoubleSign(env, t, sigs)
    requires h in t && t[h].prev in t && k in env.nodes(t[h].prev)
    requires !DoubleSigned(env, t, sigs, h, t[h].height, k)
    ensures MoreSigned(sigs, AddSignature(env, t, sigs, h, k, s))
    ensures NoDoubleSign(env, t, AddSignature(env, t, sigs, h, k, s))
  {
    var r := AddSignature(env, t, sigs, h, k, s);
    assert Ordered(env.nodes(t[h].prev));
    forall x, l | x in t && SignedBy(env, t, r, x, l)
      ensures SignedBy(env, t, sigs, x, l) || (x == h && l == k)
    {
    }
  }

  lemma {:induction false} SignSelfSafe(env: Env, t: Tree, sigs: Signatures, h: Hash)
    requires GoodEnv(env) && sigs.Keys == t.Keys && NoDoubleSign(env, t, sigs) && h in t
    ensures MoreSigned(sigs, SignSelf(env, t, sigs, h)) && NoDoubleSign(env, t, SignSelf(env, t, sigs, h))
  {
    if WillSign(env, t, sigs, h) {
      AddSignatureSafe(env, t, sigs, h, env.self, env.sign(h));
    }
  }

  lemma {:induction false} SignAllSafe(env: Env, t: Tree, sigs: Signatures, hs: seq<Hash>)
    requires GoodEnv(env) && sigs.Keys == t.Keys && NoDoubleSign(env, t, sigs)
    requires AllStored(t, hs)
    ensures MoreSigned(sigs, SignAll(env, t, sigs, hs)) && NoDoubleSign(env, t, SignAll(env, t, sigs, hs))
    decreases |hs|
  {
    if hs != [] {
      SignAllSafe(env, t, sigs, hs[..|hs| - 1]);
      SignSelfSafe(env, t, SignAll(env, t, sigs, hs[..|hs| - 1]), hs[|hs| - 1]);
    }
  }

  /** More signatures alone keep the invariant. */
  lemma {:induction false} SignedKeepsInv(env: Env, st: State, r: State)
    requires Inv(env, st) && MoreSigned(st.signatures, r.signatures) && r == st.(signatures := r.signatures)
    requires NoDoubleSign(env, st.tree, r.signatures)
    ensures Inv(env, r)
  {
    if st.irr != env.genesis {
      StaysIrreversible(env, st.tree, st.signatures, r.signatures, st.irr);
    }
  }

  // ----- the main-chain index

  lemma {:induction false} WriteIndexBranch(t: Tree, g: Hash, index: map<nat, Hash>, h: Hash, lo: nat, n: nat)
    requires Rooted(t, g) && h in t && lo <= t[h].height
    ensures var r := WriteIndex(t, index, Branch(t, g, h, lo));
            && (n in r <==> n in index || lo < n <= t[h].height)
            && (n in r ==> r[n] == if lo < n <= t[h].height then Ancestor(t, g, h, n) else index[n])
    decreases t[h].height
  {
    if t[h].height != lo {
      assert Linked(t, g, h);
      var s := Branch(t, g, h, lo);
      assert s[..|s| - 1] == Branch(t, g, t[h].prev, lo);
      WriteIndexBranch(t, g, index, t[h].prev, lo, n);
    }
  }

  /** Writing the branch from the fork point up to `target` and dropping what lies above
      makes an exact index exact again, also when `target` is lower than the old best block. */
  lemma {:induction false} ReindexExact(t: Tree, g: Hash, index: map<nat, Hash>, best: Hash, target: Hash)
    requires Rooted(t, g) && best in t && target in t && IndexExact(t, g, index, best)
    ensures var attach := Branch(t, g, target, ForkHeight(t, g, target, best));
            IndexExact(t, g, DropIndex(WriteIndex(t, index, attach), t[target].height, t[best].height), target)
  {
    var f := ForkHeight(t, g, target, best);
    var r := DropIndex(WriteIndex(t, index, Branch(t, g, target, f)), t[target].height, t[best].height);
    forall n: nat
      ensures n in r <==> n <= t[target].height
      ensures n in r ==> r[n] == Ancestor(t, g, target, n)
    {
      WriteIndexBranch(t, g, index, target, f, n);
      if n <= f {
        ForkIsLowestCommonAncestor(t, g, target, best, n);
      }
    }
  }

  // ----- moving the best block

  lemma {:induction false} BranchRises(t: Tree, g: Hash, h: Hash, lo: nat)
    requires Rooted(t, g) && h in t && lo <= t[h].height
    ensures var s := Branch(t, g, h, lo);
            && (forall x :: x in s <==> x in t && lo < t[x].height <= t[h].height && x == Ancestor(t, g, h, t[x].height))
            && (forall i, j :: 0 <= i < j < |s| ==> t[s[i]].height < t[s[j]].height)
  {
    BranchAt(t, g, h, lo);
    var s := Branch(t, g, h, lo);
    forall x | x in t && lo < t[x].height <= t[h].height && x == Ancestor(t, g, h, t[x].height)
      ensures x in s
    {
      assert s[t[x].height - lo - 1] == x;
    }
  }

  /** The raised block is the highest irreversible one among those attached, or the old one
      when none is higher. */
  lemma {:induction false} RaiseIrrIsHighest(env: Env, t: Tree, sigs: Signatures, hs: seq<Hash>, irr: Hash)
    requires sigs.Keys == t.Keys && irr in t && AllStored(t, hs)
    requires forall i, j :: 0 <= i < j < |hs| ==> t[hs[i]].height < t[hs[j]].height
    ensures var r := RaiseIrr(env, t, sigs, hs, irr);
            && t[r].height >= t[irr].height
            && (r == irr || (r in hs && Irreversible(env, t, sigs, r) && t[r].height > t[irr].height))
            && forall h :: h in hs && Irreversible(env, t, sigs, h) ==> t[h].height <= t[r].height
    decreases |hs|
  {
    if hs != [] {
      RaiseIrrIsHighest(env, t, sigs, hs[..|hs| - 1], irr);
    }
  }

  /** A state reached from `st` by switching the main chain to `target`. */
  ghost predicate Switched(env: Env, st: State, target: Hash, r: State)
    requires Stored(env, st) && Stored(env, r) && target in st.tree
  {
    var t, f := st.tree, ForkHeight(st.tree, env.genesis, target, st.best);
    && r.best == target && r.tree == t
    && MoreSigned(st.signatures, r.signatures)
    && (if r.irr == st.irr then f == t[st.best].height || t[st.irr].height <= f
        else Irreversible(env, t, r.signatures, r.irr) && t[st.irr].height < t[r.irr].height && f < t[r.irr].height)
    && (forall h :: h in t && f < t[h].height && IsAncestor(t, env.genesis, h, target) && Irreversible(env, t, r.signatures, h)
          ==> t[h].height <= t[r.irr].height)
  }

  /** A branch may replace the main chain when it leaves the irreversible block in place or
      holds a higher irreversible block. */
  ghost predicate MayReplace(env: Env, st: State, target: Hash)
    requires Stored(env, st) && target in st.tree
  {
    var t, f := st.tree, ForkHeight(st.tree, env.genesis, target, st.best);
    || t[st.irr].height <= f
    || exists h :: h in t && f < t[h].height && t[st.irr].height < t[h].height
                   && IsAncestor(t, env.genesis, h, target) && Irreversible(env, t, st.signatures, h)
  }

  lemma {:induction false} SetStateSafe(env: Env, st: State, target: Hash, irr: Hash)
    requires Inv(env, st) && target in st.tree
    requires irr in st.tree && (irr == st.irr || Irreversible(env, st.tree, st.signatures, irr))
    requires var f := ForkHeight(st.tree, env.genesis, target, st.best);
             var attach := Branch(st.tree, env.genesis, target, f);
             ((irr == st.irr && st.tree[irr].height <= f) || irr in attach)
    ensures var attach := Branch(st.tree, env.genesis, target, ForkHeight(st.tree, env.genesis, target, st.best));
            Inv(env, SetState(st, target, irr, attach))
  {
    var t, g := st.tree, env.genesis;
    var f := ForkHeight(t, g, target, st.best);
    ReindexExact(t, g, st.index, st.best, target);
    BranchRises(t, g, target, f);
    ForkIsLowestCommonAncestor(t, g, target, st.best, f);
    if t[irr].height <= f {
      ForkIsLowestCommonAncestor(t, g, target, st.best, t[irr].height);
    }
  }

  lemma {:induction false} IrrBelowBest(env: Env, st: State)
    requires Inv(env, st)
    ensures st.tree[st.irr].height <= st.tree[st.best].height
  {
  }

  /** Refusal in terms of the fork height. */
  lemma {:induction false} RefusedIff(t: Tree, g: Hash, best: Hash, f: nat, oldIrr: Hash, newIrr: Hash)
    requires Rooted(t, g) && best in t && oldIrr in t && newIrr in t && f <= t[best].height
    ensures Refused(t, Unwind(t, g, best, f), oldIrr, newIrr) <==>
              f < t[best].height && f < t[oldIrr].height && t[newIrr].height <= t[oldIrr].height
  {
    UnwindAt(t, g, best, f);
  }

  /** What attaching the branch from height `f` up to `target` does to the irreversible block. */
  lemma {:induction false} RaiseIrrOnBranch(env: Env, t: Tree, sigs: Signatures, target: Hash, f: nat, irr: Hash)
    requires Rooted(t, env.genesis) && sigs.Keys == t.Keys && target in t && f <= t[target].height && irr in t
    ensures var r := RaiseIrr(env, t, sigs, Branch(t, env.genesis, target, f), irr);
            && (r == irr || (r in Branch(t, env.genesis, target, f) && Irreversible(env, t, sigs, r)
                             && t[r].height > t[irr].height && f < t[r].height))
            && forall h :: h in t && f < t[h].height && IsAncestor(t, env.genesis, h, target) && Irreversible(env, t, sigs, h)
                 ==> t[h].height <= t[r].height
  {
    var attach := Branch(t, env.genesis, target, f);
    BranchRises(t, env.genesis, target, f);
    RaiseIrrIsHighest(env, t, sigs, attach, irr);
    forall h | h in t && f < t[h].height && IsAncestor(t, env.genesis, h, target) && Irreversible(env, t, sigs, h)
      ensures t[h].height <= t[RaiseIrr(env, t, sigs, attach, irr)].height
    {
      assert h in attach;
    }
  }

  /** The completed case: the signed branch is not refused and becomes the main chain. */
  lemma {:induction false} CompletedSwitch(env: Env, st: State, target: Hash, sigs: Signatures, irr: Hash, f: nat)
    requires GoodEnv(env) && Inv(env, st) && target in st.tree && f == ForkHeight(st.tree, env.genesis, target, st.best)
    requires MoreSigned(st.signatures, sigs) && NoDoubleSign(env, st.tree, sigs)
    requires irr == RaiseIrr(env, st.tree, sigs, Branch(st.tree, env.genesis, target, f), st.irr)
    requires !Refused(st.tree, Unwind(st.tree, env.genesis, st.best, f), st.irr, irr)
    ensures var r := SetState(st.(signatures := sigs), target, irr, Branch(st.tree, env.genesis, target, f));
            Inv(env, r) && Switched(env, st, target, r)
  {
    SignedKeepsInv(env, st, st.(signatures := sigs));
    RaiseIrrOnBranch(env, st.tree, sigs, target, f, st.irr);
    RefusedIff(st.tree, env.genesis, st.best, f, st.irr, irr);
    IrrBelowBest(env, st);
    SetStateSafe(env, st.(signatures := sigs), target, irr);
  }

  /** A branch that may replace the main chain is not refused. */
  lemma {:induction false} MayReplaceNotRefused(env: Env, st: State, target: Hash, sigs: Signatures, f: nat)
    requires Inv(env, st) && target in st.tree && f == ForkHeight(st.tree, env.genesis, target, st.best)
    requires MoreSigned(st.signatures, sigs) && MayReplace(env, st, target)
    ensures !Refused(st.tree, Unwind(st.tree, env.genesis, st.best, f), st.irr,
                     RaiseIrr(env, st.tree, sigs, Branch(st.tree, env.genesis, target, f), st.irr))
  {
    var t, g := st.tree, env.genesis;
    RaiseIrrOnBranch(env, t, sigs, target, f, st.irr);
    RefusedIff(t, g, st.best, f, st.irr, RaiseIrr(env, t, sigs, Branch(t, g, target, f), st.irr));
    if t[st.irr].height > f {
      var h :| h in t && f < t[h].height && t[st.irr].height < t[h].height
               && IsAncestor(t, g, h, target) && Irreversible(env, t, st.signatures, h);
      StaysIrreversible(env, t, st.signatures, sigs, h);
    }
  }

  /** A reorganisation keeps the invariant; it either only adds this node's signatures or
      switches the main chain, and it does switch when nothing fails and the branch may replace. */
  lemma {:induction false} ReorganizeSafe(env: Env, st: State, target: Hash, fail: Option<nat>)
    requires GoodEnv(env) && Inv(env, st) && target in st.tree
    ensures var r := Reorganize(env, st, target, fail);
            && Inv(env, r)
            && MoreSigned(st.signatures, r.signatures)
            && (r == st.(signatures := r.signatures) || (fail.None? && Switched(env, st, target, r)))
            && (fail.None? && MayReplace(env, st, target) ==> Switched(env, st, target, r))
  {
    var t, g := st.tree, env.genesis;
    var f := ForkHeight(t, g, target, st.best);
    var attach := Branch(t, g, target, f);
    var r := Reorganize(env, st, target, fail);
    if fail.Some? && fail.value < |attach| {
      SignAllSafe(env, t, st.signatures, attach[..fail.value]);
      SignedKeepsInv(env, st, r);
    } else {
      var sigs := SignAll(env, t, st.signatures, attach);
      var irr := RaiseIrr(env, t, sigs, attach, st.irr);
      SignAllSafe(env, t, st.signatures, attach);
      SignedKeepsInv(env, st, st.(signatures := sigs));
      if fail.None? && MayReplace(env, st, target) {
        MayReplaceNotRefused(env, st, target, sigs, f);
      }
      if fail.None? && !Refused(t, Unwind(t, g, st.best, f), st.irr, irr) {
        CompletedSwitch(env, st, target, sigs, irr, f);
      }
    }
  }

  // ----- one step

  /** The irreversible block never gets lower, and a main-chain block at or below it is
      detached only for a main chain with a strictly higher irreversible block. */
  ghost predicate Final(st: State, r: State)
    requires st.irr in st.tree && r.irr in r.tree
  {
    && st.tree[st.irr].height <= r.tree[r.irr].height
    && forall n: nat :: n in st.index && n <= st.tree[st.irr].height ==>
         n in r.index && (r.index[n] == st.index[n] || st.tree[st.irr].height < r.tree[r.irr].height)
  }

  lemma {:induction false} SaveKeepsStore(env: Env, st: State, h: Hash, b: Block, r: State)
    requires Stored(env, st) && h !in st.tree && b.prev in st.tree && b.height == st.tree[b.prev].height + 1
    requires h in r.signatures
    requires r == st.(tree := st.tree[h := b], signatures := st.signatures[h := r.signatures[h]],
                      levels := st.levels[b.height := Level(st.levels, b.height) + [h]])
    ensures Stored(env, r)
  {
    forall x | x in r.tree ensures Linked(r.tree, env.genesis, x) {
      if x != h {
        assert Linked(st.tree, env.genesis, x);
      }
    }
    SaveKeepsLevels(st.tree, st.levels, h, b);
  }

  lemma {:induction false} SaveKeepsLevels(t: Tree, levels: map<nat, seq<Hash>>, h: Hash, b: Block)
    requires LevelsExact(t, levels) && h !in t
    ensures LevelsExact(t[h := b], levels[b.height := Level(levels, b.height) + [h]])
  {
    var r := levels[b.height := Level(levels, b.height) + [h]];
    forall x, n ensures x in Level(r, n) <==> x in t[h := b] && t[h := b][x].height == n {
      assert x in Level(levels, n) <==> x in t && t[x].height == n;
    }
    forall n ensures Distinct(Level(r, n)) {
      LevelAt(t, levels, n);
      assert Distinct(Level(levels, n));
    }
  }

  lemma {:induction false} SaveKeepsSigns(env: Env, st: State, h: Hash, b: Block, w: Witness, cached: map<Key, Sig>, v: Witness)
    requires Stored(env, st) && NoDoubleSign(env, st.tree, st.signatures)
    requires h !in st.tree && b.prev in st.tree && 0 < b.height
    requires Validated(env, st.tree, st.signatures, h, b, w, cached, v)
    ensures NoDoubleSign(env, st.tree[h := b], st.signatures[h := v])
  {
    var t, sigs := st.tree[h := b], st.signatures[h := v];
    forall x, k | x in st.tree && 0 < t[x].height && SignedBy(env, t, sigs, x, k)
      ensures SignedBy(env, st.tree, st.signatures, x, k)
    {
      assert Linked(st.tree, env.genesis, x);
    }
    forall k | SignedBy(env, t, sigs, h, k)
      ensures !DoubleSigned(env, st.tree, st.signatures, h, b.height, k)
    {
      assert k in env.nodes(b.prev);
    }
    forall x | x in st.tree && st.tree[x].height == 0 ensures x == env.genesis {
      assert Linked(st.tree, env.genesis, x);
    }
  }

  lemma {:induction false} SaveSafe(env: Env, st: State, h: Hash, b: Block, w: Witness, cached: map<Key, Sig>, r: State)
    requires Inv(env, st) && SaveStep(env, st, h, b, w, cached, r)
    ensures Inv(env, r) && Final(st, r)
  {
    if Savable(env, st, h, b, w, cached) {
      SaveKeepsStore(env, st, h, b, r);
      SaveKeepsSigns(env, st, h, b, w, cached, r.signatures[h]);
      forall n: nat | n <= st.tree[st.best].height
        ensures Ancestor(r.tree, env.genesis, st.best, n) == Ancestor(st.tree, env.genesis, st.best, n)
      {
        AncestorGrow(st.tree, r.tree, env.genesis, st.best, n);
      }
    }
  }

  /** After a switch the main chain still has every block up to the fork. */
  lemma {:induction false} SwitchedFinal(env: Env, st: State, target: Hash, r: State)
    requires Inv(env, st) && Inv(env, r) && target in st.tree && Switched(env, st, target, r)
    ensures Final(st, r)
  {
    var t, g := st.tree, env.genesis;
    var f := ForkHeight(t, g, target, st.best);
    IrrBelowBest(env, r);
    forall n: nat | n in st.index && n <= t[st.irr].height
      ensures n in r.index && (r.index[n] == st.index[n] || t[st.irr].height < t[r.irr].height)
    {
      if r.irr == st.irr && n <= f {
        ForkIsLowestCommonAncestor(t, g, target, st.best, n);
      }
    }
  }

  lemma {:induction false} MoveSafe(env: Env, st: State, target: Hash, fail: Option<nat>, r: State)
    requires GoodEnv(env) && Inv(env, st) && MoveStep(env, st, target, fail, r)
    ensures Inv(env, r) && Final(st, r)
  {
    if r != st {
      ReorganizeSafe(env, st, target, fail);
      if Switched(env, st, target, r) {
        SwitchedFinal(env, st, target, r);
      }
    }
  }

  /** Recording a signature that was taken keeps the invariant. */
  lemma {:induction false} TakenSafe(env: Env, st: State, h: Hash, k: Key, s: Sig)
    requires GoodEnv(env) && Inv(env, st) && SignatureTaken(env, st, h, k, s)
    ensures Inv(env, st.(signatures := AddSignature(env, st.tree, st.signatures, h, k, s)))
    ensures MoreSigned(st.signatures, AddSignature(env, st.tree, st.signatures, h, k, s))
  {
    AddSignatureSafe(env, st.tree, st.signatures, h, k, s);
    SignedKeepsInv(env, st, st.(signatures := AddSignature(env, st.tree, st.signatures, h, k, s)));
  }

  lemma {:induction false} SignatureSafe(env: Env, st: State, h: Hash, k: Key, s: Sig, tail: Hash, fail: Option<nat>, r: State)
    requires GoodEnv(env) && Inv(env, st) && SignatureStep(env, st, h, k, s, tail, fail, r)
    ensures Inv(env, r) && Final(st, r)
  {
    if SignatureTaken(env, st, h, k, s) && fail != Some(0) {
      TakenSafe(env, st, h, k, s);
      var mid := st.(signatures := AddSignature(env, st.tree, st.signatures, h, k, s));
      if Irreversible(env, st.tree, mid.signatures, h) && st.tree[h].height > st.tree[st.irr].height
         && !InMainChain(st.tree, st.index, h) {
        SwitchSafe(env, mid, tail, AfterHeader(fail), r);
      }
    }
  }

  /** A switch to a stored tail, carried out or given up, is safe. */
  lemma {:induction false} SwitchSafe(env: Env, st: State, tail: Hash, fail: Option<nat>, r: State)
    requires GoodEnv(env) && Inv(env, st) && tail in st.tree && r == Reorganize(env, st, tail, fail)
    ensures Inv(env, r) && Final(st, r)
  {
    ReorganizeSafe(env, st, tail, fail);
    if Switched(env, st, tail, r) {
      SwitchedFinal(env, st, tail, r);
    }
  }

  lemma {:induction false} StepSafe(env: Env, st: State, e: Event, r: State)
    requires GoodEnv(env) && Inv(env, st) && Step(env, st, e, r)
    ensures Inv(env, r) && Final(st, r)
  {
    match e
    case Save(h, b, w, cached) => SaveSafe(env, st, h, b, w, cached, r);
    case Move(target, fail) => MoveSafe(env, st, target, fail, r);
    case Signature(h, k, s, tail, fail) => SignatureSafe(env, st, h, k, s, tail, fail, r);
  }

  // ----- whole runs

  /** A sequence of states, each related to the next by an event. */
  ghost predicate Follows<S, E>(rel: (S, E, S) -> bool, states: seq<S>, events: seq<E>) {
    && |states| == |events| + 1
    && forall i :: 0 <= i < |events| ==> rel(states[i], events[i], states[i + 1])
  }

  lemma {:induction false} FollowsAppend<S, E>(rel: (S, E, S) -> bool, states: seq<S>, events: seq<E>, e: E, r: S)
    requires Follows(rel, states, events) && rel(states[|events|], e, r)
    ensures Follows(rel, states + [r], events + [e])
  {
  }

  /** The steps of a chain as a relation. */
  ghost function StepRel(env: Env): (rel: (State, Event, State) -> bool) {
    (st, e, r) => Stored(env, st) && Step(env, st, e, r)
  }

  ghost predicate Steps(env: Env, states: seq<State>, events: seq<Event>) {
    Follows(StepRel(env), states, events)
  }

  /** Steps that start with the genesis chain. */
  ghost predicate Run(env: Env, states: seq<State>, events: seq<Event>) {
    && Steps(env, states, events)
    && exists timestamp, prev, w :: states[0] == Initial(env, timestamp, prev, w)
  }

  lemma {:induction false} InitialSafe(env: Env, timestamp: nat, prev: Hash, w: Witness)
    ensures Inv(env, Initial(env, timestamp, prev, w))
  {
    var st := Initial(env, timestamp, prev, w);
    assert Linked(st.tree, env.genesis, env.genesis);
  }

  lemma {:induction false} StepsSafe(env: Env, states: seq<State>, events: seq<Event>, i: nat)
    requires GoodEnv(env) && Steps(env, states, events) && Inv(env, states[0]) && i < |states|
    ensures Inv(env, states[i])
    decreases i
  {
    if i > 0 {
      StepsSafe(env, states, events, i - 1);
      assert StepRel(env)(states[i - 1], events[i - 1], states[i]);
      StepSafe(env, states[i - 1], events[i - 1], states[i]);
    }
  }

  /** Every reachable state satisfies the invariant: no key has signed two stored blocks of one
      height, the index holds exactly the best block's ancestors, and the last irreversible
      block is on the main chain. */
  lemma {:induction false} ReachableSafe(env: Env, states: seq<State>, events: seq<Event>, i: nat)
    requires GoodEnv(env) && Run(env, states, events) && i < |states|
    ensures Inv(env, states[i])
  {
    var timestamp, prev, w :| states[0] == Initial(env, timestamp, prev, w);
    InitialSafe(env, timestamp, prev, w);
    StepsSafe(env, states, events, i);
  }

  /** Both states are safe and nothing final is lost from the first to the second. */
  ghost predicate SafeLater(env: Env, st: State, r: State) {
    Inv(env, st) && Inv(env, r) && Final(st, r)
  }

  lemma {:induction false} SafeLaterTransitive(env: Env, st: State, r: State, q: State)
    requires SafeLater(env, st, r) && SafeLater(env, r, q)
    ensures SafeLater(env, st, q)
  {
    IrrBelowBest(env, r);
  }

  lemma {:induction false} SafeLaterChain(env: Env, states: seq<State>)
    requires 2 <= |states|
    requires forall k :: 0 < k < |states| ==> SafeLater(env, states[k - 1], states[k])
    ensures SafeLater(env, states[0], states[|states| - 1])
    decreases |states|
  {
    var n := |states| - 1;
    assert SafeLater(env, states[n - 1], states[n]);
    if n > 1 {
      var front := states[..n];
      SafeLaterChain(env, front);
      SafeLaterTransitive(env, states[0], states[n - 1], states[n]);
    }
  }

  lemma {:induction false} StepSafeLater(env: Env, states: seq<State>, events: seq<Event>, i: nat)
    requires GoodEnv(env) && Steps(env, states, events) && Inv(env, states[0]) && i < |events|
    ensures SafeLater(env, states[i], states[i + 1])
  {
    StepsSafe(env, states, events, i);
    assert StepRel(env)(states[i], events[i], states[i + 1]);
    StepSafe(env, states[i], events[i], states[i + 1]);
  }

  /** Finality over any steps from a state with the invariant. */
  lemma {:induction false} StepsFinal(env: Env, states: seq<State>, events: seq<Event>, i: nat, j: nat)
    requires GoodEnv(env) && Steps(env, states, events) && Inv(env, states[0]) && i < j < |states|
    ensures SafeLater(env, states[i], states[j])
  {
    var part := states[i..j + 1];
    forall k | 0 < k < |part| ensures SafeLater(env, part[k - 1], part[k]) {
      StepSafeLater(env, states, events, i + k - 1);
    }
    SafeLaterChain(env, part);
  }

  /** Finality between any two moments of a run. */
  lemma {:induction false} RunFinal(env: Env, states: seq<State>, events: seq<Event>, i: nat, j: nat)
    requires GoodEnv(env) && Run(env, states, events) && i < j < |states|
    ensures SafeLater(env, states[i], states[j])
  {
    ReachableSafe(env, states, events, 0);
    StepsFinal(env, states, events, i, j);
  }

  /** Two different stored blocks of one height under the same consensus nodes are never both
      past the two-thirds mark. */
  lemma {:induction false} NeverBothIrreversible(env: Env, states: seq<State>, events: seq<Event>, i: nat, a: Hash, b: Hash)
    requires GoodEnv(env) && Run(env, states, events) && i < |states|
    requires a in states[i].tree && b in states[i].tree && a != b
    requires states[i].tree[a].height == states[i].tree[b].height
    requires env.nodes(states[i].tree[a].prev) == env.nodes(states[i].tree[b].prev)
    ensures Inv(env, states[i])
    ensures !(Irreversible(env, states[i].tree, states[i].signatures, a) && Irreversible(env, states[i].tree, states[i].signatures, b))
  {
    ReachableSafe(env, states, events, i);
    var t, sigs := states[i].tree, states[i].signatures;
    if Irreversible(env, t, sigs, a) && Irreversible(env, t, sigs, b) {
      var nodes := env.nodes(t[a].prev);
      var o := QuorumsIntersect(sigs[a], sigs[b], |nodes|);
      assert Ordered(nodes);
      assert o in Orders(|nodes|);
      var k :| k in nodes && nodes[k] == o;
      assert SignedBy(env, t, sigs, a, k) && SignedBy(env, t, sigs, b, k);
    }
  }

  /** A fork block that passes the two-thirds mark above the last irreversible block wins:
      when nothing fails, the new best block is a highest stored descendant of it, the main
      chain contains it, and the irreversible block is at least as high. */
  lemma {:induction false} ForkBlockWins(env: Env, st: State, h: Hash, k: Key, s: Sig, tail: Hash, r: State)
    requires GoodEnv(env) && Inv(env, st) && SignatureTaken(env, st, h, k, s)
    requires Irreversible(env, st.tree, AddSignature(env, st.tree, st.signatures, h, k, s), h)
    requires st.tree[st.irr].height < st.tree[h].height && !InMainChain(st.tree, st.index, h)
    requires SignatureStep(env, st, h, k, s, tail, None, r)
    ensures Inv(env, r) && r.tree == st.tree
    ensures IsAncestor(r.tree, env.genesis, h, r.best)
    ensures forall x :: x in r.tree && IsAncestor(r.tree, env.genesis, h, x) ==> r.tree[x].height <= r.tree[r.best].height
    ensures InMainChain(r.tree, r.index, h)
    ensures r.tree[h].height <= r.tree[r.irr].height
    ensures IsAncestor(r.tree, env.genesis, h, r.irr)
  {
    var t, g := st.tree, env.genesis;
    TakenSafe(env, st, h, k, s);
    var mid := st.(signatures := AddSignature(env, t, st.signatures, h, k, s));
    var f := ForkHeight(t, g, tail, st.best);
    AboveFork(env, mid, h, tail);
    assert MayReplace(env, mid, tail);
    ReorganizeSafe(env, mid, tail, None);
    StaysIrreversible(env, t, mid.signatures, r.signatures, h);
    AncestorCompose(t, g, tail, t[r.irr].height, t[h].height);
  }

  /** A block off the main chain lies above the fork of any of its descendants. */
  lemma {:induction false} AboveFork(env: Env, st: State, h: Hash, tail: Hash)
    requires Inv(env, st) && h in st.tree && tail in st.tree
    requires !InMainChain(st.tree, st.index, h) && IsAncestor(st.tree, env.genesis, h, tail)
    ensures ForkHeight(st.tree, env.genesis, tail, st.best) < st.tree[h].height
  {
    if st.tree[h].height <= ForkHeight(st.tree, env.genesis, tail, st.best) {
      ForkIsLowestCommonAncestor(st.tree, env.genesis, tail, st.best, st.tree[h].height);
    }
  }
}
