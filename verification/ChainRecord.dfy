/** What the stored blocks and signatures vouch for, and when a message changes the chain. */
module ChainRecord {
  import opened Options
  import opened BlockTree
  import opened Quorum
  import opened ChainState
  import opened ChainSafety

  // ----- what is stored was checked

  /** This node's own signatures verify under its own key. */
  ghost predicate SignsRight(env: Env) {
    forall h {:trigger env.sign(h)} :: env.verify(env.self, h, env.sign(h))
  }

  /** The signature in the slot of key `k` on block `h` is one of `k` over `h`. */
  ghost predicate Genuine(env: Env, t: Tree, sigs: Signatures, h: Hash, k: Key)
    requires h in t && h in sigs && SignedBy(env, t, sigs, h, k)
  {
    env.verify(k, h, sigs[h][env.nodes(t[h].prev)[k]])
  }

  /** Every stored signature of a consensus node verifies. */
  ghost predicate Authentic(env: Env, t: Tree, sigs: Signatures)
    requires sigs.Keys == t.Keys
  {
    forall h, k {:trigger SignedBy(env, t, sigs, h, k)} ::
      h in t && h != env.genesis && SignedBy(env, t, sigs, h, k) ==> Genuine(env, t, sigs, h, k)
  }

  /** Block `h` is valid and carries the signature of the node whose turn it was. */
  ghost predicate Vetted(env: Env, t: Tree, sigs: Signatures, h: Hash)
    requires h in t && h in sigs
  {
    var blocker := env.blocker(t[h].prev, t[h].timestamp);
    env.valid(h, t[h]) && blocker.Some? && SignedBy(env, t, sigs, h, blocker.value)
  }

  ghost predicate AllVetted(env: Env, t: Tree, sigs: Signatures)
    requires sigs.Keys == t.Keys
  {
    forall h {:trigger Vetted(env, t, sigs, h)} :: h in t && h != env.genesis ==> Vetted(env, t, sigs, h)
  }

  /** Every stored signature verifies and every stored block was vetted. */
  ghost predicate Checked(env: Env, st: State)
    requires Stored(env, st)
  {
    Authentic(env, st.tree, st.signatures) && AllVetted(env, st.tree, st.signatures)
  }

  /** Every signature of `s` is in `r`, in the same slot and with the same value. */
  ghost predicate Keeps(s: Signatures, r: Signatures) {
    forall h, o {:trigger o in s[h]} :: h in s && o in s[h] ==> h in r && o in r[h] && r[h][o] == s[h][o]
  }

  lemma {:induction false} KeepsTransitive(s: Signatures, m: Signatures, r: Signatures)
    requires Keeps(s, m) && Keeps(m, r)
    ensures Keeps(s, r)
  {
    forall h, o | h in s && o in s[h] ensures h in r && o in r[h] && r[h][o] == s[h][o] {
      assert o in m[h];
    }
  }

  lemma {:induction false} SignAllKeeps(env: Env, t: Tree, sigs: Signatures, hs: seq<Hash>)
    requires sigs.Keys == t.Keys && AllStored(t, hs)
    ensures Keeps(sigs, SignAll(env, t, sigs, hs))
    decreases |hs|
  {
    if hs != [] {
      var front := SignAll(env, t, sigs, hs[..|hs| - 1]);
      SignAllKeeps(env, t, sigs, hs[..|hs| - 1]);
      KeepsTransitive(sigs, front, SignSelf(env, t, front, hs[|hs| - 1]));
    }
  }

  lemma {:induction false} ReorganizeKeeps(env: Env, st: State, target: Hash, fail: Option<nat>)
    requires Stored(env, st) && target in st.tree
    ensures var r := Reorganize(env, st, target, fail);
            r.tree == st.tree && Keeps(st.signatures, r.signatures)
  {
    var attach := Branch(st.tree, env.genesis, target, ForkHeight(st.tree, env.genesis, target, st.best));
    SignAllKeeps(env, st.tree, st.signatures, attach);
    if fail.Some? && fail.value < |attach| {
      SignAllKeeps(env, st.tree, st.signatures, attach[..fail.value]);
    }
  }

  lemma {:induction false} AddKeeps(env: Env, t: Tree, sigs: Signatures, h: Hash, k: Key, s: Sig)
    requires h in t && h in sigs && k in env.nodes(t[h].prev) && env.nodes(t[h].prev)[k] !in sigs[h]
    ensures Keeps(sigs, AddSignature(env, t, sigs, h, k, s))
  {
  }

  lemma {:induction false} SignatureKeeps(env: Env, st: State, h: Hash, k: Key, s: Sig, tail: Hash, fail: Option<nat>, r: State)
    requires Stored(env, st) && SignatureStep(env, st, h, k, s, tail, fail, r)
    ensures r.tree == st.tree && Keeps(st.signatures, r.signatures)
  {
    if SignatureTaken(env, st, h, k, s) && fail != Some(0) {
      var mid := st.(signatures := AddSignature(env, st.tree, st.signatures, h, k, s));
      AddKeeps(env, st.tree, st.signatures, h, k, s);
      if Irreversible(env, st.tree, mid.signatures, h) && st.tree[h].height > st.tree[st.irr].height
         && !InMainChain(st.tree, st.index, h) {
        ReorganizeKeeps(env, mid, tail, AfterHeader(fail));
        KeepsTransitive(st.signatures, mid.signatures, r.signatures);
      }
    }
  }

  lemma {:induction false} StepKeeps(env: Env, st: State, e: Event, r: State)
    requires Stored(env, st) && Step(env, st, e, r)
    ensures Keeps(st.signatures, r.signatures)
  {
    match e
    case Save(h, b, w, cached) =>
    case Move(target, fail) =>
      if r != st {
        ReorganizeKeeps(env, st, target, fail);
      }
    case Signature(h, k, s, tail, fail) => SignatureKeeps(env, st, h, k, s, tail, fail, r);
  }

  /** A stored signature stays where it is, unchanged, over any steps. */
  lemma {:induction false} StepsKeep(env: Env, states: seq<State>, events: seq<Event>, i: nat, j: nat)
    requires Steps(env, states, events) && i <= j < |states|
    ensures Keeps(states[i].signatures, states[j].signatures)
    decreases j
  {
    if i < j {
      StepsKeep(env, states, events, i, j - 1);
      assert StepRel(env)(states[j - 1], events[j - 1], states[j]);
      StepKeeps(env, states[j - 1], events[j - 1], states[j]);
      KeepsTransitive(states[i].signatures, states[j - 1].signatures, states[j].signatures);
    }
  }

  lemma {:induction false} AddGenuine(env: Env, t: Tree, sigs: Signatures, h: Hash, k: Key, s: Sig)
    requires GoodEnv(env) && sigs.Keys == t.Keys && Authentic(env, t, sigs)
    requires h in t && t[h].prev in t && k in env.nodes(t[h].prev) && env.nodes(t[h].prev)[k] !in sigs[h]
    requires env.verify(k, h, s)
    ensures var r := AddSignature(env, t, sigs, h, k, s);
            && Authentic(env, t, r)
            && SignedBy(env, t, r, h, k) && r[h][env.nodes(t[h].prev)[k]] == s
  {
    var r := AddSignature(env, t, sigs, h, k, s);
    assert Ordered(env.nodes(t[h].prev));
    forall x, l | x in t && x != env.genesis && SignedBy(env, t, r, x, l)
      ensures Genuine(env, t, r, x, l)
    {
      if x != h || l != k {
        assert SignedBy(env, t, sigs, x, l);
      }
    }
  }

  /** More signatures leave every block vetted. */
  lemma {:induction false} StaysVetted(env: Env, t: Tree, s: Signatures, r: Signatures)
    requires s.Keys == t.Keys == r.Keys && AllVetted(env, t, s) && Keeps(s, r)
    ensures AllVetted(env, t, r)
  {
    forall h | h in t && h != env.genesis ensures Vetted(env, t, r, h) {
      assert Vetted(env, t, s, h);
    }
  }

  /** This node signs a block exactly when it is a consensus node after the parent, its slot is
      empty and it has signed no other stored block of that height; the slot then holds its
      signature of the block, and nothing else changes. */
  lemma {:induction false} SignSelfExact(env: Env, t: Tree, sigs: Signatures, h: Hash)
    requires sigs.Keys == t.Keys && h in t && t[h].prev in t
    ensures var r := SignSelf(env, t, sigs, h);
            var nodes := env.nodes(t[h].prev);
            if env.self in nodes && nodes[env.self] !in sigs[h]
               && (forall b :: b in t && b != h && t[b].height == t[h].height ==> !SignedBy(env, t, sigs, b, env.self))
            then r == sigs[h := sigs[h][nodes[env.self] := env.sign(h)]]
            else r == sigs
  {
  }

  lemma {:induction false} SignAllGenuine(env: Env, t: Tree, sigs: Signatures, hs: seq<Hash>)
    requires GoodEnv(env) && SignsRight(env) && sigs.Keys == t.Keys && Authentic(env, t, sigs)
    requires AllStored(t, hs)
    ensures Authentic(env, t, SignAll(env, t, sigs, hs))
    decreases |hs|
  {
    if hs != [] {
      var front, h := SignAll(env, t, sigs, hs[..|hs| - 1]), hs[|hs| - 1];
      SignAllGenuine(env, t, sigs, hs[..|hs| - 1]);
      if WillSign(env, t, front, h) {
        AddGenuine(env, t, front, h, env.self, env.sign(h));
      }
    }
  }

  /** A reorganisation leaves the blocks as they are and only adds genuine signatures. */
  lemma {:induction false} ReorganizeChecked(env: Env, st: State, target: Hash, fail: Option<nat>)
    requires GoodEnv(env) && SignsRight(env) && Stored(env, st) && Checked(env, st) && target in st.tree
    requires Stored(env, Reorganize(env, st, target, fail))
    ensures Checked(env, Reorganize(env, st, target, fail))
  {
    var t := st.tree;
    ReorganizeKeeps(env, st, target, fail);
    var attach := Branch(t, env.genesis, target, ForkHeight(t, env.genesis, target, st.best));
    SignAllGenuine(env, t, st.signatures, attach);
    if fail.Some? && fail.value < |attach| {
      SignAllGenuine(env, t, st.signatures, attach[..fail.value]);
    }
    StaysVetted(env, t, st.signatures, Reorganize(env, st, target, fail).signatures);
  }

  /** The signatures kept with a saved block verify, its blocker's among them. */
  lemma {:induction false} SavedGenuine(env: Env, st: State, h: Hash, b: Block, w: Witness, cached: map<Key, Sig>, v: Witness)
    requires Stored(env, st) && Savable(env, st, h, b, w, cached)
    requires Validated(env, st.tree, st.signatures, h, b, w, cached, v)
    ensures forall k :: k in env.nodes(b.prev) && env.nodes(b.prev)[k] in v ==> env.verify(k, h, v[env.nodes(b.prev)[k]])
    ensures var blocker := env.blocker(b.prev, b.timestamp);
            blocker.Some? && blocker.value in env.nodes(b.prev) && env.nodes(b.prev)[blocker.value] in v
  {
    var nodes := env.nodes(b.prev);
    forall k | k in nodes && nodes[k] in v ensures env.verify(k, h, v[nodes[k]]) {
      assert SlotValidated(env, st.tree, st.signatures, h, b, w, cached, v, k);
      assert !BadSignature(env, st.tree, st.signatures, h, b, w, cached, k);
    }
    var k := env.blocker(b.prev, b.timestamp).value;
    assert SlotValidated(env, st.tree, st.signatures, h, b, w, cached, v, k);
    assert !BadSignature(env, st.tree, st.signatures, h, b, w, cached, k);
  }

  lemma {:induction false} SaveChecked(env: Env, st: State, h: Hash, b: Block, w: Witness, cached: map<Key, Sig>, r: State)
    requires Stored(env, st) && Stored(env, r) && Checked(env, st) && SaveStep(env, st, h, b, w, cached, r)
    ensures Checked(env, r)
  {
    if Savable(env, st, h, b, w, cached) {
      SavedGenuine(env, st, h, b, w, cached, r.signatures[h]);
      forall x | x in st.tree && x != env.genesis
        ensures Vetted(env, r.tree, r.signatures, x)
        ensures forall k :: SignedBy(env, r.tree, r.signatures, x, k) ==> Genuine(env, r.tree, r.signatures, x, k)
      {
        OldBlockChecked(env, st, h, x, r);
      }
    }
  }

  /** Adding a block changes nothing about the ones stored before. */
  lemma {:induction false} OldBlockChecked(env: Env, st: State, h: Hash, x: Hash, r: State)
    requires Stored(env, st) && Stored(env, r) && Checked(env, st)
    requires x in st.tree && x != env.genesis && x != h
    requires x in r.tree && r.tree[x] == st.tree[x] && r.signatures[x] == st.signatures[x]
    ensures Vetted(env, r.tree, r.signatures, x)
    ensures forall k :: SignedBy(env, r.tree, r.signatures, x, k) ==> Genuine(env, r.tree, r.signatures, x, k)
  {
    assert Linked(st.tree, env.genesis, x);
    assert Linked(r.tree, env.genesis, x);
    assert Vetted(env, st.tree, st.signatures, x);
    forall k | SignedBy(env, r.tree, r.signatures, x, k) ensures Genuine(env, r.tree, r.signatures, x, k) {
      assert SignedBy(env, st.tree, st.signatures, x, k);
    }
  }

  lemma {:induction false} TakenChecked(env: Env, st: State, h: Hash, k: Key, s: Sig)
    requires GoodEnv(env) && Inv(env, st) && Checked(env, st) && SignatureTaken(env, st, h, k, s)
    ensures var mid := st.(signatures := AddSignature(env, st.tree, st.signatures, h, k, s));
            Inv(env, mid) && Checked(env, mid)
  {
    TakenSafe(env, st, h, k, s);
    AddGenuine(env, st.tree, st.signatures, h, k, s);
    StaysVetted(env, st.tree, st.signatures, AddSignature(env, st.tree, st.signatures, h, k, s));
  }

  lemma {:induction false} SignatureChecked(env: Env, st: State, h: Hash, k: Key, s: Sig, tail: Hash, fail: Option<nat>, r: State)
    requires GoodEnv(env) && SignsRight(env) && Inv(env, st) && Checked(env, st)
    requires SignatureStep(env, st, h, k, s, tail, fail, r) && Inv(env, r)
    ensures Checked(env, r)
  {
    if SignatureTaken(env, st, h, k, s) && fail != Some(0) {
      TakenChecked(env, st, h, k, s);
      var mid := st.(signatures := AddSignature(env, st.tree, st.signatures, h, k, s));
      if Irreversible(env, st.tree, mid.signatures, h) && st.tree[h].height > st.tree[st.irr].height
         && !InMainChain(st.tree, st.index, h) {
        ReorganizeChecked(env, mid, tail, AfterHeader(fail));
      }
    }
  }

  lemma {:induction false} StepChecked(env: Env, st: State, e: Event, r: State)
    requires GoodEnv(env) && SignsRight(env) && Inv(env, st) && Checked(env, st) && Step(env, st, e, r)
    ensures Inv(env, r) && Checked(env, r)
  {
    StepSafe(env, st, e, r);
    match e
    case Save(h, b, w, cached) => SaveChecked(env, st, h, b, w, cached, r);
    case Move(target, fail) =>
      if r != st {
        ReorganizeChecked(env, st, target, fail);
      }
    case Signature(h, k, s, tail, fail) => SignatureChecked(env, st, h, k, s, tail, fail, r);
  }

  lemma {:induction false} InitialChecked(env: Env, timestamp: nat, prev: Hash, w: Witness)
    ensures Inv(env, Initial(env, timestamp, prev, w)) && Checked(env, Initial(env, timestamp, prev, w))
  {
    InitialSafe(env, timestamp, prev, w);
  }

  lemma {:induction false} StepsChecked(env: Env, states: seq<State>, events: seq<Event>, i: nat)
    requires GoodEnv(env) && SignsRight(env) && Steps(env, states, events) && i < |states|
    requires Inv(env, states[0]) && Checked(env, states[0])
    ensures Inv(env, states[i]) && Checked(env, states[i])
    decreases i
  {
    if i > 0 {
      StepsChecked(env, states, events, i - 1);
      assert StepRel(env)(states[i - 1], events[i - 1], states[i]);
      StepChecked(env, states[i - 1], events[i - 1], states[i]);
    }
  }

  /** In every state of a run each stored signature of a consensus node verifies, each block but
      the genesis block is valid and signed by its blocker. */
  lemma {:induction false} ReachableChecked(env: Env, states: seq<State>, events: seq<Event>, i: nat)
    requires GoodEnv(env) && SignsRight(env) && Run(env, states, events) && i < |states|
    ensures Inv(env, states[i]) && Checked(env, states[i])
  {
    var timestamp, prev, w :| states[0] == Initial(env, timestamp, prev, w);
    InitialChecked(env, timestamp, prev, w);
    StepsChecked(env, states, events, i);
  }

  /** An irreversible block of a run really was signed: more than two thirds of the consensus
      nodes after its parent have a signature on it that verifies. */
  lemma {:induction false} IrreversibleSigned(env: Env, states: seq<State>, events: seq<Event>, i: nat) returns (signers: set<Key>)
    requires GoodEnv(env) && SignsRight(env) && Run(env, states, events) && i < |states|
    requires states[i].irr != env.genesis
    ensures var st := states[i];
            && st.irr in st.tree && st.irr in st.signatures
            && 3 * |signers| > 2 * |env.nodes(st.tree[st.irr].prev)|
            && forall k :: k in signers ==> SignedBy(env, st.tree, st.signatures, st.irr, k) && Genuine(env, st.tree, st.signatures, st.irr, k)
  {
    ReachableChecked(env, states, events, i);
    var st := states[i];
    var nodes, w := env.nodes(st.tree[st.irr].prev), st.signatures[st.irr];
    signers := set k | k in nodes && nodes[k] in w;
    MarkExact(w, |nodes|);
    assert Ordered(nodes);
    forall o | o in SignedOrders(w, |nodes|) ensures exists k :: k in nodes && nodes[k] == o {
      assert o in Orders(|nodes|);
    }
    SignersCount(nodes, signers, SignedOrders(w, |nodes|));
    forall k | k in signers ensures SignedBy(env, st.tree, st.signatures, st.irr, k) {
    }
  }

  /** One consensus node for each signed order. */
  lemma {:induction false} SignersCount(nodes: map<Key, nat>, signers: set<Key>, orders: set<nat>)
    requires forall o :: o in orders ==> exists k :: k in nodes && nodes[k] == o
    requires forall k, l :: k in nodes && l in nodes && nodes[k] == nodes[l] ==> k == l
    requires forall k :: k in signers <==> k in nodes && nodes[k] in orders
    ensures |signers| == |orders|
    decreases orders
  {
    if orders == {} {
      assert forall k :: k !in signers;
    } else {
      var o :| o in orders;
      var k :| k in nodes && nodes[k] == o;
      SignersCount(nodes, signers - {k}, orders - {o});
    }
  }

  /** What any steps do to the record: signatures stay, and what was checked stays checked when
      this node's own signatures are right. */
  ghost predicate RecordKept(env: Env, st: State, r: State)
    requires Stored(env, st) && Stored(env, r)
  {
    Keeps(st.signatures, r.signatures) && (SignsRight(env) && Checked(env, st) ==> Checked(env, r))
  }

  lemma {:induction false} StepsKeepRecord(env: Env, states: seq<State>, events: seq<Event>, j: nat)
    requires GoodEnv(env) && Steps(env, states, events) && j < |states| && Inv(env, states[0])
    ensures Inv(env, states[j]) && RecordKept(env, states[0], states[j])
  {
    StepsSafe(env, states, events, j);
    StepsKeep(env, states, events, 0, j);
    if SignsRight(env) && Checked(env, states[0]) {
      StepsChecked(env, states, events, j);
    }
  }

  lemma {:induction false} SignatureKeepsRecord(env: Env, st: State, h: Hash, k: Key, s: Sig, tail: Hash, fail: Option<nat>, r: State)
    requires GoodEnv(env) && Inv(env, st) && SignatureStep(env, st, h, k, s, tail, fail, r)
    ensures Inv(env, r) && RecordKept(env, st, r)
  {
    SignatureSafe(env, st, h, k, s, tail, fail, r);
    SignatureKeeps(env, st, h, k, s, tail, fail, r);
    if SignsRight(env) && Checked(env, st) {
      SignatureChecked(env, st, h, k, s, tail, fail, r);
    }
  }

  // ----- when a message takes effect

  /** The main chain is the best block and its ancestors. */
  lemma {:induction false} MainChainIs(env: Env, st: State, h: Hash)
    requires Inv(env, st) && h in st.tree
    ensures InMainChain(st.tree, st.index, h) <==> IsAncestor(st.tree, env.genesis, h, st.best)
    ensures IsAncestor(st.tree, env.genesis, st.irr, st.best)
  {
  }

  /** A block is stored exactly when it is new, its parent is stored and one lower, it is valid,
      every signature that comes with it or waits for it verifies, and the node whose turn it is
      has signed it and no other stored block of its height. */
  lemma {:induction false} SavedExactly(env: Env, st: State, h: Hash, b: Block, w: Witness, cached: map<Key, Sig>, r: State)
    requires Inv(env, st) && SaveStep(env, st, h, b, w, cached, r) && h !in st.tree
    ensures Inv(env, r)
    ensures var nodes, blocker := env.nodes(b.prev), env.blocker(b.prev, b.timestamp);
            h in r.tree <==>
              && b.prev in st.tree && b.height == st.tree[b.prev].height + 1 && env.valid(h, b)
              && (forall k :: k in nodes && nodes[k] in w ==> env.verify(k, h, w[nodes[k]]))
              && (forall k :: k in nodes && nodes[k] !in w && k in cached ==> env.verify(k, h, cached[k]))
              && blocker.Some? && blocker.value in nodes && (nodes[blocker.value] in w || blocker.value in cached)
              && (forall x :: x in st.tree && st.tree[x].height == b.height
                    ==> !SignedBy(env, st.tree, st.signatures, x, blocker.value))
    ensures h in r.tree ==> r.tree == st.tree[h := b] && r.best == st.best && r.irr == st.irr && r.index == st.index
    ensures h in r.tree ==> Level(r.levels, b.height) == Level(st.levels, b.height) + [h]
    ensures h !in r.tree ==> r == st
  {
    SaveSafe(env, st, h, b, w, cached, r);
    var nodes, blocker := env.nodes(b.prev), env.blocker(b.prev, b.timestamp);
    if h in r.tree {
      forall k | k in nodes && Candidate(nodes, w, cached, k).Some?
        ensures env.verify(k, h, Candidate(nodes, w, cached, k).value)
      {
        assert !BadSignature(env, st.tree, st.signatures, h, b, w, cached, k);
      }
      assert !BadSignature(env, st.tree, st.signatures, h, b, w, cached, blocker.value);
    }
  }

  /** A signature message for a stored block is recorded exactly when its key is a consensus node
      after the parent whose slot is empty, the signature verifies, and the key has signed no
      other stored block of that height; the slot then holds that signature. */
  lemma {:induction false} RecordedExactly(env: Env, st: State, h: Hash, k: Key, s: Sig, tail: Hash, fail: Option<nat>, r: State)
    requires GoodEnv(env) && Inv(env, st) && h in st.tree && h != env.genesis
    requires SignatureStep(env, st, h, k, s, tail, fail, r) && fail != Some(0)
    ensures Inv(env, r) && r.tree == st.tree
    ensures var nodes := env.nodes(st.tree[h].prev);
            if && k in nodes && nodes[k] !in st.signatures[h] && env.verify(k, h, s)
               && forall b :: b in st.tree && b != h && st.tree[b].height == st.tree[h].height
                    ==> !SignedBy(env, st.tree, st.signatures, b, k)
            then SignedBy(env, r.tree, r.signatures, h, k) && r.signatures[h][nodes[k]] == s
            else r == st
  {
    SignatureSafe(env, st, h, k, s, tail, fail, r);
    assert Linked(st.tree, env.genesis, h);
    if SignatureTaken(env, st, h, k, s) {
      TakenRecorded(env, st, h, k, s, tail, fail, r);
    }
  }

  lemma {:induction false} TakenRecorded(env: Env, st: State, h: Hash, k: Key, s: Sig, tail: Hash, fail: Option<nat>, r: State)
    requires Stored(env, st) && Stored(env, r) && SignatureTaken(env, st, h, k, s)
    requires SignatureStep(env, st, h, k, s, tail, fail, r) && fail != Some(0)
    ensures r.tree == st.tree
    ensures SignedBy(env, r.tree, r.signatures, h, k) && r.signatures[h][env.nodes(st.tree[h].prev)[k]] == s
  {
    var mid := st.(signatures := AddSignature(env, st.tree, st.signatures, h, k, s));
    if r != mid && r != mid.(irr := h) {
      ReorganizeKeeps(env, mid, tail, AfterHeader(fail));
    }
    assert env.nodes(st.tree[h].prev)[k] in mid.signatures[h];
  }

  /** A signature that brings a main-chain block above the irreversible one past two thirds
      makes it the irreversible block. */
  lemma {:induction false} MainBlockFinal(env: Env, st: State, h: Hash, k: Key, s: Sig, tail: Hash, r: State)
    requires Inv(env, st) && h in st.tree && SignatureStep(env, st, h, k, s, tail, None, r)
    requires IsAncestor(st.tree, env.genesis, h, st.best) && st.tree[st.irr].height < st.tree[h].height
    requires r != st && 3 * |SignedOrders(r.signatures[h], |env.nodes(st.tree[h].prev)|)| > 2 * |env.nodes(st.tree[h].prev)|
    ensures r.irr == h && r.best == st.best && r.tree == st.tree && r.index == st.index
  {
    MainChainIs(env, st, h);
    MarkExact(r.signatures[h], |env.nodes(st.tree[h].prev)|);
  }

  /** The branch down from a child of the best block only extends the main chain. */
  lemma {:induction false} ChildMayReplace(env: Env, st: State, h: Hash)
    requires Inv(env, st) && h in st.tree && h != env.genesis && st.tree[h].prev == st.best
    ensures MayReplace(env, st, h)
  {
    ForkWithParent(st.tree, env.genesis, h);
    IrrBelowBest(env, st);
  }

  /** Without failure a reorganisation succeeds exactly when the branch, with this node's
      signatures on it, may replace the main chain. */
  lemma {:induction false} ReorganizeExactly(env: Env, st: State, target: Hash)
    requires GoodEnv(env) && Inv(env, st) && target in st.tree
    ensures var r := Reorganize(env, st, target, None);
            && Inv(env, r) && r.tree == st.tree
            && if MayReplace(env, st.(signatures := r.signatures), target) then r.best == target
               else r == st.(signatures := r.signatures)
  {
    var t, g := st.tree, env.genesis;
    var f := ForkHeight(t, g, target, st.best);
    var sigs := SignAll(env, t, st.signatures, Branch(t, g, target, f));
    var signed := st.(signatures := sigs);
    ReorganizeSafe(env, st, target, None);
    SignAllSafe(env, t, st.signatures, Branch(t, g, target, f));
    SignedKeepsInv(env, st, signed);
    ReplacesExactly(env, signed, target, f);
  }

  lemma {:induction false} ReplacesExactly(env: Env, st: State, target: Hash, f: nat)
    requires Inv(env, st) && target in st.tree && f == ForkHeight(st.tree, env.genesis, target, st.best)
    ensures MayReplace(env, st, target) <==>
              !Refused(st.tree, Unwind(st.tree, env.genesis, st.best, f), st.irr,
                       RaiseIrr(env, st.tree, st.signatures, Branch(st.tree, env.genesis, target, f), st.irr))
  {
    var t, g := st.tree, env.genesis;
    var irr := RaiseIrr(env, t, st.signatures, Branch(t, g, target, f), st.irr);
    if MayReplace(env, st, target) {
      MayReplaceNotRefused(env, st, target, st.signatures, f);
    } else {
      IrrBelowBest(env, st);
      RaiseIrrOnBranch(env, t, st.signatures, target, f, st.irr);
      RefusedIff(t, g, st.best, f, st.irr, irr);
      BranchRises(t, g, target, f);
    }
  }

  /** From the old best and irreversible blocks the chain went to `target` if that is a child of
      the best block, or is higher and its branch may replace the main chain; else it stayed. */
  ghost predicate Followed(env: Env, best: Hash, irr: Hash, r: State, target: Hash)
    requires Stored(env, r) && best in r.tree && irr in r.tree && target in r.tree
  {
    r.best == if r.tree[target].prev == best
                 || (r.tree[target].height > r.tree[best].height && MayReplace(env, r.(best := best, irr := irr), target))
              then target else best
  }

  /** Without failure the chain moves exactly when it should. */
  lemma {:induction false} MovesExactly(env: Env, st: State, target: Hash, r: State)
    requires GoodEnv(env) && Inv(env, st) && target in st.tree && target != env.genesis
    requires MoveStep(env, st, target, None, r)
    ensures Inv(env, r) && r.tree == st.tree && Followed(env, st.best, st.irr, r, target)
    ensures st.tree[target].prev != st.best && st.tree[target].height <= st.tree[st.best].height ==> r == st
  {
    if st.tree[target].prev == st.best {
      ChildMayReplace(env, st, target);
      MovesWhenMay(env, st, target, r);
    } else if st.tree[target].height > st.tree[st.best].height {
      ReorganizeExactly(env, st, target);
      assert r.(best := st.best, irr := st.irr).signatures == r.signatures;
      SameReplace(env, st.(signatures := r.signatures), r.(best := st.best, irr := st.irr), target);
    }
  }

  /** Whether a branch may replace the main chain is a matter of the blocks, the signatures and
      the best and irreversible blocks. */
  lemma {:induction false} SameReplace(env: Env, st: State, r: State, target: Hash)
    requires Stored(env, st) && Stored(env, r) && target in st.tree
    requires st.tree == r.tree && st.signatures == r.signatures && st.best == r.best && st.irr == r.irr
    ensures MayReplace(env, st, target) <==> MayReplace(env, r, target)
  {
  }

  /** A branch that may replace the main chain does, also before this node signed it. */
  lemma {:induction false} MovesWhenMay(env: Env, st: State, target: Hash, r: State)
    requires GoodEnv(env) && Inv(env, st) && target in st.tree && MayReplace(env, st, target)
    requires MoveStep(env, st, target, None, r)
    requires st.tree[target].prev == st.best || st.tree[target].height > st.tree[st.best].height
    ensures Inv(env, r) && r.tree == st.tree && r.best == target
  {
    ReorganizeSafe(env, st, target, None);
  }

  /** Signing a rising branch signs each of its blocks as it would be signed alone. */
  lemma {:induction false} SignAllExact(env: Env, t: Tree, sigs: Signatures, hs: seq<Hash>, h: Hash)
    requires sigs.Keys == t.Keys && AllStored(t, hs) && h in t
    requires forall i, j :: 0 <= i < j < |hs| ==> t[hs[i]].height < t[hs[j]].height
    ensures SignAll(env, t, sigs, hs)[h] == if h in hs then SignSelf(env, t, sigs, h)[h] else sigs[h]
    decreases |hs|
  {
    if hs != [] {
      var front, last := hs[..|hs| - 1], hs[|hs| - 1];
      forall x | x in t ensures SignAll(env, t, sigs, front)[x] == if x in front then SignSelf(env, t, sigs, x)[x] else sigs[x] {
        SignAllExact(env, t, sigs, front, x);
      }
      SameLevelSigns(env, t, sigs, SignAll(env, t, sigs, front), last);
      assert h in hs <==> h in front || h == last;
    }
  }

  /** Whether this node signs a block depends on the blocks of that height alone. */
  lemma {:induction false} SameLevelSigns(env: Env, t: Tree, s: Signatures, r: Signatures, h: Hash)
    requires s.Keys == t.Keys == r.Keys && h in t
    requires forall x :: x in t && t[x].height == t[h].height ==> r[x] == s[x]
    ensures SignSelf(env, t, s, h)[h] == SignSelf(env, t, r, h)[h]
    ensures forall x :: x in t && x != h ==> SignSelf(env, t, r, h)[x] == r[x]
  {
    forall x | x in t && t[x].height == t[h].height
      ensures SignedBy(env, t, s, x, env.self) <==> SignedBy(env, t, r, x, env.self)
    {
    }
    assert DoubleSigned(env, t, s, h, t[h].height, env.self) <==> DoubleSigned(env, t, r, h, t[h].height, env.self);
  }
}
