/** The state a node keeps about its chain, and the atomic steps that change it. */
module ChainState {
  import opened Options
  import opened BlockTree
  import opened Quorum

  type Key = int
  type Sig = int

  /** Node order to signature; an absent order is a nil entry. */
  type Witness = map<nat, Sig>

  /** The signatures kept with each stored header. */
  type Signatures = map<Hash, Witness>

  /** What the chain code asks of the outside: the consensus nodes and the blocker that
      follow a block, signature checking, transaction-level validation, its own key. */
  datatype Env = Env(
    genesis: Hash,
    nodes: Hash -> map<Key, nat>,
    blocker: (Hash, nat) -> Option<Key>,
    verify: (Key, Hash, Sig) -> bool,
    valid: (Hash, Block) -> bool,
    self: Key,
    sign: Hash -> Sig)

  /** `n` consensus nodes hold the orders 0 to n-1, one each. */
  ghost predicate Ordered(m: map<Key, nat>) {
    && (forall k :: k in m ==> m[k] < |m|)
    && (forall o :: o in Orders(|m|) ==> exists k :: k in m && m[k] == o)
    && forall k, l :: k in m && l in m && m[k] == m[l] ==> k == l
  }

  ghost predicate GoodEnv(env: Env) {
    forall p :: Ordered(env.nodes(p))
  }

  datatype State = State(
    tree: Tree,
    signatures: Signatures,
    levels: map<nat, seq<Hash>>,
    index: map<nat, Hash>,
    best: Hash,
    irr: Hash)

  function Level(levels: map<nat, seq<Hash>>, n: nat): (s: seq<Hash>) {
    if n in levels then levels[n] else []
  }

  // ----- well-formed stores

  ghost predicate Distinct(s: seq<Hash>) {
    forall i, j :: 0 <= i < j < |s| ==> s[i] != s[j]
  }

  /** The hash lists per height hold exactly the stored blocks of that height, once each. */
  ghost predicate LevelsExact(t: Tree, levels: map<nat, seq<Hash>>) {
    && (forall h, n {:trigger h in Level(levels, n)} :: h in Level(levels, n) <==> h in t && t[h].height == n)
    && forall n {:trigger Level(levels, n)} :: Distinct(Level(levels, n))
  }

  lemma {:induction false} LevelAt(t: Tree, levels: map<nat, seq<Hash>>, n: nat)
    requires LevelsExact(t, levels)
    ensures forall i :: 0 <= i < |Level(levels, n)| ==> Level(levels, n)[i] in t && t[Level(levels, n)[i]].height == n
  {
    forall i | 0 <= i < |Level(levels, n)|
      ensures Level(levels, n)[i] in t && t[Level(levels, n)[i]].height == n
    {
      assert Level(levels, n)[i] in Level(levels, n);
    }
  }

  ghost predicate Stored(env: Env, st: State) {
    && Rooted(st.tree, env.genesis)
    && st.signatures.Keys == st.tree.Keys
    && LevelsExact(st.tree, st.levels)
    && st.best in st.tree
    && st.irr in st.tree
  }

  /** Stored block `h` carries a signature in the slot of key `k`. */
  ghost predicate SignedBy(env: Env, t: Tree, sigs: Signatures, h: Hash, k: Key)
    requires h in t && h in sigs
  {
    t[h].prev in t && k in env.nodes(t[h].prev) && env.nodes(t[h].prev)[k] in sigs[h]
  }

  /** Key `k` has signed a stored block of height `n` other than `h`. */
  ghost predicate DoubleSigned(env: Env, t: Tree, sigs: Signatures, h: Hash, n: nat, k: Key)
    requires sigs.Keys == t.Keys
  {
    exists b :: b in t && b != h && t[b].height == n && SignedBy(env, t, sigs, b, k)
  }

  /** More than two thirds of the consensus nodes after the parent have signed `h`. */
  ghost predicate Irreversible(env: Env, t: Tree, sigs: Signatures, h: Hash)
    requires h in t && h in sigs
  {
    t[h].prev in t && Enough(sigs[h], |env.nodes(t[h].prev)|)
  }

  // ----- signatures on a block about to be saved

  /** The signature of key `k` that comes with the block or waits in the signature cache. */
  function Candidate(nodes: map<Key, nat>, w: Witness, cached: map<Key, Sig>, k: Key): (s: Option<Sig>)
    requires k in nodes
  {
    if nodes[k] in w then Some(w[nodes[k]])
    else if k in cached then Some(cached[k])
    else None
  }

  /** A present signature of key `k` that makes the whole block bad. */
  ghost predicate BadSignature(env: Env, t: Tree, sigs: Signatures, h: Hash, b: Block, w: Witness, cached: map<Key, Sig>, k: Key)
    requires sigs.Keys == t.Keys
  {
    var nodes := env.nodes(b.prev);
    && k in nodes
    && Candidate(nodes, w, cached, k).Some?
    && (!env.verify(k, h, Candidate(nodes, w, cached, k).value)
        || (DoubleSigned(env, t, sigs, h, b.height, k) && Some(k) == env.blocker(b.prev, b.timestamp)))
  }

  /** The block passes: every present signature is good and the blocker's is present. */
  ghost predicate SignaturesAccepted(env: Env, t: Tree, sigs: Signatures, h: Hash, b: Block, w: Witness, cached: map<Key, Sig>)
    requires sigs.Keys == t.Keys
  {
    var nodes := env.nodes(b.prev);
    var blocker := env.blocker(b.prev, b.timestamp);
    && (forall k {:trigger k in nodes} :: k in nodes ==> !BadSignature(env, t, sigs, h, b, w, cached, k))
    && blocker.Some? && blocker.value in nodes
    && Candidate(nodes, w, cached, blocker.value).Some?
  }

  /** The slot of key `k` after validation: its present signature, unless it signed a rival block. */
  ghost predicate SlotValidated(env: Env, t: Tree, sigs: Signatures, h: Hash, b: Block, w: Witness, cached: map<Key, Sig>, v: Witness, k: Key)
    requires sigs.Keys == t.Keys && k in env.nodes(b.prev)
  {
    var nodes := env.nodes(b.prev);
    && (nodes[k] in v <==> Candidate(nodes, w, cached, k).Some? && !DoubleSigned(env, t, sigs, h, b.height, k))
    && (nodes[k] in v ==> v[nodes[k]] == Candidate(nodes, w, cached, k).value)
  }

  /** `v` is witness `w` after validation: present signatures of consensus nodes are kept
      unless the node already signed a rival block, all other slots are untouched. */
  ghost predicate Validated(env: Env, t: Tree, sigs: Signatures, h: Hash, b: Block, w: Witness, cached: map<Key, Sig>, v: Witness)
    requires sigs.Keys == t.Keys
  {
    var nodes := env.nodes(b.prev);
    && (forall k {:trigger k in nodes} :: k in nodes ==> SlotValidated(env, t, sigs, h, b, w, cached, v, k))
    && (forall o {:trigger o in v} :: o !in nodes.Values ==> (o in v <==> o in w) && (o in v ==> v[o] == w[o]))
  }

  // ----- this node's own signature

  ghost predicate WillSign(env: Env, t: Tree, sigs: Signatures, h: Hash)
    requires sigs.Keys == t.Keys && h in t
  {
    var p := t[h].prev;
    && p in t
    && env.self in env.nodes(p)
    && env.nodes(p)[env.self] !in sigs[h]
    && !DoubleSigned(env, t, sigs, h, t[h].height, env.self)
  }

  /** Put a signature into the slot of key `k`. */
  function AddSignature(env: Env, t: Tree, sigs: Signatures, h: Hash, k: Key, s: Sig): (r: Signatures)
    requires h in t && h in sigs && k in env.nodes(t[h].prev)
  {
    sigs[h := sigs[h][env.nodes(t[h].prev)[k] := s]]
  }

  ghost function SignSelf(env: Env, t: Tree, sigs: Signatures, h: Hash): (r: Signatures)
    requires sigs.Keys == t.Keys && h in t
    ensures r.Keys == sigs.Keys
  {
    if WillSign(env, t, sigs, h) then AddSignature(env, t, sigs, h, env.self, env.sign(h)) else sigs
  }

  ghost function SignAll(env: Env, t: Tree, sigs: Signatures, hs: seq<Hash>): (r: Signatures)
    requires sigs.Keys == t.Keys && AllStored(t, hs)
    ensures r.Keys == sigs.Keys
  {
    if hs == [] then sigs
    else SignSelf(env, t, SignAll(env, t, sigs, hs[..|hs| - 1]), hs[|hs| - 1])
  }

  // ----- moving the best block

  /** The irreversible block after attaching `hs`, lowest first, starting from `irr`. */
  ghost function RaiseIrr(env: Env, t: Tree, sigs: Signatures, hs: seq<Hash>, irr: Hash): (r: Hash)
    requires sigs.Keys == t.Keys && irr in t && AllStored(t, hs)
    ensures r in t
  {
    if hs == [] then irr else
    var r := RaiseIrr(env, t, sigs, hs[..|hs| - 1], irr);
    var h := hs[|hs| - 1];
    if Irreversible(env, t, sigs, h) && t[h].height > t[r].height then h else r
  }

  /** The main-chain index after writing the blocks `hs`. */
  function WriteIndex(t: Tree, index: map<nat, Hash>, hs: seq<Hash>): (r: map<nat, Hash>)
    requires AllStored(t, hs)
  {
    if hs == [] then index else
    var h := hs[|hs| - 1];
    WriteIndex(t, index, hs[..|hs| - 1])[t[h].height := h]
  }

  /** The index entries of the heights above `lo` up to `hi` are dropped. */
  function DropIndex(index: map<nat, Hash>, lo: nat, hi: nat): (r: map<nat, Hash>) {
    map n | n in index && !(lo < n <= hi) :: index[n]
  }

  function SetState(st: State, target: Hash, irr: Hash, hs: seq<Hash>): (r: State)
    requires target in st.tree && st.best in st.tree && AllStored(st.tree, hs)
  {
    st.(best := target, irr := irr,
        index := DropIndex(WriteIndex(st.tree, st.index, hs), st.tree[target].height, st.tree[st.best].height))
  }

  /** A reorganisation is refused when it would detach the irreversible block without
      bringing a higher one; `detach` is highest first. */
  predicate Refused(t: Tree, detach: seq<Hash>, oldIrr: Hash, newIrr: Hash)
    requires oldIrr in t && newIrr in t && AllStored(t, detach)
  {
    detach != [] && t[detach[|detach| - 1]].height <= t[oldIrr].height && t[newIrr].height <= t[oldIrr].height
  }

  /** Detach and attach the given branches. `fail` holds the number of attached blocks that
      were already signed when a ledger or database call failed, if one did. */
  ghost function Switch(env: Env, st: State, target: Hash, attach: seq<Hash>, detach: seq<Hash>, fail: Option<nat>): (r: State)
    requires Stored(env, st) && target in st.tree
    requires AllStored(st.tree, attach) && AllStored(st.tree, detach)
  {
    if fail.Some? && fail.value < |attach|
    then st.(signatures := SignAll(env, st.tree, st.signatures, attach[..fail.value])) else
    var sigs := SignAll(env, st.tree, st.signatures, attach);
    var signed := st.(signatures := sigs);
    var irr := RaiseIrr(env, st.tree, sigs, attach, st.irr);
    if fail.Some? || Refused(st.tree, detach, st.irr, irr) then signed
    else SetState(signed, target, irr, attach)
  }

  ghost function Reorganize(env: Env, st: State, target: Hash, fail: Option<nat>): (r: State)
    requires Stored(env, st) && target in st.tree
  {
    var f := ForkHeight(st.tree, env.genesis, target, st.best);
    Switch(env, st, target, Branch(st.tree, env.genesis, target, f), Unwind(st.tree, env.genesis, st.best, f), fail)
  }

  // ----- the steps

  predicate InMainChain(t: Tree, index: map<nat, Hash>, h: Hash)
    requires h in t
  {
    t[h].height in index && index[t[h].height] == h
  }

  /** `tail` is a highest stored descendant-or-self of `h`. */
  ghost predicate LongestTail(t: Tree, g: Hash, h: Hash, tail: Hash)
    requires Rooted(t, g) && h in t
  {
    && tail in t
    && IsAncestor(t, g, h, tail)
    && forall x :: x in t && IsAncestor(t, g, h, x) ==> t[x].height <= t[tail].height
  }

  datatype Event =
    | Save(hash: Hash, block: Block, signatures: Witness, cached: map<Key, Sig>)
    | Move(target: Hash, fail: Option<nat>)
    | Signature(hash: Hash, key: Key, sig: Sig, tail: Hash, fail: Option<nat>)

  ghost predicate Savable(env: Env, st: State, h: Hash, b: Block, w: Witness, cached: map<Key, Sig>)
    requires Stored(env, st)
  {
    && h !in st.tree && b.prev in st.tree
    && SignaturesAccepted(env, st.tree, st.signatures, h, b, w, cached)
    && b.height == st.tree[b.prev].height + 1 && env.valid(h, b)
  }

  /** Save a block whose parent is stored. `r` is the state after. */
  ghost predicate SaveStep(env: Env, st: State, h: Hash, b: Block, w: Witness, cached: map<Key, Sig>, r: State)
    requires Stored(env, st)
  {
    if Savable(env, st, h, b, w, cached) then
      && h in r.signatures
      && Validated(env, st.tree, st.signatures, h, b, w, cached, r.signatures[h])
      && r == st.(tree := st.tree[h := b], signatures := st.signatures[h := r.signatures[h]],
                  levels := st.levels[b.height := Level(st.levels, b.height) + [h]])
    else r == st
  }

  /** After saving, the chain follows a stored block that extends the best block or is higher. */
  ghost predicate MoveStep(env: Env, st: State, target: Hash, fail: Option<nat>, r: State)
    requires Stored(env, st)
  {
    if target in st.tree && (st.tree[target].prev == st.best || st.tree[target].height > st.tree[st.best].height)
    then r == Reorganize(env, st, target, fail)
    else r == st
  }

  ghost predicate SignatureTaken(env: Env, st: State, h: Hash, k: Key, s: Sig)
    requires Stored(env, st)
  {
    && h in st.tree && st.tree[h].prev in st.tree
    && k in env.nodes(st.tree[h].prev)
    && env.nodes(st.tree[h].prev)[k] !in st.signatures[h]
    && env.verify(k, h, s)
    && !DoubleSigned(env, st.tree, st.signatures, h, st.tree[h].height, k)
  }

  /** The failure of what comes after the header write. */
  function AfterHeader(fail: Option<nat>): (r: Option<nat>) {
    if fail.None? || fail.value == 0 then None else Some(fail.value - 1)
  }

  /** A signature message: record it and, at the two-thirds mark, raise the irreversible block
      or follow the branch that reached it. Failure 0 is that of the header write, after which
      nothing is done; a later one is that of the status write or of the reorganisation. */
  ghost predicate SignatureStep(env: Env, st: State, h: Hash, k: Key, s: Sig, tail: Hash, fail: Option<nat>, r: State)
    requires Stored(env, st)
  {
    if !SignatureTaken(env, st, h, k, s) || fail == Some(0) then r == st else
    var mid := st.(signatures := AddSignature(env, st.tree, st.signatures, h, k, s));
    if !Irreversible(env, st.tree, mid.signatures, h) || st.tree[h].height <= st.tree[st.irr].height then r == mid
    else if InMainChain(st.tree, st.index, h) then r == if fail.Some? then mid else mid.(irr := h)
    else LongestTail(st.tree, env.genesis, h, tail) && r == Reorganize(env, mid, tail, AfterHeader(fail))
  }

  ghost predicate Step(env: Env, st: State, e: Event, r: State)
    requires Stored(env, st)
  {
    match e
    case Save(h, b, w, cached) => SaveStep(env, st, h, b, w, cached, r)
    case Move(target, fail) => MoveStep(env, st, target, fail, r)
    case Signature(h, k, s, tail, fail) => SignatureStep(env, st, h, k, s, tail, fail, r)
  }

  /** The chain right after the genesis block was written. */
  function Initial(env: Env, timestamp: nat, prev: Hash, w: Witness): (st: State) {
    State(map[env.genesis := Block(0, prev, timestamp)], map[env.genesis := w],
          map[0 := [env.genesis]], map[0 := env.genesis], env.genesis, env.genesis)
  }
}
