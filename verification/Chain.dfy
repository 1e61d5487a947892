/** The chain object: loops and in-place updates that carry out the steps of ChainState. */
module Chain {
  import opened Options
  import opened Collections
  import opened BlockTree
  import opened Quorum
  import opened ChainState
  import opened ChainSafety
  import opened ChainRecord

  datatype SignCheck = Fine | DoubleSign | NoConsensusNodes

  class Chain {
    const env: Env
    var tree: Tree
    var signatures: Signatures
    var levels: map<nat, seq<Hash>>
    var index: map<nat, Hash>
    var best: Hash
    var irr: Hash
    var signatureCache: map<Hash, map<Key, Sig>>

    function Abs(): (st: State)
      reads this
    {
      State(tree, signatures, levels, index, best, irr)
    }

    ghost predicate Valid()
      reads this
    {
      GoodEnv(env) && Stored(env, Abs())
    }

    /** The cached signatures that wait for block `h`. */
    function Waiting(h: Hash): (m: map<Key, Sig>)
      reads this
    {
      if h in signatureCache then signatureCache[h] else map[]
    }

    /** A new chain holds the genesis block only. */
    constructor (e: Env, timestamp: nat, prev: Hash, w: Witness)
      requires GoodEnv(e)
      ensures env == e && Abs() == Initial(e, timestamp, prev, w)
      ensures Valid() && Inv(env, Abs()) && Checked(env, Abs())
    {
      env := e;
      tree := map[e.genesis := Block(0, prev, timestamp)];
      signatures := map[e.genesis := w];
      levels := map[0 := [e.genesis]];
      index := map[0 := e.genesis];
      best, irr := e.genesis, e.genesis;
      signatureCache := map[];
      new;
      InitialChecked(e, timestamp, prev, w);
    }

    /** Search the stored blocks of height `n` for a rival of `h` signed by `k`. */
    method CheckDoubleSign(h: Hash, n: nat, k: Key) returns (r: SignCheck)
      requires Valid()
      ensures 0 < n || h == env.genesis ==> !r.NoConsensusNodes?
      ensures !r.NoConsensusNodes? ==> (r.DoubleSign? <==> DoubleSigned(env, tree, signatures, h, n, k))
    {
      var hashes := Level(levels, n);
      LevelAt(tree, levels, n);
      for i := 0 to |hashes|
        invariant forall j :: 0 <= j < i ==> hashes[j] == h || !SignedBy(env, tree, signatures, hashes[j], k)
      {
        var b := hashes[i];
        if b == h {
          continue;
        }
        assert Linked(tree, env.genesis, b);
        if tree[b].prev !in tree {
          return NoConsensusNodes;
        }
        var nodes := env.nodes(tree[b].prev);
        if k !in nodes {
          continue;
        }
        if nodes[k] in signatures[b] {
          return DoubleSign;
        }
      }
      r := Fine;
      assert forall b :: b in hashes <==> b in tree && tree[b].height == n;
    }

    method IsIrreversible(h: Hash) returns (r: bool)
      requires Valid() && h in tree
      ensures r <==> Irreversible(env, tree, signatures, h)
      ensures r <==> tree[h].prev in tree
                     && var n := |env.nodes(tree[h].prev)|; 3 * |SignedOrders(signatures[h], n)| > 2 * n
    {
      if tree[h].prev !in tree {
        return false;
      }
      r := CountReachesTwoThirds(signatures[h], |env.nodes(tree[h].prev)|);
    }

    /** Treat one consensus node's slot: take a waiting signature, check it, drop it when the node
        signed a rival block. `bad` stops the whole block. */
    method ValidateSlot(h: Hash, b: Block, v: Witness, waiting: map<Key, Sig>, k: Key)
      returns (bad: bool, present: bool, r: Witness, left: map<Key, Sig>)
      requires Valid() && b.prev in tree && k in env.nodes(b.prev) && env.blocker(b.prev, b.timestamp).Some?
      ensures 0 < b.height ==> (bad <==> BadSignature(env, tree, signatures, h, b, v, waiting, k))
      ensures 0 < b.height && !bad ==> SlotValidated(env, tree, signatures, h, b, v, waiting, r, k)
      ensures !bad ==> (present <==> Candidate(env.nodes(b.prev), v, waiting, k).Some?)
      ensures v - {env.nodes(b.prev)[k]} == r - {env.nodes(b.prev)[k]}
      ensures left == if env.nodes(b.prev)[k] in v then waiting else waiting - {k}
    {
      r, left, bad, present := v, waiting, false, false;
      var o := env.nodes(b.prev)[k];
      if o !in v {
        left := waiting - {k};
        if k !in waiting {
          return;
        }
        r := v[o := waiting[k]];
      }
      present := true;
      if !env.verify(k, h, r[o]) {
        bad := true;
        return;
      }
      var c := CheckDoubleSign(h, b.height, k);
      if c.NoConsensusNodes? || (c.DoubleSign? && env.blocker(b.prev, b.timestamp).value == k) {
        bad := true;
      } else if c.DoubleSign? {
        r := r - {o};
      }
    }

    /** Check the signatures of a block before it is saved; waiting ones are moved into it. */
    method ValidateSign(h: Hash, b: Block, w: Witness) returns (ok: bool, v: Witness)
      requires Valid()
      modifies this`signatureCache
      ensures b.prev !in tree ==> !ok
      ensures b.prev in tree && 0 < b.height ==>
                && (ok <==> SignaturesAccepted(env, tree, signatures, h, b, w, old(Waiting(h))))
                && (ok ==> Validated(env, tree, signatures, h, b, w, old(Waiting(h)), v))
      ensures forall x :: x != h ==> Waiting(x) == old(Waiting(x))
      ensures forall k :: k in Waiting(h) ==> k in old(Waiting(h)) && Waiting(h)[k] == old(Waiting(h))[k]
      ensures forall k :: k in old(Waiting(h)) && k !in Waiting(h) ==> k in env.nodes(b.prev)
    {
      if b.prev !in tree || env.blocker(b.prev, b.timestamp).None? {
        return false, w;
      }
      var left;
      ok, v, left := ValidateSlots(h, b, w, Waiting(h));
      signatureCache := signatureCache[h := left];
    }

    /** The loop over the consensus nodes, in any order. */
    method ValidateSlots(h: Hash, b: Block, w: Witness, waiting: map<Key, Sig>)
      returns (ok: bool, v: Witness, left: map<Key, Sig>)
      requires Valid() && b.prev in tree && env.blocker(b.prev, b.timestamp).Some?
      ensures 0 < b.height ==> (ok <==> SignaturesAccepted(env, tree, signatures, h, b, w, waiting))
      ensures 0 < b.height && ok ==> Validated(env, tree, signatures, h, b, w, waiting, v)
      ensures forall k :: k in left ==> k in waiting && left[k] == waiting[k]
      ensures forall k :: k in waiting && k !in left ==> k in env.nodes(b.prev)
    {
      v, left := w, waiting;
      var nodes, blocker := env.nodes(b.prev), env.blocker(b.prev, b.timestamp).value;
      var hasBlockerSign := false;
      var rest := nodes.Keys;
      while rest != {}
        invariant rest <= nodes.Keys
        invariant 0 < b.height ==> SlotsDone(env, tree, signatures, h, b, w, waiting, v, left, rest)
        invariant 0 < b.height ==> (hasBlockerSign <==> blocker in nodes && blocker !in rest && Candidate(nodes, w, waiting, blocker).Some?)
        invariant forall k :: k in left ==> k in waiting && left[k] == waiting[k]
        invariant forall k :: k in waiting && k !in left ==> k in nodes
        decreases rest
      {
        ghost var some := SomeKey(rest);
        assert some in rest;
        var k :| k in rest;
        var bad, present, v2, left2 := ValidateSlot(h, b, v, left, k);
        if 0 < b.height {
          SlotsStep(env, tree, signatures, h, b, w, waiting, v, left, rest, k, v2, left2);
        }
        v, left := v2, left2;
        if bad {
          ok := false;
          return;
        }
        rest := rest - {k};
        if blocker == k && present {
          hasBlockerSign := true;
        }
      }
      ok := hasBlockerSign;
      if 0 < b.height {
        SlotsFinished(env, tree, signatures, h, b, w, waiting, v, left);
      }
    }

    /** Validate and store a block. */
    method SaveBlock(h: Hash, b: Block, w: Witness) returns (ok: bool)
      requires Valid() && Inv(env, Abs())
      modifies this
      ensures SaveStep(env, old(Abs()), h, b, w, old(Waiting(h)), Abs())
      ensures ok <==> Savable(env, old(Abs()), h, b, w, old(Waiting(h)))
      ensures Valid() && Inv(env, Abs()) && Final(old(Abs()), Abs())
    {
      ghost var st, cached := Abs(), Waiting(h);
      if h in tree {
        return false;
      }
      var accepted, v := ValidateSign(h, b, w);
      if !accepted || b.height != tree[b.prev].height + 1 || !env.valid(h, b) {
        return false;
      }
      tree := tree[h := b];
      signatures := signatures[h := v];
      levels := levels[b.height := Level(levels, b.height) + [h]];
      ok := true;
      SaveSafe(env, st, h, b, w, cached, Abs());
    }

    /** Sign a stored header with this node's key, when it is a consensus node with no rival
        signature, and write the header back. */
    method ApplyBlockSign(h: Hash)
      requires Valid() && h in tree
      modifies this`signatures
      ensures signatures == SignSelf(env, tree, old(signatures), h)
    {
      var p := tree[h].prev;
      if p !in tree || env.self !in env.nodes(p) || env.nodes(p)[env.self] in signatures[h] {
        return;
      }
      assert Linked(tree, env.genesis, h);
      var c := CheckDoubleSign(h, tree[h].height, env.self);
      if !c.Fine? {
        return;
      }
      signatures := signatures[h := signatures[h][env.nodes(p)[env.self] := env.sign(h)]];
    }

    /** Write the chain status and move the in-memory best and irreversible blocks. */
    method SetState(target: Hash, newIrr: Hash, attach: seq<Hash>)
      requires Valid() && target in tree && AllStored(tree, attach)
      modifies this`index, this`best, this`irr
      ensures Abs() == ChainState.SetState(old(Abs()), target, newIrr, attach)
    {
      index := IndexBatch(tree, index, attach, tree[target].height, tree[best].height);
      best, irr := target, newIrr;
    }

    /** Make the stored child `h` of the best block the new best block. */
    method ConnectBlock(h: Hash, fail: Option<nat>)
      requires Valid() && h in tree && h != env.genesis && tree[h].prev == best
      modifies this`signatures, this`index, this`best, this`irr
      ensures Abs() == Reorganize(env, old(Abs()), h, fail)
    {
      ForkWithParent(tree, env.genesis, h);
      ghost var sigs := signatures;
      assert [h][..0] == [];
      if fail == Some(0) {
        return;
      }
      ApplyBlockSign(h);
      assert signatures == SignAll(env, tree, sigs, [h]);
      if fail.Some? {
        return;
      }
      var newIrr := irr;
      var irreversible := IsIrreversible(h);
      if irreversible && tree[h].height > tree[irr].height {
        newIrr := h;
      }
      assert newIrr == RaiseIrr(env, tree, signatures, [h], irr);
      SetState(h, newIrr, [h]);
    }

    /** Sign one block of a branch and see whether it is irreversible by now. */
    method AttachBlock(h: Hash, oldIrr: Hash) returns (newIrr: Hash)
      requires Valid() && h in tree && oldIrr in tree
      modifies this`signatures
      ensures signatures == SignSelf(env, tree, old(signatures), h)
      ensures newIrr == if Irreversible(env, tree, signatures, h) && tree[h].height > tree[oldIrr].height then h else oldIrr
    {
      ApplyBlockSign(h);
      var irreversible := IsIrreversible(h);
      newIrr := if irreversible && tree[h].height > tree[oldIrr].height then h else oldIrr;
    }

    /** Sign the blocks of a branch one by one and find the irreversible block they lead to. */
    method AttachBlocks(attach: seq<Hash>, fail: Option<nat>) returns (completed: bool, newIrr: Hash)
      requires Valid() && AllStored(tree, attach) && Distinct(attach)
      modifies this`signatures
      ensures completed <==> fail.None? || |attach| <= fail.value
      ensures signatures == SignAll(env, tree, old(signatures), if completed then attach else attach[..fail.value])
      ensures completed ==> newIrr == RaiseIrr(env, tree, signatures, attach, irr)
    {
      newIrr := irr;
      for i := 0 to |attach|
        invariant signatures == SignAll(env, tree, old(signatures), attach[..i])
        invariant newIrr == RaiseIrr(env, tree, signatures, attach[..i], irr)
        invariant fail.Some? ==> i <= fail.value
      {
        if fail == Some(i) {
          completed := false;
          return;
        }
        var h := attach[i];
        AttachOneMore(env, tree, old(signatures), attach, i, irr);
        newIrr := AttachBlock(h, newIrr);
      }
      assert attach[..|attach|] == attach;
      completed := true;
    }

    /** Replace the main chain by the branch that ends in `target`. */
    method ReorganizeChain(target: Hash, fail: Option<nat>)
      requires Valid() && target in tree
      modifies this`signatures, this`index, this`best, this`irr
      ensures Abs() == Reorganize(env, old(Abs()), target, fail)
    {
      var attach, detach := CalcReorganizeChain(tree, env.genesis, target, best);
      BranchRises(tree, env.genesis, target, ForkHeight(tree, env.genesis, target, best));
      var completed, newIrr := AttachBlocks(attach, fail);
      if !completed || fail.Some? || Refused(tree, detach, irr, newIrr) {
        return;
      }
      SetState(target, newIrr, attach);
    }

    /** A signature message for block `h`: kept aside while the block is unknown, else recorded,
        and followed when it makes the block irreversible. */
    method ProcessBlockSignature(sig: Sig, key: Key, h: Hash, fail: Option<nat>) returns (ghost tail: Hash)
      requires Valid() && Inv(env, Abs())
      modifies this
      ensures Valid() && Inv(env, Abs())
      ensures h !in old(tree) ==> Abs() == old(Abs())
      ensures h in old(tree) ==> SignatureStep(env, old(Abs()), h, key, sig, tail, fail, Abs())
      ensures h in old(tree) ==> Final(old(Abs()), Abs()) && RecordKept(env, old(Abs()), Abs())
      ensures signatureCache == if h !in old(tree) && env.verify(key, h, sig)
                                then old(signatureCache[h := Waiting(h)[key := sig]]) else old(signatureCache)
    {
      tail := h;
      if h !in tree {
        if env.verify(key, h, sig) {
          signatureCache := signatureCache[h := Waiting(h)[key := sig]];
        }
        return;
      }
      tail := ProcessStoredSignature(sig, key, h, fail);
    }

    method ProcessStoredSignature(sig: Sig, key: Key, h: Hash, fail: Option<nat>) returns (ghost tail: Hash)
      requires Valid() && Inv(env, Abs()) && h in tree
      modifies this`signatures, this`index, this`best, this`irr
      ensures SignatureStep(env, old(Abs()), h, key, sig, tail, fail, Abs())
      ensures Valid() && Inv(env, Abs()) && Final(old(Abs()), Abs())
      ensures RecordKept(env, old(Abs()), Abs())
    {
      ghost var st := Abs();
      tail := h;
      var taken := TakeSignature(sig, key, h);
      if taken {
        tail := UpdateBlockSignature(sig, key, h, fail);
      }
      SignatureSafe(env, st, h, key, sig, tail, fail, Abs());
      SignatureKeepsRecord(env, st, h, key, sig, tail, fail, Abs());
    }

    /** Whether a signature message for a stored block is to be recorded. */
    method TakeSignature(sig: Sig, key: Key, h: Hash) returns (taken: bool)
      requires Valid() && h in tree
      ensures taken <==> SignatureTaken(env, Abs(), h, key, sig)
      ensures taken ==> env.verify(key, h, sig) && !SignedBy(env, tree, signatures, h, key)
    {
      var p := tree[h].prev;
      if p !in tree || key !in env.nodes(p) || env.nodes(p)[key] in signatures[h] || !env.verify(key, h, sig) {
        return false;
      }
      assert Linked(tree, env.genesis, h);
      var c := CheckDoubleSign(h, tree[h].height, key);
      taken := c.Fine?;
    }

    /** Record a signature and act on the two-thirds mark. */
    method UpdateBlockSignature(sig: Sig, key: Key, h: Hash, fail: Option<nat>) returns (tail: Hash)
      requires Valid() && h in tree && SignatureTaken(env, Abs(), h, key, sig)
      modifies this`signatures, this`index, this`best, this`irr
      ensures SignatureStep(env, old(Abs()), h, key, sig, tail, fail, Abs())
    {
      tail := h;
      if fail == Some(0) {
        return;
      }
      signatures := signatures[h := signatures[h][env.nodes(tree[h].prev)[key] := sig]];
      var irreversible := IsIrreversible(h);
      if !irreversible || tree[h].height <= tree[irr].height {
        return;
      }
      if InMainChain(tree, index, h) {
        if fail.None? {
          irr := h;
        }
      } else {
        tail := TraceLongestChainTail(tree, levels, env.genesis, h);
        ReorganizeChain(tail, AfterHeader(fail));
      }
    }

    /** A block message. `subs` lists the waiting orphans below the block, parents first; those that
        can be saved are, and the chain then follows the highest saved block if it should. The ghost
        results list the steps taken. */
    method ProcessBlock(h: Hash, b: Block, w: Witness, subs: seq<(Hash, Block, Witness)>, fail: Option<nat>)
      returns (isOrphan: bool, ghost tip: Hash, ghost states: seq<State>, ghost events: seq<Event>)
      requires Valid() && Inv(env, Abs())
      modifies this
      ensures Steps(env, states, events) && states[0] == old(Abs()) && states[|events|] == Abs()
      ensures Valid() && Inv(env, Abs()) && Final(old(Abs()), Abs())
      ensures b.prev in old(tree) && h !in old(tree) ==> events != [] && events[0] == Save(h, b, w, old(Waiting(h)))
      ensures isOrphan <==> h !in old(tree) && b.prev !in old(tree)
      ensures isOrphan || h in old(tree) ==> Abs() == old(Abs())
      ensures RecordKept(env, old(Abs()), Abs())
      ensures !Savable(env, old(Abs()), h, b, w, old(Waiting(h))) ==> Abs() == old(Abs())
      ensures Savable(env, old(Abs()), h, b, w, old(Waiting(h))) ==>
                && HighestNew(old(tree)[h := b], tree, h, tip) && (subs == [] ==> tree == old(tree)[h := b])
                && (fail.None? ==> Followed(env, old(best), old(irr), Abs(), tip))
                && (fail.None? && subs == [] && b.prev == old(best) ==> best == h)
                && |events| == |subs| + 2 && Saves(events, 1, subs, |subs|) && events[|subs| + 1] == Move(tip, fail)
    {
      states, events, isOrphan, tip := [Abs()], [], false, h;
      if h in tree {
        return;
      }
      if b.prev !in tree {
        isOrphan := true;
        return;
      }
      var saved;
      saved, tip, states, events := SaveAndFollow(h, b, w, subs, fail);
      StepsKeepRecord(env, states, events, |events|);
    }

    /** A new block whose parent is stored. */
    method SaveAndFollow(h: Hash, b: Block, w: Witness, subs: seq<(Hash, Block, Witness)>, fail: Option<nat>)
      returns (saved: bool, tip: Hash, ghost states: seq<State>, ghost events: seq<Event>)
      requires Valid() && Inv(env, Abs())
      modifies this
      ensures Steps(env, states, events) && states[0] == old(Abs()) && states[|events|] == Abs()
      ensures events != [] && events[0] == Save(h, b, w, old(Waiting(h)))
      ensures Valid() && Inv(env, Abs()) && Final(old(Abs()), Abs())
      ensures saved <==> Savable(env, old(Abs()), h, b, w, old(Waiting(h)))
      ensures if saved then HighestNew(old(tree)[h := b], tree, h, tip) && (subs == [] ==> tree == old(tree)[h := b])
              else Abs() == old(Abs())
      ensures saved && fail.None? ==> Followed(env, old(best), old(irr), Abs(), tip)
      ensures saved ==> |events| == |subs| + 2 && Saves(events, 1, subs, |subs|) && events[|subs| + 1] == Move(tip, fail)
    {
      saved, tip, states, events := SaveThenFollow(h, b, w, subs, fail);
      StepsFinal(env, states, events, 0, |events|);
    }

    /** Save the block and follow it, as a list of steps. */
    method SaveThenFollow(h: Hash, b: Block, w: Witness, subs: seq<(Hash, Block, Witness)>, fail: Option<nat>)
      returns (saved: bool, tip: Hash, ghost states: seq<State>, ghost events: seq<Event>)
      requires Valid() && Inv(env, Abs())
      modifies this
      ensures Steps(env, states, events) && states[0] == old(Abs()) && states[|events|] == Abs()
      ensures events != [] && events[0] == Save(h, b, w, old(Waiting(h)))
      ensures Valid() && Inv(env, Abs())
      ensures saved <==> Savable(env, old(Abs()), h, b, w, old(Waiting(h)))
      ensures if saved then HighestNew(old(tree)[h := b], tree, h, tip) && (subs == [] ==> tree == old(tree)[h := b])
              else Abs() == old(Abs())
      ensures saved && fail.None? ==> Followed(env, old(best), old(irr), Abs(), tip)
      ensures saved ==> |events| == |subs| + 2 && Saves(events, 1, subs, |subs|) && events[|subs| + 1] == Move(tip, fail)
    {
      tip := h;
      saved, states, events := SaveTraced(h, b, w, [Abs()], []);
      if !saved {
        return;
      }
      tip, states, events := FollowSaved(h, subs, fail, tree, best, irr, states, Save(h, b, w, old(Waiting(h))));
    }

    /** After block `h` was saved, which gave the tree `tree0`: save the orphans below it and follow the
        highest saved block. */
    method FollowSaved(h: Hash, subs: seq<(Hash, Block, Witness)>, fail: Option<nat>, ghost tree0: Tree, ghost best0: Hash, ghost irr0: Hash,
                       ghost states0: seq<State>, ghost first: Event)
      returns (tip: Hash, ghost states: seq<State>, ghost events: seq<Event>)
      requires Valid() && Inv(env, Abs()) && h in tree && h != env.genesis
      requires tree == tree0 && best == best0 && irr == irr0
      requires Steps(env, states0, [first]) && states0[1] == Abs()
      modifies this
      ensures Valid() && Inv(env, Abs())
      ensures HighestNew(tree0, tree, h, tip) && (subs == [] ==> tree == tree0)
      ensures fail.None? ==> Followed(env, best0, irr0, Abs(), tip)
      ensures Steps(env, states, events) && states[0] == states0[0] && states[|events|] == Abs()
      ensures |events| == |subs| + 2 && events[0] == first && Saves(events, 1, subs, |subs|) && events[|subs| + 1] == Move(tip, fail)
    {
      tip, states, events := SaveSubBlocks(h, subs, states0, [first]);
      states, events := FollowTip(tip, fail, states, events);
    }

    /** SaveBlock, with the step added to a list of steps. */
    method SaveTraced(h: Hash, b: Block, w: Witness, ghost states0: seq<State>, ghost events0: seq<Event>)
      returns (ok: bool, ghost states: seq<State>, ghost events: seq<Event>)
      requires Valid() && Inv(env, Abs())
      requires Steps(env, states0, events0) && states0[|events0|] == Abs()
      modifies this
      ensures Valid() && Inv(env, Abs()) && Final(old(Abs()), Abs())
      ensures ok <==> Savable(env, old(Abs()), h, b, w, old(Waiting(h)))
      ensures tree == if ok then old(tree)[h := b] else old(tree)
      ensures best == old(best) && irr == old(irr) && (!ok ==> Abs() == old(Abs()))
      ensures Steps(env, states, events) && states[0] == states0[0] && states[|events|] == Abs()
      ensures events == events0 + [Save(h, b, w, old(Waiting(h)))]
    {
      ghost var e := Save(h, b, w, Waiting(h));
      ok := SaveBlock(h, b, w);
      FollowsAppend(StepRel(env), states0, events0, e, Abs());
      states, events := states0 + [Abs()], events0 + [e];
    }

    /** Save the waiting orphans below the saved block `h` and pick the highest saved block. */
    method SaveSubBlocks(h: Hash, subs: seq<(Hash, Block, Witness)>, ghost states0: seq<State>, ghost events0: seq<Event>)
      returns (tip: Hash, ghost states: seq<State>, ghost events: seq<Event>)
      requires Valid() && Inv(env, Abs()) && h in tree && h != env.genesis
      requires Steps(env, states0, events0) && states0[|events0|] == Abs()
      modifies this
      ensures Valid() && Inv(env, Abs()) && tip in tree && tip != env.genesis
      ensures HighestNew(old(tree), tree, h, tip) && best == old(best) && irr == old(irr)
      ensures subs == [] ==> tree == old(tree)
      ensures Steps(env, states, events) && states[0] == states0[0] && states[|events|] == Abs()
      ensures events0 <= events && |events| == |events0| + |subs| && Saves(events, |events0|, subs, |subs|)
    {
      tip, states, events := h, states0, events0;
      for i := 0 to |subs|
        invariant Valid() && Inv(env, Abs()) && tip in tree && tip != env.genesis
        invariant HighestNew(old(tree), tree, h, tip) && best == old(best) && irr == old(irr)
        invariant i == 0 ==> tree == old(tree)
        invariant Steps(env, states, events) && states[0] == states0[0] && states[|events|] == Abs()
        invariant events0 <= events && |events| == |events0| + i && Saves(events, |events0|, subs, i)
      {
        var (sh, sb, sw) := subs[i];
        var ok;
        ghost var before, done := tree, events;
        ok, states, events := SaveTraced(sh, sb, sw, states, events);
        SavesOneMore(done, |events0|, subs, i, events[|done|]);
        if ok {
          HighestNewStep(old(tree), before, h, tip, sh, sb);
          if tree[sh].height > tree[tip].height {
            tip := sh;
          }
        }
      }
    }

    /** Connect the block, or switch to its branch if that is longer. */
    method MoveTo(tip: Hash, fail: Option<nat>)
      requires Valid() && Inv(env, Abs()) && tip in tree && tip != env.genesis
      modifies this`signatures, this`index, this`best, this`irr
      ensures MoveStep(env, old(Abs()), tip, fail, Abs())
      ensures Valid() && Inv(env, Abs()) && Final(old(Abs()), Abs())
      ensures fail.None? ==> Followed(env, old(best), old(irr), Abs(), tip)
      ensures fail.None? && tree[tip].prev == old(best) ==> best == tip
      ensures fail.None? && tree[tip].prev != old(best) && tree[tip].height <= tree[old(best)].height ==> Abs() == old(Abs())
    {
      ghost var st := Abs();
      if tree[tip].prev == best {
        ConnectBlock(tip, fail);
      } else if tree[tip].height > tree[best].height {
        ReorganizeChain(tip, fail);
      }
      MoveSafe(env, st, tip, fail, Abs());
      if fail.None? {
        MovesExactly(env, st, tip, Abs());
      }
    }

    /** Extend the main chain by `tip`, reorganise to it when it is higher, or stay. */
    method FollowTip(tip: Hash, fail: Option<nat>, ghost states0: seq<State>, ghost events0: seq<Event>)
      returns (ghost states: seq<State>, ghost events: seq<Event>)
      requires Valid() && Inv(env, Abs()) && tip in tree && tip != env.genesis
      requires Steps(env, states0, events0) && states0[|events0|] == Abs()
      modifies this`signatures, this`index, this`best, this`irr
      ensures Valid() && Inv(env, Abs()) && tree == old(tree)
      ensures fail.None? ==> Followed(env, old(best), old(irr), Abs(), tip)
      ensures Final(old(Abs()), Abs())
      ensures MoveStep(env, old(Abs()), tip, fail, Abs())
      ensures Steps(env, states, events) && states[0] == states0[0] && states[|events|] == Abs()
      ensures events == events0 + [Move(tip, fail)]
    {
      MoveTo(tip, fail);
      FollowsAppend(StepRel(env), states0, events0, Move(tip, fail), Abs());
      states, events := states0 + [Abs()], events0 + [Move(tip, fail)];
    }
  }

  /** The stored children of `current`, found among the hashes one height up. */
  method ChildrenOf(t: Tree, levels: map<nat, seq<Hash>>, ghost g: Hash, current: Hash) returns (cs: seq<Hash>)
    requires Rooted(t, g) && LevelsExact(t, levels) && current in t
    ensures Distinct(cs) && AllStored(t, cs)
    ensures forall x :: x in cs <==> x in t && x != g && t[x].prev == current
  {
    var hashes := Level(levels, t[current].height + 1);
    LevelAt(t, levels, t[current].height + 1);
    assert Distinct(hashes);
    cs := [];
    for i := 0 to |hashes|
      invariant Distinct(cs) && AllStored(t, cs)
      invariant forall x :: x in cs <==> x in hashes[..i] && t[x].prev == current
    {
      assert hashes[..i + 1] == hashes[..i] + [hashes[i]];
      if t[hashes[i]].prev == current {
        cs := cs + [hashes[i]];
      }
    }
    forall x | x in t && x != g && t[x].prev == current ensures x in hashes {
      assert Linked(t, g, x);
    }
    assert hashes[..|hashes|] == hashes;
  }

  /** The queue holds the found blocks that are not processed yet, once each. */
  ghost predicate Queued(queue: seq<Hash>, done: set<Hash>, found: set<Hash>) {
    && Distinct(queue)
    && (forall x :: x in queue ==> x in found && x !in done)
    && (forall x :: x in found && x !in done ==> x in queue)
  }

  /** Every found block descends from `h` and comes from a processed parent, all children of
      processed blocks are found, and no found block is higher than `tail`. */
  ghost predicate Explored(t: Tree, g: Hash, h: Hash, done: set<Hash>, found: set<Hash>, tail: Hash)
    requires Rooted(t, g) && h in t
  {
    && h in found && tail in found
    && (forall x :: x in found ==> x in t && IsAncestor(t, g, h, x))
    && (forall x :: x in found ==> t[x].height <= t[tail].height)
    && (forall x :: x in found && x != h ==> t[x].prev in done)
    && (forall x :: x in t && x != g && t[x].prev in done ==> x in found)
  }

  lemma {:induction false} QueueStep(queue: seq<Hash>, done: set<Hash>, found: set<Hash>, cs: seq<Hash>, next: set<Hash>)
    requires Queued(queue, done, found) && queue != [] && Distinct(cs)
    requires forall x :: x in cs ==> x !in found && x !in done
    requires forall x :: x in next <==> x in found || x in cs
    ensures Queued(queue[1..] + cs, done + {queue[0]}, next)
  {
    var q := queue[1..] + cs;
    assert queue[0] in queue;
    assert forall x :: x in q <==> x in queue[1..] || x in cs;
    assert forall x :: x in queue <==> x == queue[0] || x in queue[1..];
    assert forall i :: 1 <= i < |queue| ==> queue[i] in queue && queue[i] != queue[0];
    forall i, j | 0 <= i < j < |q| ensures q[i] != q[j] {
      if i < |queue| - 1 <= j {
        assert q[i] == queue[i + 1] && q[j] in cs;
      }
    }
  }

  /** A child of a found but unprocessed block is new. */
  lemma {:induction false} ChildIsNew(t: Tree, g: Hash, h: Hash, done: set<Hash>, found: set<Hash>, tail: Hash, current: Hash, x: Hash)
    requires Rooted(t, g) && h in t && Explored(t, g, h, done, found, tail) && done <= found
    requires current in found && current !in done && x in t && x != g && t[x].prev == current
    ensures x !in found && x !in done && IsAncestor(t, g, h, x) && t[x].height == t[current].height + 1
  {
    assert Linked(t, g, x);
  }

  lemma {:induction false} ExploreStep(t: Tree, g: Hash, h: Hash, done: set<Hash>, found: set<Hash>, tail: Hash, current: Hash, cs: seq<Hash>, next: set<Hash>)
    requires Rooted(t, g) && h in t && Explored(t, g, h, done, found, tail) && done <= found
    requires current in found && current !in done
    requires forall x :: x in cs <==> x in t && x != g && t[x].prev == current
    requires forall x :: x in next <==> x in found || x in cs
    ensures AllStored(t, cs) && tail in t
    ensures Explored(t, g, h, done + {current}, next, if cs != [] && t[tail].height < t[cs[0]].height then cs[0] else tail)
  {
    forall x | x in cs
      ensures x in t && IsAncestor(t, g, h, x) && t[x].height == t[current].height + 1
    {
      ChildIsNew(t, g, h, done, found, tail, current, x);
    }
    forall i | 0 <= i < |cs| ensures cs[i] in t && t[cs[i]].height == t[current].height + 1 {
      var x := Member(cs, i);
      assert x in t;
    }
    assert cs != [] ==> t[cs[0]].height == t[current].height + 1;
    var longest := if cs != [] && t[tail].height < t[cs[0]].height then cs[0] else tail;
    forall x | x in next ensures x in t && IsAncestor(t, g, h, x) && t[x].height <= t[longest].height {
      if x in cs {
        assert t[x].height == t[cs[0]].height;
      }
    }
    forall x | x in next && x != h ensures t[x].prev in done + {current} {
      if x in cs {
        assert t[x].prev == current;
      }
    }
    forall x | x in t && x != g && t[x].prev in done + {current} ensures x in next {
      assert x in found || x in cs;
    }
  }

  /** Breadth-first search for a highest stored descendant of `h`. */
  method TraceLongestChainTail(t: Tree, levels: map<nat, seq<Hash>>, ghost g: Hash, h: Hash) returns (tail: Hash)
    requires Rooted(t, g) && LevelsExact(t, levels) && h in t
    ensures LongestTail(t, g, h, tail)
    ensures tail in t && IsAncestor(t, g, h, tail)
    ensures forall x :: x in t && IsAncestor(t, g, h, x) ==> t[x].height <= t[tail].height
  {
    var queue := [h];
    tail := h;
    ghost var done: set<Hash>, found: set<Hash> := {}, {h};
    while |queue| > 0
      invariant Queued(queue, done, found) && Explored(t, g, h, done, found, tail) && done <= found
      decreases t.Keys - done
    {
      var current := queue[0];
      assert current in queue;
      var cs := ChildrenOf(t, levels, g, current);
      ghost var next := found + set x | x in cs;
      forall x | x in cs ensures x !in found && x !in done {
        ChildIsNew(t, g, h, done, found, tail, current, x);
      }
      QueueStep(queue, done, found, cs, next);
      ExploreStep(t, g, h, done, found, tail, current, cs, next);
      if cs != [] && t[tail].height < t[cs[0]].height {
        tail := cs[0];
      }
      done, found := done + {current}, next;
      queue := queue[1..] + cs;
    }
    forall x | x in t && IsAncestor(t, g, h, x) ensures x in done {
      assert forall y :: y in found ==> y in done;
      DescendantsFound(t, g, h, done, x);
    }
  }

  /** The index part of a chain-status write: entries of the attached blocks are set, those above
      `lo` up to `hi` are deleted. */
  method IndexBatch(t: Tree, index: map<nat, Hash>, attach: seq<Hash>, lo: nat, hi: nat) returns (r: map<nat, Hash>)
    requires AllStored(t, attach)
    ensures r == DropIndex(WriteIndex(t, index, attach), lo, hi)
  {
    r := index;
    for i := 0 to |attach|
      invariant r == WriteIndex(t, index, attach[..i])
    {
      assert attach[..i + 1][..i] == attach[..i];
      r := r[t[attach[i]].height := attach[i]];
    }
    assert attach[..|attach|] == attach;
    var n := lo + 1;
    while n <= hi
      invariant lo < n
      invariant r == DropIndex(WriteIndex(t, index, attach), lo, if n <= hi then n - 1 else hi)
    {
      r := r - {n};
      n := n + 1;
    }
  }

  lemma {:induction false} RaiseIrrFrame(env: Env, t: Tree, s: Signatures, r: Signatures, hs: seq<Hash>, irr: Hash)
    requires s.Keys == t.Keys && r.Keys == t.Keys && irr in t && AllStored(t, hs)
    requires forall h :: h in hs ==> r[h] == s[h]
    ensures RaiseIrr(env, t, s, hs, irr) == RaiseIrr(env, t, r, hs, irr)
    decreases |hs|
  {
    if hs != [] {
      RaiseIrrFrame(env, t, s, r, hs[..|hs| - 1], irr);
    }
  }

  /** One more block of the attach loop, in terms of the blocks before it. */
  lemma {:induction false} AttachOneMore(env: Env, t: Tree, s: Signatures, hs: seq<Hash>, i: nat, irr: Hash)
    requires s.Keys == t.Keys && irr in t && AllStored(t, hs) && Distinct(hs) && i < |hs|
    ensures SignAll(env, t, s, hs[..i + 1]) == SignSelf(env, t, SignAll(env, t, s, hs[..i]), hs[i])
    ensures var before, after := SignAll(env, t, s, hs[..i]), SignAll(env, t, s, hs[..i + 1]);
            var r := RaiseIrr(env, t, before, hs[..i], irr);
            RaiseIrr(env, t, after, hs[..i + 1], irr)
              == if Irreversible(env, t, after, hs[i]) && t[hs[i]].height > t[r].height then hs[i] else r
  {
    assert hs[..i + 1][..i] == hs[..i];
    RaiseIrrFrame(env, t, SignAll(env, t, s, hs[..i]), SignAll(env, t, s, hs[..i + 1]), hs[..i], irr);
  }

  /** The events from number `from` on are the saves of the first `n` listed blocks, in order. */
  ghost predicate Saves(events: seq<Event>, from: nat, subs: seq<(Hash, Block, Witness)>, n: nat) {
    && from + n <= |events| && n <= |subs|
    && forall i :: 0 <= i < n ==> SavesOne(events[from + i], subs[i])
  }

  ghost predicate SavesOne(e: Event, sub: (Hash, Block, Witness)) {
    e.Save? && e.hash == sub.0 && e.block == sub.1 && e.signatures == sub.2
  }

  lemma {:induction false} SavesOneMore(events: seq<Event>, from: nat, subs: seq<(Hash, Block, Witness)>, n: nat, e: Event)
    requires |events| == from + n && n < |subs| && Saves(events, from, subs, n) && SavesOne(e, subs[n])
    ensures Saves(events + [e], from, subs, n + 1)
  {
  }

  /** `t` has grown from `t0`, which holds `h`, and `tip` is a highest block among `h` and the new ones. */
  ghost predicate HighestNew(t0: Tree, t: Tree, h: Hash, tip: Hash) {
    && (forall x :: x in t0 ==> x in t && t[x] == t0[x])
    && tip in t && (tip == h || tip !in t0)
    && forall x :: x in t && (x == h || x !in t0) ==> t[x].height <= t[tip].height
  }

  lemma {:induction false} HighestNewStep(t0: Tree, t: Tree, h: Hash, tip: Hash, sh: Hash, sb: Block)
    requires HighestNew(t0, t, h, tip) && sh !in t
    ensures HighestNew(t0, t[sh := sb], h, if sb.height > t[tip].height then sh else tip)
  {
  }

  /** The loop over the slots so far: the keys in `rest` still have their candidates, the slots of
      all others are good and treated, and slots of no key are untouched. */
  ghost predicate SlotsDone(env: Env, t: Tree, sigs: Signatures, h: Hash, b: Block, w: Witness, waiting: map<Key, Sig>,
                            v: Witness, left: map<Key, Sig>, rest: set<Key>)
    requires sigs.Keys == t.Keys && rest <= env.nodes(b.prev).Keys
  {
    var nodes := env.nodes(b.prev);
    && (forall k {:trigger k in rest} :: k in rest ==> Candidate(nodes, v, left, k) == Candidate(nodes, w, waiting, k))
    && (forall k {:trigger k in nodes} :: k in nodes && k !in rest ==>
          && !BadSignature(env, t, sigs, h, b, w, waiting, k)
          && SlotValidated(env, t, sigs, h, b, w, waiting, v, k))
    && (forall o {:trigger o in v} :: o !in nodes.Values ==> (o in v <==> o in w) && (o in v ==> v[o] == w[o]))
  }

  lemma {:induction false} SlotsStep(env: Env, t: Tree, sigs: Signatures, h: Hash, b: Block, w: Witness, waiting: map<Key, Sig>,
                  v1: Witness, left1: map<Key, Sig>, rest: set<Key>, k: Key, v2: Witness, left2: map<Key, Sig>)
    requires sigs.Keys == t.Keys && rest <= env.nodes(b.prev).Keys && k in rest && Ordered(env.nodes(b.prev))
    requires SlotsDone(env, t, sigs, h, b, w, waiting, v1, left1, rest)
    requires v1 - {env.nodes(b.prev)[k]} == v2 - {env.nodes(b.prev)[k]} && left1 - {k} == left2 - {k}
    requires BadSignature(env, t, sigs, h, b, v1, left1, k) || SlotValidated(env, t, sigs, h, b, v1, left1, v2, k)
    ensures Candidate(env.nodes(b.prev), v1, left1, k) == Candidate(env.nodes(b.prev), w, waiting, k)
    ensures if BadSignature(env, t, sigs, h, b, v1, left1, k)
            then !SignaturesAccepted(env, t, sigs, h, b, w, waiting)
            else SlotsDone(env, t, sigs, h, b, w, waiting, v2, left2, rest - {k})
  {
    SlotFrame(env, t, sigs, h, b, w, waiting, v1, left1, v2, left2, k);
    SameSlot(env, t, sigs, h, b, v1, left1, w, waiting, v2, k);
    if !BadSignature(env, t, sigs, h, b, v1, left1, k) {
      forall l | l in env.nodes(b.prev) && l !in rest - {k}
        ensures !BadSignature(env, t, sigs, h, b, w, waiting, l) && SlotValidated(env, t, sigs, h, b, w, waiting, v2, l)
      {
        assert l != k ==> l !in rest;
      }
    }
  }

  lemma {:induction false} SlotsFinished(env: Env, t: Tree, sigs: Signatures, h: Hash, b: Block, w: Witness, waiting: map<Key, Sig>, v: Witness, left: map<Key, Sig>)
    requires sigs.Keys == t.Keys && SlotsDone(env, t, sigs, h, b, w, waiting, v, left, {})
    ensures Validated(env, t, sigs, h, b, w, waiting, v)
    ensures forall k :: k in env.nodes(b.prev) ==> !BadSignature(env, t, sigs, h, b, w, waiting, k)
  {
  }

  /** Slot checks depend on witness and waiting signatures only through the candidate. */
  lemma {:induction false} SameSlot(env: Env, t: Tree, sigs: Signatures, h: Hash, b: Block, w1: Witness, c1: map<Key, Sig>,
                 w2: Witness, c2: map<Key, Sig>, v: Witness, k: Key)
    requires sigs.Keys == t.Keys && k in env.nodes(b.prev)
    requires Candidate(env.nodes(b.prev), w1, c1, k) == Candidate(env.nodes(b.prev), w2, c2, k)
    ensures BadSignature(env, t, sigs, h, b, w1, c1, k) <==> BadSignature(env, t, sigs, h, b, w2, c2, k)
    ensures SlotValidated(env, t, sigs, h, b, w1, c1, v, k) <==> SlotValidated(env, t, sigs, h, b, w2, c2, v, k)
  {
  }

  /** Treating the slot of key `k` leaves the slots of all other keys as they were. */
  lemma {:induction false} SlotFrame(env: Env, t: Tree, sigs: Signatures, h: Hash, b: Block, w: Witness, cached: map<Key, Sig>,
                  v1: Witness, c1: map<Key, Sig>, v2: Witness, c2: map<Key, Sig>, k: Key)
    requires sigs.Keys == t.Keys && k in env.nodes(b.prev) && Ordered(env.nodes(b.prev))
    requires v1 - {env.nodes(b.prev)[k]} == v2 - {env.nodes(b.prev)[k]} && c1 - {k} == c2 - {k}
    ensures var nodes := env.nodes(b.prev);
            && (forall l :: l in nodes && l != k ==> Candidate(nodes, v1, c1, l) == Candidate(nodes, v2, c2, l))
            && (forall l :: l in nodes && l != k && SlotValidated(env, t, sigs, h, b, w, cached, v1, l)
                  ==> SlotValidated(env, t, sigs, h, b, w, cached, v2, l))
            && (forall o :: o !in nodes.Values ==> (o in v1 <==> o in v2) && (o in v1 ==> v1[o] == v2[o]))
  {
    var o := env.nodes(b.prev)[k];
    forall x | x != o ensures (x in v1 <==> x in v2) && (x in v1 ==> v1[x] == v2[x]) {
      assert x in v1 - {o} <==> x in v2 - {o};
    }
    forall l | l != k ensures (l in c1 <==> l in c2) && (l in c1 ==> c1[l] == c2[l]) {
      assert l in c1 - {k} <==> l in c2 - {k};
    }
  }

  /** A set that holds `h` and is closed under children holds every descendant of `h`. */
  lemma {:induction false} DescendantsFound(t: Tree, g: Hash, h: Hash, done: set<Hash>, x: Hash)
    requires Rooted(t, g) && h in t && h in done && x in t && IsAncestor(t, g, h, x)
    requires forall y :: y in t && y != g && t[y].prev in done ==> y in done
    ensures x in done
    decreases t[x].height
  {
    if x != h {
      assert Linked(t, g, x);
      DescendantsFound(t, g, h, done, t[x].prev);
    }
  }
}
