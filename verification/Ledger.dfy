/** Ledgers that follow the chain block by block: the vote result and the sub-protocols.
    Whatever block a ledger stands at, moving it to a target block gives the state obtained by
    applying the target's blocks from genesis. */
module Ledger {
  import opened Options
  import opened BlockTree
  import opened ChainState
  import opened ChainSafety

  /** What a ledger does to its contents for one block; `None` is an error. */
  datatype Ops<!S> = Ops(start: S, apply: (S, Hash) -> Option<S>, detach: (S, Hash) -> Option<S>)

  /** A ledger's contents together with the block it stands at. */
  datatype Position<S> = Position(tip: Hash, body: S)

  ghost predicate Undoes<S(!new)>(l: Ops<S>) {
    forall s, h {:trigger l.apply(s, h)} :: l.apply(s, h).Some? ==> l.detach(l.apply(s, h).value, h) == Some(s)
  }

  /** The contents after applying all blocks from genesis up to `h`. */
  ghost function Fold<S>(l: Ops<S>, t: Tree, g: Hash, h: Hash): (r: Option<S>)
    requires Rooted(t, g) && h in t
    decreases t[h].height
  {
    if h == g then Some(l.start) else
    assert Linked(t, g, h);
    var s := Fold(l, t, g, t[h].prev);
    if s.None? then None else l.apply(s.value, h)
  }

  ghost predicate StandsAt<S>(l: Ops<S>, t: Tree, g: Hash, p: Position<S>)
    requires Rooted(t, g)
  {
    p.tip in t && Fold(l, t, g, p.tip) == Some(p.body)
  }

  /** The position a ledger should have at `h`, if every block up to `h` applies. */
  ghost function Expected<S>(l: Ops<S>, t: Tree, g: Hash, h: Hash): (r: Option<Position<S>>)
    requires Rooted(t, g) && h in t
  {
    if Fold(l, t, g, h).None? then None else Some(Position(h, Fold(l, t, g, h).value))
  }

  /** A block applies only on top of its parent. */
  function ApplyBlock<S>(l: Ops<S>, t: Tree, p: Position<S>, h: Hash): (r: Option<Position<S>>)
    requires h in t
  {
    if p.tip != t[h].prev then None
    else match l.apply(p.body, h)
      case None => None
      case Some(s) => Some(Position(h, s))
  }

  /** Only the block the ledger stands at can be detached. */
  function DetachBlock<S>(l: Ops<S>, t: Tree, p: Position<S>, h: Hash): (r: Option<Position<S>>)
    requires h in t
  {
    if p.tip != h then None
    else match l.detach(p.body, h)
      case None => None
      case Some(s) => Some(Position(t[h].prev, s))
  }

  /** A block that applied is detached again to where the ledger stood, and to nothing else: another
      block does not apply there, and no other one can be detached. */
  lemma {:induction false} ApplyThenDetach<S(!new)>(l: Ops<S>, t: Tree, p: Position<S>, h: Hash, x: Hash)
    requires Undoes(l) && h in t && x in t
    ensures ApplyBlock(l, t, p, h).Some? <==> p.tip == t[h].prev && l.apply(p.body, h).Some?
    ensures ApplyBlock(l, t, p, h).Some? ==> DetachBlock(l, t, ApplyBlock(l, t, p, h).value, h) == Some(p)
    ensures ApplyBlock(l, t, p, h).Some? && x != h ==> DetachBlock(l, t, ApplyBlock(l, t, p, h).value, x).None?
  {
    if ApplyBlock(l, t, p, h).Some? {
      assert l.apply(p.body, h).Some?;
    }
  }

  /** Detaching the tip steps back along the fold. */
  lemma {:induction false} DetachStepsBack<S(!new)>(l: Ops<S>, t: Tree, g: Hash, p: Position<S>)
    requires Rooted(t, g) && Undoes(l) && StandsAt(l, t, g, p) && p.tip != g
    ensures var r := DetachBlock(l, t, p, p.tip);
            r.Some? && r.value.tip == t[p.tip].prev && StandsAt(l, t, g, r.value)
  {
    assert Linked(t, g, p.tip);
    assert l.apply(Fold(l, t, g, t[p.tip].prev).value, p.tip) == Some(p.body);
  }

  /** Applying a child steps forward along the fold. */
  lemma {:induction false} ApplyStepsForward<S>(l: Ops<S>, t: Tree, g: Hash, p: Position<S>, h: Hash)
    requires Rooted(t, g) && StandsAt(l, t, g, p) && h in t && h != g && t[h].prev == p.tip
    ensures ApplyBlock(l, t, p, h) == Expected(l, t, g, h)
  {
  }

  /** A fold that reaches a block also reaches its ancestors. */
  lemma {:induction false} FoldPrefix<S>(l: Ops<S>, t: Tree, g: Hash, h: Hash, n: nat)
    requires Rooted(t, g) && h in t && n <= t[h].height && Fold(l, t, g, h).Some?
    ensures Fold(l, t, g, Ancestor(t, g, h, n)).Some?
    decreases t[h].height
  {
    if t[h].height != n {
      assert Linked(t, g, h);
      FoldPrefix(l, t, g, t[h].prev, n);
    }
  }

  /** Consecutive blocks of a branch are parent and child. */
  lemma {:induction false} BranchConsecutive(t: Tree, g: Hash, h: Hash, n: nat)
    requires Rooted(t, g) && h in t && n < t[h].height
    ensures Ancestor(t, g, h, n + 1) != g
    ensures t[Ancestor(t, g, h, n + 1)].prev == Ancestor(t, g, h, n)
  {
    var a := Ancestor(t, g, h, n + 1);
    assert Linked(t, g, a);
    AncestorCompose(t, g, h, n + 1, n);
  }

  /** Detach the blocks above height `lo`, highest first. */
  method DetachDown<S(!new)>(l: Ops<S>, t: Tree, ghost g: Hash, p: Position<S>, detach: seq<Hash>, ghost lo: nat) returns (r: Option<Position<S>>)
    requires Rooted(t, g) && Undoes(l) && StandsAt(l, t, g, p) && lo <= t[p.tip].height
    requires detach == Unwind(t, g, p.tip, lo)
    ensures r.Some? && StandsAt(l, t, g, r.value) && r.value.tip == Ancestor(t, g, p.tip, lo)
  {
    r := Some(p);
    for i := 0 to |detach|
      invariant r.Some? && StandsAt(l, t, g, r.value)
      invariant lo <= t[r.value.tip].height && detach[i..] == Unwind(t, g, r.value.tip, lo)
      invariant Ancestor(t, g, r.value.tip, lo) == Ancestor(t, g, p.tip, lo)
    {
      assert Linked(t, g, r.value.tip);
      DetachStepsBack(l, t, g, r.value);
      r := DetachBlock(l, t, r.value, detach[i]);
    }
  }

  /** Apply the blocks above the ledger's tip up to `target`, lowest first. */
  method ApplyUp<S>(l: Ops<S>, t: Tree, ghost g: Hash, p: Position<S>, attach: seq<Hash>, ghost target: Hash) returns (r: Option<Position<S>>)
    requires Rooted(t, g) && StandsAt(l, t, g, p) && target in t && IsAncestor(t, g, p.tip, target)
    requires attach == Branch(t, g, target, t[p.tip].height)
    ensures r == Expected(l, t, g, target)
  {
    r := Some(p);
    BranchAt(t, g, target, t[p.tip].height);
    for i := 0 to |attach|
      invariant r.Some? && StandsAt(l, t, g, r.value)
      invariant r.value.tip == Ancestor(t, g, target, t[p.tip].height + i)
    {
      ghost var n := t[p.tip].height + i;
      BranchConsecutive(t, g, target, n);
      ApplyStepsForward(l, t, g, r.value, attach[i]);
      if Fold(l, t, g, target).Some? {
        FoldPrefix(l, t, g, target, n + 1);
      }
      r := ApplyBlock(l, t, r.value, attach[i]);
      if r.None? {
        return;
      }
    }
  }

  /** Carry a vote result from the block it stands at to `target`. It fails exactly when a block
      on the target's path does not apply, and otherwise depends on the target alone. */
  method ReorganizeConsensusResult<S(!new)>(l: Ops<S>, t: Tree, ghost g: Hash, p: Position<S>, target: Hash) returns (r: Option<Position<S>>)
    requires Rooted(t, g) && Undoes(l) && StandsAt(l, t, g, p) && target in t
    ensures r == Expected(l, t, g, target)
  {
    var attach, detach := CalcReorganizeChain(t, g, target, p.tip);
    ghost var f := ForkHeight(t, g, target, p.tip);
    ForkIsLowestCommonAncestor(t, g, target, p.tip, f);
    r := DetachDown(l, t, g, p, detach, f);
    r := ApplyUp(l, t, g, r.value, attach, target);
  }

  // ----- ledgers that start at a later block

  /** The contents after applying the blocks above `b` up to `h`. */
  ghost function FoldFrom<S>(l: Ops<S>, t: Tree, g: Hash, b: Position<S>, h: Hash): (r: Option<S>)
    requires Rooted(t, g) && h in t
    decreases t[h].height
  {
    if h == b.tip then Some(b.body)
    else if h == g then None else
    assert Linked(t, g, h);
    var s := FoldFrom(l, t, g, b, t[h].prev);
    if s.None? then None else l.apply(s.value, h)
  }

  /** From genesis on this is the fold. */
  lemma {:induction false} FoldFromGenesis<S>(l: Ops<S>, t: Tree, g: Hash, h: Hash)
    requires Rooted(t, g) && h in t
    ensures FoldFrom(l, t, g, Position(g, l.start), h) == Fold(l, t, g, h)
    decreases t[h].height
  {
    if h != g {
      assert Linked(t, g, h);
      FoldFromGenesis(l, t, g, t[h].prev);
    }
  }

  lemma {:induction false} FoldFromPrefix<S>(l: Ops<S>, t: Tree, g: Hash, b: Position<S>, h: Hash, n: nat)
    requires Rooted(t, g) && h in t && b.tip in t && t[b.tip].height <= n <= t[h].height && FoldFrom(l, t, g, b, h).Some?
    ensures FoldFrom(l, t, g, b, Ancestor(t, g, h, n)).Some?
    decreases t[h].height
  {
    if n < t[h].height {
      assert Linked(t, g, h);
      FoldFromPrefix(l, t, g, b, t[h].prev, n);
    }
  }

  lemma {:induction false} FoldFromStep<S>(l: Ops<S>, t: Tree, g: Hash, b: Position<S>, p: Position<S>, h: Hash)
    requires Rooted(t, g) && p.tip in t && FoldFrom(l, t, g, b, p.tip) == Some(p.body)
    requires h in t && h != g && h != b.tip && t[h].prev == p.tip
    ensures FoldFrom(l, t, g, b, h) == l.apply(p.body, h)
  {
    assert Linked(t, g, h);
  }

  /** Apply the blocks of the main chain above the ledger's tip. */
  method ApplyMain<S>(l: Ops<S>, t: Tree, ghost g: Hash, index: map<nat, Hash>, best: Hash, p0: Position<S>, ghost b: Position<S>)
    returns (r: Option<Position<S>>)
    requires Rooted(t, g) && best in t && IndexExact(t, g, index, best)
    requires p0.tip in t && b.tip in t && t[b.tip].height <= t[p0.tip].height && FoldFrom(l, t, g, b, p0.tip) == Some(p0.body)
    requires IsAncestor(t, g, p0.tip, best)
    ensures r.None? <==> FoldFrom(l, t, g, b, best).None?
    ensures r.Some? ==> r.value == Position(best, FoldFrom(l, t, g, b, best).value)
  {
    var p, height := p0, t[p0.tip].height + 1;
    while height <= t[best].height
      invariant t[b.tip].height < height <= t[best].height + 1
      invariant p.tip in t && p.tip == Ancestor(t, g, best, height - 1) && FoldFrom(l, t, g, b, p.tip) == Some(p.body)
    {
      BranchConsecutive(t, g, best, height - 1);
      assert t[index[height]].height == height;
      FoldFromStep(l, t, g, b, p, index[height]);
      if FoldFrom(l, t, g, b, best).Some? {
        FoldFromPrefix(l, t, g, b, best, height);
      }
      var next := ApplyBlock(l, t, p, index[height]);
      if next.None? {
        return None;
      }
      p := next.value;
      height := height + 1;
    }
    r := Some(p);
  }

  /** Go back to the main chain. */
  method DetachToMain<S(!new)>(l: Ops<S>, t: Tree, ghost g: Hash, index: map<nat, Hash>, ghost best: Hash, p0: Position<S>) returns (p: Position<S>)
    requires Rooted(t, g) && Undoes(l) && best in t && IndexExact(t, g, index, best) && StandsAt(l, t, g, p0)
    ensures StandsAt(l, t, g, p) && InMainChain(t, index, p.tip)
  {
    p := p0;
    while !InMainChain(t, index, p.tip)
      invariant StandsAt(l, t, g, p)
      decreases t[p.tip].height
    {
      assert Linked(t, g, p.tip);
      GenesisIsAncestor(t, g, best);
      DetachStepsBack(l, t, g, p);
      p := DetachBlock(l, t, p, p.tip).value;
    }
  }

  /** Carry a sub-protocol to the best block of the main chain. An uninitialised one starts at the
      main-chain block of its start height, with what it makes of that block; below that height
      nothing happens. */
  method SyncProtocolStatus<S(!new)>(l: Ops<S>, init: Hash -> S, t: Tree, ghost g: Hash, index: map<nat, Hash>, best: Hash,
                               startHeight: nat, status: Option<Position<S>>) returns (r: Option<Position<S>>, failed: bool)
    requires Rooted(t, g) && Undoes(l) && best in t && IndexExact(t, g, index, best)
    requires status.Some? ==> StandsAt(l, t, g, status.value)
    ensures t[best].height < startHeight ==> r == status && !failed
    ensures startHeight <= t[best].height && status.Some? ==>
              (failed <==> Fold(l, t, g, best).None?) && (!failed ==> r == Expected(l, t, g, best))
    ensures startHeight <= t[best].height && status.None? ==>
              var start := Ancestor(t, g, best, startHeight);
              var end := FoldFrom(l, t, g, Position(start, init(start)), best);
              (failed <==> end.None?) && (!failed ==> r == Some(Position(best, end.value)))
  {
    r, failed := status, false;
    if t[best].height < startHeight {
      return;
    }
    if status.Some? {
      FoldFromGenesis(l, t, g, best);
      var p := DetachToMain(l, t, g, index, best, status.value);
      FoldFromGenesis(l, t, g, p.tip);
      r := ApplyMain(l, t, g, index, best, p, Position(g, l.start));
    } else {
      var p := Position(index[startHeight], init(index[startHeight]));
      AncestorCompose(t, g, best, startHeight, startHeight);
      r := ApplyMain(l, t, g, index, best, p, p);
    }
    failed := r.None?;
  }
}
