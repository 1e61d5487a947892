/** The tree of stored blocks: ancestors, branches and the fork point of two blocks.
    A hash commits to every header field except the witness, so a tree maps each
    hash to the fields it commits to; witnesses are kept beside the tree. */
module BlockTree {

  /** A block hash, treated as an injective identifier. */
  type Hash = int

  datatype Block = Block(height: nat, prev: Hash, timestamp: nat)

  type Tree = map<Hash, Block>

  /** Block `h` hangs off a stored parent that is one lower (the genesis block does not). */
  ghost predicate Linked(t: Tree, g: Hash, h: Hash)
    requires h in t
  {
    h != g ==> t[h].prev in t && t[h].height == t[t[h].prev].height + 1
  }

  ghost predicate Rooted(t: Tree, g: Hash) {
    && g in t
    && t[g].height == 0
    && forall h {:trigger Linked(t, g, h)} :: h in t ==> Linked(t, g, h)
  }

  /** The ancestor-or-self of `h` at height `n`. */
  ghost function Ancestor(t: Tree, g: Hash, h: Hash, n: nat): (a: Hash)
    requires Rooted(t, g) && h in t && n <= t[h].height
    ensures a in t && t[a].height == n
    decreases t[h].height
  {
    if t[h].height == n then h else
    assert Linked(t, g, h);
    Ancestor(t, g, t[h].prev, n)
  }

  ghost predicate IsAncestor(t: Tree, g: Hash, a: Hash, h: Hash)
    requires Rooted(t, g) && a in t && h in t
  {
    t[a].height <= t[h].height && Ancestor(t, g, h, t[a].height) == a
  }

  lemma {:induction false} AncestorCompose(t: Tree, g: Hash, h: Hash, m: nat, n: nat)
    requires Rooted(t, g) && h in t && n <= m <= t[h].height
    ensures Ancestor(t, g, Ancestor(t, g, h, m), n) == Ancestor(t, g, h, n)
    decreases t[h].height
  {
    if t[h].height != m {
      assert Linked(t, g, h);
      AncestorCompose(t, g, t[h].prev, m, n);
    }
  }

  /** Adding blocks never changes the ancestors of blocks that were there. */
  lemma {:induction false} AncestorGrow(t: Tree, u: Tree, g: Hash, h: Hash, n: nat)
    requires Rooted(t, g) && Rooted(u, g) && h in t && n <= t[h].height
    requires forall x :: x in t ==> x in u && u[x] == t[x]
    ensures Ancestor(u, g, h, n) == Ancestor(t, g, h, n)
    decreases t[h].height
  {
    if t[h].height != n {
      assert Linked(t, g, h);
      AncestorGrow(t, u, g, t[h].prev, n);
    }
  }

  lemma {:induction false} GenesisIsAncestor(t: Tree, g: Hash, h: Hash)
    requires Rooted(t, g) && h in t
    ensures Ancestor(t, g, h, 0) == g
    decreases t[h].height
  {
    assert Linked(t, g, h);
    if h != g {
      GenesisIsAncestor(t, g, t[h].prev);
    }
  }

  predicate AllStored(t: Tree, hs: seq<Hash>) {
    forall i :: 0 <= i < |hs| ==> hs[i] in t
  }

  /** The blocks above height `lo` on the way up to `h`, lowest first. */
  ghost function Branch(t: Tree, g: Hash, h: Hash, lo: nat): (s: seq<Hash>)
    requires Rooted(t, g) && h in t && lo <= t[h].height
    ensures AllStored(t, s) && |s| == t[h].height - lo
    decreases t[h].height
  {
    if t[h].height == lo then [] else
    assert Linked(t, g, h);
    Branch(t, g, t[h].prev, lo) + [h]
  }

  /** The same blocks, highest first. */
  ghost function Unwind(t: Tree, g: Hash, h: Hash, lo: nat): (s: seq<Hash>)
    requires Rooted(t, g) && h in t && lo <= t[h].height
    ensures AllStored(t, s) && |s| == t[h].height - lo
    decreases t[h].height
  {
    if t[h].height == lo then [] else
    assert Linked(t, g, h);
    [h] + Unwind(t, g, t[h].prev, lo)
  }

  lemma {:induction false} BranchAt(t: Tree, g: Hash, h: Hash, lo: nat)
    requires Rooted(t, g) && h in t && lo <= t[h].height
    ensures forall i :: 0 <= i < t[h].height - lo ==> Branch(t, g, h, lo)[i] == Ancestor(t, g, h, lo + 1 + i)
    decreases t[h].height
  {
    if t[h].height != lo {
      assert Linked(t, g, h);
      BranchAt(t, g, t[h].prev, lo);
    }
  }

  lemma {:induction false} UnwindAt(t: Tree, g: Hash, h: Hash, lo: nat)
    requires Rooted(t, g) && h in t && lo <= t[h].height
    ensures forall i :: 0 <= i < t[h].height - lo ==> Unwind(t, g, h, lo)[i] == Ancestor(t, g, h, t[h].height - i)
    decreases t[h].height
  {
    if t[h].height != lo {
      assert Linked(t, g, h);
      var rest := Unwind(t, g, t[h].prev, lo);
      UnwindAt(t, g, t[h].prev, lo);
      forall i | 0 <= i < t[h].height - lo
        ensures Unwind(t, g, h, lo)[i] == Ancestor(t, g, h, t[h].height - i)
      {
        if i > 0 {
          assert Unwind(t, g, h, lo)[i] == rest[i - 1];
        }
      }
    }
  }

  /** The height at which the parent paths of `a` and `b` join, found by stepping the
      higher block (both, when level) down to its parent. */
  ghost function ForkHeight(t: Tree, g: Hash, a: Hash, b: Hash): (n: nat)
    requires Rooted(t, g) && a in t && b in t
    ensures n <= t[a].height && n <= t[b].height
    decreases t[a].height + t[b].height
  {
    if a == b then t[a].height else
    assert Linked(t, g, a) && Linked(t, g, b);
    if t[a].height > t[b].height then ForkHeight(t, g, t[a].prev, b)
    else if t[a].height < t[b].height then ForkHeight(t, g, a, t[b].prev)
    else ForkHeight(t, g, t[a].prev, t[b].prev)
  }

  /** The fork height marks the lowest common ancestor: at a common height the two
      paths agree exactly when that height is not above it. */
  lemma {:induction false} ForkIsLowestCommonAncestor(t: Tree, g: Hash, a: Hash, b: Hash, n: nat)
    requires Rooted(t, g) && a in t && b in t
    requires n <= t[a].height && n <= t[b].height
    ensures Ancestor(t, g, a, n) == Ancestor(t, g, b, n) <==> n <= ForkHeight(t, g, a, b)
    decreases t[a].height + t[b].height
  {
    assert Linked(t, g, a) && Linked(t, g, b);
    if a == b {
    } else if t[a].height > t[b].height {
      ForkIsLowestCommonAncestor(t, g, t[a].prev, b, n);
    } else if t[a].height < t[b].height {
      ForkIsLowestCommonAncestor(t, g, a, t[b].prev, n);
    } else if n < t[a].height {
      ForkIsLowestCommonAncestor(t, g, t[a].prev, t[b].prev, n);
    }
  }

  /** A child forks from its parent at the parent: nothing to unwind, one block to attach. */
  lemma {:induction false} ForkWithParent(t: Tree, g: Hash, a: Hash)
    requires Rooted(t, g) && a in t && a != g
    ensures t[a].prev in t
    ensures ForkHeight(t, g, a, t[a].prev) == t[a].height - 1
    ensures Branch(t, g, a, t[a].height - 1) == [a]
    ensures Unwind(t, g, t[a].prev, t[a].height - 1) == []
  {
    assert Linked(t, g, a);
  }

  /** The two lists a reorganisation works with: the branch to attach, lowest first, and
      the branch to detach, highest first, both hanging off the fork point. */
  method CalcReorganizeChain(t: Tree, ghost g: Hash, beginAttach: Hash, beginDetach: Hash)
    returns (attach: seq<Hash>, detach: seq<Hash>)
    requires Rooted(t, g) && beginAttach in t && beginDetach in t
    ensures attach == Branch(t, g, beginAttach, ForkHeight(t, g, beginAttach, beginDetach))
    ensures detach == Unwind(t, g, beginDetach, ForkHeight(t, g, beginAttach, beginDetach))
  {
    attach, detach := [], [];
    var a, b := beginAttach, beginDetach;
    ghost var f := ForkHeight(t, g, a, b);
    while b != a
      invariant a in t && b in t && ForkHeight(t, g, a, b) == f
      invariant f <= t[a].height <= t[beginAttach].height && f <= t[b].height <= t[beginDetach].height
      invariant Branch(t, g, beginAttach, f) == Branch(t, g, a, f) + attach
      invariant Unwind(t, g, beginDetach, f) == detach + Unwind(t, g, b, f)
      decreases t[a].height + t[b].height
    {
      assert Linked(t, g, a) && Linked(t, g, b);
      var attachRollback := t[a].height >= t[b].height;
      var detachRollback := t[a].height <= t[b].height;
      if attachRollback {
        attach := [a] + attach;
      }
      if detachRollback {
        detach := detach + [b];
      }
      if attachRollback && detachRollback {
        a, b := t[a].prev, t[b].prev;
      } else if attachRollback {
        a := t[a].prev;
      } else {
        b := t[b].prev;
      }
    }
  }
}
