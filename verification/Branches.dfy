/**
 Where two chains part: the fork height of two blocks, the branches above it and the transactions on them.
 */
module Branches {
  import opened Basics
  import opened BlockTree

  /** The height of the highest common ancestor. */
  ghost predicate IsForkHeight(store: Store, genesis: Hash, a: Hash, b: Hash, c: nat)
    requires Linked(store, genesis) && a in store && b in store
  {
    && c <= store[a].number && c <= store[b].number
    && AncestorAt(store, genesis, a, c) == AncestorAt(store, genesis, b, c)
    && DisjointAbove(store, genesis, a, b, c)
  }

  ghost predicate DisjointAbove(store: Store, genesis: Hash, a: Hash, b: Hash, c: nat)
    requires Linked(store, genesis) && a in store && b in store
  {
    forall k: nat | c < k && k <= store[a].number && k <= store[b].number ::
      AncestorAt(store, genesis, a, k) != AncestorAt(store, genesis, b, k)
  }

  /** The blocks from `h` down to, but not including, height `low`. */
  ghost function Branch(store: Store, genesis: Hash, h: Hash, low: nat): (r: seq<Header>)
    requires Linked(store, genesis) && h in store && low <= store[h].number
    ensures |r| == store[h].number - low
    decreases store[h].number
  {
    assert LinkedAt(store, genesis, h);
    if store[h].number == low then [] else [store[h]] + Branch(store, genesis, store[h].parentHash, low)
  }

  /** The i-th block of a branch is the i-th parent of its tip. */
  lemma {:induction false} BranchAt(store: Store, genesis: Hash, h: Hash, low: nat, i: nat)
    requires Linked(store, genesis) && h in store && low + i < store[h].number
    ensures Branch(store, genesis, h, low)[i] == store[NthParent(store, genesis, h, i)]
    decreases i
  {
    assert LinkedAt(store, genesis, h);
    if i > 0 {
      BranchAt(store, genesis, store[h].parentHash, low, i - 1);
    }
  }

  /** Lowering a branch's end appends the block found there. */
  lemma {:induction false} BranchExtend(store: Store, genesis: Hash, h: Hash, low: nat)
    requires Linked(store, genesis) && h in store && 0 < low <= store[h].number
    ensures Branch(store, genesis, h, low - 1) ==
            Branch(store, genesis, h, low) + [store[AncestorAt(store, genesis, h, low)]]
    decreases store[h].number
  {
    assert LinkedAt(store, genesis, h);
    if store[h].number > low {
      var p := store[h].parentHash;
      BranchExtend(store, genesis, p, low);
      AncestorOfParent(store, genesis, h, low);
    }
  }

  /** The concatenated transactions of a list of blocks. */
  ghost function TxsOf(blocks: seq<Header>): seq<TxId> {
    if blocks == [] then [] else TxsOf(blocks[..|blocks| - 1]) + blocks[|blocks| - 1].txs
  }

  lemma TxsOfAppend(blocks: seq<Header>, b: Header)
    ensures TxsOf(blocks + [b]) == TxsOf(blocks) + b.txs
  {
    assert (blocks + [b])[..|blocks|] == blocks;
  }

  /** Some block of the list carries the transaction. */
  ghost predicate OnBranch(blocks: seq<Header>, t: TxId) {
    exists i :: 0 <= i < |blocks| && t in blocks[i].txs
  }

  lemma OnBranchJoin(front: seq<Header>, back: seq<Header>, t: TxId)
    ensures OnBranch(front + back, t) <==> OnBranch(front, t) || OnBranch(back, t)
  {
    var all := front + back;
    if OnBranch(front, t) {
      var i :| 0 <= i < |front| && t in front[i].txs;
      assert all[i] == front[i];
    }
    if OnBranch(back, t) {
      var i :| 0 <= i < |back| && t in back[i].txs;
      assert all[|front| + i] == back[i];
    }
    if OnBranch(all, t) {
      var i :| 0 <= i < |all| && t in all[i].txs;
      assert all[i] == if i < |front| then front[i] else back[i - |front|];
    }
  }

  lemma OnBranchOne(b: Header, t: TxId)
    ensures OnBranch([b], t) <==> t in b.txs
  {
    assert [b][0] == b;
  }

  lemma {:induction false} InTxsOf(blocks: seq<Header>, t: TxId)
    ensures t in TxsOf(blocks) <==> OnBranch(blocks, t)
    decreases |blocks|
  {
    if blocks != [] {
      var front, last := blocks[..|blocks| - 1], blocks[|blocks| - 1];
      assert blocks == front + [last];
      InTxsOf(front, t);
      OnBranchJoin(front, [last], t);
      OnBranchOne(last, t);
    }
  }

  /** The elements of `a`, in order, that do not occur in `b`. */
  ghost function Difference(a: seq<TxId>, b: seq<TxId>): seq<TxId> {
    if a == [] then []
    else
      var rest := Difference(a[..|a| - 1], b);
      if a[|a| - 1] in b then rest else rest + [a[|a| - 1]]
  }

  lemma {:induction false} InDifference(a: seq<TxId>, b: seq<TxId>, t: TxId)
    ensures t in Difference(a, b) <==> t in a && t !in b
    decreases |a|
  {
    if a != [] {
      InDifference(a[..|a| - 1], b, t);
      assert a == a[..|a| - 1] + [a[|a| - 1]];
    }
  }

  /** The order stays: what is left of two lists one after the other is what is left of each, in that order. */
  lemma {:induction false} DifferenceKeepsOrder(a: seq<TxId>, more: seq<TxId>, b: seq<TxId>)
    ensures Difference(a + more, b) == Difference(a, b) + Difference(more, b)
    ensures Difference(a, []) == a
    decreases |a| + |more|
  {
    if more != [] {
      var front, last := more[..|more| - 1], more[|more| - 1];
      DifferenceKeepsOrder(a, front, b);
      assert (a + more)[..|a + more| - 1] == a + front;
    } else {
      assert a + more == a;
      if a != [] {
        DifferenceKeepsOrder(a[..|a| - 1], [], b);
        assert a == a[..|a| - 1] + [a[|a| - 1]];
      }
    }
  }

  method TxDifference(a: seq<TxId>, b: seq<TxId>) returns (keep: seq<TxId>)
    ensures keep == Difference(a, b)
  {
    keep := [];
    var remove: set<TxId> := {};
    for i := 0 to |b|
      invariant forall t :: t in remove <==> t in b[..i]
    {
      remove := remove + {b[i]};
    }
    assert b[..|b|] == b;
    for i := 0 to |a|
      invariant keep == Difference(a[..i], b)
    {
      assert a[..i + 1][..i] == a[..i];
      if a[i] !in remove {
        keep := keep + [a[i]];
      }
    }
    assert a[..|a|] == a;
  }

  /** One step down keeps the two walks apart. */
  lemma DisjointStep(store: Store, genesis: Hash, a: Hash, b: Hash, c: nat)
    requires Linked(store, genesis) && a in store && b in store
    requires 0 < c <= store[a].number && c <= store[b].number
    requires DisjointAbove(store, genesis, a, b, c)
    requires AncestorAt(store, genesis, a, c) != AncestorAt(store, genesis, b, c)
    ensures DisjointAbove(store, genesis, a, b, c - 1)
  {
  }

  /** Two blocks have only one fork height. */
  lemma ForkHeightUnique(store: Store, genesis: Hash, a: Hash, b: Hash, c: nat, d: nat)
    requires Linked(store, genesis) && a in store && b in store
    requires IsForkHeight(store, genesis, a, b, c) && IsForkHeight(store, genesis, a, b, d)
    ensures c == d
  {
  }

  /**
   The walk of a chain reorganisation: first level the longer side, then step both sides down together
   until they meet. Both branches come back with the tip first.
   */
  method FindFork(store: Store, ghost genesis: Hash, oldHash: Hash, newHash: Hash)
      returns (oldChain: seq<Header>, newChain: seq<Header>, commonNumber: nat)
    requires Linked(store, genesis) && oldHash in store && newHash in store
    ensures IsForkHeight(store, genesis, oldHash, newHash, commonNumber)
    ensures oldChain == Branch(store, genesis, oldHash, commonNumber)
    ensures newChain == Branch(store, genesis, newHash, commonNumber)
  {
    var oldBlock, newBlock := store[oldHash], store[newHash];
    assert LinkedAt(store, genesis, oldHash) && LinkedAt(store, genesis, newHash);
    var target := if oldBlock.number < newBlock.number then oldBlock.number else newBlock.number;
    oldBlock, oldChain := Descend(store, genesis, oldHash, target);
    newBlock, newChain := Descend(store, genesis, newHash, target);
    commonNumber := target;
    while oldBlock.hash != newBlock.hash
      invariant commonNumber <= store[oldHash].number && commonNumber <= store[newHash].number
      invariant oldBlock == store[AncestorAt(store, genesis, oldHash, commonNumber)]
      invariant newBlock == store[AncestorAt(store, genesis, newHash, commonNumber)]
      invariant oldBlock.hash == AncestorAt(store, genesis, oldHash, commonNumber)
      invariant newBlock.hash == AncestorAt(store, genesis, newHash, commonNumber)
      invariant oldChain == Branch(store, genesis, oldHash, commonNumber)
      invariant newChain == Branch(store, genesis, newHash, commonNumber)
      invariant DisjointAbove(store, genesis, oldHash, newHash, commonNumber)
      decreases commonNumber
    {
      AncestorAtZero(store, genesis, oldHash);
      AncestorAtZero(store, genesis, newHash);
      DisjointStep(store, genesis, oldHash, newHash, commonNumber);
      oldBlock, oldChain := StepDown(store, genesis, oldHash, oldBlock, oldChain);
      newBlock, newChain := StepDown(store, genesis, newHash, newBlock, newChain);
      commonNumber := commonNumber - 1;
    }
  }

  /** Stashes the current block of a branch and moves to its parent, which a linked store always has. */
  method StepDown(store: Store, ghost genesis: Hash, ghost tip: Hash, block: Header, chain: seq<Header>)
      returns (next: Header, chain': seq<Header>)
    requires Linked(store, genesis) && tip in store && 0 < block.number <= store[tip].number
    requires block.hash == AncestorAt(store, genesis, tip, block.number) && block == store[block.hash]
    requires chain == Branch(store, genesis, tip, block.number)
    ensures next.number == block.number - 1
    ensures next.hash == AncestorAt(store, genesis, tip, next.number) && next == store[next.hash]
    ensures chain' == Branch(store, genesis, tip, next.number)
  {
    assert LinkedAt(store, genesis, block.hash);
    assert LinkedAt(store, genesis, block.parentHash);
    BranchExtend(store, genesis, tip, block.number);
    ParentIsAncestor(store, genesis, tip, block.number);
    chain' := chain + [block];
    var parent := GetHeader(store, block.parentHash, block.number - 1);
    assert parent.Some?;
    next := parent.value;
  }

  /** Stashes blocks from the tip down to a target height. */
  method Descend(store: Store, ghost genesis: Hash, tip: Hash, target: nat)
      returns (block: Header, chain: seq<Header>)
    requires Linked(store, genesis) && tip in store && target <= store[tip].number
    ensures block.hash == AncestorAt(store, genesis, tip, target) && block == store[block.hash]
    ensures chain == Branch(store, genesis, tip, target)
  {
    assert LinkedAt(store, genesis, tip);
    block, chain := store[tip], [];
    while block.number != target
      invariant target <= block.number <= store[tip].number
      invariant block.hash == AncestorAt(store, genesis, tip, block.number) && block == store[block.hash]
      invariant chain == Branch(store, genesis, tip, block.number)
      decreases block.number
    {
      block, chain := StepDown(store, genesis, tip, block, chain);
    }
  }
}
