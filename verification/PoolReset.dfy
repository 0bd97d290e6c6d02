/**
 Which transactions the pool takes back when the chain head moves to another branch.
 */
module PoolResets {
  import opened Basics
  import opened BlockTree
  import opened Branches
  import opened BlockChains

  const MAX_REORG_DEPTH: nat := 64

  /** The old branch's transactions, in walking order, without the new branch's. */
  ghost function Dropped(store: Store, genesis: Hash, oldHash: Hash, newHash: Hash, c: nat): seq<TxId>
    requires Linked(store, genesis) && oldHash in store && newHash in store
    requires c <= store[oldHash].number && c <= store[newHash].number
  {
    Difference(TxsOf(Branch(store, genesis, oldHash, c)), TxsOf(Branch(store, genesis, newHash, c)))
  }

  /** Collects the transactions of the blocks from a tip down to a height. */
  method Gather(store: Store, ghost genesis: Hash, ghost tip: Hash, block: Header, txs: seq<TxId>, target: nat)
      returns (next: Header, txs': seq<TxId>)
    requires Linked(store, genesis) && tip in store && target <= block.number <= store[tip].number
    requires block.hash == AncestorAt(store, genesis, tip, block.number) && block == store[block.hash]
    requires txs == TxsOf(Branch(store, genesis, tip, block.number))
    ensures next.number == target
    ensures next.hash == AncestorAt(store, genesis, tip, target) && next == store[next.hash]
    ensures txs' == TxsOf(Branch(store, genesis, tip, target))
  {
    next, txs' := block, txs;
    while next.number > target
      invariant target <= next.number <= store[tip].number
      invariant next.hash == AncestorAt(store, genesis, tip, next.number) && next == store[next.hash]
      invariant txs' == TxsOf(Branch(store, genesis, tip, next.number))
      decreases next.number
    {
      assert LinkedAt(store, genesis, next.hash);
      assert LinkedAt(store, genesis, next.parentHash);
      BranchExtend(store, genesis, tip, next.number);
      ParentIsAncestor(store, genesis, tip, next.number);
      TxsOfAppend(Branch(store, genesis, tip, next.number), next);
      txs' := txs' + next.txs;
      next := store[next.parentHash];
    }
  }

  /**
   The transactions to reinject when the head moves from `oldHead` to `newHead`; None when the old head is no
   longer stored, in which case the reset is abandoned.
   */
  method Reinject(store: Store, ghost genesis: Hash, oldHead: Option<Header>, newHead: Header)
      returns (r: Option<seq<TxId>>, ghost c: nat)
    requires Linked(store, genesis) && newHead.hash in store && store[newHead.hash] == newHead
    requires oldHead.Some? && oldHead.value.hash in store ==> store[oldHead.value.hash] == oldHead.value
    ensures oldHead.None? || oldHead.value.hash == newHead.parentHash
            || oldHead.value.number > newHead.number + 64 || newHead.number > oldHead.value.number + 64 ==>
              r == Some([])
    ensures oldHead.Some? && oldHead.value.hash != newHead.parentHash
            && oldHead.value.number <= newHead.number + 64 && newHead.number <= oldHead.value.number + 64 ==>
              if oldHead.value.hash !in store then r == None
              else
                && IsForkHeight(store, genesis, oldHead.value.hash, newHead.hash, c)
                && r == Some(Dropped(store, genesis, oldHead.value.hash, newHead.hash, c))
  {
    r, c := Some([]), 0;
    if oldHead.Some? && oldHead.value.hash != newHead.parentHash {
      var oldNum, newNum: nat := oldHead.value.number, newHead.number;
      var depth := if oldNum > newNum then oldNum - newNum else newNum - oldNum;
      if depth <= MAX_REORG_DEPTH {
        if oldHead.value.hash !in store {
          return None, 0;
        }
        var keep: seq<TxId>;
        keep, c := WalkBoth(store, genesis, oldHead.value, newHead);
        r := Some(keep);
      }
    }
  }

  method WalkBoth(store: Store, ghost genesis: Hash, oldHead: Header, newHead: Header)
      returns (keep: seq<TxId>, ghost c: nat)
    requires Linked(store, genesis)
    requires newHead.hash in store && store[newHead.hash] == newHead
    requires oldHead.hash in store && store[oldHead.hash] == oldHead
    ensures IsForkHeight(store, genesis, oldHead.hash, newHead.hash, c)
    ensures keep == Dropped(store, genesis, oldHead.hash, newHead.hash, c)
  {
    var rem, add := oldHead, newHead;
    var discarded, included: seq<TxId> := [], [];
    if rem.number > add.number {
      rem, discarded := Gather(store, genesis, oldHead.hash, rem, discarded, add.number);
    }
    if add.number > rem.number {
      add, included := Gather(store, genesis, newHead.hash, add, included, rem.number);
    }
    while rem.hash != add.hash
      invariant rem.number == add.number && rem.number <= oldHead.number && rem.number <= newHead.number
      invariant rem.hash == AncestorAt(store, genesis, oldHead.hash, rem.number) && rem == store[rem.hash]
      invariant add.hash == AncestorAt(store, genesis, newHead.hash, add.number) && add == store[add.hash]
      invariant discarded == TxsOf(Branch(store, genesis, oldHead.hash, rem.number))
      invariant included == TxsOf(Branch(store, genesis, newHead.hash, add.number))
      invariant DisjointAbove(store, genesis, oldHead.hash, newHead.hash, rem.number)
      decreases rem.number
    {
      AncestorAtZero(store, genesis, oldHead.hash);
      AncestorAtZero(store, genesis, newHead.hash);
      DisjointStep(store, genesis, oldHead.hash, newHead.hash, rem.number);
      rem, discarded := Gather(store, genesis, oldHead.hash, rem, discarded, rem.number - 1);
      add, included := Gather(store, genesis, newHead.hash, add, included, add.number - 1);
    }
    keep := TxDifference(discarded, included);
    c := rem.number;
  }

  /** A chain's transactions are those up to a height and those of the branch above it. */
  lemma ChainTxsSplit(store: Store, genesis: Hash, h: Hash, c: nat, t: TxId)
    requires Linked(store, genesis) && h in store && c <= store[h].number
    ensures t in LookupOf(store, genesis, h) <==>
            t in LookupOf(store, genesis, AncestorAt(store, genesis, h, c)) || t in TxsOf(Branch(store, genesis, h, c))
    ensures DistinctTxs(store, genesis, h) ==>
            !(&& t in LookupOf(store, genesis, AncestorAt(store, genesis, h, c))
              && t in TxsOf(Branch(store, genesis, h, c)))
  {
    InTxsOf(Branch(store, genesis, h, c), t);
    EntriesKeys(store, genesis, h, c, t);
    EntriesSplit(store, genesis, h, c);
    if DistinctTxs(store, genesis, h) {
      DistinctSplit(store, genesis, h, c);
    }
  }

  /** A transaction is taken back exactly when it is on the old chain and not on the new one. */
  lemma ReinjectedExactly(store: Store, genesis: Hash, oldHash: Hash, newHash: Hash, c: nat, t: TxId)
    requires Linked(store, genesis) && oldHash in store && newHash in store
    requires IsForkHeight(store, genesis, oldHash, newHash, c) && DistinctTxs(store, genesis, oldHash)
    ensures t in Dropped(store, genesis, oldHash, newHash, c) <==>
            t in LookupOf(store, genesis, oldHash) && t !in LookupOf(store, genesis, newHash)
  {
    InDifference(TxsOf(Branch(store, genesis, oldHash, c)), TxsOf(Branch(store, genesis, newHash, c)), t);
    ChainTxsSplit(store, genesis, oldHash, c, t);
    ChainTxsSplit(store, genesis, newHash, c, t);
  }
}
