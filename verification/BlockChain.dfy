/**
 Full blocks becoming canonical: total difficulty decides, a reorganisation re-routes the number index,
 and the transaction lookup index follows. `BlockState` is the abstract value of a `BlockChain` object.
 */
module BlockChains {
  import opened Basics
  import opened BlockTree
  import opened Branches

  datatype BlockState = BlockState(
    store: Store,
    td: map<Hash, nat>,
    canon: map<nat, Hash>,
    lookup: map<TxId, nat>,
    headBlock: Hash,
    headHeader: Hash,
    headFast: Hash)

  /** The choices a tie leaves open: whether either block is to be preserved, and the coin. */
  datatype TieBreak = TieBreak(currentPreserve: bool, blockPreserve: bool, coin: bool)

  /** The lookup entries a block writes: each of its transactions to its number. */
  ghost function Entries(b: Header): (m: map<TxId, nat>)
    ensures forall t :: t in m <==> t in b.txs
    ensures forall t | t in m :: m[t] == b.number
  {
    EntriesUpTo(b, |b.txs|)
  }

  ghost function EntriesUpTo(b: Header, n: nat): (m: map<TxId, nat>)
    requires n <= |b.txs|
    ensures forall t :: t in m <==> t in b.txs[..n]
    ensures forall t | t in m :: m[t] == b.number
  {
    if n == 0 then map[] else EntriesUpTo(b, n - 1)[b.txs[n - 1] := b.number]
  }

  /** The lookup entries of the blocks above height `low`, later blocks winning. */
  ghost function EntriesAbove(store: Store, genesis: Hash, h: Hash, low: nat): (m: map<TxId, nat>)
    requires Linked(store, genesis) && h in store && low <= store[h].number
    decreases store[h].number
  {
    assert LinkedAt(store, genesis, h);
    if store[h].number == low then map[]
    else EntriesAbove(store, genesis, store[h].parentHash, low) + Entries(store[h])
  }

  /** The lookup index of a whole chain. */
  ghost function LookupOf(store: Store, genesis: Hash, h: Hash): map<TxId, nat>
    requires Linked(store, genesis) && h in store
  {
    Entries(store[genesis]) + EntriesAbove(store, genesis, h, 0)
  }

  /** No transaction is on the chain of `h` twice. */
  ghost predicate DistinctTxs(store: Store, genesis: Hash, h: Hash)
    requires Linked(store, genesis) && h in store
    decreases store[h].number
  {
    assert LinkedAt(store, genesis, h);
    store[h].number > 0 ==>
      && DistinctTxs(store, genesis, store[h].parentHash)
      && LookupOf(store, genesis, store[h].parentHash).Keys !! Entries(store[h]).Keys
  }

  /** The lookup index maps a transaction exactly when some ancestor holds it, and to that ancestor's number. */
  lemma {:induction false} LookupMeaning(store: Store, genesis: Hash, h: Hash, t: TxId)
    requires Linked(store, genesis) && h in store && DistinctTxs(store, genesis, h)
    ensures t in LookupOf(store, genesis, h) <==>
            exists k: nat :: k <= store[h].number && t in store[AncestorAt(store, genesis, h, k)].txs
    ensures forall k: nat | k <= store[h].number && t in store[AncestorAt(store, genesis, h, k)].txs ::
            t in LookupOf(store, genesis, h) && LookupOf(store, genesis, h)[t] == k
    decreases store[h].number
  {
    assert LinkedAt(store, genesis, h);
    if store[h].number > 0 {
      var p := store[h].parentHash;
      LookupMeaning(store, genesis, p, t);
      forall k: nat | k < store[h].number
        ensures AncestorAt(store, genesis, h, k) == AncestorAt(store, genesis, p, k)
      {
        AncestorOfParent(store, genesis, h, k);
      }
      assert AncestorAt(store, genesis, h, store[h].number) == h;
      if t in LookupOf(store, genesis, p) {
        var k: nat :| k <= store[p].number && t in store[AncestorAt(store, genesis, p, k)].txs;
        assert t in store[AncestorAt(store, genesis, h, k)].txs;
      }
    } else {
      assert AncestorAt(store, genesis, h, 0) == h == genesis;
    }
  }

  lemma MergeAssociates<K, V>(a: map<K, V>, b: map<K, V>, c: map<K, V>)
    ensures (a + b) + c == a + (b + c)
  {
  }

  lemma {:induction false} EntriesSplit(store: Store, genesis: Hash, h: Hash, low: nat)
    requires Linked(store, genesis) && h in store && low <= store[h].number
    ensures LookupOf(store, genesis, h) ==
            LookupOf(store, genesis, AncestorAt(store, genesis, h, low)) + EntriesAbove(store, genesis, h, low)
    decreases store[h].number
  {
    assert LinkedAt(store, genesis, h);
    if store[h].number == low {
      assert AncestorAt(store, genesis, h, low) == h;
    } else {
      var p, e := store[h].parentHash, Entries(store[h]);
      AncestorOfParent(store, genesis, h, low);
      var below := LookupOf(store, genesis, AncestorAt(store, genesis, p, low));
      EntriesSplit(store, genesis, p, low);
      MergeAssociates(Entries(store[genesis]), EntriesAbove(store, genesis, p, 0), e);
      MergeAssociates(below, EntriesAbove(store, genesis, p, low), e);
    }
  }

  /** On a chain without repeats, what is above a height shares nothing with what is below. */
  lemma {:induction false} DistinctSplit(store: Store, genesis: Hash, h: Hash, low: nat)
    requires Linked(store, genesis) && h in store && low <= store[h].number && DistinctTxs(store, genesis, h)
    ensures LookupOf(store, genesis, AncestorAt(store, genesis, h, low)).Keys
            !! EntriesAbove(store, genesis, h, low).Keys
    decreases store[h].number
  {
    assert LinkedAt(store, genesis, h);
    if store[h].number > low {
      DistinctSplit(store, genesis, store[h].parentHash, low);
      EntriesSplit(store, genesis, store[h].parentHash, low);
      AncestorOfParent(store, genesis, h, low);
    }
  }

  /** The keys written above a height are the transactions of that branch. */
  lemma {:induction false} EntriesKeys(store: Store, genesis: Hash, h: Hash, low: nat, t: TxId)
    requires Linked(store, genesis) && h in store && low <= store[h].number
    ensures t in EntriesAbove(store, genesis, h, low) <==> OnBranch(Branch(store, genesis, h, low), t)
    decreases store[h].number
  {
    assert LinkedAt(store, genesis, h);
    if store[h].number > low {
      var up := Branch(store, genesis, store[h].parentHash, low);
      EntriesKeys(store, genesis, store[h].parentHash, low, t);
      OnBranchJoin([store[h]], up, t);
      OnBranchOne(store[h], t);
    }
  }

  lemma {:induction false} AttachKeepsEntries(store: Store, genesis: Hash, b: Header, h: Hash)
    requires Linked(store, genesis) && Attachable(store, b) && Linked(store[b.hash := b], genesis) && h in store
    ensures EntriesAbove(store[b.hash := b], genesis, h, 0) == EntriesAbove(store, genesis, h, 0)
    ensures LookupOf(store[b.hash := b], genesis, h) == LookupOf(store, genesis, h)
    decreases store[h].number
  {
    assert LinkedAt(store, genesis, h) && LinkedAt(store, genesis, genesis);
    if store[h].number > 0 {
      AttachKeepsEntries(store, genesis, b, store[h].parentHash);
    }
  }

  lemma {:induction false} AttachKeepsDistinct(store: Store, genesis: Hash, b: Header, h: Hash)
    requires Linked(store, genesis) && Attachable(store, b) && Linked(store[b.hash := b], genesis) && h in store
    requires DistinctTxs(store, genesis, h)
    ensures DistinctTxs(store[b.hash := b], genesis, h)
    decreases store[h].number
  {
    assert LinkedAt(store, genesis, h);
    if store[h].number > 0 {
      AttachKeepsDistinct(store, genesis, b, store[h].parentHash);
      AttachKeepsEntries(store, genesis, b, store[h].parentHash);
    }
  }

  /** Up to the head the index is the head's ancestor chain; stale entries may follow, without a gap. */
  ghost predicate IndexCovers(store: Store, genesis: Hash, canon: map<nat, Hash>, head: Hash)
    requires Linked(store, genesis) && head in store
  {
    && Spells(store, genesis, head, canon)
    && (exists top: nat :: EndsAt(canon, top))
    && (forall k | k in canon :: canon[k] in store)
  }

  ghost predicate HeadsAgree(s: BlockState) {
    s.headBlock == s.headHeader == s.headFast
  }

  ghost predicate TreeInv(s: BlockState, genesis: Hash) {
    && Linked(s.store, genesis)
    && s.headBlock in s.store
    && s.td.Keys == s.store.Keys
    && (forall h {:trigger s.td[h]} | h in s.store :: s.td[h] == Work(s.store, genesis, h) <= s.td[s.headBlock])
    && (forall h {:trigger DistinctTxs(s.store, genesis, h)} | h in s.store :: DistinctTxs(s.store, genesis, h))
    && Weighted(s.store)
  }

  /** Every block but the genesis adds work. */
  ghost predicate Weighted(store: Store) {
    forall h {:trigger store[h].difficulty} | h in store && store[h].number > 0 :: store[h].difficulty > 0
  }

  /** What holds between any two block writes. */
  ghost predicate Inv(s: BlockState, genesis: Hash) {
    && TreeInv(s, genesis)
    && HeadsAgree(s)
    && IndexCovers(s.store, genesis, s.canon, s.headBlock)
    && s.lookup == LookupOf(s.store, genesis, s.headBlock)
  }

  /** A validated block: it adds work and repeats no transaction of its own chain; its parent need not be known. */
  ghost predicate Offerable(s: BlockState, genesis: Hash, b: Header)
    requires Linked(s.store, genesis)
  {
    && Storable(s.store, b)
    && b.difficulty > 0
    && (b.parentHash in s.store ==> LookupOf(s.store, genesis, b.parentHash).Keys !! Entries(b).Keys)
  }

  /** Whether a written block becomes the head. */
  ghost predicate Becomes(s: BlockState, b: Header, tie: TieBreak)
    requires b.parentHash in s.td && s.headBlock in s.td && s.headBlock in s.store
  {
    var externTd, localTd, current := b.difficulty + s.td[b.parentHash], s.td[s.headBlock], s.store[s.headBlock].number;
    || externTd > localTd
    || (externTd == localTd &&
        (b.number < current || (b.number == current && !tie.currentPreserve && (tie.blockPreserve || tie.coin))))
  }

  ghost predicate ParentIndexed(s: BlockState, b: Header)
    requires s.headBlock in s.store
  {
    && b.number > 0 && b.number - 1 <= s.store[s.headBlock].number
    && b.number - 1 in s.canon && s.canon[b.number - 1] == b.parentHash
  }

  /**
   The number index after `b` becomes the head. Only a branch of two or more blocks is re-routed from
   scratch; a branch of one block clears what lies above the old head, and extending the head clears nothing.
   */
  ghost function IndexAfter(s: BlockState, genesis: Hash, b: Header): map<nat, Hash>
    requires Linked(s.store[b.hash := b], genesis) && s.headBlock in s.store
  {
    if b.parentHash == s.headBlock then s.canon[b.number := b.hash]
    else if ParentIndexed(s, b) then UpTo(s.canon, s.store[s.headBlock].number)[b.number := b.hash]
    else Canonical(s.store[b.hash := b], genesis, b.hash)
  }

  ghost function AfterBlock(s: BlockState, genesis: Hash, b: Header, tie: TieBreak): BlockState
    requires Inv(s, genesis) && Offerable(s, genesis, b)
  {
    if !ParentKnown(s.store, s.td, b) then s
    else
      KnownParentAttaches(s.store, s.td, genesis, b);
      var store := s.store[b.hash := b];
      var td := s.td[b.hash := b.difficulty + s.td[b.parentHash]];
      if Becomes(s, b, tie)
      then BlockState(store, td, IndexAfter(s, genesis, b), LookupOf(store, genesis, b.hash), b.hash, b.hash, b.hash)
      else s.(store := store, td := td)
  }

  /** Below a block with work on top there is strictly less work. */
  lemma {:induction false} AncestorsWeighLess(store: Store, genesis: Hash, h: Hash, k: nat)
    requires Linked(store, genesis) && h in store && k <= store[h].number && Weighted(store)
    ensures Work(store, genesis, AncestorAt(store, genesis, h, k)) <= Work(store, genesis, h)
    ensures k < store[h].number ==> Work(store, genesis, AncestorAt(store, genesis, h, k)) < Work(store, genesis, h)
    decreases store[h].number
  {
    assert LinkedAt(store, genesis, h);
    if k < store[h].number {
      assert store[h].difficulty > 0;
      AncestorOfParent(store, genesis, h, k);
      AncestorsWeighLess(store, genesis, store[h].parentHash, k);
    }
  }

  lemma AttachKeepsTree(s: BlockState, genesis: Hash, b: Header)
    requires TreeInv(s, genesis) && Offerable(s, genesis, b) && ParentKnown(s.store, s.td, b)
    ensures Linked(s.store[b.hash := b], genesis) && Weighted(s.store[b.hash := b])
    ensures var store := s.store[b.hash := b];
            forall h {:trigger DistinctTxs(store, genesis, h)} | h in store :: DistinctTxs(store, genesis, h)
    ensures forall h | h in s.store :: Work(s.store[b.hash := b], genesis, h) == Work(s.store, genesis, h)
    ensures Work(s.store[b.hash := b], genesis, b.hash) == b.difficulty + s.td[b.parentHash]
  {
    KnownParentAttaches(s.store, s.td, genesis, b);
    var store := s.store[b.hash := b];
    forall h | h in s.store ensures Work(store, genesis, h) == Work(s.store, genesis, h) {
      AttachKeepsWork(s.store, genesis, b, h);
    }
    forall h | h in store ensures DistinctTxs(store, genesis, h) {
      var p := if h in s.store then h else b.parentHash;
      assert DistinctTxs(s.store, genesis, p);
      AttachKeepsDistinct(s.store, genesis, b, p);
      AttachKeepsEntries(s.store, genesis, b, p);
    }
    assert LinkedAt(store, genesis, b.hash);
    assert s.td[b.parentHash] == Work(s.store, genesis, b.parentHash);
  }

  /** A block that becomes the head was not already below it. */
  lemma NewHeadIsOffChain(s: BlockState, genesis: Hash, b: Header, tie: TieBreak)
    requires TreeInv(s, genesis) && Offerable(s, genesis, b) && ParentKnown(s.store, s.td, b) && Becomes(s, b, tie)
    requires Linked(s.store[b.hash := b], genesis)
    requires b.number <= s.store[s.headBlock].number
    requires AncestorAt(s.store[b.hash := b], genesis, s.headBlock, b.number) == b.hash
    ensures b.hash == s.headBlock
  {
    var store := s.store[b.hash := b];
    AttachKeepsTree(s, genesis, b);
    AncestorsWeighLess(store, genesis, s.headBlock, b.number);
    assert s.td[s.headBlock] == Work(s.store, genesis, s.headBlock);
    assert AncestorAt(store, genesis, s.headBlock, store[s.headBlock].number) == s.headBlock;
  }

  /** Adding `b` on top of an index that spells out its parent spells out `b`. */
  lemma ExtendSpells(store: Store, genesis: Hash, b: Header, m: map<nat, Hash>)
    requires Linked(store, genesis) && b.hash in store && store[b.hash] == b && b.number > 0
    requires forall k: nat | k < b.number :: k in m && m[k] == AncestorAt(store, genesis, b.hash, k)
    ensures Spells(store, genesis, b.hash, m[b.number := b.hash])
  {
  }

  /** The old index holds the new block's lower ancestors when it holds the new block's parent. */
  lemma ParentSpelled(s: BlockState, genesis: Hash, b: Header, k: nat)
    requires Linked(s.store, genesis) && s.headBlock in s.store && Spells(s.store, genesis, s.headBlock, s.canon)
    requires Attachable(s.store, b) && Linked(s.store[b.hash := b], genesis)
    requires b.parentHash == s.headBlock || ParentIndexed(s, b)
    requires k < b.number
    ensures k in s.canon && s.canon[k] == AncestorAt(s.store[b.hash := b], genesis, b.hash, k)
  {
    var store := s.store[b.hash := b];
    AncestorOfParent(store, genesis, b.hash, k);
    AttachKeepsNthParent(s.store, genesis, b, b.parentHash, b.number - 1 - k);
    AncestorOfAncestor(s.store, genesis, s.headBlock, b.number - 1, k);
  }

  lemma ExtendEndsAt(canon: map<nat, Hash>, top: nat, n: nat, h: Hash)
    requires EndsAt(canon, top) && n <= top + 1
    ensures EndsAt(canon[n := h], if n <= top then top else n)
  {
  }

  lemma UpToEndsAt(canon: map<nat, Hash>, top: nat, n: nat)
    requires EndsAt(canon, top) && n <= top
    ensures EndsAt(UpTo(canon, n), n)
  {
  }

  /** After a block becomes the head, the index below it is its ancestor chain and still has no gap. */
  lemma IndexAfterCovers(s: BlockState, genesis: Hash, b: Header)
    requires Linked(s.store, genesis) && s.headBlock in s.store
    requires IndexCovers(s.store, genesis, s.canon, s.headBlock)
    requires Attachable(s.store, b) && Linked(s.store[b.hash := b], genesis)
    ensures IndexCovers(s.store[b.hash := b], genesis, IndexAfter(s, genesis, b), b.hash)
  {
    var store, canon, current: nat := s.store[b.hash := b], IndexAfter(s, genesis, b), s.store[s.headBlock].number;
    var top: nat :| EndsAt(s.canon, top);
    assert current in s.canon;
    if b.parentHash == s.headBlock || ParentIndexed(s, b) {
      forall k: nat | k < b.number ensures k in s.canon && s.canon[k] == AncestorAt(store, genesis, b.hash, k) {
        ParentSpelled(s, genesis, b, k);
      }
      if b.parentHash == s.headBlock {
        ExtendSpells(store, genesis, b, s.canon);
        ExtendEndsAt(s.canon, top, b.number, b.hash);
      } else {
        UpToEndsAt(s.canon, top, current);
        ExtendSpells(store, genesis, b, UpTo(s.canon, current));
        ExtendEndsAt(UpTo(s.canon, current), current, b.number, b.hash);
      }
    } else {
      CanonicalIff(store, genesis, b.hash, canon);
      assert EndsAt(canon, b.number);
    }
  }

  /** A block that becomes the head keeps the invariant. */
  lemma HeadBlockKeepsInv(s: BlockState, genesis: Hash, b: Header, tie: TieBreak)
    requires Inv(s, genesis) && Offerable(s, genesis, b) && ParentKnown(s.store, s.td, b) && Becomes(s, b, tie)
    ensures Inv(AfterBlock(s, genesis, b, tie), genesis)
  {
    KnownParentAttaches(s.store, s.td, genesis, b);
    AttachKeepsTree(s, genesis, b);
    IndexAfterCovers(s, genesis, b);
    assert TreeInv(AfterBlock(s, genesis, b, tie), genesis);
  }

  /** So does one that does not. */
  lemma SideBlockKeepsInv(s: BlockState, genesis: Hash, b: Header, tie: TieBreak)
    requires Inv(s, genesis) && Offerable(s, genesis, b) && ParentKnown(s.store, s.td, b) && !Becomes(s, b, tie)
    ensures Inv(AfterBlock(s, genesis, b, tie), genesis)
  {
    KnownParentAttaches(s.store, s.td, genesis, b);
    AttachKeepsTree(s, genesis, b);
    AttachKeepsEntries(s.store, genesis, b, s.headBlock);
    SideBlockKeepsIndex(s, genesis, b);
    assert TreeInv(AfterBlock(s, genesis, b, tie), genesis);
  }

  /** One block write keeps the invariant. */
  lemma BlockKeepsInv(s: BlockState, genesis: Hash, b: Header, tie: TieBreak)
    requires Inv(s, genesis) && Offerable(s, genesis, b)
    ensures Inv(AfterBlock(s, genesis, b, tie), genesis)
  {
    if ParentKnown(s.store, s.td, b) {
      if Becomes(s, b, tie) {
        HeadBlockKeepsInv(s, genesis, b, tie);
      } else {
        SideBlockKeepsInv(s, genesis, b, tie);
      }
    }
  }

  lemma SideBlockKeepsIndex(s: BlockState, genesis: Hash, b: Header)
    requires Inv(s, genesis) && Attachable(s.store, b) && Linked(s.store[b.hash := b], genesis)
    ensures IndexCovers(s.store[b.hash := b], genesis, s.canon, s.headBlock)
  {
    forall k: nat | k <= s.store[s.headBlock].number
      ensures AncestorAt(s.store[b.hash := b], genesis, s.headBlock, k) == AncestorAt(s.store, genesis, s.headBlock, k)
    {
      AttachKeepsNthParent(s.store, genesis, b, s.headBlock, s.store[s.headBlock].number - k);
    }
  }

  /** A run of block writes, each with its own tie-break. */
  ghost predicate AllOfferable(s: BlockState, genesis: Hash, writes: seq<(Header, TieBreak)>)
    requires Inv(s, genesis)
    decreases |writes|
  {
    writes != [] ==>
      Offerable(s, genesis, writes[0].0) &&
      (BlockKeepsInv(s, genesis, writes[0].0, writes[0].1);
       AllOfferable(AfterBlock(s, genesis, writes[0].0, writes[0].1), genesis, writes[1..]))
  }

  ghost function AfterBlocks(s: BlockState, genesis: Hash, writes: seq<(Header, TieBreak)>): BlockState
    requires Inv(s, genesis) && AllOfferable(s, genesis, writes)
    decreases |writes|
  {
    if writes == [] then s
    else
      BlockKeepsInv(s, genesis, writes[0].0, writes[0].1);
      AfterBlocks(AfterBlock(s, genesis, writes[0].0, writes[0].1), genesis, writes[1..])
  }

  lemma {:induction false} BlockRunKeepsInv(s: BlockState, genesis: Hash, writes: seq<(Header, TieBreak)>)
    requires Inv(s, genesis) && AllOfferable(s, genesis, writes)
    ensures Inv(AfterBlocks(s, genesis, writes), genesis)
    decreases |writes|
  {
    if writes != [] {
      BlockKeepsInv(s, genesis, writes[0].0, writes[0].1);
      BlockRunKeepsInv(AfterBlock(s, genesis, writes[0].0, writes[0].1), genesis, writes[1..]);
    }
  }

  ghost function GenesisState(first: Header): BlockState {
    BlockState(map[first.hash := first], map[first.hash := first.difficulty], map[0 := first.hash],
               Entries(first), first.hash, first.hash, first.hash)
  }

  lemma GenesisInv(first: Header)
    requires first.hash != ZERO_HASH && first.number == 0
    ensures Inv(GenesisState(first), first.hash)
  {
    var s := GenesisState(first);
    assert LinkedAt(s.store, first.hash, first.hash);
    assert EndsAt(s.canon, 0);
    assert Entries(first) + map[] == Entries(first);
  }

  /**
   Every run of block writes from the genesis: the three heads agree, no stored block has more work than the
   head, up to the head the index is its ancestor chain, and the lookup index maps exactly the
   transactions on that chain, each to the number of its block.
   */
  lemma EveryBlockRun(first: Header, writes: seq<(Header, TieBreak)>, t: TxId)
    requires first.hash != ZERO_HASH && first.number == 0
    requires (GenesisInv(first); AllOfferable(GenesisState(first), first.hash, writes))
    ensures (GenesisInv(first);
             var s := AfterBlocks(GenesisState(first), first.hash, writes);
             && TreeInv(s, first.hash) && HeadsAgree(s)
             && IndexCovers(s.store, first.hash, s.canon, s.headBlock)
             && (t in s.lookup <==>
                 exists k: nat :: k <= s.store[s.headBlock].number && t in s.store[s.canon[k]].txs)
             && (forall k: nat | k <= s.store[s.headBlock].number && t in s.store[s.canon[k]].txs :: s.lookup[t] == k))
  {
    GenesisInv(first);
    BlockRunKeepsInv(GenesisState(first), first.hash, writes);
    var s := AfterBlocks(GenesisState(first), first.hash, writes);
    assert DistinctTxs(s.store, first.hash, s.headBlock);
    LookupMeaning(s.store, first.hash, s.headBlock, t);
    assert forall k: nat | k <= s.store[s.headBlock].number ::
        s.canon[k] == AncestorAt(s.store, first.hash, s.headBlock, k);
  }

  /**
   When a new head leaves an exact index, whatever the index listed before. Extending the head clears nothing, so
   it must not have listed anything above; a single-block branch clears only above the old head, so the new head
   must not be lower; a branch of two or more blocks always leaves, and restores, an exact index.
   */
  lemma IndexExactIff(s: BlockState, genesis: Hash, b: Header, tie: TieBreak)
    requires Inv(s, genesis) && Offerable(s, genesis, b) && ParentKnown(s.store, s.td, b) && Becomes(s, b, tie)
    ensures var s' := AfterBlock(s, genesis, b, tie);
            && Linked(s'.store, genesis)
            && b.hash in s'.store
            && (s'.canon == Canonical(s'.store, genesis, b.hash) <==>
                if b.parentHash == s.headBlock then b.number + 1 !in s.canon
                else !(ParentIndexed(s, b) && b.number < s.store[s.headBlock].number))
  {
    KnownParentAttaches(s.store, s.td, genesis, b);
    IndexAfterCovers(s, genesis, b);
    var store, canon, current: nat := s.store[b.hash := b], IndexAfter(s, genesis, b), s.store[s.headBlock].number;
    var top: nat :| EndsAt(s.canon, top);
    assert current in s.canon && current <= top && store[b.hash] == b;
    CanonicalIff(store, genesis, b.hash, canon);
    if b.parentHash == s.headBlock {
      assert b.number == current + 1 by {
        assert LinkedAt(store, genesis, b.hash);
      }
      NothingAbove(s.canon, top, b.number, b.hash, canon);
    } else if ParentIndexed(s, b) {
      NothingAboveCut(s.canon, top, current, b.number, b.hash, canon);
    }
  }

  /** A written entry is the highest exactly when the next one is missing. */
  lemma NothingAbove(canon: map<nat, Hash>, top: nat, n: nat, h: Hash, canon': map<nat, Hash>)
    requires EndsAt(canon, top) && n <= top + 1 && canon' == canon[n := h]
    ensures (forall k | k in canon' :: k <= n) <==> n + 1 !in canon
  {
    if n + 1 in canon {
      assert n + 1 in canon';
    }
  }

  /** In an index cut at `current` it is the highest exactly when it is not below the cut. */
  lemma NothingAboveCut(canon: map<nat, Hash>, top: nat, current: nat, n: nat, h: Hash, canon': map<nat, Hash>)
    requires EndsAt(canon, top) && current <= top && canon' == UpTo(canon, current)[n := h]
    ensures (forall k | k in canon' :: k <= n) <==> !(n < current)
  {
    assert current in canon';
  }

  /** An empty block on top of the head becomes the head and leaves the rest of the index alone. */
  lemma EmptyBlockExtends(s: BlockState, genesis: Hash, b: Header, tie: TieBreak)
    requires Inv(s, genesis)
    requires b.hash !in s.store && b.hash != ZERO_HASH && b.parentHash == s.headBlock && b.txs == [] && b.difficulty > 0
    requires b.number == s.store[s.headBlock].number + 1 && b.number < MAX_U64
    ensures Offerable(s, genesis, b) && ParentKnown(s.store, s.td, b) && Becomes(s, b, tie)
    ensures var s' := AfterBlock(s, genesis, b, tie);
            && Inv(s', genesis) && s'.canon == s.canon[b.number := b.hash] && s'.headBlock == b.hash
            && s'.store == s.store[b.hash := b] && s'.td == s.td[b.hash := b.difficulty + s.td[s.headBlock]]
  {
    assert Entries(b).Keys == {};
    assert ParentKnown(s.store, s.td, b) && Becomes(s, b, tie);
    BlockKeepsInv(s, genesis, b, tie);
  }

  /** From an exact index it keeps an exact index. */
  lemma EmptyBlockKeepsExact(s: BlockState, genesis: Hash, b: Header, tie: TieBreak)
    requires Inv(s, genesis) && s.canon == Canonical(s.store, genesis, s.headBlock)
    requires b.hash !in s.store && b.hash != ZERO_HASH && b.parentHash == s.headBlock && b.txs == [] && b.difficulty > 0
    requires b.number == s.store[s.headBlock].number + 1 && b.number < MAX_U64
    ensures Offerable(s, genesis, b) && ParentKnown(s.store, s.td, b) && Becomes(s, b, tie)
    ensures var s' := AfterBlock(s, genesis, b, tie);
            && Inv(s', genesis) && s'.canon == Canonical(s'.store, genesis, b.hash) && s'.headBlock == b.hash
            && s'.store == s.store[b.hash := b] && s'.td == s.td[b.hash := b.difficulty + s.td[s.headBlock]]
  {
    EmptyBlockExtends(s, genesis, b, tie);
    IndexExactIff(s, genesis, b, tie);
    CanonicalIff(s.store, genesis, s.headBlock, s.canon);
  }

  /** A genesis with a block on top of it. */
  lemma ShortChain() returns (s: BlockState)
    ensures Inv(s, 1) && s.canon == Canonical(s.store, 1, s.headBlock)
    ensures s.headBlock == 2 && s.store.Keys == {1, 2} && s.td[1] == 1 && s.td[2] == 2
    ensures s.store[1].number == 0 && s.store[2].number == 1
  {
    var g, a1, tie := Header(1, 0, 0, 1, []), Header(2, 1, 1, 1, []), TieBreak(false, false, false);
    GenesisInv(g);
    GenesisIsExact(g);
    EmptyBlockKeepsExact(GenesisState(g), 1, a1, tie);
    s := AfterBlock(GenesisState(g), 1, a1, tie);
  }

  /** The same with a second block. */
  lemma ExampleChain() returns (s: BlockState)
    ensures Inv(s, 1) && s.canon == Canonical(s.store, 1, s.headBlock)
    ensures s.headBlock == 3 && s.store.Keys == {1, 2, 3} && s.td[1] == 1 && s.td[3] == 3
    ensures s.store[1].number == 0 && s.store[3].number == 2
  {
    var s1 := ShortChain();
    var a2, tie := Header(3, 2, 2, 1, []), TieBreak(false, false, false);
    EmptyBlockKeepsExact(s1, 1, a2, tie);
    s := AfterBlock(s1, 1, a2, tie);
  }

  lemma GenesisIsExact(first: Header)
    requires first.hash != ZERO_HASH && first.number == 0
    ensures (GenesisInv(first); var s := GenesisState(first); s.canon == Canonical(s.store, first.hash, s.headBlock))
  {
    GenesisInv(first);
    var s := GenesisState(first);
    CanonicalIff(s.store, first.hash, first.hash, s.canon);
    AncestorAtZero(s.store, first.hash, first.hash);
  }

  /** A heavier block on that genesis takes over, and the index still lists the abandoned tip above it. */
  lemma StaleEntryExample() returns (s: BlockState, b: Header, tie: TieBreak)
    ensures Inv(s, 1) && s.canon == Canonical(s.store, 1, s.headBlock)
    ensures Offerable(s, 1, b) && ParentKnown(s.store, s.td, b) && Becomes(s, b, tie)
    ensures var s' := AfterBlock(s, 1, b, tie);
            && s'.headBlock == b.hash
            && b.number + 1 in s'.canon && s'.canon[b.number + 1] == s.headBlock != b.hash
  {
    s := ExampleChain();
    b, tie := Header(4, 1, 1, 3, []), TieBreak(false, false, false);
    CanonicalAt(s.store, 1, 3, 0);
    CanonicalAt(s.store, 1, 3, 2);
    AncestorAtZero(s.store, 1, 3);
    assert ParentIndexed(s, b);
  }

  /** Extending the head left by such a block keeps the stale entry: the index lists a block above the new head. */
  lemma StaleExtensionExample() returns (s: BlockState, b: Header, tie: TieBreak)
    ensures Inv(s, 1) && Offerable(s, 1, b) && ParentKnown(s.store, s.td, b) && Becomes(s, b, tie)
    ensures b.parentHash == s.headBlock
    ensures var s' := AfterBlock(s, 1, b, tie);
            s'.headBlock == b.hash && b.number + 1 in s'.canon
  {
    s, tie := StaleChain();
    b := Header(7, 6, 2, 1, []);
    EmptyBlockExtends(s, 1, b, tie);
  }

  /** That chain with a third block on top. */
  lemma LongerChain() returns (s: BlockState)
    ensures Inv(s, 1) && s.canon == Canonical(s.store, 1, s.headBlock)
    ensures s.headBlock == 5 && s.store.Keys == {1, 2, 3, 5} && s.td[1] == 1 && s.td[5] == 4 && s.store[5].number == 3
  {
    var s0 := ExampleChain();
    var tie := TieBreak(false, false, false);
    EmptyBlockKeepsExact(s0, 1, Header(5, 3, 3, 1, []), tie);
    s := AfterBlock(s0, 1, Header(5, 3, 3, 1, []), tie);
  }

  /** Three blocks on a genesis, and then a heavy block on the genesis itself. */
  lemma StaleChain() returns (s: BlockState, tie: TieBreak)
    ensures Inv(s, 1) && s.headBlock == 6 && s.store.Keys == {1, 2, 3, 5, 6} && s.store[6].number == 1 && 3 in s.canon
  {
    var s1 := LongerChain();
    tie := TieBreak(false, false, false);
    CanonicalIff(s1.store, 1, 5, s1.canon);
    SingleBlockTakesOver(s1, 1, Header(6, 1, 1, 9, []), tie);
    s := AfterBlock(s1, 1, Header(6, 1, 1, 9, []), tie);
  }

  /** A heavy empty block on the genesis leaves the index above it as it was. */
  lemma SingleBlockTakesOver(s: BlockState, genesis: Hash, b: Header, tie: TieBreak)
    requires Inv(s, genesis) && s.canon == Canonical(s.store, genesis, s.headBlock) && s.store[s.headBlock].number > 1
    requires b.hash !in s.store && b.hash != ZERO_HASH && b.parentHash == genesis && b.number == 1 && b.txs == []
    requires b.difficulty + s.td[genesis] > s.td[s.headBlock]
    ensures Offerable(s, genesis, b)
    ensures var s' := AfterBlock(s, genesis, b, tie);
            && Inv(s', genesis) && s'.headBlock == b.hash && s'.canon == s.canon[1 := b.hash]
            && s'.store == s.store[b.hash := b] && s'.td == s.td[b.hash := b.difficulty + s.td[genesis]]
  {
    SingleBlockOffered(s, genesis, b, tie);
    AfterKnownParent(s, genesis, b, tie);
    SingleBlockIndex(s, genesis, b);
    BlockKeepsInv(s, genesis, b, tie);
  }

  lemma SingleBlockOffered(s: BlockState, genesis: Hash, b: Header, tie: TieBreak)
    requires Inv(s, genesis) && s.store[s.headBlock].number > 1
    requires b.hash !in s.store && b.hash != ZERO_HASH && b.parentHash == genesis && b.number == 1 && b.txs == []
    requires b.difficulty + s.td[genesis] > s.td[s.headBlock]
    ensures Offerable(s, genesis, b) && ParentKnown(s.store, s.td, b) && Becomes(s, b, tie) && genesis != s.headBlock
  {
    assert Entries(b).Keys == {};
    assert LinkedAt(s.store, genesis, genesis);
  }

  lemma SingleBlockIndex(s: BlockState, genesis: Hash, b: Header)
    requires Inv(s, genesis) && s.canon == Canonical(s.store, genesis, s.headBlock) && s.store[s.headBlock].number > 1
    requires Linked(s.store[b.hash := b], genesis) && b.parentHash == genesis != s.headBlock && b.number == 1
    ensures IndexAfter(s, genesis, b) == s.canon[1 := b.hash]
  {
    CanonicalAt(s.store, genesis, s.headBlock, 0);
    AncestorAtZero(s.store, genesis, s.headBlock);
    assert ParentIndexed(s, b);
    CanonicalIff(s.store, genesis, s.headBlock, s.canon);
    assert UpTo(s.canon, s.store[s.headBlock].number) == s.canon;
  }

  /**
   The lookup bookkeeping of a reorganisation: writing the new branch and deleting what only the old branch
   held turns the old chain's index into the new one's.
   */
  lemma LookupRerouted(store: Store, genesis: Hash, oldHead: Hash, newTip: Hash, c: nat, gone: set<TxId>)
    requires Linked(store, genesis) && oldHead in store && newTip in store
    requires c <= store[oldHead].number && c <= store[newTip].number
    requires AncestorAt(store, genesis, oldHead, c) == AncestorAt(store, genesis, newTip, c)
    requires DistinctTxs(store, genesis, oldHead)
    requires gone == EntriesAbove(store, genesis, oldHead, c).Keys - EntriesAbove(store, genesis, newTip, c).Keys
    ensures LookupOf(store, genesis, oldHead) + EntriesAbove(store, genesis, newTip, c) - gone ==
            LookupOf(store, genesis, newTip)
  {
    EntriesSplit(store, genesis, oldHead, c);
    EntriesSplit(store, genesis, newTip, c);
    DistinctSplit(store, genesis, oldHead, c);
    ReplaceEntries(LookupOf(store, genesis, AncestorAt(store, genesis, oldHead, c)),
                   EntriesAbove(store, genesis, oldHead, c), EntriesAbove(store, genesis, newTip, c));
  }

  lemma ReplaceEntries<K, V>(common: map<K, V>, lost: map<K, V>, gained: map<K, V>)
    requires common.Keys !! lost.Keys
    ensures common + lost + gained - (lost.Keys - gained.Keys) == common + gained
  {
  }

  /** Re-routed up to height `w`: `tip`'s ancestors there and below, the earlier entries above. */
  ghost predicate Routed(store: Store, genesis: Hash, tip: Hash, before: map<nat, Hash>, canon: map<nat, Hash>,
      w: nat, top: nat)
    requires Linked(store, genesis) && tip in store && w <= store[tip].number
  {
    && EndsAt(canon, if w <= top then top else w)
    && (forall k: nat | k <= w :: k in canon && canon[k] == AncestorAt(store, genesis, tip, k))
    && (forall k: nat | k in before && k > w :: k in canon && canon[k] == before[k])
  }

  lemma RouteStep(store: Store, genesis: Hash, tip: Hash, before: map<nat, Hash>, canon: map<nat, Hash>, w: nat,
      top: nat)
    requires Linked(store, genesis) && tip in store && w < store[tip].number
    requires Routed(store, genesis, tip, before, canon, w, top)
    ensures Routed(store, genesis, tip, before, canon[w + 1 := AncestorAt(store, genesis, tip, w + 1)], w + 1, top)
  {
    ExtendEndsAt(canon, if w <= top then top else w, w + 1, AncestorAt(store, genesis, tip, w + 1));
  }

  /** One more block of a branch adds its own entries. */
  lemma EntriesStep(store: Store, genesis: Hash, tip: Hash, c: nat, w: nat, before: map<TxId, nat>)
    requires Linked(store, genesis) && tip in store && c <= w < store[tip].number
    ensures var at, below := AncestorAt(store, genesis, tip, w + 1), AncestorAt(store, genesis, tip, w);
            && EntriesAbove(store, genesis, at, c) == EntriesAbove(store, genesis, below, c) + Entries(store[at])
            && before + EntriesAbove(store, genesis, at, c) ==
               (before + EntriesAbove(store, genesis, below, c)) + Entries(store[at])
  {
    var at, below := AncestorAt(store, genesis, tip, w + 1), AncestorAt(store, genesis, tip, w);
    ParentIsAncestor(store, genesis, tip, w + 1);
    MergeAssociates(before, EntriesAbove(store, genesis, below, c), Entries(store[at]));
  }

  /** `h` is not among the ancestors of `head`. */
  ghost predicate OffChain(store: Store, genesis: Hash, head: Hash, h: Hash)
    requires Linked(store, genesis) && head in store && h in store
  {
    store[h].number <= store[head].number ==> AncestorAt(store, genesis, head, store[h].number) != h
  }

  ghost predicate ParentOnChain(store: Store, genesis: Hash, head: Hash, b: Header)
    requires Linked(store, genesis) && head in store
  {
    0 < b.number <= store[head].number + 1 && AncestorAt(store, genesis, head, b.number - 1) == b.parentHash
  }

  /** The new branch is a single block exactly when its parent is on the old chain. */
  lemma SingleBlockBranch(store: Store, genesis: Hash, head: Hash, h: Hash, c: nat)
    requires Linked(store, genesis) && head in store && h in store && OffChain(store, genesis, head, h)
    requires IsForkHeight(store, genesis, head, h, c)
    ensures c < store[h].number
    ensures ParentOnChain(store, genesis, head, store[h]) <==> c + 1 == store[h].number
  {
    var n: nat := store[h].number;
    assert AncestorAt(store, genesis, h, n) == h;
    if n > 0 {
      ParentIsAncestor(store, genesis, h, n);
    }
  }

  /** Clearing above the current head after the branch went in. */
  lemma IndexAfterReorg(store: Store, genesis: Hash, h: Hash, c: nat, current: nat, before: map<nat, Hash>,
      routed: map<nat, Hash>, top: nat)
    requires Linked(store, genesis) && h in store && c < store[h].number && c <= current <= top
    requires EndsAt(before, top) && forall k: nat | k <= c :: before[k] == AncestorAt(store, genesis, h, k)
    requires Routed(store, genesis, h, before, routed, store[h].number - 1, top)
    ensures c + 1 == store[h].number ==> UpTo(routed, current) == UpTo(before, current)
    ensures store[h].parentHash in store
    ensures UpTo(routed, store[h].number - 1) == Canonical(store, genesis, store[h].parentHash)
  {
    var n: nat := store[h].number;
    assert LinkedAt(store, genesis, h);
    forall k: nat | k < n
      ensures AncestorAt(store, genesis, h, k) == AncestorAt(store, genesis, store[h].parentHash, k)
    {
      AncestorOfParent(store, genesis, h, k);
    }
    CanonicalIff(store, genesis, store[h].parentHash, UpTo(routed, n - 1));
    if c + 1 == n {
      assert forall k: nat | k in before :: k in routed && routed[k] == before[k];
      assert UpTo(routed, current).Keys == UpTo(before, current).Keys;
    }
  }

  /** How far the index can reach once a branch below a block of height `n` has been routed. */
  ghost function RouteTop(n: nat, top: nat): nat {
    if n <= top + 1 then top else n - 1
  }

  /** What stays of a routed index up to the head. */
  lemma CutRoute(store: Store, genesis: Hash, oldHash: Hash, newHash: Hash, c: nat, before: map<nat, Hash>,
      routed: map<nat, Hash>, top: nat)
    requires Linked(store, genesis) && oldHash in store && newHash in store && c < store[newHash].number
    requires c <= store[oldHash].number <= top && EndsAt(before, top)
    requires Routed(store, genesis, newHash, before, before, c, top)
    requires Routed(store, genesis, newHash, before, routed, store[newHash].number - 1, top)
    ensures store[newHash].parentHash in store && store[store[newHash].parentHash].number + 1 == store[newHash].number
    ensures EndsAt(routed, RouteTop(store[newHash].number, top))
    ensures c + 1 == store[newHash].number ==>
              UpTo(routed, store[oldHash].number) == UpTo(before, store[oldHash].number)
    ensures UpTo(routed, store[newHash].number - 1) == Canonical(store, genesis, store[newHash].parentHash)
  {
    assert LinkedAt(store, genesis, newHash);
    IndexAfterReorg(store, genesis, newHash, c, store[oldHash].number, before, routed, top);
  }

  /** At the fork the old index already spells out the new chain. */
  lemma RoutedAtFork(store: Store, genesis: Hash, canon: map<nat, Hash>, oldHash: Hash, newHash: Hash, c: nat, top: nat)
    requires Linked(store, genesis) && oldHash in store && newHash in store
    requires Spells(store, genesis, oldHash, canon) && EndsAt(canon, top)
    requires IsForkHeight(store, genesis, oldHash, newHash, c) && c < store[newHash].number
    ensures c <= store[oldHash].number <= top && Routed(store, genesis, newHash, canon, canon, c, top)
    ensures var n, parent := store[newHash].number, store[newHash].parentHash;
            && parent == AncestorAt(store, genesis, newHash, n - 1)
            && AncestorAt(store, genesis, oldHash, c) == AncestorAt(store, genesis, parent, c)
  {
    assert store[oldHash].number in canon;
    forall k: nat | k <= c ensures canon[k] == AncestorAt(store, genesis, newHash, k) {
      AncestorOfAncestor(store, genesis, oldHash, c, k);
      AncestorOfAncestor(store, genesis, newHash, c, k);
    }
    ParentIsAncestor(store, genesis, newHash, store[newHash].number);
    assert AncestorAt(store, genesis, newHash, store[newHash].number) == newHash;
    AncestorOfAncestor(store, genesis, newHash, store[newHash].number - 1, c);
  }

  /** What the reorganisation may rely on once the new head is stored. */
  lemma NewHeadFacts(s: BlockState, genesis: Hash, b: Header, tie: TieBreak)
    requires Inv(s, genesis) && Offerable(s, genesis, b) && ParentKnown(s.store, s.td, b) && Becomes(s, b, tie)
    requires Attachable(s.store, b) && Linked(s.store[b.hash := b], genesis)
    ensures var store := s.store[b.hash := b];
            && DistinctTxs(store, genesis, s.headBlock)
            && s.lookup == LookupOf(store, genesis, s.headBlock)
            && IndexCovers(store, genesis, s.canon, s.headBlock)
            && (b.hash == s.headBlock || OffChain(store, genesis, s.headBlock, b.hash))
            && LookupOf(store, genesis, b.hash) == LookupOf(store, genesis, b.parentHash) + Entries(b)
            && (ParentIndexed(s, b) <==> ParentOnChain(store, genesis, s.headBlock, b))
            && (b.number in s.canon && s.canon[b.number] == b.hash ==> b.hash == s.headBlock)
            && Canonical(store, genesis, b.hash) == Canonical(store, genesis, b.parentHash)[b.number := b.hash]
  {
    var store := s.store[b.hash := b];
    AttachKeepsTree(s, genesis, b);
    AttachKeepsEntries(s.store, genesis, b, s.headBlock);
    SideBlockKeepsIndex(s, genesis, b);
    assert LinkedAt(store, genesis, b.hash);
    if b.hash != s.headBlock && b.number <= store[s.headBlock].number
       && AncestorAt(store, genesis, s.headBlock, b.number) == b.hash {
      NewHeadIsOffChain(s, genesis, b, tie);
    }
    MergeAssociates(Entries(store[genesis]), EntriesAbove(store, genesis, b.parentHash, 0), Entries(b));
  }

  lemma RewriteEntries<K, V>(m: map<K, V>, e: map<K, V>)
    ensures m + e + e == m + e
  {
  }

  /** What a reorganisation leaves is ready for the new head to be written. */
  lemma ReorgPrepares(s: BlockState, genesis: Hash, b: Header, tie: TieBreak, canon: map<nat, Hash>,
      lookup: map<TxId, nat>)
    requires Inv(s, genesis) && Offerable(s, genesis, b) && ParentKnown(s.store, s.td, b) && Becomes(s, b, tie)
    requires Attachable(s.store, b) && Linked(s.store[b.hash := b], genesis)
    requires b.parentHash != s.headBlock && b.hash != s.headBlock
    requires var store := s.store[b.hash := b];
             && lookup == LookupOf(store, genesis, b.parentHash)
             && canon == if ParentOnChain(store, genesis, s.headBlock, b) then UpTo(s.canon, store[s.headBlock].number)
                         else Canonical(store, genesis, b.parentHash)
    ensures canon[b.number := b.hash] == IndexAfter(s, genesis, b)
    ensures lookup + Entries(b) == LookupOf(s.store[b.hash := b], genesis, b.hash)
    ensures !(b.number in canon && canon[b.number] == b.hash)
  {
    NewHeadFacts(s, genesis, b, tie);
    if !ParentIndexed(s, b) {
      CanonicalAt(s.store[b.hash := b], genesis, b.parentHash, b.number);
    }
  }

  /** Rewriting the head only clears what lies above it. */
  lemma RewritePrepares(s: BlockState, genesis: Hash, b: Header, tie: TieBreak)
    requires Inv(s, genesis) && Offerable(s, genesis, b) && ParentKnown(s.store, s.td, b) && Becomes(s, b, tie)
    requires Attachable(s.store, b) && Linked(s.store[b.hash := b], genesis)
    requires b.parentHash != s.headBlock && b.hash == s.headBlock
    ensures UpTo(s.canon, s.store[s.headBlock].number)[b.number := b.hash] == IndexAfter(s, genesis, b)
    ensures s.lookup + Entries(b) == LookupOf(s.store[b.hash := b], genesis, b.hash)
  {
    var store := s.store[b.hash := b];
    NewHeadFacts(s, genesis, b, tie);
    RewriteEntries(LookupOf(store, genesis, b.parentHash), Entries(b));
    assert ParentIndexed(s, b) by {
      ParentIsAncestor(store, genesis, b.hash, b.number);
      assert AncestorAt(store, genesis, b.hash, b.number) == b.hash;
    }
  }

  lemma AfterKnownParent(s: BlockState, genesis: Hash, b: Header, tie: TieBreak)
    requires Inv(s, genesis) && Offerable(s, genesis, b) && ParentKnown(s.store, s.td, b)
    ensures Attachable(s.store, b) && Linked(s.store[b.hash := b], genesis)
    ensures var store, td := s.store[b.hash := b], s.td[b.hash := b.difficulty + s.td[b.parentHash]];
            AfterBlock(s, genesis, b, tie) ==
              if Becomes(s, b, tie)
              then BlockState(store, td, IndexAfter(s, genesis, b), LookupOf(store, genesis, b.hash),
                              b.hash, b.hash, b.hash)
              else BlockState(store, td, s.canon, s.lookup, s.headBlock, s.headHeader, s.headFast)
  {
    KnownParentAttaches(s.store, s.td, genesis, b);
  }

  lemma OneEntryMore(lookup: map<TxId, nat>, b: Header, i: nat)
    requires i < |b.txs|
    ensures lookup + EntriesUpTo(b, i + 1) == (lookup + EntriesUpTo(b, i))[b.txs[i] := b.number]
  {
    assert EntriesUpTo(b, i + 1) == EntriesUpTo(b, i)[b.txs[i] := b.number];
  }

  /** More total difficulty wins; at equal difficulty the lower block, and at equal height the tie-break. */
  method Outweighs(externTd: nat, localTd: nat, number: nat, current: nat, tie: TieBreak) returns (reorg: bool)
    ensures externTd != localTd ==> reorg == (externTd > localTd)
    ensures externTd == localTd && number != current ==> reorg == (number < current)
    ensures externTd == localTd && number == current ==>
              reorg == (!tie.currentPreserve && (tie.blockPreserve || tie.coin))
  {
    reorg := externTd > localTd;
    if !reorg && externTd == localTd {
      if number < current {
        reorg := true;
      } else if number == current {
        reorg := !tie.currentPreserve && (tie.blockPreserve || tie.coin);
      }
    }
  }

  class BlockChain {
    const genesis: Hash
    var store: Store
    var td: map<Hash, nat>
    var canon: map<nat, Hash>
    var lookup: map<TxId, nat>
    var headBlock: Hash
    var headHeader: Hash
    var headFast: Hash

    ghost function State(): BlockState
      reads this
    {
      BlockState(store, td, canon, lookup, headBlock, headHeader, headFast)
    }

    ghost predicate Valid()
      reads this
    {
      Inv(State(), genesis)
    }

    constructor (first: Header)
      requires first.hash != ZERO_HASH && first.number == 0
      ensures Valid() && genesis == first.hash && State() == GenesisState(first)
    {
      genesis := first.hash;
      store := map[first.hash := first];
      td := map[first.hash := first.difficulty];
      canon := map[0 := first.hash];
      headBlock, headHeader, headFast := first.hash, first.hash, first.hash;
      lookup := map[];
      new;
      WriteTxLookupEntries(first);
      assert map[] + Entries(first) == Entries(first);
      GenesisInv(first);
    }

    /** Points every transaction of a block at the block's number. */
    method WriteTxLookupEntries(b: Header)
      modifies this`lookup
      ensures lookup == old(lookup) + Entries(b)
    {
      for i := 0 to |b.txs|
        invariant lookup == old(lookup) + EntriesUpTo(b, i)
      {
        OneEntryMore(old(lookup), b, i);
        lookup := lookup[b.txs[i] := b.number];
      }
    }

    /** Makes a block the head; the header and fast heads follow when the index did not list it already. */
    method Insert(b: Header)
      modifies this`canon, this`headBlock, this`headHeader, this`headFast
      ensures canon == old(canon)[b.number := b.hash] && headBlock == b.hash
      ensures if old(b.number in canon && canon[b.number] == b.hash)
              then headHeader == old(headHeader) && headFast == old(headFast)
              else headHeader == b.hash && headFast == b.hash
    {
      var updateHeads := !(b.number in canon && canon[b.number] == b.hash);
      canon := canon[b.number := b.hash];
      headBlock := b.hash;
      if updateHeads {
        headHeader, headFast := b.hash, b.hash;
      }
    }

    /** Inserts the blocks of a new branch below its tip, lowest first. */
    method InsertBranch(tip: Hash, newChain: seq<Header>, c: nat, ghost top: nat) returns (added: seq<TxId>)
      requires Linked(store, genesis) && tip in store && c < store[tip].number
      requires newChain == Branch(store, genesis, tip, c)
      requires c <= top && Routed(store, genesis, tip, canon, canon, c, top)
      modifies this`canon, this`headBlock, this`headHeader, this`headFast, this`lookup
      ensures headBlock == if c + 1 == store[tip].number then old(headBlock)
                           else AncestorAt(store, genesis, tip, store[tip].number - 1)
      ensures Routed(store, genesis, tip, old(canon), canon, store[tip].number - 1, top)
      ensures var below := AncestorAt(store, genesis, tip, store[tip].number - 1);
              && lookup == old(lookup) + EntriesAbove(store, genesis, below, c)
              && forall t :: t in added <==> t in EntriesAbove(store, genesis, below, c)
    {
      added := [];
      ghost var w := c;
      var i := |newChain| - 1;
      assert old(lookup) + map[] == old(lookup);
      while i >= 1
        invariant 0 <= i < |newChain| && w == store[tip].number - 1 - i && c <= w
        invariant headBlock == if w == c then old(headBlock) else AncestorAt(store, genesis, tip, w)
        invariant Routed(store, genesis, tip, old(canon), canon, w, top)
        invariant lookup == old(lookup) + EntriesAbove(store, genesis, AncestorAt(store, genesis, tip, w), c)
        invariant forall t :: t in added <==> t in EntriesAbove(store, genesis, AncestorAt(store, genesis, tip, w), c)
        decreases i
      {
        added := InsertNext(tip, newChain, i, c, w, top, added, old(canon), old(lookup));
        w, i := w + 1, i - 1;
      }
    }

    /** Inserts the next block of a branch. */
    method InsertNext(ghost tip: Hash, newChain: seq<Header>, i: nat, ghost c: nat, ghost w: nat, ghost top: nat,
        added: seq<TxId>, ghost was: map<nat, Hash>, ghost before: map<TxId, nat>)
        returns (added': seq<TxId>)
      requires Linked(store, genesis) && tip in store && c <= w < store[tip].number
      requires newChain == Branch(store, genesis, tip, c) && i < |newChain| && w == store[tip].number - 1 - i
      requires Routed(store, genesis, tip, was, canon, w, top)
      requires lookup == before + EntriesAbove(store, genesis, AncestorAt(store, genesis, tip, w), c)
      requires forall t :: t in added <==> t in EntriesAbove(store, genesis, AncestorAt(store, genesis, tip, w), c)
      modifies this`canon, this`headBlock, this`headHeader, this`headFast, this`lookup
      ensures headBlock == AncestorAt(store, genesis, tip, w + 1)
      ensures Routed(store, genesis, tip, was, canon, w + 1, top)
      ensures lookup == before + EntriesAbove(store, genesis, AncestorAt(store, genesis, tip, w + 1), c)
      ensures forall t ::
                t in added' <==> t in EntriesAbove(store, genesis, AncestorAt(store, genesis, tip, w + 1), c)
    {
      var block := newChain[i];
      assert block.number == w + 1 && block.hash == AncestorAt(store, genesis, tip, w + 1)
             && block == store[block.hash] by {
        BranchAt(store, genesis, tip, c, i);
        assert LinkedAt(store, genesis, AncestorAt(store, genesis, tip, w + 1));
      }
      RouteStep(store, genesis, tip, was, canon, w, top);
      EntriesStep(store, genesis, tip, c, w, before);
      Insert(block);
      WriteTxLookupEntries(block);
      added' := added + block.txs;
    }

    method CollectTxs(blocks: seq<Header>) returns (txs: seq<TxId>)
      ensures forall t :: t in txs <==> OnBranch(blocks, t)
    {
      txs := [];
      for i := 0 to |blocks|
        invariant txs == TxsOf(blocks[..i])
      {
        TxsOfAppend(blocks[..i], blocks[i]);
        assert blocks[..i + 1] == blocks[..i] + [blocks[i]];
        txs := txs + blocks[i].txs;
      }
      assert blocks[..|blocks|] == blocks;
      forall t ensures t in txs <==> OnBranch(blocks, t) {
        InTxsOf(blocks, t);
      }
    }

    /** Deletes the lookup entries that only the old branch wrote. */
    method DropLookups(ghost oldHash: Hash, ghost newTip: Hash, oldChain: seq<Header>, added: seq<TxId>, ghost c: nat)
      requires Linked(store, genesis) && oldHash in store && newTip in store && DistinctTxs(store, genesis, oldHash)
      requires c <= store[oldHash].number && c <= store[newTip].number
      requires AncestorAt(store, genesis, oldHash, c) == AncestorAt(store, genesis, newTip, c)
      requires oldChain == Branch(store, genesis, oldHash, c)
      requires forall t :: t in added <==> t in EntriesAbove(store, genesis, newTip, c)
      requires lookup == LookupOf(store, genesis, oldHash) + EntriesAbove(store, genesis, newTip, c)
      modifies this`lookup
      ensures lookup == LookupOf(store, genesis, newTip)
    {
      var deleted := CollectTxs(oldChain);
      var gone := TxDifference(deleted, added);
      var batch := set t | t in gone;
      forall t
        ensures t in batch <==>
                t in EntriesAbove(store, genesis, oldHash, c) && t !in EntriesAbove(store, genesis, newTip, c)
      {
        InDifference(deleted, added, t);
        EntriesKeys(store, genesis, oldHash, c, t);
      }
      LookupRerouted(store, genesis, oldHash, newTip, c, batch);
      lookup := lookup - batch;
    }

    /**
     Re-routes the indexes from the old head to the parent of a block that is about to become the head.
     With a single-block branch only what lies above the old head is cleared; a block that already is the
     head changes nothing else.
     */
    method Reorg(oldHash: Hash, newHash: Hash)
      requires Linked(store, genesis) && oldHash in store && newHash in store && headBlock == oldHash
      requires newHash == oldHash || OffChain(store, genesis, oldHash, newHash)
      requires DistinctTxs(store, genesis, oldHash)
      requires IndexCovers(store, genesis, canon, oldHash) && lookup == LookupOf(store, genesis, oldHash)
      modifies this`canon, this`headBlock, this`headHeader, this`headFast, this`lookup
      ensures newHash == oldHash ==>
                lookup == old(lookup) && canon == UpTo(old(canon), store[oldHash].number) && headBlock == oldHash
                && headHeader == old(headHeader) && headFast == old(headFast)
      ensures newHash != oldHash ==>
                && store[newHash].number > 0 && store[newHash].parentHash in store
                && lookup == LookupOf(store, genesis, store[newHash].parentHash)
                && canon == if ParentOnChain(store, genesis, oldHash, store[newHash])
                            then UpTo(old(canon), store[oldHash].number)
                            else Canonical(store, genesis, store[newHash].parentHash)
    {
      ghost var top: nat :| EndsAt(canon, top);
      assert store[oldHash].number in canon;
      var oldChain, newChain, c := FindFork(store, genesis, oldHash, newHash);
      if newChain == [] {
        assert newHash == oldHash by {
          assert AncestorAt(store, genesis, newHash, c) == newHash;
        }
        canon := DeleteAbove(canon, store[headBlock].number, top);
      } else {
        assert newHash != oldHash by {
          assert AncestorAt(store, genesis, newHash, store[newHash].number) == newHash;
        }
        SingleBlockBranch(store, genesis, oldHash, newHash, c);
        Reroute(oldHash, newHash, oldChain, newChain, c, top);
      }
    }

    /** Inserts the new branch below its tip and rewrites the transaction lookups. */
    method RouteBranch(oldHash: Hash, newHash: Hash, oldChain: seq<Header>, newChain: seq<Header>, c: nat,
        ghost top: nat)
      requires Linked(store, genesis) && oldHash in store && newHash in store
      requires DistinctTxs(store, genesis, oldHash) && lookup == LookupOf(store, genesis, oldHash)
      requires IndexCovers(store, genesis, canon, oldHash) && EndsAt(canon, top)
      requires IsForkHeight(store, genesis, oldHash, newHash, c) && c < store[newHash].number
      requires oldChain == Branch(store, genesis, oldHash, c) && newChain == Branch(store, genesis, newHash, c)
      modifies this`canon, this`headBlock, this`headHeader, this`headFast, this`lookup
      ensures store[newHash].parentHash in store && c <= store[oldHash].number <= top
      ensures headBlock == if c + 1 == store[newHash].number then old(headBlock) else store[newHash].parentHash
      ensures Routed(store, genesis, newHash, old(canon), old(canon), c, top)
      ensures Routed(store, genesis, newHash, old(canon), canon, store[newHash].number - 1, top)
      ensures lookup == LookupOf(store, genesis, store[newHash].parentHash)
    {
      var parent := store[newHash].parentHash;
      assert store[oldHash].number in canon;
      RoutedAtFork(store, genesis, canon, oldHash, newHash, c, top);
      var added := InsertBranch(newHash, newChain, c, top);
      assert lookup == LookupOf(store, genesis, oldHash) + EntriesAbove(store, genesis, parent, c);
      DropLookups(oldHash, parent, oldChain, added, c);
    }

    method Reroute(oldHash: Hash, newHash: Hash, oldChain: seq<Header>, newChain: seq<Header>, c: nat, ghost top: nat)
      requires Linked(store, genesis) && oldHash in store && newHash in store && headBlock == oldHash
      requires DistinctTxs(store, genesis, oldHash) && lookup == LookupOf(store, genesis, oldHash)
      requires IndexCovers(store, genesis, canon, oldHash) && EndsAt(canon, top)
      requires IsForkHeight(store, genesis, oldHash, newHash, c) && c < store[newHash].number
      requires oldChain == Branch(store, genesis, oldHash, c) && newChain == Branch(store, genesis, newHash, c)
      modifies this`canon, this`headBlock, this`headHeader, this`headFast, this`lookup
      ensures store[newHash].number > 0 && store[newHash].parentHash in store
      ensures lookup == LookupOf(store, genesis, store[newHash].parentHash)
      ensures canon == if c + 1 == store[newHash].number then UpTo(old(canon), store[oldHash].number)
                       else Canonical(store, genesis, store[newHash].parentHash)
    {
      RouteBranch(oldHash, newHash, oldChain, newChain, c, top);
      CutRoute(store, genesis, oldHash, newHash, c, old(canon), canon, top);
      canon := DeleteAbove(canon, store[headBlock].number, RouteTop(store[newHash].number, top));
    }

    /** The parent is stored at the height before. */
    ghost predicate HasParent(b: Header)
      reads this
    {
      b.parentHash in store && store[b.parentHash].number + 1 == b.number
    }

    /**
     Writes a validated block. Without its parent nothing changes. Otherwise it is stored, and the chain with more
     work wins; at equal work the lower block wins, and at equal height the node's own block stays head, the node's
     own newcomer replaces another's, and else the coin decides.
     */
    method WriteBlock(b: Header, tie: TieBreak) returns (status: WriteStatus)
      requires Valid() && Offerable(State(), genesis, b)
      modifies this
      ensures Valid() && State() == AfterBlock(old(State()), genesis, b, tie)
      ensures status.NonStatTy? <==> !old(HasParent(b))
      ensures status.NonStatTy? ==> State() == old(State())
      ensures status.SideStatTy? ==> headBlock == old(headBlock) && canon == old(canon) && lookup == old(lookup)
      ensures status.CanonStatTy? ==> headBlock == headHeader == headFast == b.hash
      ensures old(HasParent(b)) ==>
                && store == old(store)[b.hash := b]
                && td == old(td)[b.hash := old(td[b.parentHash]) + b.difficulty]
      ensures old(HasParent(b)) && td[b.hash] > old(td[headBlock]) ==> status.CanonStatTy?
      ensures old(HasParent(b)) && td[b.hash] < old(td[headBlock]) ==> status.SideStatTy?
      ensures old(HasParent(b)) && td[b.hash] == old(td[headBlock]) ==>
                && (b.number < old(store[headBlock].number) ==> status.CanonStatTy?)
                && (b.number > old(store[headBlock].number) ==> status.SideStatTy?)
                && (b.number == old(store[headBlock].number) && tie.currentPreserve ==> status.SideStatTy?)
                && (b.number == old(store[headBlock].number) && !tie.currentPreserve ==>
                      (status.CanonStatTy? <==> tie.blockPreserve || tie.coin))
    {
      ghost var s := State();
      BlockKeepsInv(s, genesis, b, tie);
      ParentKnownIff(s.store, s.td, genesis, b);
      if !(b.parentHash in td && GetHeader(store, b.parentHash, Pred64(b.number)).Some?) {
        return NonStatTy;
      }
      var reorg := WriteKnown(b, tie);
      status := if reorg then CanonStatTy else SideStatTy;
    }

    /** Writes a block whose parent is known. */
    method WriteKnown(b: Header, tie: TieBreak) returns (reorg: bool)
      requires Valid() && Offerable(State(), genesis, b) && ParentKnown(store, td, b)
      modifies this
      ensures State() == AfterBlock(old(State()), genesis, b, tie) && reorg == Becomes(old(State()), b, tie)
    {
      ghost var s := State();
      reorg := StoreBlock(b, tie);
      AfterKnownParent(s, genesis, b, tie);
      if reorg {
        SetHead(b, s, tie);
      }
    }

    /** Stores a block and its total difficulty, and decides whether it becomes the head. */
    method StoreBlock(b: Header, tie: TieBreak) returns (reorg: bool)
      requires Valid() && Offerable(State(), genesis, b) && ParentKnown(store, td, b)
      modifies this`store, this`td
      ensures Attachable(old(store), b) && Linked(store, genesis) && b.parentHash in old(td)
      ensures store == old(store)[b.hash := b] && td == old(td)[b.hash := b.difficulty + old(td)[b.parentHash]]
      ensures reorg == Becomes(old(State()), b, tie)
    {
      KnownParentAttaches(store, td, genesis, b);
      var localTd, externTd, current := td[headBlock], b.difficulty + td[b.parentHash], store[headBlock].number;
      td := td[b.hash := externTd];
      store := store[b.hash := b];
      reorg := Outweighs(externTd, localTd, b.number, current, tie);
    }

    /** Reorganises when the block does not extend the head. */
    method Prepare(b: Header, ghost s: BlockState, ghost tie: TieBreak)
      requires Inv(s, genesis) && Offerable(s, genesis, b) && ParentKnown(s.store, s.td, b) && Becomes(s, b, tie)
      requires Attachable(s.store, b) && Linked(s.store[b.hash := b], genesis)
      requires State() == s.(store := s.store[b.hash := b], td := td)
      modifies this`canon, this`headBlock, this`headHeader, this`headFast, this`lookup
      ensures canon[b.number := b.hash] == IndexAfter(s, genesis, b)
      ensures lookup + Entries(b) == LookupOf(store, genesis, b.hash)
      ensures b.number in canon && canon[b.number] == b.hash ==> headHeader == headFast == b.hash
    {
      NewHeadFacts(s, genesis, b, tie);
      if b.parentHash != headBlock {
        Reorg(headBlock, b.hash);
        if b.hash == s.headBlock {
          RewritePrepares(s, genesis, b, tie);
        } else {
          ReorgPrepares(s, genesis, b, tie, canon, lookup);
        }
      }
    }

    /** Writes the new head's lookups and inserts it. */
    method SetHead(b: Header, ghost s: BlockState, ghost tie: TieBreak)
      requires Inv(s, genesis) && Offerable(s, genesis, b) && ParentKnown(s.store, s.td, b) && Becomes(s, b, tie)
      requires Attachable(s.store, b) && Linked(s.store[b.hash := b], genesis)
      requires State() == s.(store := s.store[b.hash := b], td := td)
      modifies this`canon, this`headBlock, this`headHeader, this`headFast, this`lookup
      ensures canon == IndexAfter(s, genesis, b) && lookup == LookupOf(store, genesis, b.hash)
      ensures headBlock == headHeader == headFast == b.hash
    {
      Prepare(b, s, tie);
      WriteTxLookupEntries(b);
      Insert(b);
    }
  }
}
