/**
 Headers, the store that holds them, and the ancestor walk every chain component relies on.

 A hash is an identifier; zero is the empty hash that stands for "no block". A header commits to the
 transactions of its body, so the body's transaction hashes are part of the record.
 */
module BlockTree {
  import opened Basics

  type Hash = nat

  type TxId = nat

  const ZERO_HASH: Hash := 0

  datatype Header = Header(hash: Hash, parentHash: Hash, number: U64, difficulty: nat, txs: seq<TxId>)

  type Store = map<Hash, Header>

  /** Whether a written header or block was not stored, became the head, or went to a side chain. */
  datatype WriteStatus = NonStatTy | CanonStatTy | SideStatTy

  /** Subtracting one from an unsigned 64-bit number. */
  function Pred64(n: U64): U64 {
    if n == 0 then MAX_U64 else n - 1
  }

  /** Adding two unsigned 64-bit numbers. */
  function Add64(a: U64, b: U64): U64 {
    if a + b <= MAX_U64 then a + b else a + b - MAX_U64 - 1
  }

  /** The header table is keyed by number and hash: a lookup with the wrong number misses. */
  function GetHeader(store: Store, hash: Hash, number: U64): Option<Header> {
    if hash in store && store[hash].number == number then Some(store[hash]) else None
  }

  /** Every stored header hangs off the genesis: its parent is stored, one lower. */
  ghost predicate Linked(store: Store, genesis: Hash) {
    && genesis in store
    && store[genesis].number == 0
    && (forall h {:trigger LinkedAt(store, genesis, h)} | h in store :: LinkedAt(store, genesis, h))
  }

  ghost predicate LinkedAt(store: Store, genesis: Hash, h: Hash)
    requires h in store
  {
    var header := store[h];
    && header.hash == h != ZERO_HASH
    && header.number < MAX_U64
    && (header.number == 0 ==> h == genesis)
    && (header.number > 0 ==> header.parentHash in store && store[header.parentHash].number == header.number - 1)
  }

  /** A header that may be added: not a hash collision, and its parent is stored one lower. */
  ghost predicate Attachable(store: Store, header: Header) {
    && header.hash != ZERO_HASH
    && 0 < header.number < MAX_U64
    && header.parentHash in store
    && store[header.parentHash].number == header.number - 1
    && (header.hash in store ==> store[header.hash] == header)
  }

  /** A header or block with an identity of its own; its parent need not be known. */
  ghost predicate Storable(store: Store, header: Header) {
    && header.hash != ZERO_HASH
    && header.number < MAX_U64
    && (header.hash in store ==> store[header.hash] == header)
  }

  /** The parent is stored, with its total difficulty, under the number before. */
  ghost predicate ParentKnown(store: Store, td: map<Hash, nat>, header: Header) {
    header.parentHash in td && GetHeader(store, header.parentHash, Pred64(header.number)).Some?
  }

  /** The n-th parent of a stored block; the 0-th is the block itself. */
  ghost function NthParent(store: Store, genesis: Hash, h: Hash, n: nat): (r: Hash)
    requires Linked(store, genesis) && h in store && n <= store[h].number
    ensures r in store && store[r].number == store[h].number - n
    decreases n
  {
    assert LinkedAt(store, genesis, h);
    if n == 0 then h else NthParent(store, genesis, store[h].parentHash, n - 1)
  }

  /** The ancestor of a stored block at a given height. */
  ghost function AncestorAt(store: Store, genesis: Hash, h: Hash, height: nat): (r: Hash)
    requires Linked(store, genesis) && h in store && height <= store[h].number
    ensures r in store && store[r].number == height
  {
    NthParent(store, genesis, h, store[h].number - height)
  }

  /** Total difficulty: the sum of difficulties from the genesis up to the block. */
  ghost function Work(store: Store, genesis: Hash, h: Hash): nat
    requires Linked(store, genesis) && h in store
    decreases store[h].number
  {
    assert LinkedAt(store, genesis, h);
    store[h].difficulty + if store[h].number == 0 then 0 else Work(store, genesis, store[h].parentHash)
  }

  lemma {:induction false} NthParentSplit(store: Store, genesis: Hash, h: Hash, m: nat, n: nat)
    requires Linked(store, genesis) && h in store && m + n <= store[h].number
    ensures NthParent(store, genesis, h, m + n) == NthParent(store, genesis, NthParent(store, genesis, h, m), n)
    decreases m
  {
    if m > 0 {
      assert LinkedAt(store, genesis, h);
      NthParentSplit(store, genesis, store[h].parentHash, m - 1, n);
    }
  }

  /** Ancestors of an ancestor are ancestors. */
  lemma AncestorOfAncestor(store: Store, genesis: Hash, h: Hash, mid: nat, low: nat)
    requires Linked(store, genesis) && h in store && low <= mid <= store[h].number
    ensures AncestorAt(store, genesis, h, low) == AncestorAt(store, genesis, AncestorAt(store, genesis, h, mid), low)
  {
    NthParentSplit(store, genesis, h, store[h].number - mid, mid - low);
  }

  /** The lowest ancestor of every block is the genesis. */
  lemma AncestorAtZero(store: Store, genesis: Hash, h: Hash)
    requires Linked(store, genesis) && h in store
    ensures AncestorAt(store, genesis, h, 0) == genesis
  {
    var r := AncestorAt(store, genesis, h, 0);
    assert LinkedAt(store, genesis, r);
  }

  /** Stepping to the parent shifts the ancestor walk by one. */
  lemma AncestorOfParent(store: Store, genesis: Hash, h: Hash, height: nat)
    requires Linked(store, genesis) && h in store && height < store[h].number
    ensures store[h].parentHash in store && store[store[h].parentHash].number == store[h].number - 1
    ensures AncestorAt(store, genesis, h, height) == AncestorAt(store, genesis, store[h].parentHash, height)
  {
    assert LinkedAt(store, genesis, h);
  }

  /** The number-to-hash index of the ancestors of `head`. */
  ghost function Canonical(store: Store, genesis: Hash, head: Hash): (m: map<nat, Hash>)
    requires Linked(store, genesis) && head in store
    decreases store[head].number
  {
    assert LinkedAt(store, genesis, head);
    if store[head].number == 0 then map[0 := head]
    else Canonical(store, genesis, store[head].parentHash)[store[head].number := head]
  }

  /** The canonical index is defined exactly up to the head, and holds the ancestor at each height. */
  lemma {:induction false} CanonicalAt(store: Store, genesis: Hash, head: Hash, k: nat)
    requires Linked(store, genesis) && head in store
    ensures k in Canonical(store, genesis, head) <==> k <= store[head].number
    ensures k <= store[head].number ==> Canonical(store, genesis, head)[k] == AncestorAt(store, genesis, head, k)
    decreases store[head].number
  {
    assert LinkedAt(store, genesis, head);
    if store[head].number > 0 {
      CanonicalAt(store, genesis, store[head].parentHash, k);
      if k < store[head].number {
        AncestorOfParent(store, genesis, head, k);
      }
    }
  }

  /** `m` holds the ancestors of `head` at every height up to it. */
  ghost predicate Spells(store: Store, genesis: Hash, head: Hash, m: map<nat, Hash>)
    requires Linked(store, genesis) && head in store
  {
    forall k: nat | k <= store[head].number :: k in m && m[k] == AncestorAt(store, genesis, head, k)
  }

  /** An index is the canonical one exactly when it spells out the head's ancestors and stops at the head. */
  lemma CanonicalIff(store: Store, genesis: Hash, head: Hash, m: map<nat, Hash>)
    requires Linked(store, genesis) && head in store
    ensures m == Canonical(store, genesis, head) <==>
            Spells(store, genesis, head, m) && forall k | k in m :: k <= store[head].number
  {
    var canon := Canonical(store, genesis, head);
    forall k: nat
      ensures k in canon <==> k <= store[head].number
      ensures k <= store[head].number ==> canon[k] == AncestorAt(store, genesis, head, k)
    {
      CanonicalAt(store, genesis, head, k);
    }
    if Spells(store, genesis, head, m) && forall k | k in m :: k <= store[head].number {
      assert m.Keys == canon.Keys;
    }
  }

  /** The index has no gaps and ends at `top`. */
  ghost predicate EndsAt(canon: map<nat, Hash>, top: nat) {
    forall k: nat :: k in canon <==> k <= top
  }

  /** The part of an index that reaches no higher than `top`. */
  ghost function UpTo(canon: map<nat, Hash>, top: nat): map<nat, Hash> {
    canon - (set k | k in canon && k > top)
  }

  /** Deletes the index entries above `number`, up to the first gap, in one batch. */
  method DeleteAbove(canon: map<nat, Hash>, number: nat, ghost top: nat) returns (kept: map<nat, Hash>)
    requires EndsAt(canon, top)
    ensures kept == UpTo(canon, number)
  {
    var batch: set<nat> := {};
    var i := number + 1;
    while i in canon
      invariant number < i && (i <= top + 1 || i == number + 1)
      invariant forall k: nat :: k in batch <==> number < k < i
      decreases top + 1 - i
    {
      batch := batch + {i};
      i := i + 1;
    }
    kept := canon - batch;
  }

  /** On an ancestor chain each block's parent is the next one down. */
  lemma ParentIsAncestor(store: Store, genesis: Hash, tip: Hash, k: nat)
    requires Linked(store, genesis) && tip in store && 0 < k <= store[tip].number
    ensures store[AncestorAt(store, genesis, tip, k)].parentHash == AncestorAt(store, genesis, tip, k - 1)
  {
    var up := AncestorAt(store, genesis, tip, k);
    AncestorOfAncestor(store, genesis, tip, k, k - 1);
    assert LinkedAt(store, genesis, up);
    assert NthParent(store, genesis, up, 1) == NthParent(store, genesis, store[up].parentHash, 0);
  }

  lemma AttachKeepsLinked(store: Store, genesis: Hash, header: Header)
    requires Linked(store, genesis) && Attachable(store, header)
    ensures Linked(store[header.hash := header], genesis)
  {
    var store' := store[header.hash := header];
    assert LinkedAt(store, genesis, header.parentHash);
    forall h | h in store' ensures LinkedAt(store', genesis, h) {
      if h in store {
        assert LinkedAt(store, genesis, h);
      }
    }
    assert LinkedAt(store, genesis, genesis);
  }

  lemma KnownParentAttaches(store: Store, td: map<Hash, nat>, genesis: Hash, header: Header)
    requires Linked(store, genesis) && Storable(store, header) && ParentKnown(store, td, header)
    ensures Attachable(store, header) && Linked(store[header.hash := header], genesis)
  {
    assert LinkedAt(store, genesis, header.parentHash);
    AttachKeepsLinked(store, genesis, header);
  }

  lemma ParentKnownIff(store: Store, td: map<Hash, nat>, genesis: Hash, header: Header)
    requires Linked(store, genesis) && td.Keys == store.Keys && Storable(store, header)
    ensures ParentKnown(store, td, header) <==>
            header.parentHash in store && store[header.parentHash].number + 1 == header.number
  {
    if header.parentHash in store {
      assert LinkedAt(store, genesis, header.parentHash);
    }
  }

  lemma {:induction false} AttachKeepsNthParent(store: Store, genesis: Hash, header: Header, h: Hash, n: nat)
    requires Linked(store, genesis) && Attachable(store, header) && Linked(store[header.hash := header], genesis)
    requires h in store && n <= store[h].number
    ensures NthParent(store[header.hash := header], genesis, h, n) == NthParent(store, genesis, h, n)
    decreases n
  {
    if n > 0 {
      assert LinkedAt(store, genesis, h);
      AttachKeepsNthParent(store, genesis, header, store[h].parentHash, n - 1);
    }
  }

  lemma {:induction false} AttachKeepsWork(store: Store, genesis: Hash, header: Header, h: Hash)
    requires Linked(store, genesis) && Attachable(store, header) && Linked(store[header.hash := header], genesis)
    requires h in store
    ensures Work(store[header.hash := header], genesis, h) == Work(store, genesis, h)
    decreases store[h].number
  {
    if store[h].number > 0 {
      assert LinkedAt(store, genesis, h);
      AttachKeepsWork(store, genesis, header, store[h].parentHash);
    }
  }

  lemma {:induction false} AttachKeepsCanonical(store: Store, genesis: Hash, header: Header, h: Hash)
    requires Linked(store, genesis) && Attachable(store, header) && Linked(store[header.hash := header], genesis)
    requires h in store
    ensures Canonical(store[header.hash := header], genesis, h) == Canonical(store, genesis, h)
    decreases store[h].number
  {
    if store[h].number > 0 {
      assert LinkedAt(store, genesis, h);
      AttachKeepsCanonical(store, genesis, header, store[h].parentHash);
    }
  }
}
