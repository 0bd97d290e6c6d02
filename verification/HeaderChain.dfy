/**
 The header chain: headers, total difficulties, the number-to-hash index of the canonical chain and
 its head. `ChainState` is the abstract value of a `HeaderChain` object.
 */
module HeaderChains {
  import opened Basics
  import opened BlockTree

  datatype ChainState = ChainState(headers: Store, td: map<Hash, nat>, canon: map<nat, Hash>, head: Hash)

  /** An absent index entry reads as the zero hash. */
  function ReadCanonicalHash(canon: map<nat, Hash>, n: nat): Hash {
    if n in canon then canon[n] else ZERO_HASH
  }

  /**
   What holds between any two writes: the store is a tree, every total difficulty is the sum along the
   ancestors, the index is exactly the head's ancestor chain, and no stored header has more work than the head.
   */
  ghost predicate Inv(s: ChainState, genesis: Hash) {
    && Linked(s.headers, genesis)
    && s.head in s.headers
    && s.td.Keys == s.headers.Keys
    && (forall h {:trigger s.td[h]} | h in s.headers :: s.td[h] == Work(s.headers, genesis, h))
    && s.canon == Canonical(s.headers, genesis, s.head)
    && (forall h {:trigger s.td[h]} | h in s.headers :: s.td[h] <= s.td[s.head])
  }

  /** The new header takes over when it has more work, or equal work and the coin says so. */
  ghost predicate TakesOver(s: ChainState, header: Header, coin: bool)
    requires ParentKnown(s.headers, s.td, header) && s.head in s.td
  {
    var externTd := s.td[header.parentHash] + header.difficulty;
    externTd > s.td[s.head] || (externTd == s.td[s.head] && coin)
  }

  /** The state a write leads to, stated without the write's loops. */
  ghost function AfterWrite(s: ChainState, genesis: Hash, header: Header, coin: bool): ChainState
    requires Inv(s, genesis) && Storable(s.headers, header)
  {
    if !ParentKnown(s.headers, s.td, header) then s
    else
      KnownParentAttaches(s.headers, s.td, genesis, header);
      var headers := s.headers[header.hash := header];
      var td := s.td[header.hash := s.td[header.parentHash] + header.difficulty];
      if TakesOver(s, header, coin)
      then ChainState(headers, td, Canonical(headers, genesis, header.hash), header.hash)
      else ChainState(headers, td, s.canon, s.head)
  }

  /** One write keeps the invariant. */
  lemma WriteKeepsInv(s: ChainState, genesis: Hash, header: Header, coin: bool)
    requires Inv(s, genesis) && Storable(s.headers, header)
    ensures Inv(AfterWrite(s, genesis, header, coin), genesis)
  {
    if ParentKnown(s.headers, s.td, header) {
      KnownParentAttaches(s.headers, s.td, genesis, header);
      var s' := AfterWrite(s, genesis, header, coin);
      forall h | h in s'.headers ensures s'.td[h] == Work(s'.headers, genesis, h) {
        AttachKeepsWork(s.headers, genesis, header, header.parentHash);
        if h != header.hash {
          AttachKeepsWork(s.headers, genesis, header, h);
        }
      }
      AttachKeepsCanonical(s.headers, genesis, header, s.head);
    }
  }

  /** Writing a whole list of headers, each with its own coin. */
  ghost function AfterWrites(s: ChainState, genesis: Hash, writes: seq<(Header, bool)>): ChainState
    requires Inv(s, genesis) && AllStorable(s, genesis, writes)
    decreases |writes|
  {
    if writes == [] then s
    else
      WriteKeepsInv(s, genesis, writes[0].0, writes[0].1);
      AfterWrites(AfterWrite(s, genesis, writes[0].0, writes[0].1), genesis, writes[1..])
  }

  ghost predicate AllStorable(s: ChainState, genesis: Hash, writes: seq<(Header, bool)>)
    requires Inv(s, genesis)
    decreases |writes|
  {
    writes != [] ==>
      Storable(s.headers, writes[0].0) &&
      (WriteKeepsInv(s, genesis, writes[0].0, writes[0].1);
       AllStorable(AfterWrite(s, genesis, writes[0].0, writes[0].1), genesis, writes[1..]))
  }

  ghost function GenesisHeaders(genesis: Header): ChainState {
    ChainState(map[genesis.hash := genesis], map[genesis.hash := genesis.difficulty], map[0 := genesis.hash],
               genesis.hash)
  }

  lemma GenesisHeadersInv(genesis: Header)
    requires genesis.hash != ZERO_HASH && genesis.number == 0
    ensures Inv(GenesisHeaders(genesis), genesis.hash)
  {
    var s := GenesisHeaders(genesis);
    assert LinkedAt(s.headers, genesis.hash, genesis.hash);
  }

  lemma {:induction false} RunKeepsInv(s: ChainState, genesis: Hash, writes: seq<(Header, bool)>)
    requires Inv(s, genesis) && AllStorable(s, genesis, writes)
    ensures Inv(AfterWrites(s, genesis, writes), genesis)
    decreases |writes|
  {
    if writes != [] {
      WriteKeepsInv(s, genesis, writes[0].0, writes[0].1);
      RunKeepsInv(AfterWrite(s, genesis, writes[0].0, writes[0].1), genesis, writes[1..]);
    }
  }

  /** The index read entry by entry: defined exactly on 0..head, each entry the parent of the next. */
  ghost predicate SpellsOutHead(s: ChainState, genesis: Hash) {
    && s.head in s.headers
    && (forall k: nat :: k in s.canon <==> k <= s.headers[s.head].number)
    && s.canon[s.headers[s.head].number] == s.head
    && s.canon[0] == genesis
    && (forall k: nat | k in s.canon && k > 0 ::
          && s.canon[k] in s.headers
          && s.headers[s.canon[k]].number == k
          && s.headers[s.canon[k]].parentHash == s.canon[k - 1])
  }

  lemma InvSpellsOutHead(s: ChainState, genesis: Hash)
    requires Inv(s, genesis)
    ensures SpellsOutHead(s, genesis)
  {
    AncestorAtZero(s.headers, genesis, s.head);
    CanonicalIff(s.headers, genesis, s.head, s.canon);
    forall k: nat | k in s.canon && k > 0
      ensures s.headers[s.canon[k]].parentHash == s.canon[k - 1]
    {
      ParentIsAncestor(s.headers, genesis, s.head, k);
    }
  }

  /**
   Every run of header writes from the genesis: the index is defined exactly on 0..head, each entry is the
   parent of the next, its top is the head, every stored difficulty is the sum along the ancestors, and the
   head's is the largest.
   */
  lemma EveryRun(first: Header, writes: seq<(Header, bool)>)
    requires first.hash != ZERO_HASH && first.number == 0
    requires (GenesisHeadersInv(first); AllStorable(GenesisHeaders(first), first.hash, writes))
    ensures (GenesisHeadersInv(first);
            var s := AfterWrites(GenesisHeaders(first), first.hash, writes);
            && SpellsOutHead(s, first.hash)
            && Linked(s.headers, first.hash)
            && s.head in s.td
            && (forall h | h in s.headers :: h in s.td && s.td[h] == Work(s.headers, first.hash, h) <= s.td[s.head]))
  {
    GenesisHeadersInv(first);
    RunKeepsInv(GenesisHeaders(first), first.hash, writes);
    InvSpellsOutHead(AfterWrites(GenesisHeaders(first), first.hash, writes), first.hash);
  }

  /** If the index already holds `h`, everything below is `h`'s ancestor chain too. */
  lemma CanonicalBelow(store: Store, genesis: Hash, head: Hash, h: Hash, k: nat)
    requires Linked(store, genesis) && head in store && h in store
    requires store[h].number <= store[head].number && AncestorAt(store, genesis, head, store[h].number) == h
    requires k <= store[h].number
    ensures AncestorAt(store, genesis, head, k) == AncestorAt(store, genesis, h, k)
  {
    AncestorOfAncestor(store, genesis, head, store[h].number, k);
  }

  /** How many of the first `n` steps down from `h` start at a block that is not on the canonical chain. */
  ghost function OffIndex(s: ChainState, genesis: Hash, h: Hash, n: nat): (k: nat)
    requires Inv(s, genesis) && h in s.headers && n <= s.headers[h].number
    ensures k <= n
    decreases n
  {
    assert LinkedAt(s.headers, genesis, h);
    if n == 0 || ReadCanonicalHash(s.canon, s.headers[h].number) == h then 0
    else 1 + OffIndex(s, genesis, s.headers[h].parentHash, n - 1)
  }

  /** Exactly the blocks before the first one on the index are counted. */
  lemma {:induction false} OffIndexCounts(s: ChainState, genesis: Hash, h: Hash, n: nat, j: nat)
    requires Inv(s, genesis) && h in s.headers && j <= n <= s.headers[h].number
    ensures var at := NthParent(s.headers, genesis, h, j);
            && (j < OffIndex(s, genesis, h, n) ==> ReadCanonicalHash(s.canon, s.headers[at].number) != at)
            && (j == OffIndex(s, genesis, h, n) < n ==> ReadCanonicalHash(s.canon, s.headers[at].number) == at)
    decreases j
  {
    assert LinkedAt(s.headers, genesis, h);
    if j > 0 && ReadCanonicalHash(s.canon, s.headers[h].number) != h {
      OffIndexCounts(s, genesis, s.headers[h].parentHash, n - 1, j - 1);
    }
  }

  lemma IndexEntry(s: ChainState, genesis: Hash, k: nat)
    requires Inv(s, genesis)
    ensures k in s.canon <==> k <= s.headers[s.head].number
    ensures k in s.canon ==> s.canon[k] == AncestorAt(s.headers, genesis, s.head, k) != ZERO_HASH
  {
    CanonicalAt(s.headers, genesis, s.head, k);
    if k in s.canon {
      assert LinkedAt(s.headers, genesis, s.canon[k]);
    }
  }

  /** From a canonical block the index entry `a` lower is its a-th parent. */
  lemma CanonicalJump(store: Store, genesis: Hash, head: Hash, h: Hash, a: nat)
    requires Linked(store, genesis) && head in store && h in store && a <= store[h].number
    requires var canon := Canonical(store, genesis, head); store[h].number in canon && canon[store[h].number] == h
    ensures var canon := Canonical(store, genesis, head);
            store[h].number - a in canon && canon[store[h].number - a] == NthParent(store, genesis, h, a)
  {
    CanonicalAt(store, genesis, head, store[h].number);
    CanonicalAt(store, genesis, head, store[h].number - a);
    CanonicalBelow(store, genesis, head, h, store[h].number - a);
  }

  /** Between `n` and the tip the index lists the tip's ancestors, and above the tip nothing. */
  ghost predicate Rewritten(store: Store, genesis: Hash, tip: Hash, canon: map<nat, Hash>, n: nat)
    requires Linked(store, genesis) && tip in store
  {
    && (forall k | k in canon :: k <= store[tip].number)
    && (forall k: nat | n < k < store[tip].number :: k in canon && canon[k] == AncestorAt(store, genesis, tip, k))
  }

  /** Up to `n` the index still lists the old head's chain. */
  ghost predicate Untouched(store: Store, genesis: Hash, head: Hash, canon: map<nat, Hash>, n: nat)
    requires Linked(store, genesis) && head in store
  {
    && (forall k: nat | k <= n :: k in canon <==> k <= store[head].number)
    && (forall k: nat | k <= n && k in canon :: canon[k] == AncestorAt(store, genesis, head, k))
  }

  /** Rewriting a stale entry moves the border one down, and the genesis is never stale. */
  lemma OverwriteStep(store: Store, genesis: Hash, head: Hash, tip: Hash, canon: map<nat, Hash>, n: nat)
    requires Linked(store, genesis) && head in store && tip in store && n < store[tip].number
    requires Rewritten(store, genesis, tip, canon, n) && Untouched(store, genesis, head, canon, n)
    requires ReadCanonicalHash(canon, n) != AncestorAt(store, genesis, tip, n)
    ensures var h := AncestorAt(store, genesis, tip, n);
            && n > 0 && h in store && store[h].parentHash in store && store[store[h].parentHash].number == n - 1
            && store[h].parentHash == AncestorAt(store, genesis, tip, n - 1)
            && Rewritten(store, genesis, tip, canon[n := h], n - 1)
            && Untouched(store, genesis, head, canon[n := h], n - 1)
  {
    var h := AncestorAt(store, genesis, tip, n);
    assert LinkedAt(store, genesis, h);
    AncestorAtZero(store, genesis, head);
    AncestorAtZero(store, genesis, tip);
    ParentIsAncestor(store, genesis, tip, n);
  }

  class HeaderChain {
    const genesis: Hash
    var headers: Store
    var td: map<Hash, nat>
    var canon: map<nat, Hash>
    var headHash: Hash

    ghost function State(): ChainState
      reads this
    {
      ChainState(headers, td, canon, headHash)
    }

    ghost predicate Valid()
      reads this
    {
      Inv(State(), genesis)
    }

    constructor (first: Header)
      requires first.hash != ZERO_HASH && first.number == 0
      ensures Valid() && genesis == first.hash && State() == GenesisHeaders(first)
    {
      genesis := first.hash;
      headers := map[first.hash := first];
      td := map[first.hash := first.difficulty];
      canon := map[0 := first.hash];
      headHash := first.hash;
      new;
      GenesisHeadersInv(first);
    }

    /** The work along all ancestors of a header stored under that number. */
    method ReadTd(hash: Hash, number: U64) returns (r: Option<nat>)
      requires Valid()
      ensures r == if GetHeader(headers, hash, number).Some? then Some(Work(headers, genesis, hash)) else None
    {
      if hash in td && hash in headers && headers[hash].number == number {
        r := Some(td[hash]);
      } else {
        r := None;
      }
    }

    /** The parent is stored at the height before. */
    ghost predicate HasParent(header: Header)
      reads this
    {
      header.parentHash in headers && headers[header.parentHash].number + 1 == header.number
    }

    /**
     Writes a header. Without its parent nothing changes. Otherwise it is stored, and it becomes the head when it has
     more work than the head, or as much and the coin says so; then the index is re-routed.
     */
    method WriteHeader(header: Header, coin: bool) returns (status: WriteStatus)
      requires Valid() && Storable(headers, header)
      modifies this
      ensures Valid() && State() == AfterWrite(old(State()), genesis, header, coin)
      ensures status.NonStatTy? <==> !old(HasParent(header))
      ensures status.NonStatTy? ==> State() == old(State())
      ensures status.SideStatTy? ==> headHash == old(headHash) && canon == old(canon)
      ensures status.CanonStatTy? ==> headHash == header.hash
      ensures old(HasParent(header)) ==>
                && headers == old(headers)[header.hash := header]
                && td == old(td)[header.hash := old(td[header.parentHash]) + header.difficulty]
      ensures old(HasParent(header)) && td[header.hash] > old(td[headHash]) ==> status.CanonStatTy?
      ensures old(HasParent(header)) && td[header.hash] < old(td[headHash]) ==> status.SideStatTy?
      ensures old(HasParent(header)) && td[header.hash] == old(td[headHash]) ==> (status.CanonStatTy? <==> coin)
    {
      ghost var s := State();
      ParentKnownIff(s.headers, s.td, genesis, header);
      WriteKeepsInv(s, genesis, header, coin);
      var ptd := ReadTd(header.parentHash, Pred64(header.number));
      if ptd.None? {
        return NonStatTy;
      }
      KnownParentAttaches(s.headers, s.td, genesis, header);
      var localTd := td[headHash];
      var externTd := header.difficulty + ptd.value;
      AttachKeepsCanonical(headers, genesis, header, headHash);
      td := td[header.hash := externTd];
      headers := headers[header.hash := header];
      if externTd > localTd || (externTd == localTd && coin) {
        Reroute(header);
        status := CanonStatTy;
      } else {
        status := SideStatTy;
      }
      assert State() == AfterWrite(s, genesis, header, coin);
    }

    /** Makes `header` the head and its ancestors the index. */
    method Reroute(header: Header)
      requires Linked(headers, genesis) && headHash in headers && canon == Canonical(headers, genesis, headHash)
      requires header.hash in headers && headers[header.hash] == header && header.number > 0
      modifies this`canon, this`headHash
      ensures canon == Canonical(headers, genesis, header.hash) && headHash == header.hash
    {
      CanonicalIff(headers, genesis, headHash, canon);
      canon := DeleteAbove(canon, header.number, headers[headHash].number);
      OverwriteStale(header);
      canon := canon[header.number := header.hash];
      headHash := header.hash;
      CanonicalIff(headers, genesis, headHash, canon);
    }

    /** Walks down from the parent, rewriting entries until one already agrees. */
    method OverwriteStale(header: Header)
      requires Linked(headers, genesis) && headHash in headers
      requires header.hash in headers && headers[header.hash] == header && header.number > 0
      requires forall k: nat :: k in canon <==> k <= headers[headHash].number && k <= header.number
      requires forall k: nat | k in canon :: canon[k] == AncestorAt(headers, genesis, headHash, k)
      modifies this`canon
      ensures forall k | k in canon :: k <= header.number
      ensures forall k: nat | k < header.number ::
                k in canon && canon[k] == AncestorAt(headers, genesis, header.hash, k)
    {
      assert LinkedAt(headers, genesis, header.hash);
      var h := header.parentHash;
      var n: nat := header.number - 1;
      AncestorOfParent(headers, genesis, header.hash, n);
      while ReadCanonicalHash(canon, n) != h
        invariant n < header.number && h in headers && headers[h].number == n
        invariant h == AncestorAt(headers, genesis, header.hash, n)
        invariant Rewritten(headers, genesis, header.hash, canon, n) && Untouched(headers, genesis, headHash, canon, n)
        decreases n
      {
        OverwriteStep(headers, genesis, headHash, header.hash, canon, n);
        canon := canon[n := h];
        h, n := headers[h].parentHash, n - 1;
      }
      assert LinkedAt(headers, genesis, h);
      forall k: nat | k <= n ensures k in canon && canon[k] == AncestorAt(headers, genesis, header.hash, k) {
        CanonicalBelow(headers, genesis, headHash, h, k);
        CanonicalBelow(headers, genesis, header.hash, h, k);
      }
    }

    /**
     The n-th ancestor of a block, jumping through the index once the walk meets the canonical chain.
     `left` is what remains of the caller's budget of non-canonical reads.
     */
    method GetAncestor(hash: Hash, number: U64, ancestor: U64, budget: U64) returns (r: Hash, rn: U64, left: U64)
      requires Valid() && hash != ZERO_HASH
      ensures ancestor == 0 ==> r == hash && rn == number && left == budget
      ensures ancestor > number || (ancestor > 0 && GetHeader(headers, hash, number).None?) ==>
                r == ZERO_HASH && rn == 0
      ensures ancestor <= number && GetHeader(headers, hash, number).Some? ==>
                var need := if ancestor == 1 then 0 else OffIndex(State(), genesis, hash, ancestor);
                && left == (if need <= budget then budget - need else 0)
                && (r, rn) == if need <= budget then (NthParent(headers, genesis, hash, ancestor), number - ancestor)
                              else (ZERO_HASH, 0)
    {
      r, rn, left := ZERO_HASH, 0, budget;
      if ancestor > number {
        return;
      }
      if ancestor == 1 {
        if hash in headers && headers[hash].number == number {
          assert NthParent(headers, genesis, headers[hash].parentHash, 0) == headers[hash].parentHash by {
            assert LinkedAt(headers, genesis, hash);
          }
          r, rn := headers[hash].parentHash, number - 1;
        }
        return;
      }
      ghost var known := GetHeader(headers, hash, number).Some?;
      ghost var goal := if known then NthParent(headers, genesis, hash, ancestor) else 0;
      ghost var need := if known then OffIndex(State(), genesis, hash, ancestor) else 0;
      var h, n, a := hash, number, ancestor;
      while a != 0
        invariant h != ZERO_HASH && 0 <= a <= n <= number && left <= budget
        invariant known <==> GetHeader(headers, h, n).Some?
        invariant n - a == number - ancestor && a <= ancestor
        invariant a == ancestor ==> left == budget && h == hash && n == number
        invariant known ==> goal == NthParent(headers, genesis, h, a)
        invariant known ==> OffIndex(State(), genesis, h, a) + (budget - left) == need
        invariant !known ==> h == hash && n == number && a == ancestor
        decreases a
      {
        if ReadCanonicalHash(canon, n) == h {
          IndexEntry(State(), genesis, n);
          if known {
            CanonicalJump(headers, genesis, headHash, h, a);
          } else {
            assert false;
          }
          return ReadCanonicalHash(canon, n - a), n - a, left;
        }
        if left == 0 {
          return;
        }
        left := left - 1;
        if !(h in headers && headers[h].number == n) {
          return;
        }
        assert LinkedAt(headers, genesis, h);
        assert LinkedAt(headers, genesis, headers[h].parentHash);
        h, n, a := headers[h].parentHash, n - 1, a - 1;
      }
      r, rn := h, n;
    }
  }
}
