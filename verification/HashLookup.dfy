/**
 The BLOCKHASH source handed to the virtual machine: a lookup of ancestor hashes by number that remembers
 every hash it has walked past.
 */
module HashLookups {
  import opened Basics
  import opened BlockTree

  /** No header sits at the top of the number range, so the walk below the genesis finds nothing. */
  ghost predicate Bounded(store: Store) {
    forall h | h in store :: store[h].number < MAX_U64
  }

  /** The uncached answer: walk the parents until the one whose number is `n`. */
  ghost function Walk(store: Store, from: Header, n: U64): Hash
    requires Bounded(store)
    decreases from.number
  {
    if n == Pred64(from.number) then from.parentHash
    else
      match GetHeader(store, from.parentHash, Pred64(from.number))
      case None => ZERO_HASH
      case Some(parent) => Walk(store, parent, n)
  }

  /** From `later` on the walk answers for every number still below it, and for the wrapped number. */
  ghost predicate SameBelow(store: Store, ref: Header, later: Header)
    requires Bounded(store)
  {
    forall m: U64 {:trigger Walk(store, ref, m)} | m < later.number || m == MAX_U64 ::
      Walk(store, ref, m) == Walk(store, later, m)
  }

  lemma SameBelowStep(store: Store, ref: Header, later: Header, parent: Header)
    requires Bounded(store) && SameBelow(store, ref, later)
    requires GetHeader(store, later.parentHash, Pred64(later.number)) == Some(parent)
    ensures SameBelow(store, ref, parent) && parent.number < later.number
  {
  }

  /**
   On a linked store the walk is the ancestor chain: every lower number gives the ancestor there, the
   number just below zero gives the genesis header's own parent field, and any other number gives nothing.
   */
  lemma {:induction false} WalkIsAncestor(store: Store, genesis: Hash, h: Hash, n: U64)
    requires Linked(store, genesis) && Bounded(store) && h in store
    ensures Walk(store, store[h], n) ==
            if n < store[h].number then AncestorAt(store, genesis, h, n)
            else if n == MAX_U64 then store[genesis].parentHash
            else ZERO_HASH
    decreases store[h].number
  {
    assert LinkedAt(store, genesis, h);
    if store[h].number > 0 {
      var p := store[h].parentHash;
      WalkIsAncestor(store, genesis, p, n);
      if n < store[h].number {
        AncestorOfParent(store, genesis, h, n);
      }
      assert LinkedAt(store, genesis, p);
    }
  }

  class HashLookup {
    const store: Store
    const ref: Header
    var cache: Option<map<U64, Hash>>

    /** Whatever is remembered is what a fresh walk would find. */
    ghost predicate Valid()
      reads this
    {
      && Bounded(store)
      && (cache.Some? ==> Pred64(ref.number) in cache.value)
      && (cache.Some? ==> forall n | n in cache.value :: cache.value[n] == Walk(store, ref, n))
    }

    constructor (ref: Header, store: Store)
      requires Bounded(store)
      ensures Valid() && this.ref == ref && this.store == store
    {
      this.ref := ref;
      this.store := store;
      cache := None;
    }

    method Get(n: U64) returns (hash: Hash)
      requires Valid()
      modifies this
      ensures Valid() && hash == Walk(store, ref, n)
    {
      if cache.None? {
        cache := Some(map[Pred64(ref.number) := ref.parentHash]);
      }
      var known := cache.value;
      if n in known {
        return known[n];
      }
      var later := ref;
      var header := GetHeader(store, ref.parentHash, Pred64(ref.number));
      while header.Some?
        invariant header == GetHeader(store, later.parentHash, Pred64(later.number))
        invariant SameBelow(store, ref, later)
        invariant cache == Some(known) && Pred64(ref.number) in known
        invariant forall m | m in known :: known[m] == Walk(store, ref, m)
        invariant Walk(store, ref, n) == if header.Some? then Walk(store, header.value, n) else ZERO_HASH
        decreases later.number
      {
        SameBelowStep(store, ref, later, header.value);
        later := header.value;
        known := known[Pred64(later.number) := later.parentHash];
        cache := Some(known);
        if n == Pred64(later.number) {
          return later.parentHash;
        }
        header := GetHeader(store, later.parentHash, Pred64(later.number));
      }
      hash := ZERO_HASH;
    }

    /** Any sequence of queries, in any order, gets the uncached answers. */
    method GetAll(ns: seq<U64>) returns (hashes: seq<Hash>)
      requires Valid()
      modifies this
      ensures Valid() && |hashes| == |ns|
      ensures forall i | 0 <= i < |ns| :: hashes[i] == Walk(store, ref, ns[i])
    {
      hashes := [];
      for i := 0 to |ns|
        invariant Valid() && |hashes| == i
        invariant forall j | 0 <= j < i :: hashes[j] == Walk(store, ref, ns[j])
      {
        var hash := Get(ns[i]);
        hashes := hashes + [hash];
      }
    }
  }
}
