/**
 The cache in front of the stored total difficulties. It is keyed by hash alone, so once a hash is cached it is
 answered under every number, where the database answers only under its own.
 */
module TdCaches {
  import opened Basics
  import opened BlockTree
  import opened HeaderChains

  class TdCache {
    const chain: HeaderChain
    var cached: map<Hash, nat>

    /** Whatever is cached is the work along the ancestors of a stored header. */
    ghost predicate Valid()
      reads this, chain
    {
      && chain.Valid()
      && forall h | h in cached :: h in chain.headers && cached[h] == Work(chain.headers, chain.genesis, h)
    }

    constructor (chain: HeaderChain)
      requires chain.Valid()
      ensures Valid() && this.chain == chain && cached == map[]
    {
      this.chain, cached := chain, map[];
    }

    /** What the database holds under a hash and a number. */
    ghost function Stored(hash: Hash, number: U64): Option<nat>
      requires chain.Valid()
      reads chain
    {
      if GetHeader(chain.headers, hash, number).Some? then Some(Work(chain.headers, chain.genesis, hash)) else None
    }

    /**
     Answers from the cache, or from the database and then caches it. An answer is always the work of that header,
     and it is the database's if and only if the hash was not cached under another number.
     */
    method GetTd(hash: Hash, number: U64) returns (r: Option<nat>)
      requires Valid()
      modifies this`cached
      ensures Valid()
      ensures r.Some? <==> hash in old(cached) || Stored(hash, number).Some?
      ensures r.Some? ==> hash in chain.headers && r.value == Work(chain.headers, chain.genesis, hash)
      ensures r == Stored(hash, number) <==> !(hash in old(cached) && chain.headers[hash].number != number)
      ensures cached.Keys == old(cached.Keys) + if r.Some? then {hash} else {}
    {
      if hash in cached {
        return Some(cached[hash]);
      }
      r := chain.ReadTd(hash, number);
      if r.Some? {
        cached := cached[hash := r.value];
      }
    }

    /** Writes a header; its total difficulty is cached with it. */
    method Write(header: Header, coin: bool) returns (status: WriteStatus)
      requires Valid() && Storable(chain.headers, header)
      modifies this`cached, chain
      ensures Valid() && chain.State() == AfterWrite(old(chain.State()), chain.genesis, header, coin)
      ensures cached.Keys == old(cached.Keys) + if status.NonStatTy? then {} else {header.hash}
    {
      ghost var s := chain.State();
      status := chain.WriteHeader(header, coin);
      if status != NonStatTy {
        KeepsWork(s, chain.genesis, header);
        cached := cached[header.hash := chain.td[header.hash]];
      }
    }

    /** The cache drops what it likes. */
    method Forget(gone: set<Hash>)
      requires Valid()
      modifies this`cached
      ensures Valid() && cached == old(cached) - gone
    {
      cached := cached - gone;
    }
  }

  lemma KeepsWork(s: ChainState, genesis: Hash, header: Header)
    requires Inv(s, genesis) && Storable(s.headers, header) && ParentKnown(s.headers, s.td, header)
    ensures Linked(s.headers[header.hash := header], genesis)
    ensures forall h | h in s.headers ::
              Work(s.headers[header.hash := header], genesis, h) == Work(s.headers, genesis, h)
  {
    KnownParentAttaches(s.headers, s.td, genesis, header);
    forall h | h in s.headers
      ensures Work(s.headers[header.hash := header], genesis, h) == Work(s.headers, genesis, h)
    {
      AttachKeepsWork(s.headers, genesis, header, h);
    }
  }

  // A hit under another number.

  /** With the genesis cached, it is answered under number 7, where the database has nothing. */
  method CachedElsewhereExample() returns (r: Option<nat>, tds: TdCache)
    ensures r == Some(5) && tds.Valid() && tds.Stored(1, 7) == None
  {
    var genesis := Header(1, 0, 0, 5, []);
    var chain := new HeaderChain(genesis);
    tds := new TdCache(chain);
    r := tds.GetTd(1, 0);
    r := tds.GetTd(1, 7);
  }
}
