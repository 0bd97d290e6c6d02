/**
 How many transactions the pool holds. A full pool makes room before it takes another, and only local
 transactions, which are never dropped for room, can fill it beyond its limit.
 */
module PoolSizes {
  import opened Basics
  import opened TxSortedMaps
  import opened PricedLists

  ghost predicate Without(all: Lookup, drop: seq<Tx>, all': Lookup) {
    forall t :: Live(all', t) <==> Live(all, t) && t !in drop
  }

  /** Besides the newcomer, what was there less what was dropped and what shared the newcomer's slot. */
  ghost predicate Gained(all: Lookup, drop: seq<Tx>, tx: Tx, all': Lookup) {
    forall t :: Live(all', t) <==>
      t == tx || (Live(all, t) && t !in drop && !(t.sender == tx.sender && t.nonce == tx.nonce))
  }

  lemma GainedAfter(all: Lookup, drop: seq<Tx>, between: Lookup, tx: Tx, all': Lookup)
    requires Without(all, drop, between) && Gained(between, [], tx, all')
    ensures Gained(all, drop, tx, all')
  {
  }

  /** Nothing is known that was not known before. */
  ghost predicate Fewer(all: Lookup, all': Lookup) {
    forall t | Live(all', t) :: Live(all, t)
  }

  ghost predicate AtMostOneRemote(all: Lookup, locals: set<Address>) {
    forall t, u | Live(all, t) && IsRemote(t, locals) && Live(all, u) && IsRemote(u, locals) :: t == u
  }

  /** The pool is within its limit, or at most the newest transaction is remote. */
  ghost predicate Fits(all: Lookup, locals: set<Address>, limit: nat) {
    |all| <= limit || AtMostOneRemote(all, locals)
  }

  lemma FewerCount(all: Lookup, all': Lookup)
    requires Fewer(all, all')
    ensures |all'| <= |all|
  {
    forall h | h in all' ensures h in all {
      assert Live(all', h.content) && Live(all, h.content);
    }
    SubsetCount(all'.Keys, all.Keys);
  }

  /** Losing transactions and gaining locals keeps the bound. */
  lemma FewerFits(all: Lookup, locals: set<Address>, all': Lookup, locals': set<Address>, limit: nat)
    requires Fits(all, locals, limit) && Fewer(all, all') && locals <= locals'
    ensures Fits(all', locals', limit)
  {
    FewerCount(all, all');
  }

  /** One transaction more, if another went, is no more. */
  lemma GainedCount(all: Lookup, drop: seq<Tx>, tx: Tx, all': Lookup)
    requires Gained(all, drop, tx, all') && forall t | t in drop :: Live(all, t)
    ensures |all'| <= |all| + if drop == [] then 1 else 0
  {
    var gone: set<TxHash> := if drop == [] then {} else {HashOf(drop[0])};
    assert drop != [] ==> drop[0] in drop;
    forall h | h in all' ensures h in all.Keys - gone + {HashOf(tx)} {
      assert Live(all', h.content);
    }
    SubsetCount(all'.Keys, all.Keys - gone + {HashOf(tx)});
  }

  /** Room was made for one of the transactions over the limit, or every remote one went. */
  lemma RoomOrNoRemote(all: Lookup, locals: set<Address>, drop: seq<Tx>, limit: nat)
    requires limit > 0 && |all| >= limit && Fits(all, locals, limit)
    requires Cheapest(all, locals, drop) && MadeRoom(all, locals, drop, |all| - (limit - 1))
    ensures (|all| == limit && drop != []) || forall t | Live(all, t) && IsRemote(t, locals) :: t in drop
  {
    if drop != [] {
      assert drop[0] in drop;
    }
  }

  /** Taking a transaction in, after room was made when the pool was full, keeps the bound. */
  lemma GainedFits(all: Lookup, locals: set<Address>, drop: seq<Tx>, tx: Tx, all': Lookup, limit: nat)
    requires limit > 0 && Fits(all, locals, limit) && Gained(all, drop, tx, all')
    requires if |all| < limit then drop == []
             else Cheapest(all, locals, drop) && MadeRoom(all, locals, drop, |all| - (limit - 1))
    ensures Fits(all', locals, limit)
  {
    GainedCount(all, drop, tx, all');
    if |all| >= limit {
      RoomOrNoRemote(all, locals, drop, limit);
    }
  }

  /** Without local senders the limit is never exceeded. */
  lemma NoLocalsFit(all: Lookup, limit: nat)
    requires limit > 0 && Fits(all, {}, limit)
    ensures |all| <= limit
  {
    if AtMostOneRemote(all, {}) && all.Keys != {} {
      var h :| h in all.Keys;
      forall g | g in all.Keys ensures g in {h} {
        assert Live(all, g.content) && Live(all, h.content);
      }
      SubsetCount(all.Keys, {h});
    }
  }
}
