/**
 What making room does to the accounts. A removed executable transaction sends those behind it back to the queue, so
 of an account's executable transactions exactly those below all its evicted nonces stay executable.
 */
module PoolEvictions {
  import opened Basics
  import opened TxSortedMaps
  import opened TxLists
  import opened PricedLists
  import opened PoolViews
  import opened PoolSizes

  /** Every known transaction of an account that is dropped has a nonce above `n`. */
  ghost predicate Spared(all: Lookup, drop: seq<Tx>, a: Address, n: nat) {
    forall t | t in drop && Live(all, t) && t.sender == a :: t.nonce > n
  }

  ghost predicate SparedAt(was: Accounts, all: Lookup, drop: seq<Tx>, now: Accounts, a: Address, n: nat) {
    n in ListOf(now, a) <==> n in ListOf(was, a) && Spared(all, drop, a, n)
  }

  /** Exactly the spared nonces are still executable. */
  ghost predicate Spares(was: Accounts, all: Lookup, drop: seq<Tx>, now: Accounts) {
    forall a, n: nat {:trigger SparedAt(was, all, drop, now, a, n)} :: SparedAt(was, all, drop, now, a, n)
  }

  lemma SparesAll(was: Accounts, all: Lookup)
    ensures Spares(was, all, [], was)
  {
  }

  lemma SparedStep(all: Lookup, drop: seq<Tx>, tx: Tx, a: Address, n: nat)
    ensures Spared(all, drop + [tx], a, n) <==>
            Spared(all, drop, a, n) && (Live(all, tx) && tx.sender == a ==> tx.nonce > n)
  {
    assert tx in drop + [tx];
    forall t | t in drop ensures t in drop + [tx] {
    }
  }

  /** Removing a transaction keeps exactly the executable nonces below it, of its sender's. */
  lemma RemovedKeeps(head: Head, pool: Pool, all: Lookup, tx: Tx, pool': Pool, a: Address, n: nat)
    requires PoolOk(head, pool) && LookupExact(head, pool, all) && Live(all, tx)
    requires Updated(head, pool, tx.sender, AcctRemove(AccountOf(head, pool, tx.sender), tx.nonce), pool')
    ensures n in ListOf(pool'.pending, a) <==> n in ListOf(pool.pending, a) && (tx.sender == a ==> tx.nonce > n)
  {
    var acct := AccountOf(head, pool, tx.sender);
    UpdatedAccount(head, pool, tx.sender, AcctRemove(acct, tx.nonce), pool', a);
    if tx.sender == a {
      assert AccountOk(head, a, acct) && Pooled(head, pool, tx);
      if tx.nonce in acct.pending {
        AcctRemoveKeys(head, a, acct, tx.nonce);
      } else {
        assert SlotOk(head, a, acct, tx.nonce) && SlotOk(head, a, acct, n);
      }
    }
  }

  lemma WithoutStep(all: Lookup, drop: seq<Tx>, now: Lookup, tx: Tx)
    requires Without(all, drop, now)
    ensures Without(all, drop + [tx], now - {HashOf(tx)})
  {
  }

  /** One more of many. */
  lemma SparesStep(head: Head, was: Accounts, all: Lookup, drop: seq<Tx>, pool: Pool, now: Lookup, tx: Tx, pool': Pool)
    requires PoolOk(head, pool) && LookupExact(head, pool, now) && Without(all, drop, now)
    requires Spares(was, all, drop, pool.pending)
    requires if Live(now, tx)
             then Updated(head, pool, tx.sender, AcctRemove(AccountOf(head, pool, tx.sender), tx.nonce), pool')
             else pool' == pool
    ensures Spares(was, all, drop + [tx], pool'.pending)
  {
    forall a, n: nat ensures SparedAt(was, all, drop + [tx], pool'.pending, a, n) {
      assert SparedAt(was, all, drop, pool.pending, a, n);
      SparedStep(all, drop, tx, a, n);
      if Live(now, tx) {
        RemovedKeeps(head, pool, now, tx, pool', a, n);
      }
    }
  }

  /** A transaction that was executable and still is. */
  ghost predicate StaysExecutable(was: Pool, all: Lookup, drop: seq<Tx>, t: Tx) {
    Holds(ListOf(was.pending, t.sender), t) && Spared(all, drop, t.sender, t.nonce)
  }

  ghost predicate EvictedAt(was: Pool, all: Lookup, drop: seq<Tx>, now: Pool, t: Tx) {
    && (Holds(ListOf(now.pending, t.sender), t) <==> StaysExecutable(was, all, drop, t))
    && (Holds(ListOf(now.queue, t.sender), t) <==>
        Live(all, t) && t !in drop && !StaysExecutable(was, all, drop, t))
  }

  /**
   The pool once transactions have been evicted: what is spared stays executable, and all else that was not dropped
   is queued.
   */
  ghost predicate EvictedTo(head: Head, was: Pool, all: Lookup, drop: seq<Tx>, now: Pool) {
    && PoolOk(head, now) && (drop == [] ==> now == was)
    && forall t {:trigger EvictedAt(was, all, drop, now, t)} :: EvictedAt(was, all, drop, now, t)
  }

  lemma SparedIsEvicted(head: Head, was: Pool, all: Lookup, drop: seq<Tx>, now: Pool, all': Lookup)
    requires PoolOk(head, was) && LookupExact(head, was, all) && PoolOk(head, now) && LookupExact(head, now, all')
    requires Without(all, drop, all') && Spares(was.pending, all, drop, now.pending) && (drop == [] ==> now == was)
    ensures EvictedTo(head, was, all, drop, now)
  {
    forall t ensures EvictedAt(was, all, drop, now, t) {
      EvictedOne(head, was, all, drop, now, all', t);
    }
  }

  lemma EvictedOne(head: Head, was: Pool, all: Lookup, drop: seq<Tx>, now: Pool, all': Lookup, t: Tx)
    requires PoolOk(head, was) && LookupExact(head, was, all) && PoolOk(head, now) && LookupExact(head, now, all')
    requires Without(all, drop, all') && Spares(was.pending, all, drop, now.pending)
    ensures EvictedAt(was, all, drop, now, t)
  {
    var before, after := AccountOf(head, was, t.sender), AccountOf(head, now, t.sender);
    assert AccountOk(head, t.sender, before) && AccountOk(head, t.sender, after);
    Disjoint(head, t.sender, before, t.nonce);
    Disjoint(head, t.sender, after, t.nonce);
    assert SparedAt(was.pending, all, drop, now.pending, t.sender, t.nonce);
    assert Live(all, t) <==> Pooled(head, was, t);
    assert Live(all', t) <==> Pooled(head, now, t);
  }

  /** A slot is executable afterwards exactly when it was and is spared. */
  lemma EvictedSlot(head: Head, was: Pool, all: Lookup, drop: seq<Tx>, now: Pool, a: Address, n: nat)
    requires PoolOk(head, was) && EvictedTo(head, was, all, drop, now)
    ensures SparedAt(was.pending, all, drop, now.pending, a, n)
  {
    var before, after := AccountOf(head, was, a), AccountOf(head, now, a);
    assert AccountOk(head, a, before) && AccountOk(head, a, after);
    if n in after.pending {
      assert EvictedAt(was, all, drop, now, after.pending[n]);
    }
    if n in before.pending && Spared(all, drop, a, n) {
      assert EvictedAt(was, all, drop, now, before.pending[n]);
    }
  }
}
