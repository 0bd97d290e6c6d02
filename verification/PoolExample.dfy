/**
 When a sender becomes local. A local transaction that is queued marks its sender; one that replaces an executable
 transaction does not.
 */
module PoolExamples {
  import opened Basics
  import opened TxSortedMaps
  import opened TxLists
  import opened PricedLists
  import opened PoolViews
  import opened PoolPromotions
  import opened PoolSizes
  import opened TxPools
  import StateTransitions

  /** Adding to a pool with room, when a caller can tell that the sender becomes local. */
  method AddWithRoom(pool: TxPool, tx: Tx, local: bool) returns (err: Option<PoolError>)
    requires pool.Valid() && !Live(pool.all.all, tx) && pool.Admissible(tx, local)
    requires |pool.all.all| < pool.cfg.globalSlots + pool.cfg.globalQueue
    modifies pool`pending, pool`queue, pool`nonces, pool`beats, pool`locals, pool.all, pool.priced
    ensures pool.Valid() && |pool.all.all| <= |old(pool.all.all)| + 1
    ensures err.None? <==> AcceptedBy(AccountOf(pool.head, old(pool.View()), tx.sender), tx, pool.cfg.priceBump)
    ensures err.None? ==>
              AccountOf(pool.head, pool.View(), tx.sender) ==
              AcctPut(AccountOf(pool.head, old(pool.View()), tx.sender), tx)
    ensures pool.locals == if err.None? && local && tx.nonce !in ListOf(old(pool.pending), tx.sender)
                           then old(pool.locals) + {tx.sender} else old(pool.locals)
  {
    ghost var was, known, locals := pool.View(), pool.all.all, pool.locals;
    ghost var dropped, mid;
    var replaced;
    replaced, err, dropped, mid := pool.Add(tx, local);
    FiledWithRoom(pool.head, pool.cfg, locals, was, known, tx, local, err, dropped, mid, pool.View(), pool.all.all);
    if err.None? {
      GainedCount(known, [], tx, pool.all.all);
      ghost var put := AcctPut(AccountOf(pool.head, was, tx.sender), tx);
      UpdatedAccount(pool.head, was, tx.sender, put, pool.View(), tx.sender);
    } else {
      assert Without(known, [], pool.all.all);
      FewerCount(known, pool.all.all);
    }
  }

  function ExampleConfig(): PoolConfig {
    PoolConfig(10, 4, 4, 4, 4, true, true, 0, 0)
  }

  function ExampleHead(): Head {
    Head(map[], map[7 := 1_000_000], map[7 := 1_000_000], 30_000)
  }

  function ExampleTx(price: nat): Tx {
    Tx(7, 0, price, 21_000, price * 21_000, false, Body(100, [], false, true, 0))
  }

  ghost predicate IsExample(pool: TxPool)
    reads pool
  {
    pool.cfg == ExampleConfig() && pool.head == ExampleHead() && pool.gasPrice == 1 && pool.locals == {}
  }

  lemma ExampleAdmissible(pool: TxPool, price: nat, local: bool)
    requires IsExample(pool) && 10 <= price <= 20
    ensures pool.Admissible(ExampleTx(price), local)
  {
    assert StateTransitions.IntrinsicCost([], false, true) == 21_000;
  }

  /** The only queued transaction, if it is next and can be paid for, becomes executable. */
  lemma OnlyOnePromoted(head: Head, a: Address, tx: Tx, limit: Option<nat>, acct': Account)
    requires !TooCostly(tx, Balance(head, a), head.maxGas)
    requires Promotes(head, a, Account(map[], map[tx.nonce := tx], tx.nonce), limit, acct')
    ensures acct' == Account(map[tx.nonce := tx], map[], tx.nonce + 1)
  {
    var acct := Account(map[], map[tx.nonce := tx], tx.nonce);
    var payable :| IsPayable(acct.queued, Balance(head, a), head.maxGas, payable)
                   && PromotesFrom(payable, acct, limit, acct');
    AllPayable(acct.queued, Balance(head, a), head.maxGas, payable);
    OnlyOneRuns(tx, limit, acct');
  }

  lemma OnlyOneRuns(tx: Tx, limit: Option<nat>, acct': Account)
    requires PromotesFrom(map[tx.nonce := tx], Account(map[], map[tx.nonce := tx], tx.nonce), limit, acct')
    ensures acct' == Account(map[tx.nonce := tx], map[], tx.nonce + 1)
  {
    var none: Items, one: Items := map[], map[tx.nonce := tx];
    assert acct'.next == tx.nonce + 1;
    assert Extended(none, one, tx.nonce, tx.nonce) == none;
    assert acct'.pending == none[tx.nonce := tx];
    assert acct'.queued == none;
  }

  method ExampleQueued() returns (pool: TxPool)
    ensures fresh(pool) && fresh(pool.all) && fresh(pool.priced)
    ensures pool.Valid() && IsExample(pool) && |pool.all.all| <= 1
    ensures AccountOf(pool.head, pool.View(), 7) == Account(map[], map[0 := ExampleTx(10)], 0)
  {
    pool := new TxPool(ExampleConfig(), ExampleHead(), 1, {});
    ExampleAdmissible(pool, 10, false);
    assert AccountOf(pool.head, pool.View(), 7) == Account(map[], map[], 0);
    var err := AddWithRoom(pool, ExampleTx(10), false);
  }

  method ExamplePending() returns (pool: TxPool)
    ensures fresh(pool) && fresh(pool.all) && fresh(pool.priced)
    ensures pool.Valid() && IsExample(pool) && |pool.all.all| <= 1
    ensures AccountOf(pool.head, pool.View(), 7) == Account(map[0 := ExampleTx(10)], map[], 1)
  {
    pool := ExampleQueued();
    ghost var was, known := pool.View(), pool.all.all;
    var promoted := pool.PromoteExecutables([7], 0);
    FewerCount(known, pool.all.all);
    assert PromotedAt(pool.head, pool.cfg, {}, was, [7], pool.View(), 7);
    OnlyOnePromoted(pool.head, 7, ExampleTx(10), Some(4), AccountOf(pool.head, pool.View(), 7));
  }

  /**
   A transaction from the network becomes executable, and a dearer local one replaces it: its sender is still
   not local.
   */
  method LocalReplacementExample() returns (pool: TxPool)
    ensures pool.Valid() && pool.locals == {} && ListOf(pool.pending, 7) == map[0 := ExampleTx(20)]
  {
    pool := ExamplePending();
    ExampleAdmissible(pool, 20, true);
    assert !Pooled(pool.head, pool.View(), ExampleTx(20));
    var err := AddWithRoom(pool, ExampleTx(20), true);
  }
}
