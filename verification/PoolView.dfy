/**
 The transaction pool as a value: per account, the executable transactions, the queued ones and the next
 virtual nonce. What every pool operation keeps is stated here, account by account.
 */
module PoolViews {
  import opened Basics
  import opened TxSortedMaps
  import opened TxLists
  import opened PricedLists

  /** The chain head's view of the accounts. */
  datatype Head = Head(
    nonces: map<Address, nat>,
    balances: map<Address, nat>,
    smiloPay: map<Address, nat>,
    maxGas: nat)

  type Accounts = map<Address, Items>

  datatype Pool = Pool(pending: Accounts, queue: Accounts, nonces: map<Address, nat>)

  /** One account's share of the pool. */
  datatype Account = Account(pending: Items, queued: Items, next: nat)

  function StateNonce(head: Head, a: Address): nat {
    if a in head.nonces then head.nonces[a] else 0
  }

  function Balance(head: Head, a: Address): nat {
    if a in head.balances then head.balances[a] else 0
  }

  function SmiloPay(head: Head, a: Address): nat {
    if a in head.smiloPay then head.smiloPay[a] else 0
  }

  /** The virtual nonce, falling back to the head's. */
  function VirtualNonce(head: Head, nonces: map<Address, nat>, a: Address): nat {
    if a in nonces then nonces[a] else StateNonce(head, a)
  }

  /** A missing list is an empty one. */
  function ListOf(lists: Accounts, a: Address): Items {
    if a in lists then lists[a] else map[]
  }

  /** Stores a list, dropping the account when the list is empty. */
  function WithList(lists: Accounts, a: Address, items: Items): Accounts {
    if items == map[] then lists - {a} else lists[a := items]
  }

  ghost function AccountOf(head: Head, pool: Pool, a: Address): Account {
    Account(ListOf(pool.pending, a), ListOf(pool.queue, a), VirtualNonce(head, pool.nonces, a))
  }

  /** `pool'` is `pool` with account `a` changed to `acct`. */
  ghost predicate Updated(head: Head, pool: Pool, a: Address, acct: Account, pool': Pool) {
    && pool'.pending == WithList(pool.pending, a, acct.pending)
    && pool'.queue == WithList(pool.queue, a, acct.queued)
    && (forall b ::
          VirtualNonce(head, pool'.nonces, b) == if b == a then acct.next else VirtualNonce(head, pool.nonces, b))
  }

  ghost predicate Owned(items: Items, a: Address) {
    forall n {:trigger items[n]} | n in items :: items[n].nonce == n && items[n].sender == a
  }

  /**
   The executable nonces are exactly those from the head's nonce up to the virtual nonce, and everything
   queued lies at or above the virtual nonce.
   */
  ghost predicate AccountOk(head: Head, a: Address, acct: Account) {
    && Owned(acct.pending, a) && Owned(acct.queued, a)
    && StateNonce(head, a) <= acct.next
    && (forall n: nat {:trigger SlotOk(head, a, acct, n)} :: SlotOk(head, a, acct, n))
  }

  ghost predicate SlotOk(head: Head, a: Address, acct: Account, n: nat) {
    && (n in acct.pending <==> StateNonce(head, a) <= n < acct.next)
    && (n in acct.queued ==> n >= acct.next)
  }

  /** No account keeps an empty list. */
  ghost predicate NoEmptyList(lists: Accounts) {
    forall a {:trigger lists[a]} | a in lists :: lists[a] != map[]
  }

  ghost predicate PoolOk(head: Head, pool: Pool) {
    && NoEmptyList(pool.pending) && NoEmptyList(pool.queue)
    && (forall a {:trigger AccountOf(head, pool, a)} :: AccountOk(head, a, AccountOf(head, pool, a)))
  }

  ghost predicate Contains(acct: Account, t: Tx) {
    Holds(acct.pending, t) || Holds(acct.queued, t)
  }

  ghost predicate Pooled(head: Head, pool: Pool, t: Tx) {
    Contains(AccountOf(head, pool, t.sender), t)
  }

  /** The lookup holds exactly what the accounts hold. */
  ghost predicate LookupExact(head: Head, pool: Pool, all: Lookup) {
    LookupOk(all) && forall t :: Live(all, t) <==> Pooled(head, pool, t)
  }

  /** Executable and queued transactions never share a nonce, so a nonce finds the right one. */
  lemma Disjoint(head: Head, a: Address, acct: Account, n: nat)
    requires AccountOk(head, a, acct)
    ensures !(n in acct.pending && n in acct.queued)
  {
    assert SlotOk(head, a, acct, n);
  }

  lemma UpdatedAccount(head: Head, pool: Pool, a: Address, acct: Account, pool': Pool, b: Address)
    requires Updated(head, pool, a, acct, pool')
    ensures AccountOf(head, pool', b) == if b == a then acct else AccountOf(head, pool, b)
  {
  }

  /** Changing one account to another good one keeps the pool good. */
  lemma UpdatedOk(head: Head, pool: Pool, a: Address, acct: Account, pool': Pool)
    requires PoolOk(head, pool) && Updated(head, pool, a, acct, pool') && AccountOk(head, a, acct)
    ensures PoolOk(head, pool')
  {
    forall b ensures AccountOk(head, b, AccountOf(head, pool', b)) {
      UpdatedAccount(head, pool, a, acct, pool', b);
    }
  }

  /** The lookup follows when it gained and lost what the account gained and lost. */
  lemma UpdatedExact(head: Head, pool: Pool, all: Lookup, a: Address, acct: Account, pool': Pool, all': Lookup)
    requires LookupExact(head, pool, all) && LookupOk(all') && Updated(head, pool, a, acct, pool')
    requires forall t: Tx | t.sender != a :: Live(all', t) <==> Live(all, t)
    requires forall t: Tx | t.sender == a :: Live(all', t) <==> Contains(acct, t)
    ensures LookupExact(head, pool', all')
  {
    forall t ensures Live(all', t) <==> Pooled(head, pool', t) {
      UpdatedAccount(head, pool, a, acct, pool', t.sender);
      assert Live(all, t) <==> Pooled(head, pool, t);
    }
  }

  // One account's operations.

  /** Losing a transaction: behind an executable one everything executable goes back to the queue. */
  ghost function AcctRemove(acct: Account, n: nat): Account {
    if n in acct.pending then
      Account(acct.pending - {n} - Above(acct.pending - {n}, n),
              acct.queued + Only(acct.pending, Above(acct.pending - {n}, n)),
              if n < acct.next then n else acct.next)
    else acct.(queued := acct.queued - {n})
  }

  lemma AcctRemoveKeys(head: Head, a: Address, acct: Account, n: nat)
    requires AccountOk(head, a, acct) && n in acct.pending
    ensures var above := Above(acct.pending - {n}, n);
            && (forall k :: k in above <==> k in acct.pending && k > n)
            && (forall k :: k in AcctRemove(acct, n).pending <==> k in acct.pending && k < n)
            && (forall k :: k in AcctRemove(acct, n).queued <==> k in acct.queued || k in above)
  {
  }

  lemma AcctRemoveOk(head: Head, a: Address, acct: Account, n: nat)
    requires AccountOk(head, a, acct)
    ensures AccountOk(head, a, AcctRemove(acct, n))
  {
    var acct' := AcctRemove(acct, n);
    if n in acct.pending {
      AcctRemoveKeys(head, a, acct, n);
    }
    assert SlotOk(head, a, acct, n);
    forall k: nat ensures SlotOk(head, a, acct', k) {
      assert SlotOk(head, a, acct, k);
    }
  }

  /** Exactly the transaction at that nonce is lost. */
  lemma AcctRemoveLoses(head: Head, a: Address, acct: Account, n: nat)
    requires AccountOk(head, a, acct)
    ensures forall t: Tx | t.sender == a :: Contains(AcctRemove(acct, n), t) <==> Contains(acct, t) && t.nonce != n
  {
    if n in acct.pending {
      AcctRemoveKeys(head, a, acct, n);
    }
    forall t: Tx | t.sender == a ensures Contains(AcctRemove(acct, n), t) <==> Contains(acct, t) && t.nonce != n {
      Disjoint(head, a, acct, n);
      Disjoint(head, a, acct, t.nonce);
    }
  }

  /** Gaining a transaction: it replaces an executable one with its nonce, or is queued. */
  ghost function AcctPut(acct: Account, tx: Tx): Account {
    if tx.nonce in acct.pending then acct.(pending := acct.pending[tx.nonce := tx])
    else acct.(queued := acct.queued[tx.nonce := tx])
  }

  lemma AcctPutOk(head: Head, a: Address, acct: Account, tx: Tx)
    requires AccountOk(head, a, acct) && tx.sender == a && StateNonce(head, a) <= tx.nonce
    ensures AccountOk(head, a, AcctPut(acct, tx))
    ensures forall t: Tx | t.sender == a ::
              Contains(AcctPut(acct, tx), t) <==> t == tx || (Contains(acct, t) && t.nonce != tx.nonce)
  {
    var acct' := AcctPut(acct, tx);
    forall k: nat ensures SlotOk(head, a, acct', k) {
      assert SlotOk(head, a, acct, k);
    }
    Disjoint(head, a, acct, tx.nonce);
  }
}
