/**
 Trimming the queues: whole accounts lose what they have queued, the most recently active first, and the last
 one only its highest nonces.
 */
module PoolQueues {
  import opened Basics
  import opened TxSortedMaps
  import opened PricedLists
  import opened PoolViews
  import opened PoolPromotions
  import opened PoolLevels

  /** The time of the last promotion; an account that never had one counts as oldest. */
  function Beat(beats: map<Address, nat>, a: Address): nat {
    if a in beats then beats[a] else 0
  }

  /** Fewer queued transactions. */
  ghost function Lacking(acct: Account, gone: set<nat>): Account {
    Account(acct.pending, acct.queued - gone, acct.next)
  }

  lemma UpdatedTwice(head: Head, pool: Pool, a: Address, x: Account, between: Pool, y: Account, pool': Pool)
    requires Updated(head, pool, a, x, between) && Updated(head, between, a, y, pool')
    ensures Updated(head, pool, a, y, pool')
  {
    TwiceSet(pool.pending, a, x.pending, y.pending);
    TwiceSet(pool.queue, a, x.queued, y.queued);
  }

  lemma TwiceSet(lists: Accounts, a: Address, x: Items, y: Items)
    ensures WithList(WithList(lists, a, x), a, y) == WithList(lists, a, y)
  {
  }

  lemma UpdatedNothing(head: Head, pool: Pool, a: Address)
    requires PoolOk(head, pool)
    ensures Updated(head, pool, a, Lacking(AccountOf(head, pool, a), {}), pool)
  {
    var queued := ListOf(pool.queue, a);
    assert queued - {} == queued;
    assert WithList(pool.pending, a, ListOf(pool.pending, a)) == pool.pending;
    assert WithList(pool.queue, a, queued) == pool.queue;
  }

  /** Taking one more queued transaction out. */
  lemma LessOne(head: Head, was: Pool, a: Address, acct: Account, gone: set<nat>, now: Pool, n: nat, now': Pool)
    requires AccountOk(head, a, acct) && n in acct.queued
    requires Updated(head, was, a, Lacking(acct, gone), now)
    requires Updated(head, now, a, AcctRemove(AccountOf(head, now, a), n), now')
    ensures Updated(head, was, a, Lacking(acct, gone + {n}), now')
  {
    UpdatedAccount(head, was, a, Lacking(acct, gone), now, a);
    Disjoint(head, a, acct, n);
    assert acct.queued - gone - {n} == acct.queued - (gone + {n});
    UpdatedTwice(head, was, a, Lacking(acct, gone), now, Lacking(acct, gone + {n}), now');
  }

  lemma SizeWithList(lists: Accounts, a: Address, items: Items)
    requires a in lists
    ensures Size(WithList(lists, a, items)) == Size(lists) - |lists[a]| + |items|
  {
    if items == map[] {
      SumAt(lists, Uncut, lists.Keys, a);
      assert (lists - {a}).Keys == lists.Keys - {a};
      SumSame(lists, Uncut, lists - {a}, Uncut, lists.Keys - {a});
    } else {
      SumUpdate(lists, a, items);
    }
  }

  lemma ListingSize(items: Items, txs: seq<Tx>)
    requires Keyed(items) && Listing(items, txs)
    ensures forall n :: n in Nonces(txs) <==> n in items
    ensures Indexes(items, Nonces(txs)) && |txs| == |items|
  {
    forall n ensures n in Nonces(txs) <==> n in items {
      if n in items {
        assert Holds(items, items[n]) && items[n] in txs;
        var i :| 0 <= i < |txs| && txs[i] == items[n];
        assert Nonces(txs)[i] == n;
      }
      if n in Nonces(txs) {
        var i :| 0 <= i < |txs| && Nonces(txs)[i] == n;
        assert txs[i] in txs;
      }
    }
    AscendingIsIndex(items, Nonces(txs));
    IndexMembers(items, Nonces(txs));
  }

  /** What is left of a listing's tail is the lowest nonces. */
  lemma TailGone(items: Items, txs: seq<Tx>, k: nat)
    requires Keyed(items) && Listing(items, txs) && k < |txs|
    ensures IsLowest(items - SetOf(Nonces(txs)[k..]), items, k)
  {
    ListingSize(items, txs);
    CapDone(items, Nonces(txs), k, items - SetOf(Nonces(txs)[k..]));
  }

  /** A transaction of a listing is in the list, and its nonce appears nowhere else. */
  lemma ListedOnce(items: Items, a: Address, txs: seq<Tx>, i: nat)
    requires Owned(items, a) && Listing(items, txs) && i < |txs|
    ensures Holds(items, txs[i]) && txs[i].sender == a
    ensures SetOf(Nonces(txs)[..i + 1]) == SetOf(Nonces(txs)[..i]) + {txs[i].nonce}
    ensures txs[i].nonce !in SetOf(Nonces(txs)[..i])
    ensures SetOf(Nonces(txs)[i..]) == SetOf(Nonces(txs)[i + 1..]) + {txs[i].nonce}
    ensures txs[i].nonce !in SetOf(Nonces(txs)[i + 1..])
  {
    var ns := Nonces(txs);
    assert txs[i] in txs;
    assert ns[..i + 1] == ns[..i] + [ns[i]] && ns[i..] == [ns[i]] + ns[i + 1..];
  }

  lemma AllGone(items: Items, txs: seq<Tx>)
    requires Keyed(items) && Listing(items, txs)
    ensures items - SetOf(Nonces(txs)) == map[]
  {
    ListingSize(items, txs);
  }

  lemma {:induction false} LatestExists(beats: map<Address, nat>, s: set<Address>) returns (a: Address)
    requires s != {}
    ensures a in s && forall b | b in s :: Newer(beats, b, a)
  {
    a :| a in s;
    var rest := s - {a};
    assert forall b | b in s :: b == a || b in rest;
    if rest != {} {
      var c := LatestExists(beats, rest);
      if Newer(beats, a, c) {
        a := c;
      }
    }
  }

  /** Any of the most recently active. */
  method PopLatest(beats: map<Address, nat>, s: set<Address>) returns (a: Address)
    requires s != {}
    ensures a in s && forall b | b in s :: Newer(beats, b, a)
  {
    ghost var found := LatestExists(beats, s);
    a :| a in s && forall b | b in s :: Newer(beats, b, a);
  }

  // How far the draining has come.

  /** What is left of one account's queue. */
  ghost predicate DrainedAt(was: Accounts, locals: set<Address>, addresses: set<Address>, cut: Option<Address>,
      now: Accounts, a: Address) {
    if a in locals || a in addresses then ListOf(now, a) == ListOf(was, a)
    else if cut == Some(a) then LowCut(ListOf(was, a), ListOf(now, a))
    else ListOf(now, a) == map[]
  }

  /** The lowest nonces of a list. */
  ghost predicate LowCut(was: Items, now: Items) {
    exists k :: IsLowest(now, was, k)
  }

  /** `addresses` are still to come, `cut` lost only part; who is to come was active no later than who was drained. */
  ghost predicate Draining(was: Accounts, locals: set<Address>, beats: map<Address, nat>, addresses: set<Address>,
      cut: Option<Address>, drop: nat, limit: nat, now: Accounts) {
    && Size(now) == drop + limit && (cut.Some? ==> drop == 0)
    && addresses <= was.Keys - locals
    && (forall a {:trigger DrainedAt(was, locals, addresses, cut, now, a)} ::
          DrainedAt(was, locals, addresses, cut, now, a))
    && (forall a, b {:trigger Newer(beats, a, b)}
          | a in addresses && b in was && b !in locals && b !in addresses :: Newer(beats, a, b))
    && (cut.Some? ==> forall b {:trigger Newer(beats, cut.value, b)}
          | b in was && b !in locals && b !in addresses :: Newer(beats, cut.value, b))
  }

  /** `b` was active no earlier than `a`. */
  predicate Newer(beats: map<Address, nat>, a: Address, b: Address) {
    Beat(beats, a) <= Beat(beats, b)
  }

  /** If a remote account lost something, every remote one active after it lost everything. */
  ghost predicate NewestFirst(was: Accounts, locals: set<Address>, beats: map<Address, nat>, now: Accounts) {
    forall a, b {:trigger Newer(beats, b, a)} | a in was && a !in locals && b in was && b !in locals
      && ListOf(now, a) != ListOf(was, a) && !Newer(beats, b, a) :: b !in now
  }

  /**
   Locals keep everything and each account keeps its lowest nonces. Either exactly the limit is left, or more
   because only locals have anything queued. If an account lost something, every remote account active after it
   lost everything.
   */
  ghost predicate Drained(was: Accounts, locals: set<Address>, beats: map<Address, nat>, limit: nat, now: Accounts) {
    && (forall a | a in locals :: ListOf(now, a) == ListOf(was, a))
    && (forall a :: LowCut(ListOf(was, a), ListOf(now, a)))
    && (Size(now) == limit || (Size(now) > limit && forall a | a in now :: a in locals))
    && NewestFirst(was, locals, beats, now)
  }

  lemma LowCutAll(items: Items)
    ensures LowCut(items, items)
  {
    assert Only(items, items.Keys) == items;
    assert IsLowest(items, items, |items|);
  }

  lemma LowCutNone(items: Items)
    ensures LowCut(items, map[])
  {
    var none: Items := map[];
    assert none.Keys == {};
    assert Only(items, none.Keys) == none;
    assert IsLowest(none, items, 0);
  }

  lemma DrainStarts(was: Accounts, locals: set<Address>, beats: map<Address, nat>, drop: nat, limit: nat)
    requires Size(was) == drop + limit
    ensures Draining(was, locals, beats, was.Keys - locals, None, drop, limit, was)
  {
    forall a ensures DrainedAt(was, locals, was.Keys - locals, None, was, a) {
    }
  }

  lemma DrainedNext(was: Accounts, locals: set<Address>, addresses: set<Address>, now: Accounts, a: Address,
      kept: Items, now': Accounts, b: Address)
    requires a in addresses && a in now && a !in locals && now' == WithList(now, a, kept) && LowCut(now[a], kept)
    requires DrainedAt(was, locals, addresses, None, now, a) && DrainedAt(was, locals, addresses, None, now, b)
    ensures DrainedAt(was, locals, addresses - {a}, if kept == map[] then None else Some(a), now', b)
  {
  }

  /** Whoever was drained, the newest of the rest included, was active no earlier than who is still to come. */
  lemma NewestNext(was: Accounts, locals: set<Address>, beats: map<Address, nat>, addresses: set<Address>, a: Address)
    requires a in addresses && forall b | b in addresses :: Newer(beats, b, a)
    requires forall x, b {:trigger Newer(beats, x, b)}
               | x in addresses && b in was && b !in locals && b !in addresses :: Newer(beats, x, b)
    ensures forall x, b {:trigger Newer(beats, x, b)}
              | x in addresses && b in was && b !in locals && b !in addresses - {a} :: Newer(beats, x, b)
  {
    forall x, b | x in addresses && b in was && b !in locals && b !in addresses - {a} ensures Newer(beats, x, b) {
      assert b == a || b !in addresses;
    }
  }

  /** One more account drained, entirely or to its lowest nonces. */
  lemma DrainStep(was: Accounts, locals: set<Address>, beats: map<Address, nat>, addresses: set<Address>, drop: nat,
      limit: nat, now: Accounts, a: Address, kept: Items, now': Accounts, drop': nat)
    requires Draining(was, locals, beats, addresses, None, drop, limit, now) && a in addresses && a in now
    requires forall b | b in addresses :: Newer(beats, b, a)
    requires now' == WithList(now, a, kept) && LowCut(now[a], kept)
    requires drop' == drop - (|now[a]| - |kept|) && (kept == map[] || drop' == 0)
    ensures Draining(was, locals, beats, addresses - {a}, if kept == map[] then None else Some(a), drop', limit, now')
  {
    var cut := if kept == map[] then None else Some(a);
    SizeWithList(now, a, kept);
    forall b ensures DrainedAt(was, locals, addresses - {a}, cut, now', b) {
      assert DrainedAt(was, locals, addresses, None, now, a) && DrainedAt(was, locals, addresses, None, now, b);
      DrainedNext(was, locals, addresses, now, a, kept, now', b);
    }
    NewestNext(was, locals, beats, addresses, a);
  }

  lemma DrainEnds(was: Accounts, locals: set<Address>, beats: map<Address, nat>, addresses: set<Address>,
      cut: Option<Address>, drop: nat, limit: nat, now: Accounts)
    requires NoEmptyList(now) && Draining(was, locals, beats, addresses, cut, drop, limit, now)
    requires drop == 0 || addresses == {}
    ensures Drained(was, locals, beats, limit, now)
  {
    forall a ensures a in locals ==> ListOf(now, a) == ListOf(was, a) ensures LowCut(ListOf(was, a), ListOf(now, a)) {
      assert DrainedAt(was, locals, addresses, cut, now, a);
      LowCutAll(ListOf(was, a));
      LowCutNone(ListOf(was, a));
    }
    if drop > 0 {
      forall a | a in now ensures a in locals {
        assert DrainedAt(was, locals, addresses, cut, now, a);
      }
    }
    forall a, b | a in was && a !in locals && b in was && b !in locals && ListOf(now, a) != ListOf(was, a)
                  && !Newer(beats, b, a)
      ensures b !in now
    {
      assert DrainedAt(was, locals, addresses, cut, now, a) && DrainedAt(was, locals, addresses, cut, now, b);
      assert cut == Some(b) ==> Newer(beats, b, a);
    }
  }

  lemma StillQueued(was: Accounts, locals: set<Address>, beats: map<Address, nat>, addresses: set<Address>,
      cut: Option<Address>,
      drop: nat, limit: nat, now: Accounts, a: Address)
    requires NoEmptyList(was) && Draining(was, locals, beats, addresses, cut, drop, limit, now) && a in addresses
    ensures a in now
  {
    assert DrainedAt(was, locals, addresses, cut, now, a);
  }

  /** The executable transactions and the virtual nonces are untouched. */
  ghost predicate SameExecutable(head: Head, was: Pool, now: Pool) {
    now.pending == was.pending && forall a :: VirtualNonce(head, now.nonces, a) == VirtualNonce(head, was.nonces, a)
  }

  lemma ExecutableKept(head: Head, was: Pool, a: Address, kept: Items, now: Pool)
    requires PoolOk(head, was) && Updated(head, was, a, AccountOf(head, was, a).(queued := kept), now)
    ensures SameExecutable(head, was, now) && now.queue == WithList(was.queue, a, kept)
  {
    assert WithList(was.pending, a, ListOf(was.pending, a)) == was.pending;
  }

  // The most recently active account goes first.

  /** If an account lost something, a remote one with a later heartbeat lost everything; none is the earliest. */
  lemma LaterGoFirst(was: Accounts, locals: set<Address>, beats: map<Address, nat>, now: Accounts, a: Address,
      b: Address)
    requires NewestFirst(was, locals, beats, now) && a in was && b in was && a !in locals && b !in locals
    requires ListOf(now, a) != ListOf(was, a)
    requires b in beats && beats[b] > 0 && (a in beats ==> beats[a] < beats[b])
    ensures b !in now
  {
    assert !Newer(beats, b, a);
  }

  lemma SizeOne(lists: Accounts, a: Address)
    requires lists.Keys == {a}
    ensures Size(lists) == |lists[a]|
  {
    SumAt(lists, Uncut, {a}, a);
    assert {a} - {a} == {};
  }

  lemma SizeTwo(lists: Accounts, a: Address, b: Address)
    requires lists.Keys == {a, b} && a != b
    ensures Size(lists) == |lists[a]| + |lists[b]|
  {
    SumAt(lists, Uncut, {a, b}, a);
    assert {a, b} - {a} == {b};
    SumAt(lists, Uncut, {b}, b);
    assert {b} - {b} == {};
  }

  /** Of a single transaction a cut leaves it or nothing. */
  lemma CutOfOne(tx: Tx, now: Items)
    requires LowCut(map[tx.nonce := tx], now)
    ensures now == map[tx.nonce := tx] || now == map[]
  {
    var one: Items := map[tx.nonce := tx];
    var k :| IsLowest(now, one, k);
    LowestIsPart(one, k, now);
    if tx.nonce in now {
      assert now == one;
    }
  }

  lemma CutOfNone(now: Items)
    requires LowCut(map[], now)
    ensures now == map[]
  {
    var k :| IsLowest(now, map[], k);
    LowestIsPart(map[], k, now);
  }

  /** Two remote accounts with one transaction queued each. */
  ghost predicate OneEach(was: Accounts, a: Address, b: Address) {
    && a != b && was.Keys == {a, b}
    && (exists t: Tx :: was[a] == map[t.nonce := t]) && (exists t: Tx :: was[b] == map[t.nonce := t])
  }

  lemma AllOrNothing(was: Accounts, a: Address, b: Address, now: Accounts, c: Address)
    requires OneEach(was, a, b) && NoEmptyList(now) && LowCut(ListOf(was, c), ListOf(now, c)) && c in now
    ensures c in was && now[c] == was[c] && |was[c]| == 1
  {
    if c in was {
      var t: Tx :| was[c] == map[t.nonce := t];
      CutOfOne(t, ListOf(now, c));
    } else {
      CutOfNone(ListOf(now, c));
    }
  }

  lemma PartOfTwo(was: Accounts, a: Address, b: Address, now: Accounts)
    requires OneEach(was, a, b) && NoEmptyList(now) && forall c :: LowCut(ListOf(was, c), ListOf(now, c))
    ensures now.Keys <= {a, b} && Size(now) == |now.Keys|
    ensures forall c | c in now :: now[c] == was[c]
  {
    forall c | c in now ensures c in was && now[c] == was[c] && |was[c]| == 1 {
      assert LowCut(ListOf(was, c), ListOf(now, c));
      AllOrNothing(was, a, b, now, c);
    }
    SizeOfSingles(now, a, b);
  }

  lemma SizeOfSingles(lists: Accounts, a: Address, b: Address)
    requires lists.Keys <= {a, b} && a != b && forall c | c in lists :: |lists[c]| == 1
    ensures Size(lists) == |lists.Keys|
  {
    if a in lists && b in lists {
      assert lists.Keys == {a, b};
      SizeTwo(lists, a, b);
    } else if lists.Keys != {} {
      var c :| c in lists;
      assert lists.Keys == {c};
      SizeOne(lists, c);
    }
  }

  /** If the older account lost something, the newer one lost everything. */
  lemma DrainedInOrder(was: Accounts, beats: map<Address, nat>, limit: nat, now: Accounts, a: Address, b: Address)
    requires Drained(was, {}, beats, limit, now) && a in was && b in was && Beat(beats, a) < Beat(beats, b)
    ensures ListOf(now, a) == ListOf(was, a) || b !in now
  {
    assert !Newer(beats, b, a);
  }

  lemma DrainedToLimit(was: Accounts, beats: map<Address, nat>, limit: nat, now: Accounts)
    requires Drained(was, {}, beats, limit, now) && NoEmptyList(now)
    ensures Size(now) == limit
  {
    assert (forall a | a in now :: a in {}) ==> now.Keys == {};
  }

  lemma OnlyOlder(was: Accounts, a: Address, b: Address, now: Accounts)
    requires now.Keys <= {a, b} && |now.Keys| == 1 && forall c | c in now :: c in was && now[c] == was[c]
    requires a in now || b !in now
    ensures now == map[a := was[a]]
  {
    assert a !in now ==> now.Keys == {};
    assert a in now && b in now ==> now.Keys == {a, b};
  }

  /** With room for one of the two, the account that was active less recently keeps its own. */
  lemma NewerDrainedFirst(was: Accounts, beats: map<Address, nat>, a: Address, b: Address, now: Accounts)
    requires OneEach(was, a, b) && Beat(beats, a) < Beat(beats, b) && NoEmptyList(now)
    requires Drained(was, {}, beats, 1, now)
    ensures now == map[a := was[a]]
  {
    PartOfTwo(was, a, b, now);
    DrainedInOrder(was, beats, 1, now, a, b);
    DrainedToLimit(was, beats, 1, now);
    OnlyOlder(was, a, b, now);
  }

  ghost function ExampleQueues(t: Tx, u: Tx): Accounts {
    map[1 := map[t.nonce := t], 2 := map[u.nonce := u]]
  }

  ghost function ExampleBeats(): map<Address, nat> {
    map[1 := 5, 2 := 9]
  }

  lemma ExampleOneEach(t: Tx, u: Tx)
    ensures OneEach(ExampleQueues(t, u), 1, 2) && Beat(ExampleBeats(), 1) < Beat(ExampleBeats(), 2)
  {
    assert ExampleQueues(t, u)[1] == map[t.nonce := t] && ExampleQueues(t, u)[2] == map[u.nonce := u];
  }

  /** Account 1 was last active at 5 and account 2 at 9: it is the transaction of account 1 that stays. */
  lemma NewestDrainedExample(t: Tx, u: Tx, now: Accounts)
    requires NoEmptyList(now) && Drained(ExampleQueues(t, u), {}, ExampleBeats(), 1, now)
    ensures now == map[1 := ExampleQueues(t, u)[1]]
  {
    ExampleOneEach(t, u);
    NewerDrainedFirst(ExampleQueues(t, u), ExampleBeats(), 1, 2, now);
  }
}
