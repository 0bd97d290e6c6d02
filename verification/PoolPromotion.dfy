/**
 Promotion of one account: of what is queued and affordable, the run of nonces that continues the executable
 ones becomes executable, and of the rest at most so many of the lowest nonces stay queued.
 */
module PoolPromotions {
  import opened Basics
  import opened TxSortedMaps
  import opened TxLists
  import opened PricedLists
  import opened PoolViews

  /** Some of `items`, unchanged. */
  ghost predicate Part(part: Items, items: Items) {
    part.Keys <= items.Keys && forall n {:trigger part[n]} | n in part :: part[n] == items[n]
  }

  /** `payable` is what an account can pay for, within the block gas limit. */
  ghost predicate IsPayable(queued: Items, balance: nat, maxGas: nat, payable: Items) {
    Part(payable, queued) && forall n | n in queued :: n in payable <==> !TooCostly(queued[n], balance, maxGas)
  }

  /** The numbers from `lo` up to `hi` are all there, and `hi` is not. */
  ghost predicate RunUpTo(items: Items, lo: nat, hi: nat) {
    lo <= hi && (forall n | lo <= n < hi :: n in items) && hi !in items
  }

  /** `kept` is what stays of `payable` from nonce `hi` on: everything, or at most `limit` of the lowest nonces. */
  ghost predicate Stays(payable: Items, hi: nat, limit: Option<nat>, kept: Items) {
    && Part(kept, payable)
    && (forall n | n in kept :: hi <= n)
    && (forall a, b {:trigger Lower(a, b)} | a in kept && b in payable && hi <= b && b !in kept :: Lower(a, b))
    && (limit.Some? ==> |kept| <= limit.value)
    && (limit.None? || |kept| < limit.value ==> forall n | n in payable && hi <= n :: n in kept)
  }

  /** What leaves a list when only `kept` stays. */
  ghost predicate Gone(items: Items, lo: nat, kept: Items, out: seq<Tx>) {
    forall t :: t in out <==> Holds(items, t) && lo <= t.nonce && t.nonce !in kept
  }

  /** A list that got the transactions of `more` with the nonces from `lo` up to `hi`. */
  ghost function Extended(items: Items, more: Items, lo: nat, hi: nat): Items {
    if hi <= lo then items
    else if hi - 1 in more then Extended(items, more, lo, hi - 1)[hi - 1 := more[hi - 1]]
    else Extended(items, more, lo, hi - 1)
  }

  lemma {:induction false} ExtendedAt(items: Items, more: Items, lo: nat, hi: nat, n: nat)
    requires lo <= hi && forall k | lo <= k < hi :: k in more
    ensures n in Extended(items, more, lo, hi) <==> n in items || lo <= n < hi
    ensures lo <= n < hi ==> Extended(items, more, lo, hi)[n] == more[n]
    ensures n in items && !(lo <= n < hi) ==> Extended(items, more, lo, hi)[n] == items[n]
  {
    if lo < hi {
      ExtendedAt(items, more, lo, hi - 1, n);
    }
  }

  ghost predicate PromotesFrom(payable: Items, acct: Account, limit: Option<nat>, acct': Account) {
    && RunUpTo(payable, acct.next, acct'.next)
    && acct'.pending == Extended(acct.pending, payable, acct.next, acct'.next)
    && Stays(payable, acct'.next, limit, acct'.queued)
  }

  /** Of the payable ones, the run that continues the executable ones moves; of the rest the lowest stay. */
  ghost predicate Promotes(head: Head, a: Address, acct: Account, limit: Option<nat>, acct': Account) {
    exists payable :: IsPayable(acct.queued, Balance(head, a), head.maxGas, payable)
                      && PromotesFrom(payable, acct, limit, acct')
  }

  /** Consecutive transactions of `items`, the first with nonce `lo`. */
  ghost predicate IsRun(items: Items, lo: nat, txs: seq<Tx>) {
    forall i | 0 <= i < |txs| :: RunAt(items, lo, txs, i)
  }

  /** How a queue falls apart, of which `payable` can be paid for. */
  ghost predicate FallsInto(queued: Items, payable: Items, next: nat, limit: Option<nat>, rest: Items,
      drops: seq<Tx>, readies: seq<Tx>, caps: seq<Tx>) {
    && Gone(queued, 0, payable, drops)
    && RunUpTo(payable, next, next + |readies|) && IsRun(payable, next, readies)
    && Stays(payable, next + |readies|, limit, rest) && Gone(payable, next + |readies|, rest, caps)
  }

  /** What is left of a queue once the nonces below the account's are gone. */
  ghost function Recent(queued: Items, state: nat): Items {
    queued - Below(queued, state)
  }

  /** How any queue falls apart: what is too old, too costly, ready, and over the limit leaves; the rest stays. */
  ghost predicate Sifts(queued: Items, state: nat, next: nat, balance: nat, maxGas: nat, limit: Option<nat>,
      rest: Items, forwards: seq<Tx>, drops: seq<Tx>, readies: seq<Tx>, caps: seq<Tx>, payable: Items, waiting: Items)
  {
    && Listing(Only(queued, Below(queued, state)), forwards)
    && IsPayable(Recent(queued, state), balance, maxGas, payable) && Gone(Recent(queued, state), 0, payable, drops)
    && TakesReady(payable, next, waiting, readies)
    && Stays(waiting, 0, limit, rest) && Gone(waiting, 0, rest, caps)
  }

  /** Sorts an account's queue; `payable` is what it can pay for, `waiting` what of that is not ready. */
  method Sift(queued: Items, state: nat, next: nat, balance: nat, maxGas: nat, limit: Option<nat>)
      returns (rest: Items, forwards: seq<Tx>, drops: seq<Tx>, readies: seq<Tx>, caps: seq<Tx>, ghost payable: Items,
      ghost waiting: Items)
    requires Keyed(queued)
    ensures Sifts(queued, state, next, balance, maxGas, limit, rest, forwards, drops, readies, caps, payable, waiting)
  {
    var index := IndexOf(queued);
    var list;
    list, forwards, index := TakeBelow(queued, index, state);
    list, drops, index := DropUnpayable(list, index, balance, maxGas);
    payable := list;
    list, readies, index := TakeReady(list, index, next);
    waiting := list;
    rest, caps := CapQueue(list, index, limit);
  }

  ghost function One(b: bool): nat {
    if b then 1 else 0
  }

  lemma ReadyIsWhole(items: Items, next: nat, rest: Items, readies: seq<Tx>, t: Tx)
    requires Keyed(items) && TakesReady(items, next, rest, readies)
    ensures Holds(items, t) ==> One(t in readies) + One(Holds(rest, t)) == 1
    ensures !Holds(items, t) ==> t !in readies && !Holds(rest, t)
  {
    if t in readies {
      var i :| 0 <= i < |readies| && readies[i] == t;
      assert RunAt(items, readies[0].nonce, readies, i);
    }
    if Holds(items, t) && t.nonce in RunNonces(readies) {
      var i :| 0 <= i < |readies| && readies[i].nonce == t.nonce;
      assert RunAt(items, readies[0].nonce, readies, i);
    }
  }

  /** Every queued transaction goes one way, and nothing else comes out. */
  lemma SiftPartitions(queued: Items, state: nat, next: nat, balance: nat, maxGas: nat, limit: Option<nat>, rest: Items,
      forwards: seq<Tx>, drops: seq<Tx>, readies: seq<Tx>, caps: seq<Tx>, payable: Items, waiting: Items, t: Tx)
    requires Sifts(queued, state, next, balance, maxGas, limit, rest, forwards, drops, readies, caps, payable, waiting)
    requires Keyed(queued)
    ensures One(t in forwards) + One(t in drops) + One(t in readies) + One(t in caps) + One(Holds(rest, t)) ==
            One(Holds(queued, t))
  {
    var recent := Recent(queued, state);
    assert Keyed(payable) by {
      forall n | n in payable ensures payable[n].nonce == n {
        assert payable[n] == queued[n];
      }
    }
    assert One(t in forwards) + One(Holds(recent, t)) == One(Holds(queued, t));
    assert One(t in drops) + One(Holds(payable, t)) == One(Holds(recent, t));
    ReadyIsWhole(payable, next, waiting, readies, t);
    assert One(t in caps) + One(Holds(rest, t)) == One(Holds(waiting, t));
  }

  /** When nothing queued lies below the virtual nonce, what is ready is the run that starts there. */
  lemma SiftsFromNext(queued: Items, state: nat, next: nat, balance: nat, maxGas: nat, limit: Option<nat>, rest: Items,
      forwards: seq<Tx>, drops: seq<Tx>, readies: seq<Tx>, caps: seq<Tx>, payable: Items, waiting: Items)
    requires Sifts(queued, state, next, balance, maxGas, limit, rest, forwards, drops, readies, caps, payable, waiting)
    requires Keyed(queued) && state <= next && forall n | n in queued :: next <= n
    ensures forwards == [] && IsPayable(queued, balance, maxGas, payable)
    ensures FallsInto(queued, payable, next, limit, rest, drops, readies, caps)
  {
    NothingBelow(queued, state, forwards);
    ReadyRun(payable, next, waiting, readies);
    StaysFrom(payable, waiting, next + |readies|, limit, rest, caps);
  }

  /** Sorts a queue as the pool keeps it. */
  method SiftFromNext(queued: Items, state: nat, next: nat, balance: nat, maxGas: nat, limit: Option<nat>)
      returns (rest: Items, forwards: seq<Tx>, drops: seq<Tx>, readies: seq<Tx>, caps: seq<Tx>, ghost payable: Items)
    requires Keyed(queued) && state <= next && forall n | n in queued :: next <= n
    ensures forwards == [] && IsPayable(queued, balance, maxGas, payable)
    ensures FallsInto(queued, payable, next, limit, rest, drops, readies, caps)
  {
    ghost var waiting;
    rest, forwards, drops, readies, caps, payable, waiting := Sift(queued, state, next, balance, maxGas, limit);
    SiftsFromNext(queued, state, next, balance, maxGas, limit, rest, forwards, drops, readies, caps, payable, waiting);
  }

  method DropUnpayable(queued: Items, index: seq<nat>, balance: nat, maxGas: nat) returns (payable: Items,
      drops: seq<Tx>, index': seq<nat>)
    requires WellIndexed(queued, index)
    ensures WellIndexed(payable, index')
    ensures IsPayable(queued, balance, maxGas, payable) && Gone(queued, 0, payable, drops)
  {
    var cache;
    payable, drops, index', cache := FilterItems(queued, index, None, CostTest(balance, maxGas));
  }

  method CapQueue(list: Items, index: seq<nat>, limit: Option<nat>) returns (rest: Items, caps: seq<Tx>)
    requires WellIndexed(list, index)
    ensures Stays(list, 0, limit, rest) && Gone(list, 0, rest, caps)
  {
    rest, caps := list, [];
    if limit.Some? {
      var index', cache';
      rest, caps, index', cache' := CapItems(list, index, None, limit.value);
      LowestIsPart(list, limit.value, rest);
    }
  }

  lemma StaysFrom(payable: Items, list: Items, hi: nat, limit: Option<nat>, rest: Items, caps: seq<Tx>)
    requires Part(list, payable) && forall n :: n in list <==> n in payable && hi <= n
    requires Stays(list, 0, limit, rest) && Gone(list, 0, rest, caps)
    ensures Stays(payable, hi, limit, rest) && Gone(payable, hi, rest, caps)
  {
    forall t ensures Holds(list, t) <==> Holds(payable, t) && hi <= t.nonce {
    }
  }

  lemma LowestIsPart(items: Items, k: nat, kept: Items)
    requires IsLowest(kept, items, k)
    ensures Part(kept, items) && (|kept| < k ==> kept == items)
  {
    if |kept| < k && kept.Keys != items.Keys {
      SmallerKeys(kept.Keys, items.Keys);
    }
  }

  lemma NothingBelow(items: Items, threshold: nat, removed: seq<Tx>)
    requires forall n | n in items :: threshold <= n
    requires Listing(Only(items, Below(items, threshold)), removed)
    ensures items - Below(items, threshold) == items && removed == []
  {
    assert Below(items, threshold) == {};
    assert items - {} == items;
    if removed != [] {
      HasMember(removed);
    }
  }

  lemma HasMember<T>(s: seq<T>)
    requires s != []
    ensures exists t :: t in s
  {
    assert s[0] in s;
  }

  /** When nothing lies below `next`, what is ready is the run that starts there. */
  lemma ReadyRun(items: Items, next: nat, rest: Items, readies: seq<Tx>)
    requires Keyed(items) && TakesReady(items, next, rest, readies) && forall n | n in items :: next <= n
    ensures RunUpTo(items, next, next + |readies|) && IsRun(items, next, readies)
    ensures Part(rest, items) && forall n :: n in rest <==> n in items && next + |readies| <= n
  {
    if ReachesDown(items, next) {
      assert RunAt(items, readies[0].nonce, readies, 0);
      forall n | next <= n < next + |readies| ensures n in items && n in RunNonces(readies) {
        assert RunAt(items, next, readies, n - next);
      }
      forall n | n in RunNonces(readies) ensures next <= n < next + |readies| {
        var i :| 0 <= i < |readies| && readies[i].nonce == n;
        assert RunAt(items, next, readies, i);
      }
    }
  }

  /** A promoted account is in order again. */
  lemma PromotesOk(head: Head, a: Address, payable: Items, acct: Account, limit: Option<nat>, acct': Account)
    requires AccountOk(head, a, acct) && Part(payable, acct.queued) && PromotesFrom(payable, acct, limit, acct')
    ensures AccountOk(head, a, acct')
  {
    forall n: nat
      ensures SlotOk(head, a, acct', n)
      ensures n in acct'.pending ==> acct'.pending[n].nonce == n && acct'.pending[n].sender == a
      ensures n in acct'.queued ==> acct'.queued[n].nonce == n && acct'.queued[n].sender == a
    {
      assert SlotOk(head, a, acct, n);
      ExtendedAt(acct.pending, payable, acct.next, acct'.next, n);
    }
  }

  ghost function Promoted(acct: Account, payable: Items, count: nat, rest: Items): Account {
    Account(Extended(acct.pending, payable, acct.next, acct.next + count), rest, acct.next + count)
  }

  lemma PromotesParts(payable: Items, acct: Account, limit: Option<nat>, count: nat, hi: nat, rest: Items)
    requires hi == acct.next + count && RunUpTo(payable, acct.next, hi) && Stays(payable, hi, limit, rest)
    ensures PromotesFrom(payable, acct, limit, Promoted(acct, payable, count, rest))
  {
  }

  lemma FallsPromotes(payable: Items, acct: Account, limit: Option<nat>, rest: Items, drops: seq<Tx>,
      readies: seq<Tx>, caps: seq<Tx>)
    requires FallsInto(acct.queued, payable, acct.next, limit, rest, drops, readies, caps)
    ensures PromotesFrom(payable, acct, limit, Promoted(acct, payable, |readies|, rest))
  {
    PromotesParts(payable, acct, limit, |readies|, acct.next + |readies|, rest);
  }

  /** `txs` are what a list gained. */
  ghost predicate NewIn(was: Items, now: Items, txs: seq<Tx>) {
    forall t :: t in txs <==> Holds(now, t) && !Holds(was, t)
  }

  /** What was promoted is what is new among the executable ones. */
  lemma RunIsNew(head: Head, a: Address, payable: Items, acct: Account, readies: seq<Tx>, rest: Items)
    requires AccountOk(head, a, acct) && Part(payable, acct.queued)
    requires RunUpTo(payable, acct.next, acct.next + |readies|) && IsRun(payable, acct.next, readies)
    ensures NewIn(acct.pending, Promoted(acct, payable, |readies|, rest).pending, readies)
  {
    forall t
      ensures t in readies <==>
              Holds(Promoted(acct, payable, |readies|, rest).pending, t) && !Holds(acct.pending, t)
    {
      PromotedHolds(head, a, acct, payable, |readies|, rest, t);
      assert SlotOk(head, a, acct, t.nonce);
      if t in readies {
        var i :| 0 <= i < |readies| && readies[i] == t;
        assert RunAt(payable, acct.next, readies, i);
      }
      if Holds(payable, t) && t.nonce < acct.next + |readies| {
        assert RunAt(payable, acct.next, readies, t.nonce - acct.next);
        assert readies[t.nonce - acct.next] == t;
      }
    }
  }

  lemma PromotedNew(head: Head, a: Address, payable: Items, acct: Account, limit: Option<nat>, rest: Items,
      drops: seq<Tx>, readies: seq<Tx>, caps: seq<Tx>)
    requires AccountOk(head, a, acct) && IsPayable(acct.queued, Balance(head, a), head.maxGas, payable)
    requires FallsInto(acct.queued, payable, acct.next, limit, rest, drops, readies, caps)
    ensures NewIn(acct.pending, Promoted(acct, payable, |readies|, rest).pending, readies)
  {
    RunIsNew(head, a, payable, acct, readies, rest);
  }

  /** A transaction of the queue is either unpayable, promoted, over the limit, or still queued. */
  lemma QueuedGoes(queued: Items, payable: Items, next: nat, limit: Option<nat>, rest: Items, drops: seq<Tx>,
      readies: seq<Tx>, caps: seq<Tx>, t: Tx)
    requires FallsInto(queued, payable, next, limit, rest, drops, readies, caps) && Part(payable, queued)
    requires forall n | n in queued :: next <= n
    ensures t in drops || t in caps ==> Holds(queued, t)
    ensures Holds(rest, t) || (Holds(payable, t) && t.nonce < next + |readies|) <==>
              Holds(queued, t) && t !in drops && t !in caps
  {
  }

  lemma PromotedHolds(head: Head, a: Address, acct: Account, payable: Items, count: nat, rest: Items, t: Tx)
    requires AccountOk(head, a, acct) && Part(payable, acct.queued) && RunUpTo(payable, acct.next, acct.next + count)
    ensures Holds(Promoted(acct, payable, count, rest).pending, t) <==>
            Holds(acct.pending, t) || (Holds(payable, t) && t.nonce < acct.next + count)
  {
    ExtendedAt(acct.pending, payable, acct.next, acct.next + count, t.nonce);
    assert SlotOk(head, a, acct, t.nonce);
  }

  /** Of what the account held, exactly the unpayable and the ones over the limit are lost. */
  lemma PromotesLoses(head: Head, a: Address, payable: Items, acct: Account, limit: Option<nat>, rest: Items,
      drops: seq<Tx>, readies: seq<Tx>, caps: seq<Tx>, t: Tx)
    requires AccountOk(head, a, acct) && Part(payable, acct.queued)
    requires FallsInto(acct.queued, payable, acct.next, limit, rest, drops, readies, caps)
    ensures t in drops || t in caps ==> Holds(acct.queued, t) && !Holds(acct.pending, t) && t.sender == a
    ensures Contains(Promoted(acct, payable, |readies|, rest), t) <==> Contains(acct, t) && t !in drops && t !in caps
  {
    Disjoint(head, a, acct, t.nonce);
    QueuedAbove(head, a, acct);
    QueuedGoes(acct.queued, payable, acct.next, limit, rest, drops, readies, caps, t);
    PromotedHolds(head, a, acct, payable, |readies|, rest, t);
  }

  lemma QueuedAbove(head: Head, a: Address, acct: Account)
    requires AccountOk(head, a, acct)
    ensures Keyed(acct.queued) && forall n | n in acct.queued :: acct.next <= n
  {
    forall n | n in acct.queued ensures acct.next <= n {
      assert SlotOk(head, a, acct, n);
    }
  }

  lemma PendingBelow(head: Head, a: Address, acct: Account)
    requires AccountOk(head, a, acct)
    ensures forall n | n in acct.pending :: n < acct.next
  {
    forall n | n in acct.pending ensures n < acct.next {
      assert SlotOk(head, a, acct, n);
    }
  }

  /** What stays queued can be paid for, does not continue the run, and is within the limit. */
  lemma PromotesSettles(head: Head, a: Address, acct: Account, limit: Option<nat>, acct': Account)
    requires Promotes(head, a, acct, limit, acct')
    ensures forall n | n in acct'.queued :: !TooCostly(acct'.queued[n], Balance(head, a), head.maxGas)
    ensures acct'.next !in acct'.queued && (limit.Some? ==> |acct'.queued| <= limit.value)
  {
    var payable :| IsPayable(acct.queued, Balance(head, a), head.maxGas, payable)
                   && PromotesFrom(payable, acct, limit, acct');
    forall n | n in acct'.queued ensures !TooCostly(acct'.queued[n], Balance(head, a), head.maxGas) {
      assert acct'.queued[n] == payable[n] == acct.queued[n];
    }
  }

  /** What an account can pay for stays, unless its queue is full of lower nonces. */
  lemma PayableStays(head: Head, a: Address, acct: Account, limit: Option<nat>, acct': Account, t: Tx)
    requires AccountOk(head, a, acct) && Promotes(head, a, acct, limit, acct') && Contains(acct, t)
    requires t.cost <= Balance(head, a) && t.gas <= head.maxGas
    ensures Contains(acct', t) ||
            (limit.Some? && |acct'.queued| == limit.value && forall n | n in acct'.queued :: n < t.nonce)
  {
    if Holds(acct.pending, t) {
      PromotionKeeps(head, a, acct, limit, acct', t);
    } else {
      var payable :| IsPayable(acct.queued, Balance(head, a), head.maxGas, payable)
                     && PromotesFrom(payable, acct, limit, acct');
      assert SlotOk(head, a, acct, t.nonce) && Holds(payable, t);
      if t.nonce < acct'.next {
        ExtendedAt(acct.pending, payable, acct.next, acct'.next, t.nonce);
      } else if t.nonce !in acct'.queued {
        forall n | n in acct'.queued ensures n < t.nonce {
          assert Lower(n, t.nonce);
        }
      }
    }
  }

  /** Promoting twice is promoting once. */
  lemma PromotesTwice(head: Head, a: Address, acct: Account, limit: Option<nat>, once: Account, twice: Account)
    requires AccountOk(head, a, once)
    requires Promotes(head, a, acct, limit, once) && Promotes(head, a, once, limit, twice)
    ensures twice == once
  {
    PromotesSettles(head, a, acct, limit, once);
    QueuedAbove(head, a, once);
    var payable :| IsPayable(once.queued, Balance(head, a), head.maxGas, payable)
                   && PromotesFrom(payable, once, limit, twice);
    AllPayable(once.queued, Balance(head, a), head.maxGas, payable);
    NothingToPromote(once, limit, twice);
  }

  /** Promotion takes no executable transaction away. */
  lemma PromotionKeeps(head: Head, a: Address, acct: Account, limit: Option<nat>, acct': Account, t: Tx)
    requires AccountOk(head, a, acct) && Promotes(head, a, acct, limit, acct') && Holds(acct.pending, t)
    ensures Holds(acct'.pending, t)
  {
    var payable :| IsPayable(acct.queued, Balance(head, a), head.maxGas, payable)
                   && PromotesFrom(payable, acct, limit, acct');
    assert SlotOk(head, a, acct, t.nonce);
    ExtendedAt(acct.pending, payable, acct.next, acct'.next, t.nonce);
  }

  lemma PromotedAreOwn(head: Head, a: Address, acct: Account, limit: Option<nat>, acct': Account, t: Tx)
    requires AccountOk(head, a, acct) && Promotes(head, a, acct, limit, acct')
    ensures Holds(acct'.pending, t) ==> t.sender == a
  {
    var payable :| IsPayable(acct.queued, Balance(head, a), head.maxGas, payable)
                   && PromotesFrom(payable, acct, limit, acct');
    PromotesOk(head, a, payable, acct, limit, acct');
  }

  /** With nothing queued there is nothing to do. */
  lemma PromotesNothing(head: Head, a: Address, acct: Account, limit: Option<nat>)
    requires acct.queued == map[]
    ensures Promotes(head, a, acct, limit, acct)
  {
    assert IsPayable(acct.queued, Balance(head, a), head.maxGas, acct.queued);
    assert PromotesFrom(acct.queued, acct, limit, acct);
  }

  /** Promoted, or not touched. */
  ghost predicate MaybePromoted(head: Head, a: Address, acct: Account, limit: Option<nat>, acct': Account, done: bool) {
    if done then Promotes(head, a, acct, limit, acct') else acct' == acct
  }

  /** Promoting an account once more counts once. */
  lemma PromotesMore(head: Head, a: Address, was: Account, acct: Account, limit: Option<nat>, acct': Account,
      done: bool)
    requires AccountOk(head, a, acct) && MaybePromoted(head, a, was, limit, acct, done)
    requires Promotes(head, a, acct, limit, acct')
    ensures Promotes(head, a, was, limit, acct')
  {
    if done {
      PromotesTwice(head, a, was, limit, acct, acct');
    }
  }

  lemma AllPayable(queued: Items, balance: nat, maxGas: nat, payable: Items)
    requires IsPayable(queued, balance, maxGas, payable)
    requires forall n | n in queued :: !TooCostly(queued[n], balance, maxGas)
    ensures payable == queued
  {
  }

  lemma NothingToPromote(acct: Account, limit: Option<nat>, acct': Account)
    requires PromotesFrom(acct.queued, acct, limit, acct') && acct.next !in acct.queued
    requires forall n | n in acct.queued :: acct.next <= n
    requires limit.Some? ==> |acct.queued| <= limit.value
    ensures acct' == acct
  {
    assert acct'.next == acct.next;
    if limit.Some? && acct'.queued.Keys != acct.queued.Keys {
      SmallerKeys(acct'.queued.Keys, acct.queued.Keys);
    }
    assert acct'.queued == acct.queued;
  }

  lemma SmallerKeys(a: set<nat>, b: set<nat>)
    requires a < b
    ensures |a| < |b|
  {
    var x :| x in b && x !in a;
    assert a <= b - {x};
    SubsetCount(a, b - {x});
  }
}
