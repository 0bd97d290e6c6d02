/**
 Pool transactions, and the per-account map from nonce to transaction with its heap index and sorted cache.
 */
module TxSortedMaps {
  import opened Basics
  import Heaps

  /** Nonces below 2^64 - 1, so that the next nonce is always a 64-bit number. */
  type Nonce = n: nat | n < MAX_U64

  type Data = d: seq<Byte> | |d| <= MAX_U64

  /** What only admission looks at: the encoded size, the data, and whether a sender can be recovered. */
  datatype Body = Body(size: nat, data: Data, creation: bool, signed: bool, rest: nat)

  /** `cost` is the value sent plus the price of all gas. */
  datatype Tx = Tx(sender: Address, nonce: Nonce, price: nat, gas: nat, cost: int, isVault: bool, body: Body)

  type Items = map<nat, Tx>

  function NonceKey(n: nat): int {
    n
  }

  /** Every transaction is filed under its own nonce. */
  ghost predicate Keyed(items: Items) {
    forall n | n in items :: items[n].nonce == n
  }

  ghost predicate Holds(items: Items, t: Tx) {
    t.nonce in items && items[t.nonce] == t
  }

  /** Strictly ascending numbers. */
  ghost predicate Ascending(s: seq<nat>) {
    forall i, j | 0 <= i < j < |s| :: s[i] < s[j]
  }

  ghost function Nonces(txs: seq<Tx>): (r: seq<nat>)
    ensures |r| == |txs| && forall i | 0 <= i < |r| :: r[i] == txs[i].nonce
  {
    seq(|txs|, i requires 0 <= i < |txs| => txs[i].nonce)
  }

  /** All the transactions of a map in nonce order. */
  ghost predicate Listing(items: Items, txs: seq<Tx>) {
    && Ascending(Nonces(txs))
    && (forall t :: t in txs <==> Holds(items, t))
  }

  /** The heap index: each nonce of the map, once. */
  ghost predicate Indexes(items: Items, index: seq<nat>) {
    multiset(index) == multiset(items.Keys)
  }

  lemma IndexMembers(items: Items, index: seq<nat>)
    requires Indexes(items, index)
    ensures |index| == |items|
    ensures forall n :: n in index <==> n in items
  {
    KeysMembers(items.Keys, index);
    assert |items.Keys| == |items|;
  }

  lemma CountOnce(s: seq<nat>, i: nat, j: nat)
    requires i < j < |s| && multiset(s)[s[i]] <= 1
    ensures s[i] != s[j]
  {
    assert s == s[..j] + s[j..];
    assert s[i] in s[..j];
    assert s[j] in s[j..];
    assert multiset(s)[s[i]] == multiset(s[..j])[s[i]] + multiset(s[j..])[s[i]];
  }

  lemma SortedIndexAscends(items: Items, index: seq<nat>)
    requires Indexes(items, index) && Heaps.SortedBy(index, NonceKey)
    ensures Ascending(index)
  {
    forall i, j | 0 <= i < j < |index| ensures index[i] < index[j] {
      assert multiset(items.Keys)[index[i]] <= 1;
      CountOnce(index, i, j);
      assert NonceKey(index[i]) <= NonceKey(index[j]);
    }
  }

  /** Two ascending lists of the same numbers are the same list. */
  lemma AscendingUnique(a: seq<nat>, b: seq<nat>)
    requires Ascending(a) && Ascending(b) && forall n :: n in a <==> n in b
    ensures a == b
  {
    if |a| >= |b| {
      LongerIsSame(a, b);
    } else {
      LongerIsSame(b, a);
    }
  }

  lemma {:induction false} LongerIsSame(a: seq<nat>, b: seq<nat>)
    requires Ascending(a) && Ascending(b) && |a| >= |b| && forall n :: n in a <==> n in b
    ensures a == b
    decreases |a|
  {
    if a != [] {
      assert a[0] in b;
      assert b[0] in a;
      assert a[0] == b[0];
      forall n ensures n in a[1..] <==> n in b[1..] {
        assert n in a <==> n == a[0] || n in a[1..];
        assert n in b <==> n == b[0] || n in b[1..];
      }
      LongerIsSame(a[1..], b[1..]);
    }
  }

  /** A sorted index names the transactions of a listing one by one. */
  lemma ListingFollowsIndex(items: Items, txs: seq<Tx>, index: seq<nat>)
    requires Keyed(items) && Listing(items, txs) && Indexes(items, index) && Ascending(index)
    ensures Nonces(txs) == index && |txs| == |items|
  {
    IndexMembers(items, index);
    forall n ensures n in Nonces(txs) <==> n in index {
      if n in items {
        assert Holds(items, items[n]);
        var i :| 0 <= i < |txs| && txs[i] == items[n];
        assert Nonces(txs)[i] == n;
      }
      if n in Nonces(txs) {
        var i :| 0 <= i < |txs| && Nonces(txs)[i] == n;
        assert Holds(items, txs[i]);
      }
    }
    AscendingUnique(Nonces(txs), index);
  }

  ghost function SetOf(s: seq<nat>): set<nat> {
    set n | n in s
  }

  /** The part of a map under a set of nonces. */
  ghost function Only(items: Items, ns: set<nat>): Items {
    items - (items.Keys - ns)
  }

  ghost function Below(items: Items, threshold: nat): set<nat> {
    set n | n in items && n < threshold
  }

  /** `kept` is the `k` lowest nonces of `items`, or all of them if there are fewer. */
  ghost predicate IsLowest(kept: Items, items: Items, k: nat) {
    && kept.Keys <= items.Keys
    && kept == Only(items, kept.Keys)
    && |kept| == (if |items| <= k then |items| else k)
    && (forall a, b {:trigger Lower(a, b)} | a in kept && b in items && b !in kept :: Lower(a, b))
  }

  /** `out` is what `kept` lacks of `items`, each transaction once. */
  ghost predicate LeftOut(items: Items, kept: Items, out: seq<Tx>) {
    && |out| == |items| - |kept|
    && (forall t :: t in out <==> Holds(items, t) && t.nonce !in kept)
  }

  ghost predicate Lower(a: nat, b: nat) {
    a < b
  }

  lemma IndexPut(items: Items, index: seq<nat>, index': seq<nat>, t: Tx)
    requires Indexes(items, index) && t.nonce !in items && multiset(index') == multiset(index) + multiset{t.nonce}
    ensures Indexes(items[t.nonce := t], index')
  {
    assert items[t.nonce := t].Keys == items.Keys + {t.nonce};
  }

  lemma IndexRemove(items: Items, index: seq<nat>, index': seq<nat>, n: nat)
    requires Indexes(items, index) && n in items && multiset(index') + multiset{n} == multiset(index)
    ensures Indexes(items - {n}, index')
  {
    assert (items - {n}).Keys == items.Keys - {n};
    assert multiset(items.Keys) - multiset{n} == multiset(items.Keys - {n});
    assert multiset(index') == multiset(index) - multiset{n};
  }

  /** A listing of everything under a threshold is the front of a listing of everything. */
  lemma {:induction false} FrontOfListing(items: Items, all: seq<Tx>, low: seq<Tx>, threshold: nat)
    requires Keyed(items) && Listing(items, all) && Listing(Only(items, Below(items, threshold)), low)
    ensures |low| <= |all| && all[..|low|] == low && Listing(items - Below(items, threshold), all[|low|..])
    decreases |low|
  {
    var below := Only(items, Below(items, threshold));
    if low == [] {
      forall n | n in items ensures n >= threshold {
        assert Holds(items, items[n]);
        assert !Holds(below, items[n]);
      }
      assert items - Below(items, threshold) == items && all[0..] == all;
    } else {
      FrontMatches(items, all, low, threshold);
      var n := all[0].nonce;
      var items' := items - {n};
      TailListing(items, all);
      TailListing(below, low);
      assert Only(items', Below(items', threshold)) == below - {n};
      FrontOfListing(items', all[1..], low[1..], threshold);
      assert all[1..][..|low| - 1] == all[1..|low|] && all[1..][|low| - 1..] == all[|low|..];
      assert items' - Below(items', threshold) == items - Below(items, threshold);
    }
  }

  lemma FrontMatches(items: Items, all: seq<Tx>, low: seq<Tx>, threshold: nat)
    requires Keyed(items) && Listing(items, all) && Listing(Only(items, Below(items, threshold)), low) && low != []
    ensures all != [] && all[0] == low[0] && all[0].nonce < threshold
  {
    var below := Only(items, Below(items, threshold));
    assert Holds(below, low[0]);
    assert low[0] in all;
    var i :| 0 <= i < |all| && all[i] == low[0];
    assert Nonces(all)[0] <= Nonces(all)[i];
    assert all[0] in all && Holds(items, all[0]);
    assert Holds(below, all[0]);
    var j :| 0 <= j < |low| && low[j] == all[0];
    assert Nonces(low)[0] <= Nonces(low)[j];
  }

  /** Dropping the first transaction of a listing drops its nonce. */
  lemma TailListing(items: Items, txs: seq<Tx>)
    requires Keyed(items) && Listing(items, txs) && txs != []
    ensures Listing(items - {txs[0].nonce}, txs[1..])
  {
    var n, rest := txs[0].nonce, items - {txs[0].nonce};
    assert Nonces(txs)[1..] == Nonces(txs[1..]);
    assert Holds(items, txs[0]);
    forall t ensures t in txs[1..] <==> Holds(rest, t) {
      assert t in txs <==> t == txs[0] || t in txs[1..];
      if t in txs[1..] {
        var i :| 0 <= i < |txs[1..]| && txs[1..][i] == t;
        assert Nonces(txs)[0] < Nonces(txs)[i + 1];
      }
    }
  }

  /** The first `k` of a listing are the listing of the `k` lowest. */
  lemma FrontIsLowest(items: Items, txs: seq<Tx>, index: seq<nat>, k: nat)
    requires Keyed(items) && Listing(items, txs) && Indexes(items, index) && Ascending(index) && k <= |index|
    ensures |txs| == |index| && Listing(Only(items, SetOf(index[..k])), txs[..k])
  {
    ListingFollowsIndex(items, txs, index);
    var kept := Only(items, SetOf(index[..k]));
    assert Nonces(txs[..k]) == index[..k];
    forall t ensures t in txs[..k] <==> Holds(kept, t) {
      if t in txs[..k] {
        var i :| 0 <= i < k && txs[..k][i] == t;
        assert index[..k][i] == t.nonce && txs[i] in txs && Holds(items, t);
      }
      if Holds(kept, t) {
        assert Holds(items, t);
        var i :| 0 <= i < k && index[..k][i] == t.nonce;
        assert Holds(items, txs[i]);
      }
    }
  }

  /** A map and its heap of nonces. */
  ghost predicate WellIndexed(items: Items, index: seq<nat>) {
    Keyed(items) && Heaps.IsHeap(index, NonceKey) && Indexes(items, index)
  }

  /** A cache, when there is one, is the sorted content. */
  ghost predicate CacheOk(items: Items, cache: Option<seq<Tx>>) {
    cache.Some? ==> Listing(items, cache.value)
  }

  /** What taking the ready transactions from `start` leaves and returns. */
  ghost predicate TakesReady(was: Items, start: nat, items: Items, ready: seq<Tx>) {
    if !ReachesDown(was, start) then ready == [] && items == was
    else
      && ready != [] && ready[0].nonce <= start
      && IsLongestRun(was, ready)
      && items == was - RunNonces(ready)
  }

  /** Where a nonce is in the index. */
  method PositionOf(index: seq<nat>, nonce: nat) returns (i: nat)
    requires nonce in index
    ensures i < |index| && index[i] == nonce && nonce !in index[..i]
  {
    i := 0;
    while index[i] != nonce
      invariant i < |index| && nonce !in index[..i]
      decreases |index| - i
    {
      assert index == index[..i + 1] + index[i + 1..] && index[..i + 1] == index[..i] + [index[i]];
      i := i + 1;
    }
  }

  class TxSortedMap {
    var items: Items
    var index: seq<nat>
    var cache: Option<seq<Tx>>

    ghost predicate Valid()
      reads this
    {
      WellIndexed(items, index) && CacheOk(items, cache)
    }

    constructor ()
      ensures Valid() && items == map[] && cache == None
    {
      items, index, cache := map[], [], None;
    }

    method Get(nonce: nat) returns (r: Option<Tx>)
      ensures r == if nonce in items then Some(items[nonce]) else None
    {
      r := if nonce in items then Some(items[nonce]) else None;
    }

    method Put(tx: Tx)
      requires Valid()
      modifies this
      ensures Valid() && items == old(items)[tx.nonce := tx]
    {
      if tx.nonce !in items {
        ghost var before := index;
        index := Heaps.Push(index, NonceKey, tx.nonce);
        IndexPut(items, before, index, tx);
      } else {
        assert items[tx.nonce := tx].Keys == items.Keys;
      }
      items, cache := items[tx.nonce := tx], None;
    }

    /** Removes every transaction below a nonce and returns them in order. */
    method Forward(threshold: nat) returns (removed: seq<Tx>)
      requires Valid()
      modifies this
      ensures Valid() && items == old(items) - Below(old(items), threshold)
      ensures Listing(Only(old(items), Below(old(items), threshold)), removed)
    {
      ghost var before := items;
      items, removed, index := TakeBelow(items, index, threshold);
      if cache.Some? {
        FrontOfListing(before, cache.value, removed, threshold);
        cache := Some(cache.value[|removed|..]);
      }
    }

    /** Removes every transaction a test rejects; they come back in no particular order. */
    method Filter(bad: Tx -> bool) returns (removed: seq<Tx>)
      requires Valid()
      modifies this
      ensures Valid() && items == old(items) - Matching(old(items), bad)
      ensures LeftOut(old(items), items, removed)
    {
      items, removed, index, cache := FilterItems(items, index, cache, bad);
    }

    /** Keeps the lowest nonces up to a limit; the rest come back, highest first. */
    method Cap(threshold: nat) returns (drops: seq<Tx>)
      requires Valid()
      modifies this
      ensures Valid() && IsLowest(items, old(items), threshold)
      ensures LeftOut(old(items), items, drops)
    {
      items, drops, index, cache := CapItems(items, index, cache, threshold);
    }

    method Remove(nonce: nat) returns (found: bool)
      requires Valid()
      modifies this
      ensures Valid() && found == (nonce in old(items)) && items == old(items) - {nonce}
    {
      if nonce !in items {
        assert items - {nonce} == items;
        return false;
      }
      IndexMembers(items, index);
      var i := PositionOf(index, nonce);
      ghost var before := index;
      index := Heaps.Remove(index, NonceKey, i);
      IndexRemove(items, before, index, nonce);
      items, cache := items - {nonce}, None;
      found := true;
    }

    /**
     Takes off the longest run of consecutive nonces from the lowest one, provided that one is not above
     `start`.
     */
    method Ready(start: nat) returns (ready: seq<Tx>)
      requires Valid()
      modifies this
      ensures Valid() && TakesReady(old(items), start, items, ready)
    {
      items, ready, index := TakeReady(items, index, start);
      if ready != [] {
        cache := None;
      }
    }

    /** The transactions in nonce order, from the cache when there is one. */
    method Flatten() returns (txs: seq<Tx>)
      requires Valid()
      modifies this`cache
      ensures Valid() && Listing(items, txs)
    {
      if cache.None? {
        var listed := ListItems(items);
        cache := Some(listed);
      }
      txs := cache.value;
    }
  }

  method ListItems(items: Items) returns (txs: seq<Tx>)
    requires Keyed(items)
    ensures Listing(items, txs) && |txs| == |items|
  {
    var keys := CollectKeys(items.Keys);
    var sorted := Heaps.Sort(keys, NonceKey);
    SortedIndexAscends(items, sorted);
    IndexMembers(items, sorted);
    txs := Pick(items, sorted);
    MappedListing(items, sorted, txs);
  }

  function Matching(items: Items, bad: Tx -> bool): set<nat> {
    set n | n in items && bad(items[n])
  }

  /** Consecutive nonces starting at the lowest of the map, and the next one is missing. */
  ghost predicate IsLongestRun(items: Items, ready: seq<Tx>)
    requires ready != []
  {
    var first := ready[0].nonce;
    && (forall n | n in items :: first <= n)
    && (forall i | 0 <= i < |ready| :: RunAt(items, first, ready, i))
    && first + |ready| !in items
  }

  ghost predicate ReachesDown(items: Items, start: nat) {
    exists n :: n in items && n <= start
  }

  ghost function RunNonces(ready: seq<Tx>): set<nat> {
    set t | t in ready :: t.nonce
  }

  /** The nonces of a map from `first` up to, not including, `next`. */
  ghost function Span(items: Items, first: nat, next: nat): set<nat> {
    set n | n in items && first <= n < next
  }

  ghost predicate RunAt(was: Items, first: nat, ready: seq<Tx>, i: nat)
    requires i < |ready|
  {
    first + i in was && ready[i] == was[first + i]
  }

  ghost predicate RunSoFar(was: Items, items: Items, first: nat, ready: seq<Tx>) {
    && (forall i | 0 <= i < |ready| :: RunAt(was, first, ready, i))
    && items == was - Span(was, first, first + |ready|)
    && (forall n | n in was :: first <= n)
  }

  lemma RunStep(was: Items, items: Items, first: nat, ready: seq<Tx>, tx: Tx)
    requires RunSoFar(was, items, first, ready) && Holds(items, tx) && tx.nonce == first + |ready|
    ensures RunSoFar(was, items - {tx.nonce}, first, ready + [tx])
  {
    var next := first + |ready|;
    assert Span(was, first, next + 1) == Span(was, first, next) + {tx.nonce};
    forall i | 0 <= i < |ready + [tx]| ensures RunAt(was, first, ready + [tx], i) {
      if i < |ready| {
        assert RunAt(was, first, ready, i);
      }
    }
  }

  /** What is left is above the run. */
  lemma RunAbove(was: Items, items: Items, first: nat, ready: seq<Tx>, n: nat)
    requires RunSoFar(was, items, first, ready) && n in items
    ensures n >= first + |ready|
  {
  }

  lemma RunDone(was: Items, items: Items, first: nat, ready: seq<Tx>)
    requires RunSoFar(was, items, first, ready) && Keyed(was) && ready != [] && first + |ready| !in items
    ensures IsLongestRun(was, ready) && ready[0].nonce == first && items == was - RunNonces(ready)
  {
    assert RunAt(was, first, ready, 0);
    forall n ensures n in RunNonces(ready) <==> n in Span(was, first, first + |ready|) {
      if n in Span(was, first, first + |ready|) {
        assert RunAt(was, first, ready, n - first) && ready[n - first] in ready;
      }
      if n in RunNonces(ready) {
        var i :| 0 <= i < |ready| && ready[i].nonce == n;
        assert RunAt(was, first, ready, i);
      }
    }
  }

  /** What popping low nonces has taken so far. */
  ghost predicate BelowSoFar(was: Items, threshold: nat, done: set<nat>, items: Items, removed: seq<Tx>) {
    && done <= Below(was, threshold) && items == was - done
    && (forall a, b {:trigger Lower(a, b)} | a in done && b in items :: Lower(a, b))
    && Listing(Only(was, done), removed)
  }

  lemma BelowStarts(was: Items, threshold: nat)
    ensures BelowSoFar(was, threshold, {}, was, [])
  {
    assert was - {} == was;
    assert Only(was, {}) == map[];
  }

  lemma BelowStep(was: Items, threshold: nat, done: set<nat>, items: Items, removed: seq<Tx>, tx: Tx)
    requires Keyed(was) && BelowSoFar(was, threshold, done, items, removed)
    requires Holds(items, tx) && tx.nonce < threshold && forall b | b in items - {tx.nonce} :: tx.nonce < b
    ensures BelowSoFar(was, threshold, done + {tx.nonce}, items - {tx.nonce}, removed + [tx])
  {
    forall a | a in done ensures a < tx.nonce {
      assert Lower(a, tx.nonce);
    }
    AppendListing(was, done, removed, tx.nonce);
    assert was - (done + {tx.nonce}) == was - done - {tx.nonce};
  }

  method TakeBelow(was: Items, index0: seq<nat>, threshold: nat)
      returns (items: Items, removed: seq<Tx>, index: seq<nat>)
    requires WellIndexed(was, index0)
    ensures WellIndexed(items, index) && items == was - Below(was, threshold)
    ensures Listing(Only(was, Below(was, threshold)), removed)
  {
    items, removed, index := was, [], index0;
    ghost var done: set<nat> := {};
    BelowStarts(was, threshold);
    while |index| > 0 && index[0] < threshold
      invariant WellIndexed(items, index) && BelowSoFar(was, threshold, done, items, removed)
      decreases |index|
    {
      ghost var before := items;
      var tx;
      tx, items, index := PopLowest(items, index);
      BelowStep(was, threshold, done, before, removed, tx);
      removed := removed + [tx];
      done := done + {tx.nonce};
    }
    ForwardDone(was, done, items, index, threshold);
  }

  /** Without a nonce down to `start` nothing is ready. */
  method TakeReady(was: Items, index0: seq<nat>, start: nat) returns (items: Items, ready: seq<Tx>, index: seq<nat>)
    requires WellIndexed(was, index0)
    ensures WellIndexed(items, index) && TakesReady(was, start, items, ready)
  {
    FrontIsLowestNonce(was, index0);
    if |index0| == 0 || index0[0] > start {
      assert !ReachesDown(was, start);
      return was, [], index0;
    }
    items, ready, index := TakeRun(was, index0, start);
  }

  method TakeRun(was: Items, index0: seq<nat>, start: nat) returns (items: Items, ready: seq<Tx>, index: seq<nat>)
    requires WellIndexed(was, index0) && |index0| > 0 && index0[0] <= start
    ensures WellIndexed(items, index) && TakesReady(was, start, items, ready)
  {
    FrontIsLowestNonce(was, index0);
    items, ready, index := was, [], index0;
    var first, next := index0[0], index0[0];
    assert was - Span(was, first, first) == was;
    while |index| > 0 && index[0] == next
      invariant WellIndexed(items, index) && next == first + |ready|
      invariant RunSoFar(was, items, first, ready)
      invariant |ready| == 0 ==> |index| > 0 && index[0] == next
      decreases |index|
    {
      ghost var before := items;
      var tx;
      tx, items, index := PopLowest(items, index);
      RunStep(was, before, first, ready, tx);
      ready := ready + [tx];
      next := next + 1;
    }
    FrontIsLowestNonce(items, index);
    if |index| > 0 {
      RunAbove(was, items, first, ready, index[0]);
    }
    RunDone(was, items, first, ready);
    assert first in was && first <= start;
  }

  /** Takes the transaction with the lowest nonce off a map and its index. */
  method PopLowest(items: Items, index: seq<nat>) returns (tx: Tx, rest: Items, index': seq<nat>)
    requires WellIndexed(items, index) && |index| > 0
    ensures WellIndexed(rest, index') && tx.nonce == index[0] && Holds(items, tx)
    ensures rest == items - {tx.nonce} && |index'| == |index| - 1
    ensures forall b | b in rest :: tx.nonce < b
  {
    IndexMembers(items, index);
    var nonce: nat;
    nonce, index' := Heaps.Pop(index, NonceKey);
    IndexRemove(items, index, index', nonce);
    tx, rest := items[nonce], items - {nonce};
    forall b | b in rest ensures nonce < b {
      assert b in index && NonceKey(nonce) <= NonceKey(b);
    }
  }

  method FilterItems(items: Items, index: seq<nat>, cache: Option<seq<Tx>>, bad: Tx -> bool)
      returns (kept: Items, removed: seq<Tx>, index': seq<nat>, cache': Option<seq<Tx>>)
    requires WellIndexed(items, index) && CacheOk(items, cache)
    ensures WellIndexed(kept, index') && CacheOk(kept, cache')
    ensures kept == items - Matching(items, bad) && LeftOut(items, kept, removed)
  {
    index', cache' := index, cache;
    kept, removed := Partition(items, bad);
    if |removed| > 0 {
      index' := IndexOf(kept);
      cache' := None;
    } else {
      NothingLeftOut(items, kept);
    }
  }

  lemma NothingLeftOut(items: Items, kept: Items)
    requires Keyed(items) && LeftOut(items, kept, []) && kept == Only(items, kept.Keys)
    ensures kept == items
  {
    forall n | n in items ensures n in kept {
      assert Holds(items, items[n]);
    }
  }

  /** Splits a map by a test; the rejected entries are visited in any order. */
  method Partition(items: Items, bad: Tx -> bool) returns (kept: Items, removed: seq<Tx>)
    requires Keyed(items)
    ensures kept == items - Matching(items, bad) && LeftOut(items, kept, removed)
  {
    var gone := Matching(items, bad);
    var order := CollectKeys(gone);
    KeysMembers(gone, order);
    removed := Pick(items, order);
    kept := items - gone;
    assert kept.Keys == items.Keys - gone;
    forall t ensures t in removed <==> Holds(items, t) && t.nonce !in kept {
      if Holds(items, t) && t.nonce !in kept {
        assert t.nonce in gone && t.nonce in order;
        var i :| 0 <= i < |order| && order[i] == t.nonce;
        assert removed[i] == t;
      }
      if t in removed {
        var i :| 0 <= i < |removed| && removed[i] == t;
        assert order[i] in order && order[i] in gone;
      }
    }
  }

  lemma KeysMembers(ks: set<nat>, r: seq<nat>)
    requires multiset(r) == multiset(ks)
    ensures |r| == |ks| && forall n :: n in r <==> n in ks
  {
    assert |multiset(r)| == |r| && |multiset(ks)| == |ks|;
    forall n ensures n in r <==> n in ks {
      assert n in r <==> n in multiset(r);
    }
  }

  /** Takes the entries of a sorted index from the back until only `threshold` are left. */
  method DropHighest(items: Items, sorted: seq<nat>, threshold: nat) returns (kept: Items, drops: seq<Tx>)
    requires Keyed(items) && Ascending(sorted) && (forall n :: n in sorted <==> n in items) && threshold <= |sorted|
    ensures kept == items - SetOf(sorted[threshold..]) && |drops| == |sorted| - threshold
    ensures forall t :: t in drops <==> Holds(items, t) && t.nonce in sorted[threshold..]
  {
    kept, drops := items, [];
    var size := |sorted|;
    while size > threshold
      invariant threshold <= size <= |sorted| && |drops| == |sorted| - size
      invariant kept == items - SetOf(sorted[size..])
      invariant forall t :: t in drops <==> Holds(items, t) && t.nonce in sorted[size..]
      decreases size
    {
      var nonce := sorted[size - 1];
      assert sorted[size - 1..] == [nonce] + sorted[size..];
      drops := drops + [items[nonce]];
      kept := kept - {nonce};
      size := size - 1;
    }
  }

  method CollectKeys(ks: set<nat>) returns (r: seq<nat>)
    ensures multiset(r) == multiset(ks)
  {
    r := [];
    var todo := ks;
    while todo != {}
      invariant todo <= ks && multiset(r) + multiset(todo) == multiset(ks)
      decreases todo
    {
      var n :| n in todo;
      assert multiset(todo) == multiset(todo - {n}) + multiset{n};
      r, todo := r + [n], todo - {n};
    }
  }

  method IndexOf(items: Items) returns (index: seq<nat>)
    requires Keyed(items)
    ensures WellIndexed(items, index)
  {
    var keys := CollectKeys(items.Keys);
    index := Heaps.Init(keys, NonceKey);
  }

  lemma FrontIsLowestNonce(items: Items, index: seq<nat>)
    requires Heaps.IsHeap(index, NonceKey) && Indexes(items, index)
    ensures |index| > 0 ==> index[0] in items && forall n | n in items :: index[0] <= n
    ensures |index| == 0 <==> items == map[]
  {
    IndexMembers(items, index);
    forall n | n in items ensures index[0] <= n {
      var i: nat :| i < |index| && index[i] == n;
      Heaps.FrontIsLeast(index, NonceKey, i);
    }
  }

  /** Sorts the index, takes the entries beyond `k` off its back, and trims the cache to match. */
  method CapItems(items: Items, index: seq<nat>, cache: Option<seq<Tx>>, k: nat)
      returns (kept: Items, drops: seq<Tx>, index': seq<nat>, cache': Option<seq<Tx>>)
    requires WellIndexed(items, index) && CacheOk(items, cache)
    ensures WellIndexed(kept, index') && CacheOk(kept, cache')
    ensures IsLowest(kept, items, k) && LeftOut(items, kept, drops)
  {
    if |items| <= k {
      assert Only(items, items.Keys) == items;
      return items, [], index, cache;
    }
    var sorted := Heaps.Sort(index, NonceKey);
    kept, drops := CapSorted(items, sorted, k);
    index' := Heaps.Init(sorted[..k], NonceKey);
    cache' := cache;
    if cache.Some? {
      CapCache(items, cache.value, sorted, k, kept);
      cache' := Some(cache.value[..|cache.value| - |drops|]);
    }
  }

  /** Drops the nonces of a sorted index from position `k` on. */
  method CapSorted(items: Items, sorted: seq<nat>, k: nat) returns (kept: Items, drops: seq<Tx>)
    requires Keyed(items) && Indexes(items, sorted) && Heaps.SortedBy(sorted, NonceKey) && k < |items|
    ensures Ascending(sorted) && |sorted| == |items| && kept == Only(items, SetOf(sorted[..k])) && Keyed(kept)
    ensures Indexes(kept, sorted[..k]) && IsLowest(kept, items, k) && LeftOut(items, kept, drops)
  {
    SortedIndexAscends(items, sorted);
    IndexMembers(items, sorted);
    kept, drops := DropHighest(items, sorted, k);
    CapDone(items, sorted, k, kept);
  }

  lemma CapCache(items: Items, txs: seq<Tx>, sorted: seq<nat>, k: nat, kept: Items)
    requires Keyed(items) && Listing(items, txs) && Indexes(items, sorted) && Ascending(sorted)
    requires k <= |sorted| == |items|
    requires kept == Only(items, SetOf(sorted[..k]))
    ensures |txs| == |items| && Listing(kept, txs[..k])
  {
    FrontIsLowest(items, txs, sorted, k);
  }

  lemma LowBelowHigh(sorted: seq<nat>, k: nat)
    requires Ascending(sorted) && k <= |sorted|
    ensures forall a, b | a in sorted[..k] && b in sorted[k..] :: a < b
  {
    forall a, b | a in sorted[..k] && b in sorted[k..] ensures a < b {
      var i, j :| 0 <= i < k && sorted[..k][i] == a && 0 <= j < |sorted| - k && sorted[k..][j] == b;
      assert sorted[i] < sorted[k + j];
    }
  }

  lemma CapKeys(was: Items, sorted: seq<nat>, k: nat, items: Items)
    requires Ascending(sorted) && k <= |sorted| && forall n :: n in sorted <==> n in was
    requires items == was - SetOf(sorted[k..])
    ensures forall n :: n in items <==> n in sorted[..k]
    ensures forall n :: n in was && n !in items <==> n in sorted[k..]
    ensures items.Keys == SetOf(sorted[..k]) && items == Only(was, items.Keys)
  {
    LowBelowHigh(sorted, k);
    assert sorted == sorted[..k] + sorted[k..];
    forall n ensures n in items <==> n in sorted[..k] {
      assert n in was <==> n in sorted[..k] || n in sorted[k..];
    }
  }

  lemma CapDone(was: Items, sorted: seq<nat>, k: nat, items: Items)
    requires Indexes(was, sorted) && Ascending(sorted) && k < |sorted| && Keyed(was)
    requires items == was - SetOf(sorted[k..])
    ensures items == Only(was, SetOf(sorted[..k])) && IsLowest(items, was, k)
    ensures Indexes(items, sorted[..k])
    ensures forall n :: n in was && n !in items <==> n in sorted[k..]
  {
    assert |was| == |sorted| && (forall n :: n in sorted <==> n in was) by {
      IndexMembers(was, sorted);
    }
    CapKeys(was, sorted, k, items);
    AscendingIsIndex(items, sorted[..k]);
    assert |items| == k by {
      IndexMembers(items, sorted[..k]);
    }
    forall a, b | a in items && b in was && b !in items ensures Lower(a, b) {
      LowBelowHigh(sorted, k);
    }
  }

  /** An ascending list of exactly the map's nonces indexes the map. */
  lemma AscendingIsIndex(items: Items, s: seq<nat>)
    requires Ascending(s) && forall n :: n in items <==> n in s
    ensures Indexes(items, s)
  {
    forall n ensures multiset(s)[n] == multiset(items.Keys)[n] {
      AscendingCounts(s, n);
    }
  }

  lemma {:induction false} AscendingCounts(s: seq<nat>, n: nat)
    requires Ascending(s)
    ensures multiset(s)[n] == if n in s then 1 else 0
    decreases |s|
  {
    if s != [] {
      var front, last := s[..|s| - 1], s[|s| - 1];
      assert s == front + [last];
      AscendingCounts(front, n);
      assert last !in front;
    }
  }

  method Pick(items: Items, nonces: seq<nat>) returns (txs: seq<Tx>)
    requires forall n | n in nonces :: n in items
    ensures |txs| == |nonces| && forall i | 0 <= i < |txs| :: txs[i] == items[nonces[i]]
  {
    txs := [];
    for i := 0 to |nonces|
      invariant |txs| == i && forall j | 0 <= j < i :: txs[j] == items[nonces[j]]
    {
      txs := txs + [items[nonces[i]]];
    }
  }

  lemma MappedListing(items: Items, sorted: seq<nat>, listed: seq<Tx>)
    requires Keyed(items) && Ascending(sorted) && (forall n :: n in sorted <==> n in items)
    requires |listed| == |sorted| && forall j | 0 <= j < |sorted| :: listed[j] == items[sorted[j]]
    ensures Listing(items, listed)
  {
    assert Nonces(listed) == sorted;
    forall t ensures t in listed <==> Holds(items, t) {
      if Holds(items, t) {
        var j :| 0 <= j < |sorted| && sorted[j] == t.nonce;
        assert listed[j] == t;
      }
    }
  }

  lemma AppendListing(items: Items, done: set<nat>, txs: seq<Tx>, n: nat)
    requires Keyed(items) && done <= items.Keys && n in items && Listing(Only(items, done), txs)
    requires forall a | a in done :: a < n
    ensures Listing(Only(items, done + {n}), txs + [items[n]])
  {
    var more, longer := Only(items, done + {n}), txs + [items[n]];
    forall i, j | 0 <= i < j < |longer| ensures Nonces(longer)[i] < Nonces(longer)[j] {
      assert Holds(Only(items, done), txs[i]);
      if j < |txs| {
        assert Nonces(txs)[i] < Nonces(txs)[j];
      }
    }
    forall t ensures t in longer <==> Holds(more, t) {
      assert t in longer <==> t in txs || t == items[n];
    }
  }

  lemma ForwardDone(was: Items, done: set<nat>, items: Items, index: seq<nat>, threshold: nat)
    requires done <= Below(was, threshold) && items == was - done
    requires Heaps.IsHeap(index, NonceKey) && Indexes(items, index) && (|index| > 0 ==> index[0] >= threshold)
    ensures done == Below(was, threshold)
  {
    IndexMembers(items, index);
    forall n | n in items ensures n >= threshold {
      var i: nat :| i < |index| && index[i] == n;
      Heaps.FrontIsLeast(index, NonceKey, i);
    }
    assert forall n | n in was && n !in done :: n in items;
  }
}
