/**
 The transactions of one account. A strict list keeps executable transactions and drops everything behind a
 gap; cost and gas caps remember the most expensive transaction so that most scans can be skipped.
 */
module TxLists {
  import opened Basics
  import opened TxSortedMaps

  /** The price a replacement has to reach: the old price plus a percentage, rounded down. */
  function Threshold(oldPrice: nat, priceBump: nat): nat {
    oldPrice * (100 + priceBump) / 100
  }

  /** A transaction may take a free slot, or one held by a sufficiently cheaper transaction. */
  predicate Accepts(items: Items, tx: Tx, priceBump: nat) {
    tx.nonce in items ==>
      items[tx.nonce].price < tx.price && Threshold(items[tx.nonce].price, priceBump) <= tx.price
  }

  /** The slot's holder must be cheaper, and by the percentage up to rounding. */
  lemma AcceptsIff(items: Items, tx: Tx, priceBump: nat)
    ensures Accepts(items, tx, priceBump) <==>
            (tx.nonce in items ==>
               var price := items[tx.nonce].price;
               price < tx.price && price * (100 + priceBump) < 100 * (tx.price + 1))
  {
  }

  predicate TooCostly(t: Tx, costLimit: nat, gasLimit: nat) {
    t.cost > costLimit || t.gas > gasLimit
  }

  function CostTest(costLimit: nat, gasLimit: nat): Tx -> bool {
    (t: Tx) => TooCostly(t, costLimit, gasLimit)
  }

  function AboveTest(nonce: nat): Tx -> bool {
    (t: Tx) => t.nonce > nonce
  }

  function Costly(items: Items, costLimit: nat, gasLimit: nat): set<nat> {
    Matching(items, CostTest(costLimit, gasLimit))
  }

  function Above(items: Items, nonce: nat): set<nat> {
    set n | n in items && n > nonce
  }

  lemma AboveMatches(items: Items, nonce: nat)
    requires Keyed(items)
    ensures Matching(items, AboveTest(nonce)) == Above(items, nonce)
  {
  }

  /** Splits off everything behind a nonce. */
  method SplitAbove(items: Items, nonce: nat) returns (kept: Items, out: seq<Tx>)
    requires Keyed(items)
    ensures kept == items - Above(items, nonce)
    ensures SetOf(Nonces(out)) == Above(items, nonce) && forall t | t in out :: Holds(items, t)
  {
    AboveMatches(items, nonce);
    kept, out := Partition(items, AboveTest(nonce));
    LeftOutNonces(items, Above(items, nonce), out);
  }

  lemma LeftOutNonces(list: Items, gone: set<nat>, out: seq<Tx>)
    requires Keyed(list) && gone <= list.Keys && LeftOut(list, list - gone, out)
    ensures SetOf(Nonces(out)) == gone && forall t | t in out :: Holds(list, t)
  {
    var kept := list - gone;
    forall k ensures k in SetOf(Nonces(out)) <==> k in gone {
      if k in gone {
        assert Holds(list, list[k]) && k !in kept;
        var i :| 0 <= i < |out| && out[i] == list[k];
        assert Nonces(out)[i] == k;
      }
      if k in Nonces(out) {
        var i :| 0 <= i < |out| && Nonces(out)[i] == k;
        assert out[i] in out && Holds(list, out[i]);
      }
    }
  }

  /** What is left once a nonce goes: in a strict list everything behind it goes too. */
  function AfterRemove(items: Items, nonce: nat, strict: bool): Items {
    if strict && nonce in items then items - {nonce} - Above(items - {nonce}, nonce) else items - {nonce}
  }

  ghost predicate IsLeast(s: set<nat>, least: nat) {
    least in s && forall n | n in s :: least <= n
  }

  /** What a full scan would leave: the affordable ones, in a strict list only before the first that is not. */
  ghost predicate AfterFilter(items: Items, costLimit: nat, gasLimit: nat, strict: bool, kept: Items) {
    var costly := Costly(items, costLimit, gasLimit);
    if strict && costly != {} then exists least :: IsLeast(costly, least) && kept == Only(items, Below(items, least))
    else kept == items - costly
  }

  /** No gaps between the nonces. */
  ghost predicate Contiguous(items: Items) {
    forall a, b, n: nat | a in items && b in items && a <= n <= b :: n in items
  }

  lemma ForwardKeepsContiguous(items: Items, threshold: nat)
    requires Contiguous(items)
    ensures Contiguous(items - Below(items, threshold))
  {
  }

  lemma CapKeepsContiguous(items: Items, kept: Items, k: nat)
    requires Contiguous(items) && IsLowest(kept, items, k)
    ensures Contiguous(kept)
  {
    forall a, b, n: nat | a in kept && b in kept && a <= n <= b ensures n in kept {
      assert n !in kept ==> Lower(b, n);
    }
  }

  lemma RemoveKeepsContiguous(items: Items, nonce: nat)
    requires Keyed(items) && Contiguous(items)
    ensures Contiguous(AfterRemove(items, nonce, true))
  {
  }

  lemma FilterKeepsContiguous(items: Items, costLimit: nat, gasLimit: nat, kept: Items)
    requires Contiguous(items) && AfterFilter(items, costLimit, gasLimit, true, kept)
    ensures Contiguous(kept)
  {
  }

  /** The first result is what costs too much, the second what else was given up. */
  ghost predicate FilterResults(items: Items, kept: Items, costLimit: nat, gasLimit: nat, removed: seq<Tx>,
      invalids: seq<Tx>) {
    var affordable := items - Costly(items, costLimit, gasLimit);
    LeftOut(items, affordable, removed) && LeftOut(affordable, kept, invalids) && kept == Only(affordable, kept.Keys)
  }

  /** The two results of a filter and what stays behind split the original among them. */
  ghost predicate Splits(items: Items, kept: Items, removed: seq<Tx>, invalids: seq<Tx>) {
    && (forall t :: Holds(items, t) <==> Holds(kept, t) || t in removed || t in invalids)
    && (forall t | t in removed :: t.nonce !in kept && t !in invalids)
    && (forall t | t in invalids :: t.nonce !in kept)
    && |removed| + |invalids| + |kept| == |items|
  }

  /** The caps are upper bounds. */
  ghost predicate Capped(items: Items, costcap: nat, gascap: nat) {
    forall n | n in items :: items[n].cost <= costcap && items[n].gas <= gascap
  }

  class TxList {
    const strict: bool
    const txs: TxSortedMap
    var costcap: nat
    var gascap: nat

    ghost predicate Valid()
      reads this, txs
    {
      txs.Valid() && Capped(txs.items, costcap, gascap)
    }

    constructor (strict: bool)
      ensures Valid() && this.strict == strict && txs.items == map[] && fresh(txs)
    {
      this.strict := strict;
      txs := new TxSortedMap();
      costcap, gascap := 0, 0;
    }

    /** Inserts a transaction unless one with its nonce is already there and not sufficiently cheaper. */
    method Add(tx: Tx, priceBump: nat) returns (inserted: bool, replaced: Option<Tx>)
      requires Valid()
      modifies this, txs
      ensures Valid() && inserted == Accepts(old(txs.items), tx, priceBump)
      ensures tx.nonce !in old(txs.items) ==> inserted
      ensures tx.nonce in old(txs.items) ==>
                var price := old(txs.items)[tx.nonce].price;
                inserted <==> price < tx.price && price * (100 + priceBump) < 100 * (tx.price + 1)
      ensures txs.items == if inserted then old(txs.items)[tx.nonce := tx] else old(txs.items)
      ensures replaced == if inserted && tx.nonce in old(txs.items) then Some(old(txs.items)[tx.nonce]) else None
    {
      var before := txs.Get(tx.nonce);
      if before.Some? {
        var threshold := before.value.price * (100 + priceBump) / 100;
        if before.value.price >= tx.price || threshold > tx.price {
          return false, None;
        }
      }
      txs.Put(tx);
      if costcap < tx.cost {
        costcap := tx.cost;
      }
      if gascap < tx.gas {
        gascap := tx.gas;
      }
      return true, before;
    }

    method Forward(threshold: nat) returns (removed: seq<Tx>)
      requires Valid()
      modifies txs
      ensures Valid() && txs.items == old(txs.items) - Below(old(txs.items), threshold)
      ensures Listing(Only(old(txs.items), Below(old(txs.items), threshold)), removed)
    {
      removed := txs.Forward(threshold);
    }

    /**
     Removes the transactions that cost too much, and in a strict list everything behind the first of them.
     The result is that of a full scan even when the caps let the scan be skipped.
     */
    method Filter(costLimit: nat, gasLimit: nat) returns (removed: seq<Tx>, invalids: seq<Tx>)
      requires Valid()
      modifies this, txs
      ensures Valid() && AfterFilter(old(txs.items), costLimit, gasLimit, strict, txs.items)
      ensures FilterResults(old(txs.items), txs.items, costLimit, gasLimit, removed, invalids)
      ensures forall t :: t in removed <==> Holds(old(txs.items), t) && (t.cost > costLimit || t.gas > gasLimit)
    {
      FilterFinds(txs.items, costLimit, gasLimit);
      if costcap <= costLimit && gascap <= gasLimit {
        NothingCostly(txs.items, costcap, gascap, strict, costLimit, gasLimit);
        removed, invalids := [], [];
      } else {
        removed, invalids := Scan(costLimit, gasLimit);
      }
    }

    method Scan(costLimit: nat, gasLimit: nat) returns (removed: seq<Tx>, invalids: seq<Tx>)
      requires txs.Valid()
      modifies this, txs
      ensures Valid() && AfterFilter(old(txs.items), costLimit, gasLimit, strict, txs.items)
      ensures FilterResults(old(txs.items), txs.items, costLimit, gasLimit, removed, invalids)
    {
      ghost var was := txs.items;
      costcap, gascap := costLimit, gasLimit;
      removed := txs.Filter(CostTest(costLimit, gasLimit));
      invalids := DropTail(was, removed, costLimit, gasLimit);
    }

    /** In a strict list, gives up everything behind the lowest nonce that was removed. */
    method DropTail(ghost was: Items, removed: seq<Tx>, ghost costLimit: nat,
        ghost gasLimit: nat) returns (invalids: seq<Tx>)
      requires txs.Valid() && Keyed(was) && txs.items == was - Costly(was, costLimit, gasLimit)
      requires LeftOut(was, txs.items, removed)
      modifies txs
      ensures txs.Valid() && Capped(txs.items, costLimit, gasLimit)
      ensures AfterFilter(was, costLimit, gasLimit, strict, txs.items)
      ensures FilterResults(was, txs.items, costLimit, gasLimit, removed, invalids)
    {
      if strict && |removed| > 0 {
        var lowest := LowestNonce(removed);
        AboveMatches(txs.items, lowest);
        invalids := txs.Filter(AboveTest(lowest));
        StrictScan(was, txs.items, removed, invalids, lowest, costLimit, gasLimit);
      } else {
        invalids := [];
        PlainScan(was, removed, strict, costLimit, gasLimit);
      }
    }

    method Cap(threshold: nat) returns (drops: seq<Tx>)
      requires Valid()
      modifies txs
      ensures Valid() && IsLowest(txs.items, old(txs.items), threshold) && LeftOut(old(txs.items), txs.items, drops)
    {
      drops := txs.Cap(threshold);
    }

    /** Removes whatever holds the transaction's nonce; a strict list also gives up everything behind it. */
    method Remove(tx: Tx) returns (found: bool, invalids: seq<Tx>)
      requires Valid()
      modifies txs
      ensures Valid() && found == (tx.nonce in old(txs.items))
      ensures txs.items == AfterRemove(old(txs.items), tx.nonce, strict)
      ensures LeftOut(old(txs.items) - {tx.nonce}, txs.items, invalids)
    {
      found := txs.Remove(tx.nonce);
      invalids := [];
      if found && strict {
        AboveMatches(txs.items, tx.nonce);
        invalids := txs.Filter(AboveTest(tx.nonce));
      }
    }

    method Ready(start: nat) returns (ready: seq<Tx>)
      requires Valid()
      modifies txs
      ensures Valid() && TakesReady(old(txs.items), start, txs.items, ready)
    {
      ready := txs.Ready(start);
    }

    method Flatten() returns (r: seq<Tx>)
      requires Valid()
      modifies txs
      ensures Valid() && txs.items == old(txs.items) && Listing(txs.items, r)
    {
      r := txs.Flatten();
    }
  }

  method LowestNonce(txs: seq<Tx>) returns (lowest: nat)
    requires txs != []
    ensures (exists t :: t in txs && t.nonce == lowest) && forall t | t in txs :: lowest <= t.nonce
  {
    lowest := txs[0].nonce;
    for i := 1 to |txs|
      invariant exists t :: t in txs && t.nonce == lowest
      invariant forall t | t in txs[..i] :: lowest <= t.nonce
    {
      assert txs[..i + 1] == txs[..i] + [txs[i]] && txs[i] in txs;
      if txs[i].nonce < lowest {
        lowest := txs[i].nonce;
      }
    }
    assert txs[..|txs|] == txs;
  }

  lemma NothingCostly(items: Items, costcap: nat, gascap: nat, strict: bool, costLimit: nat, gasLimit: nat)
    requires Keyed(items) && Capped(items, costcap, gascap) && costcap <= costLimit && gascap <= gasLimit
    ensures AfterFilter(items, costLimit, gasLimit, strict, items)
    ensures FilterResults(items, items, costLimit, gasLimit, [], [])
  {
    assert Costly(items, costLimit, gasLimit) == {};
    assert items - Costly(items, costLimit, gasLimit) == items;
    OnlyAll(items);
  }

  /** A filter's results and remainder partition the original. */
  lemma FilterPartitions(items: Items, kept: Items, costLimit: nat, gasLimit: nat, removed: seq<Tx>, invalids: seq<Tx>)
    requires Keyed(items) && FilterResults(items, kept, costLimit, gasLimit, removed, invalids)
    ensures Splits(items, kept, removed, invalids)
    ensures forall t :: t in removed <==> Holds(items, t) && TooCostly(t, costLimit, gasLimit)
  {
    var costly := Costly(items, costLimit, gasLimit);
    var affordable := items - costly;
    assert affordable.Keys == items.Keys - costly && kept.Keys <= affordable.Keys;
    forall t
      ensures t in removed <==> Holds(items, t) && t.nonce in costly
      ensures t in invalids <==> Holds(affordable, t) && t.nonce !in kept
      ensures Holds(items, t) <==> Holds(kept, t) || t in removed || t in invalids
    {
    }
  }

  /** Whatever stays of it, a filter's first result is exactly what costs too much. */
  lemma FilterFinds(items: Items, costLimit: nat, gasLimit: nat)
    requires Keyed(items)
    ensures forall kept, removed, invalids {:trigger FilterResults(items, kept, costLimit, gasLimit, removed, invalids)}
              | FilterResults(items, kept, costLimit, gasLimit, removed, invalids) ::
              forall t :: t in removed <==> Holds(items, t) && (t.cost > costLimit || t.gas > gasLimit)
  {
    forall kept, removed, invalids | FilterResults(items, kept, costLimit, gasLimit, removed, invalids)
      ensures forall t :: t in removed <==> Holds(items, t) && (t.cost > costLimit || t.gas > gasLimit)
    {
      FilterPartitions(items, kept, costLimit, gasLimit, removed, invalids);
    }
  }

  lemma CostlyRemoved(items: Items, removed: seq<Tx>, costLimit: nat, gasLimit: nat)
    requires Keyed(items) && LeftOut(items, items - Costly(items, costLimit, gasLimit), removed)
    ensures removed == [] <==> Costly(items, costLimit, gasLimit) == {}
    ensures Capped(items - Costly(items, costLimit, gasLimit), costLimit, gasLimit)
    ensures forall t | t in removed :: t.nonce in Costly(items, costLimit, gasLimit)
    ensures forall n | n in Costly(items, costLimit, gasLimit) :: items[n] in removed
  {
    var costly := Costly(items, costLimit, gasLimit);
    var affordable := items - costly;
    assert affordable.Keys == items.Keys - costly;
    forall n | n in costly ensures items[n] in removed {
      assert Holds(items, items[n]);
    }
    if removed != [] {
      assert removed[0] in removed;
    }
  }

  lemma StrictTail(items: Items, lowest: nat, costLimit: nat, gasLimit: nat)
    requires Keyed(items) && IsLeast(Costly(items, costLimit, gasLimit), lowest)
    ensures var affordable := items - Costly(items, costLimit, gasLimit);
            var kept := affordable - Above(affordable, lowest);
            kept == Only(items, Below(items, lowest)) && kept == Only(affordable, kept.Keys)
  {
    var costly := Costly(items, costLimit, gasLimit);
    var affordable := items - costly;
    var kept := affordable - Above(affordable, lowest);
    assert affordable.Keys == items.Keys - costly && kept.Keys == affordable.Keys - Above(affordable, lowest);
    forall n ensures n in kept <==> n in Below(items, lowest) {
    }
  }

  lemma PlainScan(items: Items, removed: seq<Tx>, strict: bool, costLimit: nat, gasLimit: nat)
    requires Keyed(items) && LeftOut(items, items - Costly(items, costLimit, gasLimit), removed)
    requires !strict || removed == []
    ensures var kept := items - Costly(items, costLimit, gasLimit);
            && AfterFilter(items, costLimit, gasLimit, strict, kept)
            && FilterResults(items, kept, costLimit, gasLimit, removed, [])
            && Capped(kept, costLimit, gasLimit)
  {
    CostlyRemoved(items, removed, costLimit, gasLimit);
    OnlyAll(items - Costly(items, costLimit, gasLimit));
  }

  lemma OnlyAll(items: Items)
    ensures Only(items, items.Keys) == items
  {
  }

  lemma StrictScan(items: Items, kept: Items, removed: seq<Tx>, invalids: seq<Tx>, lowest: nat, costLimit: nat,
      gasLimit: nat)
    requires Keyed(items) && LeftOut(items, items - Costly(items, costLimit, gasLimit), removed) && removed != []
    requires (exists t :: t in removed && t.nonce == lowest) && forall t | t in removed :: lowest <= t.nonce
    requires var affordable := items - Costly(items, costLimit, gasLimit);
             kept == affordable - Above(affordable, lowest) && LeftOut(affordable, kept, invalids)
    ensures AfterFilter(items, costLimit, gasLimit, true, kept)
    ensures FilterResults(items, kept, costLimit, gasLimit, removed, invalids)
    ensures Capped(kept, costLimit, gasLimit)
  {
    CostlyRemoved(items, removed, costLimit, gasLimit);
    assert IsLeast(Costly(items, costLimit, gasLimit), lowest);
    StrictTail(items, lowest, costLimit, gasLimit);
  }
}
