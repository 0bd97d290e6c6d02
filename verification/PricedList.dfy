/**
 All pool transactions by hash, and the price heap over them. Removing a transaction leaves its heap entry
 behind; stale entries are skipped when met, and the heap is rebuilt when too many pile up.
 */
module PricedLists {
  import opened Basics
  import Heaps
  import opened TxSortedMaps

  /** Hashes do not collide: a hash is as good as the content it was made from. */
  datatype TxHash = HashOf(content: Tx)

  type Lookup = map<TxHash, Tx>

  ghost predicate LookupOk(all: Lookup) {
    forall h | h in all :: all[h] == h.content
  }

  predicate Live(all: Lookup, t: Tx) {
    HashOf(t) in all
  }

  /** The heap order: cheaper first, and among equal prices the higher nonce first. */
  predicate Less(a: Tx, b: Tx) {
    a.price < b.price || (a.price == b.price && a.nonce > b.nonce)
  }

  /** An integer that orders transactions the same way. */
  function PriceKey(t: Tx): int {
    t.price * 0x1_0000_0000_0000_0000 - t.nonce
  }

  lemma PriceKeyOrders(a: Tx, b: Tx)
    ensures PriceKey(a) < PriceKey(b) <==> Less(a, b)
    ensures PriceKey(a) <= PriceKey(b) ==> a.price <= b.price
  {
  }

  /** Every live transaction, save those in `except`, has an entry. */
  ghost predicate Covers(all: Lookup, items: seq<Tx>, except: seq<Tx>) {
    forall t | Live(all, t) && t !in except :: t in items
  }

  ghost predicate IsRemote(t: Tx, local: set<Address>) {
    t.sender !in local
  }

  /** Cheaper, or as cheap with at least as high a nonce. */
  ghost predicate NoDearer(t: Tx, u: Tx) {
    t.price < u.price || (t.price == u.price && t.nonce >= u.nonce)
  }

  /** Live remote transactions, none dearer than a remote one that stays, and of equal ones the higher nonces. */
  ghost predicate Cheapest(all: Lookup, local: set<Address>, drop: seq<Tx>) {
    && (forall t | t in drop :: Live(all, t) && IsRemote(t, local))
    && (forall t, u {:trigger NoDearer(t, u)} | t in drop && Live(all, u) && IsRemote(u, local) && u !in drop ::
          NoDearer(t, u))
  }

  /**
   No more entries went than wanted, and fewer only if every remote transaction did. A transaction that was
   removed and added again may have two entries, and both are counted.
   */
  ghost predicate MadeRoom(all: Lookup, local: set<Address>, drop: seq<Tx>, wanted: int) {
    && |drop| <= (if wanted > 0 then wanted else 0)
    && (|drop| < wanted ==> forall t | Live(all, t) && IsRemote(t, local) :: t in drop)
  }

  ghost predicate NoRepeats(txs: seq<Tx>) {
    forall i, j | 0 <= i < j < |txs| :: txs[i] != txs[j]
  }

  /** From a heap without repeated entries, as many transactions go as entries. */
  lemma EntriesAreTxs(items: seq<Tx>, drop: seq<Tx>)
    requires NoRepeats(items) && multiset(drop) <= multiset(items)
    ensures NoRepeats(drop)
  {
    forall i, j | 0 <= i < j < |drop| ensures drop[i] != drop[j] {
      if drop[i] == drop[j] {
        var t := drop[i];
        assert drop == drop[..i] + [t] + drop[i + 1..j] + [t] + drop[j + 1..];
        assert multiset(drop)[t] >= 2;
        OnceEach(items, t);
      }
    }
  }

  lemma {:induction false} OnceEach(items: seq<Tx>, t: Tx)
    requires NoRepeats(items)
    ensures multiset(items)[t] <= 1
  {
    if items != [] {
      var last := |items| - 1;
      OnceEach(items[..last], t);
      assert items == items[..last] + [items[last]];
      if items[last] == t {
        assert t !in items[..last];
      }
    }
  }

  class TxLookup {
    var all: Lookup

    constructor ()
      ensures all == map[]
    {
      all := map[];
    }

    method Add(tx: Tx)
      modifies this
      ensures all == old(all)[HashOf(tx) := tx]
    {
      all := all[HashOf(tx) := tx];
    }

    method Remove(hash: TxHash)
      modifies this
      ensures all == old(all) - {hash}
    {
      all := all - {hash};
    }
  }

  /** The cheapest entry leaves the heap; every other stays. */
  method PopCheapest(items: seq<Tx>) returns (tx: Tx, rest: seq<Tx>)
    requires Heaps.IsHeap(items, PriceKey) && items != []
    ensures Heaps.IsHeap(rest, PriceKey) && |rest| == |items| - 1 && tx == items[0]
    ensures forall t | t in items :: t == tx || t in rest
    ensures forall t | t in rest :: t in items && PriceKey(tx) <= PriceKey(t)
    ensures multiset(items) == multiset(rest) + multiset{tx}
  {
    tx, rest := Heaps.Pop(items, PriceKey);
    forall t | t in items ensures t == tx || t in rest {
      assert multiset(items)[t] > 0;
      assert multiset(rest)[t] == multiset(items)[t] - multiset{tx}[t];
    }
    forall t | t in rest ensures t in items {
      assert multiset(items)[t] >= multiset(rest)[t] > 0;
    }
  }

  /** Pushes saved entries back. */
  method PushAll(items: seq<Tx>, save: seq<Tx>) returns (r: seq<Tx>)
    requires Heaps.IsHeap(items, PriceKey)
    ensures Heaps.IsHeap(r, PriceKey)
    ensures forall t :: t in r <==> t in items || t in save
  {
    r := items;
    for i := 0 to |save|
      invariant Heaps.IsHeap(r, PriceKey)
      invariant forall t :: t in r <==> t in items || t in save[..i]
    {
      var before := r;
      r := Heaps.Push(before, PriceKey, save[i]);
      PushMembers(before, r, save[i]);
      assert save[..i + 1] == save[..i] + [save[i]];
    }
    assert save[..|save|] == save;
  }

  lemma PushMembers(before: seq<Tx>, after: seq<Tx>, x: Tx)
    requires multiset(after) == multiset(before) + multiset{x}
    ensures forall t :: t in after <==> t in before || t == x
  {
    forall t ensures t in after <==> t in before || t == x {
      assert t in after <==> multiset(after)[t] > 0;
      assert t in before <==> multiset(before)[t] > 0;
    }
  }

  /** What popping entries in price order has sorted out so far. */
  ghost predicate Sifted(all: Lookup, local: set<Address>, was: seq<Tx>, items: seq<Tx>, drop: seq<Tx>, save: seq<Tx>) {
    && Heaps.IsHeap(items, PriceKey)
    && (forall t | t in was && Live(all, t) :: t in items || t in drop || t in save)
    && (forall t | t in drop :: Live(all, t) && IsRemote(t, local) && t in was)
    && (forall t | t in save :: Live(all, t) && t in was)
    && (forall t | t in items :: t in was)
    && (forall t, u | t in drop && u in items :: PriceKey(t) <= PriceKey(u))
  }

  lemma SiftStep(all: Lookup, local: set<Address>, was: seq<Tx>, items: seq<Tx>, rest: seq<Tx>, drop: seq<Tx>,
      save: seq<Tx>, tx: Tx)
    requires Sifted(all, local, was, items, drop, save) && tx in items && Heaps.IsHeap(rest, PriceKey)
    requires forall t | t in items :: t == tx || t in rest
    requires forall t | t in rest :: t in items && PriceKey(tx) <= PriceKey(t)
    ensures !Live(all, tx) ==> Sifted(all, local, was, rest, drop, save)
    ensures Live(all, tx) ==> Sifted(all, local, was, rest, drop, save + [tx])
    ensures Live(all, tx) && IsRemote(tx, local) ==> Sifted(all, local, was, rest, drop + [tx], save)
  {
  }

  /** Takes out the live remote entries below a price; stale entries met on the way are gone for good. */
  method CapHeap(was: seq<Tx>, all: Lookup, threshold: nat, local: set<Address>) returns (items: seq<Tx>,
      drop: seq<Tx>, stale: nat)
    requires Heaps.IsHeap(was, PriceKey) && Covers(all, was, [])
    ensures Heaps.IsHeap(items, PriceKey) && Covers(all, items, drop)
    ensures forall t :: t in drop <==> Live(all, t) && IsRemote(t, local) && t.price < threshold
  {
    items, drop, stale := was, [], 0;
    var save: seq<Tx> := [];
    while items != []
      invariant Sifted(all, local, was, items, drop, save)
      invariant forall t | t in drop :: t.price < threshold
      invariant forall t | t in save :: !IsRemote(t, local)
      decreases |items|
    {
      var tx, rest := PopCheapest(items);
      SiftStep(all, local, was, items, rest, drop, save, tx);
      items := rest;
      if !Live(all, tx) {
        stale := stale + 1;
      } else if tx.price >= threshold {
        forall t | t in items ensures t.price >= threshold {
          PriceKeyOrders(tx, t);
        }
        save := save + [tx];
        break;
      } else if tx.sender in local {
        save := save + [tx];
      } else {
        drop := drop + [tx];
      }
    }
    items := PushAll(items, save);
  }

  /** Takes out the cheapest live remote entries, up to a number. */
  method DiscardHeap(was: seq<Tx>, all: Lookup, count: int, local: set<Address>) returns (items: seq<Tx>,
      drop: seq<Tx>, stale: nat)
    requires Heaps.IsHeap(was, PriceKey) && Covers(all, was, [])
    ensures Heaps.IsHeap(items, PriceKey) && Covers(all, items, drop)
    ensures Cheapest(all, local, drop) && MadeRoom(all, local, drop, count) && multiset(drop) <= multiset(was)
  {
    items, drop, stale := was, [], 0;
    var save: seq<Tx> := [];
    var left := count;
    while items != [] && left > 0
      invariant Sifted(all, local, was, items, drop, save)
      invariant left == count - |drop| && (left >= 0 || drop == [])
      invariant multiset(drop) + multiset(items) <= multiset(was)
      invariant forall t | t in save :: !IsRemote(t, local)
      decreases |items|
    {
      var tx, rest := PopCheapest(items);
      SiftStep(all, local, was, items, rest, drop, save, tx);
      items := rest;
      if !Live(all, tx) {
        stale := stale + 1;
      } else if tx.sender in local {
        save := save + [tx];
      } else {
        drop := drop + [tx];
        left := left - 1;
      }
    }
    forall t, u | t in drop && Live(all, u) && IsRemote(u, local) && u !in drop ensures NoDearer(t, u) {
      PriceKeyOrders(t, u);
    }
    items := PushAll(items, save);
  }

  /** Drops stale entries from the front of the heap. */
  method SkipStale(was: seq<Tx>, all: Lookup) returns (items: seq<Tx>, stale: nat)
    requires Heaps.IsHeap(was, PriceKey) && Covers(all, was, [])
    ensures Heaps.IsHeap(items, PriceKey) && Covers(all, items, [])
    ensures items != [] ==> Live(all, items[0])
  {
    items, stale := was, 0;
    while items != [] && !Live(all, items[0])
      invariant Heaps.IsHeap(items, PriceKey) && Covers(all, items, [])
      decreases |items|
    {
      var tx, rest := PopCheapest(items);
      items, stale := rest, stale + 1;
    }
  }

  class TxPricedList {
    const all: TxLookup
    var items: seq<Tx>
    var stales: int

    constructor (all: TxLookup)
      requires all.all == map[]
      ensures this.all == all && items == [] && Valid()
    {
      this.all := all;
      items, stales := [], 0;
    }

    ghost predicate Valid()
      reads this, all
    {
      CoversExcept([])
    }

    /** The heap is ordered and has an entry for every live transaction outside `except`. */
    ghost predicate CoversExcept(except: seq<Tx>)
      reads this, all
    {
      LookupOk(all.all) && Heaps.IsHeap(items, PriceKey) && Covers(all.all, items, except)
    }

    method Put(tx: Tx, ghost except: seq<Tx>)
      requires CoversExcept(except + [tx])
      modifies this
      ensures CoversExcept(except) && stales == old(stales)
      ensures multiset(items) == multiset(old(items)) + multiset{tx}
    {
      ghost var before := items;
      items := Heaps.Push(items, PriceKey, tx);
      PushMembers(before, items, tx);
    }

    /** Counts stale entries and rebuilds the heap from the lookup when they pass a quarter of it. */
    method Removed(count: int, ghost except: seq<Tx>)
      requires CoversExcept(except)
      modifies this
      ensures CoversExcept(except)
      ensures if 4 * (old(stales) + count) <= |old(items)| then items == old(items) && stales == old(stales) + count
              else stales == 0 && forall t :: t in items <==> Live(all.all, t)
    {
      stales := stales + count;
      if stales <= |items| / 4 {
        return;
      }
      var fresh' := CollectLive(all.all);
      stales := 0;
      items := Heaps.Init(fresh', PriceKey);
      SameMembers(fresh', items);
    }

    /** Returns, as a set, exactly the live remote transactions below a price; the caller removes them. */
    method Cap(threshold: nat, local: set<Address>) returns (drop: seq<Tx>)
      requires Valid()
      modifies this
      ensures CoversExcept(drop)
      ensures forall t :: t in drop <==> Live(all.all, t) && IsRemote(t, local) && t.price < threshold
    {
      var stale: nat;
      items, drop, stale := CapHeap(items, all.all, threshold, local);
      stales := stales - stale;
    }

    /** A remote transaction is underpriced exactly when no live transaction is cheaper than it. */
    method Underpriced(tx: Tx, local: set<Address>) returns (r: bool)
      requires Valid()
      modifies this
      ensures Valid()
      ensures tx.sender in local ==> !r && items == old(items)
      ensures tx.sender !in local ==>
                (r <==> (exists t :: Live(all.all, t)) && forall t | Live(all.all, t) :: tx.price <= t.price)
    {
      if tx.sender in local {
        return false;
      }
      var stale: nat;
      items, stale := SkipStale(items, all.all);
      stales := stales - stale;
      if items == [] {
        assert forall t :: Live(all.all, t) ==> t in items;
        return false;
      }
      forall t | t in items ensures items[0].price <= t.price {
        var i: nat :| i < |items| && items[i] == t;
        Heaps.FrontIsLeast(items, PriceKey, i);
        PriceKeyOrders(items[0], t);
      }
      r := items[0].price >= tx.price;
    }

    /** Returns the entries of the cheapest live remote transactions, up to a number; the caller removes them. */
    method Discard(count: int, local: set<Address>) returns (drop: seq<Tx>)
      requires Valid()
      modifies this
      ensures CoversExcept(drop)
      ensures Cheapest(all.all, local, drop) && MadeRoom(all.all, local, drop, count)
      ensures multiset(drop) <= multiset(old(items))
    {
      var stale: nat;
      items, drop, stale := DiscardHeap(items, all.all, count, local);
      stales := stales - stale;
    }
  }

  method CollectLive(all: Lookup) returns (r: seq<Tx>)
    requires LookupOk(all)
    ensures forall t :: t in r <==> Live(all, t)
  {
    r := [];
    var todo := all.Keys;
    while todo != {}
      invariant todo <= all.Keys
      invariant forall t :: t in r <==> Live(all, t) && HashOf(t) !in todo
      decreases todo
    {
      var h :| h in todo;
      todo := todo - {h};
      r := r + [all[h]];
    }
  }

  lemma SameMembers(a: seq<Tx>, b: seq<Tx>)
    requires multiset(a) == multiset(b)
    ensures forall t :: t in a <==> t in b
  {
    forall t ensures t in a <==> t in b {
      assert t in a <==> multiset(a)[t] > 0;
      assert t in b <==> multiset(b)[t] > 0;
    }
  }
}
