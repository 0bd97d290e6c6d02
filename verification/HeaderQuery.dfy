/**
 Answering a header request: by hash or by number, towards the genesis or towards the leaf, skipping a
 fixed number of blocks between consecutive headers of the reply.
 */
module HeaderQueries {
  import opened Basics
  import opened BlockTree
  import opened HeaderChains

  const SOFT_RESPONSE_LIMIT: nat := 2 * 1024 * 1024
  const EST_HEADER_RLP_SIZE: nat := 500
  const MAX_HEADER_FETCH: nat := 192
  const MAX_NON_CANONICAL: U64 := 100

  datatype Query = Query(originHash: Hash, originNumber: U64, amount: U64, skip: U64, reverse: bool)

  /** The amount is compared as a signed number, so the upper half of its range asks for nothing. */
  function Wanted(q: Query): nat {
    if q.amount >= 0x8000_0000_0000_0000 then 0
    else if q.amount < MAX_HEADER_FETCH then q.amount else MAX_HEADER_FETCH
  }

  /** `b` is what the query must return right after `a`. */
  ghost predicate Follows(s: ChainState, genesis: Hash, q: Query, a: Hash, b: Hash)
    requires Inv(s, genesis) && a in s.headers && b in s.headers
  {
    var na, nb := s.headers[a].number, s.headers[b].number;
    if q.originHash != ZERO_HASH then
      if q.reverse then q.skip + 1 <= na && b == NthParent(s.headers, genesis, a, q.skip + 1)
      else q.skip + 1 <= nb && a == NthParent(s.headers, genesis, b, q.skip + 1)
    else
      && b == ReadCanonicalHash(s.canon, nb)
      && if q.reverse then nb == na - Add64(q.skip, 1) else nb == Add64(na, Add64(q.skip, 1))
  }

  ghost predicate IsReply(s: ChainState, genesis: Hash, q: Query, reply: seq<Header>)
    requires Inv(s, genesis)
  {
    && (forall i | 0 <= i < |reply| :: reply[i].hash in s.headers && s.headers[reply[i].hash] == reply[i])
    && (forall i | 1 <= i < |reply| :: Follows(s, genesis, q, reply[i - 1].hash, reply[i].hash))
    && (reply != [] ==> if q.originHash != ZERO_HASH then reply[0].hash == q.originHash
                        else reply[0].hash == ReadCanonicalHash(s.canon, q.originNumber))
  }

  /** Whether the query has an origin to start from. */
  ghost predicate HasOrigin(s: ChainState, q: Query) {
    if q.originHash != ZERO_HASH then q.originHash in s.headers else q.originNumber in s.canon
  }

  /** How many headers off the index a step down from `h` reads one by one. */
  ghost function Cost(s: ChainState, genesis: Hash, q: Query, h: Hash): nat
    requires Inv(s, genesis)
  {
    if q.skip > 0 && h in s.headers && q.skip + 1 <= s.headers[h].number then OffIndex(s, genesis, h, q.skip + 1) else 0
  }

  /** The same for all the steps between the headers of a reply. */
  ghost function Spent(s: ChainState, genesis: Hash, q: Query, reply: seq<Header>): nat
    requires Inv(s, genesis)
  {
    if |reply| <= 1 then 0
    else Spent(s, genesis, q, reply[..|reply| - 1]) + Cost(s, genesis, q, reply[|reply| - 2].hash)
  }

  /** No further block in the query's direction on the canonical chain. */
  ghost predicate NothingNext(s: ChainState, q: Query, last: Hash)
    requires last in s.headers && s.head in s.headers
  {
    var n, top := s.headers[last].number, s.headers[s.head].number;
    if q.originHash != ZERO_HASH then if q.reverse then n < q.skip + 1 else top < n + q.skip + 1
    else if q.reverse then n < Add64(q.skip, 1) else top < Add64(n, Add64(q.skip, 1))
  }

  ghost predicate SomethingFollows(s: ChainState, genesis: Hash, q: Query, last: Hash)
    requires Inv(s, genesis) && last in s.headers
  {
    exists b :: b in s.headers && Follows(s, genesis, q, last, b)
  }

  /** By hash downwards, and by number from an indexed height, nothing is next exactly when no stored header follows. */
  lemma NothingFollows(s: ChainState, genesis: Hash, q: Query, last: Hash)
    requires Inv(s, genesis) && last in s.headers
    requires if q.originHash == ZERO_HASH then s.headers[last].number in s.canon else q.reverse
    ensures NothingNext(s, q, last) <==> !SomethingFollows(s, genesis, q, last)
  {
    var n := s.headers[last].number;
    assert LinkedAt(s.headers, genesis, last);
    if !NothingNext(s, q, last) {
      var b := if q.originHash != ZERO_HASH then NthParent(s.headers, genesis, last, q.skip + 1)
               else ReadCanonicalHash(s.canon, if q.reverse then n - Add64(q.skip, 1) else Add64(n, Add64(q.skip, 1)));
      if q.originHash == ZERO_HASH {
        IndexEntry(s, genesis, n);
        IndexEntry(s, genesis, if q.reverse then n - Add64(q.skip, 1) else Add64(n, Add64(q.skip, 1)));
      }
      assert Follows(s, genesis, q, last, b);
    } else if q.originHash == ZERO_HASH && !q.reverse {
      IndexEntry(s, genesis, Add64(n, Add64(q.skip, 1)));
      forall b | b in s.headers ensures !Follows(s, genesis, q, last, b) {
        assert LinkedAt(s.headers, genesis, b);
      }
    }
  }

  /** Upwards by hash, from a header on the index something is next exactly when the index lists one that far up. */
  lemma NothingAboveIndexed(s: ChainState, genesis: Hash, q: Query, last: Hash)
    requires Inv(s, genesis) && last in s.headers && q.originHash != ZERO_HASH && !q.reverse
    ensures NothingNext(s, q, last) <==> s.headers[last].number + q.skip + 1 !in s.canon
  {
    IndexEntry(s, genesis, s.headers[last].number + q.skip + 1);
  }

  /**
   Where a reply ends: nothing follows; or by hash upwards, the last header is off the index; or by hash
   downwards, the next step would use up the budget of headers read off the index.
   */
  ghost predicate Ends(s: ChainState, genesis: Hash, q: Query, reply: seq<Header>)
    requires Inv(s, genesis) && reply != [] && reply[|reply| - 1].hash in s.headers
  {
    var last := reply[|reply| - 1].hash;
    || NothingNext(s, q, last)
    || (q.originHash != ZERO_HASH && !q.reverse && ReadCanonicalHash(s.canon, s.headers[last].number) != last)
    || (q.originHash != ZERO_HASH && q.reverse &&
        Spent(s, genesis, q, reply) + Cost(s, genesis, q, last) > MAX_NON_CANONICAL)
  }

  /** `a` and `b` are exactly skip+1 parent links apart, in the query's direction. */
  ghost predicate LinksApart(s: ChainState, genesis: Hash, q: Query, a: Hash, b: Hash)
    requires Inv(s, genesis) && a in s.headers && b in s.headers
  {
    var low, high := if q.reverse then b else a, if q.reverse then a else b;
    q.skip + 1 <= s.headers[high].number && low == NthParent(s.headers, genesis, high, q.skip + 1)
  }

  /** A step of the query from a number overflows 64 bits. */
  ghost predicate Wraps(q: Query, n: U64) {
    q.skip + 1 > MAX_U64 || (!q.reverse && n + q.skip + 1 > MAX_U64)
  }

  /** By hash, consecutive headers are always that far apart; by number, exactly when the step does not wrap. */
  lemma LinksApartIff(s: ChainState, genesis: Hash, q: Query, reply: seq<Header>, i: nat)
    requires Inv(s, genesis) && IsReply(s, genesis, q, reply) && 0 < i < |reply|
    ensures LinksApart(s, genesis, q, reply[i - 1].hash, reply[i].hash) <==>
            q.originHash != ZERO_HASH || !Wraps(q, reply[i - 1].number)
  {
    var a, b := reply[i - 1], reply[i];
    assert Follows(s, genesis, q, a.hash, b.hash);
    if q.originHash == ZERO_HASH {
      IndexedReply(s, genesis, q, reply, i);
      IndexedReply(s, genesis, q, reply, i - 1);
      var step: nat := q.skip + 1;
      if q.reverse && step <= a.number {
        OffIndexOfCanonical(s, genesis, a.number, step);
      } else if !q.reverse && step <= b.number {
        OffIndexOfCanonical(s, genesis, b.number, step);
      }
    }
  }

  /** By number, every header of a reply is the one the index lists. */
  lemma IndexedReply(s: ChainState, genesis: Hash, q: Query, reply: seq<Header>, i: nat)
    requires Inv(s, genesis) && IsReply(s, genesis, q, reply) && q.originHash == ZERO_HASH && i < |reply|
    ensures reply[i].number in s.canon && s.canon[reply[i].number] == reply[i].hash
    ensures s.headers[reply[i].hash] == reply[i]
  {
    assert LinkedAt(s.headers, genesis, reply[i].hash);
    IndexEntry(s, genesis, reply[i].number);
    if i == 0 {
      IndexEntry(s, genesis, q.originNumber);
      assert q.originNumber in s.canon;
      assert LinkedAt(s.headers, genesis, s.canon[q.originNumber]);
    } else {
      assert Follows(s, genesis, q, reply[i - 1].hash, reply[i].hash);
    }
  }

  /** By number with the largest skip, the step wraps to zero: the reply repeats one header and never ends. */
  lemma LargestSkipRepeats(s: ChainState, genesis: Hash, q: Query, reply: seq<Header>, i: nat)
    requires Inv(s, genesis) && IsReply(s, genesis, q, reply) && q.originHash == ZERO_HASH && q.skip == MAX_U64
    requires i < |reply|
    ensures reply[i] == reply[0] && !Ends(s, genesis, q, reply)
  {
    IndexedReply(s, genesis, q, reply, |reply| - 1);
    IndexEntry(s, genesis, reply[|reply| - 1].number);
    IndexedReply(s, genesis, q, reply, i);
    if i > 0 {
      assert Follows(s, genesis, q, reply[i - 1].hash, reply[i].hash);
      IndexedReply(s, genesis, q, reply, i - 1);
      LargestSkipRepeats(s, genesis, q, reply, i - 1);
    }
  }

  method AdvanceHashReverse(hc: HeaderChain, hash: Hash, number: U64, q: Query, budget: U64)
      returns (h: Hash, n: U64, unknown: bool, left: U64)
    requires hc.Valid() && q.originHash != ZERO_HASH && q.reverse
    requires GetHeader(hc.headers, hash, number).Some?
    ensures unknown <==> number < q.skip + 1 || budget < Cost(hc.State(), hc.genesis, q, hash)
    ensures !unknown ==> GetHeader(hc.headers, h, n).Some? && Follows(hc.State(), hc.genesis, q, hash, h)
    ensures !unknown ==> left == budget - Cost(hc.State(), hc.genesis, q, hash)
  {
    assert LinkedAt(hc.headers, hc.genesis, hash);
    h, n, left := hash, number, budget;
    var ancestor := Add64(q.skip, 1);
    if ancestor == 0 {
      unknown := true;
    } else {
      h, n, left := hc.GetAncestor(hash, number, ancestor, budget);
      unknown := h == ZERO_HASH;
      assert ancestor == q.skip + 1;
      assert ancestor <= number ==> LinkedAt(hc.headers, hc.genesis, NthParent(hc.headers, hc.genesis, hash, ancestor));
    }
  }

  /** Walking down from a canonical block costs nothing and stays on the index. */
  lemma OffIndexOfCanonical(s: ChainState, genesis: Hash, k: nat, a: nat)
    requires Inv(s, genesis) && k in s.canon && a <= k
    ensures var h := s.canon[k];
            && h != ZERO_HASH
            && h in s.headers && s.headers[h].number == k
            && OffIndex(s, genesis, h, a) == 0
            && NthParent(s.headers, genesis, h, a) == ReadCanonicalHash(s.canon, k - a)
  {
    IndexEntry(s, genesis, k);
    IndexEntry(s, genesis, k - a);
    CanonicalJump(s.headers, genesis, s.head, s.canon[k], a);
  }

  method AncestorOfIndexed(hc: HeaderChain, k: U64, a: U64, budget: U64) returns (r: Hash, left: U64)
    requires hc.Valid() && k in hc.canon && a <= k
    ensures hc.canon[k] in hc.headers && hc.headers[hc.canon[k]].number == k
    ensures r == NthParent(hc.headers, hc.genesis, hc.canon[k], a) == ReadCanonicalHash(hc.canon, k - a)
    ensures left == budget
  {
    OffIndexOfCanonical(hc.State(), hc.genesis, k, a);
    var n: U64;
    r, n, left := hc.GetAncestor(hc.canon[k], k, a, budget);
  }

  method AdvanceHashForward(hc: HeaderChain, hash: Hash, number: U64, q: Query, budget: U64)
      returns (h: Hash, n: U64, unknown: bool, left: U64)
    requires hc.Valid() && q.originHash != ZERO_HASH && !q.reverse
    requires GetHeader(hc.headers, hash, number).Some?
    ensures unknown <==> NothingNext(hc.State(), q, hash) || ReadCanonicalHash(hc.canon, number) != hash
    ensures !unknown ==> GetHeader(hc.headers, h, n).Some? && Follows(hc.State(), hc.genesis, q, hash, h)
  {
    h, n, left, unknown := hash, number, budget, true;
    IndexEntry(hc.State(), hc.genesis, number + q.skip + 1);
    var next := Add64(Add64(number, q.skip), 1);
    if next <= number || next !in hc.canon {
      return;
    }
    assert next == number + q.skip + 1;
    var expOldHash, rest := AncestorOfIndexed(hc, next, Add64(q.skip, 1), budget);
    left := rest;
    if expOldHash == hash {
      h, n, unknown := hc.canon[next], next, false;
    }
  }

  method AdvanceNumber(number: U64, q: Query) returns (n: U64, unknown: bool)
    requires q.originHash == ZERO_HASH
    ensures unknown <==> q.reverse && number < Add64(q.skip, 1)
    ensures !unknown ==> n == if q.reverse then number - Add64(q.skip, 1) else Add64(number, Add64(q.skip, 1))
  {
    n, unknown := number, false;
    if q.reverse {
      if number >= Add64(q.skip, 1) {
        n := number - Add64(q.skip, 1);
      } else {
        unknown := true;
      }
    } else {
      n := Add64(number, Add64(q.skip, 1));
    }
  }

  /** The cursor (hash, number) names the header due after `reply`. */
  ghost predicate Cursor(s: ChainState, genesis: Hash, q: Query, reply: seq<Header>, hash: Hash, number: U64)
    requires Inv(s, genesis) && IsReply(s, genesis, q, reply)
  {
    if reply == [] then hash == q.originHash && number == q.originNumber
    else
      var last := reply[|reply| - 1].hash;
      if q.originHash != ZERO_HASH then GetHeader(s.headers, hash, number).Some? && Follows(s, genesis, q, last, hash)
      else if q.reverse then number == s.headers[last].number - Add64(q.skip, 1)
      else number == Add64(s.headers[last].number, Add64(q.skip, 1))
  }

  /** What is left of the budget after a reply. */
  ghost predicate Budget(s: ChainState, genesis: Hash, q: Query, reply: seq<Header>, left: U64)
    requires Inv(s, genesis)
  {
    q.originHash != ZERO_HASH && q.reverse ==> left + Spent(s, genesis, q, reply) == MAX_NON_CANONICAL
  }

  /** Reads the header under the cursor; `number` is corrected to the origin's when it was found by hash. */
  method Fetch(hc: HeaderChain, q: Query, ghost reply: seq<Header>, first: bool, hash: Hash, number: U64)
      returns (origin: Option<Header>, n: U64)
    requires hc.Valid() && IsReply(hc.State(), hc.genesis, q, reply)
    requires Cursor(hc.State(), hc.genesis, q, reply, hash, number) && first == (reply == [])
    ensures reply == [] ==> (origin.None? <==> !HasOrigin(hc.State(), q))
    ensures reply != [] && q.originHash != ZERO_HASH ==> origin.Some?
    ensures reply != [] && q.originHash == ZERO_HASH ==> (origin.None? <==> number !in hc.canon)
    ensures origin.Some? ==>
              && origin.value.hash in hc.headers && hc.headers[origin.value.hash] == origin.value
              && n == origin.value.number
              && (q.originHash != ZERO_HASH ==> origin.value.hash == hash)
              && IsReply(hc.State(), hc.genesis, q, reply + [origin.value])
  {
    origin, n := None, number;
    if q.originHash != ZERO_HASH {
      if hash in hc.headers {
        assert LinkedAt(hc.headers, hc.genesis, hash);
        if first {
          n := hc.headers[hash].number;
        }
        origin := GetHeader(hc.headers, hash, n);
      }
    } else if number in hc.canon {
      IndexEntry(hc.State(), hc.genesis, number);
      assert LinkedAt(hc.headers, hc.genesis, hc.canon[number]);
      origin := GetHeader(hc.headers, hc.canon[number], number);
    }
  }

  /** Moves the cursor past the last header of the reply; `budget` is what the steps so far left. */
  method Advance(hc: HeaderChain, q: Query, ghost reply: seq<Header>, hash: Hash, number: U64, budget: U64)
      returns (h: Hash, n: U64, unknown: bool, left: U64)
    requires hc.Valid() && IsReply(hc.State(), hc.genesis, q, reply)
    requires reply != [] && number == reply[|reply| - 1].number
    requires q.originHash != ZERO_HASH ==> hash == reply[|reply| - 1].hash
    requires Budget(hc.State(), hc.genesis, q, reply, budget)
    ensures unknown ==> Ends(hc.State(), hc.genesis, q, reply)
    ensures !unknown ==> Cursor(hc.State(), hc.genesis, q, reply, h, n)
    ensures !unknown ==> (Ends(hc.State(), hc.genesis, q, reply) <==> q.originHash == ZERO_HASH && n !in hc.canon)
    ensures !unknown ==> forall x :: Budget(hc.State(), hc.genesis, q, reply + [x], left)
  {
    ghost var last := reply[|reply| - 1].hash;
    assert LinkedAt(hc.headers, hc.genesis, last);
    h, left := hash, budget;
    if q.originHash != ZERO_HASH && q.reverse {
      h, n, unknown, left := AdvanceHashReverse(hc, hash, number, q, budget);
      forall x ensures Spent(hc.State(), hc.genesis, q, reply + [x]) ==
                       Spent(hc.State(), hc.genesis, q, reply) + Cost(hc.State(), hc.genesis, q, last) {
        assert (reply + [x])[..|reply|] == reply;
      }
    } else if q.originHash != ZERO_HASH {
      h, n, unknown, left := AdvanceHashForward(hc, hash, number, q, budget);
    } else {
      n, unknown := AdvanceNumber(number, q);
      IndexEntry(hc.State(), hc.genesis, n);
      IndexEntry(hc.State(), hc.genesis, number);
      IndexedReply(hc.State(), hc.genesis, q, reply, |reply| - 1);
    }
  }

  /** No proper beginning of the reply was an end. */
  ghost predicate NoEarlierEnd(s: ChainState, genesis: Hash, q: Query, reply: seq<Header>)
    requires Inv(s, genesis) && IsReply(s, genesis, q, reply)
  {
    forall k {:trigger reply[..k]} | 0 < k < |reply| :: !Ends(s, genesis, q, reply[..k])
  }

  lemma NoEarlierEndStep(s: ChainState, genesis: Hash, q: Query, reply: seq<Header>, x: Header)
    requires Inv(s, genesis) && IsReply(s, genesis, q, reply) && IsReply(s, genesis, q, reply + [x])
    requires NoEarlierEnd(s, genesis, q, reply) && (reply != [] ==> !Ends(s, genesis, q, reply))
    ensures NoEarlierEnd(s, genesis, q, reply + [x])
  {
    forall k | 0 < k < |reply + [x]| ensures !Ends(s, genesis, q, (reply + [x])[..k]) {
      assert (reply + [x])[..k] == reply[..k];
      assert reply[..|reply|] == reply;
    }
  }

  lemma WhyItEnds(s: ChainState, genesis: Hash, q: Query, reply: seq<Header>)
    requires Inv(s, genesis) && IsReply(s, genesis, q, reply) && reply != [] && Ends(s, genesis, q, reply)
    ensures var last := reply[|reply| - 1];
            if q.originHash == ZERO_HASH then !SomethingFollows(s, genesis, q, last.hash)
            else if q.reverse then
              last.number <= q.skip || Spent(s, genesis, q, reply) + Cost(s, genesis, q, last.hash) > 100
            else ReadCanonicalHash(s.canon, last.number) != last.hash || last.number + q.skip + 1 !in s.canon
  {
    var last := reply[|reply| - 1];
    assert s.headers[last.hash] == last;
    if q.originHash == ZERO_HASH {
      IndexedReply(s, genesis, q, reply, |reply| - 1);
      NothingFollows(s, genesis, q, last.hash);
    } else if !q.reverse {
      NothingAboveIndexed(s, genesis, q, last.hash);
    }
  }

  lemma WithinBudget(s: ChainState, genesis: Hash, q: Query, reply: seq<Header>)
    requires Inv(s, genesis) && IsReply(s, genesis, q, reply) && NoEarlierEnd(s, genesis, q, reply)
    ensures q.originHash != ZERO_HASH && q.reverse ==> Spent(s, genesis, q, reply) <= 100
  {
    if |reply| > 1 {
      assert !Ends(s, genesis, q, reply[..|reply| - 1]);
    }
  }

  /** Reads header after header until the reply is long enough or ends. */
  method GatherHeaders(hc: HeaderChain, q: Query) returns (reply: seq<Header>)
    requires hc.Valid()
    ensures IsReply(hc.State(), hc.genesis, q, reply)
    ensures |reply| <= Wanted(q)
    ensures reply == [] <==> Wanted(q) == 0 || !HasOrigin(hc.State(), q)
    ensures 0 < |reply| < Wanted(q) ==> Ends(hc.State(), hc.genesis, q, reply)
    ensures NoEarlierEnd(hc.State(), hc.genesis, q, reply)
  {
    reply := [];
    var hash, number, unknown, left, bytes := q.originHash, q.originNumber, false, MAX_NON_CANONICAL, 0;
    while !unknown && |reply| < Wanted(q) && bytes < SOFT_RESPONSE_LIMIT
      invariant |reply| <= Wanted(q) && bytes == |reply| * EST_HEADER_RLP_SIZE
      invariant IsReply(hc.State(), hc.genesis, q, reply) && NoEarlierEnd(hc.State(), hc.genesis, q, reply)
      invariant reply != [] ==> HasOrigin(hc.State(), q)
      invariant unknown ==> reply != [] && Ends(hc.State(), hc.genesis, q, reply)
      invariant !unknown ==> Cursor(hc.State(), hc.genesis, q, reply, hash, number)
      invariant !unknown && reply != [] ==>
                  (Ends(hc.State(), hc.genesis, q, reply) <==> q.originHash == ZERO_HASH && number !in hc.canon)
      invariant !unknown ==> forall x :: Budget(hc.State(), hc.genesis, q, reply + [x], left)
      decreases Wanted(q) - |reply|
    {
      var origin, n := Fetch(hc, q, reply, reply == [], hash, number);
      if origin.None? {
        break;
      }
      NoEarlierEndStep(hc.State(), hc.genesis, q, reply, origin.value);
      reply := reply + [origin.value];
      bytes := bytes + EST_HEADER_RLP_SIZE;
      hash, number, unknown, left := Advance(hc, q, reply, hash, n, left);
    }
  }

  /**
   The reply holds stored headers in the order of the query, never more than asked for or than the fetch limit;
   it is empty only when there is nothing to return, and it stops exactly at the first place where it must.
   */
  method AnswerHeaders(hc: HeaderChain, q: Query) returns (reply: seq<Header>)
    requires hc.Valid()
    ensures IsReply(hc.State(), hc.genesis, q, reply)
    ensures |reply| <= Wanted(q)
    ensures reply == [] <==> Wanted(q) == 0 || !HasOrigin(hc.State(), q)
    ensures 0 < |reply| < Wanted(q) ==> Ends(hc.State(), hc.genesis, q, reply)
    ensures NoEarlierEnd(hc.State(), hc.genesis, q, reply)
    ensures q.amount >= 0x8000_0000_0000_0000 ==> reply == []
    ensures |reply| <= 192 && |reply| <= q.amount
    ensures 0 < |reply| < 192 && |reply| < q.amount ==> Ends(hc.State(), hc.genesis, q, reply)
    ensures q.originHash != ZERO_HASH && q.reverse ==> Spent(hc.State(), hc.genesis, q, reply) <= 100
    ensures 0 < |reply| < 192 && |reply| < q.amount ==>
              var last := reply[|reply| - 1];
              if q.originHash == ZERO_HASH then !SomethingFollows(hc.State(), hc.genesis, q, last.hash)
              else if q.reverse then
                last.number <= q.skip
                || Spent(hc.State(), hc.genesis, q, reply) + Cost(hc.State(), hc.genesis, q, last.hash) > 100
              else ReadCanonicalHash(hc.canon, last.number) != last.hash || last.number + q.skip + 1 !in hc.canon
    ensures reply == [] && 0 < q.amount < 0x8000_0000_0000_0000 ==>
              if q.originHash != ZERO_HASH then q.originHash !in hc.headers else q.originNumber !in hc.canon
  {
    reply := GatherHeaders(hc, q);
    WithinBudget(hc.State(), hc.genesis, q, reply);
    if reply != [] && Ends(hc.State(), hc.genesis, q, reply) {
      WhyItEnds(hc.State(), hc.genesis, q, reply);
    }
  }
}
