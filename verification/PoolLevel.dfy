/**
 Trimming the executable lists is water-filling: one level for all remote accounts, each keeping its lowest
 nonces up to that level.
 */
module PoolLevels {
  import opened Basics
  import opened TxSortedMaps
  import opened PricedLists
  import opened PoolViews
  import opened PoolPromotions

  /** Full lengths, or lengths cut to a level for every account that is not local. */
  datatype Cut = Uncut | CutTo(level: nat, locals: set<Address>)

  function Share(lists: Accounts, cut: Cut, a: Address): nat {
    var n := |ListOf(lists, a)|;
    if cut.Uncut? || a in cut.locals || n <= cut.level then n else cut.level
  }

  ghost function Sum(lists: Accounts, cut: Cut, who: set<Address>): nat {
    if who == {} then 0
    else
      var a :| a in who;
      Share(lists, cut, a) + Sum(lists, cut, who - {a})
  }

  /** How many transactions a set of lists holds. */
  ghost function Size(lists: Accounts): nat {
    Sum(lists, Uncut, lists.Keys)
  }

  lemma {:induction false} SumAt(lists: Accounts, cut: Cut, who: set<Address>, a: Address)
    requires a in who
    ensures Sum(lists, cut, who) == Share(lists, cut, a) + Sum(lists, cut, who - {a})
  {
    var b :| b in who && Sum(lists, cut, who) == Share(lists, cut, b) + Sum(lists, cut, who - {b});
    if b != a {
      SumAt(lists, cut, who - {b}, a);
      SumAt(lists, cut, who - {a}, b);
      assert who - {b} - {a} == who - {a} - {b};
    }
  }

  lemma {:induction false} SumSame(lists: Accounts, cut: Cut, lists': Accounts, cut': Cut, who: set<Address>)
    requires forall a | a in who :: Share(lists, cut, a) == Share(lists', cut', a)
    ensures Sum(lists, cut, who) == Sum(lists', cut', who)
  {
    if who != {} {
      var a :| a in who;
      SumAt(lists, cut, who, a);
      SumAt(lists', cut', who, a);
      SumSame(lists, cut, lists', cut', who - {a});
    }
  }

  lemma SumUpdate(lists: Accounts, a: Address, items: Items)
    requires a in lists
    ensures Size(lists[a := items]) == Size(lists) - |lists[a]| + |items|
  {
    var who := lists.Keys;
    assert lists[a := items].Keys == who;
    SumAt(lists, Uncut, who, a);
    SumAt(lists[a := items], Uncut, who, a);
    SumSame(lists, Uncut, lists[a := items], Uncut, who - {a});
  }

  /** The remote accounts with more than `level` transactions. */
  function Longer(lists: Accounts, locals: set<Address>, level: nat): set<Address> {
    set a | a in lists && a !in locals && |lists[a]| > level
  }

  /** One level up costs one transaction for each account that reaches higher. */
  lemma {:induction false} LevelStep(lists: Accounts, locals: set<Address>, level: nat, who: set<Address>)
    requires who <= lists.Keys
    ensures Sum(lists, CutTo(level + 1, locals), who) ==
            Sum(lists, CutTo(level, locals), who) + |Longer(lists, locals, level) * who|
  {
    var longer := Longer(lists, locals, level);
    if who == {} {
      assert longer * who == {};
    } else {
      var a :| a in who;
      SumAt(lists, CutTo(level + 1, locals), who, a);
      SumAt(lists, CutTo(level, locals), who, a);
      LevelStep(lists, locals, level, who - {a});
      if a in longer {
        assert longer * who == longer * (who - {a}) + {a};
      } else {
        assert longer * who == longer * (who - {a});
      }
    }
  }

  method Count(lists: Accounts) returns (n: nat)
    ensures n == Size(lists)
  {
    n := 0;
    var todo := lists.Keys;
    while todo != {}
      invariant todo <= lists.Keys && n + Sum(lists, Uncut, todo) == Size(lists)
      decreases todo
    {
      var a :| a in todo;
      SumAt(lists, Uncut, todo, a);
      n, todo := n + |lists[a]|, todo - {a};
    }
  }

  /** The numbers from `lo` up to `hi` are `hi - lo` many. */
  lemma {:induction false} SpanSize(s: set<nat>, lo: nat, hi: nat)
    requires lo <= hi && forall n :: n in s <==> lo <= n < hi
    ensures |s| == hi - lo
  {
    if lo == hi {
      assert s == {};
    } else {
      SpanSize(s - {hi - 1}, lo, hi - 1);
      assert s == s - {hi - 1} + {hi - 1};
    }
  }

  lemma PendingSize(head: Head, a: Address, acct: Account)
    requires AccountOk(head, a, acct)
    ensures |acct.pending| == acct.next - StateNonce(head, a)
  {
    forall n ensures n in acct.pending.Keys <==> StateNonce(head, a) <= n < acct.next {
      if n in acct.pending || n >= 0 {
        assert SlotOk(head, a, acct, n);
      }
    }
    SpanSize(acct.pending.Keys, StateNonce(head, a), acct.next);
  }

  /** The account keeps its executable transactions up to `level` many. */
  ghost predicate AtLevel(head: Head, a: Address, acct: Account, level: nat, acct': Account) {
    && acct'.queued == acct.queued
    && Part(acct'.pending, acct.pending)
    && acct'.next == if acct.next <= StateNonce(head, a) + level then acct.next else StateNonce(head, a) + level
  }

  /** They are its lowest nonces. */
  lemma LevelIsLowest(head: Head, a: Address, acct: Account, level: nat, acct': Account)
    requires AccountOk(head, a, acct) && AccountOk(head, a, acct') && AtLevel(head, a, acct, level, acct')
    ensures IsLowest(acct'.pending, acct.pending, level)
  {
    PendingSize(head, a, acct);
    PendingSize(head, a, acct');
    PartIsOnly(acct'.pending, acct.pending);
    forall m, n | m in acct'.pending && n in acct.pending && n !in acct'.pending ensures Lower(m, n) {
      assert SlotOk(head, a, acct', m) && SlotOk(head, a, acct', n);
      assert SlotOk(head, a, acct, n);
    }
  }

  lemma PartIsOnly(part: Items, items: Items)
    requires Part(part, items)
    ensures part == Only(items, part.Keys)
  {
  }

  /** A level that is not exceeded changes nothing. */
  lemma LevelAbove(head: Head, a: Address, acct: Account, level: nat, acct': Account)
    requires AccountOk(head, a, acct) && AccountOk(head, a, acct') && |acct.pending| <= level
    ensures AtLevel(head, a, acct, level, acct') <==> acct' == acct
  {
    PendingSize(head, a, acct);
    if AtLevel(head, a, acct, level, acct') {
      forall n ensures n in acct'.pending <==> n in acct.pending {
        if n >= 0 {
          assert SlotOk(head, a, acct, n) && SlotOk(head, a, acct', n);
        }
      }
      assert acct'.pending == acct.pending;
    }
  }

  /** The level of an account in a round that has so far lowered `lower`. */
  function LevelOf(level: nat, lower: seq<Address>, a: Address): nat {
    if a in lower && level > 0 then level - 1 else level
  }

  ghost predicate AccountLeveled(head: Head, was: Pool, locals: set<Address>, level: nat, now: Pool, a: Address) {
    if a in locals then AccountOf(head, now, a) == AccountOf(head, was, a)
    else AtLevel(head, a, AccountOf(head, was, a), level, AccountOf(head, now, a))
  }

  ghost predicate LeveledBut(head: Head, was: Pool, locals: set<Address>, level: nat, lower: seq<Address>, now: Pool) {
    && now.pending.Keys == was.pending.Keys
    && forall a {:trigger AccountLeveled(head, was, locals, LevelOf(level, lower, a), now, a)} ::
         AccountLeveled(head, was, locals, LevelOf(level, lower, a), now, a)
  }

  /** Locals are untouched and every other account is cut to the level. */
  ghost predicate Leveled(head: Head, was: Pool, locals: set<Address>, level: nat, now: Pool) {
    && now.pending.Keys == was.pending.Keys
    && forall a {:trigger AccountLeveled(head, was, locals, level, now, a)} ::
         AccountLeveled(head, was, locals, level, now, a)
  }

  lemma RoundStarts(head: Head, was: Pool, locals: set<Address>, level: nat, now: Pool)
    requires Leveled(head, was, locals, level, now)
    ensures LeveledBut(head, was, locals, level, [], now)
  {
    forall a ensures AccountLeveled(head, was, locals, LevelOf(level, [], a), now, a) {
      assert AccountLeveled(head, was, locals, level, now, a);
    }
  }

  /** A level no remote account exceeds holds from the start. */
  lemma LevelHolds(head: Head, was: Pool, locals: set<Address>, level: nat)
    requires PoolOk(head, was) && Longer(was.pending, locals, level) == {}
    ensures Leveled(head, was, locals, level, was)
    ensures Sum(was.pending, CutTo(level + 1, locals), was.pending.Keys) == Size(was.pending)
  {
    forall a ensures AccountLeveled(head, was, locals, level, was, a) {
      var acct := AccountOf(head, was, a);
      assert AccountOk(head, a, acct);
      assert a !in locals ==> a !in Longer(was.pending, locals, level);
      if a !in locals {
        LevelAbove(head, a, acct, level, acct);
      }
    }
    forall a | a in was.pending
      ensures Share(was.pending, CutTo(level + 1, locals), a) == Share(was.pending, Uncut, a)
    {
      assert a !in Longer(was.pending, locals, level);
    }
    SumSame(was.pending, CutTo(level + 1, locals), was.pending, Uncut, was.pending.Keys);
  }

  /** At a level the lists hold what the level allows. */
  lemma LeveledSize(head: Head, was: Pool, locals: set<Address>, level: nat, now: Pool)
    requires PoolOk(head, was) && PoolOk(head, now) && Leveled(head, was, locals, level, now)
    ensures Size(now.pending) == Sum(was.pending, CutTo(level, locals), was.pending.Keys)
  {
    forall a | a in was.pending ensures Share(now.pending, Uncut, a) == Share(was.pending, CutTo(level, locals), a) {
      assert AccountLeveled(head, was, locals, level, now, a);
      LeveledLength(head, was, locals, level, now, a);
    }
    SumSame(now.pending, Uncut, was.pending, CutTo(level, locals), was.pending.Keys);
  }

  lemma LeveledLength(head: Head, was: Pool, locals: set<Address>, level: nat, now: Pool, a: Address)
    requires PoolOk(head, was) && PoolOk(head, now) && AccountLeveled(head, was, locals, level, now, a)
    ensures |ListOf(now.pending, a)| == Share(was.pending, CutTo(level, locals), a)
  {
    var acct, acct' := AccountOf(head, was, a), AccountOf(head, now, a);
    assert AccountOk(head, a, acct) && AccountOk(head, a, acct');
    PendingSize(head, a, acct);
    PendingSize(head, a, acct');
  }

  /** Losing the highest executable nonce. */
  ghost function Trimmed(acct: Account): Account {
    if acct.next == 0 then acct else Account(acct.pending - {acct.next - 1}, acct.queued, acct.next - 1)
  }

  lemma TrimmedOk(head: Head, a: Address, acct: Account)
    requires AccountOk(head, a, acct) && acct.pending != map[]
    ensures StateNonce(head, a) < acct.next && acct.next - 1 in acct.pending && AccountOk(head, a, Trimmed(acct))
    ensures forall t :: Contains(Trimmed(acct), t) <==> Contains(acct, t) && t != acct.pending[acct.next - 1]
  {
    var n :| n in acct.pending;
    assert SlotOk(head, a, acct, n);
    assert SlotOk(head, a, acct, acct.next - 1);
    forall n: nat ensures SlotOk(head, a, Trimmed(acct), n) {
      assert SlotOk(head, a, acct, n);
    }
  }

  /** Leaving out one nonce that is above all others leaves out the highest. */
  lemma HighestGoes(items: Items, top: nat, kept: Items, t: Tx)
    requires Keyed(items) && top in items && (forall n | n in items :: n <= top) && Part(kept, items)
    requires forall u :: u == t <==> Holds(items, u) && u.nonce !in kept
    requires forall n | n in kept :: n < t.nonce
    ensures t == items[top] && kept == items - {top}
  {
    assert Holds(items, items[top]) && Holds(items, t);
    assert top == t.nonce;
    forall n | n in items && n != top ensures n in kept {
      assert Holds(items, items[n]);
    }
  }

  /** Capping a list at one less than its length takes out exactly the highest nonce. */
  lemma CapLast(head: Head, a: Address, acct: Account, k: nat, kept: Items, drops: seq<Tx>)
    requires AccountOk(head, a, acct) && |acct.pending| == k + 1
    requires IsLowest(kept, acct.pending, k) && LeftOut(acct.pending, kept, drops)
    ensures acct.next > 0 && acct.next - 1 in acct.pending && drops == [acct.pending[acct.next - 1]]
    ensures kept == acct.pending - {acct.next - 1}
  {
    assert acct.pending != map[];
    TrimmedOk(head, a, acct);
    PendingBelow(head, a, acct);
    LowestIsPart(acct.pending, k, kept);
    OneLeftOut(acct.pending, kept, drops);
    HighestGoes(acct.pending, acct.next - 1, kept, drops[0]);
  }

  method TakeLast(list: Items, ghost head: Head, ghost a: Address, ghost acct: Account) returns (kept: Items, tx: Tx)
    requires AccountOk(head, a, acct) && list == acct.pending && |list| >= 2
    ensures 0 < acct.next && acct.next - 1 in list && tx == list[acct.next - 1] && tx.nonce == acct.next - 1
    ensures kept == list - {acct.next - 1} && |kept| == |list| - 1 && kept != map[]
  {
    var index := IndexOf(list);
    var drops, index', cache;
    kept, drops, index', cache := CapItems(list, index, None, |list| - 1);
    CapLast(head, a, acct, |list| - 1, kept, drops);
    tx := drops[0];
  }

  lemma OneLeftOut(items: Items, kept: Items, drops: seq<Tx>)
    requires LeftOut(items, kept, drops) && |items| == |kept| + 1
    requires forall a, b {:trigger Lower(a, b)} | a in kept && b in items && b !in kept :: Lower(a, b)
    ensures |drops| == 1 && forall u :: u == drops[0] <==> Holds(items, u) && u.nonce !in kept
    ensures forall n | n in kept :: n < drops[0].nonce
  {
    assert |drops| == 1;
    forall u ensures u == drops[0] <==> u in drops {
    }
    assert drops[0] in drops;
    forall n | n in kept ensures n < drops[0].nonce {
      assert Lower(n, drops[0].nonce);
    }
  }

  lemma TrimLevels(head: Head, was: Pool, locals: set<Address>, level: nat, lower: seq<Address>, now: Pool,
      a: Address, now': Pool)
    requires PoolOk(head, was) && level >= 2 && a !in lower && a !in locals && |ListOf(was.pending, a)| >= level
    requires LeveledBut(head, was, locals, level, lower, now)
    requires Updated(head, now, a, Trimmed(AccountOf(head, now, a)), now') && now'.pending.Keys == now.pending.Keys
    ensures LeveledBut(head, was, locals, level, lower + [a], now')
  {
    assert AccountOf(head, now', a) == Trimmed(AccountOf(head, now, a));
    assert AccountLeveled(head, was, locals, LevelOf(level, lower, a), now, a);
    assert AccountOk(head, a, AccountOf(head, was, a));
    TrimOne(head, a, AccountOf(head, was, a), level, AccountOf(head, now, a));
    forall b ensures AccountLeveled(head, was, locals, LevelOf(level, lower + [a], b), now', b) {
      if b != a {
        UpdatedAccount(head, now, a, Trimmed(AccountOf(head, now, a)), now', b);
        assert AccountLeveled(head, was, locals, LevelOf(level, lower, b), now, b);
        assert LevelOf(level, lower + [a], b) == LevelOf(level, lower, b);
      }
    }
  }

  lemma TrimOne(head: Head, a: Address, acct: Account, level: nat, acct': Account)
    requires AccountOk(head, a, acct) && |acct.pending| >= level >= 2 && AtLevel(head, a, acct, level, acct')
    ensures AtLevel(head, a, acct, level - 1, Trimmed(acct'))
  {
    PendingSize(head, a, acct);
  }

  /** When every account above the new level was lowered, the round is complete. */
  lemma RoundEnds(head: Head, was: Pool, locals: set<Address>, level: nat, next: nat, lower: seq<Address>, now: Pool)
    requires PoolOk(head, was) && PoolOk(head, now) && next + 1 == level
    requires LeveledBut(head, was, locals, level, lower, now)
    requires OthersWithin(was.pending, locals, lower, next)
    ensures Leveled(head, was, locals, next, now)
  {
    forall a ensures AccountLeveled(head, was, locals, next, now, a) {
      assert AccountLeveled(head, was, locals, LevelOf(level, lower, a), now, a);
      if a !in locals && a !in lower {
        var acct, acct' := AccountOf(head, was, a), AccountOf(head, now, a);
        assert AccountOk(head, a, acct) && AccountOk(head, a, acct');
        LevelAbove(head, a, acct, next, acct');
        LevelAbove(head, a, acct, level, acct');
      }
    }
  }

  // The offenders.

  ghost predicate Offender(lists: Accounts, locals: set<Address>, level: nat, a: Address) {
    a in lists && a !in locals && |lists[a]| >= level
  }

  ghost predicate Apart(s: seq<Address>, i: nat, j: nat)
    requires i < j < |s|
  {
    s[i] != s[j]
  }

  /** Remote accounts, each named once, that all reach the level. */
  ghost predicate Offending(lists: Accounts, locals: set<Address>, offenders: seq<Address>, level: nat) {
    && (forall i: nat, j: nat {:trigger Apart(offenders, i, j)} | i < j < |offenders| :: Apart(offenders, i, j))
    && (forall i: nat {:trigger Offender(lists, locals, level, offenders[i])} | i < |offenders| ::
          Offender(lists, locals, level, offenders[i]))
  }

  lemma OffendingAt(lists: Accounts, locals: set<Address>, offenders: seq<Address>, level: nat, i: nat)
    requires Offending(lists, locals, offenders, level) && i < |offenders|
    ensures Offender(lists, locals, level, offenders[i]) && offenders[i] !in offenders[..i]
  {
    assert Offender(lists, locals, level, offenders[i]);
    forall k: nat | k < i ensures offenders[k] != offenders[i] {
      assert Apart(offenders, k, i);
    }
  }

  lemma OffendingLower(lists: Accounts, locals: set<Address>, offenders: seq<Address>, level: nat, next: nat)
    requires Offending(lists, locals, offenders, level) && next <= level
    ensures Offending(lists, locals, offenders, next)
  {
    forall i: nat | i < |offenders| ensures Offender(lists, locals, next, offenders[i]) {
      assert Offender(lists, locals, level, offenders[i]);
    }
  }

  lemma OffendingMore(lists: Accounts, locals: set<Address>, offenders: seq<Address>, level: nat, a: Address)
    requires Offending(lists, locals, offenders, level) && Offender(lists, locals, level, a) && a !in offenders
    ensures Offending(lists, locals, offenders + [a], level)
  {
    var more := offenders + [a];
    forall i: nat | i < |more| ensures Offender(lists, locals, level, more[i]) {
      assert i < |offenders| ==> Offender(lists, locals, level, offenders[i]);
    }
    forall i: nat, j: nat | i < j < |more| ensures Apart(more, i, j) {
      assert j < |offenders| ==> Apart(offenders, i, j);
    }
  }

  /** No remote account outside `offenders` has more than `floor`. */
  ghost predicate OthersWithin(lists: Accounts, locals: set<Address>, offenders: seq<Address>, floor: nat) {
    forall a | a in lists && a !in locals && a !in offenders :: |lists[a]| <= floor
  }

  /** One level higher the remote accounts together would not fit. */
  ghost predicate NoSlack(lists: Accounts, locals: set<Address>, level: nat, slots: nat) {
    Sum(lists, CutTo(level + 1, locals), lists.Keys) > slots
  }

  /** The outcome: the highest level that fits, but never below the guaranteed slots of an account. */
  ghost predicate WaterFilled(head: Head, was: Pool, locals: set<Address>, accountSlots: nat, globalSlots: nat,
      level: nat, now: Pool) {
    && level >= accountSlots
    && Leveled(head, was, locals, level, now)
    && NoSlack(was.pending, locals, level, globalSlots)
    && (Size(now.pending) <= globalSlots || level == accountSlots)
  }

  /** The last round takes the total below the limit by less than the number of accounts it cut. */
  lemma Undershoot(head: Head, was: Pool, locals: set<Address>, accountSlots: nat, globalSlots: nat, level: nat,
      now: Pool)
    requires PoolOk(head, was) && PoolOk(head, now)
    requires WaterFilled(head, was, locals, accountSlots, globalSlots, level, now)
    ensures Size(now.pending) + |Longer(was.pending, locals, level)| > globalSlots
  {
    LevelStep(was.pending, locals, level, was.pending.Keys);
    assert Longer(was.pending, locals, level) * was.pending.Keys == Longer(was.pending, locals, level);
    LeveledSize(head, was, locals, level, now);
  }

  /** The offenders stand at the level, and the level is not too low. */
  ghost predicate Lowering(head: Head, was: Pool, locals: set<Address>, offenders: seq<Address>, level: nat,
      slots: nat, now: Pool, total: nat) {
    && Leveled(head, was, locals, level, now) && Offending(was.pending, locals, offenders, level)
    && NoSlack(was.pending, locals, level, slots) && total == Size(now.pending)
  }

  lemma LoweredOnce(head: Head, was: Pool, locals: set<Address>, offenders: seq<Address>, level: nat, next: nat,
      slots: nat, now: Pool, total: nat, now': Pool, left: nat)
    requires PoolOk(head, was) && PoolOk(head, now) && PoolOk(head, now') && next + 1 == level && slots < total
    requires left == Size(now'.pending)
    requires Lowering(head, was, locals, offenders, level, slots, now, total)
    requires OthersWithin(was.pending, locals, offenders, next)
    requires LeveledBut(head, was, locals, level, offenders[..|offenders|], now')
    ensures Lowering(head, was, locals, offenders, next, slots, now', left)
    ensures forall a | a in offenders :: a in now'.pending && |now'.pending[a]| == next
  {
    assert NoSlack(was.pending, locals, next, slots) by {
      LeveledSize(head, was, locals, level, now);
      assert CutTo(next + 1, locals) == CutTo(level, locals);
    }
    assert offenders[..|offenders|] == offenders;
    OffendingLower(was.pending, locals, offenders, level, next);
    RoundEnds(head, was, locals, level, next, offenders, now');
    OffendersAtLevel(head, was, locals, offenders, next, slots, now', left);
  }

  /** Of accounts that reach the level, each has exactly that many left. */
  lemma OffendersAtLevel(head: Head, was: Pool, locals: set<Address>, offenders: seq<Address>, level: nat,
      slots: nat, now: Pool, total: nat)
    requires PoolOk(head, was) && PoolOk(head, now) && Lowering(head, was, locals, offenders, level, slots, now, total)
    ensures forall a | a in offenders :: a in now.pending && |now.pending[a]| == level
  {
    RoundStarts(head, was, locals, level, now);
    forall i: nat | i < |offenders| ensures offenders[i] in now.pending && |now.pending[offenders[i]]| == level {
      OffendingAt(was.pending, locals, offenders, level, i);
      OffenderLength(head, was, locals, level, [], now, offenders[i]);
    }
  }

  lemma OffenderLength(head: Head, was: Pool, locals: set<Address>, level: nat, lower: seq<Address>, now: Pool,
      a: Address)
    requires PoolOk(head, was) && PoolOk(head, now) && a !in lower
    requires Offender(was.pending, locals, level, a) && LeveledBut(head, was, locals, level, lower, now)
    ensures a in now.pending && |now.pending[a]| == level
  {
    assert AccountLeveled(head, was, locals, LevelOf(level, lower, a), now, a);
    LeveledLength(head, was, locals, level, now, a);
  }

  ghost predicate NoneLonger(lists: Accounts, s: set<Address>, a: Address) {
    forall b | b in s :: Share(lists, Uncut, b) <= Share(lists, Uncut, a)
  }

  lemma NextInRound(head: Head, was: Pool, locals: set<Address>, offenders: seq<Address>, level: nat, i: nat, now: Pool)
    requires PoolOk(head, was) && PoolOk(head, now) && i < |offenders|
    requires Offending(was.pending, locals, offenders, level)
    requires LeveledBut(head, was, locals, level, offenders[..i], now)
    ensures offenders[i] in now.pending && |now.pending[offenders[i]]| == level
  {
    OffendingAt(was.pending, locals, offenders, level, i);
    OffenderLength(head, was, locals, level, offenders[..i], now, offenders[i]);
  }

  lemma DoneInRound(head: Head, was: Pool, locals: set<Address>, offenders: seq<Address>, level: nat, i: nat,
      now: Pool, now': Pool)
    requires PoolOk(head, was) && level >= 2 && i < |offenders|
    requires Offending(was.pending, locals, offenders, level)
    requires LeveledBut(head, was, locals, level, offenders[..i], now)
    requires Updated(head, now, offenders[i], Trimmed(AccountOf(head, now, offenders[i])), now')
    requires now'.pending.Keys == now.pending.Keys
    ensures LeveledBut(head, was, locals, level, offenders[..i + 1], now')
  {
    assert offenders[..i + 1] == offenders[..i] + [offenders[i]];
    OffendingAt(was.pending, locals, offenders, level, i);
    TrimLevels(head, was, locals, level, offenders[..i], now, offenders[i], now');
  }

  lemma {:induction false} LargestExists(lists: Accounts, s: set<Address>) returns (a: Address)
    requires s != {}
    ensures a in s && NoneLonger(lists, s, a)
  {
    a :| a in s;
    var rest := s - {a};
    assert forall b | b in s :: b == a || b in rest;
    if rest != {} {
      var c := LargestExists(lists, rest);
      if Share(lists, Uncut, a) < Share(lists, Uncut, c) {
        a := c;
      }
    }
  }

  /** Any of the longest lists. */
  method PopLongest(lists: Accounts, s: set<Address>) returns (a: Address)
    requires s != {}
    ensures a in s && NoneLonger(lists, s, a)
  {
    ghost var witness' := LargestExists(lists, s);
    a :| a in s && forall b | b in s :: Share(lists, Uncut, b) <= Share(lists, Uncut, a);
  }

  /** Accounts over their slots are offenders already or still to come, and those to come are within the level. */
  ghost predicate Popped(lists: Accounts, locals: set<Address>, accountSlots: nat, offenders: seq<Address>,
      spammers: set<Address>, level: nat) {
    && spammers <= Longer(lists, locals, accountSlots)
    && (forall a | a in Longer(lists, locals, accountSlots) :: a in offenders || a in spammers)
    && (forall a | a in offenders :: a !in spammers)
    && (forall a | a in spammers :: |lists[a]| <= level)
  }

  /** Where trimming stands between two offenders. */
  ghost predicate Spilling(head: Head, was: Pool, locals: set<Address>, accountSlots: nat, globalSlots: nat,
      offenders: seq<Address>, spammers: set<Address>, level: nat, now: Pool, total: nat) {
    && total == Size(now.pending) && Offending(was.pending, locals, offenders, 0)
    && if offenders == []
       then now == was && total > globalSlots && spammers == Longer(was.pending, locals, accountSlots)
       else
         && level > accountSlots && Popped(was.pending, locals, accountSlots, offenders, spammers, level)
         && Leveled(head, was, locals, level, now) && NoSlack(was.pending, locals, level, globalSlots)
         && (total > globalSlots ==> Offending(was.pending, locals, offenders, level))
  }

  /** Lists still to come are untouched. */
  lemma SpammerSame(head: Head, was: Pool, locals: set<Address>, accountSlots: nat, globalSlots: nat,
      offenders: seq<Address>, spammers: set<Address>, level: nat, now: Pool, total: nat, a: Address)
    requires PoolOk(head, was) && PoolOk(head, now)
    requires Spilling(head, was, locals, accountSlots, globalSlots, offenders, spammers, level, now, total)
    requires a in spammers
    ensures a in was.pending && a in now.pending && now.pending[a] == was.pending[a]
    ensures |was.pending[a]| > accountSlots && a !in locals
  {
    assert a in Longer(was.pending, locals, accountSlots);
    if offenders != [] {
      assert AccountLeveled(head, was, locals, level, now, a);
      assert AccountOk(head, a, AccountOf(head, was, a)) && AccountOk(head, a, AccountOf(head, now, a));
      LevelAbove(head, a, AccountOf(head, was, a), level, AccountOf(head, now, a));
    }
  }

  /** A longest list now is a longest list from the start. */
  lemma LongestStill(head: Head, was: Pool, locals: set<Address>, accountSlots: nat, globalSlots: nat,
      offenders: seq<Address>, spammers: set<Address>, level: nat, now: Pool, total: nat, a: Address)
    requires PoolOk(head, was) && PoolOk(head, now)
    requires Spilling(head, was, locals, accountSlots, globalSlots, offenders, spammers, level, now, total)
    requires a in spammers && NoneLonger(now.pending, spammers, a)
    ensures Largest(was.pending, spammers, a) && a in now.pending && |now.pending[a]| == |was.pending[a]|
  {
    forall b | b in spammers ensures b in was.pending && |ListOf(was.pending, b)| == Share(now.pending, Uncut, b) {
      SpammerSame(head, was, locals, accountSlots, globalSlots, offenders, spammers, level, now, total, b);
    }
  }

  ghost predicate Largest(lists: Accounts, s: set<Address>, a: Address) {
    a in s && a in lists && forall b | b in s :: b in lists && |lists[b]| <= |lists[a]|
  }

  /** The first offender sets the level. */
  lemma FirstOffender(head: Head, was: Pool, locals: set<Address>, accountSlots: nat, globalSlots: nat,
      spammers: set<Address>, level: nat, total: nat, a: Address)
    requires PoolOk(head, was)
    requires Spilling(head, was, locals, accountSlots, globalSlots, [], spammers, level, was, total)
    requires Largest(was.pending, spammers, a)
    ensures Spilling(head, was, locals, accountSlots, globalSlots, [a], spammers - {a}, |was.pending[a]|, was, total)
  {
    var top := |was.pending[a]|;
    assert a in Longer(was.pending, locals, accountSlots);
    assert Longer(was.pending, locals, top) == {} by {
      forall b | b in was.pending && b !in locals ensures |was.pending[b]| <= top {
        assert |was.pending[b]| > accountSlots ==> b in spammers;
      }
    }
    LevelHolds(head, was, locals, top);
  }

  /** Before a further offender counts, the earlier ones come down to it. */
  lemma NextOffender(head: Head, was: Pool, locals: set<Address>, accountSlots: nat, globalSlots: nat,
      offenders: seq<Address>, spammers: set<Address>, level: nat, now: Pool, total: nat, a: Address)
    requires Spilling(head, was, locals, accountSlots, globalSlots, offenders, spammers, level, now, total)
    requires offenders != []
    requires total > globalSlots && Largest(was.pending, spammers, a)
    ensures accountSlots < |was.pending[a]| <= level
    ensures Lowering(head, was, locals, offenders, level, globalSlots, now, total)
    ensures OthersWithin(was.pending, locals, offenders, |was.pending[a]|)
  {
    assert a in Longer(was.pending, locals, accountSlots);
    forall b | b in was.pending && b !in locals && b !in offenders ensures |was.pending[b]| <= |was.pending[a]| {
      assert |was.pending[b]| > accountSlots ==> b in Longer(was.pending, locals, accountSlots);
    }
  }

  lemma OffenderJoins(head: Head, was: Pool, locals: set<Address>, accountSlots: nat, globalSlots: nat,
      offenders: seq<Address>, spammers: set<Address>, level: nat, now: Pool, total: nat, a: Address, level': nat,
      now': Pool, left: nat)
    requires Spilling(head, was, locals, accountSlots, globalSlots, offenders, spammers, level, now, total)
    requires offenders != []
    requires Largest(was.pending, spammers, a) && accountSlots < |was.pending[a]| <= level' <= level
    requires Lowering(head, was, locals, offenders, level', globalSlots, now', left)
    requires left <= globalSlots || level' == |was.pending[a]|
    ensures Spilling(head, was, locals, accountSlots, globalSlots, offenders + [a], spammers - {a}, level', now', left)
  {
    assert a in Longer(was.pending, locals, accountSlots);
    assert a !in offenders;
    assert Popped(was.pending, locals, accountSlots, offenders + [a], spammers - {a}, level');
    OffendingMore(was.pending, locals, offenders, 0, a);
    if left > globalSlots {
      OffendingMore(was.pending, locals, offenders, level', a);
    }
  }

  /** Once no offender is left to come, only the offenders exceed their slots. */
  lemma NoneToCome(head: Head, was: Pool, locals: set<Address>, accountSlots: nat, globalSlots: nat,
      offenders: seq<Address>, level: nat, now: Pool, total: nat)
    requires Spilling(head, was, locals, accountSlots, globalSlots, offenders, {}, level, now, total)
    requires offenders != [] && total > globalSlots
    ensures Lowering(head, was, locals, offenders, level, globalSlots, now, total) && accountSlots < level
    ensures OthersWithin(was.pending, locals, offenders, accountSlots)
  {
    forall b | b in was.pending && b !in locals && b !in offenders ensures |was.pending[b]| <= accountSlots {
      assert |was.pending[b]| > accountSlots ==> b in Longer(was.pending, locals, accountSlots);
    }
  }
}
