/**
 The transaction pool under one chain head: the same transactions kept per account, by hash and by price.
 */
module TxPools {
  import opened Basics
  import opened TxSortedMaps
  import opened TxLists
  import opened PricedLists
  import opened PoolViews
  import opened PoolPromotions
  import opened PoolLevels
  import opened PoolQueues
  import opened PoolSizes
  import opened PoolEvictions
  import StateTransitions

  datatype PoolConfig = PoolConfig(
    priceBump: nat,
    accountSlots: nat,
    globalSlots: nat,
    accountQueue: nat,
    globalQueue: nat,
    isSmilo: bool,
    isGas: bool,
    sizeLimit: nat,
    requiredMinFunds: int)

  datatype PoolError =
    | ErrKnownTransaction
    | ErrInvalidGasPrice
    | ErrOversizedData
    | ErrNegativeValue
    | ErrGasLimit
    | ErrInvalidSender
    | ErrUnderpriced
    | ErrNonceTooLow
    | ErrEtherValueUnsupported
    | ErrInsufficientFunds
    | ErrInsufficientMinFunds
    | ErrInsufficientSmiloPay
    | ErrOutOfGas
    | ErrIntrinsicGas
    | ErrReplaceUnderpriced

  const DEFAULT_SIZE_LIMIT: nat := 32

  /** The size limit in bytes; it is configured in kilobytes, zero standing for the default. */
  function SizeLimit(cfg: PoolConfig): nat {
    1024 * if cfg.sizeLimit == 0 then DEFAULT_SIZE_LIMIT else cfg.sizeLimit
  }

  /** The funds every sender must hold, configured in hundredths of a coin. */
  function MinFunds(cfg: PoolConfig): int {
    cfg.requiredMinFunds * 10_000_000_000_000_000
  }

  function Value(tx: Tx): int {
    tx.cost - tx.price * tx.gas
  }

  /** The order in which the admission rules are looked at. */
  function Rank(rule: PoolError): nat {
    match rule
    case ErrKnownTransaction => 0
    case ErrInvalidGasPrice => 1
    case ErrOversizedData => 2
    case ErrNegativeValue => 3
    case ErrGasLimit => 4
    case ErrInvalidSender => 5
    case ErrUnderpriced => 6
    case ErrNonceTooLow => 7
    case ErrEtherValueUnsupported => 8
    case ErrInsufficientFunds => 9
    case ErrInsufficientMinFunds => 10
    case ErrInsufficientSmiloPay => 11
    case ErrOutOfGas => 12
    case ErrIntrinsicGas => 13
    case ErrReplaceUnderpriced => 14
  }

  /** Loading the configuration replaces every zero limit by its default. */
  ghost predicate Sanitized(cfg: PoolConfig) {
    cfg.priceBump > 0 && cfg.accountSlots > 0 && cfg.globalSlots > 0 && cfg.accountQueue > 0 && cfg.globalQueue > 0
  }

  /** What the pool is asked to do under one chain head. */
  datatype Op =
    | AddTx(tx: Tx, local: bool)
    | Remove(hash: TxHash)
    | Promote(accounts: seq<Address>, now: nat)
    | TrimPending
    | TrimQueue
    | Reorg(accounts: seq<Address>, now: nat)
    | Reprice(price: nat)

  class TxPool {
    const cfg: PoolConfig
    const head: Head
    const all: TxLookup
    const priced: TxPricedList
    var gasPrice: nat
    var locals: set<Address>
    var pending: Accounts
    var queue: Accounts
    var nonces: map<Address, nat>
    var beats: map<Address, nat>

    ghost function View(): Pool
      reads this
    {
      Pool(pending, queue, nonces)
    }

    /** The accounts are in order and the lookup holds exactly what they hold. */
    ghost predicate Consistent()
      reads this, all
    {
      Sanitized(cfg) && priced.all == all && PoolOk(head, View()) && LookupExact(head, View(), all.all)
    }

    /** What holds between operations: consistent, and the price heap covers every transaction. */
    ghost predicate Valid()
      reads this, all, priced
    {
      Consistent() && priced.Valid()
    }

    /** Within the limit, unless at most one transaction is remote. */
    ghost predicate Bounded()
      reads this, all
    {
      Fits(all.all, locals, cfg.globalSlots + cfg.globalQueue)
    }

    constructor (cfg: PoolConfig, head: Head, gasPrice: nat, locals: set<Address>)
      requires Sanitized(cfg)
      ensures Valid() && Bounded() && this.cfg == cfg && this.head == head
      ensures View() == Pool(map[], map[], map[]) && all.all == map[] && this.gasPrice == gasPrice
      ensures this.locals == locals
      ensures fresh(all) && fresh(priced)
    {
      this.cfg, this.head, this.gasPrice, this.locals := cfg, head, gasPrice, locals;
      pending, queue, nonces, beats := map[], map[], map[], map[];
      var lookup := new TxLookup();
      all := lookup;
      priced := new TxPricedList(lookup);
    }

    /** In the lookup and the price heap, a transaction takes the place of the one it replaces in a list. */
    method Exchange(list: Items, tx: Tx, ghost except: seq<Tx>)
      requires priced.all == all && priced.CoversExcept(except)
      modifies all, priced
      ensures priced.CoversExcept(except)
      ensures all.all == WithoutReplaced(old(all.all), list, tx)[HashOf(tx) := tx]
    {
      if tx.nonce in list {
        all.Remove(HashOf(list[tx.nonce]));
        priced.Removed(1, except);
      }
      if HashOf(tx) !in all.all {
        all.Add(tx);
        priced.Put(tx, except);
      }
    }

    /** Queues a transaction unless the queue already holds one with its nonce that is not cheaper enough. */
    method EnqueueTx(tx: Tx, ghost except: seq<Tx>) returns (replaced: bool, ok: bool)
      requires priced.all == all && priced.CoversExcept(except)
      modifies this`queue, all, priced
      ensures priced.CoversExcept(except)
      ensures ok == Accepts(ListOf(old(queue), tx.sender), tx, cfg.priceBump)
      ensures replaced == (ok && tx.nonce in ListOf(old(queue), tx.sender))
      ensures !ok ==> queue == old(queue) && all.all == old(all.all)
      ensures ok ==> queue == old(queue)[tx.sender := ListOf(old(queue), tx.sender)[tx.nonce := tx]]
      ensures ok ==> all.all == WithoutReplaced(old(all.all), ListOf(old(queue), tx.sender), tx)[HashOf(tx) := tx]
    {
      var list := ListOf(queue, tx.sender);
      ok := Accepts(list, tx, cfg.priceBump);
      replaced := false;
      if ok {
        replaced := tx.nonce in list;
        queue := queue[tx.sender := list[tx.nonce := tx]];
        Exchange(list, tx, except);
      }
    }

    /** Moves transactions back to the queue one by one; their nonces are free there and they stay known. */
    method EnqueueAll(txs: seq<Tx>, ghost a: Address, ghost src: Items, ghost except: seq<Tx>)
      requires priced.all == all && priced.CoversExcept(except) && NoEmptyList(queue)
      requires Requeueable(txs, a, src, ListOf(queue, a), all.all)
      modifies this`queue, all, priced
      ensures priced.CoversExcept(except) && all.all == old(all.all)
      ensures queue == WithList(old(queue), a, ListOf(old(queue), a) + Only(src, SetOf(Nonces(txs))))
    {
      ghost var base := ListOf(queue, a);
      EnqueueNone(queue, a, src);
      for i := 0 to |txs|
        invariant priced.CoversExcept(except) && all.all == old(all.all)
        invariant queue == WithList(old(queue), a, base + Only(src, SetOf(Nonces(txs[..i]))))
      {
        EnqueueOne(old(queue), queue, a, base, src, txs, i);
        var replaced, ok := EnqueueTx(txs[i], except);
        assert LookupOk(old(all.all));
      }
      assert txs[..|txs|] == txs;
    }

    /** Lowers an account's virtual nonce, remembering the head's if it was not tracked yet. */
    method SetIfLower(a: Address, nonce: nat)
      modifies this`nonces
      ensures Lowered(head, old(nonces), a, nonce, nonces)
    {
      if a !in nonces {
        nonces := nonces[a := StateNonce(head, a)];
      }
      if nonces[a] > nonce {
        nonces := nonces[a := nonce];
      }
    }

    method RemovePending(tx: Tx, ghost except: seq<Tx>)
      requires priced.all == all && priced.CoversExcept(except) && NoEmptyList(queue)
      requires AccountOk(head, tx.sender, AccountOf(head, View(), tx.sender))
      requires tx.sender in pending && tx.nonce in pending[tx.sender]
      requires OthersLive(pending[tx.sender], tx.nonce, all.all)
      modifies this`pending, this`queue, this`nonces, this`beats, all, priced
      ensures priced.CoversExcept(except) && all.all == old(all.all)
      ensures Updated(head, old(View()), tx.sender,
                      AcctRemove(AccountOf(head, old(View()), tx.sender), tx.nonce), View())
      ensures beats == if tx.sender in pending then old(beats) else old(beats) - {tx.sender}
    {
      ghost var acct := AccountOf(head, View(), tx.sender);
      var list := pending[tx.sender] - {tx.nonce};
      var kept, invalids := SplitAbove(list, tx.nonce);
      InvalidsFit(head, tx.sender, acct, tx.nonce, invalids, all.all);
      pending := WithList(pending, tx.sender, kept);
      if kept == map[] {
        beats := beats - {tx.sender};
      }
      EnqueueAll(invalids, tx.sender, list, except);
      SetIfLower(tx.sender, tx.nonce);
      SameBehind(acct.pending, tx.nonce);
    }

    method RemoveQueued(tx: Tx)
      requires PoolOk(head, View()) && tx.nonce !in ListOf(pending, tx.sender)
      modifies this`queue
      ensures Updated(head, old(View()), tx.sender,
                      AcctRemove(AccountOf(head, old(View()), tx.sender), tx.nonce), View())
    {
      ghost var was := View();
      if tx.sender in queue {
        queue := WithList(queue, tx.sender, queue[tx.sender] - {tx.nonce});
      }
      RewriteSame(was.pending, tx.sender);
      if tx.sender !in was.queue {
        var none: Items := map[];
        assert none - {tx.nonce} == none;
        RewriteSame(was.queue, tx.sender);
      }
    }

    /** Removes a known transaction; what was executable behind it goes back to the queue. */
    method RemoveTx(hash: TxHash, outofbound: bool, ghost except: seq<Tx>)
      requires Consistent() && priced.CoversExcept(except)
      modifies this`pending, this`queue, this`nonces, this`beats, all, priced
      ensures Consistent() && priced.CoversExcept(except)
      ensures all.all == old(all.all) - {hash} && Fewer(old(all.all), all.all)
      ensures if hash in old(all.all)
              then Updated(head, old(View()), hash.content.sender,
                           AcctRemove(AccountOf(head, old(View()), hash.content.sender), hash.content.nonce), View())
              else View() == old(View())
    {
      if hash !in all.all {
        assert all.all - {hash} == all.all;
        return;
      }
      ghost var was, known := View(), all.all;
      var tx := all.all[hash];
      KnownIsThere(head, was, known, tx);
      all.Remove(hash);
      if outofbound {
        priced.Removed(1, except);
      }
      if tx.sender in pending && tx.nonce in pending[tx.sender] {
        RemovePending(tx, except);
      } else {
        RemoveQueued(tx);
      }
      RemovedConsistent(head, was, known, tx, View());
    }

    /** Removes transactions the price heap has already let go of. */
    method RemoveAll(drop: seq<Tx>)
      requires Consistent() && priced.CoversExcept(drop)
      modifies this`pending, this`queue, this`nonces, this`beats, all, priced
      ensures Valid()
      ensures Without(old(all.all), drop, all.all) && Spares(old(pending), old(all.all), drop, pending)
      ensures drop == [] ==> View() == old(View()) && all.all == old(all.all)
    {
      SparesAll(pending, all.all);
      for i := 0 to |drop|
        invariant Consistent() && priced.CoversExcept(drop)
        invariant i == 0 ==> View() == old(View()) && all.all == old(all.all)
        invariant Without(old(all.all), drop[..i], all.all)
        invariant Spares(old(pending), old(all.all), drop[..i], pending)
      {
        RemoveNext(drop, i, old(pending), old(all.all));
      }
      assert drop[..|drop|] == drop;
    }

    /** Removes the next of them. */
    method RemoveNext(drop: seq<Tx>, i: nat, ghost was: Accounts, ghost known: Lookup)
      requires Consistent() && priced.CoversExcept(drop) && i < |drop|
      requires Without(known, drop[..i], all.all) && Spares(was, known, drop[..i], pending)
      modifies this`pending, this`queue, this`nonces, this`beats, all, priced
      ensures Consistent() && priced.CoversExcept(drop)
      ensures Without(known, drop[..i + 1], all.all) && Spares(was, known, drop[..i + 1], pending)
    {
      ghost var before, lookup := View(), all.all;
      RemoveTx(HashOf(drop[i]), false, drop);
      assert drop[..i + 1] == drop[..i] + [drop[i]];
      SparesStep(head, was, known, drop[..i], before, lookup, drop[i], View());
      WithoutStep(known, drop[..i], lookup, drop[i]);
    }

    /** Drops every remote transaction below a new minimum price. */
    method SetGasPrice(price: nat)
      requires Valid()
      modifies this, all, priced
      ensures Valid() && gasPrice == price && locals == old(locals)
      ensures forall t :: Live(all.all, t) <==> Live(old(all.all), t) && (t.sender in locals || t.price >= price)
    {
      gasPrice := price;
      var drop := priced.Cap(price, locals);
      RemoveAll(drop);
    }

    /** What each admission rule objects to. */
    ghost predicate Violates(rule: PoolError, tx: Tx, local: bool)
      reads this
    {
      match rule
      case ErrKnownTransaction => false
      case ErrInvalidGasPrice => tx.isVault && tx.price != 0
      case ErrOversizedData => tx.body.size > SizeLimit(cfg)
      case ErrNegativeValue => Value(tx) < 0
      case ErrGasLimit => tx.gas > head.maxGas
      case ErrInvalidSender => !tx.body.signed
      case ErrUnderpriced => !cfg.isGas || (!local && tx.sender !in locals && tx.price < gasPrice && !tx.isVault)
      case ErrNonceTooLow => tx.nonce < StateNonce(head, tx.sender)
      case ErrEtherValueUnsupported => tx.isVault && (tx.body.data == [] || Value(tx) != 0)
      case ErrInsufficientFunds => tx.cost > Balance(head, tx.sender)
      case ErrInsufficientMinFunds => Balance(head, tx.sender) < MinFunds(cfg)
      case ErrInsufficientSmiloPay => SmiloPay(head, tx.sender) < tx.price * tx.gas
      case ErrOutOfGas => StateTransitions.IntrinsicCost(tx.body.data, tx.body.creation, true) > MAX_U64
      case ErrIntrinsicGas => tx.gas < StateTransitions.IntrinsicCost(tx.body.data, tx.body.creation, true)
      case ErrReplaceUnderpriced => false
    }

    ghost predicate Admissible(tx: Tx, local: bool)
      reads this
    {
      forall rule :: !Violates(rule, tx, local)
    }

    ghost predicate NoneBefore(rank: nat, tx: Tx, local: bool)
      reads this
    {
      forall rule | Rank(rule) < rank :: !Violates(rule, tx, local)
    }

    /** Reports the first rule that a transaction violates, in the order of `Rank`. */
    method ValidateTx(tx: Tx, local: bool) returns (err: Option<PoolError>)
      ensures err.Some? ==> Violates(err.value, tx, local) && NoneBefore(Rank(err.value), tx, local)
      ensures err.None? ==> Admissible(tx, local)
    {
      if tx.isVault && tx.price != 0 {
        return Some(ErrInvalidGasPrice);
      }
      if tx.body.size > SizeLimit(cfg) {
        return Some(ErrOversizedData);
      }
      if Value(tx) < 0 {
        return Some(ErrNegativeValue);
      }
      if head.maxGas < tx.gas {
        return Some(ErrGasLimit);
      }
      if !tx.body.signed {
        return Some(ErrInvalidSender);
      }
      var isLocal := local || tx.sender in locals;
      if !cfg.isGas || (!isLocal && gasPrice > tx.price && !tx.isVault) {
        return Some(ErrUnderpriced);
      }
      if StateNonce(head, tx.sender) > tx.nonce {
        return Some(ErrNonceTooLow);
      }
      if tx.isVault && (|tx.body.data| == 0 || Value(tx) != 0) {
        return Some(ErrEtherValueUnsupported);
      }
      err := ValidateFunds(tx, local);
    }

    /** The rules on funds and gas. */
    method ValidateFunds(tx: Tx, ghost local: bool) returns (err: Option<PoolError>)
      ensures err.Some? ==>
                && Rank(err.value) >= Rank(ErrInsufficientFunds) && Violates(err.value, tx, local)
                && forall rule | Rank(ErrInsufficientFunds) <= Rank(rule) < Rank(err.value) ::
                     !Violates(rule, tx, local)
      ensures err.None? ==> forall rule | Rank(rule) >= Rank(ErrInsufficientFunds) :: !Violates(rule, tx, local)
    {
      if Balance(head, tx.sender) < tx.cost {
        return Some(ErrInsufficientFunds);
      }
      if Balance(head, tx.sender) < MinFunds(cfg) {
        return Some(ErrInsufficientMinFunds);
      }
      if SmiloPay(head, tx.sender) < tx.price * tx.gas {
        return Some(ErrInsufficientSmiloPay);
      }
      var intrinsic := StateTransitions.IntrinsicGas(tx.body.data, tx.body.creation, true);
      if intrinsic.None? {
        return Some(ErrOutOfGas);
      }
      if tx.gas < intrinsic.value {
        return Some(ErrIntrinsicGas);
      }
      err := None;
    }

    /** Replaces an executable transaction with the same nonce when the price bump is met. */
    method ReplacePending(tx: Tx) returns (ok: bool)
      requires priced.all == all && priced.Valid() && tx.sender in pending && tx.nonce in pending[tx.sender]
      modifies this`pending, all, priced
      ensures priced.Valid() && ok == Accepts(old(pending)[tx.sender], tx, cfg.priceBump)
      ensures !ok ==> pending == old(pending) && all.all == old(all.all)
      ensures ok ==>
                && pending == old(pending)[tx.sender := ListOf(old(pending), tx.sender)[tx.nonce := tx]]
                && all.all == WithoutReplaced(old(all.all), old(pending)[tx.sender], tx)[HashOf(tx) := tx]
    {
      var list := pending[tx.sender];
      ok := Accepts(list, tx, cfg.priceBump);
      if ok {
        pending := pending[tx.sender := list[tx.nonce := tx]];
        all.Remove(HashOf(list[tx.nonce]));
        priced.Removed(1, []);
        all.Add(tx);
        priced.Put(tx, []);
      }
    }

    /** Files an admitted transaction: over an executable one with its nonce, or else in the queue. */
    method Insert(tx: Tx) returns (replaced: bool, ok: bool)
      requires Valid() && StateNonce(head, tx.sender) <= tx.nonce && !Live(all.all, tx)
      modifies this`pending, this`queue, all, priced
      ensures Valid()
      ensures ok == AcceptedBy(AccountOf(head, old(View()), tx.sender), tx, cfg.priceBump)
      ensures replaced <==>
                && ok
                && (tx.nonce in ListOf(old(pending), tx.sender) || tx.nonce in ListOf(old(queue), tx.sender))
      ensures !ok ==> View() == old(View()) && all.all == old(all.all)
      ensures ok ==> Updated(head, old(View()), tx.sender, AcctPut(AccountOf(head, old(View()), tx.sender), tx), View())
      ensures ok ==> Gained(old(all.all), [], tx, all.all)
    {
      ghost var was, known := View(), all.all;
      if tx.sender in pending && tx.nonce in pending[tx.sender] {
        ok := ReplacePending(tx);
        replaced := ok;
      } else {
        replaced, ok := EnqueueTx(tx, []);
      }
      if ok {
        InsertedConsistent(head, was, known, tx, View(), all.all);
      }
    }

    /** Makes room in a full pool, unless the newcomer is remote and nothing in the pool is cheaper. */
    method MakeRoom(tx: Tx, local: bool) returns (underpriced: bool, drop: seq<Tx>)
      requires Valid()
      modifies this`pending, this`queue, this`nonces, this`beats, all, priced
      ensures Valid() && Without(old(all.all), drop, all.all)
      ensures underpriced ==> drop == []
      ensures drop == [] ==> View() == old(View()) && all.all == old(all.all)
      ensures EvictedTo(head, old(View()), old(all.all), drop, View())
      ensures underpriced <==>
                !local && (!cfg.isSmilo || cfg.isGas) && tx.sender !in locals && NoneCheaper(old(all.all), tx)
      ensures Cheapest(old(all.all), locals, drop)
      ensures !underpriced ==>
                MadeRoom(old(all.all), locals, drop, |old(all.all)| - (cfg.globalSlots + cfg.globalQueue - 1))
    {
      drop, underpriced := [], false;
      if !local && (!cfg.isSmilo || cfg.isGas) {
        underpriced := priced.Underpriced(tx, locals);
        if underpriced {
          NothingEvicted(head, View(), all.all);
          return;
        }
      }
      drop := priced.Discard(|all.all| - (cfg.globalSlots + cfg.globalQueue - 1), locals);
      RemoveAll(drop);
      SparedIsEvicted(head, old(View()), old(all.all), drop, View(), all.all);
    }

    /** Takes transactions out of the lookup. */
    method Forget(txs: seq<Tx>)
      requires priced.all == all && priced.Valid()
      modifies all
      ensures priced.Valid() && Without(old(all.all), txs, all.all)
    {
      for i := 0 to |txs|
        invariant priced.Valid() && Without(old(all.all), txs[..i], all.all)
      {
        all.Remove(HashOf(txs[i]));
        assert txs[..i + 1] == txs[..i] + [txs[i]];
      }
      assert txs[..|txs|] == txs;
    }

    /** Makes a transaction executable, unless the slot is taken by one that is not cheaper enough. */
    method PromoteTx(a: Address, tx: Tx, now: nat) returns (ok: bool)
      requires priced.all == all && priced.Valid()
      modifies this`pending, this`nonces, this`beats, all, priced
      ensures priced.Valid() && ok == Accepts(ListOf(old(pending), a), tx, cfg.priceBump)
      ensures !ok ==> pending == old(pending) && nonces == old(nonces) && all.all == old(all.all) - {HashOf(tx)}
      ensures beats == if ok then old(beats)[a := now] else old(beats)
      ensures ok ==>
                && pending == old(pending)[a := ListOf(old(pending), a)[tx.nonce := tx]]
                && nonces == old(nonces)[a := tx.nonce + 1]
                && all.all == WithoutReplaced(old(all.all), ListOf(old(pending), a), tx)[HashOf(tx) := tx]
    {
      var list := ListOf(pending, a);
      ok := Accepts(list, tx, cfg.priceBump);
      if !ok {
        all.Remove(HashOf(tx));
        priced.Removed(1, []);
        return;
      }
      pending := pending[a := list[tx.nonce := tx]];
      Exchange(list, tx, []);
      beats := beats[a := now];
      nonces := nonces[a := tx.nonce + 1];
    }

    /** Promotes the next of a run; its slot is free. */
    method PromoteNext(a: Address, readies: seq<Tx>, i: nat, now: nat, ghost payable: Items, ghost next: nat,
        ghost was: Accounts)
        returns (ok: bool)
      requires priced.all == all && priced.Valid() && Keyed(payable) && i < |readies|
      requires Promotable(readies, payable, next, ListOf(was, a), all.all)
      requires pending == WithRun(was, a, payable, next, i)
      modifies this`pending, this`nonces, this`beats, all, priced
      ensures ok && priced.Valid() && all.all == old(all.all) && beats == old(beats)[a := now]
      ensures pending == WithRun(was, a, payable, next, i + 1) && nonces == old(nonces)[a := next + i + 1]
    {
      PromoteOne(was, pending, a, payable, next, readies, i, all.all);
      assert all.all[HashOf(readies[i]) := readies[i]] == all.all;
      ok := PromoteTx(a, readies[i], now);
    }

    /** Promotes a run of transactions; each finds its slot free. */
    method PromoteRun(a: Address, readies: seq<Tx>, now: nat, ghost payable: Items) returns (promoted: seq<Tx>)
      requires priced.all == all && priced.Valid() && NoEmptyList(pending) && Keyed(payable)
      requires Promotable(readies, payable, VirtualNonce(head, nonces, a), ListOf(pending, a), all.all)
      modifies this`pending, this`nonces, this`beats, all, priced
      ensures priced.Valid() && all.all == old(all.all) && promoted == readies
      ensures beats == if readies == [] then old(beats) else old(beats)[a := now]
      ensures pending == WithRun(old(pending), a, payable, VirtualNonce(head, old(nonces), a), |readies|)
      ensures forall b ::
                VirtualNonce(head, nonces, b) == VirtualNonce(head, old(nonces), b) + if b == a then |readies| else 0
    {
      ghost var next := VirtualNonce(head, nonces, a);
      promoted := [];
      RewriteSame(pending, a);
      for i := 0 to |readies|
        invariant priced.Valid() && all.all == old(all.all) && promoted == readies[..i]
        invariant pending == WithRun(old(pending), a, payable, next, i)
        invariant beats == if i == 0 then old(beats) else old(beats)[a := now]
        invariant forall b ::
                  VirtualNonce(head, nonces, b) == VirtualNonce(head, old(nonces), b) + if b == a then i else 0
      {
        var ok := PromoteNext(a, readies, i, now, payable, next, old(pending));
        if ok {
          promoted := promoted + [readies[i]];
        }
      }
    }

    /** Carries a promotion out. */
    method ApplyPromotion(a: Address, rest: Items, forwards: seq<Tx>, drops: seq<Tx>, readies: seq<Tx>,
        caps: seq<Tx>, now: nat, ghost payable: Items)
        returns (promoted: seq<Tx>)
      requires priced.all == all && priced.Valid() && NoEmptyList(pending) && Keyed(payable) && forwards == []
      requires Promotable(readies, payable, VirtualNonce(head, nonces, a), ListOf(pending, a), all.all)
      requires forall t | t in readies :: t !in drops
      modifies this`pending, this`queue, this`nonces, this`beats, all, priced
      ensures priced.Valid() && promoted == readies
      ensures beats == if readies == [] then old(beats) else old(beats)[a := now]
      ensures Without(old(all.all), drops + caps, all.all)
      ensures Updated(head, old(View()), a, Promoted(AccountOf(head, old(View()), a), payable, |readies|, rest), View())
    {
      Forget(forwards);
      Forget(drops);
      promoted := PromoteRun(a, readies, now, payable);
      Forget(caps);
      priced.Removed(|forwards| + |drops| + |caps|, []);
      queue := WithList(queue, a, rest);
    }

    /** Promotes one account. */
    method PromoteAccount(a: Address, now: nat) returns (promoted: seq<Tx>)
      requires Valid() && a in queue
      modifies this`pending, this`queue, this`nonces, this`beats, all, priced
      ensures Valid()
      ensures Updated(head, old(View()), a, AccountOf(head, View(), a), View())
      ensures Promotes(head, a, AccountOf(head, old(View()), a), QueueLimit(cfg, locals, a), AccountOf(head, View(), a))
      ensures Fewer(old(all.all), all.all)
      ensures NewIn(ListOf(old(pending), a), ListOf(pending, a), promoted)
      ensures beats == if promoted == [] then old(beats) else old(beats)[a := now]
      ensures forall t | t in promoted :: t.sender == a
    {
      ghost var was, known := View(), all.all;
      QueuedAbove(head, a, AccountOf(head, was, a));
      var limit := QueueLimit(cfg, locals, a);
      var rest, forwards, drops, readies, caps, payable :=
        SiftFromNext(queue[a], StateNonce(head, a), VirtualNonce(head, nonces, a), Balance(head, a), head.maxGas,
                     limit);
      ReadiesFit(head, was, known, a, payable, limit, rest, drops, readies, caps);
      promoted := ApplyPromotion(a, rest, forwards, drops, readies, caps, now, payable);
      PromotedOk(head, was, a, payable, limit, rest, drops, readies, caps, View());
      PromotedExact(head, was, known, a, payable, limit, rest, drops, readies, caps, View(), all.all);
      PromotedNew(head, a, payable, AccountOf(head, was, a), limit, rest, drops, readies, caps);
    }

    /**
     A transaction that a promotion may lose: of a named account, and either it cannot be paid for, or the account is
     not local and its queue is full of lower nonces.
     */
    ghost predicate JustlyLost(t: Tx, accounts: seq<Address>)
      reads this
    {
      && t.sender in accounts
      && (|| t.cost > Balance(head, t.sender) || t.gas > head.maxGas
          || (&& t.sender !in locals && |ListOf(queue, t.sender)| == cfg.accountQueue
              && forall n | n in ListOf(queue, t.sender) :: n < t.nonce))
    }

    /** Promotes accounts, in any order and however often each is named; returns what became executable. */
    method PromoteExecutables(accounts: seq<Address>, now: nat) returns (promoted: seq<Tx>)
      requires Valid()
      modifies this`pending, this`queue, this`nonces, this`beats, all, priced
      ensures Valid() && Fewer(old(all.all), all.all)
      ensures PromotedAll(head, cfg, locals, old(View()), accounts, View())
      ensures NewTxs(old(pending), pending, promoted) && Stamped(old(beats), promoted, now, beats)
      ensures forall a | a in accounts && a !in locals :: |ListOf(queue, a)| <= cfg.accountQueue
      ensures forall a | a in accounts :: VirtualNonce(head, nonces, a) !in ListOf(queue, a)
      ensures forall t: Tx | t.sender in accounts && Holds(ListOf(queue, t.sender), t) ::
                t.cost <= Balance(head, t.sender) && t.gas <= head.maxGas
      ensures forall t | Live(old(all.all), t) && (t.sender in locals || t.sender !in accounts)
                         && t.cost <= Balance(head, t.sender) && t.gas <= head.maxGas :: Live(all.all, t)
      ensures forall t | Live(old(all.all), t) && !Live(all.all, t) :: JustlyLost(t, accounts)
    {
      promoted := [];
      ghost var was := View();
      PromotedNone(head, cfg, locals, was);
      for i := 0 to |accounts|
        invariant Valid() && NewTxs(was.pending, pending, promoted) && Fewer(old(all.all), all.all)
        invariant PromotedAll(head, cfg, locals, was, accounts[..i], View())
        invariant Stamped(old(beats), promoted, now, beats)
      {
        var a := accounts[i];
        ghost var before := View();
        assert accounts[..i + 1] == accounts[..i] + [a];
        if a in queue {
          ghost var stamps := beats;
          var more := PromoteAccount(a, now);
          StampedStep(old(beats), promoted, now, stamps, a, more, beats);
          PromoteStep(head, cfg, locals, was, accounts[..i], before, a, View(), promoted, more);
          promoted := promoted + more;
        } else {
          PromoteSkip(head, cfg, locals, was, accounts[..i], before, a);
        }
      }
      assert accounts[..|accounts|] == accounts;
      PromotionLimits(head, cfg, locals, was, accounts, View());
      forall t | Live(old(all.all), t) && !Live(all.all, t)
        ensures JustlyLost(t, accounts) && t.sender in accounts
        ensures t.sender in locals ==> t.cost > Balance(head, t.sender) || t.gas > head.maxGas
      {
        PromotionLoses(head, cfg, locals, was, old(all.all), accounts, View(), all.all, t);
      }
    }

    method ApplyDrop(a: Address, kept: Items, tx: Tx)
      requires priced.all == all && priced.Valid()
      modifies this`pending, this`nonces, all, priced
      ensures priced.Valid() && pending == old(pending)[a := kept] && all.all == old(all.all) - {HashOf(tx)}
      ensures Lowered(head, old(nonces), a, tx.nonce, nonces)
    {
      pending := pending[a := kept];
      all.Remove(HashOf(tx));
      SetIfLower(a, tx.nonce);
      priced.Removed(1, []);
    }

    /** Takes an account's last executable transaction. */
    method DropLast(a: Address)
      requires Valid() && a in pending && |pending[a]| >= 2
      modifies this`pending, this`nonces, all, priced
      ensures Valid() && Updated(head, old(View()), a, Trimmed(AccountOf(head, old(View()), a)), View())
      ensures pending.Keys == old(pending.Keys) && Size(pending) == Size(old(pending)) - 1
    {
      ghost var was, known := View(), all.all;
      var kept, tx := TakeLast(pending[a], head, a, AccountOf(head, was, a));
      SumUpdate(pending, a, kept);
      ApplyDrop(a, kept, tx);
      TrimmedConsistent(head, was, known, a, kept, View());
    }

    /** Takes one transaction from the next offender of a round. */
    method TakeFrom(offenders: seq<Address>, i: nat, ghost was: Pool, ghost level: nat)
      requires Valid() && PoolOk(head, was) && level >= 2 && i < |offenders|
      requires Offending(was.pending, locals, offenders, level)
      requires LeveledBut(head, was, locals, level, offenders[..i], View())
      modifies this`pending, this`nonces, all, priced
      ensures Valid() && LeveledBut(head, was, locals, level, offenders[..i + 1], View())
      ensures Size(pending) == Size(old(pending)) - 1
    {
      ghost var now := View();
      NextInRound(head, was, locals, offenders, level, i, now);
      DropLast(offenders[i]);
      DoneInRound(head, was, locals, offenders, level, i, now, View());
    }

    /** Takes one transaction from each offender. */
    method Round(offenders: seq<Address>, total: nat, ghost was: Pool, ghost level: nat) returns (left: nat)
      requires Valid() && PoolOk(head, was) && Leveled(head, was, locals, level, View()) && level >= 2
      requires Offending(was.pending, locals, offenders, level) && total == Size(pending)
      modifies this`pending, this`nonces, all, priced
      ensures Valid() && LeveledBut(head, was, locals, level, offenders[..|offenders|], View()) && left == Size(pending)
    {
      left := total;
      RoundStarts(head, was, locals, level, View());
      for i := 0 to |offenders|
        invariant Valid() && left == Size(pending)
        invariant LeveledBut(head, was, locals, level, offenders[..i], View())
      {
        TakeFrom(offenders, i, was, level);
        left := left - 1;
      }
    }

    /** A whole round lowers the level by one. */
    method LowerOnce(offenders: seq<Address>, total: nat, ghost was: Pool, ghost level: nat,
        ghost next: nat) returns (left: nat)
      requires Valid() && PoolOk(head, was) && 1 <= next && next + 1 == level && total > cfg.globalSlots
      requires Lowering(head, was, locals, offenders, level, cfg.globalSlots, View(), total)
      requires OthersWithin(was.pending, locals, offenders, next)
      modifies this`pending, this`nonces, all, priced
      ensures Valid() && Lowering(head, was, locals, offenders, next, cfg.globalSlots, View(), left)
      ensures forall a | a in offenders :: a in pending && |pending[a]| == next
    {
      ghost var now := View();
      left := Round(offenders, total, was, level);
      LoweredOnce(head, was, locals, offenders, level, next, cfg.globalSlots, now, total, View(), left);
    }

    /** Lowers the offenders together, until the total fits or they reach the floor. */
    method LowerTo(offenders: seq<Address>, floor: nat, total: nat, ghost was: Pool,
        ghost level: nat) returns (left: nat, ghost level': nat)
      requires Valid() && PoolOk(head, was) && 1 <= floor <= level && offenders != []
      requires Lowering(head, was, locals, offenders, level, cfg.globalSlots, View(), total)
      requires OthersWithin(was.pending, locals, offenders, floor)
      modifies this`pending, this`nonces, all, priced
      ensures Valid() && Lowering(head, was, locals, offenders, level', cfg.globalSlots, View(), left)
      ensures floor <= level' <= level && (left <= cfg.globalSlots || level' == floor)
    {
      left, level' := total, level;
      var last := offenders[|offenders| - 1];
      OffendersAtLevel(head, was, locals, offenders, level', cfg.globalSlots, View(), left);
      while left > cfg.globalSlots && |pending[last]| > floor
        invariant Valid() && floor <= level' <= level && last in pending && |pending[last]| == level'
        invariant Lowering(head, was, locals, offenders, level', cfg.globalSlots, View(), left)
        decreases level'
      {
        ghost var next: nat := level' - 1;
        left := LowerOnce(offenders, left, was, level', next);
        level' := next;
      }
    }

    /** The next offender is a largest list; the earlier offenders come down to it. */
    method PopOffender(offenders: seq<Address>, spammers: set<Address>, total: nat, ghost was: Pool, ghost level: nat)
        returns (offender: Address, left: nat, ghost level': nat)
      requires Valid() && PoolOk(head, was) && total > cfg.globalSlots && spammers != {}
      requires Spilling(head, was, locals, cfg.accountSlots, cfg.globalSlots, offenders, spammers, level, View(), total)
      modifies this`pending, this`nonces, all, priced
      ensures Valid() && offender in spammers
      ensures Spilling(head, was, locals, cfg.accountSlots, cfg.globalSlots, offenders + [offender],
                       spammers - {offender}, level', View(), left)
    {
      offender := PopLongest(pending, spammers);
      LongestStill(head, was, locals, cfg.accountSlots, cfg.globalSlots, offenders, spammers, level, View(), total,
                   offender);
      left, level' := total, level;
      if offenders == [] {
        level' := |pending[offender]|;
        FirstOffender(head, was, locals, cfg.accountSlots, cfg.globalSlots, spammers, level, total, offender);
      } else {
        ghost var now := View();
        var threshold := |pending[offender]|;
        NextOffender(head, was, locals, cfg.accountSlots, cfg.globalSlots, offenders, spammers, level, now, total,
                     offender);
        left, level' := LowerTo(offenders, threshold, total, was, level);
        OffenderJoins(head, was, locals, cfg.accountSlots, cfg.globalSlots, offenders, spammers, level, now, total,
                      offender, level', View(), left);
      }
    }

    /** Trims the executable lists when together they exceed the pool's slots. */
    method TruncatePending() returns (ghost level: nat)
      requires Valid()
      modifies this`pending, this`nonces, all, priced
      ensures Valid() && Fewer(old(all.all), all.all)
      ensures Size(old(pending)) <= cfg.globalSlots ==> View() == old(View()) && all.all == old(all.all)
      ensures Size(old(pending)) > cfg.globalSlots ==>
                WaterFilled(head, old(View()), locals, cfg.accountSlots, cfg.globalSlots, level, View())
      ensures forall a | a in locals :: ListOf(pending, a) == ListOf(old(pending), a)
      ensures forall a | |ListOf(old(pending), a)| <= cfg.accountSlots :: ListOf(pending, a) == ListOf(old(pending), a)
      ensures Size(pending) <= cfg.globalSlots || forall a | a !in locals :: |ListOf(pending, a)| <= cfg.accountSlots
      ensures forall a | ListOf(pending, a) != ListOf(old(pending), a) ::
                |ListOf(pending, a)| >= cfg.accountSlots
                && IsLowest(ListOf(pending, a), ListOf(old(pending), a), |ListOf(pending, a)|)
    {
      level := TrimPending();
      TrimmedLists(head, cfg, locals, old(View()), level, View());
    }

    method TrimPending() returns (ghost level: nat)
      requires Valid()
      modifies this`pending, this`nonces, all, priced
      ensures Valid() && Fewer(old(all.all), all.all)
      ensures Size(old(pending)) <= cfg.globalSlots ==> View() == old(View()) && all.all == old(all.all)
      ensures Size(old(pending)) > cfg.globalSlots ==>
                WaterFilled(head, old(View()), locals, cfg.accountSlots, cfg.globalSlots, level, View())
    {
      ghost var was := View();
      level := cfg.accountSlots;
      var total: nat := Count(pending);
      if total <= cfg.globalSlots {
        return;
      }
      var spammers := Longer(pending, locals, cfg.accountSlots);
      var offenders: seq<Address> := [];
      while total > cfg.globalSlots && spammers != {}
        invariant Valid()
        invariant Spilling(head, was, locals, cfg.accountSlots, cfg.globalSlots, offenders, spammers, level, View(),
                           total)
        decreases spammers
      {
        var offender;
        offender, total, level := PopOffender(offenders, spammers, total, was, level);
        spammers, offenders := spammers - {offender}, offenders + [offender];
      }
      if offenders == [] {
        level := cfg.accountSlots;
        LevelHolds(head, was, locals, level);
      } else if total > cfg.globalSlots {
        NoneToCome(head, was, locals, cfg.accountSlots, cfg.globalSlots, offenders, level, View(), total);
        total, level := LowerTo(offenders, cfg.accountSlots, total, was, level);
      }
      LeveledFewer(head, was, locals, level, View(), old(all.all), all.all);
    }

    /** Removes one more queued transaction of an account. */
    method DropQueued(tx: Tx, ghost was: Pool, ghost acct: Account, ghost gone: set<nat>)
      requires Valid() && AccountOk(head, tx.sender, acct) && Updated(head, was, tx.sender, Lacking(acct, gone), View())
      requires Holds(acct.queued, tx) && tx.nonce !in gone
      modifies this`pending, this`queue, this`nonces, this`beats, all, priced
      ensures Valid() && Updated(head, was, tx.sender, Lacking(acct, gone + {tx.nonce}), View())
    {
      ghost var now := View();
      UpdatedAccount(head, was, tx.sender, Lacking(acct, gone), now, tx.sender);
      assert Pooled(head, now, tx) && Live(all.all, tx);
      RemoveTx(HashOf(tx), true, []);
      LessOne(head, was, tx.sender, acct, gone, now, tx.nonce, View());
    }

    /** Removes all that an account has queued. */
    method DropAll(a: Address, txs: seq<Tx>)
      requires Valid() && Listing(ListOf(queue, a), txs)
      modifies this`pending, this`queue, this`nonces, this`beats, all, priced
      ensures Valid() && Updated(head, old(View()), a, AccountOf(head, old(View()), a).(queued := map[]), View())
    {
      ghost var was, acct, ns := View(), AccountOf(head, View(), a), Nonces(txs);
      assert AccountOk(head, a, acct);
      UpdatedNothing(head, was, a);
      assert SetOf(ns[..0]) == {};
      for i := 0 to |txs|
        invariant Valid() && Updated(head, was, a, Lacking(acct, SetOf(ns[..i])), View())
      {
        ListedOnce(acct.queued, a, txs, i);
        DropQueued(txs[i], was, acct, SetOf(ns[..i]));
      }
      assert ns[..|txs|] == ns;
      AllGone(acct.queued, txs);
    }

    /** Removes the end of an account's listing, from the back. */
    method DropFrom(a: Address, txs: seq<Tx>, keep: nat)
      requires Valid() && Listing(ListOf(queue, a), txs) && keep <= |txs|
      modifies this`pending, this`queue, this`nonces, this`beats, all, priced
      ensures Valid()
      ensures Updated(head, old(View()), a,
                      Lacking(AccountOf(head, old(View()), a), SetOf(Nonces(txs)[keep..])), View())
    {
      ghost var was, acct, ns := View(), AccountOf(head, View(), a), Nonces(txs);
      assert AccountOk(head, a, acct);
      UpdatedNothing(head, was, a);
      var i := |txs|;
      assert SetOf(ns[i..]) == {};
      while i > keep
        invariant keep <= i <= |txs| && Valid() && Updated(head, was, a, Lacking(acct, SetOf(ns[i..])), View())
      {
        i := i - 1;
        ListedOnce(acct.queued, a, txs, i);
        DropQueued(txs[i], was, acct, SetOf(ns[i + 1..]));
      }
    }

    /** Removes the highest nonces an account has queued, down to `keep` transactions. */
    method DropTail(a: Address, txs: seq<Tx>, keep: nat) returns (ghost kept: Items)
      requires Valid() && Listing(ListOf(queue, a), txs) && keep < |txs|
      modifies this`pending, this`queue, this`nonces, this`beats, all, priced
      ensures IsLowest(kept, ListOf(old(queue), a), keep)
      ensures Valid() && Updated(head, old(View()), a, AccountOf(head, old(View()), a).(queued := kept), View())
    {
      ghost var acct := AccountOf(head, View(), a);
      assert AccountOk(head, a, acct);
      kept := acct.queued - SetOf(Nonces(txs)[keep..]);
      TailGone(acct.queued, txs, keep);
      DropFrom(a, txs, keep);
    }

    /** Drains one account, entirely or as far as needed. */
    method DrainAccount(a: Address, drop: nat) returns (left: nat, ghost kept: Items)
      requires Valid() && a in queue && drop > 0
      modifies this`pending, this`queue, this`nonces, this`beats, all, priced
      ensures Valid() && SameExecutable(head, old(View()), View()) && queue == WithList(old(queue), a, kept)
      ensures LowCut(old(queue)[a], kept) && left == drop - (|old(queue)[a]| - |kept|) && (kept == map[] || left == 0)
    {
      ghost var was := View();
      var list := queue[a];
      assert AccountOk(head, a, AccountOf(head, was, a));
      var txs := ListItems(list);
      if |list| <= drop {
        DropAll(a, txs);
        kept := map[];
        LowCutNone(list);
        left := drop - |list|;
      } else {
        kept := DropTail(a, txs, |list| - drop);
        left := 0;
      }
      ExecutableKept(head, was, a, kept, View());
    }

    /** Drains the most recently active of the accounts left. */
    method DrainLatest(stamps: map<Address, nat>, addresses: set<Address>, drop: nat, ghost was: Accounts)
        returns (a: Address, left: nat, ghost cut: Option<Address>)
      requires Valid() && addresses != {} && drop > 0 && NoEmptyList(was)
      requires Draining(was, locals, stamps, addresses, None, drop, cfg.globalQueue, queue)
      modifies this`pending, this`queue, this`nonces, this`beats, all, priced
      ensures Valid() && SameExecutable(head, old(View()), View()) && a in addresses
      ensures Draining(was, locals, stamps, addresses - {a}, cut, left, cfg.globalQueue, queue)
    {
      a := PopLatest(stamps, addresses);
      StillQueued(was, locals, stamps, addresses, None, drop, cfg.globalQueue, queue, a);
      ghost var kept, before := map[], queue;
      left, kept := DrainAccount(a, drop);
      cut := if kept == map[] then None else Some(a);
      DrainStep(was, locals, stamps, addresses, drop, cfg.globalQueue, before, a, kept, queue, left);
    }

    /** Trims the queues when together they exceed the limit. */
    method TruncateQueue()
      requires Valid()
      modifies this`pending, this`queue, this`nonces, this`beats, all, priced
      ensures Valid() && SameExecutable(head, old(View()), View()) && Fewer(old(all.all), all.all)
      ensures Size(old(queue)) <= cfg.globalQueue ==> View() == old(View()) && all.all == old(all.all)
      ensures Size(old(queue)) > cfg.globalQueue ==> Drained(old(queue), locals, old(beats), cfg.globalQueue, queue)
      ensures forall a | a in locals :: ListOf(queue, a) == ListOf(old(queue), a)
      ensures Size(queue) <= cfg.globalQueue || forall a | a in queue :: a in locals
      ensures Size(old(queue)) > cfg.globalQueue ==> Size(queue) >= cfg.globalQueue
      ensures Size(old(queue)) > cfg.globalQueue ==> NewestFirst(old(queue), locals, old(beats), queue)
    {
      DrainQueues();
      DrainedLists(cfg, locals, old(beats), old(queue), queue);
    }

    method DrainQueues()
      requires Valid()
      modifies this`pending, this`queue, this`nonces, this`beats, all, priced
      ensures Valid() && SameExecutable(head, old(View()), View()) && Fewer(old(all.all), all.all)
      ensures Size(old(queue)) <= cfg.globalQueue ==> View() == old(View()) && all.all == old(all.all)
      ensures Size(old(queue)) > cfg.globalQueue ==> Drained(old(queue), locals, old(beats), cfg.globalQueue, queue)
    {
      ghost var was := View();
      var stamps := beats;
      var queued: nat := Count(queue);
      if queued <= cfg.globalQueue {
        return;
      }
      var addresses := queue.Keys - locals;
      var drop: nat := queued - cfg.globalQueue;
      ghost var cut: Option<Address> := None;
      DrainStarts(queue, locals, stamps, drop, cfg.globalQueue);
      while drop > 0 && addresses != {}
        invariant Valid() && SameExecutable(head, was, View())
        invariant Draining(was.queue, locals, stamps, addresses, cut, drop, cfg.globalQueue, queue)
        decreases addresses
      {
        var a;
        a, drop, cut := DrainLatest(stamps, addresses, drop, was.queue);
        addresses := addresses - {a};
      }
      DrainEnds(was.queue, locals, stamps, addresses, cut, drop, cfg.globalQueue, queue);
      DrainedFewer(head, was, View(), old(all.all), all.all);
    }

    /** Sets every account's virtual nonce from its last executable transaction; none of them moves. */
    method SyncNonces()
      requires Valid()
      modifies this`nonces
      ensures Valid() && SameExecutable(head, old(View()), View())
    {
      ghost var was := View();
      var todo := pending.Keys;
      while todo != {}
        invariant todo <= pending.Keys && SameExecutable(head, was, View())
        decreases todo
      {
        var a :| a in todo;
        assert AccountOk(head, a, AccountOf(head, was, a));
        var txs := ListItems(pending[a]);
        LastNonce(head, a, AccountOf(head, was, a), txs);
        nonces := nonces[a := txs[|txs| - 1].nonce + 1];
        todo := todo - {a};
      }
      SameOk(head, was, all.all, View());
    }

    /**
     A background run without a new head: promotion, both limits, and the virtual nonces. `filled` is the pool after
     the promotion with its heartbeats `stamps`, `trimmed` the one once the executable lists have been cut to a level.
     */
    method RunReorg(accounts: seq<Address>, now: nat)
        returns (promoted: seq<Tx>, ghost filled: Pool, ghost stamps: map<Address, nat>, ghost level: nat,
        ghost trimmed: Pool)
      requires Valid()
      modifies this`pending, this`queue, this`nonces, this`beats, all, priced
      ensures Valid() && WithinLimits(cfg, locals, View()) && Fewer(old(all.all), all.all)
      ensures PromotedAll(head, cfg, locals, old(View()), accounts, filled)
      ensures NewTxs(old(pending), filled.pending, promoted) && Stamped(old(beats), promoted, now, stamps)
      ensures Trims(head, cfg, locals, filled, level, trimmed) && SameExecutable(head, trimmed, View())
      ensures Drains(cfg, locals, stamps, trimmed.queue, queue)
    {
      promoted := PromoteExecutables(accounts, now);
      filled, stamps := View(), beats;
      level := TruncatePending();
      trimmed := View();
      PendingLimited(head, cfg, locals, filled, level, trimmed);
      TruncateQueue();
      SyncNonces();
    }

    /** Makes room when the pool is full. */
    method EnsureRoom(tx: Tx, local: bool) returns (underpriced: bool, drop: seq<Tx>)
      requires Valid()
      modifies this`pending, this`queue, this`nonces, this`beats, all, priced
      ensures Valid()
      ensures HasRoom(head, cfg, locals, old(View()), old(all.all), tx, local, underpriced, drop, View(), all.all)
    {
      underpriced, drop := false, [];
      if |all.all| >= cfg.globalSlots + cfg.globalQueue {
        underpriced, drop := MakeRoom(tx, local);
      } else {
        NothingEvicted(head, View(), all.all);
      }
    }

    /** Files an admitted transaction, first making room for it when the pool is full. */
    method Admit(tx: Tx, local: bool)
        returns (replaced: bool, err: Option<PoolError>, ghost dropped: seq<Tx>, ghost mid: Pool)
      requires Valid() && StateNonce(head, tx.sender) <= tx.nonce && !Live(all.all, tx)
      modifies this`pending, this`queue, this`nonces, this`beats, all, priced
      ensures Valid()
      ensures Filed(head, cfg, locals, old(View()), old(all.all), tx, local, err, dropped, mid, View(), all.all)
      ensures err.None? ==>
                (tx.nonce in ListOf(pending, tx.sender) <==>
                 tx.nonce in ListOf(old(pending), tx.sender) && Spared(old(all.all), dropped, tx.sender, tx.nonce))
      ensures replaced <==>
                err.None? && (tx.nonce in ListOf(mid.pending, tx.sender) || tx.nonce in ListOf(mid.queue, tx.sender))
    {
      ghost var was, known := View(), all.all;
      var underpriced, drop := EnsureRoom(tx, local);
      ghost var between := all.all;
      dropped, mid := drop, View();
      if underpriced {
        return false, Some(ErrUnderpriced), drop, mid;
      }
      var ok;
      replaced, ok := Insert(tx);
      err := if ok then None else Some(ErrReplaceUnderpriced);
      InsertedIsFiled(head, cfg, locals, was, known, tx, local, drop, mid, between, ok, View(), all.all);
      FiledSlot(head, cfg, locals, was, known, tx, local, err, dropped, mid, View(), all.all);
    }

    /** Files an admitted transaction and marks the sender of a local one that was queued. */
    method AdmitFrom(tx: Tx, local: bool)
        returns (replaced: bool, err: Option<PoolError>, ghost dropped: seq<Tx>, ghost mid: Pool)
      requires Valid() && StateNonce(head, tx.sender) <= tx.nonce && !Live(all.all, tx)
      modifies this`pending, this`queue, this`nonces, this`beats, this`locals, all, priced
      ensures Valid()
      ensures Filed(head, cfg, old(locals), old(View()), old(all.all), tx, local, err, dropped, mid, View(), all.all)
      ensures replaced <==>
                err.None? && (tx.nonce in ListOf(mid.pending, tx.sender) || tx.nonce in ListOf(mid.queue, tx.sender))
      ensures locals == if err.None? && local
                           && !(&& tx.nonce in ListOf(old(pending), tx.sender)
                                && Spared(old(all.all), dropped, tx.sender, tx.nonce))
                        then old(locals) + {tx.sender}
                        else old(locals)
    {
      replaced, err, dropped, mid := Admit(tx, local);
      if err.None? && local && tx.nonce !in ListOf(pending, tx.sender) {
        locals := locals + {tx.sender};
      }
    }

    /**
     Adds a transaction. A known one and one that violates a rule change nothing; any other is filed. Its sender
     becomes local when a local transaction was queued, but not when it took a slot that was executable and stayed
     so while room was made.
     */
    method Add(tx: Tx, local: bool)
        returns (replaced: bool, err: Option<PoolError>, ghost dropped: seq<Tx>, ghost mid: Pool)
      requires Valid()
      modifies this`pending, this`queue, this`nonces, this`beats, this`locals, all, priced
      ensures Valid()
      ensures Live(old(all.all), tx) <==> err == Some(ErrKnownTransaction)
      ensures Live(old(all.all), tx) || old(!Admissible(tx, local)) ==>
                err.Some? && dropped == [] && View() == old(View()) && all.all == old(all.all)
      ensures !Live(old(all.all), tx) && old(!Admissible(tx, local)) ==>
                old(Violates(err.value, tx, local) && NoneBefore(Rank(err.value), tx, local))
      ensures err.None? ==>
                && 0 <= tx.cost <= Balance(head, tx.sender) && tx.gas <= head.maxGas
                && StateNonce(head, tx.sender) <= tx.nonce && tx.body.signed
      ensures !Live(old(all.all), tx) && old(Admissible(tx, local)) ==>
                Filed(head, cfg, old(locals), old(View()), old(all.all), tx, local, err, dropped, mid, View(), all.all)
      ensures replaced <==>
                err.None? && (tx.nonce in ListOf(mid.pending, tx.sender) || tx.nonce in ListOf(mid.queue, tx.sender))
      ensures locals == if err.None? && local
                           && !(&& tx.nonce in ListOf(old(pending), tx.sender)
                                && Spared(old(all.all), dropped, tx.sender, tx.nonce))
                        then old(locals) + {tx.sender}
                        else old(locals)
    {
      dropped, mid, replaced := [], View(), false;
      if HashOf(tx) in all.all {
        return false, Some(ErrKnownTransaction), [], mid;
      }
      err := ValidateTx(tx, local);
      if err.None? {
        AdmissibleCovers(this, tx, local);
        replaced, err, dropped, mid := AdmitFrom(tx, local);
      }
    }

    /** Does one thing. */
    method Do(op: Op)
      requires Valid() && Bounded()
      modifies this, all, priced
      ensures Valid() && Bounded() && old(locals) <= locals
    {
      match op {
        case AddTx(tx, local) =>
          var replaced, err, dropped, mid := Add(tx, local);
          AddedFits(head, cfg, old(locals), old(View()), old(all.all), tx, local, err, dropped, mid, View(), all.all);
        case Remove(hash) =>
          RemoveTx(hash, true, []);
        case Promote(accounts, now) =>
          var promoted := PromoteExecutables(accounts, now);
        case TrimPending =>
          var level := TruncatePending();
        case TrimQueue =>
          TruncateQueue();
        case Reorg(accounts, now) =>
          var promoted, filled, stamps, level, trimmed := RunReorg(accounts, now);
        case Reprice(price) =>
          SetGasPrice(price);
      }
      if !op.AddTx? {
        FewerFits(old(all.all), old(locals), all.all, locals, cfg.globalSlots + cfg.globalQueue);
      }
    }

    /**
     Whatever the pool is asked to do, in whatever order, it stays in order, and it exceeds its limit only
     when at most one of its transactions is remote.
     */
    method Run(ops: seq<Op>)
      requires Valid() && Bounded()
      modifies this, all, priced
      ensures Valid() && Bounded() && old(locals) <= locals
    {
      for i := 0 to |ops|
        invariant Valid() && Bounded() && old(locals) <= locals
      {
        Do(ops[i]);
      }
    }
  }

  lemma LeveledFewer(head: Head, was: Pool, locals: set<Address>, level: nat, now: Pool, all: Lookup, all': Lookup)
    requires Leveled(head, was, locals, level, now) && LookupExact(head, was, all) && LookupExact(head, now, all')
    ensures Fewer(all, all')
  {
    forall t | Live(all', t) ensures Live(all, t) {
      assert Pooled(head, now, t) && AccountLeveled(head, was, locals, level, now, t.sender);
      assert Pooled(head, was, t);
    }
  }

  lemma DrainedFewer(head: Head, was: Pool, now: Pool, all: Lookup, all': Lookup)
    requires SameExecutable(head, was, now) && forall a :: LowCut(ListOf(was.queue, a), ListOf(now.queue, a))
    requires LookupExact(head, was, all) && LookupExact(head, now, all')
    ensures Fewer(all, all')
  {
    forall t | Live(all', t) ensures Live(all, t) {
      assert Pooled(head, now, t) && LowCut(ListOf(was.queue, t.sender), ListOf(now.queue, t.sender));
      assert Pooled(head, was, t);
    }
  }

  lemma ReadiesFit(head: Head, pool: Pool, all: Lookup, a: Address, payable: Items, limit: Option<nat>, rest: Items,
      drops: seq<Tx>, readies: seq<Tx>, caps: seq<Tx>)
    requires PoolOk(head, pool) && LookupExact(head, pool, all) && Part(payable, ListOf(pool.queue, a))
    requires FallsInto(ListOf(pool.queue, a), payable, VirtualNonce(head, pool.nonces, a), limit, rest, drops, readies,
                       caps)
    ensures Keyed(payable) && forall t | t in readies :: t !in drops
    ensures Promotable(readies, payable, VirtualNonce(head, pool.nonces, a), ListOf(pool.pending, a), all)
  {
    var acct := AccountOf(head, pool, a);
    assert AccountOk(head, a, acct);
    forall n | n in payable ensures payable[n].nonce == n {
      assert payable[n] == acct.queued[n];
    }
    forall t | t in readies ensures Live(all, t) && t !in drops {
      var i :| 0 <= i < |readies| && readies[i] == t;
      assert RunAt(payable, acct.next, readies, i);
      assert Holds(acct.queued, t) && Pooled(head, pool, t);
    }
    PendingBelow(head, a, acct);
  }

  /** Locals may queue as many as they like. */
  function QueueLimit(cfg: PoolConfig, locals: set<Address>, a: Address): Option<nat> {
    if a in locals then None else Some(cfg.accountQueue)
  }

  ghost predicate PromotedAt(head: Head, cfg: PoolConfig, locals: set<Address>, was: Pool, done: seq<Address>,
      now: Pool, a: Address) {
    MaybePromoted(head, a, AccountOf(head, was, a), QueueLimit(cfg, locals, a), AccountOf(head, now, a), a in done)
  }

  /** The accounts named were promoted, the others left alone. */
  ghost predicate PromotedAll(head: Head, cfg: PoolConfig, locals: set<Address>, was: Pool, done: seq<Address>,
      now: Pool) {
    forall a {:trigger PromotedAt(head, cfg, locals, was, done, now, a)} ::
      PromotedAt(head, cfg, locals, was, done, now, a)
  }

  /** A named account has only payable ones queued, none next in line, and a remote one no more than it may. */
  lemma PromotionLimits(head: Head, cfg: PoolConfig, locals: set<Address>, was: Pool, done: seq<Address>, now: Pool)
    requires PromotedAll(head, cfg, locals, was, done, now)
    ensures forall a | a in done && a !in locals :: |ListOf(now.queue, a)| <= cfg.accountQueue
    ensures forall a | a in done :: VirtualNonce(head, now.nonces, a) !in ListOf(now.queue, a)
    ensures forall t: Tx | t.sender in done && Holds(ListOf(now.queue, t.sender), t) ::
              t.cost <= Balance(head, t.sender) && t.gas <= head.maxGas
  {
    forall a | a in done
      ensures a !in locals ==> |ListOf(now.queue, a)| <= cfg.accountQueue
      ensures VirtualNonce(head, now.nonces, a) !in ListOf(now.queue, a)
      ensures forall t: Tx | t.sender == a && Holds(ListOf(now.queue, a), t) ::
                t.cost <= Balance(head, a) && t.gas <= head.maxGas
    {
      assert PromotedAt(head, cfg, locals, was, done, now, a);
      PromotesSettles(head, a, AccountOf(head, was, a), QueueLimit(cfg, locals, a), AccountOf(head, now, a));
    }
  }

  lemma PromotionLoses(head: Head, cfg: PoolConfig, locals: set<Address>, was: Pool, all: Lookup, done: seq<Address>,
      now: Pool, all': Lookup, t: Tx)
    requires PoolOk(head, was) && LookupExact(head, was, all) && LookupExact(head, now, all')
    requires PromotedAll(head, cfg, locals, was, done, now) && Live(all, t) && !Live(all', t)
    ensures t.sender in done
    ensures t.cost <= Balance(head, t.sender) && t.gas <= head.maxGas ==>
              && t.sender !in locals && |ListOf(now.queue, t.sender)| == cfg.accountQueue
              && forall n | n in ListOf(now.queue, t.sender) :: n < t.nonce
  {
    var a := t.sender;
    assert PromotedAt(head, cfg, locals, was, done, now, a);
    assert Pooled(head, was, t) && !Pooled(head, now, t) && AccountOk(head, a, AccountOf(head, was, a));
    if t.cost <= Balance(head, a) && t.gas <= head.maxGas && a in done {
      PayableStays(head, a, AccountOf(head, was, a), QueueLimit(cfg, locals, a), AccountOf(head, now, a), t);
    }
  }

  lemma PromotedNone(head: Head, cfg: PoolConfig, locals: set<Address>, was: Pool)
    ensures PromotedAll(head, cfg, locals, was, [], was)
  {
  }

  lemma PromoteSkip(head: Head, cfg: PoolConfig, locals: set<Address>, was: Pool, done: seq<Address>, pool: Pool,
      a: Address)
    requires PoolOk(head, pool) && a !in pool.queue && PromotedAll(head, cfg, locals, was, done, pool)
    ensures PromotedAll(head, cfg, locals, was, done + [a], pool)
  {
    var acct, limit := AccountOf(head, pool, a), QueueLimit(cfg, locals, a);
    assert AccountOk(head, a, acct) && PromotedAt(head, cfg, locals, was, done, pool, a);
    PromotesNothing(head, a, acct, limit);
    PromotesMore(head, a, AccountOf(head, was, a), acct, limit, acct, a in done);
    forall b ensures PromotedAt(head, cfg, locals, was, done + [a], pool, b) {
      assert PromotedAt(head, cfg, locals, was, done, pool, b);
    }
  }

  /** One more account of many. */
  lemma PromoteStep(head: Head, cfg: PoolConfig, locals: set<Address>, was: Pool, done: seq<Address>, pool: Pool,
      a: Address, pool': Pool, promoted: seq<Tx>, more: seq<Tx>)
    requires PoolOk(head, pool) && NewTxs(was.pending, pool.pending, promoted)
    requires PromotedAll(head, cfg, locals, was, done, pool)
    requires Updated(head, pool, a, AccountOf(head, pool', a), pool')
    requires Promotes(head, a, AccountOf(head, pool, a), QueueLimit(cfg, locals, a), AccountOf(head, pool', a))
    requires NewIn(ListOf(pool.pending, a), ListOf(pool'.pending, a), more)
    ensures PromotedAll(head, cfg, locals, was, done + [a], pool')
    ensures NewTxs(was.pending, pool'.pending, promoted + more)
  {
    var acct, acct', limit := AccountOf(head, pool, a), AccountOf(head, pool', a), QueueLimit(cfg, locals, a);
    assert AccountOk(head, a, acct) && PromotedAt(head, cfg, locals, was, done, pool, a);
    PromotesMore(head, a, AccountOf(head, was, a), acct, limit, acct', a in done);
    forall b ensures PromotedAt(head, cfg, locals, was, done + [a], pool', b) {
      UpdatedAccount(head, pool, a, acct', pool', b);
      assert PromotedAt(head, cfg, locals, was, done, pool, b);
    }
    NewStep(head, was, pool, a, limit, pool', a in done, promoted, more);
  }

  lemma NewStep(head: Head, was: Pool, pool: Pool, a: Address, limit: Option<nat>, pool': Pool, done: bool,
      promoted: seq<Tx>, more: seq<Tx>)
    requires PoolOk(head, pool) && NewTxs(was.pending, pool.pending, promoted)
    requires MaybePromoted(head, a, AccountOf(head, was, a), limit, AccountOf(head, pool, a), done)
    requires Updated(head, pool, a, AccountOf(head, pool', a), pool')
    requires Promotes(head, a, AccountOf(head, pool, a), limit, AccountOf(head, pool', a))
    requires NewIn(ListOf(pool.pending, a), ListOf(pool'.pending, a), more)
    ensures NewTxs(was.pending, pool'.pending, promoted + more)
  {
    var acct, acct' := AccountOf(head, pool, a), AccountOf(head, pool', a);
    assert AccountOk(head, a, acct);
    if done {
      PromotesTwice(head, a, AccountOf(head, was, a), limit, acct, acct');
    }
    forall t: Tx
      ensures t in promoted + more <==>
              Holds(ListOf(pool'.pending, t.sender), t) && !Holds(ListOf(was.pending, t.sender), t)
    {
      assert t in promoted <==> Holds(ListOf(pool.pending, t.sender), t) && !Holds(ListOf(was.pending, t.sender), t);
      assert t in more <==> Holds(acct'.pending, t) && !Holds(acct.pending, t);
      if t.sender != a {
        PromotedAreOwn(head, a, acct, limit, acct', t);
        UpdatedAccount(head, pool, a, acct', pool', t.sender);
      } else if Holds(acct.pending, t) {
        PromotionKeeps(head, a, acct, limit, acct', t);
      }
    }
  }

  ghost predicate SentBy(txs: seq<Tx>, a: Address) {
    exists t :: t in txs && t.sender == a
  }

  ghost predicate StampedAt(was: map<Address, nat>, promoted: seq<Tx>, time: nat, now: map<Address, nat>, a: Address) {
    if SentBy(promoted, a) then a in now && now[a] == time
    else (a in now <==> a in was) && (a in now ==> now[a] == was[a])
  }

  /** Exactly the accounts of promoted transactions have a new heartbeat. */
  ghost predicate Stamped(was: map<Address, nat>, promoted: seq<Tx>, time: nat, now: map<Address, nat>) {
    forall a {:trigger StampedAt(was, promoted, time, now, a)} :: StampedAt(was, promoted, time, now, a)
  }

  lemma StampedStep(was: map<Address, nat>, promoted: seq<Tx>, time: nat, beats: map<Address, nat>, a: Address,
      more: seq<Tx>, beats': map<Address, nat>)
    requires Stamped(was, promoted, time, beats) && forall t | t in more :: t.sender == a
    requires beats' == if more == [] then beats else beats[a := time]
    ensures Stamped(was, promoted + more, time, beats')
  {
    forall b ensures StampedAt(was, promoted + more, time, beats', b) {
      assert StampedAt(was, promoted, time, beats, b);
      assert SentBy(promoted + more, b) <==> SentBy(promoted, b) || (b == a && more != []) by {
        if more != [] {
          assert more[0] in more && more[0] in promoted + more;
        }
      }
    }
  }

  ghost predicate NewTxs(was: Accounts, now: Accounts, txs: seq<Tx>) {
    forall t :: t in txs <==> Holds(ListOf(now, t.sender), t) && !Holds(ListOf(was, t.sender), t)
  }

  lemma PromotedOk(head: Head, pool: Pool, a: Address, payable: Items, limit: Option<nat>, rest: Items,
      drops: seq<Tx>, readies: seq<Tx>, caps: seq<Tx>, pool': Pool)
    requires PoolOk(head, pool)
    requires var acct := AccountOf(head, pool, a);
             && IsPayable(acct.queued, Balance(head, a), head.maxGas, payable)
             && FallsInto(acct.queued, payable, acct.next, limit, rest, drops, readies, caps)
             && Updated(head, pool, a, Promoted(acct, payable, |readies|, rest), pool')
    ensures PoolOk(head, pool')
    ensures AccountOf(head, pool', a) == Promoted(AccountOf(head, pool, a), payable, |readies|, rest)
    ensures Updated(head, pool, a, AccountOf(head, pool', a), pool')
    ensures Promotes(head, a, AccountOf(head, pool, a), limit, AccountOf(head, pool', a))
  {
    var acct := AccountOf(head, pool, a);
    var acct' := Promoted(acct, payable, |readies|, rest);
    assert AccountOk(head, a, acct);
    FallsPromotes(payable, acct, limit, rest, drops, readies, caps);
    PromotesOk(head, a, payable, acct, limit, acct');
    UpdatedOk(head, pool, a, acct', pool');
    UpdatedAccount(head, pool, a, acct', pool', a);
  }

  lemma PromotedExact(head: Head, pool: Pool, all: Lookup, a: Address, payable: Items, limit: Option<nat>,
      rest: Items, drops: seq<Tx>, readies: seq<Tx>, caps: seq<Tx>, pool': Pool, all': Lookup)
    requires PoolOk(head, pool) && LookupExact(head, pool, all) && LookupOk(all') && Without(all, drops + caps, all')
    requires var acct := AccountOf(head, pool, a);
             && Part(payable, acct.queued)
             && FallsInto(acct.queued, payable, acct.next, limit, rest, drops, readies, caps)
             && Updated(head, pool, a, Promoted(acct, payable, |readies|, rest), pool')
    ensures LookupExact(head, pool', all')
  {
    var acct := AccountOf(head, pool, a);
    assert AccountOk(head, a, acct);
    var acct' := Promoted(acct, payable, |readies|, rest);
    forall t: Tx
      ensures t.sender != a ==> (Live(all', t) <==> Live(all, t))
      ensures t.sender == a ==> (Live(all', t) <==> Contains(acct', t))
    {
      PromotesLoses(head, a, payable, acct, limit, rest, drops, readies, caps, t);
      assert Live(all, t) <==> Pooled(head, pool, t);
    }
    UpdatedExact(head, pool, all, a, acct', pool', all');
  }

  /** The virtual nonces once account `a`'s is at most `nonce`. */
  ghost predicate Lowered(head: Head, was: map<Address, nat>, a: Address, nonce: nat, now: map<Address, nat>) {
    forall b :: VirtualNonce(head, now, b) ==
                if b == a && nonce < VirtualNonce(head, was, a) then nonce else VirtualNonce(head, was, b)
  }

  lemma TrimmedConsistent(head: Head, pool: Pool, all: Lookup, a: Address, kept: Items, pool': Pool)
    requires PoolOk(head, pool) && LookupExact(head, pool, all) && a in pool.pending
    requires var acct := AccountOf(head, pool, a);
             && 0 < acct.next && acct.next - 1 in acct.pending
             && kept == acct.pending - {acct.next - 1} && kept != map[]
             && pool'.pending == pool.pending[a := kept] && pool'.queue == pool.queue
             && Lowered(head, pool.nonces, a, acct.next - 1, pool'.nonces)
    ensures var acct := AccountOf(head, pool, a);
            && Updated(head, pool, a, Trimmed(acct), pool')
            && PoolOk(head, pool') && LookupExact(head, pool', all - {HashOf(acct.pending[acct.next - 1])})
  {
    var acct := AccountOf(head, pool, a);
    assert AccountOk(head, a, acct);
    RewriteSame(pool.queue, a);
    TrimmedOk(head, a, acct);
    var tx := acct.pending[acct.next - 1];
    var all' := all - {HashOf(tx)};
    UpdatedOk(head, pool, a, Trimmed(acct), pool');
    forall t: Tx
      ensures t.sender != a ==> (Live(all', t) <==> Live(all, t))
      ensures t.sender == a ==> (Live(all', t) <==> Contains(Trimmed(acct), t))
    {
      assert Live(all, t) <==> Pooled(head, pool, t);
    }
    UpdatedExact(head, pool, all, a, Trimmed(acct), pool', all');
  }

  /** The executable ones fit, or no remote account has more than its share; likewise for the queued ones. */
  ghost predicate WithinLimits(cfg: PoolConfig, locals: set<Address>, pool: Pool) {
    && PendingWithin(cfg, locals, pool)
    && (Size(pool.queue) <= cfg.globalQueue || forall a | a in pool.queue :: a in locals)
  }

  ghost predicate PendingWithin(cfg: PoolConfig, locals: set<Address>, pool: Pool) {
    || Size(pool.pending) <= cfg.globalSlots
    || forall a | a in pool.pending && a !in locals :: |pool.pending[a]| <= cfg.accountSlots
  }

  /** The executable lists fit, or were cut to a level. */
  ghost predicate Trims(head: Head, cfg: PoolConfig, locals: set<Address>, was: Pool, level: nat, now: Pool) {
    if Size(was.pending) <= cfg.globalSlots then now == was
    else WaterFilled(head, was, locals, cfg.accountSlots, cfg.globalSlots, level, now)
  }

  /** The queues fit, or were drained. */
  ghost predicate Drains(cfg: PoolConfig, locals: set<Address>, beats: map<Address, nat>, was: Accounts,
      now: Accounts) {
    if Size(was) <= cfg.globalQueue then now == was else Drained(was, locals, beats, cfg.globalQueue, now)
  }

  /** What draining leaves of the queues. */
  lemma DrainedLists(cfg: PoolConfig, locals: set<Address>, beats: map<Address, nat>, was: Accounts, now: Accounts)
    requires Drains(cfg, locals, beats, was, now)
    ensures forall a | a in locals :: ListOf(now, a) == ListOf(was, a)
    ensures Size(now) <= cfg.globalQueue || forall a | a in now :: a in locals
    ensures Size(was) > cfg.globalQueue ==> Size(now) >= cfg.globalQueue
  {
  }

  /** What trimming leaves of each list. */
  lemma TrimmedLists(head: Head, cfg: PoolConfig, locals: set<Address>, was: Pool, level: nat, now: Pool)
    requires PoolOk(head, was) && PoolOk(head, now) && Trims(head, cfg, locals, was, level, now)
    ensures forall a | a in locals :: ListOf(now.pending, a) == ListOf(was.pending, a)
    ensures forall a | |ListOf(was.pending, a)| <= cfg.accountSlots :: ListOf(now.pending, a) == ListOf(was.pending, a)
    ensures Size(now.pending) <= cfg.globalSlots || forall a | a !in locals ::
              |ListOf(now.pending, a)| <= cfg.accountSlots
    ensures forall a | ListOf(now.pending, a) != ListOf(was.pending, a) ::
              |ListOf(now.pending, a)| >= cfg.accountSlots
              && IsLowest(ListOf(now.pending, a), ListOf(was.pending, a), |ListOf(now.pending, a)|)
  {
    if Size(was.pending) > cfg.globalSlots {
      forall a
        ensures a in locals ==> ListOf(now.pending, a) == ListOf(was.pending, a)
        ensures a !in locals ==>
                  |ListOf(now.pending, a)| ==
                  if |ListOf(was.pending, a)| <= level then |ListOf(was.pending, a)| else level
        ensures a !in locals ==> IsLowest(ListOf(now.pending, a), ListOf(was.pending, a), level)
      {
        TrimmedList(head, was, locals, level, now, a);
      }
      forall a | a !in locals && |ListOf(was.pending, a)| <= level
        ensures ListOf(now.pending, a) == ListOf(was.pending, a)
      {
        SameWhenWhole(ListOf(now.pending, a), ListOf(was.pending, a), level);
      }
    }
  }

  lemma TrimmedList(head: Head, was: Pool, locals: set<Address>, level: nat, now: Pool, a: Address)
    requires PoolOk(head, was) && PoolOk(head, now) && Leveled(head, was, locals, level, now)
    ensures a in locals ==> ListOf(now.pending, a) == ListOf(was.pending, a)
    ensures a !in locals ==>
              |ListOf(now.pending, a)| == if |ListOf(was.pending, a)| <= level then |ListOf(was.pending, a)| else level
    ensures a !in locals ==> IsLowest(ListOf(now.pending, a), ListOf(was.pending, a), level)
  {
    assert AccountLeveled(head, was, locals, level, now, a);
    LeveledLength(head, was, locals, level, now, a);
    if a !in locals {
      assert AccountOk(head, a, AccountOf(head, was, a)) && AccountOk(head, a, AccountOf(head, now, a));
      LevelIsLowest(head, a, AccountOf(head, was, a), level, AccountOf(head, now, a));
    }
  }

  lemma SameWhenWhole(kept: Items, items: Items, k: nat)
    requires IsLowest(kept, items, k) && |kept| == |items|
    ensures kept == items
  {
    LowestIsPart(items, k, kept);
    if kept.Keys != items.Keys {
      SmallerKeys(kept.Keys, items.Keys);
    }
  }

  lemma PendingLimited(head: Head, cfg: PoolConfig, locals: set<Address>, was: Pool, level: nat, now: Pool)
    requires PoolOk(head, was) && PoolOk(head, now)
    requires Trims(head, cfg, locals, was, level, now)
    ensures PendingWithin(cfg, locals, now)
  {
    if Size(now.pending) > cfg.globalSlots {
      forall a | a in now.pending && a !in locals ensures |now.pending[a]| <= cfg.accountSlots {
        assert AccountLeveled(head, was, locals, level, now, a);
        LeveledLength(head, was, locals, level, now, a);
      }
    }
  }

  lemma LastNonce(head: Head, a: Address, acct: Account, txs: seq<Tx>)
    requires AccountOk(head, a, acct) && acct.pending != map[] && Listing(acct.pending, txs)
    ensures txs != [] && txs[|txs| - 1].nonce + 1 == acct.next
  {
    TrimmedOk(head, a, acct);
    var top := acct.pending[acct.next - 1];
    assert Holds(acct.pending, top) && top in txs;
    var i :| 0 <= i < |txs| && txs[i] == top;
    var last := txs[|txs| - 1];
    assert last in txs && SlotOk(head, a, acct, last.nonce);
    LastIsHighest(txs, i);
  }

  lemma LastIsHighest(txs: seq<Tx>, i: nat)
    requires Ascending(Nonces(txs)) && i < |txs|
    ensures txs[i].nonce <= txs[|txs| - 1].nonce
  {
    assert Nonces(txs)[i] <= Nonces(txs)[|txs| - 1];
  }

  lemma SameOk(head: Head, was: Pool, all: Lookup, now: Pool)
    requires PoolOk(head, was) && LookupExact(head, was, all) && SameExecutable(head, was, now)
    requires now.queue == was.queue
    ensures PoolOk(head, now) && LookupExact(head, now, all)
  {
    forall a ensures AccountOf(head, now, a) == AccountOf(head, was, a) {
    }
    forall t: Tx ensures Pooled(head, now, t) <==> Pooled(head, was, t) {
      assert AccountOf(head, now, t.sender) == AccountOf(head, was, t.sender);
    }
  }

  /** Transactions that can become executable: consecutive, known, and at free slots. */
  ghost predicate Promotable(readies: seq<Tx>, payable: Items, next: nat, pending: Items, all: Lookup) {
    && IsRun(payable, next, readies)
    && (forall t | t in readies :: Live(all, t))
    && (forall n | n in pending :: n < next)
  }

  /** The pending lists once the first `i` of a run have been promoted. */
  ghost function WithRun(pending: Accounts, a: Address, payable: Items, next: nat, i: nat): Accounts {
    WithList(pending, a, Extended(ListOf(pending, a), payable, next, next + i))
  }

  lemma PromoteOne(was: Accounts, pending: Accounts, a: Address, payable: Items, next: nat, readies: seq<Tx>, i: nat,
      all: Lookup)
    requires i < |readies| && Promotable(readies, payable, next, ListOf(was, a), all) && Keyed(payable)
    requires pending == WithRun(was, a, payable, next, i)
    ensures readies[i].nonce == next + i && readies[i].nonce !in ListOf(pending, a) && Live(all, readies[i])
    ensures pending[a := ListOf(pending, a)[readies[i].nonce := readies[i]]] == WithRun(was, a, payable, next, i + 1)
  {
    assert RunAt(payable, next, readies, i);
    assert readies[i] in readies;
    forall k | next <= k < next + i ensures k in payable {
      assert RunAt(payable, next, readies, k - next);
    }
    ExtendedAt(ListOf(was, a), payable, next, next + i, next + i);
    assert Extended(ListOf(was, a), payable, next, next + i + 1) ==
           Extended(ListOf(was, a), payable, next, next + i)[next + i := readies[i]];
  }

  /** What admission asks for, put positively. */
  ghost predicate Meets(pool: TxPool, tx: Tx, local: bool)
    reads pool
  {
    && (tx.isVault ==> tx.price == 0 && tx.body.data != [] && tx.cost == tx.price * tx.gas)
    && tx.body.size <= 1024 * (if pool.cfg.sizeLimit == 0 then 32 else pool.cfg.sizeLimit)
    && tx.cost >= tx.price * tx.gas
    && tx.gas <= pool.head.maxGas
    && tx.body.signed
    && pool.cfg.isGas && (local || tx.sender in pool.locals || tx.isVault || tx.price >= pool.gasPrice)
    && tx.nonce >= StateNonce(pool.head, tx.sender)
    && Balance(pool.head, tx.sender) >= tx.cost
    && Balance(pool.head, tx.sender) >= pool.cfg.requiredMinFunds * 10_000_000_000_000_000
    && SmiloPay(pool.head, tx.sender) >= tx.price * tx.gas
    && StateTransitions.IntrinsicCost(tx.body.data, tx.body.creation, true) <= MAX_U64
    && StateTransitions.IntrinsicCost(tx.body.data, tx.body.creation, true) <= tx.gas
  }

  lemma AdmissibleMeets(pool: TxPool, tx: Tx, local: bool)
    requires pool.Admissible(tx, local)
    ensures Meets(pool, tx, local)
  {
    assert !pool.Violates(ErrInvalidGasPrice, tx, local) && !pool.Violates(ErrOversizedData, tx, local);
    assert !pool.Violates(ErrNegativeValue, tx, local) && !pool.Violates(ErrGasLimit, tx, local);
    assert !pool.Violates(ErrInvalidSender, tx, local) && !pool.Violates(ErrUnderpriced, tx, local);
    assert !pool.Violates(ErrNonceTooLow, tx, local) && !pool.Violates(ErrEtherValueUnsupported, tx, local);
    assert !pool.Violates(ErrInsufficientFunds, tx, local) && !pool.Violates(ErrInsufficientMinFunds, tx, local);
    assert !pool.Violates(ErrInsufficientSmiloPay, tx, local) && !pool.Violates(ErrOutOfGas, tx, local);
    assert !pool.Violates(ErrIntrinsicGas, tx, local);
  }

  lemma AdmissibleCovers(pool: TxPool, tx: Tx, local: bool)
    requires pool.Admissible(tx, local)
    ensures 0 <= tx.cost <= Balance(pool.head, tx.sender) && tx.gas <= pool.head.maxGas
    ensures StateNonce(pool.head, tx.sender) <= tx.nonce && tx.body.signed
  {
    AdmissibleMeets(pool, tx, local);
    assert tx.price * tx.gas >= 0;
  }

  /** What a transaction refused for a reason is like. */
  lemma ErrorMeans(pool: TxPool, rule: PoolError, tx: Tx, local: bool)
    requires pool.Violates(rule, tx, local)
    ensures match rule
            case ErrInvalidGasPrice => tx.isVault && tx.price > 0
            case ErrOversizedData => tx.body.size > 1024 * (if pool.cfg.sizeLimit == 0 then 32 else pool.cfg.sizeLimit)
            case ErrNegativeValue => tx.cost < tx.price * tx.gas
            case ErrGasLimit => tx.gas > pool.head.maxGas
            case ErrInvalidSender => !tx.body.signed
            case ErrUnderpriced => !pool.cfg.isGas || (!local && tx.sender !in pool.locals && tx.price < pool.gasPrice)
            case ErrNonceTooLow => tx.nonce < StateNonce(pool.head, tx.sender)
            case ErrEtherValueUnsupported => tx.isVault && (tx.body.data == [] || tx.cost != tx.price * tx.gas)
            case ErrInsufficientFunds => Balance(pool.head, tx.sender) < tx.cost
            case ErrInsufficientMinFunds =>
              Balance(pool.head, tx.sender) < pool.cfg.requiredMinFunds * 10_000_000_000_000_000
            case ErrInsufficientSmiloPay => SmiloPay(pool.head, tx.sender) < tx.price * tx.gas
            case ErrOutOfGas => StateTransitions.IntrinsicCost(tx.body.data, tx.body.creation, true) > MAX_U64
            case ErrIntrinsicGas => tx.gas < StateTransitions.IntrinsicCost(tx.body.data, tx.body.creation, true)
            case ErrKnownTransaction => false
            case ErrReplaceUnderpriced => false
  {
  }

  /** No rule objects exactly when everything asked for is met. */
  lemma AdmissibleIff(pool: TxPool, tx: Tx, local: bool)
    ensures pool.Admissible(tx, local) <==> Meets(pool, tx, local)
  {
    if pool.Admissible(tx, local) {
      AdmissibleMeets(pool, tx, local);
    }
  }

  /** Whether a full pool has no place for a remote transaction. */
  ghost predicate TooCheap(cfg: PoolConfig, locals: set<Address>, all: Lookup, tx: Tx, local: bool) {
    && |all| >= cfg.globalSlots + cfg.globalQueue
    && !local && (!cfg.isSmilo || cfg.isGas) && tx.sender !in locals && NoneCheaper(all, tx)
  }

  /**
   What filing an admitted transaction does: room is made for it, if need be, by evicting the cheapest remote ones,
   and then the account takes it or refuses it. On success exactly the newcomer is new, and gone are the
   transaction it replaces and the evicted ones. A transaction too cheap for a full pool changes nothing.
   */
  ghost predicate Filed(head: Head, cfg: PoolConfig, locals: set<Address>, was: Pool, all: Lookup, tx: Tx, local: bool,
      err: Option<PoolError>, dropped: seq<Tx>, mid: Pool, now: Pool, all': Lookup)
  {
    && (err.None? || err == Some(ErrReplaceUnderpriced) || err == Some(ErrUnderpriced))
    && (err == Some(ErrUnderpriced) <==> TooCheap(cfg, locals, all, tx, local))
    && (err == Some(ErrUnderpriced) ==> dropped == [] && now == was && all' == all)
    && (err == Some(ErrReplaceUnderpriced) ==> Without(all, dropped, all'))
    && (err.None? ==> Gained(all, dropped, tx, all'))
    && (if |all| < cfg.globalSlots + cfg.globalQueue || err == Some(ErrUnderpriced) then dropped == []
        else Cheapest(all, locals, dropped)
             && MadeRoom(all, locals, dropped, |all| - (cfg.globalSlots + cfg.globalQueue - 1)))
    && EvictedTo(head, was, all, dropped, mid)
    && (err != Some(ErrUnderpriced) ==>
          if AcceptedBy(AccountOf(head, mid, tx.sender), tx, cfg.priceBump)
          then err.None? && Updated(head, mid, tx.sender, AcctPut(AccountOf(head, mid, tx.sender), tx), now)
          else err.Some? && now == mid)
  }

  /** What making room does. */
  ghost predicate HasRoom(head: Head, cfg: PoolConfig, locals: set<Address>, was: Pool, all: Lookup, tx: Tx,
      local: bool, underpriced: bool, dropped: seq<Tx>, mid: Pool, between: Lookup)
  {
    && (underpriced <==> TooCheap(cfg, locals, all, tx, local))
    && (dropped == [] ==> mid == was && between == all)
    && (if |all| < cfg.globalSlots + cfg.globalQueue || underpriced then dropped == []
        else Cheapest(all, locals, dropped)
             && MadeRoom(all, locals, dropped, |all| - (cfg.globalSlots + cfg.globalQueue - 1)))
    && EvictedTo(head, was, all, dropped, mid) && Without(all, dropped, between)
  }

  lemma InsertedIsFiled(head: Head, cfg: PoolConfig, locals: set<Address>, was: Pool, all: Lookup, tx: Tx, local: bool,
      dropped: seq<Tx>, mid: Pool, between: Lookup, ok: bool, now: Pool, all': Lookup)
    requires HasRoom(head, cfg, locals, was, all, tx, local, false, dropped, mid, between)
    requires ok <==> AcceptedBy(AccountOf(head, mid, tx.sender), tx, cfg.priceBump)
    requires !ok ==> now == mid && all' == between
    requires ok ==> Updated(head, mid, tx.sender, AcctPut(AccountOf(head, mid, tx.sender), tx), now)
    requires ok ==> Gained(between, [], tx, all')
    ensures var err := if ok then None else Some(ErrReplaceUnderpriced);
            Filed(head, cfg, locals, was, all, tx, local, err, dropped, mid, now, all')
  {
    if ok {
      GainedAfter(all, dropped, between, tx, all');
    }
  }

  lemma NothingEvicted(head: Head, pool: Pool, all: Lookup)
    requires PoolOk(head, pool) && LookupExact(head, pool, all)
    ensures EvictedTo(head, pool, all, [], pool)
  {
    SparesAll(pool.pending, all);
    SparedIsEvicted(head, pool, all, [], pool, all);
  }

  /** The newcomer's slot is executable after the call exactly when it was and making room spared it. */
  lemma FiledSlot(head: Head, cfg: PoolConfig, locals: set<Address>, was: Pool, all: Lookup, tx: Tx, local: bool,
      err: Option<PoolError>, dropped: seq<Tx>, mid: Pool, now: Pool, all': Lookup)
    requires Filed(head, cfg, locals, was, all, tx, local, err, dropped, mid, now, all') && PoolOk(head, was)
    ensures err.None? ==>
              (tx.nonce in ListOf(now.pending, tx.sender) <==>
               tx.nonce in ListOf(was.pending, tx.sender) && Spared(all, dropped, tx.sender, tx.nonce))
  {
    if err.None? {
      EvictedSlot(head, was, all, dropped, mid, tx.sender, tx.nonce);
      UpdatedAccount(head, mid, tx.sender, AcctPut(AccountOf(head, mid, tx.sender), tx), now, tx.sender);
    }
  }

  /** While the pool is not full, filing evicts nothing and succeeds exactly when the account takes the newcomer. */
  lemma FiledWithRoom(head: Head, cfg: PoolConfig, locals: set<Address>, was: Pool, all: Lookup, tx: Tx, local: bool,
      err: Option<PoolError>, dropped: seq<Tx>, mid: Pool, now: Pool, all': Lookup)
    requires Filed(head, cfg, locals, was, all, tx, local, err, dropped, mid, now, all') && PoolOk(head, was)
    requires |all| < cfg.globalSlots + cfg.globalQueue
    ensures dropped == [] && (err.None? <==> AcceptedBy(AccountOf(head, was, tx.sender), tx, cfg.priceBump))
    ensures err.None? ==> (tx.nonce in ListOf(now.pending, tx.sender) <==> tx.nonce in ListOf(was.pending, tx.sender))
  {
    FiledSlot(head, cfg, locals, was, all, tx, local, err, dropped, mid, now, all');
  }

  lemma AddedFits(head: Head, cfg: PoolConfig, locals: set<Address>, was: Pool, all: Lookup, tx: Tx, local: bool,
      err: Option<PoolError>, dropped: seq<Tx>, mid: Pool, now: Pool, all': Lookup)
    requires Sanitized(cfg) && Fits(all, locals, cfg.globalSlots + cfg.globalQueue)
    requires all' == all || Filed(head, cfg, locals, was, all, tx, local, err, dropped, mid, now, all')
    ensures Fits(all', locals, cfg.globalSlots + cfg.globalQueue)
    ensures forall gained: Address :: Fits(all', locals + {gained}, cfg.globalSlots + cfg.globalQueue)
  {
    var limit := cfg.globalSlots + cfg.globalQueue;
    if all' != all {
      if err.None? {
        GainedFits(all, locals, dropped, tx, all', limit);
      } else {
        FewerFits(all, locals, all', locals, limit);
      }
    }
    forall gained: Address ensures Fits(all', locals + {gained}, limit) {
      FewerFits(all', locals, all', locals + {gained}, limit);
    }
  }

  ghost predicate NoneCheaper(all: Lookup, tx: Tx) {
    (exists t :: Live(all, t)) && (forall t | Live(all, t) :: tx.price <= t.price)
  }

  /** Whether an account takes a transaction, in the list that its nonce belongs to. */
  ghost predicate AcceptedBy(acct: Account, tx: Tx, priceBump: nat) {
    if tx.nonce in acct.pending then Accepts(acct.pending, tx, priceBump) else Accepts(acct.queued, tx, priceBump)
  }

  lemma InsertedConsistent(head: Head, pool: Pool, all: Lookup, tx: Tx, pool': Pool, all': Lookup)
    requires PoolOk(head, pool) && LookupExact(head, pool, all) && StateNonce(head, tx.sender) <= tx.nonce
    requires pool'.nonces == pool.nonces
    requires if tx.nonce in ListOf(pool.pending, tx.sender)
             then && pool'.pending == pool.pending[tx.sender := ListOf(pool.pending, tx.sender)[tx.nonce := tx]]
                  && pool'.queue == pool.queue
             else && pool'.queue == pool.queue[tx.sender := ListOf(pool.queue, tx.sender)[tx.nonce := tx]]
                  && pool'.pending == pool.pending
    requires var list := if tx.nonce in ListOf(pool.pending, tx.sender) then ListOf(pool.pending, tx.sender)
                         else ListOf(pool.queue, tx.sender);
             all' == WithoutReplaced(all, list, tx)[HashOf(tx) := tx]
    ensures Updated(head, pool, tx.sender, AcctPut(AccountOf(head, pool, tx.sender), tx), pool')
    ensures PoolOk(head, pool') && LookupExact(head, pool', all')
    ensures forall t :: Live(all', t) <==> t == tx || (Live(all, t) && !(t.sender == tx.sender && t.nonce == tx.nonce))
  {
    var a, acct := tx.sender, AccountOf(head, pool, tx.sender);
    assert Updated(head, pool, a, AcctPut(acct, tx), pool') by {
      RewriteSame(pool.pending, a);
      RewriteSame(pool.queue, a);
    }
    AcctPutOk(head, a, acct, tx);
    UpdatedOk(head, pool, a, AcctPut(acct, tx), pool');
    InsertedLookup(head, pool, all, tx, all');
    UpdatedExact(head, pool, all, a, AcctPut(acct, tx), pool', all');
  }

  lemma InsertedLookup(head: Head, pool: Pool, all: Lookup, tx: Tx, all': Lookup)
    requires PoolOk(head, pool) && LookupExact(head, pool, all)
    requires var list := if tx.nonce in ListOf(pool.pending, tx.sender) then ListOf(pool.pending, tx.sender)
                         else ListOf(pool.queue, tx.sender);
             all' == WithoutReplaced(all, list, tx)[HashOf(tx) := tx]
    ensures LookupOk(all')
    ensures forall t :: Live(all', t) <==> t == tx || (Live(all, t) && !(t.sender == tx.sender && t.nonce == tx.nonce))
    ensures forall t: Tx | t.sender == tx.sender :: Live(all, t) <==> Contains(AccountOf(head, pool, tx.sender), t)
  {
    var acct := AccountOf(head, pool, tx.sender);
    assert AccountOk(head, tx.sender, acct);
    Disjoint(head, tx.sender, acct, tx.nonce);
    forall t: Tx | t.sender == tx.sender ensures Live(all, t) <==> Contains(acct, t) {
      assert Live(all, t) <==> Pooled(head, pool, t);
    }
  }

  lemma RewriteSame(lists: Accounts, a: Address)
    requires NoEmptyList(lists)
    ensures WithList(lists, a, ListOf(lists, a)) == lists
  {
  }

  /** Transactions that can go back to an account's queue: known, filed in `src`, and with a free slot. */
  ghost predicate Requeueable(txs: seq<Tx>, a: Address, src: Items, queued: Items, all: Lookup) {
    forall t | t in txs :: t.sender == a && Holds(src, t) && t.nonce !in queued && Live(all, t)
  }

  ghost predicate OthersLive(items: Items, n: nat, all: Lookup) {
    forall t | Holds(items, t) && t.nonce != n :: Live(all, t)
  }

  /** What goes back to the queue was behind the nonce, and its slots there are free. */
  lemma InvalidsFit(head: Head, a: Address, acct: Account, n: nat, invalids: seq<Tx>, all: Lookup)
    requires AccountOk(head, a, acct) && n in acct.pending && OthersLive(acct.pending, n, all)
    requires forall t | t in invalids :: Holds(acct.pending - {n}, t)
    ensures Requeueable(invalids, a, acct.pending - {n}, acct.queued, all)
  {
    forall t | t in invalids ensures t.sender == a && t.nonce !in acct.queued && Live(all, t) {
      assert Holds(acct.pending - {n}, t) && Holds(acct.pending, t);
      Disjoint(head, a, acct, t.nonce);
    }
  }

  lemma SameBehind(items: Items, n: nat)
    ensures Only(items - {n}, Above(items - {n}, n)) == Only(items, Above(items - {n}, n))
  {
    assert Above(items - {n}, n) <= items.Keys - {n};
  }

  /** A known transaction is found by its nonce, and its account's others are known too. */
  lemma KnownIsThere(head: Head, pool: Pool, all: Lookup, tx: Tx)
    requires PoolOk(head, pool) && LookupExact(head, pool, all) && Live(all, tx)
    ensures all[HashOf(tx)] == tx
    ensures Holds(ListOf(pool.pending, tx.sender), tx) || Holds(ListOf(pool.queue, tx.sender), tx)
    ensures forall t: Tx | Holds(ListOf(pool.pending, tx.sender), t) :: Live(all, t)
  {
    assert Pooled(head, pool, tx);
    forall t: Tx | Holds(ListOf(pool.pending, tx.sender), t) ensures Live(all, t) {
      assert AccountOk(head, tx.sender, AccountOf(head, pool, tx.sender));
      assert t.sender == tx.sender && Pooled(head, pool, t);
    }
  }

  lemma RemovedConsistent(head: Head, pool: Pool, all: Lookup, tx: Tx, pool': Pool)
    requires PoolOk(head, pool) && LookupExact(head, pool, all) && Live(all, tx)
    requires Updated(head, pool, tx.sender, AcctRemove(AccountOf(head, pool, tx.sender), tx.nonce), pool')
    ensures PoolOk(head, pool') && LookupExact(head, pool', all - {HashOf(tx)})
  {
    var a, acct := tx.sender, AccountOf(head, pool, tx.sender);
    assert PoolOk(head, pool') by {
      AcctRemoveOk(head, a, acct, tx.nonce);
      UpdatedOk(head, pool, a, AcctRemove(acct, tx.nonce), pool');
    }
    RemovedLookup(head, pool, all, tx);
    UpdatedExact(head, pool, all, a, AcctRemove(acct, tx.nonce), pool', all - {HashOf(tx)});
  }

  lemma RemovedLookup(head: Head, pool: Pool, all: Lookup, tx: Tx)
    requires PoolOk(head, pool) && LookupExact(head, pool, all) && Live(all, tx)
    ensures var all' := all - {HashOf(tx)};
            && LookupOk(all')
            && (forall t: Tx | t.sender != tx.sender :: Live(all', t) <==> Live(all, t))
            && (forall t: Tx | t.sender == tx.sender ::
                  Live(all', t) <==> Contains(AcctRemove(AccountOf(head, pool, tx.sender), tx.nonce), t))
  {
    var acct := AccountOf(head, pool, tx.sender);
    assert AccountOk(head, tx.sender, acct);
    OnlyOneAtNonce(head, pool, all, tx);
    AcctRemoveLoses(head, tx.sender, acct, tx.nonce);
    forall t: Tx ensures Live(all - {HashOf(tx)}, t) <==> Live(all, t) && t != tx {
    }
  }

  /** Sender and nonce name at most one known transaction. */
  lemma OnlyOneAtNonce(head: Head, pool: Pool, all: Lookup, tx: Tx)
    requires PoolOk(head, pool) && LookupExact(head, pool, all) && Live(all, tx)
    ensures forall t | Live(all, t) && t.sender == tx.sender :: t.nonce == tx.nonce <==> t == tx
    ensures forall t: Tx | t.sender == tx.sender :: Live(all, t) <==> Contains(AccountOf(head, pool, tx.sender), t)
  {
    var acct := AccountOf(head, pool, tx.sender);
    assert AccountOk(head, tx.sender, acct);
    assert Pooled(head, pool, tx);
    forall t: Tx | t.sender == tx.sender ensures Live(all, t) <==> Contains(acct, t) {
      assert Live(all, t) <==> Pooled(head, pool, t);
    }
    Disjoint(head, tx.sender, acct, tx.nonce);
  }

  lemma EnqueueNone(queue: Accounts, a: Address, src: Items)
    requires NoEmptyList(queue)
    ensures queue == WithList(queue, a, ListOf(queue, a) + Only(src, SetOf(Nonces([]))))
  {
    assert Nonces([]) == [];
    assert Only(src, {}) == map[];
    assert ListOf(queue, a) + map[] == ListOf(queue, a);
  }

  /** Each further transaction is either already queued, and refused, or free, and accepted. */
  lemma EnqueueOne(was: Accounts, queue: Accounts, a: Address, base: Items, src: Items, txs: seq<Tx>, i: nat)
    requires i < |txs| && base == ListOf(was, a)
    requires forall t | t in txs :: t.sender == a && Holds(src, t) && t.nonce !in base
    requires queue == WithList(was, a, base + Only(src, SetOf(Nonces(txs[..i]))))
    ensures var list, tx := ListOf(queue, a), txs[i];
            var next := base + Only(src, SetOf(Nonces(txs[..i + 1])));
            && (tx.nonce in list ==> list[tx.nonce] == tx && WithList(was, a, next) == queue)
            && (tx.nonce !in list ==> queue[a := list[tx.nonce := tx]] == WithList(was, a, next))
  {
    var tx := txs[i];
    assert tx in txs;
    var list, next := base + Only(src, SetOf(Nonces(txs[..i]))), base + Only(src, SetOf(Nonces(txs[..i + 1])));
    OneMore(base, src, txs, i);
    assert ListOf(queue, a) == list;
    if tx.nonce in list {
      assert list[tx.nonce := tx] == list;
    } else {
      assert queue[a := next] == was[a := next];
    }
  }

  lemma OneMore(base: Items, src: Items, txs: seq<Tx>, i: nat)
    requires i < |txs| && Holds(src, txs[i]) && txs[i].nonce !in base
    ensures var list, next := base + Only(src, SetOf(Nonces(txs[..i]))), base + Only(src, SetOf(Nonces(txs[..i + 1])));
            next == list[txs[i].nonce := txs[i]] && (txs[i].nonce in list ==> list[txs[i].nonce] == txs[i])
  {
    var done, more := SetOf(Nonces(txs[..i])), SetOf(Nonces(txs[..i + 1]));
    assert Nonces(txs[..i + 1]) == Nonces(txs[..i]) + [txs[i].nonce];
    assert more == done + {txs[i].nonce};
    assert Only(src, more) == Only(src, done)[txs[i].nonce := txs[i]];
  }

  /** The lookup once the transaction that `tx` replaces in a list is gone. */
  function WithoutReplaced(all: Lookup, list: Items, tx: Tx): Lookup {
    if tx.nonce in list then all - {HashOf(list[tx.nonce])} else all
  }
}
