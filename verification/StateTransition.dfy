/**
 Gas and balance accounting of one message and of a whole block.

 The virtual machine is a parameter: it burns some of the gas it is given, moves balances between
 accounts, leaves a refund counter and may fail.
 */
module StateTransitions {
  import opened Basics

  const TX_GAS: nat := 21000
  const TX_GAS_CONTRACT_CREATION: nat := 53000
  const TX_DATA_ZERO_GAS: nat := 4
  const TX_DATA_NON_ZERO_GAS: nat := 68

  type Balances = map<Address, nat>

  datatype Error =
    | ErrNonceTooHigh
    | ErrNonceTooLow
    | ErrInsufficientSmiloPay
    | ErrInsufficientBalanceForGas
    | ErrGasLimitReached
    | ErrOutOfGas
    | ErrInsufficientBalance
    | ErrInvalidGasPrice
    | ErrInvalidSender

  datatype VmError = VmOk | VmInsufficientBalance | VmOther

  datatype Transfer = Transfer(from: Address, to: Address, amount: nat)

  /** One execution of the virtual machine. */
  datatype VmRun = VmRun(burn: nat, transfers: seq<Transfer>, refund: U64, error: VmError)

  /** What the vault answers for a vault message's payload. */
  datatype VaultReply = Offline | NotParticipant | Payload(data: seq<Byte>)

  datatype Message = Message(
    from: Address,
    to: Option<Address>,
    gasPrice: nat,
    gas: U64,
    nonce: nat,
    checkNonce: bool,
    data: seq<Byte>,
    isVault: bool)

  datatype Config = Config(homestead: bool, isSmilo: bool, isGas: bool, isGasRefunded: bool, coinbase: Address)

  // Balances.

  function BalanceOf(b: Balances, a: Address): nat {
    if a in b then b[a] else 0
  }

  /** The sum of all balances. */
  ghost function Total(b: Balances): nat {
    if b == map[] then 0
    else
      var a :| a in b;
      b[a] + Total(b - {a})
  }

  lemma {:induction false} TotalWithout(b: Balances, a: Address)
    requires a in b
    ensures Total(b) == b[a] + Total(b - {a})
    decreases |b|
  {
    var x :| x in b && Total(b) == b[x] + Total(b - {x});
    if x != a {
      TotalWithout(b - {x}, a);
      TotalWithout(b - {a}, x);
      assert b - {x} - {a} == b - {a} - {x};
    }
  }

  /** Changing one balance changes the total by the difference. */
  lemma TotalUpdate(b: Balances, a: Address, v: nat)
    ensures Total(b[a := v]) == Total(b) - BalanceOf(b, a) + v
  {
    TotalWithout(b[a := v], a);
    if a in b {
      TotalWithout(b, a);
      assert b[a := v] - {a} == b - {a};
    } else {
      assert b[a := v] - {a} == b;
    }
  }

  // Intrinsic gas.

  ghost function NonZeroBytes(data: seq<Byte>): (n: nat)
    ensures n <= |data|
  {
    if data == [] then 0 else NonZeroBytes(data[..|data| - 1]) + if data[|data| - 1] != 0 then 1 else 0
  }

  /** What the data of a message costs before execution, as a mathematical number. */
  ghost function IntrinsicCost(data: seq<Byte>, contractCreation: bool, homestead: bool): nat {
    var nz := NonZeroBytes(data);
    (if contractCreation && homestead then TX_GAS_CONTRACT_CREATION else TX_GAS)
    + nz * TX_DATA_NON_ZERO_GAS + (|data| - nz) * TX_DATA_ZERO_GAS
  }

  /** A call or creation without data has a fixed cost, a zero byte adds 4 and any other 68. */
  lemma IntrinsicByByte(data: seq<Byte>, b: Byte, contractCreation: bool, homestead: bool)
    ensures IntrinsicCost([], contractCreation, homestead) == if contractCreation && homestead then 53_000 else 21_000
    ensures IntrinsicCost(data + [b], contractCreation, homestead) ==
            IntrinsicCost(data, contractCreation, homestead) + if b == 0 then 4 else 68
  {
    assert (data + [b])[..|data|] == data;
  }

  /** The cost, or nothing exactly when it does not fit in 64 bits. */
  method IntrinsicGas(data: seq<Byte>, contractCreation: bool, homestead: bool) returns (r: Option<U64>)
    requires |data| <= MAX_U64
    ensures r == if IntrinsicCost(data, contractCreation, homestead) <= MAX_U64
                 then Some(IntrinsicCost(data, contractCreation, homestead)) else None
  {
    var gas: nat := if contractCreation && homestead then TX_GAS_CONTRACT_CREATION else TX_GAS;
    if |data| > 0 {
      var nz: nat := 0;
      for i := 0 to |data|
        invariant nz == NonZeroBytes(data[..i])
      {
        assert data[..i + 1][..i] == data[..i];
        if data[i] != 0 {
          nz := nz + 1;
        }
      }
      assert data[..|data|] == data;
      if (MAX_U64 - gas) / TX_DATA_NON_ZERO_GAS < nz {
        return None;
      }
      gas := gas + nz * TX_DATA_NON_ZERO_GAS;
      var z := |data| - nz;
      if (MAX_U64 - gas) / TX_DATA_ZERO_GAS < z {
        return None;
      }
      gas := gas + z * TX_DATA_ZERO_GAS;
    }
    r := Some(gas);
  }

  // The objects a transition works on.

  class GasPool {
    var gas: U64

    constructor (limit: U64)
      ensures gas == limit
    {
      gas := limit;
    }

    /** Overflow would be a programming error; callers show it cannot happen. */
    method AddGas(amount: U64)
      requires gas + amount <= MAX_U64
      modifies this
      ensures gas == old(gas) + amount
    {
      gas := gas + amount;
    }

    method SubGas(amount: U64) returns (ok: bool)
      modifies this
      ensures ok == (amount <= old(gas))
      ensures gas == if ok then old(gas) - amount else old(gas)
    {
      ok := amount <= gas;
      if ok {
        gas := gas - amount;
      }
    }
  }

  class StateDB {
    var balances: Balances
    var nonces: map<Address, nat>
    var refund: U64

    constructor (balances: Balances, nonces: map<Address, nat>)
      ensures this.balances == balances && this.nonces == nonces && refund == 0
    {
      this.balances, this.nonces, refund := balances, nonces, 0;
    }

    method AddBalance(a: Address, amount: nat)
      modifies this`balances
      ensures balances == Credited(old(balances), a, amount)
      ensures forall b :: BalanceOf(balances, b) == BalanceOf(old(balances), b) + if b == a then amount else 0
    {
      balances := balances[a := BalanceOf(balances, a) + amount];
    }

    method SubBalance(a: Address, amount: nat)
      requires amount <= BalanceOf(balances, a)
      modifies this`balances
      ensures balances == Debited(old(balances), a, amount)
      ensures forall b :: BalanceOf(balances, b) == BalanceOf(old(balances), b) - if b == a then amount else 0
    {
      balances := balances[a := BalanceOf(balances, a) - amount];
    }

    method BumpNonce(a: Address)
      modifies this`nonces
      ensures nonces == Bumped(old(nonces), a)
      ensures forall b :: NonceOf(nonces, b) == NonceOf(old(nonces), b) + if b == a then 1 else 0
    {
      nonces := nonces[a := NonceOf(nonces, a) + 1];
    }

    /** Runs the virtual machine: transfers happen when covered, so the total stays, and gas only goes down. */
    method Execute(run: VmRun, gas: U64) returns (gasLeft: U64)
      modifies this
      ensures gasLeft == GasLeft(run, gas) && balances == Moved(old(balances), run.transfers)
      ensures refund == run.refund && nonces == old(nonces)
    {
      for i := 0 to |run.transfers|
        invariant balances == Moved(old(balances), run.transfers[..i]) && nonces == old(nonces)
      {
        assert run.transfers[..i + 1][..i] == run.transfers[..i];
        Transfer(run.transfers[i]);
      }
      assert run.transfers[..|run.transfers|] == run.transfers;
      refund := run.refund;
      gasLeft := if run.burn >= gas then 0 else gas - run.burn;
    }

    /** Moves an amount that the account covers, and nothing otherwise. */
    method Transfer(t: Transfer)
      modifies this`balances
      ensures balances == MovedOne(old(balances), t)
      ensures forall a :: BalanceOf(balances, a) == BalanceOf(old(balances), a)
                + (if a == t.to && t.amount <= BalanceOf(old(balances), t.from) then t.amount else 0)
                - (if a == t.from && t.amount <= BalanceOf(old(balances), t.from) then t.amount else 0)
    {
      if t.amount <= BalanceOf(balances, t.from) {
        SubBalance(t.from, t.amount);
        AddBalance(t.to, t.amount);
      }
    }
  }

  /** A balance raised by an amount. */
  ghost function Credited(b: Balances, a: Address, amount: nat): (r: Balances)
    ensures Total(r) == Total(b) + amount
  {
    TotalUpdate(b, a, BalanceOf(b, a) + amount);
    b[a := BalanceOf(b, a) + amount]
  }

  /** A balance lowered by an amount that it covers. */
  ghost function Debited(b: Balances, a: Address, amount: nat): (r: Balances)
    requires amount <= BalanceOf(b, a)
    ensures Total(r) == Total(b) - amount
  {
    TotalUpdate(b, a, BalanceOf(b, a) - amount);
    b[a := BalanceOf(b, a) - amount]
  }

  /** A transfer, carried out only when covered. */
  ghost function MovedOne(b: Balances, t: Transfer): (r: Balances)
    ensures Total(r) == Total(b)
  {
    if t.amount <= BalanceOf(b, t.from) then Credited(Debited(b, t.from, t.amount), t.to, t.amount) else b
  }

  /** Transfers in order move balances around and keep their sum. */
  ghost function Moved(b: Balances, transfers: seq<Transfer>): (r: Balances)
    ensures Total(r) == Total(b)
  {
    if transfers == [] then b
    else MovedOne(Moved(b, transfers[..|transfers| - 1]), transfers[|transfers| - 1])
  }

  function NonceOf(nonces: map<Address, nat>, a: Address): nat {
    if a in nonces then nonces[a] else 0
  }

  ghost function Bumped(nonces: map<Address, nat>, a: Address): map<Address, nat> {
    nonces[a := NonceOf(nonces, a) + 1]
  }

  ghost function GasLeft(run: VmRun, gas: nat): nat {
    if run.burn >= gas then 0 else gas - run.burn
  }

  /** Refunded gas: the counter, capped to half of what was used. */
  function RefundOf(used: nat, counter: nat): (r: nat)
    ensures r <= used / 2 && r <= counter && (r == used / 2 || r == counter)
  {
    if used / 2 > counter then counter else used / 2
  }

  /** The price of an amount of gas. */
  function Fee(gas: nat, price: nat): nat {
    gas * price
  }

  lemma FeeSplits(a: nat, b: nat, price: nat)
    ensures Fee(a + b, price) == Fee(a, price) + Fee(b, price)
  {
  }

  /** A vault message is one the chain treats as such. */
  predicate RunsVault(cfg: Config, msg: Message) {
    cfg.isSmilo && msg.isVault
  }

  /** Whether a successful execution refunds the deposit instead of paying the miner. */
  predicate SmiloRefund(cfg: Config, run: VmRun) {
    run.error.VmOk? && cfg.isSmilo && cfg.isGas && cfg.isGasRefunded
  }

  ghost predicate PreCheckError(e: Error) {
    || e.ErrNonceTooHigh? || e.ErrNonceTooLow? || e.ErrInsufficientSmiloPay? || e.ErrInsufficientBalanceForGas?
    || e.ErrGasLimitReached?
  }

  /** Which messages are applied rather than refused. */
  ghost predicate Applicable(cfg: Config, msg: Message, run: VmRun, vault: VaultReply, smiloPay: nat,
      nonces: map<Address, nat>, balances: Balances, pool: nat)
  {
    && (msg.checkNonce ==> msg.nonce == NonceOf(nonces, msg.from))
    && Fee(msg.gas, msg.gasPrice) <= smiloPay && Fee(msg.gas, msg.gasPrice) <= BalanceOf(balances, msg.from)
    && msg.gas <= pool
    && if RunsVault(cfg, msg) && !vault.Payload? then true
       else
         && IntrinsicCost(msg.data, msg.to.None?, cfg.homestead) <= msg.gas
         && ((RunsVault(cfg, msg) && msg.to.Some? && vault.data == []) || !run.error.VmInsufficientBalance?)
  }

  class StateTransition {
    const gp: GasPool
    const state: StateDB
    const cfg: Config
    const msg: Message
    var gas: U64
    var initialGas: U64

    constructor (cfg: Config, msg: Message, state: StateDB, gp: GasPool)
      ensures this.cfg == cfg && this.msg == msg && this.state == state && this.gp == gp && gas == 0 == initialGas
    {
      this.cfg, this.msg, this.state, this.gp := cfg, msg, state, gp;
      gas, initialGas := 0, 0;
    }

    ghost predicate CanPay(smiloPay: nat)
      reads this, state
    {
      Fee(msg.gas, msg.gasPrice) <= smiloPay && Fee(msg.gas, msg.gasPrice) <= BalanceOf(state.balances, msg.from)
    }

    /** The balances once the sender has paid for the whole gas limit. */
    ghost function Deposited(b: Balances): Balances
      requires Fee(msg.gas, msg.gasPrice) <= BalanceOf(b, msg.from)
    {
      Debited(b, msg.from, Fee(msg.gas, msg.gasPrice))
    }

    /** Takes the deposit for the whole gas limit, from the sender and from the block's pool. */
    method BuyGas(smiloPay: nat) returns (err: Option<Error>)
      requires gas == 0
      modifies this, gp, state`balances
      ensures err.None? <==> old(CanPay(smiloPay)) && msg.gas <= old(gp.gas)
      ensures err == Some(ErrInsufficientSmiloPay) <==> smiloPay < Fee(msg.gas, msg.gasPrice)
      ensures err == Some(ErrGasLimitReached) <==> old(CanPay(smiloPay)) && old(gp.gas) < msg.gas
      ensures err.Some? ==> PreCheckError(err.value) && !err.value.ErrNonceTooHigh? && !err.value.ErrNonceTooLow?
      ensures err.Some? ==> gas == old(gas) && gp.gas == old(gp.gas) && state.balances == old(state.balances)
      ensures err.None? ==>
                && gas == initialGas == msg.gas && gp.gas == old(gp.gas) - msg.gas
                && state.balances == Deposited(old(state.balances))
                && Total(state.balances) == old(Total(state.balances)) - Fee(msg.gas, msg.gasPrice)
    {
      var mgval := Fee(msg.gas, msg.gasPrice);
      if smiloPay < mgval {
        return Some(ErrInsufficientSmiloPay);
      }
      if BalanceOf(state.balances, msg.from) < mgval {
        return Some(ErrInsufficientBalanceForGas);
      }
      var ok := gp.SubGas(msg.gas);
      if !ok {
        return Some(ErrGasLimitReached);
      }
      gas := gas + msg.gas;
      initialGas := msg.gas;
      state.SubBalance(msg.from, mgval);
      err := None;
    }

    method PreCheck(smiloPay: nat) returns (err: Option<Error>)
      requires gas == 0
      modifies this, gp, state`balances
      ensures err.None? <==>
                && (msg.checkNonce ==> msg.nonce == NonceOf(old(state.nonces), msg.from))
                && old(CanPay(smiloPay)) && msg.gas <= old(gp.gas)
      ensures err == Some(ErrNonceTooHigh) <==> msg.checkNonce && NonceOf(old(state.nonces), msg.from) < msg.nonce
      ensures err == Some(ErrNonceTooLow) <==> msg.checkNonce && NonceOf(old(state.nonces), msg.from) > msg.nonce
      ensures err.Some? ==>
                && PreCheckError(err.value) && gas == old(gas) && gp.gas == old(gp.gas)
                && state.balances == old(state.balances)
      ensures err.None? ==>
                && gas == initialGas == msg.gas && gp.gas == old(gp.gas) - msg.gas
                && state.balances == Deposited(old(state.balances))
                && Total(state.balances) == old(Total(state.balances)) - Fee(msg.gas, msg.gasPrice)
    {
      if msg.checkNonce {
        var nonce := NonceOf(state.nonces, msg.from);
        if nonce < msg.nonce {
          return Some(ErrNonceTooHigh);
        } else if nonce > msg.nonce {
          return Some(ErrNonceTooLow);
        }
      }
      err := BuyGas(smiloPay);
    }

    method UseGas(amount: U64) returns (ok: bool)
      modifies this`gas
      ensures ok == (amount <= old(gas)) && gas == if ok then old(gas) - amount else old(gas)
    {
      ok := amount <= gas;
      if ok {
        gas := gas - amount;
      }
    }

    function GasUsed(): U64
      requires gas <= initialGas
      reads this
    {
      initialGas - gas
    }

    /**
     Who is paid what: on a Smilo settlement the sender for the gas used before the refund, otherwise the sender
     for the gas left after it and the miner for the rest.
     */
    ghost function Settled(b: Balances, smilo: bool, left: nat, kept: nat): (r: Balances)
      requires left <= kept <= msg.gas
      ensures Total(r) == Total(b) + Fee(msg.gas, msg.gasPrice) - if smilo then Fee(left, msg.gasPrice) else 0
      ensures Total(r) <= Total(b) + Fee(msg.gas, msg.gasPrice)
    {
      FeeSplits(left, msg.gas - left, msg.gasPrice);
      FeeSplits(kept, msg.gas - kept, msg.gasPrice);
      if smilo then Credited(b, msg.from, Fee(msg.gas - left, msg.gasPrice))
      else Credited(Credited(b, msg.from, Fee(kept, msg.gasPrice)), cfg.coinbase, Fee(msg.gas - kept, msg.gasPrice))
    }

    /** Who a settlement pays what. */
    lemma SettledAt(b: Balances, smilo: bool, left: nat, kept: nat, a: Address)
      requires left <= kept <= msg.gas
      ensures !smilo ==>
                BalanceOf(Settled(b, smilo, left, kept), a) == BalanceOf(b, a)
                  + (if a == msg.from then kept * msg.gasPrice else 0)
                  + (if a == cfg.coinbase then (msg.gas - kept) * msg.gasPrice else 0)
      ensures smilo ==>
                BalanceOf(Settled(b, smilo, left, kept), a) == BalanceOf(b, a)
                  + (if a == msg.from then (msg.gas - left) * msg.gasPrice else 0)
    {
    }

    /** The ordinary settlement: unused gas back to the sender and the pool, the rest to the miner. */
    method RefundGasAndPay()
      requires gas <= initialGas == msg.gas && gp.gas + initialGas <= MAX_U64
      modifies this`gas, gp, state`balances
      ensures gas == old(gas) + RefundOf(initialGas - old(gas), state.refund) <= initialGas
      ensures gp.gas == old(gp.gas) + gas
      ensures state.balances == Settled(old(state.balances), false, old(gas), gas)
      ensures forall a :: BalanceOf(state.balances, a) == BalanceOf(old(state.balances), a)
                + (if a == msg.from then gas * msg.gasPrice else 0)
                + (if a == cfg.coinbase then (msg.gas - gas) * msg.gasPrice else 0)
    {
      gas := gas + RefundOf(GasUsed(), state.refund);
      state.AddBalance(msg.from, Fee(gas, msg.gasPrice));
      gp.AddGas(gas);
      state.AddBalance(cfg.coinbase, Fee(GasUsed(), msg.gasPrice));
    }

    /** The Smilo settlement: the price of the used gas back to the sender, nothing to the miner. */
    method RefundGasSmiloVersion()
      requires gas <= initialGas == msg.gas && gp.gas + initialGas <= MAX_U64
      modifies this`gas, gp, state`balances
      ensures gas == old(gas) + RefundOf(initialGas - old(gas), state.refund) <= initialGas
      ensures gp.gas == old(gp.gas) + gas
      ensures state.balances == Settled(old(state.balances), true, old(gas), gas)
      ensures forall a :: BalanceOf(state.balances, a) == BalanceOf(old(state.balances), a)
                + (if a == msg.from then (msg.gas - old(gas)) * msg.gasPrice else 0)
    {
      state.AddBalance(msg.from, Fee(GasUsed(), msg.gasPrice));
      gas := gas + RefundOf(GasUsed(), state.refund);
      gp.AddGas(gas);
    }

    /** The choice between the two settlements; `smilo` says which. */
    method Settle(smilo: bool)
      requires gas <= initialGas == msg.gas && gp.gas + initialGas <= MAX_U64
      modifies this`gas, gp, state`balances
      ensures gas == old(gas) + RefundOf(initialGas - old(gas), state.refund) <= initialGas
      ensures gp.gas == old(gp.gas) + gas
      ensures state.balances == Settled(old(state.balances), smilo, old(gas), gas)
    {
      if smilo {
        RefundGasSmiloVersion();
      } else {
        RefundGasAndPay();
      }
    }

    /** The gas the virtual machine gives back. */
    ghost function Leftover(run: VmRun): (r: nat)
      requires IntrinsicCost(msg.data, msg.to.None?, cfg.homestead) <= msg.gas
      ensures r + IntrinsicCost(msg.data, msg.to.None?, cfg.homestead) <= msg.gas
    {
      GasLeft(run, msg.gas - IntrinsicCost(msg.data, msg.to.None?, cfg.homestead))
    }

    /** Gas left over with the capped refund added. */
    ghost function WithRefund(left: nat, refund: nat): (r: nat)
      requires left <= msg.gas
      ensures left <= r <= msg.gas && msg.gas - left <= 2 * (msg.gas - r)
    {
      left + RefundOf(msg.gas - left, refund)
    }

    /** The gas an executed message keeps. */
    ghost function Kept(run: VmRun): (r: nat)
      requires IntrinsicCost(msg.data, msg.to.None?, cfg.homestead) <= msg.gas
      ensures Leftover(run) <= r <= msg.gas
      ensures IntrinsicCost(msg.data, msg.to.None?, cfg.homestead) <= 2 * (msg.gas - r)
    {
      WithRefund(Leftover(run), run.refund)
    }

    /** What an executed message uses after the capped refund: at least half the intrinsic gas, at most the limit. */
    ghost function NetGas(run: VmRun): (r: nat)
      requires IntrinsicCost(msg.data, msg.to.None?, cfg.homestead) <= msg.gas
      ensures IntrinsicCost(msg.data, msg.to.None?, cfg.homestead) <= 2 * r && r <= msg.gas
    {
      msg.gas - Kept(run)
    }

    /** What a settled message takes out of circulation: the price of unused gas on a Smilo refund. */
    ghost function Lost(run: VmRun): nat
      requires IntrinsicCost(msg.data, msg.to.None?, cfg.homestead) <= msg.gas
    {
      if SmiloRefund(cfg, run)
      then Fee(Leftover(run), msg.gasPrice)
      else 0
    }

    /** The gas a settlement starts from: a vault message is charged its intrinsic cost only. */
    ghost function Unspent(run: VmRun, isVault: bool): (r: nat)
      requires IntrinsicCost(msg.data, msg.to.None?, cfg.homestead) <= msg.gas
      ensures r + IntrinsicCost(msg.data, msg.to.None?, cfg.homestead) <= msg.gas
    {
      if isVault then msg.gas - IntrinsicCost(msg.data, msg.to.None?, cfg.homestead) else Leftover(run)
    }

    /** What running the virtual machine and settling makes of balances `was` and a pool of `pool`. */
    ghost predicate Ran(run: VmRun, isVault: bool, was: Balances, pool: nat, now: Balances, poolNow: nat,
        failed: bool)
    {
      && IntrinsicCost(msg.data, msg.to.None?, cfg.homestead) <= msg.gas
      && run.error != VmInsufficientBalance && failed == !run.error.VmOk?
      && var left := Unspent(run, isVault);
      && poolNow == pool + WithRefund(left, run.refund)
      && now == Settled(Moved(was, run.transfers), SmiloRefund(cfg, run), left, WithRefund(left, run.refund))
    }

    /**
     What a vault message makes of balances from which the deposit was taken. A node outside the group keeps
     the whole deposit out of circulation, a call without payload is settled without running, and any other
     message runs but is charged its intrinsic cost only.
     */
    ghost predicate VaultApplied(run: VmRun, vault: VaultReply, refund: nat, was: Balances, pool: nat,
        now: Balances, poolNow: nat, failed: bool)
    {
      if !vault.Payload? then now == was && poolNow == pool && !failed
      else if msg.to.Some? && vault.data == [] then
        && !failed && IntrinsicCost(msg.data, false, cfg.homestead) <= msg.gas
        && var left := msg.gas - IntrinsicCost(msg.data, false, cfg.homestead);
        && poolNow == pool + WithRefund(left, refund)
        && now == Settled(was, cfg.isSmilo && cfg.isGas, left, WithRefund(left, refund))
      else Ran(run, true, was, pool, now, poolNow, failed)
    }

    lemma DepositedAt(b: Balances, a: Address)
      requires Fee(msg.gas, msg.gasPrice) <= BalanceOf(b, msg.from)
      ensures BalanceOf(Deposited(b), a) == BalanceOf(b, a) - if a == msg.from then msg.gas * msg.gasPrice else 0
    {
    }

    /** The price of the gas kept and of the gas used is the deposit. */
    lemma DepositSplits(part: nat)
      requires part <= msg.gas
      ensures msg.gas * msg.gasPrice == part * msg.gasPrice + (msg.gas - part) * msg.gasPrice
    {
    }

    /** A settled deposit: the sender pays the miner for what is not kept, or on a Smilo settlement nobody. */
    lemma PaidAt(b: Balances, smilo: bool, left: nat, kept: nat, a: Address)
      requires left <= kept <= msg.gas && Fee(msg.gas, msg.gasPrice) <= BalanceOf(b, msg.from)
      ensures !smilo ==>
                BalanceOf(Settled(Deposited(b), smilo, left, kept), a) == BalanceOf(b, a)
                  - (if a == msg.from then (msg.gas - kept) * msg.gasPrice else 0)
                  + (if a == cfg.coinbase then (msg.gas - kept) * msg.gasPrice else 0)
      ensures smilo ==>
                BalanceOf(Settled(Deposited(b), smilo, left, kept), a) == BalanceOf(b, a)
                  - (if a == msg.from then left * msg.gasPrice else 0)
    {
      DepositedAt(b, a);
      SettledAt(Deposited(b), smilo, left, kept, a);
      DepositSplits(left);
      DepositSplits(kept);
    }

    /** Charges the intrinsic cost of the message. */
    method PayIntrinsic() returns (err: Option<Error>)
      requires gas == msg.gas && |msg.data| <= MAX_U64
      modifies this`gas
      ensures err.None? <==> IntrinsicCost(msg.data, msg.to.None?, cfg.homestead) <= msg.gas
      ensures err.None? ==> gas == msg.gas - IntrinsicCost(msg.data, msg.to.None?, cfg.homestead)
      ensures err.Some? ==> err.value == ErrOutOfGas && gas == old(gas)
    {
      var intrinsic := IntrinsicGas(msg.data, msg.to.None?, cfg.homestead);
      if intrinsic.None? {
        return Some(ErrOutOfGas);
      }
      var enough := UseGas(intrinsic.value);
      err := if enough then None else Some(ErrOutOfGas);
    }

    /**
     Runs the virtual machine on the gas left after the intrinsic cost, and settles. A creation that the sender can
     fund raises the sender's nonce before its code runs, so it stays raised whether or not the code fails.
     */
    method RunVm(run: VmRun, isVault: bool) returns (usedGas: U64, failed: bool, err: Option<Error>)
      requires IntrinsicCost(msg.data, msg.to.None?, cfg.homestead) <= msg.gas == initialGas
      requires gp.gas + msg.gas <= MAX_U64
      requires gas == msg.gas - IntrinsicCost(msg.data, msg.to.None?, cfg.homestead)
      modifies this`gas, gp, state
      ensures gp.gas <= old(gp.gas) + msg.gas
      ensures Total(state.balances) <= old(Total(state.balances)) + Fee(msg.gas, msg.gasPrice)
      ensures err == if run.error.VmInsufficientBalance? then Some(ErrInsufficientBalance) else None
      ensures err.None? ==> Ran(run, isVault, old(state.balances), old(gp.gas), state.balances, gp.gas, failed)
      ensures err.None? ==> usedGas == if isVault then 0 else NetGas(run)
      ensures err.None? ==>
                state.nonces == if msg.to.None? then Bumped(old(state.nonces), msg.from) else old(state.nonces)
    {
      if msg.to.None? && !run.error.VmInsufficientBalance? {
        state.BumpNonce(msg.from);
      }
      var gasNotUsed := state.Execute(run, gas);
      if run.error.VmInsufficientBalance? {
        return 0, false, Some(ErrInsufficientBalance);
      }
      usedGas := Conclude(run, isVault, gasNotUsed);
      failed, err := !run.error.VmOk?, None;
    }

    /** Settles what the virtual machine left; a vault message keeps the gas it had before the run. */
    method Conclude(run: VmRun, isVault: bool, gasNotUsed: U64) returns (usedGas: U64)
      requires IntrinsicCost(msg.data, msg.to.None?, cfg.homestead) <= msg.gas == initialGas
      requires gp.gas + msg.gas <= MAX_U64 && state.refund == run.refund && gasNotUsed == Leftover(run)
      requires gas == msg.gas - IntrinsicCost(msg.data, msg.to.None?, cfg.homestead)
      modifies this`gas, gp, state`balances
      ensures var left := Unspent(run, isVault);
              && gp.gas == old(gp.gas) + WithRefund(left, run.refund)
              && state.balances ==
                 Settled(old(state.balances), SmiloRefund(cfg, run), left, WithRefund(left, run.refund))
      ensures usedGas == if isVault then 0 else NetGas(run)
    {
      if !isVault {
        gas := gasNotUsed;
      }
      Settle(SmiloRefund(cfg, run));
      usedGas := if isVault then 0 else GasUsed();
    }

    /** From the paid deposit to the settlement. */
    method ExecuteMessage(run: VmRun, data: seq<Byte>, isVault: bool) returns (usedGas: U64, failed: bool,
        err: Option<Error>)
      requires gas == initialGas == msg.gas && gp.gas + msg.gas <= MAX_U64 && |msg.data| <= MAX_U64
      modifies this`gas, gp, state
      ensures gp.gas <= old(gp.gas) + msg.gas
      ensures Total(state.balances) <= old(Total(state.balances)) + Fee(msg.gas, msg.gasPrice)
      ensures err.Some? ==> err.value.ErrOutOfGas? || err.value.ErrInsufficientBalance?
      ensures err == Some(ErrOutOfGas) <==> msg.gas < IntrinsicCost(msg.data, msg.to.None?, cfg.homestead)
      ensures err.None? <==>
                && IntrinsicCost(msg.data, msg.to.None?, cfg.homestead) <= msg.gas
                && ((isVault && msg.to.Some? && data == []) || !run.error.VmInsufficientBalance?)
      ensures err.None? ==>
                state.nonces == if msg.to.None? || !isVault then Bumped(old(state.nonces), msg.from)
                                else old(state.nonces)
      ensures err.None? && isVault ==>
                && usedGas == 0
                && VaultApplied(run, Payload(data), old(state.refund), old(state.balances), old(gp.gas),
                                state.balances, gp.gas, failed)
      ensures err.None? && !isVault ==>
                && Ran(run, false, old(state.balances), old(gp.gas), state.balances, gp.gas, failed)
                && usedGas == NetGas(run)
    {
      usedGas, failed := 0, false;
      err := PayIntrinsic();
      if err.Some? {
        return;
      }
      if msg.to.Some? {
        if !isVault {
          state.BumpNonce(msg.from);
        }
        if data == [] && isVault {
          Settle(cfg.isSmilo && cfg.isGas);
          return 0, false, None;
        }
      }
      usedGas, failed, err := RunVm(run, isVault);
    }

    /**
     Applies the message. Gas is never created: what is reported used plus what is left in the pool never
     exceeds what was there, and for an ordinary message the two are equal. Balances are never minted: an
     ordinary settlement keeps the total, a Smilo settlement loses exactly the price of the unused gas.
     */
    method Transition(run: VmRun, vault: VaultReply, smiloPay: nat)
        returns (usedGas: U64, failed: bool, err: Option<Error>)
      requires gas == 0 && |msg.data| <= MAX_U64
      modifies this, gp, state
      ensures gp.gas <= old(gp.gas) && Total(state.balances) <= old(Total(state.balances))
      ensures err.None? <==>
                Applicable(cfg, msg, run, vault, smiloPay, old(state.nonces), old(state.balances), old(gp.gas))
      ensures err.None? ==> usedGas + gp.gas <= old(gp.gas)
      ensures err.Some? && PreCheckError(err.value) ==>
                gp.gas == old(gp.gas) && state.balances == old(state.balances) && state.nonces == old(state.nonces)
      ensures err.Some? ==> PreCheckError(err.value) || err.value.ErrOutOfGas? || err.value.ErrInsufficientBalance?
      ensures err.None? && RunsVault(cfg, msg) ==>
                && usedGas == 0
                && VaultApplied(run, vault, old(state.refund), old(Deposited(state.balances)), old(gp.gas) - msg.gas,
                                state.balances, gp.gas, failed)
      ensures err.None? ==> state.nonces == Bumped(old(state.nonces), msg.from)
      ensures err.None? && !RunsVault(cfg, msg) ==>
                && Ran(run, false, old(Deposited(state.balances)), old(gp.gas) - msg.gas, state.balances, gp.gas,
                       failed)
                && usedGas + gp.gas == old(gp.gas) && usedGas == NetGas(run)
                && Total(state.balances) == old(Total(state.balances)) - Lost(run)
    {
      usedGas, failed := 0, false;
      err := PreCheck(smiloPay);
      if err.Some? {
        return;
      }
      if RunsVault(cfg, msg) {
        if !vault.Payload? || msg.to.Some? {
          state.BumpNonce(msg.from);
        }
        if !vault.Payload? {
          return;
        }
        usedGas, failed, err := ExecuteMessage(run, vault.data, true);
      } else {
        usedGas, failed, err := ExecuteMessage(run, msg.data, false);
      }
    }

    lemma PaidAll(b: Balances, smilo: bool, left: nat, kept: nat)
      requires left <= kept <= msg.gas && Fee(msg.gas, msg.gasPrice) <= BalanceOf(b, msg.from)
      ensures !smilo ==>
                forall a :: BalanceOf(Settled(Deposited(b), smilo, left, kept), a) == BalanceOf(b, a)
                  - (if a == msg.from then (msg.gas - kept) * msg.gasPrice else 0)
                  + (if a == cfg.coinbase then (msg.gas - kept) * msg.gasPrice else 0)
      ensures smilo ==>
                forall a :: BalanceOf(Settled(Deposited(b), smilo, left, kept), a) == BalanceOf(b, a)
                  - (if a == msg.from then left * msg.gasPrice else 0)
    {
      forall a
        ensures !smilo ==>
                  BalanceOf(Settled(Deposited(b), smilo, left, kept), a) == BalanceOf(b, a)
                    - (if a == msg.from then (msg.gas - kept) * msg.gasPrice else 0)
                    + (if a == cfg.coinbase then (msg.gas - kept) * msg.gasPrice else 0)
        ensures smilo ==>
                  BalanceOf(Settled(Deposited(b), smilo, left, kept), a) == BalanceOf(b, a)
                    - (if a == msg.from then left * msg.gasPrice else 0)
      {
        PaidAt(b, smilo, left, kept, a);
      }
    }

    /** The gas spent before any refund: the intrinsic cost and what the code burned of the rest. */
    ghost function Spent(run: VmRun): nat {
      var intrinsic := IntrinsicCost(msg.data, msg.to.None?, cfg.homestead);
      if intrinsic + run.burn < msg.gas then intrinsic + run.burn else msg.gas
    }

    lemma OutcomeAt(run: VmRun, vault: VaultReply, refund: nat, was: Balances, pool: nat, now: Balances, poolNow: nat,
        failed: bool)
      requires Fee(msg.gas, msg.gasPrice) <= BalanceOf(was, msg.from) && msg.gas <= pool
      requires if RunsVault(cfg, msg)
               then VaultApplied(run, vault, refund, Deposited(was), pool - msg.gas, now, poolNow, failed)
               else Ran(run, false, Deposited(was), pool - msg.gas, now, poolNow, failed)
      ensures !RunsVault(cfg, msg) ==>
                && Spent(run) <= msg.gas
                && NetGas(run) == Spent(run) - if run.refund < Spent(run) / 2 then run.refund else Spent(run) / 2
      ensures !RunsVault(cfg, msg) && run.transfers == [] && !SmiloRefund(cfg, run) ==>
                forall a :: BalanceOf(now, a) == BalanceOf(was, a)
                  - (if a == msg.from then NetGas(run) * msg.gasPrice else 0)
                  + (if a == cfg.coinbase then NetGas(run) * msg.gasPrice else 0)
      ensures !RunsVault(cfg, msg) && run.transfers == [] && SmiloRefund(cfg, run) ==>
                forall a :: BalanceOf(now, a) == BalanceOf(was, a)
                  - (if a == msg.from then (msg.gas - Spent(run)) * msg.gasPrice else 0)
      ensures RunsVault(cfg, msg) && !vault.Payload? ==>
                forall a :: BalanceOf(now, a) == BalanceOf(was, a)
                  - (if a == msg.from then msg.gas * msg.gasPrice else 0)
    {
      if RunsVault(cfg, msg) {
        forall a
          ensures BalanceOf(Deposited(was), a) == BalanceOf(was, a)
                    - (if a == msg.from then msg.gas * msg.gasPrice else 0)
        {
          DepositedAt(was, a);
        }
      } else if run.transfers == [] {
        var smilo, left, kept := SmiloRefund(cfg, run), Leftover(run), Kept(run);
        assert now == Settled(Deposited(was), smilo, left, kept);
        PaidAll(was, smilo, left, kept);
      }
    }

    /** What a vault message that this node can read is charged: its intrinsic gas less a refund of at most half. */
    ghost function VaultCharge(refund: nat): nat {
      var intrinsic := IntrinsicCost(msg.data, msg.to.None?, cfg.homestead);
      intrinsic - if refund < intrinsic / 2 then refund else intrinsic / 2
    }

    lemma VaultSettles(run: VmRun, data: seq<Byte>, refund: nat, b: Balances, pool: nat, now: Balances, poolNow: nat,
        failed: bool)
      requires VaultApplied(run, Payload(data), refund, b, pool, now, poolNow, failed)
      requires cfg.isSmilo && (run.transfers == [] || (msg.to.Some? && data == []))
      ensures IntrinsicCost(msg.data, msg.to.None?, cfg.homestead) <= msg.gas
      ensures var idle := msg.to.Some? && data == [];
              var smilo := cfg.isGas && (idle || (run.error.VmOk? && cfg.isGasRefunded));
              var left := msg.gas - IntrinsicCost(msg.data, msg.to.None?, cfg.homestead);
              var kept := WithRefund(left, if idle then refund else run.refund);
              && failed == (!idle && !run.error.VmOk?) && poolNow == pool + kept
              && now == Settled(b, smilo, left, kept)
    {
    }

    /** What an account gains: the miner what the sender is charged, or after a Smilo settlement nobody the unused. */
    ghost function VaultGain(smilo: bool, unused: nat, charge: nat, a: Address): int {
      if smilo then 0 - (if a == msg.from then unused * msg.gasPrice else 0)
      else
        (if a == cfg.coinbase then charge * msg.gasPrice else 0) - (if a == msg.from then charge * msg.gasPrice else 0)
    }

    lemma ChargedAt(was: Balances, smilo: bool, left: nat, kept: nat, a: Address)
      requires left <= kept <= msg.gas && Fee(msg.gas, msg.gasPrice) <= BalanceOf(was, msg.from)
      ensures BalanceOf(Settled(Deposited(was), smilo, left, kept), a) ==
              BalanceOf(was, a) + VaultGain(smilo, left, msg.gas - kept, a)
    {
      PaidAt(was, smilo, left, kept, a);
    }

    /** What every account is left with by a vault message that this node can read. */
    lemma VaultOutcomeAt(run: VmRun, data: seq<Byte>, refund: nat, was: Balances, pool: nat, now: Balances,
        poolNow: nat, failed: bool, a: Address)
      requires Fee(msg.gas, msg.gasPrice) <= BalanceOf(was, msg.from) && msg.gas <= pool
      requires VaultApplied(run, Payload(data), refund, Deposited(was), pool - msg.gas, now, poolNow, failed)
      requires cfg.isSmilo && (run.transfers == [] || (msg.to.Some? && data == []))
      ensures var idle := msg.to.Some? && data == [];
              var smilo := cfg.isGas && (idle || (run.error.VmOk? && cfg.isGasRefunded));
              var charge := VaultCharge(if idle then refund else run.refund);
              && charge <= msg.gas && poolNow == pool - charge && failed == (!idle && !run.error.VmOk?)
              && IntrinsicCost(msg.data, msg.to.None?, cfg.homestead) <= msg.gas
              && var unused := msg.gas - IntrinsicCost(msg.data, msg.to.None?, cfg.homestead);
              BalanceOf(now, a) == BalanceOf(was, a) + VaultGain(smilo, unused, charge, a)
    {
      VaultSettles(run, data, refund, Deposited(was), pool - msg.gas, now, poolNow, failed);
      var idle := msg.to.Some? && data == [];
      var smilo := cfg.isGas && (idle || (run.error.VmOk? && cfg.isGasRefunded));
      var left := msg.gas - IntrinsicCost(msg.data, msg.to.None?, cfg.homestead);
      var kept := WithRefund(left, if idle then refund else run.refund);
      assert msg.gas - kept == VaultCharge(if idle then refund else run.refund);
      ChargedAt(was, smilo, left, kept, a);
    }

    /**
     Applies the message and says who pays what. An ordinary message that moves nothing costs its sender the used gas
     at its price, which the miner gains, or on a Smilo refund the gas left over, which nobody gains. The gas used is
     the intrinsic cost and what the code burned, less a refund of at most half. A vault message outside the group
     costs the whole deposit.
     */
    method TransitionDb(run: VmRun, vault: VaultReply, smiloPay: nat) returns (usedGas: U64, failed: bool,
        err: Option<Error>)
      requires gas == 0 && |msg.data| <= MAX_U64
      modifies this, gp, state
      ensures gp.gas <= old(gp.gas) && Total(state.balances) <= old(Total(state.balances))
      ensures err.None? <==>
                Applicable(cfg, msg, run, vault, smiloPay, old(state.nonces), old(state.balances), old(gp.gas))
      ensures err.None? ==> usedGas + gp.gas <= old(gp.gas)
      ensures err.Some? && PreCheckError(err.value) ==>
                gp.gas == old(gp.gas) && state.balances == old(state.balances) && state.nonces == old(state.nonces)
      ensures err.Some? ==> PreCheckError(err.value) || err.value.ErrOutOfGas? || err.value.ErrInsufficientBalance?
      ensures err.None? && RunsVault(cfg, msg) ==>
                && usedGas == 0
                && VaultApplied(run, vault, old(state.refund), old(Deposited(state.balances)), old(gp.gas) - msg.gas,
                                state.balances, gp.gas, failed)
      ensures err.None? ==> state.nonces == Bumped(old(state.nonces), msg.from)
      ensures err.None? && !RunsVault(cfg, msg) ==>
                && Ran(run, false, old(Deposited(state.balances)), old(gp.gas) - msg.gas, state.balances, gp.gas,
                       failed)
                && usedGas + gp.gas == old(gp.gas) && usedGas == NetGas(run)
                && Total(state.balances) == old(Total(state.balances)) - Lost(run)
      ensures err.None? && !(cfg.isSmilo && msg.isVault) ==>
                && Spent(run) <= msg.gas
                && usedGas == Spent(run) - if run.refund < Spent(run) / 2 then run.refund else Spent(run) / 2
      ensures err.None? && !(cfg.isSmilo && msg.isVault) && run.transfers == []
              && !(run.error.VmOk? && cfg.isSmilo && cfg.isGas && cfg.isGasRefunded) ==>
                forall a :: BalanceOf(state.balances, a) == BalanceOf(old(state.balances), a)
                  - (if a == msg.from then usedGas * msg.gasPrice else 0)
                  + (if a == cfg.coinbase then usedGas * msg.gasPrice else 0)
      ensures err.None? && !(cfg.isSmilo && msg.isVault) && run.transfers == []
              && run.error.VmOk? && cfg.isSmilo && cfg.isGas && cfg.isGasRefunded ==>
                forall a :: BalanceOf(state.balances, a) == BalanceOf(old(state.balances), a)
                  - (if a == msg.from then (msg.gas - Spent(run)) * msg.gasPrice else 0)
      ensures err.None? && cfg.isSmilo && msg.isVault && !vault.Payload? ==>
                && gp.gas == old(gp.gas) - msg.gas && !failed
                && forall a :: BalanceOf(state.balances, a) == BalanceOf(old(state.balances), a)
                     - (if a == msg.from then msg.gas * msg.gasPrice else 0)
    {
      usedGas, failed, err := Transition(run, vault, smiloPay);
      if err.None? {
        OutcomeAt(run, vault, old(state.refund), old(state.balances), old(gp.gas), state.balances, gp.gas, failed);
      }
    }
  }

  // A whole block.

  datatype BlockTx = BlockTx(msg: Message, validSignature: bool, run: VmRun, vault: VaultReply, smiloPay: nat)

  datatype Receipt = Receipt(gasUsed: U64, cumulativeGasUsed: U64, failed: bool)

  ghost function SumGas(receipts: seq<Receipt>): nat {
    if receipts == [] then 0 else SumGas(receipts[..|receipts| - 1]) + receipts[|receipts| - 1].gasUsed
  }

  /** Each receipt's cumulative gas is the sum of the gas used so far. */
  ghost predicate CumulativeOk(receipts: seq<Receipt>) {
    forall i | 0 <= i < |receipts| :: receipts[i].cumulativeGasUsed == SumGas(receipts[..i + 1])
  }

  method ApplyTransaction(cfg: Config, tx: BlockTx, state: StateDB, gp: GasPool, usedGas: U64)
      returns (receipt: Receipt, used: U64, err: Option<Error>)
    requires |tx.msg.data| <= MAX_U64 && usedGas + gp.gas <= MAX_U64
    modifies state, gp
    ensures gp.gas <= old(gp.gas) && Total(state.balances) <= old(Total(state.balances))
    ensures err == Some(ErrInvalidGasPrice) <==> !cfg.isGas && tx.msg.gasPrice > 0
    ensures err == Some(ErrInvalidSender) <==> (cfg.isGas || tx.msg.gasPrice == 0) && !tx.validSignature
    ensures err.None? ==>
              && (tx.msg.checkNonce ==> tx.msg.nonce == NonceOf(old(state.nonces), tx.msg.from))
              && state.nonces == Bumped(old(state.nonces), tx.msg.from)
    ensures err.None? <==>
              && (cfg.isGas || tx.msg.gasPrice == 0) && tx.validSignature
              && Applicable(cfg, tx.msg, tx.run, tx.vault, tx.smiloPay, old(state.nonces), old(state.balances),
                            old(gp.gas))
    ensures err.None? ==>
              && used == usedGas + receipt.gasUsed == receipt.cumulativeGasUsed
              && receipt.gasUsed + gp.gas <= old(gp.gas)
              && (RunsVault(cfg, tx.msg) ==> receipt.gasUsed == 0 && !receipt.failed)
              && (!RunsVault(cfg, tx.msg) ==> (receipt.failed <==> !tx.run.error.VmOk?))
              && (!RunsVault(cfg, tx.msg) ==> receipt.gasUsed + gp.gas == old(gp.gas))
              && (!RunsVault(cfg, tx.msg) && !SmiloRefund(cfg, tx.run) ==>
                    Total(state.balances) == old(Total(state.balances)))
  {
    receipt, used := Receipt(0, usedGas, false), usedGas;
    if !cfg.isGas && tx.msg.gasPrice > 0 {
      return receipt, used, Some(ErrInvalidGasPrice);
    }
    if !tx.validSignature {
      return receipt, used, Some(ErrInvalidSender);
    }
    var st := new StateTransition(cfg, tx.msg, state, gp);
    var gas, failed;
    gas, failed, err := st.TransitionDb(tx.run, tx.vault, tx.smiloPay);
    if err.Some? {
      return;
    }
    used := usedGas + gas;
    receipt := Receipt(gas, used, !RunsVault(cfg, tx.msg) && failed);
  }

  ghost predicate NoVault(cfg: Config, txs: seq<BlockTx>) {
    forall tx | tx in txs :: !RunsVault(cfg, tx.msg)
  }

  ghost predicate AllOrdinary(cfg: Config, txs: seq<BlockTx>) {
    forall tx | tx in txs :: !RunsVault(cfg, tx.msg) && !SmiloRefund(cfg, tx.run)
  }

  /** How many messages an account sends. */
  ghost function Sent(txs: seq<BlockTx>, a: Address): nat {
    if txs == [] then 0 else Sent(txs[..|txs| - 1], a) + if txs[|txs| - 1].msg.from == a then 1 else 0
  }

  /** Every nonce once these messages have been applied. */
  ghost predicate NoncesAfter(was: map<Address, nat>, txs: seq<BlockTx>, now: map<Address, nat>) {
    forall a :: NonceOf(now, a) == NonceOf(was, a) + Sent(txs, a)
  }

  /** A checked message comes right after those its sender sent before. */
  ghost predicate InTurn(was: map<Address, nat>, txs: seq<BlockTx>, i: nat)
    requires i < |txs|
  {
    txs[i].msg.checkNonce ==> txs[i].msg.nonce == NonceOf(was, txs[i].msg.from) + Sent(txs[..i], txs[i].msg.from)
  }

  ghost predicate AllInTurn(was: map<Address, nat>, txs: seq<BlockTx>) {
    forall i: nat | i < |txs| :: InTurn(was, txs, i)
  }

  lemma OneMoreNonce(was: map<Address, nat>, txs: seq<BlockTx>, i: nat, between: map<Address, nat>)
    requires i < |txs| && NoncesAfter(was, txs[..i], between) && AllInTurn(was, txs[..i])
    requires txs[i].msg.checkNonce ==> txs[i].msg.nonce == NonceOf(between, txs[i].msg.from)
    ensures NoncesAfter(was, txs[..i + 1], Bumped(between, txs[i].msg.from)) && AllInTurn(was, txs[..i + 1])
  {
    var more := txs[..i + 1];
    assert more[..i] == txs[..i];
    forall j: nat | j < |more| ensures InTurn(was, more, j) {
      assert more[..j] == txs[..i][..j];
      assert j < i ==> InTurn(was, txs[..i], j);
    }
  }

  /** Two checked messages of one sender carry nonces as far apart as the number sent from the one to the other. */
  lemma NoncesRunOn(was: map<Address, nat>, txs: seq<BlockTx>, i: nat, j: nat)
    requires AllInTurn(was, txs) && i < j < |txs| && txs[i].msg.checkNonce && txs[j].msg.checkNonce
    requires txs[i].msg.from == txs[j].msg.from
    ensures txs[j].msg.nonce - txs[i].msg.nonce == Sent(txs[i..j], txs[i].msg.from) > 0
  {
    assert InTurn(was, txs, i) && InTurn(was, txs, j);
    SentSplits(txs[..j], i, txs[i].msg.from);
    assert txs[..j][..i] == txs[..i] && txs[..j][i..] == txs[i..j];
    SentSplits(txs[i..j], 1, txs[i].msg.from);
    assert txs[i..j][..1] == [txs[i]];
    assert [txs[i]][..0] == [];
    assert Sent([txs[i]], txs[i].msg.from) == 1;
  }

  lemma {:induction false} SentSplits(txs: seq<BlockTx>, k: nat, a: Address)
    requires k <= |txs|
    ensures Sent(txs, a) == Sent(txs[..k], a) + Sent(txs[k..], a)
  {
    if k < |txs| {
      var n := |txs| - 1;
      SentSplits(txs[..n], k, a);
      assert txs[..n][..k] == txs[..k] && txs[..n][k..] == txs[k..][..n - k];
    } else {
      assert txs[..k] == txs && txs[k..] == [];
    }
  }

  lemma OneMoreTx(cfg: Config, txs: seq<BlockTx>, i: nat)
    requires i < |txs|
    ensures NoVault(cfg, txs[..i + 1]) <==> NoVault(cfg, txs[..i]) && !RunsVault(cfg, txs[i].msg)
    ensures AllOrdinary(cfg, txs[..i + 1]) <==>
            AllOrdinary(cfg, txs[..i]) && !RunsVault(cfg, txs[i].msg) && !SmiloRefund(cfg, txs[i].run)
  {
    assert txs[..i + 1] == txs[..i] + [txs[i]];
  }

  /**
   Over a whole block the used gas plus what is left in the pool never exceeds the limit, and equals it when
   no vault message occurs; the total balance never grows, and stays the same on ordinary settlements. Every
   nonce rises by the number of messages its account sent, and checked messages came in that order.
   */
  method Process(cfg: Config, txs: seq<BlockTx>, gasLimit: U64, state: StateDB)
      returns (receipts: seq<Receipt>, usedGas: U64, poolLeft: U64, err: Option<Error>)
    requires forall tx | tx in txs :: |tx.msg.data| <= MAX_U64
    modifies state
    ensures Total(state.balances) <= old(Total(state.balances))
    ensures err.None? ==>
              && |receipts| == |txs| && CumulativeOk(receipts) && usedGas == SumGas(receipts)
              && usedGas + poolLeft <= gasLimit
              && (NoVault(cfg, txs) ==> usedGas + poolLeft == gasLimit)
              && (AllOrdinary(cfg, txs) ==> Total(state.balances) == old(Total(state.balances)))
    ensures err.None? ==> NoncesAfter(old(state.nonces), txs, state.nonces) && AllInTurn(old(state.nonces), txs)
    ensures err.Some? ==> receipts == [] && usedGas == 0
  {
    receipts, usedGas, err := [], 0, None;
    var gp := new GasPool(gasLimit);
    for i := 0 to |txs|
      invariant fresh(gp)
      invariant |receipts| == i && CumulativeOk(receipts) && usedGas == SumGas(receipts)
      invariant usedGas + gp.gas <= gasLimit && Total(state.balances) <= old(Total(state.balances))
      invariant NoVault(cfg, txs[..i]) ==> usedGas + gp.gas == gasLimit
      invariant AllOrdinary(cfg, txs[..i]) ==> Total(state.balances) == old(Total(state.balances))
      invariant NoncesAfter(old(state.nonces), txs[..i], state.nonces) && AllInTurn(old(state.nonces), txs[..i])
    {
      ghost var between := state.nonces;
      OneMoreTx(cfg, txs, i);
      var receipt, used, e := ApplyTransaction(cfg, txs[i], state, gp, usedGas);
      if e.Some? {
        return [], 0, gp.gas, e;
      }
      AppendReceipt(receipts, receipt);
      OneMoreNonce(old(state.nonces), txs, i, between);
      receipts, usedGas := receipts + [receipt], used;
    }
    assert txs[..|txs|] == txs;
    poolLeft := gp.gas;
  }

  lemma AppendReceipt(receipts: seq<Receipt>, r: Receipt)
    requires CumulativeOk(receipts) && r.cumulativeGasUsed == SumGas(receipts) + r.gasUsed
    ensures CumulativeOk(receipts + [r]) && SumGas(receipts + [r]) == SumGas(receipts) + r.gasUsed
  {
    var all := receipts + [r];
    assert all[..|receipts|] == receipts;
    forall i | 0 <= i < |all| ensures all[i].cumulativeGasUsed == SumGas(all[..i + 1]) {
      if i < |receipts| {
        assert all[..i + 1] == receipts[..i + 1];
      } else {
        assert all[..i + 1] == all;
      }
    }
  }

  // A Smilo settlement.

  /**
   A message with a gas limit of 50000 at price 1 uses the intrinsic 21000. Its sender gets the price of those back
   and nobody the other 29000, which leave circulation.
   */
  method SmiloLossExample() returns (state: StateDB, ghost was: nat)
    ensures was == 100_000 && Total(state.balances) == was - 29_000
    ensures BalanceOf(state.balances, 7) == 71_000
  {
    var cfg, run := Config(true, true, true, true, 1), VmRun(0, [], 0, VmOk);
    var msg := Message(7, Some(8), 1, 50_000, 0, true, [], false);
    state := new StateDB(map[7 := 100_000], map[]);
    was := Total(state.balances);
    var gp := new GasPool(1_000_000);
    var st := new StateTransition(cfg, msg, state, gp);
    assert IntrinsicCost(msg.data, false, true) == 21_000;
    var usedGas, failed, err := st.TransitionDb(run, Offline, 100_000);
  }

  /** The same message where gas is not refunded: the sender pays for 21000 and the miner gains that. */
  method OrdinaryExample() returns (state: StateDB)
    ensures BalanceOf(state.balances, 7) == 79_000 && BalanceOf(state.balances, 1) == 21_000
  {
    var cfg, run := Config(true, true, true, false, 1), VmRun(0, [], 0, VmOk);
    var msg := Message(7, Some(8), 1, 50_000, 0, true, [], false);
    state := new StateDB(map[7 := 100_000], map[]);
    var gp := new GasPool(1_000_000);
    var st := new StateTransition(cfg, msg, state, gp);
    assert IntrinsicCost(msg.data, false, true) == 21_000;
    var usedGas, failed, err := st.TransitionDb(run, Offline, 100_000);
  }
}
