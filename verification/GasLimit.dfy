/**
 The gas limit of the next block: it follows the parent's usage, one bounded step at a time, and is
 steered into the band between a floor and a ceiling.
 */
module GasLimits {
  import opened Basics

  const GAS_LIMIT_BOUND_DIVISOR: nat := 1024
  const MIN_GAS_LIMIT: nat := 180000000

  /** Machine arithmetic on unsigned 64-bit numbers. */
  function Wrap(n: int): U64 {
    n % (MAX_U64 + 1)
  }

  function CalcGasLimit(parentGasUsed: U64, parentGasLimit: U64, gasFloor: U64, gasCeil: U64): U64 {
    var contrib := Wrap(parentGasUsed + parentGasUsed / 2) / GAS_LIMIT_BOUND_DIVISOR;
    var decay := Wrap(parentGasLimit / GAS_LIMIT_BOUND_DIVISOR - 1);
    var raw := Wrap(Wrap(parentGasLimit - decay) + contrib);
    var limit := if raw < MIN_GAS_LIMIT then MIN_GAS_LIMIT else raw;
    if limit < gasFloor then
      var up := Wrap(parentGasLimit + decay);
      if up > gasFloor then gasFloor else up
    else if limit > gasCeil then
      var down := Wrap(parentGasLimit - decay);
      if down < gasCeil then gasCeil else down
    else limit
  }

  /** A limit the chain can have: at least the minimum, and far from the end of the number range. */
  ghost predicate Sane(limit: nat) {
    MIN_GAS_LIMIT <= limit < 0x8000_0000_0000_0000
  }

  /**
   Whatever the floor and ceiling, a step from a sane limit is smaller than the bound that header
   verification enforces, and a sane ceiling keeps it above the minimum.
   */
  lemma StepIsBounded(used: U64, limit: U64, gasFloor: U64, gasCeil: U64)
    requires Sane(limit) && used <= limit
    ensures var next := CalcGasLimit(used, limit, gasFloor, gasCeil);
            && next - limit < limit / 1024 && limit - next < limit / 1024
            && (180_000_000 <= gasCeil ==> 180_000_000 <= next)
  {
    NoWrap(used, limit);
  }

  /** On sane inputs no machine operation wraps. */
  lemma NoWrap(used: U64, limit: U64)
    requires Sane(limit) && used <= limit
    ensures Wrap(used + used / 2) == used + used / 2
    ensures var decay := limit / GAS_LIMIT_BOUND_DIVISOR - 1;
            var contrib := (used + used / 2) / GAS_LIMIT_BOUND_DIVISOR;
            && decay > 0 && Wrap(decay) == decay
            && Wrap(limit - decay) == limit - decay && Wrap(limit + decay) == limit + decay
            && Wrap(limit - decay + contrib) == limit - decay + contrib
            && contrib - decay < limit / GAS_LIMIT_BOUND_DIVISOR
  {
  }

  /** How far a limit is from the band. */
  ghost function Distance(limit: nat, gasFloor: nat, gasCeil: nat): nat
    requires gasFloor <= gasCeil
  {
    if limit < gasFloor then gasFloor - limit else if limit > gasCeil then limit - gasCeil else 0
  }

  /** Inside the band the limit stays inside; outside it gets strictly closer. */
  lemma StepApproaches(used: U64, limit: U64, gasFloor: U64, gasCeil: U64)
    requires Sane(limit) && used <= limit && Sane(gasFloor) && Sane(gasCeil) && gasFloor <= gasCeil
    ensures var next := CalcGasLimit(used, limit, gasFloor, gasCeil);
            && Sane(next)
            && (Distance(limit, gasFloor, gasCeil) == 0 ==> Distance(next, gasFloor, gasCeil) == 0)
            && (Distance(limit, gasFloor, gasCeil) > 0 ==>
                Distance(next, gasFloor, gasCeil) < Distance(limit, gasFloor, gasCeil))
  {
    NoWrap(used, limit);
  }

  /** A run of blocks: each limit is computed from the one before, whatever gas was used. */
  ghost predicate LimitRun(limits: seq<U64>, used: seq<U64>, gasFloor: U64, gasCeil: U64) {
    && |limits| == |used| > 0
    && (forall i | 0 <= i < |used| :: used[i] <= limits[i])
    && (forall i | 0 < i < |limits| :: limits[i] == CalcGasLimit(used[i - 1], limits[i - 1], gasFloor, gasCeil))
  }

  /** Every run enters the band within as many blocks as it starts away from it, and never leaves again. */
  lemma {:induction false} RunEntersBand(limits: seq<U64>, used: seq<U64>, gasFloor: U64, gasCeil: U64, n: nat)
    requires LimitRun(limits, used, gasFloor, gasCeil) && n < |limits|
    requires Sane(limits[0]) && Sane(gasFloor) && Sane(gasCeil) && gasFloor <= gasCeil
    ensures Sane(limits[n])
    ensures n >= Distance(limits[0], gasFloor, gasCeil) ==> gasFloor <= limits[n] <= gasCeil
    ensures n < Distance(limits[0], gasFloor, gasCeil) ==>
            Distance(limits[n], gasFloor, gasCeil) + n <= Distance(limits[0], gasFloor, gasCeil)
    decreases n
  {
    if n > 0 {
      RunEntersBand(limits, used, gasFloor, gasCeil, n - 1);
      StepApproaches(used[n - 1], limits[n - 1], gasFloor, gasCeil);
    }
  }

  /** The step without machine arithmetic, for a parent's `limit`, what it decays by and what its usage contributes. */
  ghost function Steered(limit: int, decay: int, contrib: int, gasFloor: int, gasCeil: int): int {
    var raw := limit - decay + contrib;
    var next := if raw < MIN_GAS_LIMIT then MIN_GAS_LIMIT else raw;
    if next < gasFloor then if limit + decay > gasFloor then gasFloor else limit + decay
    else if next > gasCeil then if limit - decay < gasCeil then gasCeil else limit - decay
    else next
  }

  lemma StepIsSteered(used: U64, limit: U64, gasFloor: U64, gasCeil: U64)
    requires Sane(limit) && used <= limit
    ensures CalcGasLimit(used, limit, gasFloor, gasCeil) ==
            Steered(limit, limit / 1024 - 1, (used + used / 2) / 1024, gasFloor, gasCeil)
  {
    NoWrap(used, limit);
  }

  /**
   Inside the band, a block that used at least two thirds of its gas raises the limit, one that used clearly less does
   not, and an empty one lowers it.
   */
  lemma FollowsUsage(used: U64, limit: U64, gasFloor: U64, gasCeil: U64)
    requires Sane(limit) && used <= limit && gasFloor <= limit <= gasCeil
    ensures used + used / 2 >= limit && limit < gasCeil ==> CalcGasLimit(used, limit, gasFloor, gasCeil) > limit
    ensures used + used / 2 + 1024 <= limit ==> CalcGasLimit(used, limit, gasFloor, gasCeil) <= limit
    ensures used == 0 && gasFloor < limit && 180_000_000 < limit ==>
              CalcGasLimit(used, limit, gasFloor, gasCeil) < limit
  {
    StepIsSteered(used, limit, gasFloor, gasCeil);
    var decay, contrib := limit / 1024 - 1, (used + used / 2) / 1024;
    assert decay > 0;
    assert used + used / 2 >= limit ==> contrib > decay;
    assert used + used / 2 + 1024 <= limit ==> contrib <= decay;
  }

  /** More usage never gives a lower limit. */
  lemma MoreUsageMoreLimit(used: U64, more: U64, limit: U64, gasFloor: U64, gasCeil: U64)
    requires Sane(limit) && used <= more <= limit && gasFloor <= gasCeil
    ensures CalcGasLimit(used, limit, gasFloor, gasCeil) <= CalcGasLimit(more, limit, gasFloor, gasCeil)
  {
    StepIsSteered(used, limit, gasFloor, gasCeil);
    StepIsSteered(more, limit, gasFloor, gasCeil);
    assert (used + used / 2) / 1024 <= (more + more / 2) / 1024;
  }
}
