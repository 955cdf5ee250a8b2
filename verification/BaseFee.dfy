/** Checks of a header against its parent, and the base fee along a chain of headers: EIP-1559. */
module BaseFee {
  import opened Basics
  import opened StateTypes

  const INITIAL_BASE_FEE: nat := 1_000_000_000
  const BASE_FEE_MAX_CHANGE_DENOMINATOR: nat := 8
  const ELASTICITY_MULTIPLIER: nat := 2
  const MIN_GAS_LIMIT: nat := 5000
  const MAX_GAS_LIMIT: nat := 0x7fff_ffff_ffff_ffff
  const MAX_EXTRA_DATA: nat := 32

  datatype Header = Header(number: nat, timestamp: nat, gasLimit: nat, gasUsed: nat, extraDataLength: nat, baseFee: Option<nat>)

  datatype Error = FutureBlock | GasAboveLimit | InvalidGasLimit | ExtraDataTooLong | InvalidTimestamp | WrongBaseFee

  function GasTarget(h: Header): nat {
    h.gasLimit / ELASTICITY_MULTIPLIER
  }

  /** What the computation of a fee relies on: the parent has one, and a target that can be divided by. */
  predicate Ready(fork: Option<nat>, h: Header, parent: Header) {
    fork.Some? && h.number > fork.value ==> parent.baseFee.Some? && GasTarget(parent) > 0
  }

  function Change(fee: nat, gas: nat, target: nat): nat
    requires target > 0
  {
    fee * gas / target / BASE_FEE_MAX_CHANGE_DENOMINATOR
  }

  function NextFee(fee: nat, used: nat, target: nat): nat
    requires target > 0
  {
    if used == target then fee
    else if used > target then var change := Change(fee, used - target, target); fee + (if change > 1 then change else 1)
    else var change := Change(fee, target - used, target); if change > fee then 0 else fee - change
  }

  function ExpectedBaseFee(fork: Option<nat>, h: Header, parent: Header): Option<nat>
    requires Ready(fork, h, parent)
  {
    if fork.Some? && h.number >= fork.value then
      if h.number == fork.value then Some(INITIAL_BASE_FEE)
      else Some(NextFee(parent.baseFee.value, parent.gasUsed, GasTarget(parent)))
    else None
  }

  /** The first check that fails; `now` is the clock, where it is to be looked at. */
  function ValidateBlockHeader(fork: Option<nat>, h: Header, parent: Header, now: Option<nat>): Option<Error>
    requires Ready(fork, h, parent)
  {
    var parentGasLimit := if fork == Some(h.number) then parent.gasLimit * ELASTICITY_MULTIPLIER else parent.gasLimit;
    var delta := if h.gasLimit > parentGasLimit then h.gasLimit - parentGasLimit else parentGasLimit - h.gasLimit;
    if now.Some? && h.timestamp > now.value then Some(FutureBlock)
    else if h.gasUsed > h.gasLimit then Some(GasAboveLimit)
    else if h.gasLimit < MIN_GAS_LIMIT then Some(InvalidGasLimit)
    else if h.gasLimit > MAX_GAS_LIMIT then Some(InvalidGasLimit)
    else if h.extraDataLength > MAX_EXTRA_DATA then Some(ExtraDataTooLong)
    else if h.timestamp <= parent.timestamp then Some(InvalidTimestamp)
    else if delta >= parentGasLimit / 1024 then Some(InvalidGasLimit)
    else if h.baseFee != ExpectedBaseFee(fork, h, parent) then Some(WrongBaseFee)
    else None
  }

  /** Headers from the fork block on, each accepted on top of the one before; `parent` is below the fork. */
  ghost predicate AcceptedChain(fork: nat, parent: Header, headers: seq<Header>) {
    && (forall i :: 0 <= i < |headers| ==> headers[i].number == fork + i)
    && (forall i {:trigger Below(parent, headers, i)} :: 0 <= i < |headers| ==>
          Ready(Some(fork), headers[i], Below(parent, headers, i)) ==>
            exists now :: ValidateBlockHeader(Some(fork), headers[i], Below(parent, headers, i), now).None?)
  }

  function Below(parent: Header, headers: seq<Header>, i: int): Header
    requires 0 <= i <= |headers|
  {
    if i == 0 then parent else headers[i - 1]
  }

  const LEAST_BASE_FEE: nat := 7

  /** Accepted headers carry a fee of at least 7 wei and a gas limit whose target is not zero, so the next check is defined as well. */
  lemma {:induction false} FeeNeverTooLow(fork: nat, parent: Header, headers: seq<Header>, i: nat)
    requires AcceptedChain(fork, parent, headers) && i < |headers|
    ensures Ready(Some(fork), headers[i], Below(parent, headers, i))
    ensures headers[i].baseFee.Some? && headers[i].baseFee.value >= LEAST_BASE_FEE && headers[i].gasLimit >= MIN_GAS_LIMIT
    ensures headers[i].gasUsed <= headers[i].gasLimit
    decreases i
  {
    if i > 0 {
      FeeNeverTooLow(fork, parent, headers, i - 1);
    }
    var below := Below(parent, headers, i);
    assert Ready(Some(fork), headers[i], below);
    var now :| ValidateBlockHeader(Some(fork), headers[i], below, now).None?;
    if i > 0 {
      FeeStep(below.baseFee.value, below.gasUsed, GasTarget(below));
    }
  }

  /**
   * One step of the fee, in exact eighths: above the target it rises by the share of the gas above, rounded down but at least one;
   * below it falls by the share of the gas left, rounded down.
   */
  lemma FeeStep(fee: nat, used: nat, target: nat)
    requires target > 0
    ensures used == target ==> NextFee(fee, used, target) == fee
    ensures used > target ==> var rise := NextFee(fee, used, target) - fee;
      && rise >= 1 && fee * (used - target) < 8 * target * (rise + 1)
      && (rise == 1 || 8 * target * rise <= fee * (used - target))
    ensures used < target ==> var fall := fee - NextFee(fee, used, target);
      fall >= 0 && 8 * target * fall <= fee * (target - used) < 8 * target * (fall + 1)
    ensures 8 * NextFee(fee, used, target) >= 7 * fee
    ensures fee >= LEAST_BASE_FEE ==> NextFee(fee, used, target) >= LEAST_BASE_FEE
  {
    hide Change;
    if used < target {
      ChangeAtMost(fee, target - used, target);
      ChangeBound(fee, target - used, target);
    } else if used > target {
      ChangeBound(fee, used - target, target);
      MoreChange(fee, used - target, target, NextFee(fee, used, target) - fee);
    }
  }

  lemma MoreChange(fee: nat, gas: nat, target: nat, d: nat)
    requires 0 < target && d >= Change(fee, gas, target)
    ensures fee * gas < 8 * target * (d + 1)
  {
    ChangeBound(fee, gas, target);
    hide Change;
    TimesLe(8 * target, Change(fee, gas, target) + 1, d + 1);
  }

  lemma TimesLe(t: nat, x: nat, y: nat)
    requires x <= y
    ensures t * x <= t * y
  {
  }

  lemma ChangeAtMost(fee: nat, gas: nat, target: nat)
    requires 0 < target && gas <= target
    ensures 8 * Change(fee, gas, target) <= fee
  {
    ChangeBound(fee, gas, target);
    var c := Change(fee, gas, target);
    assert fee * gas <= fee * target == target * fee;
    assert 8 * target * c == target * (8 * c);
    if 8 * c > fee {
      TimesMore(target, 8 * c, fee);
    }
  }

  lemma TimesMore(t: nat, x: nat, y: nat)
    requires t > 0 && x > y
    ensures t * x > t * y
  {
  }

  /** The two divisions come to one by eight times the target. */
  lemma ChangeBound(fee: nat, gas: nat, target: nat)
    requires 0 < target
    ensures 8 * target * Change(fee, gas, target) <= fee * gas < 8 * target * (Change(fee, gas, target) + 1)
  {
    var q := fee * gas / target;
    var c := q / 8;
    assert target * q <= fee * gas < target * (q + 1);
    assert 8 * c <= q && q + 1 <= 8 * (c + 1);
    TimesLe(target, 8 * c, q);
    TimesLe(target, q + 1, 8 * (c + 1));
    assert target * (8 * c) == 8 * target * c;
    assert target * (8 * (c + 1)) == 8 * target * (c + 1);
  }

  /** What is accepted, in words of its own: the clock, the bounds, time, the drift of the gas limit, and the fee. */
  lemma AcceptedExactly(fork: Option<nat>, h: Header, parent: Header, now: Option<nat>)
    requires Ready(fork, h, parent)
    ensures ValidateBlockHeader(fork, h, parent, now).None? <==>
      && (now.Some? ==> h.timestamp <= now.value) && h.timestamp > parent.timestamp
      && h.gasUsed <= h.gasLimit && 5000 <= h.gasLimit < 0x8000_0000_0000_0000 && h.extraDataLength <= 32
      && (var limit := if fork == Some(h.number) then 2 * parent.gasLimit else parent.gasLimit;
          limit - limit / 1024 < h.gasLimit < limit + limit / 1024)
      && (if fork.None? || h.number < fork.value then h.baseFee.None?
          else if h.number == fork.value then h.baseFee == Some(1_000_000_000)
          else h.baseFee == Some(NextFee(parent.baseFee.value, parent.gasUsed, parent.gasLimit / 2)))
  {
  }

  /** The first of these conditions that fails names the error. */
  lemma FirstError(fork: Option<nat>, h: Header, parent: Header, now: Option<nat>)
    requires Ready(fork, h, parent)
    ensures var error := ValidateBlockHeader(fork, h, parent, now);
      var onTime, inGas := now.Some? ==> h.timestamp <= now.value, h.gasUsed <= h.gasLimit;
      var inBounds, short, later := 5000 <= h.gasLimit < 0x8000_0000_0000_0000, h.extraDataLength <= 32, h.timestamp > parent.timestamp;
      && (error == Some(FutureBlock) <==> !onTime)
      && (error == Some(GasAboveLimit) <==> onTime && !inGas)
      && (onTime && inGas && !inBounds ==> error == Some(InvalidGasLimit))
      && (error == Some(ExtraDataTooLong) <==> onTime && inGas && inBounds && !short)
      && (error == Some(InvalidTimestamp) <==> onTime && inGas && inBounds && short && !later)
      && (error == Some(WrongBaseFee) ==> onTime && inGas && inBounds && short && later && h.baseFee != ExpectedBaseFee(fork, h, parent))
  {
  }

  /** Along an accepted chain the fee moves by the share of the gas above or below the target of the parent, an eighth at most downwards. */
  lemma FeeMoves(fork: nat, parent: Header, headers: seq<Header>, i: nat)
    requires AcceptedChain(fork, parent, headers) && i + 1 < |headers|
    ensures headers[0].baseFee == Some(1_000_000_000)
    ensures headers[i].baseFee.Some? && headers[i + 1].baseFee.Some? && headers[i].gasLimit / 2 > 0
    ensures var fee, next, used, target := headers[i].baseFee.value, headers[i + 1].baseFee.value, headers[i].gasUsed, headers[i].gasLimit / 2;
      && 8 * next >= 7 * fee
      && (used == target ==> next == fee)
      && (used > target ==>
            && next > fee && fee * (used - target) < 8 * target * (next - fee + 1)
            && (next == fee + 1 || 8 * target * (next - fee) <= fee * (used - target)))
      && (used < target ==> next <= fee && 8 * target * (fee - next) <= fee * (target - used) < 8 * target * (fee - next + 1))
  {
    FeeNeverTooLow(fork, parent, headers, 0);
    FeeNeverTooLow(fork, parent, headers, i);
    FeeNeverTooLow(fork, parent, headers, i + 1);
    hide NextFee;
    var below := Below(parent, headers, i + 1);
    var now :| ValidateBlockHeader(Some(fork), headers[i + 1], below, now).None?;
    var first :| ValidateBlockHeader(Some(fork), headers[0], Below(parent, headers, 0), first).None?;
    FeeStep(below.baseFee.value, below.gasUsed, GasTarget(below));
  }

  /** Time advances along an accepted chain. */
  lemma {:induction false} TimeAdvances(fork: nat, parent: Header, headers: seq<Header>, i: nat, j: nat)
    requires AcceptedChain(fork, parent, headers) && i < j < |headers|
    ensures headers[i].timestamp < headers[j].timestamp
    decreases j
  {
    FeeNeverTooLow(fork, parent, headers, j);
    var now :| ValidateBlockHeader(Some(fork), headers[j], Below(parent, headers, j), now).None?;
    if i < j - 1 {
      TimeAdvances(fork, parent, headers, i, j - 1);
    }
  }

  /** The gas limit stays in its bounds and moves by less than one in 1024 a block, from twice the old one at the fork. */
  lemma GasLimitDrifts(fork: nat, parent: Header, headers: seq<Header>, i: nat)
    requires AcceptedChain(fork, parent, headers) && i < |headers|
    ensures MIN_GAS_LIMIT <= headers[i].gasLimit <= MAX_GAS_LIMIT && headers[i].extraDataLength <= MAX_EXTRA_DATA
    ensures var limit := if i == 0 then 2 * parent.gasLimit else headers[i - 1].gasLimit;
      limit - limit / 1024 < headers[i].gasLimit < limit + limit / 1024
  {
    FeeNeverTooLow(fork, parent, headers, i);
    var now :| ValidateBlockHeader(Some(fork), headers[i], Below(parent, headers, i), now).None?;
  }
}
