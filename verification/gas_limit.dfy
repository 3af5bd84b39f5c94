/** How a miner chooses the gas limit of the next block. */
module GasLimits {
  import opened Transactions
  import opened Uint64

  const GAS_LIMIT_BOUND_DIVISOR: nat := 1024
  const MIN_GAS_LIMIT: nat := 5000

  /** Block headers with a larger limit are not valid. */
  const MAX_GAS_LIMIT: nat := 0x7FFF_FFFF_FFFF_FFFF

  // ----- The 64-bit computation -----

  function Contrib(used: nat): nat {
    Wrap(used + used / 2) / GAS_LIMIT_BOUND_DIVISOR
  }

  function Decay(limit: nat): nat {
    Wrap(limit / GAS_LIMIT_BOUND_DIVISOR - 1)
  }

  function CalcGasLimit(parent: nat, used: nat, floor: nat, ceil: nat): nat {
    var target := Wrap(parent - Decay(parent) + Contrib(used));
    var limit := if target < MIN_GAS_LIMIT then MIN_GAS_LIMIT else target;
    if limit < floor then
      var up := Wrap(parent + Decay(parent));
      if up > floor then floor else up
    else if limit > ceil then
      var down := Wrap(parent - Decay(parent));
      if down < ceil then ceil else down
    else limit
  }

  // ----- What it comes to for valid headers -----

  /** A parent block whose header is valid. */
  predicate ValidParent(parent: nat, used: nat) {
    MIN_GAS_LIMIT <= parent <= MAX_GAS_LIMIT && used <= parent
  }

  /** The most a limit may change: strictly less than the parent's divided by 1024. */
  function MaxStep(parent: nat): nat
    requires MIN_GAS_LIMIT <= parent
  {
    parent / GAS_LIMIT_BOUND_DIVISOR - 1
  }

  /** The validity rule for the limit of a block, in section 4.3.4 of the Ethereum Yellow Paper. */
  predicate Allowed(parent: nat, limit: nat) {
    && limit < parent + parent / GAS_LIMIT_BOUND_DIVISOR
    && limit > parent - parent / GAS_LIMIT_BOUND_DIVISOR
    && limit >= MIN_GAS_LIMIT
  }

  /** Where usage alone would take the limit. */
  function Target(parent: nat, used: nat): nat
    requires ValidParent(parent, used)
  {
    parent - MaxStep(parent) + (used + used / 2) / GAS_LIMIT_BOUND_DIVISOR
  }

  function Max(a: nat, b: nat): nat {
    if a <= b then b else a
  }

  /** On valid headers nothing wraps around. */
  lemma NoWrap(parent: nat, used: nat, floor: nat, ceil: nat)
    requires ValidParent(parent, used)
    ensures var limit := Max(Target(parent, used), MIN_GAS_LIMIT);
            CalcGasLimit(parent, used, floor, ceil) ==
              if limit < floor then Min(parent + MaxStep(parent), floor)
              else if limit > ceil then Max(parent - MaxStep(parent), ceil)
              else limit
  {
    WrapOnce(used + used / 2);
    WrapOnce(parent / GAS_LIMIT_BOUND_DIVISOR - 1);
    WrapOnce(parent - MaxStep(parent) + (used + used / 2) / GAS_LIMIT_BOUND_DIVISOR);
    WrapOnce(parent + MaxStep(parent));
    WrapOnce(parent - MaxStep(parent));
    hide Wrap;
  }

  /** Full usage pushes the target at most one above the largest allowed step, and not even that
      from a parent limit of 5120 on. */
  lemma TargetBound(parent: nat, used: nat)
    requires ValidParent(parent, used)
    ensures parent - MaxStep(parent) <= Target(parent, used) <= parent + MaxStep(parent) + 1
    ensures parent >= 5120 ==> Target(parent, used) <= parent + MaxStep(parent)
  {
    var q, r := parent / 1024, parent % 1024;
    assert parent == 1024 * q + r;
    assert 2 * (used + used / 2) <= 3 * parent;
  }

  /** The computed limit is allowed exactly when the target is, or the floor or the ceiling replaces it. */
  lemma AllowedWhen(parent: nat, used: nat, floor: nat, ceil: nat)
    requires ValidParent(parent, used) && ceil >= MIN_GAS_LIMIT
    ensures Allowed(parent, CalcGasLimit(parent, used, floor, ceil)) <==>
              Target(parent, used) <= parent + MaxStep(parent) || Target(parent, used) < floor || Target(parent, used) > ceil
  {
    NoWrap(parent, used, floor, ceil);
    TargetBound(parent, used);
    hide CalcGasLimit, Target;
  }

  /** Every usage, floor and ceiling leads to an allowed limit. */
  ghost predicate AlwaysAllowed(parent: nat) {
    forall used: nat, floor: nat, ceil: nat :: used <= parent && ceil >= MIN_GAS_LIMIT ==>
      Allowed(parent, CalcGasLimit(parent, used, floor, ceil))
  }

  lemma AllowedFrom5120(parent: nat)
    requires MIN_GAS_LIMIT <= parent <= MAX_GAS_LIMIT
    ensures AlwaysAllowed(parent) <==> parent >= 5120
  {
    hide CalcGasLimit, Target, Allowed;
    if parent >= 5120 {
      forall used: nat, floor: nat, ceil: nat | used <= parent && ceil >= MIN_GAS_LIMIT
        ensures Allowed(parent, CalcGasLimit(parent, used, floor, ceil))
      {
        AllowedWhen(parent, used, floor, ceil);
        TargetBound(parent, used);
      }
    } else {
      FullBlocks(parent);
      AllowedWhen(parent, parent, 0, MAX_GAS_LIMIT);
      assert !Allowed(parent, CalcGasLimit(parent, parent, 0, MAX_GAS_LIMIT));
    }
  }

  /** Full blocks with a limit below 5120 ask for more than the largest step. */
  lemma FullBlocks(parent: nat)
    requires MIN_GAS_LIMIT <= parent < 5120
    ensures Target(parent, parent) == parent + MaxStep(parent) + 1
  {
  }

  // ----- Aiming at one limit -----

  /** With floor and ceiling equal, the limit moves towards them: by the largest allowed step, or
      all the way. */
  lemma Approaches(parent: nat, used: nat, aim: nat)
    requires ValidParent(parent, used) && MIN_GAS_LIMIT <= aim <= MAX_GAS_LIMIT
    ensures var next := CalcGasLimit(parent, used, aim, aim);
            && MIN_GAS_LIMIT <= next <= MAX_GAS_LIMIT
            && (parent <= aim ==> next == aim || next == parent + MaxStep(parent) < aim)
            && (parent >= aim ==> next == aim || next == parent - MaxStep(parent) > aim)
            && MaxStep(parent) >= 3
  {
    NoWrap(parent, used, aim, aim);
    TargetBound(parent, used);
    hide CalcGasLimit, Target;
  }

  /** The limit after a run of blocks that use the given amounts of gas, as far as their limits allow. */
  function AfterBlocks(parent: nat, usage: seq<nat>, aim: nat): nat
    decreases |usage|
  {
    if |usage| == 0 then parent
    else AfterBlocks(CalcGasLimit(parent, Min(usage[0], parent), aim, aim), usage[1..], aim)
  }

  function Distance(a: nat, b: nat): nat {
    if a <= b then b - a else a - b
  }

  /** Whatever the blocks use, the limit reaches the aim, no later than after a third as many blocks
      as it is away, stays there, and never moves away from it or past it. */
  lemma {:induction false} Converges(parent: nat, usage: seq<nat>, aim: nat)
    requires MIN_GAS_LIMIT <= parent <= MAX_GAS_LIMIT && MIN_GAS_LIMIT <= aim <= MAX_GAS_LIMIT
    ensures 3 * |usage| >= Distance(parent, aim) ==> AfterBlocks(parent, usage, aim) == aim
    ensures parent <= aim ==> parent <= AfterBlocks(parent, usage, aim) <= aim
    ensures parent >= aim ==> aim <= AfterBlocks(parent, usage, aim) <= parent
    decreases |usage|
  {
    if |usage| > 0 {
      Approaches(parent, Min(usage[0], parent), aim);
      Converges(CalcGasLimit(parent, Min(usage[0], parent), aim, aim), usage[1..], aim);
    }
  }
}
