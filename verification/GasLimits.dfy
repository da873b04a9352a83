/** The gas limit a miner gives the next block (core/block_validator.go), against the rule by which others accept it
    (consensus/minerva/consensus.go). All arithmetic is on 64-bit words. */
module GasLimits {
  const GAS_LIMIT_BOUND_DIVISOR := 100
  const MIN_GAS_LIMIT := 5000
  const WORD := 0x1_0000_0000_0000_0000

  function Word(x: int): (r: nat)
    ensures r < WORD && (0 <= x < WORD ==> r == x)
  {
    x % WORD
  }

  function Contrib(gasUsed: nat): nat {
    Word(gasUsed + gasUsed / 2) / GAS_LIMIT_BOUND_DIVISOR
  }

  function Decay(gasLimit: nat): nat {
    Word(gasLimit / GAS_LIMIT_BOUND_DIVISOR - 1)
  }

  function FastCalcGasLimit(gasLimit: nat, gasUsed: nat, gasFloor: nat, gasCeil: nat): nat {
    var decay := Decay(gasLimit);
    var plain := Word(gasLimit - decay + Contrib(gasUsed));
    var limit := if plain < MIN_GAS_LIMIT then MIN_GAS_LIMIT else plain;
    if limit < gasFloor then
      var raised := Word(gasLimit + decay);
      if raised > gasFloor then gasFloor else raised
    else if limit > gasCeil then
      var lowered := Word(gasLimit - decay);
      if lowered < gasCeil then gasCeil else lowered
    else limit
  }

  /** No 64-bit word overflows in the computation. */
  ghost predicate Fits(gasLimit: nat, gasUsed: nat) {
    && gasUsed + gasUsed / 2 < WORD
    && gasLimit + gasLimit / GAS_LIMIT_BOUND_DIVISOR < WORD
    && gasLimit + (gasUsed + gasUsed / 2) / GAS_LIMIT_BOUND_DIVISOR < WORD
  }

  ghost predicate InBand(limit: nat, gasFloor: nat, gasCeil: nat) {
    gasFloor <= limit <= gasCeil
  }

  /** How far a limit is outside the band. */
  ghost function Distance(limit: nat, gasFloor: nat, gasCeil: nat): nat {
    if limit < gasFloor then gasFloor - limit else if limit > gasCeil then limit - gasCeil else 0
  }

  /** One block brings the limit into the band or closer to it on the same side, by a whole decay, and never out. */
  lemma {:induction false} LimitApproaches(gasLimit: nat, gasUsed: nat, gasFloor: nat, gasCeil: nat)
    requires MIN_GAS_LIMIT <= gasFloor <= gasCeil && gasLimit >= 2 * GAS_LIMIT_BOUND_DIVISOR && Fits(gasLimit, gasUsed)
    ensures var r := FastCalcGasLimit(gasLimit, gasUsed, gasFloor, gasCeil);
            var d := Distance(gasLimit, gasFloor, gasCeil);
            && r >= 2 * GAS_LIMIT_BOUND_DIVISOR
            && (InBand(r, gasFloor, gasCeil) || Distance(r, gasFloor, gasCeil) == d - (gasLimit / 100 - 1) < d)
            && (r < gasFloor ==> gasLimit < gasFloor) && (r > gasCeil ==> gasLimit > gasCeil)
  {
  }

  /** As long as that stays inside the band, the limit rises exactly where gas used, and half as much again, reaches the
      limit rounded down to hundreds; it stays where that falls short by at most a hundred, and falls below. */
  lemma {:induction false} LimitFollowsUse(gasLimit: nat, gasUsed: nat, gasFloor: nat, gasCeil: nat)
    requires MIN_GAS_LIMIT <= gasFloor && gasLimit >= 100 && Fits(gasLimit, gasUsed)
    requires gasFloor <= gasLimit - (gasLimit / 100 - 1) + (gasUsed + gasUsed / 2) / 100 <= gasCeil
    ensures var r, use := FastCalcGasLimit(gasLimit, gasUsed, gasFloor, gasCeil), gasUsed + gasUsed / 2;
            && r == gasLimit - (gasLimit / 100 - 1) + use / 100
            && (r > gasLimit <==> use >= gasLimit / 100 * 100)
            && (r < gasLimit <==> use < gasLimit / 100 * 100 - 100)
  {
  }

  /** At exactly two thirds of a limit in full hundreds the next limit is higher by one. */
  lemma {:induction false} TwoThirdsRises(hundreds: nat, gasFloor: nat, gasCeil: nat)
    requires var limit := 300 * hundreds;
             MIN_GAS_LIMIT <= gasFloor <= limit + 1 <= gasCeil && Fits(limit, 200 * hundreds) && hundreds > 0
    ensures FastCalcGasLimit(300 * hundreds, 200 * hundreds, gasFloor, gasCeil) == 300 * hundreds + 1
  {
    LimitFollowsUse(300 * hundreds, 200 * hundreds, gasFloor, gasCeil);
  }

  /** The limit never falls for more gas used. */
  lemma {:induction false} LimitMonotone(gasLimit: nat, gasUsed: nat, more: nat, gasFloor: nat, gasCeil: nat)
    requires gasUsed <= more && gasFloor <= gasCeil && gasLimit >= 100
    requires Fits(gasLimit, gasUsed) && Fits(gasLimit, more)
    ensures FastCalcGasLimit(gasLimit, gasUsed, gasFloor, gasCeil) <=
            FastCalcGasLimit(gasLimit, more, gasFloor, gasCeil)
  {
  }

  /** The limits of successive blocks, whatever gas they use. */
  ghost function After(gasLimit: nat, used: seq<nat>, gasFloor: nat, gasCeil: nat): nat
    decreases |used|
  {
    if |used| == 0 then gasLimit
    else After(FastCalcGasLimit(gasLimit, used[0], gasFloor, gasCeil), used[1..], gasFloor, gasCeil)
  }

  ghost predicate AllFit(gasLimit: nat, used: seq<nat>, gasFloor: nat, gasCeil: nat)
    decreases |used|
  {
    |used| > 0 ==>
      && Fits(gasLimit, used[0])
      && AllFit(FastCalcGasLimit(gasLimit, used[0], gasFloor, gasCeil), used[1..], gasFloor, gasCeil)
  }

  /** Over any run of blocks the limit settles: it is inside the band after as many blocks as it was away from it. */
  lemma {:induction false} LimitSettles(gasLimit: nat, used: seq<nat>, gasFloor: nat, gasCeil: nat)
    requires MIN_GAS_LIMIT <= gasFloor <= gasCeil && gasLimit >= 2 * GAS_LIMIT_BOUND_DIVISOR
    requires AllFit(gasLimit, used, gasFloor, gasCeil)
    ensures var d := Distance(gasLimit, gasFloor, gasCeil);
            Distance(After(gasLimit, used, gasFloor, gasCeil), gasFloor, gasCeil) <=
            if |used| >= d then 0 else d - |used|
    decreases |used|
  {
    if |used| > 0 {
      LimitApproaches(gasLimit, used[0], gasFloor, gasCeil);
      LimitSettles(FastCalcGasLimit(gasLimit, used[0], gasFloor, gasCeil), used[1..], gasFloor, gasCeil);
    }
  }

  const LIMIT_CAP := 0x7fff_ffff_ffff_ffff

  /** The rule by which a header's gas limit is accepted after its parent's. */
  predicate AcceptedLimit(parentLimit: nat, limit: nat) {
    var diff := if parentLimit >= limit then parentLimit - limit else limit - parentLimit;
    limit <= LIMIT_CAP && diff < parentLimit / GAS_LIMIT_BOUND_DIVISOR && limit >= MIN_GAS_LIMIT
  }

  /** After any acceptable parent the proposed limit fits its words and is accepted. */
  lemma {:induction false} ProposedIsAccepted(gasLimit: nat, gasUsed: nat, gasFloor: nat, gasCeil: nat)
    requires MIN_GAS_LIMIT <= gasLimit <= LIMIT_CAP && gasUsed <= gasLimit
    requires MIN_GAS_LIMIT <= gasFloor <= gasCeil <= LIMIT_CAP
    ensures Fits(gasLimit, gasUsed)
    ensures AcceptedLimit(gasLimit, FastCalcGasLimit(gasLimit, gasUsed, gasFloor, gasCeil))
  {
  }

  /** No block of the run uses more than its limit. */
  ghost predicate WithinLimits(gasLimit: nat, used: seq<nat>, gasFloor: nat, gasCeil: nat)
    decreases |used|
  {
    |used| > 0 ==>
      && used[0] <= gasLimit
      && WithinLimits(FastCalcGasLimit(gasLimit, used[0], gasFloor, gasCeil), used[1..], gasFloor, gasCeil)
  }

  /** A chain whose blocks stay within their limits never overflows a word, so its limit settles in the band. */
  lemma {:induction false} ChainSettles(gasLimit: nat, used: seq<nat>, gasFloor: nat, gasCeil: nat)
    requires MIN_GAS_LIMIT <= gasLimit <= LIMIT_CAP && MIN_GAS_LIMIT <= gasFloor <= gasCeil <= LIMIT_CAP
    requires WithinLimits(gasLimit, used, gasFloor, gasCeil)
    ensures AllFit(gasLimit, used, gasFloor, gasCeil)
    ensures MIN_GAS_LIMIT <= After(gasLimit, used, gasFloor, gasCeil) <= LIMIT_CAP
    ensures |used| >= Distance(gasLimit, gasFloor, gasCeil) ==>
              InBand(After(gasLimit, used, gasFloor, gasCeil), gasFloor, gasCeil)
    decreases |used|
  {
    if |used| > 0 {
      ProposedIsAccepted(gasLimit, used[0], gasFloor, gasCeil);
      ChainSettles(FastCalcGasLimit(gasLimit, used[0], gasFloor, gasCeil), used[1..], gasFloor, gasCeil);
    }
    LimitSettles(gasLimit, used, gasFloor, gasCeil);
  }
}
