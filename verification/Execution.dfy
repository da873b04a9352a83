/** The gas pool and the state transition of one message (core/gaspool.go, core/state_transition.go). */
module Execution {
  import opened Collections
  import opened Transactions
  import opened Intrinsic

  datatype ExecError =
    | InvalidSignature | BarredSender | NonceTooHigh | NonceTooLow | GasLimitReached
    | InsufficientBalanceForGas | InsufficientBalanceForPayerForGas | GasUintOverflow | IntrinsicGasTooLow

  /** The part of the world state that a message reads and writes outside the virtual machine, plus `rest` for
      everything that only the virtual machine touches. */
  datatype World = World(balances: map<Address, int>, nonces: map<Address, nat>, refund: nat, rest: nat)
  {
    function Balance(a: Address): int {
      if a in balances then balances[a] else 0
    }

    function Nonce(a: Address): nat {
      if a in nonces then nonces[a] else 0
    }

    function Credit(a: Address, amount: int): World {
      this.(balances := balances[a := Balance(a) + amount])
    }

    function BumpNonce(a: Address): World {
      this.(nonces := nonces[a := Nonce(a) + 1])
    }
  }

  /** What the virtual machine sees of the block and of the place of the message in it. */
  datatype Context = Context(number: nat, gasLimit: nat, details: nat, index: nat)

  /** What a run of the virtual machine leaves. */
  datatype Outcome = Outcome(world: World, left: nat, failed: bool, logs: seq<nat>)

  /** A deterministic virtual machine, which leaves no more gas than it is given. */
  type Evm = f: (Context, World, Tx, nat) -> Outcome |
    forall c, w, tx, g :: f(c, w, tx, g).left <= g
    witness (c: Context, w: World, tx: Tx, g: nat) => Outcome(w, g, false, [])

  /** The account that buys the gas. */
  function Buyer(tx: Tx): Address {
    if tx.payer != EMPTY_ADDRESS then tx.payer else tx.from
  }

  function NoFunds(tx: Tx): ExecError {
    if tx.payer != EMPTY_ADDRESS then InsufficientBalanceForPayerForGas else InsufficientBalanceForGas
  }

  /** The result of a message: what it did to the world and to the gas pool, whether it failed or not. */
  datatype Applied =
    | Done(world: World, pool: nat, used: nat, failed: bool, logs: seq<nat>)
    | Failed(world: World, pool: nat, error: ExecError)

  /** The gas left of a message, once the refund, at most half of what was consumed, has been added. */
  function WithRefund(gas: nat, left: nat, refund: nat): nat
    requires left <= gas
  {
    left + if (gas - left) / 2 > refund then refund else (gas - left) / 2
  }

  /** What running a message whose gas has been bought comes to. */
  function Executed(evm: Evm, c: Context, w: World, pool: nat, tx: Tx): Applied {
    match CheckedIntrinsicCost(tx.data, tx.create, true)
    case None => Failed(w, pool, GasUintOverflow)
    case Some(cost) =>
      if tx.gas < cost then Failed(w, pool, IntrinsicGasTooLow)
      else
        var o := evm(c, if tx.create then w else w.BumpNonce(tx.from), tx, tx.gas - cost);
        var left := WithRefund(tx.gas, o.left, o.world.refund);
        Done(o.world.Credit(Buyer(tx), left * tx.price), pool + left, tx.gas - left, o.failed, o.logs)
  }

  /** What applying the message of a transaction comes to. */
  function Transition(evm: Evm, c: Context, w: World, pool: nat, tx: Tx): Applied {
    Message(evm, c, w, pool, tx, true)
  }

  /** What applying a message comes to, with or without a check of its nonce. */
  function Message(evm: Evm, c: Context, w: World, pool: nat, tx: Tx, checkNonce: bool): Applied {
    if checkNonce && w.Nonce(tx.from) < tx.nonce then Failed(w, pool, NonceTooHigh)
    else if checkNonce && w.Nonce(tx.from) > tx.nonce then Failed(w, pool, NonceTooLow)
    else if w.Balance(Buyer(tx)) < tx.gas * tx.price then Failed(w, pool, NoFunds(tx))
    else if pool < tx.gas then Failed(w, pool, GasLimitReached)
    else Executed(evm, c, w.Credit(Buyer(tx), -(tx.gas * tx.price)), pool - tx.gas, tx)
  }

  lemma {:induction false} MessageOf(evm: Evm, c: Context, w: World, pool: nat, tx: Tx)
    ensures Transition(evm, c, w, pool, tx) == Message(evm, c, w, pool, tx, true)
    ensures w.Nonce(tx.from) == tx.nonce ==> Transition(evm, c, w, pool, tx) == Message(evm, c, w, pool, tx, false)
  {
  }

  class GasPool {
    var gas: nat

    constructor (gas: nat)
      ensures this.gas == gas
    {
      this.gas := gas;
    }

    /** Makes gas available; refuses to go beyond 64 bits. */
    method AddGas(amount: nat) returns (ok: bool)
      requires amount <= MAX_UINT64
      modifies this
      ensures ok <==> old(gas) + amount <= MAX_UINT64
      ensures gas == if ok then old(gas) + amount else old(gas)
    {
      if gas > MAX_UINT64 - amount {
        return false;
      }
      gas := gas + amount;
      return true;
    }

    method SubGas(amount: nat) returns (ok: bool)
      modifies this
      ensures ok <==> amount <= old(gas)
      ensures gas == if ok then old(gas) - amount else old(gas)
    {
      if gas < amount {
        return false;
      }
      gas := gas - amount;
      return true;
    }
  }

  class StateDB {
    var world: World

    constructor (world: World)
      ensures this.world == world
    {
      this.world := world;
    }
  }

  class StateTransition {
    const gp: GasPool
    const db: StateDB
    const tx: Tx
    const checkNonce: bool
    var gas: nat
    var initialGas: nat

    constructor (gp: GasPool, db: StateDB, tx: Tx, checkNonce: bool)
      ensures this.gp == gp && this.db == db && this.tx == tx && this.checkNonce == checkNonce
      ensures gas == 0 && initialGas == 0
    {
      this.gp, this.db, this.tx, this.checkNonce := gp, db, tx, checkNonce;
      gas, initialGas := 0, 0;
    }

    /** Charges the buyer for all the gas the message may use and takes that gas from the pool. */
    method BuyGas() returns (error: Option<ExecError>)
      requires gas == 0
      modifies this, gp, db
      ensures error.None? <==> old(db.world).Balance(Buyer(tx)) >= tx.gas * tx.price && old(gp.gas) >= tx.gas
      ensures error.Some? ==>
                && error.value == (if old(db.world).Balance(Buyer(tx)) < tx.gas * tx.price then NoFunds(tx)
                                   else GasLimitReached)
                && db.world == old(db.world) && gp.gas == old(gp.gas)
      ensures error.None? ==>
                && gas == initialGas == tx.gas && gp.gas == old(gp.gas) - tx.gas
                && db.world == old(db.world).Credit(Buyer(tx), -(tx.gas * tx.price))
    {
      var mgval := tx.gas * tx.price;
      var buyer := if tx.payer != EMPTY_ADDRESS then tx.payer else tx.from;
      if db.world.Balance(buyer) < mgval {
        return Some(if tx.payer != EMPTY_ADDRESS then InsufficientBalanceForPayerForGas else InsufficientBalanceForGas);
      }
      var ok := gp.SubGas(tx.gas);
      if !ok {
        return Some(GasLimitReached);
      }
      gas := gas + tx.gas;
      initialGas := tx.gas;
      db.world := db.world.Credit(buyer, -mgval);
      return None;
    }

    /** Checks the nonce, if that is asked for, and buys the gas. */
    method PreCheck() returns (error: Option<ExecError>)
      requires gas == 0
      modifies this, gp, db
      ensures var w := old(db.world);
              && (checkNonce && w.Nonce(tx.from) < tx.nonce ==> error == Some(NonceTooHigh))
              && (checkNonce && w.Nonce(tx.from) > tx.nonce ==> error == Some(NonceTooLow))
              && (!checkNonce || w.Nonce(tx.from) == tx.nonce ==>
                    error == if w.Balance(Buyer(tx)) < tx.gas * tx.price then Some(NoFunds(tx))
                             else if old(gp.gas) < tx.gas then Some(GasLimitReached) else None)
      ensures error.Some? ==> db.world == old(db.world) && gp.gas == old(gp.gas)
      ensures error.None? ==>
                && gas == initialGas == tx.gas && gp.gas == old(gp.gas) - tx.gas
                && db.world == old(db.world).Credit(Buyer(tx), -(tx.gas * tx.price))
    {
      var nonce := db.world.Nonce(tx.from);
      if checkNonce && nonce < tx.nonce {
        return Some(NonceTooHigh);
      } else if checkNonce && nonce > tx.nonce {
        return Some(NonceTooLow);
      }
      error := BuyGas();
    }

    method UseGas(amount: nat) returns (ok: bool)
      modifies `gas
      ensures ok <==> amount <= old(gas)
      ensures gas == if ok then old(gas) - amount else old(gas)
    {
      if gas < amount {
        return false;
      }
      gas := gas - amount;
      return true;
    }

    /** Hands the unused gas back, to the buyer in money and to the pool; the pool never overflows. */
    method RefundGas()
      requires gas <= initialGas && gp.gas + initialGas <= MAX_UINT64
      modifies `gas, gp, db
      ensures gas == WithRefund(initialGas, old(gas), old(db.world).refund) && gas <= initialGas
      ensures var back, consumed := gas - old(gas), initialGas - old(gas);
              && 0 <= back <= old(db.world).refund && 2 * back <= consumed
              && (back == old(db.world).refund || back == consumed / 2)
      ensures db.world == old(db.world).Credit(Buyer(tx), gas * tx.price)
      ensures gp.gas == old(gp.gas) + gas
    {
      var refund := (initialGas - gas) / 2;
      if refund > db.world.refund {
        refund := db.world.refund;
      }
      gas := gas + refund;
      var remaining := gas * tx.price;
      db.world := db.world.Credit(if tx.payer != EMPTY_ADDRESS then tx.payer else tx.from, remaining);
      var ok := gp.AddGas(gas);
    }

    /** Applies the message. */
    method TransitionDb(evm: Evm, c: Context) returns (r: Applied)
      requires gas == 0 && gp.gas <= MAX_UINT64
      modifies this, gp, db
      ensures r == Message(evm, c, old(db.world), old(gp.gas), tx, checkNonce)
      ensures db.world == r.world && gp.gas == r.pool
    {
      hide WithRefund, IntrinsicCost;
      var error := PreCheck();
      if error.Some? {
        return Failed(db.world, gp.gas, error.value);
      }
      var cost := IntrinsicGas(tx.data, tx.create, true);
      if cost.None? {
        return Failed(db.world, gp.gas, GasUintOverflow);
      }
      var ok := UseGas(cost.value);
      if !ok {
        return Failed(db.world, gp.gas, IntrinsicGasTooLow);
      }
      var o;
      if tx.create {
        o := evm(c, db.world, tx, gas);
      } else {
        db.world := db.world.BumpNonce(tx.from);
        o := evm(c, db.world, tx, gas);
      }
      db.world, gas := o.world, o.left;
      RefundGas();
      r := Done(db.world, gp.gas, initialGas - gas, o.failed, o.logs);
    }
  }

  /** The world that the machine is given: the gas is paid for, and a call has counted up the sender's nonce. */
  function Seen(w: World, tx: Tx): World {
    var paid := w.Credit(Buyer(tx), -(tx.gas * tx.price));
    if tx.create then paid else paid.BumpNonce(tx.from)
  }

  /** What the machine makes of a message. */
  function Ran(evm: Evm, c: Context, w: World, tx: Tx): Outcome
    requires tx.gas >= IntrinsicCost(tx.data, tx.create, true)
  {
    evm(c, Seen(w, tx), tx, tx.gas - IntrinsicCost(tx.data, tx.create, true))
  }

  /** The gas that a message consumes before any refund: its intrinsic cost and what the machine takes. */
  function Consumed(evm: Evm, c: Context, w: World, tx: Tx): nat {
    if tx.gas < IntrinsicCost(tx.data, tx.create, true) then 0 else tx.gas - Ran(evm, c, w, tx).left
  }

  /** A message comes through exactly when its nonce is the sender's, its buyer can pay for all its gas, the pool has
      that much gas, and the gas covers the intrinsic cost, which fits in 64 bits. */
  lemma {:induction false} DoneExact(evm: Evm, c: Context, w: World, pool: nat, tx: Tx)
    ensures var buyer := if tx.payer == EMPTY_ADDRESS then tx.from else tx.payer;
            var cost := IntrinsicCost(tx.data, tx.create, true);
            Transition(evm, c, w, pool, tx).Done? <==>
              && w.Nonce(tx.from) == tx.nonce && w.Balance(buyer) >= tx.gas * tx.price
              && cost <= tx.gas <= pool && cost <= MAX_UINT64
  {
  }

  /** A message that does not come through reports the first thing that is wrong with it: nonce, funds, gas in the pool,
      intrinsic cost. The last comes too late for the gas to be given back. */
  lemma {:induction false} FirstErrorReported(evm: Evm, c: Context, w: World, pool: nat, tx: Tx)
    requires Transition(evm, c, w, pool, tx).Failed?
    ensures var r, separate := Transition(evm, c, w, pool, tx), tx.payer != EMPTY_ADDRESS;
            if w.Nonce(tx.from) < tx.nonce then r == Failed(w, pool, NonceTooHigh)
            else if w.Nonce(tx.from) > tx.nonce then r == Failed(w, pool, NonceTooLow)
            else if separate && w.Balance(tx.payer) < tx.gas * tx.price then
              r == Failed(w, pool, InsufficientBalanceForPayerForGas)
            else if !separate && w.Balance(tx.from) < tx.gas * tx.price then
              r == Failed(w, pool, InsufficientBalanceForGas)
            else if pool < tx.gas then r == Failed(w, pool, GasLimitReached)
            else && r.pool == pool - tx.gas
                 && r.error == (if IntrinsicCost(tx.data, tx.create, true) > MAX_UINT64 then GasUintOverflow
                                else IntrinsicGasTooLow)
  {
  }

  /** The machine starts in a world that differs from the one before only in what the buyer has paid and in the
      sender's nonce; a message reports the machine's verdict and logs, and changes the machine's world only by paying
      the buyer for the gas that was not used. */
  lemma {:induction false} OnlyGasChangesHands(evm: Evm, c: Context, w: World, pool: nat, tx: Tx, a: Address)
    requires Transition(evm, c, w, pool, tx).Done?
    ensures var r, seen := Transition(evm, c, w, pool, tx), Seen(w, tx);
            var o := evm(c, seen, tx, tx.gas - IntrinsicCost(tx.data, tx.create, true));
            var buyer := if tx.payer == EMPTY_ADDRESS then tx.from else tx.payer;
            && seen.Balance(a) == w.Balance(a) - (if a == buyer then tx.gas * tx.price else 0)
            && seen.Nonce(a) == w.Nonce(a) + (if a == tx.from && !tx.create then 1 else 0)
            && seen.refund == w.refund && seen.rest == w.rest
            && r.failed == o.failed && r.logs == o.logs
            && r.world.Balance(a) == o.world.Balance(a) + (if a == buyer then (tx.gas - r.used) * tx.price else 0)
            && r.world.Nonce(a) == o.world.Nonce(a)
            && r.world.refund == o.world.refund && r.world.rest == o.world.rest
  {
    GasConserved(evm, c, w, pool, tx);
  }

  /** What a message gets back of the gas it consumed is the refund counter, or half of what it consumed where the
      counter is more. */
  lemma {:induction false} RefundExact(evm: Evm, c: Context, w: World, pool: nat, tx: Tx)
    requires Transition(evm, c, w, pool, tx).Done?
    ensures var consumed := Consumed(evm, c, w, tx);
            var back := consumed - Transition(evm, c, w, pool, tx).used;
            var refund := Ran(evm, c, w, tx).world.refund;
            && 0 <= back <= refund && 2 * back <= consumed && (back == refund || back == consumed / 2)
  {
    GasConserved(evm, c, w, pool, tx);
  }

  /** With nothing on the refund counter a message uses all that it consumed. */
  lemma {:induction false} NoRefund(evm: Evm, c: Context, w: World, pool: nat, tx: Tx)
    requires Transition(evm, c, w, pool, tx).Done? && Ran(evm, c, w, tx).world.refund == 0
    ensures Transition(evm, c, w, pool, tx).used == Consumed(evm, c, w, tx)
  {
    RefundExact(evm, c, w, pool, tx);
  }

  /** A successful message takes from the pool exactly the gas it used, which is within its limit and, whatever the
      refund, at least half of what it consumed. */
  lemma {:induction false} GasConserved(evm: Evm, c: Context, w: World, pool: nat, tx: Tx)
    ensures var r := Transition(evm, c, w, pool, tx);
            r.Done? ==>
              && r.pool == pool - r.used && r.used <= tx.gas <= pool
              && r.used <= Consumed(evm, c, w, tx) <= 2 * r.used
              && IntrinsicCost(tx.data, tx.create, true) <= Consumed(evm, c, w, tx) <= tx.gas
  {
    var r := Transition(evm, c, w, pool, tx);
    if r.Done? {
      assert Ran(evm, c, w, tx).left <= tx.gas - IntrinsicCost(tx.data, tx.create, true);
    }
  }

  /** A failed message never adds gas to the pool, and one that fails once its gas is bought keeps all of it. */
  lemma {:induction false} FailureKeepsGas(evm: Evm, c: Context, w: World, pool: nat, tx: Tx)
    ensures var r := Transition(evm, c, w, pool, tx);
            r.Failed? ==>
              && (r.error == GasUintOverflow || r.error == IntrinsicGasTooLow ==> r.pool == pool - tx.gas)
              && (r.error != GasUintOverflow && r.error != IntrinsicGasTooLow ==> r.pool == pool && r.world == w)
  {
  }

  /** The message gets as far as buying its gas, and then owes more for its data and call than it bought. */
  predicate LosesGas(w: World, pool: nat, tx: Tx) {
    && w.Nonce(tx.from) == tx.nonce && w.Balance(Buyer(tx)) >= tx.gas * tx.price && 0 < tx.gas <= pool
    && (tx.gas < IntrinsicCost(tx.data, tx.create, true) || IntrinsicCost(tx.data, tx.create, true) > MAX_UINT64)
  }

  /** Gas is lost by exactly such messages, all that they bought; every other failure leaves the pool as it was. */
  lemma {:induction false} GasLostExactly(evm: Evm, c: Context, w: World, pool: nat, tx: Tx)
    ensures var r := Transition(evm, c, w, pool, tx);
            && (LosesGas(w, pool, tx) ==> r.Failed?)
            && (r.Failed? ==> (r.pool != pool <==> LosesGas(w, pool, tx)))
            && r.pool == pool - (if r.Done? then r.used else if LosesGas(w, pool, tx) then tx.gas else 0)
  {
    GasConserved(evm, c, w, pool, tx);
  }

  /** A message that offers one unit of gas for a plain transfer buys it, fails, and does not give it back. */
  lemma {:induction false} LosesOne(evm: Evm, c: Context, pool: nat)
    requires pool > 0
    ensures var tx := Tx(0, 1, EMPTY_ADDRESS, 0, 0, 1, 0, 0, false, [], 0);
            var w := World(map[], map[], 0, 0);
            Transition(evm, c, w, pool, tx) == Failed(w.Credit(1, 0), pool - 1, IntrinsicGasTooLow)
  {
    assert NonZeroBytes([]) == 0;
  }

  /** More gas in the pool changes nothing about a message that succeeds. */
  lemma {:induction false} PoolMonotone(evm: Evm, c: Context, w: World, pool: nat, more: nat, tx: Tx)
    requires Transition(evm, c, w, pool, tx).Done? && pool <= more
    ensures var r, s := Transition(evm, c, w, pool, tx), Transition(evm, c, w, more, tx);
            s == Done(r.world, r.pool + (more - pool), r.used, r.failed, r.logs)
  {
  }

  /** When the machine leaves the buyer's balance alone, the buyer ends up paying for exactly the gas used. */
  lemma {:induction false} BuyerPaysForUsedGas(evm: Evm, c: Context, w: World, pool: nat, tx: Tx)
    requires forall v, g :: evm(c, v, tx, g).world.Balance(Buyer(tx)) == v.Balance(Buyer(tx))
    ensures var r := Transition(evm, c, w, pool, tx);
            r.Done? ==> r.world.Balance(Buyer(tx)) == w.Balance(Buyer(tx)) - r.used * tx.price
  {
    hide CheckedIntrinsicCost, Buyer, WithRefund;
    var r := Transition(evm, c, w, pool, tx);
    if r.Done? {
      Distribute(tx.gas, tx.gas - r.used, tx.price);
    }
  }

  lemma {:induction false} Distribute(a: int, b: int, price: int)
    ensures (a - b) * price == a * price - b * price
  {
  }
}
