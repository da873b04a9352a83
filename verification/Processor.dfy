/** Applying the transactions of a block one after the other (core/state_processor.go), and recovering each receipt's
    gas from the cumulative values (core/blockchain.go). */
module Processor {
  import opened Transactions
  import opened Intrinsic
  import opened Execution

  /** The deterministic surroundings of an execution: the virtual machine, the clean-up after a transaction, which
      signatures can be recovered and which senders are barred from a certain height on. */
  datatype Chain = Chain(evm: Evm, finalise: World -> World, recoverable: Tx -> bool, barred: set<Address>)

  datatype Header = Header(number: nat, gasLimit: nat, details: nat)

  const BARRED_AFTER: nat := 6638000

  datatype Receipt = Receipt(failed: bool, cumulative: nat, gasUsed: nat, tx: Tx, index: nat, logs: seq<nat>)

  /** The state that a block's transactions thread through: world, gas pool, gas used so far and fees so far. */
  datatype Session = Session(world: World, pool: nat, used: nat, fee: int)

  datatype Step =
    | Taken(session: Session, receipt: Receipt)
    | Rejected(world: World, pool: nat, error: ExecError)

  function Fee(tx: Tx, used: nat): int {
    used * tx.price + tx.fee
  }

  /** What applying one transaction comes to. */
  function Apply(ch: Chain, h: Header, s: Session, tx: Tx, index: nat): Step {
    if !ch.recoverable(tx) then Rejected(s.world, s.pool, InvalidSignature)
    else if h.number > BARRED_AFTER && tx.from in ch.barred then Rejected(s.world, s.pool, BarredSender)
    else match Transition(ch.evm, Context(h.number, h.gasLimit, h.details, index), s.world, s.pool, tx)
         case Failed(w, pool, error) => Rejected(w, pool, error)
         case Done(w, pool, used, failed, logs) =>
           Taken(Session(ch.finalise(w), pool, s.used + used, s.fee + Fee(tx, used)),
                 Receipt(failed, s.used + used, used, tx, index, logs))
  }

  datatype Replayed = Accepted(session: Session, receipts: seq<Receipt>) | Invalid(error: ExecError)

  /** What applying a list of transactions in order comes to. */
  function Replay(ch: Chain, h: Header, s: Session, txs: seq<Tx>): Replayed {
    if txs == [] then Accepted(s, [])
    else match Replay(ch, h, s, txs[..|txs| - 1])
         case Invalid(error) => Invalid(error)
         case Accepted(before, receipts) =>
           match Apply(ch, h, before, txs[|txs| - 1], |txs| - 1)
           case Rejected(w, pool, error) => Invalid(error)
           case Taken(after, receipt) => Accepted(after, receipts + [receipt])
  }

  class Tally {
    var usedGas: nat
    var feeAmount: int

    constructor ()
      ensures usedGas == 0 && feeAmount == 0
    {
      usedGas, feeAmount := 0, 0;
    }
  }

  datatype TxResult = Included(receipt: Receipt) | Excluded(error: ExecError)

  ghost function SessionOf(db: StateDB, gp: GasPool, tally: Tally): Session
    reads db, gp, tally
  {
    Session(db.world, gp.gas, tally.usedGas, tally.feeAmount)
  }

  /** Applies one transaction to the state, the gas pool and the running totals, none of which overflows. */
  method ApplyTransaction(ch: Chain, h: Header, gp: GasPool, db: StateDB, tally: Tally, tx: Tx, index: nat)
    returns (r: TxResult)
    requires tally.usedGas + gp.gas <= MAX_UINT64
    modifies gp, db, tally
    ensures tally.usedGas + gp.gas <= MAX_UINT64
    ensures var step := Apply(ch, h, old(SessionOf(db, gp, tally)), tx, index);
            && (step.Taken? ==> r == Included(step.receipt) && SessionOf(db, gp, tally) == step.session)
            && (step.Rejected? ==>
                  && r == Excluded(step.error) && db.world == step.world && gp.gas == step.pool
                  && tally.usedGas == old(tally.usedGas) && tally.feeAmount == old(tally.feeAmount))
  {
    hide Transition;
    if !ch.recoverable(tx) {
      return Excluded(InvalidSignature);
    }
    if h.number > BARRED_AFTER && tx.from in ch.barred {
      return Excluded(BarredSender);
    }
    var c := Context(h.number, h.gasLimit, h.details, index);
    GasConserved(ch.evm, c, db.world, gp.gas, tx);
    FailureKeepsGas(ch.evm, c, db.world, gp.gas, tx);
    var st := new StateTransition(gp, db, tx, true);
    MessageOf(ch.evm, c, db.world, gp.gas, tx);
    var result := st.TransitionDb(ch.evm, c);
    if result.Failed? {
      return Excluded(result.error);
    }
    db.world := ch.finalise(db.world);
    tally.usedGas := tally.usedGas + result.used;
    tally.feeAmount := tally.feeAmount + (result.used * tx.price + tx.fee);
    return Included(Receipt(result.failed, tally.usedGas, result.used, tx, index, result.logs));
  }

  datatype BlockResult = Processed(receipts: seq<Receipt>, used: nat, fee: int) | BadBlock(error: ExecError)

  /** Processes a block: all its transactions apply in order, or the block is bad. */
  method Process(ch: Chain, h: Header, txs: seq<Tx>, db: StateDB) returns (r: BlockResult)
    requires h.gasLimit <= MAX_UINT64
    modifies db
    ensures var replay := Replay(ch, h, Session(old(db.world), h.gasLimit, 0, 0), txs);
            && (replay.Accepted? ==>
                  && r == Processed(replay.receipts, replay.session.used, replay.session.fee)
                  && db.world == replay.session.world)
            && (replay.Invalid? ==> r == BadBlock(replay.error))
  {
    var gp := new GasPool(h.gasLimit);
    var tally := new Tally();
    var receipts: seq<Receipt> := [];
    ghost var start := Session(db.world, h.gasLimit, 0, 0);
    for i := 0 to |txs|
      invariant fresh(gp) && fresh(tally) && tally.usedGas + gp.gas <= MAX_UINT64
      invariant Replay(ch, h, start, txs[..i]) == Accepted(SessionOf(db, gp, tally), receipts)
    {
      assert txs[..i + 1][..i] == txs[..i];
      var result := ApplyTransaction(ch, h, gp, db, tally, txs[i], i);
      if result.Excluded? {
        ReplayStuck(ch, h, start, txs, i + 1);
        return BadBlock(result.error);
      }
      receipts := receipts + [result.receipt];
    }
    assert txs[..|txs|] == txs;
    r := Processed(receipts, tally.usedGas, tally.feeAmount);
  }

  /** Once a transaction is invalid, so is every longer block. */
  lemma {:induction false} ReplayStuck(ch: Chain, h: Header, s: Session, txs: seq<Tx>, k: nat)
    requires k <= |txs| && Replay(ch, h, s, txs[..k]).Invalid?
    ensures Replay(ch, h, s, txs) == Replay(ch, h, s, txs[..k])
    decreases |txs|
  {
    if k == |txs| {
      assert txs[..k] == txs;
    } else {
      assert txs[..|txs| - 1][..k] == txs[..k];
      ReplayStuck(ch, h, s, txs[..|txs| - 1], k);
    }
  }

  function TotalGas(receipts: seq<Receipt>): nat {
    if receipts == [] then 0 else TotalGas(receipts[..|receipts| - 1]) + receipts[|receipts| - 1].gasUsed
  }

  /** Each receipt's cumulative gas is the sum of the gas of the receipts up to it. */
  ghost predicate Cumulative(receipts: seq<Receipt>, start: nat) {
    forall i :: 0 <= i < |receipts| ==> receipts[i].cumulative == start + TotalGas(receipts[..i + 1])
  }

  /** In an accepted block the receipts' gas sums to what left the pool, and the cumulative values say so. */
  lemma {:induction false} ReplayConserves(ch: Chain, h: Header, s: Session, txs: seq<Tx>)
    requires Replay(ch, h, s, txs).Accepted?
    ensures var r := Replay(ch, h, s, txs);
            && |r.receipts| == |txs|
            && r.session.pool == s.pool - TotalGas(r.receipts)
            && r.session.used == s.used + TotalGas(r.receipts)
            && Cumulative(r.receipts, s.used)
            && forall i :: 0 <= i < |txs| ==> r.receipts[i].tx == txs[i] && r.receipts[i].index == i
    decreases |txs|
  {
    hide Cumulative, TotalGas, Transition;
    if txs == [] {
      NoGas(s.used);
    } else {
      var front, tx := txs[..|txs| - 1], txs[|txs| - 1];
      ReplayConserves(ch, h, s, front);
      var before := Replay(ch, h, s, front);
      var b := before.session;
      GasConserved(ch.evm, Context(h.number, h.gasLimit, h.details, |txs| - 1), b.world, b.pool, tx);
      CumulativeSnoc(before.receipts, Apply(ch, h, b, tx, |txs| - 1).receipt, s.used);
    }
  }

  lemma {:induction false} NoGas(start: nat)
    ensures TotalGas([]) == 0 && Cumulative([], start)
  {
  }

  lemma {:induction false} CumulativeSnoc(rs: seq<Receipt>, r: Receipt, start: nat)
    requires Cumulative(rs, start) && r.cumulative == start + TotalGas(rs) + r.gasUsed
    ensures TotalGas(rs + [r]) == TotalGas(rs) + r.gasUsed && Cumulative(rs + [r], start)
  {
    var all := rs + [r];
    assert all[..|all| - 1] == rs;
    forall i | 0 <= i < |all| ensures all[i].cumulative == start + TotalGas(all[..i + 1]) {
      if i < |rs| {
        assert all[..i + 1] == rs[..i + 1];
      } else {
        assert all[..i + 1] == all;
      }
    }
  }

  /** What the miner earns by the receipts: the price of the gas each transaction used, and the fee it carries. */
  ghost function Earned(receipts: seq<Receipt>): int {
    if receipts == [] then 0
    else
      var r := receipts[|receipts| - 1];
      Earned(receipts[..|receipts| - 1]) + (r.gasUsed * r.tx.price + r.tx.fee)
  }

  /** The fees of an accepted block are what its receipts earn. */
  lemma {:induction false} FeesAddUp(ch: Chain, h: Header, s: Session, txs: seq<Tx>)
    requires Replay(ch, h, s, txs).Accepted?
    ensures Replay(ch, h, s, txs).session.fee == s.fee + Earned(Replay(ch, h, s, txs).receipts)
    decreases |txs|
  {
    hide Transition;
    if txs != [] {
      var front := txs[..|txs| - 1];
      FeesAddUp(ch, h, s, front);
      var before := Replay(ch, h, s, front);
      var receipt := Apply(ch, h, before.session, txs[|txs| - 1], |txs| - 1).receipt;
      assert (before.receipts + [receipt])[..|before.receipts|] == before.receipts;
    }
  }

  /** A block is accepted exactly if each transaction can be applied after those before it: its signature is good, its
      sender not barred, its nonce the sender's, its gas paid for, within the pool and enough for the intrinsic cost. */
  ghost predicate Applicable(ch: Chain, h: Header, s: Session, tx: Tx) {
    var cost := IntrinsicCost(tx.data, tx.create, true);
    && ch.recoverable(tx) && (h.number <= 6638000 || tx.from !in ch.barred)
    && s.world.Nonce(tx.from) == tx.nonce
    && s.world.Balance(if tx.payer == EMPTY_ADDRESS then tx.from else tx.payer) >= tx.gas * tx.price
    && cost <= tx.gas <= s.pool && cost <= MAX_UINT64
  }

  lemma {:induction false} BlockExact(ch: Chain, h: Header, s: Session, txs: seq<Tx>, tx: Tx)
    ensures Replay(ch, h, s, []).Accepted?
    ensures Replay(ch, h, s, txs + [tx]).Accepted? <==>
            Replay(ch, h, s, txs).Accepted? && Applicable(ch, h, Replay(ch, h, s, txs).session, tx)
  {
    hide Transition;
    assert (txs + [tx])[..|txs|] == txs;
    if Replay(ch, h, s, txs).Accepted? {
      var b := Replay(ch, h, s, txs).session;
      DoneExact(ch.evm, Context(h.number, h.gasLimit, h.details, |txs|), b.world, b.pool, tx);
    }
  }

  /** In an accepted block each transaction runs in the finalised world that those before it left, and its receipt says
      how it ended and what it logged. */
  lemma {:induction false} BlockRuns(ch: Chain, h: Header, s: Session, txs: seq<Tx>, tx: Tx)
    requires Replay(ch, h, s, txs + [tx]).Accepted?
    ensures var c := Context(h.number, h.gasLimit, h.details, |txs|);
            var before, after := Replay(ch, h, s, txs), Replay(ch, h, s, txs + [tx]);
            && before.Accepted? && after.receipts[..|after.receipts| - 1] == before.receipts
            && tx.gas >= IntrinsicCost(tx.data, tx.create, true)
            && after.session.world ==
               ch.finalise(Transition(ch.evm, c, before.session.world, before.session.pool, tx).world)
            && var o, r := Ran(ch.evm, c, before.session.world, tx), after.receipts[|after.receipts| - 1];
            r.failed == o.failed && r.logs == o.logs
  {
    assert (txs + [tx])[..|txs|] == txs;
    var b := Replay(ch, h, s, txs).session;
    OnlyGasChangesHands(ch.evm, Context(h.number, h.gasLimit, h.details, |txs|), b.world, b.pool, tx, 0);
  }

  /** The receipt that is derived from what is stored: its place, its transaction and its own gas, modulo 64 bits. */
  function Derived(stored: seq<Receipt>, txs: seq<Tx>, j: nat): Receipt
    requires j < |stored| == |txs|
  {
    stored[j].(tx := txs[j], index := j,
               gasUsed := if j == 0 then stored[j].cumulative
                          else (stored[j].cumulative - stored[j - 1].cumulative) % (MAX_UINT64 + 1))
  }

  /** Fills in, in place, the receipt fields that are not stored. */
  method SetReceiptsData(txs: seq<Tx>, receipts: array<Receipt>) returns (ok: bool)
    modifies receipts
    ensures ok <==> |txs| == receipts.Length
    ensures !ok ==> receipts[..] == old(receipts[..])
    ensures ok ==> forall j :: 0 <= j < |txs| ==> receipts[j] == Derived(old(receipts[..]), txs, j)
  {
    if |txs| != receipts.Length {
      return false;
    }
    for j := 0 to receipts.Length
      invariant forall k :: 0 <= k < j ==> receipts[k] == Derived(old(receipts[..]), txs, k)
      invariant forall k :: j <= k < receipts.Length ==> receipts[k] == old(receipts[k])
    {
      var receipt := receipts[j].(tx := txs[j], index := j);
      if j == 0 {
        receipt := receipt.(gasUsed := receipt.cumulative);
      } else {
        assert receipts[j - 1] == Derived(old(receipts[..]), txs, j - 1);
        receipt := receipt.(gasUsed := (receipt.cumulative - receipts[j - 1].cumulative) % (MAX_UINT64 + 1));
      }
      assert receipt == Derived(old(receipts[..]), txs, j);
      receipts[j] := receipt;
    }
    return true;
  }

  /** What is stored of a receipt. */
  ghost predicate StoredAs(stored: Receipt, r: Receipt) {
    stored.failed == r.failed && stored.cumulative == r.cumulative && stored.logs == r.logs
  }

  /** From what is stored of a processed block's receipts, exactly those receipts are derived. */
  lemma {:induction false} ReceiptsRecovered(ch: Chain, h: Header, w: World, txs: seq<Tx>, stored: seq<Receipt>, j: nat)
    requires h.gasLimit <= MAX_UINT64
    requires Replay(ch, h, Session(w, h.gasLimit, 0, 0), txs).Accepted? && j < |txs| == |stored|
    requires var rs := Replay(ch, h, Session(w, h.gasLimit, 0, 0), txs).receipts;
             |rs| == |txs| && forall i :: 0 <= i < |rs| ==> StoredAs(stored[i], rs[i])
    ensures Derived(stored, txs, j) == Replay(ch, h, Session(w, h.gasLimit, 0, 0), txs).receipts[j]
  {
    hide Replay, TotalGas, Cumulative;
    var s := Session(w, h.gasLimit, 0, 0);
    ReplayConserves(ch, h, s, txs);
    DerivedFromCumulative(Replay(ch, h, s, txs).receipts, txs, stored, j);
  }

  lemma {:induction false} DerivedFromCumulative(rs: seq<Receipt>, txs: seq<Tx>, stored: seq<Receipt>, j: nat)
    requires Cumulative(rs, 0) && TotalGas(rs) <= MAX_UINT64 && j < |rs| == |txs| == |stored|
    requires forall i :: 0 <= i < |rs| ==> StoredAs(stored[i], rs[i])
    requires rs[j].tx == txs[j] && rs[j].index == j
    ensures Derived(stored, txs, j) == rs[j]
  {
    assert StoredAs(stored[j], rs[j]);
    assert rs[..j + 1][..j] == rs[..j];
    if j > 0 {
      assert StoredAs(stored[j - 1], rs[j - 1]);
      assert rs[j - 1].cumulative == TotalGas(rs[..j - 1 + 1]);
    }
    TotalGasPrefix(rs, j + 1);
    assert rs[j].gasUsed <= MAX_UINT64;
  }

  lemma {:induction false} TotalGasPrefix(rs: seq<Receipt>, k: nat)
    requires k <= |rs|
    ensures TotalGas(rs[..k]) <= TotalGas(rs)
    decreases |rs|
  {
    if k == |rs| {
      assert rs[..k] == rs;
    } else {
      assert rs[..|rs| - 1][..k] == rs[..k];
      TotalGasPrefix(rs[..|rs| - 1], k);
    }
  }
}
