/** What admitting a transaction does to the pool, from validation to its place on a list (core/tx_pool.go). */
module Admissions {
  import opened Collections
  import opened Transactions
  import opened PriceOrder
  import opened AccountLists
  import opened PoolState
  import opened Exchange
  import opened Intrinsic
  import Execution

  datatype PoolError =
    | KnownTransaction | OversizedData | NegativeValue | NegativeFee | ExceedsBlockGas | BarredSender | Underpriced
    | NonceTooLow | InsufficientFundsForPayer | InsufficientFundsForSender | InsufficientFunds | GasOverflow
    | IntrinsicGasTooLow | ReplaceUnderpriced

  /** Why a transaction is refused before it reaches any list, if it is. */
  function Validate(tx: Tx, head: HeadState, maxGas: nat, gasPrice: nat): Option<PoolError> {
    if tx.size > 32 * 1024 then Some(OversizedData)
    else if tx.value < 0 then Some(NegativeValue)
    else if tx.fee < 0 then Some(NegativeFee)
    else if maxGas < tx.gas then Some(ExceedsBlockGas)
    else if tx.from in head.barred then Some(BarredSender)
    else if gasPrice > tx.price then Some(Underpriced)
    else if head.nonce(tx.from) > tx.nonce then Some(NonceTooLow)
    else if tx.HasOtherPayer() && head.balance(tx.payer) < tx.GasCost() then Some(InsufficientFundsForPayer)
    else if tx.HasOtherPayer() && head.balance(tx.from) < tx.AmountCost() then Some(InsufficientFundsForSender)
    else if !tx.HasOtherPayer() && head.balance(tx.from) < tx.Cost() then Some(InsufficientFunds)
    else match CheckedIntrinsicCost(tx.data, tx.create, true)
         case None => Some(GasOverflow)
         case Some(cost) => if tx.gas < cost then Some(IntrinsicGasTooLow) else None
  }

  /** A transaction is valid exactly when it is small enough, pays and offers nothing negative, fits into a block, comes
      from a sender that is not barred, bids the minimum price, is not outdated, can be paid for by its sender and by
      its payer if that is somebody else, and brings the gas for its data and call, an amount of 64 bits. */
  lemma {:induction false} ValidateExact(tx: Tx, head: HeadState, maxGas: nat, gasPrice: nat)
    ensures var cost := IntrinsicCost(tx.data, tx.create, true);
            Validate(tx, head, maxGas, gasPrice) == None <==>
              && tx.size <= 32768 && tx.value >= 0 && tx.fee >= 0 && tx.gas <= maxGas
              && tx.from !in head.barred && tx.price >= gasPrice && tx.nonce >= head.nonce(tx.from)
              && (tx.payer == EMPTY_ADDRESS || tx.payer == tx.from ==>
                    head.balance(tx.from) >= tx.value + tx.fee + tx.price * tx.gas)
              && (tx.payer != EMPTY_ADDRESS && tx.payer != tx.from ==>
                    head.balance(tx.from) >= tx.value + tx.fee && head.balance(tx.payer) >= tx.price * tx.gas)
              && cost <= tx.gas && cost <= MAX_UINT64
  {
  }

  /** What is wrong with a transaction, in the order of the checks. */
  ghost function Faults(tx: Tx, head: HeadState, maxGas: nat, gasPrice: nat): seq<(bool, PoolError)> {
    var cost := IntrinsicCost(tx.data, tx.create, true);
    var alone := tx.payer == EMPTY_ADDRESS || tx.payer == tx.from;
    [(tx.size > 32768, OversizedData),
     (tx.value < 0, NegativeValue),
     (tx.fee < 0, NegativeFee),
     (tx.gas > maxGas, ExceedsBlockGas),
     (tx.from in head.barred, BarredSender),
     (tx.price < gasPrice, Underpriced),
     (tx.nonce < head.nonce(tx.from), NonceTooLow),
     (!alone && head.balance(tx.payer) < tx.price * tx.gas, InsufficientFundsForPayer),
     (!alone && head.balance(tx.from) < tx.value + tx.fee, InsufficientFundsForSender),
     (alone && head.balance(tx.from) < tx.value + tx.fee + tx.price * tx.gas, InsufficientFunds),
     (cost > MAX_UINT64, GasOverflow),
     (cost > tx.gas, IntrinsicGasTooLow)]
  }

  /** The error reported is that of the first fault, and none is reported where there is no fault. */
  lemma {:induction false} FirstFaultReported(tx: Tx, head: HeadState, maxGas: nat, gasPrice: nat)
    ensures var faults := Faults(tx, head, maxGas, gasPrice);
            forall i :: 0 <= i < |faults| ==>
              (Validate(tx, head, maxGas, gasPrice) == Some(faults[i].1) <==>
                 faults[i].0 && forall j :: 0 <= j < i ==> !faults[j].0)
  {
    hide IntrinsicCost;
    var f := Faults(tx, head, maxGas, gasPrice);
    assert f == [f[0], f[1], f[2], f[3], f[4], f[5], f[6], f[7], f[8], f[9], f[10], f[11]];
  }

  /** In whatever world an admitted transaction is applied, it does not lose its gas: if it fails, neither the world nor
      the pool of gas has changed. */
  lemma {:induction false} AdmittedLosesNoGas(tx: Tx, head: HeadState, maxGas: nat, gasPrice: nat,
                                              evm: Execution.Evm, c: Execution.Context, w: Execution.World, pool: nat)
    requires Validate(tx, head, maxGas, gasPrice) == None
    ensures !Execution.LosesGas(w, pool, tx)
    ensures var r := Execution.Transition(evm, c, w, pool, tx);
            r.Failed? ==> r.world == w && r.pool == pool
  {
    ValidateExact(tx, head, maxGas, gasPrice);
    Execution.DoneExact(evm, c, w, pool, tx);
  }

  /** An admitted transaction is neither outdated nor unpayable in the state that admitted it. */
  lemma {:induction false} AdmittedIsKept(tx: Tx, head: HeadState, maxGas: nat, gasPrice: nat)
    requires Validate(tx, head, maxGas, gasPrice) == None
    ensures tx.nonce >= head.nonce(tx.from) && !Unpayable(tx, head.balance(tx.from), maxGas, head.balance)
    ensures tx.price >= gasPrice && tx.AmountCost() >= 0
  {
  }

  datatype Admission = Admitted(replaced: bool) | Refused(error: PoolError)

  /** The effect of placing a new transaction: it takes the place of a pending or queued one that it outbids, it is
      queued under a free nonce, or nothing changes. */
  ghost predicate Placed(p: Lists, q: Lists, all: set<Tx>, p': Lists, q': Lists, all': set<Tx>, tx: Tx, bump: nat,
                         r: Admission)
  {
    var queued := tx.nonce !in Held(p, tx.from);
    var l := ListOf(if queued then q else p, tx.from, !queued);
    if Accepts(l, tx, bump) then
      && r == Admitted(tx.nonce in l.items)
      && all' == all - (if tx.nonce in l.items then {l.items[tx.nonce]} else {}) + {tx}
      && p' == (if queued then p else AddTo(p, tx, true))
      && q' == (if queued then AddTo(q, tx, false) else q)
    else
      r == Refused(ReplaceUnderpriced) && all' == all && p' == p && q' == q
  }

  /** What admissions are judged by: the head state, the block gas limit, the minimum price, the percentage by which a
      replacement has to bid more, and the number of transactions at which the pool is full. */
  datatype Terms = Terms(head: HeadState, maxGas: nat, gasPrice: nat, bump: nat, limit: nat)

  ghost predicate Invalid(terms: Terms, tx: Tx) {
    Validate(tx, terms.head, terms.maxGas, terms.gasPrice).Some?
  }

  ghost predicate Full(terms: Terms, books: Books) {
    |books.all| >= terms.limit
  }

  /** The pool is full of transactions that are all at least as dear as a remote one. */
  ghost predicate Underbids(terms: Terms, books: Books, tx: Tx) {
    && Full(terms, books) && books.all != {} && tx.from !in books.locals
    && forall t :: t in books.all ==> tx.price <= t.price
  }

  /** The whole effect of admitting a transaction: `roomy` is what the pool comes to once room has been made. */
  ghost predicate Added(terms: Terms, books: Books, roomy: Books, after: Books, tx: Tx, local: bool, r: Admission) {
    if tx in books.all then r == Refused(KnownTransaction) && roomy == books && after == books
    else if Invalid(terms, tx) then
      r == Refused(Validate(tx, terms.head, terms.maxGas, terms.gasPrice).value) && roomy == books && after == books
    else if !local && Underbids(terms, books, tx) then r == Refused(Underpriced) && roomy == books && after == books
    else
      && (if local || !Full(terms, books) then roomy == books else MadeRoom(books, roomy, terms.limit))
      && Placed(roomy.pending, roomy.queue, roomy.all, after.pending, after.queue, after.all, tx, terms.bump, r)
      && after.notes == roomy.notes && (r.Refused? ==> after == roomy)
      && after.locals == if r.Admitted? && local && tx.nonce !in Held(roomy.pending, tx.from)
                         then roomy.locals + {tx.from} else roomy.locals
  }

  /** A refused transaction leaves the pool alone unless room was made for it first: it is new and valid, not local, and
      not underpriced, the pool is full, and some pooled transaction is not local. */
  lemma {:induction false} RefusalExact(terms: Terms, books: Books, roomy: Books, after: Books, tx: Tx, local: bool,
                                        r: Admission)
    requires Added(terms, books, roomy, after, tx, local, r) && r.Refused?
    ensures after.all == books.all <==>
            || tx in books.all || Invalid(terms, tx) || local || !Full(terms, books) || Underbids(terms, books, tx)
            || (forall t :: t in books.all ==> t.from in books.locals)
    ensures after.all == books.all ==> after == books
  {
    hide Validate, Accepts, Evicted;
  }

  /** A full pool of two transactions, and a third one that bids as much as the dearer one in whose place it would go:
      the cheaper one is evicted, and the third one refused all the same. */
  lemma {:induction false} EvictsThenRefuses(terms: Terms, books: Books, roomy: Books, after: Books, held: Tx,
                                             cheap: Tx, tx: Tx, r: Admission)
    requires terms.limit == 2 && books.locals == {} && books.all == {held, cheap} && held.from != cheap.from
    requires Holds(books.pending, held) && SameSlot(held, tx) && tx !in books.all
    requires cheap.price < tx.price == held.price && !Invalid(terms, tx)
    requires Added(terms, books, roomy, after, tx, false, r)
    ensures r == Refused(ReplaceUnderpriced) && after.all == {held}
  {
    hide Invalid, CapsBound, MadeRoom;
    TwoAtLeast(books.all, cheap, held);
    CheapLeaves(books, roomy, held, cheap);
  }

  lemma {:induction false} CheapLeaves(books: Books, roomy: Books, held: Tx, cheap: Tx)
    requires MadeRoom(books, roomy, 2) && books.locals == {} && books.all == {held, cheap}
    requires held.from != cheap.from && cheap.price < held.price && Holds(books.pending, held)
    ensures roomy.all == {held} && Holds(roomy.pending, held)
  {
    hide NamedGone;
    var gone := books.all - roomy.all;
    TwoAtLeast(gone, cheap, held);
    assert cheap in gone && held !in gone;
  }

  lemma {:induction false} TwoAtLeast(txs: set<Tx>, x: Tx, y: Tx)
    requires x != y
    ensures x in txs && y in txs ==> |txs| >= 2
  {
    if x in txs && y in txs {
      assert |txs - {x} - {y}| == |txs| - 2;
    }
  }

  /** Such a pool: two accounts with one pending transaction each. */
  function TwoPending(held: Tx, cheap: Tx): Books {
    Books(map[held.from := Inserted(NewList(true), held), cheap.from := Inserted(NewList(true), cheap)], map[],
          map[held.from := 1, cheap.from := 1], {held, cheap}, {}, multiset{held, cheap})
  }

  function RichHead(): HeadState {
    HeadState((a: Address) => 0, (a: Address) => 1_000_000, {})
  }

  lemma {:induction false} TwoPendingOk(held: Tx, cheap: Tx)
    requires held.nonce == cheap.nonce == 0 && held.from != cheap.from
    ensures var books := TwoPending(held, cheap);
            && Consistent(books.pending, books.queue, books.all, {}) && NoneEmpty(books.pending)
            && Contiguous(books.pending, RichHead().nonce, books.notes) && Holds(books.pending, held)
  {
    hide CapsBound;
    AddKeepsCaps(NewList(true), held);
    AddKeepsCaps(NewList(true), cheap);
    var p := TwoPending(held, cheap).pending;
    assert Held(p, held.from) == map[0 := held] && Held(p, cheap.from) == map[0 := cheap];
  }

  lemma {:induction false} TransferIsValid(tx: Tx, terms: Terms)
    requires tx.gas == 21000 && tx.value == tx.fee == 0 && !tx.create && tx.data == [] && tx.size == 0
    requires tx.payer == EMPTY_ADDRESS && tx.price <= 2 && terms == Terms(RichHead(), 30000, 0, 10, 2)
    ensures !Invalid(terms, tx)
  {
    assert NonZeroBytes([]) == 0;
  }

  /** What is left of it. */
  function OnePending(held: Tx, cheap: Tx): Books {
    Books(map[held.from := Inserted(NewList(true), held)], map[], map[held.from := 1, cheap.from := 0], {held}, {},
          multiset{held})
  }

  lemma {:induction false} OneLeaves(held: Tx, cheap: Tx)
    requires held.nonce == cheap.nonce == 0 && held.from != cheap.from && cheap.price < held.price
    ensures MadeRoom(TwoPending(held, cheap), OnePending(held, cheap), 2)
  {
    var books, after := TwoPending(held, cheap), OnePending(held, cheap);
    var gone := books.all - after.all;
    assert gone == {cheap};
    assert Held(books.pending, held.from) == map[0 := held] && Held(books.pending, cheap.from) == map[0 := cheap];
    assert Held(after.pending, held.from) == map[0 := held] && Held(after.pending, cheap.from) == map[];
    TwoAtLeast(books.all, cheap, held);
    assert Holds(books.pending, cheap);
    assert |books.all| == 2;
    OneNamed(held, cheap);
    assert NamedGone(books, gone, 2);
  }

  lemma {:induction false} OneNamed(held: Tx, cheap: Tx)
    requires cheap.price < held.price
    ensures Named(multiset{held, cheap}, multiset{cheap}, 1) && Members(multiset{cheap}) == {cheap}
  {
    assert multiset{held, cheap} - multiset{cheap} == multiset{held};
  }

  /** The bid that is no higher than the held one is refused. */
  lemma {:induction false} PlacedNowhere(held: Tx, cheap: Tx, tx: Tx, bump: nat)
    requires SameSlot(held, tx) && held.nonce == 0 && tx.price == held.price
    ensures var one := OnePending(held, cheap);
            Placed(one.pending, one.queue, one.all, one.pending, one.queue, one.all, tx, bump,
                   Refused(ReplaceUnderpriced))
  {
  }

  lemma {:induction false} AddedIs(terms: Terms, books: Books, left: Books, tx: Tx, cheap: Tx)
    requires tx !in books.all && !Invalid(terms, tx) && cheap in books.all && cheap.price < tx.price
    requires |books.all| >= terms.limit && MadeRoom(books, left, terms.limit)
    requires Placed(left.pending, left.queue, left.all, left.pending, left.queue, left.all, tx, terms.bump,
                    Refused(ReplaceUnderpriced))
    ensures Added(terms, books, left, left, tx, false, Refused(ReplaceUnderpriced))
  {
    hide MadeRoom, Placed, Invalid;
  }

  lemma {:induction false} EvictionExample(roomy: Books, after: Books, r: Admission)
    ensures var held := Tx(0, 1, EMPTY_ADDRESS, 0, 2, 21000, 0, 0, false, [], 0);
            var cheap := Tx(1, 2, EMPTY_ADDRESS, 0, 1, 21000, 0, 0, false, [], 0);
            var books := TwoPending(held, cheap);
            && Consistent(books.pending, books.queue, books.all, {}) && NoneEmpty(books.pending)
            && Contiguous(books.pending, RichHead().nonce, books.notes)
            && Added(Terms(RichHead(), 30000, 0, 10, 2), books, OnePending(held, cheap), OnePending(held, cheap),
                     held.(id := 2), false, Refused(ReplaceUnderpriced))
            && (Added(Terms(RichHead(), 30000, 0, 10, 2), books, roomy, after, held.(id := 2), false, r) ==>
                  r == Refused(ReplaceUnderpriced) && after.all == {held})
  {
    hide Added, Placed, MadeRoom, Consistent, NoneEmpty, Contiguous, Holds, Invalid, Inserted, RichHead;
    var held := Tx(0, 1, EMPTY_ADDRESS, 0, 2, 21000, 0, 0, false, [], 0);
    var cheap := Tx(1, 2, EMPTY_ADDRESS, 0, 1, 21000, 0, 0, false, [], 0);
    var terms := Terms(RichHead(), 30000, 0, 10, 2);
    TwoPendingOk(held, cheap);
    TwoAtLeast(TwoPending(held, cheap).all, cheap, held);
    TransferIsValid(held.(id := 2), terms);
    OneLeaves(held, cheap);
    PlacedNowhere(held, cheap, held.(id := 2), 10);
    AddedIs(terms, TwoPending(held, cheap), OnePending(held, cheap), held.(id := 2), cheap);
    if Added(terms, TwoPending(held, cheap), roomy, after, held.(id := 2), false, r) {
      EvictsThenRefuses(terms, TwoPending(held, cheap), roomy, after, held, cheap, held.(id := 2), r);
    }
  }
}
