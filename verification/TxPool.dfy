/** The transaction pool (core/tx_pool.go). */
module TxPools {
  import opened Collections
  import opened Transactions
  import opened TxItems
  import opened AccountLists
  import opened PoolState
  import opened PoolBooks
  import opened Exchange
  import opened Admissions
  import opened Promotion
  import opened Demotion
  import opened Trimming
  import opened PriceOrder
  import opened Priced
  import opened Shortfall
  import opened Leveling
  import opened SortedMap
  import opened PoolConfig
  import opened Retention
  import opened Resets


  class TxPool {
    const config: Config
    const all: TxLookup
    const priced: TxPricedList
    var pending: Lists
    var queue: Lists
    var head: HeadState
    var notes: map<Address, nat>
    var maxGas: nat
    var gasPrice: nat
    var locals: set<Address>

    ghost predicate PricedOk()
      reads this, priced
    {
      priced.all == all && priced.Valid()
    }

    ghost predicate Valid()
      reads this, all, priced
    {
      && PricedOk() && priced.Covers(all.txs)
      && Consistent(pending, queue, all.txs, {})
      && NoneEmpty(pending) && NoneEmpty(queue)
      && config.accountSlots >= 1
    }

    /** What is still pooled has not lost its entry in the price heap. */
    twostate predicate KeepsEntries()
      reads this, all, priced
    {
      forall t :: t in all.txs && t in old(priced.items) ==> t in priced.items
    }

    ghost function View(): Books
      reads this, all, priced
    {
      Books(pending, queue, notes, all.txs, locals, Live(priced.items, all.txs, locals))
    }

    /** The number of transactions at which the pool is full. */
    function Limit(): nat {
      config.globalSlots + config.globalQueue
    }

    ghost function CurrentTerms(): Terms
      reads this
    {
      Terms(head, maxGas, gasPrice, config.priceBump, Limit())
    }

    /** Pending transactions are within the limit, or every remote account is down to its guaranteed number. */
    ghost predicate PendingWithin()
      reads this
    {
      || Total(pending) <= config.globalSlots
      || forall a :: a in pending && a !in locals ==> |pending[a].items| <= config.accountSlots
    }

    /** Queued transactions are within the limit, or only local accounts have any. */
    ghost predicate QueueWithin()
      reads this
    {
      Total(queue) <= config.globalQueue || queue.Keys <= locals
    }

    /** A remote account has no more transactions queued than it may. */
    ghost predicate QueueCapped(a: Address)
      reads this
    {
      a !in locals ==> |Held(queue, a)| <= config.accountQueue
    }

    constructor (config: Config, head: HeadState, maxGas: nat)
      ensures Valid() && fresh(all) && fresh(priced) && all.txs == {} && locals == {} && notes == map[]
      ensures this.config == Sanitize(config) && gasPrice == this.config.priceLimit
      ensures this.head == head && this.maxGas == maxGas && Contiguous(pending, head.nonce, notes)
    {
      var c := Sanitize(config);
      var lookup := new TxLookup();
      this.config := c;
      all := lookup;
      priced := new TxPricedList(lookup);
      pending, queue, notes, locals := map[], map[], map[], {};
      this.head, this.maxGas, gasPrice := head, maxGas, c.priceLimit;
    }

    /** Queues tx unless a queued transaction it does not outbid holds its nonce. */
    method EnqueueTx(tx: Tx) returns (replaced: bool, ok: bool)
      requires PricedOk()
      modifies `queue, all, priced
      ensures PricedOk()
      ensures var l := ListOf(old(queue), tx.from, false);
              && ok == Accepts(l, tx, config.priceBump)
              && (!ok ==> queue == old(queue) && all.txs == old(all.txs) && !replaced)
              && (!ok ==> priced.items == old(priced.items))
              && (ok ==> queue == AddTo(old(queue), tx, false) && replaced == Replaced(l, tx).Some?)
              && (ok && !replaced ==> all.txs == old(all.txs) + {tx})
              && (ok && replaced ==> all.txs == old(all.txs) - {Replaced(l, tx).value} + {tx})
      ensures forall t :: t in all.txs && (t in old(priced.items) || t !in old(all.txs)) ==> t in priced.items
    {
      var list := ListOf(queue, tx.from, false);
      if !Accepts(list, tx, config.priceBump) {
        return false, false;
      }
      queue := queue[tx.from := Inserted(list, tx)];
      var held := Replaced(list, tx);
      if held.Some? {
        all.Remove(held.value);
        priced.Removed();
      }
      if tx !in all.txs {
        all.Add(tx);
        priced.Put(tx);
      }
      return held.Some?, true;
    }

    /** Queues transactions that were taken off the pending lists: none of them is refused or replaces another. */
    method EnqueueAll(txs: set<Tx>)
      requires PricedOk() && Consistent(pending, queue, all.txs, txs) && NoneEmpty(queue)
      modifies `queue, all, priced
      ensures PricedOk() && Consistent(pending, queue, all.txs, {}) && NoneEmpty(queue)
      ensures all.txs == old(all.txs)
      ensures forall tx :: Holds(queue, tx) <==> Holds(old(queue), tx) || tx in txs
      ensures KeepsEntries()
    {
      var todo := txs;
      while todo != {}
        invariant todo <= txs
        invariant PricedOk() && Consistent(pending, queue, all.txs, todo) && NoneEmpty(queue)
        invariant all.txs == old(all.txs)
        invariant forall tx :: Holds(queue, tx) <==> Holds(old(queue), tx) || tx in txs - todo
        invariant KeepsEntries()
        decreases todo
      {
        var tx :| tx in todo;
        ghost var was := queue;
        var replaced, ok := EnqueueTx(tx);
        SettleQueue(pending, was, all.txs, todo, tx);
        todo := todo - {tx};
      }
    }

    /** Takes transactions that are off every list out of the pool. */
    method DropAll(txs: set<Tx>, ghost rest: set<Tx>)
      requires PricedOk() && Consistent(pending, queue, all.txs, txs + rest) && txs !! rest
      modifies all, priced
      ensures PricedOk() && Consistent(pending, queue, all.txs, rest)
      ensures all.txs == old(all.txs) - txs
      ensures KeepsEntries()
    {
      var todo := txs;
      while todo != {}
        invariant todo <= txs
        invariant PricedOk()
        invariant all.txs == old(all.txs) - (txs - todo)
        invariant KeepsEntries()
        decreases todo
      {
        var tx :| tx in todo;
        all.Remove(tx);
        priced.Removed();
        todo := todo - {tx};
      }
      LeaveAll(pending, queue, old(all.txs), txs + rest, txs);
      assert txs + rest - txs == rest;
    }

    /** Takes one transaction out of the pool, by its nonce; its pending successors go back to the queue. */
    method RemoveTx(tx: Tx, outOfBound: bool)
      requires PricedOk() && Consistent(pending, queue, all.txs, {}) && NoneEmpty(pending) && NoneEmpty(queue)
      modifies `pending, `queue, `notes, all, priced
      ensures PricedOk() && Consistent(pending, queue, all.txs, {}) && NoneEmpty(pending) && NoneEmpty(queue)
      ensures all.txs == old(all.txs) - {tx}
      ensures tx in old(all.txs) && Holds(old(pending), tx) ==>
                RemovedPending(old(pending), old(queue), old(notes), pending, queue, notes, head.nonce, tx)
      ensures tx in old(all.txs) && Holds(old(queue), tx) ==>
                RemovedQueued(old(pending), old(queue), old(notes), pending, queue, notes, tx)
      ensures tx !in old(all.txs) ==> pending == old(pending) && queue == old(queue) && notes == old(notes)
      ensures KeepsEntries()
    {
      if tx !in all.txs {
        return;
      }
      all.Remove(tx);
      if outOfBound {
        priced.Removed();
      }
      if tx.from in pending && tx.nonce in pending[tx.from].items {
        TakePending(pending, queue, old(all.txs), tx);
        Unlist(tx);
      } else {
        TakeQueued(pending, queue, old(all.txs), tx);
        if tx.from in queue {
          queue := Store(queue, tx.from, Without(queue[tx.from], tx.nonce));
        }
      }
    }

    /** Takes tx off its pending list, once it is out of the lookup. */
    method Unlist(tx: Tx)
      requires PricedOk() && NoneEmpty(queue) && tx.from in pending && tx.nonce in pending[tx.from].items
      requires var l := pending[tx.from];
               var rest := Store(pending, tx.from, Without(l, tx.nonce));
               NoneEmpty(rest) && Consistent(rest, queue, all.txs, Invalidated(l, tx.nonce))
      modifies `pending, `queue, `notes, all, priced
      ensures PricedOk() && Consistent(pending, queue, all.txs, {}) && NoneEmpty(pending) && NoneEmpty(queue)
      ensures all.txs == old(all.txs)
      ensures RemovedPending(old(pending), old(queue), old(notes), pending, queue, notes, head.nonce, tx)
      ensures KeepsEntries()
    {
      var list := pending[tx.from];
      pending := Store(pending, tx.from, Without(list, tx.nonce));
      EnqueueAll(Invalidated(list, tx.nonce));
      notes := Lowered(head.nonce, notes, tx.from, tx.nonce);
    }

    /** Appends tx to its sender's pending list unless a transaction it does not outbid holds its nonce. */
    method PromoteTx(tx: Tx) returns (ok: bool)
      requires PricedOk()
      modifies `pending, `notes, all, priced
      ensures PricedOk()
      ensures var l := ListOf(old(pending), tx.from, true);
              && ok == Accepts(l, tx, config.priceBump)
              && (!ok ==> pending == old(pending) && notes == old(notes) && all.txs == old(all.txs) - {tx})
              && (ok ==> pending == AddTo(old(pending), tx, true) && notes == old(notes)[tx.from := tx.nonce + 1])
              && (ok && Replaced(l, tx).None? ==> all.txs == old(all.txs) + {tx})
              && (ok && Replaced(l, tx).Some? ==> all.txs == old(all.txs) - {Replaced(l, tx).value} + {tx})
      ensures forall t :: t in all.txs && (t in old(priced.items) || t !in old(all.txs)) ==> t in priced.items
    {
      var list := ListOf(pending, tx.from, true);
      if !Accepts(list, tx, config.priceBump) {
        all.Remove(tx);
        priced.Removed();
        return false;
      }
      pending := pending[tx.from := Inserted(list, tx)];
      var held := Replaced(list, tx);
      if held.Some? {
        all.Remove(held.value);
        priced.Removed();
      }
      if tx !in all.txs {
        all.Add(tx);
        priced.Put(tx);
      }
      notes := notes[tx.from := tx.nonce + 1];
      return true;
    }

    /** Appends a run of transactions, just taken off an account's queue, to its pending list in nonce order. */
    method PromoteRun(a: Address, run: Items, first: nat, ghost end: nat)
      requires PricedOk() && OwnedBy(run, a) && IsRun(run, first, end)
      requires Consistent(pending, queue, all.txs, Values(run)) && NoneEmpty(pending)
      modifies `pending, `notes, all, priced
      ensures PricedOk() && Consistent(pending, queue, all.txs, {}) && NoneEmpty(pending)
      ensures all.txs == old(all.txs)
      ensures Extended(old(pending), pending, a, run)
      ensures notes == Noted(old(notes), a, first, end)
      ensures KeepsEntries()
    {
      hide Consistent, AddTo, Noted;
      var n := first;
      assert notes == Noted(notes, a, first, first) by { NotedNone(notes, a, first); }
      while n in run
        invariant first <= n <= end
        invariant PricedOk() && all.txs == old(all.txs)
        invariant pending == Promoted(old(pending), run, first, n)
        invariant notes == Noted(old(notes), a, first, n)
        invariant KeepsEntries()
        decreases end - n
      {
        PromotedNext(old(pending), queue, all.txs, a, run, first, end, n);
        NotedStep(old(notes), a, first, n);
        var ok := PromoteTx(run[n]);
        n := n + 1;
      }
      PromotedAll(old(pending), queue, all.txs, a, run, first, end);
    }

    /** Cuts a queue list down and takes what it loses out of the pool. */
    method CutQueue(a: Address, l: List)
      requires PricedOk() && Consistent(pending, queue, all.txs, {})
      requires a in queue && ListOk(l, a, false) && SubItems(l.items, queue[a].items)
      modifies `queue, all, priced
      ensures PricedOk() && Consistent(pending, queue, all.txs, {})
      ensures queue == old(queue)[a := l] && all.txs == old(all.txs) - Dropped(old(queue)[a].items, l.items)
      ensures KeepsEntries()
    {
      hide Consistent;
      ShrinkQueue(pending, queue, all.txs, a, l);
      var drops := Dropped(queue[a].items, l.items);
      queue := queue[a := l];
      assert drops + {} == drops;
      DropAll(drops, {});
    }

    /** Cuts a pending list down and takes what it loses out of the pool. */
    method CutPending(a: Address, l: List)
      requires PricedOk() && Consistent(pending, queue, all.txs, {})
      requires a in pending && ListOk(l, a, true) && SubItems(l.items, pending[a].items)
      modifies `pending, all, priced
      ensures PricedOk() && Consistent(pending, queue, all.txs, {})
      ensures pending == old(pending)[a := l] && all.txs == old(all.txs) - Dropped(old(pending)[a].items, l.items)
      ensures KeepsEntries()
    {
      hide Consistent;
      ShrinkPending(pending, queue, all.txs, a, l);
      var drops := Dropped(pending[a].items, l.items);
      pending := pending[a := l];
      assert drops + {} == drops;
      DropAll(drops, {});
    }

    /** Moves the run of queued transactions that follows the account's pending ones over to them. */
    method PromoteReady(a: Address)
      requires PricedOk() && Consistent(pending, queue, all.txs, {}) && NoneEmpty(pending) && a in queue
      modifies `pending, `queue, `notes, all, priced
      ensures PricedOk() && Consistent(pending, queue, all.txs, {}) && NoneEmpty(pending)
      ensures all.txs == old(all.txs)
      ensures var next := NextNonce(head.nonce, old(notes), a);
              && queue == old(queue)[a := ParkedList(old(queue)[a], next)]
              && Extended(old(pending), pending, a, Executable(old(queue)[a].items, next))
              && notes == NotedRun(old(notes), a, Executable(old(queue)[a].items, next))
      ensures KeepsEntries()
    {
      hide Consistent, Extended, NoneEmpty, Executable, Noted, NotedRun, IsRun, OwnedBy;
      var next := NextNonce(head.nonce, notes, a);
      var run := Executable(queue[a].items, next);
      ReadyFacts(pending, queue, all.txs, a, next);
      queue := queue[a := ParkedList(queue[a], next)];
      if run != map[] {
        PromoteRun(a, run, Least(run.Keys), Least(run.Keys) + |run|);
        NotedRunIs(old(notes), a, run);
      } else {
        ExtendedByNone(pending, a);
        NothingPromoted(notes, a, run);
      }
    }

    /** Drops an account's outdated and unpayable queued transactions, promotes the run that has become executable,
        and cuts what stays queued down to the account's allowance. */
    method PromoteAccount(a: Address)
      requires Valid()
      modifies `pending, `queue, `notes, all, priced
      ensures Valid() && all.txs <= old(all.txs)
      ensures a !in old(queue) ==> pending == old(pending) && queue == old(queue) && notes == old(notes)
      ensures a in old(queue) ==>
                AccountPromoted(old(pending), old(queue), old(notes), pending, queue, notes, head, maxGas,
                                Allowance(a), a)
    {
      hide Consistent, Extended, NoneEmpty, ListOk, SubItems, Filter, Forward, Executable, NotedRun, ParkedList, Cap;
      if a !in queue {
        return;
      }
      var list := queue[a];
      QueueListOk(pending, queue, all.txs, a);
      var next := NextNonce(head.nonce, notes, a);
      ScreenFacts(list, head, maxGas, a, next);
      CutQueue(a, Forward(list, head.nonce(a)));
      CutQueue(a, Filter(queue[a], head.balance(a), maxGas, head.balance).list);
      PromoteReady(a);
      if a !in locals {
        CutQueue(a, Cap(queue[a], config.accountQueue));
      }
      ghost var last := Parked(Screened(list, head, maxGas, a), next, Allowance(a));
      assert queue == old(queue)[a := last];
      EmptyForgotten(pending, old(queue), all.txs, a, last);
      if queue[a].items == map[] {
        queue := queue - {a};
      }
    }

    function Allowance(a: Address): Option<nat>
      reads this
    {
      if a in locals then None else Some(config.accountQueue)
    }

    /** Drops an account's highest pending nonce, which becomes its next nonce. */
    method DropHighest(a: Address)
      requires PricedOk() && Consistent(pending, queue, all.txs, {}) && NoneEmpty(pending)
      requires a in pending && |pending[a].items| > 1
      modifies `pending, `notes, all, priced
      ensures PricedOk() && Consistent(pending, queue, all.txs, {}) && NoneEmpty(pending)
      ensures pending == old(pending)[a := Cap(old(pending)[a], |old(pending)[a].items| - 1)]
      ensures Contiguous(old(pending), head.nonce, old(notes)) ==> Contiguous(pending, head.nonce, notes)
      ensures all.txs <= old(all.txs)
      ensures KeepsEntries()
    {
      hide Consistent, NoneEmpty, Contiguous, Capped, Dropped, Lowered, ListOk, SubItems;
      ghost var top := HighestFacts(pending, queue, all.txs, a, head.nonce, notes);
      var list := Cap(pending[a], |pending[a].items| - 1);
      var drops := Dropped(pending[a].items, list.items);
      CutPending(a, list);
      var tx :| tx in drops;
      notes := Lowered(head.nonce, notes, a, tx.nonce);
    }

    /** Drops the highest pending nonce of each of the given accounts, and counts down. */
    method Round(offenders: seq<Address>, count: int) returns (left: int)
      requires PricedOk() && Consistent(pending, queue, all.txs, {}) && NoneEmpty(pending)
      requires Distinct(offenders)
      requires forall i :: 0 <= i < |offenders| ==> offenders[i] in pending && |pending[offenders[i]].items| > 1
      modifies `pending, `notes, all, priced
      ensures PricedOk() && Consistent(pending, queue, all.txs, {}) && NoneEmpty(pending)
      ensures pending == Trimmed(old(pending), Elements(offenders)) && left == count - |offenders|
      ensures Contiguous(old(pending), head.nonce, old(notes)) ==> Contiguous(pending, head.nonce, notes)
      ensures all.txs <= old(all.txs)
      ensures KeepsEntries()
    {
      hide Consistent, NoneEmpty, Contiguous, Capped, Cap, Trimmed;
      left := count;
      TrimmedNone(pending, offenders);
      for i := 0 to |offenders|
        invariant PricedOk() && Consistent(pending, queue, all.txs, {}) && NoneEmpty(pending)
        invariant pending == Trimmed(old(pending), Elements(offenders[..i])) && left == count - i
        invariant Contiguous(old(pending), head.nonce, old(notes)) ==> Contiguous(pending, head.nonce, notes)
        invariant all.txs <= old(all.txs)
        invariant KeepsEntries()
      {
        TrimmedNext(old(pending), offenders, i);
        DropHighest(offenders[i]);
        left := left - 1;
      }
      assert offenders[..|offenders|] == offenders;
    }

    /** Goes round the given offenders until the count meets the limit or they are down to the floor. */
    method ReduceTo(offenders: seq<Address>, floor: nat, count: int, ghost p0: Lists, ghost top: nat)
      returns (left: int, ghost level: nat)
      requires PricedOk() && Consistent(pending, queue, all.txs, {}) && NoneEmpty(pending)
      requires offenders != [] && Distinct(offenders) && 1 <= floor <= top
      requires Leveled(p0, pending, locals, top, count, config.globalSlots)
      requires offenders[|offenders| - 1] in p0 && offenders[|offenders| - 1] !in locals
      requires forall k :: floor <= k < top ==> Above(p0, locals, k) == Elements(offenders)
      modifies `pending, `notes, all, priced
      ensures PricedOk() && Consistent(pending, queue, all.txs, {}) && NoneEmpty(pending)
      ensures Leveled(p0, pending, locals, level, left, config.globalSlots)
      ensures floor <= level <= top && (left <= config.globalSlots || level == floor)
      ensures Contiguous(old(pending), head.nonce, old(notes)) ==> Contiguous(pending, head.nonce, notes)
      ensures all.txs <= old(all.txs)
      ensures KeepsEntries()
    {
      hide Consistent, NoneEmpty, Contiguous, LevelTo, Total, Trimmed, Above, Elements;
      left, level := count, top;
      var last := offenders[|offenders| - 1];
      LastSize(p0, pending, locals, level, left, config.globalSlots, offenders, floor, top);
      while left > config.globalSlots && |pending[last].items| > floor
        invariant PricedOk() && Consistent(pending, queue, all.txs, {}) && NoneEmpty(pending)
        invariant Leveled(p0, pending, locals, level, left, config.globalSlots)
        invariant floor <= level <= top && last in pending && (|pending[last].items| > floor <==> level > floor)
        invariant Contiguous(old(pending), head.nonce, old(notes)) ==> Contiguous(pending, head.nonce, notes)
        invariant all.txs <= old(all.txs)
        invariant KeepsEntries()
        decreases level
      {
        ReduceStep(p0, pending, locals, level, left, config.globalSlots, offenders);
        left := Round(offenders, left);
        level := level - 1;
        LastSize(p0, pending, locals, level, left, config.globalSlots, offenders, floor, top);
      }
    }

    /** While too many transactions are pending, levels the largest accounts down, one round at a time. */
    method EqualizePending() returns (ghost level: nat)
      requires PricedOk() && Consistent(pending, queue, all.txs, {}) && NoneEmpty(pending) && config.accountSlots >= 1
      modifies `pending, `notes, all, priced
      ensures PricedOk() && Consistent(pending, queue, all.txs, {}) && NoneEmpty(pending)
      ensures Total(old(pending)) <= config.globalSlots ==> pending == old(pending) && notes == old(notes)
      ensures Total(old(pending)) > config.globalSlots ==>
                && Leveled(old(pending), pending, locals, level, Total(pending), config.globalSlots)
                && level >= config.accountSlots
                && (Total(pending) <= config.globalSlots || level == config.accountSlots)
      ensures Contiguous(old(pending), head.nonce, old(notes)) ==> Contiguous(pending, head.nonce, notes)
      ensures all.txs <= old(all.txs)
      ensures KeepsEntries()
    {
      hide Consistent, NoneEmpty, Contiguous, Total, Above, Elements, IsLargest, Penalizing, Picked, Leveled;
      level := 0;
      var count: int := Count(pending);
      if count <= config.globalSlots {
        return;
      }
      ghost var p0 := pending;
      var spammers := Above(pending, locals, config.accountSlots);
      var offenders: seq<Address> := [];
      NonePicked(p0, locals, config.accountSlots);
      while count > config.globalSlots && spammers != {}
        invariant PricedOk() && Consistent(pending, queue, all.txs, {}) && NoneEmpty(pending)
        invariant offenders == [] ==> pending == p0 && count == Total(p0) && count > config.globalSlots
                                      && Picked(p0, locals, config.accountSlots, [], spammers)
        invariant offenders != [] ==> Penalizing(p0, pending, locals, config.accountSlots, offenders, spammers, level,
                                                 count, config.globalSlots)
        invariant Contiguous(old(pending), head.nonce, old(notes)) ==> Contiguous(pending, head.nonce, notes)
        invariant all.txs <= old(all.txs)
        invariant KeepsEntries()
        decreases spammers
      {
        var offender := PopLargest(pending, spammers);
        if offenders == [] {
          PickFirst(p0, locals, config.accountSlots, spammers, count, config.globalSlots, offender);
          level := Size(p0, offender);
          assert offenders + [offender] == [offender];
        } else {
          ghost var before, high, was := pending, level, count;
          PickNext(p0, pending, locals, config.accountSlots, offenders, spammers, level, count, config.globalSlots,
                   offender);
          PenalizingMeans(p0, pending, locals, config.accountSlots, offenders, spammers, level, count,
                          config.globalSlots);
          count, level := ReduceTo(offenders, |pending[offender].items|, count, p0, level);
          NextPicked(p0, before, locals, config.accountSlots, offenders, spammers, high, was, config.globalSlots,
                     offender, pending, level, count);
        }
        spammers := spammers - {offender};
        offenders := offenders + [offender];
      }
      if count > config.globalSlots && |offenders| > 0 {
        LastPhase(p0, pending, locals, config.accountSlots, offenders, level, count, config.globalSlots);
        count, level := ReduceTo(offenders, config.accountSlots, count, p0, level);
      } else if |offenders| > 0 {
        PenalizingMeans(p0, pending, locals, config.accountSlots, offenders, spammers, level, count,
                        config.globalSlots);
      } else {
        level := config.accountSlots;
        NobodyPicked(p0, locals, config.accountSlots, count, config.globalSlots);
      }
      LeveledCount(p0, pending, locals, level, count, config.globalSlots);
    }

    /** Takes the listed transactions, all on one queue list, out of the pool. */
    method RemoveQueued(a: Address, txs: seq<Tx>)
      requires PricedOk() && Consistent(pending, queue, all.txs, {}) && NoneEmpty(pending) && NoneEmpty(queue)
      requires a in queue && AllOn(queue[a].items, txs)
      modifies `pending, `queue, `notes, all, priced
      ensures PricedOk() && Consistent(pending, queue, all.txs, {}) && NoneEmpty(pending) && NoneEmpty(queue)
      ensures pending == old(pending) && notes == old(notes) && all.txs <= old(all.txs)
      ensures queue == Store(old(queue), a, LessTxs(old(queue)[a], txs))
      ensures KeepsEntries()
    {
      hide Consistent, NoneEmpty, Store, Without, LessTxs, RemovedPending, Holds, ListOk, AllOn;
      QueueListOk(pending, queue, all.txs, a);
      LessNone(queue, a, txs);
      for i := 0 to |txs|
        invariant PricedOk() && Consistent(pending, queue, all.txs, {}) && NoneEmpty(pending) && NoneEmpty(queue)
        invariant pending == old(pending) && notes == old(notes) && all.txs <= old(all.txs)
        invariant queue == Store(old(queue), a, LessTxs(old(queue)[a], txs[..i]))
        invariant KeepsEntries()
      {
        LessOne(pending, old(queue), queue, all.txs, a, txs, i);
        RemoveTx(txs[i], true);
      }
      assert txs[..|txs|] == txs;
    }

    /** While too many transactions are queued, drops accounts that are not local, in any order, and cuts the last
        one. */
    method TrimQueue()
      requires PricedOk() && Consistent(pending, queue, all.txs, {}) && NoneEmpty(pending) && NoneEmpty(queue)
      modifies `pending, `queue, `notes, all, priced
      ensures PricedOk() && Consistent(pending, queue, all.txs, {}) && NoneEmpty(pending) && NoneEmpty(queue)
      ensures pending == old(pending) && notes == old(notes) && all.txs <= old(all.txs)
      ensures Total(old(queue)) <= config.globalQueue ==> queue == old(queue)
      ensures Total(old(queue)) > config.globalQueue ==>
                || Total(queue) == config.globalQueue
                || (Total(queue) > config.globalQueue && queue.Keys <= locals)
      ensures LowParts(old(queue), queue, locals)
      ensures KeepsEntries()
    {
      hide Consistent, NoneEmpty, Store, Total, LessTxs, LowParts, AllOn, Flattens, CapsBound;
      LowPartsRefl(queue, locals);
      var count := Count(queue);
      if count <= config.globalQueue {
        return;
      }
      var addresses := set a | a in queue && a !in locals;
      var drop := count - config.globalQueue;
      while drop > 0 && addresses != {}
        invariant PricedOk() && Consistent(pending, queue, all.txs, {}) && NoneEmpty(pending) && NoneEmpty(queue)
        invariant pending == old(pending) && notes == old(notes) && all.txs <= old(all.txs)
        invariant drop >= 0 && Total(queue) == config.globalQueue + drop
        invariant addresses <= queue.Keys && addresses !! locals
        invariant drop > 0 ==> forall a :: a in queue ==> a in locals || a in addresses
        invariant LowParts(old(queue), queue, locals)
        invariant KeepsEntries()
        decreases addresses
      {
        var a :| a in addresses;
        addresses := addresses - {a};
        var size := |queue[a].items|;
        QueueListOk(pending, queue, all.txs, a);
        var txs := FlattenItems(queue[a].items);
        ghost var q := queue;
        if size <= drop {
          WholeList(queue, locals, a, txs);
          RemoveQueued(a, txs);
          drop := drop - size;
        } else {
          var tail := seq(drop, i requires 0 <= i < drop => txs[|txs| - 1 - i]);
          TailOfList(queue, locals, a, txs, tail);
          RemoveQueued(a, tail);
          drop := 0;
        }
        LowPartsStep(old(queue), q, queue, locals);
      }
    }

    /** Promotes account by account. */
    method PromoteAccounts(todo: seq<Address>)
      requires Valid()
      modifies `pending, `queue, `notes, all, priced
      ensures Valid() && all.txs <= old(all.txs) && queue.Keys <= old(queue).Keys
      ensures forall a :: a in todo && a !in locals ==> |Held(queue, a)| <= config.accountQueue
      ensures Grows(old(pending), old(queue), pending, queue)
      ensures QueueSpared(old(queue), pending, queue, locals, config.accountQueue, head, maxGas)
      ensures Contiguous(old(pending), head.nonce, old(notes)) ==>
                Contiguous(pending, head.nonce, notes) && forall a :: a in todo ==> Waits(queue, head.nonce, notes, a)
    {
      hide Consistent, NoneEmpty, Contiguous, AccountPromoted, Grows, Waits, QueueSpared;
      GrowsRefl(pending, queue);
      QueueSparedStart(pending, queue, locals, config.accountQueue, head, maxGas);
      for i := 0 to |todo|
        invariant Valid() && all.txs <= old(all.txs) && queue.Keys <= old(queue).Keys
        invariant forall k :: 0 <= k < i && todo[k] !in locals ==> |Held(queue, todo[k])| <= config.accountQueue
        invariant Grows(old(pending), old(queue), pending, queue)
        invariant QueueSpared(old(queue), pending, queue, locals, config.accountQueue, head, maxGas)
        invariant Contiguous(old(pending), head.nonce, old(notes)) ==>
                    && Contiguous(pending, head.nonce, notes)
                    && forall k :: 0 <= k < i ==> Waits(queue, head.nonce, notes, todo[k])
      {
        ghost var p, q, noted := pending, queue, notes;
        ConsistentMeans(pending, queue, all.txs);
        PromoteAccount(todo[i]);
        if todo[i] in q {
          PromotionFacts(p, q, noted, pending, queue, notes, head, maxGas, Allowance(todo[i]), todo[i]);
          PromotionGrows(p, q, noted, pending, queue, notes, head, maxGas, Allowance(todo[i]), todo[i]);
          QueueSparedStep(old(pending), old(queue), p, q, noted, pending, queue, notes, head, maxGas, locals,
                          config.accountQueue, todo[i]);
          GrowsStep(old(pending), old(queue), p, q, pending, queue);
          if Contiguous(p, head.nonce, noted) {
            PromotionKeepsRuns(p, q, noted, pending, queue, notes, head, maxGas, Allowance(todo[i]), todo[i]);
            PromotionWaits(p, q, noted, pending, queue, notes, head, maxGas, Allowance(todo[i]), todo[i]);
            OthersWait(q, queue, head.nonce, noted, notes, todo[i]);
          }
        } else {
          NobodyWaits(queue, head.nonce, notes, todo[i]);
        }
      }
    }

    /** Promotes what has become executable on the given accounts, or on all queued ones, and enforces the limits.
        `pass` tells what was pending and queued before they were enforced. */
    method PromoteExecutables(accounts: Option<seq<Address>>) returns (ghost pass: Pass)
      requires Valid()
      modifies `pending, `queue, `notes, all, priced
      ensures Valid() && Spared(old(View()), View(), pass, config, head, maxGas)
      ensures forall t :: Holds(old(pending), t) ==> Holds(pass.grown, t)
      ensures forall t :: Holds(pass.grown, t) ==> Holds(old(pending), t) || Holds(old(queue), t)
      ensures forall t :: Holds(pass.parked, t) ==> Holds(old(queue), t)
      ensures Total(pass.grown) <= config.globalSlots ==> pending == pass.grown
      ensures Total(pass.grown) > config.globalSlots ==>
                && Leveled(pass.grown, pending, locals, pass.level, Total(pending), config.globalSlots)
                && pass.level >= config.accountSlots
                && (Total(pending) <= config.globalSlots || pass.level == config.accountSlots)
      ensures Total(pass.parked) <= config.globalQueue ==> queue == pass.parked
      ensures LowParts(pass.parked, queue, locals)
      ensures PendingWithin() && QueueWithin()
      ensures forall a :: accounts.None? || a in accounts.value ==> QueueCapped(a)
      ensures Contiguous(old(pending), head.nonce, old(notes)) ==>
                && Contiguous(pending, head.nonce, notes)
                && forall a :: accounts.None? || a in accounts.value ==> Waits(queue, head.nonce, notes, a)
    {
      hide Consistent, NoneEmpty, Contiguous, Total, Leveled, LowParts, Grows, Waits, QueueSpared, Spared, Live;
      ghost var books := View();
      var todo: seq<Address>;
      if accounts.Some? {
        todo := accounts.value;
      } else {
        todo := ListAccounts(queue.Keys);
      }
      PromoteAccounts(todo);
      ghost var grown, parked, noted := pending, queue, notes;
      GrowsMeans(old(pending), old(queue), pending, queue);
      PoolCounts(pending, queue, all.txs);
      SubsetSize(all.txs, books.all);
      ghost var level := EqualizePending();
      EqualizedBound(grown, pending, locals, level, config.accountSlots, config.globalSlots);
      TrimQueue();
      pass := Pass(grown, parked, level);
      LimitsSpareAll(books, View(), pass, config, head, maxGas);
      QueueBounds(old(queue), parked, queue, locals, todo, config.accountQueue, accounts);
      if Contiguous(old(pending), head.nonce, old(notes)) {
        LimitsKeepWaiting(grown, parked, noted, pending, queue, notes, head.nonce, locals, level, config.globalSlots,
                          todo);
        QueueWaits(old(queue), parked, queue, head.nonce, notes, todo, accounts, locals);
      }
    }

    /** Drops an account's outdated and unpayable pending transactions, and queues those left without a predecessor. */
    method DemoteAccount(a: Address)
      requires PricedOk() && Consistent(pending, queue, all.txs, {}) && NoneEmpty(pending) && NoneEmpty(queue)
      requires a in pending
      modifies `pending, `queue, all, priced
      ensures PricedOk() && Consistent(pending, queue, all.txs, {}) && NoneEmpty(pending) && NoneEmpty(queue)
      ensures pending == Store(old(pending), a, Surviving(old(pending)[a], head, maxGas, a))
      ensures all.txs == old(all.txs) - Lost(old(pending)[a], head, maxGas, a)
      ensures KeepsEntries()
    {
      hide Consistent, NoneEmpty, ListOk, SubItems, Forward, Filter, Store, Holds;
      PendingListOk(pending, queue, all.txs, a);
      var list := pending[a];
      DemoteFacts(list, head, maxGas, a);
      CutPending(a, Forward(list, head.nonce(a)));
      var f := Filter(pending[a], head.balance(a), maxGas, head.balance);
      ShrinkPending(pending, queue, all.txs, a, f.list);
      pending := pending[a := f.list];
      DropAll(f.removed, f.invalids);
      EnqueueAll(f.invalids);
      if f.list.items != map[] && head.nonce(a) !in f.list.items {
        ShrinkPending(pending, queue, all.txs, a, f.list.(items := map[]));
        pending := pending[a := f.list.(items := map[])];
        EnqueueAll(Values(f.list.items));
      }
      EmptyPendingForgotten(old(pending), pending[a], pending, queue, all.txs, a);
      if pending[a].items == map[] {
        pending := pending - {a};
      }
    }

    /** Demotes on every pending account, in any order. */
    method DemoteUnexecutables()
      requires Valid()
      modifies `pending, `queue, all, priced
      ensures Valid()
      ensures pending == Demoted(old(pending), {}, head, maxGas)
      ensures forall t :: t in all.txs <==> t in old(all.txs) && !LostIn(old(pending), {}, head, maxGas, t)
    {
      hide Consistent, NoneEmpty, Surviving, Store, Lost;
      var todo := pending.Keys;
      NoneDemoted(pending, head, maxGas);
      while todo != {}
        invariant todo <= old(pending).Keys && Valid()
        invariant pending == Demoted(old(pending), todo, head, maxGas)
        invariant forall t :: t in all.txs <==> t in old(all.txs) && !LostIn(old(pending), todo, head, maxGas, t)
        decreases todo
      {
        var a :| a in todo;
        DemotedStep(old(pending), todo, head, maxGas, a);
        PendingOwn(pending, queue, all.txs, a, head, maxGas);
        DemoteAccount(a);
        todo := todo - {a};
      }
    }

    /** Notes, for every account, the nonce after its last pending one. */
    method NotePending()
      requires Valid()
      modifies `notes
      ensures Valid()
      ensures forall a :: a in pending ==> a in notes && EndsBefore(pending[a].items, notes[a])
      ensures forall a :: a !in pending ==>
                (a in notes <==> a in old(notes)) && (a in notes ==> notes[a] == old(notes)[a])
    {
      hide Consistent, NoneEmpty, EndsBefore;
      var todo := pending.Keys;
      while todo != {}
        invariant todo <= pending.Keys
        invariant forall a :: a in pending && a !in todo ==> a in notes && EndsBefore(pending[a].items, notes[a])
        invariant forall a :: a !in pending ==>
                    (a in notes <==> a in old(notes)) && (a in notes ==> notes[a] == old(notes)[a])
        decreases todo
      {
        var a :| a in todo;
        PendingNotEmpty(pending, queue, all.txs, a);
        var txs := FlattenItems(pending[a].items);
        LastHighest(txs, pending[a].items);
        notes := notes[a := txs[|txs| - 1].nonce + 1];
        todo := todo - {a};
      }
    }

    /** Takes transactions out of the pool whose price entries are gone already. */
    method RemoveAll(txs: seq<Tx>)
      requires PricedOk() && Consistent(pending, queue, all.txs, {}) && NoneEmpty(pending) && NoneEmpty(queue)
      requires forall t :: t in all.txs ==> t in priced.items || t in txs
      requires config.accountSlots >= 1
      modifies `pending, `queue, `notes, all, priced
      ensures Valid() && forall t :: t in all.txs <==> t in old(all.txs) && t !in txs
      ensures Evicted(old(pending), pending, old(all.txs) - all.txs)
      ensures txs == [] ==> View() == old(View())
      ensures Contiguous(old(pending), head.nonce, old(notes)) ==> Contiguous(pending, head.nonce, notes)
    {
      hide Live, Consistent, NoneEmpty, Contiguous, RemovedPending, RemovedQueued, Evicted;
      EvictNone(pending);
      assert all.txs - all.txs == {};
      for i := 0 to |txs|
        invariant PricedOk() && Consistent(pending, queue, all.txs, {}) && NoneEmpty(pending) && NoneEmpty(queue)
        invariant forall t :: t in all.txs ==> t in priced.items || t in txs
        invariant forall t :: t in all.txs <==> t in old(all.txs) && t !in txs[..i]
        invariant Evicted(old(pending), pending, old(all.txs) - all.txs)
        invariant i == 0 ==> View() == old(View())
        invariant Contiguous(old(pending), head.nonce, old(notes)) ==> Contiguous(pending, head.nonce, notes)
      {
        ghost var p, q, noted, known := pending, queue, notes, all.txs;
        RemoveTx(txs[i], false);
        if txs[i] in known {
          EvictOne(old(pending), old(all.txs) - known, p, q, noted, known, pending, queue, notes, head.nonce, txs[i]);
          assert old(all.txs) - all.txs == old(all.txs) - known + {txs[i]};
        } else {
          assert all.txs == known;
        }
        if Contiguous(p, head.nonce, noted) {
          RemovalKeepsRuns(p, q, noted, known, pending, queue, notes, head.nonce, txs[i]);
        }
      }
    }

    /** Drops all transactions below a new minimum price, except those of local accounts. */
    method SetGasPrice(price: nat)
      requires Valid()
      modifies `gasPrice, `pending, `queue, `notes, all, priced
      ensures Valid() && gasPrice == price
      ensures forall t :: t in all.txs <==> t in old(all.txs) && (t.from in locals || t.price >= price)
      ensures Evicted(old(pending), pending, old(all.txs) - all.txs)
      ensures Contiguous(old(pending), head.nonce, old(notes)) ==> Contiguous(pending, head.nonce, notes)
    {
      hide Consistent, NoneEmpty, Contiguous, Evicted;
      gasPrice := price;
      var drop := priced.Cap(price, locals);
      RemoveAll(drop);
    }

    /** Makes room for a remote transaction in a full pool, unless it is as cheap as the cheapest. Those transactions
        leave whose entries in the price heap come first, as many entries as have to go; that makes room exactly when
        there are as many and no transaction has two among them. */
    method MakeRoom(tx: Tx) returns (ok: bool)
      requires Valid()
      modifies `pending, `queue, `notes, all, priced
      ensures Valid() && ok == !Underbids(CurrentTerms(), old(View()), tx)
      ensures !ok || |old(all.txs)| < Limit() ==> View() == old(View())
      ensures ok && |old(all.txs)| >= Limit() ==> MadeRoom(old(View()), View(), Limit())
      ensures var live, wanted := old(View()).live, Excess(old(View()), Limit());
              && (ok && Enough(live, wanted) ==> |all.txs| < Limit())
              && (ok && |old(all.txs)| >= Limit() && NoTies(live) ==> (|all.txs| < Limit() <==> Enough(live, wanted)))
      ensures Contiguous(old(pending), head.nonce, old(notes)) ==> Contiguous(pending, head.nonce, notes)
    {
      hide Consistent, NoneEmpty, Contiguous, Evicted, Holds, MadeRoom, Named, Enough, NoTies, Live;
      var count := all.Count();
      if count < Limit() {
        return true;
      }
      var underpriced := priced.Underpriced(tx, locals);
      LiveSame(old(priced.items), priced.items, all.txs, locals);
      if underpriced {
        return false;
      }
      ghost var books := View();
      LiveCovers(priced.items, all.txs, locals);
      var drop := TakeCheapest(count - (Limit() - 1));
      RemoveAll(drop);
      QueuedIsRest(pending, queue, all.txs);
      RoomFrom(books, View(), drop, Limit());
      RoomExact(books, View(), Limit());
      ok := true;
    }

    /** Takes the cheapest remote transactions out of the price heap. */
    method TakeCheapest(wanted: int) returns (drop: seq<Tx>)
      requires PricedOk() && priced.Covers(all.txs)
      modifies priced
      ensures PricedOk() && Named(old(View()).live, multiset(drop), wanted)
      ensures forall t :: t in all.txs ==> t in priced.items || t in drop
      ensures drop == [] ==> View() == old(View())
    {
      hide Named, Live;
      drop := priced.Discard(wanted, locals);
      if drop == [] {
        assert multiset(drop) == multiset{};
        LiveSame(old(priced.items), priced.items, all.txs, locals);
      }
    }

    /** Validates a transaction, makes room for it if it is remote and the pool full, and gives it its place; `roomy` is
        the pool with that room. */
    method Add(tx: Tx, local: bool) returns (r: Admission, ghost roomy: Books)
      requires Valid()
      modifies `pending, `queue, `notes, `locals, all, priced
      ensures Valid() && all.txs <= old(all.txs) + {tx}
      ensures Added(CurrentTerms(), old(View()), roomy, View(), tx, local, r)
      ensures r.Admitted? <==> tx in all.txs && tx !in old(all.txs)
      ensures Contiguous(old(pending), head.nonce, old(notes)) ==> Contiguous(pending, head.nonce, notes)
    {
      hide Consistent, NoneEmpty, Contiguous, Validate, AddTo, Outbids, Holds, Accepts, Held, Placed, MadeRoom, Live;
      roomy := View();
      if tx in all.txs {
        return Refused(KnownTransaction), roomy;
      }
      var invalid := Validate(tx, head, maxGas, gasPrice);
      if invalid.Some? {
        return Refused(invalid.value), roomy;
      }
      if !local {
        var room := MakeRoom(tx);
        if !room {
          return Refused(Underpriced), roomy;
        }
        if |old(all.txs)| >= Limit() {
          StaysOut(old(View()), View(), Limit(), tx);
        }
      }
      roomy := View();
      var queued;
      r, queued := Place(tx);
      if r.Admitted? && queued && local {
        locals := locals + {tx.from};
      }
    }

    /** Lets a new transaction replace the pending one with its nonce, or queues it. */
    method Place(tx: Tx) returns (r: Admission, queued: bool)
      requires Valid() && tx !in all.txs
      modifies `pending, `queue, all, priced
      ensures Valid() && all.txs <= old(all.txs) + {tx}
      ensures queued <==> tx.nonce !in Held(old(pending), tx.from)
      ensures r.Admitted? <==> tx in all.txs
      ensures Placed(old(pending), old(queue), old(all.txs), pending, queue, all.txs, tx, config.priceBump, r)
      ensures r.Refused? ==> View() == old(View())
      ensures Contiguous(old(pending), head.nonce, notes) ==> Contiguous(pending, head.nonce, notes)
    {
      hide Live, Consistent, NoneEmpty, Contiguous, AddTo, Outbids, Holds;
      if tx.from in pending && tx.nonce in pending[tx.from].items {
        if !Accepts(pending[tx.from], tx, config.priceBump) {
          return Refused(ReplaceUnderpriced), false;
        }
        ReplacePending(pending, queue, all.txs, tx, head.nonce, notes);
        ReplaceListed(tx);
        return Admitted(true), false;
      }
      FreshOrReplacedQueue(pending, queue, all.txs, tx);
      var replaced, ok := EnqueueTx(tx);
      if !ok {
        return Refused(ReplaceUnderpriced), true;
      }
      return Admitted(replaced), true;
    }

    /** Puts tx in the place of the pending transaction with its nonce. */
    method ReplaceListed(tx: Tx)
      requires PricedOk() && priced.Covers(all.txs) && tx.from in pending && tx.nonce in pending[tx.from].items
      modifies `pending, all, priced
      ensures PricedOk() && priced.Covers(all.txs)
      ensures pending == AddTo(old(pending), tx, true)
      ensures all.txs == old(all.txs) - {old(pending)[tx.from].items[tx.nonce]} + {tx}
    {
      var held := pending[tx.from].items[tx.nonce];
      pending := pending[tx.from := Inserted(pending[tx.from], tx)];
      all.Remove(held);
      priced.Removed();
      all.Add(tx);
      priced.Put(tx);
    }

    /** Admits one transaction and, if it took nobody's place, promotes on its sender's account; `added` is the pool
        before that promotion. */
    method AddTx(tx: Tx, local: bool) returns (r: Admission, ghost roomy: Books, ghost added: Books, ghost pass: Pass)
      requires Valid()
      modifies `pending, `queue, `notes, `locals, all, priced
      ensures Valid() && all.txs <= old(all.txs) + {tx}
      ensures Added(CurrentTerms(), old(View()), roomy, added, tx, local, r)
      ensures r != Admitted(false) ==> View() == added
      ensures r == Admitted(false) ==> Spared(added, View(), pass, config, head, maxGas)
      ensures r.Refused? ==> tx !in all.txs || tx in old(all.txs)
      ensures r == Admitted(false) ==> PendingWithin() && QueueWithin() && QueueCapped(tx.from)
      ensures Contiguous(old(pending), head.nonce, old(notes)) ==>
                && Contiguous(pending, head.nonce, notes)
                && (r == Admitted(false) ==> Waits(queue, head.nonce, notes, tx.from))
    {
      hide Consistent, NoneEmpty, Contiguous, Validate, Waits, Added, Live, PendingWithin, QueueWithin, QueueCapped;
      hide MayLeave, Leveled, LowParts;
      r, roomy := Add(tx, local);
      added, pass := View(), Pass(map[], map[], 0);
      if r == Admitted(false) {
        pass := PromoteExecutables(Some([tx.from]));
        assert tx.from in [tx.from];
      }
    }

    /** Admits a batch, then promotes once on the accounts that got something new. `states` are the pools in between. */
    method AddTxs(txs: seq<Tx>, local: bool)
      returns (rs: seq<Admission>, ghost states: seq<Books>, ghost roomies: seq<Books>, ghost pass: Pass)
      requires Valid()
      modifies `pending, `queue, `notes, `locals, all, priced
      ensures Valid() && BatchAdded(CurrentTerms(), txs, local, rs, states, roomies) && states[0] == old(View())
      ensures BatchPromoted(rs, states[|txs|], View(), pass, config, head, maxGas)
      ensures forall t :: t in all.txs ==> t in old(all.txs) || t in txs
      ensures Admitted(false) in rs ==> PendingWithin() && QueueWithin()
      ensures forall i :: 0 <= i < |txs| && rs[i] == Admitted(false) ==> QueueCapped(txs[i].from)
      ensures Contiguous(old(pending), head.nonce, old(notes)) ==>
                && Contiguous(pending, head.nonce, notes)
                && forall i :: 0 <= i < |txs| && rs[i] == Admitted(false) ==>
                               Waits(queue, head.nonce, notes, txs[i].from)
    {
      hide Consistent, NoneEmpty, Contiguous, Validate, Waits, Added, Live, PendingWithin, QueueWithin, QueueCapped;
      hide BatchAdded, MayLeave, Leveled, LowParts;
      var dirty: set<Address> := {};
      rs, states, roomies, pass := [], [View()], [], Pass(map[], map[], 0);
      EmptyBatch(CurrentTerms(), local, View());
      for i := 0 to |txs|
        invariant Valid() && |rs| == i == |states| - 1 && states[0] == old(View()) && states[i] == View()
        invariant BatchAdded(CurrentTerms(), txs[..i], local, rs, states, roomies)
        invariant forall t :: t in all.txs ==> t in old(all.txs) || t in txs
        invariant Contiguous(old(pending), head.nonce, old(notes)) ==> Contiguous(pending, head.nonce, notes)
        invariant forall k :: 0 <= k < i && rs[k] == Admitted(false) ==> txs[k].from in dirty
        invariant dirty != {} ==> Admitted(false) in rs
      {
        ghost var roomy;
        var r;
        r, roomy := Add(txs[i], local);
        BatchGrows(CurrentTerms(), txs[..i], local, rs, states, roomies, txs[i], r, roomy, View());
        assert txs[..i + 1] == txs[..i] + [txs[i]];
        rs, states, roomies := rs + [r], states + [View()], roomies + [roomy];
        if r == Admitted(false) {
          dirty := dirty + {txs[i].from};
        }
      }
      assert txs[..|txs|] == txs;
      if dirty != {} {
        var accounts := ListAccounts(dirty);
        pass := PromoteExecutables(Some(accounts));
      }
    }

    /** The pending transactions of every account, in nonce order. */
    method Pending() returns (offers: map<Address, seq<Tx>>)
      requires Valid()
      ensures offers.Keys == pending.Keys
      ensures forall a :: a in pending ==> offers[a] != [] && Flattens(offers[a], pending[a].items)
    {
      hide Consistent, NoneEmpty, Flattens;
      offers := map[];
      var todo := pending.Keys;
      while todo != {}
        invariant todo <= pending.Keys && offers.Keys == pending.Keys - todo
        invariant forall a :: a in offers ==> offers[a] != [] && Flattens(offers[a], pending[a].items)
        decreases todo
      {
        var a :| a in todo;
        PendingNotEmpty(pending, queue, all.txs, a);
        var txs := FlattenItems(pending[a].items);
        assert |pending[a].items| > 0;
        offers := offers[a := txs];
        todo := todo - {a};
      }
    }

    /** Takes all queued transactions of an account that has been idle for too long out of the pool. */
    method EvictAccount(a: Address)
      requires Valid()
      modifies `pending, `queue, `notes, all, priced
      ensures Valid() && pending == old(pending) && notes == old(notes)
      ensures queue == if a in locals then old(queue) else old(queue) - {a}
    {
      hide Consistent, NoneEmpty, Store, LessTxs, AllOn, Total, LowParts;
      if a in locals || a !in queue {
        return;
      }
      QueueListOk(pending, queue, all.txs, a);
      var txs := FlattenItems(queue[a].items);
      WholeList(queue, locals, a, txs);
      RemoveQueued(a, txs);
    }

    /** Demotes what cannot be executed under the current head state, notes the next nonces, and promotes again. */
    method Revise() returns (ghost demoted: Books, ghost pass: Pass)
      requires Valid()
      modifies `pending, `queue, `notes, all, priced
      ensures Valid()
      ensures WasDemoted(old(View()), demoted, head, maxGas) && Spared(demoted, View(), pass, config, head, maxGas)
      ensures PendingWithin() && QueueWithin() && forall a :: QueueCapped(a)
      ensures old(notes) == map[] && (forall a :: Gapless(Held(old(pending), a))) ==>
                Contiguous(pending, head.nonce, notes) && forall a :: Waits(queue, head.nonce, notes, a)
    {
      hide Consistent, NoneEmpty, Contiguous, Demoted, LostIn, EndsBefore, Gapless, Waits, Total, Leveled, Live;
      hide PendingWithin, QueueWithin, QueueCapped, LowParts, Spared, WasDemoted;
      ConsistentMeans(pending, queue, all.txs);
      DemoteUnexecutables();
      NotePending();
      demoted := View();
      DemotedBooks(old(View()), demoted, head, maxGas);
      if old(notes) == map[] && forall a :: Gapless(Held(old(pending), a)) {
        DemotedContiguous(old(pending), pending, head, maxGas, notes);
      }
      pass := PromoteExecutables(None);
    }

    /** Moves the pool to a new head state: reinjects what a reorganisation dropped, demotes, and promotes again. Where
        the branches are broken or the state cannot be had, nothing happens. */
    method Reset(state: Option<HeadState>, newMaxGas: nat, reinject: Option<seq<Tx>>) returns (ghost trail: Trail)
      requires Valid()
      modifies `pending, `queue, `notes, `head, `maxGas, `locals, all, priced
      ensures Valid()
      ensures state.None? || reinject.None? ==> View() == old(View()) && head == old(head) && maxGas == old(maxGas)
      ensures state.Some? && reinject.Some? ==>
                && head == state.value && maxGas == newMaxGas
                && PendingWithin() && QueueWithin() && (forall a :: QueueCapped(a))
                && WasReset(old(View()).(notes := map[]), CurrentTerms(), config, reinject.value, trail, View())
                && forall t :: t in all.txs ==> t in old(all.txs) || t in reinject.value
      ensures state.Some? && reinject == Some([]) && Contiguous(old(pending), old(head).nonce, old(notes)) ==>
                && Contiguous(pending, head.nonce, notes)
                && forall a :: Waits(queue, head.nonce, notes, a)
    {
      hide Consistent, NoneEmpty, Contiguous, Gapless, Waits, Total, Live, PendingWithin, QueueWithin, QueueCapped;
      hide BatchAdded, BatchPromoted, Spared, WasDemoted, WasReset;
      trail := Trail([], [], [], Pass(map[], map[], 0), View(), View(), Pass(map[], map[], 0));
      if state.None? || reinject.None? {
        return;
      }
      if Contiguous(pending, head.nonce, notes) {
        RunsAreGapless(pending, head.nonce, notes);
      }
      head, notes, maxGas := state.value, map[], newMaxGas;
      ghost var books := View();
      var rs;
      ghost var states, roomies, first;
      rs, states, roomies, first := AddTxs(reinject.value, false);
      ghost var put := View();
      BatchOfNone(CurrentTerms(), reinject.value, rs, states, roomies, put, first, config);
      ghost var demoted, second := Revise();
      trail := Trail(rs, states, roomies, first, put, demoted, second);
      ResetStages(books, CurrentTerms(), config, reinject.value, trail, View());
    }
  }

  /** Lists the accounts of a map in no particular order. */
  method ListAccounts(keys: set<Address>) returns (s: seq<Address>)
    ensures forall a :: a in keys <==> a in s
  {
    s := ListSet(keys);
    assert forall a :: a in keys <==> a in multiset(keys);
    assert forall a :: a in s <==> a in multiset(s);
  }

  lemma {:induction false} ValidIsLive(pool: TxPool)
    requires pool.Valid()
    ensures LiveOk(pool.View())
  {
    hide Live, Consistent, NoneEmpty;
    LiveCovers(pool.priced.items, pool.all.txs, pool.locals);
  }

  /** Room is asked for in a pool of four remote transactions where three are too many, the cheapest of them with two
      entries in the price heap: there are three left. */
  method StillFull(pool: TxPool, tx: Tx, cheap: Tx, others: set<Tx>) returns (ok: bool)
    requires pool.Valid() && pool.Limit() == 3 && pool.all.txs == others + {cheap} && |others| == 3 && cheap !in others
    requires pool.View().live == multiset(others) + multiset{cheap, cheap}
    requires cheap.price < tx.price && forall t :: t in others ==> PriceLess(cheap, t)
    modifies pool, pool.all, pool.priced
    ensures ok && pool.Valid() && pool.all.txs == others && |pool.all.txs| == pool.Limit()
  {
    hide Live, Consistent, NoneEmpty, Contiguous, MadeRoom, Enough, NoTies;
    ghost var books := pool.View();
    ok := pool.MakeRoom(tx);
    StaysFull(books, pool.View(), cheap, others);
  }
}
