/** A block filled from what the pool holds pending (abey/pbft_agent.go). */
module BlockFilling {
  import opened Transactions
  import opened PoolState
  import opened PoolBooks
  import opened SortedMap
  import opened Intrinsic
  import opened Execution
  import opened PackingRuns
  import opened Packing
  import opened TxPools
  import opened Processor
  import opened AccountLists
  import opened Collections
  import Admissions

  /** Flattened lists of pending transactions are in order. */
  lemma {:induction false} PendingInOrder(pool: TxPool, offers: map<Address, seq<Tx>>)
    requires pool.Valid() && offers.Keys == pool.pending.Keys
    requires forall a :: a in pool.pending ==> offers[a] != [] && Flattens(offers[a], pool.pending[a].items)
    ensures OrderlyOffers(offers)
    ensures forall t :: Holds(pool.pending, t) ==> t.from in offers && t in offers[t.from]
  {
    hide Consistent;
    forall a | a in offers ensures InLine(offers[a], a) {
      PendingListOk(pool.pending, pool.queue, pool.all.txs, a);
    }
  }

  /** Packs what is pending. If the gas lasts, every pending transaction has been tried, or is behind one of its account
      that was stuck; the block replays either way. */
  method FillFromPool(pool: TxPool, work: AgentWork) returns (ghost attempts: seq<Attempt>)
    requires pool.Valid() && work.Valid()
    modifies work, work.db, work.tally, work.gasPool
    ensures work.Valid()
    ensures work.gasPool.gas >= TX_GAS ==>
              forall t :: Holds(pool.pending, t) ==>
                Tried(attempts, t) || Blocked(work.ch, work.header, attempts, t)
  {
    hide Holds, OrderlyOffers, Tried, Blocked, Flattens, pool.Valid, work.Valid;
    var offers := pool.Pending();
    PendingInOrder(pool, offers);
    var ok;
    ok, attempts := PackOffers(work, offers);
  }

  /** Some pool at some time would have admitted the transaction. */
  ghost predicate Admissible(tx: Tx) {
    exists head: HeadState, maxGas: nat, gasPrice: nat :: Admissions.Validate(tx, head, maxGas, gasPrice) == None
  }

  /** Packing nothing but what a pool has admitted, in whatever state, wastes no gas. */
  lemma {:induction false} AdmittedWasteNothing(ch: Chain, h: Header, first: PackState, attempts: seq<Attempt>,
                                                last: PackState)
    requires PackingRuns.IsRun(ch, h, first, attempts, last)
    requires forall i :: 0 <= i < |attempts| ==> Admissible(attempts[i].tx)
    ensures last.session.used + last.session.pool == first.session.used + first.session.pool
  {
    hide PackingRuns.IsRun, Admissions.Validate;
    RunConserves(ch, h, first, attempts, last);
    NothingWasted(ch, h, attempts);
    forall i | 0 <= i < |attempts| ensures !Wastes(ch, h, attempts[i]) {
      var tx, s := attempts[i].tx, attempts[i].before.session;
      var head: HeadState, maxGas: nat, gasPrice: nat :|
        Admissions.Validate(tx, head, maxGas, gasPrice) == None;
      Admissions.AdmittedLosesNoGas(tx, head, maxGas, gasPrice, ch.evm, Context(0, 0, 0, 0), s.world, s.pool);
    }
  }
}
