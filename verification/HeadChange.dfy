/** The pool's reaction to a change of the chain's head, from the comparison of the branches on (core/tx_pool.go). */
module HeadChange {
  import opened Collections
  import opened Transactions
  import opened AccountLists
  import opened PoolState
  import opened CanonicalChain
  import opened Reinjection
  import opened Promotion
  import opened Resets
  import opened TxPools
  import opened PriceOrder

  /** Moves the pool from one head to another: what the new branch misses is put back, and where the branches are broken
      or the state cannot be had, nothing happens. Where no limit is exceeded on the way, all that is not stale stays
      and exactly the valid ones of the missing transactions are pooled, among those whose place is free. */
  method ChangeHead(pool: TxPool, chain: BlockChain, bodies: Bodies, oldHead: Option<Block>, newHead: Block,
                    state: Option<HeadState>, maxGas: nat)
    returns (ghost level: nat, ghost put: seq<Tx>, ghost trail: Trail)
    requires pool.Valid() && StoreOk(chain.store)
    requires oldHead.Some? && Compared(oldHead.value, newHead) ==>
               InStore(chain.store, oldHead.value) && InStore(chain.store, newHead)
    modifies pool, pool.all, pool.priced
    ensures pool.Valid()
    ensures var compared := oldHead.Some? && Compared(oldHead.value, newHead);
            var broken := compared && forall l: nat :: !Meet(chain.store, oldHead.value, newHead, l);
            && (state.None? || broken ==> pool.View() == old(pool.View()) && pool.head == old(pool.head))
            && (state.Some? && !broken ==>
                  && pool.head == state.value && pool.maxGas == maxGas
                  && pool.PendingWithin() && pool.QueueWithin() && (forall a :: pool.QueueCapped(a))
                  && (compared ==> Highest(chain.store, oldHead.value, newHead, level))
                  && (forall t :: t in put <==>
                                  compared && Missing(chain.store, bodies, oldHead.value, newHead, level, t))
                  && (forall t :: t in pool.all.txs ==> t in old(pool.all.txs) || t in put)
                  && WasReset(old(pool.View()).(notes := map[]), pool.CurrentTerms(), pool.config, put, trail,
                              pool.View())
                  && (Few(|old(pool.all.txs)| + |put|, pool.config) ==>
                        WithinLimits(pool.CurrentTerms(), pool.config, put, trail))
                  && (WithinLimits(pool.CurrentTerms(), pool.config, put, trail) ==>
                        KeptAndPutBack(old(pool.all.txs), pool.CurrentTerms(), put, pool.all.txs)))
    ensures state.Some? && !(oldHead.Some? && Compared(oldHead.value, newHead))
            && Contiguous(old(pool.pending), old(pool.head).nonce, old(pool.notes)) ==>
              && Contiguous(pool.pending, pool.head.nonce, pool.notes)
              && forall a :: Waits(pool.queue, pool.head.nonce, pool.notes, a)
  {
    hide Meet, Missing, Compared, Contiguous, Waits, pool.Valid, WasReset, WithinLimits, KeptAndPutBack, Few, Live;
    var reinject;
    reinject, level := Collect(chain, bodies, oldHead, newHead);
    put := if reinject.Some? then reinject.value else [];
    trail := pool.Reset(state, maxGas, reinject);
    if state.Some? && reinject.Some? {
      ghost var books, terms := old(pool.View()).(notes := map[]), pool.CurrentTerms();
      ResetKeepsAndPutsBack(books, terms, pool.config, put, trail, pool.View());
      if Few(|books.all| + |put|, pool.config) {
        FewStayWithin(books, terms, pool.config, put, trail, pool.View());
      }
    }
  }
}
