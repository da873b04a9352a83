/** Batches of additions and whole resets of the pool: which transactions are there afterwards (core/tx_pool.go). */
module Resets {
  import opened Transactions
  import opened TxItems
  import opened AccountLists
  import opened PoolState
  import opened PoolConfig
  import opened Exchange
  import opened Admissions
  import opened Demotion
  import opened Leveling
  import opened Retention

  /** The transactions are added one after the other: `states` are the pools in between, and `roomies` the pools with
      the room made for each of them. */
  ghost predicate BatchAdded(terms: Terms, txs: seq<Tx>, local: bool, rs: seq<Admission>, states: seq<Books>,
                             roomies: seq<Books>)
  {
    && |rs| == |roomies| == |txs| == |states| - 1
    && (forall i :: 0 <= i < |states| ==> Consistent(states[i].pending, states[i].queue, states[i].all, {}))
    && (forall i :: 0 <= i < |txs| ==> Added(terms, states[i], roomies[i], states[i + 1], txs[i], local, rs[i]))
  }

  lemma {:induction false} EmptyBatch(terms: Terms, local: bool, books: Books)
    requires Consistent(books.pending, books.queue, books.all, {})
    ensures BatchAdded(terms, [], local, [], [books], [])
  {
    hide Consistent;
  }

  lemma {:induction false} BatchGrows(terms: Terms, txs: seq<Tx>, local: bool, rs: seq<Admission>, states: seq<Books>,
                                      roomies: seq<Books>, tx: Tx, r: Admission, roomy: Books, books: Books)
    requires BatchAdded(terms, txs, local, rs, states, roomies)
    requires Consistent(books.pending, books.queue, books.all, {})
    requires Added(terms, states[|txs|], roomy, books, tx, local, r)
    ensures BatchAdded(terms, txs + [tx], local, rs + [r], states + [books], roomies + [roomy])
  {
    hide Consistent, Added;
  }

  /** The pool after the promotion that follows a batch; there is none where nothing new was queued. */
  ghost predicate BatchPromoted(rs: seq<Admission>, last: Books, after: Books, pass: Pass, config: Config,
                                head: HeadState, maxGas: nat)
  {
    if Admitted(false) in rs then Spared(last, after, pass, config, head, maxGas) else after == last
  }

  lemma {:induction false} BatchOfNone(terms: Terms, txs: seq<Tx>, rs: seq<Admission>, states: seq<Books>,
                                       roomies: seq<Books>, after: Books, pass: Pass, config: Config)
    requires BatchAdded(terms, txs, false, rs, states, roomies)
    requires BatchPromoted(rs, states[|txs|], after, pass, config, terms.head, terms.maxGas)
    ensures |states| == |txs| + 1 && (txs == [] ==> after == states[0])
  {
    hide Consistent, Added, Spared;
  }

  /** The stages of a reset: the additions, the promotion after them, the pool then, the pool once it is demoted and its
      next nonces are noted, and the last promotion. */
  datatype Trail = Trail(results: seq<Admission>, states: seq<Books>, roomies: seq<Books>, first: Pass, put: Books,
                         demoted: Books, second: Pass)

  /** A demotion under the new head state takes out exactly what is lost. */
  ghost predicate WasDemoted(books: Books, after: Books, head: HeadState, maxGas: nat) {
    && after.pending == Demoted(books.pending, {}, head, maxGas) && after.locals == books.locals
    && Consistent(books.pending, books.queue, books.all, {})
    && Consistent(after.pending, after.queue, after.all, {})
    && forall t :: t in after.all <==> t in books.all && !LostIn(books.pending, {}, head, maxGas, t)
  }

  /** The pool goes from `books` through the stages of a reset, in which txs are put back. */
  ghost predicate WasReset(books: Books, terms: Terms, config: Config, txs: seq<Tx>, trail: Trail, after: Books) {
    && BatchAdded(terms, txs, false, trail.results, trail.states, trail.roomies) && trail.states[0] == books
    && BatchPromoted(trail.results, trail.states[|txs|], trail.put, trail.first, config, terms.head, terms.maxGas)
    && WasDemoted(trail.put, trail.demoted, terms.head, terms.maxGas)
    && Spared(trail.demoted, after, trail.second, config, terms.head, terms.maxGas)
  }

  lemma {:induction false} DemotedBooks(books: Books, after: Books, head: HeadState, maxGas: nat)
    requires Consistent(books.pending, books.queue, books.all, {})
    requires Consistent(after.pending, after.queue, after.all, {}) && after.locals == books.locals
    requires after.pending == Demoted(books.pending, {}, head, maxGas)
    requires forall t :: t in after.all <==> t in books.all && !LostIn(books.pending, {}, head, maxGas, t)
    ensures WasDemoted(books, after, head, maxGas)
  {
  }

  lemma {:induction false} ResetStages(books: Books, terms: Terms, config: Config, txs: seq<Tx>, trail: Trail,
                                       after: Books)
    requires BatchAdded(terms, txs, false, trail.results, trail.states, trail.roomies) && trail.states[0] == books
    requires BatchPromoted(trail.results, trail.states[|txs|], trail.put, trail.first, config, terms.head, terms.maxGas)
    requires WasDemoted(trail.put, trail.demoted, terms.head, terms.maxGas)
    requires Spared(trail.demoted, after, trail.second, config, terms.head, terms.maxGas)
    ensures WasReset(books, terms, config, txs, trail, after)
    ensures after.all <= trail.demoted.all <= trail.put.all
  {
  }

  // ----- which transactions are there afterwards -----

  /** Neither pending nor queued transactions nor any remote account's queue are above their limits. */
  ghost predicate PassWithin(books: Books, pass: Pass, config: Config) {
    && Total(pass.grown) <= config.globalSlots && Total(pass.parked) <= config.globalQueue
    && forall t :: Holds(books.queue, t) ==> !BeyondAllowance(books.queue, books.locals, config.accountQueue, t)
  }

  /** No limit is exceeded at any stage. */
  ghost predicate WithinLimits(terms: Terms, config: Config, txs: seq<Tx>, trail: Trail) {
    && |trail.states| == |txs| + 1
    && (forall i :: 0 <= i < |txs| ==> !Full(terms, trail.states[i]))
    && (Admitted(false) in trail.results ==> PassWithin(trail.states[|txs|], trail.first, config))
    && PassWithin(trail.demoted, trail.second, config)
  }

  /** Every other transaction in the set goes to another place. */
  ghost predicate SlotFree(txs: set<Tx>, t: Tx) {
    forall u :: u in txs && SameSlot(u, t) ==> u == t
  }

  /** Where there is room, adding a transaction for another place leaves t alone. */
  lemma {:induction false} AdditionSpares(terms: Terms, books: Books, roomy: Books, after: Books, u: Tx, r: Admission,
                                          t: Tx)
    requires Consistent(books.pending, books.queue, books.all, {})
    requires Added(terms, books, roomy, after, u, false, r) && !Full(terms, books)
    requires t in books.all && (SameSlot(u, t) ==> u == t)
    ensures t in after.all
  {
    hide Validate, CapsBound, Accepts, AddTo;
  }

  /** Where there is room and its place is free, a transaction is pooled exactly if it is valid. */
  lemma {:induction false} AdditionExact(terms: Terms, books: Books, roomy: Books, after: Books, t: Tx, r: Admission)
    requires Consistent(books.pending, books.queue, books.all, {})
    requires Added(terms, books, roomy, after, t, false, r) && !Full(terms, books)
    requires t !in books.all && SlotFree(books.all, t)
    ensures t in after.all <==> !Invalid(terms, t)
  {
    hide Validate, CapsBound, AddTo, Outbids;
  }

  lemma {:induction false} AdditionAdds(terms: Terms, books: Books, roomy: Books, after: Books, u: Tx, r: Admission)
    requires Added(terms, books, roomy, after, u, false, r) && !Full(terms, books)
    ensures after.all <= books.all + {u}
  {
    hide Validate, Accepts, AddTo;
  }

  /** Where there is room for each, a batch pools exactly its valid transactions, among those whose place is free. */
  lemma {:induction false} BatchExact(terms: Terms, txs: seq<Tx>, rs: seq<Admission>, states: seq<Books>,
                                      roomies: seq<Books>, pooled: set<Tx>, t: Tx, k: nat)
    requires BatchAdded(terms, txs, false, rs, states, roomies) && k <= |txs|
    requires forall i :: 0 <= i < k ==> !Full(terms, states[i])
    requires states[0].all <= pooled && (forall i :: 0 <= i < |txs| ==> txs[i] in pooled) && SlotFree(pooled, t)
    ensures states[k].all <= pooled
    ensures t in states[k].all <==> t in states[0].all || (t in txs[..k] && !Invalid(terms, t))
    decreases k
  {
    hide Consistent, Added, Full, Invalid;
    if k > 0 {
      BatchExact(terms, txs, rs, states, roomies, pooled, t, k - 1);
      var books, roomy, after, u, r := states[k - 1], roomies[k - 1], states[k], txs[k - 1], rs[k - 1];
      assert Added(terms, states[k - 1], roomies[k - 1], states[k - 1 + 1], txs[k - 1], false, rs[k - 1]);
      AdditionAdds(terms, books, roomy, after, u, r);
      assert txs[..k] == txs[..k - 1] + [u];
      if t in books.all {
        AdditionSpares(terms, books, roomy, after, u, r, t);
      } else if u == t {
        AdditionExact(terms, books, roomy, after, t, r);
      }
    }
  }

  /** A promotion within the limits takes out nothing that is not stale. */
  lemma {:induction false} PassSpares(books: Books, after: Books, pass: Pass, config: Config, head: HeadState,
                                      maxGas: nat, t: Tx)
    requires Spared(books, after, pass, config, head, maxGas) && PassWithin(books, pass, config)
    requires t in books.all && !Stale(head, maxGas, t)
    ensures t in after.all
  {
    hide Stale, Total, BeyondAllowance, Holds, Rank;
    assert MayLeave(books, pass, config, head, maxGas, t) ==> t in after.all;
  }

  lemma {:induction false} DemotionSpares(books: Books, after: Books, head: HeadState, maxGas: nat, t: Tx)
    requires WasDemoted(books, after, head, maxGas) && t in books.all && !Stale(head, maxGas, t)
    ensures t in after.all
  {
    hide Unpayable, CapsBound, Lost, Balanced, CapsSuffice;
    if t.from in books.pending {
      LostExact(books.pending[t.from], head, maxGas, t.from, t);
    }
  }

  /** A transaction that is added to a free place, and promoted within the limits, is pooled afterwards exactly if it is
      valid. */
  lemma {:induction false} AddedStays(terms: Terms, config: Config, books: Books, roomy: Books, added: Books,
                                      after: Books, pass: Pass, t: Tx, r: Admission)
    requires Consistent(books.pending, books.queue, books.all, {})
    requires Added(terms, books, roomy, added, t, false, r) && !Full(terms, books)
    requires BatchPromoted([r], added, after, pass, config, terms.head, terms.maxGas)
    requires r == Admitted(false) ==> PassWithin(added, pass, config)
    requires t !in books.all && SlotFree(books.all, t)
    ensures t in after.all <==> !Invalid(terms, t)
  {
    hide Consistent, Added, Full, Invalid, Stale, PassWithin, SlotFree, Total, MayLeave;
    AdditionExact(terms, books, roomy, added, t, r);
    if !Invalid(terms, t) {
      ValidIsNotStale(terms, t);
      if r == Admitted(false) {
        assert [r][0] == r;
        PassSpares(added, after, pass, config, terms.head, terms.maxGas, t);
      }
    }
  }

  lemma {:induction false} ValidIsNotStale(terms: Terms, t: Tx)
    requires !Invalid(terms, t)
    ensures !Stale(terms.head, terms.maxGas, t)
  {
    AdmittedIsKept(t, terms.head, terms.maxGas, terms.gasPrice);
  }

  /** A reset within the limits keeps every pooled transaction that is not stale in the new state, and of those put back
      it pools exactly the valid ones, among all whose place no other one of them takes. */
  lemma {:induction false} ResetExact(books: Books, terms: Terms, config: Config, txs: seq<Tx>, trail: Trail,
                                      after: Books, t: Tx)
    requires WasReset(books, terms, config, txs, trail, after) && WithinLimits(terms, config, txs, trail)
    requires SlotFree(books.all + (set u | u in txs), t)
    ensures t in books.all && !Stale(terms.head, terms.maxGas, t) ==> t in after.all
    ensures t !in books.all ==> (t in after.all <==> t in txs && !Invalid(terms, t))
  {
    hide Consistent, Added, Full, Invalid, Stale, PassWithin, SlotFree, Demoted, LostIn, Total, MayLeave;
    var pooled := books.all + (set u | u in txs);
    BatchExact(terms, txs, trail.results, trail.states, trail.roomies, pooled, t, |txs|);
    assert txs[..|txs|] == txs;
    var last, head, maxGas := trail.states[|txs|], terms.head, terms.maxGas;
    if !Invalid(terms, t) {
      ValidIsNotStale(terms, t);
    }
    if t in last.all && !Stale(head, maxGas, t) {
      if Admitted(false) in trail.results {
        PassSpares(last, trail.put, trail.first, config, head, maxGas, t);
      }
      DemotionSpares(trail.put, trail.demoted, head, maxGas, t);
      PassSpares(trail.demoted, after, trail.second, config, head, maxGas, t);
    }
  }

  /** What a reset within the limits leaves, for all transactions at once. */
  ghost predicate KeptAndPutBack(pooled: set<Tx>, terms: Terms, txs: seq<Tx>, after: set<Tx>) {
    forall t :: SlotFree(pooled + (set u | u in txs), t) ==>
      && (t in pooled && !Stale(terms.head, terms.maxGas, t) ==> t in after)
      && (t !in pooled ==> (t in after <==> t in txs && !Invalid(terms, t)))
  }

  lemma {:induction false} ResetKeepsAndPutsBack(books: Books, terms: Terms, config: Config, txs: seq<Tx>,
                                                 trail: Trail, after: Books)
    requires WasReset(books, terms, config, txs, trail, after)
    ensures WithinLimits(terms, config, txs, trail) ==> KeptAndPutBack(books.all, terms, txs, after.all)
  {
    hide WithinLimits, SlotFree, Stale, Invalid, BatchPromoted, WasDemoted, Spared, Consistent, Added;
    if WithinLimits(terms, config, txs, trail) {
      forall t | SlotFree(books.all + (set u | u in txs), t)
        ensures t in books.all && !Stale(terms.head, terms.maxGas, t) ==> t in after.all
        ensures t !in books.all ==> (t in after.all <==> t in txs && !Invalid(terms, t))
      {
        ResetExact(books, terms, config, txs, trail, after, t);
      }
    }
  }

  // ----- a condition that can be checked beforehand -----

  /** All the transactions together are within each of the limits. */
  ghost predicate Few(count: nat, config: Config) {
    count <= config.globalSlots && count <= config.globalQueue && count <= config.accountQueue
  }

  lemma {:induction false} FewWithin(books: Books, after: Books, pass: Pass, config: Config, head: HeadState,
                                     maxGas: nat)
    requires Spared(books, after, pass, config, head, maxGas) && Consistent(books.pending, books.queue, books.all, {})
    requires Few(|books.all|, config)
    ensures PassWithin(books, pass, config)
  {
    hide Total, CapsBound;
    forall t | Holds(books.queue, t)
      ensures !BeyondAllowance(books.queue, books.locals, config.accountQueue, t)
    {
      RankOfPooled(books, t);
    }
  }

  /** Fewer nonces are below a queued one than there are transactions in the pool. */
  lemma {:induction false} RankOfPooled(books: Books, t: Tx)
    requires Consistent(books.pending, books.queue, books.all, {}) && Holds(books.queue, t)
    ensures Rank(Held(books.queue, t.from), t.nonce) < |books.all|
  {
    hide CapsBound;
    var items := Held(books.queue, t.from);
    var low := Below(items.Keys, t.nonce);
    var txs := set n | n in low :: items[n];
    assert forall n :: n in items ==> Holds(books.queue, items[n]);
    ImageSize(items, low);
    assert txs + {t} <= books.all && t !in txs;
    SubsetSize(txs + {t}, books.all);
  }

  lemma {:induction false} ImageSize(items: Items, keys: set<nat>)
    requires Keyed(items) && keys <= items.Keys
    ensures |set n | n in keys :: items[n]| == |keys|
  {
    if keys != {} {
      var m :| m in keys;
      ImageSize(items, keys - {m});
      assert (set n | n in keys :: items[n]) == (set n | n in keys - {m} :: items[n]) + {items[m]};
    }
  }

  lemma {:induction false} BatchSize(terms: Terms, txs: seq<Tx>, rs: seq<Admission>, states: seq<Books>,
                                     roomies: seq<Books>, k: nat)
    requires BatchAdded(terms, txs, false, rs, states, roomies) && k <= |txs|
    requires |states[0].all| + |txs| <= terms.limit
    ensures |states[k].all| <= |states[0].all| + k
    decreases k
  {
    hide Consistent, Added;
    if k > 0 {
      BatchSize(terms, txs, rs, states, roomies, k - 1);
      assert Added(terms, states[k - 1], roomies[k - 1], states[k - 1 + 1], txs[k - 1], false, rs[k - 1]);
      AdditionAdds(terms, states[k - 1], roomies[k - 1], states[k], txs[k - 1], rs[k - 1]);
      SubsetSize(states[k].all, states[k - 1].all + {txs[k - 1]});
    }
  }

  /** A pool that is small enough, together with what is put back, exceeds no limit. */
  lemma {:induction false} FewStayWithin(books: Books, terms: Terms, config: Config, txs: seq<Tx>, trail: Trail,
                                         after: Books)
    requires WasReset(books, terms, config, txs, trail, after)
    requires terms.limit == config.globalSlots + config.globalQueue && Few(|books.all| + |txs|, config)
    ensures WithinLimits(terms, config, txs, trail)
  {
    hide Consistent, Added, PassWithin, Total, MayLeave, Demoted, LostIn;
    forall i | 0 <= i < |txs| ensures !Full(terms, trail.states[i]) {
      BatchSize(terms, txs, trail.results, trail.states, trail.roomies, i);
    }
    var last := trail.states[|txs|];
    BatchSize(terms, txs, trail.results, trail.states, trail.roomies, |txs|);
    if Admitted(false) in trail.results {
      FewWithin(last, trail.put, trail.first, config, terms.head, terms.maxGas);
    }
    SubsetSize(trail.put.all, last.all);
    SubsetSize(trail.demoted.all, trail.put.all);
    FewWithin(trail.demoted, after, trail.second, config, terms.head, terms.maxGas);
  }
}
