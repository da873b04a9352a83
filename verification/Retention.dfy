/** What the pool keeps: why transactions leave it in a promotion (core/tx_pool.go). */
module Retention {
  import opened Collections
  import opened Transactions
  import opened TxItems
  import opened AccountLists
  import opened PoolState
  import opened PoolBooks
  import opened PoolConfig
  import opened Exchange
  import opened Promotion
  import opened Leveling
  import opened Trimming

  /** The transaction is outdated or cannot be paid for. */
  ghost predicate Stale(head: HeadState, maxGas: nat, t: Tx) {
    t.nonce < head.nonce(t.from) || Unpayable(t, head.balance(t.from), maxGas, head.balance)
  }

  /** A remote account has as many lower nonces queued as it may have transactions. */
  ghost predicate BeyondAllowance(q: Lists, locals: set<Address>, allowance: nat, t: Tx) {
    t.from !in locals && Rank(Held(q, t.from), t.nonce) >= allowance
  }

  // ----- promotion, before the limits -----

  lemma {:induction false} RankMonotone(items: Items, more: Items, n: nat)
    requires items.Keys <= more.Keys
    ensures Rank(items, n) <= Rank(more, n)
  {
    SubsetSize(Below(items.Keys, n), Below(more.Keys, n));
  }

  /** What an account's promotion takes off its queue becomes pending, is stale, or lies beyond the allowance. */
  lemma {:induction false} PromotionSpares(p: Lists, q: Lists, notes: map<Address, nat>, p': Lists, q': Lists,
                                           notes': map<Address, nat>, head: HeadState, maxGas: nat,
                                           allowance: Option<nat>, a: Address, t: Tx)
    requires a in q && AccountPromoted(p, q, notes, p', q', notes', head, maxGas, allowance, a)
    requires ListOk(q[a], a, false) && Holds(q, t)
    ensures || Holds(p', t) || Holds(q', t) || Stale(head, maxGas, t)
            || (allowance.Some? && t.from == a && Rank(Held(q, a), t.nonce) >= allowance.value)
  {
    hide CapsBound, Screened, Executable, Parked, NotedRun, NextNonce, Unpayable, CapsSuffice, Rank;
    if t.from == a {
      var next := NextNonce(head.nonce, notes, a);
      var screened := Screened(q[a], head, maxGas, a);
      ScreenedExact(q[a], head, maxGas, a, t.nonce);
      if t.nonce in screened.items {
        ParkedSpares(q[a], screened, next, allowance, head, maxGas, a, t);
        assert Held(p', a) == Held(p, a) + Executable(screened.items, next);
      }
    }
  }

  lemma {:induction false} ParkedSpares(l: List, screened: List, next: nat, allowance: Option<nat>, head: HeadState,
                                        maxGas: nat, a: Address, t: Tx)
    requires ListOk(l, a, false) && screened == Screened(l, head, maxGas, a)
    requires t.nonce in screened.items && screened.items[t.nonce] == t
    ensures var run, parked := Executable(screened.items, next), Parked(screened, next, allowance).items;
            || (t.nonce in run && run[t.nonce] == t)
            || (t.nonce in parked && parked[t.nonce] == t)
            || (allowance.Some? && Rank(l.items, t.nonce) >= allowance.value)
  {
    hide CapsBound, Screened, Rank;
    ScreenFacts(l, head, maxGas, a, next);
    RankMonotone(ParkedList(screened, next).items, l.items, t.nonce);
  }

  /** What was queued is pending or still queued, or is stale, or lay beyond the allowance. */
  ghost predicate QueueSpared(q0: Lists, p: Lists, q: Lists, locals: set<Address>, allowance: nat, head: HeadState,
                              maxGas: nat)
  {
    forall t :: Holds(q0, t) ==>
      Holds(p, t) || Holds(q, t) || Stale(head, maxGas, t) || BeyondAllowance(q0, locals, allowance, t)
  }

  lemma {:induction false} QueueSparedStart(p: Lists, q: Lists, locals: set<Address>, allowance: nat, head: HeadState,
                                            maxGas: nat)
    ensures QueueSpared(q, p, q, locals, allowance, head, maxGas)
  {
  }

  lemma {:induction false} FewerQueued(p0: Lists, q0: Lists, p: Lists, q: Lists, a: Address)
    requires Grows(p0, q0, p, q) && ListsOk(q, false)
    ensures Held(q, a).Keys <= Held(q0, a).Keys
  {
    hide CapsBound;
    forall n | n in Held(q, a) ensures n in Held(q0, a) {
      assert Holds(q, Held(q, a)[n]);
    }
  }

  lemma {:induction false} QueueSparedStep(p0: Lists, q0: Lists, p: Lists, q: Lists, notes: map<Address, nat>,
                                           p': Lists, q': Lists, notes': map<Address, nat>, head: HeadState,
                                           maxGas: nat, locals: set<Address>, allowance: nat, a: Address)
    requires QueueSpared(q0, p, q, locals, allowance, head, maxGas)
    requires Grows(p0, q0, p, q) && Grows(p, q, p', q') && ListsOk(q, false) && a in q
    requires AccountPromoted(p, q, notes, p', q', notes', head, maxGas,
                             if a in locals then None else Some(allowance), a)
    ensures QueueSpared(q0, p', q', locals, allowance, head, maxGas)
  {
    hide Holds, AccountPromoted, Rank, Stale, ListOk;
    forall t | Holds(q0, t)
      ensures Holds(p', t) || Holds(q', t) || Stale(head, maxGas, t) || BeyondAllowance(q0, locals, allowance, t)
    {
      if Holds(q, t) {
        PromotionSpares(p, q, notes, p', q', notes', head, maxGas, if a in locals then None else Some(allowance), a, t);
        FewerQueued(p0, q0, p, q, a);
        RankMonotone(Held(q, a), Held(q0, a), t.nonce);
      }
    }
  }

  // ----- the limits -----

  /** What a promotion passes through: the pending and the queued lists before the limits are enforced, and the level
      to which the limit on pending transactions then brings the accounts. */
  datatype Pass = Pass(grown: Lists, parked: Lists, level: nat)

  /** The reasons for which a transaction may leave the pool in a promotion. */
  ghost predicate MayLeave(books: Books, pass: Pass, config: Config, head: HeadState, maxGas: nat, t: Tx) {
    || (&& Holds(books.queue, t)
        && (Stale(head, maxGas, t) || BeyondAllowance(books.queue, books.locals, config.accountQueue, t)))
    || (t.from !in books.locals
        && (|| (Total(pass.grown) > config.globalSlots && Holds(pass.grown, t)
                && Rank(Held(pass.grown, t.from), t.nonce) >= pass.level)
            || (Total(pass.parked) > config.globalQueue && Holds(pass.parked, t))))
  }

  /** A promotion of the pool takes nothing out of it without such a reason, and adds nothing. */
  ghost predicate Spared(books: Books, after: Books, pass: Pass, config: Config, head: HeadState, maxGas: nat) {
    && after.locals == books.locals && after.all <= books.all
    && Total(pass.grown) + Total(pass.parked) <= |books.all|
    && forall t :: t in books.all ==> t in after.all || MayLeave(books, pass, config, head, maxGas, t)
  }

  lemma {:induction false} LimitsSpare(books: Books, after: Books, pass: Pass, config: Config, head: HeadState,
                                       maxGas: nat)
    requires Consistent(books.pending, books.queue, books.all, {})
    requires Consistent(after.pending, after.queue, after.all, {})
    requires after.locals == books.locals && after.all <= books.all
    requires Total(pass.grown) + Total(pass.parked) <= |books.all|
    requires forall t :: Holds(books.pending, t) ==> Holds(pass.grown, t)
    requires QueueSpared(books.queue, pass.grown, pass.parked, books.locals, config.accountQueue, head, maxGas)
    requires if Total(pass.grown) <= config.globalSlots then after.pending == pass.grown
             else after.pending == LevelTo(pass.grown, books.locals, pass.level)
    requires Total(pass.parked) <= config.globalQueue ==> after.queue == pass.parked
    requires LowParts(pass.parked, after.queue, books.locals)
    ensures Spared(books, after, pass, config, head, maxGas)
  {
    hide Total, Stale, BeyondAllowance, ListsOk, Rank;
    forall t | t in books.all ensures t in after.all || MayLeave(books, pass, config, head, maxGas, t) {
      assert Holds(pass.grown, t) && t.from in books.locals ==> Holds(after.pending, t);
      assert Holds(pass.parked, t) && t.from in books.locals ==> Holds(after.queue, t);
    }
  }

  /** The same for a leveled pool. */
  lemma {:induction false} LimitsSpareAll(books: Books, after: Books, pass: Pass, config: Config, head: HeadState,
                                          maxGas: nat)
    requires Consistent(books.pending, books.queue, books.all, {})
    requires Consistent(after.pending, after.queue, after.all, {})
    requires after.locals == books.locals && after.all <= books.all
    requires Total(pass.grown) + Total(pass.parked) <= |books.all|
    requires Grows(books.pending, books.queue, pass.grown, pass.parked)
    requires QueueSpared(books.queue, pass.grown, pass.parked, books.locals, config.accountQueue, head, maxGas)
    requires Total(pass.grown) <= config.globalSlots ==> after.pending == pass.grown
    requires Total(pass.grown) > config.globalSlots ==>
               Leveled(pass.grown, after.pending, books.locals, pass.level, Total(after.pending), config.globalSlots)
    requires Total(pass.parked) <= config.globalQueue ==> after.queue == pass.parked
    requires LowParts(pass.parked, after.queue, books.locals)
    ensures Spared(books, after, pass, config, head, maxGas)
  {
    hide Consistent, Total, QueueSpared, LowParts, LevelTo;
    LimitsSpare(books, after, pass, config, head, maxGas);
  }

  // ----- counting -----

  lemma {:induction false} ValuesSize(items: Items)
    requires Keyed(items)
    ensures |Values(items)| == |items|
    decreases |items|
  {
    if items == map[] {
      assert Values(items) == {};
    } else {
      var n :| n in items;
      var rest := items - {n};
      ValuesSize(rest);
      assert rest.Keys == items.Keys - {n};
      assert forall k :: k in rest ==> rest[k] == items[k];
      assert Values(items) == Values(rest) + {items[n]};
    }
  }

  lemma {:induction false} TotalCounts(lists: Lists, txs: set<Tx>)
    requires forall a :: a in lists ==> OwnedBy(lists[a].items, a)
    requires forall t :: t in txs <==> Holds(lists, t)
    ensures |txs| == Total(lists)
    decreases lists.Keys
  {
    hide Total;
    if lists == map[] {
      assert txs == {};
      TotalNone();
    } else {
      var a := TotalPeels(lists);
      var mine, rest := Values(lists[a].items), lists - {a};
      ValuesSize(lists[a].items);
      MineAndRest(lists, txs, a);
      assert txs == mine + (txs - mine);
      TotalCounts(rest, txs - mine);
    }
  }

  lemma {:induction false} MineAndRest(lists: Lists, txs: set<Tx>, a: Address)
    requires a in lists && OwnedBy(lists[a].items, a)
    requires forall t :: t in txs <==> Holds(lists, t)
    ensures Values(lists[a].items) <= txs
    ensures forall t :: t in txs - Values(lists[a].items) <==> Holds(lists - {a}, t)
  {
    var items := lists[a].items;
    forall t ensures t in Values(items) <==> t.from == a && t.nonce in items && items[t.nonce] == t {
    }
  }

  lemma {:induction false} TotalNone()
    ensures Total(map[]) == 0
  {
  }

  /** The pool holds as many transactions as are pending and queued. */
  lemma {:induction false} PoolCounts(p: Lists, q: Lists, all: set<Tx>)
    requires Consistent(p, q, all, {})
    ensures |all| == Total(p) + Total(q)
  {
    hide Total, CapsBound;
    var pend := set t | t in all && Holds(p, t);
    assert forall t :: t in all - pend <==> Holds(q, t);
    assert all == pend + (all - pend);
    TotalCounts(p, pend);
    TotalCounts(q, all - pend);
  }
}
