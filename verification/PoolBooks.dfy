/** What the pool's books say about single lists and transactions, and the moves that keep them balanced. */
module PoolBooks {
  import opened Collections
  import opened Transactions
  import opened TxItems
  import opened AccountLists
  import opened PoolState

  function Values(items: Items): set<Tx> {
    Dropped(items, map[])
  }

  lemma {:induction false} ConsistentMeans(pending: Lists, queue: Lists, all: set<Tx>)
    requires Consistent(pending, queue, all, {})
    ensures Apart(pending, queue) && ListsOk(pending, true) && ListsOk(queue, false)
  {
  }

  lemma {:induction false} PendingListOk(pending: Lists, queue: Lists, all: set<Tx>, a: Address)
    requires Consistent(pending, queue, all, {}) && a in pending
    ensures ListOk(pending[a], a, true)
  {
  }

  lemma {:induction false} QueueListOk(pending: Lists, queue: Lists, all: set<Tx>, a: Address)
    requires Consistent(pending, queue, all, {}) && a in queue
    ensures ListOk(queue[a], a, false)
  {
  }

  lemma {:induction false} PendingNotEmpty(pending: Lists, queue: Lists, all: set<Tx>, a: Address)
    requires Consistent(pending, queue, all, {}) && NoneEmpty(pending) && a in pending
    ensures pending[a].items != map[] && Keyed(pending[a].items)
  {
    PendingListOk(pending, queue, all, a);
  }

  lemma {:induction false} HeldWhereNonceIs(p: Lists, q: Lists, all: set<Tx>, tx: Tx)
    requires Balanced(p, q, all, {}) && tx in all && tx.nonce in Held(p, tx.from)
    ensures Holds(p, tx) && !Holds(q, tx)
  {
  }

  lemma {:induction false} WithoutFacts(l: List, a: Address, nonce: nat)
    requires ListOk(l, a, l.strict) && nonce in l.items
    ensures SubItems(Without(l, nonce).items, l.items) && ListOk(Without(l, nonce), a, l.strict)
    ensures Dropped(l.items, Without(l, nonce).items) == Invalidated(l, nonce) + {l.items[nonce]}
    ensures l.items[nonce] !in Invalidated(l, nonce)
    ensures !l.strict ==> Invalidated(l, nonce) == {}
  {
  }

  lemma {:induction false} ForwardFacts(l: List, a: Address, strict: bool, threshold: nat)
    requires ListOk(l, a, strict)
    ensures ListOk(Forward(l, threshold), a, strict) && SubItems(Forward(l, threshold).items, l.items)
  {
  }

  lemma {:induction false} FilterFacts(l: List, a: Address, strict: bool, costLimit: int, gasLimit: nat,
                                       balance: Address -> int)
    requires ListOk(l, a, strict)
    ensures var r := Filter(l, costLimit, gasLimit, balance).list;
            ListOk(r, a, strict) && SubItems(r.items, l.items)
  {
    hide Filter;
    FilterKeepsCaps(l, costLimit, gasLimit, balance);
    FilterPartitions(l, costLimit, gasLimit, balance);
  }

  lemma {:induction false} CapFacts(l: List, a: Address, strict: bool, k: nat)
    requires ListOk(l, a, strict)
    ensures ListOk(Cap(l, k), a, strict) && SubItems(Cap(l, k).items, l.items)
  {
    hide Rank;
  }

  lemma {:induction false} StoreOk(lists: Lists, a: Address, l: List, strict: bool)
    requires ListsOk(lists, strict) && ListOk(l, a, strict)
    ensures ListsOk(Store(lists, a, l), strict) && ListsOk(lists[a := l], strict)
    ensures NoneEmpty(lists) ==> NoneEmpty(Store(lists, a, l))
  {
  }

  lemma {:induction false} TakeOne(p: Lists, q: Lists, all: set<Tx>, tx: Tx, l: List, rest: set<Tx>)
    requires Balanced(p, q, all, {}) && tx.from in p && OwnedBy(p[tx.from].items, tx.from)
    requires SubItems(l.items, p[tx.from].items) && Dropped(p[tx.from].items, l.items) == rest + {tx} && tx !in rest
    ensures Balanced(Store(p, tx.from, l), q, all - {tx}, rest)
  {
    var a := tx.from;
    Shrink(p, q, all, {}, a, l);
    assert {} + (rest + {tx}) == rest + {tx};
    Leave(p[a := l], q, all, rest + {tx}, tx);
    assert rest + {tx} - {tx} == rest;
    Forgotten(p, q, all - {tx}, rest, a, l);
  }

  lemma {:induction false} Forgotten(p: Lists, q: Lists, all: set<Tx>, transit: set<Tx>, a: Address, l: List)
    requires Balanced(p[a := l], q, all, transit)
    ensures Balanced(Store(p, a, l), q, all, transit)
  {
    if l.items == map[] {
      Forget(p[a := l], q, all, transit, a);
      assert p[a := l] - {a} == p - {a};
    }
  }

  lemma {:induction false} EmptyForgotten(pending: Lists, queue: Lists, all: set<Tx>, a: Address, l: List)
    requires Consistent(pending, queue[a := l], all, {}) && NoneEmpty(queue)
    ensures Consistent(pending, Store(queue, a, l), all, {}) && NoneEmpty(Store(queue, a, l))
    ensures l.items == map[] ==> queue[a := l] - {a} == Store(queue, a, l)
  {
    Mirror(pending, queue[a := l], all, {});
    Forgotten(queue, pending, all, {}, a, l);
    Mirror(Store(queue, a, l), pending, all, {});
    assert forall b :: b in Store(queue, a, l) ==> Store(queue, a, l)[b] == queue[a := l][b];
  }

  lemma {:induction false} EmptyPendingForgotten(p0: Lists, l: List, pending: Lists, queue: Lists, all: set<Tx>,
                                                 a: Address)
    requires Consistent(pending, queue, all, {}) && NoneEmpty(p0) && pending == p0[a := l]
    ensures Consistent(Store(p0, a, l), queue, all, {}) && NoneEmpty(Store(p0, a, l))
    ensures l.items == map[] ==> pending - {a} == Store(p0, a, l)
    ensures l.items != map[] ==> pending == Store(p0, a, l)
  {
    Forgotten(p0, queue, all, {}, a, l);
    assert forall b :: b in Store(p0, a, l) ==> Store(p0, a, l)[b] == pending[b];
  }

  lemma {:induction false} ShrinkQueue(pending: Lists, queue: Lists, all: set<Tx>, a: Address, l: List)
    requires Consistent(pending, queue, all, {})
    requires a in queue && ListOk(l, a, false) && SubItems(l.items, queue[a].items)
    ensures Consistent(pending, queue[a := l], all, Dropped(queue[a].items, l.items))
  {
    Mirror(pending, queue, all, {});
    Shrink(queue, pending, all, {}, a, l);
    assert {} + Dropped(queue[a].items, l.items) == Dropped(queue[a].items, l.items);
    Mirror(queue[a := l], pending, all, Dropped(queue[a].items, l.items));
    StoreOk(queue, a, l, false);
  }

  lemma {:induction false} ShrinkPending(pending: Lists, queue: Lists, all: set<Tx>, a: Address, l: List)
    requires Consistent(pending, queue, all, {})
    requires a in pending && ListOk(l, a, true) && SubItems(l.items, pending[a].items)
    ensures Consistent(pending[a := l], queue, all, Dropped(pending[a].items, l.items))
  {
    Shrink(pending, queue, all, {}, a, l);
    assert {} + Dropped(pending[a].items, l.items) == Dropped(pending[a].items, l.items);
    StoreOk(pending, a, l, true);
  }

  lemma {:induction false} SettlePending(pending: Lists, queue: Lists, all: set<Tx>, transit: set<Tx>, tx: Tx)
    requires Consistent(pending, queue, all, transit) && tx in transit
    ensures Replaced(ListOf(pending, tx.from, true), tx) == None
    ensures Consistent(AddTo(pending, tx, true), queue, all, transit - {tx}) && tx in all
    ensures NoneEmpty(pending) ==> NoneEmpty(AddTo(pending, tx, true))
  {
    Settle(pending, queue, all, transit, tx, true);
    AddKeepsCaps(ListOf(pending, tx.from, true), tx);
  }

  lemma {:induction false} SettleQueue(pending: Lists, queue: Lists, all: set<Tx>, transit: set<Tx>, tx: Tx)
    requires Consistent(pending, queue, all, transit) && tx in transit
    ensures forall bump: nat :: Accepts(ListOf(queue, tx.from, false), tx, bump)
    ensures Replaced(ListOf(queue, tx.from, false), tx) == None
    ensures Consistent(pending, AddTo(queue, tx, false), all, transit - {tx}) && tx in all
    ensures forall t :: Holds(AddTo(queue, tx, false), t) <==> Holds(queue, t) || t == tx
  {
    hide CapsBound, Apart;
    Mirror(pending, queue, all, transit);
    Settle(queue, pending, all, transit, tx, false);
    Mirror(AddTo(queue, tx, false), pending, all, transit - {tx});
    AddKeepsCaps(ListOf(queue, tx.from, false), tx);
  }
}
