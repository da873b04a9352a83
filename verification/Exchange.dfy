/** Single transactions leaving the pool and entering it (core/tx_pool.go). */
module Exchange {
  import opened Transactions
  import opened PriceOrder
  import opened TxItems
  import opened AccountLists
  import opened PoolState
  import opened PoolBooks

  /** tx left its pending list, its successors are queued, and the account's next nonce is no higher than tx's. */
  ghost predicate RemovedPending(p: Lists, q: Lists, notes: map<Address, nat>,
                                 p': Lists, q': Lists, notes': map<Address, nat>, base: Address -> nat, tx: Tx)
  {
    && tx.from in p
    && p' == Store(p, tx.from, Without(p[tx.from], tx.nonce))
    && notes' == Lowered(base, notes, tx.from, tx.nonce)
    && forall t :: Holds(q', t) <==> Holds(q, t) || t in Invalidated(p[tx.from], tx.nonce)
  }

  /** tx left its queue list, and nothing else changed. */
  ghost predicate RemovedQueued(p: Lists, q: Lists, notes: map<Address, nat>,
                                p': Lists, q': Lists, notes': map<Address, nat>, tx: Tx)
  {
    tx.from in q && p' == p && notes' == notes && q' == Store(q, tx.from, Without(q[tx.from], tx.nonce))
  }

  /** Lowers an account's next nonce to n, if it is above it. */
  function Lowered(base: Address -> nat, notes: map<Address, nat>, a: Address, n: nat): map<Address, nat> {
    if NextNonce(base, notes, a) > n then notes[a := n] else notes
  }

  /** Where the pending list has the nonce, it is tx itself that sits there, and removing it leaves its successors. */
  lemma {:induction false} TakePending(pending: Lists, queue: Lists, all: set<Tx>, tx: Tx)
    requires Consistent(pending, queue, all, {}) && NoneEmpty(pending) && tx in all
    requires tx.from in pending && tx.nonce in pending[tx.from].items
    ensures Holds(pending, tx) && !Holds(queue, tx)
    ensures var l := Without(pending[tx.from], tx.nonce);
            && Consistent(Store(pending, tx.from, l), queue, all - {tx}, Invalidated(pending[tx.from], tx.nonce))
            && NoneEmpty(Store(pending, tx.from, l))
  {
    var list := pending[tx.from];
    HeldWhereNonceIs(pending, queue, all, tx);
    WithoutFacts(list, tx.from, tx.nonce);
    TakeOne(pending, queue, all, tx, Without(list, tx.nonce), Invalidated(list, tx.nonce));
    StoreOk(pending, tx.from, Without(list, tx.nonce), true);
  }

  /** Otherwise tx is queued, and removing it by nonce removes tx. */
  lemma {:induction false} TakeQueued(pending: Lists, queue: Lists, all: set<Tx>, tx: Tx)
    requires Consistent(pending, queue, all, {}) && NoneEmpty(queue) && tx in all
    requires tx.nonce !in Held(pending, tx.from)
    ensures Holds(queue, tx) && !Holds(pending, tx)
    ensures var l := Without(queue[tx.from], tx.nonce);
            && Consistent(pending, Store(queue, tx.from, l), all - {tx}, {})
            && NoneEmpty(Store(queue, tx.from, l))
  {
    assert Holds(queue, tx);
    var list := queue[tx.from];
    var l := Without(list, tx.nonce);
    WithoutFacts(list, tx.from, tx.nonce);
    Mirror(pending, queue, all, {});
    TakeOne(queue, pending, all, tx, l, {});
    Mirror(Store(queue, tx.from, l), pending, all - {tx}, {});
    StoreOk(queue, tx.from, l, false);
  }

  /** Removing a transaction from either family keeps the runs. */
  lemma {:induction false} RemovalKeepsRuns(p: Lists, q: Lists, notes: map<Address, nat>, all: set<Tx>,
                         p': Lists, q': Lists, notes': map<Address, nat>, base: Address -> nat, tx: Tx)
    requires Consistent(p, q, all, {}) && Contiguous(p, base, notes)
    requires tx in all && Holds(p, tx) ==> RemovedPending(p, q, notes, p', q', notes', base, tx)
    requires tx in all && Holds(q, tx) ==> RemovedQueued(p, q, notes, p', q', notes', tx)
    requires tx !in all ==> p' == p && notes' == notes
    ensures Contiguous(p', base, notes')
  {
    if tx in all && Holds(p, tx) {
      PendingListOk(p, q, all, tx.from);
      RemovedPendingRuns(p, q, notes, p', q', notes', base, tx);
    }
  }

  lemma {:induction false} RemovedPendingRuns(p: Lists, q: Lists, notes: map<Address, nat>,
                           p': Lists, q': Lists, notes': map<Address, nat>, base: Address -> nat, tx: Tx)
    requires RemovedPending(p, q, notes, p', q', notes', base, tx) && Holds(p, tx)
    requires ListOk(p[tx.from], tx.from, true) && Contiguous(p, base, notes)
    ensures Contiguous(p', base, notes')
  {
    hide CapsBound;
    var a := tx.from;
    assert IsRun(Held(p, a), base(a), NextNonce(base, notes, a));
    var l := Without(p[a], tx.nonce);
    assert IsRun(l.items, base(a), tx.nonce);
    ContiguousStep(p, p', base, notes, notes', a);
  }

  lemma {:induction false} HighestFacts(pending: Lists, queue: Lists, all: set<Tx>, a: Address, base: Address -> nat,
                                        notes: map<Address, nat>)
    returns (top: nat)
    requires Consistent(pending, queue, all, {}) && NoneEmpty(pending) && a in pending && |pending[a].items| > 1
    ensures var l := Cap(pending[a], |pending[a].items| - 1);
            && top in pending[a].items && Dropped(pending[a].items, l.items) == {pending[a].items[top]}
            && pending[a].items[top].nonce == top
            && ListOk(l, a, true) && SubItems(l.items, pending[a].items) && NoneEmpty(pending[a := l])
            && (Contiguous(pending, base, notes) ==> Contiguous(pending[a := l], base, Lowered(base, notes, a, top)))
  {
    hide Capped, Balanced, CapsBound;
    var l := Cap(pending[a], |pending[a].items| - 1);
    CapFacts(pending[a], a, true, |pending[a].items| - 1);
    top := CappedDropsHighest(pending[a].items);
    CappedSize(pending[a].items, |pending[a].items| - 1);
    assert l.items != map[];
    if Contiguous(pending, base, notes) {
      assert IsRun(Held(pending, a), base(a), NextNonce(base, notes, a));
      ContiguousStep(pending, pending[a := l], base, notes, Lowered(base, notes, a, top), a);
    }
  }

  /** Replacing a held transaction by a new one with its nonce keeps the books balanced. */
  lemma {:induction false} ReplaceHeld(p: Lists, q: Lists, all: set<Tx>, tx: Tx, strict: bool)
    requires Balanced(p, q, all, {}) && tx !in all && tx.from in p && OwnedBy(p[tx.from].items, tx.from)
    requires tx.nonce in p[tx.from].items
    ensures Balanced(AddTo(p, tx, strict), q, all - {p[tx.from].items[tx.nonce]} + {tx}, {})
  {
    var a := tx.from;
    var held := p[a].items[tx.nonce];
    var l := p[a].(items := p[a].items - {tx.nonce});
    var bare := p[a := l];
    Shrink(p, q, all, {}, a, l);
    assert {} + Dropped(p[a].items, l.items) == {held};
    Leave(bare, q, all, {held}, held);
    assert {held} - {held} == {};
    assert tx.nonce !in Held(q, a);
    Enter(bare, q, all - {held}, {}, tx);
    assert {} + {tx} == {tx};
    Settle(bare, q, all - {held} + {tx}, {tx}, tx, strict);
    assert {tx} - {tx} == {};
    assert l.items[tx.nonce := tx] == p[a].items[tx.nonce := tx];
    assert AddTo(bare, tx, strict) == AddTo(p, tx, strict);
  }

  lemma {:induction false} ReplacePending(pending: Lists, queue: Lists, all: set<Tx>, tx: Tx, base: Address -> nat,
                                          notes: map<Address, nat>)
    requires Consistent(pending, queue, all, {}) && NoneEmpty(pending) && tx !in all
    requires tx.from in pending && tx.nonce in pending[tx.from].items
    ensures var p := AddTo(pending, tx, true);
            && Consistent(p, queue, all - {pending[tx.from].items[tx.nonce]} + {tx}, {}) && NoneEmpty(p) && Holds(p, tx)
            && (Contiguous(pending, base, notes) ==> Contiguous(p, base, notes))
  {
    hide Accounted, Apart, Loose, CapsBound;
    PendingListOk(pending, queue, all, tx.from);
    ReplaceHeld(pending, queue, all, tx, true);
    AddKeepsCaps(pending[tx.from], tx);
    StoreOk(pending, tx.from, Inserted(pending[tx.from], tx), true);
    if Contiguous(pending, base, notes) {
      assert IsRun(Held(pending, tx.from), base(tx.from), NextNonce(base, notes, tx.from));
      ContiguousStep(pending, AddTo(pending, tx, true), base, notes, notes, tx.from);
    }
  }

  lemma {:induction false} FreshOrReplacedQueue(pending: Lists, queue: Lists, all: set<Tx>, tx: Tx)
    requires Consistent(pending, queue, all, {}) && NoneEmpty(queue) && tx !in all
    requires tx.nonce !in Held(pending, tx.from)
    ensures var q := AddTo(queue, tx, false);
            var held := Replaced(ListOf(queue, tx.from, false), tx);
            && (held.None? ==> Consistent(pending, q, all + {tx}, {}))
            && (held.Some? ==> Consistent(pending, q, all - {held.value} + {tx}, {}))
            && NoneEmpty(q) && !Holds(pending, tx)
  {
    hide CapsBound, Balanced;
    AddKeepsCaps(ListOf(queue, tx.from, false), tx);
    if tx.nonce in Held(queue, tx.from) {
      Mirror(pending, queue, all, {});
      ReplaceHeld(queue, pending, all, tx, false);
      Mirror(AddTo(queue, tx, false), pending, all - {queue[tx.from].items[tx.nonce]} + {tx}, {});
    } else {
      Enter(pending, queue, all, {}, tx);
      assert {} + {tx} == {tx};
      SettleQueue(pending, queue, all + {tx}, {tx}, tx);
      assert {tx} - {tx} == {};
    }
  }

  // ----- several transactions leaving at once -----

  /** The pool between operations: its two families of lists, its next nonces, all its transactions, its local
      accounts, and the entries of its remote transactions in the price heap. */
  datatype Books = Books(pending: Lists, queue: Lists, notes: map<Address, nat>, all: set<Tx>, locals: set<Address>,
                         live: multiset<Tx>)

  /** Exactly the remote transactions have entries. */
  ghost predicate LiveOk(books: Books) {
    forall t :: t in books.live <==> t in books.all && !IsLocal(t, books.locals)
  }

  /** No transaction of the account that is to leave the pending lists has the nonce or a lower one. */
  ghost predicate Ahead(p: Lists, gone: set<Tx>, t: Tx) {
    forall d :: d in gone && Holds(p, d) && d.from == t.from ==> t.nonce < d.nonce
  }

  /** Each account keeps pending exactly what lies below the lowest of its transactions that leave. */
  ghost predicate Evicted(p: Lists, p': Lists, gone: set<Tx>) {
    forall t :: Holds(p', t) <==> Holds(p, t) && Ahead(p, gone, t)
  }

  lemma {:induction false} EvictNone(p: Lists)
    ensures Evicted(p, p, {})
  {
  }

  lemma {:induction false} EvictOne(p0: Lists, gone: set<Tx>, p: Lists, q: Lists, notes: map<Address, nat>,
                                    all: set<Tx>, p': Lists, q': Lists, notes': map<Address, nat>,
                                    base: Address -> nat, tx: Tx)
    requires Consistent(p, q, all, {}) && Evicted(p0, p, gone) && tx in all
    requires Holds(p, tx) ==> RemovedPending(p, q, notes, p', q', notes', base, tx)
    requires Holds(q, tx) ==> RemovedQueued(p, q, notes, p', q', notes', tx)
    ensures Evicted(p0, p', gone + {tx})
  {
    hide Consistent, Holds;
    if Holds(p, tx) {
      PendingListOk(p, q, all, tx.from);
      CutBelow(p, p', tx);
      EvictLower(p0, gone, p, p', tx);
    } else {
      HeldSomewhere(p, q, all, tx);
      EvictAgain(p0, gone, p, tx);
    }
  }

  lemma {:induction false} HeldSomewhere(p: Lists, q: Lists, all: set<Tx>, tx: Tx)
    requires Consistent(p, q, all, {}) && tx in all
    ensures Holds(p, tx) || Holds(q, tx)
  {
  }

  lemma {:induction false} CutBelow(p: Lists, p': Lists, tx: Tx)
    requires Holds(p, tx) && tx.from in p && ListOk(p[tx.from], tx.from, true)
    requires p' == Store(p, tx.from, Without(p[tx.from], tx.nonce))
    ensures forall t :: Holds(p', t) <==> Holds(p, t) && (t.from == tx.from ==> t.nonce < tx.nonce)
  {
    hide CapsBound;
  }

  lemma {:induction false} EvictLower(p0: Lists, gone: set<Tx>, p: Lists, p': Lists, tx: Tx)
    requires Evicted(p0, p, gone) && Holds(p, tx)
    requires forall t :: Holds(p', t) <==> Holds(p, t) && (t.from == tx.from ==> t.nonce < tx.nonce)
    ensures Evicted(p0, p', gone + {tx})
  {
    hide Holds;
    forall t ensures Ahead(p0, gone + {tx}, t) <==> Ahead(p0, gone, t) && (t.from == tx.from ==> t.nonce < tx.nonce) {
      assert Holds(p0, tx);
    }
  }

  lemma {:induction false} EvictAgain(p0: Lists, gone: set<Tx>, p: Lists, tx: Tx)
    requires Evicted(p0, p, gone) && !Holds(p, tx)
    ensures Evicted(p0, p, gone + {tx})
  {
    hide Holds;
    forall t | Ahead(p0, gone, t) ensures Ahead(p0, gone + {tx}, t) {
      if Holds(p0, tx) && tx.from == t.from {
        assert !Ahead(p0, gone, tx);
      }
    }
  }

  /** How many transactions have to leave for one more to be below the limit. */
  function Excess(books: Books, limit: nat): int {
    |books.all| + 1 - limit
  }

  /** Those leave whose entries are named when as many as have to leave are asked for. */
  ghost predicate NamedGone(books: Books, gone: set<Tx>, limit: nat) {
    exists named :: Named(books.live, named, Excess(books, limit)) && gone == Members(named)
  }

  /** Remote transactions, none dearer than a remote one that stays, and none only if there is none. */
  ghost predicate CheapGone(books: Books, gone: set<Tx>, left: set<Tx>) {
    && (forall d :: d in gone ==> d.from !in books.locals)
    && (forall d, t :: d in gone && t in left && t.from !in books.locals ==> d.price <= t.price)
    && (gone == {} <==> forall t :: t in books.all ==> t.from in books.locals)
  }

  /** What making room in a full pool comes to: the transactions leave whose entries are named, which are remote and the
      cheapest. What is still pooled and not pending is queued. */
  ghost predicate MadeRoom(books: Books, after: Books, limit: nat) {
    var gone := books.all - after.all;
    && after.all <= books.all && after.locals == books.locals && NamedGone(books, gone, limit)
    && CheapGone(books, gone, after.all) && |gone| <= Excess(books, limit)
    && (gone == {} ==> after == books)
    && Evicted(books.pending, after.pending, gone)
    && (forall t :: Holds(after.queue, t) <==> t in after.all && !Holds(after.pending, t))
  }

  lemma {:induction false} QueuedIsRest(p: Lists, q: Lists, all: set<Tx>)
    requires Consistent(p, q, all, {})
    ensures forall t :: Holds(q, t) <==> t in all && !Holds(p, t)
  {
    hide ListsOk;
  }

  /** Discarding the cheapest remote transactions makes room. */
  lemma {:induction false} RoomFrom(books: Books, after: Books, drop: seq<Tx>, limit: nat)
    requires |books.all| >= limit && after.locals == books.locals && LiveOk(books)
    requires Named(books.live, multiset(drop), Excess(books, limit))
    requires forall t :: t in after.all <==> t in books.all && t !in drop
    requires Evicted(books.pending, after.pending, books.all - after.all) && (drop == [] ==> after == books)
    requires forall t :: Holds(after.queue, t) <==> t in after.all && !Holds(after.pending, t)
    ensures MadeRoom(books, after, limit)
  {
    hide Evicted, Holds, Named, NamedGone, CheapGone, LiveOk;
    NamedLeave(books, drop, limit, after.all);
  }

  lemma {:induction false} NamedLeave(books: Books, drop: seq<Tx>, limit: nat, left: set<Tx>)
    requires LiveOk(books) && |books.all| >= limit && Named(books.live, multiset(drop), Excess(books, limit))
    requires forall t :: t in left <==> t in books.all && t !in drop
    ensures var gone := books.all - left;
            && left <= books.all && NamedGone(books, gone, limit) && |gone| <= Excess(books, limit)
            && CheapGone(books, gone, left) && (gone == {} ==> drop == [])
  {
    var named := multiset(drop);
    var gone := books.all - left;
    assert forall t :: t in drop <==> t in named;
    assert gone == Members(named) && left == books.all - gone;
    MembersSize(named);
    NamedAreCheap(books, named, limit);
    if drop != [] {
      assert drop[0] in gone;
    }
  }

  lemma {:induction false} NamedAreCheap(books: Books, named: multiset<Tx>, limit: nat)
    requires LiveOk(books) && |books.all| >= limit && Named(books.live, named, Excess(books, limit))
    ensures CheapGone(books, Members(named), books.all - Members(named))
  {
    var gone := Members(named);
    assert forall t :: t in gone ==> t in books.live;
    forall d, t | d in gone && t in books.all && t !in gone && t.from !in books.locals ensures d.price <= t.price {
      assert t in books.live - named;
    }
    if gone == {} {
      assert named == multiset{};
    }
  }

  /** Room is made exactly when as many transactions are named as have to leave. Where no transaction with two entries
      ties with another, that is when there are as many entries as that, and no transaction has two among the first. */
  lemma {:induction false} RoomExact(books: Books, after: Books, limit: nat)
    requires MadeRoom(books, after, limit) && |books.all| >= limit
    ensures Enough(books.live, Excess(books, limit)) ==> |after.all| < limit
    ensures |books.live| < Excess(books, limit) ==> |after.all| >= limit
    ensures |books.live| <= Excess(books, limit) && LiveOk(books) ==>
              forall t :: t in after.all ==> t.from in books.locals
    ensures (exists t :: books.live[t] >= 2 && |NotDearer(books.live, t)| + 2 <= Excess(books, limit)) ==>
              |after.all| >= limit
    ensures NoTies(books.live) ==> (|after.all| < limit <==> Enough(books.live, Excess(books, limit)))
  {
    hide Evicted, Holds, Named, Members, Enough, NoTies, NotDearer, CheapGone;
    var gone := books.all - after.all;
    var named :| Named(books.live, named, Excess(books, limit)) && gone == Members(named);
    assert gone + after.all == books.all && gone !! after.all;
    NamedExact(books.live, named, Excess(books, limit));
    if |books.live| <= Excess(books, limit) {
      AllNamed(books.live, named, Excess(books, limit));
    }
  }

  lemma {:induction false} AllNamed(live: multiset<Tx>, named: multiset<Tx>, wanted: int)
    requires Named(live, named, wanted) && |live| <= wanted
    ensures forall t :: t in live <==> t in Members(named)
  {
    SubSize(named, live);
  }

  lemma {:induction false} StaysOut(books: Books, after: Books, limit: nat, tx: Tx)
    requires MadeRoom(books, after, limit) && tx !in books.all
    ensures tx !in after.all && after.all <= books.all
  {
  }
}
