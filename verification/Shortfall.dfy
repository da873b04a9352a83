/** A full pool in which making room does not make it: one transaction has two entries in the price heap. */
module Shortfall {
  import opened Transactions
  import opened PriceOrder
  import opened AccountLists
  import opened PoolState
  import opened Exchange

  /** Four remote transactions where three are too many, the cheapest with two entries: only that one leaves. */
  lemma {:induction false} StaysFull(books: Books, after: Books, cheap: Tx, others: set<Tx>)
    requires MadeRoom(books, after, 3) && books.all == others + {cheap} && |others| == 3 && cheap !in others
    requires books.live == multiset(others) + multiset{cheap, cheap} && forall t :: t in others ==> PriceLess(cheap, t)
    ensures after.all == others
  {
    hide MadeRoom, Members, Named, PriceLess, NotDearer;
    var named := GoneNamed(books, after, 3);
    assert |books.all| == 4;
    NoneCheaper(cheap, others);
    NamedTwiceSure(books.live, named, 2, cheap);
    NamedSize(books.live, named, 2);
    SubSize(multiset{cheap, cheap}, named);
    OneMember(cheap);
    assert books.all - after.all == {cheap};
  }

  lemma {:induction false} GoneNamed(books: Books, after: Books, limit: nat) returns (named: multiset<Tx>)
    requires MadeRoom(books, after, limit)
    ensures Named(books.live, named, Excess(books, limit)) && books.all - after.all == Members(named)
    ensures after.all <= books.all
  {
    named :| Named(books.live, named, Excess(books, limit)) && books.all - after.all == Members(named);
  }

  lemma {:induction false} NoneCheaper(cheap: Tx, others: set<Tx>)
    requires forall t :: t in others ==> PriceLess(cheap, t)
    ensures |NotDearer(multiset(others) + multiset{cheap, cheap}, cheap)| == 0
  {
    assert NotDearer(multiset(others) + multiset{cheap, cheap}, cheap) == multiset{};
  }

  lemma {:induction false} OneMember(t: Tx)
    ensures Members(multiset{t, t}) == {t}
  {
  }

  /** The two entries are the two cheapest. */
  lemma {:induction false} TwoNamed(cheap: Tx, others: set<Tx>)
    requires cheap !in others && |others| == 3 && forall t :: t in others ==> PriceLess(cheap, t)
    ensures Named(multiset(others) + multiset{cheap, cheap}, multiset([cheap, cheap]), 2)
  {
    var live := multiset(others) + multiset{cheap, cheap};
    assert live - multiset{cheap, cheap} == multiset(others);
  }

  // ----- such a pool -----

  function Queued(nonce: nat): Tx {
    Tx(nonce, 1, EMPTY_ADDRESS, nonce, nonce, 21000, 0, 0, false, [], 0)
  }

  function Txs(nonces: set<nat>): set<Tx> {
    set n | n in nonces :: Queued(n)
  }

  function QueueOf(nonces: set<nat>): List {
    List(false, map n | n in nonces :: Queued(n), 84000, 21000)
  }

  /** One account with queued transactions, the dearer the higher the nonce, of which the first left and came back. */
  function FourQueued(): Books {
    Books(map[], map[1 := QueueOf({1, 2, 3, 4})], map[], Txs({1, 2, 3, 4}), {},
          multiset(Txs({2, 3, 4})) + multiset{Queued(1), Queued(1)})
  }

  function ThreeQueued(): Books {
    Books(map[], map[1 := QueueOf({2, 3, 4})], map[], Txs({2, 3, 4}), {}, multiset(Txs({2, 3, 4})))
  }

  lemma {:induction false} TxsFacts()
    ensures Txs({1, 2, 3, 4}) == Txs({2, 3, 4}) + {Queued(1)} && Queued(1) !in Txs({2, 3, 4}) && |Txs({2, 3, 4})| == 3
    ensures forall t :: t in Txs({2, 3, 4}) ==> PriceLess(Queued(1), t)
  {
    TxsSize({2, 3, 4});
    assert {1, 2, 3, 4} == {2, 3, 4} + {1};
  }

  lemma {:induction false} TxsSize(nonces: set<nat>)
    ensures |Txs(nonces)| == |nonces|
  {
    if nonces != {} {
      var n :| n in nonces;
      TxsSize(nonces - {n});
      assert Txs(nonces) == Txs(nonces - {n}) + {Queued(n)};
    }
  }

  lemma {:induction false} QueueHolds(nonces: set<nat>, t: Tx)
    ensures Holds(map[1 := QueueOf(nonces)], t) <==> t in Txs(nonces)
  {
    if t in Txs(nonces) {
      var n :| n in nonces && t == Queued(n);
    }
  }

  lemma {:induction false} PricedQueueOk(nonces: set<nat>)
    requires nonces <= {1, 2, 3, 4}
    ensures ListOk(QueueOf(nonces), 1, false)
  {
  }

  lemma {:induction false} QueueOk(nonces: set<nat>)
    requires nonces <= {1, 2, 3, 4}
    ensures var q: Lists := map[1 := QueueOf(nonces)];
            Consistent(map[], q, Txs(nonces), {}) && forall t :: Holds(q, t) <==> t in Txs(nonces)
  {
    hide QueueOf, Txs, Holds, ListOk;
    var q: Lists := map[1 := QueueOf(nonces)];
    forall t ensures Holds(q, t) <==> t in Txs(nonces) {
      QueueHolds(nonces, t);
    }
    PricedQueueOk(nonces);
    NonePending({});
  }

  lemma {:induction false} NonePending(gone: set<Tx>)
    ensures Evicted(map[], map[], gone) && forall t :: !Holds(map[], t)
  {
  }

  /** Room is asked for and not made: the pool of four stays full at three in every way in which room can be made, and
      there is such a way. */
  lemma {:induction false} ShortfallExample(after: Books)
    ensures var books := FourQueued();
            && Consistent(books.pending, books.queue, books.all, {}) && LiveOk(books) && |books.all| == 4
            && MadeRoom(books, ThreeQueued(), 3)
            && (MadeRoom(books, after, 3) ==> |after.all| == 3 && after.all == ThreeQueued().all)
  {
    hide MadeRoom, Consistent, Holds, Evicted, QueueOf, Txs, Queued, Named, PriceLess;
    var books, cheap, others := FourQueued(), Queued(1), Txs({2, 3, 4});
    TxsFacts();
    QueueOk({1, 2, 3, 4});
    QueueOk({2, 3, 4});
    assert |books.all| == 4;
    assert books.live == multiset(others) + multiset{cheap, cheap};
    TwoNamed(cheap, others);
    NonePending(books.all - others);
    RoomFrom(books, ThreeQueued(), [cheap, cheap], 3);
    if MadeRoom(books, after, 3) {
      StaysFull(books, after, cheap, others);
    }
  }
}
