/** The lookup of all pooled transactions and the lazily cleaned price heap over them (core/tx_list.go,
    core/tx_pool.go). */
module Priced {
  import opened Collections
  import opened Transactions
  import opened PriceOrder
  import Heap

  /** All pooled transactions. Looking one up by hash is asking whether it is a member. */
  class TxLookup {
    var txs: set<Tx>

    constructor ()
      ensures txs == {}
    {
      txs := {};
    }

    method Count() returns (n: nat)
      ensures n == |txs|
    {
      n := |txs|;
    }

    method Add(tx: Tx)
      modifies this
      ensures txs == old(txs) + {tx}
    {
      txs := txs + {tx};
    }

    method Remove(tx: Tx)
      modifies this
      ensures txs == old(txs) - {tx}
    {
      txs := txs - {tx};
    }
  }

  class TxPricedList {
    const all: TxLookup
    var items: seq<Tx>
    var stales: int

    ghost predicate Valid()
      reads this
    {
      Heap.Ordered(items, PriceLess)
    }

    /** Every transaction of the given set has an entry in the heap. Entries of transactions since removed, and
        second entries of transactions removed and added again, may be there too. */
    ghost predicate Covers(txs: set<Tx>)
      reads this
    {
      forall tx :: tx in txs ==> tx in items
    }

    constructor (all: TxLookup)
      ensures Valid() && this.all == all && items == [] && stales == 0
    {
      this.all := all;
      items, stales := [], 0;
    }

    method Put(tx: Tx)
      requires Valid()
      modifies this
      ensures Valid() && multiset(items) == multiset(old(items)) + multiset{tx}
      ensures tx in items && (forall t :: t in old(items) ==> t in items) && stales == old(stales)
    {
      ghost var before := items;
      items := Heap.Push(items, tx, PriceLess);
      Pushed(before, items, tx);
    }

    /** Counts one more stale entry and, once they exceed a quarter, rebuilds the heap from the lookup. */
    method Removed()
      requires Valid()
      modifies this
      ensures Valid()
      ensures forall tx :: tx in all.txs && tx in old(items) ==> tx in items
      ensures old(stales) + 1 > |old(items)| / 4 ==> stales == 0 && multiset(items) == multiset(all.txs)
      ensures old(stales) + 1 <= |old(items)| / 4 ==> stales == old(stales) + 1 && items == old(items)
    {
      stales := stales + 1;
      if stales <= |items| / 4 {
        return;
      }
      stales := 0;
      items := ListSet(all.txs);
      items := Heap.Init(items, PriceLess);
      assert forall tx :: tx in all.txs ==> tx in multiset(items);
    }

    /** Takes out of the heap, and returns, the non-local transactions below the price threshold. */
    method Cap(threshold: nat, local: set<Address>) returns (drop: seq<Tx>)
      requires Valid() && Covers(all.txs)
      modifies this
      ensures Valid()
      ensures forall tx :: tx in drop <==> tx in all.txs && !IsLocal(tx, local) && tx.price < threshold
      ensures forall tx :: tx in all.txs ==> tx in items || tx in drop
    {
      drop := [];
      var save: seq<Tx> := [];
      var reached := false;
      while |items| > 0 && !reached
        invariant Valid()
        invariant forall tx :: tx in all.txs ==> tx in items || tx in drop || tx in save
        invariant forall tx :: tx in drop ==> tx in all.txs && !IsLocal(tx, local) && tx.price < threshold
        invariant forall tx :: tx in save ==> IsLocal(tx, local) || tx.price >= threshold
        invariant reached ==> forall tx :: tx in items ==> tx.price >= threshold
        decreases |items|
      {
        ghost var before := items;
        var tx;
        items, tx := Heap.Pop(items, PriceLess);
        Popped(before, items, tx);
        if tx !in all.txs {
          stales := stales - 1;
        } else if tx.price >= threshold {
          save := save + [tx];
          reached := true;
        } else if IsLocal(tx, local) {
          save := save + [tx];
        } else {
          drop := drop + [tx];
        }
      }
      PushAll(save);
    }

    /** Puts saved transactions back. */
    method PushAll(save: seq<Tx>)
      requires Valid()
      modifies `items
      ensures Valid() && multiset(items) == multiset(old(items)) + multiset(save)
      ensures forall tx :: tx in items <==> tx in save || tx in old(items)
    {
      hide Heap.Ordered;
      for i := 0 to |save|
        invariant Valid() && multiset(items) == multiset(old(items)) + multiset(save[..i])
      {
        items := Heap.Push(items, save[i], PriceLess);
        assert save[..i + 1] == save[..i] + [save[i]];
      }
      assert save[..|save|] == save;
      Joined(items, old(items), save);
    }

    /** Whether tx is no dearer than the cheapest pooled transaction. */
    method Underpriced(tx: Tx, local: set<Address>) returns (b: bool)
      requires Valid() && Covers(all.txs)
      modifies this
      ensures Valid() && Covers(all.txs)
      ensures multiset(items) <= multiset(old(items))
      ensures forall t :: t in all.txs ==> multiset(items)[t] == multiset(old(items))[t]
      ensures b <==> !IsLocal(tx, local) && all.txs != {} && forall t :: t in all.txs ==> tx.price <= t.price
    {
      if IsLocal(tx, local) {
        return false;
      }
      while |items| > 0 && items[0] !in all.txs
        invariant Valid() && Covers(all.txs) && multiset(items) <= multiset(old(items))
        invariant forall t :: t in all.txs ==> multiset(items)[t] == multiset(old(items))[t]
        decreases |items|
      {
        stales := stales - 1;
        ghost var before := items;
        var head;
        items, head := Heap.Pop(items, PriceLess);
        Popped(before, items, head);
      }
      if |items| == 0 {
        return false;
      }
      Heap.RootIsMinimalForAll(items, PriceLess);
      var cheapest := items[0];
      assert forall t :: t in all.txs ==> t in items && !PriceLess(t, cheapest);
      b := cheapest.price >= tx.price;
    }

    /** Takes out of the heap, and returns, the given number of cheapest non-local transactions. */
    method Discard(count: int, local: set<Address>) returns (drop: seq<Tx>)
      requires Valid() && Covers(all.txs)
      modifies this
      ensures Valid()
      ensures forall tx :: tx in drop ==> tx in all.txs && !IsLocal(tx, local)
      ensures forall tx :: tx in all.txs ==> tx in items || tx in drop
      ensures forall d, tx :: d in drop && tx in all.txs && tx !in drop && !IsLocal(tx, local) ==> !PriceLess(tx, d)
      ensures |drop| <= count || drop == []
      ensures |drop| < count ==> forall tx :: tx in all.txs && !IsLocal(tx, local) ==> tx in drop
      ensures multiset(drop) <= multiset(old(items))
      ensures forall d, tx :: d in drop && tx in items && !IsLocal(tx, local) ==> !PriceLess(tx, d)
      ensures forall tx :: tx in all.txs ==> multiset(items)[tx] + multiset(drop)[tx] == multiset(old(items))[tx]
      ensures Named(Live(old(items), all.txs, local), multiset(drop), count)
    {
      hide Live, Named, PriceLess, Heap.Ordered, Heap.StrictWeakOrder;
      PriceOrders();
      drop := [];
      var save: seq<Tx> := [];
      while |items| > 0 && |drop| < count
        invariant Valid() && (|drop| <= count || drop == [])
        invariant multiset(drop) + multiset(items) <= multiset(old(items))
        invariant forall tx :: tx in all.txs ==>
                    multiset(items)[tx] + multiset(drop)[tx] + multiset(save)[tx] == multiset(old(items))[tx]
        invariant forall tx :: tx in all.txs ==> tx in items || tx in drop || tx in save
        invariant forall tx :: tx in drop ==> tx in all.txs && !IsLocal(tx, local)
        invariant forall tx :: tx in save ==> IsLocal(tx, local)
        invariant forall d, tx :: d in drop && tx in items ==> !PriceLess(tx, d)
        decreases |items|
      {
        ghost var before := items;
        var tx;
        items, tx := Heap.Pop(items, PriceLess);
        Popped(before, items, tx);
        if tx !in all.txs {
          stales := stales - 1;
        } else if IsLocal(tx, local) {
          save := save + [tx];
        } else {
          drop := drop + [tx];
        }
      }
      PushAll(save);
      DiscardNames(old(items), items, drop, all.txs, local, count);
    }
  }

  lemma {:induction false} PriceOrders()
    ensures Heap.StrictWeakOrder(PriceLess)
  {
  }

  /** Taking the cheapest remote entries one by one names them. */
  lemma {:induction false} DiscardNames(before: seq<Tx>, after: seq<Tx>, drop: seq<Tx>, all: set<Tx>,
                                        local: set<Address>, count: int)
    requires forall tx :: tx in drop ==> tx in all && !IsLocal(tx, local)
    requires forall tx :: tx in all ==> multiset(after)[tx] + multiset(drop)[tx] == multiset(before)[tx]
    requires forall d, tx :: d in drop && tx in after && !IsLocal(tx, local) ==> !PriceLess(tx, d)
    requires |drop| <= count || drop == []
    requires |drop| < count ==> forall tx :: tx in all && !IsLocal(tx, local) ==> tx !in after
    ensures Named(Live(before, all, local), multiset(drop), count)
  {
    hide Live, PriceLess;
    var live, named := Live(before, all, local), multiset(drop);
    forall t
      ensures live[t] == (if t in all && !IsLocal(t, local) then multiset(after)[t] else 0) + named[t]
    {
      LiveCounts(before, all, local, t);
      assert t in drop <==> t in named;
    }
    assert forall t :: t in after <==> t in multiset(after);
    assert forall t :: t in drop <==> t in named;
    assert forall e :: e in live - named ==> e in after && !IsLocal(e, local);
    SubSize(named, live);
    if |drop| < count {
      assert live == named;
    }
  }

  lemma {:induction false} Pushed(before: seq<Tx>, after: seq<Tx>, tx: Tx)
    requires multiset(after) == multiset(before) + multiset{tx}
    ensures tx in after && forall t :: t in before ==> t in after
  {
    Heap.SameElements(after, before, tx);
  }

  lemma {:induction false} Joined(whole: seq<Tx>, a: seq<Tx>, b: seq<Tx>)
    requires multiset(whole) == multiset(a) + multiset(b)
    ensures forall tx :: tx in whole <==> tx in a || tx in b
  {
    assert forall tx :: tx in whole <==> tx in multiset(whole);
    assert forall tx :: tx in a <==> tx in multiset(a);
    assert forall tx :: tx in b <==> tx in multiset(b);
  }

  lemma {:induction false} Popped(before: seq<Tx>, after: seq<Tx>, tx: Tx)
    requires multiset(before) == multiset(after) + multiset{tx}
    ensures forall t :: t in before <==> t in after || t == tx
  {
    Heap.SameElements(before, after, tx);
    forall t | t in before ensures t in after || t == tx {
      assert t in multiset(before);
    }
  }

  /** A transaction that left the pool and came back may have two entries in the price heap. */
  method EnterTwice(cheap: Tx, others: seq<Tx>) returns (all: TxLookup, priced: TxPricedList)
    requires |others| == 3 && cheap !in others
    ensures fresh(all) && fresh(priced) && priced.Valid() && priced.all == all
    ensures multiset(priced.items) == multiset(others) + multiset{cheap} + multiset{cheap}
    ensures forall tx :: tx in all.txs <==> tx in others || tx == cheap
  {
    hide Heap.Ordered;
    all := new TxLookup();
    priced := new TxPricedList(all);
    for i := 0 to 3
      invariant priced.Valid() && priced.all == all && priced.stales == 0 && fresh(priced) && fresh(all)
      invariant multiset(priced.items) == multiset(others[..i]) && forall tx :: tx in all.txs <==> tx in others[..i]
    {
      all.Add(others[i]);
      priced.Put(others[i]);
      assert others[..i + 1] == others[..i] + [others[i]];
    }
    assert others[..3] == others;
    all.Add(cheap);
    priced.Put(cheap);
    assert |multiset(priced.items)| == 4;
    all.Remove(cheap);
    priced.Removed();
    all.Add(cheap);
    priced.Put(cheap);
  }

  /** Asked for the two cheapest, a discard then names it twice and leaves the next dearer one. */
  method DiscardsTwice(cheap: Tx, others: seq<Tx>) returns (drop: seq<Tx>)
    requires |others| == 3 && forall tx :: tx in others ==> cheap.price < tx.price
    ensures drop == [cheap, cheap]
  {
    hide Heap.Ordered;
    var all, priced := EnterTwice(cheap, others);
    TwoEntries(priced.items, others, cheap);
    drop := priced.Discard(2, {});
    BothNamed(drop, cheap, others[0]);
    NamedTwice(drop, priced.items, cheap);
  }

  lemma {:induction false} TwoEntries(items: seq<Tx>, others: seq<Tx>, cheap: Tx)
    requires multiset(items) == multiset(others) + multiset{cheap} + multiset{cheap} && cheap !in others
    ensures multiset(items)[cheap] == 2 && forall tx :: tx in items <==> tx in others || tx == cheap
  {
    assert cheap !in multiset(others);
    assert forall tx :: tx in items <==> tx in multiset(items);
    assert forall tx :: tx in others <==> tx in multiset(others);
  }

  lemma {:induction false} BothNamed(drop: seq<Tx>, x: Tx, y: Tx)
    requires x != y
    ensures x in drop && y in drop ==> |drop| >= 2
  {
  }

  lemma {:induction false} NamedTwice(drop: seq<Tx>, left: seq<Tx>, cheap: Tx)
    requires |drop| == 2 && multiset(left)[cheap] + multiset(drop)[cheap] == 2
    requires forall d :: d in drop ==> d == cheap || PriceLess(cheap, d)
    requires forall d, tx :: d in drop && tx in left ==> !PriceLess(tx, d)
    ensures drop == [cheap, cheap]
  {
    assert drop == [drop[0], drop[1]] && drop[0] in drop && drop[1] in drop;
    if multiset(left)[cheap] > 0 {
      assert cheap in multiset(left);
    }
  }
}
