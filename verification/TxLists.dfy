/** The per-account transaction list over a sorted map, with its cost and gas caps (core/tx_list.go). */
module TxLists {
  import opened Collections
  import opened Transactions
  import opened TxItems
  import opened AccountLists
  import opened SortedMap

  class TxList {
    const strict: bool
    const txs: TxSortedMap
    var costcap: int
    var gascap: nat

    ghost predicate Valid()
      reads this, txs
    {
      txs.Valid() && CapsBound(View())
    }

    ghost function View(): List
      reads this, txs
    {
      List(strict, txs.items, costcap, gascap)
    }

    constructor (strict: bool)
      ensures Valid() && fresh(txs) && View() == NewList(strict)
    {
      this.strict := strict;
      txs := new TxSortedMap();
      costcap, gascap := 0, 0;
    }

    method Overlaps(tx: Tx) returns (b: bool)
      ensures b == (tx.nonce in View().items)
    {
      var held := txs.Get(tx.nonce);
      b := held.Some?;
    }

    /** Inserts tx unless a transaction it does not outbid holds its nonce. */
    method Add(tx: Tx, bump: nat) returns (inserted: bool, replaced: Option<Tx>)
      requires Valid()
      modifies this, txs
      ensures Valid() && inserted == Accepts(old(View()), tx, bump)
      ensures View() == if inserted then Inserted(old(View()), tx) else old(View())
      ensures replaced == if inserted then Replaced(old(View()), tx) else None
    {
      ghost var was := View();
      var held := txs.Get(tx.nonce);
      if held.Some? {
        var threshold := held.value.price * (100 + bump) / 100;
        if held.value.price >= tx.price || threshold > tx.price {
          return false, None;
        }
      }
      txs.Put(tx);
      var cost := tx.Cost();
      if costcap < cost {
        costcap := cost;
      }
      if gascap < tx.gas {
        gascap := tx.gas;
      }
      AddKeepsCaps(was, tx);
      return true, held;
    }

    method Forward(threshold: nat) returns (removed: seq<Tx>)
      requires Valid()
      modifies txs
      ensures Valid() && View() == AccountLists.Forward(old(View()), threshold)
      ensures Flattens(removed, old(View()).items - View().items.Keys)
    {
      removed := txs.Forward(threshold);
    }

    /** Takes out what the account cannot pay for and, in a strict list, everything behind the lowest such nonce. */
    method Filter(costLimit: int, gasLimit: nat, balance: Address -> int) returns (removed: seq<Tx>, invalids: seq<Tx>)
      requires Valid()
      modifies this, txs
      ensures Valid()
      ensures var r := AccountLists.Filter(old(View()), costLimit, gasLimit, balance);
              View() == r.list && multiset(removed) == multiset(r.removed) && multiset(invalids) == multiset(r.invalids)
    {
      removed, invalids := [], [];
      if costcap <= costLimit && gascap <= gasLimit {
        return;
      }
      ghost var was := View();
      FilterKeepsCaps(was, costLimit, gasLimit, balance);
      costcap := costLimit;
      gascap := gasLimit;
      removed := txs.Filter(UnpayableTest(costLimit, gasLimit, balance));
      ghost var paid, gone := txs.items, Dropped(was.items, txs.items);
      if strict && |removed| > 0 {
        var lowest := LowestNonce(removed, gone);
        invalids := txs.Filter(NonceAboveTest(lowest));
      } else {
        assert removed == [] ==> gone == {};
        NothingMore(txs.items);
      }
    }

    method Cap(threshold: nat) returns (drops: seq<Tx>)
      requires Valid()
      modifies txs
      ensures Valid() && View() == AccountLists.Cap(old(View()), threshold)
      ensures Collects(drops, old(View()).items, View().items)
      ensures Descends(drops)
    {
      drops := txs.Cap(threshold);
    }

    /** Takes out the transaction under tx's nonce and, in a strict list, everything above it. */
    method Remove(tx: Tx) returns (removed: bool, invalids: seq<Tx>)
      requires Valid()
      modifies txs
      ensures Valid() && removed == (tx.nonce in old(View()).items)
      ensures View() == Without(old(View()), tx.nonce)
      ensures multiset(invalids) == multiset(Invalidated(old(View()), tx.nonce))
    {
      invalids := [];
      ghost var was := View();
      removed := txs.Remove(tx.nonce);
      if removed {
        if strict {
          invalids := txs.Filter(NonceAboveTest(tx.nonce));
        } else {
          NothingMore(txs.items);
        }
      } else {
        assert was.items - {tx.nonce} == was.items;
      }
    }

    method Ready(start: nat) returns (ready: seq<Tx>)
      requires Valid()
      modifies txs
      ensures Valid() && View() == old(View()).(items := Readied(old(View()).items, start))
      ensures Flattens(ready, old(View()).items - View().items.Keys)
    {
      ready := txs.Ready(start);
    }

    method Len() returns (n: nat)
      ensures n == |View().items|
    {
      n := txs.Len();
    }

    method Empty() returns (b: bool)
      ensures b <==> View().items == map[]
    {
      var n := txs.Len();
      b := n == 0;
    }

    method Flatten() returns (list: seq<Tx>)
      requires Valid()
      modifies txs`cache
      ensures Valid() && View() == old(View()) && Flattens(list, View().items)
    {
      list := txs.Flatten();
    }
  }

  lemma {:induction false} NothingMore(items: Items)
    ensures Dropped(items, items) == {}
  {
  }

  /** The lowest nonce among the removed transactions. */
  method LowestNonce(removed: seq<Tx>, ghost gone: set<Tx>) returns (lowest: nat)
    requires |removed| > 0 && multiset(removed) == multiset(gone)
    ensures gone != {} && NoncesOf(gone) != {} && lowest == Least(NoncesOf(gone))
  {
    lowest := removed[0].nonce;
    for i := 0 to |removed|
      invariant exists k :: 0 <= k < |removed| && removed[k].nonce == lowest
      invariant forall k :: 0 <= k < i ==> lowest <= removed[k].nonce
    {
      if lowest > removed[i].nonce {
        lowest := removed[i].nonce;
      }
    }
    assert forall k :: 0 <= k < |removed| ==> removed[k] in multiset(removed);
    forall n | n in NoncesOf(gone) ensures lowest <= n {
      var tx :| tx in gone && tx.nonce == n;
      assert tx in multiset(removed);
    }
    assert lowest in NoncesOf(gone);
  }
}
