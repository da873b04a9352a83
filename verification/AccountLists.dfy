/** One account's transactions as a value: what each operation of a transaction list does to it. */
module AccountLists {
  import opened Collections
  import opened Transactions
  import opened TxItems

  datatype List = List(strict: bool, items: Items, costcap: int, gascap: nat)

  /** The nonces of the chain's head state, the balances that may be spent in it, and the senders it bars. */
  datatype HeadState = HeadState(nonce: Address -> nat, balance: Address -> int, barred: set<Address>)

  function NewList(strict: bool): List {
    List(strict, map[], 0, 0)
  }

  /** A replacement has to beat the old price both absolutely and by the bump, in percent. */
  predicate Outbids(held: Tx, tx: Tx, bump: nat) {
    held.price < tx.price && held.price * (100 + bump) / 100 <= tx.price
  }

  /** A replacement is enough exactly if it raises the price at all, and one unit of price more would raise it by more
      than the bump; one that raises it by the bump is enough. */
  lemma {:induction false} BumpInPercent(held: Tx, tx: Tx, bump: nat)
    ensures Outbids(held, tx, bump) <==>
              tx.price > held.price && 100 * (tx.price + 1 - held.price) > bump * held.price
    ensures tx.price > held.price && 100 * (tx.price - held.price) >= bump * held.price ==> Outbids(held, tx, bump)
  {
    assert held.price * (100 + bump) == 100 * held.price + bump * held.price;
  }

  predicate Accepts(l: List, tx: Tx, bump: nat) {
    tx.nonce in l.items ==> Outbids(l.items[tx.nonce], tx, bump)
  }

  function Replaced(l: List, tx: Tx): Option<Tx> {
    if tx.nonce in l.items then Some(l.items[tx.nonce]) else None
  }

  function Inserted(l: List, tx: Tx): List {
    List(l.strict, l.items[tx.nonce := tx],
         if l.costcap < tx.Cost() then tx.Cost() else l.costcap,
         if l.gascap < tx.gas then tx.gas else l.gascap)
  }

  function Forward(l: List, threshold: nat): List {
    l.(items := Forwarded(l.items, threshold))
  }

  function Cap(l: List, k: nat): List {
    l.(items := Capped(l.items, k))
  }

  predicate Unpayable(tx: Tx, costLimit: int, gasLimit: nat, balance: Address -> int) {
    || tx.SenderCost() > costLimit
    || tx.gas > gasLimit
    || (tx.HasOtherPayer() && tx.GasCost() > balance(tx.payer))
  }

  function UnpayableTest(costLimit: int, gasLimit: nat, balance: Address -> int): Tx -> bool {
    (tx: Tx) => Unpayable(tx, costLimit, gasLimit, balance)
  }

  function NonceAboveTest(lowest: nat): Tx -> bool {
    (tx: Tx) => tx.nonce > lowest
  }

  /** What a filtering leaves, what it removes as unpayable, and what it invalidates behind those. */
  datatype Filtering = Filtering(list: List, removed: set<Tx>, invalids: set<Tx>)

  function NoncesOf(txs: set<Tx>): set<nat> {
    set tx | tx in txs :: tx.nonce
  }

  /** Judges every transaction, without looking at the caps. */
  function FullScan(l: List, costLimit: int, gasLimit: nat, balance: Address -> int): Filtering {
    var paid := Filtered(l.items, UnpayableTest(costLimit, gasLimit, balance));
    var removed := Dropped(l.items, paid);
    var kept := if l.strict && removed != {}
                then assert NoncesOf(removed) != {} by {
                       var tx :| tx in removed;
                       assert tx.nonce in NoncesOf(removed);
                     }
                     Filtered(paid, NonceAboveTest(Least(NoncesOf(removed))))
                else paid;
    Filtering(List(l.strict, kept, costLimit, gasLimit), removed, Dropped(paid, kept))
  }

  /** The caps already meet the limits, so nothing is scanned. */
  predicate CapsSuffice(l: List, costLimit: int, gasLimit: nat) {
    l.costcap <= costLimit && l.gascap <= gasLimit
  }

  function Filter(l: List, costLimit: int, gasLimit: nat, balance: Address -> int): Filtering {
    if CapsSuffice(l, costLimit, gasLimit) then Filtering(l, {}, {})
    else FullScan(l, costLimit, gasLimit, balance)
  }

  /** What taking out one nonce leaves; a strict list also loses everything above it. */
  function Without(l: List, nonce: nat): List {
    if nonce !in l.items then l
    else l.(items := if l.strict then Filtered(l.items - {nonce}, NonceAboveTest(nonce)) else l.items - {nonce})
  }

  /** The transactions above a removed nonce that a strict list gives up. */
  function Invalidated(l: List, nonce: nat): set<Tx> {
    if nonce !in l.items then {}
    else Dropped(l.items - {nonce}, Without(l, nonce).items)
  }

  // ----- the caps -----

  /** The caps bound what the sender has to afford, and the gas, of every held transaction. */
  ghost predicate CapsBound(l: List) {
    forall n :: n in l.items ==> l.items[n].SenderCost() <= l.costcap && l.items[n].gas <= l.gascap
  }

  lemma {:induction false} AddKeepsCaps(l: List, tx: Tx)
    requires CapsBound(l)
    ensures CapsBound(Inserted(l, tx))
  {
    assert tx.SenderCost() <= tx.Cost();
  }

  lemma {:induction false} FilterKeepsCaps(l: List, costLimit: int, gasLimit: nat, balance: Address -> int)
    requires CapsBound(l)
    ensures CapsBound(Filter(l, costLimit, gasLimit, balance).list)
  {
    var r := Filter(l, costLimit, gasLimit, balance);
    if !CapsSuffice(l, costLimit, gasLimit) {
      forall n | n in r.list.items
        ensures r.list.items[n].SenderCost() <= costLimit && r.list.items[n].gas <= gasLimit
      {
        assert !UnpayableTest(costLimit, gasLimit, balance)(l.items[n]);
      }
    }
  }

  /** Some held transaction is to be paid for by somebody else who cannot afford it. */
  ghost predicate HasBrokePayer(l: List, balance: Address -> int) {
    exists n :: n in l.items && l.items[n].HasOtherPayer() && l.items[n].GasCost() > balance(l.items[n].payer)
  }

  /** The cap shortcut removes what a full scan would, exactly when it is not taken or no separate payer is broke. */
  lemma {:induction false} ShortcutExact(l: List, costLimit: int, gasLimit: nat, balance: Address -> int)
    requires CapsBound(l)
    ensures (&& Filter(l, costLimit, gasLimit, balance).removed == FullScan(l, costLimit, gasLimit, balance).removed
             && Filter(l, costLimit, gasLimit, balance).invalids == FullScan(l, costLimit, gasLimit, balance).invalids
             && Filter(l, costLimit, gasLimit, balance).list.items ==
                FullScan(l, costLimit, gasLimit, balance).list.items)
       <==> !CapsSuffice(l, costLimit, gasLimit) || !HasBrokePayer(l, balance)
  {
    if CapsSuffice(l, costLimit, gasLimit) {
      var test := UnpayableTest(costLimit, gasLimit, balance);
      var paid := Filtered(l.items, test);
      if HasBrokePayer(l, balance) {
        var n :| n in l.items && l.items[n].HasOtherPayer() && l.items[n].GasCost() > balance(l.items[n].payer);
        assert test(l.items[n]);
        assert l.items[n] in Dropped(l.items, paid);
      } else {
        assert forall n :: n in l.items ==> !test(l.items[n]);
        assert paid == l.items;
        assert Dropped(l.items, paid) == {};
      }
    }
  }

  /** A list on which the shortcut keeps a transaction that a full scan would remove. */
  lemma {:induction false} ShortcutKeepsBrokePayer()
    ensures exists l, balance: Address -> int ::
              CapsBound(l) && Filter(l, 100, 100, balance).removed == {}
              && FullScan(l, 100, 100, balance).removed != {}
  {
    var tx := Tx(0, 1, 2, 0, 1, 1, 0, 0, false, [], 0);
    var l := Inserted(NewList(true), tx);
    var balance: Address -> int := a => 0;
    assert tx.GasCost() == 1 && l.items[0] == tx;
    assert CapsSuffice(l, 100, 100);
    assert HasBrokePayer(l, balance);
    ShortcutExact(l, 100, 100, balance);
    assert Filter(l, 100, 100, balance).removed == {};
    var test := UnpayableTest(100, 100, balance);
    assert test(l.items[0]);
    assert l.items[0] in Dropped(l.items, Filtered(l.items, test));
  }

  // ----- order and partition -----

  /** Kept, removed and invalidated transactions together are the original list, and no two of them overlap. */
  lemma {:induction false} FilterPartitions(l: List, costLimit: int, gasLimit: nat, balance: Address -> int)
    requires Keyed(l.items)
    ensures var r := Filter(l, costLimit, gasLimit, balance);
            && SubItems(r.list.items, l.items) && r.list.strict == l.strict
            && Dropped(l.items, r.list.items) == r.removed + r.invalids
            && r.removed !! r.invalids
            && (!l.strict ==> r.invalids == {})
  {
    if !CapsSuffice(l, costLimit, gasLimit) {
      var r := FullScan(l, costLimit, gasLimit, balance);
      var paid := Filtered(l.items, UnpayableTest(costLimit, gasLimit, balance));
      assert r.list.items.Keys <= paid.Keys <= l.items.Keys;
      assert Dropped(l.items, r.list.items) == r.removed + r.invalids;
    } else {
      assert Dropped(l.items, l.items) == {};
    }
  }

  /** Filtering a strict run leaves the part of it below the lowest removed nonce. */
  lemma {:induction false} FilterKeepsPrefix(l: List, costLimit: int, gasLimit: nat, balance: Address -> int, lo: nat,
                                             hi: nat)
    returns (cut: nat)
    requires Keyed(l.items) && l.strict && IsRun(l.items, lo, hi)
    ensures lo <= cut <= hi && IsRun(Filter(l, costLimit, gasLimit, balance).list.items, lo, cut)
    ensures var r := Filter(l, costLimit, gasLimit, balance);
            && (cut < hi <==> r.removed != {})
            && (cut < hi ==> l.items[cut] in r.removed)
            && (forall tx :: tx in r.removed + r.invalids ==> cut <= tx.nonce < hi)
  {
    var r := Filter(l, costLimit, gasLimit, balance);
    if r.removed == {} {
      cut := hi;
      if !CapsSuffice(l, costLimit, gasLimit) {
        var paid := Filtered(l.items, UnpayableTest(costLimit, gasLimit, balance));
        assert forall n :: n in l.items && n !in paid ==> l.items[n] in Dropped(l.items, paid);
      }
    } else {
      var tx :| tx in r.removed;
      assert tx.nonce in NoncesOf(r.removed);
      cut := Least(NoncesOf(r.removed));
      var paid := Filtered(l.items, UnpayableTest(costLimit, gasLimit, balance));
      assert forall n :: n in l.items && n !in paid ==> l.items[n] in r.removed && n in NoncesOf(r.removed);
    }
  }
}
