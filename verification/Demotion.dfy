/** Pending transactions under a new head state (core/tx_pool.go). */
module Demotion {
  import opened Transactions
  import opened TxItems
  import opened AccountLists
  import opened SortedMap
  import opened PoolState
  import opened PoolBooks

  /** What stays of an account's pending list: the payable part, unless its first nonce is missing. */
  function Surviving(l: List, head: HeadState, maxGas: nat, a: Address): List {
    var paid := Filter(Forward(l, head.nonce(a)), head.balance(a), maxGas, head.balance).list;
    if paid.items != map[] && head.nonce(a) !in paid.items then paid.(items := map[]) else paid
  }

  /** The outdated and the unpayable transactions of a pending list. */
  function Lost(l: List, head: HeadState, maxGas: nat, a: Address): set<Tx> {
    var low := Forward(l, head.nonce(a));
    Dropped(l.items, low.items) + Filter(low, head.balance(a), maxGas, head.balance).removed
  }

  lemma {:induction false} DemoteFacts(l: List, head: HeadState, maxGas: nat, a: Address)
    requires ListOk(l, a, true)
    ensures var low := Forward(l, head.nonce(a));
            var f := Filter(low, head.balance(a), maxGas, head.balance);
            && ListOk(low, a, true) && SubItems(low.items, l.items)
            && ListOk(f.list, a, true) && SubItems(f.list.items, low.items)
            && Dropped(low.items, f.list.items) == f.removed + f.invalids && f.removed !! f.invalids
            && ListOk(f.list.(items := map[]), a, true) && SubItems(map[], f.list.items)
            && Dropped(f.list.items, map[]) == Values(f.list.items)
  {
    hide Filter;
    var low := Forward(l, head.nonce(a));
    FilterKeepsCaps(low, head.balance(a), maxGas, head.balance);
    FilterPartitions(low, head.balance(a), maxGas, head.balance);
  }

  /** What is lost is what is outdated and, unless the caps make judging unnecessary, what cannot be paid for. */
  lemma {:induction false} LostExact(l: List, head: HeadState, maxGas: nat, a: Address, tx: Tx)
    requires ListOk(l, a, true)
    ensures tx in Lost(l, head, maxGas, a) <==>
              && tx.nonce in l.items && l.items[tx.nonce] == tx
              && (|| tx.nonce < head.nonce(a)
                  || (&& !CapsSuffice(l, head.balance(a), maxGas)
                      && Unpayable(tx, head.balance(a), maxGas, head.balance)))
  {
    var low := Forward(l, head.nonce(a));
    var test := UnpayableTest(head.balance(a), maxGas, head.balance);
    if tx.nonce in l.items && l.items[tx.nonce] == tx {
      assert tx in Dropped(l.items, low.items) <==> tx.nonce < head.nonce(a);
      assert tx in Dropped(low.items, Filtered(low.items, test)) <==> tx.nonce >= head.nonce(a) && test(tx);
    }
  }

  /** The pending lists once every account outside `todo` has been demoted. */
  ghost function Demoted(p: Lists, todo: set<Address>, head: HeadState, maxGas: nat): Lists {
    map a | a in p && (a in todo || Surviving(p[a], head, maxGas, a).items != map[]) ::
      if a in todo then p[a] else Surviving(p[a], head, maxGas, a)
  }

  ghost predicate LostIn(p: Lists, todo: set<Address>, head: HeadState, maxGas: nat, tx: Tx) {
    tx.from in p && tx.from !in todo && tx in Lost(p[tx.from], head, maxGas, tx.from)
  }

  lemma {:induction false} NoneDemoted(p: Lists, head: HeadState, maxGas: nat)
    ensures Demoted(p, p.Keys, head, maxGas) == p
  {
    hide Surviving;
  }

  lemma {:induction false} DemotedStep(p: Lists, todo: set<Address>, head: HeadState, maxGas: nat, a: Address)
    requires a in todo && a in p
    ensures var q := Demoted(p, todo, head, maxGas);
            && a in q && q[a] == p[a]
            && Store(q, a, Surviving(p[a], head, maxGas, a)) == Demoted(p, todo - {a}, head, maxGas)
  {
    hide Surviving;
  }

  lemma {:induction false} PendingOwn(pending: Lists, queue: Lists, all: set<Tx>, a: Address, head: HeadState,
                                      maxGas: nat)
    requires Consistent(pending, queue, all, {}) && a in pending
    ensures forall t :: t in Lost(pending[a], head, maxGas, a) ==> t.from == a
  {
    PendingListOk(pending, queue, all, a);
    DemoteFacts(pending[a], head, maxGas, a);
    hide Filter, Consistent, ListsOk;
    var low := Forward(pending[a], head.nonce(a));
    var f := Filter(low, head.balance(a), maxGas, head.balance);
    assert f.removed <= Dropped(low.items, f.list.items);
  }

  /** The highest held nonce is the one before `next`. */
  ghost predicate EndsBefore(items: Items, next: nat) {
    (exists n :: n in items && n + 1 == next) && forall m :: m in items ==> m < next
  }

  lemma {:induction false} LastHighest(txs: seq<Tx>, items: Items)
    requires Keyed(items) && Flattens(txs, items) && |txs| == |items| && items != map[]
    ensures |txs| > 0 && EndsBefore(items, txs[|txs| - 1].nonce + 1)
  {
    assert |items| > 0;
    LastIsHighest(txs, items);
  }

  ghost predicate Gapless(items: Items) {
    exists lo, hi :: IsRun(items, lo, hi)
  }

  lemma {:induction false} RunsAreGapless(p: Lists, base: Address -> nat, notes: map<Address, nat>)
    requires Contiguous(p, base, notes)
    ensures forall a :: Gapless(Held(p, a))
  {
    forall a ensures Gapless(Held(p, a)) {
      assert IsRun(Held(p, a), base(a), NextNonce(base, notes, a));
    }
  }

  /** A gapless list survives as a run that starts at the head state's nonce. */
  lemma {:induction false} SurvivingIsRun(l: List, head: HeadState, maxGas: nat, a: Address, lo: nat, hi: nat)
    requires ListOk(l, a, true) && IsRun(l.items, lo, hi)
    ensures var items := Surviving(l, head, maxGas, a).items;
            IsRun(items, head.nonce(a), head.nonce(a) + |items|)
  {
    hide Filter;
    var s := head.nonce(a);
    var low := Forward(l, s);
    var f := Filter(low, head.balance(a), maxGas, head.balance);
    var first := if lo < s then s else lo;
    var last := if hi < first then first else hi;
    assert IsRun(low.items, first, last);
    var cut := FilterKeepsPrefix(low, head.balance(a), maxGas, head.balance, first, last);
    var items := Surviving(l, head, maxGas, a).items;
    if items != map[] {
      assert s in f.list.items;
      assert first == s;
      RunSize(items, s, cut);
    }
  }

  /** Everything listed from the head state's nonce up to n can be paid for. */
  ghost predicate PaidUpTo(items: Items, head: HeadState, maxGas: nat, a: Address, n: nat) {
    forall m :: m in items && head.nonce(a) <= m <= n ==>
      !Unpayable(items[m], head.balance(a), maxGas, head.balance)
  }

  /** What survives of a gapless list: if it reaches down to the head state's nonce, everything from there on up to, and
      not including, the first transaction that cannot be paid for, unless the caps make judging unnecessary. */
  lemma {:induction false} SurvivingExact(l: List, head: HeadState, maxGas: nat, a: Address, lo: nat, hi: nat, n: nat)
    requires ListOk(l, a, true) && IsRun(l.items, lo, hi)
    ensures n in Surviving(l, head, maxGas, a).items <==>
              && lo <= head.nonce(a) <= n < hi
              && (CapsSuffice(l, head.balance(a), maxGas) || PaidUpTo(l.items, head, maxGas, a, n))
  {
    hide CapsBound, CapsSuffice, FullScan, PaidUpTo;
    var s := head.nonce(a);
    var low := Forward(l, s);
    SameCaps(l, low, head.balance(a), maxGas);
    if !CapsSuffice(l, head.balance(a), maxGas) {
      forall k ensures k in FullScan(low, head.balance(a), maxGas, head.balance).list.items <==>
                       k in low.items && PaidUpTo(l.items, head, maxGas, a, k)
      {
        ScanIsPaid(l, head, maxGas, a, k);
      }
      if s <= n && PaidUpTo(l.items, head, maxGas, a, n) {
        PaidBelow(l.items, head, maxGas, a, s, n);
      }
    }
  }

  lemma {:induction false} PaidBelow(items: Items, head: HeadState, maxGas: nat, a: Address, m: nat, n: nat)
    requires m <= n && PaidUpTo(items, head, maxGas, a, n)
    ensures PaidUpTo(items, head, maxGas, a, m)
  {
    hide Unpayable;
  }

  lemma {:induction false} ScanIsPaid(l: List, head: HeadState, maxGas: nat, a: Address, n: nat)
    requires l.strict && Keyed(l.items)
    ensures n in FullScan(Forward(l, head.nonce(a)), head.balance(a), maxGas, head.balance).list.items <==>
            n in Forward(l, head.nonce(a)).items && PaidUpTo(l.items, head, maxGas, a, n)
  {
    hide Unpayable, FullScan;
    var low := Forward(l, head.nonce(a));
    ScanCuts(low, head.balance(a), maxGas, head.balance, n);
    assert forall m :: m in low.items <==> m in l.items && m >= head.nonce(a);
    assert forall m :: m in low.items ==> low.items[m] == l.items[m];
  }

  lemma {:induction false} SameCaps(l: List, k: List, costLimit: int, gasLimit: nat)
    requires l.costcap == k.costcap && l.gascap == k.gascap
    ensures CapsSuffice(l, costLimit, gasLimit) == CapsSuffice(k, costLimit, gasLimit)
  {
  }

  /** A scan of a strict list keeps what has nothing unpayable at or below it. */
  lemma {:induction false} ScanCuts(l: List, costLimit: int, gasLimit: nat, balance: Address -> int, n: nat)
    requires l.strict && Keyed(l.items)
    ensures n in FullScan(l, costLimit, gasLimit, balance).list.items <==>
              && n in l.items
              && forall m :: m in l.items && m <= n ==> !Unpayable(l.items[m], costLimit, gasLimit, balance)
  {
    hide Unpayable;
    var test := UnpayableTest(costLimit, gasLimit, balance);
    var paid := Filtered(l.items, test);
    var removed := Dropped(l.items, paid);
    var nonces := NoncesOf(removed);
    assert forall m :: m in nonces <==> m in l.items && test(l.items[m]) by {
      forall m | m in l.items && test(l.items[m]) ensures m in nonces {
        assert l.items[m] in removed;
      }
    }
    if removed != {} {
      var tx :| tx in removed;
      assert tx.nonce in nonces;
    }
  }

  /** After a demotion of gapless lists and a new noting, every account's run ends at its note. */
  lemma {:induction false} DemotedContiguous(p: Lists, p': Lists, head: HeadState, maxGas: nat, notes: map<Address,
                                             nat>)
    requires ListsOk(p, true) && p' == Demoted(p, {}, head, maxGas)
    requires forall a :: Gapless(Held(p, a))
    requires forall a :: a in p' ==> a in notes && EndsBefore(p'[a].items, notes[a])
    requires forall a :: a !in p' ==> a !in notes
    ensures Contiguous(p', head.nonce, notes)
  {
    hide Surviving;
    forall a: Address ensures IsRun(Held(p', a), head.nonce(a), NextNonce(head.nonce, notes, a)) {
      if a in p' {
        assert ListOk(p[a], a, true) && Gapless(Held(p, a));
        var lo, hi :| IsRun(p[a].items, lo, hi);
        SurvivingIsRun(p[a], head, maxGas, a, lo, hi);
        assert EndsBefore(p'[a].items, notes[a]);
      }
    }
  }

  /** The next nonce of an account exceeds the head state's by the number of its pending transactions, so in 64 bits it
      does not wrap around as long as that sum fits. */
  lemma {:induction false} NextNonceIsCount(p: Lists, base: Address -> nat, notes: map<Address, nat>, a: Address)
    requires Contiguous(p, base, notes)
    ensures NextNonce(base, notes, a) == base(a) + |Held(p, a)|
  {
    assert IsRun(Held(p, a), base(a), NextNonce(base, notes, a));
    RunSize(Held(p, a), base(a), NextNonce(base, notes, a));
  }
}
