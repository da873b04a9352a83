/** The pool's bookkeeping as values: the two families of account lists, the set of all transactions, and the
    transactions that a running operation has taken off one list and not yet put on another. */
module PoolState {
  import opened Transactions
  import opened TxItems
  import opened AccountLists

  type Lists = map<Address, List>

  function Held(lists: Lists, a: Address): Items {
    if a in lists then lists[a].items else map[]
  }

  ghost predicate Holds(lists: Lists, tx: Tx) {
    tx.nonce in Held(lists, tx.from) && Held(lists, tx.from)[tx.nonce] == tx
  }

  ghost predicate OwnedBy(items: Items, a: Address) {
    forall n :: n in items ==> items[n].nonce == n && items[n].from == a
  }

  ghost predicate ListOk(l: List, a: Address, strict: bool) {
    l.strict == strict && CapsBound(l) && OwnedBy(l.items, a)
  }

  ghost predicate ListsOk(lists: Lists, strict: bool) {
    forall a :: a in lists ==> ListOk(lists[a], a, strict)
  }

  ghost predicate NoneEmpty(lists: Lists) {
    forall a :: a in lists ==> lists[a].items != map[]
  }

  /** No account has the same nonce in both families. */
  ghost predicate Apart(p: Lists, q: Lists) {
    forall a, n :: n in Held(p, a) ==> n !in Held(q, a)
  }

  /** `all` is what the lists hold plus what is in transit. */
  ghost predicate Accounted(p: Lists, q: Lists, all: set<Tx>, transit: set<Tx>) {
    forall tx :: tx in all <==> Holds(p, tx) || Holds(q, tx) || tx in transit
  }

  /** Transactions in transit clash with nothing held and with nothing else in transit. */
  ghost predicate Loose(p: Lists, q: Lists, transit: set<Tx>) {
    && (forall tx :: tx in transit ==> tx.nonce !in Held(p, tx.from) && tx.nonce !in Held(q, tx.from))
    && (forall x, y {:trigger SameSlot(x, y)} :: x in transit && y in transit && SameSlot(x, y) ==> x == y)
  }

  ghost predicate SameSlot(x: Tx, y: Tx) {
    x.from == y.from && x.nonce == y.nonce
  }

  ghost predicate Balanced(p: Lists, q: Lists, all: set<Tx>, transit: set<Tx>) {
    Apart(p, q) && Accounted(p, q, all, transit) && Loose(p, q, transit)
  }

  /** The invariant of the pool, between and during its operations. */
  ghost predicate Consistent(pending: Lists, queue: Lists, all: set<Tx>, transit: set<Tx>) {
    ListsOk(pending, true) && ListsOk(queue, false) && Balanced(pending, queue, all, transit)
  }

  /** The list of an account, or a new one. */
  function ListOf(lists: Lists, a: Address, strict: bool): List {
    if a in lists then lists[a] else NewList(strict)
  }

  /** Stores a list, or forgets the account once the list is empty. */
  function Store(lists: Lists, a: Address, l: List): Lists {
    if l.items == map[] then lists - {a} else lists[a := l]
  }

  function AddTo(lists: Lists, tx: Tx, strict: bool): Lists {
    lists[tx.from := Inserted(ListOf(lists, tx.from, strict), tx)]
  }

  // ----- steps that keep the books balanced -----

  lemma {:induction false} Mirror(p: Lists, q: Lists, all: set<Tx>, transit: set<Tx>)
    requires Balanced(p, q, all, transit)
    ensures Balanced(q, p, all, transit)
  {
  }

  /** Shrinking a list puts what it drops in transit. */
  lemma {:induction false} Shrink(p: Lists, q: Lists, all: set<Tx>, transit: set<Tx>, a: Address, l: List)
    requires Balanced(p, q, all, transit) && a in p && OwnedBy(p[a].items, a) && SubItems(l.items, p[a].items)
    ensures Balanced(p[a := l], q, all, transit + Dropped(p[a].items, l.items))
  {
    var p' := p[a := l];
    var gone := Dropped(p[a].items, l.items);
    assert forall b :: Held(p', b) == if b == a then l.items else Held(p, b);
    forall tx ensures Holds(p, tx) <==> Holds(p', tx) || tx in gone {
      if tx.from == a && tx.nonce in p[a].items && tx.nonce !in l.items {
        assert p[a].items[tx.nonce] in gone;
      }
    }
  }

  /** A transaction in transit may join either family. */
  lemma {:induction false} Settle(p: Lists, q: Lists, all: set<Tx>, transit: set<Tx>, tx: Tx, strict: bool)
    requires Balanced(p, q, all, transit) && tx in transit
    ensures Balanced(AddTo(p, tx, strict), q, all, transit - {tx})
  {
    var p' := AddTo(p, tx, strict);
    assert forall b :: Held(p', b) == if b == tx.from then Held(p, b)[tx.nonce := tx] else Held(p, b);
    assert forall t :: Holds(p', t) <==> Holds(p, t) || t == tx;
    assert forall t :: t in transit && t != tx ==> !SameSlot(t, tx);
  }

  /** A transaction in transit may leave the pool. */
  lemma {:induction false} Leave(p: Lists, q: Lists, all: set<Tx>, transit: set<Tx>, tx: Tx)
    requires Balanced(p, q, all, transit) && tx in transit
    ensures Balanced(p, q, all - {tx}, transit - {tx})
  {
    assert !Holds(p, tx) && !Holds(q, tx);
  }

  lemma {:induction false} LeaveAll(p: Lists, q: Lists, all: set<Tx>, transit: set<Tx>, gone: set<Tx>)
    requires Balanced(p, q, all, transit) && gone <= transit
    ensures Balanced(p, q, all - gone, transit - gone)
  {
    assert forall tx :: tx in gone ==> !Holds(p, tx) && !Holds(q, tx);
  }

  /** A transaction unknown to the pool may enter it under a free nonce. */
  lemma {:induction false} Enter(p: Lists, q: Lists, all: set<Tx>, transit: set<Tx>, tx: Tx)
    requires Balanced(p, q, all, transit) && tx !in all
    requires tx.nonce !in Held(p, tx.from) && tx.nonce !in Held(q, tx.from)
    requires forall t :: t in transit ==> t.from != tx.from || t.nonce != tx.nonce
    ensures Balanced(p, q, all + {tx}, transit + {tx})
  {
  }

  /** An account without transactions may be forgotten. */
  lemma {:induction false} Forget(p: Lists, q: Lists, all: set<Tx>, transit: set<Tx>, a: Address)
    requires Balanced(p, q, all, transit) && Held(p, a) == map[]
    ensures Balanced(p - {a}, q, all, transit)
  {
    assert forall b :: Held(p - {a}, b) == Held(p, b);
    assert forall tx :: Holds(p - {a}, tx) <==> Holds(p, tx);
  }

  // ----- virtual nonces -----

  /** The next nonce of an account as the pool sees it: its own note, or else the head state's nonce. */
  function NextNonce(base: Address -> nat, notes: map<Address, nat>, a: Address): nat {
    if a in notes then notes[a] else base(a)
  }

  /** Each account's pending nonces run from the head state's nonce up to the pool's next nonce. */
  ghost predicate Contiguous(pending: Lists, base: Address -> nat, notes: map<Address, nat>) {
    forall a: Address :: IsRun(Held(pending, a), base(a), NextNonce(base, notes, a))
  }

  /** A change confined to one account keeps all runs if it keeps that account's. */
  lemma {:induction false} ContiguousStep(p: Lists, p': Lists, base: Address -> nat, notes: map<Address, nat>,
                                          notes': map<Address, nat>, a: Address)
    requires Contiguous(p, base, notes)
    requires forall b :: b != a ==> Held(p', b) == Held(p, b) && NextNonce(base, notes', b) == NextNonce(base, notes, b)
    requires IsRun(Held(p', a), base(a), NextNonce(base, notes', a))
    ensures Contiguous(p', base, notes')
  {
    forall b: Address ensures IsRun(Held(p', b), base(b), NextNonce(base, notes', b)) {
      assert IsRun(Held(p, b), base(b), NextNonce(base, notes, b));
    }
  }

  // ----- counting -----

  /** The number of transactions in a family of lists. */
  ghost function Total(lists: Lists): nat {
    if lists == map[] then 0
    else var a :| a in lists; |lists[a].items| + Total(lists - {a})
  }

  lemma {:induction false} TotalSplit(lists: Lists, a: Address)
    requires a in lists
    ensures Total(lists) == |lists[a].items| + Total(lists - {a})
  {
    hide Total;
    var b := TotalPeels(lists);
    if a != b {
      TotalSplit(lists - {b}, a);
      TotalSplit(lists - {a}, b);
      assert lists - {a} - {b} == lists - {b} - {a};
    }
  }

  lemma {:induction false} TotalPeels(lists: Lists) returns (b: Address)
    requires lists != map[]
    ensures b in lists && Total(lists) == |lists[b].items| + Total(lists - {b})
  {
    b :| b in lists && Total(lists) == |lists[b].items| + Total(lists - {b});
  }

  lemma {:induction false} TotalUpdate(lists: Lists, a: Address, l: List)
    ensures Total(lists[a := l]) == Total(lists) - |Held(lists, a)| + |l.items|
    ensures Total(lists - {a}) == Total(lists) - |Held(lists, a)|
    ensures Total(Store(lists, a, l)) == Total(lists) - |Held(lists, a)| + |l.items|
  {
    TotalSplit(lists[a := l], a);
    assert lists[a := l] - {a} == lists - {a};
    if a in lists {
      TotalSplit(lists, a);
    } else {
      assert lists - {a} == lists;
    }
  }
}
