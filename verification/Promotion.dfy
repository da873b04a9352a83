/** Queued transactions becoming pending (core/tx_pool.go). */
module Promotion {
  import opened Collections
  import opened Transactions
  import opened TxItems
  import opened AccountLists
  import opened PoolState
  import opened PoolBooks

  /** What an account's queue list comes to once outdated and unpayable transactions are gone. */
  function Screened(l: List, head: HeadState, maxGas: nat, a: Address): List {
    Filter(Forward(l, head.nonce(a)), head.balance(a), maxGas, head.balance).list
  }

  function ParkedList(l: List, next: nat): List {
    l.(items := Readied(l.items, next))
  }

  /** What stays queued after a promotion. */
  function Parked(l: List, next: nat, allowance: Option<nat>): List {
    if allowance.Some? then Cap(ParkedList(l, next), allowance.value) else ParkedList(l, next)
  }

  function NotedRun(notes: map<Address, nat>, a: Address, run: Items): map<Address, nat> {
    if run == map[] then notes else notes[a := Least(run.Keys) + |run|]
  }

  /** The effect of promoting one account, in full. */
  ghost predicate AccountPromoted(p: Lists, q: Lists, notes: map<Address, nat>,
                                  p': Lists, q': Lists, notes': map<Address, nat>,
                                  head: HeadState, maxGas: nat, allowance: Option<nat>, a: Address)
    requires a in q
  {
    var next := NextNonce(head.nonce, notes, a);
    var screened := Screened(q[a], head, maxGas, a);
    && Extended(p, p', a, Executable(screened.items, next))
    && notes' == NotedRun(notes, a, Executable(screened.items, next))
    && q' == Store(q, a, Parked(screened, next, allowance))
  }

  ghost function UpTo(items: Items, n: nat): Items {
    map k | k in items && k < n :: items[k]
  }

  /** The notes after promoting an account's nonces from `first` up to n. */
  ghost function Noted(notes: map<Address, nat>, a: Address, first: nat, n: nat): map<Address, nat> {
    if first < n then notes[a := n] else notes
  }

  lemma {:induction false} NotedNone(notes: map<Address, nat>, a: Address, first: nat)
    ensures Noted(notes, a, first, first) == notes
  {
  }

  lemma {:induction false} NotedStep(notes: map<Address, nat>, a: Address, first: nat, n: nat)
    requires first <= n
    ensures Noted(notes, a, first, n)[a := n + 1] == Noted(notes, a, first, n + 1)
  {
  }

  lemma {:induction false} NotedRunIs(notes: map<Address, nat>, a: Address, run: Items)
    requires run != map[]
    ensures NotedRun(notes, a, run) == Noted(notes, a, Least(run.Keys), Least(run.Keys) + |run|)
  {
    assert |run| > 0;
  }

  lemma {:induction false} NothingPromoted(notes: map<Address, nat>, a: Address, run: Items)
    requires run == map[]
    ensures NotedRun(notes, a, run) == notes
  {
  }

  /** The family p' is p with `extra` added to the list of a. */
  ghost predicate Extended(p: Lists, p': Lists, a: Address, extra: Items) {
    forall b :: Held(p', b) == if b == a then Held(p, a) + extra else Held(p, b)
  }

  lemma {:induction false} ExtendedByNone(p: Lists, a: Address)
    ensures Extended(p, p, a, map[])
  {
    assert Held(p, a) + map[] == Held(p, a);
  }

  lemma {:induction false} ExtendedStep(p: Lists, p': Lists, a: Address, run: Items, n: nat)
    requires Extended(p, p', a, UpTo(run, n)) && n in run && run[n].from == a && run[n].nonce == n
    ensures Extended(p, AddTo(p', run[n], true), a, UpTo(run, n + 1))
  {
    assert UpTo(run, n + 1) == UpTo(run, n)[n := run[n]];
    assert Held(p, a) + UpTo(run, n + 1) == (Held(p, a) + UpTo(run, n))[n := run[n]];
  }

  /** The pending lists once the run's transactions from `first` up to n have been appended. */
  ghost function Promoted(p: Lists, run: Items, first: nat, n: nat): Lists
    requires forall k :: first <= k < n ==> k in run
    decreases n
  {
    if n <= first then p else AddTo(Promoted(p, run, first, n - 1), run[n - 1], true)
  }

  lemma {:induction false} PromotedOk(p: Lists, q: Lists, all: set<Tx>, a: Address, run: Items, first: nat, end: nat,
                                      n: nat)
    requires Consistent(p, q, all, Values(run)) && NoneEmpty(p)
    requires OwnedBy(run, a) && IsRun(run, first, end) && first <= n <= end
    ensures Consistent(Promoted(p, run, first, n), q, all, Values(Forwarded(run, n)))
    ensures NoneEmpty(Promoted(p, run, first, n))
    ensures Extended(p, Promoted(p, run, first, n), a, UpTo(run, n))
    decreases n
  {
    hide Consistent, Extended, NoneEmpty, AddTo, Forwarded, UpTo, Values;
    if n == first {
      RunStarts(run, first, end);
      ExtendedByNone(p, a);
    } else {
      var before, tx := Promoted(p, run, first, n - 1), run[n - 1];
      assert Promoted(p, run, first, n) == AddTo(before, tx, true);
      PromotedOk(p, q, all, a, run, first, end, n - 1);
      ValuesStep(run, n - 1);
      SettlePending(before, q, all, Values(Forwarded(run, n - 1)), tx);
      ExtendedStep(p, before, a, run, n - 1);
    }
  }

  lemma {:induction false} RunStarts(run: Items, first: nat, end: nat)
    requires IsRun(run, first, end)
    ensures Forwarded(run, first) == run && UpTo(run, first) == map[]
  {
  }

  lemma {:induction false} PromotedNext(p: Lists, q: Lists, all: set<Tx>, a: Address, run: Items, first: nat,
                                        end: nat, n: nat)
    requires Consistent(p, q, all, Values(run)) && NoneEmpty(p)
    requires OwnedBy(run, a) && IsRun(run, first, end) && first <= n < end
    ensures run[n].from == a && run[n].nonce == n && run[n] in all
    ensures Replaced(ListOf(Promoted(p, run, first, n), a, true), run[n]) == None
  {
    PromotedOk(p, q, all, a, run, first, end, n);
    ValuesStep(run, n);
    SettlePending(Promoted(p, run, first, n), q, all, Values(Forwarded(run, n)), run[n]);
  }

  lemma {:induction false} PromotedAll(p: Lists, q: Lists, all: set<Tx>, a: Address, run: Items, first: nat, end: nat)
    requires Consistent(p, q, all, Values(run)) && NoneEmpty(p)
    requires OwnedBy(run, a) && IsRun(run, first, end)
    ensures Consistent(Promoted(p, run, first, end), q, all, {}) && NoneEmpty(Promoted(p, run, first, end))
    ensures Extended(p, Promoted(p, run, first, end), a, run)
  {
    PromotedOk(p, q, all, a, run, first, end, end);
    assert UpTo(run, end) == run;
    assert Values(Forwarded(run, end)) == {};
  }

  lemma {:induction false} ValuesStep(run: Items, n: nat)
    requires Keyed(run) && n in run
    ensures run[n] in Values(Forwarded(run, n)) && Values(Forwarded(run, n)) - {run[n]} == Values(Forwarded(run, n + 1))
  {
    var here, rest := Forwarded(run, n), Forwarded(run, n + 1);
    assert here[n] == run[n];
    forall tx ensures tx in Values(here) && tx != run[n] <==> tx in Values(rest) {
      if tx in Values(here) && tx != run[n] {
        var k :| k in here && here[k] == tx;
        assert rest[k] == tx;
      }
      if tx in Values(rest) {
        var k :| k in rest && rest[k] == tx;
        assert here[k] == tx;
      }
    }
  }

  lemma {:induction false} ParkedFacts(l: List, a: Address, strict: bool, next: nat)
    requires ListOk(l, a, strict)
    ensures ListOk(ParkedList(l, next), a, strict) && SubItems(ParkedList(l, next).items, l.items)
  {
  }

  /** The transactions that pass are those that are not outdated and, unless the caps make judging unnecessary, those
      that can be paid for. */
  lemma {:induction false} ScreenedExact(l: List, head: HeadState, maxGas: nat, a: Address, n: nat)
    requires Keyed(l.items) && !l.strict
    ensures n in Screened(l, head, maxGas, a).items <==>
              && n in l.items && n >= head.nonce(a)
              && (|| CapsSuffice(l, head.balance(a), maxGas)
                  || !Unpayable(l.items[n], head.balance(a), maxGas, head.balance))
    ensures n in Screened(l, head, maxGas, a).items ==> Screened(l, head, maxGas, a).items[n] == l.items[n]
  {
  }

  /** Every stage of a promotion leaves a list in order that holds part of the one before. */
  lemma {:induction false} ScreenFacts(l: List, head: HeadState, maxGas: nat, a: Address, next: nat)
    requires ListOk(l, a, false)
    ensures var low := Forward(l, head.nonce(a));
            var screened := Screened(l, head, maxGas, a);
            var parked := ParkedList(screened, next);
            && ListOk(low, a, false) && SubItems(low.items, l.items)
            && ListOk(screened, a, false) && SubItems(screened.items, low.items)
            && ListOk(parked, a, false) && SubItems(parked.items, screened.items)
            && forall k :: ListOk(Cap(parked, k), a, false) && SubItems(Cap(parked, k).items, parked.items)
  {
    hide ListOk, Filter, Forward, ParkedList, Cap;
    var low := Forward(l, head.nonce(a));
    ForwardFacts(l, a, false, head.nonce(a));
    FilterFacts(low, a, false, head.balance(a), maxGas, head.balance);
    var screened := Screened(l, head, maxGas, a);
    ParkedFacts(screened, a, false, next);
    var parked := ParkedList(screened, next);
    forall k: nat ensures ListOk(Cap(parked, k), a, false) && SubItems(Cap(parked, k).items, parked.items) {
      CapFacts(parked, a, false, k);
    }
  }

  lemma {:induction false} ReadyFacts(pending: Lists, queue: Lists, all: set<Tx>, a: Address, next: nat)
    requires Consistent(pending, queue, all, {}) && a in queue
    ensures var run := Executable(queue[a].items, next);
            && Consistent(pending, queue[a := ParkedList(queue[a], next)], all, Values(run))
            && (run == map[] ==> Values(run) == {})
            && OwnedBy(run, a)
            && (run != map[] ==> IsRun(run, Least(run.Keys), Least(run.Keys) + |run|))
  {
    var l := ParkedList(queue[a], next);
    var run := Executable(queue[a].items, next);
    ShrinkQueue(pending, queue, all, a, l);
    assert Values(run) == Dropped(queue[a].items, l.items);
    if run != map[] {
      ExecutableIsRun(queue[a].items, next);
    }
  }

  lemma {:induction false} PromotionFacts(p: Lists, q: Lists, notes: map<Address, nat>, p': Lists, q': Lists,
                                          notes': map<Address, nat>,
                       head: HeadState, maxGas: nat, allowance: Option<nat>, a: Address)
    requires a in q && AccountPromoted(p, q, notes, p', q', notes', head, maxGas, allowance, a)
    ensures forall b :: b != a ==> Held(q', b) == Held(q, b)
    ensures forall b :: b != a ==> NextNonce(head.nonce, notes', b) == NextNonce(head.nonce, notes, b)
    ensures allowance.Some? ==> |Held(q', a)| <= allowance.value
    ensures q'.Keys <= q.Keys
  {
    hide Screened, ParkedList, Executable, Extended;
    var next := NextNonce(head.nonce, notes, a);
    var screened := Screened(q[a], head, maxGas, a);
    if allowance.Some? {
      CappedSize(ParkedList(screened, next).items, allowance.value);
    }
  }

  /** Screened nonces are not below the account's next nonce. */
  lemma {:induction false} ScreenedAhead(p: Lists, q: Lists, notes: map<Address, nat>, head: HeadState, maxGas: nat,
                                         a: Address)
    requires a in q && Apart(p, q) && ListOk(q[a], a, false)
    requires IsRun(Held(p, a), head.nonce(a), NextNonce(head.nonce, notes, a))
    ensures forall n :: n in Screened(q[a], head, maxGas, a).items ==> n >= NextNonce(head.nonce, notes, a)
  {
    hide Screened, CapsBound, Capped, Readied;
    ScreenFacts(q[a], head, maxGas, a, 0);
    var screened := Screened(q[a], head, maxGas, a).items;
    forall n | n in screened ensures n >= NextNonce(head.nonce, notes, a) {
      assert n in Forward(q[a], head.nonce(a)).items;
      assert n in Held(q, a);
    }
  }

  lemma {:induction false} RunExtends(held: Items, screened: Items, lo: nat, next: nat)
    requires IsRun(held, lo, next) && forall n :: n in screened ==> n >= next
    ensures var run := Executable(screened, next);
            && (run == map[] ==> IsRun(held + run, lo, next))
            && (run != map[] ==> Least(run.Keys) == next && IsRun(held + run, lo, next + |run|))
  {
    var run := Executable(screened, next);
    if run != map[] {
      ExecutableIsRun(screened, next);
      hide Executable;
      assert Least(run.Keys) == next;
    } else {
      assert held + run == held;
    }
  }

  /** What is promoted continues the account's pending run. */
  lemma {:induction false} PromotionKeepsRuns(p: Lists, q: Lists, notes: map<Address, nat>, p': Lists, q': Lists,
                                              notes': map<Address, nat>,
                           head: HeadState, maxGas: nat, allowance: Option<nat>, a: Address)
    requires a in q && AccountPromoted(p, q, notes, p', q', notes', head, maxGas, allowance, a)
    requires Apart(p, q) && Contiguous(p, head.nonce, notes) && ListOk(q[a], a, false)
    ensures Contiguous(p', head.nonce, notes')
  {
    hide Screened, CapsBound, Executable, Parked, Apart;
    var next := NextNonce(head.nonce, notes, a);
    var screened := Screened(q[a], head, maxGas, a).items;
    var run := Executable(screened, next);
    assert IsRun(Held(p, a), head.nonce(a), next);
    ScreenedAhead(p, q, notes, head, maxGas, a);
    RunExtends(Held(p, a), screened, head.nonce(a), next);
    assert Held(p', a) == Held(p, a) + run;
    ContiguousStep(p, p', head.nonce, notes, notes', a);
  }

  /** Every queued nonce of the account lies beyond its next nonce, so none is executable. */
  ghost predicate Waits(q: Lists, base: Address -> nat, notes: map<Address, nat>, a: Address) {
    forall n :: n in Held(q, a) ==> n > NextNonce(base, notes, a)
  }

  lemma {:induction false} CappedSubset(items: Items, k: nat)
    ensures SubItems(Capped(items, k), items)
  {
  }

  /** Nothing executable is left behind by a promotion. */
  lemma {:induction false} PromotionWaits(p: Lists, q: Lists, notes: map<Address, nat>, p': Lists, q': Lists,
                                          notes': map<Address, nat>,
                       head: HeadState, maxGas: nat, allowance: Option<nat>, a: Address)
    requires a in q && AccountPromoted(p, q, notes, p', q', notes', head, maxGas, allowance, a)
    requires Apart(p, q) && Contiguous(p, head.nonce, notes) && ListOk(q[a], a, false)
    ensures Waits(q', head.nonce, notes', a)
  {
    hide Extended, CapsBound, Capped;
    var next := NextNonce(head.nonce, notes, a);
    assert IsRun(Held(p, a), head.nonce(a), next);
    ScreenedAhead(p, q, notes, head, maxGas, a);
    hide Screened;
    var screened := Screened(q[a], head, maxGas, a).items;
    ReadiedWaits(screened, next);
    var left := Readied(screened, next);
    if allowance.Some? {
      CappedSubset(left, allowance.value);
    }
  }

  lemma {:induction false} OthersWait(q: Lists, q': Lists, base: Address -> nat, notes: map<Address, nat>,
                                      notes': map<Address, nat>, a: Address)
    requires forall b :: b != a ==> Held(q', b) == Held(q, b)
    requires forall b :: b != a ==> NextNonce(base, notes', b) == NextNonce(base, notes, b)
    ensures forall b :: b != a && Waits(q, base, notes, b) ==> Waits(q', base, notes', b)
  {
  }

  lemma {:induction false} NobodyWaits(q: Lists, base: Address -> nat, notes: map<Address, nat>, a: Address)
    requires a !in q
    ensures Waits(q, base, notes, a)
  {
  }

  /** Pending transactions stay, and everything newly pending or still queued was queued before. */
  ghost predicate Grows(p: Lists, q: Lists, p': Lists, q': Lists) {
    && (forall t :: Holds(p, t) ==> Holds(p', t))
    && (forall t :: Holds(p', t) ==> Holds(p, t) || Holds(q, t))
    && (forall t :: Holds(q', t) ==> Holds(q, t))
  }

  lemma {:induction false} GrowsRefl(p: Lists, q: Lists)
    ensures Grows(p, q, p, q)
  {
  }

  lemma {:induction false} GrowsMeans(p: Lists, q: Lists, p': Lists, q': Lists)
    requires Grows(p, q, p', q')
    ensures forall t :: Holds(p, t) ==> Holds(p', t)
    ensures forall t :: Holds(p', t) ==> Holds(p, t) || Holds(q, t)
    ensures forall t :: Holds(q', t) ==> Holds(q, t)
  {
  }

  lemma {:induction false} GrowsStep(p: Lists, q: Lists, p1: Lists, q1: Lists, p2: Lists, q2: Lists)
    requires Grows(p, q, p1, q1) && Grows(p1, q1, p2, q2)
    ensures Grows(p, q, p2, q2)
  {
    hide Holds;
  }

  lemma {:induction false} MoveGrows(p: Lists, q: Lists, p': Lists, a: Address, run: Items, l: List)
    requires a in q && OwnedBy(q[a].items, a) && Apart(p, q)
    requires Extended(p, p', a, run) && SubItems(run, q[a].items) && SubItems(l.items, q[a].items)
    ensures Grows(p, q, p', Store(q, a, l))
  {
    var q' := Store(q, a, l);
    assert forall b :: SubItems(Held(q', b), Held(q, b));
    assert forall n :: n in run ==> n in Held(q, a);
    assert Held(p', a) == Held(p, a) + run;
  }

  lemma {:induction false} PromotionGrows(p: Lists, q: Lists, notes: map<Address, nat>, p': Lists, q': Lists,
                                          notes': map<Address, nat>,
                       head: HeadState, maxGas: nat, allowance: Option<nat>, a: Address)
    requires a in q && AccountPromoted(p, q, notes, p', q', notes', head, maxGas, allowance, a)
    requires Apart(p, q) && ListOk(q[a], a, false)
    ensures Grows(p, q, p', q')
  {
    hide Screened, Filter, CapsBound, Extended, Grows, Apart, Readied, Capped;
    var next := NextNonce(head.nonce, notes, a);
    ScreenFacts(q[a], head, maxGas, a, next);
    var screened := Screened(q[a], head, maxGas, a);
    var parked := Parked(screened, next, allowance);
    assert SubItems(parked.items, q[a].items);
    MoveGrows(p, q, p', a, Executable(screened.items, next), parked);
  }
}
