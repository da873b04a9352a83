/** Filling a block from the pool's transactions (abey/pbft_agent.go), best price first and in nonce order for each
    account (core/types/transaction.go). */
module Packing {
  import opened Collections
  import opened Transactions
  import opened Intrinsic
  import opened Execution
  import opened Processor
  import opened PackingRuns
  import Heap

  predicate DearerFirst(a: Tx, b: Tx) { a.price > b.price }

  /** How many transactions wait behind the heads. */
  ghost function Waiting(txs: map<Address, seq<Tx>>): nat {
    if txs == map[] then 0 else var a :| a in txs; |txs[a]| + Waiting(txs - {a})
  }

  lemma {:induction false} WaitingSplit(txs: map<Address, seq<Tx>>, a: Address)
    requires a in txs
    ensures Waiting(txs) == |txs[a]| + Waiting(txs - {a})
  {
    var b :| b in txs && Waiting(txs) == |txs[b]| + Waiting(txs - {b});
    if a != b {
      WaitingSplit(txs - {b}, a);
      WaitingSplit(txs - {a}, b);
      assert txs - {a} - {b} == txs - {b} - {a};
    }
  }

  lemma {:induction false} OneLessWaits(txs: map<Address, seq<Tx>>, a: Address)
    requires a in txs && txs[a] != []
    ensures Waiting(txs[a := txs[a][1..]]) == Waiting(txs) - 1
  {
    hide Waiting;
    WaitingSplit(txs, a);
    WaitingSplit(txs[a := txs[a][1..]], a);
    assert txs[a := txs[a][1..]] - {a} == txs - {a};
  }

  /** A list kept under another address than its sender's moves there, over whatever was there. */
  lemma {:induction false} MovedLessWaits(txs: map<Address, seq<Tx>>, from: Address, acc: Address)
    requires from in txs && txs[from] != [] && from != acc
    ensures Waiting(txs[acc := txs[from][1..]] - {from}) < Waiting(txs)
  {
    hide Waiting;
    var rest := txs - {from};
    WaitingSplit(txs, from);
    assert txs[acc := txs[from][1..]] - {from} == rest[acc := txs[from][1..]];
    WaitingSplit(rest[acc := txs[from][1..]], acc);
    assert rest[acc := txs[from][1..]] - {acc} == rest - {acc};
    if acc in rest {
      WaitingSplit(rest, acc);
    } else {
      assert rest - {acc} == rest;
    }
  }

  /** Every list is under its sender's address and has a first transaction. */
  ghost predicate OwnLists(offers: map<Address, seq<Tx>>) {
    forall a :: a in offers ==> offers[a] != [] && offers[a][0].from == a
  }

  /** The lists once the first transactions of those outside `todo` are taken. */
  ghost function Tails(offers: map<Address, seq<Tx>>, todo: set<Address>): map<Address, seq<Tx>>
    requires forall a :: a in offers ==> offers[a] != []
  {
    map a | a in offers :: if a in todo then offers[a] else offers[a][1..]
  }

  /** The first transactions of the lists outside `todo`. */
  ghost predicate Firsts(offers: map<Address, seq<Tx>>, todo: set<Address>, firsts: seq<Tx>)
    requires forall a :: a in offers ==> offers[a] != []
  {
    && |firsts| + |todo| == |offers| && todo <= offers.Keys
    && (forall tx :: tx in firsts <==> exists a :: a in offers && a !in todo && tx == offers[a][0])
    && forall tx :: tx in firsts ==> multiset(firsts)[tx] == 1
  }

  lemma {:induction false} TakeOwn(offers: map<Address, seq<Tx>>, todo: set<Address>, firsts: seq<Tx>, a: Address)
    requires OwnLists(offers) && Firsts(offers, todo, firsts) && a in todo
    ensures var txs := Tails(offers, todo);
            && a in txs && txs[a] == offers[a] && Firsts(offers, todo - {a}, firsts + [offers[a][0]])
            && txs[a := offers[a][1..]] == Tails(offers, todo - {a})
  {
    var tx := offers[a][0];
    var more := firsts + [tx];
    forall t | t in firsts ensures t != tx {
      var b :| b in offers && b !in todo && t == offers[b][0];
    }
    assert multiset(more) == multiset(firsts) + multiset{tx};
    forall t ensures t in more <==> exists b :: b in offers && b !in todo - {a} && t == offers[b][0] {
      if t in more && t != tx {
        assert t in firsts;
        var b :| b in offers && b !in todo && t == offers[b][0];
        assert b !in todo - {a};
      }
      if b :| b in offers && b !in todo - {a} && t == offers[b][0] {
        assert b != a ==> t in firsts;
      }
    }
  }

  /** Takes the first transaction of every list, ranging over a map that changes meanwhile: an entry made on the way may
      or may not be come across. Fails on an empty list. */
  method TakeFirsts(offers: map<Address, seq<Tx>>) returns (ok: bool, firsts: seq<Tx>, txs: map<Address, seq<Tx>>)
    ensures OwnLists(offers) ==> ok && txs == Tails(offers, {}) && Firsts(offers, {}, firsts)
  {
    hide OwnLists, Firsts, Tails, Waiting;
    firsts, txs := [], offers;
    var todo := offers.Keys;
    if OwnLists(offers) {
      NoneTaken(offers);
    }
    while todo != {}
      invariant todo <= txs.Keys
      invariant OwnLists(offers) ==> todo <= offers.Keys && txs.Keys == offers.Keys
      invariant OwnLists(offers) ==> TakenOwn(offers, todo, firsts, txs)
      decreases Waiting(txs)
    {
      var from :| from in todo;
      var list := txs[from];
      if OwnLists(offers) {
        OwnFirst(offers, todo, firsts, txs, from);
      }
      if list == [] {
        return false, firsts, txs;
      }
      todo := todo - {from};
      firsts := firsts + [list[0]];
      var acc := list[0].from;
      if from == acc {
        OneLessWaits(txs, from);
      } else {
        MovedLessWaits(txs, from, acc);
      }
      var comeAcross := *;
      if acc !in txs && comeAcross {
        todo := todo + {acc};
      }
      txs := txs[acc := list[1..]];
      if from != acc {
        txs := txs - {from};
      }
    }
    if OwnLists(offers) {
      TakenMeans(offers, {}, firsts, txs);
    }
    ok := true;
  }

  ghost predicate TakenOwn(offers: map<Address, seq<Tx>>, todo: set<Address>, firsts: seq<Tx>,
                           txs: map<Address, seq<Tx>>)
  {
    OwnLists(offers) && txs == Tails(offers, todo) && Firsts(offers, todo, firsts)
  }

  lemma {:induction false} NoneTaken(offers: map<Address, seq<Tx>>)
    requires OwnLists(offers)
    ensures TakenOwn(offers, offers.Keys, [], offers)
  {
  }

  lemma {:induction false} TakenMeans(offers: map<Address, seq<Tx>>, todo: set<Address>, firsts: seq<Tx>,
                                      txs: map<Address, seq<Tx>>)
    requires TakenOwn(offers, todo, firsts, txs)
    ensures OwnLists(offers) && (forall a :: a in offers ==> offers[a] != [])
    ensures txs == Tails(offers, todo) && Firsts(offers, todo, firsts)
  {
  }

  lemma {:induction false} OwnFirst(offers: map<Address, seq<Tx>>, todo: set<Address>, firsts: seq<Tx>,
                                    txs: map<Address, seq<Tx>>, a: Address)
    requires TakenOwn(offers, todo, firsts, txs) && a in todo
    ensures a in txs && txs[a] != [] && txs[a][0].from == a
    ensures TakenOwn(offers, todo - {a}, firsts + [txs[a][0]], txs[a := txs[a][1..]])
  {
    TakeOwn(offers, todo, firsts, a);
  }

  lemma {:induction false} SameMembers(a: seq<Tx>, b: seq<Tx>)
    requires multiset(a) == multiset(b)
    ensures forall tx :: tx in a <==> tx in b
  {
    assert forall tx :: tx in a <==> tx in multiset(a);
    assert forall tx :: tx in b <==> tx in multiset(b);
  }

  /** The transactions on offer: the next one of each account, in a price heap, and those behind them. */
  class PriceAndNonceSource {
    var heads: seq<Tx>
    var txs: map<Address, seq<Tx>>

    ghost predicate Valid()
      reads this
    {
      Heap.Ordered(heads, DearerFirst)
    }

    ghost function Remaining(): nat
      reads this
    {
      |heads| + Waiting(txs)
    }

    constructor (firsts: seq<Tx>, txs: map<Address, seq<Tx>>)
      ensures Valid() && multiset(heads) == multiset(firsts) && this.txs == txs
    {
      var heap := Heap.Init(firsts, DearerFirst);
      heads, this.txs := heap, txs;
    }

    /** The dearest head, if any. */
    method Peek() returns (tx: Option<Tx>)
      requires Valid()
      ensures tx.None? <==> heads == []
      ensures tx.Some? ==> heads != [] && tx.value == heads[0] && forall t :: t in heads ==> t.price <= tx.value.price
    {
      if |heads| == 0 {
        return None;
      }
      Heap.RootIsMinimalForAll(heads, DearerFirst);
      assert forall t :: t in heads ==> !DearerFirst(t, heads[0]);
      return Some(heads[0]);
    }

    /** Replaces the dearest head by the next transaction of its account. */
    method Shift()
      requires Valid() && heads != []
      modifies this
      ensures Valid() && Remaining() == old(Remaining()) - 1
      ensures var a := old(heads)[0].from;
              if a in old(txs) && old(txs)[a] != []
              then multiset(heads) == multiset(old(heads)) - multiset{old(heads)[0]} + multiset{old(txs)[a][0]}
                   && txs == old(txs)[a := old(txs)[a][1..]]
              else multiset(heads) == multiset(old(heads)) - multiset{old(heads)[0]} && txs == old(txs)
    {
      hide Waiting, Heap.Ordered;
      var a := heads[0].from;
      if a in txs && |txs[a]| > 0 {
        OneLessWaits(txs, a);
        heads := Heap.FixRoot(heads, txs[a][0], DearerFirst);
        txs := txs[a := txs[a][1..]];
      } else {
        var x;
        heads, x := Heap.Pop(heads, DearerFirst);
      }
    }

    /** Gives up the account of the dearest head. */
    method Pop()
      requires Valid() && heads != []
      modifies this
      ensures Valid() && Remaining() == old(Remaining()) - 1
      ensures multiset(heads) == multiset(old(heads)) - multiset{old(heads)[0]} && txs == old(txs)
    {
      var x;
      heads, x := Heap.Pop(heads, DearerFirst);
    }
  }

  /** Puts the first transaction of every account in a price heap; fails where an account's list is empty. */
  method NewSource(offers: map<Address, seq<Tx>>) returns (source: Option<PriceAndNonceSource>)
    ensures source.Some? ==> fresh(source.value) && source.value.Valid()
    ensures OwnLists(offers) ==>
              && source.Some? && source.value.txs == Tails(offers, {})
              && Firsts(offers, {}, source.value.heads)
  {
    hide OwnLists, Tails, Heap.Ordered, Firsts;
    var ok, firsts, txs := TakeFirsts(offers);
    if !ok {
      return None;
    }
    var s := new PriceAndNonceSource(firsts, txs);
    if OwnLists(offers) {
      SameFirsts(offers, firsts, s.heads);
    }
    return Some(s);
  }

  lemma {:induction false} SameFirsts(offers: map<Address, seq<Tx>>, firsts: seq<Tx>, heads: seq<Tx>)
    requires OwnLists(offers) && Firsts(offers, {}, firsts) && multiset(heads) == multiset(firsts)
    ensures Firsts(offers, {}, heads)
  {
    SameMembers(heads, firsts);
    assert |multiset(heads)| == |multiset(firsts)|;
  }

  /** Replaying the packed transactions gives the packer's state, totals and receipts; only the gas pool may be fuller,
      because a message that fails after its gas was bought does not give that gas back. */
  ghost predicate Replays(ch: Chain, h: Header, start: World, packed: Session, txs: seq<Tx>, receipts: seq<Receipt>) {
    var r := Replay(ch, h, Session(start, h.gasLimit, 0, 0), txs);
    && r.Accepted? && r.receipts == receipts
    && r.session == packed.(pool := r.session.pool) && packed.pool <= r.session.pool
  }

  /** A transaction that the packer takes is one that the replay takes, with the same effect. */
  lemma {:induction false} PackStep(ch: Chain, h: Header, start: World, packed: Session, txs: seq<Tx>,
                                    receipts: seq<Receipt>, tx: Tx)
    requires Replays(ch, h, start, packed, txs, receipts)
    requires Apply(ch, h, packed, tx, |txs|).Taken?
    ensures var step := Apply(ch, h, packed, tx, |txs|);
            Replays(ch, h, start, step.session, txs + [tx], receipts + [step.receipt])
  {
    hide Transition;
    var r := Replay(ch, h, Session(start, h.gasLimit, 0, 0), txs);
    assert (txs + [tx])[..|txs|] == txs;
    var c := Context(h.number, h.gasLimit, h.details, |txs|);
    PoolMonotone(ch.evm, c, packed.world, packed.pool, r.session.pool, tx);
  }

  /** In a block that replays, gas used and gas left in the packer's pool together never exceed the limit. */
  lemma {:induction false} GasWithinLimit(ch: Chain, h: Header, start: World, packed: Session, txs: seq<Tx>,
                                          receipts: seq<Receipt>)
    requires Replays(ch, h, start, packed, txs, receipts)
    ensures packed.used + packed.pool <= h.gasLimit && packed.used == TotalGas(receipts) && |receipts| == |txs|
  {
    ReplayConserves(ch, h, Session(start, h.gasLimit, 0, 0), txs);
  }

  class AgentWork {
    const ch: Chain
    const header: Header
    const db: StateDB
    const tally: Tally
    const gasPool: GasPool
    var txs: seq<Tx>
    var receipts: seq<Receipt>
    var tcount: nat
    ghost const start: World

    /** What is packed so far replays from the parent's state. */
    ghost predicate Valid()
      reads this, db, tally, gasPool
    {
      && header.gasLimit <= MAX_UINT64 && tcount == |txs|
      && Replays(ch, header, start, SessionOf(db, gasPool, tally), txs, receipts)
    }

    constructor (ch: Chain, header: Header, parent: World)
      requires header.gasLimit <= MAX_UINT64
      ensures Valid() && fresh(db) && fresh(tally) && fresh(gasPool)
      ensures start == parent && this.ch == ch && this.header == header && txs == [] && receipts == []
      ensures tally.usedGas == 0 && gasPool.gas == header.gasLimit
    {
      this.ch, this.header, start := ch, header, parent;
      db := new StateDB(parent);
      tally := new Tally();
      gasPool := new GasPool(header.gasLimit);
      txs, receipts, tcount := [], [], 0;
    }

    /** Tries one transaction; if it fails, the state goes back to what it was, but the gas pool does not. */
    method CommitTransaction(tx: Tx) returns (error: Option<ExecError>)
      requires Valid()
      modifies this, db, tally, gasPool
      ensures header.gasLimit <= MAX_UINT64
      ensures Replays(ch, header, start, SessionOf(db, gasPool, tally), txs, receipts)
      ensures var packed := old(SessionOf(db, gasPool, tally));
              var step := Apply(ch, header, packed, tx, |old(txs)|);
              && error == ErrorOf(step)
              && txs == (if step.Taken? then old(txs) + [tx] else old(txs))
              && receipts == (if step.Taken? then old(receipts) + [step.receipt] else old(receipts))
              && SessionOf(db, gasPool, tally) == if step.Taken? then step.session else packed.(pool := step.pool)
      ensures tcount == old(tcount)
    {
      hide Replays, Transition, Replay, Apply;
      ghost var packed := SessionOf(db, gasPool, tally);
      GasWithinLimit(ch, header, start, packed, txs, receipts);
      var snapshot := db.world;
      if Apply(ch, header, packed, tx, |txs|).Taken? {
        PackStep(ch, header, start, packed, txs, receipts, tx);
      } else {
        DropKeepsReplay(ch, header, start, packed, txs, receipts, tx);
      }
      var r := ApplyTransaction(ch, header, gasPool, db, tally, tx, tcount);
      if r.Excluded? {
        db.world := snapshot;
        return Some(r.error);
      }
      txs := txs + [tx];
      receipts := receipts + [r.receipt];
      return None;
    }

    ghost function View(source: PriceAndNonceSource): PackState
      reads this, db, tally, gasPool, source
    {
      PackState(multiset(source.heads), source.txs, SessionOf(db, gasPool, tally), txs)
    }

    /** Tries a dearest head and moves the offers on: to the account's next transaction, or past the account where that
        cannot be executed either. */
    method TryHead(source: PriceAndNonceSource, tx: Tx) returns (ghost attempt: Attempt)
      requires Valid() && source.Valid() && gasPool.gas >= TX_GAS
      requires source.heads != [] && tx == source.heads[0] && forall t :: t in source.heads ==> t.price <= tx.price
      modifies this, db, tally, gasPool, source
      ensures Valid() && source.Valid() && source.Remaining() < old(source.Remaining())
      ensures attempt == Attempt(old(View(source)), tx, View(source)) && IsAttempt(ch, header, attempt)
      ensures var acc := tx.from;
              var rest := multiset(old(source.heads)) - multiset{tx};
              if !Stuck(ch, header, attempt) && acc in old(source.txs) && old(source.txs)[acc] != []
              then && multiset(source.heads) == rest + multiset{old(source.txs)[acc][0]}
                   && source.txs == old(source.txs)[acc := old(source.txs)[acc][1..]]
              else multiset(source.heads) == rest && source.txs == old(source.txs)
    {
      hide Replays, Attempted, IsAttempt, Apply, Waiting, Heap.Ordered, DearerFirst, Stuck;
      ghost var before := View(source);
      assert forall t :: t in before.heads ==> t in source.heads;
      var error := CommitTransaction(tx);
      if error == Some(GasLimitReached) {
        source.Pop();
      } else if error == Some(ExecError.NonceTooLow) {
        source.Shift();
      } else if error == Some(NonceTooHigh) {
        source.Pop();
      } else if error == None {
        tcount := tcount + 1;
        source.Shift();
      } else {
        source.Shift();
      }
      AttemptMade(ch, header, before, tx, error, View(source));
      attempt := Attempt(before, tx, View(source));
      OffersMove(ch, header, attempt);
    }

    /** Packs transactions until too little gas is left for any or nothing is on offer. `attempts` is the run: every
        attempt was made on a dearest head, had the effect that applying it has, and moved the offers on accordingly. */
    method CommitTransactions(source: PriceAndNonceSource) returns (ghost attempts: seq<Attempt>)
      requires Valid() && source.Valid()
      modifies this, db, tally, gasPool, source
      ensures Valid() && source.Valid()
      ensures IsRun(ch, header, old(View(source)), attempts, View(source))
      ensures gasPool.gas < TX_GAS || source.heads == []
      ensures tally.usedGas + gasPool.gas <= header.gasLimit
      ensures tally.usedGas + gasPool.gas + Wasted(ch, header, attempts) == old(tally.usedGas + gasPool.gas)
      ensures tally.usedGas + gasPool.gas == old(tally.usedGas + gasPool.gas) <==>
              forall i :: 0 <= i < |attempts| ==> !Wastes(ch, header, attempts[i])
      ensures Orderly(old(View(source))) && Led(old(View(source))) ==>
                && (gasPool.gas >= TX_GAS ==>
                      forall t :: OnOffer(old(View(source)), t) ==>
                                  Tried(attempts, t) || Blocked(ch, header, attempts, t))
                && forall i, j :: 0 <= i < j < |attempts| && Stuck(ch, header, attempts[i]) ==>
                                  attempts[j].tx.from != attempts[i].tx.from
    {
      hide Replays, IsRun, IsAttempt, Wastes, Wasted, Waiting, Heap.Ordered, DearerFirst;
      hide Orderly, Led, OnOffer, Tried, Blocked, Stuck;
      attempts := [];
      EmptyRun(ch, header, View(source));
      while true
        invariant Valid() && source.Valid()
        invariant IsRun(ch, header, old(View(source)), attempts, View(source))
        decreases source.Remaining()
      {
        if gasPool.gas < TX_GAS {
          break;
        }
        var tx := source.Peek();
        if tx.None? {
          break;
        }
        ghost var attempt := TryHead(source, tx.value);
        ExtendRun(ch, header, old(View(source)), attempts, attempt);
        attempts := attempts + [attempt];
      }
      GasWithinLimit(ch, header, start, SessionOf(db, gasPool, tally), txs, receipts);
      RunConserves(ch, header, old(View(source)), attempts, View(source));
      NothingWasted(ch, header, attempts);
      if Orderly(old(View(source))) && Led(old(View(source))) {
        OffersTried(ch, header, old(View(source)), attempts, View(source));
      }
    }
  }

  lemma {:induction false} DropKeepsReplay(ch: Chain, h: Header, start: World, packed: Session, txs: seq<Tx>,
                                           receipts: seq<Receipt>, tx: Tx)
    requires Replays(ch, h, start, packed, txs, receipts)
    requires Apply(ch, h, packed, tx, |txs|).Rejected?
    ensures var step := Apply(ch, h, packed, tx, |txs|);
            step.pool <= packed.pool && Replays(ch, h, start, packed.(pool := step.pool), txs, receipts)
  {
    hide Transition, Replay;
    FailureKeepsGas(ch.evm, Context(h.number, h.gasLimit, h.details, |txs|), packed.world, packed.pool, tx);
  }

  /** A validator that processes a packed block on the parent's state accepts it, with the packer's own results. */
  method ValidatePacked(work: AgentWork, db: StateDB) returns (r: BlockResult)
    requires work.Valid() && db != work.db && db.world == work.start
    modifies db
    ensures r == Processed(work.receipts, work.tally.usedGas, work.tally.feeAmount) && db.world == work.db.world
  {
    hide Replay;
    r := Process(work.ch, work.header, work.txs, db);
  }

  /** All accounts' lists are theirs, not empty and in nonce order. */
  ghost predicate OrderlyOffers(offers: map<Address, seq<Tx>>) {
    forall a :: a in offers ==> offers[a] != [] && InLine(offers[a], a)
  }

  /** The heads and tails of such lists are in order. */
  lemma {:induction false} OffersInOrder(offers: map<Address, seq<Tx>>, heads: seq<Tx>, s: PackState)
    requires OrderlyOffers(offers) && OwnLists(offers) && Firsts(offers, {}, heads)
    requires s.heads == multiset(heads) && s.waiting == Tails(offers, {})
    ensures Orderly(s) && Led(s)
  {
    hide InLine, Firsts;
    FirstsMean(offers, heads);
    forall a | a in offers ensures InLine(s.waiting[a], a) {
      TailInLine(offers[a], a);
    }
    forall h, t | h in s.heads && h.from in s.waiting && t in s.waiting[h.from] ensures h.nonce < t.nonce {
      TailInLine(offers[h.from], h.from);
    }
  }

  lemma {:induction false} AllOnOffer(offers: map<Address, seq<Tx>>, heads: seq<Tx>, s: PackState)
    requires OrderlyOffers(offers) && OwnLists(offers) && Firsts(offers, {}, heads)
    requires s.heads == multiset(heads) && s.waiting == Tails(offers, {})
    ensures forall a, t :: a in offers && t in offers[a] ==> OnOffer(s, t)
  {
    hide InLine, Firsts;
    FirstsMean(offers, heads);
    forall a, t | a in offers && t in offers[a] ensures OnOffer(s, t) {
      TailInLine(offers[a], a);
    }
  }

  lemma {:induction false} FirstsMean(offers: map<Address, seq<Tx>>, heads: seq<Tx>)
    requires OwnLists(offers) && Firsts(offers, {}, heads)
    ensures forall a :: a in offers ==> offers[a][0] in multiset(heads)
    ensures forall t :: t in multiset(heads) ==>
              t.from in offers && t == offers[t.from][0] && multiset(heads)[t] == 1
  {
    forall t | t in multiset(heads)
      ensures t.from in offers && t == offers[t.from][0] && multiset(heads)[t] == 1
    {
      assert t in heads;
      var a :| a in offers && t == offers[a][0];
    }
  }

  lemma {:induction false} TailInLine(line: seq<Tx>, a: Address)
    requires line != [] && InLine(line, a)
    ensures InLine(line[1..], a)
    ensures forall t :: t in line ==> t.from == a && (t == line[0] || t in line[1..])
    ensures forall t :: t in line[1..] ==> line[0].nonce < t.nonce
  {
    LineRises(line, a);
    assert line == [line[0]] + line[1..];
  }

  /** Puts the offers in a price heap and packs from it. If the lists are in order and the gas lasts, every transaction
      on them has been tried, or is behind one of its account that was stuck. */
  method PackOffers(work: AgentWork, offers: map<Address, seq<Tx>>) returns (ok: bool, ghost attempts: seq<Attempt>)
    requires work.Valid()
    modifies work, work.db, work.tally, work.gasPool
    ensures work.Valid()
    ensures OrderlyOffers(offers) ==>
              && ok
              && (work.gasPool.gas >= TX_GAS ==>
                    forall a, t :: a in offers && t in offers[a] ==>
                      Tried(attempts, t) || Blocked(work.ch, work.header, attempts, t))
  {
    hide OrderlyOffers, Orderly, Led, OnOffer, Tried, Blocked, Tails, Firsts, OwnLists, Replays, IsRun, Wastes, Stuck;
    attempts := [];
    if OrderlyOffers(offers) {
      OrderlyIsOwn(offers);
    }
    var source := NewSource(offers);
    if source.None? {
      return false, attempts;
    }
    if OrderlyOffers(offers) {
      OffersInOrder(offers, source.value.heads, work.View(source.value));
      AllOnOffer(offers, source.value.heads, work.View(source.value));
    }
    attempts := work.CommitTransactions(source.value);
    ok := true;
  }

  lemma {:induction false} OrderlyIsOwn(offers: map<Address, seq<Tx>>)
    requires OrderlyOffers(offers)
    ensures OwnLists(offers)
  {
  }
}
