/** Runs of the packing loop (abey/pbft_agent.go): what each attempt does to the block and to the offers, where the gas
    goes, and which offers are tried. */
module PackingRuns {
  import opened Collections
  import opened Transactions
  import opened Intrinsic
  import opened Execution
  import opened Processor

  /** The offers, the packer's session and what is packed. */
  datatype PackState = PackState(heads: multiset<Tx>, waiting: map<Address, seq<Tx>>, session: Session, txs: seq<Tx>)

  datatype Attempt = Attempt(before: PackState, tx: Tx, after: PackState)

  function ErrorOf(step: Step): Option<ExecError> {
    if step.Taken? then None else Some(step.error)
  }

  /** After these errors the rest of the account is not tried either. */
  predicate GivesUp(error: Option<ExecError>) {
    error == Some(GasLimitReached) || error == Some(NonceTooHigh)
  }

  /** The effect of one attempt: on the session, on the block and on the offers. */
  function Attempted(ch: Chain, h: Header, s: PackState, tx: Tx): PackState {
    var step := Apply(ch, h, s.session, tx, |s.txs|);
    var more := !GivesUp(ErrorOf(step)) && tx.from in s.waiting && s.waiting[tx.from] != [];
    PackState(s.heads - multiset{tx} + (if more then multiset{s.waiting[tx.from][0]} else multiset{}),
              if more then s.waiting[tx.from := s.waiting[tx.from][1..]] else s.waiting,
              if step.Taken? then step.session else s.session.(pool := step.pool),
              if step.Taken? then s.txs + [tx] else s.txs)
  }

  ghost predicate IsAttempt(ch: Chain, h: Header, a: Attempt) {
    && a.before.session.pool >= TX_GAS
    && a.tx in a.before.heads && (forall t :: t in a.before.heads ==> t.price <= a.tx.price)
    && a.after == Attempted(ch, h, a.before, a.tx)
  }

  /** The attempts lead from one state to the other. */
  ghost predicate IsRun(ch: Chain, h: Header, first: PackState, attempts: seq<Attempt>, last: PackState) {
    && (forall i :: 0 <= i < |attempts| ==> IsAttempt(ch, h, attempts[i]))
    && (forall i :: 0 <= i < |attempts| - 1 ==> attempts[i].after == attempts[i + 1].before)
    && (if attempts == [] then first == last
        else first == attempts[0].before && attempts[|attempts| - 1].after == last)
  }

  lemma {:induction false} EmptyRun(ch: Chain, h: Header, s: PackState)
    ensures IsRun(ch, h, s, [], s)
  {
  }

  lemma {:induction false} ExtendRun(ch: Chain, h: Header, first: PackState, attempts: seq<Attempt>, a: Attempt)
    requires IsRun(ch, h, first, attempts, a.before) && IsAttempt(ch, h, a)
    ensures IsRun(ch, h, first, attempts + [a], a.after)
  {
    hide IsAttempt;
  }

  lemma {:induction false} AttemptMade(ch: Chain, h: Header, before: PackState, tx: Tx, error: Option<ExecError>,
                                       after: PackState)
    requires before.session.pool >= TX_GAS && tx in before.heads
    requires forall t :: t in before.heads ==> t.price <= tx.price
    requires var step := Apply(ch, h, before.session, tx, |before.txs|);
             && error == ErrorOf(step)
             && after.txs == (if step.Taken? then before.txs + [tx] else before.txs)
             && after.session == (if step.Taken? then step.session else before.session.(pool := step.pool))
    requires if !GivesUp(error) && tx.from in before.waiting && before.waiting[tx.from] != []
             then after.heads == before.heads - multiset{tx} + multiset{before.waiting[tx.from][0]}
                  && after.waiting == before.waiting[tx.from := before.waiting[tx.from][1..]]
             else after.heads == before.heads - multiset{tx} && after.waiting == before.waiting
    ensures IsAttempt(ch, h, Attempt(before, tx, after))
  {
    hide Apply;
    assert before.heads - multiset{tx} + multiset{} == before.heads - multiset{tx};
  }

  // ----- where the gas goes -----

  /** The attempt is made with a message that loses the gas it bought. */
  predicate Wastes(ch: Chain, h: Header, a: Attempt) {
    && ch.recoverable(a.tx) && !(h.number > BARRED_AFTER && a.tx.from in ch.barred)
    && LosesGas(a.before.session.world, a.before.session.pool, a.tx)
  }

  /** The gas bought by the attempts that lose it. */
  function Wasted(ch: Chain, h: Header, attempts: seq<Attempt>): nat {
    if attempts == [] then 0
    else
      var a := attempts[|attempts| - 1];
      Wasted(ch, h, attempts[..|attempts| - 1]) + if Wastes(ch, h, a) then a.tx.gas else 0
  }

  lemma {:induction false} AttemptConserves(ch: Chain, h: Header, a: Attempt)
    requires IsAttempt(ch, h, a)
    ensures var before, after := a.before.session, a.after.session;
            after.used + after.pool + (if Wastes(ch, h, a) then a.tx.gas else 0) == before.used + before.pool
  {
    hide Transition;
    var s := a.before.session;
    GasLostExactly(ch.evm, Context(h.number, h.gasLimit, h.details, |a.before.txs|), s.world, s.pool, a.tx);
  }

  /** Over any run of the packing rules gas used, gas left and gas wasted add up. */
  lemma {:induction false} RunConserves(ch: Chain, h: Header, first: PackState, attempts: seq<Attempt>, last: PackState)
    requires IsRun(ch, h, first, attempts, last)
    ensures last.session.used + last.session.pool + Wasted(ch, h, attempts) == first.session.used + first.session.pool
    decreases |attempts|
  {
    hide IsAttempt, Wastes;
    if attempts != [] {
      var n := |attempts| - 1;
      AttemptConserves(ch, h, attempts[n]);
      RunConserves(ch, h, first, attempts[..n], attempts[n].before);
    }
  }

  /** Nothing is wasted exactly when no attempt loses gas. */
  lemma {:induction false} NothingWasted(ch: Chain, h: Header, attempts: seq<Attempt>)
    ensures Wasted(ch, h, attempts) == 0 <==> forall i :: 0 <= i < |attempts| ==> !Wastes(ch, h, attempts[i])
    decreases |attempts|
  {
    if attempts != [] {
      var n := |attempts| - 1;
      NothingWasted(ch, h, attempts[..n]);
      assert forall i :: 0 <= i < n ==> attempts[..n][i] == attempts[i];
    }
  }

  // ----- which offers are tried -----

  ghost predicate OnOffer(s: PackState, t: Tx) {
    t in s.heads || (t.from in s.waiting && t in s.waiting[t.from])
  }

  /** All from one account, with rising nonces. */
  ghost predicate InLine(txs: seq<Tx>, a: Address) {
    && (forall i :: 0 <= i < |txs| ==> txs[i].from == a)
    && forall i, j :: 0 <= i < j < |txs| ==> txs[i].nonce < txs[j].nonce
  }

  /** At most one transaction of each account is a head, and those behind it follow in nonce order. */
  ghost predicate Orderly(s: PackState) {
    && (forall a :: a in s.waiting ==> InLine(s.waiting[a], a))
    && (forall h, t :: h in s.heads && h.from in s.waiting && t in s.waiting[h.from] ==> h.nonce < t.nonce)
    && OnePerAccount(s.heads)
  }

  ghost predicate OnePerAccount(heads: multiset<Tx>) {
    && (forall h :: h in heads ==> heads[h] == 1)
    && (forall h, g :: h in heads && g in heads && h.from == g.from ==> h == g)
  }

  lemma {:induction false} NextHead(heads: multiset<Tx>, tx: Tx, next: Tx)
    requires OnePerAccount(heads) && tx in heads && tx.from == next.from
    ensures var moved := heads - multiset{tx} + multiset{next};
            && OnePerAccount(moved)
            && forall h :: h in moved ==> h == next || (h in heads && h.from != tx.from)
  {
    assert forall h :: h in heads - multiset{tx} ==> h in heads && h != tx;
  }

  ghost predicate HasHead(s: PackState, a: Address) {
    exists h :: h in s.heads && h.from == a
  }

  /** Where transactions wait, there is a head before them. */
  ghost predicate Led(s: PackState) {
    forall a :: a in s.waiting && s.waiting[a] != [] ==> HasHead(s, a)
  }

  /** The transaction cannot be executed yet, and with it none behind it: its nonce is too high, or it is the next one,
      its gas can be paid for, and the pool has too little. */
  ghost predicate Stuck(ch: Chain, h: Header, a: Attempt) {
    var w, tx := a.before.session.world, a.tx;
    && ch.recoverable(tx) && (h.number <= 6638000 || tx.from !in ch.barred)
    && (|| tx.nonce > w.Nonce(tx.from)
        || (&& tx.nonce == w.Nonce(tx.from) && tx.gas > a.before.session.pool
            && w.Balance(if tx.payer == EMPTY_ADDRESS then tx.from else tx.payer) >= tx.gas * tx.price))
  }

  lemma {:induction false} StuckExact(ch: Chain, h: Header, a: Attempt)
    ensures GivesUp(ErrorOf(Apply(ch, h, a.before.session, a.tx, |a.before.txs|))) <==> Stuck(ch, h, a)
  {
  }

  ghost predicate Tried(attempts: seq<Attempt>, t: Tx) {
    exists i :: 0 <= i < |attempts| && attempts[i].tx == t
  }

  /** An earlier transaction of the same account was tried and was stuck. */
  ghost predicate Blocked(ch: Chain, h: Header, attempts: seq<Attempt>, t: Tx) {
    exists i :: 0 <= i < |attempts| && attempts[i].tx.from == t.from && attempts[i].tx.nonce < t.nonce
                && Stuck(ch, h, attempts[i])
  }

  /** What one attempt does to the offers, by whether it is stuck. */
  lemma {:induction false} OffersMove(ch: Chain, h: Header, a: Attempt)
    requires IsAttempt(ch, h, a)
    ensures var acc := a.tx.from;
            var rest := a.before.heads - multiset{a.tx};
            if !Stuck(ch, h, a) && acc in a.before.waiting && a.before.waiting[acc] != []
            then && a.after.heads == rest + multiset{a.before.waiting[acc][0]}
                 && a.after.waiting == a.before.waiting[acc := a.before.waiting[acc][1..]]
            else a.after.heads == rest && a.after.waiting == a.before.waiting
  {
    hide Apply, GivesUp, Stuck;
    StuckExact(ch, h, a);
    assert a.before.heads - multiset{a.tx} + multiset{} == a.before.heads - multiset{a.tx};
  }

  lemma {:induction false} TriedHead(ch: Chain, h: Header, a: Attempt)
    requires IsAttempt(ch, h, a)
    ensures a.tx in a.before.heads
  {
  }

  /** The head leaves, and the next transaction of its account, if any, takes its place. */
  lemma {:induction false} ShiftOrderly(s: PackState, tx: Tx, s': PackState)
    requires Orderly(s) && tx in s.heads && tx.from in s.waiting && s.waiting[tx.from] != []
    requires s'.heads == s.heads - multiset{tx} + multiset{s.waiting[tx.from][0]}
    requires s'.waiting == s.waiting[tx.from := s.waiting[tx.from][1..]]
    ensures Orderly(s')
  {
    var acc := tx.from;
    var line := s.waiting[acc];
    assert InLine(line, acc);
    assert InLine(line[1..], acc);
    NextHead(s.heads, tx, line[0]);
    hide InLine, OnePerAccount;
    LineRises(line, acc);
  }

  lemma {:induction false} LineRises(line: seq<Tx>, a: Address)
    requires InLine(line, a) && line != []
    ensures forall t :: t in line[1..] ==> t in line && line[0].nonce < t.nonce
  {
  }

  lemma {:induction false} PopOrderly(s: PackState, tx: Tx, s': PackState)
    requires Orderly(s) && s'.heads == s.heads - multiset{tx} && s'.waiting == s.waiting
    ensures Orderly(s')
  {
  }

  lemma {:induction false} StaysOrderly(ch: Chain, h: Header, a: Attempt)
    requires IsAttempt(ch, h, a) && Orderly(a.before)
    ensures Orderly(a.after)
  {
    hide IsAttempt, Stuck, Orderly;
    OffersMove(ch, h, a);
    TriedHead(ch, h, a);
    var acc := a.tx.from;
    if !Stuck(ch, h, a) && acc in a.before.waiting && a.before.waiting[acc] != [] {
      ShiftOrderly(a.before, a.tx, a.after);
    } else {
      PopOrderly(a.before, a.tx, a.after);
    }
  }

  /** No offer goes away but the one that is tried. */
  lemma {:induction false} OffersStay(ch: Chain, h: Header, a: Attempt, t: Tx)
    requires IsAttempt(ch, h, a) && Orderly(a.before) && OnOffer(a.before, t)
    ensures t == a.tx || OnOffer(a.after, t)
  {
    hide IsAttempt, Stuck;
    OffersMove(ch, h, a);
    TriedHead(ch, h, a);
    var acc := a.tx.from;
    if acc in a.before.waiting && a.before.waiting[acc] != [] && t in a.before.waiting[acc] {
      var line := a.before.waiting[acc];
      assert line == [line[0]] + line[1..];
    }
  }

  /** An account that has a head keeps one until nothing of it waits, unless it is stuck. */
  lemma {:induction false} StaysLed(ch: Chain, h: Header, a: Attempt, t: Tx)
    requires IsAttempt(ch, h, a) && Orderly(a.before)
    requires t.from in a.after.waiting && t in a.after.waiting[t.from]
    ensures t.from in a.before.waiting && t in a.before.waiting[t.from]
    ensures HasHead(a.before, t.from) ==>
              HasHead(a.after, t.from) || (Stuck(ch, h, a) && a.tx.from == t.from && a.tx.nonce < t.nonce)
  {
    hide IsAttempt, Stuck;
    OffersMove(ch, h, a);
    TriedHead(ch, h, a);
    if HasHead(a.before, t.from) {
      var g :| g in a.before.heads && g.from == t.from;
      if a.tx.from != t.from {
        assert g in a.after.heads;
      } else if !Stuck(ch, h, a) {
        assert a.before.waiting[t.from][0] in a.after.heads;
        assert InLine(a.before.waiting[t.from], t.from);
      }
    }
  }

  /** An account without a head gets none, and a stuck one loses its head. */
  lemma {:induction false} StaysHeadless(ch: Chain, h: Header, a: Attempt, acc: Address)
    requires IsAttempt(ch, h, a) && Orderly(a.before)
    ensures !HasHead(a.before, acc) || (Stuck(ch, h, a) && a.tx.from == acc) ==> !HasHead(a.after, acc)
  {
    hide IsAttempt, Stuck;
    OffersMove(ch, h, a);
    TriedHead(ch, h, a);
    var next := a.tx.from;
    if next in a.before.waiting && a.before.waiting[next] != [] {
      assert InLine(a.before.waiting[next], next);
    }
  }

  /** Along a run, every transaction on offer has been tried, is still on offer, or waits behind one that is stuck. */
  ghost predicate Tracked(ch: Chain, h: Header, first: PackState, attempts: seq<Attempt>, s: PackState) {
    && Orderly(s)
    && (forall t :: OnOffer(first, t) ==> Tried(attempts, t) || OnOffer(s, t) || Blocked(ch, h, attempts, t))
    && (forall t: Tx :: t.from in s.waiting && t in s.waiting[t.from] ==>
                    HasHead(s, t.from) || Blocked(ch, h, attempts, t))
    && (forall i :: 0 <= i < |attempts| && Stuck(ch, h, attempts[i]) ==> !HasHead(s, attempts[i].tx.from))
  }

  lemma {:induction false} TrackedStart(ch: Chain, h: Header, s: PackState)
    requires Orderly(s) && Led(s)
    ensures Tracked(ch, h, s, [], s)
  {
    hide Orderly;
  }

  lemma {:induction false} MoreAttempts(ch: Chain, h: Header, attempts: seq<Attempt>, a: Attempt, t: Tx)
    ensures Tried(attempts, t) || t == a.tx ==> Tried(attempts + [a], t)
    ensures Blocked(ch, h, attempts, t) ==> Blocked(ch, h, attempts + [a], t)
    ensures Stuck(ch, h, a) && a.tx.from == t.from && a.tx.nonce < t.nonce ==> Blocked(ch, h, attempts + [a], t)
  {
    hide Stuck;
    var all := attempts + [a];
    assert all[|attempts|] == a;
    if Tried(attempts, t) {
      var i :| 0 <= i < |attempts| && attempts[i].tx == t;
      assert all[i].tx == t;
    }
    if Blocked(ch, h, attempts, t) {
      var i :| 0 <= i < |attempts| && attempts[i].tx.from == t.from && attempts[i].tx.nonce < t.nonce
               && Stuck(ch, h, attempts[i]);
      assert all[i] == attempts[i];
    }
  }

  lemma {:induction false} TrackedStep(ch: Chain, h: Header, first: PackState, attempts: seq<Attempt>, a: Attempt)
    requires Tracked(ch, h, first, attempts, a.before) && IsAttempt(ch, h, a)
    ensures Tracked(ch, h, first, attempts + [a], a.after)
  {
    hide IsAttempt, Orderly, OnOffer, HasHead, Tried, Blocked, Stuck;
    var all, s := attempts + [a], a.after;
    StaysOrderly(ch, h, a);
    forall t | OnOffer(first, t) ensures Tried(all, t) || OnOffer(s, t) || Blocked(ch, h, all, t) {
      MoreAttempts(ch, h, attempts, a, t);
      if OnOffer(a.before, t) {
        OffersStay(ch, h, a, t);
      }
    }
    forall t: Tx | t.from in s.waiting && t in s.waiting[t.from]
      ensures HasHead(s, t.from) || Blocked(ch, h, all, t)
    {
      MoreAttempts(ch, h, attempts, a, t);
      StaysLed(ch, h, a, t);
    }
    forall i | 0 <= i < |all| && Stuck(ch, h, all[i]) ensures !HasHead(s, all[i].tx.from) {
      assert i < |attempts| ==> all[i] == attempts[i];
      StaysHeadless(ch, h, a, all[i].tx.from);
    }
  }

  lemma {:induction false} RunTracked(ch: Chain, h: Header, first: PackState, attempts: seq<Attempt>, last: PackState)
    requires IsRun(ch, h, first, attempts, last) && Orderly(first) && Led(first)
    ensures Tracked(ch, h, first, attempts, last)
    decreases |attempts|
  {
    hide IsAttempt, Tracked, Orderly, Led;
    if attempts == [] {
      TrackedStart(ch, h, first);
    } else {
      var n := |attempts| - 1;
      RunTracked(ch, h, first, attempts[..n], attempts[n].before);
      TrackedStep(ch, h, first, attempts[..n], attempts[n]);
      assert attempts[..n] + [attempts[n]] == attempts;
    }
  }

  /** A run that ends for want of offers has tried every transaction on offer, except those behind one of the same
      account that was stuck when it was tried. */
  lemma {:induction false} EveryOfferTried(ch: Chain, h: Header, first: PackState, attempts: seq<Attempt>,
                                           last: PackState, t: Tx)
    requires IsRun(ch, h, first, attempts, last) && Orderly(first) && Led(first) && last.heads == multiset{}
    requires OnOffer(first, t)
    ensures Tried(attempts, t) || Blocked(ch, h, attempts, t)
  {
    hide IsRun, Orderly, Led, Tried, Blocked;
    RunTracked(ch, h, first, attempts, last);
  }

  /** After a stuck transaction no other one of its account is tried. */
  lemma {:induction false} NoneBehindStuck(ch: Chain, h: Header, first: PackState, attempts: seq<Attempt>,
                                           last: PackState, i: nat, j: nat)
    requires IsRun(ch, h, first, attempts, last) && Orderly(first) && Led(first)
    requires i < j < |attempts| && Stuck(ch, h, attempts[i])
    ensures attempts[j].tx.from != attempts[i].tx.from
  {
    hide IsAttempt, Orderly, Led, Stuck, OnOffer;
    var before := attempts[..j];
    assert before[i] == attempts[i];
    RunTracked(ch, h, first, before, attempts[j].before);
    TriedHead(ch, h, attempts[j]);
  }

  /** However many outdated transactions an account's list starts with, the one with the account's next nonce is
      tried, in a run that ends for want of offers and in which that nonce does not fall. */
  lemma {:induction false} CurrentTried(ch: Chain, h: Header, first: PackState, attempts: seq<Attempt>,
                                        last: PackState, t: Tx)
    requires IsRun(ch, h, first, attempts, last) && Orderly(first) && Led(first) && last.heads == multiset{}
    requires OnOffer(first, t) && t.nonce == first.session.world.Nonce(t.from)
    requires forall i :: 0 <= i < |attempts| ==> attempts[i].before.session.world.Nonce(t.from) >= t.nonce
    ensures Tried(attempts, t)
  {
    hide IsRun, Orderly, Led, OnOffer, Tried;
    EveryOfferTried(ch, h, first, attempts, last, t);
  }

  lemma {:induction false} OffersTried(ch: Chain, h: Header, first: PackState, attempts: seq<Attempt>, last: PackState)
    requires IsRun(ch, h, first, attempts, last) && Orderly(first) && Led(first)
    ensures last.heads == multiset{} ==>
              forall t :: OnOffer(first, t) ==> Tried(attempts, t) || Blocked(ch, h, attempts, t)
    ensures forall i, j :: 0 <= i < j < |attempts| && Stuck(ch, h, attempts[i]) ==>
                           attempts[j].tx.from != attempts[i].tx.from
  {
    hide IsRun, Orderly, Led, OnOffer, Tried, Blocked, Stuck;
    forall t | last.heads == multiset{} && OnOffer(first, t)
      ensures Tried(attempts, t) || Blocked(ch, h, attempts, t)
    {
      EveryOfferTried(ch, h, first, attempts, last, t);
    }
    forall i, j | 0 <= i < j < |attempts| && Stuck(ch, h, attempts[i])
      ensures attempts[j].tx.from != attempts[i].tx.from
    {
      NoneBehindStuck(ch, h, first, attempts, last, i, j);
    }
  }
}
