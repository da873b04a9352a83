/** Enforcing the limits on queued and pending transactions (core/tx_pool.go). */
module Trimming {
  import opened Collections
  import opened Transactions
  import opened TxItems
  import opened AccountLists
  import opened SortedMap
  import opened PoolState
  import opened Leveling
  import opened Promotion

  /** Each listed transaction is held, and none is listed twice. */
  ghost predicate AllOn(items: Items, txs: seq<Tx>) {
    && (forall i :: 0 <= i < |txs| ==> txs[i].nonce in items && items[txs[i].nonce] == txs[i])
    && (forall i, j :: 0 <= i < j < |txs| ==> txs[i].nonce != txs[j].nonce)
  }

  ghost function LessTxs(l: List, txs: seq<Tx>): List {
    l.(items := l.items - NonceSet(txs))
  }

  ghost function NonceSet(txs: seq<Tx>): set<nat> {
    set tx | tx in txs :: tx.nonce
  }

  lemma {:induction false} LessNone(queue: Lists, a: Address, txs: seq<Tx>)
    requires a in queue && NoneEmpty(queue)
    ensures Store(queue, a, LessTxs(queue[a], txs[..0])) == queue
  {
    assert queue[a].items - NonceSet(txs[..0]) == queue[a].items;
  }

  lemma {:induction false} LessOne(pending: Lists, q0: Lists, queue: Lists, all: set<Tx>, a: Address, txs: seq<Tx>,
                                   i: nat)
    requires Consistent(pending, queue, all, {}) && a in q0 && AllOn(q0[a].items, txs) && i < |txs|
    requires queue == Store(q0, a, LessTxs(q0[a], txs[..i])) && ListOk(q0[a], a, false)
    ensures Holds(queue, txs[i]) && txs[i] in all && !Holds(pending, txs[i]) && txs[i].from == a
    ensures Store(queue, a, Without(queue[a], txs[i].nonce)) == Store(q0, a, LessTxs(q0[a], txs[..i + 1]))
  {
    hide NonceSet, ListsOk, CapsBound;
    var n := txs[i].nonce;
    NonceListed(txs, i);
    assert n !in NonceSet(txs[..i]);
    assert n in LessTxs(q0[a], txs[..i]).items;
    assert q0[a].items - NonceSet(txs[..i]) - {n} == q0[a].items - NonceSet(txs[..i + 1]);
    assert Holds(queue, txs[i]);
  }

  lemma {:induction false} NonceListed(txs: seq<Tx>, i: nat)
    requires i < |txs| && forall j, k :: 0 <= j < k < |txs| ==> txs[j].nonce != txs[k].nonce
    ensures NonceSet(txs[..i + 1]) == NonceSet(txs[..i]) + {txs[i].nonce} && txs[i].nonce !in NonceSet(txs[..i])
  {
    assert txs[..i + 1] == txs[..i] + [txs[i]];
  }

  /** part keeps the lowest nonces of whole. */
  ghost predicate IsLowPart(part: Items, whole: Items) {
    && SubItems(part, whole)
    && (forall n, m :: n in part && m in whole && m < n ==> m in part)
  }

  /** Every account keeps its lowest nonces, and local accounts keep everything. */
  ghost predicate LowParts(q0: Lists, q: Lists, locals: set<Address>) {
    forall a :: IsLowPart(Held(q, a), Held(q0, a)) && (a in locals ==> Held(q, a) == Held(q0, a))
  }

  lemma {:induction false} LowPartsRefl(q: Lists, locals: set<Address>)
    ensures LowParts(q, q, locals)
  {
  }

  lemma {:induction false} LowPartsStep(q0: Lists, q: Lists, q': Lists, locals: set<Address>)
    requires LowParts(q0, q, locals) && LowParts(q, q', locals)
    ensures LowParts(q0, q', locals)
  {
    forall a ensures IsLowPart(Held(q', a), Held(q0, a)) && (a in locals ==> Held(q', a) == Held(q0, a)) {
      assert IsLowPart(Held(q, a), Held(q0, a)) && IsLowPart(Held(q', a), Held(q, a));
    }
  }

  lemma {:induction false} WholeItems(items: Items, txs: seq<Tx>)
    requires Keyed(items) && Flattens(txs, items)
    ensures AllOn(items, txs) && items - NonceSet(txs) == map[]
  {
    forall n | n in items ensures n in NonceSet(txs) {
      assert items[n] in txs;
    }
  }

  lemma {:induction false} WholeList(queue: Lists, locals: set<Address>, a: Address, txs: seq<Tx>)
    requires a in queue && a !in locals && Keyed(queue[a].items) && Flattens(txs, queue[a].items)
    ensures AllOn(queue[a].items, txs) && Store(queue, a, LessTxs(queue[a], txs)) == queue - {a}
    ensures Total(queue - {a}) == Total(queue) - |queue[a].items|
    ensures LowParts(queue, queue - {a}, locals)
  {
    hide Total, Flattens, AllOn, NonceSet;
    TotalUpdate(queue, a, queue[a]);
    WholeItems(queue[a].items, txs);
  }

  /** The first k of a flattening are the lowest nonces. */
  lemma {:induction false} PrefixIsLowPart(items: Items, txs: seq<Tx>, kept: Items, k: nat)
    requires Keyed(items) && Flattens(txs, items) && k <= |txs| && SubItems(kept, items)
    requires forall i :: 0 <= i < |txs| ==> (txs[i].nonce in kept <==> i < k)
    ensures IsLowPart(kept, items) && |kept| == k
  {
    assert Keyed(kept);
    PrefixSize(items, txs, kept, k);
    forall n, m | n in kept && m in items && m < n ensures m in kept {
      var i :| 0 <= i < |txs| && txs[i] == items[n];
      var j :| 0 <= j < |txs| && txs[j] == items[m];
      assert j < i;
    }
  }

  lemma {:induction false} PrefixSize(items: Items, txs: seq<Tx>, kept: Items, k: nat)
    requires Keyed(items) && Keyed(kept) && Flattens(txs, items) && k <= |txs| && SubItems(kept, items)
    requires forall i :: 0 <= i < |txs| ==> (txs[i].nonce in kept <==> i < k)
    ensures |kept| == k
  {
    hide Flattens, Keyed, SubItems;
    FlatteningSplit(txs, items, kept, k);
    FlatteningKeys(txs[..k], kept);
  }

  lemma {:induction false} TailItems(items: Items, txs: seq<Tx>, tail: seq<Tx>)
    requires Keyed(items) && Flattens(txs, items) && |tail| <= |txs| == |items|
    requires forall i :: 0 <= i < |tail| ==> tail[i] == txs[|txs| - 1 - i]
    ensures AllOn(items, tail) && IsLowPart(items - NonceSet(tail), items)
    ensures |items - NonceSet(tail)| == |items| - |tail|
  {
    var k := |txs| - |tail|;
    var kept := items - NonceSet(tail);
    forall i | 0 <= i < |txs| ensures txs[i].nonce in kept <==> i < k {
      TailNonces(txs, tail, i);
    }
    PrefixIsLowPart(items, txs, kept, k);
  }

  lemma {:induction false} TailNonces(txs: seq<Tx>, tail: seq<Tx>, i: nat)
    requires forall i, j :: 0 <= i < j < |txs| ==> txs[i].nonce < txs[j].nonce
    requires |tail| <= |txs| && i < |txs|
    requires forall i :: 0 <= i < |tail| ==> tail[i] == txs[|txs| - 1 - i]
    ensures txs[i].nonce in NonceSet(tail) <==> i >= |txs| - |tail|
  {
    if i >= |txs| - |tail| {
      assert tail[|txs| - 1 - i] == txs[i];
    }
  }

  lemma {:induction false} TailOfList(queue: Lists, locals: set<Address>, a: Address, txs: seq<Tx>,
                   tail: seq<Tx>)
    requires a in queue && a !in locals && Keyed(queue[a].items) && Flattens(txs, queue[a].items)
    requires |tail| < |txs| == |queue[a].items|
    requires forall i :: 0 <= i < |tail| ==> tail[i] == txs[|txs| - 1 - i]
    ensures AllOn(queue[a].items, tail)
    ensures var q := Store(queue, a, LessTxs(queue[a], tail));
            Total(q) == Total(queue) - |tail| && LowParts(queue, q, locals) && q.Keys == queue.Keys
  {
    hide Total, Flattens, AllOn, NonceSet, IsLowPart;
    TailItems(queue[a].items, txs, tail);
    TotalUpdate(queue, a, LessTxs(queue[a], tail));
    LowPartsAt(queue, locals, a, LessTxs(queue[a], tail));
  }

  lemma {:induction false} LowPartsAt(q: Lists, locals: set<Address>, a: Address, l: List)
    requires a in q && a !in locals && IsLowPart(l.items, q[a].items)
    ensures LowParts(q, Store(q, a, l), locals)
  {
    forall b | b != a ensures Held(Store(q, a, l), b) == Held(q, b) {
    }
  }

  lemma {:induction false} QueueBounds(q0: Lists, q1: Lists, q: Lists, locals: set<Address>, todo: seq<Address>,
                                       cap: nat,
                    accounts: Option<seq<Address>>)
    requires forall k :: 0 <= k < |todo| && todo[k] !in locals ==> |Held(q1, todo[k])| <= cap
    requires q1.Keys <= q0.Keys && LowParts(q1, q, locals)
    requires accounts.Some? ==> todo == accounts.value
    requires accounts.None? ==> forall a :: a in q0 ==> a in todo
    ensures forall a :: a !in locals && (accounts.None? || a in accounts.value) ==> |Held(q, a)| <= cap
  {
    forall a | a !in locals && (accounts.None? || a in accounts.value) ensures |Held(q, a)| <= cap {
      assert IsLowPart(Held(q, a), Held(q1, a));
      assert Held(q, a).Keys <= Held(q1, a).Keys;
      SubsetSize(Held(q, a).Keys, Held(q1, a).Keys);
      if a in q1 {
        assert a in todo;
      }
    }
  }

  lemma {:induction false} LimitsKeepWaiting(p: Lists, q: Lists, notes: map<Address, nat>, p': Lists, q': Lists,
                                             notes': map<Address, nat>,
                          base: Address -> nat, locals: set<Address>, level: nat, limit: nat, todo: seq<Address>)
    requires Contiguous(p, base, notes) && Contiguous(p', base, notes') && LowParts(q, q', locals)
    requires Total(p) <= limit ==> p' == p
    requires Total(p) > limit ==> Leveled(p, p', locals, level, Total(p'), limit)
    requires forall a :: a in todo ==> Waits(q, base, notes, a)
    ensures forall a :: a in todo ==> Waits(q', base, notes', a)
  {
    hide Total, Cap, Capped;
    forall a | a in todo ensures Waits(q', base, notes', a) {
      assert IsRun(Held(p, a), base(a), NextNonce(base, notes, a));
      assert IsRun(Held(p', a), base(a), NextNonce(base, notes', a));
      RunSize(Held(p, a), base(a), NextNonce(base, notes, a));
      RunSize(Held(p', a), base(a), NextNonce(base, notes', a));
      if Total(p) > limit && a in p {
        LevelSizeAt(p, locals, level, a);
      }
      assert IsLowPart(Held(q', a), Held(q, a)) && Waits(q, base, notes, a);
    }
  }

  lemma {:induction false} QueueWaits(q0: Lists, q1: Lists, q: Lists, base: Address -> nat, notes: map<Address, nat>,
                                      todo: seq<Address>,
                   accounts: Option<seq<Address>>, locals: set<Address>)
    requires forall a :: a in todo ==> Waits(q, base, notes, a)
    requires q1.Keys <= q0.Keys && LowParts(q1, q, locals)
    requires accounts.Some? ==> todo == accounts.value
    requires accounts.None? ==> forall a :: a in q0 ==> a in todo
    ensures forall a :: accounts.None? || a in accounts.value ==> Waits(q, base, notes, a)
  {
    forall a | accounts.None? || a in accounts.value ensures Waits(q, base, notes, a) {
      if a !in todo {
        assert IsLowPart(Held(q, a), Held(q1, a));
        assert Held(q, a) == map[];
      }
    }
  }

  lemma {:induction false} EqualizedBound(p0: Lists, p: Lists, locals: set<Address>, level: nat, slots: nat, limit: nat)
    requires Total(p0) > limit ==> Leveled(p0, p, locals, level, Total(p), limit)
                                   && (Total(p) <= limit || level == slots)
    requires Total(p0) <= limit ==> p == p0
    ensures Total(p) <= limit || forall a :: a in p && a !in locals ==> |p[a].items| <= slots
  {
    hide Total, Cap, Capped;
    if Total(p) > limit {
      assert Total(p0) > limit;
      forall a | a in p && a !in locals ensures |p[a].items| <= slots {
        LevelSizeAt(p0, locals, level, a);
      }
    }
  }

  lemma {:induction false} LastSize(p0: Lists, p: Lists, locals: set<Address>, level: nat, total: int, limit: nat,
                                    offenders: seq<Address>,
                 floor: nat, top: nat)
    requires Leveled(p0, p, locals, level, total, limit) && offenders != [] && floor <= level <= top
    requires offenders[|offenders| - 1] in p0 && offenders[|offenders| - 1] !in locals
    requires forall k :: floor <= k < top ==> Above(p0, locals, k) == Elements(offenders)
    ensures var last := offenders[|offenders| - 1];
            last in p && (|p[last].items| > floor <==> level > floor)
  {
    hide Cap, Capped, Total;
    var last := offenders[|offenders| - 1];
    LevelSizeAt(p0, locals, level, last);
    if level > floor {
      assert last in Elements(offenders);
      assert last in Above(p0, locals, level - 1);
    }
  }

  lemma {:induction false} TrimmedNone(p: Lists, offenders: seq<Address>)
    ensures Trimmed(p, Elements(offenders[..0])) == p
  {
    hide Cap, Capped;
  }

  lemma {:induction false} TrimmedNext(p: Lists, offenders: seq<Address>, i: nat)
    requires i < |offenders| && offenders[i] in p && p[offenders[i]].items != map[]
    requires Distinct(offenders)
    ensures var t := Trimmed(p, Elements(offenders[..i]));
            && offenders[i] in t && t[offenders[i]] == p[offenders[i]]
            && Trimmed(p, Elements(offenders[..i + 1])) ==
               t[offenders[i] := Cap(p[offenders[i]], |p[offenders[i]].items| - 1)]
  {
    hide Cap, Capped;
    var a := offenders[i];
    assert offenders[..i + 1] == offenders[..i] + [a];
    assert a !in offenders[..i];
    assert Elements(offenders[..i + 1]) - {a} == Elements(offenders[..i]);
    TrimmedStep(p, Elements(offenders[..i + 1]), a);
  }
}
