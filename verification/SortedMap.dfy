/** The nonce-sorted transaction map: a hash map, a heap of its keys and an optional sorted cache (core/tx_list.go). */
module SortedMap {
  import opened Collections
  import opened Transactions
  import opened TxItems
  import Heap

  predicate NonceLess(a: nat, b: nat) { a < b }

  predicate TxNonceLess(a: Tx, b: Tx) { a.nonce < b.nonce }

  /** txs lists the held transactions in strictly increasing nonce order, each exactly once. */
  ghost predicate Flattens(txs: seq<Tx>, items: Items) {
    && (forall i, j :: 0 <= i < j < |txs| ==> txs[i].nonce < txs[j].nonce)
    && (forall i :: 0 <= i < |txs| ==> txs[i].nonce in items && items[txs[i].nonce] == txs[i])
    && (forall n :: n in items ==> items[n] in txs)
  }

  /** The index holds each key once, in heap order. */
  ghost predicate Indexes(index: seq<nat>, items: Items) {
    Heap.Ordered(index, NonceLess) && multiset(index) == multiset(items.Keys)
  }

  /** There is only one way to list a set of transactions by nonce. */
  lemma {:induction false} FlatteningUnique(a: seq<Tx>, b: seq<Tx>, items: Items)
    requires Keyed(items) && Flattens(a, items) && Flattens(b, items)
    ensures a == b
    decreases |a|
  {
    FlatteningKeys(a, items);
    FlatteningKeys(b, items);
    if |a| > 0 {
      var x, y := a[|a| - 1], b[|b| - 1];
      LastIsHighest(a, items);
      LastIsHighest(b, items);
      assert x == items[x.nonce] == items[y.nonce] == y;
      FlatteningFront(a, items);
      FlatteningFront(b, items);
      KeyedMinus(items, {x.nonce});
      FlatteningUnique(a[..|a| - 1], b[..|b| - 1], items - {x.nonce});
      SameParts(a, b);
    }
  }

  lemma {:induction false} SameParts(a: seq<Tx>, b: seq<Tx>)
    requires |a| == |b| > 0 && a[..|a| - 1] == b[..|b| - 1] && a[|a| - 1] == b[|b| - 1]
    ensures a == b
  {
    assert a == a[..|a| - 1] + [a[|a| - 1]];
    assert b == b[..|b| - 1] + [b[|b| - 1]];
  }

  lemma {:induction false} KeyedMinus(items: Items, gone: set<nat>)
    requires Keyed(items)
    ensures Keyed(items - gone)
  {
  }

  lemma {:induction false} LastIsHighest(txs: seq<Tx>, items: Items)
    requires Keyed(items) && Flattens(txs, items) && |txs| > 0
    ensures var last := txs[|txs| - 1].nonce;
            last in items && items[last] == txs[|txs| - 1] && forall n :: n in items ==> n <= last
  {
    forall n | n in items ensures n <= txs[|txs| - 1].nonce {
      var i :| 0 <= i < |txs| && txs[i] == items[n];
    }
  }

  ghost function Nonces(txs: seq<Tx>): seq<nat> {
    seq(|txs|, i requires 0 <= i < |txs| => txs[i].nonce)
  }

  lemma {:induction false} FlatteningNonces(txs: seq<Tx>, items: Items)
    requires Keyed(items) && Flattens(txs, items)
    ensures Enumerates(Nonces(txs), items.Keys)
  {
    forall n | n in items ensures n in Nonces(txs) {
      var i :| 0 <= i < |txs| && txs[i] == items[n];
      assert Nonces(txs)[i] == n;
    }
  }

  lemma {:induction false} FlatteningKeys(txs: seq<Tx>, items: Items)
    requires Keyed(items) && Flattens(txs, items)
    ensures |txs| == |items|
    ensures forall tx :: tx in txs <==> tx.nonce in items && items[tx.nonce] == tx
  {
    FlatteningNonces(txs, items);
    EnumerationLength(Nonces(txs), items.Keys);
  }

  lemma {:induction false} FlatteningFront(txs: seq<Tx>, items: Items)
    requires Keyed(items) && Flattens(txs, items) && |txs| > 0
    ensures Flattens(txs[..|txs| - 1], items - {txs[|txs| - 1].nonce})
  {
    var last := txs[|txs| - 1];
    var front := txs[..|txs| - 1];
    forall n | n in items - {last.nonce} ensures items[n] in front {
      var i :| 0 <= i < |txs| && txs[i] == items[n];
      assert front[i] == items[n];
    }
  }

  /** Slicing a flattening at any point splits the items by nonce. */
  lemma {:induction false} FlatteningSplit(txs: seq<Tx>, items: Items, kept: Items, k: nat)
    requires Keyed(items) && Flattens(txs, items) && k <= |txs|
    requires SubItems(kept, items)
    ensures (forall i :: 0 <= i < |txs| ==> (txs[i].nonce in kept <==> i < k)) ==> Flattens(txs[..k], kept)
    ensures (forall i :: 0 <= i < |txs| ==> (txs[i].nonce in kept <==> i >= k)) ==> Flattens(txs[k..], kept)
  {
    if forall i :: 0 <= i < |txs| ==> (txs[i].nonce in kept <==> i < k) {
      FrontFlattens(txs, items, kept, k);
    }
    if forall i :: 0 <= i < |txs| ==> (txs[i].nonce in kept <==> i >= k) {
      BackFlattens(txs, items, kept, k);
    }
  }

  lemma {:induction false} FrontFlattens(txs: seq<Tx>, items: Items, kept: Items, k: nat)
    requires Keyed(items) && Flattens(txs, items) && k <= |txs| && SubItems(kept, items)
    requires forall i :: 0 <= i < |txs| ==> (txs[i].nonce in kept <==> i < k)
    ensures Flattens(txs[..k], kept)
  {
    var front := txs[..k];
    forall n | n in kept ensures kept[n] in front {
      var i :| 0 <= i < |txs| && txs[i] == items[n];
      assert front[i] == items[n];
    }
  }

  lemma {:induction false} BackFlattens(txs: seq<Tx>, items: Items, kept: Items, k: nat)
    requires Keyed(items) && Flattens(txs, items) && k <= |txs| && SubItems(kept, items)
    requires forall i :: 0 <= i < |txs| ==> (txs[i].nonce in kept <==> i >= k)
    ensures Flattens(txs[k..], kept)
  {
    var back := txs[k..];
    assert forall i :: 0 <= i < |back| ==> back[i] == txs[i + k];
    forall n | n in kept ensures kept[n] in back {
      var i :| 0 <= i < |txs| && txs[i] == items[n];
      assert back[i - k] == items[n];
    }
  }

  class TxSortedMap {
    var items: Items
    var index: seq<nat>
    var cache: Option<seq<Tx>>

    ghost predicate Valid()
      reads this
    {
      && Keyed(items)
      && Indexes(index, items)
      && (cache.Some? ==> Flattens(cache.value, items))
    }

    constructor ()
      ensures Valid() && items == map[] && cache == None
    {
      items, index, cache := map[], [], None;
    }

    method Get(nonce: nat) returns (tx: Option<Tx>)
      ensures tx == if nonce in items then Some(items[nonce]) else None
    {
      tx := if nonce in items then Some(items[nonce]) else None;
    }

    method Put(tx: Tx)
      requires Valid()
      modifies this
      ensures Valid() && items == old(items)[tx.nonce := tx] && cache == None
    {
      hide Heap.Ordered;
      PutKeys(items, tx);
      if tx.nonce !in items {
        index := Heap.Push(index, tx.nonce, NonceLess);
      }
      items, cache := items[tx.nonce := tx], None;
    }

    /** Takes out, in nonce order, everything below the threshold; a live cache only loses its front. */
    method Forward(threshold: nat) returns (removed: seq<Tx>)
      requires Valid()
      modifies this
      ensures Valid() && items == Forwarded(old(items), threshold)
      ensures Flattens(removed, old(items) - items.Keys)
      ensures cache.Some? <==> old(cache).Some?
    {
      hide TakenOff, KeptFrom, Flattens, Keyed, Forwarded, Heap.Ordered;
      removed := [];
      ghost var was := items;
      TakeNone(items, threshold);
      while |index| > 0 && index[0] < threshold
        invariant Keyed(items) && Indexes(index, items)
        invariant TakenOff(was, items, removed) && KeptFrom(was, items, threshold)
        invariant cache == old(cache)
        decreases |index|
      {
        var nonce;
        IndexRoot(index, items);
        ghost var before := index;
        index, nonce := Heap.Pop(index, NonceLess);
        IndexMinus(before, index, items, nonce);
        TakeLowest(was, items, removed, nonce, threshold);
        removed := removed + [items[nonce]];
        items := items - {nonce};
      }
      ForwardDone(was, items, index, removed, threshold);
      if cache.Some? {
        CacheFront(cache.value, was, items, removed, threshold);
        cache := Some(cache.value[|removed|..]);
      }
    }

    /** Takes out, in no particular order, every transaction that the predicate rejects. */
    method Filter(reject: Tx -> bool) returns (removed: seq<Tx>)
      requires Valid()
      modifies this
      ensures Valid() && items == Filtered(old(items), reject)
      ensures Collects(removed, old(items), items)
      ensures removed == [] ==> items == old(items) && index == old(index) && cache == old(cache)
    {
      hide Collects, FilterProgress, Filtered, Flattens, Heap.Ordered;
      removed := [];
      CollectsNone(items);
      ghost var was := items;
      var todo := items.Keys;
      FilterStarts(items, reject);
      while todo != {}
        invariant todo <= items.Keys && items == FilterProgress(was, reject, todo)
        invariant Collects(removed, was, items)
        invariant index == old(index) && cache == old(cache)
        decreases todo
      {
        var nonce :| nonce in todo;
        var tx := items[nonce];
        FilterStep(was, reject, todo, nonce);
        if reject(tx) {
          CollectOne(removed, was, items, nonce);
          removed := removed + [tx];
          items := items - {nonce};
        }
        todo := todo - {nonce};
      }
      FilterDone(was, reject);
      if |removed| > 0 {
        index := ListSet(items.Keys);
        index := Heap.Init(index, NonceLess);
        cache := None;
      } else {
        NothingDropped(was, items, reject);
      }
    }

    /** Keeps the lowest nonces, as many as the threshold says, and hands back the rest from the highest down. */
    method Cap(threshold: nat) returns (drops: seq<Tx>)
      requires Valid()
      modifies this
      ensures Valid() && items == Capped(old(items), threshold)
      ensures Collects(drops, old(items), items)
      ensures Descends(drops)
      ensures cache.Some? <==> old(cache).Some?
    {
      hide Collects, Capped, Flattens, Enumerates, Descends, Keyed, Heap.Ordered, Heap.Sorted;
      drops := [];
      CollectsNone(items);
      CappedSize(items, threshold);
      CapKeeps(items, threshold);
      if |items| <= threshold {
        return;
      }
      index := Heap.Sort(index, NonceLess);
      SortedIndexEnumerates(index, items.Keys);
      EnumerationLength(index, items.Keys);
      ghost var was, sorted := items, index;
      drops := DropAbove(threshold);
      index := Heap.Init(index[..threshold], NonceLess);
      if cache.Some? {
        CacheBack(cache.value, was, items, sorted, threshold);
        cache := Some(cache.value[..|cache.value| - |drops|]);
      }
    }

    /** With the index sorted, drops the transactions of all its slots from the last down to the threshold. */
    method DropAbove(threshold: nat) returns (drops: seq<Tx>)
      requires Keyed(items) && Enumerates(index, items.Keys) && threshold <= |index| == |items|
      modifies `items
      ensures items == Capped(old(items), threshold) && multiset(index[..threshold]) == multiset(items.Keys)
      ensures Collects(drops, old(items), items) && |drops| == |index| - threshold
      ensures Descends(drops)
    {
      hide Enumerates, SubItems, HeldBelow, Collects, Mirrors, Capped, Descends, Keyed;
      drops := [];
      CollectsNone(items);
      ghost var was := items;
      var size := |items|;
      DropNone(items, index);
      while size > threshold
        invariant threshold <= size <= |index| && SubItems(items, was) && HeldBelow(index, items, size)
        invariant Collects(drops, was, items) && |drops| == |index| - size
        invariant Mirrors(drops, index)
      {
        var nonce := index[size - 1];
        DropTop(was, items, index, drops, size);
        CollectOne(drops, was, items, nonce);
        drops := drops + [items[nonce]];
        items := items - {nonce};
        size := size - 1;
      }
      CapDone(index, was, items, threshold);
      MirrorsDescend(drops, index, was.Keys);
    }

    /** Takes out the transaction under a nonce, if there is one. */
    method Remove(nonce: nat) returns (ok: bool)
      requires Valid()
      modifies this
      ensures Valid() && ok == (nonce in old(items)) && items == old(items) - {nonce}
    {
      if nonce !in items {
        return false;
      }
      var i := 0;
      assert nonce in multiset(index);
      while index[i] != nonce
        invariant 0 <= i < |index| && nonce in index[i..]
        decreases |index| - i
      {
        i := i + 1;
      }
      ghost var before := index;
      var x;
      index, x := Heap.Remove(index, i, NonceLess);
      IndexMinus(before, index, items, nonce);
      items := items - {nonce};
      cache := None;
      ok := true;
    }

    /** Takes out, in nonce order, the run of consecutive nonces at the bottom, unless it starts above `start`. */
    method Ready(start: nat) returns (ready: seq<Tx>)
      requires Valid()
      modifies this
      ensures Valid() && items == Readied(old(items), start)
      ensures Flattens(ready, old(items) - items.Keys)
    {
      hide TakenOff, KeptFrom, Flattens, Keyed, Readied, Forwarded, Heap.Ordered;
      ready := [];
      ghost var was := items;
      EmptyIndex(index, items);
      if |index| == 0 || index[0] > start {
        ReadyNone(items, index, start);
        return;
      }
      ghost var first := index[0];
      var next := index[0];
      TakeNone(items, 0);
      ReadyStarts(items, index, start);
      while |index| > 0 && index[0] == next
        invariant first <= next && Keyed(items) && Indexes(index, items)
        invariant forall k :: first <= k < next ==> k in was
        invariant items == Forwarded(was, next) && TakenOff(was, items, ready)
        decreases |index|
      {
        IndexRoot(index, items);
        TakeLowest(was, items, ready, next, 0);
        RunAdvances(was, next);
        ready := ready + [items[next]];
        items := items - {next};
        ghost var before := index;
        var x;
        index, x := Heap.Pop(index, NonceLess);
        IndexMinus(before, index, Forwarded(was, next), next);
        next := next + 1;
      }
      ReadyDone(was, items, index, ready, first, next, start);
      cache := None;
    }

    method Len() returns (n: nat)
      ensures n == |items|
    {
      n := |items|;
    }

    /** Lists the transactions by nonce, from the cache when it is live. */
    method Flatten() returns (txs: seq<Tx>)
      requires Valid()
      modifies `cache
      ensures Valid() && cache == Some(txs) && Flattens(txs, items)
    {
      if cache.None? {
        txs := FlattenItems(items);
        cache := Some(txs);
      }
      txs := cache.value;
    }
  }

  /** Lists a map's transactions by nonce. */
  method FlattenItems(items: Items) returns (txs: seq<Tx>)
    requires Keyed(items)
    ensures Flattens(txs, items) && |txs| == |items|
  {
    txs := [];
    var todo := items.Keys;
    while todo != {}
      invariant todo <= items.Keys
      invariant Collects(txs, items, Only(items, todo))
      decreases todo
    {
      var nonce :| nonce in todo;
      CollectOne(txs, items, Only(items, todo), nonce);
      assert Only(items, todo) - {nonce} == Only(items, todo - {nonce});
      txs := txs + [items[nonce]];
      todo := todo - {nonce};
    }
    txs := Heap.Sort(txs, TxNonceLess);
    SortedListFlattens(txs, items);
    FlatteningKeys(txs, items);
  }

  /** drops takes the slots of index from the last one down. */
  ghost predicate Mirrors(drops: seq<Tx>, index: seq<nat>) {
    |drops| <= |index| && forall i :: 0 <= i < |drops| ==> drops[i].nonce == index[|index| - 1 - i]
  }

  lemma {:induction false} MirrorsDescend(drops: seq<Tx>, index: seq<nat>, keys: set<nat>)
    requires Mirrors(drops, index) && Enumerates(index, keys)
    ensures Descends(drops)
  {
  }

  lemma {:induction false} CapKeeps(items: Items, k: nat)
    requires Keyed(items)
    ensures Keyed(Capped(items, k)) && Descends([])
  {
  }

  ghost predicate Descends(drops: seq<Tx>) {
    forall i, j :: 0 <= i < j < |drops| ==> drops[i].nonce > drops[j].nonce
  }

  ghost function FilterProgress(was: Items, reject: Tx -> bool, todo: set<nat>): Items {
    map n | n in was && (n in todo || !reject(was[n])) :: was[n]
  }

  lemma {:induction false} FilterStarts(was: Items, reject: Tx -> bool)
    ensures FilterProgress(was, reject, was.Keys) == was
  {
  }

  lemma {:induction false} FilterStep(was: Items, reject: Tx -> bool, todo: set<nat>, nonce: nat)
    requires Keyed(was) && nonce in todo && todo <= was.Keys
    ensures var items := FilterProgress(was, reject, todo);
            && nonce in items && SubItems(items, was) && todo - {nonce} <= (items - {nonce}).Keys
            && FilterProgress(was, reject, todo - {nonce}) == if reject(items[nonce]) then items - {nonce} else items
  {
  }

  lemma {:induction false} FilterDone(was: Items, reject: Tx -> bool)
    ensures FilterProgress(was, reject, {}) == Filtered(was, reject) && (Keyed(was) ==> Keyed(Filtered(was, reject)))
  {
  }

  ghost function Only(items: Items, keys: set<nat>): Items {
    map n | n in items && n in keys :: items[n]
  }

  /** gone lists, each once, the transactions that a step from `was` to `items` took out. */
  ghost predicate Collects(gone: seq<Tx>, was: Items, items: Items) {
    multiset(gone) == multiset(Dropped(was, items))
  }

  lemma {:induction false} CollectsNone(items: Items)
    ensures Collects([], items, items)
  {
  }

  lemma {:induction false} CollectOne(gone: seq<Tx>, was: Items, items: Items, nonce: nat)
    requires Keyed(was) && SubItems(items, was) && nonce in items && Collects(gone, was, items)
    ensures Collects(gone + [items[nonce]], was, items - {nonce})
  {
    var tx := items[nonce];
    assert was[nonce] == tx;
    assert tx !in Dropped(was, items);
    assert Dropped(was, items - {nonce}) == Dropped(was, items) + {tx};
  }

  lemma {:induction false} NothingDropped(was: Items, items: Items, reject: Tx -> bool)
    requires items == Filtered(was, reject) && Collects([], was, items)
    ensures items == was
  {
    assert forall tx :: tx in Dropped(was, items) ==> tx in multiset(Dropped(was, items));
    forall n | n in was ensures n in items {
      var tx := was[n];
      assert n in items || tx in Dropped(was, items);
    }
  }

  lemma {:induction false} SortedIndexEnumerates(s: seq<nat>, keys: set<nat>)
    requires Heap.Sorted(s, NonceLess) && multiset(s) == multiset(keys)
    ensures Enumerates(s, keys)
  {
    forall i, j | 0 <= i < j < |s| ensures s[i] < s[j] {
      assert !NonceLess(s[j], s[i]) && multiset(keys)[s[i]] <= 1;
      TwiceInMultiset(s, i, j);
    }
    forall i | 0 <= i < |s| ensures s[i] in keys {
      assert s[i] in multiset(s);
    }
    forall n | n in keys ensures n in s {
      assert n in multiset(keys);
    }
  }

  lemma {:induction false} TwiceInMultiset<T>(s: seq<T>, i: int, j: int)
    requires 0 <= i < j < |s|
    ensures s[i] == s[j] ==> multiset(s)[s[i]] >= 2
  {
    assert s == s[..j] + [s[j]] + s[j + 1..];
    assert s[..j][i] == s[i];
    assert s[i] in multiset(s[..j]);
  }

  lemma {:induction false} PutKeys(items: Items, tx: Tx)
    requires Keyed(items)
    ensures Keyed(items[tx.nonce := tx])
    ensures multiset(items[tx.nonce := tx].Keys) ==
            multiset(items.Keys) + if tx.nonce in items then multiset{} else multiset{tx.nonce}
  {
    assert items[tx.nonce := tx].Keys == items.Keys + {tx.nonce};
  }

  /** Of the nonces that index lists, items holds the first k. */
  ghost predicate HeldBelow(index: seq<nat>, items: Items, k: int) {
    forall i :: 0 <= i < |index| ==> (index[i] in items <==> i < k)
  }

  lemma {:induction false} DropNone(items: Items, index: seq<nat>)
    requires Enumerates(index, items.Keys)
    ensures SubItems(items, items) && HeldBelow(index, items, |index|) && Mirrors([], index)
  {
  }

  lemma {:induction false} DropTop(was: Items, items: Items, index: seq<nat>, drops: seq<Tx>, size: nat)
    requires Keyed(was) && SubItems(items, was) && Enumerates(index, was.Keys)
    requires 1 <= size <= |index| && HeldBelow(index, items, size)
    requires Mirrors(drops, index) && |drops| == |index| - size
    ensures var nonce := index[size - 1];
            && nonce in items && SubItems(items - {nonce}, was)
            && HeldBelow(index, items - {nonce}, size - 1) && Mirrors(drops + [items[nonce]], index)
  {
  }

  lemma {:induction false} CapDone(index: seq<nat>, was: Items, items: Items, k: nat)
    requires Enumerates(index, was.Keys) && k <= |index| && SubItems(items, was)
    requires HeldBelow(index, items, k)
    ensures items == Capped(was, k) && multiset(index[..k]) == multiset(items.Keys)
  {
    CappedKeys(index, was, k);
    var capped := Capped(was, k);
    forall n | n in was ensures n in items <==> n in capped {
      var i :| 0 <= i < |index| && index[i] == n;
      EnumerationRank(index, was, i);
    }
    assert items == capped;
    EnumerationMultiset(index[..k], items.Keys);
  }

  lemma {:induction false} EnumerationMultiset(s: seq<nat>, keys: set<nat>)
    requires Enumerates(s, keys)
    ensures multiset(s) == multiset(keys)
  {
    if |s| == 0 {
      assert keys == {};
    } else {
      var last := s[|s| - 1];
      var front := s[..|s| - 1];
      EnumerationFront(s, keys);
      EnumerationMultiset(front, keys - {last});
      assert s == front + [last];
      assert keys == keys - {last} + {last};
    }
  }

  lemma {:induction false} CacheBack(cache: seq<Tx>, was: Items, items: Items, sorted: seq<nat>, k: nat)
    requires Keyed(was) && Flattens(cache, was) && Enumerates(sorted, was.Keys) && k <= |sorted|
    requires items == Capped(was, k)
    ensures |sorted| == |cache| && Flattens(cache[..k], items)
  {
    FlatteningKeys(cache, was);
    EnumerationLength(sorted, was.Keys);
    FlatteningNonces(cache, was);
    forall i | 0 <= i < |cache| ensures cache[i].nonce in items <==> i < k {
      EnumerationRank(Nonces(cache), was, i);
    }
    FlatteningSplit(cache, was, items, k);
  }

  lemma {:induction false} EmptyIndex(index: seq<nat>, items: Items)
    requires Indexes(index, items)
    ensures index == [] <==> items == map[]
  {
    assert forall n :: n in items ==> n in multiset(items.Keys);
    assert index != [] ==> index[0] in multiset(index);
  }

  lemma {:induction false} ReadyNone(items: Items, index: seq<nat>, start: nat)
    requires Indexes(index, items) && (|index| == 0 || index[0] > start)
    ensures Readied(items, start) == items && Flattens([], items - items.Keys)
  {
    EmptyIndex(index, items);
    if index != [] {
      IndexRoot(index, items);
    }
  }

  lemma {:induction false} ReadyStarts(items: Items, index: seq<nat>, start: nat)
    requires Indexes(index, items) && |index| > 0 && index[0] <= start
    ensures items == Forwarded(items, index[0]) && items != map[] && index[0] == Least(items.Keys)
  {
    IndexRoot(index, items);
  }

  lemma {:induction false} RunAdvances(was: Items, next: nat)
    requires next in Forwarded(was, next)
    ensures next in was && Forwarded(was, next) - {next} == Forwarded(was, next + 1)
  {
  }

  lemma {:induction false} ReadyDone(was: Items, items: Items, index: seq<nat>, ready: seq<Tx>, first: nat, next: nat,
                                     start: nat)
    requires Indexes(index, items) && items == Forwarded(was, next) && TakenOff(was, items, ready)
    requires was != map[] && first == Least(was.Keys) <= start && first <= next
    requires forall k :: first <= k < next ==> k in was
    requires |index| == 0 || index[0] != next
    ensures items == Readied(was, start) && Flattens(ready, was - items.Keys)
  {
    EmptyIndex(index, items);
    if index != [] {
      IndexRoot(index, items);
      assert index[0] in Forwarded(was, next);
    }
    assert next in was ==> next in items;
    assert next !in was;
    forall n | n in was ensures n in items <==> !InRun(was, first, n) {
      if n >= next {
        assert next !in was;
      }
    }
    assert items == Readied(was, start);
  }

  lemma {:induction false} SortedListFlattens(txs: seq<Tx>, items: Items)
    requires Keyed(items) && Heap.Sorted(txs, TxNonceLess)
    requires Collects(txs, items, Only(items, {}))
    ensures Flattens(txs, items)
  {
    var values := Dropped(items, Only(items, {}));
    forall i | 0 <= i < |txs| ensures txs[i].nonce in items && items[txs[i].nonce] == txs[i] {
      assert txs[i] in multiset(txs);
    }
    forall n | n in items ensures items[n] in txs {
      assert items[n] in values;
      assert items[n] in multiset(values);
    }
    forall i, j | 0 <= i < j < |txs| ensures txs[i].nonce < txs[j].nonce {
      assert !TxNonceLess(txs[j], txs[i]) && multiset(values)[txs[i]] <= 1;
      TwiceInMultiset(txs, i, j);
    }
  }


  /** The first index slot is the lowest key, and dropping it from both keeps them in step. */
  lemma {:induction false} IndexRoot(index: seq<nat>, items: Items)
    requires Indexes(index, items) && |index| > 0
    ensures index[0] in items && forall n :: n in items ==> index[0] <= n
  {
    assert index[0] in multiset(index);
    forall n | n in items ensures index[0] <= n {
      assert n in multiset(index);
      var i :| 0 <= i < |index| && index[i] == n;
      Heap.RootIsMinimal(index, NonceLess, i);
    }
  }

  lemma {:induction false} IndexMinus(before: seq<nat>, after: seq<nat>, items: Items, nonce: nat)
    requires multiset(before) == multiset(items.Keys) && multiset(before) == multiset(after) + multiset{nonce}
    ensures nonce in items && multiset(after) == multiset((items - {nonce}).Keys)
  {
    assert nonce in multiset(before);
    assert (items - {nonce}).Keys == items.Keys - {nonce};
    assert multiset(after) == multiset(items.Keys) - multiset{nonce};
  }

  /** removed lists, in nonce order, what items lacks of `was`, all of it below what items holds. */
  ghost predicate TakenOff(was: Items, items: Items, removed: seq<Tx>) {
    && SubItems(items, was) && Flattens(removed, was - items.Keys)
    && (forall i, n :: 0 <= i < |removed| && n in items ==> removed[i].nonce < n)
  }

  ghost predicate KeptFrom(was: Items, items: Items, threshold: nat) {
    forall n :: n in was && n >= threshold ==> n in items
  }

  lemma {:induction false} TakeNone(was: Items, threshold: nat)
    ensures TakenOff(was, was, []) && KeptFrom(was, was, threshold)
  {
  }

  /** The lowest held nonce is the next to be taken. */
  lemma {:induction false} TakeLowest(was: Items, items: Items, removed: seq<Tx>, nonce: nat, threshold: nat)
    requires Keyed(was) && TakenOff(was, items, removed)
    requires nonce in items && forall n :: n in items ==> nonce <= n
    ensures Keyed(items - {nonce}) && TakenOff(was, items - {nonce}, removed + [items[nonce]])
    ensures nonce < threshold && KeptFrom(was, items, threshold) ==> KeptFrom(was, items - {nonce}, threshold)
  {
    var gone := was - (items - {nonce}).Keys;
    var next := removed + [items[nonce]];
    forall n | n in gone ensures gone[n] in next {
      if n == nonce {
        assert next[|removed|] == gone[n];
      } else {
        assert n in was - items.Keys;
        var i :| 0 <= i < |removed| && removed[i] == was[n];
        assert next[i] == was[n];
      }
    }
  }

  lemma {:induction false} ForwardDone(was: Items, items: Items, index: seq<nat>, removed: seq<Tx>, threshold: nat)
    requires TakenOff(was, items, removed) && Indexes(index, items) && KeptFrom(was, items, threshold)
    requires |index| > 0 ==> index[0] >= threshold
    ensures items == Forwarded(was, threshold) && Flattens(removed, was - items.Keys)
  {
    forall n | n in items ensures n >= threshold {
      assert n in multiset(items.Keys);
      IndexRoot(index, items);
    }
    assert items == Forwarded(was, threshold);
  }

  lemma {:induction false} CacheFront(cache: seq<Tx>, was: Items, items: Items, removed: seq<Tx>, threshold: nat)
    requires Keyed(was) && Flattens(cache, was)
    requires items == Forwarded(was, threshold) && Flattens(removed, was - items.Keys)
    ensures |removed| <= |cache| && Flattens(cache[|removed|..], items)
  {
    var k := CutAt(cache, threshold);
    FlatteningSplit(cache, was, was - items.Keys, k);
    FlatteningUnique(cache[..k], removed, was - items.Keys);
    FlatteningSplit(cache, was, items, k);
  }

  /** Where the nonces of a sorted list reach the threshold. */
  lemma {:induction false} CutAt(txs: seq<Tx>, threshold: nat) returns (k: nat)
    requires forall i, j :: 0 <= i < j < |txs| ==> txs[i].nonce < txs[j].nonce
    ensures k <= |txs| && forall i :: 0 <= i < |txs| ==> (txs[i].nonce < threshold <==> i < k)
  {
    if |txs| == 0 || txs[|txs| - 1].nonce < threshold {
      k := |txs|;
    } else {
      k := CutAt(txs[..|txs| - 1], threshold);
      assert forall i :: 0 <= i < |txs| - 1 ==> txs[i] == txs[..|txs| - 1][i];
    }
  }
}
