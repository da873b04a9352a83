/** What each operation on a nonce-indexed set of transactions keeps, said without reference to heaps or caches. */
module TxItems {
  import opened Transactions

  type Items = map<nat, Tx>

  /** Every transaction sits under its own nonce. */
  ghost predicate Keyed(items: Items) {
    forall n :: n in items ==> items[n].nonce == n
  }

  ghost predicate SubItems(kept: Items, items: Items) {
    forall n :: n in kept ==> n in items && kept[n] == items[n]
  }

  /** The transactions that a step from `items` to `kept` took out. */
  function Dropped(items: Items, kept: Items): set<Tx> {
    set n | n in items && n !in kept :: items[n]
  }

  function Forwarded(items: Items, threshold: nat): Items {
    map n | n in items && n >= threshold :: items[n]
  }

  function Filtered(items: Items, reject: Tx -> bool): Items {
    map n | n in items && !reject(items[n]) :: items[n]
  }

  /** How many held nonces are below n. */
  function Rank(items: Items, n: nat): nat {
    |Below(items.Keys, n)|
  }

  function Below(keys: set<nat>, n: nat): set<nat> {
    set m | m in keys && m < n
  }

  /** The k transactions with the lowest nonces. */
  function Capped(items: Items, k: nat): Items {
    map n | n in items && Rank(items, n) < k :: items[n]
  }

  /** Every nonce from `first` to n is held. */
  predicate InRun(items: Items, first: nat, n: nat) {
    forall k :: first <= k <= n ==> k in items
  }

  /** What stays behind once the run starting at the lowest nonce is taken, provided that nonce is not above `start`. */
  function Readied(items: Items, start: nat): Items {
    if items == map[] || Least(items.Keys) > start then items
    else map n | n in items && !InRun(items, Least(items.Keys), n) :: items[n]
  }

  /** s lists the set `keys` in strictly increasing order. */
  ghost predicate Enumerates(s: seq<nat>, keys: set<nat>) {
    && (forall i, j :: 0 <= i < j < |s| ==> s[i] < s[j])
    && (forall i :: 0 <= i < |s| ==> s[i] in keys)
    && (forall n :: n in keys ==> n in s)
  }

  lemma {:induction false} EnumerationFront(s: seq<nat>, keys: set<nat>)
    requires Enumerates(s, keys) && |s| > 0
    ensures Enumerates(s[..|s| - 1], keys - {s[|s| - 1]})
  {
    var last := s[|s| - 1];
    var front := s[..|s| - 1];
    forall n | n in keys - {last} ensures n in front {
      var i :| 0 <= i < |s| && s[i] == n;
      assert front[i] == n;
    }
  }

  lemma {:induction false} EnumerationLength(s: seq<nat>, keys: set<nat>)
    requires Enumerates(s, keys)
    ensures |s| == |keys|
  {
    if |s| == 0 {
      assert keys == {};
    } else {
      EnumerationFront(s, keys);
      EnumerationLength(s[..|s| - 1], keys - {s[|s| - 1]});
    }
  }

  lemma {:induction false} EnumerationRank(s: seq<nat>, items: Items, i: nat)
    requires Enumerates(s, items.Keys) && i < |s|
    ensures Rank(items, s[i]) == i
  {
    var below := Below(items.Keys, s[i]);
    assert Enumerates(s[..i], below) by {
      forall n | n in below ensures n in s[..i] {
        var k :| 0 <= k < |s| && s[k] == n;
        assert k < i;
        assert s[..i][k] == n;
      }
    }
    EnumerationLength(s[..i], below);
  }

  lemma {:induction false} EnumerationExists(keys: set<nat>) returns (s: seq<nat>)
    ensures Enumerates(s, keys)
  {
    if keys == {} {
      s := [];
    } else {
      var m := Least(keys);
      var rest := EnumerationExists(keys - {m});
      s := [m] + rest;
      forall n | n in keys ensures n in s {
        if n != m {
          assert n in keys - {m};
          var i :| 0 <= i < |rest| && rest[i] == n;
          assert s[i + 1] == n;
        } else {
          assert s[0] == n;
        }
      }
    }
  }

  lemma {:induction false} CappedKeys(s: seq<nat>, items: Items, k: nat)
    requires Enumerates(s, items.Keys) && k <= |s|
    ensures Enumerates(s[..k], Capped(items, k).Keys)
  {
    forall i | 0 <= i < k ensures s[i] in Capped(items, k) {
      EnumerationRank(s, items, i);
    }
    forall n | n in Capped(items, k) ensures n in s[..k] {
      var i :| 0 <= i < |s| && s[i] == n;
      EnumerationRank(s, items, i);
      assert s[..k][i] == n;
    }
  }

  lemma {:induction false} CappedSize(items: Items, k: nat)
    ensures |Capped(items, k)| == if |items| <= k then |items| else k
    ensures |items| <= k ==> Capped(items, k) == items
  {
    var s := EnumerationExists(items.Keys);
    EnumerationLength(s, items.Keys);
    var m := if |s| <= k then |s| else k;
    CappedKeys(s, items, m);
    EnumerationLength(s[..m], Capped(items, m).Keys);
    if |items| <= k {
      forall n | n in items ensures Rank(items, n) < |s| {
        var i :| 0 <= i < |s| && s[i] == n;
        EnumerationRank(s, items, i);
      }
      assert Capped(items, k) == items == Capped(items, m);
    }
  }

  /** Lowering the cap by one below the size drops exactly the highest nonce. */
  lemma {:induction false} CappedDropsHighest(items: Items) returns (top: nat)
    requires items != map[]
    ensures top in items && forall n :: n in items ==> n <= top
    ensures Capped(items, |items| - 1) == items - {top}
    ensures Dropped(items, Capped(items, |items| - 1)) == {items[top]}
  {
    hide Rank, Enumerates;
    var s := EnumerationExists(items.Keys);
    EnumerationLength(s, items.Keys);
    top := s[|s| - 1];
    forall n | n in items ensures n <= top && (Rank(items, n) < |items| - 1 <==> n != top) {
      RankBelowLast(s, items, n);
    }
    LastListed(s, items.Keys);
    assert Capped(items, |items| - 1) == items - {top};
  }

  lemma {:induction false} LastListed(s: seq<nat>, keys: set<nat>)
    requires Enumerates(s, keys) && |s| > 0
    ensures s[|s| - 1] in keys
  {
  }

  lemma {:induction false} RankBelowLast(s: seq<nat>, items: Items, n: nat)
    requires Enumerates(s, items.Keys) && n in items && |s| > 0
    ensures n <= s[|s| - 1] && (Rank(items, n) < |s| - 1 <==> n != s[|s| - 1])
  {
    hide Rank;
    var i :| 0 <= i < |s| && s[i] == n;
    EnumerationRank(s, items, i);
  }

  // ----- runs of nonces -----

  /** The held nonces are exactly those from lo up to, but not including, hi. */
  ghost predicate IsRun(items: Items, lo: nat, hi: nat) {
    lo <= hi && forall n :: n in items <==> lo <= n < hi
  }

  lemma {:induction false} RunSize(items: Items, lo: nat, hi: nat)
    requires IsRun(items, lo, hi)
    ensures |items| == hi - lo
    decreases hi
  {
    if lo == hi {
      assert items == map[];
    } else {
      RunSize(items - {hi - 1}, lo, hi - 1);
      assert (items - {hi - 1}).Keys == items.Keys - {hi - 1};
    }
  }

  /** What Readied takes out is a run that starts at the lowest nonce. */
  function Executable(items: Items, start: nat): Items {
    items - Readied(items, start).Keys
  }

  /** Nonces without a gap above the first one make a run. */
  lemma {:induction false} GaplessIsRun(items: Items, first: nat)
    requires first in items && forall n :: n in items ==> first <= n && InRun(items, first, n)
    ensures IsRun(items, first, first + |items|)
  {
    var s := EnumerationExists(items.Keys);
    EnumerationLength(s, items.Keys);
    assert |items| > 0;
    var top := s[|s| - 1];
    forall n | n in items ensures n <= top {
      var i :| 0 <= i < |s| && s[i] == n;
    }
    assert InRun(items, first, top);
    RunSize(items, first, top + 1);
  }

  lemma {:induction false} ExecutableIsRun(items: Items, start: nat)
    requires Executable(items, start) != map[]
    ensures var run := Executable(items, start);
            && items != map[] && Least(items.Keys) <= start && Least(run.Keys) == Least(items.Keys)
            && IsRun(run, Least(run.Keys), Least(run.Keys) + |run|)
  {
    var run := Executable(items, start);
    var first := Least(items.Keys);
    assert forall n :: n in run <==> n in items && InRun(items, first, n);
    assert InRun(items, first, first);
    assert first in run && Least(run.Keys) == first;
    forall n | n in run ensures InRun(run, first, n) {
      forall k | first <= k <= n ensures k in run {
        assert InRun(items, first, k);
      }
    }
    GaplessIsRun(run, first);
  }

  /** Past the run that Readied takes there is a gap. */
  lemma {:induction false} ReadiedWaits(items: Items, next: nat)
    requires forall n :: n in items ==> n >= next
    ensures var run := Executable(items, next);
            && (run != map[] ==> Least(run.Keys) == next)
            && forall n :: n in Readied(items, next) ==> n > next + |run|
  {
    var run := Executable(items, next);
    if items != map[] {
      var first := Least(items.Keys);
      assert InRun(items, first, first);
      if first <= next {
        assert first in run;
        ExecutableIsRun(items, next);
        RunEndsAtGap(items, run, next, next + |run|);
      }
    }
  }

  lemma {:induction false} RunEndsAtGap(items: Items, run: Items, next: nat, end: nat)
    requires IsRun(run, next, end) && forall n :: n in run <==> n in items && InRun(items, next, n)
    ensures forall n :: n in items && n >= next && !InRun(items, next, n) ==> n > end
  {
    forall n | n in items && n >= next && !InRun(items, next, n) ensures n > end {
      assert n !in run;
      if n == end {
        forall k | next <= k <= n ensures k in items {
          assert k < end ==> k in run;
        }
      }
    }
  }
}
