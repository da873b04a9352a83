/** Cutting the accounts that are not local down to a common number of pending transactions. */
module Leveling {
  import opened Transactions
  import opened TxItems
  import opened AccountLists
  import opened PoolState

  function Size(p: Lists, a: Address): nat {
    |Held(p, a)|
  }

  /** No account outside `locals` keeps more than `level` transactions, and those are its lowest nonces. */
  function LevelTo(p: Lists, locals: set<Address>, level: nat): Lists {
    map a | a in p :: if a in locals then p[a] else Cap(p[a], level)
  }

  /** Each of the given accounts loses its highest nonce. */
  function Trimmed(p: Lists, accounts: set<Address>): Lists {
    map a | a in p :: if a in accounts && p[a].items != map[] then Cap(p[a], |p[a].items| - 1) else p[a]
  }

  /** The accounts that are not local and hold more than `level` transactions. */
  function Above(p: Lists, locals: set<Address>, level: nat): set<Address> {
    set a | a in p && a !in locals && |p[a].items| > level
  }

  lemma {:induction false} CapTwice(items: Items, k: nat)
    ensures Capped(Capped(items, k + 1), k) == Capped(items, k)
  {
    var c := Capped(items, k + 1);
    forall n | n in c ensures Rank(c, n) == Rank(items, n) {
      forall m | m in items && m < n ensures m in c {
        RankMonotone(items, m, n);
      }
      assert Below(c.Keys, n) == Below(items.Keys, n);
    }
    assert Capped(c, k) == Capped(items, k);
  }

  lemma {:induction false} RankMonotone(items: Items, m: nat, n: nat)
    requires m in items && m < n
    ensures Rank(items, m) < Rank(items, n)
  {
    assert Below(items.Keys, m) <= Below(items.Keys, n) - {m};
    SubsetSize(Below(items.Keys, m), Below(items.Keys, n) - {m});
  }

  lemma {:induction false} SubsetSize<T>(a: set<T>, b: set<T>)
    requires a <= b
    ensures |a| <= |b|
  {
    if a != {} {
      var x :| x in a;
      SubsetSize(a - {x}, b - {x});
    }
  }

  lemma {:induction false} LevelSizes(p: Lists, locals: set<Address>, level: nat)
    ensures forall a :: a in p && a !in locals ==>
              Size(LevelTo(p, locals, level), a) == if |p[a].items| <= level then |p[a].items| else level
    ensures forall a :: a in p && (a in locals || |p[a].items| <= level) ==> LevelTo(p, locals, level)[a] == p[a]
  {
    forall a | a in p && a !in locals
      ensures |Cap(p[a], level).items| == if |p[a].items| <= level then |p[a].items| else level
      ensures |p[a].items| <= level ==> Cap(p[a], level) == p[a]
    {
      CappedSize(p[a].items, level);
    }
  }

  /** Nothing is cut by a level that nobody exceeds. */
  lemma {:induction false} LevelIdle(p: Lists, locals: set<Address>, level: nat)
    requires Above(p, locals, level) == {}
    ensures LevelTo(p, locals, level) == p
  {
    LevelSizes(p, locals, level);
    forall a | a in p ensures LevelTo(p, locals, level)[a] == p[a] {
      assert a in Above(p, locals, level) <==> a !in locals && |p[a].items| > level;
    }
  }

  lemma {:induction false} LevelRoundAt(l: List, level: nat)
    ensures |l.items| > level ==> |Cap(l, level + 1).items| == level + 1
                                  && Cap(Cap(l, level + 1), level) == Cap(l, level)
    ensures |l.items| <= level ==> Cap(l, level + 1) == l == Cap(l, level)
  {
    CappedSize(l.items, level + 1);
    CappedSize(l.items, level);
    CapTwice(l.items, level);
  }

  /** One round over exactly the accounts above a level brings them down to it. */
  lemma {:induction false} LevelRound(p: Lists, locals: set<Address>, level: nat)
    ensures Trimmed(LevelTo(p, locals, level + 1), Above(p, locals, level)) == LevelTo(p, locals, level)
    ensures Above(LevelTo(p, locals, level + 1), locals, level) == Above(p, locals, level)
  {
    hide Cap, Capped;
    var high := LevelTo(p, locals, level + 1);
    forall a | a in p
      ensures Trimmed(high, Above(p, locals, level))[a] == LevelTo(p, locals, level)[a]
      ensures a in Above(high, locals, level) <==> a in Above(p, locals, level)
    {
      LevelRoundAt(p[a], level);
    }
  }

  lemma {:induction false} TrimmedStep(p: Lists, accounts: set<Address>, a: Address)
    requires a in accounts && a in p && p[a].items != map[]
    ensures Trimmed(p, accounts) == Trimmed(p, accounts - {a})[a := Cap(p[a], |p[a].items| - 1)]
    ensures Held(Trimmed(p, accounts - {a}), a) == p[a].items
  {
    hide Cap, Capped;
  }

  /** A round takes one transaction from each account. */
  lemma {:induction false} TrimmedTotal(p: Lists, accounts: set<Address>)
    requires forall a :: a in accounts ==> a in p && p[a].items != map[]
    ensures Total(Trimmed(p, accounts)) == Total(p) - |accounts|
  {
    if accounts == {} {
      assert Trimmed(p, accounts) == p;
    } else {
      hide Trimmed, Total, Capped;
      var a :| a in accounts;
      TrimmedTotal(p, accounts - {a});
      TrimmedStep(p, accounts, a);
      CappedSize(p[a].items, |p[a].items| - 1);
      TotalUpdate(Trimmed(p, accounts - {a}), a, Cap(p[a], |p[a].items| - 1));
    }
  }

  /** Raising the level by one readmits one transaction for each account above it. */
  lemma {:induction false} LevelTotals(p: Lists, locals: set<Address>, level: nat)
    ensures Total(LevelTo(p, locals, level + 1)) == Total(LevelTo(p, locals, level)) + |Above(p, locals, level)|
  {
    var high := LevelTo(p, locals, level + 1);
    LevelSizes(p, locals, level + 1);
    forall a | a in Above(p, locals, level) ensures a in high && high[a].items != map[] {
      assert |high[a].items| == level + 1;
    }
    LevelRound(p, locals, level);
    TrimmedTotal(high, Above(p, locals, level));
  }

  ghost function Elements(s: seq<Address>): set<Address> {
    set x | x in s
  }

  ghost predicate Distinct(s: seq<Address>) {
    forall i, j :: 0 <= i < j < |s| ==> s[i] != s[j]
  }

  lemma {:induction false} DistinctSize(s: seq<Address>)
    requires Distinct(s)
    ensures |Elements(s)| == |s|
  {
    if s == [] {
      assert Elements(s) == {};
    } else {
      var front, last := s[..|s| - 1], s[|s| - 1];
      DistinctSize(front);
      assert s == front + [last];
      assert last !in front;
      assert Elements(s) == Elements(front) + {last};
    }
  }

  /** p is p0 cut to `level`, `total` counts it, and one level higher would be above the limit. */
  ghost predicate Leveled(p0: Lists, p: Lists, locals: set<Address>, level: nat, total: int, limit: nat) {
    && p == LevelTo(p0, locals, level)
    && total == Total(p)
    && Total(LevelTo(p0, locals, level + 1)) > limit
  }

  lemma {:induction false} LevelSizeAt(p0: Lists, locals: set<Address>, level: nat, a: Address)
    requires a in p0
    ensures a in LevelTo(p0, locals, level)
    ensures a !in locals ==>
              |LevelTo(p0, locals, level)[a].items| == if |p0[a].items| <= level then |p0[a].items| else level
  {
    LevelSizes(p0, locals, level);
    assert Size(LevelTo(p0, locals, level), a) == |LevelTo(p0, locals, level)[a].items|;
  }

  lemma {:induction false} ReduceStep(p0: Lists, p: Lists, locals: set<Address>, level: nat, total: int, limit: nat,
                                      offenders: seq<Address>)
    requires Leveled(p0, p, locals, level, total, limit) && total > limit && level >= 1
    requires Distinct(offenders) && Above(p0, locals, level - 1) == Elements(offenders)
    ensures forall i :: 0 <= i < |offenders| ==> offenders[i] in p && |p[offenders[i]].items| == level
    ensures Leveled(p0, Trimmed(p, Elements(offenders)), locals, level - 1, total - |offenders|, limit)
  {
    hide Cap, Capped, Total, Trimmed;
    LevelRound(p0, locals, level - 1);
    LevelTotals(p0, locals, level - 1);
    DistinctSize(offenders);
    forall i | 0 <= i < |offenders| ensures offenders[i] in p && |p[offenders[i]].items| == level {
      assert offenders[i] in Elements(offenders);
      LevelSizeAt(p0, locals, level, offenders[i]);
    }
  }

  ghost predicate IsLargest(p: Lists, accounts: set<Address>, a: Address) {
    a in accounts && forall b :: b in accounts ==> Size(p, b) <= Size(p, a)
  }

  lemma {:induction false} LargestExists(p: Lists, accounts: set<Address>)
    requires accounts != {}
    ensures exists a :: IsLargest(p, accounts, a)
  {
    var a :| a in accounts;
    var rest := accounts - {a};
    assert forall b :: b in accounts && b != a ==> b in rest;
    if rest == {} {
      assert IsLargest(p, accounts, a);
    } else {
      LargestExists(p, rest);
      var b :| IsLargest(p, rest, b);
      assert IsLargest(p, accounts, if Size(p, a) > Size(p, b) then a else b);
    }
  }

  /** Counts the transactions of all lists. */
  method Count(lists: Lists) returns (n: nat)
    ensures n == Total(lists)
  {
    n := 0;
    var todo := lists.Keys;
    assert lists - todo == map[];
    while todo != {}
      invariant todo <= lists.Keys && n == Total(lists - todo)
      decreases todo
    {
      var a :| a in todo;
      CountStep(lists, todo, a);
      n := n + |lists[a].items|;
      todo := todo - {a};
    }
    assert lists - {} == lists;
  }

  lemma {:induction false} CountStep(lists: Lists, todo: set<Address>, a: Address)
    requires a in todo && a in lists
    ensures Total(lists - (todo - {a})) == Total(lists - todo) + |lists[a].items|
  {
    TotalSplit(lists - (todo - {a}), a);
    assert lists - (todo - {a}) - {a} == lists - todo;
  }

  // ----- picking offenders, largest first -----

  /** Where the penalizing of large accounts stands: `offenders` have been picked, `spammers` are still to come. */
  ghost predicate Penalizing(p0: Lists, p: Lists, locals: set<Address>, slots: nat, offenders: seq<Address>,
                             spammers: set<Address>, level: nat, total: int, limit: nat)
  {
    && Leveled(p0, p, locals, level, total, limit) && level > slots
    && Picked(p0, locals, slots, offenders, spammers)
    && (forall b :: b in spammers ==> Size(p0, b) <= level)
    && (forall i :: 0 <= i < |offenders| - 1 ==> Size(p0, offenders[i]) >= level)
    && (offenders != [] && total > limit ==> Size(p0, offenders[|offenders| - 1]) >= level)
    && (offenders == [] ==> Above(p0, locals, level) == {})
  }

  ghost predicate Picked(p0: Lists, locals: set<Address>, slots: nat, offenders: seq<Address>, spammers: set<Address>) {
    Distinct(offenders) && Elements(offenders) !! spammers && Elements(offenders) + spammers == Above(p0, locals, slots)
  }

  lemma {:induction false} PickOne(p0: Lists, locals: set<Address>, slots: nat, offenders: seq<Address>,
                                   spammers: set<Address>, a: Address)
    requires Picked(p0, locals, slots, offenders, spammers) && a in spammers
    ensures Picked(p0, locals, slots, offenders + [a], spammers - {a})
    ensures a in p0 && a !in locals && Size(p0, a) > slots
  {
    assert Elements(offenders + [a]) == Elements(offenders) + {a};
    assert forall i :: 0 <= i < |offenders| ==> offenders[i] in Elements(offenders);
    assert a in Above(p0, locals, slots);
  }

  lemma {:induction false} AboveMeans(p: Lists, locals: set<Address>, level: nat)
    ensures forall a :: a in Above(p, locals, level) <==> a in p && a !in locals && Size(p, a) > level
  {
  }

  lemma {:induction false} LeveledIdle(p: Lists, locals: set<Address>, level: nat, total: int, limit: nat)
    requires Above(p, locals, level) == {} && total == Total(p) && total > limit
    ensures Leveled(p, p, locals, level, total, limit)
  {
    hide Total, Cap, Capped;
    LevelIdle(p, locals, level);
    AboveMeans(p, locals, level);
    AboveMeans(p, locals, level + 1);
    assert Above(p, locals, level + 1) == {} by {
      assert forall a :: a in Above(p, locals, level + 1) ==> a in Above(p, locals, level);
    }
    LevelIdle(p, locals, level + 1);
  }

  /** The first offender sets the level. */
  lemma {:induction false} PickFirst(p: Lists, locals: set<Address>, slots: nat, spammers: set<Address>, total: int,
                                     limit: nat, a: Address)
    requires Picked(p, locals, slots, [], spammers) && IsLargest(p, spammers, a)
    requires total == Total(p) && total > limit
    ensures Penalizing(p, p, locals, slots, [a], spammers - {a}, Size(p, a), total, limit)
  {
    hide Total, LevelTo;
    assert [] + [a] == [a];
    PickOne(p, locals, slots, [], spammers, a);
    AboveMeans(p, locals, slots);
    AboveMeans(p, locals, Size(p, a));
    assert Above(p, locals, slots) == spammers;
    assert forall b :: b in Above(p, locals, Size(p, a)) ==> b in Above(p, locals, slots);
    assert Above(p, locals, Size(p, a)) == {};
    LeveledIdle(p, locals, Size(p, a), total, limit);
  }

  /** Down to the size of the next offender, the earlier ones are exactly the accounts above the level. */
  lemma {:induction false} PickNext(p0: Lists, p: Lists, locals: set<Address>, slots: nat, offenders: seq<Address>,
                                    spammers: set<Address>,
                 level: nat, total: int, limit: nat, a: Address)
    requires Penalizing(p0, p, locals, slots, offenders, spammers, level, total, limit) && total > limit
    requires offenders != [] && IsLargest(p, spammers, a)
    ensures a in p && |p[a].items| == Size(p0, a) && slots < Size(p0, a) <= level
    ensures offenders[|offenders| - 1] in p0 && offenders[|offenders| - 1] !in locals
    ensures forall k :: Size(p0, a) <= k < level ==> Above(p0, locals, k) == Elements(offenders)
    ensures forall b :: b in spammers ==> Size(p0, b) <= Size(p0, a)
  {
    hide Total, Cap, Capped, Leveled;
    PickOne(p0, locals, slots, offenders, spammers, a);
    SpammersUncut(p0, p, locals, slots, offenders, spammers, level, total, limit);
    assert offenders[|offenders| - 1] in Elements(offenders);
    assert offenders[|offenders| - 1] in Above(p0, locals, slots);
    forall k | Size(p0, a) <= k < level ensures Above(p0, locals, k) == Elements(offenders) {
      OffendersAbove(p0, locals, slots, offenders, spammers, k);
    }
  }

  lemma {:induction false} SpammersUncut(p0: Lists, p: Lists, locals: set<Address>, slots: nat, offenders: seq<Address>,
                      spammers: set<Address>, level: nat, total: int, limit: nat)
    requires Penalizing(p0, p, locals, slots, offenders, spammers, level, total, limit)
    ensures forall b :: b in spammers ==> b in p && |p[b].items| == Size(p, b) == Size(p0, b)
  {
    hide Total, Cap, Capped;
    forall b | b in spammers ensures b in p && |p[b].items| == Size(p, b) == Size(p0, b) {
      assert b in Above(p0, locals, slots);
      LevelSizeAt(p0, locals, level, b);
    }
  }

  lemma {:induction false} OffendersAbove(p0: Lists, locals: set<Address>, slots: nat, offenders: seq<Address>,
                                          spammers: set<Address>, k: nat)
    requires Picked(p0, locals, slots, offenders, spammers) && k >= slots
    requires forall i :: 0 <= i < |offenders| ==> Size(p0, offenders[i]) > k
    requires forall b :: b in spammers ==> Size(p0, b) <= k
    ensures Above(p0, locals, k) == Elements(offenders)
  {
    AboveMeans(p0, locals, slots);
    AboveMeans(p0, locals, k);
    forall a ensures a in Above(p0, locals, k) <==> a in Elements(offenders) {
      if a in Above(p0, locals, k) {
        assert a in Above(p0, locals, slots);
        assert a in Elements(offenders) + spammers;
      }
      if a in Elements(offenders) {
        assert a in Elements(offenders) + spammers;
        var i :| 0 <= i < |offenders| && offenders[i] == a;
      }
    }
  }

  lemma {:induction false} NextPicked(p0: Lists, p: Lists, locals: set<Address>, slots: nat, offenders: seq<Address>,
                                      spammers: set<Address>,
                   level: nat, total: int, limit: nat, a: Address, p': Lists, level': nat, total': int)
    requires Penalizing(p0, p, locals, slots, offenders, spammers, level, total, limit) && total > limit
    requires offenders != [] && a in spammers && forall b :: b in spammers ==> Size(p0, b) <= Size(p0, a)
    requires Leveled(p0, p', locals, level', total', limit) && Size(p0, a) <= level' <= level
    requires total' <= limit || level' == Size(p0, a)
    ensures Penalizing(p0, p', locals, slots, offenders + [a], spammers - {a}, level', total', limit)
  {
    hide Total, LevelTo;
    PickOne(p0, locals, slots, offenders, spammers, a);
  }

  lemma {:induction false} NonePicked(p: Lists, locals: set<Address>, slots: nat)
    ensures Picked(p, locals, slots, [], Above(p, locals, slots))
  {
  }

  lemma {:induction false} NobodyPicked(p: Lists, locals: set<Address>, slots: nat, total: int, limit: nat)
    requires Picked(p, locals, slots, [], {}) && total == Total(p) && total > limit
    ensures Leveled(p, p, locals, slots, total, limit)
  {
    hide LevelTo, Total;
    assert Above(p, locals, slots) == {};
    LeveledIdle(p, locals, slots, total, limit);
  }

  lemma {:induction false} PenalizingMeans(p0: Lists, p: Lists, locals: set<Address>, slots: nat,
                                           offenders: seq<Address>,
                        spammers: set<Address>, level: nat, total: int, limit: nat)
    requires Penalizing(p0, p, locals, slots, offenders, spammers, level, total, limit)
    ensures Leveled(p0, p, locals, level, total, limit) && level > slots && Distinct(offenders)
  {
  }

  lemma {:induction false} LastPhase(p0: Lists, p: Lists, locals: set<Address>, slots: nat, offenders: seq<Address>,
                  level: nat, total: int, limit: nat)
    requires Penalizing(p0, p, locals, slots, offenders, {}, level, total, limit) && total > limit && offenders != []
    ensures Leveled(p0, p, locals, level, total, limit) && level > slots && Distinct(offenders)
    ensures offenders[|offenders| - 1] in p0 && offenders[|offenders| - 1] !in locals
    ensures forall k :: slots <= k < level ==> Above(p0, locals, k) == Elements(offenders)
  {
    hide Total, LevelTo;
    assert offenders[|offenders| - 1] in Elements(offenders);
    assert offenders[|offenders| - 1] in Above(p0, locals, slots);
    forall k | slots <= k < level ensures Above(p0, locals, k) == Elements(offenders) {
      OffendersAbove(p0, locals, slots, offenders, {}, k);
    }
  }

  lemma {:induction false} LeveledCount(p0: Lists, p: Lists, locals: set<Address>, level: nat, total: int, limit: nat)
    requires Leveled(p0, p, locals, level, total, limit)
    ensures total == Total(p)
  {
  }

  /** Takes the account with the most transactions, as the priority queue does. */
  method PopLargest(p: Lists, accounts: set<Address>) returns (a: Address)
    requires accounts != {}
    ensures IsLargest(p, accounts, a) && a in accounts
  {
    LargestExists(p, accounts);
    a :| a in accounts && forall b :: b in accounts ==> Size(p, b) <= Size(p, a);
  }

  /** Leveling overshoots the limit by less than the number of accounts it cuts. */
  lemma {:induction false} OvershootBound(p0: Lists, p: Lists, locals: set<Address>, level: nat, total: int, limit: nat)
    requires Leveled(p0, p, locals, level, total, limit)
    ensures total + |Above(p0, locals, level)| > limit
    ensures forall a :: a in Above(p0, locals, level) <==> a in p0 && p[a] != p0[a]
  {
    LevelTotals(p0, locals, level);
    hide Capped, Total;
    forall a | a in p0 ensures a in Above(p0, locals, level) <==> p[a] != p0[a] {
      CappedSize(p0[a].items, level);
    }
  }
}
