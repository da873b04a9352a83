/** The order of the price heap, and which of its entries a discard names (core/tx_list.go). */
module PriceOrder {
  import opened Transactions

  /** Cheaper first; at the same price the higher nonce first. */
  predicate PriceLess(a: Tx, b: Tx) {
    a.price < b.price || (a.price == b.price && a.nonce > b.nonce)
  }

  predicate IsLocal(tx: Tx, local: set<Address>) {
    tx.from in local
  }

  /** The entries that satisfy a predicate, each as often as it is there. */
  ghost function Part(m: multiset<Tx>, p: Tx -> bool): (r: multiset<Tx>)
    ensures forall x :: r[x] == if p(x) then m[x] else 0
    decreases |m|
  {
    if m == multiset{} then m
    else
      var x :| x in m;
      Part(m[x := 0], p) + if p(x) then multiset{}[x := m[x]] else multiset{}
  }

  /** The entries of pooled remote transactions. */
  ghost function Live(items: seq<Tx>, all: set<Tx>, local: set<Address>): multiset<Tx> {
    Part(multiset(items), (t: Tx) => t in all && !IsLocal(t, local))
  }

  lemma {:induction false} LiveCounts(items: seq<Tx>, all: set<Tx>, local: set<Address>, t: Tx)
    ensures Live(items, all, local)[t] == if t in all && !IsLocal(t, local) then multiset(items)[t] else 0
  {
  }

  lemma {:induction false} LiveSame(items: seq<Tx>, items': seq<Tx>, all: set<Tx>, local: set<Address>)
    requires forall t :: t in all && !IsLocal(t, local) ==> multiset(items)[t] == multiset(items')[t]
    ensures Live(items, all, local) == Live(items', all, local)
  {
    hide Live;
    forall t ensures Live(items, all, local)[t] == Live(items', all, local)[t] {
      LiveCounts(items, all, local, t);
      LiveCounts(items', all, local, t);
    }
  }

  lemma {:induction false} LiveCovers(items: seq<Tx>, all: set<Tx>, local: set<Address>)
    requires forall t :: t in all ==> t in items
    ensures forall t :: t in Live(items, all, local) <==> t in all && !IsLocal(t, local)
  {
    hide Live;
    forall t ensures t in Live(items, all, local) <==> t in all && !IsLocal(t, local) {
      LiveCounts(items, all, local, t);
      if t in all {
        assert t in multiset(items);
      }
    }
  }

  // ----- which entries are named -----

  /** `named` are cheapest entries, as many as wanted or all. */
  ghost predicate Named(live: multiset<Tx>, named: multiset<Tx>, wanted: int) {
    && named <= live
    && |named| == (if wanted <= 0 then 0 else if |live| < wanted then |live| else wanted)
    && forall d, e :: d in named && e in live - named ==> !PriceLess(e, d)
  }

  /** Nothing is named before all that is cheaper, and all that is as cheap and has a higher nonce; so of one account's
      transactions at one price the last ones go first. */
  lemma {:induction false} CheapAndLateFirst(live: multiset<Tx>, named: multiset<Tx>, wanted: int, d: Tx, e: Tx)
    requires Named(live, named, wanted) && d in named
    requires e.price < d.price || (e.price == d.price && e.nonce > d.nonce)
    ensures named[e] == live[e]
  {
    assert e !in live - named;
  }

  /** The transactions with an entry. */
  ghost function Members(m: multiset<Tx>): set<Tx> {
    set t | t in m
  }

  /** The entries that are cheaper than t. */
  ghost function Cheaper(live: multiset<Tx>, t: Tx): multiset<Tx> {
    Part(live, (e: Tx) => PriceLess(e, t))
  }

  /** The entries of other transactions than which t is not cheaper. */
  ghost function NotDearer(live: multiset<Tx>, t: Tx): multiset<Tx> {
    Part(live, (e: Tx) => e != t && !PriceLess(t, e))
  }

  lemma {:induction false} SubSize(a: multiset<Tx>, b: multiset<Tx>)
    requires a <= b
    ensures |a| <= |b| && (|a| == |b| ==> a == b)
  {
    assert b == a + (b - a);
  }

  /** Two entries of a transaction are named only after all cheaper ones. */
  lemma {:induction false} NamedTwiceNeeds(live: multiset<Tx>, named: multiset<Tx>, wanted: int, t: Tx)
    requires Named(live, named, wanted) && named[t] >= 2
    ensures |Cheaper(live, t)| + 2 <= wanted
  {
    var least := Cheaper(live, t) + multiset{t, t};
    forall e ensures least[e] <= named[e] {
      if e in Cheaper(live, t) {
        assert PriceLess(e, t) && e != t;
        assert e in live - named <==> named[e] < live[e];
      }
    }
    SubSize(least, named);
  }

  /** Two entries of a transaction are named as soon as there is room for them after all others not dearer. */
  lemma {:induction false} NamedTwiceSure(live: multiset<Tx>, named: multiset<Tx>, wanted: int, t: Tx)
    requires Named(live, named, wanted) && live[t] >= 2 && |NotDearer(live, t)| + 2 <= wanted
    ensures named[t] >= 2
  {
    if named[t] < 2 {
      assert t in live - named;
      SubSize(named, live);
      assert |named| == wanted;
      var most := NotDearer(live, t) + multiset{t};
      forall d ensures named[d] <= most[d] {
        if d in named && d != t {
          assert !PriceLess(t, d);
        }
      }
      SubSize(named, most);
      assert false;
    }
  }

  lemma {:induction false} MembersSize(m: multiset<Tx>)
    ensures |Members(m)| <= |m| && (|Members(m)| == |m| <==> forall t :: m[t] <= 1)
  {
    var once := multiset(Members(m));
    assert once <= m;
    SubSize(once, m);
    if forall t :: m[t] <= 1 {
      assert once == m;
    }
  }

  /** No transaction with two entries has the price and the nonce of another one. */
  ghost predicate NoTies(live: multiset<Tx>) {
    forall t, e :: live[t] >= 2 && e in live && e != t ==> PriceLess(t, e) || PriceLess(e, t)
  }

  /** There are as many entries as wanted, and no transaction has two of them among the first. */
  ghost predicate Enough(live: multiset<Tx>, wanted: int) {
    |live| >= wanted && forall t :: live[t] >= 2 ==> |Cheaper(live, t)| + 2 > wanted
  }

  /** As many transactions are named as wanted if there are that many entries and no second entry comes in reach, and
      not if there are fewer or a second entry surely is in reach. Without ties that decides it. */
  lemma {:induction false} NamedExact(live: multiset<Tx>, named: multiset<Tx>, wanted: int)
    requires Named(live, named, wanted) && wanted >= 1
    ensures |Members(named)| <= wanted
    ensures Enough(live, wanted) ==> |Members(named)| == wanted
    ensures |live| < wanted ==> |Members(named)| < wanted
    ensures (exists t :: live[t] >= 2 && |NotDearer(live, t)| + 2 <= wanted) ==> |Members(named)| < wanted
    ensures NoTies(live) ==> (|Members(named)| == wanted <==> Enough(live, wanted))
  {
    hide Named, Members, Cheaper, NotDearer;
    assert |named| <= wanted && named <= live && (|live| < wanted ==> |named| < wanted)
           && (|live| >= wanted ==> |named| == wanted) by {
      NamedSize(live, named, wanted);
    }
    MembersSize(named);
    forall t | named[t] >= 2 ensures live[t] >= 2 && |Cheaper(live, t)| + 2 <= wanted {
      NamedTwiceNeeds(live, named, wanted, t);
    }
    forall t | live[t] >= 2 && |NotDearer(live, t)| + 2 <= wanted ensures named[t] >= 2 {
      NamedTwiceSure(live, named, wanted, t);
    }
    if NoTies(live) {
      forall t | live[t] >= 2 ensures NotDearer(live, t) == Cheaper(live, t) {
        WithoutTies(live, t);
      }
    }
  }

  lemma {:induction false} NamedSize(live: multiset<Tx>, named: multiset<Tx>, wanted: int)
    requires Named(live, named, wanted) && wanted >= 1
    ensures |named| <= wanted && named <= live && (|live| < wanted ==> |named| < wanted)
    ensures |live| >= wanted ==> |named| == wanted
  {
  }

  lemma {:induction false} WithoutTies(live: multiset<Tx>, t: Tx)
    requires NoTies(live) && live[t] >= 2
    ensures NotDearer(live, t) == Cheaper(live, t)
  {
    forall e ensures NotDearer(live, t)[e] == Cheaper(live, t)[e] {
    }
  }
}
