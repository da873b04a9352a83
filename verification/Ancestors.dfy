/** The search for the n-th ancestor of a block through the canonical index (core/headerchain.go). */
module Ancestors {
  import opened Collections
  import opened CanonicalChain

  /** Stored headers are linked as header validation leaves them. */
  ghost predicate HeadersOk(store: Store) {
    StoreOk(store) && forall h {:trigger Linked(store, h)} :: h in store ==> Linked(store, h)
  }

  /** Only number zero has no parent hash, and a stored parent has the number before. */
  ghost predicate Linked(store: Store, h: Hash)
    requires h in store
  {
    && (store[h].number > 0 ==> store[h].parent != NO_HASH)
    && (store[h].parent in store ==> store[store[h].parent].number == store[h].number - 1)
  }

  /** The hash reached by following parent hashes a number of times; None where a header is missing on the way. */
  ghost function Ancestor(store: Store, hash: Hash, times: nat): Option<Hash>
    decreases times
  {
    if times == 0 then Some(hash)
    else if hash in store then Ancestor(store, store[hash].parent, times - 1)
    else None
  }

  function ReadCanonicalHash(index: map<nat, Hash>, number: nat): Hash {
    if number in index then index[number] else NO_HASH
  }

  ghost predicate IsCanonical(index: map<nat, Hash>, hash: Hash, number: nat) {
    number in index && index[number] == hash
  }

  /** How many blocks have to be looked at one by one before the canonical chain or the ancestor is reached. */
  ghost function StepsOff(store: Store, index: map<nat, Hash>, hash: Hash, number: nat, ancestor: nat): nat
    requires ancestor <= number
    decreases ancestor
  {
    if ancestor == 0 || IsCanonical(index, hash, number) then 0
    else if hash in store then 1 + StepsOff(store, index, store[hash].parent, number - 1, ancestor - 1)
    else 1
  }

  /** The index is in order up to a number. */
  ghost predicate ListedTo(store: Store, index: map<nat, Hash>, number: nat) {
    forall n {:trigger Listed(store, index, n)} :: n in index && n <= number ==> Listed(store, index, n)
  }

  /** Where the index is in order, going down it is following parents. */
  lemma {:induction false} IndexIsAncestor(store: Store, index: map<nat, Hash>, number: nat, times: nat)
    requires ListedTo(store, index, number) && number in index && times <= number
    ensures number - times in index && Ancestor(store, index[number], times) == Some(index[number - times])
    decreases times
  {
    assert Listed(store, index, number);
    if times > 0 {
      IndexIsAncestor(store, index, number - 1, times - 1);
    }
  }

  lemma {:induction false} AtIsAncestor(store: Store, b: Block, level: nat)
    requires StoreOk(store) && InStore(store, b) && At(store, b, level).Some?
    ensures level <= b.number && Ancestor(store, b.hash, b.number - level) == Some(At(store, b, level).value.hash)
    decreases b.number
  {
    if level < b.number {
      AtIsAncestor(store, Parent(store, b).value, level);
    }
  }

  function Minus(a: nat, b: nat): nat {
    if b <= a then a - b else 0
  }

  // ----- the search, on any index -----

  /** A hash and its number, no hash standing for no answer, and what is left of the budget. */
  datatype Answer = Answer(hash: Hash, number: nat, left: nat)

  /** The header is found: in the cache by its hash alone, or else in the store by hash and number. */
  predicate Found(store: Store, cached: set<Hash>, hash: Hash, number: nat) {
    hash in store && (hash in cached || store[hash].number == number)
  }

  function Search(store: Store, cached: set<Hash>, index: map<nat, Hash>, hash: Hash, number: nat, todo: nat,
                  budget: nat): Answer
    requires todo <= number
    decreases todo
  {
    if todo == 0 then Answer(hash, number, budget)
    else if ReadCanonicalHash(index, number) == hash then
      Answer(ReadCanonicalHash(index, number - todo), number - todo, budget)
    else if budget == 0 then Answer(NO_HASH, 0, 0)
    else if !Found(store, cached, hash, number) then Answer(NO_HASH, 0, budget - 1)
    else Search(store, cached, index, store[hash].parent, number - 1, todo - 1, budget - 1)
  }

  function Sought(store: Store, cached: set<Hash>, index: map<nat, Hash>, hash: Hash, number: nat, ancestor: nat,
                  budget: nat): Answer
  {
    if ancestor > number then Answer(NO_HASH, 0, budget)
    else if ancestor != 1 then Search(store, cached, index, hash, number, ancestor, budget)
    else if Found(store, cached, hash, number) then Answer(store[hash].parent, number - 1, budget)
    else Answer(NO_HASH, 0, budget)
  }

  /** The hash, where it is stored, is that of a block with the number. */
  ghost predicate Names(store: Store, hash: Hash, number: nat) {
    hash in store ==> store[hash].number == number
  }

  lemma {:induction false} SearchExact(store: Store, cached: set<Hash>, index: map<nat, Hash>, hash: Hash,
                                       number: nat, todo: nat, budget: nat)
    requires HeadersOk(store) && ListedTo(store, index, number) && todo <= number
    requires hash != NO_HASH && Names(store, hash, number)
    ensures var r := Search(store, cached, index, hash, number, todo, budget);
            var steps := StepsOff(store, index, hash, number, todo);
            && (r.hash != NO_HASH <==> Ancestor(store, hash, todo).Some? && steps <= budget)
            && (r.hash != NO_HASH ==> Ancestor(store, hash, todo) == Some(r.hash) && r.number == number - todo)
            && (r.hash == NO_HASH ==> r.number == 0)
            && r.left == Minus(budget, steps)
    decreases todo
  {
    if todo > 0 {
      if IsCanonical(index, hash, number) {
        IndexIsAncestor(store, index, number, todo);
        assert Listed(store, index, number - todo);
      } else if hash in store && budget > 0 {
        assert Linked(store, hash);
        SearchExact(store, cached, index, store[hash].parent, number - 1, todo - 1, budget - 1);
      }
    }
  }

  /** Where the index is in order up to the number asked about: there is an answer exactly when the path is stored and
      the blocks to be looked at one by one are within the budget; it is reached by following parent hashes the given
      number of times, and costs exactly those blocks. */
  lemma {:induction false} SoughtExact(store: Store, cached: set<Hash>, index: map<nat, Hash>, hash: Hash,
                                       number: nat, ancestor: nat, budget: nat)
    requires HeadersOk(store) && ListedTo(store, index, number)
    requires hash != NO_HASH && Names(store, hash, number)
    ensures var r := Sought(store, cached, index, hash, number, ancestor, budget);
            && (r.hash != NO_HASH <==> ancestor <= number && Ancestor(store, hash, ancestor).Some?
                                       && (ancestor == 1 || StepsOff(store, index, hash, number, ancestor) <= budget))
            && (r.hash != NO_HASH ==> Ancestor(store, hash, ancestor) == Some(r.hash) && r.number == number - ancestor)
            && (r.hash == NO_HASH ==> r.number == 0)
            && r.left == (if ancestor == 1 || ancestor > number then budget
                          else Minus(budget, StepsOff(store, index, hash, number, ancestor)))
  {
    if ancestor == 1 {
      if hash in store {
        assert Linked(store, hash);
      }
    } else if ancestor <= number {
      SearchExact(store, cached, index, hash, number, ancestor, budget);
    }
  }

  /** No block has the zero hash, but it is taken for the canonical one where no number is listed. */
  lemma {:induction false} ZeroHashExact(store: Store, cached: set<Hash>, index: map<nat, Hash>, number: nat,
                                         ancestor: nat, budget: nat)
    requires HeadersOk(store) && ListedTo(store, index, number)
    ensures Sought(store, cached, index, NO_HASH, number, ancestor, budget).hash != NO_HASH
       <==> 2 <= ancestor <= number && number !in index && number - ancestor in index
  {
    if number in index {
      assert Listed(store, index, number);
    }
    if ancestor <= number && number - ancestor in index {
      assert Listed(store, index, number - ancestor);
    }
  }

  /** A chain of two blocks answers for the zero hash with its head. */
  lemma {:induction false} ZeroHashAnswered()
    ensures var store := map[1 := Block(1, NO_HASH, 0), 2 := Block(2, 1, 1)];
            var index: map<nat, Hash> := map[0 := 1, 1 := 2];
            HeadersOk(store) && IndexOk(store, index) && Sought(store, {}, index, NO_HASH, 3, 2, 0) == Answer(2, 1, 0)
  {
  }

  /** Asked about a block of the old branch that is still listed above a lower head, the search jumps down the rewritten
      index: its answer is the block's ancestor exactly when that lies outside the rewritten stretch. */
  lemma {:induction false} StaleSearchExact(store: Store, index: map<nat, Hash>, index': map<nat, Hash>, a: Block,
                                            b: Block, level: nat, n: nat, target: nat, budget: nat, cached: set<Hash>)
    requires StoreOk(store) && InStore(store, a) && InStore(store, b)
    requires CanonicalTo(store, index, a) && CanonicalTo(store, index', b)
    requires Meet(store, a, b, level) && forall l: nat :: l > level ==> !Meet(store, a, b, l)
    requires Untouched(index, index', level, b.number)
    requires b.number < n <= a.number && target + 2 <= n
    ensures At(store, a, n).Some?
    ensures var c := At(store, a, n).value;
            Ancestor(store, c.hash, n - target) ==
            Some(Sought(store, cached, index', c.hash, n, n - target, budget).hash)
            <==> target > b.number || target <= level
  {
    hide Meet, CanonicalTo, Untouched;
    StaleJump(store, index, index', a, b, level, n);
    StaleJump(store, index, index', a, b, level, target);
    AtAt(store, a, n, target);
    StoredAt(store, a, n);
    AtIsAncestor(store, At(store, a, n).value, target);
  }

  /** Three blocks on the first one, and then a competing block: the second ancestor of the third block is given as that
      competing block. */
  lemma {:induction false} StaleAnswer()
    ensures var store := map[1 := Block(1, NO_HASH, 0), 2 := Block(2, 1, 1), 3 := Block(3, 2, 2), 4 := Block(4, 3, 3),
                             5 := Block(5, 1, 1)];
            var index: map<nat, Hash> := map[0 := 1, 1 := 5, 2 := 3, 3 := 4];
            && HeadersOk(store) && CanonicalTo(store, index, Block(5, 1, 1))
            && Ancestor(store, 4, 2) == Some(2) && Sought(store, {}, index, 4, 3, 2, 0) == Answer(5, 1, 0)
  {
    var store := map[1 := Block(1, NO_HASH, 0), 2 := Block(2, 1, 1), 3 := Block(3, 2, 2), 4 := Block(4, 3, 3),
                     5 := Block(5, 1, 1)];
    assert Ancestor(store, 3, 1) == Ancestor(store, 2, 0);
    assert CanonicalTo(store, map[0 := 1, 1 := 5, 2 := 3, 3 := 4], Block(1, NO_HASH, 0));
  }

  class HeaderChain {
    var store: Store
    var canonical: map<nat, Hash>
    var headerCache: map<Hash, Block>

    ghost predicate Valid()
      reads this
    {
      HeadersOk(store) && forall h :: h in headerCache ==> h in store && headerCache[h] == store[h]
    }

    constructor (store: Store, canonical: map<nat, Hash>)
      requires HeadersOk(store)
      ensures Valid() && this.store == store && this.canonical == canonical
    {
      this.store, this.canonical, headerCache := store, canonical, map[];
    }

    /** Reads a header through the cache, which is keyed by the hash alone. */
    method GetHeader(hash: Hash, number: nat) returns (r: Option<Block>)
      requires Valid()
      modifies `headerCache
      ensures Valid()
      ensures r.Some? <==> Found(store, old(headerCache).Keys, hash, number)
      ensures r.Some? ==> r.value == store[hash]
      ensures headerCache.Keys == old(headerCache).Keys + if GetBlock(store, hash, number).Some? then {hash} else {}
    {
      if hash in headerCache {
        return Some(headerCache[hash]);
      }
      r := GetBlock(store, hash, number);
      if r.Some? {
        headerCache := headerCache[hash := r.value];
      }
    }

    /** The ancestor of a block, individually checking at most budget blocks off the canonical chain. */
    method GetAncestor(hash: Hash, number: nat, ancestor: nat, budget: nat) returns (h: Hash, n: nat, left: nat)
      requires Valid()
      modifies `headerCache
      ensures Valid()
      ensures Answer(h, n, left) == Sought(store, old(headerCache).Keys, canonical, hash, number, ancestor, budget)
      ensures ListedTo(store, canonical, number) && hash != NO_HASH && Names(store, hash, number) ==>
                && (h != NO_HASH <==>
                    && ancestor <= number && Ancestor(store, hash, ancestor).Some?
                    && (ancestor == 1 || StepsOff(store, canonical, hash, number, ancestor) <= budget))
                && (h != NO_HASH ==> Ancestor(store, hash, ancestor) == Some(h) && n == number - ancestor)
    {
      hide ListedTo, Ancestor, StepsOff;
      ghost var cached := headerCache.Keys;
      if ListedTo(store, canonical, number) && hash != NO_HASH && Names(store, hash, number) {
        SoughtExact(store, cached, canonical, hash, number, ancestor, budget);
      }
      if ancestor > number {
        return NO_HASH, 0, budget;
      }
      if ancestor == 1 {
        var header := GetHeader(hash, number);
        if header.Some? {
          return header.value.parent, number - 1, budget;
        } else {
          return NO_HASH, 0, budget;
        }
      }
      h, n, left := hash, number, budget;
      var todo := ancestor;
      while todo != 0
        invariant Valid() && 0 <= todo <= n && n - todo == number - ancestor
        invariant Names(store, h, n) || headerCache.Keys == cached
        invariant Search(store, cached, canonical, hash, number, ancestor, budget) ==
                  Search(store, cached, canonical, h, n, todo, left)
      {
        if ReadCanonicalHash(canonical, n) == h {
          n := n - todo;
          return ReadCanonicalHash(canonical, n), n, left;
        }
        if left == 0 {
          return NO_HASH, 0, left;
        }
        left := left - 1;
        todo := todo - 1;
        var header := GetHeader(h, n);
        if header.None? {
          return NO_HASH, 0, left;
        }
        assert Linked(store, h);
        h := header.value.parent;
        n := n - 1;
      }
    }
  }
}
