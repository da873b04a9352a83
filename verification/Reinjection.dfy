/** Which transactions a change of head puts back into the pool (core/tx_pool.go). */
module Reinjection {
  import opened Collections
  import opened Transactions
  import opened CanonicalChain

  /** The transactions of each block. */
  type Bodies = Hash -> seq<Tx>

  const MAX_DEPTH := 64

  /** Two heads whose branches are compared: the new one is not the child of the old one, is not lower, and is not too
      much higher. */
  predicate Compared(oldHead: Block, newHead: Block) {
    oldHead.hash != newHead.parent && oldHead.number <= newHead.number <= oldHead.number + MAX_DEPTH
  }

  /** Some block of the branch above the level has the transaction. */
  ghost predicate Carries(store: Store, bodies: Bodies, head: Block, level: nat, tx: Tx) {
    exists n: nat :: level < n <= head.number && CarriedAt(store, bodies, head, n, tx)
  }

  ghost predicate CarriedAt(store: Store, bodies: Bodies, head: Block, n: nat, tx: Tx) {
    At(store, head, n).Some? && tx in bodies(At(store, head, n).value.hash)
  }

  /** The old branch has the transaction above the level, and the new one does not. */
  ghost predicate Missing(store: Store, bodies: Bodies, oldHead: Block, newHead: Block, level: nat, tx: Tx) {
    Carries(store, bodies, oldHead, level, tx) && !Carries(store, bodies, newHead, level, tx)
  }

  /** What is put back for two heads whose highest common block is at the level. */
  ghost predicate PutBack(store: Store, bodies: Bodies, oldHead: Block, newHead: Block, level: nat, tx: Tx) {
    Compared(oldHead, newHead) && Missing(store, bodies, oldHead, newHead, level, tx)
  }

  method BranchTxs(bodies: Bodies, branch: seq<Block>) returns (txs: seq<Tx>)
    ensures forall tx :: tx in txs <==> exists i :: 0 <= i < |branch| && tx in bodies(branch[i].hash)
  {
    txs := [];
    for k := 0 to |branch|
      invariant forall tx :: tx in txs <==> exists i :: 0 <= i < k && tx in bodies(branch[i].hash)
    {
      txs := txs + bodies(branch[k].hash);
    }
  }

  lemma {:induction false} BranchCarries(store: Store, bodies: Bodies, head: Block, branch: seq<Block>, level: nat,
                                         tx: Tx)
    requires IsBranch(store, head, branch, level)
    ensures Carries(store, bodies, head, level, tx) <==> exists i :: 0 <= i < |branch| && tx in bodies(branch[i].hash)
  {
    hide At;
    if Carries(store, bodies, head, level, tx) {
      var n: nat :| level < n <= head.number && CarriedAt(store, bodies, head, n, tx);
      assert At(store, head, head.number - (head.number - n)) == Some(branch[head.number - n]);
    }
    if i :| 0 <= i < |branch| && tx in bodies(branch[i].hash) {
      assert CarriedAt(store, bodies, head, head.number - i, tx);
    }
  }

  function Kept(a: seq<Tx>, remove: set<Tx>): seq<Tx> {
    if a == [] then []
    else Kept(a[..|a| - 1], remove) + if a[|a| - 1] in remove then [] else [a[|a| - 1]]
  }

  lemma {:induction false} KeptMeans(a: seq<Tx>, remove: set<Tx>)
    ensures forall tx :: tx in Kept(a, remove) <==> tx in a && tx !in remove
  {
    if a != [] {
      KeptMeans(a[..|a| - 1], remove);
      assert a == a[..|a| - 1] + [a[|a| - 1]];
    }
  }

  /** The transactions of the one list that are not in the other, in order. */
  method TxDifference(a: seq<Tx>, b: seq<Tx>) returns (keep: seq<Tx>)
    ensures keep == Kept(a, set tx | tx in b) && forall tx :: tx in keep <==> tx in a && tx !in b
  {
    keep := [];
    var remove := set tx | tx in b;
    for i := 0 to |a|
      invariant keep == Kept(a[..i], remove)
    {
      assert a[..i + 1][..i] == a[..i];
      if a[i] !in remove {
        keep := keep + [a[i]];
      }
    }
    assert a[..|a|] == a;
    KeptMeans(a, remove);
  }

  /** Collects what is to be put back, or nothing at all where a branch turns out to be broken. */
  method Collect(chain: BlockChain, bodies: Bodies, oldHead: Option<Block>, newHead: Block)
    returns (r: Option<seq<Tx>>, ghost level: nat)
    requires StoreOk(chain.store)
    requires oldHead.Some? && Compared(oldHead.value, newHead) ==>
               InStore(chain.store, oldHead.value) && InStore(chain.store, newHead)
    ensures oldHead.None? || !Compared(oldHead.value, newHead) ==> r == Some([])
    ensures oldHead.Some? && Compared(oldHead.value, newHead) ==>
              && (r.None? <==> forall l: nat :: !Meet(chain.store, oldHead.value, newHead, l))
              && (r.Some? ==>
                    && Meet(chain.store, oldHead.value, newHead, level)
                    && (forall l: nat :: l > level ==> !Meet(chain.store, oldHead.value, newHead, l))
                    && forall tx :: tx in r.value <==> Missing(chain.store, bodies, oldHead.value, newHead, level, tx))
  {
    hide At, Meet, IsBranch, Carries;
    level := 0;
    if oldHead.None? || !Compared(oldHead.value, newHead) {
      return Some([]), level;
    }
    var walk, discardedBlocks, includedBlocks;
    walk, discardedBlocks, includedBlocks, level := chain.FindCommon(oldHead.value, newHead);
    if walk != Reorganised {
      return None, level;
    }
    var discarded := BranchTxs(bodies, discardedBlocks);
    var included := BranchTxs(bodies, includedBlocks);
    var keep := TxDifference(discarded, included);
    forall tx ensures tx in keep <==> Missing(chain.store, bodies, oldHead.value, newHead, level, tx) {
      BranchCarries(chain.store, bodies, oldHead.value, discardedBlocks, level, tx);
      BranchCarries(chain.store, bodies, newHead, includedBlocks, level, tx);
    }
    return Some(keep), level;
  }

  /** A head that is lower than the old one puts nothing back: here the transaction of an abandoned block is dropped. */
  method LowerHeadForgets(tx: Tx) returns (r: Option<seq<Tx>>, bodies: Bodies)
    ensures var store := map[1 := Block(1, NO_HASH, 0), 2 := Block(2, 1, 1), 3 := Block(3, 2, 2), 4 := Block(4, 1, 1)];
            r == Some([]) && Missing(store, bodies, Block(3, 2, 2), Block(4, 1, 1), 0, tx)
  {
    bodies := (h: Hash) => if h == 3 then [tx] else [];
    var chain := ShorterBranchStaysListed();
    ghost var level;
    r, level := Collect(chain, bodies, Some(Block(3, 2, 2)), Block(4, 1, 1));
    ghost var store := map[1 := Block(1, NO_HASH, 0), 2 := Block(2, 1, 1), 3 := Block(3, 2, 2), 4 := Block(4, 1, 1)];
    assert CarriedAt(store, bodies, Block(3, 2, 2), 2, tx);
  }

  // ----- when everything missing is put back -----

  ghost predicate Highest(store: Store, a: Block, b: Block, level: nat) {
    Meet(store, a, b, level) && forall l: nat :: l > level ==> !Meet(store, a, b, l)
  }

  /** Whatever the blocks hold, exactly what the new branch misses is put back if and only if the heads are compared or
      the old head is an ancestor of the new one, which misses nothing. */
  lemma {:induction false} PutBackExact(store: Store, a: Block, b: Block, level: nat)
    requires StoreOk(store) && InStore(store, a) && InStore(store, b) && Highest(store, a, b, level)
    ensures (forall bodies: Bodies, tx ::
               PutBack(store, bodies, a, b, level, tx) <==> Missing(store, bodies, a, b, level, tx))
       <==> (a.hash != b.parent && a.number <= b.number <= a.number + 64) || level == a.number
  {
    assert Compared(a, b) <==> a.hash != b.parent && a.number <= b.number <= a.number + 64;
    hide At, Carries, Compared;
    if level == a.number {
      forall bodies: Bodies, tx: Tx ensures !Missing(store, bodies, a, b, level, tx) {
        NothingAbove(store, bodies, a, tx);
      }
    } else if !Compared(a, b) {
      var tx := Tx(0, 1, EMPTY_ADDRESS, 0, 0, 0, 0, 0, false, [], 0);
      var bodies: Bodies := (h: Hash) => if h == a.hash then [tx] else [];
      HeadOnly(store, bodies, a, b, level, tx);
      assert !PutBack(store, bodies, a, b, level, tx);
    }
  }

  lemma {:induction false} NothingAbove(store: Store, bodies: Bodies, a: Block, tx: Tx)
    ensures !Carries(store, bodies, a, a.number, tx)
  {
  }

  /** A transaction that only the old head's block holds is missing, unless that block is on the new branch. */
  lemma {:induction false} HeadOnly(store: Store, bodies: Bodies, a: Block, b: Block, level: nat, tx: Tx)
    requires StoreOk(store) && InStore(store, a) && InStore(store, b) && Highest(store, a, b, level) && level < a.number
    requires forall h :: tx in bodies(h) <==> h == a.hash
    ensures Missing(store, bodies, a, b, level, tx)
  {
    assert CarriedAt(store, bodies, a, a.number, tx);
    forall n: nat | level < n <= b.number ensures !CarriedAt(store, bodies, b, n, tx) {
      if At(store, b, n).Some? {
        StoredAt(store, b, n);
        assert !Meet(store, a, b, n);
      }
    }
  }

  // ----- a much higher head -----

  /** Block number n of a branch of any length on the first block. */
  function Link(n: nat): Block
    requires n >= 1
  {
    Block(n + 2, if n == 1 then 1 else n + 1, n)
  }

  /** The first block, a competitor of the branch's first one, and the branch up to length k. */
  function Fork(k: nat): Store {
    if k == 0 then map[1 := Block(1, NO_HASH, 0), 2 := Block(2, 1, 1)] else Fork(k - 1)[k + 2 := Link(k)]
  }

  ghost predicate LinkIn(store: Store, n: nat)
    requires n > 0
  {
    n + 2 in store && store[n + 2] == Link(n)
  }

  lemma {:induction false} ForkFacts(k: nat)
    ensures StoreOk(Fork(k)) && 1 in Fork(k) && Fork(k)[1] == Block(1, NO_HASH, 0)
    ensures 2 in Fork(k) && Fork(k)[2] == Block(2, 1, 1)
    ensures forall n :: 1 <= n <= k ==> LinkIn(Fork(k), n)
  {
    if k > 0 {
      ForkFacts(k - 1);
      LinkAdded(Fork(k - 1), k);
    }
  }

  lemma {:induction false} LinkAdded(store: Store, k: nat)
    requires k > 0 && StoreOk(store) && 2 in store && store[2] == Block(2, 1, 1)
    requires 1 in store && store[1] == Block(1, NO_HASH, 0) && forall n :: 1 <= n < k ==> LinkIn(store, n)
    ensures var more := store[k + 2 := Link(k)];
            StoreOk(more) && forall n :: 1 <= n <= k ==> LinkIn(more, n)
  {
    var more := store[k + 2 := Link(k)];
    forall n | 1 <= n <= k ensures LinkIn(more, n) {
      assert n < k ==> LinkIn(store, n);
    }
  }

  lemma {:induction false} ForkAt(k: nat, n: nat, level: nat)
    requires 1 <= n <= k && level <= n
    ensures At(Fork(k), Link(n), level) == Some(if level == 0 then Block(1, NO_HASH, 0) else Link(level))
    decreases n
  {
    hide Fork;
    ForkFacts(k);
    if level < n && n > 1 {
      assert LinkIn(Fork(k), n - 1);
      ForkAt(k, n - 1, level);
    }
  }

  /** A head more than 64 blocks higher puts nothing back, although the old head's transaction is missing. */
  lemma {:induction false} HigherHeadForgets(k: nat, tx: Tx, bodies: Bodies)
    requires k > 65 && forall h :: tx in bodies(h) <==> h == 2
    ensures StoreOk(Fork(k)) && InStore(Fork(k), Block(2, 1, 1)) && InStore(Fork(k), Link(k))
    ensures Highest(Fork(k), Block(2, 1, 1), Link(k), 0)
    ensures Missing(Fork(k), bodies, Block(2, 1, 1), Link(k), 0, tx)
    ensures !PutBack(Fork(k), bodies, Block(2, 1, 1), Link(k), 0, tx)
  {
    hide Fork, Carries;
    ForkFacts(k);
    assert LinkIn(Fork(k), k) && LinkIn(Fork(k), 1);
    ForkAt(k, k, 0);
    ForkAt(k, k, 1);
    assert At(Fork(k), Block(2, 1, 1), 0) == Some(Block(1, NO_HASH, 0));
    HeadOnly(Fork(k), bodies, Block(2, 1, 1), Link(k), 0, tx);
  }
}
