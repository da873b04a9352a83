/** The canonical chain: an index from numbers to hashes over a store of parent-linked blocks, its reorganisation
    (core/blockchain.go), and the search for ancestors through it (core/headerchain.go). */
module CanonicalChain {
  import opened Collections

  type Hash = nat

  const NO_HASH: Hash := 0

  datatype Block = Block(hash: Hash, parent: Hash, number: nat)

  type Store = map<Hash, Block>

  /** Blocks are stored under their own, non-zero hashes. */
  ghost predicate StoreOk(store: Store) {
    forall h :: h in store ==> h != NO_HASH && store[h].hash == h
  }

  ghost predicate InStore(store: Store, b: Block) {
    b.hash in store && store[b.hash] == b
  }

  /** Looks a block up by hash and number; both have to match. */
  function GetBlock(store: Store, hash: Hash, number: int): Option<Block> {
    if hash in store && store[hash].number == number then Some(store[hash]) else None
  }

  function Parent(store: Store, b: Block): (p: Option<Block>)
    ensures p.Some? ==> p.value.number == b.number - 1
  {
    GetBlock(store, b.parent, b.number - 1)
  }

  /** The ancestor of b at a level, or b itself; None where a link is missing. */
  function At(store: Store, b: Block, level: nat): (a: Option<Block>)
    ensures a.Some? ==> a.value.number == level
    decreases b.number
  {
    if level == b.number then Some(b)
    else if level > b.number then None
    else match Parent(store, b)
         case None => None
         case Some(p) => At(store, p, level)
  }

  /** The index lists b and all its ancestors, down to number zero. */
  ghost predicate CanonicalTo(store: Store, index: map<nat, Hash>, b: Block)
    decreases b.number
  {
    && b.number in index && index[b.number] == b.hash
    && (b.number > 0 ==> Parent(store, b).Some? && CanonicalTo(store, index, Parent(store, b).value))
  }

  lemma {:induction false} CanonicalFrame(store: Store, index: map<nat, Hash>, index': map<nat, Hash>, b: Block)
    requires CanonicalTo(store, index, b)
    requires forall n :: 0 <= n <= b.number && n in index ==> n in index' && index'[n] == index[n]
    ensures CanonicalTo(store, index', b)
    decreases b.number
  {
    if b.number > 0 {
      CanonicalFrame(store, index, index', Parent(store, b).value);
    }
  }

  lemma {:induction false} CanonicalAt(store: Store, index: map<nat, Hash>, b: Block, level: nat)
    requires CanonicalTo(store, index, b) && level <= b.number
    ensures At(store, b, level).Some? && CanonicalTo(store, index, At(store, b, level).value)
    decreases b.number
  {
    if level < b.number {
      CanonicalAt(store, index, Parent(store, b).value, level);
    }
  }

  /** Going to a level in two stages. */
  lemma {:induction false} AtAt(store: Store, b: Block, level: nat, lower: nat)
    requires lower <= level <= b.number
    ensures At(store, b, level).Some? ==> At(store, At(store, b, level).value, lower) == At(store, b, lower)
    ensures At(store, b, level).None? ==> At(store, b, lower).None?
    decreases b.number
  {
    if level < b.number && Parent(store, b).Some? {
      AtAt(store, Parent(store, b).value, level, lower);
    }
  }

  lemma {:induction false} StoredAt(store: Store, b: Block, level: nat)
    requires StoreOk(store) && InStore(store, b) && At(store, b, level).Some?
    ensures InStore(store, At(store, b, level).value)
    decreases b.number
  {
    if level < b.number {
      StoredAt(store, Parent(store, b).value, level);
    }
  }

  /** The blocks of a branch from b down to, but not including, the given level. */
  ghost predicate IsBranch(store: Store, b: Block, branch: seq<Block>, level: nat) {
    && level <= b.number && |branch| == b.number - level
    && forall i :: 0 <= i < |branch| ==> At(store, b, b.number - i) == Some(branch[i])
  }

  lemma {:induction false} BranchStep(store: Store, b: Block, branch: seq<Block>, level: nat)
    requires IsBranch(store, b, branch, level) && level >= 1 && At(store, b, level).Some?
    ensures IsBranch(store, b, branch + [At(store, b, level).value], level - 1)
    ensures At(store, b, level - 1) == Parent(store, At(store, b, level).value)
  {
    AtAt(store, b, level, level - 1);
  }

  /** Both branches pass through the same block at the level. */
  ghost predicate Meet(store: Store, a: Block, b: Block, level: nat) {
    level <= a.number && level <= b.number && At(store, a, level).Some? && At(store, a, level) == At(store, b, level)
  }

  /** The index is rewritten at most above the one number and up to the other. */
  ghost predicate Untouched(index: map<nat, Hash>, index': map<nat, Hash>, level: nat, top: nat) {
    && (forall n :: n in index && (n <= level || n > top) ==> n in index' && index'[n] == index[n])
    && (forall n :: n in index' && (n <= level || n > top) ==> n in index)
  }

  datatype ReorgResult = Reorganised | InvalidOldChain | InvalidNewChain

  class BlockChain {
    var store: Store
    var canonical: map<nat, Hash>
    var currentBlock: Block
    var lastBlock: Block
    var isFallback: bool

    ghost predicate Valid()
      reads this
    {
      StoreOk(store) && InStore(store, currentBlock) && CanonicalTo(store, canonical, currentBlock)
    }

    constructor (genesis: Block)
      requires genesis.number == 0 && genesis.hash != NO_HASH
      ensures Valid() && currentBlock == genesis
      ensures store == map[genesis.hash := genesis] && canonical == map[0 := genesis.hash]
    {
      store, canonical := map[genesis.hash := genesis], map[0 := genesis.hash];
      currentBlock, lastBlock, isFallback := genesis, genesis, false;
    }

    /** Makes a block the head of the canonical chain. */
    method Insert(block: Block)
      modifies `canonical, `currentBlock, `lastBlock, `isFallback
      ensures canonical == old(canonical)[block.number := block.hash] && currentBlock == block
      ensures lastBlock == (if block.number >= old(lastBlock).number then block else old(lastBlock))
      ensures isFallback == (old(isFallback) && block.number < old(lastBlock).number)
    {
      canonical := canonical[block.number := block.hash];
      currentBlock := block;
      if block.number >= lastBlock.number {
        isFallback := false;
        lastBlock := block;
      }
    }

    /** Walks two branches back to the highest block they share, collecting the blocks above it on either side. */
    method FindCommon(oldHead: Block, newHead: Block)
      returns (r: ReorgResult, oldChain: seq<Block>, newChain: seq<Block>, ghost level: nat)
      requires StoreOk(store) && InStore(store, oldHead) && InStore(store, newHead)
      ensures r == Reorganised ==>
                && Meet(store, oldHead, newHead, level)
                && IsBranch(store, oldHead, oldChain, level) && IsBranch(store, newHead, newChain, level)
                && forall l: nat :: l > level ==> !Meet(store, oldHead, newHead, l)
      ensures r != Reorganised ==> forall l: nat :: !Meet(store, oldHead, newHead, l)
    {
      hide At, Meet, IsBranch;
      var top := if oldHead.number <= newHead.number then oldHead.number else newHead.number;
      var oldBlock, newBlock;
      oldChain, oldBlock := Descend(oldHead, top);
      newChain, newBlock := Descend(newHead, top);
      level := top;
      NotAbove(store, oldHead, newHead, top);
      if oldBlock.None? {
        BrokenBranch(store, oldHead, newHead, top);
        return InvalidOldChain, oldChain, newChain, level;
      }
      if newBlock.None? {
        MeetSymmetric(store, newHead, oldHead);
        BrokenBranch(store, newHead, oldHead, top);
        return InvalidNewChain, oldChain, newChain, level;
      }
      while oldBlock.value.hash != newBlock.value.hash
        invariant oldBlock.Some? && newBlock.Some? && level <= top
        invariant At(store, oldHead, level) == oldBlock && At(store, newHead, level) == newBlock
        invariant InStore(store, oldBlock.value) && InStore(store, newBlock.value)
        invariant IsBranch(store, oldHead, oldChain, level) && IsBranch(store, newHead, newChain, level)
        invariant forall l: nat :: l > level ==> !Meet(store, oldHead, newHead, l)
        decreases level
      {
        DifferHere(store, oldHead, newHead, level);
        ghost var above := (oldChain, newChain);
        oldChain := oldChain + [oldBlock.value];
        newChain := newChain + [newBlock.value];
        var o := GetBlock(store, oldBlock.value.parent, oldBlock.value.number - 1);
        var n := GetBlock(store, newBlock.value.parent, newBlock.value.number - 1);
        if o.None? {
          BrokenHere(store, oldHead, newHead, level);
          return InvalidOldChain, oldChain, newChain, level;
        }
        if n.None? {
          MeetSymmetric(store, newHead, oldHead);
          BrokenHere(store, newHead, oldHead, level);
          return InvalidNewChain, oldChain, newChain, level;
        }
        BranchStep(store, oldHead, above.0, level);
        BranchStep(store, newHead, above.1, level);
        oldBlock, newBlock := o, n;
        level := level - 1;
      }
      MeetHere(store, oldHead, newHead, level);
      r := Reorganised;
    }

    /** Follows parents down to a number, collecting the blocks passed. */
    method Descend(head: Block, number: nat) returns (branch: seq<Block>, at: Option<Block>)
      requires number <= head.number && StoreOk(store) && InStore(store, head)
      ensures at == At(store, head, number)
      ensures at.Some? ==> IsBranch(store, head, branch, number) && InStore(store, at.value)
    {
      hide IsBranch;
      branch, at := [], Some(head);
      NoBranch(store, head);
      ghost var level := head.number;
      while at.Some? && at.value.number != number
        invariant number <= level <= head.number && at == At(store, head, level)
        invariant at.Some? ==>
                    IsBranch(store, head, branch, level) && InStore(store, at.value) && at.value.number == level
        invariant at.None? ==> At(store, head, number).None?
        decreases if at.Some? then 1 else 0, level
      {
        var b := at.value;
        ghost var above := branch;
        branch := branch + [b];
        at := GetBlock(store, b.parent, b.number - 1);
        BranchStep(store, head, above, level);
        level := level - 1;
        AtAt(store, head, level, number);
      }
    }

    /** Switches the canonical chain over to the branch of a new head. */
    method Reorg(oldHead: Block, newHead: Block) returns (r: ReorgResult, ghost level: nat)
      requires StoreOk(store) && InStore(store, oldHead) && InStore(store, newHead)
      requires CanonicalTo(store, canonical, oldHead)
      modifies `canonical, `currentBlock, `lastBlock, `isFallback
      ensures r == Reorganised <==> exists l: nat :: Meet(store, oldHead, newHead, l)
      ensures r != Reorganised ==> canonical == old(canonical) && currentBlock == old(currentBlock)
      ensures r == Reorganised ==>
                && CanonicalTo(store, canonical, newHead)
                && Meet(store, oldHead, newHead, level)
                && (forall l: nat :: l > level ==> !Meet(store, oldHead, newHead, l))
                && (currentBlock == if newHead.number > level then newHead else old(currentBlock))
                && Untouched(old(canonical), canonical, level, newHead.number)
    {
      hide At, Meet, IsBranch, CanonicalTo;
      var oldChain, newChain;
      r, oldChain, newChain, level := FindCommon(oldHead, newHead);
      if r != Reorganised {
        return;
      }
      CanonicalMeet(store, canonical, oldHead, newHead, newChain, level);
      var i := |newChain|;
      while i > 0
        invariant 0 <= i <= |newChain| == newHead.number - level
        invariant At(store, newHead, newHead.number - i).Some?
        invariant CanonicalTo(store, canonical, At(store, newHead, newHead.number - i).value)
        invariant i == |newChain| ==> currentBlock == old(currentBlock)
        invariant i < |newChain| ==> At(store, newHead, newHead.number - i) == Some(currentBlock)
        invariant Untouched(old(canonical), canonical, level, newHead.number)
      {
        i := i - 1;
        InsertNext(store, canonical, newHead, newChain, level, i);
        Insert(newChain[i]);
      }
      NoBranch(store, newHead);
    }

    /** Stores a new block and makes it the canonical head, reorganising if it does not extend the present one. */
    method WriteBlock(block: Block) returns (r: ReorgResult)
      requires Valid() && block.hash != NO_HASH && (block.hash in store ==> store[block.hash] == block)
      requires block.parent == currentBlock.hash ==> block.number == currentBlock.number + 1
      modifies this
      ensures Valid() && store == old(store)[block.hash := block]
      ensures r == Reorganised ==> currentBlock == block
      ensures r == Reorganised <==> block.parent == old(currentBlock).hash
                                    || exists l: nat :: Meet(store, old(currentBlock), block, l)
      ensures r != Reorganised ==> currentBlock == old(currentBlock) && canonical == old(canonical)
      ensures forall n :: n > block.number ==>
                (n in canonical <==> n in old(canonical)) && (n in canonical ==> canonical[n] == old(canonical)[n])
    {
      hide Meet;
      r := Reorganised;
      StoreMore(store, canonical, currentBlock, block);
      store := store[block.hash := block];
      if block.parent != currentBlock.hash {
        ghost var level;
        r, level := Reorg(currentBlock, block);
        if r != Reorganised {
          return;
        }
        ListedAlready(store, canonical, block);
      } else {
        ExtendHead(store, canonical, currentBlock, block);
      }
      Insert(block);
    }
  }

  // ----- the walk -----

  lemma {:induction false} NotAbove(store: Store, a: Block, b: Block, top: nat)
    requires top >= a.number || top >= b.number
    ensures forall l: nat :: l > top ==> !Meet(store, a, b, l)
  {
    hide At;
  }

  lemma {:induction false} MeetSymmetric(store: Store, a: Block, b: Block)
    ensures forall l: nat :: Meet(store, a, b, l) <==> Meet(store, b, a, l)
  {
    hide At;
  }

  /** Where a branch does not even reach a level, the branches do not meet at or below it. */
  lemma {:induction false} BrokenBranch(store: Store, a: Block, b: Block, level: nat)
    requires level <= a.number && At(store, a, level).None? && forall l: nat :: l > level ==> !Meet(store, a, b, l)
    ensures forall l: nat :: !Meet(store, a, b, l)
  {
    hide At;
    forall l: nat ensures !Meet(store, a, b, l) {
      if l <= level {
        AtAt(store, a, level, l);
      }
    }
  }

  lemma {:induction false} DifferHere(store: Store, a: Block, b: Block, level: nat)
    requires At(store, a, level).Some? && At(store, b, level).Some?
    requires At(store, a, level).value.hash != At(store, b, level).value.hash
    requires forall l: nat :: l > level ==> !Meet(store, a, b, l)
    ensures !Meet(store, a, b, level) && forall l: nat :: l >= level ==> !Meet(store, a, b, l)
  {
    hide At;
  }

  lemma {:induction false} BrokenHere(store: Store, a: Block, b: Block, level: nat)
    requires level <= a.number && At(store, a, level).Some? && Parent(store, At(store, a, level).value).None?
    requires forall l: nat :: l >= level ==> !Meet(store, a, b, l)
    ensures forall l: nat :: !Meet(store, a, b, l)
  {
    if level > 0 {
      AtAt(store, a, level, level - 1);
      BrokenBranch(store, a, b, level - 1);
    }
  }

  lemma {:induction false} MeetHere(store: Store, a: Block, b: Block, level: nat)
    requires At(store, a, level).Some? && At(store, b, level).Some?
    requires InStore(store, At(store, a, level).value) && InStore(store, At(store, b, level).value)
    requires At(store, a, level).value.hash == At(store, b, level).value.hash
    ensures Meet(store, a, b, level)
  {
    LevelBelow(store, a, level);
    LevelBelow(store, b, level);
  }

  lemma {:induction false} LevelBelow(store: Store, b: Block, level: nat)
    requires At(store, b, level).Some?
    ensures level <= b.number
  {
  }

  lemma {:induction false} NoBranch(store: Store, b: Block)
    ensures IsBranch(store, b, [], b.number) && At(store, b, b.number) == Some(b)
  {
  }

  // ----- the rewritten index -----

  /** The part of the new branch that is shared with the old one is canonical already. */
  lemma {:induction false} CanonicalMeet(store: Store, index: map<nat, Hash>, a: Block, b: Block, branch: seq<Block>,
                                         level: nat)
    requires CanonicalTo(store, index, a) && Meet(store, a, b, level) && IsBranch(store, b, branch, level)
    ensures |branch| == b.number - level && At(store, b, level).Some?
    ensures CanonicalTo(store, index, At(store, b, level).value)
  {
    hide CanonicalTo, At;
    CanonicalAt(store, index, a, level);
  }

  /** Listing the next block of the branch extends the canonical part of the branch by it. */
  lemma {:induction false} InsertNext(store: Store, index: map<nat, Hash>, b: Block, branch: seq<Block>, level: nat,
                                      i: nat)
    requires IsBranch(store, b, branch, level) && i < |branch|
    requires At(store, b, b.number - i - 1).Some? && CanonicalTo(store, index, At(store, b, b.number - i - 1).value)
    ensures level < branch[i].number == b.number - i && At(store, b, b.number - i) == Some(branch[i])
    ensures CanonicalTo(store, index[branch[i].number := branch[i].hash], branch[i])
  {
    var n := b.number - i;
    assert At(store, b, n) == Some(branch[i]);
    AtAt(store, b, n, n - 1);
    CanonicalFrame(store, index, index[n := branch[i].hash], At(store, b, n - 1).value);
  }

  lemma {:induction false} ExtendHead(store: Store, index: map<nat, Hash>, head: Block, b: Block)
    requires CanonicalTo(store, index, head) && InStore(store, head)
    requires b.parent == head.hash && b.number == head.number + 1
    ensures CanonicalTo(store, index[b.number := b.hash], b)
  {
    CanonicalFrame(store, index, index[b.number := b.hash], head);
  }

  lemma {:induction false} ListedAlready(store: Store, index: map<nat, Hash>, b: Block)
    requires CanonicalTo(store, index, b)
    ensures index[b.number := b.hash] == index
  {
  }

  /** Storing one more block under its own hash breaks no link. */
  lemma {:induction false} StoreMore(store: Store, index: map<nat, Hash>, head: Block, b: Block)
    requires CanonicalTo(store, index, head) && (b.hash in store ==> store[b.hash] == b)
    ensures CanonicalTo(store[b.hash := b], index, head)
    decreases head.number
  {
    if head.number > 0 {
      StoreMore(store, index, Parent(store, head).value, b);
    }
  }

  // ----- consistency of the whole index -----

  /** Every listed block is stored under its number, and its parent is listed before it. */
  ghost predicate IndexOk(store: Store, index: map<nat, Hash>) {
    forall n {:trigger Listed(store, index, n)} :: n in index ==> Listed(store, index, n)
  }

  ghost predicate Listed(store: Store, index: map<nat, Hash>, n: nat)
    requires n in index
  {
    && index[n] in store && store[index[n]].number == n
    && (n > 0 ==> n - 1 in index && index[n - 1] == store[index[n]].parent)
  }

  /** No number above the block's is listed. */
  ghost predicate EndsAt(index: map<nat, Hash>, b: Block) {
    forall n :: n in index ==> n <= b.number
  }

  lemma {:induction false} CanonicalIsListed(store: Store, index: map<nat, Hash>, b: Block, n: nat)
    requires StoreOk(store) && InStore(store, b) && CanonicalTo(store, index, b) && n <= b.number
    ensures n in index && Listed(store, index, n) && At(store, b, n) == Some(store[index[n]])
    decreases b.number
  {
    if n < b.number {
      CanonicalIsListed(store, index, Parent(store, b).value, n);
    }
  }

  /** An index that lists a head's ancestors and ends at the head is consistent. */
  lemma {:induction false} CanonicalIsConsistent(store: Store, index: map<nat, Hash>, b: Block)
    requires StoreOk(store) && InStore(store, b) && CanonicalTo(store, index, b) && EndsAt(index, b)
    ensures IndexOk(store, index)
  {
    hide CanonicalTo;
    forall n {:trigger Listed(store, index, n)} | n in index
      ensures Listed(store, index, n)
    {
      CanonicalIsListed(store, index, b, n);
    }
  }

  /** Whatever is listed above the block would be in order on top of it. */
  ghost predicate ContinuesAbove(store: Store, index: map<nat, Hash>, b: Block) {
    forall n {:trigger ContinuesAt(store, index, b, n)} :: n in index && n > b.number ==>
                                                             ContinuesAt(store, index, b, n)
  }

  ghost predicate ContinuesAt(store: Store, index: map<nat, Hash>, b: Block, n: nat)
    requires n in index && n > b.number
  {
    && index[n] in store && store[index[n]].number == n
    && (if n == b.number + 1 then store[index[n]].parent == b.hash
        else n - 1 in index && index[n - 1] == store[index[n]].parent)
  }

  /** After any reorganisation the index is consistent as a whole exactly when what was listed above the new head's
      number before is in order on top of the new head. */
  lemma {:induction false} ReorgConsistent(store: Store, index: map<nat, Hash>, index': map<nat, Hash>, b: Block,
                                           level: nat)
    requires StoreOk(store) && InStore(store, b) && CanonicalTo(store, index', b)
    requires level <= b.number && Untouched(index, index', level, b.number)
    ensures IndexOk(store, index') <==> ContinuesAbove(store, index, b)
  {
    hide CanonicalTo;
    forall n {:trigger Listed(store, index', n)} | n in index' && n <= b.number ensures Listed(store, index', n) {
      CanonicalIsListed(store, index', b, n);
    }
    CanonicalIsListed(store, index', b, b.number);
    NoBranch(store, b);
    assert b.number in index' && index'[b.number] == b.hash;
    if IndexOk(store, index') {
      forall n {:trigger ContinuesAt(store, index, b, n)} | n in index && n > b.number
        ensures ContinuesAt(store, index, b, n)
      {
        assert Listed(store, index', n);
      }
    }
    if ContinuesAbove(store, index, b) {
      forall n {:trigger Listed(store, index', n)} | n in index' && n > b.number ensures Listed(store, index', n) {
        assert ContinuesAt(store, index, b, n);
      }
    }
  }

  /** From the end of a consistent index that means: the new head is at least as high as the old one or is one of its
      ancestors. A shorter branch leaves the old branch listed above it. */
  lemma {:induction false} ReorgFromEnd(store: Store, index: map<nat, Hash>, index': map<nat, Hash>, a: Block,
                                        b: Block, level: nat)
    requires StoreOk(store) && InStore(store, a) && InStore(store, b)
    requires CanonicalTo(store, index, a) && EndsAt(index, a) && CanonicalTo(store, index', b)
    requires Meet(store, a, b, level) && forall l: nat :: l > level ==> !Meet(store, a, b, l)
    requires Untouched(index, index', level, b.number)
    ensures IndexOk(store, index') <==> b.number >= a.number || level == b.number
  {
    hide At, CanonicalTo;
    if b.number >= a.number {
      CanonicalIsConsistent(store, index', b);
    } else if level == b.number {
      CanonicalIsConsistent(store, index, a);
      assert index == index';
    } else {
      NoBranch(store, b);
      CanonicalIsListed(store, index, a, b.number + 1);
      CanonicalIsListed(store, index, a, b.number);
      CanonicalIsListed(store, index', b, b.number);
      assert !Meet(store, a, b, b.number);
      assert IndexOk(store, index') ==> Listed(store, index', b.number + 1);
    }
  }

  /** What a stale entry leads to: below a block of the old branch that is still listed above the new head, the index
      gives that block's ancestors exactly outside the stretch that the reorganisation rewrote. */
  lemma {:induction false} StaleJump(store: Store, index: map<nat, Hash>, index': map<nat, Hash>, a: Block, b: Block,
                                     level: nat, n: nat)
    requires StoreOk(store) && InStore(store, a) && InStore(store, b)
    requires CanonicalTo(store, index, a) && CanonicalTo(store, index', b)
    requires Meet(store, a, b, level) && forall l: nat :: l > level ==> !Meet(store, a, b, l)
    requires Untouched(index, index', level, b.number) && n <= a.number
    ensures n in index' && At(store, a, n).Some?
    ensures index'[n] == At(store, a, n).value.hash <==> n > b.number || n <= level
  {
    hide At, CanonicalTo;
    CanonicalIsListed(store, index, a, n);
    if n <= b.number {
      CanonicalIsListed(store, index', b, n);
      if n > level {
        assert !Meet(store, a, b, n);
      }
    }
  }

  /** A chain of two blocks on the first block, and then a competing block on the first one: the second block of the
      abandoned branch stays listed on top of a block that is not its parent. */
  method ShorterBranchStaysListed() returns (chain: BlockChain)
    ensures chain.Valid() && chain.currentBlock == Block(4, 1, 1)
    ensures chain.store == map[1 := Block(1, NO_HASH, 0), 2 := Block(2, 1, 1), 3 := Block(3, 2, 2), 4 := Block(4, 1, 1)]
    ensures 2 in chain.canonical && chain.canonical[2] == 3 && !IndexOk(chain.store, chain.canonical)
  {
    var first := Block(1, NO_HASH, 0);
    chain := new BlockChain(first);
    var r := chain.WriteBlock(Block(2, 1, 1));
    r := chain.WriteBlock(Block(3, 2, 2));
    assert chain.canonical[2] == 3;
    ghost var store := chain.store[4 := Block(4, 1, 1)];
    MeetAtFirst(store, first);
    r := chain.WriteBlock(Block(4, 1, 1));
    assert !Listed(chain.store, chain.canonical, 2);
  }

  lemma {:induction false} MeetAtFirst(store: Store, first: Block)
    requires store == map[1 := first, 2 := Block(2, 1, 1), 3 := Block(3, 2, 2), 4 := Block(4, 1, 1)]
    requires first == Block(1, NO_HASH, 0)
    ensures Meet(store, Block(3, 2, 2), Block(4, 1, 1), 0)
  {
    assert At(store, Block(2, 1, 1), 0) == Some(first);
    assert At(store, Block(4, 1, 1), 0) == Some(first);
  }
}
