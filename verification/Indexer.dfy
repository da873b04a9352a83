/** One chain indexer: sections of the chain, their stored heads, and the steps of its two loops
    (core/chain_indexer.go). */
module Indexer {

  type Hash = nat

  const NO_HASH: Hash := 0

  /** The number of blocks in a section; a section of no blocks makes every head a division by zero. */
  type Size = n: nat | n > 0 witness 1

  /** What the update loop is doing while it does not hold the lock: nothing, `done` headers into a section, or at the
      end of it, with or without success. `oldHead` is the head of the section before, as read when it began. */
  datatype Work =
    | Idle
    | Running(section: nat, oldHead: Hash, done: nat, last: Hash)
    | Halted(section: nat, oldHead: Hash)
    | Completed(section: nat, oldHead: Hash, last: Hash)

  /** `heads` and `count` are persistent; an absent count reads as zero. */
  datatype Index = Index(size: Size, confirms: nat, stored: nat, known: nat, cascaded: nat,
                         heads: map<nat, Hash>, count: nat, work: Work)
  {
    /** The stored head of the section before the given one, and no hash before the first. */
    function HeadBefore(section: nat): Hash {
      if section > 0 && section - 1 in heads then heads[section - 1] else NO_HASH
    }
  }

  /** What an indexer starts from: the persistent heads and count, and nothing known yet. */
  function Loaded(size: Size, confirms: nat, heads: map<nat, Hash>, count: nat): Index {
    Index(size, confirms, count, 0, 0, heads, count, Idle)
  }

  function Fresh(size: Size, confirms: nat): Index {
    Loaded(size, confirms, map[], 0)
  }

  /** Sets the number of valid sections and forgets the heads beyond it. */
  function SetValid(ix: Index, sections: nat): Index {
    ix.(stored := sections, count := sections,
        heads := map i | i in ix.heads && !(sections <= i < ix.stored) :: ix.heads[i])
  }

  /** A new head that extends the chain may complete sections. */
  function Extended(ix: Index, head: nat): Index {
    if head < ix.confirms then ix
    else
      var sections := (head + 1 - ix.confirms) / ix.size;
      if sections > ix.known then ix.(known := sections) else ix
  }

  /** A reorganisation down to `head` undoes known and stored sections. */
  function Reverted(ix: Index, head: nat): Index {
    var sections := head / ix.size;
    var lowered := if sections < ix.known then ix.(known := sections) else ix;
    var cut := if sections < ix.stored then SetValid(lowered, sections) else lowered;
    if sections * ix.size < ix.cascaded then cut.(cascaded := sections * ix.size) else cut
  }

  /** The head to pass on to child indexers after a reorganisation, if they have to hear of it. */
  predicate RevertCascades(ix: Index, head: nat) {
    head / ix.size * ix.size < ix.cascaded
  }

  /** The update loop takes the next section, if there is one, and lets go of the lock. */
  function Begun(ix: Index): Index {
    if ix.work == Idle && ix.known > ix.stored
    then ix.(work := Running(ix.stored, ix.HeadBefore(ix.stored), 0, ix.HeadBefore(ix.stored)))
    else ix
  }

  /** What became of one header of the section: it was read, or something went wrong. */
  datatype Reading = Read(hash: Hash, parent: Hash, processed: bool) | Missing

  /** One round of the section loop, or its end. */
  function Advanced(ix: Index, r: Reading, committed: bool): Index {
    match ix.work
    case Running(section, oldHead, done, last) =>
      if done == ix.size then
        ix.(work := if committed then Completed(section, oldHead, last) else Halted(section, oldHead))
      else if r.Read? && r.hash != NO_HASH && r.parent == last && r.processed then
        ix.(work := Running(section, oldHead, done + 1, r.hash))
      else
        ix.(work := Halted(section, oldHead))
    case _ => ix
  }

  /** The backend refuses to start on the section: all sections are given up. */
  function ResetFailed(ix: Index): Index {
    match ix.work
    case Running(section, oldHead, done, last) => SetValid(ix, 0).(work := Halted(section, oldHead))
    case _ => ix
  }

  /** The section just completed still follows what is stored. */
  predicate StillFollows(ix: Index) {
    ix.work.Completed? && ix.work.oldHead == ix.HeadBefore(ix.work.section)
  }

  /** Back under the lock, the section is stored if nothing changed below it, and given up otherwise. */
  function Finished(ix: Index): Index {
    match ix.work
    case Completed(section, oldHead, last) =>
      if StillFollows(ix) then
        var stored := SetValid(ix.(heads := ix.heads[section := last]), section + 1);
        stored.(cascaded := stored.stored * ix.size - 1, work := Idle)
      else
        ix.(known := ix.stored, work := Idle)
    case Halted(section, oldHead) => ix.(known := ix.stored, work := Idle)
    case _ => ix
  }

  // ----- arithmetic -----

  lemma {:induction false} FloorAtMost(x: nat, size: Size)
    ensures x / size * size <= x
  {
  }

  lemma {:induction false} ProductBelow(a: nat, b: nat, size: Size)
    requires a < b
    ensures a * size + size <= b * size
  {
    var more := b - a - 1;
    assert b * size == a * size + size + more * size;
  }

  lemma {:induction false} ProductAtMost(a: nat, b: nat, size: Size)
    requires a <= b
    ensures a * size <= b * size
  {
    assert (b - a) * size >= 0;
  }

  lemma {:induction false} AtMostHead(sections: nat, head: nat, size: Size)
    requires sections <= head / size
    ensures sections * size <= head
  {
    ProductAtMost(sections, head / size, size);
    FloorAtMost(head, size);
  }

  // ----- how far an indexer gets -----

  /** The first k sections, and the confirmations after them, are among the blocks up to `head`. */
  ghost predicate Complete(k: nat, size: Size, confirms: nat, head: nat) {
    k * size + confirms <= head + 1
  }

  /** The first k sections lie below the block. */
  ghost predicate LiesBelow(k: nat, size: Size, block: nat) {
    k * size <= block
  }

  lemma {:induction false} QuotientExact(x: nat, size: Size, k: nat)
    ensures k * size <= x <==> k <= x / size
  {
    if k <= x / size {
      AtMostHead(k, x, size);
    } else {
      ProductAtMost(x / size + 1, k, size);
      assert (x / size + 1) * size == x / size * size + size;
    }
  }

  /** A new head makes known every section that is complete and confirmed, and none besides. */
  lemma {:induction false} ExtendedExact(ix: Index, head: nat)
    ensures var e := Extended(ix, head);
            && e == ix.(known := e.known) && e.known >= ix.known
            && (forall k: nat :: Complete(k, ix.size, ix.confirms, head) ==> k <= e.known)
            && (e.known == ix.known || Complete(e.known, ix.size, ix.confirms, head))
  {
    if head >= ix.confirms {
      forall k: nat ensures Complete(k, ix.size, ix.confirms, head) <==> k <= (head + 1 - ix.confirms) / ix.size {
        QuotientExact(head + 1 - ix.confirms, ix.size, k);
      }
    }
  }

  /** Of the sections that were known or stored, a reorganisation leaves those that lie below the block it goes back to,
      with their heads; children have been told of no more than the end of those. */
  lemma {:induction false} RevertedExact(ix: Index, head: nat)
    ensures var r := Reverted(ix, head);
            && r.size == ix.size && r.confirms == ix.confirms && r.work == ix.work
            && r.known <= ix.known && LiesBelow(r.known, ix.size, head)
            && (forall k: nat :: k <= ix.known && LiesBelow(k, ix.size, head) ==> k <= r.known)
            && r.stored <= ix.stored && LiesBelow(r.stored, ix.size, head)
            && (forall k: nat :: k <= ix.stored && LiesBelow(k, ix.size, head) ==> k <= r.stored)
            && (forall i :: i in ix.heads && i < r.stored ==> i in r.heads && r.heads[i] == ix.heads[i])
            && r.cascaded <= ix.cascaded && r.cascaded <= head
            && (r.cascaded == ix.cascaded || head < r.cascaded + ix.size)
  {
    forall k: nat ensures LiesBelow(k, ix.size, head) <==> k <= head / ix.size {
      QuotientExact(head, ix.size, k);
    }
    FloorAtMost(head, ix.size);
    hide LiesBelow;
  }

  /** A section that failed, or below which something changed, is given up together with all that were known beyond what
      is stored; any other one is stored. */
  lemma {:induction false} FinishedExact(ix: Index)
    requires ix.work.Halted? || ix.work.Completed?
    ensures var f := Finished(ix);
            if ix.work.Halted? || ix.work.oldHead != ix.HeadBefore(ix.work.section)
            then f == ix.(known := ix.stored, work := Idle)
            else && f.work == Idle && f.size == ix.size && f.known == ix.known
                 && f.stored == f.count == ix.work.section + 1
                 && ix.work.section in f.heads && f.heads[ix.work.section] == ix.work.last
                 && f.cascaded + 1 == f.stored * ix.size
  {
    if StillFollows(ix) {
      ProductAtMost(1, ix.work.section + 1, ix.size);
    }
  }

  // ----- the invariant -----

  /** upper is reached from lower by exactly k links from child to parent, read backwards. */
  ghost predicate Linked(parentOf: Hash -> Hash, lower: Hash, upper: Hash, k: nat)
    decreases k
  {
    if k == 0 then lower == upper else Linked(parentOf, lower, parentOf(upper), k - 1)
  }

  /** Heads are stored for exactly the sections below `stored`, the persistent count agrees, and each stored head is a
      section's length of links above the one before. */
  ghost predicate HeadsOk(parentOf: Hash -> Hash, ix: Index) {
    && ix.count == ix.stored
    && (forall i :: i in ix.heads <==> 0 <= i < ix.stored)
    && (forall i {:trigger HeadOk(parentOf, ix, i)} :: i in ix.heads ==> HeadOk(parentOf, ix, i))
  }

  ghost predicate HeadOk(parentOf: Hash -> Hash, ix: Index, i: nat)
    requires i in ix.heads
  {
    ix.heads[i] != NO_HASH && Linked(parentOf, ix.HeadBefore(i), ix.heads[i], ix.size)
  }

  ghost predicate WorkOk(parentOf: Hash -> Hash, ix: Index) {
    ix.work.Idle? ||
    (&& ix.stored <= ix.work.section && ix.stored <= ix.known
     && (ix.work.oldHead == NO_HASH <==> ix.work.section == 0)
     && (ix.work.Running? ==> ix.work.done <= ix.size && (ix.work.done > 0 ==> ix.work.last != NO_HASH)
                              && Linked(parentOf, ix.work.oldHead, ix.work.last, ix.work.done))
     && (ix.work.Completed? ==> ix.work.last != NO_HASH && Linked(parentOf, ix.work.oldHead, ix.work.last, ix.size)))
  }

  ghost predicate IndexOk(parentOf: Hash -> Hash, ix: Index) {
    HeadsOk(parentOf, ix) && WorkOk(parentOf, ix)
  }

  lemma {:induction false} LinkMore(parentOf: Hash -> Hash, lower: Hash, upper: Hash, k: nat, next: Hash)
    requires Linked(parentOf, lower, upper, k) && parentOf(next) == upper
    ensures Linked(parentOf, lower, next, k + 1)
  {
  }

  lemma {:induction false} SetValidKeeps(parentOf: Hash -> Hash, ix: Index, sections: nat)
    requires HeadsOk(parentOf, ix) && sections <= ix.stored
    ensures HeadsOk(parentOf, SetValid(ix, sections))
  {
    var cut := SetValid(ix, sections);
    forall i | i in cut.heads ensures HeadOk(parentOf, cut, i) {
      assert HeadOk(parentOf, ix, i);
    }
  }

  lemma {:induction false} ExtendedKeeps(parentOf: Hash -> Hash, ix: Index, head: nat)
    requires IndexOk(parentOf, ix)
    ensures IndexOk(parentOf, Extended(ix, head))
  {
    SameHeads(parentOf, ix, Extended(ix, head));
  }

  /** Only sizes, counts and heads matter for what is stored. */
  lemma {:induction false} SameHeads(parentOf: Hash -> Hash, ix: Index, other: Index)
    requires HeadsOk(parentOf, ix)
    requires other.size == ix.size && other.stored == ix.stored && other.count == ix.count && other.heads == ix.heads
    ensures HeadsOk(parentOf, other)
  {
    forall i | i in other.heads ensures HeadOk(parentOf, other, i) {
      assert HeadOk(parentOf, ix, i);
    }
  }

  lemma {:induction false} RevertedKeeps(parentOf: Hash -> Hash, ix: Index, head: nat)
    requires IndexOk(parentOf, ix)
    ensures IndexOk(parentOf, Reverted(ix, head))
  {
    hide HeadsOk, Linked;
    var sections := head / ix.size;
    var lowered := if sections < ix.known then ix.(known := sections) else ix;
    SameHeads(parentOf, ix, lowered);
    if sections < ix.stored {
      SetValidKeeps(parentOf, lowered, sections);
    }
    var cut := if sections < ix.stored then SetValid(lowered, sections) else lowered;
    SameHeads(parentOf, cut, Reverted(ix, head));
  }

  lemma {:induction false} BegunKeeps(parentOf: Hash -> Hash, ix: Index)
    requires IndexOk(parentOf, ix)
    ensures IndexOk(parentOf, Begun(ix))
  {
    SameHeads(parentOf, ix, Begun(ix));
    assert ix.stored > 0 ==> HeadOk(parentOf, ix, ix.stored - 1);
  }

  /** Readings come from a store in which a hash determines its header. */
  ghost predicate Honest(parentOf: Hash -> Hash, r: Reading) {
    r.Read? && r.hash != NO_HASH ==> r.parent == parentOf(r.hash)
  }

  lemma {:induction false} AdvancedKeeps(parentOf: Hash -> Hash, ix: Index, r: Reading, committed: bool)
    requires IndexOk(parentOf, ix) && Honest(parentOf, r)
    ensures IndexOk(parentOf, Advanced(ix, r, committed))
  {
    SameHeads(parentOf, ix, Advanced(ix, r, committed));
    if ix.work.Running? && ix.work.done < ix.size && Advanced(ix, r, committed).work.Running? {
      LinkMore(parentOf, ix.work.oldHead, ix.work.last, ix.work.done, r.hash);
    }
  }

  lemma {:induction false} ResetFailedKeeps(parentOf: Hash -> Hash, ix: Index)
    requires IndexOk(parentOf, ix)
    ensures IndexOk(parentOf, ResetFailed(ix))
  {
    hide Linked;
    SetValidKeeps(parentOf, ix, 0);
    if ix.work.Running? {
      SameHeads(parentOf, SetValid(ix, 0), ResetFailed(ix));
    }
  }

  /** A section is stored only right above the last stored one, whatever happened while it was processed. */
  lemma {:induction false} StillFollowsMeans(parentOf: Hash -> Hash, ix: Index)
    requires IndexOk(parentOf, ix) && StillFollows(ix)
    ensures ix.stored == ix.work.section
  {
    hide Linked;
    if ix.work.section > 0 {
      assert ix.work.section - 1 in ix.heads;
    }
  }

  lemma {:induction false} StoredKeeps(parentOf: Hash -> Hash, ix: Index, last: Hash)
    requires HeadsOk(parentOf, ix) && last != NO_HASH && Linked(parentOf, ix.HeadBefore(ix.stored), last, ix.size)
    ensures var r := SetValid(ix.(heads := ix.heads[ix.stored := last]), ix.stored + 1);
            HeadsOk(parentOf, r) && r.heads == ix.heads[ix.stored := last]
  {
    hide Linked;
    var r := SetValid(ix.(heads := ix.heads[ix.stored := last]), ix.stored + 1);
    assert r.heads == ix.heads[ix.stored := last];
    forall i | i in r.heads ensures HeadOk(parentOf, r, i) {
      if i < ix.stored {
        assert HeadOk(parentOf, ix, i);
      }
    }
  }

  lemma {:induction false} FinishedKeeps(parentOf: Hash -> Hash, ix: Index)
    requires IndexOk(parentOf, ix)
    ensures IndexOk(parentOf, Finished(ix))
  {
    if StillFollows(ix) {
      StillFollowsMeans(parentOf, ix);
      hide HeadsOk, Linked;
      StoredKeeps(parentOf, ix, ix.work.last);
      SameHeads(parentOf, SetValid(ix.(heads := ix.heads[ix.stored := ix.work.last]), ix.stored + 1), Finished(ix));
    } else {
      SameHeads(parentOf, ix, Finished(ix));
    }
  }

  /** A reorganisation that arrives between the processing of a section and its storing does not stop the storing when
      it goes back to a block within that very section. The sections stored then reach beyond the first head + 1 blocks,
      which are all that the reorganisation left in place, exactly when that block is not the section's last one. */
  lemma {:induction false} StaleSectionStored(parentOf: Hash -> Hash, ix: Index, head: nat)
    requires IndexOk(parentOf, ix) && StillFollows(ix)
    ensures Finished(Reverted(ix, head)).stored * ix.size > head + 1
       <==> head / ix.size == ix.work.section && head + 1 < (ix.work.section + 1) * ix.size
  {
    hide Linked;
    StillFollowsMeans(parentOf, ix);
    var r := Reverted(ix, head);
    assert r.work == ix.work;
    if head / ix.size < ix.work.section {
      assert ix.work.section - 1 !in r.heads;
    } else {
      assert r.heads == ix.heads;
    }
    var f := Finished(r);
    assert f.stored == if head / ix.size < ix.work.section then head / ix.size else ix.work.section + 1;
    if head / ix.size != ix.work.section {
      AtMostHead(f.stored, head, ix.size);
    }
  }

  /** Whatever an indexer was doing when it stopped, it starts again in order. */
  lemma {:induction false} RestartKeeps(parentOf: Hash -> Hash, ix: Index)
    requires IndexOk(parentOf, ix)
    ensures IndexOk(parentOf, Loaded(ix.size, ix.confirms, ix.heads, ix.count))
  {
    SameHeads(parentOf, ix, Loaded(ix.size, ix.confirms, ix.heads, ix.count));
  }

  // ----- the indexer as an object -----

  class ChainIndexer {
    const sectionSize: Size
    const confirmsReq: nat
    var storedSections: nat
    var knownSections: nat
    var cascadedHead: nat
    var sectionHeads: map<nat, Hash>
    var count: nat
    var work: Work

    ghost function View(): Index
      reads this
    {
      Index(sectionSize, confirmsReq, storedSections, knownSections, cascadedHead, sectionHeads, count, work)
    }

    /** Starts on what the index database holds; an absent count is zero. */
    constructor (sectionSize: Size, confirmsReq: nat, heads: map<nat, Hash>, count: nat)
      ensures View() == Loaded(sectionSize, confirmsReq, heads, count)
    {
      this.sectionSize, this.confirmsReq := sectionSize, confirmsReq;
      storedSections, knownSections, cascadedHead, sectionHeads, this.count, work := count, 0, 0, heads, count, Idle;
    }

    method SectionHead(section: int) returns (hash: Hash)
      ensures hash == if section >= 0 && section in sectionHeads then sectionHeads[section] else NO_HASH
    {
      hash := if section >= 0 && section in sectionHeads then sectionHeads[section] else NO_HASH;
    }

    /** Writes the count, then removes section heads from the top down to it. */
    method SetValidSections(sections: nat)
      modifies `storedSections, `sectionHeads, `count
      ensures View() == SetValid(old(View()), sections)
    {
      count := sections;
      while storedSections > sections
        invariant count == sections
        invariant old(storedSections) > sections ==> sections <= storedSections <= old(storedSections)
        invariant old(storedSections) <= sections ==> storedSections == old(storedSections)
        invariant sectionHeads ==
                  map i | i in old(sectionHeads) && !(storedSections <= i < old(storedSections)) :: old(sectionHeads)[i]
        decreases storedSections
      {
        storedSections := storedSections - 1;
        sectionHeads := sectionHeads - {storedSections};
      }
      storedSections := sections;
    }

    /** Reacts to a new head or a reorganisation; returns what the child indexers have to be told. */
    method NewHead(head: nat, reorg: bool) returns (cascade: bool)
      modifies this
      ensures View() == if reorg then Reverted(old(View()), head) else Extended(old(View()), head)
      ensures cascade == (reorg && RevertCascades(old(View()), head))
      ensures cascadedHead <= old(cascadedHead) && (cascade <==> cascadedHead < old(cascadedHead))
      ensures !reorg ==>
                && storedSections == old(storedSections) && sectionHeads == old(sectionHeads)
                && (forall k: nat :: Complete(k, sectionSize, confirmsReq, head) ==> k <= knownSections)
                && (|| knownSections == old(knownSections)
                    || (knownSections > old(knownSections) && Complete(knownSections, sectionSize, confirmsReq, head)))
      ensures reorg ==>
                && knownSections <= old(knownSections) && LiesBelow(knownSections, sectionSize, head)
                && (forall k: nat :: k <= old(knownSections) && LiesBelow(k, sectionSize, head) ==> k <= knownSections)
                && storedSections <= old(storedSections) && LiesBelow(storedSections, sectionSize, head)
                && (forall k: nat :: k <= old(storedSections) && LiesBelow(k, sectionSize, head) ==>
                                     k <= storedSections)
    {
      ExtendedExact(View(), head);
      RevertedExact(View(), head);
      hide Complete, LiesBelow;
      if reorg {
        var known := head / sectionSize;
        if known < knownSections {
          knownSections := known;
        }
        if known < storedSections {
          SetValidSections(known);
        }
        var head' := known * sectionSize;
        if head' < cascadedHead {
          cascadedHead := head';
          return true;
        }
        return false;
      }
      if head >= confirmsReq {
        var sections := (head + 1 - confirmsReq) / sectionSize;
        if sections > knownSections {
          knownSections := sections;
        }
      }
      return false;
    }

    /** The first part of an update, up to where the lock is released. */
    method BeginUpdate()
      modifies `work
      ensures View() == Begun(old(View()))
    {
      if work == Idle && knownSections > storedSections {
        var oldHead := NO_HASH;
        if storedSections > 0 {
          oldHead := SectionHead(storedSections - 1);
        }
        work := Running(storedSections, oldHead, 0, oldHead);
      }
    }

    /** The last part of an update, back under the lock; returns whether child indexers have to hear of a new
        section. */
    method FinishUpdate() returns (cascade: bool)
      modifies this
      ensures View() == Finished(old(View())) && cascade == StillFollows(old(View()))
      ensures old(work).Halted? || (old(work).Completed? && !cascade) ==>
                knownSections == storedSections == old(storedSections) && sectionHeads == old(sectionHeads)
    {
      cascade := false;
      match work {
        case Completed(section, oldHead, last) =>
          var current := SectionHead(section - 1);
          if oldHead == current {
            sectionHeads := sectionHeads[section := last];
            SetValidSections(section + 1);
            cascadedHead := storedSections * sectionSize - 1;
            cascade := true;
          } else {
            knownSections := storedSections;
          }
          work := Idle;
        case Halted(section, oldHead) =>
          knownSections := storedSections;
          work := Idle;
        case _ =>
      }
    }
  }
}
