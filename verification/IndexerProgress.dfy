/** What indexers get done: readable sections are stored, and children learn of them (core/chain_indexer.go). */
module IndexerProgress {
  import opened Indexer
  import opened IndexerTree

  /** After an announced section, a child knows every section of its own that is complete and confirmed within the
      blocks that its parent has stored, and no other one that it did not know before. */
  lemma {:induction false} ChildrenCatchUp(n: Node, i: nat, k: nat)
    requires StillFollows(n.ix) && i < |n.children|
    ensures var f := Finish(n);
            var child := f.children[i].ix;
            && |f.children| == |n.children| && child == n.children[i].ix.(known := child.known)
            && (k * child.size + child.confirms <= f.ix.stored * f.ix.size ==> k <= child.known)
            && (|| child.known == n.children[i].ix.known
                || child.known * child.size + child.confirms <= f.ix.stored * f.ix.size)
  {
    hide Extended, Finished, StillFollows;
    assert n.ix.work.Completed? && n.ix.work.oldHead == n.ix.HeadBefore(n.ix.work.section) by { FollowsMeans(n.ix); }
    FinishedExact(n.ix);
    ExtendedExact(n.children[i].ix, Finished(n.ix).cascaded);
    var child := n.children[i].ix;
    assert Complete(k, child.size, child.confirms, Finished(n.ix).cascaded) <==>
           k * child.size + child.confirms <= Finished(n.ix).stored * n.ix.size;
  }

  lemma {:induction false} FollowsMeans(ix: Index)
    requires StillFollows(ix)
    ensures ix.work.Completed? && ix.work.oldHead == ix.HeadBefore(ix.work.section)
  {
  }

  /** A new child knows every section of its own that is complete and confirmed within the sections that its parent has
      both stored and known. */
  lemma {:induction false} AdoptedCatchesUp(n: Node, size: Size, confirms: nat, k: nat)
    ensures var a := AddChild(n, size, confirms);
            var sections := if n.ix.known < n.ix.stored then n.ix.known else n.ix.stored;
            && |a.children| == |n.children| + 1 && a.children[..|n.children|] == n.children && a.ix == n.ix
            && (k * size + confirms <= sections * n.ix.size ==> k <= a.children[|n.children|].ix.known)
  {
    hide Extended;
    var sections := if n.ix.known < n.ix.stored then n.ix.known else n.ix.stored;
    if sections > 0 {
      ExtendedExact(Fresh(size, confirms), sections * n.ix.size - 1);
      assert Complete(k, size, confirms, sections * n.ix.size - 1) <==> k * size + confirms <= sections * n.ix.size;
    } else {
      QuotientExact(0, size, k);
    }
  }

  /** What a child knows or has stored, and what lies at least a section of its parent's below the block that a
      reorganisation goes back to, stays with it. */
  lemma {:induction false} ChildrenKeep(n: Node, head: nat, i: nat, k: nat)
    requires i < |n.children|
    ensures var r := Revert(n, head);
            && |r.children| == |n.children|
            && var was, child := n.children[i].ix, r.children[i].ix;
            && child.known <= was.known && child.stored <= was.stored
            && (k <= was.known && k * was.size + n.ix.size <= head + 1 ==> k <= child.known)
            && (k <= was.stored && k * was.size + n.ix.size <= head + 1 ==> k <= child.stored)
  {
    hide Reverted, RevertCascades;
    var was, told := n.children[i].ix, head / n.ix.size * n.ix.size;
    RevertedExact(was, told);
    assert head < told + n.ix.size;
    assert k * was.size + n.ix.size <= head + 1 ==> LiesBelow(k, was.size, told);
  }

  // ----- processing -----

  /** The section loop reads the given headers. */
  function Fed(ix: Index, readings: seq<Reading>): Index {
    if readings == [] then ix else Advanced(Fed(ix, readings[..|readings| - 1]), readings[|readings| - 1], true)
  }

  /** Headers that were read and processed, each the child of the one before and the first one that of `from`. */
  ghost predicate Chained(from: Hash, readings: seq<Reading>) {
    forall i {:trigger readings[i]} :: 0 <= i < |readings| ==>
      && readings[i].Read? && readings[i].hash != NO_HASH && readings[i].processed
      && readings[i].parent == HashAt(from, readings, i)
  }

  /** The hash of the header before the i-th. */
  ghost function HashAt(from: Hash, readings: seq<Reading>, i: nat): Hash
    requires i <= |readings|
  {
    if i == 0 then from else if readings[i - 1].Read? then readings[i - 1].hash else NO_HASH
  }

  lemma {:induction false} ChainedFront(from: Hash, readings: seq<Reading>)
    requires readings != []
    ensures var n := |readings| - 1;
            && (Chained(from, readings) <==>
                  && Chained(from, readings[..n])
                  && readings[n].Read? && readings[n].hash != NO_HASH && readings[n].processed
                  && readings[n].parent == HashAt(from, readings[..n], n))
            && HashAt(from, readings, |readings|) == if readings[n].Read? then readings[n].hash else NO_HASH
  {
    var n := |readings| - 1;
    var front := readings[..n];
    assert forall i :: 0 <= i <= n ==> HashAt(from, front, i) == HashAt(from, readings, i);
    assert forall i :: 0 <= i < n ==> front[i] == readings[i];
  }

  /** The section loop gets through the headers exactly if they are in line, and halts otherwise. */
  lemma {:induction false} FedExact(ix: Index, section: nat, from: Hash, readings: seq<Reading>)
    requires ix.work == Running(section, from, 0, from) && |readings| <= ix.size
    ensures Fed(ix, readings) ==
            if Chained(from, readings)
            then ix.(work := Running(section, from, |readings|, HashAt(from, readings, |readings|)))
            else ix.(work := Halted(section, from))
    decreases |readings|
  {
    if readings != [] {
      ChainedFront(from, readings);
      hide Chained, HashAt;
      FedExact(ix, section, from, readings[..|readings| - 1]);
    }
  }

  /** One update of the indexer in which the section's headers are read as given and the backend commits or not. */
  function Updated(ix: Index, readings: seq<Reading>, committed: bool): Index {
    Finished(Advanced(Fed(Begun(ix), readings), Missing, committed))
  }

  /** An idle indexer that knows of a further section stores it exactly if all its headers can be read in line and the
      backend commits; otherwise it forgets about all sections that are not stored. */
  lemma {:induction false} UpdateExact(ix: Index, readings: seq<Reading>, committed: bool)
    requires ix.work == Idle && ix.stored < ix.known && |readings| == ix.size
    requires forall i :: i in ix.heads ==> i < ix.stored
    ensures var u := Updated(ix, readings, committed);
            && u.work == Idle && u.size == ix.size
            && if committed && Chained(ix.HeadBefore(ix.stored), readings)
               then && u.stored == u.count == ix.stored + 1 && u.known == ix.known
                    && readings[ix.size - 1].Read? && u.heads == ix.heads[ix.stored := readings[ix.size - 1].hash]
               else u == ix.(known := ix.stored)
  {
    var from := ix.HeadBefore(ix.stored);
    FedExact(Begun(ix), ix.stored, from, readings);
    if Chained(from, readings) {
      LastHash(from, readings);
    }
  }

  function UpdatedAll(ix: Index, sections: seq<seq<Reading>>): Index
    decreases |sections|
  {
    if sections == [] then ix else UpdatedAll(Updated(ix, sections[0], true), sections[1..])
  }

  /** Every section's headers are in line, and follow the section before. */
  ghost predicate AllChained(from: Hash, size: Size, sections: seq<seq<Reading>>)
    decreases |sections|
  {
    sections == [] ||
    (&& |sections[0]| == size && Chained(from, sections[0])
     && AllChained(HashAt(from, sections[0], size), size, sections[1..]))
  }

  /** If all headers can be read in line, then as many updates as sections are missing store all that is known. */
  lemma {:induction false} AllGetStored(ix: Index, sections: seq<seq<Reading>>)
    requires ix.work == Idle && ix.stored + |sections| == ix.known
    requires AllChained(ix.HeadBefore(ix.stored), ix.size, sections) && forall i :: i in ix.heads ==> i < ix.stored
    ensures var u := UpdatedAll(ix, sections);
            u.work == Idle && u.stored == u.known == ix.known
    decreases |sections|
  {
    if sections != [] {
      hide Updated, Chained;
      var from, next := ix.HeadBefore(ix.stored), Updated(ix, sections[0], true);
      UpdateExact(ix, sections[0], true);
      LastHash(from, sections[0]);
      assert next.HeadBefore(next.stored) == HashAt(from, sections[0], ix.size);
      AllGetStored(next, sections[1..]);
    }
  }

  lemma {:induction false} LastHash(from: Hash, readings: seq<Reading>)
    requires Chained(from, readings) && |readings| > 0
    ensures readings[|readings| - 1].Read?
    ensures HashAt(from, readings, |readings|) == readings[|readings| - 1].hash
  {
  }
}
