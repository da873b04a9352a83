/** A child indexer never knows of more blocks than its parent has stored, and when exactly that can be relied on. */
module IndexerBound {
  import opened Indexer
  import opened IndexerTree

  /** The last block number told to the children is not below the end of the last stored section. */
  ghost predicate CascadeOk(ix: Index) {
    ix.stored * ix.size <= ix.cascaded + 1
  }

  /** Whether the bound can be relied on for a child: with sections of a single block and no confirmations it cannot. */
  predicate Compatible(parent: Size, confirms: nat) {
    parent >= 2 || confirms >= 1
  }

  ghost predicate Within(parent: Index, child: Index) {
    child.known * child.size <= parent.stored * parent.size
  }

  ghost predicate Bounded(parent: Index, child: Index) {
    && Compatible(parent.size, child.confirms)
    && Within(parent, child)
    && (parent.size == 1 && parent.cascaded < parent.stored ==> child.known * child.size < parent.stored)
  }

  /** The bound holds between every parent and child. */
  ghost predicate AllWithin(n: Node)
    decreases n
  {
    forall i :: 0 <= i < |n.children| ==> Within(n.ix, n.children[i].ix) && AllWithin(n.children[i])
  }

  ghost predicate AllBounded(n: Node)
    decreases n
  {
    && CascadeOk(n.ix)
    && forall i :: 0 <= i < |n.children| ==> Bounded(n.ix, n.children[i].ix) && AllBounded(n.children[i])
  }

  lemma {:induction false} BoundedIsWithin(n: Node)
    requires AllBounded(n)
    ensures AllWithin(n)
    decreases n
  {
    forall i | 0 <= i < |n.children| ensures AllWithin(n.children[i]) {
      BoundedIsWithin(n.children[i]);
    }
  }

  // ----- one index -----

  lemma {:induction false} RevertedFacts(ix: Index, head: nat)
    requires CascadeOk(ix)
    ensures var r := Reverted(ix, head);
            && CascadeOk(r) && r.size == ix.size && r.confirms == ix.confirms && r.known <= ix.known
            && r.known * r.size <= head
            && r.stored == (if head / ix.size < ix.stored then head / ix.size else ix.stored)
            && (RevertCascades(ix, head) ==> r.stored * r.size <= r.cascaded)
            && (!RevertCascades(ix, head) ==>
                  || (r.stored == ix.stored && r.cascaded == ix.cascaded)
                  || (ix.size == 1 && ix.cascaded < ix.stored && r.stored == ix.stored - 1 == r.cascaded))
  {
    var r := Reverted(ix, head);
    var sections := head / ix.size;
    FloorAtMost(head, ix.size);
    ProductAtMost(r.known, sections, ix.size);
    ProductAtMost(r.stored, sections, ix.size);
    if sections < ix.stored {
      ProductBelow(sections, ix.stored, ix.size);
    }
    if sections + 1 < ix.stored {
      ProductBelow(sections + 1, ix.stored, ix.size);
    }
  }

  lemma {:induction false} ExtendedFacts(ix: Index, head: nat)
    ensures var e := Extended(ix, head);
            && e.size == ix.size && e.confirms == ix.confirms && e.stored == ix.stored && e.cascaded == ix.cascaded
            && (e.known == ix.known || e.known * e.size + ix.confirms <= head + 1)
  {
    if head >= ix.confirms {
      FloorAtMost(head + 1 - ix.confirms, ix.size);
    }
  }

  // ----- steps -----

  lemma {:induction false} RevertBounded(n: Node, head: nat)
    requires AllBounded(n)
    ensures AllBounded(Revert(n, head))
    decreases n
  {
    hide CascadeOk, Reverted, RevertCascades;
    RevertedFacts(n.ix, head);
    var r := Revert(n, head);
    forall i | 0 <= i < |n.children| ensures Bounded(r.ix, r.children[i].ix) && AllBounded(r.children[i]) {
      var child := n.children[i];
      if RevertCascades(n.ix, head) {
        var told := head / n.ix.size * n.ix.size;
        RevertBounded(child, told);
        RevertedFacts(child.ix, told);
        ProductAtMost(Reverted(child.ix, told).known, child.ix.known, child.ix.size);
        assert r.children[i] == Revert(child, told);
      } else {
        assert r.children[i] == child;
      }
    }
  }

  lemma {:induction false} NotifyBounded(n: Node, head: nat)
    requires AllBounded(n)
    ensures AllBounded(Notify(n, head))
  {
    ExtendedFacts(n.ix, head);
  }

  /** What an announcement of blocks up to the end of section `stored` does to a child. */
  lemma {:induction false} AnnounceBounded(parent: Index, child: Node, head: nat)
    requires AllBounded(child) && CascadeOk(parent) && Compatible(parent.size, child.ix.confirms)
    requires child.ix.known * child.ix.size <= parent.stored * parent.size
    requires parent.size == 1 && parent.cascaded < parent.stored ==> child.ix.known * child.ix.size < parent.stored
    requires head + 1 <= parent.stored * parent.size
    ensures Bounded(parent, Notify(child, head).ix) && AllBounded(Notify(child, head))
  {
    ExtendedFacts(child.ix, head);
    NotifyBounded(child, head);
  }

  lemma {:induction false} FinishBounded(parentOf: Hash -> Hash, n: Node)
    requires AllBounded(n) && IndexOk(parentOf, n.ix)
    ensures AllBounded(Finish(n))
  {
    var r := Finish(n);
    if StillFollows(n.ix) {
      StillFollowsMeans(parentOf, n.ix);
      ProductBelow(n.ix.stored, n.ix.stored + 1, n.ix.size);
      forall i | 0 <= i < |n.children| ensures Bounded(r.ix, r.children[i].ix) && AllBounded(r.children[i]) {
        AnnounceBounded(r.ix, n.children[i], r.ix.cascaded);
        assert r.children[i] == Notify(n.children[i], r.ix.cascaded);
      }
    }
  }

  lemma {:induction false} AdoptBounded(n: Node, size: Size, confirms: nat)
    requires AllBounded(n) && Compatible(n.ix.size, confirms)
    ensures AllBounded(AddChild(n, size, confirms))
  {
    var sections := if n.ix.known < n.ix.stored then n.ix.known else n.ix.stored;
    ProductAtMost(sections, n.ix.stored, n.ix.size);
    var child := Root(size, confirms);
    assert AllBounded(child);
    if sections > 0 {
      ProductBelow(0, sections, n.ix.size);
      AnnounceBounded(n.ix, child, sections * n.ix.size - 1);
    }
  }

  /** The update loop of an index never raises what it knows. */
  lemma {:induction false} LoopKnowsNoMore(parentOf: Hash -> Hash, n: Node, act: Action)
    requires IndexOk(parentOf, n.ix)
    ensures var r := ActHere(n, act);
            r.ix.known <= n.ix.known && r.ix.size == n.ix.size && r.ix.confirms == n.ix.confirms
  {
    hide Linked;
  }

  /** An action is harmless for the bound unless it fails a reset above a child that knows something, or adopts an
      incompatible child. */
  predicate Harmless(n: Node, act: Action) {
    && (act.FailReset? && n.ix.work.Running? ==> forall i :: 0 <= i < |n.children| ==> n.children[i].ix.known == 0)
    && (act.Adopt? ==> Compatible(n.ix.size, act.confirms))
  }

  predicate HarmlessAt(n: Node, path: seq<nat>, act: Action)
    decreases |path|
  {
    if path == [] then Harmless(n, act)
    else path[0] < |n.children| ==> HarmlessAt(n.children[path[0]], path[1..], act)
  }

  lemma {:induction false} ActHereBounded(parentOf: Hash -> Hash, n: Node, act: Action)
    requires AllBounded(n) && IndexOk(parentOf, n.ix) && Harmless(n, act)
    ensures AllBounded(ActHere(n, act))
  {
    match act
    case Begin =>
    case Advance(r, committed) =>
    case FailReset =>
    case End => FinishBounded(parentOf, n);
    case Adopt(size, confirms) => AdoptBounded(n, size, confirms);
  }

  lemma {:induction false} ActAtBounded(parentOf: Hash -> Hash, n: Node, path: seq<nat>, act: Action)
    requires AllBounded(n) && AllOk(parentOf, n) && HarmlessAt(n, path, act)
    ensures AllBounded(ActAt(n, path, act))
    ensures var r := ActAt(n, path, act).ix;
            r.known <= n.ix.known && r.size == n.ix.size && r.confirms == n.ix.confirms
    decreases |path|
  {
    hide IndexOk, ActHere, Harmless;
    if path == [] {
      ActHereBounded(parentOf, n, act);
      LoopKnowsNoMore(parentOf, n, act);
    } else if path[0] < |n.children| {
      var child := n.children[path[0]];
      ActAtBounded(parentOf, child, path[1..], act);
      ProductAtMost(ActAt(child, path[1..], act).ix.known, child.ix.known, child.ix.size);
    }
  }

  /** Every event of a run, seen from the state it happens in, is harmless. */
  ghost predicate HarmlessRun(start: Node, events: seq<Event>) {
    forall i :: 0 <= i < |events| && events[i].Act? ==>
                  HarmlessAt(Run(start, events[..i]), events[i].path, events[i].action)
  }

  /** In every harmless run, at every level and across reorganisations, no child knows of more than its parent
      stores. */
  lemma {:induction false} RunWithin(parentOf: Hash -> Hash, size: Size, confirms: nat, events: seq<Event>)
    requires forall i :: 0 <= i < |events| ==> HonestEvent(parentOf, events[i])
    requires HarmlessRun(Root(size, confirms), events)
    ensures AllBounded(Run(Root(size, confirms), events)) && AllWithin(Run(Root(size, confirms), events))
    decreases |events|
  {
    hide AllOk, AllWithin, Revert, ActAt, Notify, HarmlessAt;
    var root := Root(size, confirms);
    if events != [] {
      hide AllBounded;
      var front, e := events[..|events| - 1], events[|events| - 1];
      assert forall i :: 0 <= i < |front| ==> events[..i] == front[..i] && events[i] == front[i];
      RunWithin(parentOf, size, confirms, front);
      RunOk(parentOf, size, confirms, front);
      var n := Run(root, front);
      match e
      case Head(head) => NotifyBounded(n, head);
      case Reorg(head) => RevertBounded(n, head);
      case Act(path, action) => ActAtBounded(parentOf, n, path, action);
    }
    BoundedIsWithin(Run(root, events));
  }

  /** A reset that fails on a running section keeps the bound to the children exactly when they know of nothing. */
  lemma {:induction false} FailedResetExact(n: Node)
    requires n.ix.work.Running?
    ensures (forall i :: 0 <= i < |n.children| ==> Within(ActHere(n, FailReset).ix, n.children[i].ix))
       <==> (forall i :: 0 <= i < |n.children| ==> n.children[i].ix.known == 0)
  {
    forall i | 0 <= i < |n.children|
      ensures Within(ActHere(n, FailReset).ix, n.children[i].ix) <==> n.children[i].ix.known == 0
    {
      var child := n.children[i].ix;
      if child.known > 0 {
        ProductBelow(0, child.known, child.size);
      }
    }
  }
}
