/** Chain indexers in a tree: reorganisations and finished sections cascade from a parent to its children
    (core/chain_indexer.go). */
module IndexerTree {
  import opened Indexer

  datatype Node = Node(ix: Index, children: seq<Node>)

  function Root(size: Size, confirms: nat): Node {
    Node(Fresh(size, confirms), [])
  }

  /** A reorganisation at a node goes on to its children if it reaches below what they were told. */
  function Revert(n: Node, head: nat): Node
    decreases n, 1
  {
    Node(Reverted(n.ix, head),
         if RevertCascades(n.ix, head) then RevertAll(n.children, head / n.ix.size * n.ix.size) else n.children)
  }

  function RevertAll(nodes: seq<Node>, head: nat): (r: seq<Node>)
    ensures |r| == |nodes| && forall i :: 0 <= i < |nodes| ==> r[i] == Revert(nodes[i], head)
    decreases nodes, 0
  {
    if nodes == [] then [] else [Revert(nodes[0], head)] + RevertAll(nodes[1..], head)
  }

  function Notify(n: Node, head: nat): Node {
    n.(ix := Extended(n.ix, head))
  }

  function NotifyAll(nodes: seq<Node>, head: nat): (r: seq<Node>)
    ensures |r| == |nodes| && forall i :: 0 <= i < |nodes| ==> r[i] == Notify(nodes[i], head)
  {
    if nodes == [] then [] else [Notify(nodes[0], head)] + NotifyAll(nodes[1..], head)
  }

  /** Back under the lock, a stored section is announced to the children. */
  function Finish(n: Node): Node {
    var ix := Finished(n.ix);
    Node(ix, if StillFollows(n.ix) then NotifyAll(n.children, ix.cascaded) else n.children)
  }

  /** A new child is told of the sections that are both stored and known. */
  function AddChild(n: Node, size: Size, confirms: nat): Node {
    var sections := if n.ix.known < n.ix.stored then n.ix.known else n.ix.stored;
    var child := Root(size, confirms);
    n.(children := n.children + [if sections > 0 then Notify(child, sections * n.ix.size - 1) else child])
  }

  datatype Action =
    | Begin
    | Advance(reading: Reading, committed: bool)
    | FailReset
    | End
    | Adopt(size: Size, confirms: nat)

  function ActHere(n: Node, act: Action): Node {
    match act
    case Begin => n.(ix := Begun(n.ix))
    case Advance(r, committed) => n.(ix := Advanced(n.ix, r, committed))
    case FailReset => n.(ix := ResetFailed(n.ix))
    case End => Finish(n)
    case Adopt(size, confirms) => AddChild(n, size, confirms)
  }

  /** An action of the update loop of the node at a path, or the adoption of a child there. */
  function ActAt(n: Node, path: seq<nat>, act: Action): Node
    decreases |path|
  {
    if path == [] then ActHere(n, act)
    else if path[0] < |n.children|
    then n.(children := n.children[path[0] := ActAt(n.children[path[0]], path[1..], act)])
    else n
  }

  datatype Event = Head(head: nat) | Reorg(head: nat) | Act(path: seq<nat>, action: Action)

  function Step(n: Node, e: Event): Node {
    match e
    case Head(head) => Notify(n, head)
    case Reorg(head) => Revert(n, head)
    case Act(path, action) => ActAt(n, path, action)
  }

  function Run(n: Node, events: seq<Event>): Node {
    if events == [] then n else Step(Run(n, events[..|events| - 1]), events[|events| - 1])
  }

  // ----- what is stored, at every level and in every run -----

  ghost predicate HonestEvent(parentOf: Hash -> Hash, e: Event) {
    e.Act? && e.action.Advance? ==> Honest(parentOf, e.action.reading)
  }

  ghost predicate AllOk(parentOf: Hash -> Hash, n: Node)
    decreases n
  {
    IndexOk(parentOf, n.ix) && forall i :: 0 <= i < |n.children| ==> AllOk(parentOf, n.children[i])
  }

  lemma {:induction false} RevertOk(parentOf: Hash -> Hash, n: Node, head: nat)
    requires AllOk(parentOf, n)
    ensures AllOk(parentOf, Revert(n, head))
    decreases n
  {
    hide IndexOk;
    RevertedKeeps(parentOf, n.ix, head);
    if RevertCascades(n.ix, head) {
      forall i | 0 <= i < |n.children| ensures AllOk(parentOf, Revert(n.children[i], head / n.ix.size * n.ix.size)) {
        RevertOk(parentOf, n.children[i], head / n.ix.size * n.ix.size);
      }
    }
  }

  lemma {:induction false} NotifyOk(parentOf: Hash -> Hash, n: Node, head: nat)
    requires AllOk(parentOf, n)
    ensures AllOk(parentOf, Notify(n, head))
  {
    ExtendedKeeps(parentOf, n.ix, head);
  }

  lemma {:induction false} ActHereOk(parentOf: Hash -> Hash, n: Node, act: Action)
    requires AllOk(parentOf, n) && (act.Advance? ==> Honest(parentOf, act.reading))
    ensures AllOk(parentOf, ActHere(n, act))
  {
    hide IndexOk, Finished, StillFollows;
    match act
    case Begin => BegunKeeps(parentOf, n.ix);
    case Advance(r, committed) => AdvancedKeeps(parentOf, n.ix, r, committed);
    case FailReset => ResetFailedKeeps(parentOf, n.ix);
    case End =>
      FinishedKeeps(parentOf, n.ix);
      forall i | 0 <= i < |n.children| ensures AllOk(parentOf, Notify(n.children[i], Finished(n.ix).cascaded)) {
        NotifyOk(parentOf, n.children[i], Finished(n.ix).cascaded);
      }
    case Adopt(size, confirms) =>
      FreshOk(parentOf, size, confirms);
      var sections := if n.ix.known < n.ix.stored then n.ix.known else n.ix.stored;
      if sections > 0 {
        NotifyOk(parentOf, Root(size, confirms), sections * n.ix.size - 1);
      }
  }

  lemma {:induction false} FreshOk(parentOf: Hash -> Hash, size: Size, confirms: nat)
    ensures AllOk(parentOf, Root(size, confirms))
  {
  }

  lemma {:induction false} ActAtOk(parentOf: Hash -> Hash, n: Node, path: seq<nat>, act: Action)
    requires AllOk(parentOf, n) && (act.Advance? ==> Honest(parentOf, act.reading))
    ensures AllOk(parentOf, ActAt(n, path, act))
    decreases |path|
  {
    hide IndexOk;
    if path == [] {
      ActHereOk(parentOf, n, act);
    } else if path[0] < |n.children| {
      ActAtOk(parentOf, n.children[path[0]], path[1..], act);
    }
  }

  /** Whatever head events, reorganisations and processing steps interleave, at every node of the tree the stored heads
      are those of exactly the counted sections, and each is a section's length of parent links above the last. */
  lemma {:induction false} RunOk(parentOf: Hash -> Hash, size: Size, confirms: nat, events: seq<Event>)
    requires forall i :: 0 <= i < |events| ==> HonestEvent(parentOf, events[i])
    ensures AllOk(parentOf, Run(Root(size, confirms), events))
    decreases |events|
  {
    hide AllOk, Revert, ActAt, Notify;
    if events == [] {
      FreshOk(parentOf, size, confirms);
    } else {
      var front, e := events[..|events| - 1], events[|events| - 1];
      RunOk(parentOf, size, confirms, front);
      var n := Run(Root(size, confirms), front);
      assert HonestEvent(parentOf, e);
      match e
      case Head(head) => NotifyOk(parentOf, n, head);
      case Reorg(head) => RevertOk(parentOf, n, head);
      case Act(path, action) => ActAtOk(parentOf, n, path, action);
    }
  }
}
