/** Runs from a fresh indexer in which it does not do what one might expect: a child that knows of more than its parent
    has stored, after a reorganisation or a failed reset, and a section stored after its blocks were abandoned. */
module IndexerLimit {
  import opened Indexer
  import opened IndexerTree
  import opened IndexerBound

  /** Block number i has the hash i + 1. */
  function Straight(): Hash -> Hash {
    (h: Hash) => if h > 0 then h - 1 else NO_HASH
  }

  function StraightHeads(k: nat): map<nat, Hash> {
    if k == 0 then map[] else StraightHeads(k - 1)[k - 1 := k]
  }

  /** The root has stored k sections of one block each, and its child has been told. */
  function StoredIndex(k: nat, confirms: nat): Index {
    Index(1, confirms, k, k, if k > 0 then k - 1 else 0, StraightHeads(k), k, Idle)
  }

  function StoredState(k: nat, confirms: nat, size: Size): Node {
    Node(StoredIndex(k, confirms), [Node(Fresh(size, 0).(known := k / size), [])])
  }

  /** The events by which the root stores one more section. */
  function StoreOne(k: nat, confirms: nat): seq<Event> {
    [Head(k + confirms), Act([], Begin), Act([], Advance(Read(k + 1, k, true), false)),
     Act([], Advance(Missing, true)), Act([], End)]
  }

  function StoreMany(k: nat, confirms: nat, size: Size): seq<Event> {
    if k == 0 then [Act([], Adopt(size, 0))] else StoreMany(k - 1, confirms, size) + StoreOne(k - 1, confirms)
  }

  lemma {:induction false} RunSnoc(n: Node, events: seq<Event>, e: Event)
    ensures Run(n, events + [e]) == Step(Run(n, events), e)
  {
    assert (events + [e])[..|events|] == events;
  }

  lemma {:induction false} RunConcat(n: Node, a: seq<Event>, b: seq<Event>)
    ensures Run(n, a + b) == Run(Run(n, a), b)
    decreases |b|
  {
    hide Run, Step;
    if b == [] {
      assert a + b == a;
      NothingRun(Run(n, a));
    } else {
      var front, e := b[..|b| - 1], b[|b| - 1];
      RunConcat(n, a, front);
      RunSnoc(n, a + front, e);
      RunSnoc(Run(n, a), front, e);
      assert a + b == a + front + [e] && b == front + [e];
    }
  }

  /** The root's own index on its way to one more section, just before it is stored. */
  function Completing(k: nat, confirms: nat): Index {
    var known := Extended(StoredIndex(k, confirms), k + confirms);
    Advanced(Advanced(Begun(known), Read(k + 1, k, true), false), Missing, true)
  }

  lemma {:induction false} CompletesOne(k: nat, confirms: nat)
    ensures Completing(k, confirms) == StoredIndex(k, confirms).(known := k + 1, work := Completed(k, k, k + 1))
  {
    var known := Extended(StoredIndex(k, confirms), k + confirms);
    assert known == StoredIndex(k, confirms).(known := k + 1);
    assert Begun(known).work == Running(k, k, 0, k);
  }

  lemma {:induction false} StoresOne(k: nat, confirms: nat)
    ensures StillFollows(Completing(k, confirms)) && Finished(Completing(k, confirms)) == StoredIndex(k + 1, confirms)
  {
    hide Completing;
    CompletesOne(k, confirms);
    HeadsBelow(k + 1);
    assert Finished(Completing(k, confirms)).heads == StraightHeads(k + 1);
  }

  lemma {:induction false} StoreOneRuns(k: nat, confirms: nat, size: Size)
    ensures Run(StoredState(k, confirms, size), StoreOne(k, confirms)) == StoredState(k + 1, confirms, size)
  {
    hide Run, Extended, Begun, Advanced, Finished, StillFollows, StoredIndex;
    var n0 := StoredState(k, confirms, size);
    var es := StoreOne(k, confirms);
    FiveSteps(n0, es);
    StoresOne(k, confirms);
    assert Run(n0, es) == Finish(Node(Completing(k, confirms), n0.children));
    ChildTold(k, confirms, size);
  }

  lemma {:induction false} ChildTold(k: nat, confirms: nat, size: Size)
    ensures StoredIndex(k + 1, confirms).cascaded == k
    ensures NotifyAll(StoredState(k, confirms, size).children, k) == StoredState(k + 1, confirms, size).children
  {
    QuotientGrows(k, size);
  }

  lemma {:induction false} HeadsBelow(k: nat)
    ensures forall i :: i in StraightHeads(k) ==> i < k
    decreases k
  {
    if k > 0 {
      HeadsBelow(k - 1);
    }
  }

  lemma {:induction false} QuotientGrows(k: nat, size: Size)
    ensures k / size <= (k + 1) / size
  {
    FloorAtMost(k, size);
    assert (k + 1) / size * size + size > k + 1;
    if (k + 1) / size < k / size {
      ProductBelow((k + 1) / size, k / size, size);
    }
  }

  lemma {:induction false} FiveSteps(n: Node, es: seq<Event>)
    requires |es| == 5
    ensures Run(n, es) == Step(Step(Step(Step(Step(n, es[0]), es[1]), es[2]), es[3]), es[4])
  {
    hide Step;
    assert es == [] + [es[0]] + [es[1]] + [es[2]] + [es[3]] + [es[4]];
    RunSnoc(n, [], es[0]);
    RunSnoc(n, [] + [es[0]], es[1]);
    RunSnoc(n, [] + [es[0]] + [es[1]], es[2]);
    RunSnoc(n, [] + [es[0]] + [es[1]] + [es[2]], es[3]);
    RunSnoc(n, [] + [es[0]] + [es[1]] + [es[2]] + [es[3]], es[4]);
  }

  lemma {:induction false} StoreManyRuns(k: nat, confirms: nat, size: Size)
    ensures Run(Root(1, confirms), StoreMany(k, confirms, size)) == StoredState(k, confirms, size)
    decreases k
  {
    hide Run, StoreOne, StoredState;
    if k == 0 {
      FirstAdopts(confirms, size);
    } else {
      StoreManyRuns(k - 1, confirms, size);
      RunConcat(Root(1, confirms), StoreMany(k - 1, confirms, size), StoreOne(k - 1, confirms));
      StoreOneRuns(k - 1, confirms, size);
    }
  }

  lemma {:induction false} FirstAdopts(confirms: nat, size: Size)
    ensures Run(Root(1, confirms), [Act([], Adopt(size, 0))]) == StoredState(0, confirms, size)
  {
    hide Run;
    RunSnoc(Root(1, confirms), [], Act([], Adopt(size, 0)));
    assert [] + [Act([], Adopt(size, 0))] == [Act([], Adopt(size, 0))];
    NothingRun(Root(1, confirms));
  }

  lemma {:induction false} NothingRun(n: Node)
    ensures Run(n, []) == n
  {
  }

  lemma {:induction false} StoreManyHonest(k: nat, confirms: nat, size: Size)
    ensures forall i :: 0 <= i < |StoreMany(k, confirms, size)| ==>
              HonestEvent(Straight(), StoreMany(k, confirms, size)[i])
    decreases k
  {
    if k > 0 {
      StoreManyHonest(k - 1, confirms, size);
    }
  }

  /** The child has just learnt of its first section when the parent loses its last block without telling it. */
  lemma {:induction false} BoundFails(confirms: nat, size: Size) returns (events: seq<Event>)
    ensures forall i :: 0 <= i < |events| ==> HonestEvent(Straight(), events[i])
    ensures forall i :: 0 <= i < |events| && events[i].Act? && events[i].action.Adopt? ==>
              events[i].action.size == size && events[i].action.confirms == 0
    ensures !AllWithin(Run(Root(1, confirms), events))
  {
    StoreManyRuns(size, confirms, size);
    StoreManyHonest(size, confirms, size);
    AdoptsOnce(size, confirms, size);
    events := StoreMany(size, confirms, size) + [Reorg(size - 1)];
    RunSnoc(Root(1, confirms), StoreMany(size, confirms, size), Reorg(size - 1));
    var n := StoredState(size, confirms, size);
    var r := Revert(n, size - 1);
    assert r.ix.stored == size - 1;
    assert r.children == n.children;
    assert r.children[0].ix.known == 1;
    assert !Within(r.ix, r.children[0].ix);
  }

  lemma {:induction false} AdoptsOnce(k: nat, confirms: nat, size: Size)
    ensures forall i :: 0 <= i < |StoreMany(k, confirms, size)| ==>
              var e := StoreMany(k, confirms, size)[i];
              e.Act? && e.action.Adopt? ==> e.action.size == size && e.action.confirms == 0
    decreases k
  {
    if k > 0 {
      AdoptsOnce(k - 1, confirms, size);
    }
  }

  // ----- a first section of any size -----

  function Reads(k: nat): seq<Event> {
    if k == 0 then [] else Reads(k - 1) + [Act([], Advance(Read(k, k - 1, true), false))]
  }

  function FirstSection(size: Size, confirms: nat): seq<Event> {
    [Head(size - 1 + confirms), Act([], Begin)] + Reads(size) + [Act([], Advance(Missing, true))]
  }

  function Working(size: Size, confirms: nat, work: Work): Index {
    Fresh(size, confirms).(known := 1, work := work)
  }

  lemma {:induction false} ReadsRun(size: Size, confirms: nat, children: seq<Node>, k: nat)
    requires k <= size
    ensures Run(Node(Working(size, confirms, Running(0, NO_HASH, 0, NO_HASH)), children), Reads(k)) ==
            Node(Working(size, confirms, Running(0, NO_HASH, k, k)), children)
  {
    hide Run;
    var n := Node(Working(size, confirms, Running(0, NO_HASH, 0, NO_HASH)), children);
    if k == 0 {
      NothingRun(n);
    } else {
      ReadsRun(size, confirms, children, k - 1);
      RunSnoc(n, Reads(k - 1), Act([], Advance(Read(k, k - 1, true), false)));
    }
  }

  lemma {:induction false} FirstSectionRuns(size: Size, confirms: nat, children: seq<Node>)
    ensures Run(Node(Fresh(size, confirms), children), FirstSection(size, confirms)) ==
            Node(Working(size, confirms, Completed(0, NO_HASH, size)), children)
  {
    hide Run;
    var n := Node(Fresh(size, confirms), children);
    var start := [Head(size - 1 + confirms), Act([], Begin)];
    TwoSteps(n, start[0], start[1]);
    assert size / size == 1;
    RunConcat(n, start, Reads(size));
    ReadsRun(size, confirms, children, size);
    RunSnoc(n, start + Reads(size), Act([], Advance(Missing, true)));
  }

  lemma {:induction false} TwoSteps(n: Node, e: Event, f: Event)
    ensures Run(n, [e, f]) == Step(Step(n, e), f)
  {
    hide Run, Step;
    NothingRun(n);
    RunSnoc(n, [], e);
    RunSnoc(n, [] + [e], f);
    assert [] + [e] + [f] == [e, f];
  }

  lemma {:induction false} ReadsHonest(k: nat)
    ensures forall i :: 0 <= i < |Reads(k)| ==> HonestEvent(Straight(), Reads(k)[i]) && Mere(Reads(k)[i])
  {
    if k > 0 {
      ReadsHonest(k - 1);
    }
  }

  /** A step of the root's own update loop that neither adopts a child nor fails a reset. */
  predicate Mere(e: Event) {
    e.Act? && e.path == [] && !e.action.Adopt? && !e.action.FailReset?
  }

  /** For every section size but one, and every reorganisation point in the first section below its last block: the
      reorganisation arrives before the section is stored, and the section is stored all the same. */
  lemma {:induction false} StaleRun(size: Size, confirms: nat, head: nat) returns (events: seq<Event>)
    requires head + 1 < size
    ensures forall i :: 0 <= i < |events| ==> HonestEvent(Straight(), events[i])
    ensures |events| > 2 && events[|events| - 2] == Reorg(head) && events[|events| - 1] == Act([], End)
    ensures Run(Root(size, confirms), events).ix.stored * size > head + 1
  {
    hide Run;
    var first := FirstSection(size, confirms);
    var last := [Reorg(head), Act([], End)];
    events := first + last;
    ReadsHonest(size);
    FirstSectionRuns(size, confirms, []);
    RunConcat(Root(size, confirms), first, last);
    var n := Node(Working(size, confirms, Completed(0, NO_HASH, size)), []);
    TwoSteps(n, last[0], last[1]);
    assert head / size == 0;
    assert Revert(n, head).ix == Working(size, confirms, Completed(0, NO_HASH, size)).(known := 0);
    assert Finish(Revert(n, head)).ix.stored == 1;
  }

  /** For every section size: the root stores a section, tells its child of it, and then fails the reset for the next
      one. Up to there every event was harmless for the bound, given sections of more than one block. */
  lemma {:induction false} ResetBreaksBound(size: Size, confirms: nat) returns (events: seq<Event>)
    ensures |events| > 0 && events[|events| - 1] == Act([], FailReset)
    ensures forall i :: 0 <= i < |events| ==> HonestEvent(Straight(), events[i])
    ensures size >= 2 ==> HarmlessRun(Root(size, confirms), events[..|events| - 1])
    ensures !AllWithin(Run(Root(size, confirms), events))
  {
    hide Run, HarmlessRun;
    var prefix := Told(size, confirms) + [Act([], Begin)];
    events := prefix + [Act([], FailReset)];
    assert events[..|events| - 1] == prefix;
    ReadsHonest(size);
    ToldRuns(size, confirms);
    var root := Root(size, confirms);
    RunSnoc(root, Told(size, confirms), Act([], Begin));
    RunSnoc(root, prefix, Act([], FailReset));
    FailsAbove(Run(root, Told(size, confirms)));
    MereIsHarmless(root, prefix);
  }

  function Told(size: Size, confirms: nat): seq<Event> {
    [Act([], Adopt(size, 0))] + FirstSection(size, confirms) + [Act([], End), Head(2 * size - 1 + confirms)]
  }

  lemma {:induction false} ToldRuns(size: Size, confirms: nat)
    ensures Run(Root(size, confirms), Told(size, confirms)) ==
            Node(Index(size, confirms, 1, 2, size - 1, map[0 := size], 1, Idle),
                 [Node(Fresh(size, 0).(known := 1), [])])
  {
    hide Run, FirstSection;
    var root := Root(size, confirms);
    var adopt := Act([], Adopt(size, 0));
    NothingRun(root);
    RunSnoc(root, [], adopt);
    assert [] + [adopt] == [adopt];
    assert Run(root, [adopt]) == Node(Fresh(size, confirms), [Root(size, 0)]);
    FirstSectionRuns(size, confirms, [Root(size, 0)]);
    RunConcat(root, [adopt], FirstSection(size, confirms));
    var end, next := Act([], End), Head(2 * size - 1 + confirms);
    RunConcat(root, [adopt] + FirstSection(size, confirms), [end, next]);
    var n := Node(Working(size, confirms, Completed(0, NO_HASH, size)), [Root(size, 0)]);
    assert Run(root, [adopt] + FirstSection(size, confirms)) == n;
    TwoSteps(n, end, next);
    ToldOfFirst(size, confirms);
  }

  lemma {:induction false} ToldOfFirst(size: Size, confirms: nat)
    ensures Step(Step(Node(Working(size, confirms, Completed(0, NO_HASH, size)), [Root(size, 0)]), Act([], End)),
                 Head(2 * size - 1 + confirms)) ==
            Node(Index(size, confirms, 1, 2, size - 1, map[0 := size], 1, Idle),
                 [Node(Fresh(size, 0).(known := 1), [])])
  {
    var n := Node(Working(size, confirms, Completed(0, NO_HASH, size)), [Root(size, 0)]);
    var told := Step(n, Act([], End));
    assert size / size == 1 && 2 * size / size == 2;
    assert told.ix == Index(size, confirms, 1, 1, size - 1, map[0 := size], 1, Idle);
  }

  lemma {:induction false} FailsAbove(m: Node)
    requires m.ix.work == Idle && m.ix.known > m.ix.stored && |m.children| > 0 && m.children[0].ix.known == 1
    ensures !AllWithin(Step(Step(m, Act([], Begin)), Act([], FailReset)))
  {
    var r := Step(Step(m, Act([], Begin)), Act([], FailReset));
    assert r.ix.stored == 0 && r.children == m.children;
    assert !Within(r.ix, r.children[0].ix);
  }

  lemma {:induction false} MereIsHarmless(root: Node, events: seq<Event>)
    requires |events| > 0 && events[0].Act? && events[0].path == [] && events[0].action.Adopt?
    requires forall i :: 1 <= i < |events| && events[i].Act? ==> Mere(events[i])
    ensures root.ix.size >= 2 ==> HarmlessRun(root, events)
  {
    assert events[..0] == [];
    NothingRun(root);
  }
}
