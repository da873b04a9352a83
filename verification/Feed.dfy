/** One-to-many event delivery over channels, with subscriptions coming and going (event/feed.go). */
module Feeds {
  import opened Collections

  type Channel = nat

  /** The channel on which a running Send hears of cancelled subscriptions. */
  const REMOVE_SUB: Channel := 0

  datatype Dir = SelectRecv | SelectSend

  /** A select case: a channel, the direction, and the value to be sent on it, if one is set. */
  datatype Case = Case(ch: Channel, dir: Dir, value: Option<int>)

  ghost function Names(cases: seq<Case>): seq<Channel> {
    seq(|cases|, i requires 0 <= i < |cases| => cases[i].ch)
  }

  /** The subscribed channels, each as often as it is subscribed. */
  ghost function Subscribed(cases: seq<Case>): multiset<Channel> {
    if |cases| == 0 then multiset{} else multiset(Names(cases[1..]))
  }

  /** Index 0 holds the removal case, and every other index a subscription set to send the given value. */
  ghost predicate CasesOk(cases: seq<Case>, value: Option<int>) {
    && |cases| >= 1 && cases[0] == Case(REMOVE_SUB, SelectRecv, None)
    && SubsOk(cases[1..], value)
  }

  ghost predicate SubsOk(cases: seq<Case>, value: Option<int>) {
    forall i :: 0 <= i < |cases| ==> cases[i].ch != REMOVE_SUB && cases[i].dir == SelectSend && cases[i].value == value
  }

  /** The first case with the channel, or -1. */
  method Find(cases: seq<Case>, ch: Channel) returns (index: int)
    ensures -1 <= index < |cases|
    ensures index >= 0 ==> cases[index].ch == ch && forall i :: 0 <= i < index ==> cases[i].ch != ch
    ensures index == -1 <==> forall i :: 0 <= i < |cases| ==> cases[i].ch != ch
  {
    for i := 0 to |cases|
      invariant forall k :: 0 <= k < i ==> cases[k].ch != ch
    {
      if cases[i].ch == ch {
        return i;
      }
    }
    return -1;
  }

  function Delete(cases: seq<Case>, index: nat): seq<Case>
    requires index < |cases|
  {
    cases[..index] + cases[index + 1..]
  }

  /** Moves the case at index out of the first n, to their end. */
  function Deactivate(cases: seq<Case>, index: nat, n: nat): seq<Case>
    requires index < n <= |cases|
  {
    cases[index := cases[n - 1]][n - 1 := cases[index]]
  }

  function Load(cases: seq<Case>, value: Option<int>): seq<Case> {
    seq(|cases|, i requires 0 <= i < |cases| => if i == 0 then cases[0] else cases[i].(value := value))
  }

  // ----- what each step does to who is subscribed and who has been served -----

  /** The active cases, the removal case first, are the first n; those after have been served. */
  ghost function Active(cases: seq<Case>, n: nat): multiset<Channel>
    requires 1 <= n <= |cases|
  {
    multiset(Names(cases[1..n]))
  }

  ghost function Served(cases: seq<Case>, n: nat): multiset<Channel>
    requires 1 <= n <= |cases|
  {
    multiset(Names(cases[n..]))
  }

  lemma {:induction false} NamesConcat(a: seq<Case>, b: seq<Case>)
    ensures Names(a + b) == Names(a) + Names(b)
  {
  }

  lemma {:induction false} NamesSplit(cases: seq<Case>, n: nat)
    requires 1 <= n <= |cases|
    ensures Subscribed(cases) == Active(cases, n) + Served(cases, n)
  {
    assert cases[1..] == cases[1..n] + cases[n..];
    NamesConcat(cases[1..n], cases[n..]);
  }

  /** The names of a list with one case taken out. */
  lemma {:induction false} NamesDelete(cases: seq<Case>, index: nat)
    requires index < |cases|
    ensures multiset(Names(cases)) == multiset(Names(Delete(cases, index))) + multiset{cases[index].ch}
  {
    var a, b := cases[..index], cases[index + 1..];
    assert cases == a + [cases[index]] + b;
    NamesConcat(a, [cases[index]]);
    NamesConcat(a + [cases[index]], b);
    NamesConcat(a, b);
    assert Names([cases[index]]) == [cases[index].ch];
  }

  /** Deactivating a case moves its channel from the active to the served ones, and keeps everybody subscribed. */
  lemma {:induction false} DeactivateServes(cases: seq<Case>, index: nat, n: nat, value: Option<int>)
    requires CasesOk(cases, value) && 1 <= index < n <= |cases|
    ensures var r := Deactivate(cases, index, n);
            && CasesOk(r, value) && |r| == |cases|
            && Active(cases, n) == Active(r, n - 1) + multiset{cases[index].ch}
            && Served(r, n - 1) == Served(cases, n) + multiset{cases[index].ch}
  {
    var r := Deactivate(cases, index, n);
    assert r[n - 1..] == [cases[index]] + cases[n..];
    NamesConcat([cases[index]], cases[n..]);
    assert Names([cases[index]]) == [cases[index].ch];
    assert r[1..n - 1] + [cases[index]] == (cases[1..n])[index - 1 := cases[n - 1]][n - 2 := cases[index]];
    SwapNames(cases[1..n], index - 1, n - 2);
    NamesConcat(r[1..n - 1], [cases[index]]);
    assert r[0] == cases[0];
    forall i | 0 <= i < |r| - 1
      ensures r[1..][i].ch != REMOVE_SUB && r[1..][i].dir == SelectSend && r[1..][i].value == value
    {
      assert r[1..][i] == r[i + 1];
      assert cases[1..][i] == cases[i + 1];
      assert cases[1..][index - 1] == cases[index] && cases[1..][n - 2] == cases[n - 1];
    }
  }

  lemma {:induction false} SwapNames(cases: seq<Case>, i: nat, j: nat)
    requires i < |cases| && j < |cases|
    ensures multiset(Names(cases[i := cases[j]][j := cases[i]])) == multiset(Names(cases))
  {
    var names := Names(cases);
    assert Names(cases[i := cases[j]][j := cases[i]]) == names[i := names[j]][j := names[i]];
  }

  lemma {:induction false} DeleteKeepsOk(cases: seq<Case>, index: nat, value: Option<int>)
    requires CasesOk(cases, value) && 1 <= index < |cases|
    ensures CasesOk(Delete(cases, index), value)
  {
    var r := Delete(cases, index);
    assert r[1..] == Delete(cases[1..], index - 1);
    assert r[0] == cases[0];
  }

  lemma {:induction false} DeleteSub(cases: seq<Case>, index: nat)
    requires SubsOk(cases, None) && index < |cases|
    ensures SubsOk(Delete(cases, index), None)
  {
  }

  lemma {:induction false} DeletedLength(cases: seq<Case>, index: nat)
    requires index < |cases|
    ensures |Delete(cases, index)| == |cases| - 1
  {
  }

  lemma {:induction false} OkNotEmpty(cases: seq<Case>, value: Option<int>)
    requires CasesOk(cases, value)
    ensures |cases| >= 1
  {
  }

  /** Deleting an active case takes its channel off the active ones. */
  lemma {:induction false} DeleteActive(cases: seq<Case>, index: nat, n: nat)
    requires 1 <= index < n <= |cases|
    ensures var r := Delete(cases, index);
            Active(cases, n) == Active(r, n - 1) + multiset{cases[index].ch} && Served(r, n - 1) == Served(cases, n)
  {
    var r := Delete(cases, index);
    assert r[n - 1..] == cases[n..];
    assert r[1..n - 1] == Delete(cases[1..n], index - 1);
    NamesDelete(cases[1..n], index - 1);
  }

  /** Deleting a served case takes its channel off the served ones. */
  lemma {:induction false} DeleteServed(cases: seq<Case>, index: nat, n: nat)
    requires 1 <= n <= index < |cases|
    ensures var r := Delete(cases, index);
            Active(cases, n) == Active(r, n) && Served(cases, n) == Served(r, n) + multiset{cases[index].ch}
  {
    var r := Delete(cases, index);
    assert r[1..n] == cases[1..n];
    assert r[n..] == Delete(cases[n..], index - n);
    NamesDelete(cases[n..], index - n);
  }

  lemma {:induction false} LoadOk(cases: seq<Case>, before: Option<int>, value: Option<int>)
    requires CasesOk(cases, before)
    ensures CasesOk(Load(cases, value), value) && Names(Load(cases, value)) == Names(cases)
    ensures Subscribed(Load(cases, value)) == Subscribed(cases)
  {
    var r := Load(cases, value);
    forall i | 0 <= i < |r| - 1 ensures r[1..][i] == cases[1..][i].(value := value) {
      assert r[1..][i] == r[i + 1] && cases[1..][i] == cases[i + 1];
    }
    assert Names(r[1..]) == Names(cases[1..]);
  }

  /** Appending new subscriptions. */
  lemma {:induction false} AppendOk(cases: seq<Case>, more: seq<Case>)
    requires CasesOk(cases, None) && SubsOk(more, None)
    ensures CasesOk(cases + more, None) && Subscribed(cases + more) == Subscribed(cases) + multiset(Names(more))
  {
    assert (cases + more)[1..] == cases[1..] + more;
    NamesConcat(cases[1..], more);
  }

  class Feed {
    var sendCases: seq<Case>
    var inbox: seq<Case>

    ghost predicate Valid()
      reads this
    {
      CasesOk(sendCases, None) && SubsOk(inbox, None)
    }

    /** All subscriptions, each as often as it was made. */
    ghost function Subscribers(): multiset<Channel>
      reads this
    {
      Subscribed(sendCases) + multiset(Names(inbox))
    }

    constructor ()
      ensures Valid() && Subscribers() == multiset{}
    {
      sendCases, inbox := [Case(REMOVE_SUB, SelectRecv, None)], [];
    }

    /** A new subscription waits in the inbox until the next Send. */
    method Subscribe(ch: Channel)
      requires Valid() && ch != REMOVE_SUB
      modifies this
      ensures Valid() && Subscribers() == old(Subscribers()) + multiset{ch}
      ensures sendCases == old(sendCases)
    {
      ghost var added := [Case(ch, SelectSend, None)];
      NamesConcat(inbox, added);
      assert Names(added) == [ch];
      inbox := inbox + [Case(ch, SelectSend, None)];
    }

    /** Cancels a subscription while no Send is running; one still in the inbox goes first. */
    method Remove(ch: Channel)
      requires Valid() && ch in Subscribers() && ch != REMOVE_SUB
      modifies this
      ensures Valid() && Subscribers() == old(Subscribers()) - multiset{ch}
      ensures ch in multiset(Names(old(inbox))) ==> sendCases == old(sendCases)
      ensures ch !in multiset(Names(old(inbox))) ==> inbox == old(inbox)
    {
      hide CasesOk, Subscribed, Active, Served, Delete, Names, SubsOk;
      var index := Find(inbox, ch);
      if index != -1 {
        NamesDelete(inbox, index);
        DeleteSub(inbox, index);
        assert ch in multiset(Names(inbox));
        inbox := Delete(inbox, index);
        return;
      }
      NotNamed(inbox, ch);
      index := Find(sendCases, ch);
      FoundIn(sendCases, ch, index, None);
      DeleteKeepsOk(sendCases, index, None);
      OkNotEmpty(Delete(sendCases, index), None);
      DeletedLength(sendCases, index);
      DeleteActive(sendCases, index, |sendCases|);
      AllActive(sendCases);
      AllActive(Delete(sendCases, index));
      sendCases := Delete(sendCases, index);
    }

    /** Delivers a value to every subscriber, in whatever order their channels get ready, while subscriptions come and
        go: `sent` lists the deliveries, and `removed` the subscriptions cancelled meanwhile. */
    method Send(value: int) returns (nsent: nat, ghost sent: seq<Delivery>, ghost removed: multiset<Channel>)
      requires Valid()
      modifies this
      ensures Valid() && nsent == |sent| && forall d :: d in sent ==> d.value == Some(value)
      ensures Subscribed(sendCases) + removed == old(Subscribers())
      ensures Subscribed(sendCases) <= Recipients(sent) <= Subscribed(sendCases) + removed
    {
      hide CasesOk, SubsOk, Subscribed, Active, Served, Recipients, Delete, Deactivate, Load;
      AppendOk(sendCases, inbox);
      sendCases := sendCases + inbox;
      inbox := [];
      LoadOk(sendCases, None, Some(value));
      sendCases := Load(sendCases, Some(value));
      nsent, sent, removed := 0, [], multiset{};
      ghost var gone := multiset{};
      var n := |sendCases|;
      Started(sendCases);
      NoneWaiting();
      while true
        invariant CasesOk(sendCases, Some(value)) && SubsOk(inbox, None) && 1 <= n <= |sendCases|
        invariant Account(sendCases, n, sent, removed, gone, old(Subscribers()))
        invariant nsent == |sent| && forall d :: d in sent ==> d.value == Some(value)
        decreases |sendCases| + n
      {
        n, nsent, sent := TryAll(value, n, nsent, sent, removed, gone, old(Subscribers()));
        if n == 1 {
          break;
        }
        var chosen: int :| 0 <= chosen < n;
        if chosen == 0 {
          var k: int :| 1 <= k < |sendCases|;
          var ch := sendCases[k].ch;
          var index := Find(sendCases, ch);
          CaseFound(sendCases, k, index, Some(value));
          CancelStep(sendCases, n, sent, removed, gone, old(Subscribers()), index, Some(value));
          gone := if index < n then gone else gone + multiset{ch};
          removed := removed + multiset{ch};
          sendCases := Delete(sendCases, index);
          if index < n {
            n := n - 1;
          }
        } else {
          ServeStep(sendCases, n, sent, removed, gone, old(Subscribers()), chosen, Some(value));
          sent := sent + [Delivery(sendCases[chosen].ch, sendCases[chosen].value)];
          sendCases := Deactivate(sendCases, chosen, n);
          n := n - 1;
          nsent := nsent + 1;
        }
        inbox := Meanwhile(inbox);
      }
      AllServed(sendCases, sent, removed, gone, old(Subscribers()));
      LoadOk(sendCases, Some(value), None);
      sendCases := Load(sendCases, None);
    }

    /** The fast path: tries every active channel once without waiting. */
    method TryAll(value: int, n0: nat, nsent0: nat, ghost sent0: seq<Delivery>, ghost removed: multiset<Channel>,
                  ghost gone: multiset<Channel>, ghost all: multiset<Channel>)
      returns (n: nat, nsent: nat, ghost sent: seq<Delivery>)
      requires CasesOk(sendCases, Some(value)) && 1 <= n0 <= |sendCases|
      requires Account(sendCases, n0, sent0, removed, gone, all)
      requires nsent0 == |sent0| && forall d :: d in sent0 ==> d.value == Some(value)
      modifies `sendCases
      ensures CasesOk(sendCases, Some(value)) && 1 <= n <= n0 <= |sendCases| == |old(sendCases)|
      ensures Account(sendCases, n, sent, removed, gone, all)
      ensures nsent == |sent| && forall d :: d in sent ==> d.value == Some(value)
    {
      hide CasesOk, SubsOk, Subscribed, Active, Served, Recipients, Delete, Deactivate, Account;
      n, nsent, sent := n0, nsent0, sent0;
      var i := 1;
      while i < n
        invariant 1 <= i && 1 <= n <= n0 <= |sendCases| == |old(sendCases)|
        invariant CasesOk(sendCases, Some(value))
        invariant Account(sendCases, n, sent, removed, gone, all)
        invariant nsent == |sent| && forall d :: d in sent ==> d.value == Some(value)
        decreases n - i
      {
        var ready: bool := *;
        if ready {
          ServeStep(sendCases, n, sent, removed, gone, all, i, Some(value));
          sent := sent + [Delivery(sendCases[i].ch, Some(value))];
          nsent := nsent + 1;
          sendCases := Deactivate(sendCases, i, n);
          n := n - 1;
        } else {
          i := i + 1;
        }
      }
    }
  }

  lemma {:induction false} AllActive(cases: seq<Case>)
    requires |cases| >= 1
    ensures Active(cases, |cases|) == Subscribed(cases) && Served(cases, |cases|) == multiset{}
  {
    assert cases[1..|cases|] == cases[1..];
  }

  lemma {:induction false} NotNamed(cases: seq<Case>, ch: Channel)
    requires forall i :: 0 <= i < |cases| ==> cases[i].ch != ch
    ensures ch !in multiset(Names(cases))
  {
    assert forall i :: 0 <= i < |cases| ==> Names(cases)[i] == cases[i].ch;
    assert ch !in Names(cases);
  }

  /** A subscribed channel is found, and not at the removal case. */
  lemma {:induction false} FoundIn(cases: seq<Case>, ch: Channel, index: int, value: Option<int>)
    requires CasesOk(cases, value) && ch in Subscribed(cases) && ch != REMOVE_SUB
    requires index == -1 <==> forall i :: 0 <= i < |cases| ==> cases[i].ch != ch
    requires index >= 0 ==> index < |cases| && cases[index].ch == ch
    requires index >= -1
    ensures 1 <= index < |cases|
  {
    assert ch in Names(cases[1..]);
    var i :| 0 <= i < |cases| - 1 && Names(cases[1..])[i] == ch;
    assert cases[i + 1].ch == ch;
  }

  // ----- the books of a running Send -----

  datatype Delivery = Delivery(ch: Channel, value: Option<int>)

  ghost function Recipients(sent: seq<Delivery>): multiset<Channel> {
    multiset(seq(|sent|, i requires 0 <= i < |sent| => sent[i].ch))
  }

  /** `gone` are the subscriptions that were served and then cancelled. Every delivery went to a subscription that is
      served or gone, and everybody subscribed at the start is active, served or removed. */
  ghost predicate Account(cases: seq<Case>, n: nat, sent: seq<Delivery>, removed: multiset<Channel>,
                          gone: multiset<Channel>, all: multiset<Channel>)
    requires 1 <= n <= |cases|
  {
    && Recipients(sent) == Served(cases, n) + gone
    && gone <= removed
    && Active(cases, n) + Served(cases, n) + removed == all
  }

  lemma {:induction false} Started(cases: seq<Case>)
    requires |cases| >= 1
    ensures Account(cases, |cases|, [], multiset{}, multiset{}, Subscribed(cases))
  {
    AllActive(cases);
  }

  lemma {:induction false} NoneWaiting()
    ensures SubsOk([], None)
  {
  }

  lemma {:induction false} OneMore(sent: seq<Delivery>, d: Delivery)
    ensures Recipients(sent + [d]) == Recipients(sent) + multiset{d.ch}
  {
    var a := seq(|sent|, i requires 0 <= i < |sent| => sent[i].ch);
    assert seq(|sent + [d]|, i requires 0 <= i < |sent + [d]| => (sent + [d])[i].ch) == a + [d.ch];
  }

  lemma {:induction false} ServeStep(cases: seq<Case>, n: nat, sent: seq<Delivery>, removed: multiset<Channel>,
                                     gone: multiset<Channel>, all: multiset<Channel>, index: nat, value: Option<int>)
    requires CasesOk(cases, value) && 1 <= index < n <= |cases| && Account(cases, n, sent, removed, gone, all)
    ensures var r := Deactivate(cases, index, n);
            && |r| == |cases| && CasesOk(r, value) && cases[index].value == value
            && Account(r, n - 1, sent + [Delivery(cases[index].ch, value)], removed, gone, all)
  {
    hide Deactivate, Active, Served, Recipients;
    DeactivateServes(cases, index, n, value);
    OneMore(sent, Delivery(cases[index].ch, value));
    assert cases[1..][index - 1] == cases[index];
  }

  lemma {:induction false} CaseFound(cases: seq<Case>, k: int, index: int, value: Option<int>)
    requires CasesOk(cases, value) && 1 <= k < |cases|
    requires -1 <= index < |cases| && (index >= 0 ==> cases[index].ch == cases[k].ch)
    requires index == -1 <==> forall i :: 0 <= i < |cases| ==> cases[i].ch != cases[k].ch
    ensures 1 <= index < |cases|
  {
    assert cases[1..][k - 1] == cases[k];
  }

  lemma {:induction false} CancelStep(cases: seq<Case>, n: nat, sent: seq<Delivery>, removed: multiset<Channel>,
                                      gone: multiset<Channel>, all: multiset<Channel>, index: nat, value: Option<int>)
    requires CasesOk(cases, value) && 1 <= index < |cases| && 1 <= n <= |cases|
    requires Account(cases, n, sent, removed, gone, all)
    ensures var r := Delete(cases, index);
            var ch := cases[index].ch;
            && |r| == |cases| - 1 && CasesOk(r, value)
            && (index < n ==> 1 <= n - 1 && Account(r, n - 1, sent, removed + multiset{ch}, gone, all))
            && (index >= n ==> Account(r, n, sent, removed + multiset{ch}, gone + multiset{ch}, all))
  {
    hide Active, Served, Recipients;
    DeleteKeepsOk(cases, index, value);
    if index < n {
      DeleteActive(cases, index, n);
    } else {
      DeleteServed(cases, index, n);
    }
  }

  lemma {:induction false} AllServed(cases: seq<Case>, sent: seq<Delivery>, removed: multiset<Channel>,
                                     gone: multiset<Channel>, all: multiset<Channel>)
    requires |cases| >= 1 && Account(cases, 1, sent, removed, gone, all)
    ensures Subscribed(cases) + removed == all
    ensures Subscribed(cases) <= Recipients(sent) <= Subscribed(cases) + removed
  {
    NamesSplit(cases, 1);
    assert cases[1..1] == [];
    hide Recipients;
  }

  /** Whatever other goroutines do to the inbox while a Send waits. */
  method Meanwhile(inbox: seq<Case>) returns (r: seq<Case>)
    requires SubsOk(inbox, None)
    ensures SubsOk(r, None)
  {
    r := *;
    if exists i :: 0 <= i < |r| && !(r[i].ch != REMOVE_SUB && r[i].dir == SelectSend && r[i].value == None) {
      r := inbox;
    }
  }
}
