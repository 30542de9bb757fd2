/** What the root of the Count protocol returns after a timeout, by what happened before it. */
module CountHistory {
  import opened Arena
  import opened Convergecast
  import opened Count

  /** NodeIsUp messages that reached the root. */
  function Seen(t: seq<Node>, events: seq<CountEvent>): nat {
    if events == [] then 0
    else
      var n := |events| - 1;
      Seen(t, events[..n]) + if events[n] == NodeIsUp(0) && Possible(t, After(t, events[..n]), events[n]) then 1 else 0
  }

  /** NodeIsUp messages that were lost. */
  function LostUps(t: seq<Node>, events: seq<CountEvent>): nat {
    if events == [] then 0
    else
      var n := |events| - 1;
      LostUps(t, events[..n]) + if events[n].LoseUp? && Possible(t, After(t, events[..n]), events[n]) then 1 else 0
  }

  /** Nodes that handled PrepareCount. */
  function Reached(t: seq<Node>, events: seq<CountEvent>): set<nat> {
    if events == [] then {}
    else
      var n := |events| - 1;
      var rest := Reached(t, events[..n]);
      if events[n].PrepareCount? && Possible(t, After(t, events[..n]), events[n]) then rest + {events[n].node} else rest
  }

  // ----- one event

  ghost predicate IsReply(t: seq<Node>, s: State, e: CountEvent) {
    e == NodeIsUp(0) && Possible(t, s, e)
  }

  ghost predicate IsLoss(t: seq<Node>, s: State, e: CountEvent) {
    e.LoseUp? && Possible(t, s, e)
  }

  lemma {:induction false} RepliesStep(t: seq<Node>, s: State, e: CountEvent)
    ensures Next(t, s, e).replies == s.replies + if IsReply(t, s, e) then 1 else 0
  {
  }

  lemma {:induction false} PreparedStep(t: seq<Node>, s: State, e: CountEvent)
    ensures Next(t, s, e).cast.prepared ==
            s.cast.prepared + if e.PrepareCount? && Possible(t, s, e) then {e.node} else {}
  {
    assert s.cast.prepared + {} == s.cast.prepared;
  }

  /** A node sends one NodeIsUp when it is reached; it is passed on until it is counted or lost. */
  lemma {:induction false} UpsStep(t: seq<Node>, s: State, e: CountEvent)
    ensures |Next(t, s, e).ups| ==
            |s.ups| + (if e.PrepareCount? && Possible(t, s, e) && e.node > 0 then 1 else 0)
            - (if IsReply(t, s, e) then 1 else 0) - (if IsLoss(t, s, e) then 1 else 0)
  {
    hide DoPrepare, DoDeliver, DoHandle, Step, Enabled;
    if Possible(t, s, e) {
      if e.NodeIsUp? {
        UpsSize(s.ups, e.node, if e.node > 0 then t[e.node].parent else 0);
      } else if e.LoseUp? {
        UpsSize(s.ups, e.node, 0);
      }
    }
  }

  lemma {:induction false} ReachedStep(t: seq<Node>, s: State, e: CountEvent)
    requires IsTree(t) && Inv(t, s.cast)
    ensures |Next(t, s, e).cast.prepared - {0}| ==
            |s.cast.prepared - {0}| + if e.PrepareCount? && Possible(t, s, e) && e.node > 0 then 1 else 0
  {
    if e.PrepareCount? && Possible(t, s, e) {
      PreparedGrows(t, s.cast, e.node);
    } else {
      PreparedStep(t, s, e);
    }
    hide IsTree, Inv, Enabled;
  }

  // ----- whole runs

  /** In every run the replies are the NodeIsUp messages that reached the root, and the prepared nodes those reached. */
  lemma {:induction false} RepliesAreSeen(t: seq<Node>, events: seq<CountEvent>)
    ensures After(t, events).replies == Seen(t, events) && After(t, events).cast.prepared == Reached(t, events)
  {
    if events != [] {
      var n := |events| - 1;
      RepliesAreSeen(t, events[..n]);
      var s := After(t, events[..n]);
      assert After(t, events) == Next(t, s, events[n]);
      hide Next, Possible;
      RepliesStep(t, s, events[n]);
      PreparedStep(t, s, events[n]);
    }
  }

  /** In every run each node below the root that was reached has one NodeIsUp: on its way, seen by the root, or lost. */
  lemma {:induction false} UpsBalance(t: seq<Node>, events: seq<CountEvent>)
    requires IsTree(t)
    ensures |After(t, events).ups| + Seen(t, events) + LostUps(t, events) == |Reached(t, events) - {0}|
  {
    RepliesAreSeen(t, events);
    if events == [] {
      assert Reached(t, events) - {0} == {};
    } else {
      var n := |events| - 1;
      UpsBalance(t, events[..n]);
      RepliesAreSeen(t, events[..n]);
      AfterInv(t, events[..n]);
      var s := After(t, events[..n]);
      assert After(t, events) == Next(t, s, events[n]);
      UpsStep(t, s, events[n]);
      ReachedStep(t, s, events[n]);
      hide Next, Possible, After, IsTree, Inv;
    }
  }

  lemma {:induction false} OneMore(t: seq<Node>, events: seq<CountEvent>, e: CountEvent)
    ensures After(t, events + [e]) == Next(t, After(t, events), e)
  {
    assert (events + [e])[..|events + [e]| - 1] == events;
  }

  lemma {:induction false} TimeoutEmits(t: seq<Node>, s: State)
    requires Possible(t, s, Timeout) && s.emitted == []
    ensures Next(t, s, Timeout).emitted == [s.replies]
  {
    assert s.emitted + [s.replies] == [s.replies];
  }

  /**
   A timeout returns the number of NodeIsUp messages that the root has seen. That is the
   number of nodes below it that were reached if and only if none of theirs is on its way
   or lost.
   */
  lemma {:induction false} TimeoutReturns(t: seq<Node>, events: seq<CountEvent>)
    requires IsTree(t) && Possible(t, After(t, events), Timeout)
    ensures After(t, events + [Timeout]).emitted == [Seen(t, events)]
    ensures Seen(t, events) == |Reached(t, events) - {0}| <==>
            After(t, events).ups == multiset{} && LostUps(t, events) == 0
  {
    hide Seen, LostUps, Reached, After, IsTree, Inv, AllTruthful, Next;
    AfterInv(t, events);
    RepliesAreSeen(t, events);
    UpsBalance(t, events);
    OneMore(t, events, Timeout);
    TimeoutEmits(t, After(t, events));
  }

  lemma {:induction false} EmittedStep(t: seq<Node>, s: State, e: CountEvent)
    requires s.timedOut ==> s.emitted == [s.replies]
    requires !s.timedOut && 0 !in s.cast.sent ==> s.emitted == []
    ensures Next(t, s, e).timedOut ==> Next(t, s, e).emitted == [Next(t, s, e).replies]
  {
    hide DoPrepare, DoDeliver, DoHandle, Step;
  }

  /** In every run with a timeout, what was returned is the number of NodeIsUp messages the root has seen. */
  lemma {:induction false} TimedOutValue(t: seq<Node>, events: seq<CountEvent>)
    requires IsTree(t)
    ensures After(t, events).timedOut ==> After(t, events).emitted == [Seen(t, events)]
  {
    RepliesAreSeen(t, events);
    if events != [] {
      var n := |events| - 1;
      TimedOutValue(t, events[..n]);
      RepliesAreSeen(t, events[..n]);
      AfterInv(t, events[..n]);
      assert After(t, events) == Next(t, After(t, events[..n]), events[n]);
      hide Next, Seen, IsTree, Inv, AllTruthful;
      EmittedStep(t, After(t, events[..n]), events[n]);
    }
  }

  /**
   In every run the root returns at most one value: after a timeout the number of NodeIsUp
   messages it has seen, and otherwise the size of the tree.
   */
  lemma {:induction false} RootReturns(t: seq<Node>, events: seq<CountEvent>)
    requires IsTree(t)
    ensures |After(t, events).emitted| <= 1
    ensures After(t, events).timedOut ==>
              && After(t, events).emitted == [Seen(t, events)]
              && Seen(t, events) <= |Reached(t, events) - {0}| <= |t| - 1
    ensures After(t, events).emitted != [] && !After(t, events).timedOut ==>
              && Same32(After(t, events).emitted[0], |t|)
              && (|t| <= TWO31 ==> After(t, events).emitted[0] == |t|)
  {
    TimedOutValue(t, events);
    UpsBalance(t, events);
    RepliesAreSeen(t, events);
    RootReturnsOnce(t, events);
    AfterInv(t, events);
    hide Seen, LostUps, Reached, After, IsTree, Inv, Same32;
    PreparedBelowRoot(t, After(t, events).cast);
  }

  // ----- what can still happen

  ghost predicate UpsInTree(t: seq<Node>, s: State) {
    forall v :: v in s.ups ==> v < |t|
  }

  lemma {:induction false} UpsStayInTree(t: seq<Node>, s: State, e: CountEvent)
    requires HasParents(t) && UpsInTree(t, s)
    ensures UpsInTree(t, Next(t, s, e))
  {
    hide DoPrepare, DoDeliver, DoHandle, Step;
  }

  lemma {:induction false} UpsAreInTree(t: seq<Node>, events: seq<CountEvent>)
    requires HasParents(t)
    ensures UpsInTree(t, After(t, events))
  {
    if events != [] {
      UpsAreInTree(t, events[..|events| - 1]);
      hide Next, UpsInTree;
      UpsStayInTree(t, After(t, events[..|events| - 1]), events[|events| - 1]);
    }
  }

  /** In every run a NodeIsUp on its way is handled if its receiver has not reported and, at the root, not timed out. */
  lemma {:induction false} UpIsHandled(t: seq<Node>, events: seq<CountEvent>, v: nat)
    requires IsTree(t) && v in After(t, events).ups
    ensures Possible(t, After(t, events), NodeIsUp(v)) <==>
            v !in After(t, events).cast.sent && (v == 0 ==> !After(t, events).timedOut)
  {
    UpsAreInTree(t, events);
    hide After;
  }

  /** None of the events by which the protocol goes on is possible. */
  ghost predicate Stuck(t: seq<Node>, s: State) {
    forall e :: Possible(t, s, e) ==> e.Timeout? || e.LoseCast? || e.LoseUp?
  }

  lemma {:induction false} StuckIsQuiet(t: seq<Node>, s: State)
    requires HasParents(t) && Stuck(t, s) && !s.timedOut
    ensures Quiet(t, s.cast)
  {
    forall e | Enabled(t, s.cast, e) && !e.LosePrep? && !e.LoseReport? ensures false {
      match e
      case Prepare(v) => assert Possible(t, s, PrepareCount(v));
      case Deliver(r) => assert Possible(t, s, CountArrives(r));
      case Handle(v, _) => assert Possible(t, s, HandleCounts(v));
    }
  }

  /** Without loss and timeout, a run that cannot go on has returned the size of the tree. */
  lemma {:induction false} StuckRunHasCounted(t: seq<Node>, events: seq<CountEvent>)
    requires IsTree(t) && |t| <= TWO31
    requires !After(t, events).cast.lost && !After(t, events).timedOut && Stuck(t, After(t, events))
    ensures After(t, events).emitted == [|t|]
  {
    StuckIsQuiet(t, After(t, events));
    hide IsTree, Quiet, Stuck;
    QuietRunHasCounted(t, events);
  }
}
