/** The overlay over whole runs: every sequence of events from the empty state. */
module OverlayRuns {
  import opened TreeStorage
  import opened OverlayState
  import opened OverlayInstances
  import opened OverlayMessages
  import opened OverlayTrees
  import opened OverlayLog

  ghost predicate Inv(s: State) {
    InstInv(s) && Conserved(s) && TreeInv(s) && LogInv(s)
  }

  lemma {:induction false} ReceivedMore(s: State, m: Msg)
    requires InstInv(s) && forall i :: i in s.creating ==> s.creating[i] != m.to
    ensures InstInv(s.(received := s.received + multiset{m}))
  {
    hide RegInv, Owns, LiveOrClosed;
  }

  lemma {:induction false} StepInst(s: State, e: Event)
    requires InstInv(s) && Conserved(s) && LogInv(s) && Possible(s, e)
    ensures InstInv(Step(s, e))
  {
    hide Transmit, NodeDelete, LogInv, Conserved;
    match e
    case Receive(m, o) =>
      ReceivedMore(s, m);
      hide InstInv;
      TransmitInst(s.(received := s.received + multiset{m}), m, o);
    case Drain(l, o) =>
      DrainConserves(s, l, o);
      TransmitInst(s.(drains := s.drains[l := s.drains[l][1..]]), s.drains[l][0], o);
      hide InstInv;
    case RegisterPI => RegisterPIInst(s);
    case Hand => hide RegInv, CreatingInv;
    case NewInstance(t, tok) => NewInstanceInst(s, t, tok);
    case RegisterLocal(i) => RegisterLocalInst(s, i);
    case Response(t) => hide RegInv, CreatingInv, StageInv;
    case LocalTree(t) => hide RegInv, CreatingInv, StageInv;
    case Done(tok) => DeleteInst(s, tok); hide InstInv;
    case Expired(id) => hide RegInv, CreatingInv, StageInv;
    case Shutdown(order) => DeleteAllLog(s, order); hide RegInv, CreatingInv, StageInv;
  }

  lemma {:induction false} StepLog(s: State, e: Event)
    requires InstInv(s) && LogInv(s) && Possible(s, e)
    ensures LogInv(Step(s, e))
  {
    hide ClosedOnce, RequestedOnce;
    match e
    case Receive(m, o) =>
      ReceivedMore(s, m);
      TransmitLog(s.(received := s.received + multiset{m}), m, o);
      hide InstInv, Transmit, LogInv;
    case Drain(l, o) =>
      TransmitLog(s.(drains := s.drains[l := s.drains[l][1..]]), s.drains[l][0], o);
      hide InstInv, Transmit, LogInv;
    case RegisterPI =>
      BindKeepsClosing(s.reg, s.stage.msg.to, s.stage.inst);
      NoteMsg(s.(stage := Idle), Refused(s.stage.msg));
      hide InstInv, Bind;
    case Hand =>
      var m, i := s.stage.msg, s.stage.inst;
      NoteMsg(s.(stage := Idle), if i in s.reg.closing then Dropped(m) else Queued(m, i));
      hide InstInv, LogInv;
    case NewInstance(t, tok) =>
      RegisterTreeLog(s.(reg := List(s.reg, tok), creating := s.creating[s.reg.nextInst := tok]), t);
      hide InstInv, LogInv, RegisterTree;
    case RegisterLocal(i) => BindKeepsClosing(s.reg, s.creating[i], i); hide InstInv, Bind;
    case Response(t) => RegisterTreeLog(s, t); hide InstInv, LogInv, RegisterTree;
    case LocalTree(t) => RegisterTreeLog(s, t); hide InstInv, LogInv, RegisterTree;
    case Done(tok) => DeleteLog(s, tok); hide InstInv, LogInv, NodeDelete;
    case Expired(id) => ExpiredLog(s, id); hide InstInv, LogInv;
    case Shutdown(order) => DeleteAllLog(s, order); hide InstInv;
  }

  lemma {:induction false} StepInv(s: State, e: Event)
    requires Inv(s)
    ensures Inv(Step(s, e))
  {
    hide InstInv, Conserved, TreeInv, LogInv;
    if Possible(s, e) {
      hide Possible;
      StepInst(s, e);
      StepConserves(s, e);
      StepTree(s, e);
      StepLog(s, e);
      hide Step;
    }
  }

  lemma {:induction false} BeginInv()
    ensures Inv(Begin())
  {
  }

  lemma {:induction false} RunInv(es: seq<Event>)
    ensures Inv(Run(es))
  {
    if es == [] {
      BeginInv();
    } else {
      hide Inv;
      RunInv(es[..|es| - 1]);
      StepInv(Run(es[..|es| - 1]), es[|es| - 1]);
    }
  }

  // ----- instances

  /** In every run a registered protocol instance is the one bound to the live instance of its token. */
  lemma {:induction false} RegisteredIsLive(es: seq<Event>, tok: Token)
    requires tok in Run(es).reg.protocolInstances
    ensures var r := Run(es).reg;
            tok in r.instances && r.protocolInstances[tok] == r.instances[tok] && r.instances[tok] in r.bound
  {
    RunInv(es);
  }

  lemma {:induction false} DeleteAllFinished(s: State, toks: seq<Token>)
    ensures s.reg.finished <= DeleteAll(s, toks).reg.finished
    decreases toks
  {
    if toks != [] {
      DeleteAllFinished(NodeDelete(s, toks[0]), toks[1..]);
    }
  }

  lemma {:induction false} FinishedGrows(s: State, e: Event)
    ensures s.reg.finished <= Step(s, e).reg.finished
  {
    if e.Shutdown? {
      DeleteAllFinished(s, e.order);
    }
  }

  lemma {:induction false} FinishedNotLive(es: seq<Event>, tok: Token)
    requires tok in Run(es).reg.finished
    ensures tok !in Run(es).reg.instances
  {
    RunInv(es);
  }

  /** In every run a finished token is not live, and no continuation of the run makes it live again. */
  lemma {:induction false} FinishedNeverLive(es: seq<Event>, more: seq<Event>, tok: Token)
    requires tok in Run(es).reg.finished
    ensures tok in Run(es + more).reg.finished && tok !in Run(es + more).reg.instances
  {
    hide Step, Inv;
    if more == [] {
      assert es + more == es;
    } else {
      var before := more[..|more| - 1];
      FinishedNeverLive(es, before, tok);
      assert (es + more)[..|es + more| - 1] == es + before;
      FinishedGrows(Run(es + before), more[|more| - 1]);
    }
    FinishedNotLive(es + more, tok);
  }

  /** In every run an instance is closed at most once. */
  lemma {:induction false} ClosedAtMostOnce(es: seq<Event>, i: nat, j: nat)
    requires i < j < |Run(es).log| && Run(es).log[i].Closed? && Run(es).log[j].Closed?
    ensures Run(es).log[i].inst != Run(es).log[j].inst
  {
    RunInv(es);
  }

  /** In every run nothing is queued to an instance after it was closed. */
  lemma {:induction false} NothingQueuedAfterClose(es: seq<Event>, i: nat, j: nat)
    requires i < j < |Run(es).log| && Run(es).log[i].Closed? && Run(es).log[j].Queued?
    ensures Run(es).log[i].inst != Run(es).log[j].inst
  {
    RunInv(es);
  }

  /** A protocol that is done before it is registered is not registered, and its message is refused. */
  lemma {:induction false} DoneBeforeRegistration(es: seq<Event>)
    requires Run(es).stage.Created? && Run(es).stage.msg.to !in Run(es).reg.instances
    ensures var s, m := Run(es), Run(es).stage.msg;
            var s' := Step(s, RegisterPI);
            m.to in s.reg.finished && s'.reg == s.reg && s'.stage == Idle && s'.log == s.log + [Refused(m)]
  {
    RunInv(es);
  }

  // ----- trees

  /** In every run before Close, Tree() finds the tree of a live instance, and no removal is planned. */
  lemma {:induction false} LiveInstanceHasTree(es: seq<Event>, tok: Token)
    requires tok in Run(es).reg.instances && !Run(es).storage.closed
    ensures Get(Run(es).storage, tok.tree).Some? && tok.tree !in Run(es).storage.planned
  {
    RunInv(es);
  }

  // ----- messages

  /** In every run each received message is in exactly one place, as often as it was received. */
  lemma {:induction false} MessagesConserved(es: seq<Event>)
    ensures Run(es).received == Everywhere(Run(es))
  {
    RunInv(es);
  }

  /** In every run the tree of a pending message is not there. */
  lemma {:induction false} PendingLacksTree(es: seq<Event>, i: nat)
    requires i < |Run(es).pending|
    ensures Get(Run(es).storage, Run(es).pending[i].to.tree).None?
  {
    RunInv(es);
  }

  /** In every run a tree is requested twice only if its id was forgotten in between. */
  lemma {:induction false} NoSecondRequest(es: seq<Event>, i: nat, j: nat)
    requires i < j < |Run(es).log| && Run(es).log[i].Requested? && Run(es).log[j] == Run(es).log[i]
    ensures exists k :: i < k < j && Run(es).log[k] == Forgotten(Run(es).log[i].tree)
  {
    RunInv(es);
    assert ForgottenBetween(Run(es).log, i, j);
  }

  /** Positions of the messages for `tree`, in order. */
  ghost function Positions(ms: seq<Msg>, tree: nat): (r: seq<nat>)
    ensures forall a :: 0 <= a < |r| ==> r[a] < |ms|
  {
    if ms == [] then []
    else
      var rest := Positions(ms[..|ms| - 1], tree);
      if ms[|ms| - 1].to.tree == tree then rest + [|ms| - 1] else rest
  }

  /** The messages at those positions are the ones for the tree. */
  lemma {:induction false} PositionsMatch(ms: seq<Msg>, tree: nat)
    ensures var ps, part := Positions(ms, tree), Matching(ms, tree);
            |ps| == |part| && (forall a :: 0 <= a < |ps| ==> ms[ps[a]] == part[a])
  {
    if ms != [] {
      PositionsMatch(ms[..|ms| - 1], tree);
    }
  }

  ghost predicate Ascending(ps: seq<nat>) {
    forall a, b :: 0 <= a < b < |ps| ==> ps[a] < ps[b]
  }

  lemma {:induction false} PositionsAscend(ms: seq<Msg>, tree: nat)
    ensures Ascending(Positions(ms, tree))
  {
    if ms != [] {
      var n := |ms| - 1;
      PositionsAscend(ms[..n], tree);
      var ps, rest := Positions(ms, tree), Positions(ms[..n], tree);
      assert ps == if ms[n].to.tree == tree then rest + [n] else rest;
      hide Positions;
      assert forall a :: 0 <= a < |rest| ==> rest[a] < n;
    }
  }

  lemma {:induction false} PositionsComplete(ms: seq<Msg>, tree: nat, i: nat)
    requires i < |ms|
    ensures ms[i].to.tree == tree <==> i in Positions(ms, tree)
  {
    var n := |ms| - 1;
    var rest, ps := Positions(ms[..n], tree), Positions(ms, tree);
    assert ps == if ms[n].to.tree == tree then rest + [n] else rest;
    hide Positions;
    if i < n {
      PositionsComplete(ms[..n], tree, i);
    }
  }

  /** A new tree drains the messages that wait for it, all of them and in the order of the pending list. */
  lemma {:induction false} DrainTakesWaiting(s: State, t: Tree)
    ensures var s' := RegisterTree(s, t);
            var ps := Positions(s.pending, t.id);
            && s'.drains[..|s.drains|] == s.drains && |s'.drains| == |s.drains| + 1
            && |s'.drains[|s.drains|]| == |ps|
            && (forall a :: 0 <= a < |ps| ==> s'.drains[|s.drains|][a] == s.pending[ps[a]])
            && Ascending(ps)
            && (forall i: nat :: i < |s.pending| ==> (s.pending[i].to.tree == t.id <==> i in ps))
            && (forall i :: 0 <= i < |s'.pending| ==> s'.pending[i].to.tree != t.id)
  {
    NotMatchingTree(s.pending, t.id);
    PositionsMatch(s.pending, t.id);
    PositionsAscend(s.pending, t.id);
    hide Matching, NotMatching, Positions;
    forall i: nat | i < |s.pending|
      ensures s.pending[i].to.tree == t.id <==> i in Positions(s.pending, t.id)
    {
      PositionsComplete(s.pending, t.id, i);
    }
  }

  /**
   After a request that could not be sent, the message waits and the id is not
   registered, so a tree sent by a peer is ignored until the next message for it
   makes a new request.
   */
  lemma {:induction false} FailedSend(s: State, m: Msg, o: Outcome)
    requires Possible(s, Receive(m, o)) && o.wrapOk && !o.sendOk && !IsRegistered(s.storage, m.to.tree)
    ensures var s' := Step(s, Receive(m, o));
            && s'.pending == s.pending + [m]
            && !IsRegistered(s'.storage, m.to.tree)
            && (forall t: Tree :: t.id == m.to.tree ==> Step(s', Response(t)) == s')
  {
    hide CanTransmit;
  }

  /** Once requested again, the answer drains every message that waits for the tree. */
  lemma {:induction false} AnswerDrains(s: State, t: Tree, i: nat)
    requires IsRegistered(s.storage, t.id) && i < |s.pending| && s.pending[i].to.tree == t.id
    ensures var s' := Step(s, Response(t));
            s.pending[i] in s'.drains[|s'.drains| - 1] && Available(s'.storage, t.id)
  {
    DrainTakesWaiting(s, t);
    var ps := Positions(s.pending, t.id);
    var a :| 0 <= a < |ps| && ps[a] == i;
    assert RegisterTree(s, t).drains[|s.drains|][a] == s.pending[i];
  }
}
