/**
 The order of messages in the overlay. Messages are numbered as they are received;
 two things can bring messages of one tree out of that order: a drained message that
 is put back because its tree is gone, and a message that is handed over while an
 older one still waits.
 */
module OverlayOrder {
  import opened Wrappers
  import opened TreeStorage
  import opened OverlayState
  import opened OverlayMessages
  import opened OverlayRuns

  // ----- numbers

  ghost predicate Numbered(received: multiset<Msg>) {
    forall m :: m in received ==> m.id < |received|
  }

  lemma {:induction false} DeleteAllReceived(s: State, toks: seq<Token>)
    ensures DeleteAll(s, toks).received == s.received
    decreases toks
  {
    if toks != [] {
      DeleteAllReceived(NodeDelete(s, toks[0]), toks[1..]);
    }
  }

  lemma {:induction false} StepReceived(s: State, e: Event)
    ensures Step(s, e).received == if e.Receive? && Possible(s, e) then s.received + multiset{e.msg} else s.received
  {
    if Possible(s, e) {
      match e
      case Receive(m, o) => TransmitReceived(s.(received := s.received + multiset{m}), m, o); hide Transmit;
      case Drain(l, o) =>
        TransmitReceived(s.(drains := s.drains[l := s.drains[l][1..]]), s.drains[l][0], o);
        hide Transmit;
      case Shutdown(order) => DeleteAllReceived(s, order);
      case _ =>
    }
  }

  lemma {:induction false} RunNumbered(es: seq<Event>)
    ensures Numbered(Run(es).received)
  {
    if es != [] {
      hide Step;
      RunNumbered(es[..|es| - 1]);
      StepReceived(Run(es[..|es| - 1]), es[|es| - 1]);
    }
  }

  // ----- the pending list and the drains

  /** Messages of one tree come in the order of their receipt. */
  ghost predicate InOrder(ms: seq<Msg>) {
    forall i, j :: 0 <= i < j < |ms| && ms[i].to.tree == ms[j].to.tree ==> ms[i].id <= ms[j].id
  }

  ghost predicate AllInOrder(ds: seq<seq<Msg>>) {
    forall l :: 0 <= l < |ds| ==> InOrder(ds[l])
  }

  ghost predicate KeepsOrder(s: State) {
    InOrder(s.pending) && AllInOrder(s.drains)
  }

  /** A drained message finds that its tree is gone. */
  ghost predicate PutsBack(s: State, e: Event) {
    e.Drain? && Possible(s, e) && !Available(s.storage, s.drains[e.list][0].to.tree)
  }

  /** It is put back behind a message of its tree that was received after it. */
  ghost predicate PutsBackLate(s: State, e: Event) {
    PutsBack(s, e) && !NewestOf(s.pending, s.drains[e.list][0])
  }

  ghost predicate NewestOf(ms: seq<Msg>, m: Msg) {
    forall i :: 0 <= i < |ms| && ms[i].to.tree == m.to.tree ==> ms[i].id <= m.id
  }

  lemma {:induction false} AppendInOrder(ms: seq<Msg>, m: Msg)
    requires InOrder(ms)
    ensures InOrder(ms + [m]) <==> NewestOf(ms, m)
  {
    if InOrder(ms + [m]) {
      forall i | 0 <= i < |ms| && ms[i].to.tree == m.to.tree ensures ms[i].id <= m.id {
        assert (ms + [m])[i] == ms[i] && (ms + [m])[|ms|] == m;
      }
    }
  }

  lemma {:induction false} FilterInOrder(ms: seq<Msg>, tree: nat)
    requires InOrder(ms)
    ensures InOrder(Matching(ms, tree)) && InOrder(NotMatching(ms, tree))
  {
    if ms != [] {
      var n := |ms| - 1;
      FilterInOrder(ms[..n], tree);
      FilterWithin(ms[..n], tree);
      assert NewestOf(ms[..n], ms[n]);
      hide Matching, NotMatching;
      FilterLast(ms, tree);
      AppendInOrder(Matching(ms[..n], tree), ms[n]);
      AppendInOrder(NotMatching(ms[..n], tree), ms[n]);
      NewestWithin(ms[..n], Matching(ms[..n], tree), ms[n]);
      NewestWithin(ms[..n], NotMatching(ms[..n], tree), ms[n]);
    }
  }

  lemma {:induction false} FilterLast(ms: seq<Msg>, tree: nat)
    requires ms != []
    ensures var n := |ms| - 1;
            if ms[n].to.tree == tree
            then
              && Matching(ms, tree) == Matching(ms[..n], tree) + [ms[n]]
              && NotMatching(ms, tree) == NotMatching(ms[..n], tree)
            else
              && Matching(ms, tree) == Matching(ms[..n], tree)
              && NotMatching(ms, tree) == NotMatching(ms[..n], tree) + [ms[n]]
  {
  }

  lemma {:induction false} FilterWithin(ms: seq<Msg>, tree: nat)
    ensures forall m :: m in Matching(ms, tree) || m in NotMatching(ms, tree) ==> m in ms
    ensures forall m :: m in Matching(ms, tree) ==> m.to.tree == tree
  {
    if ms != [] {
      var n := |ms| - 1;
      FilterWithin(ms[..n], tree);
      FilterLast(ms, tree);
      assert forall m :: m in ms[..n] ==> m in ms;
      hide Matching, NotMatching;
    }
  }

  lemma {:induction false} NewestWithin(ms: seq<Msg>, part: seq<Msg>, m: Msg)
    requires NewestOf(ms, m) && forall x :: x in part ==> x in ms
    ensures NewestOf(part, m)
  {
    forall i | 0 <= i < |part| && part[i].to.tree == m.to.tree ensures part[i].id <= m.id {
      assert part[i] in ms;
    }
  }

  /** What a transmission does to the pending list: the message waits there if its tree is not available. */
  lemma {:induction false} TransmitPending(s: State, m: Msg, o: Outcome)
    ensures Transmit(s, m, o).drains == s.drains
    ensures Transmit(s, m, o).pending == if Available(s.storage, m.to.tree) then s.pending else s.pending + [m]
  {
  }

  lemma {:induction false} RegisterTreeOrder(s: State, t: Tree)
    requires KeepsOrder(s)
    ensures KeepsOrder(RegisterTree(s, t))
  {
    FilterInOrder(s.pending, t.id);
    hide Matching, NotMatching, InOrder;
  }

  lemma {:induction false} DeleteAllPlaces(s: State, toks: seq<Token>)
    ensures DeleteAll(s, toks).pending == s.pending && DeleteAll(s, toks).drains == s.drains
    decreases toks
  {
    if toks != [] {
      DeleteAllPlaces(NodeDelete(s, toks[0]), toks[1..]);
    }
  }

  lemma {:induction false} PendingReceived(s: State, i: nat)
    requires Conserved(s) && i < |s.pending|
    ensures s.pending[i] in s.received
  {
    hide Held, Settled;
    assert s.pending[i] in multiset(s.pending);
  }

  lemma {:induction false} ReceiveOrder(s: State, m: Msg, o: Outcome)
    requires Conserved(s) && Numbered(s.received) && KeepsOrder(s) && m.id == |s.received|
    ensures KeepsOrder(Transmit(s.(received := s.received + multiset{m}), m, o))
  {
    var s1 := s.(received := s.received + multiset{m});
    TransmitPending(s1, m, o);
    AppendInOrder(s.pending, m);
    forall i | 0 <= i < |s.pending| ensures s.pending[i].id <= m.id {
      PendingReceived(s, i);
    }
    hide Transmit, Conserved, InOrder;
  }

  lemma {:induction false} DrainOrder(s: State, l: nat, o: Outcome)
    requires KeepsOrder(s) && Possible(s, Drain(l, o))
    ensures KeepsOrder(Step(s, Drain(l, o))) <==> !PutsBackLate(s, Drain(l, o))
  {
    var m, s1 := s.drains[l][0], s.(drains := s.drains[l := s.drains[l][1..]]);
    TransmitPending(s1, m, o);
    hide Transmit;
    assert InOrder(s.drains[l][1..]) by {
      var d := s.drains[l];
      assert forall i :: 0 <= i < |d| - 1 ==> d[1..][i] == d[i + 1];
    }
    AppendInOrder(s.pending, m);
    hide InOrder, NewestOf;
    assert AllInOrder(s1.drains);
  }

  /** A step keeps the order if and only if it does not put a message back late. */
  lemma {:induction false} StepOrder(s: State, e: Event)
    requires Conserved(s) && Numbered(s.received) && KeepsOrder(s)
    ensures KeepsOrder(Step(s, e)) <==> !PutsBackLate(s, e)
  {
    hide InOrder, AllInOrder, NewestOf, Transmit, RegisterTree, DeleteAll, Conserved;
    if Possible(s, e) {
      match e
      case Receive(m, o) => ReceiveOrder(s, m, o);
      case Drain(l, o) => DrainOrder(s, l, o);
      case NewInstance(t, tok) =>
        RegisterTreeOrder(s.(reg := List(s.reg, tok), creating := s.creating[s.reg.nextInst := tok]), t);
      case Response(t) => RegisterTreeOrder(s, t);
      case LocalTree(t) => RegisterTreeOrder(s, t);
      case Shutdown(order) => DeleteAllPlaces(s, order);
      case _ =>
    }
  }

  lemma {:induction false} RunNext(es: seq<Event>, k: nat)
    requires k < |es|
    ensures Run(es[..k + 1]) == Step(Run(es[..k]), es[k])
  {
    assert es[..k + 1][..k] == es[..k];
  }

  ghost predicate OrderKept(es: seq<Event>, n: nat)
    requires n <= |es|
  {
    forall k: nat :: k <= n ==> KeepsOrder(Run(es[..k]))
  }

  ghost predicate NoneLate(es: seq<Event>, n: nat)
    requires n <= |es|
  {
    forall k: nat :: k < n ==> !PutsBackLate(Run(es[..k]), es[k])
  }

  /**
   In every run the pending list and all drains keep the order of receipt all along
   if and only if no message is put back behind a later one of its tree.
   */
  lemma {:induction false} OrderKeptIff(es: seq<Event>, n: nat)
    requires n <= |es|
    ensures OrderKept(es, n) <==> NoneLate(es, n)
  {
    if n == 0 {
      assert es[..0] == [];
    } else {
      OrderKeptIff(es, n - 1);
      OneMore(es, n - 1);
      hide OrderKept, NoneLate, Run, KeepsOrder, PutsBackLate;
      if OrderKept(es, n - 1) {
        LastOrder(es, n - 1);
      }
    }
  }

  lemma {:induction false} OneMore(es: seq<Event>, k: nat)
    requires k < |es|
    ensures OrderKept(es, k + 1) <==> OrderKept(es, k) && KeepsOrder(Run(es[..k + 1]))
    ensures NoneLate(es, k + 1) <==> NoneLate(es, k) && !PutsBackLate(Run(es[..k]), es[k])
  {
    hide Run, KeepsOrder, PutsBackLate;
  }

  lemma {:induction false} LastOrder(es: seq<Event>, k: nat)
    requires k < |es| && OrderKept(es, k)
    ensures KeepsOrder(Run(es[..k + 1])) <==> !PutsBackLate(Run(es[..k]), es[k])
  {
    var s := Run(es[..k]);
    assert KeepsOrder(s);
    RunNext(es, k);
    RunInv(es[..k]);
    RunNumbered(es[..k]);
    assert Conserved(s);
    hide Run, OrderKept, KeepsOrder, PutsBackLate, Conserved, Step;
    StepOrder(s, es[k]);
  }

  // ----- a drain that ends before its tree expires puts nothing back

  ghost predicate OneTree(ms: seq<Msg>) {
    forall i :: 0 <= i < |ms| ==> ms[i].to.tree == ms[0].to.tree
  }

  /** Every drain is of one tree, and its tree is there as long as it has messages. */
  ghost predicate DrainsReady(s: State) {
    forall l :: 0 <= l < |s.drains| && s.drains[l] != [] ==>
      OneTree(s.drains[l]) && Available(s.storage, s.drains[l][0].to.tree)
  }

  /** A tree is removed while messages for it are still being drained. */
  ghost predicate ExpiresEarly(s: State, e: Event) {
    e.Expired? && Possible(s, e) &&
    exists l :: 0 <= l < |s.drains| && s.drains[l] != [] && s.drains[l][0].to.tree == e.id
  }

  lemma {:induction false} DeleteAllTrees(s: State, toks: seq<Token>)
    ensures DeleteAll(s, toks).storage.trees == s.storage.trees
    decreases toks
  {
    if toks != [] {
      DeleteAllTrees(NodeDelete(s, toks[0]), toks[1..]);
    }
  }

  lemma {:induction false} TransmitTrees(s: State, m: Msg, o: Outcome, id: nat)
    requires Available(s.storage, id)
    ensures Available(Transmit(s, m, o).storage, id)
  {
  }

  /** A tree that is there stays until it expires. */
  lemma {:induction false} AvailableStays(s: State, e: Event, id: nat)
    requires Available(s.storage, id) && !(e.Expired? && e.id == id)
    ensures Available(Step(s, e).storage, id)
  {
    if Possible(s, e) {
      match e
      case Receive(m, o) => TransmitTrees(s.(received := s.received + multiset{m}), m, o, id); hide Transmit;
      case Drain(l, o) =>
        TransmitTrees(s.(drains := s.drains[l := s.drains[l][1..]]), s.drains[l][0], o, id);
        hide Transmit;
      case Shutdown(order) => DeleteAllTrees(s, order);
      case _ =>
    }
  }

  lemma {:induction false} RegisterTreeReady(s: State, t: Tree)
    requires DrainsReady(s)
    ensures DrainsReady(RegisterTree(s, t))
  {
    FilterWithin(s.pending, t.id);
    hide Matching, NotMatching;
  }

  lemma {:induction false} SameDrainsReady(s: State, s': State)
    requires DrainsReady(s) && s'.drains == s.drains
    requires forall id :: Available(s.storage, id) && Holds(s, id) ==> Available(s'.storage, id)
    ensures DrainsReady(s')
  {
    forall l | 0 <= l < |s.drains| && s.drains[l] != [] ensures Available(s'.storage, s.drains[l][0].to.tree) {
      assert Holds(s, s.drains[l][0].to.tree);
    }
  }

  ghost predicate Holds(s: State, id: nat) {
    exists l :: 0 <= l < |s.drains| && s.drains[l] != [] && s.drains[l][0].to.tree == id
  }

  lemma {:induction false} DrainReady(s: State, l: nat, o: Outcome)
    requires DrainsReady(s) && Possible(s, Drain(l, o))
    ensures DrainsReady(Step(s, Drain(l, o)))
  {
    var m, s1 := s.drains[l][0], s.(drains := s.drains[l := s.drains[l][1..]]);
    var s' := Step(s, Drain(l, o));
    assert s' == Transmit(s1, m, o);
    TransmitPending(s1, m, o);
    forall k | 0 <= k < |s'.drains| && s'.drains[k] != []
      ensures OneTree(s'.drains[k]) && Available(s'.storage, s'.drains[k][0].to.tree)
    {
      assert OneTree(s.drains[k]) && Available(s.storage, s.drains[k][0].to.tree);
      TransmitTrees(s1, m, o, s.drains[k][0].to.tree);
      if k == l {
        assert s'.drains[k] == s.drains[l][1..];
      }
    }
  }

  lemma {:induction false} StepReady(s: State, e: Event)
    requires DrainsReady(s) && !ExpiresEarly(s, e)
    ensures DrainsReady(Step(s, e))
  {
    if Possible(s, e) {
      forall id | Available(s.storage, id) && Holds(s, id) ensures Available(Step(s, e).storage, id) {
        AvailableStays(s, e, id);
      }
      match e
      case Drain(l, o) => DrainReady(s, l, o);
      case NewInstance(t, tok) =>
        var s1 := s.(reg := List(s.reg, tok), creating := s.creating[s.reg.nextInst := tok]);
        SameDrainsReady(s, s1);
        RegisterTreeReady(s1, t);
      case Response(t) => RegisterTreeReady(s, t);
      case LocalTree(t) => RegisterTreeReady(s, t);
      case Receive(m, o) =>
        TransmitPending(s.(received := s.received + multiset{m}), m, o);
        hide Transmit;
        SameDrainsReady(s, Step(s, e));
      case Shutdown(order) => DeleteAllPlaces(s, order); hide DeleteAll; SameDrainsReady(s, Step(s, e));
      case _ => SameDrainsReady(s, Step(s, e));
    }
  }

  ghost predicate NoneEarly(es: seq<Event>, n: nat)
    requires n <= |es|
  {
    forall k: nat :: k < n ==> !ExpiresEarly(Run(es[..k]), es[k])
  }

  lemma {:induction false} RunReady(es: seq<Event>, n: nat)
    requires n <= |es| && NoneEarly(es, n)
    ensures DrainsReady(Run(es[..n]))
  {
    if n == 0 {
      assert es[..0] == [];
    } else {
      hide Step, DrainsReady, ExpiresEarly;
      RunReady(es, n - 1);
      RunNext(es, n - 1);
      StepReady(Run(es[..n - 1]), es[n - 1]);
    }
  }

  /** If no tree expires while its messages are drained, the order of receipt is kept all along. */
  lemma {:induction false} OrderKeptUnlessExpired(es: seq<Event>)
    requires NoneEarly(es, |es|)
    ensures OrderKept(es, |es|)
  {
    forall k: nat | k < |es| ensures !PutsBackLate(Run(es[..k]), es[k]) {
      RunReady(es, k);
      hide Run;
    }
    OrderKeptIff(es, |es|);
  }

  // ----- a run in which a later message is drained first

  const FIRST: Msg := Msg(0, Token(7, 1, 5))
  const SECOND: Msg := Msg(1, Token(7, 1, 5))
  const LOCAL: Token := Token(7, 1, 9)
  const SEVEN: Tree := Tree(7, {1})
  const FINE: Outcome := Outcome(true, true, ProtoOk)

  /** The first message waits, a local protocol brings the tree, and its drain has not begun. */
  lemma {:induction false} FirstIsDrained()
    ensures var s := Step(Step(Begin(), Receive(FIRST, FINE)), NewInstance(SEVEN, LOCAL));
            && s.storage == Storage(map[7 := Some(SEVEN)], {}, false)
            && s.reg == Registry(map[LOCAL := 0], map[], {}, {}, {}, 1)
            && s.pending == [] && s.drains == [[FIRST]] && s.stage == Idle && s.creating == map[0 := LOCAL]
            && s.received == multiset{FIRST} && s.log == [Requested(7)]
  {
    var s1 := Step(Begin(), Receive(FIRST, FINE));
    assert s1 == Begin().(storage := Storage(map[7 := None], {}, false), pending := [FIRST],
                          received := multiset{FIRST}, log := [Requested(7)]);
    assert [FIRST][..0] == [];
    assert Matching([FIRST], 7) == [FIRST] && NotMatching([FIRST], 7) == [];
  }

  lemma {:induction false} TreeExpires(s: State)
    requires s.storage == Storage(map[7 := Some(SEVEN)], {}, false)
    requires s.reg == Registry(map[LOCAL := 0], map[], {}, {}, {}, 1)
    ensures var s' := Step(Step(s, Done(LOCAL)), Expired(7));
            && s'.storage == Storage(map[], {}, false)
            && s'.pending == s.pending && s'.drains == s.drains && s'.stage == s.stage
            && s'.creating == s.creating && s'.received == s.received
  {
    var s1 := Step(s, Done(LOCAL));
    assert s1.reg.instances == map[];
    assert s1.storage == Storage(map[7 := Some(SEVEN)], {7}, false);
  }

  lemma {:induction false} PutBackBehind(s: State)
    requires s.storage == Storage(map[], {}, false) && s.received == multiset{FIRST}
    requires s.pending == [] && s.drains == [[FIRST]] && s.stage == Idle && s.creating == map[0 := LOCAL]
    ensures Step(Step(s, Receive(SECOND, FINE)), Drain(0, FINE)).pending == [SECOND, FIRST]
  {
    assert Possible(s, Receive(SECOND, FINE));
    var s1 := Step(s, Receive(SECOND, FINE));
    assert s1.pending == [SECOND] && s1.drains == [[FIRST]] && s1.stage == Idle;
    assert 7 in s1.storage.trees && s1.storage.trees[7].None?;
  }

  /** The tree of the first message expires before it is drained; it is put back behind the second. */
  lemma {:induction false} LaterFirst(es: seq<Event>)
    requires es == [Receive(FIRST, FINE), NewInstance(SEVEN, LOCAL), Done(LOCAL), Expired(7), Receive(SECOND, FINE),
                    Drain(0, FINE)]
    ensures Run(es).pending == [SECOND, FIRST] && !KeepsOrder(Run(es))
  {
    hide Step;
    RunNext(es, 0);
    RunNext(es, 1);
    RunNext(es, 2);
    RunNext(es, 3);
    RunNext(es, 4);
    RunNext(es, 5);
    assert es[..0] == [] && es[..6] == es;
    hide Run, Begin;
    FirstIsDrained();
    TreeExpires(Run(es[..2]));
    PutBackBehind(Run(es[..4]));
    var ms := Run(es).pending;
    assert ms[0].to.tree == ms[1].to.tree && ms[0].id > ms[1].id;
  }

  // ----- messages on their way to an instance

  /** `w` was received and is not settled: it is pending, drained or in transmission. */
  ghost predicate Waiting(s: State, w: Msg) {
    s.received[w] > Settled(s.log)[w]
  }

  /** Messages of one token were queued in the order of receipt; none that waits is older than one that was queued. */
  ghost predicate NoneOvertaken(s: State) {
    && (forall i, j ::
         0 <= i < j < |s.log| && s.log[i].Queued? && s.log[j].Queued? && s.log[i].msg.to == s.log[j].msg.to ==>
         s.log[i].msg.id <= s.log[j].msg.id)
    && (forall i, w :: 0 <= i < |s.log| && s.log[i].Queued? && Waiting(s, w) && s.log[i].msg.to == w.to ==>
         s.log[i].msg.id <= w.id)
  }

  /** A message is handed over while an older one of its token is still pending or drained. */
  ghost predicate Overtakes(s: State, e: Event) {
    && e.Hand? && Possible(s, e) && s.stage.inst !in s.reg.closing
    && exists w :: w in multiset(s.pending) + Held(s.drains) && w.to == s.stage.msg.to && w.id < s.stage.msg.id
  }

  /** Nothing is queued by what is added to the log. */
  ghost predicate GrowsQuietly(log: seq<Entry>, log': seq<Entry>) {
    log <= log' && forall i :: |log| <= i < |log'| ==> !log'[i].Queued?
  }

  lemma {:induction false} QuietTwice(a: seq<Entry>, b: seq<Entry>, c: seq<Entry>)
    requires GrowsQuietly(a, b) && GrowsQuietly(b, c)
    ensures GrowsQuietly(a, c)
  {
  }

  lemma {:induction false} SettledGrows(log: seq<Entry>, log': seq<Entry>)
    requires log <= log'
    ensures Settled(log) <= Settled(log')
    decreases |log'|
  {
    if log == log' {
    } else {
      SettledGrows(log, log'[..|log'| - 1]);
    }
  }

  lemma {:induction false} DeleteAllQuiet(s: State, toks: seq<Token>)
    ensures GrowsQuietly(s.log, DeleteAll(s, toks).log)
    decreases toks
  {
    if toks != [] {
      DeleteAllQuiet(NodeDelete(s, toks[0]), toks[1..]);
      assert GrowsQuietly(s.log, NodeDelete(s, toks[0]).log);
      hide NodeDelete;
      QuietTwice(s.log, NodeDelete(s, toks[0]).log, DeleteAll(s, toks).log);
    }
  }

  lemma {:induction false} CreateQuiet(s: State, m: Msg, proto: Proto)
    ensures GrowsQuietly(s.log, Create(s, m, proto).log)
  {
  }

  lemma {:induction false} TransmitQuiet(s: State, m: Msg, o: Outcome)
    ensures GrowsQuietly(s.log, Transmit(s, m, o).log)
  {
    CreateQuiet(s.(storage := CancelDeletion(s.storage, m.to.tree)), m, o.proto);
    hide Create;
  }

  /** Only Hand queues a message. */
  lemma {:induction false} StepQuiet(s: State, e: Event)
    requires !e.Hand?
    ensures GrowsQuietly(s.log, Step(s, e).log)
  {
    if Possible(s, e) {
      match e
      case Receive(m, o) => TransmitQuiet(s.(received := s.received + multiset{m}), m, o); hide Transmit;
      case Drain(l, o) =>
        TransmitQuiet(s.(drains := s.drains[l := s.drains[l][1..]]), s.drains[l][0], o);
        hide Transmit;
      case Shutdown(order) => DeleteAllQuiet(s, order);
      case _ =>
    }
  }

  lemma {:induction false} QueuedReceived(s: State, i: nat)
    requires Conserved(s) && i < |s.log| && s.log[i].Queued?
    ensures s.log[i].msg in s.received
  {
    SettledHas(s.log, i);
    hide Held, Settled;
  }

  lemma {:induction false} SettledHas(log: seq<Entry>, i: nat)
    requires i < |log| && log[i].Queued?
    ensures log[i].msg in Settled(log)
  {
    if i < |log| - 1 {
      SettledHas(log[..|log| - 1], i);
    }
  }

  /** A message that was just received is no older than one that was queued. */
  ghost predicate Youngest(log: seq<Entry>, m: Msg) {
    forall i :: 0 <= i < |log| && log[i].Queued? ==> log[i].msg.id <= m.id
  }

  lemma {:induction false} StillNoneOvertaken(s: State, s': State)
    requires NoneOvertaken(s) && GrowsQuietly(s.log, s'.log) && Settled(s.log) <= Settled(s'.log)
    requires s'.received == s.received || exists m :: s'.received == s.received + multiset{m} && Youngest(s.log, m)
    ensures NoneOvertaken(s')
  {
    hide Settled;
    forall i, w | 0 <= i < |s'.log| && s'.log[i].Queued? && Waiting(s', w) && s'.log[i].msg.to == w.to
      ensures s'.log[i].msg.id <= w.id
    {
      assert s'.log[i] == s.log[i];
      if !Waiting(s, w) {
        var m :| s'.received == s.received + multiset{m} && Youngest(s.log, m);
        assert w == m;
      }
    }
  }

  lemma {:induction false} QuietOvertakes(s: State, e: Event)
    requires Conserved(s) && Numbered(s.received) && NoneOvertaken(s) && !e.Hand?
    ensures NoneOvertaken(Step(s, e))
  {
    var s' := Step(s, e);
    StepQuiet(s, e);
    StepReceived(s, e);
    SettledGrows(s.log, s'.log);
    if e.Receive? && Possible(s, e) {
      assert e.msg.id == |s.received|;
      hide Step, Possible, Settled, NoneOvertaken, GrowsQuietly;
      forall i | 0 <= i < |s.log| && s.log[i].Queued? ensures s.log[i].msg.id <= e.msg.id {
        QueuedReceived(s, i);
      }
      assert s'.received == s.received + multiset{e.msg} && Youngest(s.log, e.msg);
      StillNoneOvertaken(s, s');
    } else {
      hide Step, Possible, Settled, NoneOvertaken, GrowsQuietly, Conserved;
      StillNoneOvertaken(s, s');
    }
  }

  lemma {:induction false} WaitingElsewhere(s: State, w: Msg)
    requires Conserved(s) && s.stage.Chosen?
    ensures s.received[w] - Settled(s.log)[w] ==
            (multiset(s.pending) + Held(s.drains))[w] + if w == s.stage.msg then 1 else 0
  {
    hide Held, Settled;
    assert Everywhere(s)[w] == (multiset(s.pending) + Held(s.drains))[w] + InStage(s.stage)[w] + Settled(s.log)[w];
  }

  lemma {:induction false} HandQueues(s: State)
    requires Possible(s, Hand)
    ensures var s', m, i := Step(s, Hand), s.stage.msg, s.stage.inst;
            && s'.received == s.received
            && s'.log == s.log + [if i in s.reg.closing then Dropped(m) else Queued(m, i)]
            && Settled(s'.log) == Settled(s.log) + multiset{m}
  {
    SettledNote(s.log,
                if s.stage.inst in s.reg.closing then Dropped(s.stage.msg) else Queued(s.stage.msg, s.stage.inst));
  }

  /** The message in transmission is queued: nothing was before it that should come after it. */
  lemma {:induction false} QueuedFairly(s: State, s': State)
    requires NoneOvertaken(s) && s.stage.Chosen? && Waiting(s, s.stage.msg)
    requires s'.log == s.log + [Queued(s.stage.msg, s.stage.inst)]
    requires forall w :: Waiting(s', w) ==> Waiting(s, w) && (w.to == s.stage.msg.to ==> s.stage.msg.id <= w.id)
    ensures NoneOvertaken(s')
  {
    hide Waiting;
    var n, log := |s.log|, s'.log;
    assert forall i :: 0 <= i < n ==> log[i] == s.log[i];
    forall i, w | 0 <= i < |log| && log[i].Queued? && Waiting(s', w) && log[i].msg.to == w.to
      ensures log[i].msg.id <= w.id
    {
      if i < n {
        assert s.log[i].Queued?;
      }
    }
    forall i, j | 0 <= i < j < |log| && log[i].Queued? && log[j].Queued? && log[i].msg.to == log[j].msg.to
      ensures log[i].msg.id <= log[j].msg.id
    {
      assert s.log[i].Queued?;
      if j < n {
        assert s.log[j].Queued?;
      }
    }
  }

  lemma {:induction false} HandFair(s: State)
    requires Conserved(s) && NoneOvertaken(s) && Possible(s, Hand) && s.stage.inst !in s.reg.closing
    requires !Overtakes(s, Hand)
    ensures NoneOvertaken(Step(s, Hand))
  {
    var s', m := Step(s, Hand), s.stage.msg;
    HandQueues(s);
    WaitingElsewhere(s, m);
    hide Step, Settled, Conserved, Held, NoneOvertaken;
    forall w | Waiting(s', w) ensures Waiting(s, w) && (w.to == m.to ==> m.id <= w.id) {
      WaitingElsewhere(s, w);
      assert w in multiset(s.pending) + Held(s.drains);
    }
    QueuedFairly(s, s');
  }

  lemma {:induction false} OvertakenBy(s: State, i: nat, w: Msg)
    requires i < |s.log| && s.log[i].Queued? && Waiting(s, w) && s.log[i].msg.to == w.to && s.log[i].msg.id > w.id
    ensures !NoneOvertaken(s)
  {
    hide Waiting;
  }

  lemma {:induction false} HandUnfair(s: State)
    requires Conserved(s) && Overtakes(s, Hand)
    ensures !NoneOvertaken(Step(s, Hand))
  {
    hide Step, Settled, Conserved, Held, NoneOvertaken;
    var s', m := Step(s, Hand), s.stage.msg;
    HandQueues(s);
    var w :| w in multiset(s.pending) + Held(s.drains) && w.to == m.to && w.id < m.id;
    WaitingElsewhere(s, w);
    OvertakenBy(s', |s.log|, w);
  }

  /** What Hand does to the messages of a token. */
  lemma {:induction false} HandOvertakes(s: State)
    requires Conserved(s) && NoneOvertaken(s) && Possible(s, Hand)
    ensures NoneOvertaken(Step(s, Hand)) <==> !Overtakes(s, Hand)
  {
    hide Step, Settled, Conserved, NoneOvertaken;
    if s.stage.inst in s.reg.closing {
      HandQueues(s);
      StillNoneOvertaken(s, Step(s, Hand));
    } else if Overtakes(s, Hand) {
      HandUnfair(s);
    } else {
      hide Overtakes;
      HandFair(s);
    }
  }

  ghost predicate FairSoFar(es: seq<Event>, n: nat)
    requires n <= |es|
  {
    forall k: nat :: k <= n ==> NoneOvertaken(Run(es[..k]))
  }

  ghost predicate NoOvertaking(es: seq<Event>, n: nat)
    requires n <= |es|
  {
    forall k: nat :: k < n ==> !Overtakes(Run(es[..k]), es[k])
  }

  lemma {:induction false} OneMoreFair(es: seq<Event>, k: nat)
    requires k < |es|
    ensures FairSoFar(es, k + 1) <==> FairSoFar(es, k) && NoneOvertaken(Run(es[..k + 1]))
    ensures NoOvertaking(es, k + 1) <==> NoOvertaking(es, k) && !Overtakes(Run(es[..k]), es[k])
  {
    hide Run, NoneOvertaken, Overtakes;
  }

  lemma {:induction false} LastFair(es: seq<Event>, k: nat)
    requires k < |es| && FairSoFar(es, k)
    ensures NoneOvertaken(Run(es[..k + 1])) <==> !Overtakes(Run(es[..k]), es[k])
  {
    var s, e := Run(es[..k]), es[k];
    assert NoneOvertaken(s);
    RunNext(es, k);
    RunInv(es[..k]);
    RunNumbered(es[..k]);
    assert Conserved(s);
    hide Run, FairSoFar, NoneOvertaken, Conserved;
    if !e.Hand? {
      hide Step;
      QuietOvertakes(s, e);
    } else if Possible(s, e) {
      hide Step, Overtakes;
      HandOvertakes(s);
    }
  }

  /**
   In every run the messages of each token reach their instance in the order of
   receipt, and none that still waits is overtaken, if and only if no message is handed
   over while an older one of its token is pending or drained.
   */
  lemma {:induction false} FairIff(es: seq<Event>, n: nat)
    requires n <= |es|
    ensures FairSoFar(es, n) <==> NoOvertaking(es, n)
  {
    if n == 0 {
      assert es[..0] == [];
    } else {
      FairIff(es, n - 1);
      OneMoreFair(es, n - 1);
      hide FairSoFar, NoOvertaking, Run, NoneOvertaken, Overtakes;
      if FairSoFar(es, n - 1) {
        LastFair(es, n - 1);
      }
    }
  }

  lemma {:induction false} SecondIsChosen(s: State)
    requires s.storage == Storage(map[7 := Some(SEVEN)], {}, false)
    requires s.reg == Registry(map[LOCAL := 0], map[], {}, {}, {}, 1)
    requires s.drains == [[FIRST]] && s.stage == Idle && s.creating == map[0 := LOCAL] && s.received == multiset{FIRST}
    ensures var s' := Step(Step(s, Receive(SECOND, FINE)), RegisterPI);
            && s'.stage == Chosen(SECOND, 1) && s'.drains == [[FIRST]] && s'.log == s.log && s'.storage == s.storage
            && s'.reg == Registry(map[LOCAL := 0, SECOND.to := 1], map[SECOND.to := 1], {1}, {}, {}, 2)
  {
    assert Possible(s, Receive(SECOND, FINE));
    var s1 := Step(s, Receive(SECOND, FINE));
    assert s1.stage == Created(SECOND, 1) && s1.reg.instances == map[LOCAL := 0, SECOND.to := 1] && s1.reg.bound == {};
  }

  lemma {:induction false} FirstFollows(s: State)
    requires s.stage == Chosen(SECOND, 1) && s.drains == [[FIRST]]
    requires s.storage == Storage(map[7 := Some(SEVEN)], {}, false)
    requires s.reg == Registry(map[LOCAL := 0, SECOND.to := 1], map[SECOND.to := 1], {1}, {}, {}, 2)
    ensures Step(Step(Step(s, Hand), Drain(0, FINE)), Hand).log == s.log + [Queued(SECOND, 1), Queued(FIRST, 1)]
  {
    var s1 := Step(s, Hand);
    assert s1.log == s.log + [Queued(SECOND, 1)] && s1.stage == Idle && s1.drains == [[FIRST]];
    var s2 := Step(s1, Drain(0, FINE));
    assert s2.stage == Chosen(FIRST, 1) && s2.log == s1.log && s2.reg == s.reg;
  }

  /** A message that comes in when its tree is there overtakes one that is still drained: it is queued first. */
  lemma {:induction false} SecondHandedFirst(es: seq<Event>)
    requires es == [Receive(FIRST, FINE), NewInstance(SEVEN, LOCAL), Receive(SECOND, FINE), RegisterPI, Hand,
                    Drain(0, FINE), Hand]
    ensures Overtakes(Run(es[..4]), Hand)
    ensures Run(es).log == [Requested(7), Queued(SECOND, 1), Queued(FIRST, 1)]
  {
    hide Step;
    RunNext(es, 0);
    RunNext(es, 1);
    RunNext(es, 2);
    RunNext(es, 3);
    RunNext(es, 4);
    RunNext(es, 5);
    RunNext(es, 6);
    assert es[..0] == [] && es[..7] == es;
    hide Run, Begin;
    FirstIsDrained();
    SecondIsChosen(Run(es[..2]));
    FirstFollows(Run(es[..4]));
    assert [[FIRST]][..0] == [];
    assert FIRST in Held([[FIRST]]);
  }
}
