/**
 The parallel request: workers take nodes from a channel, ask them, and report to
 the caller through a channel of errors and a channel with room for one decoded
 answer. The first answer that decodes closes `done`. The option to return on the
 first error is off.
 */
module FanOut {

  /** Where a worker is. Asking, Locking, Locked and Announced hold a node. */
  datatype Worker =
    | Idle
    | Fetching
    | Asking(node: nat)
    | Locking(node: nat)
    | Locked(node: nat)
    | Announced(node: nat)
    | Stopped

  datatype Caller = Collecting | GotNode(node: nat) | GotError(node: nat)

  /**
   Nodes are positions in the offered list; an error is named by its node.
   - lock: the worker that holds the decoding lock
   - failed, decoded, discarded: nodes by outcome, in order
   - errs: the errors the caller has taken
   - closedTwice: whether `done` was closed more than once
   */
  datatype State = State(offered: seq<nat>, nodesChan: seq<nat>, errChan: seq<nat>, decodedChan: seq<nat>,
                         done: bool, lock: int, workers: seq<Worker>, caller: Caller,
                         contacted: seq<nat>, failed: seq<nat>, decoded: seq<nat>, discarded: seq<nat>,
                         errs: seq<nat>, closedTwice: bool)

  const NOBODY: int := -1

  function Begin(offered: seq<nat>, parallel: nat): State {
    State(offered, offered, [], [], false, NOBODY, seq(parallel, _ => Idle), Collecting, [], [], [], [], [], false)
  }

  datatype Event =
    | Check(w: nat)
    | Fetch(w: nat)
    | Answer(w: nat, ok: bool)
    | Acquire(w: nat)
    | Decode(w: nat, ok: bool)
    | CloseDone(w: nat)
    | TakeDecoded
    | TakeError

  predicate Room(s: State) {
    |s.errChan| < |s.offered|
  }

  /** A send on a full channel would wait: the event is then not possible. */
  predicate Possible(s: State, e: Event) {
    match e
    case Check(w) => w < |s.workers| && s.workers[w].Idle?
    case Fetch(w) => w < |s.workers| && s.workers[w].Fetching?
    case Answer(w, ok) => w < |s.workers| && s.workers[w].Asking? && (ok || Room(s))
    case Acquire(w) => w < |s.workers| && s.workers[w].Locking? && s.lock == NOBODY
    case Decode(w, ok) =>
      w < |s.workers| && s.workers[w].Locked? && (s.done || if ok then |s.decodedChan| < 1 else Room(s))
    case CloseDone(w) => w < |s.workers| && s.workers[w].Announced?
    case TakeDecoded => s.caller.Collecting? && s.decodedChan != []
    case TakeError => s.caller.Collecting? && s.errChan != []
  }

  function Put(s: State, w: nat, x: Worker): State
    requires w < |s.workers|
  {
    s.(workers := s.workers[w := x])
  }

  function Fail(s: State, n: nat): State {
    s.(errChan := s.errChan + [n], failed := s.failed + [n])
  }

  /** An event that is not possible changes nothing. */
  function Step(s: State, e: Event): State {
    if !Possible(s, e) then s else Do(s, e)
  }

  function Do(s: State, e: Event): State
    requires Possible(s, e)
  {
    match e
    case Check(w) => Put(s, w, if s.done then Stopped else Fetching)
    case Fetch(w) =>
      if s.nodesChan == [] then Put(s, w, Stopped)
      else Put(s.(nodesChan := s.nodesChan[1..], contacted := s.contacted + [s.nodesChan[0]]),
               w, Asking(s.nodesChan[0]))
    case Answer(w, ok) =>
      var n := s.workers[w].node;
      if ok then Put(s, w, Locking(n)) else Put(Fail(s, n), w, Idle)
    case Acquire(w) => Put(s.(lock := w), w, Locked(s.workers[w].node))
    case Decode(w, ok) =>
      var n := s.workers[w].node;
      if s.done then Put(s.(lock := NOBODY, discarded := s.discarded + [n]), w, Idle)
      else if ok then Put(s.(decodedChan := s.decodedChan + [n], decoded := s.decoded + [n]), w, Announced(n))
      else Put(Fail(s, n).(lock := NOBODY), w, Idle)
    case CloseDone(w) => Put(s.(done := true, closedTwice := s.closedTwice || s.done, lock := NOBODY), w, Idle)
    case TakeDecoded => s.(caller := GotNode(s.decodedChan[0]), decodedChan := s.decodedChan[1..])
    case TakeError =>
      var errs := s.errs + [s.errChan[0]];
      s.(errs := errs, errChan := s.errChan[1..],
         caller := if |errs| < |s.offered| then Collecting else GotError(errs[0]))
  }

  function After(start: State, es: seq<Event>): State {
    if es == [] then start else Step(After(start, es[..|es| - 1]), es[|es| - 1])
  }

  // ----- the invariant

  function InHand(x: Worker): multiset<nat> {
    if x.Asking? || x.Locking? || x.Locked? then multiset{x.node} else multiset{}
  }

  /** The nodes the workers hold and have not given an outcome yet. */
  function InHands(ws: seq<Worker>): multiset<nat> {
    if ws == [] then multiset{} else InHands(ws[..|ws| - 1]) + InHand(ws[|ws| - 1])
  }

  function Elsewhere(s: State): multiset<nat> {
    multiset(s.nodesChan) + multiset(s.failed) + multiset(s.decoded) + multiset(s.discarded)
  }

  /** Every offered node is waiting, in a worker's hands, or has one outcome. */
  ghost predicate Accounted(s: State) {
    multiset(s.offered) == InHands(s.workers) + Elsewhere(s)
  }

  ghost predicate Ordered(s: State) {
    && s.contacted + s.nodesChan == s.offered
    && s.errs + s.errChan == s.failed
  }

  /** The lock is held by the worker that decodes or announces, and by no other. */
  ghost predicate LockInv(s: State) {
    && NOBODY <= s.lock < |s.workers|
    && (forall w :: 0 <= w < |s.workers| && (s.workers[w].Locked? || s.workers[w].Announced?) ==> s.lock == w)
    && (s.lock >= 0 ==> s.workers[s.lock].Locked? || s.workers[s.lock].Announced?)
  }

  /** One answer at most is decoded, and `done` is closed after it. */
  ghost predicate DoneInv(s: State) {
    && !s.closedTwice
    && |s.decoded| <= 1
    && s.lock < |s.workers|
    && (s.done ==> |s.decoded| == 1 && (s.lock >= 0 ==> s.workers[s.lock].Locked?))
    && (!s.done ==> s.discarded == [])
    && (!s.done ==> (s.decoded != [] <==> s.lock >= 0 && s.workers[s.lock].Announced?))
  }

  /** A worker stops only when nothing is left to do for it. */
  ghost predicate StopInv(s: State) {
    forall w :: 0 <= w < |s.workers| && s.workers[w].Stopped? ==> s.done || s.nodesChan == []
  }

  ghost predicate CallerInv(s: State) {
    match s.caller
    case Collecting => s.decodedChan == s.decoded && |s.errs| < |s.offered|
    case GotNode(n) => s.decoded == [n] && s.decodedChan == []
    case GotError(n) => s.decodedChan == s.decoded && s.errs != [] && n == s.errs[0] && |s.errs| == |s.offered|
  }

  ghost predicate Inv(s: State) {
    Accounted(s) && Ordered(s) && LockInv(s) && DoneInv(s) && StopInv(s) && CallerInv(s)
  }

  lemma {:induction false} HandsUpdate(ws: seq<Worker>, w: nat, x: Worker)
    requires w < |ws|
    ensures InHands(ws[w := x]) + InHand(ws[w]) == InHands(ws) + InHand(x)
  {
    hide InHand;
    var n := |ws| - 1;
    if w == n {
      assert ws[w := x][..n] == ws[..n];
      var b, y := InHands(ws[..n]), InHand(ws[n]);
      assert (b + InHand(x)) + y == (b + y) + InHand(x);
    } else {
      HandsUpdate(ws[..n], w, x);
      assert ws[w := x][..n] == ws[..n][w := x] && ws[..n][w] == ws[w];
      var a, b, z := InHands(ws[..n][w := x]), InHands(ws[..n]), InHand(ws[n]);
      assert (a + z) + InHand(ws[w]) == (a + InHand(ws[w])) + z;
      assert (b + InHand(x)) + z == (b + z) + InHand(x);
    }
  }

  lemma {:induction false} NoHands(n: nat)
    ensures InHands(seq(n, _ => Idle)) == multiset{}
  {
    if n > 0 {
      NoHands(n - 1);
      assert seq(n, _ => Idle)[..n - 1] == seq(n - 1, _ => Idle);
    }
  }

  lemma {:induction false} BeginInv(offered: seq<nat>, parallel: nat)
    requires offered != []
    ensures Inv(Begin(offered, parallel))
  {
    NoHands(parallel);
    hide InHands;
  }

  // ----- every step keeps it

  lemma {:induction false} LaidDown(s: State, n: nat)
    ensures Elsewhere(s.(failed := s.failed + [n])) == Elsewhere(s) + multiset{n}
    ensures Elsewhere(s.(decoded := s.decoded + [n])) == Elsewhere(s) + multiset{n}
    ensures Elsewhere(s.(discarded := s.discarded + [n])) == Elsewhere(s) + multiset{n}
  {
  }

  lemma {:induction false} PickedUp(s: State)
    requires s.nodesChan != []
    ensures Elsewhere(s.(nodesChan := s.nodesChan[1..])) + multiset{s.nodesChan[0]} == Elsewhere(s)
  {
    assert s.nodesChan == [s.nodesChan[0]] + s.nodesChan[1..];
  }

  /** What worker `w` lays down is what it had in hand. */
  ghost predicate Balanced(s: State, s': State, w: nat) {
    && w < |s.workers| == |s'.workers|
    && s'.offered == s.offered
    && s'.workers == s.workers[w := s'.workers[w]]
    && InHand(s.workers[w]) + Elsewhere(s) == InHand(s'.workers[w]) + Elsewhere(s')
  }

  lemma {:induction false} BalanceFetch(s: State, w: nat)
    requires Possible(s, Fetch(w))
    ensures Balanced(s, Do(s, Fetch(w)), w)
  {
    if s.nodesChan != [] {
      PickedUp(s);
    }
  }

  lemma {:induction false} BalanceAnswer(s: State, w: nat, ok: bool)
    requires Possible(s, Answer(w, ok))
    ensures Balanced(s, Do(s, Answer(w, ok)), w)
  {
    LaidDown(s, s.workers[w].node);
  }

  lemma {:induction false} BalanceDecode(s: State, w: nat, ok: bool)
    requires Possible(s, Decode(w, ok))
    ensures Balanced(s, Do(s, Decode(w, ok)), w)
  {
    LaidDown(s, s.workers[w].node);
  }

  lemma {:induction false} Balance(s: State, e: Event)
    requires Possible(s, e) && !e.TakeDecoded? && !e.TakeError?
    ensures Balanced(s, Do(s, e), e.w)
  {
    match e
    case Fetch(w) => BalanceFetch(s, w);
    case Answer(w, ok) => BalanceAnswer(s, w, ok);
    case Decode(w, ok) => BalanceDecode(s, w, ok);
    case Check(_) =>
    case Acquire(_) =>
    case CloseDone(_) =>
  }

  lemma {:induction false} StepAccounted(s: State, e: Event)
    requires Accounted(s) && Possible(s, e)
    ensures Accounted(Do(s, e))
  {
    if !e.TakeDecoded? && !e.TakeError? {
      Balance(s, e);
      var s' := Do(s, e);
      HandsUpdate(s.workers, e.w, s'.workers[e.w]);
      hide InHands, Do, Elsewhere, InHand, Possible;
      var a, b, x, y := InHands(s.workers), InHands(s'.workers), InHand(s.workers[e.w]), InHand(s'.workers[e.w]);
      Exchange(a, b, x, y, Elsewhere(s), Elsewhere(s'));
    }
  }

  lemma {:induction false} Exchange(a: multiset<nat>, b: multiset<nat>, x: multiset<nat>, y: multiset<nat>,
                                    c: multiset<nat>, d: multiset<nat>)
    requires b + x == a + y && x + c == y + d
    ensures a + c == b + d
  {
    forall n
      ensures (a + c)[n] == (b + d)[n]
    {
      assert (b + x)[n] == (a + y)[n] && (x + c)[n] == (y + d)[n];
    }
  }

  lemma {:induction false} StepOrdered(s: State, e: Event)
    requires Ordered(s) && Possible(s, e)
    ensures Ordered(Do(s, e))
  {
    var s' := Do(s, e);
    assert s'.contacted + s'.nodesChan == s.contacted + s.nodesChan;
    assert s'.failed == s.failed ==> s'.errs + s'.errChan == s.errs + s.errChan;
  }

  lemma {:induction false} LockedStep(s: State, e: Event)
    requires LockInv(s) && DoneInv(s) && Possible(s, e) && (e.Acquire? || e.Decode? || e.CloseDone?)
    ensures LockInv(Do(s, e))
  {
    hide DoneInv, Room;
    assert s.workers[e.w].Locking? || s.lock == e.w;
    var s' := Do(s, e);
    var x := s'.workers[e.w];
    assert s'.workers == s.workers[e.w := x] && (x.Locked? || x.Announced? <==> s'.lock == e.w);
    assert s'.lock == NOBODY || s'.lock == e.w;
    hide Do, Possible;
  }

  lemma {:induction false} StepLock(s: State, e: Event)
    requires LockInv(s) && DoneInv(s) && Possible(s, e)
    ensures LockInv(Do(s, e))
  {
    if e.Acquire? || e.Decode? || e.CloseDone? {
      LockedStep(s, e);
    } else {
      hide DoneInv, Room;
    }
  }

  lemma {:induction false} StepDone(s: State, e: Event)
    requires LockInv(s) && DoneInv(s) && Possible(s, e)
    ensures DoneInv(Do(s, e))
  {
  }

  lemma {:induction false} StepStop(s: State, e: Event)
    requires StopInv(s) && Possible(s, e)
    ensures StopInv(Do(s, e))
  {
  }

  lemma {:induction false} StepCaller(s: State, e: Event)
    requires Inv(s) && Possible(s, e)
    ensures CallerInv(Do(s, e))
  {
    hide Accounted, StopInv;
  }

  lemma {:induction false} StepInv(s: State, e: Event)
    requires Inv(s)
    ensures Inv(Step(s, e))
  {
    if Possible(s, e) {
      StepCaller(s, e);
      hide Possible, Do, CallerInv, Accounted, Ordered, LockInv, DoneInv, StopInv;
      StepAccounted(s, e);
      StepOrdered(s, e);
      StepLock(s, e);
      StepDone(s, e);
      StepStop(s, e);
    }
  }

  lemma {:induction false} StepKeeps(s: State, e: Event)
    ensures Step(s, e).offered == s.offered && |Step(s, e).workers| == |s.workers|
  {
  }

  lemma {:induction false} AfterInv(offered: seq<nat>, parallel: nat, es: seq<Event>)
    requires offered != []
    ensures Inv(After(Begin(offered, parallel), es)) && After(Begin(offered, parallel), es).offered == offered
  {
    hide Inv, Step;
    if es == [] {
      BeginInv(offered, parallel);
    } else {
      AfterInv(offered, parallel, es[..|es| - 1]);
      StepInv(After(Begin(offered, parallel), es[..|es| - 1]), es[|es| - 1]);
      StepKeeps(After(Begin(offered, parallel), es[..|es| - 1]), es[|es| - 1]);
    }
  }

  // ----- whole runs

  lemma {:induction false} HandSize(ws: seq<Worker>, w: nat)
    requires w < |ws|
    ensures InHand(ws[w]) <= InHands(ws)
  {
    if w < |ws| - 1 {
      HandSize(ws[..|ws| - 1], w);
    }
  }

  lemma {:induction false} Counts(s: State)
    requires Accounted(s)
    ensures |s.offered| == |InHands(s.workers)| + |s.nodesChan| + |s.failed| + |s.decoded| + |s.discarded|
  {
    assert |multiset(s.offered)| == |s.offered|;
    hide InHands;
  }

  /** A worker that holds a node finds room for an error. */
  lemma {:induction false} RoomForError(s: State, w: nat)
    requires Inv(s) && w < |s.workers| && (s.workers[w].Asking? || s.workers[w].Locked?)
    ensures Room(s)
  {
    HandSize(s.workers, w);
    Counts(s);
    var n := s.workers[w].node;
    assert InHands(s.workers)[n] > 0;
    assert |InHands(s.workers)| >= 1 by { assert InHands(s.workers) != multiset{}; }
    assert |s.errChan| <= |s.failed| by { assert |s.errs + s.errChan| == |s.failed|; }
  }

  /** In every run no send on a channel ever waits. */
  lemma {:induction false} SendsNeverWait(offered: seq<nat>, parallel: nat, es: seq<Event>, w: nat, ok: bool)
    requires offered != [] && w < |After(Begin(offered, parallel), es).workers|
    ensures var s := After(Begin(offered, parallel), es);
            && (s.workers[w].Asking? ==> Possible(s, Answer(w, ok)))
            && (s.workers[w].Locked? ==> Possible(s, Decode(w, ok)))
  {
    AfterInv(offered, parallel, es);
    hide After, Inv, Possible;
    SendPossible(After(Begin(offered, parallel), es), w, ok);
  }

  lemma {:induction false} SendPossible(s: State, w: nat, ok: bool)
    requires Inv(s) && w < |s.workers|
    ensures s.workers[w].Asking? ==> Possible(s, Answer(w, ok))
    ensures s.workers[w].Locked? ==> Possible(s, Decode(w, ok))
  {
    if s.workers[w].Asking? || s.workers[w].Locked? {
      RoomForError(s, w);
    }
    hide Accounted, StopInv, Ordered;
  }

  /** In every run nodes are contacted once, in the order offered, and `done` is closed at most once. */
  lemma {:induction false} ContactedOnce(offered: seq<nat>, parallel: nat, es: seq<Event>)
    requires offered != []
    ensures After(Begin(offered, parallel), es).contacted <= offered
    ensures !After(Begin(offered, parallel), es).closedTwice && |After(Begin(offered, parallel), es).decoded| <= 1
  {
    AfterInv(offered, parallel, es);
  }

  lemma {:induction false} AllFailed(s: State)
    requires Accounted(s) && |s.failed| >= |s.offered|
    ensures multiset(s.failed) == multiset(s.offered) && s.decoded == []
  {
    Counts(s);
    assert InHands(s.workers) == multiset{};
    hide InHands;
  }

  /**
   In every run the caller returns the one node whose answer was decoded, or the
   first error, and that only if every offered node has failed.
   */
  lemma {:induction false} Result(offered: seq<nat>, parallel: nat, es: seq<Event>)
    requires offered != []
    ensures var s := After(Begin(offered, parallel), es);
            && (s.caller.GotNode? ==> s.decoded == [s.caller.node] && s.caller.node in offered)
            && (s.caller.GotError? ==>
                 multiset(s.failed) == multiset(offered) && s.decoded == [] && s.caller.node == s.failed[0])
  {
    AfterInv(offered, parallel, es);
    var s := After(Begin(offered, parallel), es);
    if s.caller.GotError? {
      AllFailed(s);
    } else if s.caller.GotNode? {
      assert s.caller.node in multiset(offered) by { assert s.decoded[0] in multiset(s.decoded); hide InHands; }
    }
  }

  /** While the caller waits, something can happen: the call cannot deadlock. */
  lemma {:induction false} NoDeadlock(offered: seq<nat>, parallel: nat, es: seq<Event>) returns (e: Event)
    requires offered != [] && parallel > 0 && After(Begin(offered, parallel), es).caller.Collecting?
    ensures Possible(After(Begin(offered, parallel), es), e)
  {
    var s := After(Begin(offered, parallel), es);
    AfterInv(offered, parallel, es);
    WorkersStay(offered, parallel, es);
    if s.errChan != [] {
      return TakeError;
    }
    if s.decodedChan != [] {
      return TakeDecoded;
    }
    e := WorkerMoves(s);
  }

  lemma {:induction false} WorkersStay(offered: seq<nat>, parallel: nat, es: seq<Event>)
    ensures |After(Begin(offered, parallel), es).workers| == parallel
  {
    hide Step;
    if es != [] {
      WorkersStay(offered, parallel, es[..|es| - 1]);
      StepKeeps(After(Begin(offered, parallel), es[..|es| - 1]), es[|es| - 1]);
    }
  }

  ghost predicate AllStopped(ws: seq<Worker>) {
    forall w :: 0 <= w < |ws| ==> ws[w].Stopped?
  }

  lemma {:induction false} IdleHands(ws: seq<Worker>)
    requires AllStopped(ws)
    ensures InHands(ws) == multiset{}
  {
    if ws != [] {
      IdleHands(ws[..|ws| - 1]);
    }
  }

  /** When every worker has stopped, an answer was decoded or every node has failed. */
  lemma {:induction false} StoppedMeansFinished(s: State)
    requires Inv(s) && AllStopped(s.workers) && |s.workers| > 0
    ensures s.decoded != [] || |s.errs| + |s.errChan| == |s.offered|
  {
    assert s.workers[0].Stopped?;
    IdleHands(s.workers);
    Counts(s);
    assert |s.errs + s.errChan| == |s.failed|;
  }

  /** With both result channels empty, some worker is not stopped and can move. */
  lemma {:induction false} WorkerMoves(s: State) returns (e: Event)
    requires Inv(s) && s.caller.Collecting? && s.errChan == [] && s.decodedChan == [] && |s.workers| > 0
    ensures Possible(s, e)
  {
    if AllStopped(s.workers) {
      StoppedMeansFinished(s);
    }
    var w :| 0 <= w < |s.workers| && !s.workers[w].Stopped?;
    if s.lock >= 0 {
      var l := s.lock as nat;
      if s.workers[l].Announced? {
        return CloseDone(l);
      }
      RoomForError(s, l);
      return Decode(l, false);
    }
    match s.workers[w]
    case Idle => return Check(w);
    case Fetching => return Fetch(w);
    case Asking(_) => return Answer(w, true);
    case Locking(_) => return Acquire(w);
  }

  // ----- every run ends

  function Weight(x: Worker): nat {
    match x
    case Stopped => 0
    case Fetching => 1
    case Idle => 2
    case Announced(_) => 3
    case Locked(_) => 4
    case Locking(_) => 5
    case Asking(_) => 6
  }

  function Weights(ws: seq<Worker>): nat {
    if ws == [] then 0 else Weights(ws[..|ws| - 1]) + Weight(ws[|ws| - 1])
  }

  /** Work left: nodes to ask, steps of the workers, results to take. */
  function Measure(s: State): int {
    6 * |s.nodesChan| + Weights(s.workers) + if s.caller.Collecting? then |s.offered| - |s.errs| + 1 else 0
  }

  lemma {:induction false} WeightsUpdate(ws: seq<Worker>, w: nat, x: Worker)
    requires w < |ws|
    ensures Weights(ws[w := x]) == Weights(ws) - Weight(ws[w]) + Weight(x)
  {
    var n := |ws| - 1;
    if w == n {
      assert ws[w := x][..n] == ws[..n];
    } else {
      WeightsUpdate(ws[..n], w, x);
      assert ws[w := x][..n] == ws[..n][w := x];
    }
  }

  lemma {:induction false} WorkerStepDecreases(s: State, e: Event)
    requires Possible(s, e) && !e.TakeDecoded? && !e.TakeError?
    ensures Measure(Do(s, e)) < Measure(s)
  {
    hide Weights;
    var s' := Do(s, e);
    WeightsUpdate(s.workers, e.w, s'.workers[e.w]);
    assert s'.workers == s.workers[e.w := s'.workers[e.w]];
    assert s'.caller == s.caller && s'.errs == s.errs && s'.offered == s.offered;
    assert 6 * |s'.nodesChan| + Weight(s'.workers[e.w]) < 6 * |s.nodesChan| + Weight(s.workers[e.w]);
    hide Do, Weight, Possible;
  }

  lemma {:induction false} StepDecreases(s: State, e: Event)
    requires CallerInv(s) && Possible(s, e)
    ensures Measure(Do(s, e)) < Measure(s)
  {
    hide Weights;
    if !e.TakeDecoded? && !e.TakeError? {
      WorkerStepDecreases(s, e);
    }
  }

  lemma {:induction false} MeasurePositive(s: State)
    requires CallerInv(s)
    ensures Measure(s) >= 0
  {
  }

  /** Every possible event leaves less work, so a call whose sends return comes to an end. */
  lemma {:induction false} StepsAreBounded(s: State, e: Event)
    requires Inv(s) && Possible(s, e)
    ensures 0 <= Measure(Do(s, e)) < Measure(s)
  {
    StepInv(s, e);
    assert Do(s, e) == Step(s, e);
    hide CallerInv, Measure, Do, Step, Possible;
    MeasurePositive(Do(s, e));
    StepDecreases(s, e);
  }

  ghost predicate AllPossible(start: State, es: seq<Event>) {
    forall k :: 0 <= k < |es| ==> Possible(After(start, es[..k]), es[k])
  }

  /** A run cannot be longer than the work there is at its start. */
  lemma {:induction false} RunsEnd(offered: seq<nat>, parallel: nat, es: seq<Event>)
    requires offered != [] && AllPossible(Begin(offered, parallel), es)
    ensures 0 <= Measure(After(Begin(offered, parallel), es)) <= Measure(Begin(offered, parallel)) - |es|
  {
    if es != [] {
      hide Inv, Measure;
      var n := |es| - 1;
      assert AllPossible(Begin(offered, parallel), es[..n]) by {
        assert forall k :: 0 <= k < n ==> es[..n][..k] == es[..k];
      }
      RunsEnd(offered, parallel, es[..n]);
      AfterInv(offered, parallel, es[..n]);
      StepsAreBounded(After(Begin(offered, parallel), es[..n]), es[n]);
    } else {
      BeginInv(offered, parallel);
      MeasurePositive(Begin(offered, parallel));
    }
  }
}
