/**
 What the caller of the parallel request gets, by what happened: by the answers of the
 nodes and by what the decoder made of them, and not by what the workers wrote down.
 */
module FanOutHistory {
  import opened FanOut

  /** A node gives no answer, or one that does not decode while nothing is decoded yet. */
  predicate Fails(s: State, e: Event) {
    Possible(s, e) && ((e.Answer? && !e.ok) || (e.Decode? && !e.ok && !s.done))
  }

  /** An answer decodes, the first to do so. */
  predicate Succeeds(s: State, e: Event) {
    Possible(s, e) && e.Decode? && e.ok && !s.done
  }

  /** The node that the worker of the event has taken. */
  function NodeAt(s: State, e: Event): nat
    requires Fails(s, e) || Succeeds(s, e)
  {
    s.workers[e.w].node
  }

  /** The nodes that failed, in order. */
  function Errors(b: State, es: seq<Event>): seq<nat> {
    if es == [] then []
    else
      var n := |es| - 1;
      var s := After(b, es[..n]);
      Errors(b, es[..n]) + if Fails(s, es[n]) then [NodeAt(s, es[n])] else []
  }

  function Successes(b: State, es: seq<Event>): seq<nat> {
    if es == [] then []
    else
      var n := |es| - 1;
      var s := After(b, es[..n]);
      Successes(b, es[..n]) + if Succeeds(s, es[n]) then [NodeAt(s, es[n])] else []
  }

  /** Whether a worker has closed `done`. */
  predicate ClosedBy(b: State, es: seq<Event>) {
    es != [] && var n := |es| - 1;
    ClosedBy(b, es[..n]) || (es[n].CloseDone? && Possible(After(b, es[..n]), es[n]))
  }

  lemma {:induction false} StepOutcomes(s: State, e: Event)
    ensures Step(s, e).failed == s.failed + if Fails(s, e) then [NodeAt(s, e)] else []
    ensures Step(s, e).decoded == s.decoded + if Succeeds(s, e) then [NodeAt(s, e)] else []
    ensures Step(s, e).done <==> s.done || (e.CloseDone? && Possible(s, e))
  {
    assert s.failed + [] == s.failed && s.decoded + [] == s.decoded;
  }

  lemma {:induction false} OutcomesAre(b: State, es: seq<Event>)
    requires b.failed == [] && b.decoded == [] && !b.done
    ensures After(b, es).failed == Errors(b, es) && After(b, es).decoded == Successes(b, es)
    ensures After(b, es).done <==> ClosedBy(b, es)
  {
    if es != [] {
      OutcomesAre(b, es[..|es| - 1]);
      hide Step;
      StepOutcomes(After(b, es[..|es| - 1]), es[|es| - 1]);
    }
  }

  // ----- one event among those that happened

  ghost predicate FailsAt(b: State, es: seq<Event>, k: nat, n: nat) {
    k < |es| && Fails(After(b, es[..k]), es[k]) && NodeAt(After(b, es[..k]), es[k]) == n
  }

  ghost predicate Failed(b: State, es: seq<Event>, n: nat) {
    exists k: nat :: FailsAt(b, es, k, n)
  }

  /** Worker w takes node n from the channel. */
  ghost predicate TakesAt(b: State, es: seq<Event>, k: nat, w: nat, n: nat) {
    && k < |es| && es[k] == Fetch(w) && Possible(After(b, es[..k]), es[k])
    && After(b, es[..k]).nodesChan != [] && After(b, es[..k]).nodesChan[0] == n
  }

  /** Node n answers worker w. */
  ghost predicate AnswersAt(b: State, es: seq<Event>, k: nat, w: nat, n: nat) {
    && k < |es| && es[k] == Answer(w, true) && Possible(After(b, es[..k]), es[k])
    && After(b, es[..k]).workers[w] == Asking(n)
  }

  /** Worker w decodes the answer of node n, the first to do so. */
  ghost predicate DecodesAt(b: State, es: seq<Event>, k: nat, w: nat, n: nat) {
    && k < |es| && es[k] == Decode(w, true) && Succeeds(After(b, es[..k]), es[k])
    && After(b, es[..k]).workers[w] == Locked(n)
  }

  lemma {:induction false} Earlier(b: State, es: seq<Event>, n: nat)
    requires n <= |es|
    ensures forall k: nat, x: nat :: FailsAt(b, es[..n], k, x) <==> k < n && FailsAt(b, es, k, x)
    ensures forall k: nat, w: nat, x: nat :: TakesAt(b, es[..n], k, w, x) <==> k < n && TakesAt(b, es, k, w, x)
    ensures forall k: nat, w: nat, x: nat :: AnswersAt(b, es[..n], k, w, x) <==> k < n && AnswersAt(b, es, k, w, x)
    ensures forall k: nat, w: nat, x: nat :: DecodesAt(b, es[..n], k, w, x) <==> k < n && DecodesAt(b, es, k, w, x)
  {
    hide After, Possible, Fails, Succeeds;
    forall k: nat | k < n ensures es[..n][..k] == es[..k] && es[..n][k] == es[k] {
    }
  }

  /** Every error is one of the events, and each event is in the list. */
  lemma {:induction false} ErrorIsEvent(b: State, es: seq<Event>, i: nat) returns (k: nat)
    requires i < |Errors(b, es)|
    ensures FailsAt(b, es, k, Errors(b, es)[i])
    ensures i == 0 ==> forall j: nat, x: nat :: j < k ==> !FailsAt(b, es, j, x)
  {
    var n := |es| - 1;
    var before := Errors(b, es[..n]);
    Earlier(b, es, n);
    if i < |before| {
      k := ErrorIsEvent(b, es[..n], i);
    } else {
      k := n;
      if i == 0 {
        forall j: nat, x: nat | j < n ensures !FailsAt(b, es, j, x) {
          if FailsAt(b, es[..n], j, x) {
            EventIsError(b, es[..n], j, x);
          }
        }
      }
    }
  }

  lemma {:induction false} EventIsError(b: State, es: seq<Event>, k: nat, x: nat)
    requires FailsAt(b, es, k, x)
    ensures x in Errors(b, es)
  {
    hide After, Possible;
    var n := |es| - 1;
    if k < n {
      Earlier(b, es, n);
      EventIsError(b, es[..n], k, x);
    }
  }

  lemma {:induction false} SuccessIsEvent(b: State, es: seq<Event>, i: nat) returns (k: nat, w: nat)
    requires i < |Successes(b, es)|
    ensures DecodesAt(b, es, k, w, Successes(b, es)[i])
  {
    var n := |es| - 1;
    Earlier(b, es, n);
    if i < |Successes(b, es[..n])| {
      k, w := SuccessIsEvent(b, es[..n], i);
    } else {
      k, w := n, es[n].w;
    }
  }

  // ----- what a worker has behind it

  /** Worker w took node n, and then n answered. */
  ghost predicate TookAndHeard(b: State, es: seq<Event>, w: nat, n: nat) {
    exists i: nat, k: nat :: i < k && TakesAt(b, es, i, w, n) && AnswersAt(b, es, k, w, n)
  }

  ghost predicate Took(b: State, es: seq<Event>, w: nat, n: nat) {
    exists i: nat :: TakesAt(b, es, i, w, n)
  }

  ghost predicate Behind(b: State, es: seq<Event>, w: nat, x: Worker) {
    match x
    case Asking(n) => Took(b, es, w, n)
    case Locking(n) => TookAndHeard(b, es, w, n)
    case Locked(n) => TookAndHeard(b, es, w, n)
    case Announced(n) => TookAndHeard(b, es, w, n)
    case _ => true
  }

  lemma {:induction false} BehindStays(b: State, es: seq<Event>, w: nat, x: Worker)
    requires es != [] && Behind(b, es[..|es| - 1], w, x)
    ensures Behind(b, es, w, x)
  {
    hide TakesAt, AnswersAt;
    Earlier(b, es, |es| - 1);
    if x.Asking? {
      var i: nat :| TakesAt(b, es[..|es| - 1], i, w, x.node);
      assert TakesAt(b, es, i, w, x.node);
    } else if x.Locking? || x.Locked? || x.Announced? {
      var before := es[..|es| - 1];
      var i: nat, k: nat :| i < k && TakesAt(b, before, i, w, x.node) && AnswersAt(b, before, k, w, x.node);
      assert TakesAt(b, es, i, w, x.node) && AnswersAt(b, es, k, w, x.node);
    }
  }

  /** How a worker gets to where it is. */
  lemma {:induction false} WorkerStep(s: State, e: Event, w: nat)
    requires w < |s.workers|
    ensures w < |Step(s, e).workers|
    ensures var x, y := s.workers[w], Step(s, e).workers[w];
            match y
            case Asking(n) => y == x || (e == Fetch(w) && Possible(s, e) && s.nodesChan != [] && s.nodesChan[0] == n)
            case Locking(n) => y == x || (e == Answer(w, true) && Possible(s, e) && x == Asking(n))
            case Locked(n) => y == x || x == Locking(n)
            case Announced(n) => y == x || x == Locked(n)
            case _ => true
  {
  }

  lemma {:induction false} WorkersBehind(b: State, es: seq<Event>, w: nat)
    requires w < |b.workers| && b.workers[w] == Idle
    ensures w < |After(b, es).workers| && Behind(b, es, w, After(b, es).workers[w])
  {
    if es != [] {
      var n := |es| - 1;
      var s, e := After(b, es[..n]), es[n];
      WorkersBehind(b, es[..n], w);
      WorkerStep(s, e, w);
      BehindStays(b, es, w, s.workers[w]);
      assert After(b, es) == Step(s, e);
      var y := After(b, es).workers[w];
      if y != s.workers[w] {
        if y.Asking? {
          assert TakesAt(b, es, n, w, y.node);
        } else if y.Locking? {
          var i: nat :| TakesAt(b, es[..n], i, w, y.node);
          Earlier(b, es, n);
          assert TakesAt(b, es, i, w, y.node) && AnswersAt(b, es, n, w, y.node);
        }
      }
      hide After, Step, TakesAt, AnswersAt;
    }
  }

  // ----- nobody is asked once `done` is closed

  /** Worker w finds `done` open in event j, and is in no other event before n. */
  ghost predicate FoundOpen(b: State, es: seq<Event>, j: nat, n: nat, w: nat) {
    && j < n <= |es| && es[j] == Check(w) && Possible(After(b, es[..j]), es[j]) && !After(b, es[..j]).done
    && forall i: nat :: j < i < n ==> !ByWorker(b, es, i, w)
  }

  ghost predicate ByWorker(b: State, es: seq<Event>, i: nat, w: nat) {
    i < |es| && !es[i].TakeDecoded? && !es[i].TakeError? && es[i].w == w && Possible(After(b, es[..i]), es[i])
  }

  lemma {:induction false} CheckStep(s: State, e: Event, w: nat)
    requires w < |s.workers| && Step(s, e).workers[w] == Fetching
    ensures var moved := !e.TakeDecoded? && !e.TakeError? && e.w == w && Possible(s, e);
            if moved then e == Check(w) && !s.done else s.workers[w] == Fetching
  {
  }

  lemma {:induction false} EarlierByWorker(b: State, es: seq<Event>, n: nat, w: nat)
    requires n <= |es|
    ensures forall j: nat, k: nat :: k <= n ==> (FoundOpen(b, es[..n], j, k, w) <==> FoundOpen(b, es, j, k, w))
  {
    hide After, Possible;
    forall i: nat | i < n ensures es[..n][..i] == es[..i] && (ByWorker(b, es[..n], i, w) <==> ByWorker(b, es, i, w)) {
      assert es[..n][..i] == es[..i];
    }
    hide ByWorker;
  }

  lemma {:induction false} FetchingFoundOpen(b: State, es: seq<Event>, w: nat) returns (j: nat)
    requires w < |b.workers| && b.workers[w] == Idle
    requires w < |After(b, es).workers| && After(b, es).workers[w] == Fetching
    ensures FoundOpen(b, es, j, |es|, w)
  {
    var n := |es| - 1;
    WorkersBehind(b, es[..n], w);
    assert After(b, es) == Step(After(b, es[..n]), es[n]);
    CheckStep(After(b, es[..n]), es[n], w);
    hide After, Step, Possible;
    if ByWorker(b, es, n, w) {
      j := n;
    } else {
      j := FetchingFoundOpen(b, es[..n], w);
      EarlierByWorker(b, es, n, w);
      assert FoundOpen(b, es, j, n, w);
      hide ByWorker;
    }
  }

  /** A worker that takes a node found `done` open in its last event before. */
  lemma {:induction false} AskedWhileOpen(offered: seq<nat>, parallel: nat, es: seq<Event>, k: nat, w: nat, n: nat)
    returns (j: nat)
    requires TakesAt(Begin(offered, parallel), es, k, w, n)
    ensures FoundOpen(Begin(offered, parallel), es, j, k, w)
  {
    var b := Begin(offered, parallel);
    WorkersStay(offered, parallel, es[..k]);
    j := FetchingFoundOpen(b, es[..k], w);
    EarlierByWorker(b, es, k, w);
  }

  // ----- the result

  /** The caller got node n: some worker took it from the channel, it answered, and its answer was decoded first. */
  lemma {:induction false} GotNodeMeans(offered: seq<nat>, parallel: nat, es: seq<Event>)
    returns (w: nat, i: nat, j: nat, k: nat)
    requires offered != [] && After(Begin(offered, parallel), es).caller.GotNode?
    ensures var b := Begin(offered, parallel);
            var n := After(b, es).caller.node;
            i < j < k && TakesAt(b, es, i, w, n) && AnswersAt(b, es, j, w, n) && DecodesAt(b, es, k, w, n)
  {
    var b := Begin(offered, parallel);
    Result(offered, parallel, es);
    OutcomesAre(b, es);
    k, w := SuccessIsEvent(b, es, 0);
    WorkersStay(offered, parallel, es[..k]);
    WorkersBehind(b, es[..k], w);
    Earlier(b, es, k);
    var n := After(b, es).caller.node;
    hide After, TakesAt, AnswersAt;
    assert TookAndHeard(b, es[..k], w, n);
    i, j :| i < j && TakesAt(b, es[..k], i, w, n) && AnswersAt(b, es[..k], j, w, n);
  }

  lemma {:induction false} InErrors(b: State, es: seq<Event>, x: nat)
    requires x in Errors(b, es)
    ensures Failed(b, es, x)
  {
    var i :| 0 <= i < |Errors(b, es)| && Errors(b, es)[i] == x;
    var k := ErrorIsEvent(b, es, i);
  }

  /** The caller got the error of node n: every offered node failed and none was decoded, and n was the first. */
  lemma {:induction false} GotErrorMeans(offered: seq<nat>, parallel: nat, es: seq<Event>)
    returns (first: nat)
    requires offered != [] && After(Begin(offered, parallel), es).caller.GotError?
    ensures var b := Begin(offered, parallel);
            && multiset(Errors(b, es)) == multiset(offered) && Successes(b, es) == []
            && (forall i :: 0 <= i < |offered| ==> Failed(b, es, offered[i]))
            && FailsAt(b, es, first, After(b, es).caller.node)
            && (forall j: nat, x: nat :: j < first ==> !FailsAt(b, es, j, x))
  {
    var b := Begin(offered, parallel);
    ErrorsAre(offered, parallel, es);
    hide *;
    first := ErrorIsEvent(b, es, 0);
    forall i | 0 <= i < |offered| ensures Failed(b, es, offered[i]) {
      HasAll(offered, Errors(b, es), i);
      InErrors(b, es, offered[i]);
    }
  }

  lemma {:induction false} HasAll(a: seq<nat>, b: seq<nat>, i: nat)
    requires multiset(a) == multiset(b) && i < |a|
    ensures a[i] in b
  {
    assert a[i] in multiset(b);
  }

  lemma {:induction false} ErrorsAre(offered: seq<nat>, parallel: nat, es: seq<Event>)
    requires offered != [] && After(Begin(offered, parallel), es).caller.GotError?
    ensures var b := Begin(offered, parallel);
            && multiset(Errors(b, es)) == multiset(offered) && Successes(b, es) == []
            && Errors(b, es) != [] && Errors(b, es)[0] == After(b, es).caller.node
  {
    Result(offered, parallel, es);
    OutcomesAre(Begin(offered, parallel), es);
    hide After, Errors, Successes;
    assert |multiset(offered)| == |offered|;
  }
}
