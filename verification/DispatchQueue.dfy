/**
 The queue between the overlay and a protocol instance. Producers append under the
 lock and leave a token in a channel of capacity one; a reader pops one message at
 a time and waits on the channel when the queue is empty; closing the instance
 closes the channel.
 */
module DispatchQueue {

  datatype Reader<M> = Top | Dispatching(msg: M) | Waiting | Exited

  /**
   - token, chanClosed: the wait channel
   - lockStuck: a panic left the lock held
   - panicked: something was sent on the closed channel
   - accepted, dispatched: the messages that entered the queue and that left the reader
   - late: how many were dispatched after closing
   */
  datatype Queue<M> = Queue(msgs: seq<M>, closing: bool, token: bool, chanClosed: bool, lockStuck: bool,
                            reader: Reader<M>, accepted: seq<M>, dispatched: seq<M>, late: nat, closes: nat,
                            panicked: bool)

  function New<M>(): Queue<M> {
    Queue([], false, false, false, false, Top, [], [], 0, 0, false)
  }

  /** A send that does not wait: a full buffer means the reader has been notified. */
  function Notify<M>(q: Queue<M>): Queue<M> {
    if q.chanClosed then q.(panicked := true) else q.(token := true)
  }

  function Process<M>(q: Queue<M>, m: M): Queue<M> {
    if q.closing then q else Notify(q.(msgs := q.msgs + [m], accepted := q.accepted + [m]))
  }

  /** Closing twice panics on the closed channel, and the lock is not given back. */
  function CloseDispatch<M>(q: Queue<M>): Queue<M> {
    q.(closing := true, chanClosed := true, lockStuck := q.chanClosed, closes := q.closes + 1)
  }

  /** The reader holds the lock: it leaves, takes a message, or finds the queue empty. */
  function ReaderLocks<M>(q: Queue<M>): Queue<M> {
    if q.closing then q.(reader := Exited)
    else if q.msgs != [] then q.(reader := Dispatching(q.msgs[0]), msgs := q.msgs[1..])
    else q.(reader := Waiting)
  }

  datatype Event<M> = Arrive(msg: M) | Close | Lock | Dispatch | Wake

  predicate Possible<M>(q: Queue<M>, e: Event<M>) {
    match e
    case Arrive(_) => !q.lockStuck
    case Close => !q.lockStuck
    case Lock => q.reader.Top? && !q.lockStuck
    case Dispatch => q.reader.Dispatching?
    case Wake => q.reader.Waiting? && (q.token || q.chanClosed)
  }

  function Step<M>(q: Queue<M>, e: Event<M>): Queue<M> {
    if !Possible(q, e) then q
    else
      match e
      case Arrive(m) => Process(q, m)
      case Close => CloseDispatch(q)
      case Lock => ReaderLocks(q)
      case Dispatch =>
        q.(reader := Top, dispatched := q.dispatched + [q.reader.msg], late := q.late + if q.closing then 1 else 0)
      case Wake => q.(reader := Top, token := false)
  }

  function Run<M>(es: seq<Event<M>>): Queue<M> {
    if es == [] then New() else Step(Run(es[..|es| - 1]), es[|es| - 1])
  }

  // ----- what every step keeps

  ghost predicate Inv<M>(q: Queue<M>) {
    && (q.closing <==> q.chanClosed) && (q.closing <==> q.closes > 0) && (q.lockStuck <==> q.closes > 1)
    && !q.panicked
    && (q.reader.Waiting? && q.msgs != [] ==> q.token || q.chanClosed)
    && q.accepted == q.dispatched + (if q.reader.Dispatching? then [q.reader.msg] else []) + q.msgs
    && (!q.closing ==> q.late == 0 && !q.reader.Exited?)
    && q.late <= 1
    && (q.late == 1 ==> q.reader.Top? || q.reader.Exited?)
  }

  lemma {:induction false} StepInv<M>(q: Queue<M>, e: Event<M>)
    requires Inv(q)
    ensures Inv(Step(q, e))
  {
    if e.Arrive? && !q.closing {
      var hand := if q.reader.Dispatching? then [q.reader.msg] else [];
      assert q.dispatched + hand + (q.msgs + [e.msg]) == (q.dispatched + hand + q.msgs) + [e.msg];
    } else if e.Lock? && Possible(q, e) && !q.closing && q.msgs != [] {
      assert q.msgs == [q.msgs[0]] + q.msgs[1..];
      assert q.dispatched + [] + q.msgs == q.dispatched + [q.msgs[0]] + q.msgs[1..];
    } else if e.Dispatch? && Possible(q, e) {
      assert q.dispatched + [q.reader.msg] + q.msgs == (q.dispatched + [q.reader.msg]) + [] + q.msgs;
    }
  }

  lemma {:induction false} RunInv<M>(es: seq<Event<M>>)
    ensures Inv(Run(es))
  {
    if es != [] {
      RunInv(es[..|es| - 1]);
      StepInv(Run(es[..|es| - 1]), es[|es| - 1]);
    }
  }

  /** In every run a reader that waits while messages are queued can wake up. */
  lemma {:induction false} NoLostWakeUp<M>(es: seq<Event<M>>)
    requires Run(es).reader.Waiting? && Run(es).msgs != []
    ensures Possible(Run(es), Wake)
  {
    RunInv(es);
  }

  /** In every run the messages are dispatched in the order in which they were accepted. */
  lemma {:induction false} DispatchedInOrder<M>(es: seq<Event<M>>)
    ensures Run(es).dispatched <= Run(es).accepted
    ensures Run(es).reader.Waiting? || Run(es).reader.Top? ==> Run(es).dispatched + Run(es).msgs == Run(es).accepted
  {
    RunInv(es);
    var q := Run(es);
    if !q.reader.Dispatching? {
      assert q.dispatched + [] + q.msgs == q.dispatched + q.msgs;
    }
  }

  /** In every run nothing is sent on the closed channel, and at most one popped message is dispatched late. */
  lemma {:induction false} ClosingIsSafe<M>(es: seq<Event<M>>)
    ensures !Run(es).panicked && Run(es).late <= 1
    ensures Run(es).lockStuck <==> Run(es).closes > 1
  {
    RunInv(es);
  }

  /** After closing, the reader can always go on until it has left. */
  lemma {:induction false} ReaderLeaves<M>(es: seq<Event<M>>)
    requires Run(es).closes == 1
    ensures var q := Run(es);
            var e := if q.reader.Top? then Lock else if q.reader.Waiting? then Wake else Dispatch;
            q.reader.Exited? || (Possible(q, e) && (Step(q, e).reader.Exited? || Step(Step(q, e), Lock).reader.Exited?))
  {
    RunInv(es);
  }

  /** Without closing, a reader that cannot move has dispatched everything. */
  lemma {:induction false} StuckReaderIsDone<M>(es: seq<Event<M>>)
    requires Run(es).closes == 0
    requires !Possible(Run(es), Lock) && !Possible(Run(es), Dispatch) && !Possible(Run(es), Wake)
    ensures Run(es).dispatched == Run(es).accepted
  {
    RunInv(es);
  }

  // ----- the reader comes to rest

  predicate OfReader<M>(e: Event<M>) {
    e.Lock? || e.Dispatch? || e.Wake?
  }

  /** Steps left for the reader if nothing arrives and nobody closes. */
  function ReaderWork<M>(q: Queue<M>): nat {
    2 * |q.msgs| + (if q.token then 2 else 0) +
    match q.reader
    case Exited => 0
    case Waiting => if q.chanClosed then 2 else 0
    case Top => 1
    case Dispatching(_) => 2
  }

  lemma {:induction false} ReaderStep<M>(q: Queue<M>, e: Event<M>)
    requires Inv(q) && OfReader(e) && Possible(q, e)
    ensures ReaderWork(Step(q, e)) < ReaderWork(q)
  {
  }

  ghost predicate Continues<M>(es: seq<Event<M>>, more: seq<Event<M>>) {
    forall k :: 0 <= k < |more| ==> OfReader(more[k]) && Possible(Run(es + more[..k]), more[k])
  }

  /** In every run the reader goes on for a bounded number of steps while nothing arrives and nobody closes. */
  lemma {:induction false} ReaderRests<M>(es: seq<Event<M>>, more: seq<Event<M>>)
    requires Continues(es, more)
    ensures |more| + ReaderWork(Run(es + more)) <= ReaderWork(Run(es))
  {
    hide Run, Step, ReaderWork, Possible;
    if more == [] {
      assert es + more == es;
    } else {
      var n := |more| - 1;
      assert Continues(es, more[..n]) by {
        assert forall k :: 0 <= k < n ==> more[..n][..k] == more[..k];
      }
      ReaderRests(es, more[..n]);
      RunInv(es + more[..n]);
      assert es + more == es + more[..n] + [more[n]];
      RunMore(es + more[..n], more[n]);
      ReaderStep(Run(es + more[..n]), more[n]);
    }
  }

  // ----- the instance

  lemma {:induction false} RunMore<M>(es: seq<Event<M>>, e: Event<M>)
    ensures Run(es + [e]) == Step(Run(es), e)
  {
    assert (es + [e])[..|es + [e]| - 1] == es;
  }

  /** events: what has happened to the instance so far; it is always a run of the queue. */
  class Instance<M> {
    var msgDispatchQueue: seq<M>
    var closing: bool
    var msgDispatchQueueWait: bool
    var waitClosed: bool
    var reader: Reader<M>
    ghost var accepted: seq<M>
    ghost var dispatched: seq<M>
    ghost var late: nat
    ghost var closes: nat
    ghost var lockStuck: bool
    ghost var panicked: bool
    ghost var events: seq<Event<M>>

    ghost function Model(): Queue<M>
      reads this
    {
      Queue(msgDispatchQueue, closing, msgDispatchQueueWait, waitClosed, lockStuck, reader,
            accepted, dispatched, late, closes, panicked)
    }

    ghost predicate Valid()
      reads this
    {
      Model() == Run(events) && Inv(Model())
    }

    constructor ()
      ensures Valid() && events == [] && !closing
    {
      msgDispatchQueue, closing, msgDispatchQueueWait, waitClosed := [], false, false, false;
      reader, accepted, dispatched, events := Top, [], [], [];
      late, closes, lockStuck, panicked := 0, 0, false, false;
    }

    method NotifyDispatch()
      modifies this`panicked, this`msgDispatchQueueWait
      ensures Model() == Notify(old(Model()))
    {
      if waitClosed {
        panicked := true;
      } else if !msgDispatchQueueWait {
        msgDispatchQueueWait := true;
      }
    }

    /** The message is accepted last, and a reader that waits can be woken; a closing instance takes nothing. */
    method ProcessProtocolMsg(m: M)
      requires Valid() && Possible(Model(), Arrive(m))
      modifies this
      ensures Valid() && events == old(events) + [Arrive(m)]
      ensures accepted == if old(closing) then old(accepted) else old(accepted) + [m]
      ensures dispatched == old(dispatched) && reader == old(reader)
      ensures !old(closing) && reader.Waiting? ==> Possible(Model(), Wake)
    {
      hide Run;
      RunMore(events, Arrive(m));
      StepInv(Model(), Arrive(m));
      events := events + [Arrive(m)];
      if closing {
        return;
      }
      msgDispatchQueue := msgDispatchQueue + [m];
      accepted := accepted + [m];
      NotifyDispatch();
    }

    /** From now on nothing is accepted and a reader that waits can be woken; closing twice leaves the lock held. */
    method CloseDispatch()
      requires Valid() && Possible(Model(), Close)
      modifies this
      ensures Valid() && events == old(events) + [Close]
      ensures closing && accepted == old(accepted) && dispatched == old(dispatched) && reader == old(reader)
      ensures reader.Waiting? ==> Possible(Model(), Wake)
      ensures lockStuck == old(closing)
    {
      hide Run;
      RunMore(events, Close);
      StepInv(Model(), Close);
      events := events + [Close];
      closing := true;
      lockStuck := waitClosed;
      waitClosed := true;
      closes := closes + 1;
    }

    /**
     One round of the loop in dispatchMsgReader, up to the release of the lock: the reader
     leaves a closing instance, takes the oldest message that was not dispatched, or waits
     because all were.
     */
    method ReaderRound()
      requires Valid() && Possible(Model(), Lock)
      modifies this
      ensures Valid() && events == old(events) + [Lock]
      ensures accepted == old(accepted) && dispatched == old(dispatched)
      ensures old(closing) ==> reader.Exited?
      ensures !old(closing) ==>
                if |dispatched| < |accepted| then reader == Dispatching(accepted[|dispatched|]) else reader == Waiting
    {
      hide Run;
      RunMore(events, Lock);
      StepInv(Model(), Lock);
      events := events + [Lock];
      if closing {
        reader := Exited;
        return;
      }
      if |msgDispatchQueue| > 0 {
        reader := Dispatching(msgDispatchQueue[0]);
        msgDispatchQueue := msgDispatchQueue[1..];
      } else {
        reader := Waiting;
      }
    }

    /** The message that was taken goes to the protocol: it is the next of those accepted. */
    method DispatchMsgToProtocol()
      requires Valid() && Possible(Model(), Dispatch)
      modifies this
      ensures Valid() && events == old(events) + [Dispatch]
      ensures accepted == old(accepted) && |old(dispatched)| < |accepted|
      ensures dispatched == old(dispatched) + [accepted[|old(dispatched)|]] && reader.Top?
    {
      hide Run;
      RunMore(events, Dispatch);
      StepInv(Model(), Dispatch);
      events := events + [Dispatch];
      dispatched := dispatched + [reader.msg];
      late := late + if closing then 1 else 0;
      reader := Top;
    }

    /** The wait channel gives a token or is closed; no message is lost or taken. */
    method WakeUp()
      requires Valid() && Possible(Model(), Wake)
      modifies this
      ensures Valid() && events == old(events) + [Wake]
      ensures accepted == old(accepted) && dispatched == old(dispatched) && reader.Top?
    {
      hide Run;
      RunMore(events, Wake);
      StepInv(Model(), Wake);
      events := events + [Wake];
      reader := Top;
      msgDispatchQueueWait := false;
    }
  }
}
