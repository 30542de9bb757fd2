/**
 Message aggregation at a tree node: messages of an aggregated type are held back
 until there is one for every child; messages from the parent pass at once.
 */
module Aggregation {
  import opened Wrappers

  datatype Msg<T> = Msg(kind: nat, from: nat, body: T)

  /** The place of the node in its tree, and the types it wants aggregated. */
  datatype Place = Place(parent: Option<nat>, children: nat, aggregated: set<nat>)

  /** One message joins a queue; a queue as long as the list of children is handed out. */
  function Join<M>(children: nat, queue: seq<M>, m: M): (seq<M>, Option<seq<M>>) {
    var msgs := queue + [m];
    if |msgs| == children then ([], Some(msgs)) else (msgs, None)
  }

  predicate Direct<T>(p: Place, m: Msg<T>) {
    (p.parent.Some? && m.from == p.parent.value) || m.kind !in p.aggregated
  }

  /** Arrivals that share a queue: all direct messages, or one aggregated type. */
  datatype Lane = DirectLane | TypeLane(kind: nat)

  function LaneOf<T>(p: Place, m: Msg<T>): Lane {
    if Direct(p, m) then DirectLane else TypeLane(m.kind)
  }

  type Queues<T> = map<nat, seq<Msg<T>>>

  function QueueAt<T>(q: Queues<T>, lane: Lane): seq<Msg<T>> {
    if lane.TypeLane? && lane.kind in q then q[lane.kind] else []
  }

  /** What one arrival does to the queues, and the batch it releases, if any. */
  function Arrive<T>(p: Place, q: Queues<T>, m: Msg<T>): (Queues<T>, Option<seq<Msg<T>>>) {
    if Direct(p, m) then (q, Some([m]))
    else
      var (rest, batch) := Join(p.children, QueueAt(q, TypeLane(m.kind)), m);
      (if batch.Some? then q - {m.kind} else q[m.kind := rest], batch)
  }

  class Aggregator<T> {
    const place: Place
    var msgQueue: Queues<T>

    constructor (place: Place)
      ensures this.place == place && msgQueue == map[]
    {
      this.place := place;
      msgQueue := map[];
    }

    /** `done` tells whether a batch is handed out. */
    method Aggregate(m: Msg<T>) returns (batch: seq<Msg<T>>, done: bool)
      modifies this
      ensures msgQueue == Arrive(place, old(msgQueue), m).0
      ensures Arrive(place, old(msgQueue), m).1 == if done then Some(batch) else None
      ensures place.parent == Some(m.from) || m.kind !in place.aggregated ==>
                done && batch == [m] && msgQueue == old(msgQueue)
      ensures place.parent != Some(m.from) && m.kind in place.aggregated ==>
                var waiting := (if m.kind in old(msgQueue) then old(msgQueue)[m.kind] else []) + [m];
                && done == (|waiting| == place.children) && batch == (if done then waiting else [])
                && msgQueue == if done then old(msgQueue) - {m.kind} else old(msgQueue)[m.kind := waiting]
    {
      var fromParent := place.parent.Some? && m.from == place.parent.value;
      if fromParent || m.kind !in place.aggregated {
        return [m], true;
      }
      if m.kind !in msgQueue {
        msgQueue := msgQueue[m.kind := []];
      }
      var msgs := msgQueue[m.kind] + [m];
      msgQueue := msgQueue[m.kind := msgs];
      if |msgs| == place.children {
        msgQueue := msgQueue - {m.kind};
        return msgs, true;
      }
      return [], false;
    }
  }

  // ----- a whole sequence of arrivals

  datatype History<T> = History(queues: Queues<T>, batches: seq<seq<Msg<T>>>)

  function Advance<T>(p: Place, h: History<T>, m: Msg<T>): History<T> {
    var (q, batch) := Arrive(p, h.queues, m);
    History(q, if batch.Some? then h.batches + [batch.value] else h.batches)
  }

  function Process<T>(p: Place, arrivals: seq<Msg<T>>): History<T> {
    if arrivals == [] then History(map[], [])
    else
      Advance(p, Process(p, arrivals[..|arrivals| - 1]), arrivals[|arrivals| - 1])
  }

  /** The arrivals of one lane, in order. */
  function InLane<T>(p: Place, lane: Lane, s: seq<Msg<T>>): seq<Msg<T>> {
    if s == [] then []
    else
      var rest := InLane(p, lane, s[..|s| - 1]);
      if LaneOf(p, s[|s| - 1]) == lane then rest + [s[|s| - 1]] else rest
  }

  /** The messages of the batches of one lane, in order of delivery. */
  function Delivered<T>(p: Place, lane: Lane, batches: seq<seq<Msg<T>>>): seq<Msg<T>> {
    if batches == [] then []
    else
      var last := batches[|batches| - 1];
      var rest := Delivered(p, lane, batches[..|batches| - 1]);
      if last != [] && LaneOf(p, last[0]) == lane then rest + last else rest
  }

  /** A batch holds messages of one lane: a single direct one, or one for every child. */
  predicate WholeBatch<T>(p: Place, b: seq<Msg<T>>) {
    && b != []
    && (forall i :: 0 <= i < |b| ==> LaneOf(p, b[i]) == LaneOf(p, b[0]))
    && |b| == if Direct(p, b[0]) then 1 else p.children
  }

  predicate QueuesPure<T>(p: Place, q: Queues<T>) {
    forall k, i :: k in q && 0 <= i < |q[k]| ==> LaneOf(p, q[k][i]) == TypeLane(k)
  }

  lemma {:induction false} BatchesWhole<T>(p: Place, arrivals: seq<Msg<T>>)
    ensures QueuesPure(p, Process(p, arrivals).queues)
    ensures forall i :: 0 <= i < |Process(p, arrivals).batches| ==> WholeBatch(p, Process(p, arrivals).batches[i])
  {
    if arrivals != [] {
      BatchesWhole(p, arrivals[..|arrivals| - 1]);
      var h, m := Process(p, arrivals[..|arrivals| - 1]), arrivals[|arrivals| - 1];
      var (q, batch) := Arrive(p, h.queues, m);
      if batch.Some? {
        assert WholeBatch(p, batch.value);
      }
    }
  }

  lemma {:induction false} DeliveredOne<T>(p: Place, lane: Lane, bs: seq<seq<Msg<T>>>, b: seq<Msg<T>>)
    requires b != []
    ensures Delivered(p, lane, bs + [b]) ==
            if LaneOf(p, b[0]) == lane then Delivered(p, lane, bs) + b else Delivered(p, lane, bs)
  {
    assert (bs + [b])[..|bs + [b]| - 1] == bs;
  }

  /** Delivered messages of a lane, then its queue. */
  function Line<T>(p: Place, lane: Lane, h: History<T>): seq<Msg<T>> {
    Delivered(p, lane, h.batches) + QueueAt(h.queues, lane)
  }

  lemma {:induction false} LineGrows<T>(p: Place, h: History<T>, m: Msg<T>, lane: Lane)
    requires QueuesPure(p, h.queues)
    ensures Line(p, lane, Advance(p, h, m)) == if LaneOf(p, m) == lane then Line(p, lane, h) + [m] else Line(p, lane, h)
  {
    var (q, batch) := Arrive(p, h.queues, m);
    if batch.Some? {
      DeliveredOne(p, lane, h.batches, batch.value);
      assert LaneOf(p, batch.value[0]) == LaneOf(p, m);
    }
    hide Delivered;
    if LaneOf(p, m) == lane && lane.TypeLane? {
      assert Line(p, lane, h) + [m] == Delivered(p, lane, h.batches) + (QueueAt(h.queues, lane) + [m]);
    }
  }

  /** In every lane the delivered messages and then the queue are the arrivals, in order. */
  lemma {:induction false} NothingLostOrReordered<T>(p: Place, arrivals: seq<Msg<T>>, lane: Lane)
    ensures Line(p, lane, Process(p, arrivals)) == InLane(p, lane, arrivals)
  {
    if arrivals != [] {
      var before := arrivals[..|arrivals| - 1];
      NothingLostOrReordered(p, before, lane);
      BatchesWhole(p, before);
      LineGrows(p, Process(p, before), arrivals[|arrivals| - 1], lane);
    }
  }

  /** A queue never reaches the length at which it would have been handed out. */
  lemma {:induction false} QueueStaysShort<T>(p: Place, arrivals: seq<Msg<T>>, lane: Lane)
    requires p.children > 0
    ensures |QueueAt(Process(p, arrivals).queues, lane)| < p.children
  {
    if arrivals != [] {
      QueueStaysShort(p, arrivals[..|arrivals| - 1], lane);
    }
  }

  // ----- the parent and the types, one message at a time

  /** A message from the parent, or of a type that is not aggregated, is handed out at once, alone. */
  lemma {:induction false} PassesAtOnce<T>(p: Place, q: Queues<T>, m: Msg<T>)
    requires p.parent == Some(m.from) || m.kind !in p.aggregated
    ensures Arrive(p, q, m) == (q, Some([m]))
  {
  }

  /** Any other message joins those of its type, and they are handed out when there is one for every child. */
  lemma {:induction false} JoinsItsType<T>(p: Place, q: Queues<T>, m: Msg<T>)
    requires p.parent != Some(m.from) && m.kind in p.aggregated
    ensures var waiting := (if m.kind in q then q[m.kind] else []) + [m];
            Arrive(p, q, m) == if |waiting| == p.children then (q - {m.kind}, Some(waiting))
                               else (q[m.kind := waiting], None)
  {
  }

  /** In every batch a message from the parent, or of a type that is not aggregated, is alone. */
  lemma {:induction false} ParentIsAlone<T>(p: Place, arrivals: seq<Msg<T>>, i: nat, j: nat)
    requires i < |Process(p, arrivals).batches| && j < |Process(p, arrivals).batches[i]|
    ensures var b := Process(p, arrivals).batches[i];
            if p.parent == Some(b[j].from) || b[j].kind !in p.aggregated then |b| == 1
            else |b| == p.children && b[j].kind == b[0].kind
  {
    BatchesWhole(p, arrivals);
    hide Process;
    var b := Process(p, arrivals).batches[i];
    assert WholeBatch(p, b);
    assert LaneOf(p, b[j]) == LaneOf(p, b[0]);
  }

  /** The messages of one type that are not from the parent, in order. */
  function FromBelow<T>(p: Place, kind: nat, ms: seq<Msg<T>>): seq<Msg<T>> {
    if ms == [] then []
    else
      var m := ms[|ms| - 1];
      FromBelow(p, kind, ms[..|ms| - 1]) + if m.kind == kind && p.parent != Some(m.from) then [m] else []
  }

  /** The messages that are not held back, in order. */
  function NotHeld<T>(p: Place, ms: seq<Msg<T>>): seq<Msg<T>> {
    if ms == [] then []
    else
      var m := ms[|ms| - 1];
      NotHeld(p, ms[..|ms| - 1]) + if p.parent == Some(m.from) || m.kind !in p.aggregated then [m] else []
  }

  /** The batches one after the other. */
  function Flat<T>(bs: seq<seq<Msg<T>>>): seq<Msg<T>> {
    if bs == [] then [] else Flat(bs[..|bs| - 1]) + bs[|bs| - 1]
  }

  lemma {:induction false} FiltersAppend<T>(p: Place, kind: nat, a: seq<Msg<T>>, b: seq<Msg<T>>)
    ensures FromBelow(p, kind, a + b) == FromBelow(p, kind, a) + FromBelow(p, kind, b)
    ensures NotHeld(p, a + b) == NotHeld(p, a) + NotHeld(p, b)
  {
    if b == [] {
      assert a + b == a;
    } else {
      FiltersAppend(p, kind, a, b[..|b| - 1]);
      assert (a + b)[..|a + b| - 1] == a + b[..|b| - 1];
    }
  }

  lemma {:induction false} AllBelow<T>(p: Place, kind: nat, k: nat, ms: seq<Msg<T>>)
    requires k in p.aggregated
    requires forall i :: 0 <= i < |ms| ==> ms[i].kind == k && p.parent != Some(ms[i].from)
    ensures FromBelow(p, kind, ms) == (if kind == k then ms else []) && NotHeld(p, ms) == []
  {
    if ms != [] {
      var rest, m := ms[..|ms| - 1], ms[|ms| - 1];
      AllBelow(p, kind, k, rest);
      assert FromBelow(p, kind, ms) == FromBelow(p, kind, rest) + if kind == k then [m] else [];
      assert NotHeld(p, ms) == NotHeld(p, rest) + [];
      hide FromBelow, NotHeld;
      assert ms == rest + [m];
    }
  }

  /** Each queue holds messages of its type that are not from the parent. */
  ghost predicate HeldRightly<T>(p: Place, q: Queues<T>) {
    forall k :: k in q ==>
      && k in p.aggregated
      && forall i :: 0 <= i < |q[k]| ==> q[k][i].kind == k && p.parent != Some(q[k][i].from)
  }

  function WaitingOf<T>(q: Queues<T>, kind: nat): seq<Msg<T>> {
    if kind in q then q[kind] else []
  }

  lemma {:induction false} FlatMore<T>(bs: seq<seq<Msg<T>>>, b: seq<Msg<T>>)
    ensures Flat(bs + [b]) == Flat(bs) + b
  {
    assert (bs + [b])[..|bs + [b]| - 1] == bs;
  }

  /** The messages of one type that are not from the parent: those handed out, then those that wait. */
  function BelowOf<T>(p: Place, kind: nat, h: History<T>): seq<Msg<T>> {
    FromBelow(p, kind, Flat(h.batches)) + WaitingOf(h.queues, kind)
  }

  lemma {:induction false} HandedOut<T>(p: Place, kind: nat, bs: seq<seq<Msg<T>>>, b: seq<Msg<T>>)
    ensures FromBelow(p, kind, Flat(bs + [b])) == FromBelow(p, kind, Flat(bs)) + FromBelow(p, kind, b)
    ensures NotHeld(p, Flat(bs + [b])) == NotHeld(p, Flat(bs)) + NotHeld(p, b)
  {
    FlatMore(bs, b);
    FiltersAppend(p, kind, Flat(bs), b);
  }

  lemma {:induction false} OnlyOne<T>(p: Place, kind: nat, m: Msg<T>)
    requires p.parent == Some(m.from) || m.kind !in p.aggregated
    ensures kind in p.aggregated ==> FromBelow(p, kind, [m]) == []
    ensures NotHeld(p, [m]) == [m]
  {
    assert [m][..0] == [] && FromBelow(p, kind, [m][..0]) == [] && NotHeld(p, [m][..0]) == [];
  }

  lemma {:induction false} PassKeeps<T>(p: Place, h: History<T>, m: Msg<T>, kind: nat)
    requires p.parent == Some(m.from) || m.kind !in p.aggregated
    ensures var h' := Advance(p, h, m);
            && h'.queues == h.queues
            && (kind in p.aggregated ==> BelowOf(p, kind, h') == BelowOf(p, kind, h))
            && NotHeld(p, Flat(h'.batches)) == NotHeld(p, Flat(h.batches)) + [m]
  {
    PassesAtOnce(p, h.queues, m);
    assert Advance(p, h, m) == History(h.queues, h.batches + [[m]]);
    hide Advance, Flat, FromBelow, NotHeld;
    HandedOut(p, kind, h.batches, [m]);
    OnlyOne(p, kind, m);
    assert FromBelow(p, kind, Flat(h.batches)) + [] == FromBelow(p, kind, Flat(h.batches));
  }

  lemma {:induction false} JoinHeld<T>(p: Place, q: Queues<T>, m: Msg<T>)
    requires HeldRightly(p, q) && p.parent != Some(m.from) && m.kind in p.aggregated
    ensures HeldRightly(p, q - {m.kind}) && HeldRightly(p, q[m.kind := WaitingOf(q, m.kind) + [m]])
    ensures forall i :: 0 <= i < |WaitingOf(q, m.kind)| ==>
              var w := WaitingOf(q, m.kind)[i];
              w.kind == m.kind && p.parent != Some(w.from)
  {
  }

  /** The batch of all that wait is handed out. */
  lemma {:induction false} Release<T>(p: Place, h: History<T>, m: Msg<T>, kind: nat, waiting: seq<Msg<T>>)
    requires waiting == WaitingOf(h.queues, m.kind) + [m]
    requires FromBelow(p, kind, waiting) == (if kind == m.kind then waiting else []) && NotHeld(p, waiting) == []
    ensures var h' := History(h.queues - {m.kind}, h.batches + [waiting]);
            && BelowOf(p, kind, h') == BelowOf(p, kind, h) + (if m.kind == kind then [m] else [])
            && NotHeld(p, Flat(h'.batches)) == NotHeld(p, Flat(h.batches))
  {
    hide Flat, FromBelow, NotHeld;
    HandedOut(p, kind, h.batches, waiting);
    var out, w := FromBelow(p, kind, Flat(h.batches)), WaitingOf(h.queues, kind);
    if kind == m.kind {
      assert out + (w + [m]) + [] == out + w + [m];
    } else {
      assert WaitingOf(h.queues - {m.kind}, kind) == w;
      assert out + [] + w == out + w + [];
    }
  }

  lemma {:induction false} Hold<T>(p: Place, h: History<T>, m: Msg<T>, kind: nat)
    ensures var h' := History(h.queues[m.kind := WaitingOf(h.queues, m.kind) + [m]], h.batches);
            BelowOf(p, kind, h') == BelowOf(p, kind, h) + (if m.kind == kind then [m] else [])
  {
    hide Flat, FromBelow;
    var out, w := FromBelow(p, kind, Flat(h.batches)), WaitingOf(h.queues, kind);
    assert out + (w + [m]) == out + w + [m] && out + w + [] == out + w;
  }

  lemma {:induction false} JoinKeeps<T>(p: Place, h: History<T>, m: Msg<T>, kind: nat)
    requires HeldRightly(p, h.queues) && p.parent != Some(m.from) && m.kind in p.aggregated
    ensures var h' := Advance(p, h, m);
            && HeldRightly(p, h'.queues)
            && BelowOf(p, kind, h') == BelowOf(p, kind, h) + (if m.kind == kind then [m] else [])
            && NotHeld(p, Flat(h'.batches)) == NotHeld(p, Flat(h.batches))
  {
    hide HeldRightly, Arrive, BelowOf, Flat, NotHeld, FromBelow;
    JoinsItsType(p, h.queues, m);
    JoinHeld(p, h.queues, m);
    var waiting := WaitingOf(h.queues, m.kind) + [m];
    AllBelow(p, kind, m.kind, waiting);
    if |waiting| == p.children {
      Release(p, h, m, kind, waiting);
    } else {
      Hold(p, h, m, kind);
    }
  }

  /**
   For every type that is aggregated, the batches and then its queue hold its messages
   that are not from the parent, in the order of arrival; all others are handed out in
   the order of arrival.
   */
  lemma {:induction false} ArrivalsKept<T>(p: Place, arrivals: seq<Msg<T>>, kind: nat)
    ensures var h := Process(p, arrivals);
            && HeldRightly(p, h.queues)
            && (kind in p.aggregated ==>
                 FromBelow(p, kind, Flat(h.batches)) + WaitingOf(h.queues, kind) == FromBelow(p, kind, arrivals))
            && NotHeld(p, Flat(h.batches)) == NotHeld(p, arrivals)
  {
    if arrivals != [] {
      var before, m := arrivals[..|arrivals| - 1], arrivals[|arrivals| - 1];
      ArrivalsKept(p, before, kind);
      assert Process(p, arrivals) == Advance(p, Process(p, before), m);
      hide Advance, Flat, HeldRightly, Process;
      if p.parent == Some(m.from) || m.kind !in p.aggregated {
        PassKeeps(p, Process(p, before), m, kind);
      } else {
        JoinKeeps(p, Process(p, before), m, kind);
      }
    }
  }
}
