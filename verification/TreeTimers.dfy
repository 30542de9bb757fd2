/**
 The store of trees one step finer: every planned removal has a timer of its own,
 which fires first and gets the lock later, and closing waits for all timers while it
 holds the lock.
 */
module TreeTimers {
  import opened Wrappers
  import opened TreeStorage

  /**
   - cancellations: the timer of each planned removal
   - waiting: the timers that run, with the id they remove
   - fired: the timers that have expired and want the lock
   - next: the number of the next timer
   - closing: whether Close holds the lock and waits for the timers
   */
  datatype Fine<T> = Fine(trees: map<nat, Option<T>>, cancellations: map<nat, nat>, closed: bool,
                          waiting: map<nat, nat>, fired: map<nat, nat>, next: nat, closing: bool)

  function Begin<T>(): Fine<T> {
    Fine(map[], map[], false, map[], map[], 0, false)
  }

  /** The state without the timers. */
  function Model<T>(f: Fine<T>): Storage<T> {
    Storage(f.trees, f.cancellations.Keys, f.closed)
  }

  datatype Event<T> = Ask(request: Request<T>) | Fire(timer: nat) | Delete(timer: nat) | WaitEnds

  /** A timer whose channel is closed ends without effect. */
  function Cancel<T>(f: Fine<T>, id: nat): Fine<T> {
    if id !in f.cancellations then f
    else f.(waiting := f.waiting - {f.cancellations[id]}, cancellations := f.cancellations - {id})
  }

  function Plan<T>(f: Fine<T>, id: nat): Fine<T> {
    if f.closed || id in f.cancellations then f
    else f.(cancellations := f.cancellations[id := f.next], waiting := f.waiting[f.next := id], next := f.next + 1)
  }

  function CloseDown<T>(f: Fine<T>): Fine<T> {
    f.(closed := true, cancellations := map[], waiting := f.waiting - f.cancellations.Values, closing := true)
  }

  function ServeFine<T>(f: Fine<T>, r: Request<T>): Fine<T> {
    match r
    case ToRegister(id) => f.(trees := f.trees[id := None])
    case ToUnregister(id) => if id in f.trees && f.trees[id].Some? then f else f.(trees := f.trees - {id})
    case ToRefresh(id) => Cancel(f, id)
    case ToSet(id, tree) => Cancel(f, id).(trees := f.trees[id := Some(tree)])
    case ToRemove(id) => Plan(f, id)
    case ToExpire(_) => f
    case ToClose => CloseDown(f)
  }

  predicate Possible<T>(f: Fine<T>, e: Event<T>) {
    match e
    case Ask(r) => !f.closing && !r.ToExpire?
    case Fire(k) => k in f.waiting
    case Delete(k) => !f.closing && k in f.fired
    case WaitEnds => f.closing && f.waiting == map[] && f.fired == map[]
  }

  /** An event that is not possible changes nothing. */
  function Step<T>(f: Fine<T>, e: Event<T>): Fine<T> {
    if !Possible(f, e) then f
    else
      match e
      case Ask(r) => ServeFine(f, r)
      case Fire(k) => f.(waiting := f.waiting - {k}, fired := f.fired[k := f.waiting[k]])
      case Delete(k) =>
        f.(trees := f.trees - {f.fired[k]}, cancellations := f.cancellations - {f.fired[k]}, fired := f.fired - {k})
      case WaitEnds => f.(closing := false)
  }

  function Run<T>(f: Fine<T>, es: seq<Event<T>>): Fine<T> {
    if es == [] then f else Step(Run(f, es[..|es| - 1]), es[|es| - 1])
  }

  // ----- the store without timers is what this does when a timer gets the lock at once

  lemma {:induction false} AskIsServe<T>(f: Fine<T>, r: Request<T>)
    requires !r.ToExpire?
    ensures Model(ServeFine(f, r)) == Serve(Model(f), r)
  {
    assert r.ToRemove? && r.id in f.cancellations ==> f.cancellations.Keys + {r.id} == f.cancellations.Keys;
    assert r.ToRefresh? || r.ToSet? ==> Cancel(f, r.id).cancellations.Keys == f.cancellations.Keys - {r.id};
  }

  lemma {:induction false} FireIsExpire<T>(f: Fine<T>, id: nat)
    requires id in f.cancellations && f.cancellations[id] in f.waiting && !f.closing
    requires f.waiting[f.cancellations[id]] == id
    ensures var k := f.cancellations[id]; Model(Step(Step(f, Fire(k)), Delete(k))) == Expire(Model(f), id)
  {
  }

  // ----- the invariant

  /** The timer of a planned removal runs or has fired, for that id. */
  ghost predicate Inv<T>(f: Fine<T>) {
    && (forall k :: k in f.waiting || k in f.fired ==> k < f.next)
    && (forall k :: k in f.waiting ==> k !in f.fired)
    && (forall id :: id in f.cancellations ==> HasTimer(f, id))
  }

  predicate Running<T>(f: Fine<T>, id: nat, k: nat) {
    (k in f.waiting && f.waiting[k] == id) || (k in f.fired && f.fired[k] == id)
  }

  predicate HasTimer<T>(f: Fine<T>, id: nat)
    requires id in f.cancellations
  {
    var k := f.cancellations[id];
    Running(f, id, k)
  }

  lemma {:induction false} PlanInv<T>(f: Fine<T>, id: nat)
    requires Inv(f)
    ensures Inv(Plan(f, id))
  {
    var g := Plan(f, id);
    forall i | i in g.cancellations ensures HasTimer(g, i) {
      if i in f.cancellations {
        assert HasTimer(f, i);
      }
    }
  }

  /** Timers that end, and plans that are dropped, leave the others as they are. */
  lemma {:induction false} FewerInv<T>(f: Fine<T>, g: Fine<T>)
    requires Inv(f) && g.next == f.next
    requires forall k :: k in g.waiting ==> k in f.waiting && g.waiting[k] == f.waiting[k]
    requires forall k :: k in g.fired ==> k in f.fired && g.fired[k] == f.fired[k]
    requires forall id :: id in g.cancellations ==> id in f.cancellations && HasTimer(g, id)
    ensures Inv(g)
  {
  }

  /** No two plans have the same timer. */
  lemma {:induction false} OneTimerEach<T>(f: Fine<T>, i: nat, j: nat)
    requires Inv(f) && i in f.cancellations && j in f.cancellations && i != j
    ensures f.cancellations[i] != f.cancellations[j]
  {
    assert HasTimer(f, i) && HasTimer(f, j);
  }

  lemma {:induction false} CancelInv<T>(f: Fine<T>, id: nat)
    requires Inv(f)
    ensures Inv(Cancel(f, id))
  {
    var g := Cancel(f, id);
    forall i | i in g.cancellations ensures HasTimer(g, i) {
      assert HasTimer(f, i);
      if id in f.cancellations {
        OneTimerEach(f, i, id);
      }
    }
    FewerInv(f, g);
  }

  lemma {:induction false} DeleteInv<T>(f: Fine<T>, k: nat)
    requires Inv(f) && k in f.fired
    ensures Inv(f.(cancellations := f.cancellations - {f.fired[k]}, fired := f.fired - {k}))
  {
    var g := f.(cancellations := f.cancellations - {f.fired[k]}, fired := f.fired - {k});
    forall i | i in g.cancellations ensures HasTimer(g, i) {
      assert HasTimer(f, i);
    }
    FewerInv(f, g);
  }

  /** The invariant does not look at the trees. */
  lemma {:induction false} TreesInv<T>(f: Fine<T>, g: Fine<T>)
    requires Inv(f) && g.cancellations == f.cancellations
    requires g.waiting == f.waiting && g.fired == f.fired && g.next == f.next
    ensures Inv(g)
  {
    forall i | i in g.cancellations ensures HasTimer(g, i) {
      assert HasTimer(f, i);
    }
  }

  lemma {:induction false} FireInv<T>(f: Fine<T>, k: nat)
    requires Inv(f) && k in f.waiting
    ensures Inv(f.(waiting := f.waiting - {k}, fired := f.fired[k := f.waiting[k]]))
  {
    var g := f.(waiting := f.waiting - {k}, fired := f.fired[k := f.waiting[k]]);
    forall i | i in g.cancellations ensures HasTimer(g, i) {
      assert HasTimer(f, i);
    }
  }

  lemma {:induction false} AskInv<T>(f: Fine<T>, r: Request<T>)
    requires Inv(f)
    ensures Inv(ServeFine(f, r))
  {
    match r
    case ToRemove(id) => PlanInv(f, id);
    case ToRefresh(id) => CancelInv(f, id);
    case ToSet(id, _) =>
      CancelInv(f, id);
      TreesInv(Cancel(f, id), ServeFine(f, r));
    case ToClose => FewerInv(f, ServeFine(f, r));
    case _ => TreesInv(f, ServeFine(f, r));
  }

  lemma {:induction false} StepInv<T>(f: Fine<T>, e: Event<T>)
    requires Inv(f)
    ensures Inv(Step(f, e))
  {
    hide Inv;
    if Possible(f, e) {
      match e
      case Fire(k) => FireInv(f, k);
      case Ask(r) => AskInv(f, r);
      case Delete(k) =>
        DeleteInv(f, k);
        TreesInv(f.(cancellations := f.cancellations - {f.fired[k]}, fired := f.fired - {k}), Step(f, e));
      case WaitEnds => TreesInv(f, Step(f, e));
    }
  }

  lemma {:induction false} RunInv<T>(f: Fine<T>, es: seq<Event<T>>)
    requires Inv(f)
    ensures Inv(Run(f, es))
  {
    if es != [] {
      RunInv(f, es[..|es| - 1]);
      StepInv(Run(f, es[..|es| - 1]), es[|es| - 1]);
    }
  }

  // ----- when a tree is safe

  ghost predicate NoTimer<T>(f: Fine<T>, id: nat) {
    forall k :: !Running(f, id, k)
  }

  ghost predicate Stored<T>(f: Fine<T>, id: nat) {
    id in f.trees && f.trees[id].Some? && id !in f.cancellations && NoTimer(f, id)
  }

  ghost predicate NeverEndangered<T>(es: seq<Event<T>>, id: nat) {
    forall i :: 0 <= i < |es| && es[i].Ask? ==> !Endangers(es[i].request, id)
  }

  lemma {:induction false} AskKeeps<T>(f: Fine<T>, id: nat, r: Request<T>)
    requires Stored(f, id) && !Endangers(r, id)
    ensures Stored(ServeFine(f, r), id)
  {
    var g := ServeFine(f, r);
    forall k ensures !Running(g, id, k) {
      assert !Running(f, id, k);
    }
  }

  lemma {:induction false} TimerKeeps<T>(f: Fine<T>, id: nat, e: Event<T>)
    requires Stored(f, id) && !e.Ask? && Possible(f, e)
    ensures Stored(Step(f, e), id)
  {
    var g := Step(f, e);
    forall k ensures !Running(g, id, k) {
      assert !Running(f, id, k);
    }
    if e.Delete? {
      assert !Running(f, id, e.timer);
    }
  }

  lemma {:induction false} StepKeeps<T>(f: Fine<T>, id: nat, e: Event<T>)
    requires Stored(f, id) && (e.Ask? ==> !Endangers(e.request, id))
    ensures Stored(Step(f, e), id)
  {
    hide Stored;
    if Possible(f, e) {
      if e.Ask? {
        AskKeeps(f, id, e.request);
      } else {
        TimerKeeps(f, id, e);
      }
    }
  }

  lemma {:induction false} RunKeeps<T>(f: Fine<T>, id: nat, es: seq<Event<T>>)
    requires Stored(f, id) && NeverEndangered(es, id)
    ensures Stored(Run(f, es), id)
  {
    if es != [] {
      RunKeeps(f, id, es[..|es| - 1]);
      StepKeeps(Run(f, es[..|es| - 1]), id, es[|es| - 1]);
    }
  }

  lemma {:induction false} RunTwo<T>(f: Fine<T>, a: Event<T>, b: Event<T>)
    ensures Run(f, [a]) == Step(f, a) && Run(f, [a, b]) == Step(Step(f, a), b)
  {
    assert [a][..0] == [] && [a, b][..1] == [a];
  }

  /**
   A tree whose removal is not planned stays in every run that does not endanger it
   if and only if no timer of its id is left: neither one that has fired, nor one whose
   plan was taken away by an older timer.
   */
  lemma {:induction false} SafeIffNoTimer<T>(f: Fine<T>, id: nat)
    requires !f.closing && id in f.trees && f.trees[id].Some? && id !in f.cancellations
    ensures (forall es :: NeverEndangered(es, id) ==> Get(Model(Run(f, es)), id).Some?) <==> NoTimer(f, id)
  {
    if NoTimer(f, id) {
      forall es | NeverEndangered(es, id)
        ensures Get(Model(Run(f, es)), id).Some?
      {
        RunKeeps(f, id, es);
      }
    } else {
      var k :| Running(f, id, k);
      RunTwo(f, Fire(k), Delete(k));
      RunTwo(f, Delete(k), Delete(k));
      var es: seq<Event<T>> := if k in f.fired && f.fired[k] == id then [Delete(k)] else [Fire(k), Delete(k)];
      assert NeverEndangered(es, id) && Get(Model(Run(f, es)), id).None?;
    }
  }

  /** Whatever timer of its id runs is the planned one, and has not fired. */
  ghost predicate OnlyPlanned<T>(f: Fine<T>, id: nat) {
    forall k :: Running(f, id, k) ==> id in f.cancellations && f.cancellations[id] == k && k in f.waiting
  }

  lemma {:induction false} CancelLeaves<T>(f: Fine<T>, id: nat)
    requires Inv(f)
    ensures NoTimer(Cancel(f, id), id) <==> OnlyPlanned(f, id)
  {
    var g := Cancel(f, id);
    forall k
      ensures Running(g, id, k) <==>
              Running(f, id, k) && !(id in f.cancellations && f.cancellations[id] == k && k in f.waiting)
    {
    }
  }

  /**
   A tree that is asked for or set is safe from then on if and only if no timer of its id
   is left but the planned one, and that has not fired.
   */
  lemma {:induction false} RefreshSavesIff<T>(f: Fine<T>, id: nat, r: Request<T>)
    requires Inv(f) && !f.closing
    requires (r == ToRefresh(id) && id in f.trees && f.trees[id].Some?) || (r.ToSet? && r.id == id)
    ensures (forall es :: NeverEndangered(es, id) ==> Get(Model(Run(Step(f, Ask(r)), es)), id).Some?) <==>
            OnlyPlanned(f, id)
  {
    CancelLeaves(f, id);
    var g := Step(f, Ask(r));
    assert g.waiting == Cancel(f, id).waiting && g.fired == Cancel(f, id).fired;
    assert NoTimer(g, id) <==> NoTimer(Cancel(f, id), id) by {
      assert forall k :: Running(g, id, k) <==> Running(Cancel(f, id), id, k);
    }
    assert !g.closing && id in g.trees && g.trees[id].Some? && id !in g.cancellations;
    hide NoTimer, OnlyPlanned, Step, Inv;
    SafeIffNoTimer(g, id);
  }

  lemma {:induction false} RunNext<T>(f: Fine<T>, es: seq<Event<T>>, k: nat)
    requires k < |es|
    ensures Run(f, es[..k + 1]) == Step(Run(f, es[..k]), es[k])
  {
    assert es[..k + 1][..k] == es[..k];
  }

  /** A run after which a tree is not safe: its removal is planned, the timer fires, and a refresh comes too late. */
  lemma {:induction false} CancelledTooLate<T>(id: nat, tree: T, es: seq<Event<T>>)
    requires es == [Ask(ToSet(id, tree)), Ask(ToRemove(id)), Fire(0), Ask(ToRefresh(id))]
    ensures var f := Run(Begin(), es);
            Get(Model(f), id) == Some(tree) && id !in f.cancellations && Running(f, id, 0)
  {
    RunNext(Begin(), es, 0);
    RunNext(Begin(), es, 1);
    RunNext(Begin(), es, 2);
    RunNext(Begin(), es, 3);
    assert es[..4] == es && es[..0] == [];
  }

  // ----- when Close returns

  /** Timers that Close cannot stop: those that have fired, and those that no plan names. */
  ghost predicate NoStrays<T>(f: Fine<T>) {
    && f.fired == map[]
    && forall k :: k in f.waiting ==> f.waiting[k] in f.cancellations && f.cancellations[f.waiting[k]] == k
  }

  lemma {:induction false} LeftRunning<T>(f: Fine<T>)
    requires Inv(f)
    ensures CloseDown(f).waiting == map[] && CloseDown(f).fired == map[] <==> NoStrays(f)
  {
    var g := CloseDown(f);
    if NoStrays(f) {
      forall k | k in f.waiting ensures k in f.cancellations.Values {
        assert f.waiting[k] in f.cancellations.Keys;
      }
      assert g.waiting == map[];
    }
    if g.waiting == map[] && g.fired == map[] {
      forall k | k in f.waiting ensures f.waiting[k] in f.cancellations && f.cancellations[f.waiting[k]] == k {
        assert k !in g.waiting.Keys;
        var id :| id in f.cancellations && f.cancellations[id] == k;
        assert HasTimer(f, id);
      }
    }
  }

  /** While Close holds the lock a timer can fire, but none ends. */
  lemma {:induction false} StaysStuck<T>(f: Fine<T>, es: seq<Event<T>>)
    requires f.closing && (f.waiting != map[] || f.fired != map[])
    ensures var g := Run(f, es); g.closing && (g.waiting != map[] || g.fired != map[])
  {
    if es != [] {
      StaysStuck(f, es[..|es| - 1]);
      var g, e := Run(f, es[..|es| - 1]), es[|es| - 1];
      if e.Fire? && e.timer in g.waiting {
        assert e.timer in Step(g, e).fired;
      }
    }
  }

  /** Close can return if and only if no timer has fired and every timer that runs is the one planned for its id. */
  lemma {:induction false} CloseReturnsIff<T>(f: Fine<T>)
    requires Inv(f) && !f.closing
    ensures (exists es :: !Run(Step(f, Ask(ToClose)), es).closing) <==> NoStrays(f)
  {
    var g := Step(f, Ask(ToClose));
    assert g == CloseDown(f);
    LeftRunning(f);
    if NoStrays(f) {
      RunTwo(g, WaitEnds, WaitEnds);
      assert !Run(g, [WaitEnds]).closing;
    } else {
      forall es ensures Run(g, es).closing {
        StaysStuck(g, es);
      }
    }
  }
}
