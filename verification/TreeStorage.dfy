/**
 The store of trees. A tree id is unknown, known without its tree (requested), or
 known with its tree. A removal is planned and happens when its timer expires,
 unless it is cancelled before.
 */
module TreeStorage {
  import opened Wrappers

  datatype Storage<T> = Storage(trees: map<nat, Option<T>>, planned: set<nat>, closed: bool)

  function Register<T>(s: Storage<T>, id: nat): Storage<T> {
    s.(trees := s.trees[id := None])
  }

  /** A tree that was set in the meantime is kept. */
  function Unregister<T>(s: Storage<T>, id: nat): Storage<T> {
    if id in s.trees && s.trees[id].Some? then s else s.(trees := s.trees - {id})
  }

  predicate IsRegistered<T>(s: Storage<T>, id: nat) {
    id in s.trees
  }

  function Get<T>(s: Storage<T>, id: nat): Option<T> {
    if id in s.trees then s.trees[id] else None
  }

  function CancelDeletion<T>(s: Storage<T>, id: nat): Storage<T> {
    s.(planned := s.planned - {id})
  }

  function Set<T>(s: Storage<T>, id: nat, tree: T): Storage<T> {
    var s := CancelDeletion(s, id);
    s.(trees := s.trees[id := Some(tree)])
  }

  function Remove<T>(s: Storage<T>, id: nat): Storage<T> {
    if s.closed then s else s.(planned := s.planned + {id})
  }

  /** The timer of a planned removal expires. */
  function Expire<T>(s: Storage<T>, id: nat): Storage<T> {
    if id !in s.planned then s else s.(trees := s.trees - {id}, planned := s.planned - {id})
  }

  function Close<T>(s: Storage<T>): Storage<T> {
    s.(closed := true, planned := {})
  }

  class Store<T> {
    var trees: map<nat, Option<T>>
    var cancellations: map<nat, nat>
    var closed: bool

    /** The state without the identity of the cancellation channels. */
    function Model(): Storage<T>
      reads this
    {
      Storage(trees, cancellations.Keys, closed)
    }

    constructor ()
      ensures Model() == Storage(map[], {}, false)
    {
      trees := map[];
      cancellations := map[];
      closed := false;
    }

    method RegisterId(id: nat)
      modifies this
      ensures Model() == Register(old(Model()), id)
    {
      trees := trees[id := None];
    }

    method UnregisterId(id: nat)
      modifies this
      ensures Model() == Unregister(old(Model()), id)
    {
      if id !in trees || trees[id].None? {
        trees := trees - {id};
      }
    }

    method Cancel(id: nat)
      modifies this
      ensures Model() == CancelDeletion(old(Model()), id)
    {
      if id in cancellations {
        cancellations := cancellations - {id};
      }
    }

    method GetAndRefresh(id: nat) returns (tree: Option<T>)
      modifies this
      ensures Model() == CancelDeletion(old(Model()), id)
      ensures tree == Get(Model(), id)
    {
      Cancel(id);
      tree := if id in trees then trees[id] else None;
    }

    method SetTree(id: nat, tree: T)
      modifies this
      ensures Model() == Set(old(Model()), id, tree)
    {
      Cancel(id);
      trees := trees[id := Some(tree)];
    }

    /** Plans a removal; `channel` is the new cancellation channel. */
    method RemoveTree(id: nat, channel: nat)
      modifies this
      ensures Model() == Remove(old(Model()), id)
    {
      if closed || id in cancellations {
        return;
      }
      cancellations := cancellations[id := channel];
    }

    method TimerExpires(id: nat)
      modifies this
      ensures Model() == Expire(old(Model()), id)
    {
      if id in cancellations {
        trees := trees - {id};
        cancellations := cancellations - {id};
      }
    }

    method Shutdown()
      modifies this
      ensures Model() == Close(old(Model()))
    {
      closed := true;
      while cancellations != map[]
        invariant trees == old(trees) && closed
        decreases |cancellations|
      {
        var id :| id in cancellations;
        cancellations := cancellations - {id};
      }
    }
  }

  // ----- what a planned removal means

  datatype Request<T> =
    | ToRegister(id: nat)
    | ToUnregister(id: nat)
    | ToRefresh(id: nat)
    | ToSet(id: nat, tree: T)
    | ToRemove(id: nat)
    | ToExpire(id: nat)
    | ToClose

  function Serve<T>(s: Storage<T>, r: Request<T>): Storage<T> {
    match r
    case ToRegister(id) => Register(s, id)
    case ToUnregister(id) => Unregister(s, id)
    case ToRefresh(id) => CancelDeletion(s, id)
    case ToSet(id, tree) => Set(s, id, tree)
    case ToRemove(id) => Remove(s, id)
    case ToExpire(id) => Expire(s, id)
    case ToClose => Close(s)
  }

  function ServeAll<T>(s: Storage<T>, rs: seq<Request<T>>): Storage<T> {
    if rs == [] then s else Serve(ServeAll(s, rs[..|rs| - 1]), rs[|rs| - 1])
  }

  /** Requests for `id` after which its tree may be gone. */
  predicate Endangers<T>(r: Request<T>, id: nat) {
    (r.ToRegister? && r.id == id) || (r.ToRemove? && r.id == id)
  }

  /**
   A tree that is stored without a planned removal stays, whatever else is asked
   for, until its removal is planned or its id is registered anew.
   */
  lemma {:induction false} KeptUntilEndangered<T>(s: Storage<T>, id: nat, rs: seq<Request<T>>)
    requires id in s.trees && s.trees[id].Some? && id !in s.planned
    requires forall i :: 0 <= i < |rs| ==> !Endangers(rs[i], id)
    ensures var e := ServeAll(s, rs); id in e.trees && e.trees[id].Some? && id !in e.planned
  {
    if rs != [] {
      KeptUntilEndangered(s, id, rs[..|rs| - 1]);
    }
  }

  /**
   A failed request leaves no trace: the id that was registered for it is forgotten,
   unless its tree was set in the meantime.
   */
  lemma {:induction false} RegisterUndone<T>(s: Storage<T>, id: nat, tree: T)
    requires !IsRegistered(s, id)
    ensures Unregister(Register(s, id), id) == s
    ensures Unregister(Set(Register(s, id), id, tree), id) == Set(s, id, tree)
  {
    assert s.trees[id := None] - {id} == s.trees;
    assert s.trees[id := None][id := Some(tree)] == s.trees[id := Some(tree)];
  }

  // ----- GetRoster: a tree with the roster, in whatever order the map gives its trees

  datatype Found<T> = Panic | Nothing | Match(tree: T)

  /** `order` names every key once. */
  ghost predicate Enumerates(order: seq<nat>, keys: set<nat>) {
    (forall i, j :: 0 <= i < j < |order| ==> order[i] != order[j]) && forall id :: id in order <==> id in keys
  }

  /** The loop over the trees: it ends at the first match, and an id without a tree is a nil pointer. */
  function Scan<T>(trees: map<nat, Option<T>>, rosterOf: T -> nat, roster: nat, order: seq<nat>): Found<T>
    requires forall i :: 0 <= i < |order| ==> order[i] in trees
  {
    if order == [] then Nothing
    else
      match trees[order[0]]
      case None => Panic
      case Some(tree) => if rosterOf(tree) == roster then Match(tree) else Scan(trees, rosterOf, roster, order[1..])
  }

  lemma {:induction false} ScanFinds<T>(trees: map<nat, Option<T>>, rosterOf: T -> nat, roster: nat, order: seq<nat>)
    requires forall i :: 0 <= i < |order| ==> order[i] in trees && trees[order[i]].Some?
    ensures var r := Scan(trees, rosterOf, roster, order);
            && !r.Panic?
            && (r.Match? ==> rosterOf(r.tree) == roster && exists id :: id in trees && trees[id] == Some(r.tree))
            && (r.Nothing? ==> forall i :: 0 <= i < |order| ==> rosterOf(trees[order[i]].value) != roster)
  {
    if order != [] {
      ScanFinds(trees, rosterOf, roster, order[1..]);
    }
  }

  lemma {:induction false} SomeOrder(keys: set<nat>) returns (order: seq<nat>)
    ensures Enumerates(order, keys)
    decreases |keys|
  {
    order := [];
    if keys != {} {
      var id :| id in keys;
      var rest := SomeOrder(keys - {id});
      order := [id] + rest;
    }
  }

  /** GetRoster cannot panic, whatever the order, if and only if no id is registered without its tree. */
  lemma {:induction false} GetRosterSafeIff<T>(trees: map<nat, Option<T>>, rosterOf: T -> nat, roster: nat)
    ensures (forall order :: Enumerates(order, trees.Keys) ==> !Scan(trees, rosterOf, roster, order).Panic?) <==>
            (forall id :: id in trees ==> trees[id].Some?)
  {
    if forall id :: id in trees ==> trees[id].Some? {
      forall order | Enumerates(order, trees.Keys) ensures !Scan(trees, rosterOf, roster, order).Panic? {
        ScanFinds(trees, rosterOf, roster, order);
      }
    } else {
      var id :| id in trees && trees[id].None?;
      var rest := SomeOrder(trees.Keys - {id});
      var order := [id] + rest;
      assert Enumerates(order, trees.Keys) && Scan(trees, rosterOf, roster, order).Panic?;
    }
  }
}
