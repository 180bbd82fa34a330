/** Ownership over every run, disciplined or not: it is lost at exactly those failures whose restore
    takes another server's primary, or unbinds its own server's. */
module PanelOwnership {
  import opened Common
  import opened Panel
  import opened PanelUndo
  import opened PanelWorlds

  /** Ownership holds in every world of the run, the first and the last included. */
  ghost predicate OwnedThroughout(c: Catalogue, w: World, events: seq<Event>)
    decreases |events|
  {
    && Owned(w.t)
    && (events != [] && Enabled(w, events[0]) ==> OwnedThroughout(c, Next(c, w, events[0]), events[1..]))
  }

  /** Whenever Wings refuses a call in the run, its restore is safe at that moment. */
  ghost predicate RestoresSafely(c: Catalogue, w: World, events: seq<Event>)
    decreases |events|
  {
    events != [] && Enabled(w, events[0]) ==>
      && (events[0].Failed? ==> SafeToRestore(w.t, w.pending[events[0].call], events[0].view))
      && RestoresSafely(c, Next(c, w, events[0]), events[1..])
  }

  /** Nodes are for ever, and `gone` is not a new server. */
  ghost predicate SameNodes(t: Tables, t': Tables, gone: int) {
    && t'.allocations.Keys == t.allocations.Keys
    && (forall a :: a in t.allocations ==> t'.allocations[a].node == t.allocations[a].node)
    && (gone in t'.servers ==> gone in t.servers && t'.servers[gone].node == t.servers[gone].node)
  }

  lemma FitsStill(t: Tables, t': Tables, u: Undo)
    requires Fits(t, u) && SameNodes(t, t', u.id)
    ensures Fits(t', u)
  {
  }

  lemma CommitKeepsNodes(c: Catalogue, t: Tables, op: Op, id: int)
    requires op.Create? ==> op.id !in t.servers && op.id != id
    ensures var r := Commit(c, t, op); r.Ok? ==> SameNodes(t, r.value, id)
  {
  }

  lemma RestoreKeepsNodes(t: Tables, u: Undo, v: View, id: int)
    ensures SameNodes(t, Compensate(t, u, v), id)
  {
  }

  /** What holds in a world for as long as ownership does. */
  ghost predicate Restorable(w: World) {
    && Sound(w.t)
    && forall k :: k in w.pending ==> Fits(w.t, w.pending[k])
  }

  lemma BeginKeepsRestorable(c: Catalogue, w: World, call: int, op: Op)
    requires Restorable(w) && Enabled(w, Begin(call, op))
    ensures Restorable(Next(c, w, Begin(call, op)))
  {
    var r := Commit(c, w.t, op);
    if r.Ok? {
      CommitKeepsSound(c, w.t, op);
      SnapshotIsProper(c, w.t, op);
      forall k | k in w.pending ensures Fits(r.value, w.pending[k]) {
        CommitKeepsNodes(c, w.t, op, w.pending[k].id);
        FitsStill(w.t, r.value, w.pending[k]);
      }
    }
  }

  lemma FailedKeepsRestorable(c: Catalogue, w: World, call: int, view: View)
    requires Restorable(w) && Enabled(w, Failed(call, view)) && SafeToRestore(w.t, w.pending[call], view)
    ensures Restorable(Next(c, w, Failed(call, view)))
  {
    var u := w.pending[call];
    RestoreKeepsOwnershipIff(w.t, u, view);
    forall k | k in w.pending ensures Fits(Compensate(w.t, u, view), w.pending[k]) {
      RestoreKeepsNodes(w.t, u, view, w.pending[k].id);
      FitsStill(w.t, Compensate(w.t, u, view), w.pending[k]);
    }
  }

  lemma DeletedKeepsRestorable(c: Catalogue, w: World, id: int)
    requires Restorable(w)
    ensures Restorable(Next(c, w, Deleted(id)))
  {
    DeleteRowKeepsOwnership(w.t, id);
    forall k | k in w.pending ensures Fits(DeleteRow(w.t, id), w.pending[k]) {
      FitsStill(w.t, DeleteRow(w.t, id), w.pending[k]);
    }
  }

  lemma StepKeepsRestorable(c: Catalogue, w: World, e: Event)
    requires Restorable(w) && Enabled(w, e)
    requires e.Failed? ==> SafeToRestore(w.t, w.pending[e.call], e.view)
    ensures Restorable(Next(c, w, e))
  {
    match e
    case Begin(call, op) => BeginKeepsRestorable(c, w, call, op);
    case Accepted(_) =>
    case Failed(call, view) => FailedKeepsRestorable(c, w, call, view);
    case Deleted(id) => DeletedKeepsRestorable(c, w, id);
  }

  /** Over every run the code admits, ownership holds throughout exactly when the restore of each refused call,
      at its moment, writes no other server's primary and leaves its own server's bound to it. */
  lemma {:induction false} OwnedThroughoutIff(c: Catalogue, w: World, events: seq<Event>, w': World)
    requires Restorable(w) && Run(c, w, events, w')
    ensures OwnedThroughout(c, w, events) <==> RestoresSafely(c, w, events)
    decreases |events|
  {
    if events == [] {
    } else {
      var e := events[0];
      if e.Failed? && !SafeToRestore(w.t, w.pending[e.call], e.view) {
        RestoreKeepsOwnershipIff(w.t, w.pending[e.call], e.view);
      } else {
        StepKeepsRestorable(c, w, e);
        OwnedThroughoutIff(c, Next(c, w, e), events[1..], w');
      }
    }
  }

  /** The discipline makes every restore safe. */
  lemma {:induction false} DisciplineIsSafe(c: Catalogue, w: World, events: seq<Event>, w': World)
    requires OwnedWorld(w) && DisciplinedRun(c, w, events, w')
    ensures RestoresSafely(c, w, events)
    decreases |events|
  {
    if events == [] {
    } else {
      var e := events[0];
      OwnershipAlwaysHolds(c, w, [e], Next(c, w, e));
      if e.Failed? {
        var u := w.pending[e.call];
        assert Settled(w.t, u);
        UndisturbedRestoreKeepsOwnership(w.t, u, e.view);
      }
      DisciplineIsSafe(c, Next(c, w, e), events[1..], w');
    }
  }

  // ----- Two runs that lose it -----

  /** Two servers on node 7: server 1 holds allocations 1 and 2, server 2 holds 3, and 4 is free. */
  function RaceStart(s: Server): Tables
    requires s.node == 7
  {
    Tables(map[1 := s.(allocation := 1), 2 := s.(allocation := 3)],
           map[1 := Allocation(7, Some(1), None), 2 := Allocation(7, Some(1), None),
               3 := Allocation(7, Some(2), None), 4 := Allocation(7, None, None)],
           map[1 := [], 2 := []])
  }

  lemma RaceStartIsOwned(s: Server)
    requires s.node == 7
    ensures OwnedWorld(World(RaceStart(s), map[]))
  {
    var t := RaceStart(s);
    assert forall a :: a in t.allocations ==> BindingSound(t, a);
  }

  /** Two calls in turn, the second accepted and the first then refused. */
  function Race(first: Op, second: Op, v: View): seq<Event> {
    [Begin(0, first), Begin(1, second), Accepted(1), Failed(0, v)]
  }

  lemma BeginRun(c: Catalogue, w: World, call: int, op: Op, t': Tables, events: seq<Event>, w': World)
    requires !op.Create? && call !in w.pending && Commit(c, w.t, op) == Ok(t')
    ensures op.id in w.t.servers && op.id in t'.servers
    ensures Run(c, World(t', w.pending[call := Remember(w.t, t', op)]), events, w') ==>
              Run(c, w, [Begin(call, op)] + events, w')
  {
    assert ([Begin(call, op)] + events)[1..] == events;
  }

  lemma AcceptRun(c: Catalogue, w: World, call: int, events: seq<Event>, w': World)
    requires call in w.pending && Run(c, World(w.t, w.pending - {call}), events, w')
    ensures Run(c, w, [Accepted(call)] + events, w')
  {
    assert ([Accepted(call)] + events)[1..] == events;
  }

  lemma FailRun(c: Catalogue, w: World, call: int, view: View)
    requires call in w.pending && InHand(w.pending[call], view)
    ensures Run(c, w, [Failed(call, view)], World(Compensate(w.t, w.pending[call], view), w.pending - {call}))
  {
    assert [Failed(call, view)][1..] == [];
  }

  lemma AnsweredRun(c: Catalogue, t: Tables, u: Undo, u': Undo, v: View)
    requires InHand(u, v)
    ensures Run(c, World(t, map[0 := u, 1 := u']), [Accepted(1)] + [Failed(0, v)], World(Compensate(t, u, v), map[]))
  {
    var w2, w3 := World(t, map[0 := u, 1 := u']), World(t, map[0 := u]);
    assert w2.pending - {1} == w3.pending;
    assert w3.pending - {0} == map[];
    FailRun(c, w3, 0, v);
    AcceptRun(c, w2, 1, [Failed(0, v)], World(Compensate(t, u, v), map[]));
  }

  lemma SecondRun(c: Catalogue, t1: Tables, second: Op, t2: Tables, u: Undo, v: View)
    requires !second.Create? && Commit(c, t1, second) == Ok(t2) && InHand(u, v)
    ensures Run(c, World(t1, map[0 := u]), [Begin(1, second)] + ([Accepted(1)] + [Failed(0, v)]),
                World(Compensate(t2, u, v), map[]))
  {
    BeginRun(c, World(t1, map[0 := u]), 1, second, t2, [Accepted(1)] + [Failed(0, v)],
             World(Compensate(t2, u, v), map[]));
    var u' := Remember(t1, t2, second);
    assert map[0 := u][1 := u'] == map[0 := u, 1 := u'];
    AnsweredRun(c, t2, u, u', v);
  }

  lemma RaceEnds(c: Catalogue, t: Tables, first: Op, second: Op, t1: Tables, t2: Tables, v: View)
    requires !first.Create? && !second.Create?
    requires Commit(c, t, first) == Ok(t1) && Commit(c, t1, second) == Ok(t2)
    requires InHand(Remember(t, t1, first), v)
    ensures Run(c, World(t, map[]), Race(first, second, v), World(Compensate(t2, Remember(t, t1, first), v), map[]))
  {
    var u, end := Remember(t, t1, first), World(Compensate(t2, Remember(t, t1, first), v), map[]);
    var rest := [Begin(1, second)] + ([Accepted(1)] + [Failed(0, v)]);
    SecondRun(c, t1, second, t2, u, v);
    BeginRun(c, World(t, map[]), 0, first, t1, rest, end);
    assert Race(first, second, v) == [Begin(0, first)] + rest;
  }

  /** Server 1 gives up allocation 2, server 2 makes it its primary, and only then does Wings refuse the
      first call: the restore binds server 2's primary to server 1. */
  lemma UndisciplinedRunBreaksOwnership(c: Catalogue, s: Server, v: View)
    requires s.node == 7 && 2 in v.seen && v.seen[2] == Binding(None, None)
    ensures OwnedWorld(World(RaceStart(s), map[]))
    ensures exists w' ::
              Run(c, World(RaceStart(s), map[]), Race(RemoveAllocation(1, 2), SetPrimary(2, 2), v), w') && !Owned(w'.t)
  {
    var t := RaceStart(s);
    RaceStartIsOwned(s);
    var t1 := t.(allocations := t.allocations[2 := Allocation(7, None, None)]);
    var t2 := t1.(servers := t1.servers[2 := t1.servers[2].(allocation := 2)],
                  allocations := Bind(t1.allocations, {2}, 2));
    var u := Remember(t, t1, RemoveAllocation(1, 2));
    assert Commit(c, t, RemoveAllocation(1, 2)) == Ok(t1) && Commit(c, t1, SetPrimary(2, 2)) == Ok(t2);
    RemovalRemembers(t, t1, u);
    RaceEnds(c, t, RemoveAllocation(1, 2), SetPrimary(2, 2), t1, t2, v);
    assert Compensate(t2, u, v).allocations[2].server == Some(1);
    assert !PrimaryOwned(Compensate(t2, u, v), 2);
  }

  lemma RemovalRemembers(t: Tables, t1: Tables, u: Undo)
    requires 1 in t.servers && 1 in t1.servers && t1.servers[1] == t.servers[1]
    requires u == Remember(t, t1, RemoveAllocation(1, 2))
    requires 2 in t.allocations && t.allocations[2] == Allocation(7, Some(1), None)
    requires 2 in t1.allocations && t1.allocations[2] == Allocation(7, None, None)
    ensures u.RestoreAllocations? && u.id == 1 && u.inHand == {2}
    ensures 2 in u.bindings && u.bindings[2] == Binding(Some(1), None)
    ensures 2 in u.leftBindings && u.leftBindings[2] == Binding(None, None)
  {
    assert 2 in SnapshotRows(t, 1, {2});
  }

  /** Server 1 takes allocation 4, then makes it its primary, and only then does Wings refuse the first call: the
      restore frees the allocation but writes no primary, because its own call never moved it. No other server is
      involved. */
  lemma OwnPrimaryIsUnbound(c: Catalogue, s: Server, v: View)
    requires s.node == 7 && 4 in v.seen && v.seen[4] == Binding(Some(1), None)
    ensures OwnedWorld(World(RaceStart(s), map[]))
    ensures exists w' ::
              Run(c, World(RaceStart(s), map[]), Race(AddAllocations(1, [4]), SetPrimary(1, 4), v), w')
              && 1 in w'.t.servers && w'.t.servers[1].allocation == 4
              && 4 in w'.t.allocations && w'.t.allocations[4].server == None
  {
    var t := RaceStart(s);
    RaceStartIsOwned(s);
    var t1 := t.(allocations := Bind(t.allocations, {4}, 1));
    var t2 := t1.(servers := t1.servers[1 := t1.servers[1].(allocation := 4)],
                  allocations := Bind(t1.allocations, {4}, 1));
    var u := Remember(t, t1, AddAllocations(1, [4]));
    OneAllocationAdded(c, t, t1);
    assert Commit(c, t1, SetPrimary(1, 4)) == Ok(t2);
    AdditionRemembers(t, t1, u);
    RaceEnds(c, t, AddAllocations(1, [4]), SetPrimary(1, 4), t1, t2, v);
    AdditionRestores(t2, u, v);
  }

  lemma AdditionRestores(t: Tables, u: Undo, v: View)
    requires u.RestoreAllocations? && u.id == 1 && u.leftPrimary == u.primary && 1 in t.servers
    requires forall a :: a in u.bindings ==> u.bindings[a].server == None || u.bindings[a].server == Some(1)
    requires 4 in u.bindings && u.bindings[4].server == None && 4 in t.allocations
    requires 4 in v.seen && v.seen[4].server == Some(1)
    ensures var back := Compensate(t, u, v);
            && 1 in back.servers && back.servers[1].allocation == t.servers[1].allocation
            && 4 in back.allocations && back.allocations[4].server == None
  {
    assert RestoreCommits(t, u, v);
  }

  lemma OneAllocationAdded(c: Catalogue, t: Tables, t1: Tables)
    requires 1 in t.servers && t.servers[1].node == 7
    requires 4 in t.allocations && t.allocations[4] == Allocation(7, None, None)
    requires t1 == t.(allocations := Bind(t.allocations, {4}, 1))
    ensures Commit(c, t, AddAllocations(1, [4])) == Ok(t1)
    ensures Unique([4]) == [4]
  {
    assert IdSet([4]) == {4};
  }

  lemma AdditionRemembers(t: Tables, t1: Tables, u: Undo)
    requires 1 in t.servers && 1 in t1.servers && t1.servers[1] == t.servers[1]
    requires u == Remember(t, t1, AddAllocations(1, [4])) && Unique([4]) == [4]
    requires 4 in t.allocations && t.allocations[4] == Allocation(7, None, None)
    requires 4 in t1.allocations && t1.allocations[4] == Allocation(7, Some(1), None)
    ensures u.RestoreAllocations? && u.id == 1 && u.inHand == {4} && u.leftPrimary == u.primary
    ensures 4 in u.bindings && u.bindings[4] == Binding(None, None)
    ensures 4 in u.leftBindings && u.leftBindings[4] == Binding(Some(1), None)
    ensures t.servers[1].allocation != 4 && Sound(t) ==>
              forall a :: a in u.bindings ==> u.bindings[a].server == None || u.bindings[a].server == Some(1)
  {
    assert 4 in SnapshotRows(t, 1, IdSet([4]));
    if Sound(t) {
      assert PrimaryOwned(t, 1);
    }
  }
}
