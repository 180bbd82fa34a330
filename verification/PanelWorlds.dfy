/** Worlds: the tables and the mutations that await Wings' answer, which may come in any
    order or never. Which interleavings keep ownership, and what failed calls leave behind. */
module PanelWorlds {
  import opened Common
  import opened Panel
  import opened PanelUndo
  import opened PanelRuns

  datatype World = World(t: Tables, pending: map<int, Undo>)

  datatype Event =
    | Begin(call: int, op: Op)
    | Accepted(call: int)
    /** `view` is what the call's session then makes of the rows. */
    | Failed(call: int, view: View)
    | Deleted(id: int)

  /** A new server's key is nobody's, not even that of a deleted server which a call in flight still names. */
  predicate NewKey(w: World, id: int) {
    id !in w.t.servers && forall k :: k in w.pending ==> w.pending[k].id != id
  }

  /** Keys of new servers and calls are fresh; only a pending call is answered. */
  predicate Enabled(w: World, e: Event) {
    match e
    case Begin(call, op) => call !in w.pending && (op.Create? ==> NewKey(w, op.id))
    case Accepted(call) => call in w.pending
    case Failed(call, view) => call in w.pending && InHand(w.pending[call], view)
    case Deleted(_) => true
  }

  /** A call that is never answered stays pending for ever, which is a crash of the manager. */
  function Next(c: Catalogue, w: World, e: Event): World
    requires Enabled(w, e)
  {
    match e
    case Begin(call, op) =>
      (match Commit(c, w.t, op)
       case Err(_) => w
       case Ok(t') => World(t', w.pending[call := Remember(w.t, t', op)]))
    case Accepted(call) => World(w.t, w.pending - {call})
    case Failed(call, view) => World(Compensate(w.t, w.pending[call], view), w.pending - {call})
    case Deleted(id) => World(DeleteRow(w.t, id), w.pending)
  }

  ghost predicate Run(c: Catalogue, w: World, events: seq<Event>, w': World)
    decreases |events|
  {
    if events == [] then w == w'
    else Enabled(w, events[0]) && Run(c, Next(c, w, events[0]), events[1..], w')
  }

  /** The discipline under which ownership survives every interleaving: a mutation or deletion names
      no server and no allocation that a pending compensation may write. Whatever the session of a refused call
      reads is then still as the call left it. */
  predicate Disciplined(w: World, e: Event) {
    match e
    case Begin(_, op) => forall k :: k in w.pending ==> Avoids(Do(op), w.pending[k].id, HeldFor(w.pending[k]))
    case Deleted(id) => forall k :: k in w.pending ==> w.pending[k].id != id
    case Failed(call, view) => call in w.pending ==> SeesLeft(w.pending[call], view)
    case Accepted(_) => true
  }

  ghost predicate DisciplinedRun(c: Catalogue, w: World, events: seq<Event>, w': World)
    decreases |events|
  {
    if events == [] then w == w'
    else
      && Enabled(w, events[0]) && Disciplined(w, events[0])
      && DisciplinedRun(c, Next(c, w, events[0]), events[1..], w')
  }

  predicate Settled(t: Tables, u: Undo) {
    ProperSnapshot(t, u) && Undisturbed(t, u) && AsLeft(t, u)
  }

  predicate Apart(u: Undo, v: Undo) {
    u.id != v.id && HeldFor(u) !! HeldFor(v)
  }

  ghost predicate OwnedWorld(w: World) {
    && Sound(w.t)
    && (forall k :: k in w.pending ==> Settled(w.t, w.pending[k]))
    && (forall k, l :: k in w.pending && l in w.pending && k != l ==> Apart(w.pending[k], w.pending[l]))
  }

  lemma SettledSurvives(c: Catalogue, t: Tables, a: Action, u: Undo)
    requires Sound(t) && Settled(t, u) && Avoids(a, u.id, HeldFor(u))
    ensures Settled(Apply(c, t, a), u)
  {
    ActionIsLocal(c, t, t, a, u.id, HeldFor(u));
    var t' := Apply(c, t, a);
    forall x | x in HeldFor(u) ensures SameAt(t.allocations, t'.allocations, x) {
    }
    StaysAsLeft(t, t', u);
  }

  lemma BeginKeepsOwnedWorld(c: Catalogue, w: World, call: int, op: Op)
    requires OwnedWorld(w) && Enabled(w, Begin(call, op)) && Disciplined(w, Begin(call, op))
    ensures OwnedWorld(Next(c, w, Begin(call, op)))
  {
    var r := Commit(c, w.t, op);
    if r.Ok? {
      var t', u := r.value, UndoOf(c, w.t, op);
      CommitKeepsSound(c, w.t, op);
      SnapshotIsProper(c, w.t, op);
      assert Apply(c, w.t, Do(op)) == t';
      forall k | k in w.pending ensures Settled(t', w.pending[k]) && Apart(u, w.pending[k]) {
        var v := w.pending[k];
        SettledSurvives(c, w.t, Do(op), v);
        assert Settled(w.t, v) && Avoids(Do(op), v.id, HeldFor(v));
        HeldApart(c, w.t, op, v);
      }
    }
  }

  lemma HeldApart(c: Catalogue, t: Tables, op: Op, v: Undo)
    requires Sound(t) && (op.Create? ==> op.id !in t.servers) && Commit(c, t, op).Ok?
    requires Settled(t, v) && Avoids(Do(op), v.id, HeldFor(v))
    ensures Apart(UndoOf(c, t, op), v)
  {
    var u := UndoOf(c, t, op);
    assert op.id != v.id;
    if u.RestoreAllocations? {
      assert PrimaryOwned(t, op.id);
      forall a | a in HeldFor(u) ensures a !in HeldFor(v) {
        if t.allocations[a].server != Some(op.id) {
          assert a in AllocationsOf(Do(op));
        }
      }
    }
  }

  lemma FailedKeepsOwnedWorld(c: Catalogue, w: World, call: int, view: View)
    requires OwnedWorld(w) && Enabled(w, Failed(call, view)) && Disciplined(w, Failed(call, view))
    ensures OwnedWorld(Next(c, w, Failed(call, view)))
  {
    var u := w.pending[call];
    var w' := Next(c, w, Failed(call, view));
    UndisturbedRestoreKeepsOwnership(w.t, u, view);
    forall k | k in w'.pending ensures Settled(w'.t, w'.pending[k]) {
      var v := w.pending[k];
      assert Apart(u, v) && Settled(w.t, u);
      assert Avoids(Restore(u, view), v.id, HeldFor(v));
      SettledSurvives(c, w.t, Restore(u, view), v);
    }
  }

  lemma DeletedKeepsOwnedWorld(c: Catalogue, w: World, id: int)
    requires OwnedWorld(w) && Disciplined(w, Deleted(id))
    ensures OwnedWorld(Next(c, w, Deleted(id)))
  {
    DeleteRowKeepsOwnership(w.t, id);
    forall k | k in w.pending ensures Settled(DeleteRow(w.t, id), w.pending[k]) {
      SettledSurvives(c, w.t, Drop(id), w.pending[k]);
    }
  }

  /** Ownership holds in every world a disciplined run reaches, with any number of calls in flight,
      answered in any order or never. */
  lemma {:induction false} OwnershipAlwaysHolds(c: Catalogue, w: World, events: seq<Event>, w': World)
    requires OwnedWorld(w) && DisciplinedRun(c, w, events, w')
    ensures Owned(w'.t) && OwnedWorld(w')
    decreases |events|
  {
    if events == [] {
    } else {
      match events[0] {
        case Begin(call, op) => BeginKeepsOwnedWorld(c, w, call, op);
        case Accepted(call) =>
        case Failed(call, view) => FailedKeepsOwnedWorld(c, w, call, view);
        case Deleted(id) => DeletedKeepsOwnedWorld(c, w, id);
      }
      OwnershipAlwaysHolds(c, Next(c, w, events[0]), events[1..], w');
    }
  }

  // ----- Failed calls can be erased -----

  predicate IsFailure(e: Event, call: int) {
    e.Failed? && e.call == call
  }

  /** The first answer to a pending call is a failure. */
  predicate Fails(events: seq<Event>, call: int)
    decreases |events|
  {
    && events != []
    && (IsFailure(events[0], call) || (events[0] != Accepted(call) && Fails(events[1..], call)))
  }

  function WithoutFailure(events: seq<Event>, call: int): seq<Event>
    requires Fails(events, call)
    decreases |events|
  {
    if IsFailure(events[0], call) then events[1..] else [events[0]] + WithoutFailure(events[1..], call)
  }

  /** The acceptances and deletions of a history, in order. */
  function Answers(events: seq<Event>): seq<Event>
    decreases |events|
  {
    if events == [] then []
    else (if events[0].Accepted? || events[0].Deleted? then [events[0]] else []) + Answers(events[1..])
  }

  lemma {:induction false} WithoutFailureKeeps(events: seq<Event>, call: int, other: int)
    requires Fails(events, call)
    ensures |WithoutFailure(events, call)| < |events|
    ensures other != call ==> (Fails(WithoutFailure(events, call), other) <==> Fails(events, other))
    ensures Answers(WithoutFailure(events, call)) == Answers(events)
    decreases |events|
  {
    if IsFailure(events[0], call) {
    } else {
      WithoutFailureKeeps(events[1..], call, other);
      assert WithoutFailure(events, call)[1..] == WithoutFailure(events[1..], call);
    }
  }

  /** Every mutation that goes on to fail is one whose undo is exact. */
  ghost predicate ErasableRun(c: Catalogue, w: World, events: seq<Event>)
    decreases |events|
  {
    events != [] && Enabled(w, events[0]) ==>
      && (events[0].Begin? && Fails(events[1..], events[0].call) ==> Erasable(w.t, events[0].op))
      && ErasableRun(c, Next(c, w, events[0]), events[1..])
  }

  lemma ErasableIsLocal(t: Tables, t': Tables, op: Op, id: int, held: set<int>)
    requires SameOutside(t, t', id, held) && Avoids(Do(op), id, held)
    ensures Erasable(t, op) <==> Erasable(t', op)
  {
    if op.Create? {
      assert AllocationsOf(Do(op)) == IdSet([op.form.allocation] + op.form.additional);
    }
  }

  /** The world in which a pending call has been taken back at once. */
  function Skip(w: World, call: int): World
    requires call in w.pending
  {
    World(RestoreAll(w.t, w.pending[call]), w.pending - {call})
  }

  lemma FailedIsSkipped(c: Catalogue, w: World, call: int, view: View)
    requires Enabled(w, Failed(call, view)) && Disciplined(w, Failed(call, view))
    requires Shadow(w.t, Skip(w, call).t, w.pending[call])
    ensures Next(c, w, Failed(call, view)) == Skip(w, call)
  {
    ShadowRestores(w.t, Skip(w, call).t, w.pending[call], view);
  }

  /** World `s` is `w` with the pending `call` failed at once, and `e` may follow in both. */
  ghost predicate Commutes(c: Catalogue, w: World, call: int, e: Event)
    requires call in w.pending && Enabled(w, e)
  {
    var s, w', u := Skip(w, call), Next(c, w, e), w.pending[call];
    && Enabled(s, e) && Disciplined(s, e)
    && call in w'.pending && w'.pending[call] == u
    && Next(c, s, e) == Skip(w', call)
    && Shadow(w'.t, Skip(w', call).t, u)
  }

  lemma BeginStillEnabled(c: Catalogue, w: World, call: int, other: int, op: Op)
    requires OwnedWorld(w) && call in w.pending
    requires Shadow(w.t, Skip(w, call).t, w.pending[call])
    requires Enabled(w, Begin(other, op)) && Disciplined(w, Begin(other, op))
    ensures Enabled(Skip(w, call), Begin(other, op)) && Disciplined(Skip(w, call), Begin(other, op))
  {
    var s, u := Skip(w, call), w.pending[call];
    assert Avoids(Do(op), u.id, HeldFor(u));
    assert AgreeOff(w.t.servers, s.t.servers, u.id);
  }

  /** A mutation that avoids a pending restore does the same before and after it. */
  lemma MutationCommutes(c: Catalogue, t: Tables, s: Tables, u: Undo, op: Op)
    requires Owned(t) && Shadow(t, s, u) && Avoids(Do(op), u.id, HeldFor(u))
    requires op.Create? ==> op.id !in t.servers && op.id !in s.servers
    ensures var r, q := Commit(c, t, op), Commit(c, s, op);
            && (r.Ok? <==> q.Ok?)
            && (r.Ok? ==> q.value == RestoreAll(r.value, u) && Shadow(r.value, q.value, u)
                          && UndoOf(c, s, op) == UndoOf(c, t, op))
  {
    OpAgrees(c, t, s, op, u.id, HeldFor(u));
    ShadowStep(c, t, s, u, Do(op));
    if Commit(c, t, op).Ok? {
      UndosAgree(c, t, s, op, u.id, HeldFor(u));
    }
  }

  lemma FailureCommutesWithBegin(c: Catalogue, w: World, call: int, other: int, op: Op)
    requires OwnedWorld(w) && call in w.pending
    requires Shadow(w.t, Skip(w, call).t, w.pending[call])
    requires Enabled(w, Begin(other, op)) && Disciplined(w, Begin(other, op))
    ensures Commutes(c, w, call, Begin(other, op))
  {
    var s, u := Skip(w, call), w.pending[call];
    BeginStillEnabled(c, w, call, other, op);
    MutationCommutes(c, w.t, s.t, u, op);
    var r := Commit(c, w.t, op);
    if r.Ok? {
      PendingCommutes(w.pending, call, other, UndoOf(c, w.t, op));
    }
  }

  lemma PendingCommutes(pending: map<int, Undo>, call: int, other: int, v: Undo)
    requires other != call
    ensures pending[other := v] - {call} == (pending - {call})[other := v]
  {
  }

  lemma FailureCommutesWithFailure(c: Catalogue, w: World, call: int, other: int, view: View)
    requires OwnedWorld(w) && call in w.pending && other != call
    requires Enabled(w, Failed(other, view)) && Disciplined(w, Failed(other, view))
    requires Shadow(w.t, Skip(w, call).t, w.pending[call])
    ensures Commutes(c, w, call, Failed(other, view))
  {
    var s, u, v := Skip(w, call), w.pending[call], w.pending[other];
    assert Apart(u, v) && Settled(w.t, v);
    assert Avoids(Restore(v, view), u.id, HeldFor(u));
    ShadowStep(c, w.t, s.t, u, Restore(v, view));
    RemovalsCommute(w.pending, other, call);
  }

  lemma RemovalsCommute(pending: map<int, Undo>, call: int, other: int)
    ensures (pending - {call}) - {other} == (pending - {other}) - {call}
  {
  }

  /** A failure commutes to the left over any other disciplined event. */
  lemma FailureCommutes(c: Catalogue, w: World, call: int, e: Event)
    requires OwnedWorld(w) && call in w.pending
    requires Shadow(w.t, Skip(w, call).t, w.pending[call])
    requires Enabled(w, e) && Disciplined(w, e) && !IsFailure(e, call) && e != Accepted(call)
    ensures Commutes(c, w, call, e)
  {
    match e {
      case Begin(other, op) => FailureCommutesWithBegin(c, w, call, other, op);
      case Failed(other, view) => FailureCommutesWithFailure(c, w, call, other, view);
      case Accepted(other) =>
        assert (w.pending - {other}) - {call} == Skip(w, call).pending - {other};
      case Deleted(id) =>
        var u := w.pending[call];
        assert Avoids(Drop(id), u.id, HeldFor(u));
        ShadowStep(c, w.t, Skip(w, call).t, u, Drop(id));
    }
  }

  lemma {:induction false} EraseOne(c: Catalogue, w: World, call: int, events: seq<Event>, w': World)
    requires OwnedWorld(w) && call in w.pending
    requires Shadow(w.t, Skip(w, call).t, w.pending[call])
    requires DisciplinedRun(c, w, events, w') && ErasableRun(c, w, events) && Fails(events, call)
    ensures DisciplinedRun(c, Skip(w, call), WithoutFailure(events, call), w')
    ensures ErasableRun(c, Skip(w, call), WithoutFailure(events, call))
    decreases |events|
  {
    var e := events[0];
    if IsFailure(e, call) {
      FailedIsSkipped(c, w, call, e.view);
    } else {
      var s, next := Skip(w, call), Next(c, w, e);
      FailureCommutes(c, w, call, e);
      OwnershipAlwaysHolds(c, w, [e], next);
      EraseOne(c, next, call, events[1..], w');
      var rest := WithoutFailure(events, call);
      assert rest[1..] == WithoutFailure(events[1..], call);
      if e.Begin? {
        WithoutFailureKeeps(events[1..], call, e.call);
        ErasableIsLocal(w.t, s.t, e.op, w.pending[call].id, HeldFor(w.pending[call]));
      }
    }
  }

  /** Skipping a call right after its commit is not having begun it. */
  lemma BeginThenSkip(c: Catalogue, w: World, call: int, op: Op)
    requires OwnedWorld(w) && Enabled(w, Begin(call, op)) && Erasable(w.t, op)
    requires call in Next(c, w, Begin(call, op)).pending
    ensures var next := Next(c, w, Begin(call, op));
            Skip(next, call) == w && Shadow(next.t, w.t, next.pending[call])
  {
    var next := Next(c, w, Begin(call, op));
    CommitCastsShadow(c, w.t, op);
    assert next.pending - {call} == w.pending;
  }

  /** A run that begins with a call that goes on to fail is as good without it. */
  lemma EraseFirst(c: Catalogue, w: World, events: seq<Event>, w': World) returns (shorter: seq<Event>)
    requires OwnedWorld(w) && DisciplinedRun(c, w, events, w') && ErasableRun(c, w, events)
    requires forall k :: k in w.pending ==> !Fails(events, k)
    requires events != [] && events[0].Begin?
    requires events[0].call in Next(c, w, events[0]).pending && Fails(events[1..], events[0].call)
    ensures |shorter| < |events| && Answers(shorter) == Answers(events)
    ensures DisciplinedRun(c, w, shorter, w') && ErasableRun(c, w, shorter)
    ensures forall k :: k in w.pending ==> !Fails(shorter, k)
  {
    var call, rest := events[0].call, events[1..];
    var next := Next(c, w, events[0]);
    BeginKeepsOwnedWorld(c, w, call, events[0].op);
    BeginThenSkip(c, w, call, events[0].op);
    EraseOne(c, next, call, rest, w');
    shorter := WithoutFailure(rest, call);
    forall k | k in w.pending ensures !Fails(shorter, k) {
      WithoutFailureKeeps(rest, call, k);
    }
    WithoutFailureKeeps(rest, call, call);
  }

  /** Every disciplined run of exactly undoable mutations reaches the tables of a run in which nothing fails:
      its failed mutations never happened, and all its acceptances and deletions stand, in order. */
  lemma {:induction false} FailuresCanBeErased(c: Catalogue, w: World, events: seq<Event>, w': World)
    returns (kept: seq<Event>)
    requires OwnedWorld(w) && DisciplinedRun(c, w, events, w') && ErasableRun(c, w, events)
    requires forall k :: k in w.pending ==> !Fails(events, k)
    ensures DisciplinedRun(c, w, kept, w')
    ensures forall i :: 0 <= i < |kept| ==> !kept[i].Failed?
    ensures Answers(kept) == Answers(events)
    decreases |events|
  {
    if events == [] {
      kept := [];
    } else {
      var e, next := events[0], Next(c, w, events[0]);
      if e.Begin? && e.call in next.pending && Fails(events[1..], e.call) {
        var shorter := EraseFirst(c, w, events, w');
        kept := FailuresCanBeErased(c, w, shorter, w');
      } else {
        OwnershipAlwaysHolds(c, w, [e], next);
        var tail := FailuresCanBeErased(c, next, events[1..], w');
        kept := [e] + tail;
      }
    }
  }

  // ----- Deleted servers -----

  /** No row of the server is left and nothing is bound to it. */
  predicate Gone(t: Tables, id: int) {
    && id !in t.servers && id !in t.variables
    && forall a :: a in t.allocations ==> t.allocations[a].server != Some(id)
  }

  predicate Recreates(e: Event, id: int) {
    e.Begin? && e.op.Create? && e.op.id == id
  }

  lemma RestoreKeepsGone(t: Tables, u: Undo, v: View, id: int)
    requires Gone(t, id)
    ensures Gone(Compensate(t, u, v), id)
  {
  }

  lemma StepKeepsGone(c: Catalogue, w: World, e: Event, id: int)
    requires Gone(w.t, id) && Enabled(w, e) && !Recreates(e, id)
    ensures Gone(Next(c, w, e).t, id)
  {
    if e.Failed? {
      RestoreKeepsGone(w.t, w.pending[e.call], e.view, id);
    }
  }

  lemma {:induction false} GoneStaysGone(c: Catalogue, w: World, events: seq<Event>, w': World, id: int)
    requires Gone(w.t, id) && Run(c, w, events, w')
    requires forall i :: 0 <= i < |events| ==> !Recreates(events[i], id)
    ensures Gone(w'.t, id)
    decreases |events|
  {
    if events == [] {
    } else {
      StepKeepsGone(c, w, events[0], id);
      GoneStaysGone(c, Next(c, w, events[0]), events[1..], w', id);
    }
  }

  /** Once a server is deleted no run, disciplined or not, brings back a row of it or a binding to it, not even the
      restore of one of its own calls, until a creation is given its key. */
  lemma DeletedStaysGone(c: Catalogue, w: World, id: int, events: seq<Event>, w': World)
    requires w.t.variables.Keys == w.t.servers.Keys && Run(c, Next(c, w, Deleted(id)), events, w')
    requires forall i :: 0 <= i < |events| ==> !Recreates(events[i], id)
    ensures Gone(w'.t, id)
  {
    GoneStaysGone(c, Next(c, w, Deleted(id)), events, w', id);
  }
}
