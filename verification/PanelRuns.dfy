/** Other operations between a commit and its compensation. Every write to the tables is local:
    it reads and writes only what it names, so a compensation commutes with whatever avoids it. */
module PanelRuns {
  import opened Common
  import opened Panel
  import opened PanelUndo

  // ----- One write to the tables, by whomever -----

  datatype Action = Do(op: Op) | Restore(undo: Undo, view: View) | Drop(id: int)

  /** A refused operation discards its uncommitted work. */
  function Apply(c: Catalogue, t: Tables, a: Action): Tables {
    match a
    case Do(op) =>
      if op.Create? && op.id in t.servers then t
      else
        var r := Commit(c, t, op);
        if r.Ok? then r.value else t
    case Restore(u, v) => Compensate(t, u, v)
    case Drop(id) => DeleteRow(t, id)
  }

  function ApplyAll(c: Catalogue, t: Tables, actions: seq<Action>): Tables
    decreases |actions|
  {
    if actions == [] then t else ApplyAll(c, Apply(c, t, actions[0]), actions[1..])
  }

  /** The servers an action names. */
  function ServersOf(a: Action): set<int> {
    match a
    case Do(op) => {op.id}
    case Drop(id) => {id}
    case Restore(u, _) =>
      if u.RestoreAllocations?
      then {u.id} + set x | x in u.bindings && u.bindings[x].server.Some? :: u.bindings[x].server.value
      else {u.id}
  }

  /** The allocations an action names. */
  function AllocationsOf(a: Action): set<int> {
    match a
    case Do(op) =>
      (match op
       case Create(_, form) => IdSet([form.allocation] + form.additional)
       case AddAllocations(_, ids) => IdSet(ids)
       case RemoveAllocation(_, x) => {x}
       case SetPrimary(_, x) => {x}
       case _ => {})
    case Restore(u, _) => HeldFor(u)
    case Drop(_) => {}
  }

  predicate Avoids(a: Action, id: int, held: set<int>) {
    id !in ServersOf(a) && AllocationsOf(a) !! held
  }

  predicate AllAvoid(actions: seq<Action>, id: int, held: set<int>) {
    forall i :: 0 <= i < |actions| ==> Avoids(actions[i], id, held)
  }

  // ----- Locality: an action reads and writes only what it names -----

  ghost predicate SameAt<V>(m: map<int, V>, m': map<int, V>, k: int) {
    (k in m <==> k in m') && (k in m ==> m[k] == m'[k])
  }

  /** The maps agree on every key but `id`. */
  ghost predicate AgreeOff<V>(m: map<int, V>, m': map<int, V>, id: int) {
    && (forall k :: k in m && k != id ==> k in m' && m'[k] == m[k])
    && (forall k :: k in m' && k != id ==> k in m)
  }

  lemma AgreeEverywhere<V>(m: map<int, V>, m': map<int, V>, id: int)
    requires AgreeOff(m, m', id) && SameAt(m, m', id)
    ensures m == m'
  {
    forall k | k in m ensures k in m' && m[k] == m'[k] {
      if k == id {}
    }
    forall k | k in m' ensures k in m {
      if k == id {}
    }
  }

  /** The rows agree off `held`, and whatever `held` is bound to is `id` or nobody. */
  predicate RowsAgree(m: map<int, Allocation>, m': map<int, Allocation>, id: int, held: set<int>) {
    && m.Keys == m'.Keys
    && (forall a :: a in m && a !in held ==> m[a] == m'[a])
    && HeldBy(m, id, held) && HeldBy(m', id, held)
  }

  /** The tables agree except on server `id` and the allocations `held`. */
  ghost predicate SameOutside(t: Tables, t': Tables, id: int, held: set<int>) {
    && AgreeOff(t.servers, t'.servers, id)
    && AgreeOff(t.variables, t'.variables, id)
    && RowsAgree(t.allocations, t'.allocations, id, held)
  }

  ghost predicate RowsKept(m: map<int, Allocation>, m': map<int, Allocation>, held: set<int>) {
    forall a :: a in held ==> SameAt(m, m', a)
  }

  /** Server `id`, its variable rows and the allocations `held` are as they were. */
  ghost predicate Untouched(t: Tables, t': Tables, id: int, held: set<int>) {
    && SameAt(t.servers, t'.servers, id)
    && SameAt(t.variables, t'.variables, id)
    && RowsKept(t.allocations, t'.allocations, held)
  }

  lemma BindIsLocal(m: map<int, Allocation>, m': map<int, Allocation>, ids: set<int>, x: int, id: int, held: set<int>)
    requires RowsAgree(m, m', id, held) && ids !! held
    ensures RowsAgree(Bind(m, ids, x), Bind(m', ids, x), id, held)
    ensures RowsKept(m, Bind(m, ids, x), held)
  {
  }

  lemma WriteIsLocal(m: map<int, Allocation>, m': map<int, Allocation>, u: Undo, v: View, id: int, held: set<int>)
    requires u.RestoreAllocations? && RowsAgree(m, m', id, held) && u.bindings.Keys !! held
    ensures RowsAgree(WriteBindings(m, u, v), WriteBindings(m', u, v), id, held)
    ensures RowsKept(m, WriteBindings(m, u, v), held)
  {
  }

  lemma {:induction false} FaultsAgree(t: Tables, t': Tables, id: int, held: set<int>, taker: Option<int>, node: int,
                                       ids: seq<int>)
    requires SameOutside(t, t', id, held)
    requires forall a :: a in ids ==> a !in held
    ensures FirstFault(t, taker, node, ids) == FirstFault(t', taker, node, ids)
  {
    if ids == [] {
    } else {
      assert ids[0] in ids;
      assert AllocationFault(t, taker, node, ids[0]) == AllocationFault(t', taker, node, ids[0]);
      FaultsAgree(t, t', id, held, taker, node, ids[1..]);
    }
  }

  /** A row of another server put into both maps. */
  lemma PutIsLocal<V>(m: map<int, V>, m': map<int, V>, x: int, v: V, id: int)
    requires AgreeOff(m, m', id) && x != id
    ensures AgreeOff(m[x := v], m'[x := v], id) && SameAt(m, m[x := v], id)
  {
  }

  lemma CreatedIsLocal(t: Tables, t': Tables, x: int, f: CreateForm, rows: seq<VariableRow>, id: int, held: set<int>)
    requires SameOutside(t, t', id, held) && x != id && IdSet([f.allocation] + f.additional) !! held
    ensures SameOutside(Created(t, x, f, rows), Created(t', x, f, rows), id, held)
    ensures Untouched(t, Created(t, x, f, rows), id, held)
  {
    PutIsLocal(t.servers, t'.servers, x, NewServer(f), id);
    PutIsLocal(t.variables, t'.variables, x, rows, id);
    BindIsLocal(t.allocations, t'.allocations, IdSet([f.allocation] + f.additional), x, id, held);
  }

  /** Both tables accept or both refuse a creation, filling in the same rows. */
  lemma CreationsAgree(c: Catalogue, t: Tables, t': Tables, x: int, f: CreateForm, id: int, held: set<int>)
    requires SameOutside(t, t', id, held) && IdSet([f.allocation] + f.additional) !! held
    ensures var r, r' := CommitCreate(c, t, x, f), CommitCreate(c, t', x, f);
            && (r.Ok? <==> r'.Ok?)
            && (r.Ok? ==> x in r.value.variables && r.value == Created(t, x, f, r.value.variables[x])
                          && r'.value == Created(t', x, f, r.value.variables[x]))
  {
    FaultsAgree(t, t', id, held, None, f.node, [f.allocation] + f.additional);
  }

  lemma CreateIsLocal(c: Catalogue, t: Tables, t': Tables, x: int, f: CreateForm, id: int, held: set<int>)
    requires SameOutside(t, t', id, held) && Avoids(Do(Create(x, f)), id, held)
    ensures SameOutside(Apply(c, t, Do(Create(x, f))), Apply(c, t', Do(Create(x, f))), id, held)
    ensures Untouched(t, Apply(c, t, Do(Create(x, f))), id, held)
  {
    assert AllocationsOf(Do(Create(x, f))) == IdSet([f.allocation] + f.additional);
    CreationsAgree(c, t, t', x, f, id, held);
    var r := CommitCreate(c, t, x, f);
    if r.Ok? {
      CreatedIsLocal(t, t', x, f, r.value.variables[x], id, held);
    }
  }

  lemma AddIsLocal(c: Catalogue, t: Tables, t': Tables, x: int, ids: seq<int>, id: int, held: set<int>)
    requires SameOutside(t, t', id, held) && Avoids(Do(AddAllocations(x, ids)), id, held)
    ensures SameOutside(Apply(c, t, Do(AddAllocations(x, ids))), Apply(c, t', Do(AddAllocations(x, ids))), id, held)
    ensures Untouched(t, Apply(c, t, Do(AddAllocations(x, ids))), id, held)
  {
    assert AllocationsOf(Do(AddAllocations(x, ids))) == IdSet(ids);
    if x in t.servers {
      FaultsAgree(t, t', id, held, Some(x), t.servers[x].node, Unique(ids));
      BindIsLocal(t.allocations, t'.allocations, IdSet(ids), x, id, held);
    }
  }

  lemma PrimaryIsLocal(c: Catalogue, t: Tables, t': Tables, x: int, a: int, id: int, held: set<int>)
    requires SameOutside(t, t', id, held) && Avoids(Do(SetPrimary(x, a)), id, held)
    ensures SameOutside(Apply(c, t, Do(SetPrimary(x, a))), Apply(c, t', Do(SetPrimary(x, a))), id, held)
    ensures Untouched(t, Apply(c, t, Do(SetPrimary(x, a))), id, held)
  {
    assert a in AllocationsOf(Do(SetPrimary(x, a)));
    BindIsLocal(t.allocations, t'.allocations, {a}, x, id, held);
  }

  lemma RemoveIsLocal(c: Catalogue, t: Tables, t': Tables, x: int, a: int, id: int, held: set<int>)
    requires SameOutside(t, t', id, held) && Avoids(Do(RemoveAllocation(x, a)), id, held)
    ensures SameOutside(Apply(c, t, Do(RemoveAllocation(x, a))), Apply(c, t', Do(RemoveAllocation(x, a))), id, held)
    ensures Untouched(t, Apply(c, t, Do(RemoveAllocation(x, a))), id, held)
  {
    assert a in AllocationsOf(Do(RemoveAllocation(x, a)));
  }

  predicate OnConfig(op: Op) {
    !op.Create? && !op.AddAllocations? && !op.RemoveAllocation? && !op.SetPrimary?
  }

  /** The maps `n` and `n'` come from `m` and `m'` by putting the same at `x`. */
  ghost predicate SamePut<V>(m: map<int, V>, m': map<int, V>, n: map<int, V>, n': map<int, V>, x: int) {
    x in n && n == m[x := n[x]] && n' == m'[x := n[x]]
  }

  /** What such a mutation comes to is decided by the server's own row and variable rows. */
  lemma ConfigDecides(c: Catalogue, t: Tables, t': Tables, op: Op)
    requires OnConfig(op) && op.id in t.servers && op.id in t'.servers
    requires t.servers[op.id] == t'.servers[op.id] && RowsOf(t, op.id) == RowsOf(t', op.id)
    ensures var r, r' := CommitOnServer(c, t, op), CommitOnServer(c, t', op);
            && (r.Ok? <==> r'.Ok?)
            && (r.Ok? ==>
                  && r.value.allocations == t.allocations && r'.value.allocations == t'.allocations
                  && SamePut(t.servers, t'.servers, r.value.servers, r'.value.servers, op.id))
  {
    var r, r' := CommitOnServer(c, t, op), CommitOnServer(c, t', op);
    if r.Ok? {
      var s := r.value.servers[op.id];
      assert r.value.servers == t.servers[op.id := s] && r'.value.servers == t'.servers[op.id := s];
    }
  }

  lemma ConfigRows(c: Catalogue, t: Tables, t': Tables, op: Op)
    requires OnConfig(op) && op.id in t.servers && op.id in t'.servers
    requires t.servers[op.id] == t'.servers[op.id] && RowsOf(t, op.id) == RowsOf(t', op.id)
    requires CommitOnServer(c, t, op).Ok? && CommitOnServer(c, t', op).Ok?
    ensures var v, v' := CommitOnServer(c, t, op).value.variables, CommitOnServer(c, t', op).value.variables;
            || (v == t.variables && v' == t'.variables)
            || SamePut(t.variables, t'.variables, v, v', op.id)
  {
  }

  /** The mutations of one server's own row and variable rows. */
  lemma ConfigIsLocal(c: Catalogue, t: Tables, t': Tables, op: Op, id: int, held: set<int>)
    requires SameOutside(t, t', id, held) && Avoids(Do(op), id, held) && OnConfig(op)
    ensures SameOutside(Apply(c, t, Do(op)), Apply(c, t', Do(op)), id, held)
    ensures Untouched(t, Apply(c, t, Do(op)), id, held)
  {
    if op.id in t.servers {
      ConfigDecides(c, t, t', op);
      var r, r' := CommitOnServer(c, t, op), CommitOnServer(c, t', op);
      if r.Ok? {
        ConfigRows(c, t, t', op);
        ConfigShapeIsLocal(t, t', r.value, r'.value, op.id, id, held);
      }
    }
  }

  lemma ConfigShapeIsLocal(t: Tables, t': Tables, r: Tables, r': Tables, x: int, id: int, held: set<int>)
    requires SameOutside(t, t', id, held) && x != id
    requires r.allocations == t.allocations && r'.allocations == t'.allocations
    requires SamePut(t.servers, t'.servers, r.servers, r'.servers, x)
    requires || (r.variables == t.variables && r'.variables == t'.variables)
             || SamePut(t.variables, t'.variables, r.variables, r'.variables, x)
    ensures SameOutside(r, r', id, held) && Untouched(t, r, id, held)
  {
    PutIsLocal(t.servers, t'.servers, x, r.servers[x], id);
    if x in r.variables {
      PutIsLocal(t.variables, t'.variables, x, r.variables[x], id);
    }
  }

  lemma OpIsLocal(c: Catalogue, t: Tables, t': Tables, op: Op, id: int, held: set<int>)
    requires SameOutside(t, t', id, held) && Avoids(Do(op), id, held)
    ensures SameOutside(Apply(c, t, Do(op)), Apply(c, t', Do(op)), id, held)
    ensures Untouched(t, Apply(c, t, Do(op)), id, held)
  {
    match op
    case Create(x, f) => CreateIsLocal(c, t, t', x, f, id, held);
    case AddAllocations(x, ids) => AddIsLocal(c, t, t', x, ids, id, held);
    case RemoveAllocation(x, a) => RemoveIsLocal(c, t, t', x, a, id, held);
    case SetPrimary(x, a) => PrimaryIsLocal(c, t, t', x, a, id, held);
    case _ => ConfigIsLocal(c, t, t', op, id, held);
  }

  lemma RestoresAgree(t: Tables, t': Tables, u: Undo, v: View, id: int, held: set<int>)
    requires SameOutside(t, t', id, held) && u.RestoreAllocations? && Avoids(Restore(u, v), id, held)
    ensures RestoreCommits(t, u, v) <==> RestoreCommits(t', u, v)
  {
    forall a | a in u.bindings && u.bindings[a].server.Some?
      ensures u.bindings[a].server.value != id
    {
      assert u.bindings[a].server.value in ServersOf(Restore(u, v));
    }
    assert forall a :: a in u.bindings && a in t.allocations ==>
                         Seen(t.allocations, v, a) == Seen(t'.allocations, v, a);
  }

  lemma RestoreBindingsIsLocal(t: Tables, t': Tables, u: Undo, v: View, id: int, held: set<int>)
    requires SameOutside(t, t', id, held) && u.RestoreAllocations? && Avoids(Restore(u, v), id, held)
    ensures SameOutside(Compensate(t, u, v), Compensate(t', u, v), id, held)
    ensures Untouched(t, Compensate(t, u, v), id, held)
  {
    RestoresAgree(t, t', u, v, id, held);
    WriteIsLocal(t.allocations, t'.allocations, u, v, id, held);
  }

  lemma RestoreRowIsLocal(t: Tables, t': Tables, u: Undo, v: View, id: int, held: set<int>)
    requires SameOutside(t, t', id, held) && !u.RestoreAllocations? && !u.DropServer? && u.id != id
    ensures SameOutside(Compensate(t, u, v), Compensate(t', u, v), id, held)
    ensures Untouched(t, Compensate(t, u, v), id, held)
  {
    if u.id in t.servers {
      PutIsLocal(t.servers, t'.servers, u.id, Compensate(t, u, v).servers[u.id], id);
      if u.RestoreConfig? {
        PutIsLocal(t.variables, t'.variables, u.id, u.rows, id);
      }
    }
  }

  lemma RestoreIsLocal(c: Catalogue, t: Tables, t': Tables, u: Undo, v: View, id: int, held: set<int>)
    requires SameOutside(t, t', id, held) && Avoids(Restore(u, v), id, held)
    ensures SameOutside(Apply(c, t, Restore(u, v)), Apply(c, t', Restore(u, v)), id, held)
    ensures Untouched(t, Apply(c, t, Restore(u, v)), id, held)
  {
    if u.RestoreAllocations? {
      RestoreBindingsIsLocal(t, t', u, v, id, held);
    } else if u.DropServer? {
      DropIsLocal(c, t, t', u.id, id, held);
    } else {
      RestoreRowIsLocal(t, t', u, v, id, held);
    }
  }

  lemma DropIsLocal(c: Catalogue, t: Tables, t': Tables, x: int, id: int, held: set<int>)
    requires SameOutside(t, t', id, held) && x != id
    ensures SameOutside(DeleteRow(t, x), DeleteRow(t', x), id, held)
    ensures Untouched(t, DeleteRow(t, x), id, held)
  {
  }

  /** Both tables accept or both refuse a mutation. */
  lemma OpAgrees(c: Catalogue, t: Tables, t': Tables, op: Op, id: int, held: set<int>)
    requires SameOutside(t, t', id, held) && Avoids(Do(op), id, held)
    requires op.Create? ==> op.id !in t.servers && op.id !in t'.servers
    ensures Commit(c, t, op).Ok? <==> Commit(c, t', op).Ok?
  {
    match op
    case Create(x, f) =>
      assert AllocationsOf(Do(op)) == IdSet([f.allocation] + f.additional);
      FaultsAgree(t, t', id, held, None, f.node, [f.allocation] + f.additional);
    case AddAllocations(x, ids) =>
      assert AllocationsOf(Do(op)) == IdSet(ids);
      if x in t.servers {
        FaultsAgree(t, t', id, held, Some(x), t.servers[x].node, Unique(ids));
      }
    case _ =>
  }

  /** And it remembers the same of either. */
  lemma UndosAgree(c: Catalogue, t: Tables, t': Tables, op: Op, id: int, held: set<int>)
    requires SameOutside(t, t', id, held) && Avoids(Do(op), id, held)
    requires Owned(t) && (op.Create? ==> op.id !in t.servers && op.id !in t'.servers)
    requires Commit(c, t, op).Ok? && Commit(c, t', op).Ok?
    ensures UndoOf(c, t, op) == UndoOf(c, t', op)
  {
    if !op.Create? {
      var r, r' := Commit(c, t, op).value, Commit(c, t', op).value;
      OpIsLocal(c, t, t', op, id, held);
      assert r == Apply(c, t, Do(op)) && r' == Apply(c, t', Do(op));
      assert r.servers[op.id] == r'.servers[op.id];
      match op {
        case AddAllocations(x, ids) =>
          assert AllocationsOf(Do(op)) == IdSet(ids);
          BindingsAgree(t, t', r, r', x, IdSet(ids), id, held);
        case RemoveAllocation(x, a) => BindingsAgree(t, t', r, r', x, {a}, id, held);
        case SetPrimary(x, a) => BindingsAgree(t, t', r, r', x, {a}, id, held);
        case _ =>
      }
    }
  }

  lemma BindingsAgree(t: Tables, t': Tables, r: Tables, r': Tables, x: int, extra: set<int>, id: int, held: set<int>)
    requires SameOutside(t, t', id, held) && SameOutside(r, r', id, held)
    requires x != id && x in t.servers && extra !! held && PrimaryOwned(t, x)
    ensures var rows := SnapshotRows(t, x, extra);
            && rows == SnapshotRows(t', x, extra)
            && Bindings(t.allocations, rows) == Bindings(t'.allocations, rows)
            && Bindings(r.allocations, rows) == Bindings(r'.allocations, rows)
  {
    var rows := SnapshotRows(t, x, extra);
    assert forall a :: a in rows ==> a !in held;
    assert forall a :: a in rows <==> a in SnapshotRows(t', x, extra);
    BindingsOff(t.allocations, t'.allocations, rows, id, held);
    BindingsOff(r.allocations, r'.allocations, rows, id, held);
  }

  lemma BindingsOff(m: map<int, Allocation>, m': map<int, Allocation>, rows: set<int>, id: int, held: set<int>)
    requires RowsAgree(m, m', id, held) && rows !! held
    ensures Bindings(m, rows) == Bindings(m', rows)
  {
    var b, b' := Bindings(m, rows), Bindings(m', rows);
    assert forall a :: a in b <==> a in b';
    assert forall a :: a in b ==> b[a] == b'[a];
  }

  lemma ActionIsLocal(c: Catalogue, t: Tables, t': Tables, a: Action, id: int, held: set<int>)
    requires SameOutside(t, t', id, held) && Avoids(a, id, held)
    ensures SameOutside(Apply(c, t, a), Apply(c, t', a), id, held)
    ensures Untouched(t, Apply(c, t, a), id, held)
  {
    match a
    case Do(op) => OpIsLocal(c, t, t', op, id, held);
    case Restore(u, v) => RestoreIsLocal(c, t, t', u, v, id, held);
    case Drop(x) => DropIsLocal(c, t, t', x, id, held);
  }

  /** An action that does not name a server gives it no allocation. */
  predicate NoneBoundTo(t: Tables, id: int, held: set<int>) {
    forall a :: a in t.allocations && a !in held ==> t.allocations[a].server != Some(id)
  }

  lemma ActionBindsNothingTo(c: Catalogue, t: Tables, a: Action, id: int, held: set<int>)
    requires NoneBoundTo(t, id, held) && Avoids(a, id, held)
    ensures NoneBoundTo(Apply(c, t, a), id, held)
  {
    if a.Restore? && a.undo.RestoreAllocations? {
      assert forall x :: x in a.undo.bindings && a.undo.bindings[x].server.Some? ==>
                           a.undo.bindings[x].server.value in ServersOf(a);
    }
  }

  // ----- A failed mutation leaves no trace -----

  /** `t` is `s` with a mutation in place that `u` takes back. */
  ghost predicate Shadow(t: Tables, s: Tables, u: Undo) {
    && SameOutside(t, s, u.id, HeldFor(u))
    && AsLeft(t, u) && RestoreAll(t, u) == s
    && (u.DropServer? ==> NoneBoundTo(t, u.id, HeldFor(u)) && u.id !in s.servers && u.id !in s.variables)
    && (!u.DropServer? ==> u.id in t.servers && u.id in t.variables)
    && (u.RestoreAllocations? ==>
          && u.primary in u.bindings && u.primary in t.allocations
          && forall a :: a in u.bindings ==>
               u.bindings[a].server == None || u.bindings[a].server == Some(u.id))
  }

  /** The restore reads nothing but what nobody else has touched. */
  lemma ShadowStep(c: Catalogue, t: Tables, s: Tables, u: Undo, a: Action)
    requires Shadow(t, s, u) && Avoids(a, u.id, HeldFor(u))
    ensures Shadow(Apply(c, t, a), Apply(c, s, a), u)
  {
    var held := HeldFor(u);
    var t', s' := Apply(c, t, a), Apply(c, s, a);
    ActionIsLocal(c, t, s, a, u.id, held);
    SameOutsideCommutes(t, s, u.id, held);
    ActionIsLocal(c, s, t, a, u.id, held);
    if u.DropServer? {
      ActionBindsNothingTo(c, t, a, u.id, held);
    }
    StaysAsLeft(t, t', u);
    RestoredAfter(t, s, t', s', u);
  }

  /** Which a restore then takes back whatever of the rows the session still has. */
  lemma ShadowRestores(t: Tables, s: Tables, u: Undo, v: View)
    requires Shadow(t, s, u) && SeesLeft(u, v)
    ensures Compensate(t, u, v) == s
  {
    AsLeftRestoresAll(t, u, v);
  }

  /** The shadow after the step, from what the step left alone on either side. */
  lemma RestoredAfter(t: Tables, s: Tables, t': Tables, s': Tables, u: Undo)
    requires Shadow(t, s, u) && SameOutside(t', s', u.id, HeldFor(u))
    requires Untouched(t, t', u.id, HeldFor(u)) && Untouched(s, s', u.id, HeldFor(u))
    requires u.DropServer? ==> NoneBoundTo(t', u.id, HeldFor(u))
    ensures RestoreAll(t', u) == s'
  {
    var r := RestoreAll(t', u);
    AgreeEverywhere(r.servers, s'.servers, u.id);
    AgreeEverywhere(r.variables, s'.variables, u.id);
    AllocationsAfter(t, s, t', s', u);
  }

  lemma AllocationsAfter(t: Tables, s: Tables, t': Tables, s': Tables, u: Undo)
    requires Shadow(t, s, u) && SameOutside(t', s', u.id, HeldFor(u))
    requires Untouched(t, t', u.id, HeldFor(u)) && Untouched(s, s', u.id, HeldFor(u))
    requires u.DropServer? ==> NoneBoundTo(t', u.id, HeldFor(u))
    ensures RestoreAll(t', u).allocations == s'.allocations
  {
    var r := RestoreAll(t', u);
    forall x | x in s'.allocations ensures r.allocations[x] == s'.allocations[x] {
      if x in HeldFor(u) {
        assert SameAt(t.allocations, t'.allocations, x) && SameAt(s.allocations, s'.allocations, x);
        assert RestoreAll(t, u).allocations[x] == s.allocations[x];
      }
    }
  }

  lemma StaysAsLeft(t: Tables, t': Tables, u: Undo)
    requires AsLeft(t, u) && Untouched(t, t', u.id, HeldFor(u))
    ensures AsLeft(t', u)
  {
    if u.RestoreAllocations? {
      forall a | a in u.bindings ensures SameAt(t.allocations, t'.allocations, a) {
      }
      var b, b' := Bindings(t.allocations, u.bindings.Keys), Bindings(t'.allocations, u.bindings.Keys);
      assert forall a :: a in b <==> a in b';
      assert forall a :: a in b ==> b[a] == b'[a];
    }
  }

  lemma SameOutsideCommutes(t: Tables, t': Tables, id: int, held: set<int>)
    requires SameOutside(t, t', id, held)
    ensures SameOutside(t', t, id, held)
  {
  }

  /** When the undo of a mutation is exact, by `CreateUndoExactIff`, `BuildUndoExactIff` and `UndoIsExact`. */
  predicate Erasable(t: Tables, op: Op) {
    match op
    case Create(_, form) =>
      forall a :: a in IdSet([form.allocation] + form.additional) && a in t.allocations ==>
        t.allocations[a].notes == None
    case UpdateBuild(id, request) =>
      id in t.servers ==>
        var l := t.servers[id].limits;
        && (l.allocationLimit == None ==> request.allocationLimit == None)
        && (l.databaseLimit == None ==> request.databaseLimit == None)
        && l.threads != Some("")
    case _ => true
  }

  lemma CreateCastsShadow(c: Catalogue, t: Tables, id: int, f: CreateForm)
    requires Sound(t) && id !in t.servers
    requires Commit(c, t, Create(id, f)).Ok? && Erasable(t, Create(id, f))
    ensures Shadow(Commit(c, t, Create(id, f)).value, t, UndoOf(c, t, Create(id, f)))
  {
    SnapshotIsProper(c, t, Create(id, f));
    CreateUndoExactIff(c, t, id, f, View(map[], true));
    forall a | a in t.allocations ensures t.allocations[a].server != Some(id) {
      assert BindingSound(t, a);
    }
  }

  lemma AllocationEditCastsShadow(c: Catalogue, t: Tables, op: Op)
    requires Sound(t) && !op.Create?
    requires Commit(c, t, op).Ok? && UndoOf(c, t, op).RestoreAllocations?
    ensures Shadow(Commit(c, t, op).value, t, UndoOf(c, t, op))
  {
    SnapshotIsProper(c, t, op);
    AllocationUndoIsExact(c, t, op);
    ChangesAreSnapshotted(c, t, op);
  }

  lemma RowEditCastsShadow(c: Catalogue, t: Tables, op: Op)
    requires Sound(t) && !op.Create?
    requires Commit(c, t, op).Ok? && Erasable(t, op) && !UndoOf(c, t, op).RestoreAllocations?
    ensures Shadow(Commit(c, t, op).value, t, UndoOf(c, t, op))
  {
    if op.UpdateBuild? {
      BuildUndoExactIff(c, t, op.id, op.request, View(map[], true));
    } else {
      RowUndoIsExact(c, t, op);
    }
  }

  lemma CommitCastsShadow(c: Catalogue, t: Tables, op: Op)
    requires Sound(t) && (op.Create? ==> op.id !in t.servers)
    requires Commit(c, t, op).Ok? && Erasable(t, op)
    ensures Shadow(Commit(c, t, op).value, t, UndoOf(c, t, op))
  {
    if op.Create? {
      CreateCastsShadow(c, t, op.id, op.form);
    } else if UndoOf(c, t, op).RestoreAllocations? {
      AllocationEditCastsShadow(c, t, op);
    } else {
      RowEditCastsShadow(c, t, op);
    }
  }

  /** Between commit and compensation any run of other operations, compensations and deletions
      that name neither this server nor an allocation to be restored keeps all its effects:
      the result is that run alone, as if the failed mutation had never been attempted. */
  lemma FailedMutationLeavesNoTrace(c: Catalogue, t: Tables, op: Op, actions: seq<Action>, v: View)
    requires Sound(t) && (op.Create? ==> op.id !in t.servers)
    requires Commit(c, t, op).Ok? && Erasable(t, op)
    requires AllAvoid(actions, op.id, HeldFor(UndoOf(c, t, op))) && SeesLeft(UndoOf(c, t, op), v)
    ensures Compensate(ApplyAll(c, Commit(c, t, op).value, actions), UndoOf(c, t, op), v) == ApplyAll(c, t, actions)
  {
    CommitCastsShadow(c, t, op);
    ShadowRun(c, Commit(c, t, op).value, t, UndoOf(c, t, op), actions);
    ShadowRestores(ApplyAll(c, Commit(c, t, op).value, actions), ApplyAll(c, t, actions), UndoOf(c, t, op), v);
  }

  lemma {:induction false} ShadowRun(c: Catalogue, t: Tables, s: Tables, u: Undo, actions: seq<Action>)
    requires Shadow(t, s, u) && AllAvoid(actions, u.id, HeldFor(u))
    ensures Shadow(ApplyAll(c, t, actions), ApplyAll(c, s, actions), u)
    decreases |actions|
  {
    if actions == [] {
    } else {
      ShadowStep(c, t, s, u, actions[0]);
      ShadowRun(c, Apply(c, t, actions[0]), Apply(c, s, actions[0]), u, actions[1..]);
    }
  }
}
