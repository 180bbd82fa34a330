/** What each mutation accepts, and what it changes, said without its steps. */
module PanelEffects {
  import opened Common
  import opened Panel
  import opened PanelVariables
  import PanelStore
  import PanelUndo
  import Text

  /** An allocation a server may take: it exists, lies on the node, and is free or already the taker's. */
  predicate Takeable(t: Tables, id: Option<int>, node: int, a: int) {
    && a in t.allocations
    && t.allocations[a].node == node
    && (t.allocations[a].server == None || t.allocations[a].server == id)
  }

  /** Exactly the given allocations become the server's, with node and notes as they were. */
  predicate Takes(before: map<int, Allocation>, now: map<int, Allocation>, ids: set<int>, id: int) {
    && now.Keys == before.Keys
    && forall a :: a in before ==>
         && now[a].node == before[a].node && now[a].notes == before[a].notes
         && now[a].server == if a in ids then Some(id) else before[a].server
  }

  lemma AddAllocationsMeans(c: Catalogue, t: Tables, id: int, ids: seq<int>)
    requires id in t.servers
    ensures var r := Commit(c, t, AddAllocations(id, ids));
            && (r.Ok? <==> forall a :: a in ids ==> Takeable(t, Some(id), t.servers[id].node, a))
            && (r.Ok? ==> r.value.servers == t.servers && r.value.variables == t.variables
                          && Takes(t.allocations, r.value.allocations, IdSet(ids), id))
  {
    assert forall a :: a in Unique(ids) <==> a in ids;
    assert forall a :: Takeable(t, Some(id), t.servers[id].node, a)
                       <==> AllocationFault(t, Some(id), t.servers[id].node, a) == None;
  }

  lemma RemoveAllocationMeans(c: Catalogue, t: Tables, id: int, a: int)
    requires id in t.servers
    ensures var r := Commit(c, t, RemoveAllocation(id, a));
            && (r.Ok? <==> t.servers[id].allocation != a && a in t.allocations && t.allocations[a].server == Some(id))
            && (r.Ok? ==> && r.value.servers == t.servers && r.value.variables == t.variables
                          && r.value.allocations.Keys == t.allocations.Keys
                          && (forall x :: x in t.allocations && x != a ==> r.value.allocations[x] == t.allocations[x])
                          && r.value.allocations[a] == Allocation(t.allocations[a].node, None, None))
  {
  }

  lemma SetPrimaryMeans(c: Catalogue, t: Tables, id: int, a: int)
    requires id in t.servers
    ensures var r := Commit(c, t, SetPrimary(id, a));
            && (r.Ok? <==> Takeable(t, Some(id), t.servers[id].node, a))
            && (r.Ok? ==> && r.value.variables == t.variables
                          && Takes(t.allocations, r.value.allocations, {a}, id)
                          && r.value.servers == t.servers[id := t.servers[id].(allocation := a)])
  {
  }

  /** The value a request gives a variable, or else its default, passes the variable's rules. */
  predicate Suits(c: Catalogue, v: EggVariable, environment: map<string, string>) {
    c.accepts(if v.env in environment then environment[v.env] else v.defaultValue, v.rules)
  }

  predicate AllSuit(c: Catalogue, variables: seq<EggVariable>, environment: map<string, string>) {
    forall k :: 0 <= k < |variables| ==> Suits(c, variables[k], environment)
  }

  lemma {:induction false} FilledRowsMean(c: Catalogue, variables: seq<EggVariable>, environment: map<string, string>)
    ensures var r := FillVariables(c, variables, environment);
            && (r.Ok? <==> AllSuit(c, variables, environment))
            && (r.Ok? ==> Filled(r.value, variables, environment))
  {
    if variables == [] {
    } else {
      FilledRowsMean(c, variables[1..], environment);
      assert forall k :: 0 < k < |variables| ==> variables[k] == variables[1..][k - 1];
    }
  }

  /** The new server has everything the form says, is installing, and has never been installed. */
  predicate AsAsked(s: Server, f: CreateForm) {
    && s.uuid == f.uuid && s.node == f.node && s.owner == f.owner && s.name == f.name && s.description == f.description
    && s.status == Some("installing") && s.installedAt == None
    && s.limits == f.limits && s.allocation == f.allocation && s.nest == f.nest && s.egg == f.egg
    && s.image == f.image && s.startup == f.startup && s.skipScripts == f.skipScripts
  }

  /** Row for row, each variable with the request's value or its default. */
  predicate Filled(rows: seq<VariableRow>, variables: seq<EggVariable>, environment: map<string, string>) {
    && |rows| == |variables|
    && forall k :: 0 <= k < |rows| ==>
         var v := variables[k];
         rows[k] == VariableRow(v.id, if v.env in environment then environment[v.env] else v.defaultValue)
  }

  lemma CreateMeans(c: Catalogue, t: Tables, id: int, f: CreateForm)
    requires id !in t.servers
    ensures var r := Commit(c, t, Create(id, f));
            && (r.Ok? <==>
                  && f.owner in c.users && f.node in c.nodes && f.egg in c.eggs && c.eggs[f.egg].nest == f.nest
                  && (forall a :: a in [f.allocation] + f.additional ==> Takeable(t, None, f.node, a))
                  && AllSuit(c, c.eggs[f.egg].variables, f.environment))
            && (r.Ok? ==>
                  && r.value.servers.Keys == t.servers.Keys + {id}
                  && (forall x :: x in t.servers ==> r.value.servers[x] == t.servers[x])
                  && AsAsked(r.value.servers[id], f)
                  && Takes(t.allocations, r.value.allocations, IdSet([f.allocation] + f.additional), id)
                  && r.value.variables.Keys == t.variables.Keys + {id}
                  && (forall x :: x in t.variables && x != id ==> r.value.variables[x] == t.variables[x])
                  && Filled(r.value.variables[id], c.eggs[f.egg].variables, f.environment))
  {
    var ids := [f.allocation] + f.additional;
    assert forall a :: Takeable(t, None, f.node, a) <==> AllocationFault(t, None, f.node, a) == None;
    if f.egg in c.eggs {
      FilledRowsMean(c, c.eggs[f.egg].variables, f.environment);
    }
  }

  /** The edit that names a variable, if any. */
  ghost predicate EditedBy(c: Catalogue, egg: int, edits: seq<VariableEdit>, i: int, v: EggVariable) {
    0 <= i < |edits| && Named(VariablesOf(c, egg), edits[i].env) == Some(v)
  }

  predicate EditsAccepted(c: Catalogue, egg: int, edits: seq<VariableEdit>) {
    forall i :: 0 <= i < |edits| ==>
      var v := Named(VariablesOf(c, egg), edits[i].env);
      v.Some? && c.accepts(edits[i].value, v.value.rules)
  }

  /** Putting a variable's value in aligned rows changes that variable's row alone. */
  lemma PutAligned(c: Catalogue, egg: int, rows: seq<VariableRow>, v: EggVariable, value: string, k: int)
    requires WellFormed(c) && Aligned(c, egg, rows) && v in VariablesOf(c, egg) && ValueAccepted(c, v, value)
    requires 0 <= k < |rows|
    ensures var put := PutRow(rows, v.id, value);
            && Aligned(c, egg, put) && |put| == |rows|
            && put[k] == if VariablesOf(c, egg)[k] == v then VariableRow(v.id, value) else rows[k]
  {
    var variables := VariablesOf(c, egg);
    var h :| 0 <= h < |variables| && variables[h] == v;
    assert rows[h].variable == v.id;
    assert forall j :: 0 <= j < |rows| && j != h ==> rows[j].variable != v.id by {
      forall j | 0 <= j < |rows| && j != h ensures rows[j].variable != v.id {
        assert variables[if j < h then j else h].id != variables[if j < h then h else j].id;
      }
    }
    assert LastRow(rows, v.id) == h;
  }

  /** On aligned rows an edit is accepted exactly when it names known variables and passes their rules. */
  lemma {:induction false} EditedRowsAccepted(c: Catalogue, egg: int, rows: seq<VariableRow>, edits: seq<VariableEdit>)
    ensures EditRows(c, VariablesOf(c, egg), rows, edits).Ok? <==> EditsAccepted(c, egg, edits)
    decreases |edits|
  {
    if edits == [] {
    } else {
      var head, rest := edits[0], edits[1..];
      var v := Named(VariablesOf(c, egg), head.env);
      assert forall i :: 0 < i < |edits| ==> edits[i] == rest[i - 1];
      assert forall i :: 0 <= i < |rest| ==> rest[i] == edits[i + 1];
      if v.Some? {
        EditedRowsAccepted(c, egg, PutRow(rows, v.value.id, head.value), rest);
      }
    }
  }

  /** Then a named variable's row holds its new value, and any other row is as it was. */
  lemma {:induction false} EditedRowMeans(c: Catalogue, egg: int, rows: seq<VariableRow>, edits: seq<VariableEdit>,
                                          k: int)
    requires WellFormed(c) && Aligned(c, egg, rows) && PanelStore.DistinctKeys(edits) && 0 <= k < |rows|
    requires EditRows(c, VariablesOf(c, egg), rows, edits).Ok?
    ensures var r := EditRows(c, VariablesOf(c, egg), rows, edits).value;
            var v := VariablesOf(c, egg)[k];
            && |r| == |rows| && r[k].variable == rows[k].variable
            && (forall i :: EditedBy(c, egg, edits, i, v) ==> r[k].value == edits[i].value)
            && ((forall i :: !EditedBy(c, egg, edits, i, v)) ==> r[k] == rows[k])
    decreases |edits|
  {
    if edits == [] {
    } else {
      var v := Named(VariablesOf(c, egg), edits[0].env).value;
      var w := VariablesOf(c, egg)[k];
      PutAligned(c, egg, rows, v, edits[0].value, k);
      EditedRowMeans(c, egg, PutRow(rows, v.id, edits[0].value), edits[1..], k);
      RowAfterHead(c, egg, edits, w, v);
      assert forall i :: EditedBy(c, egg, edits, i, w) && i > 0 ==> edits[i] == edits[1..][i - 1];
    }
  }

  /** Only the first edit can name what it names; for any other variable the rest decide. */
  lemma RowAfterHead(c: Catalogue, egg: int, edits: seq<VariableEdit>, w: EggVariable, v: EggVariable)
    requires WellFormed(c) && PanelStore.DistinctKeys(edits) && edits != []
    requires Named(VariablesOf(c, egg), edits[0].env) == Some(v)
    ensures forall i :: i > 0 ==> (EditedBy(c, egg, edits, i, w) <==> EditedBy(c, egg, edits[1..], i - 1, w))
    ensures forall i :: EditedBy(c, egg, edits[1..], i, w) ==> EditedBy(c, egg, edits, i + 1, w)
    ensures EditedBy(c, egg, edits, 0, w) <==> w == v
    ensures w == v ==> forall i :: !EditedBy(c, egg, edits[1..], i, w)
  {
    if w == v {
      forall i ensures !EditedBy(c, egg, edits[1..], i, w) {
        if 0 <= i < |edits| - 1 {
          PanelStore.NamesTellApart(c, egg, edits[0].env, edits[i + 1].env);
        }
      }
    }
  }

  /** A variable edit as a whole: accepted or not, and row by row. */
  lemma UpdateVariablesMeans(c: Catalogue, t: Tables, id: int, edits: seq<VariableEdit>)
    requires id in t.servers && id in t.variables
    requires WellFormed(c) && Aligned(c, t.servers[id].egg, t.variables[id]) && PanelStore.DistinctKeys(edits)
    ensures var r := Commit(c, t, UpdateVariables(id, edits));
            && (r.Ok? <==> EditsAccepted(c, t.servers[id].egg, edits))
            && (r.Ok? ==>
                  && r.value.servers == t.servers && r.value.allocations == t.allocations
                  && r.value.variables.Keys == t.variables.Keys
                  && |r.value.variables[id]| == |t.variables[id]|
                  && forall x :: x in t.variables && x != id ==> r.value.variables[x] == t.variables[x])
    ensures var r := Commit(c, t, UpdateVariables(id, edits));
            r.Ok? ==> forall k :: 0 <= k < |t.variables[id]| ==>
              var v := VariablesOf(c, t.servers[id].egg)[k];
              var row := r.value.variables[id][k];
              && row.variable == v.id
              && (forall i :: EditedBy(c, t.servers[id].egg, edits, i, v) ==> row.value == edits[i].value)
              && ((forall i :: !EditedBy(c, t.servers[id].egg, edits, i, v)) ==> row == t.variables[id][k])
  {
    var egg, rows := t.servers[id].egg, t.variables[id];
    EditedRowsAccepted(c, egg, rows, edits);
    if EditRows(c, VariablesOf(c, egg), rows, edits).Ok? {
      PanelVariables.EditedRowsAlign(c, egg, rows, edits);
      forall k | 0 <= k < |rows| {
        EditedRowMeans(c, egg, rows, edits, k);
      }
    }
  }

  // ----- Edits of the server row -----

  /** Nothing but the row of one server has changed. */
  predicate OnlyServer(t: Tables, now: Tables, id: int) {
    && now.allocations == t.allocations && now.variables == t.variables
    && now.servers.Keys == t.servers.Keys
    && forall x :: x in t.servers && x != id ==> now.servers[x] == t.servers[x]
  }

  /** The columns no mutation of an existing server writes. */
  predicate SameIdentity(a: Server, b: Server) {
    a.uuid == b.uuid && a.node == b.node && a.owner == b.owner && a.name == b.name && a.description == b.description
  }

  predicate SameStatus(a: Server, b: Server) {
    a.status == b.status && a.installedAt == b.installedAt
  }

  predicate SameConfig(a: Server, b: Server) {
    a.nest == b.nest && a.egg == b.egg && a.image == b.image && a.startup == b.startup && a.skipScripts == b.skipScripts
  }

  lemma SuspendMeans(c: Catalogue, t: Tables, id: int)
    ensures var r := Commit(c, t, Suspend(id));
            && (r.Ok? <==> id in t.servers)
            && (r.Ok? ==>
                  && OnlyServer(t, r.value, id)
                  && var a, b := t.servers[id], r.value.servers[id];
                     && b.status == Some("suspended") && b.installedAt == a.installedAt
                     && SameIdentity(a, b) && SameConfig(a, b) && b.limits == a.limits && b.allocation == a.allocation)
  {
  }

  lemma UnsuspendMeans(c: Catalogue, t: Tables, id: int)
    ensures var r := Commit(c, t, Unsuspend(id));
            && (r.Ok? <==> id in t.servers)
            && (r.Ok? ==>
                  && OnlyServer(t, r.value, id)
                  && var a, b := t.servers[id], r.value.servers[id];
                     && b.status == None && b.installedAt == a.installedAt
                     && SameIdentity(a, b) && SameConfig(a, b) && b.limits == a.limits && b.allocation == a.allocation)
  {
  }

  lemma ReinstallMeans(c: Catalogue, t: Tables, id: int)
    ensures var r := Commit(c, t, Reinstall(id));
            && (r.Ok? <==> id in t.servers)
            && (r.Ok? ==>
                  && OnlyServer(t, r.value, id)
                  && var a, b := t.servers[id], r.value.servers[id];
                     && b.status == Some("installing") && b.installedAt == None
                     && SameIdentity(a, b) && SameConfig(a, b) && b.limits == a.limits && b.allocation == a.allocation)
  {
  }

  /** A given image or startup line is not just white space. */
  predicate EditFilled(edit: ConfigEdit) {
    && (edit.image.Some? ==> !Text.AllSpace(edit.image.value))
    && (edit.startup.Some? ==> !Text.AllSpace(edit.startup.value))
  }

  /** A column that was given holds it without the white space at its ends; one that was not is as it was. */
  ghost predicate Trims(before: string, given: Option<string>, now: string) {
    if given.None? then now == before else exists i, j :: Text.CutAt(given.value, i, j, now)
  }

  ghost predicate Edits(a: Server, edit: ConfigEdit, b: Server) {
    && Trims(a.image, edit.image, b.image) && Trims(a.startup, edit.startup, b.startup)
    && b.skipScripts == if edit.skipScripts.Some? then edit.skipScripts.value else a.skipScripts
  }

  lemma ConfigEditMeans(s: Server, edit: ConfigEdit)
    ensures var r := ApplyConfig(s, edit);
            && (r.Ok? <==> EditFilled(edit))
            && (r.Ok? ==>
                  && Edits(s, edit, r.value) && r.value.nest == s.nest && r.value.egg == s.egg
                  && SameIdentity(s, r.value) && SameStatus(s, r.value)
                  && r.value.limits == s.limits && r.value.allocation == s.allocation)
  {
    if edit.image.Some? {
      Text.StripCuts(edit.image.value);
    }
    if edit.startup.Some? {
      Text.StripCuts(edit.startup.value);
    }
  }

  lemma StartupMeans(c: Catalogue, t: Tables, id: int, edit: ConfigEdit)
    ensures var r := Commit(c, t, UpdateStartup(id, edit));
            && (r.Ok? <==> id in t.servers && EditFilled(edit))
            && (r.Ok? ==>
                  && OnlyServer(t, r.value, id)
                  && var a, b := t.servers[id], r.value.servers[id];
                     && Edits(a, edit, b) && b.nest == a.nest && b.egg == a.egg
                     && SameIdentity(a, b) && SameStatus(a, b) && b.limits == a.limits && b.allocation == a.allocation)
  {
    if id in t.servers {
      ConfigEditMeans(t.servers[id], edit);
    }
  }

  lemma SwitchMeans(c: Catalogue, t: Tables, op: Op)
    requires op.SwitchEgg?
    ensures var r, id := Commit(c, t, op), op.id;
            && (r.Ok? <==>
                  && id in t.servers && op.egg in c.eggs && c.eggs[op.egg].nest == op.nest
                  && AllSuit(c, c.eggs[op.egg].variables, op.environment) && EditFilled(op.edit))
            && (r.Ok? ==>
                  && OnlyServer(t, r.value.(variables := t.variables), id)
                  && r.value.variables.Keys == t.variables.Keys + {id}
                  && (forall x :: x in t.variables && x != id ==> r.value.variables[x] == t.variables[x])
                  && Filled(r.value.variables[id], c.eggs[op.egg].variables, op.environment)
                  && var a, b := t.servers[id], r.value.servers[id];
                     && Edits(a, op.edit, b) && b.nest == op.nest && b.egg == op.egg
                     && SameIdentity(a, b) && SameStatus(a, b) && b.limits == a.limits && b.allocation == a.allocation)
  {
    if op.id in t.servers && op.egg in c.eggs {
      FilledRowsMean(c, c.eggs[op.egg].variables, op.environment);
      ConfigEditMeans(t.servers[op.id].(nest := op.nest, egg := op.egg), op.edit);
    }
  }

  predicate Given<T(==)>(before: T, given: Option<T>, now: T) {
    now == if given.Some? then given.value else before
  }

  lemma BuildMeans(c: Catalogue, t: Tables, id: int, request: BuildRequest)
    ensures var r := Commit(c, t, UpdateBuild(id, request));
            && (r.Ok? <==> id in t.servers)
            && (r.Ok? ==>
                  && OnlyServer(t, r.value, id)
                  && var a, b := t.servers[id], r.value.servers[id];
                     SameIdentity(a, b) && SameStatus(a, b) && SameConfig(a, b) && b.allocation == a.allocation)
    ensures var r := Commit(c, t, UpdateBuild(id, request));
            r.Ok? ==>
              var a, b := t.servers[id].limits, r.value.servers[id].limits;
              && Given(a.memory, request.memory, b.memory) && Given(a.swap, request.swap, b.swap)
              && Given(a.disk, request.disk, b.disk) && Given(a.io, request.io, b.io)
              && Given(a.cpu, request.cpu, b.cpu) && Given(a.backupLimit, request.backupLimit, b.backupLimit)
              && Given(a.oomDisabled, request.oomDisabled, b.oomDisabled)
              && (forall n :: request.allocationLimit == Some(n) ==> b.allocationLimit == Some(n))
              && (request.allocationLimit == None ==> b.allocationLimit == a.allocationLimit)
              && (forall n :: request.databaseLimit == Some(n) ==> b.databaseLimit == Some(n))
              && (request.databaseLimit == None ==> b.databaseLimit == a.databaseLimit)
              && (!request.updateThreads ==> b.threads == a.threads)
              && (request.updateThreads ==> b.threads != Some("") && forall pin :: pin != "" ==>
                    (b.threads == Some(pin) <==> request.threads == Some(pin)))
  {
  }

  // ----- Refusals -----

  /** What each refusal says is so. */
  ghost predicate IsSo(c: Catalogue, t: Tables, op: Op, e: Error) {
    match e
    case ServerNotFound => !op.Create? && op.id !in t.servers
    case UserNotFound => op.Create? && op.form.owner !in c.users
    case NodeNotFound => op.Create? && op.form.node !in c.nodes
    case EggNotFound => (op.Create? && op.form.egg !in c.eggs) || (op.SwitchEgg? && op.egg !in c.eggs)
    case NestMismatch =>
      || (op.Create? && op.form.egg in c.eggs && c.eggs[op.form.egg].nest != op.form.nest)
      || (op.SwitchEgg? && op.egg in c.eggs && c.eggs[op.egg].nest != op.nest)
    case AllocationNotFound(a) => a in Asked(op) && a !in t.allocations
    case WrongNode(a) => a in Asked(op) && a in t.allocations && t.allocations[a].node != NodeOf(t, op)
    case AllocationTaken(a) =>
      && a in Asked(op) && a in t.allocations && t.allocations[a].server.Some?
      && (op.Create? || t.allocations[a].server.value != op.id)
    case IsPrimary => op.RemoveAllocation? && op.id in t.servers && t.servers[op.id].allocation == op.allocation
    case NotOwned(a) =>
      op.RemoveAllocation? && a == op.allocation && (a in t.allocations ==> t.allocations[a].server != Some(op.id))
    case EmptyImage => exists s :: EditOf(op).image == Some(s) && Text.AllSpace(s)
    case EmptyStartup => exists s :: EditOf(op).startup == Some(s) && Text.AllSpace(s)
    case UnknownVariable =>
      && op.UpdateVariables? && op.id in t.servers
      && exists i :: 0 <= i < |op.edits|
                     && forall v :: v in VariablesOf(c, t.servers[op.id].egg) ==> v.env != op.edits[i].env
    case BadVariable(env) => exists v, value :: BadValue(c, t, op, v, value) && v.env == env
  }

  function Asked(op: Op): seq<int> {
    match op
    case Create(_, f) => [f.allocation] + f.additional
    case AddAllocations(_, ids) => ids
    case SetPrimary(_, a) => [a]
    case _ => []
  }

  function NodeOf(t: Tables, op: Op): int {
    if op.Create? then op.form.node else if op.id in t.servers then t.servers[op.id].node else 0
  }

  function EditOf(op: Op): ConfigEdit {
    match op
    case UpdateStartup(_, edit) => edit
    case SwitchEgg(_, _, _, _, edit) => edit
    case _ => ConfigEdit(None, None, None)
  }

  /** The mutation would give the variable a value its rules refuse. */
  predicate BadValue(c: Catalogue, t: Tables, op: Op, v: EggVariable, value: string) {
    && !c.accepts(value, v.rules)
    && match op
       case Create(_, f) => v in VariablesOf(c, f.egg) && value == GetOr(f.environment, v.env, v.defaultValue)
       case SwitchEgg(_, _, egg, environment, _) =>
         v in VariablesOf(c, egg) && value == GetOr(environment, v.env, v.defaultValue)
       case UpdateVariables(id, edits) =>
         id in t.servers && v in VariablesOf(c, t.servers[id].egg) && VariableEdit(v.env, value) in edits
       case _ => false
  }

  lemma {:induction false} FirstFaultIsTrue(t: Tables, id: Option<int>, node: int, ids: seq<int>)
    ensures var e := FirstFault(t, id, node, ids);
            e.Some? ==> match e.value
                        case AllocationNotFound(a) => a in ids && a !in t.allocations
                        case WrongNode(a) => a in ids && a in t.allocations && t.allocations[a].node != node
                        case AllocationTaken(a) =>
                          && a in ids && a in t.allocations
                          && t.allocations[a].server.Some? && t.allocations[a].server != id
                        case _ => false
  {
    if ids == [] {
    } else {
      FirstFaultIsTrue(t, id, node, ids[1..]);
    }
  }

  lemma {:induction false} FillFaultIsTrue(c: Catalogue, variables: seq<EggVariable>, environment: map<string, string>)
    ensures var r := FillVariables(c, variables, environment);
            r.Err? ==> exists v :: v in variables && r.error == BadVariable(v.env)
                                   && !c.accepts(GetOr(environment, v.env, v.defaultValue), v.rules)
  {
    if variables == [] {
    } else {
      FillFaultIsTrue(c, variables[1..], environment);
    }
  }

  lemma {:induction false} EditFaultIsTrue(c: Catalogue, variables: seq<EggVariable>, rows: seq<VariableRow>,
                                           edits: seq<VariableEdit>)
    requires AllNamed(variables, edits)
    ensures var r := EditRows(c, variables, rows, edits);
            r.Err? ==> exists v, value :: v in variables && r.error == BadVariable(v.env)
                                          && VariableEdit(v.env, value) in edits && !c.accepts(value, v.rules)
    decreases |edits|
  {
    if edits == [] {
    } else {
      var v, rest := Named(variables, edits[0].env).value, edits[1..];
      assert forall i :: 0 <= i < |rest| ==> rest[i] == edits[i + 1];
      if c.accepts(edits[0].value, v.rules) {
        EditFaultIsTrue(c, variables, PutRow(rows, v.id, edits[0].value), rest);
      } else {
        assert VariableEdit(v.env, edits[0].value) == edits[0];
      }
    }
  }

  /** Whatever a mutation is refused for is so. */
  lemma RefusalIsTrue(c: Catalogue, t: Tables, op: Op)
    requires (op.Create? ==> op.id !in t.servers) && Commit(c, t, op).Err?
    ensures IsSo(c, t, op, Commit(c, t, op).error)
  {
    if op.Create? || op.id in t.servers {
      match op
      case Create(id, f) => CreateRefusalIsTrue(c, t, id, f);
      case AddAllocations(id, ids) => FirstFaultIsTrue(t, Some(id), t.servers[id].node, Unique(ids));
      case SwitchEgg(_, _, _, _, _) => SwitchRefusalIsTrue(c, t, op);
      case UpdateStartup(_, edit) => EditRefusalIsTrue(t.servers[op.id], edit);
      case UpdateVariables(id, edits) => VariablesRefusalIsTrue(c, t, id, edits);
      case _ =>
    }
  }

  lemma CreateRefusalIsTrue(c: Catalogue, t: Tables, id: int, f: CreateForm)
    requires id !in t.servers && Commit(c, t, Create(id, f)).Err?
    ensures IsSo(c, t, Create(id, f), Commit(c, t, Create(id, f)).error)
  {
    FirstFaultIsTrue(t, None, f.node, [f.allocation] + f.additional);
    if f.egg in c.eggs {
      FillRefusalIsTrue(c, t, Create(id, f), f.egg, f.environment);
    }
  }

  lemma FillRefusalIsTrue(c: Catalogue, t: Tables, op: Op, egg: int, environment: map<string, string>)
    requires egg in c.eggs
    requires || (op.Create? && op.form.egg == egg && op.form.environment == environment)
             || (op.SwitchEgg? && op.egg == egg && op.environment == environment)
    ensures var r := FillVariables(c, c.eggs[egg].variables, environment);
            r.Err? ==> IsSo(c, t, op, r.error)
  {
    var variables := c.eggs[egg].variables;
    FillFaultIsTrue(c, variables, environment);
    var r := FillVariables(c, variables, environment);
    if r.Err? {
      var v :| v in variables && r.error == BadVariable(v.env)
               && !c.accepts(GetOr(environment, v.env, v.defaultValue), v.rules);
      assert BadValue(c, t, op, v, GetOr(environment, v.env, v.defaultValue));
    }
  }

  lemma EditRefusalIsTrue(s: Server, edit: ConfigEdit)
    ensures var r := ApplyConfig(s, edit);
            r.Err? ==> || (r.error == EmptyImage && edit.image.Some? && Text.AllSpace(edit.image.value))
                       || (r.error == EmptyStartup && edit.startup.Some? && Text.AllSpace(edit.startup.value))
  {
    if edit.image.Some? {
      Text.StripCuts(edit.image.value);
    }
    if edit.startup.Some? {
      Text.StripCuts(edit.startup.value);
    }
  }

  lemma SwitchRefusalIsTrue(c: Catalogue, t: Tables, op: Op)
    requires op.SwitchEgg? && op.id in t.servers && Commit(c, t, op).Err?
    ensures IsSo(c, t, op, Commit(c, t, op).error)
  {
    if op.egg in c.eggs {
      FillRefusalIsTrue(c, t, op, op.egg, op.environment);
      EditRefusalIsTrue(t.servers[op.id].(nest := op.nest, egg := op.egg), op.edit);
    }
  }

  lemma VariablesRefusalIsTrue(c: Catalogue, t: Tables, id: int, edits: seq<VariableEdit>)
    requires id in t.servers && Commit(c, t, UpdateVariables(id, edits)).Err?
    ensures IsSo(c, t, UpdateVariables(id, edits), Commit(c, t, UpdateVariables(id, edits)).error)
  {
    var op, variables := UpdateVariables(id, edits), VariablesOf(c, t.servers[id].egg);
    if AllNamed(variables, edits) {
      EditFaultIsTrue(c, variables, RowsOf(t, id), edits);
      var e := Commit(c, t, op).error;
      var v, value :| v in variables && e == BadVariable(v.env)
                      && VariableEdit(v.env, value) in edits && !c.accepts(value, v.rules);
      assert BadValue(c, t, op, v, value);
    }
  }

  // ----- Calls -----

  /** What a call of the store makes of the tables, by its answer. */
  lemma CallMeans(c: Catalogue, t: Tables, op: Op, o: PanelStore.Outside, t': Tables,
                  r: Result<(), PanelStore.Failure>)
    requires (op.Create? ==> op.id !in t.servers) && PanelStore.Performs(c, t, op, o, t', r)
    ensures r.Ok? <==> Commit(c, t, op).Ok? && o.wingsAccepts
    ensures r.Ok? ==> Commit(c, t, op) == Ok(t')
    ensures r.Err? && r.error.Rejected? ==> t' == t && IsSo(c, t, op, r.error.error)
    ensures (&& r == Err(PanelStore.Upstream) && o.restoreCommits && PanelUndo.Sound(t)
             && !op.Create? && !op.UpdateBuild? && PanelUndo.SeesLeft(UndoOf(c, t, op), o.view)) ==> t' == t
  {
    if Commit(c, t, op).Err? {
      RefusalIsTrue(c, t, op);
    } else if PanelUndo.Sound(t) && !op.Create? && !op.UpdateBuild? && PanelUndo.SeesLeft(UndoOf(c, t, op), o.view) {
      PanelUndo.UndoIsExact(c, t, op, o.view);
    }
  }

  // ----- Histories of allocation edits -----

  /** What a mutation does to the binding of one allocation. */
  datatype Touch = Keeps | Binds(id: int) | Frees

  function TouchOf(op: Op, a: int): Touch {
    match op
    case Create(id, f) => if a == f.allocation || a in f.additional then Binds(id) else Keeps
    case AddAllocations(id, ids) => if a in ids then Binds(id) else Keeps
    case SetPrimary(id, x) => if a == x then Binds(id) else Keeps
    case RemoveAllocation(_, x) => if a == x then Frees else Keeps
    case _ => Keeps
  }

  /** The latest mutation that touches an allocation decides. */
  function LastTouch(ops: seq<Op>, a: int): Touch {
    if ops == [] then Keeps
    else
      var later := LastTouch(ops[1..], a);
      if later == Keeps then TouchOf(ops[0], a) else later
  }

  function Touched(server: Option<int>, touch: Touch): Option<int> {
    match touch
    case Keeps => server
    case Binds(id) => Some(id)
    case Frees => None
  }

  predicate EverFreed(ops: seq<Op>, a: int) {
    ops != [] && (TouchOf(ops[0], a) == Frees || EverFreed(ops[1..], a))
  }

  /** The last allocation a server's primary was set to, or the one it had. */
  function LastPrimary(ops: seq<Op>, id: int, primary: int): int {
    if ops == [] then primary
    else
      LastPrimary(ops[1..], id, if ops[0].SetPrimary? && ops[0].id == id then ops[0].allocation else primary)
  }

  /** The mutations are accepted one after another. */
  ghost predicate AllAccepted(c: Catalogue, t: Tables, ops: seq<Op>, t': Tables)
    decreases |ops|
  {
    if ops == [] then t == t'
    else
      && (ops[0].Create? ==> ops[0].id !in t.servers)
      && Commit(c, t, ops[0]).Ok?
      && AllAccepted(c, Commit(c, t, ops[0]).value, ops[1..], t')
  }

  lemma OneMutationTouches(c: Catalogue, t: Tables, op: Op, a: int)
    requires (op.Create? ==> op.id !in t.servers) && Commit(c, t, op).Ok? && a in t.allocations
    ensures var now := Commit(c, t, op).value.allocations;
            && a in now && now[a].node == t.allocations[a].node
            && now[a].server == Touched(t.allocations[a].server, TouchOf(op, a))
            && now[a].notes == if TouchOf(op, a) == Frees then None else t.allocations[a].notes
  {
    match op
    case Create(id, f) => CreateMeans(c, t, id, f);
    case AddAllocations(id, ids) => AddAllocationsMeans(c, t, id, ids);
    case RemoveAllocation(id, x) => RemoveAllocationMeans(c, t, id, x);
    case SetPrimary(id, x) => SetPrimaryMeans(c, t, id, x);
    case _ =>
  }

  /** After any accepted history, over all servers, each allocation is bound as the latest edit that names it says,
      as before if none does; its note is lost exactly if it was ever removed from a server. */
  lemma {:induction false} LastEditBinds(c: Catalogue, t: Tables, ops: seq<Op>, t': Tables, a: int)
    requires AllAccepted(c, t, ops, t') && a in t.allocations
    ensures a in t'.allocations && t'.allocations[a].node == t.allocations[a].node
    ensures t'.allocations[a].server == Touched(t.allocations[a].server, LastTouch(ops, a))
    ensures t'.allocations[a].notes == if EverFreed(ops, a) then None else t.allocations[a].notes
    decreases |ops|
  {
    if ops == [] {
    } else {
      OneMutationTouches(c, t, ops[0], a);
      LastEditBinds(c, Commit(c, t, ops[0]).value, ops[1..], t', a);
    }
  }

  /** And its primary is what it was last set to, which ownership says is among the server's. */
  lemma {:induction false} LastEditIsPrimary(c: Catalogue, t: Tables, ops: seq<Op>, t': Tables, id: int)
    requires AllAccepted(c, t, ops, t') && Owned(t) && id in t.servers
    ensures id in t'.servers && t'.servers[id].allocation == LastPrimary(ops, id, t.servers[id].allocation)
    ensures Owned(t')
    decreases |ops|
  {
    if ops == [] {
    } else {
      CommitKeepsOwnership(c, t, ops[0]);
      LastEditIsPrimary(c, Commit(c, t, ops[0]).value, ops[1..], t', id);
    }
  }

  // ----- Histories of the server row -----

  /** What the latest creation, suspension, lifted suspension or reinstallation of the server says of its status. */
  function LastStatus(ops: seq<Op>, id: int, status: Option<string>): Option<string> {
    if ops == [] then status
    else
      var now := match ops[0]
        case Create(x, _) => if x == id then Some("installing") else status
        case Suspend(x) => if x == id then Some("suspended") else status
        case Unsuspend(x) => if x == id then None else status
        case Reinstall(x) => if x == id then Some("installing") else status
        case _ => status;
      LastStatus(ops[1..], id, now)
  }

  /** A creation or a reinstallation of the server is among the mutations. */
  predicate Installs(ops: seq<Op>, id: int) {
    exists i :: 0 <= i < |ops| && ops[i].id == id && (ops[i].Create? || ops[i].Reinstall?)
  }

  lemma InstallsCons(ops: seq<Op>, id: int)
    requires ops != []
    ensures Installs(ops, id) <==> (ops[0].id == id && (ops[0].Create? || ops[0].Reinstall?)) || Installs(ops[1..], id)
  {
    var rest := ops[1..];
    if Installs(rest, id) {
      var i :| 0 <= i < |rest| && rest[i].id == id && (rest[i].Create? || rest[i].Reinstall?);
      assert ops[i + 1] == rest[i];
    }
    assert forall i :: 0 < i < |ops| ==> ops[i] == rest[i - 1];
  }

  /** After any accepted history a server's status is what the latest such mutation says, it has no installation time
      exactly if it was (re)installed or had none, and its owner, node and names are those it began with. */
  lemma {:induction false} LastEditIsStatus(c: Catalogue, t: Tables, ops: seq<Op>, t': Tables, id: int)
    requires AllAccepted(c, t, ops, t') && id in t.servers
    ensures id in t'.servers && SameIdentity(t.servers[id], t'.servers[id])
    ensures t'.servers[id].status == LastStatus(ops, id, t.servers[id].status)
    ensures t'.servers[id].installedAt == if Installs(ops, id) then None else t.servers[id].installedAt
    decreases |ops|
  {
    if ops == [] {
    } else {
      var next := Commit(c, t, ops[0]).value;
      InstallsCons(ops, id);
      StatusAfter(c, t, ops[0], id);
      LastEditIsStatus(c, next, ops[1..], t', id);
    }
  }

  lemma StatusAfter(c: Catalogue, t: Tables, op: Op, id: int)
    requires (op.Create? ==> op.id !in t.servers) && Commit(c, t, op).Ok? && id in t.servers
    ensures var now := Commit(c, t, op).value.servers;
            && id in now && SameIdentity(t.servers[id], now[id])
            && now[id].status == LastStatus([op], id, t.servers[id].status)
            && now[id].installedAt == if Installs([op], id) then None else t.servers[id].installedAt
  {
    InstallsCons([op], id);
    assert [op][1..] == [];
  }

  /** A free allocation added and removed again leaves the tables as they were exactly if it had no note;
      the removal always goes through. */
  lemma AddThenRemoveIff(c: Catalogue, t: Tables, id: int, a: int)
    requires Owned(t) && id in t.servers && a in t.allocations && t.allocations[a].server == None
    requires Commit(c, t, AddAllocations(id, [a])).Ok?
    ensures var back := Commit(c, Commit(c, t, AddAllocations(id, [a])).value, RemoveAllocation(id, a));
            back.Ok? && (back.value == t <==> t.allocations[a].notes == None)
  {
    var added := Commit(c, t, AddAllocations(id, [a])).value;
    AddAllocationsMeans(c, t, id, [a]);
    assert PrimaryOwned(t, id);
    RemoveAllocationMeans(c, added, id, a);
    var back := Commit(c, added, RemoveAllocation(id, a)).value;
    assert back.allocations[a] == Allocation(t.allocations[a].node, None, None);
    if t.allocations[a].notes == None {
      assert back.allocations == t.allocations;
    }
  }

  /** Moving the primary and moving it back always goes through, and comes to adding the allocation it visited. */
  lemma PrimaryMovesBack(c: Catalogue, t: Tables, id: int, a: int)
    requires Owned(t) && id in t.servers && Commit(c, t, SetPrimary(id, a)).Ok?
    ensures Commit(c, Commit(c, t, SetPrimary(id, a)).value, SetPrimary(id, t.servers[id].allocation))
         == Commit(c, t, AddAllocations(id, [a]))
  {
    var moved, primary := Commit(c, t, SetPrimary(id, a)).value, t.servers[id].allocation;
    assert PrimaryOwned(t, id);
    SetPrimaryMeans(c, t, id, a);
    SetPrimaryMeans(c, moved, id, primary);
    AddAllocationsMeans(c, t, id, [a]);
    var back, added := Commit(c, moved, SetPrimary(id, primary)).value, Commit(c, t, AddAllocations(id, [a])).value;
    assert back.servers == t.servers;
    forall x | x in t.allocations ensures back.allocations[x] == added.allocations[x] {
    }
    assert back.allocations == added.allocations;
  }
}
