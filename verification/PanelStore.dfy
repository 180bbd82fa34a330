/** The mutations as the services run them: tables updated in place, uncommitted work
    held in locals and discarded on error, one commit, the Wings call, and on its failure
    the compensating restore with a commit of its own.

    Each method is tied to `Panel.Commit`, `Panel.Remember` and `Panel.Compensate`. */
module PanelStore {
  import opened Common
  import opened Panel
  import PanelVariables
  import Text

  datatype Failure = Rejected(error: Error) | Upstream

  /** Everything outside the panel that a call depends on: whether Wings accepts, and whether the
      commit of a compensation goes through. */
  datatype Outside = Outside(wingsAccepts: bool, restoreCommits: bool, view: View)

  /** What one call does to the tables and answers. */
  ghost predicate Performs(c: Catalogue, t: Tables, op: Op, o: Outside, t': Tables, r: Result<(), Failure>)
    requires op.Create? ==> op.id !in t.servers
  {
    match Commit(c, t, op)
    case Err(e) => t' == t && r == Err(Rejected(e))
    case Ok(committed) =>
      if o.wingsAccepts then t' == committed && r == Ok(())
      else
        && r == Err(Upstream)
        && t' == if o.restoreCommits then Compensate(committed, Remember(t, committed, op), o.view)
                  else committed
  }

  lemma FirstFaultAt(t: Tables, id: Option<int>, node: int, ids: seq<int>, i: nat)
    requires i < |ids|
    requires forall j :: 0 <= j < i ==> AllocationFault(t, id, node, ids[j]) == None
    requires AllocationFault(t, id, node, ids[i]) != None
    ensures FirstFault(t, id, node, ids) == AllocationFault(t, id, node, ids[i])
  {
    if i == 0 {
    } else {
      FirstFaultAt(t, id, node, ids[1..], i - 1);
    }
  }

  lemma BindOneMore(allocations: map<int, Allocation>, ids: set<int>, a: int, id: int)
    requires a in allocations
    ensures Bind(allocations, ids, id)[a := allocations[a].(server := Some(id))] == Bind(allocations, ids + {a}, id)
  {
  }

  lemma IdSetExtends(ids: seq<int>, i: nat)
    requires i < |ids|
    ensures IdSet(ids[..i + 1]) == IdSet(ids[..i]) + {ids[i]}
  {
    assert ids[..i + 1] == ids[..i] + [ids[i]];
  }

  lemma {:induction false} FillFails(c: Catalogue, variables: seq<EggVariable>, environment: map<string, string>,
                                     i: nat)
    requires i < |variables|
    requires forall j :: 0 <= j < i ==> ValueAccepted(c, variables[j], Chosen(environment, variables[j]))
    requires !ValueAccepted(c, variables[i], Chosen(environment, variables[i]))
    ensures FillVariables(c, variables, environment) == Err(BadVariable(variables[i].env))
  {
    if i == 0 {
    } else {
      FillFails(c, variables[1..], environment, i - 1);
    }
  }

  lemma {:induction false} FillSucceeds(c: Catalogue, variables: seq<EggVariable>, environment: map<string, string>,
                                        rows: seq<VariableRow>)
    requires |rows| == |variables|
    requires forall i :: 0 <= i < |variables| ==> ValueAccepted(c, variables[i], Chosen(environment, variables[i]))
    requires forall i :: 0 <= i < |rows| ==> rows[i] == VariableRow(variables[i].id, Chosen(environment, variables[i]))
    ensures FillVariables(c, variables, environment) == Ok(rows)
  {
    if variables == [] {
    } else {
      assert rows == [rows[0]] + rows[1..];
      FillSucceeds(c, variables[1..], environment, rows[1..]);
    }
  }

  /** Putting a row for one variable leaves the place of every other variable's row alone. */
  lemma PutRowElsewhere(rows: seq<VariableRow>, v: int, value: string, other: int)
    requires other != v
    ensures var rows' := PutRow(rows, v, value);
            var i, i' := LastRow(rows, other), LastRow(rows', other);
            (i < |rows| <==> i' < |rows'|) && (i < |rows| ==> i' == i)
  {
    var rows' := PutRow(rows, v, value);
    var i, i' := LastRow(rows, other), LastRow(rows', other);
    if i < |rows| {
      assert rows'[i].variable == other;
    }
    if i' < |rows'| {
      assert rows[i'].variable == other;
    }
  }

  /** The keys of a Python dict are distinct. */
  predicate DistinctKeys(edits: seq<VariableEdit>) {
    forall i, j :: 0 <= i < j < |edits| ==> edits[i].env != edits[j].env
  }

  lemma NamesTellApart(c: Catalogue, egg: int, a: string, b: string)
    requires PanelVariables.WellFormed(c) && a != b
    ensures var x, y := Named(VariablesOf(c, egg), a), Named(VariablesOf(c, egg), b);
            x.Some? && y.Some? ==> x.value.id != y.value.id
  {
    var variables := VariablesOf(c, egg);
    var x, y := Named(variables, a), Named(variables, b);
    if x.Some? && y.Some? {
      var i :| 0 <= i < |variables| && variables[i] == x.value;
      var j :| 0 <= j < |variables| && variables[j] == y.value;
      assert variables[if i < j then i else j].id != variables[if i < j then j else i].id;
    }
  }

  class PanelDb {
    var servers: map<int, Server>
    var allocations: map<int, Allocation>
    var variables: map<int, seq<VariableRow>>
    /** Users who have ever been given a server, which is never taken back. */
    var haveOwned: set<int>

    function State(): Tables
      reads this
    {
      Tables(servers, allocations, variables)
    }

    constructor (t: Tables)
      ensures State() == t && haveOwned == {}
    {
      servers, allocations, variables, haveOwned := t.servers, t.allocations, t.variables, {};
    }

    // ----- The loops before the commit -----

    /** Checks and binds in one pass, on uncommitted rows. */
    method BindEach(id: int, node: int, unique: seq<int>) returns (r: Result<map<int, Allocation>, Error>)
      requires Distinct(unique)
      ensures r == match FirstFault(State(), Some(id), node, unique)
                   case Some(e) => Err(e)
                   case None => Ok(Bind(allocations, IdSet(unique), id))
    {
      var work := allocations;
      for i := 0 to |unique|
        invariant work == Bind(allocations, IdSet(unique[..i]), id)
        invariant forall j :: 0 <= j < i ==> AllocationFault(State(), Some(id), node, unique[j]) == None
      {
        var a := unique[i];
        assert a !in IdSet(unique[..i]);
        if AllocationFault(State(), Some(id), node, a) != None {
          FirstFaultAt(State(), Some(id), node, unique, i);
        }
        if a !in work {
          return Err(AllocationNotFound(a));
        }
        if work[a].node != node {
          return Err(WrongNode(a));
        }
        if work[a].server != None && work[a].server != Some(id) {
          return Err(AllocationTaken(a));
        }
        BindOneMore(allocations, IdSet(unique[..i]), a, id);
        IdSetExtends(unique, i);
        work := work[a := work[a].(server := Some(id))];
      }
      assert unique[..|unique|] == unique;
      assert FirstFault(State(), Some(id), node, unique) == None by {
        forall a | a in unique ensures AllocationFault(State(), Some(id), node, a) == None {
          var j :| 0 <= j < |unique| && unique[j] == a;
        }
      }
      r := Ok(work);
    }

    /** The validation loop of a creation: every allocation exists, lies on the node and is free. */
    method CheckFree(node: int, ids: seq<int>) returns (r: Option<Error>)
      ensures r == FirstFault(State(), None, node, ids)
    {
      for i := 0 to |ids|
        invariant forall j :: 0 <= j < i ==> AllocationFault(State(), None, node, ids[j]) == None
      {
        var fault := AllocationFault(State(), None, node, ids[i]);
        if fault != None {
          FirstFaultAt(State(), None, node, ids, i);
          return fault;
        }
      }
      forall a | a in ids ensures AllocationFault(State(), None, node, a) == None {
        var j :| 0 <= j < |ids| && ids[j] == a;
      }
      r := None;
    }

    /** The binding loop of a creation, after everything has been validated. */
    method BindAll(id: int, ids: seq<int>) returns (work: map<int, Allocation>)
      requires forall a :: a in ids ==> a in allocations
      ensures work == Bind(allocations, IdSet(ids), id)
    {
      work := allocations;
      for i := 0 to |ids|
        invariant work == Bind(allocations, IdSet(ids[..i]), id)
      {
        assert ids[i] in ids;
        BindOneMore(allocations, IdSet(ids[..i]), ids[i], id);
        IdSetExtends(ids, i);
        work := work[ids[i] := work[ids[i]].(server := Some(id))];
      }
      assert ids[..|ids|] == ids;
    }

    /** The first variable whose chosen value is refused. */
    method CheckValues(c: Catalogue, eggVariables: seq<EggVariable>, environment: map<string, string>)
      returns (r: Option<Error>)
      ensures r.Some? ==> FillVariables(c, eggVariables, environment) == Err(r.value)
      ensures r.None? ==> forall j :: 0 <= j < |eggVariables| ==>
                            ValueAccepted(c, eggVariables[j], Chosen(environment, eggVariables[j]))
    {
      for i := 0 to |eggVariables|
        invariant forall j :: 0 <= j < i ==> ValueAccepted(c, eggVariables[j], Chosen(environment, eggVariables[j]))
      {
        if !ValueAccepted(c, eggVariables[i], Chosen(environment, eggVariables[i])) {
          FillFails(c, eggVariables, environment, i);
          return Some(BadVariable(eggVariables[i].env));
        }
      }
      r := None;
    }

    /** Validates every egg variable before any row is built, then builds one row each. */
    method FillRows(c: Catalogue, eggVariables: seq<EggVariable>, environment: map<string, string>)
      returns (r: Result<seq<VariableRow>, Error>)
      ensures r == FillVariables(c, eggVariables, environment)
    {
      var bad := CheckValues(c, eggVariables, environment);
      if bad.Some? {
        return Err(bad.value);
      }
      var rows: seq<VariableRow> := [];
      for i := 0 to |eggVariables|
        invariant |rows| == i
        invariant forall j :: 0 <= j < i ==>
          rows[j] == VariableRow(eggVariables[j].id, Chosen(environment, eggVariables[j]))
      {
        rows := rows + [VariableRow(eggVariables[i].id, Chosen(environment, eggVariables[i]))];
      }
      FillSucceeds(c, eggVariables, environment, rows);
      r := Ok(rows);
    }

    /** Edits rows through an index of the rows as they were read; missing rows are appended. */
    method EditEach(c: Catalogue, egg: int, rows: seq<VariableRow>, edits: seq<VariableEdit>)
      returns (r: Result<seq<VariableRow>, Error>)
      requires PanelVariables.WellFormed(c) && DistinctKeys(edits) && AllNamed(VariablesOf(c, egg), edits)
      ensures r == EditRows(c, VariablesOf(c, egg), rows, edits)
    {
      var eggVariables := VariablesOf(c, egg);
      var existing := map i | 0 <= i < |rows| :: rows[i].variable := LastRow(rows, rows[i].variable);
      var work := rows;
      assert edits[0..] == edits;
      for i := 0 to |edits|
        invariant EditRows(c, eggVariables, work, edits[i..]) == EditRows(c, eggVariables, rows, edits)
        invariant forall j :: i <= j < |edits| ==>
          var v := Named(eggVariables, edits[j].env).value.id;
          && (v in existing <==> LastRow(work, v) < |work|)
          && (v in existing ==> existing[v] == LastRow(work, v))
      {
        var v := Named(eggVariables, edits[i].env).value;
        var value := edits[i].value;
        assert edits[i..][1..] == edits[i + 1..];
        if !ValueAccepted(c, v, value) {
          return Err(BadVariable(v.env));
        }
        forall j | i < j < |edits| ensures
          var w := Named(eggVariables, edits[j].env).value.id;
          && (w in existing <==> LastRow(PutRow(work, v.id, value), w) < |PutRow(work, v.id, value)|)
          && (w in existing ==> existing[w] == LastRow(PutRow(work, v.id, value), w))
        {
          NamesTellApart(c, egg, edits[i].env, edits[j].env);
          PutRowElsewhere(work, v.id, value, Named(eggVariables, edits[j].env).value.id);
        }
        if v.id in existing {
          work := work[existing[v.id] := VariableRow(v.id, value)];
        } else {
          work := work + [VariableRow(v.id, value)];
        }
      }
      r := Ok(work);
    }

    // ----- Compensations -----

    /** Every column is assigned; the flush writes those whose value differs from what the session sees. */
    method RestoreAllocations(u: Undo, v: View)
      requires u.RestoreAllocations?
      modifies this`servers, this`allocations, this`variables
      ensures State() == Compensate(old(State()), u, v)
    {
      var servers' := servers;
      if u.id in servers && u.leftPrimary != u.primary {
        servers' := servers[u.id := servers[u.id].(allocation := u.primary)];
      }
      var work := allocations;
      var todo: set<int> := u.bindings.Keys;
      while todo != {}
        invariant State() == old(State())
        invariant todo <= u.bindings.Keys && work.Keys == allocations.Keys
        invariant forall a :: a in allocations ==>
          work[a] == if a in todo then allocations[a] else WriteBindings(allocations, u, v)[a]
        decreases |todo|
      {
        var a := PickOne(todo);
        if a in work {
          var seen, row := Seen(allocations, v, a), work[a];
          if seen.server != u.bindings[a].server {
            row := row.(server := u.bindings[a].server);
          }
          if seen.notes != u.bindings[a].notes {
            row := row.(notes := u.bindings[a].notes);
          }
          work := work[a := row];
        }
        todo := todo - {a};
      }
      ghost var written := WriteBindings(allocations, u, v);
      assert forall a :: a in work ==> a in written && work[a] == written[a];
      assert work == written;
      assert servers' == WritePrimary(servers, u) by {
        if u.id in servers && u.leftPrimary == u.primary {
          assert servers[u.id := servers[u.id]] == servers;
        }
      }
      if RestoreCommits(State(), u, v) {
        servers, allocations := servers', work;
      }
    }

    method RestoreServerConfig(u: Undo, v: View)
      requires u.RestoreConfig?
      modifies this`servers, this`allocations, this`variables
      ensures State() == Compensate(old(State()), u, v)
    {
      if u.id in servers {
        var s := servers[u.id];
        if u.left.nest != u.before.nest {
          s := s.(nest := u.before.nest);
        }
        if u.left.egg != u.before.egg {
          s := s.(egg := u.before.egg);
        }
        if u.left.image != u.before.image {
          s := s.(image := u.before.image);
        }
        if u.left.startup != u.before.startup {
          s := s.(startup := u.before.startup);
        }
        if u.left.skipScripts != u.before.skipScripts {
          s := s.(skipScripts := u.before.skipScripts);
        }
        assert s == WriteConfig(servers[u.id], u.before, u.left);
        var rows: seq<VariableRow> := [];
        for i := 0 to |u.rows|
          invariant rows == u.rows[..i]
        {
          rows := rows + [u.rows[i]];
        }
        assert u.rows[..|u.rows|] == u.rows;
        servers, variables := servers[u.id := s], variables[u.id := rows];
      }
    }

    method DeleteServerRow(id: int)
      modifies this`servers, this`allocations, this`variables
      ensures State() == DeleteRow(old(State()), id)
    {
      var cleared := map a | a in allocations ::
        if allocations[a].server == Some(id) then allocations[a].(notes := None) else allocations[a];
      servers := servers - {id};
      variables := variables - {id};
      allocations := map a | a in cleared ::
        if cleared[a].server == Some(id) then cleared[a].(server := None) else cleared[a];
    }

    /** The commit, the Wings sync and, when it fails, the restore. */
    method CommitThenSync(t: Tables, u: Undo, o: Outside) returns (r: Result<(), Failure>)
      requires u.RestoreAllocations? || u.RestoreConfig?
      modifies this`servers, this`allocations, this`variables
      ensures o.wingsAccepts ==> State() == t && r == Ok(())
      ensures !o.wingsAccepts ==>
                r == Err(Upstream) && State() == if o.restoreCommits then Compensate(t, u, o.view) else t
    {
      servers, allocations, variables := t.servers, t.allocations, t.variables;
      if o.wingsAccepts {
        return Ok(());
      }
      if o.restoreCommits {
        if u.RestoreConfig? {
          RestoreServerConfig(u, o.view);
        } else {
          RestoreAllocations(u, o.view);
        }
      }
      r := Err(Upstream);
    }

    // ----- Allocations -----

    /** The snapshot, taken before anything is assigned, with the rows as they are then committed. */
    function UndoFrom(rows: set<int>, work: Tables, id: int, inHand: set<int>): Undo
      requires id in servers && id in work.servers
      reads this
    {
      Undo.RestoreAllocations(id, servers[id].allocation, work.servers[id].allocation,
                              Bindings(allocations, rows), Bindings(work.allocations, rows), inHand)
    }

    method AddAllocations(c: Catalogue, id: int, ids: seq<int>, o: Outside) returns (r: Result<(), Failure>)
      modifies this`servers, this`allocations, this`variables
      ensures Performs(c, old(State()), Op.AddAllocations(id, ids), o, State(), r)
    {
      if id !in servers {
        return Err(Rejected(ServerNotFound));
      }
      var snapshot := SnapshotRows(State(), id, IdSet(ids));
      var unique := Unique(ids);
      assert IdSet(unique) == IdSet(ids);
      var bound := BindEach(id, servers[id].node, unique);
      if bound.Err? {
        return Err(Rejected(bound.error));
      }
      var work := State().(allocations := bound.value);
      r := CommitThenSync(work, UndoFrom(snapshot, work, id, LastOf(ids)), o);
    }

    method RemoveAllocation(c: Catalogue, id: int, a: int, o: Outside) returns (r: Result<(), Failure>)
      modifies this`servers, this`allocations, this`variables
      ensures Performs(c, old(State()), Op.RemoveAllocation(id, a), o, State(), r)
    {
      if id !in servers {
        return Err(Rejected(ServerNotFound));
      }
      if servers[id].allocation == a {
        return Err(Rejected(IsPrimary));
      }
      if a !in allocations || allocations[a].server != Some(id) {
        return Err(Rejected(NotOwned(a)));
      }
      var snapshot := SnapshotRows(State(), id, {a});
      var row := allocations[a].(server := None, notes := None);
      var work := State().(allocations := allocations[a := row]);
      r := CommitThenSync(work, UndoFrom(snapshot, work, id, {a}), o);
    }

    method SetPrimaryAllocation(c: Catalogue, id: int, a: int, o: Outside) returns (r: Result<(), Failure>)
      modifies this`servers, this`allocations, this`variables
      ensures Performs(c, old(State()), SetPrimary(id, a), o, State(), r)
    {
      if id !in servers {
        return Err(Rejected(ServerNotFound));
      }
      if a !in allocations {
        return Err(Rejected(AllocationNotFound(a)));
      }
      if allocations[a].node != servers[id].node {
        return Err(Rejected(WrongNode(a)));
      }
      if allocations[a].server != None && allocations[a].server != Some(id) {
        return Err(Rejected(AllocationTaken(a)));
      }
      var snapshot := SnapshotRows(State(), id, {a});
      var bound := allocations[a := allocations[a].(server := Some(id))];
      assert bound == Bind(allocations, {a}, id);
      var moved := servers[id := servers[id].(allocation := a)];
      var work := State().(servers := moved, allocations := bound);
      r := CommitThenSync(work, UndoFrom(snapshot, work, id, {a}), o);
    }

    // ----- Configuration -----

    /** The fields that are present, stripped; blank ones are refused. */
    method EditConfig(before: Server, edit: ConfigEdit) returns (r: Result<Server, Error>)
      ensures r == ApplyConfig(before, edit)
    {
      var s := before;
      if edit.image.Some? {
        var image := Text.Strip(edit.image.value);
        if image == "" {
          return Err(EmptyImage);
        }
        s := s.(image := image);
      }
      if edit.startup.Some? {
        var startup := Text.Strip(edit.startup.value);
        if startup == "" {
          return Err(EmptyStartup);
        }
        s := s.(startup := startup);
      }
      if edit.skipScripts.Some? {
        s := s.(skipScripts := edit.skipScripts.value);
      }
      r := Ok(s);
    }

    method UpdateStartup(c: Catalogue, id: int, edit: ConfigEdit, o: Outside) returns (r: Result<(), Failure>)
      modifies this`servers, this`allocations, this`variables
      ensures Performs(c, old(State()), Op.UpdateStartup(id, edit), o, State(), r)
    {
      if id !in servers {
        return Err(Rejected(ServerNotFound));
      }
      var before, rowsBefore := ConfigOf(servers[id]), RowsOf(State(), id);
      var edited := EditConfig(servers[id], edit);
      if edited.Err? {
        return Err(Rejected(edited.error));
      }
      var u := RestoreConfig(id, before, ConfigOf(edited.value), rowsBefore);
      r := CommitThenSync(State().(servers := servers[id := edited.value]), u, o);
    }

    method SwitchEgg(c: Catalogue, id: int, nest: int, egg: int, environment: map<string, string>,
                     edit: ConfigEdit, o: Outside)
      returns (r: Result<(), Failure>)
      modifies this`servers, this`allocations, this`variables
      ensures Performs(c, old(State()), Op.SwitchEgg(id, nest, egg, environment, edit), o, State(), r)
    {
      if id !in servers {
        return Err(Rejected(ServerNotFound));
      }
      var before, rowsBefore := ConfigOf(servers[id]), RowsOf(State(), id);
      if egg !in c.eggs {
        return Err(Rejected(EggNotFound));
      }
      if c.eggs[egg].nest != nest {
        return Err(Rejected(NestMismatch));
      }
      var rows := FillRows(c, c.eggs[egg].variables, environment);
      if rows.Err? {
        return Err(Rejected(rows.error));
      }
      var edited := EditConfig(servers[id].(nest := nest, egg := egg), edit);
      if edited.Err? {
        return Err(Rejected(edited.error));
      }
      var work := State().(servers := servers[id := edited.value], variables := variables[id := rows.value]);
      r := CommitThenSync(work, RestoreConfig(id, before, ConfigOf(edited.value), rowsBefore), o);
    }

    method UpdateVariables(c: Catalogue, id: int, edits: seq<VariableEdit>, o: Outside) returns (r: Result<(), Failure>)
      requires PanelVariables.WellFormed(c) && DistinctKeys(edits)
      modifies this`servers, this`allocations, this`variables
      ensures Performs(c, old(State()), Op.UpdateVariables(id, edits), o, State(), r)
    {
      if id !in servers {
        return Err(Rejected(ServerNotFound));
      }
      var before, rowsBefore := ConfigOf(servers[id]), RowsOf(State(), id);
      if !AllNamed(VariablesOf(c, servers[id].egg), edits) {
        return Err(Rejected(UnknownVariable));
      }
      var rows := EditEach(c, servers[id].egg, RowsOf(State(), id), edits);
      if rows.Err? {
        return Err(Rejected(rows.error));
      }
      r := CommitThenSync(State().(variables := variables[id := rows.value]),
                          RestoreConfig(id, before, before, rowsBefore), o);
    }

    // ----- Lifecycle -----

    method CreateServer(c: Catalogue, id: int, f: CreateForm, o: Outside) returns (r: Result<(), Failure>)
      requires id !in servers
      modifies this
      ensures Performs(c, old(State()), Create(id, f), o, State(), r)
      ensures haveOwned == if r.Ok? then old(haveOwned) + {f.owner} else old(haveOwned)
    {
      if f.owner !in c.users {
        return Err(Rejected(UserNotFound));
      }
      if f.node !in c.nodes {
        return Err(Rejected(NodeNotFound));
      }
      if f.egg !in c.eggs {
        return Err(Rejected(EggNotFound));
      }
      if c.eggs[f.egg].nest != f.nest {
        return Err(Rejected(NestMismatch));
      }
      var ids := [f.allocation] + f.additional;
      var fault := CheckFree(f.node, ids);
      if fault.Some? {
        return Err(Rejected(fault.value));
      }
      var rows := FillRows(c, c.eggs[f.egg].variables, f.environment);
      if rows.Err? {
        return Err(Rejected(rows.error));
      }
      assert forall a :: a in ids ==> AllocationFault(State(), None, f.node, a) == None;
      var bound := BindAll(id, ids);
      servers := servers[id := Server(f.uuid, f.node, f.owner, f.name, f.description, Some("installing"), None,
                                      f.limits, f.allocation, f.nest, f.egg, f.image, f.startup, f.skipScripts)];
      allocations := bound;
      variables := variables[id := rows.value];
      if o.wingsAccepts {
        haveOwned := haveOwned + {f.owner};
        return Ok(());
      }
      if o.restoreCommits {
        DeleteServerRow(id);
      }
      r := Err(Upstream);
    }

    method SetServerStatus(id: int, status: Option<string>) returns (found: bool)
      modifies this`servers, this`allocations, this`variables
      ensures found <==> id in old(servers)
      ensures State() == if found then old(State()).(servers := old(servers)[id := old(servers)[id].(status := status)])
                         else old(State())
    {
      found := id in servers;
      if found {
        servers := servers[id := servers[id].(status := status)];
      }
    }

    method SuspendServer(c: Catalogue, id: int, o: Outside) returns (r: Result<(), Failure>)
      modifies this`servers, this`allocations, this`variables
      ensures Performs(c, old(State()), Suspend(id), o, State(), r)
      ensures r.Ok? <==> id in old(servers) && o.wingsAccepts
      ensures r.Ok? ==> id in servers && servers[id].status == Some("suspended")
      ensures !o.wingsAccepts && o.restoreCommits ==> State() == old(State())
    {
      if id !in servers {
        return Err(Rejected(ServerNotFound));
      }
      var previous := servers[id].status;
      var _ := SetServerStatus(id, Some("suspended"));
      if o.wingsAccepts {
        return Ok(());
      }
      if o.restoreCommits {
        var _ := SetServerStatus(id, previous);
      }
      r := Err(Upstream);
    }

    method UnsuspendServer(c: Catalogue, id: int, o: Outside) returns (r: Result<(), Failure>)
      modifies this`servers, this`allocations, this`variables
      ensures Performs(c, old(State()), Unsuspend(id), o, State(), r)
      ensures r.Ok? <==> id in old(servers) && o.wingsAccepts
      ensures r.Ok? ==> id in servers && servers[id].status == None
      ensures !o.wingsAccepts && o.restoreCommits ==> State() == old(State())
    {
      if id !in servers {
        return Err(Rejected(ServerNotFound));
      }
      var previous := servers[id].status;
      var _ := SetServerStatus(id, None);
      if o.wingsAccepts {
        return Ok(());
      }
      if o.restoreCommits {
        var _ := SetServerStatus(id, previous);
      }
      r := Err(Upstream);
    }

    method ReinstallServer(c: Catalogue, id: int, o: Outside) returns (r: Result<(), Failure>)
      modifies this`servers, this`allocations, this`variables
      ensures Performs(c, old(State()), Reinstall(id), o, State(), r)
      ensures r.Ok? <==> id in old(servers) && o.wingsAccepts
      ensures r.Ok? ==> id in servers && servers[id].status == Some("installing") && servers[id].installedAt == None
      ensures !o.wingsAccepts && o.restoreCommits ==> State() == old(State())
    {
      if id !in servers {
        return Err(Rejected(ServerNotFound));
      }
      var status, installedAt := servers[id].status, servers[id].installedAt;
      servers := servers[id := servers[id].(status := Some("installing"), installedAt := None)];
      if o.wingsAccepts {
        return Ok(());
      }
      if o.restoreCommits {
        servers := servers[id := servers[id].(status := status, installedAt := installedAt)];
      }
      r := Err(Upstream);
    }

    /** The resource half of the update dictionary. */
    method ResourceFields(l: Limits, q: BuildRequest) returns (r: Limits)
      ensures r == WriteLimits(l, q).(allocationLimit := l.allocationLimit, databaseLimit := l.databaseLimit,
                                      backupLimit := l.backupLimit, threads := l.threads, oomDisabled := l.oomDisabled)
    {
      var memory := if q.memory.Some? then q.memory.value else l.memory;
      var swap := if q.swap.Some? then q.swap.value else l.swap;
      var disk := if q.disk.Some? then q.disk.value else l.disk;
      var io := if q.io.Some? then q.io.value else l.io;
      var cpu := if q.cpu.Some? then q.cpu.value else l.cpu;
      r := l.(memory := memory, swap := swap, disk := disk, io := io, cpu := cpu);
    }

    method UpdateServerLimits(id: int, q: BuildRequest) returns (found: bool)
      modifies this`servers, this`allocations, this`variables
      ensures found <==> id in old(servers)
      ensures State() == if found then old(State()).(servers := old(servers)[id :=
                           old(servers)[id].(limits := WriteLimits(old(servers)[id].limits, q))])
                         else old(State())
    {
      found := id in servers;
      if !found {
        return;
      }
      var l := ResourceFields(servers[id].limits, q);
      var allocationLimit := if q.allocationLimit.Some? then q.allocationLimit else l.allocationLimit;
      var databaseLimit := if q.databaseLimit.Some? then q.databaseLimit else l.databaseLimit;
      var backupLimit := if q.backupLimit.Some? then q.backupLimit.value else l.backupLimit;
      var threads := if !q.updateThreads then l.threads else if q.threads == Some("") then None else q.threads;
      var oomDisabled := if q.oomDisabled.Some? then q.oomDisabled.value else l.oomDisabled;
      l := l.(allocationLimit := allocationLimit, databaseLimit := databaseLimit, backupLimit := backupLimit,
              threads := threads, oomDisabled := oomDisabled);
      assert l == WriteLimits(servers[id].limits, q);
      servers := servers[id := servers[id].(limits := l)];
    }

    method UpdateServerBuild(c: Catalogue, id: int, q: BuildRequest, o: Outside) returns (r: Result<(), Failure>)
      modifies this`servers, this`allocations, this`variables
      ensures Performs(c, old(State()), UpdateBuild(id, q), o, State(), r)
    {
      if id !in servers {
        return Err(Rejected(ServerNotFound));
      }
      var previous := LimitsAsRequest(servers[id].limits);
      var _ := UpdateServerLimits(id, q);
      if o.wingsAccepts {
        return Ok(());
      }
      if o.restoreCommits {
        var _ := UpdateServerLimits(id, previous);
      }
      r := Err(Upstream);
    }
  }
}
