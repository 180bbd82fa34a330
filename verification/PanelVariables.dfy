/** Variable rows over every run: when each server has one accepted row for each variable of its egg. */
module PanelVariables {
  import opened Common
  import opened Panel
  import opened PanelUndo
  import opened PanelWorlds
  import PanelOwnership
  import Rules
  import RuleMeaning

  /** Variable ids are primary keys. */
  predicate WellFormed(c: Catalogue) {
    forall e :: e in c.eggs ==>
      forall i, j :: 0 <= i < j < |c.eggs[e].variables| ==> c.eggs[e].variables[i].id != c.eggs[e].variables[j].id
  }

  /** Row for row the variables of the egg, every value passing its variable's rules. */
  predicate Aligned(c: Catalogue, egg: int, rows: seq<VariableRow>) {
    var variables := VariablesOf(c, egg);
    && |rows| == |variables|
    && forall i :: 0 <= i < |rows| ==>
         rows[i].variable == variables[i].id && ValueAccepted(c, variables[i], rows[i].value)
  }

  /** Aligned rows hold exactly one row for each variable of the egg and none for any other. */
  lemma AlignedMeansOneRowEach(c: Catalogue, egg: int, rows: seq<VariableRow>, v: int)
    requires WellFormed(c) && Aligned(c, egg, rows)
    ensures (exists x :: x in VariablesOf(c, egg) && x.id == v)
       <==> (exists i :: 0 <= i < |rows| && rows[i].variable == v)
    ensures forall i, j :: 0 <= i < |rows| && 0 <= j < |rows| && rows[i].variable == v && rows[j].variable == v ==>
              i == j
  {
    var variables := VariablesOf(c, egg);
    if i :| 0 <= i < |rows| && rows[i].variable == v {
      assert variables[i] in variables && variables[i].id == v;
    }
    if x :| x in variables && x.id == v {
      var i :| 0 <= i < |variables| && variables[i] == x;
      assert rows[i].variable == v;
    }
  }

  lemma {:induction false} FilledRowsAlign(c: Catalogue, variables: seq<EggVariable>, environment: map<string, string>)
    ensures var r := FillVariables(c, variables, environment);
            r.Ok? ==> && |r.value| == |variables|
                      && forall i :: 0 <= i < |variables| ==>
                           && r.value[i].variable == variables[i].id
                           && ValueAccepted(c, variables[i], r.value[i].value)
  {
    if variables == [] {
    } else {
      FilledRowsAlign(c, variables[1..], environment);
    }
  }

  lemma {:induction false} EditedRowsAlign(c: Catalogue, egg: int, rows: seq<VariableRow>, edits: seq<VariableEdit>)
    requires WellFormed(c) && Aligned(c, egg, rows)
    ensures var r := EditRows(c, VariablesOf(c, egg), rows, edits);
            r.Ok? ==> Aligned(c, egg, r.value)
    decreases |edits|
  {
    var variables := VariablesOf(c, egg);
    if edits == [] {
    } else {
      var v := Named(variables, edits[0].env);
      if v.Some? && ValueAccepted(c, v.value, edits[0].value) {
        var i :| 0 <= i < |variables| && variables[i] == v.value;
        assert rows[i].variable == v.value.id;
        assert LastRow(rows, v.value.id) == i;
        EditedRowsAlign(c, egg, PutRow(rows, v.value.id, edits[0].value), edits[1..]);
      }
    }
  }

  /** The egg exists and lies in the nest. */
  predicate EggInNest(c: Catalogue, k: Config) {
    k.egg in c.eggs && c.eggs[k.egg].nest == k.nest
  }

  predicate Fitted(c: Catalogue, k: Config, rows: seq<VariableRow>) {
    EggInNest(c, k) && Aligned(c, k.egg, rows)
  }

  /** Every server's egg lies in its nest, and its rows are aligned with the egg. */
  predicate AlignedTables(c: Catalogue, t: Tables) {
    && t.variables.Keys == t.servers.Keys
    && forall id :: id in t.servers ==> Fitted(c, ConfigOf(t.servers[id]), t.variables[id])
  }

  predicate AlignedUndo(c: Catalogue, u: Undo) {
    u.RestoreConfig? ==> Fitted(c, u.before, u.rows) && EggInNest(c, u.left)
  }

  /** So are those of every snapshot still to be restored. */
  predicate AlignedWorld(c: Catalogue, w: World) {
    && AlignedTables(c, w.t)
    && forall k :: k in w.pending ==> AlignedUndo(c, w.pending[k])
  }

  /** The configuration and the rows of a server are put in place together. */
  lemma RowsReplaced(c: Catalogue, t: Tables, t': Tables, id: int, s: Server, rows: seq<VariableRow>)
    requires AlignedTables(c, t)
    requires t'.servers == t.servers[id := s] && t'.variables == t.variables[id := rows]
    ensures AlignedTables(c, t') <==> Fitted(c, ConfigOf(s), rows)
  {
    forall x | x in t'.servers && x != id ensures Fitted(c, ConfigOf(t'.servers[x]), t'.variables[x]) {
      assert Fitted(c, ConfigOf(t.servers[x]), t.variables[x]);
    }
    assert t'.servers[id] == s && t'.variables[id] == rows;
  }

  /** Or neither is touched. */
  lemma RowsUntouched(c: Catalogue, t: Tables, t': Tables)
    requires AlignedTables(c, t) && t'.variables == t.variables && t'.servers.Keys == t.servers.Keys
    requires forall x :: x in t.servers ==>
               t'.servers[x].egg == t.servers[x].egg && t'.servers[x].nest == t.servers[x].nest
    ensures AlignedTables(c, t')
  {
    forall x | x in t'.servers ensures Fitted(c, ConfigOf(t'.servers[x]), t'.variables[x]) {
      assert Fitted(c, ConfigOf(t.servers[x]), t.variables[x]);
    }
  }

  lemma CreateKeepsAligned(c: Catalogue, t: Tables, id: int, f: CreateForm)
    requires AlignedTables(c, t) && id !in t.servers && Commit(c, t, Create(id, f)).Ok?
    ensures AlignedTables(c, Commit(c, t, Create(id, f)).value)
  {
    var t' := Commit(c, t, Create(id, f)).value;
    FilledRowsAlign(c, VariablesOf(c, f.egg), f.environment);
    RowsReplaced(c, t, t', id, t'.servers[id], t'.variables[id]);
  }

  lemma SwitchKeepsAligned(c: Catalogue, t: Tables, op: Op)
    requires AlignedTables(c, t) && op.SwitchEgg? && Commit(c, t, op).Ok?
    ensures AlignedTables(c, Commit(c, t, op).value)
  {
    var t' := Commit(c, t, op).value;
    FilledRowsAlign(c, VariablesOf(c, op.egg), op.environment);
    RowsReplaced(c, t, t', op.id, t'.servers[op.id], t'.variables[op.id]);
  }

  lemma EditKeepsAligned(c: Catalogue, t: Tables, id: int, edits: seq<VariableEdit>)
    requires WellFormed(c) && AlignedTables(c, t) && Commit(c, t, UpdateVariables(id, edits)).Ok?
    ensures AlignedTables(c, Commit(c, t, UpdateVariables(id, edits)).value)
  {
    var t' := Commit(c, t, UpdateVariables(id, edits)).value;
    assert Fitted(c, ConfigOf(t.servers[id]), t.variables[id]);
    EditedRowsAlign(c, t.servers[id].egg, t.variables[id], edits);
    RowsReplaced(c, t, t', id, t.servers[id], t'.variables[id]);
  }

  lemma OthersKeepAligned(c: Catalogue, t: Tables, op: Op)
    requires !op.Create? && !op.SwitchEgg? && !op.UpdateVariables?
    requires AlignedTables(c, t) && Commit(c, t, op).Ok?
    ensures AlignedTables(c, Commit(c, t, op).value)
  {
    RowsUntouched(c, t, Commit(c, t, op).value);
  }

  lemma CommitKeepsAligned(c: Catalogue, t: Tables, op: Op)
    requires WellFormed(c) && AlignedTables(c, t) && (op.Create? ==> op.id !in t.servers)
    requires Commit(c, t, op).Ok?
    ensures AlignedTables(c, Commit(c, t, op).value)
  {
    match op
    case Create(id, form) => CreateKeepsAligned(c, t, id, form);
    case SwitchEgg(_, _, _, _, _) => SwitchKeepsAligned(c, t, op);
    case UpdateVariables(id, edits) => EditKeepsAligned(c, t, id, edits);
    case _ => OthersKeepAligned(c, t, op);
  }

  lemma BeginKeepsAligned(c: Catalogue, w: World, call: int, op: Op)
    requires WellFormed(c) && AlignedWorld(c, w) && Enabled(w, Begin(call, op))
    ensures AlignedWorld(c, Next(c, w, Begin(call, op)))
  {
    var r := Commit(c, w.t, op);
    if r.Ok? {
      CommitKeepsAligned(c, w.t, op);
      UndoAligned(c, w.t, r.value, op);
    }
  }

  lemma UndoAligned(c: Catalogue, t: Tables, t': Tables, op: Op)
    requires AlignedTables(c, t) && AlignedTables(c, t')
    requires op.Create? || (op.id in t.servers && op.id in t'.servers)
    ensures AlignedUndo(c, Remember(t, t', op))
  {
    var u := Remember(t, t', op);
    if u.RestoreConfig? {
      assert Fitted(c, ConfigOf(t.servers[op.id]), t.variables[op.id]);
      assert Fitted(c, ConfigOf(t'.servers[op.id]), t'.variables[op.id]);
    }
  }

  /** The rows go back unconditionally, the egg and the nest only if the call changed them: so a call that did not
      switch the egg must find its rows to fit the egg of the moment, and one that switched it within the nest must
      find that nest. */
  predicate RestoreFits(c: Catalogue, t: Tables, u: Undo) {
    u.RestoreConfig? && u.id in t.servers ==>
      if u.left.egg == u.before.egg then Aligned(c, t.servers[u.id].egg, u.rows)
      else u.left.nest == u.before.nest ==> t.servers[u.id].nest == u.before.nest
  }

  lemma RestoreKeepsAlignedIff(c: Catalogue, t: Tables, u: Undo, v: View)
    requires AlignedTables(c, t) && AlignedUndo(c, u)
    ensures AlignedTables(c, Compensate(t, u, v)) <==> RestoreFits(c, t, u)
  {
    var t' := Compensate(t, u, v);
    if u.RestoreConfig? && u.id in t.servers {
      var s := WriteConfig(t.servers[u.id], u.before, u.left);
      assert Fitted(c, ConfigOf(t.servers[u.id]), t.variables[u.id]);
      RowsReplaced(c, t, t', u.id, s, u.rows);
      assert Fitted(c, ConfigOf(s), u.rows) <==> RestoreFits(c, t, u);
    } else if u.DropServer? {
      DropKeepsAligned(c, t, u.id);
    } else {
      RowsUntouched(c, t, t');
    }
  }

  lemma DropKeepsAligned(c: Catalogue, t: Tables, id: int)
    requires AlignedTables(c, t)
    ensures AlignedTables(c, DeleteRow(t, id))
  {
    var t' := DeleteRow(t, id);
    forall x | x in t'.servers ensures Fitted(c, ConfigOf(t'.servers[x]), t'.variables[x]) {
      assert Fitted(c, ConfigOf(t.servers[x]), t.variables[x]);
    }
  }

  lemma StepKeepsAlignedIff(c: Catalogue, w: World, e: Event)
    requires WellFormed(c) && AlignedWorld(c, w) && Enabled(w, e)
    ensures AlignedWorld(c, Next(c, w, e)) <==> (e.Failed? ==> RestoreFits(c, w.t, w.pending[e.call]))
    ensures AlignedWorld(c, Next(c, w, e)) <==> AlignedTables(c, Next(c, w, e).t)
  {
    match e
    case Begin(call, op) => BeginKeepsAligned(c, w, call, op);
    case Accepted(_) =>
    case Failed(call, view) => RestoreKeepsAlignedIff(c, w.t, w.pending[call], view);
    case Deleted(id) => DropKeepsAligned(c, w.t, id);
  }

  /** The rows are aligned in every world of the run. */
  ghost predicate AlignedThroughout(c: Catalogue, w: World, events: seq<Event>)
    decreases |events|
  {
    && AlignedTables(c, w.t)
    && (events != [] && Enabled(w, events[0]) ==> AlignedThroughout(c, Next(c, w, events[0]), events[1..]))
  }

  /** Whenever Wings refuses a call in the run, its restore fits at that moment. */
  ghost predicate RestoresFit(c: Catalogue, w: World, events: seq<Event>)
    decreases |events|
  {
    events != [] && Enabled(w, events[0]) ==>
      && (events[0].Failed? ==> RestoreFits(c, w.t, w.pending[events[0].call]))
      && RestoresFit(c, Next(c, w, events[0]), events[1..])
  }

  /** Over every run the code admits, each server has row for row the variables of its egg with accepted values in
      every world, exactly when each refused configuration call finds its restore to fit. */
  lemma {:induction false} AlignedThroughoutIff(c: Catalogue, w: World, events: seq<Event>, w': World)
    requires WellFormed(c) && AlignedWorld(c, w) && Run(c, w, events, w')
    ensures AlignedThroughout(c, w, events) <==> RestoresFit(c, w, events)
    ensures RestoresFit(c, w, events) ==> AlignedWorld(c, w')
    decreases |events|
  {
    if events == [] {
    } else {
      var next := Next(c, w, events[0]);
      StepKeepsAlignedIff(c, w, events[0]);
      if AlignedWorld(c, next) {
        AlignedThroughoutIff(c, next, events[1..], w');
      }
    }
  }

  /** The discipline makes every restore fit. */
  lemma {:induction false} DisciplineFits(c: Catalogue, w: World, events: seq<Event>, w': World)
    requires WellFormed(c) && AlignedWorld(c, w) && OwnedWorld(w) && DisciplinedRun(c, w, events, w')
    ensures RestoresFit(c, w, events) && AlignedWorld(c, w')
    decreases |events|
  {
    if events == [] {
    } else {
      var e := events[0];
      OwnershipAlwaysHolds(c, w, [e], Next(c, w, e));
      if e.Failed? {
        var u := w.pending[e.call];
        assert Settled(w.t, u) && AlignedUndo(c, u);
      }
      StepKeepsAlignedIff(c, w, e);
      DisciplineFits(c, Next(c, w, e), events[1..], w');
    }
  }

  /** So every stored value passes the rules of its variable. */
  lemma StoredValuesPassTheirRules(users: set<int>, nodes: set<int>, eggs: map<int, Egg>, e: Rules.Engine,
                                   w: World, events: seq<Event>, w': World, id: int, i: nat)
    requires var c := ServiceCatalogue(users, nodes, eggs, e);
             && WellFormed(c) && AlignedWorld(c, w) && Run(c, w, events, w')
             && RestoresFit(c, w, events)
    requires id in w'.t.servers && id in w'.t.variables && i < |w'.t.variables[id]|
    ensures w'.t.servers[id].egg in eggs && i < |eggs[w'.t.servers[id].egg].variables|
    ensures var row, v := w'.t.variables[id][i], eggs[w'.t.servers[id].egg].variables[i];
            && row.variable == v.id
            && Rules.ValidateEnvironment(e, Rules.Text(row.value), v.rules) == Rules.Passed
  {
    var c := ServiceCatalogue(users, nodes, eggs, e);
    AlignedThroughoutIff(c, w, events, w');
    var egg := w'.t.servers[id].egg;
    assert Fitted(c, ConfigOf(w'.t.servers[id]), w'.t.variables[id]);
    assert ValueAccepted(c, VariablesOf(c, egg)[i], w'.t.variables[id][i].value);
  }

  /** For rules as an author writes them: the value is empty and may be, or is filled in and meets each rule. */
  lemma StoredValuesMeetTheirRules(users: set<int>, nodes: set<int>, eggs: map<int, Egg>, e: Rules.Engine,
                                   w: World, events: seq<Event>, w': World, id: int, i: nat,
                                   rules: seq<RuleMeaning.TextRule>)
    requires var c := ServiceCatalogue(users, nodes, eggs, e);
             && WellFormed(c) && AlignedWorld(c, w) && Run(c, w, events, w')
             && RestoresFit(c, w, events)
    requires id in w'.t.servers && id in w'.t.variables && i < |w'.t.variables[id]|
    requires var egg := w'.t.servers[id].egg;
             && egg in eggs && i < |eggs[egg].variables|
             && RuleMeaning.AllWellWritten(rules)
             && eggs[egg].variables[i].rules == Some(RuleMeaning.RuleText(rules))
    ensures var s := w'.t.variables[id][i].value;
            if s == "" then RuleMeaning.Required !in rules
            else forall k :: 0 <= k < |rules| ==>
                   RuleMeaning.Meets(e, s, rules[k], RuleMeaning.AboutNumbers(rules))
  {
    StoredValuesPassTheirRules(users, nodes, eggs, e, w, events, w', id, i);
    RuleMeaning.AcceptedIff(e, w'.t.variables[id][i].value, rules);
  }

  // ----- A run that mixes two eggs -----

  const NO_EDIT := ConfigEdit(None, None, None)

  /** Two eggs of one nest with a variable each. */
  function TwoEggs(accepts: (string, Option<string>) -> bool): Catalogue {
    Catalogue({}, {}, map[1 := Egg(1, [EggVariable(1, "A", "a", None)]), 2 := Egg(1, [EggVariable(2, "B", "b", None)])],
              accepts)
  }

  /** A startup edit is waiting for Wings while the egg is switched, and only then refused: its restore puts the
      first egg's rows back beside the second egg, which its own call did not change. */
  lemma RefusedEditMixesEggs(accepts: (string, Option<string>) -> bool, t: Tables, s: Server, v: View)
    requires accepts("a", None) && accepts("b", None) && s.nest == 1 && s.egg == 1
    requires t.servers == map[1 := s] && t.variables == map[1 := [VariableRow(1, "a")]]
    ensures AlignedWorld(TwoEggs(accepts), World(t, map[]))
    ensures var race := PanelOwnership.Race(UpdateStartup(1, NO_EDIT), SwitchEgg(1, 1, 2, map[], NO_EDIT), v);
            exists w' :: Run(TwoEggs(accepts), World(t, map[]), race, w')
                         && 1 in w'.t.servers && w'.t.servers[1].egg == 2
                         && 1 in w'.t.variables && w'.t.variables[1] == [VariableRow(1, "a")]
  {
    var c := TwoEggs(accepts);
    var t2 := t.(servers := map[1 := s.(egg := 2)], variables := map[1 := [VariableRow(2, "b")]]);
    assert Fitted(c, ConfigOf(s), t.variables[1]);
    assert t.servers[1 := s] == t.servers;
    assert Commit(c, t, UpdateStartup(1, NO_EDIT)) == Ok(t);
    SecondEggRows(c, accepts);
    assert t.servers[1 := s.(egg := 2)] == t2.servers;
    assert t.variables[1 := [VariableRow(2, "b")]] == t2.variables;
    assert Commit(c, t, SwitchEgg(1, 1, 2, map[], NO_EDIT)) == Ok(t2);
    PanelOwnership.RaceEnds(c, t, UpdateStartup(1, NO_EDIT), SwitchEgg(1, 1, 2, map[], NO_EDIT), t, t2, v);
    var u := Remember(t, t, UpdateStartup(1, NO_EDIT));
    assert Compensate(t2, u, v).servers[1].egg == 2 && Compensate(t2, u, v).variables[1] == t.variables[1];
  }

  lemma SecondEggRows(c: Catalogue, accepts: (string, Option<string>) -> bool)
    requires c == TwoEggs(accepts) && accepts("b", None)
    ensures FillVariables(c, c.eggs[2].variables, map[]) == Ok([VariableRow(2, "b")])
  {
    var variables, none: map<string, string> := c.eggs[2].variables, map[];
    assert variables == [EggVariable(2, "B", "b", None)] && variables[1..] == [];
    assert FillVariables(c, variables[1..], none) == Ok([]);
    assert Chosen(none, variables[0]) == "b" && ValueAccepted(c, variables[0], "b");
    assert [VariableRow(2, "b")] + [] == [VariableRow(2, "b")];
  }
}
