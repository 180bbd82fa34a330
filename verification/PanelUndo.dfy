/** Commit followed at once by its compensation: exactly when it restores every
    server field, allocation binding, note and variable row. */
module PanelUndo {
  import opened Common
  import opened Panel

  /** Ownership, and one group of variable rows per server. */
  predicate Sound(t: Tables) {
    Owned(t) && t.variables.Keys == t.servers.Keys
  }

  lemma CommitKeepsSound(c: Catalogue, t: Tables, op: Op)
    requires Sound(t) && (op.Create? ==> op.id !in t.servers)
    ensures var r := Commit(c, t, op); r.Ok? ==> Sound(r.value)
  {
    CommitKeepsOwnership(c, t, op);
  }

  /** A snapshot that a later restore can be judged by: it covers the server's own primary,
      binds rows to that server or to nobody, and stays on the server's node. */
  predicate ProperSnapshot(t: Tables, u: Undo) {
    u.RestoreAllocations? ==>
      && u.id in t.servers
      && u.primary in u.bindings && u.bindings[u.primary].server == Some(u.id)
      && forall a :: a in u.bindings ==>
           && a in t.allocations && t.allocations[a].node == t.servers[u.id].node
           && (u.bindings[a].server == None || u.bindings[a].server == Some(u.id))
  }

  /** The allocations an undo will write. */
  function HeldFor(u: Undo): set<int> {
    if u.RestoreAllocations? then u.bindings.Keys else if u.DropServer? then u.taken else {}
  }

  predicate HeldBy(m: map<int, Allocation>, id: int, held: set<int>) {
    forall a :: a in held ==> a in m && (m[a].server == None || m[a].server == Some(id))
  }

  /** Nobody but its own server holds an allocation the undo will write. */
  predicate Undisturbed(t: Tables, u: Undo) {
    HeldBy(t.allocations, u.id, HeldFor(u))
  }

  /** The session sees every row as the call left it, which it does when nobody else has written them. */
  predicate SeesLeft(u: Undo, v: View) {
    u.RestoreAllocations? ==>
      forall a :: a in v.seen && a in u.bindings ==> a in u.leftBindings && v.seen[a] == u.leftBindings[a]
  }

  /** What the call wrote is still there. */
  predicate AsLeft(t: Tables, u: Undo) {
    && (u.RestoreAllocations? ==>
          && u.id in t.servers && t.servers[u.id].allocation == u.leftPrimary
          && u.leftBindings == Bindings(t.allocations, u.bindings.Keys))
    && (u.RestoreConfig? ==> u.id in t.servers && ConfigOf(t.servers[u.id]) == u.left)
  }

  /** The restore that writes every column back. */
  function RestoreAll(t: Tables, u: Undo): Tables {
    match u
    case RestoreAllocations(id, primary, _, bindings, _, _) =>
      if id !in t.servers then t
      else t.(servers := t.servers[id := t.servers[id].(allocation := primary)],
              allocations := map a | a in t.allocations ::
                if a in bindings
                then t.allocations[a].(server := bindings[a].server, notes := bindings[a].notes)
                else t.allocations[a])
    case RestoreConfig(id, before, _, rows) =>
      if id !in t.servers then t
      else t.(servers := t.servers[id := t.servers[id].(nest := before.nest, egg := before.egg, image := before.image,
                                                        startup := before.startup, skipScripts := before.skipScripts)],
              variables := t.variables[id := rows])
    case _ => Compensate(t, u, View(map[], true))
  }

  lemma SeenAsLeft(t: Tables, u: Undo, v: View, a: int)
    requires u.RestoreAllocations? && AsLeft(t, u) && SeesLeft(u, v) && a in u.bindings && a in t.allocations
    ensures Seen(t.allocations, v, a) == BindingOf(t.allocations[a])
  {
  }

  lemma WritesAll(t: Tables, u: Undo, v: View)
    requires u.RestoreAllocations? && AsLeft(t, u) && SeesLeft(u, v)
    ensures WriteBindings(t.allocations, u, v) == RestoreAll(t, u).allocations
    ensures WritePrimary(t.servers, u) == RestoreAll(t, u).servers
  {
    var m, n := WriteBindings(t.allocations, u, v), RestoreAll(t, u).allocations;
    forall a | a in t.allocations ensures m[a] == n[a] {
      if a in u.bindings {
        SeenAsLeft(t, u, v, a);
      }
    }
    assert m == n;
  }

  /** While what the call wrote is still there, writing what differs is writing everything. */
  lemma AsLeftRestoresAll(t: Tables, u: Undo, v: View)
    requires AsLeft(t, u) && SeesLeft(u, v)
    requires u.RestoreAllocations? ==> u.primary in t.allocations
                                       && forall a :: a in u.bindings && u.bindings[a].server.Some? ==>
                                            u.bindings[a].server.value in t.servers
    ensures Compensate(t, u, v) == RestoreAll(t, u)
  {
    if u.RestoreAllocations? {
      WritesAll(t, u, v);
    }
  }

  lemma RowsAreProper(c: Catalogue, t: Tables, op: Op)
    requires Sound(t) && !op.Create?
    requires Commit(c, t, op).Ok? && UndoOf(c, t, op).RestoreAllocations?
    ensures var rows := UndoOf(c, t, op).bindings.Keys;
            && t.servers[op.id].allocation in rows
            && forall a :: a in rows ==>
                 && a in t.allocations && t.allocations[a].node == t.servers[op.id].node
                 && (t.allocations[a].server == None || t.allocations[a].server == Some(op.id))
  {
    assert PrimaryOwned(t, op.id);
    forall a | a in UndoOf(c, t, op).bindings
      ensures t.allocations[a].server == None || t.allocations[a].server == Some(op.id)
      ensures t.allocations[a].node == t.servers[op.id].node
    {
      assert BindingSound(t, a);
      assert op.AddAllocations? ==> a in Unique(op.allocations) || t.allocations[a].server == Some(op.id);
    }
  }

  lemma SnapshotIsProper(c: Catalogue, t: Tables, op: Op)
    requires Sound(t) && (op.Create? ==> op.id !in t.servers)
    requires Commit(c, t, op).Ok?
    ensures var t' := Commit(c, t, op).value;
            var u := UndoOf(c, t, op);
            u.id == op.id && ProperSnapshot(t', u) && Undisturbed(t', u) && Undisturbed(t, u) && AsLeft(t', u)
  {
    if op.Create? {
      CreationTakesFree(c, t, op.id, op.form);
    } else if UndoOf(c, t, op).RestoreAllocations? {
      AllocationSnapshotIsProper(c, t, op);
    }
  }

  lemma CreationTakesFree(c: Catalogue, t: Tables, id: int, f: CreateForm)
    requires id !in t.servers && Commit(c, t, Create(id, f)).Ok?
    ensures var ids := IdSet([f.allocation] + f.additional);
            HeldBy(t.allocations, id, ids) && HeldBy(Commit(c, t, Create(id, f)).value.allocations, id, ids)
  {
    assert forall a :: a in IdSet([f.allocation] + f.additional) ==> AllocationFault(t, None, f.node, a) == None;
  }

  lemma AllocationSnapshotIsProper(c: Catalogue, t: Tables, op: Op)
    requires Sound(t) && !op.Create?
    requires Commit(c, t, op).Ok? && UndoOf(c, t, op).RestoreAllocations?
    ensures var t' := Commit(c, t, op).value;
            var u := UndoOf(c, t, op);
            ProperSnapshot(t', u) && Undisturbed(t', u) && Undisturbed(t, u) && AsLeft(t', u)
  {
    RowsAreProper(c, t, op);
    ChangesStayProper(c, t, op);
  }

  lemma ChangesStayProper(c: Catalogue, t: Tables, op: Op)
    requires !op.Create? && Commit(c, t, op).Ok? && UndoOf(c, t, op).RestoreAllocations?
    ensures var t' := Commit(c, t, op).value;
            && op.id in t'.servers && t'.servers[op.id].node == t.servers[op.id].node
            && t'.allocations.Keys == t.allocations.Keys
            && forall a :: a in t.allocations ==>
                 && t'.allocations[a].node == t.allocations[a].node
                 && (t'.allocations[a].server == t.allocations[a].server || t'.allocations[a].server == None
                     || t'.allocations[a].server == Some(op.id))
  {
  }

  lemma ChangesAreSnapshotted(c: Catalogue, t: Tables, op: Op)
    requires Sound(t) && !op.Create?
    requires Commit(c, t, op).Ok? && UndoOf(c, t, op).RestoreAllocations?
    ensures var t', u := Commit(c, t, op).value, UndoOf(c, t, op);
            && t'.allocations.Keys == t.allocations.Keys
            && forall a :: a in t.allocations ==>
                 if a in u.bindings
                 then t'.allocations[a].node == t.allocations[a].node && u.bindings[a] == BindingOf(t.allocations[a])
                 else t'.allocations[a] == t.allocations[a]
  {
  }

  lemma WritesBack(t: Tables, t': Tables, u: Undo)
    requires u.RestoreAllocations? && u.id in t'.servers && t'.allocations.Keys == t.allocations.Keys
    requires forall a :: a in t.allocations ==>
               if a in u.bindings
               then t'.allocations[a].node == t.allocations[a].node && u.bindings[a] == BindingOf(t.allocations[a])
               else t'.allocations[a] == t.allocations[a]
    ensures RestoreAll(t', u).allocations == t.allocations
  {
    var back := RestoreAll(t', u).allocations;
    forall a | a in t.allocations ensures back[a] == t.allocations[a] {
    }
  }

  lemma AllocationUndoIsExact(c: Catalogue, t: Tables, op: Op)
    requires Sound(t) && !op.Create?
    requires Commit(c, t, op).Ok? && UndoOf(c, t, op).RestoreAllocations?
    ensures RestoreAll(Commit(c, t, op).value, UndoOf(c, t, op)) == t
  {
    ChangesAreSnapshotted(c, t, op);
    var t', u := Commit(c, t, op).value, UndoOf(c, t, op);
    WritesBack(t, t', u);
    assert t'.servers[op.id := t'.servers[op.id].(allocation := u.primary)] == t.servers;
  }

  lemma RowUndoIsExact(c: Catalogue, t: Tables, op: Op)
    requires Sound(t) && !op.Create? && !op.UpdateBuild?
    requires Commit(c, t, op).Ok? && !UndoOf(c, t, op).RestoreAllocations?
    ensures RestoreAll(Commit(c, t, op).value, UndoOf(c, t, op)) == t
  {
    var back := RestoreAll(Commit(c, t, op).value, UndoOf(c, t, op));
    assert back.servers == t.servers;
    assert back.variables == t.variables;
  }

  /** Every mutation except creation and the build edit is undone exactly. */
  lemma UndoIsExact(c: Catalogue, t: Tables, op: Op, v: View)
    requires Sound(t) && !op.Create? && !op.UpdateBuild?
    requires Commit(c, t, op).Ok? && SeesLeft(UndoOf(c, t, op), v)
    ensures Compensate(Commit(c, t, op).value, UndoOf(c, t, op), v) == t
  {
    SnapshotIsProper(c, t, op);
    if UndoOf(c, t, op).RestoreAllocations? {
      AllocationUndoIsExact(c, t, op);
    } else {
      RowUndoIsExact(c, t, op);
    }
    AsLeftRestoresAll(Commit(c, t, op).value, UndoOf(c, t, op), v);
  }

  /** A build edit is undone exactly unless it filled in a NULL allocation or database limit,
      or the server carried an empty, non-NULL thread pin, which the restore turns into NULL. */
  lemma BuildUndoExactIff(c: Catalogue, t: Tables, id: int, request: BuildRequest, v: View)
    requires id in t.servers
    ensures var op := UpdateBuild(id, request);
            var l := t.servers[id].limits;
            Compensate(Commit(c, t, op).value, UndoOf(c, t, op), v) == t
            <==> && (l.allocationLimit == None ==> request.allocationLimit == None)
                 && (l.databaseLimit == None ==> request.databaseLimit == None)
                 && l.threads != Some("")
  {
    var op := UpdateBuild(id, request);
    var back := Compensate(Commit(c, t, op).value, UndoOf(c, t, op), v);
    var l, s' := t.servers[id].limits, back.servers[id];
    assert s'.limits == WriteLimits(WriteLimits(l, request), LimitsAsRequest(l));
    assert back.servers == t.servers <==> s' == t.servers[id];
  }

  /** What the build compensation leaves, field by field, in every case. */
  lemma BuildUndoLeaves(c: Catalogue, t: Tables, id: int, request: BuildRequest, v: View)
    requires id in t.servers
    ensures var op := UpdateBuild(id, request);
            var l := t.servers[id].limits;
            Compensate(Commit(c, t, op).value, UndoOf(c, t, op), v)
            == t.(servers := t.servers[id := t.servers[id].(limits := l.(
                    allocationLimit := if l.allocationLimit.Some? then l.allocationLimit else request.allocationLimit,
                    databaseLimit := if l.databaseLimit.Some? then l.databaseLimit else request.databaseLimit,
                    threads := if l.threads == Some("") then None else l.threads))])
  {
  }

  /** Dropping a server whose creation Wings refused restores the tables exactly when
      none of the allocations it took carried a note. */
  lemma CreateUndoExactIff(c: Catalogue, t: Tables, id: int, form: CreateForm, v: View)
    requires Sound(t) && id !in t.servers
    requires Commit(c, t, Create(id, form)).Ok?
    ensures var op := Create(id, form);
            Compensate(Commit(c, t, op).value, UndoOf(c, t, op), v) == t
            <==> forall a :: a in [form.allocation] + form.additional ==> t.allocations[a].notes == None
  {
    var op := Create(id, form);
    var ids := [form.allocation] + form.additional;
    var t' := Commit(c, t, op).value;
    var back := DeleteRow(t', id);
    assert back.servers == t.servers && back.variables == t.variables;
    assert forall a :: a in ids ==> AllocationFault(t, None, form.node, a) == None;
    UnboundAgain(t, IdSet(ids), id, t'.allocations);
    assert forall a :: a in IdSet(ids) <==> a in ids;
  }

  /** Free rows bound to a new server and freed again lose their notes. */
  lemma UnboundAgain(t: Tables, ids: set<int>, id: int, bound: map<int, Allocation>)
    requires Owned(t) && id !in t.servers && bound == Bind(t.allocations, ids, id)
    requires forall a :: a in ids ==> a in t.allocations && t.allocations[a].server == None
    ensures DeleteRow(t.(allocations := bound), id).allocations == t.allocations
       <==> forall a :: a in ids ==> t.allocations[a].notes == None
  {
    var back := DeleteRow(t.(allocations := bound), id).allocations;
    forall a | a in t.allocations
      ensures back[a] == if a in ids then t.allocations[a].(notes := None) else t.allocations[a]
    {
      assert BindingSound(t, a);
    }
    if forall a :: a in ids ==> t.allocations[a].notes == None {
      assert back == t.allocations;
    } else {
      var a :| a in ids && t.allocations[a].notes != None;
      assert back[a] != t.allocations[a];
    }
  }

  /** What an allocation snapshot keeps whatever happens to the tables after it, its server's deletion included. */
  predicate Fits(t: Tables, u: Undo) {
    u.RestoreAllocations? ==>
      && u.primary in u.bindings && u.bindings[u.primary].server == Some(u.id)
      && (forall a :: a in u.bindings ==>
            && a in t.allocations
            && (u.bindings[a].server == None || u.bindings[a].server == Some(u.id)))
      && (u.id in t.servers ==> forall a :: a in u.bindings ==> t.allocations[a].node == t.servers[u.id].node)
  }

  /** The restore leaves a row's server column alone. */
  predicate Spares(m: map<int, Allocation>, u: Undo, v: View, a: int)
    requires u.RestoreAllocations? && a in m
  {
    a in u.bindings ==> Seen(m, v, a).server == u.bindings[a].server
  }

  /** The restore writes no other server's primary, and what is then its own server's primary it binds to that, or
      finds bound to it and leaves alone. */
  predicate SafeToRestore(t: Tables, u: Undo, v: View) {
    u.RestoreAllocations? && RestoreCommits(t, u, v) ==>
      && (forall x :: x in t.servers && x != u.id ==>
            t.servers[x].allocation in t.allocations && Spares(t.allocations, u, v, t.servers[x].allocation))
      && (u.id in t.servers ==>
            var p := Column(u.leftPrimary, u.primary, t.servers[u.id].allocation);
            && p in t.allocations
            && if Spares(t.allocations, u, v, p) then t.allocations[p].server == Some(u.id)
               else u.bindings[p].server == Some(u.id))
  }

  /** Written back over any later owned tables, a snapshot keeps ownership exactly when that is safe. */
  lemma RestoreKeepsOwnershipIff(t: Tables, u: Undo, v: View)
    requires Owned(t) && Fits(t, u)
    ensures Owned(Compensate(t, u, v)) <==> SafeToRestore(t, u, v)
  {
    if !u.RestoreAllocations? {
      OtherUndosKeepOwnership(t, u, v);
    } else if RestoreCommits(t, u, v) {
      if SafeToRestore(t, u, v) {
        SafeRestoreKeepsOwnership(t, u, v);
      } else {
        UnsafeRestoreBreaksOwnership(t, u, v);
      }
    }
  }

  /** When the session reads every row anew, that is: no other server's primary is in the snapshot, and the server's
      own is either moved back, outside it, or was the server's already. */
  lemma FreshRestoreKeepsOwnershipIff(t: Tables, u: Undo, touched: bool)
    requires Owned(t) && Fits(t, u) && u.RestoreAllocations? && u.id in t.servers
    ensures Owned(Compensate(t, u, View(map[], touched)))
       <==> && (forall x :: x in t.servers && x != u.id ==> t.servers[x].allocation !in u.bindings)
            && (var p := t.servers[u.id].allocation;
                u.leftPrimary != u.primary || p !in u.bindings || u.bindings[p].server == Some(u.id))
  {
    forall x | x in t.servers ensures PrimaryOwned(t, x) {
    }
    RestoreKeepsOwnershipIff(t, u, View(map[], touched));
  }

  lemma SafeRestoreKeepsOwnership(t: Tables, u: Undo, v: View)
    requires Owned(t) && Fits(t, u) && SafeToRestore(t, u, v)
    requires u.RestoreAllocations? && RestoreCommits(t, u, v)
    ensures Owned(Compensate(t, u, v))
  {
    var t' := Compensate(t, u, v);
    forall x | x in t'.servers ensures PrimaryOwned(t', x) {
      assert PrimaryOwned(t, x);
    }
    forall a | a in t'.allocations ensures BindingSound(t', a) {
      assert BindingSound(t, a);
    }
  }

  lemma UnsafeRestoreBreaksOwnership(t: Tables, u: Undo, v: View)
    requires Owned(t) && Fits(t, u) && !SafeToRestore(t, u, v)
    ensures !Owned(Compensate(t, u, v))
  {
    var t' := Compensate(t, u, v);
    forall x | x in t.servers ensures PrimaryOwned(t, x) {
    }
    if x :| x in t.servers && x != u.id && !Spares(t.allocations, u, v, t.servers[x].allocation) {
      assert !PrimaryOwned(t', x);
    } else {
      assert !PrimaryOwned(t', u.id);
    }
  }

  /** The other compensations never touch a binding. */
  lemma OtherUndosKeepOwnership(t: Tables, u: Undo, v: View)
    requires Owned(t) && !u.RestoreAllocations?
    ensures Owned(Compensate(t, u, v))
  {
    if u.DropServer? {
      DeleteRowKeepsOwnership(t, u.id);
    } else {
      var t' := Compensate(t, u, v);
      forall x | x in t'.servers ensures PrimaryOwned(t', x) {
        assert PrimaryOwned(t, x);
      }
      forall a | a in t'.allocations ensures BindingSound(t', a) {
        assert BindingSound(t, a);
      }
    }
  }

  /** A compensation keeps ownership while what it writes is as the call left it and nobody else's. */
  lemma UndisturbedRestoreKeepsOwnership(t: Tables, u: Undo, v: View)
    requires Owned(t) && ProperSnapshot(t, u) && Undisturbed(t, u) && AsLeft(t, u) && SeesLeft(u, v)
    ensures SafeToRestore(t, u, v) && Owned(Compensate(t, u, v))
  {
    if u.RestoreAllocations? {
      forall x | x in t.servers ensures PrimaryOwned(t, x) {
      }
      forall a | a in u.bindings ensures Seen(t.allocations, v, a) == BindingOf(t.allocations[a]) {
        SeenAsLeft(t, u, v, a);
      }
    }
    RestoreKeepsOwnershipIff(t, u, v);
  }

  /** The restore of a server that has been deleted since changes nothing, except that an allocation edit, if it had not
      moved the primary and touches no column of the server row, still writes the bindings that differ. */
  lemma GoneServerIsNotRestored(t: Tables, u: Undo, v: View)
    requires Sound(t) && u.id !in t.servers
    ensures (u.RestoreAllocations? && !v.touched && u.leftPrimary == u.primary) || Compensate(t, u, v) == t
  {
    if u.DropServer? {
      var t' := DeleteRow(t, u.id);
      forall a | a in t.allocations ensures t'.allocations[a] == t.allocations[a] {
        assert BindingSound(t, a);
      }
      assert t'.allocations == t.allocations && t'.servers == t.servers && t'.variables == t.variables;
    }
  }
}
