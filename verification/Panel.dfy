/** The panel tables that a server lives in, the mutations of them that are
    followed by a Wings call, and the compensation written when that call fails.

    A mutation is split where the source commits: `Commit` is everything up to the first
    commit, `Snapshot` what it remembers, `Compensate` the restore that a Wings failure triggers. */
module Panel {
  import opened Common
  import Rules
  import Text

  // ----- Tables -----

  /** `None` is SQL NULL. */
  datatype Limits = Limits(
    memory: int, swap: int, disk: int, io: int, cpu: int,
    allocationLimit: Option<int>, databaseLimit: Option<int>, backupLimit: int,
    threads: Option<string>, oomDisabled: bool)

  datatype Server = Server(
    uuid: string, node: int, owner: int, name: string, description: string,
    status: Option<string>, installedAt: Option<int>,
    limits: Limits, allocation: int,
    nest: int, egg: int, image: string, startup: string, skipScripts: bool)

  datatype Allocation = Allocation(node: int, server: Option<int>, notes: Option<string>)

  datatype VariableRow = VariableRow(variable: int, value: string)

  /** `variables` groups the variable rows by their server, in row order. */
  datatype Tables = Tables(
    servers: map<int, Server>,
    allocations: map<int, Allocation>,
    variables: map<int, seq<VariableRow>>)

  datatype EggVariable = EggVariable(id: int, env: string, defaultValue: string, rules: Option<string>)

  datatype Egg = Egg(nest: int, variables: seq<EggVariable>)

  /** What the mutations only read. `accepts` judges a value by its variable's rules. */
  datatype Catalogue = Catalogue(
    users: set<int>, nodes: set<int>, eggs: map<int, Egg>,
    accepts: (string, Option<string>) -> bool)

  /** The catalogue of the running service, which judges by the rule language. */
  function ServiceCatalogue(users: set<int>, nodes: set<int>, eggs: map<int, Egg>, e: Rules.Engine): Catalogue {
    Catalogue(users, nodes, eggs,
              (value, rules) => Rules.ValidateEnvironment(e, Rules.Text(value), rules) == Rules.Passed)
  }

  datatype Error =
    | ServerNotFound | UserNotFound | NodeNotFound | EggNotFound | NestMismatch
    | AllocationNotFound(id: int) | WrongNode(id: int) | AllocationTaken(id: int)
    | IsPrimary | NotOwned(id: int)
    | EmptyImage | EmptyStartup
    | UnknownVariable | BadVariable(env: string)

  // ----- Mutations up to the commit -----

  datatype CreateForm = CreateForm(
    uuid: string, owner: int, node: int, allocation: int, additional: seq<int>,
    egg: int, nest: int, name: string, description: string, limits: Limits,
    image: string, startup: string, environment: map<string, string>, skipScripts: bool)

  /** Fields absent from the request are `None`. */
  datatype ConfigEdit = ConfigEdit(image: Option<string>, startup: Option<string>, skipScripts: Option<bool>)

  datatype BuildRequest = BuildRequest(
    memory: Option<int>, swap: Option<int>, disk: Option<int>, io: Option<int>, cpu: Option<int>,
    allocationLimit: Option<int>, databaseLimit: Option<int>, backupLimit: Option<int>,
    threads: Option<string>, updateThreads: bool, oomDisabled: Option<bool>)

  datatype VariableEdit = VariableEdit(env: string, value: string)

  datatype Op =
    | Create(id: int, form: CreateForm)
    | AddAllocations(id: int, allocations: seq<int>)
    | RemoveAllocation(id: int, allocation: int)
    | SetPrimary(id: int, allocation: int)
    | UpdateStartup(id: int, edit: ConfigEdit)
    | SwitchEgg(id: int, nest: int, egg: int, environment: map<string, string>, edit: ConfigEdit)
    | UpdateVariables(id: int, edits: seq<VariableEdit>)
    | Suspend(id: int)
    | Unsuspend(id: int)
    | Reinstall(id: int)
    | UpdateBuild(id: int, request: BuildRequest)

  /** `list(dict.fromkeys(ids))`: first occurrences, in order. */
  function Unique(ids: seq<int>): (r: seq<int>)
    ensures forall a :: a in r <==> a in ids
    ensures forall i, j :: 0 <= i < j < |r| ==> r[i] != r[j]
  {
    if ids == [] then []
    else
      var init, last := Unique(ids[..|ids| - 1]), ids[|ids| - 1];
      assert ids == ids[..|ids| - 1] + [last];
      if last in init then init else init + [last]
  }

  /** Why `a` may not be bound to server `id` on `node`; a new server passes `None`. */
  function AllocationFault(t: Tables, id: Option<int>, node: int, a: int): Option<Error> {
    if a !in t.allocations then Some(AllocationNotFound(a))
    else if t.allocations[a].node != node then Some(WrongNode(a))
    else if t.allocations[a].server != None && t.allocations[a].server != id then Some(AllocationTaken(a))
    else None
  }

  function FirstFault(t: Tables, id: Option<int>, node: int, ids: seq<int>): (r: Option<Error>)
    ensures r == None <==> forall a :: a in ids ==> AllocationFault(t, id, node, a) == None
  {
    if ids == [] then None
    else
      var first := AllocationFault(t, id, node, ids[0]);
      if first != None then first else FirstFault(t, id, node, ids[1..])
  }

  function Bind(allocations: map<int, Allocation>, ids: set<int>, id: int): (r: map<int, Allocation>) {
    map a | a in allocations :: if a in ids then allocations[a].(server := Some(id)) else allocations[a]
  }

  function IdSet(ids: seq<int>): set<int> {
    set a | a in ids
  }

  function VariablesOf(c: Catalogue, egg: int): seq<EggVariable> {
    if egg in c.eggs then c.eggs[egg].variables else []
  }

  predicate ValueAccepted(c: Catalogue, variable: EggVariable, value: string) {
    c.accepts(value, variable.rules)
  }

  /** The request's value for a variable, or its default. */
  function Chosen(environment: map<string, string>, v: EggVariable): string {
    GetOr(environment, v.env, v.defaultValue)
  }

  /** One row per egg variable: the request's value or the default, refused by the first bad one. */
  function FillVariables(c: Catalogue, variables: seq<EggVariable>, environment: map<string, string>)
    : Result<seq<VariableRow>, Error>
  {
    if variables == [] then Ok([])
    else
      var v := variables[0];
      var value := Chosen(environment, v);
      if !ValueAccepted(c, v, value) then Err(BadVariable(v.env))
      else match FillVariables(c, variables[1..], environment)
        case Err(e) => Err(e)
        case Ok(rows) => Ok([VariableRow(v.id, value)] + rows)
  }

  function ApplyConfig(s: Server, edit: ConfigEdit): Result<Server, Error> {
    if edit.image.Some? && Text.Strip(edit.image.value) == "" then Err(EmptyImage)
    else if edit.startup.Some? && Text.Strip(edit.startup.value) == "" then Err(EmptyStartup)
    else Ok(s.(image := if edit.image.Some? then Text.Strip(edit.image.value) else s.image,
               startup := if edit.startup.Some? then Text.Strip(edit.startup.value) else s.startup,
               skipScripts := if edit.skipScripts.Some? then edit.skipScripts.value else s.skipScripts))
  }

  /** The egg variable an environment name stands for; a later row of the same name wins. */
  function Named(variables: seq<EggVariable>, env: string): (r: Option<EggVariable>)
    ensures r.Some? ==> r.value in variables && r.value.env == env
    ensures r.None? ==> forall v :: v in variables ==> v.env != env
    ensures r.Some? ==> exists j :: 0 <= j < |variables| && variables[j] == r.value
                                    && forall k :: j < k < |variables| ==> variables[k].env != env
  {
    if variables == [] then None
    else if variables[|variables| - 1].env == env then
      assert variables[|variables| - 1] in variables;
      Some(variables[|variables| - 1])
    else Named(variables[..|variables| - 1], env)
  }

  /** Position of the last row for a variable, or the number of rows. */
  function LastRow(rows: seq<VariableRow>, variable: int): (i: nat)
    ensures i <= |rows|
    ensures i < |rows| ==> rows[i].variable == variable
    ensures forall k :: 0 <= k < |rows| && (i == |rows| || i < k) ==> rows[k].variable != variable
  {
    if rows == [] then 0
    else if rows[|rows| - 1].variable == variable then |rows| - 1
    else
      var i := LastRow(rows[..|rows| - 1], variable);
      if i == |rows| - 1 then |rows| else i
  }

  function PutRow(rows: seq<VariableRow>, variable: int, value: string): seq<VariableRow> {
    var i := LastRow(rows, variable);
    if i < |rows| then rows[i := VariableRow(variable, value)] else rows + [VariableRow(variable, value)]
  }

  function EditRows(c: Catalogue, variables: seq<EggVariable>, rows: seq<VariableRow>, edits: seq<VariableEdit>)
    : Result<seq<VariableRow>, Error>
    decreases |edits|
  {
    if edits == [] then Ok(rows)
    else match Named(variables, edits[0].env)
      case None => Err(UnknownVariable)
      case Some(v) =>
        if !ValueAccepted(c, v, edits[0].value) then Err(BadVariable(v.env))
        else EditRows(c, variables, PutRow(rows, v.id, edits[0].value), edits[1..])
  }

  predicate AllNamed(variables: seq<EggVariable>, edits: seq<VariableEdit>) {
    forall i :: 0 <= i < |edits| ==> Named(variables, edits[i].env).Some?
  }

  /** Only the fields that are present are written; an empty thread pin is stored as NULL. */
  function WriteLimits(l: Limits, r: BuildRequest): Limits {
    Limits(
      if r.memory.Some? then r.memory.value else l.memory,
      if r.swap.Some? then r.swap.value else l.swap,
      if r.disk.Some? then r.disk.value else l.disk,
      if r.io.Some? then r.io.value else l.io,
      if r.cpu.Some? then r.cpu.value else l.cpu,
      if r.allocationLimit.Some? then r.allocationLimit else l.allocationLimit,
      if r.databaseLimit.Some? then r.databaseLimit else l.databaseLimit,
      if r.backupLimit.Some? then r.backupLimit.value else l.backupLimit,
      if !r.updateThreads then l.threads else if r.threads == Some("") then None else r.threads,
      if r.oomDisabled.Some? then r.oomDisabled.value else l.oomDisabled)
  }

  function RowsOf(t: Tables, id: int): seq<VariableRow> {
    GetOr(t.variables, id, [])
  }

  function NewServer(f: CreateForm): Server {
    Server(f.uuid, f.node, f.owner, f.name, f.description, Some("installing"), None,
           f.limits, f.allocation, f.nest, f.egg, f.image, f.startup, f.skipScripts)
  }

  /** The inserts of a creation that has passed every check. */
  function Created(t: Tables, id: int, f: CreateForm, rows: seq<VariableRow>): Tables {
    Tables(t.servers[id := NewServer(f)],
           Bind(t.allocations, IdSet([f.allocation] + f.additional), id),
           t.variables[id := rows])
  }

  function CommitCreate(c: Catalogue, t: Tables, id: int, f: CreateForm): Result<Tables, Error> {
    if f.owner !in c.users then Err(UserNotFound)
    else if f.node !in c.nodes then Err(NodeNotFound)
    else if f.egg !in c.eggs then Err(EggNotFound)
    else if c.eggs[f.egg].nest != f.nest then Err(NestMismatch)
    else match FirstFault(t, None, f.node, [f.allocation] + f.additional)
      case Some(e) => Err(e)
      case None =>
        match FillVariables(c, c.eggs[f.egg].variables, f.environment)
        case Err(e) => Err(e)
        case Ok(rows) => Ok(Created(t, id, f, rows))
  }

  function CommitOnServer(c: Catalogue, t: Tables, op: Op): Result<Tables, Error>
    requires !op.Create? && op.id in t.servers
  {
    var id := op.id;
    var s := t.servers[id];
    match op
    case AddAllocations(_, ids) =>
      (match FirstFault(t, Some(id), s.node, Unique(ids))
       case Some(e) => Err(e)
       case None => Ok(t.(allocations := Bind(t.allocations, IdSet(ids), id))))
    case RemoveAllocation(_, a) =>
      if s.allocation == a then Err(IsPrimary)
      else if a !in t.allocations || t.allocations[a].server != Some(id) then Err(NotOwned(a))
      else Ok(t.(allocations := t.allocations[a := t.allocations[a].(server := None, notes := None)]))
    case SetPrimary(_, a) =>
      (match AllocationFault(t, Some(id), s.node, a)
       case Some(e) => Err(e)
       case None => Ok(t.(servers := t.servers[id := s.(allocation := a)],
                          allocations := Bind(t.allocations, {a}, id))))
    case UpdateStartup(_, edit) =>
      (match ApplyConfig(s, edit)
       case Err(e) => Err(e)
       case Ok(s') => Ok(t.(servers := t.servers[id := s'])))
    case SwitchEgg(_, nest, egg, environment, edit) =>
      if egg !in c.eggs then Err(EggNotFound)
      else if c.eggs[egg].nest != nest then Err(NestMismatch)
      else (match FillVariables(c, c.eggs[egg].variables, environment)
        case Err(e) => Err(e)
        case Ok(rows) =>
          match ApplyConfig(s.(nest := nest, egg := egg), edit)
          case Err(e) => Err(e)
          case Ok(s') => Ok(t.(servers := t.servers[id := s'], variables := t.variables[id := rows])))
    case UpdateVariables(_, edits) =>
      var variables := VariablesOf(c, s.egg);
      if !AllNamed(variables, edits) then Err(UnknownVariable)
      else (match EditRows(c, variables, RowsOf(t, id), edits)
        case Err(e) => Err(e)
        case Ok(rows) => Ok(t.(variables := t.variables[id := rows])))
    case Suspend(_) => Ok(t.(servers := t.servers[id := s.(status := Some("suspended"))]))
    case Unsuspend(_) => Ok(t.(servers := t.servers[id := s.(status := None)]))
    case Reinstall(_) => Ok(t.(servers := t.servers[id := s.(status := Some("installing"), installedAt := None)]))
    case UpdateBuild(_, request) => Ok(t.(servers := t.servers[id := s.(limits := WriteLimits(s.limits, request))]))
  }

  /** The auto-increment key of a new server is unused; any other mutation needs its server. */
  function Commit(c: Catalogue, t: Tables, op: Op): Result<Tables, Error>
    requires op.Create? ==> op.id !in t.servers
  {
    if op.Create? then CommitCreate(c, t, op.id, op.form)
    else if op.id !in t.servers then Err(ServerNotFound)
    else CommitOnServer(c, t, op)
  }

  // ----- What a call remembers, and its compensation -----

  datatype Binding = Binding(server: Option<int>, notes: Option<string>)

  datatype Config = Config(nest: int, egg: int, image: string, startup: string, skipScripts: bool)

  function ConfigOf(s: Server): Config {
    Config(s.nest, s.egg, s.image, s.startup, s.skipScripts)
  }

  /** What a call holds while it waits for Wings: the rows as they were, and as it left them itself. Its session
      keeps the server row, and those of the allocations `inHand`. `taken` is what a creation bound; the deletion
      that undoes it finds those rows by their server. */
  datatype Undo =
    | DropServer(id: int, taken: set<int>)
    | RestoreAllocations(id: int, primary: int, leftPrimary: int,
                         bindings: map<int, Binding>, leftBindings: map<int, Binding>, inHand: set<int>)
    | RestoreConfig(id: int, before: Config, left: Config, rows: seq<VariableRow>)
    | RestoreStatus(id: int, status: Option<string>)
    | RestoreInstall(id: int, status: Option<string>, installedAt: Option<int>)
    | RestoreLimits(id: int, limits: Limits)

  function BindingOf(a: Allocation): Binding {
    Binding(a.server, a.notes)
  }

  /** The rows of a snapshot: the server's own, its primary and those the call will touch. */
  function SnapshotRows(t: Tables, id: int, extra: set<int>): (rows: set<int>)
    requires id in t.servers
    ensures forall a :: a in rows ==> a in t.allocations
  {
    set a | a in t.allocations && (t.allocations[a].server == Some(id) || a == t.servers[id].allocation || a in extra)
  }

  function Bindings(allocations: map<int, Allocation>, rows: set<int>): map<int, Binding> {
    map a | a in rows && a in allocations :: BindingOf(allocations[a])
  }

  /** The undo of an allocation edit that led from `t` to `t'`. */
  function UndoAllocations(t: Tables, t': Tables, id: int, extra: set<int>, inHand: set<int>): Undo
    requires id in t.servers && id in t'.servers
  {
    var rows := SnapshotRows(t, id, extra);
    RestoreAllocations(id, t.servers[id].allocation, t'.servers[id].allocation,
                       Bindings(t.allocations, rows), Bindings(t'.allocations, rows), inHand)
  }

  function UndoConfig(t: Tables, t': Tables, id: int): Undo
    requires id in t.servers && id in t'.servers
  {
    RestoreConfig(id, ConfigOf(t.servers[id]), ConfigOf(t'.servers[id]), RowsOf(t, id))
  }

  /** The allocation row the loop variable still refers to when the loop is over. */
  function LastOf(ids: seq<int>): set<int> {
    if Unique(ids) == [] then {} else {Unique(ids)[|Unique(ids)| - 1]}
  }

  /** What a mutation that led from `t` to `t'` remembers. */
  function Remember(t: Tables, t': Tables, op: Op): Undo
    requires op.Create? || (op.id in t.servers && op.id in t'.servers)
  {
    match op
    case Create(id, form) => DropServer(id, IdSet([form.allocation] + form.additional))
    case AddAllocations(id, ids) => UndoAllocations(t, t', id, IdSet(ids), LastOf(ids))
    case RemoveAllocation(id, a) => UndoAllocations(t, t', id, {a}, {a})
    case SetPrimary(id, a) => UndoAllocations(t, t', id, {a}, {a})
    case UpdateStartup(id, _) => UndoConfig(t, t', id)
    case SwitchEgg(id, _, _, _, _) => UndoConfig(t, t', id)
    case UpdateVariables(id, _) => UndoConfig(t, t', id)
    case Suspend(id) => RestoreStatus(id, t.servers[id].status)
    case Unsuspend(id) => RestoreStatus(id, t.servers[id].status)
    case Reinstall(id) => RestoreInstall(id, t.servers[id].status, t.servers[id].installedAt)
    case UpdateBuild(id, _) => RestoreLimits(id, t.servers[id].limits)
  }

  /** A committed mutation with what it remembers. */
  function UndoOf(c: Catalogue, t: Tables, op: Op): Undo
    requires op.Create? ==> op.id !in t.servers
    requires Commit(c, t, op).Ok?
  {
    Remember(t, Commit(c, t, op).value, op)
  }

  /** DELETE of a server row: notes cleared, allocations set NULL, variable rows cascaded. */
  function DeleteRow(t: Tables, id: int): Tables {
    Tables(
      t.servers - {id},
      map a | a in t.allocations ::
        if t.allocations[a].server == Some(id) then t.allocations[a].(server := None, notes := None)
        else t.allocations[a],
      t.variables - {id})
  }

  /** What the session makes of the rows at the restore: `seen` are the allocation rows it still has or reads from an
      old snapshot; the others it reads anew. `touched` says whether the time stamp of the server row is a new one,
      so that the row is updated in any case. */
  datatype View = View(seen: map<int, Binding>, touched: bool)

  function Seen(m: map<int, Allocation>, v: View, a: int): Binding
    requires a in m
  {
    if a in v.seen then v.seen[a] else BindingOf(m[a])
  }

  function WriteBindings(m: map<int, Allocation>, u: Undo, v: View): map<int, Allocation>
    requires u.RestoreAllocations?
  {
    map a | a in m ::
      if a in u.bindings
      then m[a].(server := Column(Seen(m, v, a).server, u.bindings[a].server, m[a].server),
                 notes := Column(Seen(m, v, a).notes, u.bindings[a].notes, m[a].notes))
      else m[a]
  }

  /** Rows still in the session's hands are seen as the call left them. */
  predicate InHand(u: Undo, v: View) {
    u.RestoreAllocations? ==>
      forall a :: a in u.inHand && a in u.leftBindings ==> a in v.seen && v.seen[a] == u.leftBindings[a]
  }

  /** The restore commits: an updated server row still exists, and whatever is written names existing rows. */
  predicate RestoreCommits(t: Tables, u: Undo, v: View)
    requires u.RestoreAllocations?
  {
    && (u.id !in t.servers ==> !v.touched && u.leftPrimary == u.primary)
    && (u.id in t.servers ==> u.leftPrimary != u.primary ==> u.primary in t.allocations)
    && forall a :: a in u.bindings && a in t.allocations && u.bindings[a].server.Some?
                   && Seen(t.allocations, v, a).server != u.bindings[a].server ==>
         u.bindings[a].server.value in t.servers
  }

  function WritePrimary(servers: map<int, Server>, u: Undo): map<int, Server>
    requires u.RestoreAllocations?
  {
    if u.id in servers
    then servers[u.id := servers[u.id].(allocation := Column(u.leftPrimary, u.primary, servers[u.id].allocation))]
    else servers
  }

  function WriteConfig(s: Server, before: Config, left: Config): Server {
    s.(nest := Column(left.nest, before.nest, s.nest), egg := Column(left.egg, before.egg, s.egg),
       image := Column(left.image, before.image, s.image), startup := Column(left.startup, before.startup, s.startup),
       skipScripts := Column(left.skipScripts, before.skipScripts, s.skipScripts))
  }

  /** The request that writes earlier limits back: every field, NULL meaning "not given". */
  function LimitsAsRequest(l: Limits): BuildRequest {
    BuildRequest(Some(l.memory), Some(l.swap), Some(l.disk), Some(l.io), Some(l.cpu),
                 l.allocationLimit, l.databaseLimit, Some(l.backupLimit), l.threads, true, Some(l.oomDisabled))
  }

  /** A compensation that cannot be written (its server is gone, a key is violated) is logged and dropped. */
  function Compensate(t: Tables, u: Undo, v: View): Tables {
    if u.DropServer? then DeleteRow(t, u.id)
    else if u.RestoreAllocations? then
      if !RestoreCommits(t, u, v) then t
      else t.(servers := WritePrimary(t.servers, u), allocations := WriteBindings(t.allocations, u, v))
    else if u.id !in t.servers then t
    else
      var s := t.servers[u.id];
      match u
      case RestoreConfig(id, before, left, rows) =>
        t.(servers := t.servers[id := WriteConfig(s, before, left)], variables := t.variables[id := rows])
      case RestoreStatus(id, status) => t.(servers := t.servers[id := s.(status := status)])
      case RestoreInstall(id, status, installedAt) =>
        t.(servers := t.servers[id := s.(status := status, installedAt := installedAt)])
      case RestoreLimits(id, limits) =>
        t.(servers := t.servers[id := s.(limits := WriteLimits(s.limits, LimitsAsRequest(limits)))])
  }

  // ----- Ownership -----

  /** The primary allocation exists, lies on the server's node and is bound to the server. */
  predicate PrimaryOwned(t: Tables, id: int)
    requires id in t.servers
  {
    var s := t.servers[id];
    && s.allocation in t.allocations
    && t.allocations[s.allocation].node == s.node
    && t.allocations[s.allocation].server == Some(id)
  }

  /** A bound allocation names an existing server on the same node. */
  predicate BindingSound(t: Tables, a: int)
    requires a in t.allocations
  {
    t.allocations[a].server.Some? ==>
      && t.allocations[a].server.value in t.servers
      && t.servers[t.allocations[a].server.value].node == t.allocations[a].node
  }

  predicate Owned(t: Tables) {
    && (forall id :: id in t.servers ==> PrimaryOwned(t, id))
    && (forall a :: a in t.allocations ==> BindingSound(t, a))
  }

  /** A new server and the free rows on its node that become its own. */
  lemma CreatedKeepsOwnership(t: Tables, id: int, f: CreateForm, rows: seq<VariableRow>)
    requires Owned(t) && id !in t.servers
    requires FirstFault(t, None, f.node, [f.allocation] + f.additional) == None
    ensures Owned(Created(t, id, f, rows))
  {
    var t' := Created(t, id, f, rows);
    assert f.allocation in [f.allocation] + f.additional;
    forall a | a in t'.allocations ensures BindingSound(t', a) {
      assert BindingSound(t, a);
      assert a in IdSet([f.allocation] + f.additional) ==> AllocationFault(t, None, f.node, a) == None;
    }
    forall x | x in t'.servers ensures PrimaryOwned(t', x) {
      assert x != id ==> PrimaryOwned(t, x);
    }
  }

  lemma EditKeepsOwnership(c: Catalogue, t: Tables, op: Op)
    requires Owned(t) && !op.Create? && Commit(c, t, op).Ok?
    ensures Owned(Commit(c, t, op).value)
  {
    var t' := Commit(c, t, op).value;
    forall a | a in t'.allocations ensures BindingSound(t', a) {
      assert BindingSound(t, a);
    }
    forall x | x in t'.servers ensures PrimaryOwned(t', x) {
      assert PrimaryOwned(t, x);
    }
  }

  lemma CommitKeepsOwnership(c: Catalogue, t: Tables, op: Op)
    requires Owned(t)
    requires op.Create? ==> op.id !in t.servers
    ensures var r := Commit(c, t, op); r.Ok? ==> Owned(r.value)
  {
    var r := Commit(c, t, op);
    if r.Ok? {
      if op.Create? {
        CreatedKeepsOwnership(t, op.id, op.form, r.value.variables[op.id]);
      } else {
        EditKeepsOwnership(c, t, op);
      }
    }
  }

  lemma DeleteRowKeepsOwnership(t: Tables, id: int)
    requires Owned(t)
    ensures Owned(DeleteRow(t, id))
    ensures forall a :: a in t.allocations ==> DeleteRow(t, id).allocations[a].server != Some(id)
  {
    var t' := DeleteRow(t, id);
    forall a | a in t'.allocations ensures BindingSound(t', a) {
      assert BindingSound(t, a);
    }
    forall s | s in t'.servers ensures PrimaryOwned(t', s) {
      assert PrimaryOwned(t, s);
    }
  }
}
