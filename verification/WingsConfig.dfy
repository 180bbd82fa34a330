/** The node configuration: edited in the panel, then pushed to Wings as a partial patch
    that keeps whatever it omits. A push may be applied, refused or lost. */
module WingsConfig {
  import opened Common
  import Text

  // ----- The panel side -----

  datatype Field =
    | Scheme | BehindProxy | UploadSize | DaemonListen | DaemonSftp | DaemonBase
    | Name | Description | Fqdn | Memory | MemoryOverallocate | Disk | DiskOverallocate | MaintenanceMode

  datatype Value = Str(s: string) | Int(n: int) | Bool(b: bool) | Null

  const WINGS_AFFECTING: set<Field> := {Scheme, BehindProxy, UploadSize, DaemonListen, DaemonSftp, DaemonBase}

  const RESTART_REQUIRED: set<Field> := {Scheme, BehindProxy, DaemonListen, DaemonSftp, DaemonBase}

  /** A `nodes` row; `token` is the daemon token as decrypted, None when decryption raises. */
  datatype Node = Node(fields: map<Field, Value>, tokenId: string, token: Option<string>)

  predicate Complete(n: Node) {
    forall f: Field :: f in n.fields
  }

  // ----- The Wings side: a configuration as a map of its leaves -----

  datatype Key =
    | TokenId | Token
    | ApiPort | ApiUploadLimit | ApiSslEnabled | ApiSslCert | ApiSslKey
    | SystemData | SystemSftpPort

  type Config = map<Key, Value>

  /** The leaves derived from node fields. */
  predicate Derived(k: Key) {
    k in {ApiPort, ApiUploadLimit, ApiSslEnabled, SystemData, SystemSftpPort}
  }

  /** A field a leaf is derived from is among those changed. */
  predicate Touched(changed: set<Field>, k: Key) {
    match k
    case ApiPort => DaemonListen in changed
    case ApiUploadLimit => UploadSize in changed
    case ApiSslEnabled => Scheme in changed || BehindProxy in changed
    case SystemData => DaemonBase in changed
    case SystemSftpPort => DaemonSftp in changed
    case _ => false
  }

  /** What the panel says a derived leaf should be. */
  function View(n: Node, k: Key): Value
    requires Complete(n) && Derived(k)
  {
    match k
    case ApiPort => n.fields[DaemonListen]
    case ApiUploadLimit => n.fields[UploadSize]
    case ApiSslEnabled => Bool(n.fields[Scheme] == Str("https") && n.fields[BehindProxy] != Bool(true))
    case SystemData => n.fields[DaemonBase]
    case SystemSftpPort => n.fields[DaemonSftp]
  }

  // ----- The patch -----

  function ApiBlock(n: Node, affecting: set<Field>): Config
    requires Complete(n)
  {
    (if DaemonListen in affecting then map[ApiPort := n.fields[DaemonListen]] else map[])
    + (if UploadSize in affecting then map[ApiUploadLimit := n.fields[UploadSize]] else map[])
    + (if Scheme in affecting || BehindProxy in affecting
       then map[ApiSslEnabled := Bool(n.fields[Scheme] == Str("https") && n.fields[BehindProxy] != Bool(true))]
       else map[])
  }

  function SystemBlock(n: Node, affecting: set<Field>): Config
    requires Complete(n)
  {
    (if DaemonBase in affecting then map[SystemData := n.fields[DaemonBase]] else map[])
    + (if DaemonSftp in affecting then map[SystemSftpPort := n.fields[DaemonSftp]] else map[])
  }

  /** The partial configuration for the changed fields; None when Wings consumes none of them. */
  function BuildPayload(n: Node, changed: set<Field>): (r: Option<Config>)
    requires Complete(n) && n.token.Some?
  {
    var affecting := changed * WINGS_AFFECTING;
    if affecting == {} then None
    else Some(map[TokenId := Str(n.tokenId), Token := Str(n.token.value)]
              + ApiBlock(n, affecting) + SystemBlock(n, affecting))
  }

  /** A patch carries the credentials and exactly the leaves derived from a changed field, each as the
      panel sees it; there is no patch when no leaf is. */
  ghost predicate Carries(p: Option<Config>, n: Node, changed: set<Field>)
    requires Complete(n) && n.token.Some?
  {
    && (p.None? <==> changed !! WINGS_AFFECTING)
    && (p.None? ==> forall k :: !Touched(changed, k))
    && (p.Some? ==>
          && (forall k :: k in p.value <==> k == TokenId || k == Token || Touched(changed, k))
          && p.value[TokenId] == Str(n.tokenId) && p.value[Token] == Str(n.token.value)
          && forall k :: Touched(changed, k) ==> p.value[k] == View(n, k))
  }

  lemma MeetsOrAvoids(changed: set<Field>)
    ensures changed * WINGS_AFFECTING == {} <==> changed !! WINGS_AFFECTING
  {
    if changed * WINGS_AFFECTING == {} {
      forall f: Field ensures f !in changed || f !in WINGS_AFFECTING {
        assert f !in changed * WINGS_AFFECTING;
      }
    }
  }

  lemma ApiBlockCarries(n: Node, affecting: set<Field>)
    requires Complete(n)
    ensures var b := ApiBlock(n, affecting);
            && (forall k :: k in b <==> k in {ApiPort, ApiUploadLimit, ApiSslEnabled} && Touched(affecting, k))
            && forall k :: k in b ==> b[k] == View(n, k)
  {
  }

  lemma SystemBlockCarries(n: Node, affecting: set<Field>)
    requires Complete(n)
    ensures var b := SystemBlock(n, affecting);
            && (forall k :: k in b <==> k in {SystemData, SystemSftpPort} && Touched(affecting, k))
            && forall k :: k in b ==> b[k] == View(n, k)
  {
  }

  lemma BlocksJoin(credentials: Config, api: Config, system: Config, k: Key)
    requires credentials.Keys == {TokenId, Token}
    requires forall x :: x in api ==> x in {ApiPort, ApiUploadLimit, ApiSslEnabled}
    requires forall x :: x in system ==> x in {SystemData, SystemSftpPort}
    ensures var p := credentials + api + system;
            && (k in p <==> k in credentials || k in api || k in system)
            && (k in credentials ==> p[k] == credentials[k])
            && (k in api ==> p[k] == api[k])
            && (k in system ==> p[k] == system[k])
  {
  }

  /** The certificate and key paths in particular are never in the payload. */
  lemma PayloadCarriesTouchedLeaves(n: Node, changed: set<Field>)
    requires Complete(n) && n.token.Some?
    ensures Carries(BuildPayload(n, changed), n, changed)
  {
    var affecting := changed * WINGS_AFFECTING;
    MeetsOrAvoids(changed);
    forall k ensures Touched(changed, k) <==> Touched(affecting, k) {
    }
    if affecting != {} {
      var credentials: Config := map[TokenId := Str(n.tokenId), Token := Str(n.token.value)];
      ApiBlockCarries(n, affecting);
      SystemBlockCarries(n, affecting);
      assert credentials.Keys == {TokenId, Token};
      forall k: Key {
        BlocksJoin(credentials, ApiBlock(n, affecting), SystemBlock(n, affecting), k);
      }
    }
  }

  /** Wings merges a patch leaf by leaf. */
  function Merge(w: Config, patch: Option<Config>): Config {
    match patch
    case None => w
    case Some(p) => w + p
  }

  function Pushed(w: Config, n: Node, changed: set<Field>): Config
    requires Complete(n) && n.token.Some?
  {
    Merge(w, BuildPayload(n, changed))
  }

  function LeafOf(w: Config, k: Key): Option<Value> {
    if k in w then Some(w[k]) else None
  }

  /** One leaf of Wings after a push, said without the patch. */
  function LeafAfter(w: Config, n: Node, changed: set<Field>, k: Key): Option<Value>
    requires Complete(n) && n.token.Some?
  {
    if changed !! WINGS_AFFECTING then LeafOf(w, k)
    else if k == TokenId then Some(Str(n.tokenId))
    else if k == Token then Some(Str(n.token.value))
    else if Touched(changed, k) then Some(View(n, k))
    else LeafOf(w, k)
  }

  lemma PushedLeaf(w: Config, n: Node, changed: set<Field>, k: Key)
    requires Complete(n) && n.token.Some?
    ensures LeafOf(Pushed(w, n, changed), k) == LeafAfter(w, n, changed, k)
  {
    PayloadCarriesTouchedLeaves(n, changed);
  }

  lemma SameLeaves(v: Config, w: Config)
    requires forall k :: LeafOf(v, k) == LeafOf(w, k)
    ensures v == w
  {
    forall k ensures (k in v <==> k in w) && (k in v ==> v[k] == w[k]) {
      assert LeafOf(v, k) == LeafOf(w, k);
    }
  }

  predicate AgreeOutside(n: Node, m: Node, fields: set<Field>)
    requires Complete(n) && Complete(m)
  {
    forall f: Field :: f in WINGS_AFFECTING && f !in fields ==> n.fields[f] == m.fields[f]
  }

  /** Pushing one set of changes and then another gives Wings what one push of both from the later state gives,
      also when `scheme` and `behind_proxy`, which share a leaf, fall in different pushes. */
  lemma PushesCompose(w: Config, n: Node, m: Node, a: set<Field>, b: set<Field>)
    requires Complete(n) && Complete(m) && n.token.Some?
    requires n.token == m.token && n.tokenId == m.tokenId && AgreeOutside(n, m, b)
    ensures Pushed(Pushed(w, n, a), m, b) == Pushed(w, m, a + b)
  {
    var first := Pushed(w, n, a);
    forall k ensures LeafOf(Pushed(first, m, b), k) == LeafOf(Pushed(w, m, a + b), k) {
      PushedLeaf(w, n, a, k);
      PushedLeaf(first, m, b, k);
      PushedLeaf(w, m, a + b, k);
      LeavesCompose(w, first, n, m, a, b, k);
    }
    SameLeaves(Pushed(first, m, b), Pushed(w, m, a + b));
  }

  lemma LeavesCompose(w: Config, first: Config, n: Node, m: Node, a: set<Field>, b: set<Field>, k: Key)
    requires Complete(n) && Complete(m) && n.token.Some?
    requires n.token == m.token && n.tokenId == m.tokenId && AgreeOutside(n, m, b)
    requires LeafOf(first, k) == LeafAfter(w, n, a, k)
    ensures LeafAfter(first, m, b, k) == LeafAfter(w, m, a + b, k)
  {
    assert a + b !! WINGS_AFFECTING <==> a !! WINGS_AFFECTING && b !! WINGS_AFFECTING;
    assert Touched(a + b, k) <==> Touched(a, k) || Touched(b, k);
    if Touched(a, k) && !Touched(b, k) {
      ViewIsStable(n, m, b, k);
    }
  }

  lemma ViewIsStable(n: Node, m: Node, b: set<Field>, k: Key)
    requires Complete(n) && Complete(m) && AgreeOutside(n, m, b)
    requires Derived(k) && !Touched(b, k)
    ensures View(n, k) == View(m, k)
  {
  }

  // ----- What Wings answers -----

  datatype Body = Empty | Object(applied: Option<bool>) | NotAnObject | Unparseable

  datatype Http = NoConnection | Response(status: int, body: Body)

  /** `Raised` is the service's own error, `Escaped` an exception nothing catches. */
  datatype Reply = Applied | Refused | Raised | Escaped

  function Classify(h: Http): Reply {
    match h
    case NoConnection => Raised
    case Response(status, body) =>
      if status != 200 && status != 204 then Raised
      else if status == 204 || body == Empty then Applied
      else match body
        case Unparseable => Raised
        case NotAnObject => Escaped
        case Object(applied) => if applied == Some(false) then Refused else Applied
  }

  /** One push as it really went: the answer, and whether Wings took the patch. */
  datatype Exchange = Exchange(http: Http, merged: bool)

  /** Wings says that it took the patch: 204, or 200 with no body or with an object that does not say otherwise. */
  predicate Confirms(h: Http) {
    && h.Response?
    && (h.status == 204 || (h.status == 200 && (h.body == Empty || (h.body.Object? && h.body.applied != Some(false)))))
  }

  predicate Denies(h: Http) {
    h == Response(200, Object(Some(false)))
  }

  /** Wings takes a patch whose application it reports; of a lost answer nothing is known. */
  predicate Honest(x: Exchange) {
    && (Confirms(x.http) ==> x.merged)
    && (Denies(x.http) ==> !x.merged)
  }

  /** Wings as it is shipped: 204 or `applied: true` when it took the patch, and otherwise `applied: false`, a failure
      status or no answer. */
  predicate Plain(x: Exchange) {
    if x.merged then
      x.http == Response(200, Object(Some(true))) || (x.http.Response? && x.http.status == 204)
    else
      || x.http == Response(200, Object(Some(false))) || x.http == NoConnection
      || (x.http.Response? && x.http.status >= 300)
  }

  lemma PlainMeans(x: Exchange)
    requires Plain(x)
    ensures Honest(x) && (x.merged <==> Confirms(x.http)) && (Classify(x.http) == Applied <==> x.merged)
  {
  }

  // ----- Runs of edits -----

  datatype Link = Link(node: Node, wings: Config)

  datatype Edit = Edit(values: map<Field, Value>, exchange: Exchange)

  predicate Usable(l: Link) {
    Complete(l.node) && l.node.token.Some?
  }

  function Changed(n: Node, values: map<Field, Value>): set<Field>
    requires Complete(n)
  {
    set f | f in values && n.fields[f] != values[f]
  }

  function Written(n: Node, values: map<Field, Value>): (r: Node)
    ensures Complete(n) ==> Complete(r)
  {
    n.(fields := n.fields + values)
  }

  function Next(l: Link, e: Edit): (r: Link)
    requires Usable(l)
    ensures Usable(r)
  {
    var node := Written(l.node, e.values);
    Link(node, if e.exchange.merged then Pushed(l.wings, node, Changed(l.node, e.values)) else l.wings)
  }

  function After(l: Link, edits: seq<Edit>): (r: Link)
    requires Usable(l)
    ensures Usable(r)
  {
    if edits == [] then l else Next(After(l, edits[..|edits| - 1]), edits[|edits| - 1])
  }

  /** Wings agrees with the panel on a leaf. */
  predicate AgreesOn(l: Link, k: Key)
    requires Usable(l) && Derived(k)
  {
    LeafOf(l.wings, k) == Some(View(l.node, k))
  }

  /** The latest edit that touched a leaf was applied, or none has and the leaf agreed at the start. */
  predicate LatestApplied(l: Link, edits: seq<Edit>, k: Key)
    requires Usable(l) && Derived(k)
  {
    if edits == [] then AgreesOn(l, k)
    else
      var last := edits[|edits| - 1];
      var before := After(l, edits[..|edits| - 1]);
      if Touched(Changed(before.node, last.values), k) then Confirms(last.exchange.http)
      else LatestApplied(l, edits[..|edits| - 1], k)
  }

  lemma StepAgrees(l: Link, e: Edit, k: Key)
    requires Usable(l) && Derived(k) && Honest(e.exchange)
    requires if Touched(Changed(l.node, e.values), k) then Confirms(e.exchange.http) else AgreesOn(l, k)
    ensures AgreesOn(Next(l, e), k)
  {
    var changed, node := Changed(l.node, e.values), Written(l.node, e.values);
    PushedLeaf(l.wings, node, changed, k);
    assert AgreeOutside(l.node, node, changed);
    if !Touched(changed, k) {
      ViewIsStable(l.node, node, changed, k);
    }
  }

  /** Over any run of edits, whatever became of the pushes, Wings agrees with the panel on every leaf whose
      latest affecting change was applied. */
  lemma {:induction false} AppliedLeavesAgree(l: Link, edits: seq<Edit>, k: Key)
    requires Usable(l) && Derived(k)
    requires forall i :: 0 <= i < |edits| ==> Honest(edits[i].exchange)
    requires LatestApplied(l, edits, k)
    ensures AgreesOn(After(l, edits), k)
  {
    if edits == [] {
    } else {
      var last, init := edits[|edits| - 1], edits[..|edits| - 1];
      var before := After(l, init);
      if !Touched(Changed(before.node, last.values), k) {
        AppliedLeavesAgree(l, init, k);
      }
      StepAgrees(before, last, k);
    }
  }

  /** What an edit that Wings took leaves in it, by the edited columns. */
  lemma TakenEditLeaves(l: Link, e: Edit)
    requires Usable(l) && e.exchange.merged
    ensures var changed, fields, after := Changed(l.node, e.values), l.node.fields + e.values, Next(l, e);
            && after.node.fields == fields
            && (DaemonListen in changed ==> LeafOf(after.wings, ApiPort) == Some(e.values[DaemonListen]))
            && (UploadSize in changed ==> LeafOf(after.wings, ApiUploadLimit) == Some(e.values[UploadSize]))
            && (DaemonBase in changed ==> LeafOf(after.wings, SystemData) == Some(e.values[DaemonBase]))
            && (DaemonSftp in changed ==> LeafOf(after.wings, SystemSftpPort) == Some(e.values[DaemonSftp]))
            && (Scheme in changed || BehindProxy in changed ==>
                  LeafOf(after.wings, ApiSslEnabled)
                  == Some(Bool(fields[Scheme] == Str("https") && fields[BehindProxy] != Bool(true))))
  {
    TakenLeaf(l, e, ApiPort);
    TakenLeaf(l, e, ApiUploadLimit);
    TakenLeaf(l, e, SystemData);
    TakenLeaf(l, e, SystemSftpPort);
    TakenLeaf(l, e, ApiSslEnabled);
    LeavesByColumn(Next(l, e), Changed(l.node, e.values));
  }

  lemma LeavesByColumn(l: Link, changed: set<Field>)
    requires Usable(l)
    requires forall k :: Derived(k) && Touched(changed, k) ==> LeafOf(l.wings, k) == Some(View(l.node, k))
    ensures var fields := l.node.fields;
            && (DaemonListen in changed ==> LeafOf(l.wings, ApiPort) == Some(fields[DaemonListen]))
            && (UploadSize in changed ==> LeafOf(l.wings, ApiUploadLimit) == Some(fields[UploadSize]))
            && (DaemonBase in changed ==> LeafOf(l.wings, SystemData) == Some(fields[DaemonBase]))
            && (DaemonSftp in changed ==> LeafOf(l.wings, SystemSftpPort) == Some(fields[DaemonSftp]))
            && (Scheme in changed || BehindProxy in changed ==>
                  LeafOf(l.wings, ApiSslEnabled)
                  == Some(Bool(fields[Scheme] == Str("https") && fields[BehindProxy] != Bool(true))))
  {
    assert Derived(ApiPort) && Derived(ApiUploadLimit) && Derived(SystemData) && Derived(SystemSftpPort)
        && Derived(ApiSslEnabled);
  }

  lemma TakenLeaf(l: Link, e: Edit, k: Key)
    requires Usable(l) && e.exchange.merged && Derived(k)
    ensures Touched(Changed(l.node, e.values), k) ==> LeafOf(Next(l, e).wings, k) == Some(View(Next(l, e).node, k))
  {
    PushedLeaf(l.wings, Written(l.node, e.values), Changed(l.node, e.values), k);
  }

  /** A restart is asked for exactly when some leaf other than the upload limit follows the column. */
  lemma RestartRequiredIff(f: Field)
    ensures f in RESTART_REQUIRED <==> exists k :: k != ApiUploadLimit && Touched({f}, k)
  {
    assert Touched({Scheme}, ApiSslEnabled) && Touched({BehindProxy}, ApiSslEnabled);
    assert Touched({DaemonListen}, ApiPort) && Touched({DaemonBase}, SystemData)
        && Touched({DaemonSftp}, SystemSftpPort);
  }

  lemma StepKeepsLeaf(l: Link, e: Edit, k: Key)
    requires Usable(l) && (k == ApiSslCert || k == ApiSslKey)
    ensures LeafOf(Next(l, e).wings, k) == LeafOf(l.wings, k)
  {
    PushedLeaf(l.wings, Written(l.node, e.values), Changed(l.node, e.values), k);
  }

  /** No edit, in any run, changes the certificate or key path Wings is configured with. */
  lemma {:induction false} CertificatePathsNeverChange(l: Link, edits: seq<Edit>, k: Key)
    requires Usable(l) && (k == ApiSslCert || k == ApiSslKey)
    ensures LeafOf(After(l, edits).wings, k) == LeafOf(l.wings, k)
  {
    if edits == [] {
    } else {
      var init := edits[..|edits| - 1];
      CertificatePathsNeverChange(l, init, k);
      StepKeepsLeaf(After(l, init), edits[|edits| - 1], k);
    }
  }

  // ----- Where a push goes -----

  datatype Request = Request(scheme: Value, fqdn: Value, port: Value, bearer: string, payload: Config)

  function Lowered(v: Value): Value {
    if v.Str? then Str(Text.Lower(v.s)) else v
  }

  /** The patch is of the edited row, the address and the token are those of the row before. */
  function RequestFor(l: Link, e: Edit): Option<Request>
    requires Usable(l)
  {
    match BuildPayload(Written(l.node, e.values), Changed(l.node, e.values))
    case None => None
    case Some(payload) =>
      Some(Request(Lowered(l.node.fields[Scheme]), Lowered(l.node.fields[Fqdn]), l.node.fields[DaemonListen],
                   l.node.token.value, payload))
  }

  /** Wings is configured with the panel's credentials. */
  predicate KnowsToken(l: Link)
    requires Usable(l)
  {
    && LeafOf(l.wings, TokenId) == Some(Str(l.node.tokenId))
    && LeafOf(l.wings, Token) == Some(Str(l.node.token.value))
  }

  lemma StepKeepsToken(l: Link, e: Edit)
    requires Usable(l) && KnowsToken(l)
    ensures KnowsToken(Next(l, e))
  {
    PushedLeaf(l.wings, Written(l.node, e.values), Changed(l.node, e.values), TokenId);
    PushedLeaf(l.wings, Written(l.node, e.values), Changed(l.node, e.values), Token);
  }

  lemma {:induction false} TokenStaysKnown(l: Link, edits: seq<Edit>)
    requires Usable(l) && KnowsToken(l)
    ensures KnowsToken(After(l, edits))
  {
    if edits == [] {
    } else {
      var init := edits[..|edits| - 1];
      TokenStaysKnown(l, init);
      StepKeepsToken(After(l, init), edits[|edits| - 1]);
    }
  }

  /** Over any run, a push is addressed to the port Wings is configured with and bears its token, also when the edit
      moves the port, as long as the latest earlier move of the port was applied. Whether Wings listens there is
      another matter, which `WingsListener` is about. */
  lemma PushIsAddressed(l: Link, edits: seq<Edit>, e: Edit)
    requires Usable(l) && KnowsToken(l)
    requires forall i :: 0 <= i < |edits| ==> Honest(edits[i].exchange)
    requires LatestApplied(l, edits, ApiPort)
    ensures var now := After(l, edits);
            var request := RequestFor(now, e);
            && (request.Some? <==> !(Changed(now.node, e.values) !! WINGS_AFFECTING))
            && (request.Some? ==>
                  && LeafOf(now.wings, ApiPort) == Some(request.value.port)
                  && LeafOf(now.wings, Token) == Some(Str(request.value.bearer))
                  && (forall fqdn :: now.node.fields[Fqdn] == Str(fqdn) ==> request.value.fqdn == Str(Text.Lower(fqdn)))
                  && (forall scheme :: now.node.fields[Scheme] == Str(scheme) ==>
                        request.value.scheme == Str(Text.Lower(scheme)))
                  && Carries(Some(request.value.payload), Next(now, e).node, Changed(now.node, e.values)))
  {
    var now := After(l, edits);
    TokenStaysKnown(l, edits);
    AppliedLeavesAgree(l, edits, ApiPort);
    PayloadCarriesTouchedLeaves(Written(now.node, e.values), Changed(now.node, e.values));
  }

  // ----- The request handler -----

  datatype Report =
    | NothingProvided
    | NothingChanged
    | Undecryptable
    | Saved(changed: set<Field>, reply: Option<Reply>, restart: set<Field>)

  /** What an edit amounts to that changes nothing, or nothing Wings consumes. */
  lemma QuietEdit(n: Node, wings: Config, values: map<Field, Value>, x: Exchange)
    requires Complete(n)
    ensures Changed(n, values) == {} ==> Written(n, values) == n
    ensures n.token.Some? && Changed(n, values) !! WINGS_AFFECTING ==>
              && Next(Link(n, wings), Edit(values, x)) == Link(Written(n, values), wings)
              && RequestFor(Link(n, wings), Edit(values, x)) == None
  {
    if Changed(n, values) == {} {
      forall f: Field | f in values ensures n.fields[f] == values[f] {
        assert f !in Changed(n, values);
      }
      assert n.fields + values == n.fields;
    }
    if n.token.Some? {
      PayloadCarriesTouchedLeaves(Written(n, values), Changed(n, values));
    }
  }

  class NodeAdmin {
    var node: Node
    var wings: Config
    /** What the latest edit sent, if anything. */
    var sent: Option<Request>

    constructor (l: Link)
      ensures node == l.node && wings == l.wings && sent == None
    {
      node, wings, sent := l.node, l.wings, None;
    }

    /** Which provided fields really differ. */
    method CollectChanged(values: map<Field, Value>) returns (changed: set<Field>)
      requires Complete(node)
      ensures changed == Changed(node, values)
    {
      changed := {};
      var todo := values.Keys;
      while todo != {}
        invariant todo <= values.Keys
        invariant changed == set f | f in values && f !in todo && node.fields[f] != values[f]
        decreases |todo|
      {
        var f := PickOne(todo);
        if node.fields[f] != values[f] {
          changed := changed + {f};
        }
        todo := todo - {f};
      }
    }

    /** `setattr` for each changed field. */
    method WriteChanged(values: map<Field, Value>, changed: set<Field>)
      requires Complete(node) && changed == Changed(node, values)
      modifies this`node
      ensures node == Written(old(node), values)
    {
      var fields := node.fields;
      var todo := changed;
      while todo != {}
        invariant node == old(node)
        invariant todo <= changed
        invariant forall f: Field :: f in fields
        invariant forall f: Field :: fields[f] == if f in changed && f !in todo then values[f] else node.fields[f]
        decreases |todo|
      {
        var f := PickOne(todo);
        fields := fields[f := values[f]];
        todo := todo - {f};
      }
      assert fields == node.fields + values;
      node := node.(fields := fields);
    }

    /** Sends the patch of the row as it is now to an address and with a token of before. */
    method PushToWings(changed: set<Field>, scheme: Value, fqdn: Value, port: Value, bearer: string, x: Exchange)
      returns (reply: Reply)
      requires Usable(Link(node, wings)) && !(changed !! WINGS_AFFECTING)
      modifies this`wings, this`sent
      ensures BuildPayload(node, changed).Some?
      ensures sent == Some(Request(scheme, fqdn, port, bearer, BuildPayload(node, changed).value))
      ensures wings == if x.merged then Pushed(old(wings), node, changed) else old(wings)
      ensures reply == Applied <==> Confirms(x.http)
      ensures reply == Refused <==> x.http == Response(200, Object(Some(false)))
      ensures reply == Escaped <==> x.http == Response(200, NotAnObject)
    {
      PayloadCarriesTouchedLeaves(node, changed);
      sent := Some(Request(scheme, fqdn, port, bearer, BuildPayload(node, changed).value));
      reply := Classify(x.http);
      if x.merged {
        wings := Pushed(wings, node, changed);
      }
    }

    /** Saves the changed fields, commits, then pushes from the saved row. The report never promises a restart, nor
        that Wings has applied anything, unless every touched leaf of Wings now agrees with the panel. */
    method PutWingsConfig(values: map<Field, Value>, x: Exchange) returns (r: Report)
      requires Complete(node) && Honest(x)
      modifies this
      ensures r == NothingProvided <==> values == map[]
      ensures r.Saved? <==> Changed(old(node), values) != {}
                            && (old(node).token.Some? || Changed(old(node), values) !! WINGS_AFFECTING)
      ensures !r.Saved? ==> node == old(node) && wings == old(wings)
      ensures r.Saved? ==>
                && node == Written(old(node), values) && r.changed == Changed(old(node), values)
                && (r.reply.None? <==> r.changed !! WINGS_AFFECTING)
                && (r.reply == Some(Applied) <==> r.reply.Some? && Confirms(x.http))
                && (r.reply == Some(Refused) <==> r.reply.Some? && x.http == Response(200, Object(Some(false))))
                && (r.reply == Some(Escaped) <==> r.reply.Some? && x.http == Response(200, NotAnObject))
                && wings == (if r.reply.Some? && x.merged then Pushed(old(wings), node, r.changed) else old(wings))
                && r.restart == (if r.reply == Some(Applied) then r.changed * RESTART_REQUIRED else {})
      ensures r.Saved? && r.reply == Some(Applied) ==>
                forall k :: Touched(r.changed, k) ==> k in wings && wings[k] == View(node, k)
      ensures Usable(Link(old(node), old(wings))) ==>
                && Link(node, wings) == Next(Link(old(node), old(wings)), Edit(values, x))
                && sent == RequestFor(Link(old(node), old(wings)), Edit(values, x))
      ensures old(node).token.None? ==> sent == None
    {
      QuietEdit(node, wings, values, x);
      sent := None;
      if values == map[] {
        return NothingProvided;
      }
      var changed := CollectChanged(values);
      if changed == {} {
        return NothingChanged;
      }
      var needsPush := changed * WINGS_AFFECTING != {};
      MeetsOrAvoids(changed);
      if needsPush && node.token.None? {
        return Undecryptable;
      }
      var scheme, fqdn, port := Lowered(node.fields[Scheme]), Lowered(node.fields[Fqdn]), node.fields[DaemonListen];
      var bearer := node.token;
      WriteChanged(values, changed);
      if !needsPush {
        return Saved(changed, None, {});
      }
      PayloadCarriesTouchedLeaves(node, changed);
      var reply := PushToWings(changed, scheme, fqdn, port, bearer.value, x);
      r := Saved(changed, Some(reply), if reply == Applied then changed * RESTART_REQUIRED else {});
    }
  }
}
