/** Daemon credentials: kept encrypted in the panel, in plain in Wings, and decrypted in a
    cache of node information. Rotation persists a new token only once Wings has reported
    that it took it. */
module Credentials {
  import opened Common
  import Base64
  import Laravel
  import WingsConfig

  /** How a row keeps its token: sealed under a vector, opened again or not at all. */
  datatype Envelope = Envelope(seal: (string, Base64.Bytes) -> Base64.Bytes, open: Base64.Bytes -> Option<string>)

  /** Generated tokens are 64 letters and digits. */
  predicate IsToken(t: string) {
    && |t| == 64
    && forall i :: 0 <= i < 64 ==> 'A' <= t[i] <= 'Z' || 'a' <= t[i] <= 'z' || '0' <= t[i] <= '9'
  }

  /** What rotation needs of the envelope. */
  ghost predicate Opens(v: Envelope) {
    forall t, iv {:trigger v.seal(t, iv)} :: IsToken(t) && |iv| == Base64.BLOCK ==> v.open(v.seal(t, iv)) == Some(t)
  }

  /** The service's envelope. */
  function LaravelEnvelope(h: Laravel.Host): Envelope {
    Envelope((t, iv) => Laravel.Encrypt(h, t, iv), data => Laravel.Decrypt(h, data))
  }

  lemma LaravelEnvelopeOpens(h: Laravel.Host)
    requires Laravel.Lawful(h)
    ensures Opens(LaravelEnvelope(h))
  {
    forall t, iv | IsToken(t) && |iv| == Base64.BLOCK
      ensures Laravel.Decrypt(h, Laravel.Encrypt(h, t, iv)) == Some(t)
    {
      assert t != "" && '\n' !in t;
      Laravel.RoundTripIff(h, t, iv);
    }
  }

  /** The panel, which shares the column, reads every generated token too. */
  lemma TokensReachThePanel(h: Laravel.Host, t: string, iv: Base64.Bytes)
    requires Laravel.Lawful(h) && IsToken(t) && |iv| == Base64.BLOCK
    ensures Laravel.PanelDecrypt(h, LaravelEnvelope(h).seal(t, iv)) == Some(t)
  {
    assert |h.utf8(t)| == |t|;
    Laravel.PanelReadsBackIff(h, t, iv);
  }

  datatype NodeRow = NodeRow(fqdn: string, scheme: string, port: int, uploadSize: int,
                             tokenId: string, daemonToken: Base64.Bytes)

  datatype NodeInfo = NodeInfo(fqdn: string, scheme: string, port: int, token: string, uploadSize: int)

  datatype Cached = Cached(info: NodeInfo, expiresAt: int)

  datatype Credential = Credential(tokenId: string, token: string)

  /** `wings` is what each daemon is configured with; `now` the monotonic clock. */
  datatype State = State(
    nodes: map<int, NodeRow>, wings: map<int, Credential>, cache: map<int, Cached>, now: int)

  const CACHE_TTL := 60

  function InfoOf(v: Envelope, row: NodeRow): Option<NodeInfo> {
    match v.open(row.daemonToken)
    case None => None
    case Some(token) => Some(NodeInfo(row.fqdn, row.scheme, row.port, token, row.uploadSize))
  }

  predicate Fresh(s: State, id: int) {
    id in s.cache && s.cache[id].expiresAt > s.now
  }

  /** The cached entry while it lasts, otherwise the row, which is then cached. None where it raises. */
  function Lookup(v: Envelope, s: State, id: int): (State, Option<NodeInfo>) {
    if Fresh(s, id) then (s, Some(s.cache[id].info))
    else if id !in s.nodes then (s, None)
    else match InfoOf(v, s.nodes[id])
      case None => (s, None)
      case Some(info) => (s.(cache := s.cache[id := Cached(info, s.now + CACHE_TTL)]), Some(info))
  }

  /** Fresh random credentials, the initialisation vector, and how the push goes. */
  datatype Rotation = Rotation(issued: Credential, iv: Base64.Bytes, exchange: WingsConfig.Exchange)

  datatype Request = Request(scheme: string, fqdn: string, port: int, bearer: string, payload: Credential)

  /** The rotation up to the request, which authenticates with the old token and carries the new one. */
  function RotationRequest(v: Envelope, s: State, id: int, r: Rotation): (State, Option<Request>) {
    if id !in s.nodes then (s, None)
    else
      match v.open(s.nodes[id].daemonToken)
      case None => (s, None)
      case Some(current) =>
        var (s', info) := Lookup(v, s, id);
        match info
        case None => (s', None)
        case Some(i) => (s', Some(Request(i.scheme, i.fqdn, i.port, current, r.issued)))
  }

  function Swapped(s: State, id: int, r: Rotation): State {
    if r.exchange.merged then s.(wings := s.wings[id := r.issued]) else s
  }

  /** Whether the call returns rather than raises. */
  predicate Succeeds(v: Envelope, s: State, id: int, r: Rotation) {
    id in s.nodes && v.open(s.nodes[id].daemonToken).Some? && WingsConfig.Confirms(r.exchange.http)
  }

  function Persisted(s: State, id: int, tokenId: string, ciphertext: Base64.Bytes): State
    requires id in s.nodes
  {
    s.(nodes := s.nodes[id := s.nodes[id].(tokenId := tokenId, daemonToken := ciphertext)], cache := map[])
  }

  function Rotate(v: Envelope, s: State, id: int, r: Rotation): State {
    var (sent, request) := RotationRequest(v, s, id, r);
    if request.None? then sent
    else if WingsConfig.Classify(r.exchange.http) != WingsConfig.Applied then Swapped(sent, id, r)
    else
      assert id in sent.nodes;
      Persisted(Swapped(sent, id, r), id, r.issued.tokenId, v.seal(r.issued.token, r.iv))
  }

  datatype Event =
    | LookUp(id: int)
    | Rotated(id: int, rotation: Rotation)
    /** A configuration edit of columns the cache copies; its push re-sends the current credentials. */
    | Edited(id: int, fqdn: string, scheme: string, port: int, uploadSize: int, merged: bool)
    | Tick(seconds: nat)

  function Next(v: Envelope, s: State, e: Event): State {
    match e
    case LookUp(id) => Lookup(v, s, id).0
    case Rotated(id, r) => Rotate(v, s, id, r)
    case Edited(id, fqdn, scheme, port, uploadSize, merged) =>
      if id !in s.nodes then s
      else
        var row := s.nodes[id].(fqdn := fqdn, scheme := scheme, port := port, uploadSize := uploadSize);
        (match v.open(row.daemonToken)
         case None => s
         case Some(token) =>
           s.(nodes := s.nodes[id := row], cache := map[],
              wings := if merged then s.wings[id := Credential(row.tokenId, token)] else s.wings))
    case Tick(seconds) => s.(now := s.now + seconds)
  }

  function After(v: Envelope, s: State, events: seq<Event>): State
    decreases |events|
  {
    if events == [] then s else After(v, Next(v, s, events[0]), events[1..])
  }

  /** Panel and Wings hold the same credentials for a node. */
  predicate Agree(v: Envelope, s: State, id: int)
    requires id in s.nodes
  {
    && id in s.wings
    && s.wings[id].tokenId == s.nodes[id].tokenId
    && v.open(s.nodes[id].daemonToken) == Some(s.wings[id].token)
  }

  predicate AllAgree(v: Envelope, s: State) {
    forall id :: id in s.nodes ==> Agree(v, s, id)
  }

  /** The address and the size are those of the row, and the token is the one its ciphertext opens to. */
  predicate Reflects(v: Envelope, info: NodeInfo, row: NodeRow) {
    && info.fqdn == row.fqdn && info.scheme == row.scheme && info.port == row.port
    && info.uploadSize == row.uploadSize
    && v.open(row.daemonToken) == Some(info.token)
  }

  /** Every cache entry, expired or not, says what its row says now. */
  predicate Coherent(v: Envelope, s: State) {
    forall id :: id in s.cache ==> id in s.nodes && Reflects(v, s.cache[id].info, s.nodes[id])
  }

  /** The random parts have their shapes. */
  predicate Generated(r: Rotation) {
    |r.iv| == Base64.BLOCK && IsToken(r.issued.token)
  }

  /** Wings swaps its token exactly when it reports so. */
  predicate Faithful(r: Rotation) {
    r.exchange.merged <==> WingsConfig.Confirms(r.exchange.http)
  }

  lemma LookupKeepsTables(v: Envelope, s: State, id: int)
    requires Coherent(v, s)
    ensures var (s', info) := Lookup(v, s, id);
            && s'.nodes == s.nodes && s'.wings == s.wings && Coherent(v, s')
            && (info.Some? ==> id in s.nodes && Reflects(v, info.value, s.nodes[id]))
  {
  }

  /** Where panel and Wings agree, every lookup of an existing node, cached or not, gives the token Wings has. */
  lemma LookupGivesWingsToken(v: Envelope, s: State, id: int)
    requires Coherent(v, s) && AllAgree(v, s)
    ensures var info := Lookup(v, s, id).1;
            && (info.Some? <==> id in s.nodes)
            && (info.Some? ==> id in s.wings && info.value.token == s.wings[id].token
                               && Reflects(v, info.value, s.nodes[id]))
  {
    if id in s.nodes {
      assert Agree(v, s, id);
    }
  }

  /** A rotation that raises leaves every panel row as it was; one that returns stores a ciphertext of
      the new token and leaves nothing cached. */
  lemma RotationPersistsOnlyOnSuccess(v: Envelope, s: State, id: int, r: Rotation)
    requires Opens(v) && Generated(r) && Coherent(v, s)
    ensures var s' := Rotate(v, s, id, r);
            if !Succeeds(v, s, id, r) then s'.nodes == s.nodes && Coherent(v, s')
            else
              && s'.nodes.Keys == s.nodes.Keys && s'.cache == map[]
              && (forall x :: x in s.nodes && x != id ==> s'.nodes[x] == s.nodes[x])
              && s'.nodes[id].tokenId == r.issued.tokenId
              && v.open(s'.nodes[id].daemonToken) == Some(r.issued.token)
  {
    LookupKeepsTables(v, s, id);
  }

  /** The request goes to the address in the row, and authenticates with the token Wings is configured with. */
  lemma RotationAuthenticates(v: Envelope, s: State, id: int, r: Rotation)
    requires Coherent(v, s) && id in s.nodes && Agree(v, s, id)
    ensures RotationRequest(v, s, id, r).1
         == Some(Request(s.nodes[id].scheme, s.nodes[id].fqdn, s.nodes[id].port, s.wings[id].token, r.issued))
  {
    LookupKeepsTables(v, s, id);
  }

  /** From agreement, one rotation leads to agreement exactly when Wings swapped as it reported, or the
      new credentials are the old ones. */
  lemma RotationAgreesIff(v: Envelope, s: State, id: int, r: Rotation)
    requires Opens(v) && Generated(r) && Coherent(v, s)
    requires id in s.nodes && Agree(v, s, id)
    ensures var s' := Rotate(v, s, id, r);
            id in s'.nodes && (Agree(v, s', id) <==> Faithful(r) || r.issued == s.wings[id])
  {
    LookupKeepsTables(v, s, id);
    RotationAuthenticates(v, s, id, r);
  }

  /** A faithful rotation keeps every node's credentials in agreement, whatever the cache holds. */
  lemma RotationKeepsAgreement(v: Envelope, s: State, id: int, r: Rotation)
    requires Opens(v) && AllAgree(v, s) && Generated(r) && Faithful(r)
    ensures AllAgree(v, Rotate(v, s, id, r))
  {
    var s' := Rotate(v, s, id, r);
    forall x | x in s'.nodes ensures Agree(v, s', x) {
      assert Agree(v, s, x);
      assert x != id ==> s'.nodes[x] == s.nodes[x];
    }
  }

  lemma EditKeepsAgreement(v: Envelope, s: State, e: Event)
    requires AllAgree(v, s) && e.Edited?
    ensures AllAgree(v, Next(v, s, e))
  {
    var s' := Next(v, s, e);
    forall x | x in s'.nodes ensures Agree(v, s', x) {
      assert Agree(v, s, x);
      assert s'.nodes[x].daemonToken == s.nodes[x].daemonToken && s'.nodes[x].tokenId == s.nodes[x].tokenId;
    }
  }

  /** A configuration edit that Wings takes brings a node's credentials into agreement, whatever they were: every push
      carries them. One it does not take leaves Wings' alone. */
  lemma TakenEditHeals(v: Envelope, s: State, e: Event)
    requires e.Edited? && e.id in s.nodes && v.open(s.nodes[e.id].daemonToken).Some?
    ensures e.merged ==> e.id in Next(v, s, e).nodes && Agree(v, Next(v, s, e), e.id)
    ensures !e.merged ==> Next(v, s, e).wings == s.wings
    ensures forall id :: id in s.wings && id != e.id ==>
              id in Next(v, s, e).wings && Next(v, s, e).wings[id] == s.wings[id]
  {
  }

  lemma StepKeepsAgreement(v: Envelope, s: State, e: Event)
    requires Opens(v) && AllAgree(v, s)
    requires e.Rotated? ==> Generated(e.rotation) && Faithful(e.rotation)
    ensures AllAgree(v, Next(v, s, e))
  {
    match e
    case Rotated(id, r) => RotationKeepsAgreement(v, s, id, r);
    case Edited(_, _, _, _, _, _) => EditKeepsAgreement(v, s, e);
    case _ => assert forall x :: x in s.nodes ==> Agree(v, s, x);
  }

  /** Lookups, rotations and edits that are not interleaved leave no stale entry. */
  lemma StepKeepsCoherent(v: Envelope, s: State, e: Event)
    requires Opens(v) && Coherent(v, s) && (e.Rotated? ==> Generated(e.rotation))
    ensures Coherent(v, Next(v, s, e))
  {
    match e
    case Rotated(id, r) => RotationPersistsOnlyOnSuccess(v, s, id, r);
    case LookUp(id) => LookupKeepsTables(v, s, id);
    case _ =>
  }

  // ----- The service object -----

  class WingsService {
    var nodes: map<int, NodeRow>
    var wings: map<int, Credential>
    var cache: map<int, Cached>
    var now: int

    function Current(): State
      reads this
    {
      State(nodes, wings, cache, now)
    }

    constructor (s: State)
      ensures Current() == s
    {
      nodes, wings, cache, now := s.nodes, s.wings, s.cache, s.now;
    }

    method ClearCache()
      modifies this`cache
      ensures cache == map[]
    {
      cache := map[];
    }

    method GetNodeInfo(v: Envelope, id: int) returns (info: Option<NodeInfo>)
      modifies this`cache
      ensures (Current(), info) == Lookup(v, old(Current()), id)
      ensures if id in old(cache) && old(cache)[id].expiresAt > now then
                info == Some(old(cache)[id].info) && cache == old(cache)
              else
                && (info.Some? <==> id in nodes && v.open(nodes[id].daemonToken).Some?)
                && (info.None? ==> cache == old(cache))
                && (info.Some? ==>
                      && Reflects(v, info.value, nodes[id])
                      && cache == old(cache)[id := Cached(info.value, now + 60)])
    {
      if id in cache && cache[id].expiresAt > now {
        return Some(cache[id].info);
      }
      if id !in nodes {
        return None;
      }
      info := InfoOf(v, nodes[id]);
      if info.Some? {
        cache := cache[id := Cached(info.value, now + CACHE_TTL)];
      }
    }

    /** The row, its commit, and then the cache. */
    method Persist(id: int, tokenId: string, ciphertext: Base64.Bytes)
      requires id in nodes
      modifies this
      ensures Current() == Persisted(old(Current()), id, tokenId, ciphertext)
    {
      var row := nodes[id].(tokenId := tokenId);
      row := row.(daemonToken := ciphertext);
      nodes := nodes[id := row];
      ClearCache();
    }

    method ResetDaemonToken(v: Envelope, id: int, r: Rotation) returns (ok: bool)
      requires id in nodes
      modifies this
      ensures Current() == Rotate(v, old(Current()), id, r)
      ensures ok <==> v.open(old(nodes)[id].daemonToken).Some? && WingsConfig.Confirms(r.exchange.http)
    {
      var before := v.open(nodes[id].daemonToken);
      if before.None? {
        return false;
      }
      var info := GetNodeInfo(v, id);
      if info.None? {
        return false;
      }
      if r.exchange.merged {
        wings := wings[id := r.issued];
      }
      if WingsConfig.Classify(r.exchange.http) != WingsConfig.Applied {
        return false;
      }
      Persist(id, r.issued.tokenId, v.seal(r.issued.token, r.iv));
      ok := true;
    }
  }
}
