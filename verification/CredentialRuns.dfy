/** Credentials over whole runs, with lookups in their two steps: the row is read, and later cached. */
module CredentialRuns {
  import opened Common
  import C = Credentials
  import Laravel
  import WingsConfig

  /** A lookup that has read its row and not yet filled the cache. */
  datatype Found = Found(id: int, info: C.NodeInfo, askedAt: int)

  datatype State = State(core: C.State, finding: map<int, Found>)

  datatype Event =
    | Step(e: C.Event)
    | Find(reader: int, id: int)
    | Fill(reader: int)

  predicate Enabled(v: C.Envelope, s: State, e: Event) {
    match e
    case Step(_) => true
    case Find(reader, id) =>
      reader !in s.finding && !C.Fresh(s.core, id) && id in s.core.nodes && C.InfoOf(v, s.core.nodes[id]).Some?
    case Fill(reader) => reader in s.finding
  }

  function Next(v: C.Envelope, s: State, e: Event): State
    requires Enabled(v, s, e)
  {
    match e
    case Step(inner) => s.(core := C.Next(v, s.core, inner))
    case Find(reader, id) =>
      s.(finding := s.finding[reader := Found(id, C.InfoOf(v, s.core.nodes[id]).value, s.core.now)])
    case Fill(reader) =>
      var f := s.finding[reader];
      State(s.core.(cache := s.core.cache[f.id := C.Cached(f.info, f.askedAt + C.CACHE_TTL)]), s.finding - {reader})
  }

  predicate Run(v: C.Envelope, s: State, events: seq<Event>, s': State)
    decreases |events|
  {
    if events == [] then s == s'
    else Enabled(v, s, events[0]) && Run(v, Next(v, s, events[0]), events[1..], s')
  }

  predicate Sensible(e: Event) {
    e.Step? && e.e.Rotated? ==> C.Generated(e.e.rotation)
  }

  lemma {:induction false} AgreementAlwaysHolds(v: C.Envelope, s: State, events: seq<Event>, s': State)
    requires C.Opens(v) && C.AllAgree(v, s.core) && Run(v, s, events, s')
    requires forall i :: 0 <= i < |events| ==>
               Sensible(events[i]) && (events[i].Step? && events[i].e.Rotated? ==> C.Faithful(events[i].e.rotation))
    ensures C.AllAgree(v, s'.core)
    decreases |events|
  {
    if events == [] {
    } else {
      var e := events[0];
      assert Sensible(e);
      if e.Step? {
        C.StepKeepsAgreement(v, s.core, e.e);
      } else {
        assert forall x :: x in s.core.nodes ==> C.Agree(v, s.core, x);
      }
      AgreementAlwaysHolds(v, Next(v, s, e), events[1..], s');
    }
  }

  /** Over every run of the steps of lookups, rotations, edits and clock ticks, panel and Wings credentials agree for
      every node, whatever the cache holds, as long as Wings swaps its token exactly when it reports so. */
  lemma CredentialsAlwaysAgree(h: Laravel.Host, s: State, events: seq<Event>, s': State)
    requires Laravel.Lawful(h)
    requires var v := C.LaravelEnvelope(h); C.AllAgree(v, s.core) && Run(v, s, events, s')
    requires forall i :: 0 <= i < |events| ==>
               Sensible(events[i]) && (events[i].Step? && events[i].e.Rotated? ==> C.Faithful(events[i].e.rotation))
    ensures C.AllAgree(C.LaravelEnvelope(h), s'.core)
  {
    C.LaravelEnvelopeOpens(h);
    AgreementAlwaysHolds(C.LaravelEnvelope(h), s, events, s');
  }

  /** A node whose credentials have come apart, by a lost answer say, is in agreement again after the next edit Wings
      takes, and stays so over every later run in which it swaps as it reports. */
  lemma {:induction false} HealedStaysInAgreement(v: C.Envelope, s: State, events: seq<Event>, s': State, id: int)
    requires C.Opens(v) && id in s.core.nodes && Run(v, s, events, s')
    requires C.Agree(v, s.core, id)
    requires forall i :: 0 <= i < |events| ==>
               Sensible(events[i]) && (events[i].Step? && events[i].e.Rotated? ==> C.Faithful(events[i].e.rotation))
    ensures id in s'.core.nodes && C.Agree(v, s'.core, id)
    decreases |events|
  {
    if events == [] {
    } else {
      assert Sensible(events[0]);
      HealedStaysInAgreement(v, Next(v, s, events[0]), events[1..], s', id);
    }
  }

  /** In particular when Wings answers as it is shipped. */
  lemma CredentialsAgreeWithPlainWings(h: Laravel.Host, s: State, events: seq<Event>, s': State)
    requires Laravel.Lawful(h)
    requires var v := C.LaravelEnvelope(h); C.AllAgree(v, s.core) && Run(v, s, events, s')
    requires forall i :: 0 <= i < |events| ==>
               Sensible(events[i])
               && (events[i].Step? && events[i].e.Rotated? ==> WingsConfig.Plain(events[i].e.rotation.exchange))
    ensures C.AllAgree(C.LaravelEnvelope(h), s'.core)
  {
    forall i | 0 <= i < |events| && events[i].Step? && events[i].e.Rotated?
      ensures C.Faithful(events[i].e.rotation)
    {
      WingsConfig.PlainMeans(events[i].e.rotation.exchange);
    }
    CredentialsAlwaysAgree(h, s, events, s');
  }

  // ----- The tokens lookups give -----

  /** Every cached token, and every token just found, is the one Wings has. */
  predicate HasWingsToken(s: C.State, id: int, info: C.NodeInfo) {
    id in s.nodes && id in s.wings && info.token == s.wings[id].token
  }

  predicate CacheHasWingsTokens(s: C.State) {
    forall id :: id in s.cache ==> HasWingsToken(s, id, s.cache[id].info)
  }

  /** So it is in every state of the run. */
  predicate ServesWingsTokens(v: C.Envelope, s: State, events: seq<Event>)
    decreases |events|
  {
    && CacheHasWingsTokens(s.core)
    && (events != [] && Enabled(v, s, events[0]) ==> ServesWingsTokens(v, Next(v, s, events[0]), events[1..]))
  }

  /** Whatever a lookup puts in the cache is at that moment the token Wings has. */
  predicate FillsHaveWingsTokens(v: C.Envelope, s: State, events: seq<Event>)
    decreases |events|
  {
    events != [] && Enabled(v, s, events[0]) ==>
      && (events[0].Fill? ==>
            var f := s.finding[events[0].reader];
            HasWingsToken(s.core, f.id, f.info))
      && FillsHaveWingsTokens(v, Next(v, s, events[0]), events[1..])
  }

  lemma LookupServes(v: C.Envelope, s: C.State, id: int)
    requires C.AllAgree(v, s) && CacheHasWingsTokens(s)
    ensures CacheHasWingsTokens(C.Lookup(v, s, id).0)
    ensures var info := C.Lookup(v, s, id).1;
            (info.Some? <==> id in s.nodes || C.Fresh(s, id)) && (info.Some? ==> HasWingsToken(s, id, info.value))
  {
    if id in s.nodes {
      assert C.Agree(v, s, id);
    }
  }

  lemma StepServes(v: C.Envelope, s: C.State, e: C.Event)
    requires C.Opens(v) && C.AllAgree(v, s) && CacheHasWingsTokens(s)
    requires e.Rotated? ==> C.Generated(e.rotation) && C.Faithful(e.rotation)
    ensures CacheHasWingsTokens(C.Next(v, s, e))
  {
    match e
    case LookUp(id) => LookupServes(v, s, id);
    case Rotated(id, r) => LookupServes(v, s, id);
    case _ =>
  }

  lemma StepServesIff(v: C.Envelope, s: State, e: Event)
    requires C.Opens(v) && C.AllAgree(v, s.core) && CacheHasWingsTokens(s.core) && Enabled(v, s, e)
    requires e.Step? && e.e.Rotated? ==> C.Generated(e.e.rotation) && C.Faithful(e.e.rotation)
    ensures CacheHasWingsTokens(Next(v, s, e).core)
       <==> (e.Fill? ==> HasWingsToken(s.core, s.finding[e.reader].id, s.finding[e.reader].info))
    ensures C.AllAgree(v, Next(v, s, e).core)
  {
    match e
    case Step(inner) =>
      StepServes(v, s.core, inner);
      C.StepKeepsAgreement(v, s.core, inner);
    case Find(_, _) =>
    case Fill(reader) =>
      var s', f := Next(v, s, e).core, s.finding[reader];
      assert forall x :: x in s.core.nodes ==> C.Agree(v, s.core, x);
      assert f.id in s'.cache && s'.cache[f.id].info == f.info;
  }

  /** Over every run in which Wings swaps as it reports, every token in the cache is the one Wings has, in every state,
      exactly when no lookup fills the cache with a token that a rotation has replaced since. */
  lemma {:induction false} ServesWingsTokensIff(v: C.Envelope, s: State, events: seq<Event>, s': State)
    requires C.Opens(v) && C.AllAgree(v, s.core) && CacheHasWingsTokens(s.core) && Run(v, s, events, s')
    requires forall i :: 0 <= i < |events| ==>
               Sensible(events[i]) && (events[i].Step? && events[i].e.Rotated? ==> C.Faithful(events[i].e.rotation))
    ensures ServesWingsTokens(v, s, events) <==> FillsHaveWingsTokens(v, s, events)
    decreases |events|
  {
    if events == [] {
    } else {
      var e, next := events[0], Next(v, s, events[0]);
      assert Sensible(e);
      StepServesIff(v, s, e);
      if CacheHasWingsTokens(next.core) {
        ServesWingsTokensIff(v, next, events[1..], s');
      }
    }
  }

  /** What a lookup found is still what the row says. */
  predicate Current(v: C.Envelope, s: C.State, f: Found) {
    f.id in s.nodes && C.Reflects(v, f.info, s.nodes[f.id])
  }

  /** No entry is stale in any state of the run. */
  predicate CoherentThroughout(v: C.Envelope, s: State, events: seq<Event>)
    decreases |events|
  {
    && C.Coherent(v, s.core)
    && (events != [] && Enabled(v, s, events[0]) ==> CoherentThroughout(v, Next(v, s, events[0]), events[1..]))
  }

  /** Every lookup fills the cache with what its row says at that moment. */
  predicate FillsCurrent(v: C.Envelope, s: State, events: seq<Event>)
    decreases |events|
  {
    events != [] && Enabled(v, s, events[0]) ==>
      && (events[0].Fill? ==> Current(v, s.core, s.finding[events[0].reader]))
      && FillsCurrent(v, Next(v, s, events[0]), events[1..])
  }

  lemma StepCoherentIff(v: C.Envelope, s: State, e: Event)
    requires C.Opens(v) && C.Coherent(v, s.core) && Enabled(v, s, e) && Sensible(e)
    ensures C.Coherent(v, Next(v, s, e).core) <==> (e.Fill? ==> Current(v, s.core, s.finding[e.reader]))
  {
    match e
    case Step(inner) => C.StepKeepsCoherent(v, s.core, inner);
    case Find(_, _) =>
    case Fill(reader) =>
      var s' := Next(v, s, e).core;
      assert s'.cache[s.finding[reader].id].info == s.finding[reader].info;
  }

  /** Over every run, no cache entry is ever stale exactly when no lookup fills the cache with what it read before a
      rotation or an edit. */
  lemma {:induction false} CoherentThroughoutIff(v: C.Envelope, s: State, events: seq<Event>, s': State)
    requires C.Opens(v) && C.Coherent(v, s.core) && Run(v, s, events, s')
    requires forall i :: 0 <= i < |events| ==> Sensible(events[i])
    ensures CoherentThroughout(v, s, events) <==> FillsCurrent(v, s, events)
    decreases |events|
  {
    if events == [] {
    } else {
      var e, next := events[0], Next(v, s, events[0]);
      StepCoherentIff(v, s, e);
      if C.Coherent(v, next.core) {
        CoherentThroughoutIff(v, next, events[1..], s');
      }
    }
  }

  /** And then every token in the cache is the one Wings has, in every state. */
  lemma {:induction false} CurrentFillsServe(v: C.Envelope, s: State, events: seq<Event>, s': State)
    requires C.Opens(v) && C.AllAgree(v, s.core) && CacheHasWingsTokens(s.core) && Run(v, s, events, s')
    requires forall i :: 0 <= i < |events| ==>
               Sensible(events[i]) && (events[i].Step? && events[i].e.Rotated? ==> C.Faithful(events[i].e.rotation))
    requires FillsCurrent(v, s, events)
    ensures ServesWingsTokens(v, s, events)
    decreases |events|
  {
    if events == [] {
    } else {
      var e := events[0];
      assert Sensible(e);
      if e.Fill? {
        var f := s.finding[e.reader];
        assert C.Agree(v, s.core, f.id);
      }
      StepServesIff(v, s, e);
      CurrentFillsServe(v, Next(v, s, e), events[1..], s');
    }
  }

  /** A lookup reads the row, a rotation succeeds and clears the cache, and the lookup then fills it with the token
      that Wings no longer takes. */
  lemma LateFillIsStale(v: C.Envelope, s: State, id: int, r: C.Rotation)
    requires C.Opens(v) && C.Generated(r) && C.Coherent(v, s.core) && 0 !in s.finding
    requires Enabled(v, s, Find(0, id)) && C.Succeeds(v, s.core, id, r)
    requires C.InfoOf(v, s.core.nodes[id]).value.token != r.issued.token
    ensures exists s' :: Run(v, s, [Find(0, id), Step(C.Rotated(id, r)), Fill(0)], s')
                         && C.Fresh(s'.core, id) && id in s'.core.nodes
                         && Some(s'.core.cache[id].info.token) != v.open(s'.core.nodes[id].daemonToken)
  {
    var s1 := Next(v, s, Find(0, id));
    var s2 := Next(v, s1, Step(C.Rotated(id, r)));
    var s3 := Next(v, s2, Fill(0));
    C.RotationPersistsOnlyOnSuccess(v, s.core, id, r);
    RunStep(v, s2, Fill(0), [], s3);
    RunStep(v, s1, Step(C.Rotated(id, r)), [Fill(0)] + [], s3);
    RunStep(v, s, Find(0, id), [Step(C.Rotated(id, r))] + ([Fill(0)] + []), s3);
    assert [Find(0, id)] + ([Step(C.Rotated(id, r))] + ([Fill(0)] + []))
        == [Find(0, id), Step(C.Rotated(id, r)), Fill(0)];
    assert s2.core.now == s.core.now;
    assert C.Fresh(s3.core, id);
  }

  lemma RunStep(v: C.Envelope, s: State, e: Event, events: seq<Event>, s': State)
    requires Enabled(v, s, e) && Run(v, Next(v, s, e), events, s')
    ensures Run(v, s, [e] + events, s')
  {
    assert ([e] + events)[1..] == events;
  }
}
