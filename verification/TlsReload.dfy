/** Hot reload of the agent's own certificate: a poller compares fingerprints and reloads the
    context, while others replace the certificate and key files one at a time. */
module TlsReload {
  import opened Common

  /** A certificate is known by its fingerprint and the key it certifies. */
  datatype Cert = Cert(fingerprint: int, key: int)

  /** A missing or unreadable file is None. */
  datatype Files = Files(cert: Option<Cert>, key: Option<int>)

  /** The in-memory context: the pair new handshakes get. */
  datatype Context = Context(cert: Cert, key: int)

  /** `serving` is the recorded summary, `servedFp` the poller's own variable. */
  datatype State = State(
    files: Files, context: Context,
    serving: Option<Cert>, servedFp: Option<int>, failed: bool)

  /** The library refuses an unreadable file and a key that is not the certificate's. */
  predicate Loads(f: Files) {
    f.cert.Some? && f.key.Some? && f.key.value == f.cert.value.key
  }

  predicate Matches(c: Context) {
    c.key == c.cert.key
  }

  /** Fingerprints identify certificates. */
  predicate Identifies(certs: set<Cert>) {
    forall a, b :: a in certs && b in certs && a.fingerprint == b.fingerprint ==> a == b
  }

  function FingerprintOf(c: Option<Cert>): Option<int> {
    if c.Some? then Some(c.value.fingerprint) else None
  }

  /** What the server has loaded at startup is recorded from the file, a little later. */
  function RecordInitial(files: Files, context: Context): State {
    State(files, context, files.cert, FingerprintOf(files.cert), false)
  }

  /** One iteration of the watcher. */
  function Tick(s: State): State {
    var fp := FingerprintOf(s.files.cert);
    if fp == None || fp == s.servedFp then s
    else if !Loads(s.files) then s.(failed := true)
    else s.(context := Context(s.files.cert.value, s.files.key.value),
            serving := s.files.cert, servedFp := fp, failed := false)
  }

  datatype Event = Polled | CertReplaced(cert: Option<Cert>) | KeyReplaced(key: Option<int>)

  function Next(s: State, e: Event): State {
    match e
    case Polled => Tick(s)
    case CertReplaced(c) => s.(files := s.files.(cert := c))
    case KeyReplaced(k) => s.(files := s.files.(key := k))
  }

  function After(s: State, events: seq<Event>): State
    decreases |events|
  {
    if events == [] then s else After(Next(s, events[0]), events[1..])
  }

  /** What is recorded is what is loaded. */
  predicate Recorded(s: State) {
    s.serving == Some(s.context.cert) && s.servedFp == Some(s.context.cert.fingerprint)
  }

  lemma StepKeepsRecord(s: State, e: Event)
    requires Matches(s.context)
    ensures Matches(Next(s, e).context)
    ensures Recorded(s) ==> Recorded(Next(s, e))
  {
  }

  /** Over any run of polls and separate replacements, readable or not and in any order, the served
      pair matches and the recorded certificate is the loaded one. */
  lemma {:induction false} ServedPairAlwaysMatches(s: State, events: seq<Event>)
    requires Matches(s.context) && Recorded(s)
    ensures Matches(After(s, events).context) && Recorded(After(s, events))
    decreases |events|
  {
    if events == [] {
    } else {
      StepKeepsRecord(s, events[0]);
      ServedPairAlwaysMatches(Next(s, events[0]), events[1..]);
    }
  }

  /** Served, recorded and file certificate are one. */
  predicate InSync(s: State) {
    Recorded(s) && s.files.cert == Some(s.context.cert)
  }

  /** Once the files load and stay put, one poll brings everything into agreement, and further polls keep it. */
  lemma OnePollSyncs(s: State, events: seq<Event>)
    requires Matches(s.context) && Recorded(s)
    requires Loads(After(s, events).files)
    requires Identifies({After(s, events).files.cert.value, After(s, events).context.cert})
    ensures InSync(Tick(After(s, events)))
    ensures Tick(Tick(After(s, events))) == Tick(After(s, events))
  {
    ServedPairAlwaysMatches(s, events);
  }

  /** A poll that finds another certificate than the recorded one, with its key, loads and records it. */
  predicate Reloads(s: State) {
    Loads(s.files) && FingerprintOf(s.files.cert) != s.servedFp
  }

  predicate EverReloads(s: State, events: seq<Event>)
    decreases |events|
  {
    && events != []
    && ((events[0].Polled? && Reloads(s)) || EverReloads(Next(s, events[0]), events[1..]))
  }

  /** At startup the record is taken from the file after the server has loaded it. Over every run from there, the
      record tells what is served exactly when the file was still the loaded one, or some poll has reloaded. */
  lemma {:induction false} RecordTruthfulIff(s: State, events: seq<Event>)
    requires Matches(s.context) && s.servedFp == FingerprintOf(s.serving)
    ensures Recorded(After(s, events)) <==> Recorded(s) || EverReloads(s, events)
    decreases |events|
  {
    if events == [] {
    } else if events[0].Polled? && Reloads(s) {
      ServedPairAlwaysMatches(Next(s, events[0]), events[1..]);
    } else {
      RecordTruthfulIff(Next(s, events[0]), events[1..]);
    }
  }

  /** Only certificates with this fingerprint are put in place, if any. */
  predicate SameFingerprint(events: seq<Event>, fp: Option<int>) {
    forall i :: 0 <= i < |events| && events[i].CertReplaced? && events[i].cert.Some? ==>
      FingerprintOf(events[i].cert) == fp
  }

  lemma {:induction false} RecordedFileNeverReloads(s: State, events: seq<Event>)
    requires s.files.cert.Some? ==> FingerprintOf(s.files.cert) == s.servedFp
    requires SameFingerprint(events, s.servedFp)
    ensures !EverReloads(s, events)
    decreases |events|
  {
    if events == [] {
    } else {
      assert forall i :: 0 <= i < |events[1..]| ==> events[1..][i] == events[i + 1];
      RecordedFileNeverReloads(Next(s, events[0]), events[1..]);
    }
  }

  /** So a certificate replaced between the load and the record is reported and never served: no poll repairs it,
      whatever becomes of the key, until a certificate with yet another fingerprint arrives. */
  lemma MissedReplacementStays(files: Files, context: Context, events: seq<Event>)
    requires Matches(context) && files.cert.Some? && files.cert != Some(context.cert)
    requires SameFingerprint(events, FingerprintOf(files.cert))
    ensures var s := After(RecordInitial(files, context), events);
            !Recorded(s) && s.context == context && s.serving == files.cert
  {
    var start := RecordInitial(files, context);
    RecordedFileNeverReloads(start, events);
    RecordTruthfulIff(start, events);
    NothingReloaded(start, events);
  }

  lemma {:induction false} NothingReloaded(s: State, events: seq<Event>)
    requires !EverReloads(s, events)
    ensures After(s, events).context == s.context && After(s, events).serving == s.serving
    decreases |events|
  {
    if events == [] {
    } else {
      NothingReloaded(Next(s, events[0]), events[1..]);
    }
  }

  /** A failed load keeps the old pair, and is retried: as soon as the matching key arrives the next poll serves
      the new pair. */
  lemma MismatchedRotationRecovers(s: State, cert: Cert)
    requires Recorded(s) && s.context.cert.fingerprint != cert.fingerprint && s.files.key != Some(cert.key)
    ensures var torn := After(s, [CertReplaced(Some(cert)), Polled]);
            && torn.context == s.context && torn.failed
            && var done := After(torn, [KeyReplaced(Some(cert.key)), Polled]);
               done.context == Context(cert, cert.key) && InSync(done) && !done.failed
  {
    var a := Next(s, CertReplaced(Some(cert)));
    var torn := Tick(a);
    assert After(s, [CertReplaced(Some(cert)), Polled]) == torn by {
      assert [CertReplaced(Some(cert)), Polled][1..] == [Polled];
      assert After(a, [Polled]) == After(torn, []) by { assert [Polled][1..] == []; }
    }
    var b := Next(torn, KeyReplaced(Some(cert.key)));
    assert After(torn, [KeyReplaced(Some(cert.key)), Polled]) == Tick(b) by {
      assert [KeyReplaced(Some(cert.key)), Polled][1..] == [Polled];
      assert After(b, [Polled]) == After(Tick(b), []) by { assert [Polled][1..] == []; }
    }
  }

  /** What `/v1/cert/status` reports as in sync. */
  predicate StatusInSync(s: State) {
    s.serving.Some? && FingerprintOf(s.serving) == FingerprintOf(s.files.cert)
  }

  /** While the record is truthful, the status is too: it says in sync exactly when clients get the file's
      certificate. */
  lemma StatusIsTruthful(s: State)
    requires Recorded(s)
    requires s.files.cert.Some? ==> Identifies({s.files.cert.value, s.context.cert})
    ensures StatusInSync(s) <==> s.files.cert == Some(s.context.cert)
  {
    if s.files.cert.Some? {
      assert s.files.cert.value in {s.files.cert.value, s.context.cert};
      assert s.context.cert in {s.files.cert.value, s.context.cert};
    }
  }

  /** Where no certificate could be read for the first record, the status never says in sync until a poll loads one,
      not even while there is no file. */
  lemma NothingRecordedIsNotInSync(files: Files, context: Context, events: seq<Event>)
    requires files.cert == None && !EverReloads(RecordInitial(files, context), events)
    ensures !StatusInSync(After(RecordInitial(files, context), events))
  {
    NothingReloaded(RecordInitial(files, context), events);
  }

  class Watcher {
    var context: Context
    var serving: Option<Cert>
    var lastError: bool
    var servedFp: Option<int>

    function View(files: Files): State
      reads this
    {
      State(files, context, serving, servedFp, lastError)
    }

    constructor (files: Files, loaded: Context)
      ensures View(files) == RecordInitial(files, loaded)
    {
      context := loaded;
      serving := files.cert;
      servedFp := FingerprintOf(files.cert);
      lastError := false;
    }

    /** The loop, over the files as each iteration finds them: it is the run in which they are replaced to
        that state before each poll. */
    method Watch(start: Files, seen: seq<Files>)
      modifies this
      ensures View(if seen == [] then start else seen[|seen| - 1]) == After(old(View(start)), Replacements(seen))
    {
      ghost var files := start;
      for i := 0 to |seen|
        invariant files == if i == 0 then start else seen[i - 1]
        invariant View(files) == After(old(View(start)), Replacements(seen[..i]))
      {
        assert seen[..i + 1][..i] == seen[..i];
        AfterAppend(old(View(start)), Replacements(seen[..i]), Replacement(seen[i]));
        ReplacementPolls(View(files), seen[i]);
        Iterate(seen[i]);
        files := seen[i];
      }
      assert seen[..|seen|] == seen;
    }

    method Iterate(files: Files)
      modifies this
      ensures View(files) == Tick(old(View(files)))
    {
      var fp := FingerprintOf(files.cert);
      if fp == None || fp == servedFp {
        return;
      }
      if !Loads(files) {
        lastError := true;
        return;
      }
      context := Context(files.cert.value, files.key.value);
      serving := files.cert;
      lastError := false;
      servedFp := fp;
    }
  }

  function Replacement(f: Files): seq<Event> {
    [CertReplaced(f.cert), KeyReplaced(f.key), Polled]
  }

  function Replacements(seen: seq<Files>): seq<Event> {
    if seen == [] then [] else Replacements(seen[..|seen| - 1]) + Replacement(seen[|seen| - 1])
  }

  lemma {:induction false} AfterAppend(s: State, a: seq<Event>, b: seq<Event>)
    ensures After(s, a + b) == After(After(s, a), b)
    decreases |a|
  {
    if a == [] {
      assert a + b == b;
    } else {
      assert (a + b)[1..] == a[1..] + b;
      AfterAppend(Next(s, a[0]), a[1..], b);
    }
  }

  lemma ReplacementPolls(s: State, f: Files)
    ensures After(s, Replacement(f)) == Tick(s.(files := f))
  {
    var a := s.(files := s.files.(cert := f.cert));
    var b := s.(files := f);
    assert After(b, [Polled]) == Tick(b) by { assert [Polled][1..] == []; }
    assert After(a, [KeyReplaced(f.key), Polled]) == Tick(b) by {
      assert [KeyReplaced(f.key), Polled][1..] == [Polled];
    }
    assert Replacement(f)[1..] == [KeyReplaced(f.key), Polled];
  }
}
