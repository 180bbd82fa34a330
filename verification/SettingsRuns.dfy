/** The settings cache under concurrency: reads and stores in their steps, between which anything may happen. */
module SettingsRuns {
  import opened Common
  import opened Settings

  /** A read that missed the cache: when it was asked, and the row it has found since, if it has. `asOf` counts the
      history up to the query. */
  datatype Reading = Reading(key: string, askedAt: int, found: Option<Row>, asOf: nat)

  /** A store that has forgotten its keys but not committed: the rows it had selected. */
  datatype Draft = Draft(values: map<string, Value>, seen: Table)

  /** `history` is the table as it was after each change of it and each tick, with the time. */
  datatype State = State(table: Table, cache: Cache, now: int, asked: map<int, (string, int)>,
                         reading: map<int, Reading>, writing: map<int, Draft>, history: seq<(int, Table)>)

  datatype Event =
    /** A read finds no live entry, queries the row, and puts what it found into the cache. */
    | Ask(reader: int, key: string)
    | Query(reader: int)
    | Fill(reader: int)
    /** A store selects its rows, forgets its keys, and commits. */
    | Forget(writer: int, values: map<string, Value>)
    | Commit(writer: int)
    /** A write to the table by another process, which this cache does not see. */
    | ForeignWrite(table: Table)
    | Tick(seconds: nat)

  predicate Enabled(s: State, e: Event) {
    match e
    case Ask(reader, key) => reader !in s.asked && reader !in s.reading && !Live(s.cache, key, s.now)
    case Query(reader) => reader in s.asked
    case Fill(reader) => reader in s.reading
    case Forget(writer, _) => writer !in s.writing
    case Commit(writer) => writer in s.writing
    case _ => true
  }

  function Entry(c: Codec, r: Reading): Option<Cached> {
    match r.found
    case None => None
    case Some(row) =>
      match c.read(row)
      case None => None
      case Some(v) => Some(Cached(v, r.askedAt + TTL))
  }

  /** A row inserted where there was none, or the columns that differ from those selected. */
  function Merged(c: Codec, d: Draft, now: Table, k: string): Row
    requires k in d.values
  {
    var row := c.write(k, d.values[k]);
    if k in d.seen && k in now
    then Row(Column(d.seen[k].kind, row.kind, now[k].kind), Column(d.seen[k].text, row.text, now[k].text),
             Column(d.seen[k].encrypted, row.encrypted, now[k].encrypted))
    else row
  }

  /** The commit goes through unless a row was inserted or deleted meanwhile. */
  predicate Commits(d: Draft, now: Table) {
    forall k :: k in d.values ==> (k in d.seen <==> k in now)
  }

  function Flushed(c: Codec, d: Draft, now: Table): Table {
    if Commits(d, now) then now + map k | k in d.values :: Merged(c, d, now, k) else now
  }

  function Log(s: State): State {
    s.(history := s.history + [(s.now, s.table)])
  }

  function Next(c: Codec, s: State, e: Event): State
    requires Enabled(s, e)
  {
    match e
    case Ask(reader, key) => s.(asked := s.asked[reader := (key, s.now)])
    case Query(reader) =>
      var (key, at) := s.asked[reader];
      var found := if key in s.table then Some(s.table[key]) else None;
      s.(asked := s.asked - {reader}, reading := s.reading[reader := Reading(key, at, found, |s.history|)])
    case Fill(reader) =>
      var entry := Entry(c, s.reading[reader]);
      s.(reading := s.reading - {reader},
         cache := if entry.Some? then s.cache[s.reading[reader].key := entry.value] else s.cache)
    case Forget(writer, values) =>
      var seen := map k | k in values && k in s.table :: s.table[k];
      s.(writing := s.writing[writer := Draft(values, seen)], cache := s.cache - values.Keys)
    case Commit(writer) =>
      Log(s.(table := Flushed(c, s.writing[writer], s.table), writing := s.writing - {writer}))
    case ForeignWrite(table) => Log(s.(table := table))
    case Tick(seconds) => Log(s.(now := s.now + seconds))
  }

  predicate Run(c: Codec, s: State, events: seq<Event>, s': State)
    decreases |events|
  {
    if events == [] then s == s'
    else Enabled(s, events[0]) && Run(c, Next(c, s, events[0]), events[1..], s')
  }

  /** What a read asked now would return, from the cache or else from the table. */
  function Reads(c: Codec, s: State, key: string, default: Value): Answer {
    Get(c, s.cache, Some(s.table), s.now, key, default).1
  }

  // ----- A served value was in the table less than one time to live ago -----

  function Start(table: Table, now: int): State {
    State(table, map[], now, map[], map[], map[], [(now, table)])
  }

  /** At time `t` the table held this row under this key. */
  predicate HeldAt(s: State, i: int, t: int, key: string, row: Row) {
    && 0 <= i < |s.history|
    && s.history[i].0 == t && key in s.history[i].1 && s.history[i].1[key] == row
  }

  /** Some time since `from`. */
  ghost predicate HeldSince(s: State, from: int, key: string, row: Row) {
    exists i, t :: from <= t <= s.now && HeldAt(s, i, t, key, row)
  }

  ghost predicate TruthfulEntry(c: Codec, s: State, key: string, e: Cached) {
    exists row :: c.read(row) == Some(e.value) && HeldSince(s, e.expiresAt - TTL, key, row)
  }

  ghost predicate TruthfulReading(s: State, r: Reading) {
    r.found.Some? ==> HeldSince(s, r.askedAt, r.key, r.found.value)
  }

  ghost predicate Truthful(c: Codec, s: State) {
    && s.history != [] && s.history[|s.history| - 1] == (s.now, s.table)
    && (forall k :: k in s.asked ==> s.asked[k].1 <= s.now)
    && (forall k :: k in s.reading ==> TruthfulReading(s, s.reading[k]))
    && forall k :: k in s.cache ==> TruthfulEntry(c, s, k, s.cache[k])
  }

  lemma StillHeld(s: State, s': State, from: int, key: string, row: Row)
    requires HeldSince(s, from, key, row) && s.history <= s'.history && s.now <= s'.now
    ensures HeldSince(s', from, key, row)
  {
    var i, t :| from <= t <= s.now && HeldAt(s, i, t, key, row);
    assert HeldAt(s', i, t, key, row);
  }

  lemma EntryStaysTruthful(c: Codec, s: State, s': State, key: string, e: Cached)
    requires TruthfulEntry(c, s, key, e) && s.history <= s'.history && s.now <= s'.now
    ensures TruthfulEntry(c, s', key, e)
  {
    var row :| c.read(row) == Some(e.value) && HeldSince(s, e.expiresAt - TTL, key, row);
    StillHeld(s, s', e.expiresAt - TTL, key, row);
  }

  /** Events that change neither readings nor more of the cache than forgetting. */
  lemma LogKeepsTruthful(c: Codec, s: State, s': State)
    requires Truthful(c, s) && s'.asked == s.asked && s'.reading == s.reading && s.now <= s'.now
    requires s'.history == s.history + [(s'.now, s'.table)]
             || (s'.history == s.history && s'.now == s.now && s'.table == s.table)
    requires forall k :: k in s'.cache ==> k in s.cache && s'.cache[k] == s.cache[k]
    ensures Truthful(c, s')
  {
    forall k | k in s'.reading ensures TruthfulReading(s', s'.reading[k]) {
      var r := s.reading[k];
      if r.found.Some? {
        StillHeld(s, s', r.askedAt, r.key, r.found.value);
      }
    }
    forall k | k in s'.cache ensures TruthfulEntry(c, s', k, s'.cache[k]) {
      EntryStaysTruthful(c, s, s', k, s.cache[k]);
    }
  }

  lemma AskKeepsTruthful(c: Codec, s: State, reader: int, key: string)
    requires Truthful(c, s) && Enabled(s, Ask(reader, key))
    ensures Truthful(c, Next(c, s, Ask(reader, key)))
  {
    var s' := Next(c, s, Ask(reader, key));
    forall k | k in s'.reading ensures TruthfulReading(s', s'.reading[k]) {
      var r := s.reading[k];
      if r.found.Some? {
        StillHeld(s, s', r.askedAt, r.key, r.found.value);
      }
    }
    forall k | k in s'.cache ensures TruthfulEntry(c, s', k, s'.cache[k]) {
      EntryStaysTruthful(c, s, s', k, s.cache[k]);
    }
  }

  lemma QueryKeepsTruthful(c: Codec, s: State, reader: int)
    requires Truthful(c, s) && Enabled(s, Query(reader))
    ensures Truthful(c, Next(c, s, Query(reader)))
  {
    var s' := Next(c, s, Query(reader));
    forall k | k in s'.reading ensures TruthfulReading(s', s'.reading[k]) {
      var r := s'.reading[k];
      if k == reader {
        if r.found.Some? {
          assert HeldAt(s', |s.history| - 1, s.now, r.key, r.found.value);
        }
      } else if r.found.Some? {
        StillHeld(s, s', r.askedAt, r.key, r.found.value);
      }
    }
    forall k | k in s'.cache ensures TruthfulEntry(c, s', k, s'.cache[k]) {
      EntryStaysTruthful(c, s, s', k, s.cache[k]);
    }
  }

  lemma FillKeepsTruthful(c: Codec, s: State, reader: int)
    requires Truthful(c, s) && Enabled(s, Fill(reader))
    ensures Truthful(c, Next(c, s, Fill(reader)))
  {
    var s', r := Next(c, s, Fill(reader)), s.reading[reader];
    forall k | k in s'.reading ensures TruthfulReading(s', s'.reading[k]) {
      if s.reading[k].found.Some? {
        StillHeld(s, s', s.reading[k].askedAt, s.reading[k].key, s.reading[k].found.value);
      }
    }
    forall k | k in s'.cache ensures TruthfulEntry(c, s', k, s'.cache[k]) {
      if k == r.key && Entry(c, r).Some? {
        StillHeld(s, s', r.askedAt, r.key, r.found.value);
      } else {
        EntryStaysTruthful(c, s, s', k, s.cache[k]);
      }
    }
  }

  lemma StepKeepsTruthful(c: Codec, s: State, e: Event)
    requires Truthful(c, s) && Enabled(s, e)
    ensures Truthful(c, Next(c, s, e))
  {
    match e
    case Ask(reader, key) => AskKeepsTruthful(c, s, reader, key);
    case Query(reader) => QueryKeepsTruthful(c, s, reader);
    case Fill(reader) => FillKeepsTruthful(c, s, reader);
    case _ => LogKeepsTruthful(c, s, Next(c, s, e));
  }

  lemma {:induction false} CacheIsAlwaysTruthful(c: Codec, s: State, events: seq<Event>, s': State)
    requires Truthful(c, s) && Run(c, s, events, s')
    ensures Truthful(c, s')
    decreases |events|
  {
    if events == [] {
    } else {
      StepKeepsTruthful(c, s, events[0]);
      CacheIsAlwaysTruthful(c, Next(c, s, events[0]), events[1..], s');
    }
  }

  /** After any interleaving of the steps of reads and stores, foreign writes and clock ticks, a value served from the
      cache was the stored value at some moment less than one time to live before the read. */
  lemma ServedValueWasStoredRecently(c: Codec, table: Table, start: int, events: seq<Event>, s: State, key: string,
                                     default: Value)
    requires Run(c, Start(table, start), events, s) && Live(s.cache, key, s.now)
    ensures Reads(c, s, key, default).Some?
    ensures exists i, t, row :: s.now - TTL < t <= s.now && HeldAt(s, i, t, key, row)
                                && c.read(row) == Reads(c, s, key, default)
  {
    CacheIsAlwaysTruthful(c, Start(table, start), events, s);
    var e := s.cache[key];
    assert TruthfulEntry(c, s, key, e);
    var row :| c.read(row) == Some(e.value) && HeldSince(s, e.expiresAt - TTL, key, row);
    var i, t :| e.expiresAt - TTL <= t <= s.now && HeldAt(s, i, t, key, row);
    assert HeldAt(s, i, t, key, row) && c.read(row) == Reads(c, s, key, default);
  }

  // ----- Reading what was stored -----

  /** The reading that filled the key's entry last, since the key was last forgotten. */
  function LastFill(c: Codec, s: State, events: seq<Event>, key: string, last: Option<Reading>): Option<Reading>
    decreases |events|
  {
    if events == [] || !Enabled(s, events[0]) then last
    else
      var e := events[0];
      var now :=
        if e.Fill? && s.reading[e.reader].key == key && Entry(c, s.reading[e.reader]).Some?
        then Some(s.reading[e.reader])
        else if e.Forget? && key in e.values then None
        else last;
      LastFill(c, Next(c, s, e), events[1..], key, now)
  }

  /** The cache entry of a key is that of the reading that filled it. */
  predicate FilledBy(c: Codec, s: State, key: string, last: Option<Reading>) {
    if last.None? then key !in s.cache
    else key in s.cache && Entry(c, last.value) == Some(s.cache[key])
  }

  lemma {:induction false} LastFillFills(c: Codec, s: State, events: seq<Event>, s': State, key: string,
                                         last: Option<Reading>)
    requires Run(c, s, events, s') && FilledBy(c, s, key, last)
    ensures FilledBy(c, s', key, LastFill(c, s, events, key, last))
    decreases |events|
  {
    if events == [] {
    } else {
      var e := events[0];
      var now :=
        if e.Fill? && s.reading[e.reader].key == key && Entry(c, s.reading[e.reader]).Some?
        then Some(s.reading[e.reader])
        else if e.Forget? && key in e.values then None
        else last;
      LastFillFills(c, Next(c, s, e), events[1..], s', key, now);
    }
  }

  /** From here on the table holds a row under the key; a reading of the key queried since has found it. */
  predicate Holds(s: State, key: string, row: Row, since: nat) {
    && key in s.table && s.table[key] == row && since <= |s.history|
    && (forall k :: k in s.reading && s.reading[k].key == key && s.reading[k].asOf >= since ==>
          s.reading[k].found == Some(row))
    && forall w :: w in s.writing ==> key !in s.writing[w].values
  }

  /** No later event writes the key: stores leave it out, and foreign writes leave its row alone. */
  predicate SparesKey(e: Event, key: string, row: Row) {
    match e
    case Forget(_, values) => key !in values
    case ForeignWrite(table) => key in table && table[key] == row
    case _ => true
  }

  lemma {:induction false} SparedKeyIsHeld(c: Codec, s: State, events: seq<Event>, s': State, key: string, row: Row,
                                           since: nat, last: Option<Reading>)
    requires Run(c, s, events, s') && Holds(s, key, row, since)
    requires forall i :: 0 <= i < |events| ==> SparesKey(events[i], key, row)
    requires last.Some? && last.value.asOf >= since ==> last.value.found == Some(row)
    ensures Holds(s', key, row, since)
    ensures var f := LastFill(c, s, events, key, last);
            f.Some? && f.value.asOf >= since ==> f.value.found == Some(row)
    decreases |events|
  {
    if events == [] {
    } else {
      var e := events[0];
      assert SparesKey(e, key, row);
      StepHolds(c, s, e, key, row, since);
      var now :=
        if e.Fill? && s.reading[e.reader].key == key && Entry(c, s.reading[e.reader]).Some?
        then Some(s.reading[e.reader])
        else if e.Forget? && key in e.values then None
        else last;
      SparedKeyIsHeld(c, Next(c, s, e), events[1..], s', key, row, since, now);
    }
  }

  lemma StepHolds(c: Codec, s: State, e: Event, key: string, row: Row, since: nat)
    requires Enabled(s, e) && Holds(s, key, row, since) && SparesKey(e, key, row)
    ensures Holds(Next(c, s, e), key, row, since)
  {
  }

  /** Who carries a row that was queried before the store's commit. */
  predicate Stale(f: Option<Reading>, commit: nat) {
    f.Some? && f.value.asOf < commit
  }

  /** The state right before the commit of a store: it has forgotten the key, nobody else has a store of the key
      under way, and nobody has written the row since it was selected. */
  predicate Ready(c: Codec, s: State, writer: int, key: string, last: Option<Reading>) {
    && writer in s.writing && key in s.writing[writer].values
    && Commits(s.writing[writer], s.table)
    && (key in s.table ==> s.table[key] == s.writing[writer].seen[key])
    && (forall w :: w in s.writing && w != writer ==> key !in s.writing[w].values)
    && (forall k :: k in s.reading ==> s.reading[k].asOf <= |s.history|)
    && FilledBy(c, s, key, last) && (last.Some? ==> last.value.asOf <= |s.history|)
  }

  function ValueOf(c: Codec, r: Reading): Option<Value> {
    match r.found
    case None => None
    case Some(row) => c.read(row)
  }

  lemma CommitHolds(c: Codec, s: State, writer: int, key: string, last: Option<Reading>)
    requires Ready(c, s, writer, key, last)
    ensures Holds(Next(c, s, Commit(writer)), key, c.write(key, s.writing[writer].values[key]), |s.history| + 1)
  {
    var d := s.writing[writer];
    assert Merged(c, d, s.table, key) == c.write(key, d.values[key]);
  }

  lemma ReadAfterCommitIff(c: Codec, s: State, writer: int, key: string, last: Option<Reading>, v: Value,
                           events: seq<Event>, s': State, default: Value)
    requires Ready(c, s, writer, key, last) && c.read(c.write(key, s.writing[writer].values[key])) == Some(v)
    requires Run(c, s, [Commit(writer)] + events, s')
    requires forall i :: 0 <= i < |events| ==>
               SparesKey(events[i], key, c.write(key, s.writing[writer].values[key]))
    ensures var f := LastFill(c, s, [Commit(writer)] + events, key, last);
            Reads(c, s', key, default) == Some(v)
            <==> !(Live(s'.cache, key, s'.now) && Stale(f, |s.history| + 1) && ValueOf(c, f.value) != Some(v))
  {
    var row := c.write(key, s.writing[writer].values[key]);
    var all := [Commit(writer)] + events;
    var committed := Next(c, s, Commit(writer));
    assert all[1..] == events;
    CommitHolds(c, s, writer, key, last);
    LastFillFills(c, s, all, s', key, last);
    SparedKeyIsHeld(c, committed, events, s', key, row, |s.history| + 1, last);
  }

  // ----- From the store's first step -----

  /** Nobody writes the key: no other store of it begins, foreign writes leave its row alone, and the store itself
      has not committed. */
  predicate LeavesKey(e: Event, table: Table, writer: int, key: string) {
    match e
    case Forget(_, values) => key !in values
    case Commit(w) => w != writer
    case ForeignWrite(now) => (key in now <==> key in table) && (key in table ==> now[key] == table[key])
    case _ => true
  }

  predicate Dated(s: State) {
    forall k :: k in s.reading ==> s.reading[k].asOf <= |s.history|
  }

  /** What stays true of a store under way. */
  predicate UnderWay(s: State, writer: int, d: Draft, key: string) {
    && writer in s.writing && s.writing[writer] == d && key in d.values
    && (key in s.table <==> key in d.seen) && (key in s.table ==> s.table[key] == d.seen[key])
    && (forall w :: w in s.writing && w != writer ==> key !in s.writing[w].values)
    && Dated(s)
  }

  lemma StepStaysUnderWay(c: Codec, s: State, e: Event, table: Table, writer: int, d: Draft, key: string)
    requires UnderWay(s, writer, d, key) && Enabled(s, e) && LeavesKey(e, table, writer, key)
    requires (key in table <==> key in s.table) && (key in s.table ==> table[key] == s.table[key])
    ensures UnderWay(Next(c, s, e), writer, d, key)
  {
  }

  lemma {:induction false} StaysUnderWay(c: Codec, s: State, events: seq<Event>, s': State, table: Table, writer: int,
                                         d: Draft, key: string, last: Option<Reading>)
    requires Run(c, s, events, s') && UnderWay(s, writer, d, key)
    requires (key in table <==> key in s.table) && (key in s.table ==> table[key] == s.table[key])
    requires forall i :: 0 <= i < |events| ==> LeavesKey(events[i], table, writer, key)
    requires last.Some? ==> last.value.asOf <= |s.history|
    ensures UnderWay(s', writer, d, key)
    ensures var f := LastFill(c, s, events, key, last);
            f.Some? ==> f.value.asOf <= |s'.history|
    decreases |events|
  {
    if events == [] {
    } else {
      var e := events[0];
      assert LeavesKey(e, table, writer, key);
      StepStaysUnderWay(c, s, e, table, writer, d, key);
      var now :=
        if e.Fill? && s.reading[e.reader].key == key && Entry(c, s.reading[e.reader]).Some?
        then Some(s.reading[e.reader])
        else if e.Forget? && key in e.values then None
        else last;
      StaysUnderWay(c, Next(c, s, e), events[1..], s', table, writer, d, key, now);
    }
  }

  /** The reading whose fill the cache shows at the end of a store and what follows it, if it shows any. */
  function Shown(c: Codec, s: State, writer: int, values: map<string, Value>, between: seq<Event>, s1: State,
                 events: seq<Event>, key: string): Option<Reading>
    requires Enabled(s, Forget(writer, values))
  {
    var first := LastFill(c, Next(c, s, Forget(writer, values)), between, key, None);
    LastFill(c, s1, [Commit(writer)] + events, key, first)
  }

  lemma ForgottenThenReady(c: Codec, s: State, writer: int, values: map<string, Value>, between: seq<Event>,
                           s1: State, key: string)
    requires Dated(s) && Enabled(s, Forget(writer, values)) && key in values
    requires forall w :: w in s.writing ==> key !in s.writing[w].values
    requires Run(c, Next(c, s, Forget(writer, values)), between, s1)
    requires forall i :: 0 <= i < |between| ==> LeavesKey(between[i], s.table, writer, key)
    requires writer in s1.writing ==> Commits(s1.writing[writer], s1.table)
    ensures writer in s1.writing && s1.writing[writer].values == values
    ensures Ready(c, s1, writer, key, LastFill(c, Next(c, s, Forget(writer, values)), between, key, None))
  {
    var sent := Next(c, s, Forget(writer, values));
    StaysUnderWay(c, sent, between, s1, s.table, writer, sent.writing[writer], key, None);
    LastFillFills(c, sent, between, s1, key, None);
  }

  /** A store forgets its keys, anything but a write of this key happens, it commits, and anything but a write of the
      key happens again. A read of the key then returns what was stored, except exactly while the live entry was
      filled, after the store had forgotten the key, with another value that was queried before the commit. */
  lemma StoredValueIsReadIff(c: Codec, s: State, writer: int, values: map<string, Value>, between: seq<Event>,
                             s1: State, events: seq<Event>, s': State, key: string, v: Value, default: Value)
    requires Dated(s) && Enabled(s, Forget(writer, values)) && key in values
    requires forall w :: w in s.writing ==> key !in s.writing[w].values
    requires Run(c, Next(c, s, Forget(writer, values)), between, s1)
    requires forall i :: 0 <= i < |between| ==> LeavesKey(between[i], s.table, writer, key)
    requires writer in s1.writing ==> Commits(s1.writing[writer], s1.table)
    requires Run(c, s1, [Commit(writer)] + events, s')
    requires forall i :: 0 <= i < |events| ==> SparesKey(events[i], key, c.write(key, values[key]))
    requires c.read(c.write(key, values[key])) == Some(v)
    ensures var f := Shown(c, s, writer, values, between, s1, events, key);
            Reads(c, s', key, default) == Some(v)
            <==> !(Live(s'.cache, key, s'.now) && Stale(f, |s1.history| + 1) && ValueOf(c, f.value) != Some(v))
  {
    ForgottenThenReady(c, s, writer, values, between, s1, key);
    var first := LastFill(c, Next(c, s, Forget(writer, values)), between, key, None);
    ReadAfterCommitIff(c, s1, writer, key, first, v, events, s', default);
  }

  /** In particular for the service's codec: unless a fill carries a row from before the commit, every value stored is
      the value read, as far as the codec keeps it. */
  lemma StoredValueIsRead(h: Host, s: State, writer: int, values: map<string, Value>, between: seq<Event>,
                          s1: State, events: seq<Event>, s': State, key: string, default: Value)
    requires var c := ServiceCodec(h);
             && Lawful(h) && Dated(s) && Enabled(s, Forget(writer, values)) && key in values
             && Run(c, Next(c, s, Forget(writer, values)), between, s1)
             && Run(c, s1, [Commit(writer)] + events, s')
             && !Stale(Shown(c, s, writer, values, between, s1, events, key), |s1.history| + 1)
    requires forall w :: w in s.writing ==> key !in s.writing[w].values
    requires forall i :: 0 <= i < |between| ==> LeavesKey(between[i], s.table, writer, key)
    requires writer in s1.writing ==> Commits(s1.writing[writer], s1.table)
    requires forall i :: 0 <= i < |events| ==> SparesKey(events[i], key, Serialize(h, key, values[key]))
    ensures Reads(ServiceCodec(h), s', key, default) == Some(Returned(values[key]))
  {
    CodecInvertsIff(h, key, values[key]);
    StoredValueIsReadIff(ServiceCodec(h), s, writer, values, between, s1, events, s', key, Returned(values[key]),
                         default);
  }

  /** A read queries the row, a store forgets and commits, and the read then fills the cache: for a whole time to live
      the old value is read. */
  lemma StaleReadAfterStore(c: Codec, key: string, row: Row, stored: Value, default: Value)
    requires c.read(row).Some?
    ensures var race := [Ask(0, key), Query(0), Forget(1, map[key := stored]), Commit(1), Fill(0), Tick(TTL - 1)];
            exists s :: Run(c, Start(map[key := row], 0), race, s) && Reads(c, s, key, default) == c.read(row)
  {
    var s0 := Start(map[key := row], 0);
    var s1 := Next(c, s0, Ask(0, key));
    var s2 := Next(c, s1, Query(0));
    var s3 := Next(c, s2, Forget(1, map[key := stored]));
    var s4 := Next(c, s3, Commit(1));
    var s5 := Next(c, s4, Fill(0));
    var s6 := Next(c, s5, Tick(TTL - 1));
    RunStep(c, s5, Tick(TTL - 1), [], s6);
    RunStep(c, s4, Fill(0), [Tick(TTL - 1)] + [], s6);
    RunStep(c, s3, Commit(1), [Fill(0)] + ([Tick(TTL - 1)] + []), s6);
    RunStep(c, s2, Forget(1, map[key := stored]), [Commit(1)] + ([Fill(0)] + ([Tick(TTL - 1)] + [])), s6);
    RunStep(c, s1, Query(0),
            [Forget(1, map[key := stored])] + ([Commit(1)] + ([Fill(0)] + ([Tick(TTL - 1)] + []))), s6);
    RunStep(c, s0, Ask(0, key),
            [Query(0)] + ([Forget(1, map[key := stored])] + ([Commit(1)] + ([Fill(0)] + ([Tick(TTL - 1)] + [])))), s6);
    assert [Ask(0, key)] + ([Query(0)] + ([Forget(1, map[key := stored])]
             + ([Commit(1)] + ([Fill(0)] + ([Tick(TTL - 1)] + [])))))
        == [Ask(0, key), Query(0), Forget(1, map[key := stored]), Commit(1), Fill(0), Tick(TTL - 1)];
    assert Reads(c, s6, key, default) == c.read(row);
  }

  lemma RunStep(c: Codec, s: State, e: Event, events: seq<Event>, s': State)
    requires Enabled(s, e) && Run(c, Next(c, s, e), events, s')
    ensures Run(c, s, [e] + events, s')
  {
    assert ([e] + events)[1..] == events;
  }

  /** A store writes only columns that differ from those it selected: one that stores what it had selected, while
      somebody else writes the row, is lost. */
  lemma UnchangedStoreIsLost(c: Codec, d: Draft, now: Table, key: string)
    requires key in d.values && key in d.seen && key in now && Commits(d, now)
    requires c.write(key, d.values[key]) == d.seen[key]
    ensures Flushed(c, d, now)[key] == now[key]
  {
  }

  // ----- Sensitive settings -----

  /** No sensitive setting is in the table in plain. */
  predicate KeptSecret(h: Host, table: Table) {
    forall k :: k in table && h.isSensitive(k) ==> table[k].text == None && table[k].encrypted.Some?
  }

  lemma CommitKeepsSecrets(h: Host, d: Draft, now: Table)
    requires KeptSecret(h, now)
    ensures KeptSecret(h, Flushed(ServiceCodec(h), d, now))
  {
    var c, t := ServiceCodec(h), Flushed(ServiceCodec(h), d, now);
    forall k | k in t && h.isSensitive(k) ensures t[k].text == None && t[k].encrypted.Some? {
      if Commits(d, now) && k in d.values {
        assert t[k] == Merged(c, d, now, k);
      }
    }
  }

  /** Over every run, whatever stores overlap, no sensitive setting is ever in the table in plain, unless others write
      it so. */
  lemma {:induction false} SecretsStayEncrypted(h: Host, s: State, events: seq<Event>, s': State)
    requires KeptSecret(h, s.table) && Run(ServiceCodec(h), s, events, s')
    requires forall i :: 0 <= i < |events| && events[i].ForeignWrite? ==> KeptSecret(h, events[i].table)
    ensures KeptSecret(h, s'.table)
    decreases |events|
  {
    if events == [] {
    } else {
      var e := events[0];
      if e.Commit? {
        CommitKeepsSecrets(h, s.writing[e.writer], s.table);
      }
      SecretsStayEncrypted(h, Next(ServiceCodec(h), s, e), events[1..], s');
    }
  }
}
