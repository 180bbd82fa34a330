/** The settings store: a typed text codec, and a cache with a time to live over a table that
    others write. */
module Settings {
  import opened Common
  import Text

  // ----- Integers as text -----

  function Digits(n: nat): string {
    if n < 10 then [('0' as int + n) as char] else Digits(n / 10) + [('0' as int + n % 10) as char]
  }

  /** `str(n)`. */
  function ShowInt(n: int): string {
    if n < 0 then "-" + Digits(-n) else Digits(n)
  }

  function ReadDigits(s: string): Option<int> {
    if s == "" then None
    else
      var c := s[|s| - 1];
      if !('0' <= c <= '9') then None
      else
        var d := c as int - '0' as int;
        if |s| == 1 then Some(d)
        else match ReadDigits(s[..|s| - 1])
          case None => None
          case Some(n) => Some(10 * n + d)
  }

  /** `int(s)` on canonical decimals. */
  function ReadInt(s: string): Option<int> {
    if s != "" && s[0] == '-' then
      match ReadDigits(s[1..])
      case None => None
      case Some(n) => Some(-n)
    else
      match ReadDigits(s)
      case None => None
      case Some(n) => Some(n)
  }

  lemma {:induction false} DigitsReadBack(n: nat)
    ensures ReadDigits(Digits(n)) == Some(n)
    ensures Digits(n) != "" && Digits(n)[0] != '-'
  {
    if n < 10 {
    } else {
      DigitsReadBack(n / 10);
      var s := Digits(n);
      assert s[..|s| - 1] == Digits(n / 10);
    }
  }

  lemma NegativeReads(digits: string, n: int)
    requires ReadDigits(digits) == Some(n)
    ensures ReadInt("-" + digits) == Some(-n)
  {
    assert ("-" + digits)[1..] == digits;
  }

  lemma IntReadsBack(n: int)
    ensures ReadInt(ShowInt(n)) == Some(n)
  {
    if n < 0 {
      DigitsReadBack(-n);
      NegativeReads(Digits(-n), -n);
    } else {
      DigitsReadBack(n);
    }
  }

  // ----- The codec -----

  /** A JSON document is known by its canonical text; `Other` is any further object with its `str()`. */
  datatype Value = Bool(b: bool) | Int(n: int) | Text(s: string) | Json(doc: int) | Other(shown: string) | Nothing

  datatype Kind = BoolKind | IntKind | JsonKind | StringKind

  datatype Row = Row(kind: Kind, text: Option<string>, encrypted: Option<string>)

  /** JSON, Fernet under the configured secret, and the registry of sensitive keys. */
  datatype Host = Host(
    dumps: int -> string,
    loads: string -> Option<int>,
    encrypt: string -> string,
    decrypt: string -> Option<string>,
    isSensitive: string -> bool)

  /** The assumed laws; a ciphertext is never the empty string. */
  ghost predicate Lawful(h: Host) {
    && (forall d: int {:trigger h.dumps(d)} :: h.loads(h.dumps(d)) == Some(d))
    && (forall s: string {:trigger h.encrypt(s)} :: h.decrypt(h.encrypt(s)) == Some(s) && h.encrypt(s) != "")
  }

  function Serialized(h: Host, v: Value): (Kind, string) {
    match v
    case Bool(b) => (BoolKind, if b then "true" else "false")
    case Int(n) => (IntKind, ShowInt(n))
    case Json(d) => (JsonKind, h.dumps(d))
    case Text(s) => (StringKind, s)
    case Other(shown) => (StringKind, shown)
    case Nothing => (StringKind, "None")
  }

  function Serialize(h: Host, key: string, v: Value): Row {
    var (kind, text) := Serialized(h, v);
    if h.isSensitive(key) then Row(kind, None, Some(h.encrypt(text))) else Row(kind, Some(text), None)
  }

  predicate SaysTrue(s: string) {
    && |s| == 4
    && Text.LowerChar(s[0]) == 't' && Text.LowerChar(s[1]) == 'r'
    && Text.LowerChar(s[2]) == 'u' && Text.LowerChar(s[3]) == 'e'
  }

  /** None where decoding raises. */
  function Deserialize(h: Host, row: Row): Option<Value> {
    var raw := if row.encrypted.Some? && row.encrypted.value != "" then h.decrypt(row.encrypted.value)
               else if row.text.Some? then row.text else Some("");
    if !(row.encrypted.Some? && row.encrypted.value != "") && row.text.None? then Some(Nothing)
    else match raw
      case None => None
      case Some(s) =>
        match row.kind
        case BoolKind => Some(Bool(SaysTrue(s)))
        case IntKind => (match ReadInt(s) case None => None case Some(n) => Some(Int(n)))
        case JsonKind => (match h.loads(s) case None => None case Some(d) => Some(Json(d)))
        case StringKind => Some(Text(s))
  }

  /** What is stored reads back as itself, encrypted or not, for exactly the booleans, integers, strings and JSON
      documents; None, floats and other objects come back as the string that shows them. */
  lemma CodecInvertsIff(h: Host, key: string, v: Value)
    requires Lawful(h)
    ensures Deserialize(h, Serialize(h, key, v)) == Some(v) <==> !v.Other? && !v.Nothing?
    ensures v.Other? ==> Deserialize(h, Serialize(h, key, v)) == Some(Text(v.shown))
    ensures v.Nothing? ==> Deserialize(h, Serialize(h, key, v)) == Some(Text("None"))
  {
    var (kind, s) := Serialized(h, v);
    if v.Int? {
      IntReadsBack(v.n);
    }
    assert h.decrypt(h.encrypt(s)) == Some(s);
  }

  /** What rows written by others read as, whatever their kind says: an encrypted text comes before a plain one, no text
      at all is None, and a boolean is true for any spelling of `true`. */
  lemma ForeignRowsRead(h: Host, kind: Kind, s: string)
    requires Lawful(h)
    ensures Deserialize(h, Row(kind, None, None)) == Some(Nothing)
    ensures Deserialize(h, Row(kind, None, Some(""))) == Some(Nothing)
    ensures Deserialize(h, Row(BoolKind, Some(s), None)) == Some(Bool(Text.Lower(s) == ['t', 'r', 'u', 'e']))
    ensures forall text ::
              Deserialize(h, Row(kind, text, Some(h.encrypt(s)))) == Deserialize(h, Row(kind, Some(s), None))
    ensures Deserialize(h, Row(IntKind, Some(s), None)).None? <==> ReadInt(s).None?
  {
    assert h.decrypt(h.encrypt(s)) == Some(s);
    var r := Text.Lower(s);
    if SaysTrue(s) {
      assert r == ['t', 'r', 'u', 'e'];
    }
  }

  // ----- The cache -----

  datatype Cached = Cached(value: Value, expiresAt: int)

  /** The cache works over any codec; the service's is the one above. */
  datatype Codec = Codec(write: (string, Value) -> Row, read: Row -> Option<Value>)

  function ServiceCodec(h: Host): Codec {
    Codec((key, v) => Serialize(h, key, v), row => Deserialize(h, row))
  }

  type Table = map<string, Row>
  type Cache = map<string, Cached>

  const TTL := 5

  /** A read returns a value, or raises when the stored row cannot be decoded. */
  type Answer = Option<Value>

  predicate Live(cache: Cache, key: string, now: int) {
    key in cache && cache[key].expiresAt > now
  }

  /** `table` is None when the query fails, which falls back to the default. */
  function Get(c: Codec, cache: Cache, table: Option<Table>, now: int, key: string, default: Value): (Cache, Answer) {
    if Live(cache, key, now) then (cache, Some(cache[key].value))
    else if table.None? || key !in table.value then (cache, Some(default))
    else
      match c.read(table.value[key])
      case None => (cache, None)
      case Some(v) => (cache[key := Cached(v, now + TTL)], Some(v))
  }

  /** One `get` after another; the first that raises ends it. */
  function GetEach(c: Codec, cache: Cache, table: Option<Table>, now: int, keys: seq<string>,
                   defaults: map<string, Value>, found: map<string, Value>)
    : (Cache, Option<map<string, Value>>)
    requires forall k :: k in keys ==> k in defaults
    decreases |keys|
  {
    if keys == [] then (cache, Some(found))
    else
      var (cache', answer) := Get(c, cache, table, now, keys[0], defaults[keys[0]]);
      match answer
      case None => (cache', None)
      case Some(v) => GetEach(c, cache', table, now, keys[1..], defaults, found[keys[0] := v])
  }

  function Rows(c: Codec, values: map<string, Value>): Table {
    map k | k in values :: c.write(k, values[k])
  }

  /** What a stored value comes back as. */
  function Returned(v: Value): Value {
    match v
    case Other(shown) => Text(shown)
    case Nothing => Text("None")
    case _ => v
  }

  // ----- The store -----

  function Missing(cache: Cache, now: int, k: string): seq<string> {
    if Live(cache, k, now) then [] else [k]
  }

  /** The keys a bulk read has to fetch, in order. */
  function MissingKeys(cache: Cache, now: int, keys: seq<string>): seq<string> {
    if keys == [] then [] else Missing(cache, now, keys[0]) + MissingKeys(cache, now, keys[1..])
  }

  lemma {:induction false} MissingKeysAre(cache: Cache, now: int, keys: seq<string>)
    requires Distinct(keys)
    ensures var r := MissingKeys(cache, now, keys);
            Distinct(r) && forall k :: k in r <==> k in keys && !Live(cache, k, now)
  {
    if keys == [] {
    } else {
      MissingKeysAre(cache, now, keys[1..]);
      assert forall k :: k in keys <==> k == keys[0] || k in keys[1..];
    }
  }

  lemma {:induction false} MissingKeysAppend(cache: Cache, now: int, keys: seq<string>, k: string)
    ensures MissingKeys(cache, now, keys + [k]) == MissingKeys(cache, now, keys) + Missing(cache, now, k)
  {
    if keys == [] {
      assert keys + [k] == [k];
      assert MissingKeys(cache, now, [k][1..]) == [];
    } else {
      MissingKeysAppend(cache, now, keys[1..], k);
      assert (keys + [k])[1..] == keys[1..] + [k];
      var first, rest := Missing(cache, now, keys[0]), MissingKeys(cache, now, keys[1..]);
      assert first + (rest + Missing(cache, now, k)) == (first + rest) + Missing(cache, now, k);
    }
  }

  /** The live part of a bulk read. */
  function LiveValues(cache: Cache, now: int, keys: seq<string>): map<string, Value> {
    map k | k in keys && Live(cache, k, now) :: cache[k].value
  }

  /** One round of the pass over the cache. */
  lemma SplitStep(cache: Cache, now: int, keys: seq<string>, i: nat)
    requires i < |keys| && Distinct(keys)
    ensures var live, grown := LiveValues(cache, now, keys[..i]), LiveValues(cache, now, keys[..i + 1]);
            && (Live(cache, keys[i], now) ==> grown == live[keys[i] := cache[keys[i]].value])
            && (!Live(cache, keys[i], now) ==> grown == live)
    ensures var missing, grown := MissingKeys(cache, now, keys[..i]), MissingKeys(cache, now, keys[..i + 1]);
            && (Live(cache, keys[i], now) ==> grown == missing)
            && (!Live(cache, keys[i], now) ==> grown == missing + [keys[i]])
  {
    assert keys[..i + 1] == keys[..i] + [keys[i]];
    assert forall k :: k in keys[..i + 1] <==> k in keys[..i] || k == keys[i];
    MissingKeysAppend(cache, now, keys[..i], keys[i]);
  }

  lemma LiveValuesCons(cache: Cache, now: int, keys: seq<string>)
    requires keys != [] && Distinct(keys)
    ensures keys[0] !in keys[1..]
    ensures LiveValues(cache, now, keys)
         == if Live(cache, keys[0], now) then LiveValues(cache, now, keys[1..])[keys[0] := cache[keys[0]].value]
            else LiveValues(cache, now, keys[1..])
  {
    assert forall x :: x in keys <==> x == keys[0] || x in keys[1..];
  }

  lemma PutCommutes(found: map<string, Value>, live: map<string, Value>, k: string, v: Value)
    requires k !in live
    ensures found[k := v] + live == (found + live)[k := v]
    ensures found[k := v] + live == found + live[k := v]
  {
  }

  /** Reading keys one by one is taking the live ones from the cache and then the missing ones one by one. */
  lemma {:induction false} LiveFirst(c: Codec, cache: Cache, table: Option<Table>, now: int, keys: seq<string>,
                                     defaults: map<string, Value>, found: map<string, Value>)
    requires Distinct(keys) && forall k :: k in keys ==> k in defaults
    requires forall k :: k in MissingKeys(cache, now, keys) ==> k in defaults
    ensures GetEach(c, cache, table, now, keys, defaults, found)
         == GetEach(c, cache, table, now, MissingKeys(cache, now, keys), defaults, found + LiveValues(cache, now, keys))
    decreases |keys|
  {
    if keys == [] {
      assert found + LiveValues(cache, now, keys) == found;
    } else {
      var k, rest := keys[0], keys[1..];
      var missing := MissingKeys(cache, now, rest);
      MissingKeysAre(cache, now, rest);
      LiveValuesCons(cache, now, keys);
      if Live(cache, k, now) {
        PutCommutes(found, LiveValues(cache, now, rest), k, cache[k].value);
        LiveFirst(c, cache, table, now, rest, defaults, found[k := cache[k].value]);
        assert MissingKeys(cache, now, keys) == missing;
      } else {
        var (cache', answer) := Get(c, cache, table, now, k, defaults[k]);
        assert MissingKeys(cache, now, keys) == [k] + missing;
        if answer.Some? {
          SameLiveKeys(cache, cache', now, k, rest);
          LiveFirst(c, cache', table, now, rest, defaults, found[k := answer.value]);
        }
        OneMissing(c, cache, table, now, k, missing, defaults, found, LiveValues(cache, now, rest));
      }
    }
  }

  /** The missing keys from the first on. */
  lemma OneMissing(c: Codec, cache: Cache, table: Option<Table>, now: int, k: string, missing: seq<string>,
                   defaults: map<string, Value>, found: map<string, Value>, live: map<string, Value>)
    requires k !in live && k in defaults && forall x :: x in missing ==> x in defaults
    ensures var (cache', answer) := Get(c, cache, table, now, k, defaults[k]);
            && (answer.None? ==> GetEach(c, cache, table, now, [k] + missing, defaults, found + live) == (cache', None))
            && (answer.Some? ==>
                  GetEach(c, cache, table, now, [k] + missing, defaults, found + live)
                  == GetEach(c, cache', table, now, missing, defaults, found[k := answer.value] + live))
  {
    assert ([k] + missing)[0] == k && ([k] + missing)[1..] == missing;
    var (cache', answer) := Get(c, cache, table, now, k, defaults[k]);
    if answer.Some? {
      PutCommutes(found, live, k, answer.value);
    }
  }

  lemma {:induction false} SameLiveKeys(cache: Cache, cache': Cache, now: int, k: string, rest: seq<string>)
    requires k !in rest
    requires forall x :: x != k ==> (x in cache <==> x in cache') && (x in cache ==> cache[x] == cache'[x])
    ensures MissingKeys(cache, now, rest) == MissingKeys(cache', now, rest)
    ensures LiveValues(cache, now, rest) == LiveValues(cache', now, rest)
  {
    if rest == [] {
    } else {
      SameLiveKeys(cache, cache', now, k, rest[1..]);
    }
  }

  class SettingsStore {
    var cache: Cache
    var table: Table

    constructor (table: Table)
      ensures this.table == table && cache == map[]
    {
      this.table := table;
      cache := map[];
    }

    method GetOne(c: Codec, now: int, queryFails: bool, key: string, default: Value) returns (r: Answer)
      modifies this`cache
      ensures (cache, r) == Get(c, old(cache), if queryFails then None else Some(table), now, key, default)
      ensures if key in old(cache) && old(cache)[key].expiresAt > now then
                r == Some(old(cache)[key].value) && cache == old(cache)
              else if queryFails || key !in table then r == Some(default) && cache == old(cache)
              else r == c.read(table[key])
                   && cache == if r.None? then old(cache) else old(cache)[key := Cached(r.value, now + 5)]
    {
      if key in cache && cache[key].expiresAt > now {
        return Some(cache[key].value);
      }
      if queryFails {
        return Some(default);
      }
      if key !in table {
        return Some(default);
      }
      r := c.read(table[key]);
      if r.Some? {
        cache := cache[key := Cached(r.value, now + TTL)];
      }
    }

    /** The pass over the cache. */
    method SplitLive(now: int, keys: seq<string>) returns (values: map<string, Value>, missing: seq<string>)
      requires Distinct(keys)
      ensures missing == MissingKeys(cache, now, keys) && values == LiveValues(cache, now, keys)
    {
      values, missing := map[], [];
      for i := 0 to |keys|
        invariant missing == MissingKeys(cache, now, keys[..i])
        invariant values == LiveValues(cache, now, keys[..i])
      {
        SplitStep(cache, now, keys, i);
        if keys[i] in cache && cache[keys[i]].expiresAt > now {
          values := values[keys[i] := cache[keys[i]].value];
        } else {
          missing := missing + [keys[i]];
        }
      }
      assert keys[..|keys|] == keys;
    }

    /** The pass over the fetched rows. */
    method FetchMissing(c: Codec, now: int, queryFails: bool, missing: seq<string>, defaults: map<string, Value>,
                        live: map<string, Value>)
      returns (r: Option<map<string, Value>>)
      requires Distinct(missing) && forall k :: k in missing ==> k in defaults && !Live(cache, k, now)
      modifies this`cache
      ensures (cache, r)
           == GetEach(c, old(cache), if queryFails then None else Some(table), now, missing, defaults, live)
    {
      ghost var source := if queryFails then None else Some(table);
      var values := live;
      assert missing[0..] == missing;
      for i := 0 to |missing|
        invariant GetEach(c, cache, source, now, missing[i..], defaults, values)
               == GetEach(c, old(cache), source, now, missing, defaults, live)
        invariant forall j :: i <= j < |missing| ==> !Live(cache, missing[j], now)
      {
        var k := missing[i];
        assert k in missing;
        assert missing[i..][0] == k && missing[i..][1..] == missing[i + 1..];
        if queryFails || k !in table {
          values := values[k := defaults[k]];
        } else {
          var v := c.read(table[k]);
          if v.None? {
            return None;
          }
          cache := cache[k := Cached(v.value, now + TTL)];
          values := values[k := v.value];
        }
      }
      assert missing[|missing|..] == [];
      r := Some(values);
    }

    /** One query for all missing keys gives the results, the cache and the failures of one read per key. */
    method GetMany(c: Codec, now: int, queryFails: bool, keys: seq<string>, defaults: map<string, Value>)
      returns (r: Option<map<string, Value>>)
      requires Distinct(keys) && forall k :: k in keys <==> k in defaults
      modifies this`cache
      ensures (cache, r) == GetEach(c, old(cache), if queryFails then None else Some(table), now, keys, defaults, map[])
    {
      var values, missing := SplitLive(now, keys);
      MissingKeysAre(cache, now, keys);
      LiveFirst(c, cache, if queryFails then None else Some(table), now, keys, defaults, map[]);
      assert map[] + values == values;
      r := FetchMissing(c, now, queryFails, missing, defaults, values);
    }

    /** Writes each row and forgets its cached value. */
    method SetValues(c: Codec, keys: seq<string>, values: map<string, Value>)
      requires forall k :: k in keys <==> k in values
      modifies this
      ensures table == old(table) + Rows(c, values)
      ensures cache == old(cache) - values.Keys
    {
      ghost var rows := Rows(c, values);
      for i := 0 to |keys|
        invariant forall k :: k in table <==> k in old(table) || k in keys[..i]
        invariant forall k :: k in table ==> table[k] == if k in keys[..i] then rows[k] else old(table)[k]
        invariant forall k :: k in cache <==> k in old(cache) && k !in keys[..i]
        invariant forall k :: k in cache ==> cache[k] == old(cache)[k]
      {
        assert keys[..i + 1] == keys[..i] + [keys[i]];
        assert keys[i] in keys;
        table := table[keys[i] := c.write(keys[i], values[keys[i]])];
        cache := cache - {keys[i]};
      }
      assert keys[..|keys|] == keys;
      assert table == old(table) + rows;
    }
  }
}
