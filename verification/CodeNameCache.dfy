/**
 * The code name cache over a durable store (src/ptv/v12/codeNameCache.ts:52-131)
 * and that store's saving of a flush (src/db/ptvCodeNameCacheService.ts:14-72).
 * Clock readings are parameters and never go back.
 */
module CodeNameCache {
  import opened Wrappers

  datatype Environment = Test | Production

  datatype Kind = ServiceClasses | TargetGroups | LifeEvents | IndustrialClasses | OntologyTerms

  datatype CodeListEntry = CodeListEntry(code: Option<string>, uri: Option<string>, names: map<string, string>)

  datatype Key = Key(environment: Environment, kind: Kind, key: string)

  datatype CacheEntry = CacheEntry(entry: CodeListEntry, expiresAt: int)

  datatype StoredCodeName = StoredCodeName(key: Key, entry: CodeListEntry, expiresAt: int)

  // ----- One string per key -----

  function EnvironmentName(environment: Environment): string {
    match environment case Test => "test" case Production => "production"
  }

  function KindName(kind: Kind): string {
    match kind
    case ServiceClasses => "serviceClasses" case TargetGroups => "targetGroups" case LifeEvents => "lifeEvents"
    case IndustrialClasses => "industrialClasses" case OntologyTerms => "ontologyTerms"
  }

  function KeyOf(k: Key): string {
    EnvironmentName(k.environment) + ['\0'] + (KindName(k.kind) + ['\0'] + k.key)
  }

  /** A text up to a separator it does not contain can be read back. */
  lemma SplitUnique(a: string, b: string, restA: string, restB: string)
    requires '\0' !in a && '\0' !in b && a + ['\0'] + restA == b + ['\0'] + restB
    ensures a == b && restA == restB
  {
    var x, y := a + ['\0'] + restA, b + ['\0'] + restB;
    assert x[|a|] == '\0' && forall i :: 0 <= i < |a| ==> x[i] != '\0';
    assert y[|b|] == '\0' && forall i :: 0 <= i < |b| ==> y[i] != '\0';
    assert |a| == |b|;
    assert a == x[..|a|] && b == y[..|b|];
    assert restA == x[|a| + 1..] && restB == y[|b| + 1..];
  }

  lemma NamesDistinct(a: Key, b: Key)
    ensures '\0' !in EnvironmentName(a.environment) && '\0' !in KindName(a.kind)
    ensures EnvironmentName(a.environment) == EnvironmentName(b.environment) ==> a.environment == b.environment
    ensures KindName(a.kind) == KindName(b.kind) ==> a.kind == b.kind
  {
    match a.kind
    case ServiceClasses => case TargetGroups => case LifeEvents => case IndustrialClasses => case OntologyTerms =>
  }

  /** Different keys never share a place in the cache, whatever the code or uri contains. */
  lemma KeyOfInjective(a: Key, b: Key)
    requires KeyOf(a) == KeyOf(b)
    ensures a == b
  {
    hide EnvironmentName, KindName;
    NamesDistinct(a, b);
    NamesDistinct(b, a);
    SplitUnique(EnvironmentName(a.environment), EnvironmentName(b.environment),
                KindName(a.kind) + ['\0'] + a.key, KindName(b.kind) + ['\0'] + b.key);
    SplitUnique(KindName(a.kind), KindName(b.kind), a.key, b.key);
  }

  // ----- The in-memory level -----

  type Entries = map<string, CacheEntry>

  predicate Live(entries: Entries, place: string, now: int) {
    place in entries && entries[place].expiresAt > now
  }

  /** Reading drops an entry that has expired. */
  function Evict(entries: Entries, place: string, now: int): Entries {
    if place in entries && entries[place].expiresAt <= now then entries - {place} else entries
  }

  function Read(entries: Entries, place: string, now: int): Option<CodeListEntry> {
    if Live(entries, place, now) then Some(entries[place].entry) else None
  }

  /** The keys a prime finds missing, each read at its own moment, and the entries after those reads. */
  function Missing(entries: Entries, environment: Environment, kind: Kind, keys: seq<string>, clock: nat -> int)
    : (Entries, seq<string>)
    decreases |keys|
  {
    if keys == [] then (entries, [])
    else
      var n := |keys| - 1;
      var (after, missing) := Missing(entries, environment, kind, keys[..n], clock);
      var place := KeyOf(Key(environment, kind, keys[n]));
      (Evict(after, place, clock(n)), if Live(after, place, clock(n)) then missing else missing + [keys[n]])
  }

  lemma MissingNone(entries: Entries, environment: Environment, kind: Kind, clock: nat -> int)
    ensures Missing(entries, environment, kind, [], clock) == (entries, [])
  {
  }

  lemma MissingNext(entries: Entries, environment: Environment, kind: Kind, keys: seq<string>, key: string, clock: nat -> int)
    ensures var (after, missing) := Missing(entries, environment, kind, keys, clock);
            var place := KeyOf(Key(environment, kind, key));
            Missing(entries, environment, kind, keys + [key], clock)
            == (Evict(after, place, clock(|keys|)), if Live(after, place, clock(|keys|)) then missing else missing + [key])
  {
    hide KeyOf;
    assert (keys + [key])[..|keys|] == keys;
  }

  function Loaded(entries: Entries, environment: Environment, kind: Kind, rows: seq<StoredCodeName>, now: int): Entries
    decreases |rows|
  {
    if rows == [] then entries
    else
      var n := |rows| - 1;
      var before := Loaded(entries, environment, kind, rows[..n], now);
      if rows[n].expiresAt > now then
        before[KeyOf(Key(environment, kind, rows[n].key.key)) := CacheEntry(rows[n].entry, rows[n].expiresAt)]
      else before
  }

  /** The store: unexpired rows for the missing keys, or a failure. */
  type Load = seq<string> -> Option<seq<StoredCodeName>>

  datatype Call =
    | Get(key: Key, now: int)
    | Set(key: Key, entry: CodeListEntry, ttlMs: int, now: int)
    | Prime(environment: Environment, kind: Kind, keys: seq<string>, clock: nat -> int, load: Load, loadedAt: int)
    | Flush
    | Clear

  /** What a caller, or the store, sees of a call. */
  datatype Seen = Got(entry: Option<CodeListEntry>) | Asked(keys: seq<string>) | Saved(rows: seq<StoredCodeName>) | Nothing

  datatype Cache = Cache(entries: Entries, pending: seq<StoredCodeName>)

  function Step(hasStore: bool, s: Cache, call: Call): (Cache, Seen) {
    match call
    case Get(key, now) =>
      (s.(entries := Evict(s.entries, KeyOf(key), now)), Got(Read(s.entries, KeyOf(key), now)))
    case Set(key, entry, ttlMs, now) =>
      (Cache(s.entries[KeyOf(key) := CacheEntry(entry, now + ttlMs)],
             if hasStore then s.pending + [StoredCodeName(key, entry, now + ttlMs)] else s.pending), Nothing)
    case Prime(environment, kind, keys, clock, load, loadedAt) =>
      if !hasStore then (s, Nothing)
      else
        var (after, missing) := Missing(s.entries, environment, kind, Dedup(keys), clock);
        if missing == [] then (s.(entries := after), Nothing)
        else
          (match load(missing)
           case None => (s.(entries := after), Asked(missing))
           case Some(rows) => (s.(entries := Loaded(after, environment, kind, rows, loadedAt)), Asked(missing)))
    case Flush =>
      if !hasStore || s.pending == [] then (s, Nothing) else (s.(pending := []), Saved(s.pending))
    case Clear => (Cache(map[], []), Nothing)
  }

  class CodeNames {
    const hasStore: bool
    var entries: Entries
    var pending: seq<StoredCodeName>

    function State(): Cache
      reads this
    {
      Cache(entries, pending)
    }

    constructor (hasStore: bool)
      ensures this.hasStore == hasStore && State() == Cache(map[], [])
    {
      this.hasStore, this.entries, this.pending := hasStore, map[], [];
    }

    method DoGet(key: Key, now: int) returns (entry: Option<CodeListEntry>)
      modifies this
      ensures (State(), Got(entry)) == Step(hasStore, old(State()), Get(key, now))
    {
      var place := KeyOf(key);
      if place !in entries { return None; }
      var found := entries[place];
      if found.expiresAt <= now {
        entries := entries - {place};
        return None;
      }
      return Some(found.entry);
    }

    /** From now on reads of the key find the entry until it expires, other keys read as before, and the next flush hands it over last. */
    method DoSet(key: Key, entry: CodeListEntry, ttlMs: int, now: int)
      modifies this
      ensures State() == Step(hasStore, old(State()), Set(key, entry, ttlMs, now)).0
      ensures forall later :: Read(entries, KeyOf(key), later) == if later < now + ttlMs then Some(entry) else None
      ensures forall other, later :: other != key ==> Read(entries, KeyOf(other), later) == Read(old(entries), KeyOf(other), later)
      ensures hasStore ==> Step(hasStore, State(), Flush).1 == Saved(old(pending) + [StoredCodeName(key, entry, now + ttlMs)])
    {
      hide KeyOf;
      forall other | KeyOf(other) == KeyOf(key)
        ensures other == key
      {
        KeyOfInjective(other, key);
      }
      var expiresAt := now + ttlMs;
      entries := entries[KeyOf(key) := CacheEntry(entry, expiresAt)];
      if hasStore {
        pending := pending + [StoredCodeName(key, entry, expiresAt)];
      }
    }

    method FindMissing(environment: Environment, kind: Kind, keys: seq<string>, clock: nat -> int)
      returns (absent: seq<string>)
      modifies this
      ensures (entries, absent) == Missing(old(entries), environment, kind, keys, clock)
      ensures pending == old(pending)
    {
      hide KeyOf, Missing;
      absent := [];
      MissingNone(entries, environment, kind, clock);
      for i := 0 to |keys|
        invariant (entries, absent) == Missing(old(entries), environment, kind, keys[..i], clock)
        invariant pending == old(pending)
      {
        MissingNext(old(entries), environment, kind, keys[..i], keys[i], clock);
        assert keys[..i + 1] == keys[..i] + [keys[i]];
        var entry := DoGet(Key(environment, kind, keys[i]), clock(i));
        if entry.None? {
          absent := absent + [keys[i]];
        }
      }
      assert keys[..|keys|] == keys;
    }

    method DoPrime(environment: Environment, kind: Kind, keys: seq<string>, clock: nat -> int, load: Load, loadedAt: int)
      modifies this
      ensures State() == Step(hasStore, old(State()), Prime(environment, kind, keys, clock, load, loadedAt)).0
    {
      hide KeyOf, Missing;
      if !hasStore { return; }
      var absent := FindMissing(environment, kind, Dedup(keys), clock);
      if absent == [] { return; }
      var loaded := load(absent);
      if loaded.None? { return; }
      var rows := loaded.value;
      ghost var before := entries;
      for i := 0 to |rows|
        invariant entries == Loaded(before, environment, kind, rows[..i], loadedAt)
        invariant pending == old(pending)
      {
        assert rows[..i + 1][..i] == rows[..i];
        if rows[i].expiresAt > loadedAt {
          entries := entries[KeyOf(Key(environment, kind, rows[i].key.key)) := CacheEntry(rows[i].entry, rows[i].expiresAt)];
        }
      }
      assert rows[..|rows|] == rows;
    }

    /** The rows handed to the store; what becomes of them there does not change the cache: every key reads as before, and the next flush hands over nothing. */
    method DoFlush() returns (rows: seq<StoredCodeName>)
      modifies this
      ensures State() == Step(hasStore, old(State()), Flush).0
      ensures rows == if hasStore then old(pending) else []
      ensures forall key, later :: Read(entries, KeyOf(key), later) == Read(old(entries), KeyOf(key), later)
      ensures Step(hasStore, State(), Flush).1 == Nothing
    {
      rows := [];
      if !hasStore || pending == [] { return; }
      rows := pending;
      pending := [];
    }

    method DoClear()
      modifies this
      ensures State() == Step(hasStore, old(State()), Clear).0
    {
      entries, pending := map[], [];
    }
  }

  // ----- The same, as a plain map that forgets nothing -----

  type Plain = map<Key, CacheEntry>

  datatype PlainCache = PlainCache(entries: Plain, pending: seq<StoredCodeName>)

  function PlainGet(entries: Plain, key: Key, now: int): Option<CodeListEntry> {
    if key in entries && entries[key].expiresAt > now then Some(entries[key].entry) else None
  }

  function PlainMissing(entries: Plain, environment: Environment, kind: Kind, keys: seq<string>, clock: nat -> int): seq<string>
    decreases |keys|
  {
    if keys == [] then []
    else
      var n := |keys| - 1;
      var missing := PlainMissing(entries, environment, kind, keys[..n], clock);
      if PlainGet(entries, Key(environment, kind, keys[n]), clock(n)).Some? then missing else missing + [keys[n]]
  }

  function PlainLoaded(entries: Plain, environment: Environment, kind: Kind, rows: seq<StoredCodeName>, now: int): Plain
    decreases |rows|
  {
    if rows == [] then entries
    else
      var n := |rows| - 1;
      var before := PlainLoaded(entries, environment, kind, rows[..n], now);
      if rows[n].expiresAt > now then
        before[Key(environment, kind, rows[n].key.key) := CacheEntry(rows[n].entry, rows[n].expiresAt)]
      else before
  }

  function PlainStep(hasStore: bool, s: PlainCache, call: Call): (PlainCache, Seen) {
    match call
    case Get(key, now) => (s, Got(PlainGet(s.entries, key, now)))
    case Set(key, entry, ttlMs, now) =>
      (PlainCache(s.entries[key := CacheEntry(entry, now + ttlMs)],
                  if hasStore then s.pending + [StoredCodeName(key, entry, now + ttlMs)] else s.pending), Nothing)
    case Prime(environment, kind, keys, clock, load, loadedAt) =>
      if !hasStore then (s, Nothing)
      else
        var missing := PlainMissing(s.entries, environment, kind, Dedup(keys), clock);
        if missing == [] then (s, Nothing)
        else
          (match load(missing)
           case None => (s, Asked(missing))
           case Some(rows) => (s.(entries := PlainLoaded(s.entries, environment, kind, rows, loadedAt)), Asked(missing)))
    case Flush =>
      if !hasStore || s.pending == [] then (s, Nothing) else (s.(pending := []), Saved(s.pending))
    case Clear => (PlainCache(map[], []), Nothing)
  }

  function Observed(hasStore: bool, s: Cache, calls: seq<Call>): seq<Seen>
    decreases |calls|
  {
    if calls == [] then []
    else [Step(hasStore, s, calls[0]).1] + Observed(hasStore, Step(hasStore, s, calls[0]).0, calls[1..])
  }

  function PlainObserved(hasStore: bool, s: PlainCache, calls: seq<Call>): seq<Seen>
    decreases |calls|
  {
    if calls == [] then []
    else [PlainStep(hasStore, s, calls[0]).1] + PlainObserved(hasStore, PlainStep(hasStore, s, calls[0]).0, calls[1..])
  }

  /** No clock reading from `now` on through the call goes back; `until` is its last. */
  ghost predicate Forward(call: Call, now: int, until: int) {
    match call
    case Get(_, at) => now <= at == until
    case Set(_, _, _, at) => now <= at == until
    case Prime(_, _, _, clock, _, loadedAt) =>
      now <= loadedAt == until
      && (forall i: nat :: now <= clock(i) <= loadedAt) && (forall i: nat, j: nat :: i <= j ==> clock(i) <= clock(j))
    case _ => now == until
  }

  ghost predicate Chronological(calls: seq<Call>, now: int)
    decreases |calls|
  {
    calls == [] || exists until :: Forward(calls[0], now, until) && Chronological(calls[1..], until)
  }

  /** The two levels hold the same entries, except that the cache may have dropped expired ones. */
  ghost predicate SameLive(entries: Entries, plain: Plain, now: int) {
    && (forall k :: k in plain && KeyOf(k) in entries ==> entries[KeyOf(k)] == plain[k])
    && (forall k :: k in plain && KeyOf(k) !in entries ==> plain[k].expiresAt <= now)
    && (forall k :: KeyOf(k) in entries ==> k in plain)
  }

  lemma SameLater(entries: Entries, plain: Plain, now: int, later: int)
    requires SameLive(entries, plain, now) && now <= later
    ensures SameLive(entries, plain, later)
  {
    hide KeyOf;
  }

  lemma SameRead(entries: Entries, plain: Plain, k: Key, now: int)
    requires SameLive(entries, plain, now)
    ensures Read(entries, KeyOf(k), now) == PlainGet(plain, k, now)
    ensures Live(entries, KeyOf(k), now) <==> PlainGet(plain, k, now).Some?
    ensures SameLive(Evict(entries, KeyOf(k), now), plain, now)
  {
    hide KeyOf;
    forall j | j in plain && KeyOf(j) == KeyOf(k)
      ensures j == k
    {
      KeyOfInjective(j, k);
    }
  }

  lemma SameWrite(entries: Entries, plain: Plain, k: Key, entry: CacheEntry, now: int)
    requires SameLive(entries, plain, now)
    ensures SameLive(entries[KeyOf(k) := entry], plain[k := entry], now)
  {
    hide KeyOf;
    forall j | KeyOf(j) == KeyOf(k)
      ensures j == k
    {
      KeyOfInjective(j, k);
    }
  }

  lemma {:induction false} SameMissing(entries: Entries, plain: Plain, environment: Environment, kind: Kind,
                                       keys: seq<string>, clock: nat -> int, now: int, until: int)
    requires SameLive(entries, plain, now) && now <= until
    requires forall i: nat :: now <= clock(i) <= until
    requires forall i: nat, j: nat :: i <= j ==> clock(i) <= clock(j)
    ensures Missing(entries, environment, kind, keys, clock).1 == PlainMissing(plain, environment, kind, keys, clock)
    ensures SameLive(Missing(entries, environment, kind, keys, clock).0, plain, if keys == [] then now else clock(|keys| - 1))
    decreases |keys|
  {
    hide SameLive, KeyOf, Evict, Live, PlainGet;
    if keys != [] {
      var n := |keys| - 1;
      SameMissing(entries, plain, environment, kind, keys[..n], clock, now, until);
      var after := Missing(entries, environment, kind, keys[..n], clock).0;
      SameLater(after, plain, if n == 0 then now else clock(n - 1), clock(n));
      SameRead(after, plain, Key(environment, kind, keys[n]), clock(n));
    }
  }

  lemma {:induction false} SameLoaded(entries: Entries, plain: Plain, environment: Environment, kind: Kind,
                                      rows: seq<StoredCodeName>, now: int)
    requires SameLive(entries, plain, now)
    ensures SameLive(Loaded(entries, environment, kind, rows, now), PlainLoaded(plain, environment, kind, rows, now), now)
    decreases |rows|
  {
    hide SameLive, KeyOf;
    if rows != [] {
      var n := |rows| - 1;
      SameLoaded(entries, plain, environment, kind, rows[..n], now);
      SameWrite(Loaded(entries, environment, kind, rows[..n], now), PlainLoaded(plain, environment, kind, rows[..n], now),
                Key(environment, kind, rows[n].key.key), CacheEntry(rows[n].entry, rows[n].expiresAt), now);
    }
  }

  ghost predicate Same(s: Cache, p: PlainCache, now: int) {
    SameLive(s.entries, p.entries, now) && s.pending == p.pending
  }

  lemma SamePrime(hasStore: bool, s: Cache, p: PlainCache, call: Call, now: int, until: int)
    requires Same(s, p, now) && call.Prime? && Forward(call, now, until)
    ensures Step(hasStore, s, call).1 == PlainStep(hasStore, p, call).1
    ensures Same(Step(hasStore, s, call).0, PlainStep(hasStore, p, call).0, until)
  {
    hide SameLive, Missing, PlainMissing, Loaded, PlainLoaded;
    var keys := Dedup(call.keys);
    SameLater(s.entries, p.entries, now, until);
    SameMissing(s.entries, p.entries, call.environment, call.kind, keys, call.clock, now, until);
    var after := Missing(s.entries, call.environment, call.kind, keys, call.clock).0;
    SameLater(after, p.entries, if keys == [] then now else call.clock(|keys| - 1), until);
    var missing := PlainMissing(p.entries, call.environment, call.kind, keys, call.clock);
    if call.load(missing).Some? {
      SameLoaded(after, p.entries, call.environment, call.kind, call.load(missing).value, until);
    }
  }

  lemma SameStep(hasStore: bool, s: Cache, p: PlainCache, call: Call, now: int, until: int)
    requires Same(s, p, now) && Forward(call, now, until)
    ensures Step(hasStore, s, call).1 == PlainStep(hasStore, p, call).1
    ensures Same(Step(hasStore, s, call).0, PlainStep(hasStore, p, call).0, until)
  {
    hide KeyOf, SameLive, Evict, Read, PlainGet, Missing, PlainMissing, Loaded, PlainLoaded;
    match call
    case Get(key, at) =>
      SameLater(s.entries, p.entries, now, at);
      SameRead(s.entries, p.entries, key, at);
    case Set(key, entry, ttlMs, at) =>
      SameLater(s.entries, p.entries, now, at);
      SameWrite(s.entries, p.entries, key, CacheEntry(entry, at + ttlMs), at);
    case Prime(_, _, _, _, _, _) => SamePrime(hasStore, s, p, call, now, until);
    case Flush =>
    case Clear => NothingSame(until);
  }

  lemma NothingSame(now: int)
    ensures SameLive(map[], map[], now)
  {
  }

  lemma {:induction false} SameFrom(hasStore: bool, s: Cache, p: PlainCache, calls: seq<Call>, now: int)
    requires Same(s, p, now) && Chronological(calls, now)
    ensures Observed(hasStore, s, calls) == PlainObserved(hasStore, p, calls)
    decreases |calls|
  {
    hide Same, Step, PlainStep, Forward;
    if calls != [] {
      var until :| Forward(calls[0], now, until) && Chronological(calls[1..], until);
      SameStep(hasStore, s, p, calls[0], now, until);
      SameFrom(hasStore, Step(hasStore, s, calls[0]).0, PlainStep(hasStore, p, calls[0]).0, calls[1..], until);
    }
  }

  /** Every answer, every load and every save is what a plain map of the last entries would show: eviction is unobservable. */
  lemma EvictionUnobservable(hasStore: bool, calls: seq<Call>, now: int)
    requires Chronological(calls, now)
    ensures Observed(hasStore, Cache(map[], []), calls) == PlainObserved(hasStore, PlainCache(map[], []), calls)
  {
    NothingSame(now);
    SameFrom(hasStore, Cache(map[], []), PlainCache(map[], []), calls, now);
  }

  // ----- The durable level -----

  datatype Row = Row(entry: CodeListEntry, fetchedAt: int, expiresAt: int)

  type Table = map<Key, Row>

  const SAVE_BATCH_SIZE := 500

  function Upsert(table: Table, row: StoredCodeName, now: int): Table {
    table[row.key := Row(row.entry, now, row.expiresAt)]
  }

  /** The rows one statement each, in order. */
  function UpsertAll(table: Table, rows: seq<StoredCodeName>, now: int): Table
    decreases |rows|
  {
    if rows == [] then table
    else Upsert(UpsertAll(table, rows[..|rows| - 1], now), rows[|rows| - 1], now)
  }

  ghost predicate DistinctKeys(rows: seq<StoredCodeName>) {
    forall i, j :: 0 <= i < j < |rows| ==> rows[i].key != rows[j].key
  }

  /** The last row of a key in a list. */
  function LastOf(rows: seq<StoredCodeName>, key: Key): Option<StoredCodeName>
    decreases |rows|
  {
    if rows == [] then None
    else if rows[|rows| - 1].key == key then Some(rows[|rows| - 1])
    else LastOf(rows[..|rows| - 1], key)
  }

  /** Upserting in order leaves each key with its last row, and every other key as it was. */
  lemma {:induction false} UpsertAllKeepsLast(table: Table, rows: seq<StoredCodeName>, now: int, key: Key)
    ensures LastOf(rows, key).None? ==>
              (key in UpsertAll(table, rows, now) <==> key in table)
              && (key in table ==> UpsertAll(table, rows, now)[key] == table[key])
    ensures LastOf(rows, key).Some? ==>
              key in UpsertAll(table, rows, now)
              && UpsertAll(table, rows, now)[key] == Row(LastOf(rows, key).value.entry, now, LastOf(rows, key).value.expiresAt)
    decreases |rows|
  {
    if rows != [] {
      UpsertAllKeepsLast(table, rows[..|rows| - 1], now, key);
    }
  }

  lemma {:induction false} UpsertAllAppended(table: Table, rows: seq<StoredCodeName>, more: seq<StoredCodeName>, now: int)
    ensures UpsertAll(table, rows + more, now) == UpsertAll(UpsertAll(table, rows, now), more, now)
    decreases |more|
  {
    if more == [] {
      assert rows + more == rows;
    } else {
      var n := |more| - 1;
      assert (rows + more)[..|rows| + n] == rows + more[..n];
      UpsertAllAppended(table, rows, more[..n], now);
    }
  }

  /** A Map keyed by the joined key: a new key goes last, a known one keeps its place and takes the new row. */
  function Put(values: seq<StoredCodeName>, row: StoredCodeName): seq<StoredCodeName> {
    if values == [] then [row]
    else if KeyOf(values[0].key) == KeyOf(row.key) then [row] + values[1..]
    else [values[0]] + Put(values[1..], row)
  }

  function Unique(rows: seq<StoredCodeName>): seq<StoredCodeName>
    decreases |rows|
  {
    if rows == [] then [] else Put(Unique(rows[..|rows| - 1]), rows[|rows| - 1])
  }

  lemma {:induction false} PutLists(values: seq<StoredCodeName>, row: StoredCodeName, other: StoredCodeName)
    requires DistinctKeys(values)
    ensures DistinctKeys(Put(values, row))
    ensures other in Put(values, row) <==> other == row || (other in values && other.key != row.key)
  {
    hide KeyOf;
    if values != [] {
      if KeyOf(values[0].key) == KeyOf(row.key) {
        KeyOfInjective(values[0].key, row.key);
      } else {
        var rest := Put(values[1..], row);
        PutLists(values[1..], row, other);
        forall i | 0 <= i < |rest|
          ensures rest[i].key != values[0].key
        {
          PutLists(values[1..], row, rest[i]);
          assert rest[i] in rest;
        }
      }
    }
  }

  /** What is kept is the last row of each key, once. */
  lemma {:induction false} UniqueIsLast(rows: seq<StoredCodeName>, row: StoredCodeName)
    ensures DistinctKeys(Unique(rows))
    ensures row in Unique(rows) <==> LastOf(rows, row.key) == Some(row)
    decreases |rows|
  {
    hide KeyOf, Put;
    if rows != [] {
      var n := |rows| - 1;
      UniqueIsLast(rows[..n], row);
      PutLists(Unique(rows[..n]), rows[n], row);
    }
  }

  lemma {:induction false} LastOfDistinct(rows: seq<StoredCodeName>, key: Key)
    requires DistinctKeys(rows)
    ensures LastOf(rows, key).Some? ==> LastOf(rows, key).value in rows && LastOf(rows, key).value.key == key
    ensures forall row :: row in rows && row.key == key ==> LastOf(rows, key) == Some(row)
    decreases |rows|
  {
    if rows != [] {
      LastOfDistinct(rows[..|rows| - 1], key);
      assert rows == rows[..|rows| - 1] + [rows[|rows| - 1]];
    }
  }

  lemma {:induction false} LastOfKeyed(rows: seq<StoredCodeName>, key: Key)
    ensures LastOf(rows, key).Some? ==> LastOf(rows, key).value.key == key
    decreases |rows|
  {
    if rows != [] {
      LastOfKeyed(rows[..|rows| - 1], key);
    }
  }

  lemma UniqueSameLast(rows: seq<StoredCodeName>, key: Key)
    ensures LastOf(Unique(rows), key) == LastOf(rows, key)
  {
    hide LastOf, Unique;
    LastOfKeyed(rows, key);
    var kept := LastOf(Unique(rows), key);
    var last := LastOf(rows, key);
    UniqueIsLast(rows, StoredCodeName(key, CodeListEntry(None, None, map[]), 0));
    LastOfDistinct(Unique(rows), key);
    if kept.Some? { UniqueIsLast(rows, kept.value); }
    if last.Some? { UniqueIsLast(rows, last.value); }
  }

  /** Saving the deduplicated rows leaves the table as upserting all rows one by one would. */
  lemma DedupUnobservable(table: Table, rows: seq<StoredCodeName>, now: int)
    ensures UpsertAll(table, Unique(rows), now) == UpsertAll(table, rows, now)
  {
    hide UpsertAll, Unique, LastOf;
    var a, b := UpsertAll(table, Unique(rows), now), UpsertAll(table, rows, now);
    forall key: Key
      ensures (key in a <==> key in b) && (key in a ==> a[key] == b[key])
    {
      UniqueSameLast(rows, key);
      UpsertAllKeepsLast(table, Unique(rows), now, key);
      UpsertAllKeepsLast(table, rows, now, key);
    }
  }

  class PtvCodeNameCacheService {
    var table: Table

    constructor ()
      ensures table == map[]
    {
      table := map[];
    }

    /** One INSERT … ON CONFLICT DO UPDATE; the database refuses a statement that touches a row twice, or has none or too many. */
    method InsertBatch(rows: seq<StoredCodeName>, now: int)
      requires DistinctKeys(rows) && 1 <= |rows| <= 500
      modifies this
      ensures table == UpsertAll(old(table), rows, now)
    {
      for i := 0 to |rows|
        invariant table == UpsertAll(old(table), rows[..i], now)
      {
        assert rows[..i + 1][..i] == rows[..i];
        table := Upsert(table, rows[i], now);
      }
      assert rows[..|rows|] == rows;
    }

    method Save(rows: seq<StoredCodeName>, now: int)
      modifies this
      ensures table == UpsertAll(old(table), rows, now)
    {
      hide Put, Unique, UpsertAll;
      var values: seq<StoredCodeName> := [];
      assert values == Unique([]) by { UniqueNone(); }
      for i := 0 to |rows|
        invariant values == Unique(rows[..i]) && table == old(table)
      {
        assert rows[..i + 1][..i] == rows[..i] && rows[..i + 1][i] == rows[i];
        UniqueNext(rows[..i + 1]);
        values := Put(values, rows[i]);
      }
      assert rows[..|rows|] == rows;
      UniqueIsLast(rows, StoredCodeName(Key(Test, LifeEvents, ""), CodeListEntry(None, None, map[]), 0));
      var i := 0;
      assert UpsertAll(old(table), values[..0], now) == old(table) by { NoneUpserted(old(table), now); }
      while i < |values|
        invariant 0 <= i && (i <= |values| ==> table == UpsertAll(old(table), values[..i], now))
        invariant i > |values| ==> table == UpsertAll(old(table), values, now)
      {
        var end := if i + SAVE_BATCH_SIZE < |values| then i + SAVE_BATCH_SIZE else |values|;
        InsertBatch(values[i..end], now);
        UpsertAllAppended(old(table), values[..i], values[i..end], now);
        assert values[..i] + values[i..end] == values[..end];
        assert values[..|values|] == values;
        i := i + SAVE_BATCH_SIZE;
      }
      assert values[..|values|] == values;
      DedupUnobservable(old(table), rows, now);
    }
  }

  lemma UniqueNone()
    ensures Unique([]) == []
  {
  }

  lemma UniqueNext(rows: seq<StoredCodeName>)
    requires rows != []
    ensures Unique(rows) == Put(Unique(rows[..|rows| - 1]), rows[|rows| - 1])
  {
  }

  lemma NoneUpserted(table: Table, now: int)
    ensures UpsertAll(table, [], now) == table
  {
  }
}
