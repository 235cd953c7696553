/** The cache of verified API keys: what it holds, and the history that put it there. */
module AuthHistory {
  import opened Outcomes

  type Digest = string

  datatype KeyScope = Admin | Agent

  datatype Identity = Identity(keyId: Option<string>, scope: KeyScope, agentId: Option<string>)

  datatype CachedKey = CachedKey(identity: Identity, insertedAt: nat)

  type Entries = map<Digest, CachedKey>

  datatype CacheState = CacheState(entries: Entries, keysExist: Option<(bool, nat)>)

  const EMPTY := CacheState(map[], None)
  const MAX_ENTRIES: nat := 1024

  /** What happens; `r` numbers the request that did it. */
  datatype Event =
    | Arrival(r: nat, token: Option<string>)
    | Inserted(r: nat, key: Digest, entry: CachedKey)
    | Removed(key: Digest)
    | Evicted(key: Digest)
    | Invalidated(keyId: string)
    | EntriesCleared
    | FlagCleared
    | FlagSet(setter: Option<nat>, value: bool, at: nat)  // None when key creation sets it
    | KeyCreated(raw: string, identity: Identity)
    | KeyDeleted(keyId: string)
    | Listed(r: nat, found: Option<bool>, at: nat)  // whether listing the keys found any; None when it failed
    | Opened(r: nat, at: nat)                       // an admission in open mode
    | Verified(r: nat, raw: string, identity: Identity)
    | Hit(r: nat, raw: string, identity: Identity, at: nat)

  predicate IsKeyOf(identity: Identity, keyId: string) {
    identity.keyId == Some(keyId)
  }

  // ---- the operations on values ----

  function LookupIn(c: CacheState, ttl: nat, key: Digest, now: nat): Option<Identity> {
    if ttl == 0 || key !in c.entries || now - c.entries[key].insertedAt > ttl then None
    else Some(c.entries[key].identity)
  }

  /** victim is an oldest entry, if the cache is full. */
  ghost predicate RoomBy(entries: Entries, victim: Digest) {
    |entries| >= MAX_ENTRIES ==>
      && victim in entries
      && forall k :: k in entries ==> entries[victim].insertedAt <= entries[k].insertedAt
  }

  function MakeRoom(entries: Entries, victim: Digest): Entries {
    if |entries| >= MAX_ENTRIES then entries - {victim} else entries
  }

  function InsertInto(c: CacheState, ttl: nat, key: Digest, entry: CachedKey, victim: Digest): CacheState {
    if ttl == 0 then c else c.(entries := MakeRoom(c.entries, victim)[key := entry])
  }

  function InsertEvents(c: CacheState, ttl: nat, r: nat, key: Digest, entry: CachedKey, victim: Digest): seq<Event> {
    if ttl == 0 then []
    else (if |c.entries| >= MAX_ENTRIES then [Evicted(victim)] else []) + [Inserted(r, key, entry)]
  }

  function RemoveFrom(c: CacheState, key: Digest): CacheState {
    c.(entries := c.entries - {key})
  }

  function InvalidateIn(c: CacheState, keyId: string): CacheState {
    c.(entries := map k | k in c.entries && !IsKeyOf(c.entries[k].identity, keyId) :: c.entries[k])
  }

  function KeysExistIn(c: CacheState, ttl: nat, now: nat): Option<bool> {
    if ttl > 0 && c.keysExist.Some? && now - c.keysExist.value.1 <= ttl then Some(c.keysExist.value.0) else None
  }

  function SetFlag(c: CacheState, ttl: nat, value: bool, now: nat): CacheState {
    if ttl == 0 then c else c.(keysExist := Some((value, now)))
  }

  function FlagEvents(ttl: nat, setter: Option<nat>, value: bool, now: nat): seq<Event> {
    if ttl == 0 then [] else [FlagSet(setter, value, now)]
  }

  // ---- what a history leaves in the cache ----

  /** What an event makes of the entry under a key. */
  function After(e: Event, key: Digest, before: Option<CachedKey>): Option<CachedKey> {
    match e
    case Inserted(_, k, entry) => if k == key then Some(entry) else before
    case Removed(k) => if k == key then None else before
    case Evicted(k) => if k == key then None else before
    case Invalidated(id) => if before.Some? && IsKeyOf(before.value.identity, id) then None else before
    case EntriesCleared => None
    case _ => before
  }

  /** The entry a history leaves under a key. */
  function Holds(log: seq<Event>, key: Digest): Option<CachedKey> {
    if log == [] then None else After(log[|log| - 1], key, Holds(log[..|log| - 1], key))
  }

  /** The flag a history leaves. */
  function FlagOf(log: seq<Event>): Option<(bool, nat)> {
    if log == [] then None else
    match log[|log| - 1]
    case FlagSet(_, value, at) => Some((value, at))
    case FlagCleared => None
    case _ => FlagOf(log[..|log| - 1])
  }

  /** The event bears on an entry of this identity under this key. */
  predicate Touches(e: Event, key: Digest, identity: Identity) {
    match e
    case Inserted(_, k, _) => k == key
    case Removed(k) => k == key
    case Evicted(k) => k == key
    case Invalidated(id) => IsKeyOf(identity, id)
    case EntriesCleared => true
    case _ => false
  }

  /** Event i inserted the entry and nothing after it touched it. */
  ghost predicate LastInsert(log: seq<Event>, key: Digest, entry: CachedKey, i: nat) {
    && i < |log|
    && log[i].Inserted? && log[i].key == key && log[i].entry == entry
    && forall j :: i < j < |log| ==> !Touches(log[j], key, entry.identity)
  }

  function EntryAt(c: CacheState, key: Digest): Option<CachedKey> {
    if key in c.entries then Some(c.entries[key]) else None
  }

  /** The cache holds exactly what its history leaves, and no more than its capacity. */
  ghost predicate Consistent(c: CacheState, log: seq<Event>) {
    && (forall key :: EntryAt(c, key) == Holds(log, key))
    && c.keysExist == FlagOf(log)
    && |c.entries| <= MAX_ENTRIES
  }

  // ---- keeping the history consistent ----

  /** An event of another kind changes nothing. */
  predicate Inert(e: Event) {
    e.Arrival? || e.KeyCreated? || e.KeyDeleted? || e.Listed? || e.Opened? || e.Verified? || e.Hit?
  }

  lemma {:induction false} Appended(log: seq<Event>, e: Event)
    ensures (log + [e])[..|log + [e]| - 1] == log && (log + [e])[|log + [e]| - 1] == e
  {
  }

  lemma {:induction false} HoldsAfter(log: seq<Event>, e: Event, key: Digest)
    ensures Holds(log + [e], key) == After(e, key, Holds(log, key))
  {
    Appended(log, e);
  }

  lemma {:induction false} FlagAfter(log: seq<Event>, e: Event)
    ensures !e.FlagSet? && !e.FlagCleared? ==> FlagOf(log + [e]) == FlagOf(log)
    ensures e.FlagSet? ==> FlagOf(log + [e]) == Some((e.value, e.at))
    ensures e.FlagCleared? ==> FlagOf(log + [e]) == None
  {
    Appended(log, e);
  }

  /** A new cache is consistent if each key and the flag went the way the event says. */
  lemma {:induction false} EventKeeps(c: CacheState, log: seq<Event>, e: Event, after: CacheState)
    requires forall key :: EntryAt(c, key) == Holds(log, key)
    requires forall key :: EntryAt(after, key) == After(e, key, EntryAt(c, key))
    requires after.keysExist == FlagOf(log + [e]) && |after.entries| <= MAX_ENTRIES
    ensures Consistent(after, log + [e])
  {
    forall key ensures EntryAt(after, key) == Holds(log + [e], key) {
      HoldsAfter(log, e, key);
      assert EntryAt(c, key) == Holds(log, key);
      assert EntryAt(after, key) == After(e, key, EntryAt(c, key));
    }
  }

  lemma {:induction false} InertKeeps(c: CacheState, log: seq<Event>, e: Event)
    requires Consistent(c, log) && Inert(e)
    ensures Consistent(c, log + [e])
  {
    FlagAfter(log, e);
    EventKeeps(c, log, e, c);
  }

  lemma {:induction false} FewerEntries(entries: Entries, key: Digest)
    ensures |entries - {key}| == if key in entries then |entries| - 1 else |entries|
  {
    assert (entries - {key}).Keys == entries.Keys - {key};
    assert |entries.Keys| == |entries| && |(entries - {key}).Keys| == |entries - {key}|;
  }

  lemma {:induction false} DropKeeps(c: CacheState, log: seq<Event>, e: Event)
    requires Consistent(c, log) && (e.Removed? || e.Evicted?)
    ensures Consistent(RemoveFrom(c, e.key), log + [e])
  {
    FlagAfter(log, e);
    FewerEntries(c.entries, e.key);
    EventKeeps(c, log, e, RemoveFrom(c, e.key));
  }

  lemma {:induction false} PutKeeps(c: CacheState, log: seq<Event>, r: nat, key: Digest, entry: CachedKey)
    requires Consistent(c, log) && |c.entries| < MAX_ENTRIES
    ensures Consistent(c.(entries := c.entries[key := entry]), log + [Inserted(r, key, entry)])
  {
    FlagAfter(log, Inserted(r, key, entry));
    EventKeeps(c, log, Inserted(r, key, entry), c.(entries := c.entries[key := entry]));
  }

  lemma {:induction false} InsertKeeps(
      c: CacheState, log: seq<Event>, ttl: nat, r: nat, key: Digest, entry: CachedKey, victim: Digest)
    requires Consistent(c, log) && (ttl > 0 ==> RoomBy(c.entries, victim))
    ensures Consistent(InsertInto(c, ttl, key, entry, victim), log + InsertEvents(c, ttl, r, key, entry, victim))
  {
    if ttl == 0 {
      assert log + [] == log;
    } else if |c.entries| >= MAX_ENTRIES {
      DropKeeps(c, log, Evicted(victim));
      FewerEntries(c.entries, victim);
      PutKeeps(RemoveFrom(c, victim), log + [Evicted(victim)], r, key, entry);
      var e := Inserted(r, key, entry);
      assert log + ([Evicted(victim)] + [e]) == log + [Evicted(victim)] + [e];
    } else {
      PutKeeps(c, log, r, key, entry);
      assert [] + [Inserted(r, key, entry)] == [Inserted(r, key, entry)];
    }
  }

  lemma {:induction false} InvalidateKeeps(c: CacheState, log: seq<Event>, keyId: string)
    requires Consistent(c, log)
    ensures Consistent(InvalidateIn(c, keyId), log + [Invalidated(keyId)])
  {
    FlagAfter(log, Invalidated(keyId));
    SubmapSmaller(InvalidateIn(c, keyId).entries, c.entries);
    EventKeeps(c, log, Invalidated(keyId), InvalidateIn(c, keyId));
  }

  lemma {:induction false} SubmapSmaller(a: Entries, b: Entries)
    requires a.Keys <= b.Keys
    ensures |a| <= |b|
  {
    assert |b.Keys - a.Keys| == |b.Keys| - |a.Keys|;
    assert |a.Keys| == |a| && |b.Keys| == |b|;
  }

  lemma {:induction false} ClearEntriesKeeps(c: CacheState, log: seq<Event>)
    requires Consistent(c, log)
    ensures Consistent(c.(entries := map[]), log + [EntriesCleared])
  {
    FlagAfter(log, EntriesCleared);
    EventKeeps(c, log, EntriesCleared, c.(entries := map[]));
  }

  lemma {:induction false} ClearFlagKeeps(c: CacheState, log: seq<Event>)
    requires Consistent(c, log)
    ensures Consistent(c.(keysExist := None), log + [FlagCleared])
  {
    FlagAfter(log, FlagCleared);
    EventKeeps(c, log, FlagCleared, c.(keysExist := None));
  }

  lemma {:induction false} FlagKeeps(
      c: CacheState, log: seq<Event>, ttl: nat, setter: Option<nat>, value: bool, now: nat)
    requires Consistent(c, log)
    ensures Consistent(SetFlag(c, ttl, value, now), log + FlagEvents(ttl, setter, value, now))
  {
    if ttl == 0 {
      assert log + [] == log;
    } else {
      FlagAfter(log, FlagSet(setter, value, now));
      EventKeeps(c, log, FlagSet(setter, value, now), SetFlag(c, ttl, value, now));
    }
  }

  // ---- what a hit means ----

  lemma {:induction false} LastInsertExtends(log: seq<Event>, e: Event, key: Digest, entry: CachedKey, i: nat)
    requires i < |log|
    ensures LastInsert(log + [e], key, entry, i) <==>
            LastInsert(log, key, entry, i) && !Touches(e, key, entry.identity)
  {
    var longer := log + [e];
    assert longer[|log|] == e && forall j :: 0 <= j < |log| ==> longer[j] == log[j];
  }

  /** A history leaves an entry exactly when some event inserted it and none since touched it. */
  lemma {:induction false} HoldsExactly(log: seq<Event>, key: Digest, entry: CachedKey)
    ensures Holds(log, key) == Some(entry) <==> exists i: nat :: LastInsert(log, key, entry, i)
  {
    if log != [] {
      var before, e := log[..|log| - 1], log[|log| - 1];
      assert log == before + [e];
      HoldsExactly(before, key, entry);
      forall i: nat | i < |before|
        ensures LastInsert(log, key, entry, i) <==>
                LastInsert(before, key, entry, i) && !Touches(e, key, entry.identity)
      {
        LastInsertExtends(before, e, key, entry, i);
      }
      assert LastInsert(log, key, entry, |before|) <==> e.Inserted? && e.key == key && e.entry == entry;
    }
  }

  /** A lookup answers exactly when the last event touching the key inserted that identity at most the TTL ago. */
  lemma {:induction false} LookupExactly(
      c: CacheState, log: seq<Event>, ttl: nat, key: Digest, now: nat, identity: Identity)
    requires Consistent(c, log)
    ensures LookupIn(c, ttl, key, now) == Some(identity) <==>
            ttl > 0 && exists at: nat, i: nat ::
              LastInsert(log, key, CachedKey(identity, at), i) && now - at <= ttl
  {
    assert EntryAt(c, key) == Holds(log, key);
    if LookupIn(c, ttl, key, now) == Some(identity) {
      var entry := c.entries[key];
      HoldsExactly(log, key, entry);
      var i: nat :| LastInsert(log, key, entry, i);
      assert entry == CachedKey(identity, entry.insertedAt);
    }
    forall at: nat, i: nat | LastInsert(log, key, CachedKey(identity, at), i)
      ensures Holds(log, key) == Some(CachedKey(identity, at))
    {
      HoldsExactly(log, key, CachedKey(identity, at));
    }
  }

  /** Event i set the flag and nothing after it set or cleared it. */
  ghost predicate LastFlag(log: seq<Event>, value: bool, at: nat, i: nat) {
    && i < |log|
    && log[i].FlagSet? && log[i].value == value && log[i].at == at
    && forall j :: i < j < |log| ==> !log[j].FlagSet? && !log[j].FlagCleared?
  }

  lemma {:induction false} FlagOfExactly(log: seq<Event>, value: bool, at: nat)
    ensures FlagOf(log) == Some((value, at)) <==> exists i: nat :: LastFlag(log, value, at, i)
  {
    if log != [] {
      var before, e := log[..|log| - 1], log[|log| - 1];
      FlagOfExactly(before, value, at);
      forall i: nat | i < |before|
        ensures LastFlag(log, value, at, i) <==> LastFlag(before, value, at, i) && !e.FlagSet? && !e.FlagCleared?
      {
        assert forall j :: 0 <= j < |before| ==> before[j] == log[j];
      }
      assert LastFlag(log, value, at, |before|) <==> e.FlagSet? && e.value == value && e.at == at;
    }
  }

  /** The flag is known exactly when the last event that set or cleared it set it, at most the TTL ago. */
  lemma {:induction false} FlagExactly(c: CacheState, log: seq<Event>, ttl: nat, now: nat, value: bool)
    requires Consistent(c, log)
    ensures KeysExistIn(c, ttl, now) == Some(value) <==>
            ttl > 0 && exists at: nat, i: nat :: LastFlag(log, value, at, i) && now - at <= ttl
  {
    if KeysExistIn(c, ttl, now) == Some(value) {
      var at := c.keysExist.value.1;
      FlagOfExactly(log, value, at);
      var i: nat :| LastFlag(log, value, at, i);
    }
    forall at: nat, i: nat | LastFlag(log, value, at, i) ensures FlagOf(log) == Some((value, at)) {
      FlagOfExactly(log, value, at);
    }
  }
}
