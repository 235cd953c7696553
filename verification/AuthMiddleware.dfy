/**
 The request side of authentication: each request runs through segments between which any
 other request, key creation or key deletion may act on the shared cache and key table.
 */
module AuthMiddleware {
  import opened Outcomes
  import opened AuthHistory
  import Cache = AuthCache

  datatype Via = FromCache | FromStore | OpenMode

  datatype Phase =
    | Arrived(token: Option<string>)
    | Counting(token: Option<string>)                  // no cached flag: listing the keys
    | Flagging(token: Option<string>, keysExist: bool) // listed, flag not yet set
    | Presenting(raw: string)                          // looking the token up
    | Verifying(raw: string)                           // asking the key table
    | Storing(raw: string, identity: Identity)         // verified, not yet cached
    | Marking(raw: string, identity: Identity)         // cached, flag not yet set
    | Rechecking(raw: string)                          // open mode, verification failed
    | Reflagging(raw: string, empty: bool)             // listed, flag not yet set
    | Dropping(raw: string)
    | Admitted(token: Option<string>, identity: Identity, via: Via)
    | Rejected

  const ANYONE := Identity(None, Admin, None)

  /** The key table: what really verifying a raw key answers. */
  type Keys = map<string, Identity>

  datatype Config = Config(ttl: nat, openMode: bool, hash: string -> Digest)

  datatype Outcome = Outcome(cache: CacheState, phase: Phase, events: seq<Event>)

  predicate Final(phase: Phase) {
    phase.Admitted? || phase.Rejected?
  }

  /** Whether listing the key table finds a key; a failed listing finds nothing out. */
  function Listing(keys: Keys, fails: bool): Option<bool> {
    if fails then None else Some(keys != map[])
  }

  /** What follows as soon as a request knows whether keys exist. */
  function Decide(openMode: bool, token: Option<string>, exist: bool): Phase {
    if token.Some? then Presenting(token.value)
    else if openMode && !exist then Admitted(None, ANYONE, OpenMode)
    else Rejected
  }

  function OpenEvents(r: nat, phase: Phase, now: nat): seq<Event> {
    if phase.Admitted? && phase.via.OpenMode? then [Opened(r, now)] else []
  }

  /** Setting the flag and then going on to the next phase. */
  function FlagAndOpen(ttl: nat, r: nat, value: bool, next: Phase, now: nat): seq<Event> {
    FlagEvents(ttl, Some(r), value, now) + OpenEvents(r, next, now)
  }

  /** One segment of request r; `fails` says that the key table cannot be reached now. */
  function Segment(
      cfg: Config, keys: Keys, now: nat, c: CacheState, r: nat, phase: Phase, fails: bool, victim: Digest): Outcome
  {
    match phase
    case Arrived(token) =>
      (match KeysExistIn(c, cfg.ttl, now)
       case Some(exist) =>
         var next := Decide(cfg.openMode, token, exist);
         Outcome(c, next, OpenEvents(r, next, now))
       case None => Outcome(c, Counting(token), []))
    case Counting(token) =>
      var listed := Listing(keys, fails);
      Outcome(c, Flagging(token, listed == Some(true)), [Listed(r, listed, now)])
    case Flagging(token, exist) =>
      var next := Decide(cfg.openMode, token, exist);
      Outcome(SetFlag(c, cfg.ttl, exist, now), next, FlagAndOpen(cfg.ttl, r, exist, next, now))
    case Presenting(raw) =>
      (match LookupIn(c, cfg.ttl, cfg.hash(raw), now)
       case Some(identity) => Outcome(c, Admitted(Some(raw), identity, FromCache), [Hit(r, raw, identity, now)])
       case None => Outcome(c, Verifying(raw), []))
    case Verifying(raw) =>
      if !fails && raw in keys then Outcome(c, Storing(raw, keys[raw]), [Verified(r, raw, keys[raw])])
      else Outcome(c, if cfg.openMode then Rechecking(raw) else Dropping(raw), [])
    case Storing(raw, identity) =>
      var entry := CachedKey(identity, now);
      Outcome(InsertInto(c, cfg.ttl, cfg.hash(raw), entry, victim), Marking(raw, identity),
              InsertEvents(c, cfg.ttl, r, cfg.hash(raw), entry, victim))
    case Marking(raw, identity) =>
      Outcome(SetFlag(c, cfg.ttl, true, now), Admitted(Some(raw), identity, FromStore),
              FlagEvents(cfg.ttl, Some(r), true, now))
    case Rechecking(raw) =>
      var listed := Listing(keys, fails);
      Outcome(c, Reflagging(raw, listed == Some(false)), [Listed(r, listed, now)])
    case Reflagging(raw, empty) =>
      var next := if empty then Admitted(Some(raw), ANYONE, OpenMode) else Dropping(raw);
      Outcome(SetFlag(c, cfg.ttl, !empty, now), next, FlagAndOpen(cfg.ttl, r, !empty, next, now))
    case Dropping(raw) => Outcome(RemoveFrom(c, cfg.hash(raw)), Rejected, [Removed(cfg.hash(raw))])
    case _ => Outcome(c, phase, [])
  }

  /** A segment that inserts evicts an oldest entry if it must. */
  ghost predicate Enabled(cfg: Config, c: CacheState, phase: Phase, victim: Digest) {
    phase.Storing? && cfg.ttl > 0 ==> RoomBy(c.entries, victim)
  }

  /** Records an admission in open mode in the history. */
  ghost method NoteOpening(cache: Cache.AuthCache, r: nat, next: Phase, now: nat)
    requires cache.Valid()
    modifies cache`log
    ensures cache.Valid() && cache.log == old(cache.log) + OpenEvents(r, next, now)
  {
    if OpenEvents(r, next, now) != [] {
      InertKeeps(cache.Contents(), cache.log, Opened(r, now));
    } else {
      assert cache.log + [] == cache.log;
    }
    cache.log := cache.log + OpenEvents(r, next, now);
  }

  /** Sets the flag before going on to the next phase. */
  method SetFlagThen(cache: Cache.AuthCache, ghost r: nat, value: bool, ghost next: Phase, now: nat)
    requires cache.Valid()
    modifies cache
    ensures cache.Valid() && cache.Contents() == SetFlag(old(cache.Contents()), cache.ttl, value, now)
    ensures cache.log == old(cache.log) + FlagAndOpen(cache.ttl, r, value, next, now)
  {
    cache.SetKeysExist(value, now, Some(r));
    NoteOpening(cache, r, next, now);
  }

  /** The segment on the cache object itself. */
  method RunSegment(
      cache: Cache.AuthCache, openMode: bool, keys: Keys, now: nat, ghost r: nat, phase: Phase, fails: bool)
    returns (next: Phase, ghost victim: Digest)
    requires cache.Valid()
    modifies cache
    ensures cache.Valid()
    ensures Enabled(Config(cache.ttl, openMode, cache.hash), old(cache.Contents()), phase, victim)
    ensures var o := Segment(Config(cache.ttl, openMode, cache.hash), keys, now, old(cache.Contents()), r, phase,
                             fails, victim);
            cache.Contents() == o.cache && next == o.phase && cache.log == old(cache.log) + o.events
  {
    victim := "";
    next := phase;
    ghost var start := cache.log;
    match phase {
      case Arrived(token) =>
        var known := cache.KeysExist(now);
        next := if known.Some? then Decide(openMode, token, known.value) else Counting(token);
        NoteOpening(cache, r, next, now);
      case Counting(token) =>
        var listed := Listing(keys, fails);
        InertKeeps(cache.Contents(), cache.log, Listed(r, listed, now));
        cache.log := cache.log + [Listed(r, listed, now)];
        next := Flagging(token, listed == Some(true));
      case Flagging(token, exist) =>
        next := Decide(openMode, token, exist);
        SetFlagThen(cache, r, exist, next, now);
      case Presenting(raw) =>
        var found := cache.Lookup(raw, now);
        if found.Some? {
          InertKeeps(cache.Contents(), cache.log, Hit(r, raw, found.value, now));
          cache.log := cache.log + [Hit(r, raw, found.value, now)];
          next := Admitted(Some(raw), found.value, FromCache);
        } else {
          next := Verifying(raw);
        }
      case Verifying(raw) =>
        if !fails && raw in keys {
          InertKeeps(cache.Contents(), cache.log, Verified(r, raw, keys[raw]));
          cache.log := cache.log + [Verified(r, raw, keys[raw])];
          next := Storing(raw, keys[raw]);
        } else {
          next := if openMode then Rechecking(raw) else Dropping(raw);
        }
      case Storing(raw, identity) =>
        victim := cache.Insert(raw, identity, now, r);
        next := Marking(raw, identity);
      case Marking(raw, identity) =>
        cache.SetKeysExist(true, now, Some(r));
        next := Admitted(Some(raw), identity, FromStore);
      case Rechecking(raw) =>
        var listed := Listing(keys, fails);
        InertKeeps(cache.Contents(), cache.log, Listed(r, listed, now));
        cache.log := cache.log + [Listed(r, listed, now)];
        next := Reflagging(raw, listed == Some(false));
      case Reflagging(raw, empty) =>
        next := if empty then Admitted(Some(raw), ANYONE, OpenMode) else Dropping(raw);
        SetFlagThen(cache, r, !empty, next, now);
      case Dropping(raw) =>
        cache.Remove(raw);
        next := Rejected;
      case _ =>
    }
    assert cache.log == start ==> cache.log == start + [];
  }

  // ---- a request that nothing interrupts ----

  function StoreAnswer(openMode: bool, keys: Keys, fails: bool, raw: string): Phase {
    if !fails && raw in keys then Admitted(Some(raw), keys[raw], FromStore)
    else if openMode && !fails && keys == map[] then Admitted(Some(raw), ANYONE, OpenMode)
    else Rejected
  }

  function TokenAnswer(cfg: Config, keys: Keys, now: nat, c: CacheState, fails: bool, raw: string): Phase {
    match LookupIn(c, cfg.ttl, cfg.hash(raw), now)
    case Some(identity) => Admitted(Some(raw), identity, FromCache)
    case None => StoreAnswer(cfg.openMode, keys, fails, raw)
  }

  function AnonymousAnswer(openMode: bool, keysExist: bool): Phase {
    if openMode && !keysExist then Admitted(None, ANYONE, OpenMode) else Rejected
  }

  /** What a request in this phase is answered in the end. */
  function Answer(cfg: Config, keys: Keys, now: nat, c: CacheState, fails: bool, phase: Phase): Phase {
    match phase
    case Arrived(Some(raw)) => TokenAnswer(cfg, keys, now, c, fails, raw)
    case Arrived(None) =>
      (match KeysExistIn(c, cfg.ttl, now)
       case Some(exist) => AnonymousAnswer(cfg.openMode, exist)
       case None => AnonymousAnswer(cfg.openMode, !fails && keys != map[]))
    case Counting(Some(raw)) => TokenAnswer(cfg, keys, now, c, fails, raw)
    case Counting(None) => AnonymousAnswer(cfg.openMode, !fails && keys != map[])
    case Flagging(Some(raw), _) => TokenAnswer(cfg, keys, now, c, fails, raw)
    case Flagging(None, exist) => AnonymousAnswer(cfg.openMode, exist)
    case Presenting(raw) => TokenAnswer(cfg, keys, now, c, fails, raw)
    case Verifying(raw) => StoreAnswer(cfg.openMode, keys, fails, raw)
    case Storing(raw, identity) => Admitted(Some(raw), identity, FromStore)
    case Marking(raw, identity) => Admitted(Some(raw), identity, FromStore)
    case Rechecking(raw) => if !fails && keys == map[] then Admitted(Some(raw), ANYONE, OpenMode) else Rejected
    case Reflagging(raw, empty) => if empty then Admitted(Some(raw), ANYONE, OpenMode) else Rejected
    case Dropping(_) => Rejected
    case _ => phase
  }

  /** How many segments are left at most. */
  function Left(phase: Phase): nat {
    match phase
    case Arrived(_) => 8
    case Counting(_) => 7
    case Flagging(_, _) => 6
    case Presenting(_) => 5
    case Verifying(_) => 4
    case Rechecking(_) => 3
    case Storing(_, _) => 3
    case Reflagging(_, _) => 2
    case Marking(_, _) => 2
    case Dropping(_) => 1
    case _ => 0
  }

  lemma {:induction false} SegmentKeepsAnswer(
      cfg: Config, keys: Keys, now: nat, c: CacheState, r: nat, phase: Phase, fails: bool, victim: Digest)
    requires !Final(phase)
    ensures Left(Segment(cfg, keys, now, c, r, phase, fails, victim).phase) < Left(phase)
    ensures var o := Segment(cfg, keys, now, c, r, phase, fails, victim);
            Answer(cfg, keys, now, o.cache, fails, o.phase) == Answer(cfg, keys, now, c, fails, phase)
  {
  }

  /** Whether keys exist, as a request finds out that starts in c. */
  function Known(cfg: Config, keys: Keys, now: nat, c: CacheState, fails: bool): bool {
    var cached := KeysExistIn(c, cfg.ttl, now);
    if cached.Some? then cached.value else !fails && keys != map[]
  }

  /** The flag holds this value, unless caching is off. */
  predicate Flagged(cfg: Config, now: nat, c: CacheState, value: bool) {
    cfg.ttl > 0 ==> KeysExistIn(c, cfg.ttl, now) == Some(value)
  }

  /** What an answered request leaves of the cache it found. */
  predicate Leaves(cfg: Config, now: nat, found: CacheState, c: CacheState, token: Option<string>, answer: Phase) {
    match answer
    case Admitted(_, identity, FromStore) =>
      && token.Some? && Flagged(cfg, now, c, true)
      && if cfg.ttl == 0 then c == found
         else cfg.hash(token.value) in c.entries && c.entries[cfg.hash(token.value)] == CachedKey(identity, now)
    case Admitted(_, _, FromCache) => c.entries == found.entries
    case Admitted(_, _, OpenMode) => c.entries == found.entries && Flagged(cfg, now, c, false)
    case Rejected => c.entries == if token.Some? then found.entries - {cfg.hash(token.value)} else found.entries
    case _ => false
  }

  /** What it has done so far, in this phase. */
  predicate OnTheWay(
      cfg: Config, keys: Keys, now: nat, fails: bool, found: CacheState, c: CacheState, token: Option<string>, phase: Phase)
  {
    var known := Known(cfg, keys, now, found, fails);
    match phase
    case Arrived(t) => t == token && c == found
    case Counting(t) => t == token && c == found && KeysExistIn(found, cfg.ttl, now).None?
    case Flagging(t, exist) => t == token && c == found && exist == known
    case Presenting(raw) => token == Some(raw) && Settled(cfg, now, found, c, known)
    case Verifying(raw) => token == Some(raw) && Settled(cfg, now, found, c, known)
    case Storing(raw, _) => token == Some(raw) && Settled(cfg, now, found, c, known)
    case Rechecking(raw) => token == Some(raw) && Settled(cfg, now, found, c, known)
    case Reflagging(raw, _) => token == Some(raw) && Settled(cfg, now, found, c, known)
    case Dropping(raw) => token == Some(raw) && c.entries == found.entries
    case Marking(raw, identity) =>
      && token == Some(raw)
      && if cfg.ttl == 0 then c == found
         else cfg.hash(raw) in c.entries && c.entries[cfg.hash(raw)] == CachedKey(identity, now)
    case _ => Leaves(cfg, now, found, c, token, phase)
  }

  predicate Settled(cfg: Config, now: nat, found: CacheState, c: CacheState, known: bool) {
    c.entries == found.entries && Flagged(cfg, now, c, known) && (cfg.ttl == 0 ==> c == found)
  }

  lemma {:induction false} SegmentOnTheWay(
      cfg: Config, keys: Keys, now: nat, found: CacheState, c: CacheState, r: nat, token: Option<string>, phase: Phase,
      fails: bool, victim: Digest)
    requires OnTheWay(cfg, keys, now, fails, found, c, token, phase)
    ensures var o := Segment(cfg, keys, now, c, r, phase, fails, victim);
            OnTheWay(cfg, keys, now, fails, found, o.cache, token, o.phase)
  {
  }

  /** The whole request, with nothing in between: a cached or verified key, open mode, or a refusal. */
  method Authenticate(
      cache: Cache.AuthCache, openMode: bool, keys: Keys, now: nat, ghost r: nat, token: Option<string>, fails: bool)
    returns (answer: Phase)
    requires cache.Valid()
    modifies cache
    ensures cache.Valid() && Final(answer)
    ensures token.Some? ==>
              var found := LookupIn(old(cache.Contents()), cache.ttl, cache.hash(token.value), now);
              answer == if found.Some? then Admitted(token, found.value, FromCache)
                        else StoreAnswer(openMode, keys, fails, token.value)
    ensures token.None? ==>
              var known := KeysExistIn(old(cache.Contents()), cache.ttl, now);
              answer == AnonymousAnswer(openMode, if known.Some? then known.value else !fails && keys != map[])
    ensures Leaves(Config(cache.ttl, openMode, cache.hash), now, old(cache.Contents()), cache.Contents(), token, answer)
  {
    ghost var cfg := Config(cache.ttl, openMode, cache.hash);
    answer := Arrived(token);
    while !Final(answer)
      invariant cache.Valid()
      invariant Answer(cfg, keys, now, cache.Contents(), fails, answer)
             == Answer(cfg, keys, now, old(cache.Contents()), fails, Arrived(token))
      invariant OnTheWay(cfg, keys, now, fails, old(cache.Contents()), cache.Contents(), token, answer)
      decreases Left(answer)
    {
      ghost var before, was := cache.Contents(), answer;
      ghost var victim;
      answer, victim := RunSegment(cache, openMode, keys, now, r, answer, fails);
      SegmentKeepsAnswer(cfg, keys, now, before, r, was, fails, victim);
      SegmentOnTheWay(cfg, keys, now, old(cache.Contents()), before, r, token, was, fails, victim);
    }
  }

  // ---- the whole system ----

  datatype System = System(keys: Keys, cache: CacheState, log: seq<Event>, requests: map<nat, Phase>, clock: nat)

  datatype Action =
    | Arrive(r: nat, token: Option<string>)
    | Advance(r: nat, fails: bool, victim: Digest)
    | CreateKey(raw: string, identity: Identity)  // the row of a new key
    | MarkKeys                                    // then its flag
    | DeleteKey(keyId: string)                    // the row of a deleted key
    | Invalidate(keyId: string)                   // then its cache entries
    | ClearEntries                                // the first half of a clear
    | ClearFlag                                   // and the second
    | Tick(elapsed: nat)

  const INIT := System(map[], EMPTY, [], map[], 0)

  function WithoutKey(keys: Keys, keyId: string): Keys {
    map raw | raw in keys && !IsKeyOf(keys[raw], keyId) :: keys[raw]
  }

  /** One action; one that is not enabled does nothing. */
  ghost function Apply(cfg: Config, s: System, a: Action): System {
    match a
    case Arrive(r, token) =>
      if r in s.requests && !Final(s.requests[r]) then s
      else s.(log := s.log + [Arrival(r, token)], requests := s.requests[r := Arrived(token)])
    case Advance(r, fails, victim) =>
      if r !in s.requests || !Enabled(cfg, s.cache, s.requests[r], victim) then s else
      var o := Segment(cfg, s.keys, s.clock, s.cache, r, s.requests[r], fails, victim);
      s.(cache := o.cache, log := s.log + o.events, requests := s.requests[r := o.phase])
    case CreateKey(raw, identity) =>
      if raw in s.keys then s
      else s.(keys := s.keys[raw := identity], log := s.log + [KeyCreated(raw, identity)])
    case MarkKeys =>
      s.(cache := SetFlag(s.cache, cfg.ttl, true, s.clock), log := s.log + FlagEvents(cfg.ttl, None, true, s.clock))
    case DeleteKey(keyId) => s.(keys := WithoutKey(s.keys, keyId), log := s.log + [KeyDeleted(keyId)])
    case Invalidate(keyId) => s.(cache := InvalidateIn(s.cache, keyId), log := s.log + [Invalidated(keyId)])
    case ClearEntries => s.(cache := s.cache.(entries := map[]), log := s.log + [EntriesCleared])
    case ClearFlag => s.(cache := s.cache.(keysExist := None), log := s.log + [FlagCleared])
    case Tick(elapsed) => s.(clock := s.clock + elapsed)
  }

  ghost function Run(cfg: Config, s: System, actions: seq<Action>): System
    decreases |actions|
  {
    if actions == [] then s else Run(cfg, Apply(cfg, s, actions[0]), actions[1..])
  }
}
