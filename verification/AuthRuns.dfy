/** What every run of requests and key changes keeps. */
module AuthRuns {
  import opened Outcomes
  import opened AuthHistory
  import opened AuthMiddleware
  import opened RequestEvents

  // ---- the key table's history ----

  function KeyAt(keys: Keys, raw: string): Option<Identity> {
    if raw in keys then Some(keys[raw]) else None
  }

  /** What verifying a raw key answers after a history of creations and deletions. */
  function LiveKey(log: seq<Event>, raw: string): Option<Identity> {
    if log == [] then None else
    var before := LiveKey(log[..|log| - 1], raw);
    match log[|log| - 1]
    case KeyCreated(r, identity) => if r == raw then Some(identity) else before
    case KeyDeleted(id) => if before.Some? && IsKeyOf(before.value, id) then None else before
    case _ => before
  }

  // ---- justified histories ----

  /** The history's flag says that there are no keys, and was set at most the TTL ago. */
  ghost predicate FreshlyEmpty(log: seq<Event>, ttl: nat, now: nat) {
    exists t: nat, i: nat :: LastFlag(log, false, t, i) && t <= now <= t + ttl
  }

  /** The event is one that may follow this history. */
  ghost predicate Justified(cfg: Config, before: seq<Event>, e: Event) {
    match e
    case Verified(_, raw, identity) => LiveKey(before, raw) == Some(identity)
    case Listed(_, Some(found), _) => found <==> exists raw :: LiveKey(before, raw).Some?
    case FlagSet(setter, false, at) => setter.Some? && SawNoKey(before, setter.value, at)
    case Opened(r, at) =>
      cfg.openMode && if cfg.ttl > 0 then FreshlyEmpty(before, cfg.ttl, at) else SawNoKey(before, r, at)
    case Inserted(r, key, entry) => exists raw :: WasVerified(before, r, raw, entry.identity) && cfg.hash(raw) == key
    case Hit(_, raw, identity, at) =>
      exists t: nat, i: nat ::
        LastInsert(before, cfg.hash(raw), CachedKey(identity, t), i) && t <= at <= t + cfg.ttl
    case _ => true
  }

  ghost predicate AllJustified(cfg: Config, log: seq<Event>) {
    log == [] || (AllJustified(cfg, log[..|log| - 1]) && Justified(cfg, log[..|log| - 1], log[|log| - 1]))
  }

  /** The phase is one of a request that came with this token. */
  predicate Carries(phase: Phase, token: Option<string>) {
    match phase
    case Arrived(t) => t == token
    case Counting(t) => t == token
    case Flagging(t, _) => t == token
    case Admitted(t, _, _) => t == token
    case Rejected => true
    case _ => token == Some(phase.raw)
  }

  /** Request r, in this phase, arrived with the token it carries. */
  ghost predicate CameWith(log: seq<Event>, r: nat, phase: Phase) {
    && Since(log, r) > 0
    && var e := log[Since(log, r) - 1]; ArrivalOf(e, r) && Carries(phase, e.token)
  }

  /** What it did since then led it there. */
  ghost predicate PhaseOk(cfg: Config, log: seq<Event>, now: nat, r: nat, phase: Phase) {
    match phase
    case Storing(raw, identity) => WasVerified(log, r, raw, identity)
    case Marking(raw, identity) => WasVerified(log, r, raw, identity)
    case Admitted(token, identity, FromStore) => token.Some? && WasVerified(log, r, token.value, identity)
    case Admitted(token, identity, FromCache) => token.Some? && WasHit(log, r, token.value, identity)
    case Admitted(_, identity, OpenMode) => identity == ANYONE && HasOpened(log, r)
    case Flagging(_, false) => SawNoKey(log, r, now)
    case Rechecking(_) => cfg.openMode
    case Reflagging(_, empty) => cfg.openMode && (empty ==> SawNoKey(log, r, now))
    case _ => true
  }

  ghost predicate RequestOk(cfg: Config, log: seq<Event>, now: nat, r: nat, phase: Phase) {
    CameWith(log, r, phase) && PhaseOk(cfg, log, now, r, phase)
  }

  /** Nothing in the cache is from later than now. */
  ghost predicate NotAhead(c: CacheState, now: nat) {
    && (forall k :: k in c.entries ==> c.entries[k].insertedAt <= now)
    && (c.keysExist.Some? ==> c.keysExist.value.1 <= now)
  }

  ghost predicate Sound(cfg: Config, s: System) {
    && Consistent(s.cache, s.log)
    && (forall raw :: KeyAt(s.keys, raw) == LiveKey(s.log, raw))
    && AllJustified(cfg, s.log)
    && (forall r :: r in s.requests ==> RequestOk(cfg, s.log, s.clock, r, s.requests[r]))
    && NotAhead(s.cache, s.clock)
  }

  // ---- appending to a history ----

  lemma {:induction false} JustifiedAppend(cfg: Config, log: seq<Event>, e: Event)
    requires AllJustified(cfg, log) && Justified(cfg, log, e)
    ensures AllJustified(cfg, log + [e])
  {
    Appended(log, e);
  }

  predicate KeyEvent(e: Event) {
    e.KeyCreated? || e.KeyDeleted?
  }

  lemma {:induction false} KeysAppend(keys: Keys, log: seq<Event>, e: Event)
    requires forall raw :: KeyAt(keys, raw) == LiveKey(log, raw)
    requires !KeyEvent(e)
    ensures forall raw :: KeyAt(keys, raw) == LiveKey(log + [e], raw)
  {
    Appended(log, e);
    forall raw ensures KeyAt(keys, raw) == LiveKey(log + [e], raw) {
      assert KeyAt(keys, raw) == LiveKey(log, raw);
    }
  }

  lemma {:induction false} RequestAppend(
      cfg: Config, log: seq<Event>, more: seq<Event>, now: nat, later: nat, r: nat, phase: Phase)
    requires RequestOk(cfg, log, now, r, phase) && now <= later && NoArrivalOf(more, r)
    ensures RequestOk(cfg, log + more, later, r, phase)
  {
    SinceKept(log, more, r);
    match phase
    case Storing(raw, identity) => DoneStays(log, more, r, raw, identity);
    case Marking(raw, identity) => DoneStays(log, more, r, raw, identity);
    case Admitted(token, identity, _) =>
      DoneStays(log, more, r, if token.Some? then token.value else "", identity);
    case Flagging(_, exist) => if !exist { SeenStays(log, more, r, now, later); }
    case Reflagging(_, empty) => if empty { SeenStays(log, more, r, now, later); }
    case _ =>
  }

  /** The events appended are each justified and none is about the key table. */
  ghost predicate Extends(cfg: Config, log: seq<Event>, events: seq<Event>)
    decreases |events|
  {
    events == []
    || (Justified(cfg, log, events[0]) && !KeyEvent(events[0]) && Extends(cfg, log + [events[0]], events[1..]))
  }

  lemma {:induction false} ExtendsKeeps(cfg: Config, keys: Keys, log: seq<Event>, events: seq<Event>)
    requires forall raw :: KeyAt(keys, raw) == LiveKey(log, raw)
    requires AllJustified(cfg, log) && Extends(cfg, log, events)
    ensures forall raw :: KeyAt(keys, raw) == LiveKey(log + events, raw)
    ensures AllJustified(cfg, log + events)
    decreases |events|
  {
    if events == [] {
      assert log + events == log;
    } else {
      KeysAppend(keys, log, events[0]);
      JustifiedAppend(cfg, log, events[0]);
      ExtendsKeeps(cfg, keys, log + [events[0]], events[1..]);
      assert log + [events[0]] + events[1..] == log + events;
    }
  }

  // ---- one segment ----

  lemma {:induction false} FlagAndOpenKeep(
      cfg: Config, c: CacheState, log: seq<Event>, r: nat, value: bool, now: nat, next: Phase)
    requires Consistent(c, log)
    ensures Consistent(SetFlag(c, cfg.ttl, value, now), log + FlagAndOpen(cfg.ttl, r, value, next, now))
  {
    var flagged := log + FlagEvents(cfg.ttl, Some(r), value, now);
    FlagKeeps(c, log, cfg.ttl, Some(r), value, now);
    assert log + FlagAndOpen(cfg.ttl, r, value, next, now) == flagged + OpenEvents(r, next, now);
    if OpenEvents(r, next, now) == [] {
      assert flagged + [] == flagged;
    } else {
      InertKeeps(SetFlag(c, cfg.ttl, value, now), flagged, Opened(r, now));
    }
  }

  lemma {:induction false} SegmentConsistent(
      cfg: Config, keys: Keys, now: nat, c: CacheState, log: seq<Event>, r: nat, phase: Phase, fails: bool,
      victim: Digest)
    requires Consistent(c, log) && Enabled(cfg, c, phase, victim)
    ensures var o := Segment(cfg, keys, now, c, r, phase, fails, victim); Consistent(o.cache, log + o.events)
  {
    var o := Segment(cfg, keys, now, c, r, phase, fails, victim);
    if o.events == [] {
      assert log + o.events == log;
    }
    match phase
    case Arrived(_) =>
      if o.events != [] {
        InertKeeps(c, log, Opened(r, now));
      }
    case Flagging(_, exist) => FlagAndOpenKeep(cfg, c, log, r, exist, now, o.phase);
    case Storing(raw, identity) =>
      InsertKeeps(c, log, cfg.ttl, r, cfg.hash(raw), CachedKey(identity, now), victim);
    case Marking(_, _) => FlagKeeps(c, log, cfg.ttl, Some(r), true, now);
    case Reflagging(_, empty) => FlagAndOpenKeep(cfg, c, log, r, !empty, now, o.phase);
    case Dropping(raw) => DropKeeps(c, log, Removed(cfg.hash(raw)));
    case Counting(_) => InertKeeps(c, log, o.events[0]);
    case Rechecking(_) => InertKeeps(c, log, o.events[0]);
    case Presenting(_) =>
      if o.events != [] {
        InertKeeps(c, log, o.events[0]);
      }
    case Verifying(_) =>
      if o.events != [] {
        InertKeeps(c, log, o.events[0]);
      }
    case _ =>
  }

  lemma {:induction false} LookupJustified(cfg: Config, s: System, r: nat, raw: string, identity: Identity)
    requires Sound(cfg, s) && LookupIn(s.cache, cfg.ttl, cfg.hash(raw), s.clock) == Some(identity)
    ensures Justified(cfg, s.log, Hit(r, raw, identity, s.clock))
  {
    var entry := s.cache.entries[cfg.hash(raw)];
    assert EntryAt(s.cache, cfg.hash(raw)) == Holds(s.log, cfg.hash(raw));
    HoldsExactly(s.log, cfg.hash(raw), entry);
    var i: nat :| LastInsert(s.log, cfg.hash(raw), entry, i);
    assert entry == CachedKey(identity, entry.insertedAt);
  }

  lemma {:induction false} ListingJustified(cfg: Config, s: System, r: nat, fails: bool)
    requires Sound(cfg, s)
    ensures Justified(cfg, s.log, Listed(r, Listing(s.keys, fails), s.clock))
  {
    if s.keys != map[] {
      var raw :| raw in s.keys;
      assert KeyAt(s.keys, raw) == LiveKey(s.log, raw);
    } else {
      forall raw ensures LiveKey(s.log, raw).None? {
        assert KeyAt(s.keys, raw) == LiveKey(s.log, raw);
      }
    }
  }

  /** A cached flag that still counts was set at most the TTL ago. */
  lemma {:induction false} FlagJustified(cfg: Config, s: System)
    requires Sound(cfg, s) && KeysExistIn(s.cache, cfg.ttl, s.clock) == Some(false)
    ensures cfg.ttl > 0 && FreshlyEmpty(s.log, cfg.ttl, s.clock)
  {
    FlagExactly(s.cache, s.log, cfg.ttl, s.clock, false);
    var t: nat, i: nat :| LastFlag(s.log, false, t, i) && s.clock - t <= cfg.ttl;
    FlagOfExactly(s.log, false, t);
  }

  /** Setting the flag after an empty listing and admitting at once are both justified. */
  lemma {:induction false} OpeningExtends(cfg: Config, log: seq<Event>, r: nat, value: bool, now: nat, next: Phase)
    requires !value ==> SawNoKey(log, r, now)
    requires OpenEvents(r, next, now) != [] ==> cfg.openMode && !value
    ensures Extends(cfg, log, FlagAndOpen(cfg.ttl, r, value, next, now))
  {
    var flags, opens := FlagEvents(cfg.ttl, Some(r), value, now), OpenEvents(r, next, now);
    if opens != [] {
      if cfg.ttl > 0 {
        assert LastFlag(log + flags, false, now, |log|);
      } else {
        assert log + flags == log;
      }
      assert Justified(cfg, log + flags, Opened(r, now));
      assert Extends(cfg, log + flags, opens);
    }
    if cfg.ttl > 0 {
      assert (flags + opens)[0] == FlagSet(Some(r), value, now) && (flags + opens)[1..] == opens;
    } else {
      assert flags + opens == opens && log + flags == log;
    }
  }

  lemma {:induction false} InsertJustified(
      cfg: Config, log: seq<Event>, c: CacheState, r: nat, raw: string, identity: Identity, now: nat, victim: Digest)
    requires WasVerified(log, r, raw, identity)
    ensures Extends(cfg, log, InsertEvents(c, cfg.ttl, r, cfg.hash(raw), CachedKey(identity, now), victim))
  {
    var e := Inserted(r, cfg.hash(raw), CachedKey(identity, now));
    assert Justified(cfg, log, e);
    var longer := log + [Evicted(victim)];
    DoneStays(log, [Evicted(victim)], r, raw, identity);
    assert Justified(cfg, longer, e);
    assert ([Evicted(victim)] + [e])[1..] == [e];
  }

  lemma {:induction false} SegmentExtends(cfg: Config, s: System, r: nat, phase: Phase, fails: bool, victim: Digest)
    requires Sound(cfg, s) && RequestOk(cfg, s.log, s.clock, r, phase)
    ensures Extends(cfg, s.log, Segment(cfg, s.keys, s.clock, s.cache, r, phase, fails, victim).events)
  {
    match phase
    case Arrived(_) =>
      if KeysExistIn(s.cache, cfg.ttl, s.clock) == Some(false) {
        FlagJustified(cfg, s);
      }
    case Flagging(token, exist) => OpeningExtends(cfg, s.log, r, exist, s.clock, Decide(cfg.openMode, token, exist));
    case Reflagging(raw, empty) =>
      var next := if empty then Admitted(Some(raw), ANYONE, OpenMode) else Dropping(raw);
      OpeningExtends(cfg, s.log, r, !empty, s.clock, next);
    case Counting(_) => ListingJustified(cfg, s, r, fails);
    case Rechecking(_) => ListingJustified(cfg, s, r, fails);
    case Presenting(raw) =>
      var found := LookupIn(s.cache, cfg.ttl, cfg.hash(raw), s.clock);
      if found.Some? {
        LookupJustified(cfg, s, r, raw, found.value);
      }
    case Verifying(raw) =>
      assert KeyAt(s.keys, raw) == LiveKey(s.log, raw);
    case Storing(raw, identity) =>
      InsertJustified(cfg, s.log, s.cache, r, raw, identity, s.clock, victim);
    case _ =>
  }

  lemma {:induction false} SegmentQuiet(
      cfg: Config, keys: Keys, now: nat, c: CacheState, r: nat, phase: Phase, fails: bool, victim: Digest, other: nat)
    ensures NoArrivalOf(Segment(cfg, keys, now, c, r, phase, fails, victim).events, other)
  {
  }

  /** A segment leaves the request in a phase that carries the same token. */
  lemma {:induction false} SegmentCarries(
      cfg: Config, keys: Keys, now: nat, c: CacheState, r: nat, phase: Phase, fails: bool, victim: Digest,
      token: Option<string>)
    requires Carries(phase, token)
    ensures Carries(Segment(cfg, keys, now, c, r, phase, fails, victim).phase, token)
  {
  }

  lemma {:induction false} SegmentPhase(cfg: Config, s: System, r: nat, phase: Phase, fails: bool, victim: Digest)
    requires Sound(cfg, s) && RequestOk(cfg, s.log, s.clock, r, phase)
    ensures var o := Segment(cfg, s.keys, s.clock, s.cache, r, phase, fails, victim);
            PhaseOk(cfg, s.log + o.events, s.clock, r, o.phase)
  {
    var o := Segment(cfg, s.keys, s.clock, s.cache, r, phase, fails, victim);
    SegmentQuiet(cfg, s.keys, s.clock, s.cache, r, phase, fails, victim, r);
    if o.events != [] {
      LastIsRecent(s.log, o.events, r);
    }
    match phase
    case Storing(raw, identity) => DoneStays(s.log, o.events, r, raw, identity);
    case Marking(raw, identity) => DoneStays(s.log, o.events, r, raw, identity);
    case Admitted(_, _, _) => RequestAppend(cfg, s.log, o.events, s.clock, s.clock, r, phase);
    case _ =>
  }

  lemma {:induction false} SegmentRequest(cfg: Config, s: System, r: nat, phase: Phase, fails: bool, victim: Digest)
    requires Sound(cfg, s) && RequestOk(cfg, s.log, s.clock, r, phase)
    ensures var o := Segment(cfg, s.keys, s.clock, s.cache, r, phase, fails, victim);
            RequestOk(cfg, s.log + o.events, s.clock, r, o.phase)
  {
    var o := Segment(cfg, s.keys, s.clock, s.cache, r, phase, fails, victim);
    SegmentPhase(cfg, s, r, phase, fails, victim);
    SegmentQuiet(cfg, s.keys, s.clock, s.cache, r, phase, fails, victim, r);
    SinceKept(s.log, o.events, r);
    SegmentCarries(cfg, s.keys, s.clock, s.cache, r, phase, fails, victim, s.log[Since(s.log, r) - 1].token);
  }

  // ---- every step and every run ----

  /** A change of cache and history that a step makes outside the key table. */
  lemma {:induction false} ChangeSound(cfg: Config, s: System, cache: CacheState, events: seq<Event>)
    requires Sound(cfg, s) && Consistent(cache, s.log + events) && Extends(cfg, s.log, events)
    requires NotAhead(cache, s.clock) && forall r :: r in s.requests ==> NoArrivalOf(events, r)
    ensures Sound(cfg, s.(cache := cache, log := s.log + events))
  {
    ExtendsKeeps(cfg, s.keys, s.log, events);
    forall r | r in s.requests ensures RequestOk(cfg, s.log + events, s.clock, r, s.requests[r]) {
      RequestAppend(cfg, s.log, events, s.clock, s.clock, r, s.requests[r]);
    }
  }

  lemma {:induction false} KeysSound(cfg: Config, s: System, keys: Keys, e: Event)
    requires Sound(cfg, s) && KeyEvent(e)
    requires e.KeyCreated? ==> keys == s.keys[e.raw := e.identity]
    requires e.KeyDeleted? ==> keys == WithoutKey(s.keys, e.keyId)
    ensures Sound(cfg, s.(keys := keys, log := s.log + [e]))
  {
    Appended(s.log, e);
    InertKeeps(s.cache, s.log, e);
    JustifiedAppend(cfg, s.log, e);
    forall raw ensures KeyAt(keys, raw) == LiveKey(s.log + [e], raw) {
      assert KeyAt(s.keys, raw) == LiveKey(s.log, raw);
    }
    forall r | r in s.requests ensures RequestOk(cfg, s.log + [e], s.clock, r, s.requests[r]) {
      RequestAppend(cfg, s.log, [e], s.clock, s.clock, r, s.requests[r]);
    }
  }

  lemma {:induction false} AdvanceSound(cfg: Config, s: System, r: nat, fails: bool, victim: Digest)
    requires Sound(cfg, s) && r in s.requests && Enabled(cfg, s.cache, s.requests[r], victim)
    ensures Sound(cfg, Apply(cfg, s, Advance(r, fails, victim)))
  {
    var phase := s.requests[r];
    var o := Segment(cfg, s.keys, s.clock, s.cache, r, phase, fails, victim);
    SegmentConsistent(cfg, s.keys, s.clock, s.cache, s.log, r, phase, fails, victim);
    SegmentExtends(cfg, s, r, phase, fails, victim);
    SegmentRequest(cfg, s, r, phase, fails, victim);
    forall other | other in s.requests ensures NoArrivalOf(o.events, other) {
      SegmentQuiet(cfg, s.keys, s.clock, s.cache, r, phase, fails, victim, other);
    }
    ChangeSound(cfg, s, o.cache, o.events);
  }

  lemma {:induction false} ArriveSound(cfg: Config, s: System, r: nat, token: Option<string>)
    requires Sound(cfg, s)
    ensures Sound(cfg, s.(log := s.log + [Arrival(r, token)], requests := s.requests[r := Arrived(token)]))
  {
    var e := Arrival(r, token);
    InertKeeps(s.cache, s.log, e);
    ExtendsKeeps(cfg, s.keys, s.log, [e]);
    Appended(s.log, e);
    assert Since(s.log + [e], r) == |s.log| + 1;
    forall other | other in s.requests && other != r
      ensures RequestOk(cfg, s.log + [e], s.clock, other, s.requests[other])
    {
      RequestAppend(cfg, s.log, [e], s.clock, s.clock, other, s.requests[other]);
    }
  }

  lemma {:induction false} TickSound(cfg: Config, s: System, elapsed: nat)
    requires Sound(cfg, s)
    ensures Sound(cfg, s.(clock := s.clock + elapsed))
  {
    assert s.log + [] == s.log;
    forall r | r in s.requests ensures RequestOk(cfg, s.log, s.clock + elapsed, r, s.requests[r]) {
      RequestAppend(cfg, s.log, [], s.clock, s.clock + elapsed, r, s.requests[r]);
    }
  }

  /** What the server does to the cache beside the requests. */
  predicate CacheAction(a: Action) {
    a.MarkKeys? || a.Invalidate? || a.ClearEntries? || a.ClearFlag?
  }

  lemma {:induction false} CacheActionSound(cfg: Config, s: System, a: Action)
    requires Sound(cfg, s) && CacheAction(a)
    ensures Sound(cfg, Apply(cfg, s, a))
  {
    match a
    case MarkKeys =>
      FlagKeeps(s.cache, s.log, cfg.ttl, None, true, s.clock);
      ChangeSound(cfg, s, SetFlag(s.cache, cfg.ttl, true, s.clock), FlagEvents(cfg.ttl, None, true, s.clock));
    case Invalidate(keyId) =>
      InvalidateKeeps(s.cache, s.log, keyId);
      ChangeSound(cfg, s, InvalidateIn(s.cache, keyId), [Invalidated(keyId)]);
    case ClearEntries =>
      ClearEntriesKeeps(s.cache, s.log);
      ChangeSound(cfg, s, s.cache.(entries := map[]), [EntriesCleared]);
    case ClearFlag =>
      ClearFlagKeeps(s.cache, s.log);
      ChangeSound(cfg, s, s.cache.(keysExist := None), [FlagCleared]);
  }

  lemma {:induction false} StepSound(cfg: Config, s: System, a: Action)
    requires Sound(cfg, s)
    ensures Sound(cfg, Apply(cfg, s, a))
  {
    match a
    case Arrive(r, token) =>
      if r !in s.requests || Final(s.requests[r]) {
        ArriveSound(cfg, s, r, token);
      }
    case Advance(r, fails, victim) =>
      if r in s.requests && Enabled(cfg, s.cache, s.requests[r], victim) {
        AdvanceSound(cfg, s, r, fails, victim);
      }
    case CreateKey(raw, identity) =>
      if raw !in s.keys {
        KeysSound(cfg, s, s.keys[raw := identity], KeyCreated(raw, identity));
      }
    case DeleteKey(keyId) => KeysSound(cfg, s, WithoutKey(s.keys, keyId), KeyDeleted(keyId));
    case Tick(elapsed) => TickSound(cfg, s, elapsed);
    case _ => CacheActionSound(cfg, s, a);
  }

  lemma {:induction false} RunSound(cfg: Config, s: System, actions: seq<Action>)
    requires Sound(cfg, s)
    ensures Sound(cfg, Run(cfg, s, actions))
    decreases |actions|
  {
    if actions != [] {
      StepSound(cfg, s, actions[0]);
      RunSound(cfg, Apply(cfg, s, actions[0]), actions[1..]);
    }
  }

  // ---- what a cache hit proves ----

  lemma {:induction false} JustifiedAt(cfg: Config, log: seq<Event>, p: nat)
    requires AllJustified(cfg, log) && p < |log|
    ensures Justified(cfg, log[..p], log[p]) && AllJustified(cfg, log[..p])
  {
    if p < |log| - 1 {
      var before := log[..|log| - 1];
      JustifiedAt(cfg, before, p);
      assert before[..p] == log[..p] && before[p] == log[p];
    }
  }

  /** Event v, since r arrived, is r's real verification of raw with that answer. */
  ghost predicate ReallyVerified(log: seq<Event>, r: nat, v: nat, raw: string, identity: Identity) {
    SinceArrival(log, r, v) && log[v] == Verified(r, raw, identity) && LiveKey(log[..v], raw) == Some(identity)
  }

  lemma {:induction false} VerifiedReally(cfg: Config, log: seq<Event>, r: nat, raw: string, identity: Identity)
    returns (v: nat)
    requires AllJustified(cfg, log) && WasVerified(log, r, raw, identity)
    ensures ReallyVerified(log, r, v, raw, identity)
  {
    v :| SinceArrival(log, r, v) && log[v] == Verified(r, raw, identity);
    JustifiedAt(cfg, log, v);
  }

  /**
   Events v, i and p are a real verification of a raw key, the insertion of its answer by the
   request that had it verified since it arrived, and a hit on it.
   */
  ghost predicate HitChain(cfg: Config, log: seq<Event>, p: nat, v: nat, i: nat, t: nat) {
    && v < i < p < |log| && log[p].Hit? && log[i].Inserted?
    && var Hit(_, raw, identity, at) := log[p];
      && ReallyVerified(log[..i], log[i].r, v, raw, identity)
      && log[i].key == cfg.hash(raw) && log[i].entry == CachedKey(identity, t)
      && (forall j :: i < j < p ==> !Touches(log[j], cfg.hash(raw), identity))
      && t <= at <= t + cfg.ttl
  }

  lemma {:induction false} InsertionVerified(cfg: Config, log: seq<Event>, i: nat, raw: string) returns (v: nat)
    requires forall a, b :: cfg.hash(a) == cfg.hash(b) ==> a == b
    requires AllJustified(cfg, log) && i < |log| && log[i].Inserted? && log[i].key == cfg.hash(raw)
    ensures ReallyVerified(log[..i], log[i].r, v, raw, log[i].entry.identity)
  {
    JustifiedAt(cfg, log, i);
    var source :| WasVerified(log[..i], log[i].r, source, log[i].entry.identity) && cfg.hash(source) == cfg.hash(raw);
    v := VerifiedReally(cfg, log[..i], log[i].r, raw, log[i].entry.identity);
  }

  lemma {:induction false} HitChained(cfg: Config, log: seq<Event>, p: nat) returns (v: nat, i: nat, t: nat)
    requires forall a, b :: cfg.hash(a) == cfg.hash(b) ==> a == b
    requires AllJustified(cfg, log) && p < |log| && log[p].Hit?
    ensures HitChain(cfg, log, p, v, i, t)
  {
    var Hit(_, raw, identity, at) := log[p];
    JustifiedAt(cfg, log, p);
    t, i :| LastInsert(log[..p], cfg.hash(raw), CachedKey(identity, t), i) && t <= at <= t + cfg.ttl;
    v := InsertionVerified(cfg, log, i, raw);
    forall j | i < j < p ensures !Touches(log[j], cfg.hash(raw), identity) {
      assert log[..p][j] == log[j];
    }
  }

  /**
   In every run, every hit repeats the answer of a real verification of that raw key, cached at
   most the TTL ago, and since then nothing inserted, removed, evicted, invalidated or cleared it.
   */
  lemma {:induction false} HitJustified(cfg: Config, actions: seq<Action>, p: nat)
    requires forall a, b :: cfg.hash(a) == cfg.hash(b) ==> a == b
    requires var log := Run(cfg, INIT, actions).log; p < |log| && log[p].Hit?
    ensures exists v: nat, i: nat, t: nat :: HitChain(cfg, Run(cfg, INIT, actions).log, p, v, i, t)
  {
    RunSound(cfg, INIT, actions);
    var v, i, t := HitChained(cfg, Run(cfg, INIT, actions).log, p);
  }

  // ---- what an admission proves ----

  /** Since r arrived, it listed the keys, no later than now; that failed, or there was no key. */
  ghost predicate EmptyHanded(log: seq<Event>, r: nat, now: nat) {
    exists l: nat :: SinceArrival(log, r, l) && FoundNoKey(log[l], r, now) && (log[l].found.Some? ==> NoKeys(log[..l]))
  }

  ghost predicate NoKeys(log: seq<Event>) {
    forall raw :: LiveKey(log, raw).None?
  }

  lemma {:induction false} SeenEmpty(cfg: Config, log: seq<Event>, r: nat, now: nat)
    requires AllJustified(cfg, log) && SawNoKey(log, r, now)
    ensures EmptyHanded(log, r, now)
  {
    var l: nat :| SinceArrival(log, r, l) && FoundNoKey(log[l], r, now);
    JustifiedAt(cfg, log, l);
  }

  /**
   Event p is an admission in open mode. With caching on, the last event before it that set or
   cleared the flag set it to false, at most the TTL ago, and the request that did so had come
   back from its own listing empty-handed. With caching off the admitted request itself had.
   */
  ghost predicate OpeningChain(cfg: Config, log: seq<Event>, p: nat) {
    && p < |log| && log[p].Opened?
    && if cfg.ttl == 0 then EmptyHanded(log[..p], log[p].r, log[p].at)
       else exists t: nat, i: nat ::
         LastFlag(log[..p], false, t, i) && t <= log[p].at <= t + cfg.ttl && SetEmptyHanded(log, i)
  }

  ghost predicate SetEmptyHanded(log: seq<Event>, i: nat) {
    && i < |log| && log[i].FlagSet? && log[i].setter.Some?
    && EmptyHanded(log[..i], log[i].setter.value, log[i].at)
  }

  lemma {:induction false} OpeningJustified(cfg: Config, log: seq<Event>, p: nat)
    requires AllJustified(cfg, log) && p < |log| && log[p].Opened?
    ensures cfg.openMode && OpeningChain(cfg, log, p)
  {
    JustifiedAt(cfg, log, p);
    if cfg.ttl > 0 {
      var t: nat, i: nat :| LastFlag(log[..p], false, t, i) && t <= log[p].at <= t + cfg.ttl;
      JustifiedAt(cfg, log, i);
      SeenEmpty(cfg, log[..i], log[i].setter.value, t);
    } else {
      SeenEmpty(cfg, log[..p], log[p].r, log[p].at);
    }
  }

  /** What an admission of r rests on, since it arrived. */
  ghost predicate RestsOn(cfg: Config, log: seq<Event>, r: nat, token: Option<string>, identity: Identity, via: Via) {
    match via
    case OpenMode =>
      && cfg.openMode && identity == ANYONE
      && exists p: nat :: SinceArrival(log, r, p) && OpeningOf(log[p], r) && OpeningChain(cfg, log, p)
    case FromStore => token.Some? && exists v: nat :: ReallyVerified(log, r, v, token.value, identity)
    case FromCache =>
      && token.Some?
      && exists p: nat, v: nat, i: nat, t: nat ::
           SinceArrival(log, r, p) && HitBy(log[p], r, token.value, identity) && HitChain(cfg, log, p, v, i, t)
  }

  /**
   In every run, every admitted request last arrived with the token it is admitted for, and since
   then that token was really verified as its identity, or hit an entry that goes back to such a
   verification, or it was let in by open mode on a flag set at most the TTL before.
   */
  lemma {:induction false} AdmissionJustified(cfg: Config, actions: seq<Action>, r: nat)
    requires forall a, b :: cfg.hash(a) == cfg.hash(b) ==> a == b
    requires var s := Run(cfg, INIT, actions); r in s.requests && s.requests[r].Admitted?
    ensures var s := Run(cfg, INIT, actions);
            var Admitted(token, identity, via) := s.requests[r];
            && Since(s.log, r) > 0 && s.log[Since(s.log, r) - 1] == Arrival(r, token)
            && RestsOn(cfg, s.log, r, token, identity, via)
  {
    RunSound(cfg, INIT, actions);
    var s := Run(cfg, INIT, actions);
    var Admitted(token, identity, via) := s.requests[r];
    assert RequestOk(cfg, s.log, s.clock, r, s.requests[r]);
    match via
    case OpenMode =>
      var p: nat :| SinceArrival(s.log, r, p) && OpeningOf(s.log[p], r);
      OpeningJustified(cfg, s.log, p);
    case FromStore =>
      var v := VerifiedReally(cfg, s.log, r, token.value, identity);
    case FromCache =>
      var p: nat :| SinceArrival(s.log, r, p) && HitBy(s.log[p], r, token.value, identity);
      var v, i, t := HitChained(cfg, s.log, p);
  }
}
