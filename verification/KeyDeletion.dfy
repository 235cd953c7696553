/**
 How final a key deletion is. Once the row and the cache entries of a key id are gone, the cache
 answers for it again exactly when some request had verified the key before the row went and
 had not stored the answer yet when the entries went.
 */
module KeyDeletion {
  import opened Outcomes
  import opened AuthHistory
  import opened AuthMiddleware
  import opened RunHistory

  ghost predicate RowGone(s: System, keyId: string) {
    forall raw :: raw in s.keys ==> !IsKeyOf(s.keys[raw], keyId)
  }

  /** Neither the key table nor the cache knows the key id. */
  ghost predicate Gone(s: System, keyId: string) {
    && RowGone(s, keyId)
    && (forall k :: k in s.cache.entries ==> !IsKeyOf(s.cache.entries[k].identity, keyId))
  }

  /** A request that verified the key and is about to cache the answer. */
  predicate HoldsAnswer(phase: Phase, keyId: string) {
    phase.Storing? && IsKeyOf(phase.identity, keyId)
  }

  ghost predicate NobodyHolds(s: System, keyId: string) {
    forall r :: r in s.requests ==> !HoldsAnswer(s.requests[r], keyId)
  }

  predicate Recreates(a: Action, keyId: string) {
    a.CreateKey? && IsKeyOf(a.identity, keyId)
  }

  /** The actions that do not create the key id again. */
  function Otherwise(keyId: string): Action -> bool {
    (a: Action) => !Recreates(a, keyId)
  }

  ghost predicate NeverRecreates(actions: seq<Action>, keyId: string) {
    Within(actions, Otherwise(keyId))
  }

  /** The events that are cache hits on the key id. */
  function HitOf(keyId: string): Event -> bool {
    (e: Event) => e.Hit? && IsKeyOf(e.identity, keyId)
  }

  predicate HitOn(events: seq<Event>, keyId: string) {
    Occurs(events, HitOf(keyId))
  }

  // ---- nobody holds an answer: the deletion is final ----

  /** Nothing the system can still do brings the key id back into the cache. */
  ghost predicate IsFinal(cfg: Config, s: System, keyId: string) {
    Gone(s, keyId) && (cfg.ttl > 0 ==> NobodyHolds(s, keyId))
  }

  lemma {:induction false} SegmentStaysGone(cfg: Config, s: System, r: nat, fails: bool, victim: Digest, keyId: string)
    requires IsFinal(cfg, s, keyId) && r in s.requests
    ensures var o := Segment(cfg, s.keys, s.clock, s.cache, r, s.requests[r], fails, victim);
            && (forall k :: k in o.cache.entries ==> !IsKeyOf(o.cache.entries[k].identity, keyId))
            && (cfg.ttl > 0 ==> !HoldsAnswer(o.phase, keyId))
  {
  }

  lemma {:induction false} SegmentHitsNothing(
      cfg: Config, s: System, r: nat, fails: bool, victim: Digest, keyId: string)
    requires IsFinal(cfg, s, keyId) && r in s.requests
    ensures !HitOn(Segment(cfg, s.keys, s.clock, s.cache, r, s.requests[r], fails, victim).events, keyId)
  {
  }

  lemma {:induction false} StepStaysGone(cfg: Config, s: System, a: Action, keyId: string)
    requires IsFinal(cfg, s, keyId) && !Recreates(a, keyId)
    ensures IsFinal(cfg, Apply(cfg, s, a), keyId) && !HitOn(StepEvents(cfg, s, a), keyId)
  {
    if a.Advance? && a.r in s.requests {
      SegmentStaysGone(cfg, s, a.r, a.fails, a.victim, keyId);
      SegmentHitsNothing(cfg, s, a.r, a.fails, a.victim, keyId);
      var o := Segment(cfg, s.keys, s.clock, s.cache, a.r, s.requests[a.r], a.fails, a.victim);
      if Enabled(cfg, s.cache, s.requests[a.r], a.victim) {
        assert StepEvents(cfg, s, a) == o.events;
      } else {
        assert StepEvents(cfg, s, a) == [];
      }
    }
  }

  /** No run adds a hit on it to the history. */
  lemma {:induction false} RunStaysGone(cfg: Config, s: System, actions: seq<Action>, keyId: string)
    requires IsFinal(cfg, s, keyId) && NeverRecreates(actions, keyId)
    ensures IsFinal(cfg, Run(cfg, s, actions), keyId) && !HitOn(Added(cfg, s, actions), keyId)
    decreases |actions|
  {
    if actions != [] {
      var next := Apply(cfg, s, actions[0]);
      assert Otherwise(keyId)(actions[0]);
      StepStaysGone(cfg, s, actions[0], keyId);
      RunStaysGone(cfg, next, actions[1..], keyId);
      assert [actions[0]] + actions[1..] == actions;
      AddedFirst(cfg, s, actions[0], actions[1..]);
      OccursEither(StepEvents(cfg, s, actions[0]), Added(cfg, next, actions[1..]), HitOf(keyId));
    }
  }

  // ---- somebody holds an answer: the key id can come back ----

  /** Some run that does not create the key id again adds a hit on it to the history. */
  ghost predicate CanHit(cfg: Config, s: System, keyId: string) {
    Can(cfg, s, Otherwise(keyId), HitOf(keyId))
  }

  lemma {:induction false} HitLater(cfg: Config, s: System, a: Action, keyId: string)
    requires !Recreates(a, keyId) && CanHit(cfg, Apply(cfg, s, a), keyId)
    ensures CanHit(cfg, s, keyId)
  {
    CanLater(cfg, s, a, Otherwise(keyId), HitOf(keyId));
  }

  /** The cache answers raw with an identity of the key id. */
  predicate Answers(cfg: Config, s: System, raw: string, keyId: string) {
    var found := LookupIn(s.cache, cfg.ttl, cfg.hash(raw), s.clock);
    found.Some? && IsKeyOf(found.value, keyId)
  }

  lemma {:induction false} PresentingHits(cfg: Config, s: System, r: nat, raw: string, keyId: string)
    requires Answers(cfg, s, raw, keyId) && r in s.requests && s.requests[r] == Presenting(raw)
    ensures CanHit(cfg, s, keyId)
  {
    var a := Advance(r, false, "");
    var identity := LookupIn(s.cache, cfg.ttl, cfg.hash(raw), s.clock).value;
    assert Apply(cfg, s, a).log == s.log + [Hit(r, raw, identity, s.clock)];
    var events := StepEvents(cfg, s, a);
    assert events == [Hit(r, raw, identity, s.clock)];
    assert HitOf(keyId)(events[0]);
    CanNow(cfg, s, a, Otherwise(keyId), HitOf(keyId));
  }

  lemma {:induction false} ArrivedHits(cfg: Config, s: System, r: nat, raw: string, keyId: string)
    requires Answers(cfg, s, raw, keyId) && KeysExistIn(s.cache, cfg.ttl, s.clock).Some?
    requires r in s.requests && s.requests[r] == Arrived(Some(raw))
    ensures CanHit(cfg, s, keyId)
  {
    var a := Advance(r, false, "");
    PresentingHits(cfg, Apply(cfg, s, a), r, raw, keyId);
    HitLater(cfg, s, a, keyId);
  }

  lemma {:induction false} AdmittedHits(cfg: Config, s: System, r: nat, raw: string, keyId: string)
    requires Answers(cfg, s, raw, keyId) && KeysExistIn(s.cache, cfg.ttl, s.clock).Some?
    requires r in s.requests && s.requests[r].Admitted?
    ensures CanHit(cfg, s, keyId)
  {
    var a := Arrive(r, Some(raw));
    ArrivedHits(cfg, Apply(cfg, s, a), r, raw, keyId);
    HitLater(cfg, s, a, keyId);
  }

  lemma {:induction false} MarkingHits(cfg: Config, s: System, r: nat, raw: string, identity: Identity, keyId: string)
    requires cfg.ttl > 0 && Answers(cfg, s, raw, keyId) && r in s.requests && s.requests[r] == Marking(raw, identity)
    ensures CanHit(cfg, s, keyId)
  {
    var a := Advance(r, false, "");
    AdmittedHits(cfg, Apply(cfg, s, a), r, raw, keyId);
    HitLater(cfg, s, a, keyId);
  }

  lemma {:induction false} OldestExists(entries: Entries) returns (victim: Digest)
    requires entries != map[]
    ensures victim in entries
    ensures forall k :: k in entries ==> entries[victim].insertedAt <= entries[k].insertedAt
    decreases |entries|
  {
    var k :| k in entries;
    var rest := entries - {k};
    FewerEntries(entries, k);
    if rest == map[] {
      assert forall other :: other in entries && other != k ==> other in rest;
      victim := k;
    } else {
      victim := OldestExists(rest);
      assert forall other :: other in entries && other != k ==> other in rest && rest[other] == entries[other];
      if entries[k].insertedAt < entries[victim].insertedAt {
        victim := k;
      }
    }
  }

  lemma {:induction false} StoringHits(cfg: Config, s: System, r: nat, keyId: string)
    requires cfg.ttl > 0 && r in s.requests && HoldsAnswer(s.requests[r], keyId)
    ensures CanHit(cfg, s, keyId)
  {
    var Storing(raw, identity) := s.requests[r];
    var victim := "";
    if |s.cache.entries| >= MAX_ENTRIES {
      victim := OldestExists(s.cache.entries);
    }
    var a := Advance(r, false, victim);
    assert RoomBy(s.cache.entries, victim);
    assert Answers(cfg, Apply(cfg, s, a), raw, keyId);
    MarkingHits(cfg, Apply(cfg, s, a), r, raw, identity, keyId);
    HitLater(cfg, s, a, keyId);
  }

  /**
   After the key id's row and entries are gone, and as long as it is not created again, the
   cache can answer for it exactly when caching is on and a request still holds its answer.
   */
  lemma {:induction false} LateHitExactly(cfg: Config, s: System, keyId: string)
    requires Gone(s, keyId)
    ensures CanHit(cfg, s, keyId) <==> cfg.ttl > 0 && !NobodyHolds(s, keyId)
  {
    if cfg.ttl > 0 && !NobodyHolds(s, keyId) {
      var r :| r in s.requests && HoldsAnswer(s.requests[r], keyId);
      StoringHits(cfg, s, r, keyId);
    } else {
      forall actions | Within(actions, Otherwise(keyId)) ensures !Occurs(Added(cfg, s, actions), HitOf(keyId)) {
        RunStaysGone(cfg, s, actions, keyId);
      }
    }
  }

  lemma {:induction false} RowStaysGone(cfg: Config, s: System, actions: seq<Action>, keyId: string)
    requires RowGone(s, keyId) && NeverRecreates(actions, keyId)
    ensures RowGone(Run(cfg, s, actions), keyId)
    decreases |actions|
  {
    if actions != [] {
      assert !Recreates(actions[0], keyId);
      assert RowGone(Apply(cfg, s, actions[0]), keyId);
      RowStaysGone(cfg, Apply(cfg, s, actions[0]), actions[1..], keyId);
    }
  }

  /** Deleting the row and then the entries makes the key id gone, whatever runs in between. */
  lemma {:induction false} DeletionRemoves(cfg: Config, s: System, between: seq<Action>, keyId: string)
    requires NeverRecreates(between, keyId)
    ensures Gone(Apply(cfg, Run(cfg, Apply(cfg, s, DeleteKey(keyId)), between), Invalidate(keyId)), keyId)
  {
    RowStaysGone(cfg, Apply(cfg, s, DeleteKey(keyId)), between, keyId);
  }
}
