/** A run from the start in which a deleted key is answered from the cache. */
module LateHit {
  import opened Outcomes
  import opened AuthHistory
  import opened AuthMiddleware
  import opened RunHistory
  import opened KeyDeletion

  /** A key is created, and a request presenting it has it verified. */
  function VerifyingRun(raw: string, identity: Identity): seq<Action> {
    [CreateKey(raw, identity), Arrive(0, Some(raw))] + [GO, GO, GO] + [GO, GO]
  }

  /** Meanwhile the key is deleted, row and cache entries. */
  function DeletingRun(raw: string, identity: Identity, keyId: string): seq<Action> {
    VerifyingRun(raw, identity) + [DeleteKey(keyId), Invalidate(keyId)]
  }

  /** The key's row is there, nothing is cached, and the request is in this phase. */
  ghost predicate Reaches(s: System, raw: string, identity: Identity, phase: Phase) {
    && s.keys == map[raw := identity] && s.cache.entries == map[]
    && 0 in s.requests && s.requests[0] == phase
  }

  /** Finding the flag unknown, the request lists the keys and sets it. */
  lemma {:induction false} Decides(cfg: Config, s: System, raw: string, identity: Identity)
    requires Reaches(s, raw, identity, Arrived(Some(raw))) && s.cache.keysExist.None?
    ensures Reaches(Run(cfg, s, [GO, GO, GO]), raw, identity, Presenting(raw))
  {
    RunThree(cfg, s, GO, GO, GO);
    var s1 := Apply(cfg, s, GO);
    assert s1.requests[0] == Counting(Some(raw));
    var s2 := Apply(cfg, s1, GO);
    assert raw in s2.keys;
    assert s2.requests[0] == Flagging(Some(raw), true);
  }

  /** Finding nothing cached, it has the key verified. */
  lemma {:induction false} Verifies(cfg: Config, s: System, raw: string, identity: Identity)
    requires Reaches(s, raw, identity, Presenting(raw))
    ensures Reaches(Run(cfg, s, [GO, GO]), raw, identity, Storing(raw, identity))
  {
    RunTwo(cfg, s, GO, GO);
    var s1 := Apply(cfg, s, GO);
    assert s1.requests[0] == Verifying(raw);
  }

  lemma {:induction false} ReachesStoring(cfg: Config, raw: string, identity: Identity)
    ensures Reaches(Run(cfg, INIT, VerifyingRun(raw, identity)), raw, identity, Storing(raw, identity))
  {
    var start := [CreateKey(raw, identity), Arrive(0, Some(raw))];
    RunTwo(cfg, INIT, start[0], start[1]);
    var s := Run(cfg, INIT, start);
    Decides(cfg, s, raw, identity);
    var decided := Run(cfg, s, [GO, GO, GO]);
    Verifies(cfg, decided, raw, identity);
    RunParts(cfg, INIT, start, [GO, GO, GO]);
    RunParts(cfg, INIT, start + [GO, GO, GO], [GO, GO]);
  }

  /**
   From the start, with caching on, a key can be created, presented, verified, deleted with all
   its traces, and then still be answered from the cache without being created again.
   */
  lemma {:induction false} DeletedKeyAnswered(cfg: Config, raw: string, keyId: string)
    requires cfg.ttl > 0
    ensures var identity := Identity(Some(keyId), Admin, None);
            var s := Run(cfg, INIT, DeletingRun(raw, identity, keyId));
            && Gone(s, keyId) && !NobodyHolds(s, keyId)
            && exists actions :: NeverRecreates(actions, keyId) && HitOn(Added(cfg, s, actions), keyId)
  {
    var identity := Identity(Some(keyId), Admin, None);
    var before := Run(cfg, INIT, VerifyingRun(raw, identity));
    ReachesStoring(cfg, raw, identity);
    RunParts(cfg, INIT, VerifyingRun(raw, identity), [DeleteKey(keyId), Invalidate(keyId)]);
    RunTwo(cfg, before, DeleteKey(keyId), Invalidate(keyId));
    var s := Run(cfg, INIT, DeletingRun(raw, identity, keyId));
    assert s.requests[0] == Storing(raw, identity) && HoldsAnswer(s.requests[0], keyId);
    LateHitExactly(cfg, s, keyId);
  }
}
