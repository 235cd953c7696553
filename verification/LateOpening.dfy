/** A run from the start in which open mode admits somebody long after the first key was created. */
module LateOpening {
  import opened Outcomes
  import opened AuthHistory
  import opened AuthMiddleware
  import opened RunHistory
  import opened OpenLag

  /** A request without a token lists the keys while there are none. */
  const LISTING := [Arrive(0, None), GO, GO]

  /** Then a key is created and time passes. */
  function WaitingRun(raw: string, identity: Identity, elapsed: nat): seq<Action> {
    LISTING + [CreateKey(raw, identity), MarkKeys, Tick(elapsed)]
  }

  lemma {:induction false} Lists(cfg: Config)
    ensures Run(cfg, INIT, LISTING)
         == INIT.(log := [Arrival(0, None), Listed(0, Some(false), 0)], requests := map[0 := Flagging(None, false)])
  {
    RunThree(cfg, INIT, Arrive(0, None), GO, GO);
    var s1 := Apply(cfg, INIT, Arrive(0, None));
    assert s1.requests == map[0 := Arrived(None)];
    var s2 := Apply(cfg, s1, GO);
    assert s2.log == [Arrival(0, None)] && s2.requests == map[0 := Counting(None)];
    assert Apply(cfg, s2, GO).requests == map[0 := Flagging(None, false)];
  }

  /**
   With open mode on, however much time passes after the key is there and marked, the request is
   then admitted, and with caching on so is every request without a token for another TTL.
   */
  lemma {:induction false} KeyOverlooked(cfg: Config, raw: string, identity: Identity, elapsed: nat)
    requires cfg.openMode
    ensures var s := Run(cfg, INIT, WaitingRun(raw, identity, elapsed));
            var next := Apply(cfg, s, GO);
            && s.keys == map[raw := identity] && s.clock == elapsed
            && 0 in next.requests && next.requests[0] == Admitted(None, ANYONE, OpenMode)
            && (cfg.ttl > 0 ==> forall later: nat :: later <= cfg.ttl ==>
                  FlagSaysNone(cfg, Apply(cfg, next, Tick(later))) && CanOpen(cfg, Apply(cfg, next, Tick(later))))
  {
    Lists(cfg);
    var listed := Run(cfg, INIT, LISTING);
    RunParts(cfg, INIT, LISTING, [CreateKey(raw, identity), MarkKeys, Tick(elapsed)]);
    RunThree(cfg, listed, CreateKey(raw, identity), MarkKeys, Tick(elapsed));
    var s := Run(cfg, INIT, WaitingRun(raw, identity, elapsed));
    assert s.requests[0] == Flagging(None, false);
    var next := Apply(cfg, s, GO);
    forall later: nat | cfg.ttl > 0 && later <= cfg.ttl
      ensures FlagSaysNone(cfg, Apply(cfg, next, Tick(later))) && CanOpen(cfg, Apply(cfg, next, Tick(later)))
    {
      FlagOpens(cfg, Apply(cfg, next, Tick(later)));
    }
  }
}
