/** A request that presents a key in the table is admitted with it, whatever runs in between. */
module LiveKeys {
  import opened Outcomes
  import opened AuthHistory
  import opened AuthMiddleware
  import opened RunHistory

  /** The key of this identity keeps its row, and r neither starts again nor fails to reach the table. */
  predicate Spares(a: Action, r: nat, identity: Identity) {
    match a
    case Arrive(other, _) => other != r
    case Advance(other, fails, _) => other == r ==> !fails
    case DeleteKey(keyId) => !IsKeyOf(identity, keyId)
    case _ => true
  }

  function Sparing(r: nat, identity: Identity): Action -> bool {
    (a: Action) => Spares(a, r, identity)
  }

  /** The request has not been refused, and admits nobody but the key presented. */
  predicate OnTrack(phase: Phase, raw: string, identity: Identity) {
    match phase
    case Arrived(token) => token == Some(raw)
    case Counting(token) => token == Some(raw)
    case Flagging(token, _) => token == Some(raw)
    case Presenting(presented) => presented == raw
    case Verifying(presented) => presented == raw
    case Storing(presented, verified) => presented == raw && verified == identity
    case Marking(presented, verified) => presented == raw && verified == identity
    case Admitted(token, verified, via) =>
      token == Some(raw) && (via.FromCache? || (via.FromStore? && verified == identity))
    case _ => false
  }

  lemma {:induction false} SegmentOnTrack(
      cfg: Config, keys: Keys, now: nat, c: CacheState, r: nat, phase: Phase, victim: Digest, raw: string)
    requires raw in keys && OnTrack(phase, raw, keys[raw])
    ensures OnTrack(Segment(cfg, keys, now, c, r, phase, false, victim).phase, raw, keys[raw])
  {
  }

  /** How many segments of r a run holds. */
  ghost function Turns(cfg: Config, s: System, actions: seq<Action>, r: nat): nat
    decreases |actions|
  {
    if actions == [] then 0
    else (if TakesTurn(cfg, s, actions[0], r) then 1 else 0) + Turns(cfg, Apply(cfg, s, actions[0]), actions[1..], r)
  }

  ghost predicate TakesTurn(cfg: Config, s: System, a: Action, r: nat) {
    a.Advance? && a.r == r && r in s.requests && Enabled(cfg, s.cache, s.requests[r], a.victim)
  }

  ghost predicate Serves(s: System, r: nat, raw: string, identity: Identity) {
    && raw in s.keys && s.keys[raw] == identity
    && r in s.requests && OnTrack(s.requests[r], raw, identity)
  }

  lemma {:induction false} StepServes(cfg: Config, s: System, a: Action, r: nat, raw: string, identity: Identity)
    requires Serves(s, r, raw, identity) && Spares(a, r, identity)
    ensures Serves(Apply(cfg, s, a), r, raw, identity)
    ensures var before, after := Left(s.requests[r]), Left(Apply(cfg, s, a).requests[r]);
            after <= before && (TakesTurn(cfg, s, a, r) && before > 0 ==> after < before)
  {
    if TakesTurn(cfg, s, a, r) {
      SegmentOnTrack(cfg, s.keys, s.clock, s.cache, r, s.requests[r], a.victim, raw);
      if !Final(s.requests[r]) {
        SegmentKeepsAnswer(cfg, s.keys, s.clock, s.cache, r, s.requests[r], false, a.victim);
      }
    }
  }

  lemma {:induction false} RunServes(
      cfg: Config, s: System, actions: seq<Action>, r: nat, raw: string, identity: Identity)
    requires Serves(s, r, raw, identity) && Within(actions, Sparing(r, identity))
    ensures var last := Run(cfg, s, actions);
            && Serves(last, r, raw, identity)
            && Left(last.requests[r]) <= Left(s.requests[r])
            && (Final(last.requests[r]) || Left(last.requests[r]) + Turns(cfg, s, actions, r) <= Left(s.requests[r]))
    decreases |actions|
  {
    if actions != [] {
      assert Sparing(r, identity)(actions[0]);
      StepServes(cfg, s, actions[0], r, raw, identity);
      RunServes(cfg, Apply(cfg, s, actions[0]), actions[1..], r, raw, identity);
    }
  }

  /**
   From any state, a request that presents a key whose row stays is never refused, as long as its
   own accesses to the table succeed: in every run it is still on its way or admitted with that
   key, by its eighth segment at the latest, and left alone it would be admitted.
   */
  lemma {:induction false} LiveKeyAccepted(cfg: Config, s: System, r: nat, raw: string, actions: seq<Action>)
    requires raw in s.keys && (r in s.requests ==> Final(s.requests[r]))
    requires Within(actions, Sparing(r, s.keys[raw]))
    ensures var start := Apply(cfg, s, Arrive(r, Some(raw)));
            var last := Run(cfg, start, actions);
            && r in last.requests
            && var phase := last.requests[r];
               && OnTrack(phase, raw, s.keys[raw])
               && (Turns(cfg, start, actions, r) >= 8 ==> phase.Admitted?)
               && Answer(cfg, last.keys, last.clock, last.cache, false, phase).Admitted?
               && OnTrack(Answer(cfg, last.keys, last.clock, last.cache, false, phase), raw, s.keys[raw])
  {
    var start := Apply(cfg, s, Arrive(r, Some(raw)));
    RunServes(cfg, start, actions, r, raw, s.keys[raw]);
    var last := Run(cfg, start, actions);
    AnswerOnTrack(cfg, last.keys, last.clock, last.cache, last.requests[r], raw);
  }

  lemma {:induction false} AnswerOnTrack(
      cfg: Config, keys: Keys, now: nat, c: CacheState, phase: Phase, raw: string)
    requires raw in keys && OnTrack(phase, raw, keys[raw])
    ensures var answer := Answer(cfg, keys, now, c, false, phase);
            answer.Admitted? && OnTrack(answer, raw, keys[raw])
  {
  }
}
