/**
 How long open mode can overlook a key that exists. Whenever the key table holds a key, an
 admission in open mode can still come, without a deletion or a failing listing, exactly when open
 mode is on and the cached flag still says that there are no keys, or a request that listed none
 has not acted on it yet. No bound in time limits the second. With a failing listing one can
 always come in open mode, because a request takes the failure for an empty table.
 */
module OpenLag {
  import opened Outcomes
  import opened AuthHistory
  import opened AuthMiddleware
  import opened AuthRuns
  import opened RequestEvents
  import opened RunHistory

  /** Nothing is deleted and the key table can be reached. */
  const STEADY: Action -> bool := (a: Action) => !a.DeleteKey? && !(a.Advance? && a.fails)

  const OPENING: Event -> bool := (e: Event) => e.Opened?

  /** An admission in open mode can still come. */
  ghost predicate CanOpen(cfg: Config, s: System) {
    Can(cfg, s, STEADY, OPENING)
  }

  /** The request listed no key and will act on that: admit its sender, or set the flag. */
  predicate ActsOnEmpty(cfg: Config, phase: Phase) {
    || (phase.Reflagging? && phase.empty)
    || (phase.Flagging? && !phase.keysExist && (phase.token.None? || cfg.ttl > 0))
  }

  ghost predicate SomebodyActs(cfg: Config, s: System) {
    exists r :: r in s.requests && ActsOnEmpty(cfg, s.requests[r])
  }

  predicate FlagSaysNone(cfg: Config, s: System) {
    KeysExistIn(s.cache, cfg.ttl, s.clock) == Some(false)
  }

  // ---- otherwise no admission comes ----

  /** A key exists, and nothing can still overlook it. */
  ghost predicate Settled(cfg: Config, s: System) {
    cfg.openMode && s.keys != map[] && !FlagSaysNone(cfg, s) && !SomebodyActs(cfg, s)
  }

  lemma {:induction false} SegmentSettled(cfg: Config, s: System, r: nat, victim: Digest)
    requires Settled(cfg, s) && r in s.requests
    ensures var o := Segment(cfg, s.keys, s.clock, s.cache, r, s.requests[r], false, victim);
            && !Occurs(o.events, OPENING)
            && KeysExistIn(o.cache, cfg.ttl, s.clock) != Some(false) && !ActsOnEmpty(cfg, o.phase)
  {
  }

  lemma {:induction false} StepSettled(cfg: Config, s: System, a: Action)
    requires Settled(cfg, s) && STEADY(a)
    ensures Settled(cfg, Apply(cfg, s, a)) && !Occurs(StepEvents(cfg, s, a), OPENING)
  {
    if a.Advance? && a.r in s.requests {
      SegmentSettled(cfg, s, a.r, a.victim);
      var o := Segment(cfg, s.keys, s.clock, s.cache, a.r, s.requests[a.r], false, a.victim);
      if Enabled(cfg, s.cache, s.requests[a.r], a.victim) {
        assert StepEvents(cfg, s, a) == o.events;
      } else {
        assert StepEvents(cfg, s, a) == [];
      }
    }
  }

  lemma {:induction false} RunSettled(cfg: Config, s: System, actions: seq<Action>)
    requires Settled(cfg, s) && Within(actions, STEADY)
    ensures !Occurs(Added(cfg, s, actions), OPENING)
    decreases |actions|
  {
    if actions != [] {
      var next := Apply(cfg, s, actions[0]);
      assert STEADY(actions[0]);
      StepSettled(cfg, s, actions[0]);
      RunSettled(cfg, next, actions[1..]);
      assert [actions[0]] + actions[1..] == actions;
      AddedFirst(cfg, s, actions[0], actions[1..]);
      OccursEither(StepEvents(cfg, s, actions[0]), Added(cfg, next, actions[1..]), OPENING);
    }
  }

  /** Without open mode none ever comes. */
  lemma {:induction false} ClosedStays(cfg: Config, s: System, actions: seq<Action>)
    requires Sound(cfg, s) && !cfg.openMode
    ensures !Occurs(Added(cfg, s, actions), OPENING)
  {
    RunSound(cfg, s, actions);
    var added := Added(cfg, s, actions);
    forall i | 0 <= i < |added| ensures !OPENING(added[i]) {
      JustifiedAt(cfg, s.log + added, |s.log| + i);
    }
  }

  // ---- and if so, one can ----

  lemma {:induction false} OpensNow(cfg: Config, s: System, r: nat)
    requires r in s.requests && !s.requests[r].Storing? && !s.requests[r].Admitted?
    requires var o := Segment(cfg, s.keys, s.clock, s.cache, r, s.requests[r], false, "");
             OpenEvents(r, o.phase, s.clock) != []
    ensures CanOpen(cfg, s)
  {
    var a := Advance(r, false, "");
    var o := Segment(cfg, s.keys, s.clock, s.cache, r, s.requests[r], false, "");
    assert Apply(cfg, s, a).log == s.log + o.events;
    assert StepEvents(cfg, s, a) == o.events;
    assert OPENING(o.events[|o.events| - 1]);
    CanNow(cfg, s, a, STEADY, OPENING);
  }

  lemma {:induction false} UnusedNumber(used: set<nat>) returns (n: nat)
    ensures forall m :: m in used ==> m < n
    decreases |used|
  {
    if used == {} {
      n := 0;
    } else {
      var k :| k in used;
      var rest := UnusedNumber(used - {k});
      n := if k < rest then rest else k + 1;
      assert forall m :: m in used ==> m == k || m in used - {k};
    }
  }

  /** With a flag that says none, a newcomer without a token is admitted. */
  lemma {:induction false} FlagOpens(cfg: Config, s: System)
    requires cfg.openMode && FlagSaysNone(cfg, s)
    ensures CanOpen(cfg, s)
  {
    var r := UnusedNumber(s.requests.Keys);
    var a := Arrive(r, None);
    OpensNow(cfg, Apply(cfg, s, a), r);
    CanLater(cfg, s, a, STEADY, OPENING);
  }

  lemma {:induction false} ActingOpens(cfg: Config, s: System, r: nat)
    requires cfg.openMode && r in s.requests && ActsOnEmpty(cfg, s.requests[r])
    ensures CanOpen(cfg, s)
  {
    var phase := s.requests[r];
    if phase.Flagging? && phase.token.Some? {
      var a := Advance(r, false, "");
      FlagOpens(cfg, Apply(cfg, s, a));
      CanLater(cfg, s, a, STEADY, OPENING);
    } else {
      OpensNow(cfg, s, r);
    }
  }

  /** In every sound state with a key, exactly when it can still be overlooked. */
  lemma {:induction false} OverlookedExactly(cfg: Config, s: System)
    requires Sound(cfg, s) && s.keys != map[]
    ensures CanOpen(cfg, s) <==> cfg.openMode && (FlagSaysNone(cfg, s) || SomebodyActs(cfg, s))
  {
    if cfg.openMode && FlagSaysNone(cfg, s) {
      FlagOpens(cfg, s);
    } else if cfg.openMode && SomebodyActs(cfg, s) {
      var r :| r in s.requests && ActsOnEmpty(cfg, s.requests[r]);
      ActingOpens(cfg, s, r);
    } else {
      forall actions | Within(actions, STEADY) ensures !Occurs(Added(cfg, s, actions), OPENING) {
        if cfg.openMode {
          RunSettled(cfg, s, actions);
        } else {
          ClosedStays(cfg, s, actions);
        }
      }
    }
  }

  // ---- listings that fail ----

  const UNDELETED: Action -> bool := (a: Action) => !a.DeleteKey?

  /** A request without a token that has to list the keys is let in when its listing fails. */
  lemma {:induction false} FailureOpens(cfg: Config, s: System, r: nat)
    requires cfg.openMode && r in s.requests && s.requests[r] == Counting(None)
    ensures Can(cfg, s, UNDELETED, OPENING)
  {
    var a := Advance(r, true, "");
    var next := Apply(cfg, s, a);
    OpensNow(cfg, next, r);
    CanWider(cfg, next, STEADY, UNDELETED, OPENING);
    CanLater(cfg, s, a, UNDELETED, OPENING);
  }

  /** So is a newcomer without a token who finds the flag unknown. */
  lemma {:induction false} UnknownOpens(cfg: Config, s: System)
    requires cfg.openMode && KeysExistIn(s.cache, cfg.ttl, s.clock).None?
    ensures Can(cfg, s, UNDELETED, OPENING)
  {
    var r := UnusedNumber(s.requests.Keys);
    var a, b := Arrive(r, None), Advance(r, false, "");
    var arrived := Apply(cfg, s, a);
    FailureOpens(cfg, Apply(cfg, arrived, b), r);
    CanLater(cfg, arrived, b, UNDELETED, OPENING);
    CanLater(cfg, s, a, UNDELETED, OPENING);
  }

  /**
   In every sound state, whatever keys exist and whatever the flag says, open mode can still admit
   somebody without a deletion exactly when it is on.
   */
  lemma {:induction false} FailingListingOpens(cfg: Config, s: System)
    requires Sound(cfg, s)
    ensures Can(cfg, s, UNDELETED, OPENING) <==> cfg.openMode
  {
    if cfg.openMode {
      var a := Tick(cfg.ttl + 1);
      UnknownOpens(cfg, Apply(cfg, s, a));
      CanLater(cfg, s, a, UNDELETED, OPENING);
    } else {
      forall actions ensures !Occurs(Added(cfg, s, actions), OPENING) {
        ClosedStays(cfg, s, actions);
      }
    }
  }
}
