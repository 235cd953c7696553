/** What runs add to the history, and which events some run can still bring about. */
module RunHistory {
  import opened AuthHistory
  import opened AuthMiddleware

  lemma {:induction false} StepGrows(cfg: Config, s: System, a: Action)
    ensures s.log <= Apply(cfg, s, a).log
  {
  }

  lemma {:induction false} RunGrows(cfg: Config, s: System, actions: seq<Action>)
    ensures s.log <= Run(cfg, s, actions).log
    decreases |actions|
  {
    if actions != [] {
      StepGrows(cfg, s, actions[0]);
      RunGrows(cfg, Apply(cfg, s, actions[0]), actions[1..]);
    }
  }

  /** The events a step adds. */
  ghost function StepEvents(cfg: Config, s: System, a: Action): (events: seq<Event>)
    ensures Apply(cfg, s, a).log == s.log + events
  {
    StepGrows(cfg, s, a);
    Apply(cfg, s, a).log[|s.log|..]
  }

  /** The events a run adds: what its log holds past the log it started from. */
  ghost function Added(cfg: Config, s: System, actions: seq<Action>): (events: seq<Event>)
    ensures Run(cfg, s, actions).log == s.log + events
  {
    RunGrows(cfg, s, actions);
    Run(cfg, s, actions).log[|s.log|..]
  }

  lemma {:induction false} AddedFirst(cfg: Config, s: System, a: Action, rest: seq<Action>)
    ensures Added(cfg, s, [a] + rest) == StepEvents(cfg, s, a) + Added(cfg, Apply(cfg, s, a), rest)
  {
    assert ([a] + rest)[1..] == rest;
    var next := Apply(cfg, s, a);
    Cancel(s.log, Added(cfg, s, [a] + rest), StepEvents(cfg, s, a), Added(cfg, next, rest));
  }

  lemma {:induction false} Cancel(log: seq<Event>, all: seq<Event>, first: seq<Event>, rest: seq<Event>)
    requires log + all == log + first + rest
    ensures all == first + rest
  {
    assert (log + all)[|log|..] == all;
    assert (log + first + rest)[|log|..] == first + rest;
  }

  predicate Occurs(events: seq<Event>, p: Event -> bool) {
    exists i :: 0 <= i < |events| && p(events[i])
  }

  lemma {:induction false} OccursEither(first: seq<Event>, rest: seq<Event>, p: Event -> bool)
    ensures Occurs(first + rest, p) <==> Occurs(first, p) || Occurs(rest, p)
  {
    var all := first + rest;
    assert forall i :: 0 <= i < |first| ==> all[i] == first[i];
    assert forall i :: 0 <= i < |rest| ==> all[|first| + i] == rest[i];
    if Occurs(all, p) {
      var i :| 0 <= i < |all| && p(all[i]);
      assert all[i] == if i < |first| then first[i] else rest[i - |first|];
    }
  }

  // ---- what can still happen ----

  ghost predicate Within(actions: seq<Action>, allowed: Action -> bool) {
    forall i :: 0 <= i < |actions| ==> allowed(actions[i])
  }

  /** Some run of allowed actions adds such an event. */
  ghost predicate Can(cfg: Config, s: System, allowed: Action -> bool, p: Event -> bool) {
    exists actions :: Within(actions, allowed) && Occurs(Added(cfg, s, actions), p)
  }

  lemma {:induction false} CanNow(cfg: Config, s: System, a: Action, allowed: Action -> bool, p: Event -> bool)
    requires allowed(a) && Occurs(StepEvents(cfg, s, a), p)
    ensures Can(cfg, s, allowed, p)
  {
    AddedFirst(cfg, s, a, []);
    OccursEither(StepEvents(cfg, s, a), Added(cfg, Apply(cfg, s, a), []), p);
    assert Within([a] + [], allowed);
  }

  lemma {:induction false} CanLater(cfg: Config, s: System, a: Action, allowed: Action -> bool, p: Event -> bool)
    requires allowed(a) && Can(cfg, Apply(cfg, s, a), allowed, p)
    ensures Can(cfg, s, allowed, p)
  {
    var rest :| Within(rest, allowed) && Occurs(Added(cfg, Apply(cfg, s, a), rest), p);
    AddedFirst(cfg, s, a, rest);
    OccursEither(StepEvents(cfg, s, a), Added(cfg, Apply(cfg, s, a), rest), p);
    WithinFirst(a, rest, allowed);
  }

  lemma {:induction false} CanWider(
      cfg: Config, s: System, narrow: Action -> bool, wide: Action -> bool, p: Event -> bool)
    requires Can(cfg, s, narrow, p) && forall a :: narrow(a) ==> wide(a)
    ensures Can(cfg, s, wide, p)
  {
    var actions :| Within(actions, narrow) && Occurs(Added(cfg, s, actions), p);
    assert Within(actions, wide);
  }

  lemma {:induction false} WithinFirst(a: Action, rest: seq<Action>, allowed: Action -> bool)
    requires allowed(a) && Within(rest, allowed)
    ensures Within([a] + rest, allowed)
  {
    assert forall i :: 1 <= i < |[a] + rest| ==> ([a] + rest)[i] == rest[i - 1];
  }

  // ---- runs step by step ----

  /** The first request goes on. */
  const GO := Advance(0, false, "")

  lemma {:induction false} RunParts(cfg: Config, s: System, first: seq<Action>, rest: seq<Action>)
    ensures Run(cfg, s, first + rest) == Run(cfg, Run(cfg, s, first), rest)
    decreases |first|
  {
    if first == [] {
      assert first + rest == rest;
    } else {
      assert (first + rest)[0] == first[0] && (first + rest)[1..] == first[1..] + rest;
      RunParts(cfg, Apply(cfg, s, first[0]), first[1..], rest);
    }
  }

  lemma {:induction false} RunTwo(cfg: Config, s: System, a: Action, b: Action)
    ensures Run(cfg, s, [a, b]) == Apply(cfg, Apply(cfg, s, a), b)
  {
    assert [a, b][1..] == [b] && [b][1..] == [];
    assert Run(cfg, Apply(cfg, s, a), [b]) == Run(cfg, Apply(cfg, Apply(cfg, s, a), b), []);
  }

  lemma {:induction false} RunThree(cfg: Config, s: System, a: Action, b: Action, c: Action)
    ensures Run(cfg, s, [a, b, c]) == Apply(cfg, Apply(cfg, Apply(cfg, s, a), b), c)
  {
    assert [a, b, c][1..] == [b, c];
    RunTwo(cfg, Apply(cfg, s, a), b, c);
  }
}
