/** Which events of a history a request brought about since it last arrived. */
module RequestEvents {
  import opened Outcomes
  import opened AuthHistory

  predicate ArrivalOf(e: Event, r: nat) {
    e.Arrival? && e.r == r
  }

  /** Where the events after the last arrival of r begin; 0 if r never arrived. */
  function Since(log: seq<Event>, r: nat): (n: nat)
    ensures n <= |log|
  {
    if log == [] then 0
    else if ArrivalOf(log[|log| - 1], r) then |log|
    else Since(log[..|log| - 1], r)
  }

  lemma {:induction false} SinceExactly(log: seq<Event>, r: nat)
    ensures Since(log, r) > 0 ==> ArrivalOf(log[Since(log, r) - 1], r)
    ensures forall i :: Since(log, r) <= i < |log| ==> !ArrivalOf(log[i], r)
  {
    if log != [] {
      SinceExactly(log[..|log| - 1], r);
    }
  }

  predicate SinceArrival(log: seq<Event>, r: nat, i: nat) {
    Since(log, r) <= i < |log|
  }

  predicate NoArrivalOf(events: seq<Event>, r: nat) {
    forall i :: 0 <= i < |events| ==> !ArrivalOf(events[i], r)
  }

  lemma {:induction false} SinceKept(log: seq<Event>, more: seq<Event>, r: nat)
    requires NoArrivalOf(more, r)
    ensures Since(log + more, r) == Since(log, r)
    decreases |more|
  {
    var all := log + more;
    if more == [] {
      assert all == log;
    } else {
      assert all[..|all| - 1] == log + more[..|more| - 1] && all[|all| - 1] == more[|more| - 1];
      SinceKept(log, more[..|more| - 1], r);
    }
  }

  /** What r did since it arrived stays so until it arrives again. */
  lemma {:induction false} LaterStill(log: seq<Event>, more: seq<Event>, r: nat)
    requires NoArrivalOf(more, r)
    ensures Since(log + more, r) == Since(log, r)
    ensures forall i: nat :: SinceArrival(log, r, i) ==> SinceArrival(log + more, r, i) && (log + more)[i] == log[i]
  {
    SinceKept(log, more, r);
  }

  // ---- what a request did ----

  ghost predicate WasVerified(log: seq<Event>, r: nat, raw: string, identity: Identity) {
    exists v: nat :: SinceArrival(log, r, v) && log[v] == Verified(r, raw, identity)
  }

  ghost predicate WasHit(log: seq<Event>, r: nat, raw: string, identity: Identity) {
    exists p: nat :: SinceArrival(log, r, p) && HitBy(log[p], r, raw, identity)
  }

  predicate HitBy(e: Event, r: nat, raw: string, identity: Identity) {
    e.Hit? && e.r == r && e.raw == raw && e.identity == identity
  }

  /** It listed the keys by now, and found none or failed. */
  ghost predicate SawNoKey(log: seq<Event>, r: nat, now: nat) {
    exists l: nat :: SinceArrival(log, r, l) && FoundNoKey(log[l], r, now)
  }

  predicate FoundNoKey(e: Event, r: nat, now: nat) {
    e.Listed? && e.r == r && e.found != Some(true) && e.at <= now
  }

  ghost predicate HasOpened(log: seq<Event>, r: nat) {
    exists p: nat :: SinceArrival(log, r, p) && OpeningOf(log[p], r)
  }

  predicate OpeningOf(e: Event, r: nat) {
    e.Opened? && e.r == r
  }

  /** All of it stays so, too. */
  lemma {:induction false} DoneStays(log: seq<Event>, more: seq<Event>, r: nat, raw: string, identity: Identity)
    requires NoArrivalOf(more, r)
    ensures WasVerified(log, r, raw, identity) ==> WasVerified(log + more, r, raw, identity)
    ensures WasHit(log, r, raw, identity) ==> WasHit(log + more, r, raw, identity)
    ensures HasOpened(log, r) ==> HasOpened(log + more, r)
  {
    LaterStill(log, more, r);
  }

  lemma {:induction false} SeenStays(log: seq<Event>, more: seq<Event>, r: nat, now: nat, later: nat)
    requires NoArrivalOf(more, r) && SawNoKey(log, r, now) && now <= later
    ensures SawNoKey(log + more, r, later)
  {
    LaterStill(log, more, r);
    var l: nat :| SinceArrival(log, r, l) && FoundNoKey(log[l], r, now);
    assert SinceArrival(log + more, r, l) && FoundNoKey((log + more)[l], r, later);
  }

  /** The last event appended is one since r's arrival. */
  lemma {:induction false} LastIsRecent(log: seq<Event>, events: seq<Event>, r: nat)
    requires events != [] && NoArrivalOf(events, r)
    ensures SinceArrival(log + events, r, |log| + |events| - 1)
    ensures (log + events)[|log| + |events| - 1] == events[|events| - 1]
  {
    SinceKept(log, events, r);
  }
}
