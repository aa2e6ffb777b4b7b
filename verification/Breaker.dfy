/**
 * The circuit breaker. A call is two critical sections around its operation, so calls may overlap;
 * the events are these sections in lock order.
 */
module Breaker {
  import opened Commons

  datatype State = Closed | Open | HalfOpen

  datatype Inner = Inner(state: State, failures: nat, openedAt: Option<nat>)

  datatype Outcome = Succeeded | FailedTransiently | FailedPermanently

  datatype Config = Config(threshold: nat, openDuration: nat)

  datatype Event =
    | Looked(now: nat)
    | Called(id: nat, now: nat)
    | Settled(id: nat, now: nat, outcome: Outcome)

  const INITIAL := Inner(Closed, 0, None)

  /** An open breaker that waited long enough becomes half-open. */
  function Tick(c: Config, s: Inner, now: nat): Inner {
    if s.state == Open && s.openedAt.Some? && Elapsed(s.openedAt.value, now) >= c.openDuration
    then s.(state := HalfOpen) else s
  }

  function Settle(c: Config, s: Inner, now: nat, outcome: Outcome): Inner {
    match outcome
    case Succeeded => INITIAL
    case FailedTransiently =>
      if s.failures + 1 >= c.threshold then Inner(Open, s.failures + 1, Some(now))
      else s.(failures := s.failures + 1)
    case FailedPermanently => s
  }

  function Apply(c: Config, s: Inner, e: Event): Inner {
    match e
    case Looked(now) => Tick(c, s, now)
    case Called(_, now) => Tick(c, s, now)
    case Settled(_, now, outcome) => Settle(c, s, now, outcome)
  }

  function After(c: Config, events: seq<Event>): Inner {
    if events == [] then INITIAL
    else Apply(c, After(c, events[..|events| - 1]), events[|events| - 1])
  }

  /** Whether a call that reaches the lock at `now` goes on to invoke the operation. */
  predicate Admits(c: Config, s: Inner, now: nat) {
    Tick(c, s, now).state != Open
  }

  // ----- what the history says, without the breaker's fields -----

  /** Transient failures settled since the last success. */
  function FailuresInRow(events: seq<Event>): nat {
    if events == [] then 0
    else
      var last := events[|events| - 1];
      var before := FailuresInRow(events[..|events| - 1]);
      if last.Settled? && last.outcome == Succeeded then 0
      else if last.Settled? && last.outcome == FailedTransiently then before + 1
      else before
  }

  /** When the latest transient failure was settled, if there was one since the last success. */
  function LatestFailure(events: seq<Event>): Option<nat> {
    if events == [] then None
    else
      var last := events[|events| - 1];
      if last.Settled? && last.outcome == Succeeded then None
      else if last.Settled? && last.outcome == FailedTransiently then Some(last.now)
      else LatestFailure(events[..|events| - 1])
  }

  function TimeOf(e: Event): nat { e.now }

  /** Some event at or after the time the breaker may be probed again has been seen. */
  ghost predicate SeenLater(events: seq<Event>, time: nat) {
    exists i :: 0 <= i < |events| && events[i].now >= time
  }

  /** The invariant of every interleaving. */
  ghost predicate Invariant(c: Config, s: Inner, failures: nat, latest: Option<nat>) {
    && s.failures == failures
    && (failures > 0 ==> latest.Some?)
    && (s.state == Closed <==> failures < c.threshold)
    && (s.state != Closed ==> s.openedAt.Some? && s.openedAt == latest)
    && (s.state == Closed ==> s.openedAt.None?)
  }

  /**
   * In every interleaving of calls, with a threshold of at least one: the breaker counts the
   * transient failures since the last success, is closed exactly while they are fewer than the
   * threshold, and otherwise holds the time of the latest of them.
   */
  lemma {:induction false} CountsFailuresInRow(c: Config, events: seq<Event>)
    requires c.threshold >= 1
    ensures Invariant(c, After(c, events), FailuresInRow(events), LatestFailure(events))
  {
    if events != [] {
      CountsFailuresInRow(c, events[..|events| - 1]);
    }
  }

  /** With a threshold of zero even the fresh breaker breaks the invariant. */
  lemma InvariantIffThreshold(c: Config)
    ensures c.threshold >= 1 <==>
      forall events :: Invariant(c, After(c, events), FailuresInRow(events), LatestFailure(events))
  {
    if c.threshold >= 1 {
      forall events
        ensures Invariant(c, After(c, events), FailuresInRow(events), LatestFailure(events))
      {
        CountsFailuresInRow(c, events);
      }
    } else {
      assert !Invariant(c, After(c, []), FailuresInRow([]), LatestFailure([]));
    }
  }

  lemma {:induction false} HalfOpenWaited(c: Config, events: seq<Event>)
    requires c.threshold >= 1 && After(c, events).state == HalfOpen
    ensures After(c, events).openedAt.Some?
    ensures SeenLater(events, After(c, events).openedAt.value + c.openDuration)
  {
    var before, last := events[..|events| - 1], events[|events| - 1];
    if After(c, before).state == HalfOpen {
      HalfOpenWaited(c, before);
      var i :| 0 <= i < |before| && before[i].now >= After(c, before).openedAt.value + c.openDuration;
      assert events[i] == before[i];
    } else {
      CountsFailuresInRow(c, before);
      CountsFailuresInRow(c, events);
      assert last.now >= After(c, events).openedAt.value + c.openDuration || c.openDuration == 0;
      if c.openDuration == 0 && last.now < After(c, events).openedAt.value {
        var j := FailureSeen(before);
        assert events[j] == before[j];
      }
    }
  }

  lemma {:induction false} FailureSeen(events: seq<Event>) returns (j: nat)
    requires LatestFailure(events).Some?
    ensures j < |events| && events[j].now == LatestFailure(events).value
  {
    var last := events[|events| - 1];
    if last.Settled? && last.outcome == FailedTransiently {
      j := |events| - 1;
    } else {
      j := FailureSeen(events[..|events| - 1]);
    }
  }

  /**
   * Exactly when a call is let through, in every interleaving under an ordered clock: there are
   * fewer failures in a row than the threshold, or the latest is `openDuration` old.
   */
  lemma AdmitsIff(c: Config, events: seq<Event>, now: nat)
    requires c.threshold >= 1
    requires forall i :: 0 <= i < |events| ==> events[i].now <= now
    ensures Admits(c, After(c, events), now) <==>
      || FailuresInRow(events) < c.threshold
      || (LatestFailure(events).Some? && LatestFailure(events).value + c.openDuration <= now)
  {
    CountsFailuresInRow(c, events);
    if LatestFailure(events).Some? {
      var j := FailureSeen(events);
    }
    if After(c, events).state == HalfOpen {
      HalfOpenWaited(c, events);
    }
  }

  function RetryAfter(c: Config, s: Inner, now: nat): nat {
    if s.openedAt.None? || Elapsed(s.openedAt.value, now) >= c.openDuration then 0
    else c.openDuration - Elapsed(s.openedAt.value, now)
  }

  /** What a refused caller is told: waiting that long, with nothing settled meanwhile, is exactly enough. */
  lemma RetryAfterIsExact(c: Config, s: Inner, now: nat, wait: nat)
    requires s.openedAt.Some? && s.openedAt.value <= now && !Admits(c, s, now)
    ensures Admits(c, s, now + wait) <==> wait >= RetryAfter(c, s, now)
  {}

  /** An open breaker always carries its time, whatever the threshold. */
  lemma {:induction false} OpenIsStamped(c: Config, events: seq<Event>)
    ensures After(c, events).state != Closed ==> After(c, events).openedAt.Some?
  {
    if events != [] {
      OpenIsStamped(c, events[..|events| - 1]);
    }
  }

  // ----- calls that do not overlap -----

  function Fly(c: Config, s: Inner, flying: set<nat>, e: Event): set<nat> {
    match e
    case Looked(_) => flying
    case Called(id, now) => if Admits(c, s, now) then flying + {id} else flying
    case Settled(id, _, _) => flying - {id}
  }

  /** The ids of the calls let through and not settled yet. */
  function InFlight(c: Config, events: seq<Event>): set<nat> {
    if events == [] then {}
    else
      var before := events[..|events| - 1];
      Fly(c, After(c, before), InFlight(c, before), events[|events| - 1])
  }

  /** A possible run: calls carry new ids, and what is settled was let through. */
  ghost predicate IsRun(c: Config, events: seq<Event>) {
    events == [] ||
    var before, last := events[..|events| - 1], events[|events| - 1];
    && IsRun(c, before)
    && (last.Called? ==> last.id !in InFlight(c, before))
    && (last.Settled? ==> last.id in InFlight(c, before))
  }

  lemma AfterOneMore(c: Config, events: seq<Event>, e: Event)
    ensures After(c, events + [e]) == Apply(c, After(c, events), e)
  {
    assert (events + [e])[..|events|] == events;
  }

  /** No call starts while another is running. */
  ghost predicate OneAtATime(c: Config, events: seq<Event>) {
    events == [] ||
    var before, last := events[..|events| - 1], events[|events| - 1];
    && OneAtATime(c, before)
    && (last.Called? ==> InFlight(c, before) == {})
  }

  ghost predicate Invokes(c: Config, events: seq<Event>, i: nat)
    requires i < |events|
  {
    events[i].Called? && Admits(c, After(c, events[..i]), events[i].now)
  }

  lemma {:induction false} AtMostOneInFlight(c: Config, events: seq<Event>)
    requires IsRun(c, events) && OneAtATime(c, events)
    ensures forall a, b :: a in InFlight(c, events) && b in InFlight(c, events) ==> a == b
    ensures events != [] && events[|events| - 1].Settled? ==> InFlight(c, events) == {}
  {
    if events != [] {
      AtMostOneInFlight(c, events[..|events| - 1]);
    }
  }

  lemma OneMore(c: Config, events: seq<Event>, e: Event)
    requires IsRun(c, events)
    requires e.Called? ==> e.id !in InFlight(c, events)
    requires e.Settled? ==> e.id in InFlight(c, events)
    ensures IsRun(c, events + [e])
    ensures After(c, events + [e]) == Apply(c, After(c, events), e)
    ensures InFlight(c, events + [e]) == Fly(c, After(c, events), InFlight(c, events), e)
  {
    assert (events + [e])[..|events|] == events;
  }

  // ----- how long an opened breaker stays shut -----

  /** The last event is a failure that leaves the breaker open. */
  ghost predicate Opens(c: Config, events: seq<Event>) {
    && events != [] && events[|events| - 1].Settled? && events[|events| - 1].outcome == FailedTransiently
    && After(c, events).state == Open
  }

  /** Event `j` of a possible continuation invokes the operation. */
  ghost predicate InvokesLater(c: Config, events: seq<Event>, more: seq<Event>, j: nat) {
    && j < |more| && IsRun(c, events + more) && InOrder(TimeOf, events + more)
    && Invokes(c, events + more, |events| + j)
  }

  /** However the run goes on, nothing is invoked until `openDuration` after its last event. */
  ghost predicate StaysShut(c: Config, events: seq<Event>)
    requires events != []
  {
    forall more: seq<Event>, j: nat :: InvokesLater(c, events, more, j) ==>
      more[j].now >= events[|events| - 1].now + c.openDuration
  }

  lemma {:induction false} PrefixIsRun(c: Config, events: seq<Event>, k: nat)
    requires k <= |events| && IsRun(c, events)
    ensures IsRun(c, events[..k])
  {
    if k < |events| {
      assert events[..|events| - 1][..k] == events[..k];
      PrefixIsRun(c, events[..|events| - 1], k);
    } else {
      assert events[..k] == events;
    }
  }

  /** With nothing in flight, an open breaker does not change before its time. */
  lemma {:induction false} QuietWhileShut(c: Config, events: seq<Event>, from: nat, until: nat)
    requires from <= until <= |events| && IsRun(c, events) && c.openDuration > 0
    requires InFlight(c, events[..from]) == {} && After(c, events[..from]).state == Open
    requires After(c, events[..from]).openedAt.Some?
    requires forall i :: from <= i < until ==> events[i].now < After(c, events[..from]).openedAt.value + c.openDuration
    ensures InFlight(c, events[..until]) == {} && After(c, events[..until]) == After(c, events[..from])
    decreases until
  {
    if from < until {
      QuietWhileShut(c, events, from, until - 1);
      PrefixIsRun(c, events, until);
      assert events[..until][..until - 1] == events[..until - 1];
    }
  }

  lemma IdleStaysShut(c: Config, events: seq<Event>)
    requires Opens(c, events) && (InFlight(c, events) == {} || c.openDuration == 0)
    ensures StaysShut(c, events)
  {
    hide After, InFlight, IsRun;
    forall more: seq<Event>, j: nat | InvokesLater(c, events, more, j)
      ensures more[j].now >= events[|events| - 1].now + c.openDuration
    {
      InvokedInTime(c, events, more, j);
    }
  }

  lemma InvokedInTime(c: Config, events: seq<Event>, more: seq<Event>, j: nat)
    requires Opens(c, events) && (InFlight(c, events) == {} || c.openDuration == 0)
    requires InvokesLater(c, events, more, j)
    ensures more[j].now >= events[|events| - 1].now + c.openDuration
  {
    var n, all := |events|, events + more;
    OpeningIsStamped(c, events);
    hide After, InFlight, IsRun;
    assert all[..n] == events && all[n - 1] == events[n - 1] && all[n + j] == more[j];
    assert TimeOf(all[n - 1]) <= TimeOf(all[n + j]);
    if c.openDuration > 0 && more[j].now < events[n - 1].now + c.openDuration {
      forall i | n <= i < n + j
        ensures all[i].now < events[n - 1].now + c.openDuration
      {
        assert TimeOf(all[i]) <= TimeOf(all[n + j]);
      }
      QuietWhileShut(c, all, n, n + j);
    }
  }

  lemma OpeningIsStamped(c: Config, events: seq<Event>)
    requires Opens(c, events)
    ensures After(c, events).openedAt == Some(events[|events| - 1].now)
  {
    if c.threshold >= 1 {
      CountsFailuresInRow(c, events);
    }
  }

  /** A call still in flight can succeed at once, and the next call is then let through. */
  lemma OverlapClosesEarly(c: Config, events: seq<Event>, id: nat) returns (more: seq<Event>)
    requires Opens(c, events) && IsRun(c, events) && InOrder(TimeOf, events) && id in InFlight(c, events)
    ensures InvokesLater(c, events, more, 1) && more[1].now == events[|events| - 1].now
  {
    hide After, InFlight, IsRun;
    var now := events[|events| - 1].now;
    var success, next := Settled(id, now, Succeeded), Called(id, now);
    OneMore(c, events, success);
    OneMore(c, events + [success], next);
    more := [success, next];
    assert events + more == events + [success] + [next];
    assert (events + more)[..|events| + 1] == events + [success];
    forall i, j | 0 <= i < j < |events + more|
      ensures TimeOf((events + more)[i]) <= TimeOf((events + more)[j])
    {
      if i < |events| - 1 {
        assert TimeOf(events[i]) <= TimeOf(events[|events| - 1]);
      }
    }
  }

  /**
   * In any run and for any threshold: a breaker that a failure has opened stays shut for
   * `openDuration`, however the run goes on, if and only if no call is in flight at that moment
   * (or there is nothing to wait for).
   */
  lemma StaysShutIffIdle(c: Config, events: seq<Event>)
    requires Opens(c, events) && IsRun(c, events) && InOrder(TimeOf, events)
    ensures StaysShut(c, events) <==> InFlight(c, events) == {} || c.openDuration == 0
  {
    if InFlight(c, events) == {} || c.openDuration == 0 {
      IdleStaysShut(c, events);
    } else {
      var id :| id in InFlight(c, events);
      var more := OverlapClosesEarly(c, events, id);
    }
  }

  /** So calls that never overlap are safe: whenever a failure opens the breaker, it stays shut. */
  lemma SequentialStaysShut(c: Config, events: seq<Event>)
    requires Opens(c, events) && IsRun(c, events) && OneAtATime(c, events)
    ensures StaysShut(c, events)
  {
    AtMostOneInFlight(c, events);
    IdleStaysShut(c, events);
  }

  /** Overlap is possible at every opening: the last of `threshold + 1` calls is still in flight. */
  lemma BusyOpening(c: Config) returns (events: seq<Event>)
    requires c.threshold >= 1
    ensures Opens(c, events) && IsRun(c, events) && InOrder(TimeOf, events) && InFlight(c, events) != {}
  {
    hide After, InFlight, IsRun;
    Start(c);
    OneMore(c, [], Called(0, 0));
    events := [] + [Called(0, 0)];
    var n := 0;
    while n < c.threshold
      invariant n <= c.threshold && IsRun(c, events) && InFlight(c, events) == {0}
      invariant forall i :: 0 <= i < |events| ==> events[i].now == 0
      invariant After(c, events).failures == n
      invariant n < c.threshold ==> After(c, events).state == Closed
      invariant n == c.threshold ==> Opens(c, events)
    {
      OneMore(c, events, Called(1, 0));
      OneMore(c, events + [Called(1, 0)], Settled(1, 0, FailedTransiently));
      events := events + [Called(1, 0)] + [Settled(1, 0, FailedTransiently)];
      n := n + 1;
    }
  }

  lemma Start(c: Config)
    ensures IsRun(c, []) && After(c, []) == INITIAL && InFlight(c, []) == {}
  {}

  // ----- the object -----

  class CircuitBreaker {
    const config: Config
    var state: State
    var failures: nat
    var openedAt: Option<nat>
    ghost var history: seq<Event>

    function Value(): Inner reads this { Inner(state, failures, openedAt) }

    ghost predicate Valid() reads this {
      Value() == After(config, history)
    }

    constructor (failureThreshold: nat, openDuration: nat)
      ensures Valid() && history == [] && config == Config(failureThreshold, openDuration)
    {
      config := Config(failureThreshold, openDuration);
      state, failures, openedAt, history := Closed, 0, None, [];
    }

    method Advance(now: nat)
      modifies this
      ensures Value() == Tick(config, old(Value()), now) && history == old(history)
    {
      if state == Open && openedAt.Some? && Elapsed(openedAt.value, now) >= config.openDuration {
        state := HalfOpen;
      }
    }

    method CurrentState(now: nat) returns (s: State)
      requires Valid()
      modifies this
      ensures Valid() && history == old(history) + [Looked(now)]
      ensures s == state
    {
      Advance(now);
      s := state;
      history := history + [Looked(now)];
      assert history[..|history| - 1] == old(history);
    }

    /** The first half of a call, up to the operation; a refusal says how long to wait. */
    method Begin(id: nat, now: nat) returns (refused: Option<nat>)
      requires Valid()
      modifies this
      ensures Valid() && history == old(history) + [Called(id, now)]
      ensures refused == None <==> Admits(config, old(Value()), now)
      ensures config.threshold >= 1 && (forall i :: 0 <= i < |old(history)| ==> old(history)[i].now <= now) ==>
        (refused == None <==>
          || FailuresInRow(old(history)) < config.threshold
          || (LatestFailure(old(history)).Some? && LatestFailure(old(history)).value + config.openDuration <= now))
      ensures refused.Some? ==> refused.value == RetryAfter(config, old(Value()), now)
    {
      if config.threshold >= 1 && forall i :: 0 <= i < |history| ==> history[i].now <= now {
        AdmitsIff(config, history, now);
      }
      OpenIsStamped(config, history);
      Advance(now);
      if state == Open {
        refused := Some(match openedAt
          case Some(t) => if Elapsed(t, now) >= config.openDuration then 0 else config.openDuration - Elapsed(t, now)
          case None => config.openDuration);
      } else {
        refused := None;
      }
      history := history + [Called(id, now)];
      assert history[..|history| - 1] == old(history);
    }

    /** The second half of a call, once the operation has answered. */
    method Finish(id: nat, now: nat, outcome: Outcome)
      requires Valid()
      modifies this
      ensures Valid() && history == old(history) + [Settled(id, now, outcome)]
      ensures outcome == Succeeded ==> state == Closed && failures == 0 && openedAt == None
      ensures outcome == FailedTransiently && old(failures) + 1 >= config.threshold ==>
        state == Open && openedAt == Some(now)
      ensures outcome == FailedPermanently ==> Value() == old(Value())
    {
      hide After;
      AfterOneMore(config, history, Settled(id, now, outcome));
      match outcome {
        case Succeeded =>
          failures, state, openedAt := 0, Closed, None;
        case FailedTransiently =>
          failures := failures + 1;
          if failures >= config.threshold {
            state, openedAt := Open, Some(now);
          }
        case FailedPermanently =>
      }
      history := history + [Settled(id, now, outcome)];
    }
  }
}
