/** The crawler's per-host rate limiter. Clock readings are naturals and need not arrive in order. */
module RateLimiting {
  import opened Commons

  type Host = string

  datatype Bucket = Bucket(nextReady: nat, interval: nat)

  datatype Event =
    | Acquired(host: Host, now: nat)
    | IntervalSet(host: Host, now: nat, interval: nat)

  /** One granted fetch: when it was asked for, when it may run, and the interval then in force. */
  datatype Grant = Grant(asked: nat, at: nat, interval: nat)

  function BucketOf(standard: nat, buckets: map<Host, Bucket>, host: Host, now: nat): Bucket {
    if host in buckets then buckets[host] else Bucket(now, standard)
  }

  function Apply(standard: nat, buckets: map<Host, Bucket>, e: Event): map<Host, Bucket> {
    match e
    case IntervalSet(h, now, interval) =>
      buckets[h := BucketOf(standard, buckets, h, now).(interval := interval)]
    case Acquired(h, now) =>
      var b := BucketOf(standard, buckets, h, now);
      buckets[h := b.(nextReady := Max(b.nextReady, now) + b.interval)]
  }

  function Buckets(standard: nat, events: seq<Event>): map<Host, Bucket> {
    if events == [] then map[]
    else Apply(standard, Buckets(standard, events[..|events| - 1]), events[|events| - 1])
  }

  /** The fetches granted to `host` over a whole run of the limiter. */
  function Grants(standard: nat, events: seq<Event>, host: Host): seq<Grant> {
    if events == [] then []
    else
      var before, last := events[..|events| - 1], events[|events| - 1];
      var earlier := Grants(standard, before, host);
      if last.Acquired? && last.host == host then
        var b := BucketOf(standard, Buckets(standard, before), host, last.now);
        earlier + [Grant(last.now, Max(b.nextReady, last.now), b.interval)]
      else earlier
  }

  function OnHost(events: seq<Event>, host: Host): (r: seq<Event>)
    ensures forall i :: 0 <= i < |r| ==> r[i].host == host
  {
    if events == [] then []
    else
      var earlier := OnHost(events[..|events| - 1], host);
      if events[|events| - 1].host == host then earlier + [events[|events| - 1]] else earlier
  }

  /** After a grant, the host's bucket is ready again one interval after that grant. */
  lemma {:induction false} BucketFollowsLastGrant(standard: nat, events: seq<Event>, host: Host)
    ensures var gs := Grants(standard, events, host);
      gs != [] ==>
        && host in Buckets(standard, events)
        && Buckets(standard, events)[host].nextReady == gs[|gs| - 1].at + gs[|gs| - 1].interval
  {
    if events != [] {
      BucketFollowsLastGrant(standard, events[..|events| - 1], host);
    }
  }

  /**
   * Each fetch runs at the moment it was asked for or one interval after the one before it,
   * whichever is later. The interval is the one in force at the earlier fetch, even when it was
   * changed in between.
   */
  lemma {:induction false} NextGrantIsExact(standard: nat, events: seq<Event>, host: Host, i: nat)
    requires i + 1 < |Grants(standard, events, host)|
    ensures var gs := Grants(standard, events, host);
      gs[i + 1].at == Max(gs[i + 1].asked, gs[i].at + gs[i].interval)
  {
    var before := events[..|events| - 1];
    if i + 1 < |Grants(standard, before, host)| {
      NextGrantIsExact(standard, before, host, i);
    } else {
      BucketFollowsLastGrant(standard, before, host);
    }
  }

  /** Under intervals of at least `least`, any run of grants is spread out accordingly. */
  lemma {:induction false} GrantsAreSpread(standard: nat, events: seq<Event>, host: Host, least: nat, i: nat, j: nat)
    requires i <= j < |Grants(standard, events, host)|
    requires forall m :: i <= m < j ==> Grants(standard, events, host)[m].interval >= least
    ensures Grants(standard, events, host)[j].at >= Grants(standard, events, host)[i].at + (j - i) * least
    decreases j - i
  {
    if i < j {
      GrantsAreSpread(standard, events, host, least, i, j - 1);
      NextGrantIsExact(standard, events, host, j - 1);
      assert (j - i) * least == (j - 1 - i) * least + least;
    }
  }

  lemma {:induction false} BucketsOfHost(standard: nat, events: seq<Event>, host: Host)
    ensures host in Buckets(standard, events) <==> host in Buckets(standard, OnHost(events, host))
    ensures host in Buckets(standard, events) ==>
      Buckets(standard, events)[host] == Buckets(standard, OnHost(events, host))[host]
  {
    if events != [] {
      var before, last := events[..|events| - 1], events[|events| - 1];
      BucketsOfHost(standard, before, host);
      assert (OnHost(before, host) + [last])[..|OnHost(before, host)|] == OnHost(before, host);
    }
  }

  /** What happens on one host is decided by the events of that host alone. */
  lemma {:induction false} HostsAreIndependent(standard: nat, events: seq<Event>, host: Host)
    ensures Grants(standard, events, host) == Grants(standard, OnHost(events, host), host)
  {
    if events != [] {
      var before, last := events[..|events| - 1], events[|events| - 1];
      HostsAreIndependent(standard, before, host);
      BucketsOfHost(standard, before, host);
      assert (OnHost(before, host) + [last])[..|OnHost(before, host)|] == OnHost(before, host);
    }
  }

  function TimeOf(e: Event): nat { e.now }

  lemma {:induction false} UngrantedIsReady(standard: nat, events: seq<Event>, host: Host, now: nat)
    requires forall i :: 0 <= i < |events| ==> events[i].now <= now
    requires Grants(standard, events, host) == []
    requires host in Buckets(standard, events)
    ensures Buckets(standard, events)[host].nextReady <= now
  {
    if events != [] {
      var before, last := events[..|events| - 1], events[|events| - 1];
      if host in Buckets(standard, before) {
        UngrantedIsReady(standard, before, host, now);
      } else {
        assert last.IntervalSet? && last.host == host;
      }
    }
  }

  /** With an ordered clock the first fetch of a host never waits. */
  lemma {:induction false} FirstGrantIsImmediate(standard: nat, events: seq<Event>, host: Host)
    requires InOrder(TimeOf, events)
    requires Grants(standard, events, host) != []
    ensures Grants(standard, events, host)[0].at == Grants(standard, events, host)[0].asked
  {
    var before, last := events[..|events| - 1], events[|events| - 1];
    if Grants(standard, before, host) != [] {
      FirstGrantIsImmediate(standard, before, host);
    } else if host in Buckets(standard, before) {
      UngrantedIsReady(standard, before, host, last.now);
    }
  }

  class RateLimiter {
    const defaultInterval: nat
    var state: map<Host, Bucket>
    ghost var history: seq<Event>

    ghost predicate Valid() reads this {
      state == Buckets(defaultInterval, history)
    }

    constructor (interval: nat)
      ensures Valid() && defaultInterval == interval && history == []
    {
      defaultInterval := interval;
      state := map[];
      history := [];
    }

    method SetInterval(host: Host, now: nat, interval: nat)
      requires Valid()
      modifies this
      ensures Valid() && history == old(history) + [IntervalSet(host, now, interval)]
      ensures host in state && state[host].interval == interval
      ensures old(host in state) ==> state[host].nextReady == old(state)[host].nextReady
      ensures forall h :: h != host ==> (h in state <==> h in old(state))
      ensures forall h :: h != host && h in state ==> state[h] == old(state)[h]
    {
      if host !in state {
        state := state[host := Bucket(now, interval)];
      }
      state := state[host := state[host].(interval := interval)];
      history := history + [IntervalSet(host, now, interval)];
      assert history[..|history| - 1] == old(history);
    }

    /** The wait returned is exactly the distance from the clock reading to the granted time. */
    method AcquireWait(host: Host, now: nat) returns (wait: nat)
      requires Valid()
      modifies this
      ensures Valid() && history == old(history) + [Acquired(host, now)]
      ensures Grants(defaultInterval, history, host) == Grants(defaultInterval, old(history), host)
        + [Grant(now, now + wait, if old(host in state) then old(state)[host].interval else defaultInterval)]
      ensures forall h :: h != host ==> Grants(defaultInterval, history, h) == Grants(defaultInterval, old(history), h)
      ensures forall h :: h != host ==> (h in state <==> h in old(state))
      ensures forall h :: h != host && h in state ==> state[h] == old(state)[h]
    {
      if host !in state {
        state := state[host := Bucket(now, defaultInterval)];
      }
      var entry := state[host];
      wait := if now >= entry.nextReady then 0 else entry.nextReady - now;
      var start := Max(entry.nextReady, now);
      state := state[host := entry.(nextReady := start + entry.interval)];
      history := history + [Acquired(host, now)];
      assert history[..|history| - 1] == old(history);
    }

    method IntervalOf(host: Host) returns (interval: nat)
      requires Valid()
      ensures interval == LastInterval(defaultInterval, history, host)
    {
      IntervalIsLastSet(defaultInterval, history, host, 0);
      interval := if host in state then state[host].interval else defaultInterval;
    }
  }

  /** The interval last set for the host, or the standard one. */
  function LastInterval(standard: nat, events: seq<Event>, host: Host): nat {
    if events == [] then standard
    else
      var last := events[|events| - 1];
      if last.IntervalSet? && last.host == host then last.interval
      else LastInterval(standard, events[..|events| - 1], host)
  }

  /** A host's interval is the one last set, whatever was granted since. */
  lemma {:induction false} IntervalIsLastSet(standard: nat, events: seq<Event>, host: Host, now: nat)
    ensures BucketOf(standard, Buckets(standard, events), host, now).interval == LastInterval(standard, events, host)
  {
    if events != [] {
      IntervalIsLastSet(standard, events[..|events| - 1], host, now);
    }
  }

  /** The interval in force at a grant is the one last set before it. */
  lemma GrantInterval(standard: nat, before: seq<Event>, host: Host, now: nat)
    ensures var gs := Grants(standard, before + [Acquired(host, now)], host);
      gs != [] && gs[|gs| - 1].interval == LastInterval(standard, before, host) && gs[|gs| - 1].asked == now
  {
    assert (before + [Acquired(host, now)])[..|before|] == before;
    IntervalIsLastSet(standard, before, host, now);
  }
}
