/** The series registry of metrics.rs: counters, gauges and cumulative histograms. */
module Metrics {
  import opened SeriesKey

  datatype Kind = Counter | Histogram | Gauge

  datatype State = State(kind: Kind, scalar: real, bounds: seq<real>, counts: seq<nat>, sum: real, count: nat)

  /** Upper bounds in seconds. */
  const DEFAULT_BUCKETS: seq<real> :=
    [0.0005, 0.001, 0.005, 0.010, 0.025, 0.050, 0.080, 0.100, 0.250, 0.500, 1.0, 5.0, 30.0]

  function Zeros(n: nat): (r: seq<nat>)
    ensures |r| == n && forall i :: 0 <= i < n ==> r[i] == 0
  {
    if n == 0 then [] else Zeros(n - 1) + [0]
  }

  function NewHistogram(): State {
    State(Histogram, 0.0, DEFAULT_BUCKETS, Zeros(|DEFAULT_BUCKETS| + 1), 0.0, 0)
  }

  // ----- The reference: a histogram is its list of observations

  /** Observations not above `bound`. */
  function AtMost(values: seq<real>, bound: real): nat {
    if values == [] then 0
    else AtMost(values[..|values| - 1], bound) + if values[|values| - 1] <= bound then 1 else 0
  }

  function Total(values: seq<real>): real {
    if values == [] then 0.0 else Total(values[..|values| - 1]) + values[|values| - 1]
  }

  predicate Increasing(bounds: seq<real>) {
    forall i, j :: 0 <= i < j < |bounds| ==> bounds[i] <= bounds[j]
  }

  /** Bucket i counts the observations at most bounds[i]; the extra last bucket counts them all. */
  ghost predicate Summarises(s: State, values: seq<real>) {
    && s.kind == Histogram && |s.counts| == |s.bounds| + 1 && Increasing(s.bounds)
    && s.count == |values| && s.sum == Total(values)
    && (forall i :: 0 <= i < |s.bounds| ==> s.counts[i] == AtMost(values, s.bounds[i]))
    && s.counts[|s.bounds|] == |values|
  }

  lemma DefaultIncreasing()
    ensures Increasing(DEFAULT_BUCKETS)
  {
  }

  lemma NewBounds()
    ensures NewHistogram().kind == Histogram && NewHistogram().scalar == 0.0
    ensures NewHistogram().bounds
         == [0.0005, 0.001, 0.005, 0.010, 0.025, 0.050, 0.080, 0.100, 0.250, 0.500, 1.0, 5.0, 30.0]
  {
  }

  lemma NewSummarisesNothing()
    ensures Summarises(NewHistogram(), [])
  {
    DefaultIncreasing();
  }

  lemma {:induction false} AtMostGrows(values: seq<real>, a: real, b: real)
    requires a <= b
    ensures AtMost(values, a) <= AtMost(values, b) <= |values|
  {
    if values != [] {
      AtMostGrows(values[..|values| - 1], a, b);
    }
  }

  /** Cumulative counts never decrease from one bucket to the next, and the last equals `count`. */
  lemma CountsAreCumulative(s: State, values: seq<real>)
    requires Summarises(s, values)
    ensures forall i, j :: 0 <= i <= j < |s.counts| ==> s.counts[i] <= s.counts[j]
    ensures s.counts[|s.counts| - 1] == s.count
  {
    forall i, j | 0 <= i <= j < |s.counts|
      ensures s.counts[i] <= s.counts[j]
    {
      if j < |s.bounds| {
        AtMostGrows(values, s.bounds[i], s.bounds[j]);
      } else if i < |s.bounds| {
        AtMostGrows(values, s.bounds[i], s.bounds[i]);
      }
    }
  }

  // ----- One observation

  /** What the nested loops leave: one more from the first bucket that holds `v` on. */
  method Place(bounds: seq<real>, counts: seq<nat>, v: real) returns (after: seq<nat>)
    requires |counts| == |bounds| + 1 && Increasing(bounds)
    ensures |after| == |counts|
    ensures forall i :: 0 <= i < |bounds| ==> after[i] == counts[i] + if v <= bounds[i] then 1 else 0
    ensures after[|bounds|] == counts[|bounds|] + 1
  {
    after := counts;
    for i := 0 to |bounds|
      invariant after == counts && forall k :: 0 <= k < i ==> v > bounds[k]
    {
      if v <= bounds[i] {
        for j := i to |counts|
          invariant |after| == |counts|
          invariant forall k :: 0 <= k < |counts| ==> after[k] == counts[k] + if i <= k < j then 1 else 0
        {
          after := after[j := after[j] + 1];
        }
        return;
      }
    }
    var last := |after| - 1;
    after := after[last := after[last] + 1];
  }

  lemma AppendValue(values: seq<real>, v: real, bound: real)
    ensures AtMost(values + [v], bound) == AtMost(values, bound) + (if v <= bound then 1 else 0)
    ensures Total(values + [v]) == Total(values) + v
  {
    assert (values + [v])[..|values|] == values;
  }

  /** Each histogram summarises its observations; other entries have no buckets. */
  ghost predicate AllOk(series: map<string, State>, observed: map<string, seq<real>>) {
    forall key :: key in series ==> EntryOk(series[key], key, observed)
  }

  ghost predicate EntryOk(s: State, key: string, observed: map<string, seq<real>>) {
    if s.kind == Histogram then key in observed && Summarises(s, observed[key])
    else s.bounds == [] && s.counts == []
  }

  lemma StoreKeepsOk(series: map<string, State>, observed: map<string, seq<real>>, key: string, s: State)
    requires AllOk(series, observed) && EntryOk(s, key, observed)
    ensures AllOk(series[key := s], observed)
  {
    hide EntryOk;
  }

  lemma ObservationKeepsOk(series: map<string, State>, observed: map<string, seq<real>>, key: string,
                           s: State, values: seq<real>)
    requires AllOk(series, observed) && s.kind == Histogram && Summarises(s, values)
    ensures AllOk(series[key := s], observed[key := values])
  {
    hide Summarises;
    var after, seen := series[key := s], observed[key := values];
    forall k | k in after
      ensures EntryOk(after[k], k, seen)
    {
      assert k != key ==> EntryOk(series[k], k, observed);
    }
  }

  /**
   An entry keeps the kind it was made with, whatever is called on its key later.  Only histograms
   have buckets, so observing on another kind's key panics half-way: the sum and the count are
   already raised, and the lock, held at that moment, is poisoned for every later call.
   */
  class Registry {
    var series: map<string, State>
    var poisoned: bool
    /** Every value observed so far, per histogram key. */
    ghost var observed: map<string, seq<real>>

    ghost predicate Valid()
      reads this
    {
      AllOk(series, observed)
    }

    constructor ()
      ensures Valid() && series == map[] && observed == map[] && !poisoned
    {
      series, observed, poisoned := map[], map[], false;
    }

    method AddCounter(name: string, labels: seq<Label>, amount: real) returns (panicked: bool)
      requires Valid()
      modifies this
      ensures Valid() && observed == old(observed)
      ensures panicked == poisoned == old(poisoned)
      ensures panicked ==> series == old(series)
      ensures !panicked ==>
                var key := Key(name, labels);
                var before := if key in old(series) then old(series)[key] else State(Counter, 0.0, [], [], 0.0, 0);
                series == old(series)[key := before.(scalar := before.scalar + amount)]
    {
      if poisoned {
        return true;
      }
      var key := Key(name, labels);
      var entry := if key in series then series[key] else State(Counter, 0.0, [], [], 0.0, 0);
      StoreKeepsOk(series, observed, key, entry.(scalar := entry.scalar + amount));
      series := series[key := entry.(scalar := entry.scalar + amount)];
      panicked := false;
    }

    method SetGauge(name: string, labels: seq<Label>, value: real) returns (panicked: bool)
      requires Valid()
      modifies this
      ensures Valid() && observed == old(observed)
      ensures panicked == poisoned == old(poisoned)
      ensures panicked ==> series == old(series)
      ensures !panicked ==>
                var key := Key(name, labels);
                var before := if key in old(series) then old(series)[key] else State(Gauge, 0.0, [], [], 0.0, 0);
                series == old(series)[key := before.(scalar := value)]
    {
      if poisoned {
        return true;
      }
      var key := Key(name, labels);
      var entry := if key in series then series[key] else State(Gauge, 0.0, [], [], 0.0, 0);
      StoreKeepsOk(series, observed, key, entry.(scalar := value));
      series := series[key := entry.(scalar := value)];
      panicked := false;
    }

    /** A new key, or one that holds a histogram, takes the value; any other key is a panic. */
    method ObserveHistogram(name: string, labels: seq<Label>, value: real) returns (panicked: bool)
      requires Valid()
      modifies this
      ensures Valid()
      ensures panicked == (old(poisoned) || NoHistogram(old(series), Key(name, labels)))
      ensures poisoned == panicked
      ensures series.Keys == old(series).Keys + (if old(poisoned) then {} else {Key(name, labels)})
      ensures series - {Key(name, labels)} == old(series) - {Key(name, labels)}
      ensures !panicked ==>
                var key := Key(name, labels);
                var before := if key in old(series) then old(observed)[key] else [];
                && observed == old(observed)[key := before + [value]]
                && Summarises(series[key], before + [value])
                && series[key].scalar == (if key in old(series) then old(series)[key].scalar else 0.0)
                && series[key].bounds == if key in old(series) then old(series)[key].bounds else
                     [0.0005, 0.001, 0.005, 0.010, 0.025, 0.050, 0.080, 0.100, 0.250, 0.500, 1.0, 5.0, 30.0]
      ensures panicked ==> observed == old(observed)
      ensures panicked && Key(name, labels) in old(series) ==>
                var entry := old(series)[Key(name, labels)];
                series[Key(name, labels)] ==
                  if old(poisoned) then entry else entry.(sum := entry.sum + value, count := entry.count + 1)
    {
      if poisoned {
        return true;
      }
      NewSummarisesNothing();
      NewBounds();
      hide Key, NewHistogram, Increasing, AtMost, Total, Zeros, AllOk;
      var key := Key(name, labels);
      assert key in series ==> EntryOk(series[key], key, observed) by {
        EntryIsOk(series, observed, key);
      }
      var entry := if key in series then series[key] else NewHistogram();
      ghost var before := if key in series && entry.kind == Histogram then observed[key] else [];
      if entry.kind != Histogram {
        StoreKeepsOk(series, observed, key, entry.(sum := entry.sum + value, count := entry.count + 1));
        series := series[key := entry.(sum := entry.sum + value, count := entry.count + 1)];
        poisoned := true;
        return true;
      }
      var counts := Place(entry.bounds, entry.counts, value);
      ObservedOneMore(entry, before, value, counts);
      entry := entry.(sum := entry.sum + value, count := entry.count + 1, counts := counts);
      ObservationKeepsOk(series, observed, key, entry, before + [value]);
      series := series[key := entry];
      observed := observed[key := before + [value]];
      panicked := false;
    }
  }

  /** The key is taken by a counter or a gauge. */
  predicate NoHistogram(series: map<string, State>, key: string) {
    key in series && series[key].kind != Histogram
  }

  lemma EntryIsOk(series: map<string, State>, observed: map<string, seq<real>>, key: string)
    requires AllOk(series, observed)
    ensures key in series ==> EntryOk(series[key], key, observed)
  {
  }

  lemma ObservedOneMore(s: State, values: seq<real>, v: real, counts: seq<nat>)
    requires Summarises(s, values) && |counts| == |s.counts|
    requires forall i :: 0 <= i < |s.bounds| ==> counts[i] == s.counts[i] + if v <= s.bounds[i] then 1 else 0
    requires counts[|s.bounds|] == s.counts[|s.bounds|] + 1
    ensures Summarises(s.(sum := s.sum + v, count := s.count + 1, counts := counts), values + [v])
  {
    forall bound
      ensures AtMost(values + [v], bound) == AtMost(values, bound) + (if v <= bound then 1 else 0)
      ensures Total(values + [v]) == Total(values) + v
    {
      AppendValue(values, v, bound);
    }
    AppendValue(values, v, 0.0);
  }
}
