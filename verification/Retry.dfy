/** Retry with backoff; the operation is the sequence of answers it would give, delays are in ms. */
module Retrying {
  import opened Commons

  datatype Outcome = Success(value: int) | Transient(code: int) | Permanent(code: int)

  datatype Policy = Policy(maxAttempts: nat, initial: nat, multiplier: real, maxDelay: nat)

  /** The cast from the float saturates: a negative product becomes zero. */
  function Truncated(x: real): nat {
    if x < 0.0 then 0 else x.Floor
  }

  function NextDelay(p: Policy, delay: nat): nat {
    Min(Truncated(delay as real * p.multiplier), p.maxDelay)
  }

  /** The pause after failed attempt number `i + 1`; the first one is not capped. */
  function Delay(p: Policy, i: nat): nat {
    if i == 0 then p.initial else NextDelay(p, Delay(p, i - 1))
  }

  function Total(pauses: seq<nat>): nat {
    if pauses == [] then 0 else Total(pauses[..|pauses| - 1]) + pauses[|pauses| - 1]
  }

  /** The total of one pause is that pause, and totals add up: the plain sum. */
  lemma {:induction false} TotalAdds(a: seq<nat>, b: seq<nat>, x: nat)
    ensures Total([x]) == x && Total(a + b) == Total(a) + Total(b)
  {
    assert [x][..0] == [];
    if b == [] {
      assert a + b == a;
    } else {
      assert (a + b)[..|a + b| - 1] == a + b[..|b| - 1];
      TotalAdds(a, b[..|b| - 1], x);
    }
  }

  /** The next pause is the product cut to whole milliseconds, nothing for a negative one, and at most the cap. */
  lemma NextDelayIs(p: Policy, delay: nat, product: real)
    requires product == delay as real * p.multiplier
    ensures NextDelay(p, delay) <= p.maxDelay
    ensures product < 0.0 ==> NextDelay(p, delay) == 0
    ensures product >= 0.0 ==> NextDelay(p, delay) as real <= product
    ensures product >= 0.0 && NextDelay(p, delay) < p.maxDelay ==> product < NextDelay(p, delay) as real + 1.0
  {}

  /** The number of calls a policy allows at most; even a budget of zero makes one. */
  function Budget(p: Policy): nat {
    if p.maxAttempts < 1 then 1 else p.maxAttempts
  }

  /** `n` calls are made: each but the last fails transiently, and the last one settles the matter. */
  ghost predicate MakesCalls(p: Policy, op: nat -> Outcome, n: nat) {
    && 1 <= n <= Budget(p)
    && (forall i :: 0 <= i < n - 1 ==> op(i).Transient?)
    && (op(n - 1).Transient? ==> n == Budget(p))
  }

  lemma CallsAreDetermined(p: Policy, op: nat -> Outcome, m: nat, n: nat)
    requires MakesCalls(p, op, m) && MakesCalls(p, op, n)
    ensures m == n
  {
    var lastOfM, lastOfN := op(m - 1), op(n - 1);
  }

  method RetryWithBackoff(p: Policy, op: nat -> Outcome) returns (r: Outcome, calls: nat, pauses: seq<nat>)
    ensures MakesCalls(p, op, calls) && r == op(calls - 1)
    ensures |pauses| == calls - 1
    ensures forall i :: 0 <= i < |pauses| ==> pauses[i] == Delay(p, i)
  {
    var delay := p.initial;
    calls := 0;
    pauses := [];
    while true
      invariant calls < Budget(p) && |pauses| == calls && delay == Delay(p, calls)
      invariant forall i :: 0 <= i < calls ==> op(i).Transient?
      invariant forall i :: 0 <= i < calls ==> pauses[i] == Delay(p, i)
      decreases Budget(p) - calls
    {
      r := op(calls);
      calls := calls + 1;
      if !r.Transient? || calls >= p.maxAttempts {
        return;
      }
      pauses := pauses + [delay];
      delay := NextDelay(p, delay);
    }
  }

  /** The retried call succeeds exactly when a success comes within the budget, behind transient errors only. */
  lemma SucceedsIff(p: Policy, op: nat -> Outcome, n: nat)
    requires MakesCalls(p, op, n)
    ensures op(n - 1).Success? <==>
      exists i: nat :: i < Budget(p) && op(i).Success? && forall j: nat :: j < i ==> op(j).Transient?
  {
    if op(n - 1).Success? {
      assert forall j: nat :: j < n - 1 ==> op(j).Transient?;
    }
    if i: nat :| i < Budget(p) && op(i).Success? && forall j: nat :: j < i ==> op(j).Transient? {
      assert MakesCalls(p, op, i + 1);
      CallsAreDetermined(p, op, n, i + 1);
    }
  }

  /** Every pause but the first is capped, so the time spent waiting is bounded by the policy. */
  lemma {:induction false} WaitIsBounded(p: Policy, pauses: seq<nat>)
    requires forall i :: 0 <= i < |pauses| ==> pauses[i] == Delay(p, i)
    ensures pauses == [] ==> Total(pauses) == 0
    ensures pauses != [] ==> Total(pauses) <= p.initial + (|pauses| - 1) * p.maxDelay
  {
    if |pauses| > 1 {
      var k := |pauses| - 1;
      WaitIsBounded(p, pauses[..k]);
      assert Delay(p, k) <= p.maxDelay;
      assert (|pauses| - 1) * p.maxDelay == (k - 1) * p.maxDelay + p.maxDelay;
    } else if pauses != [] {
      assert pauses[..0] == [];
    }
  }

  function Power2(n: nat): (r: nat)
    ensures r >= 1
  {
    if n == 0 then 1 else 2 * Power2(n - 1)
  }

  /** With the default multiplier of two the pauses double until the cap. */
  lemma {:induction false} PausesDouble(p: Policy, i: nat)
    requires p.multiplier == 2.0 && p.initial <= p.maxDelay
    ensures Delay(p, i) == Min(p.initial * Power2(i), p.maxDelay)
  {
    if i > 0 {
      PausesDouble(p, i - 1);
      var d := Delay(p, i - 1);
      assert d as real * 2.0 == (2 * d) as real;
      assert Truncated((2 * d) as real) == 2 * d;
      assert p.initial * Power2(i) == 2 * (p.initial * Power2(i - 1));
    } else {
      assert p.initial * Power2(0) == p.initial;
    }
  }

  /** A multiplier of at least one never shortens a pause, apart from the cap on the first. */
  lemma PausesNeverShrink(p: Policy, i: nat)
    requires p.multiplier >= 1.0 && p.initial <= p.maxDelay
    ensures Delay(p, i) <= Delay(p, i + 1)
  {
    DelayIsCapped(p, i);
    NextIsNoLess(p, Delay(p, i));
  }

  lemma FloorIsNoLess(x: real, d: int)
    requires x >= d as real
    ensures x.Floor >= d
  {}

  lemma NextIsNoLess(p: Policy, d: nat)
    requires p.multiplier >= 1.0 && d <= p.maxDelay
    ensures NextDelay(p, d) >= d
  {
    var x := d as real * p.multiplier;
    Stretches(d as real, p.multiplier);
    FloorIsNoLess(x, d);
  }

  lemma Stretches(x: real, m: real)
    requires x >= 0.0 && m >= 1.0
    ensures x * m >= x
  {
    assert x * m == x + x * (m - 1.0);
  }

  lemma DelayIsCapped(p: Policy, i: nat)
    requires p.initial <= p.maxDelay
    ensures Delay(p, i) <= p.maxDelay
  {}
}
