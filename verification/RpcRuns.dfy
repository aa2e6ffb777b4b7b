/** Whole runs of the link: what holds in every interleaving, for every id and every caller. */
module RpcRuns {
  import opened Commons
  import opened Rpc
  import opened RpcInvariant

  ghost predicate IsStep(before: Link, step: Step, after: Link) {
    Enabled(before, step) && after == Do(before, step)
  }

  /** `after` is the state that the steps lead to, one after the other. */
  ghost predicate Leads(before: Link, steps: seq<Step>, after: Link)
    decreases |steps|, 0
  {
    if steps == [] then after == before else LeadsBy(before, steps[..|steps| - 1], steps[|steps| - 1], after)
  }

  ghost predicate LeadsBy(before: Link, front: seq<Step>, last: Step, after: Link)
    decreases |front|, 1
  {
    exists mid :: Leads(before, front, mid) && IsStep(mid, last, after)
  }

  lemma OneMoreStep(before: Link, steps: seq<Step>, mid: Link, last: Step)
    requires Leads(before, steps, mid) && Enabled(mid, last)
    ensures Leads(before, steps + [last], Do(mid, last))
  {
    hide Do, Enabled;
    assert (steps + [last])[..|steps|] == steps;
    assert IsStep(mid, last, Do(mid, last));
    assert LeadsBy(before, steps, last, Do(mid, last));
  }

  lemma NoSteps(s: Link)
    ensures Leads(s, [], s)
  {
  }

  /** A step in front of a run. */
  lemma {:induction false} OneStepFirst(before: Link, first: Step, more: seq<Step>, after: Link)
    requires Enabled(before, first) && Leads(Do(before, first), more, after)
    ensures Leads(before, [first] + more, after)
    decreases |more|
  {
    hide Do, Enabled;
    if more == [] {
      NoSteps(before);
      OneMoreStep(before, [], before, first);
      assert [first] + more == [] + [first];
    } else {
      var front, last := more[..|more| - 1], more[|more| - 1];
      assert LeadsBy(Do(before, first), front, last, after);
      var mid :| Leads(Do(before, first), front, mid) && IsStep(mid, last, after);
      OneStepFirst(before, first, front, mid);
      OneMoreStep(before, [first] + front, mid, last);
      assert [first] + more == [first] + front + [last];
    }
  }

  /** `s` is the state after some interleaving, `steps`, of the link's steps. */
  ghost predicate Reaches(steps: seq<Step>, s: Link) {
    Leads(Start(), steps, s)
  }

  lemma StartIsFine()
    ensures Invariant(Start())
  {
  }

  lemma {:induction false} RunKeepsInvariant(steps: seq<Step>, s: Link)
    requires Reaches(steps, s)
    ensures Invariant(s)
  {
    hide Invariant, Enabled, Do;
    if steps == [] {
      StartIsFine();
    } else {
      var front, last := steps[..|steps| - 1], steps[|steps| - 1];
      assert LeadsBy(Start(), front, last, s);
      var before :| Leads(Start(), front, before) && IsStep(before, last, s);
      RunKeepsInvariant(front, before);
      StepKeepsInvariant(before, last);
    }
  }

  lemma LiveWasSent(s: Link, copy: Copy)
    requires Invariant(s) && copy in Live(s) + s.delivered + s.lost
    ensures copy in s.sent && CopyOk(TableOf(s, copy.side), s.sent, copy)
  {
    hide Live, Directed, Nested, CopyOk;
    assert copy in s.sent;
  }

  /** In every interleaving an id has at most one copy, in one account: live, delivered or lost. */
  lemma AtMostOneCopy(steps: seq<Step>, s: Link, a: Copy, b: Copy)
    requires Reaches(steps, s)
    ensures Live(s)[a] + s.delivered[a] + s.lost[a] <= 1
    ensures a in Live(s) && b in Live(s) && a.side == b.side && a.id == b.id ==> a == b
  {
    hide Reaches, Live, Directed, Nested, WaiterOk, CallOk;
    RunKeepsInvariant(steps, s);
    assert (Live(s) + s.delivered + s.lost)[a] == s.sent[a];
    if a in s.sent {
      LiveWasSent(s, a);
    }
    if a in Live(s) && b in Live(s) && a.side == b.side && a.id == b.id {
      LiveWasSent(s, a);
      LiveWasSent(s, b);
    }
  }

  /** A caller is woken only with the payload of its own request, and only once that was delivered. */
  lemma ResolvedByOwnResponse(steps: seq<Step>, s: Link, side: Side, c: nat, payload: nat)
    requires Reaches(steps, s) && HasPhase(TableOf(s, side), c, Resolved(payload))
    ensures payload == c
    ensures s.delivered[Copy(side, TableOf(s, side).calls[c].id, c)] == 1
    ensures Live(s)[Copy(side, TableOf(s, side).calls[c].id, c)] == 0
  {
    hide Reaches, Live, Directed, Nested, WaiterOk, CopyOk;
    RunKeepsInvariant(steps, s);
    var copy := Copy(side, TableOf(s, side).calls[c].id, c);
    assert CallOk(TableOf(s, side), side, s.delivered, c);
    AtMostOneCopy(steps, s, copy, copy);
  }

  predicate IsResolved(t: Table, c: nat) {
    c in t.calls && t.calls[c].phase.Resolved?
  }

  /** What a step can do to one side's table; a failed send leaves the entry behind or takes it out. */
  datatype TableOp =
    | Keep
    | ToAllocate(c: nat)
    | ToRegister(c: nat)
    | ToSend(c: nat)
    | ToFail(c: nat, keep: bool)
    | ToDeliver(copy: Copy)
    | ToClear

  predicate OpEnabled(t: Table, op: TableOp) {
    match op
    case ToAllocate(c) => c !in t.calls
    case ToRegister(c) => HasPhase(t, c, Allocated)
    case ToSend(c) => HasPhase(t, c, Registered)
    case ToFail(c, _) => HasPhase(t, c, Registered)
    case _ => true
  }

  function TableAfter(t: Table, op: TableOp): Table
    requires OpEnabled(t, op)
  {
    match op
    case Keep => t
    case ToAllocate(c) => Allocate(t, c)
    case ToRegister(c) => Register(t, c)
    case ToSend(c) => Sent(t, c)
    case ToFail(c, keep) => SetPhase(if keep then t else t.(pending := t.pending - {t.calls[c].id}), c, Failed)
    case ToDeliver(copy) => Deliver(t, copy)
    case ToClear => Clear(t)
  }

  lemma OpKeepsResolved(t: Table, op: TableOp, side: Side, sent: multiset<Copy>, delivered: multiset<Copy>, c: nat)
    requires TableOk(t, side, sent, delivered) && IsResolved(t, c) && OpEnabled(t, op)
    ensures c in TableAfter(t, op).calls && TableAfter(t, op).calls[c] == t.calls[c]
  {
    if op.ToDeliver? && op.copy.id in t.pending {
      assert WaiterOk(t, op.copy.id);
    }
  }

  function OpOf(s: Link, step: Step, side: Side): (op: TableOp)
    requires Enabled(s, step)
    ensures OpEnabled(TableOf(s, side), op)
  {
    match step
    case Begin(c) => if side == Client then ToAllocate(c) else Keep
    case Elicit(_, c) => if side == Server then ToAllocate(c) else Keep
    case DoRegister(at, c) => if side == at then ToRegister(c) else Keep
    case Send(at, c) => if side == at then ToSend(c) else Keep
    case SendFails(at, c) => if side == at then ToFail(c, at == Client) else Keep
    case ServerTake => if side == Server && s.serverIn[0].Response? then ToDeliver(s.serverIn[0].copy) else Keep
    case ClientRead => if side == Client && s.toClient[0].Response? then ToDeliver(s.toClient[0].copy) else Keep
    case ClientEof => if side == Client then ToClear else Keep
    case _ => Keep
  }

  lemma CallerStepIsOp(s: Link, step: Step, side: Side)
    requires Enabled(s, step)
    requires step.DoRegister? || step.Send? || step.ClientEof?
    ensures TableOf(Do(s, step), side) == TableAfter(TableOf(s, side), OpOf(s, step, side))
  {
    hide Carried, Held, Clear, Sent, Register, Allocate, SetPhase, Deliver, Route, Answer, Remove;
  }

  lemma StartIsOp(s: Link, step: Step, side: Side)
    requires Enabled(s, step) && (step.Begin? || step.Elicit?)
    ensures TableOf(Do(s, step), side) == TableAfter(TableOf(s, side), OpOf(s, step, side))
  {
    hide Carried, Held, Clear, Sent, Register, Allocate, SetPhase, Deliver, Route, Answer, Remove;
  }

  lemma FailureIsOp(s: Link, at: Side, c: nat, side: Side)
    requires Enabled(s, SendFails(at, c))
    ensures TableOf(Do(s, SendFails(at, c)), side) == TableAfter(TableOf(s, side), OpOf(s, SendFails(at, c), side))
  {
    hide Carried, Held, Clear, Sent, Register, Allocate, Deliver, Route, Answer, Remove;
  }

  lemma TakeIsOp(s: Link, side: Side)
    requires Enabled(s, ServerTake)
    ensures TableOf(Do(s, ServerTake), side) == TableAfter(TableOf(s, side), OpOf(s, ServerTake, side))
  {
    hide Deliver, Carried, Held, Answer, Remove, Clear, Sent, Register, Allocate, SetPhase;
  }

  lemma ReadIsOp(s: Link, side: Side)
    requires Enabled(s, ClientRead)
    ensures TableOf(Do(s, ClientRead), side) == TableAfter(TableOf(s, side), OpOf(s, ClientRead, side))
  {
    hide Deliver, Carried, Held, Answer, Remove, Clear, Sent, Register, Allocate, SetPhase;
  }

  lemma WireStepIsOp(s: Link, step: Step, side: Side)
    requires Enabled(s, step)
    requires step.Write? || step.WriterStops? || step.ServerRead? || step.Resume? || step.ServerEof?
    ensures TableOf(Do(s, step), side) == TableOf(s, side)
  {
    hide Carried, Held, Remove;
  }

  lemma FinishIsOp(s: Link, at: Side, i: nat, side: Side)
    requires Enabled(s, Finish(at, i))
    ensures TableOf(Do(s, Finish(at, i)), side) == TableOf(s, side)
  {
    FinishIsAnswer(s, at, i);
    hide Do, Remove;
  }

  lemma PanicIsOp(s: Link, at: Side, i: nat, side: Side)
    requires Enabled(s, Panics(at, i))
    ensures TableOf(Do(s, Panics(at, i)), side) == TableOf(s, side)
  {
    hide Carried, Held, Remove;
    match at
    case Server =>
    case Client =>
  }

  lemma StepIsOp(s: Link, step: Step, side: Side)
    requires Enabled(s, step)
    ensures TableOf(Do(s, step), side) == TableAfter(TableOf(s, side), OpOf(s, step, side))
  {
    hide Do, Enabled;
    match step
    case ServerTake => TakeIsOp(s, side);
    case ClientRead => ReadIsOp(s, side);
    case Begin(_) => StartIsOp(s, step, side);
    case Elicit(_, _) => StartIsOp(s, step, side);
    case DoRegister(_, _) => CallerStepIsOp(s, step, side);
    case Send(_, _) => CallerStepIsOp(s, step, side);
    case SendFails(at, c) => FailureIsOp(s, at, c, side);
    case ClientEof => CallerStepIsOp(s, step, side);
    case Finish(at, i) => FinishIsOp(s, at, i, side);
    case Panics(at, i) => PanicIsOp(s, at, i, side);
    case _ => WireStepIsOp(s, step, side);
  }

  /** Once woken a caller is never touched again: no later response reaches it. */
  lemma ResolvedForGood(steps: seq<Step>, s: Link, step: Step, side: Side, c: nat)
    requires Reaches(steps, s) && Enabled(s, step) && IsResolved(TableOf(s, side), c)
    ensures IsResolved(TableOf(Do(s, step), side), c)
    ensures TableOf(Do(s, step), side).calls[c] == TableOf(s, side).calls[c]
  {
    RunKeepsInvariant(steps, s);
    assert TablesOk(s);
    hide Reaches, Invariant, Do, TableAfter, OpOf, TableOk, Enabled;
    StepIsOp(s, step, side);
    OpKeepsResolved(TableOf(s, side), OpOf(s, step, side), side, s.sent, s.delivered, c);
  }

  /**
   While an elicitation is in flight, the tool call that started it is still held by its suspended
   handler: the client has not been answered.
   */
  lemma ElicitationIsNested(steps: seq<Step>, s: Link, copy: Copy)
    requires Reaches(steps, s) && copy in Live(s) && copy.side == Server
    ensures exists t :: t in s.serverTasks && t.awaits == Some(copy.call)
              && t.copy in Live(s) && t.copy.side == Client && t.copy !in s.delivered
              && t.copy.call in s.client.calls && !s.client.calls[t.copy.call].phase.Resolved?
  {
    RunKeepsInvariant(steps, s);
    AtMostOneCopy(steps, s, copy, copy);
    LiveWasSent(s, copy);
    var t := SuspendedHandler(s, copy);
    TaskIsLive(s, t);
    assert t.copy.side == Client by { hide Live, Conserved, TablesOk, Nested; }
    AtMostOneCopy(steps, s, t.copy, t.copy);
    LiveWasSent(s, t.copy);
    hide Reaches, Live, Directed, Nested, Conserved, Invariant;
    var c := t.copy.call;
    if s.client.calls[c].phase.Resolved? {
      ResolvedByOwnResponse(steps, s, Client, c, s.client.calls[c].phase.payload);
    }
  }

  lemma SuspendedHandler(s: Link, copy: Copy) returns (t: Task)
    requires Invariant(s) && copy in s.sent && copy.side == Server && copy !in s.delivered
    ensures t in s.serverTasks && t.awaits == Some(copy.call)
  {
    hide Conserved, Directed, Live;
    assert CopyOk(s.server, s.sent, copy);
    assert CallOk(s.server, Server, s.delivered, copy.call) && ElicitOk(s, copy.call);
    t :| t in s.serverTasks && t.awaits == Some(copy.call);
  }

  lemma {:induction false} HeldContains(ts: seq<Task>, t: Task)
    requires t in ts
    ensures t.copy in Held(ts)
  {
    var k := |ts| - 1;
    if ts[k] != t {
      assert t in ts[..k];
      HeldContains(ts[..k], t);
    }
  }

  lemma TaskIsLive(s: Link, t: Task)
    requires t in s.serverTasks
    ensures t.copy in Live(s)
  {
    hide Carried, Held;
    HeldContains(s.serverTasks, t);
  }
}
