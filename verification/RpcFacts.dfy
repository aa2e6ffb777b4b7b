/**
 What a step books for one message, and what every run keeps besides the invariant: a closed outbox
 is empty, a suspended handler waits for an elicitation that exists, and a call that waits was sent
 and its answer has not come.  Both halves of the question which callers return rest on this: the
 server's half, about elicitations, and the client's, about calls that a handler may hold.
 */
module RpcFacts {
  import opened Commons
  import opened Rpc
  import opened RpcInvariant
  import opened RpcRuns
  import opened RpcWaiters

  function CopyOf(s: Link, side: Side, c: nat): Copy
    requires c in TableOf(s, side).calls
  {
    Copy(side, TableOf(s, side).calls[c].id, c)
  }

  predicate ClosedAreEmpty(s: Link) {
    (!s.clientOutOpen ==> s.clientOut == []) && (!s.serverOutOpen ==> s.serverOut == [])
  }

  // ----- What a finished handler sends

  /** A handler's answer goes to the end of its side's outbox, and nothing else is sent or lost. */
  lemma FinishAnswers(s: Link, side: Side, i: nat)
    requires Enabled(s, Finish(side, i)) && OutOpen(s, side)
    ensures var after := Do(s, Finish(side, i));
      && after.lost == s.lost
      && (side == Server ==>
            && after.serverOut == s.serverOut + [Response(s.serverTasks[i].copy)]
            && after.serverTasks == s.serverTasks[..i] + s.serverTasks[i + 1..]
            && after.clientOut == s.clientOut && after.clientTasks == s.clientTasks)
      && (side == Client ==>
            && after.clientOut == s.clientOut + [Response(s.clientTasks[i].copy)]
            && after.clientTasks == s.clientTasks[..i] + s.clientTasks[i + 1..]
            && after.serverOut == s.serverOut && after.serverTasks == s.serverTasks)
  {
    match side
    case Server =>
    case Client =>
  }

  // ----- What one step books for one copy

  /** The step takes the copy's answer off its caller's queue. */
  predicate TakesAnswer(s: Link, step: Step, k: Copy) {
    if k.side == Server then step == ServerTake && s.serverIn != [] && s.serverIn[0] == Response(k)
    else step == ClientRead && s.toClient != [] && s.toClient[0] == Response(k)
  }

  /** Accounts only grow, and a delivery takes the head of the caller's queue. */
  ghost predicate Books(s: Link, step: Step, after: Link, k: Copy) {
    && (ClosedAreEmpty(s) ==> ClosedAreEmpty(after))
    && (k in s.sent ==> k in after.sent)
    && (k in s.lost ==> k in after.lost)
    && (k in after.delivered <==> k in s.delivered || TakesAnswer(s, step, k))
  }

  /** Messages, client handlers, outboxes and accounts are the same, and no reader resumes. */
  predicate SameTraffic(s: Link, after: Link) {
    && after.clientOut == s.clientOut && after.toServer == s.toServer && after.serverIn == s.serverIn
    && after.serverOut == s.serverOut && after.toClient == s.toClient && after.clientTasks == s.clientTasks
    && after.clientOutOpen == s.clientOutOpen && after.serverOutOpen == s.serverOutOpen
    && (after.clientReading ==> s.clientReading) && (after.serverReading ==> s.serverReading)
    && after.sent == s.sent && after.delivered == s.delivered && after.lost == s.lost
  }

  lemma CallerTraffic(s: Link, step: Step)
    requires Enabled(s, step) && IsQuiet(step) && !step.ClientEof? && !step.ServerEof?
    ensures SameTraffic(s, Do(s, step))
  {
    hide Register, Allocate, SetPhase;
  }

  lemma EofTraffic(s: Link, step: Step)
    requires Enabled(s, step) && (step.ClientEof? || step.ServerEof?)
    ensures SameTraffic(s, Do(s, step))
  {
    hide Clear;
  }

  lemma QuietBooks(s: Link, step: Step, k: Copy)
    requires Enabled(s, step) && IsQuiet(step)
    ensures Books(s, step, Do(s, step), k)
  {
    hide Do, Enabled;
    if step.ClientEof? || step.ServerEof? {
      EofTraffic(s, step);
    } else {
      CallerTraffic(s, step);
    }
  }

  lemma OutboxBooks(s: Link, step: Step, k: Copy)
    requires Enabled(s, step) && (step.Send? || step.Write? || step.WriterStops? || step.ServerRead?)
    ensures Books(s, step, Do(s, step), k)
  {
    hide Sent, Carried;
  }

  lemma TakeBooks(s: Link, k: Copy)
    requires Enabled(s, ServerTake) && Directed(s)
    ensures Books(s, ServerTake, Do(s, ServerTake), k)
  {
    assert TowardsServer(s.serverIn[0]) by {
      assert s.serverIn[0] in s.serverIn;
    }
    hide Deliver, Directed;
  }

  lemma ClientReadBooks(s: Link, k: Copy)
    requires Enabled(s, ClientRead) && Directed(s)
    ensures Books(s, ClientRead, Do(s, ClientRead), k)
  {
    assert TowardsServer(s.toClient[0]) == false by {
      assert s.toClient[0] in s.toClient;
    }
    hide Deliver, Directed;
  }

  lemma TaskEndBooks(s: Link, step: Step, k: Copy)
    requires Enabled(s, step) && (step.Finish? || step.Panics?)
    ensures Books(s, step, Do(s, step), k)
  {
    hide Remove;
    match step
    case Finish(Server, i) =>
    case Finish(Client, i) =>
    case Panics(Server, i) =>
    case Panics(Client, i) =>
  }

  lemma StepBooks(s: Link, step: Step, k: Copy)
    requires Enabled(s, step) && Directed(s)
    ensures Books(s, step, Do(s, step), k)
  {
    hide Books, Do, Enabled, Directed;
    match step
    case Send(_, _) => OutboxBooks(s, step, k);
    case Write(_) => OutboxBooks(s, step, k);
    case WriterStops(_) => OutboxBooks(s, step, k);
    case ServerRead => OutboxBooks(s, step, k);
    case ServerTake => TakeBooks(s, k);
    case ClientRead => ClientReadBooks(s, k);
    case Finish(_, _) => TaskEndBooks(s, step, k);
    case Panics(_, _) => TaskEndBooks(s, step, k);
    case _ => QuietBooks(s, step, k);
  }

  // ----- More facts that every run keeps

  /** A waiting call was sent, and its answer has not come. */
  ghost predicate Flies(s: Link, side: Side, c: nat) {
    HasPhase(TableOf(s, side), c, Waiting) ==>
      CopyOf(s, side, c) in s.sent && CopyOf(s, side, c) !in s.delivered
  }

  /** A suspended handler waits for an elicitation that exists. */
  predicate AwaitsKnown(s: Link) {
    forall t :: t in s.serverTasks && t.awaits.Some? ==> t.awaits.value in s.server.calls
  }

  ghost predicate Fact(s: Link) {
    && Invariant(s) && ClosedAreEmpty(s) && AwaitsKnown(s)
    && forall side, c :: c in TableOf(s, side).calls ==> Flies(s, side, c)
  }

  lemma SendIsSent(s: Link, side: Side, c: nat)
    requires Enabled(s, Send(side, c))
    ensures Copy(side, TableOf(s, side).calls[c].id, c) in Do(s, Send(side, c)).sent
  {
    hide Sent, Carried, Held;
  }

  predicate DeliversTo(t: Table, op: TableOp, side: Side, c: nat) {
    c in t.calls && op == ToDeliver(Copy(side, t.calls[c].id, c))
  }

  /** A table operation lets a call wait only by sending it, and the delivery of its answer ends that. */
  lemma OpWaits(t: Table, op: TableOp, side: Side, sent: multiset<Copy>, delivered: multiset<Copy>, c: nat)
    requires TableOk(t, side, sent, delivered) && OpEnabled(t, op)
    requires op.ToDeliver? ==> op.copy in sent && op.copy.side == side
    ensures HasPhase(TableAfter(t, op), c, Waiting) ==>
              && c in t.calls && TableAfter(t, op).calls[c].id == t.calls[c].id && !DeliversTo(t, op, side, c)
              && (HasPhase(t, c, Waiting) || (op == ToSend(c) && HasPhase(t, c, Registered)))
    ensures HasPhase(t, c, Waiting) && op != ToClear && !DeliversTo(t, op, side, c) ==>
              HasPhase(TableAfter(t, op), c, Waiting)
    ensures HasPhase(t, c, Waiting) && DeliversTo(t, op, side, c) ==> HasPhase(TableAfter(t, op), c, Resolved(c))
  {
    assert c in t.calls ==> CallOk(t, side, delivered, c);
    if op.ToDeliver? && op.copy.id in t.pending {
      ResponseMeetsOwnWaiter(t, side, sent, delivered, op.copy);
    }
  }

  /** A side's table is cleared only by the client's end, and it sends and delivers what the step does. */
  lemma SideOps(s: Link, step: Step, side: Side, c: nat)
    requires Invariant(s) && Enabled(s, step)
    ensures OpOf(s, step, side) == ToClear ==> step == ClientEof && side == Client
    ensures OpOf(s, step, side) == ToSend(c) ==> step == Send(side, c)
    ensures DeliversTo(TableOf(s, side), OpOf(s, step, side), side, c)
              == (c in TableOf(s, side).calls && TakesAnswer(s, step, CopyOf(s, side, c)))
  {
    hide Invariant;
  }

  lemma UnsentIsUndelivered(s: Link, side: Side, c: nat)
    requires Invariant(s) && HasPhase(TableOf(s, side), c, Registered)
    ensures CopyOf(s, side, c) !in s.delivered
  {
    hide Live, Directed, Nested;
    var k := CopyOf(s, side, c);
    if k in s.delivered {
      LiveWasSent(s, k);
    }
  }

  lemma StepKeepsFlies(s: Link, step: Step, side: Side, c: nat)
    requires Fact(s) && Enabled(s, step) && HasPhase(TableOf(Do(s, step), side), c, Waiting)
    ensures Flies(Do(s, step), side, c)
  {
    assert Directed(s) && (c in TableOf(s, side).calls ==> Flies(s, side, c));
    hide Do, Enabled, OpOf, TableAfter, Invariant, ClosedAreEmpty, Fact, Directed;
    WaitingBefore(s, step, side, c);
    SideOps(s, step, side, c);
    StepBooks(s, step, CopyOf(s, side, c));
    StaysInFlight(s, step, Do(s, step), side, c);
  }

  lemma StaysInFlight(s: Link, step: Step, after: Link, side: Side, c: nat)
    requires Invariant(s) && Enabled(s, step) && after == Do(s, step)
    requires c in TableOf(s, side).calls && HasPhase(TableOf(after, side), c, Waiting)
    requires TableOf(after, side).calls[c].id == TableOf(s, side).calls[c].id
    requires Books(s, step, after, CopyOf(s, side, c)) && !TakesAnswer(s, step, CopyOf(s, side, c))
    requires (HasPhase(TableOf(s, side), c, Waiting) && Flies(s, side, c))
          || (HasPhase(TableOf(s, side), c, Registered) && step == Send(side, c))
    ensures Flies(after, side, c)
  {
    hide Do, Invariant, ClosedAreEmpty;
    if HasPhase(TableOf(s, side), c, Registered) {
      UnsentIsUndelivered(s, side, c);
      SendIsSent(s, side, c);
    }
  }

  lemma WaitingBefore(s: Link, step: Step, side: Side, c: nat)
    requires Invariant(s) && Enabled(s, step) && HasPhase(TableOf(Do(s, step), side), c, Waiting)
    ensures c in TableOf(s, side).calls && TableOf(Do(s, step), side).calls[c].id == TableOf(s, side).calls[c].id
    ensures !DeliversTo(TableOf(s, side), OpOf(s, step, side), side, c)
    ensures HasPhase(TableOf(s, side), c, Waiting)
         || (OpOf(s, step, side) == ToSend(c) && HasPhase(TableOf(s, side), c, Registered))
  {
    DeliveredWasSent(s, step, side);
    hide Do, Enabled, OpOf, TableAfter, Conserved, Directed, Nested, TableOk;
    StepIsOp(s, step, side);
    OpWaits(TableOf(s, side), OpOf(s, step, side), side, s.sent, s.delivered, c);
  }

  /** A waiting call waits on, unless the step takes its answer or clears the client's table. */
  lemma WaitingUntilTaken(s: Link, step: Step, side: Side, c: nat)
    requires Invariant(s) && Enabled(s, step) && HasPhase(TableOf(s, side), c, Waiting)
    requires side == Server || step != ClientEof
    ensures c in TableOf(Do(s, step), side).calls && CopyOf(Do(s, step), side, c) == CopyOf(s, side, c)
    ensures if TakesAnswer(s, step, CopyOf(s, side, c)) then HasPhase(TableOf(Do(s, step), side), c, Resolved(c))
            else HasPhase(TableOf(Do(s, step), side), c, Waiting)
  {
    DeliveredWasSent(s, step, side);
    StepIsOp(s, step, side);
    SideOps(s, step, side, c);
    OpKeepsId(TableOf(s, side), OpOf(s, step, side), c);
    hide Do, Enabled, OpOf, TableAfter, Conserved, Directed, Nested, TableOk, TakesAnswer;
    OpWaits(TableOf(s, side), OpOf(s, step, side), side, s.sent, s.delivered, c);
  }

  lemma OpKeepsId(t: Table, op: TableOp, c: nat)
    requires OpEnabled(t, op) && c in t.calls
    ensures c in TableAfter(t, op).calls && TableAfter(t, op).calls[c].id == t.calls[c].id
  {
  }

  lemma {:induction false} KeepsId(s: Link, more: seq<Step>, after: Link, side: Side, c: nat)
    requires c in TableOf(s, side).calls && Leads(s, more, after)
    ensures c in TableOf(after, side).calls && TableOf(after, side).calls[c].id == TableOf(s, side).calls[c].id
  {
    hide Do, Enabled;
    if more != [] {
      var front, last := more[..|more| - 1], more[|more| - 1];
      assert LeadsBy(s, front, last, after);
      var mid :| Leads(s, front, mid) && IsStep(mid, last, after);
      KeepsId(s, front, mid, side, c);
      StepIsOp(mid, last, side);
      OpKeepsId(TableOf(mid, side), OpOf(mid, last, side), c);
    }
  }

  // ----- Suspended handlers

  lemma QuietAwaits(s: Link, step: Step)
    requires Enabled(s, step) && AwaitsKnown(s)
    requires !step.ServerTake? && !step.Finish? && !step.Panics?
    ensures AwaitsKnown(Do(s, step))
  {
    hide Carried, Remove, Clear, Deliver, Answer;
    var after := Do(s, step);
    StepIsOp(s, step, Server);
    forall e | e in s.server.calls
      ensures e in after.server.calls
    {
      OpKeepsId(s.server, OpOf(s, step, Server), e);
    }
    hide Do;
    forall t | t in after.serverTasks && t.awaits.Some?
      ensures t.awaits.value in after.server.calls
    {
      assert t in s.serverTasks || step == Elicit(step.task, t.awaits.value);
    }
  }

  lemma TaskEndAwaits(s: Link, step: Step)
    requires Enabled(s, step) && AwaitsKnown(s) && (step.Finish? || step.Panics?)
    ensures AwaitsKnown(Do(s, step))
  {
    hide Carried;
    match step
    case Finish(Server, i) =>
    case Finish(Client, i) =>
    case Panics(Server, i) =>
    case Panics(Client, i) =>
  }

  lemma TakeAwaits(s: Link)
    requires Enabled(s, ServerTake) && AwaitsKnown(s)
    ensures AwaitsKnown(Do(s, ServerTake))
  {
    hide Carried, Held;
  }

  lemma StepKeepsAwaits(s: Link, step: Step)
    requires Enabled(s, step) && AwaitsKnown(s)
    ensures AwaitsKnown(Do(s, step))
  {
    hide Do, Enabled, AwaitsKnown;
    match step
    case ServerTake => TakeAwaits(s);
    case Finish(_, _) => TaskEndAwaits(s, step);
    case Panics(_, _) => TaskEndAwaits(s, step);
    case _ => QuietAwaits(s, step);
  }

  // ----- Over whole runs

  lemma NotWaitingFlies(s: Link, side: Side, c: nat)
    requires !HasPhase(TableOf(s, side), c, Waiting)
    ensures Flies(s, side, c)
  {
  }

  lemma StepKeepsFact(s: Link, step: Step)
    requires Fact(s) && Enabled(s, step)
    ensures Fact(Do(s, step))
  {
    StepKeepsInvariant(s, step);
    StepKeepsAwaits(s, step);
    assert Directed(s);
    StepBooks(s, step, Copy(Server, 0, 0));
    hide Do, Enabled, Invariant, Flies, Directed, ClosedAreEmpty, AwaitsKnown;
    forall side, c | c in TableOf(Do(s, step), side).calls
      ensures Flies(Do(s, step), side, c)
    {
      if HasPhase(TableOf(Do(s, step), side), c, Waiting) {
        StepKeepsFlies(s, step, side, c);
      } else {
        NotWaitingFlies(Do(s, step), side, c);
      }
    }
  }

  lemma {:induction false} RunKeepsFact(before: Link, steps: seq<Step>, after: Link)
    requires Fact(before) && Leads(before, steps, after)
    ensures Fact(after)
  {
    hide Fact, Enabled, Do;
    if steps != [] {
      var front, last := steps[..|steps| - 1], steps[|steps| - 1];
      assert LeadsBy(before, front, last, after);
      var mid :| Leads(before, front, mid) && IsStep(mid, last, after);
      RunKeepsFact(before, front, mid);
      StepKeepsFact(mid, last);
    }
  }

  lemma ReachedFact(steps: seq<Step>, s: Link)
    requires Reaches(steps, s)
    ensures Fact(s)
  {
    assert Fact(Start());
    hide Fact;
    RunKeepsFact(Start(), steps, s);
  }

  lemma SentOnce(s: Link, k: Copy)
    requires Invariant(s) && k in s.sent
    ensures s.sent[k] == 1
  {
    hide Live, Conserved, Directed, Nested;
    assert CopyOk(TableOf(s, k.side), s.sent, k);
  }

  /** What is under way or lost was not delivered. */
  lemma SomewhereIsUndelivered(s: Link, k: Copy)
    requires Invariant(s) && k in Live(s) + s.lost
    ensures k !in s.delivered
  {
    hide Directed, TablesOk, Nested, Live, CopyOk;
    LiveWasSent(s, k);
    SentOnce(s, k);
    assert (Live(s) + s.delivered + s.lost)[k] == s.sent[k];
  }

  lemma WaitingIsLive(s: Link, side: Side, c: nat)
    requires Fact(s) && HasPhase(TableOf(s, side), c, Waiting)
    ensures CopyOf(s, side, c) in Live(s) || CopyOf(s, side, c) in s.lost
    ensures CopyOf(s, side, c) !in s.delivered
  {
    assert Flies(s, side, c);
    hide Live, Directed, TablesOk, Nested;
    assert CopyOf(s, side, c) in Live(s) + s.delivered + s.lost;
  }

  /** A waiting call waits on or is woken by its own answer, as long as no clear drops its waiter. */
  lemma {:induction false} WaitsOrResolved(s: Link, more: seq<Step>, after: Link, side: Side, c: nat)
    requires Fact(s) && HasPhase(TableOf(s, side), c, Waiting) && Leads(s, more, after)
    requires side == Server || after.clientReading
    ensures HasPhase(TableOf(after, side), c, Waiting) || HasPhase(TableOf(after, side), c, Resolved(c))
  {
    hide Fact, Enabled, Do, OpOf, TableAfter;
    if more != [] {
      var front, last := more[..|more| - 1], more[|more| - 1];
      assert LeadsBy(s, front, last, after);
      var mid :| Leads(s, front, mid) && IsStep(mid, last, after);
      OnlyEofStopsReading(mid, last);
      WaitsOrResolved(s, front, mid, side, c);
      RunKeepsFact(s, front, mid);
      StillWaitsOrResolved(mid, last, side, c);
    }
  }

  lemma StillWaitsOrResolved(s: Link, step: Step, side: Side, c: nat)
    requires Fact(s) && Enabled(s, step) && (side == Server || step != ClientEof)
    requires HasPhase(TableOf(s, side), c, Waiting) || HasPhase(TableOf(s, side), c, Resolved(c))
    ensures HasPhase(TableOf(Do(s, step), side), c, Waiting) || HasPhase(TableOf(Do(s, step), side), c, Resolved(c))
  {
    assert TablesOk(s) && Invariant(s);
    hide Fact, Enabled, Do, OpOf, TableAfter, TableOk, Invariant;
    if HasPhase(TableOf(s, side), c, Waiting) {
      WaitingUntilTaken(s, step, side, c);
    } else {
      StepIsOp(s, step, side);
      OpKeepsResolved(TableOf(s, side), OpOf(s, step, side), side, s.sent, s.delivered, c);
    }
  }

  /** If its answer is delivered and no clear came, a waiting call is woken by it. */
  lemma DeliveredIsResolved(s: Link, more: seq<Step>, after: Link, side: Side, c: nat)
    requires Fact(s) && HasPhase(TableOf(s, side), c, Waiting) && Leads(s, more, after)
    requires CopyOf(s, side, c) in after.delivered && (side == Server || after.clientReading)
    ensures HasPhase(TableOf(after, side), c, Resolved(c))
  {
    hide Fact, Leads;
    WaitsOrResolved(s, more, after, side, c);
    RunKeepsFact(s, more, after);
    KeepsId(s, more, after, side, c);
    if HasPhase(TableOf(after, side), c, Waiting) {
      WaitingIsLive(after, side, c);
    }
  }
}
