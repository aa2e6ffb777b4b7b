/** Which callers of the link return, and which entries stay in its pending tables, over whole runs. */
module RpcWaiters {
  import opened Rpc
  import opened RpcInvariant
  import opened RpcRuns

  // ----- Entries

  /** The client call's waiter was inserted after the reader's final clear. */
  ghost predicate IsLate(steps: seq<Step>, c: nat) {
    exists i, j :: 0 <= i < j < |steps| && steps[i] == ClientEof && steps[j] == DoRegister(Client, c)
  }

  /** Phases in which a caller's entry is in the table unless something cleared it. */
  predicate Holds(phase: Phase, side: Side) {
    phase == Registered || phase == Waiting || (phase == Failed && side == Client)
  }

  /** The table has the call's entry exactly in those phases, if the entry is `kept`. */
  ghost predicate EntryOk(t: Table, side: Side, c: nat, kept: bool) {
    c in t.calls ==> (t.calls[c].id in t.pending <==> Holds(t.calls[c].phase, side) && kept)
  }

  /** Apart from the clear, no operation takes away an entry that should stay or leaves one that should go. */
  lemma OpKeepsEntry(t: Table, op: TableOp, side: Side, sent: multiset<Copy>, delivered: multiset<Copy>,
                     c: nat, kept: bool)
    requires TableOk(t, side, sent, delivered) && OpEnabled(t, op) && EntryOk(t, side, c, kept)
    requires op != ToClear && (op == ToRegister(c) ==> kept)
    requires op.ToFail? ==> op.keep == (side == Client)
    requires op.ToDeliver? ==> op.copy in sent && op.copy.side == side
    ensures EntryOk(TableAfter(t, op), side, c, kept)
  {
    if op.ToDeliver? && op.copy.id in t.pending {
      ResponseMeetsOwnWaiter(t, side, sent, delivered, op.copy);
    }
    assert t.nextId in t.pending ==> WaiterOk(t, t.nextId);
    assert forall a :: a in t.calls ==> CallOk(t, side, delivered, a);
  }

  lemma LateGrows(steps: seq<Step>, last: Step, c: nat)
    ensures IsLate(steps + [last], c) <==> IsLate(steps, c) || (ClientEof in steps && last == DoRegister(Client, c))
  {
    var all := steps + [last];
    if IsLate(steps, c) {
      var i, j :| 0 <= i < j < |steps| && steps[i] == ClientEof && steps[j] == DoRegister(Client, c);
      assert all[i] == ClientEof && all[j] == DoRegister(Client, c);
    }
    if ClientEof in steps && last == DoRegister(Client, c) {
      var i :| 0 <= i < |steps| && steps[i] == ClientEof;
      assert all[i] == ClientEof && all[|steps|] == DoRegister(Client, c);
    }
    if IsLate(all, c) {
      var i, j :| 0 <= i < j < |all| && all[i] == ClientEof && all[j] == DoRegister(Client, c);
      assert steps[i] == ClientEof;
      assert j < |steps| ==> steps[j] == DoRegister(Client, c);
    }
  }

  /** What a step delivers was sent by the side it is delivered to. */
  lemma DeliveredWasSent(s: Link, step: Step, side: Side)
    requires Invariant(s) && Enabled(s, step)
    ensures OpOf(s, step, side).ToDeliver? ==>
      OpOf(s, step, side).copy in s.sent && OpOf(s, step, side).copy.side == side
    ensures OpOf(s, step, side).ToFail? ==> OpOf(s, step, side).keep == (side == Client)
    ensures OpOf(s, step, side) == ToClear <==> side == Client && step == ClientEof
    ensures forall c :: OpOf(s, step, side) == ToRegister(c) <==> step == DoRegister(side, c)
  {
    hide Live, Conserved, TablesOk, Nested, Carried, Held;
    if step == ServerTake && s.serverIn[0].Response? {
      HeadWasSent(s, Server);
    }
    if step == ClientRead && s.toClient[0].Response? {
      HeadWasSent(s, Client);
    }
  }

  // ----- The client's entries over whole runs

  ghost predicate Kept(steps: seq<Step>, s: Link, c: nat) {
    s.clientReading || IsLate(steps, c)
  }

  ghost predicate ClientEntries(steps: seq<Step>, s: Link) {
    && (s.clientReading <==> ClientEof !in steps)
    && (forall c :: c in s.client.calls ==> EntryOk(s.client, Client, c, Kept(steps, s, c)))
    && forall c :: IsLate(steps, c) ==> IsUnderWay(s.client, c)
  }

  /** The call has registered and nothing has woken it. */
  ghost predicate IsUnderWay(t: Table, c: nat) {
    c in t.calls && Holds(t.calls[c].phase, Client)
  }

  /** Without responses or a clear, a call with an entry stays under way. */
  lemma OpKeepsUnderWay(t: Table, op: TableOp, c: nat)
    requires OpEnabled(t, op) && !op.ToDeliver? && !op.ToClear?
    requires op == ToRegister(c) || (IsUnderWay(t, c) && EntryOk(t, Client, c, true))
    ensures IsUnderWay(TableAfter(t, op), c)
  {
  }

  lemma RoutingKeepsReading(s: Link, side: Side, m: Message)
    ensures Route(s, side, m).clientReading == s.clientReading
  {
    hide Deliver;
  }

  lemma AnswerKeepsReading(s: Link, side: Side, copy: Copy)
    ensures Answer(s, side, copy).clientReading == s.clientReading
  {
  }

  lemma OnlyEofStopsReading(s: Link, step: Step)
    requires Enabled(s, step)
    ensures Do(s, step).clientReading == (s.clientReading && step != ClientEof)
    ensures step == ClientEof ==> s.clientReading
  {
    hide Carried, Held, Remove, Clear, Sent, Register, Allocate, Deliver, SetPhase, Route, Answer;
    match step
    case ServerTake => RoutingKeepsReading(s.(serverIn := s.serverIn[1..]), Server, s.serverIn[0]);
    case ClientRead => RoutingKeepsReading(s.(toClient := s.toClient[1..]), Client, s.toClient[0]);
    case Finish(Server, i) =>
      AnswerKeepsReading(s.(serverTasks := Remove(s.serverTasks, i)), Server, s.serverTasks[i].copy);
    case Finish(Client, i) =>
      AnswerKeepsReading(s.(clientTasks := Remove(s.clientTasks, i)), Client, s.clientTasks[i].copy);
    case Panics(Server, i) =>
    case Panics(Client, i) =>
    case _ =>
  }

  lemma StepKeepsClientEntries(steps: seq<Step>, s: Link, step: Step)
    requires Invariant(s) && Enabled(s, step) && ClientEntries(steps, s)
    ensures ClientEntries(steps + [step], Do(s, step))
  {
    hide Do, Enabled, Live, OpOf, TableAfter, EntryOk, IsLate, IsUnderWay, Conserved, Directed, Nested, TableOk;
    OnlyEofStopsReading(s, step);
    StepIsOp(s, step, Client);
    DeliveredWasSent(s, step, Client);
    StepKeepsLate(steps, s, step);
    var after := Do(s, step);
    var op := OpOf(s, step, Client);
    forall c | c in after.client.calls
      ensures EntryOk(after.client, Client, c, Kept(steps + [step], after, c))
    {
      LateGrows(steps, step, c);
      if step == ClientEof {
        NoLateBeforeEof(steps, c);
        ClearedEntry(s.client, c);
        assert op == ToClear;
        ClearIs(s.client);
      } else {
        NewEntry(s.client, c, Kept(steps, s, c), Kept(steps + [step], after, c), op);
        OpKeepsEntry(s.client, op, Client, s.sent, s.delivered, c, Kept(steps + [step], after, c));
      }
    }
  }

  lemma StepKeepsLate(steps: seq<Step>, s: Link, step: Step)
    requires Invariant(s) && Enabled(s, step) && ClientEntries(steps, s)
    ensures forall c :: IsLate(steps + [step], c) ==> IsUnderWay(Do(s, step).client, c)
  {
    hide Do, Live, OpOf, TableAfter, EntryOk, IsLate, IsUnderWay, Conserved, Directed, Nested, TableOk;
    StepIsOp(s, step, Client);
    DeliveredWasSent(s, step, Client);
    forall c | IsLate(steps + [step], c)
      ensures IsUnderWay(Do(s, step).client, c)
    {
      LateGrows(steps, step, c);
      if s.clientReading {
        NoLateBeforeEof(steps, c);
      }
      NoDeliveryAfterEof(s, step);
      if IsLate(steps, c) {
        assert IsUnderWay(s.client, c);
        CallOfUnderWay(s.client, c);
      }
      OpKeepsUnderWay(s.client, OpOf(s, step, Client), c);
    }
  }

  lemma CallOfUnderWay(t: Table, c: nat)
    requires IsUnderWay(t, c)
    ensures c in t.calls
  {
  }

  lemma NoDeliveryAfterEof(s: Link, step: Step)
    requires !s.clientReading && Enabled(s, step)
    ensures !OpOf(s, step, Client).ToDeliver? && !OpOf(s, step, Client).ToClear?
  {
  }

  lemma NoLateBeforeEof(steps: seq<Step>, c: nat)
    requires ClientEof !in steps
    ensures !IsLate(steps, c)
  {
  }

  lemma ClearIs(t: Table)
    ensures TableAfter(t, ToClear) == Clear(t)
  {
  }

  lemma ClearedEntry(t: Table, c: nat)
    ensures EntryOk(Clear(t), Client, c, false)
  {
  }

  /** Before its registration a call has no entry, whether or not it would be kept. */
  lemma NewEntry(t: Table, c: nat, was: bool, kept: bool, op: TableOp)
    requires OpEnabled(t, op) && (c in t.calls ==> EntryOk(t, Client, c, was))
    requires was == kept || op == ToRegister(c)
    ensures EntryOk(t, Client, c, kept)
  {
  }

  lemma {:induction false} RunKeepsClientEntries(steps: seq<Step>, s: Link)
    requires Reaches(steps, s)
    ensures ClientEntries(steps, s)
  {
    hide Invariant, Enabled, Do, EntryOk;
    if steps != [] {
      var front, last := steps[..|steps| - 1], steps[|steps| - 1];
      assert LeadsBy(Start(), front, last, s);
      var before :| Leads(Start(), front, before) && IsStep(before, last, s);
      RunKeepsInvariant(front, before);
      RunKeepsClientEntries(front, before);
      StepKeepsClientEntries(front, before, last);
      assert steps == front + [last];
    }
  }

  // ----- The server's entries

  ghost predicate ServerEntries(s: Link) {
    forall c :: c in s.server.calls ==> EntryOk(s.server, Server, c, true)
  }

  lemma StepKeepsServerEntries(s: Link, step: Step)
    requires Invariant(s) && Enabled(s, step) && ServerEntries(s)
    ensures ServerEntries(Do(s, step))
  {
    hide Do, Enabled, Live, OpOf, TableAfter, Conserved, Directed, Nested, TableOk;
    StepIsOp(s, step, Server);
    DeliveredWasSent(s, step, Server);
    forall c | c in Do(s, step).server.calls
      ensures EntryOk(Do(s, step).server, Server, c, true)
    {
      OpKeepsEntry(s.server, OpOf(s, step, Server), Server, s.sent, s.delivered, c, true);
    }
  }

  lemma {:induction false} RunKeepsServerEntries(steps: seq<Step>, s: Link)
    requires Reaches(steps, s)
    ensures ServerEntries(s)
  {
    hide Invariant, Enabled, Do, EntryOk;
    if steps != [] {
      var front, last := steps[..|steps| - 1], steps[|steps| - 1];
      assert LeadsBy(Start(), front, last, s);
      var before :| Leads(Start(), front, before) && IsStep(before, last, s);
      RunKeepsInvariant(front, before);
      RunKeepsServerEntries(front, before);
      StepKeepsServerEntries(before, last);
    }
  }

  // ----- Entries left behind

  /** The caller is done, with or without a response. */
  predicate HasReturned(t: Table, c: nat) {
    c in t.calls && (t.calls[c].phase.Resolved? || t.calls[c].phase == Failed || t.calls[c].phase == Closed)
  }

  /**
   A returned call still has an entry exactly when it is a client call whose send failed and its
   waiter was not dropped by the final clear: the reader still runs, or the waiter came after it.
   */
  lemma EntryLeftBehindIff(steps: seq<Step>, s: Link, side: Side, c: nat)
    requires Reaches(steps, s) && HasReturned(TableOf(s, side), c)
    ensures TableOf(s, side).calls[c].id in TableOf(s, side).pending <==>
      && side == Client && s.client.calls[c].phase == Failed
      && (s.clientReading || IsLate(steps, c))
  {
    hide Reaches, IsLate;
    RunKeepsClientEntries(steps, s);
    RunKeepsServerEntries(steps, s);
  }

  /** On the client exactly the calls under way, and those left behind, have entries. */
  lemma ClientEntryIff(steps: seq<Step>, s: Link, c: nat)
    requires Reaches(steps, s) && c in s.client.calls
    ensures s.client.calls[c].id in s.client.pending <==>
      Holds(s.client.calls[c].phase, Client) && (s.clientReading || IsLate(steps, c))
  {
    hide Reaches, IsLate;
    RunKeepsClientEntries(steps, s);
  }

  // ----- Callers that never return

  predicate PastSend(phase: Phase) {
    phase == Waiting || phase == Closed || phase.Resolved?
  }

  /** After the reader has ended, of the calls that were sent exactly the late ones still wait. */
  lemma WaitingIffLate(steps: seq<Step>, s: Link, c: nat)
    requires Reaches(steps, s) && !s.clientReading
    requires c in s.client.calls && PastSend(s.client.calls[c].phase)
    ensures HasPhase(s.client, c, Waiting) <==> IsLate(steps, c)
  {
    RunKeepsInvariant(steps, s);
    RunKeepsClientEntries(steps, s);
    hide Reaches, Conserved, Directed, Nested, IsLate;
    assert CallOk(s.client, Client, s.delivered, c);
  }

  /** Without a reader no step of any kind changes a waiting call. */
  lemma WaitingStays(s: Link, step: Step, c: nat)
    requires !s.clientReading && HasPhase(s.client, c, Waiting) && Enabled(s, step)
    ensures !Do(s, step).clientReading && HasPhase(Do(s, step).client, c, Waiting)
  {
    StepIsOp(s, step, Client);
    OnlyEofStopsReading(s, step);
    hide Do;
  }

  lemma {:induction false} NeverReturns(before: Link, steps: seq<Step>, after: Link, c: nat)
    requires !before.clientReading && HasPhase(before.client, c, Waiting) && Leads(before, steps, after)
    ensures !after.clientReading && HasPhase(after.client, c, Waiting)
  {
    hide Do, Enabled;
    if steps != [] {
      var front, last := steps[..|steps| - 1], steps[|steps| - 1];
      assert LeadsBy(before, front, last, after);
      var mid :| Leads(before, front, mid) && IsStep(mid, last, after);
      NeverReturns(before, front, mid, c);
      WaitingStays(mid, last, c);
    }
  }

  /** Whatever follows, the call still waits. */
  ghost predicate Hangs(s: Link, side: Side, c: nat) {
    forall more, after :: Leads(s, more, after) ==> HasPhase(TableOf(after, side), c, Waiting)
  }

  /**
   A waiting client call never returns, however the run goes on, if and only if its waiter was
   inserted after the client reader's final clear.
   */
  lemma HangsIffLate(steps: seq<Step>, s: Link, c: nat)
    requires Reaches(steps, s) && HasPhase(s.client, c, Waiting)
    ensures Hangs(s, Client, c) <==> IsLate(steps, c)
  {
    hide IsLate, Do, Reaches, Leads;
    if s.clientReading {
      RunKeepsClientEntries(steps, s);
      NoLateBeforeEof(steps, c);
      EofWakes(steps, s, c);
    } else {
      WaitingIffLate(steps, s, c);
      forall more, after | Leads(s, more, after)
        ensures HasPhase(after.client, c, Waiting)
      {
        NeverReturns(s, more, after, c);
      }
    }
  }

  /** While the reader runs, its end would still wake every waiting caller. */
  lemma EofWakes(steps: seq<Step>, s: Link, c: nat)
    requires Reaches(steps, s) && HasPhase(s.client, c, Waiting) && s.clientReading
    ensures Leads(s, [] + [ClientEof], Do(s, ClientEof)) && HasPhase(Do(s, ClientEof).client, c, Closed)
  {
    hide Reaches, Leads, Conserved, Directed, Nested, Clear;
    RunKeepsInvariant(steps, s);
    ClearWakes(s.client, s.sent, s.delivered, c);
    NoSteps(s);
    OneMoreStep(s, [], s, ClientEof);
  }

  lemma ClearWakes(t: Table, sent: multiset<Copy>, delivered: multiset<Copy>, c: nat)
    requires TableOk(t, Client, sent, delivered) && HasPhase(t, c, Waiting)
    ensures HasPhase(Clear(t), c, Closed)
  {
    assert CallOk(t, Client, delivered, c);
  }

  /** Every client call that starts after the reader has ended, with the outbox open, can come to hang. */
  lemma CallAfterEofCanHang(steps: seq<Step>, s: Link, c: nat) returns (more: seq<Step>, after: Link)
    requires Reaches(steps, s) && !s.clientReading && s.clientOutOpen && c !in s.client.calls
    ensures Leads(s, more, after) && Hangs(after, Client, c)
  {
    var first := Do(s, Begin(c));
    OneMoreStep(s, [], s, Begin(c));
    var second := Do(first, DoRegister(Client, c));
    OneMoreStep(s, [] + [Begin(c)], first, DoRegister(Client, c));
    more := [] + [Begin(c)] + [DoRegister(Client, c)] + [Send(Client, c)];
    after := Do(second, Send(Client, c));
    OneMoreStep(s, [] + [Begin(c)] + [DoRegister(Client, c)], second, Send(Client, c));
    forall later, end | Leads(after, later, end)
      ensures HasPhase(end.client, c, Waiting)
    {
      NeverReturns(after, later, end, c);
    }
  }
}
