/**
 When a waiting client call can still be answered: the client's half of the waiters.  A call is
 unanswerable when its message is cut off, or held by a handler that cannot send or waits for an
 elicitation that is stuck; every other waiting call some continuation still wakes.
 */
module RpcAnswers {
  import opened Commons
  import opened Rpc
  import opened RpcInvariant
  import opened RpcRuns
  import opened RpcWaiters
  import opened RpcFacts
  import opened RpcElicitations

  /** The elicitation hangs already, or will once it is sent: a reader or the client's outbox has closed. */
  predicate IsStuck(s: Link, e: nat) {
    || (HasPhase(s.server, e, Waiting) && IsDoomed(s, CopyOf(s, Server, e)))
    || ((HasPhase(s.server, e, Allocated) || HasPhase(s.server, e, Registered))
        && !(s.clientReading && s.clientOutOpen && s.serverReading))
  }

  /** The client's reader has ended, or the request is lost or has a closed reader or outbox ahead of it. */
  predicate IsCutOff(s: Link, k: Copy) {
    || !s.clientReading
    || k in s.lost
    || ((k in Carried(s.clientOut) || k in Carried(s.toServer)) && !(s.serverReading && s.serverOutOpen))
    || (k in Carried(s.serverIn) && !s.serverOutOpen)
  }

  /** The handler cannot send its answer, or waits for an elicitation that is stuck. */
  predicate IsHeldUp(s: Link, t: Task) {
    !s.serverOutOpen || (t.awaits.Some? && IsStuck(s, t.awaits.value))
  }

  predicate IsHeldBack(s: Link, k: Copy) {
    exists t :: t in s.serverTasks && t.copy == k && IsHeldUp(s, t)
  }

  predicate IsUnanswerable(s: Link, k: Copy) {
    IsCutOff(s, k) || IsHeldBack(s, k)
  }

  // ----- Nothing reopens, and what is stuck stays stuck

  predicate OnlyCloses(s: Link, after: Link) {
    && (after.clientOutOpen ==> s.clientOutOpen) && (after.serverOutOpen ==> s.serverOutOpen)
    && (after.clientReading ==> s.clientReading) && (after.serverReading ==> s.serverReading)
  }

  lemma TaskEndOnlyCloses(s: Link, step: Step)
    requires Enabled(s, step) && (step.Finish? || step.Panics?)
    ensures OnlyCloses(s, Do(s, step))
  {
    hide Remove;
    match step
    case Finish(Server, i) =>
    case Finish(Client, i) =>
    case Panics(Server, i) =>
    case Panics(Client, i) =>
  }

  lemma OutboxOnlyCloses(s: Link, step: Step)
    requires Enabled(s, step) && (step.Send? || step.Write? || step.WriterStops?)
    ensures OnlyCloses(s, Do(s, step))
  {
    hide Carried, Sent;
  }

  lemma InboundOnlyCloses(s: Link, step: Step)
    requires Enabled(s, step) && (step.ServerRead? || step.ServerTake? || step.ClientRead?)
    ensures OnlyCloses(s, Do(s, step))
  {
    hide Deliver;
  }

  lemma NothingReopens(s: Link, step: Step)
    requires Enabled(s, step)
    ensures OnlyCloses(s, Do(s, step))
  {
    hide Do, Enabled;
    match step
    case Send(_, _) => OutboxOnlyCloses(s, step);
    case Write(_) => OutboxOnlyCloses(s, step);
    case WriterStops(_) => OutboxOnlyCloses(s, step);
    case ServerRead => InboundOnlyCloses(s, step);
    case ServerTake => InboundOnlyCloses(s, step);
    case ClientRead => InboundOnlyCloses(s, step);
    case Finish(_, _) => TaskEndOnlyCloses(s, step);
    case Panics(_, _) => TaskEndOnlyCloses(s, step);
    case ClientEof => EofTraffic(s, step);
    case ServerEof => EofTraffic(s, step);
    case _ => CallerTraffic(s, step);
  }

  predicate IsUnsent(t: Table, c: nat) {
    HasPhase(t, c, Allocated) || (HasPhase(t, c, Registered) && t.calls[c].id in t.pending)
  }

  lemma OpKeepsUnsent(t: Table, op: TableOp, sent: multiset<Copy>, delivered: multiset<Copy>, c: nat)
    requires TableOk(t, Server, sent, delivered) && OpEnabled(t, op) && op != ToClear && IsUnsent(t, c)
    requires op.ToDeliver? ==> op.copy in sent && op.copy.side == Server
    ensures HasPhase(TableAfter(t, op), c, Allocated) || HasPhase(TableAfter(t, op), c, Registered)
         || (op == ToSend(c) && HasPhase(TableAfter(t, op), c, Waiting))
         || (op.ToFail? && op.c == c)
  {
    if op.ToDeliver? && op.copy.id in t.pending {
      ResponseMeetsOwnWaiter(t, Server, sent, delivered, op.copy);
    }
  }

  lemma SentStands(s: Link, e: nat)
    requires Enabled(s, Send(Server, e))
    ensures e in Do(s, Send(Server, e)).server.calls
    ensures var k := CopyOf(Do(s, Send(Server, e)), Server, e);
            && k in Carried(Do(s, Send(Server, e)).serverOut)
            && StandsAt(Do(s, Send(Server, e)), AtServerOut, |s.serverOut|, k)
  {
    hide Carried;
    CarriedAppend(s.serverOut, Request(Copy(Server, s.server.calls[e].id, e)));
  }

  lemma FailureIsShut(s: Link, step: Step, e: nat)
    requires Enabled(s, step)
    ensures OpOf(s, step, Server).ToFail? ==> !s.serverOutOpen
  {
  }

  lemma UnsentStays(s: Link, step: Step, e: nat)
    requires Fact(s) && Enabled(s, step) && !(s.clientReading && s.clientOutOpen && s.serverReading)
    requires HasPhase(s.server, e, Allocated) || HasPhase(s.server, e, Registered)
    ensures IsStuck(Do(s, step), e) || !Do(s, step).serverOutOpen
  {
    assert ElicitOk(s, e) && Invariant(s);
    NothingReopens(s, step);
    StepIsOp(s, step, Server);
    SideOps(s, step, Server, e);
    DeliveredWasSent(s, step, Server);
    FailureIsShut(s, step, e);
    hide Do, Enabled, OpOf, TableAfter, Conserved, Directed, Nested, TableOk, Carried, StandsAt, ClosedAreEmpty;
    OpKeepsUnsent(s.server, OpOf(s, step, Server), s.sent, s.delivered, e);
    if step == Send(Server, e) {
      SentStands(s, e);
    }
  }

  lemma StuckStays(s: Link, step: Step, e: nat)
    requires Fact(s) && Enabled(s, step) && IsStuck(s, e)
    ensures IsStuck(Do(s, step), e) || !Do(s, step).serverOutOpen
  {
    hide Fact, Do, Enabled, IsDoomed;
    if HasPhase(s.server, e, Waiting) {
      DoomedStep(s, step, e);
    } else {
      UnsentStays(s, step, e);
    }
  }

  // ----- What is cut off stays unanswerable

  ghost predicate KeepsCutOff(s: Link, after: Link, k: Copy) {
    IsCutOff(s, k) ==> IsUnanswerable(after, k)
  }

  lemma QuietKeepsCutOff(s: Link, step: Step, k: Copy)
    requires Enabled(s, step) && IsQuiet(step)
    ensures KeepsCutOff(s, Do(s, step), k)
  {
    hide Do, Enabled, Carried, IsHeldBack;
    if step.ClientEof? || step.ServerEof? {
      EofTraffic(s, step);
    } else {
      CallerTraffic(s, step);
    }
  }

  lemma SendKeepsCutOff(s: Link, side: Side, c: nat, k: Copy)
    requires Enabled(s, Send(side, c))
    ensures KeepsCutOff(s, Do(s, Send(side, c)), k)
  {
    hide Sent, Carried, IsHeldBack;
    CarriedAppend(Outbox(s, side), Request(Copy(side, TableOf(s, side).calls[c].id, c)));
  }

  lemma WriteKeepsCutOff(s: Link, side: Side, k: Copy)
    requires Enabled(s, Write(side))
    ensures KeepsCutOff(s, Do(s, Write(side)), k)
  {
    hide Carried, IsHeldBack;
    CarriedPop(Outbox(s, side));
    CarriedAppend(if side == Client then s.toServer else s.toClient, Outbox(s, side)[0]);
  }

  lemma WriterStopKeepsCutOff(s: Link, side: Side, k: Copy)
    requires Enabled(s, WriterStops(side))
    ensures KeepsCutOff(s, Do(s, WriterStops(side)), k)
  {
    hide Carried, IsHeldBack;
  }

  lemma ServerReadKeepsCutOff(s: Link, k: Copy)
    requires Enabled(s, ServerRead)
    ensures KeepsCutOff(s, Do(s, ServerRead), k)
  {
    hide Carried, IsHeldBack;
    CarriedPop(s.toServer);
    CarriedAppend(s.serverIn, s.toServer[0]);
  }

  /** What the dispatch loop takes as a request of the client is in a handler's hands. */
  lemma TakenIsHeld(s: Link, k: Copy)
    requires Enabled(s, ServerTake) && s.serverIn[0] == Request(k)
    ensures Task(k, None) in Do(s, ServerTake).serverTasks
    ensures Do(s, ServerTake).serverTasks == s.serverTasks + [Task(k, None)]
    ensures SameFlags(s, Do(s, ServerTake))
  {
  }

  predicate SameFlags(s: Link, after: Link) {
    && after.clientOutOpen == s.clientOutOpen && after.serverOutOpen == s.serverOutOpen
    && after.clientReading == s.clientReading && after.serverReading == s.serverReading
  }

  lemma TakeKeepsCutOff(s: Link, k: Copy)
    requires Enabled(s, ServerTake) && Directed(s) && k.side == Client
    ensures KeepsCutOff(s, Do(s, ServerTake), k)
  {
    assert TowardsServer(s.serverIn[0]) by {
      assert s.serverIn[0] in s.serverIn;
    }
    hide Carried, Deliver, Directed, IsHeldBack;
    CarriedPop(s.serverIn);
    if s.serverIn[0] == Request(k) && !s.serverOutOpen {
      TakenIsHeld(s, k);
      HoldsBack(Do(s, ServerTake), Task(k, None));
    }
  }

  lemma HoldsBack(s: Link, t: Task)
    requires t in s.serverTasks && IsHeldUp(s, t)
    ensures IsHeldBack(s, t.copy)
  {
    hide IsHeldUp;
  }

  lemma ClientReadKeepsCutOff(s: Link, k: Copy)
    requires Enabled(s, ClientRead)
    ensures KeepsCutOff(s, Do(s, ClientRead), k)
  {
    hide Carried, Deliver, IsHeldBack;
  }

  lemma TaskEndKeepsCutOff(s: Link, step: Step, k: Copy)
    requires Enabled(s, step) && (step.Finish? || step.Panics?)
    ensures KeepsCutOff(s, Do(s, step), k)
  {
    hide Carried, Remove, IsHeldBack;
    match step
    case Finish(Server, i) =>
    case Finish(Client, i) => CarriedAppend(s.clientOut, Response(s.clientTasks[i].copy));
    case Panics(Server, i) =>
    case Panics(Client, i) =>
  }

  lemma StepKeepsCutOff(s: Link, step: Step, k: Copy)
    requires Enabled(s, step) && Directed(s) && k.side == Client
    ensures KeepsCutOff(s, Do(s, step), k)
  {
    hide KeepsCutOff, Do, Enabled, Directed;
    match step
    case Send(side, c) => SendKeepsCutOff(s, side, c, k);
    case Write(side) => WriteKeepsCutOff(s, side, k);
    case WriterStops(side) => WriterStopKeepsCutOff(s, side, k);
    case ServerRead => ServerReadKeepsCutOff(s, k);
    case ServerTake => TakeKeepsCutOff(s, k);
    case ClientRead => ClientReadKeepsCutOff(s, k);
    case Finish(_, _) => TaskEndKeepsCutOff(s, step, k);
    case Panics(_, _) => TaskEndKeepsCutOff(s, step, k);
    case _ => QuietKeepsCutOff(s, step, k);
  }

  // ----- What a held-up handler holds stays unanswerable

  /** The step starts, wakes or ends this very handler. */
  predicate Touches(s: Link, step: Step, t: Task) {
    && (step.Elicit? || step.Resume? || ((step.Finish? || step.Panics?) && step.side == Server))
    && step.task < |s.serverTasks| && s.serverTasks[step.task] == t
  }

  lemma TaskEndLeaves(s: Link, step: Step, t: Task)
    requires Enabled(s, step) && (step.Finish? || step.Panics?) && t in s.serverTasks && !Touches(s, step, t)
    ensures t in Do(s, step).serverTasks
  {
    hide Remove;
    match step
    case Finish(Server, i) => OthersStay(s.serverTasks, i, t, t);
    case Finish(Client, i) =>
    case Panics(Server, i) => OthersStay(s.serverTasks, i, t, t);
    case Panics(Client, i) =>
  }

  lemma TaskStays(s: Link, step: Step, t: Task)
    requires Enabled(s, step) && t in s.serverTasks && !Touches(s, step, t)
    ensures t in Do(s, step).serverTasks
  {
    hide Carried, Held, Clear, Sent, Register, Allocate, Deliver, SetPhase;
    match step
    case Elicit(i, c) => OthersStay(s.serverTasks, i, t, s.serverTasks[i].(awaits := Some(c)));
    case Resume(i) => OthersStay(s.serverTasks, i, t, s.serverTasks[i].(awaits := None));
    case Finish(_, _) => TaskEndLeaves(s, step, t);
    case Panics(_, _) => TaskEndLeaves(s, step, t);
    case _ =>
  }

  /** A held-up handler that a step starts, wakes or ends cannot send its answer. */
  lemma TouchedStays(s: Link, step: Step, t: Task)
    requires Enabled(s, step) && Touches(s, step, t) && IsHeldUp(s, t)
    ensures !Do(s, step).serverOutOpen || step.Panics?
    ensures t.copy in Do(s, step).lost
         || (step.Elicit? && t.(awaits := Some(step.call)) in Do(s, step).serverTasks)
         || (step.Resume? && t.(awaits := None) in Do(s, step).serverTasks)
  {
    hide Carried, Held, Remove, Allocate, IsDoomed;
    match step
    case Elicit(i, c) => assert Do(s, step).serverTasks[i] == t.(awaits := Some(c));
    case Resume(i) => assert Do(s, step).serverTasks[i] == t.(awaits := None);
    case Finish(Server, i) =>
    case Panics(Server, i) =>
  }

  lemma HeldUpStays(s: Link, step: Step, t: Task)
    requires Fact(s) && Enabled(s, step) && t in s.serverTasks && IsHeldUp(s, t)
    ensures IsUnanswerable(Do(s, step), t.copy)
  {
    hide Fact, Do, Enabled, Touches, IsStuck, IsHeldBack;
    var after := Do(s, step);
    if Touches(s, step, t) {
      TouchedStays(s, step, t);
      if t.copy !in after.lost {
        HoldsBack(after, t.(awaits := if step.Elicit? then Some(step.call) else None));
      }
    } else {
      NothingReopens(s, step);
      TaskStays(s, step, t);
      if s.serverOutOpen {
        StuckStays(s, step, t.awaits.value);
      }
      HoldsBack(after, t);
    }
  }

  lemma StepKeepsUnanswerable(s: Link, step: Step, k: Copy)
    requires Fact(s) && Enabled(s, step) && k.side == Client && IsUnanswerable(s, k)
    ensures IsUnanswerable(Do(s, step), k)
  {
    assert Directed(s);
    hide Fact, Do, Enabled, Directed, IsHeldUp, IsCutOff;
    if IsCutOff(s, k) {
      StepKeepsCutOff(s, step, k);
    } else {
      var t :| t in s.serverTasks && t.copy == k && IsHeldUp(s, t);
      HeldUpStays(s, step, t);
    }
  }

  // ----- What is unanswerable is never answered

  lemma HeldBackIsLive(s: Link, k: Copy)
    requires IsHeldBack(s, k)
    ensures k in Live(s)
  {
    hide Live, IsHeldUp;
    var t :| t in s.serverTasks && t.copy == k && IsHeldUp(s, t);
    TaskIsLive(s, t);
  }

  lemma UnanswerableIsUndelivered(s: Link, k: Copy)
    requires Invariant(s) && IsUnanswerable(s, k) && s.clientReading
    ensures k !in s.delivered
  {
    hide Invariant, IsHeldBack, Live;
    if IsHeldBack(s, k) {
      HeldBackIsLive(s, k);
    } else {
      CutOffIsSomewhere(s, k);
    }
    SomewhereIsUndelivered(s, k);
  }

  lemma CutOffIsSomewhere(s: Link, k: Copy)
    requires IsCutOff(s, k) && s.clientReading
    ensures k in Live(s) + s.lost
  {
    hide Carried, Held;
  }

  lemma UnanswerableStep(s: Link, step: Step, k: Copy)
    requires Fact(s) && Enabled(s, step) && k.side == Client && IsUnanswerable(s, k) && k !in s.delivered
    ensures Fact(Do(s, step)) && IsUnanswerable(Do(s, step), k) && k !in Do(s, step).delivered
  {
    StepKeepsFact(s, step);
    assert Invariant(s) && Directed(s) && Invariant(Do(s, step));
    OnlyEofStopsReading(s, step);
    StepBooks(s, step, k);
    hide Do, Invariant, Fact, IsUnanswerable, Directed, ClosedAreEmpty;
    StepKeepsUnanswerable(s, step, k);
    if Do(s, step).clientReading {
      UnanswerableIsUndelivered(Do(s, step), k);
    }
  }

  lemma {:induction false} UnanswerableForGood(before: Link, steps: seq<Step>, after: Link, k: Copy)
    requires Fact(before) && k.side == Client && IsUnanswerable(before, k) && k !in before.delivered
    requires Leads(before, steps, after)
    ensures Fact(after) && IsUnanswerable(after, k) && k !in after.delivered
  {
    hide Fact, Enabled, Do, IsUnanswerable;
    if steps != [] {
      var front, last := steps[..|steps| - 1], steps[|steps| - 1];
      assert LeadsBy(before, front, last, after);
      var mid :| Leads(before, front, mid) && IsStep(mid, last, after);
      UnanswerableForGood(before, front, mid, k);
      UnanswerableStep(mid, last, k);
    }
  }

  lemma NeverResolved(s: Link, more: seq<Step>, after: Link, c: nat)
    requires Fact(s) && HasPhase(s.client, c, Waiting) && IsUnanswerable(s, CopyOf(s, Client, c))
    requires Leads(s, more, after)
    ensures !HasPhase(after.client, c, Resolved(c))
  {
    hide Fact, Leads, IsUnanswerable;
    WaitingIsLive(s, Client, c);
    UnanswerableForGood(s, more, after, CopyOf(s, Client, c));
    KeepsId(s, more, after, Client, c);
    if HasPhase(after.client, c, Resolved(c)) {
      ResolvedIsDelivered(after, c);
    }
  }

  lemma ResolvedIsDelivered(s: Link, c: nat)
    requires Fact(s) && HasPhase(s.client, c, Resolved(c))
    ensures CopyOf(s, Client, c) in s.delivered
  {
    assert CallOk(s.client, Client, s.delivered, c);
  }

  // ----- The way of a request through the server and back

  /** Where a request of the client, or its answer, stands, from the last place to the first. */
  datatype Station = InToClient | InServerOut | InHandler | InServerIn | InToServer | InClientOut

  /** How many moves from station to station the answer still needs. */
  function Left(p: Station): nat {
    match p
    case InToClient => 0
    case InServerOut => 1
    case InHandler => 2
    case InServerIn => 3
    case InToServer => 4
    case InClientOut => 5
  }

  predicate IsAt(s: Link, p: Station, i: nat, k: Copy) {
    match p
    case InToClient => Carries(s.toClient, i, k)
    case InServerOut => Carries(s.serverOut, i, k)
    case InHandler => i < |s.serverTasks| && s.serverTasks[i] == Task(k, None)
    case InServerIn => Carries(s.serverIn, i, k)
    case InToServer => Carries(s.toServer, i, k)
    case InClientOut => Carries(s.clientOut, i, k)
  }

  /** Every outbox and reader from the station on is open. */
  predicate IsClear(s: Link, p: Station) {
    && s.clientReading
    && (Left(p) >= 1 ==> s.serverOutOpen)
    && (Left(p) >= 4 ==> s.serverReading)
    && (Left(p) >= 5 ==> s.clientOutOpen)
  }

  function Forward(p: Station, i: nat): Step {
    match p
    case InToClient => ClientRead
    case InServerOut => Write(Server)
    case InHandler => Finish(Server, i)
    case InServerIn => ServerTake
    case InToServer => ServerRead
    case InClientOut => Write(Client)
  }

  ghost predicate Nearer(s: Link, p: Station, i: nat, after: Link, q: Station, j: nat, k: Copy) {
    IsAt(after, q, j, k) && IsClear(after, q) && (Left(q) < Left(p) || (q == p && j < i))
  }

  lemma ReadMoves(s: Link, i: nat, k: Copy) returns (j: nat)
    requires IsAt(s, InToClient, i, k) && IsClear(s, InToClient) && i > 0
    ensures Enabled(s, ClientRead) && Nearer(s, InToClient, i, Do(s, ClientRead), InToClient, j, k)
  {
    hide Deliver;
    j := i - 1;
  }

  lemma WriteMoves(s: Link, p: Station, i: nat, k: Copy) returns (q: Station, j: nat)
    requires (p == InServerOut || p == InClientOut) && IsAt(s, p, i, k) && IsClear(s, p)
    ensures Enabled(s, Forward(p, i)) && Nearer(s, p, i, Do(s, Forward(p, i)), q, j, k)
  {
    if i > 0 {
      q, j := p, i - 1;
    } else if p == InServerOut {
      q, j := InToClient, |s.toClient|;
    } else {
      q, j := InToServer, |s.toServer|;
    }
  }

  lemma FinishMoves(s: Link, i: nat, k: Copy) returns (j: nat)
    requires IsAt(s, InHandler, i, k) && IsClear(s, InHandler)
    ensures Enabled(s, Finish(Server, i))
    ensures Nearer(s, InHandler, i, Do(s, Finish(Server, i)), InServerOut, j, k)
  {
    hide Remove;
    j := |s.serverOut|;
  }

  lemma TakeMoves(s: Link, i: nat, k: Copy) returns (q: Station, j: nat)
    requires IsAt(s, InServerIn, i, k) && IsClear(s, InServerIn) && Directed(s) && k.side == Client
    ensures Enabled(s, ServerTake) && Nearer(s, InServerIn, i, Do(s, ServerTake), q, j, k)
  {
    assert TowardsServer(s.serverIn[0]) by {
      assert s.serverIn[0] in s.serverIn;
    }
    hide Deliver, Directed;
    if i > 0 {
      q, j := InServerIn, i - 1;
    } else {
      q, j := InHandler, |s.serverTasks|;
    }
  }

  lemma ServerReadMoves(s: Link, i: nat, k: Copy) returns (q: Station, j: nat)
    requires IsAt(s, InToServer, i, k) && IsClear(s, InToServer)
    ensures Enabled(s, ServerRead) && Nearer(s, InToServer, i, Do(s, ServerRead), q, j, k)
  {
    if i > 0 {
      q, j := InToServer, i - 1;
    } else {
      q, j := InServerIn, |s.serverIn|;
    }
  }

  lemma MovesForward(s: Link, p: Station, i: nat, k: Copy) returns (q: Station, j: nat)
    requires Directed(s) && k.side == Client && IsAt(s, p, i, k) && IsClear(s, p) && (p != InToClient || i > 0)
    ensures Enabled(s, Forward(p, i)) && Nearer(s, p, i, Do(s, Forward(p, i)), q, j, k)
  {
    hide Do, Enabled, Directed, Nearer, IsAt, IsClear;
    match p
    case InToClient =>
      q := InToClient;
      j := ReadMoves(s, i, k);
    case InServerOut => q, j := WriteMoves(s, p, i, k);
    case InHandler =>
      q := InServerOut;
      j := FinishMoves(s, i, k);
    case InServerIn => q, j := TakeMoves(s, i, k);
    case InToServer => q, j := ServerReadMoves(s, i, k);
    case InClientOut => q, j := WriteMoves(s, p, i, k);
  }

  lemma HeadIsRead(s: Link, k: Copy)
    requires Directed(s) && k.side == Client && IsAt(s, InToClient, 0, k) && s.clientReading
    ensures Enabled(s, ClientRead) && TakesAnswer(s, ClientRead, k)
  {
    assert s.toClient[0] in s.toClient;
  }

  lemma HeadArrives(s: Link, k: Copy)
    requires Fact(s) && k.side == Client && IsAt(s, InToClient, 0, k) && s.clientReading
    ensures Enabled(s, ClientRead) && Leads(s, [] + [ClientRead], Do(s, ClientRead))
    ensures k in Do(s, ClientRead).delivered && Do(s, ClientRead).clientReading
  {
    assert Directed(s);
    hide Do, Enabled, Fact, Directed, IsAt, TakesAnswer, ClosedAreEmpty;
    HeadIsRead(s, k);
    StepBooks(s, ClientRead, k);
    OnlyEofStopsReading(s, ClientRead);
    NoSteps(s);
    OneMoreStep(s, [], s, ClientRead);
  }

  /** With the way clear, some continuation delivers the answer, and the client still reads then. */
  lemma {:induction false} BringsAnswer(s: Link, p: Station, i: nat, k: Copy) returns (more: seq<Step>, after: Link)
    requires Fact(s) && k.side == Client && IsAt(s, p, i, k) && IsClear(s, p)
    ensures Leads(s, more, after) && k in after.delivered && after.clientReading
    decreases Left(p), i
  {
    assert Directed(s) && s.clientReading;
    hide Do, Enabled, Fact, Directed, IsAt, IsClear, Leads, Forward;
    if p == InToClient && i == 0 {
      HeadArrives(s, k);
      more, after := [] + [ClientRead], Do(s, ClientRead);
    } else {
      var q, j := MovesForward(s, p, i, k);
      StepKeepsFact(s, Forward(p, i));
      more, after := BringsAnswer(Do(s, Forward(p, i)), q, j, k);
      OneStepFirst(s, Forward(p, i), more, after);
      more := [Forward(p, i)] + more;
    }
  }

  // ----- A suspended handler whose elicitation is not stuck can be freed

  /** The handler runs again, and the outboxes and readers its answer needs are open. */
  predicate IsFree(s: Link, i: nat, k: Copy) {
    IsAt(s, InHandler, i, k) && IsClear(s, InHandler)
  }

  lemma WakesHandler(s: Link, t: Task, e: nat) returns (i: nat)
    requires t in s.serverTasks && t.awaits == Some(e) && s.serverOutOpen && s.clientReading
    requires HasPhase(s.server, e, Resolved(e)) || HasPhase(s.server, e, Failed)
    ensures Enabled(s, Resume(i)) && IsFree(Do(s, Resume(i)), i, t.copy)
  {
    i :| 0 <= i < |s.serverTasks| && s.serverTasks[i] == t;
  }

  /** The elicitation's answer comes, and then its handler wakes. */
  lemma FreedByAnswer(s: Link, t: Task, e: nat, p: Place, j: nat)
    returns (more: seq<Step>, after: Link, i: nat)
    requires Fact(s) && t in s.serverTasks && t.awaits == Some(e) && s.serverOutOpen && s.clientReading
    requires HasPhase(s.server, e, Waiting) && StandsAt(s, p, j, CopyOf(s, Server, e)) && IsWayOpen(s, p)
    ensures Leads(s, more, after) && IsFree(after, i, t.copy)
  {
    hide Fact, StandsAt, IsWayOpen, Do, Enabled, Leads, IsFree;
    var mid;
    more, mid := BringsBack(s, p, j, CopyOf(s, Server, e));
    DeliveredIsResolved(s, more, mid, Server, e);
    i := WakesHandler(mid, t, e);
    OneMoreStep(s, more, mid, Resume(i));
    more, after := more + [Resume(i)], Do(mid, Resume(i));
  }

  /** All that the server's own steps before the elicitation flies leave as it is. */
  predicate SameServing(s: Link, after: Link) {
    SameFlags(s, after) && after.serverTasks == s.serverTasks
  }

  lemma SendTakesOff(s: Link, e: nat)
    requires Fact(s) && HasPhase(s.server, e, Registered) && s.serverOutOpen
    ensures Enabled(s, Send(Server, e)) && SameServing(s, Do(s, Send(Server, e)))
    ensures HasPhase(Do(s, Send(Server, e)).server, e, Waiting)
  {
    assert ElicitOk(s, e);
    hide Fact, Carried, Held;
  }

  lemma FreedBySending(s: Link, t: Task, e: nat)
    returns (more: seq<Step>, after: Link, i: nat)
    requires Fact(s) && t in s.serverTasks && t.awaits == Some(e) && s.serverOutOpen && s.clientReading
    requires HasPhase(s.server, e, Registered) && s.clientOutOpen && s.serverReading
    ensures Leads(s, more, after) && IsFree(after, i, t.copy)
  {
    SendTakesOff(s, e);
    SentStands(s, e);
    StepKeepsFact(s, Send(Server, e));
    hide Fact, StandsAt, Do, Enabled, Leads, IsFree;
    more, after, i := FreedByAnswer(Do(s, Send(Server, e)), t, e, AtServerOut, |s.serverOut|);
    OneStepFirst(s, Send(Server, e), more, after);
    more := [Send(Server, e)] + more;
  }

  lemma Registers(s: Link, e: nat)
    requires HasPhase(s.server, e, Allocated)
    ensures Enabled(s, DoRegister(Server, e)) && SameServing(s, Do(s, DoRegister(Server, e)))
    ensures HasPhase(Do(s, DoRegister(Server, e)).server, e, Registered)
  {
  }

  lemma FreedByRegistering(s: Link, t: Task, e: nat)
    returns (more: seq<Step>, after: Link, i: nat)
    requires Fact(s) && t in s.serverTasks && t.awaits == Some(e) && s.serverOutOpen && s.clientReading
    requires HasPhase(s.server, e, Allocated) && s.clientOutOpen && s.serverReading
    ensures Leads(s, more, after) && IsFree(after, i, t.copy)
  {
    Registers(s, e);
    StepKeepsFact(s, DoRegister(Server, e));
    hide Fact, Do, Enabled, Leads, IsFree;
    more, after, i := FreedBySending(Do(s, DoRegister(Server, e)), t, e);
    OneStepFirst(s, DoRegister(Server, e), more, after);
    more := [DoRegister(Server, e)] + more;
  }

  lemma FreedFlying(s: Link, t: Task, e: nat)
    returns (more: seq<Step>, after: Link, i: nat)
    requires Fact(s) && t in s.serverTasks && t.awaits == Some(e) && s.serverOutOpen && s.clientReading
    requires HasPhase(s.server, e, Waiting) && !IsDoomed(s, CopyOf(s, Server, e))
    ensures Leads(s, more, after) && IsFree(after, i, t.copy)
  {
    assert Directed(s) && ClosedAreEmpty(s);
    hide Fact, IsDoomed, Leads, Directed, ClosedAreEmpty, Live, StandsAt, IsWayOpen, IsFree;
    WaitingIsLive(s, Server, e);
    LostIsDoomed(s, CopyOf(s, Server, e));
    var p, j := HasPlace(s, CopyOf(s, Server, e));
    more, after, i := FreedByAnswer(s, t, e, p, j);
  }

  lemma FreedAtOnce(s: Link, t: Task, e: nat)
    returns (more: seq<Step>, after: Link, i: nat)
    requires t in s.serverTasks && t.awaits == Some(e) && s.serverOutOpen && s.clientReading
    requires HasPhase(s.server, e, Resolved(e)) || HasPhase(s.server, e, Failed)
    ensures Leads(s, more, after) && IsFree(after, i, t.copy)
  {
    hide Do, Enabled, Leads, IsFree;
    i := WakesHandler(s, t, e);
    NoSteps(s);
    OneMoreStep(s, [], s, Resume(i));
    more, after := [] + [Resume(i)], Do(s, Resume(i));
  }

  lemma AwaitedPhase(s: Link, t: Task, e: nat)
    requires Fact(s) && t in s.serverTasks && t.awaits == Some(e)
    ensures e in s.server.calls && s.server.calls[e].phase != Closed
    ensures s.server.calls[e].phase.Resolved? ==> HasPhase(s.server, e, Resolved(e))
  {
    assert ElicitOk(s, e) && CallOk(s.server, Server, s.delivered, e);
  }

  lemma FreesHandler(s: Link, t: Task) returns (more: seq<Step>, after: Link, i: nat)
    requires Fact(s) && t in s.serverTasks && t.awaits.Some? && !IsHeldUp(s, t) && s.clientReading
    ensures Leads(s, more, after) && IsFree(after, i, t.copy)
  {
    hide Fact, IsDoomed, Leads, IsFree;
    var e := t.awaits.value;
    AwaitedPhase(s, t, e);
    if HasPhase(s.server, e, Waiting) {
      more, after, i := FreedFlying(s, t, e);
    } else if HasPhase(s.server, e, Registered) {
      more, after, i := FreedBySending(s, t, e);
    } else if HasPhase(s.server, e, Allocated) {
      more, after, i := FreedByRegistering(s, t, e);
    } else {
      more, after, i := FreedAtOnce(s, t, e);
    }
  }

  // ----- The two halves together

  lemma {:induction false} LeadsOn(a: Link, first: seq<Step>, b: Link, later: seq<Step>, c: Link)
    requires Leads(a, first, b) && Leads(b, later, c)
    ensures Leads(a, first + later, c)
  {
    hide Do, Enabled;
    if later == [] {
      assert first + later == first;
    } else {
      var front, last := later[..|later| - 1], later[|later| - 1];
      assert LeadsBy(b, front, last, c);
      var mid :| Leads(b, front, mid) && IsStep(mid, last, c);
      LeadsOn(a, first, b, front, mid);
      OneMoreStep(a, first + front, mid, last);
      assert first + later == first + front + [last];
    }
  }

  lemma {:induction false} HeldTask(ts: seq<Task>, k: Copy) returns (i: nat)
    requires k in Held(ts)
    ensures i < |ts| && ts[i] in ts && ts[i].copy == k
  {
    i := HeldAt(ts, k);
  }

  /** A request that is not unanswerable stands somewhere on its way, or in a suspended handler's hands. */
  lemma HasStation(s: Link, k: Copy) returns (p: Station, i: nat)
    requires Directed(s) && ClosedAreEmpty(s) && k in Live(s) && k.side == Client && !IsCutOff(s, k)
    requires forall t :: t in s.serverTasks && t.copy == k ==> s.serverOutOpen && t.awaits == None
    ensures IsAt(s, p, i, k) && IsClear(s, p)
  {
    hide Carried, Held;
    if k in Carried(s.clientOut) {
      i := CarriedAt(s.clientOut, k);
      p := InClientOut;
    } else if k in Carried(s.toServer) {
      i := CarriedAt(s.toServer, k);
      p := InToServer;
    } else if k in Carried(s.serverIn) {
      i := CarriedAt(s.serverIn, k);
      p := InServerIn;
    } else if k in Held(s.serverTasks) {
      i := HeldTask(s.serverTasks, k);
      p := InHandler;
    } else if k in Carried(s.serverOut) {
      i := CarriedAt(s.serverOut, k);
      p := InServerOut;
    } else if k in Carried(s.toClient) {
      i := CarriedAt(s.toClient, k);
      p := InToClient;
    } else {
      p, i := InToClient, 0;
      HeldIsFrom(s.clientTasks, Server, k);
      assert false;
    }
  }

  predicate IsSuspended(s: Link, t: Task, k: Copy) {
    t in s.serverTasks && t.copy == k && t.awaits.Some?
  }

  lemma AnswerComes(s: Link, k: Copy) returns (more: seq<Step>, after: Link)
    requires Fact(s) && k in Live(s) && k.side == Client && !IsUnanswerable(s, k)
    ensures Leads(s, more, after) && k in after.delivered && after.clientReading
  {
    assert Directed(s) && ClosedAreEmpty(s) && s.clientReading;
    hide Fact, Leads, Directed, ClosedAreEmpty, Live, IsCutOff, IsAt, IsClear, IsStuck;
    assert forall t :: t in s.serverTasks && t.copy == k ==> !IsHeldUp(s, t);
    if t :| IsSuspended(s, t, k) {
      var first, mid, i := FreesHandler(s, t);
      RunKeepsFact(s, first, mid);
      var later;
      later, after := BringsAnswer(mid, InHandler, i, k);
      LeadsOn(s, first, mid, later, after);
      more := first + later;
    } else {
      assert forall t :: t in s.serverTasks && t.copy == k ==> !IsSuspended(s, t, k);
      var p, i := HasStation(s, k);
      more, after := BringsAnswer(s, p, i, k);
    }
  }

  ghost predicate Answers(s: Link, more: seq<Step>, after: Link, c: nat) {
    Leads(s, more, after) && HasPhase(after.client, c, Resolved(c))
  }

  /** Some continuation wakes the caller with the answer to its own request. */
  ghost predicate CanBeAnswered(s: Link, c: nat) {
    exists more, after :: Answers(s, more, after, c)
  }

  lemma AnswerableCanBeAnswered(s: Link, c: nat)
    requires Fact(s) && HasPhase(s.client, c, Waiting) && !IsUnanswerable(s, CopyOf(s, Client, c))
    ensures CanBeAnswered(s, c)
  {
    hide Fact, Leads, IsHeldBack, Live;
    WaitingIsLive(s, Client, c);
    var more, after := AnswerComes(s, CopyOf(s, Client, c));
    DeliveredIsResolved(s, more, after, Client, c);
    assert Answers(s, more, after, c);
  }

  /**
   In every reachable state a waiting call can still be answered if and only if the client's reader
   runs, the call's message is not lost and has no closed reader or outbox ahead of it, and no handler
   holds it that cannot send its answer or waits for an elicitation that is stuck.
   */
  lemma AnswerableIff(steps: seq<Step>, s: Link, c: nat)
    requires Reaches(steps, s) && HasPhase(s.client, c, Waiting)
    ensures CanBeAnswered(s, c) <==> !IsUnanswerable(s, CopyOf(s, Client, c))
  {
    hide Fact, Reaches, Leads, IsUnanswerable;
    ReachedFact(steps, s);
    if IsUnanswerable(s, CopyOf(s, Client, c)) {
      forall more, after | Leads(s, more, after)
        ensures !Answers(s, more, after, c)
      {
        NeverResolved(s, more, after, c);
      }
    } else {
      AnswerableCanBeAnswered(s, c);
    }
  }

  // ----- Calls that have not begun

  predicate AllOpen(s: Link) {
    s.clientOutOpen && s.serverOutOpen && s.clientReading && s.serverReading
  }

  /** The link starts with every outbox and reader open, and the first ids are 1 and 1000000. */
  lemma StartIsOpen()
    ensures AllOpen(Start()) && Reaches([], Start())
    ensures Start().client.calls == map[] && Start().server.calls == map[]
    ensures Start().client.nextId == 1 && Start().server.nextId == 1_000_000
  {
  }

  lemma BeginsOpen(s: Link, c: nat)
    requires Enabled(s, Begin(c)) && AllOpen(s)
    ensures AllOpen(Do(s, Begin(c))) && HasPhase(Do(s, Begin(c)).client, c, Allocated)
  {
  }

  lemma RegistersOpen(s: Link, c: nat)
    requires HasPhase(s.client, c, Allocated) && AllOpen(s)
    ensures Enabled(s, DoRegister(Client, c))
    ensures var after := Do(s, DoRegister(Client, c));
            AllOpen(after) && HasPhase(after.client, c, Registered) && after.client.calls[c].id in after.client.pending
  {
  }

  lemma SendsOpen(s: Link, c: nat)
    requires HasPhase(s.client, c, Registered) && s.client.calls[c].id in s.client.pending && AllOpen(s)
    ensures Enabled(s, Send(Client, c))
    ensures var after := Do(s, Send(Client, c));
            && HasPhase(after.client, c, Waiting) && IsClear(after, InClientOut)
            && IsAt(after, InClientOut, |s.clientOut|, CopyOf(after, Client, c))
  {
  }

  lemma NewCallIsAnswered(s: Link, c: nat)
    requires Fact(s) && c !in s.client.calls && AllOpen(s)
    ensures CanBeAnswered(s, c)
  {
    hide Do, Fact, Leads, IsAt, IsClear, AllOpen;
    BeginsOpen(s, c);
    var first := Do(s, Begin(c));
    StepKeepsFact(s, Begin(c));
    RegistersOpen(first, c);
    var second := Do(first, DoRegister(Client, c));
    StepKeepsFact(first, DoRegister(Client, c));
    SendsOpen(second, c);
    var third := Do(second, Send(Client, c));
    StepKeepsFact(second, Send(Client, c));
    var more, after := BringsAnswer(third, InClientOut, |second.clientOut|, CopyOf(third, Client, c));
    DeliveredIsResolved(third, more, after, Client, c);
    OneStepFirst(second, Send(Client, c), more, after);
    OneStepFirst(first, DoRegister(Client, c), [Send(Client, c)] + more, after);
    OneStepFirst(s, Begin(c), [DoRegister(Client, c)] + ([Send(Client, c)] + more), after);
    assert Answers(s, [Begin(c)] + ([DoRegister(Client, c)] + ([Send(Client, c)] + more)), after, c);
  }

  /** Some end is closed, and if the call was sent, it is unanswerable. */
  ghost predicate IsHopeless(s: Link, c: nat) {
    && Fact(s) && !AllOpen(s)
    && (c in s.client.calls && CopyOf(s, Client, c) in s.sent ==>
          IsUnanswerable(s, CopyOf(s, Client, c)) && CopyOf(s, Client, c) !in s.delivered)
  }

  lemma WhatIsSent(s: Link, step: Step, k: Copy)
    requires Enabled(s, step)
    ensures k in Do(s, step).sent ==>
      k in s.sent || (step == Send(k.side, k.call) && TableOf(s, k.side).calls[k.call].id == k.id)
  {
    hide Carried, Held, Remove, Clear, Sent, Register, Allocate, Deliver, SetPhase;
    match step
    case Finish(_, _) => TaskEndSends(s, step);
    case Panics(_, _) => TaskEndSends(s, step);
    case _ =>
  }

  lemma TaskEndSends(s: Link, step: Step)
    requires Enabled(s, step) && (step.Finish? || step.Panics?)
    ensures Do(s, step).sent == s.sent
  {
    hide Remove;
    match step
    case Finish(Server, i) =>
    case Finish(Client, i) =>
    case Panics(Server, i) =>
    case Panics(Client, i) =>
  }

  lemma SentIntoClosed(s: Link, c: nat)
    requires Enabled(s, Send(Client, c)) && !AllOpen(s)
    ensures var after := Do(s, Send(Client, c));
            c in after.client.calls && IsCutOff(after, CopyOf(after, Client, c))
  {
    hide Carried;
    CarriedAppend(s.clientOut, Request(Copy(Client, s.client.calls[c].id, c)));
  }

  lemma SentIsKnown(s: Link, k: Copy)
    requires Fact(s) && k in s.sent && k.side == Client
    ensures k.call in s.client.calls && CopyOf(s, Client, k.call) == k
  {
    assert CopyOk(s.client, s.sent, k);
  }

  lemma HopelessStep(s: Link, step: Step, c: nat)
    requires IsHopeless(s, c) && Enabled(s, step)
    ensures IsHopeless(Do(s, step), c)
  {
    StepKeepsFact(s, step);
    NothingReopens(s, step);
    hide Fact, Do, Enabled, IsUnanswerable;
    if c in Do(s, step).client.calls && CopyOf(Do(s, step), Client, c) in Do(s, step).sent {
      SentStaysHopeless(s, step, CopyOf(Do(s, step), Client, c));
    }
  }

  lemma SentStaysHopeless(s: Link, step: Step, k: Copy)
    requires IsHopeless(s, k.call) && Enabled(s, step) && k.side == Client && k in Do(s, step).sent
    ensures IsUnanswerable(Do(s, step), k) && k !in Do(s, step).delivered
  {
    WhatIsSent(s, step, k);
    if k in s.sent {
      SentIsKnown(s, k);
      hide Fact, Do, Enabled, IsUnanswerable;
      UnanswerableStep(s, step, k);
    } else {
      hide Fact, Do, IsUnanswerable;
      FreshIsUnanswerable(s, k.call);
    }
  }

  lemma FreshIsUnanswerable(s: Link, c: nat)
    requires Fact(s) && Enabled(s, Send(Client, c)) && !AllOpen(s)
    ensures var after := Do(s, Send(Client, c));
            && IsUnanswerable(after, Copy(Client, s.client.calls[c].id, c))
            && Copy(Client, s.client.calls[c].id, c) !in after.delivered
  {
    assert Invariant(s) && Directed(s);
    UnsentIsUndelivered(s, Client, c);
    StepIsOp(s, Send(Client, c), Client);
    OpKeepsId(s.client, ToSend(c), c);
    StepBooks(s, Send(Client, c), CopyOf(s, Client, c));
    SentIntoClosed(s, c);
    hide Fact, Invariant, Directed, Do, IsCutOff, IsHeldBack, ClosedAreEmpty, TableAfter;
  }

  lemma {:induction false} HopelessForGood(before: Link, steps: seq<Step>, after: Link, c: nat)
    requires IsHopeless(before, c) && Leads(before, steps, after)
    ensures IsHopeless(after, c)
  {
    hide IsHopeless, Enabled, Do;
    if steps != [] {
      var front, last := steps[..|steps| - 1], steps[|steps| - 1];
      assert LeadsBy(before, front, last, after);
      var mid :| Leads(before, front, mid) && IsStep(mid, last, after);
      HopelessForGood(before, front, mid, c);
      HopelessStep(mid, last, c);
    }
  }

  lemma HopelessIsUnresolved(s: Link, c: nat)
    requires IsHopeless(s, c)
    ensures !HasPhase(s.client, c, Resolved(c))
  {
    assert Invariant(s);
    hide Fact, Invariant, IsUnanswerable, Live;
    if HasPhase(s.client, c, Resolved(c)) {
      ResolvedIsDelivered(s, c);
      LiveWasSent(s, CopyOf(s, Client, c));
    }
  }

  lemma NotBegunIsUnsent(s: Link, c: nat)
    requires Fact(s) && c !in s.client.calls && !AllOpen(s)
    ensures IsHopeless(s, c)
  {
    hide Fact;
  }

  /** In every reachable state a call that has not begun can be answered if and only if all four ends are open. */
  lemma NewCallIff(steps: seq<Step>, s: Link, c: nat)
    requires Reaches(steps, s) && c !in s.client.calls
    ensures CanBeAnswered(s, c) <==> s.clientOutOpen && s.serverOutOpen && s.clientReading && s.serverReading
  {
    hide Fact, Reaches, Leads, IsHopeless;
    ReachedFact(steps, s);
    if AllOpen(s) {
      NewCallIsAnswered(s, c);
    } else {
      NotBegunIsUnsent(s, c);
      forall more, after | Leads(s, more, after)
        ensures !Answers(s, more, after, c)
      {
        HopelessForGood(s, more, after, c);
        HopelessIsUnresolved(after, c);
      }
    }
  }

  /** A writer's end closes its outbox, a reader's end its reader, and each leaves the other three as they are. */
  lemma EndCloses(s: Link, step: Step)
    requires Enabled(s, step) && (step.WriterStops? || step.ClientEof? || step.ServerEof?)
    ensures var after := Do(s, step);
      && after.clientOutOpen == (s.clientOutOpen && step != WriterStops(Client))
      && after.serverOutOpen == (s.serverOutOpen && step != WriterStops(Server))
      && after.clientReading == (s.clientReading && step != ClientEof)
      && after.serverReading == (s.serverReading && step != ServerEof)
  {
    hide Carried, Clear;
  }

  /** Every reader and writer can end at any time, and once. */
  lemma EndsCanClose(s: Link)
    ensures Enabled(s, WriterStops(Client)) <==> s.clientOutOpen
    ensures Enabled(s, WriterStops(Server)) <==> s.serverOutOpen
    ensures Enabled(s, ClientEof) <==> s.clientReading
    ensures Enabled(s, ServerEof) <==> s.serverReading
  {
  }

  /** After the end of any reader or writer no call that has not begun can ever be answered. */
  lemma AnyEndStopsNewCalls(steps: seq<Step>, s: Link, step: Step, c: nat)
    requires Reaches(steps, s) && c !in s.client.calls
    requires Enabled(s, step) && (step.WriterStops? || step.ClientEof? || step.ServerEof?)
    ensures Reaches(steps + [step], Do(s, step)) && !CanBeAnswered(Do(s, step), c)
  {
    EndCloses(s, step);
    assert c !in Do(s, step).client.calls by { hide Carried; }
    hide Do, Enabled, CanBeAnswered, Leads;
    OneMoreStep(Start(), steps, s, step);
    NewCallIff(steps + [step], Do(s, step), c);
  }
}
