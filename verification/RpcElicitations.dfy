/**
 When an elicitation that waits for its answer never returns: the server's half of the waiters.  The
 server clears none of them, so a message that is lost or cut off leaves its caller waiting for good.
 */
module RpcElicitations {
  import opened Commons
  import opened Rpc
  import opened RpcInvariant
  import opened RpcRuns
  import opened RpcWaiters
  import opened RpcFacts

  /**
   No way back is left for the elicitation's message: it is lost, or a reader or an outbox that still
   lies ahead of it has closed.
   */
  predicate IsDoomed(s: Link, k: Copy) {
    || k in s.lost
    || ((k in Carried(s.serverOut) || k in Carried(s.toClient))
        && !(s.clientReading && s.clientOutOpen && s.serverReading))
    || (k in Held(s.clientTasks) && !(s.clientOutOpen && s.serverReading))
    || ((k in Carried(s.clientOut) || k in Carried(s.toServer)) && !s.serverReading)
  }

  // ----- No step lifts the doom

  ghost predicate KeepsDoom(s: Link, after: Link, k: Copy) {
    IsDoomed(s, k) ==> IsDoomed(after, k)
  }

  lemma QuietKeepsDoom(s: Link, step: Step, k: Copy)
    requires Enabled(s, step) && IsQuiet(step)
    ensures KeepsDoom(s, Do(s, step), k)
  {
    hide Do, Enabled, Carried, Held;
    if step.ClientEof? || step.ServerEof? {
      EofTraffic(s, step);
    } else {
      CallerTraffic(s, step);
    }
  }

  lemma SendKeepsDoom(s: Link, side: Side, c: nat, k: Copy)
    requires Enabled(s, Send(side, c))
    ensures KeepsDoom(s, Do(s, Send(side, c)), k)
  {
    hide Sent, Carried, Held;
    CarriedAppend(Outbox(s, side), Request(Copy(side, TableOf(s, side).calls[c].id, c)));
  }

  lemma WriteKeepsDoom(s: Link, side: Side, k: Copy)
    requires Enabled(s, Write(side))
    ensures KeepsDoom(s, Do(s, Write(side)), k)
  {
    hide Carried, Held;
    CarriedPop(Outbox(s, side));
    CarriedAppend(if side == Client then s.toServer else s.toClient, Outbox(s, side)[0]);
  }

  lemma WriterStopKeepsDoom(s: Link, side: Side, k: Copy)
    requires Enabled(s, WriterStops(side))
    ensures KeepsDoom(s, Do(s, WriterStops(side)), k)
  {
    CarriedNone();
    hide Carried, Held;
  }

  lemma ServerReadKeepsDoom(s: Link, k: Copy)
    requires Enabled(s, ServerRead)
    ensures KeepsDoom(s, Do(s, ServerRead), k)
  {
    hide Carried, Held;
  }

  lemma TakeKeepsDoom(s: Link, k: Copy)
    requires Enabled(s, ServerTake)
    ensures KeepsDoom(s, Do(s, ServerTake), k)
  {
    hide Carried, Held, Deliver;
  }

  lemma ClientReadsRequest(s: Link, k: Copy)
    requires Enabled(s, ClientRead) && s.toClient[0].Request?
    ensures KeepsDoom(s, Do(s, ClientRead), k)
  {
    hide Carried, Held, Deliver;
    CarriedPop(s.toClient);
    HeldAppend(s.clientTasks, Task(s.toClient[0].copy, None));
  }

  lemma ClientReadsResponse(s: Link, k: Copy)
    requires Enabled(s, ClientRead) && s.toClient[0].Response? && s.toClient[0].copy != k
    ensures KeepsDoom(s, Do(s, ClientRead), k)
  {
    hide Carried, Held, Deliver;
    CarriedPop(s.toClient);
  }

  lemma ClientReadKeepsDoom(s: Link, k: Copy)
    requires Enabled(s, ClientRead) && Directed(s) && k.side == Server
    ensures KeepsDoom(s, Do(s, ClientRead), k)
  {
    assert TowardsServer(s.toClient[0]) == false by {
      assert s.toClient[0] in s.toClient;
    }
    hide KeepsDoom, Do, Directed;
    if s.toClient[0].Request? {
      ClientReadsRequest(s, k);
    } else {
      ClientReadsResponse(s, k);
    }
  }

  lemma FinishKeepsDoom(s: Link, side: Side, i: nat, k: Copy)
    requires Enabled(s, Finish(side, i))
    ensures KeepsDoom(s, Do(s, Finish(side, i)), k)
  {
    hide Carried, Held, Remove;
    match side
    case Server =>
      CarriedAppend(s.serverOut, Response(s.serverTasks[i].copy));
    case Client =>
      HeldRemove(s.clientTasks, i);
      CarriedAppend(s.clientOut, Response(s.clientTasks[i].copy));
  }

  lemma PanicKeepsDoom(s: Link, side: Side, i: nat, k: Copy)
    requires Enabled(s, Panics(side, i))
    ensures KeepsDoom(s, Do(s, Panics(side, i)), k)
  {
    hide Carried, Held, Remove;
    match side
    case Server =>
    case Client => HeldRemove(s.clientTasks, i);
  }

  lemma StepKeepsDoom(s: Link, step: Step, k: Copy)
    requires Enabled(s, step) && Directed(s) && k.side == Server
    ensures KeepsDoom(s, Do(s, step), k)
  {
    hide KeepsDoom, Do, Enabled, Directed;
    match step
    case Send(side, c) => SendKeepsDoom(s, side, c, k);
    case Write(side) => WriteKeepsDoom(s, side, k);
    case WriterStops(side) => WriterStopKeepsDoom(s, side, k);
    case ServerRead => ServerReadKeepsDoom(s, k);
    case ServerTake => TakeKeepsDoom(s, k);
    case ClientRead => ClientReadKeepsDoom(s, k);
    case Finish(side, i) => FinishKeepsDoom(s, side, i, k);
    case Panics(side, i) => PanicKeepsDoom(s, side, i, k);
    case _ => QuietKeepsDoom(s, step, k);
  }

  // ----- What is doomed never comes back

  lemma DoomedIsUndelivered(s: Link, k: Copy)
    requires Invariant(s) && IsDoomed(s, k)
    ensures k !in s.delivered
  {
    hide Invariant, Live, IsDoomed;
    DoomedIsSomewhere(s, k);
    SomewhereIsUndelivered(s, k);
  }

  lemma DoomedIsSomewhere(s: Link, k: Copy)
    requires IsDoomed(s, k)
    ensures k in Live(s) + s.lost
  {
    hide Carried, Held;
  }

  lemma DoomedStep(s: Link, step: Step, c: nat)
    requires Fact(s) && Enabled(s, step) && HasPhase(s.server, c, Waiting) && IsDoomed(s, CopyOf(s, Server, c))
    ensures Fact(Do(s, step)) && HasPhase(Do(s, step).server, c, Waiting)
    ensures IsDoomed(Do(s, step), CopyOf(Do(s, step), Server, c))
  {
    StepKeepsFact(s, step);
    assert Invariant(s) && Directed(s) && Invariant(Do(s, step));
    hide Do, Enabled, Invariant, IsDoomed, Fact, Directed, ClosedAreEmpty;
    var k := CopyOf(s, Server, c);
    StepKeepsDoom(s, step, k);
    StepBooks(s, step, k);
    DoomedIsUndelivered(Do(s, step), k);
    WaitingUntilTaken(s, step, Server, c);
  }

  lemma {:induction false} DoomedNeverReturns(before: Link, steps: seq<Step>, after: Link, c: nat)
    requires Fact(before) && HasPhase(before.server, c, Waiting) && IsDoomed(before, CopyOf(before, Server, c))
    requires Leads(before, steps, after)
    ensures Fact(after) && HasPhase(after.server, c, Waiting) && IsDoomed(after, CopyOf(after, Server, c))
  {
    hide Fact, Enabled, Do, IsDoomed;
    if steps != [] {
      var front, last := steps[..|steps| - 1], steps[|steps| - 1];
      assert LeadsBy(before, front, last, after);
      var mid :| Leads(before, front, mid) && IsStep(mid, last, after);
      DoomedNeverReturns(before, front, mid, c);
      DoomedStep(mid, last, c);
    }
  }

  // ----- What is not doomed can be brought back

  /** Where a server's copy can stand, from the last place to the first. */
  datatype Place = AtServerIn | AtToServer | AtClientOut | AtClient | AtToClient | AtServerOut

  function Rank(p: Place): nat {
    match p
    case AtServerIn => 0
    case AtToServer => 1
    case AtClientOut => 2
    case AtClient => 3
    case AtToClient => 4
    case AtServerOut => 5
  }

  predicate Carries(ms: seq<Message>, i: nat, k: Copy) {
    i < |ms| && ms[i].copy == k
  }

  predicate StandsAt(s: Link, p: Place, i: nat, k: Copy) {
    match p
    case AtServerIn => Carries(s.serverIn, i, k)
    case AtToServer => Carries(s.toServer, i, k)
    case AtClientOut => Carries(s.clientOut, i, k)
    case AtClient => i < |s.clientTasks| && s.clientTasks[i].copy == k
    case AtToClient => Carries(s.toClient, i, k)
    case AtServerOut => Carries(s.serverOut, i, k)
  }

  /** Every reader and outbox from the place on is open. */
  predicate IsWayOpen(s: Link, p: Place) {
    && (Rank(p) >= 1 ==> s.serverReading)
    && (Rank(p) >= 2 ==> s.clientOutOpen)
    && (Rank(p) >= 4 ==> s.clientReading)
    && (Rank(p) >= 5 ==> s.serverOutOpen)
  }

  /** The step that moves the place's head, or the handler, on. */
  function Onward(p: Place, i: nat): Step {
    match p
    case AtServerIn => ServerTake
    case AtToServer => ServerRead
    case AtClientOut => Write(Client)
    case AtClient => Finish(Client, i)
    case AtToClient => ClientRead
    case AtServerOut => Write(Server)
  }

  lemma TakeAdvances(s: Link, i: nat, k: Copy)
    requires StandsAt(s, AtServerIn, i, k) && i > 0
    ensures Enabled(s, ServerTake) && StandsAt(Do(s, ServerTake), AtServerIn, i - 1, k)
  {
    hide Deliver;
  }

  lemma ReadAdvances(s: Link, i: nat, k: Copy) returns (q: Place, j: nat)
    requires StandsAt(s, AtToServer, i, k) && IsWayOpen(s, AtToServer)
    ensures Enabled(s, ServerRead) && StandsAt(Do(s, ServerRead), q, j, k) && IsWayOpen(Do(s, ServerRead), q)
    ensures Rank(q) < Rank(AtToServer) || (q == AtToServer && j < i)
  {
    if i > 0 {
      q, j := AtToServer, i - 1;
    } else {
      q, j := AtServerIn, |s.serverIn|;
    }
  }

  lemma WriteAdvances(s: Link, side: Side, i: nat, k: Copy) returns (q: Place, j: nat)
    requires var p := if side == Client then AtClientOut else AtServerOut;
             StandsAt(s, p, i, k) && IsWayOpen(s, p)
    ensures Enabled(s, Write(side)) && StandsAt(Do(s, Write(side)), q, j, k) && IsWayOpen(Do(s, Write(side)), q)
    ensures var p := if side == Client then AtClientOut else AtServerOut;
            Rank(q) < Rank(p) || (q == p && j < i)
  {
    if i > 0 {
      q, j := if side == Client then AtClientOut else AtServerOut, i - 1;
    } else {
      q, j := if side == Client then AtToServer else AtToClient, if side == Client then |s.toServer| else |s.toClient|;
    }
  }

  lemma FinishAdvances(s: Link, i: nat, k: Copy)
    requires StandsAt(s, AtClient, i, k) && IsWayOpen(s, AtClient)
    ensures Enabled(s, Finish(Client, i)) && StandsAt(Do(s, Finish(Client, i)), AtClientOut, |s.clientOut|, k)
    ensures IsWayOpen(Do(s, Finish(Client, i)), AtClientOut)
  {
    hide Remove;
  }

  lemma ClientReadAdvances(s: Link, i: nat, k: Copy) returns (q: Place, j: nat)
    requires StandsAt(s, AtToClient, i, k) && IsWayOpen(s, AtToClient) && Directed(s) && k.side == Server
    ensures Enabled(s, ClientRead) && StandsAt(Do(s, ClientRead), q, j, k) && IsWayOpen(Do(s, ClientRead), q)
    ensures Rank(q) < Rank(AtToClient) || (q == AtToClient && j < i)
  {
    assert TowardsServer(s.toClient[0]) == false by {
      assert s.toClient[0] in s.toClient;
    }
    hide Deliver, Directed;
    if i > 0 {
      q, j := AtToClient, i - 1;
    } else {
      q, j := AtClient, |s.clientTasks|;
    }
  }

  lemma Advances(s: Link, p: Place, i: nat, k: Copy) returns (q: Place, j: nat)
    requires Directed(s) && k.side == Server && StandsAt(s, p, i, k) && IsWayOpen(s, p)
    requires p != AtServerIn || i > 0
    ensures Enabled(s, Onward(p, i)) && StandsAt(Do(s, Onward(p, i)), q, j, k) && IsWayOpen(Do(s, Onward(p, i)), q)
    ensures Rank(q) < Rank(p) || (q == p && j < i)
  {
    hide Do, Enabled, Directed;
    match p
    case AtServerIn =>
      TakeAdvances(s, i, k);
      q, j := AtServerIn, i - 1;
    case AtToServer => q, j := ReadAdvances(s, i, k);
    case AtClientOut => q, j := WriteAdvances(s, Client, i, k);
    case AtClient =>
      FinishAdvances(s, i, k);
      q, j := AtClientOut, |s.clientOut|;
    case AtToClient => q, j := ClientReadAdvances(s, i, k);
    case AtServerOut => q, j := WriteAdvances(s, Server, i, k);
  }

  lemma HeadIsTaken(s: Link, k: Copy)
    requires Directed(s) && k.side == Server && StandsAt(s, AtServerIn, 0, k)
    ensures Enabled(s, ServerTake) && TakesAnswer(s, ServerTake, k)
  {
    assert s.serverIn[0] in s.serverIn;
  }

  /** Every outbox and reader that was open or shut is so still, and no handler of the server is gone. */
  ghost predicate SameEnds(s: Link, after: Link) {
    && after.clientOutOpen == s.clientOutOpen && after.serverOutOpen == s.serverOutOpen
    && after.clientReading == s.clientReading && after.serverReading == s.serverReading
    && forall t :: t in s.serverTasks ==> t in after.serverTasks
  }

  lemma ReadingKeepsEnds(s: Link, step: Step)
    requires Enabled(s, step) && (step.ServerRead? || step.ServerTake? || step.ClientRead?)
    ensures SameEnds(s, Do(s, step))
  {
    hide Deliver;
  }

  lemma WritingKeepsEnds(s: Link, side: Side)
    requires Enabled(s, Write(side))
    ensures SameEnds(s, Do(s, Write(side)))
  {
  }

  lemma FinishKeepsEnds(s: Link, i: nat)
    requires Enabled(s, Finish(Client, i))
    ensures SameEnds(s, Do(s, Finish(Client, i)))
  {
    hide Remove;
  }

  lemma OnwardKeepsEnds(s: Link, p: Place, i: nat)
    requires Enabled(s, Onward(p, i))
    ensures SameEnds(s, Do(s, Onward(p, i)))
  {
    hide Do, Enabled, SameEnds;
    match p
    case AtServerIn => ReadingKeepsEnds(s, ServerTake);
    case AtToServer => ReadingKeepsEnds(s, ServerRead);
    case AtClientOut => WritingKeepsEnds(s, Client);
    case AtClient => FinishKeepsEnds(s, i);
    case AtToClient => ReadingKeepsEnds(s, ClientRead);
    case AtServerOut => WritingKeepsEnds(s, Server);
  }

  lemma SameEndsTwice(a: Link, b: Link, c: Link)
    requires SameEnds(a, b) && SameEnds(b, c)
    ensures SameEnds(a, c)
  {
  }

  /** With the way open, some continuation delivers the copy, and no end of either side closes meanwhile. */
  lemma {:induction false} BringsBack(s: Link, p: Place, i: nat, k: Copy) returns (more: seq<Step>, after: Link)
    requires Fact(s) && k.side == Server && StandsAt(s, p, i, k) && IsWayOpen(s, p)
    ensures Leads(s, more, after) && k in after.delivered && SameEnds(s, after)
    decreases Rank(p), i
  {
    assert Directed(s);
    hide Do, Enabled, Fact, Directed, StandsAt, IsWayOpen, TakesAnswer, IsDoomed, ClosedAreEmpty, SameEnds;
    if p == AtServerIn && i == 0 {
      HeadIsTaken(s, k);
      OnwardKeepsEnds(s, AtServerIn, 0);
      StepBooks(s, ServerTake, k);
      NoSteps(s);
      OneMoreStep(s, [], s, ServerTake);
      more, after := [] + [ServerTake], Do(s, ServerTake);
    } else {
      var q, j := Advances(s, p, i, k);
      StepKeepsFact(s, Onward(p, i));
      OnwardKeepsEnds(s, p, i);
      more, after := BringsBack(Do(s, Onward(p, i)), q, j, k);
      SameEndsTwice(s, Do(s, Onward(p, i)), after);
      OneStepFirst(s, Onward(p, i), more, after);
      more := [Onward(p, i)] + more;
    }
  }

  lemma {:induction false} CarriedAt(ms: seq<Message>, k: Copy) returns (i: nat)
    requires k in Carried(ms)
    ensures Carries(ms, i, k)
  {
    var n := |ms| - 1;
    if ms[n].copy == k {
      i := n;
    } else {
      i := CarriedAt(ms[..n], k);
    }
  }

  lemma {:induction false} HeldAt(ts: seq<Task>, k: Copy) returns (i: nat)
    requires k in Held(ts)
    ensures i < |ts| && ts[i].copy == k
  {
    var n := |ts| - 1;
    if ts[n].copy == k {
      i := n;
    } else {
      i := HeldAt(ts[..n], k);
    }
  }

  lemma HasPlace(s: Link, k: Copy) returns (p: Place, i: nat)
    requires Directed(s) && ClosedAreEmpty(s) && k in Live(s) && k.side == Server && !IsDoomed(s, k)
    ensures StandsAt(s, p, i, k) && IsWayOpen(s, p)
  {
    hide Carried, Held;
    if k in Carried(s.serverOut) {
      i := CarriedAt(s.serverOut, k);
      p := AtServerOut;
    } else if k in Carried(s.toClient) {
      i := CarriedAt(s.toClient, k);
      p := AtToClient;
    } else if k in Held(s.clientTasks) {
      i := HeldAt(s.clientTasks, k);
      p := AtClient;
    } else if k in Carried(s.clientOut) {
      i := CarriedAt(s.clientOut, k);
      p := AtClientOut;
    } else if k in Carried(s.toServer) {
      i := CarriedAt(s.toServer, k);
      p := AtToServer;
    } else if k in Carried(s.serverIn) {
      i := CarriedAt(s.serverIn, k);
      p := AtServerIn;
    } else {
      p, i := AtServerIn, 0;
      HeldIsFrom(s.serverTasks, Client, k);
      assert false;
    }
  }

  lemma HeldIsFrom(ts: seq<Task>, side: Side, k: Copy)
    requires AllFrom(ts, side) && k in Held(ts)
    ensures k.side == side
  {
    var i := HeldAt(ts, k);
    assert ts[i] in ts;
  }

  // ----- The two halves together

  /** If its answer is delivered, the elicitation no longer waits. */
  lemma DeliveredHasReturned(s: Link, more: seq<Step>, after: Link, c: nat)
    requires Fact(s) && HasPhase(s.server, c, Waiting) && Leads(s, more, after)
    requires CopyOf(s, Server, c) in after.delivered
    ensures !Hangs(s, Server, c)
  {
    hide Fact, Leads;
    DeliveredIsResolved(s, more, after, Server, c);
  }

  lemma DoomedHangs(s: Link, c: nat)
    requires Fact(s) && HasPhase(s.server, c, Waiting) && IsDoomed(s, CopyOf(s, Server, c))
    ensures Hangs(s, Server, c)
  {
    hide Fact, IsDoomed, Leads;
    forall more, after | Leads(s, more, after)
      ensures HasPhase(TableOf(after, Server), c, Waiting)
    {
      DoomedNeverReturns(s, more, after, c);
    }
  }

  lemma UndoomedCanReturn(s: Link, c: nat)
    requires Fact(s) && HasPhase(s.server, c, Waiting) && !IsDoomed(s, CopyOf(s, Server, c))
    ensures !Hangs(s, Server, c)
  {
    assert Directed(s) && ClosedAreEmpty(s);
    hide Fact, IsDoomed, Leads, Directed, ClosedAreEmpty, Live, Hangs, StandsAt, IsWayOpen;
    var k := CopyOf(s, Server, c);
    WaitingIsLive(s, Server, c);
    LostIsDoomed(s, k);
    var p, i := HasPlace(s, k);
    var more, after := BringsBack(s, p, i, k);
    DeliveredHasReturned(s, more, after, c);
  }

  /**
   A waiting elicitation never returns, however the run goes on, if and only if its message is
   doomed: it is lost, or a reader or an outbox that lies ahead of it has closed.
   */
  lemma ElicitationHangsIffDoomed(steps: seq<Step>, s: Link, c: nat)
    requires Reaches(steps, s) && HasPhase(s.server, c, Waiting)
    ensures Hangs(s, Server, c) <==> IsDoomed(s, CopyOf(s, Server, c))
  {
    hide Fact, IsDoomed, Reaches, Hangs;
    ReachedFact(steps, s);
    if IsDoomed(s, CopyOf(s, Server, c)) {
      DoomedHangs(s, c);
    } else {
      UndoomedCanReturn(s, c);
    }
  }

  lemma LostIsDoomed(s: Link, k: Copy)
    ensures k in s.lost ==> IsDoomed(s, k)
  {
  }

  lemma ElicitBegins(s: Link, i: nat, c: nat)
    requires Enabled(s, Elicit(i, c)) && s.serverOutOpen
    ensures var after := Do(s, Elicit(i, c));
            && HasPhase(after.server, c, Allocated) && after.serverOutOpen
            && after.clientReading == s.clientReading && after.serverReading == s.serverReading
  {
  }

  lemma RegisterIsEnabled(s: Link, c: nat)
    requires HasPhase(s.server, c, Allocated) && s.serverOutOpen
    ensures Enabled(s, DoRegister(Server, c))
    ensures var after := Do(s, DoRegister(Server, c));
            && HasPhase(after.server, c, Registered) && after.server.calls[c].id in after.server.pending
            && after.serverOutOpen && after.clientReading == s.clientReading && after.serverReading == s.serverReading
  {
  }

  lemma SendWaits(s: Link, c: nat)
    requires HasPhase(s.server, c, Registered) && s.server.calls[c].id in s.server.pending && s.serverOutOpen
    ensures Enabled(s, Send(Server, c))
    ensures var after := Do(s, Send(Server, c));
            && HasPhase(after.server, c, Waiting) && CopyOf(after, Server, c) in Carried(after.serverOut)
            && after.serverOutOpen && after.clientReading == s.clientReading && after.serverReading == s.serverReading
  {
    hide Carried;
    CarriedAppend(s.serverOut, Request(Copy(Server, s.server.calls[c].id, c)));
  }

  lemma StopLoses(s: Link, c: nat)
    requires HasPhase(s.server, c, Waiting) && CopyOf(s, Server, c) in Carried(s.serverOut) && s.serverOutOpen
    ensures Enabled(s, WriterStops(Server))
    ensures var after := Do(s, WriterStops(Server));
            && HasPhase(after.server, c, Waiting) && CopyOf(after, Server, c) in after.lost
            && after.clientReading == s.clientReading && after.serverReading == s.serverReading
  {
    hide Carried;
  }

  /** Every new elicitation of a running handler can come to hang, with no reader ended anywhere. */
  lemma ElicitationCanHang(steps: seq<Step>, s: Link, i: nat, c: nat) returns (more: seq<Step>, after: Link)
    requires Reaches(steps, s) && s.serverOutOpen && Enabled(s, Elicit(i, c))
    ensures Leads(s, more, after) && Hangs(after, Server, c)
    ensures after.clientReading == s.clientReading && after.serverReading == s.serverReading
  {
    ReachedFact(steps, s);
    hide Do, Enabled, Fact, IsDoomed, Leads, Reaches, Hangs, Carried;
    NoSteps(s);
    ElicitBegins(s, i, c);
    more, after := [] + [Elicit(i, c)], Do(s, Elicit(i, c));
    OneMoreStep(s, [], s, Elicit(i, c));
    RegisterIsEnabled(after, c);
    OneMoreStep(s, more, after, DoRegister(Server, c));
    more, after := more + [DoRegister(Server, c)], Do(after, DoRegister(Server, c));
    SendWaits(after, c);
    OneMoreStep(s, more, after, Send(Server, c));
    more, after := more + [Send(Server, c)], Do(after, Send(Server, c));
    StopLoses(after, c);
    OneMoreStep(s, more, after, WriterStops(Server));
    more, after := more + [WriterStops(Server)], Do(after, WriterStops(Server));
    RunKeepsFact(s, more, after);
    LostIsDoomed(after, CopyOf(after, Server, c));
    DoomedHangs(after, c);
  }
}
