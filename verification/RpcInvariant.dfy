/**
 What every step of the link keeps: both pending tables in order, messages headed the right way,
 and every open elicitation inside the tool call that started it.  A pending table is in order when
 each waiter belongs to the call that owns its id, and each copy in circulation to a call that has
 done its send.
 */
module RpcInvariant {
  import opened Commons
  import opened Rpc

  // ----- The pending tables

  /** The waiter under an id belongs to the call that owns the id. */
  ghost predicate WaiterOk(t: Table, id: int)
    requires id in t.pending
  {
    var c := t.pending[id];
    && c in t.calls && t.calls[c].id == id
    && (t.calls[c].phase == Registered || t.calls[c].phase == Waiting || t.calls[c].phase == Failed)
  }

  ghost predicate CallOk(t: Table, side: Side, delivered: multiset<Copy>, c: nat)
    requires c in t.calls
  {
    var call := t.calls[c];
    && call.id < t.nextId
    && (call.phase == Waiting ==> call.id in t.pending)
    && (call.phase.Resolved? ==>
          call.phase.payload == c && call.id !in t.pending && Copy(side, call.id, c) in delivered)
  }

  /** A copy in circulation carries its call's own id, and that call has done its send. */
  ghost predicate CopyOk(t: Table, sent: multiset<Copy>, copy: Copy) {
    && sent[copy] == 1
    && copy.call in t.calls && t.calls[copy.call].id == copy.id
    && (t.calls[copy.call].phase == Waiting || t.calls[copy.call].phase == Closed || t.calls[copy.call].phase.Resolved?)
  }

  ghost predicate TableOk(t: Table, side: Side, sent: multiset<Copy>, delivered: multiset<Copy>) {
    && (forall id :: id in t.pending ==> WaiterOk(t, id))
    && (forall c :: c in t.calls ==> CallOk(t, side, delivered, c))
    && (forall a, b :: a in t.calls && b in t.calls && t.calls[a].id == t.calls[b].id ==> a == b)
    && forall copy :: copy in sent && copy.side == side ==> CopyOk(t, sent, copy)
  }

  lemma AllocateOk(t: Table, side: Side, sent: multiset<Copy>, delivered: multiset<Copy>, c: nat)
    requires TableOk(t, side, sent, delivered) && c !in t.calls
    ensures TableOk(Allocate(t, c), side, sent, delivered)
  {
    var after := Allocate(t, c);
    forall id | id in after.pending
      ensures WaiterOk(after, id)
    {
      assert WaiterOk(t, id);
    }
    forall a | a in after.calls
      ensures CallOk(after, side, delivered, a) && (a != c ==> a in t.calls && t.calls[a].id < t.nextId)
    {
      if a != c { assert CallOk(t, side, delivered, a); }
    }
    forall copy | copy in sent && copy.side == side
      ensures CopyOk(after, sent, copy)
    {
      assert CopyOk(t, sent, copy);
    }
    if t.nextId in t.pending { assert WaiterOk(t, t.nextId); }
  }

  lemma RegisterOk(t: Table, side: Side, sent: multiset<Copy>, delivered: multiset<Copy>, c: nat)
    requires TableOk(t, side, sent, delivered) && HasPhase(t, c, Allocated)
    ensures TableOk(Register(t, c), side, sent, delivered)
  {
    var after := Register(t, c);
    forall id | id in after.pending
      ensures WaiterOk(after, id)
    {
      if id != t.calls[c].id { assert WaiterOk(t, id); }
    }
    forall a | a in after.calls
      ensures CallOk(after, side, delivered, a)
    {
      assert CallOk(t, side, delivered, a);
    }
    forall copy | copy in sent && copy.side == side
      ensures CopyOk(after, sent, copy)
    {
      assert CopyOk(t, sent, copy);
    }
  }

  lemma SentOk(t: Table, side: Side, sent: multiset<Copy>, delivered: multiset<Copy>, c: nat)
    requires TableOk(t, side, sent, delivered) && HasPhase(t, c, Registered)
    ensures TableOk(Sent(t, c), side, sent + multiset{Copy(side, t.calls[c].id, c)}, delivered)
  {
    var after := Sent(t, c);
    var new' := Copy(side, t.calls[c].id, c);
    assert new' in sent ==> CopyOk(t, sent, new');
    forall id | id in after.pending
      ensures WaiterOk(after, id)
    {
      assert WaiterOk(t, id);
    }
    forall a | a in after.calls
      ensures CallOk(after, side, delivered, a)
    {
      assert CallOk(t, side, delivered, a);
    }
    forall copy | copy in sent + multiset{new'} && copy.side == side
      ensures CopyOk(after, sent + multiset{new'}, copy)
    {
      if copy != new' { assert CopyOk(t, sent, copy); }
    }
  }

  lemma FailOk(t: Table, side: Side, sent: multiset<Copy>, delivered: multiset<Copy>, c: nat, keep: bool)
    requires TableOk(t, side, sent, delivered) && HasPhase(t, c, Registered)
    ensures TableOk(SetPhase(if keep then t else t.(pending := t.pending - {t.calls[c].id}), c, Failed),
                    side, sent, delivered)
  {
    var after := SetPhase(if keep then t else t.(pending := t.pending - {t.calls[c].id}), c, Failed);
    forall id | id in after.pending
      ensures WaiterOk(after, id)
    {
      assert WaiterOk(t, id);
    }
    forall a | a in after.calls
      ensures CallOk(after, side, delivered, a)
    {
      assert CallOk(t, side, delivered, a);
    }
    forall copy | copy in sent && copy.side == side
      ensures CopyOk(after, sent, copy)
    {
      assert CopyOk(t, sent, copy);
    }
  }

  /** The waiter a response takes is the one of the very call the response answers. */
  lemma ResponseMeetsOwnWaiter(t: Table, side: Side, sent: multiset<Copy>, delivered: multiset<Copy>, copy: Copy)
    requires TableOk(t, side, sent, delivered)
    requires copy in sent && copy.side == side && copy.id in t.pending
    ensures t.pending[copy.id] == copy.call && HasPhase(t, copy.call, Waiting)
  {
    assert CopyOk(t, sent, copy) && WaiterOk(t, copy.id);
  }

  lemma DeliverOk(t: Table, side: Side, sent: multiset<Copy>, delivered: multiset<Copy>, copy: Copy)
    requires TableOk(t, side, sent, delivered) && copy in sent && copy.side == side
    ensures TableOk(Deliver(t, copy), side, sent, delivered + multiset{copy})
  {
    var after := Deliver(t, copy);
    if copy.id in t.pending {
      ResponseMeetsOwnWaiter(t, side, sent, delivered, copy);
    }
    forall id | id in after.pending
      ensures WaiterOk(after, id)
    {
      assert WaiterOk(t, id);
    }
    forall a | a in after.calls
      ensures CallOk(after, side, delivered + multiset{copy}, a)
    {
      assert CallOk(t, side, delivered, a);
    }
    forall other | other in sent && other.side == side
      ensures CopyOk(after, sent, other)
    {
      assert CopyOk(t, sent, other);
    }
  }

  lemma ClearOk(t: Table, side: Side, sent: multiset<Copy>, delivered: multiset<Copy>)
    requires TableOk(t, side, sent, delivered)
    ensures TableOk(Clear(t), side, sent, delivered)
  {
    var after := Clear(t);
    forall a | a in after.calls
      ensures CallOk(after, side, delivered, a)
    {
      assert CallOk(t, side, delivered, a);
    }
    forall copy | copy in sent && copy.side == side
      ensures CopyOk(after, sent, copy)
    {
      assert CopyOk(t, sent, copy);
    }
  }

  /** A table is indifferent to what happens to the other side's copies. */
  lemma OtherSideOk(t: Table, side: Side, sent: multiset<Copy>, delivered: multiset<Copy>,
                    sent': multiset<Copy>, delivered': multiset<Copy>)
    requires TableOk(t, side, sent, delivered)
    requires forall copy: Copy :: copy.side == side ==> sent[copy] == sent'[copy]
    requires forall copy: Copy :: copy.side == side && copy in delivered ==> copy in delivered'
    ensures TableOk(t, side, sent', delivered')
  {
    forall a | a in t.calls
      ensures CallOk(t, side, delivered', a)
    {
      assert CallOk(t, side, delivered, a);
    }
    forall copy | copy in sent' && copy.side == side
      ensures CopyOk(t, sent', copy)
    {
      assert sent[copy] == sent'[copy];
      assert CopyOk(t, sent, copy);
    }
  }

  // ----- What every step keeps

  predicate TowardsServer(m: Message) {
    m.Request? <==> m.copy.side == Client
  }

  predicate AllTowards(ms: seq<Message>, server: bool) {
    forall m :: m in ms ==> TowardsServer(m) == server
  }

  predicate AllFrom(ts: seq<Task>, side: Side) {
    forall t :: t in ts ==> t.copy.side == side
  }

  /** Requests travel away from their caller, responses towards it; handlers hold the peer's requests. */
  ghost predicate Directed(s: Link) {
    && AllTowards(s.clientOut, true) && AllTowards(s.toServer, true) && AllTowards(s.serverIn, true)
    && AllTowards(s.serverOut, false) && AllTowards(s.toClient, false)
    && AllFrom(s.serverTasks, Client) && AllFrom(s.clientTasks, Server)
  }

  ghost predicate TablesOk(s: Link) {
    TableOk(s.client, Client, s.sent, s.delivered) && TableOk(s.server, Server, s.sent, s.delivered)
  }

  predicate IsOpen(phase: Phase) {
    phase == Allocated || phase == Registered || phase == Waiting
  }

  /** An elicitation without an outcome keeps a tool handler suspended; the server drops no waiter. */
  ghost predicate ElicitOk(s: Link, c: nat)
    requires c in s.server.calls
  {
    var call := s.server.calls[c];
    && call.phase != Closed
    && (call.phase == Registered ==> call.id in s.server.pending)
    && (IsOpen(call.phase) ==> exists t :: t in s.serverTasks && t.awaits == Some(c))
  }

  ghost predicate Nested(s: Link) {
    forall c :: c in s.server.calls ==> ElicitOk(s, c)
  }

  ghost predicate Invariant(s: Link) {
    Conserved(s) && Directed(s) && TablesOk(s) && Nested(s)
  }

  lemma TowardsParts(ms: seq<Message>, server: bool, m: Message)
    requires AllTowards(ms, server)
    ensures AllTowards([], server)
    ensures TowardsServer(m) == server ==> AllTowards(ms + [m], server)
    ensures ms != [] ==> AllTowards(ms[1..], server) && TowardsServer(ms[0]) == server
  {
  }

  lemma FromParts(ts: seq<Task>, side: Side, t: Task, i: nat)
    requires AllFrom(ts, side)
    ensures t.copy.side == side ==> AllFrom(ts + [t], side)
    ensures i < |ts| ==> ts[i].copy.side == side && AllFrom(Remove(ts, i), side)
    ensures i < |ts| && t.copy.side == side ==> AllFrom(ts[i := t], side)
  {
    if i < |ts| {
      assert ts[i] in ts;
    }
  }

  lemma TaskEndKeepsDirected(s: Link, step: Step)
    requires Enabled(s, step) && Directed(s) && (step.Finish? || step.Panics?)
    ensures Directed(Do(s, step))
  {
    hide AllTowards, AllFrom, Remove;
    if step.side == Server {
      FromParts(s.serverTasks, Client, s.serverTasks[step.task], step.task);
      TowardsParts(s.serverOut, false, Response(s.serverTasks[step.task].copy));
    } else {
      FromParts(s.clientTasks, Server, s.clientTasks[step.task], step.task);
      TowardsParts(s.clientOut, true, Response(s.clientTasks[step.task].copy));
    }
  }

  lemma OutboxKeepsDirected(s: Link, step: Step)
    requires Enabled(s, step) && Directed(s) && (step.Send? || step.Write? || step.WriterStops?)
    ensures Directed(Do(s, step))
  {
    hide AllTowards, AllFrom, Sent, Carried;
    match step
    case Send(side, c) =>
      TowardsParts(Outbox(s, side), side == Client, Request(Copy(side, TableOf(s, side).calls[c].id, c)));
    case Write(side) =>
      var m := Outbox(s, side)[0];
      TowardsParts(Outbox(s, side), side == Client, m);
      TowardsParts(if side == Client then s.toServer else s.toClient, side == Client, m);
    case WriterStops(side) =>
      TowardsParts(Outbox(s, side), side == Client, Request(Copy(Client, 0, 0)));
  }

  lemma InboundKeepsDirected(s: Link, step: Step)
    requires Enabled(s, step) && Directed(s) && (step.ServerRead? || step.ServerTake? || step.ClientRead?)
    ensures Directed(Do(s, step))
  {
    hide AllTowards, AllFrom, Deliver;
    match step
    case ServerRead =>
      TowardsParts(s.toServer, true, s.toServer[0]);
      TowardsParts(s.serverIn, true, s.toServer[0]);
    case ServerTake =>
      TowardsParts(s.serverIn, true, s.serverIn[0]);
      FromParts(s.serverTasks, Client, Task(s.serverIn[0].copy, None), 0);
    case ClientRead =>
      TowardsParts(s.toClient, false, s.toClient[0]);
      FromParts(s.clientTasks, Server, Task(s.toClient[0].copy, None), 0);
  }

  /** Steps that move no message and end no handler. */
  predicate IsQuiet(step: Step) {
    || step.Begin? || step.Elicit? || step.DoRegister? || step.SendFails? || step.Resume?
    || step.ClientEof? || step.ServerEof?
  }

  lemma CallerKeepsDirected(s: Link, step: Step)
    requires Enabled(s, step) && Directed(s)
    requires IsQuiet(step)
    ensures Directed(Do(s, step))
  {
    hide AllTowards, AllFrom, Allocate, Register, SetPhase, Clear;
    match step
    case Elicit(i, c) => FromParts(s.serverTasks, Client, s.serverTasks[i].(awaits := Some(c)), i);
    case Resume(i) => FromParts(s.serverTasks, Client, s.serverTasks[i].(awaits := None), i);
    case _ =>
  }

  lemma StepKeepsDirected(s: Link, step: Step)
    requires Enabled(s, step) && Directed(s)
    ensures Directed(Do(s, step))
  {
    hide Do, Enabled, Directed;
    match step
    case Send(_, _) => OutboxKeepsDirected(s, step);
    case Write(_) => OutboxKeepsDirected(s, step);
    case WriterStops(_) => OutboxKeepsDirected(s, step);
    case ServerRead => InboundKeepsDirected(s, step);
    case ServerTake => InboundKeepsDirected(s, step);
    case ClientRead => InboundKeepsDirected(s, step);
    case Finish(_, _) => TaskEndKeepsDirected(s, step);
    case Panics(_, _) => TaskEndKeepsDirected(s, step);
    case _ => CallerKeepsDirected(s, step);
  }

  /** The response at the head of an inbound queue was sent, and answers a call of the reader's side. */
  lemma HeadWasSent(s: Link, side: Side)
    requires Conserved(s) && Directed(s)
    requires var queue := if side == Server then s.serverIn else s.toClient;
             queue != [] && queue[0].Response?
    ensures var queue := if side == Server then s.serverIn else s.toClient;
            queue[0].copy in s.sent && queue[0].copy.side == side
  {
    var queue := if side == Server then s.serverIn else s.toClient;
    assert queue[0] in queue;
    hide Carried, Held;
    CarriedPop(queue);
  }

  lemma RouteTablesOk(s: Link, side: Side, m: Message)
    requires TablesOk(s) && (m.Response? ==> m.copy in s.sent && m.copy.side == side)
    ensures TablesOk(Route(s, side, m))
  {
    hide Deliver, TableOk;
    if m.Response? {
      var delivered := s.delivered + multiset{m.copy};
      if side == Client {
        DeliverOk(s.client, Client, s.sent, s.delivered, m.copy);
        OtherSideOk(s.server, Server, s.sent, s.delivered, s.sent, delivered);
      } else {
        DeliverOk(s.server, Server, s.sent, s.delivered, m.copy);
        OtherSideOk(s.client, Client, s.sent, s.delivered, s.sent, delivered);
      }
    }
  }

  lemma SendTablesOk(s: Link, side: Side, c: nat)
    requires TablesOk(s) && Enabled(s, Send(side, c))
    ensures TablesOk(Do(s, Send(side, c)))
  {
    hide TableOk, Sent;
    var sent := s.sent + multiset{Copy(side, TableOf(s, side).calls[c].id, c)};
    SentOk(TableOf(s, side), side, s.sent, s.delivered, c);
    if side == Client {
      OtherSideOk(s.server, Server, s.sent, s.delivered, sent, s.delivered);
    } else {
      OtherSideOk(s.client, Client, s.sent, s.delivered, sent, s.delivered);
    }
  }

  lemma TakeTablesOk(s: Link)
    requires Enabled(s, ServerTake) && Conserved(s) && Directed(s) && TablesOk(s)
    ensures TablesOk(Do(s, ServerTake))
  {
    hide TableOk, Conserved, Directed, Route;
    var rest, m := s.(serverIn := s.serverIn[1..]), s.serverIn[0];
    if m.Response? { HeadWasSent(s, Server); }
    RouteTablesOk(rest, Server, m);
  }

  lemma ReadTablesOk(s: Link)
    requires Enabled(s, ClientRead) && Conserved(s) && Directed(s) && TablesOk(s)
    ensures TablesOk(Do(s, ClientRead))
  {
    hide TableOk, Conserved, Directed, Route;
    var rest, m := s.(toClient := s.toClient[1..]), s.toClient[0];
    if m.Response? { HeadWasSent(s, Client); }
    RouteTablesOk(rest, Client, m);
  }

  lemma StepKeepsTables(s: Link, step: Step)
    requires Enabled(s, step) && Conserved(s) && Directed(s) && TablesOk(s)
    ensures TablesOk(Do(s, step))
  {
    hide TableOk, Conserved, Directed, Route, Carried, Held, Remove, Clear, SetPhase, Sent, Register;
    match step
    case Begin(c) => AllocateOk(s.client, Client, s.sent, s.delivered, c);
    case Elicit(i, c) => AllocateOk(s.server, Server, s.sent, s.delivered, c);
    case DoRegister(side, c) => RegisterOk(TableOf(s, side), side, s.sent, s.delivered, c);
    case Send(side, c) => SendTablesOk(s, side, c);
    case SendFails(side, c) => FailOk(TableOf(s, side), side, s.sent, s.delivered, c, side == Client);
    case ServerTake => TakeTablesOk(s);
    case ClientRead => ReadTablesOk(s);
    case ClientEof => ClearOk(s.client, Client, s.sent, s.delivered);
    case Finish(Server, i) =>
    case Finish(Client, i) =>
    case Panics(Server, i) =>
    case Panics(Client, i) =>
    case _ =>
  }

  // ----- Elicitations nested in tool calls

  lemma NestedBySteps(s: Link, after: Link)
    requires Nested(s)
    requires after.server == s.server
    requires forall t :: t in s.serverTasks && t.awaits.Some? && t.awaits.value in s.server.calls
               && IsOpen(s.server.calls[t.awaits.value].phase)
               ==> exists u :: u in after.serverTasks && u.awaits == t.awaits
    ensures Nested(after)
  {
    forall c | c in after.server.calls
      ensures ElicitOk(after, c)
    {
      assert ElicitOk(s, c);
    }
  }

  /** A change at position `i` leaves every task at another position in place. */
  lemma OthersStay(ts: seq<Task>, i: nat, t: Task, u: Task)
    requires i < |ts| && t in ts && t != ts[i]
    ensures t in Remove(ts, i) && t in ts[i := u]
  {
    var j :| 0 <= j < |ts| && ts[j] == t;
    assert ts[i := u][j] == t;
    assert Remove(ts, i)[if j < i then j else j - 1] == t;
  }

  lemma TaskStepKeepsNested(s: Link, step: Step)
    requires Enabled(s, step) && Nested(s)
    requires step.Resume? || ((step.Finish? || step.Panics?) && step.side == Server)
    ensures Nested(Do(s, step))
  {
    hide Nested, Live, Carried, Remove;
    var after := Do(s, step);
    forall t | t in s.serverTasks && t.awaits.Some? && t.awaits.value in s.server.calls
               && IsOpen(s.server.calls[t.awaits.value].phase)
      ensures exists u :: u in after.serverTasks && u.awaits == t.awaits
    {
      OthersStay(s.serverTasks, step.task, t, s.serverTasks[step.task].(awaits := None));
      assert t in after.serverTasks;
    }
    NestedBySteps(s, after);
  }

  lemma ElicitKeepsNested(s: Link, i: nat, c: nat)
    requires Enabled(s, Elicit(i, c)) && Nested(s)
    ensures Nested(Do(s, Elicit(i, c)))
  {
    hide Live, Carried;
    var after := Do(s, Elicit(i, c));
    assert after.serverTasks[i] in after.serverTasks;
    forall a | a in after.server.calls
      ensures ElicitOk(after, a)
    {
      if a != c {
        assert ElicitOk(s, a);
        if IsOpen(s.server.calls[a].phase) {
          var t :| t in s.serverTasks && t.awaits == Some(a);
          OthersStay(s.serverTasks, i, t, after.serverTasks[i]);
        }
      }
    }
  }

  /** Server-side phase changes that keep every open call's suspended handler where it is. */
  lemma ServerTableKeepsNested(s: Link, after: Link, c: nat)
    requires Nested(s) && after.serverTasks == s.serverTasks
    requires c in s.server.calls && after.server.calls.Keys == s.server.calls.Keys
    requires forall a :: a in s.server.calls && a != c ==>
               after.server.calls[a] == s.server.calls[a]
               && (s.server.calls[a].id in s.server.pending ==> s.server.calls[a].id in after.server.pending)
    requires after.server.calls[c].phase != Closed
    requires after.server.calls[c].phase == Registered ==> after.server.calls[c].id in after.server.pending
    requires IsOpen(after.server.calls[c].phase) ==> IsOpen(s.server.calls[c].phase)
    ensures Nested(after)
  {
    forall a | a in after.server.calls
      ensures ElicitOk(after, a)
    {
      assert ElicitOk(s, a);
    }
  }

  lemma ServerCallKeepsNested(s: Link, step: Step)
    requires Enabled(s, step) && Nested(s) && TablesOk(s)
    requires (step.DoRegister? || step.Send? || step.SendFails?) && step.side == Server
    ensures Nested(Do(s, step))
  {
    assert ElicitOk(s, step.call);
    ServerTableKeepsNested(s, Do(s, step), step.call);
  }

  lemma DeliveryKeepsNested(s: Link, copy: Copy)
    requires Nested(s) && TablesOk(s) && copy in s.sent && copy.side == Server
    ensures Nested(Route(s, Server, Response(copy)))
  {
    hide Live, Carried, Held;
    var after := Route(s, Server, Response(copy));
    if copy.id in s.server.pending {
      ResponseMeetsOwnWaiter(s.server, Server, s.sent, s.delivered, copy);
      ServerTableKeepsNested(s, after, copy.call);
    } else {
      NestedBySteps(s, after);
    }
  }

  lemma TakeKeepsNested(s: Link)
    requires Enabled(s, ServerTake) && Conserved(s) && Directed(s) && TablesOk(s) && Nested(s)
    ensures Nested(Do(s, ServerTake))
  {
    hide TableOk, Nested, Conserved, Directed, Deliver;
    var rest, m := s.(serverIn := s.serverIn[1..]), s.serverIn[0];
    NestedBySteps(s, rest);
    if m.Response? {
      HeadWasSent(s, Server);
      DeliveryKeepsNested(rest, m.copy);
    } else {
      NestedBySteps(rest, Do(s, ServerTake));
    }
  }

  lemma StepKeepsNested(s: Link, step: Step)
    requires Enabled(s, step) && Invariant(s)
    ensures Nested(Do(s, step))
  {
    hide Nested, TablesOk, Conserved, Directed, Carried, Held, Remove, Clear, SetPhase, Sent, Register, Deliver;
    match step
    case Elicit(i, c) => ElicitKeepsNested(s, i, c);
    case DoRegister(side, c) =>
      if side == Server { ServerCallKeepsNested(s, step); } else { NestedBySteps(s, Do(s, step)); }
    case Send(side, c) =>
      if side == Server { ServerCallKeepsNested(s, step); } else { NestedBySteps(s, Do(s, step)); }
    case SendFails(side, c) =>
      if side == Server { ServerCallKeepsNested(s, step); } else { NestedBySteps(s, Do(s, step)); }
    case ServerTake => TakeKeepsNested(s);
    case Finish(Server, i) => TaskStepKeepsNested(s, step);
    case Finish(Client, i) => NestedBySteps(s, Do(s, step));
    case Panics(Server, i) => TaskStepKeepsNested(s, step);
    case Panics(Client, i) => NestedBySteps(s, Do(s, step));
    case Resume(i) => TaskStepKeepsNested(s, step);
    case _ => NestedBySteps(s, Do(s, step));
  }

  lemma StepKeepsInvariant(s: Link, step: Step)
    requires Enabled(s, step) && Invariant(s)
    ensures Invariant(Do(s, step))
  {
    hide Nested, TablesOk, Conserved, Directed, Do, Enabled;
    StepConserves(s, step);
    StepKeepsDirected(s, step);
    StepKeepsTables(s, step);
    StepKeepsNested(s, step);
  }
}
