/**
 The bidirectional JSON-RPC link between mcp-client (lib.rs) and mcp-server (server.rs, elicit.rs),
 as a system of interleaved steps.

 Both ends may call the other.  A copy is one request on its journey: request in the caller's
 outbox, on the wire, in the peer's queue, held by the peer's handler task, and then as the response
 on the way back.  Messages are routed by `id` alone; `call` only names the call whose payload the
 message carries, so that "its own response" can be stated.
 */
module Rpc {
  import opened Commons

  datatype Side = Client | Server

  datatype Copy = Copy(side: Side, id: int, call: nat)

  datatype Message = Request(copy: Copy) | Response(copy: Copy)

  datatype Phase =
    | Allocated                // id taken from the counter
    | Registered               // waiter inserted in the pending table
    | Waiting                  // request handed to the outbox
    | Resolved(payload: nat)   // woken by the response that carries this payload
    | Failed                   // outbox closed
    | Closed                   // waiter dropped by the reader's final clear

  datatype Call = Call(id: int, phase: Phase)

  /** One end's id counter, pending-waiter table and callers. */
  datatype Table = Table(nextId: int, pending: map<int, nat>, calls: map<nat, Call>)

  /** A running handler; `awaits` is the elicitation it is suspended on. */
  datatype Task = Task(copy: Copy, awaits: Option<nat>)

  datatype Link = Link(
    client: Table, server: Table,
    clientOut: seq<Message>, toServer: seq<Message>, serverIn: seq<Message>,
    serverOut: seq<Message>, toClient: seq<Message>,
    serverTasks: seq<Task>, clientTasks: seq<Task>,
    clientOutOpen: bool, serverOutOpen: bool, clientReading: bool, serverReading: bool,
    sent: multiset<Copy>, delivered: multiset<Copy>, lost: multiset<Copy>)

  const CLIENT_FIRST_ID := 1
  const SERVER_FIRST_ID := 1_000_000

  function Start(): Link {
    Link(Table(CLIENT_FIRST_ID, map[], map[]), Table(SERVER_FIRST_ID, map[], map[]),
         [], [], [], [], [], [], [], true, true, true, true, multiset{}, multiset{}, multiset{})
  }

  function TableOf(s: Link, side: Side): Table {
    if side == Client then s.client else s.server
  }

  function WithTable(s: Link, side: Side, t: Table): Link {
    if side == Client then s.(client := t) else s.(server := t)
  }

  function OutOpen(s: Link, side: Side): bool {
    if side == Client then s.clientOutOpen else s.serverOutOpen
  }

  function Outbox(s: Link, side: Side): seq<Message> {
    if side == Client then s.clientOut else s.serverOut
  }

  function WithOutbox(s: Link, side: Side, out: seq<Message>): Link {
    if side == Client then s.(clientOut := out) else s.(serverOut := out)
  }

  // ----- Table operations

  /** `call`/`elicit` take the next id from the counter. */
  function Allocate(t: Table, call: nat): Table {
    Table(t.nextId + 1, t.pending, t.calls[call := Call(t.nextId, Allocated)])
  }

  function SetPhase(t: Table, call: nat, phase: Phase): Table
    requires call in t.calls
  {
    t.(calls := t.calls[call := t.calls[call].(phase := phase)])
  }

  function Register(t: Table, call: nat): Table
    requires call in t.calls
  {
    SetPhase(t.(pending := t.pending[t.calls[call].id := call]), call, Registered)
  }

  /** After the send the caller awaits its waiter, which a final clear may already have dropped. */
  function Sent(t: Table, call: nat): Table
    requires call in t.calls
  {
    SetPhase(t, call, if t.calls[call].id in t.pending then Waiting else Closed)
  }

  /** A response takes the waiter registered under its id, whoever that is, and wakes it. */
  function Deliver(t: Table, copy: Copy): Table {
    if copy.id in t.pending && t.pending[copy.id] in t.calls then
      var waiter := t.pending[copy.id];
      SetPhase(t.(pending := t.pending - {copy.id}), waiter, Resolved(copy.call))
    else t
  }

  /** The reader's last act: drop every waiter. */
  function Clear(t: Table): Table {
    Table(t.nextId, map[], map c | c in t.calls ::
      if t.calls[c].phase == Waiting && t.calls[c].id in t.pending then t.calls[c].(phase := Closed) else t.calls[c])
  }

  // ----- Steps

  datatype Step =
    | Begin(call: nat)                    // a client caller starts a call
    | Elicit(task: nat, call: nat)        // a running tool handler starts an elicitation
    | DoRegister(side: Side, call: nat)
    | Send(side: Side, call: nat)
    | SendFails(side: Side, call: nat)
    | Write(side: Side)                   // writer task: outbox to wire
    | WriterStops(side: Side)             // writer task ends; what the outbox holds is lost
    | ServerRead                          // reader task: wire to the inbound queue
    | ServerTake                          // dispatch loop: spawn a handler or route a response
    | ClientRead                          // reader task: spawn a delegate or route a response
    | Finish(side: Side, task: nat)       // a handler at `side` returns its response
    | Panics(side: Side, task: nat)       // a handler at `side` dies; nobody is told
    | Resume(task: nat)                   // a tool handler wakes from its elicitation
    | ClientEof                           // client reader ends and clears the pending table
    | ServerEof                           // server reader ends; waiters stay where they are

  predicate HasPhase(t: Table, call: nat, phase: Phase) {
    call in t.calls && t.calls[call].phase == phase
  }

  predicate Enabled(s: Link, step: Step) {
    match step
    case Begin(c) => c !in s.client.calls
    case Elicit(i, c) => i < |s.serverTasks| && s.serverTasks[i].awaits == None && c !in s.server.calls
    case DoRegister(side, c) => HasPhase(TableOf(s, side), c, Allocated)
    case Send(side, c) => HasPhase(TableOf(s, side), c, Registered) && OutOpen(s, side)
    case SendFails(side, c) => HasPhase(TableOf(s, side), c, Registered) && !OutOpen(s, side)
    case Write(side) => OutOpen(s, side) && Outbox(s, side) != []
    case WriterStops(side) => OutOpen(s, side)
    case ServerRead => s.serverReading && s.toServer != []
    case ServerTake => s.serverIn != []
    case ClientRead => s.clientReading && s.toClient != []
    case Finish(Server, i) => i < |s.serverTasks| && s.serverTasks[i].awaits == None
    case Finish(Client, i) => i < |s.clientTasks|
    case Panics(Server, i) => i < |s.serverTasks| && s.serverTasks[i].awaits == None
    case Panics(Client, i) => i < |s.clientTasks|
    case Resume(i) =>
      && i < |s.serverTasks| && s.serverTasks[i].awaits.Some?
      && var c := s.serverTasks[i].awaits.value;
      c in s.server.calls && (s.server.calls[c].phase.Resolved? || s.server.calls[c].phase == Failed)
    case ClientEof => s.clientReading
    case ServerEof => s.serverReading
  }

  function Remove<T>(s: seq<T>, i: nat): seq<T>
    requires i < |s|
  {
    s[..i] + s[i + 1..]
  }

  /** Copies among messages, and among tasks. */
  function Carried(ms: seq<Message>): multiset<Copy> {
    if ms == [] then multiset{} else Carried(ms[..|ms| - 1]) + multiset{ms[|ms| - 1].copy}
  }

  function Held(ts: seq<Task>): multiset<Copy> {
    if ts == [] then multiset{} else Held(ts[..|ts| - 1]) + multiset{ts[|ts| - 1].copy}
  }

  /** A handler answers: the response goes to its side's outbox, or is dropped if that is closed. */
  function Answer(s: Link, side: Side, copy: Copy): Link {
    if OutOpen(s, side) then WithOutbox(s, side, Outbox(s, side) + [Response(copy)])
    else s.(lost := s.lost + multiset{copy})
  }

  function Route(s: Link, side: Side, m: Message): Link {
    match m
    case Request(copy) =>
      if side == Server then s.(serverTasks := s.serverTasks + [Task(copy, None)])
      else s.(clientTasks := s.clientTasks + [Task(copy, None)])
    case Response(copy) =>
      WithTable(s, side, Deliver(TableOf(s, side), copy)).(delivered := s.delivered + multiset{copy})
  }

  function Do(s: Link, step: Step): Link
    requires Enabled(s, step)
  {
    match step
    case Begin(c) => s.(client := Allocate(s.client, c))
    case Elicit(i, c) =>
      s.(server := Allocate(s.server, c), serverTasks := s.serverTasks[i := s.serverTasks[i].(awaits := Some(c))])
    case DoRegister(side, c) => WithTable(s, side, Register(TableOf(s, side), c))
    case Send(side, c) =>
      var t := TableOf(s, side);
      var copy := Copy(side, t.calls[c].id, c);
      WithOutbox(WithTable(s, side, Sent(t, c)), side, Outbox(s, side) + [Request(copy)])
        .(sent := s.sent + multiset{copy})
    case SendFails(side, c) =>
      var t := TableOf(s, side);
      // The client leaves its waiter behind; the server takes it out again.
      var kept := if side == Client then t else t.(pending := t.pending - {t.calls[c].id});
      WithTable(s, side, SetPhase(kept, c, Failed))
    case Write(side) =>
      var m := Outbox(s, side)[0];
      var rest := WithOutbox(s, side, Outbox(s, side)[1..]);
      if side == Client then rest.(toServer := s.toServer + [m]) else rest.(toClient := s.toClient + [m])
    case WriterStops(side) =>
      var dropped := WithOutbox(s, side, []).(lost := s.lost + Carried(Outbox(s, side)));
      if side == Client then dropped.(clientOutOpen := false) else dropped.(serverOutOpen := false)
    case ServerRead => s.(toServer := s.toServer[1..], serverIn := s.serverIn + [s.toServer[0]])
    case ServerTake => Route(s.(serverIn := s.serverIn[1..]), Server, s.serverIn[0])
    case ClientRead => Route(s.(toClient := s.toClient[1..]), Client, s.toClient[0])
    case Finish(Server, i) => Answer(s.(serverTasks := Remove(s.serverTasks, i)), Server, s.serverTasks[i].copy)
    case Finish(Client, i) => Answer(s.(clientTasks := Remove(s.clientTasks, i)), Client, s.clientTasks[i].copy)
    case Panics(Server, i) =>
      s.(serverTasks := Remove(s.serverTasks, i), lost := s.lost + multiset{s.serverTasks[i].copy})
    case Panics(Client, i) =>
      s.(clientTasks := Remove(s.clientTasks, i), lost := s.lost + multiset{s.clientTasks[i].copy})
    case Resume(i) => s.(serverTasks := s.serverTasks[i := s.serverTasks[i].(awaits := None)])
    case ClientEof => s.(client := Clear(s.client), clientReading := false)
    case ServerEof => s.(serverReading := false)
  }

  // ----- Conservation

  function Live(s: Link): multiset<Copy> {
    Carried(s.clientOut) + Carried(s.toServer) + Carried(s.serverIn) + Held(s.serverTasks)
    + Carried(s.serverOut) + Carried(s.toClient) + Held(s.clientTasks)
  }

  /** Every copy ever sent is in exactly one of three accounts: live, delivered, lost. */
  ghost predicate Conserved(s: Link) {
    Live(s) + s.delivered + s.lost == s.sent
  }

  lemma CarriedAppend(ms: seq<Message>, m: Message)
    ensures Carried(ms + [m]) == Carried(ms) + multiset{m.copy}
  {
    assert (ms + [m])[..|ms|] == ms;
  }

  lemma {:induction false} CarriedPop(ms: seq<Message>)
    requires ms != []
    ensures Carried(ms) == multiset{ms[0].copy} + Carried(ms[1..])
  {
    var k := |ms| - 1;
    if k > 0 {
      CarriedPop(ms[..k]);
      assert ms[..k][1..] == ms[1..][..k - 1];
      assert ms[1..][k - 1] == ms[k];
    }
  }

  lemma HeldAppend(ts: seq<Task>, t: Task)
    ensures Held(ts + [t]) == Held(ts) + multiset{t.copy}
  {
    assert (ts + [t])[..|ts|] == ts;
  }

  lemma HeldNone()
    ensures Held([]) == multiset{}
  {
  }

  lemma {:induction false} HeldConcat(a: seq<Task>, b: seq<Task>)
    ensures Held(a + b) == Held(a) + Held(b)
  {
    hide Held;
    if b == [] {
      assert a + b == a;
      HeldNone();
    } else {
      var k := |b| - 1;
      HeldConcat(a, b[..k]);
      HeldAppend(a + b[..k], b[k]);
      HeldAppend(b[..k], b[k]);
      assert a + b == a + b[..k] + [b[k]] && b == b[..k] + [b[k]];
    }
  }

  lemma HeldSplit(ts: seq<Task>, i: nat)
    requires i < |ts|
    ensures Held(ts) == Held(ts[..i]) + multiset{ts[i].copy} + Held(ts[i + 1..])
  {
    hide Held;
    assert ts == ts[..i] + [ts[i]] + ts[i + 1..];
    HeldConcat(ts[..i] + [ts[i]], ts[i + 1..]);
    HeldAppend(ts[..i], ts[i]);
  }

  lemma HeldRemove(ts: seq<Task>, i: nat)
    requires i < |ts|
    ensures Held(ts) == Held(Remove(ts, i)) + multiset{ts[i].copy}
  {
    hide Held;
    HeldSplit(ts, i);
    HeldConcat(ts[..i], ts[i + 1..]);
  }

  lemma HeldAwaits(ts: seq<Task>, i: nat, awaits: Option<nat>)
    requires i < |ts|
    ensures Held(ts[i := ts[i].(awaits := awaits)]) == Held(ts)
  {
    hide Held;
    var after := ts[i := ts[i].(awaits := awaits)];
    HeldSplit(ts, i);
    HeldSplit(after, i);
    assert after[..i] == ts[..i] && after[i + 1..] == ts[i + 1..];
  }

  lemma CarriedNone()
    ensures Carried([]) == multiset{}
  {
  }

  lemma SendConserves(s: Link, side: Side, c: nat)
    requires Enabled(s, Send(side, c)) && Conserved(s)
    ensures Conserved(Do(s, Send(side, c)))
  {
    hide Carried, Held, Sent;
    CarriedAppend(Outbox(s, side), Request(Copy(side, TableOf(s, side).calls[c].id, c)));
  }

  lemma WriteConserves(s: Link, side: Side)
    requires Enabled(s, Write(side)) && Conserved(s)
    ensures Conserved(Do(s, Write(side)))
  {
    hide Carried, Held;
    CarriedPop(Outbox(s, side));
    CarriedAppend(if side == Client then s.toServer else s.toClient, Outbox(s, side)[0]);
  }

  lemma WriterStopConserves(s: Link, side: Side)
    requires Enabled(s, WriterStops(side)) && Conserved(s)
    ensures Conserved(Do(s, WriterStops(side)))
  {
    CarriedNone();
    hide Carried, Held;
  }

  lemma ServerReadConserves(s: Link)
    requires Enabled(s, ServerRead) && Conserved(s)
    ensures Conserved(Do(s, ServerRead))
  {
    hide Carried, Held;
    CarriedPop(s.toServer);
    CarriedAppend(s.serverIn, s.toServer[0]);
  }

  lemma RequestBooks(s: Link, side: Side, copy: Copy)
    ensures Live(Route(s, side, Request(copy))) == Live(s) + multiset{copy}
  {
    hide Carried, Held;
    HeldAppend(s.serverTasks, Task(copy, None));
    HeldAppend(s.clientTasks, Task(copy, None));
  }

  lemma ResponseBooks(s: Link, side: Side, copy: Copy)
    ensures Live(Route(s, side, Response(copy))) == Live(s)
    ensures Route(s, side, Response(copy)).delivered == s.delivered + multiset{copy}
  {
    hide Carried, Held, Deliver;
  }

  /** Routing turns the message into a task of the same copy, or books its copy as delivered. */
  lemma RouteBooks(s: Link, side: Side, m: Message)
    ensures Live(Route(s, side, m)) + Route(s, side, m).delivered
         == Live(s) + s.delivered + multiset{m.copy}
    ensures Route(s, side, m).lost == s.lost && Route(s, side, m).sent == s.sent
  {
    hide Live, Deliver;
    match m
    case Request(copy) => RequestBooks(s, side, copy);
    case Response(copy) => ResponseBooks(s, side, copy);
  }

  lemma TakeConserves(s: Link)
    requires Enabled(s, ServerTake) && Conserved(s)
    ensures Conserved(Do(s, ServerTake))
  {
    hide Carried, Held, Route;
    CarriedPop(s.serverIn);
    RouteBooks(s.(serverIn := s.serverIn[1..]), Server, s.serverIn[0]);
  }

  lemma ClientReadConserves(s: Link)
    requires Enabled(s, ClientRead) && Conserved(s)
    ensures Conserved(Do(s, ClientRead))
  {
    hide Carried, Held, Route;
    CarriedPop(s.toClient);
    RouteBooks(s.(toClient := s.toClient[1..]), Client, s.toClient[0]);
  }

  /** The response in the outbox, or the loss, takes the place of the handler's copy. */
  lemma AnswerBooks(s: Link, side: Side, copy: Copy)
    ensures Live(Answer(s, side, copy)) + Answer(s, side, copy).lost == Live(s) + s.lost + multiset{copy}
    ensures Answer(s, side, copy).delivered == s.delivered && Answer(s, side, copy).sent == s.sent
  {
    hide Carried, Held;
    CarriedAppend(Outbox(s, side), Response(copy));
  }

  /** The state without one handler task; its copy is what the answer must account for. */
  function WithoutTask(s: Link, side: Side, i: nat): Link
    requires i < |if side == Server then s.serverTasks else s.clientTasks|
  {
    if side == Server then s.(serverTasks := Remove(s.serverTasks, i))
    else s.(clientTasks := Remove(s.clientTasks, i))
  }

  lemma WithoutTaskBooks(s: Link, side: Side, i: nat)
    requires i < |if side == Server then s.serverTasks else s.clientTasks|
    ensures var copy := (if side == Server then s.serverTasks else s.clientTasks)[i].copy;
            Live(s) == Live(WithoutTask(s, side, i)) + multiset{copy}
  {
    hide Carried, Held, Remove;
    HeldRemove(if side == Server then s.serverTasks else s.clientTasks, i);
  }

  lemma FinishIsAnswer(s: Link, side: Side, i: nat)
    requires Enabled(s, Finish(side, i))
    ensures i < |if side == Server then s.serverTasks else s.clientTasks|
    ensures Do(s, Finish(side, i))
         == Answer(WithoutTask(s, side, i), side, (if side == Server then s.serverTasks else s.clientTasks)[i].copy)
  {
    match side
    case Server =>
    case Client =>
  }

  lemma FinishConserves(s: Link, side: Side, i: nat)
    requires Enabled(s, Finish(side, i)) && Conserved(s)
    ensures Conserved(Do(s, Finish(side, i)))
  {
    hide Live, Answer, Do, Enabled;
    FinishIsAnswer(s, side, i);
    WithoutTaskBooks(s, side, i);
    var copy := (if side == Server then s.serverTasks else s.clientTasks)[i].copy;
    var r := WithoutTask(s, side, i);
    AnswerBooks(r, side, copy);
    assert r.lost == s.lost && r.delivered == s.delivered && r.sent == s.sent;
    var after := Answer(r, side, copy);
    assert Live(after) + after.delivered + after.lost == (Live(after) + after.lost) + after.delivered;
    assert (Live(r) + r.lost + multiset{copy}) + r.delivered == Live(s) + s.delivered + s.lost;
  }

  lemma PanicConserves(s: Link, side: Side, i: nat)
    requires Enabled(s, Panics(side, i)) && Conserved(s)
    ensures Conserved(Do(s, Panics(side, i)))
  {
    hide Carried, Held, Remove;
    match side
    case Server => HeldRemove(s.serverTasks, i);
    case Client => HeldRemove(s.clientTasks, i);
  }

  lemma AwaitConserves(s: Link, step: Step)
    requires Enabled(s, step) && Conserved(s) && (step.Elicit? || step.Resume?)
    ensures Conserved(Do(s, step))
  {
    hide Carried, Held, Allocate;
    HeldAwaits(s.serverTasks, step.task, if step.Elicit? then Some(step.call) else None);
  }

  lemma TableConserves(s: Link, step: Step)
    requires Enabled(s, step) && Conserved(s)
    requires step.Begin? || step.DoRegister? || step.SendFails? || step.ClientEof? || step.ServerEof?
    ensures Conserved(Do(s, step))
  {
    hide Carried, Held, Allocate, Register, SetPhase, Clear;
  }

  lemma StepConserves(s: Link, step: Step)
    requires Enabled(s, step) && Conserved(s)
    ensures Conserved(Do(s, step))
  {
    hide Conserved, Enabled, Do;
    match step
    case Send(side, c) => SendConserves(s, side, c);
    case Write(side) => WriteConserves(s, side);
    case WriterStops(side) => WriterStopConserves(s, side);
    case ServerRead => ServerReadConserves(s);
    case ServerTake => TakeConserves(s);
    case ClientRead => ClientReadConserves(s);
    case Finish(side, i) => FinishConserves(s, side, i);
    case Panics(side, i) => PanicConserves(s, side, i);
    case Elicit(_, _) => AwaitConserves(s, step);
    case Resume(_) => AwaitConserves(s, step);
    case _ => TableConserves(s, step);
  }
}
