/**
 The multiplexer as a system of threads: clients, one responder, the I2C receiver and sender,
 the worker and the pool of client-responder threads, sharing four queues, the broker and the
 connection table (worker_thread.c, connection_manager.c, sender_thread.c, receiver_thread.c).

 Every region a lock protects is one step, so a thread keeps what it holds between two
 regions. A post to a full queue is a step that is not enabled. What sockets, the bus, the
 peers and failing locks do is chosen by the step. An assert of the C code that fails stops
 the system with a Fault.

 `history` and `sent` record what happened and steer nothing.
 */
module Mux {
  import opened Ipmb
  import opened Options
  import opened BrokerSpec
  import opened SlotTable
  import MsgQueue

  const WORKER_QUEUE_SIZ := 5
  const SENDER_QUEUE_SIZ := 5
  const RESPONDER_QUEUE_SIZ := 5
  const CLIENT_QUEUE_SIZ := 10
  const CC_DEST_UNAVAILABLE: byte := 0xD3

  type Tid = nat

  /* ----- what became of each request the broker ever held ----- */

  datatype Fate = Outstanding | Dropped | Matched(resp: Message) | Delivered(resp: Message)
  datatype Record = Record(req: Message, fate: Fate)

  function OutstandingIn(h: seq<Record>): seq<Message> {
    if h == [] then []
    else if h[|h| - 1].fate.Outstanding? then OutstandingIn(h[..|h| - 1]) + [h[|h| - 1].req]
    else OutstandingIn(h[..|h| - 1])
  }

  /** Position in the history of the k-th outstanding request. */
  function SerialOf(h: seq<Record>, k: nat): nat {
    if h == [] then 0
    else if h[|h| - 1].fate.Outstanding? && k == |OutstandingIn(h[..|h| - 1])| then |h| - 1
    else SerialOf(h[..|h| - 1], k)
  }

  function SetFate(h: seq<Record>, i: nat, f: Fate): seq<Record> {
    if i < |h| then h[i := Record(h[i].req, f)] else h
  }

  function DropResource(h: seq<Record>, r: int): seq<Record> {
    seq(|h|, i requires 0 <= i < |h| =>
      if h[i].fate.Outstanding? && h[i].req.resource == r then Record(h[i].req, Dropped) else h[i])
  }

  /* ----- the system ----- */

  datatype Worker = WIdle | WRoute(m: Message) | WForward(m: Message) | WReply(m: Message) | WSend(m: Message)
  datatype ResponderThread = RIdle | RHold(m: Message) | RReply(m: Message) | RDone
  datatype Deliverer = DIdle | DHold(m: Message) | DSend(slot: int, serial: nat, m: Message)
  datatype Sender = SIdle | SHold(m: Message)
  datatype Conn = Conn(slot: nat, kind: Kind)

  datatype Fault =
    | LockTimeout          // assert after lock_connection_data
    | ClientPostRejected   // asserts after msgq_post
    | ResponderPostRejected
    | WorkerPostRejected
    | ReplyPostRejected
    | CraftRejected        // craft_error_response refused inside post_no_responder
    | BadSlot              // assert(resource >= 0), or an index past the table
    | StaleSlot            // assert on the slot's socket
    | LongMessage          // assert(msg->Length < sizeof(buf))
    | WrongOwner           // assert in unreserve_connection_resource
    | SendFailed           // asserts after select and send

  datatype State = State(
    workerQ: seq<Message>,
    responderQ: seq<Message>,
    clientQ: seq<Message>,
    senderQ: seq<Message>,
    broker: seq<Message>,
    table: Table,
    live: map<Tid, Conn>,
    pingSeq: byte,
    worker: Worker,
    responder: ResponderThread,
    sender: Sender,
    deliverers: seq<Deliverer>,
    fault: Option<Fault>,
    history: seq<Record>,
    sent: seq<nat>)        // per slot, responses written to its socket

  datatype BusError = NakError | BusBusy | DeviceBusy | IoTimeout | RequestFailed | AllocationFailed | OtherError

  datatype Action =
    | Connect(t: Tid, kind: Kind, sock: nat, locked: bool, stale: Message)
    | Disconnect(t: Tid, locked: bool)
    | ClientFrame(t: Tid, bytes: seq<byte>, stale: Message)
    | I2cFrame(length: nat, data: seq<byte>)
    | WorkerGet
    | WorkerRoute(outOfMemory: bool)
    | WorkerForward(locked: bool, stale: Message)
    | WorkerReply
    | WorkerSend
    | ResponderGet
    | ResponderAnswer(bytes: seq<byte>)
    | ResponderFail(stale: Message)
    | ResponderReply
    | ResponderQuit
    | DelivererGet(k: nat)
    | DelivererMatch(k: nat)
    | DelivererSend(k: nat, locked: bool, ok: bool)
    | SenderGet
    | SenderWrote
    | SenderFailed(error: BusError, stale: Message)

  const INIT := State([], [], [], [], [], EMPTY, map[], 0, WIdle, RDone, SIdle,
                      seq(SLOTS, _ => DIdle), None, [], seq(SLOTS, _ => 0))

  /** The Get Device ID request of ping_responder. */
  function Ping(seqNum: byte, stale: Message): Message {
    Checksummed(Packet(PING_RESOURCE, 6, MUX_ADDR, [0x19, 0, 0x30, seqNum, 1, 0] + stale.data[6..]))
  }

  /** The completion code post_error sends for a failed bus write (section 5.2 of IPMI v2.0). */
  function CompletionCode(e: BusError): byte {
    match e
    case NakError => CC_DEST_UNAVAILABLE
    case BusBusy => 0xC0
    case DeviceBusy => 0xC0
    case IoTimeout => 0xC3
    case RequestFailed => 0xCE
    case AllocationFailed => 0xC4
    case OtherError => 0xFF
  }

  function Fail(s: State, f: Fault): State {
    s.(fault := Some(f))
  }

  /* ----- broker operations together with their record ----- */

  function PostRequest(s: State, m: Message, outOfMemory: bool): (t: State)
    ensures t == s.(broker := t.broker, history := t.history)
  {
    if RequestMessage(m) && !outOfMemory
    then s.(broker := s.broker + [m], history := s.history + [Record(m, Outstanding)])
    else s
  }

  function Marry(s: State, k: nat, resp: Message): (t: State)
    requires k < |s.broker|
    ensures t == s.(broker := t.broker, history := t.history)
  {
    s.(broker := RemoveAt(s.broker, k),
       history := SetFate(s.history, SerialOf(s.history, k), Matched(resp)))
  }

  /** ll_get by the worker, whose result it ignores. */
  function TakeI2c(s: State, resp: Message): (t: State)
    ensures t == s.(broker := t.broker, history := t.history)
  {
    match Match(s.broker, resp, true)
    case None => s
    case Some(k) => Marry(s, k, resp)
  }

  /* ----- worker_thread ----- */

  predicate RoutesToClientQ(m: Message) {
    m.length >= IPMB_REQ_SIZE + 1 && m.dst == MUX_ADDR && !IsRequestNetFn(m.data[0])
  }

  function Route(s: State, m: Message, outOfMemory: bool): (t: State)
    ensures t == s.(broker := t.broker, history := t.history, worker := t.worker, clientQ := t.clientQ,
                    fault := t.fault)
  {
    if m.length < IPMB_REQ_SIZE + 1 then s.(worker := WIdle)
    else if m.dst == MUX_ADDR then
      if IsRequestNetFn(m.data[0]) then
        if m.resource == PING_RESOURCE then s.(worker := WForward(m))
        else
          var posted := RequestMessage(m) && !outOfMemory;
          PostRequest(s, m, outOfMemory).(worker := if posted then WForward(m) else WIdle)
      else if MsgQueue.Postable(m) then s.(clientQ := s.clientQ + [m], worker := WIdle)
      else Fail(s, WorkerPostRejected)
    else
      var s1 := if IsRequestNetFn(m.data[0]) then PostRequest(s, m, outOfMemory) else TakeI2c(s, m);
      s1.(worker := if m.resource != PING_RESOURCE then WSend(m) else WIdle)
  }

  /** post_responderQ, up to the post of the error reply. */
  function Forward(s: State, m: Message, locked: bool, stale: Message): (t: State)
    ensures t == s.(responderQ := t.responderQ, worker := t.worker, fault := t.fault)
  {
    if !locked then Fail(s, LockTimeout)
    else if s.table.responder == -1 then
      if RequestMessage(m)
      then s.(responderQ := [], worker := WReply(ErrorResponse(m, CC_DEST_UNAVAILABLE, stale)))
      else Fail(s.(responderQ := []), CraftRejected)
    else if MsgQueue.Postable(m) then s.(responderQ := s.responderQ + [m], worker := WIdle)
    else Fail(s, WorkerPostRejected)
  }

  /* ----- connections ----- */

  function OnConnect(s: State, t: Tid, kind: Kind, sock: nat, locked: bool, stale: Message): State {
    if !locked then s
    else match GrantFor(s.table, kind)
      case Refused => s
      case RefusedAfterPing =>
        s.(workerQ := s.workerQ + [Ping(s.pingSeq, stale)], pingSeq := Add8(s.pingSeq, 1))
      case Granted(k) =>
        s.(table := Reserve(s.table, kind, t, sock), live := s.live[t := Conn(k, kind)],
           responder := if kind == Responder then RIdle else s.responder)
  }

  function OnDisconnect(s: State, t: Tid, locked: bool): State
    requires t in s.live
  {
    var c := s.live[t];
    var gone := s.(live := s.live - {t}, responder := if c.kind == Responder then RDone else s.responder);
    if c.slot >= |s.table.slots| || s.table.slots[c.slot].id != t then Fail(s, WrongOwner)
    else if !locked then gone
    else gone.(table := Release(s.table, c.slot),
               broker := Without(s.broker, c.slot),
               history := DropResource(s.history, c.slot))
  }

  function OnClientFrame(s: State, slot: nat, bytes: seq<byte>, stale: Message): State
    requires 1 <= |bytes| <= MAX_IPMB_PKT_SIZE + 1
  {
    var m := FromStream(bytes, slot, stale);
    if !RequestFrame(bytes) then s
    else if MsgQueue.Postable(m) then s.(workerQ := s.workerQ + [m])
    else Fail(s, ClientPostRejected)
  }

  /* ----- dispatch_as_responder ----- */

  function OnAnswer(s: State, asked: Message, bytes: seq<byte>): State
    requires 1 <= |bytes| <= MAX_IPMB_PKT_SIZE + 1
  {
    var m := FromStream(bytes, asked.resource, asked);
    if MsgQueue.Postable(m) then s.(workerQ := s.workerQ + [m], responder := RIdle)
    else Fail(s, ResponderPostRejected)
  }

  function OnResponderFail(s: State, asked: Message, stale: Message): State {
    if RequestMessage(asked)
    then s.(responderQ := [], responder := RReply(ErrorResponse(asked, CC_DEST_UNAVAILABLE, stale)))
    else Fail(s.(responderQ := []), CraftRejected)
  }

  /* ----- client_responder_thread ----- */

  function SetDeliverer(s: State, k: nat, d: Deliverer): State {
    if k < |s.deliverers| then s.(deliverers := s.deliverers[k := d]) else s
  }

  function OnMatch(s: State, k: nat, m: Message): (t: State)
    ensures t == s.(broker := t.broker, history := t.history, deliverers := t.deliverers)
  {
    match Match(s.broker, m, false)
    case None => SetDeliverer(s, k, DIdle)
    case Some(j) =>
      SetDeliverer(Marry(s, j, m), k, DSend(s.broker[j].resource, SerialOf(s.history, j), m))
  }

  /** send_response and its asserts. */
  function OnSend(s: State, k: nat, d: Deliverer, locked: bool, ok: bool): (t: State)
    requires d.DSend?
    ensures t == s.(history := t.history, deliverers := t.deliverers, sent := t.sent, fault := t.fault)
  {
    if d.slot < 0 then Fail(s, BadSlot)
    else if !locked then Fail(s, LockTimeout)
    else if d.slot >= |s.table.slots| then Fail(s, BadSlot)
    else if s.table.slots[d.slot].socket < 0 then Fail(s, StaleSlot)
    else if d.m.length >= MAX_IPMB_PKT_SIZE + 1 then Fail(s, LongMessage)
    else if !ok then Fail(s, SendFailed)
    else SetDeliverer(s, k, DIdle)
         .(history := SetFate(s.history, d.serial, Delivered(d.m)),
           sent := if d.slot < |s.sent| then s.sent[d.slot := s.sent[d.slot] + 1] else s.sent)
  }

  /* ----- sender_thread ----- */

  function OnSenderFailed(s: State, m: Message, e: BusError, stale: Message): State {
    var r := ErrorResponse(m, CompletionCode(e), stale);
    s.(sender := SIdle,
       workerQ := if RequestMessage(m) && MsgQueue.Postable(r) then s.workerQ + [r] else s.workerQ)
  }

  /* ----- steps ----- */

  predicate Room(q: seq<Message>, size: nat) {
    |q| < size
  }

  /** msgq_post of m returns: at once when it turns m away, else when there is room. */
  predicate RoomFor(m: Message, q: seq<Message>, size: nat) {
    MsgQueue.Postable(m) ==> Room(q, size)
  }

  predicate Enabled(s: State, a: Action) {
    && s.fault.None?
    && match a
       case Connect(t, kind, sock, locked, stale) =>
         t !in s.live && (locked && GrantFor(s.table, kind).RefusedAfterPing? ==> Room(s.workerQ, WORKER_QUEUE_SIZ))
       case Disconnect(t, locked) =>
         t in s.live && (s.live[t].kind == Responder ==> s.responder.RIdle? || s.responder.RDone?)
       case ClientFrame(t, bytes, stale) =>
         && t in s.live && s.live[t].kind == Client
         && 1 <= |bytes| <= MAX_IPMB_PKT_SIZE + 1
         && (RequestFrame(bytes) && bytes[0] != 0 ==> Room(s.workerQ, WORKER_QUEUE_SIZ))
       case I2cFrame(length, data) =>
         1 <= length <= MAX_IPMB_PKT_SIZE && |data| == MAX_IPMB_PKT_SIZE && Room(s.workerQ, WORKER_QUEUE_SIZ)
       case WorkerGet => s.worker.WIdle? && s.workerQ != []
       case WorkerRoute(_) =>
         s.worker.WRoute? && (RoutesToClientQ(s.worker.m) ==> RoomFor(s.worker.m, s.clientQ, CLIENT_QUEUE_SIZ))
       case WorkerForward(locked, _) =>
         && s.worker.WForward?
         && (locked && s.table.responder != -1 ==> RoomFor(s.worker.m, s.responderQ, RESPONDER_QUEUE_SIZ))
       case WorkerReply => s.worker.WReply? && RoomFor(s.worker.m, s.workerQ, WORKER_QUEUE_SIZ)
       case WorkerSend => s.worker.WSend? && RoomFor(s.worker.m, s.senderQ, SENDER_QUEUE_SIZ)
       case ResponderGet => s.responder.RIdle? && s.responderQ != []
       case ResponderAnswer(bytes) =>
         && s.responder.RHold? && 1 <= |bytes| <= MAX_IPMB_PKT_SIZE + 1
         && RoomFor(FromStream(bytes, s.responder.m.resource, s.responder.m), s.workerQ, WORKER_QUEUE_SIZ)
       case ResponderFail(_) => s.responder.RHold?
       case ResponderReply => s.responder.RReply? && RoomFor(s.responder.m, s.workerQ, WORKER_QUEUE_SIZ)
       case ResponderQuit => s.responder.RHold?
       case DelivererGet(k) => k < |s.deliverers| && s.deliverers[k].DIdle? && s.clientQ != []
       case DelivererMatch(k) => k < |s.deliverers| && s.deliverers[k].DHold?
       case DelivererSend(k, _, _) => k < |s.deliverers| && s.deliverers[k].DSend?
       case SenderGet => s.sender.SIdle? && s.senderQ != []
       case SenderWrote => s.sender.SHold?
       case SenderFailed(e, stale) =>
         && s.sender.SHold?
         && (RequestMessage(s.sender.m) ==>
               RoomFor(ErrorResponse(s.sender.m, CompletionCode(e), stale), s.workerQ, WORKER_QUEUE_SIZ))
  }

  function Next(s: State, a: Action): State
    requires Enabled(s, a)
  {
    match a
    case Connect(t, kind, sock, locked, stale) => OnConnect(s, t, kind, sock, locked, stale)
    case Disconnect(t, locked) => OnDisconnect(s, t, locked)
    case ClientFrame(t, bytes, stale) => OnClientFrame(s, s.live[t].slot, bytes, stale)
    case I2cFrame(length, data) => s.(workerQ := s.workerQ + [Packet(I2C_RESOURCE, length, MUX_ADDR, data)])
    case WorkerGet => s.(workerQ := s.workerQ[1..], worker := WRoute(s.workerQ[0]))
    case WorkerRoute(outOfMemory) => Route(s, s.worker.m, outOfMemory)
    case WorkerForward(locked, stale) => Forward(s, s.worker.m, locked, stale)
    case WorkerReply =>
      if MsgQueue.Postable(s.worker.m) then s.(workerQ := s.workerQ + [s.worker.m], worker := WIdle)
      else Fail(s, ReplyPostRejected)
    case WorkerSend =>
      if MsgQueue.Postable(s.worker.m) then s.(senderQ := s.senderQ + [s.worker.m], worker := WIdle)
      else Fail(s, WorkerPostRejected)
    case ResponderGet => s.(responderQ := s.responderQ[1..], responder := RHold(s.responderQ[0]))
    case ResponderAnswer(bytes) => OnAnswer(s, s.responder.m, bytes)
    case ResponderFail(stale) => OnResponderFail(s, s.responder.m, stale)
    case ResponderReply =>
      if MsgQueue.Postable(s.responder.m) then s.(workerQ := s.workerQ + [s.responder.m], responder := RDone)
      else Fail(s, ReplyPostRejected)
    case ResponderQuit => s.(responder := RDone)
    case DelivererGet(k) => SetDeliverer(s, k, DHold(s.clientQ[0])).(clientQ := s.clientQ[1..])
    case DelivererMatch(k) => OnMatch(s, k, s.deliverers[k].m)
    case DelivererSend(k, locked, ok) => OnSend(s, k, s.deliverers[k], locked, ok)
    case SenderGet => s.(senderQ := s.senderQ[1..], sender := SHold(s.senderQ[0]))
    case SenderWrote => s.(sender := SIdle)
    case SenderFailed(e, stale) => OnSenderFailed(s, s.sender.m, e, stale)
  }

  /* ----- runs ----- */

  ghost predicate Legal(s: State, run: seq<Action>)
    decreases |run|
  {
    run == [] || (Enabled(s, run[0]) && Legal(Next(s, run[0]), run[1..]))
  }

  ghost function Exec(s: State, run: seq<Action>): State
    requires Legal(s, run)
    decreases |run|
  {
    if run == [] then s else Exec(Next(s, run[0]), run[1..])
  }

  /** A run in two parts. */
  lemma {:induction false} RunInParts(s: State, p: seq<Action>, q: seq<Action>)
    requires Legal(s, p + q)
    ensures Legal(s, p) && Legal(Exec(s, p), q) && Exec(s, p + q) == Exec(Exec(s, p), q)
    decreases |p|
  {
    if p == [] {
      assert p + q == q;
    } else {
      assert (p + q)[1..] == p[1..] + q;
      RunInParts(Next(s, p[0]), p[1..], q);
    }
  }

  lemma LastStep(s: State, run: seq<Action>, a: Action)
    requires Legal(s, run + [a])
    ensures Legal(s, run) && Enabled(Exec(s, run), a) && Exec(s, run + [a]) == Next(Exec(s, run), a)
  {
    RunInParts(s, run, [a]);
    assert [a][1..] == [];
  }
}
