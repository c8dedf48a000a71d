/**
 The bodies of the threads that touch the broker, run on the linked list, the ring buffers and
 the connection table themselves and proved to do what the corresponding steps of Mux do.

 s is the state of the system the thread runs in. A post that would block returns Blocked
 having changed nothing.
 */
module MuxThreads {
  import opened Ipmb
  import opened Options
  import Broker
  import opened SlotTable
  import opened MsgQueue
  import opened Mux

  datatype Turn<T> = Now(next: T) | Blocked | Faulted(fault: Fault)

  /** One message through the worker, worker_thread.c:132-184, up to its next queue post. */
  method RouteMessage(ghost s: State, m: Message, broker: Broker.MarriageBroker, clientQ: MsgQ,
                      outOfMemory: bool)
    returns (turn: Turn<Worker>)
    requires broker.Valid() && clientQ.Ready() && clientQ.size == CLIENT_QUEUE_SIZ + 1
    requires s.broker == broker.Requests() && s.clientQ == clientQ.Contents() && s.fault.None?
    modifies broker, broker.blocks`next, broker.blocks`prev, clientQ, clientQ.queue
    ensures broker.Valid() && clientQ.Ready()
    ensures turn.Blocked? <==> RoutesToClientQ(m) && Postable(m) && |s.clientQ| == CLIENT_QUEUE_SIZ
    ensures turn.Blocked? ==> broker.Requests() == s.broker && clientQ.Contents() == s.clientQ
    ensures !turn.Blocked? ==>
              var t := Route(s, m, outOfMemory);
              && broker.Requests() == t.broker && clientQ.Contents() == t.clientQ
              && turn == if t.fault.Some? then Faulted(t.fault.value) else Now(t.worker)
  {
    if m.length < IPMB_REQ_SIZE + 1 { return Now(WIdle); }
    if m.dst == MUX_ADDR {
      if (m.data[0] / 4) % 2 == 0 {
        if m.resource == PING_RESOURCE { return Now(WForward(m)); }
        var err := broker.Post(m, 0, outOfMemory);
        return Now(if err == 0 then WForward(m) else WIdle);
      }
      turn := PostResponse(clientQ, m);
    } else {
      if (m.data[0] / 4) % 2 == 0 {
        var _ := broker.Post(m, 0, outOfMemory);
      } else {
        var _, _ := broker.Get(m, true, 0);
      }
      turn := Now(if m.resource != PING_RESOURCE then WSend(m) else WIdle);
    }
  }

  method PostResponse(clientQ: MsgQ, m: Message) returns (turn: Turn<Worker>)
    requires clientQ.Ready()
    modifies clientQ, clientQ.queue
    ensures clientQ.Ready() && clientQ.size == old(clientQ.size)
    ensures turn == if !Postable(m) then Faulted(WorkerPostRejected)
                    else if |old(clientQ.Contents())| == clientQ.size - 1 then Blocked else Now(WIdle)
    ensures clientQ.Contents() == if turn.Now? then old(clientQ.Contents()) + [m] else old(clientQ.Contents())
  {
    var r := clientQ.Post(m, 0, 0);
    match r
    case MustWait => return Blocked;
    case Done(code) => return if code == 0 then Now(WIdle) else Faulted(WorkerPostRejected);
  }

  /** post_responderQ up to the post of the error reply, connection_manager.c:980-1043. */
  method PostResponderQ(ghost s: State, m: MessageBuffer, rsp: MessageBuffer, responderQ: MsgQ,
                        table: ConnectionTable, lockErr: int)
    returns (turn: Turn<Worker>)
    requires m.Valid() && rsp.Valid() && m != rsp && m.data != rsp.data && table.Valid()
    requires responderQ.Ready() && responderQ.size == RESPONDER_QUEUE_SIZ + 1
    requires s.responderQ == responderQ.Contents() && s.table == table.View() && s.fault.None?
    modifies responderQ, responderQ.queue, rsp, rsp.data
    ensures responderQ.Ready()
    ensures turn.Blocked? <==> lockErr == 0 && s.table.responder != -1 && Postable(m.Value())
                               && |s.responderQ| == RESPONDER_QUEUE_SIZ
    ensures turn.Blocked? ==> responderQ.Contents() == s.responderQ
    ensures !turn.Blocked? ==>
              var t := Forward(s, old(m.Value()), lockErr == 0, old(rsp.Value()));
              && responderQ.Contents() == t.responderQ
              && turn == if t.fault.Some? then Faulted(t.fault.value) else Now(t.worker)
  {
    if lockErr != 0 { return Faulted(LockTimeout); }
    if table.responderIdx == -1 {
      var _ := responderQ.Flush(0, 0);
      var err := CraftErrorResponse(m, rsp, CC_DEST_UNAVAILABLE);
      if err != 0 { return Faulted(CraftRejected); }
      return Now(WReply(Packet(rsp.resource, rsp.length, rsp.dst, rsp.data[..])));
    }
    var r := responderQ.Post(Packet(m.resource, m.length, m.dst, m.data[..]), 0, 0);
    match r
    case MustWait => return Blocked;
    case Done(code) => return if code == 0 then Now(WIdle) else Faulted(WorkerPostRejected);
  }

  /** The search of client_responder_thread, connection_manager.c:1143-1154. */
  method MatchResponse(ghost s: State, k: nat, m: Message, broker: Broker.MarriageBroker)
    returns (found: bool, resource: int)
    requires broker.Valid() && s.broker == broker.Requests() && k < |s.deliverers|
    modifies broker, broker.blocks`next, broker.blocks`prev
    ensures broker.Valid() && broker.Requests() == OnMatch(s, k, m).broker
    ensures found <==> OnMatch(s, k, m).deliverers[k].DSend?
    ensures found ==> OnMatch(s, k, m).deliverers[k].slot == resource
  {
    var retval, r := broker.Get(m, false, 0);
    found, resource := retval == 1, r;
  }

  /* ----- connections ----- */

  /** The end of a connection, connection_manager.c:564-607, with a broker that can be locked. */
  method ReleaseConnection(ghost s: State, t: Tid, resource: nat, table: ConnectionTable,
                           broker: Broker.MarriageBroker, lockErr: int)
    returns (turn: Turn<bool>)
    requires table.Valid() && broker.Valid() && s.fault.None?
    requires s.table == table.View() && s.broker == broker.Requests()
    requires t in s.live && s.live[t].slot == resource < SLOTS
    modifies table, table.slots, broker, broker.blocks`next, broker.blocks`prev
    ensures table.Valid() && broker.Valid()
    ensures var u := OnDisconnect(s, t, lockErr == 0);
            && table.View() == u.table && broker.Requests() == u.broker
            && turn == if u.fault.Some? then Faulted(u.fault.value) else Now(true)
  {
    var r := table.UnreserveConnectionResource(t, resource, broker, lockErr, 0);
    return if r.AssertFailed? then Faulted(WrongOwner) else Now(true);
  }

  /** ping_responder, connection_manager.c:1182-1201; seqno is its static counter. */
  method PingResponder(ghost s: State, seqno: byte, ping: MessageBuffer, workerQ: MsgQ)
    returns (blocked: bool, next: byte)
    requires ping.Valid() && workerQ.Ready() && s.workerQ == workerQ.Contents() && s.pingSeq == seqno
    modifies ping, ping.data, workerQ, workerQ.queue
    ensures workerQ.Ready() && workerQ.size == old(workerQ.size)
    ensures blocked <==> |s.workerQ| == workerQ.size - 1
    ensures workerQ.Contents() == if blocked then s.workerQ else s.workerQ + [Ping(seqno, old(ping.Value()))]
    ensures next == (seqno + 1) % 256
  {
    ping.resource := PING_RESOURCE;
    ping.dst := MUX_ADDR;
    ping.length := IPMB_REQ_SIZE + 1;
    ping.data[0] := 0x19;
    ping.data[2] := 0x30;
    ping.data[3] := seqno;
    ping.data[4] := 1;
    ghost var raw := ping.Value();
    MChecksum(ping);
    PingAnyway(raw, seqno, old(ping.Value()));
    var r := workerQ.Post(Packet(ping.resource, ping.length, ping.dst, ping.data[..]), 0, 0);
    return r.MustWait?, Add8(seqno, 1);
  }

  /** The bytes the checksums overwrite do not matter. */
  lemma PingAnyway(raw: Message, seqno: byte, stale: Message)
    requires raw.resource == PING_RESOURCE && raw.dst == MUX_ADDR && raw.length == 6
    requires raw.data[0] == 0x19 && raw.data[2] == 0x30 && raw.data[3] == seqno && raw.data[4] == 1
    requires raw.data[6..] == stale.data[6..]
    ensures Checksummed(raw) == Ping(seqno, stale)
    ensures Postable(Ping(seqno, stale))
  {
    var p := Packet(PING_RESOURCE, 6, MUX_ADDR, [0x19, 0, 0x30, seqno, 1, 0] + stale.data[6..]);
    assert raw.data[2..5] == p.data[2..5];
    assert raw.data == raw.data[..6] + raw.data[6..];
    assert Checksummed(raw).data == Checksummed(p).data;
  }

  /** The start of a connection, connection_manager.c:464-553; a second responder makes it ping
      the first. */
  method AcceptConnection(ghost s: State, t: Tid, kind: Kind, sock: nat, table: ConnectionTable,
                          ping: MessageBuffer, workerQ: MsgQ, seqno: byte, lockErr: int)
    returns (turn: Turn<Option<int>>, next: byte)
    requires table.Valid() && ping.Valid() && workerQ.Ready() && workerQ.size == WORKER_QUEUE_SIZ + 1
    requires s.table == table.View() && s.workerQ == workerQ.Contents() && s.pingSeq == seqno && t !in s.live
    modifies table, table.slots, ping, ping.data, workerQ, workerQ.queue
    ensures table.Valid() && workerQ.Ready()
    ensures turn.Blocked? <==> && lockErr == 0 && GrantFor(s.table, kind).RefusedAfterPing?
                               && |s.workerQ| == WORKER_QUEUE_SIZ
    ensures !turn.Blocked? ==>
              var u := OnConnect(s, t, kind, sock, lockErr == 0, old(ping.Value()));
              && table.View() == u.table && workerQ.Contents() == u.workerQ && next == u.pingSeq
              && turn == Now(if t in u.live then Some(u.live[t].slot) else None)
  {
    next := seqno;
    var success, resource, mustPing := table.ReserveConnectionResource(kind, t, sock, lockErr);
    if mustPing {
      var blocked;
      blocked, next := PingResponder(s, seqno, ping, workerQ);
      if blocked { return Blocked, next; }
    }
    return Now(if success then Some(resource) else None), next;
  }

  /** send_response, connection_manager.c:1057-1109: the bytes in buf go to sock. */
  method SendResponse(ghost s: State, k: nat, resource: int, msg: MessageBuffer, table: ConnectionTable,
                      buf: array<byte>, lockErr: int, sent: bool)
    returns (turn: Turn<(int, nat)>)
    requires table.Valid() && msg.Valid() && buf != msg.data && buf.Length == MAX_IPMB_PKT_SIZE + 1
    requires s.table == table.View() && s.fault.None? && k < |s.deliverers| && s.deliverers[k].DSend?
    requires s.deliverers[k].slot == resource && s.deliverers[k].m == msg.Value()
    modifies buf
    ensures var u := OnSend(s, k, s.deliverers[k], lockErr == 0, sent);
            && (turn.Faulted? <==> u.fault.Some?) && (turn.Faulted? ==> turn.fault == u.fault.value)
            && (!turn.Faulted? ==>
                  && turn.Now? && 0 <= resource < SLOTS && turn.next.0 == table.slots[resource].socket
                  && turn.next.1 <= buf.Length && buf[..turn.next.1] == Wire(msg.Value()))
  {
    if resource < 0 { return Faulted(BadSlot); }
    if lockErr != 0 { return Faulted(LockTimeout); }
    if resource >= table.slots.Length { return Faulted(BadSlot); }
    if table.slots[resource].socket < 0 { return Faulted(StaleSlot); }
    if msg.length >= MAX_IPMB_PKT_SIZE + 1 { return Faulted(LongMessage); }
    var sock := table.slots[resource].socket;
    var n := Unload(msg, buf);
    if !sent { return Faulted(SendFailed); }
    return Now((sock, n));
  }

  /* ----- between sockets and messages ----- */

  /** DstAddr, Length and memcpy of a dispatcher that received n bytes. */
  method Load(msg: MessageBuffer, buf: array<byte>, n: nat)
    requires msg.Valid() && buf != msg.data && 1 <= n <= MAX_IPMB_PKT_SIZE + 1 && n <= buf.Length
    modifies msg`dst, msg`length, msg.data
    ensures msg.Value() == FromStream(buf[..n], msg.resource, old(msg.Value()))
  {
    msg.dst := buf[0];
    msg.length := n - 1;
    ghost var stale := msg.data[..];
    for i := 0 to n - 1
      invariant msg.dst == buf[0] && msg.length == n - 1
      invariant forall j :: 0 <= j < MAX_IPMB_PKT_SIZE ==> msg.data[j] == if j < i then buf[1 + j] else stale[j]
    {
      msg.data[i] := buf[1 + i];
    }
    assert msg.data[..] == buf[..n][1..] + stale[n - 1..];
  }

  /** The bytes a dispatcher writes to its socket, built in a 129-byte buffer. */
  method Unload(msg: MessageBuffer, buf: array<byte>) returns (n: nat)
    requires msg.Valid() && buf != msg.data && msg.length <= MAX_IPMB_PKT_SIZE && buf.Length == MAX_IPMB_PKT_SIZE + 1
    modifies buf
    ensures n == msg.length + 1 && n <= buf.Length && buf[..n] == Wire(msg.Value())
  {
    buf[0] := msg.dst;
    for i := 0 to msg.length
      invariant buf[0] == msg.dst && forall j :: 0 <= j < i ==> buf[1 + j] == msg.data[j]
    {
      buf[1 + i] := msg.data[i];
    }
    n := msg.length + 1;
    assert buf[..n] == [msg.dst] + msg.data[..msg.length];
  }

  method PostToWorker(workerQ: MsgQ, m: Message, rejected: Fault) returns (turn: Turn<bool>)
    requires workerQ.Ready()
    modifies workerQ, workerQ.queue
    ensures workerQ.Ready() && workerQ.size == old(workerQ.size)
    ensures turn == if !Postable(m) then Faulted(rejected)
                    else if |old(workerQ.Contents())| == workerQ.size - 1 then Blocked else Now(true)
    ensures workerQ.Contents() == if turn.Now? then old(workerQ.Contents()) + [m] else old(workerQ.Contents())
  {
    var r := workerQ.Post(m, 0, 0);
    match r
    case MustWait => return Blocked;
    case Done(code) => return if code == 0 then Now(true) else Faulted(rejected);
  }

  /** One frame from a client, connection_manager.c:931-944; Now(false) ends the connection. */
  method DispatchClientFrame(ghost s: State, buf: array<byte>, n: nat, resource: nat, msg: MessageBuffer, workerQ: MsgQ)
    returns (turn: Turn<bool>)
    requires msg.Valid() && buf != msg.data && 1 <= n <= MAX_IPMB_PKT_SIZE + 1 == buf.Length
    requires workerQ.Ready() && workerQ.size == WORKER_QUEUE_SIZ + 1 && s.workerQ == workerQ.Contents() && s.fault.None?
    modifies msg, msg.data, workerQ, workerQ.queue
    ensures workerQ.Ready()
    ensures turn == Now(false) <==> !RequestFrame(old(buf[..n]))
    ensures turn.Blocked? ==> |s.workerQ| == WORKER_QUEUE_SIZ && workerQ.Contents() == s.workerQ
    ensures !turn.Blocked? ==>
              var t := OnClientFrame(s, resource, old(buf[..n]), old(msg.Value()));
              workerQ.Contents() == t.workerQ && t.fault == if turn.Faulted? then Some(turn.fault) else None
  {
    var ok := ValidRequest(buf, n);
    if !ok { return Now(false); }
    msg.resource := resource;
    Load(msg, buf, n);
    turn := PostToWorker(workerQ, Packet(msg.resource, msg.length, msg.dst, msg.data[..]), ClientPostRejected);
  }

  /** An answer of the responder, connection_manager.c:872-878: the request's resource stays in
      the buffer. */
  method DispatchAnswer(ghost s: State, buf: array<byte>, n: nat, msg: MessageBuffer, workerQ: MsgQ)
    returns (turn: Turn<bool>)
    requires msg.Valid() && buf != msg.data && 1 <= n <= MAX_IPMB_PKT_SIZE + 1 == buf.Length
    requires workerQ.Ready() && workerQ.size == WORKER_QUEUE_SIZ + 1 && s.workerQ == workerQ.Contents() && s.fault.None?
    modifies msg, msg.data, workerQ, workerQ.queue
    ensures workerQ.Ready()
    ensures turn.Blocked? ==> |s.workerQ| == WORKER_QUEUE_SIZ && workerQ.Contents() == s.workerQ
    ensures !turn.Blocked? ==>
              var t := OnAnswer(s, old(msg.Value()), old(buf[..n]));
              workerQ.Contents() == t.workerQ && t.fault == if turn.Faulted? then Some(turn.fault) else None
  {
    Load(msg, buf, n);
    turn := PostToWorker(workerQ, Packet(msg.resource, msg.length, msg.dst, msg.data[..]), ResponderPostRejected);
  }

  /** A failed write to the bus, sender_thread.c:162-170 and post_error. A reply that cannot be
      posted is dropped. */
  method ReportWriteFailure(ghost s: State, m: MessageBuffer, rsp: MessageBuffer, e: BusError, workerQ: MsgQ)
    returns (blocked: bool)
    requires m.Valid() && rsp.Valid() && m != rsp && m.data != rsp.data
    requires workerQ.Ready() && workerQ.size == WORKER_QUEUE_SIZ + 1 && s.workerQ == workerQ.Contents()
    modifies rsp, rsp.data, workerQ, workerQ.queue
    ensures workerQ.Ready()
    ensures blocked ==> |s.workerQ| == WORKER_QUEUE_SIZ && workerQ.Contents() == s.workerQ
    ensures !blocked ==> workerQ.Contents() == OnSenderFailed(s, old(m.Value()), e, old(rsp.Value())).workerQ
  {
    var err := CraftErrorResponse(m, rsp, CompletionCode(e));
    if err != 0 { return false; }
    var r := workerQ.Post(Packet(rsp.resource, rsp.length, rsp.dst, rsp.data[..]), 0, 0);
    return r.MustWait?;
  }
}
