/**
 Where messages go: for every step that moves one, exactly which queue, thread or list it is in
 afterwards, and that every queue is first in, first out.
 */
module MuxRouting {
  import opened Ipmb
  import opened Options
  import opened BrokerSpec
  import opened SlotTable
  import opened Mux
  import opened MuxInvariants

  /* ----- queues ----- */

  /** What one step may do to a queue: nothing, append a message, or take the first. */
  ghost predicate Fifo(before: seq<Message>, after: seq<Message>) {
    || after == before
    || (|after| == |before| + 1 && after[..|before|] == before)
    || (before != [] && after == before[1..])
  }

  lemma WorkerQueueIsFifo(s: State, a: Action)
    requires Enabled(s, a)
    ensures Fifo(s.workerQ, Next(s, a).workerQ)
  {
  }

  lemma BusAndClientQueuesAreFifo(s: State, a: Action)
    requires Enabled(s, a)
    ensures Fifo(s.senderQ, Next(s, a).senderQ) && Fifo(s.clientQ, Next(s, a).clientQ)
  {
  }

  lemma ResponderQueueIsFifo(s: State, a: Action)
    requires Enabled(s, a)
    ensures Fifo(s.responderQ, Next(s, a).responderQ)
            || (&& Next(s, a).responderQ == []
                && (a.ResponderFail? || (a.WorkerForward? && s.table.responder == -1)))
  {
  }

  /** Every queue is first in, first out; the responder queue may also be emptied, by the worker
      that finds no responder or the responder thread that loses its own. */
  lemma QueuesAreFifo(s: State, a: Action)
    requires Enabled(s, a)
    ensures var t := Next(s, a);
            && Fifo(s.workerQ, t.workerQ) && Fifo(s.senderQ, t.senderQ) && Fifo(s.clientQ, t.clientQ)
            && (Fifo(s.responderQ, t.responderQ)
                || (t.responderQ == [] && (a.ResponderFail? || (a.WorkerForward? && s.table.responder == -1))))
  {
    WorkerQueueIsFifo(s, a);
    BusAndClientQueuesAreFifo(s, a);
    ResponderQueueIsFifo(s, a);
  }

  /** Whoever takes a message from a queue has the oldest in hand. */
  lemma TakersGetTheOldest(s: State, a: Action)
    requires Enabled(s, a)
    ensures var t := Next(s, a);
            && (a.WorkerGet? ==> t == s.(workerQ := s.workerQ[1..], worker := WRoute(s.workerQ[0])))
            && (a.ResponderGet? ==> t == s.(responderQ := s.responderQ[1..], responder := RHold(s.responderQ[0])))
            && (a.SenderGet? ==> t == s.(senderQ := s.senderQ[1..], sender := SHold(s.senderQ[0])))
            && (a.DelivererGet? ==>
                  t == s.(clientQ := s.clientQ[1..], deliverers := s.deliverers[a.k := DHold(s.clientQ[0])]))
  {
  }

  /** A thread that posts what it holds adds exactly that, as the newest, and goes on: the worker
      and a responder thread that answered to their next message, one that lost its responder to
      its end. */
  lemma PostersAddWhatTheyHold(run: seq<Action>, a: Action)
    requires Legal(INIT, run) && Enabled(Exec(INIT, run), a) && Next(Exec(INIT, run), a).fault.None?
    ensures var s := Exec(INIT, run);
            var t := Next(s, a);
            && (a.WorkerReply? ==> t == s.(workerQ := s.workerQ + [s.worker.m], worker := WIdle))
            && (a.WorkerSend? ==> t == s.(senderQ := s.senderQ + [s.worker.m], worker := WIdle))
            && (a.ResponderReply? ==> t == s.(workerQ := s.workerQ + [s.responder.m], responder := RDone))
  {
  }

  /** A responder that fails on a request makes its thread drop all that waits for it and reply;
      one whose connection breaks while it is read makes the thread just end. */
  lemma LostResponders(s: State, stale: Message)
    requires s.fault.None? && s.responder.RHold?
    ensures Enabled(s, ResponderFail(stale)) && Enabled(s, ResponderQuit)
    ensures Next(s, ResponderQuit) == s.(responder := RDone)
    ensures var m := s.responder.m;
            var t := Next(s, ResponderFail(stale));
            && t.responderQ == [] && t == s.(responderQ := [], responder := t.responder, fault := t.fault)
            && (RequestMessage(m) ==>
                  && t.fault.None? && t.responder.RReply? && EchoedKey(t.responder.m) == KeyOf(m)
                  && t.responder.m.dst == PeerAddr(m) && t.responder.m.data[5] == 0xD3)
  {
    if RequestMessage(s.responder.m) {
      ErrorResponseEchoes(s.responder.m, CC_DEST_UNAVAILABLE, stale);
    }
  }

  /** Threads wait for nothing but messages to take and room to post: a thread that holds
      something it may post waits exactly while the queue is full. */
  lemma WorkerWaitsOnlyForRoom(s: State, outOfMemory: bool, stale: Message)
    requires WorkerHolds(s.worker) && s.fault.None?
    ensures match s.worker
            case WIdle => Enabled(s, WorkerGet) <==> |s.workerQ| > 0
            case WRoute(m) => Enabled(s, WorkerRoute(outOfMemory)) <==> (RoutesToClientQ(m) ==> |s.clientQ| < 10)
            case WForward(_) => Enabled(s, WorkerForward(true, stale)) <==>
                                  (s.table.responder != -1 ==> |s.responderQ| < 5)
            case WSend(_) => Enabled(s, WorkerSend) <==> |s.senderQ| < 5
            case WReply(m) => Enabled(s, WorkerReply) <==> (m.dst != 0 && m.dst % 2 == 0 ==> |s.workerQ| < 5)
  {
    if s.worker.WReply? {
      ReplyShape(s.worker.m);
    }
  }

  lemma ResponderWaitsOnlyForRoom(s: State)
    requires ResponderHolds(s.responder) && s.fault.None?
    ensures s.responder.RIdle? ==> (Enabled(s, ResponderGet) <==> |s.responderQ| > 0)
    ensures s.responder.RReply? ==>
              var m := s.responder.m;
              Enabled(s, ResponderReply) <==> (m.dst != 0 && m.dst % 2 == 0 ==> |s.workerQ| < 5)
  {
    if s.responder.RReply? {
      ReplyShape(s.responder.m);
    }
  }

  lemma AnswersWaitOnlyForRoom(s: State, bytes: seq<byte>)
    requires s.fault.None? && s.responder.RHold? && 2 <= |bytes| <= 129 && bytes[0] != 0 && bytes[0] % 2 == 0
    ensures Enabled(s, ResponderAnswer(bytes)) <==> |s.workerQ| < 5
  {
  }

  lemma DeliverersWaitOnlyForMessages(s: State, k: nat)
    requires |s.deliverers| == SLOTS && s.fault.None? && k < SLOTS
    ensures match s.deliverers[k]
            case DIdle => Enabled(s, DelivererGet(k)) <==> |s.clientQ| > 0
            case DHold(_) => Enabled(s, DelivererMatch(k))
            case DSend(_, _, _) => Enabled(s, DelivererSend(k, true, true))
  {
  }

  lemma SenderWaitsOnlyForMessages(s: State)
    requires s.fault.None?
    ensures if s.sender.SIdle? then Enabled(s, SenderGet) <==> |s.senderQ| > 0 else Enabled(s, SenderWrote)
  {
  }

  lemma FramesWaitOnlyForRoom(s: State, t: Tid, bytes: seq<byte>, stale: Message, n: nat, data: seq<byte>)
    requires s.fault.None? && t in s.live && s.live[t].kind == Client
    requires 1 <= |bytes| <= 129 && 1 <= n <= 128 == |data|
    ensures Enabled(s, ClientFrame(t, bytes, stale)) <==> (RequestFrame(bytes) && bytes[0] != 0 ==> |s.workerQ| < 5)
    ensures Enabled(s, I2cFrame(n, data)) <==> |s.workerQ| < 5
  {
  }

  lemma ConnectionsWaitOnlyForPings(s: State, t: Tid, kind: Kind, sock: nat, stale: Message)
    requires s.fault.None? && t !in s.live
    ensures |s.workerQ| < 5 || kind == Client || s.table.responder == -1 ==>
              Enabled(s, Connect(t, kind, sock, true, stale))
  {
  }

  /* ----- frames coming in ----- */

  /** A client's frame is queued, whole and under its own slot, exactly when it is a valid request
      that is not addressed to 0; a malformed one leaves no trace. */
  lemma ClientFrameIsQueuedIff(run: seq<Action>, t: Tid, bytes: seq<byte>, stale: Message)
    requires Legal(INIT, run) && Enabled(Exec(INIT, run), ClientFrame(t, bytes, stale))
    ensures var s := Exec(INIT, run);
            var u := Next(s, ClientFrame(t, bytes, stale));
            && (RequestFrame(bytes) && bytes[0] != 0 ==>
                  && |u.workerQ| == |s.workerQ| + 1 && u == s.(workerQ := u.workerQ)
                  && Wire(u.workerQ[|s.workerQ|]) == bytes && u.workerQ[|s.workerQ|].resource == s.live[t].slot)
            && (!RequestFrame(bytes) ==> u == s)
            && (RequestFrame(bytes) && bytes[0] == 0 ==> u == s.(fault := Some(ClientPostRejected)))
  {
  }

  /** A frame from the bus is queued as it came, under the bus's own resource. */
  lemma BusFrameIsQueued(s: State, length: nat, data: seq<byte>)
    requires Enabled(s, I2cFrame(length, data))
    ensures var u := Next(s, I2cFrame(length, data));
            && |u.workerQ| == |s.workerQ| + 1 && u == s.(workerQ := u.workerQ)
            && Wire(u.workerQ[|s.workerQ|]) == [0x10] + data[..length] && u.workerQ[|s.workerQ|].resource == -1
  {
  }

  /** An answer of the responder is queued under the resource of the request it answers. */
  lemma AnswerIsQueued(s: State, bytes: seq<byte>)
    requires Enabled(s, ResponderAnswer(bytes)) && |bytes| >= 2 && bytes[0] != 0 && bytes[0] % 2 == 0
    ensures var u := Next(s, ResponderAnswer(bytes));
            && |u.workerQ| == |s.workerQ| + 1 && u == s.(workerQ := u.workerQ, responder := RIdle)
            && Wire(u.workerQ[|s.workerQ|]) == bytes && u.workerQ[|s.workerQ|].resource == s.responder.m.resource
  {
  }

  /* ----- the worker ----- */

  predicate LongEnough(m: Message) { m.length >= 6 }
  predicate ToMux(m: Message) { m.dst == 0x10 }
  predicate Request(m: Message) { (m.data[0] / 4) % 2 == 0 }
  predicate OfPing(m: Message) { m.resource == -2 }

  predicate ForBus(m: Message) { LongEnough(m) && !ToMux(m) }

  /** The broker keeps what it is given unless it is out of memory; pings are not given to it. */
  predicate Remembered(m: Message, outOfMemory: bool) {
    RequestMessage(m) && !outOfMemory && !(ToMux(m) && OfPing(m))
  }

  lemma RoutedToThreads(s: State, m: Message, outOfMemory: bool)
    requires Sound(m) && s.fault.None?
    ensures var t := Route(s, m, outOfMemory);
            // responses for clients, to the client queue
            && t.clientQ == (if LongEnough(m) && ToMux(m) && !Request(m) then s.clientQ + [m] else s.clientQ)
            // requests for the responder, if pings or remembered, to it
            && (t.worker == WForward(m) <==>
                  LongEnough(m) && ToMux(m) && Request(m) && (OfPing(m) || Remembered(m, outOfMemory)))
            // everything for the bus but what came of pings, to the sender
            && (t.worker == WSend(m) <==> ForBus(m) && !OfPing(m))
            && (t.worker == WForward(m) || t.worker == WSend(m) || t.worker == WIdle)
            && t == s.(clientQ := t.clientQ, worker := t.worker, broker := t.broker, history := t.history)
  {
  }

  lemma RoutedToBroker(s: State, m: Message, outOfMemory: bool)
    requires Sound(m)
    ensures Route(s, m, outOfMemory).broker ==
              if Remembered(m, outOfMemory) then s.broker + [m]
              // a response for the bus takes what it answers off the list
              else if ForBus(m) && !Request(m) && Match(s.broker, m, true).Some?
              then RemoveAt(s.broker, Match(s.broker, m, true).value)
              else s.broker
  {
  }

  /** Where the worker's routing leaves the message in its hands, destination by destination. */
  lemma RoutedExactly(run: seq<Action>, outOfMemory: bool)
    requires Legal(INIT, run) && Enabled(Exec(INIT, run), WorkerRoute(outOfMemory))
    ensures var s := Exec(INIT, run);
            var m := s.worker.m;
            var t := Next(s, WorkerRoute(outOfMemory));
            && t.clientQ == (if LongEnough(m) && ToMux(m) && !Request(m) then s.clientQ + [m] else s.clientQ)
            && (t.worker == WForward(m) <==>
                  LongEnough(m) && ToMux(m) && Request(m) && (OfPing(m) || Remembered(m, outOfMemory)))
            && (t.worker == WSend(m) <==> ForBus(m) && !OfPing(m))
            && (t.worker == WForward(m) || t.worker == WSend(m) || t.worker == WIdle)
            && (Remembered(m, outOfMemory) ==> t.broker == s.broker + [m])
            && (ForBus(m) && !Request(m) && Match(s.broker, m, true).Some? ==>
                  t.broker == RemoveAt(s.broker, Match(s.broker, m, true).value))
            && (!Remembered(m, outOfMemory) && !(ForBus(m) && !Request(m) && Match(s.broker, m, true).Some?) ==>
                  t.broker == s.broker)
            && t == s.(clientQ := t.clientQ, worker := t.worker, broker := t.broker, history := t.history)
  {
    InitInv();
    RunKeepsInv(INIT, run);
    var s := Exec(INIT, run);
    RoutedToThreads(s, s.worker.m, outOfMemory);
    RoutedToBroker(s, s.worker.m, outOfMemory);
  }

  lemma ForwardedTo(s: State, m: Message, stale: Message)
    requires Sound(m) && s.fault.None?
    ensures var t := Forward(s, m, true, stale);
            && t.responderQ == (if s.table.responder != -1 then s.responderQ + [m] else [])
            && (s.table.responder != -1 ==> t.worker == WIdle)
            && (s.table.responder == -1 && RequestMessage(m) ==>
                  t.worker.WReply? && t.worker.m.data[5] == 0xD3 && t.worker.m.dst == PeerAddr(m))
            && t == s.(responderQ := t.responderQ, worker := t.worker, fault := t.fault)
            && (t.fault.Some? <==> s.table.responder == -1 && !RequestMessage(m))
  {
  }

  /** The worker hands a request to the responder exactly when there is one; otherwise it drops
      all that waits for a responder and replies. */
  lemma ForwardedExactly(run: seq<Action>, stale: Message)
    requires Legal(INIT, run) && Enabled(Exec(INIT, run), WorkerForward(true, stale))
    ensures var s := Exec(INIT, run);
            var m := s.worker.m;
            var t := Next(s, WorkerForward(true, stale));
            && t.responderQ == (if s.table.responder != -1 then s.responderQ + [m] else [])
            && (s.table.responder != -1 ==> t.worker == WIdle)
            && (s.table.responder == -1 && RequestMessage(m) ==>
                  t.worker.WReply? && t.worker.m.data[5] == 0xD3 && t.worker.m.dst == PeerAddr(m))
            && t == s.(responderQ := t.responderQ, worker := t.worker, fault := t.fault)
            && (t.fault.Some? <==> s.table.responder == -1 && !RequestMessage(m))
  {
    InitInv();
    RunKeepsInv(INIT, run);
    ForwardedTo(Exec(INIT, run), Exec(INIT, run).worker.m, stale);
  }

  /** Nobody waits for the connection lock in vain: a timeout stops the worker and the threads
      that send. */
  lemma TimeoutsAreFatal(s: State, a: Action)
    requires Enabled(s, a)
    ensures Next(s, a).fault == Some(LockTimeout) <==>
              (a.WorkerForward? && !a.locked) || (a.DelivererSend? && !a.locked && s.deliverers[a.k].slot >= 0)
  {
    if !a.WorkerForward? && !a.DelivererSend? {
      OthersNeedNoLock(s, a);
    }
  }

  lemma OthersNeedNoLock(s: State, a: Action)
    requires Enabled(s, a) && !a.WorkerForward? && !a.DelivererSend?
    ensures Next(s, a).fault != Some(LockTimeout)
  {
  }

  /* ----- threads that deliver ----- */

  /** A response nobody waits for is dropped and its thread free again; any other takes the
      request the search finds off the list and is bound for that request's slot. */
  lemma MatchedExactly(s: State, k: nat)
    requires Enabled(s, DelivererMatch(k))
    ensures var m := s.deliverers[k].m;
            var t := Next(s, DelivererMatch(k));
            && ((forall j :: 0 <= j < |s.broker| ==> !Candidate(s.broker[j], m, false)) ==>
                  t == s.(deliverers := s.deliverers[k := DIdle]))
            && ((exists j :: 0 <= j < |s.broker| && Candidate(s.broker[j], m, false)) ==>
                  && Match(s.broker, m, false).Some?
                  && var j := Match(s.broker, m, false).value;
                     && t.broker == RemoveAt(s.broker, j)
                     && t == s.(broker := t.broker, history := t.history, deliverers := t.deliverers)
                     && |t.deliverers| == |s.deliverers| && t.deliverers[k].DSend?
                     && t.deliverers[k].slot == s.broker[j].resource && t.deliverers[k].m == m
                     && forall i :: 0 <= i < |s.deliverers| && i != k ==> t.deliverers[i] == s.deliverers[i])
  {
  }

  /** t is s after the response in d has been written to the socket of its slot. */
  ghost predicate Written(s: State, t: State, k: nat, d: Deliverer) {
    && d.DSend? && 0 <= d.slot < |s.sent| && d.serial < |s.history| && k < |s.deliverers|
    && t == s.(sent := s.sent[d.slot := s.sent[d.slot] + 1],
               history := s.history[d.serial := Record(s.history[d.serial].req, Delivered(d.m))],
               deliverers := s.deliverers[k := DIdle])
  }

  lemma SendWrites(s: State, k: nat, ok: bool)
    requires Inv(s) && s.fault.None? && k < SLOTS && s.deliverers[k].DSend?
    ensures var d := s.deliverers[k];
            var t := OnSend(s, k, d, true, ok);
            && d.slot < SLOTS == |s.table.slots|
            && (t.fault.None? <==> 0 <= d.slot && s.table.slots[d.slot].id != -1 && ok)
            && (t.fault.None? ==> Written(s, t, k, d))
  {
    assert WellRecorded(s.history[s.deliverers[k].serial]);
    assert ForClients(s.deliverers[k].m);
  }

  /** A response is written exactly when the slot it is for has a connection and the socket takes
      it; it is then counted once and the thread is free again. */
  lemma SentExactly(run: seq<Action>, k: nat, ok: bool)
    requires Legal(INIT, run) && Enabled(Exec(INIT, run), DelivererSend(k, true, ok))
    ensures var s := Exec(INIT, run);
            var d := s.deliverers[k];
            var t := Next(s, DelivererSend(k, true, ok));
            && d.slot < |s.table.slots|
            && (t.fault.None? <==> 0 <= d.slot && s.table.slots[d.slot].id != -1 && ok)
            && (t.fault.None? ==> Written(s, t, k, d))
  {
    InitInv();
    RunKeepsInv(INIT, run);
    SendWrites(Exec(INIT, run), k, ok);
  }

  /* ----- the sender ----- */

  /** r reports failure e of a write to the requester of m. */
  predicate Reports(r: Message, m: Message, e: BusError) {
    && ResponseMessage(r) && r.resource == m.resource && EchoedKey(r) == KeyOf(m)
    && r.dst == PeerAddr(m) && r.length == 7
    && r.data[5] == match e
                    case NakError => 0xD3
                    case BusBusy => 0xC0
                    case DeviceBusy => 0xC0
                    case IoTimeout => 0xC3
                    case RequestFailed => 0xCE
                    case AllocationFailed => 0xC4
                    case OtherError => 0xFF
  }

  lemma FailureReply(m: Message, e: BusError, stale: Message)
    requires RequestMessage(m)
    ensures Reports(ErrorResponse(m, CompletionCode(e), stale), m, e)
  {
    ErrorResponseEchoes(m, CompletionCode(e), stale);
  }

  /** A bus write that fails is reported to the requester of a valid request, if it can be
      reached, with the completion code of the failure; nothing else comes of it. */
  lemma WriteFailureIsReported(s: State, e: BusError, stale: Message)
    requires Enabled(s, SenderFailed(e, stale))
    ensures var m := s.sender.m;
            var t := Next(s, SenderFailed(e, stale));
            && t == s.(sender := SIdle, workerQ := t.workerQ)
            && if RequestMessage(m) && PeerAddr(m) != 0 && PeerAddr(m) % 2 == 0
               then && |t.workerQ| == |s.workerQ| + 1 && t.workerQ[..|s.workerQ|] == s.workerQ
                    && Reports(t.workerQ[|s.workerQ|], m, e)
               else t.workerQ == s.workerQ
  {
    if RequestMessage(s.sender.m) {
      FailureReply(s.sender.m, e, stale);
    }
  }

  lemma WriteSuccessIsSilent(s: State)
    requires Enabled(s, SenderWrote)
    ensures Next(s, SenderWrote) == s.(sender := SIdle)
  {
  }
}
