/**
 Whole exchanges: from any quiet state of the system there is a schedule on which a request
 makes its way through the threads and its answer comes back. Other schedules of the same
 threads are not considered here.
 */
module MuxScenarios {
  import opened Ipmb
  import opened Options
  import opened BrokerSpec
  import opened SlotTable
  import opened Mux
  import opened MuxInvariants
  import MsgQueue

  /** Nothing is under way between threads; requests may be waiting for responses. */
  ghost predicate Quiet(s: State) {
    && Inv(s) && s.fault.None?
    && s.workerQ == [] && s.clientQ == [] && s.senderQ == [] && s.responderQ == []
    && s.worker.WIdle? && s.sender.SIdle? && s.deliverers[0].DIdle?
  }

  /** run leads from s to t. */
  ghost predicate Leads(s: State, run: seq<Action>, t: State) {
    Legal(s, run) && Exec(s, run) == t
  }

  lemma Stays(s: State)
    ensures Leads(s, [], s)
  {
  }

  lemma StepThen(s: State, a: Action, rest: seq<Action>, t: State)
    requires Enabled(s, a) && Leads(Next(s, a), rest, t)
    ensures Leads(s, [a] + rest, t)
  {
    assert ([a] + rest)[1..] == rest;
  }

  lemma {:induction false} Then(s: State, p: seq<Action>, t: State, q: seq<Action>, u: State)
    requires Leads(s, p, t) && Leads(t, q, u)
    ensures Leads(s, p + q, u)
    decreases |p|
  {
    if p == [] {
      assert p + q == q;
    } else {
      Then(Next(s, p[0]), p[1..], t, q, u);
      assert (p + q)[1..] == p[1..] + q;
    }
  }

  lemma Two(s: State, a: Action, b: Action)
    requires Enabled(s, a) && Enabled(Next(s, a), b)
    ensures Leads(s, [a, b], Next(Next(s, a), b))
  {
    Stays(Next(Next(s, a), b));
    StepThen(Next(s, a), b, [], Next(Next(s, a), b));
    StepThen(s, a, [b], Next(Next(s, a), b));
  }

  /* ----- legs of an exchange ----- */

  /** A client's frame reaches the worker. */
  lemma FrameArrives(s: State, t: Tid, bytes: seq<byte>, stale: Message)
    requires Quiet(s) && t in s.live && s.live[t].kind == Client && RequestFrame(bytes) && bytes[0] != 0
    ensures var m := FromStream(bytes, s.live[t].slot, stale);
            Leads(s, [ClientFrame(t, bytes, stale), WorkerGet], s.(worker := WRoute(m)))
  {
    Two(s, ClientFrame(t, bytes, stale), WorkerGet);
  }

  /** A request to the bus is remembered and handed to the sender. */
  lemma RequestGoesOut(s: State, m: Message)
    requires s.fault.None? && s.worker == WRoute(m) && s.sender.SIdle? && s.senderQ == []
    requires RequestMessage(m) && m.dst != MUX_ADDR && m.dst != 0 && m.resource != PING_RESOURCE
    ensures Leads(s, [WorkerRoute(false), WorkerSend, SenderGet],
                  s.(worker := WIdle, sender := SHold(m), broker := s.broker + [m],
                     history := s.history + [Record(m, Outstanding)]))
  {
    var s1 := Next(s, WorkerRoute(false));
    assert s1 == s.(worker := WSend(m), broker := s.broker + [m], history := s.history + [Record(m, Outstanding)]);
    Two(s1, WorkerSend, SenderGet);
    StepThen(s, WorkerRoute(false), [WorkerSend, SenderGet], Next(Next(s1, WorkerSend), SenderGet));
  }

  /** The state after response resp has been sent for the i-th waiting request. */
  function Answered(s: State, i: nat, resp: Message): State
    requires i < |s.broker| && 0 <= s.broker[i].resource < |s.sent|
  {
    var r := s.broker[i].resource;
    s.(worker := WIdle, broker := RemoveAt(s.broker, i),
       history := SetFate(s.history, SerialOf(s.history, i), Delivered(resp)),
       sent := s.sent[r := s.sent[r] + 1])
  }

  const DELIVERY := [WorkerRoute(false), DelivererGet(0)] + [DelivererMatch(0), DelivererSend(0, true, true)]

  lemma ResponseReachesThread(s: State, resp: Message)
    requires s.fault.None? && s.worker == WRoute(resp) && s.clientQ == []
    requires |s.deliverers| == SLOTS && s.deliverers[0].DIdle?
    requires RoutesToClientQ(resp)
    ensures Leads(s, [WorkerRoute(false), DelivererGet(0)],
                  s.(worker := WIdle, deliverers := s.deliverers[0 := DHold(resp)]))
  {
    var s1 := Next(s, WorkerRoute(false));
    assert s1 == s.(worker := WIdle, clientQ := [resp]);
    Two(s, WorkerRoute(false), DelivererGet(0));
    assert s1.clientQ[1..] == [];
  }

  /** A response addressed to the multiplexer is sent to the slot of the request it matches. */
  lemma ResponseIsDelivered(s: State, resp: Message, i: nat)
    requires s.fault.None? && s.worker == WRoute(resp) && s.clientQ == []
    requires |s.deliverers| == SLOTS && s.deliverers[0].DIdle?
    requires RoutesToClientQ(resp) && resp.length <= MAX_IPMB_PKT_SIZE
    requires Match(s.broker, resp, false) == Some(i)
    requires SerialOf(s.history, i) < |s.history| && |s.sent| == SLOTS
    requires 0 <= s.broker[i].resource < SLOTS == |s.table.slots| && s.table.slots[s.broker[i].resource].socket >= 0
    ensures Leads(s, DELIVERY, Answered(s, i, resp))
  {
    ResponseReachesThread(s, resp);
    var s2 := s.(worker := WIdle, deliverers := s.deliverers[0 := DHold(resp)]);
    MatchAndSend(s2, resp, i);
    assert s2.deliverers[0 := DIdle] == s.deliverers;
    Then(s, [WorkerRoute(false), DelivererGet(0)], s2, [DelivererMatch(0), DelivererSend(0, true, true)],
         Answered(s, i, resp));
  }

  lemma MatchAndSend(s: State, resp: Message, i: nat)
    requires s.fault.None? && |s.deliverers| == SLOTS && s.deliverers[0] == DHold(resp) && s.worker.WIdle?
    requires resp.length <= MAX_IPMB_PKT_SIZE && Match(s.broker, resp, false) == Some(i)
    requires SerialOf(s.history, i) < |s.history| && |s.sent| == SLOTS
    requires 0 <= s.broker[i].resource < SLOTS == |s.table.slots| && s.table.slots[s.broker[i].resource].socket >= 0
    ensures Leads(s, [DelivererMatch(0), DelivererSend(0, true, true)],
                  Answered(s, i, resp).(deliverers := s.deliverers[0 := DIdle]))
  {
    var n := SerialOf(s.history, i);
    var s1 := Next(s, DelivererMatch(0));
    assert s1 == Marry(s, i, resp).(deliverers := s.deliverers[0 := DSend(s.broker[i].resource, n, resp)]);
    SendEnds(s1, s.broker[i].resource, n, resp);
    assert SetFate(SetFate(s.history, n, Matched(resp)), n, Delivered(resp)) == SetFate(s.history, n, Delivered(resp));
    assert s1.deliverers[0 := DIdle] == s.deliverers[0 := DIdle];
    Two(s, DelivererMatch(0), DelivererSend(0, true, true));
  }

  lemma SendEnds(s: State, slot: int, n: nat, resp: Message)
    requires s.fault.None? && |s.deliverers| == SLOTS && s.deliverers[0] == DSend(slot, n, resp)
    requires resp.length <= MAX_IPMB_PKT_SIZE && |s.sent| == SLOTS
    requires 0 <= slot < SLOTS == |s.table.slots| && s.table.slots[slot].socket >= 0
    ensures Enabled(s, DelivererSend(0, true, true))
    ensures Next(s, DelivererSend(0, true, true)) ==
            s.(deliverers := s.deliverers[0 := DIdle], history := SetFate(s.history, n, Delivered(resp)),
               sent := s.sent[slot := s.sent[slot] + 1])
  {
  }

  /* ----- exchanges ----- */

  /** A response to m as far as the broker is concerned, addressed to the multiplexer. */
  predicate Responds(resp: Message, m: Message) {
    EchoedKey(resp) == KeyOf(m) && RoutesToClientQ(resp) && resp.length <= MAX_IPMB_PKT_SIZE
  }

  /** No waiting socket request has the key of m. */
  ghost predicate NewKey(s: State, m: Message) {
    forall j :: 0 <= j < |s.broker| && SameOrigin(s.broker[j], false) ==> KeyOf(s.broker[j]) != KeyOf(m)
  }

  function Pending(s: State, m: Message): State {
    s.(broker := s.broker + [m], history := s.history + [Record(m, Outstanding)])
  }

  /** s, but for one more request on record, answered once, to the slot it came from. */
  function Served(s: State, m: Message, resp: Message): State
    requires 0 <= m.resource < |s.sent|
  {
    s.(history := s.history + [Record(m, Delivered(resp))],
       sent := s.sent[m.resource := s.sent[m.resource] + 1])
  }

  lemma PendingIsLast(s: State, m: Message, f: Fate)
    requires s.broker == OutstandingIn(s.history)
    ensures var t := Pending(s, m);
            && SerialOf(t.history, |s.broker|) == |s.history| && RemoveAt(t.broker, |s.broker|) == s.broker
            && SetFate(t.history, |s.history|, f) == s.history + [Record(m, f)]
  {
    assert Pending(s, m).history[..|s.history|] == s.history;
  }

  lemma AnsweredIsServed(s: State, m: Message, resp: Message)
    requires s.broker == OutstandingIn(s.history) && 0 <= m.resource < |s.sent| && s.worker.WIdle?
    ensures Answered(Pending(s, m).(worker := WRoute(resp)), |s.broker|, resp) == Served(s, m, resp)
  {
    PendingIsLast(s, m, Delivered(resp));
  }

  lemma ResponseEndsExchange(s: State, t: Tid, m: Message, resp: Message)
    requires Quiet(s) && t in s.live && m.resource == s.live[t].slot && NewKey(s, m) && Responds(resp, m)
    ensures Leads(Pending(s, m).(worker := WRoute(resp)), DELIVERY, Served(s, m, resp))
  {
    var s1 := Pending(s, m).(worker := WRoute(resp));
    var i := |s.broker|;
    EchoMatchedExactly(s1.broker, resp, false, i);
    PendingIsLast(s, m, Delivered(resp));
    ResponseIsDelivered(s1, resp, i);
    AnsweredIsServed(s, m, resp);
  }

  /** A request to a device on the bus and the device's response: on this schedule the client
      gets that response and the broker is left as it was. */
  lemma BusExchange(s: State, t: Tid, bytes: seq<byte>, stale: Message, length: nat, data: seq<byte>)
    requires Quiet(s) && t in s.live && s.live[t].kind == Client
    requires RequestFrame(bytes) && bytes[0] != 0 && bytes[0] != MUX_ADDR
    requires 1 <= length <= MAX_IPMB_PKT_SIZE && |data| == MAX_IPMB_PKT_SIZE
    requires var m := FromStream(bytes, s.live[t].slot, stale);
             NewKey(s, m) && Responds(Packet(I2C_RESOURCE, length, MUX_ADDR, data), m)
    ensures var m := FromStream(bytes, s.live[t].slot, stale);
            Leads(s, [ClientFrame(t, bytes, stale), WorkerGet] + [WorkerRoute(false), WorkerSend, SenderGet]
                     + [SenderWrote] + [I2cFrame(length, data), WorkerGet] + DELIVERY,
                  Served(s, m, Packet(I2C_RESOURCE, length, MUX_ADDR, data)))
  {
    var m := FromStream(bytes, s.live[t].slot, stale);
    var resp: Message := Packet(I2C_RESOURCE, length, MUX_ADDR, data);
    var s1, s2 := s.(worker := WRoute(m)), Pending(s, m).(sender := SHold(m));
    ValidatorsAgree(bytes, s.live[t].slot, stale);
    FrameArrives(s, t, bytes, stale);
    RequestGoesOut(s1, m);
    Then(s, [ClientFrame(t, bytes, stale), WorkerGet], s1, [WorkerRoute(false), WorkerSend, SenderGet], s2);
    BusAnswers(s2, resp);
    var s3 := Pending(s, m).(worker := WRoute(resp));
    var p2 := [ClientFrame(t, bytes, stale), WorkerGet] + [WorkerRoute(false), WorkerSend, SenderGet];
    var p3 := [SenderWrote] + [I2cFrame(length, data), WorkerGet];
    Then(s, p2, s2, p3, s3);
    ResponseEndsExchange(s, t, m, resp);
    Then(s, p2 + p3, s3, DELIVERY, Served(s, m, resp));
    assert p2 + p3 == p2 + [SenderWrote] + [I2cFrame(length, data), WorkerGet];
  }

  lemma FirstClientConnects(t: Tid, sock: nat, stale: Message)
    ensures var a := Connect(t, Client, sock, true, stale);
            && Enabled(INIT, a) && Quiet(Next(INIT, a))
            && Next(INIT, a).live == map[t := Conn(0, Client)]
            && Next(INIT, a).broker == [] && Next(INIT, a).sent == [0, 0, 0, 0, 0]
  {
    InitInv();
    StepKeepsInv(INIT, Connect(t, Client, sock, true, stale));
  }

  /** The first client ever to connect can be served in this way. */
  lemma FirstClientIsServed(t: Tid, sock: nat, bytes: seq<byte>, stale: Message, length: nat, data: seq<byte>)
    requires RequestFrame(bytes) && bytes[0] != 0 && bytes[0] != MUX_ADDR
    requires 1 <= length <= MAX_IPMB_PKT_SIZE && |data| == MAX_IPMB_PKT_SIZE
    requires Responds(Packet(I2C_RESOURCE, length, MUX_ADDR, data), FromStream(bytes, 0, stale))
    ensures exists run :: Legal(INIT, run) && Exec(INIT, run).sent == [1, 0, 0, 0, 0]
                          && Exec(INIT, run).broker == [] && Exec(INIT, run).live == map[t := Conn(0, Client)]
  {
    var a := Connect(t, Client, sock, true, stale);
    var s := Next(INIT, a);
    FirstClientConnects(t, sock, stale);
    BusExchange(s, t, bytes, stale, length, data);
    var rest := [ClientFrame(t, bytes, stale), WorkerGet] + [WorkerRoute(false), WorkerSend, SenderGet]
                + [SenderWrote] + [I2cFrame(length, data), WorkerGet] + DELIVERY;
    StepThen(INIT, a, rest, Served(s, FromStream(bytes, 0, stale), Packet(I2C_RESOURCE, length, MUX_ADDR, data)));
    assert Legal(INIT, [a] + rest);
  }

  lemma BusAnswers(s: State, resp: Message)
    requires s.fault.None? && s.workerQ == [] && s.worker.WIdle? && s.sender.SHold?
    requires resp.resource == I2C_RESOURCE && resp.dst == MUX_ADDR && 1 <= resp.length <= MAX_IPMB_PKT_SIZE
    ensures Leads(s, [SenderWrote] + [I2cFrame(resp.length, resp.data), WorkerGet],
                  s.(sender := SIdle, worker := WRoute(resp)))
  {
    var s1 := Next(s, SenderWrote);
    Two(s1, I2cFrame(resp.length, resp.data), WorkerGet);
    StepThen(s, SenderWrote, [I2cFrame(resp.length, resp.data), WorkerGet],
             s.(sender := SIdle, worker := WRoute(resp)));
  }

  /** When the bus refuses the request, the client gets an error response with the completion
      code for the failure on this schedule, provided it gave the multiplexer's address as its
      own. */
  lemma BusFailure(s: State, t: Tid, bytes: seq<byte>, stale: Message, e: BusError, stale': Message)
    requires Quiet(s) && t in s.live && s.live[t].kind == Client
    requires RequestFrame(bytes) && bytes[0] != 0 && bytes[0] != MUX_ADDR
    requires var m := FromStream(bytes, s.live[t].slot, stale); NewKey(s, m) && PeerAddr(m) == MUX_ADDR
    ensures var m := FromStream(bytes, s.live[t].slot, stale);
            var resp := ErrorResponse(m, CompletionCode(e), stale');
            && resp.data[5] == CompletionCode(e)
            && Leads(s, [ClientFrame(t, bytes, stale), WorkerGet] + [WorkerRoute(false), WorkerSend, SenderGet]
                        + [SenderFailed(e, stale'), WorkerGet] + DELIVERY, Served(s, m, resp))
  {
    var m := FromStream(bytes, s.live[t].slot, stale);
    var resp := ErrorResponse(m, CompletionCode(e), stale');
    var s1, s2 := s.(worker := WRoute(m)), Pending(s, m).(sender := SHold(m));
    ValidatorsAgree(bytes, s.live[t].slot, stale);
    ErrorResponseEchoes(m, CompletionCode(e), stale');
    FrameArrives(s, t, bytes, stale);
    RequestGoesOut(s1, m);
    Then(s, [ClientFrame(t, bytes, stale), WorkerGet], s1, [WorkerRoute(false), WorkerSend, SenderGet], s2);
    var p2 := [ClientFrame(t, bytes, stale), WorkerGet] + [WorkerRoute(false), WorkerSend, SenderGet];
    var s3 := Pending(s, m).(worker := WRoute(resp));
    Two(s2, SenderFailed(e, stale'), WorkerGet);
    assert Leads(s2, [SenderFailed(e, stale'), WorkerGet], s3);
    Then(s, p2, s2, [SenderFailed(e, stale'), WorkerGet], s3);
    ResponseEndsExchange(s, t, m, resp);
    Then(s, p2 + [SenderFailed(e, stale'), WorkerGet], s3, DELIVERY, Served(s, m, resp));
  }

  /** On this schedule a request to the multiplexer itself reaches the responder, and its answer
      the client. */
  lemma ResponderExchange(s: State, t: Tid, bytes: seq<byte>, stale: Message, answer: seq<byte>)
    requires Quiet(s) && t in s.live && s.live[t].kind == Client
    requires s.responder.RIdle? && s.table.responder != -1
    requires RequestFrame(bytes) && bytes[0] == MUX_ADDR && 2 <= |answer| <= MAX_IPMB_PKT_SIZE + 1
    requires var m := FromStream(bytes, s.live[t].slot, stale);
             NewKey(s, m) && Responds(FromStream(answer, m.resource, m), m)
    ensures var m := FromStream(bytes, s.live[t].slot, stale);
            Leads(s, [ClientFrame(t, bytes, stale), WorkerGet] + [WorkerRoute(false), WorkerForward(true, stale)]
                     + [ResponderGet, ResponderAnswer(answer)] + [WorkerGet] + DELIVERY,
                  Served(s, m, FromStream(answer, m.resource, m)))
  {
    var m := FromStream(bytes, s.live[t].slot, stale);
    var resp := FromStream(answer, m.resource, m);
    var s1 := s.(worker := WRoute(m));
    ValidatorsAgree(bytes, s.live[t].slot, stale);
    FrameArrives(s, t, bytes, stale);
    var p1 := [ClientFrame(t, bytes, stale), WorkerGet];
    var p2 := [WorkerRoute(false), WorkerForward(true, stale)];
    var p3 := [ResponderGet, ResponderAnswer(answer)];
    var s2 := Pending(s, m).(responderQ := [m]);
    var s3 := Pending(s, m).(workerQ := [resp]);
    var s4 := Pending(s, m).(worker := WRoute(resp));
    RequestReachesResponder(s, m, stale);
    AnswerReachesWorkerQ(s2, m, answer);
    Then(s, p1, s1, p2, s2);
    Then(s, p1 + p2, s2, p3, s3);
    Stays(s4);
    StepThen(s3, WorkerGet, [], s4);
    assert [WorkerGet] + [] == [WorkerGet];
    Then(s, p1 + p2 + p3, s3, [WorkerGet], s4);
    ResponseEndsExchange(s, t, m, resp);
    Then(s, p1 + p2 + p3 + [WorkerGet], s4, DELIVERY, Served(s, m, resp));
  }

  lemma AnswerReachesWorkerQ(s: State, m: Message, answer: seq<byte>)
    requires s.fault.None? && s.responderQ == [m] && s.responder.RIdle? && s.workerQ == []
    requires 2 <= |answer| <= MAX_IPMB_PKT_SIZE + 1 && answer[0] != 0 && answer[0] % 2 == 0
    ensures Leads(s, [ResponderGet, ResponderAnswer(answer)],
                  s.(responderQ := [], workerQ := [FromStream(answer, m.resource, m)]))
  {
    Two(s, ResponderGet, ResponderAnswer(answer));
  }

  /** Without a responder the client is told, on this schedule, that the destination is
      unavailable, provided it gave the multiplexer's address as its own. */
  lemma NoResponderExchange(s: State, t: Tid, bytes: seq<byte>, stale: Message, stale': Message)
    requires Quiet(s) && t in s.live && s.live[t].kind == Client && s.table.responder == -1
    requires RequestFrame(bytes) && bytes[0] == MUX_ADDR
    requires var m := FromStream(bytes, s.live[t].slot, stale); NewKey(s, m) && PeerAddr(m) == MUX_ADDR
    ensures var m := FromStream(bytes, s.live[t].slot, stale);
            var resp := ErrorResponse(m, CC_DEST_UNAVAILABLE, stale');
            && resp.data[5] == CC_DEST_UNAVAILABLE
            && Leads(s, [ClientFrame(t, bytes, stale), WorkerGet] + [WorkerRoute(false), WorkerForward(true, stale')]
                        + [WorkerReply, WorkerGet] + DELIVERY, Served(s, m, resp))
  {
    var m := FromStream(bytes, s.live[t].slot, stale);
    var resp := ErrorResponse(m, CC_DEST_UNAVAILABLE, stale');
    var s1 := s.(worker := WRoute(m));
    ValidatorsAgree(bytes, s.live[t].slot, stale);
    ErrorResponseEchoes(m, CC_DEST_UNAVAILABLE, stale');
    FrameArrives(s, t, bytes, stale);
    var p1 := [ClientFrame(t, bytes, stale), WorkerGet];
    var p2 := [WorkerRoute(false), WorkerForward(true, stale')];
    var s2 := Pending(s, m).(worker := WReply(resp));
    var s3 := Pending(s, m).(worker := WRoute(resp));
    Two(s1, WorkerRoute(false), WorkerForward(true, stale'));
    assert Leads(s1, p2, s2);
    Then(s, p1, s1, p2, s2);
    Two(s2, WorkerReply, WorkerGet);
    assert Leads(s2, [WorkerReply, WorkerGet], s3);
    Then(s, p1 + p2, s2, [WorkerReply, WorkerGet], s3);
    ResponseEndsExchange(s, t, m, resp);
    Then(s, p1 + p2 + [WorkerReply, WorkerGet], s3, DELIVERY, Served(s, m, resp));
  }

  /** On this schedule a request from the bus reaches the responder, and its answer goes back to
      the bus. */
  lemma I2cExchange(s: State, m: Message, answer: seq<byte>, stale: Message)
    requires Quiet(s) && s.responder.RIdle? && s.table.responder != -1
    requires m.resource == I2C_RESOURCE && m.dst == MUX_ADDR && RequestMessage(m)
    requires IPMB_REQ_SIZE + 1 < |answer| <= MAX_IPMB_PKT_SIZE + 1
    requires answer[0] != MUX_ADDR && answer[0] != 0 && answer[0] % 2 == 0
    requires var resp := FromStream(answer, m.resource, m); IsResponse(resp) && EchoedKey(resp) == KeyOf(m)
    requires forall j :: 0 <= j < |s.broker| && SameOrigin(s.broker[j], true) ==> KeyOf(s.broker[j]) != KeyOf(m)
    ensures var resp := FromStream(answer, m.resource, m);
            Leads(s, [I2cFrame(m.length, m.data), WorkerGet] + [WorkerRoute(false), WorkerForward(true, stale)]
                     + [ResponderGet, ResponderAnswer(answer)] + [WorkerGet, WorkerRoute(false)]
                     + [WorkerSend, SenderGet],
                  s.(sender := SHold(resp), history := s.history + [Record(m, Matched(resp))]))
  {
    var resp := FromStream(answer, m.resource, m);
    var p1 := [I2cFrame(m.length, m.data), WorkerGet];
    var p2 := [WorkerRoute(false), WorkerForward(true, stale)];
    var p3 := [ResponderGet, ResponderAnswer(answer)];
    var p4 := [WorkerGet, WorkerRoute(false)];
    var s2 := Pending(s, m).(responderQ := [m]);
    var s3 := Pending(s, m).(workerQ := [resp]);
    var done := s.(history := s.history + [Record(m, Matched(resp))]);
    I2cFrameArrives(s, m);
    RequestReachesResponder(s, m, stale);
    Then(s, p1, s.(worker := WRoute(m)), p2, s2);
    AnswerReachesWorkerQ(s2, m, answer);
    Then(s, p1 + p2, s2, p3, s3);
    AnswerSettlesI2c(s, m, resp);
    Then(s, p1 + p2 + p3, s3, p4, done.(worker := WSend(resp)));
    ResponseGoesOut(done, resp);
    Then(s, p1 + p2 + p3 + p4, done.(worker := WSend(resp)), [WorkerSend, SenderGet], done.(sender := SHold(resp)));
  }

  lemma I2cFrameArrives(s: State, m: Message)
    requires s.fault.None? && s.workerQ == [] && s.worker.WIdle?
    requires m.resource == I2C_RESOURCE && m.dst == MUX_ADDR && 1 <= m.length <= MAX_IPMB_PKT_SIZE
    ensures Leads(s, [I2cFrame(m.length, m.data), WorkerGet], s.(worker := WRoute(m)))
  {
    Two(s, I2cFrame(m.length, m.data), WorkerGet);
  }

  lemma RequestReachesResponder(s: State, m: Message, stale: Message)
    requires s.fault.None? && s.responderQ == [] && s.table.responder != -1 && s.worker.WIdle?
    requires RequestMessage(m) && m.dst == MUX_ADDR && m.resource != PING_RESOURCE
    ensures Leads(s.(worker := WRoute(m)), [WorkerRoute(false), WorkerForward(true, stale)],
                  Pending(s, m).(responderQ := [m]))
  {
    var s1 := s.(worker := WRoute(m));
    assert Next(s1, WorkerRoute(false)) == Pending(s, m).(worker := WForward(m));
    Two(s1, WorkerRoute(false), WorkerForward(true, stale));
  }

  lemma ResponseGoesOut(s: State, resp: Message)
    requires s.fault.None? && s.senderQ == [] && s.sender.SIdle? && s.worker.WIdle? && MsgQueue.Postable(resp)
    ensures Leads(s.(worker := WSend(resp)), [WorkerSend, SenderGet], s.(sender := SHold(resp)))
  {
    Two(s.(worker := WSend(resp)), WorkerSend, SenderGet);
  }

  lemma AnswerSettlesI2c(s: State, m: Message, resp: Message)
    requires Quiet(s) && m.resource == resp.resource == I2C_RESOURCE && RequestMessage(m)
    requires resp.length >= IPMB_REQ_SIZE + 1 && resp.dst != MUX_ADDR && IsResponse(resp) && EchoedKey(resp) == KeyOf(m)
    requires forall j :: 0 <= j < |s.broker| && SameOrigin(s.broker[j], true) ==> KeyOf(s.broker[j]) != KeyOf(m)
    ensures Leads(Pending(s, m).(workerQ := [resp]), [WorkerGet, WorkerRoute(false)],
                  s.(worker := WSend(resp), history := s.history + [Record(m, Matched(resp))]))
  {
    var s1 := Pending(s, m).(worker := WRoute(resp));
    var i := |s.broker|;
    EchoMatchedExactly(s1.broker, resp, true, i);
    PendingIsLast(s, m, Matched(resp));
    assert Next(Pending(s, m).(workerQ := [resp]), WorkerGet) == s1;
    Two(Pending(s, m).(workerQ := [resp]), WorkerGet, WorkerRoute(false));
  }
}
