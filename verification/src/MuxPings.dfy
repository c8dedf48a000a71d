/**
 The pings the multiplexer sends its responder, and what the answers may do. A ping travels
 under a resource of its own that no slot has, so it must never end up in the broker.
 */
module MuxPings {
  import opened Ipmb
  import opened Options
  import opened BrokerSpec
  import opened SlotTable
  import opened Mux
  import opened MuxHistory
  import opened MuxInvariants
  import opened MuxScenarios
  import opened MuxTheorems

  /* ----- what the responder answers to pings ----- */

  predicate PingAnswer(s: State, a: Action, ok: Message -> bool) {
    a.ResponderAnswer? && s.responder.RHold? && s.responder.m.resource == PING_RESOURCE
    && 1 <= |a.bytes| <= MAX_IPMB_PKT_SIZE + 1 ==>
      ok(FromStream(a.bytes, PING_RESOURCE, s.responder.m))
  }

  /** Every answer to a ping along the run is ok. */
  ghost predicate PingAnswers(s: State, run: seq<Action>, ok: Message -> bool)
    requires Legal(s, run)
    decreases |run|
  {
    run == [] || (PingAnswer(s, run[0], ok) && PingAnswers(Next(s, run[0]), run[1..], ok))
  }

  /* ----- no ping in the broker ----- */

  /** Not a valid request to somebody else, as far as pings are concerned. */
  predicate Harmless(m: Message) {
    m.resource == PING_RESOURCE && RequestMessage(m) ==> m.dst == MUX_ADDR
  }

  ghost predicate HarmlessQueue(q: seq<Message>) {
    forall i :: 0 <= i < |q| ==> Harmless(q[i])
  }

  ghost predicate PingsHarmless(s: State) {
    HarmlessQueue(s.workerQ) && (s.worker.WRoute? ==> Harmless(s.worker.m))
  }

  /** What comes in from connections and the bus: nothing of a ping but pings. */
  lemma InputAdds(s: State, a: Action)
    requires Slots(s) && Enabled(s, a)
    requires a.Connect? || a.Disconnect? || a.ClientFrame? || a.I2cFrame?
    ensures var t := Next(s, a);
            && t.worker == s.worker && t.responderQ == s.responderQ
            && (t.responder == s.responder || t.responder.RIdle? || t.responder.RDone?)
            && (t.workerQ == s.workerQ || exists m :: t.workerQ == s.workerQ + [m] && Input(m))
  {
    match a
    case Connect(t, kind, sock, locked, stale) =>
      PingIsRequest(s.pingSeq, stale);
      assert Input(Ping(s.pingSeq, stale));
    case ClientFrame(t, bytes, stale) => assert Input(FromStream(bytes, s.live[t].slot, stale));
    case I2cFrame(length, data) => assert Input(Packet(I2C_RESOURCE, length, MUX_ADDR, data));
    case Disconnect(_, _) =>
  }

  predicate Input(m: Message) {
    m.resource == PING_RESOURCE ==> RequestMessage(m) && m.dst == MUX_ADDR
  }

  lemma WorkerKeepsHarmless(s: State, a: Action)
    requires PingsHarmless(s) && Traffic(s) && Enabled(s, a)
    requires a.WorkerGet? || a.WorkerRoute? || a.WorkerForward? || a.WorkerReply? || a.WorkerSend?
    ensures PingsHarmless(Next(s, a))
  {
    if a.WorkerReply? {
      ReplyShape(s.worker.m);
    }
  }

  lemma ResponderKeepsHarmless(s: State, a: Action)
    requires PingsHarmless(s) && Traffic(s) && Enabled(s, a) && PingAnswer(s, a, Harmless)
    requires a.ResponderGet? || a.ResponderAnswer? || a.ResponderFail? || a.ResponderReply? || a.ResponderQuit?
    ensures PingsHarmless(Next(s, a))
  {
    if a.ResponderReply? {
      ReplyShape(s.responder.m);
    }
  }

  lemma DeliverersOnlyDeliver(s: State, a: Action)
    requires Enabled(s, a) && (a.DelivererGet? || a.DelivererMatch? || a.DelivererSend?)
    ensures var t := Next(s, a);
            && t.workerQ == s.workerQ && t.worker == s.worker
            && t.responderQ == s.responderQ && t.responder == s.responder
  {
  }

  lemma SenderKeepsHarmless(s: State, a: Action)
    requires PingsHarmless(s) && Enabled(s, a)
    requires a.SenderGet? || a.SenderWrote? || a.SenderFailed?
    ensures PingsHarmless(Next(s, a))
  {
    match a
    case SenderFailed(e, stale) =>
      if RequestMessage(s.sender.m) {
        ErrorResponseEchoes(s.sender.m, CompletionCode(e), stale);
      }
    case _ =>
  }

  lemma StepKeepsHarmless(s: State, a: Action)
    requires PingsHarmless(s) && Traffic(s) && Slots(s) && Enabled(s, a) && PingAnswer(s, a, Harmless)
    ensures PingsHarmless(Next(s, a))
  {
    if a.Connect? || a.Disconnect? || a.ClientFrame? || a.I2cFrame? {
      InputAdds(s, a);
    } else if a.ResponderGet? || a.ResponderAnswer? || a.ResponderFail? || a.ResponderReply? || a.ResponderQuit? {
      ResponderKeepsHarmless(s, a);
    } else if a.WorkerGet? || a.WorkerRoute? || a.WorkerForward? || a.WorkerReply? || a.WorkerSend? {
      WorkerKeepsHarmless(s, a);
    } else if a.SenderGet? || a.SenderWrote? || a.SenderFailed? {
      SenderKeepsHarmless(s, a);
    } else {
      DeliverersOnlyDeliver(s, a);
    }
  }

  ghost predicate PingFree(h: seq<Record>) {
    forall i :: 0 <= i < |h| ==> h[i].req.resource != PING_RESOURCE
  }

  lemma SettledPingFree(g: seq<Record>, h: seq<Record>)
    requires Settles(g, h) && PingFree(g) && |h| == |g|
    ensures PingFree(h)
  {
  }

  lemma TakeLength(s: State, m: Message)
    ensures |TakeI2c(s, m).history| == |s.history|
  {
  }

  lemma RouteKeepsPingFree(s: State, m: Message, outOfMemory: bool)
    requires Books(s) && PingFree(s.history) && Harmless(m)
    ensures PingFree(Route(s, m, outOfMemory).history)
  {
    RouteCases(s, m, outOfMemory);
    if m.dst != MUX_ADDR && IsResponse(m) {
      TakeSettles(s, m);
      TakeLength(s, m);
      SettledPingFree(s.history, TakeI2c(s, m).history);
    }
  }

  lemma OnlyRoutingRecords(s: State, a: Action)
    requires Enabled(s, a) && !a.WorkerRoute?
    ensures |Next(s, a).history| == |s.history|
  {
  }

  /** No step adds a ping to the records: only routing adds records at all. */
  lemma StepKeepsPingFree(s: State, a: Action)
    requires Inv(s) && PingsHarmless(s) && PingFree(s.history) && Enabled(s, a)
    ensures PingFree(Next(s, a).history)
  {
    if a.WorkerRoute? {
      RouteKeepsPingFree(s, s.worker.m, a.outOfMemory);
    } else {
      StepSettles(s, a);
      OnlyRoutingRecords(s, a);
      SettledPingFree(s.history, Next(s, a).history);
    }
  }

  lemma SendStaysInTable(s: State, k: nat, locked: bool, ok: bool)
    requires Inv(s) && PingFree(s.history) && k < SLOTS && s.deliverers[k].DSend? && s.fault.None?
    ensures OnSend(s, k, s.deliverers[k], locked, ok).fault != Some(BadSlot)
  {
    assert WellRecorded(s.history[s.deliverers[k].serial]);
  }

  lemma OnlySendingTakesSlots(s: State, a: Action)
    requires Enabled(s, a) && !a.DelivererSend?
    ensures Next(s, a).fault != Some(BadSlot)
  {
  }

  lemma StepKeepsSlotsGood(s: State, a: Action)
    requires Inv(s) && PingFree(s.history) && Enabled(s, a)
    ensures Next(s, a).fault != Some(BadSlot)
  {
    if a.DelivererSend? {
      SendStaysInTable(s, a.k, a.locked, a.ok);
    } else {
      OnlySendingTakesSlots(s, a);
    }
  }

  lemma {:induction false} HarmlessRunKeeps(s: State, run: seq<Action>)
    requires Inv(s) && PingsHarmless(s) && PingFree(s.history) && s.fault != Some(BadSlot)
    requires Legal(s, run) && PingAnswers(s, run, Harmless)
    ensures var t := Exec(s, run); Inv(t) && PingFree(t.history) && t.fault != Some(BadSlot)
    decreases |run|
  {
    if run != [] {
      StepKeepsInv(s, run[0]);
      StepKeepsHarmless(s, run[0]);
      StepKeepsPingFree(s, run[0]);
      StepKeepsSlotsGood(s, run[0]);
      HarmlessRunKeeps(Next(s, run[0]), run[1..]);
    }
  }

  /** With a responder that never answers a ping by a valid request to somebody else, no
      waiting request carries the ping resource, every response about to be sent has a slot
      index of 0 to 4, and the asserts on that index never fail. */
  lemma PingsNeverReachTheBroker(run: seq<Action>)
    requires Legal(INIT, run) && PingAnswers(INIT, run, Harmless)
    ensures var s := Exec(INIT, run);
            && (forall m :: m in s.broker ==> m.resource != PING_RESOURCE)
            && (forall k :: 0 <= k < |s.deliverers| && s.deliverers[k].DSend? ==> 0 <= s.deliverers[k].slot < SLOTS)
            && s.fault != Some(BadSlot)
  {
    InitInv();
    HarmlessRunKeeps(INIT, run);
    var s := Exec(INIT, run);
    forall m | m in s.broker ensures m.resource != PING_RESOURCE {
      OutstandingMember(s.history, m);
    }
    forall k | 0 <= k < |s.deliverers| && s.deliverers[k].DSend? ensures 0 <= s.deliverers[k].slot < SLOTS {
      assert WellRecorded(s.history[s.deliverers[k].serial]);
    }
  }

  /** What the proviso is for: the answer to a ping leaves a ping request in the broker exactly
      when it is itself a valid request to somebody else. */
  lemma RudeAnswerReachesTheBrokerIff(s: State, bytes: seq<byte>)
    requires Inv(s) && s.fault.None? && s.workerQ == [] && s.worker.WIdle?
    requires s.responder.RHold? && s.responder.m.resource == PING_RESOURCE
    requires forall m :: m in s.broker ==> m.resource != PING_RESOURCE
    requires 2 <= |bytes| <= MAX_IPMB_PKT_SIZE + 1 && bytes[0] != 0 && bytes[0] % 2 == 0
    requires Room(s.clientQ, CLIENT_QUEUE_SIZ)
    ensures var run := [ResponderAnswer(bytes), WorkerGet, WorkerRoute(false)];
            && Legal(s, run)
            && ((exists m :: m in Exec(s, run).broker && m.resource == PING_RESOURCE) <==>
                  RequestFrame(bytes) && bytes[0] != MUX_ADDR)
  {
    var run := [ResponderAnswer(bytes), WorkerGet, WorkerRoute(false)];
    var m := FromStream(bytes, PING_RESOURCE, s.responder.m);
    var s1 := Next(s, run[0]);
    assert s1.workerQ == [m];
    var s2 := Next(s1, run[1]);
    assert s2.worker == WRoute(m);
    var s3 := Next(s2, run[2]);
    assert run[1..][0] == run[1] && run[1..][1..][0] == run[2] && run[1..][1..][1..] == [];
    assert Legal(s3, []) && Legal(s2, run[1..][1..]) && Legal(s1, run[1..]);
    assert Exec(s2, run[1..][1..]) == Exec(s3, []) == s3;
    assert Exec(s1, run[1..]) == s3;
    ValidatorsAgree(bytes, PING_RESOURCE, s.responder.m);
    RoutePingResult(s2, m);
  }

  lemma RoutePingResult(s: State, m: Message)
    requires m.resource == PING_RESOURCE && forall x :: x in s.broker ==> x.resource != PING_RESOURCE
    ensures (exists x :: x in Route(s, m, false).broker && x.resource == PING_RESOURCE) <==>
              RequestMessage(m) && m.dst != MUX_ADDR
  {
    var t := Route(s, m, false);
    if RequestMessage(m) && m.dst != MUX_ADDR {
      assert t.broker[|s.broker|] == m;
    } else {
      match Match(s.broker, m, true)
      case None =>
      case Some(k) => assert forall x :: x in RemoveAt(s.broker, k) ==> x in s.broker;
    }
  }

  /* ----- error replies that cannot be crafted ----- */

  predicate GoesToResponder(m: Message) {
    m.length >= IPMB_REQ_SIZE + 1 && m.dst == MUX_ADDR && IsRequestNetFn(m.data[0])
  }

  /** Not a malformed request to the multiplexer, as far as pings are concerned. */
  predicate WellFormed(m: Message) {
    m.resource == PING_RESOURCE && GoesToResponder(m) ==> RequestMessage(m)
  }

  ghost predicate WellFormedQueue(q: seq<Message>) {
    forall i :: 0 <= i < |q| ==> WellFormed(q[i])
  }

  ghost predicate RequestQueue(q: seq<Message>) {
    forall i :: 0 <= i < |q| ==> RequestMessage(q[i])
  }

  ghost predicate PingsWellFormed(s: State) {
    && WellFormedQueue(s.workerQ)
    && RequestQueue(s.responderQ)
    && (s.worker.WRoute? ==> WellFormed(s.worker.m))
    && (s.worker.WForward? ==> RequestMessage(s.worker.m))
    && (s.responder.RHold? ==> RequestMessage(s.responder.m))
  }

  lemma WorkerKeepsWellFormed(s: State, a: Action)
    requires PingsWellFormed(s) && Traffic(s) && Enabled(s, a)
    requires a.WorkerGet? || a.WorkerRoute? || a.WorkerForward? || a.WorkerReply? || a.WorkerSend?
    ensures PingsWellFormed(Next(s, a))
  {
    if a.WorkerReply? {
      ReplyShape(s.worker.m);
    }
  }

  lemma ResponderKeepsWellFormed(s: State, a: Action)
    requires PingsWellFormed(s) && Traffic(s) && Enabled(s, a) && PingAnswer(s, a, WellFormed)
    requires a.ResponderGet? || a.ResponderAnswer? || a.ResponderFail? || a.ResponderReply? || a.ResponderQuit?
    ensures PingsWellFormed(Next(s, a))
  {
    if a.ResponderReply? {
      ReplyShape(s.responder.m);
    }
  }

  lemma SenderKeepsWellFormed(s: State, a: Action)
    requires PingsWellFormed(s) && Enabled(s, a)
    requires a.SenderGet? || a.SenderWrote? || a.SenderFailed?
    ensures PingsWellFormed(Next(s, a))
  {
    match a
    case SenderFailed(e, stale) =>
      if RequestMessage(s.sender.m) {
        ErrorResponseEchoes(s.sender.m, CompletionCode(e), stale);
      }
    case _ =>
  }

  lemma StepKeepsWellFormed(s: State, a: Action)
    requires PingsWellFormed(s) && Traffic(s) && Slots(s) && Enabled(s, a) && PingAnswer(s, a, WellFormed)
    ensures PingsWellFormed(Next(s, a))
  {
    if a.Connect? || a.Disconnect? || a.ClientFrame? || a.I2cFrame? {
      InputAdds(s, a);
    } else if a.ResponderGet? || a.ResponderAnswer? || a.ResponderFail? || a.ResponderReply? || a.ResponderQuit? {
      ResponderKeepsWellFormed(s, a);
    } else if a.WorkerGet? || a.WorkerRoute? || a.WorkerForward? || a.WorkerReply? || a.WorkerSend? {
      WorkerKeepsWellFormed(s, a);
    } else if a.SenderGet? || a.SenderWrote? || a.SenderFailed? {
      SenderKeepsWellFormed(s, a);
    } else {
      DeliverersOnlyDeliver(s, a);
    }
  }

  lemma StepCrafts(s: State, a: Action)
    requires PingsWellFormed(s) && Enabled(s, a)
    ensures Next(s, a).fault != Some(CraftRejected)
  {
  }

  lemma {:induction false} WellFormedRunKeeps(s: State, run: seq<Action>)
    requires Inv(s) && PingsWellFormed(s) && s.fault != Some(CraftRejected)
    requires Legal(s, run) && PingAnswers(s, run, WellFormed)
    ensures Exec(s, run).fault != Some(CraftRejected)
    decreases |run|
  {
    if run != [] {
      StepKeepsInv(s, run[0]);
      StepKeepsWellFormed(s, run[0]);
      StepCrafts(s, run[0]);
      WellFormedRunKeeps(Next(s, run[0]), run[1..]);
    }
  }

  /** With a responder that never answers a ping by a malformed request to the multiplexer,
      every error reply post_no_responder wants can be crafted. */
  lemma RepliesCanBeCrafted(run: seq<Action>)
    requires Legal(INIT, run) && PingAnswers(INIT, run, WellFormed)
    ensures Exec(INIT, run).fault != Some(CraftRejected)
  {
    InitInv();
    WellFormedRunKeeps(INIT, run);
  }

  /** What that proviso is for: any other answer to a ping can stop the multiplexer. */
  lemma MalformedAnswerCanBeFatal(s: State, bytes: seq<byte>, stale: Message)
    requires Inv(s) && s.fault.None? && s.workerQ == [] && s.worker.WIdle?
    requires s.responder.RHold? && s.responder.m.resource == PING_RESOURCE
    requires s.responderQ == [] && s.table.responder != -1
    requires 1 <= |bytes| <= MAX_IPMB_PKT_SIZE + 1
    requires !WellFormed(FromStream(bytes, PING_RESOURCE, s.responder.m))
    ensures var run := [ResponderAnswer(bytes), WorkerGet] + [WorkerRoute(false), WorkerForward(true, stale)]
                       + [ResponderGet, ResponderFail(stale)];
            Legal(s, run) && Exec(s, run).fault == Some(CraftRejected)
  {
    var m := FromStream(bytes, PING_RESOURCE, s.responder.m);
    var p1, p2, p3 := [ResponderAnswer(bytes), WorkerGet], [WorkerRoute(false), WorkerForward(true, stale)],
                      [ResponderGet, ResponderFail(stale)];
    var s1 := s.(worker := WRoute(m), responder := RIdle);
    var s2 := s.(responderQ := [m], responder := RIdle);
    var s3 := s.(responder := RHold(m), fault := Some(CraftRejected));
    assert Leads(s, p1, s1) by { Two(s, ResponderAnswer(bytes), WorkerGet); }
    assert Leads(s1, p2, s2) by { Two(s1, WorkerRoute(false), WorkerForward(true, stale)); }
    assert Leads(s2, p3, s3) by { Two(s2, ResponderGet, ResponderFail(stale)); }
    Then(s, p1, s1, p2, s2);
    Then(s, p1 + p2, s2, p3, s3);
  }
}
