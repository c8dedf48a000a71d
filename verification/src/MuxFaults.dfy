/**
 When the asserts on queue posts fail: the exact inputs that stop the multiplexer, in whatever
 order its threads run.
 */
module MuxFaults {
  import opened Ipmb
  import opened Options
  import opened SlotTable
  import opened Mux
  import opened MuxInvariants
  import opened MuxScenarios
  import MsgQueue

  /* ----- one step ----- */

  /** The requester's address leaves nowhere to send a reply. */
  predicate NoReturn(m: Message) {
    PeerAddr(m) == 0 || PeerAddr(m) % 2 == 1
  }

  lemma ReplyPostableIff(m: Message, cc: byte, stale: Message)
    requires RequestMessage(m)
    ensures MsgQueue.Postable(ErrorResponse(m, cc, stale)) <==> !NoReturn(m)
  {
    ErrorResponseEchoes(m, cc, stale);
  }

  /** A client stops the multiplexer exactly by a valid request to address 0. */
  lemma ClientPostFailsIff(s: State, a: Action)
    requires Enabled(s, a)
    ensures Next(s, a).fault == Some(ClientPostRejected) <==>
              a.ClientFrame? && RequestFrame(a.bytes) && a.bytes[0] == 0
  {
  }

  /** The responder stops it exactly by an answer of one byte, or to an address that is odd
      or 0. */
  lemma ResponderPostFailsIff(s: State, a: Action)
    requires Enabled(s, a)
    ensures Next(s, a).fault == Some(ResponderPostRejected) <==>
              a.ResponderAnswer? && (|a.bytes| == 1 || a.bytes[0] == 0 || a.bytes[0] % 2 == 1)
  {
  }

  /** The message a reply step posts. */
  function ReplyHeld(s: State, a: Action): Option<Message> {
    if a.WorkerReply? && s.worker.WReply? then Some(s.worker.m)
    else if a.ResponderReply? && s.responder.RReply? then Some(s.responder.m)
    else None
  }

  /** m is the request that held reply r was made for. */
  ghost predicate RepliesTo(r: Message, m: Message) {
    RequestMessage(m) && exists stale :: r == ErrorResponse(m, CC_DEST_UNAVAILABLE, stale)
  }

  lemma RepliesNoReturn(r: Message, m: Message)
    requires RepliesTo(r, m)
    ensures MsgQueue.Postable(r) <==> !NoReturn(m)
  {
    var stale :| r == ErrorResponse(m, CC_DEST_UNAVAILABLE, stale);
    ReplyPostableIff(m, CC_DEST_UNAVAILABLE, stale);
  }

  lemma HeldReplyFails(s: State, a: Action)
    requires Enabled(s, a)
    ensures Next(s, a).fault == Some(ReplyPostRejected) <==>
              ReplyHeld(s, a).Some? && !MsgQueue.Postable(ReplyHeld(s, a).value)
  {
  }

  lemma HeldIsReply(s: State, a: Action)
    requires Traffic(s) && ReplyHeld(s, a).Some?
    ensures exists m :: RepliesTo(ReplyHeld(s, a).value, m)
  {
    var r := ReplyHeld(s, a).value;
    var m, stale :|
      RequestMessage(m) && PING_RESOURCE <= m.resource < SLOTS && r == ErrorResponse(m, CC_DEST_UNAVAILABLE, stale);
    assert RepliesTo(r, m);
  }

  /** In every reachable state, posting an error reply fails exactly when the reply answers a
      valid request from an address that is odd or 0. */
  lemma ReplyPostFailsIff(run: seq<Action>, a: Action)
    requires Legal(INIT, run) && Enabled(Exec(INIT, run), a)
    ensures var s := Exec(INIT, run);
            Next(s, a).fault == Some(ReplyPostRejected) <==>
              ReplyHeld(s, a).Some? && exists m :: RepliesTo(ReplyHeld(s, a).value, m) && NoReturn(m)
  {
    InitInv();
    RunKeepsInv(INIT, run);
    var s := Exec(INIT, run);
    HeldReplyFails(s, a);
    if ReplyHeld(s, a).Some? {
      var r := ReplyHeld(s, a).value;
      HeldIsReply(s, a);
      forall m | RepliesTo(r, m) ensures MsgQueue.Postable(r) <==> !NoReturn(m) {
        RepliesNoReturn(r, m);
      }
    }
  }

  /** In every reachable state, crafting an error reply fails exactly when the request held is
      malformed, and such a request has come of a ping. */
  lemma CraftFailsIff(run: seq<Action>, a: Action)
    requires Legal(INIT, run) && Enabled(Exec(INIT, run), a)
    ensures var s := Exec(INIT, run);
            Next(s, a).fault == Some(CraftRejected) <==>
              || (&& a.WorkerForward? && a.locked && s.table.responder == -1
                  && !RequestMessage(s.worker.m) && s.worker.m.resource == PING_RESOURCE)
              || (a.ResponderFail? && !RequestMessage(s.responder.m) && s.responder.m.resource == PING_RESOURCE)
  {
    InitInv();
    RunKeepsInv(INIT, run);
    CraftFails(Exec(INIT, run), a);
  }

  lemma OtherStepsNeverCraft(s: State, a: Action)
    requires Enabled(s, a) && !a.WorkerForward? && !a.ResponderFail?
    ensures Next(s, a).fault != Some(CraftRejected)
  {
  }

  lemma CraftFails(s: State, a: Action)
    requires WorkerHolds(s.worker) && ResponderHolds(s.responder) && Enabled(s, a)
    ensures Next(s, a).fault == Some(CraftRejected) <==>
              || (&& a.WorkerForward? && a.locked && s.table.responder == -1
                  && !RequestMessage(s.worker.m) && s.worker.m.resource == PING_RESOURCE)
              || (a.ResponderFail? && !RequestMessage(s.responder.m) && s.responder.m.resource == PING_RESOURCE)
  {
    if !a.WorkerForward? && !a.ResponderFail? {
      OtherStepsNeverCraft(s, a);
    }
  }

  /* ----- from the missing responder to the failing assert, whatever runs in between ----- */

  /** While the responder thread serves its connection, that connection is live. */
  ghost predicate Attended(s: State) {
    s.responder.RDone? || exists t :: t in s.live && s.live[t].kind == Responder
  }

  lemma StepKeepsAttended(s: State, a: Action)
    requires Attended(s) && Slots(s) && Enabled(s, a)
    ensures Attended(Next(s, a))
  {
    match a
    case Connect(t, kind, sock, locked, stale) => ConnectKeepsAttended(s, t, kind, sock, locked, stale);
    case Disconnect(t, locked) => DisconnectKeepsAttended(s, t, locked);
    case _ =>
      OtherStepsKeepTable(s, a);
      OnlyConnectRevives(s, a);
  }

  lemma ConnectKeepsAttended(s: State, t: Tid, kind: Kind, sock: nat, locked: bool, stale: Message)
    requires Attended(s) && t !in s.live
    ensures Attended(OnConnect(s, t, kind, sock, locked, stale))
  {
    var s' := OnConnect(s, t, kind, sock, locked, stale);
    if kind == Responder && locked && GrantFor(s.table, kind).Granted? {
      assert t in s'.live;
    } else if !s.responder.RDone? {
      var u :| u in s.live && s.live[u].kind == Responder;
      assert u in s'.live;
    }
  }

  lemma DisconnectKeepsAttended(s: State, t: Tid, locked: bool)
    requires Attended(s) && t in s.live
    ensures Attended(OnDisconnect(s, t, locked))
  {
    var s' := OnDisconnect(s, t, locked);
    if s.live[t].kind == Client && !s.responder.RDone? {
      var u :| u in s.live && s.live[u].kind == Responder;
      assert u in s'.live;
    }
  }

  lemma OnlyConnectRevives(s: State, a: Action)
    requires Enabled(s, a) && !a.Connect?
    ensures s.responder.RDone? ==> Next(s, a).responder.RDone?
  {
  }

  lemma {:induction false} RunKeepsAttended(s: State, run: seq<Action>)
    requires Inv(s) && Attended(s) && Legal(s, run)
    ensures Inv(Exec(s, run)) && Attended(Exec(s, run))
    decreases |run|
  {
    if run != [] {
      StepKeepsInv(s, run[0]);
      StepKeepsAttended(s, run[0]);
      RunKeepsAttended(Next(s, run[0]), run[1..]);
    }
  }

  /** No second responder is let in while one is served. */
  lemma NoSecondResponder(s: State, t: Tid, kind: Kind, sock: nat, locked: bool, stale: Message)
    requires Attended(s) && Slots(s) && !s.responder.RDone?
    ensures OnConnect(s, t, kind, sock, locked, stale).responder == s.responder
  {
    var u :| u in s.live && s.live[u].kind == Responder;
    assert s.table.responder == s.live[u].slot;
  }

  lemma WorkerWaits(s: State, a: Action)
    requires Enabled(s, a) && s.worker.WReply? && !a.WorkerReply?
    ensures Next(s, a).worker == s.worker
  {
  }

  lemma ResponderWaits(s: State, a: Action)
    requires Enabled(s, a) && Attended(s) && Slots(s) && s.responder.RReply? && !a.ResponderReply?
    ensures Next(s, a).responder == s.responder
  {
    match a
    case Connect(t, kind, sock, locked, stale) => NoSecondResponder(s, t, kind, sock, locked, stale);
    case Disconnect(t, locked) => DisconnectKeepsAttended(s, t, locked);
    case _ =>
  }

  lemma {:induction false} WorkerReplyWaits(s: State, run: seq<Action>)
    requires Legal(s, run) && s.worker.WReply? && WorkerReply !in run
    ensures Exec(s, run).worker == s.worker
    decreases |run|
  {
    if run != [] {
      WorkerWaits(s, run[0]);
      WorkerReplyWaits(Next(s, run[0]), run[1..]);
    }
  }

  lemma {:induction false} ResponderReplyWaits(s: State, run: seq<Action>)
    requires Inv(s) && Attended(s) && Legal(s, run) && s.responder.RReply? && ResponderReply !in run
    ensures Exec(s, run).responder == s.responder
    decreases |run|
  {
    if run != [] {
      ResponderWaits(s, run[0]);
      StepKeepsInv(s, run[0]);
      StepKeepsAttended(s, run[0]);
      ResponderReplyWaits(Next(s, run[0]), run[1..]);
    }
  }

  /** tail takes the call that is under way in s to its end: the call has stopped the system
      already, or tail ends with its post. */
  ghost predicate Completes(s: State, tail: seq<Action>, post: Action) {
    if s.fault.Some? then tail == []
    else tail != [] && tail[|tail| - 1] == post && post !in tail[..|tail| - 1]
  }

  /** How a call that was to reply r ends: r is the last message of the worker queue, or the
      assert on the post has failed. */
  ghost predicate Replied(s: State, r: Message) {
    if MsgQueue.Postable(r) then s.fault.None? && s.workerQ != [] && s.workerQ[|s.workerQ| - 1] == r
    else s.fault == Some(ReplyPostRejected)
  }

  lemma WorkerReplyEnds(s: State, tail: seq<Action>)
    requires s.fault.None? && s.worker.WReply? && Legal(s, tail) && Completes(s, tail, WorkerReply)
    ensures Replied(Exec(s, tail), s.worker.m)
  {
    var rest := tail[..|tail| - 1];
    assert tail == rest + [WorkerReply];
    LastStep(s, rest, WorkerReply);
    WorkerReplyWaits(s, rest);
  }

  lemma ResponderReplyEnds(s: State, tail: seq<Action>)
    requires Inv(s) && Attended(s) && s.fault.None? && s.responder.RReply?
    requires Legal(s, tail) && Completes(s, tail, ResponderReply)
    ensures Replied(Exec(s, tail), s.responder.m)
  {
    var rest := tail[..|tail| - 1];
    assert tail == rest + [ResponderReply];
    LastStep(s, rest, ResponderReply);
    ResponderReplyWaits(s, rest);
  }

  /** The assert on post_no_responder(m): whether it fails, and on which of its two returns. */
  ghost predicate AssertFailsIff(s: State, m: Message, stale: Message) {
    && (s.fault == Some(CraftRejected) || s.fault == Some(ReplyPostRejected) <==> !RequestMessage(m) || NoReturn(m))
    && (s.fault == Some(CraftRejected) <==> !RequestMessage(m))
    && (RequestMessage(m) && !NoReturn(m) ==>
          && s.fault.None? && s.workerQ != []
          && s.workerQ[|s.workerQ| - 1] == ErrorResponse(m, CC_DEST_UNAVAILABLE, stale))
  }

  lemma RepliedFailsIff(s: State, m: Message, stale: Message)
    requires RequestMessage(m) && Replied(s, ErrorResponse(m, CC_DEST_UNAVAILABLE, stale))
    ensures AssertFailsIff(s, m, stale)
  {
    ReplyPostableIff(m, CC_DEST_UNAVAILABLE, stale);
  }

  /** The worker finds no responder for m. Whatever other threads do until its call of
      post_no_responder is over, the assert on the call fails exactly when m is no valid request
      or the requester's address is odd or 0, and otherwise the reply is queued. */
  lemma NoResponderAssertFailsIff(run: seq<Action>, stale: Message, tail: seq<Action>)
    requires Legal(INIT, run)
    requires var s := Exec(INIT, run); s.fault.None? && s.worker.WForward? && s.table.responder == -1
    requires var t := Next(Exec(INIT, run), WorkerForward(true, stale));
             Legal(t, tail) && Completes(t, tail, WorkerReply)
    ensures AssertFailsIff(Exec(Next(Exec(INIT, run), WorkerForward(true, stale)), tail),
                           Exec(INIT, run).worker.m, stale)
  {
    var s := Exec(INIT, run);
    var t := Next(s, WorkerForward(true, stale));
    if RequestMessage(s.worker.m) {
      WorkerReplyEnds(t, tail);
      RepliedFailsIff(Exec(t, tail), s.worker.m, stale);
    }
  }

  /** The same of the responder thread, when the responder fails on m. */
  lemma LostResponderAssertFailsIff(run: seq<Action>, stale: Message, tail: seq<Action>)
    requires Legal(INIT, run)
    requires var s := Exec(INIT, run); s.fault.None? && s.responder.RHold?
    requires var t := Next(Exec(INIT, run), ResponderFail(stale));
             Legal(t, tail) && Completes(t, tail, ResponderReply)
    ensures AssertFailsIff(Exec(Next(Exec(INIT, run), ResponderFail(stale)), tail),
                           Exec(INIT, run).responder.m, stale)
  {
    var s := Exec(INIT, run);
    var t := Next(s, ResponderFail(stale));
    if RequestMessage(s.responder.m) {
      InitInv();
      RunKeepsAttended(INIT, run);
      StepKeepsInv(s, ResponderFail(stale));
      StepKeepsAttended(s, ResponderFail(stale));
      ResponderReplyEnds(t, tail);
      RepliedFailsIff(Exec(t, tail), s.responder.m, stale);
    }
  }

  /* ----- requests that stop the multiplexer ----- */

  /** Without a responder, a client's valid request to the multiplexer stops it on this schedule
      exactly when the address the client gives as its own is odd or 0. */
  lemma BadRequesterIsFatalIff(s: State, t: Tid, bytes: seq<byte>, stale: Message, stale': Message)
    requires Quiet(s) && t in s.live && s.live[t].kind == Client && s.table.responder == -1
    requires RequestFrame(bytes) && bytes[0] == MUX_ADDR
    ensures var run := [ClientFrame(t, bytes, stale), WorkerGet] + [WorkerRoute(false), WorkerForward(true, stale')]
                       + [WorkerReply];
            && Legal(s, run)
            && (Exec(s, run).fault == Some(ReplyPostRejected) <==> bytes[3] == 0 || bytes[3] % 2 == 1)
  {
    var m := FromStream(bytes, s.live[t].slot, stale);
    var r := ErrorResponse(m, CC_DEST_UNAVAILABLE, stale');
    var p1 := [ClientFrame(t, bytes, stale), WorkerGet];
    var p2 := [WorkerRoute(false), WorkerForward(true, stale')];
    var s1, s2 := s.(worker := WRoute(m)), Pending(s, m).(worker := WReply(r));
    ValidatorsAgree(bytes, s.live[t].slot, stale);
    FrameArrives(s, t, bytes, stale);
    assert Leads(s1, p2, s2) by { Two(s1, WorkerRoute(false), WorkerForward(true, stale')); }
    Then(s, p1, s1, p2, s2);
    EndsWith(s, p1 + p2, s2, WorkerReply);
    ReplyPostableIff(m, CC_DEST_UNAVAILABLE, stale');
  }

  /** With a responder that fails on the request, likewise. */
  lemma BadRequesterIsFatalToResponderIff(s: State, t: Tid, bytes: seq<byte>, stale: Message, stale': Message)
    requires Quiet(s) && t in s.live && s.live[t].kind == Client && s.table.responder != -1 && s.responder.RIdle?
    requires RequestFrame(bytes) && bytes[0] == MUX_ADDR
    ensures var run := [ClientFrame(t, bytes, stale), WorkerGet] + [WorkerRoute(false), WorkerForward(true, stale')]
                       + [ResponderGet, ResponderFail(stale')] + [ResponderReply];
            && Legal(s, run)
            && (Exec(s, run).fault == Some(ReplyPostRejected) <==> bytes[3] == 0 || bytes[3] % 2 == 1)
  {
    var m := FromStream(bytes, s.live[t].slot, stale);
    var r := ErrorResponse(m, CC_DEST_UNAVAILABLE, stale');
    var p1 := [ClientFrame(t, bytes, stale), WorkerGet];
    var p2 := [WorkerRoute(false), WorkerForward(true, stale')];
    var p3 := [ResponderGet, ResponderFail(stale')];
    var s1, s2 := s.(worker := WRoute(m)), Pending(s, m).(responderQ := [m]);
    var s3 := Pending(s, m).(responder := RReply(r));
    ValidatorsAgree(bytes, s.live[t].slot, stale);
    FrameArrives(s, t, bytes, stale);
    RequestReachesResponder(s, m, stale');
    Then(s, p1, s1, p2, s2);
    assert Leads(s2, p3, s3) by { Two(s2, ResponderGet, ResponderFail(stale')); }
    Then(s, p1 + p2, s2, p3, s3);
    EndsWith(s, p1 + p2 + p3, s3, ResponderReply);
    ReplyPostableIff(m, CC_DEST_UNAVAILABLE, stale');
  }

  lemma EndsWith(s: State, run: seq<Action>, t: State, a: Action)
    requires Leads(s, run, t) && Enabled(t, a)
    ensures Leads(s, run + [a], Next(t, a))
  {
    Stays(Next(t, a));
    StepThen(t, a, [], Next(t, a));
    assert [a] + [] == [a];
    Then(s, run, t, [a], Next(t, a));
  }
}
