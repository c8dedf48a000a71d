/**
 What the multiplexer guarantees over every run, whatever clients, responder and bus do.
 */
module MuxTheorems {
  import opened Ipmb
  import opened Options
  import opened BrokerSpec
  import opened SlotTable
  import opened Mux
  import opened MuxHistory
  import opened MuxInvariants
  import MsgQueue

  /* ----- traffic ----- */

  /** Any message in any queue has a length of 1 to 128 and an even, non-zero address, so the
      bytes written for it fit a 129-byte socket buffer, and no queue exceeds its size. */
  lemma EveryQueuedMessageFits(run: seq<Action>, m: Message)
    requires Legal(INIT, run)
    requires var s := Exec(INIT, run);
             m in s.workerQ || m in s.responderQ || m in s.clientQ || m in s.senderQ
    ensures 1 <= m.length <= MAX_IPMB_PKT_SIZE && m.dst != 0 && m.dst % 2 == 0
    ensures |Wire(m)| <= MAX_IPMB_PKT_SIZE + 1
  {
    InitInv();
    RunKeepsInv(INIT, run);
  }

  /** The asserts on queue posts by the worker, on the length of a response and on the owner
      of a slot being released never fail. */
  lemma AssertsThatNeverFail(run: seq<Action>)
    requires Legal(INIT, run) && Exec(INIT, run).fault.Some?
    ensures var f := Exec(INIT, run).fault.value;
            !f.WorkerPostRejected? && !f.LongMessage? && !f.WrongOwner?
  {
    InitInv();
    RunKeepsInv(INIT, run);
  }

  /* ----- slots ----- */

  /** Live connections hold distinct slots, at most one of them is the responder, the responder
      index is -1 or a reserved slot, and a slot's id and socket are vacant together. */
  lemma SlotsAreExclusive(run: seq<Action>)
    requires Legal(INIT, run)
    ensures var s := Exec(INIT, run);
            && (forall t, u :: t in s.live && u in s.live && t != u ==>
                  s.live[t].slot != s.live[u].slot && !(s.live[t].kind == s.live[u].kind == Responder))
            && Consistent(s.table)
  {
    InitInv();
    RunKeepsInv(INIT, run);
  }

  /* ----- requests and responses ----- */

  /** Every request posted under r was taken by a response, dropped when its slot was released,
      or still waits in the broker, and never two of these; so no slot is ever sent more
      responses than requests were posted under it. */
  lemma RequestsAreConserved(run: seq<Action>, r: nat)
    requires Legal(INIT, run) && r < SLOTS
    ensures var s := Exec(INIT, run);
            var h := s.history;
            var posted := |set i: nat | i < |h| && h[i].req.resource == r|;
            var taken := |set i: nat | i < |h| && h[i].req.resource == r && Taken(h[i].fate)|;
            var dropped := |set i: nat | i < |h| && h[i].req.resource == r && h[i].fate.Dropped?|;
            var waiting := |set i: nat | i < |s.broker| && s.broker[i].resource == r|;
            && posted == taken + dropped + waiting
            && |s.sent| == SLOTS && s.sent[r] <= taken <= posted
  {
    InitInv();
    RunKeepsInv(INIT, run);
    var s := Exec(INIT, run);
    Conservation(s.history, r);
    CountsAreSizes(s.history, s.broker, r);
  }

  /** Every request that ever waited, and every one still waiting, is valid. Whatever was
      taken for an answer is a response that agrees with its request on address, function and
      command, and it was addressed to the multiplexer exactly when the request had come from
      a socket: no request from the bus is ever settled by a response meant for a client, nor
      the other way round. */
  lemma AnswersFitTheirRequests(run: seq<Action>)
    requires Legal(INIT, run)
    ensures var s := Exec(INIT, run);
            && (forall m :: m in s.broker ==> RequestMessage(m))
            && (forall rec :: rec in s.history ==> RequestMessage(rec.req))
            && (forall rec :: rec in s.history && Taken(rec.fate) ==>
                  && Fuzzy(rec.req, rec.fate.resp) && IsResponse(rec.fate.resp)
                  && (rec.req.resource == I2C_RESOURCE <==> rec.fate.resp.dst != MUX_ADDR))
  {
    InitInv();
    RunKeepsInv(INIT, run);
    var s := Exec(INIT, run);
    assert forall rec :: rec in s.history ==> WellRecorded(rec);
    forall m | m in s.broker ensures RequestMessage(m) {
      OutstandingMember(s.history, m);
    }
  }

  /** What may become of records from one state to a later one: none is lost or rewritten,
      and a settled one only goes from matched to delivered, with the same response. */
  ghost predicate Settles(g: seq<Record>, h: seq<Record>) {
    && |g| <= |h|
    && forall i :: 0 <= i < |g| ==>
         && h[i].req == g[i].req
         && (g[i].fate.Outstanding? || h[i].fate == g[i].fate
             || (g[i].fate.Matched? && h[i].fate == Delivered(g[i].fate.resp)))
  }

  lemma TakeSettles(s: State, m: Message)
    requires Books(s) && m.dst != MUX_ADDR && IsResponse(m)
    ensures Settles(s.history, TakeI2c(s, m).history)
  {
    match Match(s.broker, m, true)
    case None =>
    case Some(k) => MarryKeepsBooks(s, k, m);
  }

  lemma RouteSettles(s: State, m: Message, outOfMemory: bool)
    requires Books(s)
    ensures Settles(s.history, Route(s, m, outOfMemory).history)
  {
    RouteCases(s, m, outOfMemory);
    if m.dst != MUX_ADDR && IsResponse(m) {
      TakeSettles(s, m);
    }
  }

  lemma MatchSettles(s: State, k: nat, m: Message)
    requires Books(s) && ForClients(m)
    ensures Settles(s.history, OnMatch(s, k, m).history)
  {
    match Match(s.broker, m, false)
    case None =>
    case Some(j) => MarryKeepsBooks(s, j, m);
  }

  lemma SendSettles(s: State, k: nat, locked: bool, ok: bool)
    requires Books(s) && k < SLOTS && s.deliverers[k].DSend?
    ensures Settles(s.history, OnSend(s, k, s.deliverers[k], locked, ok).history)
  {
  }

  lemma DisconnectSettles(s: State, t: Tid, locked: bool)
    requires t in s.live
    ensures Settles(s.history, OnDisconnect(s, t, locked).history)
  {
  }

  lemma DelivererStepSettles(s: State, a: Action)
    requires Books(s) && DeliverersHold(s.deliverers) && Enabled(s, a) && (a.DelivererMatch? || a.DelivererSend?)
    ensures Settles(s.history, Next(s, a).history)
  {
    match a
    case DelivererMatch(k) => MatchSettles(s, k, s.deliverers[k].m);
    case DelivererSend(k, locked, ok) => SendSettles(s, k, locked, ok);
  }

  lemma StepSettles(s: State, a: Action)
    requires Inv(s) && Enabled(s, a)
    ensures Settles(s.history, Next(s, a).history)
  {
    if a.DelivererMatch? || a.DelivererSend? {
      DelivererStepSettles(s, a);
    } else {
      match a
      case WorkerRoute(outOfMemory) => RouteSettles(s, s.worker.m, outOfMemory);
      case Disconnect(t, locked) => DisconnectSettles(s, t, locked);
      case _ => OtherStepsKeepBooks(s, a);
    }
  }

  /** No request is ever answered twice, or answered after it was dropped. */
  lemma {:induction false} FatesAreFinal(s: State, run: seq<Action>)
    requires Inv(s) && Legal(s, run)
    ensures Settles(s.history, Exec(s, run).history)
    decreases |run|
  {
    if run != [] {
      StepSettles(s, run[0]);
      StepKeepsInv(s, run[0]);
      FatesAreFinal(Next(s, run[0]), run[1..]);
    }
  }

  /** What matching does once the search has found the i-th request. */
  lemma MatchTakes(s: State, k: nat, m: Message, i: nat)
    requires Books(s) && k < SLOTS && ForClients(m) && Match(s.broker, m, false) == Some(i)
    ensures var t := OnMatch(s, k, m);
            var n := SerialOf(s.history, i);
            && t.broker == RemoveAt(s.broker, i)
            && |t.deliverers| == SLOTS && t.deliverers[k] == DSend(s.broker[i].resource, n, m)
            && n < |t.history| && t.history[n] == Record(s.broker[i], Matched(m))
  {
    MarryKeepsBooks(s, i, m);
  }

  /** Waiting requests of one origin can be told apart by their keys. */
  ghost predicate DistinctKeys(reqs: seq<Message>, i2c: bool) {
    forall a, b :: 0 <= a < b < |reqs| && SameOrigin(reqs[a], i2c) && SameOrigin(reqs[b], i2c)
                   ==> KeyOf(reqs[a]) != KeyOf(reqs[b])
  }

  lemma EchoIsTaken(s: State, k: nat, i: nat)
    requires Inv(s) && s.fault.None? && k < SLOTS && s.deliverers[k].DHold? && i < |s.broker|
    requires SameOrigin(s.broker[i], false) && EchoedKey(s.deliverers[k].m) == KeyOf(s.broker[i])
    requires DistinctKeys(s.broker, false)
    ensures var t := Next(s, DelivererMatch(k));
            var n := SerialOf(s.history, i);
            && t.broker == RemoveAt(s.broker, i)
            && |t.deliverers| == SLOTS && t.deliverers[k] == DSend(s.broker[i].resource, n, s.deliverers[k].m)
            && n < |t.history| && t.history[n] == Record(s.broker[i], Matched(s.deliverers[k].m))
  {
    DistinctKeysReachRequester(s.broker, s.deliverers[k].m, false, i);
    MatchTakes(s, k, s.deliverers[k].m, i);
  }

  /** In every reachable state whose waiting socket requests have distinct keys, a response
      that echoes the key of one is sent to the slot that posted it. */
  lemma EchoReachesItsSlot(run: seq<Action>, k: nat, i: nat)
    requires Legal(INIT, run)
    requires var s := Exec(INIT, run);
             && s.fault.None? && k < |s.deliverers| && s.deliverers[k].DHold? && i < |s.broker|
             && SameOrigin(s.broker[i], false) && EchoedKey(s.deliverers[k].m) == KeyOf(s.broker[i])
             && DistinctKeys(s.broker, false)
    ensures var s := Exec(INIT, run);
            var t := Next(s, DelivererMatch(k));
            var n := SerialOf(s.history, i);
            && t.broker == RemoveAt(s.broker, i)
            && |t.deliverers| == SLOTS && t.deliverers[k] == DSend(s.broker[i].resource, n, s.deliverers[k].m)
            && n < |t.history| && t.history[n] == Record(s.broker[i], Matched(s.deliverers[k].m))
  {
    InitInv();
    RunKeepsInv(INIT, run);
    EchoIsTaken(Exec(INIT, run), k, i);
  }

  /* ----- error replies ----- */

  /** The search the worker's routing of reply r leads to: by the client responders when it
      is addressed to the multiplexer, else by the worker among the I2C requests. */
  function ReplyMatch(reqs: seq<Message>, r: Message): Option<nat> {
    Match(reqs, r, !RoutesToClientQ(r))
  }

  ghost predicate ComesHome(reqs: seq<Message>, m: Message, r: Message) {
    && MsgQueue.Postable(r)
    && ReplyMatch(reqs, r).Some?
    && var found := reqs[ReplyMatch(reqs, r).value];
       KeyOf(found) == KeyOf(m) && (found.resource == I2C_RESOURCE <==> m.resource == I2C_RESOURCE)
  }

  /** The error reply to a waiting request takes a request of the same key and origin off the
      broker exactly when the requester gave an even, non-zero address that is the
      multiplexer's own for socket requests and not for I2C requests. */
  lemma ErrorReplyComesHomeIff(reqs: seq<Message>, i: nat, cc: byte, stale: Message)
    requires i < |reqs| && RequestMessage(reqs[i])
    ensures var m := reqs[i];
            ComesHome(reqs, m, ErrorResponse(m, cc, stale)) <==>
              && PeerAddr(m) != 0 && PeerAddr(m) % 2 == 0
              && (m.resource == I2C_RESOURCE <==> PeerAddr(m) != MUX_ADDR)
  {
    var m := reqs[i];
    var r := ErrorResponse(m, cc, stale);
    ErrorResponseEchoes(m, cc, stale);
    assert EchoedKey(r) == KeyOf(m);
    var i2c := !RoutesToClientQ(r);
    assert i2c <==> PeerAddr(m) != MUX_ADDR;
    if SameOrigin(m, i2c) {
      EchoMatchedExactly(reqs, r, i2c, i);
    }
  }

  /** On its way through the worker such a reply settles the I2C request and goes out on the
      bus, or reaches the client queue. */
  lemma ErrorReplyIsRouted(s: State, i: nat, cc: byte, stale: Message)
    requires Inv(s) && i < |s.broker|
    requires var m := s.broker[i];
             && PeerAddr(m) != 0 && PeerAddr(m) % 2 == 0
             && (m.resource == I2C_RESOURCE <==> PeerAddr(m) != MUX_ADDR)
    ensures var m := s.broker[i];
            var r := ErrorResponse(m, cc, stale);
            var t := Route(s, r, false);
            if m.resource == I2C_RESOURCE
            then && ReplyMatch(s.broker, r).Some?
                 && var k := ReplyMatch(s.broker, r).value;
                    && KeyOf(s.broker[k]) == KeyOf(m) && s.broker[k].resource == I2C_RESOURCE
                    && t.broker == RemoveAt(s.broker, k) && t.worker == WSend(r)
            else t.clientQ == s.clientQ + [r] && t.broker == s.broker && t.worker == WIdle
  {
    OutstandingMember(s.history, s.broker[i]);
    ErrorReplyComesHomeIff(s.broker, i, cc, stale);
    ErrorResponseEchoes(s.broker[i], cc, stale);
  }

  /** The client-responder thread that takes the reply up, at whatever later time, takes a
      socket request of the same key off the broker and will send the reply to its slot, as
      long as the request still waits. */
  lemma ErrorReplyIsMarried(s: State, i: nat, cc: byte, stale: Message, d: nat)
    requires Inv(s) && i < |s.broker|
    requires s.broker[i].resource != I2C_RESOURCE && PeerAddr(s.broker[i]) == MUX_ADDR && d < SLOTS
    ensures var r := ErrorResponse(s.broker[i], cc, stale);
            var t := OnMatch(s, d, r);
            && Match(s.broker, r, false).Some?
            && var k := Match(s.broker, r, false).value;
               && k <= i && KeyOf(s.broker[k]) == KeyOf(s.broker[i]) && s.broker[k].resource != I2C_RESOURCE
               && t.broker == RemoveAt(s.broker, k)
               && |t.deliverers| == SLOTS
               && t.deliverers[d] == DSend(s.broker[k].resource, SerialOf(s.history, k), r)
  {
    var r := ErrorResponse(s.broker[i], cc, stale);
    OutstandingMember(s.history, s.broker[i]);
    ErrorResponseEchoes(s.broker[i], cc, stale);
    EchoMatchedExactly(s.broker, r, false, i);
    MatchTakes(s, d, r, Match(s.broker, r, false).value);
  }
}
