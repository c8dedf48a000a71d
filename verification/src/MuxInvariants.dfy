/**
 What every step of the multiplexer keeps, and so what holds in every state of every run.
 */
module MuxInvariants {
  import opened Ipmb
  import opened Options
  import opened BrokerSpec
  import opened SlotTable
  import opened Mux
  import opened MuxHistory
  import opened Search

  /* ----- messages and queues ----- */

  /** A message fit for any queue and any 129-byte socket buffer. */
  predicate Sound(m: Message) {
    && 1 <= m.length <= MAX_IPMB_PKT_SIZE
    && m.dst != 0 && m.dst % 2 == 0
    && PING_RESOURCE <= m.resource < SLOTS
  }

  ghost predicate Queue(q: seq<Message>, size: nat) {
    |q| <= size && forall i :: 0 <= i < |q| ==> Sound(q[i])
  }

  /** What a client-responder thread may take up: a response addressed to the multiplexer. */
  predicate ForClients(m: Message) {
    Sound(m) && RoutesToClientQ(m)
  }

  ghost predicate ClientQueue(q: seq<Message>) {
    |q| <= CLIENT_QUEUE_SIZ && forall i :: 0 <= i < |q| ==> ForClients(q[i])
  }

  /** A message on its way to the responder. Only answers to pings get there without having
      passed the validator. */
  predicate Asked(m: Message) {
    Sound(m) && (m.resource == PING_RESOURCE || RequestMessage(m))
  }

  ghost predicate ResponderQueue(q: seq<Message>) {
    |q| <= RESPONDER_QUEUE_SIZ && forall i :: 0 <= i < |q| ==> Asked(q[i])
  }

  /** The reply post_no_responder makes to a valid request. */
  ghost predicate IsReply(r: Message) {
    exists m, stale ::
      RequestMessage(m) && PING_RESOURCE <= m.resource < SLOTS && r == ErrorResponse(m, CC_DEST_UNAVAILABLE, stale)
  }

  lemma ReplyShape(r: Message)
    requires IsReply(r)
    ensures r.length == 7 && PING_RESOURCE <= r.resource < SLOTS && IsResponse(r)
  {
    var m, stale :|
      RequestMessage(m) && PING_RESOURCE <= m.resource < SLOTS && r == ErrorResponse(m, CC_DEST_UNAVAILABLE, stale);
    ErrorResponseEchoes(m, CC_DEST_UNAVAILABLE, stale);
  }

  ghost predicate WorkerHolds(w: Worker) {
    match w
    case WIdle => true
    case WReply(m) => IsReply(m)
    case WRoute(m) => Sound(m)
    case WForward(m) => Asked(m)
    case WSend(m) => Sound(m)
  }

  ghost predicate ResponderHolds(r: ResponderThread) {
    (r.RHold? ==> Asked(r.m)) && (r.RReply? ==> IsReply(r.m))
  }

  ghost predicate DeliverersHold(ds: seq<Deliverer>) {
    |ds| == SLOTS && forall k :: 0 <= k < SLOTS && !ds[k].DIdle? ==> ForClients(ds[k].m)
  }

  /** Every queue is within its size, every message in a queue or in a thread's hands is
      sound, and each sits where its kind may be. */
  ghost predicate Traffic(s: State) {
    && Queue(s.workerQ, WORKER_QUEUE_SIZ)
    && Queue(s.senderQ, SENDER_QUEUE_SIZ)
    && ResponderQueue(s.responderQ)
    && ClientQueue(s.clientQ)
    && WorkerHolds(s.worker)
    && ResponderHolds(s.responder)
    && (s.sender.SHold? ==> Sound(s.sender.m))
    && DeliverersHold(s.deliverers)
  }

  /* ----- slots ----- */

  /** Every live connection owns its slot, so no two share one, and the slot the table names as
      the responder's is a responder's. */
  ghost predicate Slots(s: State) {
    && Consistent(s.table)
    && (forall t :: t in s.live ==> && s.live[t].slot < SLOTS
                                    && s.table.slots[s.live[t].slot].id == t
                                    && (s.live[t].kind == Responder <==> s.table.responder == s.live[t].slot))
  }

  /* ----- requests ----- */

  /** resp is a response to req by address, function and command, and went the way of req's
      origin: out on the bus for requests from the bus, to the multiplexer for all others. */
  predicate Answers(resp: Message, req: Message) {
    Fuzzy(req, resp) && IsResponse(resp) && (req.resource == I2C_RESOURCE <==> resp.dst != MUX_ADDR)
  }

  predicate WellRecorded(r: Record) {
    && RequestMessage(r.req) && PING_RESOURCE <= r.req.resource < SLOTS
    && (Taken(r.fate) ==> Answers(r.fate.resp, r.req))
  }

  ghost predicate Recorded(h: seq<Record>) {
    forall i :: 0 <= i < |h| ==> WellRecorded(h[i])
  }

  ghost predicate SentHolds(h: seq<Record>, sent: seq<nat>) {
    |sent| == SLOTS && forall r :: 0 <= r < SLOTS ==> sent[r] == DeliveredCount(h, r)
  }

  /** A thread about to send holds a request it alone has married to its message. */
  ghost predicate Marriages(ds: seq<Deliverer>, h: seq<Record>) {
    && |ds| == SLOTS
    && (forall k :: 0 <= k < SLOTS && ds[k].DSend? ==>
          && ds[k].serial < |h| && h[ds[k].serial].fate == Matched(ds[k].m)
          && h[ds[k].serial].req.resource == ds[k].slot != I2C_RESOURCE)
    && (forall j, k :: 0 <= j < k < SLOTS && ds[j].DSend? && ds[k].DSend? ==> ds[j].serial != ds[k].serial)
  }

  ghost predicate Books(s: State) {
    && s.broker == OutstandingIn(s.history)
    && Recorded(s.history)
    && SentHolds(s.history, s.sent)
    && Marriages(s.deliverers, s.history)
  }

  /** Asserts of the C code that never fail. */
  ghost predicate NeverFaults(s: State) {
    s.fault.Some? ==> !s.fault.value.WorkerPostRejected? && !s.fault.value.LongMessage? && !s.fault.value.WrongOwner?
  }

  ghost predicate Inv(s: State) {
    Traffic(s) && Slots(s) && Books(s) && NeverFaults(s)
  }

  /* ----- one step at a time ----- */

  lemma InitInv()
    ensures Inv(INIT)
  {
  }

  lemma PingIsRequest(seqNum: byte, stale: Message)
    ensures var p := Ping(seqNum, stale);
            RequestMessage(p) && Sound(p) && p.resource == PING_RESOURCE && p.dst == MUX_ADDR
  {
    ChecksumMakesRequest(Packet(PING_RESOURCE, 6, MUX_ADDR, [0x19, 0, 0x30, seqNum, 1, 0] + stale.data[6..]));
  }

  lemma ClientStepKeepsTraffic(s: State, a: Action)
    requires Traffic(s) && Slots(s) && Enabled(s, a)
    requires a.Connect? || a.Disconnect? || a.ClientFrame? || a.I2cFrame?
    ensures Traffic(Next(s, a))
  {
    match a
    case Connect(t, kind, sock, locked, stale) => PingIsRequest(s.pingSeq, stale);
    case _ =>
  }

  lemma RouteKeepsTraffic(s: State, m: Message, outOfMemory: bool)
    requires Traffic(s) && Sound(m) && (RoutesToClientQ(m) ==> RoomFor(m, s.clientQ, CLIENT_QUEUE_SIZ))
    ensures Traffic(Route(s, m, outOfMemory))
  {
  }

  lemma ForwardKeepsTraffic(s: State, m: Message, locked: bool, stale: Message)
    requires Traffic(s) && Asked(m)
    requires locked && s.table.responder != -1 ==> RoomFor(m, s.responderQ, RESPONDER_QUEUE_SIZ)
    ensures Traffic(Forward(s, m, locked, stale))
  {
  }

  lemma WorkerStepKeepsTraffic(s: State, a: Action)
    requires Traffic(s) && Enabled(s, a)
    requires a.WorkerGet? || a.WorkerRoute? || a.WorkerForward? || a.WorkerReply? || a.WorkerSend?
    ensures Traffic(Next(s, a))
  {
    match a
    case WorkerRoute(outOfMemory) => RouteKeepsTraffic(s, s.worker.m, outOfMemory);
    case WorkerForward(locked, stale) => ForwardKeepsTraffic(s, s.worker.m, locked, stale);
    case WorkerReply => ReplyShape(s.worker.m);
    case _ =>
  }

  lemma ResponderStepKeepsTraffic(s: State, a: Action)
    requires Traffic(s) && Enabled(s, a)
    requires a.ResponderGet? || a.ResponderAnswer? || a.ResponderFail? || a.ResponderReply? || a.ResponderQuit?
    ensures Traffic(Next(s, a))
  {
    if a.ResponderReply? {
      ReplyShape(s.responder.m);
    }
  }

  lemma DelivererStepKeepsTraffic(s: State, a: Action)
    requires Traffic(s) && Enabled(s, a)
    requires a.DelivererGet? || a.DelivererMatch? || a.DelivererSend?
    ensures Traffic(Next(s, a))
  {
  }

  lemma SenderStepKeepsTraffic(s: State, a: Action)
    requires Traffic(s) && Enabled(s, a)
    requires a.SenderGet? || a.SenderWrote? || a.SenderFailed?
    ensures Traffic(Next(s, a))
  {
  }

  lemma ConnectKeepsSlots(s: State, t: Tid, kind: Kind, sock: nat, locked: bool, stale: Message)
    requires Slots(s) && t !in s.live
    ensures Slots(OnConnect(s, t, kind, sock, locked, stale))
  {
    ReserveKeepsConsistent(s.table, kind, t, sock);
  }

  lemma DisconnectKeepsSlots(s: State, t: Tid, locked: bool)
    requires Slots(s) && t in s.live
    ensures Slots(OnDisconnect(s, t, locked)) && OnDisconnect(s, t, locked).fault == s.fault
  {
    var k := s.live[t].slot;
    assert forall u :: u in s.live && u != t ==> s.live[u].slot != k;
    assert Consistent(Release(s.table, k));
  }

  lemma OtherStepsKeepTable(s: State, a: Action)
    requires Enabled(s, a) && !a.Connect? && !a.Disconnect?
    ensures Next(s, a).table == s.table && Next(s, a).live == s.live
  {
  }

  lemma StepKeepsSlots(s: State, a: Action)
    requires Slots(s) && Enabled(s, a)
    ensures Slots(Next(s, a))
  {
    match a
    case Connect(t, kind, sock, locked, stale) => ConnectKeepsSlots(s, t, kind, sock, locked, stale);
    case Disconnect(t, locked) => DisconnectKeepsSlots(s, t, locked);
    case _ => OtherStepsKeepTable(s, a);
  }

  lemma SentAfterSet(h: seq<Record>, n: nat, f: Fate, sent: seq<nat>)
    requires SentHolds(h, sent) && n < |h| && !h[n].fate.Delivered?
    ensures f.Delivered? && 0 <= h[n].req.resource < SLOTS ==>
              var r := h[n].req.resource; SentHolds(SetFate(h, n, f), sent[r := sent[r] + 1])
    ensures !f.Delivered? ==> SentHolds(SetFate(h, n, f), sent)
  {
    forall r | 0 <= r < SLOTS
      ensures DeliveredCount(SetFate(h, n, f), r) == DeliveredCount(h, r) + One(f.Delivered? && h[n].req.resource == r)
    {
      DeliveredSet(h, n, f, r);
    }
  }

  lemma SentAfterPost(h: seq<Record>, m: Message, sent: seq<nat>)
    requires SentHolds(h, sent)
    ensures SentHolds(h + [Record(m, Outstanding)], sent)
  {
    forall r | 0 <= r < SLOTS
      ensures DeliveredCount(h + [Record(m, Outstanding)], r) == DeliveredCount(h, r)
    {
      DeliveredAppend(h, m, r);
    }
  }

  lemma RecordsAfterPost(h: seq<Record>, m: Message, ds: seq<Deliverer>)
    requires Recorded(h) && Marriages(ds, h)
    requires RequestMessage(m) && PING_RESOURCE <= m.resource < SLOTS
    ensures var g := h + [Record(m, Outstanding)];
            Recorded(g) && Marriages(ds, g)
  {
    var g := h + [Record(m, Outstanding)];
    assert forall i :: 0 <= i < |h| ==> g[i] == h[i];
  }

  lemma PostKeepsBooks(s: State, m: Message, outOfMemory: bool)
    requires Books(s) && PING_RESOURCE <= m.resource < SLOTS
    ensures Books(PostRequest(s, m, outOfMemory))
  {
    if RequestMessage(m) {
      OutstandingAppend(s.history, m);
      SentAfterPost(s.history, m, s.sent);
      RecordsAfterPost(s.history, m, s.deliverers);
    }
  }

  lemma RecordsAfterMatch(h: seq<Record>, n: nat, resp: Message, ds: seq<Deliverer>)
    requires Recorded(h) && Marriages(ds, h)
    requires n < |h| && h[n].fate.Outstanding? && Answers(resp, h[n].req)
    ensures var g := SetFate(h, n, Matched(resp));
            Recorded(g) && Marriages(ds, g)
  {
  }

  /** Marrying the k-th outstanding request settles exactly that record. */
  lemma MarryKeepsBooks(s: State, k: nat, resp: Message)
    requires Books(s) && k < |s.broker| && Answers(resp, s.broker[k])
    ensures Books(Marry(s, k, resp))
    ensures var n := SerialOf(s.history, k);
            && n < |s.history| && s.history[n] == Record(s.broker[k], Outstanding)
            && Marry(s, k, resp).history[n] == Record(s.broker[k], Matched(resp))
  {
    var n := SerialOf(s.history, k);
    SettleRemoves(s.history, k, Matched(resp));
    SentAfterSet(s.history, n, Matched(resp), s.sent);
    RecordsAfterMatch(s.history, n, resp, s.deliverers);
  }

  ghost predicate SameBooks(s: State, t: State) {
    && t.broker == s.broker && t.history == s.history && t.sent == s.sent
    && t.deliverers == s.deliverers
  }

  /** Routing leaves the broker alone, posts the message, or marries it to an I2C request. */
  lemma RouteCases(s: State, m: Message, outOfMemory: bool)
    ensures var t := Route(s, m, outOfMemory);
            || SameBooks(s, t)
            || (SameBooks(PostRequest(s, m, outOfMemory), t)
                && (m.resource == PING_RESOURCE ==> m.dst != MUX_ADDR))
            || (SameBooks(TakeI2c(s, m), t) && m.dst != MUX_ADDR && IsResponse(m))
  {
  }

  lemma TakeKeepsBooks(s: State, m: Message)
    requires Books(s) && m.dst != MUX_ADDR && IsResponse(m)
    ensures Books(TakeI2c(s, m))
  {
    match Match(s.broker, m, true)
    case None =>
    case Some(k) => MarryKeepsBooks(s, k, m);
  }

  lemma RouteKeepsBooks(s: State, m: Message, outOfMemory: bool)
    requires Books(s) && Sound(m)
    ensures Books(Route(s, m, outOfMemory))
  {
    RouteCases(s, m, outOfMemory);
    PostKeepsBooks(s, m, outOfMemory);
    if m.dst != MUX_ADDR && IsResponse(m) {
      TakeKeepsBooks(s, m);
    }
  }

  lemma SentAfterDrop(h: seq<Record>, q: int, sent: seq<nat>)
    requires SentHolds(h, sent)
    ensures SentHolds(DropResource(h, q), sent)
  {
    forall r | 0 <= r < SLOTS ensures DeliveredCount(DropResource(h, q), r) == DeliveredCount(h, r) {
      DeliveredDrop(h, q, r);
    }
  }

  lemma RecordsAfterDrop(h: seq<Record>, q: nat, ds: seq<Deliverer>)
    requires Recorded(h) && Marriages(ds, h) && q < SLOTS
    ensures var g := DropResource(h, q);
            Recorded(g) && Marriages(ds, g)
  {
  }

  lemma DisconnectKeepsBooks(s: State, t: Tid, locked: bool)
    requires Books(s) && Slots(s) && t in s.live
    ensures Books(OnDisconnect(s, t, locked))
  {
    var q := s.live[t].slot;
    DropIsFlush(s.history, q);
    SentAfterDrop(s.history, q, s.sent);
    RecordsAfterDrop(s.history, q, s.deliverers);
  }

  lemma MatchKeepsBooks(s: State, k: nat, m: Message)
    requires Books(s) && k < SLOTS && ForClients(m)
    ensures Books(OnMatch(s, k, m))
  {
    match Match(s.broker, m, false)
    case None =>
    case Some(j) =>
      MarryKeepsBooks(s, j, m);
      OneMoreMarriage(s.deliverers, s.history, k, SerialOf(s.history, j), s.broker[j], m);
  }

  /** A thread that marries an outstanding request is the only one to hold it. */
  lemma OneMoreMarriage(ds: seq<Deliverer>, h: seq<Record>, k: nat, n: nat, req: Message, m: Message)
    requires Marriages(ds, h) && k < SLOTS && n < |h| && h[n] == Record(req, Outstanding)
    requires req.resource != I2C_RESOURCE
    ensures Marriages(ds[k := DSend(req.resource, n, m)], SetFate(h, n, Matched(m)))
  {
  }

  lemma RecordsAfterSend(h: seq<Record>, ds: seq<Deliverer>, k: nat)
    requires Recorded(h) && Marriages(ds, h)
    requires k < SLOTS && ds[k].DSend?
    ensures var g := SetFate(h, ds[k].serial, Delivered(ds[k].m));
            Recorded(g) && Marriages(ds[k := DIdle], g)
  {
  }

  lemma SendKeepsBooks(s: State, k: nat, locked: bool, ok: bool)
    requires Books(s) && Slots(s) && k < SLOTS && s.deliverers[k].DSend?
    ensures Books(OnSend(s, k, s.deliverers[k], locked, ok))
  {
    var d := s.deliverers[k];
    SettledLeavesOutstanding(s.history, d.serial, Delivered(d.m));
    SentAfterSet(s.history, d.serial, Delivered(d.m), s.sent);
    RecordsAfterSend(s.history, s.deliverers, k);
  }

  /** All other steps leave the broker and the records alone. */
  lemma OtherStepsKeepBooks(s: State, a: Action)
    requires Enabled(s, a)
    requires !a.WorkerRoute? && !a.Disconnect? && !a.DelivererMatch? && !a.DelivererSend?
    ensures var t := Next(s, a);
            t.history == s.history && t.broker == s.broker && t.sent == s.sent
    ensures a.DelivererGet? || Next(s, a).deliverers == s.deliverers
  {
  }

  lemma DelivererStepKeepsBooks(s: State, a: Action)
    requires Books(s) && Slots(s) && DeliverersHold(s.deliverers) && Enabled(s, a)
    requires a.DelivererGet? || a.DelivererMatch? || a.DelivererSend?
    ensures Books(Next(s, a))
  {
    match a
    case DelivererMatch(k) => MatchKeepsBooks(s, k, s.deliverers[k].m);
    case DelivererSend(k, locked, ok) => SendKeepsBooks(s, k, locked, ok);
    case DelivererGet(k) =>
  }

  lemma StepKeepsBooks(s: State, a: Action)
    requires Inv(s) && Enabled(s, a)
    ensures Books(Next(s, a))
  {
    if a.DelivererGet? || a.DelivererMatch? || a.DelivererSend? {
      DelivererStepKeepsBooks(s, a);
    } else {
      match a
      case WorkerRoute(outOfMemory) => RouteKeepsBooks(s, s.worker.m, outOfMemory);
      case Disconnect(t, locked) => DisconnectKeepsBooks(s, t, locked);
      case _ => OtherStepsKeepBooks(s, a);
    }
  }

  lemma StepKeepsTraffic(s: State, a: Action)
    requires Traffic(s) && Slots(s) && Enabled(s, a)
    ensures Traffic(Next(s, a))
  {
    if a.Connect? || a.Disconnect? || a.ClientFrame? || a.I2cFrame? {
      ClientStepKeepsTraffic(s, a);
    } else if a.ResponderGet? || a.ResponderAnswer? || a.ResponderFail? || a.ResponderReply? || a.ResponderQuit? {
      ResponderStepKeepsTraffic(s, a);
    } else if a.DelivererGet? || a.DelivererMatch? || a.DelivererSend? {
      DelivererStepKeepsTraffic(s, a);
    } else if a.SenderGet? || a.SenderWrote? || a.SenderFailed? {
      SenderStepKeepsTraffic(s, a);
    } else {
      WorkerStepKeepsTraffic(s, a);
    }
  }

  lemma WorkerNeverFaults(s: State, a: Action)
    requires WorkerHolds(s.worker) && Enabled(s, a)
    requires a.WorkerGet? || a.WorkerRoute? || a.WorkerForward? || a.WorkerReply? || a.WorkerSend?
    ensures NeverFaults(Next(s, a))
  {
  }

  lemma DelivererNeverFaults(s: State, a: Action)
    requires DeliverersHold(s.deliverers) && Enabled(s, a)
    requires a.DelivererGet? || a.DelivererMatch? || a.DelivererSend?
    ensures NeverFaults(Next(s, a))
  {
  }

  lemma OthersNeverFault(s: State, a: Action)
    requires Enabled(s, a) && !a.Disconnect?
    requires !a.WorkerGet? && !a.WorkerRoute? && !a.WorkerForward? && !a.WorkerReply? && !a.WorkerSend?
    requires !a.DelivererGet? && !a.DelivererMatch? && !a.DelivererSend?
    ensures NeverFaults(Next(s, a))
  {
  }

  /** The asserts behind these faults cannot fail. */
  lemma StepNeverFaults(s: State, a: Action)
    requires Traffic(s) && Slots(s) && Enabled(s, a)
    ensures NeverFaults(Next(s, a))
  {
    if a.Disconnect? {
      DisconnectKeepsSlots(s, a.t, a.locked);
    } else if a.WorkerGet? || a.WorkerRoute? || a.WorkerForward? || a.WorkerReply? || a.WorkerSend? {
      WorkerNeverFaults(s, a);
    } else if a.DelivererGet? || a.DelivererMatch? || a.DelivererSend? {
      DelivererNeverFaults(s, a);
    } else {
      OthersNeverFault(s, a);
    }
  }

  lemma StepKeepsInv(s: State, a: Action)
    requires Inv(s) && Enabled(s, a)
    ensures Inv(Next(s, a))
  {
    StepKeepsTraffic(s, a);
    StepKeepsSlots(s, a);
    StepKeepsBooks(s, a);
    StepNeverFaults(s, a);
  }

  lemma {:induction false} RunKeepsInv(s: State, run: seq<Action>)
    requires Inv(s) && Legal(s, run)
    ensures Inv(Exec(s, run))
    decreases |run|
  {
    if run != [] {
      StepKeepsInv(s, run[0]);
      RunKeepsInv(Next(s, run[0]), run[1..]);
    }
  }
}
