/**
 What connecting and disconnecting do in every reachable state: who gets a slot, what the
 others notice, and that nothing of an ended connection is left behind.
 */
module MuxConnections {
  import opened Ipmb
  import opened BrokerSpec
  import opened SlotTable
  import opened Mux
  import opened MuxHistory
  import opened MuxInvariants
  import opened MuxTheorems

  /* ----- connections that end ----- */

  /** A client can leave at any time, a responder when nothing is in its thread's hands. */
  lemma ConnectionsCanEnd(s: State, t: Tid, locked: bool)
    requires s.fault.None? && t in s.live
    ensures s.live[t].kind == Client || s.responder.RIdle? || s.responder.RDone? ==> Enabled(s, Disconnect(t, locked))
  {
  }

  /** When it does, its slot is free again, every request waiting under its slot is gone from the
      broker and no other, and nothing else of the system has changed. */
  lemma DisconnectCleansUp(run: seq<Action>, t: Tid)
    requires Legal(INIT, run) && Enabled(Exec(INIT, run), Disconnect(t, true))
    ensures var s := Exec(INIT, run);
            var k := s.live[t].slot;
            var u := Next(s, Disconnect(t, true));
            && (forall m :: m in u.broker ==> m.resource != k)
            && (forall m: Message :: m.resource != k ==> multiset(u.broker)[m] == multiset(s.broker)[m])
            && u.live == s.live - {t}
            && k < SLOTS == |u.table.slots| == |s.table.slots| && u.table.slots[k] == Slot(-1, -1)
            && (forall i :: 0 <= i < SLOTS && i != k ==> u.table.slots[i] == s.table.slots[i])
            && u.table.responder == (if s.live[t].kind == Responder then -1 else s.table.responder)
            && u == s.(broker := u.broker, history := u.history, live := u.live, table := u.table,
                       responder := if s.live[t].kind == Responder then RDone else s.responder)
  {
    InitInv();
    RunKeepsInv(INIT, run);
    var s := Exec(INIT, run);
    WithoutKeepsOthers(s.broker, s.live[t].slot);
    var left := Without(s.broker, s.live[t].slot);
    forall m | m in left ensures m.resource != s.live[t].slot {
      assert multiset(left)[m] > 0;
    }
  }

  /** When the connection lock times out, slot and requests stay. */
  lemma DisconnectWithoutLock(run: seq<Action>, t: Tid)
    requires Legal(INIT, run) && Enabled(Exec(INIT, run), Disconnect(t, false))
    ensures var s := Exec(INIT, run);
            Next(s, Disconnect(t, false)) ==
              s.(live := s.live - {t}, responder := if s.live[t].kind == Responder then RDone else s.responder)
  {
    InitInv();
    RunKeepsInv(INIT, run);
  }

  lemma DropSettles(s: State, t: Tid)
    requires Slots(s) && t in s.live
    ensures var u := OnDisconnect(s, t, true);
            && |u.history| == |s.history|
            && forall i :: 0 <= i < |u.history| && u.history[i].req.resource == s.live[t].slot ==>
                 !u.history[i].fate.Outstanding?
  {
  }

  lemma SettledStaysSettled(g: seq<Record>, h: seq<Record>, i: nat)
    requires Settles(g, h) && i < |g| && !g[i].fate.Outstanding?
    ensures !h[i].fate.Outstanding? && h[i].req == g[i].req
  {
  }

  /** So whatever waits under a slot was posted after the last connection that held the slot
      ended: the next one never gets an answer to a request of the one before. */
  lemma WaitingSinceRelease(p: seq<Action>, t: Tid, q: seq<Action>, m: Message)
    requires Legal(INIT, p + ([Disconnect(t, true)] + q))
    requires Legal(INIT, p) && t in Exec(INIT, p).live
    requires m in Exec(INIT, p + ([Disconnect(t, true)] + q)).broker && m.resource == Exec(INIT, p).live[t].slot
    ensures var h := Exec(INIT, p + ([Disconnect(t, true)] + q)).history;
            exists i :: |Exec(INIT, p).history| <= i < |h| && h[i] == Record(m, Outstanding)
  {
    var s := Exec(INIT, p);
    RunInParts(INIT, p, [Disconnect(t, true)] + q);
    assert ([Disconnect(t, true)] + q)[1..] == q;
    var u := Next(s, Disconnect(t, true));
    var h := Exec(u, q).history;
    InitInv();
    RunKeepsInv(INIT, p);
    StepKeepsInv(s, Disconnect(t, true));
    FatesAreFinal(u, q);
    RunKeepsInv(u, q);
    DropSettles(s, t);
    OutstandingMember(h, m);
    var i :| 0 <= i < |h| && h[i].req == m && h[i].fate.Outstanding?;
    if i < |s.history| {
      assert h[i].req == u.history[i].req;
      SettledStaysSettled(u.history, h, i);
    }
  }

  /* ----- connections that begin ----- */

  predicate SomeSlotIsFree(t: Table) {
    exists i :: 0 <= i < |t.slots| && t.slots[i].id == -1
  }

  /** A connection is granted exactly when a slot is free and, for a responder, there is none. It
      gets the lowest free slot under its own id and socket, and no other slot, connection or
      queue notices. */
  lemma ConnectGrantsIff(run: seq<Action>, t: Tid, kind: Kind, sock: nat, stale: Message)
    requires Legal(INIT, run) && Enabled(Exec(INIT, run), Connect(t, kind, sock, true, stale))
    ensures var s := Exec(INIT, run);
            var u := Next(s, Connect(t, kind, sock, true, stale));
            && (t in u.live <==> SomeSlotIsFree(s.table) && (kind == Client || s.table.responder == -1))
            && (t in u.live ==>
                  var k := u.live[t].slot;
                  && k < |s.table.slots| && s.table.slots[k].id == -1
                  && (forall i :: 0 <= i < k ==> s.table.slots[i].id != -1)
                  && u.table.slots == s.table.slots[k := Slot(t, sock)]
                  && u.table.responder == (if kind == Responder then k else s.table.responder)
                  && u.live == s.live[t := Conn(k, kind)]
                  && u == s.(table := u.table, live := u.live,
                             responder := if kind == Responder then RIdle else s.responder))
  {
    var s := Exec(INIT, run);
    var k := FirstFree(s.table.slots);
    if k < |s.table.slots| {
      assert s.table.slots[k].id == -1;
    }
  }

  /** A second responder is turned away and the first is sent a ping, a Get Device ID request
      from 0x30 whose sequence numbers count up; any other connection that is turned away
      leaves no trace. */
  lemma RefusalPingsIff(run: seq<Action>, t: Tid, kind: Kind, sock: nat, stale: Message)
    requires Legal(INIT, run) && Enabled(Exec(INIT, run), Connect(t, kind, sock, true, stale))
    requires t !in Next(Exec(INIT, run), Connect(t, kind, sock, true, stale)).live
    ensures var s := Exec(INIT, run);
            var u := Next(s, Connect(t, kind, sock, true, stale));
            if SomeSlotIsFree(s.table)
            then && kind == Responder && s.table.responder != -1
                 && u.pingSeq == (s.pingSeq + 1) % 256
                 && u == s.(workerQ := u.workerQ, pingSeq := u.pingSeq)
                 && |u.workerQ| == |s.workerQ| + 1 && u.workerQ[..|s.workerQ|] == s.workerQ
                 && var p := u.workerQ[|s.workerQ|];
                    p.resource == PING_RESOURCE &&
                    Wire(p) == [0x10, 0x19, 0xD7, 0x30, s.pingSeq, 0x01, Neg(0x31 + s.pingSeq)]
            else u == s
  {
    var s := Exec(INIT, run);
    var k := FirstFree(s.table.slots);
    if k < |s.table.slots| {
      assert s.table.slots[k].id == -1;
    }
    PingBytes(s.pingSeq, stale);
  }

  lemma PingBytes(seqNum: byte, stale: Message)
    ensures Wire(Ping(seqNum, stale)) == [0x10, 0x19, 0xD7, 0x30, seqNum, 0x01, Neg(0x31 + seqNum)]
    ensures Ping(seqNum, stale).resource == PING_RESOURCE
  {
    var d := [0x19, 0, 0x30, seqNum, 1, 0] + stale.data[6..];
    assert d[2..5] == [0x30, seqNum, 1];
    SumOf3(0x30, seqNum, 1);
  }

  lemma ConnectWithoutLock(s: State, t: Tid, kind: Kind, sock: nat, stale: Message)
    requires Enabled(s, Connect(t, kind, sock, false, stale))
    ensures Next(s, Connect(t, kind, sock, false, stale)) == s
  {
  }
}
