/**
 The connection table of connection_manager.c: which socket owns which slot, and which slot,
 if any, is the responder.
 */
module SlotTable {
  import opened BrokerSpec
  import opened Search
  import Broker

  const SLOTS := 5   // MAX_SOCKET_THREADS

  datatype Kind = Client | Responder

  /** id and socket are both -1 when the slot is free. */
  datatype Slot = Slot(id: int, socket: int)
  datatype Table = Table(slots: seq<Slot>, responder: int)

  /** How unreserve_connection_resource ends: it returns, its assert fails, or the process exits. */
  datatype Ending = Returned | AssertFailed | Exited

  datatype Grant = Granted(slot: nat) | Refused | RefusedAfterPing

  const EMPTY := Table(seq(SLOTS, _ => Slot(-1, -1)), -1)

  ghost predicate Consistent(t: Table) {
    && |t.slots| == SLOTS
    && (forall i :: 0 <= i < SLOTS ==> t.slots[i].socket >= -1 && (t.slots[i].id == -1 <==> t.slots[i].socket == -1))
    && (t.responder == -1 || (0 <= t.responder < SLOTS && t.slots[t.responder].id != -1))
  }

  function FirstFree(slots: seq<Slot>): (k: nat)
    ensures k <= |slots|
    ensures forall i :: 0 <= i < k ==> slots[i].id != -1
    ensures k < |slots| ==> slots[k].id == -1
  {
    First(slots, (s: Slot) => s.id == -1)
  }

  /** Who gets a slot. A second responder is turned away once the first has been pinged. */
  function GrantFor(t: Table, kind: Kind): Grant {
    var k := FirstFree(t.slots);
    if k == |t.slots| then Refused
    else if kind == Responder && t.responder != -1 then RefusedAfterPing
    else Granted(k)
  }

  function Reserve(t: Table, kind: Kind, id: int, socket: int): Table {
    match GrantFor(t, kind)
    case Granted(k) => Table(t.slots[k := Slot(id, socket)], if kind == Responder then k else t.responder)
    case _ => t
  }

  function Release(t: Table, k: nat): Table
    requires k < |t.slots|
  {
    Table(t.slots[k := Slot(-1, -1)], if t.responder == k then -1 else t.responder)
  }

  /** A reservation takes a free slot for the caller alone and keeps the table consistent;
      the responder role is handed out only while vacant. */
  lemma ReserveKeepsConsistent(t: Table, kind: Kind, id: int, socket: int)
    requires Consistent(t) && id != -1 && socket >= 0
    ensures var t' := Reserve(t, kind, id, socket);
            && Consistent(t')
            && (forall i :: 0 <= i < SLOTS && t.slots[i].id != -1 ==> t'.slots[i] == t.slots[i])
            && (t.responder != -1 ==> t'.responder == t.responder)
            && (GrantFor(t, kind).Granted? <==>
                  (exists i :: 0 <= i < SLOTS && t.slots[i].id == -1) && (kind == Client || t.responder == -1))
            && (GrantFor(t, kind).Granted? ==>
                  var k := GrantFor(t, kind).slot;
                  && t.slots[k].id == -1 && (forall i :: 0 <= i < k ==> t.slots[i].id != -1)
                  && t'.slots == t.slots[k := Slot(id, socket)]
                  && (kind == Responder ==> t'.responder == k))
            && (!GrantFor(t, kind).Granted? ==> t' == t)
            && (GrantFor(t, kind).RefusedAfterPing? <==>
                  && (exists i :: 0 <= i < SLOTS && t.slots[i].id == -1)
                  && kind == Responder && t.responder != -1)
  {
    var k := FirstFree(t.slots);
    if k < |t.slots| {
      assert t.slots[k].id == -1;
    }
  }

  /** Release undoes the reservation that granted the slot. */
  lemma ReleaseUndoesReserve(t: Table, kind: Kind, id: int, socket: int)
    requires Consistent(t) && id != -1 && socket >= 0 && GrantFor(t, kind).Granted?
    ensures Release(Reserve(t, kind, id, socket), GrantFor(t, kind).slot) == t
  {
    var k := GrantFor(t, kind).slot;
    assert t.slots[k] == Slot(-1, -1);
    assert Release(Reserve(t, kind, id, socket), k).slots == t.slots;
  }

  class ConnectionTable {
    const slots: array<Slot>
    var responderIdx: int

    constructor ()
      ensures Valid() && View() == EMPTY && fresh(slots)
    {
      slots := new Slot[SLOTS](_ => Slot(-1, -1));
      responderIdx := -1;
    }

    ghost predicate Valid() {
      slots.Length == SLOTS
    }

    ghost function View(): Table
      reads this, slots
      requires Valid()
    {
      Table(slots[..], responderIdx)
    }

    /** ping says that ping_responder has to be called, still holding the lock. */
    method ReserveConnectionResource(kind: Kind, id: int, sock: int, lockErr: int)
      returns (success: bool, resource: int, ping: bool)
      requires Valid()
      modifies this, slots
      ensures Valid()
      ensures lockErr != 0 ==> !success && !ping && View() == old(View())
      ensures lockErr == 0 ==> View() == Reserve(old(View()), kind, id, sock)
      ensures lockErr == 0 ==> match old(GrantFor(View(), kind))
                               case Granted(k) => success && resource == k && !ping
                               case Refused => !success && !ping
                               case RefusedAfterPing => !success && ping
    {
      success, resource, ping := false, -1, false;
      if lockErr != 0 { return; }

      var slotAvail := -1;
      var slot := 0;
      while slot < SLOTS
        invariant 0 <= slot <= SLOTS && slotAvail == -1
        invariant forall i :: 0 <= i < slot ==> slots[i].id != -1
      {
        if slots[slot].id == -1 {
          slotAvail := slot;
          break;
        }
        slot := slot + 1;
      }
      assert FirstFree(View().slots) == if slotAvail < 0 then SLOTS else slotAvail by {
        var k := FirstFree(View().slots);
        assert k < SLOTS ==> slots[k].id == -1;
        assert slotAvail >= 0 ==> View().slots[slotAvail].id == -1;
      }

      if !(slotAvail < 0) {
        if kind == Responder {
          if responderIdx == -1 {
            responderIdx := slotAvail;
            success := true;
          } else {
            ping := true;
          }
        } else {
          success := true;
        }
      }
      if success {
        slots[slotAvail] := slots[slotAvail].(id := id);
        slots[slotAvail] := slots[slotAvail].(socket := sock);
        resource := slotAvail;
      }
    }

    /** Frees the caller's slot and drops what it still waits for. The assert on the owner comes
        before the look at the lock's result; a lock timeout leaves slot and broker as they
        are, and the process exits when the broker cannot be locked. */
    method UnreserveConnectionResource(id: int, resource: nat, broker: Broker.MarriageBroker,
                                       lockErr: int, flushLockErr: int)
      returns (r: Ending)
      requires Valid() && broker.Valid() && resource < SLOTS
      modifies this, slots, broker, broker.blocks`next, broker.blocks`prev
      ensures Valid() && broker.Valid()
      ensures r == if old(slots[resource].id) != id then AssertFailed
                   else if lockErr == 0 && flushLockErr != 0 then Exited else Returned
      ensures r.AssertFailed? || lockErr != 0 ==> View() == old(View()) && broker.Requests() == old(broker.Requests())
      ensures r.Returned? && lockErr == 0 ==>
                && View() == Release(old(View()), resource)
                && broker.Requests() == Without(old(broker.Requests()), resource)
    {
      if id != slots[resource].id { return AssertFailed; }
      if lockErr != 0 { return Returned; }
      if responderIdx == resource {
        responderIdx := -1;
      }
      slots[resource] := slots[resource].(id := -1);
      assert broker.Requests() == old(broker.Requests());
      var err := broker.Flush(resource, flushLockErr);
      if err != 0 { return Exited; }
      ghost var kept := broker.Requests();
      slots[resource] := slots[resource].(socket := -1);
      assert broker.Requests() == kept;
      assert View() == Release(old(View()), resource) by {
        assert slots[..] == old(slots[..])[resource := Slot(-1, -1)];
      }
      return Returned;
    }
  }
}
