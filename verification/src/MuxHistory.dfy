/**
 The book-keeping of requests: what posting, marrying and dropping do to the list of
 outstanding requests, read off the history, and the counts that follow.
 */
module MuxHistory {
  import opened Ipmb
  import opened BrokerSpec
  import opened Mux
  import opened Search

  lemma OutstandingAppend(h: seq<Record>, m: Message)
    ensures OutstandingIn(h + [Record(m, Outstanding)]) == OutstandingIn(h) + [m]
  {
    assert (h + [Record(m, Outstanding)])[..|h|] == h;
  }

  /** The k-th outstanding request is where SerialOf says, and once it is settled the others
      stay outstanding in their old order. */
  lemma {:induction false} SettleRemoves(h: seq<Record>, k: nat, f: Fate)
    requires k < |OutstandingIn(h)| && !f.Outstanding?
    ensures var n := SerialOf(h, k);
            && n < |h| && h[n].fate.Outstanding? && h[n].req == OutstandingIn(h)[k]
            && OutstandingIn(SetFate(h, n, f)) == RemoveAt(OutstandingIn(h), k)
  {
    var i := |h| - 1;
    var o := OutstandingIn(h[..i]);
    if h[i].fate.Outstanding? && k == |o| {
      assert SetFate(h, i, f)[..i] == h[..i];
    } else {
      SettleRemoves(h[..i], k, f);
      var n := SerialOf(h[..i], k);
      assert SetFate(h, n, f)[..i] == SetFate(h[..i], n, f);
      assert SetFate(h, n, f)[i] == h[i];
    }
  }

  lemma {:induction false} SettledLeavesOutstanding(h: seq<Record>, n: nat, f: Fate)
    requires n < |h| && !h[n].fate.Outstanding? && !f.Outstanding?
    ensures OutstandingIn(SetFate(h, n, f)) == OutstandingIn(h)
  {
    var i := |h| - 1;
    var g := SetFate(h, n, f);
    if n == i {
      assert g[..i] == h[..i];
    } else {
      SettledLeavesOutstanding(h[..i], n, f);
      assert g[..i] == SetFate(h[..i], n, f);
    }
  }

  lemma {:induction false} DropIsFlush(h: seq<Record>, r: int)
    ensures OutstandingIn(DropResource(h, r)) == Without(OutstandingIn(h), r)
  {
    if h != [] {
      var i := |h| - 1;
      DropIsFlush(h[..i], r);
      assert DropResource(h, r)[..i] == DropResource(h[..i], r);
      var o := OutstandingIn(h[..i]);
      if h[i].fate.Outstanding? {
        assert (o + [h[i].req])[..|o|] == o;
      }
    }
  }

  lemma {:induction false} OutstandingMember(h: seq<Record>, m: Message)
    requires m in OutstandingIn(h)
    ensures exists i :: 0 <= i < |h| && h[i].req == m && h[i].fate.Outstanding?
  {
    var n := |h| - 1;
    if h[n].fate.Outstanding? && h[n].req == m {
    } else {
      OutstandingMember(h[..n], m);
      var i :| 0 <= i < n && h[..n][i].req == m && h[..n][i].fate.Outstanding?;
      assert h[i].req == m;
    }
  }

  /* ----- counts per resource ----- */

  predicate Taken(f: Fate) { f.Matched? || f.Delivered? }

  function Under(r: int): Record -> bool { (rec: Record) => rec.req.resource == r }
  function DroppedUnder(r: int): Record -> bool { (rec: Record) => rec.req.resource == r && rec.fate.Dropped? }
  function TakenUnder(r: int): Record -> bool { (rec: Record) => rec.req.resource == r && Taken(rec.fate) }
  function DeliveredUnder(r: int): Record -> bool { (rec: Record) => rec.req.resource == r && rec.fate.Delivered? }
  function Of(r: int): Message -> bool { (m: Message) => m.resource == r }

  function Posted(h: seq<Record>, r: int): nat { Count(h, Under(r)) }
  function DroppedCount(h: seq<Record>, r: int): nat { Count(h, DroppedUnder(r)) }
  function TakenCount(h: seq<Record>, r: int): nat { Count(h, TakenUnder(r)) }
  function DeliveredCount(h: seq<Record>, r: int): nat { Count(h, DeliveredUnder(r)) }

  /** Requests of resource r in a broker list. */
  function Waiting(reqs: seq<Message>, r: int): nat { Count(reqs, Of(r)) }

  /** The counts as sizes of sets of indices. */
  lemma CountsAreSizes(h: seq<Record>, reqs: seq<Message>, r: int)
    ensures Posted(h, r) == |set i: nat | i < |h| && h[i].req.resource == r|
    ensures DroppedCount(h, r) == |set i: nat | i < |h| && h[i].req.resource == r && h[i].fate.Dropped?|
    ensures TakenCount(h, r) == |set i: nat | i < |h| && h[i].req.resource == r && Taken(h[i].fate)|
    ensures Waiting(reqs, r) == |set i: nat | i < |reqs| && reqs[i].resource == r|
  {
    CountIsSize(h, Under(r), set i: nat | i < |h| && h[i].req.resource == r);
    CountIsSize(h, DroppedUnder(r), set i: nat | i < |h| && h[i].req.resource == r && h[i].fate.Dropped?);
    CountIsSize(h, TakenUnder(r), set i: nat | i < |h| && h[i].req.resource == r && Taken(h[i].fate));
    CountIsSize(reqs, Of(r), set i: nat | i < |reqs| && reqs[i].resource == r);
  }

  /** Every request posted under r was taken, was dropped, or still waits: exactly one of them. */
  lemma {:induction false} Conservation(h: seq<Record>, r: int)
    ensures Posted(h, r) == TakenCount(h, r) + DroppedCount(h, r) + Waiting(OutstandingIn(h), r)
    ensures DeliveredCount(h, r) <= TakenCount(h, r)
  {
    if h != [] {
      var i := |h| - 1;
      Conservation(h[..i], r);
      var o := OutstandingIn(h[..i]);
      assert (o + [h[i].req])[..|o|] == o;
    }
  }

  lemma {:induction false} DeliveredAppend(h: seq<Record>, m: Message, r: int)
    ensures DeliveredCount(h + [Record(m, Outstanding)], r) == DeliveredCount(h, r)
  {
    assert (h + [Record(m, Outstanding)])[..|h|] == h;
  }

  lemma {:induction false} DeliveredSet(h: seq<Record>, n: nat, f: Fate, r: int)
    requires n < |h| && !h[n].fate.Delivered?
    ensures DeliveredCount(SetFate(h, n, f), r) == DeliveredCount(h, r) + One(f.Delivered? && h[n].req.resource == r)
  {
    var i := |h| - 1;
    var g := SetFate(h, n, f);
    if n == i {
      assert g[..i] == h[..i];
    } else {
      DeliveredSet(h[..i], n, f, r);
      assert g[..i] == SetFate(h[..i], n, f);
    }
  }

  lemma {:induction false} DeliveredDrop(h: seq<Record>, q: int, r: int)
    ensures DeliveredCount(DropResource(h, q), r) == DeliveredCount(h, r)
  {
    if h != [] {
      var i := |h| - 1;
      DeliveredDrop(h[..i], q, r);
      assert DropResource(h, q)[..i] == DropResource(h[..i], q);
    }
  }
}
