/**
 msgq.c: the ring buffer behind each message queue, updated in place and proved to be a FIFO
 that holds exactly the number of slots it was created with.

 A caller that has to block returns MustWait, having changed nothing; Monitor gives the
 meaning of blocking. Results of the pthread calls are parameters.
 */
module MsgQueue {
  import opened Ipmb

  datatype Outcome = Done(code: int) | MustWait

  /** msgq_post turns away empty messages and odd or zero addresses. */
  predicate Postable(m: Message) {
    m.length != 0 && m.dst != 0 && m.dst % 2 == 0
  }

  const ZERO: Message := Packet(0, 0, 0, seq(MAX_IPMB_PKT_SIZE, _ => 0))

  /** x % n for an index at most one lap ahead. */
  lemma OneLap(x: nat, n: nat)
    requires x < n + n
    ensures n > 0 && x % n == if x < n then x else x - n
  {
    if x < n {
      assert x / n == 0;
    } else {
      assert x == n + (x - n) && (x - n) / n == 0;
      assert x / n == 1;
    }
  }

  function Wrap(x: nat, n: nat): (r: nat)
    requires x < n + n
    ensures r < n
  {
    if x < n then x else x - n
  }

  /** Fill level of a ring of n cells: what msgq_debug prints. */
  function Level(n: nat, head: nat, tail: nat): (k: nat)
    requires head < n && tail < n
    ensures k < n
  {
    (n + head - tail) % n
  }

  /** The messages between tail and head of a ring, next to leave first. */
  function Ring(cells: seq<Message>, head: nat, tail: nat): (s: seq<Message>)
    requires head < |cells| && tail < |cells|
    ensures |s| == Level(|cells|, head, tail)
  {
    seq(Level(|cells|, head, tail), k requires 0 <= k < |cells| => cells[Wrap(tail + 1 + k, |cells|)])
  }

  /** Writing one cell past head appends; the ring is full when that cell is tail's. */
  lemma RingPost(cells: seq<Message>, head: nat, tail: nat, m: Message)
    requires head < |cells| && tail < |cells|
    ensures (head + 1) % |cells| == tail <==> Level(|cells|, head, tail) == |cells| - 1
    ensures var h := (head + 1) % |cells|;
            h != tail ==> Ring(cells[h := m], h, tail) == Ring(cells, head, tail) + [m]
  {
    var n := |cells|;
    OneLap(head + 1, n);
    OneLap(n + head - tail, n);
    var h := (head + 1) % n;
    OneLap(n + h - tail, n);
    if h != tail {
      assert Level(n, h, tail) == Level(n, head, tail) + 1;
      var was, now := Ring(cells, head, tail), Ring(cells[h := m], h, tail);
      forall k | 0 <= k < |now| ensures now[k] == (was + [m])[k] {
        assert Wrap(tail + 1 + k, n) == h <==> k == |was|;
      }
      assert now == was + [m];
    }
  }

  /** Reading the cell past tail takes the first message; clearing it hurts no other. */
  lemma RingGet(cells: seq<Message>, head: nat, tail: nat, z: Message)
    requires head < |cells| && tail < |cells|
    ensures head == tail <==> Ring(cells, head, tail) == []
    ensures var t := (tail + 1) % |cells|;
            head != tail ==> [cells[t]] + Ring(cells[t := z], head, t) == Ring(cells, head, tail)
  {
    var n := |cells|;
    OneLap(tail + 1, n);
    OneLap(n + head - tail, n);
    var t := (tail + 1) % n;
    OneLap(n + head - t, n);
    if head != tail {
      assert Level(n, head, tail) == Level(n, head, t) + 1;
      var was, now := Ring(cells, head, tail), Ring(cells[t := z], head, t);
      forall k | 0 <= k < |was| ensures was[k] == ([cells[t]] + now)[k] {
        assert Wrap(tail + 1 + k, n) == t <==> k == 0;
        assert k > 0 ==> Wrap(t + 1 + (k - 1), n) == Wrap(tail + 1 + k, n);
      }
      assert was == [cells[t]] + now;
    }
  }

  class MsgQ {
    var queue: array?<Message>
    var size: nat
    var head: nat
    var tail: nat

    /** A zeroed MsgQ_t, before msgq_init. */
    constructor ()
      ensures queue == null && size == 0
    {
      queue, size, head, tail := null, 0, 0, 0;
    }

    ghost predicate Valid()
      reads this
    {
      queue != null ==> 2 <= size == queue.Length && head < size && tail < size
    }

    ghost predicate Ready()
      reads this
    {
      Valid() && queue != null
    }

    ghost function Contents(): (s: seq<Message>)
      reads this, queue
      requires Ready()
    {
      Ring(queue[..], head, tail)
    }

    method Init(slots: nat, outOfMemory: bool, pthreadErr: int) returns (err: int)
      requires Valid()
      modifies this
      ensures Valid()
      ensures err == if slots < 1 || old(queue) != null then EINVAL
                     else if outOfMemory then ENOMEM else pthreadErr
      ensures err != 0 ==> unchanged(this)
      ensures err == 0 ==> Ready() && fresh(queue) && size == slots + 1 && Contents() == []
    {
      if slots < 1 { return EINVAL; }
      if queue != null { return EINVAL; }
      if outOfMemory { return ENOMEM; }
      if pthreadErr != 0 { return pthreadErr; }
      queue := new Message[slots + 1](_ => ZERO);
      size := slots + 1;
      head := 0;
      tail := 0;
      RingGet(queue[..], head, tail, ZERO);
      return 0;
    }

    method Post(m: Message, lockErr: int, signalErr: int) returns (r: Outcome)
      requires Valid()
      modifies this, queue
      ensures Valid() && queue == old(queue) && size == old(size)
      ensures queue == null || !Postable(m) ==> r == Done(EINVAL) && unchanged(this)
      ensures queue != null ==>
                var before := old(Contents());
                if !Postable(m) then Contents() == before
                else if lockErr != 0 then r == Done(lockErr) && Contents() == before
                else if |before| == size - 1 then r == MustWait && Contents() == before
                else r == Done(signalErr) && Contents() == before + [m]
    {
      if queue == null { return Done(EINVAL); }
      if m.length == 0 || m.dst == 0 || m.dst % 2 == 1 { return Done(EINVAL); }
      if lockErr != 0 { return Done(lockErr); }
      RingPost(queue[..], head, tail, m);
      if (head + 1) % size == tail { return MustWait; }
      head := (head + 1) % size;
      queue[head] := m;
      assert queue[..] == old(queue[..])[head := m];
      return Done(signalErr);
    }

    method Get(lockErr: int, signalErr: int) returns (r: Outcome, m: Message)
      requires Valid()
      modifies this, queue
      ensures Valid() && queue == old(queue) && size == old(size)
      ensures queue == null ==> r == Done(EINVAL) && unchanged(this)
      ensures queue != null ==>
                var before := old(Contents());
                if lockErr != 0 then r == Done(lockErr) && Contents() == before
                else if before == [] then r == MustWait && Contents() == before
                else r == Done(signalErr) && [m] + Contents() == before
    {
      m := ZERO;
      if queue == null { return Done(EINVAL), m; }
      if lockErr != 0 { return Done(lockErr), m; }
      RingGet(queue[..], head, tail, ZERO);
      if head == tail { return MustWait, m; }
      tail := (tail + 1) % size;
      m := queue[tail];
      queue[tail] := ZERO;
      assert queue[..] == old(queue[..])[tail := ZERO];
      return Done(signalErr), m;
    }

    /** Only the indices are reset and one cell cleared, yet nothing posted before is left. */
    method Flush(lockErr: int, signalErr: int) returns (err: int)
      requires Valid()
      modifies this, queue
      ensures Valid() && queue == old(queue) && size == old(size)
      ensures err == if queue == null then EINVAL else if lockErr != 0 then lockErr else signalErr
      ensures queue != null ==> Contents() == if lockErr != 0 then old(Contents()) else []
    {
      if queue == null { return EINVAL; }
      if lockErr != 0 { return lockErr; }
      head := 0;
      tail := 0;
      queue[tail] := ZERO;
      RingGet(queue[..], head, tail, ZERO);
      return signalErr;
    }
  }
}
