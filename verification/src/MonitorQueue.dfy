/**
 The ring of msgq.c under the blocking of Monitor: whatever order threads take the lock in,
 the ring holds what the monitor says it holds, and a call blocks where the monitor puts its
 thread to sleep.
 */
module MonitorQueue {
  import opened Ipmb
  import opened MsgQueue
  import Monitor

  ghost predicate Holds(q: MsgQ, s: Monitor.State)
    reads q, q.queue
  {
    q.Ready() && q.Contents() == s.contents && q.size == s.cap + 1
  }

  /** msgq_post turns other messages away before it takes the lock. */
  predicate Admitted(s: Monitor.State, a: Monitor.Action) {
    && (a.Post? ==> Postable(a.m))
    && (a.PostAgain? && a.t in s.pending ==> Postable(s.pending[a.t]))
  }

  ghost predicate PendingPostable(s: Monitor.State) {
    forall t :: t in s.pending ==> Postable(s.pending[t])
  }

  ghost predicate PostsPostable(run: seq<Monitor.Action>) {
    forall i :: 0 <= i < |run| && run[i].Post? ==> Postable(run[i].m)
  }

  method PostStep(q: MsgQ, s: Monitor.State, t: Monitor.Tid, m: Message, wake: Monitor.Tid) returns (r: Outcome)
    requires Holds(q, s) && |s.contents| <= s.cap && Postable(m)
    modifies q, q.queue
    ensures q.queue == old(q.queue) && Holds(q, Monitor.TryPost(s, t, m, wake))
    ensures r == if Monitor.Full(s) then MustWait else Done(0)
  {
    r := q.Post(m, 0, 0);
  }

  method GetStep(q: MsgQ, s: Monitor.State, t: Monitor.Tid, wake: Monitor.Tid) returns (r: Outcome, m: Message)
    requires Holds(q, s)
    modifies q, q.queue
    ensures q.queue == old(q.queue) && Holds(q, Monitor.TryGet(s, t, wake))
    ensures r == if s.contents == [] then MustWait else Done(0)
    ensures s.contents != [] ==> m == s.contents[0]
  {
    r, m := q.Get(0, 0);
    assert s.contents != [] ==> [m] + q.Contents() == s.contents;
  }

  /** One step of the monitor, done by one call on the ring. */
  method Step(q: MsgQ, producers: set<Monitor.Tid>, s: Monitor.State, a: Monitor.Action)
    requires Holds(q, s) && Monitor.Book(producers, s) && Monitor.Enabled(producers, s, a) && Admitted(s, a)
    modifies q, q.queue
    ensures q.queue == old(q.queue) && Holds(q, Monitor.Next(producers, s, a))
  {
    match a
    case Post(t, m, wake) => var _ := PostStep(q, s, t, m, wake);
    case PostAgain(t, wake) => var _ := PostStep(q, s, t, s.pending[t], wake);
    case Get(t, wake) => var _, _ := GetStep(q, s, t, wake);
    case GetAgain(t, wake) => var _, _ := GetStep(q, s, t, wake);
    case Flush(wake) => var _ := q.Flush(0, 0);
    case SpuriousP(t) =>
    case SpuriousC(t) =>
  }

  /** Calls on the ring, one for each step of a monitor run, leave what the run leaves. */
  method Replay(q: MsgQ, producers: set<Monitor.Tid>, s: Monitor.State, run: seq<Monitor.Action>)
    requires Holds(q, s) && Monitor.Book(producers, s) && PendingPostable(s)
    requires Monitor.Legal(producers, s, run) && PostsPostable(run)
    modifies q, q.queue
    ensures q.queue == old(q.queue) && Holds(q, Monitor.Exec(producers, s, run))
    decreases |run|
  {
    if run != [] {
      Step(q, producers, s, run[0]);
      Monitor.StepKeepsBook(producers, s, run[0]);
      Replay(q, producers, Monitor.Next(producers, s, run[0]), run[1..]);
    }
  }
}
