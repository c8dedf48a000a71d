/**
 Blocking on a message queue (the wait loops of msgq.c): any number of threads in msgq_post,
 msgq_get and msgq_flush, interleaved at every point where the queue's lock is free.

 A thread inside a wait loop is asleep, or signalled: woken but not yet holding the lock
 again, where it will look at the queue afresh. pthread_cond_signal wakes one sleeper, whose
 choice is a parameter; a wake-up nobody asked for is a step of its own.
 */
module Monitor {
  import opened Ipmb

  type Tid = nat

  datatype State = State(
    cap: nat,                      // slots of the queue
    contents: seq<Message>,
    asleepP: set<Tid>,             // producers waiting on queue_ready
    signalledP: set<Tid>,
    pending: map<Tid, Message>,    // what each producer inside msgq_post has to post
    asleepC: set<Tid>,             // consumers waiting on data_ready
    signalledC: set<Tid>,
    posted: seq<Message>,          // since the last flush
    got: seq<Message>)             // since the last flush

  datatype Action =
    | Post(t: Tid, m: Message, wake: Tid)
    | PostAgain(t: Tid, wake: Tid)
    | Get(t: Tid, wake: Tid)
    | GetAgain(t: Tid, wake: Tid)
    | Flush(wake: Tid)
    | SpuriousP(t: Tid)
    | SpuriousC(t: Tid)

  function Init(cap: nat): State {
    State(cap, [], {}, {}, map[], {}, {}, [], [])
  }

  predicate Full(s: State) {
    |s.contents| >= s.cap
  }

  /** wake is a sleeper pthread_cond_signal may pick; with nobody asleep it means nothing. */
  predicate MaySignal(asleep: set<Tid>, wake: Tid) {
    asleep == {} || wake in asleep
  }

  predicate Enabled(producers: set<Tid>, s: State, a: Action) {
    match a
    case Post(t, m, wake) => && t in producers && t !in s.asleepP && t !in s.signalledP
                             && MaySignal(s.asleepC, wake)
    case PostAgain(t, wake) => t in s.signalledP && t in s.pending && MaySignal(s.asleepC, wake)
    case Get(t, wake) => t !in s.asleepC && t !in s.signalledC && MaySignal(s.asleepP, wake)
    case GetAgain(t, wake) => t in s.signalledC && MaySignal(s.asleepP, wake)
    case Flush(wake) => MaySignal(s.asleepP, wake)
    case SpuriousP(t) => t in s.asleepP
    case SpuriousC(t) => t in s.asleepC
  }

  function SignalC(s: State, wake: Tid): State {
    if s.asleepC == {} then s
    else s.(asleepC := s.asleepC - {wake}, signalledC := s.signalledC + {wake})
  }

  function SignalP(s: State, wake: Tid): State {
    if s.asleepP == {} then s
    else s.(asleepP := s.asleepP - {wake}, signalledP := s.signalledP + {wake})
  }

  /** A producer holding the lock, msgq.c:170-182. */
  function TryPost(s: State, t: Tid, m: Message, wake: Tid): State {
    if Full(s) then
      s.(asleepP := s.asleepP + {t}, signalledP := s.signalledP - {t}, pending := s.pending[t := m])
    else
      SignalC(s.(signalledP := s.signalledP - {t}, pending := s.pending - {t},
                 contents := s.contents + [m], posted := s.posted + [m]), wake)
  }

  /** A consumer holding the lock, msgq.c:217-232. */
  function TryGet(s: State, t: Tid, wake: Tid): State {
    if s.contents == [] then
      s.(asleepC := s.asleepC + {t}, signalledC := s.signalledC - {t})
    else
      SignalP(s.(signalledC := s.signalledC - {t},
                 contents := s.contents[1..], got := s.got + [s.contents[0]]), wake)
  }

  function Next(producers: set<Tid>, s: State, a: Action): State
    requires Enabled(producers, s, a)
  {
    match a
    case Post(t, m, wake) => TryPost(s, t, m, wake)
    case PostAgain(t, wake) => TryPost(s, t, s.pending[t], wake)
    case Get(t, wake) => TryGet(s, t, wake)
    case GetAgain(t, wake) => TryGet(s, t, wake)
    case Flush(wake) => SignalP(s.(contents := [], posted := [], got := []), wake)
    case SpuriousP(t) => s.(asleepP := s.asleepP - {t}, signalledP := s.signalledP + {t})
    case SpuriousC(t) => s.(asleepC := s.asleepC - {t}, signalledC := s.signalledC + {t})
  }

  /* ----- runs ----- */

  ghost predicate Legal(producers: set<Tid>, s: State, run: seq<Action>)
    decreases |run|
  {
    run == [] ||
    (Enabled(producers, s, run[0]) && Legal(producers, Next(producers, s, run[0]), run[1..]))
  }

  ghost function Exec(producers: set<Tid>, s: State, run: seq<Action>): State
    requires Legal(producers, s, run)
    decreases |run|
  {
    if run == [] then s else Exec(producers, Next(producers, s, run[0]), run[1..])
  }

  /** No lost wakeup: while somebody sleeps, every item (every free slot) is already spoken
      for by a thread that was woken for it. */
  ghost predicate NoLostWakeup(s: State) {
    && (s.asleepC != {} ==> |s.contents| <= |s.signalledC|)
    && (s.asleepP != {} ==> s.cap - |s.contents| <= |s.signalledP|)
  }

  ghost predicate Book(producers: set<Tid>, s: State) {
    && |s.contents| <= s.cap
    && s.asleepP !! s.signalledP && s.asleepC !! s.signalledC
    && s.asleepP + s.signalledP <= producers
    && s.pending.Keys == s.asleepP + s.signalledP
    && s.posted == s.got + s.contents
  }

  ghost predicate HasFlush(run: seq<Action>) {
    exists i :: 0 <= i < |run| && run[i].Flush?
  }

  /** When msgq_flush, which signals a single producer, frees no more slots than that. */
  predicate FlushSafe(producers: set<Tid>, cap: nat) {
    |producers| <= 1 || cap <= 1
  }

  lemma StepKeepsBook(producers: set<Tid>, s: State, a: Action)
    requires Book(producers, s) && Enabled(producers, s, a)
    ensures Book(producers, Next(producers, s, a)) && Next(producers, s, a).cap == s.cap
  {
  }

  lemma SubsetSize(a: set<Tid>, b: set<Tid>)
    requires a <= b
    ensures |a| <= |b|
  {
    if a != {} {
      var x :| x in a;
      SubsetSize(a - {x}, b - {x});
    }
  }

  lemma StepKeepsWakeups(producers: set<Tid>, s: State, a: Action)
    requires Book(producers, s) && NoLostWakeup(s) && Enabled(producers, s, a) && !a.Flush?
    ensures NoLostWakeup(Next(producers, s, a))
  {
    match a
    case Post(t, m, wake) => PostKeepsWakeups(producers, s, t, m, wake);
    case PostAgain(t, wake) => PostKeepsWakeups(producers, s, t, s.pending[t], wake);
    case Get(t, wake) => GetKeepsWakeups(producers, s, t, wake);
    case GetAgain(t, wake) => GetKeepsWakeups(producers, s, t, wake);
    case SpuriousP(t) => assert |s.signalledP + {t}| == |s.signalledP| + 1;
    case SpuriousC(t) => assert |s.signalledC + {t}| == |s.signalledC| + 1;
  }

  lemma PostKeepsWakeups(producers: set<Tid>, s: State, t: Tid, m: Message, wake: Tid)
    requires Book(producers, s) && NoLostWakeup(s) && t !in s.asleepP && MaySignal(s.asleepC, wake)
    ensures NoLostWakeup(TryPost(s, t, m, wake))
  {
    assert |s.signalledP - {t}| >= |s.signalledP| - 1;
    if s.asleepC != {} {
      assert |s.signalledC + {wake}| == |s.signalledC| + 1;
    }
  }

  lemma GetKeepsWakeups(producers: set<Tid>, s: State, t: Tid, wake: Tid)
    requires Book(producers, s) && NoLostWakeup(s) && t !in s.asleepC && MaySignal(s.asleepP, wake)
    ensures NoLostWakeup(TryGet(s, t, wake))
  {
    assert |s.signalledC - {t}| >= |s.signalledC| - 1;
    if s.asleepP != {} {
      assert |s.signalledP + {wake}| == |s.signalledP| + 1;
    }
  }

  /** Exactly when a flush loses a wakeup. */
  lemma FlushKeepsWakeups(producers: set<Tid>, s: State, wake: Tid)
    requires Book(producers, s) && NoLostWakeup(s) && Enabled(producers, s, Flush(wake))
    ensures NoLostWakeup(Next(producers, s, Flush(wake))) <==>
            |s.asleepP| <= 1 || s.cap <= |s.signalledP| + 1
  {
    if s.asleepP != {} {
      assert |s.asleepP - {wake}| == |s.asleepP| - 1;
      assert |s.signalledP + {wake}| == |s.signalledP| + 1;
    }
  }

  lemma {:induction false} RunKeeps(producers: set<Tid>, s: State, run: seq<Action>)
    requires Book(producers, s) && NoLostWakeup(s) && Legal(producers, s, run)
    requires FlushSafe(producers, s.cap) || !HasFlush(run)
    ensures Book(producers, Exec(producers, s, run)) && NoLostWakeup(Exec(producers, s, run))
    decreases |run|
  {
    if run != [] {
      StepKeepsBook(producers, s, run[0]);
      if run[0].Flush? {
        SubsetSize(s.asleepP, producers);
        FlushKeepsWakeups(producers, s, run[0].wake);
      } else {
        StepKeepsWakeups(producers, s, run[0]);
      }
      assert HasFlush(run[1..]) ==> HasFlush(run) by {
        if j :| 0 <= j < |run[1..]| && run[1..][j].Flush? { assert run[j + 1].Flush?; }
      }
      RunKeeps(producers, Next(producers, s, run[0]), run[1..]);
    }
  }

  /** Without flush, no interleaving of any number of threads ever loses a wakeup. */
  lemma NoLostWakeupWithoutFlush(producers: set<Tid>, cap: nat, run: seq<Action>)
    requires Legal(producers, Init(cap), run) && !HasFlush(run)
    ensures NoLostWakeup(Exec(producers, Init(cap), run))
  {
    RunKeeps(producers, Init(cap), run);
  }

  /** With flush, no run loses a wakeup exactly when there is a single producer, as for
      gResponderQ, or a single slot. */
  lemma FlushIsSafeIff(producers: set<Tid>, cap: nat)
    ensures FlushSafe(producers, cap) <==>
            forall run :: Legal(producers, Init(cap), run) ==> NoLostWakeup(Exec(producers, Init(cap), run))
  {
    if FlushSafe(producers, cap) {
      forall run | Legal(producers, Init(cap), run)
        ensures NoLostWakeup(Exec(producers, Init(cap), run))
      {
        RunKeeps(producers, Init(cap), run);
      }
    } else {
      var run := LosingRun(producers, cap);
    }
  }

  /** When a queue is quiet (nobody is about to run) its sleepers are stuck for a reason: the
      consumers because it is empty, the producers because it is full, and never both. */
  lemma QuietMeansBlockedForAReason(producers: set<Tid>, cap: nat, run: seq<Action>)
    requires cap >= 1 && Legal(producers, Init(cap), run)
    requires FlushSafe(producers, cap) || !HasFlush(run)
    ensures var s := Exec(producers, Init(cap), run);
            s.signalledP == {} && s.signalledC == {} ==>
              && (s.asleepC != {} ==> s.contents == [])
              && (s.asleepP != {} ==> |s.contents| == cap)
              && (s.asleepC == {} || s.asleepP == {})
  {
    RunKeeps(producers, Init(cap), run);
    CapIsConstant(producers, Init(cap), run);
  }

  /** Over every run what consumers received, in order, followed by what still waits, is
      exactly what was posted since the last flush. */
  lemma DeliveryIsFifo(producers: set<Tid>, cap: nat, run: seq<Action>)
    requires Legal(producers, Init(cap), run)
    ensures var s := Exec(producers, Init(cap), run);
            s.posted == s.got + s.contents && |s.contents| <= cap
  {
    RunKeepsBook(producers, Init(cap), run);
    CapIsConstant(producers, Init(cap), run);
  }

  lemma {:induction false} RunKeepsBook(producers: set<Tid>, s: State, run: seq<Action>)
    requires Book(producers, s) && Legal(producers, s, run)
    ensures Book(producers, Exec(producers, s, run))
    decreases |run|
  {
    if run != [] {
      StepKeepsBook(producers, s, run[0]);
      RunKeepsBook(producers, Next(producers, s, run[0]), run[1..]);
    }
  }

  lemma {:induction false} CapIsConstant(producers: set<Tid>, s: State, run: seq<Action>)
    requires Legal(producers, s, run)
    ensures Exec(producers, s, run).cap == s.cap
    decreases |run|
  {
    if run != [] {
      CapIsConstant(producers, Next(producers, s, run[0]), run[1..]);
    }
  }

  /* ----- the run that loses a wakeup ----- */

  lemma {:induction false} FillRun(producers: set<Tid>, p: Tid, m: Message, cap: nat, s: State, rest: seq<Action>)
    returns (run: seq<Action>)
    requires p in producers && |s.contents| <= cap
    requires s == Init(cap).(contents := s.contents, posted := s.posted)
    requires forall c, q | |c| == cap :: Legal(producers, Init(cap).(contents := c, posted := q), rest)
    ensures Legal(producers, s, run)
    ensures exists c, q ::
              |c| == cap && Exec(producers, s, run) == Exec(producers, Init(cap).(contents := c, posted := q), rest)
    decreases cap - |s.contents|
  {
    if |s.contents| == cap {
      run := rest;
    } else {
      var s' := s.(contents := s.contents + [m], posted := s.posted + [m]);
      assert Next(producers, s, Post(p, m, 0)) == s';
      var tail := FillRun(producers, p, m, cap, s', rest);
      run := [Post(p, m, 0)] + tail;
    }
  }

  /** Two producers blocked on a full queue of two or more slots, then a flush. */
  lemma LosingRun(producers: set<Tid>, cap: nat) returns (run: seq<Action>)
    requires !FlushSafe(producers, cap)
    ensures Legal(producers, Init(cap), run) && !NoLostWakeup(Exec(producers, Init(cap), run))
  {
    var p :| p in producers;
    assert |producers - {p}| >= 1;
    var q :| q in producers - {p};
    var m: Message := Packet(0, 1, 2, seq(MAX_IPMB_PKT_SIZE, _ => 0));
    var rest := [Post(p, m, 0), Post(q, m, 0), Flush(p)];
    forall c, h | |c| == cap
      ensures Legal(producers, Init(cap).(contents := c, posted := h), rest)
      ensures !NoLostWakeup(Exec(producers, Init(cap).(contents := c, posted := h), rest))
    {
      BlockedPairFlushed(producers, cap, c, h, p, q, m);
    }
    run := FillRun(producers, p, m, cap, Init(cap), rest);
  }

  lemma BlockedPairFlushed(producers: set<Tid>, cap: nat, c: seq<Message>, h: seq<Message>, p: Tid, q: Tid, m: Message)
    requires |c| == cap >= 2 && p in producers && q in producers && p != q
    ensures var s := Init(cap).(contents := c, posted := h);
            var rest := [Post(p, m, 0), Post(q, m, 0), Flush(p)];
            Legal(producers, s, rest) && !NoLostWakeup(Exec(producers, s, rest))
  {
    var s := Init(cap).(contents := c, posted := h);
    var rest := [Post(p, m, 0), Post(q, m, 0), Flush(p)];
    var s1 := Next(producers, s, rest[0]);
    var s2 := Next(producers, s1, rest[1]);
    var s3 := Next(producers, s2, rest[2]);
    assert rest[1..][0] == rest[1] && rest[1..][1..][0] == rest[2] && rest[1..][1..][1..] == [];
    assert s3.asleepP == {q} && s3.signalledP == {p};
    assert Legal(producers, s3, []);
    assert Legal(producers, s2, rest[1..][1..]);
    assert Legal(producers, s1, rest[1..]);
    assert Exec(producers, s2, rest[1..][1..]) == Exec(producers, s3, []) == s3;
    assert Exec(producers, s1, rest[1..]) == s3;
    assert Exec(producers, s, rest) == s3;
  }
}
