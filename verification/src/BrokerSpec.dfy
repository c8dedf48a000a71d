/**
 The marriage broker as a sequence of outstanding requests, oldest first: which request a
 response is married to, and what dropping a resource leaves.
 */
module BrokerSpec {
  import opened Ipmb
  import opened Options
  import opened Search

  /** Requests that came over I2C are only matched in an I2C search, all others never. */
  predicate SameOrigin(req: Message, i2c: bool) {
    i2c <==> req.resource == I2C_RESOURCE
  }

  /** Address, function and command agree: good enough when nothing better is waiting. */
  predicate Fuzzy(req: Message, resp: Message) {
    && PeerAddr(resp) == req.dst
    && RequestNetFn(resp) == NetFnLun(req) / 4
    && Command(resp) == Command(req)
  }

  predicate Candidate(req: Message, resp: Message, i2c: bool) {
    SameOrigin(req, i2c) && Fuzzy(req, resp)
  }

  predicate Perfect(req: Message, resp: Message, i2c: bool) {
    Candidate(req, resp, i2c) && SeqNum(resp) == SeqNum(req)
  }

  function FirstPerfect(reqs: seq<Message>, resp: Message, i2c: bool): nat {
    First(reqs, (req: Message) => Perfect(req, resp, i2c))
  }

  function FirstCandidate(reqs: seq<Message>, resp: Message, i2c: bool): nat {
    First(reqs, (req: Message) => Candidate(req, resp, i2c))
  }

  /** The two-pass meaning of a search: the first perfect match of the origin class if there
      is one, else the first match on address, function and command, else nothing. */
  function Match(reqs: seq<Message>, resp: Message, i2c: bool): (k: Option<nat>)
    ensures k.None? <==> forall i :: 0 <= i < |reqs| ==> !Candidate(reqs[i], resp, i2c)
    ensures k.Some? ==> k.value < |reqs| && Candidate(reqs[k.value], resp, i2c)
  {
    var p := FirstPerfect(reqs, resp, i2c);
    var f := FirstCandidate(reqs, resp, i2c);
    if p < |reqs| then Some(p) else if f < |reqs| then Some(f) else None
  }

  /** What a search finds, whatever the order it looks in: the oldest perfect match, or, when
      nothing matches perfectly, the oldest candidate. */
  lemma MatchIsFirst(reqs: seq<Message>, resp: Message, i2c: bool)
    ensures match Match(reqs, resp, i2c)
            case Some(k) =>
              && k < |reqs|
              && ((&& Perfect(reqs[k], resp, i2c)
                   && forall j :: 0 <= j < k ==> !Perfect(reqs[j], resp, i2c))
                  || (&& Candidate(reqs[k], resp, i2c)
                      && (forall j :: 0 <= j < |reqs| ==> !Perfect(reqs[j], resp, i2c))
                      && forall j :: 0 <= j < k ==> !Candidate(reqs[j], resp, i2c)))
            case None => forall j :: 0 <= j < |reqs| ==> !Candidate(reqs[j], resp, i2c)
  {
  }

  /** What a search sees of a request: its address, function, command and sequence number. */
  datatype Key = Key(dst: byte, netFn: nat, command: byte, seqNum: byte)

  function KeyOf(req: Message): Key {
    Key(req.dst, NetFnLun(req) / 4, Command(req), SeqNum(req))
  }

  /** The key a response echoes. */
  function EchoedKey(resp: Message): Key {
    Key(PeerAddr(resp), RequestNetFn(resp), Command(resp), SeqNum(resp))
  }

  /** A response echoing the key of outstanding request i is married to i itself exactly when
      no older request of the same origin has that key, however many fuzzy candidates are
      older still. In every case it is married to a request with that very key. */
  lemma EchoMatchedExactly(reqs: seq<Message>, resp: Message, i2c: bool, i: nat)
    requires i < |reqs| && SameOrigin(reqs[i], i2c) && EchoedKey(resp) == KeyOf(reqs[i])
    ensures var k := Match(reqs, resp, i2c);
            && k.Some? && k.value <= i
            && SameOrigin(reqs[k.value], i2c) && KeyOf(reqs[k.value]) == KeyOf(reqs[i])
    ensures Match(reqs, resp, i2c) == Some(i) <==>
            forall j :: 0 <= j < i && SameOrigin(reqs[j], i2c) ==> KeyOf(reqs[j]) != KeyOf(reqs[i])
  {
    assert forall j :: 0 <= j < |reqs| ==>
        (Perfect(reqs[j], resp, i2c) <==> SameOrigin(reqs[j], i2c) && KeyOf(reqs[j]) == KeyOf(reqs[i]));
    var p := FirstPerfect(reqs, resp, i2c);
    assert Perfect(reqs[i], resp, i2c);
  }

  /** With distinct keys inside an origin class, a response that echoes the key of a request
      reaches the resource that posted it. */
  lemma DistinctKeysReachRequester(reqs: seq<Message>, resp: Message, i2c: bool, i: nat)
    requires forall a, b :: 0 <= a < b < |reqs| && SameOrigin(reqs[a], i2c) && SameOrigin(reqs[b], i2c)
                            ==> KeyOf(reqs[a]) != KeyOf(reqs[b])
    requires i < |reqs| && SameOrigin(reqs[i], i2c) && EchoedKey(resp) == KeyOf(reqs[i])
    ensures Match(reqs, resp, i2c) == Some(i)
  {
    EchoMatchedExactly(reqs, resp, i2c, i);
  }

  function RemoveAt(s: seq<Message>, k: nat): seq<Message>
    requires k < |s|
  {
    s[..k] + s[k + 1..]
  }

  /** The requests that survive dropping resource r, in their old order. */
  function Without(s: seq<Message>, r: int): (t: seq<Message>) {
    if s == [] then []
    else if s[|s| - 1].resource == r then Without(s[..|s| - 1], r)
    else Without(s[..|s| - 1], r) + [s[|s| - 1]]
  }

  /** What remains once the k-th request is taken: all the others, in their old order. */
  lemma RemoveAtKeepsOthers(s: seq<Message>, k: nat)
    requires k < |s|
    ensures var t := RemoveAt(s, k);
            && |t| == |s| - 1
            && (forall i :: 0 <= i < k ==> t[i] == s[i])
            && (forall i :: k < i < |s| ==> t[i - 1] == s[i])
  {
  }

  /** Dropping r goes request by request, so the order of the others stays. */
  lemma {:induction false} WithoutKeepsOrder(a: seq<Message>, b: seq<Message>, r: int)
    ensures Without(a + b, r) == Without(a, r) + Without(b, r)
    decreases |b|
  {
    if b == [] {
      assert a + b == a;
    } else {
      assert (a + b)[..|a + b| - 1] == a + b[..|b| - 1];
      WithoutKeepsOrder(a, b[..|b| - 1], r);
    }
  }

  /** The list half way through a flush of s: of the first j requests, k are kept. */
  ghost predicate Reviewed(s: seq<Message>, j: nat, r: int, k: nat, list: seq<Message>) {
    j <= |s| && |Without(s[..j], r)| == k && list == Without(s[..j], r) + s[j..]
  }

  lemma FlushStart(s: seq<Message>, r: int)
    ensures Reviewed(s, 0, r, 0, s)
  {
  }

  /** One turn of the flush loop: what the review of request j does to the list. */
  lemma FlushStep(s: seq<Message>, j: nat, r: int, k: nat, list: seq<Message>)
    requires Reviewed(s, j, r, k, list) && k < |list|
    ensures j < |s|
    ensures if list[k].resource == r then Reviewed(s, j + 1, r, k, RemoveAt(list, k))
            else Reviewed(s, j + 1, r, k + 1, list)
  {
    assert s[..j + 1][..j] == s[..j];
    assert s[j..] == [s[j]] + s[j + 1..];
  }

  lemma FlushEnd(s: seq<Message>, j: nat, r: int, k: nat, list: seq<Message>)
    requires Reviewed(s, j, r, k, list) && k >= |list|
    ensures list == Without(s, r)
  {
    assert s[..j] == s;
  }

  /** Dropping r keeps every request of every other resource, as often as it was there, and
      leaves none of r. */
  lemma {:induction false} WithoutKeepsOthers(s: seq<Message>, r: int)
    ensures forall m: Message :: multiset(Without(s, r))[m] == if m.resource == r then 0 else multiset(s)[m]
  {
    if s != [] {
      var i := |s| - 1;
      assert s == s[..i] + [s[i]];
      WithoutKeepsOthers(s[..i], r);
    }
  }
}
