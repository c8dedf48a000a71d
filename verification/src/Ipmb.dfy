/**
 IPMB frames and messages (IPMB.h, IPMB.c): the two request validators, the error-response
 builder and the message checksum, each proved against a specification on byte sequences.

 Bytes are integers below 256; every addition the C code performs on uint8_t is written
 modulo 256.
 */
module Ipmb {

  type byte = x: int | 0 <= x < 256

  const MAX_IPMB_PKT_SIZE := 128
  const IPMB_REQ_SIZE := 5      // sizeof(IpmbReq_t), up to and including Command

  const MUX_ADDR: byte := 0x10  // I2C_ADDR << 1
  const I2C_RESOURCE := -1
  const PING_RESOURCE := -2

  const EINVAL := 22
  const ENOMEM := 12

  /** The contents of a Message_t. Only the first `length` bytes of `data` are live. */
  datatype Packet = Packet(resource: int, length: nat, dst: byte, data: seq<byte>)

  /** Message_t, with its fixed 128-byte data buffer. */
  type Message = m: Packet | |m.data| == MAX_IPMB_PKT_SIZE
    witness Packet(0, 0, 0, seq(MAX_IPMB_PKT_SIZE, _ => 0))

  /* ----- sums of bytes ----- */

  function Sum(b: seq<byte>): nat {
    if b == [] then 0 else Sum(b[..|b| - 1]) + b[|b| - 1]
  }

  /** Storing an int in a uint8_t. */
  function Trunc(x: nat): byte {
    x % 256
  }

  /** uint8_t addition. */
  function Add8(a: byte, b: byte): byte {
    var x: int := a;
    Trunc(x + b)
  }

  /** The uint8_t negation of an int expression. */
  function Neg(x: int): (r: byte)
    ensures (x + r) % 256 == 0
  {
    if x % 256 == 0 then 0 else 256 - x % 256
  }

  lemma {:induction false} SumConcat(a: seq<byte>, b: seq<byte>)
    ensures Sum(a + b) == Sum(a) + Sum(b)
    decreases |b|
  {
    if b == [] {
      assert a + b == a;
    } else {
      SumConcat(a, b[..|b| - 1]);
      assert (a + b)[..|a + b| - 1] == a + b[..|b| - 1];
    }
  }

  lemma SumUpdate(b: seq<byte>, i: nat, v: byte)
    requires i < |b|
    ensures Sum(b[i := v]) == Sum(b) - b[i] + v
  {
    assert b == b[..i] + [b[i]] + b[i + 1..];
    assert b[i := v] == b[..i] + [v] + b[i + 1..];
    SumConcat(b[..i] + [b[i]], b[i + 1..]);
    SumConcat(b[..i] + [v], b[i + 1..]);
    SumConcat(b[..i], [b[i]]);
    SumConcat(b[..i], [v]);
  }

  lemma ModAdd(x: nat, y: nat)
    ensures (x % 256 + y) % 256 == (x + y) % 256
  {
    assert x == 256 * (x / 256) + x % 256;
  }

  predicate ZeroSum(b: seq<byte>) {
    Sum(b) % 256 == 0
  }

  /** A checksum byte is determined by the bytes before it. */
  lemma ZeroSumLast(body: seq<byte>, last: byte)
    ensures ZeroSum(body + [last]) <==> last == Neg(Sum(body))
  {
    SumAppend(body, last);
    NegUnique(Sum(body), last, Sum(body + [last]));
  }

  lemma SumAppend(body: seq<byte>, last: byte)
    ensures Sum(body + [last]) == Sum(body) + last
  {
    assert (body + [last])[..|body|] == body;
  }

  lemma NegUnique(x: nat, r: byte, y: nat)
    requires y == x + r
    ensures y % 256 == 0 <==> r == Neg(x)
  {
    ModAdd(x, r);
  }

  /* ----- valid requests ----- */

  predicate IsRequestNetFn(netFnLun: byte) {
    (netFnLun / 4) % 2 == 0
  }

  /** A byte stream holding an IPMB request: slave address first, both checksums zero. */
  predicate RequestFrame(b: seq<byte>) {
    && IPMB_REQ_SIZE + 1 < |b| <= MAX_IPMB_PKT_SIZE + 1
    && b[0] % 2 == 0
    && IsRequestNetFn(b[1])
    && ZeroSum(b[..3])
    && ZeroSum(b[3..])
  }

  /** A Message_t holding an IPMB request, its slave address kept outside the buffer. */
  predicate RequestMessage(m: Message) {
    && IPMB_REQ_SIZE < m.length <= MAX_IPMB_PKT_SIZE
    && m.dst % 2 == 0
    && IsRequestNetFn(m.data[0])
    && ZeroSum([m.dst] + m.data[..2])
    && ZeroSum(m.data[2..m.length])
  }

  /** The bytes a dispatcher writes to a socket for a message. */
  function Wire(m: Message): (b: seq<byte>)
    requires m.length <= MAX_IPMB_PKT_SIZE
    ensures |b| == m.length + 1
  {
    [m.dst] + m.data[..m.length]
  }

  /** The message a dispatcher makes of received bytes; the rest of its buffer keeps `stale`. */
  function FromStream(b: seq<byte>, resource: int, stale: Message): (m: Message)
    requires 1 <= |b| <= MAX_IPMB_PKT_SIZE + 1
    ensures m.length == |b| - 1 && m.resource == resource && Wire(m) == b
  {
    Packet(resource, |b| - 1, b[0], b[1..] + stale.data[|b| - 1..])
  }

  /** The checksum loop shared by every routine here: cksm += b[i] for i from lo up to hi. */
  method Accumulate(cksm0: byte, b: seq<byte>, lo: nat, hi: nat) returns (cksm: byte)
    requires lo <= hi <= |b|
    ensures cksm == (cksm0 + Sum(b[lo..hi])) % 256
  {
    cksm := cksm0;
    for i := lo to hi
      invariant cksm == (cksm0 + Sum(b[lo..i])) % 256
    {
      assert b[lo..i + 1][..i - lo] == b[lo..i];
      ModAdd(cksm0 + Sum(b[lo..i]), b[i]);
      cksm := Add8(cksm, b[i]);
    }
  }

  method ValidRequest(b: array<byte>, l: nat) returns (ok: bool)
    requires l <= b.Length
    ensures ok <==> RequestFrame(b[..l])
  {
    if l > MAX_IPMB_PKT_SIZE + 1 { return false; }
    if l <= IPMB_REQ_SIZE + 1 { return false; }
    if (b[1] / 4) % 2 != 0 { return false; }
    if b[0] % 2 != 0 { return false; }

    var cksm := Accumulate(0, b[..l], 0, 3);
    assert b[..l][..3] == b[..l][0..3];
    if cksm != 0 { return false; }

    cksm := Accumulate(cksm, b[..l], 3, l);
    assert b[..l][3..] == b[..l][3..l];
    return cksm == 0;
  }

  method ValidRequestMsg(m: Message) returns (ok: bool)
    ensures ok <==> RequestMessage(m)
  {
    if m.length > MAX_IPMB_PKT_SIZE { return false; }
    if m.length <= IPMB_REQ_SIZE { return false; }

    var cksm := Accumulate(m.dst, m.data, 0, 2);
    assert m.data[0..2] == m.data[..2];
    SumConcat([m.dst], m.data[..2]);
    if cksm != 0 { return false; }
    if (m.data[0] / 4) % 2 != 0 { return false; }
    if m.dst % 2 != 0 { return false; }

    cksm := Accumulate(cksm, m.data, 2, m.length);
    return cksm == 0;
  }

  /** A message is a valid request exactly when the bytes it puts on the wire are one. */
  lemma MessageValidIffWireValid(m: Message)
    ensures RequestMessage(m) <==> m.length <= MAX_IPMB_PKT_SIZE && RequestFrame(Wire(m))
  {
    if IPMB_REQ_SIZE < m.length <= MAX_IPMB_PKT_SIZE {
      assert Wire(m)[..3] == [m.dst] + m.data[..2];
      assert Wire(m)[3..] == m.data[2..m.length];
    }
  }

  /** The two validators agree on every stream, whatever the message buffer held before. */
  lemma ValidatorsAgree(b: seq<byte>, resource: int, stale: Message)
    requires 1 <= |b| <= MAX_IPMB_PKT_SIZE + 1
    ensures RequestMessage(FromStream(b, resource, stale)) <==> RequestFrame(b)
  {
    MessageValidIffWireValid(FromStream(b, resource, stale));
  }

  /** Two valid frames of one length that agree everywhere but at one index are equal:
      any valid frame with exactly one byte changed is rejected. */
  lemma SingleByteErrorRejected(b: seq<byte>, i: nat, v: byte)
    requires RequestFrame(b) && i < |b| && v != b[i]
    ensures !RequestFrame(b[i := v])
  {
    var c := b[i := v];
    if i < 3 {
      assert c[..3] == b[..3][i := v];
      SumUpdate(b[..3], i, v);
    } else {
      assert c[3..] == b[3..][i - 3 := v];
      SumUpdate(b[3..], i - 3, v);
    }
  }

  /** What the checksums do not catch: exchanging two bytes of the same checksummed part
      is accepted, provided the address and function byte stay even where they must. */
  lemma TranspositionUndetected(b: seq<byte>, i: nat, j: nat)
    requires RequestFrame(b) && i < j < |b|
    requires 3 <= i || j < 3
    ensures RequestFrame(b[i := b[j]][j := b[i]]) <==>
            b[i := b[j]][j := b[i]][0] % 2 == 0 && IsRequestNetFn(b[i := b[j]][j := b[i]][1])
  {
    var c := b[i := b[j]];
    var d := c[j := b[i]];
    if i < 3 {
      assert c[..3] == b[..3][i := b[j]];
      assert d[..3] == c[..3][j := b[i]];
      assert d[3..] == b[3..];
      SumUpdate(b[..3], i, b[j]);
      SumUpdate(c[..3], j, b[i]);
    } else {
      assert c[3..] == b[3..][i - 3 := b[j]];
      assert d[3..] == c[3..][j - 3 := b[i]];
      assert d[..3] == b[..3];
      SumUpdate(b[3..], i - 3, b[j]);
      SumUpdate(c[3..], j - 3, b[i]);
    }
  }

  /* ----- fields of requests and responses ----- */

  function NetFnLun(m: Message): byte { m.data[0] }
  function PeerAddr(m: Message): byte { m.data[2] }   // MasterAddr of a request, SlaveAddr of a response
  function SeqNum(m: Message): byte { m.data[3] }
  function Command(m: Message): byte { m.data[4] }

  /** NetFn of the request a message belongs to: the even one of the pair
      (section 5.1 of IPMI v2.0). */
  function RequestNetFn(m: Message): nat {
    var n := NetFnLun(m) / 4;
    n - n % 2
  }

  predicate IsResponse(m: Message) {
    !IsRequestNetFn(NetFnLun(m))
  }

  /** A response frame whose two checksums are both zero. */
  predicate ResponseMessage(m: Message) {
    && IPMB_REQ_SIZE < m.length <= MAX_IPMB_PKT_SIZE
    && IsResponse(m)
    && ZeroSum([m.dst] + m.data[..2])
    && ZeroSum(m.data[2..m.length])
  }

  /** What craft_error_response writes over a buffer that held `stale`. */
  function ErrorResponse(m: Message, cc: byte, stale: Message): (r: Message)
  {
    var netFn: byte := if IsRequestNetFn(NetFnLun(m)) then NetFnLun(m) + 4 else NetFnLun(m);
    Packet(m.resource, 7, PeerAddr(m),
           [netFn, Neg(PeerAddr(m) + netFn), m.dst, SeqNum(m), Command(m), cc,
            Neg(m.dst + Command(m) + SeqNum(m) + cc)] + stale.data[7..])
  }

  lemma SumOf2(a: byte, b: byte)
    ensures Sum([a, b]) == a + b
  {
    SumConcat([a], [b]);
    assert [a] + [b] == [a, b];
  }

  lemma SumOf3(a: byte, b: byte, c: byte)
    ensures Sum([a, b, c]) == a + b + c
  {
    SumConcat([a, b], [c]);
    SumOf2(a, b);
    assert [a, b] + [c] == [a, b, c];
  }

  /** The error response to a valid request is a checksummed response to the requester's
      address that echoes everything the broker matches on. */
  lemma ErrorResponseEchoes(m: Message, cc: byte, stale: Message)
    requires RequestMessage(m)
    ensures var r := ErrorResponse(m, cc, stale);
            && ResponseMessage(r)
            && r.dst == PeerAddr(m) && PeerAddr(r) == m.dst
            && RequestNetFn(r) == NetFnLun(m) / 4
            && SeqNum(r) == SeqNum(m) && Command(r) == Command(m)
            && r.data[5] == cc && r.resource == m.resource && r.length == 7
  {
    ErrorResponseSums(m, cc, stale);
    assert (NetFnLun(m) + 4) / 4 == NetFnLun(m) / 4 + 1;
  }

  lemma ErrorResponseSums(m: Message, cc: byte, stale: Message)
    ensures var r := ErrorResponse(m, cc, stale);
            ZeroSum([r.dst] + r.data[..2]) && ZeroSum(r.data[2..7])
  {
    var r := ErrorResponse(m, cc, stale);
    assert [r.dst] + r.data[..2] == [r.dst, r.data[0]] + [r.data[1]];
    ZeroSumLast([r.dst, r.data[0]], r.data[1]);
    SumOf2(r.dst, r.data[0]);
    var body := [r.data[2], r.data[3], r.data[4]] + [r.data[5]];
    assert r.data[2..7] == body + [r.data[6]];
    ZeroSumLast(body, r.data[6]);
    SumAppend([r.data[2], r.data[3], r.data[4]], r.data[5]);
    SumOf3(r.data[2], r.data[3], r.data[4]);
  }

  /* ----- message buffers updated in place ----- */

  /** A Message_t in memory. */
  class MessageBuffer {
    var resource: int
    var length: nat
    var dst: byte
    const data: array<byte>

    constructor ()
      ensures Valid() && fresh(data)
    {
      resource, length, dst := 0, 0, 0;
      data := new byte[MAX_IPMB_PKT_SIZE](_ => 0);
    }

    ghost predicate Valid() {
      data.Length == MAX_IPMB_PKT_SIZE
    }

    ghost function Value(): Message
      reads this, data
      requires Valid()
    {
      Packet(resource, length, dst, data[..])
    }
  }

  method CraftErrorResponse(m: MessageBuffer, rsp: MessageBuffer, cc: byte) returns (err: int)
    requires m.Valid() && rsp.Valid()
    requires m != rsp ==> m.data != rsp.data
    modifies rsp, rsp.data
    ensures err == 0 <==> old(RequestMessage(m.Value())) && m != rsp
    ensures err == 0 ==> rsp.Value() == ErrorResponse(m.Value(), cc, old(rsp.Value()))
    ensures err != 0 ==> err == EINVAL && rsp.Value() == old(rsp.Value())
  {
    var ok := ValidRequestMsg(Packet(m.resource, m.length, m.dst, m.data[..]));
    if !ok { return EINVAL; }
    if rsp == m { return EINVAL; }
    FillErrorResponse(m, rsp, cc);
    return 0;
  }

  /** The stores of craft_error_response, in the order it makes them. */
  method FillErrorResponse(m: MessageBuffer, rsp: MessageBuffer, cc: byte)
    requires m.Valid() && rsp.Valid() && m != rsp && m.data != rsp.data
    modifies rsp, rsp.data
    ensures rsp.Value() == ErrorResponse(m.Value(), cc, old(rsp.Value()))
  {
    rsp.resource := m.resource;
    rsp.dst := m.data[2];
    var netFn: byte := if (m.data[0] / 4) % 2 == 0 then m.data[0] + 4 else m.data[0];
    rsp.data[0] := netFn;
    rsp.data[1] := Neg(rsp.dst + netFn);
    rsp.data[2] := m.dst;
    rsp.data[4] := m.data[4];
    rsp.data[3] := m.data[3];
    rsp.data[5] := cc;
    rsp.data[6] := Neg(rsp.data[2] as int + rsp.data[4] + rsp.data[3] + rsp.data[5]);
    rsp.length := 7;
    ghost var e := ErrorResponse(m.Value(), cc, old(rsp.Value()));
    assert rsp.data[..][7..] == old(rsp.data[..])[7..];
    assert rsp.data[..] == rsp.data[..][..7] + rsp.data[..][7..];
    assert rsp.data[..][..7] == e.data[..7];
  }

  /** The message m_checksum leaves behind. */
  function Checksummed(m: Message): (r: Message)
    requires IPMB_REQ_SIZE < m.length <= MAX_IPMB_PKT_SIZE
  {
    m.(data := m.data[1 := Neg(m.dst + m.data[0])]
                     [m.length - 1 := Neg(Sum(m.data[2..m.length - 1]))])
  }

  /** The message after m_checksum is the one before it but for the two checksum bytes. */
  lemma ChecksumKeepsTheRest(m: Message)
    requires IPMB_REQ_SIZE < m.length <= MAX_IPMB_PKT_SIZE
    ensures var r := Checksummed(m);
            && r.resource == m.resource && r.length == m.length && r.dst == m.dst
            && forall i :: 0 <= i < MAX_IPMB_PKT_SIZE && i != 1 && i != m.length - 1 ==> r.data[i] == m.data[i]
  {
  }

  method MChecksum(msg: MessageBuffer)
    requires msg.Valid()
    requires IPMB_REQ_SIZE < msg.length <= MAX_IPMB_PKT_SIZE
    modifies msg.data
    ensures msg.Value() == Checksummed(old(msg.Value()))
  {
    ghost var d := msg.data[..];
    var dataLen := msg.length - IPMB_REQ_SIZE - 1;
    var headSum := Neg(msg.dst as int + msg.data[0]);
    msg.data[1] := headSum;
    assert msg.data[..] == d[1 := headSum];
    var cksum := RequestSum(msg.data[..], 5 + dataLen);
    assert msg.data[..][2..5 + dataLen] == d[2..5 + dataLen];
    msg.data[5 + dataLen] := Neg(cksum);
    NegMod(Sum(d[2..5 + dataLen]));
  }

  method RequestSum(d: seq<byte>, n: nat) returns (cksum: byte)
    requires 5 <= n <= |d|
    ensures cksum == Sum(d[2..n]) % 256
  {
    var head := d[2] as int + d[3] + d[4];
    HeaderAndDataSum(d, n);
    ModAdd(head, Sum(d[5..n]));
    cksum := Accumulate(Trunc(head), d, 5, n);
  }

  lemma NegMod(x: int)
    ensures Neg(x % 256) == Neg(x)
  {
  }

  lemma HeaderAndDataSum(d: seq<byte>, n: nat)
    requires 5 <= n <= |d|
    ensures Sum(d[2..n]) == d[2] + d[3] + d[4] + Sum(d[5..n])
  {
    assert d[2..n] == [d[2], d[3], d[4]] + d[5..n];
    SumConcat([d[2], d[3], d[4]], d[5..n]);
    SumOf3(d[2], d[3], d[4]);
  }

  /** m_checksum makes a valid request of anything with an even address and request NetFn,
      and of nothing else. */
  lemma ChecksumMakesRequest(m: Message)
    requires IPMB_REQ_SIZE < m.length <= MAX_IPMB_PKT_SIZE
    ensures RequestMessage(Checksummed(m)) <==> m.dst % 2 == 0 && IsRequestNetFn(NetFnLun(m))
  {
    ChecksumSums(m);
  }

  /** The two checksum bytes are determined by the rest: m_checksum leaves a message with
      zero sums alone, so it changes nothing the second time. */
  lemma ChecksumFixesZeroSums(m: Message)
    requires IPMB_REQ_SIZE < m.length <= MAX_IPMB_PKT_SIZE
    ensures ZeroSum([m.dst] + m.data[..2]) && ZeroSum(m.data[2..m.length]) <==> Checksummed(m) == m
  {
    if Checksummed(m) == m {
      ChecksumSums(m);
    }
    if ZeroSum([m.dst] + m.data[..2]) && ZeroSum(m.data[2..m.length]) {
      assert [m.dst] + m.data[..2] == [m.dst, m.data[0]] + [m.data[1]];
      ZeroSumLast([m.dst, m.data[0]], m.data[1]);
      SumOf2(m.dst, m.data[0]);
      var body := m.data[2..m.length - 1];
      assert m.data[2..m.length] == body + [m.data[m.length - 1]];
      ZeroSumLast(body, m.data[m.length - 1]);
    }
  }

  lemma ChecksumIdempotent(m: Message)
    requires IPMB_REQ_SIZE < m.length <= MAX_IPMB_PKT_SIZE
    ensures Checksummed(Checksummed(m)) == Checksummed(m)
  {
    ChecksumSums(m);
    ChecksumFixesZeroSums(Checksummed(m));
  }

  lemma ChecksumSums(m: Message)
    requires IPMB_REQ_SIZE < m.length <= MAX_IPMB_PKT_SIZE
    ensures var r := Checksummed(m);
            ZeroSum([r.dst] + r.data[..2]) && ZeroSum(r.data[2..r.length])
  {
    var r := Checksummed(m);
    assert [r.dst] + r.data[..2] == [r.dst, r.data[0]] + [r.data[1]];
    ZeroSumLast([r.dst, r.data[0]], r.data[1]);
    SumOf2(r.dst, r.data[0]);
    var body := m.data[2..m.length - 1];
    assert r.data[2..m.length] == body + [r.data[m.length - 1]];
    ZeroSumLast(body, r.data[m.length - 1]);
  }
}
