/**
 cytool.c: filling a transmit buffer with a request, plain or bridged inside a SendMessage
 (section 22.7 of IPMI v2.0).
 */
module CraftRequest {
  import opened Ipmb
  import opened Options

  const NETFN_APP_LUN: byte := 0x18   // NETFN_APP << 2
  const CMD_SEND_MSG: byte := 0x34
  const DEFAULT_CHANNEL: byte := 0x41
  const BRIDGE_HEADER := 7            // sizeof(IpmbBridgedReq_t)

  datatype Params = Params(bridge: bool, channel: Option<byte>, slave: byte, target: byte,
                           netFn: byte, command: byte, data: seq<byte>)

  /** What process_commandline lets through to craft_request. */
  predicate CommandLineOk(p: Params) {
    p.slave % 2 == 0 && p.target % 2 == 0 && p.netFn % 2 == 0 && |p.data| <= MAX_IPMB_PKT_SIZE
  }

  /** A checksummed frame with the given fields. */
  function Frame(slave: byte, netFnLun: byte, master: byte, seqNum: byte, command: byte, payload: seq<byte>): seq<byte>
  {
    [slave, netFnLun, Neg(slave + netFnLun), master, seqNum, command] + payload
    + [Neg(master + seqNum + command + Sum(payload))]
  }

  function NetFnLunOf(p: Params): byte { (p.netFn * 4) % 256 }

  function Channel(p: Params): byte {
    if p.channel.Some? then p.channel.value else DEFAULT_CHANNEL
  }

  /** The request itself, addressed past the bridge. */
  function Embedded(p: Params, bridgeSeq: byte): seq<byte> {
    Frame(p.target, NetFnLunOf(p), p.slave, bridgeSeq, p.command, p.data)
  }

  function Crafted(p: Params, bridgeSeq: byte, seqNum: byte): seq<byte> {
    if p.bridge
    then Frame(p.slave, NETFN_APP_LUN, MUX_ADDR, seqNum, CMD_SEND_MSG, [Channel(p)] + Embedded(p, bridgeSeq))
    else Frame(p.slave, NetFnLunOf(p), MUX_ADDR, seqNum, p.command, p.data)
  }

  /* ----- frames and their fields ----- */

  lemma FrameSums(slave: byte, netFnLun: byte, master: byte, seqNum: byte, command: byte, payload: seq<byte>)
    ensures var f := Frame(slave, netFnLun, master, seqNum, command, payload);
            ZeroSum(f[..3]) && ZeroSum(f[3..])
  {
    var f := Frame(slave, netFnLun, master, seqNum, command, payload);
    assert f[..3] == [slave, netFnLun] + [f[2]];
    ZeroSumLast([slave, netFnLun], f[2]);
    SumOf2(slave, netFnLun);
    var body := [master, seqNum, command] + payload;
    assert f[3..] == body + [f[|f| - 1]];
    ZeroSumLast(body, f[|f| - 1]);
    SumConcat([master, seqNum, command], payload);
    SumOf3(master, seqNum, command);
  }

  lemma FrameIsRequestIff(slave: byte, netFnLun: byte, master: byte, seqNum: byte, command: byte, payload: seq<byte>)
    ensures RequestFrame(Frame(slave, netFnLun, master, seqNum, command, payload)) <==>
            slave % 2 == 0 && IsRequestNetFn(netFnLun) && |payload| <= MAX_IPMB_PKT_SIZE - 6
  {
    FrameSums(slave, netFnLun, master, seqNum, command, payload);
  }

  /** Every frame the validator accepts is Frame of its own fields. */
  lemma RequestsAreFrames(b: seq<byte>)
    requires RequestFrame(b)
    ensures b == Frame(b[0], b[1], b[3], b[4], b[5], b[6..|b| - 1])
  {
    var n := |b| - 1;
    assert b[..3] == [b[0], b[1]] + [b[2]];
    ZeroSumLast([b[0], b[1]], b[2]);
    SumOf2(b[0], b[1]);
    var body := [b[3], b[4], b[5]] + b[6..n];
    assert b[3..] == body + [b[n]];
    ZeroSumLast(body, b[n]);
    SumConcat([b[3], b[4], b[5]], b[6..n]);
    SumOf3(b[3], b[4], b[5]);
    assert b == [b[0], b[1], b[2], b[3], b[4], b[5]] + b[6..n] + [b[n]];
  }

  /** Requests cytool sends are accepted by the multiplexer, and inside a SendMessage the
      bytes from RespAddr on are an acceptable request of their own. */
  lemma CraftedIsAccepted(p: Params, bridgeSeq: byte, seqNum: byte)
    requires CommandLineOk(p) && |Crafted(p, bridgeSeq, seqNum)| <= MAX_IPMB_PKT_SIZE
    ensures var f := Crafted(p, bridgeSeq, seqNum);
            && RequestFrame(f)
            && (p.bridge ==> && f[6] == Channel(p)
                             && f[7..|f| - 1] == Embedded(p, bridgeSeq) && RequestFrame(f[7..|f| - 1]))
  {
    var f := Crafted(p, bridgeSeq, seqNum);
    assert IsRequestNetFn(NetFnLunOf(p)) by { ShiftKeepsEven(p.netFn); }
    if p.bridge {
      var e := Embedded(p, bridgeSeq);
      FrameIsRequestIff(p.slave, NETFN_APP_LUN, MUX_ADDR, seqNum, CMD_SEND_MSG, [Channel(p)] + e);
      assert f[7..|f| - 1] == e;
      FrameIsRequestIff(p.target, NetFnLunOf(p), p.slave, bridgeSeq, p.command, p.data);
    } else {
      FrameIsRequestIff(p.slave, NetFnLunOf(p), MUX_ADDR, seqNum, p.command, p.data);
    }
  }

  /* ----- the bytes on the wire ----- */

  /** f is a request to p.slave, byte by byte. */
  predicate PlainLayout(f: seq<byte>, p: Params, seqNum: byte) {
    && |f| == 7 + |p.data|
    && f[0] == p.slave && f[1] == (p.netFn * 4) % 256
    && f[3] == 0x10 && f[4] == seqNum && f[5] == p.command
    && f[6..6 + |p.data|] == p.data
    && ZeroSum(f[..3]) && ZeroSum(f[3..])
  }

  /** f is a SendMessage to p.slave whose payload is the channel and a request to p.target. */
  predicate BridgedLayout(f: seq<byte>, p: Params, bridgeSeq: byte, seqNum: byte) {
    && |f| == 15 + |p.data|
    && f[0] == p.slave && f[1] == 0x18
    && f[3] == 0x10 && f[4] == seqNum && f[5] == 0x34
    && f[6] == (if p.channel.Some? then p.channel.value else 0x41)
    && f[7] == p.target && f[8] == (p.netFn * 4) % 256
    && f[10] == p.slave && f[11] == bridgeSeq && f[12] == p.command
    && f[13..13 + |p.data|] == p.data
    && ZeroSum(f[..3]) && ZeroSum(f[3..]) && ZeroSum(f[7..10]) && ZeroSum(f[10..14 + |p.data|])
  }

  lemma PlainBytes(p: Params, bridgeSeq: byte, seqNum: byte)
    requires !p.bridge
    ensures PlainLayout(Crafted(p, bridgeSeq, seqNum), p, seqNum)
  {
    FrameSums(p.slave, NetFnLunOf(p), MUX_ADDR, seqNum, p.command, p.data);
  }

  lemma BridgedBytes(p: Params, bridgeSeq: byte, seqNum: byte)
    requires p.bridge
    ensures BridgedLayout(Crafted(p, bridgeSeq, seqNum), p, bridgeSeq, seqNum)
  {
    var f := Crafted(p, bridgeSeq, seqNum);
    var e := Embedded(p, bridgeSeq);
    FrameSums(p.slave, NETFN_APP_LUN, MUX_ADDR, seqNum, CMD_SEND_MSG, [Channel(p)] + e);
    FrameSums(p.target, NetFnLunOf(p), p.slave, bridgeSeq, p.command, p.data);
    assert f[7..14 + |p.data|] == e;
    assert f[7..10] == e[..3] && f[10..14 + |p.data|] == e[3..];
    assert e[6..6 + |p.data|] == p.data;
    assert f[13..13 + |p.data|] == e[6..6 + |p.data|];
    assert f[7] == e[0] && f[8] == e[1] && f[10] == e[3] && f[11] == e[4] && f[12] == e[5];
  }

  lemma ShiftKeepsEven(n: byte)
    ensures (((n * 4) % 256) / 4) % 2 == n % 2
  {
    assert (n * 4) % 256 == (n % 64) * 4;
  }

  /* ----- filling the buffer ----- */

  method CopyBytes(buf: array<byte>, at: nat, d: seq<byte>)
    requires at + |d| <= buf.Length
    modifies buf
    ensures buf[at..at + |d|] == d
    ensures forall i :: 0 <= i < buf.Length && !(at <= i < at + |d|) ==> buf[i] == old(buf[i])
  {
    for i := 0 to |d|
      invariant forall j :: 0 <= j < i ==> buf[at + j] == d[j]
      invariant forall j :: 0 <= j < buf.Length && !(at <= j < at + i) ==> buf[j] == old(buf[j])
    {
      buf[at + i] := d[i];
    }
  }

  function Header(slave: byte, netFnLun: byte, master: byte, seqNum: byte, command: byte): seq<byte> {
    [slave, netFnLun, Neg(slave + netFnLun), master, seqNum, command]
  }

  method PutHeader(buf: array<byte>, at: nat, slave: byte, netFnLun: byte, master: byte, seqNum: byte, command: byte)
    requires at + 6 <= buf.Length
    modifies buf
    ensures buf[at..at + 6] == Header(slave, netFnLun, master, seqNum, command)
    ensures forall i :: 0 <= i < buf.Length && !(at <= i < at + 6) ==> buf[i] == old(buf[i])
  {
    buf[at] := slave;
    buf[at + 1] := netFnLun;
    Complement(slave + netFnLun, Trunc(slave as int + netFnLun));
    buf[at + 2] := Add8(255 - Trunc(slave as int + netFnLun), 1);
    buf[at + 3] := master;
    buf[at + 4] := seqNum;
    buf[at + 5] := command;
  }

  /** The complement of the sum from the second address to the last payload byte, which
      completes a frame. */
  method LastChecksum(header: seq<byte>, payload: seq<byte>) returns (last: byte)
    requires |header| == 6
    ensures last == Neg(header[3] as int + header[4] + header[5] + Sum(payload))
  {
    var head := header[3] as int + header[4] + header[5];
    var cksum := Accumulate(Trunc(head), payload, 0, |payload|);
    assert payload[0..|payload|] == payload;
    ModAdd(head, Sum(payload));
    Complement(head + Sum(payload), cksum);
    last := Add8(255 - cksum, 1);
  }

  /** ^= 0xFF, then ++. */
  lemma Complement(x: nat, cksum: byte)
    requires cksum == x % 256
    ensures Add8(255 - cksum, 1) == Neg(x)
  {
  }

  /** Header and checksum around a payload of n bytes already in place. */
  method PutAround(buf: array<byte>, at: nat, n: nat,
                   slave: byte, netFnLun: byte, master: byte, seqNum: byte, command: byte)
    requires at + 6 + n < buf.Length
    modifies buf
    ensures buf[at..at + 7 + n] == Frame(slave, netFnLun, master, seqNum, command, old(buf[at + 6..at + 6 + n]))
    ensures forall i :: 0 <= i < buf.Length && !(at <= i < at + 7 + n) ==> buf[i] == old(buf[i])
  {
    ghost var payload := buf[at + 6..at + 6 + n];
    PutHeader(buf, at, slave, netFnLun, master, seqNum, command);
    assert buf[at + 6..at + 6 + n] == payload;
    var last := LastChecksum(buf[at..at + 6], buf[at + 6..at + 6 + n]);
    buf[at + 6 + n] := last;
    assert buf[at..at + 6] == Header(slave, netFnLun, master, seqNum, command);
    assert buf[at + 6..at + 6 + n] == payload;
    assert buf[at..at + 7 + n] == buf[at..at + 6] + buf[at + 6..at + 6 + n] + [buf[at + 6 + n]];
  }

  /** The embedded request behind its channel byte, at offset 6. */
  method PutBridged(buf: array<byte>, p: Params, bridgeSeq: byte)
    requires 14 + |p.data| <= buf.Length
    modifies buf
    ensures buf[6..14 + |p.data|] == [Channel(p)] + Embedded(p, bridgeSeq)
    ensures forall i :: 0 <= i < buf.Length && !(6 <= i < 14 + |p.data|) ==> buf[i] == old(buf[i])
  {
    var l := |p.data|;
    CopyBytes(buf, 13, p.data);
    buf[6] := Channel(p);
    assert buf[13..13 + l] == p.data;
    PutAround(buf, 7, l, p.target, NetFnLunOf(p), p.slave, bridgeSeq, p.command);
    assert buf[6..14 + l] == [buf[6]] + buf[7..14 + l];
  }

  method PutBridgedRequest(buf: array<byte>, p: Params, bridgeSeq: byte, seqNum: byte)
    requires p.bridge && 15 + |p.data| <= buf.Length
    modifies buf
    ensures buf[..15 + |p.data|] == Crafted(p, bridgeSeq, seqNum)
    ensures forall i :: 15 + |p.data| <= i < buf.Length ==> buf[i] == old(buf[i])
  {
    PutBridged(buf, p, bridgeSeq);
    PutAround(buf, 0, 8 + |p.data|, p.slave, NETFN_APP_LUN, MUX_ADDR, seqNum, CMD_SEND_MSG);
    assert buf[..15 + |p.data|] == buf[0..15 + |p.data|];
  }

  method PutPlainRequest(buf: array<byte>, p: Params, bridgeSeq: byte, seqNum: byte)
    requires !p.bridge && 7 + |p.data| <= buf.Length
    modifies buf
    ensures buf[..7 + |p.data|] == Crafted(p, bridgeSeq, seqNum)
    ensures forall i :: 7 + |p.data| <= i < buf.Length ==> buf[i] == old(buf[i])
  {
    CopyBytes(buf, 6, p.data);
    PutAround(buf, 0, |p.data|, p.slave, NetFnLunOf(p), MUX_ADDR, seqNum, p.command);
    assert buf[..7 + |p.data|] == buf[0..7 + |p.data|];
  }

  /** craft_request on the first len bytes of a buffer. GetSeqNum is a parameter; None is the
      exit for data that does not fit. Nothing at or past len is written. */
  method Craft(buf: array<byte>, len: nat, p: Params, bridgeSeq: byte, seqNum: byte) returns (r: Option<nat>)
    requires 4 <= len <= buf.Length
    modifies buf
    ensures r.Some? <==> |p.data| + (if p.bridge then 14 else 7) < len
    ensures r.Some? ==> r.value <= len && buf[..r.value] == Crafted(p, bridgeSeq, seqNum)
    ensures r.Some? ==> if p.bridge then BridgedLayout(buf[..r.value], p, bridgeSeq, seqNum)
                        else PlainLayout(buf[..r.value], p, seqNum)
    ensures forall i :: len <= i < buf.Length ==> buf[i] == old(buf[i])
  {
    forall i | 0 <= i < len { buf[i] := 0; }
    buf[0] := p.slave;
    buf[3] := MUX_ADDR;
    var l := |p.data|;
    if p.bridge {
      if 1 + IPMB_REQ_SIZE + BRIDGE_HEADER + l + 1 >= len { return None; }
      PutBridgedRequest(buf, p, bridgeSeq, seqNum);
      BridgedBytes(p, bridgeSeq, seqNum);
      return Some(15 + l);
    } else {
      if 1 + IPMB_REQ_SIZE + l + 1 >= len { return None; }
      PutPlainRequest(buf, p, bridgeSeq, seqNum);
      PlainBytes(p, bridgeSeq, seqNum);
      return Some(7 + l);
    }
  }
}
