/** The packets that GRO considers, built from their parts. */
module GroCandidates {
  import opened Basics
  import opened Packet
  import opened GroPackets

  /** Numbers in network byte order. */
  function Be16(x: U16): (r: Bytes)
    ensures |r| == 2
  {
    [x / 0x100, x % 0x100]
  }

  function Be32(x: U32): (r: Bytes)
    ensures |r| == 4
  {
    Be16(x / 0x1_0000) + Be16(x % 0x1_0000)
  }

  /** An IPv4 header without options and not of a fragment, or an IPv6 header.  Lengths and the protocol
      are left out, and top is the first four bytes. */
  datatype Ip =
    | V4(tos: Byte, id: U16, flags: nat, ttl: Byte, sum: U16, src: Bytes, dst: Bytes)
    | V6(top: Bytes, hops: Byte, src: Bytes, dst: Bytes)

  /** A TCP header of a segment with ACK and nothing else but perhaps PSH, or a UDP header.  The rest
      is what GRO does not look at: window, checksum and urgent pointer, or length and checksum. */
  datatype Transport =
    | Tcp(srcPort: U16, dstPort: U16, seqNo: U32, ack: U32, reserved: nat, psh: bool, rest: Bytes, options: Bytes)
    | Udp(srcPort: U16, dstPort: U16, rest: Bytes)

  datatype Parts = Parts(ip: Ip, t: Transport, payload: Bytes)

  predicate ValidIp(ip: Ip) {
    match ip
    case V4(_, _, flags, _, _, src, dst) => flags < 4 && |src| == 4 && |dst| == 4
    case V6(top, _, src, dst) => |top| == 4 && 0x60 <= top[0] < 0x70 && |src| == 16 && |dst| == 16
  }

  predicate ValidTransport(t: Transport) {
    match t
    case Tcp(_, _, _, _, reserved, _, rest, options) =>
      reserved < 16 && |rest| == 6 && |options| % 4 == 0 && |options| <= 40
    case Udp(_, _, rest) => |rest| == 4
  }

  function IpLen(ip: Ip): nat { if ip.V6? then 40 else 20 }

  function TransportLen(t: Transport): nat { if t.Tcp? then 20 + |t.options| else 8 }

  /** There is a payload, and the whole packet has a length that IP can express. */
  predicate ValidParts(p: Parts) {
    && ValidIp(p.ip) && ValidTransport(p.t) && |p.payload| > 0
    && IpLen(p.ip) + TransportLen(p.t) + |p.payload| <= 0xffff
  }

  function IpBytes(ip: Ip, proto: Byte, after: nat): (r: Bytes)
    requires ValidIp(ip) && IpLen(ip) + after <= 0xffff
    ensures |r| == IpLen(ip)
  {
    match ip
    case V4(tos, id, flags, ttl, sum, src, dst) =>
      [0x45, tos] + Be16(20 + after) + Be16(id) + [FragmentByte(flags), 0, ttl, proto] + Be16(sum) + src + dst
    case V6(top, hops, src, dst) => top + Be16(after) + [proto, hops] + src + dst
  }

  /** The TCP header length in words, and the reserved bits. */
  function DataOffset(options: nat, reserved: nat): Byte
    requires options <= 40 && reserved < 16
  {
    (5 + options / 4) * 16 + reserved
  }

  /** The fragment byte of a packet that is no fragment. */
  function FragmentByte(flags: nat): Byte
    requires flags < 4
  {
    flags * 0x40
  }

  function TransportBytes(t: Transport): (r: Bytes)
    requires ValidTransport(t)
    ensures |r| == TransportLen(t)
  {
    match t
    case Tcp(srcPort, dstPort, seqNo, ack, reserved, psh, rest, options) =>
      Be16(srcPort) + Be16(dstPort) + Be32(seqNo) + Be32(ack) +
      [DataOffset(|options|, reserved), if psh then 0x18 else 0x10] + rest + options
    case Udp(srcPort, dstPort, rest) => Be16(srcPort) + Be16(dstPort) + rest
  }

  function Whole(p: Parts): Bytes
    requires ValidParts(p)
  {
    IpBytes(p.ip, if p.t.Tcp? then 6 else 17, TransportLen(p.t) + |p.payload|) + TransportBytes(p.t) + p.payload
  }

  /** What GRO finds out about a packet, from its parts. */
  function PartsInfo(p: Parts): Info
    requires ValidParts(p)
  {
    var ports := p.t.srcPort * 0x1_0000 + p.t.dstPort;
    if p.t.Tcp? then
      Info(TcpKey(p.ip.src, p.ip.dst, ports, p.t.ack, p.ip.V6?), IpLen(p.ip), TransportLen(p.t), |p.payload|, p.t.seqNo,
           p.t.psh)
    else Info(UdpKey(p.ip.src, p.ip.dst, ports, p.ip.V6?), IpLen(p.ip), 8, |p.payload|, 0, false)
  }

  // ---- Numbers -------------------------------------------------------------------------------------

  lemma Read16(b: Bytes, i: nat, x: U16)
    requires i + 2 <= |b| && b[i..i + 2] == Be16(x)
    ensures U16At(b, i) == x
  {
    assert b[i] == b[i..i + 2][0] && b[i + 1] == b[i..i + 2][1];
  }

  lemma Written16(b: Bytes, i: nat)
    requires i + 2 <= |b|
    ensures Be16(U16At(b, i)) == b[i..i + 2]
  {
  }

  lemma Read32(b: Bytes, i: nat, x: U32)
    requires i + 4 <= |b| && b[i..i + 4] == Be32(x)
    ensures U32At(b, i) == x
  {
    assert b[i..i + 2] == b[i..i + 4][..2] && b[i + 2..i + 4] == b[i..i + 4][2..];
    Read16(b, i, x / 0x1_0000);
    Read16(b, i + 2, x % 0x1_0000);
  }

  lemma Written32(b: Bytes, i: nat)
    requires i + 4 <= |b|
    ensures Be32(U32At(b, i)) == b[i..i + 4]
  {
    hide Be16, U16At;
    Written16(b, i);
    Written16(b, i + 2);
    Halves(U16At(b, i), U16At(b, i + 2));
    assert b[i..i + 4] == b[i..i + 2] + b[i + 2..i + 4];
  }

  lemma Halves(x: U16, y: U16)
    ensures (0x1_0000 * x + y) / 0x1_0000 == x && (0x1_0000 * x + y) % 0x1_0000 == y
  {
  }

  lemma Cut(b: Bytes, i: nat, j: nat, k: nat)
    requires i <= j <= k <= |b|
    ensures b[i..k] == b[i..j] + b[j..k]
  {
  }

  lemma Within(b: Bytes, h: nat, n: nat, i: nat, j: nat)
    requires h + n <= |b| && i <= j <= n
    ensures b[h..h + n][i..j] == b[h + i..h + j]
  {
    var x, y := b[h..h + n][i..j], b[h + i..h + j];
    assert forall k | 0 <= k < j - i :: x[k] == y[k];
  }

  // ---- A packet built from parts ---------------------------------------------------------------------

  lemma IpFields(ip: Ip, proto: Byte, after: nat, rest: Bytes)
    requires ValidIp(ip) && IpLen(ip) + after <= 0xffff && |rest| == after
    ensures var b := IpBytes(ip, proto, after) + rest;
      && b[0] / 16 == (if ip.V6? then 6 else 4) && (ip.V4? ==> b[0] % 16 == 5)
      && b[if ip.V6? then 6 else 9] == proto && IPChecks(b, ip.V6?)
      && Src(b, ip.V6?) == ip.src && Dst(b, ip.V6?) == ip.dst
  {
    var b := IpBytes(ip, proto, after) + rest;
    if ip.V6? {
      Read16(b, 4, after);
      assert b[0] == ip.top[0];
    } else {
      Read16(b, 2, 20 + after);
    }
  }

  lemma TransportFields(b: Bytes, h: nat, t: Transport)
    requires ValidTransport(t) && h + TransportLen(t) <= |b| && b[h..h + TransportLen(t)] == TransportBytes(t)
    ensures U32At(b, h) == t.srcPort * 0x1_0000 + t.dstPort
    ensures t.Tcp? ==> U32At(b, h + 4) == t.seqNo && U32At(b, h + 8) == t.ack
    ensures t.Tcp? ==> b[h + 12] / 16 * 4 == TransportLen(t) && b[h + 13] == if t.psh then 0x18 else 0x10
  {
    hide Be16, Be32, U16At;
    var n := TransportLen(t);
    var tb := b[h..h + n];
    assert tb[0..2] == Be16(t.srcPort) && tb[2..4] == Be16(t.dstPort);
    Within(b, h, n, 0, 2);
    Within(b, h, n, 2, 4);
    Read16(b, h, t.srcPort);
    Read16(b, h + 2, t.dstPort);
    if t.Tcp? {
      TcpSlices(t);
      Within(b, h, n, 4, 8);
      Within(b, h, n, 8, 12);
      Read32(b, h + 4, t.seqNo);
      Read32(b, h + 8, t.ack);
      assert b[h + 12] == tb[12] && b[h + 13] == tb[13];
    }
  }

  lemma TcpSlices(t: Transport)
    requires ValidTransport(t) && t.Tcp?
    ensures var tb := TransportBytes(t);
      && tb[4..8] == Be32(t.seqNo) && tb[8..12] == Be32(t.ack)
      && tb[12] == DataOffset(|t.options|, t.reserved) && tb[13] == if t.psh then 0x18 else 0x10
  {
    hide Be16, Be32;
  }

  /** The fields that GRO reads. */
  lemma WholeFields(p: Parts)
    requires ValidParts(p)
    ensures var b, h, isV6 := Whole(p), IpLen(p.ip), p.ip.V6?;
      && |b| == h + TransportLen(p.t) + |p.payload|
      && b[0] / 16 == (if isV6 then 6 else 4) && (!isV6 ==> b[0] % 16 == 5)
      && b[if isV6 then 6 else 9] == (if p.t.Tcp? then PROTO_TCP else PROTO_UDP)
      && IPChecks(b, isV6) && Src(b, isV6) == p.ip.src && Dst(b, isV6) == p.ip.dst
      && U32At(b, h) == p.t.srcPort * 0x1_0000 + p.t.dstPort
      && (p.t.Tcp? ==> U32At(b, h + 4) == p.t.seqNo && U32At(b, h + 8) == p.t.ack)
      && (p.t.Tcp? ==> b[h + 12] / 16 * 4 == TransportLen(p.t) && b[h + 13] == if p.t.psh then 0x18 else 0x10)
  {
    hide IpBytes, TransportBytes, IPChecks, Src, Dst, U32At, U16At, ValidTransport, ValidIp;
    var b, h, n := Whole(p), IpLen(p.ip), TransportLen(p.t);
    var proto := if p.t.Tcp? then PROTO_TCP else PROTO_UDP;
    assert b == IpBytes(p.ip, proto, n + |p.payload|) + (TransportBytes(p.t) + p.payload);
    IpFields(p.ip, proto, n + |p.payload|, TransportBytes(p.t) + p.payload);
    assert b[h..h + n] == TransportBytes(p.t);
    TransportFields(b, h, p.t);
  }

  /** Such a packet is a candidate, and GRO reads its parts. */
  lemma WholeIsCandidate(p: Parts, canUDPGRO: bool)
    requires ValidParts(p) && (p.t.Udp? ==> canUDPGRO)
    ensures Classify(Whole(p), canUDPGRO) == Some(PartsInfo(p))
  {
    hide Whole, IPChecks, Src, Dst, U32At, U16At, ValidIp;
    WholeFields(p);
  }

  // ---- The parts of a candidate ------------------------------------------------------------------------

  /** The IP header of a candidate. */
  function IpOf(b: Bytes, isV6: bool): Ip
    requires |b| >= MinIPHeader(isV6)
  {
    if isV6 then V6(b[..4], b[7], b[8..24], b[24..40])
    else V4(b[1], U16At(b, 4), b[6] / 0x40, b[8], U16At(b, 10), b[12..16], b[16..20])
  }

  function TransportOf(b: Bytes, h: nat, n: nat, tcp: bool): Transport
    requires h + n <= |b| && if tcp then n >= 20 else n == 8
  {
    if tcp then
      Tcp(U16At(b, h), U16At(b, h + 2), U32At(b, h + 4), U32At(b, h + 8), b[h + 12] % 16, b[h + 13] == 0x18,
          b[h + 14..h + 20], b[h + 20..h + n])
    else Udp(U16At(b, h), U16At(b, h + 2), b[h + 4..h + 8])
  }

  lemma FragmentByteOf(x: Byte)
    requires x / 0x20 % 2 == 0 && x % 0x20 == 0
    ensures x / 0x40 < 4 && FragmentByte(x / 0x40) == x
  {
  }

  lemma Ip4Cut(b: Bytes)
    requires |b| >= 20
    ensures b[..20] == [b[0], b[1]] + b[2..4] + b[4..6] + [b[6], b[7], b[8], b[9]] + b[10..12] + b[12..16] + b[16..20]
  {
    Cut(b, 0, 2, 4);
    Cut(b, 0, 4, 6);
    Cut(b, 0, 6, 10);
    Cut(b, 0, 10, 12);
    Cut(b, 0, 12, 16);
    Cut(b, 0, 16, 20);
    assert b[0..2] == [b[0], b[1]] && b[6..10] == [b[6], b[7], b[8], b[9]];
  }

  lemma Ip6Cut(b: Bytes)
    requires |b| >= 40
    ensures b[..40] == b[..4] + b[4..6] + [b[6], b[7]] + b[8..24] + b[24..40]
  {
    Cut(b, 0, 4, 6);
    Cut(b, 0, 6, 8);
    Cut(b, 0, 8, 24);
    Cut(b, 0, 24, 40);
    assert b[6..8] == [b[6], b[7]];
  }

  lemma Ip4Restored(b: Bytes)
    requires |b| >= 20 && IPChecks(b, false) && b[0] == 0x45
    ensures ValidIp(IpOf(b, false)) && IpBytes(IpOf(b, false), b[9], |b| - 20) == b[..20]
  {
    hide Be16, U16At, FragmentByte;
    Written16(b, 2);
    Written16(b, 4);
    Written16(b, 10);
    FragmentByteOf(b[6]);
    Ip4Cut(b);
  }

  lemma Ip6Restored(b: Bytes)
    requires |b| >= 40 && IPChecks(b, true) && 0x60 <= b[0] < 0x70
    ensures ValidIp(IpOf(b, true)) && IpBytes(IpOf(b, true), b[6], |b| - 40) == b[..40]
  {
    hide Be16, U16At;
    Written16(b, 4);
    Ip6Cut(b);
  }

  lemma IpRestored(b: Bytes, isV6: bool, proto: Byte)
    requires |b| >= MinIPHeader(isV6) && IPChecks(b, isV6) && b[0] / 16 == (if isV6 then 6 else 4)
    requires (!isV6 ==> b[0] % 16 == 5) && b[if isV6 then 6 else 9] == proto
    ensures var ip, h := IpOf(b, isV6), MinIPHeader(isV6);
      ValidIp(ip) && IpLen(ip) == h && |b| <= 0xffff && IpBytes(ip, proto, |b| - h) == b[..h]
  {
    hide IpBytes, U16At;
    if isV6 { Ip6Restored(b); } else { Ip4Restored(b); }
  }

  /** The data offset and the reserved bits. */
  lemma OffsetByte(x: Byte, n: nat)
    requires x / 16 * 4 == n && 20 <= n <= 60
    ensures (n - 20) % 4 == 0 && DataOffset(n - 20, x % 16) == x
  {
    assert (n - 20) / 4 == x / 16 - 5;
  }

  lemma TcpCut(b: Bytes, h: nat, n: nat)
    requires h + n <= |b| && n >= 20
    ensures b[h..h + n] == b[h..h + 2] + b[h + 2..h + 4] + b[h + 4..h + 8] + b[h + 8..h + 12] +
      [b[h + 12], b[h + 13]] + b[h + 14..h + 20] + b[h + 20..h + n]
  {
    Cut(b, h, h + 2, h + 4);
    Cut(b, h, h + 4, h + 8);
    Cut(b, h, h + 8, h + 12);
    Cut(b, h, h + 12, h + 14);
    Cut(b, h, h + 14, h + 20);
    Cut(b, h, h + 20, h + n);
    assert b[h + 12..h + 14] == [b[h + 12], b[h + 13]];
  }

  lemma TransportRestored(b: Bytes, h: nat, n: nat, tcp: bool)
    requires h + n <= |b| && if tcp then 20 <= n <= 60 && b[h + 12] / 16 * 4 == n else n == 8
    requires tcp ==> b[h + 13] == 0x10 || b[h + 13] == 0x18
    ensures var t := TransportOf(b, h, n, tcp);
      ValidTransport(t) && TransportLen(t) == n && TransportBytes(t) == b[h..h + n]
  {
    hide Be16, U16At, Be32, U32At, DataOffset;
    Written16(b, h);
    Written16(b, h + 2);
    if tcp {
      Written32(b, h + 4);
      Written32(b, h + 8);
      OffsetByte(b[h + 12], n);
      TcpCut(b, h, n);
    } else {
      Cut(b, h, h + 2, h + 4);
      Cut(b, h, h + 4, h + 8);
    }
  }

  lemma CandidateShape(b: Bytes, canUDPGRO: bool)
    requires Classify(b, canUDPGRO).Some?
    ensures var info := Classify(b, canUDPGRO).value;
      && info.iphLen == MinIPHeader(info.key.isV6) <= |b| && (info.key.UdpKey? ==> canUDPGRO)
      && IPChecks(b, info.key.isV6) && (!info.key.isV6 ==> b[0] % 16 == 5)
      && b[if info.key.isV6 then 6 else 9] == (if info.key.TcpKey? then PROTO_TCP else PROTO_UDP)
      && (info.key.TcpKey? ==> info.iphLen + 13 < |b| && (b[info.iphLen + 13] == 0x10 || b[info.iphLen + 13] == 0x18))
  {
    hide IPChecks, Src, Dst, U32At, U16At;
  }

  /** Every candidate is such a packet. */
  lemma CandidateIsWhole(b: Bytes, canUDPGRO: bool) returns (p: Parts)
    requires Classify(b, canUDPGRO).Some?
    ensures ValidParts(p) && (p.t.Udp? ==> canUDPGRO) && Whole(p) == b
  {
    hide IpBytes, TransportBytes, IPChecks, TransportOf, IpOf, Classify, ValidIp, ValidTransport, TransportLen;
    var info := Classify(b, canUDPGRO).value;
    var h, n, tcp := info.iphLen, info.thLen, info.key.TcpKey?;
    ClassifyFacts(b, canUDPGRO);
    CandidateShape(b, canUDPGRO);
    p := Parts(IpOf(b, info.key.isV6), TransportOf(b, h, n, tcp), b[h + n..]);
    IpRestored(b, info.key.isV6, if tcp then PROTO_TCP else PROTO_UDP);
    TransportRestored(b, h, n, tcp);
    TransportKind(b, h, n, tcp);
    assert b[..h] + b[h..h + n] + b[h + n..] == b;
  }

  lemma TransportKind(b: Bytes, h: nat, n: nat, tcp: bool)
    requires h + n <= |b| && if tcp then n >= 20 else n == 8
    ensures TransportOf(b, h, n, tcp).Tcp? <==> tcp
  {
  }

  /** The candidates are exactly the packets built from parts. */
  lemma Candidates(b: Bytes, canUDPGRO: bool)
    ensures Classify(b, canUDPGRO).Some? <==> exists p :: ValidParts(p) && (p.t.Udp? ==> canUDPGRO) && Whole(p) == b
  {
    hide Whole, Classify, ValidParts;
    if Classify(b, canUDPGRO).Some? {
      var p := CandidateIsWhole(b, canUDPGRO);
    } else if p :| ValidParts(p) && (p.t.Udp? ==> canUDPGRO) && Whole(p) == b {
      WholeIsCandidate(p, canUDPGRO);
    }
  }

  /** Two packets are of one flow if and only if they agree on the protocol, the IP version, the
      addresses and ports, and for TCP on the acknowledgement number. */
  lemma SameFlowParts(p: Parts, q: Parts)
    requires ValidParts(p) && ValidParts(q)
    ensures PartsInfo(p).key == PartsInfo(q).key <==>
      && p.ip.V6? == q.ip.V6? && p.ip.src == q.ip.src && p.ip.dst == q.ip.dst
      && p.t.srcPort == q.t.srcPort && p.t.dstPort == q.t.dstPort
      && p.t.Tcp? == q.t.Tcp? && (p.t.Tcp? ==> p.t.ack == q.t.ack)
  {
    Halves(p.t.srcPort, p.t.dstPort);
    Halves(q.t.srcPort, q.t.dstPort);
  }
}
