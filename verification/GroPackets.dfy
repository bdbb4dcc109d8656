/** Which packets may be merged by GRO, and what a run of mergeable packets is. */
module GroPackets {
  import opened Basics
  import opened Packet

  /** The flow of a packet.  The TCP and UDP tables of the source are one table here, whose
      keys say the protocol.  Different acknowledgement numbers are different flows. */
  datatype FlowKey =
    | TcpKey(src: Bytes, dst: Bytes, ports: U32, ack: U32, isV6: bool)
    | UdpKey(src: Bytes, dst: Bytes, ports: U32, isV6: bool)

  /** A GRO candidate: its flow, header lengths, payload size, sequence number and PSH flag. */
  datatype Info = Info(key: FlowKey, iphLen: nat, thLen: nat, size: U16, seqNo: U32, psh: bool)

  function ProtoOf(key: FlowKey): Byte { if key.TcpKey? then PROTO_TCP else PROTO_UDP }

  /** The flags byte of a candidate or merged TCP packet. */
  predicate FlagsOK(flags: Byte, psh: bool) {
    flags == if psh then FLAG_ACK + FLAG_PSH else FLAG_ACK
  }

  datatype Candidate = NotCandidate | TCP4 | TCP6 | UDP4 | UDP6

  function PacketIsGROCandidate(b: Bytes, canUDPGRO: bool): Candidate {
    if |b| < 28 then NotCandidate
    else if b[0] / 16 == 4 then
      if b[0] % 16 != 5 then NotCandidate
      else if b[9] == PROTO_TCP && |b| >= 40 then TCP4
      else if b[9] == PROTO_UDP && canUDPGRO then UDP4
      else NotCandidate
    else if b[0] / 16 == 6 then
      if b[6] == PROTO_TCP && |b| >= 60 then TCP6
      else if b[6] == PROTO_UDP && |b| >= 48 && canUDPGRO then UDP6
      else NotCandidate
    else NotCandidate
  }

  /** The length checks and the fragment check shared by tcpGRO and udpGRO. */
  predicate IPChecks(pkt: Bytes, isV6: bool)
    requires |pkt| >= MinIPHeader(isV6)
  {
    && |pkt| <= 0xffff
    && (if isV6 then U16At(pkt, 4) == |pkt| - 40
        else U16At(pkt, 2) == |pkt| && pkt[6] / 0x20 % 2 == 0 && pkt[6] % 0x20 == 0 && pkt[7] == 0)
  }

  /** The first part of tcpGRO, up to the table lookup; None is groResultNoop. */
  function ClassifyTCP(pkt: Bytes, isV6: bool): (r: Option<Info>)
    requires |pkt| >= MinIPHeader(isV6) + 20 && (!isV6 ==> pkt[0] % 16 == 5)
  {
    var iphLen := MinIPHeader(isV6);
    if !IPChecks(pkt, isV6) then None else
      var tcphLen := pkt[iphLen + 12] / 16 * 4;
      if tcphLen < 20 || tcphLen > 60 || |pkt| < iphLen + tcphLen then None else
        var flags := pkt[iphLen + TCP_FLAGS_OFFSET];
        if flags != FLAG_ACK && flags != FLAG_ACK + FLAG_PSH then None
        else if |pkt| - tcphLen - iphLen < 1 then None
        else
          Some(Info(TcpKey(Src(pkt, isV6), Dst(pkt, isV6), U32At(pkt, iphLen), U32At(pkt, iphLen + 8), isV6),
                    iphLen, tcphLen, |pkt| - tcphLen - iphLen, U32At(pkt, iphLen + 4), flags != FLAG_ACK))
  }

  function ClassifyUDP(pkt: Bytes, isV6: bool): (r: Option<Info>)
    requires |pkt| >= MinIPHeader(isV6) + 8 && (!isV6 ==> pkt[0] % 16 == 5)
  {
    var iphLen := MinIPHeader(isV6);
    if !IPChecks(pkt, isV6) || |pkt| - 8 - iphLen < 1 then None
    else Some(Info(UdpKey(Src(pkt, isV6), Dst(pkt, isV6), U32At(pkt, iphLen), isV6), iphLen, 8, |pkt| - 8 - iphLen, 0,
                   false))
  }

  function Classify(pkt: Bytes, canUDPGRO: bool): (r: Option<Info>) {
    match PacketIsGROCandidate(pkt, canUDPGRO)
    case NotCandidate => None
    case TCP4 => ClassifyTCP(pkt, false)
    case TCP6 => ClassifyTCP(pkt, true)
    case UDP4 => ClassifyUDP(pkt, false)
    case UDP6 => ClassifyUDP(pkt, true)
  }

  /** What the rest of GRO needs to know about a candidate. */
  lemma ClassifyFacts(pkt: Bytes, canUDPGRO: bool)
    requires Classify(pkt, canUDPGRO).Some?
    ensures var info := Classify(pkt, canUDPGRO).value;
      && |pkt| == info.iphLen + info.thLen + info.size <= 0xffff && info.size > 0
      && info.iphLen == MinIPHeader(info.key.isV6)
      && (if info.key.TcpKey? then
            && 20 <= info.thLen <= 60 && FlagsOK(pkt[info.iphLen + TCP_FLAGS_OFFSET], info.psh)
            && pkt[info.iphLen + 12] / 16 * 4 == info.thLen
          else info.thLen == 8 && !info.psh && info.seqNo == 0)
      && pkt[0] / 16 == (if info.key.isV6 then 6 else 4)
  {
  }

  /** The header fields that must agree before two packets are merged. */
  function HeaderClass(pkt: Bytes): (Byte, Byte, Byte)
    requires |pkt| >= 9
  {
    if pkt[0] / 16 == 6 then (pkt[0], pkt[1] / 16, pkt[7]) else (pkt[1], pkt[6] / 0x20, pkt[8])
  }

  predicate IpHeadersCanCoalesce(a: Bytes, b: Bytes) {
    if |a| < 9 || |b| < 9 then false
    else if a[0] / 16 == 6 then a[0] == b[0] && a[1] / 16 == b[1] / 16 && a[7] == b[7]
    else a[1] == b[1] && a[6] / 0x20 == b[6] / 0x20 && a[8] == b[8]
  }

  /** The TCP options of a packet (nothing for UDP). */
  function Options(pkt: Bytes, iphLen: nat, thLen: nat): Bytes
    requires iphLen + thLen <= |pkt|
  {
    if thLen > 20 then pkt[iphLen + 20..iphLen + thLen] else []
  }
}
