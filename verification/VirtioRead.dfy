/** What is made of a packet that is read from the tunnel device with its virtio header
    (handleVirtioRead). */
module VirtioRead {
  import opened Basics
  import opened Packet
  import opened Gso

  datatype ReadError = Fine | Malformed | Overflows | TooManySegments

  /** What the reader takes on trust from the kernel: a checksum field that lies in the packet, and
      for a super-packet segments that are not empty and the field where TCP and UDP may have it. */
  predicate FromKernel(in0: Bytes, hdr: VirtioHdr) {
    if hdr.gsoType.GsoNone? then
      hdr.needsCsum ==> hdr.csumStart <= |in0| && Sum16(hdr.csumStart, hdr.csumOffset) + 2 <= |in0|
    else
      && 0 < |in0| < 0x1_0000 && hdr.gsoSize > 0 && MinIPHeader(in0[0] / 16 == 6) <= hdr.csumStart
      && hdr.csumOffset % 2 == 0
      && (if IsTCP(hdr) then 8 <= hdr.csumOffset <= 18 && hdr.csumOffset != 12 else hdr.csumOffset == 6)
  }

  /** The kind of super-packet agrees with the version of the IP header. */
  predicate VersionFits(version: nat, kind: GsoType) {
    || (version == 4 && (kind.TCPV4? || kind.UDPL4?))
    || (version == 6 && (kind.TCPV6? || kind.UDPL4?))
  }

  /** The length of the transport header, if it is a whole one inside the packet. */
  function TransportLen(in0: Bytes, hdr: VirtioHdr): Option<nat> {
    if !IsTCP(hdr) then if hdr.csumStart + 8 <= |in0| then Some(8) else None
    else if |in0| <= hdr.csumStart + 12 then None
    else
      var len := in0[hdr.csumStart + 12] / 16 * 4;
      if 20 <= len && hdr.csumStart + len <= |in0| then Some(len) else None
  }

  predicate Accepted(in0: Bytes, hdr: VirtioHdr) {
    |in0| > 0 && VersionFits(in0[0] / 16, hdr.gsoType) && TransportLen(in0, hdr).Some?
  }

  /** The header with the length that the reader has found itself. */
  function Parsed(in0: Bytes, hdr: VirtioHdr): (r: VirtioHdr)
    requires FromKernel(in0, hdr) && Accepted(in0, hdr)
    ensures WellFormed(in0, r, in0[0] / 16 == 6)
  {
    hdr.(hdrLen := hdr.csumStart + TransportLen(in0, hdr).value)
  }

  /** The header lengths are added up in 16 bits; a sum that wraps around is never accepted. */
  method ParseHdrLen(in0: Bytes, hdr: VirtioHdr) returns (ok: bool, hdrLen: U16)
    requires FromKernel(in0, hdr) && |in0| > 0 && VersionFits(in0[0] / 16, hdr.gsoType)
    ensures ok <==> TransportLen(in0, hdr).Some?
    ensures ok ==> hdrLen == hdr.csumStart + TransportLen(in0, hdr).value
  {
    if hdr.gsoType.UDPL4? {
      hdrLen := Sum16(hdr.csumStart, 8);
    } else {
      if |in0| <= Sum16(hdr.csumStart, 12) {
        return false, 0;
      }
      var tcpHLen := in0[Sum16(hdr.csumStart, 12)] / 16 * 4;
      if tcpHLen < 20 || tcpHLen > 60 {
        return false, 0;
      }
      hdrLen := Sum16(hdr.csumStart, tcpHLen);
    }
    if |in0| < hdrLen || hdrLen < hdr.csumStart {
      return false, hdrLen;
    }
    var cSumAt: nat := Sum16(hdr.csumStart, hdr.csumOffset);
    ok := cSumAt + 1 < |in0|;
  }

  /** The segments that go into nOut buffers. */
  ghost predicate Split(in0: Bytes, hdr: VirtioHdr, isV6: bool, nOut: nat, outs: seq<Bytes>, tooMany: bool)
    requires WellFormed(in0, hdr, isV6)
  {
    var n := Pieces(|in0| - hdr.hdrLen, hdr.gsoSize);
    && (tooMany <==> n > nOut) && |outs| == (if tooMany then nOut else n)
    && (forall i | 0 <= i < |outs| :: IsSegment(outs[i], in0, hdr, isV6, i) && hdr.hdrLen <= |outs[i]|)
    && (forall i | 0 <= i < |outs| :: InSequence(outs, in0, hdr, isV6, i))
  }

  /** room is the space in the first buffer, and nOut the number of buffers. */
  method HandleVirtioRead(in0: Bytes, hdr: VirtioHdr, room: nat, nOut: nat, big: bool)
    returns (outs: seq<Bytes>, err: ReadError)
    requires FromKernel(in0, hdr)
    ensures hdr.gsoType.GsoNone? ==> err == if |in0| > room then Overflows else Fine
    ensures hdr.gsoType.GsoNone? && err.Fine? ==>
      |outs| == 1 && |outs[0]| == |in0| && (!hdr.needsCsum ==> outs[0] == in0)
    ensures hdr.gsoType.GsoNone? && err.Fine? && hdr.needsCsum ==>
      var at := Sum16(hdr.csumStart, hdr.csumOffset); outs[0] == Put16(in0, at, Completion(in0, hdr.csumStart, at))
    ensures !hdr.gsoType.GsoNone? ==> !err.Overflows? && (err.Malformed? <==> !Accepted(in0, hdr))
    ensures !hdr.gsoType.GsoNone? && !err.Malformed? ==>
      Split(in0, Parsed(in0, hdr), in0[0] / 16 == 6, nOut, outs, err.TooManySegments?)
  {
    hide Completion, Put16, Pieces, IsSegment, InSequence, TransportLen, WellFormed;
    if hdr.gsoType.GsoNone? {
      var inp := in0;
      if hdr.needsCsum {
        inp := GsoNoneChecksum(inp, hdr.csumStart, hdr.csumOffset, big);
        Put16Length(in0, hdr);
      }
      if |inp| > room {
        return [], Overflows;
      }
      return [inp], Fine;
    }
    var ipVersion := in0[0] / 16;
    if !VersionFits(ipVersion, hdr.gsoType) {
      return [], Malformed;
    }
    var ok, hdrLen := ParseHdrLen(in0, hdr);
    if !ok {
      return [], Malformed;
    }
    var h := hdr.(hdrLen := hdrLen);
    assert h == Parsed(in0, hdr);
    var inp, n, tooMany;
    inp, outs, n, tooMany := GsoSplit(in0, h, ipVersion == 6, nOut, big);
    err := if tooMany then TooManySegments else Fine;
  }

  lemma Put16Length(in0: Bytes, hdr: VirtioHdr)
    requires FromKernel(in0, hdr) && hdr.gsoType.GsoNone? && hdr.needsCsum
    ensures var at := Sum16(hdr.csumStart, hdr.csumOffset);
      |Put16(in0, at, Completion(in0, hdr.csumStart, at))| == |in0|
  {
  }
}
