/** The accounting pass: lengths, checksums and virtio header of a merged packet. */
module GroAccounting {
  import opened Basics
  import opened Checksum
  import opened Packet
  import opened GroPackets
  import Gso

  function CsumOffset(key: FlowKey): nat { if key.TcpKey? then 16 else 6 }

  function HdrFor(key: FlowKey, thLen: nat, gsoSize: U16): Gso.VirtioHdr
    requires thLen <= 60
  {
    var iphLen := MinIPHeader(key.isV6);
    Gso.VirtioHdr(true, if key.UdpKey? then Gso.UDPL4 else if key.isV6 then Gso.TCPV6 else Gso.TCPV4,
                  iphLen + thLen, gsoSize, iphLen, CsumOffset(key))
  }

  predicate THLen(key: FlowKey, thLen: nat) { if key.TcpKey? then 20 <= thLen <= 60 else thLen == 8 }

  /** The bytes that the accounting pass sets. */
  predicate Touched(key: FlowKey, j: nat) {
    var h := MinIPHeader(key.isV6);
    || (if key.isV6 then j == 4 || j == 5 else j == 2 || j == 3 || j == 10 || j == 11)
    || (key.UdpKey? && (j == h + 4 || j == h + 5))
    || j == h + CsumOffset(key) || j == h + CsumOffset(key) + 1
  }

  /** out is the merged packet pkt with its lengths, its IPv4 header checksum and its
      partial transport checksum brought up to date. */
  ghost predicate IsAccounted(out: Bytes, pkt: Bytes, key: FlowKey, thLen: nat) {
    var h := MinIPHeader(key.isV6);
    && THLen(key, thLen)
    && |out| == |pkt| && h + thLen <= |pkt| <= 0xffff
    && (forall j | 0 <= j < |pkt| && !Touched(key, j) :: out[j] == pkt[j])
    && (if key.isV6 then U16At(out, 4) == |out| - h else U16At(out, 2) == |out| && HeaderValid(out, h))
    && (key.UdpKey? ==> U16At(out, h + 4) == |out| - h)
    && U16At(out, h + CsumOffset(key)) == Fold(PseudoSum(out, key.isV6, ProtoOf(key), |out| - h))
  }

  /** The IP header: payload length, or total length and header checksum. */
  method AccountIP(pkt: Bytes, isV6: bool, big: bool) returns (out: Bytes)
    requires MinIPHeader(isV6) <= |pkt| <= 0xffff
    ensures |out| == |pkt|
    ensures forall j | 0 <= j < |pkt| && !(if isV6 then j == 4 || j == 5 else j == 2 || j == 3 || j == 10 || j == 11) ::
      out[j] == pkt[j]
    ensures if isV6 then U16At(out, 4) == |out| - 40 else U16At(out, 2) == |out| && HeaderValid(out, 20)
  {
    hide WordSum, Fold, Put16;
    if isV6 {
      out := Put16(pkt, 4, |pkt| - 40);
    } else {
      out := Put16(pkt, 10, 0);
      out := Put16(out, 2, |pkt|);
      var sum := Compute(out[..20], 0, big);
      ghost var h := out[..20];
      assert U16At(h, 10) == 0;
      FieldCompletes(0, h, 10);
      Put16Prefix(out, 20, 10, 0xffff - sum);
      out := Put16(out, 10, 0xffff - sum);
    }
  }

  lemma HeaderKept(a: Bytes, b: Bytes, isV6: bool)
    requires |a| == |b| && MinIPHeader(isV6) <= |a|
    requires forall j | 0 <= j < MinIPHeader(isV6) :: a[j] == b[j]
    ensures U16At(a, 2) == U16At(b, 2) && U16At(a, 4) == U16At(b, 4)
    ensures HeaderValid(a, MinIPHeader(isV6)) == HeaderValid(b, MinIPHeader(isV6))
    ensures Src(a, isV6) == Src(b, isV6) && Dst(a, isV6) == Dst(b, isV6)
  {
    assert a[..MinIPHeader(isV6)] == b[..MinIPHeader(isV6)];
  }

  method AccountItem(pkt: Bytes, key: FlowKey, thLen: nat, gsoSize: U16, big: bool)
    returns (out: Bytes, hdr: Gso.VirtioHdr)
    requires THLen(key, thLen) && MinIPHeader(key.isV6) + thLen <= |pkt| <= 0xffff
    ensures IsAccounted(out, pkt, key, thLen)
    ensures hdr == HdrFor(key, thLen, gsoSize)
  {
    hide WordSum, Fold, Put16, Same, Src, Dst, HeaderValid, PseudoHeader, U16At;
    var iphLen := MinIPHeader(key.isV6);
    hdr := HdrFor(key, thLen, gsoSize);
    var a := AccountIP(pkt, key.isV6, big);
    var b := a;
    if key.UdpKey? {
      b := Put16(a, iphLen + 4, |pkt| - iphLen);
    }
    var len: U16 := |pkt| - iphLen;
    var psum := PseudoHeaderNoFold(ProtoOf(key), Src(b, key.isV6), Dst(b, key.isV6), len, big);
    var sum := Compute([], psum, big);
    SameIsFold(psum, PseudoSum(b, key.isV6, ProtoOf(key), len));
    assert WordSum([]) == 0 by { EmptySum(); }
    out := Put16(b, iphLen + CsumOffset(key), sum);
    HeaderKept(a, out, key.isV6);
    HeaderKept(b, out, key.isV6);
    if key.UdpKey? { U16Kept(b, out, iphLen + 4); }
  }

  lemma EmptySum()
    ensures WordSum([]) == 0
  {
  }

  lemma U16Kept(a: Bytes, b: Bytes, i: nat)
    requires i + 2 <= |a| == |b| && a[i] == b[i] && a[i + 1] == b[i + 1]
    ensures U16At(a, i) == U16At(b, i)
  {
  }

  /** The accounted packet and its virtio header are what gsoSplit expects. */
  lemma AccountedWellFormed(out: Bytes, pkt: Bytes, key: FlowKey, thLen: nat, gsoSize: U16)
    requires IsAccounted(out, pkt, key, thLen) && gsoSize > 0
    ensures Gso.WellFormed(out, HdrFor(key, thLen, gsoSize), key.isV6)
  {
  }

  /** Completing the partial checksum makes the merged packet valid. */
  lemma AccountedCompletes(out: Bytes, pkt: Bytes, key: FlowKey, thLen: nat, done: Bytes)
    requires IsAccounted(out, pkt, key, thLen) && |done| == |out|
    requires var h := MinIPHeader(key.isV6);
      && (forall j | 0 <= j < |out| && j != h + CsumOffset(key) && j != h + CsumOffset(key) + 1 :: done[j] == out[j])
      && Fold(U16At(out, h + CsumOffset(key)) + WordSum(done[h..])) == 0xffff
    ensures ChecksumValid(done, MinIPHeader(key.isV6), ProtoOf(key), key.isV6)
    ensures !key.isV6 ==> HeaderValid(done, 20)
  {
    hide WordSum, U16At, PseudoHeader;
    var h := MinIPHeader(key.isV6);
    FoldOfSmall(Fold(PseudoSum(out, key.isV6, ProtoOf(key), |out| - h)));
    Gso.PartialCompletes(out, done, h, CsumOffset(key), ProtoOf(key), key.isV6);
    HeaderKept(out, done, key.isV6);
  }
}
