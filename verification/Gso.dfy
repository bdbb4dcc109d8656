/** Cutting a super-packet into segments (gsoSplit) and completing a partial checksum
    (gsoNoneChecksum). */
module Gso {
  import opened Basics
  import opened Checksum
  import opened Packet

  /** The kinds of super-packet; Other stands for those that the reader does not support. */
  datatype GsoType = GsoNone | TCPV4 | TCPV6 | UDPL4 | Other

  datatype VirtioHdr = VirtioHdr(needsCsum: bool, gsoType: GsoType, hdrLen: U16, gsoSize: U16, csumStart: U16,
                                 csumOffset: U16)

  predicate IsTCP(hdr: VirtioHdr) { hdr.gsoType.TCPV4? || hdr.gsoType.TCPV6? }

  function Proto(hdr: VirtioHdr): Byte { if IsTCP(hdr) then PROTO_TCP else PROTO_UDP }

  /** What the caller has checked or the kernel guarantees: a whole IP header, a whole
      transport header, a non-empty segment size, and a checksum field that lies in the
      transport header apart from the fields that are rewritten. */
  predicate WellFormed(in0: Bytes, hdr: VirtioHdr, isV6: bool) {
    && MinIPHeader(isV6) <= hdr.csumStart
    && hdr.csumStart + (if IsTCP(hdr) then 20 else 8) <= hdr.hdrLen <= |in0| < 0x1_0000
    && hdr.gsoSize > 0
    && hdr.csumOffset % 2 == 0 && hdr.csumStart + hdr.csumOffset + 2 <= hdr.hdrLen
    && (if IsTCP(hdr) then hdr.csumOffset >= 8 && hdr.csumOffset != 12 else hdr.csumOffset >= 6)
  }

  /** The header bytes that differ from segment to segment. */
  predicate Rewritten(hdr: VirtioHdr, isV6: bool, j: nat) {
    var h: nat := hdr.csumStart;
    || j == h + hdr.csumOffset || j == h + hdr.csumOffset + 1
    || (if isV6 then j == 4 || j == 5 else 2 <= j < 6 || j == 10 || j == 11)
    || (if IsTCP(hdr) then h + 4 <= j < h + 8 || j == h + TCP_FLAGS_OFFSET else j == h + 4 || j == h + 5)
  }

  /** Sequence numbers and IPv4 identifications wrap around. */
  function SeqPlus(first: U32, n: nat): U32 { (first + n) % 0x1_0000_0000 }
  function IdPlus(id: U16, i: nat): U16 { (id + i) % 0x1_0000 }

  /** FIN and PSH removed from a flags byte. */
  function ClearFinPsh(flags: Byte): Byte
  {
    var a := if flags % 2 == 1 then flags - FLAG_FIN else flags;
    if a / FLAG_PSH % 2 == 1 then a - FLAG_PSH else a
  }

  /** The number of segments that gsoSize-sized cuts make of n bytes. */
  function Pieces(n: nat, gsoSize: nat): nat
    requires gsoSize > 0
  {
    (n + gsoSize - 1) / gsoSize
  }

  /** Where segment i starts in the payload. */
  function SegmentAt(i: nat, gsoSize: nat): nat { i * gsoSize }

  /** Piece i of data cut every gsoSize bytes. */
  function Piece(data: Bytes, gsoSize: nat, i: nat): Bytes
    requires gsoSize > 0 && SegmentAt(i, gsoSize) <= |data|
  {
    if SegmentAt(i + 1, gsoSize) <= |data| then data[SegmentAt(i, gsoSize)..SegmentAt(i + 1, gsoSize)]
    else data[SegmentAt(i, gsoSize)..]
  }

  /** The input with the checksum fields cleared, as gsoSplit leaves it. */
  function Cleared(in0: Bytes, hdr: VirtioHdr, isV6: bool): (r: Bytes)
    requires WellFormed(in0, hdr, isV6)
  {
    var a := if isV6 then in0 else Put16(in0, 10, 0);
    Put16(a, hdr.csumStart + hdr.csumOffset, 0)
  }

  lemma ClearedAt(in0: Bytes, hdr: VirtioHdr, isV6: bool, j: nat)
    requires WellFormed(in0, hdr, isV6) && j < |in0|
    requires j != hdr.csumStart + hdr.csumOffset && j != hdr.csumStart + hdr.csumOffset + 1
    requires isV6 || (j != 10 && j != 11)
    ensures |Cleared(in0, hdr, isV6)| == |in0| && Cleared(in0, hdr, isV6)[j] == in0[j]
  {
  }

  lemma ClearedFields(in0: Bytes, hdr: VirtioHdr, isV6: bool)
    requires WellFormed(in0, hdr, isV6)
    ensures var r := Cleared(in0, hdr, isV6);
      && |r| == |in0| && WellFormed(r, hdr, isV6)
      && U16At(r, hdr.csumStart + hdr.csumOffset) == 0 && (!isV6 ==> U16At(r, 10) == 0)
  {
    hide Put16;
  }

  lemma SameU32(a: Bytes, b: Bytes, i: nat)
    requires i + 4 <= |a| == |b| && a[i] == b[i] && a[i + 1] == b[i + 1] && a[i + 2] == b[i + 2] && a[i + 3] == b[i + 3]
    ensures U32At(a, i) == U32At(b, i)
  {
  }

  lemma ClearedTCP(in0: Bytes, hdr: VirtioHdr, isV6: bool)
    requires WellFormed(in0, hdr, isV6) && IsTCP(hdr)
    ensures var r := Cleared(in0, hdr, isV6);
      && |r| == |in0|
      && r[hdr.csumStart + TCP_FLAGS_OFFSET] == in0[hdr.csumStart + TCP_FLAGS_OFFSET]
      && U32At(r, hdr.csumStart + 4) == U32At(in0, hdr.csumStart + 4)
  {
    hide Cleared, U32At;
    var t: nat := hdr.csumStart;
    ClearedAt(in0, hdr, isV6, t + TCP_FLAGS_OFFSET);
    ClearedAt(in0, hdr, isV6, t + 4);
    ClearedAt(in0, hdr, isV6, t + 5);
    ClearedAt(in0, hdr, isV6, t + 6);
    ClearedAt(in0, hdr, isV6, t + 7);
    SameU32(Cleared(in0, hdr, isV6), in0, t + 4);
  }

  lemma ClearedPayload(in0: Bytes, hdr: VirtioHdr, isV6: bool)
    requires WellFormed(in0, hdr, isV6)
    ensures |Cleared(in0, hdr, isV6)| == |in0| && Cleared(in0, hdr, isV6)[hdr.hdrLen..] == in0[hdr.hdrLen..]
  {
    ClearedFields(in0, hdr, isV6);
    hide Cleared;
    forall j | hdr.hdrLen <= j < |in0| ensures Cleared(in0, hdr, isV6)[j] == in0[j] {
      ClearedAt(in0, hdr, isV6, j);
    }
  }

  /** The IPv4 header of segment i: identification, total length and checksum rewritten. */
  method IPv4Header(h: Bytes, i: nat, totalLen: U16, big: bool) returns (out: Bytes)
    requires |h| >= 20 && U16At(h, 10) == 0
    ensures |out| == |h| && (forall j | 0 <= j < |h| && (j < 2 || 6 <= j < 10 || j >= 12) :: out[j] == h[j])
    ensures U16At(out, 2) == totalLen && U16At(out, 4) == IdPlus(U16At(h, 4), i)
    ensures Fold(WordSum(out)) == 0xffff
  {
    hide WordSum, Fold, Put16, U16At;
    out := h;
    if i > 0 {
      Put16Keeps(out, 4, IdPlus(U16At(out, 4), i), 10);
      out := Put16(out, 4, IdPlus(U16At(out, 4), i));
    }
    Put16Keeps(out, 2, totalLen, 4);
    Put16Keeps(out, 2, totalLen, 10);
    out := Put16(out, 2, totalLen);
    var sum := Compute(out, 0, big);
    FieldCompletes(0, out, 10);
    Put16Keeps(out, 10, 0xffff - sum, 2);
    Put16Keeps(out, 10, 0xffff - sum, 4);
    out := Put16(out, 10, 0xffff - sum);
  }

  /** The IP header of a segment. */
  method IPHeader(inp: Bytes, iphLen: nat, isV6: bool, i: nat, totalLen: U16, big: bool) returns (out: Bytes)
    requires MinIPHeader(isV6) <= iphLen <= |inp| && iphLen <= totalLen
    requires !isV6 ==> U16At(inp, 10) == 0
    ensures |out| == iphLen
    ensures forall j | 0 <= j < iphLen && (if isV6 then j < 4 || j > 5 else j < 2 || 6 <= j < 10 || j >= 12) ::
      out[j] == inp[j]
    ensures isV6 ==> U16At(out, 4) == totalLen - iphLen
    ensures !isV6 ==> U16At(out, 2) == totalLen && Fold(WordSum(out)) == 0xffff
    ensures !isV6 ==> U16At(out, 4) == IdPlus(U16At(inp, 4), i)
  {
    hide WordSum, Fold, Put16;
    out := inp[..iphLen];
    if !isV6 {
      out := IPv4Header(out, i, totalLen, big);
    } else {
      out := Put16(out, 4, totalLen - iphLen);
    }
  }

  lemma ProductFits(g: nat, i: nat)
    requires g > 0 && SegmentAt(i, g) < 0x1_0000
    ensures (g * (i % 0x1_0000)) % 0x1_0000 == SegmentAt(i, g)
  {
    assert i <= i * g;
    assert i % 0x1_0000 == i;
    assert g * i == i * g;
  }

  /** The transport header of segment i. */
  method TransportHeader(inp: Bytes, hdr: VirtioHdr, isV6: bool, first: U32, i: nat, from: nat, to: nat)
    returns (th: Bytes)
    requires WellFormed(inp, hdr, isV6)
    requires from == hdr.hdrLen + SegmentAt(i, hdr.gsoSize) && from <= to <= |inp|
    ensures |th| == hdr.hdrLen - hdr.csumStart
    ensures U16At(th, hdr.csumOffset) == U16At(inp, hdr.csumStart + hdr.csumOffset)
    ensures IsTCP(hdr) ==>
      && U32At(th, 4) == SeqPlus(first, SegmentAt(i, hdr.gsoSize))
      && th[TCP_FLAGS_OFFSET] ==
         (if to == |inp| then inp[hdr.csumStart + TCP_FLAGS_OFFSET]
          else ClearFinPsh(inp[hdr.csumStart + TCP_FLAGS_OFFSET]))
    ensures !IsTCP(hdr) ==> U16At(th, 4) == |th| + (to - from)
    ensures forall j | 0 <= j < |th| && !Rewritten(hdr, isV6, hdr.csumStart + j) :: th[j] == inp[hdr.csumStart + j]
  {
    hide SeqPlus, ClearFinPsh, SegmentAt;
    th := inp[hdr.csumStart..hdr.hdrLen];
    if IsTCP(hdr) {
      // the product is taken in 16 bits; it fits because the segment starts inside inp
      ProductFits(hdr.gsoSize, i);
      var tcpSeq := SeqPlus(first, (hdr.gsoSize * (i % 0x1_0000)) % 0x1_0000);
      th := Put32(th, 4, tcpSeq);
      if to != |inp| {
        th := th[TCP_FLAGS_OFFSET := ClearFinPsh(th[TCP_FLAGS_OFFSET])];
      }
    } else {
      th := Put16(th, 4, to - from + (hdr.hdrLen - hdr.csumStart));
    }
  }

  /** The sum that belongs in the transport checksum field, before complementing it. */
  function TransportSum(out: Bytes, iphLen: nat, proto: Byte, isV6: bool): U16
    requires MinIPHeader(isV6) <= iphLen <= |out| && |out| - iphLen < 0x1_0000
  {
    Fold(PseudoSum(out, isV6, proto, |out| - iphLen) + WordSum(out[iphLen..]))
  }

  lemma AddressesKept(a: Bytes, b: Bytes, isV6: bool)
    requires |a| == |b| && MinIPHeader(isV6) <= |a|
    requires forall j | AddrAt(isV6) <= j < MinIPHeader(isV6) :: a[j] == b[j]
    ensures Src(a, isV6) == Src(b, isV6) && Dst(a, isV6) == Dst(b, isV6)
  {
  }

  lemma SealedIsValid(out0: Bytes, iphLen: nat, at: nat, proto: Byte, isV6: bool)
    requires MinIPHeader(isV6) <= iphLen && iphLen + at + 2 <= |out0| && |out0| - iphLen < 0x1_0000
    requires at % 2 == 0 && U16At(out0, iphLen + at) == 0
    ensures var sum := TransportSum(out0, iphLen, proto, isV6);
      ChecksumValid(Put16(out0, iphLen + at, 0xffff - sum), iphLen, proto, isV6)
  {
    hide WordSum, Fold, PseudoHeader, Put16, Src, Dst, U16At;
    var c := 0xffff - TransportSum(out0, iphLen, proto, isV6);
    var out, t := Put16(out0, iphLen + at, c), out0[iphLen..];
    AddressesKept(out0, out, isV6);
    U16Suffix(out0, iphLen, at);
    FieldCompletes(PseudoSum(out0, isV6, proto, |t|), t, at);
    Put16Suffix(out0, iphLen, at, c);
  }

  /** The transport checksum of out, whose field is still zero, is computed and stored. */
  method SealTransport(out0: Bytes, iphLen: nat, at: nat, proto: Byte, isV6: bool, big: bool) returns (out: Bytes)
    requires MinIPHeader(isV6) <= iphLen && iphLen + at + 2 <= |out0| && |out0| - iphLen < 0x1_0000
    requires at % 2 == 0 && U16At(out0, iphLen + at) == 0
    ensures |out| == |out0|
    ensures forall j | 0 <= j < |out| && j != iphLen + at && j != iphLen + at + 1 :: out[j] == out0[j]
    ensures ChecksumValid(out, iphLen, proto, isV6)
  {
    hide WordSum, Fold, Put16, Same, PseudoHeader, U16At, ChecksumValid;
    var len: U16 := |out0| - iphLen;
    var psum := PseudoHeaderNoFold(proto, Src(out0, isV6), Dst(out0, isV6), len, big);
    var sum := Compute(out0[iphLen..], psum, big);
    ghost var pseudo, t := PseudoSum(out0, isV6, proto, len), out0[iphLen..];
    SameAdd(psum, pseudo, WordSum(t));
    SameIsFold(psum + WordSum(t), pseudo + WordSum(t));
    out := Put16(out0, iphLen + at, 0xffff - sum);
    SealedIsValid(out0, iphLen, at, proto, isV6);
  }

  /** What segment i of the super-packet in0 must look like. */
  ghost predicate IsSegment(out: Bytes, in0: Bytes, hdr: VirtioHdr, isV6: bool, i: nat)
    requires WellFormed(in0, hdr, isV6)
  {
    var data, h := in0[hdr.hdrLen..], hdr.csumStart as nat;
    && SegmentAt(i, hdr.gsoSize) < |data|
    && hdr.hdrLen <= |out| < 0x1_0000
    && out[hdr.hdrLen..] == Piece(data, hdr.gsoSize, i)
    && (forall j | 0 <= j < hdr.hdrLen && !Rewritten(hdr, isV6, j) :: out[j] == in0[j])
    && ChecksumValid(out, h, Proto(hdr), isV6)
    && (if isV6 then U16At(out, 4) == |out| - h
        else U16At(out, 2) == |out| && HeaderValid(out, h) && U16At(out, 4) == IdPlus(U16At(in0, 4), i))
    && (if IsTCP(hdr) then
          && U32At(out, h + 4) == SeqPlus(U32At(in0, h + 4), SegmentAt(i, hdr.gsoSize))
          && out[h + TCP_FLAGS_OFFSET] ==
             (if SegmentAt(i + 1, hdr.gsoSize) >= |data| then in0[h + TCP_FLAGS_OFFSET]
              else ClearFinPsh(in0[h + TCP_FLAGS_OFFSET]))
        else U16At(out, h + 4) == |out| - h)
  }

  // ---- What the rewritten fields mean, without the functions that compute them ---------------

  /** Bit k of a number. */
  predicate Bit(b: nat, k: nat) {
    if k == 0 then b % 2 == 1 else Bit(b / 2, k - 1)
  }

  /** FIN (bit 0) and PSH (bit 3) are set in the last segment only; the other flags are kept. */
  ghost predicate FlagsFor(was: Byte, now: Byte, last: bool) {
    if last then now == was else forall k: nat :: Bit(now, k) <==> Bit(was, k) && k != 0 && k != 3
  }

  lemma Half(q: nat, r: nat)
    requires r < 2
    ensures (2 * q + r) / 2 == q && (2 * q + r) % 2 == r
  {
  }

  lemma {:induction false} Doubled(q: nat, r: nat, k: nat)
    requires r < 2
    ensures Bit(2 * q + r, k) <==> if k == 0 then r == 1 else Bit(q, k - 1)
  {
    Half(q, r);
  }

  /** flags = 16 high + 8 psh + 2 mid + fin. */
  lemma FlagParts(flags: Byte) returns (high: nat, psh: nat, mid: nat, fin: nat)
    ensures flags == 16 * high + 8 * psh + 2 * mid + fin && psh < 2 && mid < 4 && fin < 2
    ensures ClearFinPsh(flags) == 16 * high + 2 * mid
  {
    var half, rest := flags / 2, flags / 8;
    fin, mid, psh, high := flags % 2, half % 4, rest % 2, rest / 2;
    assert half == 4 * rest + mid;
    assert (flags - fin) / 8 == rest;
  }

  lemma ClearedBits(flags: Byte)
    ensures FlagsFor(flags, ClearFinPsh(flags), false)
  {
    var high, psh, mid, fin := FlagParts(flags);
    hide ClearFinPsh, Bit;
    var m1, m0 := mid / 2, mid % 2;
    forall k: nat ensures Bit(ClearFinPsh(flags), k) <==> Bit(flags, k) && k != 0 && k != 3 {
      FourBits(high, psh, m1, m0, fin, k);
      FourBits(high, 0, m1, m0, 0, k);
    }
  }

  lemma FourBits(high: nat, b3: nat, b2: nat, b1: nat, b0: nat, k: nat)
    requires b3 < 2 && b2 < 2 && b1 < 2 && b0 < 2
    ensures Bit(16 * high + 8 * b3 + 2 * (2 * b2 + b1) + b0, k) <==>
      if k == 0 then b0 == 1 else if k == 1 then b1 == 1 else if k == 2 then b2 == 1
      else if k == 3 then b3 == 1 else Bit(high, k - 4)
  {
    hide Bit;
    var x3 := 2 * high + b3;
    var x2 := 2 * x3 + b2;
    var x1 := 2 * x2 + b1;
    assert 16 * high + 8 * b3 + 2 * (2 * b2 + b1) + b0 == 2 * x1 + b0;
    Doubled(x1, b0, k);
    if k > 0 { Doubled(x2, b1, k - 1); }
    if k > 1 { Doubled(x3, b2, k - 2); }
    if k > 2 { Doubled(high, b3, k - 3); }
  }

  /** Segment i: a full payload or what is left; the identification counts up and the sequence
      number moves on by the payload of the segment before; only the last one has FIN and PSH. */
  ghost predicate InSequence(outs: seq<Bytes>, in0: Bytes, hdr: VirtioHdr, isV6: bool, i: nat)
    requires WellFormed(in0, hdr, isV6) && i < |outs| && (forall k | 0 <= k < |outs| :: hdr.hdrLen <= |outs[k]|)
  {
    var x, h := outs[i], hdr.csumStart as nat;
    var size, left := |x| - hdr.hdrLen, |in0| - hdr.hdrLen - i * hdr.gsoSize;
    && 0 < size == Min(hdr.gsoSize, left)
    && (!isV6 ==> U16At(x, 4) == if i == 0 then U16At(in0, 4) else Wrap(U16At(outs[i - 1], 4) + 1, 0x1_0000))
    && (IsTCP(hdr) ==>
          && FlagsFor(in0[h + TCP_FLAGS_OFFSET], x[h + TCP_FLAGS_OFFSET], size == left)
          && U32At(x, h + 4) == if i == 0 then U32At(in0, h + 4)
                                else Wrap(U32At(outs[i - 1], h + 4) + |outs[i - 1]| - hdr.hdrLen, 0x1_0000_0000))
  }

  /** x less the modulus, if it has got that far. */
  function Wrap(x: nat, m: nat): nat { if x >= m then x - m else x }

  lemma WrapOnce(x: nat, d: nat, m: nat)
    requires 0 < d < m
    ensures (x + d) % m == Wrap(x % m + d, m)
  {
    var q, r := x / m, x % m;
    assert x == q * m + r;
    assert x + d == q * m + (r + d) && x + d == (q + 1) * m + (r + d - m);
    if r + d < m { ModIs(x + d, m, q, r + d); } else { ModIs(x + d, m, q + 1, r + d - m); }
  }

  lemma ModIs(x: nat, m: nat, q: nat, r: nat)
    requires 0 < m && x == q * m + r && r < m
    ensures x % m == r
  {
    var q', r' := x / m, x % m;
    assert x == q' * m + r';
    assert (q + 1) * m == q * m + m && (q' + 1) * m == q' * m + m;
    MulMono(q + 1, q', m);
    MulMono(q' + 1, q, m);
  }

  lemma SegmentSize(out: Bytes, in0: Bytes, hdr: VirtioHdr, isV6: bool, i: nat)
    requires WellFormed(in0, hdr, isV6) && IsSegment(out, in0, hdr, isV6, i)
    ensures hdr.hdrLen < |out| && i * hdr.gsoSize < |in0| - hdr.hdrLen
    ensures |out| - hdr.hdrLen == Min(hdr.gsoSize, |in0| - hdr.hdrLen - i * hdr.gsoSize)
    ensures SegmentAt(i + 1, hdr.gsoSize) >= |in0| - hdr.hdrLen <==>
      |out| - hdr.hdrLen == |in0| - hdr.hdrLen - i * hdr.gsoSize
  {
    hide ChecksumValid, HeaderValid, U16At, U32At, Rewritten, SeqPlus, IdPlus, ClearFinPsh;
    assert (i + 1) * hdr.gsoSize == i * hdr.gsoSize + hdr.gsoSize;
    assert |out[hdr.hdrLen..]| == |out| - hdr.hdrLen;
  }

  /** The fields of neighbouring segments. */
  lemma NextSegment(x: Bytes, y: Bytes, in0: Bytes, hdr: VirtioHdr, isV6: bool, i: nat)
    requires WellFormed(in0, hdr, isV6) && IsSegment(x, in0, hdr, isV6, i) && IsSegment(y, in0, hdr, isV6, i + 1)
    ensures hdr.hdrLen <= |x| && hdr.hdrLen <= |y|
    ensures !isV6 ==> U16At(y, 4) == Wrap(U16At(x, 4) + 1, 0x1_0000)
    ensures IsTCP(hdr) ==> var h := hdr.csumStart as nat;
      U32At(y, h + 4) == Wrap(U32At(x, h + 4) + |x| - hdr.hdrLen, 0x1_0000_0000)
  {
    hide IsSegment, U16At, U32At, Wrap, SeqPlus, IdPlus, SegmentAt;
    SegmentSize(x, in0, hdr, isV6, i);
    SegmentSize(y, in0, hdr, isV6, i + 1);
    Succ(i, hdr.gsoSize);
    FullBefore(|x| - hdr.hdrLen, |in0| - hdr.hdrLen, hdr.gsoSize, i);
    SegmentNumbers(x, in0, hdr, isV6, i);
    SegmentNumbers(y, in0, hdr, isV6, i + 1);
    NextNumbers(U16At(in0, 4), i);
    if IsTCP(hdr) { NextSeq(U32At(in0, hdr.csumStart + 4), SegmentAt(i, hdr.gsoSize), hdr.gsoSize); }
  }

  lemma FullBefore(size: int, all: int, g: nat, i: nat)
    requires size == Min(g, all - i * g) && (i + 1) * g < all
    ensures size == g
  {
    assert (i + 1) * g == i * g + g;
  }

  lemma SegmentNumbers(out: Bytes, in0: Bytes, hdr: VirtioHdr, isV6: bool, i: nat)
    requires WellFormed(in0, hdr, isV6) && IsSegment(out, in0, hdr, isV6, i)
    ensures hdr.hdrLen <= |out| && (!isV6 ==> U16At(out, 4) == IdPlus(U16At(in0, 4), i))
    ensures IsTCP(hdr) ==> var h := hdr.csumStart as nat;
      U32At(out, h + 4) == SeqPlus(U32At(in0, h + 4), SegmentAt(i, hdr.gsoSize))
  {
    hide ChecksumValid, HeaderValid, U16At, U32At, Rewritten, ClearFinPsh, Piece, SeqPlus, IdPlus, SegmentAt;
  }

  lemma NextNumbers(id: U16, i: nat)
    ensures IdPlus(id, i + 1) == Wrap(IdPlus(id, i) + 1, 0x1_0000)
  {
    WrapOnce(id + i, 1, 0x1_0000);
  }

  lemma NextSeq(first: U32, n: nat, d: U16)
    requires d > 0
    ensures SeqPlus(first, n + d) == Wrap(SeqPlus(first, n) + d, 0x1_0000_0000)
  {
    WrapOnce(first + n, d, 0x1_0000_0000);
  }

  lemma FirstSegment(x: Bytes, in0: Bytes, hdr: VirtioHdr, isV6: bool)
    requires WellFormed(in0, hdr, isV6) && IsSegment(x, in0, hdr, isV6, 0)
    ensures !isV6 ==> U16At(x, 4) == U16At(in0, 4)
    ensures IsTCP(hdr) ==> var h := hdr.csumStart as nat; U32At(x, h + 4) == U32At(in0, h + 4)
  {
    hide ChecksumValid, HeaderValid, U16At, U32At, Rewritten, ClearFinPsh, Piece;
    SegmentZero(hdr.gsoSize);
  }

  lemma SegmentInSequence(outs: seq<Bytes>, in0: Bytes, hdr: VirtioHdr, isV6: bool, i: nat)
    requires WellFormed(in0, hdr, isV6) && i < |outs|
    requires forall k | 0 <= k < |outs| :: IsSegment(outs[k], in0, hdr, isV6, k) && hdr.hdrLen <= |outs[k]|
    ensures InSequence(outs, in0, hdr, isV6, i)
  {
    hide U16At, U32At, ChecksumValid, HeaderValid, Rewritten, Piece, FlagsFor, Wrap;
    SegmentSize(outs[i], in0, hdr, isV6, i);
    if IsTCP(hdr) { ClearedBits(in0[hdr.csumStart + TCP_FLAGS_OFFSET]); }
    SameFlags();
    hide ClearFinPsh, SeqPlus, IdPlus;
    if i == 0 {
      FirstSegment(outs[0], in0, hdr, isV6);
    } else {
      NextSegment(outs[i - 1], outs[i], in0, hdr, isV6, i - 1);
    }
  }

  lemma AllInSequence(outs: seq<Bytes>, in0: Bytes, hdr: VirtioHdr, isV6: bool)
    requires WellFormed(in0, hdr, isV6) && forall k | 0 <= k < |outs| :: IsSegment(outs[k], in0, hdr, isV6, k)
    ensures forall i | 0 <= i < |outs| :: hdr.hdrLen <= |outs[i]|
    ensures forall i | 0 <= i < |outs| :: InSequence(outs, in0, hdr, isV6, i)
  {
    hide InSequence, IsSegment;
    forall i | 0 <= i < |outs| ensures hdr.hdrLen <= |outs[i]| {
      SegmentSize(outs[i], in0, hdr, isV6, i);
    }
    forall i | 0 <= i < |outs| ensures InSequence(outs, in0, hdr, isV6, i) {
      SegmentInSequence(outs, in0, hdr, isV6, i);
    }
  }

  lemma SameFlags()
    ensures forall f: Byte :: FlagsFor(f, f, true)
  {
  }

  /** out is the IP header ip, the transport header th and the payload, except for the
      checksum field at offset `at` of the transport header. */
  ghost predicate Joined(out: Bytes, ip: Bytes, th: Bytes, payload: Bytes, at: nat) {
    && |out| == |ip| + |th| + |payload|
    && at + 2 <= |th|
    && forall j | 0 <= j < |out| && j != |ip| + at && j != |ip| + at + 1 :: out[j] == (ip + th + payload)[j]
  }

  lemma JoinedIP(out: Bytes, ip: Bytes, th: Bytes, payload: Bytes, at: nat, isV6: bool)
    requires Joined(out, ip, th, payload, at) && |ip| >= MinIPHeader(isV6)
    ensures |out| == |ip| + |th| + |payload| && out[..|ip|] == ip
    ensures U16At(out, 2) == U16At(ip, 2) && U16At(out, 4) == U16At(ip, 4)
  {
    assert forall j | 0 <= j < |ip| :: out[j] == ip[j];
  }

  lemma JoinedRest(out: Bytes, ip: Bytes, th: Bytes, payload: Bytes, at: nat)
    requires Joined(out, ip, th, payload, at)
    ensures |out| == |ip| + |th| + |payload| && at + 2 <= |th| && out[|ip| + |th|..] == payload
    ensures forall j | 0 <= j < |th| && j != at && j != at + 1 :: out[|ip| + j] == th[j]
  {
    var all := ip + th + payload;
    assert forall j | 0 <= j < |payload| :: all[|ip| + |th| + j] == payload[j];
    forall j | 0 <= j < |th| && j != at && j != at + 1 ensures out[|ip| + j] == th[j] {
      assert all[|ip| + j] == th[j];
    }
  }

  lemma JoinedU32(out: Bytes, ip: Bytes, th: Bytes, payload: Bytes, at: nat, k: nat)
    requires Joined(out, ip, th, payload, at) && k + 4 <= at
    ensures U32At(out, |ip| + k) == U32At(th, k)
  {
    JoinedRest(out, ip, th, payload, at);
    assert out[|ip| + k] == th[k] && out[|ip| + (k + 1)] == th[k + 1];
    assert out[|ip| + (k + 2)] == th[k + 2] && out[|ip| + (k + 3)] == th[k + 3];
  }

  lemma JoinedU16(out: Bytes, ip: Bytes, th: Bytes, payload: Bytes, at: nat, k: nat)
    requires Joined(out, ip, th, payload, at) && k + 2 <= at
    ensures U16At(out, |ip| + k) == U16At(th, k)
  {
    JoinedRest(out, ip, th, payload, at);
    assert out[|ip| + k] == th[k] && out[|ip| + (k + 1)] == th[k + 1];
  }

  lemma ClearedId(in0: Bytes, hdr: VirtioHdr, isV6: bool)
    requires WellFormed(in0, hdr, isV6)
    ensures |Cleared(in0, hdr, isV6)| == |in0|
    ensures !isV6 ==> U16At(Cleared(in0, hdr, isV6), 4) == U16At(in0, 4)
  {
    hide Cleared;
    ClearedAt(in0, hdr, isV6, 4);
    ClearedAt(in0, hdr, isV6, 5);
  }

  lemma ClearedKept(in0: Bytes, hdr: VirtioHdr, isV6: bool)
    requires WellFormed(in0, hdr, isV6)
    ensures |Cleared(in0, hdr, isV6)| == |in0|
    ensures forall j | 0 <= j < hdr.hdrLen && !Rewritten(hdr, isV6, j) :: Cleared(in0, hdr, isV6)[j] == in0[j]
  {
    ClearedFields(in0, hdr, isV6);
    hide Cleared;
    forall j | 0 <= j < hdr.hdrLen && !Rewritten(hdr, isV6, j) ensures Cleared(in0, hdr, isV6)[j] == in0[j] {
      ClearedAt(in0, hdr, isV6, j);
    }
  }

  /** The IP header ip is right for segment i of in0 with the given total length. */
  ghost predicate IPPart(ip: Bytes, in0: Bytes, hdr: VirtioHdr, isV6: bool, i: nat, totalLen: nat)
    requires WellFormed(in0, hdr, isV6)
  {
    var h: nat := hdr.csumStart;
    && |ip| == h
    && (forall j | 0 <= j < h && !Rewritten(hdr, isV6, j) :: ip[j] == in0[j])
    && (if isV6 then U16At(ip, 4) == totalLen - h
        else U16At(ip, 2) == totalLen && Fold(WordSum(ip)) == 0xffff && U16At(ip, 4) == IdPlus(U16At(in0, 4), i))
  }

  /** The transport header th is right for segment i of in0. */
  ghost predicate THPart(th: Bytes, in0: Bytes, hdr: VirtioHdr, isV6: bool, i: nat, last: bool, len: nat)
    requires WellFormed(in0, hdr, isV6)
  {
    var h: nat := hdr.csumStart;
    && |th| == hdr.hdrLen - h
    && U16At(th, hdr.csumOffset) == 0
    && (forall j | 0 <= j < |th| && !Rewritten(hdr, isV6, h + j) :: th[j] == in0[h + j])
    && (if IsTCP(hdr) then
          && U32At(th, 4) == SeqPlus(U32At(in0, h + 4), SegmentAt(i, hdr.gsoSize))
          && th[TCP_FLAGS_OFFSET] ==
             (if last then in0[h + TCP_FLAGS_OFFSET] else ClearFinPsh(in0[h + TCP_FLAGS_OFFSET]))
        else U16At(th, 4) == |th| + len)
  }

  lemma JoinedKept(out: Bytes, in0: Bytes, hdr: VirtioHdr, isV6: bool, ip: Bytes, th: Bytes, payload: Bytes)
    requires WellFormed(in0, hdr, isV6) && |ip| == hdr.csumStart && |th| == hdr.hdrLen - hdr.csumStart
    requires forall j | 0 <= j < |ip| && !Rewritten(hdr, isV6, j) :: ip[j] == in0[j]
    requires forall j | 0 <= j < |th| && !Rewritten(hdr, isV6, |ip| + j) :: th[j] == in0[|ip| + j]
    requires Joined(out, ip, th, payload, hdr.csumOffset)
    ensures forall j | 0 <= j < hdr.hdrLen && !Rewritten(hdr, isV6, j) :: out[j] == in0[j]
  {
    forall j | 0 <= j < hdr.hdrLen && !Rewritten(hdr, isV6, j) ensures out[j] == in0[j] {
      if j >= |ip| {
        var t := j - |ip|;
        assert (ip + th + payload)[j] == th[t] && th[t] == in0[|ip| + t];
      }
    }
  }

  lemma SegmentDone(out: Bytes, in0: Bytes, hdr: VirtioHdr, isV6: bool, i: nat, ip: Bytes, th: Bytes, payload: Bytes)
    requires WellFormed(in0, hdr, isV6) && SegmentAt(i, hdr.gsoSize) < |in0| - hdr.hdrLen
    requires payload == Piece(in0[hdr.hdrLen..], hdr.gsoSize, i) && hdr.hdrLen + |payload| < 0x1_0000
    requires IPPart(ip, in0, hdr, isV6, i, hdr.hdrLen + |payload|)
    requires THPart(th, in0, hdr, isV6, i, SegmentAt(i + 1, hdr.gsoSize) >= |in0| - hdr.hdrLen, |payload|)
    requires Joined(out, ip, th, payload, hdr.csumOffset)
    requires ChecksumValid(out, hdr.csumStart, Proto(hdr), isV6)
    ensures IsSegment(out, in0, hdr, isV6, i)
  {
    hide Joined, ChecksumValid, U16At, U32At, WordSum, Fold, Piece, ClearFinPsh, SeqPlus, IdPlus, SegmentAt;
    var at: nat := hdr.csumOffset;
    JoinedIP(out, ip, th, payload, at, isV6);
    JoinedRest(out, ip, th, payload, at);
    JoinedKept(out, in0, hdr, isV6, ip, th, payload);
    if IsTCP(hdr) {
      JoinedU32(out, ip, th, payload, at, 4);
      assert out[|ip| + TCP_FLAGS_OFFSET] == th[TCP_FLAGS_OFFSET];
    } else {
      JoinedU16(out, ip, th, payload, at, 4);
    }
  }

  /** The headers of segment i, from the cleared input. */
  method Headers(inp: Bytes, ghost in0: Bytes, hdr: VirtioHdr, isV6: bool, first: U32, i: nat, from: nat, to: nat,
                 big: bool)
    returns (ip: Bytes, th: Bytes)
    requires WellFormed(in0, hdr, isV6) && inp == Cleared(in0, hdr, isV6)
    requires IsTCP(hdr) ==> first == U32At(in0, hdr.csumStart + 4)
    requires from == hdr.hdrLen + SegmentAt(i, hdr.gsoSize) <= to <= |in0|
    ensures |ip| == hdr.csumStart && |th| == hdr.hdrLen - hdr.csumStart && U16At(th, hdr.csumOffset) == 0
    ensures IPPart(ip, in0, hdr, isV6, i, hdr.hdrLen + (to - from))
    ensures THPart(th, in0, hdr, isV6, i, to == |in0|, to - from)
  {
    hide Cleared, U16At, U32At, WordSum, Fold, ClearFinPsh, SeqPlus, IdPlus, SegmentAt;
    ClearedFields(in0, hdr, isV6);
    ClearedId(in0, hdr, isV6);
    ClearedKept(in0, hdr, isV6);
    if IsTCP(hdr) { ClearedTCP(in0, hdr, isV6); }
    ip := IPHeader(inp, hdr.csumStart, isV6, i, hdr.hdrLen + (to - from), big);
    th := TransportHeader(inp, hdr, isV6, first, i, from, to);
  }

  /** One turn of gsoSplit's loop. */
  method BuildSegment(inp: Bytes, ghost in0: Bytes, hdr: VirtioHdr, isV6: bool, first: U32, i: nat, from: nat,
                      to: nat, big: bool)
    returns (out: Bytes)
    requires WellFormed(in0, hdr, isV6) && inp == Cleared(in0, hdr, isV6)
    requires IsTCP(hdr) ==> first == U32At(in0, hdr.csumStart + 4)
    requires from == hdr.hdrLen + SegmentAt(i, hdr.gsoSize) < |in0|
    requires to == if from + hdr.gsoSize > |in0| then |in0| else from + hdr.gsoSize
    ensures IsSegment(out, in0, hdr, isV6, i)
  {
    hide Cleared, U32At, U16At, Src, Dst, WordSum, Fold, ClearFinPsh, Piece, ChecksumValid, IsSegment, IPPart, THPart,
         SegmentAt;
    var ip, th := Headers(inp, in0, hdr, isV6, first, i, from, to, big);
    ClearedPayload(in0, hdr, isV6);
    var payload := inp[from..to];
    PieceIs(inp, in0, hdr.hdrLen, hdr.gsoSize, i, from, to);
    out := ip + th + payload;
    var at: nat := hdr.csumOffset;
    FieldInside(ip, th, payload, at);
    out := SealTransport(out, hdr.csumStart, at, Proto(hdr), isV6, big);
    SegmentDone(out, in0, hdr, isV6, i, ip, th, payload);
  }

  lemma FieldInside(ip: Bytes, th: Bytes, payload: Bytes, at: nat)
    requires at + 2 <= |th|
    ensures U16At(ip + th + payload, |ip| + at) == U16At(th, at)
  {
    var out := ip + th + payload;
    assert out[|ip| + at] == th[at] && out[|ip| + at + 1] == th[at + 1];
  }

  lemma PieceIs(inp: Bytes, in0: Bytes, hdrLen: nat, gsoSize: nat, i: nat, from: nat, to: nat)
    requires hdrLen <= |in0| == |inp| && inp[hdrLen..] == in0[hdrLen..] && gsoSize > 0
    requires from == hdrLen + SegmentAt(i, gsoSize) < |in0|
    requires to == if from + gsoSize > |in0| then |in0| else from + gsoSize
    ensures inp[from..to] == Piece(in0[hdrLen..], gsoSize, i)
    ensures to == |in0| <==> SegmentAt(i + 1, gsoSize) >= |in0| - hdrLen
  {
    Succ(i, gsoSize);
    SuffixSlice(inp, hdrLen, SegmentAt(i, gsoSize), to - hdrLen);
  }

  lemma Succ(i: nat, g: nat)
    ensures SegmentAt(i + 1, g) == SegmentAt(i, g) + g
  {
  }

  lemma SegmentZero(g: nat)
    ensures SegmentAt(0, g) == 0
  {
  }

  lemma SuffixSlice(b: Bytes, h: nat, from: nat, to: nat)
    requires from <= to && h + to <= |b|
    ensures b[h..][from..to] == b[h + from..h + to]
  {
  }

  method GsoSplit(in0: Bytes, hdr: VirtioHdr, isV6: bool, nOut: nat, big: bool)
    returns (inp: Bytes, outs: seq<Bytes>, n: int, tooMany: bool)
    requires WellFormed(in0, hdr, isV6)
    ensures inp == Cleared(in0, hdr, isV6)
    ensures tooMany <==> Pieces(|in0| - hdr.hdrLen, hdr.gsoSize) > nOut
    ensures n == if tooMany then nOut - 1 else Pieces(|in0| - hdr.hdrLen, hdr.gsoSize)
    ensures |outs| == if tooMany then nOut else n
    ensures forall i | 0 <= i < |outs| :: IsSegment(outs[i], in0, hdr, isV6, i) && hdr.hdrLen <= |outs[i]|
    ensures forall i | 0 <= i < |outs| :: InSequence(outs, in0, hdr, isV6, i)
  {
    hide InSequence, IsSegment, Cleared, U32At, Pieces, SegmentAt;
    SegmentZero(hdr.gsoSize);
    inp := in0;
    inp := Cleared(inp, hdr, isV6);
    var firstTCPSeqNum: U32 := 0;
    if IsTCP(hdr) {
      ClearedTCP(in0, hdr, isV6);
      firstTCPSeqNum := U32At(inp, hdr.csumStart + 4);
    }
    ClearedPayload(in0, hdr, isV6);
    var nextSegmentDataAt: nat := hdr.hdrLen;
    var i := 0;
    outs := [];
    while nextSegmentDataAt < |inp|
      invariant nextSegmentDataAt == hdr.hdrLen + SegmentAt(i, hdr.gsoSize)
      invariant |outs| == i <= nOut
      invariant i > 0 ==> hdr.hdrLen + SegmentAt(i - 1, hdr.gsoSize) < |in0|
      invariant forall j | 0 <= j < i :: IsSegment(outs[j], in0, hdr, isV6, j)
      decreases |inp| - nextSegmentDataAt
    {
      PieceIndex(|in0| - hdr.hdrLen, hdr.gsoSize, i);
      if i == nOut {
        AllInSequence(outs, in0, hdr, isV6);
        return inp, outs, i - 1, true;
      }
      var nextSegmentEnd: nat := nextSegmentDataAt + hdr.gsoSize;
      if nextSegmentEnd > |inp| {
        nextSegmentEnd := |inp|;
      }
      var out := BuildSegment(inp, in0, hdr, isV6, firstTCPSeqNum, i, nextSegmentDataAt, nextSegmentEnd, big);
      outs := outs + [out];
      Succ(i, hdr.gsoSize);
      nextSegmentDataAt := nextSegmentDataAt + hdr.gsoSize;
      i := i + 1;
    }
    PieceCount(|in0| - hdr.hdrLen, hdr.gsoSize, i);
    AllInSequence(outs, in0, hdr, isV6);
    return inp, outs, i, false;
  }

  lemma MulMono(a: nat, b: nat, g: nat)
    ensures a <= b ==> a * g <= b * g
  {
  }

  lemma PieceIndex(n: nat, g: nat, i: nat)
    requires g > 0 && SegmentAt(i, g) < n
    ensures i < Pieces(n, g)
  {
    var q := Pieces(n, g);
    assert (n + g - 1) == q * g + (n + g - 1) % g;
    MulMono(q, i, g);
  }

  lemma PieceCount(n: nat, g: nat, i: nat)
    requires g > 0 && SegmentAt(i, g) >= n && (i > 0 ==> SegmentAt(i - 1, g) < n)
    ensures i == Pieces(n, g)
  {
    var q := Pieces(n, g);
    assert (n + g - 1) == q * g + (n + g - 1) % g;
    if i > 0 {
      PieceIndex(n, g, i - 1);
    }
    assert (i + 1) * g == i * g + g;
    MulMono(i + 1, q, g);
  }

  /** The first k pieces are the first k * g bytes; all pieces together are the data. */
  lemma {:induction false} PiecesJoin(data: Bytes, g: nat, pieces: seq<Bytes>)
    requires g > 0 && |pieces| <= Pieces(|data|, g)
    requires forall i | 0 <= i < |pieces| :: SegmentAt(i, g) < |data| && pieces[i] == Piece(data, g, i)
    ensures |pieces| < Pieces(|data|, g) ==>
      SegmentAt(|pieces|, g) <= |data| && Concat(pieces) == data[..SegmentAt(|pieces|, g)]
    ensures |pieces| == Pieces(|data|, g) ==> Concat(pieces) == data
  {
    hide Pieces, SegmentAt;
    var n := |pieces|;
    if n == 0 {
      SegmentZero(g);
      if Pieces(|data|, g) == 0 { PieceIndexZero(|data|, g); }
    } else {
      PiecesJoin(data, g, pieces[..n - 1]);
      PieceFits(|data|, g, n);
      LastPiece(data, g, n);
    }
  }

  lemma LastPiece(data: Bytes, g: nat, n: nat)
    requires g > 0 && 0 < n <= Pieces(|data|, g) && SegmentAt(n - 1, g) < |data|
    ensures n < Pieces(|data|, g) ==>
      SegmentAt(n, g) < |data| && data[..SegmentAt(n - 1, g)] + Piece(data, g, n - 1) == data[..SegmentAt(n, g)]
    ensures n == Pieces(|data|, g) ==> data[..SegmentAt(n - 1, g)] + Piece(data, g, n - 1) == data
  {
    hide Pieces, SegmentAt;
    var a, b := SegmentAt(n - 1, g), SegmentAt(n, g);
    Succ(n - 1, g);
    PieceFits(|data|, g, n);
    if b < |data| { PieceIndex(|data|, g, n); }
    assert Piece(data, g, n - 1) == if b <= |data| then data[a..b] else data[a..];
    SliceJoin(data, a, if b <= |data| then b else |data|);
  }

  lemma SliceJoin(data: Bytes, a: nat, b: nat)
    requires a <= b <= |data|
    ensures data[..a] + data[a..b] == data[..b] && data[..|data|] == data && (b == |data| ==> data[a..b] == data[a..])
  {
  }

  lemma PieceIndexZero(n: nat, g: nat)
    requires g > 0 && Pieces(n, g) == 0
    ensures n == 0
  {
    if n > 0 { PieceIndex(n, g, 0); }
  }

  lemma PieceFits(n: nat, g: nat, i: nat)
    requires g > 0
    ensures i < Pieces(n, g) ==> SegmentAt(i, g) < n
  {
    var q := Pieces(n, g);
    assert (n + g - 1) == q * g + (n + g - 1) % g;
    assert (i + 1) * g == i * g + g;
    MulMono(i + 1, q, g);
  }

  /** 16-bit addition. */
  function Sum16(x: U16, y: U16): U16 { if x + y < 0x1_0000 then x + y else x + y - 0x1_0000 }

  /** The complement of the sum from `start` on and the value found in a field. */
  function Completion(b: Bytes, start: nat, at: nat): U16
    requires start <= |b| && at + 2 <= |b|
  {
    0xffff - Fold(U16At(b, at) + WordSum(Put16(b, at, 0)[start..]))
  }

  /** The value found in the checksum field is the sum so far. The field is completed if it is
      aligned with the words that are summed, and otherwise only if its two bytes come out
      equal. The place of the field is computed in 16 bits. */
  method GsoNoneChecksum(in0: Bytes, cSumStart: U16, cSumOffset: U16, big: bool) returns (out: Bytes)
    requires cSumStart <= |in0| && Sum16(cSumStart, cSumOffset) + 2 <= |in0|
    ensures var at := Sum16(cSumStart, cSumOffset); out == Put16(in0, at, Completion(in0, cSumStart, at))
    ensures cSumStart + cSumOffset < 0x1_0000 ==>
      var at := cSumStart + cSumOffset;
      Fold(U16At(in0, at) + WordSum(out[cSumStart..])) == 0xffff <==>
      cSumOffset % 2 == 0 || EqualBytes(Completion(in0, cSumStart, at))
  {
    hide WordSum, Fold, Put16, EqualBytes, U16At;
    var at: nat := Sum16(cSumStart, cSumOffset);
    var initial := U16At(in0, at);
    var cleared := Put16(in0, at, 0);
    var sum := Compute(cleared[cSumStart..], initial, big);
    out := Put16(cleared, at, 0xffff - sum);
    Put16Twice(in0, at, 0, 0xffff - sum);
    Completed(initial, cleared, cSumStart, at);
  }

  lemma Put16Twice(b: Bytes, i: nat, v: U16, w: U16)
    requires i + 2 <= |b|
    ensures Put16(Put16(b, i, v), i, w) == Put16(b, i, w)
  {
  }

  lemma Completed(initial: nat, b: Bytes, start: nat, at: nat)
    requires start <= |b| && at + 2 <= |b| && U16At(b, at) == 0
    ensures start <= at ==>
      var v := 0xffff - Fold(initial + WordSum(b[start..]));
      Fold(initial + WordSum(Put16(b, at, v)[start..])) == 0xffff <==> (at - start) % 2 == 0 || EqualBytes(v)
  {
    hide WordSum, Fold, Put16, EqualBytes;
    if start <= at {
      var t, offset := b[start..], at - start;
      Put16Suffix(b, start, offset, 0xffff - Fold(initial + WordSum(t)));
      assert U16At(t, offset) == U16At(b, at);
      if offset % 2 == 0 {
        FieldCompletes(initial, t, offset);
      } else {
        OddFieldCompletes(initial, t, offset);
      }
    }
  }

  /** If the field held the pseudo-header sum, the completed packet is valid. */
  lemma PartialCompletes(in0: Bytes, out: Bytes, iphLen: nat, at: nat, proto: Byte, isV6: bool)
    requires MinIPHeader(isV6) <= iphLen && iphLen + at + 2 <= |in0| == |out| && |out| - iphLen < 0x1_0000
    requires Fold(U16At(in0, iphLen + at)) == Fold(PseudoSum(in0, isV6, proto, |in0| - iphLen))
    requires forall j | 0 <= j < iphLen :: out[j] == in0[j]
    requires Fold(U16At(in0, iphLen + at) + WordSum(out[iphLen..])) == 0xffff
    ensures ChecksumValid(out, iphLen, proto, isV6)
  {
    hide WordSum, Fold, PseudoHeader, Src, Dst, U16At, Same;
    AddressesKept(in0, out, isV6);
    var x, p, w := U16At(in0, iphLen + at), PseudoSum(in0, isV6, proto, |in0| - iphLen), WordSum(out[iphLen..]);
    SameIsFold(x, p);
    SameAdd(x, p, w);
    SameIsFold(x + w, p + w);
  }
}
