/** Splitting a super-packet that GRO built gives back the packets it was built from. */
module GroRoundTrip {
  import opened Basics
  import opened Checksum
  import opened Packet
  import opened GroPackets
  import opened GroState
  import opened GroRuns
  import opened GroAccounting
  import opened Gro
  import opened VirtioRead
  import Gso

  // ---- Payloads ----------------------------------------------------------------------------

  /** Cutting the joined payloads of a run every gsoSize bytes recovers them one by one. */
  lemma {:induction false} PayloadAt(orig: seq<Bytes>, g: seq<nat>, h: nat, size: nat, i: nat)
    requires i < |g| && size > 0
    requires forall t | 0 <= t < |g| :: g[t] < |orig| && h <= |orig[g[t]]|
    requires forall t | 0 <= t < |g| - 1 :: |orig[g[t]]| == h + size
    requires |orig[g[|g| - 1]]| <= h + size
    ensures i * size + |orig[g[i]]| - h <= |Payloads(orig, g, h)|
    ensures Payloads(orig, g, h)[i * size..i * size + |orig[g[i]]| - h] == orig[g[i]][h..]
  {
    var n, init := |g| - 1, g[..|g| - 1];
    FullPayloads(orig, init, h, size);
    if i < n {
      PayloadAt(orig, init, h, size, i);
      var p, e := Payloads(orig, init, h), i * size + |orig[g[i]]| - h;
      assert (p + orig[g[n]][h..])[i * size..e] == p[i * size..e];
    }
  }

  lemma RunFits(orig: seq<Bytes>, can: bool, g: seq<nat>, key: FlowKey, thLen: nat, gsoSize: nat, sentSeq: U32, t: nat)
    requires IsRun(orig, can, g, key, thLen, gsoSize, sentSeq) && t < |g|
    ensures Fits(orig, can, g[t], t, t == |g| - 1, key, thLen, gsoSize, sentSeq)
    ensures Alike(orig, g[t], g[0], MinIPHeader(key.isV6), thLen)
  {
  }

  /** Piece i of the merged payload is the payload of packet i, and there are |g| pieces. */
  lemma RunPieces(orig: seq<Bytes>, can: bool, g: seq<nat>, key: FlowKey, thLen: nat, gsoSize: nat, sentSeq: U32,
                  i: nat)
    requires IsRun(orig, can, g, key, thLen, gsoSize, sentSeq) && i < |g|
    ensures var h := MinIPHeader(key.isV6) + thLen;
      && (forall t | 0 <= t < |g| :: g[t] < |orig| && h <= |orig[g[t]]|)
      && gsoSize > 0
      && var data := Payloads(orig, g, h);
        && Gso.SegmentAt(i, gsoSize) < |data|
        && Gso.Piece(data, gsoSize, i) == orig[g[i]][h..]
        && Gso.Pieces(|data|, gsoSize) == |g|
        && (Gso.SegmentAt(i + 1, gsoSize) >= |data| <==> i == |g| - 1)
  {
    hide IsRun, Classify, Payloads;
    var h := MinIPHeader(key.isV6) + thLen;
    RunLength(orig, can, g, key, thLen, gsoSize, sentSeq);
    forall t | 0 <= t < |g| ensures |orig[g[t]]| <= h + gsoSize && (t < |g| - 1 ==> |orig[g[t]]| == h + gsoSize) {
      RunFits(orig, can, g, key, thLen, gsoSize, sentSeq, t);
    }
    PayloadAt(orig, g, h, gsoSize, i);
    RunFits(orig, can, g, key, thLen, gsoSize, sentSeq, |g| - 1);
    PieceBounds(Payloads(orig, g, h), gsoSize, i, |g|, |orig[g[|g| - 1]]| - h);
  }

  lemma PieceBounds(data: Bytes, size: nat, i: nat, n: nat, last: nat)
    requires i < n && 1 <= last <= size && |data| == (n - 1) * size + last
    ensures Gso.SegmentAt(i, size) < |data| && Gso.Pieces(|data|, size) == n
    ensures Gso.SegmentAt(i + 1, size) >= |data| <==> i == n - 1
    ensures i < n - 1 ==> (i + 1) * size <= |data| && Gso.Piece(data, size, i) == data[i * size..i * size + size]
    ensures i == n - 1 ==> i * size + last == |data| && Gso.Piece(data, size, i) == data[i * size..i * size + last]
  {
    assert (i + 1) * size == i * size + size && n * size == (n - 1) * size + size;
    Gso.MulMono(i, n - 1, size);
    Gso.MulMono(i + 1, n - 1, size);
    Gso.PieceCount(|data|, size, n);
  }

  // ---- Headers -----------------------------------------------------------------------------

  /** The header bytes that accounting and splitting may change. */
  predicate Volatile(key: FlowKey, j: nat) {
    var h := MinIPHeader(key.isV6);
    || (if key.isV6 then j == 4 || j == 5 else 2 <= j < 6 || j == 10 || j == 11)
    || (if key.TcpKey? then h + 4 <= j < h + 8 || j == h + TCP_FLAGS_OFFSET || j == h + 16 || j == h + 17
        else h + 4 <= j < h + 8)
  }

  /** b has the stable header bytes of the candidate a, and right length fields. */
  ghost predicate SameStable(a: Bytes, b: Bytes, info: Info) {
    var h := info.iphLen + info.thLen;
    && h <= |a| && h < |b| <= 0xffff
    && (forall j | 0 <= j < h && !Volatile(info.key, j) :: b[j] == a[j])
    && |b| >= 20
    && (if info.key.isV6 then U16At(b, 4) == |b| - 40 else U16At(b, 2) == |b|)
    && (info.key.TcpKey? ==>
      && info.iphLen + TCP_FLAGS_OFFSET < |b|
      && var flags := b[info.iphLen + TCP_FLAGS_OFFSET]; FlagsOK(flags, false) || FlagsOK(flags, true))
  }

  lemma SameAddrs(a: Bytes, b: Bytes, info: Info)
    requires SameStable(a, b, info) && info.iphLen == MinIPHeader(info.key.isV6)
    ensures Src(a, info.key.isV6) == Src(b, info.key.isV6) && Dst(a, info.key.isV6) == Dst(b, info.key.isV6)
  {
  }

  lemma SameWord(a: Bytes, b: Bytes, info: Info, i: nat)
    requires SameStable(a, b, info) && i + 4 <= info.iphLen + info.thLen
    requires !Volatile(info.key, i) && !Volatile(info.key, i + 1) && !Volatile(info.key, i + 2)
    requires !Volatile(info.key, i + 3)
    ensures U32At(a, i) == U32At(b, i)
  {
  }

  lemma ReclassifiedTCP(a: Bytes, b: Bytes, isV6: bool, info: Info)
    requires |a| >= MinIPHeader(isV6) + 20 && (!isV6 ==> a[0] % 16 == 5) && ClassifyTCP(a, isV6) == Some(info)
    requires SameStable(a, b, info)
    ensures |b| >= MinIPHeader(isV6) + 20 && (!isV6 ==> b[0] % 16 == 5)
    ensures ClassifyTCP(b, isV6) ==
      Some(info.(size := |b| - info.iphLen - info.thLen, seqNo := U32At(b, info.iphLen + 4),
                 psh := b[info.iphLen + TCP_FLAGS_OFFSET] != FLAG_ACK))
  {
    hide U32At, Src, Dst;
    SameAddrs(a, b, info);
    SameWord(a, b, info, info.iphLen);
    SameWord(a, b, info, info.iphLen + 8);
  }

  lemma ReclassifiedUDP(a: Bytes, b: Bytes, isV6: bool, info: Info)
    requires |a| >= MinIPHeader(isV6) + 8 && (!isV6 ==> a[0] % 16 == 5) && ClassifyUDP(a, isV6) == Some(info)
    requires SameStable(a, b, info)
    ensures |b| >= MinIPHeader(isV6) + 8 && (!isV6 ==> b[0] % 16 == 5)
    ensures ClassifyUDP(b, isV6) == Some(info.(size := |b| - info.iphLen - info.thLen))
  {
    hide U32At, Src, Dst;
    SameAddrs(a, b, info);
    SameWord(a, b, info, info.iphLen);
  }

  /** A packet with the same stable bytes is a candidate of the same flow. */
  lemma Reclassified(a: Bytes, b: Bytes, can: bool)
    requires Classify(a, can).Some? && SameStable(a, b, Classify(a, can).value)
    ensures var info := Classify(a, can).value;
      && info.iphLen + info.thLen < |b| <= 0xffff
      && (if info.key.TcpKey? then
            && info.iphLen + 20 <= |b|
            && Classify(b, can) ==
               Some(info.(size := |b| - info.iphLen - info.thLen, seqNo := U32At(b, info.iphLen + 4),
                          psh := b[info.iphLen + TCP_FLAGS_OFFSET] != FLAG_ACK))
          else Classify(b, can) == Some(info.(size := |b| - info.iphLen - info.thLen)))
  {
    hide ClassifyTCP, ClassifyUDP;
    match PacketIsGROCandidate(a, can)
    case TCP4 => { TcpShape(a, false); ReclassifiedTCP(a, b, false, Classify(a, can).value); }
    case TCP6 => { TcpShape(a, true); ReclassifiedTCP(a, b, true, Classify(a, can).value); }
    case UDP4 => { UdpShape(a, false); ReclassifiedUDP(a, b, false, Classify(a, can).value); }
    case UDP6 => { UdpShape(a, true); ReclassifiedUDP(a, b, true, Classify(a, can).value); }
  }

  lemma TcpShape(a: Bytes, isV6: bool)
    requires |a| >= MinIPHeader(isV6) + 20 && (!isV6 ==> a[0] % 16 == 5) && ClassifyTCP(a, isV6).Some?
    ensures var info := ClassifyTCP(a, isV6).value;
      info.key.TcpKey? && info.key.isV6 == isV6 && info.iphLen == MinIPHeader(isV6) && info.thLen >= 20
  {
  }

  lemma UdpShape(a: Bytes, isV6: bool)
    requires |a| >= MinIPHeader(isV6) + 8 && (!isV6 ==> a[0] % 16 == 5) && ClassifyUDP(a, isV6).Some?
    ensures var info := ClassifyUDP(a, isV6).value;
      info.key.UdpKey? && info.key.isV6 == isV6 && info.iphLen == MinIPHeader(isV6) && info.thLen == 8
  {
  }

  // ---- The round trip ------------------------------------------------------------------------

  /** seg carries the same message as the candidate pkt: flow, sequence number, payload,
      compared header fields and options, and PSH if it is kept. */
  ghost predicate SamePacket(pkt: Bytes, seg: Bytes, can: bool, keepsPsh: bool) {
    && Classify(pkt, can).Some? && Classify(seg, can).Some?
    && var x, y := Classify(pkt, can).value, Classify(seg, can).value;
      && y == x.(psh := x.psh && keepsPsh)
      && var h := x.iphLen + x.thLen;
        && h <= |pkt| == |seg| && seg[h..] == pkt[h..]
        && 9 <= |pkt| && HeaderClass(seg) == HeaderClass(pkt)
        && Options(seg, x.iphLen, x.thLen) == Options(pkt, x.iphLen, x.thLen)
  }

  /** All checksums and length fields of seg are right. */
  ghost predicate SoundPacket(seg: Bytes, key: FlowKey) {
    var h := MinIPHeader(key.isV6);
    && h + 8 <= |seg| <= 0xffff
    && ChecksumValid(seg, h, ProtoOf(key), key.isV6)
    && (if key.isV6 then U16At(seg, 4) == |seg| - h else U16At(seg, 2) == |seg| && HeaderValid(seg, h))
    && (key.UdpKey? ==> U16At(seg, h + 4) == |seg| - h)
  }

  ghost predicate IsPart(orig: seq<Bytes>, can: bool, g: seq<nat>, buf: Buf, m: Merge, seg: Bytes, i: nat) {
    && IsSuperPacket(orig, can, g, buf, m) && i < |g|
    && m.thLen <= 60
    && Gso.WellFormed(buf.pkt, HdrFor(m.key, m.thLen, m.gsoSize), m.key.isV6)
    && Gso.IsSegment(seg, buf.pkt, HdrFor(m.key, m.thLen, m.gsoSize), m.key.isV6, i)
  }

  /** The stable bytes of a segment are those of the first packet of the run. */
  lemma PartStable(orig: seq<Bytes>, can: bool, g: seq<nat>, buf: Buf, m: Merge, seg: Bytes, i: nat)
    requires IsPart(orig, can, g, buf, m, seg, i)
    ensures var h := MinIPHeader(m.key.isV6) + m.thLen;
      && g[0] < |orig| && h <= |orig[g[0]]| && h <= |seg|
      && forall j | 0 <= j < h && !Volatile(m.key, j) :: seg[j] == orig[g[0]][j]
  {
    hide IsRun, ChecksumValid, Gso.Piece, U16At, U32At, HeaderValid, PseudoSum, Payloads, Fold, Gso.ClearFinPsh;
    var h, hdr := MinIPHeader(m.key.isV6) + m.thLen, HdrFor(m.key, m.thLen, m.gsoSize);
    forall j | 0 <= j < h && !Volatile(m.key, j) ensures seg[j] == orig[g[0]][j] {
      assert !Gso.Rewritten(hdr, m.key.isV6, j);
      assert !Touched(m.key, j);
    }
  }

  lemma PartFlags(orig: seq<Bytes>, can: bool, g: seq<nat>, buf: Buf, m: Merge, seg: Bytes, i: nat)
    requires IsPart(orig, can, g, buf, m, seg, i) && m.key.TcpKey?
    requires Gso.SegmentAt(i + 1, m.gsoSize) >= |buf.pkt| - MinIPHeader(m.key.isV6) - m.thLen <==> i == |g| - 1
    ensures var at := MinIPHeader(m.key.isV6) + TCP_FLAGS_OFFSET; at < |seg| && FlagsOK(seg[at], i == |g| - 1 && m.psh)
  {
    hide IsSuperPacket, ChecksumValid, Gso.Piece, U16At, U32At, HeaderValid, Gso.Rewritten;
    HeadFlags(orig, can, g, buf, m);
    assert Gso.ClearFinPsh(FLAG_ACK) == FLAG_ACK && Gso.ClearFinPsh(FLAG_ACK + FLAG_PSH) == FLAG_ACK;
  }

  /** A segment has PSH if its packet had it and nothing was put in front of that packet later. */
  lemma PartPsh(orig: seq<Bytes>, can: bool, g: seq<nat>, buf: Buf, m: Merge, seg: Bytes, i: nat)
    requires IsPart(orig, can, g, buf, m, seg, i) && m.key.TcpKey?
    ensures var at := MinIPHeader(m.key.isV6) + TCP_FLAGS_OFFSET;
      && at < |seg| && IsCandidate(orig, can, g[i])
      && FlagsOK(seg[at], InfoOf(orig, can, g[i]).psh && LastNewest(g))
  {
    hide IsRun, IsMerged, IsAccounted, Classify, Gso.IsSegment, Gso.WellFormed, FlagsOK, LastNewest;
    RunFits(orig, can, g, m.key, m.thLen, m.gsoSize, m.sentSeq, i);
    PartPayload(orig, can, g, buf, m, seg, i);
    PartFlags(orig, can, g, buf, m, seg, i);
  }

  lemma HeadFlags(orig: seq<Bytes>, can: bool, g: seq<nat>, buf: Buf, m: Merge)
    requires IsSuperPacket(orig, can, g, buf, m) && m.key.TcpKey?
    ensures var at := MinIPHeader(m.key.isV6) + TCP_FLAGS_OFFSET; at < |buf.pkt| && FlagsOK(buf.pkt[at], m.psh)
  {
    hide IsRun, U16At, HeaderValid, PseudoSum, Payloads, Fold, FlagsOK;
    assert !Touched(m.key, MinIPHeader(m.key.isV6) + TCP_FLAGS_OFFSET);
  }

  lemma PartPayload(orig: seq<Bytes>, can: bool, g: seq<nat>, buf: Buf, m: Merge, seg: Bytes, i: nat)
    requires IsPart(orig, can, g, buf, m, seg, i)
    ensures var h := MinIPHeader(m.key.isV6) + m.thLen;
      && g[i] < |orig| && h <= |orig[g[i]]| == |seg| && seg[h..] == orig[g[i]][h..]
      && Gso.Pieces(|buf.pkt| - h, m.gsoSize) == |g|
      && (Gso.SegmentAt(i + 1, m.gsoSize) >= |buf.pkt| - h <==> i == |g| - 1)
  {
    hide IsRun, ChecksumValid, Gso.Piece, Gso.Pieces, U16At, U32At, HeaderValid, PseudoSum, Payloads, Fold,
         Gso.ClearFinPsh, FlagsOK, Gso.Rewritten;
    var h := MinIPHeader(m.key.isV6) + m.thLen;
    RunPieces(orig, can, g, m.key, m.thLen, m.gsoSize, m.sentSeq, i);
    forall j | h <= j < |m.pkt| ensures buf.pkt[j] == m.pkt[j] { assert !Touched(m.key, j); }
    assert buf.pkt[h..] == m.pkt[h..];
  }

  lemma PartSeq(orig: seq<Bytes>, can: bool, g: seq<nat>, buf: Buf, m: Merge, seg: Bytes, i: nat)
    requires IsPart(orig, can, g, buf, m, seg, i) && m.key.TcpKey?
    ensures MinIPHeader(m.key.isV6) + 8 <= |seg|
    ensures U32At(seg, MinIPHeader(m.key.isV6) + 4) == InfoOf(orig, can, g[i]).seqNo
  {
    hide *;
    var h := MinIPHeader(m.key.isV6);
    SeqOfSegment(orig, can, g, buf, m, seg, i);
    SeqOfHead(orig, can, g, buf, m);
    SeqOfRun(orig, can, g, m.key, m.thLen, m.gsoSize, m.sentSeq, i);
  }

  lemma SeqOfSegment(orig: seq<Bytes>, can: bool, g: seq<nat>, buf: Buf, m: Merge, seg: Bytes, i: nat)
    requires IsPart(orig, can, g, buf, m, seg, i) && m.key.TcpKey?
    ensures var at := MinIPHeader(m.key.isV6) + 4;
      && at + 4 <= |seg| && at + 4 <= |buf.pkt|
      && U32At(seg, at) == SeqAt(U32At(buf.pkt, at), i, m.gsoSize)
    ensures IsSuperPacket(orig, can, g, buf, m) && IsRun(orig, can, g, m.key, m.thLen, m.gsoSize, m.sentSeq) && i < |g|
  {
    hide IsRun, ChecksumValid, Gso.Piece, U16At, U32At, HeaderValid, PseudoSum, Payloads, Fold, Gso.ClearFinPsh,
         FlagsOK, Gso.Rewritten, IsMerged;
  }

  lemma SeqOfHead(orig: seq<Bytes>, can: bool, g: seq<nat>, buf: Buf, m: Merge)
    requires IsSuperPacket(orig, can, g, buf, m) && m.key.TcpKey?
    ensures var at := MinIPHeader(m.key.isV6) + 4; at + 4 <= |buf.pkt| && U32At(buf.pkt, at) == m.sentSeq
  {
    hide IsRun, U16At, U32At, HeaderValid, PseudoSum, Payloads, Fold, FlagsOK, Classify;
    var h := MinIPHeader(m.key.isV6);
    SeqOfRun(orig, can, g, m.key, m.thLen, m.gsoSize, m.sentSeq, 0);
    SeqField(orig[g[0]], can);
    assert forall j | h + 4 <= j < h + 8 :: !Touched(m.key, j);
    Gso.SameU32(buf.pkt, m.pkt, h + 4);
    SameField(m.pkt, orig[g[0]], h + 4);
  }

  lemma SeqOfRun(orig: seq<Bytes>, can: bool, g: seq<nat>, key: FlowKey, thLen: nat, gsoSize: nat, sentSeq: U32, i: nat)
    requires IsRun(orig, can, g, key, thLen, gsoSize, sentSeq) && i < |g| && key.TcpKey?
    ensures IsCandidate(orig, can, g[i]) && InfoOf(orig, can, g[i]).key == key
    ensures InfoOf(orig, can, g[i]).iphLen == MinIPHeader(key.isV6)
    ensures InfoOf(orig, can, g[i]).seqNo == SeqAt(sentSeq, i, gsoSize)
    ensures i == 0 ==> SeqAt(sentSeq, i, gsoSize) == sentSeq
  {
    hide IsRun, Classify, MinIPHeader;
    RunFits(orig, can, g, key, thLen, gsoSize, sentSeq, i);
  }

  lemma SeqField(pkt: Bytes, can: bool)
    requires Classify(pkt, can).Some? && Classify(pkt, can).value.key.TcpKey?
    ensures var info := Classify(pkt, can).value; info.iphLen + 8 <= |pkt| && info.seqNo == U32At(pkt, info.iphLen + 4)
  {
  }

  lemma SameField(a: Bytes, b: Bytes, i: nat)
    requires i + 4 <= |a| && i + 4 <= |b| && a[i] == b[i] && a[i + 1] == b[i + 1] && a[i + 2] == b[i + 2]
    requires a[i + 3] == b[i + 3]
    ensures U32At(a, i) == U32At(b, i)
  {
  }

  lemma PartSound(orig: seq<Bytes>, can: bool, g: seq<nat>, buf: Buf, m: Merge, seg: Bytes, i: nat)
    requires IsPart(orig, can, g, buf, m, seg, i)
    ensures SoundPacket(seg, m.key)
  {
    hide IsRun, IsMerged, ChecksumValid, Gso.Piece, Gso.Pieces, U16At, U32At, HeaderValid, PseudoSum, Payloads, Fold,
         Gso.ClearFinPsh, FlagsOK, Gso.Rewritten;
  }

  lemma StableClass(a: Bytes, b: Bytes, key: FlowKey, thLen: nat)
    requires var h := MinIPHeader(key.isV6) + thLen;
      h <= |a| && h <= |b| && forall j | 0 <= j < h && !Volatile(key, j) :: b[j] == a[j]
    requires THLen(key, thLen)
    requires a[0] / 16 == if key.isV6 then 6 else 4
    ensures 9 <= |a| && 9 <= |b| && HeaderClass(a) == HeaderClass(b)
    ensures Options(a, MinIPHeader(key.isV6), thLen) == Options(b, MinIPHeader(key.isV6), thLen)
  {
    assert !Volatile(key, 0) && !Volatile(key, 1) && !Volatile(key, 6) && !Volatile(key, 7) && !Volatile(key, 8);
    assert b[0] == a[0] && b[1] == a[1] && b[6] == a[6] && b[7] == a[7] && b[8] == a[8];
  }

  /** Segment i is classified as packet i of the run was. */
  lemma PartInfo(orig: seq<Bytes>, can: bool, g: seq<nat>, buf: Buf, m: Merge, seg: Bytes, i: nat)
    requires IsPart(orig, can, g, buf, m, seg, i)
    ensures IsCandidate(orig, can, g[i]) && Classify(seg, can).Some?
    ensures var x, y := InfoOf(orig, can, g[i]), Classify(seg, can).value;
      y == x.(psh := x.psh && LastNewest(g))
  {
    hide IsRun, IsMerged, IsAccounted, Classify, Gso.IsSegment, Gso.WellFormed, Volatile, U16At, U32At, ChecksumValid,
         HeaderValid, LastNewest;
    RunFits(orig, can, g, m.key, m.thLen, m.gsoSize, m.sentSeq, 0);
    RunFits(orig, can, g, m.key, m.thLen, m.gsoSize, m.sentSeq, i);
    PartStable(orig, can, g, buf, m, seg, i);
    PartPayload(orig, can, g, buf, m, seg, i);
    PartSound(orig, can, g, buf, m, seg, i);
    ClassifyFacts(orig[g[0]], can);
    ClassifyFacts(orig[g[i]], can);
    if m.key.TcpKey? {
      PartPsh(orig, can, g, buf, m, seg, i);
      PartSeq(orig, can, g, buf, m, seg, i);
    }
    Reclassified(orig[g[0]], seg, can);
  }

  /** Segment i of a super-packet carries the message of packet i of its run. */
  lemma PartIsPacket(orig: seq<Bytes>, can: bool, g: seq<nat>, buf: Buf, m: Merge, seg: Bytes, i: nat)
    requires IsPart(orig, can, g, buf, m, seg, i)
    ensures g[i] < |orig| && SamePacket(orig[g[i]], seg, can, LastNewest(g)) && SoundPacket(seg, m.key)
  {
    hide IsRun, IsMerged, Classify, Gso.IsSegment, Gso.WellFormed, Volatile, U16At, U32At, ChecksumValid, HeaderValid,
         HeaderClass, Options;
    RunFits(orig, can, g, m.key, m.thLen, m.gsoSize, m.sentSeq, 0);
    RunFits(orig, can, g, m.key, m.thLen, m.gsoSize, m.sentSeq, i);
    PartInfo(orig, can, g, buf, m, seg, i);
    PartStable(orig, can, g, buf, m, seg, i);
    PartPayload(orig, can, g, buf, m, seg, i);
    PartSound(orig, can, g, buf, m, seg, i);
    ClassifyFacts(orig[g[0]], can);
    StableClass(orig[g[0]], seg, m.key, m.thLen);
  }

  /** Splitting a super-packet that a GRO pass wrote. */
  method SplitWritten(ghost orig: seq<Bytes>, ghost can: bool, ghost g: seq<nat>, buf: Buf, ghost m: Merge,
                      isV6: bool, nOut: nat, big: bool)
    returns (outs: seq<Bytes>, tooMany: bool)
    requires IsSuperPacket(orig, can, g, buf, m) && m.key.isV6 == isV6
    ensures tooMany <==> |g| > nOut
    ensures !tooMany ==> |outs| == |g|
    ensures !tooMany ==> forall i | 0 <= i < |g| :: g[i] < |orig| && SamePacket(orig[g[i]], outs[i], can, LastNewest(g))
    ensures !tooMany ==> forall i | 0 <= i < |g| :: SoundPacket(outs[i], m.key)
  {
    hide IsRun, IsMerged, IsAccounted, Classify, Gso.IsSegment, Gso.WellFormed, SamePacket, SoundPacket, Gso.Pieces,
         Gso.Cleared;
    HdrBound(buf.pkt, m.pkt, m.key, m.thLen);
    AccountedWellFormed(buf.pkt, m.pkt, m.key, m.thLen, m.gsoSize);
    PieceTotal(orig, can, g, buf, m);
    var inp, n;
    inp, outs, n, tooMany := Gso.GsoSplit(buf.pkt, buf.vhdr.value, isV6, nOut, big);
    if !tooMany {
      PartsArePackets(orig, can, g, buf, m, outs);
    }
  }

  lemma PartsArePackets(orig: seq<Bytes>, can: bool, g: seq<nat>, buf: Buf, m: Merge, outs: seq<Bytes>)
    requires |outs| == |g| && forall i | 0 <= i < |g| :: IsPart(orig, can, g, buf, m, outs[i], i)
    ensures forall i | 0 <= i < |g| :: g[i] < |orig| && SamePacket(orig[g[i]], outs[i], can, LastNewest(g))
    ensures forall i | 0 <= i < |g| :: SoundPacket(outs[i], m.key)
  {
    hide IsPart, SamePacket, SoundPacket;
    forall i | 0 <= i < |g|
      ensures g[i] < |orig| && SamePacket(orig[g[i]], outs[i], can, LastNewest(g))
      ensures SoundPacket(outs[i], m.key)
    {
      PartIsPacket(orig, can, g, buf, m, outs[i], i);
    }
  }

  /** The reader finds the IP version and the header length of a super-packet as GRO left them. */
  lemma SuperPacketParses(orig: seq<Bytes>, can: bool, g: seq<nat>, buf: Buf, m: Merge)
    requires IsSuperPacket(orig, can, g, buf, m)
    ensures m.thLen <= 60
    ensures var hdr := HdrFor(m.key, m.thLen, m.gsoSize);
      && FromKernel(buf.pkt, hdr) && !hdr.gsoType.GsoNone? && Accepted(buf.pkt, hdr)
      && Parsed(buf.pkt, hdr) == hdr && (buf.pkt[0] / 16 == 6 <==> m.key.isV6)
  {
    hide IsRun, Payloads, U16At, HeaderValid, PseudoSum, Fold, Classify;
    var h, first := MinIPHeader(m.key.isV6), orig[g[0]];
    RunFits(orig, can, g, m.key, m.thLen, m.gsoSize, m.sentSeq, 0);
    ClassifyFacts(first, can);
    assert !Touched(m.key, 0) && (m.key.TcpKey? ==> !Touched(m.key, h + 12));
    assert buf.pkt[0] == first[0] && (m.key.TcpKey? ==> buf.pkt[h + 12] == first[h + 12]);
  }

  /** Reading what a GRO pass wrote: the packets that were merged come back. */
  method ReadWritten(ghost orig: seq<Bytes>, ghost can: bool, ghost g: seq<nat>, buf: Buf, ghost w: nat, room: nat,
                     nOut: nat, big: bool)
    returns (outs: seq<Bytes>, err: ReadError)
    requires Written(orig, can, g, buf, w) && buf.vhdr.Some?
    ensures |g| == 1 ==> err == (if |buf.pkt| > room then Overflows else Fine) && (err.Fine? ==> outs == [orig[g[0]]])
    ensures |g| > 1 ==> err == if |g| > nOut then TooManySegments else Fine
    ensures |g| > 1 && err.Fine? ==> |outs| == |g| && forall i | 0 <= i < |g| ::
      && g[i] < |orig| && SamePacket(orig[g[i]], outs[i], can, LastNewest(g))
      && IsCandidate(orig, can, g[i]) && SoundPacket(outs[i], InfoOf(orig, can, g[i]).key)
  {
    hide IsCandidate, InfoOf, Split, SamePacket, SoundPacket, IsSuperPacket, Accepted, Parsed;
    if |g| != 1 { ReadableRun(orig, can, g, buf); }
    outs, err := HandleVirtioRead(buf.pkt, buf.vhdr.value, room, nOut, big);
    if |g| > 1 { ReadRun(orig, can, g, buf, nOut, outs, err); }
  }

  /** The reader accepts a written super-packet. */
  lemma ReadableRun(orig: seq<Bytes>, can: bool, g: seq<nat>, buf: Buf)
    requires Written(orig, can, g, buf, 0) && |g| != 1
    ensures buf.vhdr.Some?
    ensures var hdr := buf.vhdr.value; !hdr.gsoType.GsoNone? && FromKernel(buf.pkt, hdr) && Accepted(buf.pkt, hdr)
  {
    hide IsSuperPacket, HdrFor, Accepted, FromKernel;
    var m :| IsSuperPacket(orig, can, g, buf, m);
    SuperPacketParses(orig, can, g, buf, m);
    SuperPacketFacts(orig, can, g, buf, m);
  }

  lemma ReadRun(orig: seq<Bytes>, can: bool, g: seq<nat>, buf: Buf, nOut: nat, outs: seq<Bytes>, err: ReadError)
    requires Written(orig, can, g, buf, 0) && |g| > 1 && buf.vhdr.Some? && !err.Malformed? && !err.Overflows?
    requires var hdr := buf.vhdr.value;
      && FromKernel(buf.pkt, hdr) && Accepted(buf.pkt, hdr)
      && Split(buf.pkt, Parsed(buf.pkt, hdr), buf.pkt[0] / 16 == 6, nOut, outs, err.TooManySegments?)
    ensures err == if |g| > nOut then TooManySegments else Fine
    ensures err.Fine? ==> |outs| == |g| && forall i | 0 <= i < |g| ::
      && g[i] < |orig| && SamePacket(orig[g[i]], outs[i], can, LastNewest(g)) && IsCandidate(orig, can, g[i])
      && SoundPacket(outs[i], InfoOf(orig, can, g[i]).key)
  {
    hide IsRun, IsMerged, IsAccounted, Classify, Gso.IsSegment, Gso.InSequence, Gso.WellFormed, SamePacket, SoundPacket,
         Gso.Pieces, HdrFor, Accepted, FromKernel, Parsed;
    var m :| IsSuperPacket(orig, can, g, buf, m);
    SuperPacketParses(orig, can, g, buf, m);
    SuperPacketFacts(orig, can, g, buf, m);
    if err.Fine? {
      PartsArePackets(orig, can, g, buf, m, outs);
      RunKeys(orig, can, g, m);
    }
  }

  lemma SuperPacketFacts(orig: seq<Bytes>, can: bool, g: seq<nat>, buf: Buf, m: Merge)
    requires IsSuperPacket(orig, can, g, buf, m) && m.thLen <= 60
    ensures var hdr := HdrFor(m.key, m.thLen, m.gsoSize);
      && buf.vhdr == Some(hdr) && Gso.WellFormed(buf.pkt, hdr, m.key.isV6) && hdr.hdrLen <= |buf.pkt| && hdr.gsoSize > 0
      && Gso.Pieces(|buf.pkt| - hdr.hdrLen, hdr.gsoSize) == |g|
  {
    hide IsRun, IsMerged, IsAccounted, Gso.Pieces;
    AccountedWellFormed(buf.pkt, m.pkt, m.key, m.thLen, m.gsoSize);
    PieceTotal(orig, can, g, buf, m);
  }

  lemma RunKeys(orig: seq<Bytes>, can: bool, g: seq<nat>, m: Merge)
    requires IsRun(orig, can, g, m.key, m.thLen, m.gsoSize, m.sentSeq)
    ensures forall i | 0 <= i < |g| :: IsCandidate(orig, can, g[i]) && InfoOf(orig, can, g[i]).key == m.key
  {
    forall i | 0 <= i < |g| ensures IsCandidate(orig, can, g[i]) && InfoOf(orig, can, g[i]).key == m.key {
      RunFits(orig, can, g, m.key, m.thLen, m.gsoSize, m.sentSeq, i);
    }
  }

  lemma HdrBound(out: Bytes, pkt: Bytes, key: FlowKey, thLen: nat)
    requires IsAccounted(out, pkt, key, thLen)
    ensures thLen <= 60 && |out| == |pkt| && MinIPHeader(key.isV6) + thLen <= |pkt|
  {
  }

  lemma PieceTotal(orig: seq<Bytes>, can: bool, g: seq<nat>, buf: Buf, m: Merge)
    requires IsSuperPacket(orig, can, g, buf, m)
    ensures MinIPHeader(m.key.isV6) + m.thLen <= |buf.pkt|
    ensures Gso.Pieces(|buf.pkt| - MinIPHeader(m.key.isV6) - m.thLen, m.gsoSize) == |g|
  {
    hide IsRun, Classify, Gso.Pieces, Gso.Piece, Payloads, U16At, HeaderValid, PseudoSum, Fold;
    RunPieces(orig, can, g, m.key, m.thLen, m.gsoSize, m.sentSeq, 0);
  }
}
