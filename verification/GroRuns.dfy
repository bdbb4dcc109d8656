/** When a packet may join the run of an item, and why the result is a run again. */
module GroRuns {
  import opened Basics
  import opened Packet
  import opened GroPackets
  import opened GroState
  import Gso

  datatype CanCoalesce = CoalescePrepend | CoalesceUnavailable | CoalesceAppend

  predicate Comparable(pkt: Bytes, info: Info, item: Item, target: Bytes) {
    && info.iphLen + info.thLen <= |pkt| && item.iphLen + item.thLen <= |target|
    && item.gsoSize > 0
  }

  /** Options and IP headers agree. */
  predicate SameHeaders(pkt: Bytes, info: Info, item: Item, target: Bytes)
    requires Comparable(pkt, info, item, target)
  {
    && info.thLen == item.thLen
    && Options(pkt, info.iphLen, info.thLen) == Options(target, item.iphLen, item.thLen)
    && IpHeadersCanCoalesce(pkt, target)
  }

  /** The length of the item's run, as the source computes it: in 16 bits, and on the
      assumption that its last segment is full. */
  function LhsLen(item: Item): U16 {
    (item.gsoSize + item.numMerged * item.gsoSize % 0x1_0000) % 0x1_0000
  }

  /** No smaller packet ends the run yet. */
  predicate WholeSegments(item: Item, target: Bytes)
    requires item.gsoSize > 0 && item.iphLen + item.thLen <= |target|
  {
    (|target| - item.iphLen - item.thLen) % item.gsoSize == 0
  }

  function TcpPacketsCanCoalesce(pkt: Bytes, info: Info, item: Item, target: Bytes): CanCoalesce
    requires Comparable(pkt, info, item, target)
  {
    if !SameHeaders(pkt, info, item, target) then CoalesceUnavailable else
      if info.seqNo == Gso.SeqPlus(item.sentSeq, LhsLen(item)) then
        if item.pshSet then CoalesceUnavailable
        else if !WholeSegments(item, target) then CoalesceUnavailable
        else if info.size > item.gsoSize then CoalesceUnavailable
        else CoalesceAppend
      else if Gso.SeqPlus(info.seqNo, info.size) == item.sentSeq then
        if info.psh then CoalesceUnavailable
        else if info.size < item.gsoSize then CoalesceUnavailable
        else if info.size > item.gsoSize && item.numMerged > 0 then CoalesceUnavailable
        else CoalescePrepend
      else CoalesceUnavailable
  }

  function UdpPacketsCanCoalesce(pkt: Bytes, info: Info, item: Item, target: Bytes): CanCoalesce
    requires Comparable(pkt, info, item, target)
  {
    if !IpHeadersCanCoalesce(pkt, target) then CoalesceUnavailable
    else if !WholeSegments(item, target) then CoalesceUnavailable
    else if info.size > item.gsoSize then CoalesceUnavailable
    else CoalesceAppend
  }

  // ---- Lengths -----------------------------------------------------------------------------

  lemma {:induction false} FullPayloads(orig: seq<Bytes>, g: seq<nat>, h: nat, size: nat)
    requires forall t | 0 <= t < |g| :: g[t] < |orig| && |orig[g[t]]| == h + size
    ensures |Payloads(orig, g, h)| == |g| * size
  {
    if g != [] {
      FullPayloads(orig, g[..|g| - 1], h, size);
      assert |g| * size == (|g| - 1) * size + size;
    }
  }

  /** A run is full segments followed by its last packet. */
  lemma RunLength(orig: seq<Bytes>, can: bool, g: seq<nat>, key: FlowKey, thLen: nat, gsoSize: nat, sentSeq: U32)
    requires IsRun(orig, can, g, key, thLen, gsoSize, sentSeq)
    ensures var h, last := MinIPHeader(key.isV6) + thLen, g[|g| - 1];
      && (forall t | 0 <= t < |g| :: g[t] < |orig| && h <= |orig[g[t]]|)
      && IsCandidate(orig, can, last) && 1 <= InfoOf(orig, can, last).size <= gsoSize
      && |Payloads(orig, g, h)| == (|g| - 1) * gsoSize + InfoOf(orig, can, last).size
  {
    hide Classify, MinIPHeader;
    var h, k := MinIPHeader(key.isV6) + thLen, |g| - 1;
    assert Fits(orig, can, g[k], k, true, key, thLen, gsoSize, sentSeq);
    forall t | 0 <= t < k ensures g[t] < |orig| && |orig[g[t]]| == h + gsoSize {
      assert Fits(orig, can, g[t], t, false, key, thLen, gsoSize, sentSeq);
    }
    FullPayloads(orig, g[..k], h, gsoSize);
  }

  lemma ItemLength(orig: seq<Bytes>, can: bool, bufs: seq<Buf>, groups: map<nat, seq<nat>>, key: FlowKey, item: Item)
    requires ItemOK(orig, can, bufs, groups, key, item)
    ensures var last := groups[item.bufsIndex][item.numMerged];
      && IsCandidate(orig, can, last) && 1 <= InfoOf(orig, can, last).size <= item.gsoSize
      && |bufs[item.bufsIndex].pkt| ==
         item.iphLen + item.thLen + item.numMerged * item.gsoSize + InfoOf(orig, can, last).size
  {
    hide IsRun, InfoOf;
    RunLength(orig, can, groups[item.bufsIndex], key, item.thLen, item.gsoSize, item.sentSeq);
  }

  lemma LastIsFull(k: nat, size: nat, last: nat)
    requires 1 <= last <= size && (k * size + last) % size == 0
    ensures last == size
  {
    if last < size {
      QuotientUnique(k * size + last, size, k, last);
    }
  }

  lemma QuotientUnique(x: nat, d: nat, q: nat, r: nat)
    requires d > 0 && r < d && x == q * d + r
    ensures x % d == r
  {
    var q', r' := x / d, x % d;
    assert x == q' * d + r';
    assert (q + 1) * d == q * d + d && (q' + 1) * d == q' * d + d;
    Gso.MulMono(q + 1, q', d);
    Gso.MulMono(q' + 1, q, d);
  }

  // ---- Appending ---------------------------------------------------------------------------

  lemma AppendRun(orig: seq<Bytes>, can: bool, g: seq<nat>, n: nat, key: FlowKey, thLen: nat, gsoSize: nat,
                  sentSeq: U32)
    requires IsRun(orig, can, g, key, thLen, gsoSize, sentSeq)
    requires var last := InfoOf(orig, can, g[|g| - 1]); last.size == gsoSize && !last.psh
    requires Fits(orig, can, n, |g|, true, key, thLen, gsoSize, sentSeq)
    requires Alike(orig, n, g[0], MinIPHeader(key.isV6), thLen)
    requires GoodChecksum(orig, n, key) && (|g| == 1 ==> GoodChecksum(orig, g[0], key))
    ensures IsRun(orig, can, g + [n], key, thLen, gsoSize, sentSeq)
  {
    hide Alike, GoodChecksum, Classify;
    var g' := g + [n];
    forall t | 0 <= t < |g'| ensures Fits(orig, can, g'[t], t, t == |g'| - 1, key, thLen, gsoSize, sentSeq) {
      if t < |g| { assert Fits(orig, can, g[t], t, t == |g| - 1, key, thLen, gsoSize, sentSeq); }
    }
  }

  lemma AppendMerged(orig: seq<Bytes>, g: seq<nat>, n: nat, pkt: Bytes, pkt': Bytes, iphLen: nat, thLen: nat)
    requires IsMerged(orig, g, pkt, iphLen, thLen)
    requires n < |orig| && iphLen + thLen <= |orig[n]| && |pkt'| == |pkt|
    requires forall j | 0 <= j < |pkt| && !(thLen >= 20 && j == iphLen + TCP_FLAGS_OFFSET) :: pkt'[j] == pkt[j]
    ensures IsMerged(orig, g + [n], pkt' + orig[n][iphLen + thLen..], iphLen, thLen)
  {
    var h, g' := iphLen + thLen, g + [n];
    assert g'[..|g|] == g;
    assert pkt'[h..] == pkt[h..];
    assert (pkt' + orig[n][h..])[h..] == pkt'[h..] + orig[n][h..];
  }

  // ---- Prepending --------------------------------------------------------------------------

  lemma PrependSeq(seqNo: U32, size: nat, sentSeq: U32, t: nat)
    requires Gso.SeqPlus(seqNo, size) == sentSeq
    ensures SeqAt(sentSeq, t, size) == SeqAt(seqNo, t + 1, size)
  {
    var q: nat := (seqNo + size) / 0x1_0000_0000;
    assert (t + 1) * size == t * size + size;
    SameSeq(seqNo + (t + 1) * size, sentSeq + t * size, q);
  }

  lemma SameSeq(x: nat, y: nat, q: nat)
    requires x == y + 0x1_0000_0000 * q
    ensures x % 0x1_0000_0000 == y % 0x1_0000_0000
  {
    var a, b := x / 0x1_0000_0000, y / 0x1_0000_0000;
    assert x % 0x1_0000_0000 - y % 0x1_0000_0000 == 0x1_0000_0000 * (q + b - a);
  }

  lemma PrependRun(orig: seq<Bytes>, can: bool, g: seq<nat>, n: nat, key: FlowKey, thLen: nat, gsoSize: nat,
                   sentSeq: U32, gsoSize': nat, seqNo: U32)
    requires IsRun(orig, can, g, key, thLen, gsoSize, sentSeq) && key.TcpKey?
    requires gsoSize <= gsoSize' && (|g| > 1 ==> gsoSize' == gsoSize)
    requires Fits(orig, can, n, 0, false, key, thLen, gsoSize', seqNo)
    requires Gso.SeqPlus(seqNo, gsoSize') == sentSeq
    requires Alike(orig, n, g[0], MinIPHeader(key.isV6), thLen)
    requires GoodChecksum(orig, n, key) && (|g| == 1 ==> GoodChecksum(orig, g[0], key))
    ensures IsRun(orig, can, [n] + g, key, thLen, gsoSize', seqNo)
  {
    hide GoodChecksum, Classify, HeaderClass, Options;
    var g' := [n] + g;
    forall t | 0 <= t < |g'| ensures Fits(orig, can, g'[t], t, t == |g'| - 1, key, thLen, gsoSize', seqNo) {
      if t > 0 {
        assert g'[t] == g[t - 1];
        assert Fits(orig, can, g[t - 1], t - 1, t - 1 == |g| - 1, key, thLen, gsoSize, sentSeq);
        PrependSeq(seqNo, gsoSize', sentSeq, t - 1);
        assert |g| == 1 ==> SeqAt(sentSeq, t - 1, gsoSize) == SeqAt(sentSeq, t - 1, gsoSize');
      }
    }
    forall t | 0 <= t < |g'| ensures Alike(orig, g'[t], n, MinIPHeader(key.isV6), thLen) {
      if t > 0 { assert Alike(orig, g[t - 1], g[0], MinIPHeader(key.isV6), thLen); }
    }
    forall t | 0 <= t < |g'| ensures GoodChecksum(orig, g'[t], key) {
      if t > 0 { assert GoodChecksum(orig, g[t - 1], key); }
    }
  }

  lemma {:induction false} PayloadsFront(orig: seq<Bytes>, g: seq<nat>, n: nat, h: nat)
    requires n < |orig| && h <= |orig[n]|
    requires forall t | 0 <= t < |g| :: g[t] < |orig| && h <= |orig[g[t]]|
    ensures Payloads(orig, [n] + g, h) == orig[n][h..] + Payloads(orig, g, h)
  {
    hide Payloads;
    var g' := [n] + g;
    PayloadsLast(orig, g', h);
    PayloadsLast(orig, g, h);
    if g == [] {
      PayloadsLast(orig, g'[..0], h);
    } else {
      PayloadsFront(orig, g[..|g| - 1], n, h);
      assert g'[..|g'| - 1] == [n] + g[..|g| - 1];
      assert g'[|g'| - 1] == g[|g| - 1];
    }
  }

  lemma PayloadsLast(orig: seq<Bytes>, g: seq<nat>, h: nat)
    requires forall t | 0 <= t < |g| :: g[t] < |orig| && h <= |orig[g[t]]|
    ensures g == [] ==> Payloads(orig, g, h) == []
    ensures g != [] ==> Payloads(orig, g, h) == Payloads(orig, g[..|g| - 1], h) + orig[g[|g| - 1]][h..]
  {
  }

  lemma PrependMerged(orig: seq<Bytes>, g: seq<nat>, n: nat, pkt: Bytes, iphLen: nat, thLen: nat)
    requires IsMerged(orig, g, pkt, iphLen, thLen)
    requires n < |orig| && iphLen + thLen <= |orig[n]|
    ensures IsMerged(orig, [n] + g, orig[n] + pkt[iphLen + thLen..], iphLen, thLen)
  {
    var h := iphLen + thLen;
    PayloadsFront(orig, g, n, h);
    assert (orig[n] + pkt[h..])[h..] == orig[n][h..] + pkt[h..];
  }

  // ---- Items -------------------------------------------------------------------------------

  /** What the coalescing decision was taken on: the packet n, of the item's flow. */
  ghost predicate SameFlow(orig: seq<Bytes>, can: bool, bufs: seq<Buf>, groups: map<nat, seq<nat>>, key: FlowKey,
                           item: Item, n: nat) {
    && ItemOK(orig, can, bufs, groups, key, item)
    && IsCandidate(orig, can, n) && InfoOf(orig, can, n).key == key
    && |bufs[item.bufsIndex].pkt| <= 0xffff
  }

  lemma ItemComparable(orig: seq<Bytes>, can: bool, bufs: seq<Buf>, groups: map<nat, seq<nat>>, key: FlowKey,
                       item: Item, n: nat)
    requires SameFlow(orig, can, bufs, groups, key, item, n)
    ensures Comparable(orig[n], InfoOf(orig, can, n), item, bufs[item.bufsIndex].pkt)
    ensures InfoOf(orig, can, n).iphLen == item.iphLen == MinIPHeader(key.isV6)
    ensures key.UdpKey? ==> InfoOf(orig, can, n).thLen == item.thLen == 8
  {
    ClassifyFacts(orig[n], can);
    hide IsRun, Classify, MinIPHeader;
  }

  /** The merged packet shows the compared header fields of its first packet. */
  lemma MergedHeaders(orig: seq<Bytes>, g: seq<nat>, pkt: Bytes, iphLen: nat, thLen: nat)
    requires IsMerged(orig, g, pkt, iphLen, thLen) && iphLen >= 20
    ensures g[0] < |orig| && |orig[g[0]]| >= 20 && iphLen + thLen <= |orig[g[0]]|
    ensures HeaderClass(pkt) == HeaderClass(orig[g[0]]) && pkt[0] == orig[g[0]][0]
    ensures Options(pkt, iphLen, thLen) == Options(orig[g[0]], iphLen, thLen)
  {
    var first := orig[g[0]];
    assert pkt[0] == first[0] && pkt[1] == first[1] && pkt[6] == first[6] && pkt[7] == first[7] && pkt[8] == first[8];
  }

  lemma TargetAlike(orig: seq<Bytes>, can: bool, bufs: seq<Buf>, groups: map<nat, seq<nat>>, key: FlowKey, item: Item,
                    n: nat)
    requires SameFlow(orig, can, bufs, groups, key, item, n)
    requires Comparable(orig[n], InfoOf(orig, can, n), item, bufs[item.bufsIndex].pkt)
    requires SameHeaders(orig[n], InfoOf(orig, can, n), item, bufs[item.bufsIndex].pkt)
    ensures Alike(orig, n, groups[item.bufsIndex][0], MinIPHeader(key.isV6), item.thLen)
  {
    var g, target := groups[item.bufsIndex], bufs[item.bufsIndex].pkt;
    MinHeaderBound(key.isV6);
    MergedHeaders(orig, g, target, item.iphLen, item.thLen);
    ClassifyFacts(orig[n], can);
    FirstOfRun(orig, can, g, key, item.thLen, item.gsoSize, item.sentSeq);
    ClassifyFacts(orig[g[0]], can);
    hide IsRun, IsMerged, Classify, Options, MinIPHeader;
  }

  lemma FirstOfRun(orig: seq<Bytes>, can: bool, g: seq<nat>, key: FlowKey, thLen: nat, gsoSize: nat, sentSeq: U32)
    requires IsRun(orig, can, g, key, thLen, gsoSize, sentSeq)
    ensures IsCandidate(orig, can, g[0]) && InfoOf(orig, can, g[0]).key == key
  {
    assert Fits(orig, can, g[0], 0, 0 == |g| - 1, key, thLen, gsoSize, sentSeq);
  }

  /** The 16-bit counter of merged packets and the 16-bit length of the run do not wrap. */
  lemma CountersFit(orig: seq<Bytes>, can: bool, bufs: seq<Buf>, groups: map<nat, seq<nat>>, key: FlowKey, item: Item)
    requires ItemOK(orig, can, bufs, groups, key, item) && |bufs[item.bufsIndex].pkt| <= 0xffff
    ensures item.numMerged < 0xffff
    ensures item.gsoSize > 0 && item.iphLen + item.thLen <= |bufs[item.bufsIndex].pkt|
    ensures WholeSegments(item, bufs[item.bufsIndex].pkt) ==>
      && InfoOf(orig, can, groups[item.bufsIndex][item.numMerged]).size == item.gsoSize
      && Gso.SeqPlus(item.sentSeq, LhsLen(item)) == SeqAt(item.sentSeq, item.numMerged + 1, item.gsoSize)
  {
    hide IsRun, IsMerged, InfoOf, IsCandidate;
    ItemLength(orig, can, bufs, groups, key, item);
    var last := InfoOf(orig, can, groups[item.bufsIndex][item.numMerged]).size;
    LengthFits(item, |bufs[item.bufsIndex].pkt| - item.iphLen - item.thLen, last);
  }

  lemma LengthFits(item: Item, len: nat, last: nat)
    requires len == item.numMerged * item.gsoSize + last <= 0xffff - 20 && 1 <= last <= item.gsoSize
    ensures item.numMerged < 0xffff
    ensures len % item.gsoSize == 0 ==>
      && last == item.gsoSize
      && Gso.SeqPlus(item.sentSeq, LhsLen(item)) == SeqAt(item.sentSeq, item.numMerged + 1, item.gsoSize)
  {
    hide Gso.SeqPlus;
    var k: nat, size: nat := item.numMerged, item.gsoSize;
    Gso.MulMono(1, size, k);
    Gso.Succ(k, size);
    if len % size == 0 {
      LastIsFull(k, size, last);
      SumFits(k, size);
    }
  }

  lemma SumFits(k: nat, size: nat)
    requires k * size + size <= 0xffff
    ensures (size + k * size % 0x1_0000) % 0x1_0000 == k * size + size
  {
  }

  /** The conditions under which a packet is appended to an item. */
  ghost predicate MayAppend(orig: seq<Bytes>, can: bool, bufs: seq<Buf>, groups: map<nat, seq<nat>>, key: FlowKey,
                            item: Item, n: nat) {
    && SameFlow(orig, can, bufs, groups, key, item, n)
    && var info, target := InfoOf(orig, can, n), bufs[item.bufsIndex].pkt;
      && Comparable(orig[n], info, item, target)
      && (if key.TcpKey? then TcpPacketsCanCoalesce(orig[n], info, item, target).CoalesceAppend?
          else UdpPacketsCanCoalesce(orig[n], info, item, target).CoalesceAppend?)
      && Checked(orig, groups, key, item, n)
  }

  /** The checksums that coalescing verifies. */
  ghost predicate Checked(orig: seq<Bytes>, groups: map<nat, seq<nat>>, key: FlowKey, item: Item, n: nat) {
    && GoodChecksum(orig, n, key)
    && item.bufsIndex in groups && |groups[item.bufsIndex]| > 0
    && (item.numMerged == 0 ==> GoodChecksum(orig, groups[item.bufsIndex][0], key))
  }

  lemma AppendFits(orig: seq<Bytes>, can: bool, bufs: seq<Buf>, groups: map<nat, seq<nat>>, key: FlowKey, item: Item,
                   n: nat)
    requires MayAppend(orig, can, bufs, groups, key, item, n)
    ensures SameHeaders(orig[n], InfoOf(orig, can, n), item, bufs[item.bufsIndex].pkt)
    ensures Fits(orig, can, n, item.numMerged + 1, true, key, item.thLen, item.gsoSize, item.sentSeq)
    ensures var last := InfoOf(orig, can, groups[item.bufsIndex][item.numMerged]);
      last.size == item.gsoSize && !last.psh
  {
    hide IsRun, IsMerged, Classify, HeaderClass, MinIPHeader, GoodChecksum, SeqAt, LhsLen, WholeSegments;
    CountersFit(orig, can, bufs, groups, key, item);
    ItemComparable(orig, can, bufs, groups, key, item, n);
    ClassifyFacts(orig[n], can);
    KeyOfMember(orig, can, bufs, groups, key, item, item.numMerged);
    ClassifyFacts(orig[groups[item.bufsIndex][item.numMerged]], can);
  }

  lemma FitsPacket(orig: seq<Bytes>, can: bool, n: nat, t: nat, last: bool, key: FlowKey, thLen: nat, gsoSize: nat,
                   sentSeq: U32)
    requires Fits(orig, can, n, t, last, key, thLen, gsoSize, sentSeq)
    ensures n < |orig| && MinIPHeader(key.isV6) + thLen <= |orig[n]| && IsCandidate(orig, can, n)
  {
  }

  /** The item after a packet was appended. */
  function AppendedItem(item: Item, info: Info): Item
    requires item.numMerged < 0xffff
  {
    item.(numMerged := item.numMerged + 1, pshSet := item.pshSet || info.psh)
  }

  lemma AppendShape(orig: seq<Bytes>, can: bool, bufs: seq<Buf>, groups: map<nat, seq<nat>>, key: FlowKey,
                    item: Item, n: nat)
    requires MayAppend(orig, can, bufs, groups, key, item, n)
    ensures n < |orig| && item.bufsIndex < |bufs| && item.bufsIndex in groups
    ensures item.iphLen + item.thLen <= |orig[n]| && Classify(orig[n], can).Some?
  {
    hide IsRun, Classify, GoodChecksum, LhsLen, WholeSegments, Options, IpHeadersCanCoalesce;
    ClassifyFacts(orig[n], can);
  }

  lemma ItemAppended(orig: seq<Bytes>, can: bool, bufs: seq<Buf>, groups: map<nat, seq<nat>>, key: FlowKey,
                     item: Item, n: nat,
                     pkt: Bytes, bufs': seq<Buf>, groups': map<nat, seq<nat>>)
    requires n < |orig| && item.bufsIndex < |bufs| && item.bufsIndex in groups
    requires item.iphLen + item.thLen <= |orig[n]| && Classify(orig[n], can).Some?
    requires |pkt| == |bufs[item.bufsIndex].pkt|
    requires forall j | 0 <= j < |pkt| && !(item.thLen >= 20 && j == item.iphLen + TCP_FLAGS_OFFSET) ::
      pkt[j] == bufs[item.bufsIndex].pkt[j]
    requires item.thLen >= 20 ==>
      && item.iphLen + TCP_FLAGS_OFFSET < |pkt|
      && FlagsOK(pkt[item.iphLen + TCP_FLAGS_OFFSET], item.pshSet || InfoOf(orig, can, n).psh)
    requires groups' == groups[item.bufsIndex := groups[item.bufsIndex] + [n]]
    requires item.bufsIndex < |bufs'|
    requires bufs'[item.bufsIndex].pkt == pkt + orig[n][item.iphLen + item.thLen..]
    requires MayAppend(orig, can, bufs, groups, key, item, n) && item.numMerged < 0xffff
    requires forall x | x in groups[item.bufsIndex] :: x < n
    ensures ItemOK(orig, can, bufs', groups', key, AppendedItem(item, InfoOf(orig, can, n)))
  {
    hide IsRun, IsMerged, InfoOf, IsCandidate, Fits, Alike, SameHeaders, TcpPacketsCanCoalesce, UdpPacketsCanCoalesce,
         GoodChecksum, LastNewest;
    var b, g := item.bufsIndex, groups[item.bufsIndex];
    NewestAtEnds(g, n);
    AppendFits(orig, can, bufs, groups, key, item, n);
    TargetAlike(orig, can, bufs, groups, key, item, n);
    FitsPacket(orig, can, n, item.numMerged + 1, true, key, item.thLen, item.gsoSize, item.sentSeq);
    AppendRun(orig, can, g, n, key, item.thLen, item.gsoSize, item.sentSeq);
    AppendMerged(orig, g, n, bufs[b].pkt, pkt, item.iphLen, item.thLen);
  }

  /** The conditions under which a packet is put in front of an item. */
  ghost predicate MayPrepend(orig: seq<Bytes>, can: bool, bufs: seq<Buf>, groups: map<nat, seq<nat>>, key: FlowKey,
                             item: Item, n: nat) {
    && SameFlow(orig, can, bufs, groups, key, item, n)
    && key.TcpKey?
    && var info, target := InfoOf(orig, can, n), bufs[item.bufsIndex].pkt;
      && Comparable(orig[n], info, item, target)
      && TcpPacketsCanCoalesce(orig[n], info, item, target).CoalescePrepend?
      && Checked(orig, groups, key, item, n)
  }

  function PrependedItem(item: Item, info: Info): Item
    requires item.numMerged < 0xffff
  {
    item.(numMerged := item.numMerged + 1, sentSeq := info.seqNo,
          gsoSize := if info.size > item.gsoSize then info.size else item.gsoSize)
  }

  lemma PrependFits(orig: seq<Bytes>, can: bool, bufs: seq<Buf>, groups: map<nat, seq<nat>>, key: FlowKey, item: Item,
                    n: nat)
    requires MayPrepend(orig, can, bufs, groups, key, item, n)
    ensures var info := InfoOf(orig, can, n);
      && SameHeaders(orig[n], info, item, bufs[item.bufsIndex].pkt)
      && item.gsoSize <= info.size && (item.numMerged > 0 ==> info.size == item.gsoSize)
      && Gso.SeqPlus(info.seqNo, info.size) == item.sentSeq
      && Fits(orig, can, n, 0, false, key, item.thLen, info.size, info.seqNo)
  {
    hide IsRun, IsMerged, Classify, HeaderClass, MinIPHeader, GoodChecksum, LhsLen, WholeSegments, Options,
         IpHeadersCanCoalesce;
    ItemComparable(orig, can, bufs, groups, key, item, n);
    ClassifyFacts(orig[n], can);
  }

  lemma FlagsOfPrepended(orig: seq<Bytes>, can: bool, bufs: seq<Buf>, groups: map<nat, seq<nat>>, key: FlowKey,
                         item: Item, n: nat)
    requires MayPrepend(orig, can, bufs, groups, key, item, n)
    ensures item.iphLen + item.thLen <= |orig[n]| && item.thLen >= 20
    ensures orig[n][item.iphLen + TCP_FLAGS_OFFSET] == FLAG_ACK
  {
    hide IsRun, IsMerged, Classify, MinIPHeader, GoodChecksum, LhsLen, WholeSegments, Options, IpHeadersCanCoalesce;
    ItemComparable(orig, can, bufs, groups, key, item, n);
    ClassifyFacts(orig[n], can);
  }

  lemma ItemPrepended(orig: seq<Bytes>, can: bool, bufs: seq<Buf>, groups: map<nat, seq<nat>>, key: FlowKey,
                      item: Item, n: nat,
                      bufs': seq<Buf>, groups': map<nat, seq<nat>>)
    requires MayPrepend(orig, can, bufs, groups, key, item, n) && item.numMerged < 0xffff
    requires forall x | x in groups[item.bufsIndex] :: x < n
    requires groups' == groups[item.bufsIndex := [n] + groups[item.bufsIndex]]
    requires item.bufsIndex < |bufs'|
    requires bufs'[item.bufsIndex].pkt == orig[n] + bufs[item.bufsIndex].pkt[item.iphLen + item.thLen..]
    ensures ItemOK(orig, can, bufs', groups', key, PrependedItem(item, InfoOf(orig, can, n)))
  {
    hide IsRun, IsMerged, InfoOf, IsCandidate, Fits, Alike, SameHeaders, TcpPacketsCanCoalesce, GoodChecksum,
         LastNewest;
    var b, g, info := item.bufsIndex, groups[item.bufsIndex], InfoOf(orig, can, n);
    NewestAtEnds(g, n);
    PrependFits(orig, can, bufs, groups, key, item, n);
    TargetAlike(orig, can, bufs, groups, key, item, n);
    FitsPacket(orig, can, n, 0, false, key, item.thLen, info.size, info.seqNo);
    FlagsOfPrepended(orig, can, bufs, groups, key, item, n);
    PrependRun(orig, can, g, n, key, item.thLen, item.gsoSize, item.sentSeq, info.size, info.seqNo);
    PrependMerged(orig, g, n, bufs[b].pkt, item.iphLen, item.thLen);
  }
}
