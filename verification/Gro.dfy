/** The GRO pass: coalescing a batch of packet buffers in place. */
module Gro {
  import opened Basics
  import opened Packet
  import opened GroPackets
  import opened GroState
  import opened GroRuns
  import opened GroChoice
  import opened GroAccounting

  datatype CoalesceResult = InsufficientCap | PSHEnding | ItemInvalidCSum | PktInvalidCSum | Success

  datatype GroResult = ResultNoop | ResultTableInsert | ResultCoalesced

  const VIRTIO_NET_HDR_LEN := 10

  predicate RoomyBuf(b: Buf, offset: nat) {
    |b.pkt| + offset <= b.cap <= 0xffff
  }

  /** The order in which coalescing gives up. */
  function Outcome(roomy: bool, pshEnding: bool, itemBad: bool, pktBad: bool): CoalesceResult {
    if !roomy then InsufficientCap
    else if pshEnding then PSHEnding
    else if itemBad then ItemInvalidCSum
    else if pktBad then PktInvalidCSum
    else Success
  }

  predicate Checkable(pkt: Bytes, item: Item) {
    && item.iphLen == MinIPHeader(item.key.isV6) && item.iphLen + item.thLen <= |pkt| <= 0xffff
  }

  predicate SumOK(pkt: Bytes, item: Item)
    requires Checkable(pkt, item)
  {
    ChecksumValid(pkt, item.iphLen, ProtoOf(item.key), item.key.isV6)
  }

  /** PSH set in the flags byte of a TCP packet. */
  function WithPsh(pkt: Bytes, iphLen: nat): (r: Bytes)
    requires iphLen + TCP_FLAGS_OFFSET < |pkt|
    ensures |r| == |pkt| && forall j | 0 <= j < |pkt| && j != iphLen + TCP_FLAGS_OFFSET :: r[j] == pkt[j]
    ensures pkt[iphLen + TCP_FLAGS_OFFSET] == FLAG_ACK ==> r[iphLen + TCP_FLAGS_OFFSET] == FLAG_ACK + FLAG_PSH
  {
    var at := iphLen + TCP_FLAGS_OFFSET;
    if pkt[at] / FLAG_PSH % 2 == 1 then pkt else pkt[at := (pkt[at] + FLAG_PSH) % 0x100]
  }

  predicate Mergeable(bufs: seq<Buf>, n: nat, item: Item) {
    && n < |bufs| && item.bufsIndex < |bufs| && item.bufsIndex != n && item.numMerged < 0xffff
    && Checkable(bufs[n].pkt, item) && Checkable(bufs[item.bufsIndex].pkt, item)
    && (if item.key.TcpKey? then item.thLen >= 20 else item.thLen == 8)
  }

  /** The payload of packet n at the end of the item's packet. */
  function AppendedBufs(bufs: seq<Buf>, n: nat, item: Item, psh: bool): seq<Buf>
    requires Mergeable(bufs, n, item) && (psh ==> item.key.TcpKey?)
  {
    var target := bufs[item.bufsIndex].pkt;
    bufs[item.bufsIndex := bufs[item.bufsIndex].(pkt :=
      (if psh then WithPsh(target, item.iphLen) else target) + bufs[n].pkt[item.iphLen + item.thLen..])]
  }

  /** The item's payload at the end of packet n, and the two buffers exchanged. */
  function PrependedBufs(bufs: seq<Buf>, n: nat, item: Item): seq<Buf>
    requires Mergeable(bufs, n, item)
  {
    var b := item.bufsIndex;
    bufs[b := bufs[n].(pkt := bufs[n].pkt + bufs[b].pkt[item.iphLen + item.thLen..])][n := bufs[b]]
  }

  // ---- The steps of the pass as functions of its state ---------------------------------------

  ghost predicate At(s: State, n: nat, k: FlowKey, i: nat) {
    k in s.table && i < |s.table[k]| && s.table[k][i].bufsIndex in s.groups && Mergeable(s.bufs, n, s.table[k][i])
  }

  ghost function AfterMerge(s: State, n: nat, k: FlowKey, i: nat, info: Info, front: bool): State
    requires At(s, n, k, i) && (info.psh ==> s.table[k][i].key.TcpKey?)
  {
    var item := s.table[k][i];
    var g := s.groups[item.bufsIndex];
    State(if front then PrependedBufs(s.bufs, n, item) else AppendedBufs(s.bufs, n, item, info.psh),
          s.table[k := s.table[k][i := if front then PrependedItem(item, info) else AppendedItem(item, info)]],
          s.toWrite,
          s.groups[item.bufsIndex := if front then [n] + g else g + [n]],
          s.owner + [item.bufsIndex as nat])
  }

  ghost function AfterDrop(s: State, k: FlowKey, i: nat): State
    requires k in s.table && i < |s.table[k]| && s.table[k][i].bufsIndex < |s.bufs|
  {
    var b := s.table[k][i].bufsIndex;
    s.(table := s.table[k := s.table[k][..i] + s.table[k][i + 1..]],
       bufs := s.bufs[b := s.bufs[b].(vhdr := Some(ZERO_HDR))])
  }

  ghost predicate Small(s: State) { forall j | 0 <= j < |s.bufs| :: |s.bufs[j].pkt| <= 0xffff }

  ghost predicate Arriving(orig: seq<Bytes>, can: bool, s: State, n: nat, info: Info) {
    && Inv(orig, can, s, n) && Small(s) && n < |orig|
    && IsCandidate(orig, can, n) && info == InfoOf(orig, can, n)
  }

  /** What holds of an item of the arriving packet's flow. */
  lemma ItemReady(orig: seq<Bytes>, can: bool, s: State, n: nat, info: Info, i: nat)
    requires Arriving(orig, can, s, n, info) && info.key in s.table && i < |s.table[info.key]|
    ensures n < |s.bufs| && s.bufs[n].pkt == orig[n] && n !in s.groups
    ensures var item := s.table[info.key][i];
      && SameFlow(orig, can, s.bufs, s.groups, info.key, item, n)
      && Comparable(orig[n], info, item, s.bufs[item.bufsIndex].pkt)
      && item.key == info.key && item.bufsIndex in s.groups && item.bufsIndex < |s.bufs|
      && (item.thLen == info.thLen ==> At(s, n, info.key, i))
      && (info.key.UdpKey? ==> item.thLen == info.thLen && !info.psh)
  {
    hide IsRun, IsMerged, Classify, FlowOK, Tracked, UdpComplete, Comparable, MinIPHeader;
    var item := s.table[info.key][i];
    InvFlow(orig, can, s, n, info.key);
    ItemComparable(orig, can, s.bufs, s.groups, info.key, item, n);
    CountersFit(orig, can, s.bufs, s.groups, info.key, item);
    ClassifyFacts(orig[n], can);
  }

  lemma SumsChecked(orig: seq<Bytes>, can: bool, s: State, n: nat, k: FlowKey, i: nat)
    requires At(s, n, k, i) && SameFlow(orig, can, s.bufs, s.groups, k, s.table[k][i], n) && s.bufs[n].pkt == orig[n]
    requires SumOK(s.bufs[n].pkt, s.table[k][i])
    requires s.table[k][i].numMerged == 0 ==> SumOK(s.bufs[s.table[k][i].bufsIndex].pkt, s.table[k][i])
    ensures Checked(orig, s.groups, k, s.table[k][i], n)
  {
    hide IsRun, ChecksumValid, Classify;
  }

  lemma AppendIsMerge(orig: seq<Bytes>, can: bool, s: State, n: nat, info: Info, i: nat)
    requires Arriving(orig, can, s, n, info) && At(s, n, info.key, i)
    requires MayAppend(orig, can, s.bufs, s.groups, info.key, s.table[info.key][i], n)
    requires info.key.UdpKey? ==> i == |s.table[info.key]| - 1 && !info.psh
    ensures Inv(orig, can, AfterMerge(s, n, info.key, i, info, false), n + 1)
  {
    hide Inv, ItemOK, Partition, MayAppend, Checkable, IsCandidate, InfoOf, AppendedItem;
    ItemReady(orig, can, s, n, info, i);
    var k, item, s' := info.key, s.table[info.key][i], AfterMerge(s, n, info.key, i, info, false);
    GroupsBelow(orig, can, s, n);
    InvBounded(orig, can, s, n);
    var target := s.bufs[item.bufsIndex].pkt;
    FlagsOfTarget(orig, can, s.bufs, s.groups, k, item, n);
    AppendShape(orig, can, s.bufs, s.groups, k, item, n);
    ItemAppended(orig, can, s.bufs, s.groups, k, item, n, if info.psh then WithPsh(target, item.iphLen) else target,
                 s'.bufs, s'.groups);
    AppendedIndex(item, info);
    MergeKeeps(orig, can, s, s', n, k, i, AppendedItem(item, info), false);
  }

  lemma FlagsOfTarget(orig: seq<Bytes>, can: bool, bufs: seq<Buf>, groups: map<nat, seq<nat>>, key: FlowKey,
                      item: Item, n: nat)
    requires MayAppend(orig, can, bufs, groups, key, item, n)
    ensures item.iphLen + item.thLen <= |bufs[item.bufsIndex].pkt| && (key.UdpKey? ==> item.thLen == 8)
    ensures key.TcpKey? ==>
      && item.thLen >= 20 && !item.pshSet && bufs[item.bufsIndex].pkt[item.iphLen + TCP_FLAGS_OFFSET] == FLAG_ACK
  {
    hide IsRun, Classify, MinIPHeader, GoodChecksum, LhsLen, WholeSegments, Options, IpHeadersCanCoalesce;
  }

  lemma AppendedIndex(item: Item, info: Info)
    requires item.numMerged < 0xffff
    ensures AppendedItem(item, info).bufsIndex == item.bufsIndex
    ensures PrependedItem(item, info).bufsIndex == item.bufsIndex
  {
  }

  lemma PrependIsMerge(orig: seq<Bytes>, can: bool, s: State, n: nat, info: Info, i: nat)
    requires Arriving(orig, can, s, n, info) && At(s, n, info.key, i)
    requires MayPrepend(orig, can, s.bufs, s.groups, info.key, s.table[info.key][i], n)
    ensures Inv(orig, can, AfterMerge(s, n, info.key, i, info, true), n + 1)
  {
    hide Inv, ItemOK, Partition, MayPrepend, Checkable, IsCandidate, InfoOf, PrependedItem;
    KeyIsTCP(orig, can, s, n, info, i);
    var k, item, s' := info.key, s.table[info.key][i], AfterMerge(s, n, info.key, i, info, true);
    ItemReady(orig, can, s, n, info, i);
    GroupsBelow(orig, can, s, n);
    InvBounded(orig, can, s, n);
    ItemPrepended(orig, can, s.bufs, s.groups, k, item, n, s'.bufs, s'.groups);
    AppendedIndex(item, info);
    MergeKeeps(orig, can, s, s', n, k, i, PrependedItem(item, info), true);
  }

  lemma KeyIsTCP(orig: seq<Bytes>, can: bool, s: State, n: nat, info: Info, i: nat)
    requires At(s, n, info.key, i)
    requires MayPrepend(orig, can, s.bufs, s.groups, info.key, s.table[info.key][i], n)
    ensures info.key.TcpKey? && s.table[info.key][i].key.TcpKey?
  {
  }

  lemma MergeIsQuiet(s: State, n: nat, k: FlowKey, i: nat, info: Info, front: bool)
    requires At(s, n, k, i) && (info.psh ==> s.table[k][i].key.TcpKey?) && Quiet(s) && n !in s.groups
    requires s.table[k][i].bufsIndex < n
    ensures Quiet(AfterMerge(s, n, k, i, info, front))
  {
    hide Quiet;
    var item := s.table[k][i];
    QuietMerge(s, AfterMerge(s, n, k, i, info, front), n, k, i,
               if front then PrependedItem(item, info) else AppendedItem(item, info), front);
  }

  lemma ModeFacts(pkt: Bytes, info: Info, item: Item, target: Bytes)
    requires Comparable(pkt, info, item, target) && !TcpPacketsCanCoalesce(pkt, info, item, target).CoalesceUnavailable?
    ensures info.thLen == item.thLen
    ensures TcpPacketsCanCoalesce(pkt, info, item, target).CoalesceAppend? ==> info.size <= item.gsoSize
  {
    hide WholeSegments, LhsLen, Options, IpHeadersCanCoalesce;
  }

  lemma TcpMerged(orig: seq<Bytes>, can: bool, s: State, n: nat, info: Info, i: nat)
    requires Arriving(orig, can, s, n, info) && At(s, n, info.key, i) && Quiet(s) && info.key.TcpKey?
    requires SameFlow(orig, can, s.bufs, s.groups, info.key, s.table[info.key][i], n)
    requires Comparable(orig[n], info, s.table[info.key][i], s.bufs[s.table[info.key][i].bufsIndex].pkt)
    requires Checked(orig, s.groups, info.key, s.table[info.key][i], n)
    requires var item := s.table[info.key][i];
      !TcpPacketsCanCoalesce(orig[n], info, item, s.bufs[item.bufsIndex].pkt).CoalesceUnavailable?
    ensures s.table[info.key][i].key.TcpKey?
    ensures var item := s.table[info.key][i];
      var front := TcpPacketsCanCoalesce(orig[n], info, item, s.bufs[item.bufsIndex].pkt).CoalescePrepend?;
      var s' := AfterMerge(s, n, info.key, i, info, front);
      Inv(orig, can, s', n + 1) && Quiet(s')
  {
    hide Inv, Quiet, IsCandidate, InfoOf, Comparable, Checkable, TcpPacketsCanCoalesce, AppendedBufs, PrependedBufs,
         Partition, IsRun, IsMerged, Checked, AfterMerge;
    var item := s.table[info.key][i];
    GroupsBelow(orig, can, s, n);
    if TcpPacketsCanCoalesce(orig[n], info, item, s.bufs[item.bufsIndex].pkt).CoalescePrepend? {
      PrependIsMerge(orig, can, s, n, info, i);
      MergeIsQuiet(s, n, info.key, i, info, true);
    } else {
      AppendIsMerge(orig, can, s, n, info, i);
      MergeIsQuiet(s, n, info.key, i, info, false);
    }
  }

  // ---- Joining what can be joined ------------------------------------------------------------

  /** The batch that the pass works on. */
  ghost predicate Fitting(b: Batch, orig: seq<Bytes>, can: bool, offset: nat) {
    b.orig == orig && b.can == can && b.offset == offset
  }

  /** The length that the source computes before it merges. */
  ghost function CoalescedLen(s: State, n: nat, item: Item): int
    requires n < |s.bufs| && item.bufsIndex < |s.bufs|
  {
    |s.bufs[item.bufsIndex].pkt| + |s.bufs[n].pkt| - item.iphLen - item.thLen
  }

  lemma SumIsGood(orig: seq<Bytes>, pkt: Bytes, m: nat, item: Item)
    requires m < |orig| && pkt == orig[m] && Checkable(pkt, item)
    ensures SumOK(pkt, item) <==> GoodChecksum(orig, m, item.key)
  {
    hide ChecksumValid;
  }

  /** A packet that can join an item passes every test of the source. */
  lemma JoinSucceeds(b: Batch, s: State, n: nat, info: Info, i: nat)
    requires Arriving(b.orig, b.can, s, n, info) && Steady(b, s, n)
    requires info.key in s.table && i < |s.table[info.key]|
    requires s.table[info.key][i].bufsIndex in s.groups && CanJoin(b, s.groups[s.table[info.key][i].bufsIndex], n)
    ensures At(s, n, info.key, i)
    ensures var item := s.table[info.key][i];
      var target := s.bufs[item.bufsIndex].pkt;
      && Comparable(b.orig[n], info, item, target)
      && (if info.key.TcpKey? then !TcpPacketsCanCoalesce(b.orig[n], info, item, target).CoalesceUnavailable?
          else UdpPacketsCanCoalesce(b.orig[n], info, item, target).CoalesceAppend?)
      && var front := info.key.TcpKey? && TcpPacketsCanCoalesce(b.orig[n], info, item, target).CoalescePrepend?;
        && CoalescedLen(s, n, item) + 2 * b.offset <= s.bufs[if front then n else item.bufsIndex].cap
        && !(front && info.psh)
        && (item.numMerged == 0 ==> SumOK(target, item) && !item.cSumKnownInvalid)
        && SumOK(s.bufs[n].pkt, item)
  {
    hide Inv, IsCandidate, Comparable, TcpPacketsCanCoalesce, UdpPacketsCanCoalesce, SumOK, CanJoin, Steady,
         ItemOK, Checkable, CoalescedLen;
    var item := s.table[info.key][i];
    ItemReady(b.orig, b.can, s, n, info, i);
    JoinThLen(b, s, n, info, item);
    JoinMode(b, s, n, info, item);
    JoinRoom(b, s, n, info, item);
    JoinSums(b, s, n, info, i);
  }

  lemma JoinThLen(b: Batch, s: State, n: nat, info: Info, item: Item)
    requires SameFlow(b.orig, b.can, s.bufs, s.groups, info.key, item, n) && info == InfoOf(b.orig, b.can, n)
    requires CanJoin(b, s.groups[item.bufsIndex], n)
    ensures info.thLen == item.thLen
  {
    ItemHead(b.orig, b.can, s.bufs, s.groups, info.key, item);
    hide Classify, Runs, ItemOK;
    var g := s.groups[item.bufsIndex];
    if CanMerge(b, g + [n]) {
      assert (g + [n])[0] == g[0];
      RunMember(b, g + [n], |g|);
    } else {
      assert ([n] + g)[1] == g[0];
      RunMember(b, [n] + g, 1);
    }
  }

  lemma JoinMode(b: Batch, s: State, n: nat, info: Info, item: Item)
    requires SameFlow(b.orig, b.can, s.bufs, s.groups, info.key, item, n) && info == InfoOf(b.orig, b.can, n)
    requires CanJoin(b, s.groups[item.bufsIndex], n)
    requires Comparable(b.orig[n], info, item, s.bufs[item.bufsIndex].pkt)
    ensures var g, target := s.groups[item.bufsIndex], s.bufs[item.bufsIndex].pkt;
      if info.key.UdpKey? then
        CanMerge(b, g + [n]) && UdpPacketsCanCoalesce(b.orig[n], info, item, target).CoalesceAppend?
      else
        var mode := TcpPacketsCanCoalesce(b.orig[n], info, item, target);
        || (CanMerge(b, g + [n]) && mode.CoalesceAppend?)
        || (CanMerge(b, [n] + g) && mode.CoalescePrepend? && !info.psh)
  {
    hide Classify, Runs, ItemOK, Comparable, TcpPacketsCanCoalesce, UdpPacketsCanCoalesce;
    ItemInBounds(b.orig, b.can, s.bufs, s.groups, info.key, item);
    var g := s.groups[item.bufsIndex];
    if CanMerge(b, g + [n]) {
      AppendExpected(b, s.bufs, s.groups, info.key, item, n);
    } else {
      PrependExpected(b, s.bufs, s.groups, info.key, item, n);
      RunMember(b, [n] + g, 0);
    }
  }

  /** The room that CanMerge asks for is the room that the source asks for. */
  lemma JoinRoom(b: Batch, s: State, n: nat, info: Info, item: Item)
    requires SameFlow(b.orig, b.can, s.bufs, s.groups, info.key, item, n) && info == InfoOf(b.orig, b.can, n)
    requires Steady(b, s, n) && n < |s.bufs| && s.bufs[n].pkt == b.orig[n] && info.thLen == item.thLen
    ensures var g := s.groups[item.bufsIndex];
      && (CanMerge(b, g + [n]) ==> CoalescedLen(s, n, item) + 2 * b.offset <= s.bufs[item.bufsIndex].cap)
      && (CanMerge(b, [n] + g) ==> CoalescedLen(s, n, item) + 2 * b.offset <= s.bufs[n].cap)
  {
    hide Classify, ItemOK, Chosen, Known, Listed, CanMerge;
    ItemInBounds(b.orig, b.can, s.bufs, s.groups, info.key, item);
    var g := s.groups[item.bufsIndex];
    assert Held(b, s, item.bufsIndex);
    ItemHead(b.orig, b.can, s.bufs, s.groups, info.key, item);
    ItemLength(b.orig, b.can, s.bufs, s.groups, info.key, item);
    ItemComparable(b.orig, b.can, s.bufs, s.groups, info.key, item, n);
    ClassifyFacts(b.orig[n], b.can);
    if CanMerge(b, g + [n]) {
      BackLen(b, g, n);
      FrontLength(item.numMerged, item.gsoSize, item.gsoSize);
    }
    if CanMerge(b, [n] + g) {
      FrontLen(b, g, n);
      FrontLength(item.numMerged, item.gsoSize, info.size);
    }
  }

  lemma FrontLength(k: nat, size: nat, size': nat)
    requires k > 0 ==> size == size'
    ensures (k + 1) * size' == size' + k * size
  {
    if k > 0 {
      assert (k + 1) * size == size + k * size;
    }
  }

  lemma JoinSums(b: Batch, s: State, n: nat, info: Info, i: nat)
    requires Arriving(b.orig, b.can, s, n, info) && Steady(b, s, n) && At(s, n, info.key, i)
    requires SameFlow(b.orig, b.can, s.bufs, s.groups, info.key, s.table[info.key][i], n) && s.bufs[n].pkt == b.orig[n]
    requires CanJoin(b, s.groups[s.table[info.key][i].bufsIndex], n)
    ensures var item := s.table[info.key][i];
      && (item.numMerged == 0 ==> SumOK(s.bufs[item.bufsIndex].pkt, item) && !item.cSumKnownInvalid)
      && SumOK(s.bufs[n].pkt, item)
  {
    var item := s.table[info.key][i];
    ItemHead(b.orig, b.can, s.bufs, s.groups, info.key, item);
    SingleTarget(b.orig, b.can, s.bufs, s.groups, info.key, item);
    hide Inv, ItemOK, Classify, SumOK, CanJoin, Chosen, Known, Held, GoodChecksum, IsRun, IsMerged;
    var g := s.groups[item.bufsIndex];
    JoinedKey(b, g, n);
    SumIsGood(b.orig, s.bufs[n].pkt, n, item);
    assert Listed(b, s, info.key);
    if item.numMerged == 0 {
      SumIsGood(b.orig, s.bufs[item.bufsIndex].pkt, g[0], item);
      assert item.cSumKnownInvalid ==> Bad(b, s, info.key, item.bufsIndex);
    }
  }

  lemma SingleTarget(orig: seq<Bytes>, can: bool, bufs: seq<Buf>, groups: map<nat, seq<nat>>, key: FlowKey, item: Item)
    requires ItemOK(orig, can, bufs, groups, key, item)
    ensures item.key == key
    ensures item.numMerged == 0 ==>
      var m := groups[item.bufsIndex][0]; m < |orig| && bufs[item.bufsIndex].pkt == orig[m]
  {
    hide IsRun, Classify;
  }

  /** What the merge that succeeded made. */
  lemma MergeJoins(b: Batch, s: State, n: nat, info: Info, i: nat, front: bool)
    requires Arriving(b.orig, b.can, s, n, info) && Steady(b, s, n) && At(s, n, info.key, i)
    requires (info.psh ==> s.table[info.key][i].key.TcpKey?) && (front ==> info.key.TcpKey?)
    requires s.table[info.key][i].thLen == info.thLen
    requires Inv(b.orig, b.can, AfterMerge(s, n, info.key, i, info, front), n + 1)
    requires var item := s.table[info.key][i];
      CoalescedLen(s, n, item) + 2 * b.offset <= s.bufs[if front then n else item.bufsIndex].cap
    ensures var w, s' := s.table[info.key][i].bufsIndex as nat, AfterMerge(s, n, info.key, i, info, front);
      w in s.groups && w in s'.groups && JoinedTo(b, s.groups[w], s'.groups[w], n)
  {
    hide Inv, Classify, AfterMerge, Chosen, Known, Listed, CoalescedLen, Checkable, Small, Runs;
    var item, k, s' := s.table[info.key][i], info.key, AfterMerge(s, n, info.key, i, info, front);
    var w: nat := item.bufsIndex;
    assert Held(b, s, w);
    MergedSize(s, n, k, i, info, front);
    var item' := s'.table[k][i];
    InvFlow(b.orig, b.can, s', n + 1, k);
    hide ItemOK;
    ItemRuns(b, s'.bufs, s'.groups, k, item');
    ItemHead(b.orig, b.can, s'.bufs, s'.groups, k, item');
    ItemLength(b.orig, b.can, s'.bufs, s'.groups, k, item');
    MergeFits(b, s'.groups[w], item', CoalescedLen(s, n, item));
  }

  lemma MergeFits(b: Batch, g: seq<nat>, item: Item, len: int)
    requires Runs(b, g) && |g| == item.numMerged + 1 > 1 && g[0] < |b.caps| && len + 2 * b.offset <= b.caps[g[0]]
    requires IsCandidate(b.orig, b.can, g[item.numMerged])
    requires var f := InfoOf(b.orig, b.can, g[0]);
      && f.iphLen == item.iphLen && f.thLen == item.thLen && f.size == item.gsoSize
      && len == item.iphLen + item.thLen + item.numMerged * item.gsoSize + InfoOf(b.orig, b.can, g[item.numMerged]).size
    ensures CanMerge(b, g)
  {
    hide Classify;
  }

  lemma MergedSize(s: State, n: nat, k: FlowKey, i: nat, info: Info, front: bool)
    requires At(s, n, k, i) && (info.psh ==> s.table[k][i].key.TcpKey?)
    ensures var item, s' := s.table[k][i], AfterMerge(s, n, k, i, info, front);
      && k in s'.table && i < |s'.table[k]| && s'.table[k][i].bufsIndex == item.bufsIndex
      && item.bufsIndex in s'.groups && |s'.bufs| == |s.bufs|
      && s'.groups[item.bufsIndex] ==
         (if front then [n] + s.groups[item.bufsIndex] else s.groups[item.bufsIndex] + [n])
      && |s'.bufs[item.bufsIndex].pkt| == CoalescedLen(s, n, item)
      && s'.bufs[item.bufsIndex].cap == s.bufs[if front then n else item.bufsIndex].cap
      && (forall j | 0 <= j < |s.bufs| && j != item.bufsIndex && j != n :: s'.bufs[j].cap == s.bufs[j].cap)
      && (s'.table[k][i].cSumKnownInvalid ==> item.cSumKnownInvalid)
  {
    hide WithPsh;
    AppendedIndex(s.table[k][i], info);
  }

  lemma InvBounded(orig: seq<Bytes>, can: bool, s: State, n: nat)
    requires Inv(orig, can, s, n)
    ensures Bounded(s, n) && forall w | w in s.groups :: |s.groups[w]| > 0
    ensures forall k, a | k in s.table && 0 <= a < |s.table[k]| :: s.table[k][a].bufsIndex in s.groups
  {
    InvBound(orig, can, s, n);
    hide ItemOK, UdpComplete, Tracked, Alone;
    forall k, a | k in s.table && 0 <= a < |s.table[k]| ensures s.table[k][a].bufsIndex in s.groups {
      InvFlow(orig, can, s, n, k);
    }
  }

  lemma MergeIsSteady(b: Batch, s: State, n: nat, info: Info, i: nat, front: bool)
    requires Arriving(b.orig, b.can, s, n, info) && Steady(b, s, n) && At(s, n, info.key, i)
    requires (info.psh ==> s.table[info.key][i].key.TcpKey?) && (front ==> info.key.TcpKey?)
    requires s.table[info.key][i].thLen == info.thLen && s.table[info.key][i].bufsIndex < n
    requires Inv(b.orig, b.can, AfterMerge(s, n, info.key, i, info, front), n + 1)
    requires var item := s.table[info.key][i];
      && CoalescedLen(s, n, item) + 2 * b.offset <= s.bufs[if front then n else item.bufsIndex].cap
      && NoneBefore(b, s.groups, n, item.bufsIndex) && Eligible(b, s.groups, item.bufsIndex, n)
    ensures Steady(b, AfterMerge(s, n, info.key, i, info, front), n + 1)
  {
    hide Inv, Steady, Classify, CoalescedLen, NoneBefore, Eligible, JoinedTo, Checkable, AppendedItem, PrependedItem,
         AppendedBufs, PrependedBufs;
    var item, k, s' := s.table[info.key][i], info.key, AfterMerge(s, n, info.key, i, info, front);
    MergeJoins(b, s, n, info, i, front);
    MergedSize(s, n, k, i, info, front);
    InvBounded(b.orig, b.can, s, n);
    MergedCoalesced(s, n, k, i, info, front);
    forall k2, c | k2 in s.table && 0 <= c < |s.table[k2]| && (k2 != k || c != i)
      ensures s.table[k2][c].bufsIndex != item.bufsIndex
    {
      TableDistinct(b.orig, b.can, s, n, k, i, k2, c);
    }
    hide AfterMerge;
    SteadyMerge(b, s, s', n, k, i, s'.table[k][i], front);
  }

  lemma MergedCoalesced(s: State, n: nat, k: FlowKey, i: nat, info: Info, front: bool)
    requires At(s, n, k, i) && (info.psh ==> s.table[k][i].key.TcpKey?) && s.table[k][i].bufsIndex < n
    ensures var s' := AfterMerge(s, n, k, i, info, front);
      k in s'.table && i < |s'.table[k]| && Coalesced(s, s', n, k, i, s'.table[k][i], front)
  {
    hide WithPsh;
    AppendedIndex(s.table[k][i], info);
  }

  lemma DropIsSteady(b: Batch, s: State, n: nat, k: FlowKey, i: nat)
    requires Inv(b.orig, b.can, s, n) && Steady(b, s, n) && k in s.table && k.TcpKey? && i < |s.table[k]|
    requires s.table[k][i].bufsIndex < |s.bufs| && s.table[k][i].numMerged == 0
    requires Checkable(s.bufs[s.table[k][i].bufsIndex].pkt, s.table[k][i])
    requires !SumOK(s.bufs[s.table[k][i].bufsIndex].pkt, s.table[k][i])
    ensures Steady(b, AfterDrop(s, k, i), n)
  {
    hide Inv, Steady, Classify, SumOK, Checkable, GoodChecksum;
    var item := s.table[k][i];
    InvFlow(b.orig, b.can, s, n, k);
    ItemHead(b.orig, b.can, s.bufs, s.groups, k, item);
    SingleTarget(b.orig, b.can, s.bufs, s.groups, k, item);
    SumIsGood(b.orig, s.bufs[item.bufsIndex].pkt, s.groups[item.bufsIndex][0], item);
    hide ItemOK;
    SteadyDrop(b, s, AfterDrop(s, k, i), n, k, i);
  }

  /** Every group that a TCP packet can join belongs to one of the items of its flow. */
  lemma OnlyItemsJoin(b: Batch, s: State, n: nat, items: seq<Item>)
    requires Steady(b, s, n) && IsTcp(b, n)
    requires items == ItemsFor(s.table, InfoOf(b.orig, b.can, n).key)
    ensures forall w | w in s.groups && CanJoin(b, s.groups[w], n) ::
      exists a | 0 <= a < |items| :: items[a].bufsIndex == w
    ensures forall a, a' | 0 <= a < a' < |items| :: items[a].bufsIndex < items[a'].bufsIndex
  {
    var k := InfoOf(b.orig, b.can, n).key;
    if k in s.table { assert Listed(b, s, k); }
    hide CanJoin, Steady, Classify;
    forall w | w in s.groups && CanJoin(b, s.groups[w], n)
      ensures exists a | 0 <= a < |items| :: items[a].bufsIndex == w
    {
      JoinersTracked(b, s, n, w);
    }
  }

  /** Nothing newer than item i can be joined, if no item behind it can. */
  ghost predicate NoneNewer(b: Batch, groups: map<nat, seq<nat>>, items: seq<Item>, n: nat, i: nat) {
    forall a | i <= a < |items| :: items[a].bufsIndex in groups && !CanJoin(b, groups[items[a].bufsIndex], n)
  }

  lemma NewerCannotJoin(b: Batch, s: State, n: nat, items: seq<Item>, i: nat)
    requires Steady(b, s, n) && IsTcp(b, n) && Bounded(s, n) && i <= |items|
    requires items == ItemsFor(s.table, InfoOf(b.orig, b.can, n).key)
    requires NoneNewer(b, s.groups, items, n, i) && forall a | 0 <= a < |items| :: items[a].bufsIndex in s.groups
    ensures i > 0 ==> NoneBefore(b, s.groups, n, items[i - 1].bufsIndex)
    ensures i == 0 ==> NoneBefore(b, s.groups, n, n)
  {
    hide CanJoin, Steady, Classify, Eligible;
    OnlyItemsJoin(b, s, n, items);
    forall w | w in s.groups && CanJoin(b, s.groups[w], n) ensures i > 0 && w <= items[i - 1].bufsIndex {
      var a :| 0 <= a < |items| && items[a].bufsIndex == w;
      assert a < i;
    }
  }

  lemma Drop(orig: seq<Bytes>, can: bool, s: State, n: nat, k: FlowKey, i: nat)
    requires Inv(orig, can, s, n) && Quiet(s) && k in s.table && k.TcpKey? && i < |s.table[k]|
    requires s.table[k][i].bufsIndex < |s.bufs| && s.table[k][i].numMerged == 0
    ensures var s' := AfterDrop(s, k, i); Inv(orig, can, s', n) && Quiet(s')
  {
    hide Inv, Quiet;
    DropKeeps(orig, can, s, AfterDrop(s, k, i), n, k, i);
    QuietDrop(s, AfterDrop(s, k, i), k, i);
  }

  function NewItem(info: Info, n: U16, cSumKnownInvalid: bool): Item {
    Item(info.key, info.seqNo, n, 0, info.size, info.iphLen, info.thLen, info.psh, cSumKnownInvalid)
  }

  /** The table with a new item for packet n. */
  function WithItem(table: Table, item: Item): Table {
    table[item.key := ItemsFor(table, item.key) + [item]]
  }

  /** The packet was given a table item; s is the state just before. */
  ghost predicate TableInserted(orig: seq<Bytes>, can: bool, s: State, s': State, n: U16, info: Info) {
    && Inv(orig, can, s, n) && Quiet(s)
    && exists inv :: Marked(orig, n, info, inv) && s' == s.(table := WithItem(s.table, NewItem(info, n, inv)))
  }

  /** Only a packet with a bad checksum is marked. */
  ghost predicate Marked(orig: seq<Bytes>, n: nat, info: Info, inv: bool) { inv ==> !GoodChecksum(orig, n, info.key) }

  lemma WriteInserted(orig: seq<Bytes>, can: bool, s: State, mid: State, s': State, n: U16, info: Info)
    requires TableInserted(orig, can, s, mid, n, info) && n < |orig| && IsCandidate(orig, can, n)
    requires info == InfoOf(orig, can, n)
    requires s' == mid.(toWrite := s.toWrite + [n as nat], groups := s.groups[n as nat := [n as nat]],
                        owner := s.owner + [n as nat])
    ensures Inv(orig, can, s', n + 1) && Quiet(s')
  {
    hide Inv, Quiet, IsCandidate, InfoOf;
    var inv :| Marked(orig, n, info, inv) && mid == s.(table := WithItem(s.table, NewItem(info, n, inv)));
    var item := NewItem(info, n, inv);
    GroupsBelow(orig, can, s, n);
    InsertKeeps(orig, can, s, s', n, item);
    QuietInsert(s, s', n, item);
  }

  lemma InsertIsSteady(b: Batch, s: State, mid: State, s': State, n: U16, info: Info)
    requires TableInserted(b.orig, b.can, s, mid, n, info) && n < |b.orig| && IsCandidate(b.orig, b.can, n)
    requires info == InfoOf(b.orig, b.can, n) && Steady(b, s, n) && NoneBefore(b, s.groups, n, n)
    requires s' == mid.(toWrite := s.toWrite + [n as nat], groups := s.groups[n as nat := [n as nat]],
                        owner := s.owner + [n as nat])
    ensures Steady(b, s', n + 1)
  {
    InvBounded(b.orig, b.can, s, n);
    GroupsBelow(b.orig, b.can, s, n);
    hide Inv, Steady, Quiet, IsCandidate, InfoOf, NoneBefore, GoodChecksum;
    var inv :| Marked(b.orig, n, info, inv) && mid == s.(table := WithItem(s.table, NewItem(info, n, inv)));
    SteadyAlone(b, s, s', n, Some(NewItem(info, n, inv)));
  }

  lemma NoopIsSteady(b: Batch, s: State, s': State, n: nat)
    requires Inv(b.orig, b.can, s, n) && Steady(b, s, n) && n < |b.orig| && n < |s.bufs|
    requires IsCandidate(b.orig, b.can, n) ==> !GoodChecksum(b.orig, n, InfoOf(b.orig, b.can, n).key)
    requires s' == s.(bufs := s.bufs[n := s.bufs[n].(vhdr := Some(ZERO_HDR))], toWrite := s.toWrite + [n],
                      groups := s.groups[n := [n]], owner := s.owner + [n])
    ensures Steady(b, s', n + 1)
  {
    hide Inv, Steady, NoneBefore, GoodChecksum, InfoOf, IsCandidate;
    InvBounded(b.orig, b.can, s, n);
    NeverJoins(b, s.groups, n);
    SteadyAlone(b, s, s', n, None);
  }

  lemma WriteNoop(orig: seq<Bytes>, can: bool, s: State, s': State, n: nat)
    requires Inv(orig, can, s, n) && Quiet(s) && n < |orig|
    requires !(IsCandidate(orig, can, n) && InfoOf(orig, can, n).key.UdpKey?)
    requires n < |s.bufs|
    requires s' == s.(bufs := s.bufs[n := s.bufs[n].(vhdr := Some(ZERO_HDR))], toWrite := s.toWrite + [n],
                      groups := s.groups[n := [n]], owner := s.owner + [n])
    ensures Inv(orig, can, s', n + 1) && Quiet(s')
  {
    hide Inv, Quiet, IsCandidate, InfoOf;
    NoopKeeps(orig, can, s, s', n);
    QuietNoop(s, s', n);
  }

  // ---- What is written -----------------------------------------------------------------------

  /** How a written super-packet came about. */
  datatype Merge = Merge(key: FlowKey, thLen: nat, gsoSize: U16, sentSeq: U32, psh: bool, pkt: Bytes)

  /** buf holds the accounted merge of the run g. */
  ghost predicate IsSuperPacket(orig: seq<Bytes>, can: bool, g: seq<nat>, buf: Buf, m: Merge) {
    && m.gsoSize > 0
    && IsRun(orig, can, g, m.key, m.thLen, m.gsoSize, m.sentSeq)
    && IsMerged(orig, g, m.pkt, MinIPHeader(m.key.isV6), m.thLen)
    && m.psh == (InfoOf(orig, can, g[|g| - 1]).psh && LastNewest(g))
    && IsAccounted(buf.pkt, m.pkt, m.key, m.thLen)
    && (m.key.TcpKey? ==> FlagsOK(m.pkt[MinIPHeader(m.key.isV6) + TCP_FLAGS_OFFSET], m.psh))
    && buf.vhdr == Some(HdrFor(m.key, m.thLen, m.gsoSize))
  }

  /** Buffer w is ready to be written and stands for the packets g. */
  ghost predicate Written(orig: seq<Bytes>, can: bool, g: seq<nat>, buf: Buf, w: nat) {
    if |g| == 1 then g == [w] && w < |orig| && buf.pkt == orig[w] && buf.vhdr == Some(ZERO_HDR)
    else exists m :: IsSuperPacket(orig, can, g, buf, m)
  }

  ghost predicate ItemDone(orig: seq<Bytes>, can: bool, bufs: seq<Buf>, groups: map<nat, seq<nat>>, item: Item) {
    && item.bufsIndex in groups && item.bufsIndex < |bufs|
    && Written(orig, can, groups[item.bufsIndex], bufs[item.bufsIndex], item.bufsIndex)
  }

  /** The accounting is done for all flows but those in todo. */
  ghost predicate Accounted(orig: seq<Bytes>, can: bool, s: State, bufs: seq<Buf>, todo: set<FlowKey>) {
    && |bufs| == |s.bufs| && todo <= s.table.Keys
    && (forall k, a | k in s.table && k !in todo && 0 <= a < |s.table[k]| ::
          ItemDone(orig, can, bufs, s.groups, s.table[k][a]))
    && (forall k, a | k in todo && 0 <= a < |s.table[k]| ::
          var b := s.table[k][a].bufsIndex; b < |bufs| && bufs[b] == s.bufs[b])
    && (forall w | 0 <= w < |bufs| && !Tracked(s.table, w) :: bufs[w] == s.bufs[w])
  }

  lemma AccountingStarts(orig: seq<Bytes>, can: bool, s: State)
    requires Inv(orig, can, s, |orig|) && Small(s)
    ensures Accounted(orig, can, s, s.bufs, s.table.Keys)
  {
    hide Inv, Small, Written;
    forall k, a | k in s.table && 0 <= a < |s.table[k]| ensures s.table[k][a].bufsIndex < |s.bufs| {
      ItemBounds(orig, can, s, |orig|, k, a);
    }
  }

  lemma AccountingReady(orig: seq<Bytes>, can: bool, s: State, bufs: seq<Buf>, todo: set<FlowKey>, k: FlowKey)
    requires Accounted(orig, can, s, bufs, todo) && k in todo
    ensures |bufs| == |s.bufs| && k in s.table
    ensures forall a | 0 <= a < |s.table[k]| ::
      s.table[k][a].bufsIndex < |bufs| && bufs[s.table[k][a].bufsIndex] == s.bufs[s.table[k][a].bufsIndex]
  {
  }

  /** No buffer changed but those of the items. */
  ghost predicate OnlyItems(items: seq<Item>, bufs: seq<Buf>, bufs': seq<Buf>) {
    && |bufs'| == |bufs|
    && forall j | 0 <= j < |bufs| && (forall a | 0 <= a < |items| :: items[a].bufsIndex != j) :: bufs'[j] == bufs[j]
  }

  lemma AccountingStep(orig: seq<Bytes>, can: bool, s: State, bufs: seq<Buf>, bufs': seq<Buf>, todo: set<FlowKey>,
                       k: FlowKey)
    requires Inv(orig, can, s, |orig|) && Accounted(orig, can, s, bufs, todo) && k in todo && k in s.table
    requires forall a | 0 <= a < |s.table[k]| :: ItemDone(orig, can, bufs', s.groups, s.table[k][a])
    requires OnlyItems(s.table[k], bufs, bufs')
    ensures Accounted(orig, can, s, bufs', todo - {k})
  {
    hide Inv, Written;
    forall k2, a2 | k2 in s.table && k2 != k && 0 <= a2 < |s.table[k2]| && s.table[k2][a2].bufsIndex < |bufs|
      ensures bufs'[s.table[k2][a2].bufsIndex] == bufs[s.table[k2][a2].bufsIndex]
    {
      forall a | 0 <= a < |s.table[k]| ensures s.table[k][a].bufsIndex != s.table[k2][a2].bufsIndex {
        TableDistinct(orig, can, s, |orig|, k, a, k2, a2);
      }
    }
  }

  lemma AccountingEnds(orig: seq<Bytes>, can: bool, s: State, bufs: seq<Buf>)
    requires Inv(orig, can, s, |orig|) && Quiet(s) && Accounted(orig, can, s, bufs, {})
    ensures |bufs| == |s.bufs|
    ensures forall w | w in s.groups :: w < |bufs| && Written(orig, can, s.groups[w], bufs[w], w)
  {
    hide Inv, Quiet, Written;
    forall w | w in s.groups ensures w < |bufs| && Written(orig, can, s.groups[w], bufs[w], w) {
      if Tracked(s.table, w) {
        var k, a :| k in s.table && 0 <= a < |s.table[k]| && s.table[k][a].bufsIndex == w;
        assert ItemDone(orig, can, bufs, s.groups, s.table[k][a]);
      } else {
        UntrackedWritten(orig, can, s, w);
      }
    }
  }

  lemma SuperPacket(orig: seq<Bytes>, can: bool, s: State, k: FlowKey, item: Item, buf: Buf)
    requires ItemOK(orig, can, s.bufs, s.groups, k, item)
    requires IsAccounted(buf.pkt, s.bufs[item.bufsIndex].pkt, k, item.thLen)
    requires buf.vhdr == Some(HdrFor(k, item.thLen, item.gsoSize))
    ensures IsSuperPacket(orig, can, s.groups[item.bufsIndex], buf,
                          Merge(k, item.thLen, item.gsoSize, item.sentSeq,
                                item.pshSet && LastNewest(s.groups[item.bufsIndex]), s.bufs[item.bufsIndex].pkt))
  {
    hide IsRun, IsMerged, Classify, IsAccounted, HdrFor;
  }

  lemma UntrackedWritten(orig: seq<Bytes>, can: bool, s: State, w: nat)
    requires Inv(orig, can, s, |orig|) && Quiet(s) && w in s.groups && !Tracked(s.table, w)
    ensures w < |s.bufs| && Written(orig, can, s.groups[w], s.bufs[w], w)
  {
    hide FlowOK, UdpComplete;
  }

  lemma ItemBounds(orig: seq<Bytes>, can: bool, s: State, n: nat, k: FlowKey, a: nat)
    requires Inv(orig, can, s, n) && Small(s) && k in s.table && a < |s.table[k]|
    ensures var item := s.table[k][a];
      && ItemOK(orig, can, s.bufs, s.groups, k, item)
      && item.bufsIndex in s.groups && item.bufsIndex < |s.bufs| && item.key == k && item.gsoSize > 0
      && item.iphLen == MinIPHeader(k.isV6) && THLen(k, item.thLen)
      && item.iphLen + item.thLen <= |s.bufs[item.bufsIndex].pkt| <= 0xffff
      && (item.numMerged == 0 ==>
            && s.groups[item.bufsIndex] == [item.bufsIndex as nat] && item.bufsIndex < |orig|
            && s.bufs[item.bufsIndex].pkt == orig[item.bufsIndex])
      && (item.numMerged > 0 ==> |s.groups[item.bufsIndex]| > 1)
  {
    hide IsRun, Classify, FlowOK, Tracked, UdpComplete;
    InvFlow(orig, can, s, n, k);
  }

  class Pass {
    var bufs: seq<Buf>
    var table: Table
    var toWrite: seq<nat>
    ghost var groups: map<nat, seq<nat>>
    ghost var owner: seq<nat>
    const offset: nat
    const big: bool

    /** The state of the pass as a value. */
    ghost function Snap(): State
      reads this
    {
      State(bufs, table, toWrite, groups, owner)
    }

    ghost predicate Roomy()
      reads this`bufs
    {
      forall j | 0 <= j < |bufs| :: RoomyBuf(bufs[j], offset)
    }

    constructor (bufs: seq<Buf>, offset: nat, big: bool)
      ensures Snap() == State(bufs, map[], [], map[], [])
      ensures this.offset == offset && this.big == big
    {
      this.bufs, this.offset, this.big := bufs, offset, big;
      table, toWrite, groups, owner := map[], [], map[], [];
    }

    method CoalesceTCPPackets(prepend: bool, n: nat, info: Info, item: Item) returns (r: CoalesceResult, item': Item)
      requires Roomy() && Mergeable(bufs, n, item) && item.key.TcpKey?
      requires !prepend ==> info.size <= item.gsoSize
      modifies this`bufs
      ensures r == Outcome(
        |old(bufs)[item.bufsIndex].pkt| + |old(bufs)[n].pkt| - item.iphLen - item.thLen + 2 * offset
        <= old(bufs)[if prepend then n else item.bufsIndex].cap,
        prepend && info.psh,
        item.numMerged == 0 && !SumOK(old(bufs)[item.bufsIndex].pkt, item),
        !SumOK(old(bufs)[n].pkt, item))
      ensures Roomy()
      ensures !r.Success? ==> bufs == old(bufs) && item' == item
      ensures r.Success? && prepend ==> item' == PrependedItem(item, info) && bufs == PrependedBufs(old(bufs), n, item)
      ensures r.Success? && !prepend ==>
        item' == AppendedItem(item, info) && bufs == AppendedBufs(old(bufs), n, item, info.psh)
    {
      hide ChecksumValid, WithPsh;
      item' := item;
      var b: nat := item.bufsIndex;
      var pkt, target := bufs[n].pkt, bufs[b].pkt;
      var headersLen := item.iphLen + item.thLen;
      var coalescedLen := |target| + |pkt| - headersLen;
      var room: int := (if prepend then bufs[n].cap else bufs[b].cap) - offset - offset;
      if room < coalescedLen {
        return InsufficientCap, item;
      }
      if prepend && info.psh {
        return PSHEnding, item;
      }
      if item.numMerged == 0 {
        var itemValid := CheckValid(target, item.iphLen, PROTO_TCP, item.key.isV6, big);
        if !itemValid {
          return ItemInvalidCSum, item;
        }
      }
      var pktValid := CheckValid(pkt, item.iphLen, PROTO_TCP, item.key.isV6, big);
      if !pktValid {
        return PktInvalidCSum, item;
      }
      if prepend {
        item' := item'.(sentSeq := info.seqNo);
        bufs := bufs[n := bufs[n].(pkt := pkt + target[headersLen..])];
        // the item's index is the one tracked for writing
        bufs := bufs[b := bufs[n]][n := bufs[b]];
      } else {
        var pktHead := target;
        if info.psh {
          item' := item'.(pshSet := info.psh);
          pktHead := WithPsh(pktHead, item.iphLen);
        }
        bufs := bufs[b := bufs[b].(pkt := pktHead + pkt[headersLen..])];
      }
      if info.size > item'.gsoSize {
        item' := item'.(gsoSize := info.size);
      }
      item' := item'.(numMerged := item'.numMerged + 1);
      r := Success;
    }

    method CoalesceUDPPackets(n: nat, info: Info, item: Item) returns (r: CoalesceResult, item': Item)
      requires Roomy() && Mergeable(bufs, n, item) && item.key.UdpKey? && !info.psh
      modifies this`bufs
      ensures r == Outcome(
        |old(bufs)[item.bufsIndex].pkt| + |old(bufs)[n].pkt| - item.iphLen - item.thLen + 2 * offset
        <= old(bufs)[item.bufsIndex].cap,
        false,
        item.numMerged == 0 && (item.cSumKnownInvalid || !SumOK(old(bufs)[item.bufsIndex].pkt, item)),
        !SumOK(old(bufs)[n].pkt, item))
      ensures Roomy()
      ensures !r.Success? ==> bufs == old(bufs) && item' == item
      ensures r.Success? ==> item' == AppendedItem(item, info) && bufs == AppendedBufs(old(bufs), n, item, false)
    {
      hide ChecksumValid;
      item' := item;
      var b: nat := item.bufsIndex;
      var pkt, target := bufs[n].pkt, bufs[b].pkt;
      var headersLen := item.iphLen + 8;
      var coalescedLen := |target| + |pkt| - headersLen;
      if bufs[b].cap - offset - offset < coalescedLen {
        return InsufficientCap, item;
      }
      if item.numMerged == 0 {
        if item.cSumKnownInvalid {
          return ItemInvalidCSum, item;
        }
        var itemValid := CheckValid(target, item.iphLen, PROTO_UDP, item.key.isV6, big);
        if !itemValid {
          return ItemInvalidCSum, item;
        }
      }
      var pktValid := CheckValid(pkt, item.iphLen, PROTO_UDP, item.key.isV6, big);
      if !pktValid {
        return PktInvalidCSum, item;
      }
      bufs := bufs[b := bufs[b].(pkt := target + pkt[headersLen..])];
      item' := item'.(numMerged := item'.numMerged + 1);
      r := Success;
    }

    /** The item with a packet more, in place of the old one; s is the state before the merge. */
    method UpdateAt(ghost s: State, n: nat, info: Info, i: nat, item': Item, front: bool)
      requires At(s, n, info.key, i) && (info.psh ==> s.table[info.key][i].key.TcpKey?)
      requires Snap() == s.(bufs := bufs)
      requires var item := s.table[info.key][i];
        if front then item' == PrependedItem(item, info) && bufs == PrependedBufs(s.bufs, n, item)
        else item' == AppendedItem(item, info) && bufs == AppendedBufs(s.bufs, n, item, info.psh)
      modifies this`table, this`groups, this`owner
      ensures Snap() == AfterMerge(s, n, info.key, i, info, front)
    {
      hide Mergeable, AppendedItem, PrependedItem, AppendedBufs, PrependedBufs;
      ghost var w: nat := table[info.key][i].bufsIndex;
      table := table[info.key := table[info.key][i := item']];
      groups := groups[w := if front then [n] + groups[w] else groups[w] + [n]];
      owner := owner + [w];
    }

    /** The item leaves the table, and its packet is written as it is. */
    method DeleteAt(key: FlowKey, i: nat)
      requires Roomy() && key in table && i < |table[key]| && table[key][i].bufsIndex < |bufs|
      modifies this`table, this`bufs
      ensures Snap() == old(AfterDrop(Snap(), key, i)) && Roomy()
      ensures key in table && table[key] == old(table[key][..i] + table[key][i + 1..])
    {
      var w := table[key][i].bufsIndex;
      table := table[key := table[key][..i] + table[key][i + 1..]];
      bufs := bufs[w := bufs[w].(vhdr := Some(ZERO_HDR))];
    }

    /** The body of tcpGRO's loop: try to merge packet n with item i of its flow. */
    method TryTCPItem(ghost orig: seq<Bytes>, can: bool, n: nat, info: Info, i: nat, ghost b: Batch)
      returns (r: CoalesceResult)
      requires Inv(orig, can, Snap(), n) && Quiet(Snap()) && Roomy() && n < |orig|
      requires Fitting(b, orig, can, offset) && Steady(b, Snap(), n)
      requires IsCandidate(orig, can, n) && info == InfoOf(orig, can, n) && info.key.TcpKey?
      requires info.key in table && i < |table[info.key]| && NoneBefore(b, groups, n, table[info.key][i].bufsIndex)
      modifies this
      ensures Quiet(Snap()) && Roomy()
      ensures r.Success? ==> Inv(orig, can, Snap(), n + 1) && Steady(b, Snap(), n + 1)
      ensures !r.Success? ==> Inv(orig, can, Snap(), n) && Steady(b, Snap(), n) && groups == old(groups)
      ensures r.PktInvalidCSum? ==> !GoodChecksum(orig, n, info.key)
      ensures !r.Success? && !r.PktInvalidCSum? ==>
        old(table)[info.key][i].bufsIndex in groups && !CanJoin(b, groups[old(table)[info.key][i].bufsIndex], n)
      ensures !r.Success? ==>
        info.key in table && i <= |table[info.key]| && table[info.key][..i] == old(table[info.key])[..i]
    {
      hide Inv, Quiet, IsCandidate, InfoOf, SameFlow, Comparable, Checkable, SumOK, AppendedItem, PrependedItem,
           AppendedBufs, PrependedBufs, TcpPacketsCanCoalesce, Steady, CanJoin, NoneBefore, GoodChecksum, Outcome,
           At, AfterMerge, AfterDrop;
      ghost var s := Snap();
      var key := info.key;
      var item := table[key][i];
      TcpTried(b, s, n, info, i);
      var mode := TcpPacketsCanCoalesce(bufs[n].pkt, info, item, bufs[item.bufsIndex].pkt);
      if mode.CoalesceUnavailable? {
        return InsufficientCap;
      }
      var item';
      r, item' := CoalesceTCPPackets(mode.CoalescePrepend?, n, info, item);
      if r.Success? {
        UpdateAt(s, n, info, i, item', mode.CoalescePrepend?);
      } else if r.ItemInvalidCSum? {
        DeleteAt(key, i);
      }
    }

    method TcpGRO(ghost orig: seq<Bytes>, can: bool, n: U16, info: Info, ghost b: Batch)
      returns (r: GroResult, ghost mid: State)
      requires Inv(orig, can, Snap(), n) && Quiet(Snap()) && Roomy() && n < |orig|
      requires IsCandidate(orig, can, n) && info == InfoOf(orig, can, n) && info.key.TcpKey?
      requires Fitting(b, orig, can, offset) && Steady(b, Snap(), n)
      modifies this
      ensures Roomy()
      ensures r.ResultCoalesced? ==> Inv(orig, can, Snap(), n + 1) && Quiet(Snap()) && Steady(b, Snap(), n + 1)
      ensures r.ResultNoop? ==> Inv(orig, can, Snap(), n) && Quiet(Snap()) && Steady(b, Snap(), n)
      ensures r.ResultNoop? ==> !GoodChecksum(orig, n, info.key)
      ensures r.ResultTableInsert? ==> TableInserted(orig, can, mid, Snap(), n, info)
      ensures r.ResultTableInsert? ==> Steady(b, mid, n) && NoneBefore(b, mid.groups, n, n)
    {
      hide Inv, Quiet, IsCandidate, InfoOf, Steady, NoneBefore, GoodChecksum, CanJoin;
      ghost var s0 := Snap();
      InvBounded(orig, can, s0, n);
      var items := ItemsFor(table, info.key);
      if info.key in table {
        var i := |items|;
        while i > 0
          invariant 0 <= i <= |items| && info.key in table && groups == s0.groups
          invariant i <= |table[info.key]| && table[info.key][..i] == items[..i]
          invariant Inv(orig, can, Snap(), n) && Quiet(Snap()) && Roomy()
          invariant Steady(b, Snap(), n) && NoneNewer(b, s0.groups, items, n, i)
        {
          NewerCannotJoin(b, s0, n, items, i);
          i := i - 1;
          assert table[info.key][i] == table[info.key][..i + 1][i] == items[i];
          assert table[info.key][..i] == items[..i + 1][..i];
          var result := TryTCPItem(orig, can, n, info, i, b);
          if result.Success? {
            return ResultCoalesced, Snap();
          }
          if result.PktInvalidCSum? {
            return ResultNoop, Snap();
          }
        }
      }
      NewerCannotJoin(b, s0, n, items, 0);
      mid := Snap();
      table := WithItem(table, NewItem(info, n, false));
      assert Marked(orig, n, info, false);
      return ResultTableInsert, mid;
    }

    method UdpGRO(ghost orig: seq<Bytes>, can: bool, n: U16, info: Info, ghost b: Batch)
      returns (r: GroResult, ghost mid: State)
      requires Inv(orig, can, Snap(), n) && Quiet(Snap()) && Roomy() && n < |orig|
      requires IsCandidate(orig, can, n) && info == InfoOf(orig, can, n) && info.key.UdpKey?
      requires Fitting(b, orig, can, offset) && Steady(b, Snap(), n)
      modifies this
      ensures Roomy() && !r.ResultNoop?
      ensures r.ResultCoalesced? ==> Inv(orig, can, Snap(), n + 1) && Quiet(Snap()) && Steady(b, Snap(), n + 1)
      ensures r.ResultTableInsert? ==> TableInserted(orig, can, mid, Snap(), n, info)
      ensures r.ResultTableInsert? ==> Steady(b, mid, n) && NoneBefore(b, mid.groups, n, n)
    {
      hide Inv, Quiet, IsCandidate, InfoOf, SameFlow, Comparable, Checkable, SumOK, AppendedItem, AppendedBufs,
           UdpPacketsCanCoalesce, Steady, NoneBefore, Eligible, CanJoin, GoodChecksum, AfterMerge;
      mid := Snap();
      var pktCSumKnownInvalid := false;
      UdpNewest(b, mid, n, info);
      if info.key in table {
        var items := table[info.key];
        UdpItemsExist(orig, can, Snap(), n, info.key);
        var i := |items| - 1;
        var item := items[i];
        ItemReady(orig, can, mid, n, info, i);
        if CanJoin(b, groups[item.bufsIndex], n) { JoinSucceeds(b, mid, n, info, i); }
        if UdpPacketsCanCoalesce(bufs[n].pkt, info, item, bufs[item.bufsIndex].pkt).CoalesceAppend? {
          var result, item' := CoalesceUDPPackets(n, info, item);
          if result.Success? {
            UpdateAt(mid, n, info, i, item', false);
            UdpJoined(b, mid, n, info, i);
            return ResultCoalesced, mid;
          }
          pktCSumKnownInvalid := result.PktInvalidCSum?;
          if pktCSumKnownInvalid { SumIsGood(orig, bufs[n].pkt, n, item); }
        }
      }
      assert Marked(orig, n, info, pktCSumKnownInvalid);
      table := WithItem(table, NewItem(info, n, pktCSumKnownInvalid));
      return ResultTableInsert, mid;
    }

    /** The accounting for one item. */
    method AccountAt(ghost orig: seq<Bytes>, can: bool, ghost s: State, k: FlowKey, a: nat)
      requires Inv(orig, can, s, |orig|) && Small(s) && s.table == table && s.groups == groups && |s.bufs| == |bufs|
      requires k in table && a < |table[k]|
      requires table[k][a].bufsIndex < |bufs| && bufs[table[k][a].bufsIndex] == s.bufs[table[k][a].bufsIndex]
      modifies this`bufs
      ensures var b := table[k][a].bufsIndex;
        && b in groups
        && |bufs| == |old(bufs)| && bufs == old(bufs)[b := bufs[b]]
        && Written(orig, can, groups[b], bufs[b], b)
    {
      hide Inv, ItemOK, IsAccounted, HdrFor, IsSuperPacket;
      ItemBounds(orig, can, s, |orig|, k, a);
      var item := table[k][a];
      var b: nat := item.bufsIndex;
      if item.numMerged > 0 {
        var pkt, hdr := AccountItem(bufs[b].pkt, k, item.thLen, item.gsoSize, big);
        bufs := bufs[b := bufs[b].(pkt := pkt, vhdr := Some(hdr))];
        SuperPacket(orig, can, s, k, item, bufs[b]);
      } else {
        bufs := bufs[b := bufs[b].(vhdr := Some(ZERO_HDR))];
      }
    }

    method AccountFlow(ghost orig: seq<Bytes>, can: bool, ghost s: State, k: FlowKey)
      requires Inv(orig, can, s, |orig|) && Small(s) && s.table == table && s.groups == groups && |s.bufs| == |bufs|
      requires k in table
      requires forall a | 0 <= a < |table[k]| ::
        table[k][a].bufsIndex < |bufs| && bufs[table[k][a].bufsIndex] == s.bufs[table[k][a].bufsIndex]
      modifies this`bufs
      ensures forall a | 0 <= a < |table[k]| :: ItemDone(orig, can, bufs, groups, table[k][a])
      ensures OnlyItems(table[k], old(bufs), bufs)
    {
      hide Inv, Small, Written;
      for i := 0 to |table[k]|
        invariant OnlyItems(table[k], old(bufs), bufs)
        invariant forall a | 0 <= a < i :: ItemDone(orig, can, bufs, groups, table[k][a])
        invariant forall a | i <= a < |table[k]| :: bufs[table[k][a].bufsIndex] == s.bufs[table[k][a].bufsIndex]
      {
        forall a | 0 <= a < |table[k]| && a != i ensures table[k][a].bufsIndex != table[k][i].bufsIndex {
          TableDistinct(orig, can, s, |orig|, k, a, k, i);
        }
        AccountAt(orig, can, s, k, i);
      }
    }

    method ApplyCoalesceAccounting(ghost orig: seq<Bytes>, can: bool)
      requires Inv(orig, can, Snap(), |orig|) && Quiet(Snap()) && Roomy()
      modifies this`bufs
      ensures |bufs| == |old(bufs)|
      ensures forall w | w in groups :: w < |bufs| && Written(orig, can, groups[w], bufs[w], w)
    {
      hide Inv, Small, Written, Quiet, Accounted, OnlyItems;
      ghost var s := Snap();
      RoomyIsSmall();
      AccountingStarts(orig, can, s);
      var todo := table.Keys;
      while todo != {}
        invariant todo <= table.Keys && Accounted(orig, can, s, bufs, todo)
        decreases |todo|
      {
        var k :| k in todo;
        AccountingReady(orig, can, s, bufs, todo, k);
        ghost var before := bufs;
        AccountFlow(orig, can, s, k);
        AccountingStep(orig, can, s, before, bufs, todo, k);
        todo := todo - {k};
      }
      AccountingEnds(orig, can, s, bufs);
    }

    lemma RoomyIsSmall()
      requires Roomy()
      ensures Small(Snap())
    {
    }

    /** One turn of handleGRO's loop. */
    method Step(ghost orig: seq<Bytes>, can: bool, n: U16, ghost b: Batch)
      requires Inv(orig, can, Snap(), n) && Quiet(Snap()) && Roomy() && n < |orig|
      requires Fitting(b, orig, can, offset) && Steady(b, Snap(), n)
      modifies this
      ensures Inv(orig, can, Snap(), n + 1) && Quiet(Snap()) && Roomy() && Steady(b, Snap(), n + 1)
    {
      hide Inv, Quiet, Classify, TableInserted, Steady, NoneBefore, GoodChecksum;
      ghost var s := Snap();
      NextPacket(orig, can, s, n);
      var c := Classify(bufs[n].pkt, can);
      var result := ResultNoop;
      ghost var mid := s;
      if c.Some? {
        if c.value.key.TcpKey? {
          result, mid := TcpGRO(orig, can, n, c.value, b);
        } else {
          result, mid := UdpGRO(orig, can, n, c.value, b);
        }
      }
      ghost var s1 := Snap();
      if result.ResultNoop? {
        NextPacket(orig, can, s1, n);
        bufs := bufs[n := bufs[n].(vhdr := Some(ZERO_HDR))];
      }
      if !result.ResultCoalesced? {
        toWrite := toWrite + [n as nat];
        groups := groups[n as nat := [n as nat]];
        owner := owner + [n as nat];
        if result.ResultNoop? {
          WriteNoop(orig, can, s1, Snap(), n);
          NoopIsSteady(b, s1, Snap(), n);
        } else {
          InsertedOnly(orig, can, mid, s1, n, c.value);
          WriteInserted(orig, can, mid, s1, Snap(), n, c.value);
          InsertIsSteady(b, mid, s1, Snap(), n, c.value);
        }
      }
    }

    /** The whole pass.  Nothing is promised about the buffers after an error. */
    method HandleGRO(ghost orig: seq<Bytes>, can: bool) returns (err: bool)
      requires Snap() == State(bufs, map[], [], map[], []) && Roomy()
      requires |bufs| == |orig| <= 0x1_0000 && forall j | 0 <= j < |orig| :: orig[j] == bufs[j].pkt
      modifies this
      ensures err <==> |orig| > 0 && (offset < VIRTIO_NET_HDR_LEN || exists i | 0 <= i < |orig| :: orig[i] == [])
      ensures !err ==> Partition(orig, Snap(), |orig|)
      ensures !err ==> forall w | w in groups :: w < |bufs| && Written(orig, can, groups[w], bufs[w], w)
      ensures !err ==> UdpInOrder(orig, can, groups, owner)
      ensures !err ==> Chosen(Batch(orig, can, CapsOf(old(bufs)), offset), groups, owner, |orig|)
      ensures !err && CanMerge(Batch(orig, can, CapsOf(old(bufs)), offset), Upto(|orig|)) ==>
        toWrite == [0] && groups == map[0 := Upto(|orig|)]
    {
      hide Inv, Quiet, Written, Classify, Steady, Chosen, CanMerge, Upto;
      ghost var b := Batch(orig, can, CapsOf(bufs), offset);
      Start(orig, can, Snap());
      StartSteady(b, Snap());
      var i := 0;
      while i < |bufs|
        invariant 0 <= i <= |bufs| == |orig|
        invariant Inv(orig, can, Snap(), i) && Quiet(Snap()) && Roomy()
        invariant Steady(b, Snap(), i)
        invariant i > 0 ==> offset >= VIRTIO_NET_HDR_LEN
        invariant forall j | 0 <= j < i :: orig[j] != []
      {
        NextPacket(orig, can, Snap(), i);
        if offset < VIRTIO_NET_HDR_LEN || |bufs[i].pkt| == 0 {
          return true;
        }
        Step(orig, can, i, b);
        GroupsBelow(orig, can, Snap(), i + 1);
        i := i + 1;
      }
      ghost var s := Snap();
      Finish(orig, can, s);
      FinishChosen(b, s);
      ApplyCoalesceAccounting(orig, can);
      return false;
    }
  }

  ghost function CapsOf(bufs: seq<Buf>): (caps: seq<nat>)
    ensures |caps| == |bufs| && forall j | 0 <= j < |bufs| :: caps[j] == bufs[j].cap
  {
    seq(|bufs|, j requires 0 <= j < |bufs| => bufs[j].cap)
  }

  lemma StartSteady(b: Batch, s: State)
    requires s == State(s.bufs, map[], [], map[], []) && |s.bufs| == |b.orig| && b.caps == CapsOf(s.bufs)
    ensures Steady(b, s, 0)
  {
  }

  lemma FinishChosen(b: Batch, s: State)
    requires Steady(b, s, |b.orig|) && Partition(b.orig, s, |b.orig|)
    requires forall j | 0 <= j < |b.caps| :: b.caps[j] <= 0xffff
    ensures Chosen(b, s.groups, s.owner, |b.orig|)
    ensures CanMerge(b, Upto(|b.orig|)) ==> s.toWrite == [0] && s.groups == map[0 := Upto(|b.orig|)]
  {
    hide Chosen, CanMerge, Partition;
    if CanMerge(b, Upto(|b.orig|)) {
      InOrderMerges(b, s);
    }
  }

  /** A UDP packet is tried with the newest group of its flow, and with nothing else. */
  lemma UdpNewest(b: Batch, s: State, n: nat, info: Info)
    requires Arriving(b.orig, b.can, s, n, info) && Steady(b, s, n) && info.key.UdpKey?
    ensures info.key !in s.table ==> NoneBefore(b, s.groups, n, n)
    ensures info.key in s.table ==>
      var items := s.table[info.key];
      && |items| > 0
      && var w := items[|items| - 1].bufsIndex as nat;
        && w in s.groups && w < n && Eligible(b, s.groups, w, n) && NoneBefore(b, s.groups, n, w)
        && (!CanJoin(b, s.groups[w], n) ==> NoneBefore(b, s.groups, n, n))
  {
    hide Inv, Steady, Classify, CanJoin, Eligible, IsTcp, SameKey;
    InvBounded(b.orig, b.can, s, n);
    var k := info.key;
    if k in s.table { UdpItemsExist(b.orig, b.can, s, n, k); }
    forall w | w in s.groups && (k !in s.table || w != s.table[k][|s.table[k]| - 1].bufsIndex)
      ensures !(Eligible(b, s.groups, w, n) && CanJoin(b, s.groups[w], n))
    {
      if CanJoin(b, s.groups[w], n) { UdpJoiner(b, s, n, info, w); }
    }
    if k in s.table { UdpLastEligible(b, s, n, info); }
  }

  /** A group that a UDP packet can join, and that is not the newest of its flow. */
  lemma UdpJoiner(b: Batch, s: State, n: nat, info: Info, w: nat)
    requires Arriving(b.orig, b.can, s, n, info) && Steady(b, s, n) && info.key.UdpKey?
    requires w in s.groups && |s.groups[w]| > 0 && CanJoin(b, s.groups[w], n)
    ensures info.key in s.table && |s.table[info.key]| > 0
    ensures w == s.table[info.key][|s.table[info.key]| - 1].bufsIndex || !Eligible(b, s.groups, w, n)
  {
    hide Inv, Steady, CanJoin, Classify, SameKey;
    UdpMember(b, s, n, w);
    UdpLast(b, s, n, info);
    ListedInOrder(b, s, n, info.key);
    var items := s.table[info.key];
    var a :| 0 <= a < |items| && items[a].bufsIndex == w;
    assert IsTcp(b, n) ==> info.key.TcpKey?;
  }

  /** The newest item of a UDP packet's flow. */
  lemma UdpLast(b: Batch, s: State, n: nat, info: Info)
    requires Arriving(b.orig, b.can, s, n, info) && info.key.UdpKey? && info.key in s.table
    ensures |s.table[info.key]| > 0
    ensures var w := s.table[info.key][|s.table[info.key]| - 1].bufsIndex as nat;
      w in s.groups && w < n && SameKey(b, w, n)
  {
    hide Inv, Classify;
    UdpItemsExist(b.orig, b.can, s, n, info.key);
    UdpItemKey(b, s, n, info.key, |s.table[info.key]| - 1);
  }

  lemma ListedInOrder(b: Batch, s: State, n: nat, k: FlowKey)
    requires Steady(b, s, n) && k in s.table
    ensures forall a, a' | 0 <= a < a' < |s.table[k]| :: s.table[k][a].bufsIndex < s.table[k][a'].bufsIndex
  {
    hide Chosen, Known, Held, Classify;
    assert Listed(b, s, k);
  }

  lemma UdpMember(b: Batch, s: State, n: nat, w: nat)
    requires Inv(b.orig, b.can, s, n) && Steady(b, s, n) && IsCandidate(b.orig, b.can, n)
    requires InfoOf(b.orig, b.can, n).key.UdpKey? && w in s.groups && |s.groups[w]| > 0 && CanJoin(b, s.groups[w], n)
    ensures TrackedIn(s.table, InfoOf(b.orig, b.can, n).key, w)
  {
    JoinedKey(b, s.groups[w], n);
    var m := s.groups[w][0];
    assert m in s.groups[w];
    assert s.owner[m] == w;
  }

  /** The packet that started a UDP group has its flow. */
  lemma UdpItemKey(b: Batch, s: State, n: nat, k: FlowKey, a: nat)
    requires Inv(b.orig, b.can, s, n) && k in s.table && k.UdpKey? && a < |s.table[k]|
    ensures var w := s.table[k][a].bufsIndex as nat;
      && w in s.groups && w < n && IsCandidate(b.orig, b.can, w) && InfoOf(b.orig, b.can, w).key == k
  {
    var item := s.table[k][a];
    InvFlow(b.orig, b.can, s, n, k);
    GroupsBelow(b.orig, b.can, s, n);
    ItemHead(b.orig, b.can, s.bufs, s.groups, k, item);
    assert Headed(s.groups[item.bufsIndex], item.bufsIndex);
  }

  lemma UdpLastEligible(b: Batch, s: State, n: nat, info: Info)
    requires Arriving(b.orig, b.can, s, n, info) && Steady(b, s, n) && info.key.UdpKey? && info.key in s.table
    ensures |s.table[info.key]| > 0
    ensures var w := s.table[info.key][|s.table[info.key]| - 1].bufsIndex as nat;
      w in s.groups && w < n && Eligible(b, s.groups, w, n)
  {
    hide Inv, Steady, Classify, SameKey;
    UdpLast(b, s, n, info);
    var items := s.table[info.key];
    var w: nat := items[|items| - 1].bufsIndex;
    forall w' | w' in s.groups && w < w' < n ensures !SameKey(b, w', n) {
      if SameKey(b, w', n) { UdpNotNewer(b, s, n, info, w'); }
    }
  }

  lemma UdpNotNewer(b: Batch, s: State, n: nat, info: Info, w': nat)
    requires Arriving(b.orig, b.can, s, n, info) && Steady(b, s, n) && info.key.UdpKey? && info.key in s.table
    requires w' in s.groups && w' < n && SameKey(b, w', n)
    ensures |s.table[info.key]| > 0 && w' <= s.table[info.key][|s.table[info.key]| - 1].bufsIndex
  {
    hide Choice, Classify, ItemOK, Held, Known;
    assert s.owner[w'] == w';
    assert TrackedIn(s.table, info.key, w');
    var items := s.table[info.key];
    var a :| 0 <= a < |items| && items[a].bufsIndex == w';
    assert Listed(b, s, info.key);
  }

  /** What a TCP packet that passes the tests leaves behind. */
  lemma TcpJoined(b: Batch, s: State, n: nat, info: Info, i: nat)
    requires Arriving(b.orig, b.can, s, n, info) && Steady(b, s, n) && Quiet(s) && At(s, n, info.key, i)
    requires info.key.TcpKey? && Passed(b, s, n, s.table[info.key][i])
    requires var item := s.table[info.key][i];
      && Comparable(b.orig[n], info, item, s.bufs[item.bufsIndex].pkt)
      && var mode := TcpPacketsCanCoalesce(b.orig[n], info, item, s.bufs[item.bufsIndex].pkt);
        && !mode.CoalesceUnavailable?
        && CoalescedLen(s, n, item) + 2 * b.offset <= s.bufs[if mode.CoalescePrepend? then n else item.bufsIndex].cap
    ensures s.table[info.key][i].key.TcpKey?
    ensures var item := s.table[info.key][i];
      var front := TcpPacketsCanCoalesce(b.orig[n], info, item, s.bufs[item.bufsIndex].pkt).CoalescePrepend?;
      var s' := AfterMerge(s, n, info.key, i, info, front);
      Inv(b.orig, b.can, s', n + 1) && Quiet(s') && Steady(b, s', n + 1)
  {
    hide Inv, Steady, Quiet, NoneBefore, CoalescedLen, AfterMerge, Checkable, InfoOf, IsCandidate, Comparable, SumOK,
         SameFlow, Checked, TcpPacketsCanCoalesce;
    var item := s.table[info.key][i];
    var mode := TcpPacketsCanCoalesce(b.orig[n], info, item, s.bufs[item.bufsIndex].pkt);
    ItemReady(b.orig, b.can, s, n, info, i);
    ModeFacts(b.orig[n], info, item, s.bufs[item.bufsIndex].pkt);
    SumsChecked(b.orig, b.can, s, n, info.key, i);
    TcpMerged(b.orig, b.can, s, n, info, i);
    GroupsBelow(b.orig, b.can, s, n);
    MergeIsSteady(b, s, n, info, i, mode.CoalescePrepend?);
  }

  /** The checksums are good, and the packet cannot join a newer group. */
  ghost predicate Passed(b: Batch, s: State, n: nat, item: Item)
    requires Mergeable(s.bufs, n, item)
  {
    && (item.numMerged == 0 ==> SumOK(s.bufs[item.bufsIndex].pkt, item)) && SumOK(s.bufs[n].pkt, item)
    && NoneBefore(b, s.groups, n, item.bufsIndex)
  }

  lemma BadItemDropped(b: Batch, s: State, n: nat, k: FlowKey, i: nat)
    requires Inv(b.orig, b.can, s, n) && Steady(b, s, n) && Quiet(s) && k in s.table && k.TcpKey? && i < |s.table[k]|
    requires s.table[k][i].bufsIndex < |s.bufs| && s.table[k][i].numMerged == 0
    requires Checkable(s.bufs[s.table[k][i].bufsIndex].pkt, s.table[k][i])
    requires !SumOK(s.bufs[s.table[k][i].bufsIndex].pkt, s.table[k][i])
    ensures var s' := AfterDrop(s, k, i); Inv(b.orig, b.can, s', n) && Quiet(s') && Steady(b, s', n)
  {
    hide Inv, Quiet, Steady, SumOK, Checkable, AfterDrop;
    Drop(b.orig, b.can, s, n, k, i);
    DropIsSteady(b, s, n, k, i);
  }

  /** What the source finds out about a TCP packet and an item that it compares well with. */
  ghost function TcpOutcome(b: Batch, s: State, n: nat, info: Info, item: Item, front: bool): CoalesceResult
    requires Mergeable(s.bufs, n, item)
  {
    Outcome(
      |s.bufs[item.bufsIndex].pkt| + |s.bufs[n].pkt| - item.iphLen - item.thLen + 2 * b.offset
      <= s.bufs[if front then n else item.bufsIndex].cap,
      front && info.psh,
      item.numMerged == 0 && !SumOK(s.bufs[item.bufsIndex].pkt, item),
      !SumOK(s.bufs[n].pkt, item))
  }

  /** What each outcome means for the packet, and for the state that is left behind. */
  lemma TcpTried(b: Batch, s: State, n: nat, info: Info, i: nat)
    requires Arriving(b.orig, b.can, s, n, info) && Steady(b, s, n) && Quiet(s) && info.key.TcpKey?
    requires info.key in s.table && i < |s.table[info.key]|
    requires NoneBefore(b, s.groups, n, s.table[info.key][i].bufsIndex)
    ensures var item := s.table[info.key][i];
      && n < |s.bufs| && s.bufs[n].pkt == b.orig[n] && item.key == info.key
      && item.bufsIndex in s.groups && item.bufsIndex < |s.bufs|
      && Comparable(b.orig[n], info, item, s.bufs[item.bufsIndex].pkt)
    ensures var k, item := info.key, s.table[info.key][i];
      var mode := TcpPacketsCanCoalesce(b.orig[n], info, item, s.bufs[item.bufsIndex].pkt);
      && (mode.CoalesceUnavailable? ==> !CanJoin(b, s.groups[item.bufsIndex], n))
      && (!mode.CoalesceUnavailable? ==>
        && At(s, n, k, i) && Mergeable(s.bufs, n, item) && (mode.CoalesceAppend? ==> info.size <= item.gsoSize)
        && var r := TcpOutcome(b, s, n, info, item, mode.CoalescePrepend?);
          && (r.Success? ==>
            var s' := AfterMerge(s, n, k, i, info, mode.CoalescePrepend?);
            Inv(b.orig, b.can, s', n + 1) && Quiet(s') && Steady(b, s', n + 1))
          && (r.ItemInvalidCSum? ==>
            var s' := AfterDrop(s, k, i);
            Inv(b.orig, b.can, s', n) && Quiet(s') && Steady(b, s', n))
          && (r.PktInvalidCSum? ==> !GoodChecksum(b.orig, n, k))
          && (!r.Success? && !r.PktInvalidCSum? ==> !CanJoin(b, s.groups[item.bufsIndex], n)))
  {
    hide Inv, Quiet, IsCandidate, InfoOf, SameFlow, Comparable, Checkable, SumOK, TcpPacketsCanCoalesce, Steady,
         CanJoin, NoneBefore, GoodChecksum, AfterMerge, AfterDrop;
    var item := s.table[info.key][i];
    ItemReady(b.orig, b.can, s, n, info, i);
    if CanJoin(b, s.groups[item.bufsIndex], n) { JoinSucceeds(b, s, n, info, i); }
    var mode := TcpPacketsCanCoalesce(b.orig[n], info, item, s.bufs[item.bufsIndex].pkt);
    if !mode.CoalesceUnavailable? {
      ModeFacts(b.orig[n], info, item, s.bufs[item.bufsIndex].pkt);
      var r := TcpOutcome(b, s, n, info, item, mode.CoalescePrepend?);
      if r.Success? {
        TcpJoined(b, s, n, info, i);
      } else if r.ItemInvalidCSum? {
        BadItemDropped(b, s, n, info.key, i);
      } else if r.PktInvalidCSum? {
        SumIsGood(b.orig, s.bufs[n].pkt, n, item);
      }
    }
  }

  lemma UdpJoined(b: Batch, s: State, n: nat, info: Info, i: nat)
    requires Arriving(b.orig, b.can, s, n, info) && Steady(b, s, n) && Quiet(s) && At(s, n, info.key, i)
    requires info.key.UdpKey? && i == |s.table[info.key]| - 1 && !info.psh && Passed(b, s, n, s.table[info.key][i])
    requires var item := s.table[info.key][i];
      && Comparable(b.orig[n], info, item, s.bufs[item.bufsIndex].pkt)
      && UdpPacketsCanCoalesce(b.orig[n], info, item, s.bufs[item.bufsIndex].pkt).CoalesceAppend?
      && CoalescedLen(s, n, item) + 2 * b.offset <= s.bufs[item.bufsIndex].cap
      && Eligible(b, s.groups, item.bufsIndex, n)
    ensures var s' := AfterMerge(s, n, info.key, i, info, false);
      Inv(b.orig, b.can, s', n + 1) && Quiet(s') && Steady(b, s', n + 1)
  {
    hide Inv, Steady, Quiet, NoneBefore, CoalescedLen, AfterMerge, Checkable, InfoOf, IsCandidate, Comparable, SumOK,
         SameFlow, Checked, UdpPacketsCanCoalesce, Eligible;
    ItemReady(b.orig, b.can, s, n, info, i);
    SumsChecked(b.orig, b.can, s, n, info.key, i);
    UdpMerged(b.orig, b.can, s, n, info, i);
    GroupsBelow(b.orig, b.can, s, n);
    MergeIsSteady(b, s, n, info, i, false);
  }

  // ---- Accounting and the whole pass ----------------------------------------------------------

  lemma UdpItemsExist(orig: seq<Bytes>, can: bool, s: State, n: nat, k: FlowKey)
    requires Inv(orig, can, s, n) && k in s.table && k.UdpKey?
    ensures |s.table[k]| > 0
  {
    InvFlow(orig, can, s, n, k);
  }

  lemma UdpMerged(orig: seq<Bytes>, can: bool, s: State, n: nat, info: Info, i: nat)
    requires Arriving(orig, can, s, n, info) && At(s, n, info.key, i) && Quiet(s) && info.key.UdpKey? && !info.psh
    requires i == |s.table[info.key]| - 1
    requires SameFlow(orig, can, s.bufs, s.groups, info.key, s.table[info.key][i], n)
    requires Comparable(orig[n], info, s.table[info.key][i], s.bufs[s.table[info.key][i].bufsIndex].pkt)
    requires Checked(orig, s.groups, info.key, s.table[info.key][i], n)
    requires var item := s.table[info.key][i];
      UdpPacketsCanCoalesce(orig[n], info, item, s.bufs[item.bufsIndex].pkt).CoalesceAppend?
    ensures var s' := AfterMerge(s, n, info.key, i, info, false);
      Inv(orig, can, s', n + 1) && Quiet(s')
  {
    hide Inv, Quiet, IsCandidate, InfoOf, Comparable, Checkable, UdpPacketsCanCoalesce, AppendedBufs, PrependedBufs,
         Partition, IsRun, IsMerged, Checked, AfterMerge;
    GroupsBelow(orig, can, s, n);
    AppendIsMerge(orig, can, s, n, info, i);
    MergeIsQuiet(s, n, info.key, i, info, false);
  }

  lemma NextPacket(orig: seq<Bytes>, can: bool, s: State, n: nat)
    requires Inv(orig, can, s, n) && n < |orig|
    ensures |s.bufs| == |orig| && s.bufs[n].pkt == orig[n]
  {
  }

  lemma InsertedOnly(orig: seq<Bytes>, can: bool, s: State, s': State, n: U16, info: Info)
    requires TableInserted(orig, can, s, s', n, info)
    ensures s'.toWrite == s.toWrite && s'.groups == s.groups && s'.owner == s.owner
  {
  }

  lemma Start(orig: seq<Bytes>, can: bool, s: State)
    requires s == State(s.bufs, map[], [], map[], []) && |s.bufs| == |orig| && forall j | 0 <= j < |orig| ::
      orig[j] == s.bufs[j].pkt
    ensures Inv(orig, can, s, 0) && Quiet(s)
  {
  }

  /** Two UDP packets of one flow leave in the order in which they came: from one buffer in
      that order, or from buffers written in that order. */
  ghost predicate UdpInOrder(orig: seq<Bytes>, can: bool, groups: map<nat, seq<nat>>, owner: seq<nat>)
    requires |owner| == |orig|
  {
    forall m, m' | 0 <= m < m' < |orig| && SameUdpFlow(orig, can, m, m') ::
      owner[m] < owner[m'] || (owner[m] == owner[m'] && owner[m] in groups && Increasing(groups[owner[m]]))
  }

  ghost predicate SameUdpFlow(orig: seq<Bytes>, can: bool, m: nat, m': nat) {
    && IsCandidate(orig, can, m) && IsCandidate(orig, can, m')
    && InfoOf(orig, can, m).key == InfoOf(orig, can, m').key && InfoOf(orig, can, m).key.UdpKey?
  }

  lemma UdpPair(orig: seq<Bytes>, can: bool, s: State, m: nat, m': nat)
    requires Inv(orig, can, s, |orig|) && m < m' < |orig| && SameUdpFlow(orig, can, m, m')
    ensures |s.owner| == |orig|
    ensures
      || s.owner[m] < s.owner[m']
      || (s.owner[m] == s.owner[m'] && s.owner[m] in s.groups && Increasing(s.groups[s.owner[m]]))
  {
    hide ItemOK, Tracked, InfoOf, IsCandidate;
    var k, w, w' := InfoOf(orig, can, m).key, s.owner[m], s.owner[m'];
    InvFlow(orig, can, s, |orig|, k);
    var its := s.table[k];
    assert TrackedIn(s.table, k, w) && TrackedIn(s.table, k, w');
    var a :| 0 <= a < |its| && its[a].bufsIndex == w;
    var a' :| 0 <= a' < |its| && its[a'].bufsIndex == w';
    var g, g' := s.groups[w], s.groups[w'];
    assert m in g && m' in g';
    assert Headed(g, w) && Headed(g', w');
    assert a' < a ==> Before(g', g);
    assert a < a' ==> Before(g, g');
  }

  lemma Finish(orig: seq<Bytes>, can: bool, s: State)
    requires Inv(orig, can, s, |orig|)
    ensures Partition(orig, s, |orig|) && UdpInOrder(orig, can, s.groups, s.owner)
  {
    hide FlowOK, Alone, Tracked, UdpComplete;
    forall m, m' | 0 <= m < m' < |orig| && SameUdpFlow(orig, can, m, m')
      ensures
        || s.owner[m] < s.owner[m']
        || (s.owner[m] == s.owner[m'] && s.owner[m] in s.groups && Increasing(s.groups[s.owner[m]]))
    {
      UdpPair(orig, can, s, m, m');
    }
  }
}
