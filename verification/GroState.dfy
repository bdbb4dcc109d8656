/** The state of a GRO pass: what every buffer and table item stands for, and why each
    step of the pass keeps that. */
module GroState {
  import opened Basics
  import opened Packet
  import opened GroPackets
  import Gso

  /** A packet buffer: the packet that starts at the offset, the capacity of the whole
      buffer, and the virtio header stored just before the packet. */
  datatype Buf = Buf(pkt: Bytes, cap: nat, vhdr: Option<Gso.VirtioHdr>)

  /** tcpGROItem and udpGROItem. */
  datatype Item = Item(key: FlowKey, sentSeq: U32, bufsIndex: U16, numMerged: U16, gsoSize: U16,
                       iphLen: nat, thLen: nat, pshSet: bool, cSumKnownInvalid: bool)

  type Table = map<FlowKey, seq<Item>>

  /** A snapshot of the pass.  `groups` says which input packets, in order, each written
      buffer stands for, and `owner` in which written buffer each input packet ended up. */
  datatype State = State(bufs: seq<Buf>, table: Table, toWrite: seq<nat>, groups: map<nat, seq<nat>>, owner: seq<nat>)

  // ---- Runs of packets -------------------------------------------------------------------

  /** The payloads of the packets g, one after the other. */
  ghost function Payloads(orig: seq<Bytes>, g: seq<nat>, h: nat): Bytes
    requires forall t | 0 <= t < |g| :: g[t] < |orig| && h <= |orig[g[t]]|
  {
    if g == [] then [] else Payloads(orig, g[..|g| - 1], h) + orig[g[|g| - 1]][h..]
  }

  ghost predicate IsCandidate(orig: seq<Bytes>, can: bool, m: nat) {
    m < |orig| && Classify(orig[m], can).Some?
  }

  ghost function InfoOf(orig: seq<Bytes>, can: bool, m: nat): Info
    requires IsCandidate(orig, can, m)
  {
    Classify(orig[m], can).value
  }

  /** The sequence number of segment t. */
  function SeqAt(sentSeq: U32, t: nat, gsoSize: nat): U32 { Gso.SeqPlus(sentSeq, Gso.SegmentAt(t, gsoSize)) }

  /** Packet m fits at position t of a run. */
  ghost predicate Fits(orig: seq<Bytes>, can: bool, m: nat, t: nat, last: bool, key: FlowKey, thLen: nat,
                       gsoSize: nat, sentSeq: U32) {
    && IsCandidate(orig, can, m)
    && var info := InfoOf(orig, can, m);
      && info.key == key && info.thLen == thLen
      && info.iphLen == MinIPHeader(key.isV6)
      && |orig[m]| == info.iphLen + thLen + info.size
      && (if last then 1 <= info.size <= gsoSize else info.size == gsoSize && !info.psh)
      && (key.TcpKey? ==> info.seqNo == SeqAt(sentSeq, t, gsoSize))
  }

  /** Packets m and m' agree on the fields GRO compares. */
  ghost predicate Alike(orig: seq<Bytes>, m: nat, m': nat, iphLen: nat, thLen: nat) {
    && m < |orig| && m' < |orig|
    && iphLen + thLen <= |orig[m]| && iphLen + thLen <= |orig[m']| && |orig[m]| >= 9 && |orig[m']| >= 9
    && HeaderClass(orig[m]) == HeaderClass(orig[m'])
    && Options(orig[m], iphLen, thLen) == Options(orig[m'], iphLen, thLen)
  }

  /** g is a run of one flow: full segments followed by one of at most the same size, in
      sequence, alike in their headers, and with valid checksums if there are several. */
  ghost predicate IsRun(orig: seq<Bytes>, can: bool, g: seq<nat>, key: FlowKey, thLen: nat, gsoSize: nat,
                        sentSeq: U32) {
    && |g| > 0
    && (forall t | 0 <= t < |g| :: Fits(orig, can, g[t], t, t == |g| - 1, key, thLen, gsoSize, sentSeq))
    && (forall t | 0 <= t < |g| :: Alike(orig, g[t], g[0], MinIPHeader(key.isV6), thLen))
    && (|g| > 1 ==> forall t | 0 <= t < |g| :: GoodChecksum(orig, g[t], key))
  }

  ghost predicate GoodChecksum(orig: seq<Bytes>, m: nat, key: FlowKey) {
    && m < |orig|
    && MinIPHeader(key.isV6) <= |orig[m]| && |orig[m]| - MinIPHeader(key.isV6) < 0x1_0000
    && ChecksumValid(orig[m], MinIPHeader(key.isV6), ProtoOf(key), key.isV6)
  }

  /** pkt is the merged packet of the run g: the first packet's headers (except for the
      flags byte) and all the payloads. */
  ghost predicate IsMerged(orig: seq<Bytes>, g: seq<nat>, pkt: Bytes, iphLen: nat, thLen: nat) {
    && |g| > 0
    && (forall t | 0 <= t < |g| :: g[t] < |orig| && iphLen + thLen <= |orig[g[t]]|)
    && iphLen + thLen <= |pkt|
    && (forall j | 0 <= j < iphLen + thLen && j != iphLen + TCP_FLAGS_OFFSET :: pkt[j] == orig[g[0]][j])
    && pkt[iphLen + thLen..] == Payloads(orig, g, iphLen + thLen)
    && (|g| == 1 ==> pkt == orig[g[0]])
  }

  /** The last packet of the group came after all the others. */
  ghost predicate LastNewest(g: seq<nat>) {
    |g| > 0 && forall t | 0 <= t < |g| :: g[t] <= g[|g| - 1]
  }

  lemma NewestAtEnds(g: seq<nat>, n: nat)
    requires |g| > 0 && forall x | x in g :: x < n
    ensures LastNewest(g + [n]) && !LastNewest([n] + g)
  {
    var back, front := g + [n], [n] + g;
    assert forall t | 0 <= t < |g| :: back[t] == g[t] && g[t] in g;
    assert front[0] == n && front[|g|] == g[|g| - 1] && g[|g| - 1] in g;
  }

  /** Everything an item of the table stands for. */
  ghost predicate ItemOK(orig: seq<Bytes>, can: bool, bufs: seq<Buf>, groups: map<nat, seq<nat>>, key: FlowKey,
                         item: Item) {
    && item.bufsIndex in groups && item.bufsIndex < |bufs|
    && var g := groups[item.bufsIndex];
      && item.key == key
      && |g| == item.numMerged + 1
      && item.iphLen == MinIPHeader(key.isV6)
      && item.gsoSize > 0
      && (if key.TcpKey? then 20 <= item.thLen <= 60 else item.thLen == 8)
      && IsRun(orig, can, g, key, item.thLen, item.gsoSize, item.sentSeq)
      && IsMerged(orig, g, bufs[item.bufsIndex].pkt, item.iphLen, item.thLen)
      && (item.numMerged == 0 ==> InfoOf(orig, can, g[0]).size == item.gsoSize)
      && item.pshSet == InfoOf(orig, can, g[item.numMerged]).psh
      && (key.TcpKey? ==>
        FlagsOK(bufs[item.bufsIndex].pkt[item.iphLen + TCP_FLAGS_OFFSET], item.pshSet && LastNewest(g)))
  }

  ghost predicate Distinct(its: seq<Item>) {
    forall a, a' | 0 <= a < a' < |its| :: its[a].bufsIndex != its[a'].bufsIndex
  }

  /** UDP items keep the order in which the packets arrived. */
  ghost predicate Before(g: seq<nat>, g': seq<nat>) {
    forall t, t' | 0 <= t < |g| && 0 <= t' < |g'| :: g[t] < g'[t']
  }

  ghost predicate Increasing(g: seq<nat>) {
    forall t, t' | 0 <= t < t' < |g| :: g[t] < g[t']
  }

  ghost predicate Headed(g: seq<nat>, w: nat) {
    |g| > 0 && g[0] == w && Increasing(g)
  }

  ghost predicate InOrder(groups: map<nat, seq<nat>>, its: seq<Item>)
    requires forall a | 0 <= a < |its| :: its[a].bufsIndex in groups
  {
    && (forall a | 0 <= a < |its| :: Headed(groups[its[a].bufsIndex], its[a].bufsIndex))
    && (forall a, a' | 0 <= a < a' < |its| :: Before(groups[its[a].bufsIndex], groups[its[a'].bufsIndex]))
  }

  ghost predicate FlowOK(orig: seq<Bytes>, can: bool, s: State, key: FlowKey)
    requires key in s.table
  {
    var its := s.table[key];
    && (forall a {:trigger its[a]} | 0 <= a < |its| :: ItemOK(orig, can, s.bufs, s.groups, key, its[a]))
    && Distinct(its)
    && (key.UdpKey? ==> |its| > 0 && InOrder(s.groups, its))
  }

  ghost predicate Tracked(table: Table, w: nat) {
    exists k, a | k in table && 0 <= a < |table[k]| :: table[k][a].bufsIndex == w
  }

  /** The first n packets are accounted for: each is in exactly one written buffer. */
  ghost predicate Partition(orig: seq<Bytes>, s: State, n: nat) {
    && |s.bufs| == |orig| && |s.owner| == n <= |orig|
    && (forall j | n <= j < |orig| :: s.bufs[j].pkt == orig[j])
    && Increasing(s.toWrite)
    && (forall w :: w in s.groups <==> w in s.toWrite)
    && (forall w | w in s.groups :: w < n && |s.groups[w]| > 0 && NoDuplicates(s.groups[w]))
    && (forall m | 0 <= m < n :: s.owner[m] in s.groups && m in s.groups[s.owner[m]])
    && (forall w, m {:trigger m in s.groups[w]} | w in s.groups && m in s.groups[w] :: m < n && s.owner[m] == w)
  }

  ghost predicate Alone(orig: seq<Bytes>, s: State)
    requires |s.bufs| == |orig| && forall w | w in s.groups :: w < |orig|
  {
    forall w | w in s.groups && |s.groups[w]| == 1 :: s.groups[w] == [w] && s.bufs[w].pkt == orig[w]
  }

  ghost predicate Inv(orig: seq<Bytes>, can: bool, s: State, n: nat) {
    && Partition(orig, s, n)
    && Alone(orig, s)
    && (forall k {:trigger FlowOK(orig, can, s, k)} | k in s.table :: FlowOK(orig, can, s, k))
    && (forall w {:trigger Tracked(s.table, w)} | w in s.groups && |s.groups[w]| > 1 :: Tracked(s.table, w))
    && UdpComplete(orig, can, s, n)
  }

  /** Every UDP candidate so far is in a buffer that the table knows. */
  ghost predicate UdpComplete(orig: seq<Bytes>, can: bool, s: State, n: nat)
    requires |s.owner| == n
  {
    forall m | 0 <= m < n && IsCandidate(orig, can, m) && InfoOf(orig, can, m).key.UdpKey? ::
      TrackedIn(s.table, InfoOf(orig, can, m).key, s.owner[m])
  }

  ghost predicate TrackedIn(table: Table, k: FlowKey, w: nat) {
    k in table && exists a | 0 <= a < |table[k]| :: table[k][a].bufsIndex == w
  }

  lemma InvFlow(orig: seq<Bytes>, can: bool, s: State, n: nat, k: FlowKey)
    requires Inv(orig, can, s, n) && k in s.table
    ensures FlowOK(orig, can, s, k)
    ensures forall a {:trigger s.table[k][a]} | 0 <= a < |s.table[k]| ::
      ItemOK(orig, can, s.bufs, s.groups, k, s.table[k][a]) && s.table[k][a].bufsIndex in s.groups
  {
    hide IsRun, IsMerged, InfoOf, Partition, Tracked, UdpComplete;
  }

  // ---- Steps -------------------------------------------------------------------------------

  /** An item depends on its own buffer and group only. */
  lemma ItemKeeps(orig: seq<Bytes>, can: bool, bufs: seq<Buf>, groups: map<nat, seq<nat>>,
                  bufs': seq<Buf>, groups': map<nat, seq<nat>>, key: FlowKey, item: Item)
    requires ItemOK(orig, can, bufs, groups, key, item)
    requires item.bufsIndex in groups' && groups'[item.bufsIndex] == groups[item.bufsIndex]
    requires item.bufsIndex < |bufs'| && bufs'[item.bufsIndex].pkt == bufs[item.bufsIndex].pkt
    ensures ItemOK(orig, can, bufs', groups', key, item)
  {
  }

  /** The buffer n goes to the write list on its own. */
  ghost predicate WroteAlone(s: State, s': State, n: nat) {
    && n < |s.bufs| == |s'.bufs|
    && (forall j | 0 <= j < |s.bufs| :: s'.bufs[j].pkt == s.bufs[j].pkt)
    && s'.toWrite == s.toWrite + [n]
    && s'.groups == s.groups[n := [n]]
    && s'.owner == s.owner + [n]
  }

  lemma AlonePartition(orig: seq<Bytes>, s: State, s': State, n: nat)
    requires Partition(orig, s, n) && Alone(orig, s) && WroteAlone(s, s', n) && n < |orig|
    ensures Partition(orig, s', n + 1) && Alone(orig, s')
  {
    AloneWrites(orig, s, s', n);
    AloneOwners(orig, s, s', n);
    hide Increasing, NoDuplicates;
    assert NoDuplicates([n]) by { SingleDistinct(n); }
  }

  lemma SingleDistinct(n: nat)
    ensures NoDuplicates([n])
  {
  }

  lemma AloneWrites(orig: seq<Bytes>, s: State, s': State, n: nat)
    requires Partition(orig, s, n) && WroteAlone(s, s', n) && n < |orig|
    ensures Increasing(s'.toWrite) && (forall w :: w in s'.groups <==> w in s'.toWrite)
  {
    hide NoDuplicates;
    forall t | 0 <= t < |s.toWrite| ensures s.toWrite[t] < n {
      assert s.toWrite[t] in s.toWrite;
    }
  }

  lemma AloneOwners(orig: seq<Bytes>, s: State, s': State, n: nat)
    requires Partition(orig, s, n) && WroteAlone(s, s', n) && n < |orig|
    ensures |s'.owner| == n + 1
    ensures forall m | 0 <= m < n + 1 :: s'.owner[m] in s'.groups && m in s'.groups[s'.owner[m]]
    ensures forall w, m {:trigger m in s'.groups[w]} | w in s'.groups && m in s'.groups[w] ::
      m < n + 1 && s'.owner[m] == w
  {
    hide Increasing, NoDuplicates;
    forall m | 0 <= m < n + 1 ensures s'.owner[m] in s'.groups && m in s'.groups[s'.owner[m]] {
      if m < n { assert m in s.groups[s.owner[m]]; }
    }
    forall w, m | w in s'.groups && m in s'.groups[w] ensures m < n + 1 && s'.owner[m] == w {
      if w != n { assert m in s.groups[w]; }
    }
  }

  lemma AloneFlow(orig: seq<Bytes>, can: bool, s: State, s': State, n: nat, k: FlowKey)
    requires Inv(orig, can, s, n) && WroteAlone(s, s', n) && k in s.table && k in s'.table && s'.table[k] == s.table[k]
    ensures FlowOK(orig, can, s', k)
  {
    assert FlowOK(orig, can, s, k);
    var its := s.table[k];
    forall a | 0 <= a < |its| ensures ItemOK(orig, can, s'.bufs, s'.groups, k, its[a]) {
      assert its[a].bufsIndex < n;
      ItemKeeps(orig, can, s.bufs, s.groups, s'.bufs, s'.groups, k, its[a]);
    }
  }

  /** A packet that is not merged and not put into the table. */
  lemma NoopKeeps(orig: seq<Bytes>, can: bool, s: State, s': State, n: nat)
    requires Inv(orig, can, s, n) && n < |orig| && WroteAlone(s, s', n) && s'.table == s.table
    requires !(IsCandidate(orig, can, n) && InfoOf(orig, can, n).key.UdpKey?)
    ensures Inv(orig, can, s', n + 1)
  {
    AlonePartition(orig, s, s', n);
    forall k | k in s'.table ensures FlowOK(orig, can, s', k) {
      AloneFlow(orig, can, s, s', n, k);
    }
    forall w | w in s'.groups && |s'.groups[w]| > 1 ensures Tracked(s'.table, w) {
      assert Tracked(s.table, w);
    }
  }

  function ItemsFor(table: Table, k: FlowKey): seq<Item> {
    if k in table then table[k] else []
  }

  /** A packet that gets a table item of its own, at the end of its flow. */
  ghost predicate Inserted(orig: seq<Bytes>, can: bool, s: State, s': State, n: nat, item: Item) {
    && WroteAlone(s, s', n)
    && s'.table == s.table[item.key := ItemsFor(s.table, item.key) + [item]]
    && item.bufsIndex == n && item.numMerged == 0
    && IsCandidate(orig, can, n)
    && var info := InfoOf(orig, can, n);
      && item.key == info.key && item.iphLen == info.iphLen && item.thLen == info.thLen
      && item.gsoSize == info.size && item.pshSet == info.psh
      && (item.key.TcpKey? ==> item.sentSeq == info.seqNo)
  }

  lemma SingleRun(orig: seq<Bytes>, can: bool, n: nat)
    requires IsCandidate(orig, can, n)
    ensures var info := InfoOf(orig, can, n);
      && info.iphLen == MinIPHeader(info.key.isV6) && info.size > 0
      && (if info.key.TcpKey? then 20 <= info.thLen <= 60 else info.thLen == 8)
      && info.iphLen + info.thLen <= |orig[n]|
      && IsRun(orig, can, [n], info.key, info.thLen, info.size, info.seqNo)
  {
    hide Classify, HeaderClass, Options, MinIPHeader;
    ClassifyFacts(orig[n], can);
    var info := InfoOf(orig, can, n);
    assert MinIPHeader(info.key.isV6) >= 20 by { MinHeaderBound(info.key.isV6); }
    assert Fits(orig, can, n, 0, true, info.key, info.thLen, info.size, info.seqNo);
    assert Alike(orig, n, n, MinIPHeader(info.key.isV6), info.thLen);
  }

  lemma MinHeaderBound(isV6: bool)
    ensures MinIPHeader(isV6) >= 20
  {
  }

  lemma SingleMerged(orig: seq<Bytes>, n: nat, iphLen: nat, thLen: nat)
    requires n < |orig| && iphLen + thLen <= |orig[n]|
    ensures IsMerged(orig, [n], orig[n], iphLen, thLen)
  {
    var g, h := [n], iphLen + thLen;
    assert g[..0] == [];
    assert Payloads(orig, g, h) == [] + orig[n][h..];
  }

  lemma RunIgnoresSeq(orig: seq<Bytes>, can: bool, g: seq<nat>, key: FlowKey, thLen: nat, gsoSize: nat, q: U32, q': U32)
    requires IsRun(orig, can, g, key, thLen, gsoSize, q) && key.UdpKey?
    ensures IsRun(orig, can, g, key, thLen, gsoSize, q')
  {
    forall t | 0 <= t < |g| ensures Fits(orig, can, g[t], t, t == |g| - 1, key, thLen, gsoSize, q') {
      assert Fits(orig, can, g[t], t, t == |g| - 1, key, thLen, gsoSize, q);
    }
  }

  lemma NewItemOK(orig: seq<Bytes>, can: bool, s: State, s': State, n: nat, item: Item)
    requires Partition(orig, s, n) && n < |orig| && Inserted(orig, can, s, s', n, item)
    ensures ItemOK(orig, can, s'.bufs, s'.groups, item.key, item)
  {
    PartitionRest(orig, s, n);
    ClassifyFacts(orig[n], can);
    hide Partition, IsRun, IsMerged;
    SingleRun(orig, can, n);
    SingleMerged(orig, n, item.iphLen, item.thLen);
    var info := InfoOf(orig, can, n);
    if item.key.UdpKey? { RunIgnoresSeq(orig, can, [n], item.key, item.thLen, item.gsoSize, info.seqNo, item.sentSeq); }
    assert s'.groups[n] == [n] && s'.bufs[n].pkt == orig[n];
  }

  lemma PartitionRest(orig: seq<Bytes>, s: State, n: nat)
    requires Partition(orig, s, n) && n < |orig|
    ensures |s.bufs| == |orig| && s.bufs[n].pkt == orig[n]
  {
  }

  lemma GroupBound(orig: seq<Bytes>, s: State, n: nat)
    requires Partition(orig, s, n)
    ensures forall w, m | w in s.groups && m in s.groups[w] :: m < n
  {
  }

  lemma OldItemsOK(orig: seq<Bytes>, can: bool, s: State, s': State, n: nat, k: FlowKey)
    requires Inv(orig, can, s, n) && WroteAlone(s, s', n)
    ensures forall a {:trigger ItemsFor(s.table, k)[a]} | 0 <= a < |ItemsFor(s.table, k)| ::
      var item := ItemsFor(s.table, k)[a];
      ItemOK(orig, can, s'.bufs, s'.groups, k, item) && item.bufsIndex < n && item.bufsIndex in s.groups
  {
    if k in s.table {
      assert FlowOK(orig, can, s, k);
      hide IsRun, IsMerged, InfoOf;
      forall a | 0 <= a < |s.table[k]|
        ensures ItemOK(orig, can, s'.bufs, s'.groups, k, s.table[k][a]) && s.table[k][a].bufsIndex < n
      {
        ItemKeeps(orig, can, s.bufs, s.groups, s'.bufs, s'.groups, k, s.table[k][a]);
      }
    }
  }

  lemma NewInOrder(groups: map<nat, seq<nat>>, its: seq<Item>, item: Item, n: nat)
    requires forall a | 0 <= a < |its| :: its[a].bufsIndex in groups && its[a].bufsIndex != n
    requires forall w, m | w in groups && m in groups[w] :: m < n
    requires InOrder(groups, its) && item.bufsIndex == n
    ensures InOrder(groups[n := [n]], its + [item])
  {
    var groups', its' := groups[n := [n]], its + [item];
    forall a, a' | 0 <= a < a' < |its'| ensures Before(groups'[its'[a].bufsIndex], groups'[its'[a'].bufsIndex]) {
      if a' == |its| {
        var g := groups[its[a].bufsIndex];
        assert forall t | 0 <= t < |g| :: g[t] in g;
      } else {
        assert Before(groups[its[a].bufsIndex], groups[its[a'].bufsIndex]);
      }
    }
    forall a | 0 <= a < |its'| ensures Headed(groups'[its'[a].bufsIndex], its'[a].bufsIndex) {
      if a < |its| { assert Headed(groups[its[a].bufsIndex], its[a].bufsIndex); }
    }
  }

  lemma NewFlowOK(orig: seq<Bytes>, can: bool, s: State, s': State, n: nat, item: Item)
    requires Inv(orig, can, s, n) && n < |orig| && Inserted(orig, can, s, s', n, item)
    ensures FlowOK(orig, can, s', item.key)
  {
    hide IsRun, IsMerged, InfoOf, IsCandidate, ItemOK, UdpComplete, Tracked, Alone, Partition;
    var k := item.key;
    NewItemOK(orig, can, s, s', n, item);
    OldItemsOK(orig, can, s, s', n, k);
    if k in s.table { assert FlowOK(orig, can, s, k); }
    var its, before := s'.table[k], ItemsFor(s.table, k);
    forall a | 0 <= a < |its| ensures ItemOK(orig, can, s'.bufs, s'.groups, k, its[a]) {
      if a < |its| - 1 { assert its[a] == before[a]; }
    }
    if k.UdpKey? {
      assert InOrder(s.groups, before);
      GroupBound(orig, s, n);
      NewInOrder(s.groups, before, item, n);
    }
  }

  lemma InsertKeeps(orig: seq<Bytes>, can: bool, s: State, s': State, n: nat, item: Item)
    requires Inv(orig, can, s, n) && n < |orig| && Inserted(orig, can, s, s', n, item)
    ensures Inv(orig, can, s', n + 1)
  {
    hide Classify, ItemOK, IsCandidate, InfoOf;
    AlonePartition(orig, s, s', n);
    NewFlowOK(orig, can, s, s', n, item);
    forall k | k in s'.table ensures FlowOK(orig, can, s', k) {
      if k != item.key { AloneFlow(orig, can, s, s', n, k); }
    }
    forall w | w in s'.groups && |s'.groups[w]| > 1 ensures Tracked(s'.table, w) {
      assert Tracked(s.table, w);
      var k, a :| k in s.table && 0 <= a < |s.table[k]| && s.table[k][a].bufsIndex == w;
      assert s'.table[k][a].bufsIndex == w;
    }
    forall m | 0 <= m < n + 1 && IsCandidate(orig, can, m) && InfoOf(orig, can, m).key.UdpKey?
      ensures TrackedIn(s'.table, InfoOf(orig, can, m).key, s'.owner[m])
    {
      StillTracked(orig, can, s, s', n, item, m);
    }
  }

  lemma StillTracked(orig: seq<Bytes>, can: bool, s: State, s': State, n: nat, item: Item, m: nat)
    requires Inv(orig, can, s, n) && n < |orig| && Inserted(orig, can, s, s', n, item)
    requires m < n + 1 && IsCandidate(orig, can, m) && InfoOf(orig, can, m).key.UdpKey?
    ensures |s'.owner| == n + 1 && TrackedIn(s'.table, InfoOf(orig, can, m).key, s'.owner[m])
  {
    var k := InfoOf(orig, can, m).key;
    if m < n {
      assert TrackedIn(s.table, k, s.owner[m]);
      var a :| 0 <= a < |s.table[k]| && s.table[k][a].bufsIndex == s.owner[m];
      assert s'.table[k][a].bufsIndex == s'.owner[m];
    } else {
      assert s'.table[k][|s'.table[k]| - 1].bufsIndex == n;
    }
  }

  /** The packet n was merged into item a of flow k: appended to its run, or put in front. */
  ghost predicate Coalesced(s: State, s': State, n: nat, k: FlowKey, a: nat, item': Item, front: bool) {
    && k in s.table && a < |s.table[k]|
    && var b := s.table[k][a].bufsIndex;
      && item'.bufsIndex == b && b in s.groups && b < n
      && s'.table == s.table[k := s.table[k][a := item']]
      && s'.groups == s.groups[b := if front then [n] + s.groups[b] else s.groups[b] + [n]]
      && s'.owner == s.owner + [b]
      && s'.toWrite == s.toWrite
      && n < |s.bufs| == |s'.bufs|
      && (forall j | 0 <= j < |s.bufs| && j != b && j != n :: s'.bufs[j].pkt == s.bufs[j].pkt)
  }

  lemma CoalescedPartition(orig: seq<Bytes>, s: State, s': State, n: nat, k: FlowKey, a: nat, item': Item, front: bool)
    requires Partition(orig, s, n) && Alone(orig, s) && n < |orig| && Coalesced(s, s', n, k, a, item', front)
    ensures Partition(orig, s', n + 1) && Alone(orig, s')
  {
    CoalescedGroups(orig, s, s', n, k, a, item', front);
    CoalescedOwners(orig, s, s', n, k, a, item', front);
    GroupBound(orig, s, n);
    hide NoDuplicates, Increasing;
    assert forall w :: w in s'.groups <==> w in s'.toWrite;
  }

  /** The group that the packet joins, and no other, gains it as its only new member. */
  lemma CoalescedGroup(orig: seq<Bytes>, s: State, s': State, n: nat, k: FlowKey, a: nat, item': Item, front: bool)
    requires Partition(orig, s, n) && n < |orig| && Coalesced(s, s', n, k, a, item', front)
    ensures var b := item'.bufsIndex;
      && b in s.groups && b in s'.groups && |s'.groups[b]| > 1 && NoDuplicates(s'.groups[b])
      && (forall m :: m in s'.groups[b] <==> m == n || m in s.groups[b])
      && (forall w | w in s.groups && w != b :: w in s'.groups && s'.groups[w] == s.groups[w])
  {
    hide Increasing;
    var g := s.groups[item'.bufsIndex];
    GroupBound(orig, s, n);
    assert forall t | 0 <= t < |g| :: g[t] in g;
    Joined(g, n, front);
  }

  lemma Joined(g: seq<nat>, n: nat, front: bool)
    requires NoDuplicates(g) && n !in g && g != []
    ensures var g' := if front then [n] + g else g + [n];
      |g'| > 1 && NoDuplicates(g') && forall m :: m in g' <==> m == n || m in g
  {
  }

  lemma CoalescedGroups(orig: seq<Bytes>, s: State, s': State, n: nat, k: FlowKey, a: nat, item': Item, front: bool)
    requires Partition(orig, s, n) && n < |orig| && Coalesced(s, s', n, k, a, item', front)
    ensures forall w | w in s'.groups :: w < n + 1 && |s'.groups[w]| > 0 && NoDuplicates(s'.groups[w])
    ensures forall w | w in s'.groups && |s'.groups[w]| == 1 :: w in s.groups && s'.groups[w] == s.groups[w]
  {
    CoalescedGroup(orig, s, s', n, k, a, item', front);
    hide NoDuplicates, Increasing;
  }

  lemma CoalescedOwners(orig: seq<Bytes>, s: State, s': State, n: nat, k: FlowKey, a: nat, item': Item, front: bool)
    requires Partition(orig, s, n) && n < |orig| && Coalesced(s, s', n, k, a, item', front)
    ensures |s'.owner| == n + 1
    ensures forall m | 0 <= m < n + 1 :: s'.owner[m] in s'.groups && m in s'.groups[s'.owner[m]]
    ensures forall w, m {:trigger m in s'.groups[w]} | w in s'.groups && m in s'.groups[w] ::
      m < n + 1 && s'.owner[m] == w
  {
    CoalescedGroup(orig, s, s', n, k, a, item', front);
    hide NoDuplicates, Increasing;
    forall m | 0 <= m < n + 1 ensures s'.owner[m] in s'.groups && m in s'.groups[s'.owner[m]] {
      if m < n { assert m in s.groups[s.owner[m]]; }
    }
    forall w, m | w in s'.groups && m in s'.groups[w] ensures m < n + 1 && s'.owner[m] == w {
      if m != n { assert m in s.groups[w]; }
    }
  }

  /** The flow of an item can be read off its packets. */
  lemma OneFlow(orig: seq<Bytes>, can: bool, s: State, k: FlowKey, item: Item, k': FlowKey, item': Item)
    requires ItemOK(orig, can, s.bufs, s.groups, k, item) && ItemOK(orig, can, s.bufs, s.groups, k', item')
    requires item.bufsIndex == item'.bufsIndex
    ensures k == k'
  {
    var g := s.groups[item.bufsIndex];
    assert Fits(orig, can, g[0], 0, 0 == |g| - 1, k, item.thLen, item.gsoSize, item.sentSeq);
    assert Fits(orig, can, g[0], 0, 0 == |g| - 1, k', item'.thLen, item'.gsoSize, item'.sentSeq);
  }

  lemma OtherItemKeeps(orig: seq<Bytes>, can: bool, s: State, s': State, n: nat, k: FlowKey, a: nat, item': Item,
                       front: bool, k2: FlowKey, a2: nat)
    requires Inv(orig, can, s, n) && n < |orig| && Coalesced(s, s', n, k, a, item', front)
    requires k2 in s.table && a2 < |s.table[k2]| && (k2 != k || a2 != a)
    ensures ItemOK(orig, can, s'.bufs, s'.groups, k2, s.table[k2][a2])
    ensures s.table[k2][a2].bufsIndex != s.table[k][a].bufsIndex
  {
    hide ItemOK, Inv, FlowOK;
    TableDistinct(orig, can, s, n, k, a, k2, a2);
    InvFlow(orig, can, s, n, k2);
    GroupsBelow(orig, can, s, n);
    ItemKeeps(orig, can, s.bufs, s.groups, s'.bufs, s'.groups, k2, s.table[k2][a2]);
  }

  lemma GroupsBelow(orig: seq<Bytes>, can: bool, s: State, n: nat)
    requires Inv(orig, can, s, n)
    ensures |s.bufs| == |orig| && forall w | w in s.groups :: w < n
  {
  }

  /** No two items of the table have the same buffer. */
  lemma TableDistinct(orig: seq<Bytes>, can: bool, s: State, n: nat, k: FlowKey, a: nat, k2: FlowKey, a2: nat)
    requires Inv(orig, can, s, n) && k in s.table && k2 in s.table && a < |s.table[k]| && a2 < |s.table[k2]|
    requires k != k2 || a != a2
    ensures s.table[k][a].bufsIndex != s.table[k2][a2].bufsIndex
  {
    hide ItemOK, Inv;
    InvFlow(orig, can, s, n, k);
    InvFlow(orig, can, s, n, k2);
    if s.table[k][a].bufsIndex == s.table[k2][a2].bufsIndex {
      OneFlow(orig, can, s, k, s.table[k][a], k2, s.table[k2][a2]);
    }
  }

  lemma OtherFlowKeeps(orig: seq<Bytes>, can: bool, s: State, s': State, n: nat, k: FlowKey, a: nat, item': Item,
                       front: bool, k2: FlowKey)
    requires Inv(orig, can, s, n) && n < |orig| && Coalesced(s, s', n, k, a, item', front)
    requires k2 in s.table && k2 != k
    ensures FlowOK(orig, can, s', k2)
  {
    assert FlowOK(orig, can, s, k2);
    hide ItemOK, Partition, Tracked, UdpComplete;
    var its := s.table[k2];
    forall a2 | 0 <= a2 < |its|
      ensures ItemOK(orig, can, s'.bufs, s'.groups, k2, its[a2]) && its[a2].bufsIndex != s.table[k][a].bufsIndex
    {
      OtherItemKeeps(orig, can, s, s', n, k, a, item', front, k2, a2);
    }
    if k2.UdpKey? {
      forall a2 | 0 <= a2 < |its| ensures its[a2].bufsIndex in s.groups {
        IndexKnown(orig, can, s.bufs, s.groups, k2, its[a2]);
      }
      SameOrder(s.groups, s'.groups, its);
    }
  }

  lemma IndexKnown(orig: seq<Bytes>, can: bool, bufs: seq<Buf>, groups: map<nat, seq<nat>>, key: FlowKey, item: Item)
    requires ItemOK(orig, can, bufs, groups, key, item)
    ensures item.bufsIndex in groups && |groups[item.bufsIndex]| > 0
  {
  }

  lemma SameOrder(groups: map<nat, seq<nat>>, groups': map<nat, seq<nat>>, its: seq<Item>)
    requires forall a | 0 <= a < |its| :: its[a].bufsIndex in groups
    requires forall a | 0 <= a < |its| ::
      its[a].bufsIndex in groups' && groups'[its[a].bufsIndex] == groups[its[a].bufsIndex]
    requires InOrder(groups, its)
    ensures InOrder(groups', its)
  {
  }

  /** Appending the newest packet to the last run keeps the arrival order. */
  lemma AppendedOrder(groups: map<nat, seq<nat>>, its: seq<Item>, b: nat, item': Item, n: nat)
    requires |its| > 0 && its[|its| - 1].bufsIndex == b == item'.bufsIndex && Distinct(its)
    requires forall a | 0 <= a < |its| :: its[a].bufsIndex in groups
    requires forall w, m | w in groups && m in groups[w] :: m < n
    requires InOrder(groups, its)
    ensures InOrder(groups[b := groups[b] + [n]], its[|its| - 1 := item'])
  {
    var groups', its' := groups[b := groups[b] + [n]], its[|its| - 1 := item'];
    forall a | 0 <= a < |its| ensures Headed(groups'[its'[a].bufsIndex], its'[a].bufsIndex) {
      assert Headed(groups[its[a].bufsIndex], its[a].bufsIndex);
      assert forall t | 0 <= t < |groups[b]| :: groups[b][t] in groups[b];
    }
    forall a, a' | 0 <= a < a' < |its| ensures Before(groups'[its'[a].bufsIndex], groups'[its'[a'].bufsIndex]) {
      var g := groups[its[a].bufsIndex];
      assert Before(g, groups[its[a'].bufsIndex]);
      assert forall t | 0 <= t < |g| :: g[t] in g;
    }
  }

  lemma MergedFlowOK(orig: seq<Bytes>, can: bool, s: State, s': State, n: nat, k: FlowKey, a: nat, item': Item,
                     front: bool)
    requires Inv(orig, can, s, n) && n < |orig| && Coalesced(s, s', n, k, a, item', front)
    requires ItemOK(orig, can, s'.bufs, s'.groups, k, item')
    requires k.UdpKey? ==> !front && a == |s.table[k]| - 1
    ensures FlowOK(orig, can, s', k)
  {
    hide ItemOK, Inv, Partition;
    InvFlow(orig, can, s, n, k);
    InvBound(orig, can, s, n);
    var its := s.table[k];
    forall a2 | 0 <= a2 < |its| ensures ItemOK(orig, can, s'.bufs, s'.groups, k, s'.table[k][a2]) {
      if a2 != a { OtherItemKeeps(orig, can, s, s', n, k, a, item', front, k, a2); }
    }
    if k.UdpKey? {
      AppendedOrder(s.groups, its, its[a].bufsIndex, item', n);
    }
  }

  lemma InvBound(orig: seq<Bytes>, can: bool, s: State, n: nat)
    requires Inv(orig, can, s, n)
    ensures forall w, m | w in s.groups && m in s.groups[w] :: m < n
  {
    GroupBound(orig, s, n);
  }

  lemma MergedStillTracked(s: State, s': State, n: nat, k: FlowKey, a: nat, item': Item, front: bool)
    requires Coalesced(s, s', n, k, a, item', front)
    ensures forall w | Tracked(s.table, w) :: Tracked(s'.table, w)
    ensures forall k2, w | TrackedIn(s.table, k2, w) :: TrackedIn(s'.table, k2, w)
  {
    forall w | Tracked(s.table, w) ensures Tracked(s'.table, w) {
      var k2, a2 :| k2 in s.table && 0 <= a2 < |s.table[k2]| && s.table[k2][a2].bufsIndex == w;
      assert s'.table[k2][a2].bufsIndex == w;
    }
    forall k2, w | TrackedIn(s.table, k2, w) ensures TrackedIn(s'.table, k2, w) {
      var a2 :| 0 <= a2 < |s.table[k2]| && s.table[k2][a2].bufsIndex == w;
      assert s'.table[k2][a2].bufsIndex == w;
    }
  }

  lemma KeyOfMember(orig: seq<Bytes>, can: bool, bufs: seq<Buf>, groups: map<nat, seq<nat>>, key: FlowKey, item: Item,
                    t: nat)
    requires ItemOK(orig, can, bufs, groups, key, item) && t <= item.numMerged
    ensures IsCandidate(orig, can, groups[item.bufsIndex][t]) && InfoOf(orig, can, groups[item.bufsIndex][t]).key == key
  {
    var g := groups[item.bufsIndex];
    assert Fits(orig, can, g[t], t, t == |g| - 1, key, item.thLen, item.gsoSize, item.sentSeq);
  }

  /** A packet that was merged into an item. */
  lemma MergeKeeps(orig: seq<Bytes>, can: bool, s: State, s': State, n: nat, k: FlowKey, a: nat, item': Item,
                   front: bool)
    requires Inv(orig, can, s, n) && n < |orig| && Coalesced(s, s', n, k, a, item', front)
    requires ItemOK(orig, can, s'.bufs, s'.groups, k, item')
    requires k.UdpKey? ==> !front && a == |s.table[k]| - 1
    ensures Inv(orig, can, s', n + 1)
  {
    hide ItemOK, FlowOK, Partition, Alone, Tracked, UdpComplete;
    CoalescedPartition(orig, s, s', n, k, a, item', front);
    MergedFlowOK(orig, can, s, s', n, k, a, item', front);
    forall k2 | k2 in s'.table ensures FlowOK(orig, can, s', k2) {
      if k2 != k { OtherFlowKeeps(orig, can, s, s', n, k, a, item', front, k2); }
    }
    forall w | w in s'.groups && |s'.groups[w]| > 1 ensures Tracked(s'.table, w) {
      MergedTracked(orig, can, s, s', n, k, a, item', front, w);
    }
    MergedUdp(orig, can, s, s', n, k, a, item', front);
  }

  lemma MergedTracked(orig: seq<Bytes>, can: bool, s: State, s': State, n: nat, k: FlowKey, a: nat, item': Item,
                      front: bool, w: nat)
    requires Inv(orig, can, s, n) && Coalesced(s, s', n, k, a, item', front)
    requires w in s'.groups && |s'.groups[w]| > 1
    ensures Tracked(s'.table, w)
  {
    hide FlowOK, Partition, Alone, UdpComplete;
    MergedStillTracked(s, s', n, k, a, item', front);
    assert s'.table[k][a].bufsIndex == s.table[k][a].bufsIndex;
    if w != s.table[k][a].bufsIndex { assert Tracked(s.table, w); }
  }

  lemma MergedUdp(orig: seq<Bytes>, can: bool, s: State, s': State, n: nat, k: FlowKey, a: nat, item': Item,
                  front: bool)
    requires Inv(orig, can, s, n) && n < |orig| && Coalesced(s, s', n, k, a, item', front)
    requires ItemOK(orig, can, s'.bufs, s'.groups, k, item')
    ensures |s'.owner| == n + 1 && UdpComplete(orig, can, s', n + 1)
  {
    hide FlowOK, Alone, ItemOK, InfoOf, IsCandidate, Tracked;
    MergedStillTracked(s, s', n, k, a, item', front);
    GroupSize(orig, can, s'.bufs, s'.groups, k, item');
    KeyOfMember(orig, can, s'.bufs, s'.groups, k, item', if front then 0 else item'.numMerged);
    assert s'.table[k][a].bufsIndex == s.table[k][a].bufsIndex;
    forall m | 0 <= m < n + 1 && IsCandidate(orig, can, m) && InfoOf(orig, can, m).key.UdpKey?
      ensures TrackedIn(s'.table, InfoOf(orig, can, m).key, s'.owner[m])
    {
      if m < n { assert TrackedIn(s.table, InfoOf(orig, can, m).key, s.owner[m]); }
    }
  }

  lemma GroupSize(orig: seq<Bytes>, can: bool, bufs: seq<Buf>, groups: map<nat, seq<nat>>, key: FlowKey, item: Item)
    requires ItemOK(orig, can, bufs, groups, key, item)
    ensures item.bufsIndex in groups && |groups[item.bufsIndex]| == item.numMerged + 1
  {
  }

  /** Item a of flow k, which stands for a single packet, was deleted. */
  ghost predicate Dropped(s: State, s': State, k: FlowKey, a: nat) {
    && k in s.table && k.TcpKey? && a < |s.table[k]| && s.table[k][a].numMerged == 0
    && s'.table == s.table[k := s.table[k][..a] + s.table[k][a + 1..]]
    && s'.groups == s.groups && s'.owner == s.owner && s'.toWrite == s.toWrite
    && |s'.bufs| == |s.bufs|
    && (forall j | 0 <= j < |s.bufs| :: s'.bufs[j].pkt == s.bufs[j].pkt)
  }

  lemma DroppedFlowOK(orig: seq<Bytes>, can: bool, s: State, s': State, n: nat, k: FlowKey, a: nat, k2: FlowKey)
    requires Inv(orig, can, s, n) && Dropped(s, s', k, a) && k2 in s.table
    ensures FlowOK(orig, can, s', k2)
  {
    hide ItemOK, Inv;
    InvFlow(orig, can, s, n, k2);
    var its, its' := s.table[k2], s'.table[k2];
    forall a2 | 0 <= a2 < |its'| ensures ItemOK(orig, can, s'.bufs, s'.groups, k2, its'[a2]) {
      var was := if k2 == k && a2 >= a then a2 + 1 else a2;
      assert its'[a2] == its[was];
      ItemInBounds(orig, can, s.bufs, s.groups, k2, its[was]);
      ItemKeeps(orig, can, s.bufs, s.groups, s'.bufs, s'.groups, k2, its[was]);
    }
  }

  lemma ItemInBounds(orig: seq<Bytes>, can: bool, bufs: seq<Buf>, groups: map<nat, seq<nat>>, key: FlowKey, item: Item)
    requires ItemOK(orig, can, bufs, groups, key, item)
    ensures item.bufsIndex in groups && item.bufsIndex < |bufs|
  {
  }

  lemma DropKeeps(orig: seq<Bytes>, can: bool, s: State, s': State, n: nat, k: FlowKey, a: nat)
    requires Inv(orig, can, s, n) && Dropped(s, s', k, a)
    ensures Inv(orig, can, s', n)
  {
    hide ItemOK, FlowOK, Tracked, UdpComplete;
    forall k2 | k2 in s'.table ensures FlowOK(orig, can, s', k2) {
      DroppedFlowOK(orig, can, s, s', n, k, a, k2);
    }
    forall w | w in s'.groups && |s'.groups[w]| > 1 ensures Tracked(s'.table, w) {
      DroppedTracked(orig, can, s, s', n, k, a, w);
    }
    DroppedUdp(orig, can, s, s', n, k, a);
  }

  lemma DroppedTracked(orig: seq<Bytes>, can: bool, s: State, s': State, n: nat, k: FlowKey, a: nat, w: nat)
    requires Inv(orig, can, s, n) && Dropped(s, s', k, a) && w in s.groups && |s.groups[w]| > 1
    ensures Tracked(s'.table, w)
  {
    hide ItemOK, FlowOK, Partition, Alone, UdpComplete;
    InvFlow(orig, can, s, n, k);
    GroupSize(orig, can, s.bufs, s.groups, k, s.table[k][a]);
    assert Tracked(s.table, w);
    var k2, a2 :| k2 in s.table && 0 <= a2 < |s.table[k2]| && s.table[k2][a2].bufsIndex == w;
    var now := if k2 == k && a2 > a then a2 - 1 else a2;
    assert s'.table[k2][now] == s.table[k2][a2];
  }

  lemma DroppedUdp(orig: seq<Bytes>, can: bool, s: State, s': State, n: nat, k: FlowKey, a: nat)
    requires Inv(orig, can, s, n) && Dropped(s, s', k, a)
    ensures |s'.owner| == n && UdpComplete(orig, can, s', n)
  {
    hide FlowOK, Alone, InfoOf, IsCandidate;
    forall m | 0 <= m < n && IsCandidate(orig, can, m) && InfoOf(orig, can, m).key.UdpKey?
      ensures TrackedIn(s'.table, InfoOf(orig, can, m).key, s'.owner[m])
    {
      var k2 := InfoOf(orig, can, m).key;
      assert TrackedIn(s.table, k2, s.owner[m]);
      assert s'.table[k2] == s.table[k2];
    }
  }

  // ---- Virtio headers ----------------------------------------------------------------------

  const ZERO_HDR := Gso.VirtioHdr(false, Gso.GsoNone, 0, 0, 0, 0)

  /** A written buffer that the accounting pass will not visit has a zero header already. */
  ghost predicate Quiet(s: State) {
    forall w {:trigger Tracked(s.table, w)} | w in s.groups && !Tracked(s.table, w) ::
      w < |s.bufs| && s.bufs[w].vhdr == Some(ZERO_HDR)
  }

  lemma QuietNoop(s: State, s': State, n: nat)
    requires Quiet(s) && WroteAlone(s, s', n) && s'.table == s.table
    requires s'.bufs == s.bufs[n := s.bufs[n].(vhdr := Some(ZERO_HDR))]
    ensures Quiet(s')
  {
  }

  lemma QuietInsert(s: State, s': State, n: nat, item: Item)
    requires Quiet(s) && WroteAlone(s, s', n) && s'.bufs == s.bufs && item.bufsIndex == n
    requires s'.table == s.table[item.key := ItemsFor(s.table, item.key) + [item]]
    ensures Quiet(s')
  {
    var its := s'.table[item.key];
    assert its[|its| - 1].bufsIndex == n;
    forall w | Tracked(s.table, w) ensures Tracked(s'.table, w) {
      var k, a :| k in s.table && 0 <= a < |s.table[k]| && s.table[k][a].bufsIndex == w;
      assert s'.table[k][a].bufsIndex == w;
    }
  }

  lemma QuietMerge(s: State, s': State, n: nat, k: FlowKey, a: nat, item': Item, front: bool)
    requires Quiet(s) && Coalesced(s, s', n, k, a, item', front) && n !in s.groups
    requires forall j | 0 <= j < |s.bufs| && j != s.table[k][a].bufsIndex && j != n :: s'.bufs[j] == s.bufs[j]
    ensures Quiet(s')
  {
    MergedStillTracked(s, s', n, k, a, item', front);
    assert s'.table[k][a].bufsIndex == s.table[k][a].bufsIndex;
  }

  lemma QuietDrop(s: State, s': State, k: FlowKey, a: nat)
    requires Quiet(s) && Dropped(s, s', k, a) && s.table[k][a].bufsIndex < |s.bufs|
    requires var b := s.table[k][a].bufsIndex; s'.bufs == s.bufs[b := s.bufs[b].(vhdr := Some(ZERO_HDR))]
    ensures Quiet(s')
  {
    forall w | Tracked(s.table, w) && w != s.table[k][a].bufsIndex ensures Tracked(s'.table, w) {
      var k2, a2 :| k2 in s.table && 0 <= a2 < |s.table[k2]| && s.table[k2][a2].bufsIndex == w;
      var now := if k2 == k && a2 > a then a2 - 1 else a2;
      assert s'.table[k2][now] == s.table[k2][a2];
    }
  }
}
