/** Which packets a GRO pass merges, said of the packets and their buffers alone. */
module GroChoice {
  import opened Basics
  import opened Packet
  import opened GroPackets
  import opened GroState
  import opened GroRuns
  import Gso

  /** A batch: the packets, whether UDP may be merged, the capacities of the packets' buffers, and
      where in their buffers the packets start. */
  datatype Batch = Batch(orig: seq<Bytes>, can: bool, caps: seq<nat>, offset: nat)

  /** The packets g, in this order, are a run of the flow, header length, segment size and
      sequence number of the first. */
  ghost predicate Runs(b: Batch, g: seq<nat>) {
    && |g| > 0 && IsCandidate(b.orig, b.can, g[0])
    && var f := InfoOf(b.orig, b.can, g[0]);
      IsRun(b.orig, b.can, g, f.key, f.thLen, f.size, f.seqNo)
  }

  /** The length of the merged packet: headers, full segments and the last payload. */
  ghost function MergedLen(b: Batch, g: seq<nat>): nat
    requires |g| > 0 && IsCandidate(b.orig, b.can, g[0]) && IsCandidate(b.orig, b.can, g[|g| - 1])
  {
    var f := InfoOf(b.orig, b.can, g[0]);
    Length(f.iphLen + f.thLen, |g| - 1, f.size, InfoOf(b.orig, b.can, g[|g| - 1]).size)
  }

  function Length(headers: nat, full: nat, size: nat, last: nat): nat { headers + full * size + last }

  /** Several packets form a run, and the merged packet fits into the buffer of the first: with
      the offset twice, as the source has it. */
  ghost predicate CanMerge(b: Batch, g: seq<nat>) {
    && |g| > 1 && Runs(b, g) && IsCandidate(b.orig, b.can, g[|g| - 1])
    && g[0] < |b.caps| && MergedLen(b, g) + 2 * b.offset <= b.caps[g[0]]
  }

  ghost predicate IsTcp(b: Batch, m: nat) {
    IsCandidate(b.orig, b.can, m) && InfoOf(b.orig, b.can, m).key.TcpKey?
  }

  /** Packet m can be merged with the packets g: at the end, and for TCP also in front. */
  ghost predicate CanJoin(b: Batch, g: seq<nat>, m: nat) {
    CanMerge(b, g + [m]) || (IsTcp(b, m) && CanMerge(b, [m] + g))
  }

  /** Those of g that came before m. */
  ghost function Earlier(g: seq<nat>, m: nat): seq<nat> {
    if g == [] then [] else
      var front, last := Earlier(g[..|g| - 1], m), g[|g| - 1];
      if last < m then front + [last] else front
  }

  ghost predicate SameKey(b: Batch, m: nat, m': nat) {
    && IsCandidate(b.orig, b.can, m) && IsCandidate(b.orig, b.can, m')
    && InfoOf(b.orig, b.can, m).key == InfoOf(b.orig, b.can, m').key
  }

  /** The group that buffer w started is tried for packet m: every one for TCP, and for UDP only
      the newest one of its flow. */
  ghost predicate Eligible(b: Batch, groups: map<nat, seq<nat>>, w: nat, m: nat) {
    && IsCandidate(b.orig, b.can, m)
    && (!IsTcp(b, m) ==> forall w' | w' in groups && w < w' < m :: !SameKey(b, w', m))
  }

  /** When m was merged it went to an end of the group. */
  ghost predicate JoinedTo(b: Batch, before: seq<nat>, after: seq<nat>, m: nat) {
    && CanMerge(b, after)
    && (after == before + [m] || (IsTcp(b, m) && after == [m] + before))
  }

  /** Where packet m went: to the newest eligible group that could take it when it came, and to a
      buffer of its own only if there was none. */
  ghost predicate Choice(b: Batch, groups: map<nat, seq<nat>>, owner: seq<nat>, m: nat) {
    && m < |owner| && owner[m] in groups && owner[m] <= m
    && var w := owner[m];
      && (w == m ==> Earlier(groups[w], m + 1) == [m])
      && (w < m ==>
            Eligible(b, groups, w, m) && JoinedTo(b, Earlier(groups[w], m), Earlier(groups[w], m + 1), m))
      && (forall w' | w' in groups && w' < m && (w == m || w < w') && Eligible(b, groups, w', m) ::
            !CanJoin(b, Earlier(groups[w'], m), m))
  }

  ghost predicate Chosen(b: Batch, groups: map<nat, seq<nat>>, owner: seq<nat>, n: nat) {
    && |owner| == n
    && (forall w | w in groups :: w < n && owner[w] == w)
    && (forall m | 0 <= m < n :: Choice(b, groups, owner, m))
  }

  // ---- Earlier ------------------------------------------------------------------------------------

  lemma {:induction false} EarlierAll(g: seq<nat>, m: nat)
    requires forall x | x in g :: x < m
    ensures Earlier(g, m) == g
  {
    if g != [] {
      var front := g[..|g| - 1];
      assert g[|g| - 1] in g && forall x | x in front :: x in g;
      EarlierAll(front, m);
    }
  }

  lemma EarlierBack(g: seq<nat>, n: nat, m: nat)
    requires m <= n
    ensures Earlier(g + [n], m) == Earlier(g, m)
  {
    assert (g + [n])[..|g|] == g;
  }

  lemma {:induction false} EarlierFront(g: seq<nat>, n: nat, m: nat)
    requires m <= n
    ensures Earlier([n] + g, m) == Earlier(g, m)
  {
    var g' := [n] + g;
    if g == [] {
      assert g'[..0] == [] && Earlier(g'[..0], m) == [];
    } else {
      assert g'[..|g|] == [n] + g[..|g| - 1] && g'[|g|] == g[|g| - 1];
      EarlierFront(g[..|g| - 1], n, m);
    }
  }

  // ---- Steps of the pass ----------------------------------------------------------------------------

  /** One packet n comes: it joins a group at one end, or starts one. */
  ghost predicate Grown(groups: map<nat, seq<nat>>, groups': map<nat, seq<nat>>, n: nat) {
    && (forall w | w in groups :: w < n && (forall x | x in groups[w] :: x < n))
    && (forall w | w in groups ::
          w in groups' && (groups'[w] == groups[w] || groups'[w] == groups[w] + [n] || groups'[w] == [n] + groups[w]))
    && (forall w | w in groups' :: w in groups || w == n)
  }

  lemma EarlierKept(groups: map<nat, seq<nat>>, groups': map<nat, seq<nat>>, n: nat, w: nat, m: nat)
    requires Grown(groups, groups', n) && w in groups && m <= n
    ensures w in groups' && Earlier(groups'[w], m) == Earlier(groups[w], m)
  {
    hide Earlier;
    EarlierBack(groups[w], n, m);
    EarlierFront(groups[w], n, m);
  }

  lemma EligibleKept(b: Batch, groups: map<nat, seq<nat>>, groups': map<nat, seq<nat>>, n: nat, w: nat, m: nat)
    requires Grown(groups, groups', n) && m <= n
    ensures Eligible(b, groups', w, m) <==> Eligible(b, groups, w, m)
  {
    hide SameKey, IsTcp, IsCandidate;
  }

  lemma ChoiceKept(b: Batch, groups: map<nat, seq<nat>>, owner: seq<nat>, groups': map<nat, seq<nat>>, x: nat, n: nat,
                   m: nat)
    requires Grown(groups, groups', n) && |owner| == n && m < n && Choice(b, groups, owner, m)
    ensures Choice(b, groups', owner + [x], m)
  {
    hide Earlier, CanJoin, Eligible, JoinedTo;
    var w := owner[m];
    EarlierKept(groups, groups', n, w, m);
    EarlierKept(groups, groups', n, w, m + 1);
    EligibleKept(b, groups, groups', n, w, m);
    forall w' | w' in groups' && w' < m && (w == m || w < w') && Eligible(b, groups', w', m)
      ensures !CanJoin(b, Earlier(groups'[w'], m), m)
    {
      EligibleKept(b, groups, groups', n, w', m);
      EarlierKept(groups, groups', n, w', m);
    }
  }

  /** Nothing that n could be merged with is tried before buffer w; w == n if there is nothing. */
  ghost predicate NoneBefore(b: Batch, groups: map<nat, seq<nat>>, n: nat, w: nat) {
    forall w' | w' in groups && (w == n || w < w') && Eligible(b, groups, w', n) :: !CanJoin(b, groups[w'], n)
  }

  lemma LastChoice(b: Batch, groups: map<nat, seq<nat>>, owner: seq<nat>, groups': map<nat, seq<nat>>, w: nat, n: nat)
    requires Grown(groups, groups', n) && |owner| == n && NoneBefore(b, groups, n, w) && w in groups'
    requires w == n ==> groups'[n] == [n]
    requires w != n ==>
      w in groups && w < n && Eligible(b, groups, w, n) && JoinedTo(b, groups[w], groups'[w], n)
    ensures Choice(b, groups', owner + [w], n)
  {
    hide Earlier, CanJoin, Eligible, CanMerge;
    EligibleKept(b, groups, groups', n, w, n);
    EarlierAll(groups'[w], n + 1);
    if w != n {
      EarlierKept(groups, groups', n, w, n);
      EarlierAll(groups[w], n);
    }
    forall w' | w' in groups' && w' < n && (w == n || w < w') && Eligible(b, groups', w', n)
      ensures !CanJoin(b, Earlier(groups'[w'], n), n)
    {
      EligibleKept(b, groups, groups', n, w', n);
      EarlierKept(groups, groups', n, w', n);
      EarlierAll(groups[w'], n);
    }
  }

  lemma ChosenStep(b: Batch, groups: map<nat, seq<nat>>, owner: seq<nat>, groups': map<nat, seq<nat>>, w: nat, n: nat)
    requires Chosen(b, groups, owner, n) && Grown(groups, groups', n) && NoneBefore(b, groups, n, w) && w in groups'
    requires w == n ==> groups'[n] == [n]
    requires w != n ==>
      n !in groups' && w in groups && Eligible(b, groups, w, n) && JoinedTo(b, groups[w], groups'[w], n)
    ensures Chosen(b, groups', owner + [w], n + 1)
  {
    hide Choice, NoneBefore, JoinedTo, Eligible;
    forall m | 0 <= m < n + 1 ensures Choice(b, groups', owner + [w], m) {
      if m < n {
        ChoiceKept(b, groups, owner, groups', w, n, m);
      } else {
        LastChoice(b, groups, owner, groups', w, n);
      }
    }
  }

  // ---- A batch that is one run ------------------------------------------------------------------------

  lemma RunMember(b: Batch, g: seq<nat>, t: nat)
    requires Runs(b, g) && t < |g|
    ensures IsCandidate(b.orig, b.can, g[t]) && InfoOf(b.orig, b.can, g[t]).size > 0
    ensures var f, x := InfoOf(b.orig, b.can, g[0]), InfoOf(b.orig, b.can, g[t]);
      && x.key == f.key && x.thLen == f.thLen
      && x.size <= f.size && (t < |g| - 1 ==> x.size == f.size && !x.psh)
      && (x.key.TcpKey? ==> x.seqNo == SeqAt(f.seqNo, t, f.size))
  {
    hide Classify, SeqAt, Alike, GoodChecksum;
    var f := InfoOf(b.orig, b.can, g[0]);
    assert Fits(b.orig, b.can, g[t], t, t == |g| - 1, f.key, f.thLen, f.size, f.seqNo);
    ClassifyFacts(b.orig[g[t]], b.can);
  }

  /** The beginning of a run is a run. */
  lemma RunPrefix(b: Batch, g: seq<nat>, m: nat)
    requires Runs(b, g) && 0 < m <= |g|
    ensures Runs(b, g[..m])
  {
    hide Classify, SeqAt, Alike, GoodChecksum;
    var p, f := g[..m], InfoOf(b.orig, b.can, g[0]);
    forall t | 0 <= t < m ensures Fits(b.orig, b.can, p[t], t, t == m - 1, f.key, f.thLen, f.size, f.seqNo) {
      assert Fits(b.orig, b.can, g[t], t, t == |g| - 1, f.key, f.thLen, f.size, f.seqNo);
      ClassifyFacts(b.orig[g[t]], b.can);
    }
    forall t | 0 <= t < m ensures Alike(b.orig, p[t], p[0], MinIPHeader(f.key.isV6), f.thLen) {
      assert Alike(b.orig, g[t], g[0], MinIPHeader(f.key.isV6), f.thLen);
    }
    if m > 1 {
      forall t | 0 <= t < m ensures GoodChecksum(b.orig, p[t], f.key) {
        assert GoodChecksum(b.orig, g[t], f.key);
      }
    }
  }

  lemma MergePrefix(b: Batch, g: seq<nat>, m: nat)
    requires CanMerge(b, g) && 1 < m <= |g|
    ensures CanMerge(b, g[..m])
  {
    hide Runs, InfoOf, IsCandidate;
    RunPrefix(b, g, m);
    RunMember(b, g, 0);
    RunMember(b, g, m - 1);
    RunMember(b, g, |g| - 1);
    var f := InfoOf(b.orig, b.can, g[0]);
    if m == |g| {
      assert g[..m] == g;
    } else {
      Shorter(f.iphLen + f.thLen, m, |g|, f.size, InfoOf(b.orig, b.can, g[|g| - 1]).size);
    }
  }

  lemma Shorter(headers: nat, m: nat, n: nat, size: nat, last: nat)
    requires 0 < m < n
    ensures Length(headers, m - 1, size, size) <= Length(headers, n - 1, size, last)
  {
    assert (m - 1) * size + size == m * size;
    Gso.MulMono(m, n - 1, size);
  }

  /** The length of a group with one more packet at its end, or in front. */
  lemma BackLen(b: Batch, g: seq<nat>, n: nat)
    requires |g| > 0 && CanMerge(b, g + [n])
    ensures g[0] < |b.caps| && SameKey(b, g[0], n)
    ensures var f, x := InfoOf(b.orig, b.can, g[0]), InfoOf(b.orig, b.can, n);
      f.iphLen + f.thLen + |g| * f.size + x.size + 2 * b.offset <= b.caps[g[0]] && x.thLen == f.thLen
    ensures IsCandidate(b.orig, b.can, g[|g| - 1])
    ensures InfoOf(b.orig, b.can, g[|g| - 1]).size == InfoOf(b.orig, b.can, g[0]).size
  {
    hide Runs, Classify;
    var g' := g + [n];
    assert g'[0] == g[0] && g'[|g|] == n && g'[|g| - 1] == g[|g| - 1];
    RunMember(b, g', 0);
    RunMember(b, g', |g|);
    RunMember(b, g', |g| - 1);
  }

  lemma FrontLen(b: Batch, g: seq<nat>, n: nat)
    requires |g| > 0 && CanMerge(b, [n] + g)
    ensures n < |b.caps| && SameKey(b, g[0], n) && IsCandidate(b.orig, b.can, g[|g| - 1])
    ensures var f, x := InfoOf(b.orig, b.can, g[0]), InfoOf(b.orig, b.can, n);
      && x.iphLen + x.thLen + |g| * x.size + InfoOf(b.orig, b.can, g[|g| - 1]).size + 2 * b.offset <= b.caps[n]
      && x.thLen == f.thLen && (|g| > 1 ==> f.size == x.size)
  {
    hide Runs, Classify;
    var g' := [n] + g;
    assert g'[0] == n && g'[1] == g[0] && g'[|g|] == g[|g| - 1];
    RunMember(b, g', 0);
    RunMember(b, g', 1);
    RunMember(b, g', |g|);
  }

  /** A TCP packet cannot go to both ends of a group. */
  lemma OneEnd(b: Batch, g: seq<nat>, m: nat)
    requires IsTcp(b, m) && |g| > 0 && forall j | 0 <= j < |b.caps| :: b.caps[j] <= 0xffff
    ensures !(CanMerge(b, g + [m]) && CanMerge(b, [m] + g))
  {
    hide Runs, SeqAt, Classify;
    if CanMerge(b, g + [m]) && CanMerge(b, [m] + g) {
      var k := |g|;
      assert (g + [m])[0] == g[0] && (g + [m])[k] == m && ([m] + g)[1] == g[0];
      RunMember(b, g + [m], 0);
      RunMember(b, g + [m], k);
      var f, x := InfoOf(b.orig, b.can, g[0]), InfoOf(b.orig, b.can, m);
      NoCycle(f.seqNo, k, f.size, x.size);
      RunMember(b, [m] + g, 1);
    }
  }

  lemma NoCycle(a: U32, k: nat, size: nat, size': nat)
    requires k * size <= 0xffff && 0 < size' <= 0xffff
    ensures SeqAt(SeqAt(a, k, size), 1, size') != a
  {
    var x: nat := k * size;
    Gso.WrapOnce(a, x + size', 0x1_0000_0000);
    SameSeq(a + x + size', SeqAt(a, k, size) + size', (a + x) / 0x1_0000_0000);
    assert 1 * size' == size';
  }

  ghost function Upto(n: nat): (r: seq<nat>)
    ensures |r| == n && forall i | 0 <= i < n :: r[i] == i
  {
    seq(n, i => i)
  }

  /** Up to packet m everything went to buffer 0, in order. */
  ghost predicate OneGroup(groups: map<nat, seq<nat>>, owner: seq<nat>, m: nat) {
    && m <= |owner| && 0 in groups
    && (forall j | 0 <= j < m :: owner[j] == 0) && Earlier(groups[0], m) == Upto(m)
  }

  lemma NextJoins(b: Batch, groups: map<nat, seq<nat>>, owner: seq<nat>, n: nat, m: nat)
    requires Chosen(b, groups, owner, n) && 0 < m < n && OneGroup(groups, owner, m) && CanMerge(b, Upto(n))
    requires forall j | 0 <= j < |b.caps| :: b.caps[j] <= 0xffff
    ensures OneGroup(groups, owner, m + 1)
  {
    hide Earlier, CanMerge;
    MergePrefix(b, Upto(n), m + 1);
    assert Upto(n)[..m + 1] == Upto(m + 1) == Upto(m) + [m];
    assert CanJoin(b, Earlier(groups[0], m), m);
    OnlyZero(b, groups, owner, n, m);
    assert Choice(b, groups, owner, m);
    var w := owner[m];
    assert w != m;
    assert owner[w] == w;
    if IsTcp(b, m) {
      OneEnd(b, Upto(m), m);
    }
  }

  lemma OnlyZero(b: Batch, groups: map<nat, seq<nat>>, owner: seq<nat>, n: nat, m: nat)
    requires Chosen(b, groups, owner, n) && m < n && OneGroup(groups, owner, m) && CanMerge(b, Upto(n))
    ensures Eligible(b, groups, 0, m)
  {
    hide Choice, Earlier;
    RunMember(b, Upto(n), m);
    forall w' | w' in groups && w' < m ensures w' == 0 {
      assert owner[w'] == w';
    }
  }

  lemma {:induction false} AllJoin(b: Batch, groups: map<nat, seq<nat>>, owner: seq<nat>, n: nat, m: nat)
    requires Chosen(b, groups, owner, n) && 0 < m <= n && CanMerge(b, Upto(n))
    requires forall j | 0 <= j < |b.caps| :: b.caps[j] <= 0xffff
    ensures OneGroup(groups, owner, m)
  {
    hide CanMerge, Earlier;
    if m == 1 {
      assert Choice(b, groups, owner, 0);
      assert Upto(1) == [0];
    } else {
      AllJoin(b, groups, owner, n, m - 1);
      NextJoins(b, groups, owner, n, m - 1);
    }
  }

  /** If a whole batch can be merged in the order in which it came, it is. */
  lemma InOrderMerges(b: Batch, s: State)
    requires Partition(b.orig, s, |b.orig|) && Chosen(b, s.groups, s.owner, |b.orig|) && CanMerge(b, Upto(|b.orig|))
    requires forall j | 0 <= j < |b.caps| :: b.caps[j] <= 0xffff
    ensures s.toWrite == [0] && s.groups == map[0 := Upto(|b.orig|)]
  {
    hide CanMerge, Earlier, Choice, NoDuplicates, Increasing;
    var n := |b.orig|;
    MergeSize(b, Upto(n));
    AllJoin(b, s.groups, s.owner, n, n);
    EarlierAll(s.groups[0], n);
    forall w | w in s.groups ensures w == 0 {
      assert s.owner[w] == w;
    }
    OnlyZeros(s.toWrite);
    assert s.groups.Keys == {0};
  }

  lemma MergeSize(b: Batch, g: seq<nat>)
    requires CanMerge(b, g)
    ensures |g| > 1
  {
  }

  lemma OnlyZeros(ws: seq<nat>)
    requires Increasing(ws) && 0 in ws && forall w | w in ws :: w == 0
    ensures ws == [0]
  {
    forall t | 0 <= t < |ws| ensures ws[t] == 0 {
      assert ws[t] in ws;
    }
    assert ws[0] in ws && ws[|ws| - 1] in ws;
  }

  // ---- What the tests of the source mean ----------------------------------------------------------------

  /** An item's fields are those of the first packet of its run. */
  lemma ItemHead(orig: seq<Bytes>, can: bool, bufs: seq<Buf>, groups: map<nat, seq<nat>>, key: FlowKey, item: Item)
    requires ItemOK(orig, can, bufs, groups, key, item)
    ensures var g := groups[item.bufsIndex];
      && |g| == item.numMerged + 1 && IsCandidate(orig, can, g[0])
      && var f := InfoOf(orig, can, g[0]);
        && f.key == key && f.iphLen == item.iphLen && f.thLen == item.thLen && f.size == item.gsoSize
        && (key.TcpKey? ==> f.seqNo == item.sentSeq)
  {
    hide Classify, IsMerged, Alike, GoodChecksum;
    var g := groups[item.bufsIndex];
    assert Fits(orig, can, g[0], 0, 0 == |g| - 1, key, item.thLen, item.gsoSize, item.sentSeq);
    Gso.SegmentZero(item.gsoSize);
  }

  lemma ItemRuns(b: Batch, bufs: seq<Buf>, groups: map<nat, seq<nat>>, key: FlowKey, item: Item)
    requires ItemOK(b.orig, b.can, bufs, groups, key, item)
    ensures Runs(b, groups[item.bufsIndex])
  {
    ItemHead(b.orig, b.can, bufs, groups, key, item);
    hide InfoOf, IsCandidate, IsRun, IsMerged, GoodChecksum;
    var g, f := groups[item.bufsIndex], InfoOf(b.orig, b.can, groups[item.bufsIndex][0]);
    if key.UdpKey? {
      RunIgnoresSeq(b.orig, b.can, g, key, item.thLen, item.gsoSize, item.sentSeq, f.seqNo);
    }
  }

  lemma HeadersMatch(orig: seq<Bytes>, can: bool, bufs: seq<Buf>, groups: map<nat, seq<nat>>, key: FlowKey, item: Item,
                     n: nat)
    requires SameFlow(orig, can, bufs, groups, key, item, n)
    requires Comparable(orig[n], InfoOf(orig, can, n), item, bufs[item.bufsIndex].pkt)
    requires InfoOf(orig, can, n).thLen == item.thLen
    requires Alike(orig, n, groups[item.bufsIndex][0], MinIPHeader(key.isV6), item.thLen)
    ensures SameHeaders(orig[n], InfoOf(orig, can, n), item, bufs[item.bufsIndex].pkt)
  {
    var g, target := groups[item.bufsIndex], bufs[item.bufsIndex].pkt;
    MinHeaderBound(key.isV6);
    MergedHeaders(orig, g, target, item.iphLen, item.thLen);
    ItemComparable(orig, can, bufs, groups, key, item, n);
    ClassifyFacts(orig[n], can);
    ItemHead(orig, can, bufs, groups, key, item);
    ClassifyFacts(orig[g[0]], can);
    hide IsRun, IsMerged, Classify, Options, MinIPHeader;
  }

  /** What a run with packet n at its end says about n and the item. */
  lemma EndFacts(b: Batch, bufs: seq<Buf>, groups: map<nat, seq<nat>>, key: FlowKey, item: Item, n: nat)
    requires SameFlow(b.orig, b.can, bufs, groups, key, item, n) && Runs(b, groups[item.bufsIndex] + [n])
    ensures Comparable(b.orig[n], InfoOf(b.orig, b.can, n), item, bufs[item.bufsIndex].pkt)
    ensures SameHeaders(b.orig[n], InfoOf(b.orig, b.can, n), item, bufs[item.bufsIndex].pkt)
    ensures !item.pshSet && InfoOf(b.orig, b.can, n).size <= item.gsoSize
    ensures InfoOf(b.orig, b.can, groups[item.bufsIndex][item.numMerged]).size == item.gsoSize
    ensures key.TcpKey? ==>
      InfoOf(b.orig, b.can, n).seqNo == SeqAt(item.sentSeq, item.numMerged + 1, item.gsoSize)
  {
    hide IsRun, IsMerged, Classify, MinIPHeader, SeqAt, Alike, SameHeaders, Runs, GoodChecksum;
    ItemHead(b.orig, b.can, bufs, groups, key, item);
    ItemComparable(b.orig, b.can, bufs, groups, key, item, n);
    var g := groups[item.bufsIndex];
    var g' := g + [n];
    assert g'[0] == g[0] && g'[|g| - 1] == g[|g| - 1] && g'[|g|] == n;
    RunMember(b, g', |g|);
    RunMember(b, g', |g| - 1);
    AlikeFirst(b, g', |g|);
    HeadersMatch(b.orig, b.can, bufs, groups, key, item, n);
  }

  lemma AlikeFirst(b: Batch, g: seq<nat>, t: nat)
    requires Runs(b, g) && t < |g|
    ensures var f := InfoOf(b.orig, b.can, g[0]); Alike(b.orig, g[t], g[0], MinIPHeader(f.key.isV6), f.thLen)
    ensures |g| > 1 ==> GoodChecksum(b.orig, g[t], InfoOf(b.orig, b.can, g[0]).key)
  {
    hide Classify, Fits, Alike, GoodChecksum;
  }

  /** The 16-bit length of a run of full segments. */
  lemma FullLength(b: Batch, bufs: seq<Buf>, groups: map<nat, seq<nat>>, key: FlowKey, item: Item)
    requires ItemOK(b.orig, b.can, bufs, groups, key, item) && |bufs[item.bufsIndex].pkt| <= 0xffff
    requires InfoOf(b.orig, b.can, groups[item.bufsIndex][item.numMerged]).size == item.gsoSize
    ensures item.gsoSize > 0 && item.iphLen + item.thLen <= |bufs[item.bufsIndex].pkt|
    ensures WholeSegments(item, bufs[item.bufsIndex].pkt)
    ensures Gso.SeqPlus(item.sentSeq, LhsLen(item)) == SeqAt(item.sentSeq, item.numMerged + 1, item.gsoSize)
  {
    hide IsRun, IsMerged, InfoOf, IsCandidate, LhsLen, SeqAt, Gso.SeqPlus;
    ItemLength(b.orig, b.can, bufs, groups, key, item);
    var k: nat, size: nat := item.numMerged, item.gsoSize;
    WholeMultiple(k, size);
    CountersFit(b.orig, b.can, bufs, groups, key, item);
  }

  lemma WholeMultiple(k: nat, size: nat)
    requires size > 0
    ensures (k * size + size) % size == 0
  {
    assert k * size + size == (k + 1) * size;
    QuotientUnique((k + 1) * size, size, k + 1, 0);
  }

  lemma AppendExpected(b: Batch, bufs: seq<Buf>, groups: map<nat, seq<nat>>, key: FlowKey, item: Item, n: nat)
    requires SameFlow(b.orig, b.can, bufs, groups, key, item, n) && Runs(b, groups[item.bufsIndex] + [n])
    ensures Comparable(b.orig[n], InfoOf(b.orig, b.can, n), item, bufs[item.bufsIndex].pkt)
    ensures var info, target := InfoOf(b.orig, b.can, n), bufs[item.bufsIndex].pkt;
      if key.TcpKey? then TcpPacketsCanCoalesce(b.orig[n], info, item, target).CoalesceAppend?
      else UdpPacketsCanCoalesce(b.orig[n], info, item, target).CoalesceAppend?
  {
    hide IsRun, IsMerged, Classify, MinIPHeader, SeqAt, LhsLen, WholeSegments, Runs;
    EndFacts(b, bufs, groups, key, item, n);
    FullLength(b, bufs, groups, key, item);
  }

  lemma PrependExpected(b: Batch, bufs: seq<Buf>, groups: map<nat, seq<nat>>, key: FlowKey, item: Item, n: nat)
    requires SameFlow(b.orig, b.can, bufs, groups, key, item, n) && key.TcpKey?
    requires Runs(b, [n] + groups[item.bufsIndex])
    ensures Comparable(b.orig[n], InfoOf(b.orig, b.can, n), item, bufs[item.bufsIndex].pkt)
    ensures var info, target := InfoOf(b.orig, b.can, n), bufs[item.bufsIndex].pkt;
      TcpPacketsCanCoalesce(b.orig[n], info, item, target).CoalescePrepend?
  {
    hide IsRun, IsMerged, Classify, MinIPHeader, SeqAt, LhsLen, WholeSegments, Runs, Alike, SameHeaders, GoodChecksum;
    ItemComparable(b.orig, b.can, bufs, groups, key, item, n);
    ItemHead(b.orig, b.can, bufs, groups, key, item);
    var g, info := groups[item.bufsIndex], InfoOf(b.orig, b.can, n);
    var g' := [n] + g;
    assert g'[0] == n && g'[1] == g[0] && g'[|g|] == g[|g| - 1];
    RunMember(b, g', 0);
    RunMember(b, g', 1);
    AlikeFirst(b, g', 1);
    AlikeBack(b.orig, n, g[0], MinIPHeader(key.isV6), item.thLen);
    HeadersMatch(b.orig, b.can, bufs, groups, key, item, n);
    Adjacent(info.seqNo, info.size, item);
  }

  lemma AlikeBack(orig: seq<Bytes>, m: nat, m': nat, iphLen: nat, thLen: nat)
    requires Alike(orig, m', m, iphLen, thLen)
    ensures Alike(orig, m, m', iphLen, thLen)
  {
  }

  /** A sum of two sequence numbers that wraps around at most once. */
  lemma Wraps(x: nat)
    requires x < 0x2_0000_0000
    ensures x % 0x1_0000_0000 == if x < 0x1_0000_0000 then x else x - 0x1_0000_0000
  {
  }

  lemma OneSegment(seqNo: U32, size: nat)
    ensures SeqAt(seqNo, 1, size) == Gso.SeqPlus(seqNo, size)
  {
    assert 1 * size == size;
  }

  /** In front of the item is not behind it. */
  lemma Adjacent(seqNo: U32, size: U16, item: Item)
    requires item.sentSeq == SeqAt(seqNo, 1, size) && size > 0
    ensures Gso.SeqPlus(seqNo, size) == item.sentSeq && seqNo != Gso.SeqPlus(item.sentSeq, LhsLen(item))
  {
    hide LhsLen, SeqAt;
    OneSegment(seqNo, size);
    Wraps(seqNo + size);
    Wraps(item.sentSeq + LhsLen(item));
  }

  // ---- What the pass keeps ----------------------------------------------------------------------------

  /** The capacity of a written buffer is that of the first packet of its group. */
  ghost predicate Held(b: Batch, s: State, w: nat)
    requires w in s.groups
  {
    var g := s.groups[w];
    w < |s.bufs| && |g| > 0 && g[0] < |b.caps| && s.bufs[w].cap == b.caps[g[0]]
  }

  /** A TCP group is in the table unless the checksum of its first packet is bad. */
  ghost predicate Known(b: Batch, s: State, w: nat)
    requires w in s.groups
  {
    |s.groups[w]| > 0 && IsTcp(b, s.groups[w][0]) ==>
      var k := InfoOf(b.orig, b.can, s.groups[w][0]).key;
      GoodChecksum(b.orig, s.groups[w][0], k) ==> TrackedIn(s.table, k, w)
  }

  /** The items of a flow are in the order in which their groups were started, and only those
      of bad packets are marked. */
  ghost predicate Listed(b: Batch, s: State, k: FlowKey)
    requires k in s.table
  {
    && (forall a, a' | 0 <= a < a' < |s.table[k]| :: s.table[k][a].bufsIndex < s.table[k][a'].bufsIndex)
    && (forall a | 0 <= a < |s.table[k]| && s.table[k][a].cSumKnownInvalid :: Bad(b, s, k, s.table[k][a].bufsIndex))
  }

  ghost predicate Bad(b: Batch, s: State, k: FlowKey, w: nat) {
    w in s.groups && |s.groups[w]| > 0 && !GoodChecksum(b.orig, s.groups[w][0], k)
  }

  ghost predicate Steady(b: Batch, s: State, n: nat) {
    && |b.caps| == |b.orig| == |s.bufs| && n <= |b.orig|
    && (forall j | n <= j < |s.bufs| :: s.bufs[j].cap == b.caps[j])
    && (forall w | w in s.groups :: Held(b, s, w))
    && (forall w | w in s.groups :: Known(b, s, w))
    && (forall k | k in s.table :: Listed(b, s, k))
    && Chosen(b, s.groups, s.owner, n)
  }

  /** Only the groups matter: every member came before n. */
  ghost predicate Bounded(s: State, n: nat) {
    forall w | w in s.groups :: w < n && (forall x | x in s.groups[w] :: x < n)
  }

  /** A group that a TCP packet can join is in the table. */
  lemma JoinersTracked(b: Batch, s: State, n: nat, w: nat)
    requires Steady(b, s, n) && IsTcp(b, n) && w in s.groups && CanJoin(b, s.groups[w], n)
    ensures TrackedIn(s.table, InfoOf(b.orig, b.can, n).key, w)
  {
    hide Choice, Classify, TrackedIn, GoodChecksum;
    assert Held(b, s, w) && Known(b, s, w);
    var g := s.groups[w];
    JoinedKey(b, g, n);
  }

  lemma JoinedKey(b: Batch, g: seq<nat>, n: nat)
    requires |g| > 0 && CanJoin(b, g, n)
    ensures SameKey(b, g[0], n)
    ensures GoodChecksum(b.orig, g[0], InfoOf(b.orig, b.can, g[0]).key)
    ensures GoodChecksum(b.orig, n, InfoOf(b.orig, b.can, n).key)
  {
    hide Runs, Classify, GoodChecksum, SeqAt;
    if CanMerge(b, g + [n]) {
      var g' := g + [n];
      assert g'[0] == g[0] && g'[|g|] == n;
      RunMember(b, g', 0);
      RunMember(b, g', |g|);
      AlikeFirst(b, g', 0);
      AlikeFirst(b, g', |g|);
    } else {
      var g' := [n] + g;
      assert g'[0] == n && g'[1] == g[0];
      RunMember(b, g', 0);
      RunMember(b, g', 1);
      AlikeFirst(b, g', 0);
      AlikeFirst(b, g', 1);
    }
  }

  /** What cannot be merged with anything. */
  lemma NeverJoins(b: Batch, groups: map<nat, seq<nat>>, n: nat)
    requires forall w | w in groups :: |groups[w]| > 0
    requires IsCandidate(b.orig, b.can, n) ==> !GoodChecksum(b.orig, n, InfoOf(b.orig, b.can, n).key)
    ensures NoneBefore(b, groups, n, n)
  {
    hide CanJoin, GoodChecksum, InfoOf, IsCandidate;
    forall w | w in groups ensures !CanJoin(b, groups[w], n) {
      if CanJoin(b, groups[w], n) { JoinedKey(b, groups[w], n); }
    }
  }

  /** Packet n is written on its own, and put into the table if it is given an item. */
  lemma SteadyAlone(b: Batch, s: State, s': State, n: nat, item: Option<Item>)
    requires Steady(b, s, n) && n < |b.orig| && WroteAlone(s, s', n) && Bounded(s, n) && NoneBefore(b, s.groups, n, n)
    requires forall j | 0 <= j < |s.bufs| :: s'.bufs[j].cap == s.bufs[j].cap
    requires item.None? ==> s'.table == s.table
    requires item.None? && IsTcp(b, n) ==> !GoodChecksum(b.orig, n, InfoOf(b.orig, b.can, n).key)
    requires item.Some? ==>
      && s'.table == s.table[item.value.key := ItemsFor(s.table, item.value.key) + [item.value]]
      && IsCandidate(b.orig, b.can, n) && item.value.key == InfoOf(b.orig, b.can, n).key && item.value.bufsIndex == n
      && (item.value.cSumKnownInvalid ==> !GoodChecksum(b.orig, n, item.value.key))
    requires forall k, a | k in s.table && 0 <= a < |s.table[k]| :: s.table[k][a].bufsIndex in s.groups
    ensures Steady(b, s', n + 1)
  {
    hide Choice, NoneBefore, GoodChecksum, InfoOf, IsCandidate, Chosen;
    ChosenAlone(b, s, s', n);
    forall w | w in s'.groups ensures Held(b, s', w) && Known(b, s', w) {
      if w == n {
        if item.Some? { assert s'.table[item.value.key][|s'.table[item.value.key]| - 1].bufsIndex == n; }
      } else {
        assert Held(b, s, w) && Known(b, s, w);
        StillIn(s, s', item, w);
      }
    }
    forall k | k in s'.table ensures Listed(b, s', k) {
      ListedAlone(b, s, s', n, item, k);
    }
  }

  lemma ChosenAlone(b: Batch, s: State, s': State, n: nat)
    requires Steady(b, s, n) && WroteAlone(s, s', n) && Bounded(s, n) && NoneBefore(b, s.groups, n, n)
    ensures Chosen(b, s'.groups, s'.owner, n + 1)
  {
    hide Choice, NoneBefore, Held, Known, Listed;
    ChosenStep(b, s.groups, s.owner, s'.groups, n, n);
  }

  lemma StillIn(s: State, s': State, item: Option<Item>, w: nat)
    requires item.None? ==> s'.table == s.table
    requires item.Some? ==> s'.table == s.table[item.value.key := ItemsFor(s.table, item.value.key) + [item.value]]
    ensures forall k | TrackedIn(s.table, k, w) :: TrackedIn(s'.table, k, w)
  {
    forall k | TrackedIn(s.table, k, w) ensures TrackedIn(s'.table, k, w) {
      var a :| 0 <= a < |s.table[k]| && s.table[k][a].bufsIndex == w;
      assert s'.table[k][a].bufsIndex == w;
    }
  }

  lemma ListedAlone(b: Batch, s: State, s': State, n: nat, item: Option<Item>, k: FlowKey)
    requires Steady(b, s, n) && WroteAlone(s, s', n) && Bounded(s, n) && k in s'.table
    requires item.None? ==> s'.table == s.table
    requires item.Some? ==>
      && s'.table == s.table[item.value.key := ItemsFor(s.table, item.value.key) + [item.value]]
      && item.value.bufsIndex == n && (item.value.cSumKnownInvalid ==> !GoodChecksum(b.orig, n, item.value.key))
    requires forall k, a | k in s.table && 0 <= a < |s.table[k]| :: s.table[k][a].bufsIndex in s.groups
    ensures Listed(b, s', k)
  {
    hide Choice, GoodChecksum, Chosen, Held, Known;
    if k in s.table { assert Listed(b, s, k); }
    var its, its' := ItemsFor(s.table, k), s'.table[k];
    assert its' == its || (item.Some? && its' == its + [item.value]);
    forall a | 0 <= a < |its|
      ensures its[a].bufsIndex < n && (its[a].cSumKnownInvalid ==> Bad(b, s', k, its[a].bufsIndex))
    {
      if its[a].cSumKnownInvalid { assert Bad(b, s, k, its[a].bufsIndex); }
    }
  }

  /** Packet n joined item a of flow k. */
  lemma SteadyMerge(b: Batch, s: State, s': State, n: nat, k: FlowKey, a: nat, item': Item, front: bool)
    requires Steady(b, s, n) && n < |b.orig| && Bounded(s, n) && Coalesced(s, s', n, k, a, item', front)
    requires var w := item'.bufsIndex as nat;
      && NoneBefore(b, s.groups, n, w) && Eligible(b, s.groups, w, n) && JoinedTo(b, s.groups[w], s'.groups[w], n)
      && s'.bufs[w].cap == (if front then s.bufs[n].cap else s.bufs[w].cap)
      && InfoOf(b.orig, b.can, n).key == k
    requires forall j | 0 <= j < |s.bufs| && j != item'.bufsIndex && j != n :: s'.bufs[j].cap == s.bufs[j].cap
    requires item'.cSumKnownInvalid ==> s.table[k][a].cSumKnownInvalid
    requires forall k2, c | k2 in s.table && 0 <= c < |s.table[k2]| && (k2 != k || c != a) ::
      s.table[k2][c].bufsIndex != item'.bufsIndex
    ensures Steady(b, s', n + 1)
  {
    hide Choice, NoneBefore, GoodChecksum, IsCandidate, Chosen, Eligible, Classify;
    var w: nat := item'.bufsIndex;
    assert Held(b, s, w);
    ChosenMerge(b, s, s', n, k, a, item', front);
    JoinedFacts(b, s.groups[w], s'.groups[w], n);
    MergedStillTracked(s, s', n, k, a, item', front);
    assert s'.table[k][a].bufsIndex == w;
    forall w2 | w2 in s'.groups ensures Held(b, s', w2) && Known(b, s', w2) {
      if w2 != w { assert Held(b, s, w2) && Known(b, s, w2); }
    }
    forall k2 | k2 in s'.table ensures Listed(b, s', k2) {
      ListedMerge(b, s, s', n, k, a, item', front, k2);
    }
  }

  lemma ChosenMerge(b: Batch, s: State, s': State, n: nat, k: FlowKey, a: nat, item': Item, front: bool)
    requires Steady(b, s, n) && Bounded(s, n) && Coalesced(s, s', n, k, a, item', front)
    requires var w := item'.bufsIndex as nat;
      NoneBefore(b, s.groups, n, w) && Eligible(b, s.groups, w, n) && JoinedTo(b, s.groups[w], s'.groups[w], n)
    ensures Chosen(b, s'.groups, s'.owner, n + 1)
  {
    hide Choice, NoneBefore, Held, Known, Listed, Eligible, JoinedTo;
    ChosenStep(b, s.groups, s.owner, s'.groups, item'.bufsIndex, n);
  }

  lemma JoinedFacts(b: Batch, before: seq<nat>, after: seq<nat>, n: nat)
    requires |before| > 0 && JoinedTo(b, before, after, n)
    ensures CanJoin(b, before, n) && SameKey(b, before[0], n) && |after| > 0
    ensures GoodChecksum(b.orig, before[0], InfoOf(b.orig, b.can, before[0]).key)
    ensures after[0] == n || after[0] == before[0]
  {
    hide CanMerge, GoodChecksum, InfoOf, IsCandidate;
    JoinedKey(b, before, n);
  }

  lemma ListedMerge(b: Batch, s: State, s': State, n: nat, k: FlowKey, a: nat, item': Item, front: bool, k2: FlowKey)
    requires Steady(b, s, n) && Bounded(s, n) && Coalesced(s, s', n, k, a, item', front) && k2 in s'.table
    requires var w := item'.bufsIndex as nat;
      && |s.groups[w]| > 0 && JoinedTo(b, s.groups[w], s'.groups[w], n) && InfoOf(b.orig, b.can, n).key == k
    requires item'.cSumKnownInvalid ==> s.table[k][a].cSumKnownInvalid
    requires forall k2, c | k2 in s.table && 0 <= c < |s.table[k2]| && (k2 != k || c != a) ::
      s.table[k2][c].bufsIndex != item'.bufsIndex
    ensures Listed(b, s', k2)
  {
    hide Choice, GoodChecksum, Chosen, Held, Known, Classify, JoinedTo, CanJoin;
    var w: nat := item'.bufsIndex;
    NotMarked(b, s, s', n, k, a, item', front);
    assert Listed(b, s, k2);
    var its, its' := s.table[k2], s'.table[k2];
    forall c | 0 <= c < |its'| && its'[c].cSumKnownInvalid ensures Bad(b, s', k2, its'[c].bufsIndex) {
      assert Bad(b, s, k2, its[c].bufsIndex);
    }
  }

  /** An item that a packet could join is not marked. */
  lemma NotMarked(b: Batch, s: State, s': State, n: nat, k: FlowKey, a: nat, item': Item, front: bool)
    requires Steady(b, s, n) && Coalesced(s, s', n, k, a, item', front)
    requires var w := item'.bufsIndex as nat;
      && |s.groups[w]| > 0 && JoinedTo(b, s.groups[w], s'.groups[w], n) && InfoOf(b.orig, b.can, n).key == k
    requires item'.cSumKnownInvalid ==> s.table[k][a].cSumKnownInvalid
    ensures !item'.cSumKnownInvalid
  {
    hide Choice, GoodChecksum, Chosen, Held, Known, Classify, JoinedTo, CanJoin;
    var w: nat := item'.bufsIndex;
    assert Listed(b, s, k);
    JoinedFacts(b, s.groups[w], s'.groups[w], n);
    assert !Bad(b, s, k, w);
  }

  /** An item of a single bad packet was deleted. */
  lemma SteadyDrop(b: Batch, s: State, s': State, n: nat, k: FlowKey, a: nat)
    requires Steady(b, s, n) && Dropped(s, s', k, a) && Bad(b, s, k, s.table[k][a].bufsIndex)
    requires var g := s.groups[s.table[k][a].bufsIndex];
      IsCandidate(b.orig, b.can, g[0]) && InfoOf(b.orig, b.can, g[0]).key == k
    requires forall j | 0 <= j < |s.bufs| :: s'.bufs[j].cap == s.bufs[j].cap
    ensures Steady(b, s', n)
  {
    hide Choice, GoodChecksum, Chosen, Classify;
    forall w | w in s'.groups ensures Held(b, s', w) && Known(b, s', w) {
      assert Held(b, s, w) && Known(b, s, w);
      if w != s.table[k][a].bufsIndex { StillListed(s, s', k, a, w); }
    }
    forall k2 | k2 in s'.table ensures Listed(b, s', k2) {
      ListedDrop(b, s, s', n, k, a, k2);
    }
  }

  lemma StillListed(s: State, s': State, k: FlowKey, a: nat, w: nat)
    requires Dropped(s, s', k, a) && w != s.table[k][a].bufsIndex
    ensures forall k2 | TrackedIn(s.table, k2, w) :: TrackedIn(s'.table, k2, w)
  {
    forall k2 | TrackedIn(s.table, k2, w) ensures TrackedIn(s'.table, k2, w) {
      var a2 :| 0 <= a2 < |s.table[k2]| && s.table[k2][a2].bufsIndex == w;
      var now := if k2 == k && a2 > a then a2 - 1 else a2;
      assert s'.table[k2][now] == s.table[k2][a2];
    }
  }

  lemma ListedDrop(b: Batch, s: State, s': State, n: nat, k: FlowKey, a: nat, k2: FlowKey)
    requires Steady(b, s, n) && Dropped(s, s', k, a) && k2 in s'.table
    ensures Listed(b, s', k2)
  {
    hide Choice, GoodChecksum, Chosen, Held, Known;
    assert Listed(b, s, k2);
    var its, its' := s.table[k2], s'.table[k2];
    forall c | 0 <= c < |its'| ensures its'[c] == its[if k2 == k && c >= a then c + 1 else c] {
    }
    forall c | 0 <= c < |its'| && its'[c].cSumKnownInvalid ensures Bad(b, s', k2, its'[c].bufsIndex) {
      assert Bad(b, s, k2, its'[c].bufsIndex);
    }
  }
}
