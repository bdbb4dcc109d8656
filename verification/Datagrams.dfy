/** Batching of UDP datagrams: coalesceMessages and splitCoalescedMessages. */
module Datagrams {
  import opened Basics

  const MAX_IPV4_PAYLOAD := 0xffff - 20 - 8
  const MAX_IPV6_PAYLOAD := 0xffff - 8
  const UDP_SEGMENT_MAX_DATAGRAMS := 64

  /** A control message. */
  datatype Control = Source(ep: nat) | GSO(size: nat)

  /** A buffer to be sent, with the capacity of its backing array. */
  datatype Buf = Buf(data: Bytes, cap: nat)

  /** An outgoing message. */
  datatype Message = Message(buffer: Buf, addr: nat, oob: seq<Control>)

  // ---- Coalescing ------------------------------------------------------------------------------

  function Datas(bufs: seq<Buf>): seq<Bytes> { seq(|bufs|, i requires 0 <= i < |bufs| => bufs[i].data) }

  /** g may be sent as one message: full datagrams followed by one of at most the same size. */
  ghost predicate IsGroup(g: seq<Bytes>, maxPayload: nat) {
    && 0 < |g| <= UDP_SEGMENT_MAX_DATAGRAMS
    && (forall k | 0 <= k < |g| - 1 :: |g[k]| == |g[0]|)
    && |g[|g| - 1]| <= |g[0]|
    && (|g| > 1 ==> |Concat(g)| <= maxPayload)
  }

  /** The datagram p cannot be sent in one message with the group g before it, whose buffer has
      the given capacity: it is longer than the first datagram, a shorter one came last, the
      group is full, or the payload limit or the capacity would be exceeded. */
  ghost predicate Closed(g: seq<Bytes>, p: Bytes, cap: nat, maxPayload: nat)
    requires |g| > 0
  {
    || |p| > |g[0]| || |g[|g| - 1]| < |g[0]| || |g| == UDP_SEGMENT_MAX_DATAGRAMS
    || |Concat(g)| + |p| > maxPayload || |Concat(g)| + |p| > cap
  }

  /** Group k could not have taken the first datagram of the next one. */
  ghost predicate ClosedAt(gs: seq<seq<Bytes>>, msgs: seq<Message>, maxPayload: nat, k: nat)
    requires k + 1 < |gs| <= |msgs|
  {
    |gs[k]| > 0 && |gs[k + 1]| > 0 && Closed(gs[k], gs[k + 1][0], msgs[k].buffer.cap, maxPayload)
  }

  ghost predicate Maximal(gs: seq<seq<Bytes>>, msgs: seq<Message>, maxPayload: nat)
    requires |gs| <= |msgs|
  {
    forall k | 0 <= k < |gs| - 1 :: ClosedAt(gs, msgs, maxPayload, k)
  }

  /** The buffer of message k is that of its first datagram. */
  ghost predicate BackedAt(gs: seq<seq<Bytes>>, msgs: seq<Message>, bufs: seq<Buf>, k: nat)
    requires k < |gs| <= |msgs|
  {
    var first := |Concat(gs[..k])|;
    first < |bufs| && msgs[k].buffer.cap == bufs[first].cap
  }

  ghost predicate Backed(gs: seq<seq<Bytes>>, msgs: seq<Message>, bufs: seq<Buf>)
    requires |gs| <= |msgs|
  {
    forall k | 0 <= k < |gs| :: BackedAt(gs, msgs, bufs, k)
  }

  /** msg carries the group g, with a segment size exactly if there is more than one datagram. */
  ghost predicate Carries(msg: Message, g: seq<Bytes>, addr: nat, ep: nat) {
    && msg.buffer.data == Concat(g) && |msg.buffer.data| <= msg.buffer.cap
    && msg.addr == addr
    && |g| > 0 && msg.oob == (if |g| > 1 then [Source(ep), GSO(|g[0]|)] else [Source(ep)])
  }

  method SetGSO(msgs: array<Message>, k: nat, size: nat)
    requires k < msgs.Length
    modifies msgs
    ensures msgs[..] == old(msgs[..])[k := old(msgs[k]).(oob := old(msgs[k]).oob + [GSO(size % 0x1_0000)])]
  {
    msgs[k] := msgs[k].(oob := msgs[k].oob + [GSO(size % 0x1_0000)]);
  }

  /** The state between two buffers: every finished message carries its group, and the last
      one still lacks its segment size. */
  ghost predicate Open(msgs: seq<Message>, base: int, gs: seq<seq<Bytes>>, addr: nat, ep: nat, maxPayload: nat,
                       gsoSize: nat, dgramCnt: nat, endBatch: bool) {
    && |gs| == base + 1 <= |msgs|
    && (forall k | 0 <= k < base :: Carries(msgs[k], gs[k], addr, ep))
    && (forall k | 0 <= k < |gs| :: IsGroup(gs[k], maxPayload))
    && (base >= 0 ==>
      && var g, msg := gs[base], msgs[base];
        && msg.buffer.data == Concat(g) && |msg.buffer.data| <= msg.buffer.cap
        && msg.addr == addr && msg.oob == [Source(ep)]
        && gsoSize == |g[0]| && dgramCnt == |g|
        && (endBatch <==> |g[|g| - 1]| < gsoSize))
    && (base < 0 ==> base == -1 && dgramCnt == 0)
  }

  lemma OpenAppend(msgs: seq<Message>, base: int, gs: seq<seq<Bytes>>, addr: nat, ep: nat, maxPayload: nat,
                   gsoSize: nat, dgramCnt: nat, p: Bytes)
    requires Open(msgs, base, gs, addr, ep, maxPayload, gsoSize, dgramCnt, false) && base >= 0
    requires |p| + |msgs[base].buffer.data| <= maxPayload && |p| <= gsoSize
    requires |p| <= msgs[base].buffer.cap - |msgs[base].buffer.data|
    requires dgramCnt < UDP_SEGMENT_MAX_DATAGRAMS
    ensures var msgs' := msgs[base := msgs[base].(buffer := msgs[base].buffer.(data := msgs[base].buffer.data + p))];
      Open(msgs', base, gs[base := gs[base] + [p]], addr, ep, maxPayload, gsoSize, dgramCnt + 1, |p| < gsoSize)
    ensures Concat(gs[base := gs[base] + [p]]) == Concat(gs) + [p]
  {
    hide Concat;
    ConcatMore(gs[base], p);
    AppendToLast(gs, base, p);
  }

  lemma AppendToLast(gs: seq<seq<Bytes>>, base: int, p: Bytes)
    requires 0 <= base == |gs| - 1
    ensures Concat(gs[base := gs[base] + [p]]) == Concat(gs) + [p]
  {
    hide Concat;
    var g := gs[base];
    ConcatMore(gs[..base], g);
    ConcatMore(gs[..base], g + [p]);
    assert gs == gs[..base] + [g];
    assert gs[base := g + [p]] == gs[..base] + [g + [p]];
  }

  lemma OpenStart(msgs: seq<Message>, base: int, gs: seq<seq<Bytes>>, addr: nat, ep: nat, maxPayload: nat,
                  gsoSize: nat, dgramCnt: nat, endBatch: bool, buf: Buf)
    requires Open(msgs, base, gs, addr, ep, maxPayload, gsoSize, dgramCnt, endBatch) && base + 1 < |msgs|
    requires |buf.data| <= buf.cap
    ensures var closed :=
        if dgramCnt > 1 then msgs[base := msgs[base].(oob := msgs[base].oob + [GSO(gsoSize % 0x1_0000)])] else msgs;
      maxPayload <= MAX_IPV6_PAYLOAD ==>
        Open(closed[base + 1 := Message(buf, addr, [Source(ep)])], base + 1, gs + [[buf.data]], addr, ep, maxPayload,
             |buf.data|, 1, false)
    ensures Concat(gs + [[buf.data]]) == Concat(gs) + [buf.data]
  {
    hide Concat;
    ConcatOne(buf.data);
    ConcatMore(gs, [buf.data]);
    if base >= 0 && dgramCnt > 1 { FirstFits(gs[base]); }
  }

  lemma {:induction false} FirstFits(g: seq<Bytes>)
    requires |g| > 0
    ensures |g[0]| <= |Concat(g)|
  {
    if |g| > 1 { FirstFits(g[..|g| - 1]); }
  }

  /** The last message gets its segment size. */
  lemma OpenClose(msgs: seq<Message>, base: int, gs: seq<seq<Bytes>>, addr: nat, ep: nat, maxPayload: nat,
                  gsoSize: nat, dgramCnt: nat, endBatch: bool)
    requires Open(msgs, base, gs, addr, ep, maxPayload, gsoSize, dgramCnt, endBatch) && base >= 0
    requires maxPayload <= MAX_IPV6_PAYLOAD
    ensures dgramCnt > 1 ==>
      var closed := msgs[base := msgs[base].(oob := msgs[base].oob + [GSO(gsoSize % 0x1_0000)])];
      forall k | 0 <= k <= base :: Carries(closed[k], gs[k], addr, ep)
    ensures dgramCnt == 1 ==> forall k | 0 <= k <= base :: Carries(msgs[k], gs[k], addr, ep)
  {
    hide Concat;
    if dgramCnt > 1 { FirstFits(gs[base]); }
  }

  lemma DatasMore(bufs: seq<Buf>, i: nat)
    requires i < |bufs|
    ensures Datas(bufs[..i + 1]) == Datas(bufs[..i]) + [bufs[i].data]
  {
  }

  lemma DatasLength(bufs: seq<Buf>, i: nat)
    requires i <= |bufs|
    ensures |Datas(bufs[..i])| == i
  {
  }

  /** The datagrams are divided among the messages in order.  `gs` lists the datagrams of
      each message. */
  method CoalesceMessages(addr: nat, ep: nat, isV6: bool, bufs: seq<Buf>, msgs: array<Message>)
    returns (n: nat, ghost gs: seq<seq<Bytes>>)
    requires |bufs| <= msgs.Length && forall k | 0 <= k < |bufs| :: |bufs[k].data| <= bufs[k].cap
    modifies msgs
    ensures n == |gs| <= |bufs| && Concat(gs) == Datas(bufs)
    ensures forall k | 0 <= k < n ::
      IsGroup(gs[k], if isV6 then MAX_IPV6_PAYLOAD else MAX_IPV4_PAYLOAD) && Carries(msgs[k], gs[k], addr, ep)
    ensures Maximal(gs, msgs[..], if isV6 then MAX_IPV6_PAYLOAD else MAX_IPV4_PAYLOAD) && Backed(gs, msgs[..], bufs)
  {
    hide Concat, Open, Datas, IsGroup, Carries, Maximal, Backed, Fits, Closed;
    var maxPayloadLen := if isV6 then MAX_IPV6_PAYLOAD else MAX_IPV4_PAYLOAD;
    var base: int, gsoSize: nat, dgramCnt: nat, endBatch := -1, 0, 0, false;
    gs := [];
    OpenNothing(msgs[..], addr, ep, maxPayloadLen);
    NoGroups(msgs[..], bufs, maxPayloadLen);
    var i := 0;
    while i < |bufs|
      invariant 0 <= i <= |bufs| && base + 1 <= i && (i > 0 ==> base >= 0) && base + 1 == |gs|
      invariant Concat(gs) == Datas(bufs[..i])
      invariant i < |bufs| ==> Open(msgs[..], base, gs, addr, ep, maxPayloadLen, gsoSize, dgramCnt, endBatch)
      invariant forall k | 0 <= k < |gs| :: IsGroup(gs[k], maxPayloadLen)
      invariant i == |bufs| ==> forall k | 0 <= k < |gs| :: Carries(msgs[..][k], gs[k], addr, ep)
      invariant Maximal(gs, msgs[..], maxPayloadLen) && Backed(gs, msgs[..], bufs)
    {
      var buf := bufs[i];
      DatasMore(bufs, i);
      assert |Concat(gs)| == i by { DatasLength(bufs, i); }
      OpenFacts(msgs[..], base, gs, addr, ep, maxPayloadLen, gsoSize, dgramCnt, endBatch);
      if i > 0 && Fits(msgs[base].buffer, |buf.data|, maxPayloadLen, gsoSize, dgramCnt, endBatch) {
        FitsFacts(msgs[base].buffer, |buf.data|, maxPayloadLen, gsoSize, dgramCnt, endBatch);
        OpenAppend(msgs[..], base, gs, addr, ep, maxPayloadLen, gsoSize, dgramCnt, buf.data);
        ghost var before, groups := msgs[..], gs;
        msgs[base] := msgs[base].(buffer := msgs[base].buffer.(data := msgs[base].buffer.data + buf.data));
        assert msgs[..] == before[base := msgs[base]];
        gs := gs[base := gs[base] + [buf.data]];
        OpenClose(msgs[..], base, gs, addr, ep, maxPayloadLen, gsoSize, dgramCnt + 1, |buf.data| < gsoSize);
        OpenFacts(msgs[..], base, gs, addr, ep, maxPayloadLen, gsoSize, dgramCnt + 1, |buf.data| < gsoSize);
        if i == |bufs| - 1 {
          SetGSO(msgs, base, gsoSize);
        }
        GroupGrows(groups, before, msgs[..], base, buf.data, bufs, maxPayloadLen);
        dgramCnt := dgramCnt + 1;
        if |buf.data| < gsoSize {
          endBatch := true;
        }
      } else {
        OpenStart(msgs[..], base, gs, addr, ep, maxPayloadLen, gsoSize, dgramCnt, endBatch, buf);
        ghost var start, groups := msgs[..], gs;
        if base >= 0 {
          NotFitting(start, base, gs, addr, ep, maxPayloadLen, gsoSize, dgramCnt, endBatch, buf.data);
        }
        if dgramCnt > 1 {
          SetGSO(msgs, base, gsoSize);
        }
        endBatch := false;
        base := base + 1;
        gsoSize := |buf.data|;
        ghost var before := msgs[..];
        msgs[base] := Message(buf, addr, [Source(ep)]);
        assert msgs[..] == before[base := msgs[base]];
        gs := gs + [[buf.data]];
        dgramCnt := 1;
        GroupStarts(groups, start, msgs[..], buf, bufs, maxPayloadLen);
        OpenClose(msgs[..], base, gs, addr, ep, maxPayloadLen, gsoSize, dgramCnt, endBatch);
        OpenFacts(msgs[..], base, gs, addr, ep, maxPayloadLen, gsoSize, dgramCnt, endBatch);
      }
      i := i + 1;
    }
    assert bufs[..|bufs|] == bufs;
    n := base + 1;
  }

  predicate Fits(buffer: Buf, msgLen: nat, maxPayloadLen: nat, gsoSize: nat, dgramCnt: nat, endBatch: bool) {
    && msgLen + |buffer.data| <= maxPayloadLen
    && msgLen <= gsoSize
    && msgLen <= buffer.cap - |buffer.data|
    && dgramCnt < UDP_SEGMENT_MAX_DATAGRAMS
    && !endBatch
  }

  lemma FitsFacts(buffer: Buf, msgLen: nat, maxPayloadLen: nat, gsoSize: nat, dgramCnt: nat, endBatch: bool)
    requires Fits(buffer, msgLen, maxPayloadLen, gsoSize, dgramCnt, endBatch)
    ensures msgLen + |buffer.data| <= maxPayloadLen && msgLen <= gsoSize && msgLen <= buffer.cap - |buffer.data|
    ensures dgramCnt < UDP_SEGMENT_MAX_DATAGRAMS && !endBatch
  {
  }

  /** What the code's test means for the group that is open. */
  lemma NotFitting(msgs: seq<Message>, base: int, gs: seq<seq<Bytes>>, addr: nat, ep: nat, maxPayload: nat,
                   gsoSize: nat, dgramCnt: nat, endBatch: bool, p: Bytes)
    requires Open(msgs, base, gs, addr, ep, maxPayload, gsoSize, dgramCnt, endBatch) && base >= 0
    requires !Fits(msgs[base].buffer, |p|, maxPayload, gsoSize, dgramCnt, endBatch)
    ensures |gs[base]| > 0 && Closed(gs[base], p, msgs[base].buffer.cap, maxPayload)
  {
    hide Concat;
  }

  lemma NoGroups(msgs: seq<Message>, bufs: seq<Buf>, maxPayload: nat)
    ensures Maximal([], msgs, maxPayload) && Backed([], msgs, bufs)
  {
  }

  /** The last group grows; the capacities stay. */
  lemma GroupGrows(gs: seq<seq<Bytes>>, msgs: seq<Message>, msgs': seq<Message>, base: int, p: Bytes, bufs: seq<Buf>,
                   maxPayload: nat)
    requires 0 <= base == |gs| - 1 < |msgs| == |msgs'| && |gs[base]| > 0
    requires Maximal(gs, msgs, maxPayload) && Backed(gs, msgs, bufs)
    requires forall k | 0 <= k < |gs| :: msgs'[k].buffer.cap == msgs[k].buffer.cap
    ensures Maximal(gs[base := gs[base] + [p]], msgs', maxPayload) && Backed(gs[base := gs[base] + [p]], msgs', bufs)
  {
    hide Concat, Closed;
    var gs' := gs[base := gs[base] + [p]];
    forall k | 0 <= k < |gs'| - 1 ensures ClosedAt(gs', msgs', maxPayload, k) {
      assert ClosedAt(gs, msgs, maxPayload, k);
    }
    forall k | 0 <= k < |gs'| ensures BackedAt(gs', msgs', bufs, k) {
      assert BackedAt(gs, msgs, bufs, k);
      assert gs'[..k] == gs[..k];
    }
  }

  /** A new group after the last one, which is closed to its datagram. */
  lemma GroupStarts(gs: seq<seq<Bytes>>, msgs: seq<Message>, msgs': seq<Message>, buf: Buf, bufs: seq<Buf>,
                    maxPayload: nat)
    requires |gs| < |msgs| == |msgs'| && |Concat(gs)| < |bufs| && bufs[|Concat(gs)|] == buf
    requires Maximal(gs, msgs, maxPayload) && Backed(gs, msgs, bufs)
    requires forall k | 0 <= k < |gs| :: msgs'[k].buffer.cap == msgs[k].buffer.cap
    requires msgs'[|gs|].buffer == buf
    requires |gs| > 0 ==> |gs[|gs| - 1]| > 0 && Closed(gs[|gs| - 1], buf.data, msgs[|gs| - 1].buffer.cap, maxPayload)
    ensures Maximal(gs + [[buf.data]], msgs', maxPayload) && Backed(gs + [[buf.data]], msgs', bufs)
  {
    hide Concat, Closed;
    var gs' := gs + [[buf.data]];
    forall k | 0 <= k < |gs'| - 1 ensures ClosedAt(gs', msgs', maxPayload, k) {
      if k < |gs| - 1 { assert ClosedAt(gs, msgs, maxPayload, k); }
    }
    forall k | 0 <= k < |gs'| ensures BackedAt(gs', msgs', bufs, k) {
      if k < |gs| {
        assert BackedAt(gs, msgs, bufs, k);
        assert gs'[..k] == gs[..k];
      } else {
        assert gs'[..k] == gs;
      }
    }
  }

  lemma OpenNothing(msgs: seq<Message>, addr: nat, ep: nat, maxPayload: nat)
    ensures Open(msgs, -1, [], addr, ep, maxPayload, 0, 0, false) && Concat([]) == Datas([])
  {
  }

  lemma OpenFacts(msgs: seq<Message>, base: int, gs: seq<seq<Bytes>>, addr: nat, ep: nat, maxPayload: nat,
                  gsoSize: nat, dgramCnt: nat, endBatch: bool)
    requires Open(msgs, base, gs, addr, ep, maxPayload, gsoSize, dgramCnt, endBatch)
    ensures |gs| == base + 1 <= |msgs| && (base >= 0 ==> dgramCnt == |gs[base]| >= 1) && (base < 0 ==> dgramCnt == 0)
    ensures forall k | 0 <= k < |gs| :: IsGroup(gs[k], maxPayload)
  {
  }

  // ---- What the receiver cuts ------------------------------------------------------------------

  /** data cut every size bytes. */
  function Cut(data: Bytes, size: nat): seq<Bytes>
    requires size > 0
  {
    if data == [] then [] else if |data| <= size then [data] else [data[..size]] + Cut(data[size..], size)
  }

  /** The datagrams that the kernel makes of a message. */
  function Datagrams(msg: Message): seq<Bytes> {
    if |msg.oob| == 2 && msg.oob[1].GSO? && msg.oob[1].size > 0 then Cut(msg.buffer.data, msg.oob[1].size)
    else [msg.buffer.data]
  }

  lemma {:induction false} ConcatFront(p: Bytes, g: seq<Bytes>)
    ensures Concat([p] + g) == p + Concat(g)
  {
    if g == [] {
      ConcatOne(p);
      assert [p] + g == [p];
    } else {
      var front, last := g[..|g| - 1], g[|g| - 1];
      ConcatFront(p, front);
      assert g == front + [last] && [p] + g == ([p] + front) + [last];
      hide Concat;
      ConcatMore([p] + front, last);
      ConcatMore(front, last);
    }
  }

  /** Cutting a group gives it back, unless it ends with an empty datagram. */
  lemma {:induction false} CutGroup(g: seq<Bytes>, size: nat)
    requires |g| > 0 && size > 0
    requires forall k | 0 <= k < |g| - 1 :: |g[k]| == size
    requires |g[|g| - 1]| <= size
    ensures g[|g| - 1] != [] ==> Cut(Concat(g), size) == g
    ensures g[|g| - 1] == [] ==> Cut(Concat(g), size) == g[..|g| - 1]
  {
    if |g| == 1 {
      ConcatOne(g[0]);
      assert g == [g[0]];
    } else {
      var rest := g[1..];
      assert g == [g[0]] + rest;
      ConcatFront(g[0], rest);
      CutGroup(rest, size);
      CutFront(g[0], Concat(rest), size);
    }
  }

  lemma CutFront(p: Bytes, data: Bytes, size: nat)
    requires |p| == size > 0
    ensures Cut(p + data, size) == [p] + Cut(data, size)
  {
    assert data == [] ==> p + data == p;
    assert data != [] ==> (p + data)[..size] == p && (p + data)[size..] == data;
  }

  /** A message gives back its datagrams if and only if it is a single datagram or its last
      one is not empty. */
  lemma MessageRecovers(msg: Message, g: seq<Bytes>, addr: nat, ep: nat, maxPayload: nat)
    requires Carries(msg, g, addr, ep) && IsGroup(g, maxPayload)
    ensures Datagrams(msg) == g <==> |g| == 1 || g[|g| - 1] != []
  {
    hide Concat, Cut;
    if |g| == 1 {
      ConcatOne(g[0]);
      assert g == [g[0]];
    } else if |g[0]| > 0 {
      CutGroup(g, |g[0]|);
    }
  }

  function AllDatagrams(msgs: seq<Message>): seq<Bytes> {
    if msgs == [] then [] else AllDatagrams(msgs[..|msgs| - 1]) + Datagrams(msgs[|msgs| - 1])
  }

  /** Non-empty buffers come out exactly as they went in. */
  lemma {:induction false} BatchRecovers(msgs: seq<Message>, gs: seq<seq<Bytes>>, addr: nat, ep: nat, maxPayload: nat)
    requires |msgs| == |gs|
    requires forall k | 0 <= k < |gs| :: IsGroup(gs[k], maxPayload) && Carries(msgs[k], gs[k], addr, ep)
    requires [] !in Concat(gs)
    ensures AllDatagrams(msgs) == Concat(gs)
  {
    hide Datagrams, IsGroup, Carries;
    if gs != [] {
      var n := |gs| - 1;
      ConcatMore(gs[..n], gs[n]);
      assert gs[..n] + [gs[n]] == gs;
      assert forall p | p in gs[n] :: p in Concat(gs);
      assert forall p | p in Concat(gs[..n]) :: p in Concat(gs);
      BatchRecovers(msgs[..n], gs[..n], addr, ep, maxPayload);
      GroupNotEmpty(gs[n], maxPayload);
      MessageRecovers(msgs[n], gs[n], addr, ep, maxPayload);
    }
  }

  lemma GroupNotEmpty(g: seq<Bytes>, maxPayload: nat)
    requires IsGroup(g, maxPayload)
    ensures |g| > 0 && g[|g| - 1] in g
  {
  }
}
