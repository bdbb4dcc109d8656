/** The in-place split of coalesced messages: the write index chases the read index. */
module SplitMessages {
  import opened Basics
  import opened Datagrams
  import Gso

  /** A received message: its buffer, the number of bytes received, the sender's address, and
      what its control message says about the segment size (None if it cannot be read). */
  datatype Slot = Slot(buffer: Bytes, N: nat, addr: nat, gso: Option<nat>)

  datatype Outcome = Done | BadControl | Overflow

  datatype Packet = Packet(data: Bytes, addr: nat)

  const BUFFER_SIZE := 0xffff

  /** Buffers all have the same size, which no length or segment size exceeds. */
  predicate Roomy(m: Slot) {
    |m.buffer| == BUFFER_SIZE && m.N <= BUFFER_SIZE && (m.gso.Some? ==> m.gso.value <= BUFFER_SIZE)
  }

  function Data(m: Slot): Bytes
    requires Roomy(m)
  {
    m.buffer[..m.N]
  }

  function Packets(ps: seq<Bytes>, addr: nat): seq<Packet> {
    seq(|ps|, i requires 0 <= i < |ps| => Packet(ps[i], addr))
  }

  /** The datagrams that the message stands for. */
  function Pieces(m: Slot): seq<Bytes>
    requires Roomy(m) && m.gso.Some?
  {
    if m.gso.value == 0 then [Data(m)] else Cut(Data(m), m.gso.value)
  }

  /** The slices that the code takes: the first one is not cut off at N. */
  function Slices(m: Slot): seq<Bytes>
    requires Roomy(m) && m.gso.Some?
  {
    if m.gso.value > m.N then [m.buffer[..m.gso.value]] else Pieces(m)
  }

  /** The code takes the datagrams if and only if the segment size does not exceed the
      number of bytes received. */
  lemma SlicesArePieces(m: Slot)
    requires Roomy(m) && m.gso.Some? && m.N > 0
    ensures Slices(m) == Pieces(m) <==> m.gso.value <= m.N
  {
    if m.gso.value > m.N {
      assert Pieces(m) == [Data(m)];
      assert Slices(m)[0] != Pieces(m)[0];
    }
  }

  /** A concrete message for which they differ. */
  lemma SegmentSizeTooLarge()
    ensures var m := Slot(seq(BUFFER_SIZE, _ => 7), 1, 0, Some(2));
      Roomy(m) && Slices(m) == [[7, 7]] && Pieces(m) == [[7]]
  {
    var b: Bytes := seq(BUFFER_SIZE, _ => 7);
    assert b[..2] == [7, 7] && b[..1] == [7];
  }

  /** The packets of the messages up to the first empty one. */
  function All(ms: seq<Slot>): seq<Packet>
    requires forall k | 0 <= k < |ms| :: Roomy(ms[k])
  {
    if ms == [] || ms[0].N == 0 || ms[0].gso.None? then [] else Packets(Slices(ms[0]), ms[0].addr) + All(ms[1..])
  }

  /** The number of messages before the first empty one. */
  function Taken(ms: seq<Slot>): (n: nat)
    ensures n <= |ms|
  {
    if ms == [] || ms[0].N == 0 then 0 else 1 + Taken(ms[1..])
  }

  const IDEAL_BATCH_SIZE := 128
  const UDP_SEGMENT_MAX_DATAGRAMS := 64

  /** Message k can be read, and the packets written up to its end, n of which were there
      before, do not outrun it; the first message is number i. */
  ghost predicate FitsAt(ms: seq<Slot>, i: nat, n: nat, k: nat)
    requires k < |ms| && forall k | 0 <= k < |ms| :: Roomy(ms[k])
  {
    ms[k].gso.Some? && n + |All(ms[..k + 1])| <= i + k + 1
  }

  /** Every message taken fits. */
  ghost predicate Fits(ms: seq<Slot>, i: nat, n: nat)
    requires forall k | 0 <= k < |ms| :: Roomy(ms[k])
  {
    forall k | 0 <= k < Taken(ms) :: FitsAt(ms, i, n, k)
  }

  /** The first message that cannot be split is one whose control cannot be read. */
  ghost predicate Unreadable(ms: seq<Slot>, i: nat, n: nat)
    requires forall k | 0 <= k < |ms| :: Roomy(ms[k])
  {
    exists k | 0 <= k < Taken(ms) :: ms[k].gso.None? && Fits(ms[..k], i, n)
  }

  /** What the two conditions say about the first message and the rest. */
  lemma FirstMessage(ms: seq<Slot>, i: nat, n: nat)
    requires ms != [] && ms[0].N > 0 && ms[0].gso.Some? && forall k | 0 <= k < |ms| :: Roomy(ms[k])
    ensures var n' := n + |Slices(ms[0])|;
      && (Fits(ms, i, n) <==> n' <= i + 1 && Fits(ms[1..], i + 1, n'))
      && (Unreadable(ms, i, n) <==> n' <= i + 1 && Unreadable(ms[1..], i + 1, n'))
  {
    hide Unreadable;
    FitsStep(ms, i, n);
    UnreadableStep(ms, i, n);
  }

  lemma AllStep(ms: seq<Slot>, k: nat)
    requires k < |ms| && ms[0].N > 0 && ms[0].gso.Some? && forall k | 0 <= k < |ms| :: Roomy(ms[k])
    ensures |All(ms[..k + 1])| == |Slices(ms[0])| + |All(ms[1..][..k])|
  {
    hide Slices;
    assert ms[..k + 1][1..] == ms[1..][..k];
  }

  lemma FitsStep(ms: seq<Slot>, i: nat, n: nat)
    requires ms != [] && ms[0].N > 0 && ms[0].gso.Some? && forall k | 0 <= k < |ms| :: Roomy(ms[k])
    ensures var n' := n + |Slices(ms[0])|; Fits(ms, i, n) <==> n' <= i + 1 && Fits(ms[1..], i + 1, n')
  {
    hide All, Slices, FitsAt;
    var rest, i', n' := ms[1..], i + 1, n + |Slices(ms[0])|;
    assert Taken(ms) == 1 + Taken(rest);
    FitsFirst(ms, i, n);
    if Fits(ms, i, n) {
      assert FitsAt(ms, i, n, 0);
      forall k | 0 <= k < Taken(rest) ensures FitsAt(rest, i', n', k) {
        assert FitsAt(ms, i, n, k + 1);
        FitsNext(ms, i, n, k);
      }
    }
    if n' <= i' && Fits(rest, i', n') {
      forall k | 0 <= k < Taken(ms) ensures FitsAt(ms, i, n, k) {
        if k > 0 {
          assert FitsAt(rest, i', n', k - 1);
          FitsNext(ms, i, n, k - 1);
        }
      }
    }
  }

  lemma FitsFirst(ms: seq<Slot>, i: nat, n: nat)
    requires ms != [] && ms[0].N > 0 && ms[0].gso.Some? && forall k | 0 <= k < |ms| :: Roomy(ms[k])
    ensures FitsAt(ms, i, n, 0) <==> n + |Slices(ms[0])| <= i + 1
  {
    hide Slices, All;
    NothingAll(ms[1..]);
    AllStep(ms, 0);
  }

  lemma FitsNext(ms: seq<Slot>, i: nat, n: nat, k: nat)
    requires k + 1 < |ms| && ms[0].N > 0 && ms[0].gso.Some? && forall k | 0 <= k < |ms| :: Roomy(ms[k])
    ensures FitsAt(ms, i, n, k + 1) <==> FitsAt(ms[1..], i + 1, n + |Slices(ms[0])|, k)
  {
    hide Slices, All;
    AllStep(ms, k + 1);
  }

  lemma NothingAll(ms: seq<Slot>)
    requires forall k | 0 <= k < |ms| :: Roomy(ms[k])
    ensures All(ms[..0]) == []
  {
  }

  lemma UnreadableStep(ms: seq<Slot>, i: nat, n: nat)
    requires ms != [] && ms[0].N > 0 && ms[0].gso.Some? && forall k | 0 <= k < |ms| :: Roomy(ms[k])
    ensures var n' := n + |Slices(ms[0])|; Unreadable(ms, i, n) <==> n' <= i + 1 && Unreadable(ms[1..], i + 1, n')
  {
    hide All, Slices, Fits;
    var rest, n' := ms[1..], n + |Slices(ms[0])|;
    assert Taken(ms) == 1 + Taken(rest);
    if Unreadable(ms, i, n) {
      var k :| 0 <= k < Taken(ms) && k < |ms| && ms[k].gso.None? && Fits(ms[..k], i, n);
      PrefixStep(ms, k - 1, i, n);
      assert rest[k - 1] == ms[k];
    }
    if n' <= i + 1 && Unreadable(rest, i + 1, n') {
      var k :| 0 <= k < Taken(rest) && k < |rest| && rest[k].gso.None? && Fits(rest[..k], i + 1, n');
      PrefixStep(ms, k, i, n);
      assert rest[k] == ms[k + 1];
    }
  }

  lemma PrefixStep(ms: seq<Slot>, k: nat, i: nat, n: nat)
    requires k < |ms| && ms[0].N > 0 && ms[0].gso.Some? && forall k | 0 <= k < |ms| :: Roomy(ms[k])
    ensures var n' := n + |Slices(ms[0])|; Fits(ms[..k + 1], i, n) <==> n' <= i + 1 && Fits(ms[1..][..k], i + 1, n')
  {
    hide Slices, Fits;
    FitsStep(ms[..k + 1], i, n);
    assert ms[..k + 1][1..] == ms[1..][..k];
  }

  /** What becomes of the split if the first message cannot be taken. */
  lemma NoFirst(ms: seq<Slot>, i: nat, n: nat)
    requires forall k | 0 <= k < |ms| :: Roomy(ms[k])
    requires ms == [] || ms[0].N == 0 || ms[0].gso.None?
    ensures Fits(ms, i, n) <==> ms == [] || ms[0].N == 0
    ensures Unreadable(ms, i, n) <==> !(ms == [] || ms[0].N == 0)
  {
    hide All;
    if ms != [] && ms[0].N > 0 {
      assert Taken(ms) > 0 && !FitsAt(ms, i, n, 0);
      assert Fits(ms[..0], i, n);
    }
  }

  /** The messages that the receiver asks for at a time always fit: IDEAL_BATCH_SIZE slots, of
      which the last IDEAL_BATCH_SIZE / UDP_SEGMENT_MAX_DATAGRAMS are read into. */
  lemma BatchFits(ms: seq<Slot>)
    requires |ms| == IDEAL_BATCH_SIZE / UDP_SEGMENT_MAX_DATAGRAMS
    requires forall k | 0 <= k < |ms| :: Roomy(ms[k]) && ms[k].gso.Some?
    requires forall k | 0 <= k < |ms| :: |Slices(ms[k])| <= UDP_SEGMENT_MAX_DATAGRAMS
    ensures Fits(ms, IDEAL_BATCH_SIZE - |ms|, 0)
  {
    hide Slices, All;
    var i := IDEAL_BATCH_SIZE - |ms|;
    assert |ms| == 2;
    if ms[0].N == 0 {
      NoFirst(ms, i, 0);
    } else {
      FirstMessage(ms, i, 0);
      var rest, n := ms[1..], |Slices(ms[0])|;
      if rest[0].N == 0 {
        NoFirst(rest, i + 1, n);
      } else {
        FirstMessage(rest, i + 1, n);
        NoFirst(rest[1..], i + 2, n + |Slices(rest[0])|);
      }
    }
  }

  ghost predicate Shows(m: Slot, p: Packet) {
    m.N == |p.data| && m.addr == p.addr && m.N <= |m.buffer| && m.buffer[..m.N] == p.data
  }

  lemma {:induction false} CutCount(data: Bytes, size: nat)
    requires size > 0
    ensures |Cut(data, size)| == (|data| + size - 1) / size
  {
    if |data| > size {
      CutCount(data[size..], size);
      NextQuotient(|data| - 1, size);
    } else if data != [] {
      NextQuotient(|data| - 1, size);
      SmallQuotient(|data| - 1, size);
    } else {
      SmallQuotient(size - 1, size);
    }
  }

  lemma NextQuotient(x: nat, d: nat)
    requires d > 0
    ensures (x + d) / d == x / d + 1
  {
    var q, r := x / d, x % d;
    assert x + d == (q + 1) * d + r;
    Gso.MulMono(q + 2, (x + d) / d, d);
    Gso.MulMono((x + d) / d, q, d);
    assert (q + 2) * d == q * d + 2 * d;
  }

  lemma SmallQuotient(x: nat, d: nat)
    requires x < d
    ensures x / d == 0
  {
  }

  lemma CutHead(data: Bytes, size: nat)
    requires size > 0 && data != []
    ensures var c, h := Cut(data, size), Min(size, |data|);
      |c| > 0 && c[0] == data[..h] && c[1..] == Cut(data[h..], size)
    ensures |Cut(data, size)| > 1 ==> |data| > size
  {
  }

  method SplitOne(msgs: array<Slot>, i: nat, n0: nat) returns (n: nat, ok: bool)
    requires i < msgs.Length && n0 <= i && Roomy(msgs[i]) && msgs[i].gso.Some? && msgs[i].N > 0
    requires forall k | 0 <= k < msgs.Length :: |msgs[k].buffer| == BUFFER_SIZE
    modifies msgs
    ensures ok <==> n0 + |Slices(old(msgs[i]))| <= i + 1
    ensures ok ==> n == n0 + |Slices(old(msgs[i]))| > n0
    ensures ok ==> forall k | n0 <= k < n :: Shows(msgs[k], Packet(Slices(old(msgs[i]))[k - n0], old(msgs[i].addr)))
    ensures forall k | 0 <= k < n0 || n <= k < i || i < k < msgs.Length :: msgs[k] == old(msgs[k])
    ensures forall k | 0 <= k < msgs.Length :: |msgs[k].buffer| == BUFFER_SIZE && msgs[k].gso == old(msgs[k].gso)
  {
    hide Slices, IsNext, Cut, Split;
    ghost var src := msgs[i];
    ghost var all := Slices(src);
    n, ok := n0, true;
    var gsoSize := msgs[i].gso.value;
    var start, end, numToSplit := 0, msgs[i].N, 1;
    if gsoSize > 0 {
      numToSplit := (msgs[i].N + gsoSize - 1) / gsoSize;
      end := gsoSize;
    }
    StartSlices(src);
    SplitNothing(msgs[..], i, n0, all);
    var j := 0;
    while j < numToSplit
      invariant 0 <= j <= numToSplit == |all| && n == n0 + j <= i + 1
      invariant 0 <= start && 0 <= end && (j < |all| && n <= i ==> IsNext(src, all, j, start, end))
      invariant Split(old(msgs[..]), msgs[..], i, n0, n, all)
    {
      if n > i {
        SplitFacts(old(msgs[..]), msgs[..], i, n0, n, all);
        return n, false;
      }
      NextSlice(src, all, j, start, end);
      SplitStep(old(msgs[..]), msgs[..], i, n0, n, all, start, end);
      ghost var before := msgs[..];
      msgs[n] := Copied(msgs[n], msgs[i], start, end);
      assert msgs[..] == before[n := msgs[n]];
      start := end;
      end := end + gsoSize;
      if end > msgs[i].N {
        end := msgs[i].N;
      }
      n := n + 1;
      j := j + 1;
    }
    SplitFacts(old(msgs[..]), msgs[..], i, n0, n, all);
  }

  /** The slice of src copied to the front of dst. */
  function Copied(dst: Slot, src: Slot, start: nat, end: nat): Slot
    requires |dst.buffer| == |src.buffer| && start <= end <= |src.buffer|
  {
    dst.(buffer := src.buffer[start..end] + dst.buffer[end - start..], N := end - start, addr := src.addr)
  }

  /** n - n0 slices of message i have been written; message i itself is intact until the
      write index reaches it. */
  ghost predicate Split(was: seq<Slot>, now: seq<Slot>, i: nat, n0: nat, n: nat, all: seq<Bytes>) {
    && |was| == |now| && i < |was| && n0 <= n <= i + 1 && n - n0 <= |all|
    && (n <= i ==> now[i] == was[i])
    && (forall k | n0 <= k < n :: Shows(now[k], Packet(all[k - n0], was[i].addr)))
    && (forall k | 0 <= k < n0 || n <= k < i || i < k < |was| :: now[k] == was[k])
    && (forall k | 0 <= k < |was| :: |now[k].buffer| == BUFFER_SIZE && now[k].gso == was[k].gso)
  }

  lemma SplitStep(was: seq<Slot>, now: seq<Slot>, i: nat, n0: nat, n: nat, all: seq<Bytes>, start: nat, end: nat)
    requires Split(was, now, i, n0, n, all) && n <= i && n - n0 < |all|
    requires start <= end <= BUFFER_SIZE && |was[i].buffer| == BUFFER_SIZE && all[n - n0] == was[i].buffer[start..end]
    ensures |now| == |was| && now[i] == was[i] && |now[n].buffer| == BUFFER_SIZE
    ensures Split(was, now[n := Copied(now[n], now[i], start, end)], i, n0, n + 1, all)
    ensures n < i ==> now[n := Copied(now[n], now[i], start, end)][i] == was[i]
  {
    var m := Copied(now[n], now[i], start, end);
    assert m.buffer[..m.N] == was[i].buffer[start..end];
  }

  lemma SplitNothing(was: seq<Slot>, i: nat, n0: nat, all: seq<Bytes>)
    requires i < |was| && n0 <= i && forall k | 0 <= k < |was| :: |was[k].buffer| == BUFFER_SIZE
    ensures Split(was, was, i, n0, n0, all)
  {
  }

  lemma SplitFacts(was: seq<Slot>, now: seq<Slot>, i: nat, n0: nat, n: nat, all: seq<Bytes>)
    requires Split(was, now, i, n0, n, all)
    ensures |was| == |now| && i < |was| && n0 <= n <= i + 1 && n - n0 <= |all|
    ensures forall k | n0 <= k < n :: Shows(now[k], Packet(all[k - n0], was[i].addr))
    ensures forall k | 0 <= k < n0 || n <= k < i || i < k < |was| :: now[k] == was[k]
    ensures forall k | 0 <= k < |was| :: |now[k].buffer| == BUFFER_SIZE && now[k].gso == was[k].gso
  {
  }

  /** all[j] is the slice from start to end, and the rest comes from what follows. */
  ghost predicate IsNext(m: Slot, all: seq<Bytes>, j: nat, start: nat, end: nat)
    requires Roomy(m) && m.gso.Some? && j < |all|
  {
    && start <= end <= BUFFER_SIZE && all[j] == m.buffer[start..end]
    && (if m.gso.value == 0 || m.gso.value > m.N then j == |all| - 1
        else start < m.N && end == Min(start + m.gso.value, m.N) && all[j..] == Cut(m.buffer[start..m.N], m.gso.value))
  }

  lemma StartSlices(m: Slot)
    requires Roomy(m) && m.gso.Some? && m.N > 0
    ensures |Slices(m)| == if m.gso.value > 0 then (m.N + m.gso.value - 1) / m.gso.value else 1
    ensures |Slices(m)| > 0 && IsNext(m, Slices(m), 0, 0, if m.gso.value > 0 then m.gso.value else m.N)
  {
    hide Cut;
    var g := m.gso.value;
    if 0 < g <= m.N {
      CutCount(Data(m), g);
      CutHead(Data(m), g);
      assert Data(m)[..g] == m.buffer[..g];
      assert Slices(m)[0..] == Slices(m);
      assert m.buffer[0..m.N] == Data(m);
    } else if g > m.N {
      NextQuotient(m.N - 1, g);
      SmallQuotient(m.N - 1, g);
    }
  }

  lemma NextSlice(m: Slot, all: seq<Bytes>, j: nat, start: nat, end: nat)
    requires Roomy(m) && m.gso.Some? && j < |all| && IsNext(m, all, j, start, end)
    ensures start <= end <= BUFFER_SIZE && all[j] == m.buffer[start..end]
    ensures j + 1 < |all| ==> end <= m.N && IsNext(m, all, j + 1, end, Min(end + m.gso.value, m.N))
  {
    hide Cut;
    if j + 1 < |all| {
      var g, d := m.gso.value, m.buffer[start..m.N];
      CutHead(d, g);
      assert |all[j..]| > 1;
      assert all[j..][1..] == all[j + 1..];
      var e := m.buffer[end..m.N];
      assert d[g..] == e;
      CutHead(e, g);
      assert all[j + 1] == all[j + 1..][0];
      assert e[..Min(g, |e|)] == m.buffer[end..Min(end + g, m.N)];
    }
  }

  /** Messages up to i were taken and n packets written; the messages from i on are intact. */
  ghost predicate Progress(was: seq<Slot>, now: seq<Slot>, firstMsgAt: nat, i: nat, n: nat, all: seq<Packet>) {
    && |was| == |now| && firstMsgAt <= i <= |was| && |all| == n <= i
    && (forall k | 0 <= k < |was| :: |now[k].buffer| == BUFFER_SIZE)
    && (forall k | 0 <= k < n :: Shows(now[k], all[k]))
    && (forall k | firstMsgAt <= k < i && n <= k :: now[k].N == 0)
    && (forall k | i <= k < |was| :: now[k] == was[k])
  }

  lemma ProgressStep(was: seq<Slot>, mid: seq<Slot>, now: seq<Slot>, now': seq<Slot>, firstMsgAt: nat, i: nat, n: nat,
                     n': nat, all: seq<Packet>)
    requires Progress(was, mid, firstMsgAt, i, n, all) && i < |was| && Roomy(was[i]) && was[i].gso.Some?
    requires n' == n + |Slices(was[i])| <= i + 1 && |now| == |mid| == |now'| && n < n'
    requires forall k | n <= k < n' :: Shows(now[k], Packet(Slices(was[i])[k - n], was[i].addr))
    requires forall k | 0 <= k < n || i < k < |was| :: now[k] == mid[k]
    requires forall k | 0 <= k < |was| :: |now[k].buffer| == BUFFER_SIZE
    requires now' == if i != n' - 1 then now[i := now[i].(N := 0)] else now
    requires n' <= i ==> forall k | n' <= k < i :: now[k] == mid[k]
    ensures Progress(was, now', firstMsgAt, i + 1, n', all + Packets(Slices(was[i]), was[i].addr))
  {
    var all' := all + Packets(Slices(was[i]), was[i].addr);
    hide Slices;
    forall k | 0 <= k < n' ensures Shows(now'[k], all'[k]) {
      if k < n { assert Shows(mid[k], all[k]); }
    }
  }

  method SplitCoalescedMessages(msgs: array<Slot>, firstMsgAt: nat) returns (n: nat, outcome: Outcome)
    requires firstMsgAt <= msgs.Length
    requires forall k | 0 <= k < msgs.Length :: |msgs[k].buffer| == BUFFER_SIZE
    requires forall k | firstMsgAt <= k < msgs.Length :: Roomy(msgs[k])
    modifies msgs
    ensures outcome.Done? <==> Fits(old(msgs[firstMsgAt..]), firstMsgAt, 0)
    ensures outcome.BadControl? <==> Unreadable(old(msgs[firstMsgAt..]), firstMsgAt, 0)
    ensures outcome.Done? ==> n == |All(old(msgs[firstMsgAt..]))| && forall k | 0 <= k < n ::
      k < msgs.Length && Shows(msgs[k], All(old(msgs[firstMsgAt..]))[k])
    ensures outcome.Done? ==> forall k | firstMsgAt <= k < firstMsgAt + Taken(old(msgs[firstMsgAt..])) && n <= k ::
      k < msgs.Length && msgs[k].N == 0
  {
    hide Progress, Slices, All, Taken, Shows, Fits, Unreadable;
    ghost var was := msgs[..];
    ghost var all: seq<Packet> := [];
    n := 0;
    ProgressStart(was, firstMsgAt);
    var i := firstMsgAt;
    while i < msgs.Length
      invariant firstMsgAt <= i <= msgs.Length && Progress(was, msgs[..], firstMsgAt, i, n, all)
      invariant all + All(was[i..]) == All(was[firstMsgAt..])
      invariant Taken(was[firstMsgAt..]) == i - firstMsgAt + Taken(was[i..])
      invariant Fits(was[firstMsgAt..], firstMsgAt, 0) <==> Fits(was[i..], i, n)
      invariant Unreadable(was[firstMsgAt..], firstMsgAt, 0) <==> Unreadable(was[i..], i, n)
    {
      ProgressFacts(was, msgs[..], firstMsgAt, i, n, all);
      ListStep(was, i);
      FitStep(was, i, n);
      if msgs[i].N == 0 {
        return n, Done;
      }
      if msgs[i].gso.None? {
        return n, BadControl;
      }
      ghost var n0, mid := n, msgs[..];
      var ok;
      n, ok := SplitOne(msgs, i, n);
      if !ok {
        return n, Overflow;
      }
      ghost var now := msgs[..];
      if i != n - 1 {
        msgs[i] := msgs[i].(N := 0);
      }
      assert msgs[..] == if i != n - 1 then now[i := now[i].(N := 0)] else now;
      ProgressStep(was, mid, now, msgs[..], firstMsgAt, i, n0, n, all);
      all := all + Packets(Slices(was[i]), was[i].addr);
      i := i + 1;
    }
    ProgressFacts(was, msgs[..], firstMsgAt, i, n, all);
    ListEnd(was);
    NoFirst(was[|was|..], i, n);
    return n, Done;
  }

  lemma ProgressStart(was: seq<Slot>, firstMsgAt: nat)
    requires firstMsgAt <= |was| && forall k | 0 <= k < |was| :: |was[k].buffer| == BUFFER_SIZE
    ensures Progress(was, was, firstMsgAt, firstMsgAt, 0, [])
  {
  }

  lemma ProgressFacts(was: seq<Slot>, now: seq<Slot>, firstMsgAt: nat, i: nat, n: nat, all: seq<Packet>)
    requires Progress(was, now, firstMsgAt, i, n, all)
    ensures |was| == |now| && |all| == n <= i <= |was|
    ensures forall k | 0 <= k < |was| :: |now[k].buffer| == BUFFER_SIZE
    ensures forall k | 0 <= k < n :: Shows(now[k], all[k])
    ensures forall k | firstMsgAt <= k < i && n <= k :: now[k].N == 0
    ensures forall k | i <= k < |was| :: now[k] == was[k]
  {
  }

  lemma ListStep(was: seq<Slot>, i: nat)
    requires i < |was| && forall k | i <= k < |was| :: Roomy(was[k])
    ensures was[i].N == 0 ==> All(was[i..]) == [] && Taken(was[i..]) == 0
    ensures was[i].N > 0 ==> Taken(was[i..]) == 1 + Taken(was[i + 1..])
    ensures was[i].N > 0 && was[i].gso.Some? ==>
      All(was[i..]) == Packets(Slices(was[i]), was[i].addr) + All(was[i + 1..])
  {
    assert was[i..][1..] == was[i + 1..];
  }

  lemma FitStep(was: seq<Slot>, i: nat, n: nat)
    requires i < |was| && forall k | i <= k < |was| :: Roomy(was[k])
    ensures was[i].N == 0 || was[i].gso.None? ==>
      && (Fits(was[i..], i, n) <==> was[i].N == 0) && (Unreadable(was[i..], i, n) <==> was[i].N > 0)
    ensures was[i].N > 0 && was[i].gso.Some? ==> var n' := n + |Slices(was[i])|;
      && (Fits(was[i..], i, n) <==> n' <= i + 1 && Fits(was[i + 1..], i + 1, n'))
      && (Unreadable(was[i..], i, n) <==> n' <= i + 1 && Unreadable(was[i + 1..], i + 1, n'))
  {
    hide Slices, Fits, Unreadable;
    var ms := was[i..];
    assert ms[1..] == was[i + 1..] && ms[0] == was[i];
    if was[i].N == 0 || was[i].gso.None? { NoFirst(ms, i, n); } else { FirstMessage(ms, i, n); }
  }

  lemma ListEnd(was: seq<Slot>)
    ensures All(was[|was|..]) == [] && Taken(was[|was|..]) == 0
  {
  }
}
