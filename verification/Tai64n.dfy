/** TAI64N stamps: comparing their bytes is comparing the instants, to within the whitening. */
module Tai64n {
  import opened Basics
  import opened Checksum

  const BASE := 0x4000_0000_0000_000a
  const WHITENER := 0x100_0000
  const NANOS_PER_SECOND := 1_000_000_000
  const REKEY_TIMEOUT := 5 * NANOS_PER_SECOND

  /** An instant: seconds since 1970 and nanoseconds. */
  datatype Instant = Instant(secs: int, nanos: nat)

  predicate Proper(t: Instant) {
    && t.nanos < NANOS_PER_SECOND
    && 0 <= BASE + t.secs < TWO_64
  }

  function Nanos(t: Instant): int { t.secs * NANOS_PER_SECOND + t.nanos }

  /** Nanoseconds without their 24 low bits. */
  function Whitened(nanos: nat): nat { nanos - nanos % WHITENER }

  /** Seconds as the source adds them: in 64 bits. */
  function Label(secs: int): U64 { (BASE + secs) % TWO_64 }

  function Stamp(t: Instant): Bytes {
    PutNative(Label(t.secs), 8, true) + PutNative(Whitened(t.nanos), 4, true)
  }

  /** The lexicographic comparison of bytes.Compare. */
  predicate After(a: Bytes, b: Bytes) {
    if a == [] then false
    else if b == [] then true
    else if a[0] != b[0] then a[0] > b[0]
    else After(a[1..], b[1..])
  }

  // ---- Bytes and numbers -----------------------------------------------------------------------

  lemma {:induction false} AfterPrefix(p: Bytes, a: Bytes, b: Bytes)
    ensures After(p + a, p + b) <==> After(a, b)
  {
    if p == [] {
      assert p + a == a && p + b == b;
    } else {
      AfterPrefix(p[1..], a, b);
      assert (p + a)[1..] == p[1..] + a && (p + b)[1..] == p[1..] + b;
    }
  }

  /** Strings of equal length: a difference early on decides, whatever follows. */
  lemma {:induction false} AfterDecided(a: Bytes, b: Bytes, x: Bytes, y: Bytes)
    requires |a| == |b| && a != b
    ensures After(a + x, b + y) <==> After(a, b)
  {
    if a[0] == b[0] {
      AfterDecided(a[1..], b[1..], x, y);
      assert (a + x)[1..] == a[1..] + x && (b + y)[1..] == b[1..] + y;
    }
  }

  lemma {:induction false} BigEndianOrder(x: nat, y: nat, n: nat)
    requires x < Pow256(n) && y < Pow256(n)
    ensures After(PutNative(x, n, true), PutNative(y, n, true)) <==> x > y
    ensures PutNative(x, n, true) == PutNative(y, n, true) <==> x == y
  {
    if n > 0 {
      var a, b, c, d := x / 256, y / 256, [x % 256], [y % 256];
      BigEndianOrder(a, b, n - 1);
      var p, q := PutNative(a, n - 1, true), PutNative(b, n - 1, true);
      if a == b {
        AfterPrefix(p, c, d);
        assert (p + c)[n - 1] == x % 256 && (q + d)[n - 1] == y % 256;
      } else {
        AfterDecided(p, q, c, d);
        assert (p + c)[..n - 1] == p && (q + d)[..n - 1] == q;
      }
    }
  }

  lemma Widths()
    ensures Pow256(4) == 0x1_0000_0000 && Pow256(8) == TWO_64
  {
    assert Pow256(2) == 0x1_0000;
    assert Pow256(4) == 0x1_0000 * Pow256(2);
    assert Pow256(6) == 0x1_0000 * Pow256(4);
    assert Pow256(8) == 0x1_0000 * Pow256(6);
  }

  // ---- Stamps ------------------------------------------------------------------------------------

  lemma WhitenedOrder(x: nat, y: nat)
    ensures Whitened(x) > Whitened(y) <==> x / WHITENER > y / WHITENER
    ensures Whitened(x) <= x && Whitened(y) <= y
  {
    assert Whitened(x) == WHITENER * (x / WHITENER) && Whitened(y) == WHITENER * (y / WHITENER);
  }

  lemma LabelOrder(t: Instant, u: Instant)
    requires Proper(t) && Proper(u)
    ensures Label(t.secs) - Label(u.secs) == t.secs - u.secs
  {
  }

  /** Stamps compare as pairs of seconds and whitened nanoseconds. */
  lemma StampOrder(t: Instant, u: Instant)
    requires Proper(t) && Proper(u)
    ensures After(Stamp(t), Stamp(u)) <==>
      t.secs > u.secs || (t.secs == u.secs && t.nanos / WHITENER > u.nanos / WHITENER)
  {
    hide PutNative, Pow256, After, Whitened, Label;
    Widths();
    LabelOrder(t, u);
    WhitenedOrder(t.nanos, u.nanos);
    var a: nat, b: nat, c, d := Label(t.secs), Label(u.secs), Whitened(t.nanos), Whitened(u.nanos);
    BigEndianOrder(a, b, 8);
    BigEndianOrder(c, d, 4);
    if a == b {
      AfterPrefix(PutNative(a, 8, true), PutNative(c, 4, true), PutNative(d, 4, true));
    } else {
      AfterDecided(PutNative(a, 8, true), PutNative(b, 8, true), PutNative(c, 4, true), PutNative(d, 4, true));
    }
  }

  /** A later instant is stamped strictly later unless it falls into the same second and the
      same whitening block; in particular instants 2^24 ns apart always are. */
  lemma StampLater(t: Instant, u: Instant)
    requires Proper(t) && Proper(u) && Nanos(t) > Nanos(u)
    ensures After(Stamp(t), Stamp(u)) <==> !SameBlock(t, u)
    ensures Nanos(t) >= Nanos(u) + WHITENER ==> After(Stamp(t), Stamp(u))
    ensures !After(Stamp(u), Stamp(t))
  {
    StampOrder(t, u);
    StampOrder(u, t);
  }

  lemma {:induction false} ZeroBytes(n: nat)
    ensures PutNative(0, n, true) == seq(n, _ => 0)
  {
    if n > 0 { ZeroBytes(n - 1); }
  }

  /** Every stamp but that of the first instant of all is later than the zero stamp of a peer
      that has not been heard of. */
  lemma LaterThanZero(t: Instant)
    requires Proper(t)
    ensures After(Stamp(t), seq(12, _ => 0)) <==> t.secs > -BASE || t.nanos >= WHITENER
  {
    hide After, PutNative;
    ZeroBytes(8);
    ZeroBytes(4);
    var first := Instant(-BASE, 0);
    assert Stamp(first) == seq(12, _ => 0);
    StampOrder(t, first);
  }

  // ---- The replay check over a run of initiations -------------------------------------------------

  /** The stamps that pass the replay check when they are consumed in order. */
  function Consume(last: Bytes, stamps: seq<Bytes>): seq<Bytes>
    decreases |stamps|
  {
    if stamps == [] then []
    else if After(stamps[0], last) then [stamps[0]] + Consume(stamps[0], stamps[1..])
    else Consume(last, stamps[1..])
  }

  function Stamps(ts: seq<Instant>): seq<Bytes> {
    seq(|ts|, i requires 0 <= i < |ts| => Stamp(ts[i]))
  }

  ghost predicate InOrder(ts: seq<Instant>) {
    && (forall i | 0 <= i < |ts| :: Proper(ts[i]))
    && (forall i, j | 0 <= i < j < |ts| :: Nanos(ts[i]) <= Nanos(ts[j]))
  }

  /** Two instants that the stamps cannot tell apart. */
  predicate SameBlock(t: Instant, u: Instant) {
    t.secs == u.secs && t.nanos / WHITENER == u.nanos / WHITENER
  }

  ghost predicate Distinguishable(ts: seq<Instant>) {
    forall i | 0 < i < |ts| :: !SameBlock(ts[i], ts[i - 1])
  }

  lemma StampAfter(t: Instant, u: Instant)
    requires Proper(t) && Proper(u) && Nanos(u) <= Nanos(t)
    ensures After(Stamp(t), Stamp(u)) <==> !SameBlock(t, u)
  {
    StampOrder(t, u);
  }

  lemma {:induction false} ConsumeShrinks(last: Bytes, stamps: seq<Bytes>)
    ensures |Consume(last, stamps)| <= |stamps|
    decreases |stamps|
  {
    if stamps != [] {
      ConsumeShrinks(if After(stamps[0], last) then stamps[0] else last, stamps[1..]);
    }
  }

  /** Initiations consumed in the order in which they were stamped are all accepted if and
      only if no two neighbours fall into the same second and whitening block. */
  lemma {:induction false} AllAccepted(last: Bytes, ts: seq<Instant>)
    requires InOrder(ts) && (ts != [] ==> After(Stamp(ts[0]), last))
    ensures Consume(last, Stamps(ts)) == Stamps(ts) <==> Distinguishable(ts)
    decreases |ts|
  {
    hide After, Stamp, SameBlock, Nanos;
    if |ts| >= 2 {
      var rest := ts[1..];
      assert Stamps(ts)[1..] == Stamps(rest);
      assert Stamps(ts) == [Stamp(ts[0])] + Stamps(rest);
      StampAfter(ts[1], ts[0]);
      TailDistinguishable(ts);
      if SameBlock(ts[1], ts[0]) {
        ConsumeShrinks(Stamp(ts[0]), Stamps(rest)[1..]);
      } else {
        AllAccepted(Stamp(ts[0]), rest);
      }
    }
  }

  lemma TailDistinguishable(ts: seq<Instant>)
    requires |ts| >= 2
    ensures Distinguishable(ts) <==> !SameBlock(ts[1], ts[0]) && Distinguishable(ts[1..])
  {
    hide SameBlock;
    var rest := ts[1..];
    assert forall i | 0 <= i < |rest| :: rest[i] == ts[i + 1];
    if !SameBlock(ts[1], ts[0]) && Distinguishable(rest) {
      forall i | 0 < i < |ts| ensures !SameBlock(ts[i], ts[i - 1]) {
        if i > 1 { assert !SameBlock(rest[i - 1], rest[i - 2]); }
      }
    }
    if Distinguishable(ts) {
      forall i | 0 < i < |rest| ensures !SameBlock(rest[i], rest[i - 1]) {
        assert !SameBlock(ts[i + 1], ts[i]);
      }
    }
  }

  // ---- The sender's gate -----------------------------------------------------------------------------

  /** Go's zero time, in nanoseconds since 1970: the start value of every time field. */
  const ZERO_TIME := -62_135_596_800 * NANOS_PER_SECOND

  /** An initiation under way: when the gate was tried, and when the message was stamped. */
  datatype Sending = Sending(at: Instant, stamped: Instant)

  /** What happens to lastSentHandshake: an attempt to send an initiation, a response, and the
      resets by which Start and ExpireCurrentKeypairs open the gate again. */
  datatype GateStep = Attempt(sending: Sending) | Answer(at: Instant) | Reset(at: Instant)

  predicate Passes(lastSent: int, t: Instant) { Nanos(t) - lastSent >= REKEY_TIMEOUT }

  function GateNext(lastSent: int, step: GateStep): int {
    match step
    case Attempt(x) => if Passes(lastSent, x.at) then Nanos(x.at) else lastSent
    case Answer(t) => Nanos(t)
    case Reset(t) => Nanos(t) - (REKEY_TIMEOUT + NANOS_PER_SECOND)
  }

  /** What one step sends. */
  function Passing(lastSent: int, step: GateStep): seq<Sending> {
    if step.Attempt? && Passes(lastSent, step.sending.at) then [step.sending] else []
  }

  /** The attempts that pass the gate. */
  function Sent(lastSent: int, steps: seq<GateStep>): seq<Sending>
    decreases |steps|
  {
    if steps == [] then [] else Passing(lastSent, steps[0]) + Sent(GateNext(lastSent, steps[0]), steps[1..])
  }

  function StampedAt(xs: seq<Sending>): seq<Instant> {
    seq(|xs|, i requires 0 <= i < |xs| => xs[i].stamped)
  }

  function Began(step: GateStep): Instant { if step.Attempt? then step.sending.at else step.at }

  function Ended(step: GateStep): Instant { if step.Attempt? then step.sending.stamped else step.at }

  /** The clock never runs backwards. */
  ghost predicate Clocked(steps: seq<GateStep>) {
    && (forall i | 0 <= i < |steps| :: Proper(Ended(steps[i])) && Nanos(Began(steps[i])) <= Nanos(Ended(steps[i])))
    && (forall i, j | 0 <= i < j < |steps| :: Nanos(Ended(steps[i])) <= Nanos(Began(steps[j])))
  }

  ghost predicate NoReset(steps: seq<GateStep>) {
    forall i | 0 <= i < |steps| :: !steps[i].Reset?
  }

  ghost predicate Since(lastSent: int, steps: seq<GateStep>) {
    forall i | 0 <= i < |steps| :: lastSent <= Nanos(Began(steps[i]))
  }

  lemma StepsOn(lastSent: int, steps: seq<GateStep>)
    requires steps != [] && Clocked(steps)
    ensures Clocked(steps[1..]) && (NoReset(steps) ==> NoReset(steps[1..]))
    ensures Since(lastSent, steps) && !steps[0].Reset? ==>
      lastSent <= GateNext(lastSent, steps[0]) && Since(GateNext(lastSent, steps[0]), steps[1..])
  {
    hide Nanos, Proper;
    var rest := steps[1..];
    assert forall i | 0 <= i < |rest| :: rest[i] == steps[i + 1];
    assert Nanos(Began(steps[0])) <= Nanos(Ended(steps[0]));
  }

  /** Passes are RekeyTimeout apart, and the first one comes that much after the last pass. */
  ghost predicate Spaced(lastSent: int, xs: seq<Sending>) {
    && (xs != [] ==> Nanos(xs[0].at) - lastSent >= REKEY_TIMEOUT)
    && (forall i | 0 < i < |xs| :: Nanos(xs[i].at) - Nanos(xs[i - 1].at) >= REKEY_TIMEOUT)
  }

  /** Without a reset in between, attempts pass the gate at least RekeyTimeout apart. */
  lemma {:induction false} GateSpaces(lastSent: int, steps: seq<GateStep>)
    requires NoReset(steps) && Clocked(steps) && Since(lastSent, steps)
    ensures Spaced(lastSent, Sent(lastSent, steps))
    decreases |steps|
  {
    hide Nanos, Clocked, Since;
    if steps != [] {
      var next, rest := GateNext(lastSent, steps[0]), steps[1..];
      StepsOn(lastSent, steps);
      GateSpaces(next, rest);
      if steps[0].Attempt? && Passes(lastSent, steps[0].sending.at) {
        SpacedMore(lastSent, steps[0].sending, Sent(next, rest));
      } else {
        assert Sent(lastSent, steps) == Sent(next, rest);
      }
    }
  }

  lemma SpacedMore(lastSent: int, x: Sending, xs: seq<Sending>)
    requires Passes(lastSent, x.at) && Spaced(Nanos(x.at), xs)
    ensures Spaced(lastSent, [x] + xs)
  {
    hide Nanos;
    var all := [x] + xs;
    forall i | 0 < i < |all| ensures Nanos(all[i].at) - Nanos(all[i - 1].at) >= REKEY_TIMEOUT {
      assert all[i] == xs[i - 1];
      if i > 1 { assert all[i - 1] == xs[i - 2]; }
    }
  }

  /** What a longer run sends. */
  lemma {:induction false} SentMore(lastSent: int, pre: seq<GateStep>, post: seq<GateStep>)
    ensures Sent(lastSent, pre + post) == Sent(lastSent, pre) + Sent(GateAfter(lastSent, pre), post)
    decreases |pre|
  {
    if pre == [] {
      assert pre + post == post;
    } else {
      assert (pre + post)[1..] == pre[1..] + post;
      SentMore(GateNext(lastSent, pre[0]), pre[1..], post);
    }
  }

  function GateAfter(lastSent: int, steps: seq<GateStep>): int
    decreases |steps|
  {
    if steps == [] then lastSent else GateAfter(GateNext(lastSent, steps[0]), steps[1..])
  }

  /** A response delays the next initiation: in any run, what is sent after a response, and before
      a reset, is sent at least RekeyTimeout after it. */
  lemma AnswerDelays(lastSent: int, pre: seq<GateStep>, t: Instant, post: seq<GateStep>)
    requires Clocked(pre + [Answer(t)] + post) && NoReset(post)
    ensures var sent := Sent(lastSent, pre + [Answer(t)] + post);
      && |Sent(lastSent, pre)| <= |sent| && sent[..|Sent(lastSent, pre)|] == Sent(lastSent, pre)
      && forall i | |Sent(lastSent, pre)| <= i < |sent| :: Nanos(sent[i].at) - Nanos(t) >= REKEY_TIMEOUT
  {
    hide Nanos, Sent, GateAfter;
    var all, gate := pre + [Answer(t)] + post, GateAfter(lastSent, pre);
    assert all == pre + ([Answer(t)] + post);
    SentMore(lastSent, pre, [Answer(t)] + post);
    SentMore(gate, [Answer(t)], post);
    AnswerSends(gate, t);
    ClockedAfter(pre, t, post);
    GateSpaces(Nanos(t), post);
    SpacedSince(Nanos(t), Sent(Nanos(t), post));
  }

  lemma AnswerSends(lastSent: int, t: Instant)
    ensures Sent(lastSent, [Answer(t)]) == [] && GateAfter(lastSent, [Answer(t)]) == Nanos(t)
  {
  }

  lemma ClockedAfter(pre: seq<GateStep>, t: Instant, post: seq<GateStep>)
    requires Clocked(pre + [Answer(t)] + post)
    ensures Clocked(post) && Since(Nanos(t), post)
  {
    hide Nanos, Proper;
    var all, at := pre + [Answer(t)] + post, |pre|;
    assert all[at] == Answer(t) && forall i | 0 <= i < |post| :: post[i] == all[at + 1 + i];
  }

  lemma {:induction false} SpacedFrom(lastSent: int, xs: seq<Sending>, i: nat)
    requires Spaced(lastSent, xs) && i < |xs|
    ensures Nanos(xs[i].at) - lastSent >= REKEY_TIMEOUT
  {
    hide Nanos;
    if i > 0 { SpacedFrom(lastSent, xs, i - 1); }
  }

  lemma SpacedSince(lastSent: int, xs: seq<Sending>)
    requires Spaced(lastSent, xs)
    ensures forall i | 0 <= i < |xs| :: Nanos(xs[i].at) - lastSent >= REKEY_TIMEOUT
  {
    forall i | 0 <= i < |xs| ensures Nanos(xs[i].at) - lastSent >= REKEY_TIMEOUT { SpacedFrom(lastSent, xs, i); }
  }

  /** Each initiation is sent after the one before it was stamped. */
  ghost predicate Ordered(xs: seq<Sending>) {
    && (forall i | 0 <= i < |xs| :: Proper(xs[i].stamped) && Nanos(xs[i].at) <= Nanos(xs[i].stamped))
    && (forall i, j | 0 <= i < j < |xs| :: Nanos(xs[i].stamped) <= Nanos(xs[j].at))
  }

  /** What is sent was attempted, after everything that came before. */
  lemma {:induction false} SentLater(lastSent: int, steps: seq<GateStep>, t: Instant)
    requires forall i | 0 <= i < |steps| :: Nanos(t) <= Nanos(Began(steps[i]))
    ensures forall k | 0 <= k < |Sent(lastSent, steps)| :: Nanos(t) <= Nanos(Sent(lastSent, steps)[k].at)
    decreases |steps|
  {
    hide Nanos, Passes;
    if steps != [] {
      var rest := steps[1..];
      assert forall i | 0 <= i < |rest| :: rest[i] == steps[i + 1];
      SentLater(GateNext(lastSent, steps[0]), rest, t);
    }
  }

  lemma {:induction false} SentInOrder(lastSent: int, steps: seq<GateStep>)
    requires Clocked(steps)
    ensures Ordered(Sent(lastSent, steps))
    decreases |steps|
  {
    hide Nanos, Proper, Passes;
    if steps != [] {
      var next, rest := GateNext(lastSent, steps[0]), steps[1..];
      StepsOn(lastSent, steps);
      SentInOrder(next, rest);
      AfterFirst(steps);
      SentLater(next, rest, Ended(steps[0]));
      if Passing(lastSent, steps[0]) == [] {
        assert Sent(lastSent, steps) == Sent(next, rest);
      } else {
        OrderedMore(steps[0].sending, Sent(next, rest));
      }
    }
  }

  lemma AfterFirst(steps: seq<GateStep>)
    requires steps != [] && Clocked(steps)
    ensures forall i | 0 <= i < |steps[1..]| :: Nanos(Ended(steps[0])) <= Nanos(Began(steps[1..][i]))
    ensures Proper(Ended(steps[0])) && Nanos(Began(steps[0])) <= Nanos(Ended(steps[0]))
  {
  }

  lemma OrderedMore(x: Sending, xs: seq<Sending>)
    requires Ordered(xs) && Proper(x.stamped) && Nanos(x.at) <= Nanos(x.stamped)
    requires forall k | 0 <= k < |xs| :: Nanos(x.stamped) <= Nanos(xs[k].at)
    ensures Ordered([x] + xs)
  {
    hide Nanos, Proper;
  }

  lemma StampedInOrder(xs: seq<Sending>)
    requires Ordered(xs)
    ensures InOrder(StampedAt(xs))
  {
    hide Nanos, Proper;
  }

  /** The initiations of any run, consumed in order, are all accepted if and only if no two
      neighbours were stamped in the same second and whitening block. */
  lemma SentAccepted(last: Bytes, lastSent: int, steps: seq<GateStep>)
    requires Clocked(steps)
    requires Sent(lastSent, steps) != [] ==> After(Stamp(Sent(lastSent, steps)[0].stamped), last)
    ensures var ts := StampedAt(Sent(lastSent, steps));
      Consume(last, Stamps(ts)) == Stamps(ts) <==> Distinguishable(ts)
  {
    hide Sent, Consume, Stamps, Distinguishable, Ordered, InOrder, Clocked;
    SentInOrder(lastSent, steps);
    StampedInOrder(Sent(lastSent, steps));
    AllAccepted(last, StampedAt(Sent(lastSent, steps)));
  }

  /** A message is stamped soon enough after it passed the gate. */
  ghost predicate Prompt(steps: seq<GateStep>) {
    forall i | 0 <= i < |steps| && steps[i].Attempt? ::
      Nanos(steps[i].sending.stamped) - Nanos(steps[i].sending.at) <= REKEY_TIMEOUT - WHITENER
  }

  lemma {:induction false} SentPromptly(lastSent: int, steps: seq<GateStep>)
    requires Prompt(steps)
    ensures forall k | 0 <= k < |Sent(lastSent, steps)| :: var x := Sent(lastSent, steps)[k];
      Nanos(x.stamped) - Nanos(x.at) <= REKEY_TIMEOUT - WHITENER
    decreases |steps|
  {
    hide Nanos, Passes;
    if steps != [] {
      var rest := steps[1..];
      assert forall i | 0 <= i < |rest| :: rest[i] == steps[i + 1];
      SentPromptly(GateNext(lastSent, steps[0]), rest);
    }
  }

  /** So none of them looks like a replay if there is no reset and no message is stamped late. */
  lemma NoFalseReplay(last: Bytes, lastSent: int, steps: seq<GateStep>)
    requires Clocked(steps) && Since(lastSent, steps) && NoReset(steps) && Prompt(steps)
    requires Sent(lastSent, steps) != [] ==> After(Stamp(Sent(lastSent, steps)[0].stamped), last)
    ensures var ts := StampedAt(Sent(lastSent, steps)); Consume(last, Stamps(ts)) == Stamps(ts)
  {
    hide Sent, Consume, Stamps, After, Stamp, Nanos, Clocked, Since, NoReset;
    var xs := Sent(lastSent, steps);
    SentInOrder(lastSent, steps);
    GateSpaces(lastSent, steps);
    SentPromptly(lastSent, steps);
    forall k | 0 < k < |xs| ensures !SameBlock(StampedAt(xs)[k], StampedAt(xs)[k - 1]) {
      FarApart(xs[k].stamped, xs[k - 1].stamped);
    }
    SentAccepted(last, lastSent, steps);
  }

  lemma FarApart(t: Instant, u: Instant)
    requires Nanos(t) - Nanos(u) >= WHITENER
    ensures !SameBlock(t, u)
  {
  }

  /** Two initiations stamped in one block: the second is dropped. */
  lemma Dropped(last: Bytes, t: Instant, u: Instant)
    requires Proper(t) && Proper(u) && Nanos(t) <= Nanos(u) && SameBlock(u, t) && After(Stamp(t), last)
    ensures Consume(last, Stamps([t, u])) != Stamps([t, u])
  {
    hide Consume, Stamps, Stamp, After, Proper, Nanos, SameBlock;
    var ts := [t, u];
    assert SameBlock(ts[1], ts[0]);
    AllAccepted(last, ts);
  }

  /** With a reset one may: two passes a millisecond apart, of which the second is dropped. */
  lemma ResetReplays(last: Bytes)
    requires After(Stamp(Instant(10, 0)), last)
    ensures var t, u := Instant(10, 0), Instant(10, 1_000_000);
      var steps := [Attempt(Sending(t, t)), Reset(u), Attempt(Sending(u, u))];
      && Clocked(steps) && Prompt(steps) && Since(ZERO_TIME, steps)
      && Sent(ZERO_TIME, steps) == [Sending(t, t), Sending(u, u)] && Consume(last, Stamps([t, u])) != Stamps([t, u])
  {
    hide Consume, Stamps, Stamp, After, Sent;
    var t, u := Instant(10, 0), Instant(10, 1_000_000);
    Dropped(last, t, u);
    ResetRun(t, u);
  }

  lemma ResetRun(t: Instant, u: Instant)
    requires Passes(ZERO_TIME, t)
    ensures Sent(ZERO_TIME, [Attempt(Sending(t, t)), Reset(u), Attempt(Sending(u, u))]) ==
      [Sending(t, t), Sending(u, u)]
  {
    hide Sent, Nanos;
    var x, y := Attempt(Sending(t, t)), Attempt(Sending(u, u));
    assert [x, Reset(u), y] == [x] + ([Reset(u)] + ([y] + []));
    SentCons(ZERO_TIME, x, [Reset(u)] + ([y] + []));
    SentCons(Nanos(t), Reset(u), [y] + []);
    SentCons(GateNext(Nanos(t), Reset(u)), y, []);
  }

  /** So may an initiation that is stamped late, when the next one is already due. */
  lemma LateStampReplays(last: Bytes)
    requires After(Stamp(Instant(15, 0)), last)
    ensures var t, u := Instant(10, 0), Instant(15, 0);
      var steps := [Attempt(Sending(t, u)), Attempt(Sending(u, u))];
      && Clocked(steps) && NoReset(steps) && Since(ZERO_TIME, steps)
      && Sent(ZERO_TIME, steps) == [Sending(t, u), Sending(u, u)] && Consume(last, Stamps([u, u])) != Stamps([u, u])
  {
    hide Consume, Stamps, Stamp, After, Sent;
    var t, u := Instant(10, 0), Instant(15, 0);
    Dropped(last, u, u);
    LateRun(t, u);
  }

  lemma LateRun(t: Instant, u: Instant)
    requires Passes(ZERO_TIME, t) && Passes(Nanos(t), u)
    ensures Sent(ZERO_TIME, [Attempt(Sending(t, u)), Attempt(Sending(u, u))]) == [Sending(t, u), Sending(u, u)]
  {
    hide Sent, Nanos;
    var x, y := Attempt(Sending(t, u)), Attempt(Sending(u, u));
    assert [x, y] == [x] + ([y] + []);
    SentCons(ZERO_TIME, x, [y] + []);
    SentCons(Nanos(t), y, []);
  }

  lemma SentCons(lastSent: int, step: GateStep, rest: seq<GateStep>)
    ensures Sent(lastSent, [step] + rest) == Passing(lastSent, step) + Sent(GateNext(lastSent, step), rest)
    ensures Sent(GateNext(lastSent, step), []) == []
  {
    assert ([step] + rest)[1..] == rest;
  }

  // ---- Concurrent consumers -------------------------------------------------------------------------

  /** Initiations are consumed in two phases, each under its own lock: the replay check, and
      the update of lastTimestamp by a consumer whose check has passed. */
  datatype Phase = Checked(ts: Bytes) | Updated(ts: Bytes)

  datatype Consumers = Consumers(last: Bytes, passed: multiset<Bytes>)

  predicate Enabled(c: Consumers, e: Phase) { e.Updated? ==> e.ts in c.passed }

  function Next(c: Consumers, e: Phase): Consumers {
    match e
    case Checked(ts) => if After(ts, c.last) then c.(passed := c.passed + multiset{ts}) else c
    case Updated(ts) => Consumers(if After(ts, c.last) then ts else c.last, c.passed - multiset{ts})
  }

  ghost predicate Interleaving(cs: seq<Consumers>, es: seq<Phase>) {
    && |cs| == |es| + 1
    && forall i | 0 <= i < |es| :: Enabled(cs[i], es[i]) && cs[i + 1] == Next(cs[i], es[i])
  }

  lemma {:induction false} AfterTransitive(a: Bytes, b: Bytes, c: Bytes)
    requires !After(a, b) && !After(b, c)
    ensures !After(a, c)
  {
    if a != [] && b != [] && c != [] && a[0] == b[0] == c[0] {
      AfterTransitive(a[1..], b[1..], c[1..]);
    }
  }

  lemma {:induction false} AfterAsymmetric(a: Bytes, b: Bytes)
    requires After(a, b)
    ensures !After(b, a)
  {
    if b != [] && a[0] == b[0] { AfterAsymmetric(a[1..], b[1..]); }
  }

  lemma {:induction false} AfterIrreflexive(a: Bytes)
    ensures !After(a, a)
  {
    if a != [] { AfterIrreflexive(a[1..]); }
  }

  /** However checks and updates interleave, lastTimestamp never decreases. */
  lemma {:induction false} LastMonotone(cs: seq<Consumers>, es: seq<Phase>, i: nat, j: nat)
    requires Interleaving(cs, es) && i <= j < |cs|
    ensures !After(cs[i].last, cs[j].last)
    decreases j - i
  {
    if i == j {
      AfterIrreflexive(cs[i].last);
    } else {
      LastMonotone(cs, es, i, j - 1);
      var x, y := cs[j - 1].last, cs[j].last;
      assert cs[j] == Next(cs[j - 1], es[j - 1]);
      if y == x { AfterIrreflexive(x); } else { AfterAsymmetric(y, x); }
      AfterTransitive(cs[i].last, x, y);
    }
  }

  /** Once a stamp has been recorded, no check of it or of an older stamp passes. */
  lemma NoReplay(cs: seq<Consumers>, es: seq<Phase>, i: nat, j: nat)
    requires Interleaving(cs, es) && i < j < |es| && es[i].Updated? && es[j].Checked?
    requires !After(es[j].ts, es[i].ts)
    ensures cs[j + 1] == cs[j]
  {
    assert cs[i + 1] == Next(cs[i], es[i]);
    AfterIrreflexive(es[i].ts);
    LastMonotone(cs, es, i + 1, j);
    AfterTransitive(es[i].ts, cs[i + 1].last, cs[j].last);
    AfterTransitive(es[j].ts, es[i].ts, cs[j].last);
    assert cs[j + 1] == Next(cs[j], es[j]);
  }
}
