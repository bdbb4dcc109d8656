/** The sliding-window replay filter of section 2 of RFC 6479: a ring of bitmap blocks that
    stands for the set of counters accepted so far. */
module Replay {
  import opened Basics

  const BLOCK_BITS := 64
  const RING_BLOCKS := 128
  const WINDOW_SIZE := (RING_BLOCKS - 1) * BLOCK_BITS

  /** The bits of one 64-bit word, the least significant first. */
  type Block = b: seq<bool> | |b| == BLOCK_BITS witness seq(BLOCK_BITS, _ => false)

  function Zero(): Block { seq(BLOCK_BITS, _ => false) }

  // ---- The specification ---------------------------------------------------------------------

  /** The counters accepted since the last reset, and the highest of them (0 if there are none). */
  datatype Seen = Seen(accepted: set<U64>, highest: U64)

  const NOTHING := Seen({}, 0)

  predicate Accepts(s: Seen, c: U64, limit: U64) {
    c < limit && c !in s.accepted && s.highest - c <= WINDOW_SIZE
  }

  function Next(s: Seen, c: U64, limit: U64): Seen {
    if Accepts(s, c, limit) then Seen(s.accepted + {c}, if c > s.highest then c else s.highest) else s
  }

  /** highest is what its name says. */
  ghost predicate Sound(s: Seen) {
    && (forall c | c in s.accepted :: c <= s.highest)
    && (if s.accepted == {} then s.highest == 0 else s.highest in s.accepted)
  }

  // ---- The ring --------------------------------------------------------------------------------

  /** The slot of block b. */
  function Slot(b: int): nat { b % RING_BLOCKS }

  /** Block b is one of the 128 that end with the block of the highest counter. */
  predicate InRing(last: U64, b: int) {
    0 <= b && last / BLOCK_BITS - RING_BLOCKS < b <= last / BLOCK_BITS
  }

  /** Every block in the ring shows which of its counters were accepted.  Slots whose block
      would be negative may hold anything. */
  ghost predicate Shows(ring: seq<Block>, s: Seen)
    requires |ring| == RING_BLOCKS
  {
    forall b, k | InRing(s.highest, b) && 0 <= k < BLOCK_BITS ::
      ring[Slot(b)][k] <==> BLOCK_BITS * b + k in s.accepted
  }

  lemma SlotsDiffer(a: nat, b: nat)
    requires a < b < a + RING_BLOCKS
    ensures Slot(a) != Slot(b)
  {
  }

  lemma Split(c: U64)
    ensures c == BLOCK_BITS * (c / BLOCK_BITS) + c % BLOCK_BITS && 0 <= c % BLOCK_BITS < BLOCK_BITS
  {
  }

  /** The slots of the blocks in (current, current + diff] were cleared. */
  ghost predicate Cleared(ring: seq<Block>, ring': seq<Block>, current: nat, diff: nat) {
    && |ring| == |ring'| == RING_BLOCKS
    && (forall b | current < b <= current + diff :: ring'[Slot(b)] == Zero())
    && (forall j | 0 <= j < RING_BLOCKS && !Entering(current, diff, j) :: ring'[j] == ring[j])
  }

  ghost predicate Entering(current: nat, diff: nat, j: nat) {
    exists b | current < b <= current + diff :: Slot(b) == j
  }

  /** Clearing at most the whole ring is enough, however far the window moves. */
  lemma Advanced(ring: seq<Block>, ring': seq<Block>, s: Seen, c: U64, diff: nat)
    requires |ring| == RING_BLOCKS && Shows(ring, s) && Sound(s) && c > s.highest
    requires var ahead := c / BLOCK_BITS - s.highest / BLOCK_BITS;
      diff == if ahead > RING_BLOCKS then RING_BLOCKS else ahead
    requires Cleared(ring, ring', s.highest / BLOCK_BITS, diff)
    ensures Shows(ring', Seen(s.accepted, c))
  {
    var current := s.highest / BLOCK_BITS;
    forall b, k | InRing(c, b) && 0 <= k < BLOCK_BITS
      ensures ring'[Slot(b)][k] <==> BLOCK_BITS * b + k in s.accepted
    {
      if b > current {
        var b' := if b <= current + diff then b else current + 1 + (b - current - 1) % RING_BLOCKS;
        SameSlot(b, current, diff);
        assert ring'[Slot(b')] == Zero();
      } else {
        Untouched(current, diff, b);
        assert ring'[Slot(b)] == ring[Slot(b)];
        assert InRing(s.highest, b);
      }
    }
  }

  lemma SameSlot(b: nat, current: nat, diff: nat)
    requires current < b && (b > current + diff ==> diff == RING_BLOCKS)
    ensures var b' := if b <= current + diff then b else current + 1 + (b - current - 1) % RING_BLOCKS;
      current < b' <= current + diff && Slot(b') == Slot(b)
  {
  }

  lemma Untouched(current: nat, diff: nat, b: nat)
    requires b <= current && current + diff < b + RING_BLOCKS
    ensures !Entering(current, diff, Slot(b))
  {
    forall a | current < a <= current + diff ensures Slot(a) != Slot(b) {
      SlotsDiffer(b, a);
    }
  }

  /** Setting the counter's bit adds it to the set, and tells whether it was there. */
  lemma Marked(ring: seq<Block>, s: Seen, c: U64)
    requires |ring| == RING_BLOCKS && Shows(ring, s) && InRing(s.highest, c / BLOCK_BITS)
    ensures var slot, bit := Slot(c / BLOCK_BITS), c % BLOCK_BITS;
      && (ring[slot][bit] <==> c in s.accepted)
      && Shows(ring[slot := ring[slot][bit := true]], Seen(s.accepted + {c}, s.highest))
  {
    var slot, bit := Slot(c / BLOCK_BITS), c % BLOCK_BITS;
    var ring' := ring[slot := ring[slot][bit := true]];
    Split(c);
    assert ring[Slot(c / BLOCK_BITS)][bit] <==> BLOCK_BITS * (c / BLOCK_BITS) + bit in s.accepted;
    forall b, k | InRing(s.highest, b) && 0 <= k < BLOCK_BITS
      ensures ring'[Slot(b)][k] <==> BLOCK_BITS * b + k in s.accepted + {c}
    {
      assert ring[Slot(b)][k] <==> BLOCK_BITS * b + k in s.accepted;
      if b != c / BLOCK_BITS {
        if b < c / BLOCK_BITS { SlotsDiffer(b, c / BLOCK_BITS); } else { SlotsDiffer(c / BLOCK_BITS, b); }
      }
    }
  }

  lemma WindowInRing(last: U64, c: U64)
    requires c <= last && last - c <= WINDOW_SIZE
    ensures InRing(last, c / BLOCK_BITS)
  {
  }

  class Filter {
    var last: U64
    const ring: array<Block>
    ghost var seen: Seen

    ghost predicate Valid()
      reads this, ring
    {
      && ring.Length == RING_BLOCKS
      && last == seen.highest && Sound(seen)
      && Shows(ring[..], seen)
    }

    /** Any contents of the ring will do. */
    constructor (ring: array<Block>)
      requires ring.Length == RING_BLOCKS
      ensures this.ring == ring
    {
      this.ring, last, seen := ring, 0, NOTHING;
    }

    /** Only one word is cleared. */
    method Reset()
      requires ring.Length == RING_BLOCKS
      modifies this, ring
      ensures Valid() && seen == NOTHING
      ensures forall i | 0 < i < RING_BLOCKS :: ring[i] == old(ring[i])
    {
      last := 0;
      ring[0] := Zero();
      seen := NOTHING;
    }

    method ValidateCounter(counter: U64, limit: U64) returns (ok: bool)
      requires Valid()
      modifies this, ring
      ensures Valid()
      ensures ok <==> Accepts(old(seen), counter, limit)
      ensures seen == Next(old(seen), counter, limit)
    {
      hide Shows, Sound, InRing;
      if counter >= limit {
        return false;
      }
      var indexBlock := counter / BLOCK_BITS;
      if counter > last {
        NotSeen(seen, counter);
        Advance(counter);
      } else if last - counter > WINDOW_SIZE {
        return false;
      }
      var slot := Slot(indexBlock);
      var indexBit := counter % BLOCK_BITS;
      WindowInRing(last, counter);
      Marked(ring[..], Seen(seen.accepted, last), counter);
      StaysSound(seen, counter, last);
      var was := ring[slot];
      var now := was[indexBit := true];
      ring[slot] := now;
      seen := Seen(seen.accepted + {counter}, last);
      ok := was != now;
    }

    /** The window moves forward to the counter, and the blocks that enter it are cleared. */
    method Advance(counter: U64)
      requires Valid() && counter > last
      modifies this`last, ring
      ensures last == counter && Shows(ring[..], Seen(seen.accepted, counter))
    {
      hide Shows, Sound, Cleared;
      ghost var before := ring[..];
      var current := last / BLOCK_BITS;
      var diff := counter / BLOCK_BITS - current;
      if diff > RING_BLOCKS {
        diff := RING_BLOCKS;
      }
      NothingCleared(before, current);
      var i := current + 1;
      while i <= current + diff
        invariant current + 1 <= i <= current + diff + 1
        invariant Cleared(before, ring[..], current, i - current - 1)
      {
        OneMore(before, ring[..], current, i - current - 1);
        ring[Slot(i)] := Zero();
        i := i + 1;
      }
      Advanced(before, ring[..], seen, counter, diff);
      last := counter;
    }
  }

  lemma NothingCleared(ring: seq<Block>, current: nat)
    requires |ring| == RING_BLOCKS
    ensures Cleared(ring, ring, current, 0)
  {
  }

  lemma OneMore(ring: seq<Block>, ring': seq<Block>, current: nat, diff: nat)
    requires Cleared(ring, ring', current, diff)
    ensures Cleared(ring, ring'[Slot(current + diff + 1) := Zero()], current, diff + 1)
  {
    var i := current + diff + 1;
    var ring'' := ring'[Slot(i) := Zero()];
    forall j | 0 <= j < RING_BLOCKS && !Entering(current, diff + 1, j) ensures ring''[j] == ring[j] {
      NotEntering(current, diff, j);
    }
  }

  lemma NotEntering(current: nat, diff: nat, j: nat)
    requires !Entering(current, diff + 1, j)
    ensures !Entering(current, diff, j) && Slot(current + diff + 1) != j
  {
  }

  lemma NotSeen(s: Seen, c: U64)
    requires Sound(s) && c > s.highest
    ensures c !in s.accepted
  {
  }

  lemma StaysSound(s: Seen, c: U64, last: U64)
    requires Sound(s) && last == (if c > s.highest then c else s.highest)
    ensures Sound(Seen(s.accepted + {c}, last))
  {
  }

  // ---- Whole runs ------------------------------------------------------------------------------

  /** A call: a counter and the limit it was presented with. */
  datatype Call = Call(counter: U64, limit: U64)

  function Outcomes(s: Seen, calls: seq<Call>): (r: seq<bool>)
    ensures |r| == |calls|
    decreases |calls|
  {
    if calls == [] then []
    else
      [Accepts(s, calls[0].counter, calls[0].limit)]
      + Outcomes(Next(s, calls[0].counter, calls[0].limit), calls[1..])
  }

  function After(s: Seen, calls: seq<Call>): Seen
    decreases |calls|
  {
    if calls == [] then s else After(Next(s, calls[0].counter, calls[0].limit), calls[1..])
  }

  /** Any ring, a reset, and then any sequence of calls. */
  method Run(ring: array<Block>, calls: seq<Call>) returns (oks: seq<bool>)
    requires ring.Length == RING_BLOCKS
    modifies ring
    ensures oks == Outcomes(NOTHING, calls)
  {
    var f := new Filter(ring);
    f.Reset();
    oks := [];
    for i := 0 to |calls|
      invariant f.Valid() && f.ring == ring && fresh(f)
      invariant |oks| == i && oks + Outcomes(f.seen, calls[i..]) == Outcomes(NOTHING, calls)
    {
      assert calls[i..][1..] == calls[i + 1..];
      var ok := f.ValidateCounter(calls[i].counter, calls[i].limit);
      oks := oks + [ok];
    }
  }

  /** After any run, exactly the counters that were reported as accepted are in the set. */
  lemma {:induction false} AcceptedAre(s: Seen, calls: seq<Call>, c: U64)
    ensures c in After(s, calls).accepted <==> c in s.accepted || exists i | 0 <= i < |calls| ::
      calls[i].counter == c && Outcomes(s, calls)[i]
    decreases |calls|
  {
    if calls != [] {
      var s', rest := Next(s, calls[0].counter, calls[0].limit), calls[1..];
      AcceptedAre(s', rest, c);
      var os, os' := Outcomes(s, calls), Outcomes(s', rest);
      assert forall i | 0 <= i < |rest| :: calls[i + 1] == rest[i] && os[i + 1] == os'[i];
      if c in After(s, calls).accepted && c !in s'.accepted {
        var i :| 0 <= i < |rest| && rest[i].counter == c && os'[i];
        assert calls[i + 1].counter == c && os[i + 1];
      }
      if i :| 0 < i < |calls| && calls[i].counter == c && os[i] {
        assert rest[i - 1].counter == c && os'[i - 1];
      }
    }
  }

  /** The calls stay below their limits and within the window of everything that came before. */
  ghost predicate Orderly(s: Seen, calls: seq<Call>) {
    && (forall i | 0 <= i < |calls| :: calls[i].counter < calls[i].limit && s.highest - calls[i].counter <= WINDOW_SIZE)
    && (forall i, j | 0 <= i < j < |calls| :: calls[i].counter - calls[j].counter <= WINDOW_SIZE)
  }

  lemma OrderlyNext(s: Seen, calls: seq<Call>)
    requires Orderly(s, calls) && calls != []
    ensures Orderly(Next(s, calls[0].counter, calls[0].limit), calls[1..])
    ensures Accepts(s, calls[0].counter, calls[0].limit) <==> calls[0].counter !in s.accepted
  {
    assert forall i | 0 <= i < |calls[1..]| :: calls[1..][i] == calls[i + 1];
  }

  /** Under any reordering within the window and any duplication, each counter is delivered
      exactly once: when it comes for the first time. */
  lemma {:induction false} ExactlyOnce(s: Seen, calls: seq<Call>, k: nat)
    requires Orderly(s, calls) && k < |calls|
    ensures Outcomes(s, calls)[k] <==> calls[k].counter !in s.accepted && forall i | 0 <= i < k ::
      calls[i].counter != calls[k].counter
    decreases |calls|
  {
    hide Orderly;
    var c := calls[0].counter;
    OrderlyNext(s, calls);
    if k > 0 {
      var s', rest := Next(s, c, calls[0].limit), calls[1..];
      ExactlyOnce(s', rest, k - 1);
      assert s'.accepted == s.accepted + {c};
      assert forall i | 0 <= i < k - 1 :: rest[i] == calls[i + 1];
      if (forall i | 0 <= i < k - 1 :: rest[i].counter != rest[k - 1].counter) && rest[k - 1].counter != c {
        forall i | 0 <= i < k ensures calls[i].counter != calls[k].counter {
          if i > 0 { assert rest[i - 1] == calls[i]; }
        }
      }
    }
  }
}
