/** The Internet checksum of section 2 of RFC 1071, and the fast form of it that adds
    64-bit words in the machine's own byte order and folds the carries late. */
module Checksum {
  import opened Basics

  // ---- The reference -------------------------------------------------------------------

  /** One's-complement addition of 16-bit words: a carry out of the top is added back in. */
  function OnesAdd(a: U16, b: U16): (r: U16) {
    if a + b < 0x1_0000 then a + b else a + b - 0xffff
  }

  /** The 16-bit word with the given high and low byte. */
  function Word(hi: int, lo: int): (r: U16)
    requires 0 <= hi < 0x100 && 0 <= lo < 0x100
  {
    0x100 * hi + lo
  }

  /** The one's-complement sum of the big-endian 16-bit words of b; an odd last byte is
      padded with a zero byte. */
  function OnesSum(b: Bytes): (r: U16) {
    if b == [] then 0
    else if |b| == 1 then Word(b[0], 0)
    else OnesAdd(Word(b[0], b[1]), OnesSum(b[2..]))
  }

  /** The same words added as plain integers. */
  function WordSum(b: Bytes): (r: nat) {
    if b == [] then 0
    else if |b| == 1 then Word(b[0], 0)
    else Word(b[0], b[1]) + WordSum(b[2..])
  }

  /** The 16-bit representative of n modulo 0xffff: zero only for zero itself. */
  function Fold(n: nat): (r: U16) {
    if n == 0 then 0 else 1 + (n - 1) % 0xffff
  }

  /** Equal as one's-complement sums: congruent modulo 0xffff, and zero together. */
  predicate Same(x: nat, y: nat) {
    (x - y) % 0xffff == 0 && (x == 0 <==> y == 0)
  }

  /** How many times 0xffff two equal sums are apart. */
  lemma Distance(x: nat, y: nat) returns (q: int)
    requires Same(x, y)
    ensures x - y == 0xffff * q
  {
    q := (x - y) / 0xffff;
  }

  lemma Multiple(x: nat, y: nat, q: int)
    requires x - y == 0xffff * q && (x == 0 <==> y == 0)
    ensures Same(x, y)
  {
    var d, m := (x - y) / 0xffff, (x - y) % 0xffff;
    assert 0xffff * (q - d) == m;
  }

  lemma SameTransitive(x: nat, y: nat, z: nat)
    requires Same(x, y) && Same(y, z)
    ensures Same(x, z)
  {
    var q := Distance(x, y);
    var r := Distance(y, z);
    assert x == 0 <==> z == 0;
    hide Same;
    Multiple(x, z, q + r);
  }

  lemma SameSym(x: nat, y: nat)
    requires Same(x, y)
    ensures Same(y, x)
  {
    var q := Distance(x, y);
    assert x == 0 <==> y == 0;
    hide Same;
    Multiple(y, x, -q);
  }

  lemma SameAdd(x: nat, y: nat, z: nat)
    requires Same(x, y)
    ensures Same(x + z, y + z)
  {
    var q := Distance(x, y);
    assert x == 0 <==> y == 0;
    hide Same;
    Multiple(x + z, y + z, q);
  }

  lemma SameScale(x: nat, y: nat)
    requires Same(x, y)
    ensures Same(0x100 * x, 0x100 * y)
  {
    var q := Distance(x, y);
    assert x == 0 <==> y == 0;
    hide Same;
    Multiple(0x100 * x, 0x100 * y, 0x100 * q);
  }

  lemma SameShift(x: nat, y: nat, w: nat)
    requires Same(x, y)
    ensures Same(0x1_0000 * x + w, y + w)
  {
    var q := Distance(x, y);
    assert x == 0 <==> y == 0;
    hide Same;
    Multiple(0x1_0000 * x + w, y + w, x + q);
  }

  lemma FoldIsSame(x: nat)
    ensures Same(Fold(x), x) && Fold(x) <= x
  {
    if x == 0 {
      Multiple(0, 0, 0);
    } else {
      var h, l := (x - 1) / 0xffff, (x - 1) % 0xffff;
      assert x - 1 == 0xffff * h + l && Fold(x) == 1 + l;
      hide Same, Fold;
      Multiple(1 + l, x, -h);
    }
  }

  lemma SmallSame(x: U16, y: U16)
    requires Same(x, y)
    ensures x == y
  {
    var q := Distance(x, y);
  }

  lemma SameIsFold(x: nat, y: nat)
    ensures Same(x, y) <==> Fold(x) == Fold(y)
  {
    hide Same, Fold;
    var f, g := Fold(x), Fold(y);
    FoldIsSame(x);
    FoldIsSame(y);
    SameSym(f, x);
    SameSym(g, y);
    if f == g { SameTransitive(x, f, y); }
    if Same(x, y) {
      SameTransitive(f, x, y);
      SameTransitive(f, y, g);
      SmallSame(f, g);
    }
  }

  lemma FoldOfSmall(x: U16)
    ensures Fold(x) == x
  {
    hide Same, Fold;
    FoldIsSame(x);
    SmallSame(Fold(x), x);
  }

  lemma OnesAddIsSame(x: U16, y: U16)
    ensures Same(OnesAdd(x, y), x + y)
  {
    hide Same;
    Multiple(OnesAdd(x, y), x + y, if x + y < 0x1_0000 then 0 else -1);
  }

  lemma AddThenFold(x: nat, y: nat)
    ensures OnesAdd(Fold(x), Fold(y)) == Fold(x + y)
  {
    hide Same, Fold, OnesAdd;
    var f: nat, g: nat := Fold(x), Fold(y);
    var t := OnesAdd(f, g);
    FoldIsSame(x);
    FoldIsSame(y);
    OnesAddIsSame(f, g);
    SameAdd(f, x, g);
    SameAdd(g, y, x);
    SameTransitive(t, f + g, x + g);
    SameTransitive(t, x + g, x + y);
    SameIsFold(t, x + y);
    FoldOfSmall(t);
  }

  /** Folding at every addition or only at the end gives the same sum. */
  lemma {:induction false} OnesSumIsFold(b: Bytes)
    ensures OnesSum(b) == Fold(WordSum(b))
  {
    hide Fold, OnesAdd;
    if |b| == 0 {
      FoldOfSmall(0);
    } else if |b| == 1 {
      FoldOfSmall(Word(b[0], 0));
    } else {
      OnesSumIsFold(b[2..]);
      FoldOfSmall(Word(b[0], b[1]));
      AddThenFold(Word(b[0], b[1]), WordSum(b[2..]));
    }
  }

  /** The sum is zero only if every byte is. */
  lemma {:induction false} ZeroSum(b: Bytes)
    ensures WordSum(b) == 0 <==> forall i | 0 <= i < |b| :: b[i] == 0
  {
    if |b| >= 2 {
      ZeroSum(b[2..]);
      assert forall i | 2 <= i < |b| :: b[i] == b[2..][i - 2];
    }
  }

  /** What the folded sum of an initial value and the words is in terms of RFC 1071: the
      one's-complement sum of both, and zero exactly if there is nothing but zeros. */
  lemma FoldedIsReference(initial: nat, b: Bytes)
    ensures Fold(initial + WordSum(b)) == OnesAdd(Fold(initial), OnesSum(b))
    ensures Fold(initial + WordSum(b)) == 0 <==> initial == 0 && forall i | 0 <= i < |b| :: b[i] == 0
  {
    OnesSumIsFold(b);
    AddThenFold(initial, WordSum(b));
    ZeroSum(b);
  }

  // ---- Machine words -------------------------------------------------------------------

  function BigEndian(b: Bytes): (r: nat) {
    if b == [] then 0 else 0x100 * BigEndian(b[..|b| - 1]) + b[|b| - 1]
  }

  function LittleEndian(b: Bytes): (r: nat) {
    if b == [] then 0 else b[0] + 0x100 * LittleEndian(b[1..])
  }

  /** encoding/binary's NativeEndian on a machine of the given byte order. */
  function Native(b: Bytes, big: bool): (r: nat) {
    if big then BigEndian(b) else LittleEndian(b)
  }

  /** PutUint64 in the machine's order; NativeRoundTrip says Native undoes it. */
  function PutNative(x: nat, n: nat, big: bool): (b: Bytes)
    ensures |b| == n
  {
    if n == 0 then []
    else if big then PutNative(x / 0x100, n - 1, big) + [x % 0x100]
    else [x % 0x100] + PutNative(x / 0x100, n - 1, big)
  }

  function Pow256(n: nat): (r: nat)
    ensures r > 0
  {
    if n == 0 then 1 else 0x100 * Pow256(n - 1)
  }

  lemma {:induction false} NativeRoundTrip(x: nat, n: nat, big: bool)
    requires x < Pow256(n)
    ensures Native(PutNative(x, n, big), big) == x
  {
    if n > 0 {
      NativeRoundTrip(x / 0x100, n - 1, big);
      var p, q := PutNative(x, n, big), PutNative(x / 0x100, n - 1, big);
      if big {
        assert p[..n - 1] == q;
      } else {
        assert p[1..] == q;
      }
    }
  }

  lemma {:induction false} NativeBound(b: Bytes, big: bool)
    ensures Native(b, big) < Pow256(|b|)
  {
    if b != [] {
      NativeBound(if big then b[..|b| - 1] else b[1..], big);
    }
  }

  /** The 16-bit words of b in the machine's order, added as plain integers. */
  function NativeSum(b: Bytes, big: bool): (r: nat) {
    if b == [] then 0
    else if |b| == 1 then (if big then Word(b[0], 0) else Word(0, b[0]))
    else (if big then Word(b[0], b[1]) else Word(b[1], b[0])) + NativeSum(b[2..], big)
  }

  lemma BigIsWordSum(b: Bytes)
    ensures NativeSum(b, true) == WordSum(b)
  {
  }

  /** On a little-endian machine every word comes with its bytes swapped, which multiplies
      it by 256 modulo 0xffff. */
  lemma {:induction false} LittleIsScaled(b: Bytes)
    ensures Same(0x100 * NativeSum(b, false), WordSum(b))
  {
    if |b| < 2 {
      Multiple(0x100 * NativeSum(b, false), WordSum(b), 0);
    } else {
      var n, w := NativeSum(b[2..], false), WordSum(b[2..]);
      LittleIsScaled(b[2..]);
      var q := Distance(0x100 * n, w);
      assert n == 0 <==> w == 0;
      hide Same;
      Multiple(0x100 * (Word(b[1], b[0]) + n), Word(b[0], b[1]) + w, b[1] + q);
    }
  }

  lemma {:induction false} NativeSumAppend(a: Bytes, b: Bytes, big: bool)
    requires |a| % 2 == 0
    ensures NativeSum(a + b, big) == NativeSum(a, big) + NativeSum(b, big)
  {
    if a == [] {
      assert a + b == b;
    } else {
      hide NativeSum, Word;
      assert (a + b)[2..] == a[2..] + b && |a[2..]| == |a| - 2;
      NativeSumAppend(a[2..], b, big);
      NativeStep(a, big);
      NativeStep(a + b, big);
    }
  }

  lemma NativeStep(b: Bytes, big: bool)
    requires |b| >= 2
    ensures NativeSum(b, big) == (if big then Word(b[0], b[1]) else Word(b[1], b[0])) + NativeSum(b[2..], big)
  {
  }

  lemma LittleTwo(b: Bytes)
    requires |b| >= 2
    ensures LittleEndian(b) == Word(b[1], b[0]) + 0x1_0000 * LittleEndian(b[2..])
  {
    assert b[1..][1..] == b[2..];
  }

  lemma BigTwo(b: Bytes)
    requires |b| >= 2
    ensures BigEndian(b) == 0x1_0000 * BigEndian(b[..|b| - 2]) + Word(b[|b| - 2], b[|b| - 1])
  {
    assert b[..|b| - 1][..|b| - 2] == b[..|b| - 2];
  }

  lemma {:induction false} LittleIsSum(b: Bytes)
    requires |b| % 2 == 0
    ensures Same(LittleEndian(b), NativeSum(b, false))
  {
    if b != [] {
      LittleIsSum(b[2..]);
      LittleTwo(b);
      hide Same, Word, LittleEndian;
      SameShift(LittleEndian(b[2..]), NativeSum(b[2..], false), Word(b[1], b[0]));
    }
  }

  lemma {:induction false} BigIsSum(b: Bytes)
    requires |b| % 2 == 0
    ensures Same(BigEndian(b), NativeSum(b, true))
  {
    if b != [] {
      var a, w := b[..|b| - 2], b[|b| - 2..];
      BigIsSum(a);
      BigTwo(b);
      assert b == a + w;
      NativeSumAppend(a, w, true);
      LastWord(w);
      hide Same, Word, BigEndian, NativeSum;
      SameShift(BigEndian(a), NativeSum(a, true), Word(w[0], w[1]));
    }
  }

  lemma LastWord(w: Bytes)
    requires |w| == 2
    ensures NativeSum(w, true) == Word(w[0], w[1])
  {
    assert w[2..] == [];
  }

  /** A machine word is the sum of its 16-bit pieces, because 65536 is 1 modulo 0xffff. */
  lemma NativeIsSum(b: Bytes, big: bool)
    requires |b| % 2 == 0
    ensures Same(Native(b, big), NativeSum(b, big))
  {
    if big { BigIsSum(b); } else { LittleIsSum(b); }
  }

  // ---- The fast form -------------------------------------------------------------------

  /** math/bits.Add64. */
  function Add64(x: U64, y: U64, carry: nat): (r: (U64, nat))
    requires carry <= 1
    ensures r.1 <= 1 && r.0 + TWO_64 * r.1 == x + y + carry
  {
    var sum := x + y + carry;
    if sum < TWO_64 then (sum, 0) else (sum - TWO_64, 1)
  }

  /** x is congruent to y modulo 0xffff and zero exactly if both parts of y are. */
  lemma EndAround(ac: U64, w: U64, sum: U64, carry: nat)
    requires carry <= 1 && sum + TWO_64 * carry == ac + w
    ensures sum + carry < TWO_64 && Same(sum + carry, ac + w)
  {
    hide Same;
    Multiple(sum + carry, ac + w, -0x1_0001_0001_0001 * carry);
  }

  /** One unrolled block: adds `words` consecutive 64-bit words with a running carry, and
      only then adds the last carry.  (The source writes the 16, 8, 4, 2 or 1 additions of a
      block one below the other.)  A carry out of a chain that began without one leaves the
      accumulator below its maximum, so that last addition does not wrap. */
  method Block(ac0: U64, b: Bytes, words: nat, big: bool) returns (ac: U64)
    requires words > 0 && |b| >= 8 * words
    ensures Same(ac, ac0 + NativeSum(b[..8 * words], big))
  {
    hide Same, NativeSum, Native;
    var carry := 0;
    ac := ac0;
    NoWords(ac0, b, big);
    for i := 0 to words
      invariant carry <= 1
      invariant carry == 1 ==> ac <= TWO_64 - 2
      invariant Same(ac + carry, ac0 + NativeSum(b[..8 * i], big))
    {
      var w := b[8 * i..8 * i + 8];
      WordHere(w, big);
      OneMoreWord(b, i, big);
      ghost var before, total := ac + carry, ac0 + NativeSum(b[..8 * i], big);
      var r := Add64(ac, Native(w, big), carry);
      ac, carry := r.0, r.1;
      ChainStep(before, Native(w, big), NativeSum(w, big), total, ac, carry);
    }
    ac := ac + carry;
  }

  lemma NoWords(ac: U64, b: Bytes, big: bool)
    ensures Same(ac + 0, ac + NativeSum(b[..8 * 0], big))
  {
  }

  lemma OneMoreWord(b: Bytes, i: nat, big: bool)
    requires 8 * i + 8 <= |b|
    ensures NativeSum(b[..8 * (i + 1)], big) == NativeSum(b[..8 * i], big) + NativeSum(b[8 * i..8 * i + 8], big)
  {
    hide NativeSum;
    var w := b[8 * i..8 * i + 8];
    assert b[..8 * (i + 1)] == b[..8 * i] + w;
    NativeSumAppend(b[..8 * i], w, big);
  }

  lemma WordHere(w: Bytes, big: bool)
    requires |w| == 8
    ensures Native(w, big) < TWO_64 && Same(Native(w, big), NativeSum(w, big))
  {
    NativeBound(w, big);
    assert Pow256(8) == TWO_64;
    NativeIsSum(w, big);
  }

  lemma ChainStep(before: nat, w: U64, s: nat, total: nat, ac: U64, carry: nat)
    requires Same(before, total) && Same(w, s) && carry <= 1 && before < TWO_64
    requires ac + TWO_64 * carry == before + w
    ensures Same(ac + carry, total + s) && (carry == 1 ==> ac <= TWO_64 - 2)
  {
    hide Same;
    EndAround(before, w, ac, carry);
    SameAdd(before, total, w);
    SameAdd(w, s, total);
    SameTransitive(before + w, total + w, total + s);
    SameTransitive(ac + carry, before + w, total + s);
  }

  /** A single addition with its carry added back at once. */
  method AddOne(ac0: U64, w: U64) returns (ac: U64)
    ensures Same(ac, ac0 + w)
  {
    var r := Add64(ac0, w, 0);
    EndAround(ac0, w, r.0, r.1);
    ac := r.0 + r.1;
  }

  /** Writing a word in the machine's order and reading it big-endian: the identity on a
      big-endian machine, and a multiplication by 256 modulo 0xffff on a little-endian one. */
  function Reread(x: U64, big: bool): (r: U64) {
    assert |PutNative(x, 8, big)| == 8;
    NativeBound(PutNative(x, 8, big), true);
    assert Pow256(8) == TWO_64;
    BigEndian(PutNative(x, 8, big))
  }

  function Scale(x: nat, big: bool): nat { if big then x else 0x100 * x }

  lemma RereadScales(x: U64, big: bool)
    ensures Same(Reread(x, big), Scale(x, big))
  {
    var p := PutNative(x, 8, big);
    assert Pow256(8) == TWO_64;
    NativeRoundTrip(x, 8, big);
    if !big {
      hide Same, BigEndian, LittleEndian, NativeSum, WordSum, PutNative;
      BigIsSum(p);
      BigIsWordSum(p);
      LittleIsSum(p);
      LittleIsScaled(p);
      SameScale(LittleEndian(p), NativeSum(p, false));
      SameTransitive(0x100 * x, 0x100 * NativeSum(p, false), WordSum(p));
      SameSym(0x100 * x, WordSum(p));
      SameTransitive(BigEndian(p), WordSum(p), 0x100 * x);
    }
  }

  lemma SumScales(b: Bytes, big: bool)
    ensures Same(Scale(NativeSum(b, big), big), WordSum(b))
  {
    hide Same, NativeSum, WordSum;
    if big {
      BigIsWordSum(b);
      SameSelf(WordSum(b));
    } else {
      LittleIsScaled(b);
    }
  }

  lemma SameSelf(x: nat)
    ensures Same(x, x)
  {
  }

  /** Undoing the machine's order at the end undoes it for the initial value and the words. */
  lemma Unscramble(initial: U64, ac: U64, b: Bytes, big: bool)
    requires Same(ac, Reread(initial, big) + NativeSum(b, big))
    ensures Same(Reread(ac, big), initial + WordSum(b))
  {
    var n, w := NativeSum(b, big), WordSum(b);
    RereadScales(initial, big);
    RereadScales(ac, big);
    SumScales(b, big);
    hide NativeSum, WordSum, Reread, Same, Scale;
    SameAdd(Reread(initial, big), Scale(initial, big), n);
    SameTransitive(ac, Reread(initial, big) + n, Scale(initial, big) + n);
    ScaleTwice(initial, ac, n, w, big);
    SameTransitive(Reread(ac, big), Scale(ac, big), initial + w);
  }

  lemma ScaleTwice(initial: nat, ac: nat, n: nat, w: nat, big: bool)
    requires Same(ac, Scale(initial, big) + n) && Same(Scale(n, big), w)
    ensures Same(Scale(ac, big), initial + w)
  {
    hide Same;
    if big {
      SameAdd(n, w, initial);
      SameTransitive(ac, initial + n, initial + w);
    } else {
      SameScale(ac, 0x100 * initial + n);
      SameAdd(0x100 * n, w, 0x1_0000 * initial);
      SameTransitive(0x100 * ac, 0x1_0000 * initial + 0x100 * n, 0x1_0000 * initial + w);
      Multiple(0x1_0000 * initial, initial, initial);
      SameAdd(0x1_0000 * initial, initial, w);
      SameTransitive(0x100 * ac, 0x1_0000 * initial + w, initial + w);
    }
  }

  /** The words consumed by one block leave the rest to be added. */
  lemma Consumed(total: nat, ac: nat, ac': nat, b: Bytes, n: nat, big: bool)
    requires n <= |b| && n % 2 == 0
    requires Same(ac + NativeSum(b, big), total)
    requires Same(ac', ac + NativeSum(b[..n], big))
    ensures Same(ac' + NativeSum(b[n..], big), total)
  {
    assert b == b[..n] + b[n..];
    hide NativeSum, Same;
    NativeSumAppend(b[..n], b[n..], big);
    var x, y := NativeSum(b[..n], big), NativeSum(b[n..], big);
    SameAdd(ac', ac + x, y);
    SameTransitive(ac' + y, ac + x + y, total);
  }

  lemma SmallWord(b: Bytes, big: bool)
    requires |b| == 2 || |b| == 4
    ensures Native(b, big) < TWO_64 && Same(Native(b, big), NativeSum(b, big))
  {
    NativeBound(b, big);
    assert Pow256(2) == 0x1_0000 && Pow256(4) == 0x1_0000_0000;
    NativeIsSum(b, big);
  }

  method ChecksumNoFold(b0: Bytes, initial: U64, big: bool) returns (r: U64)
    ensures Same(r, initial + WordSum(b0))
  {
    var b := b0;
    var ac: U64 := Reread(initial, big);
    ghost var total := ac + NativeSum(b0, big);
    assert Same(total, total);
    hide Same, NativeSum, Reread, Native, WordSum;
    while |b| >= 128
      invariant Same(ac + NativeSum(b, big), total)
    {
      ac := BlockStep(total, ac, b, 16, big);
      b := b[128..];
    }
    ac, b := BlockLadder(total, ac, b, big);
    if |b| >= 4 { ac := SmallStep(total, ac, b, 4, big); b := b[4..]; }
    if |b| >= 2 { ac := SmallStep(total, ac, b, 2, big); b := b[2..]; }
    ac := LastByte(total, ac, b, big);
    Unscramble(initial, ac, b0, big);
    r := Reread(ac, big);
  }

  /** The blocks of 64, 32, 16 and 8 bytes of the tail. */
  method BlockLadder(ghost total: nat, ac0: U64, b0: Bytes, big: bool) returns (ac: U64, b: Bytes)
    requires |b0| < 128 && Same(ac0 + NativeSum(b0, big), total)
    ensures |b| < 8 && Same(ac + NativeSum(b, big), total)
  {
    hide Same, NativeSum;
    ac, b := ac0, b0;
    if |b| >= 64 { ac := BlockStep(total, ac, b, 8, big); b := b[64..]; }
    if |b| >= 32 { ac := BlockStep(total, ac, b, 4, big); b := b[32..]; }
    if |b| >= 16 { ac := BlockStep(total, ac, b, 2, big); b := b[16..]; }
    if |b| >= 8 { ac := BlockStep(total, ac, b, 1, big); b := b[8..]; }
  }

  method BlockStep(ghost total: nat, ac: U64, b: Bytes, words: nat, big: bool) returns (ac': U64)
    requires words > 0 && |b| >= 8 * words
    requires Same(ac + NativeSum(b, big), total)
    ensures Same(ac' + NativeSum(b[8 * words..], big), total)
  {
    hide Same, NativeSum;
    ghost var n := 8 * words;
    assert n == 2 * (4 * words);
    ac' := Block(ac, b, words, big);
    Consumed(total, ac, ac', b, n, big);
  }

  method SmallStep(ghost total: nat, ac: U64, b: Bytes, n: nat, big: bool) returns (ac': U64)
    requires (n == 4 || n == 2) && |b| >= n
    requires Same(ac + NativeSum(b, big), total)
    ensures Same(ac' + NativeSum(b[n..], big), total)
  {
    hide Same, NativeSum, Native;
    SmallWord(b[..n], big);
    ac' := AddOne(ac, Native(b[..n], big));
    SameAdd(Native(b[..n], big), NativeSum(b[..n], big), ac);
    SameTransitive(ac', ac + Native(b[..n], big), ac + NativeSum(b[..n], big));
    Consumed(total, ac, ac', b, n, big);
  }

  lemma TwoBytes(x: Byte, y: Byte)
    ensures BigEndian([x, y]) == Word(x, y) && LittleEndian([x, y]) == Word(y, x)
  {
    assert [x, y][..1] == [x] && [x][..0] == [];
    assert [x, y][1..] == [y] && [y][1..] == [];
    assert BigEndian([x]) == x && LittleEndian([y]) == y;
  }

  /** An odd last byte is read as a word with a zero byte after it. */
  method LastByte(ghost total: nat, ac: U64, b: Bytes, big: bool) returns (ac': U64)
    requires |b| <= 1 && Same(ac + NativeSum(b, big), total)
    ensures Same(ac', total)
  {
    ac' := ac;
    if |b| == 1 {
      var tmp := Native([b[0], 0], big);
      TwoBytes(b[0], 0);
      assert tmp == NativeSum(b, big);
      hide NativeSum, Native;
      ac' := AddOne(ac, tmp);
      SameTransitive(ac', ac + tmp, total);
    }
  }

  /** One folding step: add the high part to the low 16 bits. */
  function FoldOnce(ac: nat): nat {
    ac / 0x1_0000 + ac % 0x1_0000
  }

  lemma FoldOnceIsSame(ac: nat)
    ensures Same(FoldOnce(ac), ac)
  {
    var h, l := ac / 0x1_0000, ac % 0x1_0000;
    assert ac == 0x1_0000 * h + l;
    hide Same;
    Multiple(h + l, ac, -h);
  }

  /** Four folds bring every 64-bit sum into 16 bits ... */
  lemma FourFolds(ac: U64)
    ensures FoldOnce(FoldOnce(FoldOnce(FoldOnce(ac)))) == Fold(ac)
  {
    hide Same, Fold, FoldOnce;
    var x1 := FoldOnce(ac);
    var x2 := FoldOnce(x1);
    var x3 := FoldOnce(x2);
    var x4 := FoldOnce(x3);
    FoldOnceIsSame(ac);
    FoldOnceIsSame(x1);
    FoldOnceIsSame(x2);
    FoldOnceIsSame(x3);
    FoldShrinks(ac, 0x1_0000_0000_0000);
    FoldShrinks(x1, 0x1_0000_0000);
    FoldShrinks(x2, 0x1_0000);
    FoldShrinks(x3, 1);
    SameTransitive(x2, x1, ac);
    SameTransitive(x3, x2, ac);
    SameTransitive(x4, x3, ac);
    SameIsFold(x4, ac);
    FoldOfSmall(x4);
  }

  lemma FoldShrinks(x: nat, k: nat)
    requires x <= 0x1_0000 * k + 0xfffe
    ensures FoldOnce(x) <= k + 0xfffe
  {
    var h, l := x / 0x1_0000, x % 0x1_0000;
    assert x == 0x1_0000 * h + l;
  }

  /** ... and three do not. */
  lemma ThreeFoldsDoNot()
    ensures FoldOnce(FoldOnce(FoldOnce(0xffff_ffff_0001_ffff))) > 0xffff
  {
  }

  /** For every byte string, initial value and machine byte order, the checksum is the
      folded sum of the big-endian words and the initial value. */
  method Compute(b: Bytes, initial: U64, big: bool) returns (r: U16)
    ensures r == Fold(initial + WordSum(b))
  {
    hide FoldOnce, Fold, Same, WordSum;
    var sum := ChecksumNoFold(b, initial, big);
    FourFolds(sum);
    SameIsFold(sum, initial + WordSum(b));
    var ac := FoldOnce(sum);
    ac := FoldOnce(ac);
    ac := FoldOnce(ac);
    ac := FoldOnce(ac);
    r := ac;
  }

  lemma WordSumAppend(a: Bytes, b: Bytes)
    requires |a| % 2 == 0
    ensures WordSum(a + b) == WordSum(a) + WordSum(b)
  {
    NativeSumAppend(a, b, true);
    BigIsWordSum(a);
    BigIsWordSum(b);
    BigIsWordSum(a + b);
  }

  /** A sum may be continued over pieces of even length: the intermediate value that is
      passed on need not be folded. */
  lemma Chaining(a: Bytes, b: Bytes, initial: nat, middle: nat)
    requires |a| % 2 == 0 && Same(middle, initial + WordSum(a))
    ensures Fold(middle + WordSum(b)) == Fold(initial + WordSum(a + b))
  {
    WordSumAppend(a, b);
    SameAdd(middle, initial + WordSum(a), WordSum(b));
    SameIsFold(middle + WordSum(b), initial + WordSum(a + b));
  }

  /** The pseudo header of a transport packet, as RFC 1071 sums it. */
  function PseudoHeader(protocol: Byte, src: Bytes, dst: Bytes, totalLen: U16): (b: Bytes)
    ensures |b| == |src| + |dst| + 4
  {
    src + dst + [0, protocol] + [totalLen / 0x100, totalLen % 0x100]
  }

  method PseudoHeaderNoFold(protocol: Byte, src: Bytes, dst: Bytes, totalLen: U16, big: bool) returns (sum: U64)
    requires |src| % 2 == 0 && |dst| % 2 == 0
    ensures Same(sum, WordSum(PseudoHeader(protocol, src, dst, totalLen)))
  {
    hide Same, WordSum;
    sum := ChecksumNoFold(src, 0, big);
    ghost var s0 := sum;
    sum := ChecksumNoFold(dst, sum, big);
    Continue(s0, sum, src, dst);
    ghost var s1 := sum;
    sum := ChecksumNoFold([0, protocol], sum, big);
    Continue(s1, sum, src + dst, [0, protocol]);
    ghost var s2 := sum;
    var tmp := [totalLen / 0x100, totalLen % 0x100];
    sum := ChecksumNoFold(tmp, sum, big);
    Continue(s2, sum, src + dst + [0, protocol], tmp);
  }

  lemma Continue(before: nat, after: nat, a: Bytes, b: Bytes)
    requires |a| % 2 == 0 && Same(before, WordSum(a)) && Same(after, before + WordSum(b))
    ensures Same(after, WordSum(a + b))
  {
    WordSumAppend(a, b);
    SameAdd(before, WordSum(a), WordSum(b));
    SameTransitive(after, before + WordSum(b), WordSum(a + b));
  }

  /** Storing the complement of a sum whose field was zero makes the sum 0xffff. */
  lemma ComplementCompletes(sum: nat)
    ensures Fold(sum + (0xffff - Fold(sum))) == 0xffff
  {
    FoldIsSame(sum);
    var total := sum + (0xffff - Fold(sum));
    var q := Distance(Fold(sum), sum);
    hide Same, Fold;
    Multiple(total, 0xffff, -q);
    SameIsFold(total, 0xffff);
    FoldOfSmall(0xffff);
  }
}
