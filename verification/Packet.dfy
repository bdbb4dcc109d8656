/** Reading and writing the fields of IP, TCP and UDP headers, and checksum validity. */
module Packet {
  import opened Basics
  import opened Checksum

  const PROTO_TCP: Byte := 6
  const PROTO_UDP: Byte := 17
  const TCP_FLAGS_OFFSET := 13
  const FLAG_FIN := 0x01
  const FLAG_PSH := 0x08
  const FLAG_ACK := 0x10

  function U16At(b: Bytes, i: nat): U16
    requires i + 2 <= |b|
  {
    Word(b[i], b[i + 1])
  }

  function U32At(b: Bytes, i: nat): U32
    requires i + 4 <= |b|
  {
    0x1_0000 * U16At(b, i) + U16At(b, i + 2)
  }

  function Put16(b: Bytes, i: nat, v: U16): (r: Bytes)
    requires i + 2 <= |b|
    ensures |r| == |b| && U16At(r, i) == v
    ensures forall j | 0 <= j < |b| && j != i && j != i + 1 :: r[j] == b[j]
  {
    b[i := v / 0x100][i + 1 := v % 0x100]
  }

  function Put32(b: Bytes, i: nat, v: U32): (r: Bytes)
    requires i + 4 <= |b|
    ensures |r| == |b| && U32At(r, i) == v
    ensures forall j | 0 <= j < |b| && !(i <= j < i + 4) :: r[j] == b[j]
  {
    Put16(Put16(b, i, v / 0x1_0000), i + 2, v % 0x1_0000)
  }

  /** Writing one field leaves the others alone. */
  lemma Put16Keeps(b: Bytes, i: nat, v: U16, k: nat)
    requires i + 2 <= |b| && k + 2 <= |b| && (k + 2 <= i || i + 2 <= k)
    ensures U16At(Put16(b, i, v), k) == U16At(b, k)
  {
  }

  lemma U16Suffix(b: Bytes, s: nat, i: nat)
    requires s + i + 2 <= |b|
    ensures U16At(b[s..], i) == U16At(b, s + i)
  {
  }

  /** A field inside a suffix. */
  lemma Put16Suffix(b: Bytes, s: nat, i: nat, v: U16)
    requires s + i + 2 <= |b|
    ensures Put16(b, s + i, v)[s..] == Put16(b[s..], i, v)
  {
  }

  lemma Put16Prefix(b: Bytes, e: nat, i: nat, v: U16)
    requires i + 2 <= e <= |b|
    ensures Put16(b, i, v)[..e] == Put16(b[..e], i, v)
  {
  }

  /** Writing an aligned 16-bit field changes the sum by the difference of the words. */
  lemma {:induction false} WordSumPut(b: Bytes, i: nat, v: U16)
    requires i % 2 == 0 && i + 2 <= |b|
    ensures WordSum(Put16(b, i, v)) + U16At(b, i) == WordSum(b) + v
  {
    if i == 0 {
      assert Put16(b, 0, v)[2..] == b[2..];
    } else {
      WordSumPut(b[2..], i - 2, v);
      assert Put16(b, i, v)[2..] == Put16(b[2..], i - 2, v);
    }
  }

  /** Completing a zeroed checksum field with the complement of the sum. */
  lemma FieldCompletes(initial: nat, b: Bytes, i: nat)
    requires i % 2 == 0 && i + 2 <= |b| && U16At(b, i) == 0
    ensures Fold(initial + WordSum(Put16(b, i, 0xffff - Fold(initial + WordSum(b))))) == 0xffff
  {
    hide Fold, WordSum, Put16;
    var sum := initial + WordSum(b);
    WordSumPut(b, i, 0xffff - Fold(sum));
    ComplementCompletes(sum);
  }

  function Swapped(v: U16): U16 { v % 0x100 * 0x100 + v / 0x100 }

  lemma OddWords(x: Byte, y: Byte, z: Byte, rest: Bytes)
    ensures WordSum([x, y, z] + rest) == Word(x, y) + WordSum([z] + rest)
    ensures WordSum([z] + rest) == Word(z, 0) + WordSum([0] + rest)
  {
    assert ([x, y, z] + rest)[2..] == [z] + rest;
    if rest != [] { assert ([z] + rest)[2..] == ([0] + rest)[2..]; }
  }

  /** Writing an unaligned 16-bit field changes the sum by the swapped words. */
  lemma {:induction false} WordSumPutOdd(b: Bytes, i: nat, v: U16)
    requires i % 2 == 1 && i + 2 <= |b|
    ensures WordSum(Put16(b, i, v)) + Swapped(U16At(b, i)) == WordSum(b) + Swapped(v)
  {
    if i == 1 {
      OddStart(b, v);
    } else {
      WordSumPutOdd(b[2..], i - 2, v);
      assert Put16(b, i, v)[2..] == Put16(b[2..], i - 2, v);
    }
  }

  lemma OddStart(b: Bytes, v: U16)
    requires 3 <= |b|
    ensures WordSum(Put16(b, 1, v)) + Swapped(U16At(b, 1)) == WordSum(b) + Swapped(v)
  {
    hide WordSum, Swapped;
    var rest := b[3..];
    assert b == [b[0], b[1], b[2]] + rest;
    assert Put16(b, 1, v) == [b[0], v / 0x100, v % 0x100] + rest;
    OddFirst(b[0], b[1], b[2], v / 0x100, v % 0x100, rest);
  }

  lemma OddFirst(x: Byte, y: Byte, z: Byte, hi: Byte, lo: Byte, rest: Bytes)
    ensures WordSum([x, hi, lo] + rest) + Swapped(Word(y, z)) == WordSum([x, y, z] + rest) + Swapped(Word(hi, lo))
  {
    hide WordSum, Swapped;
    OddWords(x, y, z, rest);
    OddWords(x, hi, lo, rest);
    SwappedWord(y, z);
    SwappedWord(hi, lo);
  }

  lemma SwappedWord(hi: Byte, lo: Byte)
    ensures Swapped(Word(hi, lo)) == Word(lo, hi)
  {
    WordParts(Word(hi, lo), hi, lo);
  }

  lemma WordParts(w: nat, hi: nat, lo: nat)
    requires w == 0x100 * hi + lo && lo < 0x100
    ensures w / 0x100 == hi && w % 0x100 == lo
  {
    var q, r := w / 0x100, w % 0x100;
    assert 0x100 * (q - hi) == lo - r;
  }

  predicate EqualBytes(v: U16) { v / 0x100 == v % 0x100 }

  /** An unaligned field is completed only if its two bytes come out equal. */
  lemma OddFieldCompletes(initial: nat, b: Bytes, i: nat)
    requires i % 2 == 1 && i + 2 <= |b| && U16At(b, i) == 0
    ensures var v := 0xffff - Fold(initial + WordSum(b));
      Fold(initial + WordSum(Put16(b, i, v))) == 0xffff <==> EqualBytes(v)
  {
    hide Fold, WordSum, Put16, EqualBytes, Swapped, U16At;
    SwappedWord(0, 0);
    var sum := initial + WordSum(b);
    var v: U16 := 0xffff - Fold(sum);
    WordSumPutOdd(b, i, v);
    ComplementCompletes(sum);
    SwappedCompletes(sum, v);
  }

  lemma SwappedCompletes(sum: nat, v: U16)
    requires Fold(sum + v) == 0xffff
    ensures Fold(sum + Swapped(v)) == 0xffff <==> EqualBytes(v)
  {
    hide Fold, Same;
    var hi: int, lo: int := v / 0x100, v % 0x100;
    SameIsFold(sum + Swapped(v), sum + v);
    if Fold(sum + Swapped(v)) == 0xffff {
      var q := Distance(sum + Swapped(v), sum + v);
      assert lo - hi == 0x101 * q;
    }
  }

  // ---- Addresses and validity ------------------------------------------------------------

  function AddrAt(isV6: bool): nat { if isV6 then 8 else 12 }
  function AddrLen(isV6: bool): nat { if isV6 then 16 else 4 }
  function MinIPHeader(isV6: bool): nat { if isV6 then 40 else 20 }

  function Src(pkt: Bytes, isV6: bool): (a: Bytes)
    requires |pkt| >= MinIPHeader(isV6)
    ensures |a| == AddrLen(isV6)
  {
    pkt[AddrAt(isV6)..AddrAt(isV6) + AddrLen(isV6)]
  }

  function Dst(pkt: Bytes, isV6: bool): (a: Bytes)
    requires |pkt| >= MinIPHeader(isV6)
    ensures |a| == AddrLen(isV6)
  {
    pkt[AddrAt(isV6) + AddrLen(isV6)..AddrAt(isV6) + 2 * AddrLen(isV6)]
  }

  /** The pseudo-header sum for a transport part of the given length. */
  function PseudoSum(pkt: Bytes, isV6: bool, proto: Byte, len: U16): nat
    requires |pkt| >= MinIPHeader(isV6)
  {
    WordSum(PseudoHeader(proto, Src(pkt, isV6), Dst(pkt, isV6), len))
  }

  /** The transport checksum of pkt is right: pseudo header and transport part add up to
      0xffff. */
  predicate ChecksumValid(pkt: Bytes, iphLen: nat, proto: Byte, isV6: bool)
    requires MinIPHeader(isV6) <= iphLen <= |pkt| && |pkt| - iphLen < 0x1_0000
  {
    Fold(PseudoSum(pkt, isV6, proto, |pkt| - iphLen) + WordSum(pkt[iphLen..])) == 0xffff
  }

  /** checksumValid, by way of the fast checksum. */
  method CheckValid(pkt: Bytes, iphLen: nat, proto: Byte, isV6: bool, big: bool) returns (ok: bool)
    requires MinIPHeader(isV6) <= iphLen <= |pkt| && |pkt| - iphLen < 0x1_0000
    ensures ok == ChecksumValid(pkt, iphLen, proto, isV6)
  {
    hide WordSum, Fold, Same;
    var lenForPseudo: U16 := |pkt| - iphLen;
    var cSum := PseudoHeaderNoFold(proto, Src(pkt, isV6), Dst(pkt, isV6), lenForPseudo, big);
    var sum := Compute(pkt[iphLen..], cSum, big);
    SameAdd(cSum, PseudoSum(pkt, isV6, proto, lenForPseudo), WordSum(pkt[iphLen..]));
    SameIsFold(cSum + WordSum(pkt[iphLen..]), PseudoSum(pkt, isV6, proto, lenForPseudo) + WordSum(pkt[iphLen..]));
    ok := 0xffff - sum == 0;
  }

  /** The IPv4 header checksum is right. */
  predicate HeaderValid(pkt: Bytes, iphLen: nat)
    requires iphLen <= |pkt|
  {
    Fold(WordSum(pkt[..iphLen])) == 0xffff
  }
}
