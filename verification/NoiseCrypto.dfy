/** The cryptographic primitives as uninterpreted functions, and the key derivation that is
    built from them in place. */
module NoiseCrypto {
  import opened Basics

  type Digest = s: Bytes | |s| == 32 witness seq(32, _ => 0)

  /** A choice of primitives.  The AEAD nonce is always zero in a handshake; dh gives the
      all-zero secret for a bad public key. */
  datatype Suite = Suite(
    hash: Bytes -> Digest,
    hmac: (Bytes, Bytes) -> Digest,
    publicKey: Digest -> Digest,
    dh: (Digest, Digest) -> Digest,
    seal: (Digest, Bytes, Bytes) -> Bytes,
    open: (Digest, Bytes, Bytes) -> Option<Bytes>)

  /** The two laws that an honest run needs: Diffie-Hellman commutes and open undoes seal. */
  ghost predicate Laws(s: Suite) {
    && (forall a: Digest, b: Digest :: s.dh(a, s.publicKey(b)) == s.dh(b, s.publicKey(a)))
    && (forall k: Digest, p: Bytes, ad: Bytes :: s.open(k, s.seal(k, p, ad), ad) == Some(p))
  }

  const ZERO: Digest := seq(32, _ => 0)

  // ---- HKDF, as in sections 2.2 and 2.3 of RFC 5869 ------------------------------------------

  function Extract(s: Suite, salt: Bytes, ikm: Bytes): Digest { s.hmac(salt, ikm) }

  /** T(n) of HKDF-Expand with an empty info string: T(0) is empty and T(n) is the MAC of
      T(n - 1) and the byte n. */
  function T(s: Suite, prk: Bytes, n: Byte): (r: Bytes)
    ensures n > 0 ==> |r| == 32
    decreases n
  {
    if n == 0 then [] else s.hmac(prk, T(s, prk, n - 1) + [n])
  }

  /** Output n of the key derivation: block n of HKDF. */
  function Kdf(s: Suite, key: Bytes, input: Bytes, n: Byte): Digest
    requires n > 0
  {
    T(s, Extract(s, key, input), n)
  }

  lemma FirstBlock(s: Suite, prk: Bytes)
    ensures T(s, prk, 0) + [1] == [1] && T(s, prk, 1) == s.hmac(prk, [1])
  {
  }

  method HMAC1(s: Suite, sum: array<Byte>, key: Bytes, in0: Bytes)
    requires sum.Length == 32
    modifies sum
    ensures sum[..] == s.hmac(key, in0)
  {
    var d := s.hmac(key, in0);
    forall i | 0 <= i < 32 { sum[i] := d[i]; }
  }

  method HMAC2(s: Suite, sum: array<Byte>, key: Bytes, in0: Bytes, in1: Bytes)
    requires sum.Length == 32
    modifies sum
    ensures sum[..] == s.hmac(key, in0 + in1)
  {
    HMAC1(s, sum, key, in0 + in1);
  }

  /** t0 may be the array that holds the key. */
  method KDF1(s: Suite, t0: array<Byte>, key: array<Byte>, input: Bytes)
    requires t0.Length == 32
    modifies t0
    ensures t0[..] == Kdf(s, old(key[..]), input, 1)
  {
    FirstBlock(s, Extract(s, key[..], input));
    HMAC1(s, t0, key[..], input);
    HMAC1(s, t0, t0[..], [1]);
  }

  /** One of the outputs may be the array that holds the key. */
  method KDF2(s: Suite, t0: array<Byte>, t1: array<Byte>, key: array<Byte>, input: Bytes)
    requires t0.Length == t1.Length == 32 && t0 != t1
    modifies t0, t1
    ensures t0[..] == Kdf(s, old(key[..]), input, 1)
    ensures t1[..] == Kdf(s, old(key[..]), input, 2)
  {
    var prk := new Byte[32];
    HMAC1(s, prk, key[..], input);
    HMAC1(s, t0, prk[..], [1]);
    HMAC2(s, t1, prk[..], t0[..], [2]);
    FirstBlock(s, prk[..]);
    SetZero(prk);
  }

  method KDF3(s: Suite, t0: array<Byte>, t1: array<Byte>, t2: array<Byte>, key: array<Byte>, input: Bytes)
    requires t0.Length == t1.Length == t2.Length == 32 && t0 != t1 && t0 != t2 && t1 != t2
    modifies t0, t1, t2
    ensures t0[..] == Kdf(s, old(key[..]), input, 1)
    ensures t1[..] == Kdf(s, old(key[..]), input, 2)
    ensures t2[..] == Kdf(s, old(key[..]), input, 3)
  {
    var prk := new Byte[32];
    HMAC1(s, prk, key[..], input);
    HMAC1(s, t0, prk[..], [1]);
    HMAC2(s, t1, prk[..], t0[..], [2]);
    HMAC2(s, t2, prk[..], t1[..], [3]);
    FirstBlock(s, prk[..]);
    assert T(s, prk[..], 2) == s.hmac(prk[..], T(s, prk[..], 1) + [2]);
    SetZero(prk);
  }

  method SetZero(arr: array<Byte>)
    modifies arr
    ensures forall i | 0 <= i < arr.Length :: arr[i] == 0
  {
    for i := 0 to arr.Length
      invariant forall j | 0 <= j < i :: arr[j] == 0
    {
      arr[i] := 0;
    }
  }

  /** The constant-time test: every byte takes part. */
  method IsZero(val: Bytes) returns (r: bool)
    ensures r <==> forall i | 0 <= i < |val| :: val[i] == 0
  {
    r := true;
    for i := 0 to |val|
      invariant r <==> forall j | 0 <= j < i :: val[j] == 0
    {
      r := r && val[i] == 0;
    }
  }

  // ---- Transcript ------------------------------------------------------------------------------

  function Mixed(s: Suite, h: Bytes, data: Bytes): Digest { s.hash(h + data) }

  /** dst may be the array h. */
  method MixHash(s: Suite, dst: array<Byte>, h: array<Byte>, data: Bytes)
    requires dst.Length == 32
    modifies dst
    ensures dst[..] == Mixed(s, old(h[..]), data)
  {
    var d := s.hash(h[..] + data);
    forall i | 0 <= i < 32 { dst[i] := d[i]; }
  }

  method MixKey(s: Suite, dst: array<Byte>, c: array<Byte>, data: Bytes)
    requires dst.Length == 32
    modifies dst
    ensures dst[..] == Kdf(s, old(c[..]), data, 1)
  {
    KDF1(s, dst, c, data);
  }

  method SharedSecret(s: Suite, sk: Digest, pk: Digest) returns (ss: Digest, ok: bool)
    ensures ss == s.dh(sk, pk) && (ok <==> ss != ZERO)
  {
    ss := s.dh(sk, pk);
    var zero := IsZero(ss);
    ok := !zero;
    assert zero ==> ss == ZERO;
  }
}
