/** What the transcripts of a handshake are: the ones that the message pattern IKpsk2 of the Noise
    Protocol Framework prescribes, and such that they bind everything that is mixed into them. */
module NoiseTranscripts {
  import opened Basics
  import opened NoiseCrypto
  import opened Sessions
  import opened NoiseProtocol

  // ---- The message pattern ----------------------------------------------------------------------

  /** The symmetric state of section 5.2 of the framework: chaining key, hash and cipher key. */
  datatype Symmetric = Symmetric(ck: Digest, h: Digest, k: Digest)

  /** The tokens of section 7 and 9 of the framework, and the payload that ends a message. */
  datatype Token = E | S | ES | SS | EE | SE | PSK | Payload

  /** -> e, es, s, ss */
  const FIRST_MESSAGE := [E, ES, S, SS, Payload]

  /** <- e, ee, se, psk */
  const SECOND_MESSAGE := [E, EE, SE, PSK, Payload]

  /** What the tokens stand for. */
  datatype Values = Values(e: Bytes, own: Bytes, es: Bytes, ss: Bytes, ee: Bytes, se: Bytes, psk: Bytes,
                           payload: Bytes)

  function HashIn(s: Suite, st: Symmetric, data: Bytes): Symmetric { st.(h := s.hash(st.h + data)) }

  function KeyIn(s: Suite, st: Symmetric, input: Bytes): Symmetric {
    st.(ck := Kdf(s, st.ck, input, 1), k := Kdf(s, st.ck, input, 2))
  }

  function KeyAndHashIn(s: Suite, st: Symmetric, input: Bytes): Symmetric {
    HashIn(s, st, Kdf(s, st.ck, input, 2)).(ck := Kdf(s, st.ck, input, 1), k := Kdf(s, st.ck, input, 3))
  }

  function Cipher(s: Suite, st: Symmetric, plain: Bytes): Bytes { s.seal(st.k, plain, st.h) }

  /** The state after a token, and the encrypted field that it adds to the message. With a
      preshared key an ephemeral key goes into the chaining key, too. */
  function Process(s: Suite, st: Symmetric, v: Values, token: Token): (Symmetric, seq<Bytes>) {
    match token
    case E => (KeyIn(s, HashIn(s, st, v.e), v.e), [])
    case S => var c := Cipher(s, st, v.own); (HashIn(s, st, c), [c])
    case ES => (KeyIn(s, st, v.es), [])
    case SS => (KeyIn(s, st, v.ss), [])
    case EE => (KeyIn(s, st, v.ee), [])
    case SE => (KeyIn(s, st, v.se), [])
    case PSK => (KeyAndHashIn(s, st, v.psk), [])
    case Payload => var c := Cipher(s, st, v.payload); (HashIn(s, st, c), [c])
  }

  function Message(s: Suite, st: Symmetric, v: Values, tokens: seq<Token>): (Symmetric, seq<Bytes>)
    decreases |tokens|
  {
    if tokens == [] then (st, []) else
      var (st', fields) := Process(s, st, v, tokens[0]);
      var (end, more) := Message(s, st', v, tokens[1..]);
      (end, fields + more)
  }

  /** The protocol name, the prologue and the responder's static key, which is known beforehand. */
  function Beginning(s: Suite, responder: Bytes): Symmetric {
    var ck := s.hash(NOISE_CONSTRUCTION);
    Symmetric(ck, s.hash(s.hash(ck + WG_IDENTIFIER) + responder), ZERO)
  }

  lemma Unroll(s: Suite, st: Symmetric, v: Values, a: Token, rest: seq<Token>)
    ensures var (st', fields) := Process(s, st, v, a);
      var (end, more) := Message(s, st', v, rest);
      Message(s, st, v, [a] + rest) == (end, fields + more)
  {
    assert ([a] + rest)[1..] == rest;
  }

  lemma NoTokens(s: Suite, st: Symmetric, v: Values)
    ensures Message(s, st, v, []) == (st, [])
  {
  }

  lemma FiveTokens(s: Suite, st: Symmetric, v: Values, a: Token, b: Token, c: Token, d: Token, e: Token)
    ensures var (s1, f1) := Process(s, st, v, a);
      var (s2, f2) := Process(s, s1, v, b);
      var (s3, f3) := Process(s, s2, v, c);
      var (s4, f4) := Process(s, s3, v, d);
      var (s5, f5) := Process(s, s4, v, e);
      Message(s, st, v, [a, b, c, d, e]) == (s5, f1 + f2 + f3 + f4 + f5)
  {
    hide Process, Message;
    var (s1, f1) := Process(s, st, v, a);
    var (s2, f2) := Process(s, s1, v, b);
    var (s3, f3) := Process(s, s2, v, c);
    var (s4, f4) := Process(s, s3, v, d);
    var (s5, f5) := Process(s, s4, v, e);
    assert [a, b, c, d, e] == [a] + [b, c, d, e] && [b, c, d, e] == [b] + [c, d, e];
    assert [c, d, e] == [c] + [d, e] && [d, e] == [d] + [e] && [e] == [e] + [];
    Unroll(s, st, v, a, [b, c, d, e]);
    Unroll(s, s1, v, b, [c, d, e]);
    Unroll(s, s2, v, c, [d, e]);
    Unroll(s, s3, v, d, [e]);
    Unroll(s, s4, v, e, []);
    NoTokens(s, s5, v);
    Regroup(f1, f2, f3, f4, f5);
  }

  lemma Regroup(a: seq<Bytes>, b: seq<Bytes>, c: seq<Bytes>, d: seq<Bytes>, e: seq<Bytes>)
    ensures a + (b + (c + (d + (e + [])))) == a + b + c + d + e
  {
  }

  /** An initiation is the first message of the pattern. */
  lemma InitiationFollowsPattern(s: Suite, h: Handshake, publicKey: Digest, msg: MessageInitiation, ephemeral: Digest,
                                 timestamp: Bytes, t: Transcript)
    requires IsInitiation(s, h, publicKey, msg, ephemeral, timestamp, t)
    ensures var v := Values(msg.ephemeral, publicKey, s.dh(ephemeral, h.remoteStatic), h.precomputedStaticStatic, [],
                            [], [], timestamp);
      var (end, fields) := Message(s, Beginning(s, h.remoteStatic), v, FIRST_MESSAGE);
      t == Transcript(end.h, end.ck) && fields == [msg.sealedKey, msg.timestamp]
  {
    hide Kdf;
    var v := Values(msg.ephemeral, publicKey, s.dh(ephemeral, h.remoteStatic), h.precomputedStaticStatic, [], [], [],
                    timestamp);
    FiveTokens(s, Beginning(s, h.remoteStatic), v, E, ES, S, SS, Payload);
  }

  /** A response is the second message, whatever cipher key the first one left behind. */
  lemma ResponseFollowsPattern(s: Suite, t: Transcript, e: Digest, ee: Digest, se: Digest, psk: Digest, empty: Bytes,
                               t': Transcript, k: Digest)
    requires IsResponse(s, t, e, ee, se, psk, empty, t')
    ensures var (end, fields) := Message(s, Symmetric(t.chainKey, t.hash, k), Values(e, [], [], [], ee, se, psk, []),
                                         SECOND_MESSAGE);
      t' == Transcript(end.h, end.ck) && fields == [empty]
  {
    hide Kdf;
    FiveTokens(s, Symmetric(t.chainKey, t.hash, k), Values(e, [], [], [], ee, se, psk, []), E, EE, SE, PSK, Payload);
  }

  // ---- Binding ------------------------------------------------------------------------------------

  datatype Query = HashOf(data: Bytes) | MacOf(key: Bytes, message: Bytes)

  /** Different queries among these have different answers. */
  ghost predicate NoCollision(s: Suite, qs: set<Query>) {
    && (forall a, b | HashOf(a) in qs && HashOf(b) in qs && s.hash(a) == s.hash(b) :: a == b)
    && (forall k, m, k', m' | MacOf(k, m) in qs && MacOf(k', m') in qs && s.hmac(k, m) == s.hmac(k', m') ::
          k == k' && m == m')
  }

  function KdfQueries(s: Suite, key: Bytes, input: Bytes): set<Query> {
    {MacOf(key, input), MacOf(s.hmac(key, input), [1])}
  }

  lemma KdfBinds(s: Suite, qs: set<Query>, key: Bytes, input: Bytes, key': Bytes, input': Bytes)
    requires NoCollision(s, qs) && KdfQueries(s, key, input) <= qs && KdfQueries(s, key', input') <= qs
    requires Kdf(s, key, input, 1) == Kdf(s, key', input', 1)
    ensures key == key' && input == input'
  {
    var prk, prk' := s.hmac(key, input), s.hmac(key', input');
    FirstBlock(s, prk);
    FirstBlock(s, prk');
    assert MacOf(prk, [1]) in qs && MacOf(prk', [1]) in qs;
    assert MacOf(key, input) in qs && MacOf(key', input') in qs;
  }

  lemma MixedBinds(s: Suite, qs: set<Query>, h: Digest, data: Bytes, h': Digest, data': Bytes)
    requires NoCollision(s, qs) && HashOf(h + data) in qs && HashOf(h' + data') in qs
    requires Mixed(s, h, data) == Mixed(s, h', data')
    ensures h == h' && data == data'
  {
    assert h == (h + data)[..32] && h' == (h' + data')[..32];
    assert data == (h + data)[32..] && data' == (h' + data')[32..];
  }

  /** What is hashed and authenticated on the way to an initiation's transcript. */
  function InitiationQueries(s: Suite, responder: Bytes, e: Bytes, es: Bytes, ss: Bytes, sealedKey: Bytes,
                             stamp: Bytes): set<Query> {
    var h0, ck0 := InitialHash(s), InitialChainKey(s);
    var t1 := Opened(s, responder, e);
    var t2 := Sealed(s, t1, es, sealedKey);
    {HashOf(h0 + responder), HashOf(Mixed(s, h0, responder) + e), HashOf(t1.hash + sealedKey), HashOf(t2.hash + stamp)}
    + KdfQueries(s, ck0, e) + KdfQueries(s, t1.chainKey, es) + KdfQueries(s, t2.chainKey, ss)
  }

  function ResponseQueries(s: Suite, t: Transcript, e: Bytes, ee: Bytes, se: Bytes, psk: Bytes, empty: Bytes)
    : set<Query>
  {
    var c1 := Kdf(s, t.chainKey, e, 1);
    var c2 := Kdf(s, c1, ee, 1);
    var c3 := Kdf(s, c2, se, 1);
    var h1 := Mixed(s, t.hash, e);
    var tau := Kdf(s, c3, psk, 2);
    {HashOf(t.hash + e), HashOf(h1 + tau), HashOf(Mixed(s, h1, tau) + empty)}
    + KdfQueries(s, t.chainKey, e) + KdfQueries(s, c1, ee) + KdfQueries(s, c2, se) + KdfQueries(s, c3, psk)
  }

  lemma SealedBinds(s: Suite, qs: set<Query>, t: Transcript, secret: Bytes, field: Bytes, u: Transcript, secret': Bytes,
                    field': Bytes)
    requires NoCollision(s, qs) && HashOf(t.hash + field) in qs && HashOf(u.hash + field') in qs
    requires KdfQueries(s, t.chainKey, secret) <= qs && KdfQueries(s, u.chainKey, secret') <= qs
    requires Sealed(s, t, secret, field) == Sealed(s, u, secret', field')
    ensures t == u && secret == secret' && field == field'
  {
    hide NoCollision, Kdf, KdfQueries;
    MixedBinds(s, qs, t.hash, field, u.hash, field');
    KdfBinds(s, qs, t.chainKey, secret, u.chainKey, secret');
  }

  /** Initiations that end in one transcript have the same static keys, ephemeral key, shared
      secrets, stamp and sealed fields. */
  lemma InitiationBinds(s: Suite, h: Handshake, pk: Digest, msg: MessageInitiation, x: Digest, stamp: Bytes,
                        h': Handshake, pk': Digest, msg': MessageInitiation, x': Digest, stamp': Bytes, t: Transcript)
    requires Laws(s) && IsInitiation(s, h, pk, msg, x, stamp, t) && IsInitiation(s, h', pk', msg', x', stamp', t)
    requires NoCollision(s, QueriesOf(s, h, msg, x) + QueriesOf(s, h', msg', x'))
    ensures h.remoteStatic == h'.remoteStatic && pk == pk' && msg.ephemeral == msg'.ephemeral && stamp == stamp'
    ensures s.dh(x, h.remoteStatic) == s.dh(x', h'.remoteStatic)
    ensures h.precomputedStaticStatic == h'.precomputedStaticStatic
    ensures msg.sealedKey == msg'.sealedKey && msg.timestamp == msg'.timestamp
  {
    hide NoCollision, Kdf, KdfQueries, Mixed, Sealed;
    var qs := QueriesOf(s, h, msg, x) + QueriesOf(s, h', msg', x');
    var es, es', ss, ss' := s.dh(x, h.remoteStatic), s.dh(x', h'.remoteStatic), h.precomputedStaticStatic,
                            h'.precomputedStaticStatic;
    var t1, u1 := Opened(s, h.remoteStatic, msg.ephemeral), Opened(s, h'.remoteStatic, msg'.ephemeral);
    var t2, u2 := Sealed(s, t1, es, msg.sealedKey), Sealed(s, u1, es', msg'.sealedKey);
    SealedBinds(s, qs, t2, ss, msg.timestamp, u2, ss', msg'.timestamp);
    SealedBinds(s, qs, t1, es, msg.sealedKey, u1, es', msg'.sealedKey);
    OpenedBinds(s, qs, h.remoteStatic, msg.ephemeral, h'.remoteStatic, msg'.ephemeral);
    SealBinds(s, FieldKey(s, t1, es), pk, pk', t1.hash);
    SealBinds(s, FieldKey(s, t2, ss), stamp, stamp', t2.hash);
  }

  ghost function QueriesOf(s: Suite, h: Handshake, msg: MessageInitiation, x: Digest): set<Query> {
    InitiationQueries(s, h.remoteStatic, msg.ephemeral, s.dh(x, h.remoteStatic), h.precomputedStaticStatic,
                      msg.sealedKey, msg.timestamp)
  }

  lemma SealBinds(s: Suite, k: Digest, p: Bytes, p': Bytes, ad: Bytes)
    requires Laws(s) && s.seal(k, p, ad) == s.seal(k, p', ad)
    ensures p == p'
  {
    assert s.open(k, s.seal(k, p, ad), ad) == Some(p) && s.open(k, s.seal(k, p', ad), ad) == Some(p');
  }

  lemma OpenedBinds(s: Suite, qs: set<Query>, responder: Bytes, e: Bytes, responder': Bytes, e': Bytes)
    requires NoCollision(s, qs) && HashOf(InitialHash(s) + responder) in qs && HashOf(InitialHash(s) + responder') in qs
    requires HashOf(Mixed(s, InitialHash(s), responder) + e) in qs
    requires HashOf(Mixed(s, InitialHash(s), responder') + e') in qs
    requires Opened(s, responder, e) == Opened(s, responder', e')
    ensures responder == responder' && e == e'
  {
    hide NoCollision, Kdf, Mixed, InitialHash;
    var h0 := InitialHash(s);
    MixedBinds(s, qs, Mixed(s, h0, responder), e, Mixed(s, h0, responder'), e');
    MixedBinds(s, qs, h0, responder, h0, responder');
  }

  /** Responses that end in one transcript answer the same one, with the same ephemeral key,
      shared secrets, preshared key and empty field. */
  lemma ResponseBinds(s: Suite, t: Transcript, e: Digest, ee: Digest, se: Digest, psk: Digest, empty: Bytes,
                      u: Transcript, e': Digest, ee': Digest, se': Digest, psk': Digest, empty': Bytes, end: Transcript)
    requires IsResponse(s, t, e, ee, se, psk, empty, end) && IsResponse(s, u, e', ee', se', psk', empty', end)
    requires NoCollision(s, ResponseQueries(s, t, e, ee, se, psk, empty)
                            + ResponseQueries(s, u, e', ee', se', psk', empty'))
    ensures t == u && e == e' && ee == ee' && se == se' && psk == psk' && empty == empty'
  {
    hide NoCollision, Kdf, KdfQueries, Mixed;
    var qs := ResponseQueries(s, t, e, ee, se, psk, empty) + ResponseQueries(s, u, e', ee', se', psk', empty');
    ChainBinds(s, qs, t, e, ee, se, psk, empty, u, e', ee', se', psk', empty', end, end);
    var tau := Kdf(s, Answered(s, t.chainKey, e, ee, se), psk, 2);
    var h, h' := Mixed(s, t.hash, e), Mixed(s, u.hash, e');
    MixedBinds(s, qs, Mixed(s, h, tau), empty, Mixed(s, h', tau), empty');
    MixedBinds(s, qs, h, tau, h', tau);
    MixedBinds(s, qs, t.hash, e, u.hash, e');
  }

  /** The chain keys alone bind everything that is secret. */
  lemma ChainBinds(s: Suite, qs: set<Query>, t: Transcript, e: Digest, ee: Digest, se: Digest, psk: Digest,
                   empty: Bytes, u: Transcript, e': Digest, ee': Digest, se': Digest, psk': Digest, empty': Bytes,
                   end: Transcript, end': Transcript)
    requires IsResponse(s, t, e, ee, se, psk, empty, end) && IsResponse(s, u, e', ee', se', psk', empty', end')
    requires NoCollision(s, qs) && end.chainKey == end'.chainKey
    requires ResponseQueries(s, t, e, ee, se, psk, empty) + ResponseQueries(s, u, e', ee', se', psk', empty') <= qs
    ensures t.chainKey == u.chainKey && e == e' && ee == ee' && se == se' && psk == psk'
  {
    hide NoCollision, Kdf, KdfQueries, Mixed;
    var c1, d1 := Kdf(s, t.chainKey, e, 1), Kdf(s, u.chainKey, e', 1);
    var c2, d2 := Kdf(s, c1, ee, 1), Kdf(s, d1, ee', 1);
    var c3, d3 := Kdf(s, c2, se, 1), Kdf(s, d2, se', 1);
    KdfBinds(s, qs, c3, psk, d3, psk');
    KdfBinds(s, qs, c2, se, d2, se');
    KdfBinds(s, qs, c1, ee, d1, ee');
    KdfBinds(s, qs, t.chainKey, e, u.chainKey, e');
  }

  /** So equal session keys come from equal secrets. */
  lemma SessionBinds(s: Suite, qs: set<Query>, t: Transcript, e: Digest, ee: Digest, se: Digest, psk: Digest,
                     empty: Bytes, u: Transcript, e': Digest, ee': Digest, se': Digest, psk': Digest, empty': Bytes,
                     end: Transcript, end': Transcript)
    requires IsResponse(s, t, e, ee, se, psk, empty, end) && IsResponse(s, u, e', ee', se', psk', empty', end')
    requires NoCollision(s, qs) && Kdf(s, end.chainKey, [], 1) == Kdf(s, end'.chainKey, [], 1)
    requires ResponseQueries(s, t, e, ee, se, psk, empty) + ResponseQueries(s, u, e', ee', se', psk', empty') <= qs
    requires KdfQueries(s, end.chainKey, []) + KdfQueries(s, end'.chainKey, []) <= qs
    ensures t.chainKey == u.chainKey && e == e' && ee == ee' && se == se' && psk == psk'
  {
    hide NoCollision, Kdf, KdfQueries, Mixed, IsResponse, ResponseQueries;
    KdfBinds(s, qs, end.chainKey, [], end'.chainKey, []);
    ChainBinds(s, qs, t, e, ee, se, psk, empty, u, e', ee', se', psk', empty', end, end');
  }
}
