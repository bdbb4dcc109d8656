/** An honest handshake between two devices ends with matching session keys and indices. */
module HonestRun {
  import opened Basics
  import opened NoiseCrypto
  import opened Sessions
  import opened NoiseProtocol
  import Tai64n

  /** The responder recognises the initiator and arrives at the same transcript, although it
      mixes in a different order and computes its shared secrets from the other side. */
  lemma InitiationAgrees(i: Device, r: Device, h: Handshake, msg: MessageInitiation, ephemeral: Digest,
                         timestamp: Bytes, t: Transcript)
    requires Laws(i.suite) && r.suite == i.suite && r.Keyed()
    requires IsInitiation(i.suite, h, i.publicKey, msg, ephemeral, timestamp, t)
    requires i.publicKey == i.suite.publicKey(i.privateKey) && r.publicKey == r.suite.publicKey(r.privateKey)
    requires h.remoteStatic == r.publicKey && h.precomputedStaticStatic == i.suite.dh(i.privateKey, r.publicKey)
    requires i.suite.dh(ephemeral, r.publicKey) != ZERO && h.precomputedStaticStatic != ZERO
    requires i.publicKey in r.peers && r.peers[i.publicKey].isRunning
    ensures r.Recognised(msg) == Some(Recognition(r.peers[i.publicKey], t, timestamp))
    ensures msg.ephemeral == i.suite.publicKey(ephemeral)
  {
    hide Opened, Sealed, FieldKey;
    var s := i.suite;
    assert s.dh(r.privateKey, s.publicKey(ephemeral)) == s.dh(ephemeral, s.publicKey(r.privateKey));
    assert s.dh(r.privateKey, s.publicKey(i.privateKey)) == s.dh(i.privateKey, s.publicKey(r.privateKey));
  }

  /** The initiator accepts the response and arrives at the responder's transcript. */
  lemma ResponseAgrees(s: Suite, privateKey: Digest, h: Handshake, msg: MessageResponse, e1: Digest, e2: Digest,
                       t': Transcript)
    requires Laws(s) && h.hash.Length == h.chainKey.Length == 32 && h.localEphemeral == e1
    requires msg.ephemeral == s.publicKey(e2)
    requires IsResponse(s, CurrentTranscript(h), s.publicKey(e2), s.dh(e2, s.publicKey(e1)),
                        s.dh(e2, s.publicKey(privateKey)), h.presharedKey, msg.empty, t')
    requires s.dh(e2, s.publicKey(e1)) != ZERO && s.dh(e2, s.publicKey(privateKey)) != ZERO
    ensures Authentic(s, privateKey, h, msg) && AnswerOf(s, privateKey, h, msg) == t'
  {
    hide Answered, ResponseHash, Kdf, Finished;
    assert s.dh(e1, s.publicKey(e2)) == s.dh(e2, s.publicKey(e1));
    assert s.dh(privateKey, s.publicKey(e2)) == s.dh(e2, s.publicKey(privateKey));
  }

  /** The two sides have nothing in common in memory. */
  ghost predicate Separate(i: Device, r: Device, pi: Peer, pr: Peer)
    reads i, r
  {
    && i.indexTable != r.indexTable
    && pr !in i.all && pi !in r.all && pr.handshake !in i.handshakes && pi.handshake !in r.handshakes
    && pi.handshake.hash != pr.handshake.hash && pi.handshake.hash != pr.handshake.chainKey
    && pi.handshake.chainKey != pr.handshake.hash && pi.handshake.chainKey != pr.handshake.chainKey
  }

  /** Each device knows the other one, and the preshared keys are equal. */
  ghost predicate Acquainted(i: Device, r: Device, pi: Peer, pr: Peer)
    reads i, r, pr
  {
    && r.suite == i.suite && Laws(i.suite)
    && i.publicKey == i.suite.publicKey(i.privateKey) && r.publicKey == r.suite.publicKey(r.privateKey)
    && pi in i.all && pi.handshake.remoteStatic == r.publicKey
    && pr in r.all && pr.handshake.remoteStatic == i.publicKey && pr.isRunning
    && pi.handshake.presharedKey == pr.handshake.presharedKey
  }

  /** No shared secret of the run is the zero secret of a bad public key. */
  ghost predicate NoBadSecret(i: Device, r: Device, e1: Digest, e2: Digest) {
    var s := i.suite;
    && s.dh(e1, r.publicKey) != ZERO && s.dh(i.privateKey, r.publicKey) != ZERO
    && s.dh(e2, s.publicKey(e1)) != ZERO && s.dh(e2, i.publicKey) != ZERO
  }

  /** The random source yields an index for the peer's handshake, and does not yield 0. */
  ghost predicate Draws(d: Device, p: Peer, draws: seq<Index>)
    reads d.indexTable, p.handshake
  {
    0 !in draws && Drawable(d.Vacated(p), draws)
  }

  /** The initiator's message is one that the responder recognises. */
  method SendInitiation(i: Device, r: Device, pi: Peer, ghost pr: Peer, e1: Digest, ghost e2: Digest,
                        timestamp: Bytes, draws: seq<Index>)
    returns (msg: MessageInitiation, ghost t: Transcript)
    requires i.Valid() && r.Valid() && Separate(i, r, pi, pr) && Acquainted(i, r, pi, pr) && NoBadSecret(i, r, e1, e2)
    requires Draws(i, pi, draws)
    modifies pi.handshake, pi.handshake.hash, pi.handshake.chainKey, i.indexTable
    ensures i.Valid() && r.Valid() && HasIndex(pi, InitiationCreated, msg.sender) && pi.handshake.localEphemeral == e1
    ensures msg.sender in i.indexTable.table && i.indexTable.table[msg.sender] == Entry(pi, pi.handshake, null)
    ensures pi.handshake.hash.Length == pi.handshake.chainKey.Length == 32 && CurrentTranscript(pi.handshake) == t
    ensures r.Keyed() && r.Recognised(msg) == Some(Recognition(pr, t, timestamp))
    ensures msg.ephemeral == i.suite.publicKey(e1)
  {
    hide Device.Valid, Device.Keyed, Device.Recognised, IsInitiation, CurrentTranscript, Laws;
    PeerFacts(i, pi);
    PeerFacts(r, pr);
    var m := i.CreateMessageInitiation(pi, e1, timestamp, draws);
    msg, t := m.value, CurrentTranscript(pi.handshake);
    InitiationAgrees(i, r, pi.handshake, msg, e1, timestamp, t);
  }

  /** The first half: initiation created and consumed. */
  method Initiate(i: Device, r: Device, pi: Peer, ghost pr: Peer, e1: Digest, ghost e2: Digest, timestamp: Bytes,
                  now: int, draws: seq<Index>)
    returns (msg: MessageInitiation, ghost t: Transcript)
    requires i.Valid() && r.Valid() && Separate(i, r, pi, pr) && Acquainted(i, r, pi, pr) && NoBadSecret(i, r, e1, e2)
    requires Draws(i, pi, draws)
    requires Tai64n.After(timestamp, pr.handshake.lastTimestamp)
    requires now - pr.handshake.lastInitiationConsumption > HANDSHAKE_INITIATION_RATE
    modifies pi.handshake, pi.handshake.hash, pi.handshake.chainKey, i.indexTable, pr.handshake, pr.handshake.hash,
             pr.handshake.chainKey
    ensures i.Valid() && r.Valid()
    ensures HasIndex(pi, InitiationCreated, msg.sender) && pi.handshake.localEphemeral == e1
    ensures msg.sender in i.indexTable.table && i.indexTable.table[msg.sender] == Entry(pi, pi.handshake, null)
    ensures pi.handshake.hash.Length == pi.handshake.chainKey.Length == 32 && CurrentTranscript(pi.handshake) == t
    ensures Heard(pr.handshake, msg, Recognition(pr, t, timestamp), now) && msg.ephemeral == i.suite.publicKey(e1)
    ensures pr.handshake.localIndex == old(pr.handshake.localIndex)
  {
    hide Device.Valid, Device.Keyed, Device.Recognised, CurrentTranscript, Acquainted, NoBadSecret, Laws, Heard,
         Draws, HasIndex, Tai64n.After;
    Linked(i, r, pi, pr);
    msg, t := SendInitiation(i, r, pi, pr, e1, e2, timestamp, draws);
    var peer := r.ConsumeMessageInitiation(msg, now, pr);
  }

  lemma Linked(i: Device, r: Device, pi: Peer, pr: Peer)
    requires Acquainted(i, r, pi, pr)
    ensures pi in i.all && pr in r.all && r.suite == i.suite
    ensures i.publicKey == i.suite.publicKey(i.privateKey) && r.publicKey == r.suite.publicKey(r.privateKey)
  {
  }

  /** The handshakes between the two halves: one transcript, and each other's keys. */
  ghost predicate HalfWay(i: Device, pi: Peer, pr: Peer, e1: Digest, index: Index, t: Transcript)
    reads i.indexTable, pi.handshake, pi.handshake.hash, pi.handshake.chainKey, pr.handshake, pr.handshake.hash,
          pr.handshake.chainKey
  {
    && HasIndex(pi, InitiationCreated, index) && pi.handshake.localEphemeral == e1
    && index in i.indexTable.table && i.indexTable.table[index] == Entry(pi, pi.handshake, null)
    && pi.handshake.hash.Length == pi.handshake.chainKey.Length == 32 && CurrentTranscript(pi.handshake) == t
    && pr.handshake.hash.Length == pr.handshake.chainKey.Length == 32 && CurrentTranscript(pr.handshake) == t
    && pr.handshake.state == InitiationConsumed && pr.handshake.remoteIndex == index
    && pr.handshake.remoteEphemeral == i.suite.publicKey(e1)
  }

  lemma HalfWayThere(i: Device, pi: Peer, pr: Peer, e1: Digest, msg: MessageInitiation, t: Transcript,
                     timestamp: Bytes, now: int)
    requires HasIndex(pi, InitiationCreated, msg.sender) && pi.handshake.localEphemeral == e1
    requires msg.sender in i.indexTable.table && i.indexTable.table[msg.sender] == Entry(pi, pi.handshake, null)
    requires pi.handshake.hash.Length == pi.handshake.chainKey.Length == 32 && CurrentTranscript(pi.handshake) == t
    requires Heard(pr.handshake, msg, Recognition(pr, t, timestamp), now) && msg.ephemeral == i.suite.publicKey(e1)
    ensures HalfWay(i, pi, pr, e1, msg.sender, t)
  {
  }

  lemma Ingredients(i: Device, r: Device, pi: Peer, pr: Peer, e1: Digest, e2: Digest)
    requires Acquainted(i, r, pi, pr) && NoBadSecret(i, r, e1, e2)
    ensures pi in i.all && pr in r.all && r.suite == i.suite && Laws(i.suite)
    ensures pr.handshake.remoteStatic == i.suite.publicKey(i.privateKey)
    ensures pi.handshake.presharedKey == pr.handshake.presharedKey
    ensures i.suite.dh(e2, i.suite.publicKey(e1)) != ZERO && i.suite.dh(e2, i.suite.publicKey(i.privateKey)) != ZERO
  {
  }

  /** The responder's message is one that the initiator accepts. */
  method SendResponse(i: Device, r: Device, ghost pi: Peer, pr: Peer, ghost e1: Digest, e2: Digest,
                      ghost index: Index, ghost t: Transcript, draws: seq<Index>)
    returns (msg: MessageResponse, ghost t': Transcript)
    requires i.Valid() && r.Valid() && Separate(i, r, pi, pr) && Acquainted(i, r, pi, pr) && NoBadSecret(i, r, e1, e2)
    requires Draws(r, pr, draws)
    requires HalfWay(i, pi, pr, e1, index, t)
    modifies pr.handshake, pr.handshake.hash, pr.handshake.chainKey, r.indexTable
    ensures i.Valid() && r.Valid()
    ensures pi.handshake.hash.Length == pi.handshake.chainKey.Length == 32
    ensures msg.receiver == index && i.Awaiting(msg) && i.Accepted(msg) == Some(t')
    ensures pr.handshake.hash.Length == pr.handshake.chainKey.Length == 32 && CurrentTranscript(pr.handshake) == t'
    ensures HasIndex(pr, ResponseCreated, msg.sender) && pr.handshake.remoteIndex == index
  {
    hide Device.Valid, Device.Keyed, IsResponse, CurrentTranscript, Laws, AnswerOf, Authentic, Acquainted, NoBadSecret;
    Ingredients(i, r, pi, pr, e1, e2);
    PeerFacts(i, pi);
    var m := r.CreateMessageResponse(pr, e2, draws, 0);
    msg, t' := m.value, CurrentTranscript(pr.handshake);
    ResponseAgrees(i.suite, i.privateKey, pi.handshake, msg, e1, e2, t');
  }

  /** The second half: response created and consumed. */
  method Respond(i: Device, r: Device, ghost pi: Peer, pr: Peer, ghost e1: Digest, e2: Digest, ghost index: Index,
                 ghost t: Transcript, draws: seq<Index>)
    returns (msg: MessageResponse, ghost t': Transcript)
    requires i.Valid() && r.Valid() && Separate(i, r, pi, pr) && Acquainted(i, r, pi, pr) && NoBadSecret(i, r, e1, e2)
    requires Draws(r, pr, draws)
    requires HalfWay(i, pi, pr, e1, index, t)
    modifies pr.handshake, pr.handshake.hash, pr.handshake.chainKey, r.indexTable, pi.handshake, pi.handshake.hash,
             pi.handshake.chainKey
    ensures i.Valid() && r.Valid()
    ensures pi.handshake.hash.Length == pi.handshake.chainKey.Length == 32 && CurrentTranscript(pi.handshake) == t'
    ensures pr.handshake.hash.Length == pr.handshake.chainKey.Length == 32 && CurrentTranscript(pr.handshake) == t'
    ensures HasIndex(pr, ResponseCreated, msg.sender) && pr.handshake.remoteIndex == index
    ensures HasIndex(pi, ResponseConsumed, index) && pi.handshake.remoteIndex == msg.sender
  {
    hide Device.Valid, Device.Keyed, CurrentTranscript, Acquainted, NoBadSecret, Laws, Draws, Device.Accepted;
    Linked(i, r, pi, pr);
    msg, t' := SendResponse(i, r, pi, pr, e1, e2, index, t, draws);
    var peer := i.ConsumeMessageResponse(msg, pi);
  }

  /** A whole honest run up to the first packet that the responder receives under the new keys,
      whatever the two handshakes went through before. Both sides then send with the new keypair:
      each side's send key is the other's receive key, and each remote index is the other's local
      index. */
  method Handshakes(i: Device, r: Device, pi: Peer, pr: Peer, e1: Digest, e2: Digest, timestamp: Bytes, now: int,
                    drawsI: seq<Index>, drawsR: seq<Index>)
    returns (kI: Keypair?, kR: Keypair?)
    requires i.Valid() && r.Valid() && Separate(i, r, pi, pr) && Acquainted(i, r, pi, pr) && NoBadSecret(i, r, e1, e2)
    requires Draws(i, pi, drawsI) && Draws(r, pr, drawsR)
    requires Tai64n.After(timestamp, pr.handshake.lastTimestamp)
    requires now - pr.handshake.lastInitiationConsumption > HANDSHAKE_INITIATION_RATE
    modifies pi, pi.handshake, pi.handshake.hash, pi.handshake.chainKey, i.indexTable
    modifies pr, pr.handshake, pr.handshake.hash, pr.handshake.chainKey, r.indexTable
    ensures i.Valid() && r.Valid() && kI != null && kR != null
    ensures kI.isInitiator && !kR.isInitiator && pi.current == kI && pr.current == kR && pi.next == pr.next == null
    ensures pr.previous == old(pr.current)
    ensures pi.previous == if old(pi.next) != null then old(pi.next) else old(pi.current)
    ensures kI.send == kR.receive && kI.receive == kR.send
    ensures kI.remoteIndex == kR.localIndex && kR.remoteIndex == kI.localIndex
  {
    hide Device.Valid, Device.Keyed, CurrentTranscript, Acquainted, NoBadSecret, Laws, Heard, HalfWay, Kdf,
         BegunTable, Tai64n.After;
    Linked(i, r, pi, pr);
    var m1, t := Initiate(i, r, pi, pr, e1, e2, timestamp, now, drawsI);
    HalfWayThere(i, pi, pr, e1, m1, t, timestamp, now);
    var m2, t' := Respond(i, r, pi, pr, e1, e2, m1.sender, t, drawsR);
    SameChain(pi, pr);
    assert pi.handshake.chainKey[..] == t'.chainKey;
    kI := i.BeginSymmetricSession(pi);
    SameChain(pi, pr);
    assert pr.handshake.chainKey[..] == t'.chainKey;
    kR := r.BeginSymmetricSession(pr);
    var promoted := r.ReceivedWithKeypair(pr, kR);
  }

  lemma SameChain(pi: Peer, pr: Peer)
    requires pi.handshake.hash.Length == pi.handshake.chainKey.Length == 32
    requires pr.handshake.hash.Length == pr.handshake.chainKey.Length == 32
    ensures CurrentTranscript(pi.handshake).chainKey == pi.handshake.chainKey[..]
    ensures CurrentTranscript(pr.handshake).chainKey == pr.handshake.chainKey[..]
  {
  }

  /** A device and its first peer. */
  method Found(s: Suite, key: Digest, peerKey: Digest, psk: Digest) returns (d: Device, p: Peer)
    ensures fresh(d) && d.Valid() && fresh(d.indexTable) && d.indexTable.table == map[]
    ensures d.suite == s && d.privateKey == key && d.publicKey == s.publicKey(key)
    ensures fresh(p) && fresh(p.handshake) && fresh(p.handshake.hash) && fresh(p.handshake.chainKey)
    ensures d.all == {p} && d.handshakes == {p.handshake} && d.peers == map[peerKey := p]
    ensures NewHandshake(p.handshake, peerKey, psk) && !p.isRunning && p.handshake.localIndex == 0
  {
    hide Device.Valid, NewHandshake;
    d := new Device(s, key);
    var q := d.NewPeer(peerKey, psk, false);
    p := q;
  }

  /** Two devices that know each other. */
  method Introduce(s: Suite, keyI: Digest, keyR: Digest, psk: Digest, at: Tai64n.Instant)
    returns (i: Device, r: Device, pi: Peer, pr: Peer)
    requires Laws(s)
    ensures fresh(i) && fresh(r) && i.suite == s && i.privateKey == keyI && r.privateKey == keyR
    ensures i.Valid() && r.Valid() && Separate(i, r, pi, pr) && Acquainted(i, r, pi, pr)
    ensures i.peers == map[r.publicKey := pi] && r.peers == map[i.publicKey := pr]
    ensures i.indexTable.table == r.indexTable.table == map[] && pi.handshake.localIndex == pr.handshake.localIndex == 0
    ensures pr.handshake.lastTimestamp == seq(12, _ => 0)
    ensures pr.handshake.lastInitiationConsumption == Tai64n.ZERO_TIME
    ensures fresh(pi) && fresh(pi.handshake) && fresh(pi.handshake.hash) && fresh(pi.handshake.chainKey)
    ensures fresh(pr) && fresh(pr.handshake) && fresh(pr.handshake.hash) && fresh(pr.handshake.chainKey)
    ensures fresh(i.indexTable) && fresh(r.indexTable)
  {
    hide Device.Valid, Laws;
    i, pi := Found(s, keyI, s.publicKey(keyR), psk);
    r, pr := Found(s, keyR, s.publicKey(keyI), psk);
    r.Start(pr, at, false);
  }

  /** Two new devices that get to know each other, and their first handshake. The initiation is
      stamped at t, and the responder's clock reads now. */
  method Meet(s: Suite, keyI: Digest, keyR: Digest, psk: Digest, e1: Digest, e2: Digest, t: Tai64n.Instant,
              now: int, drawsI: seq<Index>, drawsR: seq<Index>)
    returns (i: Device, r: Device, kI: Keypair?, kR: Keypair?)
    requires Laws(s) && s.dh(e1, s.publicKey(keyR)) != ZERO && s.dh(keyI, s.publicKey(keyR)) != ZERO
    requires s.dh(e2, s.publicKey(e1)) != ZERO && s.dh(e2, s.publicKey(keyI)) != ZERO
    requires Tai64n.Proper(t) && t.secs > -Tai64n.BASE && now > Tai64n.ZERO_TIME + HANDSHAKE_INITIATION_RATE
    requires drawsI != [] && drawsR != [] && 0 !in drawsI && 0 !in drawsR
    ensures fresh(i) && fresh(r) && i.Valid() && r.Valid() && kI != null && kR != null
    ensures kI.isInitiator && !kR.isInitiator && kI.send == kR.receive && kI.receive == kR.send
    ensures kI.remoteIndex == kR.localIndex && kR.remoteIndex == kI.localIndex
    ensures i.publicKey == s.publicKey(keyI) && i.publicKey in r.peers && r.peers[i.publicKey].current == kR
    ensures r.publicKey == s.publicKey(keyR) && r.publicKey in i.peers && i.peers[r.publicKey].current == kI
  {
    hide Device.Valid, Laws, Tai64n.After, Tai64n.Stamp, Separate, Acquainted;
    var pi, pr;
    i, r, pi, pr := Introduce(s, keyI, keyR, psk, t);
    Tai64n.LaterThanZero(t);
    Linked(i, r, pi, pr);
    assert drawsI[0] !in i.Vacated(pi) && drawsR[0] !in r.Vacated(pr);
        kI, kR := Handshakes(i, r, pi, pr, e1, e2, Tai64n.Stamp(t), now, drawsI, drawsR);
  }
}
