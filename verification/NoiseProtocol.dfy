/** The Noise IKpsk2 handshake and the session lifecycle of a device with any number of peers. */
module NoiseProtocol {
  import opened Basics
  import opened NoiseCrypto
  import opened Sessions
  import Nonces
  import Tai64n

  const NOISE_CONSTRUCTION := Ascii("Noise_IKpsk2_25519_ChaChaPoly_BLAKE2s")
  const WG_IDENTIFIER := Ascii("WireGuard v1 zx2c4 Jason@zx2c4.com")
  const MESSAGE_INITIATION_TYPE := 1
  const MESSAGE_RESPONSE_TYPE := 2
  const HANDSHAKE_INITIATION_RATE := 20_000_000
  const MAX_PEERS := 0x1_0000

  function Ascii(s: string): Bytes { seq(|s|, i requires 0 <= i < |s| => s[i] as int % 0x100) }

  datatype MessageInitiation = MessageInitiation(msgType: nat, sender: Index, ephemeral: Digest, sealedKey: Bytes,
                                                 timestamp: Bytes)
  datatype MessageResponse = MessageResponse(msgType: nat, sender: Index, receiver: Index, ephemeral: Digest,
                                             empty: Bytes)

  // ---- Transcripts: what both sides are meant to compute -------------------------------------

  datatype Transcript = Transcript(hash: Digest, chainKey: Digest)

  function InitialChainKey(s: Suite): Digest { s.hash(NOISE_CONSTRUCTION) }
  function InitialHash(s: Suite): Digest { Mixed(s, InitialChainKey(s), WG_IDENTIFIER) }

  /** The responder's static key and the initiator's ephemeral key mixed in. */
  function Opened(s: Suite, responder: Bytes, ephemeral: Bytes): Transcript {
    Transcript(Mixed(s, Mixed(s, InitialHash(s), responder), ephemeral), Kdf(s, InitialChainKey(s), ephemeral, 1))
  }

  /** The key that protects the next field, given a shared secret. */
  function FieldKey(s: Suite, t: Transcript, secret: Bytes): Digest { Kdf(s, t.chainKey, secret, 2) }

  /** A shared secret and a protected field mixed in. */
  function Sealed(s: Suite, t: Transcript, secret: Bytes, field: Bytes): Transcript {
    Transcript(Mixed(s, t.hash, field), Kdf(s, t.chainKey, secret, 1))
  }

  /** The chain key after the responder's ephemeral key and both shared secrets. */
  function Answered(s: Suite, chainKey: Bytes, ephemeral: Bytes, ee: Bytes, se: Bytes): Digest {
    Kdf(s, Kdf(s, Kdf(s, chainKey, ephemeral, 1), ee, 1), se, 1)
  }

  /** The hash that authenticates the response: ephemeral key and preshared key mixed in. */
  function ResponseHash(s: Suite, t: Transcript, ephemeral: Bytes, ck: Bytes, psk: Bytes): Digest {
    Mixed(s, Mixed(s, t.hash, ephemeral), Kdf(s, ck, psk, 2))
  }

  function Finished(s: Suite, hash: Bytes, ck: Bytes, psk: Bytes, empty: Bytes): Transcript {
    Transcript(Mixed(s, hash, empty), Kdf(s, ck, psk, 1))
  }

  // ---- The device -----------------------------------------------------------------------------

  ghost function Occupancy(p: Peer): Slots
    reads p, p.handshake
  {
    Slots(p.handshake.localIndex, p.previous, p.current, p.next)
  }

  ghost function ViewOf(ps: set<Peer>, hs: set<Handshake>): View
    requires forall p | p in ps :: p.handshake in hs
    reads ps, hs
  {
    map p | p in ps :: Occupancy(p)
  }

  /** A handshake that is under way has an index. */
  ghost predicate HandshakeOK(h: Handshake)
    reads h
  {
    h.state.InitiationCreated? || h.state.ResponseCreated? || h.state.ResponseConsumed? ==> h.localIndex != 0
  }

  /** The peers of a device have their own handshakes, each with its own buffers. */
  ghost predicate Owned(ps: set<Peer>, hs: set<Handshake>, buffers: set<array<Byte>>) {
    && (forall p | p in ps :: p.handshake in hs && p.handshake.hash in buffers && p.handshake.chainKey in buffers)
    && (forall p, q | p in ps && q in ps && p.handshake == q.handshake :: p == q)
    && (forall p | p in ps :: p.handshake.hash.Length == p.handshake.chainKey.Length == 32)
    && (forall p | p in ps :: p.handshake.hash != p.handshake.chainKey)
  }

  /** Peers are found by their public key, and hold the secret shared with it. */
  ghost predicate Directory(s: Suite, privateKey: Digest, peers: map<Bytes, Peer>, all: set<Peer>) {
    && (forall p | p in all :: p.handshake.remoteStatic in peers && peers[p.handshake.remoteStatic] == p)
    && (forall k | k in peers :: |k| == 32 && peers[k] in all && peers[k].handshake.remoteStatic == k)
    && (forall p | p in all :: p.handshake.precomputedStaticStatic == s.dh(privateKey, p.handshake.remoteStatic))
  }

  lemma DirectoryAdded(s: Suite, privateKey: Digest, peers: map<Bytes, Peer>, all: set<Peer>, pk: Digest, p: Peer)
    requires Directory(s, privateKey, peers, all) && pk !in peers
    requires p.handshake.remoteStatic == pk && p.handshake.precomputedStaticStatic == s.dh(privateKey, pk)
    ensures Directory(s, privateKey, peers[pk := p], all + {p})
  {
  }

  lemma HandshakesKnown(ps: set<Peer>, hs: set<Handshake>, buffers: set<array<Byte>>)
    requires Owned(ps, hs, buffers)
    ensures forall p | p in ps :: p.handshake in hs
  {
  }

  lemma ViewAdded(ps: set<Peer>, hs: set<Handshake>, p: Peer)
    requires forall q | q in ps :: q.handshake in hs
    ensures ViewOf(ps + {p}, hs + {p.handshake}) == ViewOf(ps, hs)[p := Occupancy(p)]
  {
  }

  lemma OwnBuffers(ps: set<Peer>, hs: set<Handshake>, buffers: set<array<Byte>>, p: Peer)
    requires Owned(ps, hs, buffers) && p in ps
    ensures p.handshake.hash.Length == p.handshake.chainKey.Length == 32 && p.handshake.hash != p.handshake.chainKey
  {
  }

  lemma OwnedAdded(ps: set<Peer>, hs: set<Handshake>, buffers: set<array<Byte>>, p: Peer)
    requires Owned(ps, hs, buffers) && p.handshake !in hs
    requires p.handshake.hash.Length == p.handshake.chainKey.Length == 32 && p.handshake.hash != p.handshake.chainKey
    ensures Owned(ps + {p}, hs + {p.handshake}, buffers + {p.handshake.hash, p.handshake.chainKey})
  {
  }

  function CurrentTranscript(h: Handshake): Transcript
    requires h.hash.Length == h.chainKey.Length == 32
    reads h.hash, h.chainKey
  {
    Transcript(h.hash[..], h.chainKey[..])
  }

  method Assign(dst: array<Byte>, v: Digest)
    requires dst.Length == 32
    modifies dst
    ensures dst[..] == v
  {
    forall i | 0 <= i < 32 { dst[i] := v[i]; }
  }

  class Device {
    const suite: Suite
    const indexTable: IndexTable
    const privateKey: Digest
    const publicKey: Digest
    var peers: map<Bytes, Peer>
    ghost var all: set<Peer>
    ghost var handshakes: set<Handshake>
    ghost var buffers: set<array<Byte>>

    ghost predicate Valid()
      reads this, indexTable, all, handshakes
    {
      && Owned(all, handshakes, buffers)
      && Consistent(indexTable.table, ViewOf(all, handshakes))
      && (forall p | p in all :: HandshakeOK(p.handshake))
      && Keyed()
    }

    ghost predicate Keyed()
      reads this
    {
      Directory(suite, privateKey, peers, all)
    }

    /** Nothing but the given peer and its handshake changed. */
    twostate lemma ViewChanged(p: Peer)
      requires Owned(all, handshakes, buffers) && p in all && all == old(all) && handshakes == old(handshakes)
      requires forall q | q in all && q != p ::
        q.previous == old(q.previous) && q.current == old(q.current) && q.next == old(q.next)
      requires forall h | h in handshakes && h != p.handshake :: h.localIndex == old(h.localIndex)
      ensures ViewOf(all, handshakes) == old(ViewOf(all, handshakes))[p := Occupancy(p)]
      ensures Occupancy(p) == old(Occupancy(p)) ==> ViewOf(all, handshakes) == old(ViewOf(all, handshakes))
    {
      var was, now := old(ViewOf(all, handshakes)), ViewOf(all, handshakes);
      forall q | q in all && q != p ensures now[q] == was[q] {
        assert q.handshake in handshakes && q.handshake != p.handshake;
      }
      assert now[p] == Occupancy(p) && was[p] == old(Occupancy(p));
    }

    constructor (suite: Suite, privateKey: Digest)
      ensures Valid() && peers == map[] && all == {} && handshakes == {} && buffers == {}
      ensures indexTable.table == map[] && fresh(indexTable)
      ensures this.suite == suite && this.privateKey == privateKey && publicKey == suite.publicKey(privateKey)
    {
      this.suite, this.privateKey, publicKey := suite, privateKey, suite.publicKey(privateKey);
      indexTable := new IndexTable();
      peers, all, handshakes, buffers := map[], {}, {}, {};
    }

    method NewPeer(pk: Digest, presharedKey: Digest, closed: bool) returns (peer: Peer?)
      requires Valid()
      modifies this
      ensures Valid()
      ensures peer == null <==> closed || |old(peers)| >= MAX_PEERS || pk in old(peers)
      ensures peer == null ==> unchanged(this)
      ensures peer != null ==> fresh(peer) && peers == old(peers)[pk := peer] && all == old(all) + {peer}
      ensures peer != null ==> NewHandshake(peer.handshake, pk, presharedKey) && !peer.isRunning
      ensures peer != null ==> fresh(peer.handshake) && handshakes == old(handshakes) + {peer.handshake}
      ensures peer != null ==> fresh(peer.handshake.hash) && fresh(peer.handshake.chainKey)
      ensures peer != null ==> buffers == old(buffers) + {peer.handshake.hash, peer.handshake.chainKey}
      ensures peer != null ==> Occupancy(peer) == Slots(0, null, null, null)
    {
      hide Consistent, Directory, Owned;
      if closed || |peers| >= MAX_PEERS || pk in peers {
        return null;
      }
      var handshake := new Handshake(pk, presharedKey, suite.dh(privateKey, pk));
      var p := new Peer(handshake);
      Enlist(pk, p);
      return p;
    }

    method Enlist(pk: Digest, p: Peer)
      requires Valid() && pk !in peers && p !in all && p.handshake !in handshakes
      requires p.handshake.remoteStatic == pk && p.handshake.precomputedStaticStatic == suite.dh(privateKey, pk)
      requires p.handshake.hash.Length == p.handshake.chainKey.Length == 32 && p.handshake.hash != p.handshake.chainKey
      requires Occupancy(p) == Slots(0, null, null, null) && p.handshake.state == HandshakeZeroed
      modifies this
      ensures Valid() && peers == old(peers)[pk := p] && all == old(all) + {p}
      ensures handshakes == old(handshakes) + {p.handshake}
      ensures buffers == old(buffers) + {p.handshake.hash, p.handshake.chainKey}
    {
      hide Consistent, Directory, Owned;
      HandshakesKnown(all, handshakes, buffers);
      PeerAdded(indexTable.table, ViewOf(all, handshakes), p);
      DirectoryAdded(suite, privateKey, peers, all, pk, p);
      OwnedAdded(all, handshakes, buffers, p);
      ViewAdded(all, handshakes, p);
      peers := peers[pk := p];
      all := all + {p};
      handshakes := handshakes + {p.handshake};
      buffers := buffers + {p.handshake.hash, p.handshake.chainKey};
    }

    /** A peer that is started may send an initiation at once. */
    method Start(peer: Peer, at: Tai64n.Instant, closed: bool)
      requires Valid() && peer in all
      modifies peer`isRunning, peer.handshake`lastSentHandshake
      ensures Valid() && Occupancy(peer) == old(Occupancy(peer))
      ensures closed || old(peer.isRunning) ==> unchanged(peer) && unchanged(peer.handshake)
      ensures !closed && !old(peer.isRunning) ==> peer.isRunning && GateMoved(peer, Tai64n.Reset(at))
    {
      hide Consistent, Directory, Owned;
      HandshakesKnown(all, handshakes, buffers);
      if closed || peer.isRunning {
        return;
      }
      OpenGate(peer, at);
      peer.isRunning := true;
      ViewChanged(peer);
    }

    /** A running peer is stopped: it gives up everything it occupies. */
    method Stop(peer: Peer)
      requires Valid() && peer in all
      modifies peer, peer.handshake, peer.handshake.hash, peer.handshake.chainKey, indexTable
      ensures Valid() && !peer.isRunning
      ensures !old(peer.isRunning) ==> unchanged(peer) && unchanged(peer.handshake) && unchanged(indexTable)
      ensures old(peer.isRunning) ==> Occupancy(peer) == Slots(0, null, null, null)
      ensures old(peer.isRunning) ==> forall i | i in indexTable.table :: indexTable.table[i].peer != peer
    {
      hide Consistent, Directory, Owned;
      HandshakesKnown(all, handshakes, buffers);
      if !peer.isRunning {
        return;
      }
      peer.isRunning := false;
      ViewChanged(peer);
      ZeroAndFlushAll(peer);
    }

    twostate predicate GateMoved(peer: Peer, step: Tai64n.GateStep)
      reads peer.handshake
    {
      peer.handshake.lastSentHandshake == Tai64n.GateNext(old(peer.handshake.lastSentHandshake), step)
    }

    method OpenGate(peer: Peer, at: Tai64n.Instant)
      requires Valid() && peer in all
      modifies peer.handshake`lastSentHandshake
      ensures Valid() && GateMoved(peer, Tai64n.Reset(at))
    {
      SetGate(peer, Tai64n.Nanos(at) - (Tai64n.REKEY_TIMEOUT + Tai64n.NANOS_PER_SECOND));
    }

    method SetGate(peer: Peer, lastSent: int)
      requires Valid() && peer in all
      modifies peer.handshake`lastSentHandshake
      ensures Valid() && peer.handshake.lastSentHandshake == lastSent
    {
      hide Consistent, Directory, Owned;
      HandshakesKnown(all, handshakes, buffers);
      peer.handshake.lastSentHandshake := lastSent;
      ViewChanged(peer);
    }

    /** The gate and, if it is open, an initiation. */
    method SendHandshakeInitiation(peer: Peer, x: Tai64n.Sending, ephemeral: Digest, draws: seq<Index>)
      returns (passed: bool, r: Option<MessageInitiation>)
      requires Valid() && peer in all
      modifies peer.handshake, peer.handshake.hash, peer.handshake.chainKey, indexTable
      ensures passed <==> Tai64n.Passes(old(peer.handshake.lastSentHandshake), x.at)
      ensures GateMoved(peer, Tai64n.Attempt(x))
      ensures !passed ==> r.None? && unchanged(peer.handshake) && unchanged(indexTable) && Valid()
      ensures passed ==> (r.Some? <==> !BadSecrets(peer.handshake, ephemeral) && Drawable(old(Vacated(peer)), draws))
      ensures r.Some? ==> IsInitiation(suite, peer.handshake, publicKey, r.value, ephemeral, Tai64n.Stamp(x.stamped),
                                       CurrentTranscript(peer.handshake))
      ensures r.Some? ==> r.value.sender in draws && (Valid() <==> r.value.sender != 0)
      ensures passed && r.None? ==>
        (Valid() <==> BadSecrets(peer.handshake, ephemeral) || old(peer.handshake.localIndex) == 0)
    {
      hide Consistent, Keyed, IsInitiation, CurrentTranscript, Tai64n.Stamp, BadSecrets, Drawable;
      PeerFacts(this, peer);
      if Tai64n.Nanos(x.at) - peer.handshake.lastSentHandshake < Tai64n.REKEY_TIMEOUT {
        return false, None;
      }
      SetGate(peer, Tai64n.Nanos(x.at));
      r := CreateMessageInitiation(peer, ephemeral, Tai64n.Stamp(x.stamped), draws);
      return true, r;
    }

    /** One of the two shared secrets of an initiation is zero. */
    ghost predicate BadSecrets(h: Handshake, ephemeral: Digest) {
      suite.dh(ephemeral, h.remoteStatic) == ZERO || h.precomputedStaticStatic == ZERO
    }

    /** The table in which a new index for the peer's handshake is looked for. */
    ghost function Vacated(peer: Peer): Table
      reads indexTable, peer.handshake
    {
      indexTable.table - {peer.handshake.localIndex}
    }

    /** Valid() is lost in two cases only: the index drawn is 0, or the random source fails
        when the handshake has an index, which is then out of the table but still held. */
    method CreateMessageInitiation(peer: Peer, ephemeral: Digest, timestamp: Bytes, draws: seq<Index>)
      returns (r: Option<MessageInitiation>)
      requires Valid() && peer in all
      modifies peer.handshake, peer.handshake.hash, peer.handshake.chainKey, indexTable
      ensures peer.handshake.lastSentHandshake == old(peer.handshake.lastSentHandshake)
      ensures r.Some? <==> !BadSecrets(peer.handshake, ephemeral) && Drawable(old(Vacated(peer)), draws)
      ensures BadSecrets(peer.handshake, ephemeral) ==> indexTable.table == old(indexTable.table)
      ensures r.None? ==> (Valid() <==> BadSecrets(peer.handshake, ephemeral) || old(peer.handshake.localIndex) == 0)
      ensures r.Some? ==>
        IsInitiation(suite, peer.handshake, publicKey, r.value, ephemeral, timestamp, CurrentTranscript(peer.handshake))
      ensures r.Some? ==>
        && HasIndex(peer, InitiationCreated, r.value.sender) && r.value.sender in draws
        && peer.handshake.localEphemeral == ephemeral && (Valid() <==> r.value.sender != 0)
      ensures r.Some? ==>
        indexTable.table == Reindexed(old(indexTable.table), peer, old(peer.handshake.localIndex), r.value.sender)
    {
      hide Consistent, Keyed, IsInitiation, CurrentTranscript, Drawable;
      var ok, e, sealedKey, stamp := InitiationFields(peer, ephemeral, timestamp);
      if !ok {
        return None;
      }
      var sender := AssignIndex(peer, draws, peer.handshake.localIndex);
      if sender.None? {
        return None;
      }
      SetState(peer, InitiationCreated);
      ZeroIndexed();
      return Some(MessageInitiation(MESSAGE_INITIATION_TYPE, sender.value, e, sealedKey, stamp));
    }

    method InitiationFields(peer: Peer, ephemeral: Digest, timestamp: Bytes)
      returns (ok: bool, e: Digest, sealedKey: Bytes, stamp: Bytes)
      requires Valid() && peer in all
      modifies peer.handshake`localEphemeral, peer.handshake.hash, peer.handshake.chainKey
      ensures Valid() && peer.handshake.localEphemeral == ephemeral
      ensures ok <==> !BadSecrets(peer.handshake, ephemeral)
      ensures ok ==> forall i ::
        IsInitiation(suite, peer.handshake, publicKey,
                     MessageInitiation(MESSAGE_INITIATION_TYPE, i, e, sealedKey, stamp),
                     ephemeral, timestamp, CurrentTranscript(peer.handshake))
    {
      hide Consistent, IsInitiation, Directory, Owned;
      PeerFacts(this, peer);
      HandshakesKnown(all, handshakes, buffers);
      ok, e, sealedKey, stamp := SealInitiation(suite, publicKey, peer.handshake, ephemeral, timestamp);
      ViewChanged(peer);
    }

    /** A fresh index for the peer's handshake; its old one, if any, is given up. If the random
        source fails the handshake is left with the index `otherwise`. */
    method AssignIndex(peer: Peer, draws: seq<Index>, otherwise: Index) returns (r: Option<Index>)
      requires Valid() && peer in all
      requires otherwise == peer.handshake.localIndex || peer.handshake.state == InitiationConsumed
      modifies peer.handshake`localIndex, indexTable
      ensures Owned(all, handshakes, buffers)
      ensures r.Some? <==> Drawable(old(Vacated(peer)), draws)
      ensures r.None? ==> peer.handshake.localIndex == otherwise && indexTable.table == old(Vacated(peer))
      ensures r.None? ==> (Valid() <==> otherwise == 0)
      ensures r.Some? ==> peer.handshake.localIndex == r.value && r.value in draws
      ensures r.Some? ==>
        indexTable.table == Reindexed(old(indexTable.table), peer, old(peer.handshake.localIndex), r.value)
      ensures r.Some? ==> (Valid() <==> r.value != 0)
    {
      hide Consistent, Directory, Owned, Drawable, Valid, HandshakeOK;
      ghost var view := Agreement();
      ghost var table := indexTable.table;
      indexTable.Delete(peer.handshake.localIndex);
      r := indexTable.NewIndexForHandshake(peer, peer.handshake, draws);
      if r.Some? {
        NewHandshakeIndex(table, view, peer, r.value);
        SetIndex(peer, r.value, view);
      } else {
        LostIndex(table, view, peer, otherwise);
        SetIndex(peer, otherwise, view);
      }
    }

    lemma Agreement() returns (view: View)
      requires Valid()
      ensures Owned(all, handshakes, buffers) && Keyed() && forall p | p in all :: HandshakeOK(p.handshake)
      ensures (forall p | p in all :: p.handshake in handshakes) && view == ViewOf(all, handshakes)
      ensures Consistent(indexTable.table, view) && forall p | p in all :: p in view && view[p] == Occupancy(p)
    {
      view := ViewOf(all, handshakes);
    }

    method SetIndex(peer: Peer, index: Index, ghost view: View)
      requires Owned(all, handshakes, buffers) && Keyed() && peer in all
      requires forall p | p in all :: p.handshake in handshakes && HandshakeOK(p.handshake)
      requires view == ViewOf(all, handshakes)
      modifies peer.handshake`localIndex
      ensures peer.handshake.localIndex == index
      ensures Valid() ==> Consistent(indexTable.table, view[peer := view[peer].(hs := index)])
      ensures index != 0 || old(peer.handshake.localIndex) == 0 || peer.handshake.state == InitiationConsumed ==>
        Consistent(indexTable.table, view[peer := view[peer].(hs := index)]) ==> Valid()
    {
      hide Consistent, Directory, Owned;
      peer.handshake.localIndex := index;
      ViewChanged(peer);
    }

    method SetState(peer: Peer, state: HandshakeState)
      requires Owned(all, handshakes, buffers) && peer in all
      modifies peer.handshake`state
      ensures peer.handshake.state == state
      ensures peer.handshake.localIndex != 0 || state.InitiationConsumed? || state.HandshakeZeroed? ==>
        old(Valid()) ==> Valid()
    {
      hide Consistent, Directory, Owned;
      HandshakesKnown(all, handshakes, buffers);
      peer.handshake.state := state;
      ViewChanged(peer);
    }

    lemma ZeroIndexed()
      ensures 0 in indexTable.table ==> !Valid()
    {
      if Valid() {
        forall i | i in indexTable.table ensures i != 0 {
          assert EntryOK(i, indexTable.table[i], ViewOf(all, handshakes));
        }
      }
    }

    // ---- Consuming an initiation ---------------------------------------------------------------

    /** The sender of an initiation that opens with this device's keys. */
    ghost function Recognised(msg: MessageInitiation): Option<Recognition>
      requires Keyed()
      reads this, all
    {
      var s := suite;
      var es := s.dh(privateKey, msg.ephemeral);
      var t1 := Opened(s, publicKey, msg.ephemeral);
      var pk := s.open(FieldKey(s, t1, es), msg.sealedKey, t1.hash);
      if msg.msgType != MESSAGE_INITIATION_TYPE || es == ZERO || pk.None? || pk.value !in peers then None else
        var p := peers[pk.value];
        var ss := p.handshake.precomputedStaticStatic;
        var t2 := Sealed(s, t1, es, msg.sealedKey);
        var ts := s.open(FieldKey(s, t2, ss), msg.timestamp, t2.hash);
        if !p.isRunning || ss == ZERO || ts.None? then None
        else Some(Recognition(p, Sealed(s, t2, ss, msg.timestamp), ts.value))
    }

    method OpenInitiation(msg: MessageInitiation) returns (r: Option<Recognition>)
      requires Keyed()
      ensures r == Recognised(msg)
    {
      hide Sealed, FieldKey, Opened;
      if msg.msgType != MESSAGE_INITIATION_TYPE {
        return None;
      }
      var pk, hash, chainKey := OpenStatic(suite, privateKey, publicKey, msg);
      if pk.None? || pk.value !in peers || !peers[pk.value].isRunning {
        return None;
      }
      var peer := peers[pk.value];
      var ts := OpenField(suite, hash, chainKey, peer.handshake.precomputedStaticStatic, msg.timestamp);
      if ts.None? {
        return None;
      }
      return Some(Recognition(peer, Transcript(hash[..], chainKey[..]), ts.value));
    }

    /** `who` names the peer whose handshake may change, if there is one. */
    method ConsumeMessageInitiation(msg: MessageInitiation, now: int, ghost who: Peer?) returns (peer: Peer?)
      requires Valid() && (Recognised(msg).Some? ==> Recognised(msg).value.peer == who)
      modifies HandshakeOf(who), BuffersOf(who)
      ensures Valid()
      ensures peer == null <==> !(old(Recognised(msg)).Some? && old(Acceptable(Recognised(msg).value, now)))
      ensures peer != null ==> peer in all && old(Recognised(msg)).value.peer == peer
      ensures peer != null ==> Heard(peer.handshake, msg, old(Recognised(msg)).value, now)
      ensures peer == null ==> unchanged(HandshakeOf(who)) && unchanged(BuffersOf(who))
      ensures peer != null ==> peer.handshake.localIndex == old(peer.handshake.localIndex)
    {
      hide Consistent, Recognised;
      var r := OpenInitiation(msg);
      if r.None? {
        return null;
      }
      peer := r.value.peer;
      var h := peer.handshake;
      RecognisedPeer(msg);
      var replay := !Tai64n.After(r.value.timestamp, h.lastTimestamp);
      var flood := now - h.lastInitiationConsumption <= HANDSHAKE_INITIATION_RATE;
      if replay || flood {
        return null;
      }
      Hear(peer, msg, r.value, now);
    }

    lemma RecognisedPeer(msg: MessageInitiation)
      requires Keyed()
      ensures Recognised(msg).Some? ==> Recognised(msg).value.peer in all
    {
    }

    /** The update phase: the peer's handshake takes over the transcript. */
    method Hear(peer: Peer, msg: MessageInitiation, r: Recognition, now: int)
      requires Valid() && peer in all && r.peer == peer
      requires Tai64n.After(r.timestamp, peer.handshake.lastTimestamp) && now > peer.handshake.lastInitiationConsumption
      modifies peer.handshake, peer.handshake.hash, peer.handshake.chainKey
      ensures Valid() && Heard(peer.handshake, msg, r, now)
      ensures peer.handshake.localIndex == old(peer.handshake.localIndex)
      ensures peer.handshake.state == InitiationConsumed
    {
      hide Consistent, Directory, Owned, Heard;
      PeerFacts(this, peer);
      HandshakesKnown(all, handshakes, buffers);
      TakeOver(peer.handshake, msg, r, now);
      ViewChanged(peer);
    }

    // ---- Response ------------------------------------------------------------------------------

    /** The gate counts a response as sent; a session begins at once. */
    method SendHandshakeResponse(peer: Peer, at: Tai64n.Instant, ephemeral: Digest, draws: seq<Index>, failed: Index)
      returns (r: Option<MessageResponse>, kp: Keypair?)
      requires Valid() && peer in all && 0 !in draws
      modifies peer, peer.handshake, peer.handshake.hash, peer.handshake.chainKey, indexTable
      ensures Valid() <==>
        old(peer.handshake.state) != InitiationConsumed || Drawable(old(Vacated(peer)), draws) || failed == 0
      ensures GateMoved(peer, Tai64n.Answer(at)) && (r.Some? <==> kp != null)
      ensures r.Some? <==>
        && old(peer.handshake.state) == InitiationConsumed && !old(BadAnswer(peer.handshake, ephemeral))
        && Drawable(old(Vacated(peer)), draws)
      ensures kp == null ==> unchanged(peer)
      ensures kp != null ==> fresh(kp) && !kp.isInitiator
      ensures kp != null ==> peer.previous == null && peer.current == old(peer.current) && peer.next == kp
      ensures kp != null ==> kp.localIndex == r.value.sender && kp.remoteIndex == r.value.receiver
    {
      hide Consistent, Keyed, IsResponse, CurrentTranscript, Drawable, BegunTable, Kdf;
      PeerFacts(this, peer);
      SetGate(peer, Tai64n.Nanos(at));
      r := CreateMessageResponse(peer, ephemeral, draws, failed);
      if r.None? {
        return None, null;
      }
      kp := BeginSymmetricSession(peer);
    }

    /** One of the two shared secrets of a response is zero. */
    ghost predicate BadAnswer(h: Handshake, ephemeral: Digest)
      reads h
    {
      suite.dh(ephemeral, h.remoteEphemeral) == ZERO || suite.dh(ephemeral, h.remoteStatic) == ZERO
    }

    /** Here a random source that fails leaves the index `failed` in the handshake, and Valid()
        is lost unless that is 0. */
    method CreateMessageResponse(peer: Peer, ephemeral: Digest, draws: seq<Index>, failed: Index)
      returns (r: Option<MessageResponse>)
      requires Valid() && peer in all
      modifies peer.handshake, peer.handshake.hash, peer.handshake.chainKey, indexTable
      ensures peer.handshake.lastSentHandshake == old(peer.handshake.lastSentHandshake)
      ensures r.Some? <==>
        && old(peer.handshake.state) == InitiationConsumed && !old(BadAnswer(peer.handshake, ephemeral))
        && Drawable(old(Vacated(peer)), draws)
      ensures old(peer.handshake.state) != InitiationConsumed ==> Valid() && indexTable.table == old(indexTable.table)
      ensures old(peer.handshake.state) == InitiationConsumed && Drawable(old(Vacated(peer)), draws) ==>
        && (Valid() <==> peer.handshake.localIndex != 0) && peer.handshake.localIndex in draws
        && indexTable.table ==
           Reindexed(old(indexTable.table), peer, old(peer.handshake.localIndex), peer.handshake.localIndex)
      ensures old(peer.handshake.state) == InitiationConsumed && !Drawable(old(Vacated(peer)), draws) ==>
        (Valid() <==> failed == 0) && peer.handshake.localIndex == failed && indexTable.table == old(Vacated(peer))
      ensures r.Some? ==>
        && r.value.msgType == MESSAGE_RESPONSE_TYPE && r.value.sender == peer.handshake.localIndex
        && r.value.receiver == old(peer.handshake.remoteIndex) && r.value.ephemeral == suite.publicKey(ephemeral)
        && HasIndex(peer, ResponseCreated, r.value.sender)
        && peer.handshake.remoteIndex == old(peer.handshake.remoteIndex)
        && IsResponse(suite, old(CurrentTranscript(peer.handshake)), r.value.ephemeral,
                      suite.dh(ephemeral, old(peer.handshake.remoteEphemeral)),
                      suite.dh(ephemeral, peer.handshake.remoteStatic), peer.handshake.presharedKey,
                      r.value.empty, CurrentTranscript(peer.handshake))
    {
      hide Consistent, Keyed, IsResponse, CurrentTranscript, Drawable;
      var h := peer.handshake;
      if h.state != InitiationConsumed {
        return None;
      }
      var index := AssignIndex(peer, draws, failed);
      if index.None? {
        return None;
      }
      var ok, empty := ResponseFields(peer, ephemeral);
      if !ok {
        ZeroIndexed();
        return None;
      }
      SetState(peer, ResponseCreated);
      ZeroIndexed();
      return Some(MessageResponse(MESSAGE_RESPONSE_TYPE, h.localIndex, h.remoteIndex, suite.publicKey(ephemeral),
                                  empty));
    }

    method ResponseFields(peer: Peer, ephemeral: Digest) returns (ok: bool, empty: Bytes)
      requires Owned(all, handshakes, buffers) && peer in all
      modifies peer.handshake`localEphemeral, peer.handshake.hash, peer.handshake.chainKey
      ensures old(Valid()) ==> Valid()
      ensures ok <==> !old(BadAnswer(peer.handshake, ephemeral))
      ensures ok ==>
        IsResponse(suite, old(CurrentTranscript(peer.handshake)), suite.publicKey(ephemeral),
                   suite.dh(ephemeral, peer.handshake.remoteEphemeral),
                   suite.dh(ephemeral, peer.handshake.remoteStatic),
                   peer.handshake.presharedKey, empty, CurrentTranscript(peer.handshake))
    {
      hide Consistent, Directory, Owned, IsResponse;
      OwnBuffers(all, handshakes, buffers, peer);
      HandshakesKnown(all, handshakes, buffers);
      ok, empty := SealResponse(suite, peer.handshake, ephemeral);
      ViewChanged(peer);
    }

    /** The index names a handshake of ours that waits for a response. */
    ghost predicate Awaiting(msg: MessageResponse)
      reads this, indexTable, handshakes
    {
      && msg.msgType == MESSAGE_RESPONSE_TYPE && msg.receiver in indexTable.table
      && var h := indexTable.table[msg.receiver].handshake;
        h != null && h in handshakes && h.state == InitiationCreated
    }

    /** The transcript that a response leads to, if the handshake it names accepts it. */
    ghost function Accepted(msg: MessageResponse): Option<Transcript>
      requires Valid()
      reads this, indexTable, all, handshakes, buffers
    {
      if !Awaiting(msg) then None else
        LookedUp(msg.receiver);
        var h := indexTable.table[msg.receiver].handshake;
        if Authentic(suite, privateKey, h, msg) then Some(AnswerOf(suite, privateKey, h, msg)) else None
    }

    method ConsumeMessageResponse(msg: MessageResponse, ghost who: Peer?) returns (peer: Peer?)
      requires Valid() && (Awaiting(msg) ==> indexTable.table[msg.receiver].peer == who)
      modifies HandshakeOf(who), BuffersOf(who)
      ensures Valid()
      ensures peer == null <==> old(Accepted(msg)).None?
      ensures peer == null ==> unchanged(HandshakeOf(who)) && unchanged(BuffersOf(who))
      ensures peer != null ==>
        && peer in all && indexTable.table[msg.receiver].peer == peer
        && HasIndex(peer, ResponseConsumed, msg.receiver) && peer.handshake.remoteIndex == msg.sender
        && CurrentTranscript(peer.handshake) == old(Accepted(msg)).value
    {
      hide Consistent, Keyed, CurrentTranscript, AnswerOf, Authentic;
      if msg.msgType != MESSAGE_RESPONSE_TYPE || msg.receiver !in indexTable.table {
        return null;
      }
      var lookup := indexTable.table[msg.receiver];
      if lookup.handshake == null {
        return null;
      }
      LookedUp(msg.receiver);
      var h := lookup.handshake;
      if h.state != InitiationCreated {
        return null;
      }
      var ok, t := OpenResponse(suite, privateKey, h, msg);
      if !ok {
        return null;
      }
      Answer(lookup.peer, msg.sender, t);
      return lookup.peer;
    }

    lemma LookedUp(i: Index)
      requires Valid() && i in indexTable.table && indexTable.table[i].handshake != null
      ensures var e := indexTable.table[i];
        e.peer in all && e.handshake == e.peer.handshake && e.handshake in handshakes && e.handshake.localIndex == i
    {
      assert EntryOK(i, indexTable.table[i], ViewOf(all, handshakes));
    }

    method Answer(peer: Peer, sender: Index, t: Transcript)
      requires Valid() && peer in all && peer.handshake.localIndex != 0
      modifies peer.handshake, peer.handshake.hash, peer.handshake.chainKey
      ensures Valid() && CurrentTranscript(peer.handshake) == t && peer.handshake.remoteIndex == sender
      ensures HasIndex(peer, ResponseConsumed, old(peer.handshake.localIndex))
    {
      hide Consistent, Directory, Owned;
      PeerFacts(this, peer);
      HandshakesKnown(all, handshakes, buffers);
      var h := peer.handshake;
      Assign(h.hash, t.hash);
      Assign(h.chainKey, t.chainKey);
      h.remoteIndex := sender;
      h.state := ResponseConsumed;
      ViewChanged(peer);
    }

    // ---- Sessions --------------------------------------------------------------------------------

    method DeleteKeypair(key: Keypair?)
      modifies indexTable
      ensures indexTable.table == Without(old(indexTable.table), key)
    {
      if key != null {
        indexTable.Delete(key.localIndex);
      }
    }

    method DeleteKeypairs(previous: Keypair?, current: Keypair?, next: Keypair?)
      modifies indexTable
      ensures indexTable.table == Without(Without(Without(old(indexTable.table), previous), current), next)
    {
      DeleteKeypair(previous);
      DeleteKeypair(current);
      DeleteKeypair(next);
    }

    method BeginSymmetricSession(peer: Peer) returns (kp: Keypair?)
      requires Valid() && peer in all
      modifies peer, peer.handshake, peer.handshake.hash, peer.handshake.chainKey, indexTable
      ensures Valid()
      ensures kp != null <==>
        old(peer.handshake.state).ResponseConsumed? || old(peer.handshake.state).ResponseCreated?
      ensures kp == null ==> unchanged(peer) && indexTable.table == old(indexTable.table)
      ensures peer.handshake.lastSentHandshake == old(peer.handshake.lastSentHandshake)
      ensures kp != null ==> var isInitiator := old(peer.handshake.state).ResponseConsumed?;
        && fresh(kp) && kp.isInitiator == isInitiator
        && kp.send == Kdf(suite, old(peer.handshake.chainKey[..]), [], if isInitiator then 1 else 2)
        && kp.receive == Kdf(suite, old(peer.handshake.chainKey[..]), [], if isInitiator then 2 else 1)
        && kp.localIndex == old(peer.handshake.localIndex) && kp.remoteIndex == old(peer.handshake.remoteIndex)
        && peer.handshake.localIndex == 0 && peer.handshake.state == HandshakeZeroed
        && indexTable.table == BegunTable(old(indexTable.table), peer, old(Occupancy(peer)), kp, isInitiator)
      // the initiator sends with the new keypair at once, and keeps the one it was last reachable under
      ensures kp != null && kp.isInitiator ==> peer.current == kp && peer.next == null
      ensures kp != null && kp.isInitiator ==>
        peer.previous == if old(peer.next) != null then old(peer.next) else old(peer.current)
      // the responder goes on sending with its current keypair until the new one is confirmed
      ensures kp != null && !kp.isInitiator ==>
        peer.next == kp && peer.current == old(peer.current) && peer.previous == null
    {
      hide Consistent, Keyed, Kdf, BegunTable;
      var ok, isInitiator, sendKey, recvKey := SessionKeys(peer);
      if !ok {
        return null;
      }
      kp := new Keypair(sendKey, recvKey, isInitiator, peer.handshake.localIndex, peer.handshake.remoteIndex);
      BeginWith(peer, kp, isInitiator);
    }

    method SessionKeys(peer: Peer) returns (ok: bool, isInitiator: bool, sendKey: Digest, recvKey: Digest)
      requires Valid() && peer in all
      modifies peer.handshake`state, peer.handshake`localEphemeral, peer.handshake.hash, peer.handshake.chainKey
      ensures Valid()
      ensures ok <==> old(peer.handshake.state).ResponseConsumed? || old(peer.handshake.state).ResponseCreated?
      ensures ok ==> isInitiator == old(peer.handshake.state).ResponseConsumed?
      ensures ok ==> peer.handshake.state == HandshakeZeroed && peer.handshake.localIndex != 0
      ensures ok ==> sendKey == Kdf(suite, old(peer.handshake.chainKey[..]), [], if isInitiator then 1 else 2)
      ensures ok ==> recvKey == Kdf(suite, old(peer.handshake.chainKey[..]), [], if isInitiator then 2 else 1)
    {
      hide Consistent, Directory, Owned, Kdf;
      PeerFacts(this, peer);
      HandshakesKnown(all, handshakes, buffers);
      ok, isInitiator, sendKey, recvKey := DeriveKeys(suite, peer.handshake);
      ViewChanged(peer);
    }

    method BeginWith(peer: Peer, kp: Keypair, isInitiator: bool)
      requires Valid() && peer in all && peer.handshake.localIndex != 0 && peer.handshake.state == HandshakeZeroed
      requires kp.localIndex == peer.handshake.localIndex && !Holds(Occupancy(peer), kp)
      modifies peer, peer.handshake`localIndex, indexTable
      ensures Valid()
      ensures Occupancy(peer) == Begun(old(Occupancy(peer)), kp, isInitiator)
      ensures indexTable.table == BegunTable(old(indexTable.table), peer, old(Occupancy(peer)), kp, isInitiator)
    {
      hide Consistent, Directory, Owned, BegunTable, Begun;
      HandshakesKnown(all, handshakes, buffers);
      ghost var view, table := ViewOf(all, handshakes), indexTable.table;
      HandshakeEntry(table, view, peer);
      BeginKeeps(table, view, peer, kp, isInitiator);
      Rotate(peer, kp, isInitiator);
      ViewChanged(peer);
    }

    /** The index is remapped to the new keypair and the slots move on. */
    method Rotate(peer: Peer, keypair: Keypair, isInitiator: bool)
      requires peer.handshake.localIndex in indexTable.table && indexTable.table[peer.handshake.localIndex].peer == peer
      modifies peer, peer.handshake`localIndex, indexTable
      ensures Occupancy(peer) == Begun(old(Occupancy(peer)), keypair, isInitiator)
      ensures peer.isRunning == old(peer.isRunning)
      ensures indexTable.table == BegunTable(old(indexTable.table), peer, old(Occupancy(peer)), keypair, isInitiator)
    {
      indexTable.SwapIndexForKeypair(peer.handshake.localIndex, keypair);
      peer.handshake.localIndex := 0;
      var previous, next, current := peer.previous, peer.next, peer.current;
      if isInitiator {
        if next != null {
          peer.next := null;
          peer.previous := next;
          DeleteKeypair(current);
        } else {
          peer.previous := current;
        }
        DeleteKeypair(previous);
        peer.current := keypair;
      } else {
        peer.next := keypair;
        DeleteKeypair(next);
        peer.previous := null;
        DeleteKeypair(previous);
      }
    }

    method ReceivedWithKeypair(peer: Peer, receivedKeypair: Keypair) returns (promoted: bool)
      requires Valid() && peer in all
      modifies peer, indexTable
      ensures Valid()
      ensures promoted <==> old(peer.next) == receivedKeypair
      ensures !promoted ==> unchanged(peer) && unchanged(indexTable)
      ensures promoted ==> peer.current == receivedKeypair && peer.previous == old(peer.current) && peer.next == null
      ensures peer.isRunning == old(peer.isRunning)
      ensures promoted ==> indexTable.table == Without(old(indexTable.table), old(peer.previous))
    {
      hide Consistent, Directory, Owned;
      HandshakesKnown(all, handshakes, buffers);
      ghost var view, table := ViewOf(all, handshakes), indexTable.table;
      if peer.next != receivedKeypair {
        return false;
      }
      ReceivedKeeps(table, view, peer);
      var dropped := peer.previous;
      peer.previous := peer.current;
      DeleteKeypair(dropped);
      peer.current := peer.next;
      peer.next := null;
      ViewChanged(peer);
      return true;
    }

    method ZeroAndFlushAll(peer: Peer)
      requires Valid() && peer in all
      modifies peer, peer.handshake, peer.handshake.hash, peer.handshake.chainKey, indexTable
      ensures Valid() && Occupancy(peer) == Slots(0, null, null, null) && peer.isRunning == old(peer.isRunning)
      ensures forall i | i in indexTable.table :: indexTable.table[i].peer != peer
    {
      hide Consistent, Keyed;
      ClearSlots(peer);
      DropHandshakeIndex(peer);
      NothingLeft(indexTable.table, ViewOf(all, handshakes), peer);
    }

    method ClearSlots(peer: Peer)
      requires Valid() && peer in all
      modifies peer, indexTable
      ensures Valid() && Occupancy(peer) == Slots(peer.handshake.localIndex, null, null, null)
      ensures peer.isRunning == old(peer.isRunning)
    {
      hide Consistent, Directory, Owned;
      HandshakesKnown(all, handshakes, buffers);
      ghost var view, table := ViewOf(all, handshakes), indexTable.table;
      ClearKeeps(table, view, peer);
      DeleteKeypairs(peer.previous, peer.current, peer.next);
      peer.previous, peer.current, peer.next := null, null, null;
      ViewChanged(peer);
    }

    method DropHandshakeIndex(peer: Peer)
      requires Valid() && peer in all
      modifies peer.handshake, peer.handshake.hash, peer.handshake.chainKey, indexTable
      ensures Valid() && Occupancy(peer) == old(Occupancy(peer)).(hs := 0) && peer.handshake.state == HandshakeZeroed
      ensures indexTable.table == old(indexTable.table) - {old(peer.handshake.localIndex)}
    {
      hide Consistent, Directory, Owned;
      PeerFacts(this, peer);
      HandshakesKnown(all, handshakes, buffers);
      ghost var view, table := ViewOf(all, handshakes), indexTable.table;
      DropHandshake(table, view, peer);
      indexTable.Delete(peer.handshake.localIndex);
      peer.handshake.Clear();
      ViewChanged(peer);
    }

    /** The handshake is dropped and the live keypairs are made unusable for sending. */
    method ExpireCurrentKeypairs(peer: Peer, at: Tai64n.Instant)
      requires Valid() && peer in all
      modifies peer.handshake, peer.handshake.hash, peer.handshake.chainKey, indexTable, Live(peer)
      ensures Valid() && Occupancy(peer) == old(Occupancy(peer)).(hs := 0) && GateMoved(peer, Tai64n.Reset(at))
      ensures indexTable.table == old(indexTable.table) - {old(peer.handshake.localIndex)}
      ensures forall k | k in Live(peer) :: k.sendNonce == Nonces.REJECT_AFTER_MESSAGES
    {
      hide Consistent, Keyed;
      DropHandshakeIndex(peer);
      OpenGate(peer, at);
      StopSending(peer);
    }
  }

  method StopSending(peer: Peer)
    modifies Live(peer)
    ensures forall k | k in Live(peer) :: k.sendNonce == Nonces.REJECT_AFTER_MESSAGES
  {
    if peer.current != null {
      peer.current.sendNonce := Nonces.REJECT_AFTER_MESSAGES;
    }
    if peer.next != null {
      peer.next.sendNonce := Nonces.REJECT_AFTER_MESSAGES;
    }
  }

  lemma PeerFacts(d: Device, p: Peer)
    requires d.Valid() && p in d.all
    ensures d.Keyed() && p.handshake in d.handshakes && p.handshake.hash in d.buffers
    ensures p.handshake.chainKey in d.buffers
    ensures p.handshake.hash.Length == p.handshake.chainKey.Length == 32 && p.handshake.hash != p.handshake.chainKey
    ensures p.handshake.remoteStatic in d.peers && d.peers[p.handshake.remoteStatic] == p
    ensures p.handshake.precomputedStaticStatic == d.suite.dh(d.privateKey, p.handshake.remoteStatic)
  {
  }

  lemma KnownPeer(d: Device, pk: Bytes)
    requires d.Valid() && pk in d.peers
    ensures d.peers[pk] in d.all
  {
  }

  /** What a handshake starts with. */
  ghost predicate NewHandshake(h: Handshake, pk: Digest, presharedKey: Digest)
    reads h
  {
    && h.remoteStatic == pk && h.presharedKey == presharedKey && h.state == HandshakeZeroed
    && h.lastTimestamp == seq(12, _ => 0) && h.lastInitiationConsumption == h.lastSentHandshake == Tai64n.ZERO_TIME
    && h.hash.Length == h.chainKey.Length == 32 && h.hash != h.chainKey
  }

  ghost function HandshakeOf(p: Peer?): set<Handshake> { if p == null then {} else {p.handshake} }

  ghost function BuffersOf(p: Peer?): set<array<Byte>> {
    if p == null then {} else {p.handshake.hash, p.handshake.chainKey}
  }

  /** The table after a peer's handshake got a new index in place of its old one. */
  ghost function Reindexed(table: Table, p: Peer, was: Index, now: Index): Table {
    (table - {was})[now := Entry(p, p.handshake, null)]
  }

  /** The keypairs that may be used for sending, now or soon. */
  ghost function Live(p: Peer): set<Keypair>
    reads p
  {
    (if p.current == null then {} else {p.current}) + (if p.next == null then {} else {p.next})
  }

  /** The table holds exactly the indices that the peers occupy: none of them 0, one for a
      handshake index and one for each occupied slot of a peer, and none shared by two peers. */
  ghost predicate Exact(d: Device)
    reads d, d.indexTable, d.all, set p | p in d.all :: p.handshake
  {
    && (forall i | i in d.indexTable.table :: i != 0 && d.indexTable.table[i].peer in d.all)
    && (forall p | p in d.all ::
          (set i | i in d.indexTable.table && d.indexTable.table[i].peer == p) == Occupied(Occupancy(p)))
    && (forall p | p in d.all :: |Occupied(Occupancy(p))| == Occupants(Occupancy(p)) <= 4)
    && (forall p, q | p in d.all && q in d.all && p != q :: Occupied(Occupancy(p)) !! Occupied(Occupancy(q)))
  }

  lemma TableIsExact(d: Device)
    requires d.Valid()
    ensures Exact(d)
  {
    hide Occupied, Occupants;
    var table, view := d.indexTable.table, ViewOf(d.all, d.handshakes);
    forall i | i in table ensures i != 0 && table[i].peer in d.all {
      assert EntryOK(i, table[i], view);
    }
    hide Consistent;
    forall p | p in d.all
      ensures |Occupied(Occupancy(p))| == Occupants(Occupancy(p)) <= 4
      ensures (set i | i in table && table[i].peer == p) == Occupied(Occupancy(p))
    {
      assert view[p] == Occupancy(p);
      PeerEntries(table, view, p);
      PeerCount(table, view, p);
    }
    forall p, q | p in d.all && q in d.all && p != q ensures Occupied(Occupancy(p)) !! Occupied(Occupancy(q)) {
      assert view[p] == Occupancy(p) && view[q] == Occupancy(q);
      PeersDisjoint(table, view, p, q);
    }
  }

  lemma HandshakeEntry(table: Table, view: View, p: Peer)
    requires Consistent(table, view) && p in view && view[p].hs != 0
    ensures view[p].hs in table && table[view[p].hs] == Entry(p, p.handshake, null)
  {
    assert PeerOK(table, p, view[p]);
  }

  lemma NothingLeft(table: Table, view: View, p: Peer)
    requires Consistent(table, view) && p in view && view[p] == Slots(0, null, null, null)
    ensures forall i | i in table :: table[i].peer != p
  {
    forall i | i in table ensures table[i].peer != p {
      assert EntryOK(i, table[i], view);
    }
  }

  /** The session keys, by role; the handshake's secrets are erased. */
  method DeriveKeys(s: Suite, h: Handshake) returns (ok: bool, isInitiator: bool, sendKey: Digest, recvKey: Digest)
    requires h.hash.Length == h.chainKey.Length == 32 && h.hash != h.chainKey
    modifies h`state, h`localEphemeral, h.hash, h.chainKey
    ensures ok <==> old(h.state).ResponseConsumed? || old(h.state).ResponseCreated?
    ensures !ok ==> h.state == old(h.state)
    ensures ok ==> isInitiator == old(h.state).ResponseConsumed? && h.state == HandshakeZeroed
    ensures ok ==> sendKey == Kdf(s, old(h.chainKey[..]), [], if isInitiator then 1 else 2)
    ensures ok ==> recvKey == Kdf(s, old(h.chainKey[..]), [], if isInitiator then 2 else 1)
  {
    var send, recv := new Byte[32], new Byte[32];
    sendKey, recvKey, isInitiator := ZERO, ZERO, false;
    if h.state == ResponseConsumed {
      KDF2(s, send, recv, h.chainKey, []);
      isInitiator := true;
    } else if h.state == ResponseCreated {
      KDF2(s, recv, send, h.chainKey, []);
    } else {
      return false, false, ZERO, ZERO;
    }
    SetZero(h.chainKey);
    SetZero(h.hash);
    h.localEphemeral := ZERO;
    h.state := HandshakeZeroed;
    return true, isInitiator, send[..], recv[..];
  }

  // ---- Response transcripts -----------------------------------------------------------------------

  /** The responder's transcript and the authenticated empty field. */
  ghost predicate IsResponse(s: Suite, t: Transcript, e: Digest, ee: Digest, se: Digest, psk: Digest, empty: Bytes,
                             t': Transcript) {
    var ck := Answered(s, t.chainKey, e, ee, se);
    var hash := ResponseHash(s, t, e, ck, psk);
    && empty == s.seal(Kdf(s, ck, psk, 3), [], hash)
    && t' == Finished(s, hash, ck, psk, empty)
  }

  /** The preshared key is mixed in, and the key of the empty field derived. */
  method MixPresharedKey(s: Suite, hash: array<Byte>, chainKey: array<Byte>, psk: Digest) returns (key: array<Byte>)
    requires hash.Length == chainKey.Length == 32 && hash != chainKey
    modifies hash, chainKey
    ensures fresh(key) && key.Length == 32
    ensures hash[..] == Mixed(s, old(hash[..]), Kdf(s, old(chainKey[..]), psk, 2))
    ensures chainKey[..] == Kdf(s, old(chainKey[..]), psk, 1) && key[..] == Kdf(s, old(chainKey[..]), psk, 3)
  {
    var tau := new Byte[32];
    key := new Byte[32];
    KDF3(s, chainKey, tau, key, chainKey, psk);
    MixHash(s, hash, hash, tau[..]);
  }

  /** Neither a replay nor part of a flood. */
  ghost predicate Acceptable(r: Recognition, now: int)
    reads r.peer.handshake
  {
    && Tai64n.After(r.timestamp, r.peer.handshake.lastTimestamp)
    && now - r.peer.handshake.lastInitiationConsumption > HANDSHAKE_INITIATION_RATE
  }

  method TakeOver(h: Handshake, msg: MessageInitiation, r: Recognition, now: int)
    requires h.hash.Length == h.chainKey.Length == 32 && h.hash != h.chainKey
    requires Tai64n.After(r.timestamp, h.lastTimestamp) && now > h.lastInitiationConsumption
    modifies h, h.hash, h.chainKey
    ensures Heard(h, msg, r, now) && h.localIndex == old(h.localIndex) && h.state == InitiationConsumed
  {
    Assign(h.hash, r.transcript.hash);
    Assign(h.chainKey, r.transcript.chainKey);
    h.remoteIndex := msg.sender;
    h.remoteEphemeral := msg.ephemeral;
    if Tai64n.After(r.timestamp, h.lastTimestamp) {
      h.lastTimestamp := r.timestamp;
    }
    if now > h.lastInitiationConsumption {
      h.lastInitiationConsumption := now;
    }
    h.state := InitiationConsumed;
  }

  /** What a handshake holds once an initiation has been consumed. */
  ghost predicate Heard(h: Handshake, msg: MessageInitiation, r: Recognition, now: int)
    reads h, h.hash, h.chainKey
  {
    && h.hash.Length == h.chainKey.Length == 32 && CurrentTranscript(h) == r.transcript
    && h.remoteIndex == msg.sender && h.remoteEphemeral == msg.ephemeral
    && h.lastTimestamp == r.timestamp && h.lastInitiationConsumption == now && h.state == InitiationConsumed
  }

  /** A protected field is opened with the given secret and mixed into the transcript. */
  method OpenField(s: Suite, hash: array<Byte>, chainKey: array<Byte>, secret: Digest, field: Bytes)
    returns (r: Option<Bytes>)
    requires hash.Length == chainKey.Length == 32 && hash != chainKey
    modifies hash, chainKey
    ensures var t := Transcript(old(hash[..]), old(chainKey[..]));
      && r == (if secret == ZERO then None else s.open(FieldKey(s, t, secret), field, t.hash))
      && (r.Some? ==> Transcript(hash[..], chainKey[..]) == Sealed(s, t, secret, field))
  {
    var zero := IsZero(secret);
    if zero {
      assert secret == ZERO;
      return None;
    }
    var key := new Byte[32];
    KDF2(s, chainKey, key, chainKey, secret);
    r := s.open(key[..], field, hash[..]);
    if r.Some? {
      MixHash(s, hash, hash, field);
    }
  }

  /** The first part of an initiation: the sender's static key. */
  method OpenStatic(s: Suite, privateKey: Digest, publicKey: Digest, msg: MessageInitiation)
    returns (pk: Option<Bytes>, hash: array<Byte>, chainKey: array<Byte>)
    ensures fresh(hash) && fresh(chainKey) && hash.Length == chainKey.Length == 32 && hash != chainKey
    ensures var es, t := s.dh(privateKey, msg.ephemeral), Opened(s, publicKey, msg.ephemeral);
      && pk == (if es == ZERO then None else s.open(FieldKey(s, t, es), msg.sealedKey, t.hash))
      && (pk.Some? ==> Transcript(hash[..], chainKey[..]) == Sealed(s, t, es, msg.sealedKey))
  {
    hide Sealed, FieldKey, Kdf, Mixed;
    hash, chainKey := new Byte[32], new Byte[32];
    Assign(hash, InitialHash(s));
    Assign(chainKey, InitialChainKey(s));
    MixHash(s, hash, hash, publicKey);
    MixHash(s, hash, hash, msg.ephemeral);
    MixKey(s, chainKey, chainKey, msg.ephemeral);
    var es := s.dh(privateKey, msg.ephemeral);
    pk := OpenField(s, hash, chainKey, es, msg.sealedKey);
  }

  datatype Recognition = Recognition(peer: Peer, transcript: Transcript, timestamp: Bytes)

  ghost predicate HasIndex(p: Peer, state: HandshakeState, i: Index)
    reads p.handshake
  {
    p.handshake.state == state && p.handshake.localIndex == i
  }

  // ---- Initiation -------------------------------------------------------------------------------

  /** The transcript and message of an initiation. */
  ghost predicate IsInitiation(s: Suite, h: Handshake, publicKey: Digest, msg: MessageInitiation, ephemeral: Digest,
                               timestamp: Bytes, t: Transcript) {
    var e, es, ss := s.publicKey(ephemeral), s.dh(ephemeral, h.remoteStatic), h.precomputedStaticStatic;
    var t1 := Opened(s, h.remoteStatic, e);
    var t2 := Sealed(s, t1, es, msg.sealedKey);
    && msg.msgType == MESSAGE_INITIATION_TYPE && msg.ephemeral == e
    && msg.sealedKey == s.seal(FieldKey(s, t1, es), publicKey, t1.hash)
    && msg.timestamp == s.seal(FieldKey(s, t2, ss), timestamp, t2.hash)
    && t == Sealed(s, t2, ss, msg.timestamp)
  }

  /** The initiator's transcript, computed in place in the handshake's buffers. */
  method SealInitiation(s: Suite, publicKey: Digest, h: Handshake, ephemeral: Digest, timestamp: Bytes)
    returns (ok: bool, e: Digest, sealedKey: Bytes, stamp: Bytes)
    requires h.hash.Length == h.chainKey.Length == 32 && h.hash != h.chainKey
    modifies h`localEphemeral, h.hash, h.chainKey
    ensures h.localEphemeral == ephemeral
    ensures ok <==> s.dh(ephemeral, h.remoteStatic) != ZERO && h.precomputedStaticStatic != ZERO
    ensures ok ==> forall i ::
      IsInitiation(s, h, publicKey, MessageInitiation(MESSAGE_INITIATION_TYPE, i, e, sealedKey, stamp), ephemeral,
                   timestamp, CurrentTranscript(h))
  {
    hide Kdf, Mixed, InitialHash, InitialChainKey;
    e, sealedKey, stamp := ZERO, [], [];
    Assign(h.hash, InitialHash(s));
    Assign(h.chainKey, InitialChainKey(s));
    h.localEphemeral := ephemeral;
    MixHash(s, h.hash, h.hash, h.remoteStatic);
    e := s.publicKey(ephemeral);
    MixKey(s, h.chainKey, h.chainKey, e);
    MixHash(s, h.hash, h.hash, e);
    assert CurrentTranscript(h) == Opened(s, h.remoteStatic, e);

    // encrypt static key
    var ss;
    ss, ok := SharedSecret(s, ephemeral, h.remoteStatic);
    if !ok {
      return;
    }
    var key := new Byte[32];
    KDF2(s, h.chainKey, key, h.chainKey, ss);
    sealedKey := s.seal(key[..], publicKey, h.hash[..]);
    MixHash(s, h.hash, h.hash, sealedKey);
    assert CurrentTranscript(h) == Sealed(s, Opened(s, h.remoteStatic, e), ss, sealedKey);

    // encrypt timestamp
    var zero := IsZero(h.precomputedStaticStatic);
    ok := !zero;
    if zero {
      assert h.precomputedStaticStatic == ZERO;
      return;
    }
    KDF2(s, h.chainKey, key, h.chainKey, h.precomputedStaticStatic);
    stamp := s.seal(key[..], timestamp, h.hash[..]);
    MixHash(s, h.hash, h.hash, stamp);
  }

  /** The responder's transcript, computed in place in the handshake's buffers. */
  method SealResponse(s: Suite, h: Handshake, ephemeral: Digest) returns (ok: bool, empty: Bytes)
    requires h.hash.Length == h.chainKey.Length == 32 && h.hash != h.chainKey
    modifies h`localEphemeral, h.hash, h.chainKey
    ensures ok <==> s.dh(ephemeral, h.remoteEphemeral) != ZERO && s.dh(ephemeral, h.remoteStatic) != ZERO
    ensures ok ==> IsResponse(s, old(CurrentTranscript(h)), s.publicKey(ephemeral), s.dh(ephemeral, h.remoteEphemeral),
                              s.dh(ephemeral, h.remoteStatic), h.presharedKey, empty, CurrentTranscript(h))
  {
    hide Kdf, Mixed;
    h.localEphemeral := ephemeral;
    empty := [];
    var e := s.publicKey(ephemeral);
    MixHash(s, h.hash, h.hash, e);
    MixKey(s, h.chainKey, h.chainKey, e);
    var ss;
    ss, ok := SharedSecret(s, ephemeral, h.remoteEphemeral);
    if !ok {
      return;
    }
    MixKey(s, h.chainKey, h.chainKey, ss);
    ss, ok := SharedSecret(s, ephemeral, h.remoteStatic);
    if !ok {
      return;
    }
    MixKey(s, h.chainKey, h.chainKey, ss);
    var key := MixPresharedKey(s, h.hash, h.chainKey, h.presharedKey);
    empty := s.seal(key[..], [], h.hash[..]);
    MixHash(s, h.hash, h.hash, empty);
  }

  /** The initiator's view of a response. */
  ghost function AnswerChain(s: Suite, privateKey: Digest, h: Handshake, msg: MessageResponse): Digest
    requires h.hash.Length == h.chainKey.Length == 32
    reads h, h.chainKey, h.hash
  {
    Answered(s, CurrentTranscript(h).chainKey, msg.ephemeral, s.dh(h.localEphemeral, msg.ephemeral),
             s.dh(privateKey, msg.ephemeral))
  }

  ghost function AnswerOf(s: Suite, privateKey: Digest, h: Handshake, msg: MessageResponse): Transcript
    requires h.hash.Length == h.chainKey.Length == 32
    reads h, h.chainKey, h.hash
  {
    var ck := AnswerChain(s, privateKey, h, msg);
    Finished(s, ResponseHash(s, CurrentTranscript(h), msg.ephemeral, ck, h.presharedKey), ck, h.presharedKey, msg.empty)
  }

  /** The response opens under the keys of the handshake h. */
  ghost predicate Authentic(s: Suite, privateKey: Digest, h: Handshake?, msg: MessageResponse)
    reads h, if h == null then {} else {h.chainKey, h.hash}
  {
    && h != null && h.hash.Length == h.chainKey.Length == 32
    && s.dh(h.localEphemeral, msg.ephemeral) != ZERO && s.dh(privateKey, msg.ephemeral) != ZERO
    && var ck := AnswerChain(s, privateKey, h, msg);
      s.open(Kdf(s, ck, h.presharedKey, 3), msg.empty,
             ResponseHash(s, CurrentTranscript(h), msg.ephemeral, ck, h.presharedKey)).Some?
  }

  method OpenResponse(s: Suite, privateKey: Digest, h: Handshake, msg: MessageResponse)
    returns (ok: bool, t: Transcript)
    requires h.hash.Length == h.chainKey.Length == 32
    ensures ok <==> Authentic(s, privateKey, h, msg)
    ensures ok ==> t == AnswerOf(s, privateKey, h, msg)
  {
    hide Kdf, Mixed, AnswerChain;
    t := Transcript(ZERO, ZERO);
    var hash, chainKey;
    ok, hash, chainKey := MixAnswer(s, privateKey, h, msg);
    if !ok {
      return;
    }
    var key := MixPresharedKey(s, hash, chainKey, h.presharedKey);
    var plain := s.open(key[..], msg.empty, hash[..]);
    if plain.None? {
      return false, t;
    }
    MixHash(s, hash, hash, msg.empty);
    return true, Transcript(hash[..], chainKey[..]);
  }

  /** The initiator's side of the three-way key exchange, on buffers of its own. */
  method MixAnswer(s: Suite, privateKey: Digest, h: Handshake, msg: MessageResponse)
    returns (ok: bool, hash: array<Byte>, chainKey: array<Byte>)
    requires h.hash.Length == h.chainKey.Length == 32
    ensures fresh(hash) && fresh(chainKey) && hash.Length == chainKey.Length == 32 && hash != chainKey
    ensures ok <==> s.dh(h.localEphemeral, msg.ephemeral) != ZERO && s.dh(privateKey, msg.ephemeral) != ZERO
    ensures ok ==> hash[..] == Mixed(s, h.hash[..], msg.ephemeral) && chainKey[..] == AnswerChain(s, privateKey, h, msg)
  {
    hide Kdf, Mixed;
    hash, chainKey := new Byte[32], new Byte[32];
    MixHash(s, hash, h.hash, msg.ephemeral);
    MixKey(s, chainKey, h.chainKey, msg.ephemeral);
    var ss;
    ss, ok := SharedSecret(s, h.localEphemeral, msg.ephemeral);
    if !ok {
      return;
    }
    MixKey(s, chainKey, chainKey, ss);
    ss, ok := SharedSecret(s, privateKey, msg.ephemeral);
    if !ok {
      return;
    }
    MixKey(s, chainKey, chainKey, ss);
  }
}
