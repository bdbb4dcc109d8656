/** Whole histories of a device, from its creation. */
module DeviceRuns {
  import opened Basics
  import opened NoiseCrypto
  import opened Sessions
  import opened NoiseProtocol
  import Tai64n

  datatype Op =
    | AddPeer(pk: Digest, psk: Digest)
    | OnPeer(of: Bytes, what: PeerOp)
    | ReceiveInitiation(init: MessageInitiation, now: int)
    | ReceiveResponse(resp: MessageResponse)

  /** What can happen to a peer at any time. A message that needs an index comes with what the
      random source yields. */
  datatype PeerOp =
    | Start(at: Tai64n.Instant)
    | Stop
    | SendInitiation(sending: Tai64n.Sending, ephemeral: Digest, draws: seq<Index>)
    | SendResponse(at: Tai64n.Instant, ephemeral: Digest, draws: seq<Index>)
    | BeginSession
    | ReceiveData
    | Expire(at: Tai64n.Instant)

  predicate NoZero(op: Op) {
    op.OnPeer? && (op.what.SendInitiation? || op.what.SendResponse?) ==> 0 !in op.what.draws
  }

  ghost function Keys(p: Peer): set<Keypair>
    reads p
  {
    Live(p) + if p.previous == null then {} else {p.previous}
  }

  /** All keypairs in use are among the given ones. */
  ghost predicate Kept(d: Device, keypairs: set<Keypair>)
    reads d, d.all
  {
    forall p | p in d.all :: Keys(p) <= keypairs
  }

  /** An index is drawn only if the random source yields one that is not in use. */
  method SendTo(d: Device, p: Peer, op: PeerOp, ghost keypairs: set<Keypair>) returns (ghost more: set<Keypair>)
    requires d.Valid() && p in d.all && Kept(d, keypairs)
    requires (op.SendInitiation? || op.SendResponse?) && 0 !in op.draws
    modifies p, p.handshake, p.handshake.hash, p.handshake.chainKey, d.indexTable
    ensures d.Valid() && Kept(d, keypairs + more) && fresh(more)
  {
    hide Device.Valid, Drawable;
    more := {};
    if !Drawable(d.indexTable.table - {p.handshake.localIndex}, op.draws) {
      return;
    }
    if op.SendInitiation? {
      var _, _ := d.SendHandshakeInitiation(p, op.sending, op.ephemeral, op.draws);
    } else {
      var _, kp := d.SendHandshakeResponse(p, op.at, op.ephemeral, op.draws, 0);
      more := if kp == null then {} else {kp};
    }
  }

  method OnPeerStep(d: Device, p: Peer, op: PeerOp, ghost keypairs: set<Keypair>) returns (ghost more: set<Keypair>)
    requires d.Valid() && p in d.all && Kept(d, keypairs)
    requires (op.SendInitiation? || op.SendResponse?) ==> 0 !in op.draws
    modifies p, p.handshake, p.handshake.hash, p.handshake.chainKey, d.indexTable, keypairs
    ensures d.Valid() && Kept(d, keypairs + more) && fresh(more)
  {
    hide Device.Valid, Device.GateMoved, BegunTable, Kdf;
    more := {};
    match op {
      case Start(at) => d.Start(p, at, false);
      case Stop => d.Stop(p);
      case Expire(at) => d.ExpireCurrentKeypairs(p, at);
      case BeginSession =>
        var kp := d.BeginSymmetricSession(p);
        more := if kp == null then {} else {kp};
      case ReceiveData =>
        if p.next != null {
          var _ := d.ReceivedWithKeypair(p, p.next);
        }
      case SendInitiation(_, _, _) => more := SendTo(d, p, op, keypairs);
      case SendResponse(_, _, _) => more := SendTo(d, p, op, keypairs);
    }
  }

  method Receive(d: Device, op: Op)
    requires d.Valid() && (op.ReceiveInitiation? || op.ReceiveResponse?)
    modifies d.handshakes, d.buffers
    ensures d.Valid()
  {
    hide Device.Valid, Device.Recognised, Device.Awaiting, Device.Accepted, Heard, CurrentTranscript, Device.Keyed,
         Acceptable;
    match op {
      case ReceiveInitiation(msg, now) =>
        ghost var who := Sender(d, msg);
        var _ := d.ConsumeMessageInitiation(msg, now, who);
      case ReceiveResponse(msg) =>
        ghost var who := Waiting(d, msg);
        var _ := d.ConsumeMessageResponse(msg, who);
    }
  }

  method Step(d: Device, op: Op, ghost keypairs: set<Keypair>) returns (ghost more: set<Keypair>)
    requires d.Valid() && Kept(d, keypairs) && NoZero(op)
    modifies d, d.indexTable, d.all, d.handshakes, d.buffers, keypairs
    ensures d.Valid() && Kept(d, keypairs + more) && fresh(more)
    ensures fresh(d.all - old(d.all)) && fresh(d.handshakes - old(d.handshakes)) && fresh(d.buffers - old(d.buffers))
  {
    hide Device.Valid, NewHandshake;
    more := {};
    match op {
      case AddPeer(pk, psk) =>
        var _ := d.NewPeer(pk, psk, false);
      case OnPeer(pk, what) =>
        if pk in d.peers {
          KnownPeer(d, pk);
          PeerFacts(d, d.peers[pk]);
          more := OnPeerStep(d, d.peers[pk], what, keypairs);
        }
      case ReceiveInitiation(_, _) => Receive(d, op);
      case ReceiveResponse(_) => Receive(d, op);
    }
  }

  /** After every sequence of operations on a new device, the table is exact. */
  method Run(s: Suite, privateKey: Digest, ops: seq<Op>) returns (d: Device)
    requires forall i | 0 <= i < |ops| :: NoZero(ops[i])
    ensures fresh(d) && d.Valid() && Exact(d)
  {
    hide Device.Valid, Exact;
    d := new Device(s, privateKey);
    ghost var keypairs: set<Keypair> := {};
    for i := 0 to |ops|
      invariant fresh(d) && fresh(d.indexTable) && fresh(d.all) && fresh(d.handshakes) && fresh(d.buffers)
      invariant d.Valid() && Kept(d, keypairs) && fresh(keypairs)
    {
      ghost var more := Step(d, ops[i], keypairs);
      keypairs := keypairs + more;
    }
    TableIsExact(d);
  }

  /** The peer that an initiation concerns, if any. */
  ghost function Sender(d: Device, msg: MessageInitiation): (p: Peer?)
    requires d.Valid()
    reads d, d.all, d.indexTable, d.handshakes
    ensures d.Recognised(msg).Some? ==> d.Recognised(msg).value.peer == p
    ensures p != null ==> p in d.all && p.handshake in d.handshakes && BuffersOf(p) <= d.buffers
  {
    var r := d.Recognised(msg);
    if r.None? then null else RecognisedFacts(d, msg); r.value.peer
  }

  lemma RecognisedFacts(d: Device, msg: MessageInitiation)
    requires d.Valid() && d.Recognised(msg).Some?
    ensures var p := d.Recognised(msg).value.peer;
      p in d.all && p.handshake in d.handshakes && BuffersOf(p) <= d.buffers
  {
    hide Device.Recognised, Consistent, Directory;
    d.RecognisedPeer(msg);
    PeerFacts(d, d.Recognised(msg).value.peer);
  }

  ghost function Waiting(d: Device, msg: MessageResponse): (p: Peer?)
    requires d.Valid()
    reads d, d.all, d.indexTable, d.handshakes
    ensures d.Awaiting(msg) ==> d.indexTable.table[msg.receiver].peer == p
    ensures p != null ==> p in d.all && p.handshake in d.handshakes && BuffersOf(p) <= d.buffers
  {
    if !d.Awaiting(msg) then null else d.LookedUp(msg.receiver); d.indexTable.table[msg.receiver].peer
  }
}
