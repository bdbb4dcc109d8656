/** Handshakes, keypair slots and the index table that must agree with them. */
module Sessions {
  import opened Basics
  import opened NoiseCrypto
  import Tai64n

  /** Index 0 means that there is no index. */
  type Index = U32

  datatype HandshakeState =
    HandshakeZeroed | InitiationCreated | InitiationConsumed | ResponseCreated | ResponseConsumed

  class Keypair {
    const send: Digest
    const receive: Digest
    const isInitiator: bool
    const localIndex: Index
    const remoteIndex: Index
    var sendNonce: nat

    constructor (send: Digest, receive: Digest, isInitiator: bool, localIndex: Index, remoteIndex: Index)
      ensures this.send == send && this.receive == receive && this.isInitiator == isInitiator
      ensures this.localIndex == localIndex && this.remoteIndex == remoteIndex && sendNonce == 0
    {
      this.send, this.receive, this.isInitiator := send, receive, isInitiator;
      this.localIndex, this.remoteIndex, sendNonce := localIndex, remoteIndex, 0;
    }
  }

  class Handshake {
    var state: HandshakeState
    const hash: array<Byte>
    const chainKey: array<Byte>
    const presharedKey: Digest
    var localEphemeral: Digest
    var localIndex: Index
    var remoteIndex: Index
    const remoteStatic: Digest
    var remoteEphemeral: Digest
    const precomputedStaticStatic: Digest
    var lastTimestamp: Bytes
    var lastInitiationConsumption: int
    var lastSentHandshake: int

    constructor (remoteStatic: Digest, presharedKey: Digest, precomputedStaticStatic: Digest)
      ensures fresh(hash) && fresh(chainKey) && hash.Length == chainKey.Length == 32 && hash != chainKey
      ensures state == HandshakeZeroed && localIndex == 0
      ensures this.remoteStatic == remoteStatic && this.presharedKey == presharedKey
      ensures this.precomputedStaticStatic == precomputedStaticStatic
      ensures lastTimestamp == seq(12, _ => 0)
      ensures lastInitiationConsumption == lastSentHandshake == Tai64n.ZERO_TIME
    {
      this.remoteStatic, this.presharedKey := remoteStatic, presharedKey;
      this.precomputedStaticStatic := precomputedStaticStatic;
      state, localIndex, remoteIndex := HandshakeZeroed, 0, 0;
      localEphemeral, remoteEphemeral := ZERO, ZERO;
      lastTimestamp := seq(12, _ => 0);
      lastInitiationConsumption, lastSentHandshake := Tai64n.ZERO_TIME, Tai64n.ZERO_TIME;
      hash := new Byte[32];
      chainKey := new Byte[32];
    }

    method Clear()
      requires hash.Length == chainKey.Length == 32
      modifies this, hash, chainKey
      ensures hash[..] == ZERO && chainKey[..] == ZERO && localEphemeral == ZERO && remoteEphemeral == ZERO
      ensures localIndex == 0 && state == HandshakeZeroed
      ensures unchanged(`remoteIndex) && unchanged(`lastTimestamp) && unchanged(`lastInitiationConsumption)
      ensures unchanged(`lastSentHandshake)
    {
      localEphemeral, remoteEphemeral := ZERO, ZERO;
      SetZero(chainKey);
      SetZero(hash);
      localIndex := 0;
      state := HandshakeZeroed;
      assert hash[..] == ZERO && chainKey[..] == ZERO;
    }
  }

  class Peer {
    const handshake: Handshake
    var previous: Keypair?
    var current: Keypair?
    var next: Keypair?
    var isRunning: bool

    constructor (handshake: Handshake)
      ensures this.handshake == handshake && previous == current == next == null && !isRunning
    {
      this.handshake, previous, current, next, isRunning := handshake, null, null, null, false;
    }
  }

  datatype Entry = Entry(peer: Peer, handshake: Handshake?, keypair: Keypair?)

  // ---- The index table -------------------------------------------------------------------------

  /** The first of the drawn indices that is not in use. */
  function FirstFree(table: Table, draws: seq<Index>): Index
    requires Drawable(table, draws)
  {
    if draws[0] !in table then draws[0] else FirstFree(table, draws[1..])
  }

  /** One of the drawn indices is not in use. */
  predicate Drawable(table: Table, draws: seq<Index>) {
    exists i | 0 <= i < |draws| :: draws[i] !in table
  }

  class IndexTable {
    var table: map<Index, Entry>

    constructor ()
      ensures table == map[]
    {
      table := map[];
    }

    method Delete(index: Index)
      modifies this
      ensures table == old(table) - {index}
    {
      table := table - {index};
    }

    method SwapIndexForKeypair(index: Index, keypair: Keypair)
      modifies this
      ensures index !in old(table) ==> table == old(table)
      ensures index in old(table) ==> table == old(table)[index := Entry(old(table)[index].peer, null, keypair)]
    {
      if index !in table {
        return;
      }
      table := table[index := Entry(table[index].peer, null, keypair)];
    }

    /** draws is what the random source yields before it fails: it is consulted until an unused
        index comes up. */
    method NewIndexForHandshake(peer: Peer, handshake: Handshake, draws: seq<Index>) returns (r: Option<Index>)
      modifies this
      ensures r.None? <==> !Drawable(old(table), draws)
      ensures r.None? ==> table == old(table)
      ensures r.Some? ==> r.value == FirstFree(old(table), draws) && r.value !in old(table) && r.value in draws
      ensures r.Some? ==> table == old(table)[r.value := Entry(peer, handshake, null)]
    {
      for i := 0 to |draws|
        invariant table == old(table) && forall j | 0 <= j < i :: draws[j] in table
        invariant Drawable(table, draws) <==> Drawable(table, draws[i..])
        invariant Drawable(table, draws) ==> FirstFree(table, draws) == FirstFree(table, draws[i..])
      {
        DrawsStep(table, draws, i);
        if draws[i] !in table {
          table := table[draws[i] := Entry(peer, handshake, null)];
          return Some(draws[i]);
        }
      }
      return None;
    }
  }

  lemma DrawsStep(table: Table, draws: seq<Index>, i: nat)
    requires i < |draws|
    ensures Drawable(table, draws[i..]) <==> draws[i] !in table || Drawable(table, draws[i + 1..])
    ensures Drawable(table, draws[i..]) ==>
      FirstFree(table, draws[i..]) == if draws[i] !in table then draws[i] else FirstFree(table, draws[i + 1..])
  {
    var now, rest := draws[i..], draws[i + 1..];
    assert now[1..] == rest;
    if k :| 0 <= k < |now| && now[k] !in table { assert k > 0 ==> rest[k - 1] == now[k]; }
    if k :| 0 <= k < |rest| && rest[k] !in table { assert now[k + 1] == rest[k]; }
  }

  // ---- Agreement of the table with the peers ------------------------------------------------------

  /** What a peer occupies: its handshake index and its three keypair slots. */
  datatype Slots = Slots(hs: Index, previous: Keypair?, current: Keypair?, next: Keypair?)

  type Table = map<Index, Entry>
  type View = map<Peer, Slots>

  ghost predicate Holds(v: Slots, kp: Keypair) { kp == v.previous || kp == v.current || kp == v.next }

  ghost predicate Apart(v: Slots) {
    && (v.previous != null ==> v.previous != v.current && v.previous != v.next)
    && (v.current != null ==> v.current != v.next)
  }

  ghost predicate EntryOK(i: Index, e: Entry, view: View) {
    && i != 0 && e.peer in view
    && (if e.keypair == null then e.handshake == e.peer.handshake && view[e.peer].hs == i
        else e.handshake == null && e.keypair.localIndex == i && Holds(view[e.peer], e.keypair))
  }

  ghost predicate SlotOK(table: Table, p: Peer, kp: Keypair?) {
    kp != null ==> kp.localIndex in table && table[kp.localIndex] == Entry(p, null, kp)
  }

  ghost predicate PeerOK(table: Table, p: Peer, v: Slots) {
    && (v.hs != 0 ==> v.hs in table && table[v.hs] == Entry(p, p.handshake, null))
    && SlotOK(table, p, v.previous) && SlotOK(table, p, v.current) && SlotOK(table, p, v.next)
    && Apart(v)
  }

  /** Nothing stale, nothing missing. */
  ghost predicate Consistent(table: Table, view: View) {
    && (forall i {:trigger table[i]} | i in table :: EntryOK(i, table[i], view))
    && (forall p {:trigger view[p]} | p in view :: PeerOK(table, p, view[p]))
  }

  /** A step that concerns one peer only. */
  lemma Local(table: Table, view: View, p: Peer, table': Table, v': Slots)
    requires Consistent(table, view) && p in view
    requires forall i | i in table && table[i].peer != p :: i in table' && table'[i] == table[i]
    requires forall i | i in table' && table'[i].peer != p :: i in table && table[i] == table'[i]
    requires forall i | i in table' && table'[i].peer == p :: EntryOK(i, table'[i], view[p := v'])
    requires PeerOK(table', p, v')
    ensures Consistent(table', view[p := v'])
  {
    var view' := view[p := v'];
    forall i | i in table' ensures EntryOK(i, table'[i], view') {
      if table'[i].peer != p { assert EntryOK(i, table[i], view); }
    }
    forall q | q in view' ensures PeerOK(table', q, view'[q]) {
      if q != p { assert PeerOK(table, q, view[q]); }
    }
  }

  /** A new peer occupies nothing. */
  lemma PeerAdded(table: Table, view: View, p: Peer)
    requires Consistent(table, view) && p !in view
    ensures Consistent(table, view[p := Slots(0, null, null, null)])
  {
    var view' := view[p := Slots(0, null, null, null)];
    forall i | i in table ensures EntryOK(i, table[i], view') {
      assert EntryOK(i, table[i], view);
    }
    forall q | q in view' ensures PeerOK(table, q, view'[q]) {
      if q != p { assert PeerOK(table, q, view[q]); }
    }
  }

  /** A drawn index in place of a peer's handshake index keeps the agreement if and only if it
      is not 0, which also means that there is no index. */
  lemma NewHandshakeIndex(table: Table, view: View, p: Peer, i: Index)
    requires Consistent(table, view) && p in view && i !in table - {view[p].hs}
    ensures var table' := (table - {view[p].hs})[i := Entry(p, p.handshake, null)];
      Consistent(table', view[p := view[p].(hs := i)]) <==> i != 0
  {
    var v, view' := view[p], view[p := view[p].(hs := i)];
    var table' := (table - {v.hs})[i := Entry(p, p.handshake, null)];
    assert PeerOK(table, p, v);
    if i == 0 {
      assert !EntryOK(i, table'[i], view');
    } else {
      forall j | j in table' && table'[j].peer == p ensures EntryOK(j, table'[j], view') {
        if j != i { assert EntryOK(j, table[j], view); }
      }
      forall j | j in table && table[j].peer != p ensures j in table' && table'[j] == table[j] {
        assert EntryOK(j, table[j], view);
      }
      Local(table, view, p, table', v.(hs := i));
    }
  }

  /** A handshake whose entry is deleted must have no index afterwards. */
  lemma LostIndex(table: Table, view: View, p: Peer, i: Index)
    requires Consistent(table, view) && p in view
    ensures Consistent(table - {view[p].hs}, view[p := view[p].(hs := i)]) <==> i == 0
  {
    DropHandshake(table, view, p);
    var table', view' := table - {view[p].hs}, view[p := view[p].(hs := i)];
    if i in table { assert EntryOK(i, table[i], view); }
    assert i != 0 ==> !PeerOK(table', p, view'[p]);
  }

  lemma DropHandshake(table: Table, view: View, p: Peer)
    requires Consistent(table, view) && p in view
    ensures Consistent(table - {view[p].hs}, view[p := view[p].(hs := 0)])
  {
    var v := view[p];
    assert PeerOK(table, p, v);
    var table' := table - {v.hs};
    forall j | j in table' ensures EntryOK(j, table'[j], view[p := v.(hs := 0)]) {
      assert EntryOK(j, table[j], view);
    }
    forall j | j in table && table[j].peer != p ensures j in table' && table'[j] == table[j] {
      assert EntryOK(j, table[j], view);
    }
    Local(table, view, p, table', v.(hs := 0));
  }

  /** Entry i of peer p belongs to a keypair that is no longer in a slot. */
  ghost predicate Stale(table: Table, p: Peer, v: Slots, i: Index) {
    i in table && table[i].peer == p && table[i].keypair != null && !Holds(v, table[i].keypair)
  }

  lemma SlotsOf(table: Table, p: Peer, v: Slots)
    requires forall kp: Keypair | Holds(v, kp) :: SlotOK(table, p, kp)
    ensures SlotOK(table, p, v.previous) && SlotOK(table, p, v.current) && SlotOK(table, p, v.next)
  {
    assert v.previous != null ==> Holds(v, v.previous);
    assert v.current != null ==> Holds(v, v.current);
    assert v.next != null ==> Holds(v, v.next);
  }

  /** The keypairs that leave their slots lose their entries. */
  lemma Rearranged(table: Table, view: View, p: Peer, table': Table, v': Slots)
    requires Consistent(table, view) && p in view && v'.hs == view[p].hs && Apart(v')
    requires forall kp: Keypair | Holds(v', kp) :: Holds(view[p], kp)
    requires forall i :: i in table' <==> i in table && !Stale(table, p, v', i)
    requires forall i | i in table' :: table'[i] == table[i]
    ensures Consistent(table', view[p := v'])
  {
    var v := view[p];
    assert PeerOK(table, p, v);
    forall j | j in table' ensures EntryOK(j, table'[j], view[p := v']) {
      assert EntryOK(j, table[j], view);
    }
    forall kp: Keypair | Holds(v', kp) ensures SlotOK(table', p, kp) {
      assert Holds(v, kp);
    }
    SlotsOf(table', p, v');
    Local(table, view, p, table', v');
  }

  /** The handshake entry becomes the entry of a new keypair, and other keypairs may leave. */
  lemma Promoted(table: Table, view: View, p: Peer, kp: Keypair, table': Table, v': Slots)
    requires Consistent(table, view) && p in view && view[p].hs != 0 && kp.localIndex == view[p].hs
    requires v'.hs == 0 && Apart(v') && Holds(v', kp)
    requires forall k: Keypair | Holds(v', k) :: k == kp || Holds(view[p], k)
    requires forall i :: i in table' <==> i in table && !Stale(table, p, v', i)
    requires forall i | i in table' :: table'[i] == if i == view[p].hs then Entry(p, null, kp) else table[i]
    ensures Consistent(table', view[p := v'])
  {
    var v := view[p];
    assert PeerOK(table, p, v);
    forall j | j in table' ensures EntryOK(j, table'[j], view[p := v']) {
      assert EntryOK(j, table[j], view);
    }
    forall k: Keypair | Holds(v', k) ensures SlotOK(table', p, k) {
      assert k == kp || Holds(v, k);
    }
    SlotsOf(table', p, v');
    Local(table, view, p, table', v');
  }

  // ---- Rotation ----------------------------------------------------------------------------------

  function Without(table: Table, kp: Keypair?): Table {
    if kp == null then table else table - {kp.localIndex}
  }

  /** The slots after a session began. */
  function Begun(v: Slots, kp: Keypair, isInitiator: bool): Slots {
    if isInitiator then Slots(0, if v.next != null then v.next else v.current, kp, null)
    else Slots(0, null, v.current, kp)
  }

  /** The table after a session began. */
  ghost function BegunTable(table: Table, p: Peer, v: Slots, kp: Keypair, isInitiator: bool): Table {
    var t := table[v.hs := Entry(p, null, kp)];
    if isInitiator then Without(if v.next != null then Without(t, v.current) else t, v.previous)
    else Without(Without(t, v.next), v.previous)
  }

  /** In a consistent table, taking out a slot's entry takes out nothing else. */
  lemma SlotEntries(table: Table, view: View, p: Peer, i: Index)
    requires Consistent(table, view) && p in view && i in table
    ensures table[i].peer == p && table[i].keypair != null ==>
      Holds(view[p], table[i].keypair) && table[i].keypair.localIndex == i
    ensures forall kp: Keypair | Holds(view[p], kp) && kp.localIndex == i :: table[i] == Entry(p, null, kp)
    ensures i == view[p].hs ==> table[i] == Entry(p, p.handshake, null)
  {
    assert EntryOK(i, table[i], view);
    assert PeerOK(table, p, view[p]);
  }

  lemma BeginKeeps(table: Table, view: View, p: Peer, kp: Keypair, isInitiator: bool)
    requires Consistent(table, view) && p in view && view[p].hs != 0 && kp.localIndex == view[p].hs
    requires !Holds(view[p], kp)
    ensures Consistent(BegunTable(table, p, view[p], kp, isInitiator), view[p := Begun(view[p], kp, isInitiator)])
  {
    var v, v' := view[p], Begun(view[p], kp, isInitiator);
    var table' := BegunTable(table, p, v, kp, isInitiator);
    assert PeerOK(table, p, v);
    forall i ensures i in table' <==> i in table && !Stale(table, p, v', i) {
      if i in table { SlotEntries(table, view, p, i); }
    }
    forall i | i in table' ensures table'[i] == if i == v.hs then Entry(p, null, kp) else table[i] {
    }
    Promoted(table, view, p, kp, table', v');
  }

  function Received(v: Slots): Slots { Slots(v.hs, v.current, v.next, null) }

  lemma ReceivedKeeps(table: Table, view: View, p: Peer)
    requires Consistent(table, view) && p in view
    ensures Consistent(Without(table, view[p].previous), view[p := Received(view[p])])
  {
    var v, v' := view[p], Received(view[p]);
    var table' := Without(table, v.previous);
    assert PeerOK(table, p, v);
    forall i ensures i in table' <==> i in table && !Stale(table, p, v', i) {
      if i in table { SlotEntries(table, view, p, i); }
    }
    Rearranged(table, view, p, table', v');
  }

  lemma ClearKeeps(table: Table, view: View, p: Peer)
    requires Consistent(table, view) && p in view
    ensures var v := view[p];
      Consistent(Without(Without(Without(table, v.previous), v.current), v.next),
                 view[p := Slots(v.hs, null, null, null)])
  {
    var v, v' := view[p], Slots(view[p].hs, null, null, null);
    var table' := Without(Without(Without(table, v.previous), v.current), v.next);
    assert PeerOK(table, p, v);
    forall i ensures i in table' <==> i in table && !Stale(table, p, v', i) {
      if i in table { SlotEntries(table, view, p, i); }
    }
    Rearranged(table, view, p, table', v');
  }

  // ---- Counting ----------------------------------------------------------------------------------

  ghost function IndexOf(kp: Keypair?): set<Index> { if kp == null then {} else {kp.localIndex} }

  /** The indices that a peer occupies. */
  ghost function Occupied(v: Slots): set<Index> {
    (if v.hs == 0 then {} else {v.hs}) + IndexOf(v.previous) + IndexOf(v.current) + IndexOf(v.next)
  }

  ghost function Count(kp: Keypair?): nat { if kp == null then 0 else 1 }

  /** How many of a peer's handshake index and slots are in use. */
  ghost function Occupants(v: Slots): nat {
    (if v.hs == 0 then 0 else 1) + Count(v.previous) + Count(v.current) + Count(v.next)
  }

  /** The entries of a peer are exactly its occupied indices. */
  lemma PeerEntries(table: Table, view: View, p: Peer)
    requires Consistent(table, view) && p in view
    ensures (set i | i in table && table[i].peer == p) == Occupied(view[p])
  {
    var v := view[p];
    assert PeerOK(table, p, v);
    forall i | i in table && table[i].peer == p ensures i in Occupied(v) {
      assert EntryOK(i, table[i], view);
    }
  }

  /** A peer's indices are all different: one entry per occupied slot and at most four. */
  lemma PeerCount(table: Table, view: View, p: Peer)
    requires Consistent(table, view) && p in view
    ensures |Occupied(view[p])| == Occupants(view[p]) <= 4
  {
    hide IndexOf, Count, PeerOK;
    var v := view[p];
    SlotsApart(table, p, v);
    hide Consistent;
    CountOf(v.previous);
    CountOf(v.current);
    CountOf(v.next);
    var a, b, c, d := if v.hs == 0 then {} else {v.hs}, IndexOf(v.previous), IndexOf(v.current), IndexOf(v.next);
    DisjointUnion(a, b);
    DisjointUnion(a + b, c);
    DisjointUnion(a + b + c, d);
  }

  lemma CountOf(kp: Keypair?)
    ensures |IndexOf(kp)| == Count(kp) <= 1
  {
  }

  lemma SlotsApart(table: Table, p: Peer, v: Slots)
    requires PeerOK(table, p, v)
    ensures v.hs !in IndexOf(v.previous) + IndexOf(v.current) + IndexOf(v.next) || v.hs == 0
    ensures IndexOf(v.previous) !! IndexOf(v.current) && IndexOf(v.previous) !! IndexOf(v.next)
    ensures IndexOf(v.current) !! IndexOf(v.next)
  {
  }

  lemma DisjointUnion(x: set<Index>, y: set<Index>)
    requires x !! y
    ensures |x + y| == |x| + |y|
  {
  }

  /** Different peers share no index. */
  lemma PeersDisjoint(table: Table, view: View, p: Peer, q: Peer)
    requires Consistent(table, view) && p in view && q in view && p != q
    ensures Occupied(view[p]) !! Occupied(view[q])
  {
    PeerEntries(table, view, p);
    PeerEntries(table, view, q);
    var sp, sq := set i | i in table && table[i].peer == p, set i | i in table && table[i].peer == q;
    assert sp !! sq;
  }
}
