/** The staged queue of a peer: SendStagedPackets, StagePackets and FlushStagedPackets. */
module Staging {
  import opened Basics
  import opened Nonces

  const QUEUE_STAGED_SIZE := 128

  /** An outbound element; the id is its identity. */
  datatype Elem = Elem(id: nat, nonce: nat)

  // ---- Bookkeeping -----------------------------------------------------------------------------

  ghost function Ids(es: seq<Elem>): multiset<nat> {
    if es == [] then multiset{} else Ids(es[..|es| - 1]) + multiset{es[|es| - 1].id}
  }

  lemma {:induction false} IdsJoin(a: seq<Elem>, b: seq<Elem>)
    ensures Ids(a + b) == Ids(a) + Ids(b)
  {
    hide Ids;
    NothingLeft();
    if b == [] {
      assert a + b == a;
    } else {
      IdsJoin(a, b[..|b| - 1]);
      IdsLast(b);
      IdsLast(a + b);
      assert (a + b)[..|a + b| - 1] == a + b[..|b| - 1];
    }
  }

  lemma IdsLast(es: seq<Elem>)
    requires es != []
    ensures Ids(es) == Ids(es[..|es| - 1]) + multiset{es[|es| - 1].id}
  {
  }

  /** The elements with consecutive nonces. */
  function Stamped(es: seq<Elem>, first: nat): (r: seq<Elem>)
    ensures |r| == |es|
  {
    seq(|es|, i requires 0 <= i < |es| => Elem(es[i].id, first + i))
  }

  lemma {:induction false} SameIds(a: seq<Elem>, b: seq<Elem>)
    requires |a| == |b| && forall i | 0 <= i < |a| :: a[i].id == b[i].id
    ensures Ids(a) == Ids(b)
  {
    if a != [] { SameIds(a[..|a| - 1], b[..|b| - 1]); }
  }

  /** How many of n elements still get a nonce. */
  function Room(n: nat, nonce: nat): (r: nat) {
    if nonce >= REJECT_AFTER_MESSAGES then 0 else Min(n, REJECT_AFTER_MESSAGES - nonce)
  }

  function Names(es: seq<Elem>): seq<nat> {
    seq(|es|, i requires 0 <= i < |es| => es[i].id)
  }

  /** The batch that one container makes: its front, unless nothing of it gets a nonce. */
  function Batch(c: seq<Elem>, nonce: nat): seq<seq<Elem>> {
    var i := Room(|c|, nonce);
    if i == 0 then [] else [Stamped(c, nonce)[..i]]
  }

  /** The batches that containers make, one after the other. */
  function Batches(cs: seq<seq<Elem>>, nonce: nat): seq<seq<Elem>> {
    if cs == [] then []
    else Batches(cs[..|cs| - 1], nonce) + Batch(cs[|cs| - 1], nonce + |Concat(cs[..|cs| - 1])|)
  }

  class Peer {
    var staged: seq<seq<Elem>>
    var outbound: seq<seq<Elem>>
    var pool: seq<Elem>
    var sendNonce: nat
    var initiations: nat

    /** Every element that the peer is responsible for. */
    ghost function Total(): multiset<nat>
      reads `staged, `outbound, `pool
    {
      Ids(Concat(staged)) + Ids(Concat(outbound)) + Ids(pool)
    }

    ghost predicate Valid()
      reads this
    {
      |staged| <= QUEUE_STAGED_SIZE && sendNonce <= REJECT_AFTER_MESSAGES
    }

    /** Nonces for the elements of one container, which is compacted in place: the elements
        that got one stay in front, the others are moved to a container of their own. */
    method AssignNonces(elems: array<Elem>) returns (i: nat, ooo: seq<Elem>)
      requires Valid()
      modifies this`sendNonce, elems
      ensures Valid()
      ensures i == Room(elems.Length, old(sendNonce))
      ensures elems[..i] == Stamped(old(elems[..]), old(sendNonce))[..i]
      ensures |ooo| == elems.Length - i && Names(ooo) == Names(old(elems[..])[i..])
      ensures sendNonce == if ooo == [] then old(sendNonce) + i else REJECT_AFTER_MESSAGES
    {
      i, ooo := 0, [];
      for j := 0 to elems.Length
        invariant Valid() && i == Room(j, old(sendNonce)) && |ooo| == j - i
        invariant sendNonce == if ooo == [] then old(sendNonce) + i else REJECT_AFTER_MESSAGES
        invariant forall k | 0 <= k < i :: elems[k] == Elem(old(elems[k].id), old(sendNonce) + k)
        invariant forall k | 0 <= k < |ooo| :: ooo[k].id == old(elems[i + k].id)
        invariant forall k | j <= k < elems.Length :: elems[k] == old(elems[k])
      {
        var elem := elems[j];
        sendNonce := (sendNonce + 1) % TWO_64;
        elem := elem.(nonce := (sendNonce - 1) % TWO_64);
        if elem.nonce >= REJECT_AFTER_MESSAGES {
          sendNonce := REJECT_AFTER_MESSAGES;
          ooo := ooo + [elem];
        } else {
          elems[i] := elem;
          i := i + 1;
        }
      }
    }

    /** The oldest containers make room for the new one. */
    method StagePackets(elems: seq<Elem>)
      requires Valid()
      modifies this
      ensures Valid() && unchanged(`outbound) && unchanged(`sendNonce) && unchanged(`initiations)
      ensures |old(staged)| < QUEUE_STAGED_SIZE ==> staged == old(staged) + [elems] && pool == old(pool)
      ensures |old(staged)| == QUEUE_STAGED_SIZE ==>
        staged == old(staged)[1..] + [elems] && pool == old(pool) + old(staged)[0]
      ensures Total() == old(Total()) + Ids(elems)
    {
      hide Ids, Concat;
      if |staged| == QUEUE_STAGED_SIZE {
        ConcatJoin(staged[..1], staged[1..]);
        ConcatOne(staged[0]);
        assert staged == staged[..1] + staged[1..] && staged[..1] == [staged[0]];
        IdsJoin(staged[0], Concat(staged[1..]));
        IdsJoin(pool, staged[0]);
        pool := pool + staged[0];
        staged := staged[1..];
      }
      ConcatJoin(staged, [elems]);
      ConcatOne(elems);
      IdsJoin(Concat(staged), elems);
      staged := staged + [elems];
    }

    /** The first container is taken from the queue and given nonces; what is left over is
        staged again. */
    method TakeContainer() returns (batch: seq<Elem>, ooo: seq<Elem>)
      requires Valid() && |staged| > 0
      modifies this
      ensures Valid() && unchanged(`pool) && unchanged(`outbound) && unchanged(`initiations)
      ensures batch == Stamped(old(staged)[0], old(sendNonce))[..Room(|old(staged)[0]|, old(sendNonce))]
      ensures Names(ooo) == Names(old(staged)[0][|batch|..])
      ensures staged == old(staged)[1..] + (if ooo == [] then [] else [ooo])
      ensures sendNonce == if ooo == [] then old(sendNonce) + |batch| else REJECT_AFTER_MESSAGES
      ensures Total() + Ids(batch) == old(Total())
    {
      hide Ids, Concat;
      var c := staged[0];
      ghost var rest := staged[1..];
      TakeFirst(staged);
      staged := staged[1..];
      var elems := new Elem[|c|](i requires 0 <= i < |c| => c[i]);
      assert elems[..] == c;
      var i;
      i, ooo := AssignNonces(elems);
      batch := elems[..i];
      assert batch == Stamped(c, old(sendNonce))[..i];
      SplitIds(c, batch, ooo);
      if ooo != [] {
        StagePackets(ooo);
      } else {
        NothingLeft();
        assert staged == rest + [];
      }
    }

    /** Containers leave from the front of the queue, at most until the nonces run out, and what
        is left of the last one is staged again. isUp and tooOld tell the state of the device and
        the age of the keypair at each pass through the top; `p` counts the containers taken,
        `sent` lists the elements that left, and `turn` numbers the last pass. */
    method SendStagedPackets(hasKeypair: bool, running: bool, isUp: nat -> bool, tooOld: nat -> bool)
      returns (turn: nat, ghost p: nat, ghost sent: seq<Elem>)
      requires Valid()
      modifies this
      ensures Valid() && Total() == old(Total())
      ensures Left(old(staged), old(sendNonce), p, sent) && Remains(old(staged), p, |sent|, staged)
      ensures sendNonce == old(sendNonce) + |sent|
      ensures Passed(running, Batches(old(staged)[..p], old(sendNonce)), sent, old(outbound), old(pool), outbound, pool)
      ensures staged == [] || !isUp(turn) || initiations == old(initiations) + 1
      ensures initiations == old(initiations) ||
        (initiations == old(initiations) + 1 && isUp(turn) && Unusable(hasKeypair, sendNonce, tooOld(turn)))
      ensures old(sendNonce) + |Concat(old(staged))| < REJECT_AFTER_MESSAGES && hasKeypair ==>
        (forall t :: isUp(t) && !tooOld(t)) ==> staged == [] && sent == Stamped(Concat(old(staged)), old(sendNonce))
    {
      hide Ids, Concat, Stamped, Left, Remains, Batches, Total, Passed;
      turn, p, sent := 0, 0, [];
      ghost var ns, nonce := staged, sendNonce;
      NothingSent(ns, nonce);
      NoBatches(running, outbound, pool);
      var atTop := true;
      while true
        invariant Valid() && Total() == old(Total()) && p <= |ns| && initiations == old(initiations)
        invariant Left(ns, nonce, p, sent) && Remains(ns, p, |sent|, staged) && sendNonce == nonce + |sent|
        invariant Passed(running, Batches(ns[..p], nonce), sent, old(outbound), old(pool), outbound, pool)
        invariant |sent| < |Concat(ns[..p])| ==> atTop && sendNonce >= REJECT_AFTER_MESSAGES
        decreases |ns| - p
      {
        AllLeave(ns, nonce, p, sent, staged);
        if atTop {
          turn := turn + 1;
          if |staged| == 0 || !isUp(turn) {
            return;
          }
          if !hasKeypair || sendNonce >= REJECT_AFTER_MESSAGES || tooOld(turn) {
            initiations := initiations + 1;
            return;
          }
        }
        if |staged| == 0 {
          return;
        }
        ghost var more;
        atTop, more := SendContainer(running, ns, nonce, old(outbound), old(pool), p, sent);
        p, sent := p + 1, sent + more;
      }
    }

    /** One container is taken and passed on; true if the loop goes back to the top. */
    method SendContainer(running: bool, ghost ns: seq<seq<Elem>>, ghost nonce: nat, ghost out: seq<seq<Elem>>,
                         ghost put: seq<Elem>, ghost p: nat, ghost sent: seq<Elem>)
      returns (toTop: bool, ghost more: seq<Elem>)
      requires Valid() && staged != [] && Left(ns, nonce, p, sent) && Remains(ns, p, |sent|, staged)
      requires |sent| == |Concat(ns[..p])| && sendNonce == nonce + |sent|
      requires Passed(running, Batches(ns[..p], nonce), sent, out, put, outbound, pool)
      modifies this
      ensures Valid() && Total() == old(Total()) && p < |ns| && unchanged(`initiations)
      ensures Left(ns, nonce, p + 1, sent + more) && Remains(ns, p + 1, |sent + more|, staged)
      ensures sendNonce == nonce + |sent + more|
      ensures Passed(running, Batches(ns[..p + 1], nonce), sent + more, out, put, outbound, pool)
      ensures |sent + more| < |Concat(ns[..p + 1])| ==> toTop && sendNonce >= REJECT_AFTER_MESSAGES
    {
      hide Ids, Concat, Stamped, Left, Remains, Batches, Total, Passed;
      NextContainer(ns, p, |sent|, staged);
      var batch, ooo := TakeContainer();
      more := batch;
      Extends(ns, p, nonce, sent, batch, ooo, staged);
      PassedMore(running, Batches(ns[..p], nonce), sent, out, put, outbound, pool, batch);
      if batch != [] {
        Pass(batch, running);
      } else {
        NothingLeft();
      }
      toTop := batch == [] || ooo != [];
    }

    method Pass(batch: seq<Elem>, running: bool)
      modifies this`outbound, this`pool
      ensures Total() == old(Total()) + Ids(batch)
      ensures running ==> outbound == old(outbound) + [batch] && pool == old(pool)
      ensures !running ==> outbound == old(outbound) && pool == old(pool) + batch
    {
      hide Ids, Concat;
      if running {
        ConcatJoin(outbound, [batch]);
        ConcatOne(batch);
        IdsJoin(Concat(outbound), batch);
        outbound := outbound + [batch];
      } else {
        IdsJoin(pool, batch);
        pool := pool + batch;
      }
    }

    method FlushStagedPackets()
      requires Valid()
      modifies this`staged, this`pool
      ensures Valid() && staged == [] && pool == old(pool) + Concat(old(staged))
      ensures Total() == old(Total())
    {
      hide Ids, Concat;
      NothingLeft();
      while |staged| > 0
        invariant Valid() && pool + Concat(staged) == old(pool) + Concat(old(staged)) && Total() == old(Total())
        invariant outbound == old(outbound)
      {
        ConcatJoin(staged[..1], staged[1..]);
        ConcatOne(staged[0]);
        assert staged == staged[..1] + staged[1..] && staged[..1] == [staged[0]];
        IdsJoin(staged[0], Concat(staged[1..]));
        IdsJoin(pool, staged[0]);
        pool := pool + staged[0];
        staged := staged[1..];
      }
    }
  }

  lemma NothingLeft()
    ensures Concat<Elem>([]) == [] && Ids([]) == multiset{}
  {
  }

  lemma TakeFirst(staged: seq<seq<Elem>>)
    requires |staged| > 0
    ensures Concat(staged) == staged[0] + Concat(staged[1..])
    ensures Ids(Concat(staged)) == Ids(staged[0]) + Ids(Concat(staged[1..]))
  {
    hide Ids, Concat;
    assert staged == [staged[0]] + staged[1..];
    ConcatJoin([staged[0]], staged[1..]);
    ConcatOne(staged[0]);
    IdsJoin(staged[0], Concat(staged[1..]));
  }

  lemma SplitIds(c: seq<Elem>, batch: seq<Elem>, ooo: seq<Elem>)
    requires |batch| <= |c| && Names(batch) == Names(c[..|batch|]) && Names(ooo) == Names(c[|batch|..])
    ensures Ids(c) == Ids(batch) + Ids(ooo)
  {
    hide Ids;
    assert forall j | 0 <= j < |batch| :: Names(batch)[j] == c[..|batch|][j].id;
    assert forall j | 0 <= j < |ooo| :: Names(ooo)[j] == c[|batch|..][j].id;
    SameIds(c, batch + ooo);
    IdsJoin(batch, ooo);
  }

  /** The elements of the first p containers left in order with consecutive nonces, all of
      them or as many as there were nonces for. */
  ghost predicate Left(staged: seq<seq<Elem>>, nonce: nat, p: nat, sent: seq<Elem>) {
    && p <= |staged| && |sent| == Room(|Concat(staged[..p])|, nonce)
    && sent == Stamped(Concat(staged[..p]), nonce)[..|sent|]
  }

  /** What is still staged: the containers not taken, and then those elements of the taken ones
      that did not leave. */
  ghost predicate Remains(was: seq<seq<Elem>>, p: nat, sent: nat, now: seq<seq<Elem>>) {
    && p <= |was| && sent <= |Concat(was[..p])|
    && if sent == |Concat(was[..p])| then now == was[p..]
       else |now| == |was| - p + 1 && now[..|was| - p] == was[p..]
            && Names(now[|was| - p]) == Names(Concat(was[..p])[sent..])
  }

  /** The batches went to the outbound queue, or their elements to the pool if the peer is
      stopped. */
  ghost predicate Passed(running: bool, batches: seq<seq<Elem>>, sent: seq<Elem>, out0: seq<seq<Elem>>,
                         pool0: seq<Elem>, out: seq<seq<Elem>>, pool: seq<Elem>) {
    if running then out == out0 + batches && pool == pool0 else out == out0 && pool == pool0 + sent
  }

  lemma NoBatches(running: bool, out: seq<seq<Elem>>, pool: seq<Elem>)
    ensures Passed(running, [], [], out, pool, out, pool)
  {
  }

  lemma PassedMore(running: bool, batches: seq<seq<Elem>>, sent: seq<Elem>, out0: seq<seq<Elem>>, pool0: seq<Elem>,
                   out: seq<seq<Elem>>, pool: seq<Elem>, batch: seq<Elem>)
    requires Passed(running, batches, sent, out0, pool0, out, pool)
    ensures running ==> Passed(running, batches + [batch], sent + batch, out0, pool0, out + [batch], pool)
    ensures !running ==> Passed(running, batches + [batch], sent + batch, out0, pool0, out, pool + batch)
    ensures Passed(running, batches + [], sent + [], out0, pool0, out, pool)
  {
    assert batches + [] == batches && sent + [] == sent;
  }

  predicate Unusable(hasKeypair: bool, nonce: nat, tooOld: bool) {
    !hasKeypair || nonce >= REJECT_AFTER_MESSAGES || tooOld
  }

  /** With nonces to spare, a queue that is empty in the end has left as a whole. */
  lemma AllLeave(was: seq<seq<Elem>>, nonce: nat, p: nat, sent: seq<Elem>, now: seq<seq<Elem>>)
    requires Left(was, nonce, p, sent) && Remains(was, p, |sent|, now)
    ensures p <= |was| && |sent| <= |Concat(was[..p])|
    ensures nonce + |Concat(was)| < REJECT_AFTER_MESSAGES ==>
      nonce + |sent| < REJECT_AFTER_MESSAGES && (now == [] ==> sent == Stamped(Concat(was), nonce))
  {
    hide Concat, Stamped, Names;
    var front := was[..p];
    ConcatJoin(front, was[p..]);
    assert was == front + was[p..];
    if nonce + |Concat(was)| < REJECT_AFTER_MESSAGES && now == [] {
      assert p == |was| && front == was;
    }
  }

  lemma NothingSent(staged: seq<seq<Elem>>, nonce: nat)
    ensures Left(staged, nonce, 0, []) && Remains(staged, 0, 0, staged) && Batches(staged[..0], nonce) == []
  {
    NothingLeft();
  }

  /** As long as everything taken has left, the queue is the rest of the containers. */
  lemma NextContainer(was: seq<seq<Elem>>, p: nat, sent: nat, now: seq<seq<Elem>>)
    requires Remains(was, p, sent, now) && sent >= |Concat(was[..p])| && now != []
    ensures p < |was| && now[0] == was[p] && now[1..] == was[p + 1..] && sent == |Concat(was[..p])|
  {
    hide Concat;
  }

  /** What one more container adds. */
  lemma Extends(was: seq<seq<Elem>>, p: nat, nonce: nat, sent: seq<Elem>, batch: seq<Elem>, ooo: seq<Elem>,
                now: seq<seq<Elem>>)
    requires p < |was| && Left(was, nonce, p, sent) && |sent| == |Concat(was[..p])|
    requires nonce + |sent| <= REJECT_AFTER_MESSAGES
    requires batch == Stamped(was[p], nonce + |sent|)[..Room(|was[p]|, nonce + |sent|)]
    requires Names(ooo) == Names(was[p][|batch|..])
    requires now == was[p + 1..] + (if ooo == [] then [] else [ooo])
    ensures Left(was, nonce, p + 1, sent + batch) && Remains(was, p + 1, |sent + batch|, now)
    ensures Batches(was[..p + 1], nonce) == Batches(was[..p], nonce) + (if batch == [] then [] else [batch])
    ensures |sent + batch| == |Concat(was[..p + 1])| <==> ooo == []
    ensures ooo != [] ==> nonce + |sent + batch| >= REJECT_AFTER_MESSAGES
  {
    hide Concat, Stamped;
    var a, c := Concat(was[..p]), was[p];
    OneMore(was, p);
    StampedJoin(a, c, nonce);
    assert |ooo| == |Names(ooo)| == |c| - |batch|;
    assert (a + c)[|sent + batch|..] == c[|batch|..];
    assert was[..p + 1][..p] == was[..p];
  }

  lemma OneMore(staged: seq<seq<Elem>>, p: nat)
    requires p < |staged|
    ensures Concat(staged[..p + 1]) == Concat(staged[..p]) + staged[p]
  {
    assert staged[..p + 1][..p] == staged[..p];
  }

  lemma StampedJoin(a: seq<Elem>, b: seq<Elem>, nonce: nat)
    ensures Stamped(a + b, nonce) == Stamped(a, nonce) + Stamped(b, nonce + |a|)
  {
  }
}
