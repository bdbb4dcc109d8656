/** The single-device session lock of the management layer: a registry of locked endpoints
    and the monitor that moves, keeps or drops them. */
module SessionLock {
  import opened Basics

  /** A point in time; None is the zero time. */
  type Time = Option<int>

  datatype Lock = Lock(endpoint: string, lastActive: Time)

  datatype PeerInfo = PeerInfo(endpoint: string, handshake: Time)

  datatype User = User(id: nat, publicKey: nat, enabled: bool)

  /** At most the idle timeout has gone by since t. */
  predicate Recent(t: Time, now: int, idle: nat) {
    t.Some? && now - t.value <= idle
  }

  /** The lock in force: one with an empty endpoint counts as none. */
  predicate Held(lock: Option<Lock>) { lock.Some? && lock.value.endpoint != "" }

  // ---- The lock of one user ------------------------------------------------------------------------

  /** The lock after the monitor has looked at the user's peer. */
  function Handled(lock: Option<Lock>, info: PeerInfo, now: int, idle: nat): Option<Lock> {
    var moves := Recent(info.handshake, now, idle) && info.endpoint != "";
    if !Held(lock) then
      if moves then Some(Lock(info.endpoint, info.handshake)) else lock
    else if info.endpoint == lock.value.endpoint then
      if Recent(info.handshake, now, idle) then
        if lock.value.lastActive.Some? && info.handshake.value <= lock.value.lastActive.value then lock
        else Some(Lock(lock.value.endpoint, info.handshake))
      else if Recent(lock.value.lastActive, now, idle) then lock
      else None
    else if Recent(lock.value.lastActive, now, idle) then lock
    else if moves then Some(Lock(info.endpoint, info.handshake))
    else None
  }

  /** Disabled users and users without a peer are passed over. */
  function Ticked(lock: Option<Lock>, user: User, peers: map<nat, PeerInfo>, now: int, idle: nat): Option<Lock> {
    if user.enabled && user.publicKey in peers then Handled(lock, peers[user.publicKey], now, idle) else lock
  }

  /** The peer's endpoint is set back to the locked one. */
  predicate Reverts(lock: Option<Lock>, info: PeerInfo, now: int, idle: nat) {
    && Held(lock) && info.endpoint != lock.value.endpoint && info.endpoint != ""
    && Recent(lock.value.lastActive, now, idle)
  }

  /** The monitor's decision in terms of the endpoints.  A lock in force is live if its last activity
      is recent.  A user is locked afterwards if and only if the lock was live, or the handshake is
      recent and the peer has an endpoint.  A live lock keeps its endpoint, otherwise the peer's
      own is locked, and the endpoint that the peer ends up with is the locked one. */
  ghost predicate Settled(lock: Option<Lock>, lock': Option<Lock>, info: PeerInfo, now: int, idle: nat,
                          setBack: Option<string>)
  {
    var live := Held(lock) && Recent(lock.value.lastActive, now, idle);
    && (Held(lock') <==> live || (Recent(info.handshake, now, idle) && info.endpoint != ""))
    && (Held(lock') ==>
      && lock'.value.endpoint == (if live then lock.value.endpoint else info.endpoint)
      && Recent(lock'.value.lastActive, now, idle)
      && (info.endpoint != "" ==> lock'.value.endpoint == if setBack.Some? then setBack.value else info.endpoint))
    && (setBack.Some? ==> live && info.endpoint !in ["", setBack.value])
  }

  function LockIn(locks: map<nat, Lock>, id: nat): Option<Lock> {
    if id in locks then Some(locks[id]) else None
  }

  class Registry {
    var locks: map<nat, Lock>

    constructor ()
      ensures locks == map[]
    {
      locks := map[];
    }

    ghost function Of(user: nat): Option<Lock>
      reads this
    {
      LockIn(locks, user)
    }

    method Set(user: nat, endpoint: string, activeAt: Time, now: int)
      modifies this
      ensures locks == old(locks)[user := Lock(endpoint, if activeAt.None? then Some(now) else activeAt)]
    {
      var at := activeAt;
      if at.None? {
        at := Some(now);
      }
      locks := locks[user := Lock(endpoint, at)];
    }

    method Get(user: nat) returns (endpoint: string, lastActive: Time, ok: bool)
      ensures ok <==> Of(user).Some?
      ensures Lock(endpoint, lastActive) == if ok then Of(user).value else Lock("", None)
    {
      if user !in locks {
        return "", None, false;
      }
      return locks[user].endpoint, locks[user].lastActive, true;
    }

    method Clear(user: nat)
      modifies this
      ensures locks == old(locks) - {user}
    {
      locks := locks - {user};
    }
  }

  class Monitor {
    const registry: Registry
    const idle: nat
    /** The endpoints that the monitor has asked to be set back, in order. */
    var reverted: seq<(nat, string)>

    constructor (registry: Registry, idleSeconds: int)
      ensures this.registry == registry && reverted == []
      ensures idle == 1_000_000_000 * (if idleSeconds <= 0 then 180 else idleSeconds)
    {
      this.registry, reverted := registry, [];
      idle := 1_000_000_000 * (if idleSeconds <= 0 then 180 else idleSeconds);
    }

    method HandleUser(user: User, info: PeerInfo, now: int)
      modifies this, registry
      ensures registry.Of(user.id) == Handled(old(registry.Of(user.id)), info, now, idle)
      ensures forall u | u != user.id :: registry.Of(u) == old(registry.Of(u))
      ensures reverted == old(reverted) +
        if old(Reverts(registry.Of(user.id), info, now, idle))
        then [(user.publicKey, old(registry.Of(user.id)).value.endpoint)] else []
      ensures Settled(old(registry.Of(user.id)), registry.Of(user.id), info, now, idle,
                      if |reverted| > |old(reverted)| then Some(reverted[|old(reverted)|].1) else None)
    {
      var currentEndpoint := info.endpoint;
      var hasRecentHS := Recent(info.handshake, now, idle);
      var lockedEndpoint, lockedLastActive, hasLock := registry.Get(user.id);
      if !hasLock || lockedEndpoint == "" {
        if hasRecentHS && currentEndpoint != "" {
          registry.Set(user.id, currentEndpoint, info.handshake, now);
        }
        return;
      }
      if currentEndpoint == lockedEndpoint {
        if hasRecentHS {
          if lockedLastActive.None? || info.handshake.value > lockedLastActive.value {
            registry.Set(user.id, lockedEndpoint, info.handshake, now);
          }
          return;
        }
        if !Recent(lockedLastActive, now, idle) {
          registry.Clear(user.id);
        }
        return;
      }
      var lockActive := Recent(lockedLastActive, now, idle);
      if lockActive && currentEndpoint != "" {
        reverted := reverted + [(user.publicKey, lockedEndpoint)];
        return;
      }
      if hasRecentHS && currentEndpoint != "" {
        registry.Set(user.id, currentEndpoint, info.handshake, now);
        return;
      }
      if !lockActive {
        registry.Clear(user.id);
      }
    }

    /** Every enabled user with a peer is looked at once, with one reading of the clock. */
    method Tick(users: seq<User>, peers: map<nat, PeerInfo>, now: int)
      requires forall i, j | 0 <= i < j < |users| :: users[i].id != users[j].id
      modifies this, registry
      ensures forall i | 0 <= i < |users| ::
        registry.Of(users[i].id) == Ticked(old(registry.Of(users[i].id)), users[i], peers, now, idle)
      ensures forall u | (forall i | 0 <= i < |users| :: users[i].id != u) :: registry.Of(u) == old(registry.Of(u))
    {
      hide Handled;
      for i := 0 to |users|
        invariant forall k | 0 <= k < i ::
          registry.Of(users[k].id) == Ticked(old(registry.Of(users[k].id)), users[k], peers, now, idle)
        invariant forall u | (forall k | 0 <= k < i :: users[k].id != u) :: registry.Of(u) == old(registry.Of(u))
      {
        if users[i].enabled && users[i].publicKey in peers {
          HandleUser(users[i], peers[users[i].publicKey], now);
        }
      }
    }
  }

  // ---- Runs ----------------------------------------------------------------------------------------

  /** What can happen to a user's lock: the monitor looks at the peer, the API clears it, or it
      is passed over. */
  datatype Event = Seen(info: PeerInfo, now: int) | Cleared | Untouched

  function Next(lock: Option<Lock>, e: Event, idle: nat): Option<Lock> {
    match e
    case Seen(info, now) => Handled(lock, info, now, idle)
    case Cleared => None
    case Untouched => lock
  }

  ghost predicate Run(locks: seq<Option<Lock>>, es: seq<Event>, idle: nat) {
    |locks| == |es| + 1 && forall i | 0 <= i < |es| :: locks[i + 1] == Next(locks[i], es[i], idle)
  }

  /** The lock is dropped or may move here: the API clears it, or the monitor finds it idle. */
  ghost predicate Ends(lock: Option<Lock>, e: Event, idle: nat) {
    e.Cleared? || (e.Seen? && (!Held(lock) || !Recent(lock.value.lastActive, e.now, idle)))
  }

  /** As long as nothing ends it, a lock keeps its endpoint and its last activity does not
      go back. */
  lemma {:induction false} LockKept(locks: seq<Option<Lock>>, es: seq<Event>, idle: nat, i: nat, j: nat)
    requires Run(locks, es, idle) && i <= j < |locks| && Held(locks[i])
    requires forall k | i <= k < j :: !Ends(locks[k], es[k], idle)
    ensures Held(locks[j]) && locks[j].value.endpoint == locks[i].value.endpoint
    ensures locks[i].value.lastActive.Some? ==>
      locks[j].value.lastActive.Some? && locks[i].value.lastActive.value <= locks[j].value.lastActive.value
    decreases j - i
  {
    if i < j {
      LockKept(locks, es, idle, i, j - 1);
      assert locks[j] == Next(locks[j - 1], es[j - 1], idle);
      assert !Ends(locks[j - 1], es[j - 1], idle);
    }
  }

  /** A locked endpoint gives way to a different one only if in between the lock was cleared,
      or idle for longer than the timeout when the monitor looked. */
  lemma EndpointReplaced(locks: seq<Option<Lock>>, es: seq<Event>, idle: nat, i: nat, j: nat)
    requires Run(locks, es, idle) && i <= j < |locks| && Held(locks[i]) && Held(locks[j])
    requires locks[i].value.endpoint != locks[j].value.endpoint
    ensures exists k | i <= k < j :: Ends(locks[k], es[k], idle)
  {
    if forall k | i <= k < j :: !Ends(locks[k], es[k], idle) {
      LockKept(locks, es, idle, i, j);
    }
  }

  /** First come, first served: a user without a lock who shows a recent handshake is locked to
      that endpoint.  Until the lock ends, every other endpoint is set back. */
  lemma FirstEndpointHolds(locks: seq<Option<Lock>>, es: seq<Event>, idle: nat, i: nat, j: nat)
    requires Run(locks, es, idle) && i < j < |locks| && !Held(locks[i]) && es[i].Seen?
    requires Recent(es[i].info.handshake, es[i].now, idle) && es[i].info.endpoint != ""
    requires forall k | i < k < j :: !Ends(locks[k], es[k], idle)
    ensures Held(locks[j]) && locks[j].value.endpoint == es[i].info.endpoint
    ensures forall k | i < k < j && es[k].Seen? && es[k].info.endpoint !in ["", es[i].info.endpoint] ::
      Reverts(locks[k], es[k].info, es[k].now, idle) && locks[k].value.endpoint == es[i].info.endpoint
  {
    hide Handled;
    assert locks[i + 1] == Next(locks[i], es[i], idle);
    GainsLock(locks[i], es[i].info, es[i].now, idle);
    LockKept(locks, es, idle, i + 1, j);
    forall k | i < k < j && es[k].Seen? && es[k].info.endpoint !in ["", es[i].info.endpoint]
      ensures Reverts(locks[k], es[k].info, es[k].now, idle) && locks[k].value.endpoint == es[i].info.endpoint
    {
      LockKept(locks, es, idle, i + 1, k);
      assert !Ends(locks[k], es[k], idle);
    }
  }

  lemma GainsLock(lock: Option<Lock>, info: PeerInfo, now: int, idle: nat)
    requires !Held(lock) && Recent(info.handshake, now, idle) && info.endpoint != ""
    ensures Handled(lock, info, now, idle) == Some(Lock(info.endpoint, info.handshake))
  {
  }

  /** While one endpoint stays locked without a break, last activity never decreases. */
  lemma {:induction false} ActivityMonotone(locks: seq<Option<Lock>>, es: seq<Event>, idle: nat, i: nat, j: nat)
    requires Run(locks, es, idle) && i <= j < |locks|
    requires Held(locks[i]) && locks[i].value.lastActive.Some?
    requires forall k | i <= k <= j :: Held(locks[k]) && locks[k].value.endpoint == locks[i].value.endpoint
    ensures Held(locks[j]) && locks[j].value.lastActive.Some?
    ensures locks[i].value.lastActive.value <= locks[j].value.lastActive.value
    decreases j - i
  {
    if i < j {
      ActivityMonotone(locks, es, idle, i, j - 1);
      assert locks[j] == Next(locks[j - 1], es[j - 1], idle);
    }
  }

  // ---- Runs of the monitor and the API ---------------------------------------------------------------

  datatype Op = TickAt(users: seq<User>, peers: map<nat, PeerInfo>, now: int) | ClearUser(id: nat)

  ghost predicate DistinctUsers(users: seq<User>) {
    forall i, j | 0 <= i < j < |users| :: users[i].id != users[j].id
  }

  /** The peer of the user with the given id, if the monitor looks at it. */
  function PeerOf(users: seq<User>, peers: map<nat, PeerInfo>, id: nat): Option<PeerInfo> {
    if users == [] then None
    else if users[0].id != id then PeerOf(users[1..], peers, id)
    else if users[0].enabled && users[0].publicKey in peers then Some(peers[users[0].publicKey])
    else None
  }

  lemma {:induction false} PeerOfUser(users: seq<User>, peers: map<nat, PeerInfo>, i: nat)
    requires DistinctUsers(users) && i < |users|
    ensures var u := users[i];
      PeerOf(users, peers, u.id) == if u.enabled && u.publicKey in peers then Some(peers[u.publicKey]) else None
  {
    if i > 0 {
      assert users[0].id != users[i].id;
      PeerOfUser(users[1..], peers, i - 1);
    }
  }

  lemma {:induction false} PeerOfNobody(users: seq<User>, peers: map<nat, PeerInfo>, id: nat)
    requires forall i | 0 <= i < |users| :: users[i].id != id
    ensures PeerOf(users, peers, id).None?
  {
    if users != [] { PeerOfNobody(users[1..], peers, id); }
  }

  /** What an operation is for one user. */
  function EventFor(op: Op, id: nat): Event {
    match op
    case TickAt(users, peers, now) =>
      var info := PeerOf(users, peers, id);
      if info.Some? then Seen(info.value, now) else Untouched
    case ClearUser(cleared) => if cleared == id then Cleared else Untouched
  }

  function Events(ops: seq<Op>, id: nat): seq<Event> {
    seq(|ops|, i requires 0 <= i < |ops| => EventFor(ops[i], id))
  }

  function Trace(states: seq<map<nat, Lock>>, id: nat): seq<Option<Lock>> {
    seq(|states|, i requires 0 <= i < |states| => LockIn(states[i], id))
  }

  lemma RunMore(states: seq<map<nat, Lock>>, locks: map<nat, Lock>, ops: seq<Op>, op: Op, id: nat, idle: nat)
    requires states != [] && Run(Trace(states, id), Events(ops, id), idle)
    requires LockIn(locks, id) == Next(LockIn(states[|states| - 1], id), EventFor(op, id), idle)
    ensures Run(Trace(states + [locks], id), Events(ops + [op], id), idle)
  {
    hide Next, EventFor, LockIn;
    var trace, es := Trace(states + [locks], id), Events(ops + [op], id);
    forall i | 0 <= i < |es| ensures trace[i + 1] == Next(trace[i], es[i], idle) {
      if i < |ops| { assert Trace(states, id)[i + 1] == Next(Trace(states, id)[i], Events(ops, id)[i], idle); }
    }
  }

  /** One operation is one event for every user. */
  method Perform(m: Monitor, op: Op)
    requires op.TickAt? ==> DistinctUsers(op.users)
    modifies m, m.registry
    ensures forall id :: m.registry.Of(id) == Next(old(m.registry.Of(id)), EventFor(op, id), m.idle)
  {
    hide Handled, PeerOf;
    match op {
      case TickAt(users, peers, now) =>
        m.Tick(users, peers, now);
        forall id ensures m.registry.Of(id) == Next(old(m.registry.Of(id)), EventFor(op, id), m.idle) {
          if i :| 0 <= i < |users| && users[i].id == id {
            PeerOfUser(users, peers, i);
          } else {
            PeerOfNobody(users, peers, id);
          }
        }
      case ClearUser(id) => m.registry.Clear(id);
    }
  }

  /** Any ticks and clears, in any order: every user's locks are a run of that user's events. */
  method RunOps(ops: seq<Op>, idleSeconds: int) returns (m: Monitor, ghost states: seq<map<nat, Lock>>)
    requires forall i | 0 <= i < |ops| && ops[i].TickAt? :: DistinctUsers(ops[i].users)
    ensures |states| == |ops| + 1 && states[0] == map[] && states[|ops|] == m.registry.locks
    ensures forall id :: Run(Trace(states, id), Events(ops, id), m.idle)
  {
    hide Run, Next, EventFor;
    var registry := new Registry();
    m := new Monitor(registry, idleSeconds);
    states := [registry.locks];
    StartsRun(m.idle);
    for i := 0 to |ops|
      invariant fresh(m) && fresh(m.registry)
      invariant |states| == i + 1 && states[0] == map[] && states[i] == m.registry.locks
      invariant forall id :: Run(Trace(states, id), Events(ops[..i], id), m.idle)
    {
      Perform(m, ops[i]);
      assert ops[..i + 1] == ops[..i] + [ops[i]];
      forall id ensures Run(Trace(states + [m.registry.locks], id), Events(ops[..i + 1], id), m.idle) {
        RunMore(states, m.registry.locks, ops[..i], ops[i], id, m.idle);
      }
      states := states + [m.registry.locks];
    }
    assert ops[..|ops|] == ops;
  }

  lemma StartsRun(idle: nat)
    ensures forall id :: Run(Trace([map[]], id), Events([], id), idle)
  {
  }

  /** So an endpoint that a user's lock shows gives way to another one only after the API
      cleared the lock or the monitor found it idle. */
  lemma EndpointGuarded(states: seq<map<nat, Lock>>, ops: seq<Op>, idle: nat, id: nat, i: nat, j: nat)
    requires Run(Trace(states, id), Events(ops, id), idle) && i <= j < |states|
    requires Held(LockIn(states[i], id)) && Held(LockIn(states[j], id))
    requires LockIn(states[i], id).value.endpoint != LockIn(states[j], id).value.endpoint
    ensures exists k | i <= k < j :: k < |ops| && Ends(LockIn(states[k], id), EventFor(ops[k], id), idle)
  {
    hide Ends, EventFor, Next;
    var trace, es := Trace(states, id), Events(ops, id);
    EndpointReplaced(trace, es, idle, i, j);
    var k :| i <= k < j && Ends(trace[k], es[k], idle);
    assert k < |ops| && Ends(LockIn(states[k], id), EventFor(ops[k], id), idle);
  }
}
