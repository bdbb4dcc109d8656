/** The token-bucket limiter of handshake messages, with garbage collection. */
module Ratelimiter {
  const PACKETS_PER_SECOND := 20
  const PACKETS_BURSTABLE := 5
  const GARBAGE_COLLECT_TIME := 1_000_000_000
  const PACKET_COST := 1_000_000_000 / PACKETS_PER_SECOND
  const MAX_TOKENS := PACKET_COST * PACKETS_BURSTABLE

  type Addr = nat

  datatype Entry = Entry(lastTime: int, tokens: int)

  type Table = map<Addr, Entry>

  /** The effect of a packet on the entry of its address, and whether it is allowed. */
  function NewEntry(now: int): Entry { Entry(now, MAX_TOKENS - PACKET_COST) }

  function Refilled(e: Entry, now: int): int {
    if e.tokens + (now - e.lastTime) > MAX_TOKENS then MAX_TOKENS else e.tokens + (now - e.lastTime)
  }

  predicate Allowed(t: Table, ip: Addr, now: int) {
    ip in t ==> Refilled(t[ip], now) > PACKET_COST
  }

  function Touched(t: Table, ip: Addr, now: int): Table {
    t[ip := if ip !in t then NewEntry(now)
            else Entry(now, if Allowed(t, ip, now) then Refilled(t[ip], now) - PACKET_COST else Refilled(t[ip], now))]
  }

  function Collected(t: Table, now: int): Table {
    map ip | ip in t && now - t[ip].lastTime <= GARBAGE_COLLECT_TIME :: t[ip]
  }

  class Ratelimiter {
    var table: Table

    constructor ()
      ensures table == map[]
    {
      table := map[];
    }

    method Allow(ip: Addr, now: int) returns (ok: bool)
      modifies this
      ensures ok <==> Allowed(old(table), ip, now)
      ensures table == Touched(old(table), ip, now)
    {
      if ip !in table {
        table := table[ip := Entry(now, MAX_TOKENS - PACKET_COST)];
        return true;
      }
      var entry := table[ip];
      entry := Entry(now, entry.tokens + (now - entry.lastTime));
      if entry.tokens > MAX_TOKENS {
        entry := entry.(tokens := MAX_TOKENS);
      }
      ok := entry.tokens > PACKET_COST;
      if ok {
        entry := entry.(tokens := entry.tokens - PACKET_COST);
      }
      table := table[ip := entry];
    }

    method Cleanup(now: int) returns (empty: bool)
      modifies this
      ensures table == Collected(old(table), now)
      ensures forall ip | ip in old(table) :: ip !in table <==> now - old(table)[ip].lastTime > 1_000_000_000
      ensures forall ip | ip in table :: ip in old(table) && table[ip] == old(table)[ip]
      ensures empty <==> table == map[]
    {
      var keys := table.Keys;
      while keys != {}
        invariant keys <= old(table).Keys && table.Keys <= old(table).Keys
        invariant forall ip | ip in old(table) ::
          ip in table <==> ip in keys || now - old(table)[ip].lastTime <= GARBAGE_COLLECT_TIME
        invariant forall ip | ip in table :: table[ip] == old(table)[ip]
        decreases |keys|
      {
        var key :| key in keys;
        keys := keys - {key};
        if now - table[key].lastTime > GARBAGE_COLLECT_TIME {
          table := table - {key};
        }
      }
      empty := |table| == 0;
    }
  }

  // ---- Forgetting makes no difference --------------------------------------------------------

  datatype Event = AllowAt(ip: Addr, now: int) | CleanupAt(now: int)

  /** Time does not run backwards. */
  ghost predicate Monotone(start: int, es: seq<Event>) {
    && (forall i | 0 <= i < |es| :: start <= es[i].now)
    && (forall i, j | 0 <= i < j < |es| :: es[i].now <= es[j].now)
  }

  /** Every bucket holds between 0 and MAX_TOKENS tokens and was last used before now. */
  ghost predicate Sound(t: Table, now: int) {
    forall ip | ip in t :: 0 <= t[ip].tokens <= MAX_TOKENS && t[ip].lastTime <= now
  }

  /** The limiter's table is the full one without some entries that are idle for long. */
  ghost predicate Forgets(t: Table, full: Table, now: int) {
    && Sound(full, now)
    && (forall ip | ip in t :: ip in full && t[ip] == full[ip])
    && (forall ip | ip in full && ip !in t :: now - full[ip].lastTime > GARBAGE_COLLECT_TIME)
  }

  /** A packet is treated alike by both, and leaves the same entry in both. */
  lemma AllowAgrees(t: Table, full: Table, before: int, ip: Addr, now: int)
    requires Forgets(t, full, before) && before <= now
    ensures Allowed(t, ip, now) <==> Allowed(full, ip, now)
    ensures Forgets(Touched(t, ip, now), Touched(full, ip, now), now)
    ensures Touched(t, ip, now)[ip] == Touched(full, ip, now)[ip]
  {
  }

  lemma CleanupAgrees(t: Table, full: Table, before: int, now: int)
    requires Forgets(t, full, before) && before <= now
    ensures Forgets(Collected(t, now), full, now)
  {
  }

  /** The table of a limiter that never forgets an entry, after one more event. */
  function FullNext(full: Table, e: Event): Table {
    if e.AllowAt? then Touched(full, e.ip, e.now) else full
  }

  /** Whether the event lets a packet pass. */
  predicate Grants(full: Table, e: Event) {
    e.AllowAt? && Allowed(full, e.ip, e.now)
  }

  /** The answers of a limiter that never forgets an entry, one for each event. */
  function Answers(full: Table, es: seq<Event>): (oks: seq<bool>)
    ensures |oks| == |es|
    decreases |es|
  {
    if es == [] then [] else [Grants(full, es[0])] + Answers(FullNext(full, es[0]), es[1..])
  }

  function FullAfter(full: Table, es: seq<Event>): Table
    decreases |es|
  {
    if es == [] then full else FullAfter(FullNext(full, es[0]), es[1..])
  }

  /** In every window of the run, and for every address, the packets let through cost less than
      the burst plus the time from the first to the last event of the window. */
  ghost predicate WithinRate(es: seq<Event>, oks: seq<bool>)
    requires |oks| == |es|
  {
    forall i, j, ip | 0 <= i < j <= |es| ::
      Cost(Granted(es[i..j], oks[i..j], ip)) < MAX_TOKENS + (es[j - 1].now - es[i].now)
  }

  /** In every window that ends with packet j, there is room for it: with packet j, what passed
      costs less than the burst plus the length of the window. */
  ghost predicate Room(es: seq<Event>, oks: seq<bool>, j: nat)
    requires |oks| == |es| && j < |es| && es[j].AllowAt?
  {
    forall i | 0 <= i <= j :: Cost(Granted(es[i..j], oks[i..j], es[j].ip) + 1) < MAX_TOKENS + (es[j].now - es[i].now)
  }

  /** Any run of packets and cleanups gives the answers of a limiter that never forgets: a packet
      passes if and only if there is room for it in every window that it ends. */
  method Run(es: seq<Event>, start: int) returns (oks: seq<bool>)
    requires Monotone(start, es)
    ensures oks == Answers(map[], es) && WithinRate(es, oks)
    ensures forall j | 0 <= j < |es| && es[j].AllowAt? :: oks[j] <==> Room(es, oks, j)
  {
    hide *;
    var r := new Ratelimiter();
    oks := [];
    ghost var full: Table, now := map[], start;
    NothingForgotten(start);
    NothingAnswered(es);
    for i := 0 to |es|
      invariant now == (if i == 0 then start else es[i - 1].now) && fresh(r)
      invariant Forgets(r.table, full, now)
      invariant |oks| == i && oks + Answers(full, es[i..]) == Answers(map[], es)
    {
      NotBefore(start, es, i);
      EventAgrees(r.table, full, now, es[i]);
      AnswersStep(full, es, i);
      var ok := false;
      if es[i].CleanupAt? {
        var _ := r.Cleanup(es[i].now);
      } else {
        ok := r.Allow(es[i].ip, es[i].now);
      }
      Regroup(oks, ok, Answers(FullNext(full, es[i]), es[i + 1..]));
      oks := oks + [ok];
      full := FullNext(full, es[i]);
      now := es[i].now;
    }
    AllAnswered(full, es, oks);
    AllWindows(es, start);
    AllRoom(es, start);
  }

  lemma AllWindows(es: seq<Event>, start: int)
    requires Monotone(start, es)
    ensures WithinRate(es, Answers(map[], es))
  {
    hide Monotone, Answers, Granted, Cost;
    forall i, j, ip | 0 <= i < j <= |es|
      ensures Cost(Granted(es[i..j], Answers(map[], es)[i..j], ip)) < MAX_TOKENS + (es[j - 1].now - es[i].now)
    {
      WindowBound(es, i, j, ip, start);
    }
  }

  lemma Regroup<T>(a: seq<T>, x: T, b: seq<T>)
    ensures a + ([x] + b) == (a + [x]) + b
  {
  }

  lemma NothingForgotten(now: int)
    ensures Forgets(map[], map[], now)
  {
  }

  lemma NothingAnswered(es: seq<Event>)
    ensures [] + Answers(map[], es[0..]) == Answers(map[], es)
  {
    assert es[0..] == es;
  }

  lemma AllAnswered(full: Table, es: seq<Event>, oks: seq<bool>)
    requires oks + Answers(full, es[|es|..]) == Answers(map[], es)
    ensures oks == Answers(map[], es)
  {
  }

  lemma NotBefore(start: int, es: seq<Event>, i: nat)
    requires Monotone(start, es) && i < |es|
    ensures (if i == 0 then start else es[i - 1].now) <= es[i].now
  {
  }

  /** One event has the same effect on both, seen from outside. */
  lemma EventAgrees(t: Table, full: Table, before: int, e: Event)
    requires Forgets(t, full, before) && before <= e.now
    ensures e.CleanupAt? ==> Forgets(Collected(t, e.now), FullNext(full, e), e.now) && !Grants(full, e)
    ensures e.AllowAt? ==> Forgets(Touched(t, e.ip, e.now), FullNext(full, e), e.now)
    ensures e.AllowAt? ==> (Allowed(t, e.ip, e.now) <==> Grants(full, e))
  {
    hide Forgets, Allowed, Touched, Collected;
    if e.CleanupAt? { CleanupAgrees(t, full, before, e.now); } else { AllowAgrees(t, full, before, e.ip, e.now); }
  }

  lemma AnswersStep(full: Table, es: seq<Event>, i: nat)
    requires i < |es|
    ensures Answers(full, es[i..]) == [Grants(full, es[i])] + Answers(FullNext(full, es[i]), es[i + 1..])
  {
    assert es[i..][1..] == es[i + 1..];
  }

  // ---- The rate --------------------------------------------------------------------------------

  /** The number of packets of ip that were let through. */
  function Granted(es: seq<Event>, oks: seq<bool>, ip: Addr): nat
    requires |oks| == |es|
    decreases |es|
  {
    if es == [] then 0
    else (if es[0].AllowAt? && es[0].ip == ip && oks[0] then 1 else 0) + Granted(es[1..], oks[1..], ip)
  }

  /** The tokens of ip at a given time; an unknown address has a full bucket. */
  function Tokens(full: Table, ip: Addr, now: int): int {
    if ip in full then Refilled(full[ip], now) else MAX_TOKENS
  }

  lemma TokensStep(full: Table, e: Event, ip: Addr, start: int)
    requires Sound(full, start) && start <= e.now
    ensures Sound(FullNext(full, e), e.now)
    ensures Tokens(full, ip, e.now) <= Tokens(full, ip, start) + (e.now - start)
    ensures 0 <= Tokens(full, ip, e.now) <= MAX_TOKENS && Tokens(full, ip, start) <= MAX_TOKENS
    ensures Grants(full, e) && e.ip == ip ==> Tokens(full, ip, e.now) > PACKET_COST
    ensures Tokens(FullNext(full, e), ip, e.now) ==
      Tokens(full, ip, e.now) - (if Grants(full, e) && e.ip == ip then PACKET_COST else 0)
  {
  }

  /** What n packets cost. */
  function Cost(n: nat): int { PACKET_COST * n }

  lemma CostStep(n: nat)
    ensures Cost(0) == 0 && Cost(n + 1) == Cost(n) + PACKET_COST
  {
  }

  lemma GrantedStep(full: Table, es: seq<Event>, ip: Addr)
    requires es != []
    ensures var rest := Granted(es[1..], Answers(FullNext(full, es[0]), es[1..]), ip);
      Granted(es, Answers(full, es), ip) == if Grants(full, es[0]) && es[0].ip == ip then rest + 1 else rest
  {
    assert Answers(full, es)[1..] == Answers(FullNext(full, es[0]), es[1..]);
  }

  lemma MonotoneRest(start: int, es: seq<Event>)
    requires Monotone(start, es) && es != []
    ensures Monotone(es[0].now, es[1..]) && start <= es[0].now <= es[|es| - 1].now
  {
    assert forall i | 0 <= i < |es[1..]| :: es[1..][i] == es[i + 1];
  }

  /** What is spent comes out of the tokens at the start and of the time that goes by. */
  lemma {:induction false} Spent(full: Table, es: seq<Event>, ip: Addr, start: int, end: int)
    requires Sound(full, start) && Monotone(start, es) && start <= end && (es != [] ==> es[|es| - 1].now <= end)
    ensures var n := Granted(es, Answers(full, es), ip); n == 0 || Cost(n) < Tokens(full, ip, start) + (end - start)
    decreases |es|
  {
    hide Tokens, Sound, Monotone, Cost, Granted, Grants, FullNext, Answers;
    if es == [] {
      NothingGranted(full, ip);
    } else {
      var e, full' := es[0], FullNext(full, es[0]);
      MonotoneRest(start, es);
      GrantedStep(full, es, ip);
      TokensStep(full, e, ip, start);
      Spent(full', es[1..], ip, e.now, end);
      CostStep(Granted(es[1..], Answers(full', es[1..]), ip));
    }
  }

  lemma NothingGranted(full: Table, ip: Addr)
    ensures Granted([], Answers(full, []), ip) == 0
  {
  }

  lemma {:induction false} SoundAfter(full: Table, es: seq<Event>, start: int, end: int)
    requires Sound(full, start) && Monotone(start, es) && start <= end && (es != [] ==> es[|es| - 1].now <= end)
    ensures Sound(FullAfter(full, es), end)
    decreases |es|
  {
    if es != [] {
      MonotoneRest(start, es);
      TokensStep(full, es[0], 0, start);
      SoundAfter(FullNext(full, es[0]), es[1..], es[0].now, end);
    }
  }

  /** A run goes on from where its first part ended. */
  lemma {:induction false} AnswersSplit(full: Table, pre: seq<Event>, rest: seq<Event>)
    ensures Answers(full, pre + rest) == Answers(full, pre) + Answers(FullAfter(full, pre), rest)
    decreases |pre|
  {
    if pre == [] {
      assert pre + rest == rest;
    } else {
      assert (pre + rest)[1..] == pre[1..] + rest;
      AnswersSplit(FullNext(full, pre[0]), pre[1..], rest);
    }
  }

  /** The answers in a window are those of a limiter that starts with the table reached
      before the window. */
  lemma AnswersWithin(es: seq<Event>, i: nat, j: nat)
    requires i <= j <= |es|
    ensures Answers(map[], es)[i..j] == Answers(FullAfter(map[], es[..i]), es[i..j])
  {
    hide Answers, FullAfter;
    var pre, win, post := es[..i], es[i..j], es[j..];
    var full := FullAfter(map[], pre);
    Parts(es, i, j);
    AnswersSplit(map[], pre, win + post);
    AnswersSplit(full, win, post);
    Middle(Answers(map[], pre), Answers(full, win), Answers(FullAfter(full, win), post));
  }

  lemma Parts<T>(s: seq<T>, i: nat, j: nat)
    requires i <= j <= |s|
    ensures s == s[..i] + (s[i..j] + s[j..])
  {
  }

  lemma Middle<T>(a: seq<T>, b: seq<T>, c: seq<T>)
    ensures (a + (b + c))[|a|..|a| + |b|] == b
  {
  }

  lemma MonotoneWithin(start: int, es: seq<Event>, i: nat, j: nat)
    requires Monotone(start, es) && i < j <= |es|
    ensures Monotone(start, es[..i]) && Monotone(es[i].now, es[i..j]) && start <= es[i].now <= es[j - 1].now
    ensures es[..i] != [] ==> es[..i][i - 1].now <= es[i].now
  {
  }

  lemma WindowBound(es: seq<Event>, i: nat, j: nat, ip: Addr, start: int)
    requires Monotone(start, es) && i < j <= |es|
    ensures Cost(Granted(es[i..j], Answers(map[], es)[i..j], ip)) < MAX_TOKENS + (es[j - 1].now - es[i].now)
  {
    hide Monotone, Answers, Granted, FullAfter, Tokens, Cost;
    MonotoneWithin(start, es, i, j);
    SoundAfter(map[], es[..i], start, es[i].now);
    AnswersWithin(es, i, j);
    var full := FullAfter(map[], es[..i]);
    Spent(full, es[i..j], ip, es[i].now, es[j - 1].now);
    FullBucket(full, ip, es[i].now);
    CostStep(0);
  }

  lemma AllRoom(es: seq<Event>, start: int)
    requires Monotone(start, es)
    ensures forall j | 0 <= j < |es| && es[j].AllowAt? :: Answers(map[], es)[j] <==> Room(es, Answers(map[], es), j)
  {
    hide *;
    forall j | 0 <= j < |es| && es[j].AllowAt?
      ensures Answers(map[], es)[j] <==> Room(es, Answers(map[], es), j)
    {
      if Answers(map[], es)[j] { PassedHasRoom(es, j, start); } else { RefusedHasNone(es, j, start); }
    }
  }

  /** The packets of ip that pass in a run that is one event longer. */
  lemma {:induction false} GrantedMore(es: seq<Event>, oks: seq<bool>, e: Event, ok: bool, ip: Addr)
    requires |oks| == |es|
    ensures Granted(es + [e], oks + [ok], ip) == Granted(es, oks, ip) + if e.AllowAt? && e.ip == ip && ok then 1 else 0
    decreases |es|
  {
    if es == [] {
      assert es + [e] == [e] && oks + [ok] == [ok];
    } else {
      assert (es + [e])[1..] == es[1..] + [e] && (oks + [ok])[1..] == oks[1..] + [ok];
      GrantedMore(es[1..], oks[1..], e, ok, ip);
    }
  }

  lemma WindowMore(es: seq<Event>, oks: seq<bool>, i: nat, j: nat, ip: Addr)
    requires |oks| == |es| && i <= j < |es|
    ensures Granted(es[i..j + 1], oks[i..j + 1], ip) ==
      Granted(es[i..j], oks[i..j], ip) + if es[j].AllowAt? && es[j].ip == ip && oks[j] then 1 else 0
  {
    hide Granted;
    assert es[i..j + 1] == es[i..j] + [es[j]] && oks[i..j + 1] == oks[i..j] + [oks[j]];
    GrantedMore(es[i..j], oks[i..j], es[j], oks[j], ip);
  }

  /** The answer to event j, and the table after it. */
  lemma AnsweredAt(es: seq<Event>, j: nat)
    requires j < |es|
    ensures Answers(map[], es)[j] == Grants(FullAfter(map[], es[..j]), es[j])
    ensures FullAfter(map[], es[..j + 1]) == FullNext(FullAfter(map[], es[..j]), es[j])
  {
    hide Answers, FullAfter, Grants, FullNext;
    AnswersWithin(es, j, j + 1);
    assert es[j..j + 1] == [es[j]] && es[..j + 1] == es[..j] + [es[j]];
    OneAnswer(FullAfter(map[], es[..j]), es[j]);
    AfterOneMore(map[], es[..j], es[j]);
  }

  lemma OneAnswer(full: Table, e: Event)
    ensures Answers(full, [e]) == [Grants(full, e)]
  {
  }

  lemma {:induction false} AfterOneMore(full: Table, es: seq<Event>, e: Event)
    ensures FullAfter(full, es + [e]) == FullNext(FullAfter(full, es), e)
    decreases |es|
  {
    if es == [] {
      assert es + [e] == [e];
    } else {
      assert (es + [e])[1..] == es[1..] + [e];
      AfterOneMore(FullNext(full, es[0]), es[1..], e);
    }
  }

  lemma PassedHasRoom(es: seq<Event>, j: nat, start: int)
    requires Monotone(start, es) && j < |es| && es[j].AllowAt? && Answers(map[], es)[j]
    ensures Room(es, Answers(map[], es), j)
  {
    hide Monotone, Answers, Granted, Cost;
    forall i | 0 <= i <= j
      ensures Cost(Granted(es[i..j], Answers(map[], es)[i..j], es[j].ip) + 1) < MAX_TOKENS + (es[j].now - es[i].now)
    {
      WindowBound(es, i, j + 1, es[j].ip, start);
      WindowMore(es, Answers(map[], es), i, j, es[j].ip);
    }
  }

  /** The tokens at hand are what the tightest window has left. */
  lemma {:induction false} TightestWindow(es: seq<Event>, j: nat, ip: Addr, start: int) returns (i: nat)
    requires Monotone(start, es) && j < |es|
    ensures i <= j
    ensures Tokens(FullAfter(map[], es[..j]), ip, es[j].now) >=
      MAX_TOKENS + (es[j].now - es[i].now) - Cost(Granted(es[i..j], Answers(map[], es)[i..j], ip))
  {
    hide Monotone, Answers, Granted, FullAfter, Tokens, Cost, Sound, FullNext, Allowed;
    if j == 0 {
      EmptyWindow(es, 0, ip);
      FreshBucket(es, ip);
      return 0;
    }
    var full, full' := FullAfter(map[], es[..j - 1]), FullAfter(map[], es[..j]);
    var i' := TightestWindow(es, j - 1, ip, start);
    AnsweredAt(es, j - 1);
    MonotoneWithin(start, es, j - 1, j + 1);
    SoundAfter(map[], es[..j - 1], start, es[j - 1].now);
    TokensStep(full, es[j - 1], ip, es[j - 1].now);
    Refills(full', ip, es[j - 1].now, es[j].now);
    WindowMore(es, Answers(map[], es), i', j - 1, ip);
    CostStep(Granted(es[i'..j - 1], Answers(map[], es)[i'..j - 1], ip));
    EmptyWindow(es, j, ip);
    i := if Tokens(full', ip, es[j].now) == MAX_TOKENS then j else i';
  }

  lemma EmptyWindow(es: seq<Event>, j: nat, ip: Addr)
    requires j <= |es|
    ensures Cost(Granted(es[j..j], Answers(map[], es)[j..j], ip)) == 0
  {
  }

  lemma FreshBucket(es: seq<Event>, ip: Addr)
    requires es != []
    ensures Tokens(FullAfter(map[], es[..0]), ip, es[0].now) == MAX_TOKENS
  {
  }

  /** Time fills the bucket, up to the burst. */
  lemma Refills(full: Table, ip: Addr, before: int, now: int)
    requires Sound(full, before) && before <= now
    ensures Tokens(full, ip, now) == MAX_TOKENS || Tokens(full, ip, now) == Tokens(full, ip, before) + (now - before)
  {
  }

  lemma RefusedHasNone(es: seq<Event>, j: nat, start: int)
    requires Monotone(start, es) && j < |es| && es[j].AllowAt? && !Answers(map[], es)[j]
    ensures !Room(es, Answers(map[], es), j)
  {
    hide Monotone, Answers, Granted, FullAfter, Cost;
    AnsweredAt(es, j);
    var i := TightestWindow(es, j, es[j].ip, start);
    CostStep(Granted(es[i..j], Answers(map[], es)[i..j], es[j].ip));
  }

  lemma FullBucket(full: Table, ip: Addr, now: int)
    ensures Tokens(full, ip, now) <= MAX_TOKENS
  {
  }
}
