/** Nonce assignment by concurrent senders that share a keypair's counter. */
module Nonces {
  import opened Basics

  const REJECT_AFTER_MESSAGES := TWO_64 - 0x2000 - 1
  const MAX_SENDERS := 0x2000

  /** A step of a sender or of the expiry: the atomic Add, the Store that a sender does after
      an Add that went over the limit, and the Store of ExpireCurrentKeypairs. */
  datatype Step = Add(sender: nat) | Store(sender: nat) | Expire

  /** The counter, the senders that are about to Store, and the nonces issued so far. */
  datatype State = State(counter: U64, pending: set<nat>, issued: seq<U64>)

  predicate Enabled(s: State, senders: set<nat>, step: Step) {
    match step
    case Add(t) => t in senders && t !in s.pending
    case Store(t) => t in s.pending
    case Expire => true
  }

  /** The Add wraps around in 64 bits. */
  function Next(s: State, step: Step): State {
    match step
    case Add(t) =>
      var nonce := s.counter;
      var s' := s.(counter := (s.counter + 1) % TWO_64);
      if nonce >= REJECT_AFTER_MESSAGES then s'.(pending := s.pending + {t}) else s'.(issued := s.issued + [nonce])
    case Store(t) => s.(counter := REJECT_AFTER_MESSAGES, pending := s.pending - {t})
    case Expire => s.(counter := REJECT_AFTER_MESSAGES)
  }

  const START := State(0, {}, [])

  ghost predicate Run(states: seq<State>, steps: seq<Step>, senders: set<nat>) {
    && |states| == |steps| + 1 && states[0] == START
    && forall i | 0 <= i < |steps| ::
         Enabled(states[i], senders, steps[i]) && states[i + 1] == Next(states[i], steps[i])
  }

  ghost predicate Increasing(xs: seq<U64>) {
    forall i, j | 0 <= i < j < |xs| :: xs[i] < xs[j]
  }

  ghost predicate Inv(s: State, senders: set<nat>) {
    && s.pending <= senders
    && s.counter <= REJECT_AFTER_MESSAGES + |s.pending|
    && Increasing(s.issued)
    && (forall i | 0 <= i < |s.issued| :: s.issued[i] < s.counter && s.issued[i] < REJECT_AFTER_MESSAGES)
  }

  lemma SubsetSize(a: set<nat>, b: set<nat>)
    requires a <= b
    ensures |a| <= |b|
  {
    if a != {} {
      var x :| x in a;
      SubsetSize(a - {x}, b - {x});
    }
  }

  /** The Add cannot wrap while there are at most 2^13 senders. */
  lemma StepKeeps(s: State, senders: set<nat>, step: Step)
    requires Inv(s, senders) && Enabled(s, senders, step) && |senders| <= MAX_SENDERS
    ensures Inv(Next(s, step), senders)
    ensures step.Add? ==> Next(s, step).counter == s.counter + 1
    ensures s.counter >= REJECT_AFTER_MESSAGES ==>
      Next(s, step).counter >= REJECT_AFTER_MESSAGES && Next(s, step).issued == s.issued
  {
    var s' := Next(s, step);
    if step.Add? {
      SubsetSize(s.pending + {step.sender}, senders);
    }
    if step.Store? {
      assert s.pending == s'.pending + {step.sender};
    }
  }

  lemma {:induction false} RunInv(states: seq<State>, steps: seq<Step>, senders: set<nat>, i: nat)
    requires Run(states, steps, senders) && |senders| <= MAX_SENDERS && i < |states|
    ensures Inv(states[i], senders)
  {
    if i > 0 {
      RunInv(states, steps, senders, i - 1);
      StepKeeps(states[i - 1], senders, steps[i - 1]);
    }
  }

  /** Under every interleaving no nonce is issued twice, all are below the limit, and the
      counter exceeds the limit by no more than the number of senders about to Store. */
  lemma NoNonceTwice(states: seq<State>, steps: seq<Step>, senders: set<nat>, i: nat)
    requires Run(states, steps, senders) && |senders| <= MAX_SENDERS && i < |states|
    ensures forall a, b | 0 <= a < b < |states[i].issued| :: states[i].issued[a] != states[i].issued[b]
    ensures forall a | 0 <= a < |states[i].issued| :: states[i].issued[a] < REJECT_AFTER_MESSAGES
    ensures states[i].counter <= REJECT_AFTER_MESSAGES + |states[i].pending|
  {
    RunInv(states, steps, senders, i);
  }

  /** Once the limit has been reached, by counting or by expiry, nothing is issued any more. */
  lemma {:induction false} NoneAfterTheLimit(states: seq<State>, steps: seq<Step>, senders: set<nat>, i: nat, j: nat)
    requires Run(states, steps, senders) && |senders| <= MAX_SENDERS && i <= j < |states|
    requires states[i].counter >= REJECT_AFTER_MESSAGES
    ensures states[j].issued == states[i].issued && states[j].counter >= REJECT_AFTER_MESSAGES
    decreases j - i
  {
    if i < j {
      NoneAfterTheLimit(states, steps, senders, i, j - 1);
      RunInv(states, steps, senders, j - 1);
      StepKeeps(states[j - 1], senders, steps[j - 1]);
    }
  }
}
