/** Pairing soundness: what every interleaving of challenges and confirmations keeps. */
module Pairing {
  import opened RelayText
  import opened RelaySteps

  // ----- where things come from ----------------------------------------------

  /** Step `i` issued this challenge for this vault. */
  ghost predicate IssuedAt(steps: seq<Step>, i: nat, token: string, c: Challenge) {
    && i < |steps| && steps[i].Issue?
    && Token(steps[i].key) == token
    && c == IssuedChallenge(steps[i].key, steps[i].operator, steps[i].nonce, steps[i].now)
  }

  /**
   * Step `j` began this attempt, and at that moment the challenge it answers was the one pending
   * for its vault, unexpired, and issued earlier for exactly that vault and operator.
   */
  ghost predicate BegunAt(recovers: Oracle, steps: seq<Step>, j: nat, a: Attempt) {
    && j < |steps| && steps[j].Begin?
    && a == Attempt(steps[j].key, steps[j].operator, steps[j].challenge, steps[j].signature)
    && var pending := Exec(recovers, steps[..j]).relay.pending;
       && Token(a.key) in pending
       && var c := pending[Token(a.key)];
          && c.message == a.challenge && c.operatorAddress == Lower(a.operator) && steps[j].now <= c.expiresAt
          && exists i: nat :: i < j && IssuedAt(steps, i, Token(a.key), c)
  }

  /** Somewhere in the run an attempt for this vault by this operator began and then passed verification. */
  ghost predicate Proven(recovers: Oracle, steps: seq<Step>, token: string, operator: string) {
    exists j: nat, a: Attempt ::
      BegunAt(recovers, steps, j, a) && Verified(recovers, a) && Token(a.key) == token && Lower(a.operator) == operator
  }

  ghost predicate Justified(recovers: Oracle, steps: seq<Step>, m: Machine) {
    && (forall t :: t in m.relay.pending ==> exists i: nat :: IssuedAt(steps, i, t, m.relay.pending[t]))
    && (forall k :: k in m.tasks ==> exists j: nat :: BegunAt(recovers, steps, j, m.tasks[k]))
    && (forall t :: t in m.relay.records ==>
          && m.relay.records[t].paired
          && m.relay.records[t].operatorAddress.Some?
          && Proven(recovers, steps, t, m.relay.records[t].operatorAddress.value))
  }

  // ----- extending a run keeps its past ---------------------------------------

  lemma IssuedStays(steps: seq<Step>, s: Step, i: nat, token: string, c: Challenge)
    requires IssuedAt(steps, i, token, c)
    ensures IssuedAt(steps + [s], i, token, c)
  {}

  lemma BegunStays(recovers: Oracle, steps: seq<Step>, s: Step, j: nat, a: Attempt)
    requires BegunAt(recovers, steps, j, a)
    ensures BegunAt(recovers, steps + [s], j, a)
  {
    assert (steps + [s])[..j] == steps[..j];
    var c := Exec(recovers, steps[..j]).relay.pending[Token(a.key)];
    var i: nat :| i < j && IssuedAt(steps, i, Token(a.key), c);
    IssuedStays(steps, s, i, Token(a.key), c);
  }

  lemma ProvenStays(recovers: Oracle, steps: seq<Step>, s: Step, token: string, operator: string)
    requires Proven(recovers, steps, token, operator)
    ensures Proven(recovers, steps + [s], token, operator)
  {
    var j: nat, a: Attempt :|
      BegunAt(recovers, steps, j, a) && Verified(recovers, a) && Token(a.key) == token && Lower(a.operator) == operator;
    BegunStays(recovers, steps, s, j, a);
  }

  lemma PastStays(recovers: Oracle, steps: seq<Step>, s: Step, m: Machine)
    requires Justified(recovers, steps, m)
    ensures Justified(recovers, steps + [s], m)
  {
    forall t | t in m.relay.pending
      ensures exists i: nat :: IssuedAt(steps + [s], i, t, m.relay.pending[t])
    {
      var i: nat :| IssuedAt(steps, i, t, m.relay.pending[t]);
      IssuedStays(steps, s, i, t, m.relay.pending[t]);
    }
    forall k | k in m.tasks
      ensures exists j: nat :: BegunAt(recovers, steps + [s], j, m.tasks[k])
    {
      var j: nat :| BegunAt(recovers, steps, j, m.tasks[k]);
      BegunStays(recovers, steps, s, j, m.tasks[k]);
    }
    forall t | t in m.relay.records
      ensures Proven(recovers, steps + [s], t, m.relay.records[t].operatorAddress.value)
    {
      ProvenStays(recovers, steps, s, t, m.relay.records[t].operatorAddress.value);
    }
  }

  /** An attempt gets under way only with its justification. */
  lemma BeginJustifies(recovers: Oracle, steps: seq<Step>, s: Step)
    requires s.Begin? && Justified(recovers, steps, Exec(recovers, steps))
    requires BeginAccepts(Exec(recovers, steps).relay, s.key, s.operator, s.challenge, s.now)
    ensures BegunAt(recovers, steps + [s], |steps|, Attempt(s.key, s.operator, s.challenge, s.signature))
  {
    hide ChallengeMessage, Token, Lower, Exec;
    var c := Exec(recovers, steps).relay.pending[Token(s.key)];
    assert (steps + [s])[..|steps|] == steps;
    var i: nat :| IssuedAt(steps, i, Token(s.key), c);
    IssuedStays(steps, s, i, Token(s.key), c);
    assert i < |steps|;
  }

  /** Heartbeats, stages and sweeps change neither who is paired nor what is pending. */
  lemma LivenessKeepsPairing(recovers: Oracle, m: Machine, s: Step)
    requires s.Heartbeat? || s.Stage? || s.Sweep?
    requires forall t :: t in m.relay.records ==> m.relay.records[t].paired && m.relay.records[t].operatorAddress.Some?
    ensures var n := Next(recovers, m, s);
            && n.relay.pending == m.relay.pending && n.tasks == m.tasks
            && n.relay.records.Keys == m.relay.records.Keys
            && (forall t :: t in n.relay.records ==>
                  n.relay.records[t].paired && n.relay.records[t].operatorAddress == m.relay.records[t].operatorAddress)
  {
    hide ChallengeMessage, Token, Lower;
  }

  lemma FinishJustifies(recovers: Oracle, steps: seq<Step>, m: Machine, task: nat)
    requires Justified(recovers, steps, m) && task in m.tasks
    ensures Justified(recovers, steps, Next(recovers, m, Finish(task)))
  {
    hide ChallengeMessage, Token, Lower, Exec, IssuedAt, BegunAt;
    var a := m.tasks[task];
    var j: nat :| BegunAt(recovers, steps, j, a);
    if Verified(recovers, a) {
      assert Proven(recovers, steps, Token(a.key), Lower(a.operator));
    }
  }

  lemma StepJustifies(recovers: Oracle, steps: seq<Step>, s: Step)
    requires Justified(recovers, steps, Exec(recovers, steps))
    ensures Justified(recovers, steps + [s], Next(recovers, Exec(recovers, steps), s))
  {
    hide ChallengeMessage, Token, Lower, Exec, BegunAt;
    var m := Exec(recovers, steps);
    PastStays(recovers, steps, s, m);
    match s
    case Issue(key, operator, nonce, now) =>
      assert IssuedAt(steps + [s], |steps|, Token(key), IssuedChallenge(key, operator, nonce, now));
    case Begin(task, key, operator, challenge, signature, now) =>
      if BeginAccepts(m.relay, key, operator, challenge, now) {
        BeginJustifies(recovers, steps, s);
      }
    case Finish(task) =>
      if task in m.tasks {
        FinishJustifies(recovers, steps + [s], m, task);
      }
    case _ => LivenessKeepsPairing(recovers, m, s);
  }

  /**
   * Under every interleaving, an operator is recorded for a vault only if some attempt answering a
   * challenge issued for exactly that vault and operator, pending and unexpired when the attempt
   * began, passed verification.
   */
  lemma {:induction false} PairingIsSound(recovers: Oracle, steps: seq<Step>)
    ensures Justified(recovers, steps, Exec(recovers, steps))
    decreases |steps|
  {
    if steps != [] {
      var front, s := steps[..|steps| - 1], steps[|steps| - 1];
      assert steps == front + [s];
      PairingIsSound(recovers, front);
      StepJustifies(recovers, front, s);
      ExecStep(recovers, front, s);
    }
  }

  // ----- single use ------------------------------------------------------------

  /** Every challenge has its own random nonce, in hexadecimal and so on one line; nothing is asked of the addresses. */
  ghost predicate FreshNonces(steps: seq<Step>) {
    && (forall i :: 0 <= i < |steps| && steps[i].Issue? ==> Free(steps[i].nonce, '\n'))
    && (forall i, j :: 0 <= i < j < |steps| && steps[i].Issue? && steps[j].Issue? ==> steps[i].nonce != steps[j].nonce)
  }

  /** A message is issued once, whatever the addresses in it, so it names one step of the run. */
  lemma MessageNamesStep(steps: seq<Step>, i: nat, t: string, c: Challenge, i': nat, t': string, c': Challenge)
    requires FreshNonces(steps)
    requires IssuedAt(steps, i, t, c) && IssuedAt(steps, i', t', c') && c.message == c'.message
    ensures i == i' && t == t'
  {
    hide ChallengeMessage, Token, Lower, Free;
    var a, b := steps[i], steps[i'];
    MessageBindsTail(a.key, a.operator, a.nonce, a.now, a.now + CHALLENGE_TTL_SECONDS,
                           b.key, b.operator, b.nonce, b.now, b.now + CHALLENGE_TTL_SECONDS);
  }

  ghost predicate NotPending(m: Machine, message: string) {
    forall t :: t in m.relay.pending ==> m.relay.pending[t].message != message
  }

  /** Only issuing a challenge can put its message among the pending ones. */
  lemma OnlyIssueAddsMessage(recovers: Oracle, m: Machine, s: Step, message: string)
    requires NotPending(m, message)
    requires s.Issue? ==> IssuedChallenge(s.key, s.operator, s.nonce, s.now).message != message
    ensures NotPending(Next(recovers, m, s), message)
  {}

  /** An attempt under way answers a challenge some step issued for its own vault. */
  lemma AttemptIssue(recovers: Oracle, steps: seq<Step>, task: nat) returns (i: nat, c: Challenge)
    requires task in Exec(recovers, steps).tasks
    ensures IssuedAt(steps, i, Token(Exec(recovers, steps).tasks[task].key), c)
    ensures c.message == Exec(recovers, steps).tasks[task].challenge
  {
    hide ChallengeMessage, Token, Lower, Exec, IssuedAt;
    PairingIsSound(recovers, steps);
    var a := Exec(recovers, steps).tasks[task];
    var j: nat :| BegunAt(recovers, steps, j, a);
    c := Exec(recovers, steps[..j]).relay.pending[Token(a.key)];
    i :| i < j && IssuedAt(steps, i, Token(a.key), c);
  }

  lemma PendingIssue(recovers: Oracle, steps: seq<Step>, t: string) returns (i: nat)
    requires t in Exec(recovers, steps).relay.pending
    ensures IssuedAt(steps, i, t, Exec(recovers, steps).relay.pending[t])
  {
    hide ChallengeMessage, Token, Lower, Exec, IssuedAt;
    PairingIsSound(recovers, steps);
    i :| IssuedAt(steps, i, t, Exec(recovers, steps).relay.pending[t]);
  }

  /** The verified end of an attempt removes the message it answered from every vault's pending challenge. */
  lemma FinishConsumes(recovers: Oracle, steps: seq<Step>, task: nat)
    requires FreshNonces(steps)
    requires task in Exec(recovers, steps).tasks && Verified(recovers, Exec(recovers, steps).tasks[task])
    ensures NotPending(Next(recovers, Exec(recovers, steps), Finish(task)), Exec(recovers, steps).tasks[task].challenge)
  {
    hide ChallengeMessage, Token, Lower, Exec, IssuedAt, FreshNonces;
    var m := Exec(recovers, steps);
    var a := m.tasks[task];
    var i, c := AttemptIssue(recovers, steps, task);
    forall t | t in m.relay.pending && m.relay.pending[t].message == a.challenge
      ensures t == Token(a.key)
    {
      var i' := PendingIssue(recovers, steps, t);
      MessageNamesStep(steps, i, Token(a.key), c, i', t, m.relay.pending[t]);
    }
  }

  lemma AttemptWasIssued(recovers: Oracle, steps: seq<Step>, task: nat)
    requires task in Exec(recovers, steps).tasks
    ensures exists i: nat, t: string, c: Challenge ::
              IssuedAt(steps, i, t, c) && c.message == Exec(recovers, steps).tasks[task].challenge
  {
    var i, c := AttemptIssue(recovers, steps, task);
  }

  /**
   * Single use: once an attempt answering a challenge has finished successfully, no later attempt
   * with that challenge gets past its first checks, whatever happens in between.
   */
  lemma {:induction false} ConsumedForGood(recovers: Oracle, before: seq<Step>, task: nat, after: seq<Step>)
    requires FreshNonces(before + [Finish(task)] + after)
    requires task in Exec(recovers, before).tasks && Verified(recovers, Exec(recovers, before).tasks[task])
    ensures var challenge := Exec(recovers, before).tasks[task].challenge;
            var m := Exec(recovers, before + [Finish(task)] + after);
            && NotPending(m, challenge)
            && forall key, operator, now :: !BeginAccepts(m.relay, key, operator, challenge, now)
    decreases |after|
  {
    hide ChallengeMessage, Token, Lower;
    var challenge := Exec(recovers, before).tasks[task].challenge;
    var finished := before + [Finish(task)];
    if after == [] {
      assert finished + after == finished;
      assert FreshNonces(before) by {
        assert forall i :: 0 <= i < |before| ==> before[i] == finished[i];
      }
      FinishConsumes(recovers, before, task);
      ExecStep(recovers, before, Finish(task));
    } else {
      var front, s := after[..|after| - 1], after[|after| - 1];
      var steps := finished + after;
      assert steps == (finished + front) + [s];
      assert FreshNonces(finished + front) by {
        assert forall i :: 0 <= i < |finished + front| ==> (finished + front)[i] == steps[i];
      }
      ConsumedForGood(recovers, before, task, front);
      ExecStep(recovers, finished + front, s);
      if s.Issue? {
        AttemptWasIssued(recovers, before, task);
        var i: nat, t: string, c: Challenge :| IssuedAt(before, i, t, c) && c.message == challenge;
        assert IssuedAt(steps, i, t, c) by { assert steps[i] == before[i]; }
        var newer := IssuedChallenge(s.key, s.operator, s.nonce, s.now);
        assert IssuedAt(steps, |steps| - 1, Token(s.key), newer);
        if newer.message == challenge {
          MessageNamesStep(steps, i, t, c, |steps| - 1, Token(s.key), newer);
        }
      }
      OnlyIssueAddsMessage(recovers, Exec(recovers, finished + front), s, challenge);
    }
  }

  // ----- when a challenge can be answered -----------------------------------------

  /** What takes challenge `c` away from vault `t`: a newer one, any completed pairing of the vault, or a late answer. */
  predicate Displaces(recovers: Oracle, m: Machine, s: Step, t: string, c: Challenge) {
    match s
    case Issue(key, _, _, _) => Token(key) == t
    case Finish(task) => task in m.tasks && Verified(recovers, m.tasks[task]) && Token(m.tasks[task].key) == t
    case Begin(_, key, _, challenge, _, now) => Token(key) == t && challenge == c.message && c.expiresAt < now
    case _ => false
  }

  ghost predicate Undisturbed(recovers: Oracle, base: seq<Step>, after: seq<Step>, t: string, c: Challenge) {
    forall k :: 0 <= k < |after| ==> !Displaces(recovers, Exec(recovers, base + after[..k]), after[k], t, c)
  }

  lemma UndisturbedStep(recovers: Oracle, base: seq<Step>, front: seq<Step>, s: Step, t: string, c: Challenge)
    ensures Undisturbed(recovers, base, front + [s], t, c) <==>
            Undisturbed(recovers, base, front, t, c) && !Displaces(recovers, Exec(recovers, base + front), s, t, c)
  {
    hide Exec, Displaces;
    var after := front + [s];
    assert after[..|front|] == front && after[|front|] == s;
    assert forall k :: 0 <= k < |front| ==> after[k] == front[k] && after[..k] == front[..k];
  }

  ghost predicate StillPending(m: Machine, t: string, c: Challenge) {
    t in m.relay.pending && m.relay.pending[t] == c
  }

  lemma PendingStep(recovers: Oracle, m: Machine, s: Step, t: string, c: Challenge)
    requires s.Issue? ==> IssuedChallenge(s.key, s.operator, s.nonce, s.now).message != c.message
    requires t in m.relay.pending && m.relay.pending[t].message == c.message ==> m.relay.pending[t] == c
    ensures StillPending(Next(recovers, m, s), t, c) <==> StillPending(m, t, c) && !Displaces(recovers, m, s, t, c)
    ensures t in Next(recovers, m, s).relay.pending && Next(recovers, m, s).relay.pending[t].message == c.message ==>
              Next(recovers, m, s).relay.pending[t] == c
  {
    hide ChallengeMessage, Token, Lower;
  }

  lemma {:induction false} PendingIffUndisturbed(recovers: Oracle, before: seq<Step>, issue: Step, after: seq<Step>)
    requires issue.Issue? && FreshNonces(before + [issue] + after)
    ensures var c := IssuedChallenge(issue.key, issue.operator, issue.nonce, issue.now);
            var t := Token(issue.key);
            var m := Exec(recovers, before + [issue] + after);
            && (StillPending(m, t, c) <==> Undisturbed(recovers, before + [issue], after, t, c))
            && (t in m.relay.pending && m.relay.pending[t].message == c.message ==> m.relay.pending[t] == c)
    decreases |after|
  {
    hide ChallengeMessage, Token, Lower, Displaces;
    var base := before + [issue];
    var c := IssuedChallenge(issue.key, issue.operator, issue.nonce, issue.now);
    var t := Token(issue.key);
    if after == [] {
      assert base + after == base;
      ExecStep(recovers, before, issue);
    } else {
      var front, s := after[..|after| - 1], after[|after| - 1];
      var steps := base + after;
      assert after == front + [s];
      assert steps == (base + front) + [s];
      assert FreshNonces(base + front) by {
        assert forall i :: 0 <= i < |base + front| ==> (base + front)[i] == steps[i];
      }
      PendingIffUndisturbed(recovers, before, issue, front);
      ExecStep(recovers, base + front, s);
      UndisturbedStep(recovers, base, front, s, t, c);
      if s.Issue? {
        NewerDiffers(steps, |before|, |steps| - 1);
      }
      PendingStep(recovers, Exec(recovers, base + front), s, t, c);
    }
  }

  lemma NewerDiffers(steps: seq<Step>, i: nat, j: nat)
    requires FreshNonces(steps) && i < j < |steps| && steps[i].Issue? && steps[j].Issue?
    ensures IssuedChallenge(steps[i].key, steps[i].operator, steps[i].nonce, steps[i].now).message
         != IssuedChallenge(steps[j].key, steps[j].operator, steps[j].nonce, steps[j].now).message
  {
    hide ChallengeMessage;
    var a, b := steps[i], steps[j];
    var m, n := IssuedChallenge(a.key, a.operator, a.nonce, a.now), IssuedChallenge(b.key, b.operator, b.nonce, b.now);
    if m.message == n.message {
      MessageNamesStep(steps, i, Token(a.key), m, j, Token(b.key), n);
    }
  }

  /**
   * The operator a challenge was issued to can begin answering it exactly while it is at most five minutes old
   * and undisturbed. In particular an unanswered challenge is lost when an older attempt completes.
   */
  lemma AnswerableIff(recovers: Oracle, before: seq<Step>, issue: Step, after: seq<Step>, now: int)
    requires issue.Issue? && FreshNonces(before + [issue] + after)
    ensures var c := IssuedChallenge(issue.key, issue.operator, issue.nonce, issue.now);
            BeginAccepts(Exec(recovers, before + [issue] + after).relay, issue.key, issue.operator, c.message, now)
            <==> now <= issue.now + 300 && Undisturbed(recovers, before + [issue], after, Token(issue.key), c)
  {
    hide ChallengeMessage, Token, Lower, Exec, Displaces;
    PendingIffUndisturbed(recovers, before, issue, after);
  }

  /** Strict single use fails only this way: attempts begun before the first finish may all finish. */
  lemma ConcurrentConfirmsBothFinish(recovers: Oracle, key: VaultKey, operator: string, nonce: string, signature: string, now: int)
    requires recovers(ChallengeMessage(key, operator, nonce, now, now + CHALLENGE_TTL_SECONDS), signature, operator)
    ensures var c := ChallengeMessage(key, operator, nonce, now, now + CHALLENGE_TTL_SECONDS);
            var steps := [Issue(key, operator, nonce, now),
                          Begin(0, key, operator, c, signature, now),
                          Begin(1, key, operator, c, signature, now),
                          Finish(0)];
            var m := Exec(recovers, steps);
            && 1 in m.tasks && Verified(recovers, m.tasks[1])
            && Token(key) !in m.relay.pending
  {
    hide ChallengeMessage, Token;
    var c := ChallengeMessage(key, operator, nonce, now, now + CHALLENGE_TTL_SECONDS);
    var a, b, d, e := Issue(key, operator, nonce, now), Begin(0, key, operator, c, signature, now),
      Begin(1, key, operator, c, signature, now), Finish(0);
    assert [a] == [] + [a] && [a, b] == [a] + [b] && [a, b, d] == [a, b] + [d] && [a, b, d, e] == [a, b, d] + [e];
    ExecStep(recovers, [], a);
    ExecStep(recovers, [a], b);
    ExecStep(recovers, [a, b], d);
    ExecStep(recovers, [a, b, d], e);
  }
}
