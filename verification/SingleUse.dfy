/** How often one challenge can be used: exactly once, but for attempts already under way at the first success. */
module SingleUse {
  import opened RelayText
  import opened RelaySteps
  import opened Pairing

  /** Step `k` completes a confirmation of this challenge. */
  predicate SucceedsAt(recovers: Oracle, steps: seq<Step>, k: nat, challenge: string) {
    && k < |steps| && steps[k].Finish?
    && var m := Exec(recovers, steps[..k]);
       steps[k].task in m.tasks && m.tasks[steps[k].task].challenge == challenge && Verified(recovers, m.tasks[steps[k].task])
  }

  /** A step that ends an attempt, or starts another under its task number. */
  predicate Dislodges(m: Machine, s: Step, task: nat) {
    match s
    case Finish(t) => t == task
    case Begin(t, key, operator, challenge, _, now) => t == task && BeginAccepts(m.relay, key, operator, challenge, now)
    case _ => false
  }

  predicate Undislodged(recovers: Oracle, base: seq<Step>, after: seq<Step>, task: nat) {
    after == [] ||
    (var front := after[..|after| - 1];
     Undislodged(recovers, base, front, task) && !Dislodges(Exec(recovers, base + front), after[|after| - 1], task))
  }

  lemma TaskStep(recovers: Oracle, m: Machine, s: Step, task: nat)
    ensures !Dislodges(m, s, task) ==>
              && (task in Next(recovers, m, s).tasks <==> task in m.tasks)
              && (task in m.tasks ==> Next(recovers, m, s).tasks[task] == m.tasks[task])
    ensures Dislodges(m, s, task) && task in Next(recovers, m, s).tasks ==>
              s.Begin? && Next(recovers, m, s).tasks[task] == Attempt(s.key, s.operator, s.challenge, s.signature)
              && BeginAccepts(m.relay, s.key, s.operator, s.challenge, s.now)
  {
    hide ChallengeMessage, Token, Lower;
  }

  lemma FreshPrefix(steps: seq<Step>, s: Step)
    requires FreshNonces(steps + [s])
    ensures FreshNonces(steps)
  {
    assert forall i :: 0 <= i < |steps| ==> (steps + [s])[i] == steps[i];
  }

  /**
   * After a challenge has been used, an attempt on it that is still under way is one that was under way
   * then, has been neither finished nor replaced since, and is not the one that used it.
   */
  lemma {:induction false} UnderWayIff(recovers: Oracle, before: seq<Step>, task: nat, after: seq<Step>, t: nat)
    requires FreshNonces(before + [Finish(task)] + after)
    requires task in Exec(recovers, before).tasks && Verified(recovers, Exec(recovers, before).tasks[task])
    ensures var challenge := Exec(recovers, before).tasks[task].challenge;
            var base := before + [Finish(task)];
            var first, now := Exec(recovers, before).tasks, Exec(recovers, base + after).tasks;
            && (t in now && now[t].challenge == challenge <==>
                t != task && t in first && first[t].challenge == challenge && Undislodged(recovers, base, after, t))
            && (t in now && now[t].challenge == challenge ==> now[t] == first[t])
    decreases |after|
  {
    hide ChallengeMessage, Token, Lower, Exec, FreshNonces, Dislodges;
    var base := before + [Finish(task)];
    if after == [] {
      assert base + after == base;
      ExecStep(recovers, before, Finish(task));
    } else {
      var front, s := after[..|after| - 1], after[|after| - 1];
      assert base + after == (base + front) + [s];
      FreshPrefix(base + front, s);
      UnderWayIff(recovers, before, task, front, t);
      ConsumedForGood(recovers, before, task, front);
      ExecStep(recovers, base + front, s);
      TaskStep(recovers, Exec(recovers, base + front), s, t);
    }
  }

  /** An attempt on the same challenge, other than the one that just succeeded, whose signature will verify. */
  predicate Rival(recovers: Oracle, m: Machine, task: nat, t: nat)
    requires task in m.tasks
  {
    t != task && t in m.tasks && m.tasks[t].challenge == m.tasks[task].challenge && Verified(recovers, m.tasks[t])
  }

  /**
   * Exactly when a used challenge is used again: a later step succeeds on it if and only if it finishes a
   * rival that was under way at the first success and has been neither finished nor replaced since.
   */
  lemma UsedAgainIff(recovers: Oracle, before: seq<Step>, task: nat, after: seq<Step>, s: Step)
    requires FreshNonces(before + [Finish(task)] + after + [s])
    requires task in Exec(recovers, before).tasks && Verified(recovers, Exec(recovers, before).tasks[task])
    ensures var base := before + [Finish(task)];
            SucceedsAt(recovers, base + after + [s], |base + after|, Exec(recovers, before).tasks[task].challenge)
            <==> s.Finish? && Rival(recovers, Exec(recovers, before), task, s.task) && Undislodged(recovers, base, after, s.task)
  {
    hide ChallengeMessage, Token, Lower, Exec, FreshNonces, Dislodges, Undislodged;
    var base := before + [Finish(task)];
    assert (base + after + [s])[..|base + after|] == base + after;
    assert (base + after + [s])[|base + after|] == s;
    FreshPrefix(base + after, s);
    if s.Finish? {
      UnderWayIff(recovers, before, task, after, s.task);
    }
  }

  /** Some later step of some continuation succeeds on the challenge again. */
  ghost predicate CanBeUsedAgain(recovers: Oracle, before: seq<Step>, task: nat)
    requires task in Exec(recovers, before).tasks
  {
    exists after: seq<Step>, s: Step ::
      && FreshNonces(before + [Finish(task)] + after + [s])
      && SucceedsAt(recovers, before + [Finish(task)] + after + [s], |before + [Finish(task)] + after|,
                    Exec(recovers, before).tasks[task].challenge)
  }

  lemma FinishKeepsFresh(steps: seq<Step>, t: nat)
    requires FreshNonces(steps)
    ensures FreshNonces(steps + [Finish(t)])
  {}

  /** A challenge is good for one success and no more exactly when no rival is under way at its first. */
  lemma UsedOnceIffNoRival(recovers: Oracle, before: seq<Step>, task: nat)
    requires FreshNonces(before + [Finish(task)])
    requires task in Exec(recovers, before).tasks && Verified(recovers, Exec(recovers, before).tasks[task])
    ensures CanBeUsedAgain(recovers, before, task) <==> exists t :: Rival(recovers, Exec(recovers, before), task, t)
  {
    hide ChallengeMessage, Token, Lower, Exec, FreshNonces, Dislodges, SucceedsAt, Rival;
    var base := before + [Finish(task)];
    if CanBeUsedAgain(recovers, before, task) {
      var after: seq<Step>, s: Step :|
        && FreshNonces(base + after + [s])
        && SucceedsAt(recovers, base + after + [s], |base + after|, Exec(recovers, before).tasks[task].challenge);
      UsedAgainIff(recovers, before, task, after, s);
    }
    if t :| Rival(recovers, Exec(recovers, before), task, t) {
      assert base + [] == base;
      FinishKeepsFresh(base, t);
      UsedAgainIff(recovers, before, task, [], Finish(t));
    }
  }
}
