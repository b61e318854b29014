/** What every record the relay holds keeps saying, and which records a step can touch. */
module RelayInvariants {
  import opened Options
  import opened RelayText
  import opened RelaySteps

  /** Paired to some operator, filed under its own token, online only once heard from, stage fields set together. */
  ghost predicate RecordSound(t: string, state: Telemetry) {
    && t == Token(VaultKey(state.chainId, state.vaultAddress))
    && state.paired && state.operatorAddress.Some?
    && Lower(state.operatorAddress.value) == state.operatorAddress.value
    && (state.online ==> state.lastHeartbeatAt.Some?)
    && (state.stage.Some? <==> state.stageAt.Some?)
    && (state.stage.Some? <==> state.intentId.Some?)
    && (state.stage.Some? ==> state.stage.value in TELEMETRY_STAGES)
    && (state.stage.Some? ==> state.lastHeartbeatAt.Some?)
  }

  ghost predicate RecordsSound(r: Relay) {
    forall t :: t in r.records ==> RecordSound(t, r.records[t])
  }

  lemma InitialFiledUnderToken(key: VaultKey)
    ensures Token(VaultKey(InitialState(key).chainId, InitialState(key).vaultAddress)) == Token(key)
  {
    LowerIdempotent(key.vaultAddress);
  }

  lemma FinishKeepsSound(r: Relay, key: VaultKey, operator: string)
    requires RecordsSound(r)
    ensures RecordsSound(FinishConfirm(r, key, operator))
  {
    InitialFiledUnderToken(key);
    LowerIdempotent(operator);
  }

  lemma HeartbeatKeepsSound(r: Relay, key: VaultKey, operator: string, at: int, intelligence: Option<Intelligence>)
    requires RecordsSound(r)
    ensures RecordsSound(RecordHeartbeat(r, key, operator, at, intelligence))
  {
    hide Token, Lower;
    assert IsPairedTo(r, key, operator) ==> Token(key) in r.records;
  }

  lemma StageKeepsSound(r: Relay, key: VaultKey, stage: string, intentId: string, at: int)
    requires RecordsSound(r)
    ensures RecordsSound(RecordStage(r, key, stage, intentId, at))
  {
    hide Token, Lower;
    assert StageVerdict(r, key, stage) == Accepted ==> Token(key) in r.records;
  }

  lemma StepKeepsSound(recovers: Oracle, m: Machine, s: Step)
    requires RecordsSound(m.relay)
    ensures RecordsSound(Next(recovers, m, s).relay)
  {
    hide Token, Lower, ChallengeMessage;
    match s
    case Finish(task) =>
      if task in m.tasks {
        FinishKeepsSound(m.relay, m.tasks[task].key, m.tasks[task].operator);
      }
    case Heartbeat(key, operator, at, intelligence) => HeartbeatKeepsSound(m.relay, key, operator, at, intelligence);
    case Stage(key, stage, intentId, at) => StageKeepsSound(m.relay, key, stage, intentId, at);
    case _ =>
  }

  /** Every record of every reachable relay state is sound. */
  lemma {:induction false} RecordsAlwaysSound(recovers: Oracle, steps: seq<Step>)
    ensures RecordsSound(Exec(recovers, steps).relay)
    decreases |steps|
  {
    if steps != [] {
      RecordsAlwaysSound(recovers, steps[..|steps| - 1]);
      StepKeepsSound(recovers, Exec(recovers, steps[..|steps| - 1]), steps[|steps| - 1]);
    }
  }

  // ----- isolation -------------------------------------------------------------

  /** The vault a step acts on; sweeps act on all. */
  function Target(m: Machine, s: Step): Option<string> {
    match s
    case Issue(key, _, _, _) => Some(Token(key))
    case Begin(_, key, _, _, _, _) => Some(Token(key))
    case Finish(task) => if task in m.tasks then Some(Token(m.tasks[task].key)) else None
    case Heartbeat(key, _, _, _) => Some(Token(key))
    case Stage(key, _, _, _) => Some(Token(key))
    case Sweep(_, _) => None
  }

  predicate SameEntry<T(==)>(a: map<string, T>, b: map<string, T>, t: string) {
    (t in a <==> t in b) && (t in a ==> a[t] == b[t])
  }

  /** A step on one vault changes no other vault's record and no other vault's challenge. */
  lemma StepTouchesOneVault(recovers: Oracle, m: Machine, s: Step, t: string)
    requires !s.Sweep? && Target(m, s) != Some(t)
    ensures SameEntry(m.relay.records, Next(recovers, m, s).relay.records, t)
    ensures SameEntry(m.relay.pending, Next(recovers, m, s).relay.pending, t)
  {
    hide Token, Lower, ChallengeMessage;
  }

  /** The same vault address on two chains is two vaults. */
  lemma ChainsAreSeparate(address: string, c1: int, c2: int)
    requires c1 != c2
    ensures Token(VaultKey(c1, address)) != Token(VaultKey(c2, address))
  {
    if Token(VaultKey(c1, address)) == Token(VaultKey(c2, address)) {
      TokenInjective(VaultKey(c1, address), VaultKey(c2, address));
    }
  }

  // ----- sweeping ----------------------------------------------------------------

  /** Heard from longer ago than the window allows. */
  predicate TimedOut(state: Telemetry, now: int, timeout: int) {
    state.paired && state.online && state.lastHeartbeatAt.Some? && state.lastHeartbeatAt.value + timeout < now
  }

  /** A sweep takes exactly the vaults that timed out offline, changes nothing else about them, and nothing about the rest. */
  lemma SweepFlipsExactlyOverdue(r: Relay, now: int, timeout: int, t: string)
    requires t in r.records
    ensures var swept := SweepHeartbeats(r, now, timeout);
            && swept.records.Keys == r.records.Keys && swept.pending == r.pending
            && (swept.records[t] != r.records[t] <==> TimedOut(r.records[t], now, timeout))
            && swept.records[t].(online := r.records[t].online) == r.records[t]
            && (swept.records[t].online ==> r.records[t].online)
  {}

  /** A vault is online after a sweep exactly when it was before and has been heard from within the window. */
  lemma OnlineAfterSweepIff(r: Relay, now: int, timeout: int, t: string)
    requires RecordsSound(r) && t in r.records
    ensures SweepHeartbeats(r, now, timeout).records[t].online
            <==> r.records[t].online && now - r.records[t].lastHeartbeatAt.value <= timeout
  {
    hide Token, Lower;
    assert RecordSound(t, r.records[t]);
  }

  /** Sweeping again at the same moment does nothing. */
  lemma SweepIdempotent(r: Relay, now: int, timeout: int)
    ensures SweepHeartbeats(SweepHeartbeats(r, now, timeout), now, timeout) == SweepHeartbeats(r, now, timeout)
  {
    var once := SweepHeartbeats(r, now, timeout);
    assert forall t :: t in once.records ==> Swept(once.records[t], now, timeout) == once.records[t];
  }

  /** After a sweep every vault still online was heard from within the window. */
  lemma OnlineMeansRecent(r: Relay, now: int, timeout: int, t: string)
    requires RecordsSound(r) && t in r.records
    ensures SweepHeartbeats(r, now, timeout).records[t].online ==>
              SweepHeartbeats(r, now, timeout).records[t].lastHeartbeatAt.Some?
              && now - SweepHeartbeats(r, now, timeout).records[t].lastHeartbeatAt.value <= timeout
  {
    hide Token, Lower;
    assert RecordSound(t, r.records[t]);
  }
}
