/** What a vault's record says, read off the run that made it: who it is paired to, when it was heard from, whether it is online. */
module Liveness {
  import opened Options
  import opened RelayText
  import opened RelaySteps
  import opened RelayInvariants

  // ----- single steps --------------------------------------------------------------

  /** The record of a vault the relay has never paired: nobody's, offline, never heard from. */
  predicate Unknown(state: Telemetry, key: VaultKey) {
    && state.chainId == key.chainId && state.vaultAddress == Lower(key.vaultAddress)
    && state.operatorAddress == None && !state.paired && !state.online && state.lastHeartbeatAt == None
    && state.stage == None && state.stageAt == None && state.intentId == None && state.intelligence == None
  }

  /** Two records that agree on everything a heartbeat or a pairing leaves alone. */
  predicate SameStage(a: Telemetry, b: Telemetry) {
    a.stage == b.stage && a.stageAt == b.stageAt && a.intentId == b.intentId
  }

  predicate SamePairing(a: Telemetry, b: Telemetry) {
    && a.chainId == b.chainId && a.vaultAddress == b.vaultAddress
    && a.operatorAddress == b.operatorAddress && a.paired == b.paired
  }

  predicate SameLiveness(a: Telemetry, b: Telemetry) {
    a.online == b.online && a.lastHeartbeatAt == b.lastHeartbeatAt
  }

  lemma UnpairedIsUnknown(r: Relay, key: VaultKey)
    requires Token(key) !in r.records
    ensures Unknown(StateOf(r.records, key), key)
  {}

  /** Pairing names the operator and nothing else: whether the vault is alive, and what it is at, stay as they were. */
  lemma PairingSays(r: Relay, key: VaultKey, operator: string)
    ensures var was, r' := StateOf(r.records, key), FinishConfirm(r, key, operator);
            && Token(key) in r'.records && Token(key) !in r'.pending
            && var made := r'.records[Token(key)];
               && made.paired && made.operatorAddress == Some(Lower(operator))
               && made.chainId == was.chainId && made.vaultAddress == was.vaultAddress
               && SameLiveness(was, made) && SameStage(was, made) && made.intelligence == was.intelligence
  {}

  /** A heartbeat counts only from the paired operator; it brings the vault online at its own time, with the intelligence it names or none. */
  lemma HeartbeatSays(r: Relay, key: VaultKey, operator: string, at: int, intelligence: Option<Intelligence>)
    ensures var was, r' := StateOf(r.records, key), RecordHeartbeat(r, key, operator, at, intelligence);
            if was.paired && was.operatorAddress == Some(Lower(operator)) then
              && Token(key) in r'.records
              && var made := r'.records[Token(key)];
                 && made.online && made.lastHeartbeatAt == Some(at) && made.intelligence == intelligence
                 && SamePairing(was, made) && SameStage(was, made)
            else r' == r
  {}

  /** A stage event counts for one of the four stages of a paired vault; it brings the vault online and records what it was sent. */
  lemma StageSays(r: Relay, key: VaultKey, stage: string, intentId: string, at: int)
    ensures var was, r' := StateOf(r.records, key), RecordStage(r, key, stage, intentId, at);
            if was.paired && stage in TELEMETRY_STAGES then
              && Token(key) in r'.records
              && var made := r'.records[Token(key)];
                 && made.online && made.lastHeartbeatAt == Some(at)
                 && made.stage == Some(stage) && made.stageAt == Some(at) && made.intentId == Some(intentId)
                 && SamePairing(was, made) && made.intelligence == was.intelligence
            else r' == r
  {}

  /** Which refusal a stage event meets: the stage is looked at before the vault. */
  lemma StageRefusals(r: Relay, key: VaultKey, stage: string)
    ensures StageVerdict(r, key, stage) == UnacceptedStage <==>
            stage !in {"INTENT_DISCOVERED", "VERIFYING_SOURCE", "FORMULATING_FILL", "SUBMITTING_SETTLEMENT"}
    ensures StageVerdict(r, key, stage) == NotPaired <==> stage in TELEMETRY_STAGES && !StateOf(r.records, key).paired
    ensures StageVerdict(r, key, stage) == Accepted <==> stage in TELEMETRY_STAGES && StateOf(r.records, key).paired
  {}

  // ----- runs ------------------------------------------------------------------------

  /** The time a step is heard from a vault: a heartbeat of its paired operator, or a stage event once paired. */
  function Beat(r: Relay, s: Step, t: string): Option<int> {
    if t !in r.records || !r.records[t].paired then None
    else
      match s
      case Heartbeat(key, operator, at, _) =>
        if Token(key) == t && r.records[t].operatorAddress == Some(Lower(operator)) then Some(at) else None
      case Stage(key, stage, _, at) => if Token(key) == t && stage in TELEMETRY_STAGES then Some(at) else None
      case _ => None
  }

  function BeatAt(recovers: Oracle, steps: seq<Step>, k: nat, t: string): Option<int>
    requires k < |steps|
  {
    Beat(Exec(recovers, steps[..k]).relay, steps[k], t)
  }

  /** The vault was last heard from at step `k`. */
  ghost predicate LastHeard(recovers: Oracle, steps: seq<Step>, t: string, k: nat) {
    k < |steps| && BeatAt(recovers, steps, k, t).Some? && forall j :: k < j < |steps| ==> BeatAt(recovers, steps, j, t) == None
  }

  /** Every sweep since step `k` came within its window of that beat. */
  ghost predicate SweptInTime(recovers: Oracle, steps: seq<Step>, t: string, k: nat)
    requires k < |steps| && BeatAt(recovers, steps, k, t).Some?
  {
    forall j :: k < j < |steps| && steps[j].Sweep? ==> steps[j].now - BeatAt(recovers, steps, k, t).value <= steps[j].timeout
  }

  ghost predicate OnlineSince(recovers: Oracle, steps: seq<Step>, t: string, k: nat) {
    LastHeard(recovers, steps, t, k) && SweptInTime(recovers, steps, t, k)
  }

  /** How one step moves the two liveness fields of a vault. */
  lemma LivenessStep(recovers: Oracle, m: Machine, s: Step, t: string)
    requires RecordsSound(m.relay)
    ensures var r, r', beat := m.relay.records, Next(recovers, m, s).relay.records, Beat(m.relay, s, t);
            && (t in r ==> t in r')
            && (beat.Some? ==> t in r && r'[t].online && r'[t].lastHeartbeatAt == beat)
            && (beat.None? && t in r ==>
                  && r'[t].lastHeartbeatAt == r[t].lastHeartbeatAt
                  && (r'[t].online <==> r[t].online && (s.Sweep? ==> s.now - r[t].lastHeartbeatAt.value <= s.timeout)))
            && (t !in r && t in r' ==> !r'[t].online && r'[t].lastHeartbeatAt == None)
  {
    hide Token, Lower, ChallengeMessage;
    assert t in m.relay.records ==> RecordSound(t, m.relay.records[t]);
  }

  lemma BeatsStay(recovers: Oracle, steps: seq<Step>, s: Step, t: string)
    ensures forall j :: 0 <= j < |steps| ==> BeatAt(recovers, steps + [s], j, t) == BeatAt(recovers, steps, j, t)
    ensures BeatAt(recovers, steps + [s], |steps|, t) == Beat(Exec(recovers, steps).relay, s, t)
  {
    hide Beat, Exec;
    forall j | 0 <= j < |steps| ensures BeatAt(recovers, steps + [s], j, t) == BeatAt(recovers, steps, j, t) {
      assert (steps + [s])[..j] == steps[..j];
    }
    assert (steps + [s])[..|steps|] == steps;
  }

  /** A record's last heartbeat is the run's last beat, and it is online exactly when every sweep since came in time. */
  ghost predicate LivenessMatches(recovers: Oracle, steps: seq<Step>, t: string) {
    var r := Exec(recovers, steps).relay.records;
    && (forall k :: LastHeard(recovers, steps, t, k) ==>
          t in r && r[t].lastHeartbeatAt == BeatAt(recovers, steps, k, t) && (r[t].online <==> SweptInTime(recovers, steps, t, k)))
    && (t in r && r[t].lastHeartbeatAt.Some? ==> exists k :: LastHeard(recovers, steps, t, k))
    && (t in r && r[t].lastHeartbeatAt.None? ==> !r[t].online)
  }

  lemma StepKeepsLiveness(recovers: Oracle, steps: seq<Step>, s: Step, t: string)
    requires LivenessMatches(recovers, steps, t) && RecordsSound(Exec(recovers, steps).relay)
    ensures LivenessMatches(recovers, steps + [s], t)
  {
    hide BeatAt, Beat, Next, RecordsSound;
    var all, m := steps + [s], Exec(recovers, steps);
    ExecStep(recovers, steps, s);
    LivenessStep(recovers, m, s, t);
    BeatsStay(recovers, steps, s, t);
    if Beat(m.relay, s, t).Some? {
      assert LastHeard(recovers, all, t, |steps|);
    } else {
      forall k | LastHeard(recovers, all, t, k) ensures LastHeard(recovers, steps, t, k) {}
      forall k | LastHeard(recovers, steps, t, k) ensures LastHeard(recovers, all, t, k) {}
    }
  }

  lemma {:induction false} LivenessMatchesRun(recovers: Oracle, steps: seq<Step>, t: string)
    ensures LivenessMatches(recovers, steps, t)
    decreases |steps|
  {
    hide RecordsSound, LivenessMatches, Next;
    if steps == [] {
      NothingHeard(recovers, t);
    } else {
      var front, s := steps[..|steps| - 1], steps[|steps| - 1];
      LivenessMatchesRun(recovers, front, t);
      RecordsAlwaysSound(recovers, front);
      StepKeepsLiveness(recovers, front, s, t);
      assert front + [s] == steps;
    }
  }

  lemma NothingHeard(recovers: Oracle, t: string)
    ensures LivenessMatches(recovers, [], t)
  {}

  /**
   * Over every run, a vault is online exactly when it has been heard from and every sweep since its last beat came
   * within its window of that beat: no vault that beats in time is ever taken offline, and none that does not is left.
   */
  lemma OnlineIff(recovers: Oracle, steps: seq<Step>, t: string)
    ensures var r := Exec(recovers, steps).relay.records;
            t in r && r[t].online <==> exists k :: OnlineSince(recovers, steps, t, k)
  {
    hide BeatAt, Exec;
    LivenessMatchesRun(recovers, steps, t);
    var r := Exec(recovers, steps).relay.records;
    if t in r && r[t].online {
      var k :| LastHeard(recovers, steps, t, k);
      assert OnlineSince(recovers, steps, t, k);
    }
  }

  /** And its last heartbeat is when it was last heard from. */
  lemma HeardAt(recovers: Oracle, steps: seq<Step>, t: string, k: nat)
    requires LastHeard(recovers, steps, t, k)
    ensures t in Exec(recovers, steps).relay.records
    ensures Exec(recovers, steps).relay.records[t].lastHeartbeatAt == BeatAt(recovers, steps, k, t)
  {
    hide BeatAt, Exec, LastHeard;
    LivenessMatchesRun(recovers, steps, t);
  }
}
