/**
 * The relay's transitions as functions, and its runs as interleavings of them.
 * Confirming a pairing suspends while the signature is verified, so it is two
 * steps, `Begin` and `Finish`, between which any other step may happen.
 */
module RelaySteps {
  import opened Options
  import opened RelayText

  const CHALLENGE_TTL_SECONDS := 300

  const TELEMETRY_STAGES :=
    ["INTENT_DISCOVERED", "VERIFYING_SOURCE", "FORMULATING_FILL", "SUBMITTING_SETTLEMENT"]

  datatype Intelligence = Intelligence(
    mode: string, paid: bool, payments: int, totalTinybar: string,
    lastTransaction: Option<string>, payer: Option<string>)

  datatype Telemetry = Telemetry(
    chainId: int,
    vaultAddress: string,
    operatorAddress: Option<string>,
    paired: bool,
    online: bool,
    lastHeartbeatAt: Option<int>,
    stage: Option<string>,
    stageAt: Option<int>,
    intentId: Option<string>,
    intelligence: Option<Intelligence>)

  datatype Challenge = Challenge(message: string, operatorAddress: string, expiresAt: int)

  datatype Relay = Relay(records: map<string, Telemetry>, pending: map<string, Challenge>)

  const EMPTY_RELAY := Relay(map[], map[])

  datatype StageResult = Accepted | UnacceptedStage | NotPaired

  function InitialState(key: VaultKey): Telemetry {
    Telemetry(key.chainId, Lower(key.vaultAddress), None, false, false, None, None, None, None, None)
  }

  function StateOf(records: map<string, Telemetry>, key: VaultKey): Telemetry {
    if Token(key) in records then records[Token(key)] else InitialState(key)
  }

  // ----- transitions ---------------------------------------------------------

  function IssuedChallenge(key: VaultKey, operator: string, nonce: string, now: int): Challenge {
    Challenge(ChallengeMessage(key, operator, nonce, now, now + CHALLENGE_TTL_SECONDS),
              Lower(operator), now + CHALLENGE_TTL_SECONDS)
  }

  function IssueChallenge(r: Relay, key: VaultKey, operator: string, nonce: string, now: int): Relay {
    r.(pending := r.pending[Token(key) := IssuedChallenge(key, operator, nonce, now)])
  }

  /** Whether a confirmation gets as far as verifying its signature. */
  predicate BeginAccepts(r: Relay, key: VaultKey, operator: string, challenge: string, now: int) {
    && Token(key) in r.pending
    && r.pending[Token(key)].message == challenge
    && now <= r.pending[Token(key)].expiresAt
    && r.pending[Token(key)].operatorAddress == Lower(operator)
  }

  /** An expired challenge is dropped by the attempt that finds it so. */
  function BeginConfirm(r: Relay, key: VaultKey, challenge: string, now: int): Relay {
    if Token(key) in r.pending && r.pending[Token(key)].message == challenge && r.pending[Token(key)].expiresAt < now then
      r.(pending := r.pending - {Token(key)})
    else
      r
  }

  function Paired(state: Telemetry, operator: string): Telemetry {
    state.(operatorAddress := Some(Lower(operator)), paired := true)
  }

  /** A verified confirmation consumes whatever challenge is then pending for the vault. */
  function FinishConfirm(r: Relay, key: VaultKey, operator: string): Relay {
    Relay(r.records[Token(key) := Paired(StateOf(r.records, key), operator)], r.pending - {Token(key)})
  }

  predicate IsPairedTo(r: Relay, key: VaultKey, operator: string) {
    StateOf(r.records, key).paired && StateOf(r.records, key).operatorAddress == Some(Lower(operator))
  }

  function Beaten(state: Telemetry, at: int, intelligence: Option<Intelligence>): Telemetry {
    state.(online := true, lastHeartbeatAt := Some(at), intelligence := intelligence)
  }

  function RecordHeartbeat(r: Relay, key: VaultKey, operator: string, at: int, intelligence: Option<Intelligence>): Relay {
    if IsPairedTo(r, key, operator) then
      r.(records := r.records[Token(key) := Beaten(StateOf(r.records, key), at, intelligence)])
    else
      r
  }

  function StageVerdict(r: Relay, key: VaultKey, stage: string): StageResult {
    if stage !in TELEMETRY_STAGES then UnacceptedStage
    else if !StateOf(r.records, key).paired then NotPaired
    else Accepted
  }

  function Staged(state: Telemetry, stage: string, intentId: string, at: int): Telemetry {
    state.(online := true, lastHeartbeatAt := Some(at), stage := Some(stage), stageAt := Some(at), intentId := Some(intentId))
  }

  function RecordStage(r: Relay, key: VaultKey, stage: string, intentId: string, at: int): Relay {
    if StageVerdict(r, key, stage) == Accepted then
      r.(records := r.records[Token(key) := Staged(StateOf(r.records, key), stage, intentId, at)])
    else
      r
  }

  predicate Overdue(state: Telemetry, now: int, timeout: int) {
    state.paired && state.online && state.lastHeartbeatAt.Some? && now - state.lastHeartbeatAt.value > timeout
  }

  function Swept(state: Telemetry, now: int, timeout: int): Telemetry {
    if Overdue(state, now, timeout) then state.(online := false) else state
  }

  function SweepHeartbeats(r: Relay, now: int, timeout: int): Relay {
    r.(records := map t | t in r.records :: Swept(r.records[t], now, timeout))
  }

  // ----- runs ----------------------------------------------------------------

  /** `task` names one call of confirm between its two halves. */
  datatype Step =
    | Issue(key: VaultKey, operator: string, nonce: string, now: int)
    | Begin(task: nat, key: VaultKey, operator: string, challenge: string, signature: string, now: int)
    | Finish(task: nat)
    | Heartbeat(key: VaultKey, operator: string, at: int, intelligence: Option<Intelligence>)
    | Stage(key: VaultKey, stage: string, intentId: string, at: int)
    | Sweep(now: int, timeout: int)

  datatype Attempt = Attempt(key: VaultKey, operator: string, challenge: string, signature: string)

  datatype Machine = Machine(relay: Relay, tasks: map<nat, Attempt>)

  /** Whether a signature over a message recovers to an address: the one cryptographic fact, left abstract. */
  type Oracle = (string, string, string) -> bool

  function Verified(recovers: Oracle, a: Attempt): bool {
    recovers(a.challenge, a.signature, a.operator)
  }

  function Next(recovers: Oracle, m: Machine, s: Step): Machine {
    match s
    case Issue(key, operator, nonce, now) => m.(relay := IssueChallenge(m.relay, key, operator, nonce, now))
    case Begin(task, key, operator, challenge, signature, now) =>
      if BeginAccepts(m.relay, key, operator, challenge, now) then
        m.(tasks := m.tasks[task := Attempt(key, operator, challenge, signature)])
      else
        m.(relay := BeginConfirm(m.relay, key, challenge, now))
    case Finish(task) =>
      if task !in m.tasks then m
      else
        var a := m.tasks[task];
        Machine(if Verified(recovers, a) then FinishConfirm(m.relay, a.key, a.operator) else m.relay, m.tasks - {task})
    case Heartbeat(key, operator, at, intelligence) =>
      m.(relay := RecordHeartbeat(m.relay, key, operator, at, intelligence))
    case Stage(key, stage, intentId, at) => m.(relay := RecordStage(m.relay, key, stage, intentId, at))
    case Sweep(now, timeout) => m.(relay := SweepHeartbeats(m.relay, now, timeout))
  }

  function Exec(recovers: Oracle, steps: seq<Step>): Machine {
    if steps == [] then Machine(EMPTY_RELAY, map[])
    else Next(recovers, Exec(recovers, steps[..|steps| - 1]), steps[|steps| - 1])
  }

  lemma ExecStep(recovers: Oracle, steps: seq<Step>, s: Step)
    ensures Exec(recovers, steps + [s]) == Next(recovers, Exec(recovers, steps), s)
  {
    assert (steps + [s])[..|steps|] == steps;
  }
}
