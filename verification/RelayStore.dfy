/** The relay's in-memory store, and the snapshot streams the console watches it through. */
module RelayStore {
  import opened Options
  import opened RelayText
  import opened RelaySteps
  import RelayInvariants

  /** The streams listening under a token. */
  function AudienceOf(listeners: map<string, set<nat>>, token: string): set<nat> {
    if token in listeners then listeners[token] else {}
  }

  /** Every open stream in `audience` is sent one more snapshot; no other stream is. */
  function Delivered(sent: map<nat, seq<Telemetry>>, audience: set<nat>, state: Telemetry): map<nat, seq<Telemetry>> {
    map l | l in sent :: if l in audience then sent[l] + [state] else sent[l]
  }

  /** A stream under `token` watches the vault of that token, and the last thing it was sent is that vault's state. */
  ghost predicate Current(records: map<string, Telemetry>, sent: map<nat, seq<Telemetry>>, watches: map<nat, VaultKey>,
                          token: string, l: nat)
  {
    && l in sent && l in watches && Token(watches[l]) == token
    && sent[l] != [] && sent[l][|sent[l]| - 1] == StateOf(records, watches[l])
  }

  ghost predicate AllCurrent(records: map<string, Telemetry>, listeners: map<string, set<nat>>,
                             sent: map<nat, seq<Telemetry>>, watches: map<nat, VaultKey>)
  {
    forall t, l :: l in AudienceOf(listeners, t) ==> Current(records, sent, watches, t, l)
  }

  /** Changing one vault's record and pushing it to that vault's listeners alone leaves every stream current. */
  lemma PushKeepsCurrent(
      records: map<string, Telemetry>, listeners: map<string, set<nat>>,
      sent: map<nat, seq<Telemetry>>, watches: map<nat, VaultKey>, token: string, next: Telemetry)
    requires AllCurrent(records, listeners, sent, watches)
    ensures AllCurrent(records[token := next], listeners, Delivered(sent, AudienceOf(listeners, token), next), watches)
  {
    hide Token;
    var after := Delivered(sent, AudienceOf(listeners, token), next);
    forall t, l | l in AudienceOf(listeners, t) ensures Current(records[token := next], after, watches, t, l) {
      assert Current(records, sent, watches, t, l);
      assert l in AudienceOf(listeners, token) ==> Current(records, sent, watches, token, l);
    }
  }

  /**
   * What a sweep has written once the vaults outside `todo` are done: an overdue vault's listeners
   * its offline snapshot, everyone else nothing.
   */
  ghost predicate SweptDelivery(
      was: map<string, Telemetry>, listeners: map<string, set<nat>>, before: map<nat, seq<Telemetry>>,
      after: map<nat, seq<Telemetry>>, now: int, timeout: int, todo: set<string>)
  {
    && after.Keys == before.Keys
    && (forall t, l :: l in AudienceOf(listeners, t) && l in before ==>
          after[l] == if t in was && t !in todo && Overdue(was[t], now, timeout)
                      then before[l] + [was[t].(online := false)] else before[l])
    && (forall l :: l in before && (forall t :: l !in AudienceOf(listeners, t)) ==> after[l] == before[l])
  }

  lemma NothingSwept(was: map<string, Telemetry>, listeners: map<string, set<nat>>, sent: map<nat, seq<Telemetry>>,
                     now: int, timeout: int)
    ensures SweptDelivery(was, listeners, sent, sent, now, timeout, was.Keys)
  {}

  ghost predicate OneTokenEach(listeners: map<string, set<nat>>) {
    forall t, u, l :: l in AudienceOf(listeners, t) && l in AudienceOf(listeners, u) ==> t == u
  }

  lemma CurrentMeansOneToken(records: map<string, Telemetry>, listeners: map<string, set<nat>>,
                             sent: map<nat, seq<Telemetry>>, watches: map<nat, VaultKey>)
    requires AllCurrent(records, listeners, sent, watches)
    ensures OneTokenEach(listeners)
  {
    hide Token, StateOf;
    forall t, u, l | l in AudienceOf(listeners, t) && l in AudienceOf(listeners, u) ensures t == u {
      assert Current(records, sent, watches, t, l) && Current(records, sent, watches, u, l);
    }
  }

  lemma SweepOneVault(
      was: map<string, Telemetry>, listeners: map<string, set<nat>>, before: map<nat, seq<Telemetry>>,
      after: map<nat, seq<Telemetry>>, now: int, timeout: int, todo: set<string>, token: string)
    requires OneTokenEach(listeners) && token in todo && token in was
    requires SweptDelivery(was, listeners, before, after, now, timeout, todo)
    ensures SweptDelivery(was, listeners, before,
                          if Overdue(was[token], now, timeout)
                          then Delivered(after, AudienceOf(listeners, token), was[token].(online := false)) else after,
                          now, timeout, todo - {token})
  {}

  lemma OverdueTimedOut(was: map<string, Telemetry>, now: int, timeout: int)
    ensures forall t :: t in was ==> (Overdue(was[t], now, timeout) <==> RelayInvariants.TimedOut(was[t], now, timeout))
  {}

  lemma OfflineDelivered(was: map<string, Telemetry>, listeners: map<string, set<nat>>, before: map<nat, seq<Telemetry>>,
                         after: map<nat, seq<Telemetry>>, now: int, timeout: int)
    requires SweptDelivery(was, listeners, before, after, now, timeout, {})
    ensures forall t, l :: t in was && l in AudienceOf(listeners, t) && l in before ==>
              l in after && after[l] == before[l] + if RelayInvariants.TimedOut(was[t], now, timeout)
                                                    then [was[t].(online := false)] else []
  {}

  class Store {
    const heartbeatTimeout: int
    var records: map<string, Telemetry>
    var pending: map<string, Challenge>
    /** Stream ids listening under each token. */
    var listeners: map<string, set<nat>>
    /** Every snapshot written to each stream, oldest first. */
    var sent: map<nat, seq<Telemetry>>
    var streams: nat
    /** The vault each stream was opened for. */
    ghost var watches: map<nat, VaultKey>

    ghost function State(): Relay
      reads this
    {
      Relay(records, pending)
    }

    function Audience(token: string): set<nat>
      reads this
    {
      AudienceOf(listeners, token)
    }

    ghost predicate Valid()
      reads this
    {
      && (forall l :: l in sent ==> l < streams)
      && AllCurrent(records, listeners, sent, watches)
    }

    constructor (heartbeatTimeout: int)
      ensures Valid() && State() == EMPTY_RELAY && this.heartbeatTimeout == heartbeatTimeout
      ensures sent == map[] && listeners == map[]
    {
      this.heartbeatTimeout := heartbeatTimeout;
      records, pending, listeners, sent, streams, watches := map[], map[], map[], map[], 0, map[];
    }

    // ----- the emit path ---------------------------------------------------------

    /** One callback per listener under the token, in whatever order the set yields them. */
    method Emit(token: string, state: Telemetry)
      requires Audience(token) <= sent.Keys
      modifies `sent
      ensures sent == Delivered(old(sent), Audience(token), state)
    {
      var todo := Audience(token);
      ghost var done: set<nat> := {};
      while todo != {}
        invariant todo + done == Audience(token) && todo !! done
        invariant sent == Delivered(old(sent), done, state)
      {
        var l :| l in todo;
        sent := sent[l := sent[l] + [state]];
        todo, done := todo - {l}, done + {l};
      }
    }

    method Update(key: VaultKey, next: Telemetry)
      requires Valid()
      modifies `records, `sent
      ensures Valid()
      ensures records == old(records)[Token(key) := next]
      ensures sent == Delivered(old(sent), Audience(Token(key)), next)
    {
      hide Token;
      PushKeepsCurrent(records, listeners, sent, watches, Token(key), next);
      records := records[Token(key) := next];
      assert forall l :: l in Audience(Token(key)) ==> old(Current(records, sent, watches, Token(key), l));
      Emit(Token(key), next);
    }

    // ----- pairing ---------------------------------------------------------------

    method IssueChallenge(key: VaultKey, operator: string, nonce: string, now: int) returns (challenge: string, expiresAt: int)
      requires Valid()
      modifies `pending
      ensures Valid()
      ensures State() == RelaySteps.IssueChallenge(old(State()), key, operator, nonce, now)
      ensures challenge == pending[Token(key)].message && expiresAt == now + CHALLENGE_TTL_SECONDS
    {
      expiresAt := now + CHALLENGE_TTL_SECONDS;
      challenge := ChallengeMessage(key, operator, nonce, now, expiresAt);
      pending := pending[Token(key) := Challenge(challenge, Lower(operator), expiresAt)];
    }

    /** Everything a confirmation does before it suspends: `proceed` is whether the signature gets looked at. */
    method BeginConfirm(key: VaultKey, operator: string, challenge: string, now: int) returns (proceed: bool)
      requires Valid()
      modifies `pending
      ensures Valid()
      ensures proceed == BeginAccepts(old(State()), key, operator, challenge, now)
      ensures State() == if proceed then old(State()) else RelaySteps.BeginConfirm(old(State()), key, challenge, now)
    {
      var token := Token(key);
      if token !in pending || pending[token].message != challenge {
        return false;
      }
      if pending[token].expiresAt < now {
        pending := pending - {token};
        return false;
      }
      return pending[token].operatorAddress == Lower(operator);
    }

    /** What it does when verification answers. */
    method FinishConfirm(key: VaultKey, operator: string, verified: bool) returns (ok: bool)
      requires Valid()
      modifies `records, `pending, `sent
      ensures Valid() && ok == verified
      ensures State() == if verified then RelaySteps.FinishConfirm(old(State()), key, operator) else old(State())
      ensures sent == if verified
                      then Delivered(old(sent), Audience(Token(key)), StateOf(records, key))
                      else old(sent)
    {
      if !verified {
        return false;
      }
      pending := pending - {Token(key)};
      var state := StateOf(records, key);
      Update(key, state.(operatorAddress := Some(Lower(operator)), paired := true));
      return true;
    }

    // ----- liveness and stages -----------------------------------------------------

    method RecordHeartbeat(key: VaultKey, operator: string, at: int, intelligence: Option<Intelligence>) returns (ok: bool)
      requires Valid()
      modifies `records, `sent
      ensures Valid()
      ensures ok == IsPairedTo(old(State()), key, operator)
      ensures State() == RelaySteps.RecordHeartbeat(old(State()), key, operator, at, intelligence)
      ensures sent == if ok then Delivered(old(sent), Audience(Token(key)), StateOf(records, key)) else old(sent)
    {
      var state := StateOf(records, key);
      if !(state.paired && state.operatorAddress == Some(Lower(operator))) {
        return false;
      }
      Update(key, state.(online := true, lastHeartbeatAt := Some(at), intelligence := intelligence));
      return true;
    }

    method RecordStageEvent(key: VaultKey, stage: string, intentId: string, at: int) returns (result: StageResult)
      requires Valid()
      modifies `records, `sent
      ensures Valid()
      ensures result == StageVerdict(old(State()), key, stage)
      ensures State() == RecordStage(old(State()), key, stage, intentId, at)
      ensures sent == if result == Accepted
                      then Delivered(old(sent), Audience(Token(key)), StateOf(records, key))
                      else old(sent)
    {
      if stage !in TELEMETRY_STAGES {
        return UnacceptedStage;
      }
      var state := StateOf(records, key);
      if !state.paired {
        return NotPaired;
      }
      Update(key, state.(online := true, lastHeartbeatAt := Some(at),
                         stage := Some(stage), stageAt := Some(at), intentId := Some(intentId)));
      return Accepted;
    }

    method SweepHeartbeats(now: int)
      requires Valid()
      modifies `records, `sent
      ensures Valid()
      ensures State() == RelaySteps.SweepHeartbeats(old(State()), now, heartbeatTimeout)
      ensures SweptDelivery(old(records), listeners, old(sent), sent, now, heartbeatTimeout, {})
      ensures forall t :: t in old(records) ==>
                && t in records
                && (old(records)[t].online && !records[t].online <==> RelayInvariants.TimedOut(old(records)[t], now, heartbeatTimeout))
      ensures forall t, l :: t in old(records) && l in Audience(t) && l in old(sent) ==>
                sent[l] == old(sent)[l] + if RelayInvariants.TimedOut(old(records)[t], now, heartbeatTimeout)
                                          then [old(records)[t].(online := false)] else []
    {
      hide Token, StateOf, SweptDelivery, Delivered, AllCurrent;
      ghost var was, before := records, sent;
      CurrentMeansOneToken(records, listeners, sent, watches);
      NothingSwept(was, listeners, before, now, heartbeatTimeout);
      var todo := records.Keys;
      while todo != {}
        invariant todo <= was.Keys == records.Keys
        invariant forall t :: t in was ==>
                    records[t] == if t in todo then was[t] else Swept(was[t], now, heartbeatTimeout)
        invariant Valid()
        invariant SweptDelivery(was, listeners, before, sent, now, heartbeatTimeout, todo)
      {
        var token :| token in todo;
        SweepOneVault(was, listeners, before, sent, now, heartbeatTimeout, todo, token);
        todo := todo - {token};
        var state := records[token];
        if state.paired && state.online && state.lastHeartbeatAt.Some? && now - state.lastHeartbeatAt.value > heartbeatTimeout {
          SetOffline(token);
        }
      }
      OverdueTimedOut(was, now, heartbeatTimeout);
      OfflineDelivered(was, listeners, before, sent, now, heartbeatTimeout);
    }

    method SetOffline(token: string)
      requires Valid() && token in records
      modifies `records, `sent
      ensures Valid()
      ensures records == old(records)[token := old(records)[token].(online := false)]
      ensures sent == Delivered(old(sent), Audience(token), records[token])
    {
      hide Token;
      var next := records[token].(online := false);
      PushKeepsCurrent(records, listeners, sent, watches, token, next);
      records := records[token := next];
      assert forall l :: l in Audience(token) ==> old(Current(records, sent, watches, token, l));
      Emit(token, next);
    }

    // ----- streams -----------------------------------------------------------------

    method Subscribe(key: VaultKey, l: nat)
      modifies `listeners
      ensures listeners == old(listeners)[Token(key) := old(Audience(Token(key))) + {l}]
    {
      var token := Token(key);
      var audience := Audience(token);
      listeners := listeners[token := audience + {l}];
    }

    /** Opening a stream writes the current snapshot first and subscribes after, with nothing in between. */
    method OpenStream(key: VaultKey) returns (l: nat)
      requires Valid()
      modifies `listeners, `sent, `streams, `watches
      ensures Valid()
      ensures l !in old(sent) && sent == old(sent)[l := [StateOf(records, key)]]
      ensures listeners == old(listeners)[Token(key) := old(Audience(Token(key))) + {l}]
    {
      hide Token;
      l, streams := streams, streams + 1;
      watches := watches[l := key];
      sent := sent[l := [StateOf(records, key)]];
      Subscribe(key, l);
      forall t, k | k in AudienceOf(listeners, t) ensures Current(records, sent, watches, t, k) {
        assert k in old(AudienceOf(listeners, t)) ==> old(Current(records, sent, watches, t, k));
      }
    }

    /** A closed stream stops listening and is sent nothing more. */
    method CloseStream(key: VaultKey, l: nat)
      requires Valid()
      modifies `listeners
      ensures Valid()
      ensures Audience(Token(key)) == old(Audience(Token(key))) - {l}
      ensures forall t :: t != Token(key) ==> Audience(t) == old(Audience(t))
    {
      hide Token;
      if Token(key) in listeners {
        listeners := listeners[Token(key) := listeners[Token(key)] - {l}];
      }
      forall t, k | k in AudienceOf(listeners, t) ensures Current(records, sent, watches, t, k) {
        assert k in old(AudienceOf(listeners, t));
        assert old(Current(records, sent, watches, t, k));
      }
    }
  }
}
