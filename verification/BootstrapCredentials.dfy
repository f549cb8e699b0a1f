/** The two-stage bootstrap credential: a capability exchanged once for a session that is consumed once. Row numbers
    stand for the uuids in opaque tokens; a stored hash matches exactly the secret it was drawn with. */
module BootstrapCredentials {
  import opened Contracts

  const MAX_ATTEMPTS: nat := 5
  const MAX_TTL: int := 15 * 60 * SECOND

  /** A presented token: not of the opaque form, or naming a row and a secret. */
  datatype Token = Malformed | Token(id: nat, secret: string)

  datatype Capability = Capability(issuer: string, secret: string, createdAt: int, expiresAt: int,
                                   exchangedAt: Option<int>, revokedAt: Option<int>, failed: nat)
  datatype Session = Session(capability: nat, secret: string, createdAt: int, expiresAt: int,
                             consumedAt: Option<int>, revokedAt: Option<int>, failed: nat)

  datatype Vault = Vault(capabilities: seq<Capability>, sessions: seq<Session>)

  const EMPTY: Vault := Vault([], [])

  datatype Op =
    | Issue(principal: string, ttl: int, secret: string)
    | Exchange(token: Token, ttl: int, sessionSecret: string)
    | Validate(token: Token)
    | Consume(token: Token, principal: string)

  datatype Reply = Refused | Granted(token: Token, expiresAt: int) | Accepted

  predicate ValidTtl(ttl: int) {
    0 < ttl <= MAX_TTL
  }

  predicate ValidPrincipal(principal: string) {
    0 < |principal| <= 200 && forall i :: 0 <= i < |principal| ==> principal[i] >= ' '
  }

  predicate LiveCapability(c: Capability, now: int) {
    c.exchangedAt.None? && c.revokedAt.None? && c.expiresAt > now
  }

  predicate LiveSession(s: Session, now: int) {
    s.consumedAt.None? && s.revokedAt.None? && s.expiresAt > now
  }

  /** `_record_bootstrap_failure`. */
  function FailCapability(c: Capability, now: int): Capability {
    if c.revokedAt.Some? then c
    else c.(failed := if c.failed + 1 < MAX_ATTEMPTS then c.failed + 1 else MAX_ATTEMPTS,
            revokedAt := if c.failed + 1 >= MAX_ATTEMPTS then Some(now) else None)
  }

  function FailSession(s: Session, now: int): Session {
    if s.revokedAt.Some? then s
    else s.(failed := if s.failed + 1 < MAX_ATTEMPTS then s.failed + 1 else MAX_ATTEMPTS,
            revokedAt := if s.failed + 1 >= MAX_ATTEMPTS then Some(now) else None)
  }

  function RevokeCapabilities(cs: seq<Capability>, now: int): seq<Capability> {
    seq(|cs|, i requires 0 <= i < |cs| => if LiveCapability(cs[i], now) then cs[i].(revokedAt := Some(now)) else cs[i])
  }

  function RevokeSessions(ss: seq<Session>, now: int): seq<Session> {
    seq(|ss|, i requires 0 <= i < |ss| => if LiveSession(ss[i], now) then ss[i].(revokedAt := Some(now)) else ss[i])
  }

  predicate Usable(s: Session, now: int) {
    LiveSession(s, now) && s.failed < MAX_ATTEMPTS
  }

  /** `_authenticate_bootstrap_session`: the vault after any failure is recorded, and whether the token is accepted. */
  function Authenticate(v: Vault, token: Token, now: int): (Vault, bool) {
    if token.Malformed? || token.id >= |v.sessions| then (v, false)
    else
      var s := v.sessions[token.id];
      if s.secret != token.secret then (v.(sessions := v.sessions[token.id := FailSession(s, now)]), false)
      else (v, Usable(s, now))
  }

  function Do(v: Vault, now: int, op: Op): (Vault, Reply) {
    match op
    case Issue(principal, ttl, secret) =>
      if !ValidTtl(ttl) || !ValidPrincipal(principal) then (v, Refused)
      else
        var added := Capability(principal, secret, now, now + ttl, None, None, 0);
        (Vault(RevokeCapabilities(v.capabilities, now) + [added], RevokeSessions(v.sessions, now)),
         Granted(Token(|v.capabilities|, secret), now + ttl))
    case Exchange(token, ttl, secret) =>
      if !ValidTtl(ttl) || token.Malformed? || token.id >= |v.capabilities| then (v, Refused)
      else
        var c := v.capabilities[token.id];
        if c.secret != token.secret then
          (v.(capabilities := v.capabilities[token.id := FailCapability(c, now)]), Refused)
        else if !LiveCapability(c, now) || c.failed >= MAX_ATTEMPTS then (v, Refused)
        else
          var expires := if now + ttl < c.expiresAt then now + ttl else c.expiresAt;
          (Vault(v.capabilities[token.id := c.(exchangedAt := Some(now))],
                 v.sessions + [Session(token.id, secret, now, expires, None, None, 0)]),
           Granted(Token(|v.sessions|, secret), expires))
    case Validate(token) =>
      var (after, ok) := Authenticate(v, token, now);
      (after, if ok then Granted(token, v.sessions[token.id].expiresAt) else Refused)
    case Consume(token, principal) =>
      if !ValidPrincipal(principal) then (v, Refused)
      else
        var (after, ok) := Authenticate(v, token, now);
        if !ok then (after, Refused)
        else
          var spent := after.sessions[token.id].(consumedAt := Some(now));
          (after.(sessions := after.sessions[token.id := spent]), Accepted)
  }

  datatype Step = Step(now: int, op: Op)

  function Run(v: Vault, steps: seq<Step>): Vault {
    if |steps| == 0 then v
    else Do(Run(v, steps[..|steps| - 1]), steps[|steps| - 1].now, steps[|steps| - 1].op).0
  }

  // ---- the store's tables ---------------------------------------------------------------------------------------

  class CredentialStore {
    var capabilities: seq<Capability>
    var sessions: seq<Session>

    function Now(): Vault
      reads this
    {
      Vault(capabilities, sessions)
    }

    constructor ()
      ensures Now() == EMPTY
    {
      capabilities, sessions := [], [];
    }

    method IssueCapability(now: int, principal: string, ttl: int, secret: string) returns (reply: Reply)
      modifies this
      ensures (Now(), reply) == Do(old(Now()), now, Issue(principal, ttl, secret))
    {
      if !ValidTtl(ttl) || !ValidPrincipal(principal) { return Refused; }
      capabilities := RevokeCapabilities(capabilities, now);
      sessions := RevokeSessions(sessions, now);
      reply := Granted(Token(|capabilities|, secret), now + ttl);
      capabilities := capabilities + [Capability(principal, secret, now, now + ttl, None, None, 0)];
    }

    method ExchangeCapability(now: int, token: Token, ttl: int, secret: string) returns (reply: Reply)
      modifies this
      ensures (Now(), reply) == Do(old(Now()), now, Exchange(token, ttl, secret))
    {
      if !ValidTtl(ttl) || token.Malformed? || token.id >= |capabilities| { return Refused; }
      var row := capabilities[token.id];
      if row.secret != token.secret {
        capabilities := capabilities[token.id := FailCapability(row, now)];
        return Refused;
      }
      if row.exchangedAt.Some? || row.revokedAt.Some? || row.failed >= MAX_ATTEMPTS || row.expiresAt <= now {
        return Refused;
      }
      var expires := if now + ttl < row.expiresAt then now + ttl else row.expiresAt;
      capabilities := capabilities[token.id := row.(exchangedAt := Some(now))];
      reply := Granted(Token(|sessions|, secret), expires);
      sessions := sessions + [Session(token.id, secret, now, expires, None, None, 0)];
    }

    method AuthenticateSession(now: int, token: Token) returns (ok: bool)
      modifies this
      ensures (Now(), ok) == Authenticate(old(Now()), token, now)
    {
      if token.Malformed? || token.id >= |sessions| { return false; }
      var row := sessions[token.id];
      if row.secret != token.secret {
        sessions := sessions[token.id := FailSession(row, now)];
        return false;
      }
      ok := row.consumedAt.None? && row.revokedAt.None? && row.failed < MAX_ATTEMPTS && row.expiresAt > now;
    }

    method ValidateGrant(now: int, token: Token) returns (reply: Reply)
      modifies this
      ensures (Now(), reply) == Do(old(Now()), now, Validate(token))
    {
      var ok := AuthenticateSession(now, token);
      if !ok { return Refused; }
      reply := Granted(token, sessions[token.id].expiresAt);
    }

    method ConsumeGrant(now: int, token: Token, principal: string) returns (reply: Reply)
      modifies this
      ensures (Now(), reply) == Do(old(Now()), now, Consume(token, principal))
    {
      if !ValidPrincipal(principal) { return Refused; }
      var ok := AuthenticateSession(now, token);
      if !ok { return Refused; }
      sessions := sessions[token.id := sessions[token.id].(consumedAt := Some(now))];
      reply := Accepted;
    }

    /** `bootstrap_access_state`. */
    method AccessState(now: int) returns (capability: bool, session: bool)
      ensures (capability, session) == Access(Now(), now)
    {
      capability, session := false, false;
      for i := 0 to |capabilities|
        invariant capability <==> exists k :: 0 <= k < i && LiveCapability(capabilities[k], now)
      {
        capability := capability || LiveCapability(capabilities[i], now);
      }
      for i := 0 to |sessions|
        invariant session <==> exists k :: 0 <= k < i && LiveSession(sessions[k], now)
      {
        session := session || LiveSession(sessions[i], now);
      }
    }
  }

  function Access(v: Vault, now: int): (bool, bool) {
    (exists i :: 0 <= i < |v.capabilities| && LiveCapability(v.capabilities[i], now),
     exists i :: 0 <= i < |v.sessions| && LiveSession(v.sessions[i], now))
  }

  // ---- what every vault keeps -------------------------------------------------------------------------------------

  datatype Credential = OfCapability(id: nat) | OfSession(id: nat)

  predicate Live(v: Vault, c: Credential, now: int) {
    match c
    case OfCapability(i) => i < |v.capabilities| && LiveCapability(v.capabilities[i], now)
    case OfSession(i) => i < |v.sessions| && LiveSession(v.sessions[i], now)
  }

  ghost predicate AtMostOneLive(v: Vault, now: int) {
    forall c, d :: Live(v, c, now) && Live(v, d, now) ==> c == d
  }

  predicate CapabilityOk(c: Capability) {
    && c.failed <= MAX_ATTEMPTS && (c.failed == MAX_ATTEMPTS ==> c.revokedAt.Some?)
    && c.createdAt < c.expiresAt <= c.createdAt + MAX_TTL
  }

  /** A session belongs to an exchanged capability and ends no later than it does. */
  predicate SessionOk(v: Vault, s: Session) {
    && s.failed <= MAX_ATTEMPTS && (s.failed == MAX_ATTEMPTS ==> s.revokedAt.Some?)
    && s.capability < |v.capabilities|
    && v.capabilities[s.capability].exchangedAt == Some(s.createdAt)
    && s.expiresAt <= v.capabilities[s.capability].expiresAt
  }

  ghost predicate VaultOk(v: Vault) {
    && (forall i :: 0 <= i < |v.capabilities| ==> CapabilityOk(v.capabilities[i]))
    && (forall i :: 0 <= i < |v.sessions| ==> SessionOk(v, v.sessions[i]))
    && (forall i, j :: 0 <= i < j < |v.sessions| ==> v.sessions[i].capability != v.sessions[j].capability)
  }

  lemma IssueKeepsVault(v: Vault, now: int, op: Op)
    requires VaultOk(v) && op.Issue?
    ensures VaultOk(Do(v, now, op).0)
  {
    var after := Do(v, now, op).0;
    forall i | 0 <= i < |after.sessions| ensures SessionOk(after, after.sessions[i]) {
      assert SessionOk(v, v.sessions[i]);
      assert after.sessions[i].capability == v.sessions[i].capability;
    }
  }

  lemma ExchangeKeepsVault(v: Vault, now: int, op: Op)
    requires VaultOk(v) && op.Exchange?
    ensures VaultOk(Do(v, now, op).0)
  {
    var after := Do(v, now, op).0;
    forall i | 0 <= i < |after.sessions| ensures SessionOk(after, after.sessions[i]) {
      if i < |v.sessions| {
        assert SessionOk(v, v.sessions[i]);
      }
    }
    forall i | 0 <= i < |v.sessions| && |v.sessions| < |after.sessions|
      ensures after.sessions[i].capability != op.token.id
    {
      assert SessionOk(v, v.sessions[i]);
    }
  }

  lemma SessionCallKeepsVault(v: Vault, now: int, op: Op)
    requires VaultOk(v) && (op.Validate? || op.Consume?)
    ensures VaultOk(Do(v, now, op).0)
  {
    var after := Do(v, now, op).0;
    assert after.capabilities == v.capabilities && |after.sessions| == |v.sessions|;
    forall i | 0 <= i < |v.sessions|
      ensures SessionOk(after, after.sessions[i]) && after.sessions[i].capability == v.sessions[i].capability
    {
      SessionCallKeepsSession(v, now, op, i);
    }
  }

  lemma SessionCallKeepsSession(v: Vault, now: int, op: Op, i: nat)
    requires VaultOk(v) && (op.Validate? || op.Consume?) && i < |v.sessions|
    ensures var after := Do(v, now, op).0;
            && after.capabilities == v.capabilities && |after.sessions| == |v.sessions|
            && SessionOk(after, after.sessions[i]) && after.sessions[i].capability == v.sessions[i].capability
  {
    assert SessionOk(v, v.sessions[i]);
  }

  lemma StepKeepsVault(v: Vault, now: int, op: Op)
    requires VaultOk(v)
    ensures VaultOk(Do(v, now, op).0)
  {
    match op
    case Issue(_, _, _) => IssueKeepsVault(v, now, op);
    case Exchange(_, _, _) => ExchangeKeepsVault(v, now, op);
    case _ => SessionCallKeepsVault(v, now, op);
  }

  /** An issue read from a clock beyond `now`: what is live at `now` has expired by that reading, so it is not revoked,
      and the new capability is live at `now` too. */
  ghost predicate Doubles(v: Vault, step: Step, now: int) {
    && step.op.Issue? && Do(v, step.now, step.op).1.Granted? && step.now + step.op.ttl > now
    && exists c :: Live(v, c, now) && !Live(v, c, step.now)
  }

  /** Seen from any instant: an exchange passes liveness from the capability to the new session and nothing but an issue
      makes anything else live, so a step leaves two live exactly when it is such an issue. */
  lemma StepOneLiveExact(v: Vault, step: Step, now: int)
    requires AtMostOneLive(v, now)
    ensures AtMostOneLive(Do(v, step.now, step.op).0, now) <==> !Doubles(v, step, now)
  {
    var (after, reply) := Do(v, step.now, step.op);
    match step.op
    case Issue(_, _, _) =>
      if reply.Granted? { IssueOneLiveExact(v, step, now); }
    case Exchange(token, _, _) =>
      if reply.Granted? {
        assert forall c :: Live(after, c, now) && c != OfSession(|v.sessions|) ==> Live(v, c, now);
        assert !Live(after, OfCapability(token.id), now);
        assert Live(after, OfSession(|v.sessions|), now) ==> Live(v, OfCapability(token.id), now);
      } else {
        assert forall c :: Live(after, c, now) ==> Live(v, c, now);
      }
    case _ =>
      assert forall c :: Live(after, c, now) ==> Live(v, c, now);
  }

  lemma IssueOneLiveExact(v: Vault, step: Step, now: int)
    requires AtMostOneLive(v, now) && step.op.Issue? && Do(v, step.now, step.op).1.Granted?
    ensures AtMostOneLive(Do(v, step.now, step.op).0, now) <==> !Doubles(v, step, now)
  {
    var after, added := Do(v, step.now, step.op).0, OfCapability(|v.capabilities|);
    assert Live(after, added, now) <==> step.now + step.op.ttl > now;
    assert forall c :: c != added ==> (Live(after, c, now) <==> Live(v, c, now) && !Live(v, c, step.now));
    assert !Live(v, added, now);
  }

  /** At no point of the run are two credentials live at `now`. */
  ghost predicate NeverTwoLive(steps: seq<Step>, now: int) {
    forall k :: 0 <= k <= |steps| ==> AtMostOneLive(Run(EMPTY, steps[..k]), now)
  }

  ghost predicate NoneDoubles(steps: seq<Step>, now: int) {
    forall k :: 0 <= k < |steps| ==> !Doubles(Run(EMPTY, steps[..k]), steps[k], now)
  }

  lemma {:induction false} NeverTwoLiveSnoc(steps: seq<Step>, now: int, n: nat)
    requires |steps| == n + 1
    ensures NeverTwoLive(steps, now) <==> NeverTwoLive(steps[..n], now) && AtMostOneLive(Run(EMPTY, steps), now)
  {
    assert steps[..n + 1] == steps;
    assert forall k :: 0 <= k <= n ==> steps[..n][..k] == steps[..k];
  }

  lemma {:induction false} NoneDoublesSnoc(steps: seq<Step>, now: int, n: nat)
    requires |steps| == n + 1
    ensures NoneDoubles(steps, now) <==>
            NoneDoubles(steps[..n], now) && !Doubles(Run(EMPTY, steps[..n]), steps[n], now)
  {
    assert forall k :: 0 <= k < n ==> steps[..n][..k] == steps[..k] && steps[..n][k] == steps[k];
  }

  /** Exactly which runs ever leave two credentials live at `now`, whatever their clocks read: those with an issue that
      doubles. */
  lemma {:induction false} OneLiveExact(steps: seq<Step>, now: int)
    ensures NeverTwoLive(steps, now) <==> NoneDoubles(steps, now)
  {
    if |steps| > 0 {
      var n := |steps| - 1;
      OneLiveExact(steps[..n], now);
      NeverTwoLiveSnoc(steps, now, n);
      NoneDoublesSnoc(steps, now, n);
      if NeverTwoLive(steps[..n], now) { LastStepOneLive(steps, now, n); }
    }
  }

  lemma {:induction false} LastStepOneLive(steps: seq<Step>, now: int, n: nat)
    requires |steps| == n + 1 && NeverTwoLive(steps[..n], now)
    ensures AtMostOneLive(Run(EMPTY, steps), now) <==> !Doubles(Run(EMPTY, steps[..n]), steps[n], now)
  {
    assert steps[..n][..n] == steps[..n];
    StepOneLiveExact(Run(EMPTY, steps[..n]), steps[n], now);
  }

  /** At every moment that no clock reading so far exceeds, at most one credential is live, although the readings
      themselves may have gone back and forth; and every session ends within its capability's fifteen minutes. */
  lemma {:induction false} OneLiveCredential(steps: seq<Step>, now: int)
    requires forall k :: 0 <= k < |steps| ==> steps[k].now <= now
    ensures var v := Run(EMPTY, steps);
            && AtMostOneLive(v, now)
            && VaultOk(v)
            && forall i :: 0 <= i < |v.sessions| ==>
                 (v.sessions[i].capability < |v.capabilities|
                  && v.sessions[i].expiresAt <= v.capabilities[v.sessions[i].capability].createdAt + MAX_TTL)
  {
    if |steps| > 0 {
      var n := |steps| - 1;
      OneLiveCredential(steps[..n], now);
      StepKeepsVault(Run(EMPTY, steps[..n]), steps[n].now, steps[n].op);
      StepOneLiveExact(Run(EMPTY, steps[..n]), steps[n], now);
    }
    var v := Run(EMPTY, steps);
    assert forall i :: 0 <= i < |v.sessions| ==> SessionOk(v, v.sessions[i]);
  }

  /** At a moment before some reading two credentials can be live at once: the second issue revokes nothing, because the
      first capability has expired by then, and the clock goes back to before that. */
  lemma ClockGoingBack()
    ensures var v := Run(EMPTY, [Step(0, Issue("p", 10, "a")), Step(20, Issue("p", 10, "b"))]);
            !AtMostOneLive(v, 5)
  {
    var first, second := Step(0, Issue("p", 10, "a")), Step(20, Issue("p", 10, "b"));
    var steps := [first, second];
    assert steps[..1] == [first] && steps[..1][..0] == [];
    var v1 := Do(EMPTY, 0, first.op).0;
    assert Run(EMPTY, [first]) == v1;
    var v := Do(v1, 20, second.op).0;
    assert Run(EMPTY, steps) == v;
    assert v.capabilities[0] == v1.capabilities[0];
    assert Live(v, OfCapability(0), 5) && Live(v, OfCapability(1), 5);
  }

  // ---- single use, and five failures ---------------------------------------------------------------------------

  /** A capability row is spent or revoked for good, and never changes its secret or expiry. */
  ghost predicate CapabilityReach(c: Capability, d: Capability) {
    && d.secret == c.secret && d.expiresAt == c.expiresAt && d.createdAt == c.createdAt
    && (c.exchangedAt.Some? ==> d.exchangedAt == c.exchangedAt)
    && (c.revokedAt.Some? ==> d.revokedAt == c.revokedAt)
  }

  ghost predicate SessionReach(s: Session, t: Session) {
    && t.secret == s.secret && t.expiresAt == s.expiresAt && t.capability == s.capability
    && (s.consumedAt.Some? ==> t.consumedAt == s.consumedAt)
    && (s.revokedAt.Some? ==> t.revokedAt == s.revokedAt)
  }

  ghost predicate Evolves(v: Vault, w: Vault) {
    && |v.capabilities| <= |w.capabilities| && |v.sessions| <= |w.sessions|
    && (forall i :: 0 <= i < |v.capabilities| ==> CapabilityReach(v.capabilities[i], w.capabilities[i]))
    && (forall i :: 0 <= i < |v.sessions| ==> SessionReach(v.sessions[i], w.sessions[i]))
  }

  lemma StepEvolves(v: Vault, now: int, op: Op)
    ensures Evolves(v, Do(v, now, op).0)
  {
  }

  lemma {:induction false} RunEvolves(v: Vault, steps: seq<Step>)
    ensures Evolves(v, Run(v, steps))
  {
    if |steps| > 0 {
      var n := |steps| - 1;
      RunEvolves(v, steps[..n]);
      StepEvolves(Run(v, steps[..n]), steps[n].now, steps[n].op);
    }
  }

  /** After a capability has been exchanged, or a session consumed, no later call with it succeeds, whatever happens in
      between and whatever the clocks say. */
  lemma {:induction false} UsedOnce(v: Vault, now: int, op: Op, steps: seq<Step>, later: int, again: Op)
    requires Do(v, now, op).1 != Refused
    requires (op.Exchange? && again.Exchange? && again.token.Token? && again.token.id == op.token.id)
          || (op.Consume? && (again.Consume? || again.Validate?) && again.token.Token? && again.token.id == op.token.id)
    ensures Do(Run(Do(v, now, op).0, steps), later, again).1 == Refused
  {
    RunEvolves(Do(v, now, op).0, steps);
  }

  /** The step presents a wrong secret for an existing credential. */
  predicate Wrong(v: Vault, c: Credential, op: Op) {
    match c
    case OfCapability(i) =>
      op.Exchange? && ValidTtl(op.ttl) && op.token.Token? && op.token.id == i < |v.capabilities|
      && op.token.secret != v.capabilities[i].secret
    case OfSession(i) =>
      (op.Validate? || (op.Consume? && ValidPrincipal(op.principal)))
      && op.token.Token? && op.token.id == i < |v.sessions|
      && op.token.secret != v.sessions[i].secret
  }

  function WrongTries(v: Vault, steps: seq<Step>, c: Credential): nat {
    if |steps| == 0 then 0
    else
      var n := |steps| - 1;
      WrongTries(v, steps[..n], c) + (if Wrong(Run(v, steps[..n]), c, steps[n].op) then 1 else 0)
  }

  predicate Revoked(v: Vault, c: Credential) {
    match c
    case OfCapability(i) => i < |v.capabilities| && v.capabilities[i].revokedAt.Some?
    case OfSession(i) => i < |v.sessions| && v.sessions[i].revokedAt.Some?
  }

  function Failures(v: Vault, c: Credential): nat {
    match c
    case OfCapability(i) => if i < |v.capabilities| then v.capabilities[i].failed else 0
    case OfSession(i) => if i < |v.sessions| then v.sessions[i].failed else 0
  }

  lemma StepCountsFailure(v: Vault, now: int, op: Op, c: Credential)
    requires VaultOk(v)
    ensures var after := Do(v, now, op).0;
            && (Revoked(v, c) ==> Revoked(after, c))
            && (!Revoked(after, c) ==> Failures(after, c) == Failures(v, c) + (if Wrong(v, c, op) then 1 else 0))
  {
  }

  /** Wrong secrets are counted over the whole run until the credential is revoked, so after the fifth it is. */
  lemma {:induction false} FiveFailuresRevoke(steps: seq<Step>, c: Credential)
    ensures var v := Run(EMPTY, steps);
            && VaultOk(v)
            && (!Revoked(v, c) ==> Failures(v, c) == WrongTries(EMPTY, steps, c))
            && (WrongTries(EMPTY, steps, c) >= MAX_ATTEMPTS ==> Revoked(v, c) && forall now :: !Live(v, c, now))
  {
    if |steps| > 0 {
      var n := |steps| - 1;
      FiveFailuresRevoke(steps[..n], c);
      StepCountsFailure(Run(EMPTY, steps[..n]), steps[n].now, steps[n].op, c);
      StepKeepsVault(Run(EMPTY, steps[..n]), steps[n].now, steps[n].op);
    }
    var v := Run(EMPTY, steps);
    match c {
      case OfCapability(i) => assert i < |v.capabilities| ==> CapabilityOk(v.capabilities[i]);
      case OfSession(i) => assert i < |v.sessions| ==> SessionOk(v, v.sessions[i]);
    }
  }

  // ---- a grant lost between validation and consumption -----------------------------------------------------------

  predicate Open(v: Vault, id: nat) {
    id < |v.sessions| && v.sessions[id].consumedAt.None? && v.sessions[id].revokedAt.None?
    && v.sessions[id].failed < MAX_ATTEMPTS
  }

  /** The step closes the session: a new issue while it is unexpired, its consumption, or its fifth wrong secret. */
  predicate Spoils(v: Vault, step: Step, id: nat)
    requires id < |v.sessions|
  {
    match step.op
    case Issue(principal, ttl, _) => ValidTtl(ttl) && ValidPrincipal(principal) && v.sessions[id].expiresAt > step.now
    case Consume(token, _) =>
      (token.Token? && token.id == id && Do(v, step.now, step.op).1.Accepted?) || FifthWrong(v, step.op, id)
    case _ => FifthWrong(v, step.op, id)
  }

  predicate FifthWrong(v: Vault, op: Op, id: nat)
    requires id < |v.sessions|
  {
    Wrong(v, OfSession(id), op) && v.sessions[id].failed + 1 >= MAX_ATTEMPTS
  }

  lemma StepSpoils(v: Vault, step: Step, id: nat)
    requires id < |v.sessions|
    ensures Open(Do(v, step.now, step.op).0, id) <==> Open(v, id) && !Spoils(v, step, id)
  {
  }

  /** Some step of the run spoils the session. */
  ghost predicate Spoiled(v: Vault, id: nat, steps: seq<Step>)
    requires id < |v.sessions|
  {
    exists k :: 0 <= k < |steps| && SpoiledAt(v, id, steps, k)
  }

  predicate SpoiledAt(v: Vault, id: nat, steps: seq<Step>, k: nat)
    requires k < |steps|
  {
    id < |Run(v, steps[..k]).sessions| && Spoils(Run(v, steps[..k]), steps[k], id)
  }

  lemma {:induction false} SpoiledSnoc(v: Vault, id: nat, steps: seq<Step>, n: nat)
    requires id < |v.sessions| && |steps| == n + 1
    ensures Spoiled(v, id, steps) <==> Spoiled(v, id, steps[..n]) || SpoiledAt(v, id, steps, n)
  {
    assert forall k :: 0 <= k < n ==> steps[..n][..k] == steps[..k];
    if Spoiled(v, id, steps[..n]) {
      var k :| 0 <= k < n && SpoiledAt(v, id, steps[..n], k);
      assert SpoiledAt(v, id, steps, k);
    }
    if k :| 0 <= k < n && SpoiledAt(v, id, steps, k) {
      assert SpoiledAt(v, id, steps[..n], k);
    }
  }

  lemma {:induction false} RunSpoils(v: Vault, id: nat, steps: seq<Step>)
    requires Open(v, id)
    ensures id < |Run(v, steps).sessions|
    ensures Open(Run(v, steps), id) <==> !Spoiled(v, id, steps)
  {
    if |steps| > 0 {
      var n := |steps| - 1;
      var before := Run(v, steps[..n]);
      RunSpoils(v, id, steps[..n]);
      StepSpoils(before, steps[n], id);
      SessionStays(before, steps[n], id);
      SpoiledSnoc(v, id, steps, n);
    }
  }

  lemma SessionStays(v: Vault, step: Step, id: nat)
    requires id < |v.sessions|
    ensures id < |Do(v, step.now, step.op).0.sessions|
  {
  }

  ghost predicate Lost(v: Vault, id: nat, steps: seq<Step>, end: int, principal: string)
    requires id < |v.sessions|
  {
    !ValidPrincipal(principal) || v.sessions[id].expiresAt <= end || Spoiled(v, id, steps)
  }

  /** A session that validated is refused at a later consumption exactly when the principal is malformed, it has
      expired, or a step in between spoiled it. */
  lemma {:induction false} GrantLost(v: Vault, start: int, token: Token, steps: seq<Step>, end: int, principal: string)
    requires Do(v, start, Validate(token)).1.Granted?
    ensures token.Token? && token.id < |v.sessions|
    ensures Do(Run(Do(v, start, Validate(token)).0, steps), end, Consume(token, principal)).1.Accepted?
            <==> !Lost(v, token.id, steps, end, principal)
  {
    assert Do(v, start, Validate(token)).0 == v;
    RunSpoils(v, token.id, steps);
    RunEvolves(v, steps);
    assert SessionReach(v.sessions[token.id], Run(v, steps).sessions[token.id]);
  }

  /** The reported access state is true exactly when some correct token would be accepted now. */
  lemma {:induction false} AccessStateExact(steps: seq<Step>, now: int)
    ensures var v := Run(EMPTY, steps);
            && (Access(v, now).0 <==>
                  exists i: nat :: i < |v.capabilities|
                    && Do(v, now, Exchange(Token(i, v.capabilities[i].secret), SECOND, "")).1.Granted?)
            && (Access(v, now).1 <==>
                  exists i: nat :: i < |v.sessions| && Do(v, now, Validate(Token(i, v.sessions[i].secret))).1.Granted?)
  {
    var v := Run(EMPTY, steps);
    FiveFailuresRevoke(steps, OfCapability(0));
    forall i: nat | i < |v.capabilities|
      ensures LiveCapability(v.capabilities[i], now) <==>
              Do(v, now, Exchange(Token(i, v.capabilities[i].secret), SECOND, "")).1.Granted?
    {
      assert CapabilityOk(v.capabilities[i]);
    }
    forall i: nat | i < |v.sessions|
      ensures LiveSession(v.sessions[i], now) <==> Do(v, now, Validate(Token(i, v.sessions[i].secret))).1.Granted?
    {
      assert SessionOk(v, v.sessions[i]);
    }
  }
}
