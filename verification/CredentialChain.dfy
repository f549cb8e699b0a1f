/** The whole way of a credential: the token an issue answers with is the one that can be exchanged, the token an
    exchange answers with is the one that validates and can be consumed, each until its expiry, exactly unless a step in
    between spoils it. */
module CredentialChain {
  import opened Contracts
  import opened BootstrapCredentials

  predicate Lifetime(ttl: int) {
    0 < ttl <= 900_000_000
  }

  predicate Printable(principal: string) {
    1 <= |principal| <= 200 && forall i :: 0 <= i < |principal| ==> principal[i] >= ' '
  }

  function Earliest(a: int, b: int): int {
    if a < b then a else b
  }

  // ---- one call --------------------------------------------------------------------------------------------

  /** An issue is granted exactly for an admissible lifetime and principal, and the token it answers with can be
      exchanged at exactly the moments before the expiry it answers with. */
  lemma IssuedTokenWorks(v: Vault, now: int, principal: string, ttl: int, secret: string)
    ensures var (after, reply) := Do(v, now, Issue(principal, ttl, secret));
            && (reply.Granted? <==> Lifetime(ttl) && Printable(principal))
            && (!reply.Granted? ==> reply == Refused && after == v)
            && (reply.Granted? ==>
                  && reply.expiresAt == now + ttl
                  && forall t, newTtl, newSecret :: Lifetime(newTtl) ==>
                       (Do(after, t, Exchange(reply.token, newTtl, newSecret)).1.Granted? <==> t < now + ttl))
  {
  }

  /** An issue adds one fresh capability and revokes every credential still live at its reading, and no other. */
  lemma IssueLeaves(v: Vault, now: int, principal: string, ttl: int, secret: string)
    requires Lifetime(ttl) && Printable(principal)
    ensures var after := Do(v, now, Issue(principal, ttl, secret)).0;
            && |after.capabilities| == |v.capabilities| + 1 && |after.sessions| == |v.sessions|
            && after.capabilities[|v.capabilities|] == Capability(principal, secret, now, now + ttl, None, None, 0)
            && (forall i :: 0 <= i < |v.capabilities| ==>
                  var row := v.capabilities[i];
                  after.capabilities[i] == if row.exchangedAt.None? && row.revokedAt.None? && now < row.expiresAt
                                           then row.(revokedAt := Some(now)) else row)
            && (forall i :: 0 <= i < |v.sessions| ==>
                  var row := v.sessions[i];
                  after.sessions[i] == if row.consumedAt.None? && row.revokedAt.None? && now < row.expiresAt
                                       then row.(revokedAt := Some(now)) else row)
  {
  }

  /** What makes an exchange succeed, by the row the token names. */
  predicate Exchangeable(v: Vault, now: int, token: Token) {
    && token.Token? && token.id < |v.capabilities|
    && var row := v.capabilities[token.id];
    && row.secret == token.secret && row.exchangedAt.None? && row.revokedAt.None? && row.failed < 5
    && now < row.expiresAt
  }

  /** The token an exchange answers with validates, and can be consumed, at exactly the moments before the expiry it
      answers with: the earlier of the lifetime asked for and the capability's own expiry. */
  lemma ExchangedTokenWorks(v: Vault, now: int, token: Token, ttl: int, secret: string)
    ensures var (after, reply) := Do(v, now, Exchange(token, ttl, secret));
            && (reply.Granted? <==> Lifetime(ttl) && Exchangeable(v, now, token))
            && (!reply.Granted? ==> reply == Refused)
            && (reply.Granted? ==>
                  && reply.expiresAt == Earliest(now + ttl, v.capabilities[token.id].expiresAt)
                  && (forall t :: Do(after, t, Validate(reply.token))
                                  == (after, if t < reply.expiresAt then reply else Refused))
                  && (forall t, principal :: Printable(principal) ==>
                        (Do(after, t, Consume(reply.token, principal)).1.Accepted? <==> t < reply.expiresAt)))
  {
  }

  /** An exchange marks its capability and adds one session; a wrong secret is counted, and the fifth revokes; nothing
      else changes anything. */
  lemma ExchangeLeaves(v: Vault, now: int, token: Token, ttl: int, secret: string)
    ensures var (after, reply) := Do(v, now, Exchange(token, ttl, secret));
            if reply.Granted? then
              && after.capabilities
                 == v.capabilities[token.id := v.capabilities[token.id].(exchangedAt := Some(now))]
              && after.sessions
                 == v.sessions + [Session(token.id, secret, now, reply.expiresAt, None, None, 0)]
            else if Lifetime(ttl) && token.Token? && token.id < |v.capabilities|
                    && v.capabilities[token.id].secret != token.secret && v.capabilities[token.id].revokedAt.None?
            then
              var row := v.capabilities[token.id];
              var counted := if row.failed >= 4 then row.(failed := 5, revokedAt := Some(now))
                             else row.(failed := row.failed + 1);
              after == v.(capabilities := v.capabilities[token.id := counted])
            else after == v
  {
    if token.Token? && token.id < |v.capabilities| {
      assert v.capabilities[token.id := v.capabilities[token.id]] == v.capabilities;
    }
  }

  /** A session that the token names with its secret, unspent, unrevoked and unexpired. */
  predicate Accepts(v: Vault, now: int, token: Token) {
    && token.Token? && token.id < |v.sessions|
    && var row := v.sessions[token.id];
    && row.secret == token.secret && row.consumedAt.None? && row.revokedAt.None? && row.failed < 5
    && now < row.expiresAt
  }

  /** A validation changes nothing but the count of wrong secrets; a consumption also marks the session it accepts. */
  lemma SessionCallsExact(v: Vault, now: int, token: Token, principal: string)
    ensures var (after, reply) := Do(v, now, Validate(token));
            && reply == (if Accepts(v, now, token) then Granted(token, v.sessions[token.id].expiresAt) else Refused)
            && after == WrongCounted(v, now, token)
    ensures var (after, reply) := Do(v, now, Consume(token, principal));
            && reply == (if Printable(principal) && Accepts(v, now, token) then Accepted else Refused)
            && after == if !Printable(principal) then v
                        else if Accepts(v, now, token) then
                          v.(sessions := v.sessions[token.id := v.sessions[token.id].(consumedAt := Some(now))])
                        else WrongCounted(v, now, token)
  {
    if token.Token? && token.id < |v.sessions| {
      assert v.sessions[token.id := v.sessions[token.id]] == v.sessions;
    }
  }

  /** The vault after this token was presented for a session: a wrong secret is counted, and the fifth revokes. */
  function WrongCounted(v: Vault, now: int, token: Token): Vault {
    if token.Malformed? || token.id >= |v.sessions| || v.sessions[token.id].secret == token.secret
       || v.sessions[token.id].revokedAt.Some? then v
    else
      var row := v.sessions[token.id];
      v.(sessions := v.sessions[token.id := if row.failed >= 4 then row.(failed := 5, revokedAt := Some(now))
                                            else row.(failed := row.failed + 1)])
  }

  // ---- a capability between issue and exchange ---------------------------------------------------------------

  predicate OpenCapability(v: Vault, id: nat) {
    id < |v.capabilities| && v.capabilities[id].exchangedAt.None? && v.capabilities[id].revokedAt.None?
    && v.capabilities[id].failed < 5
  }

  /** The step closes the capability: a new issue while it is unexpired, its exchange, or its fifth wrong secret. */
  predicate Closes(v: Vault, step: Step, id: nat)
    requires id < |v.capabilities|
  {
    match step.op
    case Issue(principal, ttl, _) => Lifetime(ttl) && Printable(principal) && step.now < v.capabilities[id].expiresAt
    case Exchange(token, ttl, _) =>
      && Lifetime(ttl) && token.Token? && token.id == id
      && if token.secret == v.capabilities[id].secret then step.now < v.capabilities[id].expiresAt
         else v.capabilities[id].failed >= 4
    case _ => false
  }

  lemma StepCloses(v: Vault, step: Step, id: nat)
    requires id < |v.capabilities|
    ensures OpenCapability(Do(v, step.now, step.op).0, id) <==> OpenCapability(v, id) && !Closes(v, step, id)
  {
  }

  predicate ClosedAt(v: Vault, id: nat, steps: seq<Step>, k: nat)
    requires k < |steps|
  {
    id < |Run(v, steps[..k]).capabilities| && Closes(Run(v, steps[..k]), steps[k], id)
  }

  ghost predicate Closed(v: Vault, id: nat, steps: seq<Step>) {
    exists k :: 0 <= k < |steps| && ClosedAt(v, id, steps, k)
  }

  lemma {:induction false} ClosedSnoc(v: Vault, id: nat, steps: seq<Step>, n: nat)
    requires |steps| == n + 1
    ensures Closed(v, id, steps) <==> Closed(v, id, steps[..n]) || ClosedAt(v, id, steps, n)
  {
    assert forall k :: 0 <= k < n ==> steps[..n][..k] == steps[..k];
    if Closed(v, id, steps[..n]) {
      var k :| 0 <= k < n && ClosedAt(v, id, steps[..n], k);
      assert ClosedAt(v, id, steps, k);
    }
    if k :| 0 <= k < n && ClosedAt(v, id, steps, k) {
      assert ClosedAt(v, id, steps[..n], k);
    }
  }

  lemma {:induction false} RunCloses(v: Vault, id: nat, steps: seq<Step>)
    requires OpenCapability(v, id)
    ensures id < |Run(v, steps).capabilities|
    ensures OpenCapability(Run(v, steps), id) <==> !Closed(v, id, steps)
  {
    RunEvolves(v, steps);
    if |steps| > 0 {
      var n := |steps| - 1;
      RunCloses(v, id, steps[..n]);
      StepCloses(Run(v, steps[..n]), steps[n], id);
      ClosedSnoc(v, id, steps, n);
    }
  }

  /** Whatever happens in between, the token an issue answered with is exchanged exactly if it has not expired and no
      step closed its capability. */
  lemma {:induction false} IssueToExchange(v: Vault, start: int, principal: string, ttl: int, secret: string,
                                           steps: seq<Step>, now: int, newTtl: int, newSecret: string)
    requires Lifetime(ttl) && Printable(principal) && Lifetime(newTtl)
    ensures var (issued, reply) := Do(v, start, Issue(principal, ttl, secret));
            && reply.Granted? && reply.token.Token?
            && (Do(Run(issued, steps), now, Exchange(reply.token, newTtl, newSecret)).1.Granted?
                <==> now < start + ttl && !Closed(issued, reply.token.id, steps))
  {
    var (issued, reply) := Do(v, start, Issue(principal, ttl, secret));
    var id := reply.token.id;
    RunCloses(issued, id, steps);
    RunEvolves(issued, steps);
    assert CapabilityReach(issued.capabilities[id], Run(issued, steps).capabilities[id]);
    ExchangedTokenWorks(Run(issued, steps), now, reply.token, newTtl, newSecret);
  }

  // ---- a session between exchange and consumption ------------------------------------------------------------

  /** Whatever happens in between, the token an exchange answered with validates exactly if it has not expired and no
      step spoiled its session, and is consumed exactly if moreover the principal is admissible. */
  lemma {:induction false} ExchangeToConsume(v: Vault, start: int, token: Token, ttl: int, secret: string,
                                             steps: seq<Step>, now: int, principal: string)
    requires Do(v, start, Exchange(token, ttl, secret)).1.Granted?
    ensures var (exchanged, reply) := Do(v, start, Exchange(token, ttl, secret));
            && reply.token.Token? && reply.token.id < |exchanged.sessions|
            && (Do(Run(exchanged, steps), now, Validate(reply.token)).1
                == if now < reply.expiresAt && !Spoiled(exchanged, reply.token.id, steps) then reply else Refused)
            && (Do(Run(exchanged, steps), now, Consume(reply.token, principal)).1.Accepted?
                <==> Printable(principal) && now < reply.expiresAt && !Spoiled(exchanged, reply.token.id, steps))
  {
    var (exchanged, reply) := Do(v, start, Exchange(token, ttl, secret));
    var id := reply.token.id;
    RunSpoils(exchanged, id, steps);
    RunEvolves(exchanged, steps);
    assert SessionReach(exchanged.sessions[id], Run(exchanged, steps).sessions[id]);
    SessionCallsExact(Run(exchanged, steps), now, reply.token, principal);
  }

  /** From issue to consumption, other calls coming in between anywhere: the session's consumption is accepted exactly
      if the exchange came before the capability expired and unspoiled, and the consumption before the session expired
      and unspoiled - each time with the very token the previous call answered with. */
  lemma {:induction false} WholeChain(v: Vault, start: int, principal: string, ttl: int, secret: string,
                                      first: seq<Step>, middle: int, newTtl: int, newSecret: string,
                                      second: seq<Step>, end: int, consumer: string)
    requires Lifetime(ttl) && Printable(principal) && Lifetime(newTtl) && Printable(consumer)
    ensures var (issued, capability) := Do(v, start, Issue(principal, ttl, secret));
            && capability.Granted? && capability.token.Token?
            && var exchange := Exchange(capability.token, newTtl, newSecret);
            var (exchanged, session) := Do(Run(issued, first), middle, exchange);
            var inTime := middle < start + ttl && !Closed(issued, capability.token.id, first);
            && (session.Granted? <==> inTime)
            && (inTime ==>
                  && session.token.Token? && session.token.id < |exchanged.sessions|
                  && session.expiresAt == Earliest(middle + newTtl, start + ttl)
                  && (Do(Run(exchanged, second), end, Consume(session.token, consumer)).1.Accepted?
                      <==> end < Earliest(middle + newTtl, start + ttl)
                           && !Spoiled(exchanged, session.token.id, second)))
  {
    var (issued, capability) := Do(v, start, Issue(principal, ttl, secret));
    IssueToExchange(v, start, principal, ttl, secret, first, middle, newTtl, newSecret);
    var between := Run(issued, first);
    if middle < start + ttl && !Closed(issued, capability.token.id, first) {
      ExchangeToConsume(between, middle, capability.token, newTtl, newSecret, second, end, consumer);
      ExchangedTokenWorks(between, middle, capability.token, newTtl, newSecret);
      RunEvolves(issued, first);
      assert CapabilityReach(issued.capabilities[capability.token.id], between.capabilities[capability.token.id]);
    }
  }
}
