/**
 Bearer tokens over whole runs: Authenticate signs and releases them, RequireAuth admits them. A
 signed token whose row could not be recorded never leaves the server, and only the server signs.
 Times are microseconds; the clock read of a step and its statement are one instant.
 */
module Sessions {
  import opened GoText
  import opened Processes
  import opened ReapMapping
  import opened MappingRuns
  import MappingSafety

  const ACCESS_TOKEN_DURATION: nat := 30 * 60 * SECOND

  /** A signed token's claims; its expiry is in whole seconds. */
  datatype Jwt = Jwt(id: string, pk: string, exp: nat)

  /** What Touch returns of a token's row. */
  datatype TokenRow = TokenRow(expiresAt: nat, revokedAt: Option<nat>)

  datatype State = State(
    run: MappingRuns.State,
    expires: map<string, nat>,
    revoked: map<string, nat>,
    released: set<Jwt>)

  const INIT := State.State(MappingRuns.INIT, map[], map[], {})

  /** An operator may revoke a recorded token, at any given time, once. */
  datatype Step = Run(e: MappingRuns.Step) | Revoke(id: string, at: nat)

  predicate Enabled(s: State, e: Step) {
    match e
    case Run(r) => MappingRuns.Enabled(s.run, r)
    case Revoke(id, _) => id in s.expires && id !in s.revoked
  }

  predicate IsMint(e: MappingRuns.Step) {
    e.Auth? && e.auth.Mint?
  }

  /** The token that a mint step signs. */
  function Signed(s: State, p: Pid, token: string): Jwt
    requires p in s.run.auths && s.run.auths[p].Issuing?
  {
    Jwt(token, s.run.auths[p].pk, (s.run.clock + ACCESS_TOKEN_DURATION) / SECOND * SECOND)
  }

  ghost function Apply(s: State, e: Step): State
    requires Enabled(s, e)
  {
    match e
    case Run(r) =>
      if IsMint(r) then ApplyMint(s, r.p, r.auth.token, r.auth.fault) else s.(run := MappingRuns.Apply(s.run, r))
    case Revoke(id, at) => s.(revoked := s.revoked[id := at])
  }

  function ApplyMint(s: State, p: Pid, token: string, fault: Fault): State
    requires p in s.run.auths && s.run.auths[p].Issuing?
  {
    var took := token !in s.run.tokens && !fault.NotApplied?;
    s.(run := MappingRuns.ApplyMint(s.run, p, token, fault),
       expires := if took then s.expires[token := s.run.clock + ACCESS_TOKEN_DURATION] else s.expires,
       released := if took && fault.NoFault? then s.released + {Signed(s, p, token)} else s.released)
  }

  ghost predicate IsRun(states: seq<State>, steps: seq<Step>) {
    && |states| == |steps| + 1
    && states[0] == INIT
    && forall i {:trigger steps[i]} :: 0 <= i < |steps| ==>
         Enabled(states[i], steps[i]) && states[i + 1] == Apply(states[i], steps[i])
  }

  // ---------- admission ----------

  function Touch(s: State, id: string): Option<TokenRow> {
    if id in s.expires then Some(TokenRow(s.expires[id], if id in s.revoked then Some(s.revoked[id]) else None))
    else None
  }

  predicate IsRevoked(row: TokenRow, now: nat) {
    row.revokedAt.Some? && row.revokedAt.value < now
  }

  /** The JWT's own expiry check, then the row's checks. */
  predicate Admits(s: State, jwt: Jwt) {
    var row := Touch(s, jwt.id);
    s.run.clock < jwt.exp && row.Some? && !IsRevoked(row.value, s.run.clock) && row.value.expiresAt >= s.run.clock
  }

  datatype Verdict = MissingBearer | InvalidToken | Unavailable | Admitted(claims: Jwt)

  /** `parse` verifies a token's signature and reads its claims; `fault` is a failed table access. */
  method RequireAuth(s: State, header: string, parse: string -> Option<Jwt>, fault: bool) returns (v: Verdict)
    ensures v.MissingBearer? <==> !("Bearer " <= header) || header == "Bearer "
    ensures v.Admitted? <==>
      && "Bearer " <= header && header != "Bearer " && !fault && parse(header[7..]).Some?
      && var jwt := parse(header[7..]).value;
         && s.run.clock < jwt.exp
         && jwt.id in s.expires && s.run.clock <= s.expires[jwt.id]
         && (jwt.id in s.revoked ==> s.run.clock <= s.revoked[jwt.id])
    ensures v.Admitted? ==> Admits(s, v.claims)
    ensures v.Admitted? ==> parse(header[7..]) == Some(v.claims)
    ensures v.Unavailable? ==> fault
  {
    var token := TrimPrefix(header, "Bearer ");
    if token == "" || token == header {
      return MissingBearer;
    }
    var claims := parse(token);
    if claims.None? || s.run.clock >= claims.value.exp {
      return InvalidToken;
    }
    if fault {
      return Unavailable;
    }
    var row := Touch(s, claims.value.id);
    if row.None? || IsRevoked(row.value, s.run.clock) || row.value.expiresAt < s.run.clock {
      return InvalidToken;
    }
    return Admitted(claims.value);
  }

  // ---------- the invariant ----------

  /** A released token is its row's: the same vault, and the row's expiry in whole seconds. */
  ghost predicate Backed(s: State, jwt: Jwt) {
    && jwt.id in s.run.tokens && s.run.tokens[jwt.id] == jwt.pk
    && jwt.id in s.expires && jwt.exp == s.expires[jwt.id] / SECOND * SECOND
  }

  ghost predicate Inv(s: State) {
    && MappingSafety.Inv(s.run)
    && s.expires.Keys == s.run.tokens.Keys
    && forall jwt :: jwt in s.released ==> Backed(s, jwt)
  }

  lemma CreateTokensKept(s: MappingRuns.State, p: Pid, e: CreateStep)
    requires CreateEnabled(s, p, e)
    ensures ApplyCreate(s, p, e).tokens == s.tokens && ApplyCreate(s, p, e).clock == s.clock
  {
    match e
    case Begin(_) =>
    case Claim(_) =>
    case Look(_) =>
    case Send =>
    case Reply(_) =>
    case Release(_) =>
    case Record(_) =>
    case Crash =>
  }

  lemma AuthTokensKept(s: MappingRuns.State, p: Pid, e: AuthStep)
    requires AuthEnabled(s, p, e)
    ensures !e.Mint? ==> ApplyAuth(s, p, e).tokens == s.tokens
    ensures ApplyAuth(s, p, e).clock == s.clock
  {}

  /** Nothing but a mint touches the recorded tokens. */
  lemma OtherTokensKept(s: MappingRuns.State, e: MappingRuns.Step)
    requires MappingRuns.Enabled(s, e) && !IsMint(e)
    ensures MappingRuns.Apply(s, e).tokens == s.tokens && MappingRuns.Apply(s, e).clock >= s.clock
  {
    match e
    case Tick(_) =>
    case Create(p, create) => CreateTokensKept(s, p, create);
    case Auth(p, auth) => AuthTokensKept(s, p, auth);
  }

  /** An earlier token stays backed: the row of its ID was there already. */
  lemma MintBacks(s: State, p: Pid, token: string, fault: Fault)
    requires p in s.run.auths && s.run.auths[p].Issuing? && s.expires.Keys == s.run.tokens.Keys
    ensures forall jwt :: Backed(s, jwt) ==> Backed(ApplyMint(s, p, token, fault), jwt)
    ensures var s' := ApplyMint(s, p, token, fault);
      s'.released != s.released ==> Backed(s', Signed(s, p, token))
  {}

  lemma MintReleases(s: State, p: Pid, token: string, fault: Fault)
    requires p in s.run.auths && s.run.auths[p].Issuing? && s.expires.Keys == s.run.tokens.Keys
    requires forall jwt :: jwt in s.released ==> Backed(s, jwt)
    ensures var s' := ApplyMint(s, p, token, fault);
      s'.expires.Keys == s'.run.tokens.Keys && forall jwt :: jwt in s'.released ==> Backed(s', jwt)
  {
    MintBacks(s, p, token, fault);
  }

  lemma MintKeeps(s: State, p: Pid, token: string, fault: Fault)
    requires Inv(s) && p in s.run.auths && s.run.auths[p].Issuing?
    ensures Inv(ApplyMint(s, p, token, fault))
  {
    MappingSafety.MintKeeps(s.run, p, token, fault);
    MintReleases(s, p, token, fault);
  }

  lemma StepKeeps(s: State, e: Step)
    requires Inv(s) && Enabled(s, e)
    ensures Inv(Apply(s, e))
  {
    match e
    case Run(r) =>
      if IsMint(r) {
        MintKeeps(s, r.p, r.auth.token, r.auth.fault);
      } else {
        MappingSafety.StepKeeps(s.run, r);
        OtherTokensKept(s.run, r);
        assert forall jwt :: Backed(s, jwt) ==> Backed(Apply(s, e), jwt);
      }
    case Revoke(_, _) =>
      assert forall jwt :: Backed(s, jwt) ==> Backed(Apply(s, e), jwt);
  }

  lemma {:induction false} RunKeeps(states: seq<State>, steps: seq<Step>, i: nat)
    requires IsRun(states, steps) && i < |states|
    ensures Inv(states[i])
  {
    if i == 0 {
      MappingSafety.InitOk();
    } else {
      RunKeeps(states, steps, i - 1);
      StepKeeps(states[i - 1], steps[i - 1]);
    }
  }

  // ---------- later states ----------

  ghost predicate Later(s: State, s': State) {
    && s.run.clock <= s'.run.clock
    && s.released <= s'.released
    && (forall id :: id in s.revoked ==> id in s'.revoked && s'.revoked[id] == s.revoked[id])
  }

  lemma StepLater(s: State, e: Step)
    requires Enabled(s, e)
    ensures Later(s, Apply(s, e))
  {
    if e.Run? && !IsMint(e.e) {
      OtherTokensKept(s.run, e.e);
    }
  }

  lemma {:induction false} RunLater(states: seq<State>, steps: seq<Step>, i: nat, j: nat)
    requires IsRun(states, steps) && i <= j < |states|
    ensures Later(states[i], states[j])
    decreases j - i
  {
    if i == j {
    } else {
      RunLater(states, steps, i, j - 1);
      StepLater(states[j - 1], steps[j - 1]);
    }
  }

  // ---------- theorems ----------

  lemma WholeSecondsBelow(t: nat)
    ensures t / SECOND * SECOND <= t < t / SECOND * SECOND + SECOND
  {}

  /**
   A released token is admitted exactly until its own expiry or its revocation: the row is always
   there and its expiry never decides.
   */
  lemma AdmissionIsExact(states: seq<State>, steps: seq<Step>, i: nat, jwt: Jwt)
    requires IsRun(states, steps) && i < |states| && jwt in states[i].released
    ensures var s := states[i];
      Admits(s, jwt) <==> s.run.clock < jwt.exp && !(jwt.id in s.revoked && s.revoked[jwt.id] < s.run.clock)
  {
    RunKeeps(states, steps, i);
    assert Backed(states[i], jwt);
    WholeSecondsBelow(states[i].expires[jwt.id]);
  }

  /** A released token that is refused once is refused for ever. */
  lemma RefusalIsFinal(states: seq<State>, steps: seq<Step>, i: nat, j: nat, jwt: Jwt)
    requires IsRun(states, steps) && i <= j < |states|
    requires jwt in states[i].released && !Admits(states[i], jwt)
    ensures !Admits(states[j], jwt)
  {
    RunLater(states, steps, i, j);
    AdmissionIsExact(states, steps, i, jwt);
    AdmissionIsExact(states, steps, j, jwt);
  }

  /** Where a released token comes from: the step k of request p that issued it. */
  lemma {:induction false} ReleasedBy(states: seq<State>, steps: seq<Step>, i: nat, jwt: Jwt) returns (k: nat, p: Pid)
    requires IsRun(states, steps) && i < |states| && jwt in states[i].released
    ensures k < i && steps[k] == Run(Auth(p, Mint(jwt.id, NoFault)))
    ensures p in states[k].run.auths && states[k].run.auths[p].Issuing? && jwt == Signed(states[k], p, jwt.id)
  {
    assert i > 0;
    if jwt in states[i - 1].released {
      k, p := ReleasedBy(states, steps, i - 1, jwt);
    } else {
      k := i - 1;
      assert steps[k].Run? && IsMint(steps[k].e);
      p := steps[k].e.p;
    }
  }

  /**
   Whoever is admitted as a vault holds a token that some request of that vault was issued within
   the last 30 minutes, after claiming a nonce of that vault.
   */
  lemma AdmittedWasAuthenticated(states: seq<State>, steps: seq<Step>, i: nat, jwt: Jwt) returns (k: nat, p: Pid)
    requires IsRun(states, steps) && i < |states| && jwt in states[i].released && Admits(states[i], jwt)
    ensures k < i && steps[k] == Run(Auth(p, Mint(jwt.id, NoFault)))
    ensures p in states[k].run.auths && states[k].run.auths[p].Issuing? && states[k].run.auths[p].pk == jwt.pk
    ensures states[k].run.clock <= states[i].run.clock < states[k].run.clock + 1_800_000_000
    ensures states[k].run.auths[p].nonce as int in MappingSafety.ClaimsOf(states[k].run.claims, jwt.pk)
  {
    k, p := ReleasedBy(states, steps, i, jwt);
    WholeSecondsBelow(states[k].run.clock + ACCESS_TOKEN_DURATION);
    RunLater(states, steps, k, i);
    RunKeeps(states, steps, k);
    IssuedNonceClaimed(states[k].run, p);
  }

  lemma IssuedNonceClaimed(s: MappingRuns.State, p: Pid)
    requires MappingSafety.Inv(s) && p in s.auths && s.auths[p].Issuing?
    ensures s.auths[p].nonce as int in MappingSafety.ClaimsOf(s.claims, s.auths[p].pk)
  {
    var pk, n := s.auths[p].pk, s.auths[p].nonce as int;
    assert MappingSafety.AuthOk(s.rows, s.auths[p]);
    assert MappingSafety.ClaimsOf(s.claims, pk) == MappingSafety.UpTo(GetNonce(s.rows, pk));
    assert MappingSafety.UpTo(GetNonce(s.rows, pk))[n] == n;
  }

  /** A released token is admitted until the last second of its 30 minutes, unless it is revoked. */
  lemma AdmittedForHalfAnHour(states: seq<State>, steps: seq<Step>, k: nat, i: nat, p: Pid, token: string)
    requires IsRun(states, steps) && k < |steps| && steps[k] == Run(Auth(p, Mint(token, NoFault)))
    requires token !in states[k].run.tokens && k < i < |states|
    requires states[i].run.clock + 1_000_000 <= states[k].run.clock + 1_800_000_000
    requires token in states[i].revoked ==> states[i].run.clock <= states[i].revoked[token]
    ensures p in states[k].run.auths && states[k].run.auths[p].Issuing?
    ensures Signed(states[k], p, token) in states[i].released
    ensures Signed(states[k], p, token).pk == states[k].run.auths[p].pk
    ensures Admits(states[i], Signed(states[k], p, token))
  {
    RunLater(states, steps, k + 1, i);
    WholeSecondsBelow(states[k].run.clock + ACCESS_TOKEN_DURATION);
    AdmissionIsExact(states, steps, i, Signed(states[k], p, token));
  }

  /** One claimed nonce releases at most one token. */
  lemma OneTokenPerNonce(states: seq<State>, steps: seq<Step>, i: nat, jwt: Jwt, other: Jwt)
    requires IsRun(states, steps) && i < |states|
    requires jwt in states[i].released && other in states[i].released && jwt.pk == other.pk
    ensures jwt.id in states[i].run.tokenNonce && other.id in states[i].run.tokenNonce
    ensures states[i].run.tokenNonce[jwt.id] == states[i].run.tokenNonce[other.id] ==> jwt == other
  {
    RunKeeps(states, steps, i);
    assert Backed(states[i], jwt) && Backed(states[i], other);
    MappingSafety.TokensAccounted(states[i].run, jwt.pk);
    assert jwt.id in MappingSafety.TokensOf(states[i].run, jwt.pk);
    assert other.id in MappingSafety.TokensOf(states[i].run, jwt.pk);
  }
}
