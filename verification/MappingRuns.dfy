/**
 Interleaved runs of the two services that write mapping rows: UserService.CreateUser and
 AuthService.Authenticate. A process is one request; a step is one SQL statement, one REAP call
 event, one pure check, a clock advance or a crash. REAP answers arbitrarily. Any statement may
 fail, either without effect or after taking effect (a lost acknowledgement).
 */
module MappingRuns {
  import opened GoText
  import opened Processes
  import opened ReapMapping

  datatype CreateOutcome =
    | UserExists            // ErrReapUserExists
    | CreateInFlight        // ErrReapUserCreateInFlight
    | PassedThrough         // transport error or non-2xx handed back
    | MissingId             // 2xx without a usable id
    | UserRecorded(id: string)
    | OtherIdRecorded       // the "another ID was already recorded" branch
    | StoreError
    | Crashed

  /** Where a CreateUser request is. `at` is its claim's timestamp, `since` when the phase began. */
  datatype CreateProc =
    | Claiming(pk: string)
    | Looking(pk: string)
    | Granted(pk: string, at: nat)
    | Calling(pk: string, at: nat, since: nat)
    | Releasing(pk: string, at: nat, since: nat)
    | Recording(pk: string, at: nat, since: nat, id: string)
    | Finished(pk: string, outcome: CreateOutcome)

  predicate Holding(c: CreateProc) {
    c.Granted? || c.Calling? || c.Releasing? || c.Recording?
  }

  datatype AuthOutcome = Issued | NonceUsed | InvalidSignature | AuthError

  datatype AuthProc =
    | ReadingNonce(pk: string, cc: string, nonce: int64)
    | Verifying(pk: string, cc: string, nonce: int64)
    | ClaimingNonce(pk: string, cc: string, nonce: int64)
    | Issuing(pk: string, nonce: int64)
    | AuthFinished(outcome: AuthOutcome)

  /**
   Creates sent to REAP and what their senders learn of them, in order. Accepted is a 2xx received.
   Unconfirmed is any other reply or none: REAP may have created the user all the same.
   */
  datatype CallEvent =
    | Sent(p: Pid, pk: string, claimedAt: nat, at: nat)
    | Accepted(p: Pid, pk: string, claimedAt: nat, id: string)
    | Unconfirmed(p: Pid, pk: string)
    | Recorded(pk: string)

  datatype NonceClaim = NonceClaim(pk: string, nonce: int64)

  /**
   The tables and processes, with history: who last claimed each row, REAP's call events, the nonce
   claims whose statement took effect, and the nonce behind each token.
   */
  datatype State = State(
    rows: Table,
    clock: nat,
    creates: map<Pid, CreateProc>,
    claimedBy: map<string, Pid>,
    calls: seq<CallEvent>,
    auths: map<Pid, AuthProc>,
    claims: seq<NonceClaim>,
    tokens: map<string, string>,
    tokenNonce: map<string, int64>)

  const INIT := State(map[], 0, map[], map[], [], map[], [], map[], map[])

  /** One request is one process; its steps in program order. */
  datatype CreateStep =
    | Begin(pk: string)
    | Claim(fault: Fault)
    | Look(fault: Fault)
    | Send
    | Reply(answer: Answer)
    | Release(fault: Fault)
    | Record(fault: Fault)
    | Crash

  datatype AuthStep =
    | BeginAuth(pk: string, cc: string, nonce: int64)
    | ReadNonce(fault: Fault)
    | Verify(valid: bool)
    | TakeNonce(fault: Fault)
    | Mint(token: string, fault: Fault)
    | CrashAuth

  datatype Step =
    | Tick(micros: nat)
    | Create(p: Pid, create: CreateStep)
    | Auth(p: Pid, auth: AuthStep)

  predicate CreateEnabled(s: State, p: Pid, e: CreateStep) {
    match e
    case Begin(_) => p !in s.creates
    case Claim(_) => p in s.creates && s.creates[p].Claiming?
    case Look(_) => p in s.creates && s.creates[p].Looking?
    case Send => p in s.creates && s.creates[p].Granted?
    case Reply(_) => p in s.creates && s.creates[p].Calling?
    case Release(_) => p in s.creates && s.creates[p].Releasing?
    case Record(_) => p in s.creates && s.creates[p].Recording?
    case Crash => p in s.creates && !s.creates[p].Finished?
  }

  predicate AuthEnabled(s: State, p: Pid, e: AuthStep) {
    match e
    case BeginAuth(_, _, _) => p !in s.auths
    case ReadNonce(_) => p in s.auths && s.auths[p].ReadingNonce?
    case Verify(valid) =>
      p in s.auths && s.auths[p].Verifying? && (valid ==> AcceptedChainCode(s.auths[p].cc))
    case TakeNonce(_) => p in s.auths && s.auths[p].ClaimingNonce?
    case Mint(_, _) => p in s.auths && s.auths[p].Issuing?
    case CrashAuth => p in s.auths && !s.auths[p].AuthFinished?
  }

  predicate Enabled(s: State, e: Step) {
    match e
    case Tick(_) => true
    case Create(p, create) => CreateEnabled(s, p, create)
    case Auth(p, auth) => AuthEnabled(s, p, auth)
  }

  ghost function Apply(s: State, e: Step): State
    requires Enabled(s, e)
  {
    match e
    case Tick(micros) => s.(clock := s.clock + micros)
    case Create(p, create) => ApplyCreate(s, p, create)
    case Auth(p, auth) => ApplyAuth(s, p, auth)
  }

  ghost function ApplyCreate(s: State, p: Pid, e: CreateStep): State
    requires CreateEnabled(s, p, e)
  {
    match e
    case Begin(pk) => SetCreate(s, p, Claiming(pk))
    case Claim(fault) => ApplyClaim(s, p, fault)
    case Look(fault) => ApplyLook(s, p, fault)
    case Send => ApplySend(s, p)
    case Reply(answer) => ApplyReply(s, p, answer)
    case Release(fault) => ApplyRelease(s, p, fault)
    case Record(fault) => ApplyRecord(s, p, fault)
    case Crash => SetCreate(s, p, Finished(s.creates[p].pk, Crashed))
  }

  function ApplyAuth(s: State, p: Pid, e: AuthStep): State
    requires AuthEnabled(s, p, e)
  {
    match e
    case BeginAuth(pk, cc, nonce) => SetAuth(s, p, ReadingNonce(pk, cc, nonce))
    case ReadNonce(fault) => SetAuth(s, p, AfterReadNonce(s.rows, s.auths[p], fault))
    case Verify(valid) => SetAuth(s, p, AfterVerify(s.auths[p], valid))
    case TakeNonce(fault) => ApplyTakeNonce(s, p, fault)
    case Mint(token, fault) => ApplyMint(s, p, token, fault)
    case CrashAuth => SetAuth(s, p, AuthFinished(AuthError))
  }

  // ---------- CreateUser ----------

  function SetCreate(s: State, p: Pid, c: CreateProc): State {
    s.(creates := s.creates[p := c])
  }

  function AfterClaim(pk: string, now: nat, fault: Fault, affected: bool): CreateProc {
    if !fault.NoFault? then Finished(pk, StoreError)
    else if affected then Granted(pk, now)
    else Looking(pk)
  }

  function ApplyClaim(s: State, p: Pid, fault: Fault): State
    requires p in s.creates && s.creates[p].Claiming?
  {
    var pk := s.creates[p].pk;
    var r := ClaimReapUserCreate(s.rows, pk, s.clock);
    var took := r.affected && !fault.NotApplied?;
    s.(rows := if took then r.table else s.rows,
       claimedBy := if took then s.claimedBy[pk := p] else s.claimedBy,
       creates := s.creates[p := AfterClaim(pk, s.clock, fault, r.affected)])
  }

  function AfterLook(t: Table, pk: string, fault: Fault): CreateOutcome {
    if !fault.NoFault? then StoreError
    else if GetReapUserID(t, pk) != "" then UserExists
    else CreateInFlight
  }

  function ApplyLook(s: State, p: Pid, fault: Fault): State
    requires p in s.creates && s.creates[p].Looking?
  {
    var pk := s.creates[p].pk;
    SetCreate(s, p, Finished(pk, AfterLook(s.rows, pk, fault)))
  }

  function ApplySend(s: State, p: Pid): State
    requires p in s.creates && s.creates[p].Granted?
  {
    var c := s.creates[p];
    s.(creates := s.creates[p := Calling(c.pk, c.at, s.clock)], calls := s.calls + [Sent(p, c.pk, c.at, s.clock)])
  }

  /** No release after a 2xx, with or without a usable id. */
  function AfterReply(c: CreateProc, now: nat, answer: Answer): CreateProc
    requires c.Calling?
  {
    if !Succeeded(answer) then Releasing(c.pk, c.at, now)
    else if answer.id == "" then Finished(c.pk, MissingId)
    else Recording(c.pk, c.at, now, answer.id)
  }

  function ApplyReply(s: State, p: Pid, answer: Answer): State
    requires p in s.creates && s.creates[p].Calling?
  {
    var c := s.creates[p];
    s.(creates := s.creates[p := AfterReply(c, s.clock, answer)],
       calls := s.calls + [if Succeeded(answer) then Accepted(p, c.pk, c.at, answer.id) else Unconfirmed(p, c.pk)])
  }

  function ApplyRelease(s: State, p: Pid, fault: Fault): State
    requires p in s.creates && s.creates[p].Releasing?
  {
    var pk := s.creates[p].pk;
    s.(rows := if fault.NotApplied? then s.rows else ReleaseReapUserCreate(s.rows, pk),
       creates := s.creates[p := Finished(pk, PassedThrough)])
  }

  function AfterRecord(fault: Fault, r: Exec, id: string): CreateOutcome {
    if !fault.NoFault? || r.Failed? then StoreError
    else if r.affected then UserRecorded(id)
    else OtherIdRecorded
  }

  ghost function ApplyRecord(s: State, p: Pid, fault: Fault): State
    requires p in s.creates && s.creates[p].Recording?
  {
    var c := s.creates[p];
    var r := SetReapUserID(s.rows, c.pk, c.id);
    var took := r.Ran? && r.affected && !fault.NotApplied?;
    s.(rows := if took then r.table else s.rows,
       creates := s.creates[p := Finished(c.pk, AfterRecord(fault, r, c.id))],
       calls := if took then s.calls + [Recorded(c.pk)] else s.calls)
  }

  // ---------- Authenticate ----------

  function SetAuth(s: State, p: Pid, a: AuthProc): State {
    s.(auths := s.auths[p := a])
  }

  function AfterReadNonce(t: Table, a: AuthProc, fault: Fault): AuthProc
    requires a.ReadingNonce?
  {
    if !fault.NoFault? then AuthFinished(AuthError)
    else if a.nonce != GetNonce(t, a.pk) then AuthFinished(NonceUsed)
    else Verifying(a.pk, a.cc, a.nonce)
  }

  function AfterVerify(a: AuthProc, valid: bool): AuthProc
    requires a.Verifying?
  {
    if valid then ClaimingNonce(a.pk, a.cc, a.nonce) else AuthFinished(InvalidSignature)
  }

  function AfterTakeNonce(a: AuthProc, fault: Fault, r: Exec): AuthProc
    requires a.ClaimingNonce?
  {
    if !fault.NoFault? || r.Failed? then AuthFinished(AuthError)
    else if r.affected then Issuing(a.pk, a.nonce)
    else AuthFinished(NonceUsed)
  }

  function ApplyTakeNonce(s: State, p: Pid, fault: Fault): State
    requires p in s.auths && s.auths[p].ClaimingNonce?
  {
    var a := s.auths[p];
    var r := ClaimNonce(s.rows, a.pk, a.nonce, a.cc);
    var took := r.Ran? && r.affected && !fault.NotApplied?;
    s.(rows := if took then r.table else s.rows,
       claims := if took then s.claims + [NonceClaim(a.pk, a.nonce)] else s.claims,
       auths := s.auths[p := AfterTakeNonce(a, fault, r)])
  }

  /** vaulttoken.Record: the token ID is random but its column is UNIQUE, so a repeat fails. */
  function ApplyMint(s: State, p: Pid, token: string, fault: Fault): State
    requires p in s.auths && s.auths[p].Issuing?
  {
    var a := s.auths[p];
    var took := token !in s.tokens && !fault.NotApplied?;
    s.(tokens := if took then s.tokens[token := a.pk] else s.tokens,
       tokenNonce := if took then s.tokenNonce[token := a.nonce] else s.tokenNonce,
       auths := s.auths[p := AuthFinished(if took && fault.NoFault? then Issued else AuthError)])
  }

  // ---------- runs ----------

  /** states[i + 1] is states[i] after steps[i], starting from empty tables. */
  ghost predicate IsRun(states: seq<State>, steps: seq<Step>) {
    && |states| == |steps| + 1
    && states[0] == INIT
    && forall i {:trigger steps[i]} :: 0 <= i < |steps| ==>
         Enabled(states[i], steps[i]) && states[i + 1] == Apply(states[i], steps[i])
  }

  lemma ExtendRun(states: seq<State>, steps: seq<Step>, e: Step, s: State)
    requires IsRun(states, steps) && Enabled(states[|steps|], e) && Apply(states[|steps|], e) == s
    ensures IsRun(states + [s], steps + [e])
  {}

  lemma ContinueRun(states: seq<State>, steps: seq<Step>, e: Step) returns (states': seq<State>, steps': seq<Step>)
    requires IsRun(states, steps) && Enabled(states[|steps|], e)
    ensures states' == states + [Apply(states[|steps|], e)] && steps' == steps + [e]
    ensures IsRun(states', steps')
  {
    states', steps' := states + [Apply(states[|steps|], e)], steps + [e];
    ExtendRun(states, steps, e, Apply(states[|steps|], e));
  }

  /** Some number above all of a set's. */
  lemma {:induction false} UpperBound(xs: set<nat>) returns (b: nat)
    ensures forall x :: x in xs ==> x < b
    decreases |xs|
  {
    if xs == {} {
      b := 0;
    } else {
      var x :| x in xs;
      b := UpperBound(xs - {x});
      b := if b > x then b else x + 1;
      assert forall y :: y in xs ==> y == x || y in xs - {x};
    }
  }

  lemma FreshPid(used: set<Pid>) returns (p: Pid)
    ensures p !in used
  {
    p := UpperBound(used);
  }

  /** Every holder of vault's claim is still within the stale window of its claim. */
  ghost predicate Timely(s: State, vault: string) {
    forall p :: p in s.creates && Holding(s.creates[p]) && s.creates[p].pk == vault ==>
      s.clock <= s.creates[p].at + STALE_AFTER
  }

  /** Before state n, the holders of vault's claim have kept to the window. */
  ghost predicate TimelyBefore(states: seq<State>, vault: string, n: nat) {
    forall k :: 0 <= k < n && k < |states| ==> Timely(states[k], vault)
  }
}
