/**
 What holds of the mapping table in every run, with no timing assumption: user IDs and chain codes
 are written once, IDs are unique, the nonce claims of a vault are exactly 0, 1, ..., n - 1, and
 tokens are covered by claimed nonces.
 */
module MappingSafety {
  import opened GoText
  import opened Processes
  import opened ReapMapping
  import opened MappingRuns

  /** The nonces claimed for pk, in order. */
  ghost function ClaimsOf(claims: seq<NonceClaim>, pk: string): seq<int> {
    if claims == [] then []
    else
      var last, before := claims[|claims| - 1], ClaimsOf(claims[..|claims| - 1], pk);
      if last.pk == pk then before + [last.nonce as int] else before
  }

  ghost function UpTo(n: int): seq<int> {
    seq(if n < 0 then 0 else n, i => i)
  }

  /** 32 bytes of lowercase hex. */
  ghost predicate NormalCode(code: string) {
    HexDecode(code).Some? && |code| == 64 && ToLower(code) == code
  }

  ghost predicate RowOk(row: Row) {
    && row.nonce >= 0
    && row.userId != Some("")
    && (row.chainCode.Some? ==> NormalCode(row.chainCode.value))
  }

  ghost predicate RowsOk(t: Table) {
    Unique(t) && forall pk :: pk in t ==> RowOk(t[pk])
  }

  /** Recorded IDs came from replies with a non-empty id. */
  ghost predicate CreatesOk(creates: map<Pid, CreateProc>) {
    forall p :: p in creates && creates[p].Recording? ==> creates[p].id != ""
  }

  ghost predicate ClaimsOk(t: Table, claims: seq<NonceClaim>) {
    forall pk :: ClaimsOf(claims, pk) == UpTo(GetNonce(t, pk))
  }

  /** A request past its nonce read holds a nonce the counter has reached; past its claim, passed. */
  ghost predicate AuthOk(t: Table, a: AuthProc) {
    match a
    case Verifying(pk, _, nonce) => 0 <= nonce <= GetNonce(t, pk)
    case ClaimingNonce(pk, cc, nonce) => 0 <= nonce <= GetNonce(t, pk) && AcceptedChainCode(cc)
    case Issuing(pk, nonce) => 0 <= nonce < GetNonce(t, pk)
    case _ => true
  }

  ghost predicate AuthsOk(t: Table, auths: map<Pid, AuthProc>) {
    forall p :: p in auths ==> AuthOk(t, auths[p])
  }

  ghost predicate TokensBelow(t: Table, tokens: map<string, string>, nonceOf: map<string, int64>) {
    && tokens.Keys == nonceOf.Keys
    && forall k :: k in tokens ==> 0 <= nonceOf[k] < GetNonce(t, tokens[k])
  }

  /** A claimed nonce is used by at most one pending request or recorded token. */
  ghost predicate NoncesApart(auths: map<Pid, AuthProc>, tokens: map<string, string>, nonceOf: map<string, int64>)
    requires tokens.Keys == nonceOf.Keys
  {
    && (forall k, l :: k in tokens && l in tokens && k != l && tokens[k] == tokens[l] ==> nonceOf[k] != nonceOf[l])
    && (forall k, p :: k in tokens && p in auths && auths[p].Issuing? && auths[p].pk == tokens[k] ==>
          nonceOf[k] != auths[p].nonce)
    && (forall p, q :: p in auths && q in auths && p != q && auths[p].Issuing? && auths[q].Issuing?
                       && auths[p].pk == auths[q].pk
                     ==> auths[p].nonce != auths[q].nonce)
  }

  ghost predicate Inv(s: State) {
    && RowsOk(s.rows)
    && CreatesOk(s.creates)
    && ClaimsOk(s.rows, s.claims)
    && AuthsOk(s.rows, s.auths)
    && TokensBelow(s.rows, s.tokens, s.tokenNonce)
    && NoncesApart(s.auths, s.tokens, s.tokenNonce)
  }

  // ---------- chain codes ----------

  /** For accepted chain codes the compared strings are equal exactly when the 32 bytes are. */
  lemma ChainCodeAgreement(cc: string, dd: string)
    requires AcceptedChainCode(cc) && AcceptedChainCode(dd)
    ensures NormalizeChainCode(cc) == NormalizeChainCode(dd)
       <==> HexDecode(TrimPrefix(cc, "0x")) == HexDecode(TrimPrefix(dd, "0x"))
    ensures NormalCode(NormalizeChainCode(cc))
    ensures HexDecode(NormalizeChainCode(cc)) == HexDecode(TrimPrefix(cc, "0x"))
  {
    var a, b := TrimPrefix(cc, "0x"), TrimPrefix(dd, "0x");
    HexDecodeIsUpToCase(a);
    HexDecodeIsUpToCase(b);
    HexRoundTrip(HexDecode(a).value);
    HexRoundTrip(HexDecode(b).value);
    HexDecodeIsUpToCase(ToLower(a));
  }

  // ---------- one statement ----------

  ghost predicate SameNonces(t: Table, t': Table) {
    forall pk :: GetNonce(t', pk) == GetNonce(t, pk)
  }

  /** A statement of the create protocol: it keeps rows well formed, extends the table, leaves nonces alone. */
  ghost predicate CreateStatement(t: Table, t': Table) {
    RowsOk(t') && Evolves(t, t') && SameNonces(t, t')
  }

  lemma NoStatement(t: Table)
    requires RowsOk(t)
    ensures CreateStatement(t, t)
  {}

  lemma ClaimStatement(t: Table, pk: string, now: nat)
    requires RowsOk(t)
    ensures CreateStatement(t, ClaimReapUserCreate(t, pk, now).table)
  {
    var r := ClaimReapUserCreate(t, pk, now);
    if r.affected {
      UniqueUnderUpdate(t, pk, r.table[pk]);
    }
  }

  lemma ReleaseStatement(t: Table, pk: string)
    requires RowsOk(t)
    ensures CreateStatement(t, ReleaseReapUserCreate(t, pk))
  {
    if pk in t {
      UniqueUnderUpdate(t, pk, t[pk].(createStartedAt := None));
    }
  }

  lemma RecordStatement(t: Table, pk: string, id: string)
    requires RowsOk(t) && id != "" && SetReapUserID(t, pk, id).Ran?
    ensures CreateStatement(t, SetReapUserID(t, pk, id).table)
  {
    SetReapUserIDKeeps(t, pk, id);
  }

  /** A nonce claim that takes effect moves pk's counter from expected to expected + 1. */
  lemma NonceStatement(t: Table, pk: string, expected: int64, cc: string)
    requires RowsOk(t) && AcceptedChainCode(cc) && 0 <= expected <= GetNonce(t, pk)
    requires ClaimNonce(t, pk, expected, cc).Ran? && ClaimNonce(t, pk, expected, cc).affected
    ensures var t' := ClaimNonce(t, pk, expected, cc).table;
      && RowsOk(t') && Evolves(t, t')
      && GetNonce(t, pk) == expected && GetNonce(t', pk) == expected + 1
      && (forall other :: other != pk ==> GetNonce(t', other) == GetNonce(t, other))
  {
    ChainCodeAgreement(cc, cc);
    var t' := ClaimNonce(t, pk, expected, cc).table;
    UniqueUnderUpdate(t, pk, t'[pk]);
  }

  lemma ClaimsAppend(t: Table, t': Table, claims: seq<NonceClaim>, pk: string, nonce: int64)
    requires ClaimsOk(t, claims) && GetNonce(t, pk) == nonce && GetNonce(t', pk) == nonce + 1 && nonce >= 0
    requires forall other :: other != pk ==> GetNonce(t', other) == GetNonce(t, other)
    ensures ClaimsOk(t', claims + [NonceClaim(pk, nonce)])
  {
    var claims' := claims + [NonceClaim(pk, nonce)];
    assert claims'[..|claims|] == claims;
    assert UpTo(nonce) + [nonce as int] == UpTo(nonce + 1);
    forall k ensures ClaimsOf(claims', k) == UpTo(GetNonce(t', k)) {
      assert ClaimsOf(claims, k) == UpTo(GetNonce(t, k));
    }
  }

  /** Claims of others stay valid while counters grow. */
  lemma NoncesOnlyGrow(t: Table, t': Table, auths: map<Pid, AuthProc>, tokens: map<string, string>,
                       nonceOf: map<string, int64>)
    requires AuthsOk(t, auths) && TokensBelow(t, tokens, nonceOf)
    requires forall pk :: GetNonce(t, pk) <= GetNonce(t', pk)
    ensures AuthsOk(t', auths) && TokensBelow(t', tokens, nonceOf)
  {
    forall p | p in auths ensures AuthOk(t', auths[p]) {
      assert AuthOk(t, auths[p]);
    }
    forall k | k in tokens ensures 0 <= nonceOf[k] < GetNonce(t', tokens[k]) {
      assert GetNonce(t, tokens[k]) <= GetNonce(t', tokens[k]);
    }
  }

  // ---------- one step ----------

  /** A step of a create request: one statement of its protocol, or none, and nothing of the others. */
  ghost predicate CreateFrame(s: State, s': State) {
    && CreatesOk(s'.creates)
    && CreateStatement(s.rows, s'.rows)
    && s'.auths == s.auths
    && s'.claims == s.claims
    && s'.tokens == s.tokens
    && s'.tokenNonce == s.tokenNonce
  }

  lemma CreateFrameKeeps(s: State, s': State)
    requires Inv(s) && CreateFrame(s, s')
    ensures Inv(s') && Evolves(s.rows, s'.rows)
  {
    NoncesOnlyGrow(s.rows, s'.rows, s.auths, s.tokens, s.tokenNonce);
    forall pk ensures ClaimsOf(s'.claims, pk) == UpTo(GetNonce(s'.rows, pk)) {
      assert GetNonce(s'.rows, pk) == GetNonce(s.rows, pk);
    }
  }

  lemma ClaimStepFrame(s: State, p: Pid, fault: Fault)
    requires RowsOk(s.rows) && CreatesOk(s.creates) && p in s.creates && s.creates[p].Claiming?
    ensures CreateFrame(s, ApplyClaim(s, p, fault))
  {
    NoStatement(s.rows);
    ClaimStatement(s.rows, s.creates[p].pk, s.clock);
  }

  lemma ReleaseStepFrame(s: State, p: Pid, fault: Fault)
    requires RowsOk(s.rows) && CreatesOk(s.creates) && p in s.creates && s.creates[p].Releasing?
    ensures CreateFrame(s, ApplyRelease(s, p, fault))
  {
    NoStatement(s.rows);
    ReleaseStatement(s.rows, s.creates[p].pk);
  }

  lemma RecordStepFrame(s: State, p: Pid, fault: Fault)
    requires RowsOk(s.rows) && CreatesOk(s.creates) && p in s.creates && s.creates[p].Recording?
    ensures CreateFrame(s, ApplyRecord(s, p, fault))
  {
    var c := s.creates[p];
    NoStatement(s.rows);
    if SetReapUserID(s.rows, c.pk, c.id).Ran? {
      RecordStatement(s.rows, c.pk, c.id);
    }
  }

  /** A create request that moves on without a write. */
  lemma MoveFrame(s: State, s': State, p: Pid)
    requires RowsOk(s.rows) && CreatesOk(s.creates)
    requires p in s'.creates && s' == s.(creates := s.creates[p := s'.creates[p]], calls := s'.calls, clock := s'.clock)
    requires s'.creates[p].Recording? ==> s'.creates[p].id != ""
    ensures CreateFrame(s, s')
  {
    NoStatement(s.rows);
  }

  lemma CreateStepFrame(s: State, p: Pid, e: CreateStep)
    requires RowsOk(s.rows) && CreatesOk(s.creates) && CreateEnabled(s, p, e)
    ensures CreateFrame(s, ApplyCreate(s, p, e))
  {
    match e
    case Claim(fault) => ClaimStepFrame(s, p, fault);
    case Release(fault) => ReleaseStepFrame(s, p, fault);
    case Record(fault) => RecordStepFrame(s, p, fault);
    case _ => MoveFrame(s, ApplyCreate(s, p, e), p);
  }

  /** A request that moves on without touching tables. */
  lemma AuthMoves(s: State, p: Pid, a: AuthProc)
    requires Inv(s) && AuthOk(s.rows, a)
    requires a.Issuing? ==> p in s.auths && s.auths[p] == a
    ensures Inv(s.(auths := s.auths[p := a]))
  {}

  /** The claimed nonce is fresh: every earlier use is below the counter. */
  lemma IssueApart(t: Table, auths: map<Pid, AuthProc>, tokens: map<string, string>, nonceOf: map<string, int64>,
                   p: Pid, pk: string)
    requires AuthsOk(t, auths) && TokensBelow(t, tokens, nonceOf) && NoncesApart(auths, tokens, nonceOf)
    ensures NoncesApart(auths[p := Issuing(pk, GetNonce(t, pk))], tokens, nonceOf)
  {
    forall q | q in auths && auths[q].Issuing? && auths[q].pk == pk ensures auths[q].nonce < GetNonce(t, pk) {
      assert AuthOk(t, auths[q]);
    }
  }

  /** A nonce claim that took effect, before the request itself moves on. */
  lemma TakenTables(s: State, a: AuthProc)
    requires Inv(s) && a.ClaimingNonce? && AuthOk(s.rows, a)
    requires ClaimNonce(s.rows, a.pk, a.nonce, a.cc).Ran? && ClaimNonce(s.rows, a.pk, a.nonce, a.cc).affected
    ensures var t := ClaimNonce(s.rows, a.pk, a.nonce, a.cc).table;
      && Inv(s.(rows := t, claims := s.claims + [NonceClaim(a.pk, a.nonce)]))
      && Evolves(s.rows, t)
      && GetNonce(s.rows, a.pk) == a.nonce && GetNonce(t, a.pk) == a.nonce + 1
  {
    var t := ClaimNonce(s.rows, a.pk, a.nonce, a.cc).table;
    NonceStatement(s.rows, a.pk, a.nonce, a.cc);
    ClaimsAppend(s.rows, t, s.claims, a.pk, a.nonce);
    NoncesOnlyGrow(s.rows, t, s.auths, s.tokens, s.tokenNonce);
  }

  /** The state after a nonce claim that took effect, whether or not it was acknowledged. */
  lemma TakenKeeps(s: State, p: Pid, next: AuthProc)
    requires Inv(s) && p in s.auths && s.auths[p].ClaimingNonce?
    requires var a := s.auths[p];
      && ClaimNonce(s.rows, a.pk, a.nonce, a.cc).Ran?
      && ClaimNonce(s.rows, a.pk, a.nonce, a.cc).affected
      && (next.AuthFinished? || next == Issuing(a.pk, a.nonce))
    ensures var a := s.auths[p];
      var t := ClaimNonce(s.rows, a.pk, a.nonce, a.cc).table;
      && Inv(s.(rows := t, claims := s.claims + [NonceClaim(a.pk, a.nonce)], auths := s.auths[p := next]))
      && Evolves(s.rows, t)
  {
    var a := s.auths[p];
    assert AuthOk(s.rows, a);
    TakenTables(s, a);
    var mid := s.(rows := ClaimNonce(s.rows, a.pk, a.nonce, a.cc).table,
                  claims := s.claims + [NonceClaim(a.pk, a.nonce)]);
    if next.AuthFinished? {
      AuthMoves(mid, p, next);
    } else {
      IssueApart(s.rows, s.auths, s.tokens, s.tokenNonce, p, a.pk);
    }
  }

  lemma TakeNonceKeeps(s: State, p: Pid, fault: Fault)
    requires Inv(s) && p in s.auths && s.auths[p].ClaimingNonce?
    ensures var s' := ApplyTakeNonce(s, p, fault); Inv(s') && Evolves(s.rows, s'.rows)
  {
    var a := s.auths[p];
    var r := ClaimNonce(s.rows, a.pk, a.nonce, a.cc);
    var next := AfterTakeNonce(a, fault, r);
    if fault.NotApplied? || r.Failed? || !r.affected {
      AuthMoves(s, p, next);
    } else {
      TakenKeeps(s, p, next);
    }
  }

  /** The nonce of a finished request passes to its token. */
  lemma MintApart(auths: map<Pid, AuthProc>, tokens: map<string, string>, nonceOf: map<string, int64>,
                  p: Pid, token: string, done: AuthProc)
    requires tokens.Keys == nonceOf.Keys && NoncesApart(auths, tokens, nonceOf)
    requires p in auths && auths[p].Issuing? && done.AuthFinished? && token !in tokens
    ensures var tokens', nonceOf' := tokens[token := auths[p].pk], nonceOf[token := auths[p].nonce];
      tokens'.Keys == nonceOf'.Keys && NoncesApart(auths[p := done], tokens', nonceOf')
  {}

  lemma MintKeeps(s: State, p: Pid, token: string, fault: Fault)
    requires Inv(s) && p in s.auths && s.auths[p].Issuing?
    ensures Inv(ApplyMint(s, p, token, fault))
  {
    var took := token !in s.tokens && !fault.NotApplied?;
    var done := AuthFinished(if took && fault.NoFault? then Issued else AuthError);
    assert AuthOk(s.rows, s.auths[p]);
    AuthMoves(s, p, done);
    if took {
      MintApart(s.auths, s.tokens, s.tokenNonce, p, token, done);
    }
  }

  lemma ReadNonceKeeps(s: State, p: Pid, fault: Fault)
    requires Inv(s) && p in s.auths && s.auths[p].ReadingNonce?
    ensures Inv(SetAuth(s, p, AfterReadNonce(s.rows, s.auths[p], fault)))
  {
    var a := s.auths[p];
    assert a.pk in s.rows ==> RowOk(s.rows[a.pk]);
    AuthMoves(s, p, AfterReadNonce(s.rows, a, fault));
  }

  lemma VerifyKeeps(s: State, p: Pid, valid: bool)
    requires Inv(s) && AuthEnabled(s, p, Verify(valid))
    ensures Inv(SetAuth(s, p, AfterVerify(s.auths[p], valid)))
  {
    assert AuthOk(s.rows, s.auths[p]);
    AuthMoves(s, p, AfterVerify(s.auths[p], valid));
  }

  lemma AuthStepKeeps(s: State, p: Pid, e: AuthStep)
    requires Inv(s) && AuthEnabled(s, p, e)
    ensures Inv(ApplyAuth(s, p, e)) && Evolves(s.rows, ApplyAuth(s, p, e).rows)
  {
    match e
    case BeginAuth(pk, cc, nonce) => AuthMoves(s, p, ReadingNonce(pk, cc, nonce));
    case ReadNonce(fault) => ReadNonceKeeps(s, p, fault);
    case Verify(valid) => VerifyKeeps(s, p, valid);
    case TakeNonce(fault) => TakeNonceKeeps(s, p, fault);
    case Mint(token, fault) => MintKeeps(s, p, token, fault);
    case CrashAuth => AuthMoves(s, p, AuthFinished(AuthError));
  }

  /** Every step keeps the invariant and only extends the table. */
  lemma StepKeeps(s: State, e: Step)
    requires Inv(s) && Enabled(s, e)
    ensures Inv(Apply(s, e)) && Evolves(s.rows, Apply(s, e).rows)
  {
    match e
    case Tick(_) =>
    case Auth(p, auth) =>
      AuthStepKeeps(s, p, auth);
    case Create(p, create) =>
      CreateStepFrame(s, p, create);
      CreateFrameKeeps(s, Apply(s, e));
  }

  // ---------- whole runs ----------

  lemma InitOk()
    ensures Inv(INIT)
  {
    forall pk ensures ClaimsOf(INIT.claims, pk) == UpTo(GetNonce(INIT.rows, pk)) {}
  }

  lemma {:induction false} RunKeeps(states: seq<State>, steps: seq<Step>, i: nat)
    requires IsRun(states, steps) && i < |states|
    ensures Inv(states[i])
  {
    if i == 0 {
      InitOk();
    } else {
      RunKeeps(states, steps, i - 1);
      StepKeeps(states[i - 1], steps[i - 1]);
    }
  }

  lemma NextEvolves(states: seq<State>, steps: seq<Step>, k: nat)
    requires IsRun(states, steps) && k < |steps|
    ensures Evolves(states[k].rows, states[k + 1].rows)
  {
    RunKeeps(states, steps, k);
    StepKeeps(states[k], steps[k]);
  }

  /** Between any two states of a run, IDs and chain codes persist and nonces only grow. */
  lemma {:induction false} WriteOnce(states: seq<State>, steps: seq<Step>, i: nat, j: nat)
    requires IsRun(states, steps) && i <= j < |states|
    ensures Evolves(states[i].rows, states[j].rows)
    decreases j - i
  {
    if i == j {
    } else {
      WriteOnce(states, steps, i, j - 1);
      NextEvolves(states, steps, j - 1);
      EvolvesTransitive(states[i].rows, states[j - 1].rows, states[j].rows);
    }
  }

  /** In every reachable state the two user lookups are inverse and no ID is shared. */
  lemma MappingInjective(states: seq<State>, steps: seq<Step>, i: nat, pk: string, id: string)
    requires IsRun(states, steps) && i < |states| && pk != "" && id != ""
    ensures Unique(states[i].rows)
    ensures GetReapUserID(states[i].rows, pk) == id <==> GetPublicKeyByReapUserID(states[i].rows, id) == pk
  {
    RunKeeps(states, steps, i);
    LookupsInverse(states[i].rows, pk, id);
  }

  /** The nonce claims that took effect for pk are 0, 1, ..., n - 1 in that order, n the stored nonce. */
  lemma NonceLinearity(states: seq<State>, steps: seq<Step>, i: nat, pk: string)
    requires IsRun(states, steps) && i < |states|
    ensures ClaimsOf(states[i].claims, pk) == UpTo(GetNonce(states[i].rows, pk))
    ensures GetNonce(states[i].rows, pk) >= 0
  {
    RunKeeps(states, steps, i);
  }

  /** The insert branch, which stores expected + 1 unchecked, runs only with expected 0. */
  lemma InsertOnlyFromZero(states: seq<State>, steps: seq<Step>, i: nat, p: Pid)
    requires IsRun(states, steps) && i < |states|
    requires p in states[i].auths && states[i].auths[p].ClaimingNonce?
    requires states[i].auths[p].pk !in states[i].rows
    ensures states[i].auths[p].nonce == 0
  {
    RunKeeps(states, steps, i);
    assert AuthOk(states[i].rows, states[i].auths[p]);
  }

  /** A reachable claim passes the chain-code test exactly when its 32 bytes are the recorded ones. */
  lemma RecordedCodeComparesBytes(states: seq<State>, steps: seq<Step>, i: nat, pk: string, cc: string)
    requires IsRun(states, steps) && i < |states| && AcceptedChainCode(cc)
    requires pk in states[i].rows && states[i].rows[pk].chainCode.Some?
    ensures states[i].rows[pk].chainCode == Some(NormalizeChainCode(cc))
       <==> HexDecode(states[i].rows[pk].chainCode.value) == HexDecode(TrimPrefix(cc, "0x"))
  {
    RunKeeps(states, steps, i);
    var code := states[i].rows[pk].chainCode.value;
    ChainCodeAgreement(cc, cc);
    HexDecodeIsUpToCase(code);
    HexDecodeIsUpToCase(NormalizeChainCode(cc));
  }

  // ---------- token accounting ----------

  ghost function TokensOf(s: State, pk: string): set<string> {
    set t | t in s.tokens && s.tokens[t] == pk
  }

  ghost function NoncesBelow(n: nat): set<int> {
    if n == 0 then {} else NoncesBelow(n - 1) + {n - 1}
  }

  lemma {:induction false} NoncesBelowSize(n: nat)
    ensures |NoncesBelow(n)| == n && forall k :: k in NoncesBelow(n) <==> 0 <= k < n
  {
    if n == 0 {
    } else {
      NoncesBelowSize(n - 1);
    }
  }

  /** A set injected into another by f is no larger. */
  lemma {:induction false} InjectionBound(ts: set<string>, f: map<string, int64>, ks: set<int>)
    requires forall t :: t in ts ==> t in f && f[t] in ks
    requires forall t, u :: t in ts && u in ts && t != u ==> f[t] != f[u]
    ensures |ts| <= |ks|
    decreases |ts|
  {
    if ts == {} {
    } else {
      var t :| t in ts;
      InjectionBound(ts - {t}, f, ks - {f[t] as int});
    }
  }

  ghost predicate Accounted(s: State, pk: string) {
    && TokensOf(s, pk) <= s.tokenNonce.Keys
    && (forall t :: t in TokensOf(s, pk) ==> s.tokenNonce[t] as int in ClaimsOf(s.claims, pk))
    && (forall t, u :: t in TokensOf(s, pk) && u in TokensOf(s, pk) && t != u ==>
          s.tokenNonce[t] != s.tokenNonce[u])
    && |TokensOf(s, pk)| <= GetNonce(s.rows, pk)
  }

  lemma TokensAccounted(s: State, pk: string)
    requires Inv(s)
    ensures Accounted(s, pk)
  {
    var n := GetNonce(s.rows, pk);
    assert ClaimsOf(s.claims, pk) == UpTo(n);
    assert n >= 0;
    NoncesBelowSize(n);
    forall t | t in TokensOf(s, pk) ensures s.tokenNonce[t] as int in ClaimsOf(s.claims, pk) {
      var k := s.tokenNonce[t] as int;
      assert UpTo(n)[k] == k;
    }
    InjectionBound(TokensOf(s, pk), s.tokenNonce, NoncesBelow(n));
  }

  /**
   Tokens recorded for a vault carry distinct claimed nonces, so there are never more of them than
   the stored nonce, whatever failed between claim and record.
   */
  lemma TokenAccounting(states: seq<State>, steps: seq<Step>, i: nat, pk: string)
    requires IsRun(states, steps) && i < |states|
    ensures Accounted(states[i], pk)
  {
    RunKeeps(states, steps, i);
    TokensAccounted(states[i], pk);
  }
}
