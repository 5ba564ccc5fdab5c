/**
 UserService.CreateUser and AuthService.Authenticate as the Go code runs them, statement by
 statement on the store objects. Each is proved to do exactly the steps of its process in the
 interleaving model when nothing else runs in between.
 */
module MappingServices {
  import opened GoText
  import opened Processes
  import opened ReapMapping
  import opened MappingRuns
  import opened MappingAnswers
  import opened Bip32
  import opened AuthSignature

  // ---------- a process on its own ----------

  function NextCreate(c: CreateProc, answer: Answer): CreateStep
    requires !c.Finished?
  {
    match c
    case Claiming(_) => Claim(NoFault)
    case Looking(_) => Look(NoFault)
    case Granted(_, _) => Send
    case Calling(_, _, _) => Reply(answer)
    case Releasing(_, _, _) => Release(NoFault)
    case Recording(_, _, _, _) => Record(NoFault)
  }

  function CreateRank(c: CreateProc): nat {
    match c
    case Claiming(_) => 4
    case Granted(_, _) => 3
    case Calling(_, _, _) => 2
    case Finished(_, _) => 0
    case _ => 1
  }

  lemma CreateProgress(s: State, p: Pid, e: CreateStep)
    requires CreateEnabled(s, p, e) && !e.Begin?
    ensures var s' := ApplyCreate(s, p, e);
      p in s'.creates && CreateRank(s'.creates[p]) < CreateRank(s.creates[p])
  {
    match e
    case Claim(_) =>
    case Look(_) =>
    case Send =>
    case Reply(_) =>
    case Release(_) =>
    case Record(_) =>
    case Crash =>
  }

  /** p's remaining steps, uninterrupted and without faults. */
  ghost function FinishCreate(s: State, p: Pid, answer: Answer): State
    requires p in s.creates
    decreases CreateRank(s.creates[p])
  {
    if s.creates[p].Finished? then s
    else
      CreateProgress(s, p, NextCreate(s.creates[p], answer));
      FinishCreate(ApplyCreate(s, p, NextCreate(s.creates[p], answer)), p, answer)
  }

  function NextAuth(a: AuthProc, valid: bool, token: string): AuthStep
    requires !a.AuthFinished?
  {
    match a
    case ReadingNonce(_, _, _) => ReadNonce(NoFault)
    case Verifying(_, _, _) => Verify(valid)
    case ClaimingNonce(_, _, _) => TakeNonce(NoFault)
    case Issuing(_, _) => Mint(token, NoFault)
  }

  function AuthRank(a: AuthProc): nat {
    match a
    case ReadingNonce(_, _, _) => 4
    case Verifying(_, _, _) => 3
    case ClaimingNonce(_, _, _) => 2
    case Issuing(_, _) => 1
    case AuthFinished(_) => 0
  }

  predicate SignatureFits(a: AuthProc, valid: bool) {
    valid && (a.ReadingNonce? || a.Verifying?) ==> AcceptedChainCode(a.cc)
  }

  lemma AuthProgress(s: State, p: Pid, e: AuthStep)
    requires AuthEnabled(s, p, e) && !e.BeginAuth?
    ensures var s' := ApplyAuth(s, p, e);
      && p in s'.auths && AuthRank(s'.auths[p]) < AuthRank(s.auths[p])
      && (forall valid :: SignatureFits(s.auths[p], valid) ==> SignatureFits(s'.auths[p], valid))
  {
    match e
    case ReadNonce(_) =>
    case Verify(_) =>
    case TakeNonce(_) =>
    case Mint(_, _) =>
    case CrashAuth =>
  }

  ghost function FinishAuth(s: State, p: Pid, valid: bool, token: string): State
    requires p in s.auths && SignatureFits(s.auths[p], valid)
    decreases AuthRank(s.auths[p])
  {
    if s.auths[p].AuthFinished? then s
    else
      AuthProgress(s, p, NextAuth(s.auths[p], valid, token));
      FinishAuth(ApplyAuth(s, p, NextAuth(s.auths[p], valid, token)), p, valid, token)
  }

  /** A lone request on the given tables. */
  function CreateAlone(rows: Table, now: nat, pk: string): State {
    INIT.(rows := rows, clock := now, creates := map[0 := Claiming(pk)])
  }

  function AuthAlone(rows: Table, tokens: map<string, string>, pk: string, cc: string, nonce: int64): State {
    INIT.(rows := rows, tokens := tokens, auths := map[0 := ReadingNonce(pk, cc, nonce)])
  }

  // ---------- what a lone request does to the tables ----------

  ghost function CreateEffect(t: Table, pk: string, now: nat, answer: Answer): (Table, CreateOutcome) {
    var claim := ClaimReapUserCreate(t, pk, now);
    if !claim.affected then (t, AfterLook(t, pk, NoFault))
    else AnswerEffect(claim.table, pk, answer)
  }

  /** The sequential effect is the run of the request's own steps. */
  lemma CreateEffectIsRun(t: Table, pk: string, now: nat, answer: Answer)
    ensures var done := FinishCreate(CreateAlone(t, now, pk), 0, answer);
      var (t', outcome) := CreateEffect(t, pk, now, answer);
      0 in done.creates && done.creates[0] == Finished(pk, outcome) && done.rows == t'
  {
    var s0 := CreateAlone(t, now, pk);
    var s1 := ApplyClaim(s0, 0, NoFault);
    assert FinishCreate(s0, 0, answer) == FinishCreate(s1, 0, answer);
    if ClaimReapUserCreate(t, pk, now).affected {
      CreateEffectAfterClaim(s1, pk, answer);
    } else {
      assert FinishCreate(s1, 0, answer) == FinishCreate(ApplyLook(s1, 0, NoFault), 0, answer);
    }
  }

  /** What is left after the claim, in table terms. */
  ghost function AnswerEffect(t: Table, pk: string, answer: Answer): (Table, CreateOutcome) {
    if !Succeeded(answer) then (ReleaseReapUserCreate(t, pk), PassedThrough)
    else if answer.id == "" then (t, MissingId)
    else
      var r := SetReapUserID(t, pk, answer.id);
      (if r.Ran? then r.table else t, AfterRecord(NoFault, r, answer.id))
  }

  lemma CreateEffectAfterClaim(s: State, pk: string, answer: Answer)
    requires 0 in s.creates && s.creates[0].Granted? && s.creates[0].pk == pk
    ensures var done := FinishCreate(s, 0, answer);
      var (t', outcome) := AnswerEffect(s.rows, pk, answer);
      0 in done.creates && done.creates[0] == Finished(pk, outcome) && done.rows == t'
  {
    var s1 := ApplySend(s, 0);
    var s2 := ApplyReply(s1, 0, answer);
    assert FinishCreate(s, 0, answer) == FinishCreate(s1, 0, answer) == FinishCreate(s2, 0, answer);
    assert s2.rows == s.rows && s2.creates[0].pk == pk;
    CreateEffectAfterReply(s2, answer);
  }

  lemma CreateEffectAfterReply(s: State, answer: Answer)
    requires 0 in s.creates
    requires s.creates[0].Releasing? || s.creates[0].Recording? || s.creates[0].Finished?
    ensures var c, done := s.creates[0], FinishCreate(s, 0, answer);
      && 0 in done.creates
      && (c.Finished? ==> done == s)
      && (c.Releasing? ==>
            done.creates[0] == Finished(c.pk, PassedThrough) && done.rows == ReleaseReapUserCreate(s.rows, c.pk))
      && (c.Recording? ==>
            var r := SetReapUserID(s.rows, c.pk, c.id);
            && done.creates[0] == Finished(c.pk, AfterRecord(NoFault, r, c.id))
            && done.rows == if r.Ran? then r.table else s.rows)
  {
    if s.creates[0].Releasing? {
      assert FinishCreate(s, 0, answer) == FinishCreate(ApplyRelease(s, 0, NoFault), 0, answer);
    } else if s.creates[0].Recording? {
      assert FinishCreate(s, 0, answer) == FinishCreate(ApplyRecord(s, 0, NoFault), 0, answer);
    }
  }

  function AuthEffect(t: Table, tokens: map<string, string>, pk: string, cc: string, nonce: int64, valid: bool,
                      token: string): (Table, map<string, string>, AuthOutcome)
  {
    var claim := ClaimNonce(t, pk, nonce, cc);
    if nonce != GetNonce(t, pk) then (t, tokens, NonceUsed)
    else if !valid then (t, tokens, InvalidSignature)
    else if claim.Failed? then (t, tokens, AuthError)
    else if !claim.affected then (t, tokens, NonceUsed)
    else if token in tokens then (claim.table, tokens, AuthError)
    else (claim.table, tokens[token := pk], Issued)
  }

  lemma AuthEffectIsRun(t: Table, tokens: map<string, string>, pk: string, cc: string, nonce: int64, valid: bool,
                        token: string)
    requires valid ==> AcceptedChainCode(cc)
    ensures var done := FinishAuth(AuthAlone(t, tokens, pk, cc, nonce), 0, valid, token);
      var (t', tokens', outcome) := AuthEffect(t, tokens, pk, cc, nonce, valid, token);
      0 in done.auths && done.auths[0] == AuthFinished(outcome) && done.rows == t' && done.tokens == tokens'
  {
    var s0 := AuthAlone(t, tokens, pk, cc, nonce);
    var s1 := SetAuth(s0, 0, AfterReadNonce(t, s0.auths[0], NoFault));
    assert FinishAuth(s0, 0, valid, token) == FinishAuth(s1, 0, valid, token);
    if nonce == GetNonce(t, pk) {
      var s2 := SetAuth(s1, 0, AfterVerify(s1.auths[0], valid));
      assert FinishAuth(s1, 0, valid, token) == FinishAuth(s2, 0, valid, token);
      if valid {
        AuthEffectAfterVerify(s2, valid, token);
      }
    }
  }

  lemma AuthEffectAfterClaim(s: State, valid: bool, token: string)
    requires 0 in s.auths && s.auths[0].Issuing?
    ensures var done := FinishAuth(s, 0, valid, token);
      && 0 in done.auths && done.auths[0] == AuthFinished(if token in s.tokens then AuthError else Issued)
      && done.rows == s.rows
      && done.tokens == if token in s.tokens then s.tokens else s.tokens[token := s.auths[0].pk]
  {
    assert FinishAuth(s, 0, valid, token) == FinishAuth(ApplyMint(s, 0, token, NoFault), 0, valid, token);
  }

  lemma AuthEffectAfterVerify(s: State, valid: bool, token: string)
    requires 0 in s.auths && s.auths[0].ClaimingNonce? && s.auths[0].nonce == GetNonce(s.rows, s.auths[0].pk)
    ensures var a, done := s.auths[0], FinishAuth(s, 0, valid, token);
      var (t', tokens', outcome) := AuthEffect(s.rows, s.tokens, a.pk, a.cc, a.nonce, true, token);
      0 in done.auths && done.auths[0] == AuthFinished(outcome) && done.rows == t' && done.tokens == tokens'
  {
    var a := s.auths[0];
    var s1 := ApplyTakeNonce(s, 0, NoFault);
    assert FinishAuth(s, 0, valid, token) == FinishAuth(s1, 0, valid, token);
    var r := ClaimNonce(s.rows, a.pk, a.nonce, a.cc);
    if r.Ran? && r.affected {
      AuthEffectAfterClaim(s1, valid, token);
    }
  }

  // ---------- the same in terms of the rows ----------

  predicate Answered2xx(answer: Answer) {
    answer.Response? && 200 <= answer.status <= 299
  }

  /**
   What one CreateUser request comes to. On a row that is not free it changes nothing and says whether
   the vault has a user. Otherwise its claim stands if REAP created the user and no ID was recorded,
   is given back if REAP gave no 2xx, and makes way for the ID when that is recorded.
   */
  ghost predicate CreateDone(t: Table, t': Table, pk: string, now: nat, answer: Answer, outcome: CreateOutcome) {
    if !Free(t, pk, now) then
      && t' == t
      && outcome == if t[pk].userId.Some? && t[pk].userId.value != "" then UserExists else CreateInFlight
    else if !Answered2xx(answer) then
      outcome == PassedThrough && SameButClaim(t, t', pk) && t'[pk].createStartedAt.None?
    else if answer.id == "" then
      outcome == MissingId && SameButClaim(t, t', pk) && t'[pk].createStartedAt == Some(now)
    else if exists other :: MapsTo(t, other, answer.id) then
      outcome == StoreError && SameButClaim(t, t', pk) && t'[pk].createStartedAt == Some(now)
    else
      && outcome == UserRecorded(answer.id)
      && pk in t' && t'[pk].userId == Some(answer.id) && t'[pk].createStartedAt.None?
      && t'[pk].nonce == (if pk in t then t[pk].nonce else 0)
      && t'[pk].chainCode == (if pk in t then t[pk].chainCode else None)
      && OthersSame(t, t', pk)
  }

  lemma CreateEffectExactly(t: Table, pk: string, now: nat, answer: Answer)
    ensures var (t', outcome) := CreateEffect(t, pk, now, answer); CreateDone(t, t', pk, now, answer, outcome)
  {
    ClaimedSameUsers(t, pk, now, if answer.Response? then answer.id else "");
  }

  /** A granted claim gives no vault a user. */
  lemma ClaimedSameUsers(t: Table, pk: string, now: nat, id: string)
    ensures ClaimReapUserCreate(t, pk, now).affected <==> Free(t, pk, now)
    ensures var claimed := ClaimReapUserCreate(t, pk, now).table;
      forall other :: MapsTo(claimed, other, id) <==> MapsTo(t, other, id)
    ensures Free(t, pk, now) ==> forall other :: MapsTo(t, other, id) ==> other != pk
  {}

  /** What one Authenticate request comes to, for the given verdict on its signature. */
  ghost predicate AuthDone(t: Table, t': Table, tokens: map<string, string>, tokens': map<string, string>, pk: string,
                           cc: string, nonce: int64, valid: bool, token: string, outcome: AuthOutcome)
  {
    var code := ToLower(TrimPrefix(cc, "0x"));
    if !HoldsNonce(t, pk, nonce) then outcome == NonceUsed && t' == t && tokens' == tokens
    else if !valid then outcome == InvalidSignature && t' == t && tokens' == tokens
    else if nonce == MAX_INT64 then outcome == AuthError && t' == t && tokens' == tokens
    else if pk in t && t[pk].chainCode.Some? && t[pk].chainCode.value != code then
      outcome == NonceUsed && t' == t && tokens' == tokens
    else
      && pk in t' && t'[pk].nonce as int == nonce as int + 1 && t'[pk].chainCode == Some(code)
      && t'[pk].userId == (if pk in t then t[pk].userId else None)
      && t'[pk].createStartedAt == (if pk in t then t[pk].createStartedAt else None)
      && OthersSame(t, t', pk)
      && outcome == (if token in tokens then AuthError else Issued)
      && tokens' == if token in tokens then tokens else tokens[token := pk]
  }

  lemma AuthEffectExactly(t: Table, tokens: map<string, string>, pk: string, cc: string, nonce: int64, valid: bool,
                          token: string)
    ensures var (t', tokens', outcome) := AuthEffect(t, tokens, pk, cc, nonce, valid, token);
      AuthDone(t, t', tokens, tokens', pk, cc, nonce, valid, token, outcome)
  {}

  // ---------- the services ----------

  lemma UniqueAfterClaim(t: Table, pk: string, now: nat)
    requires Unique(t)
    ensures Unique(ClaimReapUserCreate(t, pk, now).table)
  {
    UniqueUnderUpdate(t, pk, ClaimReapUserCreate(t, pk, now).table[pk]);
  }

  lemma UniqueAfterRelease(t: Table, pk: string)
    requires Unique(t)
    ensures Unique(ReleaseReapUserCreate(t, pk))
  {
    if pk in t {
      UniqueUnderUpdate(t, pk, ReleaseReapUserCreate(t, pk)[pk]);
    }
  }

  method CreateUser(store: Store, pk: string, now: nat, answer: Answer) returns (outcome: CreateOutcome)
    requires Unique(store.rows)
    modifies store
    ensures (store.rows, outcome) == CreateEffect(old(store.rows), pk, now, answer)
    ensures CreateDone(old(store.rows), store.rows, pk, now, answer, outcome)
    ensures Unique(store.rows) && Evolves(old(store.rows), store.rows)
  {
    CreateEffectExactly(store.rows, pk, now, answer);
    UniqueAfterClaim(store.rows, pk, now);
    var claimed := store.ClaimReapUserCreateStmt(pk, now);
    if !claimed {
      outcome := if GetReapUserID(store.rows, pk) != "" then UserExists else CreateInFlight;
      return;
    }
    if answer.CallFailed? || answer.status < 200 || answer.status >= 300 {
      UniqueAfterRelease(store.rows, pk);
      store.ReleaseReapUserCreateStmt(pk);
      outcome := PassedThrough;
      return;
    }
    if answer.id == "" {
      outcome := MissingId;
      return;
    }
    var ok, err := store.SetReapUserIDStmt(pk, answer.id);
    outcome := if err then StoreError else if ok then UserRecorded(answer.id) else OtherIdRecorded;
  }

  /** vaulttoken: the issued token IDs and their vaults. */
  class TokenStore {
    var tokens: map<string, string>

    constructor ()
      ensures tokens == map[]
    {
      tokens := map[];
    }

    method RecordStmt(token: string, pk: string) returns (err: bool)
      modifies this
      ensures err == (token in old(tokens))
      ensures tokens == if err then old(tokens) else old(tokens)[token := pk]
    {
      err := token in tokens;
      if !err {
        tokens := tokens[token := pk];
      }
    }
  }

  /**
   For a root key with a derived key at m/44/60/0/0/0 whose public key and chain code the request
   names: a token is issued only on a signature of the nonce by that derived key, and a refusal of
   the signature means it is none.
   */
  ghost predicate SignatureDecides<P(!new), S(!new)>(sc: Scheme<P, S>, pk: string, cc: string, nonce: int64,
                                                     signatureHex: string, outcome: AuthOutcome)
    requires sc.curve.n > 0
  {
    forall root: PrivateKey ::
      NamesRoot(sc, root, pk, cc) && DerivePrivate(sc.curve, root, [44, 60, 0, 0, 0]).Ok? ==>
        var scalar := DerivePrivate(sc.curve, root, [44, 60, 0, 0, 0]).value.key;
        && (outcome.Issued? ==> SignedBy(sc, scalar, nonce, signatureHex))
        && (outcome.InvalidSignature? ==> !SignedBy(sc, scalar, nonce, signatureHex))
  }

  lemma VerdictDecides<P(!new), S(!new)>(sc: Scheme<P, S>, pk: string, cc: string, nonce: int64, signatureHex: string)
    requires LawfulScheme(sc)
    ensures forall outcome: AuthOutcome ::
      (outcome.Issued? ==> VerifySignature(sc, pk, cc, nonce, signatureHex))
      && (outcome.InvalidSignature? ==> !VerifySignature(sc, pk, cc, nonce, signatureHex))
      ==> SignatureDecides(sc, pk, cc, nonce, signatureHex, outcome)
  {
    forall root: PrivateKey
      | NamesRoot(sc, root, pk, cc) && DerivePrivate(sc.curve, root, [44, 60, 0, 0, 0]).Ok?
      ensures VerifySignature(sc, pk, cc, nonce, signatureHex)
         <==> SignedBy(sc, DerivePrivate(sc.curve, root, [44, 60, 0, 0, 0]).value.key, nonce, signatureHex)
    {
      VerifiedExactly(sc, root, pk, cc, nonce, signatureHex);
    }
  }

  /** `token` is the random token ID. */
  method Authenticate<P(!new), S(!new)>(store: Store, vault: TokenStore, sc: Scheme<P, S>, pk: string, cc: string,
                                        nonce: int64, signatureHex: string, token: string)
    returns (outcome: AuthOutcome)
    modifies store, vault
    ensures (store.rows, vault.tokens, outcome)
         == AuthEffect(old(store.rows), old(vault.tokens), pk, cc, nonce,
                       VerifySignature(sc, pk, cc, nonce, signatureHex), token)
    ensures AuthDone(old(store.rows), store.rows, old(vault.tokens), vault.tokens, pk, cc, nonce,
                     VerifySignature(sc, pk, cc, nonce, signatureHex), token, outcome)
    ensures LawfulScheme(sc) ==> SignatureDecides(sc, pk, cc, nonce, signatureHex, outcome)
    ensures Evolves(old(store.rows), store.rows)
    ensures outcome.Issued? ==>
      && VerifySignature(sc, pk, cc, nonce, signatureHex)
      && GetNonce(old(store.rows), pk) == nonce && GetNonce(store.rows, pk) == nonce + 1
      && token !in old(vault.tokens) && token in vault.tokens && vault.tokens[token] == pk
  {
    ghost var valid := VerifySignature(sc, pk, cc, nonce, signatureHex);
    AuthEffectExactly(store.rows, vault.tokens, pk, cc, nonce, valid, token);
    if LawfulScheme(sc) {
      VerdictDecides(sc, pk, cc, nonce, signatureHex);
    }
    if nonce != GetNonce(store.rows, pk) {
      return NonceUsed;
    }
    if !VerifySignature(sc, pk, cc, nonce, signatureHex) {
      return InvalidSignature;
    }
    var claimed, err := store.ClaimNonceStmt(pk, nonce, cc);
    if err {
      return AuthError;
    }
    if !claimed {
      return NonceUsed;
    }
    err := vault.RecordStmt(token, pk);
    outcome := if err then AuthError else Issued;
  }
}
