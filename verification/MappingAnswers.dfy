/**
 How the statements and replies of CreateUser and Authenticate end, exactly, in every run: each step's
 answer and its effect on the row, in terms of the row's fields, REAP's reply and what happened before.
 */
module MappingAnswers {
  import opened GoText
  import opened Processes
  import opened ReapMapping
  import opened MappingRuns
  import MappingSafety
  import MappingOutcomes

  // ---------- CreateUser ----------

  /** The row lets a claim through at time now: new, or without a user and without a claim of the last minute. */
  ghost predicate Free(t: Table, pk: string, now: nat) {
    pk in t ==>
      t[pk].userId.None? && (t[pk].createStartedAt.None? || now > t[pk].createStartedAt.value + 60_000_000)
  }

  /** Nothing of the row but its claim. */
  ghost predicate SameButClaim(t: Table, t': Table, pk: string) {
    && pk in t'
    && (pk in t ==> t'[pk].nonce == t[pk].nonce && t'[pk].chainCode == t[pk].chainCode && t'[pk].userId == t[pk].userId)
    && (pk !in t ==> t'[pk].nonce == 0 && t'[pk].chainCode.None? && t'[pk].userId.None?)
    && OthersSame(t, t', pk)
  }

  ghost predicate OthersSame(t: Table, t': Table, pk: string) {
    forall other :: other != pk ==> (other in t' <==> other in t) && (other in t ==> t'[other] == t[other])
  }

  /** A claim is granted exactly on a free row, which it marks with the time and nothing else. */
  lemma ClaimEndsExactly(s: State, p: Pid)
    requires p in s.creates && s.creates[p].Claiming?
    ensures var pk := s.creates[p].pk;
      var s' := Apply(s, Create(p, Claim(NoFault)));
      && p in s'.creates
      && (Free(s.rows, pk, s.clock) ==>
            && s'.creates[p] == Granted(pk, s.clock) && SameButClaim(s.rows, s'.rows, pk)
            && s'.rows[pk].createStartedAt == Some(s.clock))
      && (!Free(s.rows, pk, s.clock) ==> s'.creates[p] == Looking(pk) && s'.rows == s.rows)
  {}

  /** A refused request is told that the user exists exactly when some record for the vault took effect. */
  lemma LookEndsExactly(states: seq<State>, steps: seq<Step>, i: nat, p: Pid)
    requires IsRun(states, steps) && i < |steps| && steps[i] == Create(p, Look(NoFault))
    ensures p in states[i].creates && p in states[i + 1].creates && states[i + 1].creates[p].Finished?
    ensures var pk, outcome := states[i].creates[p].pk, states[i + 1].creates[p].outcome;
      && (outcome == UserExists <==> Recorded(pk) in states[i].calls)
      && (outcome == CreateInFlight <==> Recorded(pk) !in states[i].calls)
    ensures states[i + 1].rows == states[i].rows
  {
    MappingOutcomes.RunLogged(states, steps, i);
    MappingSafety.RunKeeps(states, steps, i);
    var pk := states[i].creates[p].pk;
    assert MappingOutcomes.HasUser(states[i].rows, pk) <==> Recorded(pk) in states[i].calls;
    assert pk in states[i].rows ==> MappingSafety.RowOk(states[i].rows[pk]);
  }

  /** What a reply leads to: a 2xx with an ID to the record, a 2xx without one to nothing, all else to the release. */
  lemma ReplyEndsExactly(s: State, p: Pid, answer: Answer)
    requires p in s.creates && s.creates[p].Calling?
    ensures var c, s' := s.creates[p], Apply(s, Create(p, Reply(answer)));
      && s'.rows == s.rows && p in s'.creates
      && (answer.Response? && 200 <= answer.status <= 299 && answer.id != "" ==>
            s'.creates[p] == Recording(c.pk, c.at, s.clock, answer.id))
      && (answer.Response? && 200 <= answer.status <= 299 && answer.id == "" ==>
            s'.creates[p] == Finished(c.pk, MissingId))
      && (answer.CallFailed? || answer.status < 200 || answer.status > 299 ==>
            s'.creates[p] == Releasing(c.pk, c.at, s.clock))
  {}

  /** A release that takes effect clears the claim of a row without a user, and only that. */
  lemma ReleaseEndsExactly(s: State, p: Pid)
    requires p in s.creates && s.creates[p].Releasing?
    ensures var pk, s' := s.creates[p].pk, Apply(s, Create(p, Release(NoFault)));
      && p in s'.creates && s'.creates[p] == Finished(pk, PassedThrough)
      && (pk in s.rows && s.rows[pk].userId.None? ==>
            SameButClaim(s.rows, s'.rows, pk) && s'.rows[pk].createStartedAt.None?)
      && (pk !in s.rows || s.rows[pk].userId.Some? ==> s'.rows == s.rows)
  {}

  /** A record that takes effect sets the user, clears the claim, and nothing else. */
  lemma RecordTakesExactly(states: seq<State>, steps: seq<Step>, i: nat, p: Pid)
    requires IsRun(states, steps) && i < |steps| && steps[i] == Create(p, Record(NoFault))
    ensures p in states[i].creates && states[i].creates[p].Recording?
    ensures var c, t, t' := states[i].creates[p], states[i].rows, states[i + 1].rows;
      if Recorded(c.pk) in states[i].calls || (exists other :: MapsTo(t, other, c.id)) then t' == t
      else
        && c.pk in t' && t'[c.pk].userId == Some(c.id) && t'[c.pk].createStartedAt.None?
        && t'[c.pk].nonce == GetNonce(t, c.pk)
        && t'[c.pk].chainCode == (if c.pk in t then t[c.pk].chainCode else None)
        && OthersSame(t, t', c.pk)
  {
    MappingOutcomes.RunLogged(states, steps, i);
    var c := states[i].creates[p];
    assert MappingOutcomes.HasUser(states[i].rows, c.pk) <==> Recorded(c.pk) in states[i].calls;
    if exists other :: MapsTo(states[i].rows, other, c.id) {
      var other :| MapsTo(states[i].rows, other, c.id);
      assert other == c.pk ==> MappingOutcomes.HasUser(states[i].rows, c.pk);
    }
  }

  /**
   A statement whose caller sees an error ends the request with an error, a failed release with
   REAP's reply; without effect the tables stay, unacknowledged they change as without the fault.
   */
  lemma ClaimFaultEnds(s: State, p: Pid, fault: Fault)
    requires p in s.creates && s.creates[p].Claiming? && !fault.NoFault?
    ensures var s' := Apply(s, Create(p, Claim(fault)));
      && p in s'.creates && s'.creates[p] == Finished(s.creates[p].pk, StoreError)
      && s'.rows == if fault.NotApplied? then s.rows else Apply(s, Create(p, Claim(NoFault))).rows
  {}

  lemma LookFaultEnds(s: State, p: Pid, fault: Fault)
    requires p in s.creates && s.creates[p].Looking? && !fault.NoFault?
    ensures var s' := Apply(s, Create(p, Look(fault)));
      p in s'.creates && s'.creates[p] == Finished(s.creates[p].pk, StoreError) && s'.rows == s.rows
  {}

  lemma ReleaseFaultEnds(s: State, p: Pid, fault: Fault)
    requires p in s.creates && s.creates[p].Releasing? && !fault.NoFault?
    ensures var s' := Apply(s, Create(p, Release(fault)));
      && p in s'.creates && s'.creates[p] == Finished(s.creates[p].pk, PassedThrough)
      && s'.rows == if fault.NotApplied? then s.rows else Apply(s, Create(p, Release(NoFault))).rows
  {}

  lemma RecordFaultEnds(s: State, p: Pid, fault: Fault)
    requires p in s.creates && s.creates[p].Recording? && !fault.NoFault?
    ensures var s' := Apply(s, Create(p, Record(fault)));
      && p in s'.creates && s'.creates[p] == Finished(s.creates[p].pk, StoreError)
      && s'.rows == if fault.NotApplied? then s.rows else Apply(s, Create(p, Record(NoFault))).rows
  {}

  // ---------- Authenticate ----------

  lemma AuthFaultsEnd(s: State, p: Pid, token: string, fault: Fault)
    requires p in s.auths && !fault.NoFault?
    ensures s.auths[p].ReadingNonce? ==>
      var s' := Apply(s, Auth(p, ReadNonce(fault)));
      p in s'.auths && s'.auths[p] == AuthFinished(AuthError) && s'.rows == s.rows
    ensures s.auths[p].ClaimingNonce? ==>
      var s' := Apply(s, Auth(p, TakeNonce(fault)));
      && p in s'.auths && s'.auths[p] == AuthFinished(AuthError)
      && s'.rows == if fault.NotApplied? then s.rows else Apply(s, Auth(p, TakeNonce(NoFault))).rows
    ensures s.auths[p].Issuing? ==>
      var s' := Apply(s, Auth(p, Mint(token, fault)));
      && p in s'.auths && s'.auths[p] == AuthFinished(AuthError)
      && s'.tokens == if fault.NotApplied? then s.tokens else Apply(s, Auth(p, Mint(token, NoFault))).tokens
  {}

  /** The nonce the row holds, 0 without a row. */
  ghost predicate HoldsNonce(t: Table, pk: string, nonce: int) {
    if pk in t then t[pk].nonce == nonce else nonce == 0
  }

  /** No chain code is recorded, or one of the same 32 bytes as cc. */
  ghost predicate CodeFits(t: Table, pk: string, cc: string) {
    pk in t && t[pk].chainCode.Some? ==> HexDecode(t[pk].chainCode.value) == HexDecode(TrimPrefix(cc, "0x"))
  }

  lemma FirstReadEndsExactly(s: State, p: Pid)
    requires p in s.auths && s.auths[p].ReadingNonce?
    ensures var a, s' := s.auths[p], Apply(s, Auth(p, ReadNonce(NoFault)));
      && s'.rows == s.rows && p in s'.auths
      && s'.auths[p] == if HoldsNonce(s.rows, a.pk, a.nonce) then Verifying(a.pk, a.cc, a.nonce)
                        else AuthFinished(NonceUsed)
  {}

  lemma VerifyEndsExactly(s: State, p: Pid, valid: bool)
    requires AuthEnabled(s, p, Verify(valid))
    ensures var a, s' := s.auths[p], Apply(s, Auth(p, Verify(valid)));
      && s'.rows == s.rows && p in s'.auths
      && s'.auths[p] == if valid then ClaimingNonce(a.pk, a.cc, a.nonce) else AuthFinished(InvalidSignature)
  {}

  /** The row after an effective claim: the next nonce and the claim's 32 bytes, nothing else. */
  ghost predicate NonceTaken(t: Table, t': Table, a: AuthProc)
    requires a.ClaimingNonce?
  {
    && a.pk in t' && t'[a.pk].nonce as int == a.nonce as int + 1
    && t'[a.pk].chainCode.Some? && HexDecode(t'[a.pk].chainCode.value) == HexDecode(TrimPrefix(a.cc, "0x"))
    && t'[a.pk].userId == (if a.pk in t then t[a.pk].userId else None)
    && t'[a.pk].createStartedAt == (if a.pk in t then t[a.pk].createStartedAt else None)
    && OthersSame(t, t', a.pk)
  }

  /** The stored code matches the claim's normalized one exactly when the bytes are equal. */
  lemma CodesCompare(states: seq<State>, steps: seq<Step>, i: nat, pk: string, cc: string)
    requires IsRun(states, steps) && i < |states| && AcceptedChainCode(cc)
    ensures CodeFits(states[i].rows, pk, cc) <==>
      (pk in states[i].rows && states[i].rows[pk].chainCode.Some? ==>
         states[i].rows[pk].chainCode.value == NormalizeChainCode(cc))
    ensures HexDecode(NormalizeChainCode(cc)) == HexDecode(TrimPrefix(cc, "0x"))
  {
    MappingSafety.ChainCodeAgreement(cc, cc);
    if pk in states[i].rows && states[i].rows[pk].chainCode.Some? {
      MappingSafety.RecordedCodeComparesBytes(states, steps, i, pk, cc);
    }
  }

  /**
   A nonce claim goes through exactly when the row still holds the nonce and no chain code of other
   bytes; otherwise the nonce counts as used and nothing changes.
   */
  lemma NonceClaimEndsExactly(states: seq<State>, steps: seq<Step>, i: nat, p: Pid)
    requires IsRun(states, steps) && i < |steps| && steps[i] == Auth(p, TakeNonce(NoFault))
    ensures p in states[i].auths && states[i].auths[p].ClaimingNonce? && p in states[i + 1].auths
    ensures var a, t, t' := states[i].auths[p], states[i].rows, states[i + 1].rows;
      var next := states[i + 1].auths[p];
      a.nonce < MAX_INT64 ==>
        && (next == Issuing(a.pk, a.nonce) <==> HoldsNonce(t, a.pk, a.nonce) && CodeFits(t, a.pk, a.cc))
        && (next == Issuing(a.pk, a.nonce) ==> NonceTaken(t, t', a))
        && (next != Issuing(a.pk, a.nonce) ==> next == AuthFinished(NonceUsed) && t' == t)
    ensures var a := states[i].auths[p];
      a.nonce == MAX_INT64 ==> states[i + 1].auths[p] == AuthFinished(AuthError) && states[i + 1].rows == states[i].rows
  {
    var a, t := states[i].auths[p], states[i].rows;
    MappingSafety.RunKeeps(states, steps, i);
    assert MappingSafety.AuthOk(t, a);
    CodesCompare(states, steps, i, a.pk, a.cc);
    if a.pk !in t {
      MappingSafety.InsertOnlyFromZero(states, steps, i, p);
    }
  }

  /**
   Every claim that took effect, acknowledged or not, carried the vault's chain code: at any later
   time the recorded code has the claim's bytes.
   */
  lemma ClaimsCarryTheCode(states: seq<State>, steps: seq<Step>, i: nat, j: nat, p: Pid, fault: Fault)
    requires IsRun(states, steps) && i < |steps| && steps[i] == Auth(p, TakeNonce(fault)) && i < j < |states|
    requires states[i + 1].claims != states[i].claims
    ensures p in states[i].auths && states[i].auths[p].ClaimingNonce?
    ensures var a, t, later := states[i].auths[p], states[i].rows, states[j].rows;
      && states[i + 1].claims == states[i].claims + [NonceClaim(a.pk, a.nonce)]
      && HoldsNonce(t, a.pk, a.nonce) && CodeFits(t, a.pk, a.cc)
      && a.pk in later && later[a.pk].chainCode.Some?
      && HexDecode(later[a.pk].chainCode.value) == HexDecode(TrimPrefix(a.cc, "0x"))
  {
    var a, t := states[i].auths[p], states[i].rows;
    MappingSafety.RunKeeps(states, steps, i);
    assert MappingSafety.AuthOk(t, a);
    CodesCompare(states, steps, i, a.pk, a.cc);
    if a.pk !in t {
      MappingSafety.InsertOnlyFromZero(states, steps, i, p);
    }
    MappingSafety.WriteOnce(states, steps, i + 1, j);
    assert states[i + 1].rows[a.pk].chainCode == Some(NormalizeChainCode(a.cc));
  }

  /** A token is issued exactly when its ID is new, and then stands for the claimed nonce. */
  lemma MintEndsExactly(s: State, p: Pid, token: string)
    requires p in s.auths && s.auths[p].Issuing?
    ensures var a, s' := s.auths[p], Apply(s, Auth(p, Mint(token, NoFault)));
      && s'.rows == s.rows && p in s'.auths
      && (token !in s.tokens ==>
            && s'.auths[p] == AuthFinished(Issued)
            && s'.tokens == s.tokens[token := a.pk] && s'.tokenNonce == s.tokenNonce[token := a.nonce])
      && (token in s.tokens ==>
            s'.auths[p] == AuthFinished(AuthError) && s'.tokens == s.tokens && s'.tokenNonce == s.tokenNonce)
  {}
}
