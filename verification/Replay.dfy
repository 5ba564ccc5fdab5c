/**
 How far a signed nonce can be used again. Rows are keyed by the public key as the request spells it,
 while verifySignature reads the key's bytes: a nonce claimed under one spelling is used up for that
 spelling, and for that spelling only.
 */
module Replay {
  import opened GoText
  import opened Processes
  import opened ReapMapping
  import opened MappingRuns
  import opened AuthSignature
  import opened Bip32
  import MappingSafety

  // ---------- one spelling ----------

  /** The a-th claim is pk's next one after those before it. */
  lemma {:induction false} ClaimAt(claims: seq<NonceClaim>, a: nat)
    requires a < |claims|
    ensures var pk := claims[a].pk;
      var k := |MappingSafety.ClaimsOf(claims[..a], pk)|;
      k < |MappingSafety.ClaimsOf(claims, pk)| && MappingSafety.ClaimsOf(claims, pk)[k] == claims[a].nonce as int
    decreases |claims|
  {
    var before := claims[..|claims| - 1];
    if a < |before| {
      ClaimAt(before, a);
      assert before[..a] == claims[..a];
    }
  }

  lemma {:induction false} FewerBefore(claims: seq<NonceClaim>, a: nat, b: nat)
    requires a < b < |claims|
    ensures var pk := claims[a].pk;
      |MappingSafety.ClaimsOf(claims[..a], pk)| < |MappingSafety.ClaimsOf(claims[..b], pk)|
  {
    ClaimAt(claims[..b], a);
    assert claims[..b][..a] == claims[..a];
  }

  /** Over any run no nonce is claimed twice under one spelling of a key. */
  lemma ClaimedOnce(states: seq<State>, steps: seq<Step>, i: nat, a: nat, b: nat)
    requires IsRun(states, steps) && i < |states| && a < |states[i].claims| && b < |states[i].claims|
    requires states[i].claims[a] == states[i].claims[b]
    ensures a == b
  {
    MappingSafety.RunKeeps(states, steps, i);
    var claims, pk := states[i].claims, states[i].claims[a].pk;
    assert MappingSafety.ClaimsOf(claims, pk) == MappingSafety.UpTo(GetNonce(states[i].rows, pk));
    ClaimAt(claims, a);
    ClaimAt(claims, b);
    if a < b {
      FewerBefore(claims, a, b);
    } else if b < a {
      FewerBefore(claims, b, a);
    }
  }

  // ---------- another spelling ----------

  /** The same hex text up to case and a "0x" prefix. */
  predicate SameKey(pk: string, qk: string) {
    Unhex(pk).Some? && Unhex(qk).Some? && ToLower(TrimPrefix(pk, "0x")) == ToLower(TrimPrefix(qk, "0x"))
  }

  /** The verdict sees the key's bytes only, so it is the same under every spelling. */
  lemma VerdictIgnoresKeySpelling<P, S>(sc: Scheme<P, S>, pk: string, qk: string, cc: string, nonce: int64,
                                        signatureHex: string)
    requires SameKey(pk, qk)
    ensures VerifySignature(sc, pk, cc, nonce, signatureHex) == VerifySignature(sc, qk, cc, nonce, signatureHex)
  {
    var a, b := TrimPrefix(pk, "0x"), TrimPrefix(qk, "0x");
    HexDecodeIsUpToCase(a);
    HexDecodeIsUpToCase(b);
    HexRoundTrip(HexDecode(a).value);
    HexRoundTrip(HexDecode(b).value);
  }

  /** pk's next nonce is k, and no other chain code than cc is recorded for it. */
  predicate Ready(s: State, pk: string, cc: string, k: int64) {
    && GetNonce(s.rows, pk) == k
    && (pk in s.rows && s.rows[pk].chainCode.Some? ==> s.rows[pk].chainCode == Some(NormalizeChainCode(cc)))
  }

  function ClaimedRow(t: Table, pk: string, cc: string, k: int64): Row
    requires k < MAX_INT64
  {
    (if pk in t then t[pk] else BLANK).(nonce := k + 1, chainCode := Some(NormalizeChainCode(cc)))
  }

  /** The request for nonce k has claimed it. */
  function Claimed(s: State, p: Pid, pk: string, cc: string, k: int64): State
    requires k < MAX_INT64
  {
    s.(rows := s.rows[pk := ClaimedRow(s.rows, pk, cc, k)],
       claims := s.claims + [NonceClaim(pk, k)],
       auths := s.auths[p := Issuing(pk, k)])
  }

  /** The request for nonce k has its token. */
  function Authenticated(s: State, p: Pid, pk: string, cc: string, k: int64, token: string): State
    requires k < MAX_INT64
  {
    Claimed(s, p, pk, cc, k).(tokens := s.tokens[token := pk], tokenNonce := s.tokenNonce[token := k],
                              auths := s.auths[p := AuthFinished(Issued)])
  }

  function Waiting(s: State, p: Pid, a: AuthProc): State {
    s.(auths := s.auths[p := a])
  }

  lemma ClaimEffect(s: State, p: Pid, pk: string, cc: string, k: int64)
    requires Ready(s, pk, cc, k) && k < MAX_INT64
    ensures ApplyTakeNonce(Waiting(s, p, ClaimingNonce(pk, cc, k)), p, NoFault) == Claimed(s, p, pk, cc, k)
  {}

  lemma MintEffect(s: State, p: Pid, pk: string, cc: string, k: int64, token: string)
    requires k < MAX_INT64 && token !in s.tokens
    ensures ApplyMint(Claimed(s, p, pk, cc, k), p, token, NoFault) == Authenticated(s, p, pk, cc, k, token)
  {}

  /** A verified request for the next nonce of a spelling is issued a token. */
  lemma OneRequest(states: seq<State>, steps: seq<Step>, p: Pid, pk: string, cc: string, k: int64, token: string)
    returns (states': seq<State>, steps': seq<Step>)
    requires IsRun(states, steps) && AcceptedChainCode(cc) && k < MAX_INT64
    requires var s := states[|steps|]; p !in s.auths && Ready(s, pk, cc, k) && token !in s.tokens
    ensures IsRun(states', steps') && states <= states'
    ensures states'[|steps'|] == Authenticated(states[|steps|], p, pk, cc, k, token)
  {
    var s := states[|steps|];
    states', steps' := VerifiedStart(states, steps, p, pk, cc, k);
    states', steps' := ClaimAndMint(states', steps', s, p, pk, cc, k, token);
  }

  lemma ReadEffect(s: State, p: Pid, pk: string, cc: string, k: int64)
    requires GetNonce(s.rows, pk) == k
    ensures var a := ReadingNonce(pk, cc, k);
      SetAuth(Waiting(s, p, a), p, AfterReadNonce(s.rows, a, NoFault)) == Waiting(s, p, Verifying(pk, cc, k))
  {}

  lemma VerifiedStart(states: seq<State>, steps: seq<Step>, p: Pid, pk: string, cc: string, k: int64)
    returns (states': seq<State>, steps': seq<Step>)
    requires IsRun(states, steps) && AcceptedChainCode(cc)
    requires p !in states[|steps|].auths && GetNonce(states[|steps|].rows, pk) == k
    ensures IsRun(states', steps') && states <= states'
    ensures states'[|steps'|] == Waiting(states[|steps|], p, ClaimingNonce(pk, cc, k))
  {
    var s := states[|steps|];
    ReadEffect(s, p, pk, cc, k);
    states', steps' := ContinueRun(states, steps, Auth(p, BeginAuth(pk, cc, k)));
    states', steps' := ContinueRun(states', steps', Auth(p, ReadNonce(NoFault)));
    assert states'[|steps'|] == Waiting(s, p, Verifying(pk, cc, k));
    states', steps' := ContinueRun(states', steps', Auth(p, Verify(true)));
    assert states'[|steps'|] == Waiting(s, p, ClaimingNonce(pk, cc, k));
  }

  lemma ClaimAndMint(states: seq<State>, steps: seq<Step>, s: State, p: Pid, pk: string, cc: string, k: int64,
                     token: string)
    returns (states': seq<State>, steps': seq<Step>)
    requires IsRun(states, steps) && states[|steps|] == Waiting(s, p, ClaimingNonce(pk, cc, k))
    requires Ready(s, pk, cc, k) && k < MAX_INT64 && token !in s.tokens
    ensures IsRun(states', steps') && states <= states'
    ensures states'[|steps'|] == Authenticated(s, p, pk, cc, k, token)
  {
    ClaimEffect(s, p, pk, cc, k);
    MintEffect(s, p, pk, cc, k, token);
    states', steps' := ContinueRun(states, steps, Auth(p, TakeNonce(NoFault)));
    states', steps' := ContinueRun(states', steps', Auth(p, Mint(token, NoFault)));
  }

  lemma FreshToken(used: set<string>) returns (token: string)
    ensures token !in used
  {
    var lengths := set t | t in used :: |t|;
    var n := UpperBound(lengths);
    token := seq(n, i => 'a');
    assert token in used ==> |token| in lengths;
  }

  /** The claims of nonces 0, ..., n - 1, in order. */
  function ClaimsUpTo(pk: string, n: nat): (claims: seq<NonceClaim>)
    requires n <= MAX_INT64
    ensures |claims| == n && forall k :: 0 <= k < n ==> claims[k] == NonceClaim(pk, k)
  {
    if n == 0 then [] else ClaimsUpTo(pk, n - 1) + [NonceClaim(pk, n - 1)]
  }

  /** A token of pk stands for nonce k. */
  ghost predicate HasToken(s: State, pk: string, k: int) {
    exists t :: t in s.tokens && t in s.tokenNonce && s.tokens[t] == pk && s.tokenNonce[t] as int == k
  }

  /** Tokens keep their vault and nonce. */
  ghost predicate TokensKept(s: State, s': State) {
    && (forall t :: t in s.tokens ==> t in s'.tokens && s'.tokens[t] == s.tokens[t])
    && (forall t :: t in s.tokenNonce ==> t in s'.tokenNonce && s'.tokenNonce[t] == s.tokenNonce[t])
  }

  lemma TokenIssued(s: State, p: Pid, pk: string, cc: string, k: int64, token: string)
    requires k < MAX_INT64 && token !in s.tokens && token !in s.tokenNonce
    ensures var s' := Authenticated(s, p, pk, cc, k, token); HasToken(s', pk, k) && TokensKept(s, s')
  {
    assert token in Authenticated(s, p, pk, cc, k, token).tokens;
  }

  lemma HasTokenKept(s: State, s': State, pk: string, k: int)
    requires HasToken(s, pk, k) && TokensKept(s, s')
    ensures HasToken(s', pk, k)
  {}

  /** s' is s with nonce k claimed and a token issued for qk. */
  ghost predicate Advanced(s: State, s': State, qk: string, cc: string, k: int64) {
    && k < MAX_INT64
    && s'.claims == s.claims + [NonceClaim(qk, k)] && Ready(s', qk, cc, k + 1)
    && (forall pk :: pk != qk ==> GetNonce(s'.rows, pk) == GetNonce(s.rows, pk))
    && (forall pk :: pk in s'.rows ==> pk in s.rows || pk == qk)
    && TokensKept(s, s') && HasToken(s', qk, k)
  }

  lemma NextRequest(states: seq<State>, steps: seq<Step>, qk: string, cc: string, k: int64)
    returns (states': seq<State>, steps': seq<Step>)
    requires IsRun(states, steps) && AcceptedChainCode(cc) && k < MAX_INT64 && Ready(states[|steps|], qk, cc, k)
    ensures IsRun(states', steps') && states <= states'
    ensures Advanced(states[|steps|], states'[|steps'|], qk, cc, k)
  {
    var s := states[|steps|];
    var p := FreshPid(s.auths.Keys);
    var token := FreshToken(s.tokens.Keys + s.tokenNonce.Keys);
    states', steps' := OneRequest(states, steps, p, qk, cc, k, token);
    TokenIssued(s, p, qk, cc, k, token);
  }

  /** s' is s with nonces 0, ..., n - 1 claimed and a token issued for each. */
  ghost predicate AdvancedTo(s: State, s': State, qk: string, cc: string, n: nat) {
    && n <= MAX_INT64
    && s'.claims == s.claims + ClaimsUpTo(qk, n) && Ready(s', qk, cc, n)
    && (forall pk :: pk != qk ==> GetNonce(s'.rows, pk) == GetNonce(s.rows, pk))
    && (forall pk :: pk in s'.rows ==> pk in s.rows || pk == qk)
    && TokensKept(s, s') && forall k :: 0 <= k < n ==> HasToken(s', qk, k)
  }

  lemma AdvancedOnce(s: State, s1: State, s': State, qk: string, cc: string, n: nat)
    requires n > 0 && AdvancedTo(s, s1, qk, cc, n - 1) && n <= MAX_INT64 && Advanced(s1, s', qk, cc, n - 1)
    ensures AdvancedTo(s, s', qk, cc, n)
  {
    assert s.claims + ClaimsUpTo(qk, n - 1) + [NonceClaim(qk, n - 1)] == s.claims + ClaimsUpTo(qk, n);
    forall k | 0 <= k < n ensures HasToken(s', qk, k) {
      if k < n - 1 {
        HasTokenKept(s1, s', qk, k);
      }
    }
  }

  lemma {:induction false} RunsThrough(states: seq<State>, steps: seq<Step>, qk: string, cc: string, n: nat)
    returns (states': seq<State>, steps': seq<Step>)
    requires IsRun(states, steps) && n <= MAX_INT64 && (n > 0 ==> AcceptedChainCode(cc))
    requires qk !in states[|steps|].rows
    ensures IsRun(states', steps') && states <= states'
    ensures AdvancedTo(states[|steps|], states'[|steps'|], qk, cc, n)
    decreases n
  {
    if n == 0 {
      states', steps' := states, steps;
    } else {
      var states1, steps1 := RunsThrough(states, steps, qk, cc, n - 1);
      states', steps' := NextRequest(states1, steps1, qk, cc, n - 1);
      AdvancedOnce(states[|steps|], states1[|steps1|], states'[|steps'|], qk, cc, n);
    }
  }

  /**
   All of a vault's history can be claimed again: whatever nonces 0, ..., n - 1 of pk were used, the
   same signatures are verified under any other spelling qk, and while qk has no row the run goes on
   to claim the same nonces for it. With ClaimedOnce: a nonce is claimed again exactly under another
   string.
   */
  lemma HistoryStartsOver<P, S>(sc: Scheme<P, S>, states: seq<State>, steps: seq<Step>, pk: string, qk: string,
                                cc: string, signatures: seq<string>)
    returns (states': seq<State>, steps': seq<Step>)
    requires IsRun(states, steps) && pk != qk && SameKey(pk, qk) && qk !in states[|steps|].rows
    requires |signatures| == GetNonce(states[|steps|].rows, pk)
    requires forall k :: 0 <= k < |signatures| ==> VerifySignature(sc, pk, cc, k, signatures[k])
    ensures forall k :: 0 <= k < |signatures| ==> VerifySignature(sc, qk, cc, k, signatures[k])
    ensures IsRun(states', steps') && states <= states'
    ensures states'[|steps'|].claims == states[|steps|].claims + ClaimsUpTo(qk, |signatures|)
    ensures TokensKept(states[|steps|], states'[|steps'|])
    ensures forall k :: 0 <= k < |signatures| ==> HasToken(states'[|steps'|], qk, k)
    ensures MappingSafety.ClaimsOf(states'[|steps'|].claims, pk) == MappingSafety.UpTo(|signatures|)
         == MappingSafety.ClaimsOf(states'[|steps'|].claims, qk)
  {
    forall k | 0 <= k < |signatures| ensures VerifySignature(sc, qk, cc, k, signatures[k]) {
      VerdictIgnoresKeySpelling(sc, pk, qk, cc, k, signatures[k]);
    }
    if |signatures| > 0 {
      VerifiedChainCode(sc, pk, cc, 0, signatures[0]);
    }
    states', steps' := RunsThrough(states, steps, qk, cc, |signatures|);
    MappingSafety.NonceLinearity(states', steps', |steps'|, pk);
    MappingSafety.NonceLinearity(states', steps', |steps'|, qk);
  }

  lemma FirstClaim(pk: string, cc: string) returns (states: seq<State>, steps: seq<Step>)
    requires AcceptedChainCode(cc)
    ensures IsRun(states, steps) && states[|steps|].claims == ClaimsUpTo(pk, 1)
    ensures GetNonce(states[|steps|].rows, pk) == 1 && states[|steps|].rows.Keys <= {pk}
    ensures HasToken(states[|steps|], pk, 0)
  {
    states, steps := RunsThrough([INIT], [], pk, cc, 1);
    assert Ready(states[|steps|], pk, cc, 1);
    assert INIT.claims + ClaimsUpTo(pk, 1) == ClaimsUpTo(pk, 1);
  }

  lemma TwoClaims(pk: string, qk: string)
    ensures ClaimsUpTo(pk, 1) + ClaimsUpTo(qk, 1) == [NonceClaim(pk, 0), NonceClaim(qk, 0)]
  {}

  /** One signature of nonce 0, claimed under two spellings. */
  lemma ClaimedUnderBoth<P, S>(sc: Scheme<P, S>, pk: string, qk: string, cc: string, signatureHex: string)
    returns (states: seq<State>, steps: seq<Step>)
    requires pk != qk && SameKey(pk, qk) && VerifySignature(sc, pk, cc, 0, signatureHex)
    ensures VerifySignature(sc, qk, cc, 0, signatureHex)
    ensures IsRun(states, steps) && states[|steps|].claims == [NonceClaim(pk, 0), NonceClaim(qk, 0)]
    ensures HasToken(states[|steps|], pk, 0) && HasToken(states[|steps|], qk, 0)
  {
    VerdictIgnoresKeySpelling(sc, pk, qk, cc, 0, signatureHex);
    VerifiedChainCode(sc, pk, cc, 0, signatureHex);
    var states1, steps1 := FirstClaim(pk, cc);
    states, steps := HistoryStartsOver(sc, states1, steps1, pk, qk, cc, [signatureHex]);
    HasTokenKept(states1[|steps1|], states[|steps|], pk, 0);
    TwoClaims(pk, qk);
  }

  // ---------- an instance ----------

  /** Under the constant tweak a small key derives along any short unhardened path. */
  lemma {:induction false} SmallKeyDerives(n: nat, key: nat, chainCode: seq<byte>, path: seq<uint32>)
    requires n >= 2 && key > 0 && key + |path| * Tweak() < n
    requires forall i :: 0 <= i < |path| ==> path[i] < HARDENED_OFFSET
    ensures DerivePrivate(ZmodInstance(n), PrivateKey(key, chainCode), path).Ok?
    decreases |path|
  {
    if path == [] {
    } else {
      var c, k := ZmodInstance(n), PrivateKey(key, chainCode);
      assert |path| * Tweak() == Tweak() + |path[1..]| * Tweak();
      ConstantTweak(n, key, chainCode, path[0]);
      SumModulo(key, Tweak(), n);
      var child := ChildPrivate(c, k, path[0]);
      assert child.Ok? && child.value.key == key + Tweak();
      SmallKeyDerives(n, child.value.key, child.value.chainCode, path[1..]);
    }
  }

  function SmallScheme(): Scheme<int, PlainSignature> {
    ZmodScheme(5 * Tweak() + 2)
  }

  /** The client's request for a nonce with the key 1, its public key with or without "0x". */
  function SmallBody(chainCode: seq<byte>, nonce: int64): AuthBody
    requires DerivePrivate(SmallScheme().curve, PrivateKey(1, chainCode), ETH_PATH).Ok?
  {
    var root := PrivateKey(1, chainCode);
    ClientBody(SmallScheme(), root, DerivePrivate(SmallScheme().curve, root, ETH_PATH).value, nonce)
  }

  /**
   The two spellings exist: over a lawful scheme the client's request for any nonce is verified with
   and without "0x" before its public key.
   */
  lemma TwoSpellings(chainCode: seq<byte>, nonce: int64)
    requires |chainCode| == 32
    ensures LawfulScheme(SmallScheme())
    ensures DerivePrivate(SmallScheme().curve, PrivateKey(1, chainCode), ETH_PATH).Ok?
    ensures var body := SmallBody(chainCode, nonce);
      && body.publicKey != "0x" + body.publicKey && SameKey(body.publicKey, "0x" + body.publicKey)
      && VerifySignature(SmallScheme(), body.publicKey, body.chainCode, nonce, body.signature)
      && VerifySignature(SmallScheme(), "0x" + body.publicKey, body.chainCode, nonce, body.signature)
  {
    var n, root := 5 * Tweak() + 2, PrivateKey(1, chainCode);
    ZmodSchemeIsLawful(n);
    SmallKeyDerives(n, 1, chainCode, ETH_PATH);
    ClientRequestVerifies(SmallScheme(), root, nonce, false, false, false);
    ClientRequestVerifies(SmallScheme(), root, nonce, true, false, false);
    var key := SmallScheme().curve.serialize(SmallScheme().curve.baseMul(1));
    UnhexEncoded(key, false);
    UnhexEncoded(key, true);
    HexHasNoPrefix(key);
    assert |"0x" + HexEncode(key)| == |HexEncode(key)| + 2;
  }

  /** The failing input: one signature of nonce 0, and a run that claims it for both spellings. */
  lemma OneSignatureTwice(chainCode: seq<byte>) returns (states: seq<State>, steps: seq<Step>)
    requires |chainCode| == 32
    ensures DerivePrivate(SmallScheme().curve, PrivateKey(1, chainCode), ETH_PATH).Ok?
    ensures var body := SmallBody(chainCode, 0);
      && VerifySignature(SmallScheme(), body.publicKey, body.chainCode, 0, body.signature)
      && VerifySignature(SmallScheme(), "0x" + body.publicKey, body.chainCode, 0, body.signature)
      && IsRun(states, steps)
      && states[|steps|].claims == [NonceClaim(body.publicKey, 0), NonceClaim("0x" + body.publicKey, 0)]
      && HasToken(states[|steps|], body.publicKey, 0) && HasToken(states[|steps|], "0x" + body.publicKey, 0)
  {
    TwoSpellings(chainCode, 0);
    var body := SmallBody(chainCode, 0);
    states, steps := ClaimedUnderBoth(SmallScheme(), body.publicKey, "0x" + body.publicKey, body.chainCode,
                                      body.signature);
  }
}
