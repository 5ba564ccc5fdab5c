# Verified model of the card backend

The backend stands between Vultisig vaults and REAP, a card issuer. A vault is a public key. It
authenticates by signing a counter, gets one REAP user, and from then on may only touch the cards,
accounts and shipments recorded as its own. REAP reports back through signed webhooks, which the
backend stores and turns into notifications. This project models that logic in Dafny and proves what
holds over every interleaving of requests, every input text and every derivation path.

`dafny verify dfyconfig.toml` checks the whole project.

## How the model is built

**Tables and statements.** A table is a map of rows. Every SQL statement is one function from a table
to a table and an "affected" flag, and a method of a store class that the Go-shaped code calls.
`UNIQUE` columns make a statement fail without effect, `BIGINT` overflow does too.

**Interleaving.** `MappingRuns`, `CardRuns`, `ShipmentRuns` and `WebhookRuns` are state machines. A
request is a process, a step is one statement, one REAP event or one pure check, and any process may
take the next step. A statement may fail without effect, or take effect while its caller sees an
error. A process may crash between any two steps. The clock never runs backwards. REAP answers
arbitrarily within the assumptions below. `Backend` runs all four machines over shared tables: each
keeps its own invariant and relies only on the tables growing the way the others make them grow.
`Sessions` adds what happens to a token after it is issued.

**Two layers for the create claim.** `MappingSafety` and `MappingOutcomes` hold with no timing
assumption. `MappingTimely` speaks of one vault and assumes that the holders of that vault's claim have
so far kept to the stale window of 60 seconds; nothing is assumed of other vaults or of later states.
`MappingTiming` derives the bound from the code's own time-outs of the call and the release together
with bounds on the two phases the code does not limit, the delay before the call and the record. It
says exactly when a held claim is granted again, and gives the runs in which a holder overstays and in
which a lost reply is retried, and `MappingRetries` says exactly when an early retry is possible.

**One request on its own.** `MappingAnswers`, `MappingServices`, `CardServices`, `ShipmentAnswers` and
`WebhookServices` say what each statement and each uninterrupted request comes to, exactly: outcome and
tables, in terms of rows, fields and replies. The Go-shaped methods and the processes of the interleaving
models are proved to meet the same descriptions.

**Cryptography.** HMAC, hashes, signatures, point arithmetic and point serialization are function
values with stated laws. `Bip32.ZmodIsLawful` and `AuthSignature.ZmodSchemeIsLawful` give integers
modulo n as an instance, so the laws are consistent.

**Imperative code.** Loops and in-place updates stay loops and in-place updates: the methods are
proved against the functions the theorems speak of. The sequential service methods take REAP's
answer, the clock and the random token ID as parameters.

**What is assumed of REAP.** A shipment's members change only through the modelled operations and a
shipment ID is never used twice. A card or account ID is never handed out for two users. Nothing else:
statuses, IDs, time-outs and missing fields are arbitrary.

## Where the code and its text differ

- The repository's README gives the body of `POST /auth` without a chain code and says that webhooks
  are stored and not acted on. The code requires the chain code and pushes notifications; the model
  follows the code.
- The comment in `internal/service/activity.go:41-43` says repeated scope filters are collapsed to the
  one just checked. The code collapses a key only when its first value is non-empty:
  `ListFilters.HiddenCardForwarded` is a query for which it does not, and
  `Backend.ActivityFiltersOwned` states exactly when every forwarded value is the caller's.
- The comment of `metricPath` says that segments with an ID always collapse. For a template that puts
  text after an ID they need not: `PathTemplates.TemplatesCollapse` says exactly which templates do,
  `PathTemplates.WholeSegmentHolesCollapse` that all templates of the client's form do, and
  `PathTemplates.LeakingTemplate` shows one that does not.
- The comment of `pathf` says that escaping keeps an ID from steering the request. An ID adds no
  separator and can be read back (`ResourcePaths.IdsReadBack`). But the empty ID names the collection,
  and "." and ".." are dot segments, which escaping leaves alone. A filled template names its resource
  exactly when no ID is one of these three (`ResourcePaths.NamesResourceExactly`);
  `ResourcePaths.OtherResourceNamed` gives the failing inputs for two templates of the client.
- The comment of `ClaimNonce` says the same signed nonce can never be replayed. That holds for one
  spelling of the public key (`Replay.ClaimedOnce`). Another spelling, in case or with "0x", has a
  counter of its own while the signatures still verify: a vault's whole history can be claimed again
  under it (`Replay.HistoryStartsOver`), and `Replay.OneSignatureTwice` is an instance.
- `CreateUser` answers with success when another REAP user ID was recorded first:
  `MappingOutcomes.SuccessWithoutRecord` is such a run. `MappingOutcomes.RecordEndsExactly` says exactly
  when a record ends that way, and `MappingOutcomes.SuccessMeansRecorded` that it does not while the
  holders of the vault's claim are timely.
- The comment in `internal/service/user.go:78-80` says a retry after REAP created the user is held off.
  That needs the 2xx to arrive. `MappingRetries.EarlyRetryExactly` says that another create can be sent
  within the window exactly when CreateUser did not receive a 2xx, and `MappingTiming.LostReplyIsRetried`
  is a run where the reply is lost and a second create follows at once.
- BIP-0032 declares a child invalid when it is the point at infinity. The private side checks this and
  the public side does not: `Bip32.PublicOnlyChild` is a key whose child only the public side accepts.
  `Bip32.DerivationAgreement` and `Bip32.AgreementFromPublicSide` say exactly when the two sides agree.

## Model

| member | source | states |
|---|---|---|
| MappingSafety.StepKeeps | internal/reapmapping/store.go:89-155 | every step of every CreateUser and Authenticate request, under any fault or crash, keeps the mapping invariant and only extends the table |
| MappingSafety.WriteOnce | internal/reapmapping/store.go:89-126 | between any two states of a run a recorded REAP user ID and chain code never change or clear, rows stay, nonces only grow |
| MappingSafety.MappingInjective | internal/reapmapping/store.go:35-83 | in every reachable state no two vaults share a REAP user, and the lookup by user inverts the lookup by vault, both ways |
| MappingSafety.NonceLinearity | internal/service/auth.go:54-73 | over any interleaving the nonce claims that took effect for a vault are 0, 1, ..., n-1 in that order, once each, with n the stored nonce |
| MappingSafety.NonceStatement | internal/reapmapping/store.go:110-126 | an effective claim of a reached nonce moves exactly that vault's counter from expected to expected + 1, whichever branch of the upsert ran |
| MappingSafety.InsertOnlyFromZero | internal/reapmapping/store.go:110-126 | the insert branch, which stores expected + 1 without comparing, is reached only with expected 0 |
| MappingSafety.ChainCodeAgreement | internal/service/auth.go:125-130 | for accepted chain codes the normalized strings are equal exactly when the decoded 32 bytes are |
| MappingSafety.RecordedCodeComparesBytes | internal/reapmapping/store.go:110-126 | in every reachable state the stored code equals a claim's normalized code exactly when the bytes are equal |
| MappingSafety.TokenAccounting | internal/service/auth.go:67-98 | a vault's recorded tokens stand for distinct claimed nonces, so their number never exceeds the stored nonce, whatever fails between claim and record |
| MappingOutcomes.ReachesReapAtMostOnce | internal/service/user.go:51-73 | each request sends at most one create to REAP, and a refused request never sent one |
| MappingOutcomes.OutcomesStayTrue | internal/service/user.go:56-65 | "user exists" and "recorded" are true of the table in every later state |
| MappingAnswers.ClaimEndsExactly | internal/reapmapping/store.go:131-145 | a create claim is granted exactly on a row that is new, or has no user and no claim of the last 60 s, and marks it with the time and nothing else |
| MappingAnswers.LookEndsExactly | internal/service/user.go:56-65 | in every run a refused request is told "user exists" exactly when some record for the vault took effect, and "in flight" otherwise |
| MappingAnswers.ReplyEndsExactly | internal/service/user.go:67-89 | a 2xx with an ID leads to the record, a 2xx without one to an error without release, all else to the release |
| MappingAnswers.ReleaseEndsExactly | internal/reapmapping/store.go:148-155 | a release clears the claim of a row without a user, and only that |
| MappingAnswers.RecordTakesExactly | internal/reapmapping/store.go:85-101 | in every run a record sets user and claim of the row exactly when none was recorded and no vault has the ID, and changes nothing else |
| MappingAnswers.NonceClaimEndsExactly | internal/reapmapping/store.go:110-126 | in every run a nonce claim goes through exactly when the row holds the nonce and no chain code of other bytes, and then stores the next nonce and those bytes; otherwise the nonce counts as used and nothing changes |
| MappingAnswers.ClaimsCarryTheCode | internal/reapmapping/store.go:103-126 | every claim that took effect carried the 32 bytes that are the vault's recorded chain code at any later time |
| MappingAnswers.FirstReadEndsExactly | internal/service/auth.go:55-61 | the first check passes exactly when the row, or 0 without a row, is the request's nonce |
| MappingAnswers.MintEndsExactly | internal/vaulttoken/store.go:26-32 | a token is issued exactly when its ID is new |
| MappingAnswers.ClaimFaultEnds | internal/service/user.go:52-55 | a claim whose caller sees an error ends in an error, with or without effect on the row |
| MappingOutcomes.RecordedIdWasReturned | internal/service/user.go:67-96 | in every reachable state a vault's REAP user is one REAP returned with a 2xx to a create of that same vault |
| MappingOutcomes.RecordEndsExactly | internal/service/user.go:86-96 | in every run an undisturbed record finds another ID already there exactly when some request's record took effect before, fails exactly when another vault has the ID, and otherwise records it |
| MappingOutcomes.SuccessWithoutRecord | internal/service/user.go:91-96 | a concrete run that reports success for REAP's user "b" while "a" is the vault's REAP user |
| MappingOutcomes.SuccessMeansRecorded | internal/service/user.go:86-96 | while the holders of the vault's claim are timely, success reported to the caller means the returned ID is the vault's REAP user for ever |
| MappingTimely.StepKeeps | internal/reapmapping/store.go:131-155 | while the holders of one vault's claim are within the window, every step of any request keeps that vault's claim invariant: one holder, its timestamp in the row, each create and each 2xx accounted for |
| MappingTimely.ClaimExclusion | internal/service/user.go:51-73 | while the vault's holders have been timely, two requests for it never hold the claim together, so their REAP creates never overlap |
| MappingTimely.ReleaseClearsOwnClaim | internal/service/user.go:98-105 | while the vault's holders have been timely, a release finds the releaser's own timestamp in the row |
| MappingTimely.NeverAnotherId | internal/service/user.go:91-94 | while the vault's holders have been timely, the "another ID was already recorded" branch is unreachable |
| MappingTimely.NoEarlyRetry | internal/service/user.go:78-96 | while the vault's holders have been timely, once CreateUser has received a 2xx no create for the vault is sent until the window measured from the claim has passed, and none at all once the ID is recorded |
| MappingTimely.EarlyRetryAfterFailure | internal/service/user.go:67-77 | whatever REAP did with a create, another one for the vault within the window of its claim is sent only after CreateUser saw the first one fail, between the two |
| MappingRetries.EarlyRetryExactly | internal/service/user.go:67-96 | after a reply, with timely holders, the run can go on to another create for the vault within the window of the claim exactly when the reply is not a 2xx |
| MappingRetries.RetryAfterFailure | internal/service/user.go:67-105 | any run whose last state has a request about to release goes on, at the same clock reading, to another create for that vault |
| MappingTiming.TimeoutsImplyTimely | internal/service/user.go:29-33 | given bounds on the delay before the call and on the record, the vault's holders are timely if the delay, the 10 s call, and the longer of the record and the 5 s release fit in the 60 s window |
| MappingTiming.GrantedIffOverstayed | internal/reapmapping/store.go:131-145 | a second claim on a held vault is granted exactly when the holder is past the window |
| MappingTiming.WindowIsNeeded | internal/service/user.go:67-105 | a concrete run where a holder overstays: two creates overlap and its release clears the other's claim |
| MappingTiming.LostReplyIsRetried | internal/service/user.go:67-77 | a concrete run with timely holders where a create without a reply is followed by another at the same time |
| ReapMapping.SetReapUserIDKeeps | internal/reapmapping/store.go:85-101 | recording an ID fails or keeps IDs unique and earlier IDs in place, and success maps the vault to it and clears its claim |
| ReapMapping.LookupsInverse | internal/reapmapping/store.go:74-83 | wherever IDs are unique the two lookups are inverse |
| ReapMapping.ReverseLookupStable | internal/reapmapping/store.go:74-83 | a non-empty answer of the reverse lookup never changes |
| ReapMapping.ClaimAdmission | internal/reapmapping/store.go:128-155 | a released claim can be taken again at once, a held one exactly after the stale window |
| ReapMapping.Store.ClaimNonceStmt | internal/reapmapping/store.go:110-126 | the upsert, field by field, is the claim function; a failure changes nothing |
| ReapMapping.Store.ClaimReapUserCreateStmt | internal/reapmapping/store.go:131-145 | the claim statement, field by field, is the claim function |
| ReapMapping.Store.ReleaseReapUserCreateStmt | internal/reapmapping/store.go:148-155 | the release clears the timestamp of an unrecorded row only |
| ReapMapping.Store.SetReapUserIDStmt | internal/reapmapping/store.go:89-101 | the record statement is write-once and fails on an ID another vault has |
| ReapMapping.Store.GetPublicKeyByReapUserIDStmt | internal/reapmapping/store.go:74-83 | the search over the rows finds the vault of the ID, and "" exactly when there is none |
| MappingServices.CreateUser | internal/service/user.go:51-105 | the outcome and the row, exactly: refused on a row that is not free, with "user exists" exactly when a user is recorded; else the claim given back, standing or replaced by the ID as REAP's reply and the other rows decide; no other row changes |
| MappingServices.CreateEffectExactly | internal/service/user.go:51-105 | the effect function meets that description |
| MappingServices.CreateEffectIsRun | internal/service/user.go:51-105 | the effect is what the request's own steps in the interleaving model do when nothing runs in between |
| MappingServices.Authenticate | internal/service/auth.go:54-99 | outcome, row and tokens, exactly: the nonce, the verdict, overflow and the chain code decide in this order; for a root key with a derived key, a token is issued only on a signature of the nonce by that key, and a refused signature is none |
| MappingServices.AuthEffectExactly | internal/service/auth.go:54-99 | the effect function meets that description |
| MappingServices.AuthEffectIsRun | internal/service/auth.go:54-99 | that effect is what the request's own steps in the interleaving model do when nothing runs in between |
| MappingServices.TokenStore.RecordStmt | internal/vaulttoken/store.go:26-32 | a token ID is recorded once, for one vault |
| Sessions.RequireAuth | internal/service/auth.go:166-190 | admits exactly a "Bearer " token whose signed claims are unexpired and whose row is there, not revoked before now and not expired |
| Sessions.StepKeeps | internal/service/auth.go:75-98 | every step of every request keeps each released token backed by a row of the same vault and expiry, though RequireAuth never compares the two vaults |
| Sessions.AdmissionIsExact | internal/service/auth.go:172-185 | a released token is admitted exactly until its own expiry or its revocation; the row's expiry never decides |
| Sessions.RefusalIsFinal | internal/service/auth.go:172-185 | a released token refused once is refused in every later state |
| Sessions.AdmittedWasAuthenticated | internal/service/auth.go:54-98 | whoever is admitted as a vault holds a token that a request of that vault was issued within the last 30 minutes after claiming one of its nonces |
| Sessions.AdmittedForHalfAnHour | internal/service/auth.go:75-98 | an issued token is admitted until the last second of its 30 minutes unless it is revoked |
| Sessions.OneTokenPerNonce | internal/service/auth.go:67-98 | one claimed nonce releases at most one token |
| Bip32.ChildCommutes | internal/bip32/bip32.go:42-65 | one level: private and public child agree on success, key, chain code and error, unless the tweak is the negation of the parent scalar |
| Bip32.DerivationCommutes | internal/bip32/bip32.go:67-127 | along every path private success implies public success with the matching public key and chain code |
| Bip32.DerivationAgreement | internal/bip32/bip32.go:67-127 | along every path private derivation succeeds exactly when public derivation does and no step's tweak cancels its parent; otherwise the errors agree |
| Bip32.AgreementFromPublicSide | internal/bip32/bip32.go:88-127 | the same condition checked on public keys alone: no derived point is the identity |
| Bip32.PublicOnlyChild | internal/bip32/bip32.go:42-114 | a lawful instance and a key whose child the public side accepts, as the identity, and the private side refuses |
| Bip32.PathsCompose | internal/bip32/bip32.go:116-127 | deriving along a concatenated path is deriving along its parts in turn |
| Bip32.PrivatePathsCompose | internal/bip32/bip32.go:67-78 | the same for private keys |
| Bip32.ChildPrivateIs | internal/bip32/bip32.go:42-65 | with h the HMAC of serialized key and big-endian index, the child adds the first 32 bytes of h as a number in 1..n-1 to the key, refuses a zero sum and a hardened index, and has the last 32 bytes as chain code |
| Bip32.ChildPublicIs | internal/bip32/bip32.go:89-114 | the same tweak's point added to the key's point, whatever the sum |
| Bip32.ShortPublicPaths | internal/bip32/bip32.go:117-127 | the empty path is the key, a path of one index its child |
| Bip32.ShortPrivatePaths | internal/bip32/bip32.go:68-78 | the same for private keys |
| Bip32.DerivePathPrivate | internal/bip32/bip32.go:68-78 | the loop computes the private derivation function |
| Bip32.DerivePathPublic | internal/bip32/bip32.go:117-127 | the loop computes the public derivation function |
| AuthSignature.ClientRequestVerifies | cmd/vaultkey/main.go:216-225 | for every root key whose ETH key exists and every nonce, the body vaultkey prints is accepted by verifySignature, with or without "0x" on each field |
| AuthSignature.VerifiedExactly | internal/service/auth.go:116-146 | for a root key whose key at m/44/60/0/0/0 exists, a request with its public key and chain code is verified exactly when its signature is one of the nonce's decimal text by that derived key |
| AuthSignature.OtherSignatureRefused | internal/service/auth.go:138-145 | in a lawful scheme a signature is accepted exactly if the derived key made it for this very nonce |
| AuthSignature.VerifiedDerives | internal/service/auth.go:117-136 | whatever the key, a verified request has a key that parses, 32 bytes of chain code and a public derivation |
| AuthSignature.VerdictIgnoresSpelling | internal/service/auth.go:116-146 | the verdict depends on the chain code's bytes, not on the case or prefix of its hex |
| Replay.VerdictIgnoresKeySpelling | internal/service/auth.go:116-124 | the verdict is the same under every spelling of the public key's hex |
| Replay.ClaimedOnce | internal/reapmapping/store.go:103-126 | over any run no nonce is claimed twice under one spelling of a key |
| Replay.HistoryStartsOver | internal/reapmapping/store.go:103-126 | for every run and every vault, the signatures of all its nonces 0, ..., n-1 verify under any other spelling of its key, and while that spelling has no row the run goes on to claim all n nonces again and issue a token for each |
| Replay.ClaimedUnderBoth | internal/reapmapping/store.go:103-126 | for any two spellings and any signature verified for nonce 0, a run claims nonce 0 and issues a token for each |
| Replay.TwoSpellings | cmd/vaultkey/main.go:216-225 | over a lawful scheme, the client's request for any nonce verifies with and without "0x" before its public key |
| Replay.OneSignatureTwice | internal/reapmapping/store.go:103-126 | the failing input: that request for nonce 0, and the run that claims it for both spellings |
| AuthSignature.VerifiedChainCode | internal/service/auth.go:125-130 | a verified request carries exactly 32 bytes of hex chain code |
| Base58.Base58Encode | cmd/vaultkey/main.go:137-156 | the three loops compute the encoding, and decoding it gives the input back |
| Base58.DecodeEncoding | cmd/vaultkey/main.go:135-156 | decoding inverts encoding on every byte sequence, leading zero bytes included |
| Base58.EncodeDecoding | cmd/vaultkey/main.go:135-156 | every string over the alphabet is the encoding of its decoding |
| Base58.EncodingInjective | cmd/vaultkey/main.go:137-156 | two inputs with one encoding are equal |
| Base58.AlphabetAt | cmd/vaultkey/main.go:133-133 | the alphabet's character at each index has that index as its value |
| Base58.AlphabetText | cmd/vaultkey/main.go:133-133 | the alphabet, character by character |
| Base58.DivideDown | cmd/vaultkey/main.go:141-144 | the division loop yields the canonical base-58 digits, least significant first, for every magnitude |
| Base58.AppendZeros | cmd/vaultkey/main.go:145-150 | the zero loop appends one "1" per leading zero byte |
| Base58.ReverseInPlace | cmd/vaultkey/main.go:151-153 | the swap loop reverses the array in place |
| PersonalSign.PreimageInjective | cmd/vaultkey/main.go:66-73 | different messages have different EIP-191 preimages although the length runs straight into the text |
| PersonalSign.PreimageLengthGrows | cmd/vaultkey/main.go:66-73 | a longer message has a longer preimage |
| PersonalSign.PreimageIs | cmd/vaultkey/main.go:66-73 | the preimage is the byte 0x19, the fixed text, the length in decimal, and the message |
| PersonalSign.EthAddress | cmd/vaultkey/main.go:41-60 | the address is the last 20 bytes of the hash of the key without its first byte; a letter is raised exactly when the digit of the text's own hash is 8 or more, nothing else changes, and the bytes can be read back |
| PersonalSign.Checksum | cmd/vaultkey/main.go:51-58 | the loop computes that checksum for any text and hash |
| Ownership.Store.RecordStmt | internal/cardownership/store.go:23-30 | the first writer of an ID keeps it |
| Ownership.Store.IsOwnerStmt | internal/accountownership/store.go:37-62 | ownership is asked of the first writer, and agrees with the owner lookup |
| CardRuns.StepKeeps | internal/service/card.go:34-75 | every step of account and card creation, under any fault or crash, keeps the ownership invariant and all recorded rows |
| CardRuns.RecordedForVault | internal/service/account.go:27-51 | with a write-once injective user mapping an ID can only ever be recorded for the vault whose user it was handed out for, so the ignored conflict is never another vault's |
| CardRuns.TablesAgree | internal/usercardownership/store.go:26-49 | each user-card row has a card row whose vault maps to that user |
| CardServices.CreateCard | internal/service/card.go:34-75 | outcome and both tables, exactly: no user, foreign account, refusal and missing ID each have their answer and change nothing; else both rows are recorded unless there |
| CardServices.CreateAccount | internal/service/account.go:27-51 | outcome and table, exactly, in the same way |
| CardServices.LoneCardDone | internal/service/card.go:34-75 | the interleaving model's card request, uninterrupted, comes to the same |
| CardServices.LoneAccountDone | internal/service/account.go:27-51 | the interleaving model's account request, uninterrupted, comes to the same |
| CardServices.FaultsEnd | internal/service/card.go:64-74 | a statement whose caller sees an error ends the request and changes all or nothing of its table |
| CardServices.ShipmentCardIDs | internal/service/cardshipment.go:50-69 | yields the non-empty card IDs in order, and an error exactly when there is none |
| CardServices.CheckShipmentMembers | internal/service/cardshipment.go:35-48 | passes exactly a non-empty list of owned cards; otherwise the first faulty member decides the error |
| CardServices.FetchOwnedShipment | internal/service/cardshipment.go:71-86 | succeeds exactly when the fetched body names cards and all of them are the caller's; passes REAP's refusal on, and tells a body without cards from one with another vault's card |
| ShipmentRuns.StepKeeps | internal/service/cardshipment.go:71-143 | every check, fetch and act step keeps every shipment's cards owned by its creator, under interleaving and faults |
| ShipmentRuns.FetchedByCreator | internal/service/cardshipment.go:24-33 | one owned card of the fetched body already makes the caller the creator; the non-empty check is what guarantees there is one |
| ShipmentRuns.PerformedOwned | internal/service/cardshipment.go:125-150 | adding an owned card to, or removing a member from, the shipment as it is at that moment keeps it single-owner |
| ShipmentRuns.ActsForCreator | internal/service/cardshipment.go:107-150 | a request acts on a shipment or returns its body only for the vault that created it |
| ShipmentAnswers.LoneOpExactly | internal/service/cardshipment.go:71-150 | an uninterrupted operation, exactly: the body must name cards, all the caller's; Get hands it over, Add wants an owned card, and only then is the shipment changed, as the operation says |
| ShipmentAnswers.LoneCreateExactly | internal/service/cardshipment.go:35-93 | an uninterrupted creation: REAP is asked exactly for a non-empty list of owned cards; else the first faulty member decides |
| ShipmentAnswers.FaultsEnd | internal/service/cardshipment.go:24-33 | a failed ownership lookup ends the request |
| WebhookRuns.StepKeeps | internal/service/webhook.go:55-128 | every step of every delivery keeps the event and notification invariant and no recorded event changes |
| WebhookRuns.StoreKeeps | internal/reapwebhookevent/store.go:24-34 | an inserted row is new to every request and to the queue; a repeat changes nothing |
| WebhookRuns.StepSourced | internal/service/webhook.go:55-80 | under any deliveries with any headers, every recorded event says what a body says that passed VerifyWebhookSignature |
| WebhookRuns.ResolvesExactly | internal/service/webhook.go:134-213 | an event resolves to exactly the vault that owns its card (cardId, else first shipped card, else a card event's ID) in the card table, else its account in the account table, else has its user |
| WebhookRuns.StableResolution | internal/service/webhook.go:134-146 | once an event resolves to a vault it resolves to the same vault in every later table state |
| WebhookRuns.StableChainCode | internal/reapmapping/store.go:55-69 | a non-empty chain code of a vault is its chain code in every later table state |
| WebhookRuns.EventSubjectIDs | internal/service/webhook.go:177-213 | the branches set at most one ID, and it is the subject the resolution uses |
| WebhookServices.HandleEvent | internal/service/webhook.go:55-128 | outcome, event table and queue, exactly: signature, envelope and first delivery decide the row; configuration, the vault concerned and its chain code decide the notification |
| WebhookServices.LoneDeliveryHandled | internal/service/webhook.go:55-128 | the interleaving model's delivery, uninterrupted, comes to the same |
| WebhookServices.FaultsEnd | internal/service/webhook.go:66-128 | a statement whose caller sees an error ends the delivery, with or without its effect |
| WebhookSignature.VerifyWebhookSignature | internal/reap/webhook.go:26-65 | the header loop and its checks compute the acceptance predicate |
| WebhookSignature.BuiltHeaderAccepted | internal/reap/webhook.go:26-65 | a header built as documented is accepted for every body and every timestamp in the window |
| WebhookSignature.AcceptsExactly | internal/reap/webhook.go:26-65 | a header is accepted exactly when its last "t" is a 64-bit integer within 300 s either way and its last "v1" is the non-empty hex of the HMAC of that text, a dot and the body |
| WebhookSignature.AcceptedHeaderSigned | internal/reap/webhook.go:28-63 | an accepted header's last "t" is within 300 s and its last "v1" decodes to the HMAC of that text, a dot and the body |
| WebhookSignature.LastValueIsLast | internal/reap/webhook.go:28-40 | the last part with a key decides that key's value |
| WebhookSignature.PreimageDetermines | internal/reap/webhook.go:45-58 | the signed text determines timestamp and body, since an accepted timestamp has no dot |
| ListFilters.ListFraudAlerts | internal/service/fraudalert.go:83-105 | each case exactly: a named card, a named transaction's card, or neither; forwards exactly the owned card, no transaction ID and every other filter unchanged, and says what else is wrong |
| ListFilters.ListCardShipments | internal/service/cardshipment.go:95-105 | forwards exactly one owned card ID, other filters unchanged |
| ListFilters.ListCards | internal/service/card.go:81-88 | forwards exactly the caller's own user ID, as the reverse lookup confirms, and every other filter unchanged |
| ListFilters.ListActivities | internal/service/activity.go:32-72 | forwards exactly when a scope filter is given and each first value is owned |
| ListFilters.ForwardedValuesChecked | internal/service/activity.go:41-49 | as no resource has the empty ID, all forwarded values of a key are the caller's exactly when its first value is non-empty or it has none |
| ListFilters.HiddenCardForwarded | internal/service/activity.go:41-49 | the failing query, for any tables: allowed by its account, it forwards any card of another vault |
| RequestPath.MetricPathInPlace | internal/reap/client.go:745-754 | cutting, splitting, the in-place loop and joining compute the tag |
| RequestPath.CollapseInPlace | internal/reap/client.go:748-752 | the loop rewrites every segment of the slice in place |
| RequestPath.MetricPathShape | internal/reap/client.go:738-754 | the tag keeps the number of segments, each is ":id" or an original segment without a digit outside "3ds", and tagging is idempotent |
| RequestPath.MetricSegments | internal/reap/client.go:745-754 | splitting the tag gives the collapsed segments, and no query is left |
| RequestPath.StripKeepsSurvivors | internal/reap/client.go:749-749 | after removing "3ds" a digit is left exactly when some digit is not the 3 of a "3ds" |
| RequestPath.EscapeRoundTrip | internal/reap/client.go:697-703 | an escaped ID is read back as the ID |
| RequestPath.KeptExactly | internal/reap/client.go:697-703 | exactly the unreserved characters and $ & + = : @ are kept; every other byte becomes an upper-case percent escape |
| RequestPath.EscapeKeepsSurvivors | internal/reap/client.go:697-703 | percent-encoding cannot turn a surviving digit into part of a new "3ds" |
| RequestPath.Pathf | internal/reap/client.go:697-703 | the filled slice and the format give the path function |
| RequestPath.PathKeepsStructure | internal/reap/client.go:694-703 | no ID can add a path separator or start a query |
| PathTemplates.TemplatesCollapse | internal/reap/client.go:697-754 | metricPath of a filled template depends only on the template, for all IDs that keep a digit, exactly when no segment with a hole can lose all its digits to "3ds", a condition on the template's text |
| PathTemplates.WholeSegmentHolesCollapse | internal/reap/client.go:738-754 | every template whose IDs are whole segments has one tag |
| ResourcePaths.IdsReadBack | internal/reap/client.go:694-703 | for every template of the client's form, splitting the path and unescaping its holes gives back exactly the IDs, whatever they contain |
| ResourcePaths.TagOfTemplate | internal/reap/client.go:738-754 | the tag of a filled template of the client's form is the template with ":id" at each hole and the other segments collapsed |
| ResourcePaths.QueryDropped | internal/reap/client.go:745-746 | a query does not show in the tag of any path |
| ResourcePaths.RemovalKeepsPath | internal/reap/client.go:694-703 | dot-segment removal leaves a filled path as it is exactly when no ID is "." or ".." |
| ResourcePaths.NamesResourceExactly | internal/reap/client.go:694-703 | a filled path has every hole non-empty and in place after dot-segment removal exactly when no ID is "", "." or "..", and then says the IDs |
| ResourcePaths.DotsNameParent | internal/reap/client.go:694-703 | a template ending in a literal and a hole, at "..", becomes the path of the rest |
| ResourcePaths.EmptyIdNamesParent | internal/reap/client.go:694-703 | a template ending in a hole, at the empty ID, is the path of the rest and a separator |
| ResourcePaths.OtherResourceNamed | internal/reap/client.go:230-446 | the failing inputs: the empty ID at "/cards/%s", and the member ID ".." at "/card-shipments/%s/cards/%s" |
| ResourcePaths.EscapeIs | internal/reap/client.go:697-703 | a text that needs no escaping, such as a dot segment, is the escape of itself only |
| PathTemplates.SegmentKeeps | internal/reap/client.go:745-754 | in a segment the condition clears, some digit survives whatever the IDs |
| PathTemplates.Vanish | internal/reap/client.go:745-754 | in a segment the condition names, IDs that each keep a digit are built whose text keeps none |
| PathTemplates.LeakingTemplate | internal/reap/client.go:745-754 | a concrete template where the ID "3" gets a tag of its own |
| Backend.StepKeeps | internal/db/migrate.go:13-62 | every step of every service keeps the invariants of all services and only extends the tables |
| Backend.RunEvolves | internal/db/migrate.go:25-62 | between any two states of a whole run the tables only grow and written-once values stay |
| Backend.CreatesNeverOverlap | internal/service/user.go:51-73 | with all services running, two REAP creates for one vault never overlap while that vault's holders have been timely |
| Backend.TwoTableAgreement | internal/service/card.go:34-75 | in every reachable state a user-card row's card has an owner, and the only vault that ever maps to its user is that owner |
| Backend.CreatedCardIsOwned | internal/service/card.go:60-75 | a card reported as created belongs to its caller in both tables for ever |
| Backend.ShipmentSingleOwner | internal/service/cardshipment.go:35-93 | in every reachable state each card of each shipment is owned by the vault that created the shipment |
| Backend.OnlyCreatorChanges | internal/service/cardshipment.go:107-143 | any step that changes a shipment is taken for the vault that created it |
| Backend.ActivityFiltersOwned | internal/service/activity.go:32-72 | in every reachable state all values ListActivities forwards under a key are the caller's exactly when the key's first value is non-empty or it has none |
| Backend.HiddenCardReachable | internal/service/activity.go:41-49 | in every reachable state with another vault's card, a caller with any account has an allowed query that forwards that card |
| Backend.FirstDeliveryKept | internal/reapwebhookevent/store.go:24-34 | over any deliveries the first accepted one per event ID is kept unchanged |
| Backend.EventsAreSigned | internal/service/webhook.go:55-70 | in every reachable state each recorded event is what a body says whose HMAC, with some timestamp text, was verified |
| Backend.AtMostOneNotification | internal/service/webhook.go:70-82 | each event ID causes at most one notification, and none without its row |
| Backend.ResolutionIsStable | internal/service/webhook.go:134-213 | once an event concerns a vault by the card, account or user table, it concerns and resolves to that vault and no other in every later state of the whole backend |
| Backend.NotificationAddressed | internal/service/webhook.go:95-128 | a queued notification names the vault that its recorded event concerns by the card, account or user table, and the chain code in that vault's row, now and for ever |

## Left out

- MappingServices.CreateUser: takes no statement errors; a failed or unacknowledged claim, lookup, record or release is a step of the interleaving model.
- MappingServices.Authenticate: takes no read or connection errors, for the same reason.
- MappingServices.TokenStore.RecordStmt: keeps the token's vault only; its expiry is kept in `Sessions`.
- CardServices.CreateCard: takes no statement errors; a failed or unacknowledged insert is a step of `CardRuns`.
- MappingTiming.TimeoutsImplyTimely: assumes bounds on the send delay and the record, since the code sets none.
- Sessions and the whole backend: `Sessions` runs `MappingRuns` with tokens and is not a part of `Backend`, whose other services never read a token.
- Sessions.RequireAuth: takes the JWT library's signature check as a parameter and reads the clock once, where the code reads it up to three times a moment apart.
- Sessions.AdmittedWasAuthenticated: speaks of tokens the server released; that nobody else can sign one is an assumption about HMAC.
- Revoking a token: nothing in the repository does it; the model lets an operator do it once per token at any time.
- One REAP user per vault inside REAP: the code does not promise it, since a timed-out call releases the claim and a stale claim is taken over.
- `updated_at`, `last_used_at` and `created_at` columns: nothing reads them.
- HTTP handlers, routing, middleware, shutdown, configuration, connection pools, statsd and the Redis queue client: plumbing and I/O.
- REAP's HTTP transport and request structs: a pass-through apart from `pathf` and `metricPath`.
- SHA-2, HMAC, Keccak, ECDSA, ed25519, BIP39 and secp256k1 formulas: foreign code, here function values with laws.
- `MasterFromSeed` and the SLIP-0010 Solana derivation: one keyed hash each, and a fold that would repeat `Bip32.PathsCompose` without a public side to agree with.
- JSON decoding: responses and webhook data are records whose fields may be absent.
- Notification text, its type and title, and the `VaultID` hash: the notification carries the vault and chain code the hash is computed from.
- Guarded single calls of the card, account, simulation, design and transaction services: one ownership check and one call each.
- Base58.Base58Encode: grows its buffer as a string value, because Go's `append` may move the slice; only the reversal works on an array in place.
- GoText.ToLower: covers ASCII only, which is all that hex chain codes hold.
- RequestPath.Pathf: covers formats whose only verb is `%s` with one argument per verb, as every call site has.
- ResourcePaths.NamesResourceExactly: speaks of what the path says under dot-segment removal; whether REAP's server removes dot segments or treats a collection as a resource is not modelled.
- Replay.HistoryStartsOver: speaks of hex spellings; other serializations of the same point are not modelled.
- CardServices.FetchOwnedShipment: takes REAP's reply as a parameter; the interleaving with other requests is in `ShipmentRuns`.
