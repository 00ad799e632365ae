# Proofs about the credential-issuance trust core

This project models the parts of the wallet and credential platform that decide whom and what to trust, and
proves what they keep: the strict reader and printer behind signed QR envelopes, the signed trust registry
with its cache and its two evaluators, the institutional issuer service, the issuer signer and its key store,
signer quotas, idempotent operations, the credential vault, email codes, guardian recovery, the
vendor-rotation and import sagas, and the translation of presentation policies to DCQL.

Everything verifies with `dafny verify dfyconfig.toml`.

## How it is built

Texts are sequences of UTF-16 code units (`Strings.dfy`), so that lone surrogates are ordinary values.
`Json.dfy` holds the JSON values, the canonical printer and the reader's grammar as functions on suffixes;
`StrictJson.dfy` is the reader itself, a cursor moved by loops, proved against that grammar. `Records.dfy`
relates objects with named fields to what parsers read and what the canonical form keeps.

Objects that change their fields are classes, and each method's contract gives the result and the whole new
state as a function of the old one. Those functions are also the steps of state machines: where a program
waits, the model has a step boundary, and theorems hold for every sequence of steps from the empty state.
Ghost histories (credentials issued, provider calls, comparisons, answers) say what happened along the way.

Those functions are not left to speak for themselves. The files ending in `Checks`, and the lemmas ending in
`Exactly`, say for all arguments when each call succeeds, with what result and with which error, in terms of the
stored records and fields alone: a branch left out of a function, and of the method beside it, breaks one of them.

| part | files |
|---|---|
| texts, JSON, canonical form | Strings, Json, JsonRoundTrip, JsonGrammar, CanonicalForm, CanonicalLayout, CanonicalText, StrictJson, Utf8, Base64Url, DecoderChecks, Patterns, Records |
| signed QR envelopes | OfflineEnvelope, EnvelopeChecks, OfflineVerification |
| trust registry | TrustSnapshot, RegistryChecks, KeyRotation, TrustEvaluation, SnapshotCache, CacheChecks |
| issuer service | IssuerService, IssuerServiceObject, IssuerChecks, IssuerInvariants, IssuerInterleaving, OverlappingOffers, CredentialStatus |
| issuer signer and key store | IssuerSigner, SignerChecks, KeyLifecycle |
| signer policies | SignerPolicy, PolicyEvaluator, PolicyChecks |
| stores | PlatformStore, VaultEnvelope, CredentialVault, VaultChecks, VaultContent |
| accounts | AuthEmail, AuthEmailChecks, AuthEmailInvariants, Recovery, WalletSagas, WalletState, MigrationBundle, BundleChecks, Addresses |
| presentation | PresentationPolicy, PresentationChecks |

## What is assumed

- Hashes, signatures, authenticated encryption and key derivation are ideal: equal results only for equal inputs.
- Numbers in JSON and in snapshots are integers. A literal with a fraction or an exponent goes through a
  function that stands for `Number(...)`, about which nothing is assumed.
- Objects list their properties in insertion order. Integer-like keys, which the language would move to the
  front, are not treated apart; the canonical form sorts keys anyway.
- The calls of the issuer service are single steps in `IssuerInvariants`, with clock readings, random draws and
  port answers as arguments. `IssuerInterleaving` splits the two that wait, `createOffer` and `issueCredential`,
  where they wait, and lets them interleave freely; `CredentialStatus` does so for `changeStatus`.
- Quotas need one frequency policy per key.
- The pattern for keys of secret material is a predicate about which nothing is assumed.
- Idempotent operations do not call the store re-entrantly.
- Challenge, session and secret ids drawn from the random source are fresh where the code relies on it.

## Where the code does less than it says

- `OfflineTrustStatusCache` tests freshness before scope and accepts an issuance time that is no safe integer;
  the online evaluator tests scope first and refuses such a time (`TrustEvaluation.EvaluatorsAgree`).
- `createOffer` checks that a session is approved before it waits and not after, so two overlapping offers of one
  session both make a grant. When the first is redeemed before the second ends, the session ends with two
  credentials (`OverlappingOffers.TwoCredentials`). `IssuerInterleaving.OneCredentialInEveryInterleaving` gives the
  missing check and proves it necessary and sufficient; the quorum holds in any case.
- The signer's quota remembers one window per key, so a window that is entered again has its whole quota again
  (`SignerPolicy.ReentryDoublesQuota`); without that the quota holds (`SignerPolicy.WindowQuota`).
- Quotas are kept under signer and policy ids joined by a colon, which either may hold. Two signers with the same
  joined ids share a key, and when their policies have different windows each may reset the other's, so that a
  window grants twice its quota at rising times (`PolicyEvaluator.JoinedIdsBreakQuota`).
- `changeStatus` does not read the record again after its wait, so a suspension that began before a revocation and
  ends after it makes the revoked credential suspended (`CredentialStatus.SuspensionOverwrites`); nothing else undoes
  a revocation (`CredentialStatus.StaysRevokedExactly`).
- `validateState` sets no bound on inventories, but serialisation allows arrays of 32 items, so a wallet with more
  assets cannot be exported (`MigrationBundle.ManyAssetsAreNotPortable`).
- `runIdempotent` drops its entry when a successful result cannot be cloned, and then runs again
  (`PlatformStore.UncloneableRunsAgain`).
- An import whose `prepare` returns undefined is reported as rolled back without a rollback
  (`WalletSagas.UndefinedHandleIsNotRolledBack`).
- A vendor rotation that fails says that the old control remains authoritative; that is so exactly unless
  removing it took effect and then failed (`WalletSagas.FailureClaimExactly`).
- A bundle exported for a wallet whose address is not in lower case never opens, because the address is
  lower-cased before the signature is checked (`MigrationBundle.MixedCaseFailsAtSignature`).
- A confirmed email change does not check again that the address is free, so it may take over an address that
  another identity registered meanwhile, and the code sent there then opens the wrong principal's session
  (`AuthEmailInvariants.TakeoverLogsInAnother`); identities stay findable exactly while this does not happen
  (`AuthEmailInvariants.FindableThroughoutExactly`).
- Vault metadata out of field order, or with an extra or empty optional field, is accepted by `put` and can
  not be read back (`VaultContent.GetExactly`).

## Main results

Theorems about every run, every input, or both ways:

- the cursor reader accepts exactly its grammar (`StrictJson.ParseAll`), which is a relation between texts and values
  (`JsonGrammar.ReaderExactly`); the canonical text is fixed unit by unit (`CanonicalLayout.EscapedUnit`); the decoders
  accept exactly what the encoders write (`DecoderChecks.Utf8Exactly`, `DecoderChecks.Base64Exactly`);
- the reader inverts the canonical printer
  (`CanonicalForm.ReaderInvertsCanonical`), and canonical texts are equal only for equal values
  (`CanonicalForm.CanonicalInjective`); so signed envelopes and snapshots read back as signed
  (`OfflineEnvelope.EnvelopeRoundTrip`, `TrustSnapshot.SignedRoundTrip`);
- at any time at most one key of a rotation chain is trusted, and one is exactly while the chain covers it
  (`KeyRotation.AtMostOneTrusted`, `KeyRotation.TrustedWhileCovered`); the two evaluators agree exactly outside two
  cases (`TrustEvaluation.EvaluatorsAgree`); caches never roll back and answer only from accepted snapshots
  (`SnapshotCache.NeverRollsBack`, `SnapshotCache.AnswersAreBacked`), and every question once (`CacheChecks.AnsweredOnce`);
- one credential a session and a quorum for each (`IssuerInvariants.OneCredentialASession`,
  `IssuerInterleaving.OneCredentialInEveryInterleaving`, `IssuerInterleaving.QuorumInEveryInterleaving`);
- every provider call had two approvers of that very operation (`IssuerSigner.InvokedOncePerRequest`) and is never
  made again for an unclear one (`IssuerSigner.NeverInvokedAgain`); key stores come to
  rest (`KeyLifecycle.WorkIsBounded`);
- quotas (`SignerPolicy.WindowQuota`, `PolicyEvaluator.AuthorizedWithinQuota`) and their converses
  (`SignerPolicy.ReentryDoublesQuota`, `PolicyEvaluator.SharedKeyBreaksQuota`);
- exactly when a revocation lasts (`CredentialStatus.StaysRevokedExactly`);
- one execution per idempotency key (`PlatformStore.RunsOncePerKey`, `PlatformStore.SucceedsOnce`);
- the vault keeps credentials through every run (`VaultContent.VaultKeepsCredentials`);
- bounded attempts and single success per email code, and when identities stay findable
  (`AuthEmailInvariants.AttemptsAreBounded`, `AuthEmailInvariants.FindableThroughoutExactly`); signer changes are earned
  (`Recovery.SignerChangesAreEarned`); rotations keep control (`WalletSagas.RotationIsSafe`, `WalletSagas.ControlLostExactly`);
- translated presentation policies select the same credentials (`PresentationPolicy.TranslationKeepsSelection`).

Rows marked "(one call)" below say what a single call requires or does, and support these.

## Model

| member | source | states |
|---|---|---|
| StrictJsonReader.StrictJson.ParseAll | packages/credential-scanner/src/offline/index.ts:204-209 | the cursor-moving reader accepts exactly the texts of the grammar with depth 12 and 256 items, and returns its value |
| StrictJsonReader.StrictJson.Value | packages/credential-scanner/src/offline/index.ts:215-244 | reading one value moves the cursor to where the grammar leaves off, or fails with it |
| StrictJsonReader.StrictJson.ReadScalar | packages/credential-scanner/src/offline/index.ts:222-243 | literals and numbers, with the longest match of the number pattern |
| StrictJsonReader.StrictJson.ReadString | packages/credential-scanner/src/offline/index.ts:246-269 | the scan loop finds the closing quote the grammar finds, and refuses control characters |
| StrictJsonReader.StrictJson.ReadObject | packages/credential-scanner/src/offline/index.ts:271-300 | the member loop refuses duplicate and prototype keys and keeps the members in order |
| StrictJsonReader.StrictJson.ReadMember | packages/credential-scanner/src/offline/index.ts:281-295 | one key, colon and value |
| StrictJsonReader.StrictJson.ReadArray | packages/credential-scanner/src/offline/index.ts:302-318 | the item loop refuses the 257th item |
| StrictJsonReader.StrictJson.Ws | packages/credential-scanner/src/offline/index.ts:211-213 | skips exactly the white space |
| JsonGrammar.ReaderExactly | packages/credential-scanner/src/offline/index.ts:204-209 | the grammar itself, as a relation: a text is read as a value exactly when that value stands in it with only white space around, within twelve levels and 256 items |
| JsonGrammar.ValueExactly | packages/credential-scanner/src/offline/index.ts:215-244 | at every place a value is a word, a number, a string, an array or an object that stands there, and not too deep |
| JsonGrammar.NumberExactly | packages/credential-scanner/src/offline/index.ts:234-242 | a number is the longest whole part, fraction and exponent at the front, and must be a safe integer; without the last two it is the number written in decimal |
| JsonGrammar.StringExactly | packages/credential-scanner/src/offline/index.ts:246-269 | a string is read exactly from texts that write its code units one by one, as they are, with a short escape or by number (section 7 of RFC 8259) |
| JsonGrammar.ArrayExactly | packages/credential-scanner/src/offline/index.ts:302-318 | an array is its items one after the other with commas between them, at most 256 |
| JsonGrammar.ObjectExactly | packages/credential-scanner/src/offline/index.ts:271-300 | an object is its members one after the other, no name twice and none reserved |
| JsonGrammar.SpaceExactly | packages/credential-scanner/src/offline/index.ts:211-213 | white space is that of ECMAScript |
| JsonRoundTrip.NumberRoundTrip | packages/credential-scanner/src/offline/index.ts:234-242 | a printed safe integer reads back as itself, whatever delimiter follows |
| JsonRoundTrip.UnescapeEscape | packages/credential-scanner/src/offline/index.ts:261-264 | every string of code units, lone surrogates included, survives escaping and unescaping (section 7 of RFC 8259) |
| JsonRoundTrip.StringRoundTrip | packages/credential-scanner/src/offline/index.ts:246-269 | a printed string reads back as itself unless the reader refuses its control characters |
| JsonRoundTrip.ArrayRoundTrip | packages/credential-scanner/src/offline/index.ts:302-318 | a printed array reads back exactly when its length and items fit the limits |
| JsonRoundTrip.ObjectRoundTrip | packages/credential-scanner/src/offline/index.ts:271-300 | a printed object reads back exactly when its keys and values fit the limits |
| JsonRoundTrip.ValueRoundTrip | packages/credential-scanner/src/offline/index.ts:199-338 | parse(print(v) + rest) returns v and rest exactly when v fits the limits, at every nesting |
| CanonicalForm.CanonicalIsPrint | packages/credential-scanner/src/offline/index.ts:321-338 | `canonical` throws exactly on unprintable values and otherwise prints the sorted, undefined-free form; what printing writes, unit by unit, is in the `CanonicalLayout` rows |
| CanonicalForm.ReaderInvertsCanonical | packages/credential-scanner/src/offline/index.ts:199-338 | the reader returns the canonical form of every printable value that fits, and refuses every other |
| CanonicalForm.SameNormSameValue | packages/credential-scanner/src/offline/index.ts:330-336 | values with one canonical form have the same members at every level, in whatever order |
| CanonicalForm.CanonicalInjective | packages/credential-scanner/src/offline/index.ts:321-338 | two canonical texts are equal if and only if the values are the same up to member order and undefined members (section 3.2.3 of RFC 8785) |
| CanonicalForm.NormIdempotent | packages/credential-scanner/src/offline/index.ts:330-336 | the canonical form is its own canonical form |
| CanonicalLayout.VerbatimText | packages/credential-scanner/src/offline/index.ts:321-338 | a text without control characters, quotes, backslashes and surrogates is written between quotes as it is, a slash included |
| CanonicalLayout.EscapedUnit | packages/credential-scanner/src/offline/index.ts:321-338 | what each other code unit is written as: seven short escapes, `\u` and four lower-case digits for other controls and half a pair (section 3.2.2.2 of RFC 8785) |
| CanonicalLayout.PairVerbatim | packages/credential-scanner/src/offline/index.ts:321-338 | a surrogate pair is written as it is |
| CanonicalLayout.TextByParts | packages/credential-scanner/src/offline/index.ts:321-338 | a text is written part by part wherever it is not cut inside a pair |
| CanonicalLayout.NumberText | packages/credential-scanner/src/offline/index.ts:321-338 | a number is written in decimal without leading zeros |
| CanonicalLayout.ArrayText | packages/credential-scanner/src/offline/index.ts:321-338 | an array is its items between brackets with commas |
| CanonicalLayout.ObjectText | packages/credential-scanner/src/offline/index.ts:321-338 | an object is its defined members between braces with commas, names in the order of their code units |
| Utf8.EncodeRoundTrip | packages/credential-scanner/src/offline/index.ts:18-19 | decoding an encoded text gives it back with lone surrogates replaced |
| Utf8.RepairedIsSame | packages/credential-scanner/src/offline/index.ts:18-19 | that replacement changes nothing exactly when surrogates are paired |
| Base64Url.BytesRoundTrip | packages/credential-scanner/src/offline/index.ts:340-372 | unpadded base64url: decode(encode(b)) = b for all bytes (section 5 of RFC 4648) |
| Base64Url.EncodeBytesInjective | packages/credential-scanner/src/offline/index.ts:340-349 | different bytes have different base64url texts |
| Base64Url.RoundTripExact | packages/credential-scanner/src/offline/index.ts:340-372 | a text survives encoding and decoding within the size bound exactly when its surrogates are paired and no byte order mark leads it |
| Patterns.Base64Layout | packages/credential-scanner/src/offline/index.ts:340-349 | three bytes are written as four symbols of six bits each in order, over the alphabet of section 5 of RFC 4648 |
| Patterns.Utf8PairLayout | packages/credential-scanner/src/offline/index.ts:18-19 | a surrogate pair is encoded as the scalar value it stands for, in the shortest form (section 3 of RFC 3629) |
| DecoderChecks.Utf8Exactly | packages/credential-scanner/src/offline/index.ts:18-19 | the fatal decoder accepts exactly the encodings of texts with paired surrogates, less one byte order mark |
| DecoderChecks.Base64Exactly | packages/credential-scanner/src/offline/index.ts:351-372 | bytes are decoded exactly from their own encoding, but for the spare bits of the last symbol |
| DecoderChecks.TextExactly | packages/credential-scanner/src/offline/index.ts:351-372 | (one call) which texts decode, to what, and which are too large |
| CanonicalText.CanonicalEncodable | packages/credential-scanner/src/offline/index.ts:321-349 | every canonical text meets that condition |
| OfflineEnvelope.ParseUnsignedJson | packages/credential-scanner/src/offline/index.ts:386-434 | the parser accepts the object of an envelope exactly when every field is valid |
| OfflineEnvelope.ParsedIsValid | packages/credential-scanner/src/offline/index.ts:386-434 | everything it returns is valid |
| Patterns.IdentifierExactly | packages/credential-scanner/src/offline/index.ts:21 | which texts are identifiers, by the characters they are made of |
| EnvelopeChecks.UnsignedExactly | packages/credential-scanner/src/offline/index.ts:386-434 | any object is read as an envelope exactly when it has its fields and no others, each of its form and bound |
| EnvelopeChecks.VersionExactly | packages/credential-scanner/src/offline/index.ts:386-434 | (one call) when a version is a downgrade or not supported |
| EnvelopeChecks.SignedExactly | packages/credential-scanner/src/offline/index.ts:460-513 | any object is read as a signed envelope exactly when it has those fields and a signature |
| EnvelopeChecks.CreatedExactly | packages/credential-scanner/src/offline/index.ts:442-458 | creation succeeds exactly for an object that is an envelope, a signature of the bounded form and a text within the QR bound |
| OfflineEnvelope.SignedRoundTrip | packages/credential-scanner/src/offline/index.ts:451-457 | a signed envelope within the QR bound parses back field for field |
| OfflineEnvelope.EnvelopeRoundTrip | packages/credential-scanner/src/offline/index.ts:436-513 | whenever creation succeeds, parsing its output gives what was signed plus the signature, and the payload rebuilt for verification is the string the signer was given |
| OfflineEnvelope.PayloadInjective | packages/credential-scanner/src/offline/index.ts:436-440 | two valid envelopes share a signing payload only when they are the same envelope |
| OfflineVerification.VerifiedExactly | packages/credential-scanner/src/offline/index.ts:515-644 | `verified` if and only if parsed, signature accepted on the rebuilt payload, fresh, verified by the online evaluator on the cached snapshot, and not replayed |
| OfflineVerification.SignatureExactly | packages/credential-scanner/src/offline/index.ts:561-599 | (one call) only an envelope that parses and whose signature is accepted is judged |
| OfflineVerification.TimesExactly | packages/credential-scanner/src/offline/index.ts:515-541 | (one call) when the clock, the lifetime or the dates refuse it |
| OfflineVerification.DecisionsExactly | packages/credential-scanner/src/offline/index.ts:614-640 | (one call) what each decision of the registry comes to |
| OfflineVerification.SpentExactly | packages/credential-scanner/src/offline/index.ts:641-643 | (one call) a verified envelope spends its id and nonce, and a spent one is a replay |
| OfflineVerification.TokenInjective | packages/credential-scanner/src/offline/index.ts:641 | replay tokens are equal only when envelope id and nonce are |
| OfflineVerification.NoReplay | packages/credential-scanner/src/offline/index.ts:775-783 | in any run of scans no envelope id and nonce are verified twice |
| TrustSnapshot.SchemaRoundTrip | packages/trust-registry/src/index.ts:253-264 | parsing a built schema authorisation returns it exactly when it is valid |
| TrustSnapshot.KeyRoundTrip | packages/trust-registry/src/index.ts:266-289 | parsing a built key returns it exactly when its interval and status are valid, with and without its optional bound |
| TrustSnapshot.IssuerRoundTrip | packages/trust-registry/src/index.ts:291-319 | parsing a built issuer returns it exactly when its parts are valid and its ids distinct |
| TrustSnapshot.RotationRoundTrip | packages/trust-registry/src/index.ts:321-333 | parsing a built rotation returns it exactly when it is valid |
| TrustSnapshot.StatusRoundTrip | packages/trust-registry/src/index.ts:335-348 | parsing a built status entry returns it exactly when it is valid |
| TrustSnapshot.SnapshotRoundTrip | packages/trust-registry/src/index.ts:385-451 | parsing a built snapshot returns it exactly when it is valid, relations included |
| TrustSnapshot.ParsedIsValid | packages/trust-registry/src/index.ts:385-451 | every snapshot the parser returns is valid |
| RegistryChecks.SnapshotExactly | packages/trust-registry/src/index.ts:385-451 | any object is read as a snapshot exactly when it has its fields and no others, each part reads, no id occurs twice, and its rotations and status entries stand |
| RegistryChecks.IssuerExactly | packages/trust-registry/src/index.ts:291-319 | any object is read as an issuer exactly when its fields and lists read and no schema, key or mark is there twice |
| RegistryChecks.KeyExactly | packages/trust-registry/src/index.ts:266-289 | any object is read as a key exactly when its fields read and it ends after it starts, as a retired one must |
| RegistryChecks.RelationsExactly | packages/trust-registry/src/index.ts:350-435 | the checks on joined texts and lookups mean that nothing is there twice and that every rotation joins two keys of its issuer at one moment |
| RegistryChecks.SignedExactly | packages/trust-registry/src/index.ts:459-471 | a signed snapshot is a snapshot with a signature beside it |
| TrustSnapshot.SnapshotStable | packages/trust-registry/src/index.ts:385-499 | a snapshot read from an object is read from its canonical form too |
| TrustSnapshot.PayloadInjective | packages/trust-registry/src/index.ts:473-499 | two valid snapshots share a signing payload if and only if they are equal |
| TrustSnapshot.SignedRoundTrip | packages/trust-registry/src/index.ts:459-512 | a signed snapshot reads back exactly, and verification rebuilds the payload that was signed |
| KeyRotation.KeysUniqueExactly | packages/trust-registry/src/index.ts:409-435 | the uniqueness checks on NUL-joined texts mean no repeated issuer, predecessor, successor or status entry |
| KeyRotation.RotationMeets | packages/trust-registry/src/index.ts:354-377 | a rotation ends the old key at the moment the new one starts, which is later than the old one started |
| KeyRotation.ChainRises | packages/trust-registry/src/index.ts:350-383 | along a chain keys take effect strictly later and later |
| KeyRotation.RotationTimesRise | packages/trust-registry/src/index.ts:350-383 | `rotatedAt` strictly increases along a chain |
| KeyRotation.ChainHasNoCycle | packages/trust-registry/src/index.ts:350-383 | no key occurs twice in a chain |
| KeyRotation.ChainsAreDisjoint | packages/trust-registry/src/index.ts:420-431 | two maximal chains of an issuer that share a key are the same chain |
| KeyRotation.EveryKeyHasItsChain | packages/trust-registry/src/index.ts:350-431 | every key lies in exactly one maximal chain |
| KeyRotation.AtMostOneTrusted | packages/trust-registry/src/index.ts:350-383 | for any issuance time at most one key of a chain evaluates to TRUST_VERIFIED |
| KeyRotation.TrustedWhileCovered | packages/trust-registry/src/index.ts:739-779 | some key does exactly when issuer and schema are active and the time lies in the chain: from the first key on, and in the last key only while it is not revoked |
| TrustEvaluation.EvaluatorsAgree | packages/credential-scanner/src/offline/index.ts:734-761 | the offline and the online evaluator give the same decision, code and evidence exactly outside two disputed cases: a stale snapshot of another scope, and an unsafe issuance time inside the key interval |
| TrustEvaluation.SafeTimesAgree | packages/trust-registry/src/index.ts:635-649 | in scope they agree for every safe issuance time; out of scope both are indeterminate |
| TrustEvaluation.OnlineVerifiedIsOfflineVerified | packages/credential-scanner/src/offline/index.ts:734-761 | what the online evaluator verifies the offline one verifies |
| TrustEvaluation.VerifiedExactly | packages/trust-registry/src/index.ts:739-812 | (one call) a credential is verified exactly when snapshot, issuer, schema, key and status all allow it |
| TrustEvaluation.TrustVerifiedExactly | packages/trust-registry/src/index.ts:739-779 | (one call) the trust question alone: verified exactly for an active issuer and schema and a key in force at the time |
| TrustEvaluation.TrustRejectedExactly | packages/trust-registry/src/index.ts:739-779 | (one call) and rejected exactly for a known issuer, schema or key that is not |
| TrustEvaluation.StatusVerifiedExactly | packages/trust-registry/src/index.ts:781-812 | (one call) the status question alone: verified exactly for an active issuer and an entry that is good |
| TrustEvaluation.StatusRejectedExactly | packages/trust-registry/src/index.ts:781-812 | (one call) and rejected exactly for a suspended or revoked issuer or entry |
| TrustEvaluation.CredentialExactly | packages/trust-registry/src/index.ts:635-649 | (one call) a credential is verified exactly when both are, and which of the two answers otherwise |
| TrustEvaluation.UnsafeTimeDisagrees | packages/credential-scanner/src/offline/index.ts:755 | an unsafe issuance time that only the online evaluator refuses |
| SnapshotCache.ScopeKeyInjective | packages/trust-registry/src/index.ts:549-550 | scope keys are equal only for equal scopes |
| SnapshotCache.SignedSnapshotCache.Store | packages/trust-registry/src/index.ts:717-736 | stores unless the sequence falls, or stays with another id or signature |
| SnapshotCache.SignedSnapshotCache.Resolve | packages/trust-registry/src/index.ts:655-664 | answers from a fresh cached snapshot, else leaves the call to a fetch |
| SnapshotCache.SignedSnapshotCache.FinishPrime | packages/trust-registry/src/index.ts:588-603 | the end of `prime`, on the clock read after verification |
| SnapshotCache.SignedSnapshotCache.FinishFetch | packages/trust-registry/src/index.ts:666-708 | the end of a fetch, on the time fixed when it began |
| SnapshotCache.SignedSnapshotCache.Invalidate | packages/trust-registry/src/index.ts:605-608 | forgets one scope |
| CacheChecks.PrimeExactly | packages/trust-registry/src/index.ts:588-603 | (one call) a snapshot is kept exactly when accepted, in force and not behind the one kept for its scope; otherwise nothing changes |
| CacheChecks.FetchExactly | packages/trust-registry/src/index.ts:666-708 | (one call) a fetch answers from the new snapshot exactly then, and otherwise indeterminately with the stale evidence |
| CacheChecks.ResolveExactly | packages/trust-registry/src/index.ts:655-664 | (one call) a question is answered at once exactly from a kept snapshot in force |
| CacheChecks.LoadExactly | packages/trust-registry/src/index.ts:666-686 | (one call) what the source sends goes to the verifier exactly when it is a valid snapshot of the scope asked about |
| CacheChecks.AnsweredOnce | packages/trust-registry/src/index.ts:579-737 | in every interleaving each question is answered once or still waits |
| SnapshotCache.AnswersAreBacked | packages/trust-registry/src/index.ts:579-737 | in every interleaving each verified or rejected answer comes from a snapshot the verifier accepted for that scope with issuedAt <= now < expiresAt |
| SnapshotCache.NeverRollsBack | packages/trust-registry/src/index.ts:717-736 | between invalidations the cached sequence of a scope never falls, and an unchanged sequence keeps id and signature |
| SnapshotCache.OfflineTrustStatusCache.FinishPrime | packages/credential-scanner/src/offline/index.ts:706-732 | the end of the offline `prime` |
| CacheChecks.OfflinePrimeExactly | packages/credential-scanner/src/offline/index.ts:706-732 | (one call) when the offline cache keeps a snapshot |
| SnapshotCache.OfflineNeverRollsBack | packages/credential-scanner/src/offline/index.ts:706-732 | the offline cache never rolls back and holds only accepted snapshots |
| IssuerServiceObject.InstitutionalIssuerService.DrawToken | packages/issuer-service/src/index.ts:1006-1016 | four draws at most, and the first well-formed one that is no secret yet |
| IssuerServiceObject.InstitutionalIssuerService.SpendGrant | packages/issuer-service/src/index.ts:975-989 | a grant is spent before its expiry is judged |
| IssuerServiceObject.InstitutionalIssuerService.SpendAccessToken | packages/issuer-service/src/index.ts:991-1004 | an access token is spent before its expiry is judged |
| IssuerServiceObject.InstitutionalIssuerService.FindLive | packages/issuer-service/src/index.ts:1047-1060 | an expired session is marked so, whatever its phase |
| IssuerServiceObject.InstitutionalIssuerService.AssertAuthorized | packages/issuer-service/src/index.ts:848-894 | the check before an offer and before issuing, under the policy in force |
| IssuerServiceObject.InstitutionalIssuerService.RegisterReviewerPolicy | packages/issuer-service/src/index.ts:297-338 | registers or replaces a policy; keeps one live secret or credential a session, and the quorum |
| IssuerServiceObject.InstitutionalIssuerService.PublishTemplate | packages/issuer-service/src/index.ts:267-281 | registers a published template under a new name; keeps one live secret or credential a session, and the quorum |
| IssuerServiceObject.InstitutionalIssuerService.EnrolIssuer | packages/issuer-service/src/index.ts:283-295 | registers or replaces an issuer; keeps one live secret or credential a session, and the quorum |
| IssuerServiceObject.InstitutionalIssuerService.CreateIssuanceRequest | packages/issuer-service/src/index.ts:340-437 | opens a session under review; keeps one live secret or credential a session, and the quorum |
| IssuerServiceObject.InstitutionalIssuerService.Review | packages/issuer-service/src/index.ts:439-473 | records one review; keeps one live secret or credential a session, and the quorum |
| IssuerServiceObject.InstitutionalIssuerService.Offer | packages/issuer-service/src/index.ts:475-548 | offers an approved session with one grant; keeps one live secret or credential a session, and the quorum |
| IssuerServiceObject.InstitutionalIssuerService.AuthorizeClient | packages/issuer-service/src/index.ts:550-590 | trades an offer for a code; keeps one live secret or credential a session, and the quorum |
| IssuerServiceObject.InstitutionalIssuerService.Exchange | packages/issuer-service/src/index.ts:592-645 | trades a code for an access token; keeps one live secret or credential a session, and the quorum |
| IssuerServiceObject.InstitutionalIssuerService.Issue | packages/issuer-service/src/index.ts:647-762 | spends the token first, then checks, signs, records and publishes; keeps one live secret or credential a session, and the quorum |
| IssuerChecks.TokenExactly | packages/issuer-service/src/index.ts:1006-1016 | (one call) a secret is the first usable one of at most four draws, none before it malformed |
| IssuerChecks.AuthorizedExactly | packages/issuer-service/src/index.ts:848-894 | (one call) template, issuer, policy in force, distinct authorised approvals and key all allow it |
| IssuerChecks.RequestExactly | packages/issuer-service/src/index.ts:340-437 | (one call) when a request is accepted, and the session it makes |
| IssuerChecks.OfferExactly | packages/issuer-service/src/index.ts:475-548 | (one call) when an offer is made, and what changes |
| IssuerChecks.AuthorizeExactly | packages/issuer-service/src/index.ts:550-590 | (one call) when an offer is traded for a code |
| IssuerChecks.ExchangeExactly | packages/issuer-service/src/index.ts:592-645 | (one call) a code is traded for a token exactly when it is an unspent code of the tenant, in force, of the kind asked for, for that very client and redirect address, and a secret can be drawn |
| IssuerChecks.IssueExactly | packages/issuer-service/src/index.ts:647-762 | (one call) when a credential is issued |
| IssuerChecks.IssueEffect | packages/issuer-service/src/index.ts:647-762 | (one call) and what is recorded |
| IssuerChecks.ReviewOkExactly | packages/issuer-service/src/index.ts:439-473 | (one call) when a review is accepted, and what it decides |
| IssuerInvariants.OneCredentialASession | packages/issuer-service/src/index.ts:475-762 | in every reachable state a session has at most one of: unspent grant, unspent access token, credential ever issued (section 4.1.2 of RFC 6749) |
| IssuerInvariants.EveryIssuanceHasQuorum | packages/issuer-service/src/index.ts:848-875 | every credential ever issued has at least requiredApprovals approvals by distinct reviewers its policy authorises, and no rejection |
| IssuerInvariants.IssuedUnderCurrentPolicy | packages/issuer-service/src/index.ts:667-674 | that policy is the one registered at that moment, and the session is on offer |
| IssuerInvariants.IssuedOnlyAfterAllChecks | packages/issuer-service/src/index.ts:657-745 | (one call) what one issuance takes: token, session, proof, key, trust, template, issuer and signature |
| IssuerInvariants.ReviewExactly | packages/issuer-service/src/index.ts:448-472 | (one call) who may review, and when a session is approved or rejected |
| IssuerInvariants.CodeIsSingleUse | packages/issuer-service/src/index.ts:975-989 | a code accepted once is refused ever after, in any flow |
| IssuerInvariants.AccessTokenIsSingleUse | packages/issuer-service/src/index.ts:991-1004 | an access token used once, successfully or not, changes nothing ever after |
| IssuerInvariants.AccessTokenDescends | packages/issuer-service/src/index.ts:632-639 | (one call) an access token belongs to its code's session and outlives neither the code nor a minute |
| IssuerInvariants.CodeDescends | packages/issuer-service/src/index.ts:571-588 | (one call) a code belongs to its offer's session and client and outlives neither the offer nor a minute |
| IssuerInterleaving.OfferIsItsParts | packages/issuer-service/src/index.ts:475-548 | `createOffer` without interruption is its two parts, before and after its wait |
| IssuerInterleaving.IssueIsItsParts | packages/issuer-service/src/index.ts:647-762 | `issueCredential` without interruption is its three parts |
| IssuerInterleaving.OneCredentialInEveryInterleaving | packages/issuer-service/src/index.ts:475-762 | with the waiting calls split, in every interleaving a session has throughout at most one of: unspent grant, unspent token, call about to sign, credential, if and only if every offer that makes a grant finds its session without any of them, which `createOffer` does not check |
| IssuerInterleaving.RecheckingIsEnough | packages/issuer-service/src/index.ts:501-529 | looking once more, after the wait, whether the session is still approved would be enough |
| IssuerInterleaving.QuorumInEveryInterleaving | packages/issuer-service/src/index.ts:848-875 | every credential issued has its quorum and no rejection, in every interleaving whatever |
| OverlappingOffers.TwoCredentials | packages/issuer-service/src/index.ts:475-762 | a run from the empty service in which two overlapping offers of one session end in two credentials |
| OverlappingOffers.OneMore | packages/issuer-service/src/index.ts:501-761 | whatever its session was issued before, a pre-authorised offer in flight gives it one more credential, as long as the session has not expired and would be authorised |
| CredentialStatus.CredentialRecords.ChangeBegins | packages/issuer-service/src/index.ts:823-835 | `changeStatus` up to its wait |
| CredentialStatus.CredentialRecords.ChangeEnds | packages/issuer-service/src/index.ts:836-845 | `changeStatus` from its wait on |
| CredentialStatus.BeginExactly | packages/issuer-service/src/index.ts:823-835 | (one call) which answer a change gets: it goes to the publisher exactly for another status of a credential that is not revoked |
| CredentialStatus.StaysRevokedExactly | packages/issuer-service/src/index.ts:823-846 | in every interleaving, a credential revoked at some moment stays revoked from then on if and only if no suspension that read its record before and still waits at that moment ends well |
| CredentialStatus.RevokedForGood | packages/issuer-service/src/index.ts:823-846 | so revocation is for good when no change of the credential waits at that moment |
| CredentialStatus.SuspensionOverwrites | packages/issuer-service/src/index.ts:830-845 | a run from the empty service in which an overlapping suspension makes a revoked credential suspended |
| IssuerSigner.FingerprintExactly | packages/issuer-signer/src/index.ts:391-393 | fingerprints are equal exactly for the same operation, signing algorithm apart |
| IssuerSigner.RequireDualApproval | packages/issuer-signer/src/index.ts:561-594 | accepts exactly evidence with two distinct approvals and approvers, in which every approval is for that request id and that very operation and in force at its time |
| IssuerSigner.InMemoryIssuerOperationStore.Reserve | packages/issuer-signer/src/index.ts:219-233 | reserves a new request id unless its fingerprint is unresolved |
| IssuerSigner.InMemoryIssuerOperationStore.Finish | packages/issuer-signer/src/index.ts:235-240 | frees the fingerprint unless the outcome is ambiguous |
| IssuerSigner.InvokedOncePerRequest | packages/issuer-signer/src/index.ts:360-447 | in every interleaving of sign, rotate and disable the provider is invoked at most once per request id, with two approvers; each time two distinct approvers had approved that very operation under that request id |
| IssuerSigner.InvokedAfterChecks | packages/issuer-signer/src/index.ts:360-447 | in every interleaving each invocation follows a call begun for it whose key and approvals were checked with success |
| IssuerSigner.ApprovedExactly | packages/issuer-signer/src/index.ts:561-594 | the counts of ids and approvers mean two of each |
| SignerChecks.RequestRunsThrough | packages/issuer-signer/src/index.ts:360-447 | a request with a fresh id and free fingerprint, a good key and good approvals is invoked, and ends as the provider answers |
| SignerChecks.ReservedElsewhere | packages/issuer-signer/src/index.ts:215-233 | a request whose id is taken or whose operation is unresolved is not invoked |
| IssuerSigner.OneOpenPerFingerprint | packages/issuer-signer/src/index.ts:215-241 | at most one operation per fingerprint is pending or ambiguous |
| IssuerSigner.NeverInvokedAgain | packages/issuer-signer/src/index.ts:596-675 | once an operation is ambiguous the provider is never invoked again for its fingerprint |
| IssuerSigner.UnclearAnswerBlocksRetries | packages/issuer-signer/src/index.ts:405-409 | an ambiguous, failing or malformed provider answer blocks every retry under any request id and algorithm |
| KeyLifecycle.UnsafeLocalDevelopmentKmsAdapter.Rotate | packages/issuer-signer/src/index.ts:817-836 | active becomes rotated and standby active, or nothing changes |
| KeyLifecycle.UnsafeLocalDevelopmentKmsAdapter.Disable | packages/issuer-signer/src/index.ts:838-849 | disables a key that is not disabled yet |
| KeyLifecycle.RotatesExactly | packages/issuer-signer/src/index.ts:817-836 | (one call) a key becomes current exactly from standby in place of an active one of its algorithm, and no other key changes |
| KeyLifecycle.RotationRefused | packages/issuer-signer/src/index.ts:817-836 | (one call) why it does not |
| KeyLifecycle.DisablesExactly | packages/issuer-signer/src/index.ts:838-849 | (one call) when a key is disabled |
| KeyLifecycle.WorkIsBounded | packages/issuer-signer/src/index.ts:817-849 | 2·rotations + disables fits in what the ranks can still rise, so at most 3n operations ever complete with n keys |
| KeyLifecycle.RanksOnlyRise | packages/issuer-signer/src/index.ts:817-849 | no key moves back; rotated and disabled keys are never active again |
| KeyLifecycle.ActiveCount | packages/issuer-signer/src/index.ts:833-835 | a rotation passes activity from one key to another; disabling stops at most one |
| KeyLifecycle.RotationsKeepActiveCount | packages/issuer-signer/src/index.ts:817-836 | rotations keep the number of active keys |
| SignerPolicy.InMemoryPolicyStore.Reserve | packages/signer-policy/src/index.ts:221-259 | one reservation against the latest window of its key |
| SignerPolicy.DeniedChangesNothing | packages/signer-policy/src/index.ts:232-252 | a refused reservation changes nothing; a replay is exactly a consumed request id |
| SignerPolicy.GrantedOnce | packages/signer-policy/src/index.ts:228-257 | a request id is granted at most once ever |
| SignerPolicy.WindowQuota | packages/signer-policy/src/index.ts:233-256 | with a fixed policy, each aligned window of a key admits at most maxOperations and maxTotalAmount, as long as what is granted to that key never comes back to a window it has left; refusals, other keys and times inside a window do not matter |
| SignerPolicy.GrantedNeverReenter | packages/signer-policy/src/index.ts:233-256 | requests that never come back to a window are granted so |
| SignerPolicy.IntervalQuota | packages/signer-policy/src/index.ts:233-256 | any interval as long as a window then admits at most twice each |
| SignerPolicy.IntervalQuotaIsTight | packages/signer-policy/src/index.ts:233-256 | twice is reached, for every policy with windows of two seconds or more |
| SignerPolicy.SharedKeyDoublesQuota | packages/signer-policy/src/index.ts:233-256 | for any two policies that share a key, a request under one that moves the key to a window starting elsewhere gives the other its whole quota again |
| SignerPolicy.ReentryDoublesQuota | packages/signer-policy/src/index.ts:237-245 | the condition is needed: for every policy and key, and any times t0 and t2 of one window and t1 of another, a run at these times takes twice the quota out of that window |
| SignerPolicy.FrequencyKeyExactly | packages/signer-policy/src/index.ts:398 | what two equal frequency keys have in common |
| SignerPolicy.BucketsSeparate | packages/signer-policy/src/index.ts:398 | buckets are separate when signer ids hold no colon |
| SignerPolicy.BucketsMayMeet | packages/signer-policy/src/index.ts:398 | otherwise two signers may share a quota |
| PolicyEvaluator.ValidatePolicy | packages/signer-policy/src/index.ts:262-310 | accepts exactly the policies whose parts are valid and whose (contract, selector) pairs are distinct |
| PolicyChecks.PolicyExactly | packages/signer-policy/src/index.ts:262-310 | a policy is valid exactly when its fields are well formed and no two selectors name the same function of the same contract in any letters |
| PolicyEvaluator.AllowedExactly | packages/signer-policy/src/index.ts:325-407 | (one call) a request is allowed exactly when session, policy, first matching rule and step-up permit it and the reservation succeeds |
| PolicyChecks.AllowedFor | packages/signer-policy/src/index.ts:325-407 | (one call) a request is allowed exactly when well formed, with a session that speaks for it, a policy in force whose first rule for the contract allows it, evidence if sensitive, and a free reservation; then that one is made |
| PolicyChecks.RuleAllowsExactly | packages/signer-policy/src/index.ts:325-407 | (one call) what the first matching rule and asset allow |
| PolicyEvaluator.DenialConsumesNothing | packages/signer-policy/src/index.ts:396-406 | a denied request consumes neither its id nor quota |
| PolicyEvaluator.SensitiveNeedsStepUp | packages/signer-policy/src/index.ts:384-395 | (one call) sensitive operations need step-up evidence from a passkey or recovery, bound to the request and in force |
| PolicyEvaluator.AuthorizedWithinQuota | packages/signer-policy/src/index.ts:325-407 | over any run of authorisations, with policies, sessions and revocations changing freely, each signer, contract and selector stays within the policy's quota in every aligned window, as long as the requests it is allowed never come back to a window they have left, and every session registered under the same joined signer and policy ids has a policy of the same frequency |
| PolicyEvaluator.PlainSignersShareNothing | packages/signer-policy/src/index.ts:398 | the condition on joined ids holds wherever no signer with a session has a colon in its id |
| PolicyEvaluator.SharedKeyBreaksQuota | packages/signer-policy/src/index.ts:325-407 | the condition is needed: wherever two signers share a key and their windows start elsewhere, one request of the second gives the first its whole quota of the window again |
| PolicyEvaluator.JoinedIdsBreakQuota | packages/signer-policy/src/index.ts:325-407 | such registries exist for any ids: at times 0, 8 and 9, with every other condition met, signer a under policy `b:c` is allowed twice in ten seconds instead of once, because of signer `a:b` under policy c |
| PlatformStore.ScopedIdInjective | packages/platform-store/src/index.ts:163-167 | scoped ids are equal only for equal tenant, kind and id |
| PlatformStore.PrefixExactly | packages/platform-store/src/index.ts:283-285 | the prefix test of `list` picks exactly the tenant and kind |
| PlatformStore.GetAfterPut | packages/platform-store/src/index.ts:232-277 | a record put is read back under its locator, and no other locator sees a change |
| PlatformStore.ListExactly | packages/platform-store/src/index.ts:278-287 | a listing holds exactly its tenant's records of the kind |
| PlatformStore.InMemoryPlatformStore.PutRecord | packages/platform-store/src/index.ts:232-266 | stores under the scoped id, for a tenant and id of the pattern |
| PlatformStore.InMemoryPlatformStore.GetRecord | packages/platform-store/src/index.ts:267-277 | reads under the scoped id, for a tenant and id of the pattern |
| PlatformStore.InMemoryPlatformStore.BeginIdempotent | packages/platform-store/src/index.ts:298-308 | joins, refuses or starts an operation |
| PlatformStore.InMemoryPlatformStore.FinishIdempotent | packages/platform-store/src/index.ts:309-314 | hands out the result, or drops the owner's entry |
| PlatformStore.StartExactly | packages/platform-store/src/index.ts:288-308 | (one call) an operation starts exactly for a free key; a taken one is joined for the same request and refused for another |
| PlatformStore.ResumeExactly | packages/platform-store/src/index.ts:305-314 | (one call) who gets the result, and when the entry goes |
| PlatformStore.RunsOncePerKey | packages/platform-store/src/index.ts:288-315 | in every interleaving at most one execution per key is in flight or kept |
| PlatformStore.CallersAgree | packages/platform-store/src/index.ts:305-310 | all successful callers of a key get the same result for the same request |
| PlatformStore.ConflictsRefused | packages/platform-store/src/index.ts:299-304 | another request hash is refused while the entry lives, and for good once a result was handed out |
| PlatformStore.SucceedsOnce | packages/platform-store/src/index.ts:307-314 | an operation runs again under its key only after it failed, or succeeded with a result that could not be cloned |
| PlatformStore.UncloneableRunsAgain | packages/platform-store/src/index.ts:309-314 | a result that cannot be cloned drops the entry and the operation succeeds twice |
| VaultEnvelope.JsonBytesRoundTrip | packages/credential-vault/src/index.ts:467-470 | serialising a JSON value to bytes and back loses nothing |
| VaultEnvelope.JsonBytesInjective | packages/credential-vault/src/index.ts:454-459 | different values have different bytes, also in base64url |
| VaultEnvelope.OpenCreated | packages/credential-vault/src/index.ts:197-281 | an envelope opens with its own secret to what was put in, and with no other |
| VaultEnvelope.PayloadIsBound | packages/credential-vault/src/index.ts:248-281 | a payload opens only to what was sealed, under its own associated data |
| VaultChecks.CreatedExactly | packages/credential-vault/src/index.ts:197-246 | (one call) which options make an envelope, and what it holds: the secret's key around its own key, and that one around the payload |
| VaultChecks.OpenedExactly | packages/credential-vault/src/index.ts:248-281 | (one call) any envelope opens exactly with the secret its key is sealed under and nothing around it changed |
| CredentialVault.MatchesExactly | packages/credential-vault/src/index.ts:454-466 | the metadata check passes exactly for metadata in field order without extra or empty fields |
| VaultChecks.EntryMetadataExactly | packages/credential-vault/src/index.ts:460-466 | the fields of an entry in order, and the two dates only when not empty |
| CredentialVault.InMemoryVaultStore.Put | packages/credential-vault/src/index.ts:506-518 | seals the credential under its metadata |
| CredentialVault.InMemoryVaultStore.Get | packages/credential-vault/src/index.ts:519-540 | opens an entry |
| CredentialVault.InMemoryVaultStore.Delete | packages/credential-vault/src/index.ts:546-548 | forgets an entry |
| CredentialVault.InMemoryVaultStore.Migrate | packages/credential-vault/src/index.ts:549-572 | reseals an entry under new options, or leaves it |
| CredentialVault.InMemoryVaultStore.ExportBackup | packages/credential-vault/src/index.ts:573-580 | seals the listed entries under the backup header, refusing what is no vault entry |
| CredentialVault.InMemoryVaultStore.RestoreBackup | packages/credential-vault/src/index.ts:581-592 | clears and refills the vault from a backup |
| VaultChecks.GetExactly | packages/credential-vault/src/index.ts:519-540 | (one call) any entry is read exactly when it is bound to its metadata and opens to the bytes of a value |
| VaultChecks.MigrateExactly | packages/credential-vault/src/index.ts:549-572 | (one call) any entry is resealed exactly when it is bound to its metadata, opens, and the new envelope is made |
| VaultChecks.ExportExactly | packages/credential-vault/src/index.ts:371-398 | (one call) when a backup is made, and what it is sealed under |
| VaultChecks.OpenBackupExactly | packages/credential-vault/src/index.ts:400-438 | (one call) any backup opens exactly when known, not below the least sequence, bound to its header, and all its entries may be kept |
| VaultChecks.RestoreExactly | packages/credential-vault/src/index.ts:581-592 | (one call) a restore holds the last entry of each id and nothing else |
| VaultContent.GetExactly | packages/credential-vault/src/index.ts:506-540 | what is put is got back exactly with proper metadata and the right secret |
| VaultContent.FailedMigrationKeeps | packages/credential-vault/src/index.ts:549-572 | a failed migration leaves every entry as it was |
| VaultContent.MigrateRefines | packages/credential-vault/src/index.ts:549-572 | migration changes the secret and nothing else, and succeeds exactly with proper metadata, the current secret and usable options |
| VaultContent.BackupHeaderIsBound | packages/credential-vault/src/index.ts:400-438 | a backup whose sequence number or time was changed does not open |
| VaultContent.RestoreOfExport | packages/credential-vault/src/index.ts:371-438 | restore(export(S)) = S, but for undefined metadata fields, with the right secret and sequence, and an error otherwise; and it holds the same credentials |
| VaultContent.VaultKeepsCredentials | packages/credential-vault/src/index.ts:504-593 | after any run of puts of any metadata, deletions, migrations, exports and restores, `get` gives the credential put, under the secret in force and no other, exactly when it was put with proper metadata |
| AuthEmail.EmailOtpAuthService.VerifyBegins | packages/auth-email/src/index.ts:381-397 | `verifyOtp` up to its wait |
| AuthEmail.EmailOtpAuthService.VerifyEnds | packages/auth-email/src/index.ts:397-415 | `verifyOtp` from its wait on |
| AuthEmail.EmailOtpAuthService.ConfirmBegins | packages/auth-email/src/index.ts:446-466 | `confirmEmailChange` up to its wait |
| AuthEmail.EmailOtpAuthService.ConfirmEnds | packages/auth-email/src/index.ts:466-491 | `confirmEmailChange` from its wait on |
| AuthEmailChecks.VerifyBeginsExactly | packages/auth-email/src/index.ts:381-397 | (one call) when a code is compared, and what else a refusal changes |
| AuthEmailChecks.ConfirmBeginsExactly | packages/auth-email/src/index.ts:446-466 | (one call) a change is checked exactly for a session registered, not revoked and unexpired, and a challenge for a change of its principal |
| AuthEmailChecks.ConfirmEndsExactly | packages/auth-email/src/index.ts:466-491 | (one call) when a change takes effect |
| AuthEmailChecks.EndedSessionIsUseless | packages/auth-email/src/index.ts:466-512 | after a change of address, no session its principal had confirms anything |
| AuthEmailChecks.RegisterExactly | packages/auth-email/src/index.ts:301-329 | (one call) when an identity is registered |
| AuthEmailInvariants.OneComparisonInFlight | packages/auth-email/src/index.ts:381-491 | in every interleaving a challenge has at most one comparison in flight |
| AuthEmailInvariants.AttemptsAreBounded | packages/auth-email/src/index.ts:381-491 | at most maxAttempts comparisons in all and at most one success per challenge |
| AuthEmailInvariants.SuccessIsFinal | packages/auth-email/src/index.ts:386 | after a success no comparison starts again |
| AuthEmailInvariants.SessionExactly | packages/auth-email/src/index.ts:397-414 | (one call) when a session is minted, and for whom |
| AuthEmailInvariants.ChangeEndsSessions | packages/auth-email/src/index.ts:472-490 | (one call) a change ends the principal's sessions and touches no other identity |
| AuthEmailInvariants.ChangeKeepsIndexExactly | packages/auth-email/src/index.ts:479-488 | a change keeps every identity findable exactly when nobody else holds the new address by then |
| AuthEmailInvariants.RegisterKeepsIndex | packages/auth-email/src/index.ts:311-327 | registration keeps every identity findable |
| AuthEmailInvariants.IndexIsBacked | packages/auth-email/src/index.ts:311-488 | in every interleaving identities have ids of their own, and every address in the index is that of the identity named there |
| AuthEmailInvariants.FindableThroughoutExactly | packages/auth-email/src/index.ts:311-488 | in every interleaving, every identity is found under its address throughout if and only if no confirmed change takes an address that the index gives to another identity by then |
| AuthEmailInvariants.TakeoverLogsInAnother | packages/auth-email/src/index.ts:423-488 | a run from the empty service: a asks to move to a free address, c registers it, a confirms, and the code sent to it then opens a session of a's principal |
| Recovery.RecoveryController.Land | packages/account-adapter/src/index.ts:62-77 | a proposal takes effect after its wait, with no approvals |
| Recovery.RecoveryController.ApproveBy | packages/account-adapter/src/index.ts:78-86 | one approval per guardian |
| Recovery.RecoveryController.ExecuteAt | packages/account-adapter/src/index.ts:87-96 | threshold, timelock, then the change |
| Recovery.CreatedExactly | packages/account-adapter/src/index.ts:32-51 | (one call) for which policies a controller is made, guardians in lower case and counted once |
| Recovery.ProposeExactly | packages/account-adapter/src/index.ts:62-77 | (one call) which proposals are accepted |
| Recovery.ApproveExactly | packages/account-adapter/src/index.ts:78-86 | (one call) whose approval counts |
| Recovery.ExecutesExactly | packages/account-adapter/src/index.ts:87-96 | (one call) when the proposed signer takes over, and that it does |
| Recovery.StateIsHistory | packages/account-adapter/src/index.ts:50-97 | the pending proposal and its approvals are what the history of events says, and the account never changes |
| Recovery.ExecuteExactly | packages/account-adapter/src/index.ts:87-96 | execution succeeds exactly when the history allows it |
| Recovery.SignerChangesAreEarned | packages/account-adapter/src/index.ts:50-97 | the signer changes to x only at an execution when x landed last, long enough ago, with threshold distinct guardian approvals since |
| Recovery.EarnedExecutionSucceeds | packages/account-adapter/src/index.ts:87-96 | and whenever that is so, execution succeeds |
| WalletSagas.VendorRotation.RotateVendor | packages/wallet-portability/src/index.ts:602-659 | the control after every effect, and the outcome |
| WalletSagas.OutcomeExactly | packages/wallet-portability/src/index.ts:602-659 | what each answer of the ports makes of a rotation |
| WalletSagas.ControlExactly | packages/wallet-portability/src/index.ts:602-659 | and of the two controls |
| WalletSagas.RotationIsSafe | packages/wallet-portability/src/index.ts:602-659 | with failure-atomic ports a verified control path works at every step; success leaves the new control only, with account, chain and DID after its installation as inspected before; failure leaves the old one |
| WalletSagas.ControlLostExactly | packages/wallet-portability/src/index.ts:634-652 | without that, control is lost exactly when the removal worked but failed and the rollback took the new control too |
| WalletSagas.FailureClaimExactly | packages/wallet-portability/src/index.ts:641-657 | the old control remains authoritative after a failure exactly unless its removal worked but failed |
| WalletSagas.LeftoverControlExactly | packages/wallet-portability/src/index.ts:641-657 | when a failed rotation leaves the new control behind |
| WalletSagas.ImportIsAllOrNothing | packages/wallet-portability/src/index.ts:561-600 | an import ends committed and verified, rolled back, or reports ROLLBACK_FAILED, exactly unless an undefined handle hides a prepared target |
| WalletSagas.ImportExactly | packages/wallet-portability/src/index.ts:561-600 | what each answer of the ports makes of an import, and of its target |
| WalletSagas.UndefinedHandleIsNotRolledBack | packages/wallet-portability/src/index.ts:583 | a committed target reported as rolled back |
| WalletState.SerialRoundTrip | packages/platform-types/src/index.ts:228-248 | what `serializeCanonical` writes is read back as the same value, keys sorted |
| BundleChecks.SerialisableExactly | packages/platform-types/src/index.ts:228-248 | what can be serialised: nothing undefined, unsafe or longer than 32 items anywhere below, and eight levels |
| BundleChecks.StateExactly | packages/wallet-portability/src/index.ts:204-327 | which states are portable, told field by field, with no secret-like name at any level |
| WalletState.StateOfNorm | packages/wallet-portability/src/index.ts:204-327 | a state that `validateState` accepts is accepted with its keys sorted, and binds the same account |
| MigrationBundle.BundleRoundTripExactly | packages/wallet-portability/src/index.ts:426-559 | an exported bundle opens, with its secret, before expiry and with consent, if and only if the address is in lower case, and then to the whole state exported, read back from its bytes, but for the order of keys |
| BundleChecks.ExportExactly | packages/wallet-portability/src/index.ts:426-487 | (one call) when a bundle is made, and of what |
| BundleChecks.OpenExactly | packages/wallet-portability/src/index.ts:489-559 | (one call) any bundle, whoever made it, opens exactly when good, in time, signed with its address in lower case, consented to, sealed under its header, and holding a portable state of that account |
| BundleChecks.OpenRefused | packages/wallet-portability/src/index.ts:333-559 | (one call) why it does not: version, date, signature, consent |
| MigrationBundle.MixedCaseFailsAtSignature | packages/wallet-portability/src/index.ts:333-409 | a mixed-case address fails at the signature |
| MigrationBundle.ManyAssetsAreNotPortable | packages/platform-types/src/index.ts:236-239 | a valid state with more than 32 assets is not exported |
| PresentationPolicy.PolicyRoundTrip | packages/presentation-policy/src/index.ts:71-122 | the parser accepts the object of a policy exactly when it is valid |
| PresentationChecks.PolicyExactly | packages/presentation-policy/src/index.ts:71-122 | any object is read as a policy exactly when it has its fields and no others, each of its form |
| PresentationChecks.DcqlExactly | packages/presentation-policy/src/index.ts:214-266 | any object is read as a DCQL query exactly when it has its fields and no others, each of its form |
| PresentationPolicy.DcqlRoundTrip | packages/presentation-policy/src/index.ts:149-266 | translating to DCQL and back keeps every query and claim (section 6 of OpenID4VP 1.0) |
| PresentationPolicy.SecondTranslationSame | packages/presentation-policy/src/index.ts:149-266 | a second translation changes nothing |
| PresentationPolicy.TranslationKeepsSelection | packages/presentation-policy/src/index.ts:178-266 | the translated policy selects the same candidates in the same order, for every candidate list and approved set |
| PresentationPolicy.SelectedExactly | packages/presentation-policy/src/index.ts:178-213 | selected are exactly the candidates some query asks for and whose every claim holds |
| PresentationPolicy.CandidatesExactly | packages/presentation-policy/src/index.ts:178-213 | selected are exactly the candidates that are there, approved, and of the id, type and format of some query, and at the end of each claim's path stands the value it asks for |
| PresentationPolicy.OneQueryInOrder | packages/presentation-policy/src/index.ts:178-213 | for one query they come in the order of the candidates, each as often as it is there |
| PresentationPolicy.QueryByQuery | packages/presentation-policy/src/index.ts:178-213 | and query after query |

## Left out

- SnapshotCache.OfflineTrustStatusCache.FinishPrime: takes a snapshot that is parsed already; the offline cache's looser parser and its byte limit are not modelled.
- IssuerInterleaving.OneCredentialInEveryInterleaving: `issuerMetadata` is not modelled.
- CredentialStatus.StaysRevokedExactly: a record is its status; its other fields, which a change copies, and what the publisher does with the changes are not modelled.
- OverlappingOffers.OneMore: offers of the authorization-code flow, which take one more step, are not covered.
- IssuerServiceObject.InstitutionalIssuerService.PublishTemplate: a template is its status and formats; parsing it and comparing its tenant are not modelled.
- IssuerServiceObject.InstitutionalIssuerService.EnrolIssuer: a profile is the templates it may issue; parsing it, its tenant and its key reference are not modelled.
- IssuerServiceObject.InstitutionalIssuerService.CreateIssuanceRequest: claims, subject binding and evidence are checked before the session is made and are not part of the session here.
- IssuerServiceObject.InstitutionalIssuerService.Offer: redirect addresses are compared as texts; URL parsing is not modelled.
- IssuerSigner.InvokedOncePerRequest: the operation store is the in-memory one, whose `finish` never fails for a reserved request.
- VaultContent.VaultKeepsCredentials: credentials are JSON values with integer numbers, metadata fields are strings or undefined, and calls do not overlap; a backup carries its entries as values, their JSON losing undefined fields only.
- MigrationBundle.BundleRoundTripExactly: state and header are serialised; the envelope around them and the signed bundle are carried as values, and whether the bundle is within the size limit is an input.
- WalletSagas.RotationIsSafe: the snapshot is taken before the old control is removed, as in the program, so it says nothing about what removing it does to the account; the digests of assets and history, which the program does not compare, are left out.
- WalletSagas.ImportIsAllOrNothing: the target is only prepared or committed; what an import writes is not modelled.
- Insertion order of the platform store's listings: a listing is a map from scoped ids to records.
- Request rates of the email service (`consumeRate`) and its session lifetime rules: easy members.
- Audit records, their redaction and listing: easy members.
- Parsing of a Uint8Array envelope: the text form is modelled.
- The scanner's `JsonCursor`: a near copy of the strict reader.
- IndexedDB and Postgres stores, HTTP routes and clients, the SDK retry loop, verifier sessions, scan gates, templates, passkeys, OIDC and wallet actions: plumbing, or database semantics not shown.
- Module manifests and deployment checks of the account adapter: constant comparisons.
