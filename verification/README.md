# Routing configuration: state, identities and rewrites

A Dafny model of the parts of `open-sse/config` that hold state, walk text or rewrite
requests, with proofs of what they keep over every run and every input.

| file | models |
|---|---|
| `TurnState.dfy` | the Codex turn-state provenance table: a map with a time-to-live, lazy expiry and a sweep every 256 writes, proved to answer as the ever-growing history of notes would |
| `StableUuid.dfy` | UUIDs from a SHA-256 digest, bit by bit, in the version 4 layout (section 4.4 of RFC 4122) and the legacy layout |
| `CodexSeed.dfy` | the per-connection fingerprint seed over any sequence of saves, and the ids derived from it |
| `CodexCarriers.dfy` | one client identity written into headers, client_metadata and nested turn metadata |
| `LawfulCodec.dfy` | a printer and parser of JSON trees that meets the laws `CodexCarriers` asks for |
| `GlmEndpoint.dfy` | the GLM endpoint normaliser and joiner |
| `FreeModels.dfy` | pool-deduplicated sums and the published free-token totals |
| `ClientBetas.dfy` | merging client betas into the `anthropic-beta` comma list |
| `HeaderOrder.dfy` | ordering body fields and headers to a fingerprint; stripping internal body markers |
| `ToolSchema.dfy` | removing `enumDescriptions` from tool schemas |
| `ContextEditing.dfy` | adding the clear-tool-uses edit behind the clear-thinking edits |
| `ErrorRules.dfy` | operator error rules in front of the built-in catalog |
| `ResetCountdown.dfy` | reading "resets in 13 days" out of free text |
| `MediaRegistry.dfy` | the shared provider registry: listing, parsing, the cached model index |
| `ProviderIds.dfy` | provider-scoped ids of the embedding and rerank registries |
| `Prelude.dfy` | strings, insertion-ordered objects and JSON trees as JavaScript has them |

## Conventions

- A JavaScript object or `Map` whose order shows is a sequence of key-value pairs; where the
  order never shows it is a Dafny `map`. A value that may not be a string is an `Option<string>`.
- The clock, `randomUUID`, SHA-256 (any function to 32 bytes), the model-eligibility test and
  the built-in error rules are parameters. `JSON.parse` and `JSON.stringify` are a pair of
  functions of which `CodexCarriers.Lawful` asks that parsing undoes printing on objects
  without repeated keys, that printed objects are not blank, and that parsing yields no
  repeated keys; `LawfulCodec.LawfulCodecExists` shows a pair that does.
- `toLowerCase` is an arbitrary function (`Fold`) where user text is folded, so those results hold
  for full Unicode. Where text is compared with fixed words it is ASCII lower-casing. The only
  non-ASCII character that lower-cases to a single ASCII letter is the Kelvin sign, to `k`. The
  words compared through `toLowerCase` (header names, modes, `/chat/completions`, `/models`)
  have no `k`; the message endpoints, one of which has, are matched by regular expressions with
  the `i` flag and without the `u` flag, which fold ASCII letters only among themselves.
- Objects that a method edits in place are classes; each method is proved equal to a function
  of the old state, and the lemmas are about that function.
- Token counts, durations and times are mathematical integers. For the countdown parser
  `ResetCountdown.DoublesReadTheSame` shows that doubles give the same up to 2 to the power of 53.

## Where the code does less than it is asked for

Each of these is settled by a lemma that says exactly when the property holds, and one that
shows an input on which it fails.

- Joining a GLM message endpoint is not always idempotent: on a base ending in `/v1/v1` (or in
  an upper-case `/V1`) a second join drops a segment (`JoiningTwice`, `DoubledVersionShrinks`).
- Under a clock that steps back, the guard can miss a live foreign note: exactly when a call made
  since the note has evicted it (`GuardForAnyClock`, `SteppingBackLosesANote`).
- The comment on `ensureCodexFingerprintSeed` says a valid seed is always carried forward; the code
  carries it forward exactly on saves with OAuth credentials (`SeedSurvivesExactlyOAuthSaves`,
  `SaveWithoutTokensDropsTheSeed`).
- A printed embedding or rerank id does not parse back when its provider lists both
  `provider/x` and `x` (`RerankRoundTrip`, `EmbeddingRoundTrip`, `ListedBothWaysIsLost`).
- Steady plus gated tokens exceed the deduplicated steady total exactly when a pool has
  positive rows of both kinds (`GatedAndSteadyCoverAll`, `MixedPoolCountsTwice`).
- A body gains a native turn binding only if turn metadata came in (`RewrittenTurnIsNativelyBound`,
  `NoTurnMetadataIsUnbound`).
- An enabled context-editing call sends no edit when `context_management` is an array
  (`ToolUseEditIsSent`, `ArrayManagementSendsNoEdit`).
- `orderHeaders` leaves one header per name exactly unless an empty order meets case variants
  (`OneHeaderPerName`, `EmptyOrderKeepsCaseVariants`).
- The identity is written under fixed spellings. A header the writer does not reach, such as
  `Session-Id` or `thread_id`, keeps what came in, so all spellings agree exactly when those
  agreed before (`AllSpellingsAgree`, `CaseVariantKeepsTheClientsId`).

## Model

| member | source | states |
|---|---|---|
| TurnState.TurnStateTable.NoteProvenance | open-sse/config/codexTurnState.ts:93-112 | the table after a note, sweep included, holds exactly what the longer history says is remembered |
| TurnState.TurnStateTable.IsCrossAccount | open-sse/config/codexTurnState.ts:121-138 | the verdict, and lazy deletion that leaves the table in step with the history |
| TurnState.TurnStateTable.SweepExpired | open-sse/config/codexTurnState.ts:78-84 | exactly the entries expiring after the given time stay |
| TurnState.TurnStateTable.ResolveEcho | open-sse/config/codexIdentity.ts:258-267 | forwards the client's own trimmed blob or nothing; with a nondecreasing clock it is held back exactly when the history knows it as another account's |
| TurnState.ReadsTheFirstOffer | open-sse/config/codexTurnState.ts:56-76 | the value read is that of the first header of the name, ignoring case, that holds a non-blank string; nothing exactly when none does |
| TurnState.GuardAnswersTheWholeHistory | open-sse/config/codexTurnState.ts:78-138 | for a nondecreasing clock, true exactly when the last note ever made named another account less than the time-to-live ago |
| TurnState.GuardIsSoundForAnyClock | open-sse/config/codexTurnState.ts:121-138 | for any clock, a true answer names a live foreign last note |
| TurnState.GuardForAnyClock | open-sse/config/codexTurnState.ts:78-138 | for any clock, the guard answers as the whole history would exactly unless a call made since has evicted the last note |
| TurnState.KnownForeignIs | open-sse/config/codexTurnState.ts:93-138 | known as foreign: the last note for the session is by another account and less than two hours old |
| TurnState.SessionIsNamed | open-sse/config/codexIdentity.ts:239-247 | the session is the first offered `session-id` value if usable (at most 200 safe characters), else the first offered `session_id` if usable, else none |
| TurnState.EchoByHeaders | open-sse/config/codexIdentity.ts:258-267 | by the raw headers: the blob is held back exactly when the session they name is known as another account's and not evicted since; one that names no session always passes |
| TurnState.NoBlobNoEcho | open-sse/config/codexIdentity.ts:258-267 | nothing is forwarded when no blob is offered |
| TurnState.ForgottenExactlyWhenEvicted | open-sse/config/codexTurnState.ts:78-138 | for any clock, a note is forgotten exactly when a later sweep, or check of its session, ran at or past its expiry |
| TurnState.SteppingBackLosesANote | open-sse/config/codexTurnState.ts:130-137 | a concrete run in which a backward clock makes the guard pass a foreign blob |
| TurnState.MemoryBound | open-sse/config/codexTurnState.ts:36-112 | the sessions held number at most those live at the last sweep plus the writes modulo 256 |
| TurnState.TableIsSmall | open-sse/config/codexTurnState.ts:43-112 | the same bound on the map itself, and at most the number of writes before the first sweep |
| StableUuid.DerivedIsVersion4 | open-sse/config/codexIdentity.ts:62-74 | every derived id is accepted unchanged, has version 4 and the RFC variant, and decodes to the masked bytes |
| StableUuid.DerivedSpellsTheDigest | open-sse/config/codexIdentity.ts:62-74 | digit by digit: byte i of the id is byte i of the digest, with the forced bits in bytes 6 and 8 |
| StableUuid.DerivedCollision | open-sse/config/codexIdentity.ts:62-74 | two digests give the same id exactly when they agree on the 122 free bits |
| StableUuid.LegacyIsAccepted | open-sse/config/codexIdentity.ts:56-59 | legacy ids are accepted unchanged and spell the digest with two digits replaced |
| StableUuid.LegacyCollision | open-sse/config/codexIdentity.ts:56-59 | two digests give the same legacy id exactly when they agree on the 120 bits the layout keeps |
| StableUuid.HexRoundTrip | open-sse/config/codexIdentity.ts:67-73 | decoding the hex of any bytes gives the bytes back |
| CodexSeed.SeedSurvivesExactlyOAuthSaves | open-sse/config/codexIdentity.ts:120-143 | a stored seed survives a save, whatever its mode or inbound seed, exactly when the save is OAuth |
| CodexSeed.SaveWithoutTokensDropsTheSeed | open-sse/config/codexIdentity.ts:128-130 | a stored seed and a save without tokens after which it is gone |
| CodexSeed.SaveStoresWhatItIsGiven | open-sse/config/codexIdentity.ts:125-142 | every key but the seed is stored as the save gives it; nothing is stored exactly when there is neither such a key nor a seed |
| CodexSeed.SeedIsTheStoredUuid | open-sse/config/codexIdentity.ts:91-95 | the seed is the stored string, trimmed, exactly when it is a UUID |
| CodexSeed.OAuthIs | open-sse/config/codexIdentity.ts:160-169 | a connection is OAuth exactly when one token is a string with something besides white space |
| CodexSeed.ModeIs | open-sse/config/codexIdentity.ts:171-184 | the four mode names, ignoring case, under the camel-case key first; session for anything else, off without OAuth |
| CodexSeed.SeedIsCreatedWhenNeeded | open-sse/config/codexIdentity.ts:137-142 | a missing seed is drawn exactly on OAuth saves whose mode is not off |
| CodexSeed.SeedNeverChanges | open-sse/config/codexIdentity.ts:102-143 | over any run of OAuth saves, each fed what the last one stored, the seed is constant once there |
| CodexSeed.SeedComesFromTheServer | open-sse/config/codexIdentity.ts:125-140 | a stored seed was stored at the start or drawn by one of the saves |
| CodexSeed.InboundSeedHasNoInfluence | open-sse/config/codexIdentity.ts:125-127 | runs differing only in inbound seed values store the same data |
| CodexSeed.InstallationIdCollision | open-sse/config/codexIdentity.ts:186-209 | a configured id is used unchanged; otherwise ids of one layout coincide exactly when the digests of their sources agree on the bits the layout keeps |
| CodexSeed.InstallationSourceIs | open-sse/config/codexIdentity.ts:186-209 | a configured UUID comes first, then the seed, the first stored owner, and the account |
| CodexSeed.InstallationIdIs | open-sse/config/codexIdentity.ts:186-209 | what is hashed, and in which layout, for each source |
| CodexSeed.AccountIs | open-sse/config/codexIdentity.ts:76-89 | the account is the caller's key, else the first identifier stored, else the default |
| CodexSeed.ConvergedIdsAre | open-sse/config/codexIdentity.ts:211-237 | what is hashed for session and thread ids, with a seed and without |
| CodexSeed.ThreadIdCollision | open-sse/config/codexIdentity.ts:224-237 | two requests share a thread id exactly when neither names a client session, or both do and their digests agree on the free bits |
| CodexSeed.SeededThreadsAreSeparate | open-sse/config/codexIdentity.ts:230-233 | what seeded connections digest differs for every other seed and every other client |
| CodexSeed.ConvergedIdsAreConstant | open-sse/config/codexIdentity.ts:211-237 | session and thread ids are the same before and after any run of OAuth saves, for every account key |
| CodexSeed.InstallationIdIsConstant | open-sse/config/codexIdentity.ts:186-209 | so is the installation id while none is configured explicitly |
| CodexSeed.SessionIdCollision | open-sse/config/codexIdentity.ts:211-218 | two connections share a session id exactly when their digests collide on the free bits; seeded ones digest the seed and nothing else |
| CodexCarriers.IdentityIsComplete | open-sse/config/codexIdentity.ts:273-311 | in session and full mode every id is a UUID; turn id and start time are this turn's, installation and session the connection's, and the thread the client's in session mode and the session otherwise |
| CodexCarriers.OtherModesShareLess | open-sse/config/codexIdentity.ts:278-292 | device mode has the installation id alone, off makes no identity |
| CodexCarriers.IdentityIsForTheNamedSession | open-sse/config/codexIdentity.ts:358-381 | a request's identity is made for the session its headers name and for its own connection |
| CodexCarriers.PassthroughIs | open-sse/config/codexIdentity.ts:338-356 | with mode off, exactly the identity headers that offer a value go through, with that value |
| CodexCarriers.IdentityIsStableAcrossSaves | open-sse/config/codexIdentity.ts:273-311 | once a seed is stored, a client keeps its session, thread and window ids through every later run of OAuth saves |
| CodexCarriers.ThreadsSeparateClients | open-sse/config/codexIdentity.ts:224-300 | in session mode clients share the session id, and share a thread exactly when their digests collide on the free bits |
| CodexCarriers.MergeReadsBack | open-sse/config/codexIdentity.ts:407-440 | the printed metadata reads back as the merged object, and merging again prints the same text |
| CodexCarriers.MergedTurnCarries | open-sse/config/codexIdentity.ts:407-440 | every id is in the text, and other keys of an incoming object survive |
| CodexCarriers.MergedTextIs | open-sse/config/codexIdentity.ts:407-440 | text to text: what goes out parses to the ids over the incoming object, over the two defaults when none came in, or over nothing in device mode |
| CodexCarriers.HeadersRewriteTheTurn | open-sse/config/codexIdentity.ts:459-480 | the header's turn metadata is that rewrite of what the client sent; device mode makes none of its own |
| CodexCarriers.BodyIsRewritten | open-sse/config/codexIdentity.ts:489-512 | key by key what client_metadata becomes, for any mode and any incoming value |
| CodexCarriers.HeaderBag.ApplyIdentity | open-sse/config/codexIdentity.ts:453-481 | the in-place header writer yields the specified headers, and does nothing without an identity |
| CodexCarriers.HeadersCarryTheIdentity | open-sse/config/codexIdentity.ts:471-480 | all headers and the nested text carry the ids; every other header is untouched |
| CodexCarriers.AllSpellingsAgree | open-sse/config/codexIdentity.ts:453-481 | after the rewrite no identity header under any casing disagrees, exactly when none of those the writer does not reach disagreed before |
| CodexCarriers.CaseVariantKeepsTheClientsId | open-sse/config/codexIdentity.ts:471-473 | an incoming `Session-Id` stays beside the rewritten one |
| CodexCarriers.HeadersApplyTwice | open-sse/config/codexIdentity.ts:453-481 | for an identity of any mode, a second application changes nothing, order and text included |
| CodexCarriers.DeviceModeMarksOnlyTheInstallation | open-sse/config/codexIdentity.ts:459-469 | device mode leaves all other headers and nested keys alone |
| CodexCarriers.RequestBody.ApplyClientMetadata | open-sse/config/codexIdentity.ts:483-513 | the in-place body writer yields the specified body, and does nothing without an identity |
| CodexCarriers.MetadataCarriesTheIdentity | open-sse/config/codexIdentity.ts:489-512 | client_metadata carries the ids, keeps every key its mode does not write, and has turn metadata exactly when some came in |
| CodexCarriers.BodyCarriesTheIdentity | open-sse/config/codexIdentity.ts:483-513 | for an identity of any mode, other body fields survive and a second application changes nothing; a complete one is carried |
| CodexCarriers.RewrittenTurnIsNativelyBound | open-sse/config/codexIdentity.ts:548-565 | a rewritten body is natively bound exactly when turn metadata came in |
| CodexCarriers.NoTurnMetadataIsUnbound | open-sse/config/codexIdentity.ts:504-512 | an empty body stays unbound |
| CodexCarriers.NativeBindingIs | open-sse/config/codexIdentity.ts:548-565 | any body is bound exactly when its turn metadata, object or text, has a non-blank thread id and turn id |
| CodexCarriers.CarriersAgree | open-sse/config/codexIdentity.ts:453-513 | headers, body and both nested texts agree on every shared id |
| GlmEndpoint.SplitUrlQueryAndHash | open-sse/config/glmProvider.ts:277-281 | base and suffix concatenate to the URL, and the cut is at the first query or hash sign |
| GlmEndpoint.StripKnownEndpointSuffix | open-sse/config/glmProvider.ts:426-447 | the loop and branches compute the stripped base and the suffix |
| GlmEndpoint.OtherBasesAreKept | open-sse/config/glmProvider.ts:426-460 | a base that ends in no known endpoint keeps everything, `/v4` included; the path goes between it and the query |
| GlmEndpoint.TrailingSlashesAreDropped | open-sse/config/glmProvider.ts:426-431 | any number of trailing slashes makes no difference |
| GlmEndpoint.EndpointsAreStripped | open-sse/config/glmProvider.ts:433-446 | an endpoint in any case is stripped; a message endpoint takes one version segment along, whatever its number, the others leave it |
| GlmEndpoint.JoinPathOfAny | open-sse/config/glmProvider.ts:449-460 | for any path: it is appended, less its version segment when the base ends in the same one ignoring case |
| GlmEndpoint.JoinPathIs | open-sse/config/glmProvider.ts:449-460 | joining appends the path, less its `/v1` exactly when the base ends in one ignoring case |
| GlmEndpoint.StripOfJoin | open-sse/config/glmProvider.ts:426-460 | what stripping a joined URL gives back, for every URL and endpoint |
| GlmEndpoint.JoinKeepsQueryAndHash | open-sse/config/glmProvider.ts:449-460 | query and hash come through a join unchanged |
| GlmEndpoint.SwitchingEndpoints | open-sse/config/glmProvider.ts:426-460 | joining one endpoint and then another equals joining the other directly exactly under a test on the stripped base |
| GlmEndpoint.JoiningTwice | open-sse/config/glmProvider.ts:426-460 | joining is idempotent exactly unless a message endpoint meets an upper-case or doubled version 1 |
| GlmEndpoint.DoubledVersionShrinks | open-sse/config/glmProvider.ts:433-460 | on every plain base ending in two version 1 segments the second join loses one |
| GlmEndpoint.JoinNeverDoublesTheVersion | open-sse/config/glmProvider.ts:452-459 | the result has a doubled version exactly where the base had one |
| FreeModels.DedupedSum | open-sse/config/freeModelCatalog.ts:221-236 | the loops compute the loose rows plus the pool maxima |
| FreeModels.PoolMaxIsTheMaximum | open-sse/config/freeModelCatalog.ts:226-233 | a pool is listed when a counted row names it, at the largest amount among them, not below zero |
| FreeModels.OrderIsIrrelevant | open-sse/config/freeModelCatalog.ts:221-236 | every permutation of the rows gives the same sum |
| FreeModels.RepeatedPooledRow | open-sse/config/freeModelCatalog.ts:231 | listing a pooled row again changes nothing |
| FreeModels.BetweenLargestAndPlain | open-sse/config/freeModelCatalog.ts:221-236 | for nonnegative amounts the sum lies between every counted row and the plain sum |
| FreeModels.ConcatenationAdds | open-sse/config/freeModelCatalog.ts:221-236 | concatenation is subadditive, and additive exactly when no pool has positive rows in both parts |
| FreeModels.AddingARow | open-sse/config/freeModelCatalog.ts:228-233 | one row adds between nothing and its own amount |
| FreeModels.AddingARowGains | open-sse/config/freeModelCatalog.ts:228-235 | exactly: a lone row adds its amount, a pooled one what it has over the largest of its pool |
| FreeModels.KeptIsExact | open-sse/config/freeModelCatalog.ts:252-254 | every enabled row is kept, unless its terms forbid the use and such rows are left out, as often as listed |
| FreeModels.RegimesFeed | open-sse/config/freeModelCatalog.ts:256-285 | by regime, which figures a new row raises, and by what |
| FreeModels.PublishedByRows | open-sse/config/freeModelCatalog.ts:238-285 | a dropped row changes nothing; one outside the pools of the catalog adds exactly its own amount to the figures its regime feeds |
| FreeModels.EmptyCatalog | open-sse/config/freeModelCatalog.ts:238-285 | without rows every total is zero |
| FreeModels.ComputeFreeModelTotals | open-sse/config/freeModelCatalog.ts:238-285 | the four sums over the kept rows |
| FreeModels.OneMoreRow | open-sse/config/freeModelCatalog.ts:252-285 | one more nonnegative row lowers no total, raises each by at most its own amount, and a gated row moves only the gated figure |
| FreeModels.GatedAndSteadyCoverAll | open-sse/config/freeModelCatalog.ts:256-267 | steady plus gated covers the deduplicated steady rows, with equality exactly when no gated and ungated row of one pool are both positive |
| FreeModels.MixedPoolCountsTwice | open-sse/config/freeModelCatalog.ts:256-267 | two rows of one pool for which it exceeds them |
| FreeModels.ExcludingNeverRaises | open-sse/config/freeModelCatalog.ts:252-285 | leaving out rows with forbidding terms never raises a total |
| ClientBetas.TokensOfJoin | open-sse/config/anthropicHeaders.ts:96-120 | printing a token list and splitting it again is the identity |
| ClientBetas.TokensConcat | open-sse/config/anthropicHeaders.ts:96-99 | the tokens of two lists joined by a comma are those of each |
| ClientBetas.TokensOfPiece | open-sse/config/anthropicHeaders.ts:96-99 | white space around a token is trimmed away; white space alone gives no token |
| ClientBetas.MergeClientAnthropicBeta | open-sse/config/anthropicHeaders.ts:90-121 | the loop with its growing set computes the merge, blank and missing client values included |
| ClientBetas.MergeIsExact | open-sse/config/anthropicHeaders.ts:110-119 | the base is a prefix; only allowed, new client tokens follow, none twice; no allowed one is missing |
| ClientBetas.MergedBetas | open-sse/config/anthropicHeaders.ts:90-121 | what is sent: the base's tokens, then the client's on the allow list that are new, in the order and spelling of their first place, long context only if the model takes it or none is named; one comma between them |
| ClientBetas.MergeTwice | open-sse/config/anthropicHeaders.ts:90-121 | merging the same client value again changes nothing |
| ClientBetas.MergeOneByOne | open-sse/config/anthropicHeaders.ts:90-121 | merging two values in turn equals merging them joined by a comma |
| ClientBetas.LongContextOnlyFromBase | open-sse/config/anthropicHeaders.ts:102-119 | for a rejected model, long context is in the result exactly when the base had it |
| HeaderOrder.OrderFieldsLoop | open-sse/config/cliFingerprints.ts:206-226 | the loops with their shrinking set compute listed fields, then the rest |
| HeaderOrder.OrderKeepsTheMapping | open-sse/config/cliFingerprints.ts:206-226 | every key keeps its value |
| HeaderOrder.OrderKeepsUniqueKeys | open-sse/config/cliFingerprints.ts:206-226 | no key is listed twice |
| HeaderOrder.ListedInOrder | open-sse/config/cliFingerprints.ts:212-218 | the listed part follows the order list |
| HeaderOrder.ListedFieldsFirst | open-sse/config/cliFingerprints.ts:206-226 | listed fields come first, in list order, then the others as they were |
| HeaderOrder.OrderTwice | open-sse/config/cliFingerprints.ts:206-226 | ordering fields twice is ordering them once |
| HeaderOrder.OrderHeadersLoop | open-sse/config/cliFingerprints.ts:232-262 | the three loops compute the folded map, ordered |
| HeaderOrder.OneHeaderPerName | open-sse/config/cliFingerprints.ts:232-259 | one header per name ignoring case, exactly unless an empty order meets case variants; it is the last one written under that name, and no name is lost |
| HeaderOrder.EmptyOrderKeepsCaseVariants | open-sse/config/cliFingerprints.ts:236 | two spellings of a header that both stay |
| HeaderOrder.ListedThenFirstSeen | open-sse/config/cliFingerprints.ts:232-259 | listed names in list order, then the others in first-seen order, under the same condition |
| HeaderOrder.OrderHeadersTwice | open-sse/config/cliFingerprints.ts:232-262 | reordering headers twice is reordering them once |
| HeaderOrder.Body.StripInternalFields | open-sse/config/cliFingerprints.ts:293-306 | the two deletion loops remove the internal keys in place |
| HeaderOrder.StripRemovesExactlyInternal | open-sse/config/cliFingerprints.ts:268-306 | exactly the internal keys go, every other key keeps its value |
| HeaderOrder.StripKeepsTheOrder | open-sse/config/cliFingerprints.ts:293-306 | the keys left come in the order they had |
| HeaderOrder.StripCommutesWithOrder | open-sse/config/cliFingerprints.ts:206-306 | stripping and ordering can be done in either order |
| ToolSchema.StripEnumDescriptions | open-sse/config/toolCloaking.ts:15-30 | the recursion with its local record computes the stripped tree |
| ToolSchema.StripCleans | open-sse/config/toolCloaking.ts:15-30 | no banned key is left at any depth |
| ToolSchema.StripIsIdentityExactlyWhenClean | open-sse/config/toolCloaking.ts:15-30 | stripping changes nothing exactly on clean trees, and is idempotent |
| ToolSchema.PathsAreKept | open-sse/config/toolCloaking.ts:15-30 | every path not through the banned key leads where it did, and no new path appears |
| ToolSchema.NoPathThroughTheKey | open-sse/config/toolCloaking.ts:15-30 | no path through the banned key leads anywhere |
| ToolSchema.SanitizeAntigravityToolPayload | open-sse/config/toolCloaking.ts:39-85 | the flagged loops return the sanitised payload, changed or not |
| ToolSchema.PayloadKeepsEverythingElse | open-sse/config/toolCloaking.ts:39-85 | only the tool list of the request changes; tools keep number and order |
| ToolSchema.PayloadPaths | open-sse/config/toolCloaking.ts:39-85 | for every path from the body: inside the parameters of the request's declarations the banned key is gone and all else is there; outside them nothing differs |
| ToolSchema.ToolKeepsItsDeclarations | open-sse/config/toolCloaking.ts:46-72 | non-function tools are untouched; declarations keep number and order |
| ToolSchema.DeclarationKeepsItsName | open-sse/config/toolCloaking.ts:53-64 | a declaration keeps every field but its parameters, which come out clean |
| ContextEditing.SortByRank | open-sse/config/contextEditing.ts:73-77 | a stable sort by rank |
| ContextEditing.StableSortIsPartition | open-sse/config/contextEditing.ts:71-77 | any stable sort by that rank is the plain partition |
| ContextEditing.MessagesBody.ApplyContextEditing | open-sse/config/contextEditing.ts:48-82 | the in-place writer yields the specified body |
| ContextEditing.EditsAreTheStablePartition | open-sse/config/contextEditing.ts:59-81 | thinking edits, the others, then the new one; unchanged if one was there; none lost |
| ContextEditing.AppliedByFields | open-sse/config/contextEditing.ts:48-82 | field by field: other body fields and other keys of context_management stay; the list sent is the incoming one, or its thinking edits, its others and the new edit |
| ContextEditing.OtherwiseUntouched | open-sse/config/contextEditing.ts:52-57 | a call that is not enabled, or meets an array, leaves the body as it is |
| ContextEditing.ToolUseEditIsSent | open-sse/config/contextEditing.ts:54-81 | an enabled call sends a tool-use edit exactly when context_management is not an array |
| ContextEditing.ArrayManagementSendsNoEdit | open-sse/config/contextEditing.ts:54-81 | an empty array for which none is sent |
| ContextEditing.ApplyTwice | open-sse/config/contextEditing.ts:48-82 | applying twice is applying once |
| ErrorRules.OperatorRules.SetOperatorProviderErrorRules | open-sse/config/providerErrorRules.ts:78-88 | the live rules are those of this call alone |
| ErrorRules.TableKeepsTheLast | open-sse/config/providerErrorRules.ts:83-87 | a provider is live exactly when given a non-empty list under any casing, and the last such list counts |
| ErrorRules.OperatorRules.GetProviderErrorRuleMatch | open-sse/config/providerErrorRules.ts:434-482 | the early-return loops compute the operator's match, else the catalog's |
| ErrorRules.FirstOperatorIsTheFirst | open-sse/config/providerErrorRules.ts:452-460 | the first applicable rule is returned, and none exactly when none applies |
| ErrorRules.OperatorRuleDecides | open-sse/config/providerErrorRules.ts:413-461 | with live rules and an error text, the first matching rule decides whatever else is there |
| ErrorRules.CatalogDecidesOtherwise | open-sse/config/providerErrorRules.ts:413-482 | with none matching, the catalog decides and sees the full error text |
| ErrorRules.FirstHitAnswers | open-sse/config/providerErrorRules.ts:434-461 | for any provider and body: the first operator rule with the status and a matching text answers, whatever the catalog says |
| ErrorRules.CatalogAnswers | open-sse/config/providerErrorRules.ts:463-482 | otherwise the first catalog rule with an answer decides, seeing every header under its folded name; nothing without one or without a provider |
| ErrorRules.LiveWhenGiven | open-sse/config/providerErrorRules.ts:401-405 | rules are live exactly for the providers the settings give a non-empty list, under any casing |
| ErrorRules.RuleBodyIs | open-sse/config/providerErrorRules.ts:413-426 | which providers' rules see the full error text |
| ResetCountdown.MatchAtIsComplete | open-sse/config/providerErrorRules.ts:502-504 | greedy matching takes every phrase of the pattern |
| ResetCountdown.MatchAtIsSound | open-sse/config/providerErrorRules.ts:502-504 | whatever is taken is a phrase of the pattern ending at a boundary |
| ResetCountdown.EveryPhraseIsRead | open-sse/config/providerErrorRules.ts:500-525 | any phrase with no earlier "reset" reads as its number of units, or nothing for zero |
| ResetCountdown.FirstPhraseIsRead | open-sse/config/providerErrorRules.ts:500-525 | in any text the first phrase is the one read, a lone "reset" before it or not |
| ResetCountdown.NoPhraseNoCountdown | open-sse/config/providerErrorRules.ts:500-505 | a text without a phrase reads as nothing |
| ResetCountdown.CountdownInWords | open-sse/config/providerErrorRules.ts:505-524 | each word, singular and plural, reads as the length of its unit |
| ResetCountdown.PrintedCountdownReadsBack | open-sse/config/providerErrorRules.ts:500-525 | printing a positive countdown and reading it gives the milliseconds |
| ResetCountdown.ReadsWholeSeconds | open-sse/config/providerErrorRules.ts:505-524 | in integer arithmetic, on every text the result is nothing or a positive multiple of 1000 |
| ResetCountdown.DoublesReadTheSame | open-sse/config/providerErrorRules.ts:505-524 | with count and product rounded to doubles the parser gives the same, up to 2 to the power of 53 milliseconds |
| ResetCountdown.ReadingIsSound | open-sse/config/providerErrorRules.ts:500-525 | a match found in a text is a phrase standing in it |
| MediaRegistry.IndexRefinesScan | open-sse/config/registryUtils.ts:31-46 | the first-wins index answers every name as the first-match scan |
| MediaRegistry.ModelIndexCache.GetRegistryModelIndex | open-sse/config/registryUtils.ts:32-46 | cached or built, the index is the registry's, and only its entry is added |
| MediaRegistry.ModelIndexCache.ParseModelFromRegistry | open-sse/config/registryUtils.ts:52-76 | after any earlier calls, the answer is the one with a linear scan in place of the index |
| MediaRegistry.GetAllModelsFromRegistry | open-sse/config/registryUtils.ts:82-107 | the nested loops push every model under name and alias, in order |
| MediaRegistry.ListedIdsParseBack | open-sse/config/registryUtils.ts:52-107 | every listed id parses back to its provider and model when prefixes are slash-free and distinct |
| MediaRegistry.EveryModelIsListed | open-sse/config/registryUtils.ts:82-107 | each model is listed under id and alias, whichever are not empty |
| MediaRegistry.ClaimedNamesParse | open-sse/config/registryUtils.ts:58-67 | the first provider whose id or alias starts the name takes it, listed or not |
| MediaRegistry.BareNamesParse | open-sse/config/registryUtils.ts:69-76 | any other name belongs to the first provider that lists it, or to none |
| ProviderIds.GetAllModels | open-sse/config/embeddingRegistry.ts:683-701 | the loops list every model of every provider under its scoped id |
| ProviderIds.EveryModelIsListed | open-sse/config/rerankRegistry.ts:208-219 | no model of any provider is left out |
| ProviderIds.ModelAliasesAre | open-sse/config/embeddingRegistry.ts:476-486 | the first alias that is the text, or its last segment, replaces it |
| ProviderIds.NormalizeIs | open-sse/config/embeddingRegistry.ts:492-503 | a model id as listed, else scoped as listed, else less one scope |
| ProviderIds.BareNames | open-sse/config/rerankRegistry.ts:196-203 | in both registries a name without a slash belongs to the first provider that lists it, or to none |
| ProviderIds.EmbeddingByParts | open-sse/config/embeddingRegistry.ts:524-562 | who takes a text with a first segment: dynamic, registered, slashed ids, or the segment itself |
| ProviderIds.RerankByParts | open-sse/config/rerankRegistry.ts:170-203 | the same for rerank, where an unknown provider leaves a bare name |
| ProviderIds.NormalizeUndoesScoping | open-sse/config/embeddingRegistry.ts:492-507 | normalising the rest of a printed id restores the model id exactly when it is not listed both ways |
| ProviderIds.EmbeddingMeaning | open-sse/config/embeddingRegistry.ts:476-621 | for all aliases and dynamic providers, which texts parse to a listed model |
| ProviderIds.EmbeddingRoundTrip | open-sse/config/embeddingRegistry.ts:476-621 | a printed embedding id parses back exactly when what the model aliases make of it is such a text; if they leave it alone, when it is not listed both ways or, under a dynamic provider of the same name, when it needed scoping |
| ProviderIds.ListedBothWaysIsLost | open-sse/config/embeddingRegistry.ts:492-507 | a registry that lists a model both ways, on which neither round trip holds |
| ProviderIds.RerankRoundTrip | open-sse/config/rerankRegistry.ts:142-203 | the same for rerank models |
| ProviderIds.CatalogParsesBack | open-sse/config/rerankRegistry.ts:170-219 | every catalog entry of an unambiguous registry parses back |

## Left out

- Literal provider, model, price and quota rows: the registries and catalogs are arbitrary tables.
- Integer-like keys, which JavaScript moves to the front of an object, and names of `Object.prototype`.
- Lone surrogates and UTF-16 lengths: characters are Unicode scalar values.
- A registry changed after its index is cached: registries are static objects here, as the source documents.
- The `extra` callback of `getAllModelsFromRegistry`, whose fields could overwrite an entry's id or provider.
- ResetCountdown.ReadsWholeSeconds: speaks of integer arithmetic. Past 2 to the power of 53 a double
  rounds (9007199254740994 seconds read as no multiple of 1000), may come out infinite, or, when the
  count itself is infinite, reads as null.
- Appending `beta=true` with `URL` to a joined GLM address, and the region and transport selectors around it.
- Provider lists, boosts, pool counts, the row order and the headline text of the free-model totals: filters and formatting.
- `normalizeAnthropicHeaderVariants`, `mergeCcHeaders`, CLI-compat toggles and context-editing telemetry: easy members.
- Identity of objects returned unchanged (the `changed` flags): the values are compared, not the references.
- `withCodexFingerprintCredentials`, the copying of passed-through headers into a request, and the compact-endpoint test, which is a flag of the credentials here.
- The individual built-in error rules: the catalog is an arbitrary ordered list of partial functions.
