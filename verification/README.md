# Verified model of the proxy's core state and codecs

The proxy routes requests of AI clients to several providers. This project models, in Dafny, the parts
of it whose correctness is an argument over many functions or over whole runs, and proves that argument.
The seven parts share nothing but small helper modules (`Common`, `Strings`, `Json`).

1. **Model registry** (`RegistryState`, `RegistrySpec`, `RegistryRuns`, `RegistryEffects`, `RegistryScan`,
   `RegistryOffers`, `Registry`).
   Clients register lists of models; the registry counts listings per model and provider, keeps quota and
   suspension marks, and caches what it lists. Registering a known client does not rebuild anything but
   takes five passes over differences of multisets. `RegistryState` follows one model through the passes,
   `RegistrySpec` the whole tables, `RegistryRuns` runs of all operations with a clock; `RegistryEffects` and
   `RegistryOffers` say what operations change and what is listed in terms of requests, listings and marks
   alone; and `Registry` is the object itself, whose loops over Go maps pick elements in any order.
2. **Signatures** (`Base64`, `ProtoWire`, `ProtoForms`, `Encodings`, `Recognisers`, `NormalForms`,
   `Compatibility`, `SignatureForms`, `SignatureTexts`, `SignatureWalks`, `ClaudeHistory`,
   `ClaudeHistoryProofs`, `ClaudeHistoryTheorems`, `ClaudeHistoryKeeps`, `ClaudeSanitizer`, `GeminiRequest`,
   `GeminiKeeps`, `FunctionCallPairing`). Reasoning signatures of three providers are recognised through
   base64 and a protobuf walk, normalised, and rewritten or dropped throughout message histories. The `Forms`
   and `Texts` modules build such signatures from bytes and fields and show which are recognised; the `Keeps`
   modules say, with every name written out, what a history keeps.
3. **YAML merge** (`YamlMerge`, `YamlMergeProofs`, `YamlRewrite`, `YamlSettled`, `YamlValues`, `YamlMatches`,
   `YamlMerger`). A configuration is written into the file the user edited without disturbing it;
   `YamlValues` and `YamlMatches` say by literal tags and values which settings are written, and where.
4. **Usage queue** (`UsageFifo`, `UsageSubscribers`, `UsageHub`). A head-indexed buffer with expiry that
   refines a first-in first-out queue, and subscribers with bounded channels whose closing happens after
   the lock is released, as steps that interleave.
5. **RESP codec** (`RespCodec`, `RespWire`, `RespReader`). The subset of the Redis serialization protocol (sections
   "Arrays" and "Bulk strings" of its specification) that the proxy writes and reads.
6. **Thinking validation** (`Thinking`, `ThinkingConfig`, `ThinkingValidator`). Levels and budgets for
   reasoning effort, converted and clamped to what a model declares.
7. **Home failover and replay cache** (`ClusterNodes`, `HomeFailover`, `HomeSubscriber`, `HomeClient`,
   `ReplayCache`, `ReplayStore`). Two small state machines with invariants over every run.

In each part, values and pure code are datatypes and functions; code that works step by step is a class or
a method with loops, proved equal to a function, and the theorems are lemmas about that function. The clock
is always a parameter. A locked section is one step; where the program acts after unlocking, that is a step
of its own.

## Where the code falls short of what one would expect of it

Each of these is proved, with the exact condition and a concrete case.

- Re-registering a client is not always the same as unregistering and registering it. It is exactly when
  no *stray mark* is around: somebody else's quota or suspension mark on a model of which the client is
  the only lister (a rebuild loses it, the passes keep it), or the client's own mark on a model it newly
  lists (the passes clear it). Where marks name only listing clients there is none. The counters agree
  with a rebuild in every case (`RegisteredIsRebuild`, `ReconciledCounters`, `ListersMarksSuffice`,
  `StrayMarkExample`).
- The native E-form of a Claude signature is idempotent exactly when the signature is not an R-form whose
  decoded bytes end in a line break. Go's base64 decoder skips line breaks, so such an inner text is valid,
  and only the second normalisation trims it. Sanitising a history is therefore idempotent exactly when no
  part that is to be kept carries such a signature for Claude; a third pass never changes anything
  (`EFormIdempotent`, `SanitizeTwice`, `UnsettledExample`, `UnsettledHistory`).
- Converting to the R-form and back works exactly when the signature is in R-form already, or its length
  grown by a third stays within 32 MiB (`RFormRoundTrip`, `OverlongExample`).
- A sanitised Gemini request passes validation exactly when signatures, thoughts and calls were well
  placed: sanitising leaves the turns of other roles alone (`SanitizedRequest`, `MisplacedCallExample`).
- Writing the same configuration a second time does not always leave the file alone. It does exactly when
  every list element is found again among those the first writing left. A list that is new to the file is
  written without what is a default in its elements, and an element that was told from others by such a
  default is not recognised afterwards. Where list elements have a name under one of the identity keys, it
  never happens (`MergeTwice`, `NamedSettle`, `NamelessExample`).
- Expired usage records are dropped from the front of the queue only. That is filtering them out exactly
  when none lies behind an unexpired one; two threads that read the clock before they lock can bring this
  about (`PrunedIsFilter`, `LateStampExample`).
- Validating a thinking configuration yields something the model takes as it stands, exactly when none of
  three cases applies: automatic thinking is asked for and not allowed, and the level "medium" is not listed
  or the middle of the range is 0 and thinking cannot be switched off; a negative budget does not meet a
  positive minimum; or "auto" is not in lower case and the model has budgets only. (The type documents
  budgets as positive, `internal/thinking/types.go:68`, but the parsers pass on negative ones and levels in
  any case, `internal/thinking/apply.go:453`, `:495` and `:513`.) Validating again changes
  nothing exactly when the first does not apply, no negative budget was clamped to 0, and no such "auto"
  meets a strict range (`ValidatedSound`, `ValidatedTwice`, `MediumNotListedExample`,
  `NegativeBudgetExample`, `CapitalAutoExample`).
- The level "max" comes back from its budget as "xhigh", and every other level as itself
  (`LevelOverBudget`).
- Failover tries candidates from the front each time, so until new nodes are reported it alternates between
  the first valid address and the first one elsewhere, and reaches exactly these (`FailoverAlternates`,
  `FailoverVisits`, `ThirdNodeExample`).
- The replay cache may evict a new entry at once. On an overflow it is certain to keep it exactly when at
  least 128 other entries carry earlier stamps, as they do while the clock moves between calls (`StoredSurvivesIff`,
  `StoreOverflows`, `TieExample`).

## Model

| member | source | states |
|---|---|---|
| RegistryState.ReconciledIsRebuilt | internal/registry/model_registry.go:318-421 | On one model, for any old and new multiplicity and any change of provider, the five passes of a re-registration leave exactly what removing the client and adding it afresh leaves, if and only if no stray mark is involved |
| RegistryState.ReconciledCounters | internal/registry/model_registry.go:318-421 | Stray marks or not, the passes leave the count, the provider counters and the descriptions of a rebuild |
| RegistryState.ReconciledOverlap | internal/registry/model_registry.go:318-421 | A model listed before and after keeps its registration: the old listings are subtracted and the new ones added |
| RegistryState.ReconciledFresh | internal/registry/model_registry.go:366-421 | A newly listed model gains its listings and loses the marks of the client |
| RegistryState.RemoveTimesIs | internal/registry/model_registry.go:491-524 | Closed form of removing a model repeatedly: counters go down together and the registration goes at zero |
| RegistryState.AddTimesIs | internal/registry/model_registry.go:450-489 | Closed form of adding a model repeatedly |
| RegistrySpec.RegisteredIsRebuild | internal/registry/model_registry.go:235-448 | For a whole registry whose counters are right, registering a client equals unregistering it and registering it afresh, if and only if no model carries a stray mark |
| RegistrySpec.RegisteredCounts | internal/registry/model_registry.go:235-448 | Registering, anew or again, keeps every reference count equal to what the client tables say |
| RegistrySpec.UnregisteredCounts | internal/registry/model_registry.go:583-637 | So does unregistering |
| RegistrySpec.AddedCounts | internal/registry/model_registry.go:274-294 | So does registering a client that lists nothing so far |
| RegistrySpec.TotalPositive | internal/registry/model_registry.go:450-524 | The total number of listings is positive exactly when some client lists the model |
| RegistryEffects.RequestCounts | internal/registry/model_registry.go:243-257 | A client lists a model as often as its request names it, entries without a description or identifier left out |
| RegistryEffects.FirstCounts | internal/registry/model_registry.go:243-257 | Of several descriptions of a model in a request the first counts |
| RegistryEffects.RegisteredDescribes | internal/registry/model_registry.go:235-489 | Whatever the client listed before: afterwards it lists a model as often as the request names it, the model, the client and, under its provider, the registration carry the first description, and the provider of the client is the one of the request |
| RegistryEffects.RegisteredMarks | internal/registry/model_registry.go:384-421 | A client that registers again loses its own quota mark and suspension on the models it lists; all other marks stay |
| RegistryEffects.OthersUntouched | internal/registry/model_registry.go:235-448 | A model that the client listed neither before nor afterwards keeps its registration |
| RegistryEffects.UnregisterForgets | internal/registry/model_registry.go:583-637 | An unregistered client is in no table and on no mark of what it listed; a model stays iff another client lists it |
| RegistryRuns.StepKeepsCounts | internal/registry/model_registry.go:235-728 | Every operation keeps the reference counts right |
| RegistryRuns.CountsAfterAnyRun | internal/registry/model_registry.go:235-728 | After any run, whatever its clock readings, a model is registered iff some client lists it, its count is its number of listings, each provider counter is the number of listings by clients of that provider, and counters and descriptions have the same providers |
| RegistryRuns.MarkLasts | internal/registry/model_registry.go:643-670 | A quota mark counts, and survives cleaning up, exactly until its window has passed; taking it back ends it; other marks are untouched |
| RegistryRuns.SuspensionLasts | internal/registry/model_registry.go:677-728 | A suspension keeps its first reason until it is resumed, which restores the registration |
| RegistryEffects.QuotaMarksOnly | internal/registry/model_registry.go:643-670 | Setting or clearing a quota mark changes nothing but quota marks of that client on that model, and what is cached |
| RegistryEffects.SuspensionsOnly | internal/registry/model_registry.go:677-728 | Suspending or resuming changes nothing but the suspension of that client on that model, and what is cached |
| RegistryEffects.CleaningKeeps | internal/registry/model_registry.go:1219-1238 | Cleaning up drops exactly the quota marks set at least five minutes before and changes nothing else in the registrations |
| RegistryEffects.CleaningCache | internal/registry/model_registry.go:1219-1238 | It drops what is cached iff there was such a mark; listing changes nothing but what is cached |
| RegistryRuns.StepKeepsCache | internal/registry/model_registry.go:235-836 | Every operation, whatever its clock reading, leaves each cached listing equal to the one built for the present registrations at the reading of some listing request |
| RegistryRuns.ListingHolds | internal/registry/model_registry.go:789-836 | From the moment a listing is built to the earliest recovery of a running quota mark the listing does not change |
| RegistryRuns.CleanedListing | internal/registry/model_registry.go:1219-1238 | Cleaning up expired marks never changes what is listed from then on |
| RegistryRuns.AnswerIs | internal/registry/model_registry.go:761-787 | From such a cache a listing request is answered with the listing for its own reading of the clock, or for a later one that an earlier request read |
| RegistryRuns.ListingsWereBuilt | internal/registry/model_registry.go:761-836 | After any run, whatever the clock does, a listing request is answered with what building the listing for its own reading of the clock gives, or for a later one that an earlier request read |
| RegistryRuns.ListingsAreNeverStale | internal/registry/model_registry.go:761-836 | After any run, a listing request that does not read the clock before an earlier listing request did is answered with what building the listing at that reading gives |
| RegistryOffers.ListedIff | internal/registry/model_registry.go:789-836 | A registered model is listed, with its description, iff somebody lists it and either no client is suspended for anything but "quota", however many are cooling or suspended for quota, or it has more listings than clients cooling (a quota mark not five minutes old) or otherwise suspended |
| RegistryOffers.OnOfferAfterAnyRun | internal/registry/model_registry.go:761-836 | After any run, a request not reading the clock before an earlier one lists exactly the models some client lists of which nobody is suspended for anything but quota, or with more listings than clients cooling or otherwise suspended |
| RegistryOffers.ProvidedIff | internal/registry/model_registry.go:932-997 | The same rule for the listing of one provider: listings of its clients, and marks on its clients only |
| RegistryOffers.ProvidedAfterAnyRun | internal/registry/model_registry.go:881-997 | After any run in which identifiers are trimmed, the listing of a provider shows by that rule what its own clients list |
| RegistryOffers.QuotaExample | internal/registry/model_registry.go:827 | A model whose only client is over quota is listed |
| RegistryOffers.FailureExample | internal/registry/model_registry.go:827 | A model whose only client is suspended for any other reason is not |
| RegistryRuns.RegisterAfterAnyRun | internal/registry/model_registry.go:235-448 | After any run re-registration is rebuilding, if and only if no stray mark is around |
| RegistryRuns.ListersMarksSuffice | internal/registry/model_registry.go:235-448 | In particular whenever quota and suspension marks name only clients that list the model |
| RegistryRuns.StrayMarkExample | internal/registry/model_registry.go:643-654 | A run after which re-registration and rebuilding differ: a quota mark names a client that never listed the model |
| RegistryScan.ScanIsCounter | internal/registry/model_registry.go:895-930 | Where identifiers are trimmed, the slow scan of one provider counts for each model what the registration counts for that provider |
| RegistryScan.ScanIsCounters | internal/registry/model_registry.go:895-930 | The same for all models at once |
| RegistryScan.OwnDescription | internal/registry/model_registry.go:895-930 | Where identifiers are trimmed, the scan describes a model by the own description of a client of the provider |
| Registry.ModelRegistry.AddModelRegistration | internal/registry/model_registry.go:450-489 | The slot of the model is that of one more listing; no other model changes, and none at all for an empty identifier |
| Registry.ModelRegistry.RemoveModelRegistration | internal/registry/model_registry.go:491-524 | The slot of the model is that of one listing less; no other model changes |
| Registry.ModelRegistry.ReadRequest | internal/registry/model_registry.go:243-257 | The usable identifiers, the distinct ones, the first description of each, and the multiplicities |
| Registry.ModelRegistry.MoveFromOldProvider | internal/registry/model_registry.go:319-345 | First pass, in any map order: every slot is that of `MovePass` |
| Registry.ModelRegistry.RemoveGone | internal/registry/model_registry.go:347-353 | Second pass, in any order: every slot is that of `GonePass` |
| Registry.ModelRegistry.RemoveSurplus | internal/registry/model_registry.go:355-364 | Third pass, in any map order: every slot is that of `SurplusPass` |
| Registry.ModelRegistry.AddMissing | internal/registry/model_registry.go:366-377 | Fourth pass, in any map order: every slot is that of `MissingPass` |
| Registry.ModelRegistry.RefreshKept | internal/registry/model_registry.go:384-421 | Fifth pass: every slot is that of `RefreshPass` |
| Registry.ModelRegistry.RunPasses | internal/registry/model_registry.go:318-421 | The passes together: every slot is that of `Reconciled` |
| Registry.ModelRegistry.RegisterClient | internal/registry/model_registry.go:235-448 | The new state is the registered one, the counts stay right and the cache built, and without stray marks the state is that of a rebuild |
| Registry.ModelRegistry.UnregisterClientInternal | internal/registry/model_registry.go:583-637 | Everything the client listed is taken out, one listing at a time |
| Registry.ModelRegistry.UnregisterClient | internal/registry/model_registry.go:575-580 | The new state is the unregistered one; the counts stay right and the cache built |
| Registry.ModelRegistry.SetModelQuotaExceeded | internal/registry/model_registry.go:643-654 | Marks a registered model and drops cached listings |
| Registry.ModelRegistry.ClearModelQuotaExceeded | internal/registry/model_registry.go:660-670 | Takes a mark back and drops cached listings |
| Registry.ModelRegistry.SuspendClientModel | internal/registry/model_registry.go:677-703 | Suspends unless already suspended, and drops cached listings then |
| Registry.ModelRegistry.ResumeClientModel | internal/registry/model_registry.go:709-728 | Resumes if suspended, and drops cached listings then |
| Registry.ModelRegistry.CleanupExpiredQuotas | internal/registry/model_registry.go:1219-1238 | Drops exactly the marks that have run out, and cached listings iff some mark went |
| Registry.ModelRegistry.BuildAvailableModels | internal/registry/model_registry.go:789-836 | The listing is the models on offer, and the expiry the earliest end of a running mark, in any map order |
| Registry.ModelRegistry.GetAvailableModels | internal/registry/model_registry.go:761-787 | From the cache or built, the answer is the listing for the reading of this request, or for a later one of an earlier request; the reading is taken before the lock, so readings may come in any order |
| Registry.ModelRegistry.ScanProvider | internal/registry/model_registry.go:895-930 | The scan of one provider counts what `ScanCount` says, in any map order |
| Registry.ModelRegistry.GetAvailableModelsByProvider | internal/registry/model_registry.go:881-997 | Lists exactly the registered models on offer for what the scan of the provider counts (trimmed identifiers of its clients; where all are trimmed already, the counter of the registration: `ScanIsCounters`), each with the own description of a client of that provider that lists it, or the one of the registration where that client has none |
| Base64.DecodeEncode | internal/signature/claude_validation.go:202-261 | Decoding an encoding gives the bytes back (RFC 4648 section 4) |
| Base64.EncodeDecode | internal/signature/claude_validation.go:202-261 | Encoding what was decoded gives the text back if and only if the text is canonical: no line breaks, unused bits zero |
| Base64.FirstByte | internal/signature/claude_validation.go:281-297 | The first decoded byte is fixed by the first two characters |
| ProtoWire.SingleBytesField | internal/signature/gemini_validation.go:424-464 | A message that is one length-delimited field has exactly that field when walked |
| ProtoWire.NoFieldZero | internal/signature/claude_validation.go:484-502 | A message that starts with byte 1 does not walk: field numbers start at one |
| ProtoForms.VarintReads | internal/signature/gemini_validation.go:435-464 | A number written seven bits to a byte reads back iff it fits in 64 bits |
| ProtoForms.PartsSize | internal/signature/claude_validation.go:484-502 | The fields of a written group are read up to its end, unless it ends as a group of another number or groups are nested too deeply |
| ProtoForms.FieldsWritten | internal/signature/claude_validation.go:484-502 | A message written field by field (numbers, bytes, fixed sizes, groups) is walked into exactly these fields, and fails iff groups are nested more than 10001 deep |
| Encodings.Base64Examples | internal/signature/claude_validation.go:202-261 | Examples of section 10 of RFC 4648, and the two characters in which its alphabets differ |
| Encodings.Utf8Exactly | internal/signature/claude_validation.go:384-396 | A byte sequence counts as valid text iff it is a sequence of Unicode scalar values in UTF-8 (section 3 of RFC 3629) |
| SignatureTexts.RawDecodes | internal/signature/gpt_validation.go:61-69 | Text without padding decodes to its bytes without padding only, and text with padding with it only, in both alphabets |
| Recognisers.ClaudeFirst | internal/signature/claude_validation.go:263-297 | A strict Claude signature starts with E or R and decodes to 0x12 or 0x45 |
| Recognisers.GeminiFirst | internal/signature/gemini_validation.go:358-464 | A known Gemini envelope starts with the tag of field 1 or 2, minimally encoded or not |
| Recognisers.EnvelopeIsNotClaude | internal/signature/gemini_validation.go:424-471 | No payload is both a Gemini field-2 envelope and a Claude signature |
| Recognisers.AtMostOne | internal/signature/provider_compatibility.go:79-122 | No text without a provider prefix is accepted by more than one of the strict-Claude, known-envelope-Gemini, GPT and bypass recognisers |
| Compatibility.DetectInAnyOrder | internal/signature/provider_compatibility.go:79-122 | So detection finds the same provider whatever order the recognisers are tried in |
| SignatureForms.RecordsDetected | internal/signature/gemini_validation.go:342-422 | For every list of payloads, its base64 text as records of field 1 is detected as Gemini iff the list is not empty, every payload starts with byte 1, and the text fits 32 MiB |
| SignatureForms.WrappedDetected | internal/signature/gemini_validation.go:342-464 | The base64 text of one payload in field 1 in field 2 is detected as Gemini iff the payload starts with byte 1 and the text fits |
| SignatureTexts.UnpaddedDetected | internal/signature/gemini_validation.go:342-356 | Without padding these texts are detected iff they are with it |
| SignatureTexts.TokenDetected | internal/signature/gpt_validation.go:16-85 | The URL-alphabet base64 text of any bytes, padded or not, is detected as GPT iff they are version 0x80, a time stamp below 2^42, and 57 bytes more than a positive multiple of 16 in all, and the text fits |
| SignatureForms.ContainerDetected | internal/signature/claude_validation.go:281-457 | A container around a channel block, with any other fields beside it, is detected as Claude iff the block has a channel id, numbers in fields 1, 2 and 7 and valid text in field 6, and the text fits |
| SignatureTexts.ClaudeLayers | internal/signature/claude_validation.go:263-299 | A text is a Claude signature, loosely or strictly, iff it fits and has bytes starting with 0x12 (and, strictly, a container) below one base64 layer starting with E or two starting with R and E |
| SignatureTexts.ClaudeBehindHash | internal/signature/claude_validation.go:152-163 | Whatever stands in front of a separator, a Claude signature is what stands behind it |
| SignatureTexts.SentinelDetected | internal/signature/gemini_validation.go:146-155 | A text without a separator is taken for a bypass iff it is one of the two sentinels up to surrounding space |
| SignatureTexts.PrefixDetected | internal/signature/provider_compatibility.go:176-213 | Behind claude, anthropic, gemini, google, openai, gpt or codex, in any case of letters, a text is detected as of that provider iff its recogniser accepts it, and otherwise not at all; behind any other prefix never |
| ClaudeHistoryKeeps.DecisionIs | internal/signature/provider_compatibility.go:134-174 | A signature is replayed iff target and detected provider agree; Gemini replaces others by the sentinel except in thinking and reasoning blocks, which every known target drops |
| ClaudeHistoryKeeps.ReplayedText | internal/signature/provider_compatibility.go:272-294 | What is replayed is, for Gemini and GPT, the text behind the prefix, and for Claude the E-form itself or the inner text of an R-form |
| Compatibility.AcceptedHasNoHash | internal/signature/provider_compatibility.go:176-213 | What the Gemini, GPT and bypass recognisers accept holds no prefix separator |
| Compatibility.PlainNormalizedIsStable | internal/signature/provider_compatibility.go:272-294 | The normalized form of a Gemini or GPT signature is detected as the same provider and normalizes to itself |
| Compatibility.ClaudeNormalizedIsStable | internal/signature/provider_compatibility.go:272-294 | The normalized form of a Claude signature is detected as Claude; normalizing it again only trims line breaks at its end |
| NormalForms.EFormIsSignature | internal/signature/claude_validation.go:232-261 | The E-form of a signature is a single-layer text and, stripped, a signature itself |
| NormalForms.EFormIdempotent | internal/signature/claude_validation.go:232-261 | Taking the E-form twice is taking it once, if and only if the signature is not an R-form whose decoded bytes end in a line break |
| NormalForms.RFormRoundTrip | internal/signature/claude_validation.go:202-261 | Converting to R-form again changes nothing, and converting back gives the E-form, if and only if the signature is an R-form already or an E-form whose length, grown by a third, fits the limit |
| NormalForms.EFormRoundTrip | internal/signature/claude_validation.go:202-261 | R-form to E-form to R-form is the identity if and only if the text is canonical base64 and its decoded bytes do not end in a line break |
| SignatureWalks.UnsettledExample | internal/signature/claude_validation.go:232-261 | A strictly valid signature whose E-form changes when it is taken again |
| SignatureWalks.OverlongExample | internal/signature/claude_validation.go:202-230 | A strictly valid signature below the length limit whose R-form neither conversion accepts |
| SignatureWalks.NextField | internal/signature/claude_validation.go:484-502 | One step of the walk by offset: the next field of the message, or failure exactly where the message is malformed |
| SignatureWalks.ExtractClaudeBytesField | internal/signature/claude_validation.go:459-482 | The offset loop finds the last payload of a field, and fails where any occurrence is of another type or the message is malformed |
| SignatureWalks.InspectClaudeChannelBlock | internal/signature/claude_validation.go:352-457 | The field loop accepts exactly the channel blocks with a channel id and well-typed fields |
| SignatureWalks.InspectGeminiField1Envelope | internal/signature/gemini_validation.go:404-422 | The record loop accepts exactly the non-empty messages of opaque payloads in field 1 |
| ClaudeHistoryProofs.PartTwice | internal/signature/claude_messages_sanitize.go:74-160 | A kept part is of the same type and clean; sanitising it again keeps it, changes it iff it was not settled, and never a third time |
| ClaudeHistoryProofs.SettledIs | internal/signature/provider_compatibility.go:272-294 | A signature is settled, that is, not one of Claude in R-form around a line break meant for Claude, if and only if its normalized form has nothing left to trim |
| ClaudeHistoryProofs.ToolTwice | internal/signature/claude_messages_sanitize.go:198-244 | Sanitising a tool call again changes nothing iff its signatures were settled |
| ClaudeHistoryProofs.StripTwice | internal/signature/claude_messages_sanitize.go:177-196 | A stripped tool call carries no provenance field, and stripping it again changes nothing |
| ClaudeHistoryProofs.TidyIsTidy | internal/signature/claude_messages_sanitize.go:259-269 | No empty provenance object stays behind |
| ClaudeHistoryProofs.PartChanged | internal/signature/claude_messages_sanitize.go:74-160 | A part is flagged as modified if and only if it was rewritten to something else or dropped |
| ClaudeHistoryTheorems.SanitizedIsClean | internal/signature/claude_messages_sanitize.go:58-175 | For every target and option set, every surviving thinking part carries a signature compatible with the target or is a permitted empty placeholder, and every tool call carries only compatible signatures, or none where they are dropped |
| ClaudeHistoryTheorems.SanitizeTwice | internal/signature/claude_messages_sanitize.go:58-175 | Sanitising twice is sanitising once, if and only if no part to be kept carries, for Claude, a Claude signature in R-form whose decoded bytes end in a line break; a third time never changes anything |
| ClaudeHistoryTheorems.HistorySettled | internal/signature/claude_messages_sanitize.go:58-175 | A history of one signed thinking part, as it is received, settles at once if and only if its signature is settled |
| ClaudeHistoryTheorems.UnsettledHistory | internal/signature/claude_messages_sanitize.go:58-175 | For Claude as the target there is a history of one thinking part which sanitising twice changes again |
| ClaudeHistoryTheorems.PlainSurvives | internal/signature/claude_messages_sanitize.go:58-175 | For every payload and option set, the parts that are neither thinking nor tool calls, over all messages, survive unchanged and in order, and the types of all parts but thinking ones do; a message dropped as empty held none |
| ClaudeHistoryKeeps.TargetIs | internal/signature/provider_compatibility.go:46-66 | The target is the one asked for, or that of the model name: claude before gemini before gpt, openai, codex, and o1, o3 or o4 at the start |
| ClaudeHistoryKeeps.StripKeeps | internal/signature/claude_messages_sanitize.go:177-196 | A stripped tool call keeps every value at every path but the five provenance fields (model among them) and the objects these leave empty; the five are gone |
| ClaudeHistoryKeeps.ToolKeeps | internal/signature/claude_messages_sanitize.go:198-244 | A sanitised tool call keeps every value at every path but its four signature fields and the objects these leave empty |
| ClaudeHistoryKeeps.ToolSignature | internal/signature/claude_messages_sanitize.go:198-257 | In each of the four fields a signature is replayed, replaced by the sentinel if Gemini is the target, or gone |
| ClaudeHistoryKeeps.ProvenanceObjects | internal/signature/claude_messages_sanitize.go:259-269 | No empty provenance object is left, and what stands in the place of one and is no object is kept |
| ClaudeHistoryKeeps.ThinkingKeeps | internal/signature/claude_messages_sanitize.go:115-160 | A thinking part survives iff its signature is replayed or it is a permitted placeholder; then all of it is kept but the signature, and of a placeholder all |
| ClaudeHistoryKeeps.PlaceholderIs | internal/signature/claude_messages_sanitize.go:119-122 | A thinking part is an empty placeholder iff its signature and its text are blank, wherever the text is |
| ClaudeHistoryKeeps.HistoryKeeps | internal/signature/claude_messages_sanitize.go:58-175 | Of every history, for every target and option set, exactly the parts that survive are left, message by message and in order, each with everything it held but its signatures: a tool call keeps its id, name, input and whatever else it has |
| ClaudeHistoryKeeps.ReportMeans | internal/signature/claude_messages_sanitize.go:58-175 | The report counts as preserved and as replaced the decisions to do so, as dropped blocks the parts that do not survive, and where provenance is stripped as dropped signatures the tool calls this changes |
| ClaudeHistoryTheorems.FrameSurvives | internal/signature/claude_messages_sanitize.go:58-175 | Exactly the messages that have parts of which none is kept are dropped, where that is asked for; the others stay in order and differ in their list of contents only; nothing beside the messages changes |
| ClaudeHistoryTheorems.PayloadChanged | internal/signature/claude_messages_sanitize.go:58-175 | The payload is rewritten if and only if some part of some message counts as changed, and then it does differ |
| ClaudeHistoryTheorems.CountersAddUp | internal/signature/claude_messages_sanitize.go:58-175 | Without dropping tool signatures wholesale the four counters sum to the number of decisions |
| ClaudeSanitizer.StripClaudeToolUseSignatureFields | internal/signature/claude_messages_sanitize.go:177-196 | The loop yields the stripped part, and the flag exactly when something went; no provenance field is left |
| ClaudeSanitizer.SanitizeClaudeToolUseSignature | internal/signature/claude_messages_sanitize.go:198-244 | The loop over four places yields the sanitised part, the flag and the decisions |
| ClaudeSanitizer.CountDecisions | internal/signature/claude_messages_sanitize.go:97-108 | The counters raised for a tool call, which sum to its decisions |
| ClaudeSanitizer.SanitizeParts | internal/signature/claude_messages_sanitize.go:73-160 | The inner loop yields the kept parts, the flag and the report of one message |
| ClaudeSanitizer.SanitizeMessages | internal/signature/claude_messages_sanitize.go:66-170 | The outer loop yields the kept messages, the flag and the report |
| ClaudeSanitizer.SanitizeClaudeMessagesSignaturesForTarget | internal/signature/claude_messages_sanitize.go:58-175 | The whole run yields the sanitised payload and its report; the output is clean and the counters add up |
| GeminiRequest.ReplayIsOk | internal/signature/gemini_sanitize.go:15-24 | The replay signature is always one that validation accepts, and replaying it gives it again |
| GeminiRequest.PartSanitized | internal/signature/gemini_sanitize.go:30-91 | A sanitised part is valid iff the original was well placed, carries no signature if it is a response, and is stable |
| GeminiRequest.SanitizedRequest | internal/signature/gemini_sanitize.go:30-91 | A sanitised request passes validation if and only if its signatures were well placed; no response keeps a signature; sanitising again changes nothing |
| GeminiRequest.ModelTurnsSuffice | internal/signature/gemini_validation.go:210-248 | Signatures and calls in model turns only, with no call beside a response, are enough for the sanitised request to pass |
| GeminiKeeps.PartKeeps | internal/signature/gemini_sanitize.go:30-91 | Nothing beside the seven places of a signature changes in a part; a response carries none afterwards, and a part of a model turn that is a call, a thought or signed carries one, in one place: the first it had if Gemini replays that, else the sentinel |
| GeminiKeeps.RequestKeeps | internal/signature/gemini_sanitize.go:30-91 | The same for every part of every turn of a request, and everything beside the contents stays |
| GeminiKeeps.PartOkIs | internal/signature/gemini_validation.go:210-248 | A part passes validation iff it is no call and unsigned, or its signature is, without a prefix, a sentinel or detected as Gemini |
| GeminiRequest.MisplacedCallExample | internal/signature/gemini_sanitize.go:30-91 | A call without a signature in a turn of the user is left alone, and the sanitised request fails validation |
| GeminiRequest.SanitizeGeminiRequestThoughtSignatures | internal/signature/gemini_sanitize.go:30-91 | The nested loops yield the sanitised request |
| GeminiRequest.ValidateGeminiThoughtSignatures | internal/signature/gemini_validation.go:210-248 | The nested loops accept exactly the valid requests |
| FunctionCallPairing.PrefixAccepted | internal/signature/gemini_validation.go:255-340 | Every prefix of an accepted history is accepted |
| FunctionCallPairing.AcceptedNext | internal/signature/gemini_validation.go:255-340 | Which contents may follow an accepted history: any without calls or responses, a call group when nothing is pending, and an answering response group of equal size with matching ids and names when calls are |
| FunctionCallPairing.NextIs | internal/signature/gemini_validation.go:255-340 | The rule in full: nothing, named calls when none are pending, or one response for each pending call, in order, of its name and, where it has one, its identifier |
| FunctionCallPairing.PendingNext | internal/signature/gemini_validation.go:255-340 | What is pending then: the calls of the content, nothing behind responses, and else what was pending before |
| FunctionCallPairing.TurnIs | internal/signature/gemini_validation.go:268-291 | The calls and responses of a content, in the order of its parts, each with its identifier and name |
| FunctionCallPairing.AcceptedStep | internal/signature/gemini_validation.go:255-340 | The pending calls alone decide about the next content |
| FunctionCallPairing.Rejected | internal/signature/gemini_validation.go:255-340 | A history that fails fails with anything appended |
| FunctionCallPairing.ValidateGeminiFunctionCallPairing | internal/signature/gemini_validation.go:255-340 | The loop over `pending`, `calls` and `responses` accepts exactly the histories whose groups alternate and answer each other, with possibly one pending call group at the end |
| YamlMergeProofs.MergeCovers | internal/config/config.go:1241-1343 | After merging, every source key is in the destination with a recursively covered value, or its pruned value is zero or a known default; sequences agree element by element, except that an explicit null stays for an empty one |
| YamlMergeProofs.MergeKeepsLayout | internal/config/config.go:1241-1275 | Along mappings the old keys stay in place and order, and keys only the old file has keep their exact value |
| YamlMergeProofs.MergedEntries | internal/config/config.go:1241-1275 | Exactly: old entries in place, each merged with the source entry of its key or untouched, then the pruned additions in source order |
| YamlValues.NewScalarWritten | internal/config/config.go:1241-1275 | A scalar under a key the file lacks is added as it is, iff it is not false, 0, 0.0, the empty string, null, or one of four values at their paths |
| YamlValues.NewKeyWritten | internal/config/config.go:1241-1275 | Any key of the source that the file lacks is added with its pruned value iff the source says something under it: some scalar in it is none of these |
| YamlValues.DefaultIsSilent | internal/config/config.go:1373-1490 | A node counts as a default after pruning iff it says nothing in this sense |
| YamlValues.SaidIsKept | internal/config/config.go:1411-1445 | Pruning a new mapping keeps every entry under which something is said |
| YamlMatches.PrunedIsLean | internal/config/config.go:1411-1445 | Pruning leaves, at every level, no key with a blank or known scalar or an empty collection behind it |
| YamlValues.DottedIs | internal/config/config.go:1373-1409 | A path is its keys with dots between them |
| YamlMergeProofs.MergedSequenceForgets | internal/config/config.go:1291-1325 | A mapping in a merged sequence has only keys of the source element at its place |
| YamlMergeProofs.MatchingInjective | internal/config/config.go:1527-1590 | Sequence matching uses each original element at most once |
| YamlMergeProofs.MatchPrefersIdentity | internal/config/config.go:1549-1590 | An unused element of the same identity is preferred over one of the same structure, and no match means there is neither |
| YamlMatches.LooksAlike | internal/config/config.go:1493-1525 | Two nodes look alike iff they are equal without tags and surrounding space |
| YamlMatches.MatchIs | internal/config/config.go:1549-1590 | A mapping that is known by something is merged into the first unused one known by the same; anything else into the first unused element that looks alike; without such it is copied |
| YamlValues.KnownByName | internal/config/config.go:1592-1625 | An element is known by its first text under the first of nine naming keys it has |
| YamlValues.KnownByFirst | internal/config/config.go:1592-1625 | Without such a key it is known by its first text that is not blank |
| YamlMergeProofs.PrunedCovers | internal/config/config.go:1411-1445 | What pruning drops from a new node is zero or a known default |
| YamlMergeProofs.PruneMissingCovers | internal/config/config.go:1729-1758 | Pruning away what the source does not mention keeps the source covered |
| YamlMatches.StaysIff | internal/config/config.go:1729-1758 | In a merged list element exactly the entries stay, in order, whose key the source element has, spaces around keys aside; blank keys never |
| YamlMergeProofs.PrunedZero | internal/config/config.go:1411-1490 | Pruning a zero node leaves a zero node |
| YamlMergeProofs.CoversItself | internal/config/config.go:1493-1525 | A copied node covers the node it was copied from |
| YamlRewrite.MergeForgets | internal/config/config.go:1291-1325 | After merging, no mapping in a list at any depth has keys that its source element has not |
| YamlRewrite.MergeLeaves | internal/config/config.go:1241-1343 | Writing leaves any file alone if and only if the file covers the source and every list element is found again |
| YamlRewrite.MergeTwice | internal/config/config.go:1241-1343 | Writing the same configuration again leaves the file alone if and only if every list element is found again: at its own place and so on inside it, or replaced by an equal one |
| YamlRewrite.IdentitiesSuffice | internal/config/config.go:1241-1343 | A second writing leaves the file alone where the first left each list element equal to its source or with its identity |
| YamlRewrite.MergeSelf | internal/config/config.go:1241-1343 | Writing a configuration into a file that holds it leaves the file alone |
| YamlSettled.ElementKept | internal/config/config.go:1592-1625 | A merged element keeps the identity of its source element where that has a name, whatever the order of its keys and whichever defaults were left out |
| YamlSettled.NamedSettle | internal/config/config.go:1241-1343 | For every file: where each element of a list is a scalar or a mapping with a text under an identity key that is not a default (keys trimmed, and in a list element different in more than case), writing a configuration a second time leaves the file alone |
| YamlSettled.NamelessExample | internal/config/config.go:1241-1343 | A list element without a name, whose first entry is a default, is written without it, not recognised, and written in full the second time |
| YamlMerger.MatchSequenceElement | internal/config/config.go:1549-1590 | The two passes over the flags find the match of `MatchElement` |
| YamlMerger.ReorderSequence | internal/config/config.go:1527-1547 | The loop yields the matching, and uses no element twice |
| YamlMerger.PruneMissingMapKeys | internal/config/config.go:1729-1758 | Deleting entries one at a time keeps exactly the wanted ones, in order |
| YamlMerger.PruneKnownDefaults | internal/config/config.go:1411-1445 | The loop yields the pruned node |
| YamlMerger.MergeMappingPreserve | internal/config/config.go:1241-1275 | The loop over the source keys yields the merged entries |
| YamlMerger.MergeNodePreserve | internal/config/config.go:1280-1343 | The recursion yields the merged node, which covers the source and keeps the layout |
| UsageFifo.PrunedIsFilter | internal/redisqueue/queue.go:207-222 | Dropping from the front is filtering out what is older than the window, if and only if no expired record lies behind one that is not |
| UsageFifo.ForwardRunFilters | internal/redisqueue/queue.go:110-222 | In a run whose clock readings do not go back there is no such record: stamps stay in order, and pruning is filtering at every cutoff |
| UsageFifo.LateStampExample | internal/redisqueue/queue.go:110-222 | After two enqueueings of which the second read the clock first, as two threads that read it before locking can do, the second record outlives its window |
| UsageFifo.PoppedIs | internal/redisqueue/queue.go:180-205 | Popping hands out the records at the front in the order they came, skips only expired ones before the first unexpired one, and falls short only when the queue is left empty |
| UsageFifo.PoppedFilters | internal/redisqueue/queue.go:180-205 | Where no expired record lies behind one that is not, popping hands out the oldest unexpired ones and leaves the other unexpired ones |
| UsageFifo.FirstInFirstOut | internal/redisqueue/queue.go:110-205 | Over any run, whatever the clock does, records leave in the order they came, none twice, and one that is passed over had expired |
| UsageFifo.Retention | internal/redisqueue/queue.go:52-60 | A positive window is stored as it is up to an hour and as an hour beyond; any other value stores the default of 60 seconds |
| UsageFifo.ExpiredAfterWindow | internal/redisqueue/queue.go:207-222 | A record has expired once more than the window of seconds has passed since its stamp |
| UsageFifo.UsageQueue.Enqueue | internal/redisqueue/queue.go:110-122 | On `items[head..]`: drop the expired from the front, then append, which is filtering where no expired record lies behind another; `head` is 0 or below 1024 and below half the buffer |
| UsageFifo.UsageQueue.PopOldest | internal/redisqueue/queue.go:180-205 | On `items[head..]`: drop the expired from the front, then take the oldest, which are the oldest unexpired ones where no expired record lies behind another; the same bound on `head` |
| UsageFifo.UsageQueue.PruneLocked | internal/redisqueue/queue.go:207-222 | Advancing `head` is pruning the queue |
| UsageFifo.UsageQueue.MaybeCompactLocked | internal/redisqueue/queue.go:224-238 | Compaction leaves the contents alone and restores the bound on `head` |
| UsageSubscribers.StepOpen | internal/redisqueue/queue.go:93-178 | No step sends to a closed channel or closes one |
| UsageSubscribers.StepKeeps | internal/redisqueue/queue.go:93-178 | Ownership of channels, openness, gap-free streams and the one place of each call survive every step of every thread |
| UsageSubscribers.StepConserved | internal/redisqueue/queue.go:62-205 | No step loses a call or puts it in two places |
| UsageSubscribers.SafeInEveryRun | internal/redisqueue/queue.go:62-205 | In every interleaving: no channel is closed twice or sent to after closing; each stream is the support notice and an unbroken run of the publications since joining, complete while subscribed; each publishing call is in exactly one place: published, on its way to the backlog, in it, out of it at the front, cleared, or a refresh nobody was there for |
| UsageSubscribers.StepsPossible | internal/redisqueue/queue.go:62-205 | In reachable states every step is possible that has something to work on: joining, enqueueing, closing and receiving never wait for anything else |
| UsageSubscribers.StepAccounted | internal/redisqueue/queue.go:93-178 | No channel is forgotten: it is still to join, in the table, waiting to be closed, or closed |
| UsageSubscribers.PublishReaches | internal/redisqueue/queue.go:124-143 | A published payload becomes the last message in the stream of every subscriber with room, which stays subscribed; every full one is out of the table with its channel closed and its stream as it was; no other channel changes |
| UsageSubscribers.NothingLost | internal/redisqueue/queue.go:62-122 | Whatever steps follow an enqueueing call, in every interleaving without a clearing, its payload is in exactly one of four places: published, on its way to the backlog, in it, or popped or expired out of it; once the enqueueing step was taken it has arrived in the backlog |
| UsageSubscribers.StaleLeaveDoesNothing | internal/redisqueue/queue.go:167-178 | A number that left the table never returns, so a late unsubscribe touches no newer subscriber |
| UsageHub.Hub.MakeSubscriber | internal/redisqueue/queue.go:145-147 | A new channel holds the support notice |
| UsageHub.Hub.SubscribeLocked | internal/redisqueue/queue.go:149-156 | The new subscriber gets a number never used before |
| UsageHub.Hub.PublishToSubscribers | internal/redisqueue/queue.go:124-143 | Whatever the map order, every subscriber with room gets the payload and every full one is dropped and closed; none of these channels was closed before |
| UsageHub.Hub.UnsubscribeLocked | internal/redisqueue/queue.go:167-173 | Takes out the subscriber of that number, if there is one, and hands its channel to the caller |
| UsageHub.Hub.ClearLocked | internal/redisqueue/queue.go:94-103 | Takes out all subscribers and hands each channel to the caller once |
| UsageHub.Hub.Close | internal/redisqueue/queue.go:105-107 | The close that follows an unlock finds the channel open |
| RespCodec.AtoiItoa | internal/api/redis_queue_protocol.go:389-395 | A written length reads back (64-bit integers), and contains no line break |
| RespWire.BulkBytes | internal/api/redis_queue_protocol.go:479-494 | The bytes of a bulk string, and of nil |
| RespWire.ArrayBytes | internal/api/redis_queue_protocol.go:496-509 | The bytes of an array, item by item |
| RespWire.NumbersRead | internal/api/redis_queue_protocol.go:381-443 | Digits with or without a sign read as their number iff it fits in 64 bits |
| RespWire.OthersNotRead | internal/api/redis_queue_protocol.go:381-443 | Nothing else reads as a number |
| RespWire.OtherKinds | internal/api/redis_queue_protocol.go:381-421 | What starts with no known byte is refused, by each of the three readers |
| RespWire.LineKinds | internal/home/certificate.go:372-377 | An element behind a plus sign or a colon reads as its line; behind a minus sign it reaches the requesting side as an error |
| RespWire.BadLength | internal/api/redis_queue_protocol.go:381-443 | A length that is no number is refused; a negative one is an empty element, but refused for an array |
| RespWire.PaddedLength | internal/home/certificate.go:349-381 | The requesting side takes a length with a blank on either side |
| RespWire.BadEnd | internal/api/redis_queue_protocol.go:423-443 | The server refuses a bulk string without a line break behind it; the requesting side takes any two bytes |
| RespWire.BodyCut | internal/api/redis_queue_protocol.go:423-443 | A connection that ends right behind the length line ends cleanly, and one that ends later does not |
| RespWire.HugeLength | internal/api/redis_queue_protocol.go:423-443 | A length within two of the largest integer stops the program |
| RespCodec.ArrayReads | internal/api/redis_queue_protocol.go:381-443 | A written bulk array reads back as its texts, nil items as empty, and nothing more is consumed |
| RespCodec.ArrayShort | internal/api/redis_queue_protocol.go:381-453 | No proper prefix of a written array reads as an array or as a protocol error |
| RespCodec.PipelineReads | internal/api/redis_queue_protocol.go:381-453 | Reading the concatenation of any commands, with any bytes in their arguments, gives those commands in order and leaves exactly what follows them |
| RespCodec.PipelineCut | internal/api/redis_queue_protocol.go:381-453 | A connection cut anywhere gives the whole commands before the cut and then an end of input |
| RespCodec.PipelineDecidable | internal/home/certificate.go:334-347 | One stream of commands begins like another if and only if its commands begin with the other's, so different streams of any numbers of commands never look the same |
| RespCodec.BulkReadIs | internal/api/redis_queue_protocol.go:423-443 | Whatever is read as a bulk string stood in the input as its length line, the value and a line break; any negative length stands for the empty value |
| RespCodec.LineItemReads | internal/api/redis_queue_protocol.go:408-421 | Elements sent as simple strings or integers read as their text |
| RespCodec.ErrorReads | internal/home/certificate.go:372-377 | An error of the server reaches the requesting side with its message |
| RespCodec.ReplyReads | internal/home/certificate.go:349-381 | The requesting side reads back a bulk string the server wrote, and reports nil as an error |
| RespCodec.ReadersAgree | internal/home/certificate.go:349-381 | The two bulk readers agree wherever the server side accepts a bulk string of non-negative length |
| RespReader.Connection.ReadRESPLine | internal/api/redis_queue_protocol.go:445-453 | Reads to the line feed and strips one line break |
| RespReader.Connection.ReadRESPBulkString | internal/api/redis_queue_protocol.go:423-443 | The reader of a bulk string, with all its failures |
| RespReader.Connection.ReadRESPString | internal/api/redis_queue_protocol.go:408-421 | The reader of an array element, with all its failures |
| RespReader.Connection.ReadRESPArray | internal/api/redis_queue_protocol.go:381-406 | The loop reads the array that `ReadArray` reads and stops at the same place, or fails as it fails |
| RespReader.Connection.ReadReply | internal/home/certificate.go:349-381 | The reader of a certificate reply, with all its failures |
| RespReader.EncodeRESPArray | internal/home/certificate.go:334-347 | The loop writes the encoded command |
| RespReader.Writer.WriteRedisBulkString | internal/api/redis_queue_protocol.go:479-494 | Appends one encoded bulk string, or the nil one |
| RespReader.Writer.WriteRedisArrayOfBulkStrings | internal/api/redis_queue_protocol.go:496-509 | The loop appends the encoded array |
| Thinking.BestIsNearest | internal/thinking/validate.go:234-248 | The search finds the listed standard level at minimum distance, the lower on a tie |
| Thinking.ClampIsNearest | internal/thinking/validate.go:218-259 | Clamping a standard level gives a supported level at minimum distance, the lower on a tie; without a listed standard level it changes nothing |
| Thinking.BudgetLevelIs | internal/thinking/convert.go:77-97 | A positive budget becomes the lowest level whose own budget covers it, or "xhigh" |
| Thinking.ClampedBudgetMonotone | internal/thinking/convert.go:77-97 | A larger budget never ends at a lower level after clamping, whatever levels a model lists |
| Thinking.LevelOverBudget | internal/thinking/convert.go:42-45 | A level survives the way over its budget if and only if it is not "max" |
| Thinking.LevelsAre | internal/thinking/convert.go:42-75 | The six levels, in any case of letters, with their order and budgets; any other text but none and auto has no budget |
| ThinkingConfig.ClampBudgetIs | internal/thinking/validate.go:262-310 | A positive budget becomes the nearest one in range; "auto" and an allowed 0 stay |
| ThinkingConfig.LevelFindsBudget | internal/thinking/validate.go:72-85 | A standard level for a model with budgets only ends at the budget nearest to its own |
| ThinkingConfig.BudgetEndsAtLevel | internal/thinking/validate.go:86-97 | A budget for a model with levels only ends at the listed level nearest to its own |
| ThinkingConfig.StrictRange | internal/thinking/validate.go:131-139 | Within a family a budget of the request is turned away iff it is out of range, and otherwise brought into range |
| ThinkingConfig.AutoIsMiddle | internal/thinking/validate.go:177-203 | The middle of the range replaces an "auto" that is not allowed |
| ThinkingConfig.ValidatedSound | internal/thinking/validate.go:38-165 | For declared ranges, any budget and any spelling of levels (the modes none and auto carrying 0 and -1, as `internal/thinking/types.go:66-67` documents), what validation lets through is sound (budgets in range, auto only if dynamic, levels listed) if and only if automatic thinking is allowed or has a fallback, no negative budget misses a positive minimum, and no "auto" in capitals is taken for a budget |
| ThinkingConfig.ValidatedTwice | internal/thinking/validate.go:38-165 | Validating again changes nothing, if and only if automatic thinking is allowed or has a fallback, no negative budget was clamped to 0, and no "auto" in capitals meets a strict range; without thinking support always |
| ThinkingConfig.SoundIsStable | internal/thinking/validate.go:38-165 | A sound configuration passes validation unchanged |
| ThinkingConfig.NegativeBudgetExample | internal/thinking/validate.go:262-310 | Across families the budget -5 passes as 0 for a model with the range 0 to 24576, and the next validation turns it into "none" |
| ThinkingConfig.CapitalAutoExample | internal/thinking/validate.go:72-85 | "AUTO" passes as the budget -1 for a model that does not allow automatic thinking, and the next validation within the family refuses it |
| ThinkingConfig.AcrossFamilies | internal/thinking/validate.go:68-139 | Across provider families exactly the understood configurations pass: a level must be listed, or be standard in any spelling where a standard level is listed, or have a budget where the model has budgets only; a budget for a model with levels only must be -1, 0, or positive with a standard level listed. A standard level ends at the nearest listed one |
| ThinkingConfig.WithinFamily | internal/thinking/validate.go:56-124 | Within a provider family a level other than none and auto, for any model that lists levels, passes iff it equals a listed one up to case and surrounding space, and then unchanged; otherwise it is refused |
| ThinkingConfig.FamiliesAre | internal/thinking/validate.go:56-67 | Which formats are of one family, by name, in any case and with any surrounding space |
| ThinkingConfig.LevelByFormats | internal/thinking/validate.go:56-124 | So a level that is not listed is refused from one Gemini format to another and among the OpenAI ones, and clamped to the nearest from Claude to either |
| ThinkingConfig.OffByFormats | internal/thinking/validate.go:141-165 | Switching thinking off for Claude passes as it is; a model that cannot be switched off gets its least budget and first level |
| ThinkingConfig.RefusedAtOnce | internal/thinking/validate.go:38-97 | Refused before any range or list is looked at are exactly: thinking for a model without it, a level without a budget for a model with budgets only, and a budget below -1 for a model with levels only |
| ThinkingConfig.RouteAcross | internal/thinking/validate.go:56-67 | Configurations that cross families, come from a suffix or from no known format are never held to the strict range; case and space do not matter |
| ThinkingConfig.MediumNotListedExample | internal/thinking/validate.go:177-190 | A model without "medium" for which validation yields a level that it refuses the second time |
| ThinkingValidator.FindLevel | internal/thinking/validate.go:321-328 | The loop finds the index of a standard level |
| ThinkingValidator.IsLevelSupported | internal/thinking/validate.go:312-319 | The loop decides support, ignoring case and surrounding space |
| ThinkingValidator.Clamp | internal/thinking/validate.go:218-259 | The loop over `bestIdx` and `bestDist` clamps the level |
| ThinkingValidator.ValidateConfig | internal/thinking/validate.go:38-165 | Rewriting the configuration step by step gives the validated one or the same error |
| ClusterNodes.ByLoadIs | internal/home/client.go:396-398 | Ordering by load sorts, loses and makes up nothing, and keeps the order among equals |
| ClusterNodes.FirstIsLeastLoaded | internal/home/client.go:384-400 | The first node of a normalized list is a usable one with the fewest clients; the list is empty iff no node is usable |
| ClusterNodes.OneMore | internal/home/client.go:384-400 | One more reported node joins, trimmed and with no less than no clients, behind the known ones with as many clients, iff it has an address and a port |
| ClusterNodes.NormalizeClusterNodes | internal/home/client.go:384-400 | The loop and the sort yield the normalized list |
| HomeFailover.NewInv | internal/home/client.go:77-83 | A new client satisfies the invariant |
| HomeFailover.NextIs | internal/home/client.go:458-479 | Failover goes to the first candidate that is another valid address, and nowhere iff there is none |
| HomeFailover.SwitchIs | internal/home/client.go:402-414 | The client moves to an address iff that has a host and a port and is another than its own, spaces around hosts aside; its connections are closed then |
| HomeFailover.UpdateLearns | internal/home/client.go:370-382 | A cluster message replaces the known nodes, also by none, and changes nothing else |
| HomeFailover.StepCurrent | internal/home/client.go:114-175 | Every step leaves stored connections open and made for the current target, and all others closed |
| HomeFailover.StepNormal | internal/home/client.go:331-456 | Every step leaves the failure counter below 3 and known nodes usable and ordered by load |
| HomeFailover.RunKeeps | internal/home/client.go:145-479 | Both over every run |
| HomeFailover.EnsuredCurrent | internal/home/client.go:145-175 | Connections are made iff the client is enabled, has an address and its options can be made; then both exist |
| HomeFailover.TimeoutMoves | internal/home/client.go:443-456 | A lost subscription moves the client at once iff there is a different valid candidate |
| HomeFailover.RefreshFindsLeastLoaded | internal/home/client.go:331-360 | A reply with a usable node brings the client to one with the fewest clients and forgets failures |
| HomeFailover.BackToSeed | internal/home/client.go:458-479 | Without another valid node failover goes back to the first configured address |
| HomeFailover.TwoFailuresStay | internal/home/client.go:423-437 | Fewer than three failures, whatever steps lie between them that neither move the client nor forget failures (cluster replies without a usable node among them), do not move the client |
| HomeFailover.ThirdFailureMoves | internal/home/client.go:423-479 | With discovery on, the third uninterrupted failure changes the target if and only if a different valid candidate exists, and then to the first one; the counter starts over |
| HomeFailover.FixedWithoutDiscovery | internal/home/client.go:430-433 | Without discovery no run changes the target or learns nodes |
| HomeFailover.FailoverAlternates | internal/home/client.go:458-479 | With two valid addresses among the candidates, from the first failover on the targets are, in turn, the first valid candidate and the first valid candidate elsewhere, which differ |
| HomeFailover.FailoverVisits | internal/home/client.go:458-479 | Failovers in a row visit an address if and only if it is that of one of these two candidates |
| HomeFailover.SinglePlaceKept | internal/home/client.go:458-479 | With one valid address among the candidates it is reached and kept |
| HomeFailover.ThirdNodeExample | internal/home/client.go:458-479 | A cluster of three nodes of which the third is never tried |
| HomeSubscriber.HeartbeatInEveryRun | internal/home/client.go:690-800 | However the subscriber loop and other threads interleave, the heartbeat is on only while the subscriber listens to a confirmed subscription, and then no failure is counted and the connections are current |
| HomeSubscriber.NeverStuck | internal/home/client.go:690-800 | Wherever the subscriber is, it can go on, unless it has ended |
| HomeSubscriber.ConfirmedListens | internal/home/client.go:690-800 | From a confirmed subscription it comes to listen with the heartbeat on |
| HomeSubscriber.TimeoutEndsListening | internal/home/client.go:690-800 | A subscription that times out puts the heartbeat off before the client moves |
| HomeClient.HomeConnection.CloseClientsLocked | internal/home/client.go:114-123 | Closes and forgets both connections |
| HomeClient.HomeConnection.EnsureClients | internal/home/client.go:145-175 | Makes the missing connections for the current target, or fails |
| HomeClient.HomeConnection.SwitchToNodeLocked | internal/home/client.go:402-414 | Moves to another valid address and closes the connections, or does nothing |
| HomeClient.HomeConnection.SwitchToNextNodeLocked | internal/home/client.go:458-479 | The candidate loop moves to the first address elsewhere |
| HomeClient.HomeConnection.FailoverAfterReconnectFailure | internal/home/client.go:423-441 | Counts a failure and fails over at the third |
| HomeClient.HomeConnection.FailoverAfterSubscriptionTimeout | internal/home/client.go:443-456 | Fails over at once |
| HomeClient.HomeConnection.RefreshClusterNodes | internal/home/client.go:355-359 | Learns the nodes of a reply and moves to the least loaded |
| HomeClient.HomeConnection.UpdateClusterNodes | internal/home/client.go:370-382 | Learns the nodes of a cluster message |
| ReplayCache.KeysDiffer | internal/cache/codex_reasoning_replay_cache.go:123-132 | Model names without a NUL byte and sessions with equal keys are equal up to surrounding space |
| ReplayCache.KeyIs | internal/cache/codex_reasoning_replay_cache.go:123-132 | There is a key exactly for a model and a session that are both more than space, and this is it |
| ReplayCache.YoungSurvives | internal/cache/codex_reasoning_replay_cache.go:222-243 | An entry that at least a batch of others are older than is not evicted |
| ReplayCache.SurvivesIff | internal/cache/codex_reasoning_replay_cache.go:222-243 | An entry survives every eviction, whatever the map order and the order of equal stamps, if and only if at least as many entries as go are older than it |
| ReplayCache.StoredSurvivesIff | internal/cache/codex_reasoning_replay_cache.go:47-69 | An entry stored under a new key in a full cache is certain to survive the overflow if and only if at least 128 entries carry stamps before its own |
| ReplayCache.EvictionUnique | internal/cache/codex_reasoning_replay_cache.go:222-243 | With different stamps only one set of entries can be evicted, whatever order the map and the sort take |
| ReplayCache.StoreOverflows | internal/cache/codex_reasoning_replay_cache.go:47-69 | With a strictly increasing clock an overflow evicts exactly the 128 entries touched longest ago, the new entry survives, and 10113 entries remain |
| ReplayCache.ReadableForAnHour | internal/cache/codex_reasoning_replay_cache.go:47-121 | In every run of calls for other keys, an entry that is neither removed nor evicted can be read for exactly an hour after it was last touched |
| ReplayCache.ReadSurvives | internal/cache/codex_reasoning_replay_cache.go:47-102 | An entry that was just read survives the next overflow |
| ReplayCache.StepKeeps | internal/cache/codex_reasoning_replay_cache.go:47-121 | Every call keeps the bound and the stamps different |
| ReplayCache.RunKeeps | internal/cache/codex_reasoning_replay_cache.go:47-121 | In every run, whatever the clock does, the cache holds at most 10240 entries, and each holds what was last stored under its key and not removed since |
| ReplayCache.TickingRunKeeps | internal/cache/codex_reasoning_replay_cache.go:47-121 | In a run with a strictly increasing clock no two entries ever carry the same stamp |
| ReplayCache.TieExample | internal/cache/codex_reasoning_replay_cache.go:234-242 | With a clock that stands still a new entry can be evicted at once, together with any others |
| ReplayStore.SortByStamp | internal/cache/codex_reasoning_replay_cache.go:234-236 | Sorted by stamp, the same candidates |
| ReplayStore.ReplayEntries.EvictOldest | internal/cache/codex_reasoning_replay_cache.go:222-243 | Collecting, sorting and deleting evicts entries none of which is younger than one kept |
| ReplayStore.ReplayEntries.CacheItems | internal/cache/codex_reasoning_replay_cache.go:47-69 | Stores, and evicts a batch on overflow |
| ReplayStore.ReplayEntries.GetItems | internal/cache/codex_reasoning_replay_cache.go:81-102 | Gives the items and touches the entry, or drops it where it has expired |
| ReplayStore.ReplayEntries.PurgeExpired | internal/cache/codex_reasoning_replay_cache.go:245-253 | Drops exactly the expired entries, in any map order |

## Left out

- HTTP serving, routing, management handlers, TLS, login flows, user interfaces, stores, log rotation and
  provider-specific translators: input and output without an invariant of their own.
- Registry: hooks, log lines, `LastUpdated` (written and never read), the fields of a model description
  (an opaque value), the rendering of a listing for a handler type (a listing is the set of models with
  their descriptions), `GetModelCount`, `GetModelProviders`, `GetFirstAvailableModel` and other plain reads.
- Registry: registrations are values in a map, not shared references; nil quota times, which are never
  stored, do not exist in the model.
- Strings: a Go string is a sequence of characters; `ToLower` and `EqualFold` change the case of ASCII
  letters only.
- RespCodec.ReadBulk: trims ASCII white space around a length, not the other Unicode spaces in UTF-8.
- RespCodec.PipelineReads: lengths are bounded by what a Go `int` holds with a line break added; limits of
  memory allocation, write errors, a nil writer and the dispatch of commands are not modelled.
- RespReader.Connection.ReadRESPArray: says nothing about the position after a failure; the program drops
  the connection then.
- Base64.DecodeEncode: texts are decoded as whole strings; the streaming decoder is not modelled.
- JSON: trees without duplicate keys, member order or number formats; the raw text of arrays and objects is
  kept only as far as its first character. Writing through a value that is neither an object nor absent
  leaves it alone. Parsing, and errors of the path library, are not modelled.
- Signatures: error texts and decision reasons, the inspection trees beyond acceptance, the options
  `PrefixOnly` and `Base64Only`, and `StripInvalidClaudeThinkingBlocks`.
- YamlMerger.MergeNodePreserve: works on values. Updating nodes in place, aliasing, comments, styles, tags
  of collections, anchors and nil nodes are not modelled; keys are distinct and non-blank where coverage is
  claimed.
- UsageQueue: the payload bytes are not copied, since values do not alias; `SetEnabled` and the sleep of
  subscribers on an empty channel are not modelled. Where threads interleave, the backlog is one of call
  numbers, and pruning it is a step of its own. Numbers of subscribers do not wrap around at 64 bits.
- UsageHub.Hub.PublishToSubscribers: numbers of calls and dates of joining are kept only to state
  properties.
- Thinking: integers are unbounded, so that the sum of a range does not overflow.
- Home: what is sent over a connection, TLS options beyond whether they could be made, and server names.
- ReplayStore.ReplayEntries.CacheItems: the normalization of items is a parameter; its JSON rewriting is
  not modelled.
