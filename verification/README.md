# CorpusKit, modelled and proved

CorpusKit builds, stores and releases phonetic corpora. This project models the parts of it that
decide something through state, loops or recursion, and proves what they promise. `dafny verify
dfyconfig.toml` checks all of it with Dafny 4.11.

**The released API contract** (`SchemaContract`, `SchemaComparer`, `AlternativeMatching`,
`SchemaOrder`, `SchemaReport`, `SchemaSemantics`, `SchemaNarrowing`, `OpenApiContract`, `OpenApiReport`,
`OpenApiGuarantees`). The recursive comparison appends to one list of findings and pairs alternatives
greedily. What is reported is said finding by finding, independently of the recursion. When an empty
report is reflexive and when two of them compose is known exactly, and on the additive fragment an empty
report means that no request is turned away. Where silence narrows nevertheless, concrete schemas show it.

**The patched wheel** (`TextLines`, `UnifiedDiff`, `PatchUndo`, `TextReplace`, `Wheel`). A strict
unified-diff interpreter, the rebuild around it, the RECORD check and the comparison with upstream: what
is accepted, what it does, exactly when it can be undone, on lines and on texts, and that what is built
verifies.

**Object stores** (`ObjectStore`, `FilesystemStore`). One dictionary, two files per object, and a paged
server listing are all the same simple map.

**Adoption of staged results** (`ArtifactKeys`, `RunLifecycle`, `Adoption`, `AdoptionProgress`,
`AdoptionService`, `StagingCleanup`). A state machine of children staging bytes, adoption attempts that
crash and are retried, cancellation and the sweep; its safety in every interleaving, its convergence,
and the sequential program that is one of its executions.

**Publication of DATG indexes** (`DatgPublication`, `DatgPublisher`, `DatgIndex`). Write-once
publication by temporary file and hard link under concurrent publishers and readers, and the two
directions of the index itself.

**The OIDC key cache** (`JwksDocument`, `OidcKeyCache`, `OidcVerifier`). A double-checked timed cache
with cooldown, its refresh rate in real arithmetic, and the first-acceptable-key loop.

**Canonical JSON and what is hashed with it** (`Json`, `JsonParser`, `CanonicalJson`, `CanonicalText`,
`CanonicalEquality`, `SensitiveKeys`, `RunSpec`, `NormalizedSpec`, `SpecTree`, `Corpora`, `AuditChain`). A parser
inverts the sorted encoding, so digests identify run specs, corpora and audit histories.

**Backups** (`BackupManifest`, `BackupBundle`, `BackupProtocol`, `PostgresContinuity`). The manifest's
canonical text and its reader, side-by-side creation with failures and crashes, and the programs that
create and verify: what is created verifies.

**Release versions** (`ReleaseVersion`, `UnicodeDigits`) and **percentiles** (`Percentile`).

SHA-256 is an arbitrary function; results that need it to be collision-free say so (`Digest`). CSV,
base64, Unicode normalization, the JWT library, `pg_restore` and the codecs of the sidecar and the index
are parameters, with the one property each result needs as a hypothesis. Directories and object servers
are explicit maps with atomic rename, link and put; clocks are readings or step parameters.

Where the code does not do what its documentation suggests, the model follows the code:

- A comparison of a schema with itself can report a finding: an `anyOf` or `oneOf` that is not a list
  (`SchemaOrder.CompatibleReflexive` gives the exact condition).
- Silence is not transitive when the middle schema drops `items` that come back incompatible
  (`SchemaOrder.DroppedItemsBreakTheChain`); `SchemaOrder.CompatibleTransitive` has the exact condition.
- Six kinds of change narrow what is accepted and are not reported (`SchemaNarrowing`); the fragment of
  `SchemaSemantics.ValidityWidens` excludes exactly their causes.
- The two-file store differs from the dictionary where a key ends in a slash
  (`FilesystemStore.TrailingSlashAliases`), where one key is a path ancestor of another, and where a digest
  collision is already stored (`FilesystemStore.FilesystemObjectStore.PutObject` has the exact condition).
- Joining the patched lines can lose a line end: a reversed patch restores the source text exactly when the
  result is a list of lines of which all but the last are ended (`PatchUndo.UndoRestoresText`,
  `PatchUndo.UnendedLineIsNotUndone`).
- Undoing the version edits restores the upstream members only when these have the new version texts nowhere
  else (`Wheel.BuildIsUndone`).
- In camel case, runs of adjacent one-letter words become one word, so `secretID` is allowed where
  `secret_i_d` is refused (`SensitiveKeys.SpellingDoesNotMatter`, `SensitiveKeys.CamelCaseLosesWords`).
- Release tags may have digits of other scripts inside a number (`ReleaseVersion.OtherDigitsAreRead`).

## Model

| member | source | states |
|---|---|---|
| AlternativeMatching.PartnerReflexive | scripts/quality/openapi_contract.py:304-340 | a list of alternatives compared with itself is matched position by position |
| AlternativeMatching.PartnerTransitive | scripts/quality/openapi_contract.py:304-340 | matching a list with a second and that with a third matches the first with the third |
| AlternativeMatching.PartnerInjective | scripts/quality/openapi_contract.py:304-340 | no new alternative is used for two old ones |
| AlternativeMatching.UnmatchedIsSurplus | scripts/quality/openapi_contract.py:304-340 | per identity, exactly the surplus of old over new alternatives is left without a match |
| AlternativeMatching.FirstAvailable | scripts/quality/openapi_contract.py:320-334 | the first available alternative of an identity is the k-th new one of it, when k-1 earlier ones were matched |
| AlternativeMatching.NoneAvailable | scripts/quality/openapi_contract.py:320-333 | when none is available, the new list has no further alternative of that identity |
| SchemaComparer.FindingLog.Append | scripts/quality/openapi_contract.py:241-301 | one finding is added at the end of the shared list and nothing else changes |
| SchemaComparer.CompareSchema | scripts/quality/openapi_contract.py:241-301 | the recursive walk appends to the shared list exactly the findings of the specification, at this location |
| SchemaComparer.CompareKeywords | scripts/quality/openapi_contract.py:251-275 | type, const, enum, required names and limits, in the order of the program |
| SchemaComparer.CompareEnum | scripts/quality/openapi_contract.py:260-267 | exactly the old enum values that no new value equals, in order |
| SchemaComparer.CompareLimits | scripts/quality/openapi_contract.py:355-380 | a limit is reported exactly when it is new or tighter, upper and lower limits each in their direction |
| SchemaComparer.CompareProperties | scripts/quality/openapi_contract.py:276-283 | removed properties and the findings of every kept one |
| SchemaComparer.CompareItems | scripts/quality/openapi_contract.py:284-285 | the items of both schemas are compared exactly when the program compares them |
| SchemaComparer.FirstWithIdentity | scripts/quality/openapi_contract.py:320-330 | the first available alternative with an identity, or none |
| SchemaComparer.MatchAlternatives | scripts/quality/openapi_contract.py:304-340 | the greedy loop over the shrinking list of available alternatives reports what matching the k-th old with the k-th new alternative of each identity reports |
| SchemaComparer.CompareAlternatives | scripts/quality/openapi_contract.py:304-340 | both alternative keywords, including the finding for lists that are no longer lists |
| SchemaComparer.CompareAdditional | scripts/quality/openapi_contract.py:289-301 | closing an open object, and narrowing the schema of additional properties |
| SchemaOrder.SilenceIsCompatibility | scripts/quality/openapi_contract.py:241-301 | the walk adds nothing exactly when the schemas are compatible, at any location |
| SchemaOrder.CompatibleReflexive | scripts/quality/openapi_contract.py:241-301 | a schema has no findings against itself exactly when every anyOf and oneOf in it that is reached is a list |
| SchemaOrder.CompatibleTransitive | scripts/quality/openapi_contract.py:241-301 | two silent comparisons through a typed middle schema compose exactly when, wherever it drops `items` that both ends have, those two are compatible |
| SchemaOrder.DroppedItemsBreakTheChain | scripts/quality/openapi_contract.py:284-285 | without that they do not: dropping items and adding other ones are both silent, together they are not |
| SchemaReport.ReportIsExact | scripts/quality/openapi_contract.py:241-340 | a finding is in the report exactly when some way down through kept properties, items, matched alternatives and additional properties leads to a pair of schemas that has this issue at this location |
| SchemaReport.OwnIssues | scripts/quality/openapi_contract.py:241-380 | at its own location a pair of schemas has exactly the issues said keyword by keyword, each of the ten limits by its name, with the old and the new value |
| SchemaReport.SameIdentity | scripts/quality/openapi_contract.py:343-352 | two alternatives have one identity exactly when they have the same reference, or else the same type name, or else print alike |
| SchemaSemantics.KeywordsWiden | scripts/quality/openapi_contract.py:251-275 | a silent comparison of the keywords without subschemas narrows no value (JSON Schema Validation 2020-12, section 6) |
| SchemaSemantics.ValidityWidens | scripts/quality/openapi_contract.py:241-301 | silent and additive: every value valid under the old schema is valid under the new one, at every depth of references; validity is said keyword by keyword in its own terms (JSON Schema 2020-12), without the lists and tests of the comparison |
| SchemaSemantics.AcceptanceWidens | scripts/quality/openapi_contract.py:241-301 | the same for acceptance with references unfolded as often as needed |
| SchemaNarrowing.FirstTypeNarrows | scripts/quality/openapi_contract.py:251-254 | a first `type` is silent and narrows |
| SchemaNarrowing.FirstItemsNarrows | scripts/quality/openapi_contract.py:284-285 | a first `items` is silent and narrows |
| SchemaNarrowing.NewPropertyNarrows | scripts/quality/openapi_contract.py:276-283 | a new optional property is silent and narrows |
| SchemaNarrowing.BooleanConstNarrows | scripts/quality/openapi_contract.py:255-259 | a const changed from true to 1 is silent, being equal in Python, and narrows |
| SchemaNarrowing.BooleanEnumNarrows | scripts/quality/openapi_contract.py:260-267 | the same inside an enum |
| SchemaNarrowing.SecondAlternativeNarrows | scripts/quality/openapi_contract.py:320-340 | a further oneOf alternative is silent and narrows |
| OpenApiContract.BreakingChanges | scripts/quality/openapi_contract.py:55-100 | the report is the findings of all compared parts, in order, each once |
| OpenApiReport.DocumentReportIsExact | scripts/quality/openapi_contract.py:55-238 | a finding is in the report exactly when a path or operation was removed, or a parameter, body, response, media type or schema of a kept operation breaks in the said way |
| OpenApiContract.FirstOccurrences | scripts/quality/openapi_contract.py:100 | dropping repetitions keeps exactly the findings that occur, each once, and empties no report |
| OpenApiContract.CompareOperation | scripts/quality/openapi_contract.py:136-196 | all findings of one operation, appended in the order of the program |
| OpenApiContract.Merged | scripts/quality/openapi_contract.py:199-216 | in the merged list the last one listed of a place and name is found, so operation parameters override path parameters |
| OpenApiContract.LastListedIsLast | scripts/quality/openapi_contract.py:199-216 | the last one listed of a place and name has none of them behind it |
| OpenApiContract.CompareContent | scripts/quality/openapi_contract.py:219-238 | removed media types and the findings of the schemas of kept ones |
| OpenApiGuarantees.DocumentSilence | scripts/quality/openapi_contract.py:55-100 | the report is empty exactly when every compared part is compatible |
| OpenApiGuarantees.DocumentReflexive | scripts/quality/openapi_contract.py:55-100 | a well-formed document compared with itself has an empty report exactly when every anyOf and oneOf that is compared is a list |
| OpenApiGuarantees.DocumentTransitive | scripts/quality/openapi_contract.py:55-100 | two releases with empty reports make one upgrade with an empty report exactly when, at every place, no `items` dropped in between comes back incompatible; the middle keywords are typed |
| OpenApiGuarantees.RequestsStillServed | scripts/quality/openapi_contract.py:55-100 | with an empty report and additive schemas, every request under one of the eight HTTP methods that the old document describes the new one describes |
| UnifiedDiff.ParsePrintedHeader | scripts/security/accelerate_patch.py:82-86 | printing a hunk header and reading it back gives the same four numbers |
| UnifiedDiff.HeaderIffText | scripts/security/accelerate_patch.py:82-86 | a line is a header with four numbers exactly when it is "@@ -", four numerals with these separators, and " @@" with its line end |
| UnifiedDiff.ApplyPatch | scripts/security/accelerate_patch.py:72-110 | the nested loops with their three cursors compute the specification, errors included |
| UnifiedDiff.RunHunkBody | scripts/security/accelerate_patch.py:92-108 | one hunk body, line by line, until the next header |
| UnifiedDiff.SidesCons | scripts/security/accelerate_patch.py:92-108 | the old side of a hunk is its lines that are not marked "+", the new side those that are not marked "-", in order |
| UnifiedDiff.PatchedIffEdits | scripts/security/accelerate_patch.py:72-110 | a patch is accepted with a result exactly when it says a list of edits whose old sides, with gaps between, are the source, and whose new sides, with the same gaps, are the result |
| UnifiedDiff.TargetLength | scripts/security/accelerate_patch.py:72-110 | the result is longer than the source by the sum of new minus old counts |
| UnifiedDiff.PrintedApplies | scripts/security/accelerate_patch.py:72-110 | a printed list of edits applies to its source and gives its target |
| UnifiedDiff.ReverseSwaps | scripts/security/accelerate_patch.py:72-110 | reversing a list of edits exchanges source and target |
| UnifiedDiff.PatchCanBeUndone | scripts/security/accelerate_patch.py:72-110 | an accepted patch says edits from the source to the result, and the patch that reverses exactly these edits, with its own starts, turns the result back into the source |
| UnifiedDiff.ApplyPatchText | scripts/security/accelerate_patch.py:72-110 | from text to text: the lines of the source, patched, and joined |
| TextLines.ConcatSplit | scripts/security/accelerate_patch.py:74-77 | joining the lines that a text was split into gives the text back |
| TextLines.SplitIffLines | scripts/security/accelerate_patch.py:74-110 | a list of lines survives being joined and split exactly when each is one line and all but the last are ended |
| TextLines.LineBreaks | scripts/security/accelerate_patch.py:74-77 | the ten characters that end a line, and that "\r\n" ends it once |
| PatchUndo.UndoIsLines | scripts/security/accelerate_patch.py:72-110 | the reversed patch of a patch text, printed and joined, is split into the same lines again |
| PatchUndo.Lockstep | scripts/security/accelerate_patch.py:72-110 | a patch that undoes to the same text found the lines it was made for |
| PatchUndo.UndoRestoresText | scripts/security/accelerate_patch.py:72-110 | on texts, the reversed patch turns the result back into the source exactly when the lines of the result survive being joined |
| PatchUndo.ResultStaysLines | scripts/security/accelerate_patch.py:72-110 | that is exactly when no added text is empty, every added and every source line is ended unless it comes last, and no line ending in "\r" comes before a line "\n" |
| PatchUndo.EndedTextsAreUndone | scripts/security/accelerate_patch.py:72-110 | between texts that end in a line end and have no "\r", every accepted patch can be undone |
| PatchUndo.UnendedLineIsNotUndone | scripts/security/accelerate_patch.py:72-110 | a source text, a patch text and its reversal where they do not: a line added behind a last line without its end |
| TextReplace.ReplaceLength | scripts/security/accelerate_patch.py:124-137 | replacing changes the length by the difference of the two texts for every occurrence |
| TextReplace.ReplaceOnce | scripts/security/accelerate_patch.py:124-137 | with a single occurrence, replacing rewrites it and keeps the text before and after |
| TextReplace.UndoRestores | scripts/security/accelerate_patch.py:199-214 | replacing back restores the original exactly when the new text was nowhere else in it; the two texts may share e characters at their ends |
| Wheel.VerifyRecord | scripts/security/accelerate_patch.py:55-69 | the loop accepts exactly the archives whose RECORD lists every member once with its digest and size, and itself without |
| Wheel.RecordDeterminesFiles | scripts/security/accelerate_patch.py:55-69 | with a collision-free digest two archives accepted with the same RECORD are equal |
| Wheel.BuildWheel | scripts/security/accelerate_patch.py:113-155 | success exactly for a verified upstream archive with the members to edit, each old version text once, and a patch that applies; the result is the stated archive: the patched loader, the two version texts replaced once each, the other members as they were, and RECORD with the digest and size of each |
| Wheel.BuildRebuilds | scripts/security/accelerate_patch.py:113-155 | member by member, under their literal names: the loader is what the patch makes of the upstream one, the package file and METADATA are the upstream texts with the one old version text rewritten, RECORD has a row for every member in order, and all others keep their bytes |
| Wheel.BuildKeepsMembers | scripts/security/accelerate_patch.py:113-155 | the built archive has the upstream members up to the dist-info name, and no others |
| Wheel.BuildVerifies | scripts/security/accelerate_patch.py:113-155 | what the build produces always passes verification |
| Wheel.BuildKeepsContents | scripts/security/accelerate_patch.py:113-155 | every member but the loader, the version file, METADATA and RECORD keeps its bytes |
| Wheel.VersionUndone | scripts/security/accelerate_patch.py:199-207 | undoing the version edit restores `__init__` exactly when the new version text is neither before nor behind the old one upstream |
| Wheel.MetadataUndone | scripts/security/accelerate_patch.py:208-212 | the same for METADATA, whose version line shares its line breaks with the lines around it |
| Wheel.MetadataTextBorders | scripts/security/accelerate_patch.py:128-137 | two METADATA version lines can share one line break and no more |
| Wheel.VerifyUndone | scripts/security/accelerate_patch.py:197-214 | the per-file loop accepts exactly the archives whose members, with the edits undone, have the upstream digests |
| Wheel.BuildIsUndone | scripts/security/accelerate_patch.py:192-214 | what is built from an upstream archive passes that comparison with it exactly when the archive nowhere else has the new version texts |
| Wheel.VersionTextBorderFree | scripts/security/accelerate_patch.py:20-30 | the new version text cannot overlap itself, as the undo check needs |
| ObjectStore.PutIsWriteOnce | src/corpuskit/persistence/artifact_store.py:104-123 | a put creates at most the object asked for and never replaces or removes one |
| ObjectStore.PutIdempotent | src/corpuskit/persistence/artifact_store.py:104-123 | putting the same bytes again returns the first descriptor and creates nothing |
| ObjectStore.PutAnswers | src/corpuskit/persistence/artifact_store.py:96-181 | which puts are refused and with what error: a key that is not acceptable, a digest, size or media type that is not that of the content, and an object that is not the one put |
| ObjectStore.AcceptableKeys | src/corpuskit/persistence/artifact_store.py:753-760 | the keys that are taken: 1 to 512 small letters, digits, slashes, underscores and hyphens, a letter or digit first, without "//" |
| ObjectStore.ListingIs | src/corpuskit/persistence/artifact_store.py:285-311 | a listing is the ascending list of keys with the prefix after the cursor, all of them or as many of the first as the limit allows |
| Sorting.LessIff | src/corpuskit/persistence/artifact_store.py:299-309 | strings are in order when the first character in which they differ is, and a beginning comes before what it begins |
| ObjectStore.Chunks | src/corpuskit/persistence/artifact_store.py:132-142 | the streamed pieces are nonempty, no longer than the chunk size, and add up to the content |
| ObjectStore.InMemoryObjectStore.PutObject | src/corpuskit/persistence/artifact_store.py:104-123 | the dictionary and the result are those of the simple map, in every branch |
| ObjectStore.InMemoryObjectStore.StatObject | src/corpuskit/persistence/artifact_store.py:125-130 | the descriptor, or the error of the simple map |
| ObjectStore.InMemoryObjectStore.OpenObject | src/corpuskit/persistence/artifact_store.py:132-142 | the descriptor and chunks that add up to the content, or an error |
| ObjectStore.InMemoryObjectStore.DeleteObject | src/corpuskit/persistence/artifact_store.py:144-148 | exactly the key is removed, or nothing on failure |
| ObjectStore.InMemoryObjectStore.ListKeys | src/corpuskit/persistence/artifact_store.py:161-175 | the first `limit` keys with the prefix after the cursor, in order |
| ObjectStore.RemainingAfter | src/corpuskit/persistence/artifact_store.py:600-636 | what is left after a listed prefix is the rest of the sorted list |
| ObjectStore.NextPage | src/corpuskit/persistence/artifact_store.py:600-636 | appending a page to a prefix of the listing gives a longer prefix of it |
| ObjectStore.ListKeysPaged | src/corpuskit/persistence/artifact_store.py:600-636 | the continuation loop returns the simple listing, whatever page sizes the server chooses, empty pages included; it fails exactly when the page of the last request it makes is truncated without a token |
| ObjectStore.SimpleServerServes | src/corpuskit/persistence/artifact_store.py:600-636 | what is assumed of a listing server holds of one whose token is the last key it listed |
| FilesystemStore.WrittenObject | src/corpuskit/persistence/artifact_store.py:201-226 | writing content and sidecar adds exactly that object to the simple map |
| FilesystemStore.WrittenTree | src/corpuskit/persistence/artifact_store.py:201-226 | and keeps the directory tree valid |
| FilesystemStore.RemovedObject | src/corpuskit/persistence/artifact_store.py:269-273 | removing both files removes exactly that object and keeps the tree valid |
| FilesystemStore.ListedAreKeys | src/corpuskit/persistence/artifact_store.py:295-308 | the files a listing shows are exactly the paths of the objects |
| FilesystemStore.ListedIff | src/corpuskit/persistence/artifact_store.py:297-304 | hidden from a listing are exactly the files that end in ".metadata.json" and those whose name behind the last slash begins with ".upload-" |
| FilesystemStore.FilesystemObjectStore.StatObject | src/corpuskit/persistence/artifact_store.py:228-251 | stat of two files is stat of the simple map under the key without its trailing slash, and an operating system error behind a file |
| FilesystemStore.FilesystemObjectStore.PutObject | src/corpuskit/persistence/artifact_store.py:201-226 | put of two files is put of the simple map exactly when the key does not end in a slash and there is no path conflict and no digest collision; with a trailing slash it is the put of the key without it |
| FilesystemStore.FilesystemObjectStore.DeleteObject | src/corpuskit/persistence/artifact_store.py:269-273 | delete is delete of the simple map, of the key without its trailing slash, where no path conflict gets in the way |
| FilesystemStore.FilesystemObjectStore.ListKeys | src/corpuskit/persistence/artifact_store.py:286-311 | list is the listing of the simple map |
| FilesystemStore.TrailingSlashAliases | src/corpuskit/persistence/artifact_store.py:313-318 | putting "a/" stores "a", where the simple map holds another key |
| ArtifactKeys.ReferenceRoundTrip | src/corpuskit/domain/artifacts.py:353-358 | the parent reads back exactly the digest that the child named |
| ArtifactKeys.ArtifactKeySegments | src/corpuskit/domain/artifacts.py:334-350 | split at its slashes an address is "artifacts", "v1", organization, project, run or "project", kind, two digits and the digest |
| ArtifactKeys.StagedKeySegments | src/corpuskit/domain/artifacts.py:361-366 | split at its slashes a staging key is "staging", "v1", "sha256", two digits and the digest |
| ArtifactKeys.ArtifactKeyInjective | src/corpuskit/domain/artifacts.py:334-350 | a content address determines organization, project, run, kind and digest |
| ArtifactKeys.NamespacesDisjoint | src/corpuskit/domain/artifacts.py:334-366 | no run-owned address lies in the staging namespace |
| ArtifactKeys.KeysAreValid | src/corpuskit/domain/artifacts.py:334-366 | all built addresses are keys that the stores accept |
| RunLifecycle.LegalPathsAreShort | src/corpuskit/domain/jobs.py:60-95 | a run visits no state twice: at most six states in its life |
| RunLifecycle.CancellationIsFinal | src/corpuskit/domain/jobs.py:60-95 | a run being cancelled never succeeds |
| RunLifecycle.TransitionsInto | src/corpuskit/domain/jobs.py:60-76 | for every state, the states from which it is reached |
| Adoption.NextKeeps | src/corpuskit/services/artifact_adoption.py:141-255 | every step of staging, sweeping, adoption, crash and cancellation keeps the invariant and takes back no final object, result, success or cancellation |
| Adoption.RunsMoveLegally | src/corpuskit/workflows/store.py:110-234 | states follow the transition table, and a result appears only by the commit of an attempt, from a running run that is not cancelled |
| Adoption.ExecutionKeeps | src/corpuskit/services/artifact_adoption.py:141-255 | the same for every interleaving of any length |
| Adoption.ResultsAreSoundForever | src/corpuskit/services/artifact_adoption.py:141-255 | a committed result names, in every later state, stored bytes of the claimed digest, size and media type "application/json", under the address whose parts are the organization, project and identifier of the run as it was created |
| Adoption.FinalObjectsComeFromAttempts | src/corpuskit/services/artifact_adoption.py:171-188 | final objects are created only by an attempt that passed the second cancellation check, at its own run and digest |
| Adoption.CancelledAttemptsLeaveNothing | src/corpuskit/services/artifact_adoption.py:158-173 | an attempt that saw cancellation at either check created no object, and its run never gets a result |
| Adoption.OneAttemptCreatesTheResult | src/corpuskit/workflows/store.py:131-162 | of all deliveries of a run at most one creates the result and all that succeed agree on the digest |
| AdoptionProgress.DeliveryIsExecution | src/corpuskit/services/artifact_adoption.py:141-255 | an undisturbed delivery, with or without a cancellation while it reads, is one of these interleavings |
| AdoptionProgress.RetryConverges | src/corpuskit/services/artifact_adoption.py:141-255 | with the staged bytes in place, the next undisturbed delivery commits, whatever crashed before; after success it finds the same result |
| AdoptionService.ArtifactAdoptionService.ReadAndVerify | src/corpuskit/services/artifact_adoption.py:303-332 | the chunk loop returns the content exactly when descriptor, size and digest are as claimed, and otherwise the error for the first check that fails |
| AdoptionService.ArtifactAdoptionService.PutAndReadBack | src/corpuskit/services/artifact_adoption.py:182-201 | put, descriptor check and read-back, with errors mapped as the program maps them |
| AdoptionService.ArtifactAdoptionService.AcknowledgeCancellation | src/corpuskit/workflows/store.py:484-496 | the run reaches cancelled from every state that may, and is unchanged otherwise |
| AdoptionService.ArtifactAdoptionService.CommitResult | src/corpuskit/workflows/store.py:110-234 | the commit transaction: cancelled, already there, refused or recorded |
| AdoptionService.ArtifactAdoptionService.Adopt | src/corpuskit/services/artifact_adoption.py:141-255 | the sequential program leaves the store, the runs and the outcome that the step system does |
| AdoptionService.DeliveryOutcome | src/corpuskit/services/artifact_adoption.py:141-255 | an undisturbed delivery ends with the stated verdict, every error code and its retryability included, in the order in which the program looks; behind it the run has the stated state and result, and the store at most the one new object |
| AdoptionService.ArtifactAdoptionService.CleanKey | src/corpuskit/services/artifact_adoption.py:276-287 | one key: younger kept, older deleted, failures counted |
| AdoptionService.ArtifactAdoptionService.CleanupStaging | src/corpuskit/services/artifact_adoption.py:257-294 | one page: exactly the expired listed objects go, the counters add up, the cursor is the last key of a full page |
| StagingCleanup.PageIsPrefix | src/corpuskit/services/artifact_adoption.py:267-294 | a page is a prefix of what is ahead, all of it without a next cursor, and the next cursor leaves exactly the rest |
| StagingCleanup.DeletedBehind | src/corpuskit/services/artifact_adoption.py:267-294 | what a page deletes does not change what is ahead of its cursor |
| StagingCleanup.SweepIsComplete | src/corpuskit/services/artifact_adoption.py:257-294 | following the cursor scans every staging key ahead once, in order, and removes exactly the expired ones that can be deleted |
| StagingCleanup.SweepLeavesYounger | src/corpuskit/services/artifact_adoption.py:257-294 | absent failures a sweep leaves exactly the younger staging objects and all others untouched |
| DatgPublication.NextKeeps | src/corpuskit/persistence/datg_cache.py:84-127 | every file operation of every publisher keeps the invariant and every published file |
| DatgPublication.VerifySound | src/corpuskit/persistence/datg_cache.py:130-150 | verification succeeds exactly when the stored file is within the size limit and parses to the index expected |
| DatgPublication.FailureAnswers | src/corpuskit/persistence/datg_cache.py:120-150 | an operation that raises is an integrity failure while the published file is verified and a storage failure before |
| DatgPublication.ReadersSeeWholeIndexes | src/corpuskit/persistence/datg_cache.py:51-75 | a reader of a key that was not provisioned finds nothing or a whole index for that key, in every interleaving with crashes |
| DatgPublication.ReadingsNeverChange | src/corpuskit/persistence/datg_cache.py:51-75 | once a reader gets an answer other than nothing, every later reader gets the same |
| DatgPublication.SuccessMeansPublished | src/corpuskit/persistence/datg_cache.py:84-127 | a publisher that reports success has its own index stored, for ever |
| DatgPublication.RivalsDoNotBothSucceed | src/corpuskit/persistence/datg_cache.py:84-150 | two publishers of different indexes under one key never both succeed |
| DatgPublisher.FilesystemDatgIndexPublisher.VerifyExisting | src/corpuskit/persistence/datg_cache.py:130-150 | all outcomes of the check of the published file |
| DatgPublisher.FilesystemDatgIndexPublisher.Publish | src/corpuskit/persistence/datg_cache.py:84-127 | succeeds exactly for an acceptable key and size with no other index published; leaves no temporary file; is an execution of the protocol |
| DatgPublisher.ReadOnlyFilesystemDatgIndexCache.Fetch | src/corpuskit/persistence/datg_cache.py:51-75 | the reading of the protocol, errors included |
| JwksDocument.Inspect | src/corpuskit/auth/verifier.py:246-261 | what one entry of the key set does: skipped, breaking the document, or accepted |
| JwksDocument.ParseKeys | src/corpuskit/auth/verifier.py:245-263 | the key set is unusable exactly when an entry that is looked at breaks it; otherwise each id has the key of the first entry that yields one |
| JwksDocument.FetchKeys | src/corpuskit/auth/verifier.py:229-269 | a refresh succeeds exactly when both documents are acceptable and some entry yields a key |
| JwksDocument.YieldedKeysAreTrusted | src/corpuskit/auth/verifier.py:229-269 | a refresh yields a key for an id exactly when it is the first RS256 signing key of that id in the key set that the issuer's own discovery document names at the issuer's own origin |
| OidcKeyCache.NextKeeps | src/corpuskit/auth/verifier.py:201-227 | the fields always hold what the attempts so far say, and attempts stay spaced |
| OidcKeyCache.RefreshesAreSpaced | src/corpuskit/auth/verifier.py:211-223 | of any two refreshes, the second is a cooldown later, or the first succeeded and its keys had expired |
| OidcKeyCache.RefreshRate | src/corpuskit/auth/verifier.py:211-223 | n refreshes in a window w satisfy n <= floor(w / min(cooldown, cache time)) + 1 |
| OidcKeyCache.ServedKeysAreCurrent | src/corpuskit/auth/verifier.py:201-227 | a lookup that does not ask the provider serves a key exactly when the latest successful refresh had one for it and is at most the cache time old |
| OidcKeyCache.RefreshAnswers | src/corpuskit/auth/verifier.py:219-227 | a lookup that asked answers with the key the fetched set has for it, unavailable exactly when the fetch failed, and unauthenticated exactly when it succeeded without such a key |
| OidcKeyCache.CooldownAnswers | src/corpuskit/auth/verifier.py:212-216 | held back by an attempt less than a cooldown ago, the answer is unavailable exactly when that attempt failed; otherwise it is unauthenticated, and the set that attempt fetched lacks the id |
| OidcKeyCache.RefreshesWhenNeeded | src/corpuskit/auth/verifier.py:207-219 | the provider is asked exactly when no fresh key answers and no earlier attempt holds the lookup back |
| OidcVerifier.OidcJwtVerifier.RefreshKeys | src/corpuskit/auth/verifier.py:229-269 | on failure the fields stay, on success keys and time are replaced |
| OidcVerifier.OidcJwtVerifier.GetKey | src/corpuskit/auth/verifier.py:201-227 | every path through the lookup, its answer and the four fields after it, in terms of the old fields and of what a refresh yields |
| OidcVerifier.LookupIsRun | src/corpuskit/auth/verifier.py:201-227 | a lookup by itself is a run of the protocol with the same answer and fields |
| SensitiveKeys.PunctuationSplits | src/corpuskit/domain/jobs.py:191-204 | a key joined by any punctuation has exactly its words as components |
| SensitiveKeys.CamelSplits | src/corpuskit/domain/jobs.py:191-194 | in camel case the components are the words, each run of adjacent one-letter words after the first word being one |
| SensitiveKeys.SpellingDoesNotMatter | src/corpuskit/domain/jobs.py:191-204 | in camel case a key has the components it has with punctuation exactly when no two one-letter words are adjacent after the first word; otherwise such runs are judged as one word |
| SensitiveKeys.CamelCaseLosesWords | src/corpuskit/domain/jobs.py:191-204 | `secret_i_d` is refused and `secretID` is not |
| SensitiveKeys.CredentialKeys | src/corpuskit/domain/jobs.py:19-31 | the keys that are refused, by their words: one of the four credential words, a last word "token", or one of the six pairs run together, unless the last word is "id", "ref" or "reference" |
| RunSpec.Inspector.Inspect | src/corpuskit/domain/jobs.py:116-134 | the recursion with the one shared counter is the walk of the specification, counter and first error alike |
| RunSpec.WalkAccepts | src/corpuskit/domain/jobs.py:113-136 | the walk accepts exactly the trees of JSON types with few enough values and levels and no credential key, and counts them |
| SpecTree.WalkAcceptsTree | src/corpuskit/domain/jobs.py:116-134 | told by positions: accepted are exactly the trees with few enough positions, none deeper than the limit, and at each a JSON type whose keys are strings and name no credential |
| SpecTree.RefusalIsJustified | src/corpuskit/domain/jobs.py:116-134 | whatever error the walk stops with, what it complains about is somewhere in the tree |
| SpecTree.ProgramLimits | src/corpuskit/domain/jobs.py:13-18 | the numbers: 20,000 values, 20 levels and 262,144 bytes for a run spec; 5,000, 10 and 65,536 for a result summary |
| SpecTree.Utf8Bytes | src/corpuskit/domain/jobs.py:137-145 | the bytes that are counted, character by character (RFC 3629, section 3) |
| SpecTree.ShortNumbers | src/corpuskit/domain/jobs.py:137-146 | integers of more than 4,300 digits are refused |
| NormalizedSpec.Normalize | src/corpuskit/domain/jobs.py:111-149 | accepted are exactly the JSON objects within the limits, with finite numbers that Python converts; the result is the object in key order and the digest of its encoding |
| NormalizedSpec.NormalizeIsIdempotent | src/corpuskit/domain/jobs.py:111-149 | normalizing again changes neither the spec nor its digest |
| NormalizedSpec.DigestDeterminesSpec | src/corpuskit/domain/jobs.py:98-108 | with a collision-free digest, two accepted specs share it exactly when they differ at most in key order |
| NormalizedSpec.SizeNormal | src/corpuskit/domain/jobs.py:111-149 | sorting keys keeps the number of values |
| CanonicalJson.ParseEncoded | src/corpuskit/domain/jobs.py:137-146 | reading an encoded value back gives the value with sorted keys and leaves the text after it (RFC 8259, sections 4 to 7) |
| CanonicalJson.LoadsEncoded | src/corpuskit/domain/jobs.py:137-146 | loading the encoding gives the value in key order |
| CanonicalText.QuotedText | src/corpuskit/domain/jobs.py:137-143 | a string is encoded character by character, as section 7 of RFC 8259 writes them and no more is escaped than must be |
| CanonicalText.ValueText | src/corpuskit/domain/jobs.py:137-143 | words, numbers, strings and arrays as they are written |
| CanonicalText.ObjectText | src/corpuskit/domain/jobs.py:137-143 | an object with its names in order is written as its members between braces, without spaces |
| CanonicalEquality.NormalIsSame | src/corpuskit/domain/jobs.py:137-149 | key order is all that loading changes |
| CanonicalEquality.EncodingDeterminesValue | src/corpuskit/domain/jobs.py:98-108 | equal encodings are exactly equal values up to key order |
| Corpora.SplitOfJoin | src/corpuskit/domain/corpora.py:59-63 | splitting single-spaced words gives the words back |
| Corpora.SplitIff | src/corpuskit/domain/corpora.py:59-63 | splitting gives a list of words exactly when the text is these words, free of white space and not empty, with white space between them |
| Corpora.NormalizedText | src/corpuskit/domain/corpora.py:59-63 | a normalized sentence is all the words of the normal form, in order, with single spaces between them |
| Corpora.HashedText | src/corpuskit/domain/corpora.py:94-109 | the text that is hashed: the language and the list of kept texts, under these two names |
| Corpora.NormalizingIsIdempotent | src/corpuskit/domain/corpora.py:59-63 | a normalized sentence is normalized already |
| Corpora.PrepareCorpus | src/corpuskit/domain/corpora.py:66-109 | when an import fails and with what; otherwise the first occurrences, in order, numbered from 0, with the original texts and the digest |
| Corpora.KeptAreFirstOccurrences | src/corpuskit/domain/corpora.py:72-92 | the kept texts are exactly the non-blank ones, each once, in the order of their first occurrences |
| Corpora.NoiseDoesNotMatter | src/corpuskit/domain/corpora.py:66-109 | blanks and repetitions change neither the kept texts nor the digest |
| Corpora.PreparingIsIdempotent | src/corpuskit/domain/corpora.py:66-109 | preparing the prepared sentences gives the same sentences, so the same digest |
| Corpora.DigestDeterminesCorpus | src/corpuskit/domain/corpora.py:94-109 | with a collision-free digest, equal digests are exactly equal language and kept texts |
| DatgIndex.ListedBothWays | src/corpuskit/domain/datg.py:236-263 | a token is under a unit exactly when the unit is under the token |
| DatgIndex.ValidIffTransposed | src/corpuskit/domain/datg.py:236-263 | accepted are exactly the valid token lists together with their transposition |
| DatgIndex.TokensAcceptedIff | src/corpuskit/domain/datg.py:181-208 | the token lists that are valid: ascending ids up to 10,000,000, texts of up to 512 characters, and for each an ascending list of units of 1 to 192 characters, not all of them white space |
| DatgIndex.TransposingTwiceReturns | src/corpuskit/domain/datg.py:185-263 | transposing twice returns each sorted unit list |
| DatgIndex.UnitsDetermineTokens | src/corpuskit/domain/datg.py:236-263 | the units-to-tokens direction determines the other |
| ReleaseVersion.ParseIffPrinted | scripts/release/release_contract.py:37-87 | a text parses to a version exactly when that can be printed and the text reads as its printed form, with or without the v: digits after the first of a number may be of any script |
| ReleaseVersion.ParsePrinted | scripts/release/release_contract.py:37-87 | both printed forms are read back, and no other text in ASCII is read as the version |
| ReleaseVersion.PrintedForms | scripts/release/release_contract.py:71-95 | the tag, the SemVer and the Python form of a release and of each kind of pre-release |
| ReleaseVersion.OtherDigitsAreRead | scripts/release/release_contract.py:37-69 | a text with an Arabic-Indic digit is read as a version |
| ReleaseVersion.Pep440Injective | scripts/release/release_contract.py:89-95 | no two versions share a Python version |
| ReleaseVersion.PrecedenceIsSemver | scripts/release/release_contract.py:97-100 | the tuple orders versions as section 11 of SemVer 2.0.0 does |
| ReleaseVersion.PrecedenceIsStrictTotal | scripts/release/release_contract.py:97-100 | a strict order that separates any two different versions |
| ReleaseVersion.RollbacksDescend | scripts/release/release_contract.py:469-473 | a chain of accepted rollbacks strictly descends |
| Percentile.QuantileIsNearestRank | scripts/performance/benchmark_contract.py:107-116 | the result is the one sample with at least p*n samples at or below and fewer than p*n below |
| Percentile.QuantileIgnoresOrder | scripts/performance/benchmark_contract.py:107-116 | the order of the samples does not matter |
| Percentile.QuantileMonotone | scripts/performance/benchmark_contract.py:107-116 | a higher probability never gives a smaller result |
| Percentile.Summarize | scripts/performance/benchmark_contract.py:119-129 | the least sample, the nearest-rank samples of 0.5, 0.95 and 0.99, and the greatest sample, which ascend |
| AuditChain.AuditLog.Append | src/corpuskit/services/platform.py:114-170 | an event is recorded exactly when its metadata normalizes, the head is a digest, and actor and request are safe; it has the next number, the old head as predecessor, every detail as given with the metadata in key order, and its hash; an intact log stays intact, and a refused event leaves no trace |
| AuditChain.AuditLog.Verify | src/corpuskit/services/platform.py:173-206 | the verification loop says yes exactly for an intact log |
| AuditChain.EventHashCovers | src/corpuskit/domain/platform.py:278-312 | the hash is the digest of the text with these members: number, predecessor and each detail under its own name |
| AuditChain.SafeTexts | src/corpuskit/domain/platform.py:28-29 | the actors and request identifiers that are safe, by length and characters |
| AuditChain.HashDetermines | src/corpuskit/domain/platform.py:278-312 | with a collision-free digest, equal event hashes mean equal number, predecessor hash and record in canonical form |
| AuditChain.HashDeterminesHistory | src/corpuskit/domain/platform.py:278-312 | one hash in two linked logs means the same position and the same events up to it |
| AuditChain.LastHashDeterminesLog | src/corpuskit/domain/platform.py:27 | intact logs from the genesis hash that end in the same hash are identical event by event |
| BackupManifest.BundleIdValid | src/corpuskit/operations/postgres_continuity.py:370-373 | the bundle name built for a backup is the prefix, the stamp, the digest prefix and the start of the nonce, and has the accepted form |
| BackupManifest.ParseIffPrinted | src/corpuskit/domain/continuity.py:62-76 | a manifest file is read exactly when it is the canonical text of a valid manifest, and gives that manifest |
| BackupManifest.PrintedText | src/corpuskit/domain/continuity.py:62-72 | the canonical text of a manifest, member by member, with the literal names and constants |
| BackupManifest.ValidManifests | src/corpuskit/domain/continuity.py:14-60 | the manifests that are valid: the parts of the name and of the time of creation, versions of two or three numbers with one major, numbers in range, and the name bound to the digest |
| BackupManifest.PrintedFits | src/corpuskit/domain/continuity.py:29-60 | every valid manifest fits the size limit of the file it is read from |
| BackupBundle.FaithfulWorldExists | src/corpuskit/domain/continuity.py:74-76 | what is assumed of the digest, its form, holds of some function |
| BackupBundle.DigestPinsBundle | src/corpuskit/domain/continuity.py:149-161 | with a collision-free digest, two accepted bundles with one digest line are equal |
| BackupBundle.BundleFiles | src/corpuskit/domain/continuity.py:157-161 | the three files of an accepted bundle: the archive with the digest and size of the manifest, the manifest in its canonical form, and its digest line |
| BackupBundle.CountIsEntries | src/corpuskit/operations/postgres_continuity.py:592-596 | the count is the number of lines that have, behind blanks only, a character that is no semicolon |
| BackupBundle.TocIs | src/corpuskit/operations/postgres_continuity.py:591-599 | a listing is accepted exactly when it fits the limit and has 1 to 50,000,000 such lines |
| BackupProtocol.NextKeeps | src/corpuskit/operations/postgres_continuity.py:323-401 | every operation of every backup leaves visible bundles complete and unchanged |
| BackupProtocol.VisibleBundlesAreComplete | src/corpuskit/operations/postgres_continuity.py:323-401 | in every interleaving with failures and crashes a bundle becomes visible only complete, and stays as it is |
| PostgresContinuity.HashRegularFile | src/corpuskit/operations/postgres_continuity.py:779-817 | the block loop gives digest and size, or fails by size or by time |
| PostgresContinuity.CountLines | src/corpuskit/operations/postgres_continuity.py:592-596 | the number of lines that have, behind blanks only, a character that is no semicolon |
| PostgresContinuity.InspectArchive | src/corpuskit/operations/postgres_continuity.py:572-599 | the entry count of the listing, leaving no listing behind |
| PostgresContinuity.Continuity.ValidateToolchain | src/corpuskit/operations/postgres_continuity.py:487-514 | given time, exactly three well-formed versions of one supported major are accepted |
| PostgresContinuity.SupportedToolchains | src/corpuskit/operations/postgres_continuity.py:487-514 | accepted are exactly three versions that all begin with "16.", all with "17." or all with "18." |
| PostgresContinuity.Continuity.CreateBackup | src/corpuskit/operations/postgres_continuity.py:323-401 | success publishes one new complete bundle as the protocol does; failure publishes nothing; the partial directory always goes; given time, success exactly under the stated conditions |
| PostgresContinuity.Continuity.VerifyBundle | src/corpuskit/operations/postgres_continuity.py:516-570 | accepts only bundles whose archive has the size, digest and entry count of a manifest in its own canonical form; given time, exactly those of the same major version within the limit |
| PostgresContinuity.Continuity.VerifyBackup | src/corpuskit/operations/postgres_continuity.py:403-418 | with the limit and the toolchain checked first; given time, exactly the acceptable bundles |
| PostgresContinuity.Continuity.CreateThenVerify | src/corpuskit/operations/postgres_continuity.py:323-425 | a created backup passes verification with its own manifest, by tools of the same major version, in time, within any limit the archive fits |

## Left out

- OpenAPI documents are typed values: the errors raised for documents of the wrong shape are not modelled.
- Findings are values with a location and an issue instead of message texts; the order and the repetitions are those of the program.
- Names added to `required` are one finding with the set of names, where the program prints them sorted.
- Schema validity is defined for the compared keywords; `pattern` and formats are a parameter, and references are unfolded up to any depth.
- SchemaSemantics.ValidityWidens: stated for additive changes only, because `SchemaNarrowing` shows that it is false without each condition.
- Members of an archive are texts: decoding them is left out, and hunk headers with numbers of more than 4300 digits are not modelled.
- Deflate and zip bytes, the fixed upstream digests and the download are left out.
- FilesystemStore.FilesystemObjectStore.PutObject: file systems that limit the length of a name are left out; a crash between the content and the sidecar, and two writers of one key at once, are not modelled; the program makes no promise there.
- The S3 adapter is modelled for listing only; its put, stat and delete pass values to a server that is not part of this model.
- Adoption.NextKeeps: acknowledging a cancellation is one step, where the program makes two transactions that another step can only complete.
- Publishing a DATG index inside an adoption is left out of the adoption steps and modelled by itself.
- AdoptionService.ArtifactAdoptionService.Adopt: a cancellation can arrive while the staged bytes are read; all other interference is in the step system.
- Validating a payload against its schema and the run's spec is one predicate of the installation.
- AdoptionService.ArtifactAdoptionService.CleanupStaging: expects the stored keys to be valid, which every put ensures.
- `fsync`, file permissions, path resolution and symbolic-link checks on the roots are left out; link entries and folders under a cache key are modelled.
- OidcKeyCache.NextKeeps: a task cancelled during a refresh and exceptions other than unavailability are left out; token verification itself belongs to the JWT library.
- JsonParser reads texts without insignificant whitespace and objects without repeated names, which is what the encoder writes; floats are printable tokens whose value is a function of the text.
- `normalize_result_summary` is the same walk with other limits (`SpecTree.ProgramLimits`) and without a digest, so it has no other rows of its own.
- Corpora.NormalizingIsIdempotent: assumes that the Unicode normal form keeps single-spaced words that came from it.
- DatgIndex.ValidIffTransposed: the identity, the unit level, the size limits of the lists and the content digest of the artifact are single checks and left out.
- Percentile.QuantileIsNearestRank: real arithmetic; the rounding of p*n in floating point is not modelled.
- `compare_results` and the memory checks of the benchmark contract are branches over fields and left out.
- AuditChain.AuditLog.Append: the database row lock and the identifier of the event are left out.
- PostgresContinuity.HashRegularFile: a file that changes while it is hashed is not modelled.
- Restore drills, tool discovery and the environment of the PostgreSQL tools are left out.
- HTTP routers, database sessions, Temporal wiring, the web application, generation and training are left out.
