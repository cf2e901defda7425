# Rekor monitor: verified model

The Rekor monitor watches a transparency log. In each iteration it checks that the log is consistent with
the checkpoint it stored last, searches the entries that are new since then for monitored identities, notifies
about what it found, and only then stores the new checkpoint. It can be killed at any moment and is restarted
from the checkpoint file. This project models that monitor in Dafny and proves what the design rests on: exactly
which runs skip no entry (all in which the process never forgets what it stored, and those in which forgetting does
no harm), what an incremental search sends adds up to what one search finds, the stored checkpoints form an
append-only chain wherever nothing is forgotten, and no match or unreadable entry is lost on its way to a
notification.

## The model

- `MonitorProtocol` cuts the loop into its separate steps (check, search, the two notifications, index
  hand-over, truncating the file, writing it, a write that breaks off, crash), so that a crash can fall between
  any two; a check also says whether the stat call on the file succeeded. Its state keeps the file, the process's memory, and as history the delivered searches, the stored
  checkpoints and the notifications sent. `Coverage`, `Incremental` and `StoreChain` hold the invariants over
  all runs of it.
- `MonitorLoop` is the loop as the source writes it: a class that updates its start and end index and the
  checkpoint file and calls the identity search. Its effect is a function (`RunLoop`) of the answers of the
  outside world and of the search results, and every such run is a run of the protocol (`LoopIsSteps`).
  `LoopCoverage` is coverage of the loop, its presets included, and `PresetStart` what becomes of a preset start in a
  process that begins with an empty file. `Survival` says when the loop goes on and when it ends, from the answers and
  results alone, and what each iteration sends, stores and hands on. `Gaps` holds concrete runs in which the promises
  fail.
- `Consistency` and `CheckpointFile` are the consistency checks of both versions and the one-line file format.
- `TileClient` (v2) and `BatchClient` (v1) are the range fetchers. Both return the requests they sent.
- `Shards` is the v2 shard selection and cache check; `Matching`, `EntryScan` and `Grouping` are the identity
  search, put together in `IdentitySearch`; `OidMatchers` and `Retry` are the helpers for OID matchers and retried calls.
  `Findings` and `Carried` say what a stage and an entry yield from the lists alone: positions in the monitored values,
  in the entry's fingerprints, subjects and certificates, and in a certificate's extensions.
- `EndToEnd` joins coverage of indices, fetching, matching, grouping and notifying; `OneShot` compares what one
  process sends with what a single search finds.

What the code gets from outside is a parameter: the log's content and which requests are answered, consistency
proof verification (with the guarantee of section 2.1.2 of RFC 6962 as the hypothesis `Sound`), the text form
of a checkpoint (`Codec`), the regular expression engine and chain verification (`Oracle`), clocks, the library
sort's result, whether a notification gets through, whether the stat call on the file
fails, and how a file write ends. Go's wrapping int64 and
truncating division are written out where a value can leave the range. The iteration order of Go maps is left open.

## Coverage

An index is covered when a search over it, and all its notifications, went through. A state is covered when every
index after the first stored checkpoint's last one, through the current one's, is. The mark of a state is the
highest index searched or stored so far. `CoverageExactly` says for every run, with crashes, write errors and
failing stat calls anywhere: all its states are covered if and only if each checkpoint that comes to the file after
the first one is within the mark. `LoopCoverageExactly` says the same of the loop, iteration by iteration.
`CrashSafeCoverage` (for all runs) and `LoopKeepsCoverage` (for the loop) meet the condition whenever every check sees
the file and no write breaks off before its first byte; `CarefulRunsLoseNothing` carries that to the notifications.

## Where the natural statement is false

- **The process forgets what was stored.** Writing the checkpoint file truncates it first. If the process dies, or the
  write fails, before anything is written, the file is empty. And a check takes any error of the stat call for a
  missing file. Either way the next head is taken for a first checkpoint: a fresh process searches nothing and asks
  for no proof. `LostFileGap` (a crash), `BrokenWriteGap` (two ordinary runs of the loop) and `UnseenFileGap` (one
  failing stat call) skip an index; `CoverageExactly` says which runs do. `UnprovedReplacement` replaces a checkpoint
  by one the verifier refuses; `StoresAreLinked` says that nothing else can. A file left unreadable instead blocks the
  monitor as long as checks see it (`TornFileBlocks`).
- **Presets.** With a preset start or end index the stored checkpoint can jump past unsearched entries
  (`PresetGap`). A preset start that is not past the first stored checkpoint is safe over all restarts
  (`CrashSafeCoverage`); `PresetsExactly` gives the condition for one iteration after any history. From an empty file
  `PresetStartExactly` says when everything between the preset start and the first stored checkpoint is searched: in
  v2 a first head that is empty overwrites the preset start with its missing end index.
- **v2 sizes beyond int64** give no end index: the head is stored unsearched (`OversizedHeadExactly`, at an input
  `OversizedGap`).
- **v2 start below -1.** `getTileIndex` truncates toward zero, so for -256 <= start <= -2 and end >= 256 tile 0 is
  skipped although the call succeeds (`ContainsExactly`, at an input `SkippedTile`).
- **The name of a group** is a value that occurs in the entry, but it can be empty: when a pattern that matches the
  empty text meets an entry with an empty subject, or a certificate whose last matching alternative name is empty, and
  only then (`EmptyNameExactly`, at an input `EmptyNameGroup`).
- **The checkpoint file format** does not escape backslashes. `RoundTrip` gives the texts that survive.
- **The newest shard.** The shard cache ignores validity starts. The check uses the newest shard if and only if an
  origin or an end has changed, or the newest shard has not (`NewestShardExactly`); when two shards trade starts
  it does not (`SwappedStartsGoUnnoticed`).
- **One matcher per identifier.** Keys are compared as strings. The rendered identifiers are distinct if and only if
  no two keys parse alike (`OneMatcherPerIdentifier`). A key with a plus sign, a leading zero or a negative zero in a
  component has a twin without them, and two keys without them never name one identifier (`TwinExactly`).
- **Comments that differ from the code.** The v1 fetcher's comment promises one entry when start equals end; the
  code sends no request. `RenderOIDMatchers` speaks of all associated values of an OID; the code keeps those of
  the last occurrence (`LastOccurrenceWins`).

## Model

| member | source | states |
|---|---|---|
| Coverage.CoverageExactly | internal/cmd/common.go:298-410 | over every run, crashes, write errors, failing stat calls, failed checks and presets included, all states are covered if and only if each checkpoint that comes to the file after the first is no further than what was searched or stored before |
| Coverage.StepKeepsInv | internal/cmd/common.go:314-409 | a step keeps the invariant, unless it stores a checkpoint past the mark, and then its own last index is unsearched |
| Coverage.CrashSafeCoverage | internal/cmd/common.go:314-409 | if every check sees the file and no write breaks off before its first byte, every state that runs, crashes and restarts can reach is covered, also with a preset start not past the first stored checkpoint; the file then holds the last stored checkpoint, is unreadable or is being written |
| Coverage.SearchesStartAtStore | internal/cmd/common.go:330-348 | in every run, lost writes and failing stat calls included, a search that is due or just made starts no later than right after the stored checkpoint's last index and ends at the head's; it starts exactly there unless a check that could not stat the file saw an empty log |
| Gaps.LostFileGap | pkg/util/file/file.go:128-135 | a concrete run with a lost write in which an index is in no search although the file is past it |
| Gaps.UnseenFileGap | pkg/rekor/v2/verifier.go:136-138 | a concrete run in which one failing stat call lets a new process store a head with nothing searched |
| Gaps.UnprovedReplacement | pkg/rekor/v2/verifier.go:136-138 | a concrete run in which a stored checkpoint is replaced by one the verifier refuses |
| Coverage.TornFileBlocks | pkg/rekor/v2/verifier.go:138-143 | with an unreadable file that every check sees no run searches, stores or sends anything |
| Gaps.RebaselineEnds | internal/cmd/common.go:330-336 | with nothing in the file, or a file the stat call fails on, a new process stores the head it sees, without a search, exactly when the check passes and the head is non-empty |
| MonitorLoop.Monitor.Run | internal/cmd/common.go:298-410 | the loop's whole effect on file, searches, stores and notifications, for any answers of the outside world, with results that the identity search may return |
| MonitorLoop.Monitor.Iteration | internal/cmd/common.go:314-399 | one pass: failing checks change nothing, failing searches or notifications leave the file alone, the store comes last and may break off |
| MonitorLoop.Monitor.SearchAndNotify | internal/cmd/common.go:329-388 | range from presets, stored checkpoint and head; refused when start exceeds end; searched, the groups and then the failures sent, and the end handed on as the next start |
| MonitorLoop.Monitor.RunConsistencyCheck | cmd/rekor_monitor/main.go:86-100 | the check of the configured version against what the file holds now, or against nothing when the stat call fails |
| MonitorLoop.IterationIsSteps | internal/cmd/common.go:314-399 | the loop body refines the protocol steps, and its search step reports what the search may report |
| MonitorLoop.LoopIsSteps | internal/cmd/common.go:298-410 | every run of the loop is a protocol run whose writes break off exactly where the write of its iteration did |
| Survival.FailingCheckChangesNothing | internal/cmd/common.go:319-327 | from the reply alone: without `once`, an unavailable log, an unreadable file or a refused proof leaves the process ready with file, indices and history unchanged; with `once` it ends |
| Survival.ReadyExactly | internal/cmd/common.go:314-399 | when a process is ready for the next iteration: never with `once`; with a preset end as long as no check has passed and no shard is missing; else exactly if no shard is missing and, after a passed check, range, search, notifications and write are in order |
| Survival.ProcessSurvivesExactly | internal/cmd/common.go:298-410 | over whole runs without `once` and preset end: still ready after all passes if and only if no pass met a missing shard, a range upside down (equal ends are not), a failed search, notification or write |
| Survival.HealthyRunSurvives | internal/cmd/common.go:298-410 | without presets and `once`: as long as the log serves what its heads commit to, notifications go out and the file can be seen and written, the process never ends by itself, whatever checks fail |
| Survival.SearchEffects | internal/cmd/common.go:338-384 | what an iteration searches and sends: nothing unless a search is due and succeeds; then the groups and the failures as far as the notifications went, the second not tried after the first failed |
| Survival.WriteEffects | internal/cmd/common.go:390-395 | when an iteration writes the file, and what a complete, a broken-off and an unopened write leave |
| Survival.HandOverEffects | internal/cmd/common.go:386-387 | a survived iteration hands its end on as the next start, and no end |
| Survival.NothingMonitored | internal/cmd/common.go:329-388 | with nothing to monitor no run searches or sends anything |
| LoopCoverage.LoopCoverageExactly | internal/cmd/common.go:298-410 | a run of the loop, after any covered history, stays covered if and only if every iteration that leaves a checkpoint in the file (and not the first) had searched or stored up to it |
| LoopCoverage.LoopKeepsCoverage | internal/cmd/common.go:298-410 | a run of the loop in which every check sees the file and no write breaks off before its first byte meets the condition: covered before, between and after all its iterations, however it ends, and the next run may build on it |
| LoopCoverage.BrokenWriteGap | internal/cmd/common.go:392-395 | two ordinary runs, the first ended by a write that fails after truncating the file, skip an index |
| LoopCoverage.PresetsExactly | internal/cmd/common.go:330-387 | after any covered history the first iteration stays covered if and only if the head was within the mark, or a search was made (preset start, or file seen), the preset start is within the mark and the preset end is not short of the head |
| LoopCoverage.PresetGap | internal/cmd/common.go:330-387 | a concrete run whose preset start leaves two indices unsearched |
| PresetStart.PresetStartExactly | internal/cmd/common.go:330-387 | over all runs of one process from an empty file, both versions, failed checks included: everything between a preset start and the first stored checkpoint is searched if and only if nothing is in between or the first head handed on has an end index (always in v1) |
| LoopCoverage.OversizedHeadExactly | cmd/rekor_monitor/main.go:246-248 | after any covered history a v2 iteration stays covered exactly when the head was within the mark, or its size is an int64 and the file could be seen |
| LoopCoverage.OversizedGap | cmd/rekor_monitor/main.go:246-248 | a concrete run that stores the first size past int64 unsearched |
| MonitorProtocol.GetCheckpointIndex | pkg/rekor/v1/identity.go:261-270 | the global index of a v1 checkpoint under wrapping int64 accumulation |
| MonitorProtocol.RangeIsGrowth | cmd/rekor_monitor/main.go:227-251 | the entries between the start and the end index of two checkpoints are exactly those the active shard gained, after all inactive shards |
| MonitorProtocol.ExecConcat | internal/cmd/common.go:314-409 | runs compose: a run followed by a run is a run |
| Incremental.ScansAbut | internal/cmd/common.go:329-388 | the searches of one process abut, each starting where the last one ended, whatever checks fail or cannot stat the file in between (in v2 unless such a check sees an empty log) |
| StoreChain.StoresAreLinked | pkg/rekor/v2/verifier.go:129-177 | for each replacement in the file, in every run: some check of the run proved the old checkpoint consistent with the current head of its own shard, and the new one was the latest shard's head in that check; or while the old one was the last stored, a write was lost or a check could not stat the file |
| StoreChain.SameOriginIsProved | pkg/rekor/v2/verifier.go:149-174 | a replacement of the same origin is itself the head that was proved, under the same alternative |
| StoreChain.StoresFormPrefixChain | pkg/rekor/v2/verifier.go:157-177 | over every stretch of one origin in which nothing was forgotten, whatever was before and after, stored sizes grow and every stored tree is a prefix of every later one |
| StoreChain.SkippedWriteIsSound | pkg/util/file/file.go:138-172 | in every run of either version: after an iteration with a non-empty head the stored size and root, in v2 also the origin, are the head's even if nothing was written; size 0 is never stored |
| Consistency.RunConsistencyCheckV2 | pkg/rekor/v2/verifier.go:120-178 | passes exactly when both heads are readable and the stored checkpoint is proved against its own shard; hands on the latest shard's head |
| Consistency.RunConsistencyCheckV1 | pkg/rekor/v1/verifier.go:99-138 | passes exactly when the log answers and the stored checkpoint, if any, is readable and proved consistent |
| CheckpointFile.RoundTrip | pkg/util/file/file.go:38-57 | write then read returns the text if and only if its line fits the scanner, has no trailing carriage return and no backslash before an n |
| CheckpointFile.UnescapeEscape | pkg/util/file/file.go:56-56 | unescaping an escaped text is unescaping the text |
| CheckpointFile.UnescapeIsIdentity | pkg/util/file/file.go:56-56 | unescaping changes a text if and only if it has a backslash before an n |
| CheckpointFile.RereadFlattened | pkg/util/file/file.go:128-135 | the stored form is read back as exactly one line or refused for its length |
| CheckpointFile.EscapeIsOneLine | pkg/util/file/file.go:128-135 | the stored form has no newline inside |
| CheckpointFile.EscapeExactly | pkg/util/file/file.go:130-130 | escaping goes character by character and replaces newlines only |
| CheckpointFile.UnescapeExactly | pkg/util/file/file.go:56-56 | unescaping replaces the first backslash before an n by a newline and goes on after it |
| CheckpointFile.TooLongExactly | pkg/util/file/file.go:47-55 | a file, of however many lines, cannot be scanned exactly if it has 65536 characters in a row without a newline |
| CheckpointFile.LastLineExactly | pkg/util/file/file.go:47-52 | of a file that can be scanned the last line is read, with or without its newline, without a carriage return at its end |
| CheckpointFile.WrittenIsSaved | pkg/util/file/file.go:75-88 | a checkpoint whose text the file can carry is the one the next check finds |
| CheckpointFile.LogInfoFile.ReadLastCheckpoint | pkg/util/file/file.go:38-57 | the last line of the file, unescaped; an over-long line is an error |
| CheckpointFile.LogInfoFile.Load | pkg/rekor/v2/verifier.go:136-143 | missing, empty or a failing stat call means no checkpoint, unreadable means an error |
| CheckpointFile.BrokenWriteReadsAs | pkg/util/file/file.go:128-135 | how a write that broke off is read back: nothing as an empty file, all but the newline as complete, anything else as the shorter text |
| CheckpointFile.FramedExactly | pkg/util/file/file.go:75-88 | no broken write passes for another checkpoint exactly when no proper prefix of the stored line parses to one |
| CheckpointFile.LogInfoFile.WriteCheckpoint | pkg/util/file/file.go:138-172 | when the file is written, what it holds after a complete, a broken-off and an unopened write, when that is an error, and that it is otherwise unchanged |
| TileClient.TileIndex | pkg/rekor/v2/client.go:191-199 | floor of the index over 256 from -1 on, in truncating, wrapping arithmetic |
| TileClient.GetEntriesFromTile | pkg/rekor/v2/client.go:201-222 | succeeds exactly when the bundle is served, with its entries numbered from the tile's base |
| TileClient.BundleExactly | pkg/rekor/v2/client.go:201-222 | when a bundle is served, and which log entries it holds, in numbers |
| TileClient.GetEntriesByIndexRange | pkg/rekor/v2/client.go:227-277 | sends a prefix of the plan, stops at the first refused request, succeeds exactly when all are served, and returns their unread entries |
| TileClient.PlanIsMinimal | pkg/rekor/v2/client.go:237-274 | the requested bundles are tiles (start+1)/256 to end/256, each once, ascending, all available in a tree of end+1 entries, the last at that tree's width |
| TileClient.AnsweredExactly | pkg/rekor/v2/client.go:227-277 | from start -1 on a call succeeds exactly when the log reaches end and each of those bundles is answered |
| TileClient.RangeRefinement | pkg/rekor/v2/client.go:224-277 | the result is the log slice from start+1 (or the shared tile's base) through end, containing (start, end] with at most 255 older entries |
| TileClient.ContainsExactly | pkg/rekor/v2/client.go:224-277 | for all int64 arguments a success contains (start, end] unless -256 <= start <= -2 and end >= 256 |
| TileClient.SkippedTile | pkg/rekor/v2/client.go:191-199 | such a call at an input: of 257 entries only the last is requested and entry 0 is not returned |
| TileClient.BoundedRepetition | pkg/rekor/v2/client.go:227-277 | over chained calls each new index is fetched between once and 256 - i mod 256 times |
| TileClient.RepetitionBoundIsTight | pkg/rekor/v2/client.go:259-274 | a log growing by one entry per call reaches that bound |
| BatchClient.GetEntriesByIndexRange | pkg/rekor/v1/client.go:47-81 | for all int64 arguments: succeeds exactly when the loop variable stays in int64, every batch is answered and the context lives, with exactly start+1 to end in order |
| BatchClient.BatchesPartition | pkg/rekor/v1/client.go:53-65 | the batches cut start+1 to end into ceil((end-start)/10) consecutive non-empty runs of at most ten |
| BatchClient.AnsweredExactly | pkg/rekor/v1/client.go:47-81 | the same in numbers: every index in the log, each run of ten answered, the context alive for all runs |
| Shards.FilterV2Shards | pkg/rekor/v2/client.go:61-81 | a permutation of exactly the eligible services, newest first, for any order the sort leaves among equals |
| Shards.GetOrigin | pkg/rekor/v2/client.go:181-188 | the URL text after scheme and separator, never empty |
| Shards.ShardsNeedUpdating | pkg/rekor/v2/client.go:83-122 | false exactly when sizes agree and every service is cached with its end; errors only if nothing differed before |
| Shards.GetRekorShards | pkg/rekor/v2/client.go:124-179 | the rebuilt map, and the first (newest) service's origin as the latest |
| Shards.CacheCheckIsExact | pkg/rekor/v2/client.go:83-122 | with distinct origins no update is asked for if and only if the cache equals a rebuild |
| Shards.DuplicateOriginsAlwaysUpdate | pkg/rekor/v2/client.go:91-94 | with duplicate origins a fresh rebuild already differs in size, so an update is always asked for |
| Shards.ShardsForCheck | cmd/rekor_monitor/main.go:175-197 | when the refresh succeeds; the logic's own shards and latest origin as long as the cache looks current, otherwise the rebuilt map and the newest service's origin; with distinct origins the map is always the rebuilt one |
| Shards.SameBuildExactly | pkg/rekor/v2/client.go:96-117 | two configs give the same cache if and only if they list the same origins with the same ends |
| Shards.NewestShardExactly | cmd/rekor_monitor/main.go:175-197 | with distinct origins the check uses the current config's newest shard if and only if some origin or end has changed since the cache was built, or the newest shard has not |
| Shards.SwappedStartsGoUnnoticed | pkg/rekor/v2/client.go:96-117 | when two shards trade starts the former newest one stays in use |
| Matching.VerifyMonitoredValues | pkg/identity/identity.go:257-287 | accepts exactly the non-empty sets of values without empty parts |
| Matching.MatchSubject | pkg/identity/identity.go:550-561 | whether a name matches, and the last one that does |
| Matching.CertMatchesPolicy | pkg/identity/identity.go:538-578 | error, match, matched subject and issuer, each exactly characterised for the issuer that the certificate names by positions in its extension list: what the first v2 issuer extension decodes to, if that is not empty, else the raw bytes of the first deprecated one |
| Matching.IssuerExactly | pkg/identity/identity.go:542-549 | every certificate names exactly one issuer in that sense, the one the code looks at |
| Matching.OIDMatchesPolicy | pkg/identity/identity.go:352-366 | matches the literal values on the first extension with the identifier |
| Matching.RowsEnumerate | pkg/rekor/v2/identity.go:74-93 | a stage reports exactly the matching pairs, each once, in loop order |
| Matching.RowsSucceedExactly | pkg/rekor/v2/identity.go:53-115 | a stage fails if and only if a value is unusable or a pair is an error |
| EntryScan.MatchLogEntryFingerprints | pkg/rekor/v1/identity.go:52-68 | one entry, with this log entry's index, for each pair of positions at which monitored and entry fingerprint are equal, in loop order, and no other |
| EntryScan.MatchLogEntrySubjects | pkg/rekor/v1/identity.go:92-112 | an error exactly if a pattern does not compile; else one entry for each pair of a pattern and a subject it matches |
| EntryScan.MatchLogEntryCertificateIdentities | pkg/rekor/v1/identity.go:70-90 | an error exactly if some certificate names an issuer and a pattern does not compile; else one entry for each pair of an identity and a certificate as it wants it, with the last matching name and the issuer |
| EntryScan.MatchLogEntryOIDs | pkg/rekor/v1/identity.go:114-135 | an error exactly if some first extension with a monitored identifier does not decode; else one entry for each pair of a matcher and a certificate in which it decodes to one of the values |
| Carried.FingerprintIsMatched | pkg/rekor/v1/identity.go:52-68 | of a trusted entry a fingerprint is reported if and only if it is in both lists, whatever later stages do |
| Carried.MatchedIsCarried | pkg/rekor/v2/identity.go:192-250 | every reported match is of a trusted entry that carries the value it was found by |
| Carried.CarriedIsMatched | pkg/rekor/v2/identity.go:192-250 | what a trusted entry carries is reported, unless its examination fails no later than at that stage |
| EntryScan.DispositionExactly | pkg/rekor/v2/identity.go:192-248 | which entries are skipped, fail at which stage, or are fully matched, from the entry and the patterns alone |
| EntryScan.FullyMatchedContents | pkg/rekor/v2/identity.go:216-247 | a fully matched entry contributes exactly the matching pairs of each stage, stage by stage |
| EntryScan.UnfinishedContents | pkg/rekor/v2/identity.go:194-246 | a skipped entry contributes nothing, a failed one exactly the matching pairs of the stages before the failure |
| EntryScan.EveryEntryAccountedFor | pkg/rekor/v2/identity.go:192-250 | skipped, failed and fully matched entries add up to all entries |
| EntryScan.MatchedIndices | pkg/rekor/v1/identity.go:138-212 | errors exactly on invalid values; otherwise the matches and failures of all entries in order |
| EntryScan.OneEntry | pkg/rekor/v1/identity.go:146-211 | a single entry yields its matches and, if its examination failed, one failure with its index and stage |
| EntryScan.SearchDistributes | pkg/rekor/v1/identity.go:146-211 | searching two stretches equals searching their concatenation |
| Grouping.CreateIdentitiesList | pkg/identity/identity.go:156-172 | subjects with their issuers, fingerprints, subjects and OID values, in order, and which values are listed |
| Grouping.SubjectsInOrder | pkg/identity/identity.go:159-162 | each subject pattern is followed by its own issuer patterns, in the order of the identities |
| Grouping.CreateMonitoredIdentities | pkg/identity/identity.go:177-219 | groups of distinct names, each holding, in input order, exactly the entries at the positions with a listed identity and its key, and none empty |
| Grouping.GroupsByValue | pkg/identity/identity.go:188-211 | of a search: each group is named after a fingerprint, subject, alternative name or extension value that occurs in the log entry of every match it holds; two matches share a group if and only if they were found by the same value |
| Grouping.EmptyNameExactly | pkg/identity/identity.go:188-198 | a group's name is empty exactly if a subject pattern met an empty subject or an empty last matching name |
| Grouping.EmptyNameGroup | pkg/identity/identity.go:188-198 | such a group at an input |
| Grouping.GroupingConserves | pkg/identity/identity.go:183-216 | the groups together hold exactly the grouped entries, as a multiset |
| Grouping.MatchIsListed | pkg/identity/identity.go:156-188 | every match has its identity in the identities list |
| Grouping.NothingDropped | pkg/identity/identity.go:177-219 | the groups hold exactly what the search matched |
| OidMatchers.ParseObjectIdentifier | pkg/fulcio/extensions/extensions.go:385-402 | succeeds exactly when every component is an int64 numeral, with those values |
| OidMatchers.AtoiExactly | pkg/fulcio/extensions/extensions.go:396-399 | a component is digits after at most one sign, within int64, with the value they denote |
| OidMatchers.PlacesExactly | pkg/fulcio/extensions/extensions.go:396-399 | which is decimal: appended digits shift by as many places |
| OidMatchers.DigitExactly | pkg/fulcio/extensions/extensions.go:396-399 | the ten digits and their values |
| OidMatchers.PrintExactly | pkg/fulcio/extensions/extensions.go:342-342 | the printed form is the components with single dots between them |
| OidMatchers.JoinOfSplit | pkg/fulcio/extensions/extensions.go:389-389 | the components, joined by dots, are the string |
| OidMatchers.ParseOfPrint | pkg/fulcio/extensions/extensions.go:385-402 | parsing the dotted form of a non-empty identifier returns it |
| OidMatchers.BlankComponentFails | pkg/fulcio/extensions/extensions.go:392-394 | any blank component makes the whole string an error |
| OidMatchers.OneMatcherPerIdentifier | pkg/fulcio/extensions/extensions.go:336-381 | the rendered identifiers are pairwise distinct if and only if no two keys of the map parse alike |
| OidMatchers.CanonicalKeysAreEnough | pkg/fulcio/extensions/extensions.go:336-381 | they are when every key is canonical |
| OidMatchers.PrintOfParse | pkg/fulcio/extensions/extensions.go:385-402 | printing what a string parses to returns it if and only if every component is canonical: no plus sign, leading zero or negative zero |
| OidMatchers.TwinExactly | pkg/fulcio/extensions/extensions.go:385-402 | a parseable key that is not canonical has a canonical twin for the same identifier; a canonical one is the only canonical key of its identifier |
| OidMatchers.TwoKeysOneOid | pkg/fulcio/extensions/extensions.go:355-361 | two different keys that parse to one identifier |
| OidMatchers.RenderOIDMatchers | pkg/fulcio/extensions/extensions.go:336-381 | one matcher per key with exactly the key's last values, duplicate-free; an error exactly when a key does not parse |
| OidMatchers.LastIsRendered | pkg/fulcio/extensions/extensions.go:336-381 | a matcher whose key no later one has is rendered, with exactly its values |
| OidMatchers.DirectIsRendered | pkg/fulcio/extensions/extensions.go:341-347 | a direct matcher is rendered under its own identifier with exactly its values, unless a later one has its printed form |
| OidMatchers.LastOccurrenceWins | pkg/fulcio/extensions/extensions.go:341-361 | a key's values are those of its last occurrence alone |
| OidMatchers.KeysAreTheOccurring | pkg/fulcio/extensions/extensions.go:339-361 | the rendered keys are exactly the configured ones |
| Retry.RetryConfig.Apply | pkg/util/retry.go:148-190 | an option sets its own field when in range and keeps the settings valid |
| Retry.OptionsKeepValid | pkg/util/retry.go:128-190 | any list of options yields valid settings |
| Retry.Run | pkg/util/retry.go:80-126 | number of calls and the reason for stopping, from outcomes, elapsed times and cancellations; the first pause is the initial one, each later one the multiplier times the one before, less than a nanosecond short, or MaxInterval exactly from where that product reaches it; the final return is never taken |
| Retry.GrowthDetermines | pkg/util/retry.go:117-121 | that growth law leaves one list of pauses of each length |
| Retry.GrowthIsBounded | pkg/util/retry.go:117-121 | no pause exceeds InitialInterval times the multiplier to the number of pauses before it |
| Retry.DefaultPauses | pkg/util/retry.go:34-42 | without options the pauses are 1 s, 1.5 s, 2.25 s and 3.375 s |
| Retry.LastOptionWins | pkg/util/retry.go:80-84 | each field has the value of the last option that sets it in range, or its default |
| Retry.CappingOnceSuffices | pkg/util/retry.go:117-121 | capping after every growth equals capping the uncapped sequence once |
| Retry.TotalSleepIsBounded | pkg/util/retry.go:94-123 | total pause at most InitialInterval + (MaxAttempts - 2) * MaxInterval, none with one attempt |
| IdentitySearch.MatchAndGroup | pkg/rekor/v1/identity.go:277-289 | succeeds exactly for valid values and writable files; the groups hold exactly the matches, the failures are those of the entries |
| IdentitySearch.FetchEntries | pkg/rekor/v2/identity.go:254-259 | succeeds exactly when all requests are answered, from start -1 on said of the answers alone; then with the entries start+1 to end (v1) or from the tile client's first index (v2) |
| IdentitySearch.Search | pkg/rekor/v1/identity.go:272-290 | succeeds exactly when fetching, the values and the output files allow; its groups and failures are exactly those of the fetched entries |
| IdentitySearch.MatchIsReported | pkg/rekor/v2/identity.go:253-274 | every match in an entry of the searched range is in the report's groups |
| IdentitySearch.ReportsByValue | pkg/rekor/v2/identity.go:253-274 | the same of every report: names occur in the log at the match's index, each match of the range is in the group of its value, and groups are shared exactly by equal values |
| IdentitySearch.FailureIsReported | pkg/rekor/v2/identity.go:253-274 | every entry of the range that could not be examined is among the report's failures |
| OneShot.SentEqualsFound | internal/cmd/common.go:348-384 | while a process runs and is not in the middle of notifying, the matches it has sent are as a multiset those its searches found, and the failures are theirs in order |
| OneShot.IncrementalEqualsOneShot | pkg/rekor/v1/identity.go:272-290 | over any v1 run of one process the matches sent equal as a multiset, and the failures sent in order, those of one search over the whole span |
| OneShot.AbuttingFetchesAddUp | pkg/rekor/v1/client.go:47-81 | abutting searches fetch each entry of the span once, in order |
| EndToEnd.BoundedReads | internal/cmd/common.go:386-387 | over any v2 run of one process every entry is read between once and 256 - i mod 256 times |
| EndToEnd.NoMatchIsLost | internal/cmd/common.go:342-395 | in every run whose checkpoints land within the mark, each match between the first and the current stored checkpoint is in a notification that was sent |
| EndToEnd.NoFailureIsLost | internal/cmd/common.go:367-383 | so is each entry there that could not be examined |
| EndToEnd.NoFingerprintIsLost | internal/cmd/common.go:342-395 | said of the log and the monitored values alone: in every such run a monitored fingerprint that a trusted entry there has was sent, in a group of that name |
| EndToEnd.NothingCarriedIsLost | internal/cmd/common.go:342-395 | and so was each subject, certificate and extension value it carries, or the entry as one that could not be examined |
| EndToEnd.LoopKeepsSent | internal/cmd/common.go:298-410 | in the loop the search results make every step honest: the true report of every recorded search was sent |
| EndToEnd.RunsLoseNothing | internal/cmd/common.go:298-410 | however often the loop is run, nothing between the first and the current stored checkpoint goes unsent, if the checkpoints land within the mark |
| EndToEnd.CarefulRunsLoseNothing | internal/cmd/common.go:298-410 | the same with conditions on what happens outside alone: every check sees the file, no write breaks off before its first byte, heads are within int64 |
| EndToEnd.CarefulRunsSendFingerprints | internal/cmd/common.go:298-410 | under the same conditions each monitored fingerprint of a trusted entry was sent |

## Left out

- Coverage.CoverageExactly: assumes monitored values (without them the source searches nothing), one shard, v1 indices within int64, heads that the file can carry (RoundTrip and FramedExactly say which), and a preset start not past the first stored checkpoint.
- Coverage.CrashSafeCoverage: assumes further that heads are within int64 and that there is no preset end; PresetsExactly and OversizedHeadExactly say what happens otherwise.
- Coverage.SearchesStartAtStore: assumes no presets, heads within int64 and a verifier that accepts no proof to a smaller tree.
- StoreChain.StoresAreLinked: assumes heads that the file can carry.
- Incremental.ScansAbut: in v2 assumes that no check which cannot stat the file sees an empty log; such a check makes the process forget where its last search ended. EndToEnd.BoundedReads rests on it.
- OneShot.IncrementalEqualsOneShot: speaks of a process that still runs and is not in the middle of notifying; one that dies there has sent part of the last report.
- PresetStart.PresetStartExactly: assumes that every check sees the file, no preset end, and a verifier that accepts no proof to a smaller tree.
- EndToEnd.NoMatchIsLost: assumes that a preset start is not below -1, where the v2 fetch can skip entries (ContainsExactly).
- Survival.HealthyRunSurvives: assumes one shard, heads the file can carry and within int64, and a verifier that accepts no proof to a smaller tree.
- MonitorLoop.Monitor.Run: takes finitely many ticks, the shutdown signal being the end of the list. A notification that reaches some of its receivers and then fails counts as not sent.
- TileClient.GetEntriesFromTile: a partial bundle request answered with a longer bundle is not modelled; the bundle is taken to have the requested width.
- EntryScan.MatchedIndices: a v1 response element is a map whose iteration order is arbitrary; the model takes the entries in the order iterated. Error texts are reduced to the failing stage.
- Shards.FilterV2Shards: takes the library sort's result as an argument, for every order it may leave among equal starts. Validity times are instants; Go's comparison of time values also looks at their location.
- Retry.Run: whether an error may be retried is given; the multiplier is an exact real, so float64 rounding and overflow of huge intervals are not modelled; the clock is an arbitrary function.
- Coverage across v2 shard migration and v1 shard rotation: start and end then belong to different numberings, which the source marks as unhandled; migration is covered by the chain results only.
- That the v2 identity search uses the logic's own shard map while the check uses the refreshed one: the scanning results assume one shard.
- The signature check of the stored v1 checkpoint is part of reading it: one that fails counts as an unreadable file.
- HTTP, TUF, TLS, PEM and X.509 parsing, signature verification, building consistency proofs: foreign code behind the parameters named above.
- Writing matched identities and their metadata to files, the notification senders, the metrics server, flags and YAML: plumbing; only success or failure is kept.
- The CT monitor: how much a fetch returns rests on the server there (section 4.6 of RFC 6962).
- RenderFulcioOIDMatchers field by field: long but easy; its output is an arbitrary list.
