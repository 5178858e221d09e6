# Tokenx engine: verified model

A Dafny model of the parts of Tokenx that decide numbers, names and files on their own, with proofs over every
input, every run and every reachable state. Check it with `dafny verify dfyconfig.toml`.

- `GaleRyser`, `TokenImputation`, `BatchImputation` (on `Sums`, `Ranking`): a reported total is split into buckets by
  fixed shares; a batch of totals is rounded so that rows and columns both add up, by a greedy fill of a 0/1 matrix.
  `TieBreaking`, `BatchTable`: which split and which table that is.
- `ModelMappings`: ordered `*` rules, their matching loop, and freezing user and bundled rules into one list.
- `ModelAliases`, `ModernClaude`: stripping dates and channel tags off model names until nothing is left to strip, and
  the canonical spelling of recent Claude names. `NameParts`, `ClaudeNames`: the same, told on the characters of a name.
- `TempNames`, `AtomicWrite`, `Publication`, `Durability`, `FileSystem`: publishing a file through a temporary neighbour
  and a rename, as a state machine over single file-system calls of many writers with failures, kills and power loss,
  and the helper as an imperative run of it.
- `CacheHeader`, `GenerationCache`, `CacheReading`, `RetryStreak`, `RetryDelays`, `RetryFailures`, `CacheWriter`: the
  generation cache file, its header bytes, which files are accepted and what a load makes of them, and the retry counter
  carried from save to save.
- `InputHealth`, `DataHealth`, `HealthHistory`, `HealthMerging`, `HealthIssues`, `HealthWire` (on `Ascending`): the health
  log, how it classifies inputs, its grouped summary in saturating arithmetic, merging, validation and the wire form.
- `Finalization`: which usage records survive, how they are named, and how the others are counted.
- `InputFootprint`, `Acquisition`, `MachineLabels`: bytes per client with a bounded total, the inventory that fills it, and
  machine labels by deepest root.

## What the proofs found

The last two assertions of the batch imputation do not hold for all batches. With the shipped shares, the batch of 42486
and 74731 leaves the rows 3 and 1 units short while the batch total lets only the last two buckets grow, by two units
each; the first row can place two units and the assertion on line 139 fires. No table of these two rows rounds both ways,
so no other fill could help. A batch succeeds if and only if, for each k, its k largest bucket gaps fit what its rows
can give to k buckets; this can be computed before the fill (`BatchImputation.BatchOutcome`). It always holds if no row
is more than two units short (`BatchImputation.AtMostTwoShortSucceeds`).

A rejection key that spells one of the five built-in issue names makes a summary that can be written and not read back.
The name is taken for that issue, whose handling and, for two of them, level differ, so the whole value is refused: the
wire form with a validation error, the cache file as undecodable. A log with one record rejected as `partial-input` is an
example (`HealthWire.ReservedLogIsRefused`); the round trips hold if and only if no kept input has rejected records under
such a key (`HealthWire.LogRoundTrip`, `GenerationCache.LoadOfLog`).

A durable write does not make its target durable if a writer that only makes its file visible renames onto the same target
before the directory sync: the sync then secures an entry whose content is not on the disk, and a power failure may leave
anything there (`Durability.MixedWritersLoseContent`). It does so exactly if the content at the target is on the disk when
the directory is synced, which is always the case among durable writers (`Durability.DurableWritersAreOnDisk`); among them
an acknowledged write is never rolled back (`Durability.NothingOlderComesBack`).

A save whose directory sync fails reports an error although its file is already in place, so the stored attempt has moved
on; the retry counter follows published saves, not successful ones (`RetryStreak.StoredAttemptIsStreak`).

## How to read the model

Machine integers are mathematical integers with their bounds written out: saturation, checked addition and overflow
appear as such. Panics and errors are outcomes. Where the source updates an object or an array in place, a class or an
array method is proved equal to a function, and the lemmas are about that function; where it works step by step on the
file system, the class `FileSystem.Disk` takes steps of the state machine `AtomicWrite`.

Shares are any numerators that add up to the denominator; `TokenImputation.BUNDLED` are the shipped ones. The clock is a
parameter. The hash, the serializer, the compressor and the digest of the failure list are functions in
`GenerationCache.Env`; `Faithful` says that the serializer and the compressor can be undone and that no failure signature
is all zero. A digest of 32 bytes cannot tell all lists of failures apart, so what follows from different signatures is
stated for the two lists at hand (`RetryFailures.NoCollision`). Labels and trimmed text are read as ASCII; model names that are not ASCII are left alone, as in the source.

## Model

| member | source | states |
|---|---|---|
| `GaleRyser.GreedyIsComplete` | crates/tokenx-engine/src/token_imputation.rs:104-146 | For any needs and capacities of equal sum, any row order and any tie-breaking: the largest-capacity-first fill serves every row if and only if some 0/1 matrix with these row and column sums exists, if and only if no set of columns holds more than the rows can give it; serving every row and emptying every column are the same; what was placed is then such a matrix, and in every case what was placed plus what is left accounts for the start |
| `GaleRyser.ServingLargestKeepsBalance` | crates/tokenx-engine/src/token_imputation.rs:112-137 | The exchange argument: serving one row from the largest capacities leaves no set of columns over-subscribed by the remaining rows |
| `GaleRyser.NoOverdraft` | crates/tokenx-engine/src/token_imputation.rs:126-136 | For every set of columns, what is left of its capacity after serving a row from the largest fits what the other rows can give |
| `GaleRyser.FillingIsBalanced` | crates/tokenx-engine/src/token_imputation.rs:139-146 | Any matrix with the given sums, found in whatever way, respects every set of columns (double counting) |
| `GaleRyser.DrawIsLargest` | crates/tokenx-engine/src/token_imputation.rs:118-136 | No column left out has more capacity than one drawn from, and a row that gets fewer units than it needs takes every column that has capacity |
| `GaleRyser.ServeAllAccounts` | crates/tokenx-engine/src/token_imputation.rs:112-137 | For every fill: per row, units placed plus need left is the original need; per column, likewise for capacity |
| `GaleRyser.BalancedIsPlaceable` | crates/tokenx-engine/src/token_imputation.rs:139-146 | The condition over all column sets is decided by the k largest columns alone, a check that can be computed before the fill |
| `GaleRyser.AtMostTwoIsBalanced` | crates/tokenx-engine/src/token_imputation.rs:97-146 | With needs of at most two and no capacity above the number of rows in need, no set of columns is over-subscribed |
| `BatchImputation.BatchRounds` | crates/tokenx-engine/src/token_imputation.rs:53-158 | A batch returns rows if and only if some table exists whose cells are floors or floors plus one, whose rows add up to their totals and whose columns add up to the single imputation of the batch total; what it returns is such a table |
| `BatchTable.BatchIsWalked` | crates/tokenx-engine/src/token_imputation.rs:53-158 | Which rows a batch returns, on totals, shares and gaps alone: it returns them if and only if, with the rows visited by larger need, then smaller index, each row gives its units to the open buckets that lead by remaining gap, then by total times numerator modulo denominator, then by index, every row places what it lacks, the gaps end at zero, and the rows are the floors plus these units |
| `BatchTable.WalkIsDetermined` | crates/tokenx-engine/src/token_imputation.rs:104-137 | That description determines needs, order and units, and so the rows |
| `TieBreaking.DrawnExactly` | crates/tokenx-engine/src/token_imputation.rs:118-136 | A bucket gets a unit of a row exactly if it has capacity and fewer buckets than the row needs come before it by capacity, remainder and index |
| `TieBreaking.RowOrderIsUnique` | crates/tokenx-engine/src/token_imputation.rs:104-110 | There is one order of the rows by larger need, then smaller index |
| `BatchImputation.BatchOutcome` | crates/tokenx-engine/src/token_imputation.rs:98-146 | A non-empty batch whose positive totals fit ends in rows or in the first final assertion, never in the floor check or the second assertion; it ends in rows exactly when the capacities are placeable |
| `BatchImputation.GapBounds` | crates/tokenx-engine/src/token_imputation.rs:97-102 | For every batch and bucket the summed floors do not exceed the target, so the capacity subtraction cannot panic, and the capacity is at most the number of rows in need |
| `BatchImputation.GapsSum` | crates/tokenx-engine/src/token_imputation.rs:97-137 | Total capacity equals total need |
| `BatchImputation.AtMostTwoShortSucceeds` | crates/tokenx-engine/src/token_imputation.rs:97-146 | If no row is more than two units short of its total, the batch succeeds |
| `BatchImputation.SinglePositiveTotal` | crates/tokenx-engine/src/token_imputation.rs:53-158 | A batch with one positive total succeeds and gives that row the single imputation of it |
| `BatchImputation.UnroundableBatchFails` | crates/tokenx-engine/src/token_imputation.rs:139-142 | With the shipped shares the totals 42486 and 74731 make the first final assertion fire, and no table of these rows rounds both ways |
| `BatchImputation.ImputeBatch` | crates/tokenx-engine/src/token_imputation.rs:53-158 | The loops over arrays, from the checked sum to the two assertions, end in exactly the specified outcome |
| `BatchImputation.FillRows` | crates/tokenx-engine/src/token_imputation.rs:112-137 | Rows visited in need order, each bumped in place, are the floors plus the units of the specified fill, with its needs and capacities left |
| `BatchImputation.SumPositive` | crates/tokenx-engine/src/token_imputation.rs:58-63 | The sum of the positive totals, or overflow exactly when it exceeds the 64-bit maximum |
| `TokenImputation.ImputeIsExact` | crates/tokenx-engine/src/token_imputation.rs:13-51 | The five buckets add up to the total |
| `TieBreaking.ImputedExactly` | crates/tokenx-engine/src/token_imputation.rs:20-41 | Each bucket is total times numerator divided by denominator, and one more exactly if fewer buckets than units are missing come before it by remainder, then index |
| `TokenImputation.FloorRemainder` | crates/tokenx-engine/src/token_imputation.rs:25-30 | Floor and remainder of a bucket are quotient and remainder of total times numerator by the denominator |
| `TokenImputation.ImputeKeepsQuota` | crates/tokenx-engine/src/token_imputation.rs:25-41 | Every bucket lies strictly within one unit of its exact share |
| `TokenImputation.WholeShareIsKept` | crates/tokenx-engine/src/token_imputation.rs:32-41 | A bucket with remainder zero is never rounded up |
| `TokenImputation.BumpedLeads` | crates/tokenx-engine/src/token_imputation.rs:32-41 | The buckets rounded up are as many as units are missing, and each comes before each other bucket by remainder, then by index |
| `TokenImputation.ImputeDeviatesLeast` | crates/tokenx-engine/src/token_imputation.rs:13-51 | No split of the total into integers, negative ones included, has a smaller sum of absolute deviations from the exact shares |
| `TokenImputation.ImputeTotal` | crates/tokenx-engine/src/token_imputation.rs:20-41 | The array loops compute the specified split |
| `TokenImputation.ImputeTotalOnlyBreakdown` | crates/tokenx-engine/src/token_imputation.rs:43-50 | Input, output, cache read, cache write and reasoning are the five buckets in this order; there are no one-hour writes, and the breakdown adds up to the total |
| `TokenImputation.NonPositiveIsEmpty` | crates/tokenx-engine/src/token_imputation.rs:14-16 | Totals of zero or less split into zeros |
| `TokenImputation.BundledIsProper` | crates/tokenx-engine/src/token_imputation.rs:3-10 | The shipped numerators add up to the shipped denominator |
| `Ranking.LeadingIsUnique` | crates/tokenx-engine/src/token_imputation.rs:33-38 | A set of a given size that comes first under the sort order is determined, so an unstable detail of sorting cannot matter |
| `ModelMappings.WildcardMatches` | crates/tokenx-engine/src/model_mappings.rs:145-170 | For every pattern and value the one-star backtracking loop ends, and returns true exactly when the recursive full-string match holds |
| `ModelMappings.Backtrack` | crates/tokenx-engine/src/model_mappings.rs:157-165 | If the pattern behind the remembered star fails at the current position, a match with the star exists only if one exists with the star longer by one |
| `ModelMappings.StarMatches` | crates/tokenx-engine/src/model_mappings.rs:144-170 | Text without a star, then a star, then any pattern matches exactly the values that begin with the same text up to ASCII case and, behind any stretch, end in a match of that pattern |
| `ModelMappings.LiteralMatches` | crates/tokenx-engine/src/model_mappings.rs:144-170 | A pattern without a star matches exactly the same text up to ASCII case |
| `ModelMappings.NextStar` | crates/tokenx-engine/src/model_mappings.rs:150-156 | Forgetting an earlier star when a later one is reached loses no match |
| `ModelMappings.CaseIsIgnored` | crates/tokenx-engine/src/model_mappings.rs:144-170 | Lower-casing ASCII letters of pattern and value changes no match |
| `ModelMappings.FirstHitIsLeast` | crates/tokenx-engine/src/model_mappings.rs:133-142 | The target is that of the least rule index that hits any spelling; there is none exactly when no rule hits |
| `ModelMappings.CanonicalNameIsExact` | crates/tokenx-engine/src/model_mappings.rs:106-130 | On rule indices and spellings: the name is the target of the least user rule that matches a spelling; if none does and the bundled rules are on, that of the least such bundled rule; otherwise the normalized decoded name; every observation has exactly one |
| `ModelMappings.CanonicalizeObservation` | crates/tokenx-engine/src/model_mappings.rs:106-130 | Trying the user rules, then the bundled ones if they are on, and falling back to the normalized name gives that name |
| `ModelMappings.SpellingOrderIsIrrelevant` | crates/tokenx-engine/src/model_mappings.rs:115-124 | Reordering or repeating spellings changes no target |
| `ModelMappings.MatchRules` | crates/tokenx-engine/src/model_mappings.rs:133-142 | Trying each rule on all spellings with the matching loop gives the first hit |
| `ModelMappings.FirstHitAppended` | crates/tokenx-engine/src/model_mappings.rs:121-128 | First match over appended lists is first match over one, then over the other |
| `ModelMappings.ResolvedKeepsNames` | crates/tokenx-engine/src/model_mappings.rs:71-77 | A name is the canonical one of an observation under the frozen list, whatever a later build bundles, exactly if it is under the original rules, and freezing again changes nothing |
| `TempNames.TempPathInjective` | crates/tokenx-engine/src/fs_atomic.rs:140-149 | Different target, process or counter value give different temporary paths |
| `AtomicWrite.StepKeepsSound` | crates/tokenx-engine/src/fs_atomic.rs:50-138 | Every call, kill and power failure keeps: names handed out once, every open temporary file at its own name and nowhere else, complete content before the rename |
| `Publication.TargetIsAlwaysWhole` | crates/tokenx-engine/src/fs_atomic.rs:9-48 | Over every run of any number of writers failing or killed at any call, the target has its initial content or the complete payload of a writer that has renamed it there, and with durable writers also after power failures |
| `Publication.TouchesOnlyItsOwn` | crates/tokenx-engine/src/fs_atomic.rs:98-138 | A call changes no entry but its target and its temporary name, no content but that of its own temporary file, creates only where nothing was, and renames and removes only the file it created |
| `Publication.OnlyReplaceChangesTarget` | crates/tokenx-engine/src/fs_atomic.rs:112-138 | Every call but the rename leaves the target with its entry and content |
| `Publication.QuietRunKeepsTarget` | crates/tokenx-engine/src/fs_atomic.rs:112-138 | Over any run without a rename onto it, the target keeps entry and content, through power failures if they had reached the disk |
| `Publication.ReaderKeepsVersion` | crates/tokenx-engine/src/fs_atomic.rs:35-42 | A reader that opened the target in any sound state keeps the content it opened through any later run |
| `Durability.SyncSecures` | crates/tokenx-engine/src/fs_atomic.rs:126-129 | The directory sync leaves the target as it was and its entry on the disk; entry and content are both secured exactly if the content had reached the disk before |
| `Durability.AcknowledgedWriteLasts` | crates/tokenx-engine/src/fs_atomic.rs:9-17 | If the content at the target had reached the disk when a durable write synced the directory, the target keeps it through any kills and power failures until somebody renames onto it |
| `Durability.UnsyncedContentIsLost` | crates/tokenx-engine/src/fs_atomic.rs:35-48 | If it had not, a power failure right behind the sync may leave any content whatever at the target, so the condition is exact |
| `Durability.MixedWritersLoseContent` | crates/tokenx-engine/src/fs_atomic.rs:28-48 | From an empty disk: a durable writer and one that only makes its file visible rename onto one target in this order, the durable one syncs the directory, and a power failure leaves any content |
| `Durability.DurableWritersAreOnDisk` | crates/tokenx-engine/src/fs_atomic.rs:9-17 | With durable writers only, the content at their target has always reached the disk, so the condition holds |
| `Durability.NothingOlderComesBack` | crates/tokenx-engine/src/fs_atomic.rs:9-17 | An acknowledged write is never rolled back: under that condition, if all writers of the target are durable, over any later run with further renames, kills and power failures, the target is as it was at the sync or holds the complete payload of a writer that has renamed since |
| `Durability.CanRename` | crates/tokenx-engine/src/fs_atomic.rs:64-88 | Every writer that finds its temporary name free can get to its rename, and then exactly its target, one file and its counter have changed |
| `Publication.FailedWriterCleansUp` | crates/tokenx-engine/src/fs_atomic.rs:133-137 | A writer that had a file and returned an error has attempted to remove its temporary file |
| `FileSystem.Disk.WriteAtomic` | crates/tokenx-engine/src/fs_atomic.rs:50-88 | The helper as a sequence of calls that may each fail: on success the target has the payload; on failure it is as before unless only the directory sync behind the rename failed; every call it makes is a legal step of the state machine |
| `FileSystem.Disk.ChooseName` | crates/tokenx-engine/src/fs_atomic.rs:64-74 | The calls made are a taken name for each collision, then, after fewer than sixteen of them, a free name or a creation that fails with another error under a free or taken name; or sixteen collisions; the target is untouched |
| `FileSystem.Disk.WriteOpenTemp` | crates/tokenx-engine/src/fs_atomic.rs:112-138 | On success the calls made are exactly writes, flush, sync, rename and, if durable, directory sync, in this order; on failure exactly the calls before some point of it, the failing call and one removal attempt |
| `InputHealth.SummaryCountsTheLog` | crates/tokenx-engine/src/input_health.rs:540-713 | For every log, rejected, partial, failed and total issue counts of the summary equal the log's own saturating counts |
| `HealthIssues.SummaryListsTheLog` | crates/tokenx-engine/src/input_health.rs:623-713 | For every client, no client included, and every kind by name: the summary has an issue exactly if the log has such inputs, rejections or diagnostics; its affected count is their saturated number, its rejected count their saturated amount, its level and handling the named ones |
| `HealthIssues.SummaryIsOrdered` | crates/tokenx-engine/src/input_health.rs:628-713 | Issues stand in the order of level, then client, none first, then kind, rejections by reason |
| `HealthIssues.CountersAreExact` | crates/tokenx-engine/src/input_health.rs:540-565 | The counters of a log are the numbers of its rejected records, partial inputs and unavailable inputs, saturated once |
| `HealthIssues.IssuesAreCounted` | crates/tokenx-engine/src/input_health.rs:607-616 | The issue count is the number of rejected records, partial inputs, unavailable inputs and diagnostics together, as long as that fits a word |
| `InputHealth.SummaryValidates` | crates/tokenx-engine/src/input_health.rs:770-790 | The summary of every log is accepted by validation |
| `InputHealth.GroupedByKey` | crates/tokenx-engine/src/input_health.rs:623-713 | Grouping in place gives each key exactly the saturated count and amount of its own entries, and no key without an entry |
| `InputHealth.SatSumIsSat` | crates/tokenx-engine/src/input_health.rs:540-545 | Saturating at every addition, and in the summands, is saturating the exact sum once |
| `InputHealth.ValidateIssuesIsSound` | crates/tokenx-engine/src/input_health.rs:770-780 | Validation accepts the issues exactly when each is coherent in itself and no client has one kind twice |
| `InputHealth.ValidateIsExact` | crates/tokenx-engine/src/input_health.rs:770-790 | A summary is valid exactly when each issue is, no client has one kind twice, and degraded inputs come with a warning |
| `HealthWire.ValidIssueIsWritten` | crates/tokenx-engine/src/input_health.rs:926-977 | Kind by kind with level, handling, rejected count and written names spelled out: exactly which issues are valid and how they are written |
| `HealthHistory.RecordingClassifies` | crates/tokenx-engine/src/input_health.rs:466-482 | While no more inputs are known than were examined, recording an input adds one to the examined inputs and one to the class of its own state (clean, degraded, partial or failed) and to no other; if only a diagnostic had named it before and it is not clean, it gives up that place among the degraded |
| `HealthHistory.CleanIsExact` | crates/tokenx-engine/src/input_health.rs:452-454 | An input is clean exactly if it was read to the end and no reason has a rejected record |
| `HealthHistory.LogOfHistory` | crates/tokenx-engine/src/input_health.rs:466-530 | However a log is built from records, diagnostics and merges, it has examined every recorded input and keeps exactly those that are not clean |
| `HealthHistory.RecordsAddUp` | crates/tokenx-engine/src/input_health.rs:547-605 | For every such log the clean, degraded, partial and failed inputs add up to the recorded ones if and only if no more inputs are known from diagnostics alone than were recorded as clean |
| `HealthHistory.DiagnosedRecordsAddUp` | crates/tokenx-engine/src/input_health.rs:547-605 | If diagnostics name recorded inputs only, the four classes add up to the recorded inputs |
| `DataHealth.HealthLog.Merge` | crates/tokenx-engine/src/input_health.rs:484-488 | Appends inputs and diagnostics and adds the examined counts, saturating |
| `DataHealth.HealthLog.Summarized` | crates/tokenx-engine/src/input_health.rs:623-713 | The loops over inputs, rejections and diagnostics that update a map in place compute the specified summary |
| `DataHealth.RejectionCounter.RecordKey` | crates/tokenx-engine/src/input_health.rs:350-353 | Adds one to one key, saturating, and changes no other |
| `DataHealth.RejectionCounter.Merge` | crates/tokenx-engine/src/input_health.rs:366-371 | Adds another counter key by key |
| `DataHealth.MergedCounts` | crates/tokenx-engine/src/input_health.rs:366-371 | After a merge each key has the saturated sum of both counts, and the keys are those of both |
| `HealthMerging.MergeOrderIsIrrelevant` | crates/tokenx-engine/src/input_health.rs:484-488 | Any two ways to merge the same logs, in any order and grouping, give equal summaries, clean and degraded counts included |
| `HealthWire.SummaryRoundTrip` | crates/tokenx-engine/src/input_health.rs:846-909 | A summary comes back from its wire form if and only if it is valid and none of its rejection keys is a reserved name |
| `HealthWire.AcceptedWireIsExact` | crates/tokenx-engine/src/input_health.rs:867-909 | An accepted wire value carries the derived counters recomputed from its issues, writes back to itself, and is valid |
| `HealthWire.IssueRoundTrip` | crates/tokenx-engine/src/input_health.rs:95-116 | A kind survives its key exactly when it is not a rejection under a reserved name |
| `HealthWire.ReservedIsRefused` | crates/tokenx-engine/src/input_health.rs:926-977 | A valid summary with a reserved rejection key is refused when it is read back, never taken for another one: its handling fits no built-in kind |
| `HealthWire.LogRoundTrip` | crates/tokenx-engine/src/input_health.rs:846-909 | The summary of a log comes back from its wire form as it was, or is refused exactly if some kept input has rejected records under a reserved key |
| `HealthWire.ReservedLogIsRefused` | crates/tokenx-engine/src/input_health.rs:95-116 | One input with one record rejected as partial-input gives a valid summary whose wire form is refused for its level |
| `CacheHeader.EncodeThenDecode` | crates/tokenx/src/generation_cache.rs:511-587 | A header decodes to itself in front of any body, and is refused exactly when its retry fields contradict each other |
| `CacheHeader.DecodeThenEncode` | crates/tokenx/src/generation_cache.rs:529-587 | Bytes that are accepted are exactly the encoding of the header they decode to |
| `CacheHeader.WordRoundTrip` | crates/tokenx/src/generation_cache.rs:808-814 | Little-endian words are read back |
| `CacheHeader.HeaderIsLaidOut` | crates/tokenx/src/generation_cache.rs:511-527 | Byte by byte: magic, schema version, the numbers with their low byte first, both digests and the header digest stand at these offsets |
| `CacheHeader.EncodeInPlace` | crates/tokenx/src/generation_cache.rs:511-527 | Filling the zeroed buffer field by field, digest last, gives the specified bytes |
| `GenerationCache.LoadAfterSave` | crates/tokenx/src/generation_cache.rs:304-430 | Whatever a save wrote over whatever file, a load under the same configuration at any later clock answers fresh, deferred or stale exactly by health, age and due time, or a decode failure exactly if a rejection key is reserved |
| `GenerationCache.LoadElsewhere` | crates/tokenx/src/generation_cache.rs:365-391 | Under another configuration the file counts as missing, and before its own save as a clock failure |
| `GenerationCache.ReservedReasonIsRefused` | crates/tokenx/src/generation_cache.rs:596-720 | A generation with a rejection key that spells a built-in kind is saved without an error, and its file is refused as a decode failure under every configuration and at every clock |
| `GenerationCache.LoadOfLog` | crates/tokenx/src/generation_cache.rs:304-430 | A saved generation that carries the summary of a log is accepted if and only if no kept input of the log has rejected records under a reserved key; otherwise it is a decode failure |
| `GenerationCache.RetryTestsAgree` | crates/tokenx/src/generation_cache.rs:456-468 | On valid health the retry counters and the retryable issues agree, so the two refusals for disagreement cannot occur |
| `GenerationCache.SavedFileDecodes` | crates/tokenx/src/generation_cache.rs:596-720 | The reader's checks all pass on a saved file and give back time, schedule and generation |
| `CacheReading.AcceptedIsExact` | crates/tokenx/src/generation_cache.rs:596-720 | Whoever wrote it, a file is accepted if and only if it is an encoded header with sound retry fields, followed by a body of its length and digest that unpacks, to its decoded length, to the wire form of a valid, coherent generation without reserved keys, and the header has the signature of its failures, or none if nothing is to be retried; both lengths positive and within the limit |
| `CacheReading.LoadOfCacheFile` | crates/tokenx/src/generation_cache.rs:304-430 | For every such file, whoever wrote it, at every clock: missing under another configuration, a clock failure before its save, deferred or stale with the schedule of the header and the clients its issues name, fresh up to five minutes, or stale |
| `CacheReading.LoadOfOther` | crates/tokenx/src/generation_cache.rs:304-430 | Every other file is a decode failure under every configuration and at every clock |
| `GenerationCache.PreviousFits` | crates/tokenx/src/generation_cache.rs:273-302 | A schedule taken over from an earlier file has a positive 32-bit attempt and a signature that is not all zero |
| `GenerationCache.DelayGrows` | crates/tokenx/src/generation_cache.rs:121-124 | The delay never shrinks as the attempt grows and stays between five minutes and six hours |
| `RetryFailures.DelayDoubles` | crates/tokenx/src/generation_cache.rs:121-124 | The first delay is five minutes, and every later one twice the one before, at most six hours |
| `RetryFailures.FailuresAreCarried` | crates/tokenx/src/generation_cache.rs:72-109 | Client, kind by name, affected and rejected count: each such failure enters the signature exactly as often as partial or unavailable issues carry it |
| `RetryFailures.SignaturesAgree` | crates/tokenx/src/generation_cache.rs:72-109 | Two generations whose retryable issues agree as multisets of these four fields have one signature, and without a collision of the digest only these |
| `RetryFailures.MetadataIsExact` | crates/tokenx/src/generation_cache.rs:72-109 | There is a schedule exactly if some issue is retryable, and its clients are those that retryable issues name |
| `RetryFailures.DifferentFailuresRestart` | crates/tokenx/src/generation_cache.rs:111-131 | Over any history: behind a published save, a save with the same retryable issues is one attempt later, and one whose issues differ starts again at one, due in five minutes |
| `RetryFailures.SaveSucceeds` | crates/tokenx/src/generation_cache.rs:439-482 | A save succeeds exactly for valid health and coherent generations within the size limits in which retryable issues, if any, name a client |
| `RetryFailures.PreviousIsExact` | crates/tokenx/src/generation_cache.rs:273-302 | A schedule is taken over exactly from a file of a header with a signature and of as many body bytes as it says, and then as it stands there |
| `RetryStreak.StoredAttemptIsStreak` | crates/tokenx/src/generation_cache.rs:111-131 | On whatever file a history begins, over every history of saves (returned, failed before or failed behind their rename, with or without a readable previous header), body damage and lost headers, the stored attempt is the length of the current streak of published saves with the same failure signature, capped at 32 bits; nothing is stored without a streak |
| `RetryStreak.EveryFileStartsAStreak` | crates/tokenx/src/generation_cache.rs:273-302 | Every file, readable or not, stores some streak to begin with |
| `RetryStreak.ScheduledDelay` | crates/tokenx/src/generation_cache.rs:439-509 | The schedule a save computes is the one of the streak it extends, due one delay after the save; it counts as soon as the file is renamed, even if the save then reports an error, and not at all before |
| `RetryDelays.DelaysNeverShrink` | crates/tokenx/src/generation_cache.rs:111-131 | Of two saves of one streak in any history, the later has the higher attempt, by one more than the published saves between them and up to 32 bits, and no shorter delay |
| `RetryDelays.StreakGrows` | crates/tokenx/src/generation_cache.rs:273-302 | Through events that neither end it nor start another, a streak grows by exactly the published saves |
| `RetryStreak.SavedRetryIsReadBack` | crates/tokenx/src/generation_cache.rs:273-302 | The schedule a save writes is the one the next save reads |
| `RetryStreak.BodyDamageKeepsPrevious` | crates/tokenx/src/generation_cache.rs:293-301 | Changing body bytes but not their number changes nothing the next save takes over |
| `CacheWriter.DigestingWriter.Write` | crates/tokenx/src/generation_cache.rs:745-765 | Refuses before writing anything if the offered bytes pass the limit; hashes exactly the bytes the file took |
| `CacheWriter.WriteCacheFile` | crates/tokenx/src/generation_cache.rs:483-506 | Placeholder, streamed body and rewritten header make exactly header plus body, and fail exactly when the body passes the limit |
| `CacheWriter.SaveGeneration` | crates/tokenx/src/generation_cache.rs:439-509 | The save as it runs, over any chunking of the body, has the specified result |
| `ModelAliases.StripErasesOnePiece` | crates/tokenx-engine/src/model_aliases.rs:218-251 | A strip erases one date, marker or free tag, and finds one exactly when the name has one |
| `NameParts.FirstPieceIsStripped` | crates/tokenx-engine/src/model_aliases.rs:182-251 | Which piece a strip erases: a date, else the marker, else an ending free tag, else an inner one in the order of the three tags; of the same kind the leftmost |
| `NameParts.TurnsAreDetermined` | crates/tokenx-engine/src/model_aliases.rs:182-198 | There is one way to go on like this until nothing is left |
| `NameParts.StrippedTurnByTurn` | crates/tokenx-engine/src/model_aliases.rs:182-198 | The result is where that way ends |
| `NameParts.CandidateIsExact` | crates/tokenx-engine/src/model_aliases.rs:247-251 | A name is a candidate exactly if claude or one of the four families stands in it as a whole word |
| `ModelAliases.StrippedByErasing` | crates/tokenx-engine/src/model_aliases.rs:182-198 | The result is reached from the name by erasing such pieces only |
| `ModelAliases.StrippedIsStable` | crates/tokenx-engine/src/model_aliases.rs:182-198 | The result has nothing left to erase, a second run changes nothing, and exactly the names without such a piece are kept |
| `ModelAliases.StripToStable` | crates/tokenx-engine/src/model_aliases.rs:182-198 | The loop ends, since every strip shortens the name, with the specified result |
| `ModelAliases.CleanedIsStable` | crates/tokenx-engine/src/model_aliases.rs:55-62 | For every name, ASCII or not: an ASCII name is cleaned to a stable ASCII name, any other is left alone, and cleaning twice is cleaning once |
| `ModelAliases.Clean` | crates/tokenx-engine/src/model_aliases.rs:55-62 | The guard and the loop clean as specified |
| `ModelAliases.ReleaseIsErasable` | crates/tokenx-engine/src/model_aliases.rs:463-521 | What the date strippers cut off is a dash and a date of one of the four shapes at the end |
| `ModelAliases.DateIsStripped` | crates/tokenx-engine/src/model_aliases.rs:463-521 | Every name that ends in such a dash and date, with something before it, is cut |
| `ModernClaude.CanonicalizeModernClaude` | crates/tokenx-engine/src/model_aliases.rs:397-445 | The two scans return the find at the first window of three that has one, or else at the first family word that has one, or else nothing |
| `ModernClaude.FirstFindIsUnique` | crates/tokenx-engine/src/model_aliases.rs:406-444 | That description determines the answer |
| `ClaudeNames.ClaudeNameIsExact` | crates/tokenx-engine/src/model_aliases.rs:397-461 | From the characters: in the last segment without its thinking ending, the words are all maximal stretches of letters and digits; the answer is the family and its two digits of the first three words in a row that have them, in either order, else the first family with a digit behind it, at the end or before a date or tier, or before it behind no number, else nothing |
| `ModernClaude.EmittedIsFixed` | crates/tokenx-engine/src/model_aliases.rs:397-445 | Every emitted name is mapped to itself and only to itself, and stripping leaves it alone |
| `Finalization.VerdictIsExact` | crates/tokenx-engine/src/finalization.rs:117-153 | A record is accepted exactly when it is well-formed with a positive total, filtered exactly when well-formed with all buckets zero; an accepted total is the checked sum and fits its word |
| `Finalization.InvalidUsageIsReported` | crates/tokenx-engine/src/finalization.rs:131-148 | A record with a model, a session and a time in range is rejected as an invalid usage record exactly if it is not well-formed |
| `Finalization.CheckedTotalIsSum` | crates/tokenx-engine/src/finalization.rs:14-26 | Over non-negative buckets the checked fold gives the exact sum or fails exactly on overflow |
| `Finalization.KeptInOrder` | crates/tokenx-engine/src/finalization.rs:155-168 | The kept records stand unchanged at strictly ascending places of the input, and those places are exactly the accepted ones |
| `Finalization.EveryRecordIsAccountedFor` | crates/tokenx-engine/src/finalization.rs:155-168 | Kept, empty and rejected records add up to the input |
| `Finalization.CountedTotal` | crates/tokenx-engine/src/finalization.rs:162-165 | The rejection counter's saturating total is the number of rejections, capped at the word size |
| `Finalization.RejectionsByReason` | crates/tokenx-engine/src/finalization.rs:117-168 | For each of the four reasons by name, its count is the saturated number of records with this defect and none of the earlier ones |
| `Finalization.PricedInOrder` | crates/tokenx-engine/src/finalization.rs:170-202 | The second pass keeps, at strictly ascending places, exactly the records whose pricing does not fail; each has the canonical name of its observation, the provider of that name and the estimate of the record so named, and is otherwise unchanged |
| `Finalization.FailuresByReason` | crates/tokenx-engine/src/finalization.rs:183-199 | Every record whose pricing fails is counted, under its reason by name |
| `Finalization.Finalized` | crates/tokenx-engine/src/finalization.rs:155-202 | Through both passes no record is lost unaccounted, both counters are right, and every survivor has non-negative buckets, one-hour writes within cache writes and a positive total that fits |
| `Finalization.FrozenRulesPriceAlike` | crates/tokenx-engine/src/finalization.rs:85-109 | Replacing the name rules by their frozen list changes no priced record and no rejection |
| `Finalization.NameOnce` | crates/tokenx-engine/src/finalization.rs:85-109 | A look-up through the memo gives the canonical name of the observation, and keeps the memo right |
| `Finalization.MessageBatch.RetainEligible` | crates/tokenx-engine/src/finalization.rs:155-168 | The first pass leaves the specified records and counts |
| `Finalization.MessageBatch.PriceEligible` | crates/tokenx-engine/src/finalization.rs:170-202 | The second pass, with its memo, leaves the records that direct lookups would leave |
| `InputFootprint.FootprintIndex.SetBytes` | crates/tokenx-engine/src/input_footprint.rs:40-53 | Takes effect exactly when the new total fits, otherwise changes nothing; taking the old bytes out of the total never underflows |
| `InputFootprint.FootprintIndex.AddBytes` | crates/tokenx-engine/src/input_footprint.rs:55-65 | Succeeds exactly when the old total plus the bytes fits, otherwise changes nothing |
| `InputFootprint.FootprintIndex.TotalBytes` | crates/tokenx-engine/src/input_footprint.rs:87-91 | The exact total, or overflow exactly when it does not fit |
| `InputFootprint.TotalReplaced` | crates/tokenx-engine/src/input_footprint.rs:45-51 | Replacing one client's bytes moves the exact total by the difference, and no client exceeds the total |
| `InputFootprint.CheckedTotal` | crates/tokenx-engine/src/input_footprint.rs:87-91 | Adding in client order with overflow checks gives the exact total or fails exactly when it does not fit |
| `InputFootprint.RunFits` | crates/tokenx-engine/src/input_footprint.rs:40-65 | After any sequence of updates the total fits, and the state is what the successful ones wrote |
| `InputFootprint.FromClientBytes` | crates/tokenx-engine/src/input_footprint.rs:30-38 | Succeeds exactly when every total on the way fits, with the later of two entries for one client |
| `InputFootprint.DistinctEntriesFit` | crates/tokenx-engine/src/input_footprint.rs:30-38 | With one entry per client it succeeds exactly when the sum fits, in any order |
| `Acquisition.InventoryFootprint` | crates/tokenx-engine/src/acquisition.rs:42-61 | Each client gets the bytes of the distinct file identities of its groups, each counted once within its group; selected clients are listed without any; it panics exactly when all bytes together do not fit |
| `Acquisition.AddGroup` | crates/tokenx-engine/src/acquisition.rs:47-58 | One group adds the first size seen of each identity to its client and to the total |
| `MachineLabels.Resolve` | crates/tokenx-engine/src/machine_labels.rs:27-61 | Succeeds exactly when every configured path can be resolved and no root has two labels, where a root is a configured path or what it resolves to, with the trimmed label; then holds exactly these, deepest first, and the trimmed local label; otherwise it names the first setting that fails |
| `MachineLabels.TrimIsExact` | crates/tokenx-engine/src/machine_labels.rs:41-59 | A label is what remains without the blanks at both ends |
| `MachineLabels.LabelIsDeepest` | crates/tokenx-engine/src/machine_labels.rs:63-69 | A path gets the label of the deepest configured root that is a component-wise ancestor, or the local label if there is none |
| `MachineLabels.OrderOfSettingsIsIrrelevant` | crates/tokenx-engine/src/machine_labels.rs:27-69 | Two orders of the same settings are both accepted or both refused, and label every path alike |
| `MachineLabels.SortRoots` | crates/tokenx-engine/src/machine_labels.rs:50-56 | The sorted list has exactly the map's entries, deeper roots first |

## Left out

- Publication.TargetIsAlwaysWhole: assumes that no target is itself named like a temporary file, and that processes alive at one time have different process ids; the temporary-name counter does not wrap around.
- Publication.FailedWriterCleansUp: states the attempt only, as the source ignores whether the removal succeeds.
- FileSystem.Disk.WriteAtomic: starts behind the checks for a parent directory and a file name and behind the creation of missing directories; runs one writer to its end, while `AtomicWrite` covers interleavings.
- HealthMerging.MergeOrderIsIrrelevant: assumes that the counts of the merged logs are machine words, as they are in the source.
- GenerationCache.LoadAfterSave: the two hashing passes of the reader and the check for trailing frames are one comparison of the whole body, as nothing changes the open file between them.
- RetryStreak.StoredAttemptIsStreak: saves of one file do not overlap; the streak a first file stands for is as long as its header says.
- HealthHistory.RecordsAddUp: assumes that the recorded and the known inputs of one log fit a machine word.
- HealthIssues.IssuesAreCounted: states no exact value beyond a word; there the count is at most the largest word.
- CacheWriter.SaveGeneration: writes through a file that takes every chunk whole; errors of single writes belong to `FileSystem`.
- Finalization.VerdictIsExact: the calendar's last instant is a parameter, and blank text means ASCII white space.
- Finalization.PricedInOrder: provider tables and prices are given functions; costs are not computed.
- ModelMappings.CanonicalizeObservation: trimming, the terminal name, the cleaned syntax and the display slug are given functions; which of them are tried, and in which order rules win, is part of it.
- RetryFailures.DifferentFailuresRestart: assumes that the digest tells the two failure lists at hand apart.
- ModelAliases.CleanedIsStable: begins behind the trimming, the `custom:` prefix, the choice of the last path segment and lower-casing.
- MachineLabels.Resolve: the answer of the file system for each configured path is part of the input, and path comparison is the one of systems other than Windows.
- Acquisition.AddGroup: the units of a group are one list of file snapshots in visiting order.
- Whole-pipeline normalization of model names, and the canonicalizers of other vendors: not idempotent in general, and mostly tables.
- Pricing, provider identity, costs and display: tables and floating point.
- Usage index, accumulator, date ranges, integrations and input-record shards: other components.
- Permissions of created files, Windows replacement calls, logging and error texts.
- Command line, terminal interface, settings files, subscriptions and release scripts.
