# Pharos verification model

A Dafny model of the logic behind the gates, data compilers and edge functions of this repository that
is hard to get right, with proofs of what each is for. `dafny verify dfyconfig.toml` checks all of it.

| part | files | what is proved |
|---|---|---|
| SQL scanners | `SqlLexer`, `SqlMaskLaws`, `SqlTokens`, `SqlArity`, `SqlSubstrings`, `SqlPrint`, `SqlHeaderMatch`, `SqlHeaderApart`, `SqlArityTheorem`, `SqlNestedInserts`, `SqlComments`, `SqlCommentLaws`, `SqlStripping` | the token expression as a language; masking is idempotent and commutes with slicing; the INSERT arity check against a printer of INSERT statements in every layout; the comment stripper; where the two scanners agree |
| Module graphs | `Paths`, `ExportUsage`, `ProductionReach`, `ExportDefinitions`, `BoundaryWalk` | the use fixpoint, production reachability and the gateway-stopped search are exact closures; where the search for definitions is exact |
| Snapshot lane | `RateLimiter`, `SnapshotCodec`, `SnapshotQuota`, `SnapshotStore`, `SnapshotProtocol`, `SnapshotAnswers`, `SnapshotTrust` | the sliding-window limiter; the durable quota and the content-addressed store over every interleaving; which reads and requests are answered; which keys can lose their trust |
| Key migration | `SortedText`, `MigrationKeys`, `MigrationIdentity`, `MigrationSources`, `KeyMigration`, `MigrationApply`, `MigrationScopes`, `MigrationTwice` | which places of the metadata have which digest; the scope that each review gets; rewritten identities lead back to their digest keys; on exactly which registries migrating twice is migrating once |
| Lane descriptors | `DeploymentIds`, `LaneAdmission`, `LaneReasons`, `LaneDescriptors`, `LaneCatalogue`, `LaneCounts`, `LaneLaws` | admission and its reasons; what the artefact says of every lane; conservation; order independence |
| Worker pools | `WorkerCrew`, `WorkerPool`, `RouteSweep`, `RouteReports` | every schedule of a shared counter; the sweep with deadline and one retry, and what its reports tell |
| Budgets | `CronTrigger`, `CronBudget`, `TestCorpus`, `CorpusMerges` | a passing connection budget bounds every interleaving of a trigger; the corpus ratchet bounds every sequence of merges |

Loops, maps changed in place and recursive visits are methods and classes, each proved equal to a
function or predicate of its inputs; concurrent code is a state machine whose steps are what runs
between two awaits; everything else is functions. `Options` holds the result types.

## What turned out to be conditional

Some promises hold only under a condition. The code is modelled as it is, with the condition and what
happens without it.

- The arity check reads INSERT headers inside values as statements of their own. It is exact on an INSERT if
  and only if no such header, wherever it starts, has a tuple behind it of another length than its columns
  (`ArityReportOfPrint`). So it reports the wrong tuples of an INSERT in parentheses inside a value
  (`InsertInsideIsReported`), and even a faultless one that a list in parentheses follows
  (`FollowingListIsReported`).
- The two SQL scanners agree exactly on texts with closed quotes and block comments in which no line
  comment is followed by a carriage return, CRLF included (`ScannersAgree`).
- The search for a symbol's definition marks modules, not names, as visited. Whatever modules declare, it
  misses nothing if and only if re-exports ask no module for two names (`ExactExactly`, `CrossedMissed`).
- A retention re-put that arrives late can replace a trusted record by the untrusted one that was read
  before, under exactly those keys that held such a record from the start. Keys stay readable and answers
  honest; what is lost is the trust mark (`TrustLost`, `TrustDowngrade`).
- The envelope schema admits repeated review ids. Migrating twice is migrating once if and only if no
  rewritten id has a provider-wide review, nor a retired last review beside one that is not retired
  (`MigrateAgain`, `DuplicateIdsDrift`).
- Legacy keys are preserved where routes are in normal form, no control id or mint label is `*` and mint
  labels are unique (`BuiltIsAccepted`). The exact condition, unless two of the few digests compared for a
  review collide, is `AcceptedExactly`. Normal form is a real condition: `normalizeDeploymentId` is not
  idempotent on every text.
- A second run reads a migrated review under the resolution it had, unless a control id is the wildcard or a
  mint label (`ResolutionReadBack`); where it does, stable id and digest stay as they were (`RowAgain`).
- Contributor sets are compared as joined text, which takes an id that holds U+0000 for several
  (`MismatchedExactly`, `SeparatorHides`).
- One merge bounds the metrics that the base's budget file names, and the number of test files in any
  case; another metric it does not bound, unless it counts bytes where no file may be (`BoundedExactly`,
  `HistoryBounds`, `HistoryAdds`).
- A pool asked for no workers returns empty slots (`EveryPool`).

Where documentation and code differ, the model follows the code: the header comment of
`scripts/ci/check-test-corpus-budget.ts` (lines 10-14) takes ceilings from the base first, while
`resolveCeilings` prefers the checked-out file; the header comment of the key migration (lines 19-21)
keeps mint rows on legacy keys, while the code applies them as authored.

## Model

Paths are relative to the repository's root.

| member | source | states |
|---|---|---|
| SqlMaskLaws.MaskIsTokenFree | scripts/ci/check-sql-interpolation-safety.ts:37-40 | no token starts anywhere in masked text |
| SqlMaskLaws.MaskIdempotent | scripts/ci/check-sql-interpolation-safety.ts:37-40 | masking twice is masking once, on every text |
| SqlMaskLaws.MaskCommutesWithSlicing | scripts/ci/check-sql-interpolation-safety.ts:37-40 | between two token boundaries, masking a slice is slicing the mask |
| SqlMaskLaws.MaskAppend | scripts/ci/check-sql-interpolation-safety.ts:37-40 | a text whose tokens are all finished masks the same whatever follows it |
| SqlTokens.TokenExactly | scripts/ci/check-sql-interpolation-safety.ts:38-39 | at every place the scanner takes the token that the expression takes: of the texts that its alternatives match there the shortest block comment, and the longest of anything else; and none where none matches |
| SqlTokens.MaskReplaces | scripts/ci/check-sql-interpolation-safety.ts:37-40 | the mask, from left to right: a comment taken becomes as many spaces, another token as many x, any other character stays |
| SqlTokens.WhiteSpace | scripts/ci/check-sql-interpolation-safety.ts:15-15 | the white space of the pattern, by code unit |
| SqlSubstrings.StructureIsBoundary | scripts/ci/check-sql-interpolation-safety.ts:42-68 | a parenthesis or comma that the mask shows is a real one and a token boundary on both sides |
| SqlSubstrings.TupleRemask | scripts/ci/check-sql-interpolation-safety.ts:60-68 | the text that `readTuple` cuts out masks on its own as it does in the whole statement |
| SqlSubstrings.PartsGiveBack | scripts/ci/check-sql-interpolation-safety.ts:42-57 | the parts before the blank filter, with commas between them, are the text again, and each masks as its stretch of the whole |
| SqlArity.SplitTopLevel | scripts/ci/check-sql-interpolation-safety.ts:42-58 | the loop returns exactly the non-blank parts between commas at depth 0 of the mask |
| SqlArity.ReadTuple | scripts/ci/check-sql-interpolation-safety.ts:60-68 | the loop returns the text up to the parenthesis that brings the depth back to 0, or nothing when none does |
| SqlArity.TupleMismatches | scripts/ci/check-sql-interpolation-safety.ts:76-86 | the tuple loop ends and reports, in order, every tuple behind one header whose count differs |
| SqlArity.SqlArityMismatches | scripts/ci/check-sql-interpolation-safety.ts:71-88 | the whole scan ends and reports for every header match in the mask |
| SqlHeaderMatch.HeaderHere | scripts/ci/check-sql-interpolation-safety.ts:14-15 | a printed header, its words in any case, with any white space where the pattern asks for some and any or none around its parentheses, is matched exactly up to its first tuple, with its column text |
| SqlHeaderMatch.HeaderExactly | scripts/ci/check-sql-interpolation-safety.ts:14-15 | and nothing else is matched: wherever the pattern matches, the text is such a header, its columns and the body of its first tuple |
| SqlHeaderMatch.WordCharacters | scripts/ci/check-sql-interpolation-safety.ts:15-15 | the characters of a table name, by code unit |
| SqlHeaderMatch.HeaderInside | scripts/ci/check-sql-interpolation-safety.ts:14-15 | a header that starts inside balanced text ends there: what follows cannot complete it |
| SqlPrint.MaskJoined | scripts/ci/check-sql-interpolation-safety.ts:37-57 | masking a printed list masks its items one by one |
| SqlPrint.PartsCounted | scripts/ci/check-sql-interpolation-safety.ts:42-58 | a printed list has as many parts as items that hold more than white space and comments |
| SqlPrint.ReportAll | scripts/ci/check-sql-interpolation-safety.ts:76-86 | the tuple scan of a printed list of tuples, with any white space and comments around its commas, gives one entry for each tuple of the wrong length, in order, with the true counts |
| SqlArityTheorem.ReportOfPrint | scripts/ci/check-sql-interpolation-safety.ts:71-88 | the report on an INSERT printed in any layout, whatever text follows it |
| SqlHeaderApart.HeadersApart | scripts/ci/check-sql-interpolation-safety.ts:14-15 | no match of the header pattern starts strictly inside another |
| SqlHeaderApart.EveryHeaderCounts | scripts/ci/check-sql-interpolation-safety.ts:71-88 | so the global scan, which goes on behind each match, reports for every place in the text where the pattern matches, in order |
| SqlHeaderApart.PassesExactly | scripts/ci/check-sql-interpolation-safety.ts:71-88 | on every text, printed or not: nothing is reported if and only if no place at which the header pattern matches has a tuple behind it whose parts are not as many as its columns |
| SqlHeaderApart.ScanGoesOn | scripts/ci/check-sql-interpolation-safety.ts:71-88 | wherever a text is cut, its report ends with the report on the later part |
| SqlArityTheorem.ArityReportOfPrint | scripts/ci/check-sql-interpolation-safety.ts:71-88 | for every INSERT in every layout, with white space, line breaks and comments in its gaps, the report is the true mismatches followed by those of headers inside its own values, and it is exact if and only if no place among the values at which the header pattern matches has a wrong tuple behind it |
| SqlArityTheorem.ArityExact | scripts/ci/check-sql-interpolation-safety.ts:71-88 | where no value holds an INSERT header of its own, the report is exactly the true mismatches |
| SqlNestedInserts.InsertInsideIsReported | scripts/ci/check-sql-interpolation-safety.ts:71-88 | one failing family: in any statement, any value at any position that holds an INSERT in parentheses outside quotes and comments adds all the wrong tuples of that one to the report |
| SqlNestedInserts.NestedInsertIsReported | scripts/ci/check-sql-interpolation-safety.ts:71-88 | its smallest instance: one column, one value, and yet a report |
| SqlNestedInserts.FollowingListIsReported | scripts/ci/check-sql-interpolation-safety.ts:71-88 | another: an INSERT without a fault as a value and a list in parentheses as the next value, which reads as a second tuple of it |
| SqlComments.StripSqlComments | scripts/ci/check-worker-migrations.ts:357-397 | the index loop reads the text once to its end and emits the stripped text |
| SqlComments.SkipLine | scripts/ci/check-worker-migrations.ts:378-382 | a line comment is skipped up to its line break |
| SqlComments.SkipBlock | scripts/ci/check-worker-migrations.ts:383-391 | a block comment is skipped past its end, and its line breaks are kept |
| SqlStripping.AlwaysDecided | scripts/ci/check-worker-migrations.ts:357-397 | at every place the stripper takes exactly one piece: a comment up to its line break or first closing mark, a quoted text up to a delimiter that is not doubled, the rest of the text where that never comes, or one character |
| SqlStripping.StripsExactly | scripts/ci/check-worker-migrations.ts:357-397 | a comment taken leaves a space and its line breaks in order, any other piece stays as it is |
| SqlCommentLaws.PiecesOfStripped | scripts/ci/check-worker-migrations.ts:357-397 | reading the stripped text gives the pieces of the text with every comment replaced by a space and its line breaks |
| SqlCommentLaws.StrippedTextHasNoComment | scripts/ci/check-worker-migrations.ts:357-397 | stripped text opens no comment outside quotes |
| SqlCommentLaws.StripIdempotent | scripts/ci/check-worker-migrations.ts:357-397 | stripping twice is stripping once |
| SqlCommentLaws.StripKeepsQuotedText | scripts/ci/check-worker-migrations.ts:362-377 | strings and quoted identifiers survive verbatim and in order, doubled delimiters included |
| SqlCommentLaws.StripKeepsBreaks | scripts/ci/check-worker-migrations.ts:378-391 | every CR and LF survives, in order |
| SqlCommentLaws.ScannersAgree | scripts/ci/check-worker-migrations.ts:357-397 | the stripper and the masking expression call the same characters comment, quoted and plain if and only if every quote and block comment is closed and no line comment is followed by a carriage return, CRLF included |
| ExportUsage.Usage.constructor | scripts/ci/check-unused-code.ts:241-243 | no use is known at first |
| ExportUsage.Usage.SeedEdge | scripts/ci/check-unused-code.ts:248-266 | one import marks the names it uses, or makes its whole target ambiguous |
| ExportUsage.Usage.Seed | scripts/ci/check-unused-code.ts:247-267 | the seeding loop marks exactly the uses that some consumer names |
| ExportUsage.Usage.PropagateEdge | scripts/ci/check-unused-code.ts:280-301 | one re-export hands on what is asked of it, keeps every mark justified, and reports whether anything was new |
| ExportUsage.Usage.PropagatePass | scripts/ci/check-unused-code.ts:278-302 | a pass that changes nothing leaves every re-export settled |
| ExportUsage.Usage.Propagate | scripts/ci/check-unused-code.ts:275-303 | on every graph, cyclic ones included, the loop ends, and a name is marked used, or a module ambiguous, if and only if a chain of re-export hops carries a consumer's use to it |
| ExportUsage.UsageOf | scripts/ci/check-unused-code.ts:241-303 | a fresh table, seeded and propagated, holds exactly the uses that chains carry |
| ExportUsage.SeedsMean | scripts/ci/check-unused-code.ts:248-266 | a name is used from the start if and only if a module imports it, or names it of a namespace whose members can be told apart; a module is ambiguous from the start if and only if a namespace of it cannot |
| ExportUsage.NameHopsMean | scripts/ci/check-unused-code.ts:290-296 | a hop asks the same name of a module re-exported as a whole, and of a named re-export what it imports under that name |
| ExportUsage.FileHopsMean | scripts/ci/check-unused-code.ts:280-288 | and a re-export of either kind hands on ambiguity |
| ExportUsage.MoreNames | scripts/ci/check-unused-code.ts:296-300 | every pass that changes something uses up a finite measure |
| ExportUsage.NamesComplete | scripts/ci/check-unused-code.ts:275-303 | where every edge is settled, each use has followed every chain of hops |
| ProductionReach.ProductionReachable | scripts/ci/check-unused-code.ts:315-335 | the worklist computes exactly the modules that some root reaches without entering a test or support file |
| ProductionReach.SearchComplete | scripts/ci/check-unused-code.ts:325-335 | an empty worklist means that nothing reachable is missing |
| ExportDefinitions.DefinitionSearch.Find | scripts/ci/check-unused-code.ts:652-672 | the recursive search with its shared set of visited modules; what it returns declares the symbol and is reached by re-exports of it |
| ExportDefinitions.FindsExactly | scripts/ci/check-unused-code.ts:652-672 | where chains of re-exports ask no module for two names, it finds a definition if and only if there is one |
| ExportDefinitions.ExactExactly | scripts/ci/check-unused-code.ts:652-672 | and only there: it is so for everything that modules may declare if and only if chains ask no module for two names |
| ExportDefinitions.CrossedMissed | scripts/ci/check-unused-code.ts:652-672 | an instance: four modules in which a definition is missed |
| ExportDefinitions.UseReachesDefinition | scripts/ci/check-unused-code.ts:652-672 | a use of a symbol is a use of the name that defines it |
| BoundaryWalk.Walk.AddErrors | scripts/ci/check-architecture-boundaries.ts:330-330 | each error of a module is reported with the chain that leads there |
| BoundaryWalk.Walk.Visit | scripts/ci/check-architecture-boundaries.ts:323-335 | the recursive visit ends, only adds, and discharges everything owed for each module it meets |
| BoundaryWalk.Walk.Run | scripts/ci/check-architecture-boundaries.ts:320-338 | the search is exact: it visits what chains reach and is no gateway, reports a forbidden module, an error or network use exactly where a chain reaches one, and every chain it reports is real |
| BoundaryWalk.SearchIsExact | scripts/ci/check-architecture-boundaries.ts:320-338 | meeting every entry and finishing every visit is enough for that exactness |
| RateLimiter.Limiter.constructor | functions/lib/site-data-rate-limit.ts:33-37 | a limiter starts empty |
| RateLimiter.Limiter.SiteData | functions/lib/site-data-rate-limit.ts:33-37 | the site-data lane: 1,200 per minute, 5,000 callers |
| RateLimiter.Limiter.SnapshotPosts | functions/selector-snapshot/[[path]].ts:60-64 | the snapshot lane: 10 per minute, 5,000 callers |
| RateLimiter.Limiter.IsLimited | functions/lib/site-data-rate-limit.ts:47-74 | a call is limited if and only if the key's log since its last eviction already holds the maximum in the window that ends now; what is inserted, kept in place and evicted |
| RateLimiter.Limiter.SizeBounded | functions/lib/site-data-rate-limit.ts:65-72 | the map never holds more keys than its capacity |
| RateLimiter.UnevictedWindow | functions/selector-snapshot/[[path]].ts:78-95 | while a key is not evicted, no window of that length, anywhere in the run, holds more than the maximum of its admissions |
| RateLimiter.AfterLater | functions/lib/site-data-rate-limit.ts:58-58 | pruning at one cutoff loses nothing for any later one |
| RateLimiter.SpacedBoundsWindows | functions/lib/site-data-rate-limit.ts:55-62 | spacing of admissions bounds every window, wherever it ends |
| SnapshotQuota.QuotaTable.constructor | functions/selector-snapshot/[[path]].ts:107-121 | the quota table starts without rows |
| SnapshotQuota.QuotaTable.Consume | functions/selector-snapshot/[[path]].ts:97-128 | the conditional upsert adds one exactly where the bucket is below 100, and touches no other bucket |
| SnapshotQuota.QuotaTable.Refund | functions/selector-snapshot/[[path]].ts:144-161 | the guarded update takes one off its bucket and touches no other |
| SnapshotQuota.ReserveKeepsQuota | functions/selector-snapshot/[[path]].ts:262-266 | a reservation, answered, lost or failed, keeps every count between 0 and 100 and equal to the requests it stands for |
| SnapshotQuota.RefundKeepsQuota | functions/selector-snapshot/[[path]].ts:268-278 | so does a refund |
| SnapshotQuota.RefundNeedsNoGuard | functions/selector-snapshot/[[path]].ts:149-156 | the count that a refund decrements is positive: its guard never decides anything |
| SnapshotQuota.RefundTouchesItsOwnDay | functions/selector-snapshot/[[path]].ts:136-143 | a refund changes only the bucket that was charged, whatever day it is by then |
| SnapshotQuota.WritesWithinQuota | functions/selector-snapshot/[[path]].ts:262-312 | at most 100 of a client's requests charged to one day write a snapshot, however many were refunded |
| SnapshotStore.RetainedReadsTheSame | functions/selector-snapshot/[[path]].ts:371-398 | what a first read puts back shows later readers the same snapshot, with the same trust, even where normalisation changed its sid |
| SnapshotStore.FreshIsReadable | functions/selector-snapshot/[[path]].ts:299-306 | a write can be read under its own sid |
| SnapshotStore.ReadableIsServable | functions/selector-snapshot/[[path]].ts:339-366 | whatever version a reader sees, a readable one shows a snapshot that the key may serve, and a trusted one hashes to the key |
| SnapshotStore.RetainedIsSound | functions/selector-snapshot/[[path]].ts:371-398 | the record put back is readable, and certified where trusted |
| SnapshotAnswers.ReadableExactly | functions/selector-snapshot/[[path]].ts:341-367 | a record is readable under a key if and only if its text decodes to a document that its validator makes into a snapshot, and the key is that of the snapshot, the legacy key on record or, for an untrusted record, that of the document |
| SnapshotAnswers.PutBackShows | functions/selector-snapshot/[[path]].ts:373-398 | what a first read puts back is readable under the key read and that of the snapshot alone |
| SnapshotAnswers.AnswerMeans | functions/selector-snapshot/[[path]].ts:315-405 | a read is answered as unavailable, not found or malformed if and only if it fails, finds nothing, or finds a record that shows nothing; any other gets the text of what its record shows, put back if and only if it was not yet |
| SnapshotAnswers.StoredExactly | functions/selector-snapshot/[[path]].ts:282-298 | a write is spared if and only if the record found is trusted and shows a snapshot of that key |
| SnapshotProtocol.NextKeepsInv | functions/selector-snapshot/[[path]].ts:228-405 | every step of every request keeps the quota, store and answer invariants |
| SnapshotProtocol.RunKeepsInv | functions/selector-snapshot/[[path]].ts:228-405 | and so does every interleaving |
| SnapshotProtocol.QuotaOverRuns | functions/selector-snapshot/[[path]].ts:97-161 | over every run: counts between 0 and 100, each equal to the requests charged there and not refunded |
| SnapshotProtocol.StoreOverRuns | functions/selector-snapshot/[[path]].ts:280-405 | over every run: a usable trusted record hashes to its key, and every 200 answer shows a validated snapshot of the requested sid or of a legacy record recognised for it |
| SnapshotProtocol.ReadableOverRuns | functions/selector-snapshot/[[path]].ts:371-398 | over every run: a key whose newest record is readable stays readable |
| SnapshotAnswers.ReadsAnswered | functions/selector-snapshot/[[path]].ts:315-405 | over every run: each read that finds a record which shows a snapshot is answered with it |
| SnapshotAnswers.PutsAreShown | functions/selector-snapshot/[[path]].ts:315-405 | after every run: whatever version the lane put under a key can be read there, and is answered with a snapshot that the key may serve |
| SnapshotAnswers.ChargeMeans | functions/selector-snapshot/[[path]].ts:97-134 | a request goes on past its reservation if and only if it is not metered, or charged below 100 and acknowledged; what it adds to which count |
| SnapshotAnswers.RecomputeMeans | functions/selector-snapshot/[[path]].ts:268-280 | a recomputed request goes on to look for its snapshot, a failed one to its refund |
| SnapshotAnswers.WriteMeans | functions/selector-snapshot/[[path]].ts:300-312 | a write is answered if and only if it is acknowledged; if it took effect, the newest version of the key is a trusted record of the snapshot |
| SnapshotAnswers.RetainMeans | functions/selector-snapshot/[[path]].ts:381-397 | a re-put that is applied makes its record the newest version of its key, one that fails changes no key |
| SnapshotAnswers.RequestsAnswered | functions/selector-snapshot/[[path]].ts:262-312 | over every run: a request that was recomputed is answered with its sid once its write is applied, and does not end without that answer unless its write failed or lost its own |
| SnapshotAnswers.ChargedGoesOn | functions/selector-snapshot/[[path]].ts:262-278 | over every run: a request that goes on past its reservation is recomputing until its recomputation ends; any other has ended |
| SnapshotAnswers.CreatedIsShown | functions/selector-snapshot/[[path]].ts:280-405 | after every run: under a sid answered as created some version can be read, and is shown as a verified snapshot of that sid |
| SnapshotAnswers.CanBeServed | functions/selector-snapshot/[[path]].ts:228-312 | in every world a request of a client within quota, or without an address, has a run from its arrival to its answer |
| SnapshotAnswers.CanBeUndone | functions/selector-snapshot/[[path]].ts:262-278 | and one in which its recomputation fails and its refund leaves every count as it was |
| SnapshotTrust.TrustLasts | functions/selector-snapshot/[[path]].ts:371-398 | under a key without an untrusted record to put back, trust lasts over every run |
| SnapshotTrust.TrustLost | functions/selector-snapshot/[[path]].ts:371-398 | after every run, a trusted key can lose its trust in some continuation if and only if a readable record that is neither trusted nor put back was there from the start |
| SnapshotTrust.TrustDowngrade | functions/selector-snapshot/[[path]].ts:371-398 | a run in which that happens after a write of the same sid was answered with success |
| WorkerCrew.NextKeepsInv | scripts/build-data/build-stablecoin-detail-snapshots.ts:313-318 | each step keeps: indices below the counter handed out once and in order, each done or held by one worker |
| WorkerCrew.StepsUseWork | scripts/build-data/build-stablecoin-detail-snapshots.ts:313-318 | each step uses up a finite amount of work |
| WorkerCrew.UnsettledCanStep | scripts/build-data/build-stablecoin-detail-snapshots.ts:313-320 | a worker that has not ended always has a step to take; a visit may return or fail |
| WorkerCrew.EverySchedule | scripts/build-data/build-stablecoin-detail-snapshots.ts:306-321 | every schedule ends; each index is claimed exactly once and in order; at most min(k, n) visits are in flight, of different indices; when all workers end everything is done, if and only if there is a worker or nothing to do |
| WorkerCrew.FullFlight | scripts/build-data/build-stablecoin-detail-snapshots.ts:306-321 | some schedule has min(k, n) visits in flight at once |
| WorkerPool.PoolRunsCrew | scripts/build-data/build-stablecoin-detail-snapshots.ts:311-318 | filling result slots restricts no schedule |
| WorkerPool.EveryPool | scripts/build-data/build-stablecoin-detail-snapshots.ts:306-321 | every answer lands at its own index; a run without failures returns all answers in order if and only if there is a worker or nothing to do |
| RouteSweep.SweepRefinesCrew | scripts/ci/run-post-deploy-acceptance.ts:62-91 | each turn of the sweep is what such a crew could do: nothing, one step or two |
| RouteSweep.TurnKeepsInv | scripts/ci/run-post-deploy-acceptance.ts:62-91 | each turn keeps requests before the deadline and the report of a path equal to the requests it got |
| RouteSweep.TurnUsesEffort | scripts/ci/run-post-deploy-acceptance.ts:62-91 | each turn uses up a finite amount of work |
| RouteSweep.EverySweep | scripts/ci/run-post-deploy-acceptance.ts:47-101 | every schedule ends, within three turns for a path and one for a worker; in each no request starts at or after the deadline, no path gets more than two, a report that says it never ran stands for none, no more are in flight than there are workers, four or one for each path, and finished workers leave no path unreported |
| RouteReports.EveryReport | scripts/ci/run-post-deploy-acceptance.ts:72-91 | in every schedule: a path is asked again if and only if its first answer is a 5xx received before the deadline; its report shows its last reply, and whether it was asked again |
| RouteReports.AlwaysCanTurn | scripts/ci/run-post-deploy-acceptance.ts:62-91 | a worker that is not over always has a turn to take, whatever it hears |
| RouteReports.GivenUpLate | scripts/ci/run-post-deploy-acceptance.ts:68-71 | no path is given up while turns come before the deadline |
| CronTrigger.ReachableIsLegal | scripts/ci/check-cron-connection-budget.ts:122-137 | the states of a trigger that runs reach are exactly those that the rules on chains, budget-only work and sends allow |
| CronTrigger.LegalBound | scripts/ci/check-cron-connection-budget.ts:165-168 | no such state holds more connections than the trigger's total |
| CronTrigger.TotalAttained | scripts/ci/check-cron-connection-budget.ts:165-168 | some such state holds exactly that many |
| CronTrigger.FitsExactly | scripts/ci/check-cron-connection-budget.ts:165-185 | all jobs declared and total below `failAt` if and only if no moment of any run holds `failAt` connections |
| CronBudget.GroupByJob | scripts/ci/check-cron-connection-budget.ts:85-97 | `entriesByJob` holds the same entries, grouped and in order |
| CronBudget.ResolveEntry | scripts/ci/check-cron-connection-budget.ts:106-120 | a job resolves to the first entry of its schedule, or is missing, or mismatched |
| CronBudget.ResolveMeans | scripts/ci/check-cron-connection-budget.ts:106-120 | which of the three, in terms of the declared entries |
| CronBudget.EvaluateChain | scripts/ci/check-cron-connection-budget.ts:122-137 | a chain's peak over the jobs that resolve, and the lists of those that do not |
| CronBudget.EvaluateTrigger | scripts/ci/check-cron-connection-budget.ts:139-168 | a trigger's total: the sum of its chains' peaks, or budget-only work or the send where larger |
| CronBudget.CatchUpExceeds | scripts/ci/check-cron-connection-budget.ts:202-212 | the surfaces of slot catch-ups that exceed the limit |
| CronBudget.CatchUpIsCovered | scripts/ci/check-cron-connection-budget.ts:202-212 | they add no failure that a trigger did not already cause |
| CronBudget.Evaluate | scripts/ci/check-cron-connection-budget.ts:72-231 | every field of the report, and that it fails for exactly seven kinds of fault |
| CronBudget.ReportMeans | scripts/ci/check-cron-connection-budget.ts:106-212 | which jobs are listed as missing and as mismatched, which schedules as unplanned, and which triggers as full, in terms of entries and plans |
| CronBudget.PassedIsSafe | scripts/ci/check-cron-connection-budget.ts:106-212 | a report that is not failed means that every run of every trigger stays below `failAt`; and nothing unresolved and no total too high if and only if they all do |
| TestCorpus.Measure | scripts/ci/check-test-corpus-budget.ts:253-288 | each metric is the sum over the paths of its bucket; what cannot be sized is listed and counts for nothing |
| TestCorpus.ResolveCeilings | scripts/ci/check-test-corpus-budget.ts:440-448 | ceilings come from the checked-out file, else the base's, else its measurement, and fail to resolve only where none of these names a metric |
| TestCorpus.Evaluate | scripts/ci/check-test-corpus-budget.ts:330-393 | the findings, by kind and in metric order |
| TestCorpus.FindingsMean | scripts/ci/check-test-corpus-budget.ts:330-393 | a finding is listed if and only if it is justified and there is no override |
| TestCorpus.PassingMeans | scripts/ci/check-test-corpus-budget.ts:330-393 | what an empty list of findings says |
| TestCorpus.CeilingsMean | scripts/ci/check-test-corpus-budget.ts:440-448 | which of the three gives each ceiling, and when they all resolve |
| TestCorpus.PassesExactly | scripts/ci/check-test-corpus-budget.ts:330-393 | in numbers: no finding if and only if there is an override, or the budget file is there, no ceiling is above the base's, every metric is within its ceiling or its measure on the base, and at most two test files are new |
| CorpusMerges.NetIsGrowth | scripts/ci/check-test-corpus-budget.ts:297-306 | added minus deleted test paths is exactly the growth of the test-file metric |
| CorpusMerges.PassingMerge | scripts/ci/check-test-corpus-budget.ts:344-378 | one passing merge raises no ceiling that the base names, and keeps its metric within ceiling or base |
| CorpusMerges.HistoryBounds | scripts/ci/check-test-corpus-budget.ts:344-378 | over any sequence of passing merges ceilings never rise and a metric stays within its first ceiling or first measurement |
| CorpusMerges.HistoryAdds | scripts/ci/check-test-corpus-budget.ts:379-391 | after n passing merges there are at most 2n more test files |
| CorpusMerges.UpdateNeverRaises | scripts/ci/check-test-corpus-budget.ts:498-505 | `--update` raises no ceiling and is idempotent |
| CorpusMerges.UpdateMeans | scripts/ci/check-test-corpus-budget.ts:498-505 | it leaves each ceiling where it was or lowers it to the corpus plus the headroom of its metric, whichever is less |
| CorpusMerges.UpdateKeepsPassing | scripts/ci/check-test-corpus-budget.ts:498-505 | a merge that passes still passes with the update in it |
| CorpusMerges.UnnamedMetricUnbounded | scripts/ci/check-test-corpus-budget.ts:344-391 | for every readable base and every metric that it does not name, other than test files and the bytes of a bucket that must stay empty, some passing merge makes that metric as large as wanted |
| CorpusMerges.BoundedExactly | scripts/ci/check-test-corpus-budget.ts:344-391 | one merge bounds a metric if and only if the base names it, or it is the number of test files, or it counts bytes where no file may be |
| MigrationKeys.BuildAuthoredCandidates | scripts/build-data/generate-safety-score-v9-incident-review-key-migration.ts:304-348 | the candidate map of an asset, or a throw |
| MigrationKeys.CollectedMeans | scripts/build-data/generate-safety-score-v9-incident-review-key-migration.ts:309-314 | the map holds exactly the candidates added, and it throws if and only if a key comes twice |
| MigrationSources.EntriesExactly | scripts/build-data/generate-safety-score-v9-incident-review-key-migration.ts:315-346 | a candidate is added for each place of the metadata that deserves one, and none besides: each route with a normal form; the first reference of a control to each such route; each route with contributors, keyed over the sorted ids of exactly the controls that refer to it; each mint control with its route from the table |
| MigrationSources.CandidatesExactly | scripts/build-data/generate-safety-score-v9-incident-review-key-migration.ts:304-348 | the map is there if and only if no two places have one key, and then holds exactly their candidates |
| MigrationSources.KnownExactly | scripts/build-data/generate-safety-score-v9-incident-review-key-migration.ts:304-348 | a digest is known if and only if it belongs to a place and keys are apart; what is found has the identity that names that place |
| MigrationIdentity.EntriesSourced | scripts/build-data/generate-safety-score-v9-incident-review-key-migration.ts:315-346 | every candidate comes from a route, control or mint control of the metadata, under one of the four digests of it |
| MigrationIdentity.LegacyKeyMeans | scripts/build-data/generate-safety-score-v9-incident-review-key-migration.ts:366-385 | the key derived from any identity: that of the first mint control of its label where it names one, else by route that of the list, the lane or the one control, else none |
| MigrationIdentity.RecoversExactly | scripts/build-data/generate-safety-score-v9-incident-review-key-migration.ts:350-385 | an identity leads back to its key if its route is in normal form, its control id is no wildcard and its mint label names a control of that key; and where the few digests compared for the candidate differ, only then |
| MigrationIdentity.EveryCandidateRecovers | scripts/build-data/generate-safety-score-v9-incident-review-key-migration.ts:304-385 | over well-formed metadata every candidate of every asset leads back to its key, directly or in the one-contributor aggregate form |
| KeyMigration.RowOf | scripts/build-data/generate-safety-score-v9-incident-review-key-migration.ts:441-563 | the loop body for one review: no row exactly for issuer-surface and provider reviews; a row keeps the review's ids and is applied as retired, authored or unchanged by what the review is; and which reviews throw |
| KeyMigration.RowMeans | scripts/build-data/generate-safety-score-v9-incident-review-key-migration.ts:441-563 | which review gives which row: a digest the identity, key and resolution of the place in the metadata that has it, an authored scope its own; with what reason, match and stable id; and exactly which reviews stop the migration, in terms of the metadata |
| KeyMigration.Build | scripts/build-data/generate-safety-score-v9-incident-review-key-migration.ts:431-617 | the sorted rows and the number skipped |
| KeyMigration.RowsCover | scripts/build-data/generate-safety-score-v9-incident-review-key-migration.ts:601-605 | rows plus skipped are all reviews: the coverage guard cannot fire |
| KeyMigration.ArtifactRows | scripts/build-data/generate-safety-score-v9-incident-review-key-migration.ts:441-564 | the artefact has exactly the rows of the reviews that are no skips, in the order of their ids |
| KeyMigration.PreservesLegacyKeys | scripts/build-data/generate-safety-score-v9-incident-review-key-migration.ts:620-647 | the assertion accepts if and only if every row does |
| KeyMigration.BuiltIsAccepted | scripts/build-data/generate-safety-score-v9-incident-review-key-migration.ts:620-647 | it accepts every artefact built over well-formed metadata |
| KeyMigration.AcceptedExactly | scripts/build-data/generate-safety-score-v9-incident-review-key-migration.ts:620-647 | it accepts an artefact if every digest looked up belongs to a candidate that its identity leads back to; and where the digests compared for those differ, only then |
| MigrationApply.LastRowSort | scripts/build-data/generate-safety-score-v9-incident-review-key-migration.ts:564-564 | sorting the rows changes no lookup by review id |
| MigrationApply.MigrateExactly | scripts/build-data/generate-safety-score-v9-incident-review-key-migration.ts:431-684 | a migration is defined exactly where every review has its envelope and row and finds a subject of its id; the last subject of an id decides for all its reviews |
| MigrationScopes.ScopeMeans | scripts/build-data/generate-safety-score-v9-incident-review-key-migration.ts:649-658 | the scope written for an identity: its route, its list if it has a route, and without a list its control id, or the wildcard exactly where a route stands alone; a throw if and only if there is neither route nor control id |
| MigrationScopes.MigrateMeans | scripts/build-data/generate-safety-score-v9-incident-review-key-migration.ts:431-684 | a migration is defined if and only if every review has its envelope, stops nothing and is decided by a subject that can be written; then it makes of each review exactly what that subject says: the reason of a retirement, or the scope of the place that has the digest, and nothing else changes |
| MigrationScopes.DigestKept | scripts/build-data/generate-safety-score-v9-incident-review-key-migration.ts:620-684 | end to end: from the scope written for a digest that was looked up its candidate's identity is read back, and the digest is derived from it if the candidate can be recovered, and where the digests compared differ only then |
| MigrationScopes.ResolutionReadBack | scripts/build-data/generate-safety-score-v9-incident-review-key-migration.ts:495-507 | the resolution is read back too, if and only if a control id is neither the wildcard nor a mint label, nor a mint label with a route the wildcard |
| MigrationScopes.RowAgain | scripts/build-data/generate-safety-score-v9-incident-review-key-migration.ts:486-531 | the row of a second run has the same identity, and where its resolution is the same the same stable id, and still leads to the digest |
| MigrationApply.MigratedOnce | scripts/build-data/generate-safety-score-v9-incident-review-key-migration.ts:649-684 | a review once migrated gets a row again, and that row leaves it as it is |
| MigrationTwice.MigrateAgain | scripts/build-data/generate-safety-score-v9-incident-review-key-migration.ts:431-684 | for every registry that migrates: migrating the result is defined if and only if no review of a rewritten id is provider-wide, and changes nothing if and only if besides, where the last review of a rewritten id is retired, all are |
| MigrationTwice.MigrateThrice | scripts/build-data/generate-safety-score-v9-incident-review-key-migration.ts:431-684 | where a second migration is defined, a third changes nothing more |
| MigrationTwice.MigrateTwice | scripts/build-data/generate-safety-score-v9-incident-review-key-migration.ts:431-684 | with unique ids the second one already changes nothing |
| MigrationTwice.DuplicateIdsDrift | scripts/build-data/generate-safety-score-v9-incident-review-key-migration.ts:667-681 | an instance where it does: two reviews of one id that drift on the second migration |
| SortedText.SortedValuesMeans | scripts/build-data/generate-safety-score-v9-lane-emitter-descriptors.ts:254-256 | `sortedValues` is in strict order and has exactly the values given |
| SortedText.SortedValuesOf | scripts/build-data/generate-safety-score-v9-lane-emitter-descriptors.ts:254-256 | two lists sort to the same values if and only if they have the same members |
| LaneAdmission.StrongestReason | scripts/build-data/generate-safety-score-v9-lane-emitter-descriptors.ts:426-432 | the reason of the highest priority, whatever order the set comes in |
| LaneAdmission.AdmitInventoryLane | scripts/build-data/generate-safety-score-v9-lane-emitter-descriptors.ts:434-581 | the admission of a lane, as a function of its key, chain and sorted ids |
| LaneAdmission.AdmittedExactly | scripts/build-data/generate-safety-score-v9-lane-emitter-descriptors.ts:505-507 | a descriptor if and only if no reason holds; otherwise the one reason of strictly highest priority |
| LaneReasons.ReasonsExactly | scripts/build-data/generate-safety-score-v9-lane-emitter-descriptors.ts:443-507 | each reason is collected if and only if it holds, in terms of the inventory record |
| LaneReasons.AdmissionMeans | scripts/build-data/generate-safety-score-v9-lane-emitter-descriptors.ts:434-541 | an admission gives a descriptor that describes lane and record if and only if no reason holds, else the strongest that does; and lists exactly the ids without emitter and the events without screen |
| LaneAdmission.DescriptorExactly | scripts/build-data/generate-safety-score-v9-lane-emitter-descriptors.ts:443-541 | a lane gets a descriptor if and only if its controls and those mapped read alike, mappings name listed emitters only, addresses are distinct, every emitter is pinned, on the chain and reviewed for vocabulary events only, and the lookback reaches the floor |
| LaneAdmission.DescriptorCertifies | scripts/build-data/generate-safety-score-v9-lane-emitter-descriptors.ts:443-541 | and then its emitters are those reviewed, each screened for exactly its events; where ids hold no separator, reviewed and mapped controls coincide |
| LaneAdmission.MismatchedExactly | scripts/build-data/generate-safety-score-v9-lane-emitter-descriptors.ts:454-459 | two lists of ids read alike if and only if they are equal once every id is split at the separator |
| LaneAdmission.SeparatorHides | scripts/build-data/generate-safety-score-v9-lane-emitter-descriptors.ts:454-459 | an id that holds the separator passes for two |
| DeploymentIds.NormalFormNamesChain | shared/types/deployment-id.ts:6-12 | the normal form of a reference to an EVM chain starts with the id that the reference names, where registry ids stand for themselves |
| DeploymentIds.NormalForm | shared/types/deployment-id.ts:6-12 | the normal form of a reference: the chain that its label stands for, and the scoped form of the identifier, trimmed and without a repeated chain |
| DeploymentIds.NoNormalForm | shared/types/deployment-id.ts:6-12 | a reference without label or identifier has none |
| DeploymentIds.ChainNamed | scripts/build-data/generate-safety-score-v9-lane-emitter-descriptors.ts:614-615 | the chain that a reference names: what stands before its first colon, trimmed and in lower case |
| LaneDescriptors.CountRecords | scripts/build-data/generate-safety-score-v9-lane-emitter-descriptors.ts:605-644 | the lanes by normalised route, and the counts of references |
| LaneDescriptors.DecideLanes | scripts/build-data/generate-safety-score-v9-lane-emitter-descriptors.ts:659-693 | descriptors, listed lanes and counts by reason over the lanes in key order |
| LaneDescriptors.Derive | scripts/build-data/generate-safety-score-v9-lane-emitter-descriptors.ts:596-729 | the whole artefact |
| LaneCatalogue.LanesMean | scripts/build-data/generate-safety-score-v9-lane-emitter-descriptors.ts:605-644 | the lanes are exactly the keys that some bridge control refers to; the chain is that of the first reference, the contributors are those of all |
| LaneCatalogue.DerivedIsCatalogue | scripts/build-data/generate-safety-score-v9-lane-emitter-descriptors.ts:646-697 | every derived artefact: each lane has a descriptor or is listed, never both, and nothing else is; descriptors describe the last record of their lane, against which nothing holds; listed lanes tell the strongest reason, the assets, controls, ids without emitter and events without screen; both in the order of their keys |
| LaneCatalogue.CoveredExactly | scripts/build-data/generate-safety-score-v9-lane-emitter-descriptors.ts:655-693 | a lane has a descriptor if and only if its last record passes, is listed as not reviewed if and only if no record names it, and for another reason otherwise |
| LaneCounts.DerivedCounts | scripts/build-data/generate-safety-score-v9-lane-emitter-descriptors.ts:605-722 | the counts: of references by what they are, of lanes on other chains, and of each reason by the lanes listed for it and the stray subjects |
| LaneLaws.Conservation | scripts/build-data/generate-safety-score-v9-lane-emitter-descriptors.ts:701-722 | lanes are covered plus listed; the counts by reason are the lanes listed plus the inventory subjects that are no lane; every route reference counts once |
| LaneLaws.LawfulChains | scripts/build-data/generate-safety-score-v9-lane-emitter-descriptors.ts:613-636 | no lane has two chains, whatever the records |
| LaneLaws.OrderIndependent | scripts/build-data/generate-safety-score-v9-lane-emitter-descriptors.ts:596-729 | the artefact depends on the order neither of records nor of route references |
| LaneLaws.FirstChainDecides | scripts/build-data/generate-safety-score-v9-lane-emitter-descriptors.ts:631-636 | what that guards against: of two entries with one key and two chains, the first gives the lane its chain, and a descriptor granted in one order is refused in the other |

## Left out

- Text is a sequence of characters; JavaScript's UTF-16 units, and so its order of characters outside
  the basic plane, are not modelled. `\s` and `trim` are their common white-space set.
- Only the token expression and the INSERT header expression are modelled, as scanners; no other regular
  expression is. The statement finders that read the stripped SQL are not modelled.
- The TypeScript syntax-tree work behind the module graphs, and `runtimeInbound` and reporting in the
  unused-code check: the graphs are given.
- Clock readings given to the limiter do not decrease.
- JSON text, the snapshot validators, sids, digests, stable-id segments, lower case, chain-scoped identifiers,
  runtime-pin parsing and path classification are opaque functions, and so is `normalizeDeploymentId` in the
  key migration. Assumed of them: JSON text reads back what was written and is not empty; the two validators
  are idempotent, and the one for recomputed snapshots keeps the sid; composed stable ids are canonical.
  Of digests, only the few compared for one candidate are taken to differ, and only where a lemma says so.
- Recomputed snapshots pass their own validator unchanged: a guard of the model's recompute step.
- No trusted record in the initial store passes for a key that it does not hash to; the protocol then
  keeps it so.
- KV expiry and eventual consistency appear only as reads that may fail, miss or return any version ever
  put. Pruning of quota rows after their day is not modelled.
- HTTP status codes other than 200, headers, body limits, input validation and origin checks of the
  snapshot function.
- LaneLaws.OrderIndependent: takes of the chain registry that EVM ids hold no colon and resolve to no other
  id, and of lower case that it is idempotent after trimming. The registry literal meets this; it is not
  part of this model.
- Test paths, support paths and fixture paths can be had in any number, where unbounded growth is shown.
- Reasons and provenance text of migration rows other than retirements, and the counts by resolution.
- The pilot list, provenance fields, controller counts and sidecar counts of the lane artefact; loading
  and shape checks of the inventory.
- Connection groups, worker summaries and printing of the cron report; job names stand for themselves.
- Git, wrangler, D1 and KV transport, file and command-line handling, and printing everywhere.
- Registry literals, adjudication tables and policy texts: parameters.
