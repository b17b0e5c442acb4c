# Verified model of the catalog server's algorithmic core

A Dafny model of the parts of the server whose correctness is not visible from one function body, with proofs
about all inputs, all runs and all reachable states. `dafny verify dfyconfig.toml` checks everything.

| files | what they model |
|---|---|
| `Sql`, `PolicyCondition`, `PolicyBlocks`, `PolicyMatch` | required-predicate policies: for every table occurrence in every query block, whether the block's WHERE enforces a row policy |
| `PolicyConjuncts`, `PolicySoundness`, `PolicyReport` | what that decision means: it depends only on the multiset of conjuncts, and a reported match is sound exactly when no other visible column can be confused with a policy column |
| `JoinSearch`, `MetricSpan` | breadth-first search for join paths; the sliding window over label mentions |
| `AuditChain` | the hash-chained audit log: append, restart, verify |
| `SqlMask`, `PredicateTokens`, `SqlQuoting` | maskers, token scanner and quoting printers, on ASCII text |
| `RateLimiter`, `ResultCache`, `CircuitBreaker`, `AsyncJobs` | services with bounded state, as classes, and their behaviour over whole runs |
| `SnapshotApply` | merging a physical snapshot into the catalog rows |
| `GoldenSelection`, `PlanWalk` | round-robin choice of evaluation cases; scoring of a PostgreSQL plan |
| `Calendar`, `TimeRange`, `TimeCues` | Gregorian calendar arithmetic, the conditions rendered for time ranges, and the ranges of time expressions |
| `Basics`, `Lists`, `Text` | optional values, sizes and ends of collections; gathering over lists; ASCII case folding, trimming and numerals |

Conventions of the model:

- The SQL statements start as trees (`Sql.Node`); both dialects share the tree type, and `Sql.Kids` gives the order in
  which each dialect's library visits children. Conditions have three-valued truth (ISO/IEC 9075:1992, section 8.12).
  What the standard leaves to the server (truth of non-boolean values, every operator that is no connective) is a
  parameter of type `Server`, so the theorems hold for every choice of it. An atom's canonical key is its tree with
  qualifiers erased, in place of the printed text.
- An object whose methods update fields is a class; every mutating method is specified by a function of the old state,
  and the theorems are about runs of these functions. Time is an integer that a caller passes in. Locks make every
  method one atomic step, so runs interleave whole methods (`AsyncJobs.Step`).
- A digest is a function of a text that is injective and produces no line break; canonical JSON is an injective encoding
  (`AuditChain.CollisionFree`). Files are sequences of lines.

## Results where the code does not meet the obvious claim

Each is proved, with the exact condition under which the claim holds or with a concrete input that breaks it.

- A policy reported as present is not always enforced. Both qualifier tests accept the bare table name even when the
  occurrence has another alias, and column names are compared without case. `PolicyReport.ReportSoundExactly` gives the
  exact condition, `HiddenTableNameExample` a FROM clause whose reports cannot be trusted. That no other source is exposed
  under a matching name is enough on MySQL (`ExposedOnceEnoughForMySQL`) but not on PostgreSQL (`CaseTwinExample`), and
  the sources of enclosing blocks count too (`OuterTableExample`).
- A backslash in a literal can make the quoted form end early for the scanner: `SqlQuoting.QuotedLiteralIsOneToken` is
  an equivalence with `SafeLiteral`; `BackslashQuoteUnsafe` is the counterexample.
- The 14-digit time condition is right exactly when the range ends before 9999-12-31, because the next day prints with a
  five-digit year; the month condition is right exactly for whole months.
- The pattern for raw dates lets texts such as 20250231 through. A raw date selects its day exactly when it is one: date
  and timestamp columns otherwise get no condition at all and return every row (`TimeRange.RawDateInstants`), 14-digit
  columns likewise (`RawDateDatetimes`), and day texts return no row (`RawDateDayTexts`).
- A round of repeated questions ends the round-robin selection early: it is full exactly when no round is stale.
- Applying a snapshot again always leaves the rows as they are, but it counts updates, and writes the unchanged file,
  unless columns with one key state the same facts; that condition is exact for both
  (`SnapshotApply.ApplyIsIdempotent`, `WritesOnlyChangesExactly`, `NeedlessWriteExample`).
- Snapshots of other schemas leave a row alone exactly when none of its names has a dot
  (`SnapshotApply.SafeFromOtherSchemasExactly`).
- An audit line over the scanner's limit ends both verification and resumption there (`AuditChain.LongLineEndsProtection`),
  so a remembered tip pins a file exactly when no entry is behind such a line (`AuditChain.TipPinsFileExactly`).
- Queries of two different profiles can share a cache key exactly when one profile is the other followed by NUL and
  something that does not begin with a blank (`ResultCache.ProfilesCollideExactly`).

## Model

| member | source | states |
|---|---|---|
| PolicyCondition.FlattenMySQLAnd | internal/dbconn/predicate_policy_mysql.go:128-141 | the recursive method returns exactly the top-level conjuncts, looking through parentheses |
| PolicyCondition.FlattenPostgresAnd | internal/dbconn/predicate_policy_pg.go:135-147 | the same for n-ary PostgreSQL conjunctions, where parentheses leave no node |
| PolicyCondition.FlattenHolds | internal/dbconn/predicate_policy_mysql.go:128-141 | flattening preserves meaning: an expression is TRUE exactly when all its flattened conjuncts are, on any row and any server |
| PolicyCondition.NoFaultRefs | internal/dbconn/predicate_policy_mysql.go:164-198 | when the column check passes, every column reference of the expression passed it individually |
| PolicyCondition.ColumnVisitor.Accept | internal/dbconn/predicate_policy_mysql.go:156-202 | a whole traversal ends with the first refusal in visiting order, or with exactly the columns below the node |
| PolicyCondition.PostgresNormalizer.Normalize | internal/dbconn/predicate_policy_pg.go:207-229 | the rewriting walk over a cloned node ends with the first refusal in visiting order, or with the tree without qualifiers and exactly the columns below it |
| PolicyCondition.CanonicalPostgresConditionAtom | internal/dbconn/predicate_policy_pg.go:149-170 | an atom gets its canonical key and its columns, or the first refusal |
| PolicyCondition.ParseMySQLPolicyCondition | internal/dbconn/predicate_policy_mysql.go:13-42 | the loop over conjuncts yields the compiled condition, or the first bad atom, or the no-column error |
| PolicyCondition.ParsePostgresPolicyCondition | internal/dbconn/predicate_policy_pg.go:14-47 | the same for PostgreSQL |
| PolicyCondition.ParsePredicateCondition | internal/dbconn/predicate_policy.go:75-116 | dialect, condition and allowed columns are trimmed and folded, then: blank condition, no allowed column, unknown dialect, text that does not parse, or the compiled condition, in that order |
| PolicyCondition.MySQLQueryAtoms | internal/dbconn/predicate_policy_mysql.go:341-357 | the evidence is exactly the keys of the conjuncts all of whose columns bind to the occurrence |
| PolicyCondition.PostgresQueryAtoms | internal/dbconn/predicate_policy_pg.go:172-205 | the same for PostgreSQL |
| PolicyCondition.ContainsAllAtoms | internal/dbconn/predicate_policy.go:258-270 | the counting loop returns true exactly when the wanted atoms are a sub-multiset of the available ones |
| PolicyConjuncts.MatchIgnoresArrangement | internal/dbconn/predicate_policy.go:258-270 | conditions and WHEREs with the same conjuncts get the same decision |
| PolicyConjuncts.CompileIgnoresArrangement | internal/dbconn/predicate_policy.go:75-116 | conditions with the same conjuncts compile to the same columns and the same multiset of atoms, or both fail |
| PolicyConjuncts.RearrangingInvisible | internal/dbconn/predicate_policy_mysql.go:128-141 | any sequence of swaps, re-associations and added or removed parentheses, in the WHERE and in the condition, leaves the decision the same |
| PolicyConjuncts.RenderedConditionMatches | internal/dbconn/predicate_policy_mysql.go:44-62 | a WHERE whose conjuncts include those of the condition rendered for the occurrence's alias always matches |
| PolicyBlocks.BlocksOfStatement | internal/dbconn/predicate_policy_pg.go:365-398 | blocks are numbered 1, 2, ... in preorder, none is missed, and the scope at each is exactly the WITH names of all nodes on the way down, its own included |
| PolicyMatch.Collect | internal/dbconn/predicate_policy_mysql.go:297-339 | collecting a FROM item returns its unshadowed tables left to right and counts its sources |
| PolicyMatch.DirectOccurrences | internal/dbconn/predicate_policy_pg.go:324-363 | a block's occurrences are the unshadowed tables among its FROM leaves, each told the number of sources |
| PolicyMatch.DecideBlock | internal/dbconn/predicate_policy_mysql.go:228-260 | a block's entries are the decisions for each occurrence and each applicable policy, in order |
| PolicyMatch.MySQLBlockVisitor.Accept | internal/dbconn/predicate_policy_mysql.go:228-284 | traversing any subtree restores both stacks, and the SELECTs entered are those of the recursive enumeration under the scope on top |
| PolicyMatch.PostgresBlockWalk.Walk | internal/dbconn/predicate_policy_pg.go:365-398 | the recursive walk visits the same enumeration of blocks |
| PolicyMatch.MatchMySQL | internal/dbconn/predicate_policy_mysql.go:64-94 | the report is the decisions of all blocks of the statement in preorder |
| PolicyMatch.MatchPostgres | internal/dbconn/predicate_policy_pg.go:82-122 | the same for PostgreSQL |
| PolicyMatch.MatchRequiredPredicates | internal/dbconn/predicate_policy.go:193-227 | a policy of another dialect is an error; otherwise all decisions are reported and the missing list is exactly the refused ones |
| PolicyMatch.UnmatchedExact | internal/dbconn/predicate_policy.go:221-226 | an entry is missing exactly when it is reported and refused |
| PolicyMatch.ReportCoversOccurrences | internal/dbconn/predicate_policy.go:193-256 | an entry is in the report exactly when it decides some policy for some unshadowed table of some block |
| PolicyReport.CollectedDescribes | internal/dbconn/predicate_policy_mysql.go:297-339 | every occurrence collected from a FROM clause describes the source it came from: exposed name, schema unless an alias hides it, and a source count that is the number of sources on MySQL and at most that on PostgreSQL |
| PolicyReport.MatchedEntryEnforced | internal/dbconn/predicate_policy.go:193-270 | every matched entry of every report belongs to a table of some block, and unless another visible column is confusable with a policy column, on every row combination on which the block's WHERE is TRUE the condition is TRUE on that table's row |
| PolicyReport.ReportSoundExactly | internal/dbconn/predicate_policy.go:193-270 | over all top-level SELECTs without WITH that read a FROM clause, all policies, rows and servers: reports about a table of it can be trusted if and only if no visible column is confusable with one of its policy columns |
| PolicyReport.ExposedOnceEnoughForMySQL | internal/dbconn/predicate_policy_mysql.go:359-370 | on MySQL matching is sound when no other visible source is exposed under the occurrence's alias or table |
| PolicyReport.ExposedOnceForPostgres | internal/dbconn/predicate_policy_pg.go:172-205 | on PostgreSQL it takes two facts more: no columns that differ by case alone, and every FROM item counted |
| PolicyReport.CaseTwinExample | internal/dbconn/predicate_policy_pg.go:178-185 | without the first of them matching is unsound in a one-table block |
| PolicyReport.OuterTableExample | internal/dbconn/predicate_policy_mysql.go:365-369 | looking only at the block's own sources is not enough: an enclosing block's table can be named |
| PolicyReport.HiddenTableNameExample | internal/dbconn/predicate_policy_pg.go:314-322 | reports on FROM orders AS o, orders cannot be trusted for the first table, on either dialect |
| PolicyReport.SingleTableExample | internal/dbconn/predicate_policy.go:193-270 | reports on FROM orders can |
| PolicySoundness.NoConfusionSound | internal/dbconn/predicate_policy_mysql.go:341-370 | for an occurrence among given sources without confusable columns, every match is enforced, for every query, row combination and server |
| PolicySoundness.ConfusionBreaks | internal/dbconn/predicate_policy_mysql.go:359-370 | for every confusable column it builds a query that matches and a row combination on which the policy fails |
| PolicySoundness.SoundExactly | internal/dbconn/predicate_policy_mysql.go:341-370 | the two together: for given sources the decision is sound if and only if nothing is confusable |
| PolicySoundness.SameKeySameValue | internal/dbconn/predicate_policy_mysql.go:143-154 | expressions with one canonical key have one value once their like-keyed columns do |
| JoinSearch.FindJoinPath | internal/catalog/join.go:109-142 | Found exactly when the tables are equal or some path within the bound exists; the path returned is a path, and a shortest one |
| JoinSearch.Expand | internal/catalog/join.go:119-139 | expanding one table keeps the search invariant or returns a shortest path to the target |
| JoinSearch.NothingNearer | internal/catalog/join.go:109-142 | while every nearer table is settled, no path to an unseen target is short |
| JoinSearch.PathChains | internal/catalog/join.go:165-188 | the edges of a path chain from the source to the target |
| JoinSearch.LoadedAllSymmetric | internal/catalog/overrides.go:269-273 | after any sequence of loads every edge has a mirror edge, and edges are filed under their own start |
| JoinSearch.ReversePath | internal/catalog/load.go:308-312 | every path has a path of the same length back |
| JoinSearch.SearchSymmetric | internal/catalog/join.go:109-142 | searching from either end gives the same verdict and the same depth |
| JoinSearch.PathConfidence | internal/catalog/join.go:145-163 | the running minimum, less 0.05 per further edge, never below 0 |
| JoinSearch.ConfidenceBounds | internal/catalog/join.go:145-163 | the confidence lies between 0 and 1, is 0 or no more than that of any edge, and never rises when the path goes on |
| MetricSpan.MinimumMetricTokenSpan | internal/catalog/metrics.go:367-410 | the result is the least length of an interval that mentions the needed number of different labels, and 0 exactly when there is none |
| MetricSpan.Shrink | internal/catalog/metrics.go:394-407 | the inner loop leaves a window that is too poor and has recorded the best window ending here |
| MetricSpan.WindowCovers | internal/catalog/metrics.go:367-410 | a rich window of events spans a rich interval |
| MetricSpan.CoverHasWindow | internal/catalog/metrics.go:367-410 | every rich interval contains a rich window no longer than it |
| AuditChain.VerifyAuditChain | internal/mcp/audit.go:129-194 | the verdict is valid exactly when everything scanned is a chain, and otherwise names the longest verified prefix, the first bad line and why it is bad |
| AuditChain.SameTipSameHistory | internal/mcp/audit.go:129-194 | two chains that end in the same hash are equal record for record |
| AuditChain.SameTipSameFile | internal/mcp/audit.go:129-194 | two files that verify with the same tip hold the same scanned entries |
| AuditChain.TipPinsFileExactly | internal/mcp/audit.go:129-194 | for a file that verifies, every other scannable file that verifies with its tip has the same entries if and only if all its entries come before the first over-long line |
| AuditChain.DrawnChainIsPrefix | internal/mcp/audit.go:168-187 | a chain made of records of a valid chain, in any order and with repetition, is a prefix of it |
| AuditChain.LongLineEndsProtection | internal/mcp/audit.go:102-152 | what follows the first over-long line influences neither the verdict nor the tip that a restart resumes from |
| AuditChain.LastAuditTip | internal/mcp/audit.go:102-125 | the loop returns the last well-formed entry that the scanner reaches |
| AuditChain.LastTipOfChain | internal/mcp/audit.go:102-125 | on a file that verifies this is the end of its chain |
| AuditChain.AuditLog.AppendAudit | internal/mcp/audit.go:33-74 | appending links to the remembered or re-read tip, changes no other file, keeps every file verifiable, and changes nothing when writing fails |
| AuditChain.AuditLog.Verify | internal/mcp/audit.go:129-194 | verifying any file of a running log, restarts included, reports no break |
| SqlMask.MaskSQL | internal/catalog/validate.go:962-1026 | the flag loop computes the mask with a mode for double quotes |
| SqlMask.StripSQL | internal/dbconn/sqlguard.go:81-135 | the flag loop computes the mask without that mode |
| SqlMask.MaskedPointwise | internal/catalog/validate.go:962-1026 | every output byte is the input byte or a space |
| SqlMask.MaskIdempotent | internal/dbconn/sqlguard.go:81-135 | masking masked text changes nothing, for both maskers |
| SqlMask.MasksAgree | internal/catalog/validate.go:962-1026 | the maskers agree on every text without double quotes |
| SqlMask.PiecesMasked | internal/catalog/validate.go:962-1026 | on text made of code, comments, literals and quoted names, the last perhaps left open, exactly comments and literals are blanked; where double quotes have no mode they are code |
| SqlMask.EveryTextLexes | internal/catalog/validate.go:962-1026 | every text is made of such pieces, for both maskers |
| PredicateTokens.ScanPredicateTokens | internal/catalog/sqlpredicate.go:118-223 | the scanning loop returns the tokens found from the start |
| PredicateTokens.PostgresDollarQuoteEnd | internal/catalog/sqlpredicate.go:239-254 | the end of a dollar-quote opener, or the start when there is none |
| PredicateTokens.SkipLiteral | internal/catalog/sqlpredicate.go:143-160 | the position after the closing quote, honouring backslashes and doubled quotes |
| PredicateTokens.ScannerUndoesPrinter | internal/catalog/sqlpredicate.go:118-223 | well-formed lexemes printed with separators that begin with a blank scan back to their tokens |
| SqlQuoting.QuotedIdentifierIsOneToken | internal/mcp/dbatools.go:36-48 | whatever the name holds, its quoted form scans to one identifier, the trimmed name in upper case |
| SqlQuoting.QuotedLiteralIsOneToken | internal/mcp/dbatools.go:51-53 | a quoted literal scans to one string token exactly when its text is safe |
| SqlQuoting.NoBackslashSafe | internal/mcp/dbatools.go:51-53 | text without backslashes is safe |
| SqlQuoting.BackslashQuoteUnsafe | internal/mcp/dbatools.go:51-53 | a backslash before an inner quote is not |
| RateLimiter.FeedbackRateLimiter.Allow | internal/mcp/feedback.go:53-92 | one request: the verdict, the retry delay and the new table are those of the specification, eviction loops included |
| RateLimiter.TwiceTheLimitAtMost | internal/mcp/feedback.go:53-92 | on runs with a monotone clock no interval of one window length sees more than twice the limit accepted for a key |
| RateLimiter.TableBounded | internal/mcp/feedback.go:60-90 | there are never more buckets than the bound |
| RateLimiter.EvictionInvisible | internal/mcp/feedback.go:53-92 | apart from refusals for want of room, verdicts equal those of a limiter that never evicts |
| ResultCache.Cache.Put | internal/mcp/execguard.go:108-128 | one Put is one step of the specification the runs are made of, the eviction loop included: a result is stored unless caching is off or it is too large, and room is made when the cache is full |
| ResultCache.HitIsLatest | internal/mcp/execguard.go:74-128 | after any run a hit is the latest kept result of its key, within that result's own lifetime |
| ResultCache.CacheBounded | internal/mcp/execguard.go:108-128 | never more than 100 entries |
| ResultCache.CacheKeyInjective | internal/mcp/execguard.go:88-90 | equal keys mean equal profile, trimmed statement and bound, unless one profile goes on with NUL where the other ends; so always within a profile and for profiles without NUL |
| ResultCache.ProfilesCollideExactly | internal/mcp/execguard.go:88-90 | two different profiles share a key for some queries if and only if one is the other followed by NUL and something that does not begin with a blank |
| CircuitBreaker.BreakerTracksFailures | internal/dbconn/manager.go:169-186 | the count is the number of failures since the last success |
| CircuitBreaker.RefusedExactly | internal/dbconn/manager.go:157-186 | calls are refused exactly until 30 seconds after the latest failure, once there are three since the last success |
| AsyncJobs.JobStore.Submit | internal/mcp/asyncquery.go:78-114 | pruning, then refusal by either limit, or one new running job; nothing else changes |
| AsyncJobs.JobStore.Prune | internal/mcp/asyncquery.go:56-63 | exactly the finished jobs past their lifetime go |
| AsyncJobs.StoreStaysOk | internal/mcp/asyncquery.go:55-137 | under any interleaving: at most 200 jobs, at most 5 running per user, running exactly when unfinished |
| AsyncJobs.RunningUntilCompleted | internal/mcp/asyncquery.go:56-63 | a running job stays in the store until its own completion |
| AsyncJobs.ResultSurvives | internal/mcp/asyncquery.go:56-63 | a finished result is unchanged for at least its lifetime |
| SnapshotApply.ApplyPhysicalSnapshot | internal/catalog/syncapply.go:46-166 | merge, then split into kept rows and retire candidates, with exact counts; the file is written exactly when something was added, counted as updated, or pruned |
| SnapshotApply.MergeColumn | internal/catalog/syncapply.go:70-108 | one column updates the row the index finds or appends a new row, and the index stays right |
| SnapshotApply.UpdateFacts | internal/catalog/syncapply.go:214-220 | writing the facts reports a change exactly when some fact differed |
| SnapshotApply.MergeKeepsPlaces | internal/catalog/syncapply.go:70-108 | existing rows keep their places and take only the facts of the column with their key; new rows follow |
| SnapshotApply.RowUntouched | internal/catalog/syncapply.go:70-108 | for distinct keys a row stays as it was if and only if no collected column with its key reaches it with different facts |
| SnapshotApply.BusinessTextSurvives | internal/catalog/syncapply.go:70-108 | no merge writes any field of an existing row but the six facts |
| SnapshotApply.SecondApplySameRows | internal/catalog/syncapply.go:46-166 | whatever the columns say, a second apply of a snapshot adds nothing and leaves the rows as the first left them |
| SnapshotApply.ApplyIsIdempotent | internal/catalog/syncapply.go:46-166 | a second apply also counts no update if and only if columns with one key state the same facts, so always for distinct keys |
| SnapshotApply.WritesOnlyChangesExactly | internal/catalog/syncapply.go:130-141 | a file is written exactly when its rows change, whatever it holds, if and only if columns with one key state the same facts |
| SnapshotApply.ChangesAreWritten | internal/catalog/syncapply.go:130-141 | a file whose rows change is always written |
| SnapshotApply.NeedlessWriteExample | internal/catalog/syncapply.go:130-141 | two columns of one key with different ordinals: a file that already has the second is written unchanged |
| SnapshotApply.DuplicateKeysFlipFlop | internal/catalog/syncapply.go:70-108 | two columns with one key and different ordinals leave a second apply something to do, whatever the rows |
| SnapshotApply.KeepsAllWithoutPrune | internal/catalog/syncapply.go:110-128 | without pruning every row is kept |
| SnapshotApply.PruneKeepsExactly | internal/catalog/syncapply.go:110-128 | with pruning exactly the rows of uncollected schemas and the collected rows are kept |
| SnapshotApply.UncollectedSchemaUntouched | internal/catalog/syncapply.go:46-108 | a merge leaves a row of an uncollected schema as it is when its names have no dots, or when no schema name has one |
| SnapshotApply.SafeFromOtherSchemasExactly | internal/catalog/syncapply.go:62-64 | a row is safe from all snapshots of other schemas if and only if none of its names has a dot |
| SnapshotApply.DottedRowChanged | internal/catalog/syncapply.go:62-64 | for every row with a dot in a name there is a column of another schema that rewrites it |
| SnapshotApply.UpsertRelations | internal/catalog/syncapply.go:170-209 | the loop appends the complete relations with new keys, in order, and counts them |
| SnapshotApply.UpsertFiles | internal/catalog/syncapply.go:170-209 | existing relations stay first and unchanged, and every complete relation ends up filed |
| SnapshotApply.UpsertOnce | internal/catalog/syncapply.go:193-203 | an added relation's key occurs once |
| SnapshotApply.SecondUpsertAddsNothing | internal/catalog/syncapply.go:170-209 | loading the same relations again adds none |
| GoldenSelection.Select | cmd/jamypg-goldgen/main.go:106-130 | the loops return the first occurrences of new questions in round-robin order, up to the target or the first round that offers none |
| GoldenSelection.SelectionIsDistinct | cmd/jamypg-goldgen/main.go:106-130 | whatever the buckets hold: at most the target, distinct questions, none of them curated |
| GoldenSelection.FullUnlessStale | cmd/jamypg-goldgen/main.go:125-128 | the selection has min(want, available questions) cases exactly when no round goes stale before that |
| GoldenSelection.StaleRoundExample | cmd/jamypg-goldgen/main.go:118-120 | a repeated question ends the selection although a new one is left |
| GoldenSelection.SelectionIsFull | cmd/jamypg-goldgen/main.go:106-130 | with distinct questions exactly min(want, number of candidates) cases are selected |
| GoldenSelection.SelectionIsFair | cmd/jamypg-goldgen/main.go:110-124 | with distinct questions, while a bucket has cases left no other is more than one case ahead |
| PlanWalk.AnalyzePostgresPlan | internal/dbconn/explain.go:166-253 | step k describes node k in preorder, has ID k and a smaller parent one level up that is really its parent; the maximum, the factors, the score and the risk level follow from all nodes; an empty plan is low risk |
| PlanWalk.AnyChildHasCond | internal/dbconn/explain.go:243-253 | true exactly when some node strictly below carries a condition |
| PlanWalk.Walker.Walk | internal/dbconn/explain.go:185-240 | walking a subtree adds exactly its steps, factors and points to the state, from the next free number on |
| PlanWalk.CartesianIsHigh | internal/dbconn/explain.go:214-219 | a nested loop without any join condition below it makes the plan high risk wherever it is |
| PlanWalk.LowRiskMeans | internal/dbconn/explain.go:206-240 | a low-risk plan has no large scan, no unconditional join, and not both a huge step and a high cost |
| Calendar.OrderIsDayOrder | internal/catalog/timeparse.go:130-168 | calendar order is the order of day numbers, which are unique |
| Calendar.NextDayIsSuccessor | internal/catalog/timeparse.go:152-158 | the next day is a valid day, one later, with none between |
| Calendar.AddDaysMovesDayNumber | internal/catalog/timeparse.go:43-109 | adding days, also negative ones, moves the day number by that much |
| Calendar.ParseUndoesFormat | internal/catalog/timeparse.go:24-24 | the eight-digit text of a day reads back as that day |
| Calendar.FormatUndoesParse | internal/catalog/timeparse.go:152-155 | whatever parses is the eight-digit text of a valid day |
| Calendar.TextOrderIsDateOrder | internal/catalog/timeparse.go:145-149 | byte order of eight-digit texts is calendar order |
| TimeRange.DayTextsSelected | internal/catalog/timeparse.go:145-149 | day-text columns get exactly the days of the range |
| TimeRange.InstantsSelected | internal/catalog/timeparse.go:150-160 | date and timestamp columns get exactly the instants of those days |
| TimeRange.DatetimeFormRightUnlessLastDay | internal/catalog/timeparse.go:157-159 | 14-digit columns get exactly those days if and only if the range ends before 9999-12-31 |
| TimeRange.MonthsSelected | internal/catalog/timeparse.go:139-144 | month columns get the months from that of the first day to that of the last |
| TimeRange.MonthFormRightForWholeMonths | internal/catalog/timeparse.go:139-144 | that is exactly the range if and only if it consists of whole months |
| TimeRange.RawDateInstants | internal/catalog/timeparse.go:119-160 | for a raw date a date or timestamp column gets the instants of one day, the one written, if and only if there is such a day; otherwise there is no condition |
| TimeRange.RawDateDatetimes | internal/catalog/timeparse.go:119-159 | a 14-digit column gets that day if and only if there is such a day and it is not 9999-12-31; without such a day there is no condition |
| TimeRange.RawDateDayTexts | internal/catalog/timeparse.go:119-168 | a column of day texts gets that day if and only if there is one, and otherwise no row |
| TimeRange.RawDateMonth | internal/catalog/timeparse.go:119-144 | a month column gets the month written for every text the pattern lets through, whatever its day |
| TimeRange.RecognisedDays | internal/catalog/search.go:816-816 | of the texts the pattern lets through, those are days whose day is at least 1 and at most the length of the month |
| TimeRange.ThirtyFirstOfFebruary | internal/catalog/search.go:816-816 | the pattern lets 20250231 through, which is no day |
| TimeCues.YearsBack | internal/catalog/timeparse.go:72-75 | going back years keeps month and day, except that a missing 29 February becomes 1 March |
| TimeCues.RangeIsMeaning | internal/catalog/timeparse.go:43-117 | the range of every recognised expression holds exactly the days the expression speaks of |
| TimeCues.ExpressionSelects | internal/catalog/timeparse.go:130-168 | the rendered condition of an expression selects exactly those days in all three forms |

## Left out

- PolicyReport.MatchedEntryEnforced: speaks of one block's own sources inside any enclosing ones; which enclosing sources a subquery of a given statement sees (lateral items, ON clauses) is not derived from the tree.
- PolicyReport.ExposedOnceEnoughForMySQL: gives a sufficient condition a reader can check; the exact one is in PolicyReport.ReportSoundExactly.
- PolicyCondition.ParsePredicateCondition: keeps the columns as a set and the atoms in the order of the conjuncts, where the source sorts both lists; MariaDB shares MySQL's path, so a policy compiled for the one is not refused by the other.
- PolicyCondition.PostgresNormalizer.Normalize: returns a rebuilt tree in place of rewriting a clone's nodes.
- JoinSearch.PathConfidence: does not round to the display precision.
- AuditChain.AuditLog.AppendAudit: takes a write as complete or absent, so a torn line is not modelled; sequence numbers are unbounded integers in place of JSON floats.
- PredicateTokens.ScannerUndoesPrinter: covers terminated comments; after an unterminated block comment the scanner emits the last byte as a token.
- SnapshotApply.ApplyPhysicalSnapshot: takes rows as maps from field names to texts; JSON null rows, backups and the response's notes are not modelled.
- AsyncJobs.JobStore.Submit: takes the random job id as a fresh value and leaves the query itself to the environment.
- TimeRange.InstantsSelected: for a range that ends 9999-12-31, assumes a database that reads DATE '10000-01-01'.
- Finding raw dates in a question: the model starts from the eight digits left when the separators are taken out.
- TimeCues.ExpressionSelects: covers years that print with four digits; ranges that go back before year 0 are left out.
- Scope names as the code has them: a WITH name shadows a table of that name also inside the WITH's own body, where a non-recursive WITH of the SQL standard would still see the table.
- Joins by NATURAL or USING: they carry no written condition, and the matcher ignores them too.
- Printing and parsing of conditions, and the visitor that renders one for an alias in place: the model binds and compares trees.
- Phrase occurrences before the window search, and the table-scoped checks built on the token scanner (canonicalPredicateTokens, inPredicateClause, defaultFilterPresent): regular-expression style heuristics over the tokens.
- Recognising Korean and English time expressions: the model starts from the recognised expression with its numbers; the comparison and reporting-unit entries carry no range.
- The texts of conditions, risk messages and suggestions: conditions are trees over their literals and risk factors carry their kind and figures.
- The MySQL plan walk: it iterates an unordered map, so its step order is not fixed.
- Concurrent SetTTL and put in the result cache: the cache results are about sequential runs; overflow of the lifetime in nanoseconds is not modelled.
- The sorting of bucket keys and of cases inside buckets, and the numbering of the output file: the selection starts from sorted buckets.
- Absent policies: a policy of the model always has a condition.
- HTTP, MCP transport, database drivers, file formats, metadata search and quality scores: plumbing and tuning without a deep property.
