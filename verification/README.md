# Evidence pipeline: a verified model

This project models the parts of cirewind whose correctness a case depends on: the canonical text behind every
identifier, the enumeration of workflow runs, the archive that survives crashes, the derivation of findings and of the
evidence graph, and the manifest and copy loops of the case file. To check it, run
`dafny verify dfyconfig.toml`.

| files | what they model |
|---|---|
| `Orders`, `Decimal`, `Lists` | string order, sorting, decimal text, arrays that are rewritten and sorted |
| `Canonical`, `CanonicalParser` | canonical JSON (a restricted form of RFC 8785): the printer, and a parser written apart from it |
| `Identity` | length-prefixed identifiers, subject keys, sorted sets of strings |
| `Window`, `PartitionTree`, `Enumerate`, `PartitionSuccess`, `Planning` | recursive partitioning of time windows, what it never loses and when it succeeds, and archive planning |
| `Attempts` | the loop that reads a changing parent run until two readings agree |
| `Archive`, `ArchiveRuns`, `ArchiveAppends`, `ArchiveCheckpoints`, `ArchiveIntegrity`, `ArchiveReferences`, `ArchiveReaders` | the two-phase archive, its runs with crashes, when a call succeeds, its foreign keys, which references resolve, and the readers |
| `BatchRows`, `ArchiveSnapshots`, `ArchiveStranded` | how normalized batches are stored, when a snapshot that reads them back is accepted, and a batch after which none is |
| `Normalize`, `NormalizeTheorems`, `Snapshots` | canonical batches, facts and snapshots |
| `Coalesce`, `CoalesceTheorems`, `Coverage` | folding findings through the state table, closing coverage for a negative |
| `GraphKinds`, `Graph`, `GraphProjection`, `GraphTheorems`, `GraphFits`, `GraphFacts`, `GraphClosure`, `GraphRules`, `GraphEdges`, `GraphMeaning` | the deduplicating evidence graph, what each finding adds to it, exactly when its edges join what they may join, and exactly which edges it holds |
| `Manifest`, `ManifestCheck`, `ManifestBuild`, `DuplicateKeys` | the manifest's printer, parser, budgets and check; the walk that rejects repeated names |
| `Copy`, `Logs` | bounded copies from readers that cut their bytes anyhow, and log downloads with renewal |

How things outside the code are represented:

- SHA-256 is a function that theorems about identity assume injective; the preimages are written out.
- The API server is a function from queries to answers; completeness assumes it answers from one fixed set of runs.
- Tables are maps and sets, a transaction is one step, and a crash may fall between any two steps.
- A reader follows an arbitrary plan of chunk sizes, stalls and failures; a writer may take less than it is given or fail.
- The iteration order of a Go map is an arbitrary choice, which the contracts show not to matter, or (a repository
  looked up by name) to matter exactly when a name is shared.
- A character of `Canonical` is a code point. In `Identity`, `Graph`, `Manifest` and `Copy` a character is one byte of a
  Go string.

Where documentation and code differ the model follows the code. Some places are worth knowing. A gap between a no-match
and a positive finding makes the no-match forgotten, so the verdict on one group depends on its order
(`CoalesceTheorems.GapForgetsNoMatch`); `ContradictionExactly` says when a group is contradictory in any order. A resumed
archive plan whose requested start is later than the watermark leaves the time between uncovered
(`Planning.ResumeHoleFreeExactly`).

With unique repository names, the graph obeys its own rules on what may join what exactly when the facts fit that its
findings are projected with (`GraphRules.EndpointRulesExactly`; `GraphFits` tells from their fields which do). Three
things break them: a dependency whose stated relation does not suit its caller or its target, a contradiction of a fact
known by a ref or a repository only, and a secret inherited at a step. For each there is a graph of one finding and of
facts that validation lets through (`GraphRules.LocalActionDeclaredBreaks`, `RefContradictedBreaks`,
`InheritedAtAStepBreaks`). Nothing stops a batch whose dependency contradicts a fact that is nowhere, and then no
snapshot can be read (`ArchiveStranded.UnknownContradictionIsTaken`); all other references are kept by foreign keys
(`ArchiveReferences.SelfContainedExactly`). A session that was prepared and never committed is invisible but makes a
disagreeing batch fail (`ArchiveAppends.PreparedIsInTheWay`). The integrity check takes a file "a" for a file whose name
is "a" and a carriage return, and one file whose name holds a whole further line for two
(`ManifestCheck.CarriageReturnIsLost`, `LineFeedIsLost`).

## Model

| member | source | states |
|---|---|---|
| CanonicalParser.RoundTrip | internal/evidence/canonical.go:147-255 | parsing the printed text of any well-formed accepted value, followed by any text that does not start with a digit, gives back exactly that value and that text; null, booleans, unbounded integers, escapes, arrays and objects included (sections 3.2.2.2 and 3.2.2.3 of RFC 8785) |
| CanonicalParser.UniquelyReadable | internal/evidence/canonical.go:147-255 | two printed values followed by non-digit text that agree as texts are one value and one rest: no printed text is ambiguous |
| CanonicalParser.IdentityDeterminesContent | internal/evidence/canonical.go:16-41 | under an injective hash, equal identifiers mean equal values and conversely |
| CanonicalParser.StringRoundTrip | internal/evidence/canonical.go:222-255 | an escaped string followed by its closing quote reads back as the string, whatever follows |
| CanonicalParser.WrittenAs | internal/evidence/canonical.go:228-252 | a character stands for itself exactly when it is no quote, no backslash and no control character below U+0020; quotes and backslashes get a backslash, five control characters their short escape, and exactly the others the \u00 form with lower-case digits |
| CanonicalParser.PlainIsUnchanged | internal/evidence/canonical.go:222-255 | a string is printed as it is, between quotes, exactly when all its characters stand for themselves |
| CanonicalParser.EscapedIsShortest | internal/evidence/canonical.go:222-255 | of all the texts that the parser reads as a string, the printed one is the shortest |
| CanonicalParser.NumberRoundTrip | internal/evidence/canonical.go:162-170 | the decimal text of any integer, negative or unbounded, reads back whole when no digit follows |
| CanonicalParser.AcceptsExactlyIntegers | internal/evidence/canonical.go:162-170 | of all texts in the JSON number grammar, those the printer accepts are exactly the shortest decimal texts of integers |
| CanonicalParser.ArrayRoundTrip | internal/evidence/canonical.go:171-181 | the array case of the inverse, comma and brackets included |
| CanonicalParser.ObjectRoundTrip | internal/evidence/canonical.go:182-202 | the object case of the inverse: sorted members read back to the same map |
| Canonical.WriteCanonical | internal/evidence/canonical.go:147-205 | the printer fails exactly on a number it does not accept at any depth, and otherwise appends exactly the canonical text to the buffer |
| Canonical.WriteArray | internal/evidence/canonical.go:171-181 | the array loop appends the array's text, or fails exactly when an element does |
| Canonical.WriteObject | internal/evidence/canonical.go:182-202 | whatever order the map is visited in, one text is appended, with keys in UTF-16 order |
| Canonical.WriteMembers | internal/evidence/canonical.go:188-201 | the member loop appends the members in key order, or fails exactly when a field does |
| Canonical.WriteJSONString | internal/evidence/canonical.go:222-255 | the escaping loop appends the quoted, escaped string |
| Canonical.WriteChar | internal/evidence/canonical.go:228-252 | one turn of the escaping loop: short escapes, \u00 escapes with lower-case hexadecimal digits, or the character |
| Canonical.LessUTF16 | internal/evidence/canonical.go:207-220 | the loop decides the lexicographic order of UTF-16 code units |
| Canonical.UnitsInjective | internal/evidence/canonical.go:207-220 | the UTF-16 encoding is injective, surrogate pairs included |
| Canonical.UnitsLessTotal | internal/evidence/canonical.go:207-220 | exactly one of less, equal, greater holds between two strings |
| Canonical.UnitsLessTransitive | internal/evidence/canonical.go:207-220 | the UTF-16 order is transitive |
| Canonical.UnitOrderVersusCodePoints | internal/evidence/canonical.go:207-220 | for two characters the UTF-16 order differs from code-point order exactly when one is beyond U+FFFF and the other in U+E000..U+FFFF (section 3.2.3 of RFC 8785) |
| Canonical.KeyOrderUnique | internal/evidence/canonical.go:182-187 | there is only one strictly ascending UTF-16 arrangement of a set of keys |
| Canonical.SortGivesKeyOrder | internal/evidence/canonical.go:182-187 | sorting the keys in any order they were visited gives that arrangement |
| Canonical.SortedKeys | internal/evidence/canonical.go:183-187 | the collected keys come out as the unique ascending arrangement |
| Decimal.ItoaInjective | internal/evidence/canonical.go:162-170 | two integers with the same decimal text are equal |
| Identity.PreimageInjective | internal/analyze/analyze.go:1584-1592 | the length-prefixed preimage determines the list of parts, over all lists of byte strings |
| Identity.DeterministicIDInjective | internal/analyze/analyze.go:1584-1592 | with an injective hash and prefixes free of colons, identifiers agree exactly when prefix and parts do |
| Identity.ComputeDeterministicID | internal/analyze/analyze.go:1584-1592 | the hashing loop computes the identifier of the whole preimage |
| Identity.SubjectKeyInjective | internal/analyze/literal.go:365-383 | the slash-separated subject key determines the subject, even when the step key contains slashes |
| Identity.KeyedMapsAgree | internal/analyze/literal.go:365-383 | a map keyed by the text answers every lookup as one keyed by the structured subject |
| Identity.SortedUniqueStrings | internal/analyze/literal.go:389-403 | the in-place sort and two-index squeeze leaves the ascending set of the input in the front of the slice |
| Identity.Squeeze | internal/analyze/literal.go:394-402 | the two-index loop: strictly ascending, same members |
| Identity.UnionStrings | internal/analyze/literal.go:385-387 | the ascending set of both lists |
| Identity.SortUniqueIsTheSet | internal/analyze/literal.go:389-403 | the result is strictly ascending and has exactly the members of the input |
| Identity.SortUniqueAgrees | internal/analyze/literal.go:389-403 | inputs with the same members give the same result |
| Enumerate.Complete | internal/collect/window.go:91-257 | completeness: against a fixed set of well-formed runs, every run created in the requested interval before the instant the walk reached is in the result or in the window of exactly one leaf marked gap or saturated, and each such leaf recorded gaps of its own; a walk that is not stopped reaches the end, a stopped one records a gap; without gaps the result is exactly the requested runs, sorted and without repeats |
| Enumerate.ResultIsComplete | internal/collect/window.go:91-146 | the same of the runs, tree and gaps that an enumeration returns: every requested run is returned, or is in exactly one marked leaf of the tree, or was created after the walk was stopped, and then there is a gap; runs ascend by creation time and ID, and no duplicate is counted |
| Enumerate.EnumerateRuns | internal/collect/window.go:91-146 | rejects exactly incomplete arguments; otherwise the result is the sorted first rows by run ID of the walk over the second cover, with the walk's gaps and one gap per malformed row |
| Enumerate.Deduplicate | internal/collect/window.go:117-134 | the map holds the first usable row of each run ID; malformed rows become gaps; duplicates and kept rows add up to the usable rows |
| Enumerate.SortedValues | internal/collect/window.go:135-144 | the values of the map, visited in any order, come out sorted by (created, ID) |
| Enumerate.NoDuplicates | internal/collect/window.go:117-134 | rows of an honest server lose nothing to deduplication and cause no gap |
| Window.SecondCoverIsLeast | internal/collect/window.go:259-269 | the cover is the least interval on whole seconds around the request |
| Window.SplitWindow | internal/collect/window.go:271-284 | the halves are aligned, non-empty, shorter, and meet at a common instant; how long they are is `HalvesAreHalves` |
| Window.SplitsWhen | internal/collect/window.go:271-284 | an aligned window is split exactly when it is longer than the bucket and holds two seconds |
| Window.HalvesAreHalves | internal/collect/window.go:271-284 | the halves of an aligned window differ by at most one second; a window longer than the longest duration gives up half of that instead |
| Window.AssignRunsToWindow | internal/collect/window.go:214-225 | boundary rows are kept exactly when the half-open window contains them; counts of kept and overlapping rows are right |
| Window.WithinIsFilter | internal/collect/window.go:214-225 | the rows kept are exactly those created in the window, without new repeats |
| Window.Partitioner.WalkWindow | internal/collect/window.go:148-212 | the recursion, updating gaps and work in place, gives the rows, node, gaps, work and probes of the walk, in order |
| Window.Partitioner.SplitOrSaturate | internal/collect/window.go:238-257 | splitting or saturating gives the rows, node, gaps, work and probes of the specification |
| PartitionTree.LeavesTile | internal/collect/window.go:148-284 | the leaf windows are contiguous, disjoint and on whole seconds, from the start of the window walked up to some instant, and to its end without an early stop |
| PartitionTree.TileOf | internal/collect/window.go:148-284 | every instant of a tiled window lies in exactly one tile |
| PartitionTree.TotalWork | internal/collect/window.go:148-257 | at most MaxPartitions probes are made and at most 2*MaxPartitions+1 nodes built |
| PartitionTree.WorkBound | internal/collect/window.go:148-257 | from any amount of work already done: every unit of work within the limit is one probe, and nodes number at most two per probe plus one |
| PartitionTree.ProbesAligned | internal/collect/window.go:286-290 | every window queried lies on whole seconds, so the filter written to the second loses nothing |
| PartitionTree.EveryMarkHasAGap | internal/collect/window.go:148-257 | the gaps are those of the leaves in order: none for a complete leaf, the density gap for a saturated one, and for a leaf marked gap its one reason, or race and shortfall together; a stopped walk records one |
| PartitionTree.OwnedIsMarked | internal/collect/window.go:148-257 | gaps are recorded if and only if some leaf is marked gap or saturated |
| PartitionTree.NothingLost | internal/collect/window.go:148-257 | rows returned are runs of the window, each once, and every run of the window outside the marked leaves is returned |
| PartitionTree.DistinctCount | internal/collect/window.go:190-205 | distinct rows of a set that are as many as the set are the whole set, which justifies stopping at the reported total |
| PartitionSuccess.EnumerationSucceeds | internal/collect/window.go:91-257 | success: if calls never fail, ranges below 1,000 runs are listed whole, every bucket too short to be halved is below 1,000, and MaxPartitions is at least one plus twice the depth of the cover for each five hundred runs in it, then the result is exactly the requested runs, sorted, without a gap |
| PartitionSuccess.DepthIsLogarithm | internal/collect/window.go:271-284 | the depth of a window, how often it can be halved on end, is at most the logarithm of its seconds, rounded up |
| PartitionSuccess.WalkSucceeds | internal/collect/window.go:148-257 | the same of one window from any amount of work already done: nothing is marked and no more work is done than the budget of the window |
| PartitionSuccess.SucceedsExactly | internal/collect/window.go:91-257 | with buckets of one second and that budget the enumeration has no gap if and only if every inclusive second of the cover holds fewer than 1,000 runs |
| PartitionSuccess.NoGapsMeansSparse | internal/collect/window.go:148-257 | against a fixed server, calls failing or not, a walk without gaps means that every inclusive second is below 1,000 runs |
| PartitionSuccess.DefaultsSuffice | internal/collect/window.go:91-110 | with the default limits that holds for any cover of up to 2^25 seconds with fewer than 82,000 runs |
| PartitionSuccess.LeafIsMarkedExactly | internal/collect/window.go:148-212 | for each reason a leaf may be marked with, and for a complete leaf and an early stop, the exact answers of the server that lead to it |
| PartitionSuccess.SaturatedExactly | internal/collect/window.go:238-257 | a window is saturated exactly when the ceiling of 1,000 is reached by its probe or its listing, or the listing is cut short, and it is too short to be halved |
| Planning.PlanArchive | internal/collect/window.go:343-382 | fails exactly on an absent cutoff, an empty window or an unidentified run; otherwise refresh and eviction are sorted, together a permutation of the input, and divided by eligibility |
| Planning.PlanIncrementalArchive | internal/collect/window.go:313-341 | a first collection takes the whole lookback before the request; a resumed one the later of the requested start and the watermark less the overlap; fails exactly when a sub-step does or the window is empty |
| Planning.LetGoExactly | internal/collect/window.go:365-371 | a plan lets go of exactly the runs that are finally complete, whose 65 days are over, and that were refreshed since; every other watched run is refreshed |
| Planning.WatchedInOrder | internal/collect/window.go:372-381 | both lists ascend by repository, and by run within one |
| Planning.DiscoveryReaches | internal/collect/window.go:343-358 | discovery ends at the cutoff and begins 15 minutes before the watermark or, without one, 65 days before the cutoff |
| Planning.EvictionPersists | internal/collect/window.go:361-381 | what one plan may evict every plan with a later cutoff may evict |
| Planning.ChainHasNoHole | internal/collect/window.go:343-358 | plans that each resume from the cutoff before cover every instant from the first start to the last cutoff |
| Planning.ResumeHoleFreeExactly | internal/collect/window.go:331-340 | a resumed plan covers everything from the watermark on if and only if the requested start is no later than the watermark |
| Attempts.CollectSnapshot | internal/collect/attempts.go:56-192 | refuses exactly incomplete arguments, and otherwise gives what the specification of the loop gives |
| Attempts.OlderBundles | internal/collect/attempts.go:84-191 | in a stable snapshot the bundles of the attempts that the parent gained last were read in the last pass, and every other bundle in an earlier one, the first whose parent had that many attempts |
| Attempts.SnapshotRun | internal/collect/attempts.go:61-192 | snapshot and error are those the specification of the loop gives for any parent that changes between readings; when stable, every attempt from 1 to the final parent's run attempt has exactly one bundle or a recorded gap and no attempt was fetched twice over all passes; bundles ascend strictly, stable is reported exactly when the last two readings agree, and at most the configured passes are made |
| Attempts.Passes | internal/collect/attempts.go:84-191 | the pass loop agrees with its specification from the first pass on, keeps the fetched attempts a prefix without repeats, and ends within the limit |
| Attempts.CollectPass | internal/collect/attempts.go:93-164 | one pass extends the collected prefix to the parent's attempt count and fetches nothing again |
| Attempts.CollectAttempt | internal/collect/attempts.go:97-163 | bundle and gaps are exactly what the answers of the API yield for this attempt, one gap for each reason that occurs among its jobs |
| Attempts.AttemptIsUsableOrAGap | internal/collect/attempts.go:97-163 | an attempt yields a bundle that answers for it and holds exactly the trusted jobs, or a gap that names it |
| Attempts.CollectOne | internal/collect/attempts.go:97-163 | one turn for an attempt not collected yet: it extends the fetched prefix, and bundles and gaps grow by exactly what it yields |
| Attempts.Quarantine | internal/collect/attempts.go:119-160 | the quarantine loop: jobs kept and names set aside, sorted, and which of the three reasons occurred |
| Attempts.QuarantineIsExact | internal/collect/attempts.go:119-160 | kept jobs are exactly the trusted ones, by ascending distinct ID, the others' names are set aside, and none is lost, whatever the order of the response |
| Attempts.KeptExactly | internal/collect/attempts.go:119-160 | a job is kept exactly when its ID is positive, no other job of the response has that ID, and it belongs to the requested run |
| Attempts.CountIds | internal/collect/attempts.go:119-124 | the counting map |
| Attempts.NameIsSafe | internal/collect/attempts.go:33-40 | a name is safe exactly when no quarantined name is empty or equal to it |
| Attempts.SafeNamesAreTrusted | internal/collect/attempts.go:33-40 | a safe name belongs to no untrusted job of the response, and every untrusted job has a real name |
| Attempts.AlreadyAscending | internal/collect/attempts.go:181-191 | the final sort finds the bundles already in order |
| ArchiveRuns.VisibleIsReplay | internal/archive/archive.go:168-331 | crash safety: after any interleaving of prepare, crash, retry and commit, what readers see equals applying each committed batch exactly once in commit order |
| ArchiveRuns.PrepareIsInvisible | internal/archive/archive.go:208-243 | preparing changes nothing a reader sees |
| ArchiveRuns.ReappendIsNoOp | internal/archive/archive.go:168-203 | appending a committed batch again succeeds and changes nothing |
| ArchiveAppends.ResumeCompletes | internal/archive/archive.go:168-203 | a call interrupted after its first transaction is completed by calling again, whatever transactions of other calls came between: nothing is left to prepare, no pending batch is in the way, and the outcome is that of applying the batch to what readers see |
| ArchiveAppends.AppendSucceedsExactly | internal/archive/archive.go:168-331 | after any run a call succeeds if and only if the batch is committed already, or what readers see takes it, all it refers to is known, and it disagrees on no session with a pending batch; readers then see it applied |
| ArchiveAppends.PreparesExactly | internal/archive/archive.go:208-272 | the prepare transaction succeeds exactly when no visible session and no session of a pending batch is contradicted |
| ArchiveAppends.PreparedIsInTheWay | internal/archive/archive.go:245-272 | a prepared session that no reader sees makes a batch fail that would have been taken before |
| ArchiveRuns.RetryAtOnce | internal/archive/archive.go:168-203 | a call made again at once after its first transaction ends as an uninterrupted call does |
| ArchiveReferences.SelfContainedExactly | internal/archive/normalize.go:226-257 | after any run what readers see is self-contained, as a snapshot must be, if and only if every fact that a committed fact says it contradicts was committed too |
| ArchiveReferences.AppendKeepsSelfContained | internal/archive/normalize.go:226-257 | a call that succeeds on a self-contained archive leaves it so if and only if the facts that the batch's facts contradict are visible or come with the batch |
| ArchiveSnapshots.SnapshotAcceptedExactly | internal/archive/normalize.go:203-272 | after any run of accepted batches, what a snapshot reads back is accepted if and only if what readers see is self-contained, there is no more of it than a batch may hold, and no payload is kept both whole and as raw evidence |
| ArchiveSnapshots.ReadBackIsAcceptable | internal/archive/normalize.go:23-192 | records read back are valid as they are, facts that gained evidence since included |
| ArchiveSnapshots.SelfContainedTogether | internal/archive/normalize.go:226-257 | references resolve on what is read back exactly when they do on what readers see |
| ArchiveStranded.UnknownContradictionIsTaken | internal/archive/normalize.go:238-246 | an accepted batch with a fact that contradicts one that is nowhere is appended, and whatever a snapshot reads back after it is refused |
| ArchiveStranded.SampleIsTaken | internal/archive/normalize.go:238-246 | the least such batch: a session, an envelope, a repository fact and a dependency fact that cite it |
| ArchiveStranded.AcceptedApplies | internal/archive/persist.go:85-277 | an accepted batch contradicts nothing in an empty archive |
| ArchiveReferences.RowsOfLog | internal/archive/snapshot.go:183-345 | the visible sessions, payloads, envelopes and facts are exactly those of the committed batches |
| ArchiveIntegrity.RunsStayIntact | internal/store/migrations.go:202-258 | after any run of prepares, commits and interruptions of any batches no reference dangles: runs, attempts and jobs hang below known ones, facts, evidence and checkpoints name known repositories and runs, links and parents known evidence, memberships known batches |
| ArchiveIntegrity.CommitsExactly | internal/archive/archive.go:274-331 | a prepared batch commits if and only if it contradicts no stored row and, written out, leaves no reference dangling, and then the tables are the merged ones |
| ArchiveIntegrity.CommitKeepsIntact | internal/archive/persist.go:14-83 | a commit of any batch keeps all references |
| ArchiveIntegrity.RowsHomedExactly | internal/archive/persist.go:294-343 | the checkpoint loop finds what it refers to exactly when no checkpoint or watched parent dangles after it |
| BatchRows.AcceptedIsNormalized | internal/archive/normalize.go:81-110 | a batch that normalization accepts and that has a collection meets what the two transactions rely on |
| BatchRows.AcceptedAreAddressed | internal/archive/normalize.go:177-191 | accepted batches have one content for each identifier |
| ArchiveRuns.AppendIsARun | internal/archive/archive.go:168-203 | a whole call is one prepare and at most one commit |
| ArchiveRuns.NeverRewritten | internal/archive/persist.go:241-277 | over any further run, stored facts and envelopes keep their content, a fact's evidence only grows, and committed batches stay committed |
| ArchiveRuns.EvidenceIsVisible | internal/archive/snapshot.go:267-345 | evidence linked to a visible fact has a visible envelope |
| ArchiveRuns.CommitKeepsInv | internal/archive/archive.go:274-331 | a commit keeps the invariant and adds its batch to the log |
| ArchiveRuns.RowJoins | internal/archive/persist.go:294-343 | overwriting the row, deleting and inserting parents replaces the checkpoint as a whole, or not at all |
| Archive.Store.PrepareBatch | internal/archive/archive.go:208-272 | the prepare transaction: sessions inserted once and linked, the batch row PREPARED unless there already; on conflict the tables are as before |
| Archive.Store.CommitBatch | internal/archive/archive.go:274-331 | the commit transaction, all of it or nothing, source requests and foreign keys included; a batch committed already is left alone and an absent one is an error |
| Archive.Store.Append | internal/archive/archive.go:168-203 | the whole call: read-only stores and empty batches, then prepare, then commit unless committed |
| Archive.InsertAllIsUnion | internal/archive/persist.go:85-102 | insert-once succeeds exactly when no row contradicts the table or another row, and then gives the union |
| Archive.InsertAllPresent | internal/archive/archive.go:245-272 | rows that are there already change nothing |
| Archive.InsertRows | internal/archive/persist.go:85-205 | the insert-once loop agrees with the specification and stops at the first conflict |
| Archive.InsertFacts | internal/archive/persist.go:241-277 | the fact loop stores rows once, of repositories that exist, and links evidence that must exist |
| Archive.WriteCapabilities | internal/archive/persist.go:279-292 | the capability loop: the last writer of a name wins |
| Archive.WriteCheckpoints | internal/archive/persist.go:294-343 | the checkpoint loop, which fails exactly when a checkpoint that is not skipped refers to a repository or run that is not there |
| Archive.WriteCheckpoint | internal/archive/persist.go:294-343 | a checkpoint not older than the stored one replaces it and its watched parents |
| Archive.RowStaysExactly | internal/archive/persist.go:294-343 | in instants: the stored row stays exactly when it has a watermark and the new one has none or an earlier one; otherwise row and watched parents become those of the new checkpoint, and no other repository changes |
| Archive.InsertHierarchy | internal/archive/persist.go:14-83 | the loops over repositories, runs, attempts and jobs fail exactly when a row hangs below one that is neither stored nor in the batch |
| ArchiveCheckpoints.CheckpointIsLatestMaximum | internal/archive/persist.go:294-343 | after any run a repository's stored checkpoint, watched parents included, was committed, every checkpoint committed for it has no watermark or one that is not later, and every one committed after it has none or an earlier one |
| ArchiveCheckpoints.FoldHoldsWinner | internal/archive/persist.go:294-343 | the conditional advance folded over any sequence of checkpoints holds that winner |
| ArchiveCheckpoints.WinnerIsLatest | internal/archive/persist.go:294-343 | the winner is, in instants, the last of the checkpoints with the latest watermark |
| ArchiveCheckpoints.WatermarkNeverDecreases | internal/archive/persist.go:308-330 | after any further events a visible watermark is still there and is the same instant or a later one |
| ArchiveCheckpoints.CapabilityIsLastCommitted | internal/archive/persist.go:279-292 | after any run a capability is as its last committed writer left it |
| ArchiveReaders.ReadFacts | internal/archive/snapshot.go:267-345 | the reader returns the facts by ascending ID, each with exactly its linked evidence in order |
| ArchiveReaders.ReadingIsDetermined | internal/archive/snapshot.go:267-345 | only one sequence of facts reads a given set of tables |
| ArchiveReaders.Attach | internal/archive/snapshot.go:330-343 | the attaching loop through the index map gives each parent exactly its child rows, in order |
| ArchiveReaders.OrderedLinks | internal/archive/snapshot.go:323-325 | rows come in (fact, evidence) order, each once |
| ArchiveReaders.FactsFiledById | internal/archive/persist.go:241-277 | stored facts are filed under their own ID |
| NormalizeTheorems.OrderDoesNotMatter | internal/archive/normalize.go:23-192 | batches that differ in the order of arrays, repository lists, contradiction lists, watched parents or evidence are both rejected, or have one canonical form and one ID |
| NormalizeTheorems.NormalizedStays | internal/archive/normalize.go:23-192 | normalizing a normalized batch accepts it and changes nothing |
| NormalizeTheorems.FactIdentity | internal/archive/facts.go:32-227 | normalized facts have one ID exactly when they agree on everything but evidence |
| NormalizeTheorems.FactBecomesNormal | internal/archive/facts.go:32-227 | an accepted fact keeps its one payload with the list arranged, takes subject and event from it, cites exactly its own evidence and that of the payload, in ascending order, and has the computed ID |
| NormalizeTheorems.BatchBecomesNormal | internal/archive/normalize.go:23-192 | a canonical batch holds exactly the records of the batch, payloads, evidence and capabilities unchanged, sessions and checkpoints with lists arranged, facts as above |
| NormalizeTheorems.FactAcceptedExactly | internal/archive/facts.go:32-227 | told from the input: one payload, of the kind of the fact, valid and repeating nothing in its list; evidence of its own or of the payload unless it is a coverage gap; an absent or right ID |
| NormalizeTheorems.EnvelopeAcceptedExactly | internal/archive/normalize.go:81-110 | told from sessions and payloads: a session of the batch; for bytes kept aside a session that keeps them, the path by digest and no payload with that digest; else nothing retained or a payload of the same media type and length |
| NormalizeTheorems.BatchIdentity | internal/archive/normalize.go:177-191 | equal batch IDs mean equal canonical batches |
| NormalizeTheorems.ContainsFactID | internal/archive/normalize.go:296-299 | the binary search agrees with membership on facts sorted by ID |
| NormalizeTheorems.CanonicalFactsSorted | internal/archive/normalize.go:115-133 | the facts of a canonical batch are strictly sorted by ID, as the search needs |
| NormalizeTheorems.ParentsSorted | internal/archive/normalize.go:153-174 | parents ascend strictly after sorting exactly when no run ID is repeated |
| NormalizeTheorems.FactsReorder | internal/archive/facts.go:32-227 | facts in another order, with their lists in another order, are accepted together and sorted alike |
| Normalize.Batch.Normalize | internal/archive/normalize.go:23-192 | accepts exactly the acceptable batches without nil arrays whose stated ID, if any, is right, and leaves the canonical batch and its ID in place |
| Normalize.NormalizeFact | internal/archive/facts.go:32-227 | accepts exactly the facts that are valid once tidied, and returns the tidied fact with subject, event, evidence and ID derived |
| Normalize.SelectPayload | internal/archive/facts.go:42-191 | succeeds exactly when there is one payload, of the fact's kind, valid, with a strictly ascending list |
| Normalize.ContextKept | internal/archive/normalize.go:32-110 | tidying sessions and payloads does not change what envelopes and checkpoints look up |
| Lists.TidyAll | internal/archive/normalize.go:34-175 | the loop each array goes through: rewrite, validate and detect duplicate keys, then sort; succeeds exactly when every element passes and keys are distinct |
| Lists.CanonPermutes | internal/archive/normalize.go:34-175 | arrays that hold the same elements after rewriting have one canonical form |
| Orders.LexLessExactly | internal/evidence/canonical.go:207-220 | one sequence comes before another exactly when it ends, or has the smaller element, where they first differ |
| Orders.StringLessExactly | internal/archive/normalize.go:296-299 | and so for texts: a text comes before its extensions, and the smaller of the first differing characters decides |
| Snapshots.NormalizeSnapshot | internal/archive/normalize.go:203-272 | accepts exactly the acceptable snapshots whose references all resolve, and returns the canonical batch |
| Snapshots.CheckReferences | internal/archive/normalize.go:226-257 | the three loops decide whether evidence of facts, contradicted facts, parents of evidence and repositories of checkpoints are all present |
| Snapshots.CheckFact | internal/archive/normalize.go:231-246 | one turn of the loop over facts: cited evidence by set lookup, contradicted facts by binary search |
| Snapshots.SnapshotIsCanonical | internal/archive/normalize.go:195-272 | snapshots that differ in order only are accepted together and normalize to one, which normalizes to itself |
| Coalesce.Coalesce | internal/analyze/analyze.go:537-554 | refuses exactly findings of one ID with different subjects; otherwise one output per ID in first-seen order, each the merge of its whole group |
| Coalesce.CoalesceBy | internal/analyze/analyze.go:537-554 | the loop over the result list and the position index, for any merge that keeps the subject |
| Coalesce.Place | internal/analyze/analyze.go:540-552 | one finding opens a group or joins the one at its position |
| Coalesce.FirstSeenIds | internal/analyze/analyze.go:537-554 | the output IDs are distinct and are exactly those with findings |
| CoalesceTheorems.MergeUnitesEvidence | internal/analyze/analyze.go:585-586 | evidence and coverage of the result are exactly the union over the group, sorted and without repeats |
| CoalesceTheorems.ResultOutranksMembers | internal/analyze/analyze.go:563-583 | the result's rank is never below a member's |
| CoalesceTheorems.ResultIsStrongest | internal/analyze/analyze.go:556-661 | by state: in a group that is not contradictory the result is executed exactly when a member is, else downloaded or called exactly when a member is, and so on through declared, in the window, transitive, current, gap and no-match; its provenance is the strongest of the members of that strength |
| CoalesceTheorems.DisputesExactly | internal/analyze/analyze.go:556-588 | a contradictory result of several members disputes exactly the evidence of all of them, even of those merged before the contradiction arose, besides what they dispute, and has the derived provenance; any other disputes exactly what its members do |
| CoalesceTheorems.ContradictionExactly | internal/analyze/analyze.go:556-617 | for every group: the result is contradictory exactly when a member is, or a no-match follows a positive, or a no-match precedes the first positive with no gap before that positive |
| CoalesceTheorems.PositiveExactly | internal/analyze/analyze.go:619-628 | the positive states are exactly those that tell of an execution, a download, a call, a declaration or a reference |
| CoalesceTheorems.AbsorbingAndNeverClean | internal/analyze/analyze.go:556-617 | contradiction is absorbing, and a group with a gap never ends as a confirmed no-match |
| CoalesceTheorems.ContradictionWithGapsLast | internal/analyze/analyze.go:556-617 | with gaps last, the result is contradictory exactly when the group holds a contradiction, or both a positive and a no-match |
| CoalesceTheorems.RankIgnoresOrder | internal/analyze/analyze.go:556-617 | with gaps last, the strength of the result depends on the multiset of the group only, and so does its provenance unless the group is contradictory |
| CoalesceTheorems.GapForgetsNoMatch | internal/analyze/analyze.go:556-617 | a gap between a no-match and a positive makes the no-match forgotten: two orders of three findings, two verdicts |
| Coverage.RequiredNegativeCoverageClosed | internal/analyze/analyze.go:889-930 | true exactly when every required kind has a relevant assessment, all relevant ones are collected with matching nonzero counts and one ID per kind, and no relevant gap exists; then the IDs are exactly the closing ones, ascending |
| Coverage.ClosureIgnoresOrder | internal/analyze/analyze.go:889-946 | the answer and its IDs do not depend on the order of facts, and a negative closed with more gaps is closed with fewer: adding a gap never closes one |
| Coverage.CollectClosed | internal/analyze/analyze.go:893-913 | the loop over facts decides whether all relevant assessments close and agree, and keeps the ID of each kind |
| Coverage.RelevantExactly | internal/analyze/analyze.go:931-946 | a unit matters exactly when it is required for the negative, of a required kind, and its scope is the whole job execution or this very step |
| Coverage.NoRelevantGap | internal/analyze/analyze.go:914-919 | the loop over gaps |
| Coverage.ListRequired | internal/analyze/analyze.go:920-929 | the loop over the required kinds lists their IDs and decides whether none is missing |
| GraphRules.NoDanglingEdge | internal/analyze/graph.go:27-122 | closure: whatever the findings, every edge endpoint and every piece of evidence an edge cites has a node |
| GraphRules.EndpointRulesExactly | internal/graph/graph.go:156-191 | for the graph of any findings: if every fact fits that they are projected with, every edge joins nodes of types it may join, and with unique repository names only if |
| GraphRules.BuiltObeysExactly | internal/graph/graph.go:156-191 | given the repositories found, every edge of the graph keeps the endpoint rules if and only if every finding fits |
| GraphTheorems.OrderOfFindings | internal/analyze/graph.go:27-122 | permuting the findings gives the same nodes and edges with the same evidence and focus, up to their order, when repository names are unique |
| GraphTheorems.AnswersAreUnique | internal/analyze/graph.go:600-607 | the lookup by name has one answer for every name if and only if no two repositories share one |
| GraphTheorems.BuildGraph | internal/analyze/graph.go:27-40 | the loop over findings builds a graph the specification allows |
| GraphTheorems.ProjectFinding | internal/analyze/graph.go:42-122 | makes exactly the calls of the finding's projection, for an answer of the lookup |
| GraphTheorems.ProjectSubject | internal/analyze/graph.go:59-121 | makes the calls for the subject, the matched facts, their targets and the exposures, in order |
| GraphTheorems.ProjectFacts | internal/analyze/graph.go:124-145 | the loop makes each fact's calls in order and collects the targets |
| GraphTheorems.RepositoryIdForGraph | internal/analyze/graph.go:600-607 | returns a repository of that name, or none exactly when there is none |
| GraphMeaning.EdgesExactly | internal/analyze/graph.go:27-122 | every edge of the graph is said by some finding, with an answer for its repository, or by a fact drawn upon for it; with unique repository names everything said that has evidence and two ends is in the graph |
| GraphMeaning.BuiltEdgesExactly | internal/analyze/graph.go:27-122 | the same as an if-and-only-if given the repositories found, names unique or not |
| GraphMeaning.EvidenceExactly | internal/analyze/graph.go:564-581 | an edge cites exactly the evidence of those that say it |
| GraphMeaning.FocusExactly | internal/analyze/graph.go:564-581 | it is in focus for exactly the findings that say it or for which a fact does |
| GraphMeaning.UsesExactly | internal/analyze/graph.go:167-184 | a step executed or downloaded an action, or a job prepared it, in the graph if and only if an action fact drawn upon for some finding, with evidence, was observed to: executed or downloaded at that step, or downloaded at no step of that job |
| GraphMeaning.StepExecutedExactly | internal/analyze/graph.go:175-183 | STEP_EXECUTED_ACTION leads from a step to a target if and only if such a fact was executed at that step, the target being its commit, else its package, else its repository |
| GraphMeaning.StepDownloadedExactly | internal/analyze/graph.go:175-183 | STEP_DOWNLOADED_ACTION likewise for a fact that was downloaded at that step |
| GraphMeaning.JobPreparedExactly | internal/analyze/graph.go:168-174 | JOB_PREPARED_ACTION likewise for a fact of that job that was downloaded and names no step |
| GraphMeaning.ExposuresExactly | internal/analyze/graph.go:371-507 | every edge for a credential, a resource, a runner or an environment is in the graph if and only if an exposure of the execution of some confirmed finding, and of no other step, says it |
| GraphMeaning.MintsExactly | internal/analyze/graph.go:407-421 | a job could mint tokens if and only if it was observed at run time to hold id-token: write, with evidence; an assertion that it could is not enough |
| GraphMeaning.ResourcesExactly | internal/analyze/graph.go:476-507 | a job or step made a resource, by the edge of its sort, or the resource was only observed after it, if and only if an exposure with evidence says which |
| GraphEdges.SaysExactly | internal/analyze/graph.go:42-122 | the edges that the projection of a finding calls for are exactly those that the finding and the facts drawn upon for it say, for all kinds of edges |
| GraphEdges.ActionSaysExactly | internal/analyze/graph.go:147-215 | kind by kind, the edges of a runtime action: package to commit, ref to what it stood for, job to step, and the uses |
| GraphEdges.DependencySaysExactly | internal/analyze/graph.go:217-245 | kind by kind, the edges of a dependency: caller to what it declares by the stated relation, ref to exact target, run to historical workflow |
| GraphEdges.DependencyFactIs | internal/analyze/graph.go:246-266 | and those of the facts it contradicts, actions only of the same occurrence, with the contradiction edge between them |
| GraphEdges.ExposureSaysExactly | internal/analyze/graph.go:371-507 | kind by kind, the edges of an exposure of each sort |
| GraphEdges.SubjectSaysExactly | internal/analyze/graph.go:59-102 | kind by kind, the edges of the subject of a finding: run, attempt, job and step, as deep as the finding goes |
| GraphEdges.AboutIs | internal/analyze/graph.go:104-115 | a finding is about its subject and about what each fact that concerns it stands for |
| GraphEdges.ConcerningExactly | internal/analyze/graph.go:609-636 | a fact concerns a finding exactly when they share evidence and its subject is that of the finding as far as that goes, a fact of no step doing for any |
| GraphRules.EndpointRulesHold | internal/graph/graph.go:156-191 | whatever the findings, fit or not, every edge whose relation no fact states keeps the endpoint rules |
| GraphRules.CallerEdgeObeysExactly | internal/analyze/graph.go:229-237 | in the graph, the edge from a caller to what it declares is there, and keeps the endpoint rules if and only if the stated relation suits caller and target as the fields of the dependency tell |
| GraphRules.ContradictionObeysExactly | internal/analyze/graph.go:246-266 | in the graph, the edge between contradicting facts is there, and keeps the endpoint rules if and only if the contradicted fact is identified by more than a ref or a repository |
| GraphRules.InheritedSecretObeysExactly | internal/analyze/graph.go:435-437 | in the graph, the edge for an inherited secret is there, and keeps the endpoint rules if and only if the exposure names no step |
| GraphRules.InheritedAtAStepBreaks | internal/analyze/graph.go:435-437 | the graph of one confirmed finding whose step inherits a secret, by a fact that validation lets through, has an edge that breaks the rules |
| GraphRules.LocalActionDeclaredBreaks | internal/analyze/graph.go:229-237 | so has that of a workflow that declares a local action of known definition without a ref |
| GraphRules.RefContradictedBreaks | internal/analyze/graph.go:246-266 | two dependencies that validation lets through and that fit by themselves, one contradicting the other known by its ref only, make an edge that breaks the rules |
| GraphFacts.ArchivedFitsExactly | internal/archive/facts.go:299-445 | which of the dependencies that validation lets through, attempt metadata aside, suit the endpoint rules, relation by relation |
| GraphFacts.RuntimeMetadataFits | internal/archive/facts.go:376-391 | a dependency from attempt metadata that validation lets through always suits the endpoint rules |
| GraphClosure.CallerFitsExactly | internal/graph/graph.go:156-191 | the fields of a dependency decide whether the node types of its caller and target may meet |
| GraphClosure.CallsItselfExactly | internal/analyze/graph.go:564-567 | caller and target are one node exactly for a local action that points at itself |
| GraphRules.CallObeysExactly | internal/analyze/graph.go:564-581 | an edge that is called for is in the graph, and keeps the endpoint rules exactly when the types offered for its ends may meet |
| GraphKinds.NodeTextInjective | internal/graph/graph.go:33-62 | two node types have the same text only if they are the same |
| GraphKinds.EdgeTextInjective | internal/graph/graph.go:77-112 | two edge types have the same text only if they are the same |
| GraphClosure.FindingGrounded | internal/analyze/graph.go:42-122 | every edge of a finding's projection joins nodes added with it, and the edges keep the endpoint rules exactly when the finding fits |
| GraphClosure.DependencyGrounded | internal/analyze/graph.go:217-271 | the projection of a dependency, its contradictions included, adds the endpoints of all its edges, which keep the endpoint rules exactly when the facts fit |
| GraphClosure.DependencyServes | internal/analyze/graph.go:217-271 | the node a dependency returns is one it adds, of a type a finding may be about |
| GraphClosure.TargetAdded | internal/analyze/graph.go:314-369 | declaration target, exact target and ref node are added whenever they are returned, each with the one type the dependency decides |
| GraphClosure.RuntimeGrounded | internal/analyze/graph.go:147-215 | the projection of a runtime action adds the endpoints of all its edges, which keep the endpoint rules, and the node it returns |
| GraphClosure.ExposureGrounded | internal/analyze/graph.go:371-507 | the projection of an exposure of any kind adds the endpoints of all its edges, which keep the endpoint rules exactly when the exposure fits |
| Graph.NodesReflect | internal/analyze/graph.go:542-562 | after any calls each node has the least label offered for its identity, and exactly all the evidence and focus offered, in order |
| Graph.EdgesReflect | internal/analyze/graph.go:564-581 | after any calls each edge has the fields of its identity and exactly all the evidence and focus offered, in order |
| Graph.CallsInAnyOrder | internal/analyze/graph.go:542-581 | the same calls in another order make the same graph up to the order of evidence and focus |
| Graph.GroundedIsClosed | internal/analyze/graph.go:542-581 | when every edge offered joins nodes offered, no edge dangles and all cited evidence has a node |
| Graph.GraphBuilder.AddNode | internal/analyze/graph.go:542-562 | the node map is updated as specified and the node's ID returned |
| Graph.GraphBuilder.JoinNode | internal/analyze/graph.go:543-560 | a new node, or the old one with the lesser label and with evidence and focus appended |
| Graph.GraphBuilder.AddEdge | internal/analyze/graph.go:564-581 | nothing for an absent endpoint, a self-loop or no evidence; otherwise the edge and then its evidence nodes |
| Graph.GraphBuilder.PutEdge | internal/analyze/graph.go:568-577 | the edge map is updated as specified |
| Graph.IdDecidesNode | internal/analyze/graph.go:543 | node IDs agree exactly when type and identity do |
| Manifest.RoundTrip | internal/casefile/verify.go:845-867 | for distinct safe names and lower-case digests the parser reads back exactly what was printed if and only if no name has a line feed or a trailing carriage return and every line fits the scanner |
| Manifest.ParseManifest | internal/casefile/verify.go:845-867 | the scanner loop: malformed lines, bad digests or names, duplicates and overlong lines are refused; otherwise the map of names to lower-case digests |
| Manifest.EntryIsSafe | internal/casefile/verify.go:851-857 | what is read from one line has a safe name, not the manifest's own, without a line feed, and a lower-case digest of 64 digits |
| Manifest.EntryExactly | internal/casefile/verify.go:849-862 | a line is an entry exactly when it is 64 hexadecimal digits of either case, two spaces and a name of clean parts without a backslash or a NUL, other than the own name of the manifest; upper-case digits are read as lower-case ones |
| Manifest.TooLongExactly | internal/casefile/verify.go:847-849 | a line is too long for the scanner exactly from 2^20 bytes on |
| Manifest.CleanExactly | internal/casefile/casefile.go:532-534 | a path is clean exactly when no part between its slashes is empty, "." or ".." |
| ManifestCheck.VerifiesExactly | internal/casefile/verify.go:811-867 | printed manifests of any files verify exactly when the lines printed for both are well formed without a repeated name and say the same; a name with line feeds makes several lines |
| ManifestCheck.VerifiesOneLined | internal/casefile/verify.go:811-867 | for names without line feeds: exactly when both can be read and list the same names and digests less carriage returns at the end of names |
| ManifestCheck.LineFeedIsLost | internal/casefile/verify.go:845-867 | a file whose name holds a whole further line passes for two files |
| ManifestCheck.CheckComparesFiles | internal/casefile/verify.go:811-843 | when every name survives its line the check accepts exactly the same files |
| ManifestCheck.CarriageReturnIsLost | internal/casefile/verify.go:845-857 | the check takes a file "a" for a file whose name is "a" and a carriage return |
| Manifest.Scanner.Scan | internal/casefile/verify.go:847-849 | the next line without its line feed and one carriage return, nothing at the end, an error for a line of 2^20 bytes or more |
| Manifest.EntriesAreSafe | internal/casefile/verify.go:849-862 | every entry read has a safe name, not the manifest's own, and a lower-case digest of 64 digits |
| Manifest.OneEntryPerLine | internal/casefile/verify.go:845-867 | a manifest that parses has one entry for each of its lines |
| Manifest.OneLinePerFile | internal/casefile/casefile.go:440-447 | a printed manifest has one line for each file exactly when no name holds a line feed |
| Manifest.VerifyManifestIntegrity | internal/casefile/verify.go:811-843 | accepts exactly when both texts parse and their maps are equal |
| Manifest.AgreesOn | internal/casefile/verify.go:831-841 | the loop over recorded names, in any order, decides whether the recorded map is contained in the other |
| Manifest.SameSizeAndContained | internal/casefile/verify.go:828-841 | equal size and one-way agreement mean equal maps |
| ManifestBuild.BuildManifest | internal/casefile/casefile.go:374-449 | gives a manifest exactly when the limits are usable, the tree is within every budget and every file can be hashed at its size; then the lines of the listed files sorted by name |
| ManifestBuild.EnumerateFiles | internal/casefile/casefile.go:383-438 | the walk succeeds exactly when the tree is within every budget, the total counted over the integers, and lists the files |
| ManifestBuild.ListsEveryFile | internal/casefile/casefile.go:383-438 | every regular file of an admitted tree is listed with its size, empty ones included, but for the manifest itself, and nothing else is |
| ManifestBuild.DepthCounts | internal/casefile/casefile.go:451-457 | the depth of a path is one more than the slashes in it |
| ManifestBuild.Admit | internal/casefile/casefile.go:398-434 | one item against the budgets in 64-bit arithmetic that never wraps |
| ManifestBuild.WriteLines | internal/casefile/casefile.go:440-447 | the printing loop, which fails exactly when a file cannot be hashed |
| ManifestBuild.BuiltManifestReadsBack | internal/casefile/casefile.go:374-449 | what is built from an admitted tree lists names in ascending order, and is read back if and only if every path survives its line |
| DuplicateKeys.AcceptsExactly | internal/casefile/verify.go:911-965 | the walk consumes exactly the tokens of the value at the front, and accepts it if and only if no object at any depth repeats a name and nesting stays below the limit (section 4 of RFC 8259) |
| DuplicateKeys.AcceptedStreams | internal/casefile/verify.go:892-909 | a whole stream is accepted if and only if it is the tokens of one value without repeated names and nested no deeper than the limit |
| DuplicateKeys.AcceptedIsValue | internal/casefile/verify.go:911-965 | whatever is accepted begins with the tokens of a value: unclosed, mismatched and misplaced delimiters and non-string names are refused |
| DuplicateKeys.ConsumeJsonValue | internal/casefile/verify.go:911-965 | the recursive walk over the decoder gives the verdict of the specification and leaves the decoder after the value |
| DuplicateKeys.ConsumeNext | internal/casefile/verify.go:933-941 | reading the first token of a value and walking the rest gives the verdict of the specification |
| DuplicateKeys.ConsumeMembers | internal/casefile/verify.go:920-946 | the object loop: names, repeats, values and the closing brace |
| DuplicateKeys.ConsumeItems | internal/casefile/verify.go:947-960 | the array loop |
| DuplicateKeys.RejectDuplicateJsonKeys | internal/casefile/verify.go:892-909 | no error exactly when the text is one accepted value and then ends |
| DuplicateKeys.FitsIsHeight | internal/casefile/verify.go:916-918 | the depth check at each composite is the same as bounding the height of the value |
| Copy.CopyBounded | internal/githubapi/logs.go:296-342 | for every way the reader cuts the source: a source within the limit is copied whole and marked complete, a longer one delivers exactly the first limit bytes and a size error; a failing reader or writer leaves a prefix |
| Copy.StoreChunk | internal/githubapi/logs.go:309-331 | one chunk: stored whole, or cut at the limit with a size error, or a write error |
| Copy.CopyRawStream | internal/archive/raw.go:392-434 | succeeds only on a source of exactly the expected length, with steady streams exactly then; a prefix is written and never more than expected |
| Copy.HashFileAtExpectedSize | internal/casefile/casefile.go:493-530 | the digest of the whole file exactly when it has the expected size |
| Logs.DownloadLogs | internal/githubapi/logs.go:53-85 | on success exactly one whole object was appended, with its length and digest, the second one exactly when the first asked for renewal; in every other case a prefix of one object |
| Logs.FetchLogObject | internal/githubapi/logs.go:225-294 | asks for renewal exactly on an unreachable answer or the statuses 401, 403, 404, 410, 429 and from 500 on, and then has written nothing; a redirect is unsafe, and success means a status from 200 to 299 and the whole object |

## Left out

- Graph projections are functions that list the calls of `addNode` and `addEdge` in order, since the IDs those return do
  not depend on the maps; the builder, the loops over findings and facts and the repository lookup are imperative. Text
  formats of job and step identities and terminal sanitizing are parameters.
- GraphMeaning: labels of nodes; an edge is told by its ends, its kind, its time, its rule, its evidence and its focus.
- Graph results: canonical ordering of nodes and edges and the second graph schema (internal/graph).
- Canonical input validation (internal/evidence/canonical.go:48-135): the walk by reflection, its cycle detection and its
  depth limit, `encoding/json` and UTF-8; the model starts from decoded values.
- CanonicalParser.RoundTrip: requires numbers in the JSON number grammar, which the decoder of the source guarantees;
  the text that follows must not start with a digit, since digits would continue a number.
- Enumerate.Complete: assumes one fixed server; a run created or deleted between queries is outside it. The count of
  overlap rows over the whole tree is not modelled.
- Window: nanosecond times are unbounded integers except for the saturating difference; time zones are not modelled.
- Attempts.SnapshotRun: does not model response metadata and gap texts; a gap keeps its scope and attempt only.
- Archive.Store.CommitBatch: does not model SQL text, the JSON of rows, column checks (which repeat the validators), the
  unique key over the content of evidence objects, logical source rows and evidence error rows.
- Archive.Store.Append: does not model the rows of retained raw payloads and the check that they are on disk.
- ArchiveSnapshots.SnapshotAcceptedExactly: takes the validators to be the same for batches and for snapshots; that no
  payload is kept twice is a condition of it, because rows of raw payloads are not modelled.
- GraphFacts: checks of texts, of times and of package digests.
- Normalize.Batch.Normalize: single-field validators are parameters, named `Rules`; the retained legacy credential basis is
  one more such rule, and a nil array inside a record is part of the record's text.
- Snapshots: metadata validation and the persisted-size budgets.
- Coalesce.Coalesce: does not model the refreshed revision ID and the errors of deriving it, assumptions, gap texts,
  exposures and remediation of a merged finding; the provenance given to a derived contradiction is a parameter.
- Coverage.RequiredNegativeCoverageClosed: the IDs returned beside a negative answer are unspecified, as no caller uses them.
- Manifest.Scanner.Scan: models the lines that `bufio.Scanner` delivers and its limit, not its buffer; the 16 MiB bound on
  a stored manifest is read before parsing and not modelled. Path separators are those of Unix.
- ManifestBuild: the file system, symbolic links made during the walk, and cancellation.
- DuplicateKeys.RejectDuplicateJsonKeys: starts from the decoder's tokens and where they break off; lexing JSON text is not
  modelled, and error texts are reduced to their kind.
- Copy: cancellation and file identity checks.
- Logs.DownloadLogs: `acquireLogRedirect` is a parameter that gives a location or an error; its retry loop, request headers
  and response metadata are not modelled.
- HTTP transport, authentication, staging and atomic rename of the case directory, rendering of reports, the command line
  and the literal matcher.
