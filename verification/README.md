# Verified model of Kazma's soak, benchmark and cleanup harnesses

Kazma is measured, cleaned up and released by scripts. A multi-day run of
them means something only if their planners, oracles, decoders and gates are
right. This Dafny project models the logic of those scripts and proves what
they are for, over every input and every run.

    dafny verify dfyconfig.toml

## What is modelled

**The knowledge soak** (`scripts/knowledge_soak.py`). A parent plans a cycle
(crawls, refreshes, document versions, deletes, a crash inside the last
crawl), projects what the stores will hold, lets a child carry it out, takes
the child's report back, and judges what searches and stores show.

- `SoakModel`: the state and, function by function, what planning does to it.
  A random draw is an argument (`Draws`, with `Fair` for what a draw is).
- `SoakPlanner`: the same as the script writes it, a class whose methods change
  its fields; each is proved equal to its function.
- `SoakCommit`: taking a child's printed lines back.
- `SoakOracle`: what every cycle keeps with arbitrary children, and why the
  answers asked for and the answers required absent never meet.
- `SoakProjection`, `SoakSites`: what a plan projects and remembers, read off
  its operations alone, and what those operations are.
- `SoakStore`, `SoakRefinement`: the stores, the child that works on them, and
  the proof that the projection agrees with them through every crash and resume.
- `SoakFacts`, `SoakRun`: judging a child's searches, and the run loop.
- `SoakTruth`: a cycle in which nothing is wrong is not reported, and damage to
  anything searched for always is, so that a whole run raises no false alarm
  and misses none.
- `SoakCoverage`: what the first five cycles are sure to contain.
- `StoreCheck`: the check of the published chunks.
- `Fts5`: the decoder of FTS5 segment pages, against a writer of that layout.
- `RepairLoops`: the sweep loop, and the rebuild loop of the memory soak.

**The live cleanup** (`scripts/cleanup_live_leftovers.py`): `Cleanup`, a class
over the install's stores, any of which may be locked or unreadable in any run.

**The memory soak** (`scripts/memory_soak.py`): `MemorySoak`, the numbering of
chat turns by the child and again by the parent, over cycles killed anywhere.

**The score gates** (`scripts/memory_bench.py`, `scripts/knowledge_bench.py`):
`Ratchet`, chains of locks, trades and rebaselines.

**The injection benchmark** (`scripts/agentdojo_bench.py`): `AgentdojoTally`,
the counting and pooling; `AgentdojoStats`, the two-proportion test.

**Printers, parsers and the test session**: `Decimal` and `ReadmeMetrics`
(`scripts/generate_metrics.py`), `VersionBump`
(`scripts/light_version_bump.py`), `EnvShield` (`conftest.py`).

A source that changes objects or variables step by step is a class or a method
with loops here, proved equal to a function; what the source promises is then
proved of the function. Wherever the source draws at random, reads a clock or
calls the product, the outcome is an argument, so each result holds for all.

## Where the code and its own words differ

The code is modelled as it is. Each of these is shown by the members named,
with an input where the promise fails and the exact condition under which it
holds.

- The introduction of the knowledge soak says every kind of operation, a crash
  among them, happens within the first five cycles. Crawls, documents and
  refreshes do if and only if the run has room for a library, a delete if and
  only if for two (`SoakCoverage.FirstCyclesCover`); a model switch always
  does. A crash does if and only if a cycle that may crash also crawls
  (`SoakCoverage.CrashCovered`; `SoakCoverage.QuietRun` for a run without).
- The cleanup says its exit code is 1 until nothing is left. There are exactly
  two ways to a 0 with something left (`Cleanup.CleanExit`). A SQLite store that
  cannot be read while planning is skipped and not reported as left
  (`Cleanup.SilentSkip`), and a named memory that comes back, as below, is
  local again (`Cleanup.NamedMemoryComesBack`).
- The cleanup says it does every step. A memory it names that only the mirror
  holds, and that neither the ledger nor this run's forgetting refuses, is put
  back (`Cleanup.FreeRunDoesAll`; `Cleanup.NamedMemoryComesBack`); the next run
  forgets it (`Cleanup.TwoFreeRunsDoAll`).
- A rebaseline is said to be unable to lower the gate on the same data. It can
  exactly where the path of dataset versions leaves one and comes back to it
  (`Ratchet.GuardedExactly`, `Ratchet.PlainGuardedExactly` for the ratchet
  without trades; `Ratchet.BackAndForthLowers`).
- The extraction floor is said never to be lowered. It is safe exactly while
  every lock measures its score (`Ratchet.FloorGuardedExactly`;
  `Ratchet.FloorForgotten`).
- A README that was synced is meant to pass the check. The check reads two
  claims the sync does not rewrite: a size claim without its parts, and a
  commit claim without "across" (`ReadmeMetrics.SyncedStaysHonest`,
  `ReadmeMetrics.SyncLeavesClaims`; `ReadmeMetrics.SyncedDishonest`).
- A run that reached the iteration cap is said to count as a clean win of the
  defence, and a share of attacks won without those runs is reported. It
  divides all attacks won, capped runs' too, by the uncapped runs. It is the
  uncapped runs' share exactly when no capped run won, and a share at all
  exactly when no more capped runs won than uncapped ones lost
  (`AgentdojoTally.ExcludingCappedExactly`;
  `AgentdojoTally.TwoHundredPercent`).
- A document published with no chunks is reported although its rows are exactly
  what the stores hold (`StoreCheck.CleanCheck`;
  `StoreCheck.EmptyDocumentReported`).
- The memory soak's parent counts each chat's turns. It does so rightly exactly
  while no name drawn as new was given out before
  (`MemorySoak.CountersExact`; `MemorySoak.NameDrawnTwice`); no turn's number
  depends on it.
- Restoring the environment goes through the write shield, which loses an
  address that the snapshot held and that was changed since
  (`EnvShield.Process.Restore`, exact); with the opt-out off no reachable
  snapshot holds one (`EnvShield.Process.RunTest`).

## Model

| member | source | states |
|---|---|---|
| SoakOracle.PlannedOk | scripts/knowledge_soak.py:2118-2193 | A planned cycle keeps the invariant of the parent's state: page, document and library numbers are never given out twice, stored versions never exceed the site's, a replaced version is older than the stored one, live and kept deleted libraries are disjoint, bounded, and every live library holds a page |
| SoakOracle.CrawledOk | scripts/knowledge_soak.py:2103-2115 | Applying a crawl never takes a page back to an older version, and everything it records as replaced is older than what is then stored |
| SoakOracle.SparedPage | scripts/knowledge_soak.py:2092-2094 | However failures are drawn, some page of a crawl does not fail |
| SoakOracle.PlanShape | scripts/knowledge_soak.py:2188-2193 | A planned crash is inside one of the plan's crawls, at any page that is drawn; what was pending is resumed, and a final start plans no crash |
| SoakOracle.GoneIsNotHeld | scripts/knowledge_soak.py:2203-2214 | Nothing required absent is held at that version, and it is marked deleted exactly when its library is not live |
| SoakOracle.GoneExactly | scripts/knowledge_soak.py:2203-2213 | What may be required absent is exactly the last 60 replaced versions of known libraries and everything recorded of the last 5 deleted ones |
| SoakOracle.SampleSizes | scripts/knowledge_soak.py:2199-2214 | As many answers are asked for, and as many required absent, as configured, or all there are |
| SoakOracle.OracleConsistent | scripts/knowledge_soak.py:2194-2214 | In one cycle, what is asked for is what the projection holds, and no item at a version is both asked for and required absent |
| SoakOracle.ProbeIsAsked | scripts/knowledge_soak.py:2199-2202 | A probed library that is still live is asked about whatever the sample drew |
| SoakOracle.CommitOk | scripts/knowledge_soak.py:2226-2264 | Taking back any report of any child keeps the invariant |
| SoakOracle.AfterOk | scripts/knowledge_soak.py:2619-2692 | The invariant holds after any number of cycles with arbitrary draws, children, crashes and reports |
| SoakOracle.OracleNeverContradicts | scripts/knowledge_soak.py:2194-2214 | In every reachable state, with nothing assumed of the children, the next plan never asks for what it requires absent, and asks every live probed library |
| SoakOracle.RunBounds | scripts/knowledge_soak.py:2163-2176 | Live libraries never exceed the configured number, at most 20 deleted ones are kept, and none of those is live |
| SoakProjection.PlanProjects | scripts/knowledge_soak.py:2118-2193 | In every planned cycle, the projection is what was held, overwritten by what the plan's documents and pages that do not fail bring, without the deleted library; what was replaced is remembered last, once each; and a deleted library's record is what it held then |
| SoakProjection.LostAreAbsent | scripts/knowledge_soak.py:2203-2214 | Everything a cycle takes away its own searches may require absent, if and only if it replaced at most 60 |
| SoakProjection.DeletedIsAbsent | scripts/knowledge_soak.py:2153-2164 | Every page and document a library held when it was deleted, what the cycle published there just before included, may be required absent at once |
| SoakProjection.DeletedStayAbsent | scripts/knowledge_soak.py:2153-2213 | In every run with any children, it may be in every later cycle, until five more libraries were deleted |
| SoakProjection.DeletedDocuments | scripts/knowledge_soak.py:2159-2161 | A delete's record names exactly the documents the library was known to hold |
| SoakProjection.CommittedDocuments | scripts/knowledge_soak.py:2250-2257 | A commit adds to them exactly what the child says was published into the library before the delete |
| SoakSites.OpsFit | scripts/knowledge_soak.py:2076-2187 | Every operation fits what was there: a document its next version and identity, a refresh the site with each page kept, changed or removed as drawn and new pages numbered on, a new library its first pages, each crawl those pages in order, failing as drawn |
| SoakSites.NextDocument | scripts/knowledge_soak.py:2135-2152 | A library's next document number moves on exactly when a new document is planned there |
| SoakCommit.OutcomeExact | scripts/knowledge_soak.py:2267-2282 | A crawl's result is accepted exactly when its status and every page's are as planned |
| SoakCommit.PendingAfterCommit | scripts/knowledge_soak.py:2226-2247 | For any printed lines: a commit that reports nothing leaves pending only the crawl the child was killed in, and every other operation ran |
| SoakCommit.PendingExactly | scripts/knowledge_soak.py:2226-2247 | For any printed lines, reported or not: a crawl waits exactly when it waited before and no line says it was resumed, or the child was killed in it and printed nothing of it |
| SoakCommit.ProblemsExactly | scripts/knowledge_soak.py:2226-2282 | Nothing is reported if and only if every crawl resumed and every operation, the killed one aside, has a last line that says it went as planned: a document ok, a delete done with its provenance, a crawl and each of its pages in the planned status |
| SoakStore.ResumeCompletes | scripts/knowledge_soak.py:1574-1577 | Resuming a crawl killed after any subset of its pages leaves what the crawl run at once would have |
| SoakStore.KnowledgeStore.SoakCycle | scripts/knowledge_soak.py:1574-1588 | The child's loop over resumes and operations leaves the stores, and prints the lines, of the specification, killed or not |
| SoakStore.StagesMatch | scripts/knowledge_soak.py:2129-2187 | Every stage of planning and the operation it plans change the projection and the stores alike |
| SoakRefinement.NothingReported | scripts/knowledge_soak.py:2226-2282 | A child that does what was planned, killed or not, is never reported |
| SoakRefinement.CycleRefines | scripts/knowledge_soak.py:2118-2264 | One cycle keeps the agreement between projection and stores; not killed, the two are equal and nothing is pending; killed, exactly the last crawl is pending |
| SoakRefinement.RunRefines | scripts/knowledge_soak.py:2643-2665 | For any cycles, crashes and stored subsets, resuming the pending crawl makes the stores exactly the projected pages and documents |
| SoakRefinement.FactsAreStored | scripts/knowledge_soak.py:2195-2198 | While they agree, an item is in the projection's facts exactly when the stores hold it at that version |
| SoakRefinement.NextCycle | scripts/knowledge_soak.py:2118-2264 | In any run, a cycle that was not killed leaves every answer asked for in the stores and none required absent, and reports nothing |
| SoakPlanner.SortKeys | scripts/knowledge_soak.py:2092 | The site's page numbers, each once, in increasing order |
| SoakPlanner.DrawPages | scripts/knowledge_soak.py:2092-2100 | The crawl's pages as drawn, with the first spared when all would fail |
| SoakPlanner.SurveySite | scripts/knowledge_soak.py:2076-2100 | The site after changes, removals and additions, never left empty |
| SoakPlanner.SoakState.StorePages | scripts/knowledge_soak.py:2107-2114 | The loop over a crawl's pages stores the landed ones and records the versions replaced, in order |
| SoakPlanner.SoakState.ApplyCrawl | scripts/knowledge_soak.py:2103-2115 | The projected state after a crawl, with the last 200 replaced versions kept |
| SoakPlanner.SoakState.PlanDocument | scripts/knowledge_soak.py:2135-2152 | A new version of a drawn or new document, and the state that leaves |
| SoakPlanner.SoakState.PlanDelete | scripts/knowledge_soak.py:2153-2166 | A library moved from the live ones to the 20 deleted last, with what it held |
| SoakPlanner.SoakState.PlanRefresh | scripts/knowledge_soak.py:2167-2171 | The crawl of a library that stays |
| SoakPlanner.SoakState.PlanCreate | scripts/knowledge_soak.py:2172-2184 | As many new libraries as wanted and allowed |
| SoakPlanner.SoakState.Commit | scripts/knowledge_soak.py:2226-2264 | The state after any printed lines, and the problems reported |
| SoakPlanner.PlanCycle | scripts/knowledge_soak.py:2118-2223 | Plan and projection are those of the specification, and the state planned from is unchanged |
| SoakFacts.UnreadIsBlamed | scripts/knowledge_soak.py:1547-1561 | A library this process could not read is blamed, or the cycle has a plain violation |
| SoakFacts.CheckFacts | scripts/knowledge_soak.py:2506-2582 | What is confined, and silence exactly when every part of the report is in order |
| SoakFacts.SilenceExactly | scripts/knowledge_soak.py:2506-2582 | In order: every planted answer found by words and, but for a passed-over vector, by hybrid search, with a vector in a store that is there; none that must be absent found; vectors, coverage, journal and indexes whole; what could not be read excused only if it could be in the process before, or is tolerated |
| SoakFacts.Judge.JudgeAsk | scripts/knowledge_soak.py:907-920 | One search's complaints: a plain one unless a ranking drop explains it, a vector one exactly when its query failed |
| SoakRun.HistoryGrows | scripts/knowledge_soak.py:2643-2691 | Adding a judged cycle keeps what a run's history owes |
| SoakRun.Judge | scripts/knowledge_soak.py:2666-2677 | A judged cycle's unread libraries are confined or the cycle is bad, and without the tolerate flag none may have failed before in a clean one |
| SoakRun.RunCycle | scripts/knowledge_soak.py:2644-2691 | One start: a final one cannot crash, one without a violation leaves at most one crawl pending, none if it was judged |
| SoakRun.RunSoak | scripts/knowledge_soak.py:2619-2704 | At most three cycles over the limit, and all of the limit without a violation; a library is given up only after three final starts; in the history every unread library is confined or a violation, is asked again next, and failing twice running ends the run in violation; no violation means nothing pending and nothing confined last; and no false alarm: children that do what was planned, and are killed there without a report or tell the truth at their end, are never reported, and the run ends with its first final start; no missed alarm: whatever children do to the stores, if they search for all they are asked and tell truly what they found, a run without a violation left nothing of it damaged in any judged cycle |
| SoakRun.Check | scripts/knowledge_soak.py:2666-2675 | What is reported of a cycle that was not killed: nothing only if the chunk rows are exact and every part of the child's report is in order |
| SoakRun.SoundCycle | scripts/knowledge_soak.py:2651-2675 | From stores in step with the projection, a sound child, killed or not, gives the parent nothing to report and leaves them in step; one that was not killed reports, and truly |
| SoakRun.SoundChildExists | scripts/knowledge_soak.py:1408-1410 | There are sound children, dying without a report in whichever planned crashes one likes |
| SoakTruth.TrueCycle | scripts/knowledge_soak.py:2226-2264 | After a true cycle the commit is clean, and, not killed, so are the searches, vectors that the approximate index passed over included, and the chunk rows, against the stores it left |
| SoakTruth.DamageIsReported | scripts/knowledge_soak.py:907-920 | Searches that tell the truth of stores that lack an answer asked for, hold one required absent, or keep or miss a library are a violation, whatever else is reported and tolerated |
| SoakTruth.SearchesDecide | scripts/knowledge_soak.py:2506-2582 | With all else in order, the report is silent if and only if the stores are undamaged |
| SoakTruth.TrueRows | scripts/knowledge_soak.py:2371-2385 | Some rows are exactly what any given stores hold |
| SoakTruth.LeavesChunks | scripts/knowledge_soak.py:1574-1588 | While every publication has chunks, no stored document is ever empty |
| SoakCoverage.FirstCyclesCover | scripts/knowledge_soak.py:57-61 | For any number of libraries, whatever the draws and children: crawls in the first cycle, two if there is room; a document and a refresh within two, if and only if there is room for a library; a delete within three, if and only if for two; a model switch within five |
| SoakCoverage.CrashCovered | scripts/knowledge_soak.py:2188-2193 | A crash is planned within the first five cycles if and only if crashes are wanted and some cycle that crawls drew one or is the fourth or fifth |
| SoakCoverage.OrdinaryTurn | scripts/knowledge_soak.py:2129-2193 | Which counters an ordinary cycle moves, from its draws and what has come before; how many libraries it leaves, and exactly when it crawls |
| SoakCoverage.QuietRunHasNoCrash | scripts/knowledge_soak.py:2188-2193 | A run whose fourth and fifth cycle draw no crawl may pass all five without a crash |
| SoakCoverage.QuietRun | scripts/knowledge_soak.py:57-61 | Such a run exists, for any number of libraries |
| SoakCoverage.RunsArePossible | scripts/knowledge_soak.py:2643-2651 | Runs of any length meet what the theorems on runs ask of draws and new identities |
| StoreCheck.GroupPages | scripts/knowledge_soak.py:2374-2385 | The grouping loop holds, for every page, exactly its active chunks |
| StoreCheck.CheckDocuments | scripts/knowledge_soak.py:2397-2404 | Nothing is reported exactly when each document has its published number of rows, at least one, all of its version, and no two share an identity |
| StoreCheck.CheckLibraries | scripts/knowledge_soak.py:2387-2404 | Over all libraries, and what is left of the groups afterwards |
| StoreCheck.NothingStray | scripts/knowledge_soak.py:2405-2408 | Nothing is left in the groups exactly when every active row belongs to a stored page or a known document |
| StoreCheck.CheckChunks | scripts/knowledge_soak.py:2371-2411 | The check of the chunks is exact: silent if and only if the rows are as projected, identities are distinct and no document is empty |
| StoreCheck.CleanCheck | scripts/knowledge_soak.py:2371-2411 | While projection and stores agree, it is silent if and only if the rows are what the stores hold, no document is empty and deleted libraries keep no row |
| StoreCheck.RowsThatCount | scripts/knowledge_soak.py:2374-2385 | An inactive or tombstoned row changes nothing, wherever it stands, unless its library was deleted; a live row of a library that is not live is always reported |
| StoreCheck.EmptyDocumentReported | scripts/knowledge_soak.py:2400-2404 | Rows exactly as the stores hold them that are reported all the same, for a document published with no chunks |
| StoreCheck.JudgedCycleClean | scripts/knowledge_soak.py:2672-2673 | That holds for every cycle of every run whose child was not killed |
| Fts5.Varint | scripts/knowledge_soak.py:1282-1290 | The loop reads what the specification reads, or runs off the end as it does |
| Fts5.VarintRoundTrip | scripts/knowledge_soak.py:1282-1290 | For every 64-bit value, at any offset between any bytes, the 1 to 9 bytes of the encoding of section 1.6 of the SQLite Database File Format read back as the value and the position after them |
| Fts5.VarintEnds | scripts/knowledge_soak.py:1282-1290 | Whatever the bytes, an integer is read just when its last byte, the first without the high bit or the ninth, is there |
| Fts5.OffsetsRoundTrip | scripts/knowledge_soak.py:1297-1301 | The delta-coded word offsets of the footer read back as the offsets |
| Fts5.RecordRoundTrip | scripts/knowledge_soak.py:1304-1311 | A prefix-compressed record read after the word before it gives its word |
| Fts5.LeafTerms | scripts/knowledge_soak.py:1293-1315 | The two loops over a page compute the specification and end |
| Fts5.OffsetsExactly | scripts/knowledge_soak.py:1297-1301 | For any page: the footer's integers follow each other to its end, or one begun runs past it |
| Fts5.TermsExactly | scripts/knowledge_soak.py:1304-1315 | For any page: the words follow each other, up to the first that cannot be read |
| Fts5.LeafRoundTrip | scripts/knowledge_soak.py:1293-1315 | For every list of words, every valid choice of shared prefixes and any filler bytes between records, decoding the page built in that layout gives the list |
| RepairLoops.SweepUntilFull | scripts/knowledge_soak.py:640-671 | At most max(1, limit) passes, ending at the first with a reason; no error exactly when the last pass was complete with nothing missing; "no progress" exactly after three passes running that did nothing |
| RepairLoops.VerdictExactly | scripts/knowledge_soak.py:655-671 | What a sweep's verdict says of its last passes |
| RepairLoops.OnePassMore | scripts/knowledge_soak.py:667-669 | The idle counter says whether the last three passes did nothing |
| RepairLoops.FinishRebuild | scripts/memory_soak.py:112-131 | The total is the sum over passes, passes stay in the limit, and it is finished exactly when the last report left nothing |
| RepairLoops.WrittenIsTaken | scripts/memory_soak.py:112-131 | When each pass takes what it wrote off what is left, the total is what was left before less what is left after |
| Cleanup.Install.BuildPlan | scripts/cleanup_live_leftovers.py:168-228 | The plan is what the stores hold of what the script names, except SQLite stores that cannot be read |
| Cleanup.Install.DeleteRows | scripts/cleanup_live_leftovers.py:270-286 | All of a store's matching rows, or none when the write lock is held |
| Cleanup.Install.ApplyMemory | scripts/cleanup_live_leftovers.py:348-397 | All of the memory step, or, failing at any operation, only some of what it was to do |
| Cleanup.Install.ApplyPostgres | scripts/cleanup_live_leftovers.py:400-426 | Each database whole or not at all, and what was left |
| Cleanup.Install.ApplySqlite | scripts/cleanup_live_leftovers.py:301-308 | Each planned store whole or not at all, and those that were not |
| Cleanup.Install.Apply | scripts/cleanup_live_leftovers.py:289-320 | Receipt first; a failed memory step changes no other store |
| Cleanup.Install.Clean | scripts/cleanup_live_leftovers.py:429-460 | One run: what is listed as left is exactly what is still there of what was planned, the exit code is 0 exactly when nothing is, and always with nothing locked |
| Cleanup.RunsAccounted | scripts/cleanup_live_leftovers.py:255-320 | Over any runs with any stores locked: a row is gone only if it is named and in a receipt, no memory is lost, no other is changed, and every file is in place or moved |
| Cleanup.LockedUnchanged | scripts/cleanup_live_leftovers.py:294-308 | A locked store is unchanged, and all others are when the memory step failed |
| Cleanup.RowsTaken | scripts/cleanup_live_leftovers.py:151-166 | Which rows of each SQLite store a run takes that could read and write it |
| Cleanup.ChatsTaken | scripts/cleanup_live_leftovers.py:414-423 | Every row of a test chat, and no other, in every table of the chat store |
| Cleanup.MemoryLeftOver | scripts/cleanup_live_leftovers.py:348-411 | What the memory step and the mirror's deletes leave of each memory, fact and mirror row |
| Cleanup.PlanForgets | scripts/cleanup_live_leftovers.py:168-228 | The memories a plan lists are exactly those a memory step then forgets |
| Cleanup.LeftsExactly | scripts/cleanup_live_leftovers.py:289-320 | A store, the mirror, the chat store or a file is listed as left if and only if it still holds what was planned; local memory alone, if it could not be done |
| Cleanup.FreeLeavesNothing | scripts/cleanup_live_leftovers.py:289-320 | With nothing locked nothing is listed |
| Cleanup.StoreConverges | scripts/cleanup_live_leftovers.py:45-50 | A store that one run could read and write is clean after that run and every later one |
| Cleanup.Converges | scripts/cleanup_live_leftovers.py:45-50 | Once every store was free in some run and the memory step was done in two, every step is done and a new run changes nothing at all, whatever is locked |
| Cleanup.StoresConverge | scripts/cleanup_live_leftovers.py:45-50 | Once every store was free in some run, a new run removes and moves nothing outside local memory |
| Cleanup.DoneStaysDone | scripts/cleanup_live_leftovers.py:45-46 | With every step done, a new run changes nothing at all |
| Cleanup.FreeRunDoesAll | scripts/cleanup_live_leftovers.py:168-320 | A run with nothing locked does every step if and only if, before it, no named memory was held by the mirror alone, out of the ledger and not sharing its key with one to be forgotten |
| Cleanup.NamedMemoryComesBack | scripts/cleanup_live_leftovers.py:373-397 | A run with nothing locked and exit code 0 that leaves such a memory, named and local |
| Cleanup.TwoFreeRunsDoAll | scripts/cleanup_live_leftovers.py:45-46 | After two runs with nothing locked every step is done |
| Cleanup.RealMemoriesReturn | scripts/cleanup_live_leftovers.py:373-397 | After the first successful memory step and ever after, each mirror row of another day is local or refused by the ledger, and still in the mirror |
| Cleanup.CleanExit | scripts/cleanup_live_leftovers.py:168-460 | With nothing listed as left, every step is done if and only if every store skipped while planning had nothing to remove and no named memory comes back from the mirror |
| Cleanup.SilentSkip | scripts/cleanup_live_leftovers.py:222-223 | A run that ends with exit code 0 and leaves a named row |
| Cleanup.DeletedAreReceipted | scripts/cleanup_live_leftovers.py:255-286 | With another writer between plan and deletes, every row taken from a SQLite store is in the receipt if and only if no matching row came into it in between |
| Cleanup.DeletedChatsAreReceipted | scripts/cleanup_live_leftovers.py:400-426 | So for every table of the Postgres chat store, once the plan holds a row of any of them |
| MemorySoak.MemoryStores.RunChats | scripts/memory_soak.py:168-195 | Saving, numbering and live writes of a plan's chats, killed after any step |
| MemorySoak.SettledTurns | scripts/memory_soak.py:253-269 | Exactly the numbered user turns of every chat, each once |
| MemorySoak.SaveAsks | scripts/memory_soak.py:170-180 | Saving appends the new turns after the stored ones and renumbers none |
| MemorySoak.SaveSays | scripts/memory_soak.py:170-180 | A saved chat ends with each new turn's question and its answer behind it, in order, after all it held |
| MemorySoak.TurnNumbersAgree | scripts/memory_soak.py:174-195 | After any cycles killed anywhere, a chat twice in one plan included, every live-written turn carries the number the chat store gives its question, and no turn was written twice |
| MemorySoak.LiveTurnsWritten | scripts/memory_soak.py:183-195 | A cycle that was not killed wrote every live turn of its plan |
| MemorySoak.Parent.Plan | scripts/memory_soak.py:320-346 | The parent's counters and list of turns after planning |
| MemorySoak.CountersAhead | scripts/memory_soak.py:325-343 | While new names are new, the parent's counter is the number stored plus those no cycle came to save |
| MemorySoak.CountersExact | scripts/memory_soak.py:325-343 | It is so for every chat if and only if no name drawn as new was given out before, and it is never too high |
| MemorySoak.NameDrawnTwice | scripts/memory_soak.py:326-330 | One plan that draws a name as new twice and counts one turn of two |
| Ratchet.TradeProblems | scripts/memory_bench.py:1004-1017 | A trade has no problem exactly when every lowered score is measured, falls by at most 0.05 and is not abstention, and one measured before rises by 0.05 |
| Ratchet.MemoryBench.Lock | scripts/memory_bench.py:1020-1088 | When a lock is accepted, and the whole file it then writes; refused, the file is untouched |
| Ratchet.AcceptedExactly | scripts/memory_bench.py:1020-1070 | A lock is accepted if and only if it begins another dataset on request, or, on the ratchet's own, every score stands, or a reason is given, every score stands or falls by at most 0.05, none of abstention falls, and one rises by 0.05; earlier trades do not matter |
| Ratchet.LockWrites | scripts/memory_bench.py:1050-1088 | An accepted lock writes today's scores, and one trade more exactly when a score fell, naming all that fell and rose with both values |
| Ratchet.PostgresFloors | scripts/memory_bench.py:1076-1083 | Over any locks the Postgres floors are as they were while the ratchet stays on its dataset, and gone for good once it left |
| Ratchet.RatchetHolds | scripts/memory_bench.py:1020-1088 | While the dataset's version stays, over any locks of any kind: no score disappears, abstention never falls, and any other falls by at most 0.05 for each recorded trade that names it |
| Ratchet.NoTradeNoFall | scripts/memory_bench.py:1020-1088 | Without a trade that names it, a score has not fallen |
| Ratchet.GuardedExactly | scripts/memory_bench.py:1020-1048 | For any path of dataset versions, no locks along it lose what a ratchet with scores holds if and only if the path never comes back to its dataset after leaving it |
| Ratchet.BackAndForthLowers | scripts/memory_bench.py:1040-1048 | Two accepted rebaselines that lower a score at its own version without a trade |
| Ratchet.TradesAreFair | scripts/memory_bench.py:1050-1070 | Every trade ever recorded was paid for, has a reason, and took nothing from abstention |
| Ratchet.FloorKept | scripts/memory_bench.py:1091-1102 | An extraction floor is kept exactly when its score was measured today; a measured score's floor is the higher of the two |
| Ratchet.FloorStands | scripts/memory_bench.py:1091-1102 | Over any locks that each measured it, a floor never falls |
| Ratchet.FloorGuardedExactly | scripts/memory_bench.py:1091-1102 | Whatever locks do otherwise, a floor is safe if and only if every one measures its score |
| Ratchet.FloorForgotten | scripts/memory_bench.py:1091-1102 | Two locks at one version that lower a floor |
| Ratchet.KnowledgeBench.Lock | scripts/knowledge_bench.py:646-685 | Accepted exactly when nothing is lost, or another dataset begins |
| Ratchet.PlainNeverFalls | scripts/knowledge_bench.py:646-685 | Without trades no score of a dataset falls or goes while the dataset stays |
| Ratchet.PlainIsUntraded | scripts/knowledge_bench.py:646-685 | The knowledge ratchet is the memory ratchet when no trade is offered, over any locks |
| Ratchet.PlainGuardedExactly | scripts/knowledge_bench.py:649-652 | It guards a dataset's scores over a path of versions if and only if the path never comes back to it |
| AgentdojoTally.Analyze | scripts/agentdojo_bench.py:623-703 | The counting loop's rows, cells and folders are the tallies of the logs, one for each condition and task seen |
| AgentdojoTally.RowCounts | scripts/agentdojo_bench.py:687-727 | Each figure of a row is the number of the condition's logs for which it holds, and the largest conversation is the largest |
| AgentdojoTally.CellCounts | scripts/agentdojo_bench.py:696-703 | So is each figure of a cell, for its injection task |
| AgentdojoTally.NoRunIgnored | scripts/agentdojo_bench.py:623-660 | Every run of a marked task is in a row and its folders, or its folder is named as unmatched, and no other |
| AgentdojoTally.TasksSum | scripts/agentdojo_bench.py:687-703 | A condition's totals are the sums over its injection tasks: no run lost or counted twice |
| AgentdojoTally.EngagedAtMostRuns | scripts/agentdojo_bench.py:692-698 | "Acted" and "discussed but did not act" are disjoint and together at most the runs |
| AgentdojoTally.ExcludingCappedExactly | scripts/agentdojo_bench.py:724-727 | The figure without capped runs is at most 100 if and only if no more capped runs won than uncapped ones lost, and the uncapped runs' own share if and only if no capped run won |
| AgentdojoTally.TwoHundredPercent | scripts/agentdojo_bench.py:724-727 | Two logs for which it is 200 |
| AgentdojoTally.BuildReport | scripts/agentdojo_bench.py:797-842 | Pooled rows are the sums over the named suites, one named twice pooled once, for exactly the conditions some suite ran, never of zero runs |
| AgentdojoTally.PooledAdds | scripts/agentdojo_bench.py:823-842 | What is pooled of two groups of suites is the sum, and of one suite its row, engaged being those that acted or discussed |
| AgentdojoTally.PooledAtMostRuns | scripts/agentdojo_bench.py:823-842 | Every pooled count is at most the pooled runs, so each share and each test of it is defined |
| AgentdojoTally.PooledBetween | scripts/agentdojo_bench.py:823-842 | A pooled share lies between the suites' shares |
| AgentdojoStats.SquareIsChiSquare | scripts/agentdojo_bench.py:761-780 | Where defined, the squared statistic is Pearson's 2x2 chi-square without continuity correction |
| AgentdojoStats.GuardExact | scripts/agentdojo_bench.py:773-778 | The variance is never negative, and 1.0 is returned outright exactly when a group is empty or no run or every run succeeded |
| AgentdojoStats.Symmetric | scripts/agentdojo_bench.py:761-780 | The two groups may change places |
| Decimal.GroupedRoundTrip | scripts/generate_metrics.py:836-838 | Thousands-separated text of any number reads back as it |
| Decimal.CommasByThree | scripts/generate_metrics.py:836-838 | Commas stand between thousands and nowhere else |
| Decimal.BadgeRoundTrip | scripts/generate_metrics.py:855-873 | A badge's %2C text decodes to the table's text and the same number |
| Decimal.ThousandsNearest | scripts/generate_metrics.py:833-835 | The K figures are the nearest thousand, halves to even |
| ReadmeMetrics.SyncReadme | scripts/generate_metrics.py:843-877 | One substitution after another leaves every claim as the metrics state it and all else as it was |
| ReadmeMetrics.SyncedSays | scripts/generate_metrics.py:815-877 | Read back after a sync, every claim states the metric it is for: size and its two parts to the nearest thousand, commits in badge and table, packages, tests and files |
| ReadmeMetrics.CheckReadme | scripts/generate_metrics.py:895-1022 | Nothing is reported exactly when the first claim of each kind is within its slack, commits are a lower bound, packages exact, and badge and table agree |
| ReadmeMetrics.HonestExactly | scripts/generate_metrics.py:880-1022 | That is: the first claim of each kind is there and within 75 tests, 10 files, 5K lines and 250 commits, packages exact, and the first badge shows the first test figure |
| ReadmeMetrics.SyncedStaysHonest | scripts/generate_metrics.py:843-1022 | For every text and any metrics then and now: the synced README passes if and only if each rewritten figure is still within its slack, each required claim is there, and each claim the sync leaves alone is honest by itself |
| ReadmeMetrics.SyncedIsHonest | scripts/generate_metrics.py:843-1022 | A fresh sync from a collection passes if and only if the claims are there and the first size and commit claims are in the form it rewrites, or honest already |
| ReadmeMetrics.BadgeAndTableAgree | scripts/generate_metrics.py:976-986 | After a sync, badge and table state one number |
| ReadmeMetrics.SyncTwice | scripts/generate_metrics.py:843-877 | Syncing twice is syncing once |
| ReadmeMetrics.SyncLeavesClaims | scripts/generate_metrics.py:854-864 | For every text and any metrics then and now: a first size claim without its parts, and a first commit claim without "across", survive the sync, and the README fails for as long as one of them is not honest |
| ReadmeMetrics.SyncedDishonest | scripts/generate_metrics.py:843-1022 | Two texts with every claim that a fresh sync leaves failing, one for each of the two |
| VersionBump.ParseFormat | scripts/light_version_bump.py:83-102 | Parsing the public or full form of any version, with any commit, gives it back |
| VersionBump.FullNamesBoth | scripts/light_version_bump.py:92-102 | No two versions or commits share a full form |
| VersionBump.BumpIsLeast | scripts/light_version_bump.py:105-115 | A bump is the least version that is greater at its level |
| VersionBump.BumpsIncrease | scripts/light_version_bump.py:105-115 | Over any bumps each version is greater than all before it, in the order of section 11 of Semantic Versioning 2.0.0 |
| VersionBump.ReadAfterWrite | scripts/light_version_bump.py:75-130 | Reading after writing gives the version written, every other line as it was |
| VersionBump.ProjectFiles.WriteVersion | scripts/light_version_bump.py:118-141 | Both files' first version line, or, where pyproject.toml has none, neither |
| VersionBump.ProjectFiles.BumpFiles | scripts/light_version_bump.py:222-255 | A bump of the files leaves the greater version to be read back from both, all else as it was |
| EnvShield.StaysShielded | conftest.py:164-181 | With the opt-out off, no sequence of writes and deletes leaves a database address set |
| EnvShield.LastChangeStands | conftest.py:164-181 | After any changes every variable is as the last change that concerns it left it; an address that is set goes at once, and the backend is sqlite |
| EnvShield.Process.Restore | conftest.py:209-213 | Restoring gives back the snapshot if and only if the opt-out is on or every address in it was left alone; otherwise those that were not are gone, and all else is back but maybe the backend |
| EnvShield.Process.RunTest | conftest.py:202-213 | From a shielded start a test ends with exactly the environment it began with |

## Left out

- Child processes, clocks, sleeps, report files, latency figures and logs: inputs here, or absent.
- Page and document texts, planted tokens, the hash embedder and vector similarity: an item is its library, key and version, and two items have distinct texts.
- The choice of the next embedding model (`_next_embedder`): only that a switch happened is counted.
- In the plan: the word list for the journal check, and the identities a delete hands over beside the library.
- The rest of `check_stores`: the keyword index, coverage records, fetched pages, the crawl journal and vector-store folders; each compares one listing with one expected set. In the run loop they are a number of store problems, beside the chunk check.
- SoakOracle.ProbeIsAsked: the script takes the first fact of a probed library, the model any fact of it.
- SoakRefinement.RunRefines: a library site has at least one page (`--pages` of 1 or more); with 0 the script itself stops while planning its first crawl, at the page it would spare.
- SoakRefinement.RunRefines: the product behind the child is correct: a crawl stores its pages that do not fail, a killed one some of them, new documents get new identities. `SoakOracle` assumes nothing of it, and `SoakRun.RunSoak` only for its last clause.
- SoakRun.RunSoak: the wait between cycles and the recall, growth and size counters of the report.
- Fts5.LeafRoundTrip: reading segment pages out of the database (`_segment_terms`) is not part of this model.
- The three-step idle rule of `RepairLoops.SweepUntilFull` is modelled, the text of the error is not.
- Cleanup: the product's functions for forgetting, invalidating and mirroring are atomic operations; step 3, the retired migration copies, is chosen and checked by such a function and is not modelled. The plan for printing counts memories per chat, the model holds their set.
- SoakProjection.LostAreAbsent: a cycle that replaces more than 60 versions does not look for the first of them; nothing in the script says it should.
- VersionBump: digits are ASCII; the script would also take those of other scripts.
- Cleanup: an unreachable Postgres while planning, or a failed backup, stops the script before any change.
- MemorySoak.CountersExact: every drawn chat has a turn, as the script draws at least one.
- MemorySoak: forgetting, maintenance, backup, restore and recall steps of a cycle, which number no turn.
- Ratchet: scores are exact reals between 0 and 1; measuring them, and printing what rose, is left out.
- AgentdojoTally.Analyze: finding markers in a run's text, and the condition in a folder's name, are inputs.
- AgentdojoStats.SquareIsChiSquare: the p-value as erfc of the statistic, and all rounding, is left out; the p-value depends on the squared statistic alone.
- ReadmeMetrics: README is a list of literal pieces and claims; the regular expressions that find them are not modelled, and the K figures of a claim are numbers, not text.
- VersionBump: a file is its lines, the version line found; changelog, commit and tag are left out.
- EnvShield: key case on Windows, and writes that bypass the process environment map.
