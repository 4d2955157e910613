# Verified model of the archive indexer

The program crawls IPFS directory trees for PDFs, indexes each document through a conversion and an extraction
service, and keeps the result in a handful of SQLite tables with a full-text mirror. One dispatcher takes jobs from a
queue; a pool of workers processes the pending documents of a job in rounds; admin requests delete and retry while
that goes on; a killed process resumes on its next start. This project models that logic and proves what it keeps.

The tables are one value, `Schema.Db`, and each write transaction is a function on it (`Schema`). Everything else
speaks about those functions:

* `StoreClass` is the store itself, updated in place. Each method is proved to carry out its transaction function and
  to treat the in-memory counter and lists as stated; `Deletion`, `Search`, `Words`, `Recent`, `Aggregation`
  and `Ranking` say what those functions mean (exactness and commutation of deletions, totals and paging, what a
  full-text row holds and which words find it, the most-recently-used list, order-independence of the aggregates),
  and `Text` what the string primitives under them mean.
* `Protocol` is the concurrent system: submitters, the dispatcher, workers, admin and crashes as 27 kinds of atomic
  steps, interleaved in any order. `Invariants` and `Protocol` prove what every run keeps; `PendingCounter` proves the
  counter exact; `StoredProgress` proves which steps make an archive's stored counters wrong; `Settling` proves bounded
  rounds, termination and absence of deadlock; `Fates`, `Confluence`, `Settlements`, `Crashes`, `Requeue` and `Owners`
  prove that the settled index does not depend on schedule or crashes, and exactly when that fails. `Runs` puts runs
  together.
* `IndexerClass` is the queue, start-up, `indexArchive` and the round loop run sequentially on the store object, on
  archives at any stage: new, interrupted, failed, finalized and reopened. `Jobs` says what a queue of jobs does to a
  store by the fates of its documents, and that this is the index in which every settled concurrent run ends.
* `Crawl` is the bounded depth-first walk over an arbitrary graph, as a class proved against a recursive function whose
  soundness, completeness, uniqueness and truncation are then proved.
* `Limiter`, `Retry` and `Queue` are the shared rate limiter, the retry loops with their backoff, and the job queue
  with its counter and active flag.

The outside world enters as parameters: what a directory lists and how a CID classifies (`Crawl.Gateway`), what
processing a document gives after so many recorded failures and what crawling an archive gives (`Fates.Env`), which
rows a search matches and how they rank, which replies an endpoint sends.

## What the proofs found

* **Start-up can undo a permanent failure, and can change where a document ends.** `RequeueRateLimited` deletes every
  failure whose last reason contains "rate limited" in any letter case, permanent ones included, without resuming the
  archives concerned; a deleted count also lets attempts start over. The pipeline never returns the text of a 429 reply
  itself, but it quotes up to 200 characters of the body of any other failing response (`pipeline.go:361`,
  `pipeline.go:364`, `pipeline.go:484`, `pipeline.go:487`) and the message of an API error (`pipeline.go:495`) into the
  reason. `Requeue.ConfluentIff` gives the exact condition, from every store at rest (started up, nothing unfinished),
  whatever failure records it holds: settled runs agree if and only if, for each document of an archive yet to be
  submitted, every record on its way that mentions a rate limit is neither the last nor one from which starting over
  ends differently.
* **Deleting an archive while it is crawled** leaves membership rows without an archive, and submitting it again gives
  a row that counts no documents (`Races.DeleteDuringCrawlBreaksCount`). This is the only step that breaks
  `doc_count`: `Protocol.StepKeepsInv` has it as an if-and-only-if.
* **FinalizeArchive makes four queries and a write, each on its own.** A deletion in between leaves the stored count
  one too high (`Races.DeleteDuringFinalizeBreaksProgress`). `StoredProgress.FinalizeInStepIff` has the exact condition:
  the counters are right if and only if the archive is registered at the write and no member was lost after the query
  that counted it: an indexed one after the rows are read, a permanently failed one after those are counted.
* **A retry leaves finalized archives with stale counters until they are finalized again, and a crash makes that
  last.** The retry handler queues every archive that lists the document (`server.go:408-411`); running one again
  settles the member and repairs the counters, however wrong they were (`StoredProgress.RefinalizingRepairs`,
  `Jobs.RerunSettlesReopened`). But a crash drops the queue, and after it an archive has a job if and only if it is
  queued, crawling or indexing (`StoredProgress.JobAfterCrashIff`), so a finalized one stays stale with the member
  unsettled (`StoredProgress.CrashLosesRetry`). Start-up's requeue of a permanent failure does the same without any
  retry. `StoredProgress.StepRightIff` says archive by archive, over all steps of all parties, which steps these are.
* **The owner of an archive depends on the order its jobs are sent** when two owners are named for it, crash or no
  crash: `EnqueueArchive` writes the owner at once and each job writes it again. `Owners.OwnerAgreesIff` has the exact
  condition: the submissions settle the owner if and only if they name at most one.
* **A CID that is both a directory and, under a `.pdf` name, a document** can be dropped by the crawl
  (`Crawl.ClashLosesPdf`); completeness is proved for every other CID.
* **The depth bound is not "all documents within the bound".** Depth-first order can spend it on a detour and miss a
  document two links from the root (`Crawl.DetourHidesPdf`); completeness holds when neither cap was met.
  `Crawl.TameCrawlIsComplete` says for which graphs that is certain beforehand, and `Crawl.NeverTooDeepIff` that no
  order of the listings runs into the depth bound if and only if no directory path without repetition is that long.
* **Recording a failure for an indexed CID** would make it both indexed and failing; `Invariants.FailKeepsValidIff`
  shows that this is the only way. Work lists are therefore required to be free of duplicates: the crawl's list is
  (`Crawl.WalkIsNeat`), and every caller of `EnqueueDocs` passes one CID (`server.go:377`, `server.go:413`,
  `server.go:575`).

## Model

| member | source | states |
|---|---|---|
| Requeue.ConfluentIff | main.go:88-99 | from any store at rest, any two runs that settle the same archives end in the same index, whatever the schedules, worker counts and crashes, if and only if no record on the way of a document yet to be archived is requeued as the last one or where starting over ends differently |
| Fates.HarmlessIff | store_docs.go:149-164 | that condition as a walk along the attempts and as a statement about every record on the way are one |
| Requeue.CrawlerIsConfluentIff | indexer.go:181-192 | the same for archives crawled by the modelled crawler, with nothing assumed of its lists |
| Requeue.QuietOutcomesAreConfluent | indexer.go:129-147 | if no failure's reason mentions a rate limit, every store at rest is confluent |
| Requeue.OnPathConfluentIff | main.go:88-99 | all stores whose records the same outcomes made are confluent if and only if no document of an archive ends in a requeued record |
| Requeue.CrawlerSuits | crawl.go:151-216 | the crawler's lists are free of duplicates and no longer than the document cap |
| Crashes.CrashAtRestShows | store_docs.go:149-164 | if a document ends in a requeued record there are two settled runs with different indexes |
| Crashes.CrashOnTheWayShows | store_docs.go:149-164 | so too if a record on its way is requeued and first attempts end elsewhere: the crash is placed where that record stands |
| Crashes.PassesThrough | indexer.go:127-148 | a run that settles a document passes through every record on its way |
| Settlements.SettleOneArchive | indexer.go:172-213 | submitting any new archive to any valid store has a run without a crash that settles it |
| Crashes.CrashAtRest | main.go:90-99 | a crash after everything settled settles again, to the same store minus the requeued failures |
| Confluence.RunsAgree | indexer.go:105-203 | where the requeue is harmless all settled runs agree |
| Confluence.UninterruptedRunsAgree | indexer.go:105-203 | without a crash all settled runs from any valid store agree, with no condition on outcomes |
| Confluence.SettledRunIsOutcome | indexer.go:105-203 | every settled run, uninterrupted or with the requeue harmless, ends in the outcome fixed by the starting store, the crawls and the fates |
| Confluence.CalmRunKeepsGood | indexer.go:82-203 | along every run, crashes at any point included where the requeue is harmless, every CID keeps its fate, untouched rows stay, and every unfinished archive is on its way |
| Confluence.StepKeepsGood | indexer.go:82-203 | the same for each of the atomic steps; only start-up needs the requeue to be harmless |
| Confluence.StepKeepsSafe | store_docs.go:107-164 | attempts and start-up's requeue themselves keep it harmless |
| Confluence.QuiescenceIsOutcome | indexer.go:195-203 | once queue, dispatcher and submitters are idle, the store is the outcome |
| Confluence.FinishedIsOutcome | store_archives.go:397-414 | once no new archive is resumable, the store is the outcome |
| Fates.RecordConservesFate | store_docs.go:33-131 | committing a worker's outcome moves no CID off the way to its fate and unsettles none |
| Fates.SettleSettles | store_docs.go:107-131 | retrying ends indexed or with `maxRetries` failures |
| Fates.SettledTotals | store_archives.go:147-191 | once all members are settled, the rows FinalizeArchive reads are those the fates determine, with nothing pending |
| Fates.OutcomeIsUnique | indexer.go:172-213 | starting store and submitted archives determine the index: rows, mirror, failures, labels, archive rows, member lists |
| Fates.OutcomesCompose | indexer.go:71-80 | indexing archives in instalments gives the outcome of indexing them together |
| Settling.RoundsAreBounded | indexer.go:195-201 | without admin actions no job starts more than `maxRetries` rounds, and after that many nothing is pending, for any outcomes and crashes |
| Settling.InternalStepSpends | indexer.go:71-213 | every step the process takes by itself lowers a cost |
| Settling.InternalRunsAreShort | indexer.go:71-213 | so a run without new submissions, crashes and rate-limit repeats is no longer than the cost of its start |
| Settling.CanMove | indexer.go:71-213 | a state with work left always has such a step: no deadlock |
| Settling.RestIsReachable | indexer.go:71-213 | from any good state, after a crash too, rest is reached within the cost |
| Settling.SettledArchiveAddsUp | store_archives.go:177-219 | a crawled archive ends `done` with indexed + failed = doc_count = number of members, all settled, and stored counters equal to recomputed ones |
| Protocol.StepKeepsInv | store_docs.go:33-216 | every step of dispatcher, workers, admin and crash keeps mirror, labels, exclusion and duplicate-free lists; doc_count survives if and only if the step does not persist the list of an archive deleted meanwhile |
| Protocol.EveryRunStaysConsistent | indexer.go:71-203 | in every reachable state the full-text table is a bijective mirror, labels are exact, no CID is both indexed and failing |
| Protocol.EveryRunStaysCounted | store_archives.go:114-136 | doc_count is the number of membership rows in every state reached without that race |
| Protocol.RecordKeepsValid | store_docs.go:33-216 | recording any outcome for an unindexed CID keeps the tables in agreement |
| Protocol.FreshSlotsOk | indexer.go:121-159 | a round hands each pending CID to one worker, and none of them is settled |
| Protocol.NoKeyFails | indexer.go:82-90 | without a key a job is dropped, and only the row of an archive job changes, to failed with that reason |
| PendingCounter.CounterStaysExact | store_docs.go:26-28 | throughout every run without admin actions, `pending` is the number of unsettled CIDs of the round plus committed outcomes not yet subtracted |
| PendingCounter.StepKeepsCounter | store_docs.go:77-81 | each step keeps that equation, and a subtraction always finds a positive counter |
| PendingCounter.DecrementKeepsCounter | store_docs.go:123-127 | the `> 0` guard never suppresses a decrement |
| PendingCounter.CommitsMatchState | indexer.go:127-148 | in any round, whatever interleaves, a slot has had one outcome recorded or none, as its state says |
| PendingCounter.OneOutcomeEach | indexer.go:152-159 | from start to end of a round every pending CID has exactly one outcome recorded |
| PendingCounter.DocsJobGetsOneRound | indexer.go:95-101 | a documents job gets one round with one outcome for each pending CID of its list, and is over |
| Invariants.AddKeepsMirror | store_docs.go:33-60 | an upsert, with a kept or a fresh row id, keeps the mirror a bijection |
| Invariants.AddKeepsValid | store_docs.go:33-72 | `Add` keeps all table invariants |
| Invariants.FailKeepsValidIff | store_docs.go:107-131 | recording a failure or skip keeps them if and only if the CID is not indexed |
| Invariants.FewerFailuresKeepValid | store_docs.go:149-195 | clearing failure records keeps them |
| Invariants.RequeueIsExact | store_docs.go:149-164 | start-up takes exactly the records whose reason, lowered, has "rate limited" anywhere in it, and changes nothing else |
| Invariants.LabelsAreExact | store_docs.go:84-104 | a document's labels are its keywords, field and topic, trimmed and lowered, blank ones aside |
| Invariants.RowWriteKeepsValid | store_archives.go:55-97 | an archive row may be written when its doc_count is kept, or is zero for a new archive |
| Invariants.SetDocsKeepsCountedIff | store_archives.go:114-136 | persisting a crawl keeps doc_count right if and only if the archive still exists or the list is empty |
| Invariants.FinalizeKeepsValid | store_archives.go:203-220 | the write of FinalizeArchive keeps the invariants, whatever totals it writes |
| Invariants.FinalizeSetsInStep | store_archives.go:34-51 | on current totals it leaves the stored counters equal to what fillArchiveProgress recomputes |
| Invariants.FinalizeIsRight | store_archives.go:177-219 | counters and status are as the members are; doc_count, owner, error and a given name stay |
| Invariants.FinalizeRanks | store_archives.go:193-194 | the twelve most used keywords and all fields are stored, by falling count and then in order |
| Invariants.FinalizeNames | store_archives.go:204-212 | an unnamed archive is named after its most frequent field, or itself when it has none; none is renamed |
| Invariants.MembersSplitInThree | store_docs.go:11-30 | members are indexed, permanently failed or pending: three disjoint parts that add up |
| Deletion.DeleteArchiveIsExact | store_admin.go:149-187 | a CID loses its document, mirror, label and failure rows if and only if it belongs to the deleted archive and to no other; otherwise every row stays |
| Deletion.DeleteArchiveSparesOthers | store_admin.go:164-180 | every other archive keeps its row, its members and its recomputed counts |
| Deletion.DeletionsCommute | store_admin.go:151-187 | deleting A then B leaves the same store as B then A |
| Deletion.DeleteTwice | store_admin.go:151-187 | two deletions remove exactly the documents of the two that no third archive lists |
| Deletion.DropOneMore | store_admin.go:165-175 | one iteration of the loop removes one exclusive document and touches no other archive |
| Deletion.SharedIsNotExclusive | store_admin.go:166-171 | a positive count of other memberships, taken inside the loop, means shared in the store as it was |
| Deletion.UnsharedIsExclusive | store_admin.go:166-174 | a zero count means exclusive in the store as it was |
| Deletion.DropAllThenUnregister | store_admin.go:176-180 | the loop and the two final deletes amount to the closed form |
| Deletion.DeleteArchiveKeepsValid | store_admin.go:151-187 | deleting an archive keeps all table invariants |
| Deletion.DropKeepsMirror | store_admin.go:190-230 | deleting a document keeps the mirror a bijection |
| Deletion.DropKeepsCounted | store_admin.go:207-214 | doc_count stays the number of membership rows and its clamp never fires |
| Deletion.DeleteDocumentIsExact | store_admin.go:130-232 | a CID that is indexed or has failed, be it once, loses its rows in every table and member list, and no other CID loses any; otherwise nothing changes |
| Deletion.DeleteDocumentCounts | store_admin.go:207-212 | exactly the archives that listed it count one document less |
| Deletion.DropKeepsInStep | store_admin.go:207-214 | stored indexed and failed stay what would be recomputed and their clamps never fire |
| Deletion.DeletionsKeepInStep | store_admin.go:130-187 | so for a finalized archive through any sequence of document deletions and deletions of other archives |
| Races.DeleteDuringCrawlBreaksCount | indexer.go:179-190 | delete, persist, submit: a row counting no documents with all members listed |
| Races.DeleteDuringFinalizeBreaksProgress | store_archives.go:140-220 | delete between read and write: stored indexed one above the recomputed count |
| Owners.OwnerIsSubmitted | store_archives.go:55-78 | in every settled run, crashes included, the archives are those submitted, each without an owner if none was named and with one of those named otherwise |
| Owners.OwnerAgreesIff | indexer.go:53-56 | settled runs with given submissions agree on the owner of an archive if and only if they name at most one |
| Owners.AnyNamedOwnerCanWin | indexer.go:66-69 | whichever owner is named, some settled run without a crash ends with it |
| Owners.RunsAgreeOnOwners | indexer.go:53-203 | with at most one owner named for each archive, settled runs with the same submissions end in the same index and equal archive rows, owners included |
| StoredProgress.FinalizeInStepIff | store_archives.go:140-224 | over any steps of others between the four queries and the write, the stored counters equal the recomputed ones if and only if the archive is registered at the write and no member was lost after the query that counted it |
| StoredProgress.StepRightIff | store_archives.go:34-51 | for each archive by itself: a step keeps its counters right and, once finalized, its members settled, if and only if it loses no member counted by a finalization under way and clears no permanent failure of it once finalized |
| StoredProgress.StepPhaseRightIff | store_archives.go:140-201 | whatever is stored, the counts of a finalization under way stay current if and only if nothing counted is lost |
| StoredProgress.RunStaysRight | store_archives.go:34-51 | so along every run without such a step for this archive, whatever befalls others, with any schedule, crashes, documents jobs, retries and deletions |
| StoredProgress.RefinalizingRepairs | indexer.go:203 | however wrong its counters were, any run that loses nothing counted and writes the archive again leaves them right |
| StoredProgress.JobAfterCrashIff | main.go:94-99 | after a crash an archive has a job if and only if it is queued, crawling or indexing |
| StoredProgress.CrashLosesRetry | server.go:404-416 | retry, resubmit, crash: the member of a finalized archive is unsettled, the counters are stale, and no job is left to mend it |
| StoredProgress.AdminCounts | store_admin.go:130-232 | under admin actions each recomputed count only falls, and stays if and only if nothing it counts is lost |
| StoreClass.Store.constructor | store.go:133-161 | an empty store with zeroed counters and no recent searches |
| StoreClass.LabelSet | store_docs.go:84-104 | a duplicate-free list of exactly the non-empty normalized keywords, field and topic, each trimmed and lowercase |
| StoreClass.Store.Pending | store_docs.go:12-30 | in order, the CIDs neither indexed nor permanently failed; the counter becomes their number |
| Seqs.MinusKeepsOrder | store_docs.go:16-25 | what is pending is in the order of the list |
| StoreClass.Store.Add | store_docs.go:33-82 | the upsert of all four tables, and one guarded decrement |
| StoreClass.Store.Relabel | store_docs.go:62-69 | the CID's label rows are replaced, all others kept |
| StoreClass.Store.RecordFailure | store_docs.go:107-131 | the count goes up with the new reason; the counter goes down exactly when that made the failure permanent |
| StoreClass.Store.RecordSkip | store_docs.go:198-216 | a permanent failure with the skip reason, one decrement, one more skipped |
| StoreClass.Store.RetryFailure | store_docs.go:180-195 | the record is gone; true if there was one |
| StoreClass.Store.RequeueRateLimited | store_docs.go:149-164 | exactly the records whose lowered reason has "rate limited" somewhere are gone, the others unchanged, and their number is returned |
| StoreClass.Store.SearchPage | store_docs.go:248-279 | the total is the number of matching documents; row i of the page shows the document of match offset + i with its current fields, and the page is as long as limit and total allow; an empty query finds nothing |
| StoreClass.Store.Search | store_docs.go:242-245 | every matching document exactly once with its current fields, and nothing else |
| StoreClass.Store.Suggest | store_docs.go:282-306 | the twenty labels with the most documents, with their numbers, by falling number then label |
| StoreClass.Store.Splice | store_docs.go:315-320 | dropping the first fold-equal entry forgets the keyword altogether |
| StoreClass.Store.RecordSearch | store_docs.go:309-329 | the bounded list stays the tail of the unbounded history of all calls |
| StoreClass.Store.GetRecentSearches | store_docs.go:332-340 | exactly the list reversed |
| StoreClass.Store.AddArchive | store_archives.go:55-78 | a new queued row, or the owner updated when one is given, and nothing else |
| StoreClass.Store.MarkArchiveCrawling | store_archives.go:81-83 | only the status of an existing row |
| StoreClass.Store.MarkArchiveFailed | store_archives.go:86-88 | only status and error of an existing row |
| StoreClass.Store.SetArchiveDocs | store_archives.go:114-136 | doc_count and status of an existing row; the membership rows replaced by the list, first occurrences in order |
| StoreClass.Store.ArchiveDocCIDs | store_archives.go:375-393 | the members in crawl order |
| StoreClass.Store.ResumableArchives | store_archives.go:397-414 | each queued, crawling or indexing archive once, in any order |
| StoreClass.Store.FinalizeArchive | store_archives.go:140-224 | for rows in any order: counters, keywords, fields, status and name as the member documents determine, the rest of the row and every other row kept |
| StoreClass.Store.DropDocument | store_admin.go:190-232 | the document's rows in all six tables go and the counters of the archives listing it shrink |
| StoreClass.Store.DeleteDocument | store_admin.go:130-147 | that, when the CID is indexed or failing; otherwise nothing |
| StoreClass.Store.DropExclusive | store_admin.go:161-175 | the loop leaves the store without the exclusive documents and otherwise as it was for every other archive |
| StoreClass.Store.DeleteArchive | store_admin.go:151-187 | the store becomes the closed form without the archive; false and unchanged when it does not exist |
| Schema.NextRowid | store_docs.go:47-50 | a row id above all in use, so fresh |
| Aggregation.CountKeywords | store_archives.go:147-174 | the map counts each normalized keyword over all rows |
| Aggregation.AddKeywords | store_archives.go:166-170 | one row adds its normalized, non-empty keywords |
| Aggregation.CountFields | store_archives.go:171-173 | the map counts each trimmed, non-empty field over all rows |
| Aggregation.BagsCount | store_archives.go:160-174 | the tallies are what one would count row by row |
| Aggregation.BagsOfPermutation | store_archives.go:151-174 | keyword and field multisets depend only on the multiset of rows |
| Aggregation.TotalsIgnoreRowOrder | store_archives.go:147-194 | so do all aggregates |
| Ranking.RankingIsUnique | store.go:356-363 | there is one list of all keys sorted by count then key |
| Ranking.TopKeepsTheBest | store.go:331-341 | a key is omitted only when the list is full, and then its count is no greater than that of any key kept, which it follows when equal |
| Ranking.TopDescends | store.go:331-341 | counts fall along the list, equal counts in the order of the keys, and it is as long as it may be |
| Ranking.FieldsDescend | store.go:343-354 | the same of all fields, each with its count |
| Ranking.SortByCountThenKey | store.go:356-363 | a permutation with falling counts, equal counts in the order of the keys |
| Ranking.CollectKeys | store.go:332-335 | every key once, in whatever order the map is iterated |
| Ranking.TopCounted | store.go:331-341 | the first n of the unique ranking, whatever the iteration order |
| Ranking.TopFields | store.go:343-354 | the unique ranking with counts, whatever the iteration order |
| Ranking.InsertKeepsSorted | store.go:356-363 | the order is strict and total enough to insert by |
| Search.TotalIsNumberOfMatches | store_docs.go:254-270 | the FTS count, the joined rows and the matching documents are equal in number, and the join returns exactly the matching documents |
| Search.JoinDropsNothing | store_docs.go:264-268 | the join keeps every hit, with the very fields that matched |
| Search.JoinIsOneToOne | store_docs.go:264-268 | no document appears twice |
| Search.PagesCoverMatching | store_docs.go:242-270 | the pages of a search, one after the other, hold every matching document exactly once, with its current fields, and nothing else |
| Search.SearchIsExact | store_docs.go:242-245 | so does the full result |
| Words.RowShowsDocument | store_docs.go:47-60 | in every mirrored store a document's full-text row holds its title, field and topic, and its keywords one after the other with one space between neighbours |
| Words.JoinedAt | store_docs.go:58 | each keyword stands at its place, between spaces or at an end |
| Words.FieldFinds | store_docs.go:264-268 | a search on title, field or topic finds exactly the documents with it |
| Words.WordFinds | store_docs.go:264-268 | a search for a word among the keywords finds exactly the documents with a keyword that has it; where keywords have no spaces, those with that keyword |
| Search.SuggestionCountsDocuments | store_docs.go:282-305 | a suggestion's count is the positive number of documents whose current entry bears the label |
| Search.SuggestionsDescend | store_docs.go:286-291 | suggestions fall in count, equal counts in the order of the labels |
| Search.SuggestionsAreComplete | store_docs.go:286-291 | a matching label of some document is suggested unless twenty others have more documents, or as many and come first |
| Recent.HistoryIsLastUses | store_docs.go:309-329 | the unbounded list holds exactly the last productive use of each keyword |
| Recent.HistoryIsInOrder | store_docs.go:321-325 | in the order of those uses |
| Recent.HistoryHasOnePerKeyword | store_docs.go:315-325 | one entry per keyword, in lower case |
| Recent.SpliceForgets | store_docs.go:315-320 | removing one entry removes all of its keyword |
| Recent.TruncationCommutes | store_docs.go:326-328 | cutting to thirty before or after an update gives the same list |
| IndexerClass.Indexer.ProcessOne | indexer.go:127-148 | one outcome recorded for one CID, with the counter moved exactly when it settles |
| IndexerClass.Indexer.IndexPending | indexer.go:105-168 | one attempt for every pending CID and nothing else changed; the counter ends at the number still unsettled |
| IndexerClass.Indexer.IndexMembers | indexer.go:195-201 | the loop ends within `maxRetries` rounds with every listed document at its fate, no other changed and the counter at zero |
| IndexerClass.Indexer.IndexDocs | indexer.go:95-101 | a documents job attempts each pending CID once and changes nothing else |
| IndexerClass.Indexer.FindMembers | indexer.go:175-193 | the members listed already, or the crawl's, persisted; with neither the archive is failed and all else kept |
| IndexerClass.Indexer.IndexArchive | indexer.go:172-213 | from any valid store, the archive at any stage: its documents meet their fates, its row and list are finished accordingly, and nothing else changes |
| IndexerClass.Indexer.EnqueueArchive | indexer.go:53-56 | the row is written at once and the job queued last |
| IndexerClass.Indexer.StartUp | main.go:90-99 | rate-limited failures requeued, and a job for exactly the archives left unfinished |
| IndexerClass.Indexer.Run | indexer.go:71-103 | from any valid store and queue: the documents listed by its archives meet their fates, their rows and lists are finished, and nothing else changes |
| Jobs.WorkedOneMore | indexer.go:71-80 | jobs compose, repeated and overlapping ones included |
| Jobs.FinalizingReindexes | store_archives.go:147-219 | with every member settled, finalizing writes the row the fates determine |
| Jobs.RerunSettlesReopened | server.go:408-411 | running a finalized archive again settles the members reopened since, repairs its counters, and leaves every other document, archive and list alone |
| Jobs.WorkedIsOutcome | indexer.go:71-213 | working off a ready queue gives the outcome that settled runs have |
| Jobs.WorkedMatchesRuns | indexer.go:71-213 | and so the index of every settled concurrent run with the same archives, crashes included where the requeue is harmless |
| Jobs.RestIsReady | main.go:88-99 | a valid store to which nothing was submitted is ready |
| Jobs.EnqueueKeepsReady | indexer.go:53-56 | submitting keeps it ready: every unfinished archive has a job |
| Jobs.StartUpIsReady | main.go:90-99 | after a crash at any point, start-up makes it ready again, where the requeue is harmless |
| IndexerClass.AttemptOneMore | indexer.go:129-147 | each CID of a round is attempted once, from its own failure count |
| IndexerClass.AttemptsConserve | indexer.go:200 | a round keeps every fate, unsettles nothing, and raises the count of what it leaves unsettled |
| IndexerClass.OneAttemptCounts | store_docs.go:77-131 | recording one outcome moves the number of pending CIDs by exactly what it settled |
| Crawl.Crawler.constructor | crawl.go:65-79 | non-positive limits become the defaults |
| Crawl.Crawler.WalkDir | crawl.go:164-212 | the recursive closure over visited, docs and order computes the walk |
| Crawl.Crawler.Crawl | crawl.go:151-216 | the two root errors, or the walk's documents in order without duplicates |
| Crawl.CrawlIsSound | crawl.go:160-215 | every returned CID is a PDF entry of a directory fewer than `maxDepth` links from the root |
| Crawl.CrawlEnumeratesOnce | crawl.go:169-174 | each directory is enumerated at most once, and only reachable ones |
| Crawl.CrawlIsComplete | crawl.go:160-215 | short of both caps, exactly the reachable directories are enumerated and, of the CIDs not also reachable as directories, exactly the reachable PDFs returned, on any graph: a listing or an entry that fails costs only what lies behind it |
| Crawl.NothingElseIsLost | crawl.go:174-211 | short of the document cap, of every directory enumerated and listed each PDF is returned (or was enumerated) and each directory enumerated, unless refused at the end of a path as long as the depth bound allows |
| Crawl.NameDecides | crawl.go:132-148 | space and case aside, a name ending in .pdf is a PDF, one with a listed extension is skipped, one with another extension or none is undecided |
| Crawl.EntryIsNamedOrProbed | crawl.go:187-195 | an entry is probed exactly when its name leaves its kind open |
| Crawl.CrawlIsExact | crawl.go:160-215 | where kind is a function of the CID, exactly the reachable PDFs |
| Crawl.TameCrawlIsComplete | crawl.go:160-215 | no warning is logged when reachable directories list and their entries classify, no directory path without repetition has `maxDepth` links and fewer than `maxDocs` PDFs are reachable, so the crawl is complete |
| Crawl.NeverTooDeepIff | crawl.go:196-202 | no order of the listings draws a depth warning if and only if no directory path without repetition has `maxDepth` links |
| Crawl.ClashLosesPdf | crawl.go:184-187 | the exception is real |
| Crawl.DetourHidesPdf | crawl.go:169-202 | a document two links from the root is missed when depth-first order first reaches its directory too deep; the depth warning is logged |
| Crawl.CapTruncates | crawl.go:166-183 | a smaller document cap returns the first entries of what a larger one returns |
| Crawl.WalkIsNeat | crawl.go:203-207 | output without duplicates, enumerated directories all visited once |
| Crawl.WalkCut | crawl.go:165-212 | the lockstep simulation behind it: same state until the cap, then a prefix |
| Limiter.StepKeepsInv | pipeline.go:161-196 | each step keeps tokens plus calls in flight at capacity, the gate never moves back, a release never drops a token |
| Limiter.WindowIsSafe | pipeline.go:124-183 | over any window: conservation for the concurrency limiter, calls at most burst plus refills for the ticking one |
| Limiter.FreshIsSafe | pipeline.go:124-159 | both constructors establish the invariant, for sizes below one too |
| Limiter.TakersWaited | pipeline.go:162-173 | whoever takes a token passed the gate at or after every deadline set before its last check |
| Limiter.PenaltyHolds | pipeline.go:162-196 | a worker that had not passed the gate when a penalty was set takes no token before the penalty is over, whatever happens in between |
| Limiter.CheckPassesIff | pipeline.go:162-196 | in any run of a new limiter a worker that checks passes if and only if every penalty set so far is over |
| Limiter.FreshLetsIn | pipeline.go:124-159 | a new limiter lets as many workers in at once as its size says, and at least one |
| Limiter.TokenBackLetsOneIn | pipeline.go:136-183 | without a token none enters; one refill or release below capacity lets exactly one more in |
| Retry.CallWithRetry | pipeline.go:281-320 | the verdict comes at the first deciding reply and is that reply's; acquires and releases balance around every reply; each undecided one is followed by the intended pause |
| Retry.RateLimitsAreFree | pipeline.go:398-434 | inserting a rate-limit reply anywhere decides nothing earlier or later |
| Retry.ThirdTransientDecides | pipeline.go:308-312 | with neither success nor fatal reply, the call ends exactly once more than `maxTransientRetries` transient ones came |
| Retry.RateLimitsInARow | pipeline.go:293-307 | rate limits in a row pause worker and pool for 2, 4, 8 .. seconds, at least as the server says and at most a minute; a wait of over two minutes pauses the pool alone, for that wait up to a day |
| Retry.TransientsInARow | pipeline.go:308-315 | transient errors in a row pause the worker alone for 2, 4, .. seconds |
| Retry.BackoffDuration | pipeline.go:535-552 | the sleep is min(maxBackoff, max(hint, baseBackoff·2^attempt)) for every attempt and hint, in 64 bits without overflow |
| Retry.BackoffMonotone | pipeline.go:531-534 | sleeps grow with attempt and hint, between base and ceiling |
| Queue.StepKeepsInv | indexer.go:66-80 | each atomic step keeps counter, order and flag related |
| Queue.QueueProtocol | indexer.go:44-80 | the counter is what is on its way plus a job just received, so never negative; jobs run once each in the order sent; the flag is up throughout every process; idle under a raised flag means a job is coming |
| Text.NormalIsTrimmedLower | store_docs.go:88 | normalizing gives a trimmed, lowercase string |
| Text.LowerIsExact | store_docs.go:88 | capitals become their small letters and nothing else changes |
| Text.TrimIsExact | store_docs.go:88 | trimming takes white space off both ends, all of it and nothing else |
| Text.SpaceIs | store_docs.go:88 | white space by code point |
| Text.LessIff | store.go:357-362 | strings are ordered by the first character that differs, or by length when there is none |
| Text.ContainsIff | store_docs.go:152 | containing is occurring at some position |

## Left out

- HTTP handlers, sessions, API key files, templates, the review queue and the denylist: plumbing and single-table operations.
- Gateway, Kubo, conversion and extraction calls: parameters of the model, as are the rows a search matches and the order they rank in.
- SQLite itself: a transaction is one atomic step that commits; failed statements, which the code only logs, do not occur. FTS5 tokenization and the MATCH expression built by `ftsMatch` are one abstract predicate, and so is LIKE in `Suggest`.
- Timestamps: no table equality looks at them, and a clock appears only in the limiter.
- Unicode: lower-casing and case folding are those of ASCII letters (white space is the full set `strings.TrimSpace` removes); no normalisation.
- JSON encoding of keywords and fields: taken to round-trip.
- `archive_docs.position`: membership is kept as a list in position order.
- `Stats`, `SaveAll`, `RecordRateLimited` (no caller), `Archives`, `SearchArchives`, `ArchiveRefs` and other read-only listings, and the archives attached to search results.
- Requeue.ConfluentIff: covers runs that submit archives the starting store does not hold, with a key configured; running an archive of the starting store again is said by `Jobs.RerunSettlesReopened` and `IndexerClass.Indexer.Run` for one job after another, and by `Protocol` and `StoredProgress` for all runs; across a crash such a job is lost. A documents job gets one round and is lost in a crash, so its result does depend on both; such jobs and admin actions are covered by the invariants of `Protocol` instead.
- Fates.OutcomeIsUnique: equality is up to row ids, times and archive owners, since outcomes do not determine owners; `Owners.RunsAgreeOnOwners` adds them under the exact condition.
- Crawl.TameCrawlIsComplete: sufficient, not necessary; one order of the listings may happen to miss the long path, as `Crawl.NeverTooDeepIff` says.
- Start-up is one step (requeue, then every resumable archive enqueued in some order): the dispatcher is not observed between two of its enqueues. The channel's capacity is modelled in `Queue` only.
- The two queries of `Pending` are one snapshot: between them no other transaction is modelled. The queries of `FinalizeArchive` are separate steps.
- The `skipped` counter is part of `StoreClass` but not of `Protocol`.
- IndexerClass.Indexer.IndexPending: one worker, in order; the worker pool with all its interleavings is in `Protocol`.
- Ranking.SortByCountThenKey: sorts by insertion and returns a new list; `sort.Slice` sorts in place by an unspecified algorithm, and the result is the same unique list.
- StoreClass.Store.SearchPage: the rank order is given; that two queries of the same page sequence see the same order is assumed by fixing it.
- Retry.CallWithRetry: the endpoint's replies are a finite sequence given in advance; a call still waiting at its end is undecided. Both retry loops are this one method, which differs in whether a token is released.
