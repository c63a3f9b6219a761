# Verification model of the job discovery engines

The repository helps a candidate discover jobs and keep a profile. Around its language models,
browsers and databases sit small deterministic engines, and this project models them in Dafny and
proves what they keep. Each engine that changes state step by step is written as a class or a
looping method and proved against a function; the laws are then proved about that function.

- **Candidate deduplication** (`Deduplicate*.dfy`, `Grouping.dfy`, `Common.dfy`): identity keys,
  clustering by title and route, merging in place, title-only echoes and shared list-page URLs.
  Main results: pass 1 loses nothing, and there are exact conditions under which pass 1 and the
  whole pipeline are idempotent. Text normalisation, body hashing and location splitting are
  arbitrary functions (the fields of `Policy`), so the laws hold for every normalisation.
- **Lenient JSON** (`JsonText.dfy`, `Scanners.dfy`, `JsonScan.dfy`, `JsonCuts.dfy`,
  `LenientExtract.dfy`, `LenientBlocks.dfy`): a printer for JSON texts after sections 2 to 7 of
  RFC 8259, with free whitespace and free choice of escapes, the two hand-written scanners, which
  invert it, also on text cut off anywhere, and the extraction built on them, also on text with
  malformed blocks.
- **Batch accumulation** (`CandidateBatches.dfy`): appending batches to a file with deduplication.
- **Profile aggregate** (`Profiles.dfy`, `ProfileLaws.dfy`, `ProfileRuns.dfy`,
  `ProfileStore.dfy`): decisions, confirmed versions, references, activation and cascading deletion
  under optimistic locking. Each operation is a transaction that commits or leaves the state alone,
  since rollback belongs to the caller. Decision timestamps strictly increase.
- **Incremental state** (`StateFile.dfy`, `StateLedger.dfy`, `LedgerCommands.dfy`): the crash-safe
  save, with a crash possible after every disk write, and the ledger that decides skip or extract. The
  replacement of the live file is atomic, the copy to the backup is not, and a partial file never
  parses.
- **Command-line quoting** (`CliQuoting.dfy`): the Windows printer and splitter.
- **Rate limiter** (`RateLimit.dfy`): a fixed window over a counter with expiry, a clock that never
  goes back, and faults before and after the store applied the commands. A counter is gone from the
  instant its time is up; a store that still serves it at that instant behaves as one whose window is
  one tick longer.
- **Discovery recovery** (`Recovery*.dfy`): budgeted fetch and search phases. The budget, the tools and
  the persistence are arbitrary functions of everything that happened before.
- **Event log** (`EventLog.dfy`, `Ordering.dfy`): run-local sequence numbers and cursor reads.
- **Evidence walk** (`EvidenceWalk.dfy`, `EvidenceCollector.dfy`): the JSON worklist and the collector,
  with the totals that end a payload.
- **Tall images** (`OcrSlices.dfy`): the slicing arithmetic, for any threshold and overlap.

`dafny verify dfyconfig.toml` checks the project.

Where the code and its own words disagree, the model follows the code:

- The identity key promises that one company's full description cannot drop another company's
  title-only entry (deduplicate.py:362); pass 2 compares titles only (deduplicate.py:556-571).
- A truncated batch is said to yield all complete objects (write_candidates.py:21-23); the object
  span is tried first and returns the first one alone (write_candidates.py:149-153), and before it the
  array span, which takes a list inside an object for the batch (write_candidates.py:142-148).
- The check command is described by URL and update time (state.py:118) but stops at the first entry
  of the URL (state.py:123-140), while the diff command takes the newest (state.py:223-226).
- Quoting is called lossless (subprocess_runner.py:24), but the splitter knows no escaped quote.
- The evidence collector is to keep every job-shaped record (browse.py:139-140), but an infinite
  total, as in `1e999`, raises an error that only the caller swallows (browse.py:160-170), and the
  rest of that payload is lost.
- The recovery is to preserve per-URL failures (recovery.py:233-234), but leaves the answer
  and the evidence of a priority fetch that did not end it out of its result (recovery.py:265-277).
- No blocked URL is to be retried, and only URLs of the search to be fetched, after the direct fetch
  (recovery.py:497-499); the trusted seeds are fetched first, and a seed or a search result may be
  the URL that was blocked (recovery.py:512-553).
- A query variant whose hash has not been used is to be picked (recovery.py:160-163), but the variants
  are chosen before the hashes of the recovery's own searches are noted (recovery.py:181-193), and
  are made distinct before they are cut to 380 characters.

A candidate field that is missing and one that is the empty string are the same value here, as the
code only asks whether a field is truthy. An identity key with joined location texts is modelled
with the set of normalised places, which is the same while no place contains the separator `|`.

## Model

| member | source | states |
|---|---|---|
| `DeduplicatePass1.Pass1IdempotentIff` | skill/job-discovery/scripts/deduplicate.py:532-554 | Running pass 1 on its own output gives exactly the same list, in the same order, if and only if no full key of the input with several members has two clusters whose first titles match while the first non-empty `apply_url` of the earlier one is blank; in particular for all lists without whitespace-only URLs. |
| `DeduplicatePass1.Pass1FixedIff` | skill/job-discovery/scripts/deduplicate.py:532-554 | Pass 1 leaves a list as it is exactly when equal identity keys stand together and no two full candidates of one key have matching titles and compatible routes. |
| `DeduplicatePass1.OutputSettledIff` | skill/job-discovery/scripts/deduplicate.py:377-400 | The step behind it: the merged clusters of one key are pairwise apart again exactly when none of them rejoin, because a cluster carries at most one route and the later of two matching clusters opened with its own. |
| `DeduplicatePass1.GroupFixedIff` | skill/job-discovery/scripts/deduplicate.py:546-554 | Clustering and merging one group changes nothing exactly when all its members are pairwise apart; otherwise it gets strictly shorter. |
| `DeduplicatePass1.Pass1Partitions` | skill/job-discovery/scripts/deduplicate.py:532-554 | Pass 1 loses nothing: the merge groups partition the input as a multiset, each output merges exactly one of them, and all its members share the output's identity key. |
| `DeduplicatePass1.Pass1KeepsRefs` | skill/job-discovery/scripts/deduplicate.py:403-466 | The evidence-reference keys over the output of pass 1 are exactly those over the input. |
| `DeduplicatePass1.Pass1Groups` | skill/job-discovery/scripts/deduplicate.py:532-554 | In the output of pass 1 equal identity keys stand together, in the order of the keys. |
| `DeduplicateFacts.KeyTells` | skill/job-discovery/scripts/deduplicate.py:353-374 | Two candidates have one identity key exactly when, in their raw fields, company, set of places and first recruitment type agree after normalisation, both or neither have a body with any text, and the two body texts agree, or without a body the titles. |
| `DeduplicateFacts.GroupsAreOnePosting` | skill/job-discovery/scripts/deduplicate.py:532-554 | All members of a merge group, and the candidate they become, agree on those raw facts. |
| `DeduplicateFacts.PostingIsGrouped` | skill/job-discovery/scripts/deduplicate.py:532-554 | Conversely all inputs that agree on them are one merge group when they have no body, and else form the clusters that title and URL make of them. |
| `DeduplicateFacts.ClusteredInFirst` | skill/job-discovery/scripts/deduplicate.py:377-400 | Clustering one more candidate appends it to the first cluster with a member whose normalised title contains its own or is contained in it, and of whose members none has a URL, or it has none, or one has its trimmed URL; if there is none it opens a cluster at the end. |
| `DeduplicateFacts.PairMergesIff` | skill/job-discovery/scripts/deduplicate.py:353-400 | Two candidates are merged exactly when they agree on the raw facts and, if they have a body, one title occurs in the other and their trimmed URLs do not differ. |
| `DeduplicateFacts.SourcesStay` | skill/job-discovery/scripts/deduplicate.py:403-466 | The sources cited after pass 1, by URL, content hash and evidence type, are exactly those cited before. |
| `DeduplicateFacts.SourcesOnce` | skill/job-discovery/scripts/deduplicate.py:403-466 | A merged candidate cites no source twice. |
| `DeduplicateFacts.ClearsContested` | skill/job-discovery/scripts/deduplicate.py:305-331 | Clearing changes a candidate exactly when candidates with two different non-empty titles share its URL; then the URL is emptied and the warning present, and every other field stays. |
| `DeduplicateFacts.EchoesAreDropped` | skill/job-discovery/scripts/deduplicate.py:556-571 | Pass 2 drops a candidate exactly when it has no body and a title that some candidate with a body has. |
| `DeduplicateLaws.ClustersPartition` | skill/job-discovery/scripts/deduplicate.py:377-400 | The clusters partition the members: every member is in exactly one cluster, as often as it occurs. |
| `DeduplicateLaws.ClustersSound` | skill/job-discovery/scripts/deduplicate.py:377-400 | Every cluster is non-empty, knows its first title and carries at most one route; any two clusters either do not match by first title or carry contradicting routes. |
| `DeduplicateLaws.ApartIffSingles` | skill/job-discovery/scripts/deduplicate.py:377-400 | Clustering leaves every member alone exactly when all members are pairwise apart. |
| `DeduplicateLaws.MergeAllKeepsKey` | skill/job-discovery/scripts/deduplicate.py:419-466 | Merging members of one identity key yields a candidate of that key: kind, company, body hash, location set and recruitment type. |
| `DeduplicateMerge.MergedUrl` | skill/job-discovery/scripts/deduplicate.py:419-466 | The merged candidate carries the first non-empty `apply_url` of its members, blank or not. |
| `DeduplicateMerge.MergeAllTexts` | skill/job-discovery/scripts/deduplicate.py:419-466 | Of its members a merged candidate has the first non-empty company and URL, the last non-empty text of every content field, and the first member's title. |
| `DeduplicateMerge.MergeAllLists` | skill/job-discovery/scripts/deduplicate.py:403-466 | Merging one by one gives the same lists as deduplicating the concatenation of all members' lists at once. |
| `DeduplicateMerge.MergeAllRefs` | skill/job-discovery/scripts/deduplicate.py:403-466 | The same for evidence references, under their three-part key. |
| `DeduplicateRun.DedupePreserve` | skill/job-discovery/scripts/deduplicate.py:403-416 | The loop over `out` and `seen` computes the first item of each key, in order. |
| `Common.FirstByKeyKeys` | skill/job-discovery/scripts/deduplicate.py:403-416 | First-occurrence deduplication keeps every key, leaves each key once, and invents no item. |
| `Common.FirstByKeyFrom` | skill/job-discovery/scripts/deduplicate.py:403-416 | The kept items stand in the order of the list, each the first of its key. |
| `DeduplicateRun.Record.MergeFrom` | skill/job-discovery/scripts/deduplicate.py:419-466 | The in-place merge: lists become deduplicated unions, company and URL are only filled when missing, content fields take the newer non-empty text, the title stays. |
| `DeduplicateRun.ClusterByTitle` | skill/job-discovery/scripts/deduplicate.py:377-400 | The clustering loop over title sets and member lists refines the clustering function. |
| `DeduplicateRun.MergeGroup` | skill/job-discovery/scripts/deduplicate.py:546-554 | One key's members become fresh records, one per cluster, each holding the merge of its cluster. |
| `DeduplicateRun.BuildGroups` | skill/job-discovery/scripts/deduplicate.py:532-541 | The grouping loop lists the keys in order of first occurrence and maps each to exactly its members, in order. |
| `DeduplicateRun.RunPass1` | skill/job-discovery/scripts/deduplicate.py:532-554 | Pass 1 with records updated in place leaves exactly the list that the pass-1 function yields, in pairwise distinct fresh records. |
| `DeduplicateRun.RunPass2` | skill/job-discovery/scripts/deduplicate.py:556-571 | The two loops of pass 2 keep exactly the records that the pass-2 function keeps, in order. |
| `DeduplicateRun.RunClearShared` | skill/job-discovery/scripts/deduplicate.py:305-331 | Clears, in place, exactly the records whose URL candidates of two different titles share, notes it once, and returns how many it cleared. |
| `DeduplicateRun.Run` | skill/job-discovery/scripts/deduplicate.py:532-573 | The whole imperative run holds what the pure pipeline yields. |
| `DeduplicatePipeline.Pass2KeepsIff` | skill/job-discovery/scripts/deduplicate.py:556-571 | Pass 2 keeps exactly the candidates with a body, without a title, or whose title no full candidate has, whatever the company. |
| `DeduplicatePipeline.TitleOnlySurvivesIff` | skill/job-discovery/scripts/deduplicate.py:532-573 | From a raw list: a title-only candidate's identity is among the outputs exactly when it has no normalised title, or no full candidate that heads a merge group, of whatever company, has the same. |
| `DeduplicatePipeline.OwnCompanyRuleIff` | skill/job-discovery/scripts/deduplicate.py:353-374 | The documented rule that another company's full description drops nothing holds for a title-only candidate of a raw list exactly when, if any head of full candidates has its title, one of its own company does. |
| `DeduplicatePipeline.OtherCompanyDrops` | skill/job-discovery/scripts/deduplicate.py:556-571 | A concrete raw list on which that rule fails. |
| `DeduplicatePipeline.ProcessIdempotentIff` | skill/job-discovery/scripts/deduplicate.py:532-573 | For every list: a second run of the pipeline changes nothing if and only if, in the list whose shared URLs the first run is about to clear, every two candidates of one key are full ones that either do not match by title or carry two different URLs, neither of them shared. |
| `DeduplicatePipeline.ProcessIdempotentIffClearsNoMatch` | skill/job-discovery/scripts/deduplicate.py:573 | Where pass 1 is idempotent that condition is: clearing hits no candidate whose title matches another one of its key. |
| `DeduplicatePipeline.ProcessFixedIff` | skill/job-discovery/scripts/deduplicate.py:532-573 | The pipeline leaves any list exactly as it is if and only if equal keys stand together, no two candidates of one key can merge, none echoes a full candidate and no URL is shared. |
| `DeduplicatePipeline.ProcessIdempotentWithoutClearing` | skill/job-discovery/scripts/deduplicate.py:532-573 | With no whitespace-only URL and no shared URL to clear, a second run changes nothing. |
| `DeduplicatePipeline.SecondRunMerges` | skill/job-discovery/scripts/deduplicate.py:573 | A concrete list on which clearing shared URLs makes the second run merge two openings that the first kept apart. |
| `DeduplicatePipeline.OutputHasNoEcho` | skill/job-discovery/scripts/deduplicate.py:556-573 | The pipeline's output holds no title-only echo of a full candidate in it. |
| `DeduplicatePipeline.ClearSharedIdempotent` | skill/job-discovery/scripts/deduplicate.py:305-331 | After clearing, no URL is shared any more, so clearing again changes nothing. |
| `DeduplicatePipeline.BlankRouteMergesAgain` | skill/job-discovery/scripts/deduplicate.py:387-393 | A whitespace-only URL breaks the idempotence of pass 1: a concrete list. |
| `Grouping.ContiguousIsLaid` | skill/job-discovery/scripts/deduplicate.py:532-554 | A list whose equal keys stand together is its own key groups laid end to end. |
| `Grouping.RegroupedIsPermutation` | skill/job-discovery/scripts/deduplicate.py:532-545 | Grouping by key and concatenating the groups permutes the list. |
| `Scanners.PrintLevel` | skill/job-discovery/scripts/write_candidates.py:176-195 | For every JSON value with any whitespace, nesting and string escapes, the printed text ends the scanner where it began and never takes it below, for both kinds of brackets. |
| `Scanners.PrintEnclosed` | skill/job-discovery/scripts/write_candidates.py:176-195 | Strictly inside a printed array or object the matching depth stays positive, and it returns exactly at its last character. |
| `JsonScan.FindBalancedSpan` | skill/job-discovery/scripts/write_candidates.py:169-195 | The loop over depth, string and escape state returns the span from the first opening bracket to the first return to depth zero. |
| `JsonScan.ReturnIs` | skill/job-discovery/scripts/write_candidates.py:176-195 | The reference meaning of that loop: it stops at the shortest non-empty prefix of depth zero, and finds none exactly when there is none. |
| `JsonScan.SpanOfPrinted` | skill/job-discovery/scripts/write_candidates.py:169-195 | For any prose without the opening bracket, any printed array or object and any suffix, the balanced span is exactly the printed value. |
| `JsonScan.NoSpanOfCut` | skill/job-discovery/scripts/write_candidates.py:169-195 | A printed value cut off anywhere before its end has no balanced span. |
| `JsonScan.FindObjects` | skill/job-discovery/scripts/write_candidates.py:198-225 | The scanning loop refines the scan function. |
| `JsonCuts.ScanOfTruncatedArray` | skill/job-discovery/scripts/write_candidates.py:198-225 | On a printed array of objects cut off at any position after its opening bracket the scan returns exactly the texts of the objects that are complete before the cut, in order, if the text before has no quote or brace. |
| `JsonCuts.ScanOfPrintedArray` | skill/job-discovery/scripts/write_candidates.py:198-225 | On a complete printed array of objects between quiet texts the scan returns every object's text, in order. |
| `JsonCuts.TruncatedArray` | skill/job-discovery/scripts/write_candidates.py:198-225 | Every truncation of a printed array of objects is some listed objects and one cut off, with the same complete objects. |
| `JsonScan.PrintItemsIs` | skill/job-discovery/scripts/write_candidates.py:198-225 | The listed form used above is what the printer prints for an array. |
| `LenientExtract.ExtractsPrintedArray` | skill/job-discovery/scripts/write_candidates.py:137-148 | A printed array in prose without `[` is extracted whole, unless the text parses as it stands. |
| `LenientExtract.ExtractOfTruncatedArray` | skill/job-discovery/scripts/write_candidates.py:137-166 | From an array of objects cut off anywhere after its opening bracket the extraction order recovers nothing if no object is complete, else the first complete object alone. |
| `LenientExtract.RecoversAllIff` | skill/job-discovery/scripts/write_candidates.py:149-166 | The documented recovery of all complete objects holds exactly when at most one is complete. |
| `LenientExtract.LosesSecondObject` | skill/job-discovery/scripts/write_candidates.py:149-153 | A concrete text with two complete objects of which only one comes back although the scan finds both. |
| `LenientBlocks.ScanOfBlocks` | skill/job-discovery/scripts/write_candidates.py:198-225 | On any text of balanced blocks between texts that have curly brackets only inside closed strings the scan returns exactly the blocks, in order, whether they parse or not. |
| `LenientBlocks.ExtractOfBlocks` | skill/job-discovery/scripts/write_candidates.py:137-166 | What is extracted from any such text: the text if it parses, else the first span in square brackets if it parses, else the first block if it parses, else all blocks that parse, in order, or nothing if none does. |
| `LenientBlocks.RecoversAfterMalformed` | skill/job-discovery/scripts/write_candidates.py:156-166 | After a malformed first block, without square brackets, exactly the well-formed blocks come back, in order. |
| `LenientBlocks.RecoversBlocksIff` | skill/job-discovery/scripts/write_candidates.py:149-166 | Without square brackets, and if the text does not parse as a whole, all well-formed blocks come back exactly when the first one is malformed or the only one that parses. |
| `LenientBlocks.SecondComesBack` | skill/job-discovery/scripts/write_candidates.py:156-166 | A malformed object followed by a well-formed one: the second one alone comes back. |
| `LenientBlocks.MalformedIsDropped` | skill/job-discovery/scripts/write_candidates.py:156-166 | A concrete text of that kind. |
| `LenientBlocks.InnerListIsTaken` | skill/job-discovery/scripts/write_candidates.py:142-148 | A list inside an object behind a malformed one is taken for the batch, and the object, which the scan finds and which parses, is lost. |
| `LenientBlocks.ListInObjectIsTaken` | skill/job-discovery/scripts/write_candidates.py:142-153 | The same happens to a single object behind prose: of an object that holds a list only the list comes back. |
| `LenientBlocks.StrayBracketHidesObject` | skill/job-discovery/scripts/write_candidates.py:198-225 | A closing bracket too many takes the scan below depth zero and hides the well-formed object after it: a concrete text from which nothing comes back. |
| `LenientBlocks.ObjectWithListIsLost` | skill/job-discovery/scripts/write_candidates.py:142-148 | A concrete text of that kind. |
| `CandidateBatches.WriteBatch` | skill/job-discovery/scripts/write_candidates.py:339-371 | The accumulate loop over `merged` and `seen` appends exactly the new valid candidates, surrogates replaced. |
| `CandidateBatches.FirstOccurrenceLawIff` | skill/job-discovery/scripts/write_candidates.py:339-371 | Every sequence of batches from no file leaves the first occurrence by identity of all its valid candidates, in order, if and only if replacing lone surrogates keeps the identity of every valid candidate. |
| `CandidateBatches.TakenIsFirstIff` | skill/job-discovery/scripts/write_candidates.py:356-365 | For any one sequence of batches: the originals appended are exactly the first occurrences by identity of the valid candidates, in order, if and only if at every call the guard against the identities stored in the file answers as the identities of the originals offered before would. |
| `CandidateBatches.FileIsTaken` | skill/job-discovery/scripts/write_candidates.py:339-371 | After any batches the file holds exactly the appended originals with their surrogates replaced. |
| `CandidateBatches.SplitLawIff` | skill/job-discovery/scripts/write_candidates.py:339-371 | The result is independent of how candidates are split into batches if and only if the same condition holds. |
| `CandidateBatches.ReplayLawIff` | skill/job-discovery/scripts/write_candidates.py:339-371 | Every earlier batch may be written again without change if and only if the same condition holds. |
| `CandidateBatches.ReplayIff` | skill/job-discovery/scripts/write_candidates.py:356-365 | After any sequence of batches one more batch changes nothing if and only if the file already has the identity of each of its valid candidates. |
| `CandidateBatches.WrittenFixedIff` | skill/job-discovery/scripts/write_candidates.py:356-365 | A batch leaves a given file as it is if and only if the file holds no lone surrogates and has the identity of every valid candidate of the batch. |
| `CandidateBatches.FileIsRepaired` | skill/job-discovery/scripts/write_candidates.py:106-119 | Every stored candidate is an appended one in which each lone surrogate, and nothing else, was replaced by a question mark. |
| `CandidateBatches.TwoAreStoredIff` | skill/job-discovery/scripts/write_candidates.py:100-103 | Two publishable candidates written one after the other are both stored exactly when their company, title or places differ, if the first has no lone surrogate. |
| `CandidateBatches.UnpublishableIsDropped` | skill/job-discovery/scripts/write_candidates.py:339-341 | A candidate that is not publishable is not stored. |
| `CandidateBatches.SurrogateIsStoredTwice` | skill/job-discovery/scripts/write_candidates.py:106-119 | A concrete candidate, with a lone surrogate in its title, that is stored twice when its batch is written twice. |
| `CandidateBatches.SurrogateTitleIsStoredTwice` | skill/job-discovery/scripts/write_candidates.py:100-119 | Under every text rule, a publishable candidate whose normalised title changes when its lone surrogates are replaced is stored twice. |
| `ProfileLaws.RunKeeps` | backend/app/services/profiles.py:170-437 | In every reachable state: versions numbered 1..n, aggregate versions strictly rising and at most the profile version, the active id null or a version of the profile, every import, evidence and decision row with its parent, fresh ids, rising sequences and timestamps. |
| `ProfileLaws.NextKeeps` | backend/app/services/profiles.py:170-437 | Every operation, committed or rolled back, keeps that invariant. |
| `ProfileLaws.DeleteKeeps` | backend/app/repositories/profiles.py:90-123 | Deleting an asset keeps the invariant: no row is left without its parent. |
| `ProfileLaws.ConfirmKeeps` | backend/app/services/profiles.py:329-390 | Confirming a version keeps the invariant. |
| `ProfileLaws.VersionCountsWrites` | backend/app/repositories/profiles.py:257-259 | Over every interleaving the profile version is its start value plus the number of committed mutating writes; activation and import steps do not count. |
| `ProfileLaws.OneWriterPerVersion` | backend/app/services/profiles.py:281-348 | Of all guarded writers that hold the same expected version, at most one ever commits. |
| `ProfileLaws.VersionsOnlyGrow` | backend/app/services/profiles.py:329-390 | No operation changes or removes a confirmed version, not even deleting its asset. |
| `ProfileLaws.ConfirmedOnlyIfDecided` | backend/app/services/profiles.py:329-390 | Confirming succeeds exactly when the import exists, the version is the expected one and every evidence row of the import has a decision; then number, aggregate version and activation are those of the new version. |
| `ProfileLaws.VersionsAreConfirmed` | backend/app/services/profiles.py:329-390 | Every version in a reachable state is the one that some earlier committed confirmation added. |
| `ProfileLaws.ReachableSnapshot` | backend/app/services/profiles.py:329-390 | So every version of a reachable state was confirmed in a state where each evidence row of its import had a decision, and for each path it holds what the newest decision on the highest contributing row says, and no other path. |
| `ProfileRuns.NewestIsLastSaid` | backend/app/services/profiles.py:281-327 | In every reachable state the newest decision on an evidence row is what the last committed input on it asked for, and there is none exactly when there was none. |
| `ProfileRuns.VersionTellsUser` | backend/app/services/profiles.py:329-390 | Every version of a reachable state was confirmed when all rows of its import had been decided; under each path it holds what the user last said of the highest row not ignored, the correction or the extracted value; it refers to exactly those rows with action and path, and keeps the references of that moment. |
| `ProfileRuns.RowsAreExtracted` | backend/app/services/profiles.py:259-272 | Every evidence row of a reachable state carries the path and value of the field that a processing of its import found, under the number of that field. |
| `ProfileRuns.ExtractionIsStored` | backend/app/services/profiles.py:259-277 | A committed extraction leaves a row for each field it found and keeps all earlier rows. |
| `ProfileRuns.HoldsLastReference` | backend/app/services/profiles.py:407-437 | In every reachable state each category has the reference that was set last. |
| `ProfileRuns.LastSelectedIsActive` | backend/app/services/profiles.py:386-405 | In every reachable state the version that was confirmed or selected last is the active one. |
| `ProfileRuns.ImportStatusIs` | backend/app/services/profiles.py:219-277 | In every reachable state an import has the status of its last processing, or is pending. |
| `ProfileRuns.AssetStatusIs` | backend/app/services/profiles.py:95-149 | In every reachable state an asset is ready, or its upload failed, as its last upload ended, or is pending. |
| `ProfileRuns.ImportsStartReady` | backend/app/services/profiles.py:206-217 | Every import of a reachable state was started on an asset that was ready then. |
| `ProfileRuns.Refusals` | backend/app/services/profiles.py:170-437 | For every operation the exact reason of each error, and which reason hides which. |
| `ProfileRuns.RefusedIff` | backend/app/services/profiles.py:170-437 | Every operation is refused exactly for the reasons of the service. |
| `ProfileRuns.ConfirmsAbove` | backend/app/repositories/profiles.py:262-268 | In any state a confirmed version gets the smallest number above all others. |
| `ProfileRuns.CreatesAsset` | backend/app/services/profiles.py:95-124 | Creating an asset adds exactly one pending upload under an unused identifier. |
| `ProfileRuns.StartsImport` | backend/app/services/profiles.py:206-217 | Starting an import adds exactly one pending import of the asset, under an unused identifier. |
| `ProfileRuns.ProcessWithoutAsset` | backend/app/services/profiles.py:231-237 | Processing an import whose asset is gone marks it failed and changes nothing else. |
| `ProfileLaws.SnapshotHolds` | backend/app/services/profiles.py:357-370 | For every field path the snapshot holds, of the highest-sequence contributing row, the corrected value if its newest decision corrects it and the extracted one if it confirms it, and no other path. |
| `ProfileLaws.SnapshotRefs` | backend/app/services/profiles.py:357-370 | The evidence references are exactly the non-ignored rows, each with its newest action and path. |
| `ProfileLaws.LatestIs` | backend/app/repositories/profiles.py:213-233 | The latest-decision query returns none exactly when there is no decision, else one of the newest for that evidence. |
| `ProfileLaws.ImportEvidenceIs` | backend/app/repositories/profiles.py:203-210 | The evidence query returns exactly the rows of the import by ascending sequence. |
| `ProfileLaws.LatestIsLastRow` | backend/app/repositories/profiles.py:213-233 | In every reachable state the latest-decision query returns the decision of that evidence row that was written last. |
| `ProfileLaws.BatchHasLastWord` | backend/app/services/profiles.py:295-327 | Under strictly increasing stamps, after a batch commits the newest decision on each evidence row is the batch's last word on it; rows it does not mention keep theirs. |
| `ProfileLaws.LastWordIsSureIff` | backend/app/repositories/profiles.py:213-233 | With stamps that may tie, the query is sure to return the last word on a row if and only if all its decisions with the last one's stamp say the same. |
| `ProfileLaws.DecideIff` | backend/app/services/profiles.py:295-324 | A batch goes through exactly when none of its inputs is refused. |
| `ProfileLaws.DeleteIsExact` | backend/app/repositories/profiles.py:90-123 | Deletion removes exactly the asset's imports, their evidence and the decisions on it, and touches no version and not the active version. |
| `ProfileStore.Store.ApplyDecisions` | backend/app/services/profiles.py:281-327 | The loop over decisions, with rollback of the appended rows on the first refusal, ends in the state of the specification. |
| `ProfileStore.Store.ConfirmVersion` | backend/app/services/profiles.py:329-390 | The loop that fills facts and references ends in the state of the specification. |
| `ProfileStore.Store.DeleteAsset` | backend/app/services/profiles.py:170-187 | The cascading delete ends in the state of the specification. |
| `ProfileStore.Store.Activate` | backend/app/services/profiles.py:392-405 | Selecting a version changes only which version is active. |
| `ProfileStore.Store.UpdateReference` | backend/app/services/profiles.py:407-437 | Updating a reference is guarded by the version and bumps it. |
| `ProfileStore.Store.StartImport` | backend/app/services/profiles.py:206-217 | An import starts only on a ready asset. |
| `ProfileStore.Store.ProcessImport` | backend/app/services/profiles.py:219-277 | Processing sets the status of each outcome and appends the extracted rows, numbered from 1. |
| `StateFile.Files.Save` | skill/job-discovery/scripts/state.py:81-104 | Every disk state a save passes through, one per write, from the old disk to the replaced file. |
| `StateFile.Files.LoadState` | skill/job-discovery/scripts/state.py:71-78 | A load returns the live document if it is readable, else the backup, else the default. |
| `StateFile.SaveByWrites` | skill/job-discovery/scripts/state.py:81-104 | A save goes by single writes: a file is partial before it is whole, the live file changes only by the move of the whole new document, no temporary file is left, and the backup is the old live file if that was usable. |
| `StateFile.CrashSafe` | skill/job-discovery/scripts/state.py:71-104 | After a crash at any point of a save the next load returns the state loaded before, or from the replacement on the full new document. |
| `StateFile.LoadsLastReplaced` | skill/job-discovery/scripts/state.py:57-104 | Over any sequence of saves with crashes anywhere a load returns exactly the document of the last save that reached its replacement. |
| `StateFile.NeverDefaultAgain` | skill/job-discovery/scripts/state.py:57-104 | Once one save has completed, the default is never loaded again, whatever crashes follow. |
| `StateFile.BackupIsPreviousState` | skill/job-discovery/scripts/state.py:83-86 | Should the live file become unusable after a completed save, a load returns what it would have returned before that save, whatever crashes came earlier. |
| `StateFile.AlwaysRecoverable` | skill/job-discovery/scripts/state.py:57-104 | A disk with a readable copy keeps one through every sequence of saves and crashes. |
| `StateLedger.State.MarkProcessed` | skill/job-discovery/scripts/state.py:164-192 | Marking replaces or appends exactly the entry of its key and stamps the sheet. |
| `StateLedger.Diff` | skill/job-discovery/scripts/state.py:218-260 | The diff loop sends a task to skip exactly when its URL's newest entry carries its update time, each task once, in order. |
| `StateLedger.Check` | skill/job-discovery/scripts/state.py:119-144 | The check loop decides by the first entry of the URL. |
| `StateLedger.UrlTable` | skill/job-discovery/scripts/state.py:218-226 | The URL table maps each non-empty URL to its newest entry. |
| `LedgerCommands.KeyTells` | skill/job-discovery/scripts/state.py:173-176 | Two marks have one key exactly when their URLs and the first sixteen characters of their content hashes agree, if the shortened URL hash tells their URLs apart. |
| `LedgerCommands.LedgerSums` | skill/job-discovery/scripts/state.py:164-192 | After any marks every mark has the entry that sums up the marks of its URL and hash start: the last one, the record ids of all and the last count; every entry is of that kind, and no two are of one URL and hash start. |
| `LedgerCommands.ShareEntryIff` | skill/job-discovery/scripts/state.py:173-176 | Two marks share an entry exactly when URL and hash start agree. |
| `LedgerCommands.TwoMarksIff` | skill/job-discovery/scripts/state.py:173-176 | Whatever the hash, two marks in a row leave one entry exactly when their content hashes start alike and their URLs have one shortened hash. |
| `LedgerCommands.DiffSkipsLastMark` | skill/job-discovery/scripts/state.py:213-260 | After any marks with rising times the diff skips a URL and update time exactly when the last mark of that URL carried that time. |
| `LedgerCommands.CheckSkipsLastAlike` | skill/job-discovery/scripts/state.py:117-144 | The check skips exactly when the last mark with the URL and hash start of the first mark of the URL carried that time. |
| `LedgerCommands.CheckAgreesIff` | skill/job-discovery/scripts/state.py:117-260 | The diff always skips the update time of the last mark; the check does exactly when the last mark alike to the first one carried it too. |
| `StateLedgerLaws.NewestAt` | skill/job-discovery/scripts/state.py:218-226 | Of several entries of a URL the table takes the newest, and the first in order among equally new ones. |
| `StateLedgerLaws.CommandsAgreeIff` | skill/job-discovery/scripts/state.py:117-260 | Check and diff agree on every update time exactly when the URL's first and newest entry carry the same one; with one entry they always agree. |
| `StateLedgerLaws.CheckMissesLastMark` | skill/job-discovery/scripts/state.py:123-140 | Two concrete marks after which check extracts what diff skips. |
| `CliQuoting.SplitCliArgs` | skill/job_discovery/runtime/subprocess_runner.py:38-64 | The Windows splitting loop refines the split function. |
| `CliQuoting.QuotesParity` | skill/job_discovery/runtime/subprocess_runner.py:51-61 | The splitter refuses exactly the strings with an odd number of quotes. |
| `CliQuoting.SplitAtBlank` | skill/job_discovery/runtime/subprocess_runner.py:51-64 | A space or tab outside quotes separates: what stands before and after it is split on its own. |
| `CliQuoting.SplitOfWord` | skill/job_discovery/runtime/subprocess_runner.py:51-64 | A text whose spaces and tabs all stand inside quotes is one token, without its quotes, or none if nothing is left. |
| `CliQuoting.QuotedIff` | skill/job_discovery/runtime/subprocess_runner.py:33-35 | A token is put in quotes exactly when it has a space or a tab. |
| `CliQuoting.EscapesEachQuote` | skill/job_discovery/runtime/subprocess_runner.py:34 | In a quoted token every quote gets a backslash and nothing else changes. |
| `CliQuoting.PrintsJoined` | skill/job_discovery/runtime/subprocess_runner.py:23-35 | Printed tokens are joined by single spaces. |
| `CliQuoting.PrintThenSplitIff` | skill/job_discovery/runtime/subprocess_runner.py:23-64 | Quoting each token, joining with blanks and splitting gives the list back exactly when every token is non-empty and free of quotes. |
| `CliQuoting.SplitThenPrint` | skill/job_discovery/runtime/subprocess_runner.py:23-64 | For every string the splitter accepts its tokens are non-empty and quote-free and survive printing and splitting again. |
| `CliQuoting.QuoteIsLost` | skill/job_discovery/runtime/subprocess_runner.py:33-35 | A token with a quote and a blank comes back damaged, against the docstring. |
| `RateLimit.RedisFixedWindowRateLimiter.Check` | backend/app/services/rate_limit.py:25-45 | Increment, expiry only on a fresh key and comparison with the limit, on one key of the store, with every fault outcome. |
| `RateLimit.SlidingBound` | backend/app/services/rate_limit.py:25-45 | Any time interval of one window length holds at most twice the limit of accepted calls, over every call pattern and fault. |
| `RateLimit.SlidingBoundReached` | backend/app/services/rate_limit.py:25-45 | That bound is reached for every window length: with limit 1, by a call that opens a window and one at the instant it ends. |
| `RateLimit.WindowBound` | backend/app/services/rate_limit.py:33-45 | The accepted calls of the current window never exceed the counter nor the limit. |
| `RateLimit.WindowIsFixed` | backend/app/services/rate_limit.py:34-36 | After the call that opens a window, the counter counts the applied calls and no call, accepted or rejected, moves the window's end. |
| `RateLimit.AtMostLimitPerWindow` | backend/app/services/rate_limit.py:33-45 | Between a window's first call and its end at most the limit is accepted. |
| `RateLimit.AdmissionRule` | backend/app/services/rate_limit.py:33-45 | In a window a call is unavailable exactly when the store failed, and accepted exactly when it did not and the applied calls, itself included, do not exceed its limit. |
| `RateLimit.OpeningRule` | backend/app/services/rate_limit.py:33-45 | A call that finds no window opens one of the full length and counts as its first. |
| `RateLimit.NoWindowNoMemory` | backend/app/services/rate_limit.py:34-36 | With a window that is not positive nothing is remembered from call to call. |
| `RecoveryLaws.RecoveryIsBounded` | skill/job_discovery/runtime/recovery.py:223-564 | For every behaviour of budget, tools and persistence: at most 7 calls, at most 3 searches, each call directly after its own granted budget request and the reverse, 1 to 10 URLs a fetch, and an access block in any fetch but the direct one is the last call. |
| `RecoveryLaws.ReturnsItsAnswers` | skill/job_discovery/runtime/recovery.py:223-564 | The returned observations are the answers of all calls in order, except that the priority answer is left out unless it ended the recovery. |
| `RecoveryRules.RecoveryFollowsRules` | skill/job_discovery/runtime/recovery.py:223-564 | Over every behaviour of budget, tools and persistence: each call is one that may follow the trace before it by rules on what the trace shows (which stage comes when, which answers end the recovery, and exactly which URLs or query it carries), and if no budget request was denied the recovery ends only where no call may follow. |
| `RecoveryRules.HintsAre` | skill/job_discovery/runtime/recovery.py:279-302 | The hints in use are the first five different non-blank ones, given ones before derived ones. |
| `RecoveryRules.VariantsAre` | skill/job_discovery/runtime/recovery.py:164-180 | The query variants are, each once and in this order, the hints, those derived from the goal, the goal and its two extensions. |
| `RecoveryRules.QueriesAre` | skill/job_discovery/runtime/recovery.py:181-186 | The planned queries are the first unused variants cut to 380 characters, at most three with the earlier ones. |
| `RecoveryReferences.ReturnsWhatItPersisted` | skill/job_discovery/runtime/recovery.py:119-142 | Over every run the returned references are, in trace order, what persistence made of every search and of every fetch that succeeded, and nothing of a failed fetch; those of the priority fetch are left out unless it ended the recovery. |
| `RecoveryReferences.ReportsAllEvidenceIff` | skill/job_discovery/runtime/recovery.py:265-277 | All persisted evidence is returned exactly when the priority fetch ended the recovery or persisted nothing. |
| `RecoveryLaws.ReportsAllIff` | skill/job_discovery/runtime/recovery.py:223-564 | The result holds the answer of every call exactly when the priority fetch ended the recovery or gave no answer. |
| `RecoveryRetries.PriorityAnswerIsDropped` | skill/job_discovery/runtime/recovery.py:265-277 | Concrete runs that report nothing although the priority fetch failed, or answered without a block and without items. |
| `RecoveryRetries.RetriedIff` | skill/job_discovery/runtime/recovery.py:489-564 | Over every run, a URL behind an access block is fetched again if and only if the block was met in the direct fetch, no page was complete, and the URL is among the first ten trusted seeds that no reference names, with budget for them, or among the first ten of a later search with budget for their fetch. |
| `RecoveryRetries.BlockedSeedIsRetried` | skill/job_discovery/runtime/recovery.py:489-547 | Concrete runs that do it: any supplied URL that is a trusted seed as well. |
| `RecoveryRetries.SeedFetches` | skill/job_discovery/runtime/recovery.py:187-221 | The seed and search phases fetch exactly the unreferenced seeds and the URLs that a successful search offers. |
| `RecoveryLaws.SearchesArePlanned` | skill/job_discovery/runtime/recovery.py:154-221 | The searches of a recovery are the first of the queries planned from its goal and hints, in order. |
| `RecoveryLaws.NeverRepeatsAQuery` | skill/job_discovery/runtime/recovery.py:154-186 | No search repeats a query whose hash was attempted before the recovery. |
| `RecoveryLaws.SearchesDifferIff` | skill/job_discovery/runtime/recovery.py:170-193 | In every run the searches are pairwise different if and only if no two of the unused variants they come from reach 380 characters and agree on the first 380. |
| `RecoveryRetries.LongGoalIsSearchedThrice` | skill/job_discovery/runtime/recovery.py:170-193 | Concrete runs that do not: any goal of 380 characters or more, searched for three times with one query. |
| `RecoveryLaws.SearchWaitsForSupplied` | skill/job_discovery/runtime/recovery.py:313-392 | On the list-page route public search is used only when no supplied candidate URL is unprocessed. |
| `RecoveryLaws.GrantsAreCalls` | skill/job_discovery/runtime/recovery.py:126-128 | In every disciplined trace the granted requests and the calls are equally many. |
| `RecoveryRun.RecoveryContext.RecoverDiscoveryEvidence` | skill/job_discovery/runtime/recovery.py:223-564 | The branching method with its recorded trace leaves exactly the trace, observations and references of the specification. |
| `RecoveryRun.RecoveryContext.AutoFetchPublicUrls` | skill/job_discovery/runtime/recovery.py:119-142 | One budgeted fetch of at most ten URLs. |
| `RecoveryRun.RecoveryContext.SearchQueries` | skill/job_discovery/runtime/recovery.py:187-221 | The query loop, with its early exits, follows the specification. |
| `EventLog.EventTable.AppendEvent` | backend/app/repositories/agent_runtime.py:337-361 | Appends one row with the run's maximum sequence plus one. |
| `EventLog.AppendsAbove` | backend/app/repositories/agent_runtime.py:350-356 | In any table an appended event has the smallest positive sequence above all others of its run. |
| `EventLog.LogIsNumbered` | backend/app/repositories/agent_runtime.py:337-361 | In every interleaving of appends and polls over many runs, a run's events carry 1..n and its payloads, in append order. |
| `EventLog.PollReturnsRest` | backend/app/repositories/agent_runtime.py:364-384 | A poll from a cursor returns exactly the rest of the run's log. |
| `EventLog.ReadersSeePrefixes` | backend/app/repositories/agent_runtime.py:337-384 | What a reader has been given is always a prefix of its run's log, without gap or repetition, and the whole log right after a poll. |
| `EvidenceWalk.WalkJsonMappings` | skill/job-discovery/scripts/browse.py:191-202 | The worklist loop terminates on every JSON tree and computes the visit order. |
| `EvidenceWalk.VisitsMappings` | skill/job-discovery/scripts/browse.py:191-202 | What is visited is exactly the mappings that are one of the values or a part of one. |
| `EvidenceWalk.VisitPermutes` | skill/job-discovery/scripts/browse.py:191-202 | The worklist visits the same multiset of mappings as structural recursion. |
| `EvidenceCollector.PublicJobEvidenceCollector.FeedPayload` | skill/job-discovery/scripts/browse.py:163-180 | Feeding a payload adds exactly the totals and records of its mappings up to the first one with an overflowing total, which ends the payload. |
| `EvidenceCollector.GetIs` | skill/job-discovery/scripts/browse.py:166 | The value under a key of a mapping is that of its last field of that name, and there is none exactly when no field has it. |
| `EvidenceCollector.ReadIs` | skill/job-discovery/scripts/browse.py:163-172 | Of a mapping exactly the totals under the four keys are read, in their order, up to the first that overflows; one that overflows stops the payload. |
| `EvidenceCollector.ExpectedCountIs` | skill/job-discovery/scripts/browse.py:163-172 | After any payloads the expected count is the largest total from 1 to 10000 in a mapping that is reached or stops its payload, and none exactly when there is none. |
| `EvidenceCollector.CollectedRecords` | skill/job-discovery/scripts/browse.py:136-180 | After any payloads the collected records have distinct identities, which are exactly those of the job-shaped mappings that some payload has before the first mapping that stops it. |
| `EvidenceCollector.CoversIff` | skill/job-discovery/scripts/browse.py:163-180 | All job-shaped mappings are represented if and only if every identity that occurs at or behind a stopping mapping is also reached in some payload; nothing else is ever collected. |
| `EvidenceCollector.CoversWhenNothingStops` | skill/job-discovery/scripts/browse.py:163-180 | Where no total overflows, every job-shaped mapping is represented. |
| `EvidenceCollector.InfiniteTotalHidesJobs` | skill/job-discovery/scripts/browse.py:167-170 | A concrete payload with an infinite total whose job is not collected. |
| `EvidenceCollector.YieldIs` | skill/job-discovery/scripts/browse.py:163-180 | A payload yields exactly the record identities of its mappings before the first stopping one. |
| `EvidenceCollector.OrderDoesNotMatter` | skill/job-discovery/scripts/browse.py:136-180 | Feeding the payloads in another order collects the same identities and the same expected count. |
| `EvidenceCollector.LargestIs` | skill/job-discovery/scripts/browse.py:163-172 | The expected count is the largest in-range number read, or none. |
| `OcrSlices.Slices` | skill/job-discovery/scripts/ocr_image.py:266-278 | The slicing loop yields one slice per index, with the bounds of the program. |
| `OcrSlices.SliceFits` | skill/job-discovery/scripts/ocr_image.py:275-278 | Every slice is a non-empty piece of the image, at most two overlaps taller than the threshold. |
| `OcrSlices.BandsAreSeen` | skill/job-discovery/scripts/ocr_image.py:266-278 | Every horizontal band of at most twice the overlap plus one rows lies wholly inside some slice; in particular the slices cover the image. |
| `OcrSlices.ProgramBands` | skill/job-discovery/scripts/ocr_image.py:266-278 | With the threshold and overlap of the program: every band of 201 rows of an image of more than 2100 rows is seen whole, and some band of 202 rows is not. |
| `OcrSlices.BandsSeenIff` | skill/job-discovery/scripts/ocr_image.py:266-278 | That bound is exact: every band of a height is seen whole exactly when the height is at most twice the overlap plus one. |

## Left out

- The garbage filter before pass 1, the packaging keys of pass 3 and the coverage checks of pass 4: policy on single candidates or sums.
- The content of normalisation, keyword, seed and garbage rules (NFKC, lower-casing, regular expressions): arbitrary functions in the model.
- SHA-256: body hashes, URL hashes and query hashes are stood for by their inputs or by an arbitrary function. The shortened URL hash of the ledger is assumed to tell the marked URLs apart.
- The deep copy of candidates is taken when a cluster is merged, not before clustering; clustering does not change candidates, so this cannot be seen.
- The code-fence step of the lenient extraction, and the values that JSON texts denote: the model works on texts, and a span parses exactly when it is a JSON text.
- ProfileLaws.BatchHasLastWord: assumes strictly increasing timestamps, as every run of the model has; LastWordIsSureIff says what holds when they tie.
- Unreadable or non-list accumulation files, and the write of the file itself.
- Several users: a profile is one user's, and a row of another user counts as absent.
- Reading the evidence rows of an import before the profile row is locked: an operation is one atomic step in the model.
- Statuses between the steps of one transaction, such as parsing, reconciliation of uploads, the object store and its purge.
- The stored time of a local reference and the error codes of failed imports.
- State documents without a `processed` table, the `init` and `list` commands, and the output texts.
- Changing the window length of a running limiter. Other keys of the store are untouched by a check, and client address resolution is not part of this model.
- The POSIX branch of quoting, which delegates to the standard library.
- The automatic detail extraction helper of the recovery, the texts of its events and summaries, and the content of the discovery policy.
- Bounding of event payloads, and the row id that breaks ties between equal sequences, which do not occur.
- Job-shape heuristics and the conversion of a total to an integer in the collector: arbitrary functions in the model, of which the conversion yields a number, a refusal or an overflow. A mapping that repeats a key is taken to have it once.
- Text recognition, image decoding, browsers, subprocesses, HTTP, SQL, Redis transport and the web interface.
