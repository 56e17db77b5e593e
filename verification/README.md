# Oxibrain engine model

A Dafny model of the pure engine of oxibrain, a personal knowledge store, with proofs of what its
operations keep. Nothing here does I/O: the modules state what the engine decides.

| file | what it models |
|---|---|
| Intervals, Fold, FoldLoops, FoldMeaning, FoldOrder, FoldStatus, FoldSupport | the bitemporal fold: closed i64 intervals, denial, contradiction, supersession, support |
| VisibleMemory, Growth, PastReads, ReturnedClaims | reads at a valid time and a known time over an append-only ledger |
| Closure, Publication, PublicationRuns, PublicationEffects | publication lineage: plans, the store that applies them, every run of events, redaction |
| EvidenceRender, EvidencePack, EvidenceReader, EvidenceOrder | the evidence packer with its token cache, its order and reasons, and the reader that resolves its citations |
| Utf8, Chunking, WindowMeaning, Calendar | UTF-8 windows and paragraph plans, and the two civil-date conversions |
| Adjacency, GraphEdges, Community, CommunityVotes | bounded breadth-first search and label propagation |
| RankModel, Mmr, Ranking, RankMeaning | retrieval ranking: filters, fusion by key, diversity reranking, conservation |
| Documents, DocumentMeaning | complete sections for a document hit |
| Extraction, ClaimMeaning | validation of extracted claims against the episode |
| Selection, EvalRecall | bounded pools, byte budgets, and recall over gold spans |
| Orders | string order, the stable sort, strictly sorted sequences, shared by the rest |

Loops are methods, each proved to compute a function of its inputs (or, for `Store` and
`AdjacencyGraph`, of the old state); the lemmas then say what those functions mean. Strings that are
only compared are `string`; text that is sliced is a sequence of bytes. `dafny verify dfyconfig.toml`
checks everything.

Where the code does less than its comments say, the model follows the code:

- `crates/oxibrain-core/src/fold.rs:325-341`: the same-statement arm keeps the old start, so a rival
  that starts together with a statement's second interval supersedes it instead of contradicting it
  (`FoldStatus.EqualStartMissed`); `FoldStatus.EqualStartsContradicted` gives the exact condition.
- `crates/oxibrain-core/src/chunking.rs:236-244`: timestamps before the epoch print as the epoch;
  `Calendar.DatesAgree` states for which timestamps the two dates agree.
- `crates/oxibrain-core/src/rank.rs:530-541`: items are sorted again after reranking, so a reranker
  that only reorders has no effect on the ranking (`Ranking.ReorderingUndone`). The entity-type
  filter compares with the predicate.
- `crates/oxibrain-core/src/rank.rs:680-697`: reciprocal-rank fusion receives no ranks, so it depends
  only on how many hits a candidate has (`RankMeaning.HitsDecide`).
- `crates/oxibrain-core/src/rank.rs:455-473`: a later hit never replaces the facts of an earlier one,
  because equal keys mean equal targets and hence equal facts (`Ranking.AddCandidate`).
- `crates/oxibrain-core/src/extraction.rs:302-318`: an enumeration value is checked before its case is
  repaired, so validation is not idempotent there (`Extraction.RevalidatesExactly`).
- `crates/oxibrain-core/src/evidence_pack.rs:221-234`: a Profile or Documents unit with the recency
  role is considered twice (`EvidenceReader.OrderConserves`).
- `crates/oxibrain-core/src/documents.rs:295-304`: a lone matching section may cover only part of the
  hit (`Documents.LoneMatchPartial`); `Documents.SingleAnswer` says exactly when the answer holds it.

Preconditions are what the callers of the engine guarantee: distinct statement ids in a group and
`claimed_from <= claimed_to` for the fold, one predicate to a group when a past read is compared with
a later one, UTF-8 strings wherever Rust has `str`, facts filed under their own target for ranking.

## Model

| member | source | states |
|---|---|---|
| Intervals.OverlapsIsSharedPoint | crates/oxibrain-core/src/interval.rs:25-27 | two closed intervals overlap exactly when they share an instant |
| Intervals.MergeOverlapping | crates/oxibrain-core/src/interval.rs:31-50 | the loop leaves the merged sequence; sentinels and ends stay in i64 |
| Intervals.MergeMeaning | crates/oxibrain-core/src/interval.rs:31-50 | merging keeps the covered instants and every link inside one interval, and leaves sorted, disjoint, non-empty intervals |
| Intervals.ClipDenial | crates/oxibrain-core/src/interval.rs:55-79 | the clipping loop, with no i64 step that overflows, leaves the remainders merged |
| Intervals.ClipMeaning | crates/oxibrain-core/src/interval.rs:55-79 | clipping removes exactly the denied instants and stays canonical |
| Intervals.CanonicalUnique | crates/oxibrain-core/src/interval.rs:31-50 | a canonical sequence is determined by its instants and links, so merging is the only answer |
| FoldLoops.FilterVisible | crates/oxibrain-core/src/fold.rs:44-80 | the filtering loop yields each statement's visible assertions and affirmed timeline |
| FoldLoops.ClipDenials | crates/oxibrain-core/src/fold.rs:68-74 | all visible denials are clipped in turn |
| FoldLoops.ComputeSupport | crates/oxibrain-core/src/fold.rs:389-436 | the counting loop computes the support function |
| FoldLoops.FoldIndependent | crates/oxibrain-core/src/fold.rs:195-216 | one Active belief per affirmed interval, in order |
| FoldLoops.MarkContradicted | crates/oxibrain-core/src/fold.rs:225-250 | the pairwise loops mark exactly the statements whose timelines collide with another one |
| FoldLoops.FoldContradiction | crates/oxibrain-core/src/fold.rs:219-273 | early returns and marks give the status of every row |
| FoldLoops.SweepClaim | crates/oxibrain-core/src/fold.rs:309-382 | one turn of the sweep with its in-place change of the last belief, including the same-statement arm that keeps the old start |
| FoldLoops.Sweep | crates/oxibrain-core/src/fold.rs:295-386 | the sweep over sorted claims equals resolving each row from its neighbours and run |
| FoldLoops.FoldSupersede | crates/oxibrain-core/src/fold.rs:276-386 | collect, sort and sweep |
| FoldLoops.Fold | crates/oxibrain-core/src/fold.rs:36-119 | the whole fold, rule dispatch and final sort |
| FoldMeaning.AffirmedMeaning | crates/oxibrain-core/src/fold.rs:44-80 | a timeline covers exactly the instants affirmed, and not denied, by an assertion recorded by then and not retracted by then |
| FoldMeaning.CoverageMeaning | crates/oxibrain-core/src/fold.rs:195-216 | without supersession a statement's beliefs cover an instant exactly when it is affirmed and not denied |
| FoldMeaning.SupersedePointwise | crates/oxibrain-core/src/fold.rs:276-386 | in the sweep's result an uncontradicted belief holds exactly while its own interval lasts and no later interval has started |
| FoldMeaning.SupersedeMeaning | crates/oxibrain-core/src/fold.rs:276-386 | the same for the fold's output: an uncontradicted belief comes from one affirmed interval and holds at t exactly when that interval covers t and no later interval in (start, id) order starts at or before t |
| FoldMeaning.SupersedeKeepsClaims | crates/oxibrain-core/src/fold.rs:276-386 | every affirmed interval has its belief with statement and start unchanged: supersession shortens and marks, never drops |
| FoldMeaning.SupersedeExclusive | crates/oxibrain-core/src/fold.rs:276-386 | no two uncontradicted rows hold at one instant |
| FoldMeaning.AtMostOneInForce | crates/oxibrain-core/src/fold.rs:276-386 | under Functional/Supersede at most one uncontradicted belief holds at any instant |
| FoldStatus.SweptBelief | crates/oxibrain-core/src/fold.rs:305-386 | each belief of a Functional/Supersede fold is one affirmed claim with its status and end read off the neighbouring claims of the group |
| FoldStatus.SweptClaim | crates/oxibrain-core/src/fold.rs:305-386 | and every affirmed claim leaves such a belief |
| FoldStatus.EqualStartsContradicted | crates/oxibrain-core/src/fold.rs:342-360 | where claims of a group start together, the beliefs that start there are all Contradicted exactly when none of those claims continues the statement of the claim before it |
| FoldStatus.EqualStartMissed | crates/oxibrain-core/src/fold.rs:325-341 | a group the rule misses: A affirmed on [1,2] and [5,10], B on [5,8] folds to A's second belief Superseded as [5,4] and B Active |
| FoldMeaning.ContradictedIff | crates/oxibrain-core/src/fold.rs:219-273 | under Functional/Static a belief is Contradicted exactly when its statement shares an instant with another one |
| FoldMeaning.ActiveDisjoint | crates/oxibrain-core/src/fold.rs:219-273 | Active beliefs of different statements never overlap |
| FoldMeaning.SupportConserves | crates/oxibrain-core/src/fold.rs:389-436 | polarity counts partition the assertions; trust weights partition the distinct episodes |
| FoldSupport.SupportCounts | crates/oxibrain-core/src/fold.rs:389-436 | affirm and deny counts are the numbers of places with that polarity; each tier counts the episodes whose first visible assertion has it |
| FoldSupport.BeliefSupport | crates/oxibrain-core/src/fold.rs:195-216 | every belief of the fold carries the support and the confidence of its own statement's visible assertions |
| PastReads.FoldOnRecord | crates/oxibrain-core/src/fold.rs:44-55 | folding at a time equals folding with every assertion recorded later, or retracted by then, taken off its list |
| FoldOrder.FoldOrderFree | crates/oxibrain-core/src/fold.rs:36-119 | the (statement, from, to, status) list does not depend on the order of statements or assertions |
| FoldOrder.FoldSorted | crates/oxibrain-core/src/fold.rs:115-118 | the output is strictly increasing in (statement, valid_from) |
| VisibleMemory.VisibleClaims | crates/oxibrain-core/src/visible_memory.rs:19-76 | the loop over groups returns the specified claims |
| VisibleMemory.ClaimsGrounded | crates/oxibrain-core/src/visible_memory.rs:44-70 | every returned claim reports an entry: its belief holds at the asked time and meets the floor, and its sources and assertion ids are exactly those of the live assertions visible at the known time, at least one |
| VisibleMemory.ClaimsComplete | crates/oxibrain-core/src/visible_memory.rs:40-71 | each group belief that holds at the asked time and meets the floor is returned |
| VisibleMemory.BeliefEntry | crates/oxibrain-core/src/visible_memory.rs:44-48 | every belief of the fold is about an input statement with a visible assertion, so the lookup never fails |
| VisibleMemory.AtMostOneClaim | crates/oxibrain-core/src/visible_memory.rs:19-76 | a Functional/Supersede group yields at most one uncontradicted claim per valid time |
| VisibleMemory.FoldStable | crates/oxibrain-core/src/fold.rs:44-55 | folding at a past time gives the same beliefs, support and confidence after later events |
| VisibleMemory.RunEvolves | crates/oxibrain-core/src/fold.rs:44-55 | every run of assertions, statements, groups and retractions stamped later, each listed anywhere, only evolves the ledger |
| VisibleMemory.ClaimsStable | crates/oxibrain-core/src/visible_memory.rs:19-76 | after any such run, wherever new rows are listed, a read at the past known time returns the same claims |
| PastReads.RetractionErases | crates/oxibrain-core/src/visible_memory.rs:38-58 | from the stamp of a retraction on, every read is the read of the ledger without that row |
| ReturnedClaims.ClaimsExactly | crates/oxibrain-core/src/visible_memory.rs:29-73 | the claims returned report the beliefs that hold at the asked time and meet the floor, as often as they occur, and nothing else |
| ReturnedClaims.ClaimsOrdered | crates/oxibrain-core/src/visible_memory.rs:74-74 | claims come in statement-id order, those of one statement in fold order |
| ReturnedClaims.ClaimSays | crates/oxibrain-core/src/visible_memory.rs:59-71 | every claim carries its definition's profile flag, a belief of its group, and the ids of the live assertions on record in stored order |
| Closure.CheckLineage | crates/oxibrain-core/src/publication.rs:408-417 | the walk up one parent chain succeeds exactly when the chain ends within 64 nodes |
| Closure.CycleNeverEnds | crates/oxibrain-core/src/publication.rs:408-417 | a chain that returns to its start never ends, so every cycle is refused |
| Closure.ClosureLeast | crates/oxibrain-core/src/publication.rs:418-438 | the fixpoint contains the initial ids, is closed under children, and is the least such set |
| Closure.ClosureIsDescendants | crates/oxibrain-core/src/publication.rs:394-439 | the result is exactly the ids whose parent chain reaches an initial id |
| Closure.ClosureOrderFree | crates/oxibrain-core/src/publication.rs:394-439 | the row order does not matter |
| Closure.DescendantClosure | crates/oxibrain-core/src/publication.rs:394-439 | the terminating loop returns that set sorted, or the size or lineage error |
| Closure.ClosureExactly | crates/oxibrain-core/src/publication.rs:394-439 | more than 4096 rows is a budget error, else a parent chain of more than 64 ids is corruption, else more than 4096 ids reaching the selection is a budget error, else exactly those ids in order |
| Publication.PlanEvent | crates/oxibrain-core/src/publication.rs:459-571 | planning with the closure loop equals the specified plan, error cases included |
| Publication.Store.ProjectEvent | crates/oxibrain-store/src/publication.rs:76-105 | one projected event either applies its plan or leaves the tables unchanged |
| Publication.Store.Apply | crates/oxibrain-store/src/publication.rs:83-105 | insert, close and record the observation |
| Publication.Store.CloseListed | crates/oxibrain-store/src/publication.rs:86-92 | every listed row is closed and loses its bytes |
| Publication.CollectRedactionDeclarations | crates/oxibrain-core/src/publication.rs:575-604 | the loop and closure give the declarations to delete, sorted without repetition |
| PublicationRuns.EmptyValid | crates/oxibrain-core/src/publication.rs:459-571 | the empty tables satisfy the invariant |
| PublicationRuns.StepKeeps | crates/oxibrain-core/src/publication.rs:459-571 | every event keeps the invariant: keyed ids, lineage at most 64 deep, families, no Current row below a non-Current one, no Current copy of a retired revision |
| PublicationRuns.RunKeeps | crates/oxibrain-core/src/publication.rs:459-571 | so does every run, and rows only ever close |
| PublicationRuns.AncestorsAgree | crates/oxibrain-core/src/publication.rs:351-390 | every ancestor exists, has the row's family, and is Current if the row is |
| PublicationRuns.FamilyOfRoot | crates/oxibrain-core/src/publication.rs:351-390 | a row's family is that of the source at the end of its chain, within 64 nodes |
| PublicationRuns.ClosureSucceeds | crates/oxibrain-core/src/publication.rs:394-439 | in every reachable state closing any existing rows succeeds |
| PublicationRuns.ClosedForever | crates/oxibrain-core/src/publication.rs:459-571 | a row that is not Current never becomes Current again |
| PublicationRuns.StaleForever | crates/oxibrain-core/src/publication.rs:447-453 | once an observation that a source left a revision is the one recorded under its declaration, no later state has a Current copy of that revision |
| PublicationRuns.StaleInLedger | crates/oxibrain-store/src/publication.rs:76-105 | in every run over a ledger, redactions included: after such an observation is projected no later state has a Current copy |
| PublicationRuns.WithdrawCloses | crates/oxibrain-core/src/publication.rs:526-541 | an accepted withdrawal closes exactly the view and its descendants |
| PublicationRuns.NeverCollides | crates/oxibrain-store/src/publication.rs:69-75 | a planned record never violates the uniqueness of (destination, principal, occurrence) |
| PublicationEffects.ObservationCloses | crates/oxibrain-core/src/publication.rs:543-571 | an accepted observation closes a row exactly when it or an ancestor copies the revision the source has left, leaves every other row alone, and is recorded once |
| PublicationEffects.PublishDecides | crates/oxibrain-core/src/publication.rs:475-525 | a publication of another space, of a left revision or below a row that is not Current is unauthorized; a repeated occurrence changes nothing or conflicts; one that fits adds its row with the request's bytes, digest and revision and changes nothing else; any other exceeds a bound |
| PublicationEffects.ObservationRefused | crates/oxibrain-core/src/publication.rs:543-553 | within the fetch bounds an observation is refused exactly when its identity is not of the declaring space |
| PublicationEffects.WithdrawRefused | crates/oxibrain-core/src/publication.rs:526-541 | within the fetch bounds a withdrawal is refused exactly when it names no view of its own space |
| PublicationRuns.StepFromLedger | crates/oxibrain-store/src/publication.rs:76-105 | each row keeps pointing at the Publish declaration it came from |
| PublicationRuns.LedgerRunKeeps | crates/oxibrain-store/src/publication.rs:76-105 | every run over a ledger, redactions included, keeps the invariant and ties each row and each observation to its own ledger entry |
| PublicationRuns.RedactionSucceeds | crates/oxibrain-core/src/publication.rs:575-604 | in a valid state collecting the declarations to remove never fails |
| PublicationRuns.RedactionExact | crates/oxibrain-core/src/publication.rs:575-604 | a row survives redaction exactly when neither it nor an ancestor copies redacted material |
| PublicationRuns.RedactionKeepsValid | crates/oxibrain-store/src/publication.rs:153-164 | deleting the copies keeps the invariant |
| Calendar.CivilMeaning | crates/oxibrain-core/src/chunking.rs:246-258 | every day number becomes a Gregorian date whose number it is |
| Calendar.CivilInverse | crates/oxibrain-core/src/chunking.rs:246-258 | every Gregorian date comes back from its number |
| Calendar.CivilSuccessor | crates/oxibrain-core/src/chunking.rs:246-258 | day d+1 is the calendar successor of day d, for every d |
| Calendar.EpochDay | crates/oxibrain-core/src/chunking.rs:246-258 | day 0 is 1970-01-01 |
| Calendar.CivilCounts | crates/oxibrain-core/src/chunking.rs:246-258 | the formula agrees with walking the calendar day by day |
| Calendar.DaysToYmd | crates/oxibrain-core/src/chunking.rs:246-258 | the u32/i32 steps compute that date and none wraps |
| Calendar.DateOf | crates/oxibrain-core/src/pack.rs:562-575 | the i64 steps of the other implementation compute the same date |
| Calendar.DatesAgree | crates/oxibrain-core/src/chunking.rs:236-244 | the two printed dates agree exactly for timestamps from the epoch on |
| Calendar.DateOfMillisecond | crates/oxibrain-core/src/chunking.rs:236-244 | both dates are the civil date of the day that contains the millisecond, the short one the epoch up to the epoch |
| Utf8.SliceValid | crates/oxibrain-core/src/chunking.rs:70-108 | a slice between character boundaries of UTF-8 text is UTF-8 text |
| Chunking.SourceWindows | crates/oxibrain-core/src/chunking.rs:70-108 | terminates; windows start at 0, end at the end, leave no gap, have strictly increasing aligned edges, fit the maximum or are one scalar and are as long as fits; each next one starts at the first boundary within the overlap, or at the last end exactly when that would advance neither start nor end |
| WindowMeaning.WindowExactly | crates/oxibrain-core/src/chunking.rs:73-93 | each window is whole characters within the size, or one larger character, and no longer window would do |
| WindowMeaning.NextExactly | crates/oxibrain-core/src/chunking.rs:99-106 | the next window starts at the first character within the overlap of the last end, if that advances both start and end, else at the last end |
| WindowMeaning.WindowsUnique | crates/oxibrain-core/src/chunking.rs:70-108 | text, size and overlap determine the windows |
| Chunking.PiecesTile | crates/oxibrain-core/src/chunking.rs:114-149 | splitting after separators gives adjacent, non-empty, aligned pieces that cover the text |
| WindowMeaning.PieceExactly | crates/oxibrain-core/src/chunking.rs:114-120 | each piece ends behind its first break, or with the text |
| Chunking.SplitIntoChunks | crates/oxibrain-core/src/chunking.rs:51-66 | an exact partition: the windows of every block without overlap, so a fitting block is one chunk |
| Chunking.JoinedIsSource | crates/oxibrain-core/src/chunking.rs:51-66 | the chunks of an exact tiling concatenate back to the text |
| Chunking.AppendOversized | crates/oxibrain-core/src/chunking.rs:151-195 | adjacent fitting lines share a chunk as long as it has room; a longer line shares none and is there as its own windows with the given overlap; what was pushed before stays |
| Chunking.AddParagraph | crates/oxibrain-core/src/chunking.rs:121-143 | a fitting paragraph joins the open group unless that is full; any other shares no chunk and is split at its lines |
| Chunking.SourceParagraphWindows | crates/oxibrain-core/src/chunking.rs:114-149 | the plan tiles the text; neighbouring fitting paragraphs share a chunk exactly as long as it has room, an oversized one shares none, and the same holds of its lines, an oversized line being windowed by itself |
| EvidenceRender.FramingExact | crates/oxibrain-core/src/evidence_pack.rs:75-111 | the tail length computed arithmetically is the length of the tail built |
| EvidenceRender.CachedCorrect | crates/oxibrain-core/src/evidence_pack.rs:132-141 | a cached count is the count of that layer text |
| EvidenceRender.Render | crates/oxibrain-core/src/evidence_pack.rs:33-161 | rendering with the token cache and the single-layer shortcut equals rendering from scratch |
| EvidenceRender.SingleLayerText | crates/oxibrain-core/src/evidence_pack.rs:148-155 | the joined context of one layer is that layer's text |
| EvidenceRender.LayOutExact | crates/oxibrain-core/src/evidence_pack.rs:44-131 | every citation slices exactly its delivered text out of its layer, at character boundaries |
| EvidenceRender.CitationFields | crates/oxibrain-core/src/evidence_pack.rs:59-130 | citation k names the unit, role, support and coordinate of entry k under the id of place k, says whether its text is the unit's own, and lists exactly the bytes of the window left out |
| EvidenceOrder.RenderedLayers | crates/oxibrain-core/src/evidence_pack.rs:40-131 | one layer a kind in the fixed kind order; its text is its entries one a line in selection order, its provenance their sources, its count the tokenizer's |
| EvidenceOrder.DecimalSpells | crates/oxibrain-core/src/evidence_pack.rs:75-80 | a citation number is written in decimal |
| EvidencePack.OrderUnits | crates/oxibrain-core/src/evidence_pack.rs:187-234 | the ordering loops give the specified consideration order |
| EvidenceOrder.ConsiderationOrder | crates/oxibrain-core/src/evidence_pack.rs:187-234 | profiles first, recency last, between them memory units and documents in turn, and among memory episodes, summaries and claims in turn, each at its given place and each channel in input order |
| EvidenceOrder.RoundsInOrder | crates/oxibrain-core/src/evidence_pack.rs:210-233 | in a round the places come channel by channel, and no place of a later round comes before one of an earlier round |
| EvidencePack.ConsiderUnit | crates/oxibrain-core/src/evidence_pack.rs:243-293 | trying a unit's text and variants, pushing and popping the selection, equals the uncached trial |
| EvidenceRender.RenderedSound | eval/reliable-recall/pack_reference.rs:24-112 | every count in the uncached form is the tokenizer's count of its text, so it can seed the cache |
| EvidencePack.PackEvidence | crates/oxibrain-core/src/evidence_pack.rs:177-309 | the cached pass returns what packing by plain rendering returns |
| EvidenceReader.OrderConserves | crates/oxibrain-core/src/evidence_pack.rs:187-234 | each unit is considered once; a Profile or Documents unit with the recency role twice |
| EvidenceReader.PackedSound | crates/oxibrain-core/src/evidence_pack.rs:235-299 | after every prefix: within budget and metadata limit, no contained repeat, distinct units, one decision per unit, as many selections as selecting decisions |
| EvidenceReader.FirstFit | crates/oxibrain-core/src/evidence_pack.rs:243-293 | a unit delivers the first of its text and variants that is acceptable, and nothing acceptable is passed over |
| EvidenceReader.LeftOutOnlyIf | crates/oxibrain-core/src/evidence_pack.rs:236-299 | a unit is left out only when its id was seen, it is an unsupported summary, or nothing it offers is acceptable |
| EvidenceOrder.LeftOutReason | crates/oxibrain-core/src/evidence_pack.rs:236-299 | the reason recorded: repeated id, missing support, or what the last candidate that says something says, else the budget |
| EvidenceOrder.AcceptsExactly | crates/oxibrain-core/src/evidence_pack.rs:266-277 | acceptance means the budget, the metadata limit, a quarter of the budget and the profile limit for profiles, a tenth and the recency limit for recency |
| EvidenceOrder.DeliveredMeaning | crates/oxibrain-core/src/evidence_pack.rs:22-31 | a candidate is a duplicate exactly when one delivered range of the same view holds all its bytes |
| EvidenceOrder.TruncatedExactly | crates/oxibrain-core/src/evidence_pack.rs:300-306 | the result is truncated exactly when budget or metadata left a unit out or a unit was shortened |
| EvidenceReader.PackTotals | crates/oxibrain-core/src/evidence_pack.rs:132-155 | the total is the tokenizer's count of the final text and within budget; each layer's count is that of its text |
| EvidenceReader.ProfileWithinCap | crates/oxibrain-core/src/evidence_pack.rs:267-268 | the Profile layer of the final context is within min(budget/4, profile tokens) |
| EvidenceReader.RecencyWithinCap | crates/oxibrain-core/src/evidence_pack.rs:266-285 | recency units add at most the recency cap to the total |
| EvidenceReader.PackReadsBack | crates/oxibrain-core/src/evidence_reader.rs:15-40 | reading back succeeds exactly when no delivered text is empty, and returns each text with its role, source and id E1..En |
| EvidenceReader.CitationIdsDistinct | crates/oxibrain-core/src/evidence_reader.rs:30-34 | the ids are pairwise different |
| Adjacency.AdjacencyGraph.AddEdge | crates/oxibrain-index/src/adjacency.rs:17-28 | the edge is appended to both lists and both nodes are known |
| Adjacency.AdjacencyGraph.Bfs | crates/oxibrain-index/src/adjacency.rs:41-98 | every visited node has its exact distance and, past the start, a reported edge that reaches it; untruncated, exactly the nodes and edges within the depth; truncated, all of them up to some level and none beyond the next; at most max(limit, starts) nodes |
| Adjacency.ExpandNode | crates/oxibrain-index/src/adjacency.rs:61-85 | one frontier node: allowed arcs reported in order, unseen targets added until the limit |
| Adjacency.WithinIsPaths | crates/oxibrain-index/src/adjacency.rs:41-98 | distance at most k means a path of at most k allowed arcs |
| Adjacency.EdgesMeaning | crates/oxibrain-index/src/adjacency.rs:71-76 | the level edges are exactly the allowed arcs leaving a node of distance one less than the edge's depth |
| Adjacency.BuiltMirrored | crates/oxibrain-index/src/adjacency.rs:17-28 | in every built graph the two lists describe the same edges |
| Adjacency.SearchesBack | crates/oxibrain-index/src/adjacency.rs:61-70 | what a search reaches, the opposite search reaches back as quickly |
| GraphEdges.JoinsExactly | crates/oxibrain-index/src/adjacency.rs:17-28 | in a graph built from a list of edges one node leads to another exactly when some listed edge of a permitted relation may be followed between them in the asked direction |
| GraphEdges.EdgesFromNode | crates/oxibrain-index/src/adjacency.rs:59-76 | the edges reported from a node are its permitted arcs, each once, outgoing before incoming as added, one deeper than the node |
| GraphEdges.ReportedInOrder | crates/oxibrain-index/src/adjacency.rs:49-76 | edges are reported level by level and, within a level, in the order of the nodes' names |
| GraphEdges.TruncatedWhen | crates/oxibrain-index/src/adjacency.rs:55-78 | a search is cut short only when as many nodes are within its depth as the limit allows, and always when there are more |
| Community.MostFrequent | crates/oxibrain-index/src/community.rs:46-67 | run counting returns the most frequent label, the smallest on a tie |
| Community.LabelPropagation | crates/oxibrain-index/src/community.rs:9-45 | stopping at the first unchanged sweep returns what all the allowed sweeps would |
| CommunityVotes.PropagationVotes | crates/oxibrain-index/src/community.rs:9-45 | labels start as positions in name order; in every sweep each node takes the winner of a vote of its edges' other ends, those visited before it voting with their new labels |
| CommunityVotes.VotesCounted | crates/oxibrain-index/src/community.rs:22-36 | the labels collected at a node are one vote for each of its edges in either direction |
| Community.RoundsSettle | crates/oxibrain-index/src/community.rs:17-43 | when two rounds agree every node with neighbours has their favourite label, and no later round changes anything |
| Community.SweptRooted | crates/oxibrain-index/src/community.rs:11-15 | after any number of sweeps a label is the initial number of a node in the same component |
| Community.SharedLabelConnected | crates/oxibrain-index/src/community.rs:9-45 | nodes with equal labels are connected |
| Selection.ConsiderPages | crates/oxibrain-core/src/truth_selection.rs:31-57 | for any paging the pool is the best k of all rows sorted at once |
| Selection.PageByPage | crates/oxibrain-core/src/truth_selection.rs:31-57 | cutting to the best k before the next page loses nothing |
| Selection.RetainedPageByPage | crates/oxibrain-core/src/visible_memory.rs:323-327 | the same law with non-finite scores dropped first |
| Selection.BetterIsTotal | crates/oxibrain-core/src/truth_selection.rs:50-55 | score, subject and predicate order the groups totally |
| Selection.NoneBetterLeftOut | crates/oxibrain-core/src/truth_selection.rs:46-57 | no group left out of the pool has a higher score than one kept, nor an equal score and an earlier subject or relation |
| Selection.SelectCompleteGroups | crates/oxibrain-core/src/truth_selection.rs:59-72 | the loop reports exactly the bytes it kept, within the cap |
| Selection.GreedyMeaning | crates/oxibrain-core/src/truth_selection.rs:59-72 | whatever is left out would exceed the cap |
| Selection.GreedyInTurn | crates/oxibrain-core/src/truth_selection.rs:59-72 | the groups chosen are those that fit beside the ones chosen before them, in pool order |
| EvalRecall.SweepSpan | crates/oxibrain-core/src/eval_recall.rs:20-33 | the sorted sweep counts exactly the gold bytes in the union of the source's selected ranges |
| EvalRecall.SupportFraction | crates/oxibrain-core/src/eval_recall.rs:12-40 | the fraction is recovered over required bytes |
| EvalRecall.RecoveredBounds | crates/oxibrain-core/src/eval_recall.rs:12-40 | recovered never exceeds required and never falls when a range is added |
| EvalRecall.FractionBounds | crates/oxibrain-core/src/eval_recall.rs:35-39 | the fraction lies in [0, 1] and is monotone in the selection |
| EvalRecall.FullRecall | crates/oxibrain-core/src/eval_recall.rs:12-40 | everything required is recovered exactly when every byte of every gold span lies in a selected range of its source |
| EvalRecall.SpanCounts | crates/oxibrain-core/src/eval_recall.rs:14-33 | for one span the counts are the sizes of its sets of required and of recovered bytes |
| EvalRecall.CountsAdd | crates/oxibrain-core/src/eval_recall.rs:12-40 | over several spans both counts add up |
| Documents.Laminar | crates/oxibrain-core/src/documents.rs:329-348 | two sections are disjoint or nested, the outer one with the shallower heading |
| Documents.SectionSliceable | crates/oxibrain-core/src/documents.rs:329-348 | a section is aligned, in bounds and holds its heading |
| Documents.RecallRanges | crates/oxibrain-core/src/documents.rs:309-413 | the answer is the best containing section, else the outermost matching ones, else the whole-document hit or nothing; with ordered headings its ranges are aligned, sorted and disjoint |
| DocumentMeaning.RecalledExactly | crates/oxibrain-core/src/documents.rs:309-413 | the recalled ranges are the answer stated on headings and bytes: the lowest-level, longest section around the hit, else the sections sharing a byte with it whose text matches and that lie in no other such, else the whole-text hit |
| DocumentMeaning.SectionsExactly | crates/oxibrain-core/src/documents.rs:329-348 | a section runs from a levelled heading to the first later heading of the same or a lower level, or to the end |
| Documents.BestIsOutermost | crates/oxibrain-core/src/documents.rs:350-363 | the section answered for a non-empty hit contains every other section that contains it |
| Documents.SingleAnswer | crates/oxibrain-core/src/documents.rs:295-304 | a one-range answer holds the whole hit exactly when there are no headings, some section contains the hit, or no section it touches matches |
| Documents.LoneMatchPartial | crates/oxibrain-core/src/documents.rs:295-304 | a document, hit and query whose one-range answer holds only part of the hit |
| RankModel.RrfKeyInjective | crates/oxibrain-core/src/rank.rs:331-339 | different targets have different keys |
| Orders.BelowMeaning | crates/oxibrain-core/src/rank.rs:535-535 | keys compare by the first place where they differ, or by where the shorter one ends |
| RankModel.FiltersExact | crates/oxibrain-core/src/rank.rs:615-672 | a candidate is kept exactly when it passes every filter |
| Ranking.Collect | crates/oxibrain-core/src/rank.rs:440-490 | the pool holds every hit and every target with facts under its key, with all its channel scores |
| Ranking.ApplyRerank | crates/oxibrain-core/src/rank.rs:758-879 | every reranker permutes the items, corroboration also rescoring them |
| Ranking.SortedSame | crates/oxibrain-core/src/rank.rs:527-536 | candidates with different keys sort to one list however they are arranged |
| Ranking.Rank | crates/oxibrain-core/src/rank.rs:439-578 | the whole operation yields the specified outcome of the collected pool |
| Ranking.Conservation | crates/oxibrain-core/src/rank.rs:439-578 | every candidate of the input appears exactly once, in items or dropped, and no other target appears |
| Ranking.ItemsSound | crates/oxibrain-core/src/rank.rs:500-548 | every item passes the filters, carries its facts, and the items are sorted within the limit |
| Ranking.DropsSound | crates/oxibrain-core/src/rank.rs:502-570 | every drop names a failed filter, or the limit used up with every item ahead of the candidate's own scored item |
| RankMeaning.ItemScores | crates/oxibrain-core/src/rank.rs:511-523 | whatever the reranker, an item's score is the fusion of its channel scores, zero without any, boosted once for every corroboration |
| RankMeaning.ItemsOutrank | crates/oxibrain-core/src/rank.rs:527-536 | every item outranks the later ones: by that score, then by kind from statements to communities, then by key |
| RankMeaning.CutOutranked | crates/oxibrain-core/src/rank.rs:540-541 | a passing candidate cut by the limit is outranked by every item, none of which scores less |
| RankMeaning.HitsDecide | crates/oxibrain-core/src/rank.rs:680-697 | under reciprocal-rank fusion without corroboration a candidate with more hits is ranked before any with fewer, whatever their ranks and scores |
| RankMeaning.CutPosition | crates/oxibrain-core/src/rank.rs:550-570 | a cut candidate is reported at its place among all candidates in key order |
| RankMeaning.FilterDrop | crates/oxibrain-core/src/rank.rs:502-510 | any other drop names the first filter the supplied facts fail, in the listed order, with the failing values |
| RankMeaning.DropsOrdered | crates/oxibrain-core/src/rank.rs:496-574 | filtered candidates first, cut ones last, each in key order |
| RankMeaning.TotalIsCandidates | crates/oxibrain-core/src/rank.rs:492-492 | the total is the number of candidates |
| RankMeaning.BareHit | crates/oxibrain-core/src/rank.rs:583-600 | a hit without facts is kept exactly by filters that ask no confidence and admit semi-trusted sources and the empty relation |
| Ranking.ReorderingUndone | crates/oxibrain-core/src/rank.rs:530-541 | the final sort undoes MMR and graph-distance order: the ranking is the one without reranking |
| Mmr.Rerank | crates/oxibrain-core/src/rank.rs:787-872 | a permutation: best score first, then greedy picks up to a split, then the deferred by score |
| Mmr.SplitDiverse | crates/oxibrain-core/src/rank.rs:842-868 | with a ceiling c >= 0 no earlier pair is closer than c, and every later item is closer than c to an item before the split |
| Mmr.NoCeilingGreedy | crates/oxibrain-core/src/rank.rs:818-872 | without a ceiling nothing is deferred |
| Mmr.PickTrade | crates/oxibrain-core/src/rank.rs:818-856 | each pick is within the ceiling and no later item within it has a larger lambda * score - (1 - lambda) * similarity to the earlier picks |
| Mmr.SimilarityMeaning | crates/oxibrain-core/src/rank.rs:822-846 | that similarity is the largest cosine to an earlier pick, at least zero, or without vectors the distance from the last score |
| Mmr.TooCloseMeaning | crates/oxibrain-core/src/rank.rs:847-853 | an item is deferred exactly when some earlier pick is closer than the ceiling allows |
| Extraction.LocateInQuote | crates/oxibrain-core/src/extraction.rs:455-484 | the searching loops return the first exact occurrence in the quote, else the first but for ASCII case |
| ClaimMeaning.LocatedExactly | crates/oxibrain-core/src/extraction.rs:455-484 | a needle is located exactly at its first occurrence in the first occurrence of the quote, or, if there is none, at the first whole-character place that spells it but for ASCII case |
| Extraction.LocateVerbatim | crates/oxibrain-core/src/extraction.rs:455-484 | what is located is, byte for byte, the episode at the span |
| Extraction.LocateAgain | crates/oxibrain-core/src/extraction.rs:455-484 | looking for the returned spelling finds the same place |
| Extraction.CharSpanToBytes | crates/oxibrain-core/src/extraction.rs:488-508 | the loop converts a character span, refusing one that starts past the last character |
| Extraction.NthCounts | crates/oxibrain-core/src/extraction.rs:488-508 | the byte offset found has exactly the asked number of characters before it |
| ClaimMeaning.CharSpanExactly | crates/oxibrain-core/src/extraction.rs:488-508 | the bytes found are those of the asked characters, and they are found whenever there are any |
| Extraction.ResolveMention | crates/oxibrain-core/src/extraction.rs:413-445 | the ladder of quote, byte span, character span and case |
| Extraction.ResolveVerbatim | crates/oxibrain-core/src/extraction.rs:413-445 | a resolved mention is spelled by the episode at its span |
| ClaimMeaning.ResolvesExactly | crates/oxibrain-core/src/extraction.rs:413-445 | a mention resolves, and to what, exactly as its quote, the bytes of its span, the characters of its span, or its span but for case spell it, in that order |
| Extraction.CheckClaim | crates/oxibrain-core/src/extraction.rs:246-378 | the checks of one claim, errors in order |
| Extraction.AcceptedMeaning | crates/oxibrain-core/src/extraction.rs:246-378 | acceptance means known predicate, confidence in [0,1], fitting types and both ends located |
| ClaimMeaning.AcceptedExactly | crates/oxibrain-core/src/extraction.rs:246-378 | a claim is accepted exactly when the first definition of its predicate's name lists its subject type and fits its object, its confidence is in range, and the episode spells both ends |
| ClaimMeaning.ErrorsExactly | crates/oxibrain-core/src/extraction.rs:246-403 | the errors reported are exactly those due: the predicate is unknown exactly when no definition has its name |
| ClaimMeaning.AcceptedRepair | crates/oxibrain-core/src/extraction.rs:328-381 | an accepted claim is returned with both ends as the episode supports them and otherwise unchanged |
| Extraction.AcceptedVerbatim | crates/oxibrain-core/src/extraction.rs:328-378 | subject, entity object and quoted literal of an accepted claim are the episode's bytes at their spans |
| Extraction.RevalidatesExactly | crates/oxibrain-core/src/extraction.rs:302-370 | an accepted claim is accepted unchanged again exactly when its predicate is no enumeration or lists the repaired value |
| Extraction.EnumRefusedAgain | crates/oxibrain-core/src/extraction.rs:302-370 | a concrete enumeration claim accepted once and refused the second time |
| Extraction.ValidateClaims | crates/oxibrain-core/src/extraction.rs:238-387 | the loop fills the two lists from the verdicts |
| Extraction.PartitionedInOrder | crates/oxibrain-core/src/extraction.rs:379-383 | every claim lands in exactly one list, both in input order |

## Left out

- Floating point: confidence, fused scores, similarity and salience are `real` or functions given as parameters, so rounding, NaN and infinities are not modelled; the orders and decisions are.
- The confidence formula of a belief is a parameter of the fold; it may read the visible assertions in stored order, which is why `FoldOrder.FoldOrderFree` leaves support and confidence out.
- Digests, the JSON length of a record, the tokenizer, the metadata size and query relevance are parameters: any function.
- Counters and offsets that are u32 or usize in the source are natural numbers outside Calendar; sizes past those widths are not modelled.
- Publication origins are a datatype instead of canonical JSON text; authorization, request validation and receipts are not modelled.
- The SQL tables are two maps; transactions, redaction time stamps and the ledger's own storage are not modelled.
- Utf8 asks for lead and continuation bytes only, not for scalar-value ranges, so its results hold for every `str` and for some other byte strings.
- The weighted fusion and the corroboration formula are parameters of ranking; ranks of a hit inside its channel, and the echo of the query in the result, are not carried through it.
- `scoped_names`, `search_claims` and claim rendering of visible_memory.rs, the byte-level prompt packing of pack.rs apart from its date, and the fusion wrappers and quotation variants of evidence.rs would add only easy members.
- `diff_roots` and `plan_reconcile` of documents.rs are set differences decided by reading one branch.
- Weighted label propagation sums floating-point votes and is otherwise the same sweep.
- The schema, grammar and prompt builders of extraction.rs are string templates.
- The bootstrap interval of eval_recall.rs is a seeded random experiment.
- `validate_delivery` of evidence_reader.rs re-checks what a remote consumer sends back; it decides nothing about packing.
