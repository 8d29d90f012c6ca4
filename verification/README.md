# Verified model of ai-memory's audit chain, autonomy passes and gates

This project models the parts of ai-memory whose correctness spans several functions, a whole state machine or all
inputs of a parser, and proves properties of those models with Dafny 4.11. `dafny verify dfyconfig.toml` checks all of it.

**The hash-chained audit log** (`Hex`, `AuditLog`, `AuditLines`, `AuditVerify`, `AuditSink`, `AuditRuns`). The log is
text; lines, events and the two replay loops are derived from it. SHA-256, printing and parsing are arbitrary functions
of a `Codec`; the one assumption, `GoodCodec`, is that a printed event is one non-blank line and parses back to itself.
`AuditSink.AuditProcess` is the process with its `last_hash` and counter; `AuditRuns` is the same protocol as steps of
any number of threads, with failed writes, crashes, shutdowns and restarts.

**The memory table and the curator** (`Memories`, `Summaries`, `Rollback`, `Undo`, `RoundTrips`, `Clusters`, `Autonomy`,
`AutonomyRuns`, `CuratorLog`, `EntryUndo`, `RunUndo`, `ReadRuns`). Rows are kept by id under a unique
`(title, namespace)`. `Memories` holds the statements the passes issue (upsert, delete, conserve, consolidate) as the
storage code writes them, and what each leaves of a row column by column; `Summaries` does so for the summary of a
consolidation; `Rollback.Connection` is the object the two reversals update. `World` supplies what the
surroundings decide: the clock, fresh ids, which statement fails, and whether a failing key lookup is reported. A
failing statement stands for a stop of the program at that point as well.

**Smaller cores.** `Approvals` (the m-of-n quorum), `Embeddings` and `EmbeddingCodec` (cosine, fusion, the BLOB codec),
`ExportTaxonomy` (the short-circuiting severity classifier), `Bench` (the percentile gate) and `Egress` (the host parser
behind the egress gate). `Common` and `JsonValues` are shared vocabulary.

## What the proofs found

Where the code does less than its documentation says, the model follows the code and a lemma gives the exact condition.

- The sequence counter is an `AtomicU64` and wraps (where overflow is unchecked): a log whose last number is 2^64 - 1
  cannot be extended without the verifier flagging the new line.
- An append to a file whose last line lacks its newline is glued to that line; the file verifies afterwards iff the
  glued line as a whole may stand there, so two events on one line fail it when they do not parse as one.
- `init` treats an unreadable tail as an empty log, so the restarted process is intact iff there was nothing to link to;
  otherwise the next event breaks the chain. Runs without this mishap and without a wrap stay clean; any run at all does
  iff at each append the head is the file's and the counter past its last number, or that one 0.
- `read_chain_tail` keeps the last well-formed line, whatever malformed lines follow; its comment says a malformed tail
  counts as empty (`src/audit.rs:398-400`).
- The store-backed undo of a priority change restores the old priority iff it is not below the current one, because
  `store.store` is an upsert that keeps the larger priority: the curator's increases cannot be undone that way. On a
  missing row the two twins return different flags.
- The rusqlite collision guard sees the 50 rows a listing returns. A hidden, expired or later owner of a key is
  overwritten, where the store twin refuses; the twins do the same on a claimed key iff the first claimant is in the
  listing when its guard runs. This holds for the undo of a merge, and for the forget entries older logs may hold: the
  passes no longer write those.
- The SQLite store's key lookup turns an SQL error into "no owner" (`src/storage/mod.rs:5614-5627`), where the Postgres
  store reports it. Where it does, a failing lookup on a claimed key lets the undo overwrite the claimant and, when it
  completes, lose an original; `Undo.StoreReversalIsCrashSafe` says exactly when nothing is lost.
- The rusqlite reversal of a consolidation deletes first: a failing reinsert leaves neither the summary nor all
  originals. The store-backed one is crash-safe at every statement but such a lookup. Both can be run again after a
  stop and then complete.
- Running the store-backed one again does not give the very same table: rows reinserted before the stop are upserted a
  second time, which raises their version. The tables are equal iff nothing had been reinserted.
- A whole live run is undone by reversing its entries backwards over rusqlite, except for what was stale in the
  candidates: a merge brings the snapshots back, not the rows, and a priority change restores the candidate's priority.
- With tombstoning on, undoing a consolidation deletes the summary but leaves every source hidden.
- An undone hard-deleting consolidation gives the very same database back iff each member was already what a fresh
  insert of it would be (version 1, clock stamped, expiry filled in) and had no edge.
- The store twin only invalidates a `contradicts` edge; conserving the pair again then leaves the edge invalid.
- Consolidation merges the sources' metadata, so a summary can inherit a conserved loser's marker and then never loses.
- Consolidation inserts its summary, so it fails when another row owns the `[consolidated]` title, be it a member of the
  cluster; the comment at `src/autonomy.rs:446-449` says that never happens. A dry run announces such a merge.
- A rollback entry is stored under a title made of its kind and a timestamp, through the same upsert as any row: two
  entries of one kind written at one moment leave only the later one in the log.
- `decode_embedding_blob` takes every row of 4n bytes as legacy, including one that starts with the header byte.
- A text without a scheme but with a later `://` is parsed from there, so its host is read from the wrong place and the
  loopback-only gate can permit a remote host.

## Model

| member | source | states |
|---|---|---|
| Hex.HexEncode | src/audit.rs:493-501 | the loop writes two lower-case hexadecimal digits a byte, high one first, which spell it |
| Hex.HexInjective | src/audit.rs:493-501 | equal hex texts come from equal bytes, so comparing hashes as text adds no collision |
| AuditLog.SentinelIsZeros | src/audit.rs:67-68 | the chain starts from sixty-four zeros |
| AuditLog.SequenceShape | src/audit.rs:824-836 | the verifier's sequence rule accepts exactly a run of zeros followed by strictly increasing positive numbers |
| AuditLog.ChainSnoc | src/audit.rs:813-856 | a chain extended by one event is intact iff it was intact and the event links, is in sequence and rehashes |
| AuditLog.TamperEvidence | src/audit.rs:476-491 | two intact chains ending in one hash are equal, length included, or exhibit two canonical texts with one digest or a preimage of the chain-head sentinel |
| AuditLines.AppendedLine | src/audit.rs:626-627 | appending a line to a file adds one line when the file ends in a newline and lengthens the last line otherwise |
| AuditLines.LinesOfWritten | src/audit.rs:788-796 | lines ended by a newline, with or without a carriage return, in any mixture, are read back as they were, and so is a last line without an end |
| AuditLines.EventsSnocText | src/audit.rs:625-627 | appending a printed event to a terminated file adds exactly that event, and the file is clean after iff it was before and the event may follow |
| AuditVerify.VerifyChain | src/audit.rs:782-861 | the replay loop returns the verdict on the file: none iff clean, else the first line an intact prefix cannot be extended by; it says Parse iff that line does not parse, ChainBreak iff it parses and does not name the last hash, SequenceBreak iff it links and its number does not pass a last one other than 0, and SelfHashMismatch only on one that links, is in sequence and does not rehash |
| AuditVerify.ExactVerdict | src/audit.rs:788-860 | no failure iff every non-blank line parses, links, rehashes and is in sequence; otherwise the named line is where prefixes stop being clean, and the verdict is unique |
| AuditVerify.VerdictIgnoresSuffix | src/audit.rs:796-850 | lines after the first failure never change the verdict |
| AuditVerify.CleanPrefix | src/audit.rs:788-860 | every prefix of a clean log is clean |
| AuditVerify.ReadChainTail | src/audit.rs:416-455 | returns hash and number of the last well-formed event, malformed lines notwithstanding, and warns iff well-formed numbers do not strictly increase |
| AuditSink.SanitizeContract | src/audit.rs:635-645 | a sanitised field holds no control character but tab, hence no line break, respects the cap, and is unchanged iff it was safe and short |
| AuditSink.SanitizeLogs | src/audit.rs:635-645 | what survives is the tabs and printable characters, given by code point, in their order and as many as the cap allows; the text itself iff it is all safe and short |
| AuditSink.NewEventRecords | src/audit.rs:600-623 | the event built has schema version 1, the time, number and head of the emission, the caller's actor, action, outcome, authentication, ids, error, tier and scope, the three texts of the target made safe within 128, 128 and 200 characters, a title iff one was given, and the hash of itself without a hash |
| AuditSink.ErrorEventIsSafe | src/audit.rs:550-554 | an event recording an error text has outcome Error and a text without line breaks, the message itself iff that was safe and at most 256 characters |
| AuditSink.NewEventFollows | src/audit.rs:598-623 | an event built on the head of a log may follow it iff its number passes the last one or that one is 0 |
| AuditSink.WrappedCounterIsFlagged | src/audit.rs:598 | after number 2^64 - 1 the next event is reported as a sequence failure |
| AuditSink.UnterminatedAppend | src/audit.rs:626 | an append to a clean file without a final newline leaves it clean iff the line glued together may follow the lines before it; otherwise verification fails at exactly that line with that line's fault |
| AuditSink.AuditProcess.Init | src/audit.rs:280-334 | the head and counter are the tail's, and on a clean file the process is intact iff the tail was readable or there was nothing to link to |
| AuditSink.AuditProcess.TryEmit | src/audit.rs:580-630 | off: no effect; failed write: only a number is burnt; success: the log gains one event, which holds every field the caller passed, made safe, under the time, the next number and the head, and its own hash; the number is one more than the last, and 0 after 2^64 - 1; the file stays clean iff the number passes the last one; intactness is kept short of the wrap |
| AuditSink.AuditProcess.Shutdown | src/audit.rs:874-879 | turning auditing off keeps the file and the log's integrity |
| AuditSink.AuditProcess.Verify | src/audit.rs:775-778 | verifying the file of an intact process reports no failure |
| AuditRuns.StepKeeps | src/audit.rs:580-630 | every step of every thread, failed write, crash, restart and shutdown keeps the file clean and extended, mutual exclusion, and head and counter in agreement with the file; of the numbers only one taken at 2^64 - 1, and of the restarts only one that cannot read a tail it should link to, are excepted |
| AuditRuns.RunKeeps | src/audit.rs:280-336 | the invariant holds after any run of such steps |
| AuditRuns.RunsStayClean | src/audit.rs:580-630 | after any run without those two mishaps the file extends the old one, verifies clean, and holds its old events followed by exactly the completed appends, with numbers strictly increasing and above all old ones |
| AuditRuns.RunIsCleanIff | src/audit.rs:280-336 | over every run, mishaps included, the file is only extended and holds its old events and the completed appends, and it verifies iff at every append the head was that of the file and the counter past its last number, or that one 0 |
| AuditRuns.RunRecords | src/audit.rs:580-630 | no run invents an event, mishaps included: each completed append holds what one thread passed when it took the sink, under the time of a later step of that thread |
| AuditRuns.UnreadableRestartBreaksChain | src/audit.rs:299-302 | a restart that cannot read the tail of a log whose last hash is not the sentinel, then one emission: verification fails at that event with a chain break |
| AuditRuns.EmissionAlone | src/audit.rs:580-630 | the seven steps of a thread running alone have the effect of one call of the emitting method |
| Memories.MaxPriorityIsMax | src/storage/mod.rs:6725-6753 | a summary's priority is the largest of its sources' and 5 |
| Memories.MergedTagsAreUnion | src/storage/mod.rs:6795-6796 | a summary's tags are the sources' tags, each once, in ascending order |
| Memories.ConsolidateSucceedsIff | src/storage/mod.rs:6706-6960 | a consolidation succeeds iff its statement does, every source is there, nobody owns the summary's key, sources included, and its id is new; otherwise nothing changes |
| Memories.StoredRow | src/storage/mod.rs:867-1000 | storing a memory succeeds iff its key is owned or its id free; a new row holds it in every column but the version, 1, the clock, in which only this node's entry moves and never back, and the expiry, its own or else none for long tier and the tier's default otherwise; an owner keeps id, key, access history, creation time, lifecycle and provenance keys, takes text, tags, source, update time and other metadata, and the higher priority, confidence and tier; no other row changes |
| Memories.LoserConserved | src/storage/mod.rs:2621-2706 | a conserved loser gains exactly the three markers and no other column changes, no other row does, the edge of the pair, smaller id first, is there, and no edge that was there is touched |
| Memories.LoserReleased | src/storage/mod.rs:2716-2760 | the reversal takes exactly the three markers and that edge, and leaves every other column, row and edge |
| Memories.PrioritySet | src/storage/mod.rs:2033-2200 | setting a priority changes that column, the update time and the version of the one row, iff it is there |
| Common.BelowMeans | src/autonomy.rs:566-568 | the order times and ids are compared in: a proper prefix comes first, else the smaller character at the first difference |
| Summaries.SummaryIsOfSources | src/storage/mod.rs:6725-6922 | the summary row, column by column: the given title, namespace, text and tier; the sources' tags ascending, each once; the highest priority and at least 5; confidence 1; the curator's label; the sum of the access counts while it stays in 64 bits, and of counts not negative the largest number beyond; created and updated now, never accessed, no expiry iff long; the clock of the last source that has one; version 1, open |
| Summaries.SummaryProvenance | src/storage/mod.rs:6759-6830 | its metadata lists the source ids in order, is signed by the curator, names the sources' agents once each in order of first appearance, and holds the last source's value of every other key; no source's agent id is copied |
| Summaries.ConsolidationLeaves | src/storage/mod.rs:6900-6975 | after a successful consolidation the new id holds that summary of the sources' rows; the sources are gone with their edges, or kept as they were but tombstoned; every other row and edge is as it was |
| Rollback.ReverseRollbackEntry | src/autonomy.rs:800-858 | the rusqlite reversal, statement by statement and at whichever statement fails, has the effect the undo theorems below are about; a forget stores its snapshot, a priority change moves priority, update time and version of its row alone, and a conserved loser loses exactly its markers and edge |
| Rollback.ReverseRollbackEntryStore | src/autonomy.rs:893-1008 | the same for the store-backed reversal, with its other order of writes and a key lookup that may hide its errors; a forget stores its snapshot, and a priority change stores the row with the old priority over itself |
| Rollback.CheckOriginals | src/autonomy.rs:806-809 | the guard loop stops at the first refusal and changes no row |
| Rollback.InsertOriginals | src/autonomy.rs:812-814 | the reinsert loop stops at the first failing insert and keeps what was inserted before it |
| Rollback.GuardMeans | src/autonomy.rs:1012-1042 | a guard refuses iff another row has the snapshot's title and namespace and the guard looks far enough to see it, and names such a row; a failing statement refuses, or passes where the store hides lookup errors |
| Undo.RestoredRows | src/autonomy.rs:812-814 | putting unclaimed snapshots back keeps ids and keys unique and touches no other row |
| Undo.InsertAllStops | src/autonomy.rs:926-928 | the reinserts stop after some prefix with exactly that prefix put back, early only on a failing statement or on an id in use under another key |
| Undo.InsertAllFrame | src/storage/mod.rs:870-975 | reinserting snapshots over a table that owns some of their keys: rows nobody's key leads to stay, no row changes key, new rows are snapshots of unowned keys, and on success every key holds its snapshot's content |
| Undo.RefusalChangesNothing | src/autonomy.rs:902-919 | a reversal of any entry refused for a collision has changed nothing, in either twin |
| Undo.StoreReversalIsCrashSafe | src/autonomy.rs:902-937 | the summary is still there unchanged or every original is back iff no lookup fails unnoticed on a claimed key, or some guard refuses, or an insert or the delete cannot go through and no insert that does lands on the summary's own row; in particular whichever statement fails where lookups report their errors |
| Undo.SqliteReversalIsSafeIff | src/autonomy.rs:806-815 | from the table a hard-deleting consolidation leaves, the rusqlite order keeps the summary or brings all originals back iff a statement up to the delete fails or no reinsert does |
| Undo.StoreReversalSucceeds | src/autonomy.rs:902-937 | without failing statements the reversal succeeds iff no snapshot's key is owned by another row and no snapshot's id is in use under another key |
| Undo.StoreReversalCompletes | src/autonomy.rs:918-937 | then every original is back column by column, as a new row where its own was gone and merged into it where it was there, the summary and its edges are gone, all else is as it was, and the flag says whether the summary was there |
| Undo.SqliteReversalCompletes | src/autonomy.rs:800-816 | the same table, columns and flag for the rusqlite order |
| Undo.UpsertAgain | src/storage/mod.rs:870-975 | storing a snapshot a second time changes only the version, and the expiry of a long-tier row |
| Undo.RerunReachesSameTable | src/autonomy.rs:922-937 | running the store-backed reversal again after a stop reaches the table of the uninterrupted run, except that exactly the rows of the prefix reinserted before the stop carry the mark of a second upsert; the tables are equal iff the stop had left the database as it was |
| Undo.SqliteRerunCompletes | src/autonomy.rs:800-816 | after a stop of the rusqlite reversal at any statement a second run completes it from where it stopped, its flag saying whether the summary was still there, which it was iff nothing had changed |
| Undo.CompletedRerunMarksAll | src/autonomy.rs:918-937 | running a completed store-backed reversal again succeeds, says the summary was not there, and marks every original as upserted once more |
| RoundTrips.ConsolidateThenReverse | src/autonomy.rs:473-487 | a hard-deleting consolidation that succeeded is undone by either twin: each member is back with every column of its snapshot but the version, 1, this node's clock entry and a missing expiry; the summary is gone, other rows untouched |
| RoundTrips.UndoIsExactIff | src/autonomy.rs:158-165 | the undo gives the very database back iff every member was already a fresh insert of itself and had no edge |
| RoundTrips.TombstonedSourcesStayHidden | src/storage/mod.rs:956-962 | after a tombstoning consolidation the undo succeeds, deletes the summary and leaves every source invisible to listings |
| RoundTrips.TwinsAgreeOnMerges | src/autonomy.rs:893-940 | when the store twin succeeds rusqlite does the same; it refuses for a collision iff a key is claimed, and then rusqlite does the same iff the first claimant is in its guard's listing at that moment; on an id in use both fail alike, rusqlite with the summary gone |
| RoundTrips.UnseenClaimantIsOverwritten | src/autonomy.rs:806-815 | where no claimant is in the listing rusqlite goes on: each claimant other than the summary ends up with the snapshot's content, and the snapshot's id does not come back under its key |
| RoundTrips.SmallNamespacesAgree | src/autonomy.rs:1018-1041 | the twins agree wherever every claimant is visible in a namespace of at most 50 visible rows |
| RoundTrips.SmallNamespaceIsCovered | src/autonomy.rs:1018-1029 | a visible row of a namespace with at most 50 visible rows is in the guard's listing |
| RoundTrips.WindowIsFirstFifty | src/autonomy.rs:1018-1029 | whatever the namespace, the guard sees exactly the first 50 of its unexpired, visible rows by priority and then update time, both descending, and then id |
| RoundTrips.SqliteGuardIsExactIff | src/autonomy.rs:1012-1042 | undoing a forget over rusqlite refuses iff the key's other owner is in the listing; otherwise the owner is overwritten, where the store twin refuses |
| RoundTrips.StoreTwinKeepsRaisedPriority | src/autonomy.rs:945-963 | rusqlite always restores the old priority; the store twin does iff the current one is not above it |
| RoundTrips.PriorityTwinsAgreeIff | src/autonomy.rs:822-841 | on a priority change the twins return the same flag iff the row is there, and leave the same priority iff it is not there or was not above the one to restore |
| RoundTrips.ConserveThenReverse | src/autonomy.rs:848-856 | conserving and reversing over rusqlite gives the database back iff the loser carried no marker and the pair no edge |
| RoundTrips.ConserveAgainAfterReversal | src/autonomy.rs:973-1006 | conserving again revives the edge after the rusqlite reversal and leaves it invalid after the store's |
| Clusters.JaccardIsSimilarity | src/autonomy.rs:402-424 | the overlap score is symmetric, within 0 and 1, and 1 iff the token sets are equal and not empty |
| Clusters.MatchSymmetric | src/autonomy.rs:370-388 | whether two memories match does not depend on which is the seed |
| Clusters.MatchMeans | src/autonomy.rs:370-388 | two memories match iff both have an embedding, the cosine is at least 0.75, not both are without words, and at least 55 in 100 of all their words are shared |
| Clusters.GrowFacts | src/autonomy.rs:357-393 | one seed's scan yields at most 8 later positions each matching the seed; an unused match it lacks came after the cluster was full |
| Clusters.WalkClusters | src/autonomy.rs:349-398 | a namespace's clusters are disjoint stars of 2 to 8; a later match missing from one was taken before or the cluster was full; no two leftovers match |
| Clusters.GrowCluster | src/autonomy.rs:354-393 | the inner loop with its flag array marks and collects exactly the positions of that scan |
| Clusters.ClusterGroup | src/autonomy.rs:350-398 | the outer loop returns the clusters those facts are about |
| Clusters.GroupByNamespace | src/autonomy.rs:340-347 | the buckets are the non-reserved namespaces of the candidates, each with its candidates in order |
| Clusters.FindConsolidationClusters | src/autonomy.rs:336-400 | the whole clusterer returns the clusters of each namespace, in the hash map's order; each is good in that sense, and no two leftovers would do |
| Clusters.ClustersAreGood | src/autonomy.rs:336-400 | every cluster has 2 to 8 candidates of one namespace that does not start with an underscore; each later one and the first both have an embedding, a cosine of at least 0.75 and at least 55 in 100 of their words in common |
| Clusters.LeftoversStayApart | src/autonomy.rs:336-400 | conversely no two candidates of one namespace not starting with an underscore that are in no cluster meet those conditions |
| Clusters.OrderIrrelevant | src/autonomy.rs:349 | whatever order the hash map yields, the same multiset of clusters is formed |
| Autonomy.TierNeverDowngrades | src/autonomy.rs:466-471 | the summary's tier is a member's and no member's is higher |
| Autonomy.ConsolidateCluster | src/autonomy.rs:426-488 | declines iff the cluster is too small or reserved; a dry run writes nothing; live it succeeds iff all members are there and the summary's key and id are free, and changes nothing otherwise; then the id in the entry holds the summary of the members' stored rows, column by column, under the prefixed first title, with the summariser's answer on their titles and contents, long iff some member is and short iff all are, and the sources are retired |
| Autonomy.PrefixedTitleBlocks | src/autonomy.rs:446-455 | a cluster one of whose rows already has the prefixed title is never merged: the attempt fails on the taken key and changes nothing, although a dry run announces it |
| Autonomy.PrefixedPairIsNeverMerged | src/autonomy.rs:446-455 | the smallest such input: two rows titled X and [consolidated] X in one namespace |
| Autonomy.ForgetIfSuperseded | src/autonomy.rs:520-601 | acts iff the memory is unmarked and some entry of its confirmed contradictions is the id of a candidate strictly newer and no less trusted; the entry names the first such id of the list; live, the loser's row gains exactly the markers, and the pair its edge |
| Autonomy.WinnerOutranks | src/autonomy.rs:539-575 | who wins is the first listed id whose last candidate is newer and at least as trusted, and there is one iff the memory is unmarked and lists such an id |
| Autonomy.LosersFormNoCycle | src/autonomy.rs:562-575 | along any chain of losers and winners the update time strictly rises, so no memory loses to itself through others |
| Autonomy.NewestNeverLoses | src/autonomy.rs:562-575 | every non-empty candidate set has a member that loses to nobody |
| Autonomy.ConservedOnce | src/autonomy.rs:539-551 | over any number of cycles with re-read rows a marked loser never loses again until a reversal clears the mark |
| Autonomy.SummaryInheritsMark | src/storage/mod.rs:6759-6779 | a summary is itself marked as a conserved loser iff the last source carrying the key is, and then never loses |
| Autonomy.ApplyPriorityFeedback | src/autonomy.rs:603-660 | raises by one iff ten accesses or more, the last within 7 days, and below 10; lowers by one iff never accessed, 30 days old or more, and above 1; else nothing; the entry records before and after; live only priority, update time and version of that row change; a priority in 1..10 stays there; a dry run writes nothing |
| Autonomy.PersistRollbackEntry | src/autonomy.rs:669-672 | writing an entry succeeds iff the statement does and its title is taken or its id new; the row stored is a long-tier one of priority 3 in the log's namespace, titled by kind and moment, tagged and signed; then the log holds its text under its title, no other title's text changes, and a row is overwritten iff it is an entry of that title |
| Autonomy.LogTitlesDiffer | src/autonomy.rs:681-692 | two entries go by one title iff they are of one kind and were written at one moment |
| AutonomyRuns.ConsolidatePass | src/autonomy.rs:254-273 | each cluster ends as one written entry or one error; without a failed consolidation all members are counted |
| AutonomyRuns.ForgetPass | src/autonomy.rs:276-289 | forgotten plus failed equals the number of losers among the candidates |
| AutonomyRuns.PriorityPass | src/autonomy.rs:293-306 | adjusted plus failed equals the number of candidates whose priority the policy moves |
| AutonomyRuns.RunAutonomyPasses | src/autonomy.rs:242-309 | the run is the fold of its steps over clusters and candidates; report conservation; a dry run writes nothing; a live run, whatever fails, leaves every row that is no member, loser or drifting row exactly as it was, and every marker in place |
| AutonomyRuns.LosersEndMarked | src/autonomy.rs:276-306 | a live run that reports no failed forget leaves every losing candidate still in the table marked as conserved, whatever else failed |
| CuratorLog.RunFillsLog | src/autonomy.rs:254-306 | after a live run the log holds under every title the text last written there or what it held before, and as many entries are counted as were written |
| CuratorLog.EntriesKeptIff | src/autonomy.rs:254-306 | every entry counted as written can be read back iff no two that differ are of one kind and were written at one moment |
| EntryUndo.AdjustUndoneIff | src/autonomy.rs:822-841 | reversing a priority change restores the row, in every column but update time, version, clock and expiry, iff the priority recorded was the row's own, which a stale candidate's need not be |
| EntryUndo.ConserveUndoneIff | src/autonomy.rs:848-856 | reversing a conserved contradiction restores the loser in the same columns iff it carried no marker before |
| EntryUndo.MergeUndoneIff | src/autonomy.rs:800-816 | reversing a hard-deleting merge restores the table outside the log in the same columns iff the snapshots were the rows they stand for |
| RunUndo.RunIsUndone | src/autonomy.rs:242-309 | reversing all entries of a live run without errors, the last one first, restores every row outside the log in every column but update time, version, clock and expiry, when each step acted on the rows as they were |
| ReadRuns.FormedClustersGood | src/autonomy.rs:336-400 | the clusters formed of candidates with distinct ids share no row, neither with each other nor within one |
| ReadRuns.ReadRunIsUndone | src/autonomy.rs:242-309 | in particular on the very table the candidates were read from, when no loser among them carries a marker |
| AutonomyRuns.DryRunPredictsLive | src/autonomy.rs:228-309 | when the live run reports no error, the dry run on the same snapshot, clock and summariser returned the same report, whatever the iteration orders |
| Embeddings.CosineSimilarity | src/embeddings.rs:851-885 | the fused loop equals the three separate sums; the score is the dot product over the product of the lengths, 0 where that is below 1e-12 or the dimensions differ, and within -1 and 1 |
| Embeddings.DotOfParts | src/embeddings.rs:860-866 | the dot product is the sum of the coordinates' products: it splits over any split of the vectors, down to single products |
| Embeddings.CauchySchwarz | src/embeddings.rs:868-877 | the square of the dot product is at most the product of the squared norms |
| Embeddings.CosineSymmetric | src/embeddings.rs:851-885 | similarity is symmetric |
| Embeddings.SelfSimilarity | src/embeddings.rs:873-877 | a vector that is not negligible has similarity 1 to itself |
| Embeddings.BlendDot | src/embeddings.rs:915-926 | fusion is linear: its dot product with any vector is the weighted sum of the two |
| Embeddings.FuseAt | src/embeddings.rs:915-926 | each coordinate of the fused vector is the weighted mean of the two |
| Embeddings.FuseLeansToPrimary | src/embeddings.rs:915-926 | for equal norms and weight at least one half the fused vector is at least as close to the primary as to the secondary |
| Embeddings.FuseEnds | src/embeddings.rs:915-926 | weights at or beyond the ends give one of the vectors back |
| EmbeddingCodec.EncodeEmbeddingBlob | src/embeddings.rs:1110-1117 | the encoded bytes are the byte 1 and four bytes a word, little end first, and decode to the vector, bit for bit |
| EmbeddingCodec.DecodeEncoded | src/embeddings.rs:1134-1167 | decoding inverts encoding on every vector of 32-bit words |
| EmbeddingCodec.DecodeClasses | src/embeddings.rs:1134-1178 | every row is headed, legacy or exactly one error; re-encoding gives a headed row back and puts the header before a legacy one; the dimension is the decoded length |
| Approvals.ApprovalSigningBytes | src/approvals.rs:444-458 | the buffer built is the framed message whose injectivity is proved |
| Approvals.SigningBytesInjective | src/approvals.rs:444-458 | one message belongs to one id and decision, even for ids containing NUL |
| Approvals.SigningText | src/approvals.rs:444-458 | the message is "ai-memory:approval:v1", the id, and "approve" or "deny", with a NUL between them |
| Approvals.VerifyQuorum | src/approvals.rs:545-591 | succeeds iff both lists are non-empty, every item decodes, is enrolled and verifies, and distinct keys reach the threshold; otherwise the first failing check is named |
| Approvals.FaultIsReal | src/approvals.rs:557-579 | what an item's error says of it: the text does not decode, the key is its own and not enrolled, or it is enrolled and its signature does not verify over this message |
| Approvals.QuorumIsAboutSets | src/approvals.rs:557-579 | reordering or duplicating items or enrolled keys changes nothing |
| Approvals.QuorumIsSound | src/approvals.rs:528-591 | under ideal signatures (section 5.1.7 of RFC 8032) a met quorum is that many distinct enrolled keys that signed this id and decision and no other |
| Approvals.ClampIsImmaterial | src/approvals.rs:521-526 | a threshold of 0 would already ask for one valid signer, so clamping it to 1 changes no verdict |
| Approvals.VerifyQuorumFromSettings | src/approvals.rs:600-612 | under any setting, absent or 0 included, the verdict is that of the number as set, one by default, so success means an enrolled signer and at least as many distinct ones as the setting asks for |
| ExportTaxonomy.ClassifyExportValue | src/export_taxonomy.rs:203-207 | the most severe class matched at any key or string anywhere in the tree, and none iff nothing matches |
| ExportTaxonomy.ClassifyInto | src/export_taxonomy.rs:211-243 | the short-circuiting walk leaves the worst of the accumulator and of every match, as a walk without early returns would |
| ExportTaxonomy.ClassifyItems | src/export_taxonomy.rs:221-228 | the same for the loop over an array |
| ExportTaxonomy.ClassifyEntries | src/export_taxonomy.rs:229-239 | the same for the loop over an object |
| ExportTaxonomy.Fold | src/export_taxonomy.rs:246-251 | folding keeps the most severe class |
| ExportTaxonomy.KeyNamesItsWorst | src/export_taxonomy.rs:267-298 | although the least severe test comes first, a key names the most severe class that any marker in it, or its embedding tag, stands for |
| ExportTaxonomy.PemTexts | src/export_taxonomy.rs:258-264 | a text is private key material iff it holds both a PEM begin mark and a PEM private key mark, wherever they stand |
| ExportTaxonomy.TrimMeans | src/export_taxonomy.rs:274 | trimming takes the spaces at both ends, all of them and nothing else |
| ExportTaxonomy.TagIgnoresCase | src/export_taxonomy.rs:269-281 | an embedding tag is recognised by its three keys and two values whatever the case of either |
| ExportTaxonomy.WorstIsMinimum | src/export_taxonomy.rs:246-251 | that class is a member of least rank, and there is none iff the set is empty |
| ExportTaxonomy.EntryOrderIrrelevant | src/export_taxonomy.rs:229-239 | order and repetition of entries do not matter |
| ExportTaxonomy.NestingNeverLowers | src/export_taxonomy.rs:203-243 | nesting a value in others, to any depth, never lowers its severity |
| Bench.PercentileMonotone | src/bench.rs:1008-1023 | on sorted samples the percentile lies between minimum and maximum and never falls as q grows |
| Bench.PercentileEnds | src/bench.rs:1008-1023 | the 0 and 1 percentiles are the extreme samples |
| Bench.PercentileInterpolates | src/bench.rs:1015-1022 | at the share t of the way from one index to the next the percentile is the weighted mean of the two samples |
| Bench.SortSorts | src/bench.rs:968 | the sorted run is an ascending permutation of the samples |
| Bench.PercentileSummary | src/bench.rs:957-996 | p50, p95 and p99 are those percentiles of the sorted samples and in order, and the verdict is Pass iff p95 is at most 1.10 times the target |
| Bench.SlowerNeverPasses | src/bench.rs:957-996 | making any samples slower, although they are sorted again, lowers no percentile and never turns a Fail into a Pass |
| Egress.HostOfInvertsPrint | src/egress.rs:224-250 | the parser returns exactly the host of every URL printed from scheme, userinfo, plain or bracketed host, port and tail (section 3.2 of RFC 3986); without a scheme it does iff no separator stands later or what follows the first one has the same host |
| Egress.FirstSeparatorWins | src/egress.rs:225-227 | any text with a separator is read from the first one on, whatever stands before it |
| Egress.VerdictDependsOnHost | src/egress.rs:260-292 | the loopback-only verdict is the host's own on every URL with a scheme; without one it is iff no separator stands later or the text after the first one is judged as the host would be |
| Egress.VerdictIgnoresCase | src/egress.rs:205-220 | hosts equal up to letter case get one verdict, wherever the text is read from its start |
| Egress.LoopbackHosts | src/egress.rs:205-220 | the loopback hosts are localhost and localhost.localdomain in any case, loopback addresses, and those in brackets |
| Egress.ModesAreOrdered | src/egress.rs:260-292 | allow permits every target, deny none, and a refusal names class and target; a text without a host is refused |
| Egress.StricterPermitsLess | src/egress.rs:260-292 | tightening the mode never permits a target that was refused |
| Egress.SchemelessIsMisread | src/egress.rs:225-227 | a concrete text with a remote host and no scheme that the loopback-only mode permits |

## Left out

- The bytes of the JSON codec, SHA-256, Ed25519 and base64: arbitrary functions, with `GoodCodec` and `Ideal` the only assumptions about them.
- Partial writes and flush errors, several processes appending to one file, `init` or shutdown while threads are emitting, poisoned locks, and read errors inside verification: the code does not keep the chain consistent there, or reports them before any verdict.
- Append-only flags of the operating system, path resolution, configuration, environment and tracing; texts of errors and refusals are reduced to their kinds.
- AuditRuns.RunsStayClean: speaks of runs without a number taken at 2^64 - 1 and without a restart that cannot read a tail it should link to; `AuditRuns.RunIsCleanIff` covers the others.
- Columns of a memory row the passes neither read nor compare (kind, reflection depth, citations, content ids, encryption, source spans), trust tiers and revision leaves; metadata is always an object, and a null in an update's patch does not occur.
- The redaction of secrets in content, title, tags and metadata before an insert (`src/storage/mod.rs:776-787`): with that screen on, a log text, a reinserted snapshot or even its key can differ from what was passed in.
- RunUndo.RunIsUndone: does not compare versions, clocks, update times, expiries or edges; it gives a condition under which a whole run is undone, the exact ones being those of the single entries in `EntryUndo`.
- Summaries.SummaryProvenance: without the two metadata keys a consolidation adds when the lineage graph is on, the sources' content ids and the propagated trust tier (`src/storage/mod.rs:6826-6848`), because content ids and trust tiers are not modelled.
- Links other than `contradicts`, including the `derived_from` edges of a tombstoning consolidation, and their signatures; a store that does not support invalidating links, and row visibility checks of the store's `get`.
- The embeddings table, the tokenizer and Unicode lower-casing: functions of a `Lens`, fixed for one run.
- Rounding, NaN and infinities of floating point: cosine, fusion, thresholds, confidences and percentiles are over the reals, with square roots given.
- `cosine_similarity_checked`, which only wraps the length test, and the tables of budgets and targets behind the percentile gate.
- `enrolled_approver_keys`, the environment reading of the quorum's settings, and the base64 texts in its result; keys are compared as bytes.
- IP address parsing: the gate takes a predicate on the host text.
- The store-backed consolidation pass, the curator's self-report, and the listing order among rows equal in priority and time beyond their id.
- Autonomy.ConservedOnce: says nothing about log rows in `_curator/rollback`, which later log rows of the same title overwrite; the same holds for `AutonomyRuns.LosersEndMarked`.
- CuratorLog.EntriesKeptIff: takes as given that no cluster member is a row of the log and that ids minted during the run are not those of members.
