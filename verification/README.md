# Models of the algorithmic cores

This project models the algorithms and protocols at the core of the repository in Dafny and proves what they are
for. Each module keeps the form of the code it models: where the source changes state in place, a class
or a loop does so here, and is proved equal to a reference definition or to a declarative property; the
theorems are then about every input, every interleaving or every run.

| module | what it models |
|---|---|
| `PackageCycles` | Tarjan's search for the cycles of the declared package graph |
| `Proposer`, `ReplicateSeed`, `Proposals` | the draw of a sweep: retries, slots, identities, budgets, seeds, the identity ledger and the refusal census, over arbitrary sampling and stamping |
| `TrustRegion` | pulling a drawn point back toward its parent |
| `Posterior` | credits for a sweep's levels, and the ledger that credits and retracts |
| `Journal` | the fsynced line journal under torn writes, failed syncs, process kills and power cuts |
| `PollHook` | the polling hook as a state machine over commits, ticks and promise continuations |
| `JsoncCleaner` | the in-place comment and trailing-comma cleaner |
| `IncludeClosure` | the worklist over quoted includes |
| `ChampionMatrix`, `Promotion` | the judge's champion alignment, path drawdown and prop-firm decision |
| `AxisCoverage` | whether the objective axis was searched |
| `CloneRanges` | which newly paired clones consist of old lines |
| `CudaBuild` | architecture lists and JSON strings of the CUDA build script |
| `Orders`, `Paths`, `Common` | sorting, reachability and datatypes the others share |

`dafny verify dfyconfig.toml` checks everything.

## What was found

Where the code and what is said about it differ, the code is modelled and the difference is stated as a
lemma.

- `desktop/src/hooks.ts:66` says automatic polls never overlap. They never overlap within one group of
  requests (`PollHook.PollsNeverOverlapInGroup`), but a change of key starts a new group while the old
  request is still awaited (`PollHook.PollsOverlapAcrossKeys`). The promise holds over a run exactly when every
  enabled commit with changed dependencies finds no automatic request outstanding
  (`PollHook.PollsNeverOverlapIff`).
- A write that stops half way leaves the handle usable. An append after it succeeds, returns success, and
  makes the file unreadable (`Journal.TornHandleLosesAcknowledgedRecord`); this is the only way an append
  can do that (`Journal.AppendKeepsReadableIff`). Over a run the file opens at every moment exactly when no
  append that writes its whole line finds a partial tail (`Journal.AlwaysOpensIff`); it is enough that no append
  follows a failed one on the same handle (`Journal.CarefulRunOpens`).
- `journal.rs:747-750` says no code path decrements the trial count. Two successive openings can still see
  it drop, when the record of an append that failed was read back before it was durable and a power cut
  took it (`Journal.TrialCountCanDrop`). It can drop exactly when a line beyond the durable part counts trials
  (`Journal.NoPowerCutLowersCountIff`), which a caller reads off the appends that failed to sync
  (`Journal.CountIsSafeIffNothingExposed`). It never drops below its value at the last acknowledged append
  (`Journal.OpeningRecovers`).
- The error for a corrupt line says nothing was modified. A partial tail has been cut off by then
  (`Journal.CorruptFileIsStillCut`): nothing was modified exactly when there was none
  (`Journal.RefusedOpeningModifiesIff`).
- Under one session seed the duplicate branch of the proposer cannot fire on the session's own history
  (`Proposer.KeyIsNew`, `Proposer.SweepKeepsGood`).
- A sweep that refuses to go on has already remembered what it took, and nothing journals that, so the live
  identity state is the reloaded one exactly when it refused at its first slot
  (`Proposer.FailedSweepMatchesJournalIff`; `Proposer.FailedSweepLosesItsRecords` has one for every size of a sweep).
  The refusal at `proposer.rs:653` also leaves without adding the sweep's census to the session's, which the
  one at `proposer.rs:686` does (`Proposer.CensusAfterSweep`).
- Retraction is exact exactly when no sweep is credited with a success after it was retracted
  (`Posterior.RetractionIsExactIff`, `Posterior.LateSuccessIsNotRetracted`).
- `objective.rs:1020-1021` says the under-drawn list is non-empty whenever the axis never ran. On the declared
  table, whatever the build has, that fails only for a bar of zero (`AxisCoverage.DeclaredTableIsNamedIff`,
  `AxisCoverage.ZeroBarNamesNothing`), since the table holds uncapped variants that require nothing; the callers
  at `proposer.rs:492` and `verdict.rs:313` pass the bar of three declared at `space.rs:53`, so for them it holds.
- `judge.rs:1215` asks for zero touches spent; the guard at `judge.rs:1386` asks for no more than the budget,
  since the reservation of the touch is counted before the evaluation. The model follows the guard
  (`Promotion.Promote`).
- `path_stats` measures the fall from the running peak. A reported value is sure to be the largest decline
  between any two months, whatever they were, exactly when it is at most one
  (`Promotion.ReportedDrawdownIsLargestDeclineIff`), and the path rule of `promote` keeps every decline within its
  limit exactly when the limit is at most one
  (`Promotion.RuleBoundsDeclinesIff`).
- Several consecutive commas before a closing delimiter are all removed by the repetition of the JSONC pass, although
  each pass removes only the last (`JsoncCleaner.CleanedPointwise`).

## Model

| member | source | states |
|---|---|---|
| PackageCycles.Cycles | scripts/repo-map/report_map.py:19-41 | the list holds one sorted group for every strongly connected set that contains a cycle, nothing else, each once, and is itself sorted |
| PackageCycles.Search.Visit | scripts/repo-map/report_map.py:22-37 | one recursive visit keeps the search invariant, numbers the node, and either leaves it on the stack with a low-link that names a reachable open node or retires its whole component |
| PackageCycles.Search.Close | scripts/repo-map/report_map.py:30-37 | a node whose low-link is its own number pops exactly its component and reports it if it contains a cycle; any other node stays |
| PackageCycles.SegmentIsScc | scripts/repo-map/report_map.py:30-37 | the part of the stack above a root is a maximal mutually reachable set |
| PackageCycles.ListedIffOnCycle | scripts/repo-map/report_map.py:19-41 | a package is listed if and only if it lies on a directed dependency cycle |
| PackageCycles.CyclicIffOnCycle | scripts/repo-map/report_map.py:36-37 | having more than one member or a self-loop is the same as every member lying on a cycle |
| PackageCycles.ReportIsUnique | scripts/repo-map/report_map.py:38-41 | the report depends on the graph only, not on the order of the search |
| Orders.StringsCompareByFirstDifference | scripts/repo-map/report_map.py:41-41 | strings are ordered by the code point of the first character that differs, a beginning before what it begins |
| Orders.ListsCompareByFirstDifference | scripts/repo-map/report_map.py:41-41 | lists of strings are ordered by the first string that differs |
| JsoncCleaner.JsoncLoads | scripts/repo-map/map_repo.py:233-274 | the repeated in-place rewriting terminates and yields the one-shot cleaning, in which no comma outside strings is followed by only white space and a closing brace or bracket; it refuses only for a comment unterminated in the source itself |
| JsoncCleaner.CleanedPointwise | scripts/repo-map/map_repo.py:237-269 | position by position: comments become blanks that keep newlines, literals stay, and of the rest only commas that dangle before a closing delimiter go |
| JsoncCleaner.CleanedText | scripts/repo-map/map_repo.py:233-274 | length, newlines and every string literal are unchanged in place, no comment remains, and no comma outside strings is followed by only blanks, tabs and line breaks and then a brace or bracket |
| JsoncCleaner.OnlyDanglingCommasGo | scripts/repo-map/map_repo.py:262-269 | character by character: a comma outside strings goes if only comments, commas, blanks, tabs and line breaks stand between it and a brace or bracket, goes only if nothing visible but those does, and every other character outside comments stays |
| JsoncCleaner.LexerReadsTokens | scripts/repo-map/map_repo.py:237-261 | every text is taken apart as it was written: its comments and literals are exactly those of the characters, comments and strings it is written from, whatever they hold |
| JsoncCleaner.OpenCommentIsRefused | scripts/repo-map/map_repo.py:255-259 | a block comment that is opened outside strings and never closed is refused |
| JsoncCleaner.PassKeepsStructure | scripts/repo-map/map_repo.py:270-273 | a pass leaves the literals where they are, so no later pass can meet an unterminated comment |
| JsoncCleaner.PassKeepsCleaned | scripts/repo-map/map_repo.py:270-273 | one pass does not change what the whole cleaning arrives at |
| JsoncCleaner.StableIsCleaned | scripts/repo-map/map_repo.py:272-274 | a text no pass would change is already clean |
| JsoncCleaner.BlankedHasLessInk | scripts/repo-map/map_repo.py:272-273 | a pass that changed something leaves fewer characters other than blanks and newlines, which is why the repetition ends |
| JsoncCleaner.CleanedIsStable | scripts/repo-map/map_repo.py:270-274 | the result is a fixed point of the pass, without comments, with the source's literals in the same places |
| PollHook.RunKeepsInv | desktop/src/hooks.ts:70-140 | the invariants of the hook hold after any interleaving of commits, reloads, ticks, continuations and unmounts |
| PollHook.ShownDataBelongsToKey | desktop/src/hooks.ts:85-89 | data rendered for a key was fetched by a fetcher rendered together with that key, even before the commit of a new one |
| PollHook.PendingIsOutstanding | desktop/src/hooks.ts:94-117 | the pending counter of every group is the number of its requests still outstanding |
| PollHook.TickIffNothingOutstanding | desktop/src/hooks.ts:126-128 | a tick starts a request if and only if the timer runs and nothing of the live group is outstanding |
| PollHook.PollsNeverOverlapInGroup | desktop/src/hooks.ts:66-67 | within one group two requests overlap only if the later one is a manual reload |
| PollHook.PollsNeverOverlapIff | desktop/src/hooks.ts:66-67 | in every run from the first render automatic polls never overlap if and only if every enabled commit with changed dependencies finds none of them outstanding |
| PollHook.OverlapBeginsIff | desktop/src/hooks.ts:120-134 | a step from a state without overlap makes automatic polls overlap if and only if it issues one, by such a commit or a tick, while another has not settled |
| PollHook.PollsOverlapAcrossKeys | desktop/src/hooks.ts:120-134 | a run that fails that condition: across a change of key two automatic polls are in flight at once |
| PollHook.WritesNeverGoBack | desktop/src/hooks.ts:98-114 | once a request wrote the snapshot, no earlier request of its group and none of an earlier group writes again |
| PollHook.OnlyTheLatestWrites | desktop/src/hooks.ts:98-114 | a step that changes the snapshot is a continuation of the latest request of the live group of a mounted, enabled hook |
| PollHook.NothingSpinsForever | desktop/src/hooks.ts:136-139 | when every request of the live group has settled, the hook shows an outcome for the committed key and is not loading |
| PollHook.OutcomeIsShown | desktop/src/hooks.ts:98-139 | over every run, once the last request of the live group of a mounted, enabled hook has settled, the render hands out exactly the data it resolved to, or its failure; until then, once it began, that it is loading |
| PollHook.ViewStep | desktop/src/hooks.ts:99-114 | beginning shows loading and keeps the rest, resolving shows the data, failing shows the failure and keeps the data shown for that key; only the latest request of the live group does any of it, and nothing else between commits changes the view |
| PollHook.DataStaysUntilResolved | desktop/src/hooks.ts:110-114 | over any stretch without a commit or a resolution the rendered data stays, through every failure, reload and tick |
| PollHook.CommitStartsOverIff | desktop/src/hooks.ts:85-134 | a commit installs a new group, and an enabled one issues one automatic request at once, if and only if it is the first or changes interval, key or enabled; a new fetcher alone is only remembered |
| PollHook.RequestsCarryCommittedProps | desktop/src/hooks.ts:91-97 | every request is issued with the key and the fetcher of the props committed last, in the live group, and is automatic unless it is a manual reload |
| PollHook.IdleUntilCommit | desktop/src/hooks.ts:68-92 | while unmounted or disabled nothing is requested, fetched or written until the next commit, whatever arrives |
| PollHook.GateIsOpenIffMounted | desktop/src/pollLifecycle.ts:2-13 | in every run the gate is open exactly while the hook is mounted |
| PollHook.Poll.Issue | desktop/src/pollLifecycle.ts:14-16 | a closed gate runs nothing and a disabled hook issues nothing; otherwise the next number of the live group is issued with the committed key and fetcher |
| PollHook.Poll.OnCommit | desktop/src/hooks.ts:85-134 | one commit is, in this order, the clean-up, the update of the refs and the new start, and keeps the invariant |
| PollHook.Poll.OnUnmount | desktop/src/hooks.ts:129-133 | the clean-up of an unmount closes the gate, drops the group and the timer |
| PollHook.Poll.OnReload | desktop/src/hooks.ts:91-99 | a manual reload issues the next request of the live group, or nothing outside the lifetime or while disabled |
| PollHook.Poll.OnTick | desktop/src/hooks.ts:126-128 | a tick issues a request only when none is pending |
| PollHook.Poll.OnBegin | desktop/src/hooks.ts:99-107 | the first continuation fetches and shows loading only for the current request |
| PollHook.Poll.OnResolve | desktop/src/hooks.ts:107-108 | a resolution is shown, with its data and without an error or a spinner, exactly for the current request; its effect on the machine is pinned at the render by `PollHook.OutcomeIsShown` |
| PollHook.Poll.OnReject | desktop/src/hooks.ts:107-110 | a rejection only marks the request; nothing is shown before its error continuation |
| PollHook.Poll.OnCatch | desktop/src/hooks.ts:110-114 | an error is shown only for the current request, and keeps the data of the same key |
| PollHook.Poll.OnFinally | desktop/src/hooks.ts:115-117 | the last continuation lowers the counter of its own group |
| Journal.OpeningRecovers | crates/neoethos-autoresearch/src/journal.rs:565-719 | after any run a file that opens yields every acknowledged record in order, only submitted records in the order of their submission, at most one beyond the acknowledged per failed append, and a trial count no lower than at the last acknowledged append; it opens unless a whole line stands behind a torn one |
| Journal.RunRecordsSubmitted | crates/neoethos-autoresearch/src/journal.rs:684-719 | the whole lines of the file are a subsequence of the records handed to append on an open handle |
| Journal.AlwaysOpensIff | crates/neoethos-autoresearch/src/journal.rs:684-719 | over every run, with any crashes and reopenings, the file opens at every moment if and only if no append that writes its whole line finds a partial tail |
| Journal.CarefulRunOpens | crates/neoethos-autoresearch/src/journal.rs:565-719 | when no append follows a failed one on the same handle, the file always opens |
| Journal.MemoryIsDisk | crates/neoethos-autoresearch/src/journal.rs:706-718 | after appends that returned success, what is in memory is what the file replays to |
| Journal.AppendKeepsReadableIff | crates/neoethos-autoresearch/src/journal.rs:684-719 | an append leaves a readable file readable if and only if it has no partial tail or this write also stops half way |
| Journal.TornHandleLosesAcknowledgedRecord | crates/neoethos-autoresearch/src/journal.rs:706-718 | a run in which an append is acknowledged and the file then no longer opens |
| Journal.ReopenIsIdempotent | crates/neoethos-autoresearch/src/journal.rs:582-607 | a second opening finds no partial tail and changes nothing |
| Journal.AppendAfterRecovery | crates/neoethos-autoresearch/src/journal.rs:560-564 | after recovery an acknowledged append survives any crash as the recovered records and the new one, never joined to a half-written line |
| Journal.NoPowerCutLowersCountIff | crates/neoethos-autoresearch/src/journal.rs:745-772 | no power cut lowers the trial count of an open handle without failure if and only if no line beyond the durable part counts any trials |
| Journal.CountIsSafeIffNothingExposed | crates/neoethos-autoresearch/src/journal.rs:706-718 | read off a careful run: the count is safe if and only if no terminal record with trials belongs to an append that failed to sync, with nothing since that made the file durable |
| Journal.TrialCountCanDrop | crates/neoethos-autoresearch/src/journal.rs:745-772 | a run that fails that condition: between two openings the trial count falls to zero |
| Journal.NSessionAdditive | crates/neoethos-autoresearch/src/journal.rs:762-772 | the trial count of a concatenation is the sum |
| Journal.AcknowledgedTrialsCount | crates/neoethos-autoresearch/src/journal.rs:745-772 | over any run an acknowledged append raises the count by the trials of a completed, a failed or an abandoned sweep, and leaves it alone for each other kind of record |
| Journal.NSessionMonotone | crates/neoethos-autoresearch/src/journal.rs:762-772 | leaving records out never raises the trial count |
| Journal.OpensIffClean | crates/neoethos-autoresearch/src/journal.rs:618-657 | a file opens if and only if no complete line stands behind a torn one, and then yields exactly the whole lines |
| Journal.LineByLine | crates/neoethos-autoresearch/src/journal.rs:618-657 | for any bytes: a blank line is skipped but numbered, a line that does not decode refuses the file under its number, any other adds its record, and a carriage return before the newline does not matter |
| Journal.LinesAreNumberedByPlace | crates/neoethos-autoresearch/src/journal.rs:667-718 | over every careful run, with any crashes and reopenings, the k-th line carries number k and an open handle goes on with the next one |
| Journal.SomeCodecIsLawful | crates/neoethos-autoresearch/src/journal.rs:685-704 | the assumptions made about serialisation can be met |
| Journal.Journal.OpenFile | crates/neoethos-autoresearch/src/journal.rs:565-675 | opening cuts a partial tail, replays the complete lines, and refuses exactly when one of them does not decode, naming its line; the file is unmodified exactly when it had no partial tail |
| Journal.RefusedOpeningModifiesIff | crates/neoethos-autoresearch/src/journal.rs:622-631 | a refused opening has modified the file if and only if it ended in a partial line |
| Journal.CorruptFileIsStillCut | crates/neoethos-autoresearch/src/journal.rs:622-631 | such a file exists: it is refused for a complete line and loses its partial tail all the same |
| Journal.Journal.AppendRecord | crates/neoethos-autoresearch/src/journal.rs:684-719 | an append writes one line; memory advances only when the sync succeeded, whatever reached the disk, and the trial count then rises by the trials of a sweep's terminal record and of no other |
| ReplicateSeed.ReplicateSeed | crates/neoethos-autoresearch/src/proposer.rs:1257-1274 | the loop computes the fold of the session seed, the levels in order and the replicate, modulo 2^64 |
| ReplicateSeed.SeedsOfReplicatesDiffer | crates/neoethos-autoresearch/src/proposer.rs:1257-1274 | for every session seed and cell, different replicates have different seeds |
| ReplicateSeed.SeedsOfSessionsDiffer | crates/neoethos-autoresearch/src/proposer.rs:1257-1274 | for every cell and replicate, different session seeds give different seeds |
| ReplicateSeed.SeedsOfNeighboursDiffer | crates/neoethos-autoresearch/src/proposer.rs:1257-1274 | cells that differ in one factor have different seeds |
| ReplicateSeed.SeedsOfObjectivesDiffer | crates/neoethos-autoresearch/src/proposer.rs:1257-1274 | cells that differ only in the objective, only in its parameter or only in one refusal level have different seeds |
| ReplicateSeed.InputIsInjective | crates/neoethos-autoresearch/src/proposer.rs:1257-1274 | what is hashed holds the session, every level, the objective, its parameter, every refusal level and the replicate: nothing is skipped |
| ReplicateSeed.FoldSeparatesOnePlace | crates/neoethos-autoresearch/src/proposer.rs:1257-1274 | inputs that differ in exactly one place never collide, since each step loses nothing |
| Proposals.DifferingIsComplete | crates/neoethos-autoresearch/src/proposal.rs:650-700 | the named differences of two identities are empty if and only if the identities are equal |
| Proposals.DifferingNamesTheParts | crates/neoethos-autoresearch/src/proposal.rs:650-700 | exactly the parts that differ are named, an objective standing for its parameter |
| Proposals.ScanFindsEarliest | crates/neoethos-autoresearch/src/proposal.rs:622-647 | the entry a duplicate or a collision names is the earliest one with the key, or with the hash |
| Proposals.IdentityLedger.Observe | crates/neoethos-autoresearch/src/proposal.rs:622-647 | the hash tables answer as a scan of the accepted history: duplicate iff accepted before, naming the first sweep; collision iff the hash was accepted, naming the earliest, which then differs |
| Proposals.ProposerCensus.RecordRefusal | crates/neoethos-autoresearch/src/proposal.rs:733-754 | one refusal raises the total by one and is kept as an example while fewer than thirty-two are |
| Proposals.ProposerCensus.Absorb | crates/neoethos-autoresearch/src/proposal.rs:756-778 | absorbing adds the totals and keeps the first thirty-two examples of both |
| Proposals.RecordAllConserves | crates/neoethos-autoresearch/src/proposal.rs:733-790 | a stream of refusals is counted once each and its first thirty-two are kept |
| Proposals.AbsorbAllConserves | crates/neoethos-autoresearch/src/proposal.rs:756-790 | over all sweeps refusals are counted once each, and the examples are the first thirty-two of the concatenation |
| Proposals.AbsorbAllCounts | crates/neoethos-autoresearch/src/proposal.rs:733-790 | over all sweeps each of the nine causes is counted exactly as often as it occurred, and none under another |
| Proposer.ProposerState.DrawSweep | crates/neoethos-autoresearch/src/proposer.rs:573-768 | the nested loops end and return the reference sweep; the identity state is that sweep's, and its census is absorbed on every exit but the first refusal |
| Proposer.ProposerState.Turn | crates/neoethos-autoresearch/src/proposer.rs:606-763 | one turn: draw, seed with the next replicate, stamp, identity guard, collision or acceptance, in that order and each with its records and counters |
| Proposer.TurnEnds | crates/neoethos-autoresearch/src/proposer.rs:606-763 | every way a turn ends: accepted iff the identity is new; failed iff the draw or the stamp is refused at the last retry; a refused identity is a collision iff the turn is uniform, and the sweep is abandoned iff that makes the collisions as many as the retries |
| Proposer.TurnFiles | crates/neoethos-autoresearch/src/proposer.rs:617-717 | what a turn files: a refused draw or stamp without a hash and with its own reason, a known key as a duplicate, a spent cell as a refusal, and an acceptance nothing but the stamped proposal |
| Proposer.DrawIs | crates/neoethos-autoresearch/src/proposer.rs:851-960 | what is drawn: uniformly in the floor and from the last retry on, the objective owed most at the first attempt elsewhere, otherwise from the posterior an objective with draws left; and exactly when the draw is refused, and for what |
| Proposer.AbandoningTakesTwiceTheRetries | crates/neoethos-autoresearch/src/proposer.rs:692-733 | beyond the floor a slot abandons the sweep only after exactly twice the retries, every attempt of the second half being a uniform draw whose identity was refused |
| Proposer.PosteriorTurnCountsNothing | crates/neoethos-autoresearch/src/proposer.rs:713-717 | a turn beyond the floor with retries left never abandons the sweep and counts no collision |
| Proposer.AbandonedSweepHasCollided | crates/neoethos-autoresearch/src/proposer.rs:713-733 | an abandoned sweep has counted at least as many uniform collisions as there are retries |
| Proposer.AcceptedIffReplicatesLeft | crates/neoethos-autoresearch/src/proposer.rs:662-702 | a proposal that can be stamped is accepted if and only if its cell has fewer than three acceptances in the session |
| Proposer.ProposerState.Take | crates/neoethos-autoresearch/src/proposer.rs:735-763 | an acceptance counts known hashes and paid debts, starts the collisions over, pops the debt it paid and remembers the proposal |
| Proposer.RecordIdentityRefusal | crates/neoethos-autoresearch/src/proposer.rs:117-138 | one more refusal is counted and exactly one record filed, nothing else of the sweep changes: a key seen before adds a duplicate of its first sweep and no refusal, a key never seen a refusal with its cell's replicates and no duplicate |
| Proposer.IdentityRefusalIsFiled | crates/neoethos-autoresearch/src/proposer.rs:104-138 | in terms of the accepted history: the duplicate names the sweep of the earliest acceptance of the key, and is filed if and only if there is one; otherwise the refusal carries the number of acceptances of the cell |
| Proposer.ProposerState.Remember | crates/neoethos-autoresearch/src/proposer.rs:409-415 | an acceptance raises its cell's count, keeps the first sweep of its key and counts the control |
| Proposer.ProposerState.Reload | crates/neoethos-autoresearch/src/proposer.rs:778-795 | reloading is remembering the journalled proposals from nothing |
| Proposer.AbandonRemainingSlots | crates/neoethos-autoresearch/src/proposer.rs:150-169 | every slot from the given one on gets one record, in order, counted by the census |
| Proposer.DrawSlotFacts | crates/neoethos-autoresearch/src/proposer.rs:598-764 | whatever is drawn, a slot ends within twice the retries, and ends in an acceptance of a fresh identity, in abandonment, or in a refusal that touched nothing but records |
| Proposer.DrawSlotsFacts | crates/neoethos-autoresearch/src/proposer.rs:591-768 | however a sweep ends, its proposals stand at their slots and are remembered, and every counted refusal has a record |
| Proposer.CompletedSweep | crates/neoethos-autoresearch/src/proposer.rs:573-768 | a returned sweep has proposals.len() + slots_abandoned = searches, one final record per undrawn slot, only exploration in the floor, debts paid most-owed first by the draws that name them, and counters of acceptances, paid debts and known hashes that match the proposals |
| Proposer.KeyIsNew | crates/neoethos-autoresearch/src/proposer.rs:662-676 | the identity of a candidate is never in the session's own history |
| Proposer.SweepKeepsGood | crates/neoethos-autoresearch/src/proposer.rs:573-768 | a sweep keeps the seeding, budget and cap discipline of the history, and never refuses a duplicate |
| Proposer.SessionIdentity | crates/neoethos-autoresearch/src/proposer.rs:392-406 | over any session of completed sweeps, reloading rebuilds exactly the live state; no identity is accepted twice; each cell at most three times, its k-th acceptance with its k-th seed; the control at most once |
| Proposer.FailedSweepMatchesJournalIff | crates/neoethos-autoresearch/src/proposer.rs:653-690 | after a sweep that refused to go on, live and reloaded state agree if and only if it refused at slot 0, the slot its error names |
| Proposer.FailedSweepLosesItsRecords | crates/neoethos-autoresearch/src/proposer.rs:637-658 | such a sweep exists for every size beyond one search, every session seed and sweep: it takes slot 0 and every draw for slot 1 is refused after the objective; the live state keeps what no journal has, and its refusals, one for each retry, are in no session total |
| Proposer.RefusedSlotFails | crates/neoethos-autoresearch/src/proposer.rs:617-661 | a slot every draw of which is refused uses up exactly the retries, files and counts one refusal for each, takes nothing and ends the sweep, in every configuration and wherever the sweep stands |
| Proposer.CensusAfterSweep | crates/neoethos-autoresearch/src/proposer.rs:653-690 | the session's total rises by the sweep's refusal records, or by nothing if no proposal could be expressed |
| Proposer.RefusalsHaveRecordsByCause | crates/neoethos-autoresearch/src/proposer.rs:117-169 | however a sweep ends, each of the nine counters of its census is the number of its records of that cause |
| Proposer.DebtIsOwed | crates/neoethos-autoresearch/src/proposer.rs:808-826 | the debt lists exactly the uncapped drawable variants below the minimum, most owed at the end it is taken from |
| Proposer.DenseSweepIsFiledInPlace | crates/neoethos-autoresearch/src/session.rs:1127-1145 | a sweep whose proposals stand at their slots comes back from the journal unchanged |
| Proposer.PositionIsSlotIffDrawn | crates/neoethos-autoresearch/src/proposer.rs:798-806 | for any records, a position holds the proposal of that slot if and only if one was drawn for it |
| TrustRegion.Apply | crates/neoethos-autoresearch/src/proposer.rs:1125-1171 | the result differs from the parent in min(drawn difference, maximum) factors, each level is the drawn or the parent's, the given-up factors are those whose two levels the counts of successes and failures tell apart the least, and the count is the number given up; from an expressible point the result is an error if and only if a factor that must be given up has a parent level this build cannot express, and the count then stops at the first of them |
| TrustRegion.SoonerIff | crates/neoethos-autoresearch/src/proposer.rs:1139-1147 | comparing the distances of the posterior means is comparing the counts of successes and failures, cross-multiplied |
| TrustRegion.MeanFacts | crates/neoethos-autoresearch/src/proposer.rs:1110-1118 | the posterior mean lies between nought and one, is one half without evidence, rises with a success and falls with a failure |
| TrustRegion.TrustRegionIsUnique | crates/neoethos-autoresearch/src/proposer.rs:1121-1124 | there is only one point with these properties |
| TrustRegion.OrderIsInOrder | crates/neoethos-autoresearch/src/proposer.rs:1143-1147 | the stable sort by gap of factors in index order is by gap, then by index |
| TrustRegion.New | crates/neoethos-autoresearch/src/space.rs:906-925 | construction accepts exactly expressible levels and otherwise names the first factor that is not |
| Posterior.CreditsFor | crates/neoethos-autoresearch/src/proposer.rs:530-562 | nothing if some outcome is unavailable; otherwise one credit per level of a factor carried by the batch, sorted, successful iff some proposal carrying it passed |
| Posterior.ArmsOfProposal | crates/neoethos-autoresearch/src/proposal.rs:137-155 | a proposal carries one arm for each factor, one for each refusal dimension, its objective and its objective's parameter, and no other |
| Posterior.NothingCreditedIff | crates/neoethos-autoresearch/src/proposer.rs:535-543 | a non-empty batch is credited nothing if and only if some outcome is unavailable |
| Posterior.CreditsAreUnique | crates/neoethos-autoresearch/src/proposer.rs:544-562 | the batch determines its credits, whatever order the hash table yields them in |
| Posterior.BatchAddsOneObservation | crates/neoethos-autoresearch/src/proposer.rs:524-529 | a batch adds exactly one observation to each level it drew, a success or a failure |
| Posterior.LedgerAccounts | crates/neoethos-autoresearch/src/session.rs:707-754 | for every journal each arm has as many observations as credits, and its successes are those of sweeps never retracted plus those credited too late |
| Posterior.RetractionIsExactIff | crates/neoethos-autoresearch/src/session.rs:699-705 | every success of a retracted sweep counts as a failure, for all arms, if and only if no sweep is credited with a success after its retraction |
| Posterior.LateSuccessIsNotRetracted | crates/neoethos-autoresearch/src/session.rs:714-739 | such a journal exists: a success credited behind the retraction of its sweep stays a success |
| Posterior.RetractingAgainChangesNothing | crates/neoethos-autoresearch/src/session.rs:732-739 | retracting the same sweeps again changes nothing |
| Posterior.PosteriorLedger.CreditAll | crates/neoethos-autoresearch/src/session.rs:714-730 | crediting counts each credit and appends it to the sweep's own |
| Posterior.PosteriorLedger.Retract | crates/neoethos-autoresearch/src/session.rs:732-753 | retracting replays the sweep's own successes as failures, once |
| IncludeClosure.Discover | scripts/gpu-bench/hipify_sources.py:87-134 | the worklist ends; the headers are the least set holding the native ones and closed under quoted includes of all units and headers, sorted; it refuses iff a reached file quotes a name that is unresolved, outside the repository or of another kind |
| IncludeClosure.ResolveMeans | scripts/gpu-bench/hipify_sources.py:122-131 | a file beside the including one wins, the native directory is looked in only without it, and what is found is included if and only if it lies in the repository and has a header suffix |
| IncludeClosure.JustifiedIsLeast | scripts/gpu-bench/hipify_sources.py:114-133 | nothing is collected that some closed set could do without |
| IncludeClosure.LeastIsUnique | scripts/gpu-bench/hipify_sources.py:134-134 | the result does not depend on the order of the worklist |
| ChampionMatrix.BuildSessionChampionMatrix | crates/neoethos-autoresearch/src/judge.rs:816-919 | the grid is the ascending intersection of all usable grids, each cell the row's own return of that month, rows in order, every dropped row named in order with what is wrong with it, a shortened grid noted; each refusal has its exact cause and a month never vanishes |
| ChampionMatrix.MatrixIsUnique | crates/neoethos-autoresearch/src/judge.rs:816-919 | the rows determine grid and returns |
| ChampionMatrix.DefectOf | crates/neoethos-autoresearch/src/judge.rs:832-846 | a row is usable iff it is as long as its grid, non-empty, strictly ascending and finite; otherwise the first defect is named |
| ChampionMatrix.ScreenSweep | crates/neoethos-autoresearch/src/judge.rs:678-790 | the champion is the first slot with the highest expectancy among those that passed, and its row is its own under its own configuration, or none, for the one reason that applies |
| Promotion.MonthlyPathStats | crates/neoethos-autoresearch/src/judge.rs:1184-1208 | the largest monthly loss and the largest fall from a running peak over the finite months |
| Promotion.DrawdownIsLargestDecline | crates/neoethos-autoresearch/src/judge.rs:1184-1208 | a drawdown of at most one is the largest decline between any two times, start included, whatever the months were |
| Promotion.ReportedDrawdownIsLargestDeclineIff | crates/neoethos-autoresearch/src/judge.rs:1184-1208 | a reported drawdown is the largest decline for all months if and only if it is at most one |
| Promotion.DrawdownIsAtMostOne | crates/neoethos-autoresearch/src/judge.rs:1184-1208 | when no month loses more than everything, the drawdown lies in [0, 1] |
| Promotion.DrawdownCoversWorstMonth | crates/neoethos-autoresearch/src/judge.rs:1184-1208 | when no month loses more than everything, the drawdown is at least the worst monthly loss |
| Promotion.Promote | crates/neoethos-autoresearch/src/judge.rs:1342-1535 | promoted if and only if every conjunct holds; otherwise the first one that fails is named and all before it hold |
| Promotion.PromotionIs | crates/neoethos-autoresearch/src/judge.rs:1212-1226 | no conjunct fails if and only if the documented inequality holds, written out on numbers, infinities and not-a-number, with the pass rate as a fraction of the months |
| Promotion.ClearingCounts | crates/neoethos-autoresearch/src/judge.rs:1312-1318 | the months that clear the target are counted once each |
| Promotion.OnlyNumbersStay | crates/neoethos-autoresearch/src/judge.rs:1189-1189 | months that are not numbers are left out of the path, all others stay in order |
| Promotion.PathHoldsIffNoDecline | crates/neoethos-autoresearch/src/judge.rs:1356-1377 | the path rule holds if and only if there is a month, the limit is not negative and no decline between two times exceeds it |
| Promotion.RuleBoundsDeclinesIff | crates/neoethos-autoresearch/src/judge.rs:1356-1377 | the path rule keeps every decline within its limit, for all evidence, if and only if the configured limit is at most one |
| Promotion.PromotedIsWithinTheRules | crates/neoethos-autoresearch/src/judge.rs:1209-1230 | under such a limit a promotion implies, for all evidence, no decline beyond the limit and a pass rate at its bar |
| AxisCoverage.AxisBCoverage | crates/neoethos-autoresearch/src/objective.rs:1098-1148 | the scenario found is the first whose group is fully covered, and the list holds, by label, the uncovered variants of no scenario and of the scenario with the fewest, the first declared of two that tie |
| AxisCoverage.EvaluationIsUnique | crates/neoethos-autoresearch/src/objective.rs:1098-1148 | the table, the draws and the bar decide the scenario, the list and its order |
| AxisCoverage.SatisfiedIff | crates/neoethos-autoresearch/src/objective.rs:1027-1029 | satisfied if and only if some variant ran and, for a scenario with variants of its own, every uncapped variant drawable under it reached the bar |
| AxisCoverage.NothingRanIsNamedIff | crates/neoethos-autoresearch/src/objective.rs:1020-1022 | when nothing ran, something is listed if and only if the bar is above zero and an uncapped variant is expressible |
| AxisCoverage.DeclaredTableIsNamedIff | crates/neoethos-autoresearch/src/objective.rs:196-363 | on the declared variants, for every set of available knobs: when nothing ran, something is listed if and only if the bar is above zero |
| AxisCoverage.DeclaredTableIsSatisfiedIff | crates/neoethos-autoresearch/src/objective.rs:196-363 | on the declared variants, for every set of available knobs, all draws and every bar: satisfied if and only if something ran and the bar is met by the selective variant, by every variant whose knob the build has, and by the variant of one scenario; the control need not meet it |
| AxisCoverage.ZeroBarNamesNothing | crates/neoethos-autoresearch/src/objective.rs:1098-1148 | the one failing bar: at zero, none of the declared variants ran and nothing is listed |
| CloneRanges.VerifySide | scripts/repo-map/run_checks.py:65-76 | a side is verified if and only if every line of it lies in a matching block, and the ranges recorded for it spell its lines in the baseline |
| CloneRanges.SpelledTextIsCurrent | scripts/repo-map/run_checks.py:70-74 | the recorded baseline ranges hold exactly the current text |
| CloneRanges.CopiesWereThereBefore | scripts/repo-map/run_checks.py:38-44 | two apart sides of one file have apart baseline lines, so a second copy inserted into the file is never waived |
| CloneRanges.VerifyExistingCloneRanges | scripts/repo-map/run_checks.py:38-81 | an invalid range is an error; otherwise exactly the clones with two old sides are listed, in order, and the rest are introduced |
| CudaBuild.ParseCrossRelease | crates/neoethos-gpu-cuda/build.rs:271-296 | the ascending set of what the tokens name, or a refusal exactly when some token names no positive sixteen-bit number |
| CudaBuild.EmittedListRoundTrips | crates/neoethos-gpu-cuda/build.rs:1086-1095 | the emitted list of every plan reads back as itself and as nothing else |
| CudaBuild.ParseHost | crates/neoethos-gpu-cuda/build.rs:225-269 | the ascending set of ten times major plus minor over the lines that are not blank, or a refusal when one is malformed, zero or too large, or none is there |
| CudaBuild.CapabilityIsOne | crates/neoethos-gpu-cuda/build.rs:232-262 | a line names at most one architecture |
| CudaBuild.CapabilityOf | crates/neoethos-gpu-cuda/build.rs:231-262 | a major number, a point and a minor digit name ten times the one plus the other |
| CudaBuild.TrimIs | crates/neoethos-gpu-cuda/build.rs:228-278 | trimming takes white space off both ends, all of it and nothing else |
| CudaBuild.JsonEscape | crates/neoethos-gpu-cuda/build.rs:663-681 | the loop escapes character by character |
| CudaBuild.EscapeRoundTrips | crates/neoethos-gpu-cuda/build.rs:663-681 | a reader by section 7 of RFC 8259 gets every string back, and stops at the closing quote |
| CudaBuild.EscapedHasNoControl | crates/neoethos-gpu-cuda/build.rs:1084-1084 | no control character remains, so the text stays on its line |
| CudaBuild.ArrayRoundTrips | crates/neoethos-gpu-cuda/build.rs:654-661 | a rendered array of any strings reads back as itself |

## Left out

- File, process, network and clock calls: their outcomes are inputs (what a write or sync did, which files exist, what the differ matched).
- Sampling, the posterior draw, materialisation and stamping in the proposer: arbitrary functions of slot and attempt, and of the proposal. The repair of the horizon and the refusal vector inside `draw_one`, with its two counters, and the validation of numerical inputs before the first draw are not modelled.
- SHA-256, serde, UTF-8 decoding and `json.loads`: the journal's codec is an arbitrary lawful one, and the JSONC model ends with the cleaned text.
- Floating point: reals are exact. Comparisons with infinities and not-a-number are kept in `Promotion` and `ChampionMatrix`; rounding, overflow and the statistics that need roots or logarithms (`mean_and_se`, deflated Sharpe, PBO) are inputs.
- The risky arm of `promote`, the stage-one screen and the frontier report: first-failure chains over outside statistics.
- Labels, messages, rendering and the static tables of variants and refusals, except which variants are declared, with which scenario, cap and required knobs: elsewhere labels are arbitrary strings.
- `useSpotStream` and `useAccountStream` in `hooks.ts`; a promise that never settles is a request that stays outstanding.
- Recursion limits, memory limits and overflow of counters, except the seed arithmetic modulo 2^64, the eight-bit replicate counter and the sixteen-bit architecture check.
- TrustRegion.Apply: the examples noted in the census are not modelled, only the count.
- IncludeClosure.Discover: the translation units and native headers are inputs; reading them out of the build scripts is not modelled.
- CloneRanges.VerifyExistingCloneRanges: that the differ's runs are ascending and equal is assumed of the differ.
- Journal.Journal.OpenFile: errors of opening, truncating or syncing the file itself are not modelled; the file is there, or empty.
- PollHook.Poll.OnCommit: a React commit is one step, and continuations run between commits; batching inside React is not modelled.
- CudaBuild.ParseHost: lines are split at newlines; a carriage return before one is white space and is trimmed.
