# Explorer verification

A Dafny model of the parts of the Polkadex explorer whose correctness does not show in any one function: what a
signed batch does to a democracy lock, which motion an event of the collective resolved, whether rendered Markdown
nests, whether a resumable migration, a windowed gap scan, a repair schedule and keyset paging miss nothing, and what
holds over every run of the runners, feeds, threads, mail watermarks and merged lists. Each module follows one source
file (or one concern of `db.js`); the imperative ones are methods over arrays, maps and class fields, proved equal to
value-level functions about which the theorems are stated.

| Theme | Modules |
|---|---|
| Lock release and balances | `DemocracyPallet` (the pallet as a step machine), `LockActions`, `UnbondingSchedule`, `FeePreflight` |
| Council motions | `CollectiveMotions` (attribution), `CollectiveRuns` (the chain, the crawl, the truth), `MotionLocator` (two bisections) |
| Markdown | `TagWords` (nesting), `Emphasis` (delimiter stack, a simplification of section 6.2 of CommonMark 0.31.2), `InlineSpans`, `CodeSpans` (section 6.1), `MarkdownBlocks`, `PostHtml` (the whole post) |
| Indexer | `IdMigration`, `BlockGaps`, `GapScheduling`, `EventTable`, `AccountLinks`, `EventPages` |
| Runs and protocols | `GovRefresh`, `LiveFeeds`, `DemocracyLive`, `DiscussionThreads`, `EmailEvents`, `NewlyResolved`, `MergeRows` |
| Shared | `Util`, `Sorting` (stable sort) |

Check everything with `dafny verify dfyconfig.toml` (Dafny 4.11).

## Where the code does not do what it says

These are proved, each with a concrete case and the exact condition:

- Motion rows. The event table's key (collective, hash, block, kind) keeps one row when two motions of one call emit
  the same kind in one block. Decided the same way, one of the two shows a wrong outcome; closed in one block with
  different outcomes, one of them loses its tally. Every outcome is true if and only if no two motions of a hash were
  decided alike in one block, and every outcome and tally if and only if, besides, no two closed in one block
  (`CollectiveRuns.CrawledRowsAreTrue`, `ClashHappens`, `SharedTallyHappens`).
- `resolveMissingCollectiveMotions` may mark a motion that is still open as gone: when its row has no block yet and the
  live read is from before its proposal. It shows as gone exactly from a live read that marked it until a write that saw
  it open (`CollectiveRuns.OpenIsNotMarked`, `LeftStorageMeans`, `OpenMayBeMarked`).
- `findProposalBlock` answers block 0 when the count at block 0 cannot be read (`MotionLocator.FindProposalBlock`,
  `UnreadableGenesisIsAnswered`). Its one caller drops an answer of 0 and searches again later (server.js:7480-7486).
- `getEdgeGaps` never reports a missing prefix when block 0 is claimed (`BlockGaps.ReportsExactlyWhen`,
  `GenesisHoleIsUnreported`).
- `feeShortfall`'s top-up, said to be always enough (lib/fee-preflight.js:41), falls short exactly when an account
  below the existential deposit, whose locks and amount are below it too, reaches it with the fee on top; the figure
  shown, rounded up to four decimals, by the same condition on what it reaches (`FeePreflight.TopUpIsLeast`,
  `ShownTopUpIsEnough`, `TopUpBelowDepositFallsShort`).
- `makeSyncRunner` serves a name never again after a synchronous throw on the first pass of an idle slot
  (`GovRefresh.StuckExactlyWhen`, `StuckHappens`, `StuckForever`). Its four callers pass async functions
  (server.js:6780-6783), which never throw before they return.
- `dropVoting` of lib/collective-live.js does not catch what an unsubscribe function throws. When one throws at a
  replacement, the callback ends there, the slot keeps it, and the next drop or stop calls it again. Once stopped, every
  function was called exactly as often as it should if and only if none threw at a replacement before
  (`LiveFeeds.UnguardedCalledOnceWhen`, `ThrownIsCalledTwice`). The drop of lib/democracy-live.js catches it, and there
  each is called exactly once whatever throws (`EachCalledOnce`).
- `selectNewlyResolved` forgets what exceeds its memory. Over the runs of a table from an empty memory no id is
  announced twice if and only if all its resolved ids fit in the memory (of at least one), or the limit lets nothing be
  announced; past that, every tick after the first announces something, and within two polls more than there are ids
  some id was announced twice (`NewlyResolved.NeverTwiceExactlyWhen`, `ForgottenRepeats`, `ForgottenCase`).

One sum is right only by a rule of its writer. `countEventsByAddress` (db.js:1756-1760) assumes that no event links its
signer. That holds for every event the scanner writes, since server.js:8753-8755 gives an event outside an extrinsic the
signer "System" (`AccountLinks.TotalIsListing`). The one-time import of the old JSON file (db.js:2909) stores events
unchecked: one with another signer outside an extrinsic, naming that signer, would count twice
(`AccountLinks.TotalIsExactWhen`, `UnsignedSignerCountsTwice`).

## Model

| member | source | states |
|---|---|---|
| `DemocracyPallet.StepKeepsWellFormed` | lib/lock-actions.js:19-25 | every pallet call keeps one vote per referendum and a lock covering all votes and the prior |
| `DemocracyPallet.RemoveAtMembers` | lib/lock-actions.js:19-22 | removeVote takes out that vote and no other |
| `LockActions.ScanVotes` | lib/lock-actions.js:84-103 | the first loop collects exactly the removable, cancellable, waiting and carried votes and both maxima |
| `LockActions.DemocracyActions` | lib/lock-actions.js:67-122 | the plan's figures are those the step machine's rules give for the snapshot |
| `LockActions.PlanLists` | lib/lock-actions.js:83-103 | the plan removes exactly the votes whose referendum is over, with the date each holds on to, offers to cancel those still going, and waits for these and the unknown ones |
| `LockActions.LockNowIs` | lib/lock-actions.js:83-107 | the lock is the one read from the balances, or else the largest of the votes and the prior |
| `LockActions.LeadingUnlockWhen` | lib/lock-actions.js:107-109 | the batch starts with an unlock exactly when a prior has expired and a removed vote would carry it on |
| `LockActions.DemocracyUnlockSpec` | lib/lock-actions.js:180-198 | what the button refuses, its caption, and the exact calls of its batch in order |
| `LockActions.UnlockButton` | lib/lock-actions.js:180-198 | the calls offered for a snapshot are its batch, whose run leaves the lock the plan names; nothing is offered only when there is nothing to remove or free, or the wallet is not the owner's |
| `LockActions.BatchRuns` | lib/lock-actions.js:184-197 | no call of the batch fails, at the planned block or any other, and the state it ends in |
| `LockActions.BatchIsExact` | lib/lock-actions.js:104-121 | run at the planned block the batch leaves exactly lockAfter locked, so freed is exact |
| `LockActions.BatchLaterKeepsPromise` | lib/lock-actions.js:104-121 | included at any later block the batch succeeds and leaves at most the promised lock |
| `LockActions.PlanIsOptimal` | lib/lock-actions.js:79-121 | no sequence of unlock and removeVote calls over the removable votes leaves less locked at that block |
| `LockActions.RefusedMeansNothingToFree` | lib/lock-actions.js:116-117 | when no unlock is offered, no allowed call sequence lowers the lock |
| `LockActions.LeadingUnlockMatters` | lib/lock-actions.js:107-109 | without the leading unlock the same removes can leave more locked: a case |
| `LockActions.DemocracyLockPlan` | lib/balance-locks.js:123-147 | unlockAt is the latest end of the prior and the finished votes; canUnlockNow exactly when all are finished and past, and then the planner leaves no lock |
| `LockActions.CanUnlockNowFreesAll` | lib/balance-locks.js:123-147 | when the date panel says everything can come off, the planner promises a lock of 0 |
| `UnbondingSchedule.Unbonding` | lib/lock-actions.js:46-63 | the loop splits the chunks into the withdrawable sum and the dated, sorted rest |
| `UnbondingSchedule.SplitByEra` | lib/lock-actions.js:46-53 | with the current era known, or else the active one, exactly the chunks up to it are withdrawable, and every other counts its eras from it |
| `UnbondingSchedule.NothingWithoutEra` | lib/lock-actions.js:46-53 | with neither era known nothing is withdrawable and nothing is dated |
| `UnbondingSchedule.DatesAre` | lib/lock-actions.js:54-61 | a date counts from the active era's start, or from now by the eras left, and needs an era length |
| `UnbondingSchedule.NothingIsLost` | lib/lock-actions.js:46-63 | withdrawable and pending add up to all chunks, in value and number |
| `UnbondingSchedule.DatesNeverDecrease` | lib/lock-actions.js:54-62 | pending chunks are ordered by era, dates never decrease, and all are dated or none |
| `UnbondingSchedule.ReleasesWhatIsDue` | lib/lock-actions.js:46-53 | between two eras exactly the chunks that fell due become withdrawable |
| `FeePreflight.NoShortfallMeansSucceeds` | lib/fee-preflight.js:72-83 | no shortfall exactly when the keep-alive fee withdrawal and then the transfer succeed; neverIncluded exactly when the pool accepts what the withdrawal refuses |
| `FeePreflight.EnoughExactly` | lib/fee-preflight.js:72-83 | an added amount lets the account pay exactly when free then covers the fee and the locks and amount, and the existential deposit once that is reached |
| `FeePreflight.TopUpIsLeast` | lib/fee-preflight.js:72-83 | no smaller top-up ever suffices; topUp suffices if and only if it is not that free and the locks and amount are below the existential deposit and the sum with the fee is not |
| `FeePreflight.ShownTopUpIsEnough` | lib/fee-preflight.js:41-43 | the figure rounded up to four decimals is within one step of what is needed, always enough from the existential deposit, and below it if and only if it does not reach the deposit by less than the fee |
| `FeePreflight.TopUpBelowDepositFallsShort` | lib/fee-preflight.js:49-52 | the failing family is real |
| `FeePreflight.PanelAddsUp` | lib/balance-locks.js:65-80 | with a payable fee: transferable, withheld and untouchable parts add up to free |
| `FeePreflight.TransferableIsSendable` | lib/balance-locks.js:65-80 | the sendable amounts at the panel's fee are exactly those up to Transferable less the fee, for both toggles |
| `FeePreflight.PanelNeedsFee` | lib/balance-locks.js:69-76 | canPayFee exactly when the pallet would withdraw the fee; otherwise nothing is shown transferable and a top-up is |
| `CollectiveMotions.GroupByHash` | lib/collective-motions.js:46-110 | each hash's motions, in proposal order |
| `CollectiveMotions.FindOwner` | lib/collective-motions.js:46-110 | the walk over a group returns the owner the specification names |
| `CollectiveMotions.AssignEvents` | lib/collective-motions.js:46-110 | each motion is given exactly its events |
| `CollectiveMotions.AttributeMotionEvents` | lib/collective-motions.js:46-110 | the rows returned are those of the value-level attribution |
| `CollectiveMotions.RowShows` | lib/collective-motions.js:84-110 | what each row shows: with events their highest outcome, the block and time of the Closed or latest one and its tally; without, proposed or gone from storage with the live tally |
| `CollectiveMotions.WalkFindsLast` | lib/collective-motions.js:46-110 | over a sorted group the walk stops at a candidate no candidate comes after |
| `CollectiveMotions.OwnerIsLatest` | lib/collective-motions.js:46-110 | an event belongs to the latest motion of its hash proposed at or before it |
| `CollectiveMotions.OwnerWithoutCandidate` | lib/collective-motions.js:74-79 | an event with no motion proposed before it goes to the one motion of its hash, and to none if there are more |
| `CollectiveMotions.OwnerInAnyOrder` | lib/collective-motions.js:51-79 | to whom an event goes does not depend on the order in which the motions were read |
| `CollectiveMotions.OneHashReadIsSlice` | db.js:2369-2385 | reading only some hashes gives exactly their slice of the full list |
| `CollectiveRuns.ReachableConsistent` | lib/collective-motions.js:1-35 | on every run of a collective, events lie between their motion's proposal and the next of its hash, and tell its fate |
| `CollectiveRuns.CollectiveStore.UpsertCollectiveMotion` | db.js:2308-2333 | the motion row after an upsert: only known fields overwrite |
| `CollectiveRuns.CollectiveStore.InsertCollectiveMotionEvent` | db.js:2337-2350 | the event row after an insert: a known position is never lost |
| `CollectiveRuns.CollectiveStore.ResolveMissingCollectiveMotions` | db.js:2275-2290 | with the caller's word for the live set, it marks what the rows show as proposed and the set does not list; without, nothing |
| `CollectiveRuns.StoredMotionIsLast` | db.js:2308-2333 | after any writes each column of a stored motion holds the last known value written |
| `CollectiveRuns.StoredEventIsLast` | db.js:2337-2350 | so does each column of a stored event |
| `CollectiveRuns.CrawlFits` | db.js:2308-2350 | after any truthful crawl, in any order and repetition, both tables are true and keep every position seen |
| `CollectiveRuns.ReadIsIndexed` | db.js:2369-2377 | a crawl that missed nothing reads back complete and positioned |
| `CollectiveRuns.ReadIsTallied` | db.js:2337-2350 | a crawl that missed nothing reads back only tallies that were really reached, and all of them |
| `CollectiveRuns.EventGoesHome` | lib/collective-motions.js:46-110 | each stored event goes to the motion it really resolved |
| `CollectiveRuns.CrawledRowsAreTrue` | lib/collective-motions.js:46-110 | every row shows the real outcome if and only if no two motions of a hash were decided alike in one block, and the real outcome and tally if and only if, besides, no two closed in one block |
| `CollectiveRuns.UndecidedRowShows` | lib/collective-motions.js:101-106 | after a truthful, complete crawl a motion open or dropped shows as proposed exactly while its row has not left storage, else as gone, with the stored live tally |
| `CollectiveRuns.LeftStorageMeans` | db.js:2275-2333 | a stored motion has left storage exactly when some live read marked it and no later write saw it open |
| `CollectiveRuns.OpenIsNotMarked` | db.js:2281-2286 | an open motion is marked only by a live read from before its proposal while its block is unknown |
| `CollectiveRuns.OpenMayBeMarked` | db.js:2281-2286 | and that happens: a case |
| `CollectiveRuns.MissingIsMarked` | db.js:2281-2288 | once everything is stored, a live read that can judge an undecided motion and does not list it marks it |
| `CollectiveRuns.ClashMakesOneWrong` | db.js:2337-2350 | with two decided alike in one block some row shows a wrong outcome |
| `CollectiveRuns.SharedTallyMakesOneWrong` | db.js:2337-2350 | with two closed in one block some row shows no tally for a motion that closed with one |
| `CollectiveRuns.ClashHappens` | db.js:2337-2350 | a reachable run decides two alike in one block |
| `CollectiveRuns.SharedTallyHappens` | db.js:2337-2350 | a reachable run closes two in one block without deciding any two alike |
| `MotionLocator.FindProposalBlock` | lib/collective-motions.js:126-143 | whatever the hints, the least block reaching index + 1; never a wrong block when reads fail, but for an unreadable block 0; the probe cap never fires up to 2^64, and no more blocks are asked for |
| `MotionLocator.UnreadableGenesisIsAnswered` | lib/collective-motions.js:133 | a case: block 0 unreadable, the motion proposed later, and the answer is 0 |
| `MotionLocator.FindCloseBlock` | lib/collective-motions.js:152-171 | a found block is gone with the one before open; a motion open on one interval is placed exactly within the probe cap |
| `TagWords.NestedWrap` | lib/discussion-markdown.js:477-491 | tags around a nested word give a nested word |
| `Emphasis.SearchOpener` | lib/discussion-markdown.js:496-522 | the backward search finds the innermost stacked opener of the character, or none |
| `Emphasis.CloseInPlace` | lib/discussion-markdown.js:496-522 | one closer's loop, in place, equals the value-level matching |
| `Emphasis.MatchEmphasis` | lib/discussion-markdown.js:496-522 | the in-place loop equals the value-level matching |
| `Emphasis.MatchAllNested` | lib/discussion-markdown.js:493-522 | whatever the delimiters, the rendered word nests, and so does what every stacked opener encloses |
| `Emphasis.MatchAllConserves` | lib/discussion-markdown.js:496-522 | each run's characters are shown or stand for its tags: one for em, two for strong and del |
| `Emphasis.MatchAllTags` | lib/discussion-markdown.js:508-516 | tildes make del elements only, stars and underscores em and strong ones only |
| `Emphasis.PairRenders` | lib/discussion-markdown.js:499-518 | a text between two runs is inside as many strong elements as pairs go into both, and an em one if one more is left of each; the rest shows |
| `Emphasis.MatchAllCapped` | lib/discussion-markdown.js:520 | no more openers than the cap ever wait |
| `Emphasis.MatchAllMissesNone` | lib/discussion-markdown.js:496-522 | a pair left unmatched was crossed by a match in between, or stood behind the opener cap; every pair joins equal characters |
| `InlineSpans.ScanRun` | lib/discussion-markdown.js:468-477 | the whole run of the character is taken, as one delimiter with its flanks, or as plain text when it is tildes that are not two |
| `InlineSpans.FlanksAre` | lib/discussion-markdown.js:417-425 | which of its sides are spaces, punctuation or other decides whether a run opens or closes, and an underscore inside a word does neither |
| `InlineSpans.ScanLink` | lib/discussion-markdown.js:443-466 | found exactly when a link is accepted here, as one element over exactly its source; otherwise nothing changes |
| `InlineSpans.AcceptedWhen` | lib/discussion-markdown.js:443-460 | where a link, an image link or a bare URL is accepted |
| `InlineSpans.TextBitIs` | lib/discussion-markdown.js:441-478 | a backslash shows the punctuation after it, a run of tildes shows whole, any other character shows itself |
| `InlineSpans.LinkWord` | lib/discussion-markdown.js:449-452 | one anchor around the link's own text rendered with links off, or its stand-in, with no anchor inside |
| `InlineSpans.ScanSpans` | lib/discussion-markdown.js:427-482 | the tokens are those of the value-level scan and tile the line, each standing for its piece |
| `InlineSpans.ScanIsTheOnlyCover` | lib/discussion-markdown.js:427-482 | there is exactly one way to cut a line into escapes, text, breaks, runs and links where every accepted link is its own element and no text or delimiter stands in its place, and the scan finds it |
| `InlineSpans.RenderSpans` | lib/discussion-markdown.js:427-491 | whatever the line and its links, the rendered word nests and has one anchor for each link of the scan, none when links are off |
| `InlineSpans.AnchorsAreLinks` | lib/discussion-markdown.js:427-491 | matching adds no anchor: a line has one for each link of its scan, and none with links off |
| `CodeSpans.FindRuns` | lib/discussion-markdown.js:325-357 | all maximal backtick runs of the line, in order |
| `CodeSpans.NextOfSameLength` | lib/discussion-markdown.js:325-357 | the right-to-left index gives each run's next run of the same length |
| `CodeSpans.ExtractCode` | lib/discussion-markdown.js:325-357 | spans and text tile the line, and each opened run pairs with the next of its length |
| `MarkdownBlocks.RenderList` | lib/discussion-markdown.js:227-271 | the list holds its lines in order, as items, inner items and continuations, and stops only where it must |
| `MarkdownBlocks.RenderTable` | lib/discussion-markdown.js:210-221 | the table takes its two header lines and every following line with a pipe |
| `MarkdownBlocks.RenderFence` | lib/discussion-markdown.js:281-290 | a fenced block runs to the first line that closes it, or to the end |
| `MarkdownBlocks.RenderQuote` | lib/discussion-markdown.js:303-309 | a quote takes the whole run of quoted lines and renders them one level deeper |
| `MarkdownBlocks.RenderBlock` | lib/discussion-markdown.js:281-313 | kinds are tried in the source's order; only a plain line is text |
| `MarkdownBlocks.RenderBlocks` | lib/discussion-markdown.js:273-318 | the post falls into blocks that fit their lines, each as long as it can be, with only blank lines between |
| `MarkdownBlocks.NoLineIsLost` | lib/discussion-markdown.js:273-318 | every line that is not blank is in the blocks as often as in the post, in order |
| `MarkdownBlocks.DocNested` | lib/discussion-markdown.js:210-318 | the HTML of any document nests around its texts |
| `MarkdownBlocks.BlockElement` | lib/discussion-markdown.js:255-316 | the element of each kind of block, list type and heading level |
| `MarkdownBlocks.DocShows` | lib/discussion-markdown.js:210-318 | the HTML holds a text for exactly the lines that are text |
| `MarkdownBlocks.QuotesAreBounded` | lib/discussion-markdown.js:303-309 | quotes never nest deeper than the limit, whatever the post asks for |
| `PostHtml.RenderInline` | lib/discussion-markdown.js:359-365 | code spans out, the rest rendered, code back: the word is that of the cut, nests, and has one anchor for each link |
| `PostHtml.ShownCodeIs` | lib/discussion-markdown.js:347-350 | a code span shows its characters with line breaks as spaces, less one blank at each end when both are blank and something else is there |
| `PostHtml.CodesComeBack` | lib/discussion-markdown.js:325-365 | each numbered placeholder comes back as its own code span, and the text between unchanged |
| `PostHtml.RestoredLeavesNone` | lib/discussion-markdown.js:362-364 | no placeholder character is left in the result |
| `PostHtml.RestoredReads` | lib/discussion-markdown.js:359-365 | putting code back leaves every tag around it as it was |
| `PostHtml.PostNested` | lib/discussion-markdown.js:210-365 | the HTML of a whole post nests with its texts in place: rendered inline with their links and code spans, or as they are in code blocks |
| `IdMigration.RewriteKeepsEvents` | lib/id-migration.js:196-240 | the rewrite loses no (block hash, event index), keeps one row for each, leaves no legacy id, and touches nothing else |
| `IdMigration.RewriteOnColumns` | lib/id-migration.js:196-240 | from the columns alone: every row that was not legacy, one row of each legacy row's new id, and nothing else |
| `IdMigration.GoalOnColumns` | lib/id-migration.js:183-347 | from the columns alone, for all three tables: of the rewritten rows exactly those stay whose hash is unusable, that have no height, whose height has no usable stored hash, or whose hash is the stored one |
| `IdMigration.RewriteTwice` | lib/id-migration.js:196-240 | a second rewrite changes nothing |
| `IdMigration.ChunkStep` | lib/id-migration.js:316-336 | a chunk delete keeps the goal and moves the cleared height up |
| `IdMigration.GoalTwice` | lib/id-migration.js:183-347 | the atomic rewrite and fork delete is a fixed point |
| `IdMigration.GoalHasNoForks` | lib/id-migration.js:260-268 | at the goal no chunk finds anything to delete |
| `IdMigration.Migration.Migrate` | lib/id-migration.js:183-347 | stopped anywhere between its commits and for every chunk size, the run keeps the goal and cursor; finished, each table holds exactly the rewritten rows that agree with the stored hash of their height; it finishes, and a run that saves a chunk goes on from there |
| `IdMigration.Migration.RunSchedule` | lib/id-migration.js:183-347 | any schedule of crashes and resumes ends at the goal of the starting database once a run finishes, and one does once there are more runs than heights, each long enough to save a chunk |
| `IdMigration.Migration.DeleteForkRows` | lib/id-migration.js:377-404 | at one height only rows of the canonical hash stay; a bad hash is refused |
| `BlockGaps.LeadIsHoles` | db.js:1610-1623 | the LEAD pairs are exactly the maximal holes, newest first |
| `BlockGaps.WindowIsExact` | db.js:1596-1625 | with snapped bounds a windowed scan returns exactly the real, maximal holes its window reaches |
| `BlockGaps.LimitKeepsNewest` | db.js:1596-1625 | the row limit keeps the newest holes, and drops some only when it is full |
| `BlockGaps.TilingFindsAll` | db.js:1586-1605 | scans whose windows cover the missing heights together find exactly the holes of a full scan |
| `BlockGaps.InteriorIsMissing` | db.js:1596-1625 | a height lies in a reported hole exactly when it is missing between the first and last row |
| `BlockGaps.ReportsExactlyWhen` | db.js:1664-1676 | interior and edge gaps are exactly the missing heights of the claimed range, if and only if block 0 is not both claimed and missing |
| `BlockGaps.GenesisHoleIsUnreported` | db.js:1669-1671 | the failing family is real |
| `BlockGaps.SizesAddUp` | db.js:1596-1676 | stored rows and reported sizes add up to the claimed range, short by exactly that prefix |
| `GapScheduling.Memory.RecordAttempt` | lib/gap-scheduling.js:90-96 | the attempts map after an attempt |
| `GapScheduling.Memory.Tick` | lib/gap-scheduling.js:44-96 | one tick chooses and records as the value-level step does |
| `GapScheduling.ChoiceIs` | lib/gap-scheduling.js:44-72 | null exactly when all holes are exhausted; otherwise the newest live hole on even ticks, the oldest on odd ones |
| `GapScheduling.FailuresAreTries` | lib/gap-scheduling.js:90-96 | a hole's count never exceeds the failed tries made at it |
| `GapScheduling.ChoiceBelowLowers` | lib/gap-scheduling.js:73-96 | a tick spent below a height lowers the measure of what is left there |
| `GapScheduling.SettledStays` | lib/gap-scheduling.js:44-96 | once every hole below a height is filled or exhausted, it stays so |
| `GapScheduling.NoHoleStarves` | lib/gap-scheduling.js:53-72 | on full scans, within 2 (maxAttempts + 1) ticks per missing height, every hole below a stored height is filled or exhausted, whatever the head opens |
| `GapScheduling.HandedHolesSettle` | lib/gap-scheduling.js:53-72 | under any row limit, within as many ticks and two more there is one at which every hole below the height that is handed over is exhausted |
| `GapScheduling.AttemptsUnlessExhausted` | lib/gap-scheduling.js:44-72 | a limited tick attempts nothing if and only if the holes handed over are all exhausted |
| `GapScheduling.OlderHolesStarve` | lib/gap-scheduling.js:57-71 | once the newest holes the limit hands over are exhausted, no tick attempts anything until the head opens a new one, whatever live holes lie below |
| `GapScheduling.OlderHoleStarves` | lib/gap-scheduling.js:57-71 | a case: two holes, the newer exhausted, a limit of one, and the older never chosen |
| `EventTable.Table.InsertEvents` | db.js:1687-1707 | the table and links after one insert: an event already stored keeps its row |
| `EventTable.LinksAreAccounts` | db.js:1687-1705 | storing a list adds exactly one link for each account of each event with a hash and a block, keyed by the stored row |
| `EventTable.StoringAgainIsIdle` | db.js:1693-1707 | storing any stored events again, in any order, changes nothing |
| `EventTable.StoringOnlyAdds` | db.js:1693-1707 | inserts never change or move a row and never remove a link |
| `EventTable.InsertsKeepJoin` | db.js:1703-1704 | the rowid and hash join never drops a link, no two events share a row, and rows are numbered without gaps |
| `EventTable.LinksCarryTheirBlock` | db.js:1687-1691 | while a hash names one block, a link's block is its event's |
| `AccountLinks.AttachAccounts` | lib/account-links.js:43-61 | in place, each event gets the accounts the rules give it |
| `AccountLinks.LinkedExactlyWhen` | lib/account-links.js:43-61 | an event links an account exactly when a string it names is that account and no rule excludes it: payouts, fee plumbing, the signer, the fee's deposit |
| `AccountLinks.CollectMembers` | lib/account-links.js:58-59 | the accounts are the normalised strings that are not dropped, each once |
| `AccountLinks.SignerIsNeverLinked` | lib/account-links.js:50-59 | an event of a signed extrinsic never links its signer |
| `AccountLinks.LocalToBlock` | lib/account-links.js:43-61 | what an event links to depends on its own block's events only |
| `AccountLinks.ListedByBlock` | db.js:1727-1742 | an account's page lists its events newest block first, and within a block the later row first |
| `AccountLinks.TotalIsListing` | db.js:1756-1760 | over what the scanner writes (no signer but "System" outside an extrinsic) the total is the number of events listed, for every account in normal form |
| `AccountLinks.TotalIsExactWhen` | db.js:1756-1760 | for any table the total equals the listing if and only if no event outside an extrinsic carries the account as signer and, not being a payout, names it |
| `AccountLinks.UnsignedSignerCountsTwice` | db.js:1756-1760 | the sum needs that rule: an event stored with a signer outside an extrinsic that names its signer is counted twice |
| `AccountLinks.Index.InsertEventAccounts` | db.js:1709-1715 | the links after inserting a chunk's rows |
| `AccountLinks.Index.BackfillTick` | lib/account-links.js:66-83 | one tick's links, cursor, floor and completion |
| `AccountLinks.TickLinksAChunk` | lib/account-links.js:70-82 | a tick links exactly the events of the newest blocks left, saves the block below, and is the last when it reaches the lowest |
| `AccountLinks.CompleteIsOnePass` | lib/account-links.js:63-83 | for all chunk sizes, crashes and arrivals, a complete backfill leaves exactly the links of one pass over everything |
| `AccountLinks.BackfillEnds` | lib/account-links.js:63-83 | it completes within one stored tick per block of its span |
| `EventPages.PageIsNewest` | db.js:1727-1742 | merging two limited branches gives exactly the newest rows of both below the cursor |
| `EventPages.FollowDescends` | db.js:1411-1418 | following cursors never repeats a row and is strictly newest first, whatever is inserted between pages |
| `EventPages.FollowIsComplete` | db.js:1411-1418 | every row stored before the first page is listed |
| `EventPages.FollowIsListing` | db.js:1411-1418 | while nothing appears below the cursor, the pages spell out the listing exactly |
| `EventPages.NewRowsDoNotDisturb` | db.js:1411-1418 | rows newer than all stored ones do not change what the reader who started earlier sees |
| `EventPages.CountIsTotal` | db.js:1756-1760 | the count exceeds the listing by the events both signed and linked, so it is exact if and only if there are none |
| `GovRefresh.SyncRunner.Run` | lib/gov-refresh.js:68-84 | a trigger's effect on its own slot and on no other |
| `GovRefresh.SyncRunner.Woken` | lib/gov-refresh.js:73-80 | what the loop does when its sleep is over |
| `GovRefresh.SyncRunner.Settled` | lib/gov-refresh.js:76-80 | what the loop does when a run ends |
| `GovRefresh.SyncRunner.Busy` | lib/gov-refresh.js:84 | busy exactly while the slot is not idle |
| `GovRefresh.EveryRunSafe` | lib/gov-refresh.js:60-86 | in every interleaving, no two runs overlap, runs are the gap apart, and nothing asked for is lost |
| `GovRefresh.NotOwedIsServed` | lib/gov-refresh.js:68-84 | with nothing owed, every trigger has a run that started at or after it |
| `GovRefresh.ServedWithinTwoTurns` | lib/gov-refresh.js:68-84 | however many triggers keep arriving, each is followed by a run that starts at or after it within two wake-ups or completions |
| `GovRefresh.SettlesSoon` | lib/gov-refresh.js:72-83 | each wake-up or completion brings a slot closer to idle |
| `GovRefresh.NeverBlocked` | lib/gov-refresh.js:72-83 | a slot asleep or running always has a next step |
| `GovRefresh.OwedCostsOneRun` | lib/gov-refresh.js:70-81 | folding: with no further trigger, all that is owed costs exactly one more run, within three steps |
| `GovRefresh.StuckExactlyWhen` | lib/gov-refresh.js:71-83 | a slot sticks exactly on a synchronous throw of the first pass of an idle slot that need not wait |
| `GovRefresh.StuckHappens` | lib/gov-refresh.js:70-83 | a new slot sticks on a first call that throws at once, and a later trigger is never served |
| `GovRefresh.StuckForever` | lib/gov-refresh.js:70-83 | a stuck slot serves no trigger again |
| `LiveFeeds.Holder.Hold` | lib/collective-live.js:105-108 | a late unsubscribe function is kept, filed or called at once, as its slot stands |
| `LiveFeeds.Holder.Deliver` | lib/collective-live.js:150-154 | a delivery is applied exactly when neither the feed is stopped nor its slot replaced |
| `LiveFeeds.Holder.Drop` | lib/democracy-live.js:169 | a drop calls what the slot keeps, and clears the slot unless the call throws uncaught |
| `LiveFeeds.Holder.Next` | lib/democracy-live.js:167-172 | replacing a slot ends the old subscription and opens one, unless the drop throws uncaught |
| `LiveFeeds.Holder.Stop` | lib/collective-live.js:172-178 | stopping calls what is kept, once each, and ends every subscription, whatever throws |
| `LiveFeeds.EachCalledOnce` | lib/democracy-live.js:163-172 | with guarded drops, in every order of events and whichever functions throw, each unsubscribe is called exactly once if it arrived and its subscription is over, and never earlier |
| `LiveFeeds.UnguardedCalledOnceWhen` | lib/collective-live.js:104-179 | with unguarded drops, once stopped, every unsubscribe was called exactly as often as it should if and only if none threw at a replacement before |
| `LiveFeeds.ThrownIsCalledTwice` | lib/collective-live.js:132-133 | a case: opened, arrived, thrown at a drop, and called again by stop |
| `LiveFeeds.ThrowLeavesNone` | lib/collective-live.js:132-149 | a replacement that throws opens nothing and leaves its slot without a live subscription |
| `LiveFeeds.OverIsForGood` | lib/collective-live.js:150-154 | in every order of events, from the moment a subscription is over none of its deliveries is applied, and each leaves everything as it is |
| `LiveFeeds.LiveIsApplied` | lib/collective-live.js:150-154 | in every order of events, of each subscription exactly what it delivered while live is applied, in order |
| `LiveFeeds.OneLivePerSlot` | lib/democracy-live.js:167-172 | in every run, whatever throws, at most one subscription of a slot is live |
| `LiveFeeds.Link.Start` | lib/collective-live.js:200 | starting opens a feed only with the link up and none open |
| `LiveFeeds.Link.LinkChanged` | lib/collective-live.js:194-198 | link changes keep a feed alive only while wanted and up, and never two |
| `LiveFeeds.Link.Current` | lib/collective-live.js:202 | with the link up the page sees the one feed that was started and not stopped, with it down none; while the handlers are registered it sees one exactly when wanted and up |
| `DemocracyLive.WatchedReferenda` | lib/democracy-live.js:125-136 | the watched indexes are the newest of exactly the wanted ones, in order, within the cap |
| `DemocracyLive.Feed.Resync` | lib/democracy-live.js:181-191 | afterwards the watched list is current and its subscription replaced, or, when the counters are missing or the list is the same, nothing changed |
| `DemocracyLive.Feed.OnInfo` | lib/democracy-live.js:190-205 | a live delivery updates the ongoing set and resyncs; one that is over changes nothing |
| `DemocracyLive.AppliedIs` | lib/democracy-live.js:192-203 | each delivered index takes its status, one gone from storage is over if it was open or known, and every other stays |
| `DemocracyLive.Feed.OnCount` | lib/democracy-live.js:206-213 | a new count resyncs; the same count, or a stopped feed, changes nothing |
| `DemocracyLive.Feed.OnLowest` | lib/democracy-live.js:214-218 | a delivered bound is taken, a failed subscription gives up the bound, and both resync; once stopped no bound is taken and the watched list stays, though a failure still clears the flag |
| `DiscussionThreads.Board.ReconcileThreads` | lib/discussion-threads.js:134-154 | the threads after a pass, and exactly what it lists as created, reopened and closed |
| `DiscussionThreads.Board.ReconcileReferendumThreads` | lib/discussion-threads.js:160-180 | the threads after the referenda of one read |
| `DiscussionThreads.Board.Observe` | lib/discussion-threads.js:69-120 | a read's trust decides what it may do, and a trusted one moves its kind's mark |
| `DiscussionThreads.TrustedExactlyWhen` | lib/discussion-threads.js:75-120 | which reads are trusted: not behind the marks, a motion list read whole, a counter past every stored index |
| `DiscussionThreads.MarksFollowTrust` | lib/discussion-threads.js:66-72 | a trusted read sets its kind's mark to its block, an untrusted one leaves it, and none moves another's |
| `DiscussionThreads.TrustedReadDecides` | lib/discussion-threads.js:134-154 | after a trusted read a thread not closed by others is open exactly when its item is listed |
| `DiscussionThreads.UntrustedReadOnlyCreates` | lib/discussion-threads.js:134-147 | an untrusted read opens what is new and changes no status |
| `DiscussionThreads.ReferendumFollowsItsRead` | lib/discussion-threads.js:156-180 | a referendum thread changes only on positive evidence for its own index |
| `DiscussionThreads.CounterCoversChanges` | lib/discussion-threads.js:83-97 | a status changes only on a counter past all stored indexes |
| `DiscussionThreads.TrustedBlocksRise` | lib/discussion-threads.js:68-81 | over any run the blocks of a kind's trusted reads never go backwards |
| `DiscussionThreads.ForeignCloseIsFinal` | lib/discussion-threads.js:56-64 | over any run no thread is lost and a foreign close is never undone or reworded |
| `DiscussionThreads.StatusIsLastTrustedRead` | lib/discussion-threads.js:134-154 | at every moment a thread is open exactly when the last trusted read listed it, whatever lagging nodes said since |
| `EmailEvents.SelectDispatchable` | lib/email-events.js:162-216 | the loops return the value-level selection |
| `EmailEvents.SendsUpToMark` | lib/email-events.js:184-216 | a tick sends exactly the fresh items up to the new watermark; any other stays above it, and only a full cap leaves one |
| `EmailEvents.FirstRunAdopts` | lib/email-events.js:171-182 | the first run sends nothing and adopts a mark no stored rank exceeds |
| `EmailEvents.MarkIsARank` | lib/email-events.js:171-212 | the watermark is the old one or the rank of one of the items, and the first one a stored rank |
| `EmailEvents.MarkPassesAll` | lib/email-events.js:192-209 | when nothing is held back it passes every rank of the tick |
| `EmailEvents.SuppressedAreTheRest` | lib/email-events.js:171-216 | what is above the mark is sent or counted as suppressed |
| `EmailEvents.MarkNeverFalls` | lib/email-events.js:190-212 | the watermark never falls |
| `EmailEvents.NeverTwice` | lib/email-events.js:162-216 | over any run, later ticks send only higher ranks |
| `EmailEvents.HistoryIsNeverSent` | lib/email-events.js:171-182 | nothing at or below the first adopted mark is ever sent |
| `EmailEvents.FreshItemIsSent` | lib/email-events.js:190-206 | an item that stays stored and fresh is sent within as many ticks as ranks lie before it, plus one |
| `EmailEvents.ArrivalIsSent` | lib/email-events.js:184-212 | on any run an item that arrives above every rank stored so far and stays fresh is sent within the stated ticks |
| `NewlyResolved.SelectNewlyResolved` | lib/email-events.js:108-145 | the loops return the value-level announcement |
| `NewlyResolved.AnnouncesLowest` | lib/email-events.js:125-144 | a tick announces the lowest resolved ids it does not remember; only a full cap leaves one out |
| `NewlyResolved.BoundKeeps` | lib/email-events.js:119 | the memory keeps everything exactly when it fits, else the highest ids |
| `NewlyResolved.FirstRunIsSilent` | lib/email-events.js:119-145 | the first run announces nothing and remembers resolved ids only; later ones remember what they knew or announced |
| `NewlyResolved.AnnouncedOnce` | lib/email-events.js:92-145 | while all resolved ids fit, none is announced twice, and none from the first run |
| `NewlyResolved.NeverTwiceExactlyWhen` | lib/email-events.js:92-145 | over the runs of a table no id is announced twice if and only if its resolved ids fit in the memory or the limit is not positive |
| `NewlyResolved.ResolvedIsAnnounced` | lib/email-events.js:136-144 | an id held back by the cap is announced within as many ticks as ids are open |
| `NewlyResolved.ForgottenRepeats` | lib/email-events.js:104-144 | on every run of a table with more resolved ids than the memory holds, each tick after the first announces something, and over as many polls as ids plus two some id is announced twice |
| `NewlyResolved.ForgottenCase` | lib/email-events.js:104-144 | a case: with two ids resolved and a memory of one, the forgotten one is announced again |
| `MergeRows.MergedMembers` | lib/merge-rows.js:70-106 | with any cap, the merged list holds the snapshot and exactly the local rows that share no name with it and lie at or above its newest or at or below its oldest rank, less what a full cap of rows no later leaves out |
| `MergeRows.MergedIsSorted` | lib/merge-rows.js:96-105 | it is sorted by rank, unconfirmed rows first, within the cap |
| `MergeRows.SnapshotRowsAreNotRepeated` | lib/merge-rows.js:78-93 | of the rows sharing a snapshot key or identity it holds the snapshot's and no other |
| `MergeRows.MergeTwice` | lib/merge-rows.js:62-106 | polling the same snapshot again changes nothing, also with the cap |
| `MergeRows.LiveRowStays` | lib/merge-rows.js:86-105 | a live row at or above the newest rank stays in view, or its twin does, unless the cap is full above it |
| `MergeRows.OlderRowStays` | lib/merge-rows.js:86-105 | a local row at or below every snapshot rank stays, unless the cap is full of rows at or above it |
| `MergeRows.LiveRowSurvivesPolls` | lib/merge-rows.js:62-106 | over any polls that do not pass it, with any caps, and while a name stands for one transfer in one block, a live row or its twin stays in view at its rank until a poll cuts it with the list at the cap |
| `MergeRows.NothingCutsWithoutCap` | lib/merge-rows.js:105 | a poll without a cap cuts nothing |
| `MergeRows.CoveredRowIsDropped` | lib/merge-rows.js:86-94 | a row inside the covered range that the snapshot lacks is dropped |
| `Sorting.SortOfConcat` | lib/merge-rows.js:100-104 | Array.prototype.sort as a stable sort: sorting a concatenation merges the sorted parts |

## Left out

- LockActions.DemocracyActions: the delegating branch, the estimated dates (`etaOf`) and the other button kinds of `lockActionSpec` are not modelled; they are single expressions.
- LockActions.DemocracyLockPlan: the per-vote rows for display are not returned, only the three figures.
- JavaScript numbers are unbounded integers here; precision above 2^53 is not modelled.
- FeePreflight: the RPC reads, timeouts and wording of `feePreflight`, and the decimal rendering of `formatPlanck`.
- CollectiveMotions.AttributeMotionEvents: the rows carry the fields attribution decides; proposer, names and section pass through.
- CollectiveRuns: the one-time move of the old council table (db.js:2404-2430), which also sets the left-storage mark.
- CollectiveRuns: event kinds that a collective does not emit are never stored; a read that races with a write is not modelled.
- InlineSpans.ScanLink: link syntax and URL checks are taken as a reader that says whether an accepted link starts at a position, and where it ends.
- InlineSpans: characters are Unicode scalars, not UTF-16 units, and the small icon after an image link is not part of the word.
- PostHtml.RenderInline: that a code span inside a link's title is dropped with the title is not stated.
- MarkdownBlocks.RenderBlocks: a line is a record of what the block-level regular expressions say about it; that no line is both a quote and a list item is assumed, as those expressions make it so.
- PostHtml.PostNested: the slices of lines that are the texts of headings, items and cells are taken as given; `renderMarkdown`'s cleaning of the input and its plain output for very long posts.
- IdMigration.Migration.Migrate: rows written by another process between its transactions, the counters it returns and the `onForkDelete` hook.
- IdMigration.Migration.DeleteForkRows: the account links of deleted events, which db.js:1646-1650 removes as well.
- BlockGaps.GetBlockGaps: rows are one consistent read; the table's own triggers and the callers' throttling are not modelled.
- GapScheduling.NoHoleStarves: scans of the whole table, limited or not; the windowed scans and edge holes that the server mixes in on other ticks, and the periodic amnesty (`shouldRetire`) that lets exhausted holes be tried again, are not modelled.
- EventPages.PageIsNewest: the rows are places (block, rowid); the other columns pass through the union unchanged.
- AccountLinks.Index.BackfillTick: the transfer rows for treasury payouts and the counters in the state; decoding of stored JSON is given as the strings found.
- GovRefresh: `fn` is its outcome (throws at once or settles later); wall-clock drift is the order of the actions.
- LiveFeeds.OverIsForGood: the one-shot `proposalOf` reads of lib/collective-live.js are not modelled; their rejection handler (line 165) deletes a pending stub also after stop.
- DemocracyLive.Feed: proposals, deposits and the account's own votes follow the same two shapes as referenda and are not repeated.
- DiscussionThreads.Board.ReconcileReferendumThreads: the three lists it returns for the log; thread titles and the linking of motion threads by call hash.
- EmailEvents.SelectDispatchable: two items of one tick with the same rank; the statements about runs require distinct ranks.
- NewlyResolved.SelectNewlyResolved: two items of one tick with the same id, likewise.
- MergeRows.MergeRows: snapshot rows without a finite rank, for which the comparator is no order; the statements require finite ranks.
- HTTP routes, views, chain decoding, the database engine, e-mail transport and floating-point wording.
