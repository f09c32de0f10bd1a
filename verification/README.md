# Torrentinel: a verified model of the monitoring engine

Torrentinel watches torrent trackers. It follows a rolling feed that forgets, decides which pages it need
not load, works out what it missed, records matches of its users' rules, and notifies exactly once. This
project models that engine in Dafny and proves what its design promises, over every interleaving of the
steps that the program's `await`s, its users, the trackers and crashes allow.

Each module follows one part of the program. Where the program changes tables, maps or fields in place,
a class has the same fields and its methods are proved against functions on values. Where several such
parts overlap in time, a step machine (`World`, `Step`, `Enabled`, `After`, `Run`) uses those functions,
and the main results hold for every run of it.

| module | what it models | main results |
|---|---|---|
| `MoveToFront` | the tracker's feed as a window on a move-to-front list | shared keys prove continuity; exactly when two windows share none |
| `ReleaseBuffer`, `FeedAssist`, `RutrackerFeed` | feed state, persistent buffer, poll view, the skip decision, discovery | the operations the protocols below are built of |
| `FeedFollowing` | feed following over all runs | skips are sound and happen when they may, exact buffer, a missed update is a gap |
| `GapRecovery` | catch-up over many polls, with edits and deletions | a gap closes exactly when every selected rule is settled, each for a reason; exactly the rules a closing gap closes over |
| `SearchRecovery` | the paged catch-up search | complete means all that is recent, in at most twenty pages |
| `Completeness` | a search and the buffer joined | exactly the updates that catching up brings back, and one that is lost |
| `DirectChecks` | optimistic page checks against edits | stored pages are current, changes form a chain, the outbox matches the events |
| `RuleMatching` | matching what is buffered or found and recording it, across lanes | no match is left out, at most one notification, exactly when a first pass is silent |
| `Engine` | a feed tracker's whole lane: following, catching up and matching as one machine | the three agree all along; when a gap closes what it lost is buffered, and recorded when its passes end |
| `NotificationQueue` | the leased outbox | lease safety, the fate of a row, bounded overtaking |
| `RunCoalescing` | who shares a run | targeted checks never join an earlier run |
| `AttemptLimiter` | counting and spacing sign-in attempts | counts against a log, spacing, at most 103 attempts in a window one at a time, and 103 do fit; overlapping attempts and attempts at once |
| `CoverCache`, `CoverReplacement` | cached pictures in files and rows | replacement is all or nothing over crashes and restarts; exactly the steps that lose a cover |
| `Egress`, `Ipv6Text`, `PublicAddress` | reading and judging IPv6 addresses | every text form is read right and judged alike |
| `SocksReader` | the chunked SOCKS handshake | chunking does not matter, handshake round trip |

## What is assumed

- Times are integers of milliseconds. The program keeps ISO strings of one length in UTC, which sort as
  the moments they name.
- The server's clock does not go back, and is not ahead of the tracker's by ten minutes or more. Feed
  entries are dated, and a later update of a topic carries a strictly later stamp.
- Feed state saved by versions that compared bare topic ids has no start of continuity.
- Ids of events, matches and notifications, and lease tokens are not reused (those of rules are), row ids of SQLite grow, truncated hashes in file names do not
  collide, and a poll never ingests a new feed in the very millisecond in which the last catch-up search
  began.
- All the results of one catch-up search reflect the tracker at one moment while it runs. They are listed
  newest first and show of each topic found its newest update, so that what is buffered of them carries
  stamps the tracker gave, not older than the feed showed (`Completeness.SearchIsTrue`).
- A page that a tracker's plugin reports as available carries the cover observation and the version that all
  three plugins put on it (`server/trackers/plugins/rutracker/direct.ts:44-45`,
  `server/trackers/plugins/kinozal/parser.ts:41-42`, `server/trackers/plugins/rutor/parser.ts:35-36`).

## Where the code does less than it seems to say

- A gap can close over terms that were never searched. A rule edited while its old terms are searched is
  acknowledged all the same (`server/scheduler.ts:698-709`, `GapRecovery.EditDuringSearchIsPassedOver`); one
  edited between its search and its matching loses the baseline that the edit gave it
  (`server/scheduler.ts:900-902`, `GapRecovery.EditDuringMatchingIsPassedOver`); and an edit that does not name the
  rule's trackers keeps its tracker state (`server/routes/subscriptions.ts:140-147`). `GapRecovery.OwedExactly`
  says exactly which steps make a rule one that is owed a search, and which settle it, `GapRecovery.GapClosesOver`
  which rules a closing gap closes over, and `GapRecovery.SafeEditsPassNoRuleOver` that edits made at other
  moments pass no rule over.
- A rule deleted before its poll comes to it breaks a foreign key and ends the tracker's lane, with the rows
  before it acknowledged and the gap open (`server/scheduler.ts:777-781`, `GapRecovery.DeletionHoldsTheGapOpen`). But the
  id of the newest subscription is used again (`server/routes/subscriptions.ts:208-210`): one added meanwhile under
  that id is passed over like an edited one (`GapRecovery.AddedUnderItsIdIsPassedOver`).
- The first matches after an edit are silent only if the edit names the trackers and no pass over the rule that
  was under way ends (`server/scheduler.ts:1070-1074`, `RuleMatching.FirstPassIsSilentExactly`,
  `RuleMatching.StalePassTakesTheBaseline`).
- A feed fetched before a catch-up search and ingested after it puts back the date of a topic it lists, if the
  update came after the fetch (`server/release-buffer.ts:182-211`, `Completeness.DateIsPutBackExactly`). The updates
  that a gap lost keep theirs until it closes (`Engine.ClosedGapIsMadeUp`).
- A gap is taken to begin when the feed before it was ingested, and that feed may have been fetched up to a
  minute earlier (`server/trackers/plugins/rutracker/rules.ts:45-56`, `server/release-buffer.ts:104-107`). An update
  made in between is lost for good (`Completeness.AnUpdateIsLost`, `Completeness.TheLostUpdateStaysLost`). What
  catching up brings back is, exactly, what the tracker dated at or after that moment
  (`Completeness.GapIsMadeUpExactly`).
- A new address does not reset the time of the last page load (`server/routes/subscriptions.ts:132-139`).
  This is harmless: the stored page is gone, and `DirectChecks.StoredPageIsCurrent` speaks of stored pages.
- A rate limit holds back the pending rows of a user and not the next one enqueued
  (`server/notification-queue.ts:98-103`, `NotificationQueue.RateLimitHoldsBackThePending`).
- A targeted check that waits for a run is lost if that run fails (`RunCoalescing.WaitingEndsExactlySo`).
- "About 100 attempts per account in 15 minutes" holds only of attempts made one after the other
  (`AttemptLimiter.SignInsFitTheWindow`). With ten failures counted, attempts that overlap get turns a second apart
  and at most thirty seconds ahead, which allows up to 931 in fifteen minutes (`AttemptLimiter.OverlappingAttemptsFit`)
  and 31 at once (`AttemptLimiter.ThirtyOneAtOnce`). Attempts made at once are all free if and only if fewer than ten
  failures are recorded (`AttemptLimiter.AttemptsAtOnceExactly`), and all that fail are counted
  (`AttemptLimiter.FailuresAtOnce`).
- A cover read that takes its row before a refresh and opens its file after it deletes the row of the new
  cover (`CoverReplacement.AnOvertakenReadLosesTheCover`). `CoverReplacement.HarmedExactly` gives all the steps
  that lose a cover, `CoverReplacement.OrderlyRunsAreRight` an order of operations that never does.
- An IPv4-compatible address is judged as its IPv4 address unless the first two octets are zero; `::2` is
  public where `0.0.0.2` is not (`PublicAddress.EmbeddedIsJudgedAsIpv4`, `PublicAddress.NotEveryCompatibleAddress`).

## Model

| member | source | states |
|---|---|---|
| `MoveToFront.ListingIsLatestFirst` | server/release-buffer.ts:90-91 | moving updated topics to the top keeps exactly one entry per topic, its newest update, newest first |
| `MoveToFront.WindowReachesBack` | server/release-buffer.ts:90-91 | a fetch that lists an update lists every topic updated after it |
| `MoveToFront.OverlapMissesNothing` | server/release-buffer.ts:86-96 | if two fetches of any sizes share one `id@time` key, the later one lists every topic updated between them |
| `MoveToFront.SharedKeyWasQuiet` | server/release-buffer.ts:90-91 | a shared key belongs to a topic not updated between the fetches |
| `MoveToFront.NoOverlapExactly` | server/release-buffer.ts:90-96 | two fetches share no key if and only if all topics of one of them were updated in between: no false gap from a quiet feed or a shorter fetch |
| `ReleaseBuffer.BufferedRow` | server/release-buffer.ts:182-211 | a row after any upserts: untouched if none is for it, else with the title and link of the last release for it, the last date, magnet and torrent address given (none keeping the old one), first seen when it was and last seen now |
| `ReleaseBuffer.CountOverlap` | server/release-buffer.ts:92-96 | no overlap if and only if no current key, and no old bare id, was there before |
| `ReleaseBuffer.GapIsFoundExactly` | server/release-buffer.ts:86-96 | a gap is found if and only if the feed before and this one are not empty and no current key, and no bare id of a current key, was there before |
| `ReleaseBuffer.NextStateReports` | server/release-buffer.ts:89-115 | an ingest reports the distinct keys listed, how many of them were there before and how many not, the dates from the batch or the least and greatest of its releases, and coverage that is a baseline, a gap or continuous exactly as there is no feed before, an open gap or neither |
| `ReleaseBuffer.NextStateDates` | server/release-buffer.ts:104-159 | a gap found begins with the feed before unless one is open and is dated now, a feed that finds none is continuous until now, and recoveries are remembered |
| `ReleaseBuffer.ReleaseTables.BufferReleases` | server/release-buffer.ts:182-211 | the loop of upserts leaves the buffer the specification gives |
| `ReleaseBuffer.ReleaseTables.PruneReleaseBuffer` | server/release-buffer.ts:324-327 | keeps exactly the rows seen in the last 1,209,600,000 ms, as they are |
| `ReleaseBuffer.ReleaseTables.IngestRollingFeedBatch` | server/release-buffer.ts:77-180 | one ingest leaves exactly the specified feed state and buffer and reports them |
| `ReleaseBuffer.ReleaseTables.MarkFeedRecovery` | server/release-buffer.ts:273-292 | a recovery attempt closes the gap if and only if it was complete, and leaves what the feed is compared with, its dates, the start of continuity, and every other tracker as they were |
| `ReleaseBuffer.ReleaseBufferView.constructor` | server/release-buffer.ts:237-248 | the view holds exactly the tracker's rows of the buffer |
| `ReleaseBuffer.ReleaseBufferView.Reload` | server/release-buffer.ts:250-256 | after a reload the view is the buffer again and no mirror copy is stale |
| `ReleaseBuffer.ReleaseBufferView.ForMirror` | server/release-buffer.ts:262-270 | a mirror's copy is that of the rows held now, whether made now or before |
| `RutrackerFeed.UniqueReleasesOfDistinct` | server/trackers/plugins/rutracker/rules.ts:27-36 | dropping duplicates loses nothing of a feed that lists each topic once |
| `RutrackerFeed.DiscoverShowsTheFeed` | server/trackers/plugins/rutracker/rules.ts:27-93 | for any feed, the batch has exactly one release of each topic, with the id, title, magnet and date of the first entry of the topic and the topic's own address on the mirror; a feed without entries is an error |
| `RutrackerFeed.DiscoverSpansTheFeed` | server/trackers/plugins/rutracker/rules.ts:29-33 | the batch spans the least to the greatest date of the feed's entries, if any is dated |
| `FeedFollowing.DiscoverListsTheWindow` | server/trackers/plugins/rutracker/rules.ts:27-93 | discovery of a fetched window succeeds and yields a batch that lists exactly that window with its dates, one release per topic |
| `FeedFollowing.DiscoveredRow` | server/release-buffer.ts:182-211 | after a poll of any feed each topic listed is buffered under the title, address and date of its first entry, and under its magnet if it has one, seen now |
| `FeedFollowing.BatchRelease` | server/release-buffer.ts:86-95 | each release of a batch is its topic's newest update, and no other release of the batch has that topic |
| `FeedFollowing.ListedRow` | server/release-buffer.ts:117-159 | after a poll every listed topic is buffered with its newest stamp |
| `FeedFollowing.UnlistedRow` | server/release-buffer.ts:117-159 | a poll leaves other rows, and other trackers' rows, as they were unless they are fourteen days old |
| `FeedFollowing.FreshFollow` | server/release-buffer.ts:101-110 | starting afresh, everything updated after the new start of continuity is in the buffer |
| `FeedFollowing.ContinuedFollow` | server/release-buffer.ts:89-110 | continuing over an overlap keeps the buffer complete since the old start of continuity |
| `FeedFollowing.FollowAfterPoll` | server/release-buffer.ts:84-160 | every poll, first, after a gap, from legacy state or continuing, leaves the buffer complete since `continuous_since` |
| `FeedFollowing.CoveredAfterPruning` | server/release-buffer.ts:324-327 | pruning hides only updates older than the retention |
| `FeedFollowing.CatchUpKeepsItsTracker` | server/scheduler.ts:681-706 | buffering releases with true stamps, as catch-up searches bring them, keeps the buffer complete and truthful, though it overwrites dates |
| `FeedFollowing.StepKeepsTracker` | server/release-buffer.ts:77-327 | every step of any kind keeps a tracker's buffer invariant |
| `FeedFollowing.SkipIsSound` | server/feed-assist.ts:31-43 | in every run, when the feed shows no change, the saved page was read after every update of the topic up to the fetch the feed was last ingested from |
| `FeedAssist.SkippedExactly` | server/feed-assist.ts:31-43 | the feed shows no change if and only if the page was loaded less than 86,400,000 ms ago, continuity began 600,000 ms before the load or earlier, and the entry, if any, is dated so too and does not name another torrent than the saved magnet |
| `FeedFollowing.SkippedExactly` | server/feed-assist.ts:31-43 | the same of the decision that the view of the last poll leads to: a page loaded a day ago or more is never skipped |
| `FeedFollowing.SkipHappensWhenQuiet` | server/feed-assist.ts:31-43 | in every run, if the feed was followed since ten minutes before a load less than a day old and the tracker dated no later update of the topic, the load is skipped if and only if the entry, if any, is dated and names no other torrent |
| `FeedFollowing.LoadRunsItsCourse` | server/scheduler.ts:406-466 | in every run a page can be loaded at any moment, and what is then known is the moment the load began and what the page showed |
| `FeedFollowing.PollSeesTheBuffer` | server/release-buffer.ts:237-256 | in every run the view of a poll shows every row of its tracker that is buffered now |
| `FeedFollowing.BufferIsExact` | server/release-buffer.ts:89-110 | in every run, a topic updated after `continuous_since` (less the skew) and within the retention is buffered with exactly its newest stamp |
| `FeedFollowing.MissedUpdateIsAGap` | server/release-buffer.ts:96-107 | in every run, a poll whose fetch missed an update made since the previous one detects a gap |
| `FeedFollowing.GapIsReportedExactly` | server/release-buffer.ts:86-96 | in every run, a poll of a followed tracker reports a gap if and only if every topic of the feed before, or every topic of this one, was updated between the two fetches |
| `GapRecovery.PolledGapIsNextState` | server/release-buffer.ts:96-107 | the gap fields of this protocol are those that an ingest writes |
| `GapRecovery.RuleStates.MarkGapRecovered` | server/scheduler.ts:808-814 | acknowledges the given rows in turn up to the first whose rule was deleted, and fails if there is one |
| `GapRecovery.RuleStates.UpdateTrackerState` | server/scheduler.ts:1000-1018 | takes a rule past its baseline and leaves its terms and acknowledgement, and every other rule, as they were; it fails for a deleted rule |
| `GapRecovery.RuleStates.RecoverGroup` | server/scheduler.ts:657-733 | what follows the search of one discovery group: with no rule deleted, exactly those on their baseline, or all after a complete search, are acknowledged; a deleted rule stops the acknowledging, counts as a failed search, and on its baseline ends the group; a retry is noted if and only if a search is to be repeated |
| `GapRecovery.BaselineRows` | server/scheduler.ts:708-709 | the rows acknowledged without a search are exactly those on their silent baseline |
| `GapRecovery.RuleAfterSearch` | server/scheduler.ts:663-709 | what a search does to any one rule: acknowledged with the start of the search, or left as it is |
| `GapRecovery.SearchKeepsInv` | server/scheduler.ts:663-709 | after the search of each group every acknowledgement still stands for a search or baseline on record, and what counts for the open gap reaches back to its start |
| `GapRecovery.RetriesCountMissingReasons` | server/scheduler.ts:665-776 | no retry is due if and only if every rule finished so far has a reason not to hold the gap open |
| `GapRecovery.SearchCountsExactly` | server/scheduler.ts:663-709 | a group is searched if and only if the gap is open and a row off its baseline was not acknowledged since the latest gap; the search is to be repeated if and only if it failed for a reason that may pass or its rules could not all be acknowledged; a deleted rule on its baseline ends the lane |
| `GapRecovery.GroupEndsExactly` | server/scheduler.ts:733-781 | a group reports an error if and only if it failed, or had to search and the search was not complete; reporting it for a deleted rule ends the lane, and a failure under an open gap is to be looked at again |
| `GapRecovery.PollIsNeverStuck` | server/scheduler.ts:606-806 | in every run a poll under way can be taken a step further |
| `GapRecovery.GapClosingIsJustified` | server/scheduler.ts:799-805 | in every run, also from a database with an open gap and no acknowledgement, a poll that closes a gap is a full poll, and every rule it selected was on its baseline, could not be caught up by any retry, or is behind a complete search that began after the gap was last found and reached back to its start |
| `GapRecovery.GapClosesExactlyWhenSettled` | server/scheduler.ts:799-805 | in every run a poll closes the gap if and only if it is full and every selected rule has such a reason |
| `GapRecovery.NewGapNeedsNewSearches` | server/scheduler.ts:663-667 | in every run a newly detected gap makes all earlier acknowledgements stale |
| `GapRecovery.OwedExactly` | server/scheduler.ts:657-902 | in every run, step by step and in both directions, over the present terms of a rule: it is owed a search when a gap is found, when an edit without its trackers brings terms nothing stands for, when it is enabled so, and when the matching of a row selected before an edit takes the baseline the edit gave; an acknowledgement for its present terms, a search of them that cannot succeed, a new baseline, disabling, deletion and the closing settle it |
| `GapRecovery.GapClosesOver` | server/scheduler.ts:799-805 | in every run a closing gap closes over exactly those selected rules that are past their baseline with terms other than their reason speaks for; any other rule was added or enabled after the selection |
| `GapRecovery.CarefulEditsPassNoRuleOver` | server/scheduler.ts:663-709 | if terms are edited only with their trackers or while no acknowledgement counts, and not while a poll still has the rule ahead, and no rule is added under the id of one ahead, then behind every selected rule stands a search of the terms it was selected with |
| `GapRecovery.SafeEditsPassNoRuleOver` | server/scheduler.ts:657-902 | if moreover, while a poll works, rules past their baseline change terms and are enabled only with their trackers, no gap ever closes over the present terms of a rule |
| `GapRecovery.EditDuringSearchIsPassedOver` | server/scheduler.ts:698-733 | a concrete run: a rule edited while its old terms are searched is acknowledged and past its baseline, and the gap closes over its new terms |
| `GapRecovery.EditDuringMatchingIsPassedOver` | server/scheduler.ts:857-901 | a concrete run: a rule edited between its search and its matching is taken past the baseline the edit gave it, and the gap closes over its new terms |
| `GapRecovery.DeletionHoldsTheGapOpen` | server/scheduler.ts:777-808 | from any state in which a rule is deleted that the poll has still to match, whatever happens before the next poll leaves the gap open, unless another subscription is added under its id |
| `GapRecovery.AddedUnderItsIdIsPassedOver` | server/routes/subscriptions.ts:208-210 | a concrete run: a rule is deleted after its search and another one added under its id; the matching of the old one takes its baseline and the gap closes over it |
| `SearchRecovery.NextStart` | server/trackers/plugins/rutracker/search.ts:224-234 | the next page is the nearest one further on, on the page's own origin |
| `SearchRecovery.OldestTime` | server/trackers/plugins/rutracker/search.ts:242-247 | the oldest date on a page, if any is dated |
| `SearchRecovery.UniqueIsFirsts` | server/trackers/core/parsing.ts:92-100 | of the releases of each topic exactly the first is kept |
| `SearchRecovery.PagesMoveOn` | server/trackers/plugins/rutracker/search.ts:224-234 | each next page starts strictly further on, where the one before ended |
| `SearchRecovery.ReachesWithPage` | server/trackers/plugins/rutracker/search.ts:99-103 | one more page ends the search if and only if it is the last or lists something from before `since` |
| `SearchRecovery.NothingRecentIsLeft` | server/trackers/plugins/rutracker/search.ts:94-103 | once the pages reach behind `since`, no recent dated result is on a page not read |
| `SearchRecovery.Recover` | server/trackers/plugins/rutracker/search.ts:60-118 | a complete search returns exactly the dated results from `since` on and the undated ones on the pages read, without duplicates; it reads at most twenty pages, and twenty if it is incomplete |
| `Completeness.SearchIsTrue` | server/trackers/plugins/rutracker/search.ts:94-103 | what a search brings back, complete or not, carries stamps the tracker gave, not older than those the feed showed |
| `Completeness.CatchUpBringsExactly` | server/scheduler.ts:681-706 | of the topics the terms find, the newest update at the moment the search reflects is buffered after a complete search if and only if it was dated at or after `since` or was buffered before |
| `Completeness.DateIsPutBackExactly` | server/release-buffer.ts:182-211 | a poll puts a date back that catching up gave if and only if its feed lists the topic and was fetched before the update |
| `Completeness.PollKeepsDates` | server/release-buffer.ts:89-104 | a poll that finds no gap leaves every update dated that its feed could list by then, if those its predecessor could list were |
| `Completeness.LateUpdatesAreDatedAfter` | server/release-buffer.ts:104-107 | in every run an update made ten minutes after some moment is dated after it |
| `Completeness.GapIsMadeUpExactly` | server/scheduler.ts:663-706 | in every run with an open gap, a complete search from its start brings back exactly those missing updates its terms find that are dated from then on, and so all made ten minutes after the poll before the gap |
| `Completeness.AnUpdateIsLost` | server/release-buffer.ts:104-107 | a concrete run: an update made between the fetch of a feed and its ingest falls into the next gap, which is taken to begin after it |
| `Completeness.TheLostUpdateStaysLost` | server/trackers/plugins/rutracker/search.ts:94-94 | no complete search from the start of that gap brings the update back |
| `Completeness.SearchOfTheLostUpdate` | server/trackers/plugins/rutracker/search.ts:60-118 | there is such a complete search, though the results list the update |
| `DirectChecks.SettledExactly` | server/direct-snapshot.ts:28-41 | a stored page is settled if and only if no available page of this version would be recorded silently over it |
| `DirectChecks.Tables.DirectRowStillCurrent` | server/scheduler.ts:974-979 | true if and only if the subscription is still there and enabled and has everything else the row had, but perhaps for the stored page, the time of the last load and the error mark |
| `DirectChecks.Tables.FinishCheck` | server/scheduler.ts:441-499 | a superseded check writes nothing; a current one writes only its own row, keeps the page of a baseline over a passing outage and stores the page loaded otherwise, and adds one event and its notification if and only if a settled page was stored and the fingerprint differs |
| `DirectChecks.Tables.FailCheck` | server/scheduler.ts:500-510 | a failed load marks exactly the row still current, and leaves every page, fingerprint, event and other row |
| `DirectChecks.Tables.Patch` | server/routes/subscriptions.ts:131-149 | an edit clears the baseline if and only if the address changes, and keeps the mirror, the time of the last load, every other row and the logs |
| `DirectChecks.StepKeepsInv` | server/scheduler.ts:339-527 | every check, edit, deletion, mirror change and crash keeps the invariant |
| `DirectChecks.StoredPageIsCurrent` | server/scheduler.ts:339-527 | in every run a stored page was loaded from the current address, has the stored fingerprint, and `detail_verified_at` is the start of its load |
| `DirectChecks.ChangesFormAChain` | server/scheduler.ts:450-498 | in every run, between resets and silent baselines, each change event starts from the fingerprint the one before ended in, and compares two settled pages of one address and version whose fingerprints differ |
| `DirectChecks.ChainBreaksExactly` | server/scheduler.ts:450-498 | in every run a chain of changes ends exactly when the baseline goes or a page that may not be compared is stored, and gets every new change of its subscription |
| `DirectChecks.CoverIsAwaitedExactly` | server/scheduler.ts:410-440 | in every run, which loaded pages wait for their cover: with a cache, those of a row still current that are available and show a first fingerprint, another one, or one whose cover is missing; nothing is written before the cover has settled |
| `DirectChecks.FailuresAreMarkedExactly` | server/scheduler.ts:500-510 | a row is marked as failed by its own failed load if it is still the row read, and by nothing else |
| `DirectChecks.OutboxMatchesEvents` | server/scheduler.ts:474-490 | at every reachable state change events and `direct:` keys are in bijection |
| `DirectChecks.EventsAreCommittedChanges` | server/scheduler.ts:468-490 | in every run a step adds an event and its key if and only if it commits a change of the fingerprint |
| `RuleMatching.ProcessedAddsMatches` | server/scheduler.ts:857-899 | a pass adds exactly the matching releases, and off the baseline one event and one notification for each added one |
| `RuleMatching.Tables.RecordMatch` | server/scheduler.ts:870-892 | afterwards the release is recorded; a record that was there stays and nothing happens, and a new one off the baseline comes with exactly one event and one notification under its id |
| `RuleMatching.Tables.ProcessRow` | server/scheduler.ts:857-899 | skipping releases already recorded gives the result of recording all |
| `RuleMatching.AdvanceKeepsInv` | server/scheduler.ts:862-899 | each step of a lane, with edits and other lanes in between, keeps matches, events, notifications and lanes in accord |
| `RuleMatching.PollKeepsView` | server/scheduler.ts:681-706 | what is buffered of a tracker is always in its lane's view, because other lanes only prune its rows |
| `RuleMatching.PassIsPossible` | server/scheduler.ts:834-861 | whatever is buffered, a lane between two passes can pass any rule it holds, over releases that list all of its view |
| `RuleMatching.EndedPassIsComplete` | server/scheduler.ts:834-905 | in every run a pass that ends without an edit of its rule has recorded every matching release it was given; on a feed tracker every matching row of its poll's view, and so every one buffered at its end, from the feed or from a catch-up search |
| `RuleMatching.RecordsExactlyTheMatching` | server/scheduler.ts:857-899 | in every run a step records a release if and only if it is the next of its lane's pass, the rule is still there, active, on that tracker and has the terms it was selected with, the matcher accepts its title under them, and it is not yet recorded; off the baseline that adds one event and one notification, else none |
| `RuleMatching.MatchesMatch` | server/scheduler.ts:857-899 | in every run each match of a rule was there at the start, with no reset of the rule since, or came from such a step after its last reset |
| `RuleMatching.PassGetsOn` | server/scheduler.ts:862-893 | in every run each step of a pass asks for the page of a new match off the silent baseline, once, or goes on to the next release, leaving out later what it records |
| `RuleMatching.NotifiesAtMostOnce` | server/scheduler.ts:870-892 | in every run, between resets, each rule, tracker and release has at most one event and one `rule:` key, none if recorded silently |
| `RuleMatching.MatchIsSilentOrNotified` | server/scheduler.ts:870-892 | in every run a recorded match was recorded silently (or before the run) or is behind exactly one event and key, never both or neither |
| `RuleMatching.SilentExactly` | server/scheduler.ts:862-892 | in every run a new match is recorded silently if and only if its rule was selected on its baseline; with no reset since, if and only if it is on it now |
| `RuleMatching.FirstPassIsSilentExactly` | server/scheduler.ts:1070-1074 | in every run, with restarts and upgrades, until the next reset, a selection after an edit takes the rule for silent if and only if the edit named the trackers or met no baseline taken and no pass over it has ended on the tracker since, or the discovery revision is another one than when its last pass ended |
| `RuleMatching.StalePassTakesTheBaseline` | server/scheduler.ts:900-901 | in every run, if an edit comes before the end of a pass, the pass takes the new baseline and leaves no match of the new terms |
| `Engine.RunsAreJoined` | server/scheduler.ts:325-337 | every run of the whole lane is a run of feed following, of gap recovery and of matching, which agree at every moment on the clock, the gap, the buffer, the rules with their states and the rule being matched |
| `Engine.SelectionIsPossible` | server/scheduler.ts:529-548 | whatever rules a poll selects, the lane has the rows to match them, with the same terms and baselines |
| `Engine.SearchIsPossible` | server/scheduler.ts:681-706 | whatever a catch-up search brings back can be buffered and matched, and the feed goes on being followed |
| `Engine.LaneMovesOn` | server/scheduler.ts:325-337 | whenever a poll is to start or give up a group, do without its feed, or finish, the lane can |
| `Engine.PollMarksExactly` | server/scheduler.ts:799-805 | in every run the end of a poll closes an open gap if and only if it was of all rules and has no search to repeat, and else notes it as still open if and only if it searched at all |
| `Engine.SearchMakesUp` | server/scheduler.ts:686-698 | when a complete search acknowledges its rules, every update it looked for and that was made before it began is buffered, seen now and dated no earlier than the update |
| `Engine.ClosedGapIsMadeUp` | server/scheduler.ts:799-805 | in every run, when a gap closes, each active rule it does not close over is on its baseline, cannot catch up, or was acknowledged for its present terms; if by a search less than two weeks old, every update of the gap its terms find, made before the search began, is made up: its topic was seen since, and is dated from the update on (exactly, if not updated since) once the feed last ingested could list it, as it could all that the gap lost |
| `Engine.MissedUpdateIsRecorded` | server/scheduler.ts:681-733 | in every run, when an undisturbed pass ends over a rule so caught up, or whose group was just searched, every such update its title matcher accepts is a recorded match |
| `Engine.FollowedUpdateIsRecorded` | server/scheduler.ts:834-905 | in every run a followed update within the retention is buffered with its stamp, and recorded when an undisturbed pass ends over a rule that its title matches |
| `NotificationQueue.BackoffDoublesUpToTheMaximum` | server/notification-queue.ts:90-91 | for all attempts the delay is 30 s doubled per attempt up to six hours, whatever the cap on the exponent |
| `NotificationQueue.DelaysDouble` | server/notification-queue.ts:90-91 | in numbers: 30,000 ms after the first failure, twice as long after each further one up to 21,600,000 ms, and with a hint the longer of that and the hint |
| `NotificationQueue.ClaimIsPossible` | server/notification-queue.ts:64-78 | whenever a row is due an idle worker can claim one, and then holds the row's token and its count of attempts |
| `NotificationQueue.Queue.Claim` | server/notification-queue.ts:64-78 | claims the first in order of due time, age and row id of the rows that are pending, due, of an enabled user and under no lease that lasts, for ten minutes and with one more attempt, or finds none; no other row changes |
| `NotificationQueue.Queue.Complete` | server/notification-queue.ts:87-88 | changes the row if and only if it carries the token of the job; then it is delivered now and its lease released; no other row changes |
| `NotificationQueue.Queue.Fail` | server/notification-queue.ts:89-104 | under its token the row is released and due after its delay, which is thirty seconds after the first failure, at least as long as asked, and at most six hours if nothing was asked; otherwise only due times change, those of the user's pending rows on a rate limit, to the later of the two |
| `NotificationQueue.Queue.Prune` | server/notification-queue.ts:106-108 | drops exactly the receipts of more than 604,800,000 ms ago and changes no other row |
| `NotificationQueue.LeasesAreExclusive` | server/notification-queue.ts:64-78 | in every run no two workers hold unexpired leases on one row |
| `NotificationQueue.AttemptsCountClaims` | server/notification-queue.ts:75-77 | in every run a row's `attempts` are the claims made of it |
| `NotificationQueue.BackoffIsOfTheRow` | server/notification-queue.ts:75-90 | in every run a worker that still holds its row backs off by the number of claims made of it |
| `NotificationQueue.SupersededWorkerIsHarmless` | server/notification-queue.ts:87-104 | in every run a worker whose row was claimed again changes nothing by completing, and by failing nothing but a later deferral |
| `NotificationQueue.FateOfARow` | server/notification-queue.ts:64-108 | in every run a row becomes delivered only by a delivered send under its current token, is then never claimed, and goes exactly with its subscription or, once delivered, by pruning after seven days |
| `NotificationQueue.RateLimitHoldsBackThePending` | server/notification-queue.ts:98-103 | in every run a rate limit holds back all pending rows of the user as long as asked, and a row enqueued afterwards is due at once |
| `NotificationQueue.SentRowMovesBehind` | server/notification-queue.ts:87-97 | a row whose send ends is no longer ahead of a row that waits |
| `NotificationQueue.StepShrinksAhead` | server/notification-queue.ts:66-104 | no step puts a row ahead of one that waits, and every claim takes one away |
| `NotificationQueue.BoundedOvertaking` | server/notification-queue.ts:66-104 | with one worker a waiting row sees at most as many claims as there were pending rows ordered before it |
| `NotificationQueue.NextClaimIsTheWaitingRow` | server/notification-queue.ts:67-74 | with no row ahead the next claim is of the waiting row |
| `RunCoalescing.Runs.RunWithScope` | server/scheduler.ts:213-233 | a request owns a run only if every run started before is over; it joins, if for all rules, or waits, if for chosen ones, only while an earlier run executes; it gives up if and only if the scheduler stops |
| `RunCoalescing.Runs.Finish` | server/scheduler.ts:226-229 | then every run started is over and the next request owns its run |
| `RunCoalescing.RunsAreExclusive` | server/scheduler.ts:213-233 | at every reachable state at most one run executes |
| `RunCoalescing.RecordsAreKept` | server/scheduler.ts:213-233 | in every run each run selects its rows once, while it executes, and ends once, and a request that owns a run, shares one or gave up stays so |
| `RunCoalescing.TargetedChecksRunAfterTheirRequest` | server/scheduler.ts:215-220 | unless a run fails or the scheduler stops, a targeted check has a run of its own that selects its rows after the request, or still waits; a full poll shares the executing run |
| `RunCoalescing.WaitingEndsExactlySo` | server/scheduler.ts:217-223 | a waiting check starts its run if and only if it wakes while none executes, and is lost if and only if the run it awaits fails |
| `AttemptLimiter.PrunedIsASuffix` | server/attempt-limiter.ts:57-66 | in a map ordered by end of window, pruning cuts off a beginning, and only dead windows unless the rest fills the map |
| `AttemptLimiter.PrunedEntries` | server/attempt-limiter.ts:57-66 | pruning changes no entry, and drops a live one only from a map that stays full |
| `AttemptLimiter.Prune` | server/attempt-limiter.ts:57-67 | deleting while iterating drops the dead entries, and then the oldest until the rest fits |
| `AttemptLimiter.RecordKeepsWindows` | server/attempt-limiter.ts:40-51 | recording keeps the map ordered by end of window, within one window from now |
| `AttemptLimiter.RecordKeepsSound` | server/attempt-limiter.ts:40-51 | recording keeps every key's count equal to the failures logged since its window opened, and never above them if it was evicted |
| `AttemptLimiter.LongestBarIsTheLast` | server/attempt-limiter.ts:25-31 | the wait is the time until the last of the full windows ends, and zero only if every rule has room |
| `AttemptLimiter.WaitEndsExactly` | server/attempt-limiter.ts:25-31 | after the wait, and not a millisecond before, every rule has room |
| `AttemptLimiter.Limiter.constructor` | server/attempt-limiter.ts:18-22 | a new limiter is valid, empty and has nothing logged |
| `AttemptLimiter.Limiter.RetryAfterMs` | server/attempt-limiter.ts:25-31 | computes that wait, the least after which every rule has room |
| `AttemptLimiter.Limiter.Failures` | server/attempt-limiter.ts:34-37 | never more than the failures logged within one window, and all since the window opened unless it opened in the millisecond of an eviction of the key |
| `AttemptLimiter.Limiter.RecordFailure` | server/attempt-limiter.ts:39-51 | records one failure for every key given, then keeps the map within its maximum |
| `AttemptLimiter.Limiter.Reset` | server/attempt-limiter.ts:53-55 | forgets exactly the given keys |
| `AttemptLimiter.RetryIsInTime` | server/attempt-limiter.ts:105-106 | a refused caller is let in when told to come back, and not a millisecond before |
| `AttemptLimiter.TakeKeepsSpaced` | server/attempt-limiter.ts:105-111 | a granted turn puts the key's next turn one spacing later, moves no other key's, and ends what an earlier eviction of the key left open |
| `AttemptLimiter.Spacer.Reserve` | server/attempt-limiter.ts:101-113 | a granted turn waits no longer than the maximum and comes at least one spacing after the key's turn before it, unless the key was evicted since that turn; a refusal reserves nothing |
| `AttemptLimiter.OffsetPastTheRamp` | server/routes/auth.ts:34-34 | from fourteen failures on turns are ten seconds apart, the fifteenth at fifteen seconds |
| `AttemptLimiter.AttemptKeepsRationed` | server/routes/auth.ts:47-55 | a wrong sign-in that waited for its turn leaves the next turn late enough for the failures counted |
| `AttemptLimiter.CorrectSignInDoesNotDisturb` | server/routes/auth.ts:31-33 | a correct sign-in of the owner between two guesses counts no failure and brings no turn forward, so it is among what others may do |
| `AttemptLimiter.SignInsFitTheWindow` | server/routes/auth.ts:31-34 | wrong sign-ins to one account made one after the other: at most 103 fit in the 15-minute window the first opens, whatever others do in between that does not count a failure of the account or bring its next turn forward |
| `AttemptLimiter.SignInsFillTheWindow` | server/routes/auth.ts:31-34 | a concrete run of 103 wrong sign-ins, one after the other, that all fail in one window: the bound is exact |
| `AttemptLimiter.AttemptsAtOnceExactly` | server/attempt-limiter.ts:101-113 | attempts made in one moment are all let through without a wait, however many, if and only if fewer than ten failures are recorded |
| `AttemptLimiter.OverlappingTurnsAreApart` | server/attempt-limiter.ts:101-113 | of attempts that overlap, each let through with a table in which the key's next turn is no earlier than the attempt before left it, the turns are at least the spacing apart and none is further ahead than the longest wait |
| `AttemptLimiter.OverlappingAttemptsFit` | server/routes/auth.ts:31-34 | however attempts overlap, with ten failures counted at most one a second is let through, over the period and the thirty seconds after it, and one more; with fourteen, one in ten seconds |
| `AttemptLimiter.OverlapAtOnceExactly` | server/attempt-limiter.ts:101-113 | of attempts made in one moment with no turn ahead exactly as many are let through as spacings begin within the longest wait, each waiting one spacing longer |
| `AttemptLimiter.ThirtyOneAtOnce` | server/routes/auth.ts:34-34 | with ten failures counted that is 31 sign-ins |
| `AttemptLimiter.FailuresAtOnce` | server/routes/auth.ts:52-55 | any number of them are counted in one window when they fail |
| `CoverCache.Cache.PruneOrphans` | server/cover-cache.ts:159-168 | leaves exactly the referenced files and those that could not be deleted |
| `CoverCache.Cache.constructor` | server/cover-cache.ts:52-59 | a restart prunes |
| `CoverCache.Cache.Has` | server/cover-cache.ts:61-70 | true if and only if reading the cover would return one |
| `CoverCache.Cache.Read` | server/cover-cache.ts:117-139 | returns the whole cover, or drops a row whose file is gone or has another length |
| `CoverCache.Cache.Remove` | server/cover-cache.ts:141-145 | afterwards the subscription shows no cover and every other one shows what it did; of the files only that of its row goes, unless unlinking fails |
| `CoverCache.Cache.Refresh` | server/cover-cache.ts:72-115 | the steps up to each fault leave the specified files and rows |
| `CoverCache.RefreshedShows` | server/cover-cache.ts:72-115 | a refresh without a fault shows the new cover; with a fault before the row is stored it shows the previous one (putting back its file if the picture is the same); other subscriptions see nothing of it |
| `CoverCache.RefreshedReplacesTheFile` | server/cover-cache.ts:84-108 | a refresh without a fault puts one file in the place of another and leaves no third |
| `CoverReplacement.StepKeepsTidy` | server/cover-cache.ts:72-168 | every single step, with reads, removals, other subscriptions, crashes and restarts in between, leaves no file or row half written |
| `CoverReplacement.HarmedExactly` | server/cover-cache.ts:72-145 | a right cover becomes wrong by exactly four steps: a read whose file is gone while a row is stored, unlinking the file of the stored row after a removal or a refresh, and storing a row whose file is gone |
| `CoverReplacement.HealedAtOnce` | server/cover-cache.ts:99-145 | storing a row whose file is there, or a removal, makes any cover right again |
| `CoverReplacement.RemovalAlwaysHeals` | server/cover-cache.ts:141-145 | in every run a removal is possible while the service is up, and shows no cover |
| `CoverReplacement.StepsMakeTheRefresh` | server/cover-cache.ts:72-115 | left alone, the steps of a refresh with any fault do to files and rows what `CoverCache.Cache.Refresh` does |
| `CoverReplacement.ShownIsTheLastStored` | server/cover-cache.ts:72-139 | in every run without one of those steps, at every moment, the cover shown is the whole of the last one stored and not removed |
| `CoverReplacement.CoverHeals` | server/cover-cache.ts:72-145 | the same from the next picture stored or removal on, whatever happened before |
| `CoverReplacement.OrderlyRunsAreRight` | server/cover-cache.ts:72-145 | if refreshes and removals do not overlap and no file is unlinked while a read of it is under way, the cover is right at every moment of the run |
| `CoverReplacement.ReadsAreWhole` | server/cover-cache.ts:117-139 | in every run a read that finds its file gets the whole of the picture its row tells of, and changes nothing but that it ends |
| `CoverReplacement.CoverChangesAtOnce` | server/cover-cache.ts:84-108 | in every run, of the steps that do no harm to a right cover only storing the row shows the new one and only a removal shows none |
| `CoverReplacement.RestartKeepsTheCover` | server/cover-cache.ts:159-168 | in every run and wherever a crash hits, the restarted service shows what was shown, right or not, and every file left that could be deleted is some row's |
| `CoverReplacement.AnOvertakenReadLosesTheCover` | server/cover-cache.ts:117-138 | a concrete run in which a read overtaken by a whole refresh deletes the row of the new cover |
| `Egress.HexTextReads` | server/egress.ts:93-93 | the text of a number in hexadecimal is read back as that number |
| `Egress.SplitOfJoin` | server/egress.ts:97-98 | splitting joined groups gives the groups back |
| `Ipv6Text.DottedTextReads` | server/egress.ts:90-94 | four decimal numbers at the end of any text are found as they were written |
| `Ipv6Text.UndottedKeepsBytes` | server/egress.ts:91-94 | spelling a dotted tail as two groups keeps the address |
| `Ipv6Text.BodyExpands` | server/egress.ts:95-101 | "::" stands for exactly the missing groups, and is found wherever it is |
| `Ipv6Text.EveryTextIsRead` | server/egress.ts:87-103 | every text form of section 2.2 of RFC 4291, in either case, with leading zeros, a dotted tail or a zone, is read as the address it spells |
| `PublicAddress.LongestRun` | server/trackers/core/transport/browser-egress.ts:160-163 | the run of zero groups a canonical text shortens is the longest, and the first of several |
| `PublicAddress.HexTextIsShortest` | server/trackers/core/transport/browser-egress.ts:160-163 | canonical groups have no leading zero and are in lower case |
| `PublicAddress.CanonicalRoundTrip` | server/egress.ts:87-103 | reading the canonical text (section 4 of RFC 5952) of any sixteen bytes gives those bytes |
| `PublicAddress.Blocked4Exactly` | server/egress.ts:6-11 | the blocked IPv4 addresses, octet by octet |
| `PublicAddress.Blocked6Exactly` | server/egress.ts:12-15 | the blocked IPv6 addresses byte by byte: `::` and `::1`, 64:ff9b:1::/48, 100::/64, 2001::/32, 2001:db8::/32, and those that begin with fc or fd, with fe and then 80 to ff, or with ff; no others |
| `PublicAddress.Blocked6OfLow` | server/egress.ts:12-15 | of the addresses with fourteen leading zero bytes exactly `::` and `::1` are blocked |
| `PublicAddress.EmbeddedIsFound` | server/egress.ts:74-85 | the embedded IPv4 address of mapped, NAT64, 6to4 and (but for two zero octets) compatible addresses, and none of others |
| `PublicAddress.EmbeddedIsJudgedAsIpv4` | server/egress.ts:25-32 | in every text form an address embedding an IPv4 address is public if and only if that is; for compatible ones if and only if the stated condition holds; all others go by the IPv6 ranges |
| `PublicAddress.OtherIsJudgedByItsBytes` | server/egress.ts:25-32 | an address in any text form that embeds no IPv4 address is public if and only if it is not one of those |
| `PublicAddress.NotEveryCompatibleAddress` | server/egress.ts:82-82 | the text `::2` is judged public though 0.0.0.2 is not |
| `SocksReader.ByteReader.constructor` | server/trackers/core/transport/browser-egress.ts:120-123 | a new reader has received, read and buffered nothing |
| `SocksReader.ByteReader.Flush` | server/trackers/core/transport/browser-egress.ts:124-131 | a pending read takes exactly its bytes from the front, as soon as they are there |
| `SocksReader.ByteReader.Data` | server/trackers/core/transport/browser-egress.ts:132-137 | a chunk is appended, and the socket is destroyed if and only if more than 65,536 bytes are buffered |
| `SocksReader.ByteReader.Close` | server/trackers/core/transport/browser-egress.ts:138-141 | a pending read is rejected |
| `SocksReader.ByteReader.Read` | server/trackers/core/transport/browser-egress.ts:145-149 | the next bytes of the stream, at once if they are all there |
| `SocksReader.ByteReader.Detach` | server/trackers/core/transport/browser-egress.ts:151-156 | bytes read followed by the leftover are the bytes received |
| `SocksReader.DecodedInTwo` | server/trackers/core/transport/browser-egress.ts:65-77 | decoding what has come and going on with the rest is decoding it all |
| `SocksReader.ShortStreamsFit` | server/trackers/core/transport/browser-egress.ts:132-137 | a client that sends no more than 65,536 bytes is not dropped, however its stream is cut |
| `SocksReader.Resume` | server/trackers/core/transport/browser-egress.ts:65-77 | the reads of the handshake go exactly as far as the buffered bytes allow |
| `SocksReader.Relay` | server/trackers/core/transport/browser-egress.ts:53-103 | for every way of cutting a stream within the limit the handshake ends as the uncut one, with the same leftover |
| `SocksReader.HandshakeRoundTrip` | server/trackers/core/transport/browser-egress.ts:65-78 | the address and port a client sends (sections 3 to 5 of RFC 1928) are those decoded, and what it sends after them is left |
| `SocksReader.NoPrefixIsEnough` | server/trackers/core/transport/browser-egress.ts:65-77 | no strict prefix of a handshake is taken for the whole |
| `SocksReader.HostTextIsReadBack` | server/trackers/core/transport/browser-egress.ts:72-75 | the host name of an IPv4 or IPv6 destination reads back as the address sent |
| `SocksReader.NameIsReadInLowerCase` | server/trackers/core/transport/browser-egress.ts:73-73 | the text of a name, character by character: capital Latin letters, of ASCII or of the upper half, become small ones and every other byte is its own character |
| `SocksReader.CaseDoesNotMatter` | server/trackers/core/transport/browser-egress.ts:73-73 | names that differ only in the case of letters are the same destination |

## Left out

- Cheerio and regular-expression parsing of pages and feeds, browser control, challenges, logins, HTTP, DNS and Telegram: their results are parameters or steps.
- SQL text, migrations and seeding: tables are maps by their keys, and a transaction is one step.
- Users, collections, unread marks, pagination, diagnostics, run statistics and feed health: they would add only easy members.
- The `metadata` column, `coverageMinutes`, and the order in which buffered releases are read: nothing here depends on them.
- The feed cache of 60 seconds and its single flight (server/trackers/plugins/rutracker/rules.ts:45-56): a poll may use any earlier fetch, which allows more than the cache does.
- Malformed dates: a date is present or absent.
- FeedFollowing.SkipIsSound: the further conditions of a skip (settled page, cover present, no last error) only forbid more skips, so they are not needed.
- The grouping of rules by search terms and mirrors is any division of the selected rules into groups of equal required terms.
- GapRecovery.GapClosingIsJustified: speaks of the rules as they were selected; `GapClosesOver` speaks of their present terms.
- Engine.ClosedGapIsMadeUp: says nothing of what a search found more than two weeks ago, because the retention prunes it, or of updates made while the search runs.
- Engine: the machine is of one feed tracker; the lanes of the others take any steps. Disabling a user or a mirror is like disabling the rules concerned.
- Title matching, and enriching a match from its page, are a parameter and an await without effect on what is recorded.
- RuleMatching.EndedPassIsComplete: counts as an edit anything that disables, deletes or resets the rule, because any of them makes the code skip releases.
- Deleting a subscription deletes its events and queue rows with it; the logs of events and keys here keep everything ever added.
- NotificationQueue.BoundedOvertaking: is about one worker, as the program runs, and a row whose user meets a rate limit waits longer.
- The limit of 100 claims a pass, the timers of the queue and scheduler, and retry hints that are not whole seconds.
- RunCoalescing.TargetedChecksRunAfterTheirRequest: does not say that a waiting check is ever woken, which is up to the event loop.
- AttemptLimiter.SignInsFitTheWindow: assumes the account's live entries are not evicted by ten thousand others and that no other failure of the account is counted meanwhile; `AttemptsAtOnceExactly` speaks of attempts made at once.
- AttemptLimiter.OverlappingAttemptsFit: assumes the account's turn is not evicted between attempts by ten thousand others.
- Cover pictures are an identity and a length; a crash is one of the process, not of the disk.
- CoverReplacement.ShownIsTheLastStored: excludes runs with a step that loses the cover, because the code does not exclude them; `HarmedExactly` says which they are, and `CoverHeals` speaks of what comes after.
- Texts that `isIP` does not call IPv6: dotted parts above 255, groups with a sign, a space or a `0x` prefix, and letters outside ASCII.
- The platform's own reading of an address in its block list is taken to be the address itself, and an embedded IPv4 address goes on as its four bytes.
- SocksReader.Relay: what follows the handshake (resolving, connecting, piping, timeouts) is not modelled.
