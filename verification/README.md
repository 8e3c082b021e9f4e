# OpenMagpie: what its ingestion pipeline guarantees

OpenMagpie watches feeds, keeps their items, runs watches over them and sends mail. Very little of it
happens inside a transaction. Rows change by conditional UPDATEs, cache entries with a time to live stand
in for locks, watermarks only move forward, and inserts ignore what is already there. This project models
those pieces and proves what they guarantee together, over every interleaving and every run.

The modules, one file each:

- `Locks`: cache-backed try-locks with leases; `RefreshRotation`, the refresh-token rotation of section 6
  of RFC 6749, rests on it, and so does `SetSources`, the reconciliation of a feed's sources.
- `FeedItems`, `FeedPolling`, `ChunkPacking`, `RedditBatch`: recording items, polling a feed source by
  source, and polling Reddit sources with combined requests. `PollInterleaving` puts any number of
  overlapping pollers, failing at any point, into one transition system.
- `MailQueue`: the outbound-email queue, claimed by any number of workers. `Waitlist` posts to it.
- `SlugTable`, `SlugChains`, `SlugMigration`: the migration that merges rows of one subreddit.
- `Backfill`: the dry run of a backfill against the job it predicts.
- `ShortLinks`, `ClickStats`, `Heartbeat`: click deduplication and roll-up, telemetry heartbeats.
- `Ulid`, `ErrorPaths`: ULID cutoffs, error paths.
- `Options`, `Text`, `Sums`, `Spacing`: shared definitions.

How it is set up:

- Objects whose methods change them are classes. Each method is proved against a function on values, and
  that function is what the theorems are about.
- Concurrency is a step function on values. A step that is not enabled changes nothing, so every list of
  steps is a run and the theorems range over all of them.
- Time is an integer. SHA-256 is taken to be injective. What a connector yields, what a query returns in
  unspecified order, which inserts fail and which ids are drawn are parameters.
- Text is ASCII: lower-casing and stripping are those of ASCII characters.

Where the code does not do what it or its documentation says, the code is modelled as it is:

- The slug migration (docstring, lines 10-12 of
  `apps/core/feeds/migrations/0002_lowercase_reddit_subreddit_slugs.py`) is not idempotent, and its merge can
  lose progress. Only one `r/` prefix is stripped per run, and a row can merge into one that is itself merged
  later, with the watermark it had at the start. `SlugMigration.IdempotentIff` and
  `SlugMigration.NoProgressIsLostIff` say exactly on which tables each promise holds.
- `record_items` returns more than the number of new rows when one chunk holds an unseen item twice
  (`FeedItems.CountIsExactIff`).
- `_poll_source` documents that items at the watermark are skipped
  (`apps/core/feeds/services/polling.py:249-250`); the Reddit connector keeps them. Both rules are covered.
- A single poll of a row without a watermark, of a kind that has a connector, raises an error the cycle does not recover from
  (`FeedPolling.FeedPollOperation.PollSource`).
- `claim_heartbeat` says "at least the interval" and tests for strictly more. `set_mode` says its event
  fires exactly once; that holds exactly when each save of `anonymous` still knows whether the mode is off
  (`Heartbeat.FiresOncePerReEnableIff`), which two overlapping calls can violate.
- `by_country` does not add up to the total when a link has clicks both with no country and with the
  placeholder `??` as one (`ClickStats.CountriesAddUpIff`).
- `loc_to_path` says sibling errors cannot collide. At the root they can, in two ways
  (`ErrorPaths.SiblingsCollideIff`), and dotted keys collide with nested ones.
- A backfill that dies between its deletes and the stamp under-reports what it deleted
  (`Backfill.DeletedIsExactIff`).
- The dry run of `set_sources` does not look at watermarks, so it can promise what the real call refuses.

## Model

| member | source | states |
|---|---|---|
| Locks.TtlCache.Add | apps/core/common/locks.py:73 | a key is taken exactly when no live entry holds it, and a failed attempt leaves the cache alone |
| Locks.TtlCache.Get | apps/core/common/locks.py:55 | a token is found exactly while its entry is live |
| Locks.TtlCache.Set | apps/core/common/locks.py:58 | the entry is replaced with a fresh time to live, whoever held it |
| Locks.TtlCache.Delete | apps/core/common/locks.py:78 | the entry goes, whoever held it |
| Locks.LockLease.constructor | apps/core/common/locks.py:38-42 | a lease starts out as acquired as the add was |
| Locks.LockLease.Renew | apps/core/common/locks.py:47-59 | true exactly when the entry read is still ours, then re-stamped on whatever the cache holds by then; a lost lease stays lost and writes nothing |
| Locks.LockLease.Release | apps/core/common/locks.py:76-78 | the key is deleted only when the entry read was ours |
| Locks.StepKeepsLeaseInv | apps/core/common/locks.py:47-78 | whoever is within its lease owns the live entry, and every cache step that is not late keeps that |
| Locks.TimelyRunKeepsLeaseInv | apps/core/common/locks.py:1-14 | the same over whole runs of any owners and keys |
| Locks.MutualExclusion | apps/core/common/locks.py:62-78 | in every timely run at most one holder per key is within its lease, and it owns the cache entry |
| Locks.WritesOnlyOwnEntry | apps/core/common/locks.py:66-70 | a timely renewal or release overwrites or deletes only the entry of the holder doing it |
| Locks.RenewInTimeSucceeds | apps/core/common/locks.py:55-58 | a renewal begun before the deadline finds its token, and nobody else can take the key then |
| Locks.RenewingHolderIsNeverDisplaced | apps/core/common/locks.py:8-11 | step by step: a holder whose stamps are less than the timeout apart stays in its lease and owns the entry |
| Locks.RenewingKeepsTheLock | apps/core/common/locks.py:8-11 | so a holder that renews as it works keeps the lock at every moment of any timely run |
| Locks.FreeKeyIsTaken | apps/core/common/locks.py:73 | a free key is taken for the whole timeout and no other key changes |
| Locks.ReleaseFreesTheKey | apps/core/common/locks.py:76-78 | a release in time leaves no entry on the key, and the next to come takes it |
| Locks.LostOnlyAfterDeadline | apps/core/common/locks.py:49-50 | a renewal reports a lost lease exactly when the last stamp has run out |
| Locks.LateWriteCanClobber | apps/core/common/locks.py:50-52 | whenever the second half of a renewal or release is late, one newcomer is enough for it to destroy a foreign live entry |
| RefreshRotation.TokenStore.Revoke | apps/core/auth_api/views.py:213 | only the presented token becomes revoked |
| RefreshRotation.TokenStore.MintPair | apps/core/auth_api/services/tokens.py:87-110 | exactly one live refresh row appears, tied to its access token |
| RefreshRotation.TokenStore.Post | apps/core/auth_api/views.py:176-215 | which of the five replies is given when; a refusal or a failed mint changes no token; a success revokes the old token and adds one successor of the same user |
| RefreshRotation.StepKeepsInv | apps/core/auth_api/views.py:186-215 | every lock step, check, commit, login and logout keeps: at most one exchange per token, one open end per lineage, no passed check outlived by another exchange |
| RefreshRotation.RunKeepsInv | apps/core/auth_api/views.py:186-215 | the same over whole timely runs |
| RefreshRotation.RotationIsSafe | apps/core/auth_api/views.py:181-214 | in every timely interleaving a token is exchanged at most once, exchanged tokens are revoked, and a lineage has at most one live refresh token |
| RefreshRotation.ExchangeMakesOneSuccessor | apps/core/auth_api/views.py:208-214 | one exchange revokes the parent, adds exactly one live child of the same user and lineage, and leaves every other row |
| RefreshRotation.LateCommitExchangesTwice | apps/core/common/locks.py:152-164 | from any state of a timely run, a checked request past its lease, on a free key and a live token, and one newcomer in time exchange the token twice |
| RefreshRotation.OverrunExchangesTwice | apps/core/common/locks.py:152-164 | an instance, from the empty state |
| MailQueue.Mailer.Enqueue | apps/core/mailer/services/mailer.py:24-46 | a repeated idempotency key writes nothing; a new one adds a pending row to the normalised address |
| MailQueue.Mailer.TryClaim | apps/core/mailer/services/mailer.py:81-87 | the claiming UPDATE succeeds exactly on a pending row below the cap, which is then sending since the pass started, and hands out the raised attempts as a token |
| MailQueue.Mailer.ClaimDue | apps/core/mailer/services/mailer.py:67-87 | the loop over an outdated candidate list, with its limit checked before each claim; each row yielded was pending below the cap and is sending since the pass started, and no other row changes |
| MailQueue.Mailer.ReapStale | apps/core/mailer/services/mailer.py:90-109 | every stale sending row goes to failed at the cap and to pending below it, no other row moves, and the count is theirs |
| MailQueue.Mailer.ReapExhausted | apps/core/mailer/services/mailer.py:103-107 | the first UPDATE of the reaper and the rows it counts |
| MailQueue.Mailer.ReapRetryable | apps/core/mailer/services/mailer.py:108 | the second UPDATE and the rows it counts |
| MailQueue.Mailer.CompleteSent | apps/core/mailer/services/mailer.py:112-120 | wins exactly while this very claim is current, else changes nothing |
| MailQueue.Mailer.Fail | apps/core/mailer/services/mailer.py:123-137 | the same for a failure, which backs off below the cap and is final at it |
| MailQueue.ReapingTwiceCoversStale | apps/core/mailer/services/mailer.py:100-109 | the two UPDATEs are disjoint and together treat each stale row exactly once |
| MailQueue.ClaimDueIsExact | apps/core/mailer/services/mailer.py:68-74 | whatever the candidate list, exactly the rows yielded change, each by one attempt, and no row is yielded twice |
| MailQueue.FreshClaimsAreNotReaped | apps/core/mailer/services/mailer.py:83-108 | neither UPDATE of the reaper touches a row claimed by a pass until the stale window after that pass is over |
| MailQueue.StampIsTheClaims | apps/core/mailer/services/mailer.py:81-83 | in any run a sending row carries the time stamp of the very claim that won its present token |
| MailQueue.ClaimDueStopsAtTheLimit | apps/core/mailer/services/mailer.py:72-80 | only candidates are claimed, never more than the limit, and none is left claimable short of it |
| MailQueue.DueListIsClaimedInOrder | apps/core/mailer/services/mailer.py:49-64 | on a fresh due list with no interference the oldest due emails are claimed, in order, up to the limit |
| MailQueue.RunKeepsInv | apps/core/mailer/services/mailer.py:90-137 | in any run pending rows are below the cap, sending rows hold between one and cap attempts, failed rows have used the cap up |
| MailQueue.NothingIsStranded | apps/core/mailer/services/mailer.py:91-96 | so a pending row is due as soon as its time comes and a sending row can be reaped |
| MailQueue.TerminalIsAbsorbing | apps/core/mailer/services/mailer.py:81-137 | a sent or failed row never changes again |
| MailQueue.StaleWorkerIsHarmless | apps/core/mailer/services/mailer.py:113-115 | once a claim is over, its worker's completion or failure is a no-op at any later time |
| MailQueue.EachTokenIsWonOnce | apps/core/mailer/services/mailer.py:81-83 | the tokens won for a row are consecutive numbers, so no (row, attempts) claim has two owners |
| MailQueue.StepBurnsFuel | apps/core/mailer/services/mailer.py:81-137 | a measure on attempts and state falls with every effective transition of a row |
| MailQueue.RunBurnsFuel | apps/core/mailer/services/mailer.py:81-137 | transitions plus the remaining measure never exceed the initial measure |
| MailQueue.WorkIsBounded | apps/core/mailer/services/mailer.py:81-137 | a queued email changes at most twice per allowed attempt and is claimed at most cap times |
| MailQueue.ZeroCapStrands | apps/core/mailer/services/mailer.py:81-83 | with a cap of zero an email waits for ever |
| MailQueue.BackoffBindsOnlyTheDueQuery | apps/core/mailer/services/mailer.py:81-83 | after a failure the row is due exactly when the retry time has passed, but the claiming UPDATE itself does not wait |
| FeedItems.FeedItemService.RecordItems | apps/core/feeds/services/feeds/_items.py:40-73 | of the stream, or of its full chunks before an error, every new key gets a row with the label given and the time of its first post; rows that were there stay; the count is that of the rows built |
| FeedItems.FeedItemService.RecordChunk | apps/core/feeds/services/feeds/_items.py:75-113 | SELECT-then-INSERT stores each new key once, as its first post says, and counts the unseen posts |
| FeedItems.FeedItemService.BulkCreate | apps/core/feeds/services/feeds/_items.py:108-112 | a row whose key is taken is dropped, any other is stored as built |
| FeedItems.InsertAddsKeys | apps/core/feeds/models/feed_item.py:50-55 | the log's keys grow by exactly the posts' keys and no stored row changes |
| FeedItems.InsertStoresTheFirst | apps/core/feeds/services/feeds/_items.py:92-105 | a new row carries the label passed in and the time of the first post with its key |
| FeedItems.InsertAgain | apps/core/feeds/services/feeds/_items.py:50-51 | recording what is there already changes nothing |
| FeedItems.CountIsExactIff | apps/core/feeds/services/feeds/_items.py:108-113 | the count is never too small, and is the number of new rows exactly when no chunk repeats an unseen item |
| FeedItems.CountCanOverstate | apps/core/feeds/services/feeds/_items.py:108-113 | an instance of the miscount |
| FeedPolling.PolledSource.constructor | apps/core/feeds/services/polling.py:79-82 | the watch starts at the row's watermark |
| FeedPolling.PolledSource.Watch | apps/core/feeds/services/polling.py:84-90 | afterwards `newest` is the newest of the mark and the posts, and every post was counted |
| FeedPolling.NewestIsMaximum | apps/core/feeds/services/polling.py:84-90 | that newest is a least upper bound |
| FeedPolling.FeedPollOperation.AdvanceWatermark | apps/core/feeds/services/sources.py:155-178 | the mark moves exactly when it is NULL or older, to the value given, and the row count says whether it moved |
| FeedPolling.FeedPollOperation.PollSource | apps/core/feeds/services/polling.py:243-275 | an unregistered kind fails and changes nothing; else a success records everything and moves the mark to the newest post, a broken stream keeps its full chunks and leaves the mark, and a NULL mark crashes and changes nothing |
| FeedPolling.FeedPollOperation.Take | apps/core/feeds/services/polling.py:183-211 | one turn of the loop: a malformed row is skipped, a failure swallowed, a success counted |
| FeedPolling.FeedPollOperation.Run | apps/core/feeds/services/polling.py:131-211 | the cycle goes through exactly the turns before the first renewal that fails or the first crash; all of those held the lease, contents are those of these turns, and the counters are sums over them |
| FeedPolling.CycleIsMonotone | apps/core/feeds/services/polling.py:47-77 | over any cycle no mark goes back, no stored item changes, and a mark moves only to a newer post of its own source |
| FeedPolling.CycleRecords | apps/core/feeds/services/polling.py:183-211 | a cycle records every post of its successful turns, and nothing but posts of valid turns with a connector and a watermark |
| PollInterleaving.StepKeepsGood | apps/core/feeds/services/polling.py:56-77 | every step of every poller keeps each source's covered range recorded, counting what pollers in flight still hold |
| PollInterleaving.RunKeepsGood | apps/core/feeds/services/polling.py:56-77 | the same over whole runs |
| PollInterleaving.NoPostIsStranded | apps/core/feeds/services/polling.py:56-90 | with overlapping pollers from stale marks, connectors failing midway and workers dying, every visible post between a source's initial and current mark has been recorded |
| PollInterleaving.MarksOnlyAdvance | apps/core/feeds/services/sources.py:158-161 | over every run no mark goes back and nothing recorded vanishes |
| PollInterleaving.StepKeepsCourse | apps/core/feeds/services/polling.py:255-275 | each step of undisturbed overlapping pollers keeps the run on course to the serial outcome |
| PollInterleaving.OverlapIsHarmless | apps/core/common/locks.py:12-14 | when all pollers have finished, records and marks depend only on which sources were polled |
| PollInterleaving.AnyOrderEndsAlike | apps/core/common/locks.py:12-14 | so an overlapping run and a serial one end with the same records and the same marks |
| PollInterleaving.PollOneIsARun | apps/core/feeds/services/polling.py:243-275 | the imperative poll of one source is a run of that system |
| PollInterleaving.BrokenPollIsARun | apps/core/feeds/services/polling.py:56-70 | and so is one whose connector breaks |
| ChunkPacking.IterUrlBudgetChunks | apps/core/feeds/services/_reddit_batch.py:215-232 | the chunks keep the order and lose nothing, none is empty, each fits when its slugs do, and each but the last could not take the next pair, up to one byte after the first |
| ChunkPacking.JoinLength | apps/core/feeds/services/_reddit_batch.py:216-230 | the joined length is one less than the slugs with a separator each |
| ChunkPacking.GreedyStaysAhead | apps/core/feeds/services/_reddit_batch.py:221-232 | after each chunk the packing has taken at least as much as any partition with one byte less |
| ChunkPacking.PackingIsNearOptimal | apps/core/feeds/services/_reddit_batch.py:221-232 | so it makes no more requests than the best contiguous packing for a budget one byte smaller |
| ChunkPacking.PackingIsDetermined | apps/core/feeds/services/_reddit_batch.py:221-232 | those promises leave exactly one packing |
| ChunkPacking.PackingWastesAByte | apps/core/feeds/services/_reddit_batch.py:225-230 | the separator counted before a flush is kept, and can cost a request |
| RedditBatch.ParseReddit | apps/core/feeds/services/_reddit_batch.py:189-212 | the pairs kept are the valid Reddit rows whose subreddit was not seen before |
| RedditBatch.KeptCoversEachOnce | apps/core/feeds/services/_reddit_batch.py:190-193 | every subreddit with a valid row is kept, and none twice in whatever case |
| RedditBatch.KeptAreFirsts | apps/core/feeds/services/_reddit_batch.py:192 | the row kept is the first |
| RedditBatch.KeptUpToCase | apps/core/feeds/services/_reddit_batch.py:190-193 | no two slugs kept differ only in case, and every valid slug is kept in some case |
| RedditBatch.RedditBatch.Scatter | apps/core/feeds/services/_reddit_batch.py:133-138 | the buckets hold the posts by folded tag, in order |
| RedditBatch.RedditBatch.PollChunk | apps/core/feeds/services/_reddit_batch.py:97-186 | a broken fetch changes nothing; otherwise each source in turn records its own posts from its own mark and advances, and all are credited |
| RedditBatch.RedditBatch.PollPair | apps/core/feeds/services/_reddit_batch.py:159-178 | one source records its items and advances only to its own newest, never back |
| RedditBatch.RedditBatch.NewestAt | apps/core/feeds/services/_reddit_batch.py:176 | the newest of the items, if any |
| RedditBatch.ItemsAre | apps/core/feeds/services/_reddit_batch.py:150-158 | a source gets exactly the posts tagged with its slug in whatever case and not older than its mark |
| RedditBatch.NullMarkBootstraps | apps/core/feeds/services/_reddit_batch.py:156-178 | a source without a mark records all its posts and starts at the newest |
| RedditBatch.ChunkCounters | apps/core/feeds/services/_reddit_batch.py:149-186 | the counters of a chunk are sums over its sources |
| RedditBatch.PollPacked | apps/core/feeds/services/_reddit_batch.py:82-95 | exactly the chunks before the first lost lease are polled, the counters are the sums over those whose fetch came through, and the credit is their size |
| RedditBatch.PollRedditGroup | apps/core/feeds/services/_reddit_batch.py:65-95 | parse, pack and poll together |
| RedditBatch.WalkIsCutOff | apps/core/feeds/services/_reddit_batch.py:104-110 | on a newest-first listing, stopping at the first old post is filtering |
| RedditBatch.ScatteredItemsAreTheSingleWalk | apps/core/feeds/services/_reddit_batch.py:104-108 | a source gets from the combined fetch the very posts its own walk would yield |
| RedditBatch.BatchRefinesSinglePolls | apps/core/feeds/services/_reddit_batch.py:104-110 | a combined poll leaves the same items and the same marks as polling its sources one by one |
| RedditBatch.AgainstASkippingConnector | apps/core/feeds/services/_reddit_batch.py:152-158 | against a connector that skips ties the marks still agree, and the extra records are exactly the posts tied with the mark |
| RedditBatch.BatchItemsAreACompleteFetch | apps/core/feeds/services/_reddit_batch.py:97-119 | so the results about overlapping pollers cover the batch |
| RedditBatch.StrayPostsAreIgnored | apps/core/feeds/services/_reddit_batch.py:133-151 | posts tagged for no source of the chunk change nothing |
| RedditBatch.QuietSourceKeepsItsMark | apps/core/feeds/services/_reddit_batch.py:171-172 | a source none of whose posts were fetched keeps its mark |
| RedditBatch.TruncationStrandsIff | apps/core/feeds/services/_reddit_batch.py:112-119 | when the fetch is cut short, a new post ends unrecorded behind the mark exactly when a post of its source made the cut and a strictly older new one, not recorded and not a repetition, did not |
| RedditBatch.StrandedIsNeverReadAgain | apps/core/feeds/services/_reddit_batch.py:112-117 | such a post is lost for good: no later fetch gives it to the source |
| RedditBatch.TieIsReadAgain | apps/core/feeds/services/_reddit_batch.py:153-158 | a post tied with the mark is not lost: the next complete walk reads and records it |
| SetSources.SourceService.SetSources | apps/core/feeds/services/sources.py:214-341 | which outcome when, by kinds, safety, lock and future start times; the counts are the differences between the given specs and the present table, dry run or not; only a real, admitted, locked call changes it, to the reconciled table |
| SetSources.SourceService.Dedup | apps/core/feeds/services/sources.py:234-251 | the first input of each spec is kept |
| SetSources.SourceService.ApplyDiff | apps/core/feeds/services/sources.py:276-334 | the transaction applies the difference from a snapshot, or nothing at all when a watermark is refused |
| SetSources.SourceService.Refresh | apps/core/feeds/services/sources.py:322-334 | exactly the changed rows are rewritten, marks untouched |
| SetSources.DiffOfFreshView | apps/core/feeds/services/sources.py:276-334 | from an up-to-date snapshot the difference amounts to the reconciliation |
| SetSources.FirstOfEachKeys | apps/core/feeds/services/sources.py:225-229 | the wanted keys are the hashes of the input |
| SetSources.FirstOfEachIsFirst | apps/core/feeds/services/sources.py:225-229 | each with the values of its first occurrence |
| SetSources.ReconcileIsExact | apps/core/feeds/services/sources.py:221-229 | the table holds exactly the input's specs; persisting rows keep id, kind, spec and mark; new ones get theirs from the input and start at their given past instant or now |
| SetSources.CountsBalance | apps/core/feeds/services/sources.py:336-341 | existing plus added minus removed is the source count, which is the size of the new table |
| SetSources.RepeatingChangesNothing | apps/core/feeds/services/sources.py:312-320 | a second call adds, removes and rewrites nothing |
| SetSources.StepKeepsInv | apps/core/common/locks.py:92-104 | every step keeps the table equal to some serial order and every leaseholder's snapshot up to date |
| SetSources.CallsAreSerialised | apps/core/common/locks.py:92-104 | calls that finish within the lock's timeout equal one after the other, in commit order |
| SetSources.LateCommitMixesTwoSets | apps/core/feeds/services/sources.py:288-298 | from any state of a timely run with a late caller on a free lock, a newcomer in time and the late commit leave a table that is not what the calls give in commit order |
| SetSources.OverrunMixesTwoSets | apps/core/feeds/services/sources.py:288-298 | an instance, from the empty table: the union of two sets, which neither order of the calls gives |
| SlugTable.Sources.NormalizeRedditSlugs | apps/core/feeds/migrations/0002_lowercase_reddit_subreddit_slugs.py:45-73 | the loop over a snapshot: skip, merge into a survivor, or rewrite |
| SlugTable.UniqueAllAlong | apps/core/feeds/migrations/0002_lowercase_reddit_subreddit_slugs.py:45-73 | at every moment the unique constraint holds, other rows are untouched, and Reddit rows change only in spec, hash and watermark |
| SlugTable.OneRowPerSubreddit | apps/core/feeds/migrations/0002_lowercase_reddit_subreddit_slugs.py:9-11 | without chains each class ends with its deterministic survivor alone, canonical, holding the furthest watermark of the class |
| SlugTable.EveryClassHasAChosenRow | apps/core/feeds/migrations/0002_lowercase_reddit_subreddit_slugs.py:47-49 | every class has that survivor |
| SlugTable.ClassesKeepTheirProgressIff | apps/core/feeds/migrations/0002_lowercase_reddit_subreddit_slugs.py:55-70 | every one-pass class keeps a row that holds its progress, for all watermarks, exactly when no row is rewritten to the present spec of a later row that is itself rewritten |
| SlugTable.SteadyNeverChains | apps/core/feeds/migrations/0002_lowercase_reddit_subreddit_slugs.py:33-37 | specs that settle in one pass never chain |
| SlugTable.UnsteadySpecLosesProgress | apps/core/feeds/migrations/0002_lowercase_reddit_subreddit_slugs.py:60-70 | an instance of a watermark lost |
| SlugChains.FindsSurvivorIff | apps/core/feeds/migrations/0002_lowercase_reddit_subreddit_slugs.py:55-60 | at its turn a row finds a survivor exactly when the table before the run has a row that awaits it or an unchained earlier row of its class |
| SlugChains.MergedIsGone | apps/core/feeds/migrations/0002_lowercase_reddit_subreddit_slugs.py:69 | such a row is not there after the run |
| SlugChains.IdempotentExactlyIf | apps/core/feeds/migrations/0002_lowercase_reddit_subreddit_slugs.py:10-12 | a second run is the identity exactly when, in the table before the first, every Reddit row settles in one pass or is chained to a later row |
| SlugChains.LosslessExactlyIf | apps/core/feeds/migrations/0002_lowercase_reddit_subreddit_slugs.py:61-68 | no watermark is lost along the merges, for all watermarks, exactly when no row is merged into a later row that is itself merged |
| SlugMigration.CanonicalTwiceIff | apps/core/feeds/migrations/0002_lowercase_reddit_subreddit_slugs.py:30-37 | canonicalising twice is canonicalising once exactly when no white space and no second prefix follow the first |
| SlugMigration.SteadyIff | apps/core/feeds/migrations/0002_lowercase_reddit_subreddit_slugs.py:33-37 | the same said of specs |
| SlugMigration.CanonicalSlugIs | apps/core/feeds/migrations/0002_lowercase_reddit_subreddit_slugs.py:30-37 | white space around a slug and one prefix in front of it go, capitals become small letters, and nothing else happens |
| SlugMigration.CanonicalHasNoCapitals | apps/core/feeds/migrations/0002_lowercase_reddit_subreddit_slugs.py:37 | a canonical slug has no capital letter |
| SlugMigration.CaseDoesNotMatter | apps/core/feeds/migrations/0002_lowercase_reddit_subreddit_slugs.py:37 | slugs that differ only in case have the same canonical slug |
| SlugMigration.CaseVariantsAreOneClass | apps/core/feeds/migrations/0002_lowercase_reddit_subreddit_slugs.py:9-10 | rows of one feed whose slugs differ only in case are of one class |
| SlugMigration.NoCaseVariantsAreLeft | apps/core/feeds/migrations/0002_lowercase_reddit_subreddit_slugs.py:8-10 | whatever the table, after the run no slug has a capital, and no two rows of one feed differ only in case |
| SlugMigration.EachSubredditHasOneRow | apps/core/feeds/migrations/0002_lowercase_reddit_subreddit_slugs.py:3-12 | without chains every subreddit of a feed ends with exactly one canonical row, holding the furthest watermark of its class |
| SlugMigration.SettledSlugsNeverChain | apps/core/feeds/migrations/0002_lowercase_reddit_subreddit_slugs.py:30-37 | tables of settled slugs have no chains |
| SlugMigration.EverySlugIsServedIff | apps/core/feeds/migrations/0002_lowercase_reddit_subreddit_slugs.py:61-63 | every slug keeps a row that holds its progress exactly when no canonical slug is the present slug of a later non-canonical row |
| SlugMigration.NoProgressIsLostIff | apps/core/feeds/migrations/0002_lowercase_reddit_subreddit_slugs.py:61-63 | the merge loses no progress, for all watermarks, exactly when the table before the run has no row merged into a later row that is itself merged |
| SlugMigration.IdempotentIff | apps/core/feeds/migrations/0002_lowercase_reddit_subreddit_slugs.py:12 | the migration is idempotent exactly on the tables where every Reddit row has a settled slug or is chained to a later row |
| SlugMigration.DoublePrefixTakesTwoRuns | apps/core/feeds/migrations/0002_lowercase_reddit_subreddit_slugs.py:12 | for any slug, a single row with two prefixes before it changes again in the second run |
| SlugMigration.DoublePrefixLosesProgress | apps/core/feeds/migrations/0002_lowercase_reddit_subreddit_slugs.py:61-63 | for any slug, rows with no, one and two prefixes lose the furthest watermark |
| Ulid.ValidIff | apps/core/common/fields.py:9-21 | a valid id is 26 characters of the pattern, no more and no less |
| Ulid.DigitsSpellTheAlphabet | apps/core/common/fields.py:9-11 | the characters of the digits are the Crockford alphabet in order |
| Ulid.EncodeTime | apps/core/common/fields.py:33 | digits put in front from the least significant give the big-endian encoding |
| Ulid.EncodeIsFaithful | apps/core/common/fields.py:33 | a time that fits is read back from its digits |
| Ulid.ValueIsFaithful | apps/core/common/fields.py:9-11 | and every digit string is the encoding of its value |
| Ulid.LessIsNumeric | apps/core/common/fields.py:27-29 | string order of equally long digit strings is numeric order |
| Ulid.MinUlidAt | apps/core/common/fields.py:24-33 | the millisecond in ten digits and sixteen zeros |
| Ulid.EveryDatetimeFits | apps/core/common/fields.py:24-33 | ten digits hold the millisecond of every datetime |
| Ulid.CutoffSelectsByMillisecond | apps/core/common/fields.py:27-31 | an id is below the cutoff in string order exactly when its millisecond is below the instant's |
| Ulid.CutoffIsLeast | apps/core/common/fields.py:25 | the cutoff is a valid id of its millisecond and the least one |
| ErrorPaths.LocToPath | apps/core/common/pydantic_errors.py:16-31 | the loop over parts prints the path of the location |
| ErrorPaths.PathStarts | apps/core/common/pydantic_errors.py:25-31 | a path starts with a name as it is or an index in brackets, and the empty location is the root |
| ErrorPaths.PathGrows | apps/core/common/pydantic_errors.py:26-30 | it goes on with a dot before a name and brackets around an index |
| ErrorPaths.DecimalIs | apps/core/common/pydantic_errors.py:28 | an index is written in base ten |
| ErrorPaths.ParseInvertsIff | apps/core/common/pydantic_errors.py:19-23 | a parser recovers the location exactly when its names have no dot or bracket, a leading empty name shows, and it is not the name `__root__` alone |
| ErrorPaths.LeavesNeverCollide | apps/core/common/pydantic_errors.py:21-23 | so different leaves have different paths |
| ErrorPaths.SiblingsCollideIff | apps/core/common/pydantic_errors.py:21-23 | siblings with any names collide only at the root, and there only as an index against its spelling or an empty key against `__root__` |
| ErrorPaths.DottedNamesCollide | apps/core/common/pydantic_errors.py:19-21 | a dotted key prints like a nested one |
| ErrorPaths.PydanticErrorsToDrf | apps/core/common/pydantic_errors.py:34-46 | each path has its messages in order, and as many messages come out as went in |
| ErrorPaths.MessagesComeInOrder | apps/core/common/pydantic_errors.py:37-45 | a path's list is the messages of its failures, all of them, each once, in the order they came |
| ErrorPaths.OneLeafPerPath | apps/core/common/pydantic_errors.py:35-38 | for recoverable locations a path's list is the messages of one location |
| Waitlist.CanonicalSorts | apps/core/waitlist/services/waitlist.py:24-26 | canonicalising sorts by enum rank and keeps exactly the votes cast |
| Waitlist.CanonicalIsStable | apps/core/waitlist/services/waitlist.py:26 | strings outside the enum keep the order in which the set iterates |
| Waitlist.SetSemanticsIff | apps/core/waitlist/services/waitlist.py:18-21 | the vote depends on the set alone exactly when at most one string in it is outside the enum |
| Waitlist.CanonicalIsIdempotent | apps/core/waitlist/services/waitlist.py:18-26 | a canonical vote read back in any order is itself |
| Waitlist.CanonicalFollowsTheEnum | apps/core/waitlist/services/waitlist.py:18-26 | votes of the enum come in the enum's order |
| Waitlist.WaitlistService.Signup | apps/core/waitlist/services/waitlist.py:33-84 | create and enqueue on the first call, record a non-empty changed vote on later ones, else write nothing |
| Waitlist.RowsAreAFold | apps/core/waitlist/services/waitlist.py:40-54 | over any calls there is one row per normalised address, with the first call's id and source and the last non-empty vote |
| Waitlist.OneWelcomePerRow | apps/core/waitlist/services/waitlist.py:42-43 | a row gets exactly one welcome under its own key if its creating call lived to queue it, and otherwise never one |
| Waitlist.WelcomesHaveRows | apps/core/waitlist/services/waitlist.py:65-72 | every queued welcome belongs to a row |
| Waitlist.WelcomeAddress | apps/core/mailer/services/mailer.py:38-39 | the queue's normalising leaves the row's address as it is |
| Waitlist.SameAddress | apps/core/waitlist/services/waitlist.py:55 | two spellings are one address exactly when, apart from white space around them, they differ only in case |
| Waitlist.ResubmittingIsANoOp | apps/core/waitlist/services/waitlist.py:19-21 | posting again what is on record, in any order, writes nothing |
| ShortLinks.ClickRecorder.SeenRecently | apps/core/links/services/short_link.py:232-246 | seen exactly when the cache answers and holds a live entry; otherwise it starts a window |
| ShortLinks.ClickRecorder.RecordClick | apps/core/links/services/short_link.py:117-143 | one row with the link, address hash, country and instant of the visit, or none: none exactly when the insert fails or the cache holds a live entry of a visitor with an address |
| ShortLinks.RecordedClicksAreSpaced | apps/core/links/services/short_link.py:233-236 | recorded visits of one visitor are at least a window apart by the instants the cache was asked, even with disagreeing clocks, so a stretch of time bounds their number |
| ShortLinks.DedupIsExact | apps/core/links/services/short_link.py:117-143 | a visit goes unrecorded exactly when the same visitor has a recorded visit to the same link less than a window ago |
| ClickStats.StatsFor | apps/core/links/services/short_link.py:151-169 | every id gets the statistics of its own clicks, whatever the chunking, the repetitions and the order of equal groups |
| ClickStats.StatsAre | apps/core/links/services/short_link.py:159-169 | those statistics, counted over the rows of the table: total, distinct addresses that are not blank, and rows per country |
| ClickStats.AddGroups | apps/core/links/services/short_link.py:165-166 | the groups of a chunk are written one over the other |
| ClickStats.ChunkShows | apps/core/links/services/short_link.py:165-166 | a chunk's groups, largest first, leave each code of its links at that link's count, and the smaller of two counts under the placeholder |
| ClickStats.UniqueAtMostTotal | apps/core/links/services/short_link.py:160-164 | never more visitors than recorded clicks |
| ClickStats.CountriesAddUp | apps/core/links/services/short_link.py:165-169 | the countries add up to the total, short of the larger unknown group when both kinds are stored |
| ClickStats.CountriesAddUpIff | apps/core/links/services/short_link.py:165-169 | so they add up exactly when not both an empty country and the placeholder are stored |
| Heartbeat.TelemetrySettings.ClaimHeartbeat | apps/core/telemetry/service.py:60-86 | the UPDATE wins exactly when the mode is not off and the last stamp is missing or more than the interval old |
| Heartbeat.TelemetrySettings.SetMode | apps/core/telemetry/service.py:31-48 | only off and anonymous can be set, the stamp is never touched, the event fires on leaving off |
| Heartbeat.HeartbeatsAreSpaced | apps/core/telemetry/service.py:61-70 | in any interleaving and with any clock readings winning stamps grow by more than the interval, which bounds their number in any stretch |
| Heartbeat.OffIsSilent | apps/core/telemetry/service.py:62-63 | while the mode stays off nothing is won and the stamp stays |
| Heartbeat.StampIsTheLastWin | apps/core/telemetry/service.py:62-70 | the stored stamp is always the last win |
| Heartbeat.FiresOncePerReEnableIff | apps/core/telemetry/service.py:42-47 | firings balance against the times the mode was turned off at every moment of a run exactly when each save of anonymous still knows whether the mode is off |
| Heartbeat.SerialChangesAreFresh | apps/core/telemetry/service.py:37-48 | calls that do not overlap are such a run |
| Heartbeat.OverlappingChangesFireTwice | apps/core/telemetry/service.py:38-47 | two overlapping calls can fire twice for one change |
| Backfill.ChainIsTheRest | apps/core/watches/operations/backfill.py:94-103 | the chain from the target holds each action at or after its rank once, and nothing else |
| Backfill.CountRunsForAction | apps/core/watches/services/runs/_backfill_select.py:144-157 | counting runs counts the given items that have one, or one that is not in flight, because runs are unique on action and item |
| Backfill.Preview | apps/core/watches/views_backfill.py:95-140 | the sums and differences are the number of finished runs along the chain, and of present items left without a run of the target |
| Backfill.PredictedIs | apps/core/watches/views_backfill.py:95-140 | the predicted deletes are the runs in a final state along the chain, none in flight, and the predicted enqueues the present items then without a run of the target |
| Backfill.DeletableIsFinished | apps/core/watches/services/runs/_backfill_select.py:21-26 | a run may be deleted exactly when it is in a final state or has failed for good; queued, running and retrying runs may not |
| Backfill.PresentAfterIs | apps/core/watches/services/runs/_backfill_select.py:35-82 | which items the action before the target offers: a successful run in the windows, which include their start and exclude their end, and an item that still exists |
| Backfill.PresentHeadIs | apps/core/feeds/services/feeds/_backfill_select.py:67-90 | which items a first action is offered: those of the watch's feeds in the window |
| Backfill.EnqueueArithmetic | apps/core/watches/views_backfill.py:121-129 | present minus existing plus finished runs of the target is the number of items lacking one after the deletes, so never negative |
| Backfill.BackfillOperation.DeleteTerminalForAction | apps/core/watches/services/runs/_backfill_select.py:127-142 | one DELETE over the items present as the table then stands: exactly the runs of the action on them that are not in flight go |
| Backfill.BackfillOperation.DeletePhase | apps/core/watches/operations/backfill.py:189-218 | exactly the finished runs of the whole chain on present items go, once, and are counted; work in flight stays; a stamped job deletes nothing and repeats its count |
| Backfill.BackfillOperation.EnqueueMany | apps/core/watches/services/runs/_service.py:100-181 | chunk by chunk, exactly the items without a run get a pending one, and they are counted |
| Backfill.BackfillOperation.Execute | apps/core/watches/operations/backfill.py:131-177 | a job that has not deleted yet reports exactly what the dry run predicts, which is how the table shrinks and grows; work in flight is untouched, and of the finished runs only fresh ones of the target stand again |
| Backfill.PresentIsStable | apps/core/watches/operations/backfill.py:52-91 | deleting runs of the chain does not change what the source offers, so preview, deletes and enqueue see the same items |
| Backfill.RetryEndsAlike | apps/core/watches/operations/backfill.py:189-202 | after a crash past the stamp, with the drain at work meanwhile, the second attempt finds nothing to delete, leaves every run it meets, gives the target runs for the same items, and enqueues what was missing of the first |
| Backfill.DeletedIsExactIff | apps/core/watches/operations/backfill.py:206-218 | a job interrupted before its stamp ends with the same deletes, but reports the predicted number exactly when nothing had gone yet |

## Left out

- HTTP views, serializers, cookies, routing, settings, the command line, templates and the web code.
- The connectors, the LLM engine, SMTP, rendering, DNS and address checks: a fetch is whatever a connector yields.
- The Reddit connector's paging and caps, except for what `RedditBatch.TruncationStrandsIff` says of a fetch that is cut short.
- Retention pruning and the branch that skips it after a full outage; "recorded" means ever recorded.
- The watch-run drain, digests and chain edits; the email queue follows the same claim protocol.
- The device-session handshake, whose get-then-put steps give no single-delivery guarantee.
- Time zones, naive datetimes, and the rounding of `dt.timestamp() * 1000`, which goes through a float; times before 1970.
- The `ulid` package is not part of this model: `encode_time` is taken to write big-endian digits.
- Unicode case folding and white space, and slugs that are not strings.
- Database isolation: a statement is one step, and a transaction is one step. The claim of an email and the refresh after it are one step.
- Entries a cache evicts before they expire, and the check-then-insert `add` of the database cache.
- The check that a feed is curated, account scoping, and progress callbacks.
- `clean_union_errors`, which runs before errors are grouped.
- How a watch's feeds are looked up; runs of one action under two watches (an action belongs to one path of one watch).
- Claim, reaping and attempts of backfill jobs, and two workers on one job.
- Short-link creation, deletion and random codes; hashing of addresses; referer and country headers.
- Registries, plugin guards, durations, limits and version checks: short predicates.
- Strength of secrets and tokens.
- Ulid.MinUlidAt: takes whole microseconds since 1970 and divides exactly, where the code multiplies a float.
- ErrorPaths.PydanticErrorsToDrf: takes the errors after `clean_union_errors`.
- ShortLinks.ClickRecorder.RecordClick: leaves out the user agent and the referer; the time kept is that of the visit.
- ShortLinks.RecordedClicksAreSpaced: is about visit instants; `created_at` is stamped at the insert, so two stamps can be closer.
- RefreshRotation.TokenStore.Revoke: leaves out the paired access token, which the OAuth library deletes; that library is not part of this model.
- RefreshRotation.TokenStore.MintPair: names the access token on the refresh row, without the access row and its expiry.
- Locks.LockLease.Renew: what other processes do between the two cache operations is a parameter here; the interleavings are those of the step system.
- RefreshRotation.TokenStore.Post: the response body and the access token's expiry are not modelled.
- PollInterleaving.NoPostIsStranded: assumes complete fetches and that posts appearing later are newer than those visible, as the watermark itself does.
