# Verification of the Discord analytics backend

A Dafny model of the protocols, caches and transformations of this backend whose guarantees span more
than one call: what holds in every interleaving of the services' database and Redis statements, over
every run of requests, or for every input of a transformation. Each part is one module.

Where the code changes state step by step, the model has a class with the same fields and methods, each
proved against a specification function, and the properties are proved about that function. Where
requests overlap, the model is a state machine whose steps are single statements, in any interleaving.

## The parts

**Concurrent protocols**

- `GuildOnboarding`: `onboardGuild` requests and guild-setup jobs that create the same guild at once.
- `RateLimiter`: the sliding-window limit on channel renames, kept in a trimmed Redis list.
- `IngestBuffer`: the event buffer whose flushes overlap, retry and put their batch back.
- `SyncLock`: the Redis lock around the sync of a guild.
- `RefreshTokens`, `RefreshRace`: refresh-token rotation with reuse detection, as section 4.14.2 of
  RFC 9700 describes it, request after request and with overlapping requests. The user and the admin
  service follow the same rules; one model covers both.
- `InviteRace`, `WorkspaceRace`: overlapping requests to accept one team invite, and overlapping logins
  that create a user's workspace; `Counting` is what both count with.

**Caches and views that must agree with a recount**

- `MemberCounters`: the role, presence and voice counters that event handlers keep by single increments.
- `RoleRecount`: the count of a role's members from scratch when the cache cannot answer;
  `RecountRace`: that count stored beside the handlers.
- `Reconciliation`: the guild table against what Discord lists, with the pager of the guild list.
- `Paging`: the shape of endpoint that `RoleRecount` and `Reconciliation` read.

**Sequences, strings and the calendar**

- `HistorySync`: paging through a channel, leaving out what is stored, inserting week by week.
- `BraceTemplates`, `Placeholders`, `CounterTemplate`: replacing `{name}` groups in several passes
  against one simultaneous substitution.
- `Calendar`, `DateStrings`: the calendar of section 21.4.1 of ECMA-262, its date strings and weeks.
- `ActivityChart`: filling in the days of a chart.

**Relations**

- `UserErasure`: the deletes of a user's erasure under the foreign keys of the schema.
- `Team`: workspaces, invites, roles and memberships.
- `VoiceSession`: join stamps and voice minutes.

`Options` holds the option type.

## Assumptions

- A failed ClickHouse insert wrote nothing, and the code after a successful insert does not throw. Both
  sit in one `try`, so that a throw there would insert the batch again.
- Redis commands and queue `add` calls succeed. In the guild-creation race the database fails only by
  its unique constraints.
- Random tokens are distinct and hashing is injective, so a token is its row.
- `save` of an entity with a known primary key is a read followed by an insert or an update; `save` of
  a new one is an insert.
- All parts of a process share one clock, which does not run backwards. An event and the Redis commands
  it leads to in voice sessions happen at one moment.
- Discord's listings do not change while they are paged through. Messages come newest first, guilds and
  members by increasing id.
- Days of messages lie in years that ISO strings write with four digits.
- The date string that `Intl` makes is a parameter. It and the count hold no brace and no `$`, which
  `replace` would read as a pattern.
- An authenticated request comes from a user whose row exists, as the JWT strategy checks.

## What does not hold, and when it does

Where the code falls short of what it is meant to do, a lemma names a run or an input that shows it, or
states exactly when the intended property holds, or both.

- A guild can be lost: if all requests for it are setup jobs and each is stopped by a missing token, by a
  rejected request for the owner's name or by a login that creates the owner's user row first, no guild
  row is made (`GuildOnboarding.FinishedMeansComplete`, `LoginCanLoseGuild`).
- The rename limit is two per window as long as no two jobs are in flight together; with both of the
  worker's slots in flight it is three. And the key can run out between LPUSH and EXPIRE, which loses a
  fresh stamp; one slot then makes up to three (`RateLimiter.RenamesPerWindow`, `TwoSlotsReachThree`,
  `LostStampBreaksLimit`, `OneSlotAtMostThree`).
- A sync that outlives its lock deletes the key of the next one (`SyncLock.SlowSyncFreesForeignLock`).
- Two overlapping refreshes of one token both succeed (`RefreshRace.OverlappingRefreshesBothSucceed`). A
  chain then has two unrevoked tokens; it has at most one at every moment exactly if no request issues
  into a chain that has one, and so whenever no two requests are together between reading and writing the
  row of one token (`OneLiveIffNoIssueIntoLive`, `OneLiveUnlessReadTogether`, `ReadTogetherCanFork`).
- Detected reuse does not stop refreshes that have already read their row: a token succeeds after it, and
  its user keeps an unrevoked token, exactly for the requests that were past that read
  (`RefreshRace.OverlappingRefreshSurvivesReuse`, `ReuseLeavesRequestsInFlight`).
- Two overlapping accepts both use one invite (`InviteRace.OverlapUsesTwice`). It is used as often as a
  look-up found no membership, and nobody is a member twice exactly if no two of these are of one user
  (`UsesAreAdmitted`, `NoneTwiceIffAdmittedOnce`). First logins that overlap make two workspaces, in the
  same way (`WorkspaceRace.TwoLoginsMakeTwo`, `OneCompanyEachIffMissedOnce`).
- Event handlers read roles and channels from live objects after other awaits, so a role granted right
  after a join is counted twice. The drift of a counter is exactly the sum of such misreadings, and there
  is none if no other event changes an object between an event and its handler's look
  (`MemberCounters.DriftIsMisreading`, `AlignedStaysAligned`, `RoleOnJoinCountsTwice`).
- A role count stored beside the handlers is off by what changed since a member's page, by what handlers
  still owed, and by later misreadings (`RecountRace.DriftAfterStore`, `StoreBeforeIncrement`).
- A role recount that fails on a later page is written and returned as if it were complete, and a role
  that nobody holds keeps its stale entry (`RoleRecount.FailedCountIsFull`, `RefreshedAgreesIff`).
- A rate limit on the first page of the guild list yields the empty list, since `continue` in a
  `do … while (after)` tests the cursor; reconciliation then marks every guild of the main bot as left
  (`Reconciliation.FetchMainBotGuildIds`, `AgreementNeedsFirstPage`).
- The comment on `syncOnGuildDelete` promises a status change, and nothing ever changes it back: a guild
  that the bot left and rejoined stays inactive (`Reconciliation.StatusIsNeverRestored`).
- Placeholder passes differ from one substitution when braces nest or a value holds braces
  (`Placeholders.NestedTemplateDiffers`, `BraceInValueDiffers`,
  `CounterTemplate.NestedTemplateKeepsPlaceholder`).
- If the query for stored message ids fails, history sync goes on knowing none and stores messages again
  (`HistorySync.UnansweredQueryDuplicates`).
- An owner can demote themself, and nobody can undo it (`Team.DemotionIsFinal`). The error message says
  that owners and admins can invite, but an admin who does not own the company acts on another company
  (`Team.OnlyOwnerManages`).
- The bot sends the channel that was left along with a leave, and the consumer takes any event with a
  channel for a join, so a leave from this bot credits nothing. What credits minutes is exactly an update
  whose handler reads both states after the user has left, within a day of the user's last update with a
  channel, and the time it credits may lie outside voice (`VoiceSession.BotUpdateCreditsIff`,
  `BotEventsCreditNothing`, `LateReadCreditsAbsence`).

## Model

| member | source | states |
|---|---|---|
| GuildOnboarding.GuildStore.OnboardGuild | apps/frontend-api/src/guilds/guilds.service.ts:598-654 | undisturbed, an onboarding request takes an existing guild over and changes nothing else, or adds the guild with its owner, its settings and its job; and this is what its statements in the machine do |
| GuildOnboarding.GuildStore.ProcessJob | apps/ingestor-worker/src/ingestor/guild-setup/guild-setup.consumer.ts:85-160 | undisturbed, a setup job queues a sync of a guild that exists, or adds the guild, owned by the user row of the Discord owner it names, with settings and a job; it fails exactly for a new guild without a token, or whose owner has no user row and no answer from Discord; and this is what its statements in the machine do |
| GuildOnboarding.CreateAlone | apps/frontend-api/src/guilds/guilds.service.ts:613-654 | the four statements from the guild insert on add the guild row, its settings and its history-sync job and nothing else |
| GuildOnboarding.NeverTwoGuildRows | apps/frontend-api/src/guilds/guilds.service.ts:598-700 | in every interleaving of onboarding requests, setup jobs and logins there is at most one row per Discord guild |
| GuildOnboarding.FinishedMeansComplete | apps/ingestor-worker/src/ingestor/guild-setup/guild-setup.consumer.ts:85-160 | when all processes have finished, a guild that existed or whose insert someone reached has exactly one row, its settings and its history-sync job; otherwise every process for it was a setup job stopped by a missing token, a rejected request or a duplicate user, and it has no row |
| GuildOnboarding.OwnerIsOnboarder | apps/frontend-api/src/guilds/guilds.service.ts:601-608 | once an onboarding request has finished, the owner is one of the users that onboarded the guild, never the owner a setup job chose |
| GuildOnboarding.OnboardLeavesGuild | apps/frontend-api/src/guilds/guilds.service.ts:655-700 | an onboarding request never ends without its guild row, not even when it ends with an error |
| GuildOnboarding.SetupMakesNamedOwner | apps/ingestor-worker/src/ingestor/guild-setup/guild-setup.consumer.ts:100-124 | in every interleaving, a guild that is new in the run and that nobody onboards is owned by the user whose row has the Discord id that one of its setup jobs names |
| GuildOnboarding.JobsAddUp | apps/ingestor-worker/src/ingestor/guild-setup/guild-setup.consumer.ts:85-157 | once all processes have finished, each that ended done has queued exactly one history sync of its guild, except the onboarding requests whose first look-up found the guild |
| GuildOnboarding.LoginCanLoseGuild | apps/ingestor-worker/src/ingestor/guild-setup/guild-setup.consumer.ts:100-116 | a run in which a login between look-up and insert of the user makes the setup job fail, and no guild row is made |
| GuildOnboarding.FindGuild | apps/ingestor-worker/src/ingestor/guild-setup/guild-setup.consumer.ts:85-87 | a look-up finds a row exactly if the guild has one, and then one of that guild |
| RateLimiter.ChannelLimit.CheckRateLimit | apps/bot-service/src/counters-consumer/counters-consumer.service.ts:247-256 | the check allows a rename exactly if fewer than two stamps lie in the last 600 seconds |
| RateLimiter.ChannelLimit.RecordRateLimit | apps/bot-service/src/counters-consumer/counters-consumer.service.ts:258-264 | undisturbed, recording a rename leaves the key as the machine's three steps do |
| RateLimiter.AgreeStep | apps/bot-service/src/counters-consumer/counters-consumer.service.ts:258-264 | a Redis command or the passing of time keeps the trimmed list in agreement with the full history of stamps exactly if it does not run the key out under a stamp inside the window |
| RateLimiter.ListStandsForHistory | apps/bot-service/src/counters-consumer/counters-consumer.service.ts:247-264 | over a whole run the list trimmed to two with its time to live shows what the full history shows exactly if the key never runs out that way |
| RateLimiter.LossNeedsOpenRecord | apps/bot-service/src/counters-consumer/counters-consumer.service.ts:261-263 | the key can run out too early only between an LPUSH and its EXPIRE |
| RateLimiter.SameVerdict | apps/bot-service/src/counters-consumer/counters-consumer.service.ts:247-256 | where list and history agree they give the same verdict, now and at any later moment |
| RateLimiter.VerdictFromHistory | apps/bot-service/src/counters-consumer/counters-consumer.service.ts:247-256 | in every run that never runs the key out under a stamp inside the window, a check lets its rename go on exactly if no two of the renames recorded when it read the list fall into the 600 seconds before it decides |
| RateLimiter.RenamesPerWindow | apps/bot-service/src/counters-consumer/counters-consumer.service.ts:105-115 | with at most k jobs in flight together every window of 600 seconds holds at most 1 + k recorded renames, so two as long as no two are, whatever the number of slots |
| RateLimiter.RenamesBySlots | apps/bot-service/src/counters-consumer/counters-consumer.service.ts:57 | in any case at most one more than the number of slots |
| RateLimiter.OneSlotAtMostThree | apps/bot-service/src/counters-consumer/counters-consumer.service.ts:258-264 | one slot never makes more than three renames in a window, however often the key runs out under a stamp |
| RateLimiter.TwoSlotsReachThree | apps/bot-service/src/counters-consumer/counters-consumer.service.ts:57 | the bound is reached: two slots make three renames in a window |
| RateLimiter.LostStampBreaksLimit | apps/bot-service/src/counters-consumer/counters-consumer.service.ts:258-264 | one slot makes three renames in a window when the key runs out between LPUSH and EXPIRE |
| IngestBuffer.ClickHouseIngestor.constructor | apps/ingestor-worker/src/ingestor/clickhouse-ingestor.service.ts:36-45 | the service starts with an empty buffer and the clock of its last flush set |
| IngestBuffer.ClickHouseIngestor.PushEvent | apps/ingestor-worker/src/ingestor/clickhouse-ingestor.service.ts:58-68 | a push is the push step of the machine: append, and flush when the batch is full or the interval is over |
| IngestBuffer.ClickHouseIngestor.BeginFlush | apps/ingestor-worker/src/ingestor/clickhouse-ingestor.service.ts:70-75 | a flush takes the whole buffer and starts its first attempt, an empty buffer starts none |
| IngestBuffer.ClickHouseIngestor.OnTimer | apps/ingestor-worker/src/ingestor/clickhouse-ingestor.service.ts:39-55 | the timer and the shutdown are the timer step of the machine, which by `TimerFlushes` empties the buffer into one flush |
| IngestBuffer.ClickHouseIngestor.OnInserted | apps/ingestor-worker/src/ingestor/clickhouse-ingestor.service.ts:81-111 | an attempt that succeeds ends its flush |
| IngestBuffer.ClickHouseIngestor.OnInsertFailed | apps/ingestor-worker/src/ingestor/clickhouse-ingestor.service.ts:112-125 | an attempt that fails leads to the next, the fifth puts the batch back at the front, reversed by the unshift loop |
| IngestBuffer.EventsConserved | apps/ingestor-worker/src/ingestor/clickhouse-ingestor.service.ts:58-127 | in every interleaving each event occurs as often among the pushed ones as among the written, the buffered and the ones in flight together: none is lost, none written twice |
| IngestBuffer.FlushesAreSound | apps/ingestor-worker/src/ingestor/clickhouse-ingestor.service.ts:70-127 | every flush has a non-empty batch and makes between one and five attempts |
| IngestBuffer.TimerFlushes | apps/ingestor-worker/src/ingestor/clickhouse-ingestor.service.ts:39-55 | after any run the timer, and the shutdown with it, leaves the buffer empty, and what was in it is exactly one more flush at its first attempt |
| IngestBuffer.PushFlushesIff | apps/ingestor-worker/src/ingestor/clickhouse-ingestor.service.ts:58-75 | after any run a push starts a flush of the buffer and the new event exactly if that makes a batch or the interval is over, and otherwise only buffers the event |
| IngestBuffer.FlushFate | apps/ingestor-worker/src/ingestor/clickhouse-ingestor.service.ts:76-125 | over any run a flush is written exactly if one of its attempts succeeded, comes back exactly at its fifth failure, and until then is at the attempt after its failures |
| IngestBuffer.AttemptMovesBatch | apps/ingestor-worker/src/ingestor/clickhouse-ingestor.service.ts:81-125 | a success moves the batch into the table, the fifth failure back into the buffer, any other failure nowhere |
| IngestBuffer.GivenUpComesBackReversed | apps/ingestor-worker/src/ingestor/clickhouse-ingestor.service.ts:116-119 | a batch that is given up comes back last event first, before what was buffered since |
| IngestBuffer.BufferShortAfterPush | apps/ingestor-worker/src/ingestor/clickhouse-ingestor.service.ts:61-67 | after a push the buffer is shorter than a batch, also when batches were put back, and holds something only while the last flush is less than an interval ago |
| IngestBuffer.PushOrderKept | apps/ingestor-worker/src/ingestor/clickhouse-ingestor.service.ts:70-127 | while no batch has been given up, the batches in the order taken and then the buffer are the pushed events in order |
| IngestBuffer.FullBatches | apps/ingestor-worker/src/ingestor/clickhouse-ingestor.service.ts:58-73 | without failures and timer, n pushes make n div batchSize flushes of exactly batchSize events and leave n mod batchSize |
| SyncLock.LockKey.Acquire | apps/bot-service/src/internal/guild-sync-internal.service.ts:61-69 | setting the key succeeds exactly when the machine lets a request enter, and leaves the same deadline |
| SyncLock.LockKey.Release | apps/bot-service/src/internal/guild-sync-internal.service.ts:131-133 | the key is gone, whoever set it |
| SyncLock.ExclusionIffNoOverrun | apps/bot-service/src/internal/guild-sync-internal.service.ts:61-69 | no two syncs are ever inside together exactly if none arrives while another has been inside for 120 seconds |
| SyncLock.FinishedInTimeIsExclusive | apps/bot-service/src/internal/guild-sync-internal.service.ts:61-133 | if every sync finishes within 120 seconds, no two are ever inside together |
| SyncLock.GetsInIffNotHeld | apps/bot-service/src/internal/guild-sync-internal.service.ts:61-69 | in every run, also with overruns, a request gets in exactly if no request got in less than 120 seconds ago with no sync ending since; a refused one changes nothing |
| SyncLock.KeyRunsOut | apps/bot-service/src/internal/guild-sync-internal.service.ts:63 | in every run a request gets in if every one that got in before did so 120 seconds ago or earlier: no guild stays locked |
| SyncLock.SlowSyncFreesForeignLock | apps/bot-service/src/internal/guild-sync-internal.service.ts:131-133 | a run in which a slow sync deletes the next one's key and two syncs within their time are inside together |
| RefreshTokens.AuthService.CreateSession | apps/frontend-api/src/auth/auth.service.ts:165-187 | a session adds one unrevoked token of the user and leaves every other row |
| RefreshTokens.AuthService.HandleLogin | apps/admin-api/src/auth/auth.service.ts:40-67 | a login starts a chain of its own |
| RefreshTokens.AuthService.HandleRefresh | apps/frontend-api/src/auth/auth.service.ts:189-232 | a refresh answers and changes the rows as the machine does, whose replies `RefreshReply` gives from the history |
| RefreshTokens.RefreshReply | apps/frontend-api/src/auth/auth.service.ts:189-232 | over any run, from requests and replies alone: a refresh of a token is answered with a new one exactly if the token was issued less than seven days ago, its user was last set active, and no refresh of it has succeeded, no logout of it by its user and no reuse of a token of its user has come since; with reuse detected exactly if one of these has come; with expired exactly if it is only too old |
| RefreshTokens.OtherReplies | apps/admin-api/src/auth/auth.service.ts:40-67 | of all other requests exactly the logins are answered with a token, each with one never issued before |
| RefreshTokens.AuthService.HandleLogout | apps/frontend-api/src/auth/auth.service.ts:234-248 | a logout revokes the token if it is the user's and not yet revoked, and nothing else |
| RefreshTokens.AuthService.RevokeAllForUser | apps/frontend-api/src/auth/auth.service.ts:250-256 | exactly the user's rows are revoked |
| RefreshTokens.RevokeAll | apps/admin-api/src/auth/auth.service.ts:189-195 | every row keeps its place, the user's are revoked and others unchanged |
| RefreshTokens.ChainHasOneLive | apps/frontend-api/src/auth/auth.service.ts:189-256 | after any run of logins, refreshes, logouts and bans one after another, each chain rotated from one login has at most one unrevoked token |
| RefreshTokens.RefreshedAtMostOnce | apps/admin-api/src/auth/auth.service.ts:96-139 | with requests one after another, no token value refreshes successfully twice in a run |
| RefreshTokens.ReuseKillsIssuedTokens | apps/frontend-api/src/auth/auth.service.ts:206-212 | with requests one after another, once a revoked token was presented no token issued to its user before ever refreshes again |
| RefreshTokens.RefreshKeepsLiveCount | apps/frontend-api/src/auth/auth.service.ts:229-231 | a successful refresh leaves every user's number of unrevoked tokens as it was |
| RefreshTokens.RefreshMovesLiveToken | apps/frontend-api/src/auth/auth.service.ts:229-231 | after a successful refresh the issued token is of the same user and chain and is the one unrevoked token of that chain |
| RefreshTokens.SuccessWithinLifetime | apps/admin-api/src/auth/auth.service.ts:121-126 | a token refreshes successfully only within seven days of its issue |
| RefreshTokens.ReuseClearsUser | apps/frontend-api/src/auth/auth.service.ts:250-256 | reuse leaves the user without an unrevoked token and everybody else's number unchanged |
| RefreshRace.SuccessesAreRequestsInFlight | apps/frontend-api/src/auth/auth.service.ts:197-231 | with overlapping requests a token succeeds at most as often as refreshes of it were in flight when it was first revoked, and exactly that often once all have ended |
| RefreshRace.NoSuccessBeforeRevocation | apps/frontend-api/src/auth/auth.service.ts:229-231 | nobody has refreshed a token that is unrevoked |
| RefreshRace.OneLiveIffNoIssueIntoLive | apps/frontend-api/src/auth/auth.service.ts:197-231 | in any interleaving every chain has at most one unrevoked token at every moment exactly if no request issues into a chain that has one |
| RefreshRace.OneLiveUnlessReadTogether | apps/frontend-api/src/auth/auth.service.ts:197-230 | as long as no two requests are together between reading and writing the row of one token, each chain has at most one unrevoked token, however else requests overlap |
| RefreshRace.ReadTogetherCanFork | apps/frontend-api/src/auth/auth.service.ts:197-231 | whenever two requests are together between these statements, the race can go on to leave two unrevoked tokens in the chain |
| RefreshRace.ReuseLeavesRequestsInFlight | apps/frontend-api/src/auth/auth.service.ts:206-212 | when reuse revokes a user's tokens, each of them succeeds in all at most as often as requests had read it as valid by then, and exactly that often once all have ended |
| RefreshRace.OverlappingRefreshSurvivesReuse | apps/frontend-api/src/auth/auth.service.ts:206-231 | a race in which a token succeeds after reuse was detected and its user keeps an unrevoked token |
| RefreshRace.OverlappingRefreshesBothSucceed | apps/frontend-api/src/auth/auth.service.ts:197-231 | a race in which two refreshes of one token succeed and leave two unrevoked tokens in its chain |
| RefreshRace.UndisturbedRefresh | apps/frontend-api/src/auth/auth.service.ts:197-231 | a refresh whose statements nobody comes between answers and changes the rows as the service does in one go |
| RefreshRace.UndisturbedLogin | apps/frontend-api/src/auth/auth.service.ts:165-187 | a login does too |
| RefreshRace.UndisturbedLogout | apps/frontend-api/src/auth/auth.service.ts:234-248 | so does the logout of an unrevoked token by its user |
| MemberCounters.IncrementsNet | apps/bot-service/src/shard/shard-event-handlers.ts:662-682 | the increments of a handler come to what it saw less what was there before, for every counter |
| MemberCounters.CounterCache.IncrBy | apps/bot-service/src/shard/shard-event-handlers.ts:412-414 | one increment changes one counter by its amount and no other |
| MemberCounters.CounterCache.IncrEach | apps/bot-service/src/shard/shard-event-handlers.ts:669-678 | a loop over keys changes each counter by the sum of its increments |
| MemberCounters.CounterCache.Handle | apps/bot-service/src/shard/shard-event-handlers.ts:662-678 | a handler on its own changes every counter by exactly the net change of its event |
| MemberCounters.RecountChange | apps/bot-service/src/shard/shard-event-handlers.ts:720-728 | when Discord's view of one user changes, the recount of each counter changes by the same net amount |
| MemberCounters.DriftIsMisreading | apps/bot-service/src/shard/shard-event-handlers.ts:409-416 | in any interleaving of the handlers' increments, once all have finished each cached count has drifted from the recount by exactly the handlers' misreadings of live objects |
| MemberCounters.FollowHandler | apps/bot-service/src/shard/shard-event-handlers.ts:401-416 | until it looks, a handler's object shows what its event left, if no other event changes it, and so that is what the handler sees; an object of a member who left stays as it was |
| MemberCounters.AlignedStaysAligned | apps/bot-service/src/shard/shard-event-handlers.ts:606-612 | an aligned cache stays equal to the recount if between each event and its handler's look no other event changes the object the handler looks at |
| MemberCounters.RoleOnJoinCountsTwice | apps/bot-service/src/shard/shard-event-handlers.ts:406-415 | a run in which a role granted right after a join is counted by both handlers |
| Paging.NextPage | apps/bot-service/src/guild-sync/guild-reconciliation.service.ts:141-184 | with the last id as the cursor, the next page is the next stretch of an ascending listing |
| RoleRecount.FetchRoleMemberCount | apps/bot-service/src/counters-consumer/counters-consumer.service.ts:205-245 | the count returned and the counts written are those of exactly the members whose pages were served, for any total: all of them, or a thousand for each request before the one that failed; roles that none of them has keep their entry |
| RoleRecount.CountIsHolders | apps/bot-service/src/counters-consumer/counters-consumer.service.ts:231-236 | as no member has a role twice, the count is the number of members that have it |
| RoleRecount.FailedCountIsFull | apps/bot-service/src/counters-consumer/counters-consumer.service.ts:217-229 | a count cut short by a failed request is the full one exactly if no later member has the role |
| RoleRecount.RefreshedAgreesIff | apps/bot-service/src/counters-consumer/counters-consumer.service.ts:241-244 | after a full count the cache agrees for a role exactly if someone has it or its old entry was zero or missing |
| RecountRace.DriftAfterStore | apps/bot-service/src/counters-consumer/counters-consumer.service.ts:216-244 | once all handlers have finished, a counter that was stored beside them is off by exactly what changed between a member's page and the store, what handlers still owed at the store, and their misreadings from then on |
| RecountRace.StoreBeforeIncrement | apps/bot-service/src/counters-consumer/counters-consumer.service.ts:241-244 | a run in which a member is counted by the recount and again by the handler of the join |
| Reconciliation.FetchMainBotGuildIds | apps/bot-service/src/guild-sync/guild-reconciliation.service.ts:137-187 | the pager returns all ids for any total, multiples of 200 included, and whatever later rate limits, if the first request is not rate limited; if it is, the empty set; it fails only if Discord refuses |
| Reconciliation.GuildTables.OnGuildDelete | apps/bot-service/src/guild-sync/guild-sync.updates.ts:102-124 | exactly the guild of that Discord id is marked as left, inactive and disconnected, and keeps its shard; something is saved exactly if it exists |
| Reconciliation.GuildTables.OnGuildCreate | apps/bot-service/src/guild-sync/guild-sync.updates.ts:62-97 | exactly the guild of that Discord id is marked as joined on that shard and connected, and keeps its status; something is saved exactly if it exists |
| Reconciliation.GuildTables.ReconcileMainBot | apps/bot-service/src/guild-sync/guild-reconciliation.service.ts:77-134 | the two loops bring every guild to what the pass says of it, and save exactly if that changes something |
| Reconciliation.GuildTables.ReconcileCustomGuild | apps/bot-service/src/guild-sync/guild-reconciliation.service.ts:191-219 | a custom guild is brought to its client's cache, and saved exactly if that changes something |
| Reconciliation.GuildTables.ReconcileCustomTokens | apps/bot-service/src/guild-sync/guild-reconciliation.service.ts:189-221 | the loop does this for every custom guild and touches no other |
| Reconciliation.GuildTables.Reconcile | apps/bot-service/src/guild-sync/guild-reconciliation.service.ts:47-59 | both passes together; the tables are written exactly if they end up different |
| Reconciliation.AgreesWithView | apps/bot-service/src/guild-sync/guild-reconciliation.service.ts:77-134 | afterwards a guild of a live custom client agrees with that client's cache, and any other is present exactly if it is listed or an unlisted one with a stored token that was present before |
| Reconciliation.AgreesWithoutList | apps/bot-service/src/guild-sync/guild-reconciliation.service.ts:67-75 | without a list custom guilds still come to agree and no other guild changes |
| Reconciliation.ChangesOnlyWithFlag | apps/bot-service/src/guild-sync/guild-reconciliation.service.ts:205-219 | a guild whose presence flag stays is unchanged; one that comes back is on shard 0, connected and of the status it had; one that goes is inactive, disconnected and keeps its shard; tokens and ids stay |
| Reconciliation.SecondRunChangesNothing | apps/bot-service/src/guild-sync/guild-reconciliation.service.ts:47-59 | a second reconciliation against the same view changes nothing, hence by `Reconcile` writes nothing |
| Reconciliation.AgreementNeedsFirstPage | apps/bot-service/src/guild-sync/guild-reconciliation.service.ts:161-171 | the main bot's guilds agree with Discord's listing exactly if the first request was not rate limited, or none of them is listed |
| Reconciliation.StatusIsNeverRestored | apps/bot-service/src/guild-sync/guild-sync.updates.ts:84-86 | after any run of joins, leaves and reconciliations a guild is active exactly if it was and no event marked it as left |
| Reconciliation.RejoinedStaysInactive | apps/bot-service/src/guild-sync/guild-sync.updates.ts:113-115 | after a leave and a join the bot is in the guild and the guild is inactive |
| HistorySync.FetchMessagesForChannel | apps/ingestor-worker/src/ingestor/history-sync/history-sync.service.ts:185-257 | the loop returns exactly what `Outcome` makes of the scan depth and Discord's answers, for any finite number of rate limits |
| HistorySync.OutcomeExactly | apps/ingestor-worker/src/ingestor/history-sync/history-sync.service.ts:185-257 | with i the first answer that is neither a page nor a rate limit: the first min(scanDepth, length) messages if there is none or the pages before it are enough; the full pages before it if it denies access; a failure if it is any other error |
| HistorySync.OutcomeIsPrefix | apps/ingestor-worker/src/ingestor/history-sync/history-sync.service.ts:185-257 | it fails only on an error, and otherwise returns a beginning of the wanted messages, all of them if nothing was refused |
| HistorySync.CollectNew | apps/ingestor-worker/src/ingestor/history-sync/history-sync.service.ts:109-125 | the loop with the growing set collects what `NewOnes` says of all channels' messages in order |
| HistorySync.NewOnesSound | apps/ingestor-worker/src/ingestor/history-sync/history-sync.service.ts:116-123 | what is collected has no id twice and exactly the ids that were read and not known |
| HistorySync.NewOnesOfOne | apps/ingestor-worker/src/ingestor/history-sync/history-sync.service.ts:116-123 | one message is collected exactly if its id is not known |
| HistorySync.NewOnesContinue | apps/ingestor-worker/src/ingestor/history-sync/history-sync.service.ts:116-123 | collecting goes on with the ids read so far as known; with `NewOnesOfOne` this fixes what is collected and its order |
| HistorySync.NothingNewIffKnown | apps/ingestor-worker/src/ingestor/history-sync/history-sync.service.ts:107-125 | a sync collects nothing exactly if it knows every id it reads |
| HistorySync.InsertEvents | apps/ingestor-worker/src/ingestor/history-sync/history-sync.service.ts:330-344 | grouping in a map and slicing each week makes the inserts that `Chunks` says, in order |
| HistorySync.ChunksWeekByWeek | apps/ingestor-worker/src/ingestor/history-sync/history-sync.service.ts:330-344 | the inserts are the slices of each week's rows, week after week in the order the weeks first occur |
| HistorySync.SlicesAreFull | apps/ingestor-worker/src/ingestor/history-sync/history-sync.service.ts:340-342 | every slice of a week but the last has exactly 10000 rows |
| HistorySync.SlicesCount | apps/ingestor-worker/src/ingestor/history-sync/history-sync.service.ts:340-342 | a week takes the fewest inserts of 10000 rows that hold it |
| HistorySync.ChunksKeepWeeks | apps/ingestor-worker/src/ingestor/history-sync/history-sync.service.ts:330-344 | the inserts one after another hold the rows of every week unchanged and in order |
| HistorySync.ChunksArePermutation | apps/ingestor-worker/src/ingestor/history-sync/history-sync.service.ts:330-344 | the inserts one after another are a permutation of the input |
| HistorySync.InsertsStayInOneWeek | apps/ingestor-worker/src/ingestor/history-sync/history-sync.service.ts:339-343 | each insert is non-empty, has at most 10000 rows, and one Monday is the last one on or before the days of all of them |
| HistorySync.ResumedSyncIsExactlyOnce | apps/ingestor-worker/src/ingestor/history-sync/history-sync.service.ts:107-142 | a sync that broke off after any number of inserts and one that gets through leave every message stored exactly once, and a third inserts nothing |
| HistorySync.UnansweredQueryDuplicates | apps/ingestor-worker/src/ingestor/history-sync/history-sync.service.ts:259-274 | if the query for the stored ids fails, stored messages are stored again |
| Calendar.MakeDayShifts | apps/ingestor-worker/src/ingestor/history-sync/history-sync.service.ts:353 | setting the date to the date less k moves the day back by k across any month or year end |
| Calendar.FieldsOfMakeDay | libs/shared/src/analytics/shared-analytics.service.ts:242-243 | every calendar date is the date of the day it makes |
| Calendar.EpochFields | libs/shared/src/analytics/shared-analytics.service.ts:246 | day 0 is 1 January 1970 |
| Calendar.DayAfter | libs/shared/src/analytics/shared-analytics.service.ts:245-246 | each day's date follows the one before as in the Gregorian calendar, which with the epoch fixes the date of every day |
| Calendar.IsoDateOrdered | libs/shared/src/analytics/shared-analytics.service.ts:246 | date strings with four-digit years sort as their days do |
| Calendar.IsoDateInjective | libs/shared/src/analytics/shared-analytics.service.ts:246 | different days have different date strings |
| Calendar.IsoDateReads | libs/shared/src/analytics/shared-analytics.service.ts:246 | a date string is the year in four digits, the month from 01 and the day of the month in two, with dashes between |
| Calendar.WeekStartIsMonday | apps/ingestor-worker/src/ingestor/history-sync/history-sync.service.ts:349-355 | stepping back by the weekday ends on the last Monday on or before the day |
| Calendar.SameKeyIffSameMonday | apps/ingestor-worker/src/ingestor/history-sync/history-sync.service.ts:349-355 | two days have the same week key exactly if one Monday is the last one on or before both |
| DateStrings.ParseOfDate | libs/shared/src/analytics/shared-analytics.service.ts:242-246 | a date string that was written for a day is read as that day |
| DateStrings.DateOfParse | libs/shared/src/analytics/shared-analytics.service.ts:242-246 | a date string that can be read is the one its day is written as |
| ActivityChart.GetActivityChart | libs/shared/src/analytics/shared-analytics.service.ts:201-257 | for two calendar dates the loop in milliseconds over a map by date gives one point for each day from the first to the last, both counted, and none if the last is earlier |
| ActivityChart.DatesAreTheRange | libs/shared/src/analytics/shared-analytics.service.ts:242-246 | the chart's dates are exactly the calendar's dates in the range |
| ActivityChart.DatesIncrease | libs/shared/src/analytics/shared-analytics.service.ts:245-246 | they increase strictly, so that no day comes twice |
| ActivityChart.EachDayShowsItsRow | libs/shared/src/analytics/shared-analytics.service.ts:247-254 | a day with a row shows that row's point, a day without is zero |
| ActivityChart.RowIsShownUnchanged | libs/shared/src/analytics/shared-analytics.service.ts:231-254 | the point of a row's day has the row's own messages, members and voice minutes, each in its own field |
| ActivityChart.EmptyDayIsZero | libs/shared/src/analytics/shared-analytics.service.ts:247-254 | the point of a day without a row is zero in every field |
| ActivityChart.ChartKeepsSums | libs/shared/src/analytics/shared-analytics.service.ts:231-257 | each column of the chart sums to what the rows' own fields of that column sum to |
| BraceTemplates.TwoPassesAreOne | libs/shared/src/welcome-goodbye/placeholders.util.ts:36-39 | two replacement passes are one simultaneous substitution when braces do not nest and the first inserts none |
| BraceTemplates.NoGroupLeft | libs/shared/src/counters/counter-template.util.ts:48-51 | a substitution that covers a set of names leaves no group with such a name |
| BraceTemplates.CutCreatesNoGroup | libs/shared/src/counters/counter-template.util.ts:52-54 | cutting a text off creates no group |
| Placeholders.PassIsApply | libs/shared/src/welcome-goodbye/placeholders.util.ts:38 | a split and join at a placeholder is the substitution of that one name, in any text |
| Placeholders.ReplacePlaceholders | libs/shared/src/welcome-goodbye/placeholders.util.ts:30-41 | the loop makes the passes in order; when braces do not nest and no value has one, that is one simultaneous substitution of the six names by their parts of the context |
| Placeholders.PassesAreOneSubstitution | libs/shared/src/welcome-goodbye/placeholders.util.ts:36-40 | any list of passes is one simultaneous left-to-right substitution under these conditions |
| Placeholders.OrderDoesNotMatter | libs/shared/src/welcome-goodbye/placeholders.util.ts:17-24 | any reordering of the pairs gives the same text |
| Placeholders.PlaceholderShows | libs/shared/src/welcome-goodbye/placeholders.util.ts:17-41 | in a text without other braces, {user} becomes the mention, {username} the name, {userTag} the tag, {userId} the id, {server} the server's name and {memberCount} the count, each empty if it is missing, and any other group stays |
| Placeholders.NestedTemplateDiffers | libs/shared/src/welcome-goodbye/placeholders.util.ts:36-39 | nested braces, as in a placeholder inside another's braces, give a text that no single substitution gives, by whatever names and values |
| Placeholders.BraceInValueDiffers | libs/shared/src/welcome-goodbye/placeholders.util.ts:37-38 | a value that looks like a later placeholder is replaced in turn |
| CounterTemplate.FormatCounterChannelName | libs/shared/src/counters/counter-template.util.ts:35-56 | the name is the longest beginning of the replaced text that has at most 100 characters |
| CounterTemplate.FormatNumberReadsBack | libs/shared/src/counters/counter-template.util.ts:16-18 | the count string reads as the count, sign included |
| CounterTemplate.CommasEveryThree | libs/shared/src/counters/counter-template.util.ts:16-18 | commas stand before every third digit from the end and nowhere else |
| CounterTemplate.ReplacedIsOnePass | libs/shared/src/counters/counter-template.util.ts:48-51 | the three replacements are one pass that makes each date group, in any case, the date and every other word group the count |
| CounterTemplate.NoPlaceholderShows | libs/shared/src/counters/counter-template.util.ts:48-55 | the name is the cut of that pass and shows no placeholder, cut or not |
| CounterTemplate.GroupShows | libs/shared/src/counters/counter-template.util.ts:35-56 | a group in a text without other braces shows the date if it is "date" in any case, stays if it is not made of letters, digits and underscores, and otherwise shows a text of digits and commas that reads as the count with its sign, or 1,234 without a count; the whole cut at 100 characters |
| CounterTemplate.NestedTemplateKeepsPlaceholder | libs/shared/src/counters/counter-template.util.ts:48-51 | with nested braces a placeholder can be left |
| UserErasure.Database.DeleteAllUserData | apps/frontend-api/src/user-data/user-data.service.ts:30-62 | from a consistent database no delete is refused and the result is the erased database; if one is refused nothing changes |
| UserErasure.DeletesErase | apps/frontend-api/src/user-data/user-data.service.ts:45-50 | each of the six deletes is permitted in turn, and together they remove exactly the user, the rows that cannot do without the user, and what is inside these |
| UserErasure.InnerDelete | libs/shared/src/database/migrations/1738166400000-InitialSchema.ts:70-96 | a delete of rows that are not users, admins or plans is always permitted, cascades one level and nulls nothing |
| UserErasure.ErasedIsClean | libs/shared/src/database/migrations/1738166400000-InitialSchema.ts:48-246 | the erased database is consistent, and neither the user nor a reference to the user is left |
| UserErasure.OthersKeepTheirRows | libs/shared/src/database/migrations/1738166400000-InitialSchema.ts:211-246 | a row that stays keeps its data and loses exactly its references to the user; one without such a reference is unchanged |
| UserErasure.ErasedByTable | libs/shared/src/database/migrations/1738166400000-InitialSchema.ts:48-246 | table by table: which rows an erasure removes; invoices and activity-log entries are kept without the user, and what is left of every other table is as it was |
| UserErasure.UserGoesLast | apps/frontend-api/src/user-data/user-data.service.ts:45-50 | the user's own row can be deleted exactly when none of the five other kinds of row is left |
| Team.TeamService.FindMembership | apps/frontend-api/src/team/team.service.ts:196-198 | the look-up finds the user's one membership in the company, if there is one |
| Team.TeamService.EnsureDefaultWorkspace | apps/frontend-api/src/team/team.service.ts:43-73 | a user without a company gets one and an owner membership in it, otherwise nothing changes |
| Team.TeamService.InviteTeamMember | apps/frontend-api/src/team/team.service.ts:185-227 | an invitation changes the tables and answers as the machine does, whose answers `InvitesIff` and `OthersAreRefused` give |
| Team.TeamService.Accept | apps/frontend-api/src/team/team.service.ts:229-272 | an invite that exists, has not expired and leads to no second membership becomes a membership and is gone |
| Team.TeamService.UpdateTeamMemberRole | apps/frontend-api/src/team/team.service.ts:274-322 | an owner sets the role of a member of the own company, others are refused |
| Team.TeamService.RemoveTeamMember | apps/frontend-api/src/team/team.service.ts:324-376 | owners and admins remove members of the own company other than themselves, admins no owners |
| Team.WorkspaceIsMade | apps/frontend-api/src/team/team.service.ts:43-73 | a user who owns no company gets one, with an owner membership in it |
| Team.WorkspaceStays | apps/frontend-api/src/team/team.service.ts:47-56 | for a user who owns one nothing changes |
| Team.InvitesIff | apps/frontend-api/src/team/team.service.ts:185-227 | the owner of a company can invite exactly with the role owner or admin, and the invite is to that company, with the offered role and seven days; otherwise nothing changes |
| Team.RoleIsSetIff | apps/frontend-api/src/team/team.service.ts:274-322 | the owner of a company sets a role exactly with the owner role and for a member of that company; that member then has the role asked for and nothing else changes; which refusal otherwise |
| Team.RemovesIff | apps/frontend-api/src/team/team.service.ts:324-376 | the owner of a company removes exactly members of it other than the owner, with the owner role any, with the admin role those who are no owners, with the member role none |
| Team.OthersAreRefused | apps/frontend-api/src/team/team.service.ts:36-41 | a user without a company of their own can neither invite nor change roles nor remove, and one without a user row nothing at all |
| Team.AcceptIsRefusedIff | apps/frontend-api/src/team/team.service.ts:233-256 | exactly when an invite is not found, expired, refused for a membership, or accepted |
| Team.TeamsAreSound | apps/frontend-api/src/team/team.service.ts:43-376 | after any run each company's owner is a member of it, nobody is a member of one company twice, and nobody owns two |
| Team.EraseKeepsInv | apps/frontend-api/src/user-data/user-data.service.ts:45-50 | erasing a user keeps all of this |
| Team.EraseIsExact | apps/frontend-api/src/user-data/user-data.service.ts:45-50 | an erasure leaves exactly the companies of others, and the memberships and invites of others in these, unchanged |
| Team.AcceptedAtMostOnce | apps/frontend-api/src/team/team.service.ts:257-266 | in any run each invite is accepted at most once, and an accepted one is gone |
| Team.InviteGrantsItsRole | apps/frontend-api/src/team/team.service.ts:208-266 | after any requests in between, an invite can be accepted exactly by a user who is no member yet, within seven days and while it is there, and then gives the offered role in the inviter's company |
| Team.RemovalIsExact | apps/frontend-api/src/team/team.service.ts:346-374 | a removal takes exactly the named row, of the remover's own company and of somebody else |
| Team.MembershipsAddUp | apps/frontend-api/src/team/team.service.ts:62-374 | while nobody is erased, memberships are workspaces plus accepted invites less removals |
| Team.OnlyOwnerManages | apps/frontend-api/src/team/team.service.ts:36-41 | whatever role a user has in somebody else's company, the user's invitations, role changes and removals leave it alone |
| Team.RoleChangeNeedsOwnerRole | apps/frontend-api/src/team/team.service.ts:286-302 | whoever changes a role owns the company and has the owner role in it |
| Team.DemotionIsFinal | apps/frontend-api/src/team/team.service.ts:293-311 | an owner who gave up the owner role never gets it back, whatever anybody requests |
| Team.DemotedOwnerIsRefused | apps/frontend-api/src/team/team.service.ts:296-301 | without the owner role an owner can change no role, and as a plain member manage nothing |
| Team.OwnerCanDemoteSelf | apps/frontend-api/src/team/team.service.ts:302-311 | any owner can give up the owner role by one request |
| InviteRace.UsedOnceWithoutOverlap | apps/frontend-api/src/team/team.service.ts:233-266 | as long as no request reads the invite while another is between reading and removing it, it is used at most once and nobody is a member twice |
| InviteRace.UsesAreAdmitted | apps/frontend-api/src/team/team.service.ts:248-266 | once every request has ended, the invite has been used exactly as often as a look-up found no membership, so at most once exactly if none finds none after another did |
| InviteRace.NoneTwiceIffAdmittedOnce | apps/frontend-api/src/team/team.service.ts:248-265 | once every request has ended, nobody is a member twice exactly if no two look-ups of one user found no membership |
| InviteRace.OverlapUsesTwice | libs/shared/src/database/migrations/1738166400000-InitialSchema.ts:70-79 | a race in which two requests use one invite, and one user becomes a member twice, which no constraint forbids |
| InviteRace.UndisturbedAccept | apps/frontend-api/src/team/team.service.ts:233-266 | a request that nobody comes between joins and uses the invite up exactly if it is there and its user is no member yet, and changes nothing otherwise |
| WorkspaceRace.OwnersAreMembers | apps/frontend-api/src/team/team.service.ts:57-71 | however logins overlap, once they have ended every company has its owner as a member |
| WorkspaceRace.OneCompanyEachIffMissedOnce | apps/frontend-api/src/team/team.service.ts:47-61 | once all logins have ended, nobody owns two companies exactly if no two look-ups of one user found none |
| WorkspaceRace.TwoLoginsMakeTwo | apps/frontend-api/src/team/team.service.ts:47-71 | a race in which two first logins of one user make two companies |
| WorkspaceRace.UndisturbedLogin | apps/frontend-api/src/team/team.service.ts:47-71 | a login that nobody comes between makes a company with its owner's membership exactly if its user has none |
| VoiceSession.VoiceSessionService.RecordJoin | apps/ingestor-worker/src/ingestor/voice-session.service.ts:14-18 | a join sets the stamp of its key and no other |
| VoiceSession.VoiceSessionService.RecordLeave | apps/ingestor-worker/src/ingestor/voice-session.service.ts:24-39 | a leave takes the stamp away and gives the whole seconds and begun minutes since it, if it was there |
| VoiceSession.VoiceSessionService.ProcessVoiceEvent | apps/ingestor-worker/src/ingestor/ingestor-queue.consumer.ts:104-147 | an event with a user and a channel is a join, one with a user and no channel a leave whose minutes are pushed, one without a user is pushed as it is |
| VoiceSession.FateOfEvent | apps/ingestor-worker/src/ingestor/ingestor-queue.consumer.ts:104-147 | the event's own channel decides whether it is a join, a blank one too, and the payload's only if the event has none; exactly joins with a user are stamped, and an event without a user changes no stamp and is pushed without minutes |
| VoiceSession.LeaveCreditsLastJoin | apps/ingestor-worker/src/ingestor/voice-session.service.ts:29-38 | a leave credits the time since the user's last event exactly if that was a join less than a day ago, so no stamp is credited twice |
| VoiceSession.CreditOf | apps/ingestor-worker/src/ingestor/voice-session.service.ts:34-36 | a credit is the number of whole seconds since the join, none if the clock reads earlier, and the fewest minutes that cover them |
| VoiceSession.PushedMinutesAreCredited | apps/ingestor-worker/src/ingestor/ingestor-queue.consumer.ts:123-132 | the row of a leave carries exactly the credited minutes |
| VoiceSession.CreditWithinElapsed | apps/ingestor-worker/src/ingestor/voice-session.service.ts:34-36 | the credited seconds never exceed the time elapsed, with the session still open left out |
| VoiceSession.MinutesCoverSeconds | apps/ingestor-worker/src/ingestor/voice-session.service.ts:35-36 | total minutes cover the credited seconds and exceed them by at most 59 seconds for each leave |
| VoiceSession.CreditUnderADay | apps/ingestor-worker/src/ingestor/voice-session.service.ts:4 | one leave credits less than a day, at most 1440 minutes |
| VoiceSession.SentAsJoinIffAnyChannel | apps/bot-service/src/shard/shard-event-handlers.ts:631-659 | an event of the bot counts as a join exactly if the state before or after has a channel |
| VoiceSession.SentChannelIsTheLast | apps/bot-service/src/shard/shard-event-handlers.ts:631-659 | with both channels known, the event carries the channel after the update, or else the one before |
| VoiceSession.BotUpdateCreditsIff | apps/bot-service/src/shard/shard-event-handlers.ts:631-659 | for every update of a run: it credits exactly when neither state has a channel and the user's last update had one less than a day ago, and then the time since that one; minutes exactly after a second |
| VoiceSession.BotEventsCreditNothing | apps/bot-service/src/shard/shard-event-handlers.ts:606-659 | the bot's events credit a user nothing exactly if there is no late read: no update with neither state in a channel, between a second and a day after the user's last update, which had one |
| VoiceSession.LateReadCreditsAbsence | apps/bot-service/src/shard/shard-event-handlers.ts:606-637 | a leave and, an hour later, an update read after its user had left again credit sixty minutes outside voice |

## Left out

- Update in place in the interleaved protocols: what overlaps are steps on values, because what matters
  is which statement runs between which. The classes `GuildStore`, `ChannelLimit`, `LockKey` and
  `AuthService` show the undisturbed methods and tie them to these steps.
- The recovery branch of `onboardGuild` as a method: it runs only if another process comes in between,
  so that it is part of the machine alone.
- The second half of a guild-setup job, which asks the bot to sync the new guild, and the enrichment and
  status columns around history sync.
- Erasures and joins of guilds that overlap with onboarding or reconciliation.
- RateLimiter.RenamesPerWindow: counts the renames that were recorded, and takes reading the clock and
  LPUSH as one step, because a stamp that is late by the way to Redis shifts the window by as much.
- IngestBuffer.EventsConserved: claims no order for batches that are given up, because they come back
  reversed.
- Team.TeamsAreSound: holds for requests one after another; overlapping accepts are in `InviteRace` and
  overlapping logins in `WorkspaceRace`.
- RefreshTokens.ChainHasOneLive: holds for requests one after another; overlapping ones are in `RefreshRace`.
- RefreshTokens.ReuseKillsIssuedTokens: holds for requests one after another; overlapping ones are in
  `RefreshRace`.
- ActivityChart.GetActivityChart: promises nothing for strings that are not a full calendar date, such as
  a year and month alone or a day that the month does not have, because hosts read them in their own ways.
- RoleRecount.FetchRoleMemberCount: takes every member entry to have a user id, because Discord sends one;
  a full page that ended without one would end the recount early.
- Backoff delays, time zones of local dates (seven days are seven times 24 hours), and columns that do
  not take part in a property, such as names, icons and `lastConnected`.
- `onlineMembers` publishing under interleaved handlers, and all other state events.
- The multi-token copy of the event handlers, which adds no property of its own.
- The 7 by 24 heatmap fill, page and limit arithmetic, previews and listings of teams: easy members.
- Redis key prefixes: one process with one key space.
- JWT signing, bcrypt, SHA-256 and AES-GCM: tokens and hashes are opaque values.
- SQL text, ClickHouse views, HTTP, socket and queue wiring, DTO validation, dashboards, billing, widgets
  and log embeds.
- Process crashes and unhandled rejections.
