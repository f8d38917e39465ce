# Verified models of the anime platform's services

The repository is a set of Go services. This project models the parts of them that carry state machines,
loops and arithmetic, and proves what they promise over every run.

| file | what it models |
|---|---|
| `RateLimiter.dfy` | the BFF's per-client token bucket |
| `CommentTables.dfy`, `Threads.dfy`, `CommentStores.dfy` | comments and votes: the writes, the paging of a thread, and the two stores behind one interface |
| `IdempotentBatches.dfy` | the at-least-once batch protocol, among other writes to the same tables |
| `CommentHistory.dfy`, `CommentsConsumer.dfy` | the comment tables under calls of the store and batches of the consumer |
| `Progress.dfy`, `ContinueWatching.dfy` | watch progress as a last-writer-wins register, its consumer, and the continue-watching list |
| `Pipeline.dfy`, `Catalog.dfy` | catalog upserts, the transactional outbox, its publishers, the stream and the search indexer |
| `RefreshTokens.dfy` | refresh-token rotation |
| `Urls.dfy`, `Hls.dfy`, `Playlists.dfy` | signed links, their nesting, and the playlist rewriter |
| `ChunkedFetch.dfy`, `ResponseCache.dfy` | the chunked concurrent fetch with its join, and the TTL cache |
| `IngestionQueue.dfy` | bounded retries with exponential delays |
| `Keyset.dfy`, `Pieces.dfy`, `Text.dfy`, `Wrappers.dfy` | ordered listings and walks; cutting and joining lists; decimal numbers, trimming, base64; Option, Result and commit answers |

Verify with `dafny verify dfyconfig.toml`.

## How the code is rendered

- A table is a map or a field of a class. A transaction is a working copy that replaces the tables or is dropped.
  A commit may report an error although it took effect.
- Clock readings, fresh uuids, database faults, send and acknowledgement results, and the order in which
  goroutines finish are parameters, so every lemma about them holds for all of them.
- Library code is a function-valued parameter: HMAC-SHA256 (with its secret) is `mac`, `resolveURL` is `resolve`,
  `uuid.Parse` is `parse` or `parseId`, the database's reading of a uuid is `cast`. Lemmas that need two messages
  to have different codes say which two.
- Go strings are byte strings: sequences of characters below 256. Times are integers.
- Ids are strings in lexicographic order, which is the order of uuids in canonical form.
- A link reaches the proxy only if it has no blank and no control character: an HTTP request line cannot carry the
  one, and net/url refuses the other (`Visible`).
- Objects record their calls and answers in ghost fields, so what holds over every run of calls is stated there on
  the calls and answers themselves.
- The rate limiter counts tokens in reals. The completed test of the activity service divides in 64-bit floating
  point; rounding is a parameter, and `Progress.NineTenths` shows that it makes no difference.
- The effect of other parties between two steps of one is a parameter too (`Pipeline.ViewDecides`,
  `Pipeline.TurnAmidOthers`, `ResponseCache.TTLCache.Get`).
- 64-bit wrap-around is written out where the code can meet it (`IngestionQueue.BackoffDelay`).

In one place the code and its own comments differ, and the model follows the code: the interface comment in
services/activity/internal/store/store.go calls a write stale when its timestamp is below or equal to the stored one;
the SQL overwrites on equal timestamps, so among equals the last one applied wins.

Properties that turned out not to hold as such come with a lemma at a concrete input and the exact condition:

- Repeating an episode sync can fail (`Catalog.RepeatCanFail`); it succeeds exactly if no listing takes the number
  of an episode that is listed only later on (`Catalog.RepeatSucceedsIff`).
- A continue-watching walk can miss rows, because its cursor keeps milliseconds only
  (`ContinueWatching.RowsCanBeSkipped`); `ContinueWatching.CompleteIffNoSkips` gives the exact condition.
- A rewritten playlist link can lose its user id, because the rewriter does not escape it: "a+b" is read as "a b"
  (`Hls.PlusUidIsLost`), and a line break makes a link that nobody can request (`Hls.LineBreakUidIsRefused`).
  `Hls.ProxiedUidKeptIff` says exactly which ids the proxy gets back from a link. Inside a quoted URI an id with a
  quotation mark is lost as well (`Playlists.QuotedUidIsLost`): `Playlists.TagLinkServedIff` gives the exact condition
  for a tag, and `Playlists.PlaylistServedIff` for a whole playlist.
- A rewritten link can be refused although nothing has expired: the rewriter signs the quoted URI "http://h/x " with
  its blank and the proxy checks it without (`Playlists.PaddedUriIsRefused`), and an expiry text such as "007" is
  checked as "7" (`Hls.PaddedExpiryIsRefused`). `Hls.ProxiedLinkPassesIff` gives the exact condition.
- The result of progress events depends on their order when two of them share a timestamp
  (`Progress.EqualTimestampsCollide`), and exactly when two different ones share the greatest
  (`Progress.OrderFreeIffNewestUnique`).
- The retry delay doubles exactly for delivery counts up to 63; beyond, it is zero or one second
  (`IngestionQueue.DelayDoublesIff`).

## Model

| member | source | states |
|---|---|---|
| `RateLimiting.AllowedIffWithinBound` | services/bff/internal/http/ratelimit.go:34-57 | in any run a call is admitted if and only if, with the calls of its client admitted since any earlier one of them, or alone, it stays within burst plus rate times the seconds since; the bound is written out in nanoseconds |
| `RateLimiting.LevelIsLeastSlack` | services/bff/internal/http/ratelimit.go:45-53 | the bucket level is the least of the burst and of what every window of that client has left |
| `RateLimiting.LimiterConforms` | services/bff/internal/http/ratelimit.go:34-57 | the limiter itself never breaks the window bound |
| `RateLimiting.LimiterIsOptimal` | services/bff/internal/http/ratelimit.go:45-56 | no policy that respects the bound has admitted more calls of a client at any point of any run |
| `RateLimiting.LimiterIsOptimalInTotal` | services/bff/internal/http/ratelimit.go:45-56 | the same over any group of clients together |
| `RateLimiting.ClientsAreIndependent` | services/bff/internal/http/ratelimit.go:37-43 | the answers to one client are those it would get if it were alone |
| `RateLimiting.Bucket.Take` | services/bff/internal/http/ratelimit.go:45-56 | the bucket grows by rate tokens for each second since the last call, up to the burst, and gives a token when it has one |
| `RateLimiting.RateLimiter.Allow` | services/bff/internal/http/ratelimit.go:34-57 | the method on the map of mutable buckets admits exactly the calls within that bound, stated on the recorded calls and answers |
| `CommentTables.ScoresConserved` | services/social/internal/store/comments_postgres.go:206-260 | in every state reachable by creates, edits, deletes and votes each score is the sum of the recorded votes and at most the number of voters in size |
| `CommentTables.SumAfterVote` | services/social/internal/store/comments_postgres.go:223-257 | recording a vote moves the sum by the difference to the vote it replaces |
| `CommentTables.VoteTwice` | services/social/internal/store/comments_memory.go:144-167 | repeating a vote changes nothing, an opposite vote moves the score by two |
| `CommentTables.DeletedForever` | services/social/internal/store/comments_postgres.go:193-204 | a soft-deleted comment reads "[deleted]" in every later state |
| `CommentTables.OnlyAuthorChanges` | services/social/internal/store/comments_postgres.go:180-204 | in any run a text, edit time or deletion time changes only for an undeleted comment whose own author asked for it |
| `CommentTables.RunExtends` | services/social/internal/store/comments_postgres.go:180-260 | comments are never removed, keep their thread position, and stay deleted once deleted |
| `Threads.CursorRoundTrip` | services/social/internal/store/comments_postgres.go:267-311 | decoding an encoded cursor gives the key back, for both orders |
| `Threads.NewWalkIsExact` | services/social/internal/store/comments_postgres.go:36-124 | in either store, following cursors by "new" while others write between the pages: strictly descending, no root twice, every root from before the first page exactly once |
| `Threads.FixedThread` | services/social/internal/store/comments_postgres.go:36-151 | over fixed comments there is exactly one walk, in either store and order: the sorted roots cut into pages |
| `Threads.StoresAgree` | services/social/internal/store/comments_memory.go:38-112 | the keyset walk and the in-memory walk exist, end, and give the same pages, covering every root once |
| `Threads.StoreLists` | services/social/internal/store/comments_memory.go:73-93 | a page answered for a cursor is the first page of the roots strictly below that cursor's row |
| `Threads.WalkShowsThread` | services/social/internal/store/comments_postgres.go:99-151 | in the fields of the comments: a walk over fixed comments, in either store and order, shows exactly the comments on the anime that have no parent, each once, by decreasing score (for "top"), time and id |
| `CommentStores.PostgresCommentStore.Create` | services/social/internal/store/comments_postgres.go:25-34 | inserts the comment or reports an error and leaves the tables alone |
| `CommentStores.PostgresCommentStore.UpdateBody` | services/social/internal/store/comments_postgres.go:180-191 | edits an own, undeleted comment; otherwise not found |
| `CommentStores.PostgresCommentStore.SoftDelete` | services/social/internal/store/comments_postgres.go:193-204 | soft-deletes an own, undeleted comment; otherwise not found |
| `CommentStores.PostgresCommentStore.Vote` | services/social/internal/store/comments_postgres.go:206-260 | the transaction of read, upsert and score update has the effect of one vote, or none when it does not commit |
| `CommentStores.PostgresCommentStore.QueryRoots` | services/social/internal/store/comments_postgres.go:99-151 | reads the roots below the decoded cursor in descending order, up to the limit; a cursor that does not decode, an id that is no uuid and a failing query are errors |
| `CommentStores.PostgresCommentStore.GetThread` | services/social/internal/store/comments_postgres.go:36-97 | the answered page and cursor are those of the listing: comments on that anime without a parent, by decreasing score (for "top"), time and id, each with exactly its replies, oldest first; at most the limit of them; the error of either query is the error of the whole, and nothing else fails a first page |
| `CommentStores.CanonicalCursor` | services/social/internal/store/comments_postgres.go:99-151 | for cursors with canonical ids the queries answer what the walks are made of |
| `CommentStores.PostgresCommentStore.Conserves` | services/social/internal/store/comments_postgres.go:206-260 | after any calls of the store and any batches of the consumer each score is the sum of the recorded votes |
| `CommentStores.GroupIsReplies` | services/social/internal/store/comments_postgres.go:69-95 | grouping one reply query by parent gives each root exactly its direct replies in order of time |
| `CommentStores.RepliesAgree` | services/social/internal/store/comments_memory.go:95-110 | both stores give a root the same replies; only replies of one instant may change places |
| `CommentStores.SelectedKeys` | services/social/internal/store/comments_memory.go:46-71 | sorting the scanned rows lists exactly the keys of the wanted rows in descending order |
| `CommentStores.InMemoryCommentStore.Create` | services/social/internal/store/comments_memory.go:27-36 | stores the comment under its fresh id |
| `CommentStores.InMemoryCommentStore.UpdateBody` | services/social/internal/store/comments_memory.go:114-127 | edits an own, undeleted comment; otherwise not found |
| `CommentStores.InMemoryCommentStore.SoftDelete` | services/social/internal/store/comments_memory.go:129-142 | soft-deletes an own, undeleted comment; otherwise not found |
| `CommentStores.InMemoryCommentStore.Vote` | services/social/internal/store/comments_memory.go:144-167 | the nested vote maps and the score change as one vote says |
| `CommentStores.InMemoryCommentStore.GetThread` | services/social/internal/store/comments_memory.go:38-112 | sorting, scanning for the cursor and slicing answer the page and cursor of the listing: comments on that anime without a parent, by decreasing score (for "top"), time and id, each with exactly its replies, oldest first |
| `CommentStores.InMemoryCommentStore.Conserves` | services/social/internal/store/comments_memory.go:144-167 | after any calls on the store each score is the sum of the recorded votes |
| `IdempotentBatches.ExactlyOnce` | services/social/internal/worker/comments_consumer.go:133-405 | whatever is redelivered, rolled back, committed unseen or acked in vain, and whoever else writes in between, the tables are those of the other writes in their order and of each committed event id once, at its first commit, and processed_events holds exactly those ids |
| `IdempotentBatches.FailedBatchHasNoEffect` | services/social/internal/worker/comments_consumer.go:374-399 | a batch with any failed message, wherever it is, changes nothing and is not acked |
| `IdempotentBatches.AckedIsProcessed` | services/social/internal/worker/comments_consumer.go:391-405 | every acked message's event id is in processed_events for good |
| `IdempotentBatches.GoodBatch` | services/social/internal/worker/comments_consumer.go:133-405 | a non-empty batch in which nothing fails leaves the tables with every fresh event applied once, in order, and all its ids processed, and is acked exactly if the commit says so |
| `IdempotentBatches.OnlyGoodBatches` | services/social/internal/worker/comments_consumer.go:374-405 | a batch that changes anything or is acked has a message, no malformed or failed one, and begin and commit went through |
| `IdempotentBatches.RedeliveryIsHarmless` | services/social/internal/worker/comments_consumer.go:145-171 | redelivering processed events changes nothing |
| `CommentsConsumer.Consumer.HandleBatch` | services/social/internal/worker/comments_consumer.go:133-405 | on the database behind the store: when nothing fails all events of the batch are in the tables, all its ids are processed and it is acked exactly if the commit says so; in any other case nothing changes and it is not acked |
| `CommentsConsumer.ApplyMessages` | services/social/internal/worker/comments_consumer.go:133-379 | the loop that goes on after a failure still yields either all messages or none |
| `CommentsConsumer.ApplyEvent` | services/social/internal/worker/comments_consumer.go:172-373 | each of the four actions, statement by statement, changes exactly the comment or vote that it names, in the fields it names |
| `CommentHistory.OnceAmongCalls` | services/social/internal/worker/comments_consumer.go:336-373 | after any interleaving of calls of the store and batches of the consumer the tables are those of the calls in order and of each committed event once among them, and every score is the sum of its votes |
| `CommentHistory.HistoryExtends` | services/social/internal/store/comments_postgres.go:180-260 | whatever either writer does later, comments stay in their place and deleted ones stay deleted |
| `Progress.RowHoldsLatest` | services/activity/internal/store/postgres.go:25-56 | after any writes a row holds the last of those with the greatest timestamp, and exists exactly if there was one |
| `Progress.TimestampsGrow` | services/activity/internal/store/postgres.go:36-42 | a stored timestamp never decreases in any run |
| `Progress.Converges` | services/activity/internal/store/postgres.go:25-56 | two runs that apply the same writes, in any order and multiplicity, agree when the newest is unique |
| `Progress.DistinctTimestampsSuffice` | services/activity/internal/store/postgres.go:36-42 | distinct timestamps for distinct events make the newest unique |
| `Progress.OrderFreeIffNewestUnique` | services/activity/internal/store/postgres.go:36-42 | the result is independent of the order if and only if no two different writes share the greatest timestamp |
| `Progress.EqualTimestampsCollide` | services/activity/internal/store/postgres.go:36-42 | two writes with one timestamp: each order keeps the other one |
| `Progress.ProgressTables.Upsert` | services/activity/internal/store/postgres.go:25-70 | writes the row with the clock reading unless the stored one is newer, answers every database error, and returns the row as it then is, re-read after a stale write |
| `Progress.UpsertEpisodeProgress` | services/activity/internal/grpc/activity_service.go:26-53 | refuses ids that do not parse before any write; otherwise the row holds the numbers raised to 0, completed exactly from nine tenths of a known duration on, the timestamp and the clock reading, unless it is newer; other rows stay; the answer is the row as it then is, or the error |
| `Progress.NineTenths` | services/activity/internal/grpc/activity_service.go:44-44 | for all 32-bit numbers the rounded floating-point test is the exact comparison of tenths |
| `Progress.ProgressTables.HandleBatch` | services/activity/internal/worker/progress_consumer.go:57-162 | the same for a progress batch, on the table that the service also writes |
| `Progress.ApplyMessages` | services/activity/internal/worker/progress_consumer.go:89-149 | the loop that leaves on the first failure yields either all messages, each new id once, or none |
| `Progress.ApplyProgressUpsert` | services/activity/internal/worker/progress_consumer.go:167-187 | the row becomes the position of the event unclamped, no duration, not completed, its timestamp and the clock reading, unless the row is newer |
| `Progress.RunIsPuts` | services/activity/internal/worker/progress_consumer.go:89-162 | in every interleaving of service writes and batches the table holds the service writes and the first occurrences of the committed events in order, and processed_events exactly the committed ids |
| `Progress.WritersConverge` | services/activity/internal/worker/progress_consumer.go:89-187 | two histories that ask for the same writes on a row, through the service or the stream, in whatever order, batches and number, agree on it when its newest write is unique |
| `Progress.HistoryHoldsNewest` | services/activity/internal/store/postgres.go:25-56 | in every such history a row exists exactly if a write was asked for, and then holds one that no other is newer than |
| `ContinueWatching.CursorRoundTrip` | services/activity/internal/grpc/activity_service.go:93-123 | decodeCursor inverts encodeCursor |
| `ContinueWatching.FixedTableWalk` | services/activity/internal/grpc/activity_service.go:55-78 | the requests that follow next_cursor are one finite walk, strictly descending, returning exactly the rows no page boundary skips |
| `ContinueWatching.WalkReturns` | services/activity/internal/store/postgres.go:72-100 | the skipped rows are exactly those below a boundary row but not below its time in whole milliseconds |
| `ContinueWatching.CompleteIffNoSkips` | services/activity/internal/grpc/activity_service.go:68-77 | for any rows: the walks of every page size are complete if and only if no row can be skipped by another |
| `ContinueWatching.WholeMillisecondsSuffice` | services/activity/internal/grpc/activity_service.go:68-77 | times in whole milliseconds make the walks of every page size complete |
| `ContinueWatching.RowsCanBeSkipped` | services/activity/internal/grpc/activity_service.go:93-95 | two episodes updated inside one millisecond: the walk with one row a page returns the newer and never the older |
| `ContinueWatching.List` | services/activity/internal/store/postgres.go:72-100 | the user's rows below the cursor, newest first and by decreasing id, up to the limit, and nothing left out is newer; an error of the query or a scan is an error, and a read that breaks off answers the rows it got |
| `ContinueWatching.GetContinueWatching` | services/activity/internal/grpc/activity_service.go:55-78 | refuses a user id that does not parse, passes on an error, and otherwise answers the page and cursor of the walk: the user's rows, newest first, 25 of them by default and at most 100, with a cursor exactly on a full page; a page that breaks off is shorter and ends the walk |
| `Pipeline.AgreesOrPending` | services/search/internal/indexer/indexer.go:90-125 | in every interleaving of upserts, publishers and indexer, each anime's document equals its catalog row or some event for it is unpublished or unacked |
| `Pipeline.DrainedAgrees` | services/search/internal/indexer/indexer.go:163-186 | once outbox and stream are drained the index has a document for exactly the animes of the catalog, each equal to its row field by field |
| `Pipeline.CanAlwaysDrain` | services/catalog/internal/outbox/publisher.go:93-153 | from every reachable state, whatever crashed, the pipeline can drain without another upsert, and the index then is the catalog |
| `Pipeline.RowPerUpsert` | services/catalog/internal/store/postgres.go:149-155 | every committed upsert has its own outbox row, and there are no others |
| `Pipeline.OutboxLosesNothing` | services/catalog/internal/outbox/publisher.go:100-153 | a published row has its message in the stream; any other is free or held by exactly one publisher |
| `Pipeline.FailedFlushFrees` | services/catalog/internal/outbox/publisher.go:98-98 | a flush that fails leaves each of its rows eligible |
| `Pipeline.ViewDecides` | services/catalog/internal/outbox/publisher.go:93-153 | in any interleaving a publisher's step is possible exactly when its own view allows it and query and acknowledgement keep their promise |
| `Pipeline.SendAll` | services/catalog/internal/outbox/publisher.go:125-133 | the send loop keeps the publisher's view and stops at the first error |
| `Pipeline.AwaitAll` | services/catalog/internal/outbox/publisher.go:134-141 | the loop over the futures passes only when every one is acknowledged |
| `Pipeline.FlushOnce` | services/catalog/internal/outbox/publisher.go:93-153 | its steps never break its view, it ends without an open transaction, and it marks rows exactly when everything was sent and acknowledged |
| `Pipeline.Indexer.IndexAnime` | services/search/internal/indexer/indexer.go:163-186 | overwrites the document with the catalog's answer field by field; an unknown anime is no error |
| `Pipeline.Indexer.HandleMsg` | services/search/internal/indexer/indexer.go:115-125 | a payload that cannot be parsed or has no anime id is an error and changes nothing |
| `Pipeline.Indexer.Next` | services/search/internal/indexer/indexer.go:97-112 | a message is acknowledged exactly when it was handled without error, else given back |
| `Pipeline.IndexerDecides` | services/search/internal/indexer/indexer.go:97-186 | in any interleaving an indexer step is possible exactly when its own state and, for a fetch, the stream allow it, and nobody else moves that state or the index |
| `Pipeline.TurnAmidOthers` | services/search/internal/indexer/indexer.go:97-125 | whatever others do between its steps, a turn of the loop leaves the index as the code does and acknowledges only after the document is written; the acknowledgement may reach the stream at any later time |
| `Pipeline.Indexer.ReindexAll` | services/search/internal/indexer/indexer.go:142-153 | indexes the listed ids in order up to the first error, the catalog changing under it; a failed listing changes nothing |
| `Pipeline.ReindexCovers` | services/search/internal/indexer/indexer.go:142-186 | every listed anime ends with the fields of the last lookup that found it |
| `Pipeline.ReindexLeaves` | services/search/internal/indexer/indexer.go:142-186 | a document of an anime that no lookup found stays as it is |
| `Catalog.MappingIsStable` | services/catalog/internal/store/postgres.go:202-299 | in any run of calls a provider episode id keeps its internal id, and different ones never share one |
| `Catalog.MalMappingIsStable` | services/catalog/internal/store/postgres.go:103-157 | in any run of calls a MAL id keeps its anime |
| `Catalog.SyncWritesListings` | services/catalog/internal/store/postgres.go:264-322 | a sync leaves with every provider id exactly what its own listings make of its row, whatever else is listed |
| `Catalog.SyncLeavesOthers` | services/catalog/internal/store/postgres.go:264-299 | unmapped episodes and the other tables are not touched |
| `Catalog.LastListedWins` | services/catalog/internal/store/postgres.go:301-322 | each listed episode ends with its last listed values |
| `Catalog.UnlistedFieldsKept` | services/catalog/internal/store/postgres.go:301-317 | listings with a filler flag keep the url of an episode, listings without one keep its filler flag; a new episode starts without either |
| `Catalog.SyncReturnsIds` | services/catalog/internal/store/postgres.go:264-299 | ids come in input order, empty provider ids skipped, each the id its provider id maps to |
| `Catalog.RepeatSucceedsIff` | services/catalog/internal/store/postgres.go:264-299 | a list can be synced again if and only if no listing takes a number that an episode listed only later on ended up with |
| `Catalog.RepeatCanFail` | services/catalog/internal/store/postgres.go:264-299 | a list with a repeated provider id that syncs once and fails the second time |
| `Catalog.RepeatChangesOnlyTimes` | services/catalog/internal/store/postgres.go:202-322 | with distinct provider ids repeating succeeds, returns the same ids and changes nothing but times |
| `Catalog.SyncSucceeds` | services/catalog/internal/store/postgres.go:264-322 | a list syncs when no statement meets an error, the uuids are new, and no two listed episodes, nor a listed and another episode of the anime, share a number |
| `Catalog.WriteEpisode` | services/catalog/internal/store/postgres.go:301-322 | the four statements: what a new row gets and what an old one keeps, refused when the number is taken |
| `Catalog.UpsertEpisodes` | services/catalog/internal/store/postgres.go:264-299 | the loop over the transaction's view computes the sync, and any failure fails the whole |
| `Catalog.CatalogStore.UpsertHiAnimeEpisodes` | services/catalog/internal/store/postgres.go:202-236 | all or nothing: every failure, a duplicate number midway included, changes no table; a commit keeps every mapping, gives each listed episode its last listed values and the anime its provider id, and logs one event; a list of free, distinct numbers with no error is answered |
| `Catalog.CatalogStore.UpsertJikanAnime` | services/catalog/internal/store/postgres.go:103-157 | all or nothing: row, MAL mapping and outbox event appear together; a known MAL id gives its anime, a new one the new id; among all calls so far two that answered gave the same id exactly if they had the same MAL id |
| `Catalog.CatalogStore.OneAnimePerMalId` | services/catalog/internal/store/postgres.go:103-157 | over any calls of the store two answered upserts gave the same anime exactly if they had the same MAL id |
| `Catalog.CallIsUpsertStep` | services/catalog/internal/store/postgres.go:149-155 | a call that commits is one upsert step of the pipeline |
| `RefreshTokens.TokenSucceedsOnce` | services/auth/internal/grpc/auth_service.go:100-150 | in every run each refresh token succeeds at most once |
| `RefreshTokens.RunKeeps` | services/auth/internal/store/store.go:151-161 | sessions stay, a revocation time and a link are set once and never change |
| `RefreshTokens.ChainsOfRun` | services/auth/internal/store/store.go:107-161 | in every reachable state sessions fall into disjoint finite chains in which only the last can be live |
| `RefreshTokens.DeadForever` | services/auth/internal/grpc/auth_service.go:100-150 | a chain without live session gains no session and none of its tokens ever refreshes again |
| `RefreshTokens.LogoutIsFinal` | services/auth/internal/grpc/auth_service.go:152-162 | after the last session of a chain is logged out no token of that chain ever refreshes again |
| `RefreshTokens.AuthService.Refresh` | services/auth/internal/grpc/auth_service.go:100-150 | a blank token is an invalid argument; one with no live session that has not expired, or a failed lookup, is unauthenticated; every other failure is internal; a success revokes and links the session and creates the new one; over all calls so far a token that succeeds was issued, is not older than its lifetime and never succeeded before |
| `RefreshTokens.TokenOfAnswers` | services/auth/internal/grpc/auth_service.go:100-150 | an accepted token was issued by some call, has not outlived the lifetime it was given, and has not been used by a refresh that succeeded |
| `RefreshTokens.AuthService.Logout` | services/auth/internal/grpc/auth_service.go:152-162 | sets the revocation time of the live session of a known token and of no other, and answers the same for an unknown one and after any failure of the database |
| `RefreshTokens.AuthService.IssueTokens` | services/auth/internal/grpc/auth_service.go:192-222 | creates the session of a login, live until the given lifetime is over, unless a token cannot be made or id or hash is taken |
| `RefreshTokens.AuthService.CreateRefreshSession` | services/auth/internal/store/store.go:107-123 | inserts unless the id or the token hash is taken, and tells a conflict from other errors |
| `RefreshTokens.AuthService.GetRefreshSessionByHash` | services/auth/internal/store/store.go:133-149 | finds the one session with the hash, and tells a missing one from a failed query |
| `RefreshTokens.AuthService.RevokeRefreshSession` | services/auth/internal/store/store.go:151-155 | sets the revocation time of a live session only |
| `RefreshTokens.AuthService.ReplaceRefreshSession` | services/auth/internal/store/store.go:157-161 | sets revocation time and link of a live session only |
| `Urls.EscapeRoundTrip` | services/hls-proxy/internal/rewriter/rewriter.go:44-50 | unescaping inverts query escaping on every byte string (section 2.1 of RFC 3986) |
| `Hls.ProxiedLinkParses` | services/hls-proxy/internal/rewriter/rewriter.go:40-55 | every parameter of a rewritten link is read back as it was put in |
| `Hls.LinkText` | services/hls-proxy/internal/rewriter/rewriter.go:40-65 | the text of a rewritten link, piece by piece: only the target is escaped, and the code is that of target, user id and expiry joined by bars |
| `Hls.ServedIsSigned` | internal/platform/signing/hls.go:41-56 | a served link carries the code of its own target, user and expiry, and the expiry is not over |
| `Hls.ProxiedLinkPasses` | internal/platform/signing/hls.go:41-56 | a rewritten link is accepted until its expiry and not after, for the same target, user, expiry and headers |
| `Hls.ProxiedLinkPassesIff` | internal/platform/signing/hls.go:76-89 | exactly which targets and expiry texts make an accepted link: a non-empty target without surrounding white space, and the canonical text of a time that is not over |
| `Hls.PaddedExpiryIsRefused` | internal/platform/signing/hls.go:76-89 | the expiry text "007" is refused |
| `Hls.ProxiedUidKeptIff` | services/hls-proxy/internal/rewriter/rewriter.go:44-50 | a rewritten link is served with its user id exactly when the id is not empty and has none of % + & ; # and no blank or control character |
| `Hls.PlusUidIsLost` | services/hls-proxy/internal/rewriter/rewriter.go:44-50 | the id "a+b" is read as "a b", and the link is refused |
| `Hls.LineBreakUidIsRefused` | services/hls-proxy/internal/rewriter/rewriter.go:44-50 | a link whose id has a line break is never served |
| `Hls.SignedLinkPasses` | internal/platform/signing/hls.go:58-74 | a link from the signer is accepted until its expiry for any user id and headers |
| `Hls.NestedLinksStayValid` | services/hls-proxy/cmd/hls-proxy/main.go:48-117 | every link reached through any number of hops is served until the signed expiry and not after, with the same user, expiry and headers |
| `Playlists.RewriteM3U8` | services/hls-proxy/internal/rewriter/rewriter.go:20-38 | the loop replaces exactly the references of the playlist |
| `Playlists.RewriteUriTag` | services/hls-proxy/internal/rewriter/rewriter.go:67-82 | replaces the first quoted URI of a tag |
| `Playlists.DeproxiedIsResolved` | services/hls-proxy/internal/rewriter/rewriter.go:20-55 | replacing every link by its target gives the original playlist with each reference resolved; the number of lines is kept |
| `Playlists.LinesKept` | services/hls-proxy/internal/rewriter/rewriter.go:21-37 | line by line the output is the input with its reference replaced |
| `Playlists.TagChangesOnlyUri` | services/hls-proxy/internal/rewriter/rewriter.go:67-82 | a tag with a quoted URI differs only inside its first one (tags as in section 4.1 of RFC 8216) |
| `Playlists.OtherLines` | services/hls-proxy/internal/rewriter/rewriter.go:23-35 | blank lines, comments and tags without a quoted URI are unchanged; any other line becomes one link |
| `Playlists.LineInCharacters` | services/hls-proxy/internal/rewriter/rewriter.go:23-35 | by characters: a line of white space stays, a # line without `URI="` stays, and any other line becomes what stands for its trimmed text |
| `Playlists.TagInCharacters` | services/hls-proxy/internal/rewriter/rewriter.go:67-82 | in a tag exactly the text between the quotes after its first `URI="` is replaced |
| `Playlists.FirstLine` | services/hls-proxy/internal/rewriter/rewriter.go:20-38 | line breaks separate the lines: a playlist is its first line rewritten, and the rest |
| `Playlists.ComposeReferences` | services/hls-proxy/internal/rewriter/rewriter.go:20-38 | rewriting twice is rewriting once with the composition |
| `Playlists.ReferencesRewrittenIff` | services/hls-proxy/internal/rewriter/rewriter.go:20-38 | from a rewritten playlist a player reads as many references, URI lines and quoted URIs of tags, as from the original, and they are the texts put in, one for one, exactly when no quoted one has a quotation mark |
| `Playlists.PlaylistServedIff` | services/hls-proxy/internal/rewriter/rewriter.go:20-82 | a player reads from a rewritten playlist one link for each reference, and the proxy serves all of them with the user id, exactly when the id is not empty, has no special character, blank or control character, and no quotation mark if the playlist quotes a reference |
| `Playlists.ReferenceIsHop` | services/hls-proxy/cmd/hls-proxy/main.go:107-117 | each reference of a served playlist becomes the link of its hop |
| `Playlists.PlaylistLinksStayValid` | services/hls-proxy/cmd/hls-proxy/main.go:48-117 | following any references through any playlist texts, a player that starts with a signed link only reaches links that are served until the signed expiry, for the resolved target and with the same user, expiry and headers |
| `Playlists.TagLinkServedIff` | services/hls-proxy/internal/rewriter/rewriter.go:67-82 | the same for one tag: its link is read back by a player and served with the user id exactly when the id is not empty and has no special character, blank, control character or quotation mark |
| `Playlists.TagLinkKeptIff` | services/hls-proxy/internal/rewriter/rewriter.go:67-82 | a tag taken as one line of text gives back the link put into it exactly when the user id has no quotation mark; a step towards the former |
| `Playlists.QuotedUidIsLost` | services/hls-proxy/internal/rewriter/rewriter.go:67-82 | the id a"b is served from a line of its own, and no player reads its link from a tag |
| `Playlists.PaddedUriIsRefused` | services/hls-proxy/internal/rewriter/rewriter.go:67-82 | the link for a quoted URI that ends in a blank is refused |
| `ChunkedFetch.TasksPartition` | services/bff/internal/handlers/activity.go:186-198 | the chunks partition the list in order, none empty or too long, and their number is the ceil-division capacity |
| `ChunkedFetch.Collect` | services/bff/internal/handlers/activity.go:189-212 | in every completion order the two channels get one send for each goroutine, and never more than their capacity |
| `ChunkedFetch.ChunkedEqualsOneCall` | services/bff/internal/handlers/activity.go:182-221 | the episodes by id equal those of a single call with the whole list, in every completion order |
| `ChunkedFetch.FetchEpisodesConcurrently` | services/bff/internal/handlers/activity.go:182-221 | any chunk error is an error, otherwise the result answers the whole list; the chunks hold 20 ids when no size is given |
| `ChunkedFetch.ContinueWatching` | services/bff/internal/handlers/activity.go:137-176 | the join keeps order and number of the items and shows for each the episode of the catalog, or only its id when the catalog does not know it |
| `ResponseCache.GetHitsIff` | services/bff/internal/handlers/cache.go:54-76 | under any interleaving a Get hits exactly when the last Set of its key, if no later message dropped it, is at most the lifetime ago, and it returns the value of that Set |
| `ResponseCache.HoldsLatest` | services/bff/internal/handlers/cache.go:39-76 | the cache holds the latest item of every key, except that expired ones may be gone |
| `ResponseCache.TTLCache.CleanUp` | services/bff/internal/handlers/cache.go:61-68 | the clean-up removes the entry exactly if it has expired, and no other |
| `ResponseCache.TTLCache.Get` | services/bff/internal/handlers/cache.go:54-70 | with any sections of other goroutines between its own, it answers the value of the last Set that no message dropped and that had not expired, as of its fetch, and cleans up exactly if that one had expired |
| `ResponseCache.TTLCache.SetItem` | services/bff/internal/handlers/cache.go:72-76 | stores the value with its expiry |
| `ResponseCache.TTLCache.OnInvalidation` | services/bff/internal/handlers/cache.go:40-49 | drops exactly the entries the message names: one key, or all for an empty text or "all" in any case |
| `IngestionQueue.BoundedStarts` | services/ingestion/internal/queue/worker.go:117-174 | in every delivery history the handler of a job starts at most MaxDeliver times |
| `IngestionQueue.LeftMeansDone` | services/ingestion/internal/queue/worker.go:117-174 | in every delivery history a job has left the queue exactly when an answered delivery found nothing to run, succeeded or was past the last try, and nothing is delivered after that one |
| `IngestionQueue.LeavesInTime` | services/ingestion/internal/queue/worker.go:117-174 | at most MaxDeliver + 1 answers arrive in any history, and with more than MaxDeliver of them the job has left the queue |
| `IngestionQueue.FailingJob` | services/ingestion/internal/queue/worker.go:124-151 | a job that keeps failing, in every history: each delivery up to MaxDeliver starts the handler and asks for the doubling delay, and it leaves exactly with the first answered delivery past that, into the dead-letter queue |
| `IngestionQueue.FailingJobIsTried` | services/ingestion/internal/queue/worker.go:124-151 | when no delivery is lost the handler of a failing job is started exactly MaxDeliver times |
| `IngestionQueue.DelayDoublesIff` | services/ingestion/internal/queue/backoff.go:5-16 | in 64-bit arithmetic the delay is 1, 2, 4, 8, 16, 32 seconds and then 60, and doubles so exactly for n up to 63; beyond, it is 0 or one second |
| `IngestionQueue.DelayGrows` | services/ingestion/internal/queue/backoff.go:5-16 | the delay never decreases for n from 1 to 63 |
| `IngestionQueue.FiveDelays` | services/ingestion/internal/queue/backoff.go:5-16 | the delays of five failures are 1, 2, 4, 8 and 16 seconds |
| `IngestionQueue.ReachableDelays` | services/ingestion/internal/queue/worker.go:124-149 | the MaxDeliver guard keeps every requested delay inside the doubling range |
| `IngestionQueue.HandleMsg` | services/ingestion/internal/queue/worker.go:117-174 | per delivery: the handler starts exactly for a parsed job with a positive id on a sync subject whose tries are not used up, the dead-letter path is taken exactly when they are, and only a failing handler is given back, with its delay |
| `IngestionQueue.Consume` | services/ingestion/internal/queue/worker.go:95-115 | the loop over a job's deliveries starts its handler at most MaxDeliver times |

## Left out

- The branches of both consumers for a missing processed_events table: they apply without deduplication. The migrations create the table; its presence is assumed.
- Overlapping database transactions: Vote, the consumers and Refresh are serial. Interleaving is modelled for the outbox, the indexer, paging, the cache and the chunked fetch, and transaction by transaction for the two writers of watch progress and of the comments.
- The periodic reindexLoop beside the event consumer, several indexer processes, and the stream's seven-day retention. Index writes are taken to apply in the order of submission.
- "Top" paging while votes change: claimed over fixed comments only.
- Floating-point rounding in the rate limiter.
- The width of stored integers (int16 votes, INT scores, int32 numbers, float32 scores), except the 64-bit arithmetic of the retry delay and the 32-bit numbers of the completed test.
- The columns that no upsert changes: url, sub_or_dub and other_name of an anime, aired_at of an episode, created_at and updated_at of an anime.
- AttachExternalAnimeID, which may move a provider's anime id to another anime.
- Spellings of a uuid other than the canonical one in an event payload: the database resolves them, `Pipeline` names an anime by its canonical id.
- White space other than ASCII in strings.TrimSpace; leading line breaks in fmt.Sscanf.
- HMAC, SHA-256, JWT, bcrypt, randomness, url.Parse, path.Join and JSON: library code.
- An error of the outbox's locking query or of a row scan: the flush then ends before anything is sent, as an abandoned one.
- `Hls.SignedUrl`: for a base URL without query and fragment, which the proxy's configuration gives.
- A message without JetStream metadata counts as its first delivery; `IngestionQueue` takes the metadata as present.
- Whether the dead-letter publication itself succeeds: the worker ignores its result.
- HTTP and gRPC handlers, NATS, Redis, Meilisearch and provider clients, configuration, mains, generated code, analytics, the streaming resolver, ratings, billing and validators: what they promise is decided by reading one branch or belongs to a library.
