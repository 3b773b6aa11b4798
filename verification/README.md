# The stateful kernels of tg-messenger, verified

tg-messenger keeps several small structures that are fast or bounded, and each has to stay in step with a
simple truth while coroutines interleave. This project models those structures in Dafny and proves what the
code promises about them. `dafny verify dfyconfig.toml` checks everything; no member is left unproved.

| file | what it models |
|---|---|
| `MessageStore.dfy`, `Pages.dfy` | the SQLite cache of a remote, id-ordered message log, one storage statement at a time, with the remote, live ingests and unlocked deletions moving between any two of them |
| `HistoryPane.dfy` | the terminal pane that pages that store back to the start of history |
| `TtlCache.dfy` | the single-flight cache with per-key generations, as steps of concurrent coroutines |
| `OutboundTokens.dfy` | the token protocol for sending a chosen variant at most once |
| `Worker.dfy` | the durable report queue of the factory worker, across failures, cancellation and restart |
| `WrapText.dfy`, `TextLines.dfy` | the pane's greedy word wrap and its padding |
| `MessageLines.dfy` | the text form of messages: printed in Python, parsed in TypeScript |
| `Ghostwriter.dfy` | the two consumers that must tell the engine's own echoes from a human |
| `SlidingWindows.dfy` | the moderator's message counter and the ghostwriter's hourly limit |
| `Heartbeat.dfy` | when a heartbeat plan pings |
| `LockTables.dfy` | which locks the bounded lock tables forget |
| `PeerLocking.dfy` | what forgetting them means for mutual exclusion |
| `TranslatePasses.dfy` | translating a chat in capped passes with cached decisions |
| `DotenvLayers.dfy` | layering `.env` files into the environment |
| `EventFanOut.dfy` | the event bus with bounded subscriber queues |
| `OrderedDicts.dfy`, `Common.dfy` | Python's `OrderedDict` as a value, and shared datatypes |

Code that changes an object step by step is a class whose methods carry the loops of the source and are proved
equal to functions on values; the properties are lemmas about those functions and about every run of them.
Time is a parameter of the operations. Where a clock that goes back would matter, the statement says that it does
not. Everything the code learns from outside (the remote, replies, drawn jitter, whether a write succeeds) is an
arbitrary parameter, so each statement holds for all of it.

Where the code does less than one would expect, the model follows the code, and the members named give the exact
condition and, for most, a concrete run:

- A short first page is recorded as "no older history". A deletion between the window count and the page read
  can make that false (`HistoryPane.DeletionShortensTheFirstPage`, `HistoryPane.ShortPageProvesTheStartIff`).
- `history(limit)` reads its sync row and its rows after the peer lock is released, so a narrower call in the gap
  can shorten the page (`MessageStore.NarrowerCallCutsIff`; `MessageStore.MessageStore.History` excludes exactly
  narrower calls), and the page belongs to the window that was read, which need not be the stored one any more.
- An older page lowers the window's edge without pruning, so a row whose message was deleted unnoticed can come to stand
  inside it and be shown (`MessageStore.DeepenedWindowShowsTheDeleted`); a replacement takes such rows off
  (`MessageStore.MessageStore.ReplaceWindow`).
- The ghostwriter takes its own reply for a human's when the echo arrives during the next send to the same
  dialog: events put off during a send are compared only with that send's id, not with the id cache
  (`Ghostwriter.LateEchoIsTakenForHuman`, `Ghostwriter.MistakenExactlyWhen`). The documentation of `on_outgoing` says that
  own echoes must not pause.
- A reply cleared just before a human's pause is written still goes out
  (`Ghostwriter.ClearedSendStartsInAPause`, `Ghostwriter.OnlyOneLateSend`).
- The lock table can forget a lock that is about to be taken, and then two coroutines are inside for one peer. It
  takes more peers than the table may hold (`PeerLocking.ExclusiveWithinTheCap`,
  `PeerLocking.FirstOrphanExactlyWhen`, `PeerLocking.TwoInside`).
- A token just remembered can be the one evicted
  (`OutboundTokens.PreparedButGone`, `OutboundTokens.FreshTokenSurvivesIff`).
- A carriage return in a first body line, or a final newline, breaks the print and parse round trip
  (`MessageLines.CarriageReturnIsLost`, `MessageLines.RoundTripIff`, `MessageLines.FinalNewline`).
- A process that ends after a write of the queue file that failed leaves the next one a queue that is not what is
  owed (`Worker.Worker.Restart`, `Worker.Worker.Live`).
- Below a width of 2 the padded pane is not a rectangle (`WrapText.DrawnPaneIsARectangleIff`).
- The heartbeat's daily cap allows up to `2 * max_per_day - 1` pings within less than a day
  (`Heartbeat.PingsAreSpaced`, `Heartbeat.TwoDaysMeet`).

## Model

| member | source | states |
|---|---|---|
| MessageStore.ApplyAllKeeps | src/tg_messenger/core/message_store.py:129-158 | Whatever runs between two storage writes of the lock holder (posts, retractions, live ingests, outgoing records, unlocked deletion events, in any number and order), the cache keeps its invariant: every message still on the remote with an id in the claimed window has a row, and the rows of live messages and the sync row the holder saw are still there |
| MessageStore.ApplyKeeps | src/tg_messenger/core/message_store.py:129-158 | The same for one such move |
| MessageStore.SincePageCovers | src/tg_messenger/core/message_store.py:283-302 | A read of the newest `limit` messages above an id covers the top of the remote when it comes back full or excluded nothing, which is when the code commits it |
| MessageStore.PruneKeeps | src/tg_messenger/core/message_store.py:351-356 | Pruning rows between a page's edges removes no row of a live message, even if the remote moved since the page was read |
| MessageStore.CommitKeeps | src/tg_messenger/core/message_store.py:338-349 | Writing the sync row for a stored page makes no hole, and the new high edge is at or above everything the page's snapshot had |
| MessageStore.WipeKeeps | src/tg_messenger/core/message_store.py:338-343 | Deleting all rows after an empty full read is safe for the lock holder |
| MessageStore.WipeIsSafeIff | src/tg_messenger/core/message_store.py:338-343 | That deletion makes a hole exactly when a live message lies in the claimed window |
| MessageStore.UnlockedWipeMakesAHole | src/tg_messenger/core/message_store.py:338-343 | A concrete state in which the same deletion without the peer lock makes a hole |
| MessageStore.ExtendKeeps | src/tg_messenger/core/message_store.py:304-336 | Absorbing an older page below an offset inside the window and lowering the low edge leaves no hole, with the low edge 0 exactly for a short page |
| MessageStore.CachedPage | src/tg_messenger/core/message_store.py:304-325 | A page served from rows below an offset inside the window skips no live message, and is the remote's own page while the remote only grew |
| MessageStore.FetchedPage | src/tg_messenger/core/message_store.py:326-336 | A page fetched from the client skips nothing |
| MessageStore.LoadedPageIsNewest | src/tg_messenger/core/message_store.py:381-391 | The rows of the window are the newest `limit` live messages up to its high edge if and only if the window holds `limit` rows or nothing live lies below it |
| MessageStore.NarrowerCallCutsIff | src/tg_messenger/core/message_store.py:100-127 | A call for fewer messages between a call's sync and its unlocked reads cuts the page that call returns if and only if the remote has more messages than the narrower call asked for |
| MessageStore.AttendedStays | src/tg_messenger/core/message_store.py:381-391 | For a call that has given the lock back: whatever anybody else writes that keeps the sync row and the rows of live messages, its promise still holds if the row is yet to be read, and the window it has read gets no hole |
| MessageStore.MovesAttended | src/tg_messenger/core/message_store.py:381-391 | The same through any list of outside moves, with its own two reads falling anywhere among them |
| MessageStore.WipeAttended | src/tg_messenger/core/message_store.py:338-343 | Not even the deletion of all rows, under the lock and after an empty full read, makes a hole in a window that another call has already read |
| MessageStore.LoadedIsPage | src/tg_messenger/core/message_store.py:381-391 | While the remote only grows, the rows read for a window that was read earlier are the newest messages up to its high edge, however many other calls wrote rows and windows in between |
| MessageStore.TidyStays | src/tg_messenger/core/message_store.py:351-356 | What a replacement took off the window stays off, for a call that has yet to make its two reads, through every statement of others that only brings back what it upserts itself |
| MessageStore.MovesTidy | src/tg_messenger/core/message_store.py:351-356 | The same through any list of outside moves, with the two reads falling anywhere among them |
| MessageStore.SweptIsClean | src/tg_messenger/core/message_store.py:344-356 | A window just replaced from a later snapshot is clean for every replacement before it |
| MessageStore.DeepenedWindowShowsTheDeleted | src/tg_messenger/core/message_store.py:326-336 | A concrete state in which an older page deepens the window over a row whose message is gone, so that the next page from the rows shows it: why the claim stops at the replaced window's low edge |
| MessageStore.MessageStore.Interfere | src/tg_messenger/core/message_store.py:129-158 | One await of the lock holder: the world makes any list of moves |
| MessageStore.MessageStore.UpsertAll | src/tg_messenger/core/message_store.py:338-347 | One statement per message, with awaits between: afterwards every live message of the page has a row and nothing promised is lost |
| MessageStore.MessageStore.ReplaceWindow | src/tg_messenger/core/message_store.py:338-349 | The window becomes exactly the page's span, no hole at any step; afterwards a row between the page's edges is on the page or was upserted by somebody else after the rows were pruned, and under an empty page every row was; the page can be served in full while the remote only grows |
| MessageStore.MessageStore.PruneAndCommit | src/tg_messenger/core/message_store.py:344-356 | Prune, then commit, as two statements with the world moving in between: a row between the page's edges is on the page, or others upserted it since the prune |
| MessageStore.MessageStore.PruneRows | src/tg_messenger/core/message_store.py:351-356 | The prune itself: what stands between the page's edges right after it, and after the awaits that follow, is the page and what others upsert from then on |
| MessageStore.MessageStore.SyncFullWindow | src/tg_messenger/core/message_store.py:299-302 | A full sync reaches the top of the remote as of its start |
| MessageStore.MessageStore.SyncHistory | src/tg_messenger/core/message_store.py:283-297 | An incremental sync, falling back to a full one, reaches the top of the remote as of its start and can then serve `limit` messages |
| MessageStore.MessageStore.Widen | src/tg_messenger/core/message_store.py:115-123 | A window shorter than the call asks for, and only such a one, is replaced by one that reaches the top, with its rows between the edges on the page or upserted since |
| MessageStore.MessageStore.Clear | src/tg_messenger/core/message_store.py:339-342 | An empty remote: the window is empty, without a hole for anybody, and every row there is was upserted by somebody else after the deletion |
| MessageStore.MessageStore.LoadWindow | src/tg_messenger/core/message_store.py:381-391 | Two reads with the world moving before, between and after them; whichever of them is still to be done is done |
| MessageStore.MessageStore.ServeFromWindow | src/tg_messenger/core/message_store.py:318-325 | An older page is served from the window exactly when the sync row's window contains the offset and holds enough rows below it or has 0 as its low edge; then it skips no live message below the offset |
| MessageStore.MessageStore.FetchOlder | src/tg_messenger/core/message_store.py:326-336 | Otherwise it is the newest live messages below the offset, as the client has them, and is stored row by row; the window is deepened exactly when the offset is inside it |
| MessageStore.MessageStore.Deepen | src/tg_messenger/core/message_store.py:329-335 | Lowering the edge sets exactly the new low edge and leaves no hole, for the window and for anybody who has read it |
| MessageStore.MessageStore.Sync | src/tg_messenger/core/message_store.py:110-126 | The locked part of `history`: it replaces the window exactly when the call is stale, there is no sync row, or the window is too short for it, and otherwise leaves the row as it was; a replacement reaches the top; while the remote only grows it can serve `limit` messages afterwards |
| MessageStore.MessageStore.HistoryBefore | src/tg_messenger/core/message_store.py:304-336 | The older-page form, from rows or client alike: nothing live below the offset is skipped, and which of the two it is, is told from the window; the high edge never moves and the low edge only goes down; while the remote only grows the page is exactly the newest `limit` ids below the offset at the moment it was read |
| MessageStore.MessageStore.History | src/tg_messenger/core/message_store.py:100-127 | `history(limit)`, whose last two reads are made without the lock and may each fall between any two statements of any other calls on the peer: the page is the newest `limit` rows, as the second read found them, of the window the first read found; no live message of that window is missing; a stale or unsynced call's window reaches the top of the remote as of its start, and its replacement takes the deleted off the page: every id on it from the replaced window's low edge up was live in the snapshot, or was posted or upserted by others since (for the whole page, if no call for an older page comes between); and while the remote only grows and no narrower call comes between, the page is exactly the newest `limit` remote messages up to the window's high edge at the moment of the second read |
| Pages.NewestIsPage | src/tg_messenger/core/message_store.py:381-400 | `ORDER BY id DESC LIMIT n`, reversed, yields an ascending page of members that leaves out only older ones, and only when full |
| Pages.PageIsNewest | src/tg_messenger/core/message_store.py:381-400 | Those properties determine the page |
| HistoryPane.ClaimsStay | src/tg_messenger/tui/app.py:957-1011 | A contiguous mounted list and a true exhaustion record stay so whatever the remote does later |
| HistoryPane.PrependKeeps | src/tg_messenger/tui/app.py:1083-1107 | Prepending a page below the cursor keeps the list an ascending, duplicate-free stretch without gaps; a short page proves nothing is left below |
| HistoryPane.FirstPage | src/tg_messenger/tui/app.py:984-990 | The first page, rows of a window read before them, is contiguous; a short one is the whole history when that window starts at the first possible id |
| HistoryPane.FirstPageExact | src/tg_messenger/tui/app.py:984-990 | While the remote only grows, a short first page is the whole history below the high edge |
| HistoryPane.ShortPageProvesTheStartIff | src/tg_messenger/tui/app.py:984-990 | Reading a short first page as "no older history" is right in every world the cache is consistent with if and only if the stored window starts at id 1 or 0 |
| HistoryPane.DeletionShortensTheFirstPage | src/tg_messenger/tui/app.py:984-990 | For every page size from 2 on, the pane's 50 included: a reachable window that passes the count test, and a deletion between the store's two reads, after which the page is one short although the oldest message is still on the remote |
| HistoryPane.NothingIsMountedTwice | src/tg_messenger/tui/app.py:1083 | The filter against mounted ids keeps the whole of a page below the cursor |
| HistoryPane.CursorDescends | src/tg_messenger/tui/app.py:1104-1107 | Each backfill that adds rows lowers the number of issued ids below the cursor, and one that adds none keeps it: the termination measure |
| HistoryPane.Pane.Open | src/tg_messenger/tui/app.py:878-1011 | Opening rebuilds the list as the newest 50 rows of the window the store read, with the cursor at their oldest; after a stale open, with no older page between, every message in it was on the remote in the snapshot of that open or came since; the exhaustion record stays true if the page is full, that window starts at the beginning, or the remote only grows without a narrower call |
| HistoryPane.Pane.Backfill | src/tg_messenger/tui/app.py:1013-1109 | One scroll to the top: runs exactly when gate, cursor and guard allow it, prepends, and leaves list, cursor, guard and exhaustion record consistent and true |
| HistoryPane.Pane.Prepend | src/tg_messenger/tui/app.py:1083-1107 | The mounting step of a backfill |
| HistoryPane.Pane.BackfillAll | src/tg_messenger/tui/app.py:1013-1109 | Scrolling up until the gate closes terminates with every live message up to the newest mounted one in the list, exactly those while the remote only grows |
| TtlCache.CacheIsSafe | src/tg_messenger/core/cache.py:62-163 | Over every interleaving of callers, failures, cancellations, expiry, eviction and invalidations: a stored fetched value comes from a fetch begun after the last invalidation of its key, at most one fetch per key is in flight, each waiter count is the number of coroutines inside, no lock pair outlives its last user, and the store keeps its bound |
| TtlCache.FetchIsCachedIff | src/tg_messenger/core/cache.py:153-158 | Right after a fetch has finished its value is live in the cache if and only if its key was not invalidated since it began; otherwise the cache is as before |
| TtlCache.NothingExpiredIsServed | src/tg_messenger/core/cache.py:62-80 | Over every run: a value given out without a fetch was put in less than `ttl` before |
| TtlCache.ServedIff | src/tg_messenger/core/cache.py:137-153 | At both looks: a caller goes away without a fetch if and only if the key is stored and not expired, and then with exactly that entry |
| TtlCache.SetEvictsTheOldest | src/tg_messenger/core/cache.py:73-80 | Storing an entry leaves the newest `maxsize` keys, in order, with the new one last and all other values as they were |
| TtlCache.NoGenerationComesBack | src/tg_messenger/core/cache.py:82-94 | Generations are bumped, forgotten and begun again at 0, yet over any run none comes back to a fetch in flight: once outdated, it stays outdated for as long as it runs, and stores nothing |
| TtlCache.RunKeeps | src/tg_messenger/core/cache.py:62-163 | The invariant behind it holds after every run |
| TtlCache.DoKeeps | src/tg_messenger/core/cache.py:62-163 | Each step keeps it |
| TtlCache.AfterFetchSafe | src/tg_messenger/core/cache.py:154-158 | The compare-and-set after a fetch stores nothing stale |
| TtlCache.CallKeeps | src/tg_messenger/core/cache.py:137-145 | Entering: a hit, or one more waiter on the key's lock |
| TtlCache.ResumeKeeps | src/tg_messenger/core/cache.py:147-154 | Acquiring the lock, the second look, and the generation snapshot |
| TtlCache.LeaveKeeps | src/tg_messenger/core/cache.py:159-163 | Leaving: the last one out drops the lock pair and an unreferenced generation |
| TtlCache.InvalidateKeeps | src/tg_messenger/core/cache.py:108-125 | Invalidating any set of keys |
| TtlCache.InvalidateAllKeeps | src/tg_messenger/core/cache.py:102-107 | Invalidating everything |
| TtlCache.EvictKeepsNewest | src/tg_messenger/core/cache.py:73-80 | Eviction never takes the entry just set, if the cache may hold one at all |
| TtlCache.InvalidateOneMore | src/tg_messenger/core/cache.py:113-125 | Bump, drop and prune of one more key extends the invalidated set by exactly it |
| TtlCache.TTLCache.Get | src/tg_messenger/core/cache.py:62-71 | A hit if and only if the key is stored and the time is before its expiry, and then its value, with the store as it was; otherwise the key is out of the store, and no other |
| TtlCache.TTLCache.Set | src/tg_messenger/core/cache.py:73-80 | Entry replaced at the newest place with its new expiry, the oldest evicted with their dead generations |
| TtlCache.TTLCache.Invalidate | src/tg_messenger/core/cache.py:108-111 | Exactly this key out, its generation up if a fetch may hold it |
| TtlCache.TTLCache.InvalidateIf | src/tg_messenger/core/cache.py:113-125 | The loop equals invalidating the whole matching set at once, including keys only being fetched |
| TtlCache.TTLCache.InvalidateAll | src/tg_messenger/core/cache.py:102-107 | The loop bumps every key stored as a generation or a lock |
| TtlCache.TTLCache.Enter | src/tg_messenger/core/cache.py:142-145 | From a miss to a counted waiter |
| TtlCache.TTLCache.Leave | src/tg_messenger/core/cache.py:159-163 | The `finally` block |
| OutboundTokens.SendsAreAtMostOnce | src/tg_messenger/agent/outbound_coordinator.py:140-168 | Over any run of preparing, concurrent submits, sends that return or raise, cancellations, expiry and pruning: no token has two sends in flight or two that went through, each send was for its token's own dialog and owner with one of its variants, and the store keeps its bound |
| OutboundTokens.RunKeeps | src/tg_messenger/agent/outbound_coordinator.py:140-273 | The invariant behind it |
| OutboundTokens.FailureIsRetryable | src/tg_messenger/agent/outbound_coordinator.py:265-273 | Restoring after a failed send makes the same choice acceptable again while the token lives |
| OutboundTokens.ClaimedExactlyWhen | src/tg_messenger/agent/outbound_coordinator.py:237-263 | A send is let through if and only if its token is there, idle and unexpired, of that dialog and owner, with that text among its variants; then that token alone is claimed, and a refusal changes nothing but an overdue token, which goes |
| OutboundTokens.TakenIsRefused | src/tg_messenger/agent/outbound_coordinator.py:237-263 | In every reachable state a token with a send in flight, or one that went through, is refused to everybody |
| OutboundTokens.SentIsRefusedForGood | src/tg_messenger/agent/outbound_coordinator.py:265-267 | Once a send went through its token is refused for good, whatever happens later, be it consumed, left claimed by a cancellation, or not yet settled |
| OutboundTokens.RememberFits | src/tg_messenger/agent/outbound_coordinator.py:206-235 | A store within its bound stays within it when a token is added |
| OutboundTokens.AddOne | src/tg_messenger/agent/outbound_coordinator.py:206-217 | What the second prune meets: at most one token too many and always an idle one, so the exit for "all tokens are being sent" is never taken |
| OutboundTokens.ShrinkByOne | src/tg_messenger/agent/outbound_coordinator.py:210-217 | It then evicts exactly the oldest idle token |
| OutboundTokens.RememberKeeps | src/tg_messenger/agent/outbound_coordinator.py:206-235 | No token being sent is lost, none is changed, only the new one is added |
| OutboundTokens.FreshTokenSurvivesIff | src/tg_messenger/agent/outbound_coordinator.py:206-235 | The token just remembered is still there if and only if it has a lifetime and the pruned store has room or another idle token |
| OutboundTokens.OldTokenLeavesIff | src/tg_messenger/agent/outbound_coordinator.py:206-235 | An old token leaves when a new one is added if and only if nobody is sending it and either its time is over, or the new one has a lifetime, the unexpired tokens already fill the store, and it is the oldest unclaimed of them |
| OutboundTokens.NewTokenStaysIff | src/tg_messenger/agent/outbound_coordinator.py:206-235 | The new one stays if and only if it has a lifetime and there is room beside the unexpired ones or one of them is unclaimed |
| OutboundTokens.TokenLeavesIff | src/tg_messenger/agent/outbound_coordinator.py:140-273 | The three ways out of the store, for every step of a run: a new token is added when it is unclaimed and over or makes way, it is asked for when it is over, a send for it that went through is settled |
| OutboundTokens.PreparedWaits | src/tg_messenger/agent/outbound_coordinator.py:140-235 | A token handed out is there with exactly what it was prepared for and its whole lifetime, if it is there at all |
| OutboundTokens.ClaimableUntil | src/tg_messenger/agent/outbound_coordinator.py:140-273 | Over any run a prepared token stays claimable, with every one of its variants, until its time is over, it makes way for room, or a send for it went through, whenever no send for it is under way |
| OutboundTokens.PreparedButGone | src/tg_messenger/agent/outbound_coordinator.py:206-235 | A run, with room for one token, in which the token just prepared is not in the store |
| OutboundTokens.SubmitKeeps | src/tg_messenger/agent/outbound_coordinator.py:237-263 | Claiming a token |
| OutboundTokens.SettleKeeps | src/tg_messenger/agent/outbound_coordinator.py:265-273 | Consuming after a send, restoring after a failure |
| OutboundTokens.OutboundSendCoordinator.DropExpired | src/tg_messenger/agent/outbound_coordinator.py:206-209 | Exactly the tokens that are being sent or whose time is not over stay |
| OutboundTokens.OutboundSendCoordinator.OldestIdle | src/tg_messenger/agent/outbound_coordinator.py:210-216 | The oldest token not being sent, or none |
| OutboundTokens.OutboundSendCoordinator.Prune | src/tg_messenger/agent/outbound_coordinator.py:206-217 | Expiry, then eviction of the oldest idle tokens until the store fits |
| OutboundTokens.OutboundSendCoordinator.RememberToken | src/tg_messenger/agent/outbound_coordinator.py:219-235 | Prune, add, prune |
| Worker.NothingIsLost | src/tg_messenger/interop/worker.py:195-262 | In the order produced, every report is settled (acknowledged or dropped by a conflict) or still owed |
| Worker.ResultsAreReported | src/tg_messenger/interop/worker.py:171-193 | The reports queued are exactly the results and errors of the tasks executed to an end, in order, but for one about to be queued |
| Worker.SettledByReply | src/tg_messenger/interop/worker.py:195-262 | A report leaves the queue only right after the factory accepted it, or said of a replayed one that it conflicts |
| Worker.OneAtATime | src/tg_messenger/interop/worker.py:171-193 | At most one report is unacknowledged beyond what the file held at the start |
| Worker.Worker.Save | src/tg_messenger/interop/worker.py:84-90 | The file becomes the whole list, or the write fails and the file is as before |
| Worker.Worker.Add | src/tg_messenger/interop/worker.py:76-78 | The new report is the queue's only one |
| Worker.Worker.Ack | src/tg_messenger/interop/worker.py:80-82 | Exactly the oldest report goes, which is the one just added or replayed |
| Worker.Worker.FlushReports | src/tg_messenger/interop/worker.py:195-241 | Reports are replayed oldest first until none is left or one fails; it reports success exactly when the queue is empty, and stops before only after a reply that is not a success, or a write that failed |
| Worker.Worker.ReportSafely | src/tg_messenger/interop/worker.py:243-262 | The report is on the queue before the factory is told, and leaves it only on a confirmed acknowledgement |
| Worker.Worker.ProcessOnce | src/tg_messenger/interop/worker.py:171-193 | It says that it handled a task only if one was executed to an end, and after one it says so unless the queue file could not be written or it was interrupted while reporting; every other end is told from the last reply, the claim or the killed task. Every event it adds is in order: an executed task's report is queued next and sent after that |
| Worker.Worker.Work | src/tg_messenger/interop/worker.py:171-193 | A claimed task is executed, and its result or error queued and reported unless it was killed |
| Worker.Worker.ReplayOldest | src/tg_messenger/interop/worker.py:195-241 | One replay: the oldest report leaves the queue, or the loop stops with what its reply calls for |
| Worker.Worker.Restart | src/tg_messenger/interop/worker.py:58-74 | A new process finds exactly the file; nothing is lost by it if and only if the file was in step with the list in memory, as it is after every write that succeeds |
| Worker.Worker.Live | src/tg_messenger/interop/worker.py:152-169 | Any number of rounds with failed acknowledgements, failed writes, cancellations and restarts: as long as no process ends right after a failed write, what the file held plus the results of all tasks executed to an end is what was settled plus what is still held, in order, and the file holds that too after a write that succeeded |
| WrapText.WrapFitsAndIsIdempotent | claude-plugin/hooks/register.tsx:309-329 | No line of a wrapped text is longer than the width asked for, or than 2 if that is less, and wrapping twice equals wrapping once |
| WrapText.WrapIsOptimal | claude-plugin/hooks/register.tsx:309-329 | From a width of 2 on, a text without a line break gets no more lines than any layout of its words, cut at that width, has |
| WrapText.NarrowIsTwo | claude-plugin/hooks/register.tsx:309-312 | Below 2 it wraps as at 2 |
| WrapText.ParagraphByParagraph | claude-plugin/hooks/register.tsx:309-329 | The lines of a text are those of its paragraphs, each wrapped alone, in order |
| WrapText.ParagraphIsOptimal | claude-plugin/hooks/register.tsx:313-326 | Each paragraph becomes a layout of its pieces, and no layout of the same pieces within the width has fewer lines |
| WrapText.GreedyIsOptimal | claude-plugin/hooks/register.tsx:313-326 | The exchange argument, for any start |
| WrapText.LongWordIsOnlyBrokenByLines | claude-plugin/hooks/register.tsx:313-326 | In a wrapped paragraph a word longer than the line stands on consecutive lines of its own, cut at the column and nowhere else; only its last part can be followed by another word, so no space ever lands inside it |
| WrapText.LongWordStaysWhole | claude-plugin/hooks/register.tsx:316-324 | The same in any layout of the pieces, greedy or not |
| WrapText.WidePieceStandsAlone | claude-plugin/hooks/register.tsx:316-324 | A piece as wide as the line stands alone on it |
| WrapText.PiecesOfWord | claude-plugin/hooks/register.tsx:317-318 | A hard-broken word's pieces put together are the word, none is empty or too wide, and all but the last are full |
| WrapText.WrapKeepsLetters | claude-plugin/hooks/register.tsx:309-329 | Every character that is not a space or a line break is kept, in order |
| WrapText.PlaceWord | claude-plugin/hooks/register.tsx:316-325 | The innermost loop is placing the word's pieces one after the other |
| WrapText.PlaceWords | claude-plugin/hooks/register.tsx:313-326 | The loop over words |
| WrapText.WrapLoop | claude-plugin/hooks/register.tsx:309-329 | The nested loops compute the wrapped text |
| WrapText.DrawnPaneIsARectangleIff | claude-plugin/hooks/register.tsx:341-346 | Wrapping and then padding to the same width gives a full rectangle for every text if and only if the width is at least 2 |
| WrapText.PadKeepsLines | claude-plugin/hooks/register.tsx:341-346 | Padding keeps every line and adds only spaces after it, up to the width |
| TextLines.SplitJoined | claude-plugin/hooks/register.tsx:309-329 | Splitting a joined list of texts gives the lines of the texts, in order |
| MessageLines.RoundTripIff | claude-plugin/hooks/register.tsx:264-279 | Parsing the newline-joined `message_line` outputs gives back every id, direction and text (or `<media>`) if and only if no message's first body line holds a carriage return or a Unicode line separator; no other line is ever taken for a new message |
| MessageLines.HeadIsRecognisedIff | claude-plugin/hooks/register.tsx:256-257 | A printed first line matches the pattern exactly when its text has no line terminator, and then yields id, direction and text |
| MessageLines.MatchIff | claude-plugin/hooks/register.tsx:256-257 | For any line at all: the pattern matches exactly an arrow, a space, a number in brackets, a space and a rest without line terminators |
| MessageLines.PrintedForm | src/tg_messenger/core/models.py:121-135 | The printed form, character by character: arrow and id before the first line of the text or placeholder, as many spaces before every other |
| MessageLines.TwoLines | src/tg_messenger/core/models.py:121-135 | Two messages as they are printed |
| MessageLines.PrintTwo | src/tg_messenger/core/models.py:121-135 | Nothing but a line feed stands between two messages |
| MessageLines.CleanMessage | src/tg_messenger/core/models.py:121-135 | One printed message, fed to the parser after anything, adds exactly itself |
| MessageLines.FinalNewline | claude-plugin/hooks/register.tsx:274-275 | One newline at the end of the input adds one line break to the last message |
| MessageLines.CarriageReturnIsLost | claude-plugin/hooks/register.tsx:256-279 | One message holding a single carriage return does not come back |
| MessageLines.MessageLineSplits | src/tg_messenger/core/models.py:121-135 | The printed form has the head line and every further body line indented by the prefix width |
| MessageLines.ParseHistory | claude-plugin/hooks/register.tsx:264-279 | The parsing loop computes the fold the statements above are about |
| MessageLines.ValueOfDigits | src/tg_messenger/core/models.py:121-135 | The printed id reads back as itself |
| OrderedDicts.ODict.PutCappedOk | src/tg_messenger/core/cache.py:27-39 | Remembering a key and evicting: only that key is new, all other values are unchanged, and the key itself survives any cap above 0 |
| OrderedDicts.ODict.CappedOk | src/tg_messenger/core/cache.py:27-39 | Evicting the oldest keeps exactly the newest `cap` keys |
| OrderedDicts.ODict.PutCappedOrder | src/tg_messenger/core/cache.py:27-39 | The remembered key goes to the newest place, wherever it was or was not, the others keep their order, and the oldest leave |
| SlidingWindows.MessageCounter.Record | src/tg_messenger/core/moderation.py:321-335 | The count is the number of messages recorded under the key in the trailing 60 s since the key entered the table; the table keeps the popped window and the newest `cap` keys |
| SlidingWindows.CountIsTrueMinusForgotten | src/tg_messenger/core/moderation.py:321-335 | Against everything ever recorded the count is short by exactly the recent messages an eviction forgot: never too high, and exact if and only if nothing forgotten is recent |
| SlidingWindows.NothingIsMissing | src/tg_messenger/core/moderation.py:321-335 | What the key's window is counted against and what evictions forgot are together everything recorded under the key, in order |
| SlidingWindows.PopWindow | src/tg_messenger/core/moderation.py:331-332 | Popping from the front of the deque leaves the recent part of the full list |
| SlidingWindows.PushWindow | src/tg_messenger/core/moderation.py:330-332 | The same after recording the current time |
| SlidingWindows.RecentIsTail | src/tg_messenger/core/moderation.py:331-332 | In an ordered list the recent times are a tail |
| SlidingWindows.ReplyLimiter.OverRateLimit | src/tg_messenger/agent/ghostwrite.py:252-270 | An attempt is refused exactly when the trailing hour already holds `max_per_hour` admitted ones, and recorded exactly when admitted |
| SlidingWindows.AttemptedOrder | src/tg_messenger/agent/ghostwrite.py:258-266 | An attempt moves its key to the newest place of the table, whether it is admitted or not |
| SlidingWindows.NoIntervalHoldsMore | src/tg_messenger/agent/ghostwrite.py:252-270 | Any closed interval of 3600 s, wherever it starts, holds at most `max_per_hour` admitted attempts of a key since it entered the table, and none if the limit is not positive |
| SlidingWindows.ReplyLimiter.NoHourHoldsMore | src/tg_messenger/agent/ghostwrite.py:252-270 | The same of the limiter itself, at any moment and for every key: any `max_per_hour + 1` consecutive admitted attempts are more than 3600 s apart |
| SlidingWindows.AdmitKeepsSpaced | src/tg_messenger/agent/ghostwrite.py:262-270 | Admitting below the limit keeps any `max + 1` consecutive attempts more than an hour apart |
| SlidingWindows.Evict | src/tg_messenger/agent/ghostwrite.py:264-265 | The eviction loop keeps the newest keys |
| SlidingWindows.PopOld | src/tg_messenger/agent/ghostwrite.py:262-263 | The popping loop |
| Ghostwriter.HumansAndMistakesOnly | src/tg_messenger/agent/ghostwrite.py:272-354 | Over any interleaving of the two consumers: once an outgoing event is done with, it went down the pausing path if and only if it was a human's or a mistaken own message; nothing else ever does |
| Ghostwriter.MistakenExactlyWhen | src/tg_messenger/agent/ghostwrite.py:283-335 | The three moments at which an own message becomes mistaken, and no other: its echo comes while another send to its dialog is in flight, its send raises, or its id, the oldest of a full cache, is pushed out by the next one before its echo came |
| Ghostwriter.ForgottenIs | src/tg_messenger/agent/ghostwrite.py:301-308 | The id cache forgets at most one id for a new one, the oldest, and only when it is full |
| Ghostwriter.EchoFreesItsPlace | src/tg_messenger/agent/ghostwrite.py:323-325 | A recognised echo is not handed over, and its id leaves the cache, the others in order |
| Ghostwriter.KnownWereEnabled | src/tg_messenger/agent/ghostwrite.py:189-202 | The dialogs the engine takes for known are all that were enabled at the start, and no other but those enabled at some moment of the run |
| Ghostwriter.OwnRepliesNeverPause | src/tg_messenger/agent/ghostwrite.py:301-354 | Where none of the three guards trips, no own reply reaches the pausing path and every human message does |
| Ghostwriter.LateEchoIsTakenForHuman | src/tg_messenger/agent/ghostwrite.py:320-339 | A run without any failure and with any cache size in which the engine's own late echo is handed to the pausing path |
| Ghostwriter.HumansPauseIff | src/tg_messenger/agent/ghostwrite.py:310-354 | Over any interleaving of the two consumers, before, during or after a send: a human message that was dealt with paused its dialog if and only if no storage call for it failed and those calls found the dialog enabled and active; the same of an own message taken for a human's |
| Ghostwriter.PauseIsWritten | src/tg_messenger/agent/ghostwrite.py:342-354 | At the moment an event becomes a pause, its dialog's row holds exactly that pause over the enabled flag it had, so the dialog is inactive until its end, and no other row changes |
| Ghostwriter.OutcomesAreTrue | src/tg_messenger/agent/ghostwrite.py:342-354 | At each single storage call of that path: what its outcome says of the dialog then, that a known dialog is not looked up again, and that only the last call writes |
| Ghostwriter.OnlyOneLateSend | src/tg_messenger/agent/ghostwrite.py:226-283 | After a dialog's row is written at most one send can start against it, the one already cleared; a second starts only where the dialog is active; none without enforcement |
| Ghostwriter.NextSendIsActive | src/tg_messenger/agent/ghostwrite.py:226-283 | Once a send has started in a dialog, and until somebody writes its row, the engine clears another reply there only while the row says enabled and not paused |
| Ghostwriter.BothChecks | src/tg_messenger/agent/ghostwrite.py:226-283 | A draft is begun, and a drafted reply cleared, exactly while the row says enabled and not paused; the second needs enforcement as well |
| Ghostwriter.ClearedSendStartsInAPause | src/tg_messenger/agent/ghostwrite.py:272-288 | A run in which that one send starts during a human's pause |
| Ghostwriter.RunKeeps | src/tg_messenger/agent/ghostwrite.py:182-354 | The invariant behind these |
| Ghostwriter.DeliverKeeps | src/tg_messenger/agent/ghostwrite.py:310-326 | The synchronous part of `on_outgoing` |
| Ghostwriter.ReturnKeeps | src/tg_messenger/agent/ghostwrite.py:287-291 | A send that returned its id |
| Ghostwriter.RaiseKeeps | src/tg_messenger/agent/ghostwrite.py:290-297 | A send that raised or returned no id |
| Ghostwriter.SettleKeeps | src/tg_messenger/agent/ghostwrite.py:328-340 | One put-off event |
| Ghostwriter.SettlingHandsOverTheOthers | src/tg_messenger/agent/ghostwrite.py:328-340 | The whole list hands over exactly the events that are not the message just sent |
| Ghostwriter.GhostwriteEngine.RememberOwn | src/tg_messenger/agent/ghostwrite.py:301-308 | The bounded id cache |
| Ghostwriter.GhostwriteEngine.BeginSend | src/tg_messenger/agent/ghostwrite.py:283-285 | Opening the list of put-off events |
| Ghostwriter.GhostwriteEngine.EndSend | src/tg_messenger/agent/ghostwrite.py:286-298 | Remembering the id, closing the list, and what is in it |
| Ghostwriter.GhostwriteEngine.OnOutgoing | src/tg_messenger/agent/ghostwrite.py:310-326 | Put off, recognised and forgotten, or handed to the pausing path |
| Ghostwriter.DeferredHumans | src/tg_messenger/agent/ghostwrite.py:328-340 | The loop over put-off events |
| Heartbeat.PingsAreSpaced | src/tg_messenger/core/heartbeat.py:214-253 | Over any run with a clock that never goes back: consecutive pings are at least `interval_hours * 3600` s plus the drawn jitter apart, none falls on the quiet arc, any `2 * max_per_day` consecutive ones take at least 86400 s, and a closed day holds at most that many |
| Heartbeat.PingsComeFromTicks | src/tg_messenger/core/heartbeat.py:311-375 | Every recorded ping is the time of a tick of an enabled plan that found no message of ours waiting and could be stored, and its jitter is what was drawn at that tick, or none for a plan without jitter |
| Heartbeat.PingsExactlyWhen | src/tg_messenger/core/heartbeat.py:224-329 | The stored counters decide exactly what the full history of pings would: last ping far enough back, counted day over or not full, hour off the quiet arc |
| Heartbeat.RunKeeps | src/tg_messenger/core/heartbeat.py:311-375 | The stored fields are what the history says, so each counted day has at most `max_per_day` pings |
| Heartbeat.TickKeeps | src/tg_messenger/core/heartbeat.py:311-375 | One tick keeps that |
| Heartbeat.QuietIsAnArc | src/tg_messenger/core/heartbeat.py:214-221 | A plan is quiet if and only if both bounds are set and `(h - start) mod 24 < (end - start) mod 24` |
| Heartbeat.GrownDayApart | src/tg_messenger/core/heartbeat.py:359-367 | Recording keeps `2 * max_per_day - 1` pings a day apart |
| Heartbeat.GrownCounts | src/tg_messenger/core/heartbeat.py:359-375 | Recording keeps the counters true |
| Heartbeat.TwoDaysMeet | src/tg_messenger/core/heartbeat.py:359-367 | The bound is reached: with two a day, three pings within two hours |
| Heartbeat.HeartbeatService.ProcessPlans | src/tg_messenger/core/heartbeat.py:300-329 | Each plan is judged by itself; a plan that fails never keeps the loop from the next |
| LockTables.SpinForgetsTheOldestIdle | src/tg_messenger/core/message_store.py:234-244 | The loop forgets exactly the oldest idle locks, as many as the table is too long or as there are; held locks stay and idle ones keep their order |
| LockTables.FitsOrAllHeld | src/tg_messenger/core/message_store.py:234-244 | Afterwards the table fits or every lock in it is held |
| LockTables.ReturnedLockStays | src/tg_messenger/agent/outbound.py:211-227 | The lock about to be returned, not yet held, stays if and only if the table was short enough or fewer than `cap` locks are held |
| LockTables.NewestSurvives | src/tg_messenger/core/message_store.py:218-244 | The same for the store's table, held locks included |
| LockTables.DrainTakesIdleLocks | src/tg_messenger/core/message_store.py:245-254 | The second loop forgets idle locks only, each together with its dialog's sync time |
| LockTables.DrainFitsOrStops | src/tg_messenger/core/message_store.py:245-254 | It ends with a list that fits, or at a held lock whose dialog is now newest with a new time |
| LockTables.DrainIsSafe | src/tg_messenger/core/message_store.py:245-254 | Both loops together lose no held lock |
| LockTables.DrainLeaves | src/tg_messenger/core/message_store.py:245-254 | The second loop lets go exactly the locks of the oldest sync times, as many as those are too many, up to the first held one |
| LockTables.ForgetLeaves | src/tg_messenger/core/message_store.py:234-254 | Both loops together: a lock leaves the table if and only if it is among the oldest idle ones that are too many, or its sync time is among the oldest that are too many with no held lock before it |
| LockTables.ForgetTimes | src/tg_messenger/core/message_store.py:234-254 | The sync times: one leaves only as its dialog has no lock afterwards, none stays for a lock that goes, none changes but to a new time under a held lock; while the list fits, exactly the times of locks that go leave |
| LockTables.ForgetIsSpin | src/tg_messenger/core/message_store.py:234-254 | The second loop takes no lock as long as every sync time belongs to a lock in the table |
| LockTables.LanguageLocks.DialogLangLock | src/tg_messenger/agent/outbound.py:211-227 | The rotating loop terminates, by table size and unchecked entries, with exactly that table |
| LockTables.PeerLocks.EvictIdleLocks | src/tg_messenger/core/message_store.py:234-244 | The same loop in the store, with each lost lock's sync time going too |
| LockTables.PeerLocks.EvictOldTimes | src/tg_messenger/core/message_store.py:245-254 | The second loop |
| LockTables.PeerLocks.EvictIdlePeerState | src/tg_messenger/core/message_store.py:234-254 | Both loops leave exactly what their specification says: no held lock goes, no lock changes, and the table fits or holds only held locks |
| LockTables.PeerLocks.PeerLock | src/tg_messenger/core/message_store.py:218-226 | The table and the sync times become exactly what the two loops leave; the lock to be returned is in the table if and only if the exact condition lets it stay, which while the sync times fit is the one above |
| LockTables.PeerLocks.RememberSync | src/tg_messenger/core/message_store.py:228-232 | A new sync time runs the same two loops; it loses no held lock and lengthens the list by one at most |
| PeerLocking.ExclusiveWithinTheCap | src/tg_messenger/core/message_store.py:218-254 | Over any run of coroutines that ask for, wait for, take and leave peer locks and record sync times inside them: as long as no more peers are asked for than the table may hold, no lock in use is ever forgotten and at most one coroutine is inside for each peer |
| PeerLocking.FirstOrphanExactlyWhen | src/tg_messenger/core/message_store.py:218-254 | The exact step at which that first fails: the loops run, over a table too long, and the lock just asked for, or one whose woken waiter has not run, is free and among the oldest idle locks that must go |
| PeerLocking.OrphanedExactlyWhen | src/tg_messenger/core/message_store.py:218-254 | The same for every later step, when orphaned sync times let the second loop take a lock too, from `_peer_lock` and from `_remember_sync` alike |
| PeerLocking.ExclusiveButForOrphans | src/tg_messenger/core/message_store.py:218-254 | Over any run with a table of any size two coroutines are inside for one peer only if one of them holds an orphaned lock |
| PeerLocking.TwoInside | src/tg_messenger/core/message_store.py:218-254 | For every table size from 1 up, the 1000 of the code included: a run from the start, long enough to fill the table, that puts two coroutines inside for one peer |
| PeerLocking.BothGoIn | src/tg_messenger/core/message_store.py:218-244 | Its last three steps: a newcomer's lock pushes out the awaited one, its peer is asked for again, and both go in |
| PeerLocking.NewcomerForgets | src/tg_messenger/core/message_store.py:234-244 | From a full table whose oldest lock is free and awaited, asking for one more peer forgets that lock |
| PeerLocking.AskKeeps | src/tg_messenger/core/message_store.py:218-226 | One asking keeps every lock in use in the table or among the orphans, and every sync time with a lock or an orphan |
| PeerLocking.RememberKeeps | src/tg_messenger/core/message_store.py:228-232 | So does recording a sync time, with the loops it runs |
| PeerLocking.RunKeeps | src/tg_messenger/core/message_store.py:218-254 | So does every run |
| TranslatePasses.PassesConverge | src/tg_messenger/agent/translate.py:387-417 | After `k` successful passes the undecided messages are the oldest ones, `k * cap` fewer; once `k * cap` reaches their number a further pass sends nothing |
| TranslatePasses.PassTakesTheTail | src/tg_messenger/agent/translate.py:403-410 | A successful pass decides exactly the newest `cap` undecided messages; a failed one decides none |
| TranslatePasses.SentOnce | src/tg_messenger/agent/translate.py:423-475 | What was sent and answered holds that answer after any later passes and is never sent again |
| TranslatePasses.DecisionsLast | src/tg_messenger/agent/translate.py:423-443 | A cached decision survives any number of passes |
| TranslatePasses.PassDecides | src/tg_messenger/agent/translate.py:423-475 | For one message: the row after a pass, whether sent, blank, cached or own |
| TranslatePasses.PassMessageByMessage | src/tg_messenger/agent/translate.py:387-475 | The same in plain words, with what the reader gets: own messages as they are; a decision for this language and text shown; a message without letters decided as it stands; of the others the newest `cap` get what the model says, with the row to match, and the rest stay as they are |
| TranslatePasses.SentExactlyWhen | src/tg_messenger/agent/translate.py:398-410 | A message is sent if and only if it is undecided and fewer than `cap` later ones are |
| TranslatePasses.StaysOpen | src/tg_messenger/agent/translate.py:423-475 | A message is still undecided after a pass exactly when it was and was not sent, or the call failed |
| TranslatePasses.ReadersLoseNothing | src/tg_messenger/agent/translate.py:387-417 | Ids, directions and texts come back as they went in; own messages and open ones of a failed pass are untouched; decided ones show their decision |
| TranslatePasses.Translator.PrepareMessages | src/tg_messenger/agent/translate.py:393-402 | The first loop: blank messages decided at once, cached ones shown, the rest collected |
| TranslatePasses.Translator.StoreAnswers | src/tg_messenger/agent/translate.py:464-475 | Writing the answers, message by message |
| TranslatePasses.Translator.TranslateHistory | src/tg_messenger/agent/translate.py:387-417 | One pass: rows, payload and result |
| TranslatePasses.WithUpdates | src/tg_messenger/agent/translate.py:411-416 | The loop that puts answers into the result |
| DotenvLayers.LoadFollowsPrecedence | src/tg_messenger/cli/main.py:269-305 | Every key outside the pair and other than TG_HOME: the environment wins, then the current directory's file, then the file of the root in force at the end, then the file that named that root, and last the fixed fallback |
| DotenvLayers.LoadKeepsThePairWhole | src/tg_messenger/cli/main.py:170-206 | API id and hash stay as they were if either was set; otherwise both come from the first of the same files that has both and neither blank, or neither is set |
| DotenvLayers.TheRootIsSettledFirst | src/tg_messenger/cli/main.py:269-305 | TG_HOME is the environment's, else the current directory's file's, else that of the file of the root there is without one, else the fallback's; it is settled before any home file's values apply and never changes after |
| DotenvLayers.TheRedirectingFileOutranksTheFallback | src/tg_messenger/cli/main.py:281-305 | For a key that neither the environment, nor the current directory, nor the final root's file sets, the file that named the root wins over the fixed fallback |
| DotenvLayers.ApplyIs | src/tg_messenger/cli/main.py:170-206 | One source, key by key |
| DotenvLayers.FirstValueWins | src/tg_messenger/cli/main.py:297-305 | Several sources, for a key outside the pair: its first value |
| DotenvLayers.ThePairIsWhole | src/tg_messenger/cli/main.py:297-305 | Several sources, for the pair: both halves from one of them or as they were |
| DotenvLayers.Environment.ApplyDotenvSource | src/tg_messenger/cli/main.py:170-206 | The loop over one file |
| DotenvLayers.Environment.SettleRoot | src/tg_messenger/cli/main.py:281-292 | The scan for a home file that names the root |
| DotenvLayers.Environment.LoadDotenv | src/tg_messenger/cli/main.py:269-305 | The two passes, each file once |
| EventFanOut.SubscribersMissOnlyWhatOverflowed | src/tg_messenger/core/events.py:33-65 | For any mix of publishing and receiving: a queue is the newest part of what was published since its registration, events are received in order and once, and one is missed only after `maxsize` later ones; without a bound none is |
| EventFanOut.RunKeeps | src/tg_messenger/core/events.py:33-65 | The invariant behind it |
| EventFanOut.PublishKeeps | src/tg_messenger/core/events.py:38-51 | Publishing to one queue |
| EventFanOut.TakeKeeps | src/tg_messenger/core/events.py:53-63 | Receiving from one queue |
| EventFanOut.LogIsWhatWasPublished | src/tg_messenger/core/events.py:38-51 | The log is what was published |
| EventFanOut.EventBus.OfferToAll | src/tg_messenger/core/events.py:38-51 | The loop over subscribers reaches every queue once |
| EventFanOut.EventBus.PublishEvent | src/tg_messenger/core/events.py:38-51 | Every subscription advances by this event and no other |
| EventFanOut.EventBus.Receive | src/tg_messenger/core/events.py:53-63 | The oldest queued event, or waiting |
| EventFanOut.EventBus.Register | src/tg_messenger/core/events.py:38-41 | A new subscription starts empty; nobody else is touched |
| EventFanOut.EventBus.Unregister | src/tg_messenger/core/events.py:43-44 | One subscription ends; nobody else is touched |

## Left out

- MessageStore: messages are their ids. Bodies, edits, the translation columns and the author columns of a row are not in this model (the translation columns are modelled in `TranslatePasses.dfy`); several peers are independent.
- MessageStore.MessageStore.History: its exactness is stated for a remote that only grows and no narrower call in the gap, because the code does not give it otherwise; `limit >= 1` and a positive offset are required, as every caller passes them. One call at a time is followed through its unlocked reads; the reads of the others change nothing.
- MessageStore: the TTL cache inside the client's own `history` is not part of this model; that read is a snapshot of the remote. The outcome of the cooldown test is a parameter.
- MessageStore.MessageStore.Interfere: the peer lock's mutual exclusion is taken for granted here. `PeerLocking.dfy` says exactly when the bounded table lets it fail.
- HistoryPane: live messages mounted into the open pane, other dialogs, scrolling and widgets are not in this model; opening another dialog appears as a fresh `Open`.
- TtlCache: cancellation inside a fetch is the step in which the fetch fails. The claim that generations stay bounded by stored and locked keys is not made: the code leaves entries behind.
- OutboundTokens: drafting variants, `send_original` and recording the source text are not in this model.
- Worker: two processes sharing one queue file are not modelled; a corrupt file is set aside with what it held, as in the code.
- WrapText: lengths are code units, as in JavaScript; how wide a character is drawn is not modelled.
- MessageLines: ids above 2^53 lose precision in JavaScript's `Number`, which is not modelled; texts are sequences of characters, so surrogate pairs are not either. `format_author` and media beyond the placeholder are left out.
- SlidingWindows: rule matching and the actions of the moderator are left out; they are single expressions.
- Ghostwriter: the journal, the suggester and the rate limit inside `process_incoming` appear only as "goes on" or "gives up"; cancelling the engine is not modelled.
- Heartbeat: choosing the text, sending and the journal are left out: the bounds are on recorded pings, and a send happens only after its record. Editing a plan through the command line resets its history and is not modelled. Conversion to the local hour is an arbitrary function.
- PeerLocking: a released lock may go to any of its waiters, where asyncio wakes them in order; nothing is said about how long one waits.
- TranslatePasses: a storage failure for a single message is not modelled, nor are settings that change between passes (they clear the cache).
- DotenvLayers: parsing a `.env` file is not part of this model; a file is its parsed keys.
- EventFanOut: the race of a queue drained between its check and its removal is not modelled; both happen without an await.
- The client library, SQL text, encryption, session files, web routes, widgets, prompts and language detection are outside this project. `shlexFirstToken` and Python's `shlex` differ inside double quotes, so no parity is claimed.
