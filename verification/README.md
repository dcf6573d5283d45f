# Verified model of the chat history service

This project models the parts of the service whose correctness does not show in any single function, and
proves what they promise together. `dafny verify dfyconfig.toml` checks everything.

| part | files | what is modelled |
|---|---|---|
| incremental sync | `index`, `live_pool`, `sync_engine`, `sync_table`, `sync_round`, `sync_runs`, `sync_liveness`, `sync_delivery` | the full build and the polling pass over watermarks, paged reads, a page cap and change baselines; agreement with a rebuild over every run |
| events and accounts | `history`, `lifecycle`, `lifecycle_runs`, `lifecycle_fates`, `app_state` | replay buffer and bus; registration, build, poll and deregistration as one protocol, one lock section or one atomic write per step |
| event stream | `sse_text`, `sse_client`, `sse_session`, `sse_delivery`, `sse_jumps`, `sse_window`, `push_events` | frames as text, the client's line parser, reconnecting sessions end to end |
| paging | `decimal`, `time_bound`, `sorting`, `pull`, `pull_drain`, `messages`, `mcp` | the pull cursors, the client's drain, the paging offered to agents |
| export | `texts`, `path_safe`, `export_names`, `export_writer`, `export_run`, `export_safety`, `export_resume`, `export_fresh`, `export_again` | file names, writing to a part file and renaming, ownership of artifacts, resuming |
| codecs | `bytes`, `wcdb`, `media` | database pages, write-ahead logs and image files around an abstract block cipher |

Code that changes things step by step is modelled by classes and loops, each proved against a
specification function; the properties are lemmas about those functions and about runs of them.

## What is taken from outside

- A round of the sync engine carries every answer the outside gives in one pass: stamps, keys, versions,
  what opening a file says, what each page read sees or that it fails. Rows are tracked by table.
- Message tables have a `sort_seq` column and only ever gain rows whose key is above all earlier keys of
  the table and above zero. What a table without the column does instead is said under "Where the code
  falls short".
- A file lists each of its tables once, and a pass lists each file once.
- The version counter of a file rises with every commit to it. `SyncLiveness` takes a pass as atomic
  towards commits, because the baseline is read afresh at the end of the pass (`src/sync/mod.rs:688-701`);
  the prefix safety of `SyncRuns` does not. It watches files opened by a full build; what happens to a
  file first opened by a pass is `SyncLiveness.FirstOpenInPollSwallowsIff`.
- The broadcast channel is a position in all that was ever sent; a receiver more than 1024 behind is moved
  forward and told so. Clock readings never run backwards. Ids stay below 2^64.
- Characters stand for bytes in the stream text; event payloads have no line break, as JSON text has none.
- A conversation is paged while it only gains rows; the final `nextSince` of a drain is a clock reading, so
  exactly-once is per drain.
- A directory maps a file name, with ASCII case folded, to what the file holds, kept as lines or documents
  rather than bytes. What fetching, creating, flushing and renaming do is given per target.
- A block cipher is a pair of functions on sixteen bytes of which one undoes the other; an authentication
  code is any function of salt, text and page number.

## Where the code falls short of its own words

- Eight-digit cursors. The pull face takes `since` as unix seconds, but eight digits are read as a date
  (`src/server/mod.rs:533-548`), also when the client echoes a `nextSince` it was given (such seconds lie
  between April 1970 and March 1973). `TimeBounds.EchoIff` says exactly which cursors survive,
  `PullDrains.CursorContinuesIff` when a page's cursors continue it, `PullDrains.DrainExactIff` which
  conversations are drained exactly; `PullDrains.TwoRowsNeverDrained` is a drain that never ends. An agent's
  cursors are read twice, by the tool and by the server: `Mcp.GetMessagesContinuesIff`,
  `Mcp.NextCallIsRefused`.
- The first second. `nextOffset` is meant for the case where time cannot advance; echoed together with
  `nextSince` it skips rows twice: `Pulls.OffsetCursorIff` says exactly when it is given,
  `PullDrains.FirstSecondLosesARow` shows the row that is lost.
- Searching. The answer of `search_messages` turns its page round before cutting it, so its offset points
  past rows never given: `Mcp.SearchContinuesIff`, `Mcp.CutSearchNeverReachesTheNewest`.
- Tables without `sort_seq`. The watermark keeps 0 where the query compares `local_id`, so the last second is
  read again on every pass, and a second of a whole page stops the table: `Index.RereadsLastSecond`,
  `Index.ReadsOnIff`, `Index.FullSecondStops`.
- Refused targets. The manifest line carried over for a refused file is replaced when the round writes its
  owner under another name: `ExportFresh.RefusedFileStaysRecordedIff` says exactly when, from what the round
  finds, and `ExportFresh.RefusedFileIsForgotten` shows a file that is forgotten.
- System rows. A poll does not store them and a build does, so the two agree on ordinary rows only:
  `SyncRuns.PollEqualsRebuildIffNoSystemRow`, `SyncRuns.SystemRowParts`.

## Model

| member | source | states |
|---|---|---|
| Index.MarkSplits | src/store/index.rs:814-841 | a watermark left by reading the first n rows cuts a table in key order exactly there: at or below it are those n rows, above it the rest |
| Index.ReadNewIsNextSlice | src/store/index.rs:814-862 | from such a watermark one incremental read returns the next rows, in order, none skipped, at most one page of them |
| Index.MaxKeyOfAscending | src/store/index.rs:509-567 | the running maximum a full load keeps ends as the key of the last row read |
| Index.PackedType | src/sync/mod.rs:480-489 | the base type of a packed local_type comes out whatever sub-type it is packed with |
| Index.LoadMessageTable | src/store/index.rs:421-567 | a full load keeps every row in order, marks as sent exactly those whose sender is the account and not empty, and its watermark is a key of the table (or zero) that no row exceeds in time, then sequence number, then local id |
| Index.RereadIffNoSeqColumn | src/store/index.rs:358-365 | a row just read compares above its own watermark exactly when the table has no sort_seq column and its local_id is positive (recorded as 0 but compared as local_id) |
| Index.RereadsLastSecond | src/store/index.rs:814-862 | without the column an incremental read starts over at the first row of the last second read: every row of that second comes again, on each pass |
| Index.ReadsOnIff | src/store/index.rs:814-862 | without the column a read gets past what was read before exactly when rows are left and less than a page of the last second was read; otherwise it gives the same rows for ever |
| Index.FullSecondStops | src/store/index.rs:814-862 | the input: a second of one row more than a page; its first page comes again and again, the last row never |
| LivePools.AcquireFrame | src/db/live.rs:188-216 | acquiring one database disturbs no other, succeeds exactly when the file ends up open, and never moves the baseline of one already open |
| LivePools.WrongKeyBacksOffUntilRekeyed | src/db/live.rs:176-216 | a file refused for a wrong key stays refused without being touched until its registered key changes, and is tried again then |
| LivePools.DeferredIsTriedAgain | src/db/live.rs:188-216 | a file that could not be opened for any other reason is not held back: it is tried whenever it is asked for and connects as soon as it opens |
| LivePools.LivePool.Acquire | src/db/live.rs:188-216 | the pool object reaches exactly the state and the answer of the specification |
| LivePools.LivePool.AdvanceDataVersion | src/db/live.rs:244-251 | only an open connection whose version could be read has its baseline moved, to that version |
| SyncEngine.AccountSync.ClassifyChanged | src/sync/mod.rs:364-404 | a file is on the work list exactly if it is open and its version could not be read or is not the baseline, or it is not open and its stamp is missing or another; in order |
| SyncEngine.AccountSync.Drain | src/sync/mod.rs:455-502 | the page loop of one table reads on until a short page, a failure or the page cap, and says whether the table is exhausted |
| SyncEngine.AccountSync.ReadPhase | src/sync/mod.rs:418-509 | phase 1: the first failed read aborts the whole phase, a file without key or connection is passed over, and only exhausted files are marked done |
| SyncEngine.OnlyWrongKeysBackOff | src/sync/mod.rs:430-452 | a pass goes on without a file it cannot open, and only a refused key keeps that file away from later passes |
| SyncEngine.AccountSync.PollOnce | src/sync/mod.rs:409-708 | the whole pass, with its stop checks, leaves the engine where the specification of a pass says; it fails exactly by a failed read, and the two numbers it returns are how many new messages and how many revocations its log has gained |
| SyncEngine.AccountSync.FullBuild | src/sync/mod.rs:315-351 | the full build installs the index and the stamps of opened files, or nothing at all once retired |
| SyncTables.DrainReadsSlice | src/sync/mod.rs:460-500 | while commits land between its pages, one table drain returns a contiguous stretch after the watermark: at least what was there before (up to the cap), at most what is there after |
| SyncTables.WhatIsAnnounced | src/sync/mod.rs:480-627 | of a stretch of rows are announced as new exactly those of a base type other than 10000 and 10002 that revoke nothing and were not sent by the account, and as revocations exactly those that revoke and carry a time, each as often as it is there |
| SyncTables.AnnouncedInOrder | src/sync/mod.rs:526-627 | both in the order of the table |
| SyncTables.ApplyOnTable | src/sync/mod.rs:512-627 | applying a batch moves each table by its own rows only: ordinary rows appended once in order, the watermark to the last key, one event per incoming ordinary row and one per revocation with a time, in order |
| SyncRounds.DrainedTable | src/sync/mod.rs:451-505 | draining all tables of a file gives each table its own next stretch, unmixed |
| SyncRounds.DrainedAllIffSmall | src/sync/mod.rs:495-504 | a file counts as drained exactly when every one of its tables had a backlog below pages times page size |
| SyncRounds.PollMovesEveryTable | src/sync/mod.rs:409-632 | one pass, whatever it does and whatever is committed meanwhile, moves every table from one position of its rows to a later one and stores exactly the ordinary rows between |
| SyncRounds.AbortedPollChangesNothing | src/sync/mod.rs:409-520 | a pass aborted by a read error or by retirement changes neither rows nor watermarks nor stamps, announces nothing, and leaves every open file its baseline |
| SyncRuns.BuildStartsConsistent | src/sync/mod.rs:315-351 | a full build establishes consistency for every table, even under commits during the build |
| SyncRuns.EveryRunIsConsistent | src/sync/mod.rs:315-708 | in every run of commits, capped or failing passes, builds, retirements and wipes, each table's stored ordinary rows are, once each and in order, exactly those with key at most its watermark |
| SyncRuns.EveryRowIsAnnouncedOnce | src/sync/mod.rs:526-627 | in every run of commits and passes, the rows announced of a table are exactly the incoming ordinary rows between its first and its last watermark, and its revocations announced exactly the revoking rows with a time between them, once each and in order |
| SyncRuns.CompleteBuildHoldsEverything | src/store/index.rs:743-769 | a build that can read every table holds every row of it, and its watermark is the last key |
| SyncRuns.CaughtUpEqualsRebuild | src/sync/mod.rs:409-632 | once a table is caught up, after any history, its ordinary rows and its watermark are those a fresh full build reads from the same source |
| SyncRuns.PollEqualsRebuildIffNoSystemRow | src/sync/mod.rs:480-489 | a pass keeps a table identical to a rebuild, system rows included, exactly when it read no system row of that table |
| SyncRuns.SystemRowParts | src/sync/mod.rs:480-489 | the input: one system row and nothing else; a pass reads past it and holds nothing, a build holds it |
| SyncLiveness.NothingIsSwallowed | src/sync/mod.rs:682-701 | with passes atomic towards commits, an unread row of a watched file always leaves its baseline behind the present version, in every run with missing keys, failed opens, errors, capped passes and retirement |
| SyncLiveness.BaselineAfterPoll | src/sync/mod.rs:688-701 | the baseline of an open file moves in a pass exactly when the file was read to its end and the pass reached its accounts |
| SyncLiveness.StampAfterPoll | src/sync/mod.rs:688-701 | a file has the stamp taken after the pass exactly when it was read to its end and the pass reached its accounts, else the stamp it had |
| SyncLiveness.SeedStampsOfOpen | src/sync/mod.rs:315-351 | after a full build exactly the open files have a stamp, the one taken of them |
| SyncLiveness.SuccessfulRound | src/sync/mod.rs:451-504 | a successful pass takes min(backlog, cap) off every table of a watched file and settles it exactly when all were below the cap |
| SyncLiveness.DrainedWithinRounds | src/sync/mod.rs:451-504 | once commits stop, k successful passes settle a watched file exactly when its largest table backlog is below k caps, so floor(backlog / cap) + 1 passes always do and fewer never do |
| SyncLiveness.DrainedDespiteFailures | src/sync/mod.rs:409-708 | the same with any failing, keyless or aborted passes standing between the successful ones: once floor(backlog / cap) + 1 have succeeded, nothing is unread |
| SyncLiveness.BuildStartsTheWatch | src/sync/mod.rs:315-351 | a full build puts every file it opened and read whole under watch, even if commits land meanwhile |
| SyncLiveness.FirstOpenInPollSwallowsIff | src/db/live.rs:132-137 | a file first opened by a pass escapes the watch exactly when rows were waiting and the pass did not consume it, or some backlog exceeded the cap |
| SyncDelivery.FromBuildToTheLastRow | src/sync/mod.rs:315-708 | end to end: from a full build that read a file whole, through any commits and atomic passes, failing or not, once commits stop and enough passes succeed the file reads as unchanged, its watermarks are the last keys, its ordinary rows are all stored once in order, and the incoming ones and the revocations after the build are all announced once in order |
| History.AppendKeepsOk | src/sync/history.rs:33-48 | ids stay contiguous and end at the last id, at most 1000 are kept, and times never decrease |
| History.AppendKeepsTheLatest | src/sync/history.rs:37-48 | an append drops nothing while fewer than 1000 are kept and then the oldest alone; the others stay as they are and the new event comes last under the next id |
| History.ReplayIsSuffix | src/sync/history.rs:62-69 | a replay is a suffix of the buffer |
| History.HistoryBuf.AppendEvent | src/sync/history.rs:37-48 | the object keeps the latest 999 events as they are, adds the new one behind them, and returns its id |
| History.HistoryBuf.ClearItems | src/sync/history.rs:55-57 | clearing keeps the id counter |
| History.HistoryBuf.Replay | src/sync/history.rs:62-69 | exactly the events above the cursor and younger than the time limit, in order |
| History.EventBus.Publish | src/sync/history.rs:101-111 | one step keeps the latest 999 events as they are, adds the new one and sends it under the same id; the buffer stays the end of what was sent |
| History.EventBus.SubscribeWithReplay | src/sync/history.rs:125-130 | the replay is the end of what was sent and the receiver starts right behind it |
| Lifecycle.DoKeepsInv | src/server/mod.rs:780-1068 | every step of a registration, build, poll or deregistration keeps the protocol invariant |
| Lifecycle.EveryStateIsSound | src/server/mod.rs:780-1068 | the invariant holds in every state of every interleaving |
| LifecycleRuns.OwnEventsPrecedeTheReset | src/server/mod.rs:988-1068 | in every interleaving, every event a handle's own build or poll task ever publishes has an id below its deregistration's reset baseline, and none is in the replay buffer then or later |
| LifecycleRuns.ClearedHistoryStaysClear | src/server/mod.rs:1011-1022 | from the clearing of the history on, the replay buffer never again holds an event of the deregistered handle |
| LifecycleRuns.AtMostOneLiveBinding | src/server/mod.rs:818-839 | the registry holds at most one handle, under its own account, never a stopped one |
| LifecycleRuns.ConflictsTouchNothing | src/server/mod.rs:970-985 | a registration or deregistration that does not take effect changes nothing at all, and each takes effect exactly when the binding allows it |
| LifecycleRuns.RetiredStaysSilent | src/sync/mod.rs:512-520 | a handle retired outside its publishing section never publishes again |
| LifecycleFates.StatusTellsTheBuild | src/server/mod.rs:690-756 | in every run the status of a handle is indexing until its build sets it, then an error exactly if the build failed, else ready |
| LifecycleFates.LogTellsTheRun | src/server/mod.rs:988-1068 | in every run the bus carries exactly the baselines of the builds, what the polls published and the resets of the deregistrations, in the order of the run, and the generation counts the deregistrations that moved it on |
| LifecycleFates.UnboundIsRetired | src/server/mod.rs:818-1010 | in every run each handle is bound, retired, or in the hands of the registration or deregistration about to retire it |
| LifecycleFates.StoreTellsWhoTouchedIt | src/server/mod.rs:690-1010 | in every run a store holds something exactly if the last to touch it was the build that installed or the poll that applied or reloaded, and not a deregistration that cleared it |
| LifecycleFates.BuildAndPollExclude | src/sync/mod.rs:315-420 | in every interleaving no poll of a handle is under way while its build reads or installs |
| AppStates.AppState.RegisterAccount | src/server/mod.rs:780-840 | one uninterrupted pass through the protocol; a healthy incumbent of the same account is returned itself, another account keeps the binding and is named with its status, else a fresh indexing handle is bound and only the one it replaces is stopped |
| AppStates.AppState.DeregisterAccount | src/server/mod.rs:961-1033 | claim, flag, store, history, generation, reset baseline, in this order, as a pass through the protocol; answers with the status and the filled index of the handle it unbound; a mismatch, answered with the account bound and its status, or an empty registry changes nothing |
| AppStates.AppState.TearDown | src/server/mod.rs:988-1022 | after it the replay buffer holds the reset baseline alone, under the next id |
| Decimals.ParseOfPrint | clients/rust/src/client.rs:976-982 | an id printed in a frame or header parses back to itself, up to 64 bits |
| SseText.ScanConcat | clients/rust/src/client.rs:929-938 | chunk boundaries do not matter: only the concatenation of what arrived does |
| SseText.ScanCut | clients/rust/src/client.rs:929-938 | cut after any character, the reader has seen exactly the complete lines |
| SseText.CutKeepsWholeFrames | clients/rust/src/client.rs:955-1003 | cut anywhere, mid-line or between an id and its data, what the client keeps (items and cursor) is what a whole number of frames gave it |
| SseText.FrameText | src/server/handlers/push_events.rs:81-142 | the text of a frame: its id if it has one, its name and its data, a line each, and an empty line |
| SseClient.SseFrameState.FeedOne | clients/rust/src/client.rs:976-1002 | the parser object follows the line specification: an id waits, its data line commits it and hands the payload out |
| SseClient.EventStream.NextLine | clients/rust/src/client.rs:931-938 | taking one line out of the buffer leaves what reading the whole buffer would give unchanged |
| SseClient.EventStream.Absorb | clients/rust/src/client.rs:926-945 | the buffering line loop ends where reading character by character would end, and hands out the same payloads |
| SseSessions.ReplayCoversIff | src/sync/history.rs:125-130 | a replay starts exactly at the cursor if and only if the first missed event is still buffered and young enough (or none is missed) |
| SseSessions.NothingTwiceNorOutOfOrder | clients/rust/src/client.rs:893-1003 | over any disconnects, lag, expiry and clearing, the client is handed only events that were sent, under their own ids, ids strictly rising |
| SseDelivery.StaysInStepIff | src/server/handlers/push_events.rs:79-138 | a client that has missed nothing since some moment, wherever it joined, goes on missing nothing exactly when the step loses nothing: a reconnect with a cursor covered by the window, a receiver within the channel capacity; a first connection misses nothing |
| SseDelivery.ExactlyOnceOverStretch | clients/rust/src/client.rs:893-1003 | end to end over any stretch of any run without a losing step, after earlier losses too: the events handed out are one stretch of the bus, each once, in order, right behind the last one before; when a caught-up connection was read to its end they reach the end of the bus |
| SseDelivery.ExactlyOnceInOrder | clients/rust/src/client.rs:893-1003 | the same over a whole run, first connection included wherever it joins: all that was ever handed out is one stretch of the bus, up to the cursor |
| SseDelivery.JoinsAtTheWindow | src/sync/history.rs:125-130 | a connection without a cursor begins with exactly the buffered events that are young enough |
| SseDelivery.ExactlyOnceFromTheFirst | clients/rust/src/client.rs:893-1003 | if the first connection finds the first event, the events handed out are the first ones of the bus, and all of them when caught up |
| SseJumps.JumpsAreAnnounced | src/server/handlers/push_events.rs:81-138 | on any connection of any run, a jump between successive ids has an id-less baseline frame between them |
| SseWindow.BufferHoldsTheLatest | src/sync/history.rs:37-57 | in every run the buffer holds exactly the last min(1000, published since the last clearing) events published, each with the time it was published at |
| SseWindow.CoveredIff | src/sync/history.rs:37-69 | exactly the clients that missed at most 1000 events, none of them before the last clearing and the first of them within the time limit, miss nothing by reconnecting |
| SseWindow.FramesSayWhatWasSent | src/server/handlers/push_events.rs:79-142 | in every run a connection writes the greeting first, and then only baselines, keep-alives and events with the name and data they were sent with, under their own numbers |
| PushEvents.PushStream.constructor | src/server/handlers/push_events.rs:74-104 | greeting, replay loop and baseline leave exactly the connection the session model opens, the receiver right behind the replay |
| PushEvents.PushStream.Next | src/server/handlers/push_events.rs:105-138 | one turn of the live loop is one step of the session model: the next event, or a baseline for a receiver that fell behind |
| PushEvents.PushStream.CatchUp | src/server/handlers/push_events.rs:105-138 | the live loop ends where the session model ends when it serves until nothing is left in the channel |
| PushEvents.CatchingUpWritesTheRest | src/server/handlers/push_events.rs:105-138 | what it writes on the way: every event still in the channel, in order, after one baseline if some were lost |
| TimeBounds.EchoIff | src/server/mod.rs:533-548 | a time cursor printed by the client and parsed by the server is itself exactly when it does not have eight digits (those are read as a date) |
| TimeBounds.EachDayFollows | src/server/mod.rs:533-548 | the calendar: the epoch is the first of January 1970 and each day of the Gregorian calendar begins where the day before it ends |
| TimeBounds.KnownDates | src/server/mod.rs:533-548 | the lengths of the months, four leap-year cases and one known day in seconds |
| TimeBounds.DateIsRead | src/server/mod.rs:511-548 | eight digits are the first second of the day they name, as an upper bound its last one, or nothing if there is no such day |
| Pulls.CutPage | src/server/handlers/chatlab_pull.rs:65-77 | the page loop computes the page end of the specification |
| Pulls.OldestFirstSorts | src/server/handlers/chatlab_pull.rs:57-63 | the rows paged through are a sorted rearrangement of those selected |
| Pulls.OldestFirstMeans | src/server/handlers/chatlab_pull.rs:57-63 | each row after the lower bound and up to the upper one, as often as the conversation holds it, by time, then sequence number, then local id, rows equal in all three in the order they came |
| Sorting.StableSortIsStable | src/server/handlers/chatlab_pull.rs:61-63 | rows with equal keys keep their order |
| Pulls.PageIsWholeSeconds | src/server/handlers/chatlab_pull.rs:65-159 | at any offset a page is a stretch that never ends inside a second, holds at least min(limit, remaining) rows, exceeds the limit only by the rest of its last second, says whether anything is left, and gives the time of its last row or, at the end, the upper bound or the clock as the next lower bound |
| Pulls.OffsetCursorIff | src/server/handlers/chatlab_pull.rs:154-158 | the page answers with an offset exactly in the degenerate case: no lower bound, more rows left, and a page that ends at the first representable second |
| Pulls.PullAfter | src/server/handlers/chatlab_pull.rs:57-63 | where the rows of a pull cross a time, the pull after that time is exactly the rest of them |
| PullDrains.CursorContinuesIff | src/server/handlers/chatlab_pull.rs:145-159 | at any offset, echoing a page's cursors selects exactly the rows after it if and only if the echoed time separates the page's last row from all later ones and the page does not end at the first representable second of an unbounded pull |
| PullDrains.DateCursorRestarts | src/server/mod.rs:533-548 | a page that ends at a second such as 20 000 000 sends its reader back to the same page for ever |
| PullDrains.TwoRowsNeverDrained | src/server/mod.rs:533-548 | the input: rows at 20 000 000 and 20 000 001, pages of one; the first row is served for ever |
| PullDrains.FirstSecondLosesARow | src/server/handlers/chatlab_pull.rs:145-159 | the input: rows at the first representable second and at 0, pages of one; the echoed time and offset both skip, and the drain ends without the second row |
| PullDrains.PageIsExactlyItsSpan | src/server/handlers/chatlab_pull.rs:57-84 | a page asked for at offset 0 is exactly the rows in (since, last timestamp of the page], or all after since when it says there is no more |
| PullDrains.DrainSession | clients/rust/src/client.rs:632-654 | over a fixed conversation whose pages end where their cursors carry on, the drain ends, and what it hands over is the sorted list of every row after the cursor as the server reads it |
| PullDrains.DrainExactIff | clients/rust/src/client.rs:632-654 | that condition on page ends is exact: every request of the drain selects just the rows not yet delivered if and only if it holds |
| PullDrains.OrdinaryTimesAreOk | src/server/handlers/chatlab_pull.rs:23-28 | times that do not have eight digits meet the condition wherever pages end |
| PullDrains.DrainDeliversEveryRowOnce | clients/rust/src/client.rs:632-654 | over a conversation that grows between pages, followed where cursors carry on: after any page, what was delivered is in order of time, holds every row of the start as far as the page reaches (all of them once it says it is the last), and no row more often than the conversation by then |
| PullDrains.OrdinaryDrainsCarryOn | src/server/handlers/chatlab_pull.rs:23-28 | any drain of a growing conversation without eight-digit times that goes on while there is more carries on in this sense |
| Messages.NewestFirstSorts | src/server/handlers/messages.rs:97-113 | the rows a query pages through are each matching row as often as the conversation holds it and no other, newest first |
| Messages.NewestFirstMeans | src/server/handlers/messages.rs:97-113 | each row with the keyword between the two bounds, both included, as often as the conversation holds it, by time, sequence number and local id downwards |
| Messages.SliceMeans | src/server/handlers/messages.rs:113-124 | a slice is the rows from the offset on, at most as many as asked for and fewer only at the end, and says exactly whether more follow |
| Messages.FollowGivesAll | src/server/handlers/messages.rs:113-124 | following nextOffset gives the whole list once |
| Mcp.ProjectMessages | src/mcp.rs:201-214 | keeps the longest prefix within the item limit and the character budget, the first item whatever its size, and reports a cut exactly when something is left out |
| Mcp.GetMessagesWalks | src/mcp.rs:280-342 | every call that is not refused hands over the next rows its cursors select, at least one while any are left, and says exactly whether more are left |
| Mcp.PrintedSince | src/mcp.rs:216-238 | a bound given back as text is read as a time bound again, never as a relative span, whatever the time is by then |
| Mcp.RelativeSince | src/mcp.rs:218-227 | a number of days or hours reaches so many times 86 400 or 3 600 seconds back from now |
| Mcp.ClampLimit | src/mcp.rs:173-175 | without a limit 50 items, else the limit brought into 1 to 200 |
| Mcp.GetMessagesContinuesIff | src/mcp.rs:300-342 | the cursors of an answer are accepted and select exactly the rows after it if and only if, after a cut page, the bound handed out selects what the call's did, and after a whole page the next bound separates the page from the rows that follow |
| Mcp.NextCallIsRefused | src/mcp.rs:216-238 | the input: rows at 20 000 000 and the second after, one a call; the call with the cursor handed out is refused |
| Mcp.WalkVisitsEveryRowOnce | src/mcp.rs:280-342 | following cursors that lead on, with any limits, clocks and item sizes, visits a fixed conversation once each in order, progressing with every call |
| Mcp.OrdinaryWalksLeadOn | src/mcp.rs:300-342 | with a first bound and row times that do not have eight digits, the cursors of every walk lead on |
| Mcp.GetMessagesRawWalks | src/mcp.rs:363-373 | the same for one call of the native face; it says it was cut exactly if it gave fewer than there are and were asked for |
| Mcp.RawWalkVisitsEveryRowOnce | src/mcp.rs:346-373 | the same for the whole walk of the native face, newest first |
| Mcp.SearchContinuesIff | src/mcp.rs:394-409 | a search page and what its cursor leads on to are what there was to visit exactly when the page was not cut; a cut and rows left over are reported exactly when there are any |
| Mcp.CutSearchNeverReachesTheNewest | src/mcp.rs:391-409 | the input: two matching rows too large for one answer; both calls give the older, the newer is never reached |
| PathSafe.SlugIsDeviceOnlyIf | src/pathsafe.rs:47-53 | a folded name can be a device name only at three or four characters, without underscore in front and without hyphen |
| PathSafe.SlugIsSafe | src/pathsafe.rs:90-111 | folding any string gives a short name of letters, digits, hyphens and underscores that is no device name |
| PathSafe.DeviceNamesAreMarked | src/pathsafe.rs:47-111 | a device name in any case is given an underscore in front |
| PathSafe.PortNamesAreMarked | src/pathsafe.rs:47-111 | so are the nine serial and nine parallel ports |
| ExportNames.FileNameFor | src/export.rs:109-135 | the search for a free name ends and returns the specified name, which is then taken |
| ExportNames.NameIsFree | src/export.rs:109-135 | a name is free whatever the case, never that of the manifest, and the first free candidate |
| ExportNames.PlainNameIsKept | src/export.rs:109-135 | a plain display name of at most 56 characters that is free is the file name as it stands |
| ExportNames.UnreadableNameFallsBack | src/export.rs:109-135 | a display name without an ASCII letter or digit makes way for the session id |
| Texts.FoldIff | src/export.rs:109-135 | two names are the same file exactly if they differ in the case of ASCII letters alone |
| ExportNames.NameIsSafeSegment | src/export.rs:109-135 | with its extension every name is a safe path component |
| ExportWriter.SortPageSorts | src/export.rs:363-367 | a page is written as a sorted rearrangement of the rows fetched |
| ExportWriter.MembersAreFirst | src/export.rs:367-376 | the members of a document are one row for each sender, the first one met, in the order they are met |
| ExportWriter.DeliveredHolds | src/export.rs:363-456 | a delivered file holds, as lines, the header and then the message of every row, or, as a document, its members and every row: page after page, each page by time and id, equal ones in the order they came, none lost or repeated |
| ExportWriter.SessionWriter.Page | src/export.rs:363-376 | after each page the part file holds the header line and a line for every row so far, page after page in order (or the buffer the rows and members), and the count is right |
| ExportWriter.SessionWriter.Finish | src/export.rs:393-456 | finishing gives the final name to a file that holds the header and every row of the pages in order, or removes the part file |
| ExportWriter.ExportSession | src/export.rs:700-768 | one session from begin to finish leaves the directory of the specification; if it is written, its file holds the header and every row fetched, page after page in order |
| ExportWriter.SessionTouchesItsOwnFiles | src/export.rs:393-416 | a failed session leaves the final name as it was and no part file of its own; a successful one puts a file under it that holds the header and every row of the pages in order; nothing else changes |
| ExportWriter.PagesKeepTheirRows | src/export.rs:363-376 | the rows of a delivered session are, page by page in page order, a sorted rearrangement of what was fetched |
| ExportRuns.ExportRound.One | src/export.rs:601-797 | one target: name, refusal, reuse or writing, with all accumulators, follows the specification |
| ExportRuns.Run | src/export.rs:565-811 | the whole round leaves the directory of the specification and reports its verdicts |
| ExportSafety.StepTouchesItsPath | src/export.rs:601-797 | a step changes no file but its own final name, and that only by delivering |
| ExportSafety.FreshRoundRespectsOwners | src/export.rs:622-698 | a round that is no resume removes no artifact, changes one that was there only by delivering to it, and every delivery to it is of the session the manifest found records it for |
| ExportResumes.ManifestNamesStayApart | src/export.rs:592-620 | every round leaves a manifest in which no two sessions share a name, whatever case or extension |
| ExportResumes.ResumeAvoidsOthers | src/export.rs:592-620 | no step of a resume delivers to a file the manifest records for another session |
| ExportResumes.ResumeRespectsOwners | src/export.rs:592-698 | a resume changes a recorded file only by delivering the session it is recorded for |
| ExportResumes.RefusedOrReusedMeans | src/export.rs:622-728 | a target is refused only outside a resume, over a file that is there and belongs to another session or to none; it is reused only in a resume, over a file with the right last byte recorded for it under this very name, no part file left, with media if wanted; neither touches the directory |
| ExportResumes.RefusedForOwnerStaysListed | src/export.rs:660-684 | a target is refused only outside a resume and for the session the manifest records the file for, which keeps a line in the manifest the round leaves |
| ExportFresh.FreshVerdicts | src/export.rs:592-797 | what becomes of each target of a fresh round, said before it from the directory, the targets and what can be fetched: refused if a file of its name is there that the manifest does not record for it first, else written if it can be, else failed |
| ExportFresh.RefusedFileStaysRecordedIff | src/export.rs:660-684 | the file a target is refused for stays recorded for its owner if and only if no target of the owner can be fetched, written and renamed to a path that is free or its own |
| ExportFresh.RefusedFileIsForgotten | src/export.rs:660-684 | the input: session a recorded with b.jsonl, exported as a in front of a session shown as b; b is refused for the sake of a, and b.jsonl is no longer recorded for a |
| ExportAgain.OneOutcomeEach | src/export.rs:801-811 | with distinct talkers every target lands in exactly one of written, reused and skipped, and the message count is the sum over the written |
| ExportAgain.WrittenFilesHoldTheirPages | src/export.rs:751-797 | at the end of a round every written session's file holds its header and every row of its pages in order, the reported count is theirs, and the manifest says of the session that name, that count, its display name and whether media were kept |
| ExportAgain.ResumeAfterRoundChangesNothing | src/export.rs:677-728 | after a round without skips over distinct talkers, a resume over any arrangement of them reuses every one, fetches nothing, changes no artifact and keeps every file name |
| Wcdb.CbcRoundTrip | src/db/wcdb.rs:63-79 | block chaining undoes itself for any invertible block cipher |
| Wcdb.CbcBlock | src/db/wcdb.rs:63-79 | each block of the plain text is that block decrypted and combined with the block before it, the first with the initialisation vector |
| Wcdb.PageRoundTrip | src/db/wcdb.rs:95-169 | decrypting an encrypted page gives it back with an empty reserve, page 1 with the standard header and an authenticating code |
| Wcdb.OtherCodeRefused | src/db/wcdb.rs:82-93 | page 1 authenticates under its own code and no other |
| Wcdb.FillPage | src/db/wcdb.rs:204-212 | the reused page buffer holds exactly the page, zeros behind a file that ends inside it |
| Wcdb.DecryptDb | src/db/wcdb.rs:193-217 | decryption fails exactly on a file shorter than a page or with a wrong code on page 1; otherwise every page is decrypted in order |
| Wcdb.DbRoundTrip | src/db/wcdb.rs:193-217 | decrypting a page-wise encrypted file gives back its pages |
| Wcdb.DecryptWalFrames | src/db/wcdb.rs:226-248 | the frames the slots of the log hold, as the specification reads them |
| Wcdb.LogRoundTrip | src/db/wcdb.rs:226-248 | a log written as a header of 32 bytes with the cycle's salts at 16 to 24 and frames of a big-endian page number, salts at 8 to 16 and an encrypted page from 24 on is read as exactly the frames with these salts and a page number from 1 to 1 000 000, in order, each with its page |
| Wcdb.Snapshot.Apply | src/db/wcdb.rs:255-263 | patching the snapshot in place follows the specification |
| Wcdb.EveryByteFromTheLastFrame | src/db/wcdb.rs:255-263 | every byte comes from the last frame for its page, else from the old snapshot, else is zero; the snapshot grows exactly to the furthest page |
| Wcdb.WalOverSnapshot | src/db/wcdb.rs:226-263 | decoding a log and applying it: each page is that of the last current slot for it, else the old one |
| Bytes.XorTwice | src/db/wcdb.rs:71-79 | exclusive or with the same bytes twice is the identity |
| Bytes.XorIsBitwise | src/db/wcdb.rs:71-79 | a bit of the result is set exactly if it is set in one of the two |
| Bytes.BERoundTrip | src/db/wcdb.rs:231-238 | a word written most significant byte first is read back, a small number in the last byte |
| Bytes.LERoundTrip | src/media/mod.rs:105-110 | a word written least significant byte first is read back, a small number in the first byte |
| Media.EcbRoundTrip | src/media/mod.rs:64-76 | block-wise decryption undoes encryption and leaves a partial block alone |
| Media.EcbBlock | src/media/mod.rs:64-76 | each whole block of the result is that block decrypted |
| Media.DecryptDatLegacy | src/media/mod.rs:131-135 | every byte is combined with the one key byte |
| Media.DecryptInPlace | src/media/mod.rs:64-76 | the in-place block loop computes it |
| Media.DecryptDatPayload | src/media/mod.rs:105-128 | the method computes the three-segment decoding of the specification |
| Media.DatRoundTrip | src/media/mod.rs:99-128 | decoding header, encrypted padded head, middle and exclusive-or tail gives back head, middle and tail |
| Media.DecodeFailsIff | src/media/mod.rs:105-115 | decoding fails exactly on fewer than 15 bytes or a padded head and tail longer than the payload; otherwise only the padding is dropped |

## Left out

- Sessions, contacts, group cards and moments: each reload replaces a whole section.
- Grouping rows into conversations, sender names and the text of revocations: rows are tracked by table.
- Timers, debounce and the file watcher: any sequence of passes covers them.
- A second attempt to open a file while the build reloads sections from the same pool.
- AppStates.AppState.DeregisterAccount: purging exported media, aborting the file watcher and waiting for the
  tasks to end are not modelled, nor the watermarks a reset baseline carries (`current_watermarks`).
- The emptiness of a retired handle's store, which a build that passed its stop check may still fill.
- Server restarts: ids begin again there, and a client's cursor then belongs to another bus.
- Failed serialization of an event, which would write a fallback frame without an id.
- HTTP routing, authentication, JSON shapes, retries and backoff of the client.
- The last page's `watermark` beyond being the clock reading or the upper bound given.
- SQLite, SQLCipher, the message authentication code, key derivation, AES, decompression and transcoding.
- Locating media, symbolic links and canonical paths; scanning export output for secrets; the media byte
  download, of which only the flag and the manifest's record of it are modelled.
- Unicode case folding of hand-edited manifest names: names the export gives out are ASCII.
- A removal of a part file that itself fails; creating directories; a manifest that cannot be written.
- ExportNames.FileNameFor: counts without bound, where the program's suffix has 32 bits; it would take more
  than four thousand million taken names to tell.
- SyncEngine.AccountSync.PollOnce: the section reloads of phase 3 replace session, contact, group and moment
  sections, which are not modelled; only their stop checks are.
- Overflow checks of a debug build: a relative `since` of an agent wraps around, as in a release build.
