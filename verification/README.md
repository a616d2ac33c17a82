# The conversation pipeline, modelled and proved

agentd watches coding agents: it polls their databases, turns what it finds into
conversation events, keeps the recent ones in a ring buffer, persists all of them,
and serves them page by page.  agentgw relays calls and status lines to the apps.
This project models that pipeline and the kernels around it in Dafny and proves what
they are for.  `dafny verify dfyconfig.toml` checks everything.

The code works in place, so the model does: the ring buffer, the store, the event
manager, the watchers, the proxy, the tmux pane and the fingerprint cache are
classes.  Each method is proved equal to a step of a specification, and the theorems
are about runs of those steps.

| module | what it models | main results |
|---|---|---|
| EventLog, EventBuf | the capped event buffer | the ring is a window of an unbounded log after any run |
| CreatedAt | the text a row is dated with, and how it sorts | exactly when text order is time order |
| ConversationLog, HistoryPaging | store, event manager, history pages | buffer and table agree over every run, restarts included; paging is lossless while events arrive; exactly when it is with nothing live |
| RowHistory | which rows there are and what the pages show | over every run a row is what was last written under its number; exactly which rows a restart leaves |
| OpenCode, OpenCodeWatching, OpenCodeRuns, OpenCodeReports | the OpenCode watcher | after every poll, whatever was last sent for a message is its current text; the cursor skips nothing |
| OpenCodeReading, OpenCodeEvents | what a message says, part by part, and what the events say of it | over every run each completed message was told in full, its question and status included |
| OpenCodeStreaming | the newest message while it streams | exactly when a question in it is sent; the count of quiet polls, and that settling never lasts |
| OpenCodeParts | what becomes of reasoning and tool parts over whole runs | each goes out once, as it is at the first poll that sees it; exactly when it is current; exactly when every part is sent |
| OpenCodeLive | the watcher's runs composed with the callback, clears and switches | after every poll the live log says the current text of every message not by a user, and under each of its parts what was first seen |
| SessionSwitch, SessionCores, SwitchConvergence | callback, replay, session switch | exactly when reset, replay and re-emission converge to the database's content |
| HermesWatching | the Hermes watcher, its lock released inside a poll | no message goes out twice, whatever interleaves; exactly when, if the database cannot be read; exactly when a session is announced |
| RpcProxy | JSON-RPC calls, responses, timeouts, disconnects | each channel is used once, no send blocks, no wake-up is lost; every call ends with what did happen to it |
| Utf8Sanitizer | the status-line sanitizer and UTF-8 (RFC 3629, sections 3 and 4) | output is well-formed, sanitizing is idempotent, the fast path agrees |
| LineReader | the NDJSON line readers | how the stream is cut into reads does not matter, and closed lines arrive as they were sent |
| TmuxInput | typing into a tmux pane | replay gives the text back; exactly when the loop sticks |
| FuzzyScore, SessionMatch, Fingerprints | matching a pane to a session | the greedy scorer is optimal; the staged selection is order-independent and its stops are sound; the cache is sound, and exactly when a miss returns more than a hit |
| AgentForest | filtering child agents | the walk is exact on every table; exactly when nobody stands for a process |

Assumptions, as the code makes them: rows parse and writes succeed; OpenCode message
times increase, ids are distinct and not empty; only the newest message of an OpenCode
session still changes (in any way: nothing requires its text to grow, except that in
the session-switch theorem text does not shrink to nothing, and parts do not vanish and
in a user message stay in front of new ones); times within a Hermes session increase;
buffer capacity is positive.  Theorems about message texts also assume ids free of ':',
as the program's own are; those of OpenCodeParts do not unless they say so.  A file version (path, time of
change, size) determines what the file holds.

## What the proofs found

Where the code falls short of its purpose, the failing case is given beside the exact
condition for success.

- History pages read from the store when nothing is live are ordered by the created_at
  text, which an update renews and which drops the trailing zeros of the fraction.
  Paging on from such a page can skip a row, after an update
  (`UpdatedRowHidesNewerRow`) and after appends alone (`AppendedRowHidesNewerRow`: a
  tenth of a second sorts after fifteen hundredths).  It never does exactly when the
  text of each of the last rows, as many as the limit, sorts after that of every row
  numbered below it (`LatestPageIsLosslessExactlyWhen`).  Of two times in one second
  the earlier one's text sorts first exactly when it has a fraction whose digits,
  trailing zeros apart, do not begin those of the later one; in different seconds it
  always does (`TextOrderIsTimeOrderExactlyWhen`).
- A question the agent asks can wait: when it follows activity already seen and brings no
  text and no other part, the poll takes the message for unchanged (`QuestionWaits`).  A
  poll sends a question of the newest message exactly when the stream counts as settled
  or the text, the activity or an unsent part is new (`QuestionIsSentExactlyWhen`).  Once
  sent it is stored without an id, so each time it is sent again it is logged again
  (`QuestionIsLoggedAgain`).
- A message that counts as settled after ten quiet polls is set working again by the very
  next poll (`SettlesAndStartsOver`).  The ten are fewer when quiet polls of the user's
  message before it were counted, down to one (`SilenceBeforeCounts`).
- A reasoning part is sent once, as first seen; what it grows to is never sent
  (`GrownReasoningStaysAsFirstSeen`).  It is current exactly as long as the database
  says what it said at the first poll that saw it (`PartIsCurrentExactlyWhen`).
- Should ids contain ':', two parts can share a key and one is lost
  (`CollidingKeysLoseAPart`).  Every part seen is sent, as first seen, exactly when
  parts that share a key were the same when first seen (`EachPartGoesOutExactlyWhen`;
  for one poll, `PollSendsEachPartExactlyWhen`).
- After a session switch, a change to a user message can be taken for an echo of the
  newest entry and be dropped (`EchoHidesAGrownUserPart`; it takes a user message with
  reasoning parts, an unusual shape).  When nothing is evicted, the live log converges
  exactly when no changed part reads like the last event replayed and a changed text
  does not read like a last part that is new (`SessionSwitchConvergesExactlyWhen`).
- When `SetSessionID` cannot read the database (`UnreadableDatabaseResends`), the next
  poll sends the whole session again; that repeats something exactly when something of
  it was sent before (`UnreadableResendsExactlyWhen`).  Over any run, messages go out in
  order and none twice exactly when no poll begins to send although something later
  than the time it read from was sent already (`SentInOrderExactlyWhen`).
- `sendTmuxInput` never ends on a control byte that no branch consumes, and ends on
  every other text (`TmuxInput.RoundTrip`).  Such bytes are what the app's own keys
  Ctrl-A, Ctrl-C, Ctrl-D, Ctrl-E and Ctrl-Z send (`CtrlKeysGetStuck`).
- A needle that stands in the pane in one piece, letter case apart, need not score 1,
  although the comment in content_match.go promises it (`FoldedOccurrenceCanScoreLess`,
  `PerfectExactlyWhen`).
- Agents that are their own ancestors hide each other and everything below
  (`MutualParentsAreBothDropped`, `RepresentedExactlyWhen`).
- The comment on `sanitizeStatusLine` says that no font has the box-drawing block and that
  arrows are left alone.  Of the block 16 characters pass through, four double tees and
  the half lines (`BoxDrawingLeftExactly`), and four arrows are replaced
  (`ArrowsBecome`); nothing else outside the block is but four signs (`OthersPassExactly`).
- A cache miss may return up to four more fingerprints than the hit after it
  (`MissMayReturnMore`, `OvershootIsAtMostFour`), exactly when some line of text begins
  below the limit and ends above it (`MissEqualsHitExactlyWhen`).

## Model

| member | source | states |
|---|---|---|
| EventBuf.EventBuffer.Append | agentd/internal/eventbuf/eventbuf.go:28-43 | the next number is taken and the new entry becomes the newest; when full the oldest one goes |
| EventBuf.EventBuffer.Since | agentd/internal/eventbuf/eventbuf.go:46-57 | exactly the live entries numbered above the argument, oldest first |
| EventBuf.EventBuffer.LastEvent | agentd/internal/eventbuf/eventbuf.go:67-75 | the newest live entry, or the empty event |
| EventBuf.EventBuffer.InitSeq | agentd/internal/eventbuf/eventbuf.go:79-83 | only the counter changes |
| EventBuf.EventBuffer.Reset | agentd/internal/eventbuf/eventbuf.go:86-92 | counter 0 and nothing live |
| EventBuf.EventBuffer.UpdateOrAppend | agentd/internal/eventbuf/eventbuf.go:97-125 | rewrites the newest live entry with the id, keeping its number, or appends; an empty id always appends |
| EventLog.BufferIsWindowOfLog | agentd/internal/eventbuf/eventbuf.go:28-125 | after any run of operations the buffer holds the last min(cap, n) entries of the log that never evicts, and slot i holds number counter - count + 1 + i |
| EventLog.PutTouchesOnlyNewest | agentd/internal/eventbuf/eventbuf.go:97-125 | an update changes one entry, the newest with the id, and keeps its number; all others and the counter stay |
| EventLog.AfterMembers | agentd/internal/eventbuf/eventbuf.go:46-57 | a forward read returns every live entry above the cursor and no other |
| EventLog.AfterOfDense | agentd/internal/eventbuf/eventbuf.go:46-57 | on consecutive numbers a forward read is one tail of the log, in order |
| EventLog.SinceIsCompleteExactlyWhen | agentd/internal/eventbuf/eventbuf.go:46-57 | a forward read misses nothing ever logged exactly when the cursor is not older than the oldest live entry or nothing was evicted |
| EventLog.InitSeqKeepsNumbering | agentd/internal/eventbuf/eventbuf.go:77-83 | setting the counter keeps the numbering exactly when nothing is live or it does not move |
| ConversationLog.Store.Save | agentd/internal/store/store.go:242-264 | one row per number, replaced when it exists, dated anew |
| ConversationLog.Store.Clear | agentd/internal/store/store.go:169-177 | no row is left |
| ConversationLog.Store.ClearBefore | agentd/internal/store/store.go:186-201 | exactly the rows of the session stay, each as it is; an unknown session removes nothing |
| ConversationLog.Store.LastSeq | agentd/internal/store/store.go:410-419 | the largest number, 0 for an empty table |
| ConversationLog.Store.ListSince | agentd/internal/store/store.go:281-317 | the first rows above a number in order, with the default limit of 5000 |
| ConversationLog.Store.ListBefore | agentd/internal/store/store.go:319-363 | the last rows below a number, oldest first, with the default limit of 200 |
| ConversationLog.Store.ListLatest | agentd/internal/store/store.go:365-408 | the rows whose created_at texts sort last, in the order of these texts, which is not the order of numbers |
| ConversationLog.TurnedAround | agentd/internal/store/store.go:338-362 | a limited newest-first query turned around is the end of the listing in order |
| CreatedAt.RankIsTextOrder | agentd/internal/store/store.go:249-258 | the number a row is ranked by sorts as its created_at text does |
| CreatedAt.TextOrderIsTimeOrderExactlyWhen | agentd/internal/store/store.go:249-258 | the text of the earlier of two times sorts first exactly when they are in different seconds, or the earlier one has a fraction whose digits without trailing zeros do not begin those of the later one |
| CreatedAt.TenthSortsAfterFifteenHundredths | agentd/internal/store/store.go:249-258 | two times in one second whose texts sort the other way round |
| CreatedAt.DigitsSayTheNumber | agentd/internal/store/store.go:257 | the nine digits of the fraction say its nanoseconds |
| ConversationLog.EventManager.AppendAndPersistEvent | agentd/internal/agent/event_manager.go:22-32 | the same data enters buffer and table under the same new number |
| ConversationLog.EventManager.UpdateOrAppendEvent | agentd/internal/agent/event_manager.go:37-52 | buffer and table are updated, or extended, under one number |
| ConversationLog.EventManager.ResetAndClear | agentd/internal/ws/handler.go:1193-1211 | buffer and table are emptied together |
| ConversationLog.EventManager.LoadFromStore | agentd/internal/agent/manager.go:276-293 | a restart prunes by session, starts with nothing live and counts on from the largest persisted number |
| ConversationLog.EventManager.SelectPage | agentd/internal/ws/handler.go:1029-1055 | which of the five page sources a request gets |
| ConversationLog.EventManager.ConversationHistory | agentd/internal/ws/handler.go:1006-1117 | the page for the clamped limit, its first number, and the larger of the live and persisted last numbers |
| HistoryPaging.CoherentAlways | agentd/internal/agent/event_manager.go:22-52 | over every run of appends, updates, clears and restarts every live entry equals the row at its number and no row is numbered past the counter |
| HistoryPaging.StepKeepsCoherence | agentd/internal/agent/event_manager.go:22-52 | each single step keeps that agreement |
| HistoryPaging.WritesNeverOverwriteAnotherEvent | agentd/internal/store/store.go:242-264 | at any point of any run an append writes a fresh row, an update a fresh row or the row of the very entry it rewrote; no other row changes |
| HistoryPaging.PageSplitsRows | agentd/internal/store/store.go:319-363 | a page is the end of the listing below its cursor and leaves exactly the listing below its own first number |
| HistoryPaging.FetchCollectsAllBelow | agentd/internal/ws/handler.go:1031-1034 | asking backwards until a page is empty collects every row below the start, in order |
| HistoryPaging.RunKeepsOlderRows | agentd/internal/agent/event_manager.go:22-52 | over every run of appends, and of updates to numbers from a bound on, the rows below the bound stay as they are and buffer and table agree |
| HistoryPaging.PagingIsLossless | agentd/internal/ws/handler.go:1029-1055 | the newest live page and the pages before it make up the whole persisted log in order, whatever is appended, or updated on the first page, between the requests |
| HistoryPaging.PagingListsEveryNumber | agentd/internal/ws/handler.go:1029-1055 | whatever is appended or updated between the requests, every number of the log is listed in order and once |
| HistoryPaging.RowsListEveryRowOnce | agentd/internal/store/store.go:319-363 | the listing has every persisted row exactly once, in order of number |
| HistoryPaging.LatestPageIsLosslessExactlyWhen | agentd/internal/store/store.go:365-408 | with nothing live, paging on is lossless from every page the store may return, and whatever is written between the requests, exactly when the created_at text of each of the last rows sorts after that of every row numbered below it |
| HistoryPaging.UpdatedRowHidesNewerRow | agentd/internal/store/store.go:365-408 | a run after which paging by one never shows row 2 |
| HistoryPaging.SecondAppendIsHiddenExactlyWhen | agentd/internal/store/store.go:249-408 | after two appends and a restart, paging by one never shows row 2 exactly when its text does not sort after that of row 1 |
| HistoryPaging.AppendedRowHidesNewerRow | agentd/internal/store/store.go:249-408 | two appends within a second after which paging by one never shows row 2 |
| RowHistory.RowsAreLastWrites | agentd/internal/store/store.go:169-264 | over every run a row is there exactly when some action wrote it and no later clear, restart or write took it, and then it has that action's data and session |
| RowHistory.RestartKeepsExactly | agentd/internal/agent/manager.go:276-293 | over every run, a row is listed after a restart exactly when it was last written under the session of the restart, or that is not known; and it reads back as written |
| RowHistory.RestartListsNothingElse | agentd/internal/agent/manager.go:276-293 | every event listed after a restart was last written by some action under that session |
| RowHistory.RestartCountsOn | agentd/internal/agent/manager.go:286-293 | after a restart nothing is live and numbers go on after the largest row left |
| RowHistory.BackwardPageShows | agentd/internal/store/store.go:319-363 | a page backwards shows the highest rows below the cursor, as many as the limit, as they were written |
| RowHistory.ForwardPageShows | agentd/internal/store/store.go:281-317 | a forward read with nothing newer live shows the lowest rows above the cursor, as many as the limit |
| RowHistory.LivePageShows | agentd/internal/ws/handler.go:1029-1055 | a live page is everything live above the cursor, or the last entries, as many as the limit |
| RowHistory.LimitIsClamped | agentd/internal/ws/handler.go:1006-1028 | what is asked is what is given from 1 to 1000, less is 200, more is 1000 |
| OpenCodeWatching.OpenCodeDBWatcher.Start | agentd/internal/watcher/opencode_db.go:100-117 | the newest message there is becomes the cursor |
| OpenCodeWatching.OpenCodeDBWatcher.ResetOffset | agentd/internal/watcher/opencode_db.go:137-154 | the cursor goes to the newest message and all streaming state is dropped |
| OpenCodeWatching.OpenCodeDBWatcher.RefreshSession | agentd/internal/watcher/opencode_db.go:740-772 | a newer session is followed from its beginning with nothing emitted, and announced before anything of it is sent |
| OpenCodeWatching.OpenCodeDBWatcher.Collect | agentd/internal/watcher/opencode_db.go:354-402 | the window: rows from the streaming or last message on, without the last one processed |
| OpenCodeWatching.OpenCodeDBWatcher.ReadParts | agentd/internal/watcher/opencode_db.go:431-530 | texts joined by newlines, the first interactive tool, a sub-event per reasoning or other tool part |
| OpenCodeWatching.OpenCodeDBWatcher.EmitSubEvents | agentd/internal/watcher/opencode_db.go:544-572 | the parts whose keys were not sent yet go out in order, and their keys are remembered |
| OpenCodeWatching.OpenCodeDBWatcher.CompleteMessage | agentd/internal/watcher/opencode_db.go:576-610 | a message that is not the newest is sent in full and becomes the cursor |
| OpenCodeWatching.OpenCodeDBWatcher.HasPendingSubs | agentd/internal/watcher/opencode_db.go:616-624 | whether some part's key was not sent yet |
| OpenCodeWatching.OpenCodeDBWatcher.StreamAgain | agentd/internal/watcher/opencode_db.go:629-708 | the streaming message is sent again when its text, tool state or parts changed; ten quiet polls settle it |
| OpenCodeWatching.OpenCodeDBWatcher.StreamNew | agentd/internal/watcher/opencode_db.go:710-737 | a new newest message is sent and remembered as streaming |
| OpenCodeWatching.OpenCodeDBWatcher.Poll | agentd/internal/watcher/opencode_db.go:346-738 | one poll: session check, window, complete messages, newest message, with state, events and switch calls as specified |
| OpenCodeRuns.WindowIsEverythingAfterCursor | agentd/internal/watcher/opencode_db.go:354-402 | the window is exactly the messages after the cursor: none skipped, none behind it read again |
| OpenCodeRuns.SubsCarryPartsAsTheyAre | agentd/internal/watcher/opencode_db.go:544-572 | every part has its key remembered, and each sub-event sent carries a part of the message under its own fresh key |
| OpenCodeRuns.EmitSubsOnce | agentd/internal/watcher/opencode_db.go:544-572 | sending keeps one event per remembered key and none under any other |
| OpenCodeRuns.CompleteStep | agentd/internal/watcher/opencode_db.go:576-610 | completing the message after the cursor reports it and moves the cursor onto it |
| OpenCodeRuns.NewestStep | agentd/internal/watcher/opencode_db.go:629-737 | after the newest message is handled, new or streaming, it is reported as it is now and stays the cursor's successor |
| OpenCodeRuns.PollReportsEverything | agentd/internal/watcher/opencode_db.go:346-738 | one poll from any tracked state reports every message after the seed and moves the cursor to the one before the newest |
| OpenCodeReports.EveryPollReportsEverything | agentd/internal/watcher/opencode_db.go:346-738 | over every run, after each poll the event last sent under the id of each message newer than the seed carries its current non-empty text, each part went out exactly once, and no key went out twice |
| OpenCodeReports.CursorNeverSkips | agentd/internal/watcher/opencode_db.go:354-402 | over every run a streaming message is the cursor's immediate successor or the first message, the window is what lies after the cursor, and within a session polls only move it forward |
| OpenCodeReports.KeysAreInjective | agentd/internal/watcher/opencode_db.go:544-572 | part keys of ids without ':' collide only for the same message and part |
| OpenCodeReports.CollidingKeysLoseAPart | agentd/internal/watcher/opencode_db.go:544-572 | with ':' in an id a second part with the same key is never sent |
| OpenCodeReports.RewriteBehindCursorIsReportedExactlyWhen | agentd/internal/watcher/opencode_db.go:354-402 | a message rewritten behind the cursor is reported correctly exactly when its text stayed the same |
| OpenCodeReading.NoPartsSayNothing | agentd/internal/watcher/opencode_db.go:431-530 | a message without parts has no text, question, part or activity |
| OpenCodeReading.OneMorePartIsRead | agentd/internal/watcher/opencode_db.go:431-530 | what each kind of part adds to what a message says, the rest unchanged: a line of text, a sub-event, the first question, activity |
| OpenCodeReading.SubsAreTheParts | agentd/internal/watcher/opencode_db.go:465-511 | the sub-events are exactly the thoughts that are not empty and the calls of named other tools, one each with its fields, in order |
| OpenCodeReading.FirstQuestionIsAsked | agentd/internal/watcher/opencode_db.go:480-494 | a message asks what its first question asks, with its call and input, and nothing without one |
| OpenCodeEvents.PartsGoOutAsTheyAre | agentd/internal/watcher/opencode_db.go:544-572 | of the parts said apart exactly those with new keys go out, in order, each as it is and with the status of the message |
| OpenCodeEvents.CompletedMessagesAreToldInFull | agentd/internal/watcher/opencode_db.go:576-610 | over every run, after each poll, the last event under the id of every message but the newest tells its text, its question with call and input, and Working or Standby |
| OpenCodeStreaming.QuestionIsSentExactlyWhen | agentd/internal/watcher/opencode_db.go:629-737 | after any run that ends with a poll, the next poll sends the question of the rewritten newest message exactly when it has one and the stream has settled or text, activity or an unsent part is new |
| OpenCodeStreaming.QuestionWaits | agentd/internal/watcher/opencode_db.go:639-663 | a run in which a question arrives between two polls and the second sends nothing |
| OpenCodeStreaming.SettlesAndStartsOver | agentd/internal/watcher/opencode_db.go:639-737 | quiet polls send nothing until the tenth sends Standby, and the next one tells the message again with Working, back where it was |
| OpenCodeStreaming.ChangeRestartsTheCount | agentd/internal/watcher/opencode_db.go:639-666 | anything new starts the count of quiet polls anew; a quiet poll takes one off |
| OpenCodeStreaming.SilenceBeforeCounts | agentd/internal/watcher/opencode_db.go:576-737 | quiet polls of a user's message leave so many fewer for the assistant's message after it |
| OpenCodeStreaming.FirstSightSaysWorking | agentd/internal/watcher/opencode_db.go:710-737 | the first poll that sees an assistant's newest message tells it in full, with Working |
| OpenCodeStreaming.ActivityIsAnnounced | agentd/internal/watcher/opencode_db.go:668-685 | activity that begins in the streaming message is told even without text |
| OpenCodeStreaming.PollFollowsLatest | agentd/internal/watcher/opencode_db.go:740-772 | a poll that may check follows the session updated last |
| OpenCodeParts.PollFollows | agentd/internal/watcher/opencode_db.go:346-738 | one poll keeps the cursor where the window needs it, has sent every part after the seed, and sends under each key not used before what the window says under it |
| OpenCodeParts.PartsAreSentOnceAsFirstSeen | agentd/internal/watcher/opencode_db.go:544-572 | over every run, after each poll, what was sent under a key is what the database said under it at the first poll that could see it, once; every part to be reported has been seen |
| OpenCodeParts.PartIsCurrentExactlyWhen | agentd/internal/watcher/opencode_db.go:544-572 | what was sent of a part is current exactly when the database still says what it said at the first poll that saw it |
| OpenCodeParts.GrownReasoningStaysAsFirstSeen | agentd/internal/watcher/opencode_db.go:616-666 | a run in which a reasoning part grows between two polls and only its first text is ever sent |
| OpenCodeParts.AgreedPartIsNamed | agentd/internal/watcher/opencode_db.go:544-572 | when parts with one key agree, what the messages say under a key is what each of these parts says |
| OpenCodeParts.PollSendsEachPartExactlyWhen | agentd/internal/watcher/opencode_db.go:544-572 | a poll of a window with unused keys sends every part with its own content exactly when parts that share a key say the same |
| OpenCodeParts.EachPartGoesOutExactlyWhen | agentd/internal/watcher/opencode_db.go:544-572 | over every run, after each poll, every part seen, and every part to be reported is one, was sent with the content it had when first seen, exactly when parts that share a key were the same when first seen |
| OpenCodeParts.EachPartGoesOut | agentd/internal/watcher/opencode_db.go:544-572 | so with ids free of ':' every part was sent, as first seen |
| OpenCodeLive.LiveIsBaseAndTrace | agentd/internal/agent/manager.go:2574-2584 | over every run the live log is what the callback makes of everything sent since the last start, clear or replay |
| OpenCodeLive.LogSaysWhatWasLastSent | agentd/internal/agent/manager.go:2574-2584 | the newest entry under an id not used by a user, if there is one, says what was last sent under it; with nothing evicted there is one, however much was sent |
| OpenCodeLive.EveryPollIsLive | agentd/internal/agent/manager.go:2519-2607 | over every run with clears and switches, after each poll, the newest live entry under the id of every message not by a user and newer than the seed, if there is one, says its current text; with nothing evicted since the last start, clear or replay there is one |
| OpenCodeLive.EveryPartIsLive | agentd/internal/agent/manager.go:2519-2607 | the same for the parts of these messages: the entry under a part's key says what the part said at the first poll that could see it |
| SessionSwitch.OpenCodeDBHistory | agentd/internal/watcher/opencode_db.go:775-909 | the history of a session: per message its parts in order, then its text or interactive tool |
| SessionSwitch.AgentSession.WatcherCallback | agentd/internal/agent/manager.go:2519-2607 | status-only events, echoes and empty events leave the log alone, others update or append under their id, and whether one updated is returned; coherence is kept |
| SessionSwitch.AgentSession.OnSessionSwitch | agentd/internal/agent/manager.go:2723-2749 | afterwards the log is the replayed history from nothing, and buffer and table agree |
| SessionSwitch.CallbackLogs | agentd/internal/agent/event_normalizer.go:11-64 | which events are not logged, and where and with which fields any other is: a question by call and input and always anew, others under their id |
| SessionSwitch.CallbackWrites | agentd/internal/agent/manager.go:2519-2607 | the callback writes at most one row, with what is stored of the event, under the agent's session |
| SessionSwitch.UpdatesAreTold | agentd/internal/agent/manager.go:2571-2607 | an event counts as an update exactly when it is logged under an id that is live |
| SessionSwitch.QuestionIsLoggedAgain | agentd/internal/agent/event_normalizer.go:13-33 | a question delivered twice is two entries |
| SessionSwitch.HistoryShowsAll | agentd/internal/watcher/opencode_db.go:775-909 | the history of a message shows its parts said apart in order and then the message in full, without a status |
| SessionSwitch.ReplayIsOfOneSession | agentd/internal/agent/manager.go:2736-2749 | every row of a replay is of the session replayed |
| SessionCores.SwitchConverges | agentd/internal/agent/manager.go:2574-2584 | delivering a session again over its replayed past, whose last message is not by a user, leaves every id once, saying what is wanted now, and shows everything wanted |
| SessionCores.UserSwitchConvergesExactlyWhen | agentd/internal/agent/manager.go:2546-2584 | the same when that message is by a user, exactly when no change of it is taken for an echo |
| SwitchConvergence.CallbackByShape | agentd/internal/agent/manager.go:2519-2607 | what the callback does to ids, roles and texts is one delivery, unless the buffer is full and the event is new |
| SwitchConvergence.HistorySends | agentd/internal/watcher/opencode_db.go:775-909 | the history says of every message its parts and its text, in order |
| SwitchConvergence.SwitchPollSends | agentd/internal/watcher/opencode_db.go:576-737 | the first poll of a followed session says the same of every message as it is by then, and the opening status of an empty newest one |
| SwitchConvergence.OneSessionFits | agentd/internal/watcher/opencode_db.go:764-771 | nothing is evicted by a switch when what the poll sends fits the buffer once, though the session arrives twice |
| SwitchConvergence.SessionSwitchConvergesExactlyWhen | agentd/internal/watcher/opencode_db.go:764-771 | when nothing is evicted, after reset, replay of the old history and re-emission of the session as it is now: no id is live twice, every live entry says what the database says under its id, every text is shown and every part of a message not by a user is live, exactly when no change of a user message is taken for an echo |
| SwitchConvergence.EchoHidesAGrownUserPart | agentd/internal/agent/manager.go:2546-2556 | a user message with two reasoning parts, the first of which grows to the text of the second: the log keeps it as it was |
| HermesWatching.HermesDBWatcher.SetSessionID | agentd/internal/watcher/hermes_db.go:284-290 | the session is tracked from its newest message, or from nothing when the database cannot be read |
| HermesWatching.HermesDBWatcher.Snapshot | agentd/internal/watcher/hermes_db.go:357-438 | the locked decision by what it is given: adopt without a session, announce another one unless sending, seed at the first poll, load after the time noted if there is something newer, else nothing |
| HermesWatching.HermesDBWatcher.ReadRows | agentd/internal/watcher/hermes_db.go:440-464 | the rows of the session after the snapshot's time, and the last one's time |
| HermesWatching.HermesDBWatcher.EmitAll | agentd/internal/watcher/hermes_db.go:466-470 | every row read goes to the callback, in order |
| HermesWatching.HermesDBWatcher.Commit | agentd/internal/watcher/hermes_db.go:472-478 | the time moves forward, and only if the session is still the one tracked |
| HermesWatching.RowsReachNewest | agentd/internal/watcher/hermes_db.go:440-464 | a query after an older time returns something, ending with the session's newest message |
| HermesWatching.RunKeeps | agentd/internal/watcher/hermes_db.go:357-479 | the invariant behind the next two holds in every state of every run of interleaved steps |
| HermesWatching.NothingIsSentTwice | agentd/internal/watcher/hermes_db.go:357-479 | wherever SetSessionID interleaves, readable or with nothing of the session sent yet, messages of a session go out in order of time and never twice, and what a poll sends is in order and of the session at its snapshot |
| HermesWatching.SentInOrderExactlyWhen | agentd/internal/watcher/hermes_db.go:284-479 | over any run, whichever SetSessionID cannot read and wherever it runs: messages of a session go out in order and never twice exactly when no poll begins to send although something later than the time it read from was sent already |
| HermesWatching.PollCatchesUp | agentd/internal/watcher/hermes_db.go:357-479 | when a poll ends and its latest session is the tracked one, every message after the seed that the poll saw has been sent |
| HermesWatching.PollAnnouncesExactlyWhen | agentd/internal/watcher/hermes_db.go:357-413 | in any run a poll announces the session it found latest exactly when one is tracked, it is another one and no request is in flight |
| HermesWatching.OnlyPollsAnnounce | agentd/internal/watcher/hermes_db.go:357-479 | no other step announces a session |
| HermesWatching.UnreadableResendsExactlyWhen | agentd/internal/watcher/hermes_db.go:484-501 | after a SetSessionID that could not read, the next poll sends the whole session, which repeats or breaks the order exactly when something of it was sent before |
| HermesWatching.UnreadableDatabaseResends | agentd/internal/watcher/hermes_db.go:484-501 | one message, one unreadable SetSessionID: it goes out twice |
| RpcProxy.Proxy.Register | agentgw/internal/proxy/proxy.go:184-190 | a fresh id and a fresh channel enter the table |
| RpcProxy.Proxy.Forget | agentgw/internal/proxy/proxy.go:195-216 | a failed write or a timeout removes the call's entry and nothing else |
| RpcProxy.Proxy.HandleResponse | agentgw/internal/proxy/proxy.go:139-150 | the reply itself goes to the one waiting for its id, whose entry is removed; an unknown id changes nothing; the send needs an open empty channel and finds one |
| RpcProxy.Proxy.HandleDisconnect | agentgw/internal/proxy/proxy.go:111-118 | every waiting channel is closed, once, and the table is empty |
| RpcProxy.ChannelsAreUsedOnce | agentgw/internal/proxy/proxy.go:109-217 | over every interleaving: channels in the table are open and empty, each channel sees at most one send or one close, and a caller only gets the reply with its own id |
| RpcProxy.WaitersAreWoken | agentgw/internal/proxy/proxy.go:202-216 | a waiting caller is still in the table or has something to take |
| RpcProxy.DisconnectReleasesEveryone | agentgw/internal/proxy/proxy.go:112-118 | after a disconnect every waiting caller can go on |
| RpcProxy.OutcomesTellWhatHappened | agentgw/internal/proxy/proxy.go:184-217 | over every run a finished call got a reply that did arrive for it while it waited, as it arrived, or was cut off while it waited, or failed to write, or timed out |
| RpcProxy.OneAnswerCounts | agentgw/internal/proxy/proxy.go:139-150 | of all replies with one id only the first that finds it in the table is taken |
| Utf8Sanitizer.SanitizeStatusLine | agentgw/internal/ws/sanitize.go:27-60 | the encoding of the rune-wise replacement of the decoded input, on the ASCII fast path too |
| Utf8Sanitizer.ReplaceRunes | agentgw/internal/ws/sanitize.go:47-59 | the loop over runes computes the same |
| Utf8Sanitizer.GrammarMatchesBits | agentgw/internal/ws/sanitize.go:50-58 | the grammar of section 4 of RFC 3629 accepts exactly the sequences the bit rules of section 3 decode |
| Utf8Sanitizer.RoundTrip | agentgw/internal/ws/sanitize.go:135-163 | encoding scalar values is well-formed and decodes to them |
| Utf8Sanitizer.DecodeThenEncode | agentgw/internal/ws/sanitize.go:135-163 | decoding well-formed bytes and encoding again gives the bytes back |
| Utf8Sanitizer.SubstitutesAreRenderable | agentgw/internal/ws/sanitize.go:65-131 | no replacement needs replacing |
| Utf8Sanitizer.AsciiIsKept | agentgw/internal/ws/sanitize.go:31-45 | the slow path would leave ASCII as it is |
| Utf8Sanitizer.OutputIsWellFormed | agentgw/internal/ws/sanitize.go:27-60 | the result is well-formed UTF-8 for every byte string |
| Utf8Sanitizer.SanitizingIsIdempotent | agentgw/internal/ws/sanitize.go:27-60 | sanitizing twice is sanitizing once, for every byte string |
| Utf8Sanitizer.UnchangedExactlyWhen | agentgw/internal/ws/sanitize.go:27-60 | which byte strings come back unchanged, in both directions |
| Utf8Sanitizer.LinesBecome | agentgw/internal/ws/sanitize.go:65-97 | horizontal lines become a dash, vertical ones a bar, double ones an equals sign and a bar |
| Utf8Sanitizer.CornersBecome | agentgw/internal/ws/sanitize.go:80-103 | corners, tees and crosses become + |
| Utf8Sanitizer.SignsBecome | agentgw/internal/ws/sanitize.go:104-112 | what the single signs become |
| Utf8Sanitizer.ArrowsBecome | agentgw/internal/ws/sanitize.go:113-122 | what the arrows become |
| Utf8Sanitizer.BoxDrawingLeftExactly | agentgw/internal/ws/sanitize.go:62-103 | which 16 characters of the box-drawing block pass through |
| Utf8Sanitizer.OthersPassExactly | agentgw/internal/ws/sanitize.go:104-134 | outside that block nothing but eight signs is replaced |
| Utf8Sanitizer.NonScalarsAreReplaced | agentgw/internal/ws/sanitize.go:135-163 | a surrogate or out-of-range rune is written as the replacement rune |
| LineReader.TakeChunk | agentd/internal/agent/process_manager.go:256-275 | one read: exactly the complete lines that are not blank are handed on, trimmed and in order, and the open one is kept |
| LineReader.ReadOutput | agentd/internal/agent/manager.go:1349-1422 | lines and remainder handed on are exactly the non-blank pieces of the whole stream, trimmed and in order, whatever the reads; clean closed lines arrive as they were sent and leave no remainder |
| LineReader.SplitLosesNothing | agentd/internal/agent/manager.go:1357-1365 | the pieces joined by newlines are the stream |
| LineReader.SplitAcross | agentd/internal/agent/manager.go:1357-1365 | more bytes leave complete lines alone and extend the open one |
| LineReader.CutsDoNotMatter | agentd/internal/agent/manager.go:1349-1422 | two ways of cutting one stream hand on the same lines and leave the same remainder |
| TmuxInput.TmuxPane.SendTmuxInput | agentd/internal/agent/agent.go:356-423 | success makes all planned calls, a failure stops inside the plan, and a byte nothing consumes leaves the loop stuck |
| TmuxInput.TmuxPane.SendTmuxLiteral | agentd/internal/agent/agent.go:452-470 | the chunks of at most 1024 bytes are sent in order, up to the first failure |
| TmuxInput.RoundTrip | agentd/internal/agent/agent.go:356-423 | the loop gets stuck exactly when some byte is consumed by no branch, and replaying the calls gives back the text before it with newlines as carriage returns |
| TmuxInput.CtrlKeysGetStuck | agentd/internal/ws/handler.go:936-945 | each control key of the app leaves the loop stuck with nothing sent but the text before it |
| TmuxInput.LiteralsAreClean | agentd/internal/agent/agent.go:405-419 | every literal is free of control bytes, not empty and at most 1024 bytes |
| TmuxInput.KeyTypesItsBytes | agentd/internal/agent/agent.go:360-404 | each named key stands for exactly the bytes it was read from |
| TmuxInput.ArrowsAreNamed | agentd/internal/agent/agent.go:360-404 | each arrow key by its bytes |
| TmuxInput.ControlKeysAreNamed | agentd/internal/agent/agent.go:360-404 | Enter, Tab and BSpace by their bytes |
| TmuxInput.EscapeIsNamed | agentd/internal/agent/agent.go:360-404 | an escape that begins no arrow key is Escape |
| TmuxInput.PlainTextIsChunked | agentd/internal/agent/agent.go:405-470 | plain text goes out in pieces of 1024 bytes, the last one shorter |
| FuzzyScore.FuzzyMatchScore | agentd/internal/scanner/content_match.go:435-492 | the loop computes the score of the greedy walk, with all early exits |
| FuzzyScore.WalkRunes | agentd/internal/scanner/content_match.go:451-476 | runes matched and longest run are those of the greedy positions |
| FuzzyScore.GreedyIsOptimal | agentd/internal/scanner/content_match.go:451-476 | a needle prefix is a subsequence of the pane, letter case apart, exactly when the walk got that far |
| FuzzyScore.ScoreTellsWholeNeedles | agentd/internal/scanner/content_match.go:435-492 | the score is in [0,1], at least 0.6 exactly when the whole needle is such a subsequence, below 0.4 exactly otherwise |
| FuzzyScore.PartialCredit | agentd/internal/scanner/content_match.go:478-485 | otherwise the credit is 0.4 times the share of the longest such prefix, 0 for a pane shorter than the needle |
| FuzzyScore.OneRunExactlyWhen | agentd/internal/scanner/content_match.go:458-476 | the longest run is everything exactly when all positions are side by side |
| FuzzyScore.LongestRunIsABlock | agentd/internal/scanner/content_match.go:458-476 | the longest run is the length of some block of side-by-side positions |
| FuzzyScore.LongestRunIsLongest | agentd/internal/scanner/content_match.go:458-476 | no block of side-by-side positions is longer |
| FuzzyScore.PerfectExactlyWhen | agentd/internal/scanner/content_match.go:441-491 | the score is 1 exactly for an exact occurrence, or one up to case at the first place where the first rune shows up |
| FuzzyScore.FoldedOccurrenceCanScoreLess | agentd/internal/scanner/content_match.go:441-491 | a case-folded occurrence that scores 0.8 |
| FuzzyScore.MatchScore | agentd/internal/scanner/content_match.go:519-525 | the sum over all fingerprints |
| FuzzyScore.TotalCountsWholeFingerprints | agentd/internal/scanner/content_match.go:513-525 | a fingerprint found whole adds between 0.6 and 1, any other at most 0.4 |
| FuzzyScore.FoldEqualExactlyWhen | agentd/internal/scanner/content_match.go:494-511 | two runes match exactly when they are the same or the same ASCII letter in either case |
| FuzzyScore.WholeNeedleScores | agentd/internal/scanner/content_match.go:441-491 | a whole needle scores 1 in one exact piece, else 0.6 and 0.4 times the share of its longest block |
| FuzzyScore.OneMoreFingerprint | agentd/internal/scanner/content_match.go:519-525 | each fingerprint adds its score |
| SessionMatch.Scoreboard.ConsiderScore | agentd/internal/scanner/content_match.go:645-669 | the running best, second best, tie flag and winner after one more score |
| SessionMatch.StageCandidates | agentd/internal/scanner/content_match.go:675-701 | a stage is the unseen leading candidates followed by the unseen forced ones |
| SessionMatch.MatchSessionByPaneText | agentd/internal/scanner/content_match.go:609-741 | the stages, the early stop and the final gate give the specified verdict |
| SessionMatch.BoardIsTruthful | agentd/internal/scanner/content_match.go:640-669 | for every order of scoring the board holds the highest score, the highest of the others, whether the highest is shared, and the most recently active of the best, the first scored among equals |
| SessionMatch.OrderDoesNotMatter | agentd/internal/scanner/content_match.go:640-669 | best, second best, tie flag and the winner's activity do not depend on the order of scoring |
| SessionMatch.VerdictExactlyWhen | agentd/internal/scanner/content_match.go:714-741 | a candidate is accepted exactly when one leads by 30 percent or two share the top, strongly exactly when one leads by half; an early stop means a clear leader |
| SessionMatch.StageFillsPool | agentd/internal/scanner/content_match.go:675-701 | a stage adds exactly the leading and forced candidates not scored yet, none twice |
| SessionMatch.SearchStopsAt | agentd/internal/scanner/content_match.go:671-717 | each candidate is scored at most once, and the search stops at the first stage with a clear leader or at the last |
| SessionMatch.MatchIsRight | agentd/internal/scanner/content_match.go:609-741 | the whole selection in terms of the candidates scored; every forced candidate is among them and an early stop is always accepted |
| SessionMatch.MatchInNumbers | agentd/internal/scanner/content_match.go:609-741 | the selection in numbers: nothing for a pane shorter than 20; the first 5, 12 or 20 and those forced; accepted at 2 with the others at seven tenths or a shared top, strong with the others at half |
| Fingerprints.ExtractFingerprintsUncached | agentd/internal/scanner/content_match.go:297-408 | the nested loops from the end of the file collect what the steps yield under the limit |
| Fingerprints.AppendLines | agentd/internal/scanner/content_match.go:372-394 | the lines of one text block with up to four long words each, stopping at the limit |
| Fingerprints.AppendBlock | agentd/internal/scanner/content_match.go:361-405 | text blocks may overshoot, tool blocks are trimmed to the limit |
| Fingerprints.GatherIsABeginning | agentd/internal/scanner/content_match.go:297-408 | a limited extraction is a beginning of the unlimited one and reaches the limit if there is enough |
| Fingerprints.ExtractionIsWhatIsMentioned | agentd/internal/scanner/content_match.go:297-408 | an extraction is a beginning of what the session mentions, newest entry first, which is defined on its own |
| Fingerprints.FieldsAreTheWords | agentd/internal/scanner/content_match.go:377-378 | a line of blanks and words is cut into the words |
| Fingerprints.LimitsAgree | agentd/internal/scanner/content_match.go:240-278 | the first k fingerprints are the same under every limit of at least k |
| Fingerprints.OvershootIsAtMostFour | agentd/internal/scanner/content_match.go:297-408 | an extraction never exceeds its limit by more than four |
| Fingerprints.OvershootsExactlyWhen | agentd/internal/scanner/content_match.go:372-405 | a collection exceeds its limit exactly when some line of text begins below it and ends above it |
| Fingerprints.MissEqualsHitExactlyWhen | agentd/internal/scanner/content_match.go:240-278 | a miss returns what the hit after it returns exactly when no such line exists |
| Fingerprints.MissMayReturnMore | agentd/internal/scanner/content_match.go:240-278 | an extraction that exceeds it by four |
| Fingerprints.FingerprintCache.ExtractFingerprints | agentd/internal/scanner/content_match.go:240-278 | hit or miss, the first maxFPs fingerprints are those of a fresh extraction; what a hit and a miss leave in the cache; never more than 200 entries |
| AgentForest.HasAIAgentAncestor | agentd/internal/scanner/scanner.go:289-306 | the walk ends on every table and finds an agent exactly when one is reachable by one or more parent steps inside the table |
| AgentForest.FilterParentAgents | agentd/internal/scanner/scanner.go:273-287 | the processes without an agent above them, in order |
| AgentForest.KeptExactlyWhen | agentd/internal/scanner/scanner.go:273-287 | membership in the result, both directions |
| AgentForest.RepresentedExactlyWhen | agentd/internal/scanner/scanner.go:273-306 | a process or one of its ancestors is kept exactly when no agent among them is its own ancestor |
| AgentForest.AcyclicTablesLoseNoOne | agentd/internal/scanner/scanner.go:273-306 | without cycles every process has itself or an ancestor kept |
| AgentForest.MutualParentsAreBothDropped | agentd/internal/scanner/scanner.go:273-306 | two agents that are each other's parent are both dropped |
| AgentForest.AgentAboveExactlyWhen | agentd/internal/scanner/scanner.go:289-306 | an agent is above a process exactly when the table has its parent, and that is claude, opencode, hermes or codex or has an agent above |
| AgentForest.FilteredOneByOne | agentd/internal/scanner/scanner.go:279-286 | the filter takes processes one by one and keeps their order |
| AgentForest.TableHasTheLast | agentd/internal/scanner/scanner.go:273-277 | of several processes with one id the table has the last, and only ids that are listed |

## Left out

- SwitchConvergence.SessionSwitchConvergesExactlyWhen: covers messages with a role that is not blank and without interactive tools, whose stored form has no id, and switches that evict nothing; parts of user messages that read like what is newest may be missing.
- OpenCodeLive.EveryPollIsLive: says nothing of user messages, which may be taken for echoes, and of runs with interactive tools; a message whose entry was evicted need not be live.
- HermesWatching.NothingIsSentTwice: leaves out a SetSessionID that cannot read the database after something of the session was sent, or in the middle of a poll of it; `SentInOrderExactlyWhen` covers every run.
- CreatedAt.RankIsTextOrder: date and time of day to the second have a fixed width, up to the year 9999, so they stand as one number here.
- ConversationLog.EventManager.ConversationHistory: permission requests, and the session id added to each event shown, are not part of the page here.
- SessionSwitch.AgentSession.WatcherCallback: broadcasts to clients and the agent's own status are not part of the state.
- SessionMatch.MatchIsRight: for candidates with distinct session ids; within one stage the code scores every leading candidate of a repeated id.
- HistoryPaging.PagingIsLossless: says nothing of forward reads older than the oldest live entry, which are not free of gaps; `SinceIsCompleteExactlyWhen` says when they are.
- FuzzyScore.FuzzyMatchScore: scores are reals, not floats, and texts are sequences of runes; invalid UTF-8 and rounding are not part of the model.
- Fingerprints.ExtractFingerprintsUncached: what the lines and blocks of the last 64 KB hold after parsing and cleaning is given, and files can be read.
- The ids on the wire are floats and numbers of events are 64-bit; the model's are unbounded, so wrap-around and the loss of precision above 2^53 are not captured.
- The "seq" key that the manager writes into the shared data map after saving, and aliasing of that map between buffer and caller; event data is a value.
- Other agents' rows in the store, an empty agent id, and errors of reads and writes, where the code logs and goes on.
- SQL, JSON, files, tmux, sockets, and wall-clock time: the five-second throttle of session checks, cache expiry and call timeouts are inputs or steps that may happen at any point.
- Tool names and summaries shown to the user: a tool part carries them ready-made.
- The agent's own status, which the callback sets from the status of an event.
- A Hermes watcher without a switch callback, which announces nothing.
- Re-attaching, which appends history without a reset; the Hermes probe for dead processes; Hermes messages that arrive between reload and SetSessionID.
- Reset and clear interleaved with appends; the pair is one step here.
- The prompt detection on raw terminal chunks and the session id extraction beside the line reader.
- Replacing strings inside nested maps in place (`sanitizeEventInPlace`); only the string function is modelled.
- The cache of match results in front of the session match, which is keyed by hashes.
- Status derivation, send-path decisions, capability tables and everything outside the two daemons: each settles by reading one branch.
