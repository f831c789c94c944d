# Verified models of the network programming homeworks

This project models the parts of the repository whose correctness rests on
interleavings, on buffers that see a stream in arbitrary pieces, or on arithmetic at the
edge of a C type, and proves what those parts promise. `dafny verify dfyconfig.toml`
checks all of it.

**Producers and one consumer** (`HW6/sync_thread.c`; `SyncThread.dfy`,
`SyncThreadRuns.dfy`, `SyncThreadVisibility.dfy`). Every statement of `produce`,
`consume` and the thread handling in `main` that touches shared memory is one step of a
global state machine with two mutexes, one condition variable and spurious wakeups.
Proved for every schedule, item count and thread count: mutual exclusion, the counting
argument across the two locks, that the unlocked read of `buff[i]` sees a slot written
for good, no lost wakeup, that every write of a slot happens before the consumer's read
of it through releases and acquisitions of the two mutexes, that the program can get
stuck exactly when it is started without producers and with something to consume, a
linear bound on the length of every run, and what every complete run has delivered.

**Login server** (`HW7/TCP-multithread-main/TCP_Server`). `Sessions.dfy` has the slot
table with the loops of the C code, each proved against a function of the table's
contents. `LoginServer.dfy` lets any number of handler threads interleave those critical
sections with accepts, sends and closes, and proves the inductive invariant;
`LoginRuns.dfy` draws the conclusions: unique logins, the thread-local flag shadows the
table, disjoint login intervals (`EventLog.dfy`), and refinement of an injective map
from connections to names. `Framing.dfy` says which commands a byte stream means, and
`CommandLines.dfy` says it of the lines and of the replies themselves, and
`ConnectionHandler.dfy` proves the receive buffer with its in-place cuts and shifts
against this, for every stream and every way to cut it into chunks. `LoginStreams.dfy`
joins the two: under any interleaving and any chunking the decisions are those for the
lines of each connection's stream.

**Work queue, worker pool, poll table** (`HW7/TCP_Server/server.c`; `WorkQueue.dfy`,
`WorkerPool.dfy`, `PollTable.dfy`). The ring refines a bounded FIFO, the pool never
strands work and drains, the two growing arrays refine a map from descriptors to
sessions, and their capacity is bounded by the peak.

**File upload** (`HW4`). `ConnBuf.dfy` has the buffered line reader and the receiver of
a file, `LineReading.dfy` and `StreamLines.dfy` say what the reader makes of a stream
and when that is its lines, `UploadServer.dfy` and `UploadClient.dfy` have the callers,
`UploadCommand.dfy` and `UploadReading.dfy` the printed and parsed command, and
`UploadReplies.dfy` the replies. `UploadProtocol.dfy` puts client and server together as
a machine of single sends, receives and failures, and `UploadRuns.dfy` proves the
end-to-end theorems.

**Names and addresses** (`HW3/UDP_Server/validation.c`; `DotNames.dfy`,
`Validation.dfy`). The scans, with a `strtok` that overwrites dots in its copy, decide
declarative grammars stated on the segments between dots.

## Findings

Places where the obvious claim does not hold of the code, each with the exact condition
under which it does:

- Login intervals are disjoint in the order of the critical sections, not in the order
  of the sends, because replies are sent after the mutex is released
  (`LoginRuns.SentIntervalsCanOverlap`). In the order of the sends they are disjoint if
  and only if the run never sends a 110 while another connection's logout of that user
  is decided and its 130 not yet sent (`LoginRuns.SentIntervalsDisjointIff`).
- A file name with white space can be misread: after the upload of `a 0` an empty file
  `a` is stored and the client has read the success reply
  (`UploadRuns.BlankInNameStoresWrongFile`). A successful upload is right if and only if
  the name is not empty, has no white space and at most 255 bytes
  (`UploadRuns.UploadIsExact`).
- The client does not look at how much of the command `send` took. A run without
  failures stores the file exactly when it took all; otherwise both sides wait for each
  other forever (`UploadRuns.CompleteRunStores`), which can happen with every file
  (`UploadRuns.PartialCommandHangs`).
- `(int)filesize` loses leftover bytes for large sizes. `ConnBuf.ConservedIffCastSafe`
  gives the exact condition on the two lengths, `ConnBuf.LargeSizeLosesLeftover` an
  input that loses a byte; the protocol never gets there with a leftover
  (`UploadRuns.NoLeftoverAtCast`).
- `read_line` takes a full buffer for the end of the stream. A line of n bytes comes
  back whole if and only if n is less than the buffer's size and the line fits behind
  the place where the reader stands (`LineReading.LineWholeIff`), which depends on how
  the stream was cut. Repeated calls give the lines of a stream for every cut if and
  only if no line is too long behind consecutive lines before it that fit into half the
  buffer together (`StreamLines.ReadExactlyIff`). So the limit for each single line is
  half the buffer: lines of 8192 and 8193 bytes fail for some cut
  (`StreamLines.HalfIsTheLimit`).
- `add_to_poll` does not look at whether a full table grew; it is without a slot if and
  only if the table is full, one of the two reallocations fails and the allocation of
  the session does not (`PollTable.Table.AddToPoll`). 63 connections fill the first
  table (`PollTable.AddsUntilFull`).
- `add_to_poll` grows a full table before it knows whether there is memory for the
  session. The size stays within 2 * (peak - 1), where every doubling was needed, if and
  only if no room made for a refused add was left unused (`PollTable.GrowthNeededIff`);
  63 connections and a refused one leave 128 slots for a peak of 64
  (`PollTable.RefusedAddGrows`). The size is at most 2 * peak in every run
  (`PollTable.GrowthBound`).
- `is_valid_ipv4` accepts `4294967296.0.0.0`, because `atoi` wraps. It is wrong exactly
  on strings of four numbers one of which lies within 255 above 2^32 or 2^33
  (`DotNames.Ipv4RightIff`).
- `sync_thread` started with no thread and a positive item count never ends
  (`SyncThreadRuns.DeadlockIffNoProducers`).

## Model

| member | source | states |
|---|---|---|
| SyncThread.InitInv | HW6/sync_thread.c:14-56 | the start state satisfies the invariant on mutexes, buffer, counts, sleep and joining |
| SyncThread.ProducerStepInv | HW6/sync_thread.c:70-92 | every statement of a producer keeps the invariant and stays inside `buff` |
| SyncThread.ConsumerStepInv | HW6/sync_thread.c:94-109 | every statement of the consumer keeps the invariant and stays inside `buff` |
| SyncThread.MainStepInv | HW6/sync_thread.c:51-65 | creating and joining threads keeps the invariant |
| SyncThreadRuns.MutualExclusion | HW6/sync_thread.c:73-88 | no two threads are ever inside the critical sections of one mutex, the consumer's wait loop included |
| SyncThreadRuns.Conservation | HW6/sync_thread.c:74-87 | taken + nready + put but not announced = nput = what the producers' counters and hands hold; nval = nput whenever the put mutex is free |
| SyncThreadRuns.ConsumerReadsWrittenSlot | HW6/sync_thread.c:98-106 | at the unlocked read of buff[i] the slot holds i and no later step of the run changes it; the mismatch message is never printed |
| SyncThreadRuns.NoLostWakeup | HW6/sync_thread.c:84-87 | a consumer asleep and not signalled implies nready = 0 and no producer between its test and its increment |
| SyncThreadRuns.SignalTestExact | HW6/sync_thread.c:84-85 | the consumer is woken just when it sleeps and nothing was ready, which costs no wakeup |
| SyncThreadRuns.MismatchExact | HW6/sync_thread.c:105-106 | any wrong value at the read would be reported, and nothing else is |
| SyncThreadRuns.SpuriousWakeupHarmless | HW6/sync_thread.c:99-103 | after a spurious wakeup the consumer tests again and is back asleep with nothing changed |
| SyncThreadRuns.BlockedOnlyBy | HW6/sync_thread.c:59-103 | threads wait only for a held mutex, a signal, or the thread they join |
| SyncThreadVisibility.StepKnownInv | HW6/sync_thread.c:73-103 | with knowledge passed on only by unlocking, waiting on and locking the mutexes: the put mutex carries all slots below nput, the nready mutex all announced slots and those below them, in whatever order they were announced |
| SyncThreadVisibility.WriteHappensBeforeRead | HW6/sync_thread.c:78-105 | when the consumer is about to read buff[i], the write of that slot happens before the read through the locking of the two mutexes |
| SyncThreadVisibility.WritesAreOrdered | HW6/sync_thread.c:73-81 | all earlier writes of slots happen before the next one |
| SyncThreadRuns.NoDeadlock | HW6/sync_thread.c:59-63 | with a producer or with nothing to do, every invariant state before main's return has a thread that can run |
| SyncThreadRuns.DeadlockIffNoProducers | HW6/sync_thread.c:41-63 | some run gets stuck before main returns if and only if there are no threads and a positive number of items |
| SyncThreadRuns.MeasureDecreases | HW6/sync_thread.c:70-109 | a measure goes down with every step and up by at most 2 with a spurious wakeup |
| SyncThreadRuns.RunLengthBound | HW6/sync_thread.c:70-109 | no run is longer than 22 items + 9 threads + 13 + 3 spurious wakeups |
| SyncThreadRuns.CompleteRunDeliversAll | HW6/sync_thread.c:58-66 | a run that cannot go on has returned from main, the printed counts add up to the items, the consumer took them all, and buff is 0, 1, 2, ... |
| Sessions.FindUser | HW7/TCP-multithread-main/TCP_Server/user/user.c:52-60 | the first account of the name, -1 exactly if there is none |
| Sessions.FindUserLoop | HW7/TCP-multithread-main/TCP_Server/user/user.c:52-60 | the loop finds that account |
| Sessions.FindSession | HW7/TCP-multithread-main/TCP_Server/server.c:30-40 | the first active slot of a descriptor, -1 exactly if there is none |
| Sessions.SessionTable.FindSessionBySockfd | HW7/TCP-multithread-main/TCP_Server/server.c:30-40 | the loop finds that slot |
| Sessions.FreeSlot | HW7/TCP-multithread-main/TCP_Server/server.c:73-90 | the first inactive slot, -1 exactly if all are active |
| Sessions.SessionTable.AddSession | HW7/TCP-multithread-main/TCP_Server/server.c:69-94 | the first free slot is initialised, no other slot changes, the counter counts successes |
| Sessions.SessionTable.RemoveSession | HW7/TCP-multithread-main/TCP_Server/server.c:102-116 | the slot of the descriptor is freed and cleared, no other slot changes |
| Sessions.SessionTable.IsUsernameLoggedIn | HW7/TCP-multithread-main/TCP_Server/auth/auth.c:11-33 | true exactly if an active logged-in slot of another descriptor has the name |
| Sessions.SessionTable.UserCommand | HW7/TCP-multithread-main/TCP_Server/auth/auth.c:39-103 | code, local variables and table are those of the login decision, with its order of tests |
| Sessions.SessionTable.ByeCommand | HW7/TCP-multithread-main/TCP_Server/auth/auth.c:122-148 | code, local variables and table are those of the logout decision |
| Sessions.ExecuteKeepsOthers | HW7/TCP-multithread-main/TCP_Server/auth/auth.c:87-98 | a command changes no slot but that of its own descriptor, and there only the login state |
| LoginServer.StepInv | HW7/TCP-multithread-main/TCP_Server/server.c:153-192 | every accept, add, command, send, hang-up, remove and close, in any interleaving, keeps: live descriptors are distinct, handlers and active slots correspond one to one, flags agree with slots, names are unique, histories are well formed |
| LoginServer.SeatFound | HW7/TCP-multithread-main/TCP_Server/server.c:186-188 | because the slot is removed before the descriptor is closed, lookup by descriptor finds the handler's own slot |
| LoginServer.HandlerMoves | HW7/TCP-multithread-main/TCP_Server/server.c:153-192 | a handler that has not closed its connection can always go on |
| LoginServer.ClosedIsReusable | HW7/TCP-multithread-main/TCP_Server/server.c:188 | a closed descriptor may come with the next connection, and no other in use |
| LoginServer.CommandUnique | HW7/TCP-multithread-main/TCP_Server/auth/auth.c:75-98 | a command keeps the names of logged-in slots distinct |
| LoginRuns.UniqueLogin | HW7/TCP-multithread-main/TCP_Server/auth/auth.c:49-100 | in every reachable state of every interleaving no two active logged-in slots hold one name, and no two active slots one descriptor |
| LoginRuns.FlagShadowsTable | HW7/TCP-multithread-main/TCP_Server/auth/auth.c:83-98 | the thread-local flag equals the flag of the connection's slot, and a logged-in name has a first account entry that is not blocked |
| LoginRuns.LoginIntervalsDisjoint | HW7/TCP-multithread-main/TCP_Server/auth/auth.c:39-148 | between any two 110 decided for one user, the first connection's 130 or end is decided |
| LoginRuns.RepliesInsideIntervals | HW7/TCP-multithread-main/TCP_Server/auth/auth.c:108-148 | on each connection the 110s exceed the 130s by 0 or 1, and 120 and 130 come only inside a login interval |
| EventLog.DisjointIntervals | HW7/TCP-multithread-main/TCP_Server/auth/auth.c:39-148 | any well-formed history has disjoint login intervals |
| EventLog.DisjointIff | HW7/TCP-multithread-main/TCP_Server/auth/auth.c:39-148 | intervals that alternate on each connection are disjoint if and only if nobody holds the user of a 110 when it comes |
| EventLog.HolderOfReplies | HW7/TCP-multithread-main/TCP_Server/protocol/protocol.c:60-119 | the replies on a live connection alone determine whether and as whom it is logged in |
| LoginRuns.TableRefinesMap | HW7/TCP-multithread-main/TCP_Server/auth/auth.c:44-147 | table and flags refine an injective partial map from connections to names: every reply code is determined by the map and the accounts, and only 110, 130 and the end of a session change the map |
| LoginRuns.RepliesInOrder | HW7/TCP-multithread-main/TCP_Server/protocol/protocol.c:81-118 | each connection gets its replies in the order of the decisions, at most one outstanding |
| LoginRuns.ToldVersusTable | HW7/TCP-multithread-main/TCP_Server/protocol/protocol.c:62-118 | what each client was told: nothing while its 110 is decided and not sent, still the user of its last 110 while its 130 is, and otherwise what the table says |
| LoginRuns.ToldOverlapNeedsPendingLogout | HW7/TCP-multithread-main/TCP_Server/protocol/protocol.c:104-118 | two clients were both told they hold a user only while the logout of that very user by one of them is decided and not sent |
| LoginRuns.SendOverlapsIff | HW7/TCP-multithread-main/TCP_Server/protocol/protocol.c:62-118 | sending a 110 makes another client hold the same user if and only if that one's logout of this user is decided and not sent |
| LoginRuns.SentIntervalsDisjointIff | HW7/TCP-multithread-main/TCP_Server/protocol/protocol.c:62-118 | in the order of the sends the login intervals of a run are disjoint if and only if it never sends a 110 while another connection's logout of the same user is decided and not sent |
| LoginRuns.SentIntervalsCanOverlap | HW7/TCP-multithread-main/TCP_Server/protocol/protocol.c:104-118 | a run in which two 110 for one user are sent with no 130 in between, so that the intervals are not disjoint |
| LoginRuns.FullIffAllServed | HW7/TCP-multithread-main/TCP_Server/server.c:171-178 | at most 100 connections are served, and a new one is refused exactly when 100 are |
| Framing.LinesSplit | HW7/TCP-multithread-main/TCP_Server/protocol/protocol.c:32-48 | the executed lines and the tail make up the stream, and the tail starts with no executable line |
| Framing.LinesUnique | HW7/TCP-multithread-main/TCP_Server/protocol/protocol.c:32-48 | there is no other such split |
| Framing.LinesOfCut | HW7/TCP-multithread-main/TCP_Server/protocol/protocol.c:126-131 | framing a first part and keeping its tail in front of the rest frames the whole |
| Framing.UserLineRead | HW7/TCP-multithread-main/TCP_Server/protocol/protocol.c:53-64 | `USER name` reaches the login decision with that name, inner and trailing spaces included |
| CommandLines.LineHasForm | HW7/TCP-multithread-main/TCP_Server/protocol/protocol.c:53-58 | every line is white space, a word, white space and a text |
| CommandLines.CommandRead | HW7/TCP-multithread-main/TCP_Server/protocol/protocol.c:53-124 | USER, POST and BYE are the commands, with the text behind the word as argument; every other word, a longer one too, and a blank line are undefined |
| CommandLines.ReturnDropped | HW7/TCP-multithread-main/TCP_Server/protocol/protocol.c:44-49 | a carriage return at the end of a line does not change its command |
| CommandLines.ReplyHasCode | HW7/TCP-multithread-main/TCP_Server/protocol/protocol.c:66-124 | the text of a reply starts with the decided code and ends its line, for every command and every decision |
| CommandLines.GreetingsHaveCode | HW7/TCP-multithread-main/TCP_Server/protocol/protocol.c:30 | the welcome starts with 100, the refusal of a full server with 500 |
| ConnectionHandler.CutLine | HW7/TCP-multithread-main/TCP_Server/protocol/protocol.c:40-49 | the line in front of the newline without one trailing CR, cut out in place, with the bytes behind untouched |
| ConnectionHandler.ExecuteFirst | HW7/TCP-multithread-main/TCP_Server/protocol/protocol.c:40-131 | one round of the inner loop: the first line is executed and answered, the remaining bytes are at the front of the buffer |
| ConnectionHandler.ExecuteLines | HW7/TCP-multithread-main/TCP_Server/protocol/protocol.c:40-131 | the inner loop ends, executes all complete lines, and leaves none in the buffer |
| ConnectionHandler.HandleProtocol | HW7/TCP-multithread-main/TCP_Server/protocol/protocol.c:15-135 | for every stream and every chunking exactly the lines of the stream are executed in order and exactly its tail is left; replies and table are those of serving these lines without interference |
| LoginStreams.StreamsDecideCommands | HW7/TCP-multithread-main/TCP_Server/protocol/protocol.c:30-132 | for every interleaving and every chunking the decisions form a run of the login server in which the commands decided for a connection are those of the lines of its stream in order, all of them once its loop has ended without a failed receive; what a client has been sent is nothing, the refusal, or the welcome and the text of the reply to each of its first commands in order |
| LoginStreams.ConnectionMoves | HW7/TCP-multithread-main/TCP_Server/protocol/protocol.c:32-40 | a served connection can always go on, with a complete line, with the next bytes in any piece that fits, or to its end |
| LoginStreams.EndedIff | HW7/TCP-multithread-main/TCP_Server/protocol/protocol.c:32 | a connection counts as ended exactly if its receive loop was left without a failed receive |
| ConnectionHandler.ServeKeepsOthers | HW7/TCP-multithread-main/TCP_Server/auth/auth.c:87-98 | serving any lines leaves all slots of other descriptors alone |
| ConnectionHandler.ClientHandler | HW7/TCP-multithread-main/TCP_Server/server.c:153-192 | turned away exactly when no slot is free; a served connection is answered for the lines of its stream, leaves all other slots as they were and its own free |
| WorkQueue.PutContents | HW7/TCP_Server/server.c:386-397 | an item is appended, its message cut to 4095 characters, or dropped exactly when 100 are queued; rear = (front + count) mod 100 |
| WorkQueue.TakeContents | HW7/TCP_Server/server.c:441-443 | the oldest item is taken and the order of the others kept |
| WorkQueue.Queue.EnqueueWork | HW7/TCP_Server/server.c:386-397 | the ring operation in place; the queued item has the session and the message, cut to 4095 characters; accepted = taken ++ queued, offered = accepted + dropped |
| WorkQueue.Queue.DequeueWork | HW7/TCP_Server/server.c:441-443 | the item taken is the oldest accepted one that was not taken yet |
| WorkerPool.StepInv | HW7/TCP_Server/server.c:386-451 | every lock, test, wait, wakeup, enqueue and processing step keeps mutual exclusion, the wakeup invariant and the flow of items |
| WorkerPool.NoStrandedWork | HW7/TCP_Server/server.c:394-439 | while a worker sleeps the queue holds no more items than workers are woken or about to test it, spurious wakeups included |
| WorkerPool.ItemsFlow | HW7/TCP_Server/server.c:386-449 | first in first out, nothing lost or doubled: every taken item is with one worker, processed, or skipped because its session had gone; a drop happens only at 100 queued |
| WorkerPool.AcceptedAreOffered | HW7/TCP_Server/server.c:386-397 | the accepted items are those offered, in order and as they fit into the queue, without the dropped ones and the one in hand |
| WorkerPool.SkippedWhenGone | HW7/TCP_Server/server.c:446-448 | an item whose session has gone is skipped, one with an active session processed |
| WorkerPool.ProcessedIfActive | HW7/TCP_Server/server.c:441-448 | over every run an item is processed as often as a worker came to its end with the session active, and skipped as often as with the session gone |
| WorkerPool.PoolMoves | HW7/TCP_Server/server.c:386-451 | main takes an offer when idle, any sleeper may be the one signalled, and the pool never gets stuck |
| WorkerPool.WorkerBlockedOnlyBy | HW7/TCP_Server/server.c:436-439 | a worker waits for nothing but the mutex and an item |
| WorkerPool.QuietMeansDone | HW7/TCP_Server/server.c:433-451 | when no worker can move, all sleep, the queue is empty and every accepted item was processed or skipped exactly once |
| WorkerPool.PoolDrains | HW7/TCP_Server/server.c:433-451 | left alone the pool comes to rest within 4 steps per queued item and 5 per worker, with everything processed or skipped, and nothing skipped if no session goes |
| WorkerPool.RunLengthBound | HW7/TCP_Server/server.c:386-451 | no run is longer than 11 steps per item offered, 3 per worker and 4 per spurious wakeup |
| PollTable.GrowthBound | HW7/TCP_Server/server.c:571-596 | over any adds, refused adds and removes the size is 64 * 2^k, holds the peak, and is at most max(64, 2 * peak) |
| PollTable.PeakIsHighest | HW7/TCP_Server/server.c:653-704 | the peak is the largest poll_count of the run |
| PollTable.GrowthNeededIff | HW7/TCP_Server/server.c:631-639 | the size is at most max(64, 2 * (peak - 1)) if and only if no doubling for a refused add was left unused by the rest of the run |
| PollTable.RefusedAddGrows | HW7/TCP_Server/server.c:631-639 | 63 adds and one whose session cannot be allocated leave a size of 128 with a peak of 64 |
| PollTable.Table.ExpandPollArrays | HW7/TCP_Server/server.c:571-596 | both arrays double, old entries stay, new ones are cleared; when either reallocation fails the size and the entries stay as they are |
| PollTable.Table.AddToPoll | HW7/TCP_Server/server.c:628-658 | one initialised entry is appended, all others keep their place, the arrays stay aligned with distinct descriptors; refused exactly without memory for the session, with all entries kept; without a slot exactly when the table was full, could not grow, and there was memory for the session |
| PollTable.AddsUntilFull | HW7/TCP_Server/server.c:631-654 | 63 connections fill the first table of 64 entries |
| PollTable.Table.RemoveFromPoll | HW7/TCP_Server/server.c:684-708 | the entry is cut out, the order of the others kept; any index but 0 keeps the table valid, one outside it changes nothing |
| PollTable.Table.FindSessionBySockfd | HW7/TCP_Server/server.c:471-482 | the session the abstract map has for the descriptor, null if it has none |
| PollTable.AddToMap | HW7/TCP_Server/server.c:650-654 | adding extends the map from descriptors to sessions by one new key |
| PollTable.RemoveFromMap | HW7/TCP_Server/server.c:699-705 | removing takes exactly the entry's descriptor out of the map |
| PollTable.LookupIsMap | HW7/TCP_Server/server.c:471-482 | the first match of the scan is what the map says |
| ConnBuf.Reader.FillBuf | HW4/TCP_Server/server.c:103-111 | received bytes go behind the unread ones; a full buffer looks like the end of the stream |
| ConnBuf.Reader.ReadLine | HW4/TCP_Server/server.c:115-155 | line, buffer and what is still to come are those of the specified receives; line and remaining stream are a function of the stream and of `start`, not of the chunks |
| LineReading.ReadOnceResult | HW4/TCP_Server/server.c:115-155 | one call receive by receive yields that result; the next `start` is 0 if nothing is left in the buffer or the line ended in its second half, else the end of the line |
| LineReading.LineWholeIff | HW4/TCP_Server/server.c:103-149 | the first line comes back whole from `start` if and only if it fits behind `start` and is shorter than the buffer |
| LineReading.LineFoundIff | HW4/TCP_Server/server.c:125-133 | a line is whole from every start up to half the buffer if and only if it has at most 8192 bytes |
| UploadServer.ReadLines | HW4/TCP_Server/server.c:115-155 | repeated read_line calls give what the specified calls give on this stream with these chunks |
| StreamLines.WholeIsRead | HW4/TCP_Server/server.c:115-155 | that is exactly the lines of the stream, for any chunking, when every line fits behind every place the reader may stand at |
| StreamLines.ReadExactlyIff | HW4/TCP_Server/server.c:103-149 | a fresh reader gives exactly the lines of a stream for every chunking if and only if no line is too long behind consecutive lines before it that fit into half the buffer together |
| StreamLines.ShortLinesWhole | HW4/TCP_Server/server.c:125-133 | lines of at most 8192 bytes always fit |
| StreamLines.HalfIsTheLimit | HW4/TCP_Server/server.c:103-149 | lines of 8192 and 8193 bytes are not read back for some chunking |
| StreamLines.SplitLinesJoin | HW4/TCP_Server/server.c:113-114 | the lines put together are the stream |
| StreamLines.SplitLinesAreLines | HW4/TCP_Server/server.c:113-114 | each of them ends at its only newline, but for an unfinished last one |
| ConnBuf.Reader.DrainLeftover | HW4/TCP_Server/server.c:167-181 | how much of the leftover the cast lets into the file, that the rest stays unread, and that a failed write leaves it all unread |
| ConnBuf.Reader.ReceiveFile | HW4/TCP_Server/server.c:158-213 | on success, whatever may fail, what is in the file, in the buffer and on the wire; without failures of socket and file success exactly if the socket has the bytes that remain |
| ConnBuf.ConservedIffCastSafe | HW4/TCP_Server/server.c:169-170 | for all contents the file is the first filesize bytes and the rest is left unread, if and only if there is no leftover or the size as an int is at least min(leftover, filesize) |
| ConnBuf.SmallFilesSafe | HW4/TCP_Server/server.c:169-170 | no leftover, or a size below 2^31, meets that condition |
| ConnBuf.LargeSizeLosesLeftover | HW4/TCP_Server/server.c:169-170 | with one byte left over and a size of 2^31 that byte is missing from the file |
| UploadServer.HandleFileUpload | HW4/TCP_Server/server.c:231-275 | the first line of the stream is the command; without failures the outcome is that of what read_line left in the buffer and what is still to come, and below 2^31 bytes the next `size` bytes if there are that many, for any chunking; whatever fails, nothing else is stored, nothing at all for a line whose first word is not UPLD, and no success is reported that was none |
| UploadServer.SmallOutcome | HW4/TCP_Server/server.c:158-213 | below 2^31 bytes the outcome does not depend on what is buffered |
| Numerals.ValueOfDecimal | HW4/TCP_Client/client.c:130-131 | reading a printed decimal number gives the number |
| UploadCommand.ParseInvertsCommand | HW4/TCP_Server/server.c:215-229 | the server reads back the printed name and size if and only if the name is not empty, has no white space and at most 255 bytes |
| UploadCommand.CutCommand | HW4/TCP_Server/server.c:215-229 | a command cut short anywhere is refused or names the right file, and never makes a non-empty file empty |
| UploadCommand.KeywordNeeded | HW4/TCP_Server/server.c:225-228 | nothing is taken for an upload whose first word is not UPLD |
| UploadReading.OtherWordRefused | HW4/TCP_Server/server.c:225-228 | a line with any other first word, or none, is refused whatever follows |
| UploadReading.UploadRead | HW4/TCP_Server/server.c:225-228 | the keyword, a name and a number with any white space between them are that upload; without a number the line is refused |
| UploadReading.NoNameRefused | HW4/TCP_Server/server.c:225-226 | the keyword alone is refused |
| UploadReading.NumberRead | HW4/TCP_Server/server.c:225 | a number ends at the first character that is not a digit, a sign is taken, a negative number counts down from the largest and one that does not fit is the largest |
| UploadReading.NoNumberRead | HW4/TCP_Server/server.c:225-226 | without a digit behind the sign there is no number |
| UploadReading.EndDropped | HW4/TCP_Server/server.c:220-224 | exactly the carriage returns and newlines at the end are dropped |
| UploadClient.FileName | HW4/TCP_Client/client.c:72-76 | what follows the last slash |
| UploadClient.SendAll | HW4/TCP_Client/client.c:91-99 | the inner loop puts exactly the block on the wire, whatever send takes at a time, or less of it when a send fails |
| UploadClient.UploadFile | HW4/TCP_Client/client.c:85-110 | the wire gets a prefix of the file, all of it unless a send fails; success exactly if it got all and the length is the announced one |
| UploadProtocol.CommandFramed | HW4/TCP_Client/client.c:54-68 | the command fits the buffers and its only newline is its last byte |
| UploadReplies.Positive | HW4/TCP_Client/client.c:147 | the client takes the welcome, the confirmation and the success for +OK, and the two errors not |
| UploadReplies.TextsDiffer | HW4/TCP_Server/server.c:17-22 | the replies can be told apart by their texts |
| UploadProtocol.WholeCommand | HW4/TCP_Server/server.c:118-135 | when a line ends in the server's buffer it is the whole command and nothing is behind it |
| UploadProtocol.StepInv | HW4/TCP_Server/server.c:231-286 | every send, receive, reply and close, and every failure of either side, of each send of the server included, keeps the invariant on what is sent, under way, buffered, received and stored |
| UploadRuns.UploadIsExact | HW4/TCP_Client/client.c:120-174 | for any chunking, partial sends and failures, a run that stored a file stored exactly the client's name and bytes if and only if the name is one the command can carry; a success reply read by the client means a file was stored |
| UploadRuns.BodyNeedsAcceptance | HW4/TCP_Client/client.c:136-151 | while no command has been accepted the client has sent no byte of its file and nothing is stored |
| UploadRuns.RefusedRun | HW4/TCP_Client/client.c:146-151 | a client whose command is refused never sends its file, and it has given up when nothing can happen any more |
| UploadRuns.RepliesMean | HW4/TCP_Server/server.c:245-273 | the server refuses exactly when a line was no upload and confirms exactly when it was; a success is said only of a stored file, a failure only of one that is not, each once and behind a confirmation |
| UploadRuns.CommandAnswered | HW4/TCP_Server/server.c:139-149 | a server whose socket does not fail answers whatever part of a command it has received before it closes |
| UploadRuns.ServerEnds | HW4/TCP_Server/server.c:185-286 | a server whose client has sent everything or has gone is never left waiting |
| UploadRuns.PiecesAreArbitrary | HW4/TCP_Client/client.c:92-98 | both sides may send and receive in pieces of any size |
| UploadRuns.FailuresPossible | HW4/TCP_Server/server.c:189-198 | either side may fail at any time before it is done |
| UploadRuns.NoLeftoverAtCast | HW4/TCP_Server/server.c:251-258 | the client waits for the confirmation, so nothing is buffered when the size is cast to int |
| UploadRuns.RunLengthBound | HW4/TCP_Client/client.c:85-174 | no run is longer than 2 * (command + file) + 9 steps |
| UploadRuns.CompleteRunStores | HW4/TCP_Client/client.c:133-142 | a complete run without failures stores the file and tells the client so if and only if the one send took the whole command; else both wait |
| UploadRuns.PartialCommandHangs | HW4/TCP_Client/client.c:133-142 | for every file such a run that hangs exists |
| UploadRuns.BlankInNameStoresWrongFile | HW4/TCP_Server/server.c:225-226 | a run that uploads `a 0`, stores an empty `a`, and ends with the client having read the success reply |
| DotNames.SplitJoins | HW3/UDP_Server/validation.c:160-173 | the segments between the dots, joined with dots, are the string, and contain no dot |
| DotNames.SplitOfJoin | HW3/UDP_Server/validation.c:160-173 | segments without dots are what their joined string splits into |
| DotNames.DotsFitIff | HW3/UDP_Server/validation.c:62-66 | the checks at the ends and for two dots in a row find exactly the strings with an empty segment |
| DotNames.TokensAreSegments | HW3/UDP_Server/validation.c:69-88 | the tokens of strtok are the non-empty segments, in order |
| Validation.Tokenizer.Next | HW3/UDP_Server/validation.c:160-173 | one strtok call returns the first token and leaves the others, writing only over the dot behind the token, so earlier tokens stay readable |
| Validation.IsValidLabel | HW3/UDP_Server/validation.c:115-127 | true exactly for 1 to 63 letters, digits and hyphens with no hyphen at either end |
| Validation.IsNumberOrDot | HW3/UDP_Server/validation.c:99-105 | true exactly for strings of digits and dots |
| Validation.IsValidDomain | HW3/UDP_Server/validation.c:136-186 | true exactly for at most 253 bytes that split into at least two labels, the last with at least 2 characters and not all digits |
| DotNames.DomainGrammar | HW3/UDP_Server/validation.c:136-186 | the same language read as a grammar: labels joined by dots (section 2.3.1 of RFC 1035, section 2.1 of RFC 1123) |
| Validation.IsValidIPv4 | HW3/UDP_Server/validation.c:58-90 | true exactly for at most 16 characters that split into four digit runs each of which atoi puts into 0..255 |
| DotNames.Ipv4RightIff | HW3/UDP_Server/validation.c:81-82 | every string of four numbers up to 255 is accepted; the function is right about a string if and only if that is not four numbers one of which wraps around to 0..255 |
| DotNames.WrappedAddress | HW3/UDP_Server/validation.c:81-82 | 4294967296.0.0.0 is accepted |
| DotNames.AcceptedIsNumberOrDot | HW3/UDP_Server/server.c:161-165 | every accepted address is digits and dots |
| DotNames.NumberOrDotIsNoDomain | HW3/UDP_Server/server.c:165-169 | no string of digits and dots is a valid name |
| Validation.Classify | HW3/UDP_Server/server.c:161-174 | the kind of a request is given by the predicates alone, so the order of the three tests does not matter |

## Left out

- Concurrent code as methods: the threads of `HW6/sync_thread.c`, the handlers of the
  login server, the workers of the pool and the two upload parties are step relations
  on values, because their properties are about interleavings. The sequential code
  they run is modelled as methods on arrays and objects, and both share the functions
  that specify it.
- Granularity: a critical section of the login server is one step, and so are the
  dequeue and the enqueue of the pool (the mutex steps around them are separate). In
  `SyncThread` each statement is a step. Steps see one memory; for `buff`, the only data
  that is read without a lock, `SyncThreadVisibility` shows that this is what the mutexes
  guarantee.
- Unlocked accesses outside the critical sections of the login server: POST reads only
  thread-local variables, and so does the first test of BYE.
- Sends of the servers' replies are whole or, in `HW4`, fail; only the client's sends are
  partial.
- Sockets, `accept`, `poll`, DNS lookups, menus, logging, printing and files: a socket is a byte
  stream received in arbitrary chunks, and a send appends to a trace. `accept` returns
  any descriptor that is not open.
- UploadRuns.UploadIsExact: a failing `fopen` or `fwrite` is one of the failures of the server;
  `remove` of what a failed upload has written is taken to succeed.
- PollTable.Table.AddToPoll: says nothing about what the source does with a full table that
  could not grow, which is undefined; that the new descriptor is not in the table yet is
  what `accept` guarantees. A failed copy of the empty user name is not modelled.
- ConnectionHandler.HandleProtocol: runs without interference from other handlers; under
  interference the commands are fixed by `LoginStreams.StreamsDecideCommands` and each
  reply by `LoginRuns.TableRefinesMap`, and the texts sent by the former.
- ConnectionHandler.ClientHandler: likewise.
- UploadRuns.UploadIsExact: `stored` names the file by the parsed name. The path is the
  directory and that name, cut at 511 bytes, so a directory with a long name leads to
  another file; directories are not modelled.
- `%lu` in `sscanf` and `atoi` are modelled as the GNU C library does them on a 64-bit
  machine (saturating `strtol`, cast to a 32-bit `int`).
- The account file's parser; accounts are a list of names of at most 511 characters with a status.
- `HW7/TCP_Server/server.c`: its command handlers, the lifetime of queued sessions, the
  inner receive loop of `main`, and `recv_until_delim`, which can match stale bytes.
- `HW6/TCP_Server/server.c`: its login check and update are in separate critical
  sections, so uniqueness is not claimed.
- `HW1`, `HW2`, `HW5` and the clients of `HW5` to `HW7`: single-user state, copies of
  the validators and simple line readers.
- `validate_port`, `is_ip_address` and the lookups of `HW3`, and null arguments of the
  validators.
