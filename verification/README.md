# Verified core of the lamb coroutine networking framework

A Dafny model of the parts of lamb that are hard to get right, with the properties they are meant
to have, proved for every input, every run or every reachable state.

* **Byte buffer** (`Bytes`, `ByteArray`, `Codec`, `TypedValues`, `TypedIO`, `TypedSession`,
  `Streams`): a linked list of equal blocks with a cached current block behaves like one flat byte
  sequence; fixed-width, varint, zigzag and string values written to it read back; scatter/gather
  windows and partial socket transfers move the same bytes.
* **Coroutine runtime** (`Runtime`, `RuntimeInv`): the hooked I/O calls of one scheduling thread as
  a step protocol. A suspended fiber has exactly one pending wake-up, whatever readiness, timeouts
  and closes do.
* **Scheduler** (`Scheduler`), **event registry** (`EventRegistry`), **timers** (`Timers`): classes
  whose methods are the locked sections of the source, for any number of threads and any
  interleaving of calls.
* **HTTP body framing** (`HttpBody`, `HttpRuns`, `HttpParser`, `HttpChunks`): the resumable parser
  with its bulk jumps equals a byte-at-a-time machine, so it does not matter how the input is cut.
* **URLs** (`UrlStates`, `UrlParser`, `Uri`): the fields of a URL partition it, and printing a URI
  gives a normal form.
* **WebSocket** (`WsFrames`, `WebSocket`): fragmented, masked messages with control frames in
  between are put together again.
* **Percent codec and query parameters** (`UrlCodec`, `QueryParams`).

`dafny verify dfyconfig.toml` checks the whole project.

## How the source is represented

* The kernel, the clock, random masks and the user's code are inputs: socket transfers follow two
  arbitrary functions that grant any number of bytes or an error, epoll_ctl succeeds or fails as a
  parameter says, clock readings are parameters, and the steps of the runtime protocol choose what
  happens next.
* Sections under one lock are single calls or steps; an interleaving of threads is a sequence of
  them.
* Integers are unbounded; 8-, 16-, 32- and 64-bit wrap-around is written out where the code can
  meet it. Bytes are the numbers below 256. Bitwise or of disjoint bits is addition.
* The C header of the HTTP parser is not part of this model, so strictness and the header limit are
  parameters of the machines.
* Registrations and tasks carry numbers that the source does not have; they only name them.

## Limits of the code that the proofs bring out

* A string whose length does not fit its 16-bit prefix is cut when read back; an empty string that
  is the last value in exactly filled blocks is read through a null block pointer. `ItemRoundTrip`
  and `Session` give the exact conditions.
* The hexadecimal table of the HTTP parser has 128 entries in an array of 256, so bytes above 127
  count as the digit zero in a chunk size (`DigitsAre`), and a line with such a byte alone ends the
  message (`NonAsciiEndsMessage`).
* In strict mode a call that fails on the byte right after chunk data loses that chunk's data of the
  same call, and exactly then (`Execute`). So two data bytes for a chunk with one byte left lose a
  byte in one call and none in two (`CutMatters`); nothing else depends on how the input is cut.
* The table of unreserved characters has `=`, so a query key is cut at its first `=`
  (`QueryRoundTrip`). The map comes back unchanged if and only if no pair that is the first with its
  key has an `=` in it (`QueryRoundTripIff`).
* A host written in brackets is stored without them, so printing it gives another URL unless all
  its characters are host characters (`NormalForm`); http://[::1]/ is such a URL (`BracketsAreLost`).
* After the clock goes back by more than an hour, or at all within the first hour, all timers
  expire at once and are re-armed without a notification. The wake-up invariant then holds exactly
  when a notification is out or no recurring timer's new deadline precedes what the poller saw;
  without a rollover it always holds (`ListExpiredCb`, `Oversleep`).
* A task scheduled while `stopping()` is already true may stay in the queue for good (`LateTask`);
  if none is, every task has been run when a worker leaves (`Run`).
* `delEvent` on an event that a fiber waits for leaves that fiber without any wake-up
  (`DeletedWaiterSleeps`, `LostWakeUp`); on any other event it keeps one for each
  (`DeletionIsSafeIff`).

## Model

| member | source | states |
|---|---|---|
| `ByteArrays.BlocksFor` | lamb/bytearray.cc:510-511 | the block count of the rounding-up division is the least that holds the missing bytes |
| `ByteArrays.ByteArray.constructor` | lamb/bytearray.cc:33-41 | one block, empty data, position zero, all invariants hold |
| `ByteArrays.ByteArray.CurrentBlock` | lamb/bytearray.cc:441-457 | in every valid state the cached block is node number position / baseSize, and null exactly when the position is the capacity |
| `ByteArrays.ByteArray.Tail` | lamb/bytearray.cc:512-515 | the walk along the next pointers ends at the last block of the list |
| `ByteArrays.ByteArray.AppendBlocks` | lamb/bytearray.cc:517-525 | exactly count fresh blocks are linked behind the last one, the old blocks and their contents untouched |
| `ByteArrays.ByteArray.AddCapacity` | lamb/bytearray.cc:501-530 | afterwards the request fits, memory grew by the fewest blocks, the data and the old memory are unchanged, and the current block is set |
| `ByteArrays.ByteArray.WriteBlocks` | lamb/bytearray.cc:353-375 | the copying loop puts the bytes into the block memory as one flat patch at the position |
| `ByteArrays.ByteArray.Write` | lamb/bytearray.cc:347-380 | write equals overwriting the flat byte sequence at the position, growing it at its end; list, capacity, size, position and current block stay consistent |
| `ByteArrays.ByteArray.ReadBlocks` | lamb/bytearray.cc:387-408 | the copying loop returns the flat slice of memory and leaves the cached block right |
| `ByteArrays.ByteArray.Read` | lamb/bytearray.cc:382-409 | read returns the next n bytes of the flat sequence and advances, or reports out of range and changes nothing |
| `ByteArrays.ByteArray.SetPosition` | lamb/bytearray.cc:441-457 | accepted exactly up to the capacity; the data stays, extended when the position passes it; the cached block is found again |
| `ByteArrays.ByteArray.SeekBlock` | lamb/bytearray.cc:449-456 | the walk from the root ends in the block of the position, or null at the end of the memory |
| `ByteArrays.ByteArray.Clear` | lamb/bytearray.cc:334-345 | back to one block and no data, with the invariants intact |
| `ByteArrays.ByteArray.Windows` | lamb/bytearray.cc:564-585 | the window loop covers the bytes from the position on block by block, without gap or overlap |
| `ByteArrays.ByteArray.GetReadBuffers` | lamb/bytearray.cc:558-587 | the windows span the smaller of the request and the readable bytes |
| `ByteArrays.ByteArray.GetWriteBuffers` | lamb/bytearray.cc:626-654 | room is made, the data is unchanged, and the windows span exactly the request |
| `ByteArrays.ByteArray.Gather` | lamb/bytearray.cc:558-587 | sending the first n bytes of the windows sends the flat slice after the position |
| `ByteArrays.ByteArray.Scatter` | lamb/bytearray.cc:626-654 | filling the first n bytes of the windows is the flat write of those bytes |
| `Streams.ReadIntoArray` | lamb/streams/socket_stream.cc:32-43 | receiving through the write windows and moving the position leaves the state that writing the received bytes would |
| `Streams.WriteFromArray` | lamb/streams/socket_stream.cc:52-63 | sending from the read windows and moving the position sends and consumes what reading those bytes would |
| `Streams.ReadFixSizeArray` | lamb/stream.cc:20-30 | over any series of partial transfers exactly length bytes of the stream arrive in order when length is returned; otherwise the bytes moved so far and a result of at most zero |
| `Streams.WriteFixSizeArray` | lamb/stream.cc:49-59 | over any series of partial transfers exactly the next length bytes are sent in order when length is returned |
| `Streams.ReadFixSize` | lamb/stream.cc:5-17 | the same loop into a caller buffer: the bytes are a prefix of the stream, complete exactly when length is returned |
| `Streams.WriteFixSize` | lamb/stream.cc:34-46 | what was sent is a prefix of the data, complete exactly when length is returned |
| `Codec.HostIndependent` | lamb/bytearray.cc:71-111 | swapping on a mismatch of byte order makes the wire image the same on every machine |
| `Codec.FixedRoundTrip` | lamb/bytearray.cc:64-250 | writer and reader of any byte orders recover every fixed-width value |
| `Codec.ZigzagBijection` | lamb/bytearray.cc:113-135 | zigzag encoding and decoding are inverse on every value of the width, including the minimum |
| `Codec.VarintRoundTrip` | lamb/bytearray.cc:142-168 | the shift-and-mask reader inverts the seven-bit writer for every value of the width, wherever the bytes lie |
| `Codec.VarintLength` | lamb/bytearray.cc:142-151 | a value below 2 to the 7k needs at most k bytes, so the temporary buffers are never overrun |
| `TypedValues.TextDecodes` | lamb/bytearray.cc:182-200 | a length-prefixed string always reads back as its first stored-length bytes |
| `TypedValues.ItemRoundTrip` | lamb/bytearray.cc:64-332 | a typed read undoes the typed write if and only if the string length fits its prefix |
| `TypedValues.LongTextIsCut` | lamb/bytearray.cc:182-185 | a string of 65536 bytes behind a 16-bit length reads back as the empty string |
| `TypedIO.WriteItem` | lamb/bytearray.cc:64-204 | each typed write puts exactly the encoding of its value at the position |
| `TypedIO.ReadItem` | lamb/bytearray.cc:206-332 | each typed read takes exactly what decoding finds in the data, throws when bytes are missing, and meets the null block only for an empty string at the end of the memory |
| `TypedIO.FillVarint` | lamb/bytearray.cc:142-168 | the varint loop stays inside its temporary and yields the varint of the value |
| `TypedIO.VarintLoop` | lamb/bytearray.cc:256-286 | the reading loop equals the recursive varint reader, including wrap-around of the accumulator |
| `TypedSession.Session` | lamb/bytearray.cc:64-332 | any sequence of typed writes into an empty buffer, back to the start and the matching reads gives the same values and nothing left to read, for every block size and byte order, unless the last value is an empty string and the data fill their blocks exactly |
| `TypedSession.EmptyTextAtTheEnd` | lamb/bytearray.cc:326-332 | a single empty string in blocks of one byte meets the null current block |
| `Timers.TimerManager.Find` | lamb/timer.cc:7-25 | the comparator finds a timer exactly when it is in the set, because keys change only outside it |
| `Timers.TimerManager.Insert` | lamb/timer.cc:205 | insertion keeps the set sorted and adds just that timer |
| `Timers.TimerManager.AddToSet` | lamb/timer.cc:202-216 | a notification goes out exactly when the new timer is first and none went out since the last poll |
| `Timers.TimerManager.AddTimer` | lamb/timer.cc:108-114 | the timer enters the set with its deadline; sortedness, exactness and the wake-up invariant are kept |
| `Timers.TimerManager.Cancel` | lamb/timer.cc:41-51 | succeeds exactly when the callback is still set; afterwards the timer is out and its callback gone |
| `Timers.TimerManager.Refresh` | lamb/timer.cc:54-68 | the deadline moves to now plus the period and never earlier, so the wake-up invariant needs no notification |
| `Timers.TimerManager.Reset` | lamb/timer.cc:71-97 | new period and deadline from now or from the old start; set and wake-up invariant are kept |
| `Timers.TimerManager.GetNextTimer` | lamb/timer.cc:129-144 | clears the notification flag and returns a wait that no deadline precedes |
| `Timers.TimerManager.DetectClockRollover` | lamb/timer.cc:219-227 | rollover exactly when the clock is more than an hour behind, or at all behind a time below one hour, where the unsigned difference wraps |
| `Timers.TimerManager.DueCount` | lamb/timer.cc:173-178 | the timers due are a prefix, whatever the address of the probe |
| `Timers.TimerManager.FireAll` | lamb/timer.cc:184-192 | each expired timer hands out its callback and is re-armed at now plus its period or cleared |
| `Timers.TimerManager.ListExpiredCb` | lamb/timer.cc:149-193 | the callbacks are those of exactly the timers due, in deadline order; all other timers are unchanged; the wake-up invariant survives without a rollover, and with one exactly when a notification is out or no recurring timer is re-armed before what the poller saw |
| `Timers.TimerManager.RearmedAwake` | lamb/timer.cc:184-192 | when all timers have fired at once, the earliest deadline is that of a recurring timer, so the wake-up invariant is a condition on the recurring timers alone |
| `Timers.Run` | lamb/timer.cc:41-227 | over any calls at clock readings that never decrease, a timer has a callback exactly when it is in the sorted set, and either a notification is out or nothing falls due before what the poller last saw |
| `Timers.Oversleep` | lamb/timer.cc:219-227 | when the clock goes back by hours a recurring timer is re-armed before what the poller saw, with no notification |
| `Schedulers.Scheduler.Schedule` | lamb/include/scheduler.h:77-85 | a task is appended once, empty ones are ignored, and the result says that the queue was empty |
| `Schedulers.Scheduler.FindTask` | lamb/scheduler.cc:124-146 | the loop stops at the first task this thread may run |
| `Schedulers.Scheduler.Take` | lamb/scheduler.cc:122-149 | the earliest eligible task leaves the queue for this worker, counted active; others are told exactly when tasks are left |
| `Schedulers.Scheduler.Finish` | lamb/scheduler.cc:155-176 | the task held is done, on this thread, and the active count drops |
| `Schedulers.Scheduler.EnterIdle` | lamb/scheduler.cc:177-188 | a worker leaves the loop exactly when its idle fiber has ended |
| `Schedulers.Scheduler.Idle` | lamb/scheduler.cc:77-82 | the idle fiber ends exactly when the scheduler has stopped |
| `Schedulers.Scheduler.Stop` | lamb/scheduler.cc:194-201 | stopping is requested; every invariant is kept |
| `Schedulers.Scheduler.ActiveCountsHolders` | lamb/scheduler.cc:118-190 | the active count is the number of workers holding a task, the idle count that of workers in their idle fiber |
| `Schedulers.Scheduler.RunningMeansNotStopped` | lamb/scheduler.cc:68-71 | while a task runs `stopping()` is false, so what a running task schedules is never late |
| `Schedulers.Scheduler.AllRun` | lamb/scheduler.cc:104-192 | every task ever scheduled has been run, on a thread it may run on, if and only if the queue is empty and no worker is active |
| `Schedulers.Scheduler.LeavingMeansDone` | lamb/scheduler.cc:104-192 | if no task was ever scheduled while `stopping()` was true, then when a worker has left every task has been run on a thread it may run on |
| `Schedulers.Scheduler.Do` | lamb/scheduler.cc:104-192 | any step of any thread keeps conservation, a task only goes from the queue to one worker to done, and from a stopped state exactly the scheduling of a task leads to one that is not stopped |
| `Schedulers.Run` | lamb/scheduler.cc:104-192 | for any number of workers and any interleaving: conservation always; if no task is scheduled while `stopping()` is true, and so if only running tasks schedule after stop, then once any worker has left all tasks are done |
| `Schedulers.LateTask` | lamb/scheduler.cc:104-192 | a task scheduled once `stopping()` is true stays in the queue although the last worker has left |
| `EventRegistry.IOManager.ContextResize` | lamb/iomanager.cc:138-147 | every descriptor below the size gets a context, the old ones unchanged |
| `EventRegistry.IOManager.ContextFor` | lamb/iomanager.cc:152-161 | growing to one and a half times the descriptor always makes room for it |
| `EventRegistry.IOManager.TriggerEvent` | lamb/iomanager.cc:80-97 | the event leaves the mask, its context is reset and its target scheduled once |
| `EventRegistry.IOManager.AddEvent` | lamb/iomanager.cc:149-204 | on success exactly this registration is added with its context and epoll interest; a failed epoll_ctl changes nothing |
| `EventRegistry.IOManager.DelEvent` | lamb/iomanager.cc:206-242 | succeeds exactly for a registered event and a working epoll_ctl; the registration goes unscheduled |
| `EventRegistry.IOManager.CancelEvent` | lamb/iomanager.cc:244-278 | the same, and the registration is scheduled exactly once |
| `EventRegistry.IOManager.CancelAll` | lamb/iomanager.cc:280-320 | both events of the descriptor go together, each scheduled once, or nothing changes |
| `EventRegistry.IOManager.Report` | lamb/iomanager.cc:415-458 | one epoll report triggers the events that happened, write first; a failed epoll_ctl or an unregistered event changes nothing |
| `EventRegistry.IOManager.Matched` | lamb/iomanager.cc:80-97 | each successful addEvent is still registered, or stands behind exactly one scheduled task, or was deleted: exactly one of the three |
| `EventRegistry.IOManager.Do` | lamb/iomanager.cc:149-458 | no call takes back a task, and a registration that was scheduled or deleted stays so |
| `EventRegistry.IOManager.PendingCountsEvents` | lamb/iomanager.cc:187-203 | the pending counter is the number of events set over all contexts, and the epoll interest is exactly those events |
| `EventRegistry.Continue` | lamb/iomanager.cc:149-458 | from any state on, any interleaving of the locked sections keeps counter, contexts, epoll mirror and ledger consistent; tasks are only added, and what was scheduled or deleted is never settled again |
| `EventRegistry.Run` | lamb/iomanager.cc:149-458 | from the start, after any interleaving: all is consistent, no registration has been scheduled twice, and none that is still registered has been scheduled |
| `RuntimeInv.NextKeeps` | lamb/hook.cc:82-149 | every step of the runtime keeps the invariant that ties fibers, queue, events and timers together |
| `RuntimeInv.WakeKeeps` | lamb/iomanager.cc:80-97 | triggering an event moves the one wake-up of its fiber into the queue |
| `RuntimeInv.FlagKeeps` | lamb/hook.cc:117-124 | a timeout callback meets its own wait, never a later one of the same call |
| `RuntimeInv.ResumeKeeps` | lamb/hook.cc:136-145 | a dequeued fiber is READY and its call leaves nothing behind when it goes on |
| `RuntimeInv.ExpireKeeps` | lamb/iomanager.cc:394-402 | expired timers are scheduled before the events of the same round |
| `RuntimeInv.BlockKeeps` | lamb/hook.cc:111-136 | arming the timer, adding the event and yielding gives the fiber exactly one wake-up |
| `RuntimeInv.ExactlyOneWake` | lamb/hook.cc:106-148 | in every reachable state a suspended fiber has exactly one pending wake-up, whatever the order of readiness, timeout and close; other fibers have none |
| `RuntimeInv.DeletedWaiterSleeps` | lamb/iomanager.cc:206-242 | when the event of a waiting fiber is deleted, the fiber stays suspended with no pending wake-up |
| `RuntimeInv.DeletionIsSafeIff` | lamb/iomanager.cc:206-242 | in every reachable state, deleting an event leaves every suspended fiber its one wake-up if and only if the event belongs to a user callback |
| `RuntimeInv.LostWakeUp` | lamb/hook.cc:106-148 | a run after which a reader waits for an event whose deletion leaves it without a wake-up |
| `RuntimeInv.TimedOutIffExpired` | lamb/hook.cc:136-144 | a wait returns ETIMEDOUT if and only if its own timer has expired |
| `RuntimeInv.NothingLeftBehind` | lamb/hook.cc:137-148 | once a hooked call has returned, no event, timer or callback of that fiber is left |
| `RuntimeInv.DequeuedIsReady` | lamb/fiber.cc:117-163 | every fiber in the queue is READY and the running one RUNNING, so the assertions of run, resume and yield hold |
| `HttpBody.DigitExact` | lamb/http/http-parser/http_parser.c:1941-1976 | a chunk-size digit counts in full or is refused: the 64-bit accumulator neither wraps nor reaches the sentinel |
| `HttpBody.StepKeepsInv` | lamb/http/http-parser/http_parser.c:1757-2045 | every byte keeps the state invariant, so the assertions on the header count, the chunked flag and the content length hold |
| `HttpBody.RunKeepsInv` | lamb/http/http-parser/http_parser.c:1757-2045 | the same for whole runs |
| `HttpRuns.RunSplit` | lamb/http/http-parser/http_parser.c:1826-2076 | running over two pieces in turn is running over their concatenation |
| `HttpRuns.SplitInvariance` | lamb/http/http-parser/http_parser.c:1826-2076 | any cutting of the input gives the same body bytes, notifications, final state and number of bytes taken |
| `HttpRuns.JumpIsSteps` | lamb/http/http-parser/http_parser.c:1873-1907 | a bulk jump over body data equals that many single steps |
| `HttpRuns.ChunkJump` | lamb/http/http-parser/http_parser.c:2007-2028 | a jump over chunk data, up to and including its end, equals single steps |
| `HttpRuns.LastJump` | lamb/http/http-parser/http_parser.c:1886-1904 | a jump to the end of an identity body delivers it and completes the message |
| `HttpRuns.EofIsSteps` | lamb/http/http-parser/http_parser.c:1909-1914 | a body read until the connection ends delivers every byte |
| `HttpParsers.HttpParser.Execute` | lamb/http/http-parser/http_parser.c:638-2084 | the pointer loop with bulk jumps and delayed data callbacks equals stepping byte by byte: same state, same reports with fragments merged, same bytes consumed; data is lost if and only if the call fails in strict mode on a byte that is not its first and right after chunk data, and what is lost is the data its reports would have ended with |
| `HttpParsers.HttpParser.ExecuteAll` | lamb/http/http-parser/http_parser.c:638-2084 | a series of calls with any non-empty pieces equals one call with all of them, except for the data that the failing call loses |
| `HttpParsers.OneLeftLoses` | lamb/http/http-parser/http_parser.c:2007-2036 | in strict mode, with one byte of the chunk left, the bytes 97 and 98 in one call lose the first |
| `HttpParsers.CutMatters` | lamb/http/http-parser/http_parser.c:2007-2036 | the same two bytes report nothing in one call and the first of them in two calls |
| `HttpRuns.StateAtIsRun` | lamb/http/http-parser/http_parser.c:1826-2076 | the state before byte p, as the loss condition names it, is where the run over the first p bytes ends |
| `HttpParsers.HttpParser.ExecuteEof` | lamb/http/http-parser/http_parser.c:660-679 | the end of input completes a message only when its body runs to the end of the connection, and is an error inside any other message |
| `HttpChunks.NeedsEofMeans` | lamb/http/http-parser/http_parser.c:2088-2108 | after the headers, no bytes whatever complete the message if and only if it needs the end of the connection and was not upgraded; then every byte is delivered as data |
| `HttpParsers.HttpParser.OnEndOfHeaders` | lamb/http/http-parser/http_parser.c:1757-1824 | the end of headers or trailers does what the byte machine does, callback results included |
| `HttpParsers.HttpParser.OnHeadersDone` | lamb/http/http-parser/http_parser.c:1826-1871 | the choice between no body, chunks, known length and end of connection is that of the byte machine |
| `HttpParsers.HttpParser.JumpChunk` | lamb/http/http-parser/http_parser.c:2007-2028 | marking and jumping keeps the run on course, with the length assertions proved |
| `HttpParsers.HttpParser.JumpIdentity` | lamb/http/http-parser/http_parser.c:1873-1907 | the same for identity bodies, completing the message at their end |
| `HttpParsers.HttpParser.TakeAfterData` | lamb/http/http-parser/http_parser.c:2030-2036 | the pending data is reported when the byte after a chunk is accepted |
| `HttpChunks.SizeRuns` | lamb/http/http-parser/http_parser.c:1925-1976 | a chunk size of any number of digits is read exactly, and accepted if and only if it is at most 2 to the 64 minus 17 |
| `HttpChunks.ChunkRuns` | lamb/http/http-parser/http_parser.c:1925-2045 | one encoded chunk yields its header, its data and its end, and the next chunk may start |
| `HttpChunks.ChunkedRoundTrip` | lamb/http/http-parser/http_parser.c:1916-2045 | an encoded list of non-empty chunks is taken whole: the data delivered is their concatenation and the message completes once |
| `HttpChunks.DigitsAre` | lamb/http/http-parser/http_parser.c:224-233 | a byte counts as a digit of a chunk size if and only if it is a hexadecimal digit or above 127, where its value is zero |
| `HttpChunks.NonAsciiEndsMessage` | lamb/http/http-parser/http_parser.c:1925-2003 | a size line made of one byte above 127 is the last chunk and ends the message |
| `HttpChunks.CanonicalFits` | lamb/http/http-parser/http_parser.c:154-161 | sizes written in plain hexadecimal fit every header limit from 18 bytes on, exactly up to the largest accepted size |
| `HttpChunks.IdentityRoundTrip` | lamb/http/http-parser/http_parser.c:1851-1904 | a body of the announced length is delivered whole, the message completes once, and no further byte is taken |
| `HttpChunks.ContentLength` | lamb/http/http-parser/http_parser.c:1423-1564 | a Content-Length value is accepted if and only if it is digits and trailing spaces worth at most 2 to the 64 minus 7, and read exactly |
| `UrlStates.UrlForward` | lamb/http/http-parser/http_parser.c:490-636 | the URL machine only goes forward, and a byte outside every field is a delimiter |
| `UrlStates.HostForward` | lamb/http/http-parser/http_parser.c:2176-2256 | the same for the host machine |
| `UrlParser.SplitUrl` | lamb/http/http-parser/http_parser.c:2358-2418 | refused exactly when the machine dies; each field covers exactly the bytes the machine gave it |
| `UrlParser.SplitHost` | lamb/http/http-parser/http_parser.c:2258-2338 | accepted exactly when the host machine may end there; userinfo, host and port cover exactly their bytes |
| `UrlParser.ReadPort` | lamb/http/http-parser/http_parser.c:2445-2462 | the port is the decimal value of its digits, refused above 65535 |
| `UrlParser.ParseUrl` | lamb/http/http-parser/http_parser.c:2345-2466 | up to 65535 bytes a URL is accepted if and only if it can be read, and the reading is the only one |
| `UrlParser.Determined` | lamb/http/http-parser/http_parser.c:2345-2466 | a URL has at most one reading |
| `UrlParser.FieldPartition` | lamb/http/http-parser/http_parser.c:2258-2466 | the fields are in bounds, not empty, disjoint, contiguous and in grammar order; every other byte is a delimiter; the port is the value of its field |
| `Uris.Create` | lamb/uri.cc:8-64 | a URI is made exactly for the accepted URLs, from the texts of their fields, with the default port of the scheme |
| `Uris.PartsPrintable` | lamb/uri.cc:8-64 | every part of an accepted URL with a scheme is made of characters that its place in a URL admits |
| `Uris.PlainReadsBack` | lamb/uri.cc:88-102 | a printed URI with a plain host is accepted and reads as itself, its empty path made explicit |
| `Uris.NormalForm` | lamb/uri.cc:88-102 | printing and reading again gives the same parts if and only if every byte of the host is a host character |
| `Uris.BracketsAreLost` | lamb/uri.cc:88-102 | the URL http://[::1]/ is accepted with the host ::1, and no reading of what it prints as gives that URI |
| `Uris.OddDoesNotReadBack` | lamb/uri.cc:88-102 | no reading of a printed URI whose host is not plain gives that URI |
| `Uris.TextFits` | lamb/uri.cc:88-121 | for http, https and ws the printed text is at most one byte longer than the URL |
| `Uris.CreateTwice` | lamb/uri.cc:8-121 | creating, printing and creating again gives the same scheme, userinfo, host, port, path, query and fragment exactly for plain hosts; for http, https and ws up to 65534 bytes |
| `WsFrames.MaskedTwice` | lamb/http/ws_session.cc:172-176 | masking twice with the same key gives the data back |
| `WsFrames.FrameInverts` | lamb/http/ws_session.cc:124-186 | a sent data frame of any length field, masked or not, is received as it was sent |
| `WsFrames.StreamReceived` | lamb/http/ws_session.cc:103-196 | fragments mixed with control frames in any way are gathered into what was sent |
| `WsFrames.MessageReceived` | lamb/http/ws_session.cc:103-196 | the message is the concatenation with the first opcode that is not CONTINUE, and one answer per PING |
| `WebSocket.MaskData` | lamb/http/ws_session.cc:173-175 | the masking loop is the byte-wise exclusive or with the repeated key |
| `WebSocket.WSSendMessage` | lamb/http/ws_session.cc:200-252 | on success exactly one frame was written; an empty message fails after its head and closes the stream |
| `WebSocket.WSControl` | lamb/http/ws_session.cc:258-282 | a PING or PONG frame is written, or the stream is closed |
| `WebSocket.WSRecvMessage` | lamb/http/ws_session.cc:103-196 | the loop returns what its byte stream means, leaves the rest of the stream, has answered every PING, and closes the stream exactly when it gives up |
| `WebSocket.Exchange` | lamb/http/ws_session.cc:103-282 | fragments of 1 to 65535 bytes with any control frames in between, over streams with any partial transfers, arrive as their concatenation with one PONG per PING |
| `UrlCodec.UrlEncode` | lamb/util.cc:444-473 | the lazily created output is the encoding of the text, character by character |
| `UrlCodec.UrlDecode` | lamb/util.cc:477-506 | the scan yields what the text stands for, escapes cut short left alone |
| `UrlCodec.DecodeInvertsEncode` | lamb/util.cc:396-506 | decoding undoes encoding if and only if no space was written as a plus that is not read as one |
| `UrlCodec.SpaceBecomesPlus` | lamb/util.cc:444-506 | a space written as a plus and decoded without that mode comes back as a plus |
| `QueryParams.SameKey` | lamb/http/http.cc:54-56 | two keys are one for the map exactly when they agree up to case and up to the first NUL |
| `QueryParams.FirstWins` | lamb/http/http.cc:230 | inserting into an empty map keeps each key once, with the first value given for it |
| `QueryParams.HttpRequest.InitQueryParam` | lamb/http/http.cc:207-240 | the do-while scan inserts the decoded pairs of the query in order, once |
| `QueryParams.ScanInvertsJoin` | lamb/http/http.cc:212-236 | scanning the query written for pairs with no = in their keys inserts those pairs |
| `QueryParams.QueryRoundTrip` | lamb/http/http.cc:207-240 | for any pairs the scan gives their first-wins map, each key cut at its first =; without = in the keys that is the list itself |
| `QueryParams.QueryRoundTripIff` | lamb/http/http.cc:207-240 | the scan gives the first-wins map of the pairs if and only if no pair that is the first with its key has an = in it; for keys without NUL, if and only if no key has one |
| `QueryParams.KeyIsCut` | lamb/http/http.cc:207-240 | the key a=b with the value c comes back as the key a with the value b=c |

## Left out

- Streams.WriteFixSizeArray: asks for at most the readable bytes; beyond them the source takes the address of the first element of an empty vector.
- ByteArrays.ByteArray.Read: a read of zero bytes at the end of the memory dereferences the null current block and is excluded.
- ByteArrays.ByteArray.Clear: freeing blocks has no effect in the model; it only unlinks them.
- ByteArrays.BlocksFor: the floating-point division is exact only below 2 to the 53 bytes; the model divides exactly.
- UrlParser.ParseUrl: beyond 65535 bytes the 16-bit offsets wrap; only that fields stay in bounds is stated there.
- WebSocket.WSSendMessage: payloads of 65536 bytes or more are excluded, because the source then sends an uninitialised length.
- WsFrames.DataAt: the sum of the gathered and the announced length is not wrapped to 64 bits.
- Timers.TimerManager.AddTimer: timers have a callback, as every caller gives one; deadlines are not wrapped to 64 bits.
- HttpParsers.HttpParser.Execute: the request line, header fields, trailer fields and the start of the next message are not modelled; a run ends where they begin. Callbacks other than on_headers_complete succeed.
- EventRegistry.IOManager.Report: idle does not mask what epoll reports, so reported events must be registered unless none is; otherwise the source's own assertion ends the program.
- Runtime.Next: hook.cc, fiber.cc and the idle loop are modelled on values as steps of one scheduling thread; stacks and context switches are not modelled, and a fiber is only suspended by hooked calls or by scheduling itself.
- RuntimeInv.ExactlyOneWake: delEvent is a step only on events of user callbacks; on an event that a fiber waits for the claim is false, and DeletionIsSafeIff states that exactly.
- Several scheduling threads in do_io: the shared timer flag then survives a retry, and the exactly-once claim is not made.
- Prompt wake-up of idle threads: tickle may skip its pipe write, and only the epoll timeout bounds the delay.
- Reads at an explicit position away from the current block, file input and output, and hexadecimal dumps of the byte buffer.
- Fibers outside the scheduler, thread pools, mutexes, and the start and join of threads.
- HTTP request and response classes, servlets, connection pools, addresses, hashing, logging, configuration and daemons: plumbing, or easy members.
