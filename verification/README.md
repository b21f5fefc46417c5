# Foxtails: a verified model of its core

Foxtails is a small threaded HTTP/1.1 server in C. This project models five parts of it in Dafny and
proves what they promise over whole runs and over all inputs:

1. the arena allocator with nested snapshots (`Bits`, `PoolSpec`, `PoolRegions`, `PoolConservation`,
   `PoolReplay`, `PoolPacking`, `PoolFrames`, `CPool`, `PoolRunner`);
2. the worker queue and the threads around it (`WorkerQueue`, `WorkerPool`);
3. the HTTP parsers, printers and receive loop (`CStrings`, `HttpMethods`, `HttpHeaders`,
   `HttpMessages`, `HttpRoundTrip`, `HttpBytes`, `HttpBlocks`, `HttpReceive`, `HttpDangling`,
   `HttpEndToEnd`, `HttpGrammar`, `HttpResponseGrammar`);
4. the connection slots shared by event loop and workers (`Slots`, `Server`, `SlotsOnPool`);
5. the route table and the configuration lookup (`Routing`, `RoutingLines`, `Config`).

`dafny verify dfyconfig.toml` checks everything.

## How it is built

Code that updates objects in place is modelled by classes and loops and proved against a value-level
specification: `CPool.Pool` (linked blocks, interior pointers, snapshot array) against `PoolSpec`,
`WorkerQueue.Queue` (ring buffer array) against a sequence, `HttpHeaders.HeaderTable` (fixed array)
against a fold, `Server.Table` (free-list stack and client array) against `Slots`. Theorems about runs
are about the specification, and `PoolRunner.Run` carries those about the allocator over to the linked
pool: any list of operations on it ends in the state and leaves its caller with the pointers the theorems
speak of. Threads are step relations: a run is a list of steps, each enabled when
it is taken, and every theorem holds for every such list.

Conventions:

- A char stands for a byte. A C string is a sequence without NUL; a buffer may hold NULs, and `CStr`
  is the part of it that a string function sees.
- `PoolSpec` names blocks by position; a null `current` is the position behind the tail.
- Whether a system allocation succeeds is a parameter of each pool operation (`ok1`, `ok2`, in the
  order of the calls). Large blocks carry serial numbers in place of addresses.
- What arrives on a connection is a byte sequence together with a function that says how many bytes
  each `recv` finds; zero is an error or nothing to read yet, and ends the loop.
- A call of `realloc` yields a new buffer: the C standard makes every pointer into the old one
  indeterminate, wherever the new one lies.
- One worker stands for all in `Slots`; `SlotsOnPool` proves of the threads in `WorkerPool` that one
  callback runs at a time and that nothing is stored in the queue meanwhile.
- A callback looks up at most one key of the configuration; the number of lines such a lookup reads is
  a parameter of the worker pool.
- The HTTP date and whether the kernel accepts a new connection are parameters. Time is abstract in
  the idle sweep: it may remove any slot whose snapshot is alive and not in flight.

## What does not hold of the code

- The receive loop keeps the start of the body as a pointer into a buffer that it may `realloc`, and
  goes on comparing that pointer. `HttpEndToEnd.UploadDangles` is an upload of 4000 bytes and a way its
  bytes arrive in which the compared pointer is stale. `HttpDangling.DanglesIff` gives the exact
  condition for every stream of bytes: some way of arriving does that if and only if some number of
  bytes holds the head but not the whole expected body, is not all that comes, and lies in the last
  kilobyte of a buffer of 4096 bytes doubled any number of times. For what the printers print, that is a
  body and 3074 bytes in all (`HttpEndToEnd.RequestDanglesIff`, `ResponseDanglesIff`). The round trip is
  proved of the loop as written wherever the pointer does not dangle (`HttpEndToEnd.PrintSendPointParse`),
  and of a loop that keeps an offset for all messages (`HttpEndToEnd.PrintSendReceiveParse`).
- The receive loop takes a read that finds nothing for the end of the message, and client sockets do not
  block. `HttpEndToEnd.LateBodyIsLost`: every request whose body comes in a later packet than its head
  is lost that way. `HttpEndToEnd.PrintSendReceiveParse` is exact for requests with a body: they come
  back if and only if no read the loop makes comes up empty before the last byte.
- The printers build a head in 4096 bytes and add up the lengths `snprintf` would have liked to print.
  What is sent is what was meant if and only if the head is shorter than that
  (`HttpMessages.SentIffFits`); a head of 4096 bytes loses its last byte, and for a longer one the
  length left wraps and bytes are written or read out of bounds.
- The idle sweep decides from a snapshot of `in_flight`, before the current batch of events is
  dispatched. That test does not keep it off slots somebody owns: `Slots.SweepCanBreak` is a run, two
  connections and one event, that ends with a slot twice in the free list. `Slots.SweepSafeIff` gives
  the exact condition in terms of what the program keeps: the slot is alive, none of its events waits
  to be dispatched, no queue entry names it and no worker serves it. `Slots.EveryRun` assumes it; for
  every removal without it, some continuation ends with a slot twice in the free list or with a push
  that finds it full.
- `config_get` compares keys and section names of the file only up to their own length. A key that is a
  prefix of the one asked for answers in its place (`Config.KeyHides`, `Config.PortIsHidden`), and a
  section whose name is a prefix of the one asked for ends the search at the next section
  (`Config.SectionHides`, `Config.SectionIsHidden`). `Config.OwnEntryAnswers` gives the exact condition,
  for any file, under which a key gets its own entry.
- `config_get` reads past the copied line when only blanks follow a key, and past the line end when the
  value is blank; the model answers `Undefined` there. `Config.PortIsUndefined` is such a file, and
  `Config.UndefinedIff` and `Config.SearchUndefinedIff` say exactly when it happens.
- `config_get` takes the first character behind the blanks after a key for the equals sign, whatever it
  is, so a value without one loses its first character (`Config.FirstCharacterLost`).

## Model

| member | source | states |
|---|---|---|
| `Bits.MaskIsAlignUp` | include/cpool.h:263 | the mask expression rounds up to a multiple, for every power of two and every sum that fits a word |
| `Bits.AlignUpIsLeast` | include/cpool.h:263 | the rounded value is a multiple, not below the head, and no larger than any other such multiple |
| `Bits.PowerOfTwoTest` | include/cpool.h:259 | the test on align and align - 1 accepts exactly the powers of two |
| `PoolSpec.StepKeepsInv` | include/cpool.h:168-309 | every legal operation keeps the chain invariant: blocks behind the current one are empty, a null current means an exactly full tail, snapshots are ordered along both chains |
| `PoolSpec.NoWrap` | include/cpool.h:174-180 | no sum of sizes that palloc or cpool_align forms leaves a 64-bit word |
| `PoolSpec.AllocOffset` | include/cpool.h:174-184 | where every small request is served: at the current head if it fits, otherwise at the start of the next block or of a fresh one, always a fresh one from a null current; it fails only if a fresh one is needed and refused |
| `PoolSpec.AllocEffect` | include/cpool.h:174-184 | the block that serves a small request grows by exactly its size and is left exactly if it is full; at most the block it needed is appended, and no other block changes |
| `PoolSpec.LargeEffect` | include/cpool.h:135-156 | a request that no block can hold gets a large block behind the others exactly if node and data are granted |
| `PoolSpec.AlignCases` | include/cpool.h:258-269 | case by case: the block is kept, with its head rounded up, exactly if that stays inside it; otherwise, or for a null current, exactly one block is appended; what the flag means in each case |
| `PoolSpec.AlignPlaces` | include/cpool.h:258-269 | where the next small request goes: to the rounded head if it fits there, otherwise to the start of a block, and of which |
| `PoolSpec.ReleaseAt` | include/cpool.h:229-236 | large blocks are released in order, the data of each before its node |
| `PoolSpec.AlignedAlloc` | include/cpool.h:258-269 | after a successful align the next small request starts at a multiple of the alignment by every route, and the invariant holds |
| `PoolRegions.StepKeepsLedger` | include/cpool.h:168-309 | every operation keeps the regions in use below the front, in order, cut by the snapshots, and the large blocks equal to the large regions in use |
| `PoolRegions.Next` | include/cpool.h:168-309 | pool and ledger after any legal operation are in order again |
| `PoolRegions.RunIsSound` | include/cpool.h:168-309 | over every run, regions in use lie inside their blocks and are pairwise disjoint |
| `PoolRegions.StepRefines` | include/cpool.h:168-309 | every step is one of an allocator known by its promises: a new region overlaps none in use, restore gives back exactly the last frame |
| `PoolRegions.RestoreUndoes` | include/cpool.h:271-309 | whatever nested saves and restores lie between, a restore releases exactly what was handed out since its save and brings back the blocks, snapshots and large blocks of that moment |
| `PoolConservation.StepAccounted` | include/cpool.h:135-309 | every operation keeps the account of chunks obtained, held and returned |
| `PoolConservation.FreedExactlyOnce` | include/cpool.h:196-350 | after any run and teardown each chunk ever obtained, the pool record included, was returned exactly once; before, each is either held or returned |
| `PoolReplay.Replay` | include/cpool.h:243-309 | repeating the requests of a frame after restoring it yields the same small addresses and appends no block, also from a null current |
| `PoolPacking.NextFitBound` | include/cpool.h:168-186 | without align, blocks in use come first, neighbours hold more than one block together, and k >= 2 of them mean more than floor(k/2) blocks of live bytes |
| `PoolFrames.Open` | include/cpool.h:243-256 | a save opens a frame around all that is in use |
| `PoolFrames.Copy` | include/cpool.h:322-328 | a scratch copy stays inside the frame |
| `PoolFrames.Close` | include/cpool.h:271-309 | a restore leaves in use what was before the frame, at the same depth |
| `PoolFrames.Stored` | include/cpool.h:322-328 | a stored string is one more region in use and none less |
| `CPool.Pool.constructor` | include/cpool.h:204-207 | a new pool is one empty block |
| `CPool.Pool.Create` | include/cpool.h:196-217 | a pool exists exactly if both allocations succeed; otherwise what was obtained is returned |
| `CPool.Pool.AppendBlock` | include/cpool.h:158-166 | a fresh block becomes tail and current, or nothing changes |
| `CPool.Pool.AllocLargeBlock` | include/cpool.h:135-156 | the large chain grows at its tail, or what was obtained is returned |
| `CPool.Pool.Palloc` | include/cpool.h:168-186 | the linked pool changes as specified and returns the specified place; what is new in its chains is freshly allocated |
| `CPool.Pool.FindRoom` | include/cpool.h:174-177 | a block with room becomes current: this one, the next or a fresh one |
| `CPool.Pool.TakeFromCurrent` | include/cpool.h:179-184 | the head moves by the size and an exactly full block is left |
| `CPool.Pool.Pcalloc` | include/cpool.h:188-194 | requests whose product does not fit a word are refused without effect, others served |
| `CPool.Pool.Save` | include/cpool.h:243-256 | the snapshot array gains the specified mark |
| `CPool.Pool.Align` | include/cpool.h:258-269 | the linked pool changes as specified and reports failed appends; appended blocks are fresh |
| `CPool.Pool.AlignedHead` | include/cpool.h:263 | the masked 64-bit expression computes the least aligned head |
| `CPool.Pool.Restore` | include/cpool.h:271-309 | chains, snapshots and release log change as specified, with the tail found again |
| `CPool.Pool.RewindFrom` | include/cpool.h:279-288 | the loop rewinds one block and empties those behind it |
| `CPool.Pool.ReleaseFrom` | include/cpool.h:295-301 | the loop returns data and node of every block from a place on, in order |
| `CPool.Pool.Tail` | include/cpool.h:306-308 | the loop ends at the tail of the chain |
| `CPool.Pool.Reset` | include/cpool.h:219-241 | all blocks are empty, all large blocks returned, no snapshot is left |
| `CPool.Pool.Uninit` | include/cpool.h:330-350 | every small block, every large block and the record are returned |
| `PoolRunner.Run` | include/cpool.h:168-309 | any list of operations carried out on the chains stops at the same failing assertion as the specification, or ends in its state, and then the pointers the caller is left with are the regions of its ledger |
| `PoolRunner.PointersSound` | include/cpool.h:168-309 | those pointers lie inside the pool and do not overlap |
| `PoolRunner.Lifetime` | include/cpool.h:196-350 | after any run and the teardown of the chains, every chunk obtained has been returned exactly once |
| `WorkerQueue.IndexOf` | utils/workers.c:155 | the modulo index is the i-th place behind the head |
| `WorkerQueue.Queue.constructor` | utils/workers.c:62-76 | an empty ring of eight slots, nothing copied |
| `WorkerQueue.Queue.Grow` | utils/workers.c:144-160 | the doubling copy keeps the sequence of actions |
| `WorkerQueue.Queue.Enqueue` | utils/workers.c:139-174 | the action is appended, its payload over the bytes left in the slot, or dropped with nothing changed when growth is refused; presence flags mark exactly the live window; growth copies the queued actions into twice the slots, and stays amortised |
| `WorkerQueue.Queue.Store` | utils/workers.c:164-172 | the tail slot takes the action; the bytes behind the payload are the stale ones |
| `WorkerQueue.Queue.Dequeue` | utils/workers.c:44-48 | the oldest action is taken and its slot locked |
| `WorkerQueue.Queue.Finish` | utils/workers.c:52 | only the slot's lock changes |
| `WorkerQueue.GrowthIsAmortised` | utils/workers.c:143-162 | copies stay below two per dispatch, all arrays together below two of the current size |
| `WorkerPool.StepInv` | utils/workers.c:26-55 | every step of every thread keeps mutual exclusion, order, and the wakeup invariant |
| `WorkerPool.NeverContinues` | utils/workers.c:39-42 | the early continue is unreachable |
| `WorkerPool.EveryRun` | utils/workers.c:26-60 | in every interleaving: executed then queued equals stored in order, callbacks exclude each other, no wakeup is lost, nobody sleeps after the broadcast; with the snapshots the callback opens for configuration lines, depth is 0 at the loop head and at most 2, every save finds room and every restore a snapshot |
| `WorkerPool.EveryRequest` | utils/workers.c:139-174 | in every interleaving, executed then queued are the very actions the dispatchers were called with, of those stored, in order |
| `WorkerPool.EverySignal` | utils/workers.c:149-175 | a dispatcher signals exactly once for every action it stores and for none it drops |
| `WorkerPool.NothingAfterShutdown` | utils/workers.c:33-37 | once shutdown is flagged no action is taken any more |
| `WorkerPool.StepRanks` | utils/workers.c:26-60 | every step that brings no new work lowers the rank |
| `WorkerPool.RestMeansDone` | utils/workers.c:26-60 | a pool in which only the environment can move has every worker asleep over an empty queue, or has shut down with every worker gone |
| `WorkerPool.EveryRunDrains` | utils/workers.c:120-176 | once nothing new arrives every schedule comes to rest within its rank, with all stored actions executed, or after shutdown a prefix of them |
| `HttpMethods.FromName` | utils/http.c:14-37 | only a method's own name reads as that method |
| `HttpMethods.NameRoundTrip` | utils/http.c:14-52 | every method's name reads back as it |
| `CStrings.NumberRoundTrip` | utils/http.c:181 | a printed length reads back through strtoul, behind blanks and before anything that is no digit |
| `CStrings.NumbersAre` | utils/http.c:181 | what strtoul and atoi make of blanks, a sign, digits and anything behind them, saturation and wrapping included |
| `CStrings.NoNumber` | utils/http.c:181 | what is no number reads as zero |
| `CStrings.TokensAre` | utils/http.c:166 | what strtok yields: delimiters in front do not matter, words up to a delimiter or the end are tokens |
| `CStrings.SameNameIff` | utils/http.c:100 | names are the same if they differ at most in the case of letters |
| `HttpHeaders.HeaderTable.SetHeader` | utils/http.c:98-116 | a known name gets the value, a new one is appended while there is room; the flag tells whether it is stored |
| `HttpHeaders.HeaderTable.GetHeader` | utils/http.c:118-125 | the value of the first entry of that name ignoring case |
| `HttpHeaders.HeaderTable.ParseBlock` | utils/http.c:164-178 | the strtok loop fills the table line by line |
| `HttpHeaders.TableIsLastWins` | utils/http.c:98-178 | the table is the first 32 distinct names in order of first occurrence, each with its last value, without duplicates |
| `HttpBlocks.LineHeaderIs` | utils/http.c:167-177 | a name, a colon, any number of spaces and a value, with or without CR, is that header |
| `HttpBlocks.NoColonSkipped` | utils/http.c:170-171 | a line without a colon changes nothing |
| `HttpBlocks.HeadersAre` | utils/http.c:151-165 | the headers are those of the lines before the first blank line, up to a NUL |
| `HttpBlocks.NoBlankLine` | utils/http.c:154-162 | without a blank line all is header block and there is no body |
| `HttpBlocks.DeclaredLengthIs` | utils/http.c:180-181 | the declared length is what the first Content-Length spells, or zero |
| `HttpBlocks.BodyAre` | utils/http.c:183-190 | the body is as much of what follows the blank line as was declared, or all of it |
| `HttpGrammar.FirstLineIs` | utils/http.c:136-147 | the first line is what stands before the first LF, without one CR before it |
| `HttpGrammar.FirstLineSplits` | utils/http.c:136-147 | a buffer is its first line, the line end and the rest |
| `HttpGrammar.BlockEndIsFirst` | utils/http.c:149-162 | the header block ends at the first blank line of either style, and the body starts behind it; without one there is no body |
| `HttpMessages.Snprintf` | utils/http.c:374-387 | what the buffer holds after printing at any length that fits it, truncation included |
| `HttpMessages.SendRequest` | utils/http.c:371-412 | what is sent of every request, whatever the length of its head: the printed bytes, or a head without its last byte, or nothing in bounds |
| `HttpMessages.SendResponse` | utils/http.c:299-347 | the same for every response, with a default content type |
| `HttpMessages.SentIffFits` | utils/http.c:371-390 | what is sent is what was printed exactly if the head is shorter than the buffer |
| `HttpBytes.RequestBytes` | utils/http.c:374-384 | a request on the wire, byte by byte |
| `HttpBytes.ResponseBytes` | utils/http.c:306-319 | a response on the wire, byte by byte, with a content type added exactly if it has none |
| `HttpRoundTrip.FirstBlank` | utils/http.c:153-158 | the first blank line of a printed message is the one behind its head |
| `HttpRoundTrip.HeadersOfPrinted` | utils/http.c:164-178 | printed headers read back as they were |
| `HttpRoundTrip.RequestRoundTrip` | utils/http.c:198-246 | a printed request, whatever follows, parses to the same method, path and body, and to its length followed by its own headers in order, but for a length of its own |
| `HttpRoundTrip.ResponseRoundTrip` | utils/http.c:248-347 | a printed response parses to the same code, reason and body, and to its date, server and length followed by its own headers in order and, exactly if it has none, a plain-text content type |
| `HttpRoundTrip.HeadResponseRoundTrip` | utils/http.c:248-347 | a response that announces a length without a body parses to one without a body |
| `HttpReceive.Receive` | utils/http.c:349-369 | with an offset for the body: the loop stops after the first call that completes the message, or before the first that finds nothing, and returns what has arrived |
| `HttpReceive.ReceiveByPointer` | utils/http.c:349-369 | with the pointer as written: it compares a dangling pointer exactly if a call succeeds after the head was moved, and otherwise receives the same message |
| `HttpReceive.WhyItStops` | utils/http.c:355-365 | the message is complete, the next call finds nothing, or all there is has arrived |
| `HttpReceive.HeadIsStable` | utils/http.c:357-363 | more bytes move neither the end of the head nor the length it announces |
| `HttpDangling.AnnouncesNothing` | utils/http.c:351-363 | a head without a Content-Length announces nothing |
| `HttpDangling.AnnouncesFirst` | utils/http.c:361-362 | otherwise the number behind the first one is announced |
| `HttpDangling.LengthlessStops` | utils/http.c:355-366 | for a message that declares no length the loop stops after the first call at which its blank line has arrived, and no way of arriving makes the pointer dangle |
| `HttpEndToEnd.CompleteIffArrived` | utils/http.c:355-366 | a framed message is complete exactly when head and expected body have arrived |
| `HttpDangling.DanglesIff` | utils/http.c:355-366 | for every stream, some arrival pattern makes the pointer dangle if and only if a number of bytes exists at which head but not body is there, more is to come and the buffer is moved |
| `HttpEndToEnd.WholeIffUninterrupted` | utils/http.c:355-366 | the loop ends with all that is needed exactly if no read it makes comes up empty before |
| `HttpEndToEnd.CutNeverParses` | utils/http.c:198-246 | a printed request with a body, cut anywhere, is not read back |
| `HttpEndToEnd.PrintSendReceiveParse` | utils/http.c:149-246 | print, cut anywhere, receive, parse is the identity for every printable request, all trailing bytes and every arrival pattern in which no read comes up empty before the last byte; with a body, only then |
| `HttpEndToEnd.LateBodyIsLost` | utils/http.c:355-366 | every request whose body is not there at the read after the head is interrupted |
| `HttpEndToEnd.PrintSendPointParse` | utils/http.c:349-412 | the same through the loop as written, which dangles exactly if a call succeeds after the head was moved |
| `HttpEndToEnd.RequestDanglesIff` | utils/http.c:357-365 | some arrival pattern, even one without an empty read, makes the pointer dangle if and only if the request has a body and its printed form is 3074 bytes or longer |
| `HttpEndToEnd.UploadDangles` | utils/http.c:364-365 | a concrete request and arrival pattern with a dangling pointer |
| `HttpEndToEnd.RespondSendReceiveParse` | foxtails/src/worker_loop.c:181-190 | print, cut anywhere, receive, parse for responses that are not interrupted: code, reason and headers come back, and the body if one is expected |
| `HttpEndToEnd.ResponseDanglesIff` | utils/http.c:357-365 | the exact condition for responses, with and without an expected body |
| `HttpGrammar.AcceptedIffRequest` | utils/http.c:198-246 | a buffer is accepted exactly if it is a request line ended by LF or CRLF and something behind it, and what it is parsed to |
| `HttpGrammar.RefusalsExact` | utils/http.c:201-239 | each of the four refusals happens exactly for its own reason |
| `HttpGrammar.AcceptedShape` | utils/http.c:198-246 | accepted requests have at most 32 headers of different names and a body that is a piece of the buffer no longer than declared |
| `HttpResponseGrammar.AcceptedIffResponse` | utils/http.c:248-296 | a buffer is accepted exactly if it is a status line of this version ended by LF or CRLF and something behind it, and what it is parsed to, long code words included |
| `HttpResponseGrammar.ResponseRefusalsExact` | utils/http.c:251-281 | bad gateway exactly for no line end or too few words, and another version exactly for another first word |
| `Slots.StepInv` | utils/server.c:98-164 | every step with an unowned sweep keeps the slot invariant |
| `Slots.RoomToPush` | utils/server.c:17-24 | a slot that is not free always finds room in the free list |
| `Slots.EveryRun` | foxtails/src/main.c:66-113 | over every interleaving with an unowned sweep: distinct free entries, free and alive partition the table, a slot is queued or served at most once, copies name the slot's connection, pushes find room |
| `Slots.SweepSafeIff` | foxtails/src/main.c:75-90 | a sweep removal finds room and no continuation ever frees a slot twice or is refused a push, exactly if the slot is alive, not in the batch, not queued and not served |
| `Slots.OwnedBreaks` | foxtails/src/main.c:75-112 | a sweep removal of any other slot is refused at once or has a continuation that ends in disorder |
| `Slots.UnownedIffArmed` | foxtails/src/main.c:75-90 | in every reachable state those are the slots waiting in the kernel |
| `Slots.SweepCanBreak` | foxtails/src/main.c:75-112 | a concrete run of the code that puts a slot into the free list twice |
| `SlotsOnPool.StepProjects` | utils/workers.c:26-55 | every step of every thread is, for the slots, an action stored while no callback runs, the oldest one taken while none runs, the callback's end, or nothing |
| `SlotsOnPool.StepAgrees` | foxtails/src/worker_loop.c:225-284 | queue and worker of the slots follow the threads through taking, storing and ending |
| `Server.IntStack.Push` | utils/server.c:17-24 | the value goes on top, or the stack is full and unchanged |
| `Server.IntStack.Pop` | utils/server.c:26-32 | the top comes off, or -1 from an empty stack |
| `Server.Table.constructor` | utils/server.c:66-78 | the free list holds every slot, 0 on top; list and table are those of the initial state |
| `Server.Table.Append` | utils/server.c:98-151 | exhausted, refused by the kernel or accepted, with the exact new list and table |
| `Server.Table.AcceptStep` | utils/server.c:98-151 | list and table change as the accept steps of the state machine say |
| `Server.Table.Remove` | utils/server.c:153-164 | the slot is pushed and marked dead, nothing else changes, as in the removing steps of the state machine |
| `Server.Table.SetInFlight` | foxtails/src/main.c:96-98 | the flag changes as in the marking and clearing steps |
| `Server.Table.Snapshot` | foxtails/src/main.c:76-78 | the sweep sees the slot as it is |
| `Routing.ParseMethods` | utils/routing.c:35-49 | a mask exists exactly for well-formed lists and holds exactly the listed methods |
| `Routing.FindWords` | utils/routing.c:99-109 | the first four words are found where they are, or there are fewer |
| `Routing.ParseLine` | utils/routing.c:93-142 | a line yields a route exactly if it defines one, with the words as strings although the copy was released; every exit restores the snapshot, and the pool is as before |
| `Routing.ParseRoutes` | utils/routing.c:78-144 | the table is the defining lines in order for which the array could grow; only two strings per definition stay in use |
| `Routing.AllStored` | utils/routing.c:16-26 | with memory for the array, every definition is in the table |
| `Routing.Fetch` | foxtails/src/worker_loop.c:206-223 | the first route that hits, or none |
| `Routing.RouteRequest` | utils/routing.c:84-144 | from text to handler: the route of the first answering line that could be stored, otherwise static serving |
| `RoutingLines.KindIs` | utils/routing.c:28-33 | the three kinds are the three names, in any case of letters |
| `RoutingLines.RouteLineDefines` | utils/routing.c:99-136 | four words with blanks between them define a route exactly if the third is a kind and the first a list of methods, and which route |
| `RoutingLines.RouteLineAnswers` | foxtails/src/worker_loop.c:209-220 | and it answers its methods for its path, a proxy also for paths that start with it |
| `RoutingLines.EveryMethod` | utils/routing.c:36 | a star and ALL stand for every method |
| `RoutingLines.TwoMethods` | utils/routing.c:38-48 | two names with a comma and blanks allow those two methods |
| `RoutingLines.UnknownMethod` | utils/routing.c:43-45 | a list with an unknown name is refused |
| `Config.Get` | utils/config.c:63-137 | something is found exactly if a line answers, and it is what is on that line; every path balances its snapshots, at most one per line, and leaves only the returned string |
| `Config.InsideLine` | utils/config.c:83-115 | what a line of the section does to the search, with the restore on each of its exits |
| `Config.OutsideLine` | utils/config.c:117-132 | what a line before the section does, with the restore on each of its exits |
| `Config.ReadValue` | utils/config.c:99-111 | the value is found in the copy and read again from the text after the copy was released |
| `Config.SkipBlanks` | utils/config.c:106-110 | offset and length stay in step, and the length wraps exactly if the blanks reach the line end |
| `Config.SearchMeaning` | utils/config.c:69-136 | the line-by-line search is the first answering entry of the first matching section, for every file |
| `Config.OtherLines` | utils/config.c:84-121 | which lines open a section, close its name and have a key |
| `Config.OwnEntryAnswers` | utils/config.c:83-130 | in any file, a key's own entry answers exactly if no earlier section name is a prefix of its section's, or unclosed, and no earlier key of the section is a prefix of the key, nor a line without one; otherwise the answer does not depend on the entry |
| `Config.ValueRead` | utils/config.c:99-111 | the value behind key, blanks, one character and blanks |
| `Config.UndefinedIff` | utils/config.c:99-111 | the value is undefined exactly if only blanks follow the key, or the line has no NUL and at most one character behind the key that is not blank |
| `Config.SearchUndefinedIff` | utils/config.c:98-111 | the lookup is undefined exactly if the answering line is such a line |
| `Config.KeyHides` | utils/config.c:98 | a key that is a prefix of the one asked for answers in its place |
| `Config.PortIsHidden` | utils/config.c:98 | a concrete section in which the port is looked up wrongly |
| `Config.SectionHides` | utils/config.c:127 | a section whose name is a prefix of the one asked for makes the search end at the next section |
| `Config.SectionIsHidden` | utils/config.c:127 | a concrete file whose port is not found |
| `Config.PortIsUndefined` | utils/config.c:99-110 | a concrete file whose port makes the code read past the line |
| `Config.FirstCharacterLost` | utils/config.c:99-107 | without an equals sign the value loses its first character |
| `Config.FileIsRead` | utils/config.c:63-137 | two sections, an empty line, a comment and blanks around the equals sign are read as meant |

## Left out

- `CPool.Pool.Palloc`: says where bytes are, not what they hold; copying in the string helpers is not modelled.
- `CPool.Pool.Pcalloc`: says where bytes are, not that they are zero.
- `CPool.Pool.constructor`: is the part of cpool_init behind its two allocations; `Create` has their failures.
- `WorkerQueue.Queue.Enqueue`: capacities are unbounded; doubling past the range of an unsigned int is not modelled.
- `HttpMessages.SendResponse`: partial sends are not modelled, nor a refused copy of head and body.
- `HttpReceive.ReceiveByPointer`: ends with `Dangling` when it compares a stale pointer; what the code does from there on is undefined.
- `HttpReceive.Receive`: reads the announced number inside the head only; a blank Content-Length, behind which strtoul would run on into the body, is not modelled.
- `HttpRoundTrip.ResponseRoundTrip`: status codes beyond the range of int are excluded; atoi is unbounded in the model.
- `Slots.EveryRun`: assumes that the sweep removes only unowned slots, which the code does not ensure.
- Socket creation, connecting, timeouts and accept errors: system calls.
- epoll beyond one-shot arming, firing, re-arming and deletion.
- MIME tables, canned error responses and keep-alive detection: fixed tables and one string comparison, on which no step modelled here depends.
- Opening and mapping files, path resolution and static file serving: file-system calls.
- Proxying to a backend beyond its printed request and parsed response.
- Logging, signal handling, process start and the order of shutdown in server_delete.
