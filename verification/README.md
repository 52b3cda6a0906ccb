# XWebServer, verified

XWebServer is a small reactor HTTP server in C++: one thread accepts connections, collects events from
epoll and keeps the timer; a pool of workers reads, parses, answers and writes. This project models its
hard parts in Dafny and proves what they are for. Each file follows one component and has the component's
own form: objects with fields that methods update, loops where the source loops, and functions that say
what the methods compute. Lemmas about those functions carry the theory.

| file | component |
|---|---|
| `Options.dfy`, `CInts.dfy` | absent values; conversions between `size_t` and `int` |
| `Timer.dfy`, `HeapTimer.dfy`, `TimerRuns.dfy` | the indexed timer heap: as a value, as an object, and over whole runs |
| `Buffer.dfy` | the byte buffer, and the kernel's side of a connection |
| `HttpRequest.dfy` | the request parser, and a printer it is the inverse of |
| `Webbench.dfy`, `Benchmark.dfy` | the benchmark's request builder over C arrays, and its text read back by the server |
| `HttpResponse.dfy` | responses, and a client that reads them by announced length |
| `Talk.dfy`, `HttpConn.dfy` | what a connection hears and says, as a value and over runs; the connection object: read, answer, gather-write |
| `ThreadPool.dfy` | the worker pool as a monitor |
| `BlockDeque.dfy`, `Log.dfy`, `AsyncLog.dfy` | the bounded queue as a monitor, and the log over it |
| `ServerSpec.dfy`, `HttpServer.dfy` | the life cycle of connections as a step system; the server's handlers and its loop |
| `SiteSpec.dfy`, `Site.dfy` | server and connections together: as values over runs, and as objects |

## How to read it

**Timer.** The vector and the map `ref_` are fields; `SwapNode` keeps `ref_` the exact inverse of the
vector. `View()` forgets the heap and keeps a map from id to node; every operation is stated on it.
The order proofs rest on two facts: a node that sifts down never also has to go up (ties included, since
both loops stop only on strict `<`), and with one fixed timeout no stored deadline is ever more than one
timeout ahead, so that `adjust` may sift down only.

**Monitors.** A step is what one thread does between taking a mutex and giving it up, or one call on a
condition variable. Steps of all threads interleave freely and spurious wakeups are steps. The objects'
methods are proved to take exactly these steps.

**Server.** The step system has one step for each handler, for the end of a task, for a timer that fires
and for time passing; a connection's owner is its armed registration, its undelivered event, or its queued
or running task. The methods of `HttpServer` are runs of these steps; `Turn` is a turn of the loop in
`Start`, with the workers going on between any two of its parts.

**Bytes.** `Socket` is the kernel: `Readv` and `Writev` return any result their manual pages allow. A `Talk`
is what one connection has heard and said: every byte that arrived, the texts its requests were parsed
from, the replies, what is unsent and the wire. `Accounted` says that the texts are consecutive stretches
of what arrived, each used up by its request, and that the wire is a part of the replies to them, in
order. `ReadStep` and `WriteStep` are all that a readiness event may do; `OnRead` and `OnWrite` are proved
to do exactly that, without any assumption about what went before.

**Site.** A move of the site is a run of the main thread, a client accepted, bytes arriving, or a worker's
task run to its end. `SiteSpec.EveryRun` is the claim over all runs of moves; the methods of `Site` are
proved to take exactly these moves on the objects, and to leave every other connection as it was.

## Assumptions

- The clock never goes back. `high_resolution_clock` does not promise that everywhere.
- `accept` returns only descriptors that are not open, and epoll reports a one-shot descriptor once until
  it is armed again, for the direction it was armed for, or for an error or hangup.
- The timer does not fire on a connection whose task is queued or running (`Prompt`, `Taskless`).
  `FireKeepsInvIff` shows that nothing less will do, `FireDuringTaskBreaks` gives the run. `Turn` returns whether
  it held, and is not followed further when it did not.
- `CloseConn` is atomic. Data that arrives during a `Read` call counts for the next event.
- The pool is destroyed only after the owner's calls of `AddTask` have returned.
- A mapped file is the non-empty regular file that `stat` saw.

## Where the code differs from what it means to do

Each of these is a result here: what the code does, and exactly when that is right.

- `siftup_` tests `j >= 0` on a `size_t` (src/timer/timer.cc:6). `SizeTGuardIsSafeIff`: the loop stays inside the vector
  exactly when the node is strictly later than the root; the very first `add` is a case where it does not.
  The methods use the guard that is meant, `i > 0`.
- `GetNextTick` clamps a `size_t` (src/timer/timer.cc:121-126). `SizeTClampIsRightIff` says when the result is the intended
  one; a deadline that passes by a whole millisecond between the two clock readings gives a negative wait.
  The method clamps a signed value.
- `adjust` only sifts down. `ExtendedKeepsOrderIff`: right exactly when the node is not to be earlier than its
  parent; `ShorterTimeoutBreaksOrder` shows two timeouts at work.
- `Process` sets the second vector only for a file, and neither it nor `Init` resets it; at construction it holds
  whatever the memory holds. Such a length is never sent, but it is counted. `GoesOnIff`: with everything sent, a
  connection goes on to the next request exactly when the client wants that and the length left over is a
  multiple of 2^32, 0 in practice; so what the reply said of the connection is true exactly then
  (`PromiseIsKeptIff`). `ReuseAfterHangup` gives the run: a file's length outlives a client that hung up, and
  the next client on that descriptor gets a whole reply without a file and is closed, although it asked to
  be kept alive. A completed write of a reply with a file leaves the vector empty (`NothingLeft`).
- `ToWriteBytes` converts to a 32-bit `int`: it is 0 exactly when unsent and stale bytes together are a multiple
  of 2^32 (`CountIs`). So a write that the kernel stops with EAGAIN can close the connection in the middle of a
  reply (`ClosesEarlyIff`), or turn to the next request there (`CutShortIff`), exactly when that many bytes are
  unsent; `LongFileIsCutShort` gives the runs, from a client's first request for a file of 2^32 bytes. Below
  that the code closes only after a full send or another error (`ClosesRightly`, and `RunsCloseRightly` over
  every run; exactly when it closes is `WritesCloseIff`). Nothing is assumed about sizes; the field `intact`
  records that nothing unsent was taken for sent, and a bound on the files is enough for that (`Short`,
  `WriteStaysFitting`).
- A body without a line end is read but stays in the buffer, where the next request of a kept-alive
  connection begins (`BodyReadBack`).
- The test for a failed `mmap` reads the file's first `int` (src/http/http_response.cc:115). `FileIsServedIff`: a file that opens is
  served exactly unless its first four bytes are all 0xff.
- The error page looks up a comparison instead of the code (src/http/http_response.cc:159).
  `ErrorStatusIsRightIff`: its status text is that of the code exactly for 400.
- The benchmark's HTTP/0.9 line is no request line to this server, unless the path itself carries a protocol
  (`BareLineIsAcceptedIff`); in HTTP/1.0 and 1.1 a URL with a space in its path is refused (`BenchmarkIsReadBackIff`).

## Model

| member | source | states |
|---|---|---|
| `TimerHeap.SiftedUpKeepsNodes` | src/timer/timer.cc:3-12 | Sifting up permutes the nodes and leaves everything behind the start in place |
| `TimerHeap.SiftedDownKeepsNodes` | src/timer/timer.cc:22-35 | Sifting down permutes the nodes, stays within the first n, and changes nothing when it does not move |
| `TimerHeap.SiftedUpOrders` | src/timer/timer.cc:3-12 | If only the edge above a node may be wrong, sifting up restores the whole order |
| `TimerHeap.SiftedDownOrders` | src/timer/timer.cc:22-35 | Sifting down repairs every edge but the one above the start, and that one too whenever the node moved, ties included |
| `TimerHeap.SwapDownKeepsAround` | src/timer/timer.cc:27-31 | One swap with the smaller child moves the only place of disorder one level down |
| `TimerHeap.ResiftedOrders` | src/timer/timer.cc:52-54 | Down, or else up, restores the order around any one changed node |
| `TimerHeap.ResiftedKeepsNodes` | src/timer/timer.cc:76-81 | Re-sifting permutes the first n nodes and leaves the rest |
| `TimerHeap.InsertedKeeps` | src/timer/timer.cc:40-46 | Inserting keeps the order and adds exactly one node |
| `TimerHeap.RekeyedKeeps` | src/timer/timer.cc:47-55 | Re-keying any node keeps the order and replaces exactly that node |
| `TimerHeap.SwapWithLastIsAround` | src/timer/timer.cc:76-77 | Moving the last node into a gap leaves only the edges at the gap in doubt |
| `TimerHeap.DeletedKeeps` | src/timer/timer.cc:69-85 | Deleting at any index keeps the order and removes exactly that node |
| `TimerHeap.ExtendedKeepsOrderIff` | src/timer/timer.cc:87-92 | Changing a deadline with a sift down alone keeps the order if and only if the new deadline is not before the parent's |
| `TimerHeap.RootIsMinimum` | src/timer/timer.cc:94-112 | No node is earlier than the root |
| `TimerHeap.SizeTGuardIsSafeIff` | src/timer/timer.cc:3-12 | With the guard as written the loop stays inside the vector if and only if the node is strictly later than the root, and then does what is meant |
| `TimerHeap.FirstAddLeavesTheVector` | src/timer/timer.cc:37-46 | The first node added to an empty timer makes the loop index outside |
| `TimerHeap.SizeTClampIsRightIff` | src/timer/timer.cc:119-127 | When the clamp on a `size_t` gives the wait that is meant, exactly, and that it otherwise can return a negative wait |
| `Timers.EntryOf` | src/timer/timer.cc:14-20 | While `ref_` is the inverse of position, each node occurs once and is found under its id |
| `Timers.InsertingMeets` | src/timer/timer.cc:40-46 | Inserting is: one more id in the map, all others as they were |
| `Timers.RekeyingMeets` | src/timer/timer.cc:47-55 | Re-keying is: one id overwritten |
| `Timers.DeletingMeets` | src/timer/timer.cc:69-85 | Deleting is: one id removed |
| `Timers.ExtendingMeets` | src/timer/timer.cc:87-92 | Extending is: one deadline changed; the heap stays ordered whenever it gets no earlier |
| `Timers.FiringMeets` | src/timer/timer.cc:94-107 | What is left after firing some nodes is the map without their ids, and no id fires twice |
| `Timers.FireFirst` | src/timer/timer.cc:99-106 | Firing the root keeps the record of fired nodes: due, earliest first, before all that remain |
| `Timers.HeapTimer.SwapNode` | src/timer/timer.cc:14-20 | Swapping two nodes keeps `ref_` the exact inverse of position |
| `Timers.HeapTimer.SiftUp` | src/timer/timer.cc:3-12 | The loop computes `SiftedUp`, index in step |
| `Timers.HeapTimer.SiftDown` | src/timer/timer.cc:22-35 | The loop computes `SiftedDown`, index in step, and returns whether the node moved |
| `Timers.HeapTimer.Resift` | src/timer/timer.cc:52-54 | Down, and up only when that did not move the node, index in step |
| `Timers.HeapTimer.Add` | src/timer/timer.cc:37-56 | Inserts or overwrites exactly one id, with deadline now plus timeout; the invariant holds |
| `Timers.HeapTimer.DoWork` | src/timer/timer.cc:58-67 | Fires and removes one id if it is there, and nothing else |
| `Timers.HeapTimer.Del` | src/timer/timer.cc:69-85 | Removes exactly the node at any index; the invariant holds |
| `Timers.HeapTimer.Adjust` | src/timer/timer.cc:87-92 | Changes exactly one deadline; the invariant holds if and only if the node need not rise, so always when the deadline gets no earlier |
| `Timers.HeapTimer.Pop` | src/timer/timer.cc:109-112 | Removes a minimum |
| `Timers.HeapTimer.Tick` | src/timer/timer.cc:94-107 | Terminates; fires each node at most once, in order of deadline, every node due at the start, only due nodes, and leaves none that is due at the last reading |
| `Timers.HeapTimer.GetNextTick` | src/timer/timer.cc:119-127 | -1 if and only if nothing is left; otherwise a wait that is not past the earliest deadline and ends with that deadline due |
| `TimerRuns.ApplyIsSound` | src/timer/timer.cc:37-107 | With one timeout every call keeps order, distinct ids and the bound now plus timeout |
| `TimerRuns.AdjustIsSound` | src/server/http_server.cc:157-160 | The bound makes every adjust a move to a later deadline, so sifting down is enough |
| `TimerRuns.RunsAreSound` | src/timer/timer.cc:87-92 | No run of add, adjust, expiry and passing time breaks the order or the bound |
| `TimerRuns.RunsFromEmptyAreSound` | src/server/http_server.cc:119-128 | The same from an empty timer |
| `TimerRuns.ShorterTimeoutBreaksOrder` | src/timer/timer.cc:87-92 | With two timeouts in use adjust can break the order |
| `Sockets.Socket.Readv` | src/buffer/buffer.cc:91-91 | What a scattered read may return |
| `Sockets.Socket.Writev` | src/http/http_conn.cc:43-43 | What a gathered write may return |
| `Buffers.Buffer.ReadableBytes` | src/buffer/buffer.cc:5-7 | The length of the contents |
| `Buffers.Buffer.Retrieve` | src/buffer/buffer.cc:20-23 | Drops bytes from the front |
| `Buffers.Buffer.RetrieveUntil` | src/buffer/buffer.cc:25-28 | Drops the bytes before a position |
| `Buffers.Buffer.RetrieveAll` | src/buffer/buffer.cc:30-34 | Empties the buffer and keeps its size |
| `Buffers.Buffer.RetrieveAllToStr` | src/buffer/buffer.cc:36-40 | Returns the contents and empties the buffer |
| `Buffers.Buffer.HasWritten` | src/buffer/buffer.cc:50-52 | The contents grow by what was written behind them |
| `Buffers.Buffer.CopyDown` | src/buffer/buffer.cc:130-130 | The forward copy moves the bytes unharmed although source and target overlap |
| `Buffers.Buffer.MakeSpace` | src/buffer/buffer.cc:124-135 | Growing or compacting never changes the contents and always makes enough room |
| `Buffers.Buffer.EnsureWriteable` | src/buffer/buffer.cc:74-79 | Room afterwards, contents unchanged, and nothing touched when there was room |
| `Buffers.Buffer.Append` | src/buffer/buffer.cc:54-68 | The contents grow by exactly the appended bytes |
| `Buffers.Buffer.AppendBuffer` | src/buffer/buffer.cc:70-72 | The contents grow by another buffer's |
| `Buffers.Buffer.ReadFd` | src/buffer/buffer.cc:81-103 | However a read splits between room and spill area, its bytes follow the contents in order; none is lost |
| `Buffers.Buffer.Place` | src/buffer/buffer.cc:95-101 | The bytes of a scattered read land behind the contents, in order, whatever the split |
| `Requests.RequestLineSplitsIff` | src/http/http_request.cc:67-79 | A line splits into method, path and version if and only if it is their printing, without further spaces |
| `Requests.HeaderSplitsIff` | src/http/http_request.cc:81-90 | A line splits into name and value if and only if it is name, colon, at most one space and value |
| `Requests.AcceptedIff` | src/http/http_request.cc:18-51 | A text is accepted if and only if its first line is a request line |
| `Requests.FirstLineDecides` | src/http/http_request.cc:53-79 | Method, path and version of any accepted text come from its first line; `/` is `/index.html`, each of the six page names gets `.html`, every other path stays |
| `Requests.PathReadBack` | src/http/http_request.cc:53-65 | So for printed requests, whatever their headers and body |
| `Requests.UsedThenRest` | src/http/http_request.cc:23-48 | Parsing cuts a text in two: what the request uses up, and what stays in the buffer |
| `Requests.ParsedIsClean` | src/http/http_request.cc:18-97 | Whatever the text, method, path and version hold no space, names no colon, and no part a line end |
| `Requests.LastHeaderWins` | src/http/http_request.cc:85-85 | Of several headers with one name the last is kept |
| `Requests.HeadersReadBack` | src/http/http_request.cc:34-39 | Printed headers and their empty line are read as the header map |
| `Requests.BodyLineReadBack` | src/http/http_request.cc:92-97 | The body is taken up to its first line end |
| `Requests.RequestLineReadBack` | src/http/http_request.cc:28-33 | A printed request line is read back, with the path normalised |
| `Requests.PrintedIsReadBack` | src/http/http_request.cc:18-97 | Round trip: a printed request is read back whole, the parser finished, and exactly what is left in the buffer |
| `Requests.BodyReadBack` | src/http/http_request.cc:40-47 | A body without a line end is the body, whole, and also what is left in the buffer |
| `Requests.HttpRequest.Init` | src/http/http_request.cc:11-16 | A fresh request |
| `Requests.HttpRequest.ParseRequestLine` | src/http/http_request.cc:67-79 | Takes the three parts, or changes nothing |
| `Requests.HttpRequest.ParsePath` | src/http/http_request.cc:53-65 | The root becomes the index page, the page names get their suffix, other paths stay |
| `Requests.HttpRequest.ParseHeader` | src/http/http_request.cc:81-90 | Records one header, or goes on to the body |
| `Requests.HttpRequest.ParseBody` | src/http/http_request.cc:92-97 | Takes the body and finishes |
| `Requests.HttpRequest.ParseLine` | src/http/http_request.cc:26-45 | One line has the effect of `TakeLine` |
| `Requests.HttpRequest.ParseRequest` | src/http/http_request.cc:18-51 | The loop over the buffer computes `Consume`: answer, request and bytes left, for any contents and from any state |
| `Requests.KeptAliveIff` | src/http/http_request.cc:201-206 | A printed request is kept alive if and only if it is HTTP/1.1 and its last `Connection` header is keep-alive |
| `Webbench.AssembledIsPrinted` | webbench-1.5/webbench.c:269-289 | What the builder strings together is the printing of a request |
| `Webbench.DelimiterOfHttp` | webbench-1.5/webbench.c:233-239 | In an accepted URL the first `://` ends at position 7 |
| `Webbench.Builder.Bzero` | webbench-1.5/webbench.c:204-205 | Clears an array |
| `Webbench.Builder.Strncpy` | webbench-1.5/webbench.c:252-260 | Copies a host into a cleared array, terminated |
| `Webbench.Builder.Strcat` | webbench-1.5/webbench.c:263-289 | Appends behind the terminator, inside the array |
| `Webbench.Builder.Start` | webbench-1.5/webbench.c:204-221 | Protocol settled by method; GET, HEAD, OPTIONS or TRACE written as asked |
| `Webbench.Builder.CopyHost` | webbench-1.5/webbench.c:249-261 | The host goes up to the first colon or slash and not further |
| `Webbench.Builder.EndLine` | webbench-1.5/webbench.c:269-273 | The request line ends with its protocol, if any, and a line end |
| `Webbench.Builder.PutHeaders` | webbench-1.5/webbench.c:274-289 | The header lines of each protocol |
| `Webbench.Builder.WriteRest` | webbench-1.5/webbench.c:246-289 | Path, protocol and headers behind the method |
| `Webbench.Builder.BuildRequest` | webbench-1.5/webbench.c:199-291 | Refuses exactly the URLs the checks refuse; otherwise the array holds the printed request, and never overflows |
| `Webbench.BenchmarkIsReadBackIff` | src/http/http_request.cc:18-90 | The HTTP/1.0 and 1.1 texts are read back as meant, nothing left over and never kept alive, if and only if the path has no space |
| `Webbench.UrlComesApart` | webbench-1.5/webbench.c:223-265 | A URL put together from scheme, host, port and rest is taken if it has at most 1500 characters, and comes apart into that host and that rest |
| `Webbench.AskedFor` | webbench-1.5/webbench.c:207-289 | From such a URL the server reads the very method asked for, the path behind the host, the version of the method, and the host without its port; a GET in HTTP/0.9 is a bare line |
| `Webbench.BuiltIff` | webbench-1.5/webbench.c:223-245 | A URL is taken if and only if it is http in any case, a host and a slash, at most 1500 characters |
| `Webbench.RefusedIff` | webbench-1.5/webbench.c:223-245 | Which of the four refusals a URL gets, exactly |
| `Webbench.SpaceInPathRejects` | src/http/http_request.cc:67-79 | A space in the path makes the request line fail |
| `Webbench.BareLineIsAcceptedIff` | webbench-1.5/webbench.c:269-273 | The HTTP/0.9 line is accepted by the server if and only if the path ends in a space and a protocol |
| `Webbench.BareLineForm` | src/http/http_request.cc:67-79 | A bare line has the form of a request line exactly in that case |
| `Benchmark.Exchange` | webbench-1.5/webbench.c:199-291 | Builder, buffer and parser together: the request arrives as meant if and only if its path has no space; an HTTP/0.9 line only if its path carries a protocol |
| `Benchmark.Receive` | src/http/http_request.cc:18-51 | A text received into an empty buffer is parsed as that text |
| `Decimals.DecimalReadBack` | src/http/http_response.cc:121-121 | A printed number is read back |
| `Framing.HeadSplitsBack` | src/http/http_response.cc:81-122 | Lines that are not empty, and an empty line, are told from what follows |
| `Framing.MessageReadBack` | src/http/http_response.cc:64-122 | A well-framed message is read back from the front of any stream |
| `Framing.StreamReadBack` | src/http/http_conn.cc:40-94 | Any number of well-framed messages in a row are told apart again |
| `Responses.FileTypeIsLineSafe` | src/http/http_response.cc:141-152 | No path can put a line end into the head |
| `Responses.HeadIsGood` | src/http/http_response.cc:81-122 | Every line of the head is one line, and the announced length is the one given |
| `Responses.RepliesAreWellFramed` | src/http/http_response.cc:64-122 | Every response, file or error page, splits at its first empty line into a head and a body of the announced length |
| `Responses.StatusTells` | src/http/http_response.cc:64-91 | The first line says 404 if and only if the target is missing or a directory, 403 if and only if others may not read the file, and else 200 for an accepted request and 400 for a rejected one |
| `Responses.FieldsTell` | src/http/http_response.cc:93-102 | A client reads keep-alive or close as the reply was made, the keep-alive field exactly with the former, and the type of the path |
| `Responses.TypeTells` | src/http/http_response.cc:141-152 | The type for each known end of a path from its last dot on, and plain text for any other or none |
| `Responses.PageTells` | src/http/http_response.cc:154-170 | What stands for a file that cannot be had is the page with the code of the status line |
| `Responses.FileIsServedIff` | src/http/http_response.cc:104-122 | A file that opens is the body, if and only if its first four bytes are not all 0xff |
| `Responses.ReplyFits` | src/http/http_response.cc:64-122 | A reply is longer than its file by a bounded head |
| `Responses.ErrorStatusIsRightIff` | src/http/http_response.cc:159-163 | The error page names the status of its code if and only if that is 400 |
| `Responses.HttpResponse.Init` | src/http/http_response.cc:50-61 | A fresh response without a file |
| `Responses.HttpResponse.AddStateLine` | src/http/http_response.cc:81-91 | The status line, unknown codes as 400 |
| `Responses.HttpResponse.AddHeader` | src/http/http_response.cc:93-102 | The connection and type lines |
| `Responses.HttpResponse.ErrorContent` | src/http/http_response.cc:154-170 | The error page after its own length |
| `Responses.HttpResponse.AddContent` | src/http/http_response.cc:104-122 | The length of the file, which stays mapped, or the error page |
| `Responses.HttpResponse.SettleCode` | src/http/http_response.cc:66-74 | 404 for what is missing or a directory, 403 for what others may not read, else the code there was, or 200 |
| `Responses.HttpResponse.MakeResponse` | src/http/http_response.cc:64-79 | Buffer and mapped file together are one reply, appended |
| `Responses.HttpResponse.AddLines` | src/http/http_response.cc:76-78 | State line, header and content together are the message for the settled code |
| `ThreadPools.ApplyKeepsInv` | include/thread_pool/thread_pool.hpp:58-98 | Every step keeps: added = dispatched ++ queue, each task in one place, a wakeup under way for each queued task while anyone sleeps, exits only when closed and empty |
| `ThreadPools.EveryRun` | include/thread_pool/thread_pool.hpp:61-74 | Over all interleavings: order, conservation, no lost wakeup |
| `ThreadPools.SomebodyAwake` | include/thread_pool/thread_pool.hpp:63-72 | A queued task with no notification pending has a worker that is awake |
| `ThreadPools.InternalStepsAreBounded` | include/thread_pool/thread_pool.hpp:61-74 | Every step the open pool takes by itself uses up what is to do: no worker spins |
| `ThreadPools.InternalRunsAreBounded` | include/thread_pool/thread_pool.hpp:61-74 | So left alone it comes to rest, whatever the schedule |
| `ThreadPools.AtRestAllIsDone` | include/thread_pool/thread_pool.hpp:61-74 | At rest every worker waits, the queue is empty and every task that was added has run and returned |
| `ThreadPools.ShutdownStep` | include/thread_pool/thread_pool.hpp:82-90 | After notify_all every step that can happen does one unit of the remaining work |
| `ThreadPools.ShutdownProgress` | include/thread_pool/thread_pool.hpp:63-72 | Until all have exited some worker can go on |
| `ThreadPools.ShutdownDrains` | include/thread_pool/thread_pool.hpp:82-90 | Whatever the schedule, shutdown ends after exactly that many steps, with every task run and every worker gone |
| `ThreadPools.ThreadPool.AddTask` | include/thread_pool/thread_pool.hpp:92-99 | Queues and notifies: two steps of the system |
| `ThreadPools.ThreadPool.WorkerTurn` | include/thread_pool/thread_pool.hpp:63-72 | One turn of the loop is a step of the system |
| `ThreadPools.ThreadPool.Notify` | include/thread_pool/thread_pool.hpp:98-98 | notify_one wakes one waiting worker, or none when none waits |
| `ThreadPools.ThreadPool.TaskReturns` | include/thread_pool/thread_pool.hpp:68-69 | The end of a task is a step |
| `ThreadPools.ThreadPool.Destroy` | include/thread_pool/thread_pool.hpp:82-90 | The flag and then notify_all, two steps; the pool is shutting down with the same work at hand and no task lost |
| `ThreadPools.NotifyAllKeepsWork` | include/thread_pool/thread_pool.hpp:88-88 | Waking everybody takes nothing from the work that is left |
| `Connections.HttpConn.Init` | src/http/http_conn.cc:17-27 | A reused connection starts a new talk, with the length its second vector held |
| `Connections.HttpConn.Close` | src/http/http_conn.cc:96-104 | The file is gone, the vector keeps its length, nothing else changes |
| `Connections.HttpConn.Receive` | src/http/http_conn.cc:29-38 | Arriving bytes are history and wait with the kernel |
| `Connections.HttpConn.Read` | src/http/http_conn.cc:29-38 | Ends only when nothing is left to read or on an error; all bytes are in the buffer in order |
| `Connections.HttpConn.Gather` | src/http/http_conn.cc:43-43 | The vectors gather exactly what is unsent |
| `Connections.HttpConn.Advance` | src/http/http_conn.cc:48-61 | The vectors move past exactly the bytes the kernel took |
| `Connections.HttpConn.AdvanceIntoFile` | src/http/http_conn.cc:49-56 | So they do when the kernel took the rest of the buffer and part of the file |
| `Connections.HttpConn.Write` | src/http/http_conn.cc:40-64 | For every sequence of partial writes: sent ++ unsent is what there was, the buffer agrees with its vector, and the loop ends |
| `Connections.HttpConn.WriteOnce` | src/http/http_conn.cc:43-47 | One writev: what the kernel took of the unsent bytes is on the wire |
| `Connections.HttpConn.MakeReply` | src/http/http_conn.cc:72-80 | Buffer and file are what was unsent in the buffer and the reply to the parsed request |
| `Connections.HttpConn.SetVectors` | src/http/http_conn.cc:81-91 | What writev is given is buffer and file; without a file the second vector keeps its length |
| `Connections.HttpConn.AnswerRequest` | src/http/http_conn.cc:80-91 | What is unsent is the reply, behind what was unsent before |
| `Connections.HttpConn.Process` | src/http/http_conn.cc:67-94 | Parses what was received and replies to it, in any state of the connection |
| `Connections.HttpConn.OnProcess` | src/server/http_server.cc:174-180 | With something received it replies and waits to write; without, it waits to read |
| `Connections.HttpConn.NothingLeft` | src/http/http_conn.cc:48-61 | A completed write of a reply with a file leaves both vectors empty |
| `Connections.HttpConn.OnRead` | src/server/http_server.cc:162-172 | A read step: everything read and answered once, or closed, exactly when the last read did not end with EAGAIN, end of file included |
| `Connections.HttpConn.OnWrite` | src/server/http_server.cc:182-202 | A write step: the front of the unsent bytes sent, and then, as the int counts, on to the next request, waiting, or closed |
| `Connections.HttpConn.GoOn` | src/server/http_server.cc:187-193 | Going on replies to what was received, or waits for a request |
| `Connections.HttpConn.SendOn` | src/server/http_server.cc:186-187 | The kernel took the first n unsent bytes; the int is 0 exactly when the rest and the stale length count as nothing |
| `CInts.WrappedIs` | include/http/http_conn.hpp:52-54 | What an int keeps of a count, taking 2^32 away as often as it has to, is the remainder modulo 2^32 |
| `Connections.HttpConn.CountIs` | include/http/http_conn.hpp:52-54 | The int count is 0 if and only if unsent and stale bytes together are a multiple of 2^32 |
| `Connections.ServeEvents` | src/server/http_server.cc:162-202 | Over any run of events, one step each: every arrived byte is accounted for, each text the parser was given is answered once and in order, the wire only grows and is a part of the replies, all of them and readable again whenever it waits for a request |
| `Connections.ServeEvent` | src/server/http_server.cc:162-202 | One event is one step, whatever arrived before it |
| `Talks.RepliesAt` | src/http/http_conn.cc:67-94 | One reply for each text, in order |
| `Talks.ClientReadsReplies` | src/http/http_conn.cc:80-91 | A client that reads by announced length recovers every reply, nothing between them |
| `Talks.AnswerTells` | src/http/http_conn.cc:67-80 | What a client reads from a reply, whatever follows: status by stat and its own request, keep-alive exactly when its request asks for it, the type of its path, and the file or the page |
| `Talks.ReadKeeps` | src/server/http_server.cc:162-172 | A read step keeps every byte accounted for, and the next reply follows the wire |
| `Talks.ReadClosesIff` | src/server/http_server.cc:162-180 | A read event closes if and only if the kernel ended it otherwise than with EAGAIN; it waits on if and only if nothing was received, and else answers all of it |
| `Talks.ReadsCloseIff` | src/server/http_server.cc:162-180 | So for every read event of every run |
| `Talks.WriteKeeps` | src/server/http_server.cc:182-202 | So does a write step; waiting for a request, everything is sent |
| `Talks.WriteStaysFitting` | include/http/http_conn.hpp:52-54 | With files below 2^31 bytes nothing unsent is ever taken for sent |
| `Talks.ReadStaysFitting` | include/http/http_conn.hpp:52-54 | A reply to a bounded file fits the count |
| `Talks.CountMisleadsIff` | include/http/http_conn.hpp:52-54 | Some unsent remainder counts as nothing if and only if so many bytes are unsent |
| `Talks.ClosesRightly` | src/server/http_server.cc:187-201 | While the count fits, a connection is closed only after a full send or an error other than EAGAIN |
| `Talks.ClosesEarlyIff` | src/server/http_server.cc:187-201 | EAGAIN in the middle of a reply can close the connection if and only if it is not kept alive and so many bytes are unsent |
| `Talks.CutShortIff` | src/server/http_server.cc:187-193 | A kept-alive connection can go on in the middle of a reply, whatever it received, if and only if so many bytes are unsent |
| `Talks.RunsCloseRightly` | src/server/http_server.cc:187-201 | In every run of events with short files, a connection that waits to write is closed only after a full send or an error other than EAGAIN |
| `Talks.WriteClosesIff` | src/server/http_server.cc:182-202 | While the count fits, a write event closes if and only if all was sent and the client does not stay, or the kernel ended an unfinished write otherwise than with EAGAIN |
| `Talks.WritesCloseIff` | src/server/http_server.cc:182-202 | So for every write event of every run with short files |
| `Talks.LongFileIsCutShort` | src/server/http_server.cc:182-202 | Whatever a new client asks for, a file of 2^32 bytes is cut off: a run closes the connection, or goes on, with none of it sent |
| `Talks.ReuseAfterHangup` | src/http/http_conn.cc:17-27 | A run in which a file's length outlives its client: the next reply without a file is sent whole, and a kept-alive connection is closed |
| `Talks.GoesOnIff` | src/server/http_server.cc:187-201 | With everything sent, it goes on if and only if the client wants that and no length is left over in the second vector |
| `Talks.PromiseIsKeptIff` | src/server/http_server.cc:187-193 | With everything sent, the connection goes on if and only if the reply said keep-alive and no length is left over in the second vector |
| `Talks.EventsKeep` | src/server/http_server.cc:162-202 | The claims of a run, for all runs of read and write steps with any arrivals |
| `Talks.WholeExchange` | src/server/http_server.cc:162-202 | Such runs exist: whatever a client sends can be read, answered and sent whole, and then goes as the client asked |
| `Talks.RequestsAreTexts` | src/server/http_server.cc:162-202 | To a client that sends one whole request at a time, reply k answers request k |
| `Talks.PrintedIsWhole` | src/http/http_request.cc:18-51 | A printed request without a body is whole, and is answered for its own path and wish |
| `BlockDeques.NotifiedCounts` | include/log/block_queue.hpp:80-83 | A notification wakes one more thread, or nobody was waiting |
| `BlockDeques.TryPushKeepsInv` | include/log/block_queue.hpp:115-133 | A push keeps capacity, conservation and both wakeup claims |
| `BlockDeques.TryPopKeepsInv` | include/log/block_queue.hpp:147-160 | So does a pop |
| `BlockDeques.ApplyKeepsInv` | include/log/block_queue.hpp:80-160 | So does every step, with flushes and spurious wakeups |
| `BlockDeques.EveryRun` | include/log/block_queue.hpp:115-160 | Over all interleavings: within capacity, no lost wakeup on either side, the two sides never both asleep |
| `BlockDeques.EveryRunIsFifo` | include/log/block_queue.hpp:115-160 | Over all interleavings of push_back, pop and flush the queue is first in, first out |
| `BlockDeques.BlockDeque.TestAndPush` | include/log/block_queue.hpp:118-122 | From the test of the loop on, a push is the step of the system |
| `BlockDeques.BlockDeque.TestAndPop` | include/log/block_queue.hpp:150-159 | From the test of the loop on, a pop is the step of the system |
| `BlockDeques.BlockDeque.PushBack` | include/log/block_queue.hpp:115-123 | push_back is a step: the line goes behind all others, or the producer waits when the queue is full |
| `BlockDeques.BlockDeque.PushFront` | include/log/block_queue.hpp:125-133 | push_front is a step: the line goes before all others, or the producer waits |
| `BlockDeques.BlockDeque.ResumePush` | include/log/block_queue.hpp:118-122 | A woken producer tests again: a step |
| `BlockDeques.BlockDeque.PopItem` | include/log/block_queue.hpp:147-160 | pop is a step; it returns the first item, or waits |
| `BlockDeques.BlockDeque.FlushConsumers` | include/log/block_queue.hpp:80-83 | flush is a step |
| `Logs.PushNeverBlocks` | src/log/log.cc:327-328 | A writer that saw room while holding the mutex never waits in push_back |
| `Logs.ApplyKeepsInv` | src/log/log.cc:310-369 | Every step keeps one holder of the mutex, room for the pusher, conservation and order of lines |
| `Logs.EveryRun` | src/log/log.cc:310-369 | Over all interleavings: no writer waits with the mutex; every line is in exactly one of file, hand and queue; queued lines keep their order |
| `Logs.InternalMovesAreBounded` | src/log/log.cc:327-369 | Every move that carries on what was begun uses up work |
| `Logs.SomethingMoves` | src/log/log.cc:363-369 | While anything is under way some thread can move: no cycle between the mutex and the queue |
| `Logs.EverythingArrives` | src/log/log.cc:363-369 | Once calls stop, after a bounded number of moves every line is in the file, the queued ones in order |
| `AsyncLogs.AsyncLog.Write` | src/log/log.cc:310-333 | Run alone, write puts the line at the end of the queue, or of the file when the queue is full, and leaves the mutex free |
| `AsyncLogs.AsyncLog.Enter` | src/log/log.cc:311-325 | Takes the mutex with the line formatted: a step |
| `AsyncLogs.AsyncLog.CheckFull` | src/log/log.cc:327-327 | The test of the queue decides between queue and file: a step |
| `AsyncLogs.AsyncLog.Fputs` | src/log/log.cc:330-330 | The line goes to the file directly: a step |
| `AsyncLogs.AsyncLog.Leave` | src/log/log.cc:332-333 | Releases the mutex: a step |
| `AsyncLogs.AsyncLog.PushLine` | src/log/log.cc:328-328 | push_back by a writer that saw room is one step and returns |
| `AsyncLogs.AsyncLog.TakeLine` | src/log/log.cc:365-365 | pop by the async thread is one step: the oldest line, or it waits |
| `AsyncLogs.AsyncLog.LockForFile` | src/log/log.cc:366-366 | The async thread takes the log's mutex: a step |
| `AsyncLogs.AsyncLog.FileLine` | src/log/log.cc:366-368 | Writes the line in hand behind the file and releases the mutex |
| `ServerSpec.AcceptKeepsInv` | src/server/http_server.cc:119-143 | Accepting keeps one owner for each open connection, the count and the timer node |
| `ServerSpec.DeliverKeepsInv` | src/server/http_server.cc:46-68 | Delivery disarms: the event becomes the owner |
| `ServerSpec.HandleKeepsInv` | src/server/http_server.cc:78-98 | Handling an event never fails adjust's assertion, and closes or hands the connection to one task |
| `ServerSpec.HandleDoes` | src/server/http_server.cc:85-98 | A hangup closes its connection and queues nothing; any other event queues its one task behind all others and gives its connection the whole timeout from then on; no other connection or deadline changes |
| `ServerSpec.AcceptOpensIff` | src/server/http_server.cc:119-143 | Accepting opens a connection that waits to read with the whole timeout before it, if and only if fewer than 65536 are open |
| `ServerSpec.FinishKeepsInv` | src/server/http_server.cc:162-202 | A task that ends arms its connection again or closes it |
| `ServerSpec.WorkerKeepsInv` | include/thread_pool/thread_pool.hpp:61-74 | The pool moves no task from one connection to another |
| `ServerSpec.FireKeepsInvIff` | src/server/http_server.cc:112-117 | A timer that fires keeps everything if and only if its connection has no task |
| `ServerSpec.StaleFireIsHarmless` | src/http/http_conn.cc:96-104 | A node that outlived its connection fires without effect on connections or count |
| `ServerSpec.EveryRun` | src/server/http_server.cc:70-202 | In every reachable state, events pending or not: each open connection has exactly one owner, a closed one none; no two workers share one; the user count is the number of open connections and at most MAX_FD; each has its timer node, due one timeout after its last event as the steps alone tell it |
| `ServerSpec.OpenFiresIff` | src/server/http_server.cc:112-160 | Over every run, between batches: the timer can close an open connection if and only if more than the timeout, less one millisecond, has passed since its last event |
| `ServerSpec.RunFollows` | src/server/http_server.cc:145-160 | Over every run the time a connection was last heard of is that of its last accept or handled event, computed from the steps |
| `ServerSpec.OneOwner` | src/server/http_server.cc:46-48 | One owner means: between batches armed or with one task, never both, and no two workers on one connection |
| `ServerSpec.IdleConnectionsAreClosed` | src/timer/timer.cc:94-107 | After a tick every open connection had an event within the timeout |
| `ServerSpec.FireDuringTaskBreaks` | src/server/http_server.cc:112-128 | A run exists in which the timeout closes a connection under its task |
| `Servers.HttpServer.CloseConn` | src/server/http_server.cc:112-117 | Out of epoll, closed, counted once |
| `Servers.HttpServer.AddClient` | src/server/http_server.cc:119-128 | A new connection, its timer node and its registration; the server stays sound |
| `Servers.HttpServer.DealListen` | src/server/http_server.cc:130-143 | A run of accepts in order until accept has none or the server is full, exactly that many; other connections and the batch stay |
| `Servers.HttpServer.ExtentTime` | src/server/http_server.cc:157-160 | Moves the deadline, and the timer's heap stays ordered |
| `Servers.HttpServer.Deal` | src/server/http_server.cc:145-155 | Queues the task behind all others, moves the deadline to one timeout from now, notifies |
| `Servers.HttpServer.Dispatch` | src/server/http_server.cc:85-98 | Hangup closes, readable reads, writable writes, in that order |
| `Servers.HttpServer.HandleEvent` | src/server/http_server.cc:78-98 | The connection of an event is open; handling it is a run of its one or two steps, closes or queues and prolongs, and leaves the server sound |
| `Servers.HttpServer.FinishTask` | src/server/http_server.cc:174-202 | The end of a task is a step and keeps the server sound |
| `Servers.HttpServer.Act` | src/server/http_server.cc:174-201 | Arms for reading or writing, or closes |
| `Servers.HttpServer.Wait` | src/server/http_server.cc:77-77 | What epoll reports is disarmed |
| `Servers.HttpServer.Tick` | src/server/http_server.cc:74-76 | A run: time passes and the due nodes fire, each once; the server is sound if none of them had a task; then every open connection had an event within the timeout |
| `Servers.HttpServer.Turn` | src/server/http_server.cc:70-101 | A turn of the loop, workers going on meanwhile, is a run that fires every due node, delivers what epoll reports, handles all of it and accepts whom it has room for; under the assumption on the schedule it leaves the server sound |
| `Servers.HttpServer.TurnRest` | src/server/http_server.cc:77-99 | So for the part after the tick, new clients included |
| `Servers.HttpServer.HandleBatch` | src/server/http_server.cc:78-99 | All events of a batch, and at any place among them whoever accept returns, as many as have room: a run that empties the batch |
| `Servers.HttpServer.HandleEvents` | src/server/http_server.cc:78-99 | The first so many events of a batch, a run |
| `Servers.HttpServer.HandleNext` | src/server/http_server.cc:78-98 | One more event, after whatever the workers did |
| `Servers.HttpServer.Listen` | src/server/http_server.cc:82-84 | The listening socket's event accepts whoever accept returns, in order, as many as have room; the others are as before |
| `Servers.HttpServer.Workers` | include/thread_pool/thread_pool.hpp:61-74 | What workers do meanwhile is a run of their steps |
| `Servers.HttpServer.WorkerTurn` | include/thread_pool/thread_pool.hpp:63-72 | A worker's turn keeps the server sound |
| `Servers.HttpServer.FireDue` | src/timer/timer.cc:94-107 | The timer's part of a tick on the server's state |
| `Servers.HttpServer.RunCallbacks` | src/timer/timer.cc:104-104 | The callbacks close exactly the connections that fired |
| `Sides.OthersKeepSides` | src/server/http_server.cc:78-98 | Only accept and the end of its own task change the direction a connection is owned for |
| `Sides.FinishSetsSide` | src/server/http_server.cc:174-199 | The end of a task puts its connection on the side it asks for, and no other |
| `Sides.AcceptSetsSide` | src/server/http_server.cc:125-125 | A new connection waits to read |
| `Sides.QuietKeepsSides` | src/server/http_server.cc:70-101 | No run of the main thread and the pool opens a connection or changes a side |
| `SiteSpec.TaskIsOwner` | src/server/http_server.cc:145-155 | The connection of a running task is open and on the task's side |
| `SiteSpec.MainKeepsSound` | src/server/http_server.cc:70-101 | What the main thread does disturbs no connection's talk |
| `SiteSpec.WelcomeKeepsSound` | src/server/http_server.cc:119-128 | A client accepted starts a new talk, ready to be read |
| `SiteSpec.WorkKeepsSound` | src/server/http_server.cc:162-202 | A task finds its connection as its handler needs it, and leaves it so for the next |
| `SiteSpec.WorkExtends` | src/server/http_server.cc:162-202 | A task only adds to the wire and to the replies of its own connection |
| `SiteSpec.WorkEndsRightly` | src/server/http_server.cc:162-202 | A task closes its own connection exactly as its handler should, and leaves every other open or closed as it was |
| `SiteSpec.TasksCloseIff` | src/server/http_server.cc:162-202 | Over every run of the site: a read task closes if and only if the read ended otherwise than with EAGAIN; a write task whose count fits, if and only if all was sent and the client does not stay or an unfinished write ended otherwise |
| `SiteSpec.EveryRun` | src/server/http_server.cc:70-202 | Over every run of the site: on each connection every byte is accounted for, each text the parser was given is answered once and in order, and the wire is a part of the replies; a connection that waits for a request has sent them all, readable again |
| `SiteSpec.ModestRunsStayIntact` | include/http/http_conn.hpp:52-54 | With short files no connection of the site ever takes unsent bytes for sent |
| `Sites.Site.RunTask` | src/server/http_server.cc:162-202 | A worker's task is one move of the site: its own connection takes its handler's step, no other changes |
| `Sites.Site.Handle` | src/server/http_server.cc:162-202 | The handler's step on the talk, and Close when it decides so |
| `Sites.Site.Accept` | src/server/http_server.cc:119-128 | A client accepted is one move: a new or reused object starts a new talk, with whatever its second vector held; new objects are new |
| `Sites.Site.Hear` | src/http/http_conn.cc:29-38 | Arriving bytes are one move |
| `Sites.Site.Wait` | src/server/http_server.cc:77-77 | Delivery is one move |
| `Sites.Site.HandleEvent` | src/server/http_server.cc:78-98 | Handling an event is one move; a hangup closes the object too |
| `Sites.Site.Tick` | src/server/http_server.cc:74-76 | Fires all that was due, and only what is due, and closes exactly those connections and their objects; one move under the assumption on the schedule |
| `Sites.Site.PoolTurn` | include/thread_pool/thread_pool.hpp:63-72 | A worker's turn is one move and touches no connection |
| `Sites.Site.Visit` | src/server/http_server.cc:70-180 | Accept, delivery, dispatch, a worker's turn and its task in sequence are a run of the site, and a reply answers the client's bytes |
| `Sites.Site.Reach` | src/server/http_server.cc:77-149 | The first three: a task is queued for the client's bytes |
| `Sites.Site.Attend` | src/server/http_server.cc:162-172 | The last two: a worker takes the task and runs it |

## Left out

- The kernel: sockets, epoll, accept, readv, writev, open, mmap and stat are parameters or arbitrary results within simple contracts.
- Level-triggered mode: its write loop may stop with up to 10240 bytes unsent, and OnWrite then closes; `main` selects edge-triggered mode.
- The loop of `Start` without end: one turn is a method, any number of them a run of the step system.
- `BlockDeque` after `Close`, the timed `pop` and `clear`: pop tests `isClose_` only after a wait, clear wakes no producer, and a timeout may swallow a signal.
- `ParseFromUrlencoded` and `ConverHex`: never reached, since `ParsePost` returns at once.
- `Responses.HttpResponse.AddLines`: as MakeResponse.
- `Responses.HttpResponse.MakeResponse`: not for directories that open, empty files and a failed mmap, which depend on the memory mapping interface.
- Log formatting, levels, file names, daily rotation and the synchronous log without a queue: C library and file calls.
- `Buffers.Buffer.AppendBuffer`: not for a buffer appended to itself, whose pointer a growing vector leaves dangling; nothing calls it so.
- `Buffer::WriteFd`, which nothing calls.
- A request split over several reads: the parser starts afresh on what is in the buffer, and the model does as well, but no round trip is stated for parts.
- webbench: proxy mode, the port number (`tmp[10]`, `atoi`), option parsing and the benchmark loop.
- Timers with `timeoutMS_ <= 0` have no nodes; `HeapTimer::clear` is not modelled.
- The widths of integers other than in the conversions above: sizes and times are unbounded.
- `Webbench.Builder.BuildRequest`: asks for a host shorter than its array, since the code does not test that.
- `Webbench.Builder.CopyHost`: the same.
- `Webbench.Builder.WriteRest`: the same.
- `Benchmark.Exchange`: the same.
- `AsyncLogs.AsyncLog.Write`: without interruption; every interleaving is in `Logs.EveryRun`.
- `Servers.HttpServer.Tick`: the timer's part comes first and the callbacks after it, in the order of firing; the source runs each callback before it removes its node, which callbacks that leave the timer alone cannot tell.
- The other small wrappers: locker, epoller, printing of addresses, error messages to refused clients.
