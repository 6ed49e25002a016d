# Verification of mpRPC

A Dafny model of the stateful core of mpRPC, a MessagePack-RPC library, with proofs about every
interleaving of its concurrent parts and every input of its sequential ones. `dafny verify
dfyconfig.toml` checks the project.

| module | what it models |
|---|---|
| `Wire` | decoded object trees, the packers and the message parser |
| `Future` | the cell shared by a response promise and its future |
| `Requests` | what each section under the client's lock does to the registered promises |
| `MessageIds` | 32-bit message IDs counted cyclically |
| `Client` | the client object with its counter and table |
| `Protocol` | the client as a state machine over all interleavings and any peer |
| `Callbacks` | what the steps of that machine do exactly, and how often each callback runs |
| `Conforming` | the same machine facing a peer that keeps to the protocol |
| `FailingRuns` | runs of these machines that reach the failures described below |
| `TypedFuture` | which user handler a delivery calls |
| `RefCount` | reference-counted binaries as atomic steps of concurrent threads |
| `SharedBinary` | the `shared_binary` object run by one thread, with aliasing handles |
| `NoCopyMessages` | messages that point into the block of the data they were parsed from |
| `Printer`, `Formatter`, `Visitor` | the recursive printer, the bounded formatter, and its visitor object |
| `Buffer` | the growable buffer |
| `Barrier` | the phase barrier with removable threads |
| `ArgsProduct` | the enumeration of argument combinations |
| `Sets`, `Sizes` | counting and the width of sizes, used by several modules |

How the pieces fit: a class holds the fields the C++ object has, and its methods are proved equal to
functions on values. The state machines of the client and the barrier step through those same
functions. The machine of the reference counts divides each operation of `shared_binary` into its
atomic steps instead and shares no function with the class; `RefCount.OperationYieldsItsSource` states
that an operation so divided still ends with what the methods of the class promise. A promise is
represented by the calls made on its cell; the cell and the deliveries it posted are functions of
those calls. A thread pool is the log of what was posted to it. The connector is an environment that
calls every callback later and at most once. Exceptions are results: `thrown`, `escaped`, `aborted`.

What the proofs found about the code, each as an exact condition and with an input that meets it:

- A failure sweep stops at the first settled entry, because entries stay in the table after their
  response. It leaves an entry unsettled exactly when that was unsettled and listed behind a settled
  one, and then an exception leaves the callback (`Protocol.SweepsMissExactly`,
  `Protocol.ExceptionsEscapeIff`; reached by `FailingRuns.IncompleteSweep`).
- A write that fails after its request was settled throws out of the write callback and keeps the
  entry, and no other failing write does (`Protocol.ExceptionsEscapeIff`; `FailingRuns.LateWriteFailure`).
- Truncated data, and no other data, makes an exception leave the read callback without any sweep:
  the decoder's exception for missing bytes is no parse error, so neither the message constructor nor
  the catch block takes it (`Requests.ReceiveExits`; `FailingRuns.TruncatedDataEscapes`).
- Since answered requests keep their message ID, a free one exists exactly while fewer than 2^32
  requests were ever registered without a failed write; from a full table on, until a write fails,
  the loop of `async_request` only fetches again (`Conforming.FreeIdIffFewerThanAllIdsHeld`,
  `FailingRuns.FullTableRegistersNothing`; `FailingRuns.FullTable`).
- The catch sweep passes an empty error. A handler receives the empty error with the default message
  exactly when a catch sweep settled its request; a typed future then fails, an untyped one would
  report success (`TypedFuture.CatchSweepDelivery`; `FailingRuns.EmptyErrorDelivered`). The client
  hands out only typed futures, so the second half concerns users of `response_future` itself.
- An empty handler attached before the result swallows the result; attached after it, the empty
  handler is posted (`Future.DeliveredExactlyOnce`; `Future.EmptyHandlerDependsOnOrder`).
- The length limit of the formatter is kept exactly under the condition of `Formatter.LimitIsKeptIff`,
  and max(limit, 5) + 19 characters exactly under that of `Formatter.BoundIsKeptIff`. For every limit
  a value exceeds the first (`Formatter.BoundIsReached`). Only tokens of more than 20 characters and sizes
  of 2^31 bytes and more, whose doubling wraps at 32 bits, exceed the second (`Formatter.OutputIsBounded`); a string does so alone
  (`Formatter.HugeStringIsPrinted`), a binary inside arrays (`Formatter.HugeBinaryBreaksBound`).
- Every combination of arguments is registered exactly if the product of the list sizes is below 2^64
  (`ArgsProduct.EveryCombinationIff`). For 64 lists of two arguments the product wraps to zero: the
  call registers no rows and reports nothing (`ArgsProduct.AllCombinationsLost`).

## Model

| member | source | states |
|---|---|---|
| `Wire.RequestRoundTrip` | include/mprpc/pack_data.h:54-59 | a packed request parses back to its ID, method and parameters, exactly when the parameters are an array |
| `Wire.NotificationRoundTrip` | include/mprpc/pack_data.h:97-102 | the same for notifications, which have no ID |
| `Wire.ResponseRoundTrip` | include/mprpc/pack_data.h:69-87 | packed results and errors parse back; only an error of nil reads as success |
| `Wire.ResponsesAreExactlyResponseTrees` | include/mprpc/message.h:280-300 | data is read as a response with given fields if and only if it is the four-element response tree of those fields |
| `Wire.ParseIsInjectiveOnPacked` | include/mprpc/message.h:205-326 | a parsed message determines its tree; for requests and notifications up to a method name given as a binary |
| `Wire.ParsesExactlyMessages` | include/mprpc/message.h:205-326 | exactly the trees of the three message kinds are accepted, requests and notifications with exactly their fields, binary method names included; everything else is reported invalid |
| `Future.Apply` | include/mprpc/response_future.h:57-118 | a call throws exactly when its slot is taken, and a call that throws changes and posts nothing |
| `Future.CellExplained` | include/mprpc/response_future.h:57-118 | for every sequence of calls, the cell and the posts are those read off the first result and the first handler |
| `Future.DeliveredExactlyOnce` | include/mprpc/response_future.h:57-118 | one delivery if and only if a result and a handler came and the handler was not an empty one waiting; it carries the first of each |
| `Future.ArrivalOrderIsIrrelevant` | include/mprpc/response_future.h:57-118 | two call sequences with the same first result and first non-empty handler deliver the same, whichever came first |
| `Future.EmptyHandlerDependsOnOrder` | include/mprpc/response_future.h:103-118 | with an empty handler the order matters |
| `Future.SettledAtMostOnce` | include/mprpc/response_future.h:57-96 | at most one result is ever accepted, and one is as soon as any was offered |
| `Future.DeliversFirstResult` | include/mprpc/response_future.h:57-118 | with a non-empty first handler the delivery is the first result, if there is one |
| `Future.ResponseFutureData.SetError` | include/mprpc/response_future.h:57-73 | fields, posts and exception are those of the cell after one more call |
| `Future.ResponseFutureData.SetResponse` | include/mprpc/response_future.h:80-96 | the same for a response |
| `Future.ResponseFutureData.SetHandler` | include/mprpc/response_future.h:103-118 | the same for a handler |
| `Requests.FailedWriteThrowsIffSettled` | include/mprpc/client.h:164-172 | the write callback throws exactly when its request was settled or is not registered, and then the entry stays; otherwise the request is settled and its entry goes |
| `Requests.ReceiveExits` | include/mprpc/client.h:202-219 | data leads to the catch sweep exactly when it is malformed, no response, or answers a settled request; truncated data and nothing else throws past the catch; a response to no request is ignored |
| `Requests.SweepCalls` | include/mprpc/client.h:194-196 | the error is set on the entries before the first settled one, tried on that one, and on no other |
| `Requests.SweepSettlesUpToFirstSettled` | include/mprpc/client.h:191-198 | those entries end settled with the error; all other promises keep their cell and deliveries |
| `Requests.SweepIsCompleteIffNothingSettled` | include/mprpc/client.h:220-226 | for any iteration order the sweep throws if and only if some entry was settled, and otherwise settles every entry with the error |
| `Requests.SweepMissesExactly` | include/mprpc/client.h:220-226 | for any iteration order an entry is left unsettled exactly when it was unsettled and listed behind a settled one |
| `Requests.SweepReaches` | include/mprpc/client.h:220-226 | an open entry gets the error exactly when no settled one is listed before it |
| `Requests.OpenEntryIsAnswered` | include/mprpc/client.h:202-219 | a response to an open entry sets exactly that response on exactly that promise, and the callback returns |
| `Requests.OtherDataIsIgnored` | include/mprpc/client.h:208-216 | a response to no entry changes nothing; truncated data changes nothing and throws |
| `Requests.BadDataSweeps` | include/mprpc/client.h:220-227 | any other data sweeps with the empty error: it throws exactly when some entry was settled, and reaches exactly the open entries not listed behind one |
| `Requests.FailWriteConserves` | include/mprpc/client.h:164-172 | what a failed write posts is exactly what the promises deliver in addition |
| `Requests.SweepConserves` | include/mprpc/client.h:194-196 | the same for a sweep, complete or not |
| `Requests.HandleDataConserves` | include/mprpc/client.h:200-227 | the same for the whole read callback |
| `MessageIds.SearchIsShort` | include/mprpc/client.h:93-104 | the search has tried no more IDs than are taken, and has a free one by then |
| `MessageIds.FreeIdIffNotAllTaken` | include/mprpc/client.h:93-104 | a free ID exists if and only if fewer than 2^32 are taken |
| `Client.Client.DrawFreeId` | include/mprpc/client.h:93-104 | the loop ends after at most table size + 1 attempts with the first free ID cyclically from the counter, wrap-around included, and the request packed under that very ID |
| `Client.Client.Emplace` | include/mprpc/client.h:98-103 | registers a promise unless the ID is taken, never overwriting |
| `Client.Client.AsyncRequest` | include/mprpc/client.h:88-105 | a new promise registered under the first free ID counted from the counter, after at most table size + 1 attempts, and the request written under that ID |
| `Client.Client.MakePromise` | include/mprpc/client.h:90-91 | a new promise that nothing was done to |
| `Client.Client.Then` | include/mprpc/response_future.h:168-173 | attaching a handler is the call on that promise, with its posts, registered or not |
| `Client.Client.OnWriteFailed` | include/mprpc/client.h:164-172 | table, posts and exception are those of the write failure |
| `Client.Client.Receive` | include/mprpc/client.h:202-220 | table, posts and way out of the try block are those of the received data |
| `Client.Client.SetErrorOnAll` | include/mprpc/client.h:194-196 | the loop over the entries is the sweep, for any order, with all its posts |
| `Client.Client.OnRead` | include/mprpc/client.h:190-228 | a read error sweeps with it, data is handled by the effect that the three lemmas on data pin down and that `Callbacks.UndisturbedRead` equates with the machine's steps |
| `Protocol.InvStep` | include/mprpc/client.h:88-228 | every step keeps: IDs lead to the request registered under them, responses reach only that request, and pending writes find their entry |
| `Protocol.NoRequestReceivesAnothersResponse` | include/mprpc/client.h:88-228 | in every interleaving a promise is settled and delivered at most once, and every response it ever received, with a handler or before, carries the ID its request was registered under |
| `Protocol.PendingWritesFindTheirRequest` | include/mprpc/client.h:164-172 | the lookup of a pending write callback never misses and finds its own request, also after IDs wrapped or were reused |
| `Protocol.EntriesAreStable` | include/mprpc/client.h:98-103 | between any two moments of a run an ID leads to the same request, or the failed write of that very request came between |
| `Protocol.RegisteredForGood` | include/mprpc/client.h:93-104 | over whole runs a registered request keeps its ID, at most that ID leads to it, and nothing done to its promise is forgotten |
| `Protocol.StepExtendsPromises` | include/mprpc/client.h:88-228 | a step makes at most one call on each promise, and which |
| `Protocol.SettledBySomeStep` | include/mprpc/client.h:164-228 | in every run a settled promise was settled by one step, with the result that step brings |
| `Protocol.EmptyErrorIffCatch` | include/mprpc/client.h:220-226 | in every run the first result of a promise is the empty error exactly when a catch sweep settled it |
| `Protocol.ExceptionsEscapeIff` | include/mprpc/client.h:164-228 | in every run an exception leaves a callback exactly for a late write failure, a sweep over a settled entry, or truncated data; a failed write removes its entry exactly otherwise |
| `Protocol.SweepsMissExactly` | include/mprpc/client.h:191-226 | in every run a sweep leaves a registered request unsettled exactly when it was unsettled and listed behind a settled one |
| `Protocol.RunsConserveDeliveries` | include/mprpc/client.h:88-228 | in every run the tasks posted to the thread pool are exactly the deliveries of the promises |
| `Protocol.RunsKeepIdsDistinct` | include/mprpc/client.h:93-104 | with at most 2^32 fetches all IDs held and registered are pairwise distinct in every interleaving |
| `Protocol.RegistrationSucceedsAtFirstTry` | include/mprpc/client.h:93-104 | so every registration succeeds at the first try |
| `Protocol.WrittenAsRegistered` | include/mprpc/client.h:93-104 | in every run a request is written exactly if it is registered, and what is written parses to its own method and parameters under the very ID it is registered under |
| `Callbacks.StepCallsExactly` | include/mprpc/client.h:88-228 | on every promise every step makes exactly the call due there: the entry of a failed write, the entry a response answers, the entries a sweep comes to, the future a handler is attached to |
| `Callbacks.RegistersIffFree` | include/mprpc/client.h:98-103 | in every run a request is registered exactly if its ID is free and otherwise fetches again; no other step makes an entry |
| `Callbacks.FetchesInOrder` | include/mprpc/client.h:94 | in every run the fetches hand out the IDs in order, wrapping around |
| `Callbacks.CallbacksAreCounted` | include/mprpc/client.h:164-228 | in every run each read stays outstanding until it fails, each piece of data has one try block, each written request one write callback, and exactly the try blocks that bad data leaves have one catch block |
| `Callbacks.DataIsHandledOnce` | include/mprpc/client.h:200-219 | in every run all data read is handled once or still waits |
| `Callbacks.UndisturbedRead` | include/mprpc/client.h:190-228 | undisturbed, the steps of the read callback have together the effect of the client object's method |
| `Conforming.ReplyIsReceived` | include/mprpc/client.h:202-219 | handling a reply finds the request it answers and does not throw |
| `Conforming.SentIdIsRegistered` | include/mprpc/pack_data.h:54-59 | the ID a peer parses from a written request is the one the request is registered under |
| `Conforming.NetInvStep` | include/mprpc/client.h:88-228 | with a conforming peer every step keeps: no exception anywhere, and each request has seen exactly its own reply or its write error |
| `Conforming.CallbacksNeverThrow` | include/mprpc/client.h:164-228 | with a conforming peer, in every run, no exception leaves a callback, the catch sweep is never entered, and no promise is offered a second result |
| `Conforming.EachRequestGetsItsOwnReply` | include/mprpc/client.h:88-228 | a peer that answers with the ID it parsed from what was written, in any order: a handler is delivered exactly once, with the reply to its own method, parameters and ID; a failed write delivers its own error, an open request nothing |
| `Conforming.FreeIdIffFewerThanAllIdsHeld` | include/mprpc/client.h:93-104 | the table holds every request whose write did not fail; a free ID exists if and only if there are fewer than 2^32 of them |
| `FailingRuns.LateWriteFailure` | include/mprpc/client.h:164-172 | a run in which a response precedes the failure of its write: the exception escapes and the entry stays |
| `FailingRuns.IncompleteSweep` | include/mprpc/client.h:191-198 | a run in which reading fails after one of two responses: the other request stays unsettled |
| `FailingRuns.EmptyErrorDelivered` | include/mprpc/client.h:220-226 | a run in which malformed data delivers the empty error with the default message |
| `FailingRuns.TruncatedDataEscapes` | include/mprpc/message.h:48-57 | a run in which truncated data throws out of the read callback and settles nothing |
| `FailingRuns.FullTable` | include/mprpc/client.h:93-104 | a run with a conforming peer that ends with every message ID taken |
| `FailingRuns.FullTableRegistersNothing` | include/mprpc/client.h:93-104 | over runs, from a full table on and until a write fails, the table stays full and no request is registered |
| `TypedFuture.SuccessIffRealResponse` | include/mprpc/typed_response_future.h:77-93 | success is reported if and only if a real response with nil error and a convertible result was delivered, and with that result |
| `TypedFuture.ExactlyOneCallUnlessItThrows` | include/mprpc/typed_response_future.h:77-93 | one handler call per delivery, two exactly when the one in the try block throws, the second with what was thrown |
| `TypedFuture.FirstCall` | include/mprpc/typed_response_future.h:77-93 | whatever the handlers throw, the first call reports a delivered error as it is, a message that is no response as invalid, and a response by its fields |
| `TypedFuture.CatchSweepDelivery` | include/mprpc/client.h:220-226 | in every run the empty error reaches a handler exactly when a catch sweep settled its request; then a typed future fails and an untyped one succeeds, and otherwise untyped success means a real response |
| `TypedFuture.UntypedSuccessIff` | include/mprpc/response_future.h:181-192 | for all calls on the cell: success with m exactly if the first result is the response m, or an empty error and m the default message |
| `TypedFuture.UntypedFailureIff` | include/mprpc/response_future.h:181-192 | for all calls on the cell: failure with e exactly if the first result is the error e; one call if there is a result |
| `TypedFuture.FailuresReachTheirCaller` | include/mprpc/typed_response_future.h:77-110 | in every run a request settled by a failed write or read hands exactly that error to its failure handler, once, typed or not |
| `TypedFuture.WriteErrorsReachTheirCaller` | include/mprpc/typed_response_future.h:77-110 | with a conforming peer a failed write hands over its own error |
| `TypedFuture.TypedFutureCalledAtMostOnce` | include/mprpc/typed_response_future.h:77-110 | in every run of the client the handlers are called at most once, with success only for the response to the request's own ID |
| `TypedFuture.RepliesReachTheirCaller` | include/mprpc/typed_response_future.h:77-110 | end to end, for any reply: its error, else its converted result, else a conversion failure reaches the handlers, once |
| `TypedFuture.CallsReachTheServer` | include/mprpc/typed_response_future.h:77-110 | end to end: a peer that computes a function of the method and parameters it parses; the caller receives once the value for those it asked for, whatever else is in flight |
| `TypedFuture.RunPosted` | include/mprpc/typed_response_future.h:100-110 | the standard promise is set at most once, so setting it never throws; it holds the delivered error, or the value or failure the response stands for |
| `RefCount.InvStep` | src/shared_binary.cpp:51-119 | every atomic step of every thread keeps counters, sources and blocks consistent |
| `RefCount.CounterIsNumberOfHandles` | src/shared_binary.cpp:51-119 | in every interleaving the counter is the number of counting handles, a block is deleted at most once and exactly when nobody counts or is about to delete, and a copied pointer not yet counted has a live counted source |
| `RefCount.DeletedOnceAndNeverTouchedAgain` | src/shared_binary.cpp:111-119 | no step touches a deleted block, and a deleting step finds no counted or copied pointer to its block |
| `RefCount.OthersLeaveHandleAlone` | src/shared_binary.cpp:58-119 | steps on other handles leave a handle and all bytes as they are |
| `RefCount.OperationYieldsItsSource` | src/shared_binary.cpp:58-119 | in every interleaving a copy construction or assignment ends with what its source held when it began, a move construction or assignment likewise and empties the source, a reset with nothing |
| `RefCount.HandlesComeAndGo` | src/shared_binary.cpp:49-86 | handles come with constructors and go with destructors only |
| `RefCount.NewDataIsReadLater` | src/shared_binary.cpp:51-56 | a new binary has a block of its own with the bytes given, and whoever counts for it at any later moment finds it alive with those bytes |
| `SharedBinary.SharedBinary.Make` | src/shared_binary.cpp:51-56 | a new block with these bytes, counted once; a null pointer throws |
| `SharedBinary.SharedBinary.Reset` | src/shared_binary.cpp:111-119 | one count less; the block is deleted if and only if no handle is left on it |
| `SharedBinary.SharedBinary.Share` | src/shared_binary.cpp:58-63 | the pointer is shared and counted |
| `SharedBinary.SharedBinary.Take` | src/shared_binary.cpp:65-66 | the pointer moves along with its count |
| `SharedBinary.SharedBinary.Assign` | src/shared_binary.cpp:68-78 | copy assignment for all aliasing: self, same block, other block; deletion exactly when no handle is left |
| `SharedBinary.SharedBinary.MoveAssign` | src/shared_binary.cpp:80-84 | move assignment; from itself it empties the handle |
| `SharedBinary.SharedBinary.Equals` | src/shared_binary.cpp:121-131 | equal if and only if both are empty or both hold the same bytes |
| `NoCopyMessages.SharedInvStep` | include/mprpc/message.h:333-366 | every event keeps the blocks of all messages alive and unchanged |
| `NoCopyMessages.MessageStaysReadable` | include/mprpc/message.h:48-57 | from parsing to the last copy, also after the parsed message itself is gone, the block is the same, alive, with the bytes that were parsed, and every copy sees those |
| `NoCopyMessages.LivingMessageStaysReadable` | include/mprpc/message.h:48-57 | in particular a message while it lives |
| `NoCopyMessages.MessagesComeAndGo` | include/mprpc/message.h:339-366 | in every run a parsed message has the handle it was parsed from, a copy the handle and bytes of its original, and no other message changes |
| `NoCopyMessages.ReceivedBytesAreSeen` | include/mprpc/message.h:48-57 | a message parsed from any handle on received data sees the very bytes received |
| `Printer.HexRoundTrip` | src/format_message.cpp:36-56 | hexadecimal output decodes back to its bytes |
| `Printer.DecimalRoundTrip` | src/format_message.cpp:110-124 | decimal output decodes back to its number, without leading zero |
| `Printer.TextsDecode` | src/format_message.cpp:84-200 | the words for nil and booleans, quoted strings, and numbers and bytes that decode back |
| `Printer.ItemsJoin` | src/format_message.cpp:207-233 | arrays print their elements in order, joined by single commas |
| `Printer.PairsJoin` | src/format_message.cpp:240-276 | the same for maps |
| `Printer.ContainersPrint` | src/format_message.cpp:207-276 | brackets around one element or pair, and nothing in empty ones |
| `Printer.EventsPrintRender` | src/format_message.cpp:84-276 | without a limit the events of a tree print its recursive rendering |
| `Printer.PrefixIsNear` | src/format_message.cpp:202-276 | any prefix of the events prints a prefix of the rendering, plus at most one comma |
| `Formatter.FormatterRefinesPrinter` | src/format_message.cpp:84-306 | for every value and limit, untruncated output is the rendering; truncated output is a prefix of it, at most one comma, and the ellipsis; only binaries of 2^31 bytes and more may be cut inside |
| `Formatter.CompleteIffItFits` | src/format_message.cpp:155-306 | output is complete if and only if the rendering stays more than four characters below the limit and each raw size, doubled in 32 bits, fits behind what precedes it |
| `Formatter.RunStopsAt` | src/format_message.cpp:84-306 | a run prints without limit up to the first event whose guard or length check stops it, and then visits that one |
| `Formatter.FormatsValue` | src/format_message.cpp:311-326 | the result for every value: its rendering exactly if that fits, and otherwise the rendering broken off and the ellipsis |
| `Formatter.FormatsInvalidData` | src/format_message.cpp:318-325 | the result for data that breaks off: hexadecimal text that decodes to as many bytes as the limit leaves room for |
| `Formatter.FormatsStoppedData` | src/format_message.cpp:311-326 | once the formatter has stopped, what follows makes no difference |
| `Formatter.LimitIsKeptIff` | src/format_message.cpp:300-326 | for all events, complete or not, the exact condition under which the output is within the limit |
| `Formatter.BoundIsKeptIff` | src/format_message.cpp:300-326 | for all events the exact condition under which the output is within max(limit, 5) + 19 |
| `Formatter.OutputIsBounded` | src/format_message.cpp:300-326 | only a token of more than 20 characters or a size of 2^31 and more can break the bound; invalid data takes at most max(limit, 14) |
| `Formatter.FormattedValueIsBounded` | src/format_message.cpp:300-326 | the bound for every value with 64-bit integers and raw sizes below 2^31 |
| `Formatter.BoundIsReached` | src/format_message.cpp:300-306 | for every limit a value reaches the bound and exceeds the limit |
| `Formatter.HugeBinaryBreaksBound` | src/format_message.cpp:173-182 | for every limit from 16 on, a binary of 2^31 bytes in nested arrays breaks it |
| `Formatter.HugeStringIsPrinted` | src/format_message.cpp:155-164 | a string of 2^31 bytes is printed whatever the limit |
| `Visitor.WriteHex` | src/format_message.cpp:36-56 | the loop writes at most limit characters that decode to the first min(size, limit / 2) bytes |
| `Visitor.FormattingVisitor.Check` | src/format_message.cpp:300-306 | the ellipsis is added and the parser stopped near the limit |
| `Visitor.FormattingVisitor.VisitStr` | src/format_message.cpp:155-164 | a string quoted, or the ellipsis |
| `Visitor.FormattingVisitor.VisitBin` | src/format_message.cpp:173-182 | a binary in hexadecimal, or the ellipsis |
| `Visitor.FormattingVisitor.VisitExt` | src/format_message.cpp:191-200 | an extension in hexadecimal, or the ellipsis |
| `Visitor.FormattingVisitor.VisitMark` | src/format_message.cpp:207-263 | one character per start and separator |
| `Visitor.FormattingVisitor.VisitEnd` | src/format_message.cpp:227-276 | the trailing comma goes before the closing bracket |
| `Visitor.WriteMessage` | src/format_message.cpp:311-326 | the visitor is called until it stops, and data that breaks off is printed in hexadecimal: the result that the lemmas on `FormatMessage` pin down |
| `Buffer.CalculateNextCapacity` | include/mprpc/buffer.h:164-175 | the loop ends without wrapping, with the smallest sufficient doubling, below twice the required size |
| `Buffer.NextCapacityIsUnique` | include/mprpc/buffer.h:164-175 | that description leaves one value |
| `Buffer.NextCapacityKeepsLaw` | include/mprpc/buffer.h:106-129 | capacities stay 1024 doubled or beyond half of the largest size, and grow |
| `Buffer.BufferIsQueue` | include/mprpc/buffer.h:106-144 | in every run from any valid buffer the bytes at first and those written are the bytes taken followed by those still there; the capacity law holds and capacity never decreases |
| `Buffer.Buffer.Make` | include/mprpc/buffer.h:44-51 | the size asked for and the capacity of the law, or an exception without memory |
| `Buffer.Buffer.MakeFrom` | include/mprpc/buffer.h:59-62 | a buffer with these bytes, or an exception without memory or for a null pointer |
| `Buffer.Buffer.Reallocate` | include/mprpc/buffer.h:199-206 | the old bytes in front, or an exception and no change |
| `Buffer.Buffer.Resize` | include/mprpc/buffer.h:106-115 | the common bytes stay; without memory nothing changes |
| `Buffer.Buffer.Reserve` | include/mprpc/buffer.h:122-129 | contents stay, capacity suffices; without memory nothing changes |
| `Buffer.Buffer.Push` | include/mprpc/buffer.h:106-115 | growing and writing behind the old end appends to the queue |
| `Buffer.Buffer.Consume` | include/mprpc/buffer.h:136-144 | moving the rest over itself drops bytes at the front |
| `Barrier.Barrier.ArriveLocked` | extern/benchmark/src/mutex.h:132-150 | entering: wait, be last, or fail the check |
| `Barrier.Barrier.RecheckLocked` | extern/benchmark/src/mutex.h:138-150 | waking: leave, take over as last, or wait on |
| `Barrier.Barrier.RemoveThread` | extern/benchmark/src/mutex.h:114-118 | one thread less, and a notification if somebody waits |
| `Barrier.ArriveCounts` | extern/benchmark/src/mutex.h:132-150 | for any counters: refused exactly when all are inside, waiting exactly when others are missing, else the next phase begins |
| `Barrier.RecheckCounts` | extern/benchmark/src/mutex.h:138-150 | for any counters: leave exactly after the phase has passed, be last exactly when all have entered |
| `Barrier.InvStep` | extern/benchmark/src/mutex.h:104-150 | every step keeps: the counters count threads, the k-th entry of a thread is phase k, one true return per phase, no lost wake-up |
| `Barrier.BarrierIsSafe` | extern/benchmark/src/mutex.h:104-150 | under any mix of waits and removals the check never fires, the phase is at most one ahead of a waiting thread, and exactly one wait per phase returns true |
| `Barrier.NobodyLeavesEarly` | extern/benchmark/src/mutex.h:129-150 | no thread leaves a phase before every still-registered thread has entered it |
| `Barrier.NeverAllAsleep` | extern/benchmark/src/mutex.h:104-118 | no wake-up is lost, so not all registered threads ever sleep |
| `Barrier.EveryWaitReturnsOnce` | extern/benchmark/src/mutex.h:104-150 | in every run and for every phase as many waits have returned as threads have entered it and are not inside any more |
| `Barrier.WhoWakesUp` | extern/benchmark/src/mutex.h:110-118 | in every run a notification, or a removal while somebody is inside, wakes all sleepers, a spurious wake-up its own thread, and nothing else wakes anybody |
| `Barrier.BarrierNeverHangs` | extern/benchmark/src/mutex.h:104-150 | n threads left to themselves come to rest after at most n(2n + 3) checks and notifications; then, if any is registered, one is outside, and every sleeper waits for a phase that not all have entered |
| `ArgsProduct.Advance` | extern/benchmark/src/benchmark_register.cc:336-339 | the carry loop increments the indices in place |
| `ArgsProduct.IncrementIsNext` | extern/benchmark/src/benchmark_register.cc:336-339 | incrementing the digits of i gives the digits of i + 1 |
| `ArgsProduct.DigitsAtEnds` | extern/benchmark/src/benchmark_register.cc:329-340 | the indices are zero at first and again after the last row |
| `ArgsProduct.Total` | extern/benchmark/src/benchmark_register.cc:322-326 | the product of the sizes modulo 2^64 |
| `ArgsProduct.Benchmark.ArgsProduct` | extern/benchmark/src/benchmark_register.cc:317-343 | refused exactly when the first row, or without rows the names, have another number of arguments, which for a benchmark made by settings means any row; else row i holds the arguments at the mixed-radix digits of i |
| `ArgsProduct.Benchmark.Accepts` | extern/benchmark/src/benchmark_register.cc:495-501 | the check on the number of arguments |
| `ArgsProduct.Benchmark.Args` | extern/benchmark/src/benchmark_register.cc:366-370 | a row of another number of arguments is refused, any other appended |
| `ArgsProduct.Benchmark.ArgNames` | extern/benchmark/src/benchmark_register.cc:351-355 | names of another number are refused, any others set |
| `ArgsProduct.SettingsStayUniform` | extern/benchmark/src/benchmark_register.cc:317-370 | after any settings of a new benchmark all rows have the same number of arguments, and so have the names |
| `ArgsProduct.AppendedSize` | extern/benchmark/src/benchmark_register.cc:322-328 | as many rows as the product of the sizes modulo 2^64, none if a list is empty |
| `ArgsProduct.CombinationAppearsAtItsValue` | extern/benchmark/src/benchmark_register.cc:329-340 | a combination of positions is the row at its value and no other |
| `ArgsProduct.EveryCombinationIff` | extern/benchmark/src/benchmark_register.cc:322-340 | every combination appears if and only if the product of the sizes is below 2^64 |
| `ArgsProduct.AllCombinationsLost` | extern/benchmark/src/benchmark_register.cc:322-340 | for any 64 lists of two arguments no combination appears |

## Left out

- Sockets, connectors, compressors and stream parsers: input and output; the connector is an environment that calls each callback later and at most once.
- Byte encoding of MessagePack: received data is an object tree, malformed or truncated, and the formatter receives the parser's events.
- The server side: the peer is the environment of the client.
- Thread pool scheduling: a log of posted tasks stands for it.
- The timeout of synchronous requests, loggers, builders, configuration and error texts: they decide nothing modelled here.
- Notifications sent by the client: one packed message and no state.
- Use of an empty future, and the forms of `then` with a single handler: they only forward.
- Floating point printing: the text is part of the object; the length bound takes it to have at most 20 characters.
- Other libraries below extern/: only the barrier and the product enumeration are modelled.
- Conforming.EachRequestGetsItsOwnReply: the peer replies at most once per written request, and no read fails; a failed write is not also answered. `Protocol` has no such restriction.
- Buffer.CalculateNextCapacity: takes a positive current capacity, which every buffer has; doubling zero would not end.
- ArgsProduct.Benchmark.ArgsProduct: takes at least one list; without any the source reads an index that does not exist.
- Barrier.BarrierNeverHangs: spurious wake-ups, arrivals and removals are not counted among the steps, since the environment may bring any number of them.
- Buffer.Buffer.MakeFrom: the size given is the number of bytes at the pointer, as its users must see to.
- Barrier.BarrierIsSafe: does not model the overflow of the 32-bit phase counter, which the language leaves undefined.
- RefCount.InvStep: a handle is written by one thread at a time and read by none meanwhile, as the language demands; fewer than 2^64 handles exist.
- Buffer.Buffer.Resize: bytes exposed by growing are unspecified, as in the source.
- Client.Client.AsyncRequest: takes a table that is not full, since the loop would not end, and is not interleaved; `Protocol` interleaves its steps.
- Client.Client.DrawFreeId: likewise.
