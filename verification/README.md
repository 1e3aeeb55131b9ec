# A cinema booking service: model and proofs

The program is a C client and server for booking cinema seats. The server keeps films, screenings,
reservations and cancellations in SQLite; one thread per client takes requests off a socket, goes through
a reader/writer lock, runs a handler and answers. This project models that behaviour in Dafny and proves
what the program is built to guarantee: the lock excludes and never deadlocks, clients see the server as if
requests were run one at a time, no table ever breaks a constraint, no ticket is lost, and what one side
writes into a packet is what the other side reads. `dafny verify dfyconfig.toml` checks everything.

## How it is modelled

- `Lock`, `LockInvariant`, `LockSafety`, `LockLiveness`: the lock as a transition system. Threads of one
  program interleaving over shared variables cannot be Dafny methods, so each thread has a program counter,
  and a step of the system is one pthread or semaphore call, one counter update or one test of one thread,
  for any number of threads. Mutexes are plain flags: nothing in the state says who locked one, so every
  "this unlock was justified" is proved from the invariant, which counts the threads at each program point
  (`Count`, a multiset of program counters). A `sem_wait` on `shortwait` is two actions, joining the queue and being served. Who is served is left
  open, except in the one theorem that assumes arrival order.
- `Database`, `Queries`: the four tables as sets of rows with their AUTOINCREMENT marks, each statement as
  a function that applies or fails, and each SELECT as a relation between tables and the row sequences it
  may return (its ORDER BY leaves ties open); what each may return is proved on rows and columns, both ways. Uniqueness and foreign keys are proved, not built into types.
- `Service`, `History`: each handler as a check followed by one or two statements, the sequential
  specification of the whole server, and properties of histories of requests.
- `Server`, `Linearizability`, `ServerInvariant`, `ServerTheorems`, `Sums`: any number of threads, each
  taking requests through lock, check, statements and reply, all of it interleaved. A handler's check and
  its statements are separate steps, so are the two statements of a cancellation. A list is sent inside the
  lock, one step per receive, and each receive may bring any packet or fail. `hist` is what clients see;
  `lin` is bookkeeping that no step reads.
- `CStrings`, `Packets`, `Items`: signed bytes, NUL-terminated strings in 512-byte buffers, `atoi`, and
  what each packet looks like and means. `Buffers`: the same encoders and decoders as methods that rewrite
  an array in place, with the zero barrier at index 512.
- `Transfer`: the list transfer as two programs joined by a connection. `Marshalling`: both loops over one
  reused buffer, against a peer that sends anything, with failed receives leaving the buffer as it was.
- `QueryData`, `LinkedList`: the row matrix that doubles, and the linked list with its iterator.
  `Handlers`: the handlers on the shared database, and lists and seat maps built from query rows.
- `EndToEnd`: from a client's call to the client's answer.

## Where code and documentation differ

- database.c:74 says `rows <= capacity`; the code keeps `rows < capacity`, growing one row early.
- `get_synchro_type` has no case for the list of cancelled tickets, so it enters as a writer by default
  (server.c:164), although it only reads.
- The count byte of a transfer is the list's length only up to 127 (`Transfer.CountByte`). The transfer is
  right for any length all the same, as nobody reads that byte.
- Deleting a film that does not exist is answered OK (server.c:268-275 has no existence check).
- `process_request` can answer INVALID_REQUEST (server.c:171-174), but its caller drops undecodable packets
  first (server.c:115-119), so no client ever sees a protocol error; which packets are dropped is
  `Packets.DecodeRejects`.

## Model

The main results come first: the concurrent server, the lock, end to end, the transfer, the codec, histories,
queries and structures. What they rest on follows.

| member | source | states |
|---|---|---|
| `ServerTheorems.EveryRunIsLinearizable` | server.c:169-221 | In every reachable state, the requests and replies clients saw are those of running the requests one at a time, in an order that respects real time |
| `ServerTheorems.QuiescentTables` | server.c:169-221 | With no request in progress, that order holds every request and the tables are exactly those it leaves |
| `ServerTheorems.AnswerHasItsPlace` | server.c:169-221 | Every reply a client got in a concurrent run is the one its request has at its place in the order, on tables that satisfy every constraint |
| `ServerTheorems.QuerySeen` | server.c:359-502 | What a client got for each of the five queries in a concurrent run, row for row on the tables at its place in the order |
| `ServerTheorems.OrderRespectsRealTime` | server.c:169-221 | A request that arrived after another one's reply comes after it in the order |
| `ServerTheorems.TablesStayConsistent` | database.c:10-43 | In every reachable state, also between the two statements of a cancellation, stated on the rows: film names unique, no two screenings in the same day, month, slot and hall, no seat reserved twice, no screening without its film, no reservation or cancellation without its screening |
| `ServerTheorems.TicketsBounded` | server.c:313-355 | At any moment of any run, requests in progress or not, the active plus cancelled tickets of a live screening are at least those at the start plus the acknowledged reservations, at most that plus the requests in progress |
| `ServerTheorems.TicketsMatchAcks` | server.c:313-355 | Whenever no request is in progress, active plus cancelled tickets of a live screening are those at the start plus one per reservation clients saw acknowledged, whatever the threads did before |
| `ServerTheorems.NoIdReturns` | database.c:17 | In any run of the concurrent server, the id of a screening that is gone never comes back |
| `ServerTheorems.NoUnknownError` | database.c:17-38 | From an empty database no client is told of an unknown error before more requests arrived than there are row ids |
| `ServerTheorems.ServerProgress` | server.c:169-221 | While a request is in progress, some thread with a request can take a step, the receives of a list transfer included |
| `ServerTheorems.AnyRequestArrives` | server.c:107-124 | A thread without a request can be given any request |
| `ServerTheorems.AnyReceiveMoves` | server_marshalling.c:201-211 | Inside a transfer the server goes on whatever the receive brings |
| `ServerTheorems.ServiceIsBounded` | server.c:169-221 | Serving n requests takes at most 22 n steps plus one per item of the lists sent, under every interleaving and whatever the peers answer or fail to answer during transfers |
| `ServerTheorems.MaximalRunsFinish` | server.c:169-221 | A run that only a new request could continue has answered every request, transfers included, and left the lock as at the start |
| `ServerTheorems.WritersAreClassified` | server.c:150-167 | Every request that can change any tables enters as a writer; the only query that does is the list of cancelled tickets |
| `ServerInvariant.RunSysInv` | server.c:169-221 | At the end of every run the invariant of the concurrent server holds: places in the lock fit request phases, the tables are those of the decided requests up to one half-done cancellation, each reply is decided and sent once |
| `LockSafety.MutualExclusion` | synchronization.c:32-82 | A writer inside its critical section is there alone: no other writer, no reader |
| `LockSafety.WriterPreference` | synchronization.c:33-63 | From the moment the first writer gets `shortwait` until `writers` is 0 again, `readcount` never grows, however many writers join; no fairness assumed |
| `LockSafety.AtMostOneReaderOvertakes` | synchronization.c:35-71 | With `shortwait` served in arrival order, no two steps raise `readcount` while a writer stands in that queue |
| `LockSafety.FirstWriterTakesOver` | synchronization.c:33-39 | When a writer gets `shortwait`, it is the only one counted and the writers own `shortwait` from then on |
| `LockSafety.FirstReaderNeverWaits` | synchronization.c:57-67 | The first reader, holding `shortwait` and `r_mtx`, finds `g_mtx` free |
| `LockSafety.LeavingWriterNeverBehindWaiter` | synchronization.c:33-53 | While a leaving writer wants `w_mtx`, no writer blocks on `shortwait` with `w_mtx` locked |
| `LockSafety.ReleasesAreJustified` | synchronization.c:39-81 | Every mutex that is unlocked is locked and every semaphore that is posted is taken, also where another thread took it (the last reader's unlock of `g_mtx`, the last writer's post of `shortwait`) |
| `LockLiveness.NoDeadlock` | synchronization.c:32-82 | In every reachable state with a thread between `enter_critical` and the end of `leave_critical`, some such thread can move |
| `LockLiveness.EveryWaitHasAHolder` | synchronization.c:32-82 | Whenever a thread is blocked, some thread stands between getting and giving back what it waits for, alone or for its group |
| `LockLiveness.QuiescentIsInitial` | synchronization.c:20-82 | A reachable state where nobody can move has all threads out, counters 0, semaphores 1, mutexes free |
| `LockLiveness.RunIsBounded` | synchronization.c:32-100 | Each `enter_critical` is paid for with at most 17 steps, so a run of a finite workload is finite under every interleaving |
| `LockLiveness.LastEntriesFinish` | synchronization.c:32-100 | Once nobody enters any more, at most 16 steps per thread remain |
| `LockLiveness.ReadersShare` | synchronization.c:56-72 | Any set of threads can be inside as readers at the same time |
| `LockLiveness.BlockedIsNobody` | synchronization.c:32-82 | If every thread stands before an action that blocks, there is no thread between entry and exit |
| `LockInvariant.CountersCountThreads` | synchronization.c:32-82 | In every reachable state `writers` is the number of threads between its increment and its decrement, and `readcount` likewise |
| `LockInvariant.ReachableInv` | synchronization.c:20-82 | The invariant holds in every reachable state, for any number of threads |
| `LockInvariant.StepKeepsInv` | synchronization.c:32-82 | Every action of every thread keeps the invariant: counters, mutexes and semaphores agree with how many threads stand at each program point, `g_mtx` and `shortwait` owned by one thread or by the reader or writer group |
| `LockInvariant.KeepsCounts` | synchronization.c:32-82 | The core of it: one action, for any numbers of other threads at any points, keeps the whole accounting |
| `EndToEnd.MakeReservationExact` | client_marshalling.c:145-159 | On the rows, for every id text that fits its field: NO_SUCH_DATA if and only if no screening has the id, DB_VIOLATION if and only if the seat is reserved, else SRV_OK with exactly the row added |
| `EndToEnd.CancelReservationExact` | client_marshalling.c:162-167 | On the rows, over a buffer that is not cleared: SRV_OK if and only if the row was there and ids remain, and it moved; NO_SUCH_DATA and UNKNOWN likewise; never DB_VIOLATION |
| `EndToEnd.AddScreeningExact` | client_marshalling.c:117-129 | On the columns: NO_SUCH_DATA without the film, UNKNOWN without ids, SRV_OK if and only if day, month, slot and hall are possible and no stored screening has all four, else DB_VIOLATION; the row stored |
| `EndToEnd.DeleteScreeningExact` | client_marshalling.c:132-140 | On the rows: SRV_OK if and only if the screening exists; exactly it and what refers to it go; the id marks stay |
| `EndToEnd.AddMovieExact` | client_marshalling.c:95-104 | On the rows: SRV_OK with exactly the film added if and only if its name is free, else DB_VIOLATION |
| `EndToEnd.DeleteMovieExact` | client_marshalling.c:107-114 | On the rows: always SRV_OK; exactly the film, its screenings and what refers to them go; the id marks stay |
| `EndToEnd.EveryAnswerIsHonest` | client_marshalling.c:61-167 | For each update call: any answer but SRV_OK means the tables are as before, PROTOCOL_ERROR never comes, constraints and field sizes hold afterwards |
| `EndToEnd.ConcurrentAnswer` | client_marshalling.c:71-167 | In a run of the concurrent server, the answer an update call returns is the one it has on its own at its place in the order |
| `EndToEnd.ClientScreeningList` | client_marshalling.c:225-269 | From the call to the client's list, whatever the buffer held: one item per screening of the film and no other, with its id, day, month, slot and hall, strictly by month, day, slot, hall; the only possible answer |
| `EndToEnd.ClientTicketList` | client_marshalling.c:176-222 | From the call to the client's list: one item per reservation of the client and no other, with its seat and what is stored of the screening, by date |
| `EndToEnd.ClientCancelledList` | client_marshalling.c:176-222 | From the call to the client's list: each ticket as often as the client cancelled it, with its seat and what is stored of the screening, by date |
| `EndToEnd.ClientMovieList` | client_marshalling.c:272-313 | From the call to the client's list: one item per film and no other, with its name and description |
| `EndToEnd.SeatsAsked` | client_marshalling.c:320-325 | From the call to the seat map: 300 bytes, 1 for exactly the seats reserved on the screening the text names |
| `EndToEnd.ClientHall` | client_marshalling.c:320-338 | From the query's rows over the packet to the client's hall: a seat shows as taken if and only if it is reserved |
| `EndToEnd.EveryRowCanBeSent` | server_marshalling.c:142-275 | From an empty database, in every run on decoded requests, every stored film, screening and ticket makes an item that fits its packet |
| `EndToEnd.RunsStoreOnlyWhatFits` | request_builder.c:26-107 | In every run of the concurrent server on decoded requests, what is stored fits its packets |
| `Transfer.TransferIsExact` | server_marshalling.c:142-275 | Joint run, any length: at most one packet in flight, never stuck, over after 2n + 4 steps with the client's list equal to the server's and the connection empty |
| `Transfer.TraceShape` | server_marshalling.c:142-275 | Against any peer: the items asked for, in order, a prefix of the list; then one END if all went out and one more NEXT came, else one OK |
| `Marshalling.ConversationIsExact` | client_marshalling.c:176-313 | In every such run: n + 2 packets each way, the last one END, and the client's list is the server's |
| `Marshalling.ConversationExists` | client_marshalling.c:176-313 | For every list, the two loops do find a run in which each receives what the other sends |
| `EndToEnd.ExchangeIsReaction` | server_marshalling.c:201-224 | Each step of a transfer inside the lock is the reaction of the server's loop to the same receive, with the same items left and the same end |
| `EndToEnd.TransferOpens` | server_marshalling.c:188-199 | A list reply opens a transfer with as many items as the client is to get; any other reply is sent at once |
| `Marshalling.SendList` | server_marshalling.c:142-275 | The loop over one reused buffer sends exactly the specified trace against any peer, and returns after at most n + 1 receives |
| `Marshalling.GetList` | client_marshalling.c:176-313 | The client's loop builds exactly the specified list and sends exactly the specified packets, against any peer |
| `Marshalling.ClientShape` | client_marshalling.c:196-215 | Against any peer the client's list is what the ITEM packets said up to the first packet that is none |
| `Marshalling.ClientGets` | client_marshalling.c:181-215 | Against any peer, from the request on: nothing unless BEGIN comes first, else the ITEMs up to the first other packet; how often the client asks and when it notices a lost connection |
| `Transfer.StepGood` | server_marshalling.c:142-275 | Every step of a joint transfer keeps the split of the list between client, connection and server |
| `Transfer.CountByte` | server_marshalling.c:191-194 | The announced count is right if and only if the list has at most 127 items |
| `Packets.RequestRoundTrip` | client_marshalling.c:95-180 | The server decodes every call of the client to the request it stands for, whatever the client's buffer held before |
| `Packets.DecodeRejects` | request_builder.c:19-107 | On an arbitrary packet: ignored if and only if the header is unknown, or the first of two strings leaves no room for the second |
| `Packets.AckRoundTrip` | server_marshalling.c:288-310 | The client's answer tells OK, missing data, constraint violation, protocol error and the remaining errors apart exactly, whatever the reply buffer held |
| `Items.ItemRoundTrip` | server_marshalling.c:201-259 | The client reads the item the server wrote over its last received packet |
| `Database.ConstraintsSpelledOut` | database.c:10-43 | The invariant on the tables is the list of the schema's constraints on rows and columns, with the bounds of the ids |
| `History.TicketsConserved` | server.c:313-355 | Over any history, active plus cancelled tickets of a live screening grow by exactly its acknowledged reservations |
| `History.TicketsAreSales` | server.c:313-355 | From an empty database they are exactly the acknowledged reservations |
| `History.IdsNeverReused` | database.c:17 | Screening ids only grow; the id of a deleted screening never returns, over any history |
| `History.MarksCount` | database.c:17-38 | Over any history the screening mark grows by exactly the acknowledged new screenings and the cancellation mark by exactly the acknowledged cancellations; nothing else uses up ids |
| `History.UnknownErrorNeedsAllIds` | server.c:228-232 | From an empty database, a request fails for want of ids only after all ids went to acknowledged requests of its kind |
| `Queries.ScreeningListUnique` | includes/queries.h:21 | No two sequences answer it: UNIQUE on the slot makes the order total |
| `Queries.ScreeningListIncreases` | includes/queries.h:21 | A sequence answers the query if and only if it holds exactly the film's screenings and increases strictly by month, then day, then slot, then hall, written out on the columns |
| `Queries.ReservationListExact` | includes/queries.h:32-35 | A sequence answers the query if and only if it holds each reservation of the client once, by month, day, slot, hall of the screening; the JOIN drops and doubles nothing |
| `Queries.CancelledListExact` | includes/queries.h:27-30 | A sequence answers the query if and only if it holds each ticket as often as the client cancelled it, by month, day, slot, hall of the screening |
| `Queries.MovieListExact` | includes/queries.h:23 | A sequence answers the query if and only if it holds each film once |
| `QueryData.Drain` | database.c:241-253 | After any rows, `next_row` gives exactly those, in order, then NULL |
| `QueryData.QueryData.FewRowsMoved` | database.c:172-219 | All doublings together move capacity - 10 - doublings rows, fewer than 2n; capacity is at most max(10, 2n) |
| `LinkedList.Visit` | utilities.c:139-161 | An iterator visits every element once, in order, and stops |
| `Database.InsertMovieKeeps` | includes/queries.h:2 | Inserting a film keeps every constraint |
| `Database.InsertScreeningKeeps` | includes/queries.h:4 | Inserting a screening keeps every constraint, its fresh id included |
| `Database.InsertReservationKeeps` | includes/queries.h:10 | Inserting a reservation keeps every constraint: no seat twice, no missing screening |
| `Database.InsertCancellationKeeps` | includes/queries.h:12 | The first statement of a cancellation keeps every constraint |
| `Database.DeleteReservationKeeps` | includes/queries.h:13 | The second one does too |
| `Database.CascadeKeeps` | database.c:27-43 | Deleting any set of screenings with the cascade leaves no reservation or cancellation without its screening |
| `Database.DeleteMovieKeeps` | includes/queries.h:8 | Deleting a film with both levels of cascade leaves nothing dangling |
| `Database.ScreeningRejectedIffInconsistent` | database.c:15-25 | A screening goes in if and only if the tables with it satisfy every constraint |
| `Database.ReservationRejectedIffInconsistent` | database.c:27-34 | A reservation goes in if and only if it is new and the tables with it satisfy every constraint |
| `Queries.ListExists` | includes/queries.h:21-35 | Any set of rows can be listed once each in an order its sort key allows |
| `Service.UpdateKeepsConsistent` | server.c:254-355 | Every handler keeps every constraint |
| `Service.FailureChangesNothing` | server.c:224-355 | An answer other than OK leaves all tables as they were |
| `Service.MovieAnswer` | server.c:254-265 | A film is refused exactly when its name is taken |
| `Service.MovieDeleted` | server.c:268-275 | Deleting a film always succeeds and removes exactly the film and what hangs on it; the id marks stay |
| `Service.ScreeningAnswer` | server.c:277-293 | Each possible answer to a new screening as an if-and-only-if on the columns, and the row stored |
| `Service.ScreeningDeleted` | server.c:296-310 | Exactly the screening and what refers to it go; NO_SUCH_ELEMENT if and only if it did not exist; the id marks stay |
| `Service.ReservationAnswer` | server.c:313-329 | OK if and only if the row was absent and now present; the refusals if and only if the screening is missing, or the seat taken |
| `Service.CancellationAnswer` | server.c:332-355 | OK moves the row between tables and frees the seat; a cancellation that passes its check never violates a constraint |
| `Service.QueryAnswerable` | includes/queries.h:21-35 | Every query has an answer on any tables |
| `Service.ScreeningsAnswer` | server.c:359-394 | The answers to a screening list request are exactly those, on rows and columns |
| `Service.MoviesAnswer` | server.c:398-435 | The answers to a film list request are exactly each film once |
| `Service.SeatsAnswer` | server.c:483-502 | The answer to a seat request is 300 bytes, 1 exactly where a reservation on the screening has the seat |
| `Service.ReservationsAnswer` | server.c:439-479 | The answers to a ticket list request are exactly each reservation of the client once, by date |
| `Service.CancelledAnswer` | server.c:439-479 | The answers to a cancelled list request are exactly each ticket as often as the client cancelled it, by date |
| `Service.CancelledAnswerLength` | server.c:439-479 | In all as many as the client has cancellations |
| `CStrings.AtoiOfDecimal` | request_builder.c:96 | `atoi` undoes the decimal rendering of every integer, digit by digit |
| `CStrings.AtoiReads` | request_builder.c:96 | `atoi` skips leading blanks, reads a number with or without a sign and stops at the first character that is no digit |
| `CStrings.AtoiOfNoNumber` | request_builder.c:96 | Where no number begins it gives 0 |
| `CStrings.ReadBack` | request_builder.c:85 | A NUL-free string followed by a NUL is read back whole, whatever surrounds it |
| `Packets.DecodedFits` | request_builder.c:26-107 | Nothing longer than its field is ever stored, whatever packet arrives |
| `Items.RowsKeepFitting` | request_builder.c:44-105 | Handling any decodable request keeps every stored row within its packet's fields |
| `Items.StoredRowsMakeItems` | server_marshalling.c:159-256 | Every stored film, screening and ticket makes an item that fits 512 bytes, with its numbers unchanged by the byte |
| `Buffers.StrLen` | request_builder.c:31 | The scan stops at the first NUL and never passes the barrier |
| `Buffers.FillReservationData` | client_marshalling.c:145-151 | In place: seat, id and client name end up where the packet format has them, everything else untouched |
| `Buffers.WriteCall` | client_marshalling.c:95-325 | In place: each request function leaves the packet of its call in the buffer |
| `Buffers.ReqMovieAdd` | request_builder.c:26-48 | Decodes in place as the packet format says, with every read inside 513 bytes |
| `Buffers.ReqReservation` | request_builder.c:91-107 | The same for reservations and cancellations |
| `Buffers.BuildRequest` | server_marshalling.c:89-124 | The whole dispatch decodes any 512 bytes behind the zero barrier without reading beyond it |
| `Buffers.WriteItem` | server_marshalling.c:201-259 | In place: the item packet over whatever the buffer held |
| `QueryData.QueryData.Callback` | database.c:172-200 | Appends one row, keeps the earlier ones and the cursor, and keeps `rows < capacity` |
| `QueryData.QueryData.IncreaseCapacity` | database.c:290-299 | Doubles the matrix and keeps its rows |
| `QueryData.QueryData.GetNextRow` | database.c:241-253 | Yields the row at the cursor and advances, or NULL once all were taken |
| `QueryData.DoQuery` | database.c:119-132 | The matrix holds the delivered rows in order |
| `LinkedList.List.Add` | utilities.c:90-103 | Appends: contents grow by the element at the end, `last` is the last reachable node, `length` their number |
| `LinkedList.List.Get` | utilities.c:106-120 | Element i of the contents, or the error exit exactly outside the list |
| `LinkedList.Iterator.Next` | utilities.c:154-161 | The next element and one position on, or the error exit exactly when depleted |
| `Handlers.CountTells` | includes/queries.h:15-19 | COUNT(*) is other than 0 if and only if the element the handler asks about exists |
| `Handlers.AssertExistence` | server.c:241-251 | Reading the count back out of its text cell tells existence |
| `Handlers.Cinema.ExecuteAndAck` | server.c:224-238 | Runs the statements and answers with what their outcome means |
| `Handlers.Cinema.AddMovie` | server.c:254-265 | Refines `Service.Update` on the shared database: one statement, no check |
| `Handlers.Cinema.DeleteMovie` | server.c:268-275 | Refines `Service.Update`: one cascading statement, no check |
| `Handlers.Cinema.AddScreening` | server.c:277-293 | Refines `Service.Update`: checks the film by COUNT(*), then inserts |
| `Handlers.Cinema.DeleteScreening` | server.c:296-310 | Refines `Service.Update`: reads the id text, checks the screening, then deletes with cascade |
| `Handlers.Cinema.MakeReservation` | server.c:313-329 | Refines `Service.Update`: checks the screening only and leaves a taken seat to the constraint |
| `Handlers.Cinema.CancelReservation` | server.c:332-355 | Refines `Service.Update`: checks the reservation, then two statements, the second only after the first |
| `Handlers.Cinema.HandleUpdate` | server.c:182-199 | The dispatch meets the specification, keeps every constraint, and changes nothing unless it answers OK |
| `Handlers.BuildList` | server.c:366-479 | Rows captured, taken out one by one and appended: the list holds what each row says, in order |
| `Handlers.ScreeningRowReads` | server.c:379-387 | Printing a screening's columns and reading them back gives the stored values |
| `Handlers.TicketRowReads` | server.c:462-471 | The same for tickets |
| `Handlers.ScreeningListFor` | server.c:366-394 | One item per screening row, in order |
| `Handlers.MovieListFor` | server.c:406-435 | One item per film row, in order |
| `Handlers.TicketListFor` | server.c:446-479 | One item per ticket row, in order |
| `Handlers.MarkSeats` | server.c:483-496 | Byte i is 1 if and only if the query returned seat i |
| `Handlers.SendSeats` | server_marshalling.c:280-286 | The seat bytes behind an OK header, in a buffer that is not cleared |
| `Handlers.ReadHall` | client_marshalling.c:327-337 | The first 64 seats if the header is OK, else nothing |
| `EndToEnd.GetScreenings` | server.c:359-363 | From the query's rows to the packets sent: the transfer of exactly these rows, against any peer, after at most n + 1 receives |
| `EndToEnd.GetMovies` | server.c:398-402 | The same for films |
| `EndToEnd.GetReservations` | server.c:439-443 | The same for tickets |
| `EndToEnd.SendSeatingInfo` | server.c:483-502 | Every byte of the reply says whether that seat is reserved |
| `Handlers.Cinema.ExecuteStatements` | database.c:137-156 | The loop over the statements runs them up to the first that fails, whose outcome it reports; what ran before stays |

## Left out

- Sockets, the logger and its message queue, the client's `main` and its menus (sockets.c, logger.c, server_logging.c, client.c, ui.c): a send or receive moves one whole packet, or a receive fails and leaves the buffer alone; short TCP reads are not modelled.
- ServerTheorems.ServerProgress: a receive inside a transfer returns, with a packet or a failure. A peer that stays connected and silent keeps the server in `receive_message` and thereby in the lock, as there is no timeout.
- ServerTheorems.MaximalRunsFinish: the same assumption.
- ServerTheorems.ServiceIsBounded: the same assumption.
- SQL text, quoting and SQLite itself: each statement has its relational meaning, disk errors do not occur, an exhausted AUTOINCREMENT is "any other error".
- QueryData.QueryData.Callback: a row with another number of columns than announced, which the code only logs before it leaves cells unset or writes past the row, is excluded.
- Handlers.MarkSeats: seats outside 0..299, which the code does not check before it indexes, are excluded. Stored seats never exceed 127 (`Items.RowsKeepFitting`); only negative ones are at issue.
- EndToEnd.SendSeatingInfo: the same bound on seats.
- EndToEnd.ClientHall: the same bound on seats.
- EndToEnd.MakeReservationExact: id texts whose number an `int` cannot hold are excluded, as `atoi` has no defined result for them; `CStrings.Atoi` is on unbounded integers.
- EndToEnd.CancelReservationExact: the same bound on ids.
- EndToEnd.DeleteScreeningExact: the same bound on ids.
- Marshalling.GetList: texts of a peer that are longer than the client's fields (`id[30]`, `movie[128]`, client_marshalling.c:204-206, 253) overflow them in the code; the model keeps such texts whole. An item without a NUL would make the client read past its buffer; the model stops at its end.
- Marshalling.ClientShape: the same over-long and unterminated texts.
- Items.DecodeItem: the same over-long and unterminated texts.
- Over-long ids in `req_screening_delete` (request_builder.c:85) overflow a field in the code; the model keeps the text as it is. The id in the seat query is pasted into the SQL text unread; the model takes the number it stands for.
- The three `send_` functions and the three `get_` functions for lists differ only in the item they write or read; each trio is one method with the kind of item as a parameter.
- A client that breaks off a transfer has a prefix of the list; in the history of the concurrent server its reply still counts as the whole list the server determined.
- A thread whose client hangs up ends between two requests (server_marshalling.c:99-104): in the model it just receives no more.
- Reader starvation: a steady stream of writers keeps readers out, by the lock's design, so no statement about it is made. Weak memory: every action is one atomic step.
- Memory: allocation, `free`, the `destroy_` functions; also the DEBUG sleeps, the unused macros of includes/queries.h:37-51, `error_name`, `req_log_msg`, `n_cols`, `n_rows`, calling `synchro_init` twice, and syncrotest.
