# Asynchronous Thrift: a verified model

The repository adds an asynchronous client and server, a client connection pool and a code
generator to Thrift. This project models the parts of it whose correctness is an argument rather
than a glance, and proves what they promise. `dafny verify dfyconfig.toml` checks all of it.

* **Framed connections.** `Framing.dfy` says what a byte stream means: a recursive parser of
  length-prefixed frames, proved to be the only one that loses nothing and stops only where no
  legal frame is complete. `AsyncConnection.dfy` is the receiver in its own form, one buffer that
  is resized and shifted by read and write handlers. However the bytes are cut into completions,
  it dispatches just the frames the parser finds, each after at most as many reads as it has bytes.
  `ReplyPairing.dfy` puts a client, two byte pipes and a server together: as long as no oneway call
  is answered, every reply reaches the callback of its own request although the sequence id is
  always 0, and client and server never wait for each other. `AsyncClient.dfy` shows that a callback
  runs exactly once per call, also when it makes the next call, closes or attaches.
  `ServerConnections.dfy` does the bookkeeping of the server's connections, each with one life and
  one thing outstanding.
* **Connection pools.** `ThriftConnection.dfy` and `ThriftConnectionPool.dfy` are the classes of one
  pool, with the exact arithmetic of the reclaim job. `PoolInterleaving.dfy` takes their lock
  sections apart for any number of threads: conservation, exclusive ownership, and an end to every
  operation after a bounded number of its own steps. `ThriftPool.dfy` is the pool of pools:
  reconciliation of server lists as multisets, connections that come back to the pool they came
  from even after it was removed, a shortcut to the pool on this host, and a choice of pools that
  takes turns (`RoundRobin.dfy`, also for the io services); its `Run` takes any calls, jobs, sweeps
  and failures in any order.
* **Generated code.** `Serialization.dfy` is what the emitted `read`, `write` and `operator==` mean,
  for every schema; `EmittedCode.dfy` has them as loops over a protocol's stream, proved equal.
  `Evolution.dfy` and `SchemaEvolution.dfy` say what a reader of one schema makes of a stream of
  another, `RoundTrip.dfy` when reading gives back what was written. `Reflection.dfy` is the
  depth-first emission of type specifications, `Dispatch.dfy` the ids, `fill_result`, `recv_` and
  `process_fn` along a chain of services, from what a handler does to the error code the callback
  is invoked with.
* **The threaded server.** `ThreadedServer.dfy`: bounded task set, no lost wake-up, and an end to
  stopping.

The network, timers, threads and user code are what the theorems quantify over: every connect may
succeed or fail, every completion may bring any bytes or an error, threads take their steps in any
order, and callbacks do what they like within the interface.

## What the code does not keep

Six places fall short of what one would expect. Each is stated as it is, with the condition under
which it does hold and a concrete case in which it does not.

* The round trip does not hold for every schema. A struct-typed field with a constant default is
  built with `__isset` bits set (t_cpp_generator.cc:550), and `read` does not reset the object, so
  an unset optional field inside comes back set. `RoundTripLaw` says exactly for which schemas the
  round trip holds; `ConstantDefaultLoses` is a short one that loses.
* The callback of an asynchronous call is invoked with an error code, and one of value 0 tests as
  no error. A two-way function that returns nothing has no case in `fill_result` (inl:584), so its
  reply is not read. Of the others, a declared exception, a TException like any other, becomes
  kThriftUnknown, which is 0 (async_exception.h:24, 73-78), and what else a handler throws travels
  as a TApplicationException of type UNKNOWN, which is 0 too (t_cpp_generator.cc:2180).
  `ToldExactly` and `ToldTruly` say exactly for which replies the callback gets an error, and the
  right one; `NoOutcomeIsAnError`: for nothing that a handler does. `ExceptionIsLost` is a service
  that shows it.
* `get` prefers the pool on this host by a shortcut. Removing a pool of this host clears it even
  if another stays in use (thrift_pool.h:1183, 1301). The contracts of `UpdateServers`,
  `AddServer` and `RemoveServer` say exactly when the shortcut is still set if a pool is on this
  host, `Run` of `ThriftPools` over all runs: always, if no two pools in use are on it at a time;
  `LocalIsChosen` is what that is good for, and `LocalPassedOver` a run after which it fails.
* A server that does not know a oneway method answers the call (t_cpp_generator.cc:2016-2028), and
  the client takes the answer for the reply to its next call. `PairingExactly`: however the server
  answers, all runs pair if and only if no call wants a reply or no oneway call is answered.
  `UnknownOnewayMispairs` is a run that does not.
* Reflection tells types apart by fingerprint alone. `WrittenExactly`: a fingerprint is written if
  and only if the first type of this fingerprint that the search comes across is of no other
  program. `TwinIsLost`: a struct of an included program, met first as a member, takes the
  fingerprint of a struct of this program, which is never written; asked for the other way round,
  it is.
* After a oneway call of an asynchronous processor the server goes on receiving without finishing
  the frame (async_server.cpp:268-269). `Run` of `AsyncConnection`: over all runs, the frames
  dispatched are frames of the stream, once each and in order, if and only if no read was
  completed right after a oneway call. `OnewayFrameIsSeenAgain` is a run in which a frame is
  dispatched twice.

## Model

Each member's contract is its claim; the third column says it in words.

| member | source | states |
|---|---|---|
| Framing.ParseSound | async/async_connection.h:204-254 | the frames found are legal and complete, nothing of the stream is lost, and parsing stops only where no further legal frame is complete |
| Framing.ParseComplete | async/async_connection.h:204-254 | any cutting of a stream into legal frames and a rest without one is the parser's, so the parser is the only such function |
| Framing.ParseAppend | async/async_connection.h:298-336 | cutting a stream anywhere and parsing the left-over with what follows finds the same frames |
| Framing.SendParse | async/async_connection.h:187-254 | payloads of legal sizes, framed and concatenated, are parsed back in order with nothing left |
| Framing.NumberOfDigits | async/async_connection.h:187-192 | decoding the big-endian digits of a number that fits gives the number |
| Framing.PrefixOfFrame | async/async_connection.h:204-254 | a part of one frame is never taken for another frame |
| AsyncConnections.AsyncConnection.constructor | async/async_connection.h:172-185 | a new connection has an empty history and a buffer within its bounds |
| AsyncConnections.AsyncConnection.StartRecv | async/async_connection.h:120-169 | the slice offered to the socket lies right behind the bytes held; restarting drops those; going on keeps the bytes of an incomplete frame and offers room for more, while a complete frame leaves no room, or less than none, and what was pipelined behind it is cut off |
| AsyncConnections.AsyncConnection.GetFrameSize | async/async_connection.h:187-192 | the length is that of the first four bytes held, high byte first |
| AsyncConnections.AsyncConnection.HandleBuffer | async/async_connection.h:204-254 | control ends up where the parser's view of the bytes says: reading on, handling the first frame, or closed with the right error; no byte changes |
| AsyncConnections.AsyncConnection.OnHandleRead | async/async_connection.h:298-309 | the new bytes come behind those held, every byte accepted is a finished frame or held, control is settled, and while reading goes on each byte brings the end of the frame nearer; an error closes and accepts nothing |
| AsyncConnections.AsyncConnection.OnHandleWrite | async/async_connection.h:312-336 | just the handled frame is taken off the front, what was pipelined behind it stays, and is settled at once |
| AsyncConnections.AsyncConnection.AsyncProcess | async/async_server.cpp:256-270 | a failed callback closes; one that is not oneway writes the reply; after a oneway one a read is started with the frame still in the buffer, a pipelined tail cut off, and no or negative room |
| AsyncConnections.AsyncConnection.ReceiveFrame | async/async_connection.h:204-309 | a stream delivered in pieces of any sizes: reading goes on until a frame is handed to on_handle_frame, its length is refused or the stream ends, as the parser decides; a frame of length L, L + 4 bytes with its header, takes at most one read per byte that was missing |
| AsyncConnections.AsyncConnection.Serve | async/async_connection.h:204-336 | for every stream and every cutting of it into reads, the frames dispatched are those of the parser, each once, at its place and in order; then the connection waits for more input, or has refused a length, as what is left over calls for |
| AsyncConnections.AsyncConnection.Run | async/async_connection.h:204-336 | after any events in any order, failures and oneway calls included: the frames dispatched are the first of the stream, once each in order, if and only if no oneway end was followed by a further completion |
| AsyncConnections.DispatchedInOrder | async/async_connection.h:204-336 | of any history the handlers keep: frames were dispatched once each in order if and only if no oneway end was followed up |
| AsyncConnections.AsyncConnection.DispatchedFrames | async/async_connection.h:204-336 | the frames handled so far are the first frames of the whole stream, once each in order, and all of them when the connection waits for input or refused a length |
| AsyncConnections.OnewayFrameIsSeenAgain | async/async_server.cpp:256-270 | a run, for every frame that fits the first buffer: it arrives, its oneway handling ends, a read of no bytes completes, and it is dispatched again, although the stream has it once |
| ReplyPairing.RepliesArePaired | async/async_client.cpp:94-157 | over every run, for a server whose reply may depend on how many requests it served before and so on its state: the server got the first requests made, in order; callbacks ran in order, once per call but for the one in progress, only oneway calls end with their write and only others get a frame; and if no oneway call was answered so far, each frame is the reply to its own request, also among requests of equal bytes |
| ReplyPairing.PairingExactly | async/async_client.cpp:94-157 | for every assignment of oneway calls by the client and unanswered ones by the server: all callbacks are told their own reply in all runs, whatever the answers, if and only if no call wants a reply or every oneway call that can be served is left unanswered |
| ReplyPairing.OnewayReplyIsMistaken | thrift_0.5.0_patch/t_cpp_generator.cc:2016-2028 | for any server that answers a oneway call there is a run in which the next call that wants a reply gets this answer |
| ReplyPairing.UnknownOnewayMispairs | thrift_0.5.0_patch/t_cpp_generator.cc:2016-2028 | a concrete server that does not know a oneway method, and a run in which the reply to the next call is the exception about it |
| ReplyPairing.EveryCallIsAnswered | async/async_server.cpp:279-297 | from a fresh connection, after any undisturbed run of calls of legal sizes, oneway ones unanswered: within a bounded number of steps taken in any order the call in progress ends in its own success, if and only if it is oneway or the server answers it |
| ReplyPairing.NoDeadlock | async/async_client.cpp:94-115 | a call in progress on a healthy connection that is oneway or answered always has an enabled step |
| ReplyPairing.StepKeeps | async/async_connection.h:204-336 | every step of client, pipes or server keeps the pairing invariant: order in any case, and what callbacks are told as long as no oneway call is answered |
| ReplyPairing.StepServed | async/async_server.cpp:279-297 | the bytes on their way up are always the requests not yet served, in order |
| ReplyPairing.StepReplied | thrift_0.5.0_patch/t_cpp_generator.cc:1767-1784 | while no oneway call is answered, the bytes on their way down are at most the one reply owed to the call in progress, so a reply that carries no usable id cannot be another's |
| ReplyPairing.StepAnswered | async/async_client.cpp:117-157 | a step adds to the log only the completion of the oldest call without one, and of a frame only its own reply |
| ReplyPairing.FrontRequest | async/async_connection.h:204-254 | what the server holds parses to the oldest request not yet served, or is not complete |
| AsyncClients.OnceAfter | async/async_client.cpp:14-21 | taking the operation out and then invoking its callback accounts for that call once |
| AsyncClients.AsyncThriftClient.AsyncCall | thrift_0.5.0_patch/t_cpp_generator.cc.inl:434-490 | on an open connection the call becomes the pending operation and nothing is called back; on another its callback runs at once with not_connected |
| AsyncClients.AsyncThriftClient.InvokeCallback | async/async_client.cpp:14-21 | whatever the callback does, including further calls, every call stays accounted for exactly once |
| AsyncClients.AsyncThriftClient.RunCallback | async/async_client.cpp:14-21 | a callback of any content keeps the accounting and never takes a completion back |
| AsyncClients.AsyncThriftClient.CompletePendingOp | async/async_client.cpp:14-21 | the pending operation gets this completion first, and it is no longer pending when its callback runs |
| AsyncClients.AsyncThriftClient.OnClose | async/async_client.cpp:66-78 | the pending operation ends with the error |
| AsyncClients.AsyncThriftClient.OnHandleRead | async/async_client.cpp:80-92 | an error, a frame or an illegal length completes the pending operation accordingly; otherwise it stays pending and reading goes on with all bytes kept |
| AsyncClients.AsyncThriftClient.OnHandleWrite | async/async_client.cpp:94-115 | an error or a oneway call completes the pending operation; otherwise it waits for its reply with an empty buffer |
| AsyncClients.AsyncThriftClient.OnHandleFrame | async/async_client.cpp:117-157 | the operation is completed with the frame, whether or not reading the result throws |
| AsyncClients.AsyncThriftClient.Attach | async/async_client.cpp:39-51 | throws and changes nothing exactly while an operation is pending; otherwise the client has the new socket and is open just if that is |
| AsyncClients.AsyncThriftClient.Detach | async/async_client.cpp:53-64 | throws and changes nothing exactly while an operation is pending |
| AsyncClients.AsyncThriftClient.Run | async/async_client.cpp:14-157 | after any events in any order each call made was called back exactly once, but for the one the socket still works for; an operation is pending exactly then |
| ServerConnections.Impl.HandleAccept | async/async_server.cpp:156-169 | an accepted connection joins the set and another waits; a failed accept deletes the one that waited |
| ServerConnections.Impl.Start | async/async_server.cpp:195-206 | the connection enters the set with exactly a read outstanding |
| ServerConnections.Impl.OnClose | async/async_server.cpp:272-277 | the connection leaves the set and is deleted, once, with nothing outstanding for it |
| ServerConnections.Impl.OnHandleFrame | async/async_server.cpp:279-330 | after handling a frame the connection has exactly one thing outstanding, its answer, its callback or, when the callback came for a oneway call, a read; it is gone exactly if the processor threw or called back with an error |
| ServerConnections.Impl.AsyncProcess | async/async_server.cpp:256-270 | the callback of the processor, whether it comes later or while the frame is handled: an error deletes the connection, once; else exactly the answer, or after a oneway call a read, is outstanding |
| ServerConnections.Impl.Deliver | async/async_server.cpp:256-330 | what comes back always comes back to a connection in the set, which then has exactly what follows outstanding or is deleted once; every connection made stays in one place and each in the set keeps exactly one continuation |
| ServerConnections.Impl.Run | async/async_server.cpp:156-330 | after any accepts and completions in any order: one connection was made per accept that succeeded before one failed; each started once and ended once at most, after that; the set holds just those started and not ended, with exactly one thing outstanding each and nothing for any other |
| ThriftConnections.ThriftConnection.Connect | sync/thrift_pool.h:174-194 | afterwards open exactly if the network answered |
| ThriftConnections.ThriftConnection.Reconnect | sync/thrift_pool.h:197-205 | open if it was or the network answered |
| ThriftConnections.ThriftConnection.Close | sync/thrift_pool.h:208-228 | never open afterwards |
| ThriftConnections.ThriftConnection.Get | sync/thrift_pool.h:232-245 | taken exactly if it was open and nobody had it |
| ThriftConnections.ThriftConnection.Put | sync/thrift_pool.h:248-253 | no longer in use |
| ThriftConnectionPools.ThriftConnectionPool.Init | sync/thrift_pool.h:309-328 | a closed connection is left exactly if an attempt failed, and without one there are exactly min_free_conn free ones |
| ThriftConnectionPools.ThriftConnectionPool.CreateConnection | sync/thrift_pool.h:332-356 | a closed connection is reused if there is one, else one is made; open exactly if the network answered |
| ThriftConnectionPools.ThriftConnectionPool.PutConnection | sync/thrift_pool.h:364-377 | the connection in hand ends in the set its state calls for |
| ThriftConnectionPools.ThriftConnectionPool.Get | sync/thrift_pool.h:478-512 | nothing exactly if no connection was free and the one tried did not connect; else an open one, in use, that was not allocated and now is |
| ThriftConnectionPools.ThriftConnectionPool.Put | sync/thrift_pool.h:515-532 | no longer allocated or in use; free if still open, else closed |
| ThriftConnectionPools.ThriftConnectionPool.Close | sync/thrift_pool.h:538-546 | closed, still allocated until put back, and one quick status probe more is due |
| ThriftConnectionPools.ThriftConnectionPool.Probe | sync/thrift_pool.h:702-726 | alive exactly if some answer within the tries is ALIVE before any exception; an exception closes the connection |
| ThriftConnectionPools.ThriftConnectionPool.UpdateStatus | sync/thrift_pool.h:675-742 | the status becomes connected exactly if there was a free connection or one connects, and it answers within three tries, one if the server was taken for dead; no connection is lost, the tried one included |
| ThriftConnectionPools.ThriftConnectionPool.QuickUpdateStatus | sync/thrift_pool.h:745-796 | the same with one try, for one of the closes that asked for it |
| ThriftConnectionPools.ThriftConnectionPool.CreateFree | sync/thrift_pool.h:829-847 | either the total stays or it is at most the free connections before and the rounds made; if the network answers, each round gives a free connection |
| ThriftConnectionPools.ThriftConnectionPool.FreeFree | sync/thrift_pool.h:848-880 | exactly so many free connections fewer |
| ThriftConnectionPools.ThriftConnectionPool.FreeClosed | sync/thrift_pool.h:888-902 | so many closed connections fewer, or none left |
| ThriftConnectionPools.ReclaimArithmetic | sync/thrift_pool.h:799-902 | the counts after a reclaim run meet its bounds, for every outcome of the connects, and no difference underflows |
| ThriftConnectionPools.ThriftConnectionPool.ReclaimConnections | sync/thrift_pool.h:799-902 | below max_conn nothing changes; else it ends with max_conn <= total <= max(max_conn, allocated + min_free_conn); with more than min_free_conn free exactly at that bound, closed ones given up first; with fewer none is given up, and all wanted are there if the network answers; allocated ones are never touched |
| PoolInterleaving.StepKeeps | sync/thrift_pool.h:332-377 | every lock section and every step between two keeps the invariant, for any number of threads, also when callers close, break and reopen what they have |
| PoolInterleaving.ConnectionsConserved | sync/thrift_pool.h:332-906 | after any run connections made minus destroyed are the free, allocated and closed ones plus one per thread between two sections; each live one is in exactly one place, free ones open, closed ones not, in use exactly the allocated and those mid get or put; callers share out the allocated ones |
| PoolInterleaving.NobodyElseTouches | sync/thrift_pool.h:478-532 | whatever other threads do, a connection a caller has is not destroyed, taken, closed or given to anyone else |
| PoolInterleaving.GetFromFreeIsGranted | sync/thrift_pool.h:478-512 | in every reachable state a get that took a connection out of the free set goes on to hand it out |
| PoolInterleaving.OperationEnds | sync/thrift_pool.h:675-902 | an operation ends after a bounded number of steps of its own thread, whatever the others do meanwhile |
| PoolInterleaving.NoThreadStuck | sync/thrift_pool.h:332-377 | and until then its thread always has a step to take |
| PoolInterleaving.ReclaimKeepsToPlan | sync/thrift_pool.h:799-902 | however it is interleaved, a reclaim run destroys no more than it planned, and a get, put or probe destroys nothing |
| PoolInterleaving.PlanIsModest | sync/thrift_pool.h:799-859 | the plan destroys at most what exceeds max_conn, never free connections below min_free_conn, and those only after all closed ones |
| PoolInterleaving.HandsCount | sync/thrift_pool.h:332-377 | threads between sections hold as many connections as there are such threads |
| ThriftPools.Claim | sync/thrift_pool.h:1164-1173 | a request is marked exactly if one for this address was unmarked, and then one such request only |
| ThriftPools.ThriftPool.KeepWanted | sync/thrift_pool.h:1155-1188 | kept pools and requests left are the requests; what moved to the queue has no request left |
| ThriftPools.ThriftPool.BringBack | sync/thrift_pool.h:1190-1224 | pools brought back and requests left are the requests left before; what stays queued has none |
| ThriftPools.ThriftPool.AddMissing | sync/thrift_pool.h:1226-1246 | new pools for exactly the requests left, apart from all there were |
| ThriftPools.SiftTwice | sync/thrift_pool.h:1156-1221 | after both loops the requests left are, per address, the requested minus those in either list, and no pool is lost |
| ThriftPools.ThriftPool.Reconcile | sync/thrift_pool.h:1156-1245 | the addresses in use are the requested multiset; no pool is lost from both lists; created per address max(0, requested - in use - queued) |
| ThriftPools.ThriftPool.UpdateServers | sync/thrift_pool.h:1140-1250 | fails exactly if the lists differ in length, and then changes nothing; else reconciles, and the record of handed-out connections still holds; the shortcut leads to the last pool of this host that was brought back or made, else it is cleared if one moved out and stays if none did; so, set before, it is unset with a pool on this host exactly if one of this host moved out, one is kept and none was added |
| ThriftPools.ThriftPool.AddServer | sync/thrift_pool.h:1253-1284 | a pool is added exactly if none in use has this address; one on this host gets the shortcut |
| ThriftPools.ThriftPool.RemoveServer | sync/thrift_pool.h:1287-1317 | the first pool of this address, and only it, moves to the end of the queue; its connections stay on record; if it is on this host the shortcut is cleared, which leaves a pool of this host without it exactly if another is in use |
| ThriftPools.ThriftPool.Choose | sync/thrift_pool.h:1320-1351 | the pool the shortcut leads to if that is connected, else the first connected one cyclically from index_; none exactly if none is connected |
| ThriftPools.LocalIsChosen | sync/thrift_pool.h:1320-1351 | while the shortcut is set if a pool in use is on this host and no two are, a get turns to that pool whenever it is connected |
| ThriftPools.OneLocalPreferred | sync/thrift_pool.h:1140-1317 | by any calls: the shortcut is set if a pool is on this host as long as no two pools in use were on it at a time |
| ThriftPools.LocalPassedOver | sync/thrift_pool.h:1287-1317 | a concrete run: of two pools on this host one is removed, the other stays without the shortcut, and a get may turn to a remote one although it is connected |
| ThriftPools.ThriftPool.Get | sync/thrift_pool.h:1320-1366 | an open connection that was not on record and now is, with just the pool Choose picks, by the shortcut or in turn; nothing exactly if no pool is connected, or the one picked has no free connection and the attempt fails; index_ is left behind the pool picked, and after one look at each if there is none |
| ThriftPools.ThriftPool.Put | sync/thrift_pool.h:1369-1385 | a connection on record goes back to the pool that gave it, in use or queued, and off the record; others are refused |
| ThriftPools.ThriftPool.Close | sync/thrift_pool.h:1388-1402 | a connection on record is closed where it is and stays on record, and its pool has one quick status probe more due |
| ThriftPools.ThriftPool.DeleteIdle | sync/thrift_pool.h:993-1009 | a queued pool with nothing handed out goes, and neither list, shortcut nor record refers to it any more |
| ThriftPools.ThriftPool.Sweep | sync/thrift_pool.h:993-1009 | just the queued pools with connections out stay, in order |
| ThriftPools.ThriftPool.RunJob | sync/thrift_pool.h:675-902 | a probe or reclaim run of a pool in use or queued keeps everything together, leaves the record and what is handed out alone, and sets the status to what the probe found |
| ThriftPools.Run | sync/thrift_pool.h:1140-1402 | from no pools, after any calls, jobs, sweeps, failures and reconnects in any order: the addresses in use are those asked for by the calls that set them, as a multiset; the connections on record are those got and not put back, each allocated in the one pool it came from; no get gave out a connection that was lent, and all else was about the connection its caller meant; the shortcut to the pool on this host is set exactly as the calls so far leave it, so always if no two pools in use were on this host at a time |
| ThriftPools.NoneConnected | sync/thrift_pool.h:1336-1351 | as many looks as there are pools see every pool, wherever index_ stands |
| ThriftPools.GetsTakeTurns | sync/thrift_pool.h:1336-1351 | while all pools are connected, as many gets as there are pools take each exactly once |
| RoundRobins.EachOnce | async/io_service_pool.cpp:81-93 | any n consecutive picks use each of the n services exactly once |
| RoundRobins.SlotsDiffer | async/io_service_pool.cpp:81-93 | fewer than n picks apart are different slots |
| RoundRobins.IoServicePool.GetIoService | async/io_service_pool.cpp:81-93 | the next service in turn, within bounds |
| RoundRobins.IoServicePool.Restart | async/io_service_pool.cpp:48-79 | run and stop both begin again with the first |
| SchemaEvolution.OrderCovers | thrift_0.5.0_patch/t_cpp_generator.cc:1184-1224 | the writer visits every field exactly once |
| SchemaEvolution.OrderSorted | thrift_0.5.0_patch/t_cpp_generator.cc:1184-1224 | and by ascending id |
| Evolution.SkipWritten | thrift_0.5.0_patch/t_cpp_generator.cc:1130-1150 | skip by wire type takes off the stream exactly what was written of a value, of any type |
| Evolution.ReadWritten | thrift_0.5.0_patch/t_cpp_generator.cc:1049-1176 | reading what was written, at a compatible other type and into any object, has the outcome the values alone determine, and leaves just what follows |
| SchemaEvolution.ReadOtherSchema | thrift_0.5.0_patch/t_cpp_generator.cc:1072-1168 | a reader of another schema consumes the stream exactly, whatever the field order: fields with id and wire type of a written one become what their own reader makes of it, all others keep their value, and it throws exactly when a required field got nothing |
| SchemaEvolution.FieldsMoved | thrift_0.5.0_patch/t_cpp_generator.cc:1049-1176 | each reader's field gets its source's value or is left alone, through any written field order |
| RoundTrip.RoundTripLaw | thrift_0.5.0_patch/t_cpp_generator.cc:804-835 | for every schema: all its values are read back equal, with nothing left of the stream, if and only if the fresh object has no optional field set inside it |
| RoundTrip.Keeps | thrift_0.5.0_patch/t_cpp_generator.cc:2306-2510 | a value read into a faithful object comes back equal under the emitted operator==, at any nesting |
| RoundTrip.Loses | thrift_0.5.0_patch/t_cpp_generator.cc:739-773 | for an object that is not faithful some value of the schema is lost |
| RoundTrip.ConstantDefaultLoses | thrift_0.5.0_patch/t_cpp_generator.cc:524-551 | a concrete schema with a constant struct default and a value that does not come back equal |
| EmittedCode.Protocol.WriteValue | thrift_0.5.0_patch/t_cpp_generator.cc:2519-2688 | the loops append to the stream exactly the tokens of the value |
| EmittedCode.Protocol.WriteStruct | thrift_0.5.0_patch/t_cpp_generator.cc:1184-1224 | fields go out in the writer's order, unset optional ones not at all, then the stop |
| EmittedCode.Protocol.ReadValue | thrift_0.5.0_patch/t_cpp_generator.cc:2306-2510 | the loops have the outcome of the recursive reader and leave the stream where it does |
| EmittedCode.Protocol.ReadStruct | thrift_0.5.0_patch/t_cpp_generator.cc:1049-1176 | the field loop with its isset flags is the recursive field reader |
| EmittedCode.Protocol.ReadElements | thrift_0.5.0_patch/t_cpp_generator.cc:2387-2510 | push_back and insert loops build the list or set of the recursive reader |
| EmittedCode.Protocol.ReadPairs | thrift_0.5.0_patch/t_cpp_generator.cc:2461-2478 | the map loop, which reads into the entry of the key just read, builds the map of the recursive reader |
| Reflection.ReflectKeeps | thrift_0.5.0_patch/t_cpp_generator.cc:914-1025 | the search keeps its invariant at every depth, with the types on the stack marked but not written |
| Reflection.WrittenExactly | thrift_0.5.0_patch/t_cpp_generator.cc:914-1025 | a fingerprint is declared and defined if and only if the first type of this fingerprint that the search comes across, going into no type of another program and none met before, is of no other program |
| Reflection.WrittenInOrder | thrift_0.5.0_patch/t_cpp_generator.cc:914-1025 | each fingerprint is written once at most; a type of this program that a written one points to is written before it if and only if the search comes across its fingerprint first in a type of no other program |
| Reflection.TwinIsLost | thrift_0.5.0_patch/t_cpp_generator.cc:923-930 | a struct with a member of an included program, generated before a struct of the same fingerprint as that member: the latter is never written; generated after it, it is |
| Reflection.Generator.GenerateProgram | thrift_0.5.0_patch/t_cpp_generator.cc:642-643 | the declaration and the definition of each type asked for, in turn, give the output the theorems are about |
| Reflection.Generator.GenerateLocalReflection | thrift_0.5.0_patch/t_cpp_generator.cc:914-1025 | the generator with its one set and one stream does what the search does |
| Dispatch.IdsDiffer | thrift_0.5.0_patch/t_cpp_generator.cc.inl:355-397 | no two functions of a chain of services have the same id |
| Dispatch.FillResultFinds | thrift_0.5.0_patch/t_cpp_generator.cc.inl:573-611 | on the most derived client the id of any function of the chain runs exactly that function's recv_, and none if it returns nothing |
| Dispatch.ToldExactly | async/async_client.cpp:117-157 | for every reply and function: the callback gets an error code other than 0 if and only if the function returns something and the reply cannot be read with a type other than UNKNOWN, is a T_EXCEPTION of a type other than UNKNOWN, is of a wrong message type or name, or carries neither result nor declared exception |
| Dispatch.ToldTruly | async/async_client.cpp:117-157 | the callback gets an error exactly if recv_ would throw, if and only if the reply is a proper result or its failure is one of those and the function returns something |
| Dispatch.OutcomeReachesRecv | thrift_0.5.0_patch/t_cpp_generator.cc:2088-2212 | if the name is not redefined below, recv_ returns or throws just what the handler did, a declared exception by its name |
| Dispatch.NoOutcomeIsAnError | async/async_exception.h:73-94 | end to end, for every function and whatever its handler does: the code the callback gets has value 0; what was raised shows at most in its category |
| Dispatch.UnknownMethodIsAnError | thrift_0.5.0_patch/t_cpp_generator.cc:2016-2028 | a server without the method is noticed, with the code of UNKNOWN_METHOD, if and only if the function returns something |
| Dispatch.ExceptionIsLost | async/async_exception.h:73-78 | a concrete service with a function that returns nothing and one that returns something: each handler raises the exception its function declares, recv_ would throw it, and the callback gets a code of value 0 |
| Dispatch.ProcessFnFinds | thrift_0.5.0_patch/t_cpp_generator.cc.inl:911-949 | process_fn reaches the most derived function of a name, and reports an unknown method exactly if the chain has none |
| Dispatch.SameFunction | thrift_0.5.0_patch/t_cpp_generator.cc.inl:573-611 | client and server mean the same function, if its name is not redefined below it |
| Dispatch.FillMap | thrift_0.5.0_patch/t_cpp_generator.cc.inl:893-901 | the constructor maps every name to the last function of this name, and no other name |
| ThreadedServers.ServeIsBounded | sync/threaded_server.cpp:156-222 | in every interleaving the task set keeps within its maximum, serve has left by the stop path only without tasks, and a waiting serve is notified exactly if no task is left |
| ThreadedServers.ServeStops | sync/threaded_server.cpp:283-309 | once stopping, in every run, more stops and spurious wake-ups between: at most Work steps of winding down and one more per spurious wake-up until serve is out, and it is never stuck before |

## Left out

- Sockets, asio, strands, timers, thread-local storage and clocks: the environment delivers completions, answers and steps in any order. An empty write is completed like any other.
- TBinaryProtocol, TFramedTransport and TMemoryBuffer are not part of this repository: streams are tokens, `skip` follows their structure, scalars keep any value of their kind, and NaN, on which the emitted operator== is not reflexive, is not among them.
- Dispatch, Serialization and EmittedCode model what the generated code means, not its text: indentation, includes, skeletons, constants and to_string.
- The memcpy of on_handle_write (async/async_connection.h:329) may overlap; it is modelled as the move it is meant to be. Vectors are sequences; the output buffer's bytes appear only in ReplyPairing.
- AsyncConnections.AsyncConnection.OnHandleRead: a read started after a oneway call with pipelined bytes is offered a length below 0, which the source's unsigned difference wraps around; such a read is taken to fail or never complete.
- AsyncClients.AsyncThriftClient.AsyncCall: requires that nothing is pending on an open connection, which the generated code asserts; a callback that would break this is taken not to call. The receive buffer is the value AsyncConnections proves it to be. send_ does not throw.
- ServerConnections.Impl.Deliver: a processor neither throws nor calls back again once it has invoked its callback.
- ThriftConnections.ThriftConnection.Close: asserts like those on in_use_ are preconditions or consequences; keep_alive is a wrapper.
- ThriftConnectionPools.ThriftConnectionPool.ReclaimConnections: the bounds are those of a run without other threads; what holds under interleaving is in PoolInterleaving. Statistics and logging are left out.
- PoolInterleaving.ConnectionsConserved: connections are told apart by identity, so a reused address is another connection; threads of one pool only.
- ThriftPools.ThriftPool.Sweep: one sweep of the queue; the life of the remove thread, whose stop test looks inverted (sync/thrift_pool.h:1011), and the destructor are left out. Operations of ThriftPool are atomic; the window in which a connection being put back is in no set (sync/thrift_pool.h:525-531) is in PoolInterleaving.
- ThriftPools.ThriftPool.RemoveServer: without the call to set_total_conn, which calls methods that do not exist and divides by a pool count that may be 0.
- ThriftPools.Run: update_status and reclaim_connections may run at any time, quick_update_status as often as it was scheduled; a timer that close resets, and so an update_status that comes early, is one of these runs.
- ThreadedServers.ServeIsBounded: serve is a step relation rather than a loop, as it interleaves with its tasks; starting a thread succeeds and waiting does not throw. serve may also return without waiting for tasks, when listening fails.
- Dispatch.NoOutcomeIsAnError: the reply is that of the synchronous processor and can be read; an asynchronous one closes the connection after an error. Every exception a handler throws is taken to be a std::exception.
- Dispatch.ToldExactly: the exception classes are not part of this repository; their types have the numbers of Thrift 0.5, of which it matters that UNKNOWN alone is 0. The text of an error is left out.
- Reflection.WrittenInOrder: assumes that no type contains one with its own fingerprint, which a hash of the structure gives unless it collides. Fingerprints themselves, the metas and specs arrays and the symbol names are left out.
- RoundTrip.RoundTripLaw: operator< of element types is any that agrees with operator==; the dense protocol's extra checks are left out.
- ThreadPoolServer (its admission depends on an unseen thread manager), ThriftPoolTss (a random chooser), the generated synchronous call loop, fb303 handlers and counters, host resolving, error tables, benchmarks and scripts: wrappers, I/O or easy members.
