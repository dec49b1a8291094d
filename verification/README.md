# QuickChat: verified models

A Dafny 4.11 model of the parts of QuickChat that carry state, framing or concurrency
arguments, with proofs of what they are for. `dafny verify dfyconfig.toml` checks all of it.

## What is modelled

* **The ChatServer message path.** `Wire` is the frame format, `MsgNodes` the heap nodes,
  `Sender` and `Reader` the two halves of a session as state machines, `Session` the
  `CSession` class cut at the points where Asio calls back, `Logic` the posting queue with
  its worker, mutex and condition variable, `LogicQueue` the `LogicSystem` class.
  `Pipeline` composes any number of connections with the one queue as values; `Delivery`
  proves its progress, and `Duplex` adds what the server sends. `PostedNodes` and
  `ChatServer` put any number of `CSession` objects and the `LogicSystem` on one heap and
  prove that they run as `Duplex` does.
* **The connection pools.** `PoolMachine` is the blocking pool for any number of threads,
  `RpcPool` the `RPConPool` class; `MySql` and `Redis` are the two pools with a health check
  that rotates the queue in place.
* **The GET target.** `UrlCodec` is the codec, `Http` the query parser.
* **The choice of a chat server.** `StatusService`.

`Bytes` holds the byte type, an option type and a few facts about sequences. Every class method
is proved to compute a function of the state at entry, and the properties are proved of those
functions and of all runs made of them. A class method stands for one stretch of code under
its mutex, or one completion handler; waiting, transport progress and other threads are
separate steps.

What the environment decides is a parameter or a step: how many bytes a read or write moves,
whether it fails, whom `notify_one` picks, spurious wakeups, the driver's answers, when a stop
flag is seen, the login counts during one call, the set of ids with a handler.

## Results that differ from what one might expect

* `Send(std::string)` narrows the length to `short`, so a long string can be cut without an
  error: `Wire.LongStringIsCut`, and which ones go out whole: `Wire.StringFramedWhole`.
* The stop flag of `LogicSystem` is set without the mutex, so the shutdown wakeup can be
  missed and the destructor's `join` not return: `Logic.ShutdownCanBeMissed`, and exactly
  when: `Logic.ShutdownIsSeen`. Posts are not affected: `Logic.NoLostWakeup`.
* `getChatServer` assigns through a reference into its table, so the first loaded server can
  be lost for good: `StatusService.FirstServerCanBeLost`, and exactly what is left of the
  choice: `StatusService.LeastOfLoaded`.
* `RedisConPool` neither frees nor keeps a context whose AUTH was refused. A wrong password is
  enough, while the pool is constructed: `Redis.RefusedContextIsLost`, and exactly when:
  `Redis.LosesOnRefusal`.
* The `checkThread` of `RedisConPool` replaces a context only in a catch clause. The calls in
  its try clause are C functions that report failure by value, and a PING without a reply puts
  the context back, so a broken connection stays in the pool: `Redis.ReplacesOnlyOnThrow`. The
  catch clause is modelled as written, for an exception from elsewhere in the clause.
* `checkConnection` of `MySqlPool` lets the exception of a failed reconnect escape, and its
  thread does not catch it, so the first such failure ends the process:
  `MySql.MySqlPool.CheckThread`, `MySql.EveryPassAsks`.
* `FromHex` takes every letter, so `UrlDecode` accepts escapes that are not hexadecimal; the
  texts it accepts are described by `UrlCodec.DecodesExactly`.

## Model

| member | source | states |
|---|---|---|
| `Pipeline.TakenIsPrefixOfAccepted` | servers/ChatServer/src/CSession.cpp:64-228 | in every run over any number of connections, with any chunking of writes and reads and any errors, what the worker took from a session is a prefix of the messages its peer called Send with and that met at most 1000 queued nodes, read off the calls alone, and stops before the first payload over MAX_LENGTH; of the taken messages exactly those with a registered id reached a handler, each as often as it was taken and in that order |
| `Pipeline.AcceptsWhatFits` | servers/ChatServer/src/CSession.cpp:45-82 | in every run each sender has accepted exactly those messages, with their ids and payloads |
| `Pipeline.ReadErrorIsFinal` | servers/ChatServer/src/CSession.cpp:99-104 | after the failed read of a connection no read of it completes or fails again, and what it consumed and posted never changes, whatever the others do |
| `Pipeline.AnyReadCanFail` | servers/ChatServer/src/CSession.cpp:184-203 | wherever a read could complete it can fail instead |
| `Pipeline.StepKeepsValid` | servers/ChatServer/src/CSession.cpp:45-228 | every step of the composed machine keeps: bytes consumed = encodings of the posted frames plus the frame being read, and the global post order restricted to a session = what its reader posted |
| `Pipeline.PostedIsPrefix` | servers/ChatServer/src/CSession.cpp:126-173 | what a reader posted is a prefix of what the sender accepted, and its partial frame is the start of the next one |
| `Pipeline.ReadKeepsConn` | servers/ChatServer/src/CSession.cpp:184-203 | a read of any size keeps the byte account of its connection and posts at most one frame |
| `Delivery.EverythingIsDelivered` | servers/ChatServer/src/CSession.cpp:45-228 | from every state reached without an error or shutdown, the steps the path makes by itself number at most Remaining, and wherever they can go no further every message that a peer had called Send with and that fitted its queue, up to the first over-large one of its connection, has been posted and taken, and of all posted ones exactly those with a registered id were handled, in their order |
| `Delivery.StuckMeansDelivered` | servers/ChatServer/src/LogicSystem.cpp:25-62 | no step left and nothing failed implies everything readable was taken, and exactly the messages with a registered id were handled: no deadlock between wakeups, writes and reads |
| `Delivery.StuckIsReached` | servers/ChatServer/src/CSession.cpp:45-228 | from every healthy state such steps lead to one where they can go no further, so the conclusion above is about something that exists |
| `Delivery.InternalStepShrinks` | servers/ChatServer/src/CSession.cpp:176-228 | every write, read, completion, notify and worker step lowers one bound |
| `Wire.FrameLayout` | servers/ChatServer/src/MsgNode.cpp:24-34 | a frame is two bytes of id, two of length and at most 32763 of payload |
| `Wire.HighByteFirst` | servers/ChatServer/src/MsgNode.cpp:26-32 | the high byte of each field comes first, a negative value being meant modulo 65536 |
| `Wire.PrefixDecodes` | servers/ChatServer/src/MsgNode.cpp:24-34 | an encoded stream read only in part determines its first frames, for all ids and all lengths up to 32763 |
| `Wire.UniquelyDecodable` | servers/ChatServer/src/MsgNode.cpp:24-34 | two frame lists have the same bytes iff they are equal |
| `Wire.EncodeParts` | servers/ChatServer/src/CSession.cpp:147-160 | the two head fields and the payload read back from a frame are the ones encoded, whatever follows |
| `Wire.HeadOfBytes` | servers/ChatServer/src/CSession.cpp:149-160 | re-encoding a decoded head gives the same four bytes, for all four-byte strings |
| `Wire.StringFramedWhole` | servers/ChatServer/src/CSession.cpp:64-73 | for strings of every length: the length as a short is one that can be framed and the frame holds the whole string, iff it has at most 32763 bytes; a non-negative narrowed length never exceeds the string |
| `Wire.LongStringIsCut` | servers/ChatServer/src/CSession.cpp:64-73 | a string of 65536 + k bytes with k at most 32763 is framed as its first k bytes, without any error |
| `Wire.DeliverableIsLongest` | servers/ChatServer/src/CSession.cpp:162-167 | the frames before the first over-large one are the longest readable prefix |
| `MsgNodes.MsgNode.constructor` | servers/ChatServer/src/MsgNode.cpp:6-9 | a node of max_len bytes has one spare cell, which is zero |
| `MsgNodes.MsgNode.Clear` | servers/ChatServer/src/MsgNode.cpp:16-19 | the first total_len_ cells and cur_len_ become zero, the terminator stays |
| `MsgNodes.RecvNode.constructor` | servers/ChatServer/src/MsgNode.cpp:21-22 | a fresh array and an empty node with the given id |
| `MsgNodes.SendNode.constructor` | servers/ChatServer/src/MsgNode.cpp:24-34 | data_ up to total_len_ is the wire encoding of id and message; payload and head fit a short |
| `Reader.PostsTheParse` | servers/ChatServer/src/CSession.cpp:93-203 | chunking independence: however a byte string is split into reads, a settled reader has posted exactly the frames of an independent whole-string parse, and gave up iff the parse meets a refused length |
| `Reader.PostsTheSentFrames` | servers/ChatServer/src/CSession.cpp:126-203 | for sent frames with a partial last one the reader posts exactly the complete frames before the first over-large length |
| `Reader.OnBytesConsumes` | servers/ChatServer/src/CSession.cpp:93-203 | a read step neither drops, repeats nor alters a byte |
| `Reader.OnErrorEndsReading` | servers/ChatServer/src/CSession.cpp:99-104 | after an error no read of any size can complete, and what was read and posted stays |
| `Reader.Limits` | servers/ChatServer/src/CSession.cpp:162-167 | exactly the lengths from 0 to 2048 are accepted, and a head is 4 bytes |
| `Reader.ReadProgress` | servers/ChatServer/src/CSession.cpp:184-203 | a read that does not complete the request shortens it, one that does has delivered exactly total_len bytes, and only a completed body posts |
| `Reader.ParseEncoded` | servers/ChatServer/src/CSession.cpp:126-173 | parsing the encodings of any frames gives them back up to the first over-large one |
| `Session.CSession.constructor` | servers/ChatServer/src/CSession.cpp:10-19 | a new session sends nothing, has posted nothing and owns its buffers |
| `Session.CSession.Start` | servers/ChatServer/src/CSession.cpp:41-43 | the first head read is started |
| `Session.CSession.OnReadSome` | servers/ChatServer/src/CSession.cpp:184-203 | one completion of async_read_some is one reader step; it posts the node being filled exactly if its body is complete, takes only fresh objects, and changes no field or byte of a node posted earlier |
| `Session.CSession.OnReadBesideSend` | servers/ChatServer/src/CSession.cpp:45-203 | with messages queued to be sent and a write outstanding, a read disturbs neither the queue, nor the nodes in it, nor the wire |
| `Session.CSession.OnReadError` | servers/ChatServer/src/CSession.cpp:99-104 | an error on a read closes the socket and ends reading: no further read can complete, and what was posted stays |
| `Session.CSession.HandleHead` | servers/ChatServer/src/CSession.cpp:126-173 | with a whole head in data_ the handler refuses the length or allocates a fresh node and reads the body |
| `Session.CSession.HandleBody` | servers/ChatServer/src/CSession.cpp:93-124 | the node gets exactly the bytes read, cur_len_ = total_len_, a terminator in bounds, is posted once, and the next head is read |
| `Session.CSession.AsyncReadFull` | servers/ChatServer/src/CSession.cpp:176-182 | clears the buffer and asks for maxLength bytes from its start |
| `Session.CSession.Close` | servers/ChatServer/src/CSession.cpp:84-87 | socket closed and b_close_ set |
| `Sender.StepKeepsValid` | servers/ChatServer/src/CSession.cpp:45-82 | a write is outstanding iff the queue is non-empty until one fails, the queue holds at most MAX_SENDQUE+1 nodes, accepted = completed ++ queued, and the wire is the completed encodings plus a prefix of the front one |
| `Sender.BrokenIsSilent` | servers/ChatServer/src/CSession.cpp:219-224 | after a write error only sends and closes can happen, nothing more is written, and the failed node stays in front |
| `Sender.RunKeepsValid` | servers/ChatServer/src/CSession.cpp:205-228 | the same over every run |
| `Sender.WireIsPrefixOfAccepted` | servers/ChatServer/src/CSession.cpp:205-218 | what is on the wire is a prefix of the encodings of all accepted frames, all of it once the queue is empty |
| `Sender.AcceptsWhatFits` | servers/ChatServer/src/CSession.cpp:45-82 | in every run what is accepted is exactly the messages Send was called with while at most 1000 nodes were queued, a count kept from the events alone |
| `Sender.FewMessagesFit` | servers/ChatServer/src/CSession.cpp:46-52 | that is all of them as long as no more than 1001 can come together |
| `Sender.ClosedIsSilent` | servers/ChatServer/src/CSession.cpp:84-104 | once a failed read or write has closed the socket no byte is put on the wire again |
| `Sender.QueueFills` | servers/ChatServer/src/CSession.cpp:46-52 | sends alone can fill the queue to MAX_SENDQUE+1 nodes, and the next one is dropped |
| `Session.CSession.Send` | servers/ChatServer/src/CSession.cpp:45-62 | one sender step with the first maxLength bytes of the message and the id given, which are what is accepted if at most 1000 nodes are queued; a length that leaves no room for the head in a short, or below -5, throws and leaves the session as it was, unless the queue is full |
| `Session.CSession.SendString` | servers/ChatServer/src/CSession.cpp:64-82 | the same for a string of any length, narrowed to a short |
| `Session.CSession.Output` | servers/ChatServer/src/CSession.cpp:45-228 | every step of the sending half is one sender step, and what is then queued was queued before or is new |
| `Session.CSession.HandleWrite` | servers/ChatServer/src/CSession.cpp:205-228 | one sender step: pop and chain the next write, or close and keep the failed node |
| `Session.CSession.Transmit` | servers/ChatServer/src/CSession.cpp:58-61 | the transport takes the next bytes of the front node and no others |
| `Logic.StepKeepsValid` | servers/ChatServer/src/LogicSystem.cpp:16-62 | taken ++ queued is the global post order, of the taken nodes exactly those with a registered id were handled, in that order, a sleeping worker beside a queued node implies a pending notify, and on seeing stop the worker leaves nothing queued |
| `Logic.FilterCounts` | servers/ChatServer/src/LogicSystem.cpp:52-60 | every node with a registered id is handled as often as it occurs, and no other one |
| `Logic.FilterServesExactly` | servers/ChatServer/src/LogicSystem.cpp:31-62 | and the handled nodes are in the order of all nodes |
| `Logic.ServesInOrder` | servers/ChatServer/src/LogicSystem.cpp:16-62 | in every run the nodes taken, followed by those queued, are exactly the nodes of the posts, read off the events, and the same holds of what was handled |
| `Logic.OneNotifyPerFirstPost` | servers/ChatServer/src/LogicSystem.cpp:16-23 | in every run the notifies made and still due are as many as the posts that found the queue empty: no other post makes one due |
| `Logic.ExitedIsFinal` | servers/ChatServer/src/LogicSystem.cpp:31-45 | a worker that has left its loop takes and handles nothing more |
| `Logic.NoLostWakeup` | servers/ChatServer/src/LogicSystem.cpp:16-23 | in every run, a queued message and a sleeping worker imply a poster whose pending notify wakes it, although only the post that fills an empty queue notifies, after unlocking |
| `Logic.ShutdownCanBeMissed` | servers/ChatServer/src/LogicSystem.cpp:10-14 | a run after which the worker sleeps although the destructor has set the flag and notified |
| `Logic.ShutdownIsSeen` | servers/ChatServer/src/LogicSystem.cpp:10-62 | when the destructor notifies, in any reachable state: every maximal run of the remaining notifies and worker steps ends with the worker out of its loop, so that join returns, iff the worker is not between its test of the predicate and its sleep |
| `Logic.SpuriousWakeupRescues` | servers/ChatServer/src/LogicSystem.cpp:27-29 | a spurious wakeup of a worker that missed the shutdown makes join return |
| `Logic.OwnRunIsBounded` | servers/ChatServer/src/LogicSystem.cpp:16-62 | without new posts the remaining notifies and worker steps are bounded, so such maximal runs are finite |
| `Logic.MaximalRunExists` | servers/ChatServer/src/LogicSystem.cpp:16-62 | and there is one from every state |
| `LogicQueue.LogicSystem.Post` | servers/ChatServer/src/LogicSystem.cpp:16-23 | one step: the node is appended and a notify becomes due iff the queue was empty |
| `LogicQueue.LogicSystem.Round` | servers/ChatServer/src/LogicSystem.cpp:25-62 | one step of the worker: serve the front node, drain on stop, or prepare to sleep; handlers get the bytes as posted, and what stays in the queue is exactly the rest of it |
| `LogicQueue.LogicSystem.Do` | servers/ChatServer/src/LogicSystem.cpp:10-62 | every step at the queue but a post is one step of the machine and adds no node |
| `LogicQueue.LogicSystem.Drain` | servers/ChatServer/src/LogicSystem.cpp:31-45 | the inner loop takes every queued node in order and calls the handlers of exactly those with a registered id, in that order |
| `LogicQueue.LogicSystem.Dispatch` | servers/ChatServer/src/LogicSystem.cpp:49-60 | a handler is called once with session, id and the total_len_ bytes of the node if the id is registered, and not at all otherwise |
| `PostedNodes.Read` | servers/ChatServer/src/CSession.cpp:145-169 | a read changes no node in the queue that is out of its session's reach, and reaches none afterwards: each head allocates a fresh node |
| `PostedNodes.ReadAndPost` | servers/ChatServer/src/CSession.cpp:93-124 | a completed read is one reader step, and a post of exactly the completed body while every queued node keeps its message; the only new queue entry is the node that was being filled, which is no longer written to |
| `Duplex.RunProjects` | servers/ChatServer/src/CSession.cpp:93-228 | in a machine that has both directions of every session, what comes in is a run of Pipeline, whatever goes out |
| `Duplex.RunProjectsOut` | servers/ChatServer/src/CSession.cpp:45-228 | what goes out on a session is a run of Sender, whatever comes in, with a failed read as the close of its socket |
| `ChatServer.OthersKeep` | servers/ChatServer/src/CSession.cpp:93-203 | a step of one session that takes only fresh objects and gives up only its own keeps, for any number of sessions: arrays pairwise disjoint, both halves of every session valid, every posted, queued and outgoing node out of reach of all of them |
| `ChatServer.Arrive` | servers/ChatServer/src/CSession.cpp:93-203 | a read of any session keeps that, is one step of its reader and of the queue, and leaves its sending half and the other sessions as they were |
| `ChatServer.Fail` | servers/ChatServer/src/CSession.cpp:99-104 | so does a failed read, after which that session reads no more and which closes the socket it sends on |
| `ChatServer.Emit` | servers/ChatServer/src/CSession.cpp:45-82 | so does every send, transport progress, write completion and write error of any session: one step of its sending half, with its reader, the queue and the other sessions as they were |
| `ChatServer.Work` | servers/ChatServer/src/LogicSystem.cpp:10-62 | so does every notify, worker step and shutdown step |
| `ChatServer.Accept` | servers/ChatServer/src/CSession.cpp:10-43 | so does a new session, whose first read is started, at any time |
| `ChatServer.Advance` | servers/ChatServer/src/CSession.cpp:45-228 | one step of the machine in Duplex, where aliasing cannot be expressed, is one step of the objects |
| `ChatServer.RunAll` | servers/ChatServer/src/CSession.cpp:45-228 | and so is every run |
| `ChatServer.Serve` | servers/ChatServer/src/CSession.cpp:10-228 | from launch and through every run over any number of sessions, reading and sending at once, the objects end in the state of the machine: the handler calls made from the bytes in the nodes are those of exactly the taken messages with a registered id, what was taken from a session is a prefix of the messages its peer called Send with and that fitted, and what a session put on the wire is a prefix of the encodings of the messages its own Send was called with and that fitted |
| `PoolMachine.StepKeepsValid` | servers/common/include/RPConPool.h:34-57 | before stop, blocked threads imply that idle stubs do not outnumber woken ones; after stop nobody is blocked |
| `PoolMachine.NoIdleBesideBlocked` | servers/common/include/RPConPool.h:36-47 | an idle stub beside blocked threads is the next one a woken thread gets |
| `PoolMachine.BlockedMeansAllLent` | servers/common/include/RPConPool.h:34-57 | in every run: threads blocked and none woken means every stub of the pool is on loan |
| `PoolMachine.StubsAreExclusive` | servers/common/include/RPConPool.h:17-61 | in every run idle, loaned and destroyed stubs are the initial ones; none is held twice, held and idle, or held and destroyed; destruction only after stop |
| `PoolMachine.StepConserves` | servers/common/include/RPConPool.h:17-61 | no step gains or loses a stub |
| `PoolMachine.StoppedGivesNothing` | servers/common/include/RPConPool.h:42-54 | after stop nobody blocks, no loan is added and no stub is re-queued |
| `PoolMachine.EveryoneIsServed` | servers/common/include/RPConPool.h:34-57 | before stop and with no newcomers, re-tests of woken threads and returns are bounded; where they can go no further, in a pool with a stub, nobody is blocked or woken, and each thread that was waiting has left with a stub |
| `PoolMachine.LeavesByTest` | servers/common/include/RPConPool.h:36-47 | a waiting thread leaves the wait only by its own test of the predicate: with the front stub, or with null once stopped |
| `PoolMachine.NewcomerOutcome` | servers/common/include/RPConPool.h:34-48 | a newcomer, who is never shut out, gets null, the front stub, or a place among the blocked threads |
| `PoolMachine.SpuriousOnlyWakes` | servers/common/include/RPConPool.h:36-41 | a spurious wakeup only brings a blocked thread to another test |
| `PoolMachine.EveryoneIsReleased` | servers/common/include/RPConPool.h:26-61 | after Close or the destructor everyone who was waiting is awake; the tests come to an end, whatever else is done, each of those threads leaves with null, and nobody waits again |
| `PoolMachine.DestroyedInTheEnd` | servers/common/include/RPConPool.h:26-57 | once the destructor has run and all loans have ended, every stub of the pool has been destroyed |
| `PoolMachine.LentInOrder` | servers/common/include/RPConPool.h:44-56 | in every run before the stop the stubs are lent in the order in which they became idle, whichever loan a return ends |
| `PoolMachine.ReturnEndsLoan` | servers/common/include/RPConPool.h:50-57 | a return ends its own loan and no other |
| `RpcPool.RPConPool.constructor` | servers/common/include/RPConPool.h:17-24 | poolSize distinct new stubs for the address, none lent |
| `RpcPool.RPConPool.GetConnection` | servers/common/include/RPConPool.h:34-48 | one step; the caller gets null after stop, the front stub, or blocks |
| `RpcPool.RPConPool.Resume` | servers/common/include/RPConPool.h:36-47 | the same for a woken thread that tests the predicate again |
| `RpcPool.RPConPool.ReturnConnection` | servers/common/include/RPConPool.h:50-57 | one step: re-queue and wake one, or destroy after stop |
| `RpcPool.RPConPool.Close` | servers/common/include/RPConPool.h:58-61 | stop is set and every blocked thread becomes a woken one |
| `RpcPool.RPConPool.Destroy` | servers/common/include/RPConPool.h:26-32 | the loop destroys every idle stub |
| `MySql.MySqlPool.CheckConnection` | servers/common/src/MysqlDao.cpp:42-69 | the queue ends as the original rotated by the iterations made, with the same objects; a full pass leaves none stale; it throws at the first stale connection that cannot be reconnected and only there; each connection changes only as its iteration says |
| `MySql.MySqlPool.CheckThread` | servers/common/src/MysqlDao.cpp:30-35 | the thread's loop over checkConnection: without an exception the same queue in the same order after any number of passes, each connection aged by every pass; the first exception ends it, with every connection still in the queue, rotated, and aged by exactly the passes that reached it |
| `MySql.PassTouchesStale` | servers/common/src/MysqlDao.cpp:48-67 | a pass leaves a connection as it was if it was not reached, in use less than 5 seconds ago, or the throwing one; else it is stamped, on the new driver connection after a reconnect |
| `MySql.EveryPassAsks` | servers/common/src/MysqlDao.cpp:30-67 | since the sleep is longer than the staleness limit, every pass but the first asks every connection it gets to: it throws at exactly the first one that cannot be reconnected; after any number of its iterations the ones it got to without an exception are stamped, on the new connection after a reconnect, and all others, so those behind the throw, are as they were |
| `Redis.RedisConPool.constructor` | servers/common/src/RedisMgr.cpp:307-337 | the loop opens contexts in order; of those made, the queue and redisFree together get all but exactly the ones refused at AUTH |
| `Redis.RefusedContextIsLost` | servers/common/src/RedisMgr.cpp:324-331 | a pool of one whose AUTH is refused: the context is made, not queued and never freed |
| `Redis.LosesOnRefusal` | servers/common/src/RedisMgr.cpp:315-337 | every context of the pool is queued or freed, once, iff no opening is refused at AUTH; the constructor and the check both meet its premise |
| `Redis.OpeningsMakeAll` | servers/common/src/RedisMgr.cpp:315-337 | the account is over every context redisConnect gave, in error, refused or good; the good ones are queued and those in error freed |
| `Redis.PassMakesAll` | servers/common/src/RedisMgr.cpp:411-434 | so it is for the contexts opened in a pass |
| `Redis.RedisConPool.Check` | servers/common/src/RedisMgr.cpp:400-434 | one iteration, in both the try and the catch clause |
| `Redis.RedisConPool.CheckThread` | servers/common/src/RedisMgr.cpp:393-436 | never pops an empty queue; the queue ends as the unvisited suffix followed by what the visited prefix became, whenever stop is seen, and never grows; of the contexts queued or made, exactly the new ones refused at AUTH end neither queued nor freed |
| `Redis.VisitBalances` | servers/common/src/RedisMgr.cpp:399-434 | every iteration accounts for the popped and the new context once: queued, freed, or refused and lost |
| `Redis.FreesOnlyOnThrow` | servers/common/src/RedisMgr.cpp:402-413 | a pass frees something iff something throws in a try clause, and otherwise changes nothing |
| `Redis.ReplacesOnlyOnThrow` | servers/common/src/RedisMgr.cpp:402-434 | position by position, whatever the other visits do: a context for which nothing threw, reply or none, stays, right behind the survivors of the earlier visits; one for which something threw is freed, and a new good context takes that place; the queue never grows |
| `UrlCodec.UrlEncode` | servers/GateServer/src/HttpConnection.cpp:24-42 | the loop computes the encoding, and it decodes to the input |
| `UrlCodec.UrlDecode` | servers/GateServer/src/HttpConnection.cpp:44-61 | the loop computes the decoding, or stops where an assert fails |
| `UrlCodec.HexRoundTrip` | servers/GateServer/src/HttpConnection.cpp:7-22 | ToHex and FromHex are inverse on nibbles and upper-case digits |
| `UrlCodec.LetterValues` | servers/GateServer/src/HttpConnection.cpp:11-22 | FromHex takes letters of either case alike, each one more than the letter before it, also beyond F, and takes nothing but digits and letters |
| `UrlCodec.UnreservedBytes` | servers/GateServer/src/HttpConnection.cpp:27-29 | the codes of the bytes that are copied |
| `UrlCodec.EncodesByteByByte` | servers/GateServer/src/HttpConnection.cpp:27-40 | a space becomes a plus sign, an unreserved byte stays, any other becomes an escape of its value in upper-case digits |
| `UrlCodec.DecodesByteByByte` | servers/GateServer/src/HttpConnection.cpp:47-60 | a plus sign is a space, and any byte but plus and percent is itself |
| `UrlCodec.DecodesEscape` | servers/GateServer/src/HttpConnection.cpp:51-57 | an escape is the byte of its two digits, in either case |
| `UrlCodec.DecodeEncoded` | servers/GateServer/src/HttpConnection.cpp:24-61 | decoding undoes encoding for every byte string, so no assert fails on encoded text |
| `UrlCodec.DecodesExactly` | servers/GateServer/src/HttpConnection.cpp:52-56 | the asserts hold iff every percent sign is followed by two letters or digits |
| `UrlCodec.EncodedIsCanonical` | servers/GateServer/src/HttpConnection.cpp:27-40 | encoded text consists of unreserved bytes, plus signs and upper-case escapes of the other bytes |
| `UrlCodec.EncodeDecoded` | servers/GateServer/src/HttpConnection.cpp:24-61 | encoding undoes decoding exactly on such texts |
| `UrlCodec.EncodedAlphabet` | servers/GateServer/src/HttpConnection.cpp:27-40 | no other byte occurs in encoded text |
| `Http.HttpConnection.PreParseGetParam` | servers/GateServer/src/HttpConnection.cpp:123-158 | the find and erase loop with its last-piece branch means: path before the first question mark, or the whole target; split the rest on all ampersands, split each piece on its first equals sign, decode both sides, later keys override; it fails iff a decode does |
| `Http.HttpConnection.StorePair` | servers/GateServer/src/HttpConnection.cpp:140-146 | one piece adds its decoded pair, or nothing without an equals sign |
| `Http.NoQuery` | servers/GateServer/src/HttpConnection.cpp:127-131 | a target without a question mark is the path, and adds no parameter |
| `Http.QueryMeansPieces` | servers/GateServer/src/HttpConnection.cpp:123-158 | any other target is its path and the list of its pieces |
| `Http.PiecesInOrder` | servers/GateServer/src/HttpConnection.cpp:137-158 | the pieces are stored in order, none after one that cannot be decoded |
| `Http.PieceMeans` | servers/GateServer/src/HttpConnection.cpp:140-146 | a piece without an equals sign changes nothing; any other is cut at its first one, also when its value contains another |
| `Http.SplitJoins` | servers/GateServer/src/HttpConnection.cpp:138-147 | the pieces of a query contain no ampersand, and joined by ampersands they are the query |
| `Http.QueryRoundTrip` | servers/GateServer/src/HttpConnection.cpp:123-158 | parsing the target printed for any path without a question mark and any pairs gives back the path and the last-wins map |
| `Http.LastWinsIsLast` | servers/GateServer/src/HttpConnection.cpp:145-145 | a key ends up with the value of its last pair |
| `StatusService.CallChoosesLeast` | servers/StatusServer/src/StatusServiceImpl.cpp:85-113 | the returned record has the minimal count over the names in the table at entry; slots but the first keep their servers, and the first is overwritten iff another count is strictly smaller |
| `StatusService.MissingCountIsLast` | servers/StatusServer/src/StatusServiceImpl.cpp:86-106 | a server whose count is missing is returned only if no name in the table has a count below 2147483647; a returned server with a count has it, and the least one |
| `StatusService.CallRefreshes` | servers/StatusServer/src/StatusServiceImpl.cpp:95-106 | a call refreshes the count of every slot that is the first one of its name |
| `StatusService.CallsKeepDerived` | servers/StatusServer/src/StatusServiceImpl.cpp:107-109 | over any calls every slot holds a loaded server and all but the first their own; a displaced first server never returns |
| `StatusService.LeastOfLoaded` | servers/StatusServer/src/StatusServiceImpl.cpp:85-113 | after any calls the choice is minimal over all loaded servers iff the first one still has its slot or is not strictly the least loaded |
| `StatusService.FirstServerCanBeLost` | servers/StatusServer/src/StatusServiceImpl.cpp:107-109 | two calls after which an idle loaded server is not chosen |
| `StatusService.StatusServiceImpl.LeastLoaded` | servers/StatusServer/src/StatusServiceImpl.cpp:85-113 | the loop over aliased records computes the table of one call and returns its first slot |
| `StatusService.StatusServiceImpl.Compare` | servers/StatusServer/src/StatusServiceImpl.cpp:95-110 | one pass of the loop body, with the copy through the reference |

## Left out

- Session.CSession.Send: for a length from -5 to -1 and a queue that is not full the node's constructor writes outside its array, which is undefined; any other length is modelled. The caller's pointer must reach that many bytes.
- Session.CSession.SendString: the same lengths after the conversion to `short`.
- Session.CSession.HandleHead: a decoded length of -2 or less makes `new char[]` throw and ends the reading, as modelled; for -1 the source's behaviour is undefined and the model also stops.
- ChatServer.Advance: the peers that send to the server, and the bytes they put on the wire, are values. The lengths at which `Send` throws, which change nothing, are in `Session.CSession.Send` only. A handler that has to wait for the mutex is a step that is not enabled yet, not a state of its own.
- Logic.ShutdownIsSeen: a spurious wakeup or a post after the missed notify would still end the worker; neither is among the steps that must happen.
- MySql.MySqlPool.CheckThread: connections taken and returned between two passes are not modelled, nor what the end of the process does after an exception.
- MySql.EveryPassAsks: the clock is not set back between two passes.
- UrlCodec.UrlDecode: a failed assert is a failure result; builds with asserts disabled are not modelled.
- Redis.RedisConPool.CheckThread: a missing reply to AUTH, which the source dereferences, is not modelled; nor is an exception in the catch clause itself.
- RpcPool.RPConPool.Close: modelled as a step under the mutex, as the destructor runs it; the member itself does not lock.
- StatusService.StatusServiceImpl.LeastLoaded: models the private `getChatServer`; the table must be non-empty and the counts numeric; the order of the hash table is an arbitrary fixed sequence. Concurrent callers that read the returned reference after the lock is released are not modelled.
- Waiting in `getConnection` of `MySqlPool` and `RedisConPool`: `RedisMgr` never returns what it takes, and the predicate of `MySqlPool` is false once stopped, so the wakeup results do not carry over.
- Handlers are assumed not to post, since they run under the mutex; what they compute is not modelled (`RegisterCallBacks` is empty).
- Sockets, Asio, gRPC, hiredis and the MySQL driver beyond the outcomes named above; memory exhaustion; logging.
- `CServer`, `UserMgr`, `AsioIOServicePool`, `ConfigMgr`, the request handlers, SQL and Redis commands, `StatusServiceImpl::Login`, the deadline timer and the VerifyServer: glue with single-branch claims only.
- The destruction of sessions and nodes: `shared_ptr` counts are not modelled, objects live as long as they are referred to.
