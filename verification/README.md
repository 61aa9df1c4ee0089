# Verification of the connection server

A Dafny model of a small HTTP server that accepts connections, reads requests off each of
them, answers from a Redis cache or from a backend, and evicts and recycles connection
objects. Two things in it are hard to get right, and both are modelled here.

**The life of a connection.** The accept handler, the I/O handlers, the timing-wheel thread
and the manage thread share the map of connections, its counter, the cache of idle objects,
the list of connections to remove and the ten-bucket wheel of weak pointers, and a reference
count decides what may be recycled.

- `Lifecycle`, `Protocol`: the shared state and the atomic steps of the four actors. A run is
  any interleaving of these steps.
- `Recycling`: what one pass of the manage thread does, for any iteration order.
- `Invariant`, `Safety`: the invariant of all steps, and what holds in every reachable state.
- `Wheel`: buckets as countdowns, and when an idle connection is evicted.
- `Server`: the server object and its loops, each proved to take steps of the protocol while
  the others run wherever no lock is held.
- `Locks`: the two mutexes, for any number of threads.

**The bytes of a connection.**

- `Text`, `Headers`: strings and numbers as the C and Boost libraries treat them; the header
  parser, as functions and as the class that implements them.
- `Replies`: the reply printer, and that the parser reads back what it prints.
- `Session`, `FrontConn`: the handlers of a connection, as functions on its fields and as
  methods that update them.
- `Framing`, `Streams`, `Requests`, `Chunking`: over any run of a connection, the cursors and
  buffers, and the requests served as a reading of the byte stream.
- `Refinement`: each handler does to a connection what a step of the lifecycle does, and reports
  exactly the failures.
- `Heads`: what a request line and headers mean to the handlers, whatever they are.
- `Places`: which events lose the place in the byte stream, and that a client that sends
  well-formed requests never makes it lost.
- `Responses`: over any run of a connection, which reply each request gets, and what its
  client can read out of it.
- `ClientOps`: the reader of length-prefixed answers from the backend.
- `Memo`, `Sharing`: the cache in front of the backend, for requests one after the other and
  for requests that interleave.
- `Inputs`: what any request is given, and runs of a connection that gets one in a single read,
  among them those in which the program does not do what one expects.

`dafny verify dfyconfig.toml` checks all of it.

## Granularity and assumptions

- One visit of a wheel entry, one I/O handler and one pass of the manage thread (which holds
  both mutexes) are each one step. A visit takes a strong pointer without holding
  `front_conns_mutex_`; were it split further, its pointer could raise the count seen by a
  manage pass that runs at the same time.
- The accept handler is split at the limit check, the locked section and `start()`; its local
  pointer goes away some time later, by a step of its own. One accept is outstanding at a time.
- The use count of an object is spelled out: its entry in the map, its entry in the removal
  list, its places in the cache, its outstanding reads and writes, and the accept frames that
  hold it. The removal loop's own `item` is one more.
- An outstanding operation holds a reference to its connection, and the handlers of one
  connection do not overlap; when and how an operation ends is arbitrary.
- In `Server`, the method `Interference` stands for any number of steps of the other threads;
  nothing but its contract is used.
- `max_serve_conns_cnt_ * 0.3` is the rational 3 * max / 10.
- The eviction bounds assume that the wheel's timer fires on time and that a check takes no
  time; nothing else in the model does.
- The status lines of `http_proto` appear without their CRLF, which callers add; the date of a
  reply, the fixed error pages, the digest function, the parsed JSON document, the backend's
  answer and the failures of Redis are parameters.

## Where the program does not do what one expects

- The wheel's assertion (source/co_worker.cpp:63-64) can fail. `Safety.AcceptRaceAborts` builds
  such a run for every configuration: a stale entry of an earlier life is visited between the
  locked section of the accept handler and `start()`. It fails in no other case
  (`Safety.OnlyTheWheelAssertionFails`), and never if the two were one step
  (`Safety.FusedAcceptNeverAborts`).
- The assertion on additional bytes (source/front_conn.cpp:159) fails exactly when a request for
  one of the three targets comes in one read with more bytes behind its head than its
  Content-Length announces (`Chunking.HaltsExactly`), as with a pipelining client: for any body
  and any bytes behind it `Inputs.PipeliningHalts` gives the run.
- The cache is invisible to the clients exactly under the condition of `Memo.TransparentIff`:
  every answer that may be stored under a key equals, without NULs, the answer of each later
  request with that key. Two documents with the same uuid and different content break it
  (`Memo.SameUuidShows`). When requests interleave between the get and the set, the order does
  not matter (`Sharing.SharedTransparentIff`).
- The length-prefixed reader can return more than the announced number of bytes when the peer
  sends more (`ClientOps.MoreThanAnnounced`). Given enough bytes it returns exactly as many as
  announced if and only if a segment, or the buffer of the first read, ends there
  (`ClientOps.ReadFromExact`).
- A request that arrives after the wheel has marked its connection is served but not answered:
  `do_write` refuses, and `start()` then takes the mark away (`Inputs.ServedUnanswered`). As many
  replies are written as are called for if and only if each was called for on a connection not
  marked (`Responses.AllAnsweredIff`).
- A head with a NUL before its blank line is answered with an error, and whatever was read along
  with it is thrown away, were it a whole well-formed request: `Inputs.BadHeadLoses` gives the run
  for any such head. A cancelled read is answered in the same way. These events, and no others,
  lose the place in the byte stream (`Places.PlaceStep`, `Places.PlaceLostExactly`); the connection
  then goes on, and takes the next byte for the first of a new stream. So requests served are as
  many as replies called for if and only if the place has never been lost. A client that sends
  well-formed requests never makes it lost, unless a read is cancelled
  (`Places.ClientKeepsPlace`).
- The comment at source/manage.cpp:185 speaks of 30 seconds; the code waits 45.

## Model

| member | source | states |
|---|---|---|
| `Invariant.InvStep` | source/co_worker.cpp:48-113 | every step of every actor keeps the invariant of supervision, ownership, counting, reading and wheel; of the program's assertions only the wheel's can fail in it, and exactly when its entry is emplaced but not started |
| `Invariant.KeepEmplace` | source/http_server.cpp:101-121 | the locked section keeps the invariant and its reuse assertion holds |
| `Invariant.EmplaceResult` | source/http_server.cpp:101-121 | the whole effect of the section: the object becomes a new life in the map, counted, enrolled in the last bucket and held by the frame; a cached one leaves the head of the cache; nothing else changes |
| `Invariant.KeepManage` | source/manage.cpp:151-178 | a pass keeps the invariant and neither of its assertions fails |
| `Invariant.InvRun` | source/http_server.cpp:40-46 | the invariant holds at every state of every run that starts in it |
| `Safety.NoEscape` | source/co_worker.cpp:54-102 | in every reachable state, also inside a check, a connection of the map waits for removal or is in a bucket that no rotation is about to drop it from |
| `Safety.CounterExact` | source/http_server.cpp:86-126 | the counter equals the size of the map and never passes the limit, though the limit is checked outside the lock; the cache stays within 3*max/10 rounded up |
| `Safety.WorkingIsRead` | source/front_conn.cpp:44-106 | a working connection has exactly one outstanding read, no connection ever has two |
| `Safety.OwnershipPartition` | source/manage.cpp:151-177 | every object is in the map, or once in the cache and referenced by nothing else, or referenced by nothing; so whatever an operation holds is in the map |
| `Safety.RecyclesOnlyQuiescent` | source/manage.cpp:153-173 | a pass takes a connection out of the map exactly when no read, write or accept frame holds it |
| `Safety.ReuseIsClean` | source/http_server.cpp:104-118 | the object is the head of the cache, referenced by nobody and without an operation of its former client, or, with an empty cache, one that did not exist; it enters the map as a new one does, and the key was not there before |
| `Safety.OnlyTheWheelAssertionFails` | source/co_worker.cpp:61-68 | in every reachable state, a step fails an assertion if and only if it is the wheel's visit of the connection that accept has emplaced but not started |
| `Safety.FusedAcceptNeverAborts` | source/http_server.cpp:101-123 | if nothing came between the locked section and start(), no run would fail an assertion |
| `Safety.AcceptRaceAborts` | source/co_worker.cpp:61-68 | for every configuration with a limit of at least one, a run of the server that fails the wheel's assertion |
| `Recycling.ReleasableIffQuiescent` | source/manage.cpp:156-163 | `use_count() <= 3` holds exactly when no operation and no accept frame holds the object |
| `Recycling.PassSpec` | source/manage.cpp:151-178 | for any iteration order: the list is emptied, exactly the quiescent members leave the map, their number leaves the counter, the others are enrolled again, the cache grows to the smaller of old + k and its cap by washed objects, nothing else changes, and the assertion at the end holds |
| `Recycling.PassConserves` | source/manage.cpp:151-177 | an object taken out of the map is afterwards once in the cache or referenced by nothing |
| `Recycling.SweepItem` | source/manage.cpp:153-174 | one iteration takes the state after some items to the state after one more |
| `Wheel.OthersOnWheel` | source/http_server.cpp:120 | accept, the handlers and the manage thread only ever add to the last bucket, and leave the running check and the timer alone |
| `Wheel.VisitMeans` | source/co_worker.cpp:55-92 | a visit erases its entry from the modified copy exactly if the object is not in the map or is touched + expire - spare or longer ago, and no other entry; in the second case it marks the object and puts it up for removal; and it does nothing else |
| `Wheel.PushedBucket` | source/co_worker.cpp:55-102 | over any run, an entry visited in a check is in the bucket pushed back at its end if and only if its object stayed on at that visit: no entry of an object then cached, released or evicted is kept |
| `Wheel.PushedExactly` | source/co_worker.cpp:76-83 | a step puts a connection up for removal exactly if an operation on it fails or a visit finds it idle too long, marks it then, and only a pass takes it off |
| `Wheel.BucketsCountDown` | source/co_worker.cpp:54-102 | n rotations later bucket i is bucket i - n with the same entries, whatever the others did meanwhile: no insert is lost when the front is overwritten |
| `Wheel.EntryIsVisited` | source/co_worker.cpp:55-92 | an entry of bucket i is visited in the (i + 1)-th check from now |
| `Wheel.VisitedWasThere` | source/co_worker.cpp:55-92 | and what is visited in the (i + 1)-th check from now is in bucket i now, but for the last bucket, which still gains entries |
| `Wheel.WatchedIsEvicted` | source/co_worker.cpp:54-102 | a working connection that the wheel will visit before time b stays in the map and off the list until a visit evicts it before b |
| `Wheel.EvictionWindow` | source/co_worker.cpp:70-83 | a connection touched at t and then idle, but for replies that go out, is evicted no earlier than t + expire - spare and before t + expire + 9*spare; the clock does not get there without it |
| `Wheel.EvictedWithinTwice` | include/http_server.hpp:108-120 | by t + 2*expire it has been evicted |
| `Wheel.TimerAlways` | source/co_worker.cpp:105-110 | with a timer that fires on time, every state of a run of the server keeps the timer within one interval of the clock |
| `Wheel.IdleIsEvicted` | source/co_worker.cpp:70-83 | the eviction window from any state of any run of the server in which a connection of the map, not up for removal, has just been touched |
| `Wheel.EnrolledIsEvicted` | source/manage.cpp:156-163 | the window of a working connection that was up for removal: from the pass that enrols it again it is evicted before its deadline or, if that is later, one turn of the wheel after the pass |
| `Wheel.NeverEarly` | source/co_worker.cpp:70-85 | in any run and with any timer, a visit that does anything to a connection comes at least expire - spare after each time it was started, served or asked for more |
| `Wheel.StaysTouched` | source/front_conn.cpp:73-95 | what a handler touches keeps a touch time at least that late for ever, through recycling and reuse |
| `Server.HttpServer.constructor` | source/http_server.cpp:14-46 | the server and its ten empty buckets form an initial state of the protocol |
| `Server.HttpServer.AcceptHandler` | source/http_server.cpp:75-127 | an error stops the chain, at the limit nothing changes, and otherwise the chain takes the steps check, emplace, start and listen in this order, the others running in between |
| `Server.HttpServer.AcceptOne` | source/http_server.cpp:99-127 | the part behind the limit check takes the steps emplace, start and listen |
| `Server.HttpServer.LockedSection` | source/http_server.cpp:101-121 | the section takes the step emplace, its reuse assertion proved |
| `Server.HttpServer.TakeOrMake` | source/http_server.cpp:104-120 | a cached object or a new one, in the map, counted, enrolled in the last bucket and held by the frame |
| `Server.HttpServer.Start` | source/http_server.cpp:123 | start() is one step of the protocol |
| `Server.HttpServer.TimingWheelCheck` | source/co_worker.cpp:48-113 | the check is a run of copying, visits and the push that turns the wheel by one and sets the timer; what the visits keep is `Wheel.PushedBucket`; the manage thread is notified exactly if some visit of it evicted |
| `Server.HttpServer.Examine` | source/co_worker.cpp:55-92 | one iteration does what a visit does, of which `Wheel.VisitMeans` says what it erases, marks and puts up for removal, and reports whether it did the last |
| `Server.HttpServer.Push` | source/co_worker.cpp:97-110 | the rotation loses no entry that survived and sets the timer again |
| `Server.HttpServer.ManageThreadPass` | source/manage.cpp:143-178 | the removal loop does in place what the pass is specified to do, its assertions proved |
| `Server.HttpServer.RemoveEach` | source/manage.cpp:151-175 | the loop visits each pending connection once, in some order |
| `Server.HttpServer.RemoveOne` | source/manage.cpp:153-174 | one iteration: skipped, released or cached |
| `Locks.MutualExclusion` | include/http_server.hpp:78-84 | in every reachable state of any number of threads a mutex has one holder, who never asks for it again |
| `Locks.ChainsAreShort` | source/manage.cpp:132-143 | a chain of threads that wait for one another has at most two links: who is waited for by a thread that is itself waited for can go on |
| `Locks.WaitsEnd` | include/http_server.hpp:78-84 | a blocked thread waits for one that can go on, or for one that waits for one that can |
| `Locks.NoDeadlock` | source/manage.cpp:130-191 | in every reachable state some thread can go on, and whenever one is blocked a thread holding a mutex can |
| `Text.FindFirst` | source/http_parser.cpp:13-25 | the search returns the first occurrence |
| `Text.AtoiOfDecimal` | source/front_conn.cpp:155 | atoi reads back the number that to_string printed |
| `Text.AtoiMeans` | source/front_conn.cpp:155 | atoi reads a number behind blanks and a sign up to the first other character, and without a digit there returns 0 |
| `Headers.MatchLineExact` | source/http_parser.cpp:42-46 | the scan of a request line finds the groups of the regular expression whenever it matches, and there is never a second match |
| `Headers.StripSlashes` | source/http_parser.cpp:48-50 | the longest prefix that does not end in a slash; only slashes go |
| `Headers.FirstInsertionStays` | source/http_parser.cpp:21-57 | each name is stored with the value of its first field on the wire |
| `Headers.LookupMeaning` | source/http_parser.cpp:62-74 | a lookup returns the value under the byte-least key equal to the name ignoring case, which is the first value on the wire under that spelling; empty exactly when no field has the name |
| `Headers.OneSpelling` | source/http_parser.cpp:62-74 | a name spelled in one way yields its first wire value |
| `Headers.HttpParser.ParseRequest` | source/http_parser.cpp:11-60 | parsing succeeds exactly when there is a blank line, and then leaves the fields of the block, the first of each name, of which `Heads.ParsedMessage` says what they are; otherwise the options stay |
| `Headers.HttpParser.ReadBlock` | source/http_parser.cpp:27-57 | the getline loop inserts the fields of the block in order |
| `Headers.HttpParser.ReadLine` | source/http_parser.cpp:33-56 | inserts the fields of one line, of which `Heads.HeaderLineMeans` and `Heads.RequestLineMeans` say what they are |
| `Headers.HttpParser.RequestOption` | source/http_parser.cpp:62-74 | the walk over the ordered keys returns the lookup |
| `Replies.ReplyGenerate` | include/reply.hpp:33-64 | the loops print the status line, six headers, a blank line and the content |
| `Replies.AppendHeaders` | include/reply.hpp:51-58 | the loop appends the headers in order |
| `Replies.ParsePrinted` | include/reply.hpp:51-63 | for any well-formed headers, parsing a printed message yields the content and all headers, in order, with nothing added |
| `Replies.PrintedIsFound` | source/http_parser.cpp:62-74 | every printed header of case-distinct names is found under any letter case, with its value |
| `Replies.ReplyRoundTrip` | include/reply.hpp:33-64 | the program's own replies read back: the content, every header under any letter case, and a Content-Length that atoi maps to the size |
| `Replies.SixHeaders` | include/reply.hpp:37-49 | what a client reads in any reply: the status line comes first, then "ailawd/1.0", the date, the size, "text/html", "keep-alive" and "*" under the six names |
| `Framing.AnswerFilled` | source/connection.cpp:112-125 | filling and answering writes exactly the printed reply, inside the buffer, and leaves the cursors at rest with the next head being read |
| `Framing.SoundTakeBody` | source/front_conn.cpp:155-189 | a head that wants a body fails the assertion on additional bytes exactly if more than its body came along; the model stops at a negative length; otherwise the connection goes on soundly |
| `Framing.SoundStep` | source/front_conn.cpp:65-322 | every event keeps the cursors at rest, at most one read outstanding and that inside its buffer, and every write one whole reply; with the exact condition for the failed assertion, and for where the model stops |
| `Streams.FramingUnique` | source/front_conn.cpp:131-189 | a stream has one reading: two lists of requests that begin it agree as far as both go |
| `Streams.FramedTakeBody` | source/front_conn.cpp:159-189 | the bytes read along with a head become the first bytes of its body |
| `Streams.FramedBody` | source/front_conn.cpp:235-264 | a stretch of the body extends it by exactly these bytes, and the last one completes the request |
| `Requests.ParsesIff` | source/front_conn.cpp:135-140 | a head is accepted exactly if no NUL stands before its blank line |
| `Requests.OptsOfHead` | source/front_conn.cpp:135-155 | method, target and length of a request do not depend on how much was read along with its head |
| `Requests.HttpIsPrefixCode` | source/front_conn.cpp:131-189 | no stream begins with two different requests |
| `Requests.HttpAgrees` | source/http_parser.cpp:11-60 | what the handlers make of a head is what makes a request of the stream |
| `Heads.HeaderLineMeans` | source/http_parser.cpp:35-41 | a line with a colon is the name and the value without the blanks around them |
| `Heads.RequestLineMeans` | source/http_parser.cpp:42-55 | for any verb, blanks, target and tail of a line that the expression matches: the verb in upper case, the target without its trailing slashes, and the trimmed tail |
| `Heads.ParsedMessage` | source/http_parser.cpp:11-57 | parsing any request line with any well-formed headers and any body stores under the three names the verb in capitals, the target up to its slashes and the version, and the body under its own |
| `Heads.HeadSays` | source/front_conn.cpp:140-155 | what the handlers find in any such head: a POST exactly if the verb says so in any letter case, the target up to letter case and trailing slashes, and the announced length, 0 without one |
| `Chunking.FramedStep` | source/front_conn.cpp:131-290 | every event keeps a connection at its place in the stream, or at the start of a new one |
| `Chunking.CursorsRest` | source/front_conn.cpp:108-129 | over any trace of a connection the write cursors are zero at every handler boundary, each write is one reply, a working connection has one read, and a body read fits its buffer |
| `Chunking.HaltsExactly` | source/front_conn.cpp:117-118 | the assertions of do_write never fail and no access leaves a buffer; the assertion on additional bytes fails exactly for a head that came with more than its body; the model stops at a negative Content-Length |
| `Chunking.DispatchesTheStream` | source/front_conn.cpp:86-106 | whatever has happened to a connection that goes on: all requests served are well formed, the bodies analysed are exactly theirs, in order, and the bytes received since the place was last lost begin with the requests served since then |
| `Chunking.ChunkingIndependent` | source/front_conn.cpp:162-189 | two connections that have received bytes of one stream since each last lost its place, in any pieces, have served the same requests of it |
| `Places.PlaceStep` | source/front_conn.cpp:138-220 | the place in the stream is lost by exactly two kinds of events, a head with a NUL before its blank line and a cancelled read; every other event adds its bytes and at most one request |
| `Places.PlaceLostExactly` | source/front_conn.cpp:217-220 | what has been set aside is what had been received and served up to the last such event, and nothing if there was none |
| `Places.HistoryGrows` | source/front_conn.cpp:131-290 | no byte received and no request served is ever forgotten |
| `Places.ClientKeepsPlace` | source/front_conn.cpp:131-290 | as long as what a connection has received is a part of well-formed requests, and no read is cancelled, the place is not lost |
| `Places.KeepAliveRun` | source/front_conn.cpp:223-290 | a client that sends requests in any pieces has exactly these served and exactly their bodies analysed, one for each request that asks for it, if no read is cancelled |
| `Refinement.HandlersRefine` | source/front_conn.cpp:131-332 | each handler does to stats, operations and touch time what a step of the lifecycle does, and which step that is can be read off the event: a failed or empty operation that was not cancelled is a failure; no handler continues a write |
| `Refinement.PushesExactly` | source/front_conn.cpp:293-332 | an event calls push_to_remove once and marks the connection exactly if it is a failure: a read or a write that fails and was not cancelled, a write of no bytes, or a head that announces no bytes for a target that takes a body and has none behind it; any other event does not |
| `Refinement.PushesCounted` | source/front_conn.cpp:324-332 | over any trace push_to_remove has been called once for each failure |
| `Responses.RespondsStep` | source/front_conn.cpp:131-290 | every event that loses the place is answered with an error, every other one serves and answers at most one request; each reply is written exactly if the connection was not marked bad |
| `Responses.RepliesAreDue` | source/front_conn.cpp:131-290 | over any trace of a connection the writes are exactly, in order, the replies called for on a connection not marked bad: to each request served, with its own body analysed at that event, and an error for each loss of the place |
| `Responses.AllAnsweredIff` | source/front_conn.cpp:108-114 | there are never more writes than replies called for, and as many if and only if each was called for on a connection not marked bad; and never fewer replies called for than requests served, and as many if and only if the place has never been lost |
| `Responses.EachRequestIsAnswered` | source/front_conn.cpp:140-231 | over any trace, each request served has its own reply among the writes, made by the event that served it, unless the connection was then marked bad: 400 unless posted, 404 for other targets, else the analysis of its body or a 500 |
| `Responses.InOrder` | source/front_conn.cpp:140-231 | if the place has never been lost and each reply was called for in time, the i-th write is the reply to the i-th request |
| `Responses.CalmCallsInTime` | source/front_conn.cpp:324-332 | every reply is called for in time unless an eviction or a failed operation has marked the connection |
| `Responses.ReplyReadsBack` | source/connection.cpp:112-125 | each of the replies the program sends is read back by its own parser: the status line and the content that the request asks for, and its length |
| `Inputs.RequestTable` | source/front_conn.cpp:140-290 | for any request line and headers: a body of the announced length belongs to a POST for "/ailaw", "/analyse" or "/item", up to letter case and trailing slashes, and none to any other request; 400 unless posted, 404 unless for "/analyse", else 200 with the analysis, or 500 with the error page |
| `Inputs.PostIsProper` | source/http_parser.cpp:44-45 | "POST /analyse HTTP/1.1" with a Content-Length of n is such a request |
| `Inputs.SlashedIsProper` | source/http_parser.cpp:48-52 | so is "post /Analyse// HTTP/1.1", with the target "/Analyse" |
| `Inputs.HaltOf` | source/front_conn.cpp:135-159 | what a read does to the program depends on the head and on how much is behind it |
| `Inputs.PipeliningHalts` | source/front_conn.cpp:157-159 | for any request that takes a body, any body and any further bytes in the same read, a run in which the assertion on additional bytes fails |
| `Inputs.ServedUnanswered` | source/front_conn.cpp:108-114 | for any request with a body, a run in which a connection is evicted, then serves the request, analyses its body if it asks for that, writes nothing and is working again |
| `Inputs.ServedAnswered` | source/front_conn.cpp:131-290 | the same request on a connection that is not marked: for "/analyse" its body is analysed and the reply is 200 with the analysis, or 500 with the error page; for "/ailaw" and "/item" the body is taken off the stream, given to nobody, and the reply is 404 |
| `Inputs.BadHeadLoses` | source/front_conn.cpp:211-220 | for any head with a NUL before its blank line and any bytes behind it, a run in which it gets an error, no request is served and those bytes are thrown away |
| `Inputs.NulHead` | source/http_parser.cpp:13 | a NUL and a blank line is such a head |
| `FrontConn.FrontConn.constructor` | source/connection.cpp:13-27 | the default state of a connection object |
| `FrontConn.FrontConn.FillForHttp` | source/connection.cpp:112-125 | fill_for_http in place, around the printing loops |
| `FrontConn.FrontConn.ReadHeadHandler` | source/front_conn.cpp:131-232 | the handler in place, around the parser object, does what the function does of which the stream properties are proved |
| `FrontConn.FrontConn.ReadBodyHandler` | source/front_conn.cpp:235-290 | the handler in place |
| `FrontConn.FrontConn.WriteHandler` | source/front_conn.cpp:293-322 | the handler in place; `Refinement.PushesExactly` says when it reports a failure |
| `FrontConn.FrontConn.On` | source/front_conn.cpp:65-332 | whatever the socket or the wheel does, the object's history goes on by this event as a trace; the assertion on additional bytes fails exactly at a head that comes with more than its body, the model stops at a negative length; push_to_remove is called exactly at a failure, which marks the object; and otherwise the object keeps resting cursors, whole replies, well-formed requests as the received bytes have them, their bodies analysed and the replies due |
| `FrontConn.FrontConn.KeptWhileGoing` | source/front_conn.cpp:44-332 | what every object with a history keeps as long as it goes on |
| `FrontConn.FrontConn.Opened` | source/http_server.cpp:113-123 | a new object that is started begins a life |
| `FrontConn.FrontConn.Reused` | source/http_server.cpp:104-123 | washed, reset and started, a recycled object begins the life of a new client, whatever the former one left behind |
| `ClientOps.MoreConserves` | source/client_ops.cpp:71-84 | filled part and remaining stream together never change |
| `ClientOps.MoreCounts` | source/client_ops.cpp:71-84 | whatever the peer does, the loop reads nothing past the first failed or empty read, and stops short only there, with everything before it |
| `ClientOps.MoreExact` | source/client_ops.cpp:71-84 | the loop ends exactly at its goal if and only if so much arrives before that read and a segment or the buffer ends there |
| `ClientOps.ReadFromSpec` | source/client_ops.cpp:35-85 | the reported prefix is exactly what the peer sent behind the colon, none lost and none changed, in any segmentation |
| `ClientOps.ReadFromCounts` | source/client_ops.cpp:71-84 | if the first read succeeds and announces a positive number, into a buffer of zeros: never more than arrives before the first failed or empty read, and less than announced only if less arrives, and then all of it |
| `ClientOps.SucceedsIff` | source/client_ops.cpp:35-85 | for every script into a buffer of zeros: never more than arrives before the first failed or empty read; and anything at all if and only if the first read succeeds and brings within 20 bytes a positive number and a colon, behind which more arrives |
| `ClientOps.ReadFromExact` | source/client_ops.cpp:61-84 | exactly as much as announced if and only if so much arrives before that read and a segment, or the buffer of the first read, ends there |
| `ClientOps.Reassembly` | source/client_ops.cpp:35-85 | for a payload that gets through behind its number and colon before the first failed or empty read, in any segmentation whose first segment brings the colon: a prefix of it, all of it if no longer than announced, else at least the announced number of bytes, and exactly that many if and only if a segment or the first buffer ends there |
| `ClientOps.MoreThanAnnounced` | source/client_ops.cpp:71-84 | with one byte announced and two sent at once, both are returned |
| `ClientOps.WrapsIff` | source/client_ops.cpp:53-71 | into a zeroed buffer, a size wraps around exactly if a negative number is announced |
| `ClientOps.SyncReadFrom` | source/client_ops.cpp:35-85 | the reader in place, over a socket and a vector of at least 20 bytes; it reports where a size wraps around; when it fails, `ClientOps.SucceedsIff` says |
| `ClientOps.ReceiveRest` | source/client_ops.cpp:71-84 | its loop in place |
| `Memo.ConsistentIsTransparent` | source/front_conn.cpp:367-441 | whatever gets and sets fail, consistent answers make every reply that of the handler without a cache |
| `Memo.InconsistentShows` | source/front_conn.cpp:396-436 | inconsistent answers can be told from outside: failures of Redis exist that expose the cache |
| `Memo.TransparentIff` | source/front_conn.cpp:367-441 | the cache is invisible if and only if the answers are consistent for their keys |
| `Memo.FunctionalBackend` | source/front_conn.cpp:401-436 | in particular when NUL-free answers are a function of the key |
| `Memo.DocumentsTransparent` | source/front_conn.cpp:367-441 | if answers depend on the uuid, or without one on the content, have no NUL, and no two of these share a key (digests do not collide and are no uuids), no document gets another reply than without the cache |
| `Memo.AnalyseHandler` | source/front_conn.cpp:367-441 | the handler in place, over a Redis client: it refuses, and leaves the store as it is for, exactly the documents that are missing, have no access id or another one, or neither uuid nor content; any other is given the hit under its uuid, or the digest of its content, or the backend's answer, and that is stored unless the set fails |
| `Memo.ReplyTable` | source/front_conn.cpp:380-436 | the same of the handler as a function, of which transparency is proved |
| `Memo.StoredIsGiven` | include/redis.hpp:145-199 | what one request stores is what the next with its key is given, as a C string, and no other key notices |
| `Memo.SameUuidShows` | source/front_conn.cpp:396-414 | two documents with one uuid and different answers: the second is given the first one's |
| `Sharing.SharedTransparentIff` | source/front_conn.cpp:396-436 | however requests of different connections interleave between their gets and sets, and whichever fail, every reply is that of the handler without a cache, if and only if the answers are consistent for their keys |
| `Sharing.StepsKeep` | source/front_conn.cpp:396-436 | over any interleaving every stored value is an initial one or the answer of a request that has begun |
| `Sharing.DocumentsShared` | source/front_conn.cpp:367-441 | if answers depend on the uuid, or without one on the content, have no NUL, and no two of these share a key, no interleaving gives a document another reply than without the cache |

## Left out

- Sockets, strands, timers, threads and boost.asio itself; see the assumptions above.
- Liveness of removal: a notification sent while the manage thread is not waiting is lost, and
  the timeout branch does not look at the list, so the model says what a pass does and not that
  one always comes.
- That `p_write_` stays unchanged until a write completes: `start()` reads the next head without
  waiting for the write, so it only holds for clients that wait for the reply. A write is
  recorded with the bytes it was issued with.
- Framing.SoundTakeBody: stops at a negative Content-Length, which the program turns into a very
  large size; also left out are numbers beyond `int` for atoi and other sizes that wrap around.
- A request target made only of slashes or only of a carriage return, where the source reads in
  front of the string; the model stops at the empty string.
- The `const char*` overload of `reply_generate`, which agrees with the other one when the
  length is that of the C string, and that of `fill_for_http`.
- ClientOps.SyncReadFrom: stops where a size_t wraps around, with a negative number or with a
  colon that was in the buffer before anything was received; it does not say what the program
  does then.
- Heads.HeadSays: for heads with one Content-Length at most and no header named as the parser
  names the method or the target; which value the others yield is `Headers.LookupMeaning`.
- Bytes that arrived before a read failed: they are not part of the received stream.
- Memo.AnalyseHandler: the method runs from get to set without another request in between; the
  interleavings are those of `Sharing`.
- JSON parsing, MD5, hiredis and its reconnection, the connection to the backend and the timed
  variants of connecting and reading.
- `set_session_id`, `request_connection`, `request_session_id`, statistics, logging, `getrlimit`,
  signals, and the setting of the expiry time, which happens before the threads start.
- The other status constants of `http_proto`: the round trip holds for any line of their shape
  (`Replies.StatusLine`).
