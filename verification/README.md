# muduoX, verified

muduoX is a C++17 reactor library with an HTTP server on top of it. This project models the
parts of it that keep state under hard invariants, and proves what they promise over all
inputs and all runs.

| component | modules |
|---|---|
| LFU cache with ageing | `LfuModel` (calls on keyed lists), `LfuLedger` (a key → value, count ledger), `LfuRefinement`, `LfuTheorems`, `LfuCoherence`, `LfuLaws`, `LfuHeap` (linked nodes, in place), `LfuReplay` |
| Timer queue | `TimerModel` (steps), `TimerInvariant`, `TimerTheorems`, `TimerDue`, `TimerQueue` (the object) |
| HTTP requests | `HttpMessage` (values and printing), `HttpParser` (the two machines), `HttpContext` (the object), `HttpNumbers`, `HttpRoundTrip`, `HttpRefusal`, `HttpSplit`, `HttpStream` (clean cuts), `HttpTrap`, `HttpStops`, `HttpHarm`, `HttpEarly`, `HttpCut`, `HttpStreamCut` (all cuts) |
| HTTP responses | `HttpResponse` |
| Connection output | `TcpOutput` |
| Functor queue | `FunctorQueue` (interleavings), `EventLoop` (the object) |
| Logger | `AsyncLog` (interleavings, `FixedBuffer`), `AsyncLogging` (the object) |
| Slot allocator | `SlotPool`, `SlotReuse`, `HashBucket` |
| Byte buffer | `ByteBuffer` |
| Poller | `Poller` |
| shared | `Basics` |

Each component that the source changes in place is a class whose methods are proved against
functions on values; the theorems are about runs of those functions.

Results that differ from what one might expect of the code:

- The LFU's cached minimum is right in all runs exactly for `maxAverageNum` in 2..250. Under 2,
  ageing takes nothing off any frequency; over 250, a frequency can still be at the sentinel 127
  after ageing has taken off half of `maxAverageNum` (`LfuTheorems.MinFreqExactRange`). The
  shortest run that makes it wrong has 1 call (under -1), 127 calls (-1 to 1) or
  `maxAverageNum` + 1 calls (over 250) (`LfuTheorems.ShortestWrongRun`), so within the source's
  int `INT_MAX` itself is right as well (`LfuTheorems.MinFreqExactInInt`). The indexes agree
  whether or not it is right (`LfuCoherence.IndexCoherent`).
- A request in any number of deliveries is handed over as sent exactly if no delivery ends inside
  a header line or the final empty line and, where one ends between CR and LF of the request line
  and the stale byte after the CR happens to be LF, none ends behind a header line, for the LF then
  becomes part of a field name. A delivery that ends behind the CR with any other stale byte is
  answered with an error first, and the request is handed over all the same
  (`HttpCut.HarmlessCuts`, for streams `HttpStreamCut.HarmlessStreams`). Once a delivery has ended
  inside a header line, the connection never completes a request again
  (`HttpTrap.TrappedForGood`).
- A body announced by Content-Length is taken as the body only after POST; after PUT, DELETE and
  the others it is parsed as the next request (`HttpRoundTrip.BodyTakenIffPost`).
- A channel with no events is watched by the kernel after an odd number of event changes to
  nothing on a channel that is not registered, for example one `disableAll` on a new channel, and
  after an even number, not 0, on one that had events (`Poller.WatchedForNothing`).
- A request without header fields never completes (`HttpTrap.HeaderlessNeverCompletes`,
  `HttpTrap.CompletesIffHeaders`).
- A response's `Content-Length` line is cut off by the 32-byte scratch buffer for bodies of
  10^13 bytes and more, and such a response cannot be read back (`HttpResponse.FramingExact`).
- `HashBucket::useMemory(0)` indexes in front of the first pool (`SlotPool.BucketExact`).
- A log line as long as a large buffer is dropped (`AsyncLog.KeptIffFits`).
- The comment in `src/Buffer.cpp` calls the overflow area 64 KB; the code has 66536 bytes, and so
  has the model.

## Model

| member | source | states |
|---|---|---|
| `LfuTheorems.MinFreqExactRange` | include/Lfu.h:170-314 | With capacity other than 0, the cached minimum is the least resident frequency, with a non-empty list, in all states of all runs of put, get and purge, if and only if maxAverageNum is in 2..250 |
| `LfuTheorems.RightInRange` | include/Lfu.h:170-314 | One half of the above: no run in the range makes the cached minimum wrong, whatever order the ageing pass takes |
| `LfuTheorems.WrongOutsideRange` | include/Lfu.h:271-314 | The other half: outside the range a run of one put and gets of one key, of a stated length, ends with a wrong cached minimum |
| `LfuTheorems.ShortestWrongRun` | include/Lfu.h:245-314 | Outside the range all runs of at most n calls end right if and only if n is below a stated length: 1 for maxAverageNum under -1, 127 for -1 to 1, maxAverageNum + 1 over 250 |
| `LfuTheorems.MinFreqExactInInt` | include/Lfu.h:245-314 | In runs of up to INT_MAX calls, where the int counter cannot overflow, the cached minimum is right if and only if maxAverageNum is in 2..250 or is INT_MAX |
| `LfuCoherence.IndexCoherent` | include/Lfu.h:216-299 | For every maxAverageNum, in every state a run without a fault reaches, right minimum or wrong: every resident key is in the list of its frequency, once, and in no other list; the list lengths add up to the number of keys; there are at most capacity keys |
| `LfuTheorems.ResidentHasLastPut` | include/Lfu.h:98-129 | A resident key has the value of the last put of that key, for every maxAverageNum |
| `LfuTheorems.LedgerAgrees` | include/Lfu.h:98-314 | With maxAverageNum in 2..250, or with any other where nothing ages, the cache has the values and counts of a plain ledger that knows no lists, no sentinel and no cached minimum |
| `LfuTheorems.EvictsLeastFrequent` | include/Lfu.h:189-214 | In the same runs a put of a new key on a full cache removes exactly one key, of least frequency and the first of those to enter its list |
| `LfuTheorems.EvictsLeastRecent` | include/Lfu.h:170-214 | After a run in which nothing aged (with maxAverageNum under 1 every access ages) that key is the least recently used of the least frequently used ones |
| `LfuTheorems.TotalBoundedByCalls` | include/Lfu.h:245-269 | In the same runs the access total stays between 0 and the number of calls, so an int cannot overflow in fewer than 2^31 calls |
| `LfuLaws.CountedLaw` | include/Lfu.h:245-299 | Counting an access leaves values and keys; the total is one more; if it reaches (maxAverageNum + 1) * size every frequency loses maxAverageNum / 2, rounded towards zero, but stays at least 1, and otherwise no frequency changes |
| `LfuLaws.TalliedLaw` | include/Lfu.h:245-299 | The same of the plain ledger's counts |
| `LfuLaws.AgeingKeepsOrder` | include/Lfu.h:285-294 | Ageing never turns two keys round, and keeps the difference of any two that stay above 1 |
| `LfuLaws.StepLaw` | include/Lfu.h:98-314 | Every put and get that counts: the key's frequency is one more, or 1 if it is new, and then all follow the law of ageing; a put that makes room takes one key and that key's frequency off the total; no other key comes or goes |
| `LfuLaws.LedgerLaw` | include/Lfu.h:98-314 | The same of the plain ledger |
| `LfuLaws.EveryCallLawful` | include/Lfu.h:98-314 | So does every call of a run in range |
| `LfuLaws.OtherCalls` | include/Lfu.h:98-143 | A miss and a put without capacity change nothing; a purge takes every key and leaves the counters and the cached minimum |
| `LfuLaws.AverageWraps` | include/Lfu.h:245-269 | A negative total is divided as an unsigned number of 64 bits, and the quotient's low 32 bits are the average |
| `LfuRefinement.StepGood` | include/Lfu.h:98-314 | Every call that does not age, or ages with maxAverageNum in 2..250, keeps the sum bounds and the right minimum, faults nowhere, and acts on the ledger as the plain ledger step |
| `LfuRefinement.RunGood` | include/Lfu.h:98-314 | No run of such calls faults, and every one of them on the lists is the run on the ledger |
| `LfuRefinement.TallyKeepsBound` | include/Lfu.h:245-258 | Counting an access, with ageing where the average is exceeded, keeps sum(freq) within the total and below (maxAverageNum + 1) * size |
| `LfuRefinement.SomeKeyAgesBelowSentinel` | include/Lfu.h:271-299 | Under the sum bound some key ages to a frequency below the sentinel |
| `LfuRefinement.ScanFindsLeast` | include/Lfu.h:301-314 | The scan of updateMinFreq finds the least occupied frequency if one lies below the sentinel |
| `LfuRefinement.AgedSplits` | include/Lfu.h:271-299 | At every point of the ageing pass the lists hold visited keys behind the others, in the order of the visit, under their aged frequencies |
| `LfuRefinement.HeadIsFirstLeast` | include/Lfu.h:207-214 | The head of the least frequency's list is the first key of least count in order of entry |
| `LfuHeap.FreqList.AddNode` | include/Lfu.h:53-62 | The doubly linked list stays well linked and gains the node in front of the tail sentinel |
| `LfuHeap.FreqList.RemoveNode` | include/Lfu.h:64-75 | The list stays well linked and loses exactly that node, whose own links become null |
| `LfuHeap.FreqList.GetFirstNode` | include/Lfu.h:77-77 | The first node, or the tail sentinel of an empty list |
| `LfuHeap.LfuCache.constructor` | include/Lfu.h:91-94 | An empty cache whose cached minimum is the sentinel |
| `LfuHeap.LfuCache.Put` | include/Lfu.h:98-115 | The linked structure stays well formed and its abstraction makes exactly the put step |
| `LfuHeap.LfuCache.Get` | include/Lfu.h:118-129 | Finds exactly resident keys, gives their value, and makes exactly the get step |
| `LfuHeap.LfuCache.Purge` | include/Lfu.h:139-143 | Both maps are emptied and the counters and the cached minimum stay |
| `LfuHeap.LfuCache.GetInternal` | include/Lfu.h:170-187 | The node moves to the end of the next frequency's list, the minimum follows where it must, and the access is counted |
| `LfuHeap.LfuCache.PutInternal` | include/Lfu.h:189-205 | Evicts when full, enters the new node with frequency 1, counts the access, lowers the minimum to 1 |
| `LfuHeap.LfuCache.KickOut` | include/Lfu.h:207-214 | Removes the head of the cached minimum's list from both indexes and takes its frequency off the total |
| `LfuHeap.LfuCache.RemoveFromFreqList` | include/Lfu.h:216-225 | The node leaves the list of its frequency and no other list changes |
| `LfuHeap.LfuCache.AddToFreqList` | include/Lfu.h:227-243 | The node goes to the end of the list of its frequency, which is made if there is none, and no other list changes |
| `LfuHeap.LfuCache.AddFreqNum` | include/Lfu.h:245-258 | Total and average are updated and ageing happens exactly when the average exceeds the maximum |
| `LfuHeap.LfuCache.DecreaseFreqNum` | include/Lfu.h:260-269 | Total and average after the loss of a node |
| `LfuHeap.LfuCache.HandleOverMaxAverageNum` | include/Lfu.h:271-299 | The loop that breaks the index node by node ends with every node listed under its aged frequency, in the order of the pass |
| `LfuHeap.LfuCache.AgeAll` | include/Lfu.h:278-294 | The loop itself: both indexes are those of the ageing function at the end |
| `LfuHeap.LfuCache.UpdateMinFreq` | include/Lfu.h:301-314 | The minimum becomes the least occupied frequency below the sentinel, or 1 |
| `LfuReplay.EvictionSafe` | include/Lfu.h:207-214 | With maxAverageNum in 2..250, or with more and no more calls than it, a full cache in a reachable state has a node in the list of its cached minimum |
| `LfuReplay.Replay` | include/Lfu.h:98-143 | Under the same condition any sequence of calls on a new cache never lacks a node to evict; a get hits exactly where the plain ledger of the calls before it has the key, and gives the value last put |
| `TimerTheorems.OwnedOnce` | src/TimerQueue.cpp:105-191 | In every reachable state every timer ever created is in exactly one of: on its way to the loop, pending, in the running batch, deleted; and none was deleted twice |
| `TimerTheorems.CalledExists` | src/TimerQueue.cpp:141-143 | A callback is called only on a timer that exists and was not deleted |
| `TimerTheorems.DeletedNeverCalled` | src/TimerQueue.cpp:115-191 | No run calls a timer after it was deleted |
| `TimerTheorems.CancelPreventsLaterCalls` | src/TimerQueue.cpp:115-131 | After a cancel processed behind the add, the timer is called in no later batch, whatever callbacks do |
| `TimerTheorems.StaleCancelHarmless` | src/TimerQueue.cpp:115-131 | A cancel with an identity whose timer is gone changes nothing in any later run except the set of cancel marks, even where the address is in use again |
| `TimerTheorems.BatchExact` | src/TimerQueue.cpp:150-167 | The batch is exactly the due timers, by time and then address, and exactly the others stay |
| `TimerTheorems.ResetExact` | src/TimerQueue.cpp:169-191 | After reset exactly the repeating, uncancelled timers of the batch are pending at now plus interval, the others of the batch are deleted, all other timers are unchanged |
| `TimerTheorems.EndExact` | src/TimerQueue.cpp:133-191 | The same of the end of handleRead as a whole |
| `TimerTheorems.NoLostWakeUp` | src/TimerQueue.cpp:21-66 | In every reachable state outside a batch, a non-empty queue has its timerfd fired, or due no later than the earliest expiration or 100 microseconds after the last setting |
| `TimerTheorems.IndexesAgree` | src/TimerQueue.cpp:194-206 | timers_ is sorted, keyed by current expirations, and holds the timers of activeTimers_, in every reachable state |
| `TimerDue.CreateExact` | include/Timer.h:13-18 | A new timer has its time, interval and repetition and the next number; it is on its way to the loop, and nothing else changes |
| `TimerDue.AddExact` | src/TimerQueue.cpp:105-112 | The timer enters both indexes at its time and leaves its way there, no other timer is touched, and the timerfd is set for it, at least 100 microseconds ahead, exactly if it comes before all others |
| `TimerDue.CancelExact` | src/TimerQueue.cpp:115-131 | A pending timer of that identity leaves both indexes and is deleted, any other identity is marked while callbacks run and ignored otherwise, and no other timer is touched |
| `TimerDue.BeginExact` | src/TimerQueue.cpp:133-167 | A batch begins with the timerfd read, the time noted and the marks cleared; what is due leaves the indexes, and nothing else changes |
| `TimerDue.EndArms` | src/TimerQueue.cpp:184-191 | At the end of a batch the timerfd is set for the earliest timer exactly if its time is positive |
| `TimerDue.CalledWhenDue` | src/TimerQueue.cpp:105-191 | A pending timer that is not cancelled before the first batch at or after its time is called in that batch, once, and not before; then it is pending again at the batch's time plus its interval if it repeats and was not cancelled, and deleted otherwise |
| `TimerDue.MadeThenCalled` | src/TimerQueue.cpp:91-191 | The same from its making on, whatever happens on its way to the loop |
| `TimerInvariant.SentinelExact` | src/TimerQueue.cpp:150-160 | The lower_bound with the largest address as sentinel cuts exactly behind the due timers |
| `TimerInvariant.TimespecExact` | src/TimerQueue.cpp:21-33 | The span given to the timerfd is the remaining time, at least 100 microseconds, split into whole seconds and nanoseconds |
| `TimerInvariant.StepKeeps` | src/TimerQueue.cpp:91-206 | Every creation, add, cancel, batch begin, callback, batch end and passage of time keeps the invariant and touches only existing timers |
| `TimerInvariant.RunKeeps` | src/TimerQueue.cpp:91-206 | So does every run |
| `TimerQueue.Queue.constructor` | src/TimerQueue.cpp:68-79 | An empty queue |
| `TimerQueue.Queue.Make` | include/Timer.h:13-18 | A new timer gets an address of its own and the next sequence number |
| `TimerQueue.Queue.AddTimerInLoop` | src/TimerQueue.cpp:105-112 | The timer enters both indexes, and the timerfd is set exactly when it became the earliest |
| `TimerQueue.Queue.CancelInLoop` | src/TimerQueue.cpp:115-131 | A pending timer leaves both indexes and is deleted; one of the running batch is marked; any other identity is ignored |
| `TimerQueue.Queue.HandleRead` | src/TimerQueue.cpp:133-147 | The whole call, with callbacks that add and cancel as they like, is a legal run of the step machine: batch begin, each due timer called in turn and doing what its callback can do then, batch end |
| `TimerQueue.Queue.GetExpired` | src/TimerQueue.cpp:150-167 | The due prefix leaves both indexes and becomes the batch |
| `TimerQueue.Queue.Reset` | src/TimerQueue.cpp:169-191 | Every timer of the batch is restarted or deleted, and the timerfd is set for the earliest |
| `TimerQueue.Queue.Insert` | src/TimerQueue.cpp:194-206 | The timer enters both indexes at its place; the result says whether it is the earliest |
| `TimerQueue.Queue.ResetTimerfd` | src/TimerQueue.cpp:45-66 | The timerfd is armed for the span computed from the clock |
| `HttpParser.Parse` | http/HttpContext.cpp:9-70 | parseRequest ends from every state but STATE_FINISH, never stops in STATE_ANALYSIS, never gives bytes back, and a request completed from its start used at least one byte |
| `HttpParser.Serve` | http/HttpServer.cpp:42-64 | The onMessage loop ends on every input and leaves the parser outside STATE_FINISH |
| `HttpContext.Parser.ParseRequest` | http/HttpContext.cpp:9-70 | The state machine in place refines the parsing function, including errors, faults and what stays in the buffer |
| `HttpContext.Parser.ParseURI` | http/HttpContext.cpp:75-135 | The request line step, including the read of the byte behind the CR |
| `HttpContext.Parser.ParseHeaders` | http/HttpContext.cpp:138-252 | The character loop refines the scanning function; nothing is consumed unless the section is complete |
| `HttpContext.Parser.AddHeader` | http/HttpRequest.h:64-78 | The field's name maps to its trimmed value, the last field of a name wins, a null pointer is a fault |
| `HttpContext.TrimBoth` | http/HttpRequest.h:67-75 | The two loops leave exactly the value without spaces at its ends |
| `HttpContext.Parser.Reset` | http/HttpContext.h:59-64 | The parser is as new |
| `HttpContext.OnMessage` | http/HttpServer.cpp:42-64 | The loop hands over the requests of the serving function, in order, and leaves its parser state and its bytes |
| `HttpRoundTrip.ParseInvertsPrint` | http/HttpContext.cpp:9-252 | For every well-formed request with at least one header field, a POST's Content-Length announcing the body's length in decimal, one delivery of its text and any tail is parsed into its method, path, query, version, headers and body, and exactly the tail is left |
| `HttpNumbers.StoulExact` | http/HttpContext.cpp:50-51 | For every text taken apart into spaces, a sign, digits and the rest, the length is the value of the digits; it is an exception exactly if there is no digit or the value exceeds 64 bits; a minus sign gives the complement |
| `HttpNumbers.StoulCovers` | http/HttpContext.cpp:50-51 | Every text can be taken apart so |
| `HttpNumbers.StoulDecimal` | http/HttpContext.cpp:50-51 | The decimal form of n, with spaces, a plus sign and zeros in front and no digit behind, is read as n if n fits 64 bits, and is an exception otherwise |
| `HttpNumbers.DigitsAreDec` | http/HttpContext.cpp:50-51 | Every text of digits is the decimal form of its value behind zeros |
| `HttpRefusal.LengthExact` | http/HttpContext.cpp:47-63 | With a Content-Length that announces n the body is the next n bytes, once they are there; one that is no number, or too large, is an uncaught exception |
| `HttpRefusal.LineExact` | http/HttpContext.cpp:75-135 | A request line is accepted if and only if it is a method, a target without spaces and a version with one space between them, and those, with the target cut at its first question mark, are the fields it sets |
| `HttpRefusal.FirstLineExact` | http/HttpContext.cpp:75-135 | A complete first line is an error if and only if it is no such line, and then nothing of it is used |
| `HttpRefusal.SectionExact` | http/HttpContext.cpp:138-252 | A complete header section of any lines is refused if and only if one of them lacks a colon behind its first character with a space behind it; otherwise each name maps to the trimmed value, the last of a name winning |
| `HttpRefusal.BareLfEnters` | http/HttpContext.cpp:138-252 | A value may end with an LF alone |
| `HttpRefusal.LoneEndRefused` | http/HttpContext.cpp:138-252 | A CR or LF in a name, and a CR in a value with anything but LF behind it, are refused |
| `HttpRefusal.TrimExact` | http/HttpRequest.h:67-75 | Trimming takes the spaces on both sides and nothing else |
| `HttpRoundTrip.BodyTakenIffPost` | http/HttpContext.cpp:38-63 | For every method and every body as long as its Content-Length says: after POST the body is taken, after any other the request has none and the body stays as if it were the next request; so the framing is right if and only if the method is POST or the body is empty |
| `HttpRoundTrip.PipelineServed` | http/HttpServer.cpp:42-64 | k requests followed by anything are handed over in order and the loop goes on with what follows |
| `HttpRoundTrip.PipelineEmpties` | http/HttpServer.cpp:42-64 | k requests and nothing else: k calls in order, an empty buffer, a fresh parser |
| `HttpTrap.HeaderlessNeverCompletes` | http/HttpContext.cpp:157-161 | A request line followed by any CRs and LFs in any number of deliveries is never complete: every byte of them stays unread |
| `HttpTrap.CompletesIffHeaders` | http/HttpContext.cpp:9-252 | For every request line, header fields and body that can be printed, the printed request is handed over if and only if it has a header field, and then as it was sent |
| `HttpTrap.TrappedForGood` | http/HttpContext.cpp:138-252 | From a state inside a header line no deliveries whatever complete a request, errors on the way or not |
| `HttpTrap.TaintedForGood` | http/HttpContext.cpp:138-252 | A field in the unfinished request is in the next request handed over, whatever is delivered, errors on the way or not |
| `HttpTrap.NeverIdleAgain` | http/HttpServer.cpp:42-64 | After further bytes the parser is fresh with an empty buffer only if a request was handed over, errors on the way or not |
| `HttpTrap.StuckForGood` | http/HttpContext.cpp:138-252 | Between CR and LF of the empty line, with another byte in front of the buffer, every delivery fails |
| `HttpTrap.NoLineForGood` | http/HttpContext.cpp:75-135 | With a line in front of the buffer that has no method, every delivery fails and the bytes stay |
| `HttpRoundTrip.UriParses` | http/HttpContext.cpp:75-135 | A printed request line is taken off the front of any data and parsed back |
| `HttpRoundTrip.HeadersParse` | http/HttpContext.cpp:138-252 | A printed header section is parsed into its map on top of what the request has, and its length is used |
| `HttpSplit.Completes` | http/HttpContext.cpp:13-68 | A parser that rests at a clean cut completes the request with the rest of its bytes, whatever follows |
| `HttpSplit.Advances` | http/HttpContext.cpp:13-68 | A parser that rests at a clean cut and gets bytes up to a later clean cut rests there |
| `HttpStream.SegmentationTransparent` | http/HttpServer.cpp:42-64 | However a stream of requests is cut at clean points, onRequest gets the same requests (receive time aside) as from one delivery, and nothing is left over |
| `HttpStream.Delivered` | http/HttpServer.cpp:42-64 | One delivery between two clean points hands over exactly the requests completed in between |
| `HttpCut.HarmlessCuts` | http/HttpContext.cpp:75-252 | One request in any number of deliveries is handed over once, as sent, with nothing left, if and only if every delivery ends before the request line's CR, behind it, behind its LF, behind a header line, behind the header section or in the body, and none behind a header line where one ends behind the CR with a stale LF after it; and then there is no error on the way if and only if none ends behind the CR with another byte after it |
| `HttpCut.FedFromRest` | http/HttpServer.cpp:42-64 | The same with anything behind the request: a request with safe ends is handed over and what follows is served as if alone; otherwise the request is lost or altered or leaves bytes of its own |
| `HttpStreamCut.HarmlessStreams` | http/HttpServer.cpp:42-64 | Unless a request that others follow, with a body or a space in its first field's name, ends early, a stream of requests in any deliveries is handed over in order, as sent, with nothing left, if and only if in every request the ends of deliveries are safe, and without an error if and only if none is behind a CR with a byte other than LF after it |
| `HttpStreamCut.TwinsHanded` | http/HttpContext.cpp:75-252 | A concrete stream where a request does end early: its deliveries are not safe, and yet both requests are handed over as sent, since what the first leaves makes up for what it takes |
| `HttpHarm.UncleanHarms` | http/HttpContext.cpp:138-252 | After a delivery that ends inside a header line or inside the empty line no request is handed over any more, whatever follows |
| `HttpStops.ToCr` | http/HttpContext.cpp:75-135 | A delivery that ends behind the request line's CR is taken as a whole line if the stale byte is LF, and is an error that leaves its bytes otherwise |
| `HttpStops.Recovers` | http/HttpContext.cpp:75-135 | After that error the deliveries that follow do what they would do from the start |
| `HttpHarm.FieldStopHarms` | http/HttpContext.cpp:75-252 | After such a stale LF, a delivery that ends behind a header line costs the request, whatever follows: a field with an LF in its name is entered |
| `HttpEarly.LfUncleanHarms` | http/HttpContext.cpp:75-252 | After such a stale LF, a delivery that ends inside a header line or inside the empty line spoils the request; the latter ends the header section one byte into the buffer, and the header lines are read as what follows |
| `HttpResponse.AppendToBuffer` | http/HttpResponce.cpp:7-48 | The steps append exactly the written form of the response to what the buffer holds |
| `HttpResponse.FramingExact` | http/HttpResponce.cpp:7-48 | A reader following section 3.3.3 of RFC 7230 can read a kept-alive response back, behind which anything may follow, if and only if its body is under 10^13 bytes, and then gets status, reason, fields and body |
| `HttpResponse.ClosingExact` | http/HttpResponce.cpp:7-48 | A reader to the end of the stream gets a closing response back, of any length: status, reason, that it closes, fields and body |
| `HttpResponse.LengthLineWhole` | http/HttpResponce.cpp:26-27 | The Content-Length line is whole if and only if the length is under 10^13 |
| `HttpResponse.StreamSplits` | http/HttpResponce.cpp:7-48 | Responses written back to back are read back one by one |
| `HttpResponse.SplitUnique` | http/HttpResponce.cpp:7-48 | No byte stream is two lists of responses that differ in status, reason, fields as received, or body |
| `TcpOutput.OutputStream` | src/TcpConnection.cpp:62-296 | In all runs, with all partial writes and errors: bytes written and bytes waiting are the accepted messages in order, write interest is on exactly while bytes wait, the half-close is issued at most once, when drained and behind the last byte, and after shutdown is outstanding exactly while bytes wait |
| `TcpOutput.WireExact` | src/TcpConnection.cpp:167-289 | In all runs the wire is what the kernel took, of each message sent while nothing waited and of the waiting bytes, in order, and the waiting bytes are the rest of what was taken over: none is sent twice or dropped |
| `TcpOutput.StateExact` | src/TcpConnection.cpp:109-210 | A run leaves the connection closed once it was closed, shutting down once that was asked for while connected |
| `TcpOutput.ShutdownBegins` | src/TcpConnection.cpp:109-117 | After a shutdown while connected nothing is taken over any more, and the connection is shutting down until it is closed |
| `TcpOutput.AcceptsNoMore` | src/TcpConnection.cpp:62-117 | While shutting down or closed nothing is taken over, and once closed nothing is written |
| `TcpOutput.SilentAfterHalfClose` | src/TcpConnection.cpp:109-117 | No byte and no second half-close follows a half-close |
| `TcpOutput.CompletionExact` | src/TcpConnection.cpp:167-199 | A write-complete callback is queued exactly when an event leaves nothing waiting that was waiting, or a message goes out in one write; everything accepted is then written |
| `TcpOutput.HighWaterExact` | src/TcpConnection.cpp:270-288 | The high-water callback is queued exactly when the waiting bytes rise from below the mark to it or past it |
| `TcpOutput.StepKeeps` | src/TcpConnection.cpp:62-296 | Every event keeps the connection's invariant |
| `TcpOutput.Connection.SendNow` | src/TcpConnection.cpp:62-74 | send on the loop thread makes the send step and keeps the invariant |
| `TcpOutput.Connection.SendOut` | src/TcpConnection.cpp:226-289 | sendInLoop: direct write where nothing waits, the rest buffered, a broken pipe drops the message |
| `TcpOutput.Connection.ShutdownNow` | src/TcpConnection.cpp:109-117 | shutdown makes the shutdown step and keeps the invariant |
| `TcpOutput.Connection.HalfClose` | src/TcpConnection.cpp:291-296 | The half-close is issued exactly when there is no write interest |
| `TcpOutput.Connection.OnWritable` | src/TcpConnection.cpp:167-199 | handleWrite makes the write step and keeps the invariant |
| `TcpOutput.Connection.OnClose` | src/TcpConnection.cpp:202-210 | handleClose ends write interest and keeps the invariant |
| `FunctorQueue.RunOnceInOrder` | src/EventLoop.cpp:112-174 | In every interleaving the functors run are a prefix of those queued, in lock order, each once, and each in the round after the one in which it was queued |
| `FunctorQueue.NoLostWakeUp` | src/EventLoop.cpp:112-142 | Whenever the loop is in poll with functors pending, the wake-up counter is positive or a producer that has pushed has yet to write |
| `FunctorQueue.CounterExact` | src/EventLoop.cpp:128-142 | The wake-up counter is the number of wake-ups written since it was last read |
| `FunctorQueue.EveryFunctorRuns` | src/EventLoop.cpp:73-174 | From any such state wake-ups alone, without timeout or other event, let every queued functor run |
| `FunctorQueue.IterationRunsAll` | src/EventLoop.cpp:73-174 | Under every schedule, what was queued while the loop was in poll, handling events or about to swap has run when the loop is next at its top |
| `FunctorQueue.StepKeeps` | src/EventLoop.cpp:73-174 | Every step of every thread keeps order, rounds and the noticing of pending functors |
| `EventLoop.Queue.QueueInLoop` | src/EventLoop.cpp:112-126 | The call, with other threads in between, is a run from its push to its wake-up, which is written outside the loop thread always and on it exactly while functors run |
| `EventLoop.Queue.DoPendingFunctors` | src/EventLoop.cpp:158-174 | The call, with producers and re-queueing functors in between, is a run that begins one round and calls at least all functors pending at its start |
| `EventLoop.Queue.HandleRead` | src/EventLoop.cpp:136-142 | Reading resets the counter and keeps the invariant |
| `AsyncLog.Conservation` | log/AsyncLogging.cpp:20-87 | In every interleaving of append and the backend, no step uses a buffer that is not there, and file, buffers to write, buffers_ and currentBuffer_ hold all lines shorter than a large buffer, in order |
| `AsyncLog.RoundFlushes` | log/AsyncLogging.cpp:45-62 | Once a round has written its buffers the file holds exactly what was logged before its swap |
| `AsyncLog.KeptIffFits` | log/AsyncLogging.cpp:20-35 | A line is kept if and only if it is shorter than a large buffer |
| `AsyncLog.AppendExact` | log/AsyncLogging.cpp:20-35 | A buffer goes to the backend exactly if the line does not fit it; the line then begins the next one, and the spare is used first |
| `AsyncLog.SwapExact` | log/AsyncLogging.cpp:47-60 | The swap leaves the front end two empty buffers and the backend all the others, in order |
| `AsyncLog.FixedBuffer.Append` | include/FixedBuffer.h:20-25 | The array takes all of the bytes or, where fewer than one more than their number are free, none |
| `AsyncLog.FixedBuffer.Reset` | include/FixedBuffer.h:43-43 | The buffer is empty |
| `AsyncLogging.Logger.Append` | log/AsyncLogging.cpp:20-35 | append makes the append step and keeps conservation |
| `AsyncLogging.Logger.Swap` | log/AsyncLogging.cpp:47-60 | The critical section makes the swap step; the spare it moves from is never null |
| `AsyncLogging.Logger.RecycleBuffers` | log/AsyncLogging.cpp:66-82 | Both spares are refilled without ever taking the last of an empty vector |
| `AsyncLogging.Logger.Round` | log/AsyncLogging.cpp:46-85 | With any lines logged in between, a round leaves in the file exactly what was logged before it |
| `SlotPool.SlotsSafe` | memory/MemoryPool.cpp:18-72 | In all runs of allocate, valid deallocate and writes of any bytes of slots in use, at any alignment: slots in use are disjoint from each other and from free ones, aligned, behind the header and inside their block, and the block list still reaches every block |
| `SlotPool.ContentsKept` | memory/MemoryPool.cpp:25-72 | In all such runs a slot in use that its owner neither frees nor writes stays in use and keeps every word: the lists that run through the blocks never touch it |
| `SlotReuse.FreedIsNext` | memory/MemoryPool.cpp:25-57 | An allocation right after a deallocation gives the slot back and leaves the pool as it was |
| `SlotReuse.AllocateExact` | memory/MemoryPool.cpp:25-72 | The head of the free list is given first, then the next slot of the newest block, then the first aligned slot of a new block |
| `SlotReuse.NoSlotLost` | memory/MemoryPool.cpp:18-72 | In all runs every slot that was given once is in use or free, and a new block is taken if and only if every slot of every block is in use |
| `SlotPool.AllocateKeeps` | memory/MemoryPool.cpp:25-49 | allocate hands out a slot that was not in use and keeps the invariant |
| `SlotPool.DeallocateKeeps` | memory/MemoryPool.cpp:51-57 | deallocate of a slot in use keeps the invariant, the free list running through the slots themselves |
| `SlotPool.BlockHoldsSlot` | memory/MemoryPool.cpp:59-72 | A new block has room for an aligned slot of every one of the 64 sizes, wherever it lies |
| `SlotPool.BucketExact` | include/MemoryPool.h:51-75 | A size has a pool if and only if it is in 1..512; the slot is at least the size and less than 8 bytes larger |
| `SlotPool.MemoryPool.AllocateSlot` | memory/MemoryPool.cpp:25-49 | The method makes the allocate step: free list first, then a new block, then the newest block |
| `SlotPool.MemoryPool.AllocateNewBlock` | memory/MemoryPool.cpp:59-72 | The block goes to the front of the block list and its first aligned slot is next |
| `SlotPool.MemoryPool.DeallocateSlot` | memory/MemoryPool.cpp:51-57 | The slot becomes the head of the free list |
| `SlotPool.MemoryPool.ReleaseAll` | memory/MemoryPool.cpp:6-16 | The destructor's walk releases every block once |
| `HashBucket.ObjectsApart` | include/MemoryPool.h:51-75 | In all runs over the 64 pools in which callers free and write only what they have and new blocks do not overlap: no call lacks a slot, every object lies in an aligned slot that holds it, and no two objects in use overlap, whichever pools they come from |
| `HashBucket.ObjectKept` | include/MemoryPool.h:51-75 | In every legal run over all pools an object that its owner neither frees nor writes stays in use with its size and every word |
| `HashBucket.StepKeeps` | include/MemoryPool.h:51-75 | Every useMemory, freeMemory and write keeps that, the free going to the pool the use came from |
| `HashBucket.RunKeeps` | include/MemoryPool.h:51-75 | Every such run from a state in order succeeds and ends in one |
| `ByteBuffer.Buffer.Append` | include/Buffer.h:72-77 | The readable bytes become the old ones and the new ones |
| `ByteBuffer.Buffer.Retrieve` | include/Buffer.h:40-52 | The readable bytes lose their front, or all where there are not enough |
| `ByteBuffer.Buffer.RetrieveAsString` | include/Buffer.h:58-63 | Gives the front of the readable bytes and leaves the rest |
| `ByteBuffer.Buffer.MakeSpace` | include/Buffer.h:89-103 | Both branches keep the readable bytes and leave enough room; the array grows exactly if the bytes before and behind the readable ones do not suffice |
| `ByteBuffer.Buffer.MoveToFront` | include/Buffer.h:95-102 | The overlapping forward copy keeps the readable bytes |
| `ByteBuffer.Buffer.ReadFd` | src/Buffer.cpp:16-54 | Exactly the bytes read are appended across the two regions, none on error |
| `ByteBuffer.Drive` | include/Buffer.h:40-103 | Any sequence of appends, retrievals and readFd calls hands out what an unbounded byte queue does; readFd delivers a front of what the kernel holds, and all of it up to 66536 bytes |
| `Poller.Drive` | src/EPollPoller.cpp:52-111 | For all sequences of event changes and removals, one channel per descriptor, every epoll_ctl is one the kernel accepts and in the end the kernel watches exactly the added channels with their events |
| `Poller.AddedExact` | src/EPollPoller.cpp:52-86 | A channel is left added if and only if the number of its last event changes to nothing is even and some events were set before them, or odd and not |
| `Poller.WatchedForNothing` | src/EPollPoller.cpp:52-86 | The kernel watches a channel without events exactly where that number is not 0 and has that parity |
| `Poller.EPollPoller.SetEvents` | src/EPollPoller.cpp:52-73 | updateChannel after a change of events keeps index, channels_ and the kernel's set in agreement |
| `Poller.EPollPoller.RemoveChannel` | src/EPollPoller.cpp:75-86 | The channel leaves channels_ and the kernel's set and is new again |
| `Poller.EPollPoller.Update` | src/EPollPoller.cpp:96-111 | One epoll_ctl, legal for the kernel's set, does to it what the operation says |

## Left out

- LfuHeap.LfuCache.Put: requires a node in the list of the cached minimum where it must evict; without one the source follows a null list or erases by a sentinel's key. `LfuReplay.Replay` meets the requirement in every run with maxAverageNum in 2..250, or with more and no more calls than it.
- LfuHeap.LfuCache.KickOut: the same requirement, for the same reason.
- LfuHeap.LfuCache.PutInternal: the same requirement, for the same reason.
- LfuTheorems.MinFreqExactRange: counts accesses without bound; `LfuTheorems.MinFreqExactInInt` is the statement for the source's int.
- LfuTheorems.WrongOutsideRange: for INT_MAX its run is one call longer than the source's int can count.
- LfuTheorems.ShortestWrongRun: likewise for INT_MAX.
- LfuCoherence.IndexCoherent: says nothing of what a run does after kickOut found no node, which is undefined in the source.
- LfuHeap.LfuCache.AddFreqNum: the int counter is unbounded; `LfuTheorems.TotalBoundedByCalls` shows when it cannot overflow, and `LfuTheorems.MinFreqExactInInt` states the range for runs in which it cannot. A negative total is divided as the source's mixed signedness does.
- The LFU's mutex, the base class the header names but does not declare, the value-returning get overload, and HashLfuCache, which only picks a slice by hash.
- The order of the ageing pass over the hash map is a parameter of each call, and the results hold for every order.
- TimerQueue.Queue.HandleRead: realtime and monotonic clock are one clock, the interval is a whole number of microseconds, timer objects are entries of a map from addresses (so that an address can be used again), and callbacks are lists of adds, cancels and waits.
- TimerTheorems.NoLostWakeUp: reading the timerfd and setting it cannot fail; the source logs such errors and goes on.
- HttpContext.Parser.ParseURI: the byte behind the readable ones is a parameter, since the source reads it after a CR at the end of the data.
- HttpContext.Parser.ParseHeaders: the null pointers that log lines and addHeader use after a restart are modelled as a fault, after which nothing is stated.
- HttpStreamCut.HarmlessStreams: excludes a request with a body or with a space in its first field's name that others follow, where deliveries end both behind the CR with a stale LF and inside the empty line; the bytes it leaves can then make up a request, and `HttpStreamCut.TwinsHanded` shows that the equivalence fails there.
- HttpContext.OnMessage: the 400 response and the shutdown on a bad request are the outcome `Bad`; an uncaught exception of std::stoul is the outcome `Crashed`.
- HttpResponse.FramingExact: for status codes that permit a body, lines free of CR and LF, and no Content-Length or Transfer-Encoding among the user's fields; closing responses carry no length and are not read back. The reader trims the spaces of the C locale round a field value.
- TcpOutput.Connection.SendNow: loop thread only; the cross-thread overloads bind raw pointers. sendFile, the reading side, handleError and connectDestroyed's channel removal are not part of this model. Both callbacks are taken to be set.
- TcpOutput.Connection.SendOut: outputBuffer_ is a byte string here; `ByteBuffer` shows the buffer to be one. Counts of callbacks stand for the functors queued.
- FunctorQueue.EveryFunctorRuns: quit() and an exception thrown by a functor are not modelled; the eventfd counter is unbounded.
- EventLoop.Queue.QueueInLoop: threads interleave at locks, writes and callbacks, not at single memory accesses.
- AsyncLogging.Logger.Append: buffers owned through unique_ptr are given by their contents, so moving one pointer to another is a copy of its value; `AsyncLog.FixedBuffer` has the array.
- AsyncLogging.Logger.Round: stop() and the lines the backend leaves behind after it; rolling and flushing of files.
- SlotPool.MemoryPool.AllocateSlot: every call is atomic, the address of a new block is a parameter, and the two mutexes and the memory-exhaustion path are not modelled.
- HashBucket.ObjectsApart: sizes over 512 go to operator new and are not modelled; construction and destruction of elements neither.
- ByteBuffer.Buffer.RetrieveAsString: requires that many readable bytes, since the source copies that many in any case.
- ByteBuffer.Buffer.ReadFd: the kernel's bytes are a parameter; writeFd only hands bytes to the kernel.
- Poller.EPollPoller.Update: errors of epoll_ctl are not modelled, since no call the kernel refuses is made; epoll_wait and event dispatch are left out.
- Sockets, acceptor, threads and thread pools, io_uring, static files, MIME types, log formatting and log files, dates and addresses: easy members or the behaviour of other libraries.
