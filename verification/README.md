# machteld: models and proofs

machteld is a Windows runtime for Tcl tools. This project models the small
deterministic machines inside it and proves what they are for. It needs only
Dafny: `dafny verify dfyconfig.toml` checks it all. Nothing was executed.

## What is modelled

**Worker pool.** `PoolState` is the state of one pool and the small moves on it,
`PoolDirector` the procs as functions on that state, `PoolProcs` the procs
themselves as one object rewriting its dict, each proved against its function.
How spawns and writes turn out is an explicit list of outcomes, so every statement
is for all of them. `PoolProgress` and `PoolMachine` hold the theorems over whole
runs. `Worker` is the other end of the pipe; a handler is an arbitrary function
from arguments to a result, an error, or a completion code that is neither.
`PoolExchange` takes one request across and back, `PoolSystem` puts the
director, its workers and the pipes into one transition system in which anyone
may take the next step, or go in the middle of a reply; `PoolLiveness` bounds how
long such a run can go on and `PoolBlame` says whom it may accuse.

**JSON.** `TclValues` are values with their own representation. `JsonEmit` is the
plain emitter over a growing buffer, `JsonNumber` the number recogniser against the
grammar of RFC 8259, `JsonReader` a reader written from RFC 8259 that stands for the
yyjson reader, `JsonRoundTrip` what the two promise together, `JsonPrefix` why part of
a reply is no reply, `JsonStrict` duplicate detection, the strict walk and typed paths.

**Command lines.** `Argv` is the splitting rule of the C runtime, in both readings of
a doubled quote; `CmdLine` and `BatchLine` are the two printers over `StrBuf`, whose
allocations (`Memory`) may each fail and whose sizes stop at SIZE_MAX.

**Supervised children.** `ChildDone` interleaves the process tree of a job, the I/O
threads, the monitor (one step for each system call it makes) and the interpreter.
`EnvBlock` builds the environment block, `Watch` coalesces directory changes,
`TreeKill` orders a tree kill, `Durations` are the three duration readers.

**Directories.** `DirTree` is the recursive listing a walk should give, `DirWalk` the
explicit-stack walk and its books under failures, `DirTrail` the paths it may come to,
`DirOrder` what the listing is worth, with failures and without, `Utf8` why byte order is
code-point order.

**Publication.** `Publish` is the retry and recovery protocol over a map from names to
files, with system calls that may fail and other processes that may change the names.

`Sorting` says what qsort promises, `Subsequence` what leaving elements out keeps,
`Decimal` what decimal text means.

## Where the code falls short of its own words

- A pool whose workers have all died before `submit` feeds nobody, and `pool wait` can
  only time out: `PoolMachine.BatchMovesIffSomeoneIsAlive` gives the exact condition after
  any run, `PoolMachine.NobodyLeft` a run that comes there.
- `submit` accepts an item with U+0000, which the emitter passes through and no JSON
  reader accepts. For strings of Unicode scalar values `PoolExchange.ExchangeSucceedsIffClean`
  is the exact condition for an item to survive one exchange, `PoolSystem.AcceptedButUnreadable`
  an instance. Such an item is only ever poison (`PoolSystem.EndToEndInOrder`), and but for the
  workers it is sent to, and those that go inside a reply, none is noted for a protocol error
  (`PoolBlame.OnlyTheDeserving`). An item with a lone surrogate
  fares no better, and is outside the model: submit accepts it and the strict UTF-8
  channel refuses the write.
- WorkerAnswer says nothing in it may throw. Dispatching does throw when a handler ends
  with a completion code other than ok or error (`return -code break`), which has no
  -errorcode to read, and when the id or the operation's name is one expr refuses, such as
  NaN. The reply then goes out under the id -1, which the director takes for a protocol
  error: `PoolExchange.StrayIffRaises` is the exact condition on the request and the table of
  operations, `PoolExchange.EscapeIsStray` an instance.
- WorkerDispatch passes the id through expr, which rewrites any number not in canonical
  form: a request with id 007 is answered under 7. `WorkerServe.IdRewritten` says
  exactly when; the pool's own ids are canonical.
- After a write failure inside a readable handler the worker's channel is closed, the next
  `gets` raises, and the pool notes a reply that is not UTF-8 which nobody wrote:
  `PoolProgress.PhantomIffFeedBuries` says exactly when, `PoolProgress.FeedBuriesWhen` what
  that asks of the write, `PoolBlame.PhantomNoted` gives a run.
- A child whose reap ended in an error is waited for without one the second time, and may
  then report ok while a process of its job still runs: `ChildDone.SecondWaitSaysOk`.
  `ChildDone.LaterWaitsForget` is the exact condition, for every run; unless the error was a
  monitor failure, what the later waits say is true.
- `child kill` between the end of a child and its reap changes its status, and is all that
  can: `ChildDone.KillAfterTheEnd`.
- The comment on watch coalescing ranks modified last; the code falls back to the first
  event's own name, so an old name or an unknown event that comes first outranks it
  (`Watch.ModifiedIsOutranked`); `Watch.NameOfLastResort` is the exact condition.
- Renames reported in a burst are misjoined (`Watch.BurstIsNotExact`). An old name is taken
  by a new name if and only if the next rename event after it is a new name
  (`Watch.TakenIffNextIsNew`), and is lost without a trace exactly when another old name
  and a new name follow (`Watch.OldNameFates`).
- The comment in the walk says a directory that has become a junction since the scan is
  caught on the handle. It is if the handle answers: a failed query is not noticed, and the
  walk goes in (`DirWalk.EntersSurrogate`). The last clause of `DirWalk.Walker.Open` is the
  exact condition for that. So a walk with failures may list more than one without:
  `DirOrder.FailuresOnlyLeaveOut` says for which trees it never does.

## Model

| member | source | states |
|---|---|---|
| PoolMachine.PoolSafety | tcl/pool.tcl:172-362 | over every run of a pool, under any mix of submits, replies, malformed replies, ends of file, write failures and spawn failures: each submitted id is in exactly one of pending, inflight and results, once; in-flight keys are live workers; live workers are distinct and at most width; every worker launched is alive or counted dead; a result is poison exactly when its id's tries reached maxtries; the sum of tries is requeued plus poisoned |
| PoolMachine.PoolOrder | tcl/pool.tcl:199-316 | while no launch has failed, in every reachable state: pending is the contiguous ids up to n-1 in order despite head requeues, a nonempty queue means every worker is busy, and dead <= width + n*maxtries |
| PoolMachine.PoolNeverStalls | tcl/pool.tcl:199-326 | in every run whose accepted submits found a live worker, a pool that is not done has an item in flight |
| PoolMachine.BatchMovesIffSomeoneIsAlive | tcl/pool.tcl:199 | the exact condition, after every run of a pool: once a batch is accepted the pool is done or has something in flight if and only if some worker was alive to be fed |
| PoolMachine.NobodyLeft | tcl/pool.tcl:269-298 | a concrete run that leaves a pool which still accepts a batch and has nobody: its one worker ends before anything is queued |
| PoolMachine.WaitGivesEveryReplyInOrder | tcl/pool.tcl:328-362 | a `pool wait` that returns gives exactly n replies, the k-th under id k and taken from the results, and it is poison exactly when item k used up maxtries workers |
| PoolMachine.WaitEnds | tcl/pool.tcl:328-350 | after every run: the wait handles arrivals up to the first after which the pool is done; it ends with the launch failure exactly when a launch has failed by then, and with a timeout, naming how many items are in flight, exactly when after no number of them the pool is done |
| PoolProgress.FeedOrderly | tcl/pool.tcl:203-220 | one PoolFeed, through any chain of write failures, deaths and respawns it sets off, brings a queue with a requeued head back to the tail of the batch with nobody idle but the workers named as still to be fed |
| PoolProgress.DiedOrderly | tcl/pool.tcl:269-298 | the same for PoolDied, including one more worker death charged to one more try |
| PoolProgress.SubmitProgress | tcl/pool.tcl:172-201 | submit's loop over the snapshot of workers keeps the order although workers may die and be replaced inside it; with no worker alive it leaves the pool not done, with nothing in flight |
| PoolProgress.ReadLoopSplits | tcl/pool.tcl:222-264 | one readable handler that finds several lines does exactly what as many handlers finding one line each do, so other processes may step between any two lines |
| PoolProgress.PhantomIffFeedBuries | tcl/pool.tcl:232-259 | a reply nobody wrote is noted if and only if a feed inside the reading loop buries the worker being read; then once, and no live worker is accused |
| PoolProgress.LineTakenOrBlamed | tcl/pool.tcl:244-259 | a nonempty line that is a JSON object with an id and an ok, encodes again and spells the id its worker has in flight is recorded as the reply to that item and accuses nobody; any other has its worker noted for a protocol error and buried |
| PoolProgress.FeedBuriesWhen | tcl/pool.tcl:203-220 | feeding an idle worker buries it exactly when the queue has an item for it whose write, or encoding, fails |
| PoolState.LostKeeps | tcl/pool.tcl:279-316 | a worker's death keeps every safety property, takes one worker away, and with an item in flight takes exactly one from the sum of remaining tries: the measure on which the mutual recursion of PoolFeed and PoolDied ends |
| PoolState.FlownOnce | tcl/pool.tcl:203-212 | by conservation, the id of an item in flight is nowhere else: not queued, not with another worker, not answered |
| PoolState.HandKeeps | tcl/pool.tcl:207-210 | moving the head of the queue to an idle worker keeps every safety property |
| PoolState.TakeKeeps | tcl/pool.tcl:257-258 | recording a reply and freeing its worker keeps every safety property |
| PoolProcs.Director.PoolFeed | tcl/pool.tcl:203-220 | the proc's new pool dict and the outcomes it used are those of the specification; the recursion through PoolDied ends because the tries left fall |
| PoolProcs.Director.PoolDied | tcl/pool.tcl:269-298 | the same for PoolDied, field rewrite by field rewrite, with the spawn that may fail and mark the pool fatal |
| PoolProcs.Director.PoolRequeue | tcl/pool.tcl:300-316 | the proc's rewrites amount to one more try and either the item at the head of the queue or a poison reply |
| PoolProcs.Director.PoolReadable | tcl/pool.tcl:222-264 | the reading loop, its exits (a channel closed by a feed inside the loop included) and the final check for done amount to the specification of the handler |
| PoolProcs.Director.PoolSubmit | tcl/pool.tcl:172-201 | submit refuses a second batch, and an item that is no dict, has no op, holds something typed or is deeper than 512 levels, leaving the pool as it was, and nothing else; otherwise it stamps consecutive ids and feeds every worker there was |
| PoolProcs.Director.PoolWait | tcl/pool.tcl:328-362 | handlers run until one says done or the timer fires; it ends with the launch failure exactly when the pool is fatal, with the timeout exactly when it is not done, and else with the last reply under each id, picked 0, 1, 2 and so on |
| PoolProcs.Director.PoolCreate | tcl/pool.tcl:74-121 | a pool is made exactly when width is 1..256, maxtries at least 1 and every spawn succeeds, and then starts with width workers and nothing queued |
| PoolExchange.ExchangeSucceedsIffClean | tcl/pool.tcl:233-256 | the exact condition for one exchange to be accepted by the director, over strings of Unicode scalar values: the request and the reply hold no U+0000 and dispatching raised nothing; the reply read back then is the worker's, unchanged, and says what came of the request: ok 1 and the result the handler returned on the arguments of its parameters' names, or ok 0 with the code and message it threw, that the operation is unknown or a parameter missing, or that the outcome cannot be sent |
| PoolExchange.StrayIffRaises | tcl/worker.tcl:112-117 | a request the worker can read is answered under id -1 if and only if expr refuses its operation's name, or the operation is in the table, its parameters bind and its handler ends on those values with a code that is neither ok nor error |
| PoolExchange.EscapeIsStray | tcl/worker.tcl:145-181 | an instance: a request for an operation without parameters whose handler escapes |
| PoolExchange.TornIsNoReply | tcl/pool.tcl:246-249 | no proper part of a reply line, the empty one included, is accepted as a reply |
| PoolSystem.EndToEnd | tcl/pool.tcl:203-264 | director and workers together over FIFO pipes, any width, any items, any interleaving, spawns and writes failing, workers crashing between two lines or after part of one: every answer carries its id and says, from the table of operations and the fields of the item of that id alone, what came of it (ok 1 and the handler's result, or ok 0 and its error), and that item is one that survives the wire |
| PoolSystem.EndToEndInOrder | tcl/pool.tcl:353-361 | so the reply `pool wait` returns at place k says what came of item k, item k being clean, or is poison after maxtries deaths; an unclean item is only ever poison |
| PoolSystem.CalmEndToEnd | tcl/pool.tcl:203-264 | without faults, and with batches of items that survive the wire, nobody dies, nothing is noted and every reply says what came of its item: none is poison |
| PoolBlame.OnlyTheDeserving | tcl/pool.tcl:232-256 | in every run, whatever fails, a worker noted for a protocol error went in the middle of a reply or was sent an item that does not survive the wire |
| PoolBlame.CleanBatchAccusesNobody | tcl/pool.tcl:232-256 | so when every item is clean and no worker goes inside a reply, however else they fail, nobody is noted for a protocol error |
| PoolBlame.PhantomNoted | tcl/pool.tcl:232-259 | a concrete run in which a note of a reply nobody wrote is left: two items, one worker, the second write failing in the handler that read the first reply |
| PoolLiveness.NoDeadlock | tcl/pool.tcl:203-264 | in every reachable state, whatever the items and the handlers are, nobody waits on nobody: an item in flight has a worker that can serve it, or a reply, a part of one or an end of pipe the director can read |
| PoolLiveness.EveryRunEnds | tcl/pool.tcl:203-316 | in every run, whatever the items and the handlers are, whatever fails and however it interleaves, at most 2*width + 3*n*(maxtries+1) moves serve a request, take a reply or bury a worker |
| PoolLiveness.StuckIsDone | tcl/pool.tcl:203-350 | a run that can make no such move has nothing in flight, and if each accepted submit found a live worker it is done: `pool wait` reports the launch failure if a launch failed, and otherwise returns the replies |
| PoolSystem.AcceptedItemIsRequest | tcl/pool.tcl:181-191 | whatever submit accepts still encodes, and is well formed, once the id is stamped, every other field as it was, so of an item of Unicode scalar values PoolFeed never fails for its encoding |
| PoolSystem.AcceptedButUnreadable | tcl/pool.tcl:187-189 | a concrete item with U+0000 that submit accepts and no exchange can succeed on |
| WorkerServe.AnswerIsOneLine | tcl/worker.tcl:108-129 | every request line gets one nonempty reply line without a newline in it, whatever the handler did |
| WorkerServe.AnswerEncodes | tcl/worker.tcl:120-126 | the fallback envelope is itself never refused by the encoder |
| WorkerServe.PerformEchoesId | tcl/worker.tcl:145-181 | every reply to a request that is an object carries the request's id (-1 when it had none) as expr leaves it, unchanged when it is a decimal numeral in canonical form, as the pool's are; and an ok field |
| WorkerServe.AnswerTells | tcl/worker.tcl:145-181 | from the table and the request's fields alone: a returned result gives exactly id, ok 1 and that result; an error thrown gives id, ok 0, its code and message; an unknown operation and a missing parameter give ok 0 with MACHTELD WORKER notfound and usage and a message naming it; only a handler that escapes gives no reply |
| WorkerServe.ReplyTells | tcl/worker.tcl:108-129 | on the wire the reply says so when what came is untyped and leaves room for one more level under 512, and otherwise ok 0 with MACHTELD WORKER failed and no result |
| WorkerServe.DispatchTells | tcl/worker.tcl:131-144 | a line that is no JSON, or no object, is refused under id -1 with MACHTELD WORKER parse, each with its own message; any other is dispatched |
| WorkerServe.BindFailsByName | tcl/worker.tcl:155-173 | binding fails exactly when some parameter has neither a request field nor a default and is not the catch-all, and reports the first such |
| WorkerServe.BindIsByName | tcl/worker.tcl:163-173 | otherwise the arguments are, in parameter order, the request's field of each parameter's name, or its default; an absent catch-all takes none |
| WorkerServe.ServeSplits | tcl/worker.tcl:98-101 | serving two stretches of input is serving one after the other: replies come in request order |
| WorkerServe.ServeCounts | tcl/worker.tcl:98-101 | one reply for each nonempty line, the k-th answering the k-th |
| WorkerServe.Server.WorkerDispatch | tcl/worker.tcl:131-182 | the proc, exits, expr conversions and binding loop included, computes the specified reply or raises as specified |
| WorkerServe.Server.WorkerAnswer | tcl/worker.tcl:108-129 | the proc computes the specified line: the reply, or the envelope when the reply does not encode |
| WorkerServe.Server.Run | tcl/worker.tcl:96-103 | the serve loop over stdin writes the answers of its nonempty lines |
| JsonRoundTrip.PlainRoundTrip | src/json.c:485-605 | for every untyped tree within 512 levels the emitted text decodes to the same tree if and only if no key or scalar holds U+0000, and otherwise is refused as invalid |
| JsonRoundTrip.EncodedIsOneLine | src/json.c:485-508 | plain encoded text is nonempty and has no newline, so it frames itself as a line |
| JsonRoundTrip.ScalarSpelling | src/json.c:598-604 | a scalar is written bare exactly when it is a number of the grammar and then reads back as that literal, otherwise as a string of the same text |
| JsonRoundTrip.AcceptedTextHasNoNul | src/json.c:485-508 | no text the reader of RFC 8259 accepts contains U+0000, which is what the emitter passes through |
| JsonPrefix.NoPrefixReads | src/json.c:485-605 | no proper prefix of the text of an encoded dict is a JSON text, whether or not the whole of it is one |
| JsonNumber.IsNumberLiteral | src/json.c:463-483 | the recogniser's one greedy pass accepts exactly the number grammar of section 6 of RFC 8259 |
| JsonNumber.ScanIsGrammar | src/json.c:463-483 | the greedy scan covers the whole text exactly when some split into minus, int, frac and exp exists |
| JsonNumber.ScanStopsAtNumber | src/json.c:463-483 | in front of a separator the scan stops at the end of the number, whatever follows |
| JsonNumber.NumeralIsNumber | src/json.c:463-483 | the decimal text of an integer, such as an id, is a number of the grammar |
| JsonEmit.RefusedIffTypedOrDeep | src/json.c:567-597 | plain encoding is refused exactly when a typed value or more than 512 levels occur somewhere |
| JsonEmit.EncodePlain | src/json.c:915-948 | returns the text exactly when nothing is typed or too deep |
| JsonEmit.DString.Quote | src/json.c:485-508 | appends the quoted, escaped form and nothing else to the buffer |
| JsonEmit.DString.Emit | src/json.c:567-605 | appends the value's text, or answers with the first refusal in emission order |
| JsonStrict.HasDuplicate | src/json.c:377-424 | pairwise up to 16 members, sort and adjacent scan above: accepts exactly when all keys differ, names a repeated key otherwise, and fails for memory only above 16 |
| JsonStrict.CheckStrict | src/json.c:426-455 | the strict walk sets exactly one cause: accepted means no object at any level repeats a key and the depth stays under the cap; each refusal names a true one |
| JsonStrict.DecodeStrict | src/json.c:426-455 | with memory available, acceptance if and only if no repeats and within 512 levels |
| JsonStrict.RepeatSurvivesRearranging | src/json.c:398-422 | two equal keys stay two equal keys through any sort, so the adjacent scan misses none |
| JsonStrict.YyWithinCap | src/json.c:73-124 | yy_to_tcl on a document without repeats gives every member in order exactly when within the cap |
| JsonStrict.GetPath | src/json.c:874-911 | the typed path walk steps through a document, parsed or built, one key or index at a time, to the specified node or failure |
| JsonStrict.GetThenUnwrapIsLookup | src/json.c:874-911 | on strict documents, unwrapping what a typed path finds equals looking the path up in the unwrapped value |
| CmdLine.LineRoundTrip | src/winjob_cmdline.c:88-159 | for every argument list, splitting the joined line by the 2n and 2n+1 backslash rules gives the list back, empty arguments, quotes and trailing backslash runs included, in both dialects of the doubled-quote rule |
| CmdLine.EscapeReadsBack | src/winjob_cmdline.c:88-139 | one escaped argument, whatever follows it, reads back as itself and leaves the rest |
| CmdLine.EscapedOnlyIfNeeded | src/winjob_cmdline.c:88-107 | an argument is left as it is exactly when it is nonempty and has no space, tab or quote in it |
| CmdLine.EscapeArg | src/winjob_cmdline.c:88-139 | the two passes build exactly the escaped argument, or fail only for lack of memory or size |
| CmdLine.MakeCmdline | src/winjob_cmdline.c:141-159 | the buffer holds exactly the escaped arguments joined by single spaces, or the call failed for lack of memory or size |
| BatchLine.PayloadRoundTrip | src/winjob_cmdline.c:206-334 | for every accepted script and argument list, undoing the percent form and splitting with doubled quotes gives the script and the arguments back exactly |
| BatchLine.PayloadParity | src/winjob_cmdline.c:206-273 | every payload character that an even number of quotes precedes is a separator, a quote, alphanumeric, non-ASCII or in the unquoted set |
| BatchLine.PayloadIsInert | src/winjob_cmdline.c:192-241 | so for every accepted script and argument list no character cmd sees outside quotes is one of & | < > ^ ( ) ! % , ; = or a control character |
| BatchLine.PayloadIsDefused | src/winjob_cmdline.c:192-213 | inside quotes or out, every % of a payload belongs to a %%cd:~,% read from the left, so none of the text's own stands alone |
| BatchLine.PrintedAsItIs | src/winjob_cmdline.c:216-273 | an argument is printed as it is, without quotes, exactly when it is nonempty, does not end in a backslash and is all letters, digits, characters beyond ASCII and # $ * + - . / : ? @ backslash _ |
| BatchLine.UndoPayload | src/winjob_cmdline.c:206-218 | undoing the percent neutralisation alone gives the payload without it, word for word |
| BatchLine.MakeBatchCmdline | src/winjob_cmdline.c:279-334 | a script with a quote, a line break or a final backslash is refused, exactly; an accepted call builds cmd.exe /e:ON /v:OFF /d /c and the payload in quotes; memory errors only for lack of memory or size |
| Durations.Agree | src/proc.c:42-61 | for every text, _dur2ms accepts exactly what parse_duration_ms puts in 0..4294967294 and http_duration exactly what it puts in 1..INT_MAX, with one value in all three |
| Durations.ParseDurationMs | src/proc.c:42-61 | digits and a unit give the milliseconds when they fit in a long long, otherwise -1; no accumulation step wraps |
| Durations.UnitsMean | src/proc.c:53-57 | after digits, ms is their value, s 1000 times it, m 60000 times and h 3600000 times, and no other unit is taken |
| Durations.HttpU64 | src/http.c:129-141 | the digits' value and where they end, exactly when the value fits in unsigned long long, without a wrapping step |
| Durations.HttpDuration | src/http.c:143-162 | accepts exactly the durations of 1..INT_MAX milliseconds |
| Durations.Dur2ms | tcl/machteld.tcl:151-166 | accepts exactly the durations of at most 4294967294 milliseconds |
| Durations.TextOrderIsNumeric | tcl/machteld.tcl:158-163 | comparing length, then text, of decimals without leading zeros is comparing their values |
| Decimal.NumeralInjective | tcl/pool.tcl:190 | different ids have different decimal texts |
| TreeKill.KillTree | src/ps.c:273-353 | pids 0 and 4 are denied; otherwise the target's descendants, found by parent links, are attempted each once, deepest first and by pid within a depth, then the target; killed and failed are what became of each attempt |
| TreeKill.Relax | src/ps.c:309-326 | the in-place passes reach a fixpoint although limited to n, and every depth they set is the length of a chain of parent links |
| TreeKill.FixedIsComplete | src/ps.c:309-326 | at the fixpoint every process whose parent links lead to the target without pids 0 or 4 has a depth |
| TreeKill.ChainUnique | src/ps.c:309-326 | with distinct pids a process has one distance from the target, so the depth does not depend on enumeration order |
| TreeKill.ChildBeforeParent | src/ps.c:163-168 | in such an order every descendant is attempted before its parent |
| TreeKill.EachAttemptOnce | src/ps.c:327-352 | each attempted pid is in exactly one of killed and failed, once, according to its outcome |
| TreeKill.FailuresSayWhy | src/ps.c:327-352 | each pid listed as failed was attempted and is listed with the error of its own attempt |
| Watch.Coalesce | src/proc.c:2424-2459 | the two in-place loops yield the records of the batch's surviving events, each ranked and with the from that the events of the batch give it, as RecordsRank says |
| Watch.RecordsAreTheBatch | src/proc.c:2436-2458 | one record for each surviving path, in order of first appearance; its action is removed over added over renamed over the first event's own, from all events of the path wherever they stand, and its from is the last joined one |
| Watch.RecordsRank | src/proc.c:2436-2458 | over the events of the batch: a record says removed if and only if its path has a removal, added if and only if it has none and an addition, renamed if and only if it has neither and a new name, and otherwise modified, renamed-old or unknown, by the kind of the first event no later new name consumed; from is the old name taken by the last new name of the path that took one, and missing when none did |
| Watch.JoinRenames | src/proc.c:2426-2435 | an old name is consumed exactly when a new name follows it, and a new name takes the last old name since the new name before it |
| Watch.TakenIsOldBefore | src/proc.c:2426-2435 | what the loop leaves in `from` is what looking back from the new name finds |
| Watch.TakenIffNextIsNew | src/proc.c:2426-2435 | the exact condition: an old name is taken by a new name if and only if the next rename event after it is a new name, and that is the one |
| Watch.PairingIsExactIff | src/proc.c:2426-2435 | every old name of a batch is taken exactly when after each the next rename event is a new name |
| Watch.OldNameFates | src/proc.c:2426-2435 | an old name is consumed although nobody takes it exactly when another old name comes next and a new name follows |
| Watch.AdjacentRenamesAreExact | src/proc.c:2426-2435 | in particular when each old name is directly followed by its new name every pair is joined, no old name is left, and from is that of the last rename onto the path |
| Watch.BurstIsNotExact | src/proc.c:2426-2435 | an instance that does not pair up: two renames reported as old, old, new, new are not told apart |
| Watch.NameOfLastResort | src/proc.c:2455-2456 | a record is named other than removed, added, renamed or modified exactly when the batch has no removal, addition or new name of its path and the first surviving event of it is an old name or of an unknown kind |
| Watch.ModifiedIsOutranked | src/proc.c:2455-2456 | an instance: old name, then modified, is reported as renamed-old |
| EnvBlock.BuildEnvBlock | src/proc.c:359-526 | a block built is the one of the stably sorted wanted entries, fits the buffer, and is read by the child as ChildReads says; when no system call fails, it is built if and only if the overrides are pairs with valid keys, no two equal up to case, values without NUL, and the block fits |
| EnvBlock.EnvironmentReadsBack | src/proc.c:359-526 | splitting the block at NULs gives the inherited entries no override names and one NAME=VALUE an override, in name order with equal names as they stood, and it closes with two NULs |
| EnvBlock.ChildReads | src/proc.c:359-526 | string for string: split at NULs, the block holds exactly once the key, an equals sign and the value of each pair, as many times as it is inherited every other string whose name equals no key up to case, and nothing else, ordered by the names cut at the first '=' after the first unit |
| EnvBlock.StableSortSorts | src/proc.c:481-501 | the insertion sort's result is a rearrangement in name order that keeps the order within every name |
| EnvBlock.SortItems | src/proc.c:481-501 | the in-place loops compute that sort, or stop at a comparison that fails |
| EnvBlock.Emit | src/proc.c:502-516 | writes the block exactly when it fits, never past the capacity, the empty environment included |
| EnvBlock.BlockReadsBack | src/proc.c:502-516 | splitting at NULs up to the empty string gives back the texts of the entries |
| EnvBlock.EnvNameLen | src/proc.c:344-348 | the name ends at the first '=' after the first character, or at the end of the entry, so =C: is a name |
| EnvBlock.KeptIs | src/proc.c:409-445 | an inherited entry is kept exactly when no override's key equals its name up to case |
| ChildDone.DoneIsComplete | src/proc.c:677-731 | in every interleaving of process births and exits, I/O threads, deadline, kill and monitor: once doneEv is set the owned threads have ended, a timeout was a kill, and without monitor_failed the recorded exit is the direct process's and the job is empty |
| ChildDone.CleanWaitIsTheTruth | src/proc.c:966-999 | if the wait that reaped returned without error, then in every run all waits return one and the same result, with the true exit code of a tree that is gone and every reader ended |
| ChildDone.StatusIsTheStory | src/proc.c:1001-1018 | over every run whose first wait returned without error: the status is timeout if and only if the monitor killed the job for its deadline, which it does only on a look at the clock after it; otherwise killed if and only if a `child kill` went through; otherwise ok if the direct process ended with 0 and error if with another code; out and err are the text their readers took in, in order |
| ChildDone.ReapSays | src/proc.c:972-999 | in every run the wait that reaps answers with the result exactly when all threads were joined, the monitor did not fail, no reader failed and the writer failed only on a killed child; otherwise with the error of the first of these that does not hold |
| ChildDone.LaterWaitsForget | src/proc.c:1368-1377 | in every run each wait on a reaped child returns a result; it repeats the first answer if and only if that was no error; and unless the monitor failed it is the true exit of a tree that is gone, with every thread ended |
| ChildDone.SecondWaitSaysOk | src/proc.c:988-991 | a concrete run: the first wait fails with a monitor failure and the second says ok of a job with a process still in it |
| ChildDone.ReapedIsFinal | src/proc.c:966-1024 | after a reap no step of the job, the threads, the monitor or `child kill` changes the result |
| ChildDone.DoneStep | src/proc.c:1379-1394 | what one step after doneEv can still touch: the killed mark until the reap, what is left of a tree the monitor failed on, and nothing else |
| ChildDone.ActInv | src/proc.c:677-731 | every step keeps the invariant that the monitor's samples, taken at different instants, still hold |
| ChildDone.GoneIsNoticed | src/proc.c:681-729 | once the tree is gone and the threads have ended, fourteen monitor steps set doneEv: from wherever it is in its loop, whatever runs between them, with the deadline passing or not and any call failing but the exit code's query |
| ChildDone.KillAfterTheEnd | src/proc.c:1389-1392 | over runs: after doneEv the result changes if and only if a `child kill` goes through while the child is not marked killed, and then only its status, to killed |
| DirWalk.Walker.Walk | src/dirs.c:708-906 | whatever fails, 1 + enumerated subdirectories = visits + rows for bad names, lost children and dropped pushes; failed visits = rows for failed opens and reads; descended visits = enumerations begun; one row for each that broke off; each visit is what the guards in their order make of its directory (or failed past them), only children of descended directories are visited, and every counter and link row agrees with the visits; whatever fails, the paths listed are, in order and with some left out, those of a walk whose handles never answer what they are on (`DirTrail.Reach`); when nothing fails the explicit-stack walk visits exactly the recursive pre-order listing |
| DirWalk.Walker.Judge | src/dirs.c:750-849 | a directory fails exactly when it leaves one row for a failed open or read; otherwise its action and tag are those of the first guard in order that applies, and with no failing call those of its fate; only a directory descended into has children |
| DirWalk.Walker.Open | src/dirs.c:786-840 | a directory is entered exactly when its open succeeds and, below the root, the handle does not answer, or is on no reparse point, or on one that is no name and opens again; otherwise it failed, with its row, or is not followed |
| DirWalk.EntersSurrogate | src/dirs.c:777-812 | the input that shows it: a surrogate the scan did not show and whose handle query fails is entered |
| DirWalk.Walker.Children | src/dirs.c:474-696 | a row for the directory exactly when it could not be read, one when the enumeration broke off, and one for each subdirectory lost on the way; without faults exactly the named subdirectories in code-point order |
| DirWalk.Walker.Push | src/dirs.c:849-875 | every kid is pushed or has its row, and pushing in reverse makes them come off ascending before what was there |
| DirWalk.SiblingsUnique | src/dirs.c:692 | names being different, the sort has one outcome whatever order the system enumerated |
| DirOrder.ListingIgnoresOrder | src/dirs.c:692-906 | the listing is the same for every order in which the system enumerates any directory of the tree |
| DirOrder.ListingOnce | src/dirs.c:708-906 | no directory is listed twice, drive roots and shares included |
| DirOrder.ListedOnce | src/dirs.c:708-906 | nor by a walk in which calls fail: no list that is `DirTrail.Reach` with some paths left out, as `DirWalk.Walker.Walk` promises its own to be, names a directory twice |
| DirOrder.FailuresOnlyLeaveOut | src/dirs.c:777-812 | the exact condition for a walk with failures to list nothing but the fault-free listing with some paths left out: wherever it may come, only directories without subdirectories to list are turned away by their handle alone |
| DirOrder.SettledReach | src/dirs.c:777-812 | where that holds, what may be come to is the fault-free listing itself, and where it does not there is more of it |
| DirOrder.ListingWithinCap | src/dirs.c:763-767 | nothing deeper than the cap is listed, and depthlimited is said exactly of what stands at it |
| DirOrder.WholeTreeIsListed | src/dirs.c:763-790 | with no cap and nothing to cut every directory of the tree is listed |
| DirOrder.ListedCount | src/dirs.c:763-790 | then there are exactly as many visits as directories |
| DirOrder.OnlyTheTree | src/dirs.c:708-906 | and whatever is cut, nothing is listed but directories of the tree, each under its own path |
| DirOrder.ListedExplains | src/dirs.c:763-840 | each listed visit says what its directory is: depthlimited exactly at the cap, else pruned exactly when a pattern took its name, else not followed exactly when, below the root, the scan's or the handle's tag has bit 0x20000000 or is 0x8000000A or 0x80000012, else descended; its tag is the handle's where there was one to ask, and the scan's otherwise |
| DirOrder.KidIs | src/dirs.c:849-875 | a subdirectory is one level deeper, carries the scan's tag, is pruned as the patterns say of its name, and its path is its parent's joined with its name |
| DirOrder.ChildPath | src/dirs.c:174-210 | joining a name under the prefix and stripping for display gives the parent's display path, one slash and the name |
| DirOrder.ShownPath | src/dirs.c:184-205 | a displayed path is, character for character, the path without its prefix, each backslash a slash; a share's starts with two slashes in place of the eight characters of its prefix |
| Utf8.ByteOrderIsCodePointOrder | src/dirs.c:210-231 | UTF-8 byte order is code-point order for all strings, as section 1 of RFC 3629 says |
| Utf8.NameCmp | src/dirs.c:223-231 | dirs_namecmp answers in code-point order, zero only for equal names |
| Sorting.SortedIsUnique | src/dirs.c:692 | a sorted rearrangement without ties is unique, so qsort's freedom never shows |
| Publish.FileSystem.PublishFile | src/publish.c:543-725 | with no other process at the names: success moved the candidate to the destination, every failure leaves the candidate and every other file where they were, the old file at the destination or under the backup name the error reports; if at most one system call fails, ReplaceFileW included, and what the system tells of a file's identity, be it one form, both or none, does not vary, a failure leaves every name exactly as it was and reports no backup, and success leaves exactly the published names, save that the old file may outstay it under a free name; under any interference deletes by handle take only markers of this call or, once published, a file seen at the destination; and with no failing call, one form of identity being told, a publishable pair is published with nothing left over |
| Publish.FileSystem.Recover | src/publish.c:487-540 | answers zero only if the destination names the old file, gives the marker back or moves the old file home or leaves all as it was, and from every documented failure state, when its calls succeed, answers zero with the names as before the attempt |
| Publish.FileSystem.DeleteIdentity | src/publish.c:455-472 | deletes what the path names only if it is the expected file |
| Publish.FileSystem.TryReplace | src/publish.c:629-714 | one attempt at an existing destination leaves either the replacement, the old names, or the old file set aside under the reported backup; after a single failing call only the first two |
| Publish.Retained | src/publish.c:699-714 | after a failed replacement and any recovery the old file is named by destination or backup, and by the destination when recovery answered zero |

## Left out

- ChildDone.DoneIsComplete: the 5 ms polling and the clock are not modelled; whether the deadline has passed is a free choice at each look.
- ChildDone.LaterWaitsForget: a wait whose own -timeout passes, or whose wait on doneEv itself fails, changes nothing and is not modelled.
- ChildDone.CleanWaitIsTheTruth: `run` with callbacks, which pumps the pipes on the interpreter thread, is not modelled; it owns no reader thread.
- CmdLine.EscapeArg: the backslash counters are unbounded here; the code's are 32-bit and would wrap on runs of over two thousand million backslashes.
- BatchLine.MakeBatchCmdline: the same holds for its counters; which arguments are a bad argument is stated one way, because memory can run out first; what cmd.exe does with the neutral percent form is not modelled.
- DirWalk.Walker.Walk: the links mode, with file link counts and reparse payloads, and the parsing of the enumeration buffer's records are not modelled; children come as a sequence that may be cut short anywhere.
- DirOrder.ListingOnce: for names that are one path component.
- EnvBlock.BuildEnvBlock: says when it refuses, not which of its messages it gives; the ignore-case order is an abstract total preorder that may also fail.
- JsonStrict.GetPath: JsonStep has one half for parsed and one for built documents, in the same branches; the model has one, taking yyjson's two interfaces to find the same member and element. GetThenUnwrapIsLookup is for parsed documents.
- JsonRoundTrip.PlainRoundTrip: strings are sequences of Unicode scalar values; lone surrogates, which Tcl can hold, are not modelled, and the escaper acts on characters instead of UTF-8 bytes, of which it changes only ASCII.
- PoolSystem.AcceptedItemIsRequest: strings are sequences of Unicode scalar values; a lone surrogate, which submit accepts and the strict UTF-8 channel refuses to write, cannot be expressed.
- PoolSystem.EndToEnd: what a worker that goes inside a reply leaves is a number of characters; a part that ends inside the bytes of one, which `gets` refuses, is not modelled. Items, and the results of handlers on them, are well-formed Tcl values: dicts without repeated keys.
- PoolProcs.Director.PoolReadable: the capped stderr tail is not kept; of the protocol notes in it, which worker each was made for is, and how many name a reply nobody wrote.
- PoolProcs.Director.PoolCreate: options are taken as already read; launch options are passed to the launcher and never looked at.
- Publish.FileSystem.PublishFile: a file's 64-bit index is taken to name it alone on its volume; path normalisation, message texts and clearing the read-only attribute beyond its failure are not modelled; a destination spelled as the candidate itself is covered if the system tells the same identities each time.
- Sorting.SortedIsUnique: qsort is any sorted rearrangement of its input.
- TreeKill.KillTree: growth of the process table and its allocation failures, and the probing inside ps_kill_one, are not modelled; pids in a snapshot are taken to be distinct.
- Watch.Coalesce: the queue cap, the overflow record and the -raw form are not modelled; nor is the thread that fills the queue, nor the tests for a null path, which that thread never queues.
- WorkerServe.Server.WorkerDispatch: the string form Tcl gives a dict or list used as an operation name, and what expr makes of an operand that is no canonical whole number, are arbitrary functions; defining handlers as procs in the caller's namespace is not modelled.
- Object representation switching: a value's representation is taken as given, so items must arrive as dicts and lists.
- yyjson, Tcl's own parser, dict, list and glob matcher, Win32, CNG, WinHTTP, ConPTY and SQLite calls: datatypes, a specification reader, an abstract match predicate and outcomes chosen freely.
- `pool info`, `pool close`, `worker on` and `worker ops`: table-keeping, reports and clean-up.
- Hosts, entry gate, wrap staging, the documentation corpus, `cli`, `log`, `pmap`, hashing, the store and text conversion: plumbing that would add only easy members.
