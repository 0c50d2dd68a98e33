# Cloudarr in Dafny: the download engine and the bookkeeping around it

This project models the parts of Cloudarr where several goroutines, a stream of
arbitrary chunks or two copies of the same data have to agree, and proves what
they promise. Each module follows one source file or one part of it.

**The NNTP client** (`internal/nntp/client.go`, `internal/retry/retry.go`).
`ConnStack` is the slice of idle connections with its in-place reaper.
`PoolProtocol` interleaves any number of goroutines over one provider pool, one
event per channel operation, critical section, dial or health check. `Race` does
the same for `raceForConnection`: a goroutine per provider, the closer, the
receiver loop and the drainer. `Failover` is `ExecuteWithFailover` as one goroutine
runs it, with a ghost ledger of the slots it takes and gives; its races are the
complete runs of `Race`, and its retry loop is shown to be `Retry.Do`. `SwapProtocol`
puts several pools side by side and lets goroutines wait for a slot of one while they
hold a slot of another. `Errors` holds the error classes and `Retry` the loop and its
waits.

**Jobs and downloads.** `JobQueue` and `JobQueueProtocol` are the condition-variable
queue of `pkg/manager/jobqueue.go`. `Download` is the out-of-order fetch and in-order
write of `pkg/usenet/download.go`. `Multipart` cuts a large file into byte ranges.

**Streams.** `Cbc` and `DecryptReader` show that the decrypting reader is CBC
decryption of the whole source. `Yenc` shows that the decoder's `Read` is a
line-by-line decoding of the whole article, and `Posting` that decoding undoes yEnc
encoding and dot-stuffing. The encoder, not part of the program itself, follows the
encoding principle of the yEnc 1.3 draft and allows any legal choice of escapes and
line lengths; the encoder of `internal/nntp/yenc/decoder_test.go` makes one such choice.

**Availability and bookkeeping.** `BatchStat` and `Sampling` decide whether a file is
missing segments. `NzbStorage` keeps cached counters beside a directory. `Placements`,
`Reconcile` and `Refresh` bring stored entries in line with a provider's listing, and
`Merge` joins two records of one entry.

Concurrency is modelled by events: `Fire` gives the successor of a state under one
atomic step, `Runs.Run` folds it over a sequence, and theorems hold in every state that
some run reaches. Dials, health checks, the NNTP operation, clocks, the context, file system
calls and the io.Writer answer arbitrarily at each point where the code asks them.

## Where the code does less than it seems to

Six properties one would expect do not hold of the code as it stands. Each has a
lemma with a concrete case, and a lemma or contract with the exact condition.

- *A cancelled race can lose a slot.* When a winner has been chosen and the loop then
  takes the parent-context case, that winner's slot is never given back
  (`Race.StrandingRun`). It is one slot, and it happens in no other run
  (`Race.StrandedIff`). `ExecuteWithFailover` is slot-neutral but for that case: it leaves
  one slot behind if and only if the last race of the call ended so.
- *Failing over can get stuck.* After a retriable error a goroutine takes a slot of any
  provider and keeps it while it waits for one of the provider it prefers. Two goroutines
  can hold what the other waits for (`SwapProtocol.TwoSwapAndStick`), and then nothing but
  the end of a context moves them, whoever else comes (`SwapProtocol.StuckForGood`).
  It can happen if and only if there are two providers, whatever number of connections
  they allow (`SwapProtocol.CanStickIff`); `SwapProtocol.StuckIff` says exactly which states
  are stuck, and none is as long as nobody waits in that way
  (`SwapProtocol.GoesOnWithoutSwaps`).
- *The idle stack need not be ordered by age.* `put` reads the clock before it takes the
  lock, so the reaper can stop early and leave an expired connection
  (`PoolProtocol.LateLockBreaksAge`). Over any run the stack stays ordered if and only if
  every push carries a stamp no older than the top it finds (`PoolProtocol.OrderedIff`),
  and the reaper is exact at every moment if and only if the stack is ordered
  (`ConnStack.ReapAlwaysExactIff`).
- *The NZB counters can be wrong.* Deleting an id whose metadata path is an empty
  directory decrements them (`NzbStorage.DirectoryBreaksTheCount`). They stay exact
  if and only if what is added or deleted is something the scan counts, or nothing
  changes (`NzbStorage.AddExactIff`, `NzbStorage.DeleteExactIff`).
- *A stale placement can survive a refresh.* `RemoveProvider` compares the placement's
  own provider field while the refresh looks placements up by key
  (`Refresh.MisfiledPlacementStays`). Stale placements are gone if and only if each one
  names the provider it is filed under (`Refresh.StaleIsGoneIff`).
- *The active provider can dangle after a removal* (`Reconcile.RemovalCanDangle`). When
  placements are keyed by name, it does exactly when it was the one removed and no
  completed placement is left (`Reconcile.ActiveDanglesIff`). For placements filed
  anyhow, an active provider other than the one removed loses its placement exactly when
  that placement names the one removed (`Reconcile.OtherActiveDanglesIff`), and
  `Reconcile.RemovedActiveMayDangleIff` says exactly when removing the active one can
  leave it without a placement, as the order in which the map is visited may decide.

## Model

| member | source | states |
|---|---|---|
| Errors.CodesThatGoOn | internal/nntp/errors.go:142-164 | exactly which response codes are tried again on a new connection, which move to the next provider, and which end the operation |
| Errors.CodesThatEnd | internal/nntp/errors.go:142-164 | which codes carry each of the classes that end the operation |
| Retry.Do | internal/retry/retry.go:121-196 | the loop goes on through attempts that may be repeated and stops at the first that decides the result; fn runs at most the configured number of attempts, or once, and each wait is the next of the delay sequence |
| Retry.BackOffWaits | internal/retry/retry.go:176-181 | under backoff with d at most maxDelay the k-th wait is min(d·2^k, maxDelay) |
| Retry.UncappedWaits | internal/retry/retry.go:176-177 | under backoff without a cap the k-th wait is d·2^k |
| Retry.CappedWaits | internal/retry/retry.go:178-180 | a first delay above the cap is cut to it from the second wait on |
| Retry.FixedWaits | internal/retry/retry.go:182-184 | a fixed delay stays, or is cut to the cap from the second wait on |
| ConnStack.ReapedIsSuffix | internal/nntp/client.go:747-758 | what stays is a suffix, everything removed had expired, and the new bottom has not |
| ConnStack.ReapExactIff | internal/nntp/client.go:742-774 | the early stop removes exactly the expired entries if and only if no live entry lies below an expired one |
| ConnStack.ReapExactByAge | internal/nntp/client.go:742-774 | on a stack ordered by age the reaper deletes exactly the expired connections and keeps the order |
| ConnStack.ReapAlwaysExactIff | internal/nntp/client.go:742-774 | the reaper deletes exactly the expired connections at every moment if and only if the stack is ordered by age |
| ConnStack.PushByAgeIff | internal/nntp/client.go:207-222 | a push keeps the age order exactly when its stamp is not older than the top |
| ConnStack.Stack.Push | internal/nntp/client.go:213-222 | pushes on top, or refuses and changes nothing when the stack is full |
| ConnStack.Stack.Pop | internal/nntp/client.go:598-606 | takes the newest entry, or reports an empty stack |
| ConnStack.Stack.Reap | internal/nntp/client.go:747-770 | the in-place shift leaves Reaped of the old contents; everything closed was idle longer than the timeout, and the new bottom was not or has no time |
| ConnStack.Stack.RemoveFront | internal/nntp/client.go:760-770 | drops a prefix in place and clears the slots behind the rest |
| PoolProtocol.FireKeepsInv | internal/nntp/client.go:181-236 | every atomic step of acquire, dial, put, release, reap and close keeps the pool invariant |
| PoolProtocol.ReachableInv | internal/nntp/client.go:596-634 | the pool invariant holds after every interleaving |
| PoolProtocol.PoolBound | internal/nntp/client.go:434-467 | idle connections plus those held or being dialled never exceed the provider's maximum, and slots taken are goroutines inside the protocol |
| PoolProtocol.CapUnreachable | internal/nntp/client.go:214-220 | the branch of put that finds the stack full is never taken |
| PoolProtocol.ConnectionsAreExclusive | internal/nntp/client.go:596-634 | no connection is used by two goroutines, or used while on the stack |
| PoolProtocol.NoConnectionLost | internal/nntp/client.go:181-236 | every connection ever dialled is on the stack, checked out or closed, and a closed one is never on the stack or in use again |
| PoolProtocol.NobodyWaits | internal/nntp/client.go:596-634 | a goroutine that has a slot can always take a step of its own, until it has freed the slot |
| PoolProtocol.FreeNeverBlocks | internal/nntp/client.go:224 | receiving from the semaphore to free a slot never blocks |
| PoolProtocol.NoSlotLeaks | internal/nntp/client.go:181-236 | the semaphore is empty if and only if every goroutine has left the protocol |
| PoolProtocol.ReusedIsFresh | internal/nntp/client.go:608-618 | a pooled connection is handed out only within the idle timeout of its last use |
| PoolProtocol.IdleStays | internal/nntp/client.go:596-634 | in an open pool an idle connection stays on the stack until a goroutine takes it or it has expired |
| PoolProtocol.ClosedOnlyDrains | internal/nntp/client.go:201-222 | after Close, what is or can still get on the stack never grows |
| PoolProtocol.ClosedStaysEmpty | internal/nntp/client.go:201-222 | closed, cleared and with nobody in put, the pool never keeps an idle connection again |
| PoolProtocol.CloseLeavesNothing | internal/nntp/client.go:1022-1036 | a Close that finds nobody in put leaves no idle connection, whatever follows |
| PoolProtocol.OrderAfter | internal/nntp/client.go:207-222 | one step keeps the stack ordered by age unless it is a push, and then exactly when that push is in order |
| PoolProtocol.OrderedIff | internal/nntp/client.go:207-222 | over any run the stack is ordered in every state if and only if every push finds an empty stack or a top no newer than its stamp |
| PoolProtocol.AtomicPutKeepsAge | internal/nntp/client.go:207-222 | if stamp and push are one step, the stack is ordered by age after every run and its top is never ahead of the clock |
| PoolProtocol.LateLockBreaksAge | internal/nntp/client.go:207-213 | a reachable state whose stack is out of order and where the reaper leaves an expired connection |
| Race.FireKeepsInv | internal/nntp/client.go:494-592 | every step of goroutines, closer, receiver and drainer keeps the accounting of slots, results and winner |
| Race.SlotsConserved | internal/nntp/client.go:481-592 | after every complete race exactly the winner's slot is held on success and none on error; a cancelled race holds none unless a winner had been chosen |
| Race.StrandedIff | internal/nntp/client.go:578-589 | a slot without owner remains exactly when a winner was chosen and the parent-context case taken, and then it is one slot |
| Race.StrandingRun | internal/nntp/client.go:566-589 | such a run exists |
| Race.NoDoubleRelease | internal/nntp/client.go:508-532 | at every moment the race holds no slot or one slot of each provider, never less |
| Race.SendNeverBlocks | internal/nntp/client.go:491-531 | the result channel always has room for a goroutine with a result |
| Race.EveryWayOut | internal/nntp/client.go:508-532 | a goroutine may end its opening either way; only once the race is decided may a connection be given back or an error dropped instead of sent |
| Race.DoneStopsOpening | internal/nntp/client.go:508-515 | once the race is decided or cancelled no goroutine begins to open a connection |
| Race.ReturnedIsFinal | internal/nntp/client.go:553-591 | once the race has returned, draining changes neither its result nor the winner |
| Race.NoConnectionIff | internal/nntp/client.go:494-577 | unless the caller's context ends, a race ends without a connection exactly when every attempt to open one failed, and otherwise is won by one that was opened |
| Race.RaceTerminates | internal/nntp/client.go:481-592 | no race takes more than 5n + 3 steps |
| Race.RaceGoesOn | internal/nntp/client.go:536-592 | a race whose goroutines are not waiting for busy providers can always take another step |
| Race.CanFinish | internal/nntp/client.go:578-589 | any cancelled race can be driven to its end |
| Failover.FaultsAreSeen | internal/nntp/client.go:181-236 | the ledger marks a slot given back that was not held and a connection pushed under another host, exactly |
| Failover.RaceSlots | internal/nntp/client.go:481-592 | the slots a complete race leaves: the winner's on success, none on error, at most one on cancellation |
| Failover.RunIsDo | internal/nntp/client.go:288-350 | a retry loop over these attempts stops where retry.Do stops and with its result |
| Failover.Client.Put | internal/nntp/client.go:181-225 | gives back exactly one slot of the named pool; the connection is pushed, on that pool, exactly when neither it nor the client is closed |
| Failover.Client.Release | internal/nntp/client.go:228-236 | gives back one slot of the pool the connection belongs to |
| Failover.Client.ReturnOrRelease | internal/nntp/client.go:389-398 | gives back exactly one slot, of the connection's own pool, whether it is closed or not |
| Failover.Client.GetConnectionFromProvider | internal/nntp/client.go:401-418 | holds exactly one slot of that provider on success and none on failure |
| Failover.Client.RaceForConnection | internal/nntp/client.go:481-592 | takes one slot of the provider it returns, or none; strands one exactly when the race was cancelled after choosing a winner |
| Failover.Client.GetAnyAvailableConnection | internal/nntp/client.go:437-471 | on success one slot of a configured, not excluded provider whose host is the connection's address, found by priority in the scan or by a race after all of them were scanned; on failure none |
| Failover.Client.Reconnect | internal/nntp/client.go:304-322 | after the swap exactly one slot is held, of the connection that is kept; the first provider is asked by name exactly when another one has given a connection, and is preferred when it gives one; no slot after a failure, but for a stranded one |
| Failover.Client.Attempt | internal/nntp/client.go:289-343 | one call of the operation: what follows success, a connection, timeout or busy error, a panic and any other error, and that the goroutine then owns the slot of its current connection or none |
| Failover.Client.RetryOn | internal/nntp/client.go:285-350 | at most retries + 1 calls, repeated only after connection, timeout and busy errors, ended as retry.Do ends; what is still owned is the last connection's slot |
| Failover.Client.RunRound | internal/nntp/client.go:283-360 | a round leaves no slot held, returns no slot twice and files no connection under another host |
| Failover.Client.Turn | internal/nntp/client.go:277-360 | a round starts on a provider not excluded, or makes no call |
| Failover.Client.ExecuteWithFailover | internal/nntp/client.go:268-386 | slot-neutral for every behaviour of fn, but for one slot if and only if the last race of the call strands it; rounds start on distinct providers, fn runs at most providers × (retries + 1) times, success means the last call succeeded; fn is called again only after a connection, timeout, busy or not-found error or a panic, any other error of fn is the result at once, and only such an error gives up early |
| SwapProtocol.FireKeepsInv | internal/nntp/client.go:289-323 | every step of taking, failing, swapping and leaving keeps each pool within its capacity |
| SwapProtocol.GoesOnWithoutSwaps | internal/nntp/client.go:304-322 | with live contexts, when nobody waits for a second slot some goroutine inside can move |
| SwapProtocol.SwapCompletes | internal/nntp/client.go:304-322 | a goroutine between two pools that finds a free slot of the preferred one ends with that slot alone, or with the one it held when no connection comes of it |
| SwapProtocol.ContextMeaning | internal/nntp/client.go:407-417 | the end of a context makes a seeker leave and a swapper keep what it holds, and touches nobody else |
| SwapProtocol.StuckIff | internal/nntp/client.go:306-313 | nobody can move exactly when everybody waits, somebody for a second slot, and every pool waited for is full |
| SwapProtocol.WaitedForIsHeld | internal/nntp/client.go:312-313 | in a stuck state every slot waited for is held by a goroutine that waits for another pool |
| SwapProtocol.StuckForGood | internal/nntp/client.go:407-417 | from a stuck state no run without the end of a context moves those goroutines, whoever else arrives |
| SwapProtocol.ContextUnsticks | internal/nntp/client.go:407-417 | the end of the context of any goroutine between two pools ends a stuck state |
| SwapProtocol.CrossedIsStuck | internal/nntp/client.go:298-322 | from any two providers such a state is reached with as many goroutines as the two have connections |
| SwapProtocol.CanStickIff | internal/nntp/client.go:298-322 | some run gets stuck if and only if there are two different providers, for all capacities |
| SwapProtocol.TwoSwapAndStick | internal/nntp/client.go:298-322 | two providers with one connection each and two goroutines reach such a state |
| SwapProtocol.OnePoolNeverSticks | internal/nntp/client.go:312 | with a single provider no state is stuck |
| JobQueue.WithoutAt | pkg/manager/jobqueue.go:176-180 | deleting takes out the first job with that id and nothing else |
| JobQueue.Queue.Submit | pkg/manager/jobqueue.go:93-109 | appends the job, or refuses it when closed |
| JobQueue.Queue.TryPop | pkg/manager/jobqueue.go:153-168 | takes the oldest job, even after Close; waits exactly when the queue is empty and open |
| JobQueue.Queue.DeleteJob | pkg/manager/jobqueue.go:172-183 | removes the first pending job with the id, and says whether there was one |
| JobQueue.Queue.FindJob | pkg/manager/jobqueue.go:186-197 | finds the job DeleteJob would take out |
| JobQueueProtocol.StartMeaning | pkg/manager/jobqueue.go:66-86 | the pool starts open and empty, with the workers asked for or with five |
| JobQueueProtocol.SubmitNeverBlocks | pkg/manager/jobqueue.go:93-109 | in every state a submit either takes the job, waking a waiting worker if there is one, or refuses, as the queue is open or closed |
| JobQueueProtocol.FireKeepsWakeups | pkg/manager/jobqueue.go:93-168 | every step keeps the wakeup and shutdown invariants |
| JobQueueProtocol.FireConserves | pkg/manager/jobqueue.go:93-183 | every step keeps accepted = delivered + pending + deleted, in order of acceptance |
| JobQueueProtocol.WakeupsAreNotLost | pkg/manager/jobqueue.go:101-102 | while a worker waits unsignalled, pending jobs are at most the woken workers |
| JobQueueProtocol.ExactlyOnce | pkg/manager/jobqueue.go:93-183 | every accepted job is delivered, pending or deleted, and that once |
| JobQueueProtocol.FirstInFirstOut | pkg/manager/jobqueue.go:165-166 | only accepted jobs are delivered or deleted, and delivery follows the order of acceptance |
| JobQueueProtocol.QuiescentIsDrained | pkg/manager/jobqueue.go:130-168 | when no worker can move the queue is empty; after Close they have all exited, before it they all wait |
| JobQueueProtocol.ExitedMeansEmpty | pkg/manager/jobqueue.go:161-163 | once a worker has exited the queue is empty and stays so |
| JobQueueProtocol.WorkerStepsRunOut | pkg/manager/jobqueue.go:130-168 | workers alone can only take finitely many steps |
| JobQueueProtocol.WorkersDrain | pkg/manager/jobqueue.go:130-168 | from every reachable state the workers alone empty the queue, deleting and losing nothing |
| JobQueueProtocol.CloseCompletes | pkg/manager/jobqueue.go:119-149 | after the two steps of Close the workers alone finish every pending job and all exit |
| Download.TrimIsASlice | pkg/usenet/download.go:145-157 | the part of an article that belongs to the file is the slice at its offset, cut to its size; an offset past the data is an error |
| Download.Flush | pkg/usenet/download.go:73-107 | writing what is consecutive keeps the writer's invariant; after a failed write nothing more is written |
| Download.Accept | pkg/usenet/download.go:70-88 | a part that arrives is kept, and everything then consecutive is written |
| Download.WriteResults | pkg/usenet/download.go:55-110 | the writer, for every order of arrival: its output is a prefix of the segments up to the first missing one, all of them when no write failed, and its error is the first failure it met |
| Download.StopsAtMissing | pkg/usenet/download.go:58-110 | without a failed write the writer stops exactly at the first segment that never arrived |
| Download.OutputIsAPrefix | pkg/usenet/download.go:58-110 | the bytes written are a prefix of the segments in order up to the first missing one, and all of them when no write failed |
| Download.NothingMissing | pkg/usenet/download.go:119-161 | all segments are there exactly when every task sent something and nothing sent was an error |
| Download.SendMeaning | pkg/usenet/download.go:139-160 | what a task sends for a body that fits, a body that does not, a failed fetch and a skipped one |
| Download.FirstMissingIs | pkg/usenet/download.go:73-107 | the first segment that never arrives is the first that was not fetched or does not fit |
| Download.FirstErrorMeaning | pkg/usenet/download.go:60-107 | the first failure to reach the writer, a fetch error, an offset past the data or its own failed write, is the error it keeps |
| Download.Download | pkg/usenet/download.go:43-184 | for every order of completion and every write failure: the output is a prefix of the slices up to the first segment not fetched; the error is nil exactly when every segment was fetched and fits and no write failed, and then the output is all slices in order; otherwise the first failure to reach the writer is the error, and a task's own error comes only when nothing else failed |
| Cbc.DecryptAt | internal/crypto/crypto.go:132 | byte i of the decryption is byte i mod 16 of the decrypted block, xor that of the block before it or of the IV |
| Cbc.DecryptEncrypt | internal/crypto/crypto.go:118-133 | CBC decryption undoes CBC encryption for every block function with an inverse |
| Cbc.DecryptAppend | internal/crypto/crypto.go:197-231 | decrypting in pieces is decrypting at once, carrying the chaining value |
| Cbc.BlockMode.CryptBlocks | internal/crypto/crypto.go:132 | decrypts a range in place and advances the chaining value |
| DecryptReader.ReadAtLeast | internal/crypto/crypto.go:215 | what io.ReadAtLeast and io.ReadFull make of short reads |
| DecryptReader.Reader.Read | internal/crypto/crypto.go:177-234 | delivered bytes followed by outbuf are the decryption of what was consumed minus buf, which stays below a block; every byte delivered is CBC decryption of the source's blocks; an error other than the source's own means everything in whole blocks was delivered |
| DecryptReader.Reader.DecryptWhole | internal/crypto/crypto.go:197-231 | decrypting whole blocks in place extends the decrypted text by what was consumed |
| DecryptReader.Reader.ReadSmall | internal/crypto/crypto.go:186-202 | the small path decrypts one block and keeps what does not fit |
| DecryptReader.Reader.ReadLarge | internal/crypto/crypto.go:204-233 | the large path decrypts in place and keeps an incomplete block for later |
| DecryptReader.DeliveredSoFar | internal/crypto/crypto.go:177-234 | at any moment the delivered bytes are a prefix of the decrypted source |
| DecryptReader.ReadAll | internal/crypto/crypto.go:175-234 | for any buffer sizes the output is a prefix of the decrypted source, byte by byte CBC of its blocks, complete at EOF; a block-aligned source never ends with an unexpected EOF |
| DecryptReader.DecryptBlock | internal/crypto/crypto.go:138-150 | decrypts in place, or changes nothing and fails on a bad length, key size or IV size |
| Yenc.TrimRightMeaning | internal/nntp/yenc/decoder.go:150 | trimming takes away the trailing CR and LF, all of them and nothing else |
| Yenc.UnstuffMeaning | internal/nntp/yenc/decoder.go:156-163 | one dot comes off a line that begins with two, and off no other |
| Yenc.ControlWords | internal/nntp/yenc/decoder.go:165-176 | the three control words, in characters |
| Yenc.NothingBeforeBegin | internal/nntp/yenc/decoder.go:178-180 | a source without the begin mark decodes to nothing |
| Yenc.UnescapeLine | internal/nntp/yenc/decoder.go:182-196 | the byte loop with its escape flag computes the recursive unescaping of the line |
| Yenc.DecodeLine | internal/nntp/yenc/decoder.go:120-147 | one line of an article contributes its payload and leaves the rest to be decoded |
| Yenc.Decoder.constructor | internal/nntp/yenc/decoder.go:68-74 | a new decoder has the whole article ahead of it |
| Yenc.Decoder.ProcessLine | internal/nntp/yenc/decoder.go:149-199 | payload, begin mark and stop follow the meaning of the line after trimming and unstuffing |
| Yenc.Decoder.FillOnce | internal/nntp/yenc/decoder.go:124-146 | one turn: the line's payload followed by what is ahead is what was ahead before |
| Yenc.Decoder.Fill | internal/nntp/yenc/decoder.go:120-147 | decodes up to the next payload without changing what is still to come; an error means nothing is left |
| Yenc.Decoder.CopyOut | internal/nntp/yenc/decoder.go:83-92 | moves bytes from the decoder to the caller, as many as fit |
| Yenc.Decoder.Read | internal/nntp/yenc/decoder.go:76-118 | delivers the next bytes of the whole-article decoding, filling the buffer unless the stream ends; EOF is sticky |
| Yenc.ReadAll | internal/nntp/yenc/decoder.go:76-118 | for any buffer sizes the concatenated reads are the decoding of the article; only the total size counts |
| Posting.WriteBody | internal/nntp/conns.go:494-512 | the body goes out as its lines, dot-stuffed, each with CRLF, then the terminator |
| Posting.NormalizeLine | internal/nntp/conns.go:497 | up to the first CR LF pair everything stays, and the pair becomes one LF |
| Posting.NormalizeNothing | internal/nntp/conns.go:497 | text without such a pair stays as it is |
| Posting.SplitLine | internal/nntp/conns.go:498 | the text up to the first LF is the first line |
| Posting.TerminatorEnds | internal/nntp/yenc/decoder.go:156-159 | a lone dot on its own line ends the article, whatever comes after it |
| Posting.SplitJoined | internal/nntp/conns.go:495-498 | lines joined with CRLF come out of normalizing and splitting as the same lines |
| Posting.TrimStuffed | internal/nntp/yenc/decoder.go:150-163 | trimming and unstuffing give back a stuffed line, and no stuffed line is the terminator |
| Posting.StuffedMeaning | internal/nntp/yenc/decoder.go:149-199 | the decoder sees a posted line as it was before stuffing |
| Posting.UnescapeEncoded | internal/nntp/yenc/decoder.go:182-196 | unescaping undoes encoding for every legal choice of escapes |
| Posting.DataLineMeaning | internal/nntp/yenc/decoder.go:165-198 | a data line is never taken for the terminator or for a control line |
| Posting.DecodeDataLines | internal/nntp/yenc/decoder.go:120-199 | data lines up to =yend decode to their bytes |
| Posting.PostedRoundTrip | internal/nntp/conns.go:494-512 | any bytes, in any lines and with any legal escapes, with or without a part line, survive encoding, posting and decoding, and the decoder stops inside the article |
| Posting.EscapedIff | internal/nntp/yenc/decoder_test.go:27-28 | the encoder escapes exactly seven characters |
| Posting.LinesAreLegal | internal/nntp/yenc/decoder_test.go:25-43 | the encoder's choice of escapes is a legal one |
| Posting.LinesHoldBytes | internal/nntp/yenc/decoder_test.go:25-43 | the encoder's lines hold exactly the bytes it is given, in order |
| Posting.LinesFit | internal/nntp/yenc/decoder_test.go:31-43 | no line is empty or more than one column longer than asked for |
| Posting.EncoderRoundTrip | internal/nntp/yenc/decoder_test.go:12-49 | every byte sequence survives encoding at every line width, posting and decoding |
| BatchStat.AnswerMeaning | internal/nntp/conns.go:600-606 | 223 is available, 423 and 430 are not found, any other code is another error |
| BatchStat.PipelinedStat | internal/nntp/conns.go:569-610 | result i answers id i: available exactly for a 223 that was read, not found exactly for a 423 or 430; from the first lost response on, every result is a connection error |
| BatchStat.CutChunks | internal/nntp/client.go:896-900 | the messages are cut into consecutive chunks of the batch size, none empty, none left over |
| BatchStat.ChunkOfIff | internal/nntp/client.go:897-900 | every message lies in exactly one chunk |
| BatchStat.RunChunk | internal/nntp/client.go:938-956 | a chunk sends the results of PipelinedStat, or the error its call ended with |
| BatchStat.Store | internal/nntp/client.go:974-996 | a chunk's results land on its own ids and nowhere else; an error lands on all of them |
| BatchStat.Receive | internal/nntp/client.go:942-996 | after one more chunk its messages have the results that belong to them, and the others are as before |
| BatchStat.CountResults | internal/nntp/client.go:1004-1016 | the two counters are the numbers of found and of failed results |
| BatchStat.BatchStat | internal/nntp/client.go:872-1019 | for any completion order result i is the one that belongs to id i, and found, not found and errors add up to the total |
| BatchStat.ResultsAreComplete | internal/nntp/client.go:966-996 | every result is available or carries an error |
| BatchStat.CountsAddUp | internal/nntp/client.go:998-1016 | every complete result is found, not found or failed |
| BatchStat.CheckFileAvailability | pkg/usenet/usenet.go:431-469 | a file is reported missing exactly when the batch call succeeded and the server answered 423 or 430 for some id, or an id's chunk failed with just that error |
| Sampling.TargetFits | pkg/usenet/usenet.go:489-496 | above three segments and below 100 percent the target is max(2, total·percent/100) and below the total |
| Sampling.MiddleIndexIs | pkg/usenet/usenet.go:515-518 | the step in exact arithmetic is an integer division |
| Sampling.MiddleIndexSteps | pkg/usenet/usenet.go:517-521 | the picked indices strictly increase and stay inside, so the clamp never acts |
| Sampling.SampleMiddle | pkg/usenet/usenet.go:513-524 | the loop picks the middle positions in order and never needs its clamp |
| Sampling.SampleSegments | pkg/usenet/usenet.go:474-528 | exactly the target number of distinct positions in order, first and last among them |
| Multipart.FourParts | pkg/manager/downloader.go:485-490 | at or above the threshold the file is cut into exactly four parts |
| Multipart.RangesTile | pkg/manager/downloader.go:601-605 | the inclusive ranges are non-empty, adjacent, start at zero and end at the last byte |
| Multipart.EveryByteOnce | pkg/manager/downloader.go:601-605 | every byte lies in exactly one range |
| Multipart.FetchPart | pkg/manager/downloader.go:602-626 | one part writes its own range and nothing else |
| Multipart.Download | pkg/manager/downloader.go:576-630 | writing the ranges in any order reconstructs the remote file; below the threshold there is one request |
| NzbStorage.ExtIsMeta | pkg/usenet/storage.go:80 | the extension test is a suffix test |
| NzbStorage.Names | pkg/usenet/storage.go:63-65 | the metadata name of an id is counted and its temporary name is not |
| NzbStorage.IdOfName | pkg/usenet/storage.go:229-249 | the id is the file's name without the extension, so no two ids share a file |
| NzbStorage.AddFrame | pkg/usenet/storage.go:95-135 | an add touches no other name and puts no file in the place of a directory |
| NzbStorage.AddLeaves | pkg/usenet/storage.go:95-135 | what an add leaves under its metadata and temporary names at each point where it can stop, and exactly when it succeeds |
| NzbStorage.AddExactIff | pkg/usenet/storage.go:95-135 | when an add keeps the cache equal to a scan: if and only if it failed, its file is one the scan sees, or it replaced a file of the same size |
| NzbStorage.DeleteExactIff | pkg/usenet/storage.go:160-189 | a delete breaks the cache exactly when it removes something the scan does not count while anything is counted |
| NzbStorage.ClampsAreIdle | pkg/usenet/storage.go:178-186 | on an exact cache the clamps at zero change no value |
| NzbStorage.RunKeepsExact | pkg/usenet/storage.go:95-189 | after any sequence of adds, overwrites, deletes and failures the cache is what a scan would compute, and the clamps are idle |
| NzbStorage.DirectoryBreaksTheCount | pkg/usenet/storage.go:165-186 | an empty directory with a metadata name makes the cache lose a real file |
| NzbStorage.Storage.NewNZBStorage | pkg/usenet/storage.go:42-60 | a new store starts with an exact cache, or is not made |
| NzbStorage.Scan | pkg/usenet/storage.go:75-88 | the loop counts exactly the metadata files and adds up their sizes, or stops at one it cannot read |
| NzbStorage.Storage.Recalculate | pkg/usenet/storage.go:69-92 | a scan makes the cache exact, or fails and changes nothing |
| NzbStorage.Storage.AddNZB | pkg/usenet/storage.go:95-135 | the directory and the cache after an add, for every point where the file system can fail |
| NzbStorage.Storage.DeleteNZB | pkg/usenet/storage.go:160-189 | the directory and the cache after a delete, for every point where the file system can fail |
| Merge.MergeTables | pkg/storage/misc.go:22-81 | the two loops compute the last-writer-wins join, a nil map giving way to the other |
| Merge.MergedAt | pkg/storage/misc.go:38-47 | key by key: the later value, the existing one on a tie, and what only one side has |
| Merge.MergeIdempotent | pkg/storage/misc.go:53-81 | merging a record with itself changes nothing |
| Merge.MergeAbsorbs | pkg/storage/misc.go:53-81 | merging the same record again changes nothing, and the keys are those of both |
| Merge.MergeAssociative | pkg/storage/misc.go:53-81 | three merges agree however they are grouped |
| Merge.MergeCommutesIff | pkg/storage/misc.go:67-77 | the order of two merges matters exactly when a key has a tie between different values |
| Merge.MergeAllMeaning | pkg/storage/misc.go:22-81 | after any number of merges no key is lost or invented and each holds a newest value |
| Merge.MergeAnyOrder | pkg/storage/misc.go:22-81 | with distinct timestamps per key any order of any number of merges gives the same result |
| Merge.MergeTags | pkg/storage/misc.go:93-114 | the union of the tags, without duplicates when both sides have some |
| Merge.Entry.HandleExistingEntryMerge | pkg/storage/misc.go:8-19 | an NZB entry stays as it is; otherwise the fields are merged, the incoming active provider wins, and an active provider with a placement keeps one |
| Placements.RemovalTakesTheKeyIff | pkg/storage/types.go:353-363 | a removal takes away the key exactly when the placement under it names that provider, and only the key exactly when no other placement does |
| Placements.MisfiledPlacementSurvives | pkg/storage/types.go:353-363 | a placement under another provider's key survives the removal of that key |
| Placements.Entry.ActivatePlacement | pkg/storage/types.go:315-341 | activates a completed placement of that name, or says that there is none or that it is not complete, for every order of the map |
| Placements.Entry.SwitchToNextProvider | pkg/storage/types.go:388-398 | ends on the name of a completed placement, or leaves the active provider as it was when there is none or one of that name is not complete |
| Placements.Entry.GetActiveProvider | pkg/storage/types.go:255-264 | the placement of the active provider, or none when it is unset or dangles |
| Placements.Entry.RemoveProvider | pkg/storage/types.go:344-376 | removes every placement of that name and no other, hands each to the cleanup once, and switches only away from the removed provider |
| Reconcile.LatestMeaning | pkg/manager/torrent.go:81-92 | the map holds every listed hash, with the first of its newest records |
| Reconcile.ActiveDanglesIff | pkg/storage/types.go:365-368 | with placements keyed by name the active provider dangles after a removal exactly when it was removed and nothing completed is left |
| Reconcile.OtherActiveDanglesIff | pkg/storage/types.go:353-368 | for any placements, an active provider that was not removed dangles exactly when it did before or its placement names the one removed |
| Reconcile.RemovedActiveMayDangleIff | pkg/storage/types.go:365-398 | for any placements, exactly when some order of the map leaves the removed active provider dangling |
| Reconcile.RemovalCanDangle | pkg/storage/types.go:365-398 | an entry whose active provider has no placement after the removal |
| Reconcile.Detector.Visit | pkg/manager/torrent.go:140-165 | one entry is sorted into the list its placement and the listing call for, or into none |
| Reconcile.Detector.HandleBatch | pkg/manager/torrent.go:139-167 | a whole batch, in order, whatever was visited before |
| Reconcile.ForEachBatch | pkg/storage/entry.go:101-124 | every decodable entry reaches the callback exactly once, in full batches but for the last, for any batch size, or the scan fails on an unreadable value |
| Reconcile.NewListIsExact | pkg/manager/torrent.go:155-178 | the new list holds each remote hash that is uncached, lacks this provider or is stale, exactly once |
| Reconcile.UpdatesAreExact | pkg/manager/torrent.go:146-154 | the update list holds each entry whose placement is gone but has others, exactly once, with the placement removed |
| Reconcile.DeletesAreExact | pkg/manager/torrent.go:146-151 | the delete list holds each entry left without placements exactly once |
| Reconcile.DetectTorrentChanges | pkg/manager/torrent.go:128-181 | the three lists are exact in terms of the store and the listing (new: listed, and not stored under this provider with the same id, the same status and some file), or all empty when the scan fails |
| Refresh.ListsAreDisjoint | pkg/manager/torrent.go:128-181 | no hash is in two of the three lists |
| Refresh.StaleIsGoneIff | pkg/manager/torrent.go:100-113 | after updates and deletes no entry keeps a placement absent from the listing, exactly when every such placement named this provider |
| Refresh.SecondRefreshIsIdle | pkg/manager/torrent.go:69-125 | with placements keyed by name a second refresh from the same listing has nothing to update or delete |
| Refresh.MisfiledPlacementStays | pkg/manager/torrent.go:146-154 | a placement under the wrong key is found stale and stays |
| Refresh.AppliedAt | pkg/manager/torrent.go:100-113 | whatever deletes and writes fail, every entry ends settled or unchanged |
| Refresh.Manager.DoRefreshTorrents | pkg/manager/torrent.go:69-125 | a failed or empty listing changes nothing; otherwise the lists are exact and, without failures, every entry is settled |
| Refresh.ByHash | pkg/manager/torrent.go:80-92 | the loop computes the newest record of each hash |

## Left out

- PoolProtocol.PoolBound: connections that SpeedTest dials outside the pool are not counted, and the bound is per provider pool.
- PoolProtocol.CloseLeavesNothing: a put that passed its closed check can push after Close emptied the stack, so nothing is claimed about every socket being closed when somebody is in put; slots and counts hold all the same.
- PoolProtocol.FireKeepsInv: the set of active connections and the forced close of connections in use are not modelled; a forced close shows as any error of the operation.
- Failover.Client.ExecuteWithFailover: other goroutines appear only through what the semaphores, stacks and the context answer; the sleep between attempts takes no time.
- Failover.Client.Reconnect: the wait for the preferred provider takes no time here; whether it ends is the subject of SwapProtocol.
- SwapProtocol.CanStickIff: connections are not distinguished from slots, dials take no time, and a context ends only where the code waits for it.
- Failover.Client.Open: sockets, TLS, authentication, deadlines and pings are reduced to a connection of the right pool or any error.
- Retry.Do: the overflow of a doubled duration without a cap, the OnRetry callback and the wrapping of the last error when LastErrorOnly is off are not modelled.
- JobQueueProtocol.ExactlyOnce: what the process function does with a delivered job, and a panic inside it, are not modelled.
- Download.Download: a negative segment size (a slice panic), progress callbacks, the limit on parallel fetches and the back-pressure of the result channel are not modelled; every order of arrival is allowed instead.
- DecryptReader.Reader.Read: states its invariant up to the first error; a source that returns neither bytes nor an error is not modelled.
- DecryptReader.DecryptBlock: AES itself is an uninterpreted block function; key derivation, SHA-256, HMAC and the RAR5 header are left out.
- Yenc.Decoder.Read: the metadata taken from the =ybegin, =ypart and =yend lines (parseYBeginLine, parseYPartLine, parseYEndLine, Begin, End) is not modelled, only the effect of these lines on the stream.
- Yenc.Decoder.ProcessLine: likewise without the metadata of the control lines.
- Yenc.Decoder.Fill: reads through a bufio.Reader that is known only by the lines it returns; the cgo decoder is foreign code and left out.
- Posting.WriteBody: the headers before the body, the POST dialogue and its response are not modelled.
- BatchStat.BatchStat: the limit on concurrent chunks and the moment the context ends are not modelled; a chunk is answered in full or carries an error.
- Sampling.SampleSegments: the float64 step is taken in exact arithmetic, so rounding of the step is not modelled.
- Sampling.MiddleIndexIs: likewise in exact arithmetic.
- Sampling.MiddleIndexSteps: likewise in exact arithmetic.
- Multipart.Download: HTTP status handling, failed parts, progress and the single-request path are not modelled; the server is assumed to serve exact ranges, and sizes near the int64 limit are not considered.
- Multipart.FetchPart: a body shorter or longer than its range, and a failed request, are not modelled.
- NzbStorage.RunKeepsExact: cleaning of ids that contain path separators, symbolic links, changes to the directory by other programs and int64 wrap-around are not modelled.
- Merge.Entry.HandleExistingEntryMerge: fields of an entry that the merge does not touch are not modelled.
- Placements.Entry.RemoveProvider: what the cleanup callback does with a placement is not modelled; its error is ignored by the code.
- Reconcile.ForEachBatch: the callback is the detector's, which never fails, so a scan stopped by its callback is not modelled.
- Refresh.Manager.DoRefreshTorrents: ends with the list of new torrents; fetching and writing them (processNewTorrents) and the folder-name index that each write updates are not modelled.
- Refresh.Manager.Apply: deletes run in list order here and by ten workers in the program; they are on different hashes, so the order does not matter.
- The reference counts and idle clean-up of usenet files (pkg/usenet/usenet.go), the bounded import queue (pkg/manager/queue.go) and the link service (pkg/manager/link/service.go) have intended invariants that the code does not keep as written: a load and an increment that are not one step, a capacity that shrinks with every pop, a recursion without a decreasing measure. They are not part of this model, and nothing is claimed about them.
- The folder-name index and the terminal states of repair jobs are not part of this model either; there too the code keeps less than one would expect.
- Protobuf conversions, configuration, notifications, logging, web and mount handlers are plumbing or bound to libraries.
