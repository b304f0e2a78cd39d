# Verification of et-rs and et-k-rs

et-rs is a host driver, and et-k-rs a device kernel library, for the ET-SoC-1: an accelerator
whose Minion cores share memory through caches that software must keep coherent, and which takes
its work from queues that it answers when and in what order it likes. This project models the
parts of both whose correctness depends on that freedom, and proves them for every order in which
the hardware may act. `dafny verify dfyconfig.toml` checks all of it.

What is modelled, from the most to the least entangled:

- **The message channel** (`CacheHierarchy`, `CacheOps`, `Channel`, `ChannelEnds`, `ChannelArgs`). A cache line is
  at once in an L1 per Minion, an L2 per shire, a global L3 and DDR; lines are filled, written back
  and dropped spontaneously. The two programs of `channel_bench.rs` are step machines whose every
  load, store and per-line cache operation is one step. A run is any list of steps of the two
  Minions and of the caches. `Channel` says what they deliver, `ChannelEnds` how the runs end.
- **Command tags** (`Commands`, `Driver`). Each command pushed gets an identity that the driver
  never sees; tags are 16 bits wide and wrap. `Commands` says what can happen, and keeps what the
  device has answered; `Driver` is the class whose methods are proved to be the events that follow
  from what the transport finds.
- **The DMA pipeline** (`Dma`, `DmaExact`, `Leftovers`, `DmaList`, `Transport`, `Staging`,
  `AwaitDrain`, `DrainFirst`). A pushed command moves each of its bytes at a time of its own, once or more, before
  it completes. `Dma` says what stays true of a transfer under every schedule, `DmaExact` when
  success means that the data is in place, `Leftovers` what survives the commands of failed
  transfers. `Staging` is the driver's side with its persistent and pinned buffers. What the
  transport and the device will answer to each of its requests is a function that it is given
  (`world`), and what they have answered is on record (`log`): an operation fails exactly if one of
  its requests met with a mishap, with the error of the first (`Transport.Told`).
- **Launch arguments** (`LaunchArgs`). Slots shared by launches, their asynchronous writes, and
  kernels that read them whenever they run, with any number of launches in flight.
- **Tensor GEMM** (`WorkSplit`, `Gemm`, `GemmMachine`, `Blas`). Tiles, partial tiles, k-slices and
  strides. `Gemm` has the kernel's loops, on one Minion among others that store at the same time;
  `GemmMachine` runs all Minions in any interleaving of their row loads and stores; `Blas` has the
  host's checks and allocations, and the result from these to the product.
- **Loading and allocation** (`Elf`, `ElfFormat`, `Allocator`, `Loader`), **the SPSC ring** (`Spsc`), **traces**
  (`Trace`, `TraceWriter`, `TraceRoundTrip`), **the reduction** (`Reduce`). `Arith`, `Sequences`,
  `LittleEndian` and `Wrappers` hold what several modules share.

Assumptions about what is not part of the model:

- Each queued command is answered at most once, with its tag and a complete header, and nothing
  else reaches the completion queue. A `BARRIER` command starts only after the earlier ones on its
  queue are done.
- The cache operations follow the rules stated in et-k-rs/src/cache.rs: an eviction writes a dirty
  line back and empties the levels below its destination, a flush writes back, a write-back passes
  through every level on its path and refreshes it. An operation on one line is a single step;
  anything may happen between lines.
- When a channel launch begins, no line of its buffer is dirty in any cache and no flag of its epoch
  can be read anywhere; `Channel.NothingDirtyAfterLaunch` shows the first for the next launch.
- Time is not modelled: what is found by a deadline, or that a poll comes after it, is part of what
  a run or an operation is given.

Five results are about what the code does not do:

- The comment of `await_dma` (et-rs/src/device.rs:1511-1514) says that each tag leaves `pending` just
  before it is awaited, but line 1522 drains all of them first. `AwaitDrain`, `Driver` and `Staging`
  have the loop with the order as a parameter (`drainFirst`, true for the code). `AwaitDrain` shows
  an input on which the code loses a command and hands its buffer on, and that it does not, for
  every outcome, if and only if at most one command is awaited or others stay behind in `pending`.
  `DrainFirst` says the same of transfers, with the device running: buffers that are kept are idle if
  and only if the last chunk is not longer than the most that one command moves; otherwise the
  buffer may be refilled while a command still sends from it (`DrainFirst.ReusedBufferIsSent`).
  Hence `Staging` promises the state that the next transfer needs unless a command of a longer
  transfer has reported a bad status.
- An upload that succeeds need not leave its data in place: a command left over from a transfer that
  failed on another queue may land after it (`DmaExact.RetryIsOverwritten`). It does, for every
  schedule, if and only if no unfinished leftover upload on another queue covers a byte of the range
  with a different staged byte (`DmaExact.UploadLandsIff`; `DmaExact.DownloadReturnsIff` for
  downloads). `Leftovers.Clear` is this condition, and what the transfers of `Staging` and the loads
  of `Loader` promise is conditional on it; it holds whenever nothing is left over, and when what is
  left over is on the same queue.
- A loaded kernel can be launched again at once (et-rs/src/device.rs:1268-1270), but the SPSC kernel
  then finds the sentinel of its first launch in its image, and the consumer may start on a stale
  tail (`Spsc.StaleWordIsRead`). The ring is a queue, for all contents and schedules, if and only if
  the `go` word is not the sentinel or the tail is zero at the start (`Spsc.FifoIff`).
- Live allocations need not lie above every kernel image, because a kernel may be loaded above them
  (`Allocator.KernelAboveARegion`). Those allocated since the last load do, over all histories; and
  a load keeps it so exactly when no segment starts at or beyond the allocator's position
  (`Allocator.AboveTheImageIff`).
- The salt of the channel's payload does not keep a zeroed buffer from ever matching
  (et-k-rs/src/bin/channel_bench.rs:51-52): a payload word is zero if and only if the low 24 bits of
  the epoch are 0x9E3779, the iteration is 0xB97F4 and the index is 0xA7C15
  (`ChannelArgs.ZeroWordIff`).

## Model

| member | source | states |
|---|---|---|
| CacheHierarchy.EvictIsQuiet | et-k-rs/src/cache.rs:35-49 | evicting a line, even a stale or dirty one, changes neither what its owner would read nor what it has published |
| CacheHierarchy.FlushPublishes | et-k-rs/src/cache.rs:134-137 | after the owner's flush to a level both Minions share, every path the peer can read ends at the owner's latest contents |
| CacheHierarchy.EvictFreshens | et-k-rs/src/cache.rs:35-49 | after the reader's eviction to a shared level its private levels hold no stale copy |
| CacheHierarchy.FreshReadsLatest | et-k-rs/src/cache.rs:17-33 | a published line that the reader has freshened reads as the owner's latest contents |
| CacheHierarchy.FlushToMemoryCleansAll | et-k-rs/src/cache.rs:245-268 | a flush to memory leaves the line dirty in no cache |
| CacheOps.LineCountCovers | et-k-rs/src/cache.rs:180-197 | the lines counted for a byte range are exactly those that contain one of its bytes |
| CacheOps.CsrRoundTrips | et-k-rs/src/cache.rs:101-152 | destination, line address and count survive packing into the CSR operand |
| CacheOps.CachePort.DoRange | et-k-rs/src/cache.rs:198-240 | the batching loop operates on every line the range touches, each exactly once and in order, and on no other |
| Channel.ChannelDelivers | et-k-rs/src/bin/channel_bench.rs:114-306 | in every run, for every placement and pair of levels, each payload word read is the one the peer sent, both error counts stay 0, and a normal end completes all iterations |
| Channel.ChannelTakesTurns | et-k-rs/src/bin/channel_bench.rs:196-280 | no payload area is rewritten while the peer may still read it, and the completed counts differ by at most one |
| Channel.PollAfterPublishSucceeds | et-k-rs/src/bin/channel_bench.rs:114-158 | a poll begun after `publish` returned observes the flag, whatever caches and peer do between its eviction and its load |
| Channel.ChannelProgresses | et-k-rs/src/bin/channel_bench.rs:200-275 | without a timeout, until both have finished, one side has a step that is not a poll, or polls for a message already published |
| Channel.NothingDirtyAfterLaunch | et-k-rs/src/bin/channel_bench.rs:177-190 | once both have retired, with or without a timeout, no line of the buffer is dirty in any cache |
| Channel.VerifyReadsTheMessage | et-k-rs/src/bin/channel_bench.rs:225-265 | from any state a run can reach, the word about to be checked is that of the message being received |
| Channel.FlagIsReadOnlyOnceRaised | et-k-rs/src/bin/channel_bench.rs:95-100 | no stale or future flag can be mistaken for the awaited one |
| ChannelEnds.NoTimeoutInTime | et-k-rs/src/bin/channel_bench.rs:133-157 | in every run in which no poll comes after its deadline, both Minions keep status OK |
| ChannelEnds.PollOutcome | et-k-rs/src/bin/channel_bench.rs:133-157 | from any state a run can reach, a poll that finds the flag leads on to the payload, one that does not leads to another poll for the same message before the deadline, and after it to TIMEOUT with the number of the message and the flag found |
| ChannelEnds.TimeoutIsReported | et-k-rs/src/bin/channel_bench.rs:213-219 | over whole runs a Minion that reports TIMEOUT has polled in vain after its deadline, and reports the message and the flag of that poll |
| ChannelEnds.ErrorsAreMismatches | et-k-rs/src/bin/channel_bench.rs:220-228 | in any run, from any state at all, the error count grows by exactly the number of words read that are not the expected ones |
| ChannelEnds.LaunchCanComplete | et-k-rs/src/bin/channel_bench.rs:196-280 | from wherever a run without a timeout has led, some further run without one ends both programs with all iterations completed, status OK and no error |
| ChannelArgs.AcceptedIsValid | et-k-rs/src/bin/channel_bench.rs:299-353 | accepted arguments give the channel they describe, and one whose levels both Minions share; distinct Minions with well-formed arguments are refused exactly when a level is not shared by both |
| ChannelArgs.StaleWordsDiffer | et-k-rs/src/bin/channel_bench.rs:85-92 | payload words of different iterations of an epoch differ |
| ChannelArgs.ZeroWordIff | et-k-rs/src/bin/channel_bench.rs:51-53 | a payload word is zero exactly for one value of the low epoch bits, one iteration and one index, so that one word of a zeroed buffer can match |
| ChannelArgs.LayoutMatchesChannel | et-abi/src/lib.rs:464-480 | each flag and payload lies on lines of its own, and the range operations on it touch exactly those |
| ChannelArgs.WordsMatchChannel | et-k-rs/src/bin/channel_bench.rs:200-265 | payload word `index` is word `index % 8` of line `index / 8` of its area |
| ChannelArgs.AcceptedChannelNeverErrs | et-k-rs/src/bin/channel_bench.rs:309-395 | for all arguments accepted, in every run neither side counts an error |
| Commands.NothingMisdelivered | et-rs/src/device.rs:1611-1700 | over all runs, with tag wraparound, timeouts and abandonment, the response handed to a waiter is the device's answer to its own command, with the tag issued for it and the status word that the device reported |
| Commands.AnswersStay | et-rs/src/device.rs:1629-1650 | what counts as answered is what the device reported when its response was popped, and never changes |
| Commands.TagsAreConserved | et-rs/src/device.rs:1694-1718 | over all runs stashed and abandoned tags are disjoint and reserved, and every reserved tag is abandoned or has exactly one waiter |
| Commands.NextTagIsFirstFree | et-rs/src/device.rs:1777-1793 | the tag issued is the first free one cyclically from the cursor, and none is issued exactly when all 65536 are reserved |
| Commands.FirstFreeIsFirst | et-rs/src/device.rs:1777-1793 | the scan passes over taken tags only and stops at the first that is free |
| Commands.LateAnswerIsDiscarded | et-rs/src/device.rs:1686-1700 | a late answer to an abandoned command reaches nobody and frees its tag |
| Commands.ParkedAnswerIsKept | et-rs/src/device.rs:1629-1684 | an answer that arrives while another command is awaited is kept for its own waiter, who then gets it |
| Commands.TagOutlivesItsCommand | et-rs/src/device.rs:376-384 | a tag is not issued again before the command holding it has been answered |
| Driver.Device.NextTag | et-rs/src/device.rs:1777-1793 | the scanning loop computes `Commands.NextTag` |
| Driver.Device.Submit | et-rs/src/device.rs:1555-1565 | a push is one event, and fails exactly if the transport refuses it or no tag is free: on success someone waits for a new command with a tag that was free, on failure nothing is reserved |
| Driver.Device.CollectResponse | et-rs/src/device.rs:1611-1684 | the loop makes the events of waiting with the polls given; it returns the device's answer to the awaited command, with the status reported, exactly if it was stashed or these polls bring it, and otherwise marks its tag abandoned |
| Driver.WaitIs | et-rs/src/device.rs:1623-1684 | waiting with any polls ends with the answer handed to the waiter if it arrives before the queue fails or the deadline passes, and otherwise with the command abandoned unanswered |
| Driver.Device.Abandon | et-rs/src/device.rs:1702-1711 | abandoning is one event: a stashed response is dropped and the tag freed, otherwise the tag is marked |
| Driver.Device.AbandonAll | et-rs/src/device.rs:1713-1718 | nobody waits for any of the handles afterwards, and no tag is lost |
| Driver.Device.AwaitDma | et-rs/src/device.rs:1511-1534 | succeeds exactly if the device answered every command with the report that it completed, by the polls made for it, and stops at the first for which it did not; those after it are held by the caller, or, draining first as the code does, by nobody |
| Driver.ForgettingLosesTheTag | et-rs/src/device.rs:1522-1531 | forgetting a handle without collecting or abandoning it leaves a reserved tag that nobody accounts for |
| AwaitDrain.Await | et-rs/src/device.rs:1515-1534 | the loop, with what it drains first as a parameter, computes the documented or the written outcome |
| AwaitDrain.DocumentedIsSafe | et-rs/src/device.rs:1511-1514 | one-at-a-time removal never loses a command, and buffers that are kept are not in use |
| AwaitDrain.WrittenLosesACommand | et-rs/src/device.rs:1522-1531 | a first command of two that fails leaves the second in flight with its tag in no table and its buffers handed on |
| AwaitDrain.WrittenIsSafeIff | et-rs/src/device.rs:1343-1364 | as written, no outcome reuses a buffer in use if and only if at most one command is awaited or others stay in `pending` |
| AwaitDrain.WrittenKeepsTagsIff | et-rs/src/device.rs:1515-1534 | as written, no outcome loses a tag if and only if at most one command is awaited |
| Dma.RunKeepsTransferring | et-rs/src/device.rs:1366-1432 | under every schedule, each byte moving at a time of its own, what is staged, moved and collected of a transfer stays right unless a leftover command can spoil it, and outside an upload's range only leftover commands write, and only what they send |
| Dma.PushKeepsTransferring | et-rs/src/device.rs:1438-1509 | a command that continues the transfer, out of a staged or free part of a buffer, keeps it on course |
| Dma.PopKeepsTransferring | et-rs/src/device.rs:1515-1534 | collecting the oldest command, once it has succeeded, extends what is known to have arrived |
| Dma.StageKeepsUploading | et-rs/src/device.rs:1388-1389 | the host may refill a buffer that no command of the upload uses |
| Dma.CopyOutKeepsDownloading | et-rs/src/device.rs:1422-1429 | the bytes copied out of a collected chunk are those in device memory |
| DmaExact.UploadLandsIff | et-rs/src/device.rs:1199-1224 | in every run in which the commands of an upload succeed its data is in place, if and only if no unfinished leftover upload on another queue covers a byte of the range with a different staged byte |
| DmaExact.DownloadReturnsIff | et-rs/src/device.rs:1056-1103 | in every run in which the commands of a download succeed the buffers hold the device range, if and only if no unfinished leftover upload can change a byte of it that one on another queue may write |
| DmaExact.RetryIsOverwritten | et-rs/src/device.rs:1217-1224 | an upload that succeeds on one queue after another has timed out on a second one can still be overwritten by it |
| Leftovers.StableForever | et-rs/src/device.rs:1074-1082 | a range that holds its data, and to which leftover commands send the same, holds it for ever after, whatever the device does |
| Leftovers.SparesStable | et-rs/src/device.rs:1199-1224 | a transfer elsewhere, successful or not, keeps such a range |
| DrainFirst.DrainingFirstKeepsIdleIff | et-rs/src/device.rs:1515-1534 | as the code drains its tags, buffers kept after the last chunk are idle, for every behaviour of the device, if and only if one command moves the whole chunk |
| DrainFirst.DocumentedKeepsIdle | et-rs/src/device.rs:1511-1514 | in the documented order they always are |
| DrainFirst.ReusedBufferIsSent | et-rs/src/device.rs:1343-1364 | a buffer put back into use is sent from by a command of the transfer that failed |
| DmaList.MaxListNodes | et-rs/src/device.rs:1536-1554 | the node limit is the most that are within the device's count and fit the size field and the message, and at least one |
| DmaList.EveryByteOnce | et-rs/src/device.rs:1438-1509 | every byte of a transfer is moved by exactly one node, between the same offsets of host buffer and device range |
| DmaList.CommandRoundTrips | et-rs/src/proto.rs:194-295 | a command within the node limit encodes without panic, and the device reads back the same command |
| DmaList.HeaderOffsets | et-rs/src/proto.rs:75-96 | the size, tag, identifier and flags of an encoded command are in its first eight bytes, two each, and its nodes follow |
| DmaList.NodeOffsets | et-rs/src/proto.rs:98-132 | each node has its virtual, physical and device address and its size at offsets 0, 8, 16 and 24 of its 32 bytes |
| LittleEndian.EncodedByte | et-rs/src/proto.rs:194-215 | byte k of an encoded integer is its k-th least significant byte |
| DmaList.EncodableIff | et-rs/src/proto.rs:361-376 | the builders panic exactly on more nodes than the size field allows |
| Transport.VerdictIs | et-rs/src/device.rs:1522-1533 | an operation that stops at the first mishap ends well exactly if there is none, and otherwise with the error of the first: a queue that cannot be read or holds no response, a command not done in time, a truncated response, a bad status, a refused push, a buffer not mapped |
| Staging.AlignStagingCapacity | et-rs/src/device.rs:1816-1819 | the capacity is the largest positive multiple of twice the alignment not above what is asked for, or else one such quantum |
| Staging.Engine.TakeStaging | et-rs/src/device.rs:1295-1336 | yields one buffer that holds the whole transfer or two of at least half the capacity, the ones kept if they suffice, and never one that an unfinished command names; fails exactly if the transport does not map a buffer asked for |
| Staging.NextPowerIsLeast | et-rs/src/device.rs:1322-1326 | a replacement is asked for in the least power of two that holds what is required |
| Staging.Engine.Chunk | et-rs/src/device.rs:1821-1830 | the chunk is the length of the smallest buffer |
| Staging.Engine.Message | et-rs/src/device.rs:1461-1464 | the bytes of a command decode to its nodes, with the `BARRIER` flag and the right message identifier |
| Staging.Engine.PushStaged | et-rs/src/device.rs:1438-1509 | the nodes sent tile the range in order, none longer than the element limit, and the commands, no more than it takes, cover it one after the other; fails exactly if a push is refused, and then leaves a shorter prefix |
| Staging.Engine.Collect | et-rs/src/device.rs:1522-1533 | collecting the oldest command succeeds exactly if the device completed it with success by the deadline and its response arrives whole, reports its status exactly if all but the success is so, a timeout exactly if it was not completed, and otherwise the protocol or transport error; after an error that excludes it, nothing of it is in flight |
| Staging.Engine.AwaitDma | et-rs/src/device.rs:1511-1534 | collects the oldest commands in turn, in either order of draining, and succeeds exactly if each of them did; after a failure nothing is in flight that the error and `pending` do not tell of, unless it drained first a last chunk of several commands and one had a bad status |
| Staging.Engine.Produce | et-rs/src/buffer.rs:230-242 | the chunk about to be sent is staged, although a fill writes its pattern for the first two chunks only |
| Staging.Engine.H2dPipeline | et-rs/src/device.rs:1366-1398 | for every length, capacity, limit and schedule, it succeeds exactly if no push is refused and every command awaited succeeds; then nothing of the transfer is in flight, and all the data has landed unless a leftover command could spoil it |
| Staging.Engine.D2hPipeline | et-rs/src/device.rs:1400-1432 | for every length, capacity, limit and schedule, it succeeds exactly if no push is refused and every command awaited succeeds, and then returns exactly the bytes of the device range, unless a leftover command could spoil them |
| Staging.Engine.RestoreStaging | et-rs/src/device.rs:1338-1364 | buffers are leaked exactly when the transfer failed with commands left or possibly in flight; then, and otherwise if none is in flight, only leaked buffers are named by unfinished commands |
| Staging.Engine.H2dStaged | et-rs/src/device.rs:1226-1249 | succeeds exactly if no request to the transport meets with a mishap, and fails with the first; on success the range holds the data for good, unless a leftover command could spoil it; in any case nothing outside the range, no pinned buffer and no earlier command is disturbed, and buffers are leaked only if something may be in flight |
| Staging.Engine.MemcpyH2d | et-rs/src/device.rs:1199-1224 | an upload whose requests meet with no mishap leaves the device range equal to the source, the rest untouched, and the device ready for the next transfer; any other fails with the first error |
| Staging.Engine.Fill | et-rs/src/buffer.rs:211-243 | every byte of the region holds the value, whatever its size and the schedule, and the rest is untouched, if no request meets with a mishap; otherwise it fails with the first error |
| Staging.Engine.MemcpyD2h | et-rs/src/device.rs:1056-1103 | a download whose requests meet with no mishap returns exactly the device bytes, changes none of them, and leaves the device ready for the next transfer; any other fails with the first error |
| Staging.Engine.PinnedTransfer | et-rs/src/device.rs:1159-1197 | on success, which is exactly when no request meets with a mishap, buffer and range agree; the caller loses the buffer only on a failure with something possibly in flight; every other pinned buffer stays usable and unchanged; a foreign buffer is refused |
| Staging.RoundTrip | et-rs/src/device.rs:1056-1224 | what has been uploaded is what a download returns, on any two queues, unless a request meets with a mishap |
| Staging.UploadEach | et-rs/src/device.rs:1199-1224 | any number of uploads to disjoint ranges, on any queues, are all in place in the end, unless a request meets with a mishap |
| Staging.TryAgain | et-rs/src/device.rs:1199-1224 | an upload tried again on its own queue succeeds with the new data in place, however much of the first try is still in flight |
| Staging.PinnedRoundTrip | et-rs/src/device.rs:1104-1197 | the contents of one pinned buffer reach another by way of the device |
| LaunchArgs.RunKeepsShape | et-rs/src/device.rs:403-411 | under every schedule of bytes written, kernels and released tags the invariants of slots, tags, kernels and barriers are kept |
| LaunchArgs.ReusableIsIdle | et-rs/src/device.rs:702-734 | a slot whose owner is not outstanding is used by no unfinished command, so neither its region nor its host buffer is rewritten under one |
| LaunchArgs.LaunchSawItsArguments | et-rs/src/device.rs:868-911 | a kernel whose argument writes succeeded has found exactly its argument bytes at every read |
| LaunchArgs.BarrierHolds | et-rs/src/device.rs:835-843 | over all runs a launch requested with `BARRIER` can start, and has had any effect, only once every command before it on its queue is done |
| LaunchArgs.Launcher.ArgsSlot | et-rs/src/device.rs:702-734 | chooses the smallest reusable slot that fits, and a new one exactly when there is none; fails exactly if that cannot be had |
| LaunchArgs.Launcher.PushCommand | et-rs/src/device.rs:1555-1598 | pushes a command with a tag that was free, and fails, with nothing changed, exactly if no tag is free or the push is refused |
| LaunchArgs.Launcher.PushArgsDma | et-rs/src/device.rs:1720-1753 | stages the bytes, pushes writes that cover them, assigns the slot to the last one pushed, and leaves the commands already in flight alone |
| LaunchArgs.Launcher.LaunchAsync | et-rs/src/device.rs:823-935 | any number of launches, with or without `BARRIER`, and every failure on the way, keep the invariant and every launch already in flight as it was requested; each succeeds exactly if no request meets with a mishap, and is then a new command on the queue, with the flag and with the arguments requested |
| LaunchArgs.Launcher.WaitLaunch | et-rs/src/device.rs:937-971 | a wait succeeds exactly if the writes still to be collected and the kernel are all found to have succeeded; it means, however many launches were made since, that the kernel completed and saw exactly the bytes given, and with `BARRIER` that all before it on its queue is done |
| LaunchArgs.Launcher.Perform | et-rs/src/device.rs:825-971 | in any sequence of launches and waits every launch is a later command than the one before and is as requested, every wait that succeeds is for a kernel that has seen exactly its arguments, and each launch or wait succeeds exactly if it meets with no mishap |
| WorkSplit.TileHasOneOwner | et-k-rs/src/bin/sgemm.rs:90-116 | for all tile and shire counts each tile is taken by exactly one Minion |
| WorkSplit.UnitHasOneOwner | et-k-rs/src/bin/ps_math_test.rs:50-64 | for every non-empty shire mask, gaps included, each unit is processed by exactly one Minion |
| WorkSplit.GridStride | et-k-rs/src/bin/ps_math_test.rs:65-98 | the loop visits exactly the units of its Minion, each once |
| Gemm.Minion.Slice | et-k-rs/src/bin/sgemm.rs:150-202 | one k-slice adds exactly its terms to every sum of the tile, with both loads aligned and within the allocations of A and B |
| Gemm.Minion.ComputeTile | et-k-rs/src/bin/sgemm.rs:118-213 | every row of the tile, partial or not, is stored with the values of the product, aligned and within the allocation of C, whatever other Minions store meanwhile |
| Gemm.Minion.EntryPoint | et-k-rs/src/bin/sgemm.rs:60-116 | a primary hart of a launched shire stores all rows of all its tiles, each as a row of the product, and the companion harts none |
| Gemm.SliceAdds | et-k-rs/src/tensor.rs:448-451 | the tensor unit's partial sums over a slice are the next terms of the dot product |
| Gemm.TensorUnit.Fma32 | et-k-rs/src/tensor.rs:448-499 | accumulates, or with `mul_only` replaces, each element of the rows selected |
| Gemm.ProductInAnyOrder | et-k-rs/src/bin/sgemm.rs:203-226 | whatever the order of the row stores, C ends up as the product and nothing outside C changes |
| Gemm.KernelComputesProduct | et-k-rs/src/bin/sgemm.rs:60-226 | once every Minion has finished, C[i][j] is the sum over k of A[i][k] * B[k][j] for all i < M and j < N |
| GemmMachine.AnyScheduleComputesProduct | et-k-rs/src/bin/sgemm.rs:60-226 | in every interleaving of all Minions, once all have returned C is the product of A and B as they were at the launch, and at no time has anything outside C changed |
| GemmMachine.NoMinionFaults | et-k-rs/src/bin/sgemm.rs:150-226 | in every interleaving every tensor load and store is aligned and within the matrix it is meant for |
| GemmMachine.StoreStoresRow | et-k-rs/src/bin/sgemm.rs:203-211 | whatever the others have stored meanwhile, each store of a Minion is that of a row of the product |
| GemmMachine.LaunchCanEnd | et-k-rs/src/bin/sgemm.rs:105-116 | from wherever an interleaving has led, all Minions can still return |
| Blas.AllocMatrix | et-rs/src/blas.rs:133-166 | the stride is the row size rounded up to 64 bytes, and the region holds all padded rows |
| Blas.AcceptedIsValid | et-rs/src/blas.rs:215-281 | arguments that `sgemm` accepts, for matrices allocated apart, are what the kernel assumes |
| Blas.AllocatedIsAccepted | et-rs/src/blas.rs:215-296 | matrices from `alloc_tensor_matrix`, on shires that exist, are accepted |
| Blas.SgemmComputesProduct | et-rs/src/blas.rs:176-296 | with arguments that `sgemm` accepts, on matrices allocated apart, every schedule of the Minions ends with alpha * A * B + beta * C in C |
| Spsc.RingIsFifo | et-k-rs/src/bin/spsc.rs:100-192 | from every clean start, in every interleaving, for any number of items and with wrapping indices, reads are the items in order and the items in flight number from 0 to the capacity |
| Spsc.FifoIff | et-k-rs/src/bin/spsc.rs:100-192 | the ring is a queue for all its contents and all schedules if and only if at the start the sentinel is not there or the tail is zero |
| Spsc.StaleWordIsRead | et-k-rs/src/bin/spsc.rs:155-192 | otherwise the consumer can take a stale word for the first item |
| Spsc.RelaunchIsUnclean | et-k-rs/src/bin/spsc.rs:100-153 | a launch that has sent all its items leaves the memory unfit for another, unless their number wraps to zero |
| Spsc.NoSlotIsOverwrittenUnread | et-k-rs/src/bin/spsc.rs:108-137 | when the producer writes a slot, every item in it has been read |
| Spsc.ConsumerPassesIffNoTimeout | et-k-rs/src/bin/spsc.rs:155-215 | the consumer reports PASS exactly when it has not timed out |
| Spsc.TimesOutIff | et-k-rs/src/bin/spsc.rs:113-190 | in every interleaving, on any memory, a hart gives up exactly when it has polled more than the limit in a row and found nothing |
| Spsc.SomeoneCanMove | et-k-rs/src/bin/spsc.rs:108-175 | without a timeout the two harts are never both stuck |
| Elf.Parse | et-rs/src/elf.rs:43-147 | accepts exactly the well-formed images, and returns their entry point and loadable segments in order |
| ElfFormat.ReadBack | et-rs/src/elf.rs:44-147 | a file whose header and program headers are laid out field by field as the System V ABI has it is parsed exactly if it is little-endian ELF64 for RISC-V, its table and all LOAD segments lie within it, none is smaller in memory, overflows or shares an address with another, and the entry point is in one of them; the result is the entry point and the LOAD entries written, in order |
| ElfFormat.WellFormedIff | et-rs/src/elf.rs:44-147 | the checks on the parsed segments are these conditions on what was written |
| Elf.RejectedForGood | et-rs/src/elf.rs:96-135 | a segment that fails its checks makes the image ill-formed, whatever follows |
| Allocator.DramAllocator.Alloc | et-rs/src/device.rs:636-660 | returns the first aligned place at or beyond the position that has room and moves the position to its end, and fails, changing nothing, only if there is none |
| Allocator.BumpIsFirstFit | et-rs/src/device.rs:646-660 | the same of the function that the histories are made of |
| Allocator.HistoriesAreSound | et-rs/src/device.rs:646-700 | over all histories the positions stay in order, live regions are disjoint, aligned and in DRAM, and those allocated since the last load lie above every image |
| Allocator.NextKeepsInv | et-rs/src/device.rs:664-700 | every allocation, mark, nested reset and load keeps the invariant, and the kernel end never decreases |
| Allocator.ResetReclaims | et-rs/src/device.rs:660-683 | whatever happens after a mark, a reset to it leaves live what was live at the mark and nothing else, and the position where it was then, unless a kernel loaded since ends beyond it |
| Allocator.ReserveIsLeast | et-rs/src/device.rs:806-810 | a load reserves up to the first aligned place, or the end of DRAM, beyond every segment and every earlier kernel, and no further |
| Allocator.LoadableIff | et-rs/src/device.rs:769-791 | a segment is accepted exactly if it lies in DRAM and has no address between the last kernel's end and the position, or, with nothing allocated there, does not straddle that point |
| Allocator.LoadSparesLiveRegions | et-rs/src/device.rs:765-791 | an accepted segment overlaps no region allocated since the load before |
| Allocator.KernelAboveARegion | et-rs/src/device.rs:769-791 | a live region may lie below a kernel image |
| Allocator.AboveTheImageIff | et-rs/src/device.rs:769-791 | a load keeps the regions since the last one above its image exactly when no segment starts at or beyond the allocator's position |
| Loader.KernelLoader.LoadKernel | et-rs/src/device.rs:756-815 | fails validation exactly when the image is not acceptable, and then writes nothing; otherwise fails exactly with the first error of its transfers; on success every segment that no leftover command could spoil holds its file bytes then zeros for good, and the image is reserved; never is anything outside the segments disturbed, and the next kernel can be loaded |
| Loader.KernelLoader.LoadSegment | et-rs/src/device.rs:793-806 | file bytes then zeros, in chunks, and nothing outside the segment, unless a request meets with a mishap |
| Loader.LoadedIsInPlace | et-rs/src/device.rs:793-806 | each byte of a loaded segment is, at its address, the byte of the file, or zero beyond the file size |
| Loader.LiveRegionsAreSpared | et-rs/src/device.rs:747-755 | loading touches no byte of a region allocated since the previous load |
| Loader.LoadBoth | et-rs/src/device.rs:749-755 | two kernels are loaded exactly if both pass the checks and no request meets with a mishap, and the first stays in place if their segments are apart |
| Trace.ParseHeader | et-rs/src/trace.rs:100-127 | a header is accepted exactly for the right length, magic and compatible version |
| Trace.HeaderRoundTrips | et-rs/src/trace.rs:100-127 | the sizes and the count put into a header of a compatible version are those read from it |
| Trace.CollectSegments | et-rs/src/trace.rs:154-194 | the loop that stops early finds every populated partition, all in bounds |
| Trace.Entries.Next | et-rs/src/trace.rs:216-256 | terminates, reads in bounds, and yields the first entry that remains, or ends when none does |
| Trace.DecodeAll | et-rs/src/trace.rs:134-142 | iteration yields the concatenation of the partitions' independent decodings |
| Trace.CorruptionStaysInside | et-rs/src/trace.rs:236-244 | corrupting one partition leaves the entries of all others as they were, in their places |
| Trace.CorruptionSparesWhatPrecedes | et-rs/src/trace.rs:236-244 | a partition keeps every entry that ends before its first corrupt byte |
| TraceWriter.HartTrace.TraceStr | et-k-rs/src/lib.rs:183-221 | the header fields and the byte loop write one whole entry, or nothing if it does not fit |
| TraceWriter.FitsIff | et-k-rs/src/lib.rs:183-194 | a payload is the smallest multiple of 8 that takes its text and a NUL, up to 512, and an entry is dropped exactly if tracing is off or no such payload has room |
| TraceWriter.WrittenEntry | et-k-rs/src/lib.rs:195-221 | the cycle, payload size, hart and type of the entry just written are at offsets 0, 8, 12 and 14, and the decoder reads it back |
| TraceWriter.PayloadReadsBack | et-rs/src/trace.rs:411-418 | a payload reads back as the first 511 bytes of its text, up to any NUL |
| TraceWriter.TextsReadBack | et-k-rs/src/lib.rs:173-221 | after any sequence of calls the string entries are, in order, the hart and text of each call that fitted |
| TraceWriter.NothingIsLost | et-k-rs/src/lib.rs:173-221 | texts of up to 511 bytes without NULs, while there is room, are all read back whole |
| TraceRoundTrip.AllTextsReadBack | et-rs/src/trace.rs:134-194 | from a buffer that any number of harts have written, the decoder reads the texts of every hart, partition after partition, in the order of their writing |
| TraceRoundTrip.ReadTexts | et-rs/src/trace.rs:144-152 | `string_entries` yields just these, as hart and text |
| Reduce.RangesPartition | et-k-rs/src/lib.rs:322-338 | the slices are contiguous from 0 to n and differ in length by at most one |
| Reduce.ElementHasOneHart | et-k-rs/src/lib.rs:322-338 | every element belongs to exactly one hart |
| Reduce.Partial | et-k-rs/src/bin/reduce.rs:44-49 | a hart's 64-bit sum of its slice never wraps |
| Reduce.Reduce | et-rs/examples/reduce.rs:122-124 | the wrapping sum of all partials is the exact sum of any array of fewer than 2^32 elements |

## Left out

- Staging.Engine.H2dStaged: says nothing of data that a leftover command could spoil, and the next transfer may rely on the state it leaves unless `drainFirst` has met a bad status in a transfer longer than one command; both are exact at the level of commands (`DmaExact.UploadLandsIff`, `DrainFirst.DrainingFirstKeepsIdleIff`). The same holds of MemcpyD2h, Fill and PinnedTransfer.
- Staging.Engine.RestoreStaging: as the code drains its tags, what is leaked need not contain the unfinished commands of a last chunk of several; see the first of the five results.
- Loader.KernelLoader.LoadKernel: conditional in the same two ways.
- Staging.Engine.PushStaged: takes a command as moving its contiguous range at any time; that its nodes tile that range is stated beside it. Address ranges are assumed not to wrap.
- LaunchArgs.Launcher.PushArgsDma: the writes of one argument block may be split anywhere; how the limits split them is the subject of Staging.Engine.PushStaged. The host buffer is mapped when the slot is made rather than on first use.
- Transport.VerdictIs: a buffer that cannot be mapped is taken for an I/O error, and a queue that holds something other than a response ends a wait at once; what such a response was an answer to stays unanswered.
- Elf.Parse: says which images are rejected, not with which message.
- LaunchArgs.Launcher.LaunchAsync: what a failed launch or wait abandons is released by a late response at any time, as one of the device's own steps; the tables of abandoned tags are the subject of Driver.
- LaunchArgs.Launcher.WaitLaunch: excludes `reset_to` across a launch in flight, which the driver's documentation forbids.
- GemmMachine.AnyScheduleComputesProduct: exact integers in place of `f32`, and C allocated apart from A and B; rounding is decided by the hardware. Interleaving is at the granularity of one 64-byte row loaded or stored, on coherent memory; tensor loads and stores complete in program order.
- Channel.ChannelProgresses: absence of deadlock, not a bound on time.
- Spsc.RingIsFifo: coherent memory only; the repository claims nothing for hardware where fences alone do not propagate.
- TraceRoundTrip.AllTextsReadBack: the sizes that the firmware records in the headers are taken to be the writers' offsets.
- Transports, foreign calls, bindings and build scripts; wall-clock time, back-off and device resets; PMU counters, SIMD dispatch, tensor send and receive, and the 16-bit and 8-bit kernels; bit encodings of the tensor instructions.
- The sample and header stores of the channel benchmark; kernel-launch and reset command layouts; `MsgBuf` formatting; UTF-8 conversion of trace text, and the typed views of trace entries other than strings.
- Stale allocation marks, resets with live users, and regions older than the latest kernel load, which the documentation leaves to the caller.
