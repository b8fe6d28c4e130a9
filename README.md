# q3kled: a Dafny model of the LED-panel DMA driver

`led.c` is a Linux kernel module that streams a 128×128 test image to an LED
panel over a Xilinx DMA channel. It picks the channel with a filter
predicate, allocates a coherent buffer on that channel's device, seeds the
buffer with an XOR pattern, and starts a kernel thread. That thread loops
forever: prepare a descriptor, submit, issue, wait, sleep one second. On
unload the module stops the thread, queries the last cookie's status,
releases the channel and frees the buffer.

This project models those parts. Every kernel call becomes an abstract
outcome taken as input, plus an entry in an event log (`Dma.Event`).

- `config.dfy` (`LedConfig`): the constants of led.c:11-16, the C integer
  widths, the errno values, and `PAGE_ALIGN` with 4 KiB pages.
- `dma.dfy` (`Dma`): channel handles, descriptors, cookies, and the event
  log of kernel calls.
- `filter.dfy` (`ChannelFilter`): `led_dma_filter` as a method with its
  counting loop. It is proved equal to a closed-form predicate `Accepts`.
  `strncmp`/`strlen` are modelled on C strings and proved to be a prefix
  test.
- `seed.dfy` (`BufferSeed`): `init_buffer` as nested loops over an `array`.
  It is proved against `Seeded`, a function of the old contents. The written
  offsets are logged and shown to be each pixel's first byte, once each.
- `worker.dfy` (`Worker`): the specification of `transmit`, driven by a
  script of `Tick`s. Each tick says whether a stop is requested at the loop
  top, whether descriptor prep succeeds, and what cookie submit returns.
  It gives closed forms for the exit code, the calls made and the final
  `tx_cookie`, and lemmas about them.
- `lifecycle.dfy` (`Lifecycle`): the class `LedModule`, with the fields
  `tx_chan`, `tx_buffer`, `tx_buffer_phy`, `tx_cookie` and `task`, and the
  methods `Init` (`led_init`), `Transmit` (`transmit`) and `Exit`
  (`led_exit`). It also holds pure descriptions of the logs those methods
  append, and whole-session lemmas about ordering, unwinding and
  exactly-once release.

Where the code does something other than what the driver's purpose
suggests, the model follows the code:

- The driver check is a prefix match (`strncmp` over `strlen("xilinx-dma")`),
  not an exact match. `ChannelFilter.StrnEqualIsPrefix` proves this, and
  `ChannelFilter.DriverCheckExamples` shows that "xilinx-dma-v2" passes.
- The descriptor direction is `DMA_DEV_TO_MEM`, as written
  (`Worker.EveryPrepIsFullFrame`).
- The pacing sleep is `msleep(1000)`, which cannot be interrupted. A stop is
  seen only at the top of the loop.
- The worker's return code is not reported anywhere: `kthread_stop`'s
  result is discarded. `Exit` logs `Stop` and nothing else.
- `kthread_run` is treated as always succeeding, because its result is
  never checked.
- `led_exit` frees the buffer through `tx_chan->device->dev` after
  `dma_release_channel(tx_chan)`. The log records a `Free` of the
  already-released channel, and `Lifecycle.SessionOrder` states that order.
  It is not corrected.

## Model

| member | source | states |
|---|---|---|
| LedConfig.PageAlign | led.c:128 | `PAGE_ALIGN` gives a multiple of the page size that is at least its argument and less than one page above it |
| LedConfig.FrameIsPageAligned | led.c:14-16 | `BUFFER_SIZE` is 128·128·4 = 65536, and `PAGE_ALIGN(BUFFER_SIZE)` equals it |
| LedConfig.ToChar | led.c:69 | storing an `int` into a `char` cell keeps every value below 256 unchanged |
| ChannelFilter.CStrLen | led.c:27 | `strlen` is the index of the first NUL: no NUL before it, and a NUL or the end at it |
| ChannelFilter.StrnEqualFrom | led.c:27 | `strncmp(a + i, b + i, n - i) == 0` holds exactly when, at every index from `i` below `n` not preceded by a NUL in `a`, the two strings hold the same byte; it stops at the first difference or at a common NUL, and reads NUL past a string's end |
| ChannelFilter.StrnEqualIsPrefix | led.c:27 | for a NUL-free pattern, `strncmp(name, pat, strlen(pat)) == 0` holds exactly when `name` begins with `pat` |
| ChannelFilter.LedDriverIsCString | led.c:11 | "xilinx-dma" has no NUL and `strlen` gives 10 |
| ChannelFilter.LedDmaFilter | led.c:18-58 | the filter returns true exactly when the name begins with "xilinx-dma", the channel device and the node are present, there is exactly one child, and that child's readable id is 0; the result does not depend on the uninitialised `device_id` |
| ChannelFilter.RejectsUnlessOneChild | led.c:48-50 | a node with zero children or more than one is rejected |
| ChannelFilter.DriverCheckExamples | led.c:27-57 | accepts a longer name starting with "xilinx-dma"; rejects a shorter name, a missing id and a wrong id |
| BufferSeed.XorBit | led.c:69 | each bit of `Xor(a, b)` is the two operands' bits summed modulo 2, so `Xor` is C's `^` on non-negative ints |
| BufferSeed.XorIdentities | led.c:69 | `a ^ a == 0`, `a ^ 0 == a` and `0 ^ a == a` |
| BufferSeed.XorBelow | led.c:69 | the XOR of two `k`-bit values is a `k`-bit value |
| BufferSeed.XorOfCoordinates | led.c:69 | for coordinates on the panel, `x ^ y` is below 128, so the `char` store keeps it exactly |
| BufferSeed.PixelCoordinates | led.c:69 | the index `y*LED_YRES*4 + x*4` is below `BUFFER_SIZE` and divisible by 4, and its column and row are `x` and `y` |
| BufferSeed.PixelByteDecomposes | led.c:67-70 | every offset below `BUFFER_SIZE` that is divisible by 4 is the index of exactly the pixel at its column and row |
| BufferSeed.Seeded | led.c:64-72 | the buffer contents after seeding have the same length as before |
| BufferSeed.SeedPattern | led.c:67-70 | after seeding, byte 0 of pixel (x, y) is `x ^ y`, lies below `BUFFER_SIZE`, and is below 128 |
| BufferSeed.SeedKeepsOtherBytes | led.c:69 | every byte at an offset not divisible by 4, or at or past `BUFFER_SIZE`, keeps its previous value |
| BufferSeed.WriteOrderIsExact | led.c:67-71 | the loops write 128·128 offsets, all different, each a pixel's first byte, and every pixel's first byte among them |
| BufferSeed.InitBuffer | led.c:64-72 | the buffer becomes `Seeded` of its old contents, and the offsets written, in order, are exactly `WriteOrder` |
| Worker.Lead | led.c:84-100 | the number of leading passes that complete: all of them complete, and the next one, if any, does not |
| Worker.LeadUnique | led.c:84-100 | any index that ends the leading run of completed passes is that number |
| Worker.CyclesAt | led.c:89-106 | completed pass `i` makes calls `5i` to `5i+4`: prep the descriptor, submit it, issue, wait on that same cookie, sleep 1000 ms |
| Worker.CyclesSubmitInOrder | led.c:96 | completed passes submit once each, in order, and each submit carries that pass's cookie |
| Worker.ExitZeroIff | led.c:84-110 | `transmit` returns 0 exactly when it sees the stop request at the top of a pass and every earlier pass completed |
| Worker.ExitBusyIff | led.c:90-100 | `transmit` returns -EBUSY exactly when, after completed passes, a pass not asked to stop has a failed prep or a submit error |
| Worker.NothingAfterFailure | led.c:90-100 | a failed prep or a submit error is the worker's last call: no submit follows a failed prep, no issue or wait follows a rejected submit, and no new pass starts; an -EBUSY exit always ends on such a failure |
| Worker.EveryPrepIsFullFrame | led.c:86-102 | every prep asks `tx_chan` for `BUFFER_SIZE` bytes at the buffer's bus address, with `DMA_DEV_TO_MEM` and ACK and INTERRUPT, and every issue is on `tx_chan` too |
| Worker.FinalCookieIsLastSubmit | led.c:96 | `tx_cookie` ends as the last submitted cookie, or keeps its old value when nothing was submitted |
| Lifecycle.InitOutcomes | led.c:122-141 | a failed channel request gives -ENODEV with nothing held; a failed allocation gives -ENOMEM after one release, with nothing held; 0 means channel, buffer and task are all held; a held buffer always comes with a held channel |
| Lifecycle.FailedInitExitIsNoop | led.c:149-159 | after a failed `led_init`, `led_exit` makes no call at all |
| Lifecycle.ExitOrder | led.c:149-159 | `led_exit` makes stop, status, release and free in that order, each at most once and only for a held resource; the status query happens exactly when `tx_chan` is held, and asks that channel about `tx_cookie` |
| Lifecycle.SessionReleasesOnce | led.c:122-159 | across init, worker and exit, the channel is released exactly once if it was acquired and never otherwise; buffer alloc and free, and worker spawn and stop, each happen exactly once if init succeeded and never otherwise |
| Lifecycle.SessionOrder | led.c:89-158 | every worker call lies between spawn and stop, and before any release or free; every prep and every issue names a channel that an earlier request returned and a later release gives back; every free is of `PAGE_ALIGN(BUFFER_SIZE)` bytes on the channel's own device, uses the channel, device and size of an earlier successful alloc, and follows that channel's release |
| Lifecycle.SpawnedOrder | led.c:149-158 | after a successful init, the session log ends with stop, the status query on the channel for the final `tx_cookie`, release, and then a free through the released channel's device |
| Lifecycle.LedModule.constructor | led.c:60-62 | at load, every global is NULL or zero and no call has been made: `tx_buffer`, `tx_buffer_phy` and `tx_cookie` here, and likewise `tx_chan` (led.c:79) and `task` (led.c:113) |
| Lifecycle.LedModule.Init | led.c:115-142 | returns the init code, leaves the globals as `InitHeld`, appends `InitEvents`; on success the buffer is fresh, `PAGE_ALIGN(BUFFER_SIZE)` long and seeded |
| Lifecycle.LedModule.Transmit | led.c:82-111 | returns `WorkerExit`, appends `WorkerEvents` for the descriptor of `tx_chan` and the buffer, leaves `tx_cookie` as `FinalCookie`, and keeps the globals consistent |
| Lifecycle.LedModule.Exit | led.c:144-160 | appends `ExitEvents` of the globals as they are, changes no global, and keeps them consistent |
| Lifecycle.LoadAndUnload | led.c:162-163 | one load and unload produces `SessionTrace`; the channel is released once if acquired, and the buffer is freed once exactly when init returned 0 |

## Left out

- The DMA-engine and coherent-memory kernel API (`dma_request_channel`,
  `dma_alloc_coherent`, `dmaengine_prep_slave_single`, `dmaengine_submit`,
  `dma_async_issue_pending`, `dma_wait_for_async_tx`, `dmaengine_tx_status`,
  `dma_release_channel`, `dma_free_coherent`). These are foreign calls. Each
  is an input outcome and a log event. The capability mask passed to
  `dma_request_channel` (led.c:119-120) is not modelled, and neither is how
  the registry calls the filter on each channel.
- Threads. `kthread_run`, `kthread_should_stop` and `kthread_stop` are
  concurrency. The worker runs as a sequential method between `Init` and
  `Exit`, with stop requests as script inputs. `Exit` logs `Stop` as the
  point where the worker has exited. Interleavings are not modelled,
  including a worker that returns on its own before `kthread_stop`.
- Timing. `msleep(1000)` is only logged, as `Sleep(1000)` (led.c:106).
- Effect-free calls: `smp_wmb()` (led.c:138), all `printk`/`pr_err`
  logging, and `axidma_sync_callback` (led.c:74-77). The callback only logs,
  so assigning it to the descriptor (led.c:95) is not logged. The unused
  global `chan_desc` (led.c:80) is shadowed by the loop's local and is not
  modelled.
- Device-tree traversal (`for_each_child_of_node`,
  `of_property_read_u32`). The children are a sequence of optional ids.
- `dma_submit_error` (led.c:97) is a DMA-engine helper taken as the kernel
  defines it: a negative cookie is a rejected submission
  (`Dma.SubmitError`). What the worker does after a rejected submission is
  stated by `Worker.ExitBusyIff` and `Worker.NothingAfterFailure`.
- `Worker` scripts are finite. When a script runs out while the loop is
  still going, the result is `StillRunning`. Endless runs are not modelled.
- `channel_count` overflow (a C `int`) is not modelled. It would need more
  than 2^31 child nodes.
- Lifecycle.LedModule.Init: on a failed allocation the model leaves
  `tx_buffer_phy` unchanged. The kernel does not promise what it writes there
  on failure, and nothing reads it afterwards.
- The frame-buffer front-end that shares the same memory is not part of this
  model.
