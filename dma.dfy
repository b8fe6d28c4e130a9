/** The driver's view of the DMA-engine API: channel handles, descriptors,
    cookies, and the log of every foreign call the module makes.  The kernel
    functions themselves are not modelled; each call appears as one event. */
module Dma {
  import opened LedConfig

  datatype Option<T> = None | Some(value: T)

  /** The `struct device` a channel belongs to (`chan->device->dev`). */
  datatype Device = Device(id: nat)

  /** A `struct dma_chan *` handed out by `dma_request_channel`. */
  datatype Chan = Chan(id: nat, owner: Device)

  datatype Direction = MemToDev | DevToMem

  datatype CtrlFlag = CtrlAck | PrepInterrupt

  /** The arguments of one `dmaengine_prep_slave_single` call. */
  datatype Descriptor = Descriptor(chan: Chan, addr: u32, len: nat, dir: Direction, flags: set<CtrlFlag>)

  /** `dma_submit_error`: a negative cookie reports a rejected submission. */
  predicate SubmitError(cookie: s32) {
    cookie < 0
  }

  /** One call into the kernel, in the order the module makes it. */
  datatype Event =
    | Request(got: Option<Chan>)                     // dma_request_channel
    | Alloc(chan: Chan, dev: Device, size: nat, ok: bool)     // dma_alloc_coherent on chan->device->dev
    | Spawn                                          // kthread_run(transmit)
    | Prep(desc: Descriptor, ok: bool)               // dmaengine_prep_slave_single
    | Submit(cookie: s32)                            // dmaengine_submit
    | IssuePending(chan: Chan)                       // dma_async_issue_pending
    | WaitTx(cookie: s32)                            // dma_wait_for_async_tx on that descriptor
    | Sleep(ms: nat)                                 // msleep
    | Stop                                           // kthread_stop: the worker has exited
    | Status(chan: Chan, cookie: s32)                // dmaengine_tx_status
    | Release(chan: Chan)                            // dma_release_channel
    | Free(chan: Chan, dev: Device, size: nat, addr: u32)     // dma_free_coherent on chan->device->dev

  /** Calls made by the transfer worker, as opposed to the load/unload path. */
  predicate IsWorkerEvent(e: Event) {
    e.Prep? || e.Submit? || e.IssuePending? || e.WaitTx? || e.Sleep?
  }

  /** A call that reports that the worker cannot go on. */
  predicate IsFailure(e: Event) {
    (e.Prep? && !e.ok) || (e.Submit? && SubmitError(e.cookie))
  }
}
