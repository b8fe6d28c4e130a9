/** The module's globals and the code that changes them: `led_init`
    (led.c:115-142), the worker `transmit` (led.c:82-111) and `led_exit`
    (led.c:144-160).  Each kernel call is an input outcome and an entry in
    `log`. */
module Lifecycle {
  import opened LedConfig
  import opened Dma
  import opened BufferSeed
  import opened Worker

  /** What `dma_alloc_coherent` answers: NULL, or the bus address and the
      initial contents of the new region. */
  datatype AllocOutcome = AllocFailed | Allocated(addr: u32, contents: seq<byte>)

  /** Which globals hold a resource: `tx_chan`, `tx_buffer != NULL`, `task != NULL`. */
  datatype Held = Held(chan: Option<Chan>, buffer: bool, task: bool)

  /** A buffer is only held with its channel, and the worker only with its buffer. */
  predicate Consistent(h: Held) {
    (h.buffer ==> h.chan.Some?) && (h.task ==> h.buffer)
  }

  /** Both `dma_alloc_coherent` and `dma_free_coherent` are given this size. */
  const AllocSize: nat := PageAlign(BufferSize)

  datatype Phase = Loaded | Initialised | Unloaded

  function InitCode(request: Option<Chan>, alloc: AllocOutcome): int {
    if request.None? then -ENoDev
    else if alloc.AllocFailed? then -ENoMem
    else 0
  }

  /** The globals after `led_init`. */
  function InitHeld(request: Option<Chan>, alloc: AllocOutcome): Held {
    if request.None? || alloc.AllocFailed? then Held(None, false, false)
    else Held(request, true, true)
  }

  /** The calls `led_init` makes. */
  function InitEvents(request: Option<Chan>, alloc: AllocOutcome): seq<Event> {
    [Request(request)] +
    match request
    case None => []
    case Some(ch) =>
      [Alloc(ch, ch.owner, AllocSize, alloc.Allocated?)] + (if alloc.AllocFailed? then [Release(ch)] else [Spawn])
  }

  /** The calls `led_exit` makes, each guarded by its global.  The buffer is
      freed through `tx_chan->device->dev` after the channel is released. */
  function ExitEvents(h: Held, cookie: s32, addr: u32): seq<Event>
    requires Consistent(h)
  {
    (if h.task then [Stop] else []) +
    (if h.chan.Some? then [Status(h.chan.value, cookie), Release(h.chan.value)] else []) +
    (if h.buffer then [Free(h.chan.value, h.chan.value.owner, AllocSize, addr)] else [])
  }

  /** `led_init`'s three outcomes. */
  lemma InitOutcomes(request: Option<Chan>, alloc: AllocOutcome)
    ensures Consistent(InitHeld(request, alloc))
    ensures InitCode(request, alloc) == -ENoDev <==> request.None?
    ensures InitCode(request, alloc) == -ENoDev ==>
      InitHeld(request, alloc) == Held(None, false, false) && InitEvents(request, alloc) == [Request(None)]
    ensures InitCode(request, alloc) == -ENoMem <==> request.Some? && alloc.AllocFailed?
    ensures InitCode(request, alloc) == -ENoMem ==>
      InitHeld(request, alloc) == Held(None, false, false) &&
      InitEvents(request, alloc) ==
        [Request(request), Alloc(request.value, request.value.owner, AllocSize, false), Release(request.value)]
    ensures InitCode(request, alloc) == 0 <==> InitHeld(request, alloc) == Held(request, true, true)
  {
  }

  /** What `led_exit` does after a failed `led_init`: nothing. */
  lemma FailedInitExitIsNoop(request: Option<Chan>, alloc: AllocOutcome, cookie: s32, addr: u32)
    requires InitCode(request, alloc) != 0
    ensures Consistent(InitHeld(request, alloc))
    ensures ExitEvents(InitHeld(request, alloc), cookie, addr) == []
  {
  }

  /** The order of teardown: 0 stop, 1 status, 2 release, 3 free. */
  function ExitRank(e: Event): nat {
    match e
    case Stop => 0
    case Status(_, _) => 1
    case Release(_) => 2
    case Free(_, _, _, _) => 3
    case _ => 4
  }

  /** `led_exit` stops the worker before it queries the status and releases
      the channel, and frees the buffer last; each step happens at most
      once, and only for a held resource. */
  lemma ExitOrder(h: Held, cookie: s32, addr: u32)
    requires Consistent(h)
    ensures var e := ExitEvents(h, cookie, addr);
      forall i, j :: 0 <= i < j < |e| ==> ExitRank(e[i]) < ExitRank(e[j])
    ensures var e := ExitEvents(h, cookie, addr);
      forall i :: 0 <= i < |e| ==> ExitRank(e[i]) < 4
    ensures var e := ExitEvents(h, cookie, addr);
      (h.task <==> Stop in e) &&
      (h.chan.Some? ==> Status(h.chan.value, cookie) in e) &&
      (forall i :: 0 <= i < |e| && e[i].Status? ==> h.chan == Some(e[i].chan) && e[i].cookie == cookie) &&
      (h.chan.Some? ==> Release(h.chan.value) in e) &&
      (h.buffer ==> Free(h.chan.value, h.chan.value.owner, AllocSize, addr) in e) &&
      (forall i :: 0 <= i < |e| && e[i].Release? ==> h.chan == Some(e[i].chan)) &&
      (forall i :: 0 <= i < |e| && e[i].Free? ==> h.buffer)
  {
  }

  /** `tx_buffer_phy` after `led_init`. */
  function BufferAddr(alloc: AllocOutcome): u32 {
    if alloc.Allocated? then alloc.addr else 0
  }

  /** The log of one load and unload of the module: `led_init`, the worker
      running `script` when it was started, and `led_exit`. */
  function SessionTrace(request: Option<Chan>, alloc: AllocOutcome, script: seq<Tick>): seq<Event> {
    var h := InitHeld(request, alloc);
    var addr := BufferAddr(alloc);
    var worker := if h.task then WorkerEvents(script, FrameDescriptor(request.value, addr)) else [];
    var cookie := if h.task then FinalCookie(script, 0) else 0;
    InitEvents(request, alloc) + worker + ExitEvents(h, cookie, addr)
  }

  /** The resource steps of the lifecycle. */
  datatype Action = ReleaseChannel | AllocateBuffer | FreeBuffer | SpawnWorker | StopWorker | NoAction

  function ActionOf(e: Event): Action {
    match e
    case Release(_) => ReleaseChannel
    case Alloc(_, _, _, ok) => if ok then AllocateBuffer else NoAction
    case Free(_, _, _, _) => FreeBuffer
    case Spawn => SpawnWorker
    case Stop => StopWorker
    case _ => NoAction
  }

  /** Step `a` occurs in `t` once when `b` holds, and never otherwise. */
  ghost predicate OnceIf(t: seq<Event>, a: Action, b: bool) {
    (b <==> exists i :: 0 <= i < |t| && ActionOf(t[i]) == a) &&
    forall i, j :: 0 <= i < |t| && 0 <= j < |t| && ActionOf(t[i]) == a && ActionOf(t[j]) == a ==> i == j
  }

  /** The session log, once the worker was started: `led_init`'s three
      calls, the worker's, then `led_exit`'s four. */
  lemma SpawnedShape(ch: Chan, addr: u32, contents: seq<byte>, script: seq<Tick>)
    ensures var t := SessionTrace(Some(ch), Allocated(addr, contents), script);
      var worker := WorkerEvents(script, FrameDescriptor(ch, addr));
      var n := |worker|;
      var tail := [Stop, Status(ch, FinalCookie(script, 0)), Release(ch), Free(ch, ch.owner, AllocSize, addr)];
      |t| == n + 7 &&
      t[0] == Request(Some(ch)) && t[1] == Alloc(ch, ch.owner, AllocSize, true) && t[2] == Spawn &&
      (forall i :: 3 <= i < n + 3 ==> t[i] == worker[i - 3] && IsWorkerEvent(t[i])) &&
      (forall i :: n + 3 <= i < n + 7 ==> t[i] == tail[i - n - 3])
  {
    var t := SessionTrace(Some(ch), Allocated(addr, contents), script);
    var worker := WorkerEvents(script, FrameDescriptor(ch, addr));
    NothingAfterFailure(script, FrameDescriptor(ch, addr));
    var head := [Request(Some(ch)), Alloc(ch, ch.owner, AllocSize, true), Spawn];
    var tail := [Stop, Status(ch, FinalCookie(script, 0)), Release(ch), Free(ch, ch.owner, AllocSize, addr)];
    assert t == head + worker + tail;
  }

  /** Over a whole session, the channel is released exactly once when it was
      acquired (by `led_init`'s unwinding or by `led_exit`, never both), the
      buffer is allocated and freed exactly once when `led_init` succeeds
      and never otherwise, and the worker is spawned and stopped exactly
      once in the same case. */
  lemma SessionReleasesOnce(request: Option<Chan>, alloc: AllocOutcome, script: seq<Tick>)
    ensures OnceIf(SessionTrace(request, alloc, script), ReleaseChannel, request.Some?)
    ensures OnceIf(SessionTrace(request, alloc, script), AllocateBuffer,
      InitCode(request, alloc) == 0)
    ensures OnceIf(SessionTrace(request, alloc, script), FreeBuffer,
      InitCode(request, alloc) == 0)
    ensures OnceIf(SessionTrace(request, alloc, script), SpawnWorker,
      InitCode(request, alloc) == 0)
    ensures OnceIf(SessionTrace(request, alloc, script), StopWorker,
      InitCode(request, alloc) == 0)
  {
    if InitHeld(request, alloc).task {
      SpawnedReleasesOnce(request.value, alloc.addr, alloc.contents, script);
    } else if request.Some? {
      var t := SessionTrace(request, alloc, script);
      assert t == [Request(request), Alloc(request.value, request.value.owner, AllocSize, false), Release(request.value)];
      assert ActionOf(t[2]) == ReleaseChannel;
    } else {
      var t := SessionTrace(request, alloc, script);
      assert t == [Request(None)];
    }
  }

  /** The step taken at index `i` of a session log holding `n` worker calls. */
  function SpawnedActionAt(i: nat, n: nat): Action {
    if i == 1 then AllocateBuffer
    else if i == 2 then SpawnWorker
    else if i == n + 3 then StopWorker
    else if i == n + 5 then ReleaseChannel
    else if i == n + 6 then FreeBuffer
    else NoAction
  }

  lemma SpawnedActions(ch: Chan, addr: u32, contents: seq<byte>, script: seq<Tick>)
    ensures var t := SessionTrace(Some(ch), Allocated(addr, contents), script);
      |t| >= 7 && forall i :: 0 <= i < |t| ==> ActionOf(t[i]) == SpawnedActionAt(i, |t| - 7)
  {
    var t := SessionTrace(Some(ch), Allocated(addr, contents), script);
    SpawnedShape(ch, addr, contents, script);
    var n := |t| - 7;
    forall i | 0 <= i < |t|
      ensures ActionOf(t[i]) == SpawnedActionAt(i, n)
    {
      if 3 <= i < n + 3 {
        assert IsWorkerEvent(t[i]);
      }
    }
  }

  lemma SpawnedReleasesOnce(ch: Chan, addr: u32, contents: seq<byte>, script: seq<Tick>)
    ensures var t := SessionTrace(Some(ch), Allocated(addr, contents), script);
      OnceIf(t, ReleaseChannel, true) && OnceIf(t, AllocateBuffer, true) && OnceIf(t, FreeBuffer, true) &&
      OnceIf(t, SpawnWorker, true) && OnceIf(t, StopWorker, true)
  {
    var t := SessionTrace(Some(ch), Allocated(addr, contents), script);
    SpawnedActions(ch, addr, contents, script);
    var n := |t| - 7;
    assert ActionOf(t[1]) == AllocateBuffer && ActionOf(t[2]) == SpawnWorker;
    assert ActionOf(t[n + 3]) == StopWorker && ActionOf(t[n + 5]) == ReleaseChannel;
    assert ActionOf(t[n + 6]) == FreeBuffer;
  }

  /** Over a whole session, every transfer call lies between the worker's
      spawn and its stop, so the channel and the buffer outlive every use
      the worker makes of them; the channel every prep and issue names is
      released only later; every free uses the channel and size of an
      earlier successful allocation, and comes after that channel's release. */
  lemma SessionOrder(request: Option<Chan>, alloc: AllocOutcome, script: seq<Tick>)
    ensures var t := SessionTrace(request, alloc, script);
      forall i :: 0 <= i < |t| && IsWorkerEvent(t[i]) ==>
        (exists j :: 0 <= j < i && t[j] == Spawn) && (exists k :: i < k < |t| && t[k] == Stop)
    ensures var t := SessionTrace(request, alloc, script);
      forall i :: 0 <= i < |t| && t[i].Prep? ==>
        (exists j :: 0 <= j < i && t[j] == Request(Some(t[i].desc.chan))) &&
        (exists k :: i < k < |t| && t[k] == Release(t[i].desc.chan))
    ensures var t := SessionTrace(request, alloc, script);
      forall i :: 0 <= i < |t| && t[i].IssuePending? ==>
        (exists j :: 0 <= j < i && t[j] == Request(Some(t[i].chan))) &&
        (exists k :: i < k < |t| && t[k] == Release(t[i].chan))
    ensures var t := SessionTrace(request, alloc, script);
      forall i, j :: 0 <= i < |t| && 0 <= j < |t| && IsWorkerEvent(t[i]) && (t[j].Release? || t[j].Free?) ==> i < j
    ensures var t := SessionTrace(request, alloc, script);
      forall i :: 0 <= i < |t| && t[i].Free? ==>
        t[i].size == AllocSize && t[i].dev == t[i].chan.owner &&
        (exists j :: 0 <= j < i && t[j] == Alloc(t[i].chan, t[i].dev, t[i].size, true)) &&
        (exists j :: 0 <= j < i && t[j] == Release(t[i].chan))
  {
    if InitHeld(request, alloc).task {
      SpawnedOrder(request.value, alloc.addr, alloc.contents, script);
    } else if request.Some? {
      var t := SessionTrace(request, alloc, script);
      assert t == [Request(request), Alloc(request.value, request.value.owner, AllocSize, false), Release(request.value)];
    } else {
      var t := SessionTrace(request, alloc, script);
      assert t == [Request(None)];
    }
  }

  lemma SpawnedOrder(ch: Chan, addr: u32, contents: seq<byte>, script: seq<Tick>)
    ensures var t := SessionTrace(Some(ch), Allocated(addr, contents), script);
      |t| >= 7 && t[2] == Spawn && t[|t| - 4] == Stop && t[|t| - 3] == Status(ch, FinalCookie(script, 0)) &&
      t[0] == Request(Some(ch)) && t[1] == Alloc(ch, ch.owner, AllocSize, true) && t[|t| - 2] == Release(ch) &&
      (forall i :: 0 <= i < |t| && IsWorkerEvent(t[i]) ==> 3 <= i < |t| - 4) &&
      (forall i :: 0 <= i < |t| && t[i].Prep? ==> t[i].desc.chan == ch) &&
      (forall i :: 0 <= i < |t| && t[i].IssuePending? ==> t[i].chan == ch) &&
      (forall i :: 0 <= i < |t| && (t[i].Release? || t[i].Free?) ==> |t| - 2 <= i) &&
      (forall i :: 0 <= i < |t| && t[i].Free? ==> i == |t| - 1 && t[i] == Free(ch, ch.owner, AllocSize, addr))
  {
    var t := SessionTrace(Some(ch), Allocated(addr, contents), script);
    SpawnedShape(ch, addr, contents, script);
    EveryPrepIsFullFrame(script, ch, addr);
    var n := |t| - 7;
    var tail := [Stop, Status(ch, FinalCookie(script, 0)), Release(ch), Free(ch, ch.owner, AllocSize, addr)];
    forall i | 0 <= i < |t|
      ensures IsWorkerEvent(t[i]) ==> 3 <= i < n + 3
      ensures t[i].Prep? ==> t[i].desc.chan == ch
      ensures t[i].IssuePending? ==> t[i].chan == ch
      ensures t[i].Release? || t[i].Free? ==> n + 5 <= i
      ensures t[i].Free? ==> i == n + 6 && t[i] == Free(ch, ch.owner, AllocSize, addr)
    {
      if n + 3 <= i {
        assert t[i] == tail[i - n - 3];
      } else if 3 <= i {
        assert IsWorkerEvent(t[i]);
      }
    }
    assert t[n + 3] == tail[0] && t[n + 4] == tail[1] && t[n + 5] == tail[2];
  }

  /** The module: its globals as fields, and `log`, the calls it has made
      into the kernel. */
  class LedModule {
    var txChan: Option<Chan>
    var txBuffer: array?<byte>
    var txBufferPhy: u32
    var txCookie: s32
    var task: bool
    var log: seq<Event>
    ghost var phase: Phase
    /** The worker thread has returned (observed only by the model). */
    ghost var workerExited: bool

    ghost predicate Valid()
      reads this
    {
      Consistent(Holding()) && (txBuffer != null ==> txBuffer.Length == AllocSize)
    }

    function Holding(): Held
      reads this
    {
      Held(txChan, txBuffer != null, task)
    }

    /** The module as loaded: every global zero or NULL. */
    constructor ()
      ensures Valid() && phase == Loaded && !workerExited
      ensures Holding() == Held(None, false, false)
      ensures txBufferPhy == 0 && txCookie == 0 && log == []
    {
      txChan := None;
      txBuffer := null;
      txBufferPhy := 0;
      txCookie := 0;
      task := false;
      log := [];
      phase := Loaded;
      workerExited := false;
    }

    /** `led_init`: request the channel, allocate and seed the buffer,
        start the worker. */
    method Init(request: Option<Chan>, alloc: AllocOutcome) returns (r: int)
      requires phase == Loaded && Holding() == Held(None, false, false)
      requires alloc.Allocated? ==> |alloc.contents| == AllocSize
      modifies this
      ensures Valid() && phase == Initialised && workerExited == old(workerExited)
      ensures r == InitCode(request, alloc)
      ensures Holding() == InitHeld(request, alloc)
      ensures log == old(log) + InitEvents(request, alloc)
      ensures txCookie == old(txCookie)
      ensures r == 0 ==> fresh(txBuffer) && txBuffer[..] == Seeded(alloc.contents) && txBufferPhy == alloc.addr
      ensures r != 0 ==> txBufferPhy == old(txBufferPhy)
    {
      phase := Initialised;
      txChan := request;
      log := log + [Request(request)];
      if txChan.None? {
        return -ENoDev;
      }
      var ch := txChan.value;
      log := log + [Alloc(ch, ch.owner, PageAlign(BufferSize), alloc.Allocated?)];
      if alloc.AllocFailed? {
        log := log + [Release(ch)];
        txChan := None;
        return -ENoMem;
      }
      var contents := alloc.contents;
      txBuffer := new byte[PageAlign(BufferSize)](i requires 0 <= i < |contents| => contents[i]);
      txBufferPhy := alloc.addr;
      assert txBuffer[..] == contents;
      ghost var writes := InitBuffer(txBuffer);
      task := true;
      log := log + [Spawn];
      return 0;
    }

    /** `transmit`, the worker thread, run against `script`. */
    method Transmit(script: seq<Tick>) returns (r: WorkerResult)
      requires Valid() && phase == Initialised && task && !workerExited
      modifies this`txCookie, this`log, this`workerExited
      ensures Valid()
      ensures r == WorkerExit(script)
      ensures log == old(log) + WorkerEvents(script, FrameDescriptor(txChan.value, txBufferPhy))
      ensures txCookie == FinalCookie(script, old(txCookie))
      ensures workerExited == r.Exited?
    {
      var chan := txChan.value;
      ghost var d := FrameDescriptor(chan, txBufferPhy);
      var k := 0;
      while k < |script| && !script[k].shouldStop
        invariant 0 <= k <= |script|
        invariant forall j :: 0 <= j < k ==> Completes(script[j])
        invariant log == old(log) + Cycles(script[..k], d)
        invariant txCookie == if k == 0 then old(txCookie) else script[k - 1].cookie
        invariant !workerExited
      {
        var bufSize := BufferSize;
        var flags := {CtrlAck, PrepInterrupt};
        var desc := Descriptor(chan, txBufferPhy, bufSize, DevToMem, flags);
        var tick := script[k];
        log := log + [Prep(desc, tick.prepOk)];
        if !tick.prepOk {
          LeadUnique(script, k);
          workerExited := true;
          return Exited(-EBusy);
        }
        txCookie := tick.cookie;
        log := log + [Submit(txCookie)];
        if SubmitError(txCookie) {
          LeadUnique(script, k);
          workerExited := true;
          return Exited(-EBusy);
        }
        log := log + [IssuePending(chan), WaitTx(txCookie), Sleep(PaceMs)];
        assert script[..k + 1] == script[..k] + [tick];
        CyclesSnoc(script[..k], tick, d);
        k := k + 1;
      }
      LeadUnique(script, k);
      assert script[..k] == script[..Lead(script)];
      if k < |script| {
        workerExited := true;
        r := Exited(0);
      } else {
        r := StillRunning;
      }
    }

    /** `led_exit`: stop the worker, query and release the channel, free
        the buffer, each only if held.  The globals keep their values. */
    method Exit()
      requires Valid() && phase == Initialised
      modifies this`log, this`phase, this`workerExited
      ensures Valid() && phase == Unloaded
      ensures workerExited == (old(workerExited) || task)
      ensures log == old(log) + ExitEvents(Holding(), txCookie, txBufferPhy)
    {
      if task {
        log := log + [Stop];
        workerExited := true;
      }
      if txChan.Some? {
        log := log + [Status(txChan.value, txCookie)];
        log := log + [Release(txChan.value)];
      }
      if txBuffer != null {
        log := log + [Free(txChan.value, txChan.value.owner, PageAlign(BufferSize), txBufferPhy)];
      }
      phase := Unloaded;
    }
  }

  /** One load and unload of the module: the kernel runs `led_init`, the
      worker when it was started, and `led_exit` only after a successful
      `led_init`.  The log is the session's. */
  method LoadAndUnload(request: Option<Chan>, alloc: AllocOutcome, script: seq<Tick>)
    returns (code: int, log: seq<Event>)
    requires alloc.Allocated? ==> |alloc.contents| == AllocSize
    ensures code == InitCode(request, alloc)
    ensures log == SessionTrace(request, alloc, script)
    ensures OnceIf(log, ReleaseChannel, request.Some?)
    ensures OnceIf(log, FreeBuffer, code == 0)
  {
    var m := new LedModule();
    code := m.Init(request, alloc);
    ghost var init := m.log;
    assert init == InitEvents(request, alloc);
    if code == 0 {
      assert m.txBufferPhy == BufferAddr(alloc);
      var _ := m.Transmit(script);
      ghost var worker := WorkerEvents(script, FrameDescriptor(request.value, BufferAddr(alloc)));
      assert m.log == init + worker;
      assert m.txCookie == FinalCookie(script, 0);
      assert m.Holding() == InitHeld(request, alloc);
      m.Exit();
      assert m.log == init + worker + ExitEvents(InitHeld(request, alloc), FinalCookie(script, 0), BufferAddr(alloc));
    } else {
      FailedInitExitIsNoop(request, alloc, 0, BufferAddr(alloc));
      assert m.log == init + [] + [];
    }
    log := m.log;
    SessionReleasesOnce(request, alloc, script);
  }
}
