/** The specification of the transfer worker `transmit` (led.c:82-111).
    The kernel's answers are given as a script: for each time the loop
    condition is evaluated, whether a stop has been requested, whether
    descriptor preparation succeeds, and which cookie submission returns. */
module Worker {
  import opened LedConfig
  import opened Dma

  /** What the kernel answers in one pass of the loop. */
  datatype Tick = Tick(shouldStop: bool, prepOk: bool, cookie: s32)

  /** `transmit`'s return value, or `StillRunning` when the script ends
      with the loop still going. */
  datatype WorkerResult = Exited(code: int) | StillRunning

  /** The pause between transfers, in milliseconds. */
  const PaceMs: nat := 1000

  /** The descriptor every pass asks for: the whole frame, with the
      direction and flags as written in the driver. */
  function FrameDescriptor(chan: Chan, addr: u32): Descriptor {
    Descriptor(chan, addr, BufferSize, DevToMem, {CtrlAck, PrepInterrupt})
  }

  /** A pass that runs to the end of the loop body. */
  predicate Completes(t: Tick) {
    !t.shouldStop && t.prepOk && !SubmitError(t.cookie)
  }

  /** The number of passes, from the start, that run to the end. */
  function Lead(s: seq<Tick>): (n: nat)
    ensures n <= |s|
    ensures forall j :: 0 <= j < n ==> Completes(s[j])
    ensures n < |s| ==> !Completes(s[n])
  {
    if s == [] || !Completes(s[0]) then 0 else 1 + Lead(s[1..])
  }

  /** Any index that ends the leading run of completed passes is `Lead`. */
  lemma {:induction false} LeadUnique(s: seq<Tick>, k: nat)
    requires k <= |s|
    requires forall j :: 0 <= j < k ==> Completes(s[j])
    requires k < |s| ==> !Completes(s[k])
    ensures Lead(s) == k
  {
    if k > 0 {
      assert Completes(s[0]);
      LeadUnique(s[1..], k - 1);
    }
  }

  /** The calls of one completed pass. */
  function Cycle(d: Descriptor, cookie: s32): seq<Event> {
    [Prep(d, true), Submit(cookie), IssuePending(d.chan), WaitTx(cookie), Sleep(PaceMs)]
  }

  function Cycles(s: seq<Tick>, d: Descriptor): seq<Event> {
    if s == [] then [] else Cycle(d, s[0].cookie) + Cycles(s[1..], d)
  }

  /** The calls of the pass that leaves the loop. */
  function LastPass(t: Tick, d: Descriptor): seq<Event> {
    if t.shouldStop then []
    else if !t.prepOk then [Prep(d, false)]
    else [Prep(d, true), Submit(t.cookie)]
  }

  /** Every call the worker makes while the script lasts. */
  function WorkerEvents(s: seq<Tick>, d: Descriptor): seq<Event> {
    var n := Lead(s);
    Cycles(s[..n], d) + (if n < |s| then LastPass(s[n], d) else [])
  }

  function WorkerExit(s: seq<Tick>): WorkerResult {
    var n := Lead(s);
    if n == |s| then StillRunning
    else if s[n].shouldStop then Exited(0)
    else Exited(-EBusy)
  }

  /** `tx_cookie` once the script has run: the last cookie submit returned. */
  function FinalCookie(s: seq<Tick>, before: s32): s32 {
    var n := Lead(s);
    var submitted := if n < |s| && !s[n].shouldStop && s[n].prepOk then n + 1 else n;
    if submitted == 0 then before else s[submitted - 1].cookie
  }

  lemma {:induction false} CyclesSnoc(s: seq<Tick>, t: Tick, d: Descriptor)
    ensures Cycles(s + [t], d) == Cycles(s, d) + Cycle(d, t.cookie)
  {
    if s == [] {
      assert [t][1..] == [];
    } else {
      assert (s + [t])[1..] == s[1..] + [t];
      CyclesSnoc(s[1..], t, d);
    }
  }

  /** Pass `i` occupies events `5*i` to `5*i + 4`: prepare one full-frame
      descriptor, submit it, issue it, wait for that very cookie, pause. */
  lemma {:induction false} CyclesAt(s: seq<Tick>, d: Descriptor, i: nat)
    requires i < |s|
    ensures |Cycles(s, d)| == 5 * |s|
    ensures Cycles(s, d)[5 * i..5 * i + 5] == Cycle(d, s[i].cookie)
  {
    if i == 0 {
      CyclesLength(s[1..], d);
    } else {
      CyclesAt(s[1..], d, i - 1);
      assert Cycles(s, d)[5 * i..5 * i + 5] == Cycles(s[1..], d)[5 * (i - 1)..5 * (i - 1) + 5];
    }
  }

  lemma {:induction false} CyclesLength(s: seq<Tick>, d: Descriptor)
    ensures |Cycles(s, d)| == 5 * |s|
  {
    if s != [] {
      CyclesLength(s[1..], d);
    }
  }

  /** Completed passes report no failure. */
  lemma {:induction false} CyclesHaveNoFailure(s: seq<Tick>, d: Descriptor)
    requires forall j :: 0 <= j < |s| ==> Completes(s[j])
    ensures forall i :: 0 <= i < |Cycles(s, d)| ==> !IsFailure(Cycles(s, d)[i])
    ensures forall i :: 0 <= i < |Cycles(s, d)| ==> IsWorkerEvent(Cycles(s, d)[i])
  {
    if s != [] {
      CyclesHaveNoFailure(s[1..], d);
      assert Completes(s[0]);
    }
  }

  /** The worker returns 0 exactly when it sees the stop request at the top
      of a pass, every earlier pass having completed. */
  lemma ExitZeroIff(s: seq<Tick>)
    ensures WorkerExit(s) == Exited(0) <==>
      exists k :: 0 <= k < |s| && s[k].shouldStop && forall j :: 0 <= j < k ==> Completes(s[j])
  {
    if exists k :: 0 <= k < |s| && s[k].shouldStop && forall j :: 0 <= j < k ==> Completes(s[j]) {
      var k :| 0 <= k < |s| && s[k].shouldStop && forall j :: 0 <= j < k ==> Completes(s[j]);
      LeadUnique(s, k);
    }
  }

  /** The worker returns -EBUSY exactly when, after a run of completed
      passes, a pass that was not asked to stop fails to prepare or to
      submit its descriptor. */
  lemma ExitBusyIff(s: seq<Tick>)
    ensures WorkerExit(s) == Exited(-EBusy) <==>
      exists k :: 0 <= k < |s| && !s[k].shouldStop && !Completes(s[k]) &&
        forall j :: 0 <= j < k ==> Completes(s[j])
  {
    if exists k :: 0 <= k < |s| && !s[k].shouldStop && !Completes(s[k]) &&
         forall j :: 0 <= j < k ==> Completes(s[j]) {
      var k :| 0 <= k < |s| && !s[k].shouldStop && !Completes(s[k]) &&
        forall j :: 0 <= j < k ==> Completes(s[j]);
      LeadUnique(s, k);
    }
  }

  /** A failure is the worker's last call: a failed preparation is followed
      by no submit, a rejected submit by no issue or wait, and neither by
      another pass.  An exit with -EBUSY always ends on such a failure. */
  lemma NothingAfterFailure(s: seq<Tick>, d: Descriptor)
    ensures forall i :: 0 <= i < |WorkerEvents(s, d)| && IsFailure(WorkerEvents(s, d)[i]) ==>
      i == |WorkerEvents(s, d)| - 1
    ensures WorkerExit(s) == Exited(-EBusy) ==>
      |WorkerEvents(s, d)| > 0 && IsFailure(WorkerEvents(s, d)[|WorkerEvents(s, d)| - 1])
    ensures forall i :: 0 <= i < |WorkerEvents(s, d)| ==> IsWorkerEvent(WorkerEvents(s, d)[i])
  {
    var n := Lead(s);
    CyclesHaveNoFailure(s[..n], d);
  }

  /** Every pass, completed or not, asks `chan` for one descriptor of the
      whole `BUFFER_SIZE`-byte frame at the buffer's bus address, in
      direction DMA_DEV_TO_MEM, with flags ACK and INTERRUPT, and issues
      pending transfers on that same channel. */
  lemma {:induction false} EveryPrepIsFullFrame(s: seq<Tick>, chan: Chan, addr: u32)
    ensures var e := WorkerEvents(s, FrameDescriptor(chan, addr));
      forall i :: 0 <= i < |e| && e[i].Prep? ==>
        e[i].desc.chan == chan && e[i].desc.addr == addr && e[i].desc.len == BufferSize &&
        e[i].desc.dir == DevToMem && e[i].desc.flags == {CtrlAck, PrepInterrupt}
    ensures var e := WorkerEvents(s, FrameDescriptor(chan, addr));
      forall i :: 0 <= i < |e| && e[i].IssuePending? ==> e[i].chan == chan
  {
    var d := FrameDescriptor(chan, addr);
    var n := Lead(s);
    CyclesPrepare(s[..n], d);
  }

  lemma {:induction false} CyclesPrepare(s: seq<Tick>, d: Descriptor)
    ensures forall i :: 0 <= i < |Cycles(s, d)| && Cycles(s, d)[i].Prep? ==> Cycles(s, d)[i].desc == d
    ensures forall i :: 0 <= i < |Cycles(s, d)| && Cycles(s, d)[i].IssuePending? ==> Cycles(s, d)[i].chan == d.chan
  {
    if s != [] {
      CyclesPrepare(s[1..], d);
    }
  }

  /** The cookies submitted, in the order of the submits in `log`. */
  function SubmittedCookies(log: seq<Event>): seq<s32> {
    if log == [] then []
    else (if log[0].Submit? then [log[0].cookie] else []) + SubmittedCookies(log[1..])
  }

  lemma {:induction false} SubmittedAppend(a: seq<Event>, b: seq<Event>)
    ensures SubmittedCookies(a + b) == SubmittedCookies(a) + SubmittedCookies(b)
  {
    if a == [] {
      assert a + b == b;
    } else {
      assert (a + b)[0] == a[0];
      assert (a + b)[1..] == a[1..] + b;
      SubmittedAppend(a[1..], b);
      assert SubmittedCookies(a + b) ==
        (if a[0].Submit? then [a[0].cookie] else []) + SubmittedCookies(a[1..] + b);
    }
  }

  /** Completed passes submit once each, in order, with their own cookies. */
  lemma {:induction false} CyclesSubmitInOrder(s: seq<Tick>, d: Descriptor)
    ensures |SubmittedCookies(Cycles(s, d))| == |s|
    ensures forall j :: 0 <= j < |s| ==> SubmittedCookies(Cycles(s, d))[j] == s[j].cookie
  {
    if s != [] {
      var c := Cycle(d, s[0].cookie);
      assert SubmittedCookies(c) == [s[0].cookie] by {
        assert c[4..][1..] == [];
        assert c[3..][1..] == c[4..];
        assert c[2..][1..] == c[3..];
        assert c[1..][1..] == c[2..];
        assert SubmittedCookies(c[4..]) == [];
        assert SubmittedCookies(c[3..]) == [];
        assert SubmittedCookies(c[2..]) == [];
      }
      SubmittedAppend(c, Cycles(s[1..], d));
      CyclesSubmitInOrder(s[1..], d);
    }
  }

  /** `tx_cookie` ends as the cookie of the last submit, or keeps its old
      value when nothing was submitted. */
  lemma FinalCookieIsLastSubmit(s: seq<Tick>, d: Descriptor, before: s32)
    ensures var c := SubmittedCookies(WorkerEvents(s, d));
      FinalCookie(s, before) == if c == [] then before else c[|c| - 1]
  {
    var n := Lead(s);
    CyclesSubmitInOrder(s[..n], d);
    if n < |s| {
      var tail := LastPass(s[n], d);
      SubmittedAppend(Cycles(s[..n], d), tail);
      if !s[n].shouldStop && !s[n].prepOk {
        assert SubmittedCookies(tail) == [] by { assert tail[1..] == []; }
      } else if !s[n].shouldStop {
        assert SubmittedCookies(tail) == [s[n].cookie] by {
          assert tail[1..][1..] == [];
          assert SubmittedCookies(tail[1..]) == [s[n].cookie];
        }
      }
    } else {
      assert WorkerEvents(s, d) == Cycles(s[..n], d);
    }
  }
}
