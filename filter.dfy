/** `led_dma_filter` (led.c:18-58): the predicate `dma_request_channel`
    applies to each candidate channel.  The kernel structures it inspects
    are reduced to the facts it reads from them. */
module ChannelFilter {
  import opened LedConfig
  import opened Dma

  /** What the filter can see of one candidate channel. */
  datatype Candidate = Candidate(
    driverName: string,            // chan->device->dev->driver->name
    hasChanDevice: bool,           // &chan->dev->device is non-NULL
    hasNode: bool,                 // chan->device->dev->of_node is non-NULL
    childIds: seq<Option<u32>>)    // per child node: "xlnx,device-id" if readable

  /** The byte at index `i` of a C string, the terminating NUL past its end. */
  function CharAt(s: string, i: nat): char {
    if i < |s| then s[i] else '\0'
  }

  predicate NoNul(s: string) {
    forall i :: 0 <= i < |s| ==> s[i] != '\0'
  }

  /** `strlen`: the index of the first NUL. */
  function CStrLen(s: string): (n: nat)
    ensures n <= |s|
    ensures forall i :: 0 <= i < n ==> s[i] != '\0'
    ensures n == |s| || s[n] == '\0'
  {
    if s == [] || s[0] == '\0' then 0 else 1 + CStrLen(s[1..])
  }

  /** `a` has no NUL at indices `i` to `k - 1`, reading NUL past its end. */
  predicate NoNulBetween(a: string, i: nat, k: nat) {
    forall m :: i <= m < k ==> CharAt(a, m) != '\0'
  }

  /** `strncmp(a + i, b + i, n - i) == 0`: the strings agree on every
      position below `n`, or up to and including a common NUL. */
  function StrnEqualFrom(a: string, b: string, n: nat, i: nat): (eq: bool)
    ensures eq <==> forall k :: i <= k < n && NoNulBetween(a, i, k) ==> CharAt(a, k) == CharAt(b, k)
    decreases n - i
  {
    i >= n ||
    (CharAt(a, i) == CharAt(b, i) && (CharAt(a, i) == '\0' || StrnEqualFrom(a, b, n, i + 1)))
  }

  /** `strncmp(a, b, n) == 0`. */
  function StrnEqual(a: string, b: string, n: nat): bool {
    StrnEqualFrom(a, b, n, 0)
  }

  lemma {:induction false} StrnEqualFromIsSliceEqual(a: string, b: string, i: nat)
    requires NoNul(b) && i <= |b| && i <= |a|
    ensures StrnEqualFrom(a, b, |b|, i) <==> |b| <= |a| && a[i..|b|] == b[i..]
    decreases |b| - i
  {
    if i < |b| {
      assert CharAt(b, i) == b[i] != '\0';
      if i == |a| {
        assert CharAt(a, i) == '\0';
      } else {
        StrnEqualFromIsSliceEqual(a, b, i + 1);
        assert CharAt(a, i) == a[i];
        if |b| <= |a| {
          assert a[i..|b|] == [a[i]] + a[i + 1..|b|];
          assert b[i..] == [b[i]] + b[i + 1..];
        }
      }
    }
  }

  /** Comparing with `strncmp` over `strlen` of a NUL-free pattern is a
      prefix test: every name that begins with the pattern passes, and no
      other name does. */
  lemma StrnEqualIsPrefix(a: string, b: string)
    requires NoNul(b)
    ensures CStrLen(b) == |b|
    ensures StrnEqual(a, b, CStrLen(b)) <==> |b| <= |a| && a[..|b|] == b
  {
    StrnEqualFromIsSliceEqual(a, b, 0);
  }

  lemma LedDriverIsCString()
    ensures NoNul(LedDriver) && CStrLen(LedDriver) == |LedDriver| == 10
  {
    StrnEqualIsPrefix("", LedDriver);
  }

  /** The closed form of the filter's decision. */
  predicate Accepts(c: Candidate) {
    |LedDriver| <= |c.driverName| && c.driverName[..|LedDriver|] == LedDriver &&
    c.hasChanDevice && c.hasNode &&
    |c.childIds| == 1 && c.childIds[0] == Some(LedDeviceId)
  }

  /** `led_dma_filter`.  `uninitialised` is whatever `device_id` holds before
      any child's property is read: the result never depends on it. */
  method LedDmaFilter(chan: Candidate, uninitialised: u32) returns (accept: bool)
    ensures accept == Accepts(chan)
  {
    LedDriverIsCString();
    StrnEqualIsPrefix(chan.driverName, LedDriver);
    if !StrnEqual(chan.driverName, LedDriver, CStrLen(LedDriver)) {
      return false;
    }
    if !chan.hasChanDevice {
      return false;
    }
    if !chan.hasNode {
      return false;
    }
    var channelCount := 0;
    var deviceIdValid := false;
    var deviceId := uninitialised;
    var i := 0;
    while i < |chan.childIds|
      invariant 0 <= i <= |chan.childIds|
      invariant channelCount == i
      invariant deviceIdValid <==> exists j :: 0 <= j < i && chan.childIds[j].Some?
      invariant deviceIdValid ==> exists j :: 0 <= j < i && chan.childIds[j] == Some(deviceId)
    {
      channelCount := channelCount + 1;
      // of_property_read_u32 stores the value only when the property is readable.
      var prop := chan.childIds[i];
      if prop.Some? {
        deviceId := prop.value;
        deviceIdValid := true;
      }
      i := i + 1;
    }
    if channelCount != 1 || !deviceIdValid {
      return false;
    }
    if deviceId == LedDeviceId {
      return true;
    }
    return false;
  }

  /** A candidate is rejected unless its node has exactly one child. */
  lemma RejectsUnlessOneChild(c: Candidate)
    requires |c.childIds| != 1
    ensures !Accepts(c)
  {
  }

  /** A longer driver name that begins with "xilinx-dma" passes the driver
      check, and a shorter one does not. */
  lemma DriverCheckExamples()
    ensures Accepts(Candidate("xilinx-dma-v2", true, true, [Some(0)]))
    ensures !Accepts(Candidate("xilinx-dm", true, true, [Some(0)]))
    ensures !Accepts(Candidate("xilinx-dma", true, true, [None]))
    ensures !Accepts(Candidate("xilinx-dma", true, true, [Some(1)]))
  {
    assert "xilinx-dma-v2"[..10] == "xilinx-dma";
  }
}
