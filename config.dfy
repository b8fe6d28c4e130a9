/** Compile-time constants, integer widths and errno values of the LED matrix
    driver (led.c:11-16), plus the kernel's page rounding used for the
    coherent buffer. */
module LedConfig {

  /** A C `char` cell of the buffer. */
  type byte = b: int | 0 <= b < 0x100

  /** A C `uint32_t`. */
  type u32 = n: int | 0 <= n < 0x1_0000_0000

  /** A C `int32_t`; `dma_cookie_t` is one. */
  type s32 = n: int | -0x8000_0000 <= n < 0x8000_0000

  /** The DMA-engine driver whose channels are candidates. */
  const LedDriver: string := "xilinx-dma"
  /** The value of "xlnx,device-id" on the panel's channel node. */
  const LedDeviceId: u32 := 0

  const LedXRes: nat := 128
  const LedYRes: nat := 128
  /** One frame: four bytes per pixel. */
  const BufferSize: nat := LedXRes * LedYRes * 4

  /** Linux errno values (asm-generic/errno-base.h). */
  const ENoMem: int := 12
  const EBusy: int := 16
  const ENoDev: int := 19

  /** The page granularity of the coherent allocator (4 KiB pages). */
  const PageSize: nat := 4096

  /** The kernel's `PAGE_ALIGN`: round up to the next multiple of a page. */
  function PageAlign(n: nat): (r: nat)
    ensures r % PageSize == 0
    ensures n <= r < n + PageSize
  {
    ((n + PageSize - 1) / PageSize) * PageSize
  }

  /** A frame is already a whole number of pages, so the allocation is
      exactly one frame long. */
  lemma FrameIsPageAligned()
    ensures BufferSize == 65536
    ensures PageAlign(BufferSize) == BufferSize
  {
  }

  /** The C conversion of an `int` to the `char` stored in the buffer:
      keep the low eight bits. */
  function ToChar(v: nat): (c: byte)
    ensures v < 0x100 ==> c == v
  {
    v % 0x100
  }
}
