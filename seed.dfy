/** `init_buffer` (led.c:64-72): the test pattern written into the coherent
    buffer before the first transfer.  Pixel (x, y) is four bytes at
    `y*LED_YRES*4 + x*4`; only its first byte is written, with `x ^ y`. */
module BufferSeed {
  import opened LedConfig

  /** Bitwise exclusive or of two non-negative C `int`s. */
  function Xor(a: nat, b: nat): nat
    decreases a + b
  {
    if a == 0 && b == 0 then 0
    else (if a % 2 == b % 2 then 0 else 1) + 2 * Xor(a / 2, b / 2)
  }

  /** Bit `k` of `a`. */
  function Bit(a: nat, k: nat): nat {
    if k == 0 then a % 2 else Bit(a / 2, k - 1)
  }

  function Pow2(k: nat): (p: nat)
    ensures p >= 1
  {
    if k == 0 then 1 else 2 * Pow2(k - 1)
  }

  /** `Xor` is the bitwise operation: each bit of the result is the sum of
      the operands' bits modulo two. */
  lemma {:induction false} XorBit(a: nat, b: nat, k: nat)
    ensures Bit(Xor(a, b), k) == (Bit(a, k) + Bit(b, k)) % 2
    decreases k
  {
    if k > 0 {
      if a == 0 && b == 0 {
        BitOfZero(k);
      } else {
        assert Xor(a, b) / 2 == Xor(a / 2, b / 2);
        XorBit(a / 2, b / 2, k - 1);
      }
    }
  }

  lemma {:induction false} BitOfZero(k: nat)
    ensures Bit(0, k) == 0
  {
    if k > 0 {
      BitOfZero(k - 1);
    }
  }

  /** The identities of `^`: a value XORed with itself is zero, and zero
      is neutral on either side. */
  lemma {:induction false} XorIdentities(a: nat)
    ensures Xor(a, a) == 0
    ensures Xor(a, 0) == a && Xor(0, a) == a
  {
    if a != 0 {
      XorIdentities(a / 2);
    }
  }

  /** Two values of `k` bits have a `k`-bit exclusive or. */
  lemma {:induction false} XorBelow(a: nat, b: nat, k: nat)
    requires a < Pow2(k) && b < Pow2(k)
    ensures Xor(a, b) < Pow2(k)
    decreases k
  {
    if k > 0 && !(a == 0 && b == 0) {
      XorBelow(a / 2, b / 2, k - 1);
    }
  }

  /** Coordinates on the panel give a value that fits the seven low bits
      of a byte. */
  lemma XorOfCoordinates(x: nat, y: nat)
    requires x < LedXRes && y < LedYRes
    ensures Xor(x, y) < 128
    ensures ToChar(Xor(x, y)) == Xor(x, y)
  {
    assert Pow2(7) == 128;
    XorBelow(x, y, 7);
  }

  /** The index `init_buffer` writes for pixel (x, y). */
  function PixelOffset(x: nat, y: nat): nat {
    y * LedYRes * 4 + x * 4
  }

  /** Offsets `init_buffer` writes: the first byte of each pixel. */
  predicate IsPixelByte(i: nat) {
    i < BufferSize && i % 4 == 0
  }

  function Column(i: nat): nat {
    (i % (LedYRes * 4)) / 4
  }

  function Row(i: nat): nat {
    i / (LedYRes * 4)
  }

  /** Every pixel's first byte lies inside the frame, and the pixel's
      coordinates can be read back from it. */
  lemma PixelCoordinates(x: nat, y: nat)
    requires x < LedXRes && y < LedYRes
    ensures PixelOffset(x, y) < BufferSize
    ensures IsPixelByte(PixelOffset(x, y))
    ensures Column(PixelOffset(x, y)) == x && Row(PixelOffset(x, y)) == y
  {
    assert PixelOffset(x, y) == 512 * y + 4 * x;
  }

  /** Conversely, every first byte of a pixel is the offset of exactly the
      pixel at its coordinates. */
  lemma PixelByteDecomposes(i: nat)
    requires IsPixelByte(i)
    ensures Column(i) < LedXRes && Row(i) < LedYRes
    ensures PixelOffset(Column(i), Row(i)) == i
  {
    assert i == 512 * (i / 512) + i % 512;
    assert i % 512 == 4 * ((i % 512) / 4);
  }

  /** The contents of the buffer after `init_buffer`, given its contents before. */
  function Seeded(s: seq<byte>): (r: seq<byte>)
    ensures |r| == |s|
  {
    seq(|s|, i requires 0 <= i < |s| =>
      if IsPixelByte(i) then ToChar(Xor(Column(i), Row(i))) else s[i])
  }

  /** The seed pattern: the first byte of pixel (x, y) holds `x ^ y`, which
      fits a byte, at an offset below `BUFFER_SIZE`. */
  lemma SeedPattern(s: seq<byte>, x: nat, y: nat)
    requires BufferSize <= |s|
    requires x < LedXRes && y < LedYRes
    ensures PixelOffset(x, y) < BufferSize
    ensures Xor(x, y) < 128
    ensures Seeded(s)[PixelOffset(x, y)] == Xor(x, y)
  {
    PixelCoordinates(x, y);
    XorOfCoordinates(x, y);
  }

  /** Every byte that is not the first of a pixel keeps its value. */
  lemma SeedKeepsOtherBytes(s: seq<byte>, i: nat)
    requires i < |s|
    requires i % 4 != 0 || BufferSize <= i
    ensures Seeded(s)[i] == s[i]
  {
  }

  /** The offsets `init_buffer` writes, in the order it writes them:
      column by column, and within a column row by row. */
  function WriteOrder(): seq<nat> {
    seq(LedXRes * LedYRes, k requires 0 <= k < LedXRes * LedYRes =>
      PixelOffset(k / LedYRes, k % LedYRes))
  }

  /** `init_buffer` writes every first byte of a pixel, each exactly once,
      and nothing else. */
  lemma WriteOrderIsExact()
    ensures |WriteOrder()| == LedXRes * LedYRes
    ensures forall j, k :: 0 <= j < k < |WriteOrder()| ==> WriteOrder()[j] != WriteOrder()[k]
    ensures forall k :: 0 <= k < |WriteOrder()| ==> IsPixelByte(WriteOrder()[k])
    ensures forall i: nat :: IsPixelByte(i) ==> i in WriteOrder()
  {
    var w := WriteOrder();
    forall k | 0 <= k < |w|
      ensures IsPixelByte(w[k]) && Column(w[k]) == k / LedYRes && Row(w[k]) == k % LedYRes
    {
      PixelCoordinates(k / LedYRes, k % LedYRes);
    }
    forall j, k | 0 <= j < k < |w|
      ensures w[j] != w[k]
    {
      assert j == (j / LedYRes) * LedYRes + j % LedYRes;
      assert k == (k / LedYRes) * LedYRes + k % LedYRes;
    }
    forall i: nat | IsPixelByte(i)
      ensures i in w
    {
      PixelByteDecomposes(i);
      var k := Column(i) * LedYRes + Row(i);
      assert k / LedYRes == Column(i) && k % LedYRes == Row(i);
      assert w[k] == i;
    }
  }

  /** Pixel bytes already written when the loops stand at column `x`, row `y`. */
  predicate Written(i: nat, x: nat, y: nat) {
    IsPixelByte(i) && (Column(i) < x || (Column(i) == x && Row(i) < y))
  }

  /** Writing pixel (x, y) extends the written region by exactly that byte. */
  lemma WrittenStep(i: nat, x: nat, y: nat)
    requires x < LedXRes && y < LedYRes
    ensures Written(i, x, y + 1) <==> Written(i, x, y) || i == PixelOffset(x, y)
  {
    PixelCoordinates(x, y);
    if IsPixelByte(i) {
      PixelByteDecomposes(i);
    }
  }

  /** The write after those of `x` whole columns and `y` rows is pixel (x, y). */
  lemma WriteOrderStep(x: nat, y: nat)
    requires x < LedXRes && y < LedYRes
    ensures x * LedYRes + y < |WriteOrder()|
    ensures WriteOrder()[..x * LedYRes + y + 1] == WriteOrder()[..x * LedYRes + y] + [PixelOffset(x, y)]
  {
    var k := x * LedYRes + y;
    assert k / LedYRes == x && k % LedYRes == y;
    assert WriteOrder()[..k + 1] == WriteOrder()[..k] + [WriteOrder()[k]];
  }

  /** A finished column is the start of the next. */
  lemma WrittenColumn(i: nat, x: nat)
    requires IsPixelByte(i)
    ensures Written(i, x, LedYRes) <==> Written(i, x + 1, 0)
  {
    PixelByteDecomposes(i);
  }

  /** `init_buffer`, on the buffer it fills in place.  `writes` lists the
      offsets assigned, in order. */
  method InitBuffer(buf: array<byte>) returns (ghost writes: seq<nat>)
    requires BufferSize <= buf.Length
    modifies buf
    ensures buf[..] == Seeded(old(buf[..]))
    ensures writes == WriteOrder()
  {
    writes := [];
    var x := 0;
    while x < LedXRes
      invariant 0 <= x <= LedXRes
      invariant writes == WriteOrder()[..x * LedYRes]
      invariant forall i :: 0 <= i < buf.Length ==>
        buf[i] == if Written(i, x, 0) then ToChar(Xor(Column(i), Row(i))) else old(buf[i])
    {
      var y := 0;
      while y < LedYRes
        invariant 0 <= y <= LedYRes
        invariant writes == WriteOrder()[..x * LedYRes + y]
        invariant forall i :: 0 <= i < buf.Length ==>
          buf[i] == if Written(i, x, y) then ToChar(Xor(Column(i), Row(i))) else old(buf[i])
      {
        PixelCoordinates(x, y);
        buf[y * LedYRes * 4 + x * 4] := ToChar(Xor(x, y));
        forall i | 0 <= i < buf.Length
          ensures Written(i, x, y + 1) <==> Written(i, x, y) || i == PixelOffset(x, y)
        {
          WrittenStep(i, x, y);
        }
        WriteOrderStep(x, y);
        writes := writes + [PixelOffset(x, y)];
        y := y + 1;
      }
      forall i | 0 <= i < buf.Length && IsPixelByte(i)
        ensures Written(i, x, LedYRes) <==> Written(i, x + 1, 0)
      {
        WrittenColumn(i, x);
      }
      x := x + 1;
    }
    forall i | 0 <= i < buf.Length
      ensures buf[..][i] == Seeded(old(buf[..]))[i]
    {
      if IsPixelByte(i) {
        PixelByteDecomposes(i);
      }
    }
  }
}
