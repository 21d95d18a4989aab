/**
 Size arithmetic of the allocator: rounding to words, per-kind overhead, and the segregated size classes
 into which free chunks are sorted.
 */
module SizeClasses {

  const FixedMax := 262112
  const BlockDefault := 262144
  const ChunkMin := 32
  const BrickMax := 31
  const SmallBins := 1532

  predicate Aligned(x: int) { x % 8 == 0 }

  lemma AlignedSum(x: int, y: int)
    requires Aligned(x) && Aligned(y)
    ensures Aligned(x + y) && Aligned(x - y)
  {
  }

  function Align(x: nat): (r: nat)
    ensures Aligned(r) && x <= r < x + 8
  {
    (x + 7) / 8 * 8
  }

  function BlockSize(size: nat): nat { Align(BlockDefault - FixedMax + size) }
  function BrickSize(size: nat): nat { Align(8 + size) }
  function ChunkSize(size: nat): nat { Align(16 + size) }

  function BrickBin(size: nat): nat { BrickSize(size) / 8 - 1 }

  // ---------------------------------------------------------------- logarithm

  function Pow2(n: nat): nat { if n == 0 then 1 else 2 * Pow2(n - 1) }

  /** Index of the highest bit set. */
  function Log2(v: nat): (r: nat)
    requires 0 < v
    ensures Pow2(r) <= v < Pow2(r + 1)
  {
    if v == 1 then 0 else 1 + Log2(v / 2)
  }

  lemma {:induction false} Pow2Monotone(a: nat, b: nat)
    requires a <= b
    ensures Pow2(a) <= Pow2(b)
  {
    if a < b { Pow2Monotone(a, b - 1); }
  }

  /** The logarithm is the one number with those bounds. */
  lemma Log2Is(v: nat, n: nat)
    requires 0 < v && Pow2(n) <= v < Pow2(n + 1)
    ensures Log2(v) == n
  {
    if Log2(v) < n { Pow2Monotone(Log2(v) + 1, n); }
    if n < Log2(v) { Pow2Monotone(n + 1, Log2(v)); }
  }

  // ---------------------------------------------------------------- classes

  /** Spacing of the classes between consecutive powers of two. */
  function Log2Size(l: nat): (r: nat)
    requires l < 20
    ensures 0 < r
  {
    if l < 6 then 8 else if l < 8 then 16 else if l < 10 then 32 else if l < 12 then 64 else if l < 14 then 128
    else if l < 16 then 256 else if l < 18 then 512 else 1024
  }

  /** The first class there. */
  function Log2Off(l: nat): nat
    requires l < 20
  {
    if l < 6 then 0 else if l < 8 then 8 else if l < 10 then 20 else if l < 12 then 44 else if l < 14 then 92
    else if l < 16 then 188 else if l < 18 then 380 else 764
  }

  /** How far `s` lies above the square of a spacing. */
  function Over(s: nat, r: nat): int { s - (r * r + 1) }

  /** `KL_SIZE2BIN` between 64 bytes and 2^20, where `l` is the logarithm of `s - 1`. */
  function TableBin(s: nat, l: nat): int
    requires 6 <= l < 20
  {
    if Over(s, Log2Size(l - 1)) >= 0
    then Log2Off(l) + Over(s, Log2Size(l - 1)) / Log2Size(l)
    else Log2Off(l - 1) + Over(s, Log2Size(l - 2)) / Log2Size(l - 1)
  }

  /** `KL_SIZE2BIN`; above 2^20 bytes there is one class per power of two. */
  function Size2Bin(s: nat): int
    requires 0 < s
  {
    if s <= 64 then (s - 1) / 8
    else
      LogAtLeast6(s - 1);
      var l := Log2(s - 1);
      if l < 20 then TableBin(s, l) else SmallBins + (l - 20)
  }

  lemma LogAtLeast6(v: nat)
    requires 64 <= v
    ensures 6 <= Log2(v)
  {
    if Log2(v) < 6 { Pow2Monotone(Log2(v) + 1, 6); }
  }

  /** The byte size of a small class, in closed form. */
  function Bin2Size(b: nat): nat
    requires b < SmallBins
  {
    if b < 8 then 8 * (b + 1)
    else if b < 20 then 64 + 16 * (b - 7)
    else if b < 44 then 256 + 32 * (b - 19)
    else if b < 92 then 1024 + 64 * (b - 43)
    else if b < 188 then 4096 + 128 * (b - 91)
    else if b < 380 then 16384 + 256 * (b - 187)
    else if b < 764 then 65536 + 512 * (b - 379)
    else 262144 + 1024 * (b - 763)
  }

  /** The class a free chunk of `s` bytes is kept in: the last one it is at least as large as. */
  function FloorBin(s: nat): nat
    requires 0 < s <= 0x10_0000
  {
    SmallSizes(s);
    var b := Size2Bin(s);
    if s < Bin2Size(b) && b > 0 then b - 1 else b
  }

  lemma Bin2SizeMonotone(a: nat, b: nat)
    requires a < b < SmallBins
    ensures Bin2Size(a) + 8 <= Bin2Size(b)
  {
  }

  function Pieces(s: nat): nat
    requires 0 < s <= 0x10_0000
  {
    if s <= 64 then (s - 1) / 8
    else if s <= 256 then 8 + (s - 65) / 16
    else if s <= 1024 then 20 + (s - 257) / 32
    else if s <= 4096 then 44 + (s - 1025) / 64
    else if s <= 16384 then 92 + (s - 4097) / 128
    else if s <= 65536 then 188 + (s - 16385) / 256
    else if s <= 262144 then 380 + (s - 65537) / 512
    else 764 + (s - 262145) / 1024
  }

  lemma PiecesLeast(s: nat)
    requires 0 < s <= 0x10_0000
    ensures Pieces(s) < SmallBins && s <= Bin2Size(Pieces(s))
    ensures 0 < Pieces(s) ==> Bin2Size(Pieces(s) - 1) < s
  {
  }

  lemma Log2Range(v: nat, n: nat)
    requires 64 <= v < 0x10_0000 && n == Log2(v)
    ensures 6 <= n < 20
    ensures v < 128 <==> n == 6
    ensures 128 <= v < 256 <==> n == 7
    ensures 256 <= v < 512 <==> n == 8
    ensures 512 <= v < 1024 <==> n == 9
    ensures 1024 <= v < 2048 <==> n == 10
    ensures 2048 <= v < 4096 <==> n == 11
    ensures 4096 <= v < 8192 <==> n == 12
    ensures 8192 <= v < 16384 <==> n == 13
    ensures 16384 <= v < 32768 <==> n == 14
    ensures 32768 <= v < 65536 <==> n == 15
    ensures 65536 <= v < 131072 <==> n == 16
    ensures 131072 <= v < 262144 <==> n == 17
    ensures 262144 <= v < 524288 <==> n == 18
    ensures 524288 <= v <==> n == 19
  {
    Powers();
    if n < 6 { Pow2Monotone(n + 1, 6); }
    if 20 <= n { Pow2Monotone(20, n); }
  }

  lemma Powers()
    ensures Pow2(6) == 64 && Pow2(7) == 128 && Pow2(8) == 256 && Pow2(9) == 512 && Pow2(10) == 1024
    ensures Pow2(11) == 2048 && Pow2(12) == 4096 && Pow2(13) == 8192 && Pow2(14) == 16384 && Pow2(15) == 32768
    ensures Pow2(16) == 65536 && Pow2(17) == 131072 && Pow2(18) == 262144 && Pow2(19) == 524288 && Pow2(20) == 0x10_0000
  {
    assert Pow2(4) == 16 && Pow2(8) == 256 && Pow2(12) == 4096 && Pow2(16) == 65536;
  }

  lemma TableBinLow(s: nat, l: nat)
    requires 64 < s <= 4096 && l == Log2(s - 1)
    ensures 6 <= l < 20 && TableBin(s, l) == Pieces(s)
  {
    hide Log2, Pow2;
    Log2Range(s - 1, l);
  }

  lemma TableBinMiddle(s: nat, l: nat)
    requires 4096 < s <= 65536 && l == Log2(s - 1)
    ensures 6 <= l < 20 && TableBin(s, l) == Pieces(s)
  {
    hide Log2, Pow2;
    Log2Range(s - 1, l);
  }

  lemma TableBinHigh(s: nat, l: nat)
    requires 65536 < s <= 0x10_0000 && l == Log2(s - 1)
    ensures 6 <= l < 20 && TableBin(s, l) == Pieces(s)
  {
    hide Log2, Pow2;
    Log2Range(s - 1, l);
  }

  /** The table-driven formula agrees with the eight ranges. */
  lemma Size2BinPieces(s: nat)
    requires 0 < s <= 0x10_0000
    ensures Size2Bin(s) == Pieces(s)
  {
    hide Log2, Pow2, TableBin, Pieces;
    if s <= 64 {
      assert Pieces(s) == (s - 1) / 8 by { PiecesSmall(s); }
    } else if s <= 4096 {
      TableBinLow(s, Log2(s - 1));
    } else if s <= 65536 {
      TableBinMiddle(s, Log2(s - 1));
    } else {
      TableBinHigh(s, Log2(s - 1));
    }
  }

  lemma PiecesSmall(s: nat)
    requires 0 < s <= 64
    ensures Pieces(s) == (s - 1) / 8
  {
  }

  lemma SmallSizes(s: nat)
    requires 0 < s <= 0x10_0000
    ensures 0 <= Size2Bin(s) < SmallBins
  {
    Size2BinPieces(s);
    PiecesLeast(s);
  }

  /** `KL_SIZE2BIN` gives the least class whose size is at least the request. */
  lemma LeastClass(s: nat, b: nat)
    requires 0 < s <= 0x10_0000 && b < SmallBins
    ensures 0 <= Size2Bin(s) < SmallBins
    ensures s <= Bin2Size(b) <==> Size2Bin(s) <= b
  {
    Size2BinPieces(s);
    PiecesLeast(s);
    var k := Pieces(s);
    if k < b { Bin2SizeMonotone(k, b); }
    if b < k - 1 { Bin2SizeMonotone(b, k - 1); }
  }

  /** The floor shift: a chunk of `s` bytes is in class `b` exactly when it fits there and not one higher. */
  lemma FloorClass(s: nat, b: nat)
    requires 8 <= s <= 0x10_0000 && b < SmallBins
    ensures FloorBin(s) < SmallBins
    ensures Bin2Size(b) <= s <==> b <= FloorBin(s)
  {
    Size2BinPieces(s);
    PiecesLeast(s);
    var k := Pieces(s);
    if k < b { Bin2SizeMonotone(k, b); }
    if b < k { LeastClass(s, b); }
    if b < k - 1 { Bin2SizeMonotone(b, k - 1); }
  }

  /** So whatever chunk is found in the class of a request, or in any class above it, is large enough. */
  lemma FoundIsLargeEnough(request: nat, b: nat, found: nat)
    requires 0 < request <= 0x10_0000 && 8 <= found <= 0x10_0000
    requires Size2Bin(request) <= b && FloorBin(found) == b
    ensures request <= found
  {
    SmallSizes(request);
    FloorClass(found, 0);
    LeastClass(request, b);
    FloorClass(found, b);
  }
}
