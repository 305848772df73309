// Bit access inside a bitmap byte (memhlp.c), and a bitmap as a sequence of bits.
module Bits {
  import opened Words

  type Byte = w: Word | |w| == 8 witness Zeros(8)

  /** Both helpers count from the most significant bit when dir is 1, else from the least significant one. */
  function Shift(bit: nat, dir: nat): (s: nat)
    requires bit < 8
    ensures s < 8
  {
    if dir == 1 then 7 - bit else bit
  }

  /** check_byte: shift the addressed bit down to position 0 and look at it. */
  predicate CheckByte(byte: Byte, bit: nat, dir: nat)
    requires bit < 8
  {
    Shr(byte, Shift(bit, dir))[0]
  }

  /** set_bit: overwrite one bit of a byte through a one-bit mask. */
  function SetBit(byte: Byte, bit: nat, value: bool, dir: nat): Byte
    requires bit < 8
  {
    var mask := Shl(One(8), Shift(bit, dir));
    if value then Or(byte, mask) else And(byte, Not(mask))
  }

  /** set_bit changes the addressed bit and no other, in either direction. */
  lemma SetBitAt(byte: Byte, bit: nat, value: bool, dir: nat, j: nat)
    requires bit < 8 && j < 8
    ensures CheckByte(SetBit(byte, bit, value, dir), j, dir) == if j == bit then value else CheckByte(byte, j, dir)
  {
  }

  /** Bit p of a bitmap, in the MSB-first order every caller uses. */
  predicate BitAt(bitmap: seq<Byte>, p: nat)
    requires p / 8 < |bitmap|
  {
    CheckByte(bitmap[p / 8], p % 8, 1)
  }

  /** One call of set_bit on the byte that holds bit p. */
  function PutBit(bitmap: seq<Byte>, p: nat, value: bool): (r: seq<Byte>)
    requires p / 8 < |bitmap|
    ensures |r| == |bitmap|
  {
    bitmap[p / 8 := SetBit(bitmap[p / 8], p % 8, value, 1)]
  }

  /** n calls of set_bit on the bits from lo upward: the meaning of every byte-wise fill. */
  function SetBits(bitmap: seq<Byte>, lo: nat, n: nat, value: bool): (r: seq<Byte>)
    requires lo + n <= 8 * |bitmap|
    ensures |r| == |bitmap|
  {
    if n == 0 then bitmap else PutBit(SetBits(bitmap, lo, n - 1, value), lo + n - 1, value)
  }

  lemma PutBitAt(bitmap: seq<Byte>, q: nat, value: bool, p: nat)
    requires q / 8 < |bitmap| && p / 8 < |bitmap|
    ensures BitAt(PutBit(bitmap, q, value), p) == if p == q then value else BitAt(bitmap, p)
  {
    if p / 8 == q / 8 {
      SetBitAt(bitmap[q / 8], q % 8, value, 1, p % 8);
      assert p == q <==> p % 8 == q % 8;
    }
  }

  /** b is a with exactly the bits [lo, hi) overwritten by value. */
  ghost predicate Written(a: seq<Byte>, b: seq<Byte>, lo: nat, hi: nat, value: bool) {
    |a| == |b| && forall p: nat :: p < 8 * |a| ==> BitAt(b, p) == if lo <= p < hi then value else BitAt(a, p)
  }

  lemma WrittenAppend(a: seq<Byte>, b: seq<Byte>, c: seq<Byte>, lo: nat, mid: nat, hi: nat, value: bool)
    requires lo <= mid <= hi && Written(a, b, lo, mid, value) && Written(b, c, mid, hi, value)
    ensures Written(a, c, lo, hi, value)
  {
  }

  lemma PutBitWrites(bitmap: seq<Byte>, q: nat, value: bool)
    requires q / 8 < |bitmap|
    ensures Written(bitmap, PutBit(bitmap, q, value), q, q + 1, value)
  {
    forall p: nat | p < 8 * |bitmap|
      ensures BitAt(PutBit(bitmap, q, value), p) == if q <= p < q + 1 then value else BitAt(bitmap, p)
    {
      PutBitAt(bitmap, q, value, p);
    }
  }

  /** n calls of set_bit write exactly the bits [lo, lo + n). */
  lemma {:induction false} SetBitsWrites(bitmap: seq<Byte>, lo: nat, n: nat, value: bool)
    requires lo + n <= 8 * |bitmap|
    ensures Written(bitmap, SetBits(bitmap, lo, n, value), lo, lo + n, value)
  {
    if n == 0 {
      assert SetBits(bitmap, lo, n, value) == bitmap;
    } else {
      SetBitsWrites(bitmap, lo, n - 1, value);
      var b, q := SetBits(bitmap, lo, n - 1, value), lo + n - 1;
      PutBitWrites(b, q, value);
      var c := PutBit(b, q, value);
      WrittenAppend(bitmap, b, c, lo, q, lo + n, value);
      assert SetBits(bitmap, lo, n, value) == c;
    }
  }

  /** A bitmap is determined by its bits. */
  lemma BitmapExtensionality(a: seq<Byte>, b: seq<Byte>)
    requires |a| == |b|
    requires forall p: nat :: p < 8 * |a| ==> BitAt(a, p) == BitAt(b, p)
    ensures a == b
  {
    forall q | 0 <= q < |a| ensures a[q] == b[q] {
      forall j: nat | j < 8 ensures a[q][j] == b[q][j] {
        var p := 8 * q + (7 - j);
        assert p / 8 == q && p % 8 == 7 - j;
        assert BitAt(a, p) == BitAt(b, p);
      }
    }
  }

  /** So writing a range of bits, by whatever byte operations, is n calls of set_bit. */
  lemma WrittenIsSetBits(a: seq<Byte>, b: seq<Byte>, lo: nat, n: nat, value: bool)
    requires lo + n <= 8 * |a| && Written(a, b, lo, lo + n, value)
    ensures b == SetBits(a, lo, n, value)
  {
    SetBitsWrites(a, lo, n, value);
    BitmapExtensionality(b, SetBits(a, lo, n, value));
  }

  /** The byte writes of a fill (|= and =) and of a clear (&= and =). */
  function SetTail(byte: Byte, k: nat): Byte { Or(byte, Shr(Ones(8), k)) }

  function ClearTail(byte: Byte, k: nat): Byte { And(byte, Not(Shr(Ones(8), k))) }

  function SetHead(byte: Byte, n: nat): Byte requires n < 8 { Or(byte, Shl(Ones(8), 8 - n)) }

  function ClearHead(byte: Byte, n: nat): Byte requires n < 8 { And(byte, Not(Shl(Ones(8), 8 - n))) }

  lemma ByteWrites(byte: Byte, k: nat, j: nat)
    requires k < 8 && j < 8
    ensures CheckByte(SetTail(byte, k), j, 1) == (k <= j || CheckByte(byte, j, 1))
    ensures CheckByte(ClearTail(byte, k), j, 1) == (j < k && CheckByte(byte, j, 1))
    ensures CheckByte(SetHead(byte, k), j, 1) == (j < k || CheckByte(byte, j, 1))
    ensures CheckByte(ClearHead(byte, k), j, 1) == (k <= j && CheckByte(byte, j, 1))
  {
  }

  lemma ByteWriteWrites(bitmap: seq<Byte>, q: nat, byte: Byte, lo: nat, hi: nat, value: bool)
    requires q < |bitmap| && lo <= hi <= 8
    requires forall j: nat :: j < 8 ==>
      CheckByte(byte, j, 1) == if lo <= j < hi then value else CheckByte(bitmap[q], j, 1)
    ensures Written(bitmap, bitmap[q := byte], 8 * q + lo, 8 * q + hi, value)
  {
    forall p: nat | p < 8 * |bitmap|
      ensures BitAt(bitmap[q := byte], p) == if 8 * q + lo <= p < 8 * q + hi then value else BitAt(bitmap, p)
    {
      assert p == 8 * (p / 8) + p % 8;
    }
  }

  /** From bit p to the end of its byte. */
  lemma TailWrites(bitmap: seq<Byte>, p: nat)
    requires p / 8 < |bitmap|
    ensures Written(bitmap, bitmap[p / 8 := SetTail(bitmap[p / 8], p % 8)], p, p + 8 - p % 8, true)
    ensures Written(bitmap, bitmap[p / 8 := ClearTail(bitmap[p / 8], p % 8)], p, p + 8 - p % 8, false)
  {
    var q, k := p / 8, p % 8;
    forall j: nat | j < 8
      ensures CheckByte(SetTail(bitmap[q], k), j, 1) == if k <= j < 8 then true else CheckByte(bitmap[q], j, 1)
      ensures CheckByte(ClearTail(bitmap[q], k), j, 1) == if k <= j < 8 then false else CheckByte(bitmap[q], j, 1)
    {
      ByteWrites(bitmap[q], k, j);
    }
    ByteWriteWrites(bitmap, q, SetTail(bitmap[q], k), k, 8, true);
    ByteWriteWrites(bitmap, q, ClearTail(bitmap[q], k), k, 8, false);
  }

  lemma WholeWrites(bitmap: seq<Byte>, p: nat)
    requires p % 8 == 0 && p / 8 < |bitmap|
    ensures Written(bitmap, bitmap[p / 8 := Ones(8)], p, p + 8, true)
    ensures Written(bitmap, bitmap[p / 8 := Zeros(8)], p, p + 8, false)
  {
    ByteWriteWrites(bitmap, p / 8, Ones(8), 0, 8, true);
    ByteWriteWrites(bitmap, p / 8, Zeros(8), 0, 8, false);
  }

  /** The last, masked write; with an empty mask it may fall anywhere inside a byte. */
  lemma HeadWrites(bitmap: seq<Byte>, p: nat, n: nat)
    requires p / 8 < |bitmap| && n < 8 && (p % 8 == 0 || n == 0)
    ensures Written(bitmap, bitmap[p / 8 := SetHead(bitmap[p / 8], n)], p, p + n, true)
    ensures Written(bitmap, bitmap[p / 8 := ClearHead(bitmap[p / 8], n)], p, p + n, false)
  {
    var q, k := p / 8, p % 8;
    forall j: nat | j < 8
      ensures CheckByte(SetHead(bitmap[q], n), j, 1) == if k <= j < k + n then true else CheckByte(bitmap[q], j, 1)
      ensures CheckByte(ClearHead(bitmap[q], n), j, 1) == if k <= j < k + n then false else CheckByte(bitmap[q], j, 1)
    {
      ByteWrites(bitmap[q], n, j);
    }
    ByteWriteWrites(bitmap, q, SetHead(bitmap[q], n), k, k + n, true);
    ByteWriteWrites(bitmap, q, ClearHead(bitmap[q], n), k, k + n, false);
  }
}
