/**
 * Kotlin's `Int`: 32 bits in two's complement. A value is held as its four
 * bytes, least significant first, so that the bitwise operators the scanner
 * uses (`and`, `or`, `inv`, `shr`/`shl` by whole bytes) act byte by byte, and
 * `+`/`-` wrap around modulo 2^32 exactly as on the JVM.
 */
module Int32 {

  type Byte = x: int | 0 <= x < 256

  const MIN: int := -0x8000_0000   // Int.MIN_VALUE
  const MAX: int := 0x7FFF_FFFF    // Int.MAX_VALUE
  const MODULUS: int := 0x1_0000_0000

  datatype Int = Int(b0: Byte, b1: Byte, b2: Byte, b3: Byte)

  /** The bits read as an unsigned number. */
  function Unsigned(x: Int): (r: nat)
    ensures r < MODULUS
  {
    x.b0 + 256 * (x.b1 + 256 * (x.b2 + 256 * x.b3))
  }

  /** The signed number the bits denote (the sign bit is the top bit of `b3`). */
  function Value(x: Int): (r: int)
    ensures MIN <= r <= MAX
    ensures r >= 0 <==> x.b3 < 128
  {
    if x.b3 < 128 then Unsigned(x) else Unsigned(x) - MODULUS
  }

  /** The `Int` whose value is `v` modulo 2^32: the JVM's wrap-around. */
  function Of(v: int): (r: Int)
    ensures (Value(r) - v) % MODULUS == 0
    ensures MIN <= v <= MAX ==> Value(r) == v
  {
    var u := v % MODULUS;
    var r := FromUnsigned(u);
    assert MIN <= v <= MAX ==> Value(r) == v by {
      if MIN <= v <= MAX {
        if v >= 0 { assert u == v; } else { assert u == v + MODULUS; }
      }
    }
    r
  }

  /** The bytes of a number below 2^32, by repeated division by 256. */
  function FromUnsigned(u: nat): (r: Int)
    requires u < MODULUS
    ensures Unsigned(r) == u
  {
    var q1 := u / 256;
    var q2 := q1 / 256;
    var q3 := q2 / 256;
    Int(u % 256, q1 % 256, q2 % 256, q3)
  }

  /** Reading an `Int`'s value and wrapping it back gives the same bits. */
  lemma OfValue(x: Int)
    ensures Of(Value(x)) == x
  {
    assert Value(x) % MODULUS == Unsigned(x) by {
      assert Value(x) == Unsigned(x) - SignOf(x) * MODULUS;
    }
    FromUnsignedBytes(x);
  }

  /** Dividing the unsigned reading by 256 peels off the bytes from the lowest. */
  lemma FromUnsignedBytes(x: Int)
    ensures FromUnsigned(Unsigned(x)) == x
  {
    var h2 := x.b2 + 256 * x.b3;
    var h1 := x.b1 + 256 * h2;
    DivMod256(x.b0, h1);
    DivMod256(x.b1, h2);
    DivMod256(x.b2, x.b3);
  }

  lemma DivMod256(lo: Byte, hi: nat)
    ensures (lo + 256 * hi) / 256 == hi && (lo + 256 * hi) % 256 == lo
  {
  }

  /* ----------------------------- arithmetic ----------------------------- */

  /** The `Int` 1. */
  const ONE: Int := Int(1, 0, 0, 0)

  /** A sum or difference of two `Int` values, wrapped once into Int's range. */
  function Wrap(v: int): int {
    if v > MAX then v - MODULUS else if v < MIN then v + MODULUS else v
  }

  /** 1 when the sign bit is set: `Value(x) == Unsigned(x) - SignOf(x) * 2^32`. */
  function SignOf(x: Int): (s: int)
    ensures s == 0 || s == 1
    ensures Value(x) == Unsigned(x) - s * MODULUS
  {
    if x.b3 < 128 then 0 else 1
  }

  /** A value in Int's range that differs from `v` by a multiple of 2^32 is `Wrap(v)`. */
  lemma WrapUnique(v: int, w: int, k: int)
    requires -MODULUS <= v < MODULUS && MIN <= w <= MAX
    requires w == v + k * MODULUS
    ensures w == Wrap(v)
  {
  }

  /** Byte-wise sum with carries: the low 32 bits of `x + y` and the carry out of bit 31. */
  function AddBytes(x: Int, y: Int): (r: (Int, int))
    ensures 0 <= r.1 <= 1
    ensures Unsigned(r.0) + MODULUS * r.1 == Unsigned(x) + Unsigned(y)
  {
    var (s0, c0) := AddByte(x.b0, y.b0, 0);
    var (s1, c1) := AddByte(x.b1, y.b1, c0);
    var (s2, c2) := AddByte(x.b2, y.b2, c1);
    var (s3, c3) := AddByte(x.b3, y.b3, c2);
    (Int(s0, s1, s2, s3), c3)
  }

  /** One column of the adder: `a + b + carry` as a byte and the carry into the next byte. */
  function AddByte(a: Byte, b: Byte, carry: int): (r: (Byte, int))
    requires 0 <= carry <= 1
    ensures 0 <= r.1 <= 1 && r.0 + 256 * r.1 == a + b + carry
  {
    var s := a + b + carry;
    if s >= 256 then (s - 256, 1) else (s, 0)
  }

  /** Byte-wise difference with borrows: the low 32 bits of `x - y` and the borrow out of bit 31. */
  function SubBytes(x: Int, y: Int): (r: (Int, int))
    ensures 0 <= r.1 <= 1
    ensures Unsigned(r.0) - MODULUS * r.1 == Unsigned(x) - Unsigned(y)
  {
    var (d0, c0) := SubByte(x.b0, y.b0, 0);
    var (d1, c1) := SubByte(x.b1, y.b1, c0);
    var (d2, c2) := SubByte(x.b2, y.b2, c1);
    var (d3, c3) := SubByte(x.b3, y.b3, c2);
    (Int(d0, d1, d2, d3), c3)
  }

  /** One column of the subtractor: `a - b - borrow` as a byte and the borrow from the next byte. */
  function SubByte(a: Byte, b: Byte, borrow: int): (r: (Byte, int))
    requires 0 <= borrow <= 1
    ensures 0 <= r.1 <= 1 && r.0 - 256 * r.1 == a - b - borrow
  {
    var d := a - b - borrow;
    if d < 0 then (d + 256, 1) else (d, 0)
  }

  /** Two `Int`s with the same value have the same bits. */
  lemma ValueInjective()
    ensures forall a: Int, b: Int :: Value(a) == Value(b) ==> a == b
  {
    forall a: Int, b: Int | Value(a) == Value(b)
      ensures a == b
    {
      OfValue(a);
      OfValue(b);
    }
  }

  /**
   * `x + y` on `Int`: the `Int` whose value is the sum wrapped modulo 2^32.
   * `AddIsBytes` shows it is what the byte-wise adder with carries computes.
   */
  function Add(x: Int, y: Int): (r: Int)
    ensures Value(r) == Wrap(Value(x) + Value(y))
  {
    AddWraps(x, y);
    ValueInjective();
    var r :| Value(r) == Wrap(Value(x) + Value(y)); r
  }

  /**
   * `x - y` on `Int`: the `Int` whose value is the difference wrapped modulo
   * 2^32. `SubIsBytes` shows it is what the byte-wise subtractor computes.
   */
  function Sub(x: Int, y: Int): (r: Int)
    ensures Value(r) == Wrap(Value(x) - Value(y))
  {
    SubWraps(x, y);
    ValueInjective();
    var r :| Value(r) == Wrap(Value(x) - Value(y)); r
  }

  /** The sum is the low 32 bits of the byte-wise sum with carries. */
  lemma AddIsBytes(x: Int, y: Int)
    ensures Add(x, y) == AddBytes(x, y).0
  {
    AddWraps(x, y);
    ValueInjective();
  }

  /** The difference is the low 32 bits of the byte-wise difference with borrows. */
  lemma SubIsBytes(x: Int, y: Int)
    ensures Sub(x, y) == SubBytes(x, y).0
  {
    SubWraps(x, y);
    ValueInjective();
  }

  lemma AddWraps(x: Int, y: Int)
    ensures Value(AddBytes(x, y).0) == Wrap(Value(x) + Value(y))
  {
    var (r, c) := AddBytes(x, y);
    var sx, sy, sr := SignOf(x), SignOf(y), SignOf(r);
    var k := sx + sy - c - sr;
    assert Unsigned(r) + MODULUS * c == Unsigned(x) + Unsigned(y);
    assert Value(r) == Unsigned(r) - sr * MODULUS;
    assert Value(x) + Value(y) == Unsigned(x) + Unsigned(y) - (sx + sy) * MODULUS;
    assert Value(r) == Value(x) + Value(y) + k * MODULUS;
    WrapUnique(Value(x) + Value(y), Value(r), k);
  }

  lemma SubWraps(x: Int, y: Int)
    ensures Value(SubBytes(x, y).0) == Wrap(Value(x) - Value(y))
  {
    var (r, c) := SubBytes(x, y);
    var sx, sy, sr := SignOf(x), SignOf(y), SignOf(r);
    var k := sx - sy + c - sr;
    assert Unsigned(r) - MODULUS * c == Unsigned(x) - Unsigned(y);
    assert Value(r) == Unsigned(r) - sr * MODULUS;
    assert Value(x) - Value(y) == Unsigned(x) - Unsigned(y) - (sx - sy) * MODULUS;
    assert Value(r) == Value(x) - Value(y) + k * MODULUS;
    WrapUnique(Value(x) - Value(y), Value(r), k);
  }

  /** Wrapping agrees with `Of`: the same bits as `Of(Value(x) + Value(y))`. */
  lemma AddIsOf(x: Int, y: Int)
    ensures Add(x, y) == Of(Value(x) + Value(y))
  {
    var r := Add(x, y);
    OfValue(r);
    WrapIsOf(Value(x) + Value(y));
  }

  /** A sum of two values wrapped once has the same bits as the sum itself. */
  lemma WrapIsOf(v: int)
    ensures Of(Wrap(v)) == Of(v)
  {
    var w := Wrap(v);
    if v > MAX {
      assert w + MODULUS == v;
      OfShift(w);
    } else if v < MIN {
      assert v + MODULUS == w;
      OfShift(v);
    }
  }

  /** Numbers 2^32 apart have the same `Int`. */
  lemma OfShift(v: int)
    ensures Of(v + MODULUS) == Of(v)
  {
    assert (v + MODULUS) % MODULUS == v % MODULUS;
  }

  /** Adding 1 to an `Int` whose low byte is below 255 increments that byte. */
  lemma IncrementLowByte(x: Int)
    requires x.b0 < 255
    ensures Add(x, ONE) == Int(x.b0 + 1, x.b1, x.b2, x.b3)
  {
    AddIsBytes(x, ONE);
  }

  /** Subtracting 1 from an `Int` whose low byte is above 0 decrements that byte. */
  lemma DecrementLowByte(x: Int)
    requires x.b0 > 0
    ensures Sub(x, ONE) == Int(x.b0 - 1, x.b1, x.b2, x.b3)
  {
    SubIsBytes(x, ONE);
  }

  /* ----------------------------- bitwise operators ----------------------------- */

  /** Bitwise `and` of two naturals, one bit at a time from the lowest. */
  function BitAnd(x: nat, y: nat): (r: nat)
    ensures r <= x && r <= y
  {
    if x == 0 || y == 0 then 0
    else 2 * BitAnd(x / 2, y / 2) + (if x % 2 == 1 && y % 2 == 1 then 1 else 0)
  }

  /** Bitwise `or` of two naturals, one bit at a time from the lowest. */
  function BitOr(x: nat, y: nat): (r: nat)
    ensures r <= x + y
  {
    if x == 0 then y
    else if y == 0 then x
    else 2 * BitOr(x / 2, y / 2) + (if x % 2 == 1 || y % 2 == 1 then 1 else 0)
  }

  /** 2 to the power `k`. */
  function Pow2(k: nat): (r: nat)
    ensures r >= 1
  {
    if k == 0 then 1 else 2 * Pow2(k - 1)
  }

  /** `or` of two numbers below 2^k stays below 2^k. */
  lemma {:induction false} BitOrBound(x: nat, y: nat, k: nat)
    requires x < Pow2(k) && y < Pow2(k)
    ensures BitOr(x, y) < Pow2(k)
  {
    if x != 0 && y != 0 {
      BitOrBound(x / 2, y / 2, k - 1);
    }
  }

  function ByteAnd(x: Byte, y: Byte): Byte {
    BitAnd(x, y)
  }

  function ByteOr(x: Byte, y: Byte): Byte {
    assert Pow2(8) == 256;
    BitOrBound(x, y, 8);
    BitOr(x, y)
  }

  /** The complement of each of a byte's eight bits. */
  function ByteInv(x: Byte): Byte {
    255 - x
  }

  /** `0`, all 32 bits clear. */
  const ZERO: Int := Int(0, 0, 0, 0)
  /** `-1`, all 32 bits set. */
  const ALL_ONES: Int := Int(255, 255, 255, 255)

  /** `x and y` */
  function And(x: Int, y: Int): (r: Int)
    ensures y == ALL_ONES ==> r == x
    ensures y == ZERO ==> r == ZERO
  {
    ByteAndIdentities(x.b0);
    ByteAndIdentities(x.b1);
    ByteAndIdentities(x.b2);
    ByteAndIdentities(x.b3);
    Int(ByteAnd(x.b0, y.b0), ByteAnd(x.b1, y.b1), ByteAnd(x.b2, y.b2), ByteAnd(x.b3, y.b3))
  }

  /** `x or y` */
  function Or(x: Int, y: Int): (r: Int)
    ensures y == ZERO ==> r == x
    ensures y == ALL_ONES ==> r == ALL_ONES
  {
    ByteOrIdentities(x.b0);
    ByteOrIdentities(x.b1);
    ByteOrIdentities(x.b2);
    ByteOrIdentities(x.b3);
    Int(ByteOr(x.b0, y.b0), ByteOr(x.b1, y.b1), ByteOr(x.b2, y.b2), ByteOr(x.b3, y.b3))
  }

  /** Bit `k` of a natural number, counting from the lowest. */
  function Bit(x: nat, k: nat): bool {
    if k == 0 then x % 2 == 1 else Bit(x / 2, k - 1)
  }

  lemma {:induction false} BitOfZero(k: nat)
    ensures !Bit(0, k)
  {
    if k > 0 {
      BitOfZero(k - 1);
    }
  }

  /** `BitAnd` is bitwise: each bit of the result is the conjunction of the operands' bits. */
  lemma {:induction false} BitAndBits(x: nat, y: nat, k: nat)
    ensures Bit(BitAnd(x, y), k) <==> Bit(x, k) && Bit(y, k)
  {
    if x == 0 || y == 0 {
      BitOfZero(k);
    } else {
      var low := if x % 2 == 1 && y % 2 == 1 then 1 else 0;
      var high := BitAnd(x / 2, y / 2);
      assert BitAnd(x, y) == 2 * high + low;
      Halve(high, low);
      if k > 0 {
        assert Bit(BitAnd(x, y), k) == Bit(high, k - 1);
        BitAndBits(x / 2, y / 2, k - 1);
      }
    }
  }

  /** `BitOr` is bitwise: each bit of the result is the disjunction of the operands' bits. */
  lemma {:induction false} BitOrBits(x: nat, y: nat, k: nat)
    ensures Bit(BitOr(x, y), k) <==> Bit(x, k) || Bit(y, k)
  {
    if x == 0 || y == 0 {
      BitOfZero(k);
    } else {
      var low := if x % 2 == 1 || y % 2 == 1 then 1 else 0;
      var high := BitOr(x / 2, y / 2);
      assert BitOr(x, y) == 2 * high + low;
      Halve(high, low);
      if k > 0 {
        assert Bit(BitOr(x, y), k) == Bit(high, k - 1);
        BitOrBits(x / 2, y / 2, k - 1);
      }
    }
  }

  /** Halving `2 * high + low` drops the low bit `low`. */
  lemma Halve(high: nat, low: nat)
    requires low <= 1
    ensures (2 * high + low) / 2 == high && (2 * high + low) % 2 == low
  {
  }

  /** The byte that holds bit `k` of an `Int` (byte 0 holds bits 0 to 7). */
  function ByteAt(x: Int, k: nat): Byte
    requires k < 32
  {
    if k < 8 then x.b0 else if k < 16 then x.b1 else if k < 24 then x.b2 else x.b3
  }

  /** Bit `k` of the 32-bit two's-complement pattern of `x`. */
  function IntBit(x: Int, k: nat): bool
    requires k < 32
  {
    Bit(ByteAt(x, k), k % 8)
  }

  /** `and` on `Int` is bitwise over all 32 bits. */
  lemma AndBits(x: Int, y: Int, k: nat)
    requires k < 32
    ensures IntBit(And(x, y), k) <==> IntBit(x, k) && IntBit(y, k)
  {
    assert ByteAt(And(x, y), k) == BitAnd(ByteAt(x, k), ByteAt(y, k));
    BitAndBits(ByteAt(x, k), ByteAt(y, k), k % 8);
  }

  /** `or` on `Int` is bitwise over all 32 bits. */
  lemma OrBits(x: Int, y: Int, k: nat)
    requires k < 32
    ensures IntBit(Or(x, y), k) <==> IntBit(x, k) || IntBit(y, k)
  {
    assert ByteAt(Or(x, y), k) == BitOr(ByteAt(x, k), ByteAt(y, k));
    BitOrBits(ByteAt(x, k), ByteAt(y, k), k % 8);
  }

  /** `x.inv()` */
  function Inv(x: Int): (r: Int)
    ensures Value(r) == -Value(x) - 1
  {
    Int(ByteInv(x.b0), ByteInv(x.b1), ByteInv(x.b2), ByteInv(x.b3))
  }

  /** `and` with all ones below 2^k keeps a number below 2^k; `and` with 0 clears it. */
  lemma {:induction false} BitAndAllOnes(x: nat, k: nat)
    requires x < Pow2(k)
    ensures BitAnd(x, Pow2(k) - 1) == x
  {
    if x != 0 {
      BitAndAllOnes(x / 2, k - 1);
      assert (Pow2(k) - 1) / 2 == Pow2(k - 1) - 1;
    }
  }

  /** `or` with all ones below 2^k gives all ones. */
  lemma {:induction false} BitOrAllOnes(x: nat, k: nat)
    requires x < Pow2(k)
    ensures BitOr(x, Pow2(k) - 1) == Pow2(k) - 1
  {
    if x != 0 {
      BitOrAllOnes(x / 2, k - 1);
      assert (Pow2(k) - 1) / 2 == Pow2(k - 1) - 1;
    }
  }

  lemma ByteAndIdentities(x: Byte)
    ensures ByteAnd(x, 255) == x && ByteAnd(x, 0) == 0
  {
    assert Pow2(8) == 256;
    BitAndAllOnes(x, 8);
  }

  lemma ByteOrIdentities(x: Byte)
    ensures ByteOr(x, 0) == x && ByteOr(x, 255) == 255
  {
    assert Pow2(8) == 256;
    BitOrAllOnes(x, 8);
  }
}
