/** Decoding emulator memory into integers (src/emulator.py).

    The abstract `read_one_byte` of the emulator base class is modelled as a
    total function from addresses to bytes; everything else in the file is
    built on top of it.  Python's unbounded integers are Dafny's `nat`/`int`,
    so shifts are multiplications and divisions by powers of two and a mask
    `x & (2^n - 1)` is `x % 2^n`.  The bitwise OR that assembles a
    little-endian value is modelled by `BitOr` and proved to coincide with
    addition when the operands occupy disjoint bits. */
module Emulator {
  import opened Wrappers

  type Byte = b: int | 0 <= b < 256

  /** `read_one_byte`: the byte stored at every address. */
  type Memory = int -> Byte

  function Pow(base: nat, n: nat): (r: nat)
    ensures base > 0 ==> r > 0
  {
    if n == 0 then 1 else base * Pow(base, n - 1)
  }

  lemma {:induction false} PowAdd(base: nat, m: nat, n: nat)
    ensures Pow(base, m + n) == Pow(base, m) * Pow(base, n)
  {
    if n > 0 {
      PowAdd(base, m, n - 1);
      calc {
        Pow(base, m + n);
        base * Pow(base, m + n - 1);
        base * (Pow(base, m) * Pow(base, n - 1));
        Pow(base, m) * (base * Pow(base, n - 1));
      }
    }
  }

  /** `x << n` */
  function ShiftLeft(x: nat, n: nat): nat {
    x * Pow(2, n)
  }

  /** `x >> n` */
  function ShiftRight(x: nat, n: nat): nat {
    x / Pow(2, n)
  }

  /** `x & (2^n - 1)`, e.g. `x & 0x0F` for n = 4 and `x & 1` for n = 1 */
  function Mask(x: nat, n: nat): nat {
    x % Pow(2, n)
  }

  /** `a | b` on non-negative integers, bit by bit from the least significant. */
  function BitOr(a: nat, b: nat): nat
    decreases a + b
  {
    if a == 0 then b
    else if b == 0 then a
    else 2 * BitOr(a / 2, b / 2) + (if a % 2 == 1 || b % 2 == 1 then 1 else 0)
  }

  /** OR-ing a value below 2^k with a multiple of 2^k adds them: the bits are disjoint. */
  lemma {:induction false} BitOrDisjoint(a: nat, b: nat, k: nat)
    requires a < Pow(2, k)
    ensures BitOr(a, b * Pow(2, k)) == a + b * Pow(2, k)
  {
    if k == 0 {
      assert a == 0;
    } else if a != 0 && b != 0 {
      var c := b * Pow(2, k);
      assert c == 2 * (b * Pow(2, k - 1));
      assert c / 2 == b * Pow(2, k - 1) && c % 2 == 0;
      BitOrDisjoint(a / 2, b, k - 1);
      assert BitOr(a, c) == 2 * (a / 2 + c / 2) + a % 2;
    }
  }

  /** The value of `size` bytes stored least significant first from `address`:
      the sum of byte(address + i) * 256^i over i < size. */
  function LittleEndian(mem: Memory, address: int, size: nat): (r: nat)
    ensures r < Pow(2, 8 * size)
  {
    if size == 0 then 0
    else
      var low := LittleEndian(mem, address, size - 1);
      var p := Pow(2, 8 * (size - 1));
      PlaceValueBound(low, mem(address + size - 1), p);
      PowByteStep(size);
      low + mem(address + size - 1) * p
  }

  /** One more byte multiplies the place value by 256. */
  lemma PowByteStep(size: nat)
    requires size > 0
    ensures Pow(2, 8 * size) == 256 * Pow(2, 8 * (size - 1))
  {
    PowAdd(2, 8 * (size - 1), 8);
    assert 8 * (size - 1) + 8 == 8 * size;
    assert Pow(2, 8) == 256;
  }

  /** A digit below 256 at place value p on top of a value below p stays below 256 * p. */
  lemma PlaceValueBound(low: nat, b: nat, p: nat)
    requires low < p && b < 256
    ensures low + b * p < 256 * p
  {
    MulMonotone(b, 255, p);
  }

  /** The hex branch of `read_memory`: OR in each byte shifted by 8*i. A negative
      size gives an empty `range` and so the value 0. */
  method ReadLittleEndian(mem: Memory, address: int, size: int) returns (result: nat)
    ensures result == LittleEndian(mem, address, if size < 0 then 0 else size)
    ensures size >= 0 ==> result < Pow(2, 8 * size)
  {
    var count := if size < 0 then 0 else size;
    result := 0;
    for i := 0 to count
      invariant result == LittleEndian(mem, address, i)
    {
      BitOrDisjoint(result, mem(address + i), 8 * i);
      result := BitOr(result, ShiftLeft(mem(address + i), 8 * i));
    }
  }

  /** `10 * ((value >> 4) & 0x0F) + (value & 0x0F)`: the two nibbles read as
      decimal digits; nibbles above 9 are not rejected, so the result reaches 165. */
  function DecimalDigits(value: nat): (r: nat)
    ensures value < 256 ==> r <= 165
  {
    10 * Mask(ShiftRight(value, 4), 4) + Mask(value, 4)
  }

  /** The packed-BCD byte for a number below 100. */
  function EncodeDecimal(d: nat): (b: Byte)
    requires d < 100
  {
    16 * (d / 10) + d % 10
  }

  /** Decoding a packed-BCD byte recovers the number, and a byte whose nibbles
      are both decimal digits is the encoding of its decoded value. */
  lemma DecimalDigitsRoundTrip(d: nat, b: Byte)
    requires d < 100
    ensures DecimalDigits(EncodeDecimal(d)) == d
    ensures b / 16 <= 9 && b % 16 <= 9 ==> DecimalDigits(b) < 100 && EncodeDecimal(DecimalDigits(b)) == b
  {
    var e := EncodeDecimal(d);
    DivModUnique(e, 16, d / 10, d % 10);
    DecimalDigitsNibbles(e);
    DecimalDigitsNibbles(b);
    if b / 16 <= 9 && b % 16 <= 9 {
      var v := DecimalDigits(b);
      DivModUnique(v, 10, b / 16, b % 16);
    }
  }

  /** The two nibbles of a byte, read as decimal digits. */
  lemma DecimalDigitsNibbles(b: Byte)
    ensures DecimalDigits(b) == 10 * (b / 16) + b % 16
  {
    assert Pow(2, 4) == 16;
    assert b / 16 < 16;
  }

  /** 1 + 100 + ... + 100^(n-1) */
  function RepUnit100(n: nat): nat {
    if n == 0 then 0 else RepUnit100(n - 1) + Pow(100, n - 1)
  }

  /** `read_memory_decimal`: every iteration reads the byte at `address`
      itself (not `address + i`), so the result is that byte's decimal value
      repeated in every pair of digits. */
  method ReadMemoryDecimal(mem: Memory, address: int, size: int) returns (result: nat)
    ensures result == DecimalDigits(mem(address)) * RepUnit100(if size < 0 then 0 else size)
    ensures size == 1 ==> result == DecimalDigits(mem(address))
  {
    var count := if size < 0 then 0 else size;
    result := 0;
    for i := 0 to count
      invariant result == DecimalDigits(mem(address)) * RepUnit100(i)
    {
      var value := ReadLittleEndian(mem, address, 1);
      assert value == Read8(mem, address);
      var toDec := 10 * Mask(ShiftRight(value, 4), 4) + Mask(value, 4);
      RepUnitStep(toDec, i);
      result := result + toDec * Pow(100, i);
    }
    assert RepUnit100(1) == 1;
  }

  lemma RepUnitStep(d: nat, i: nat)
    ensures d * RepUnit100(i + 1) == d * RepUnit100(i) + d * Pow(100, i)
  {
    var u, p := RepUnit100(i), Pow(100, i);
    assert RepUnit100(i + 1) == u + p;
    assert d * (u + p) == d * u + d * p;
  }

  /** `read_memory`: the hex and dec encodings, and the failed assertion for
      any other type name. */
  method ReadMemory(mem: Memory, address: int, size: int, kind: string := "hex") returns (r: Result<nat>)
    ensures kind == "hex" ==> r == Success(LittleEndian(mem, address, if size < 0 then 0 else size))
    ensures kind == "dec" ==> r == Success(DecimalDigits(mem(address)) * RepUnit100(if size < 0 then 0 else size))
    ensures r.Failure? <==> kind != "hex" && kind != "dec"
  {
    if kind == "hex" {
      var value := ReadLittleEndian(mem, address, size);
      r := Success(value);
    } else if kind == "dec" {
      var value := ReadMemoryDecimal(mem, address, size);
      r := Success(value);
    } else {
      r := Failure(AssertionError("Invalid type"));
    }
  }

  /** `read_bit`: bit number `bit` of the byte at `address`. */
  function ReadBit(mem: Memory, address: int, bit: nat): (r: nat)
    ensures r <= 1
  {
    Mask(ShiftRight(LittleEndian(mem, address, 1), bit), 1)
  }

  /** `read8` */
  function Read8(mem: Memory, address: int): (r: nat)
    ensures r == mem(address)
  {
    LittleEndian(mem, address, 1)
  }

  /** `read16`: two bytes, least significant first. */
  function Read16(mem: Memory, address: int): (r: nat)
    ensures r == mem(address) + 256 * mem(address + 1)
    ensures r < 65536
  {
    assert Pow(2, 0) == 1 && Pow(2, 8) == 256;
    assert LittleEndian(mem, address, 1) == mem(address);
    LittleEndian(mem, address, 2)
  }

  /** The sum of the first n bits of the byte at `address`, each weighted by its place value. */
  function BitsValue(mem: Memory, address: int, n: nat): nat {
    if n == 0 then 0 else BitsValue(mem, address, n - 1) + ReadBit(mem, address, n - 1) * Pow(2, n - 1)
  }

  /** The bits `read_bit` reports for positions 0..n-1 reassemble the byte modulo 2^n;
      for n = 8, the whole byte. */
  lemma {:induction false} BitsReassemble(mem: Memory, address: int, n: nat)
    ensures BitsValue(mem, address, n) == mem(address) % Pow(2, n)
    ensures n >= 8 ==> BitsValue(mem, address, n) == mem(address)
  {
    var x: nat := mem(address);
    if n > 0 {
      BitsReassemble(mem, address, n - 1);
      var p := Pow(2, n - 1);
      assert Pow(2, n) == p * 2;
      assert ReadBit(mem, address, n - 1) == (x / p) % 2 by {
        assert Read8(mem, address) == x;
        assert Pow(2, 1) == 2;
      }
      ModSplit(x, p);
    }
    if n >= 8 {
      PowMonotone(8, n);
      assert Pow(2, 8) == 256;
      DivModUnique(x, Pow(2, n), 0, x);
    }
  }

  lemma ModSplit(x: nat, p: nat)
    requires p > 0
    ensures x % (p * 2) == x % p + ((x / p) % 2) * p
  {
    var q, r := x / p, x % p;
    var h, b := q / 2, q % 2;
    assert x == q * p + r;
    assert q * p == (2 * h + b) * p == h * (p * 2) + b * p;
    DivModUnique(x, p * 2, h, b * p + r);
  }

  lemma DivModUnique(x: int, d: int, q: int, r: int)
    requires d > 0 && x == q * d + r && 0 <= r < d
    ensures x % d == r && x / d == q
  {
    var q', r' := x / d, x % d;
    assert x == q' * d + r';
    if q' < q {
      MulMonotone(q' + 1, q, d);
      assert false;
    } else if q < q' {
      MulMonotone(q + 1, q', d);
      assert false;
    }
  }

  lemma MulMonotone(a: int, b: int, d: int)
    requires a <= b && d >= 0
    ensures a * d <= b * d
  {
    assert b * d - a * d == (b - a) * d;
  }

  lemma {:induction false} PowMonotone(m: nat, n: nat)
    requires m <= n
    ensures Pow(2, m) <= Pow(2, n)
  {
    if m < n {
      PowMonotone(m, n - 1);
    }
  }

  /** `n` written as `size` bytes, least significant first. */
  function EncodeLittleEndian(n: nat, size: nat): (bytes: seq<Byte>)
    ensures |bytes| == size
  {
    if size == 0 then [] else [n % 256] + EncodeLittleEndian(n / 256, size - 1)
  }

  /** Memory with `bytes` stored from `address` on. */
  function WithBytes(mem: Memory, address: int, bytes: seq<Byte>): Memory {
    a => if address <= a < address + |bytes| then bytes[a - address] else mem(a)
  }

  /** A little-endian value depends only on the bytes it covers. */
  lemma {:induction false} LittleEndianFrame(m1: Memory, m2: Memory, address: int, size: nat)
    requires forall a :: address <= a < address + size ==> m1(a) == m2(a)
    ensures LittleEndian(m1, address, size) == LittleEndian(m2, address, size)
  {
    if size > 0 {
      LittleEndianFrame(m1, m2, address, size - 1);
    }
  }

  /** Peeling off the lowest byte instead of the highest. */
  lemma {:induction false} LittleEndianLowByte(mem: Memory, address: int, size: nat)
    ensures LittleEndian(mem, address, size + 1) == mem(address) + 256 * LittleEndian(mem, address + 1, size)
  {
    if size > 0 {
      LittleEndianLowByte(mem, address, size - 1);
      var p, top := Pow(2, 8 * (size - 1)), mem(address + size);
      var inner := LittleEndian(mem, address + 1, size - 1);
      PowByteStep(size);
      assert LittleEndian(mem, address, size + 1) == LittleEndian(mem, address, size) + top * Pow(2, 8 * size);
      assert LittleEndian(mem, address + 1, size) == inner + top * p;
      MulCommute(top, 256, p);
    }
  }

  lemma MulCommute(a: int, b: int, c: int)
    ensures a * (b * c) == b * (a * c)
  {
  }

  /** Storing n < 256^size little-endian and reading it back yields n. */
  lemma {:induction false} LittleEndianRoundTrip(mem: Memory, address: int, n: nat, size: nat)
    requires n < Pow(2, 8 * size)
    decreases size
    ensures LittleEndian(WithBytes(mem, address, EncodeLittleEndian(n, size)), address, size) == n
  {
    if size > 0 {
      var bytes := EncodeLittleEndian(n, size);
      var stored := WithBytes(mem, address, bytes);
      var rest := EncodeLittleEndian(n / 256, size - 1);
      PowAdd(2, 8, 8 * (size - 1));
      assert Pow(2, 8) == 256;
      assert n / 256 < Pow(2, 8 * (size - 1));
      LittleEndianRoundTrip(mem, address + 1, n / 256, size - 1);
      LittleEndianFrame(stored, WithBytes(mem, address + 1, rest), address + 1, size - 1);
      LittleEndianLowByte(stored, address, size - 1);
    }
  }
}
