/**
 * The CRC-32 replacement: a lazily built, cached 256-entry table and a
 * byte-wise table-driven register update over the reflected polynomial
 * 0xEDB88320, the algorithm of the sample code in section 8 of RFC 1952.
 *
 * Java `int` registers and table entries are `bv32` (the code only uses
 * bitwise operations and the logical shift `>>>` on them); Java bytes are
 * `bv8` bit patterns that the step sign-extends, as the Java expression
 * `crc ^ data[off]` does.
 */
module Crc32 {
  import opened JavaTypes
  import opened Iteration

  /** The reflected CRC-32 polynomial. */
  const POLY: bv32 := 0xEDB8_8320
  /** The Java `int` -1, with which the register is inverted. */
  const ONES: bv32 := 0xFFFF_FFFF
  /** The number of rounds per byte. */
  const BITS: nat := 8

  /** One round of the table builder: a logical shift right, XOR-ing the polynomial in when the low bit was set. */
  function Round(c: bv32): bv32
  {
    if c & 1 == 1 then POLY ^ (c >> 1) else c >> 1
  }

  /** The table entry for the byte value `n`: eight rounds starting from `n`. */
  function TableEntry(n: bv8): bv32
  {
    Iterate(Round, Widen(n), BITS)
  }

  /** Java's widening of a `byte` to `int`. */
  function SignExtend(b: bv8): (r: bv32)
    ensures r & 0xFF == b as bv32
    ensures r < 0x80 || r >= 0xFFFF_FF80
  {
    if b & 0x80 == 0 then b as bv32 else 0xFFFF_FF00 | b as bv32
  }

  /**
   * The table index of one step, `(crc ^ data[off]) & 0xFF`: only the low
   * eight bits of the sign-extended byte reach it.
   */
  function StepIndex(reg: bv32, b: bv8): (r: bv8)
    ensures Widen(r) == LowByte(Xor(reg, Widen(b)))
  {
    ((reg ^ SignExtend(b)) & 0xFF) as bv8
  }

  /** The table `makeCRCTable` fills: 256 entries, entry `n` at index `n`. */
  ghost predicate IsCrcTable(table: seq<bv32>)
  {
    |table| == 256 && forall n: bv8 {:trigger TableEntry(n)} :: table[n as int] == TableEntry(n)
  }

  /** The logical shift `>>> 8` that drops the register's low byte. */
  function ShiftOut(reg: bv32): bv32
  {
    reg >> 8
  }

  /** `crc ^ -1`: the register inverted, as it is before the first and after the last byte. */
  function Invert(reg: bv32): bv32
  {
    reg ^ ONES
  }

  /** `x & 0xFF`: the low byte of a register. */
  function LowByte(x: bv32): bv32
  {
    x & 0xFF
  }

  /** `x & 0xFFFFFF00`: the register with its low byte cleared. */
  function HighBytes(x: bv32): bv32
  {
    x & 0xFFFF_FF00
  }

  /** A byte's bit pattern as the low byte of a register, the rest zero. */
  function Widen(b: bv8): bv32
  {
    b as bv32
  }

  /** Java's `^` on `int`. */
  function Xor(a: bv32, b: bv32): bv32
  {
    a ^ b
  }

  /** One iteration of the update loop: `crc = (crc >>> 8) ^ crcTable[(crc ^ data[off]) & 0xFF]`. */
  function Step(table: seq<bv32>, reg: bv32, b: bv8): bv32
    requires |table| == 256
  {
    Xor(ShiftOut(reg), table[StepIndex(reg, b) as int])
  }

  /** The register after stepping over every byte of `bytes`, front to back. */
  function Register(table: seq<bv32>, reg: bv32, bytes: seq<bv8>): bv32
    requires |table| == 256
    decreases |bytes|
  {
    if bytes == [] then reg else Register(table, Step(table, reg, bytes[0]), bytes[1..])
  }

  /**
   * What `updateBytes(crc, data, off, len)` returns, given the table: the bytes
   * `data[off..len)` run through the inverted register; `len` is an exclusive
   * end index. An index outside `data` that the loop reaches raises
   * ArrayIndexOutOfBoundsException.
   */
  function UpdateBytesSpec(table: seq<bv32>, crc: bv32, data: seq<bv8>, off: int, len: int): Result<bv32, Throwable>
    requires |table| == 256
  {
    if off < len && (off < 0 || len > |data|) then Failure(ArrayIndexOutOfBoundsException)
    else Success(Invert(Register(table, Invert(crc), if off < len then data[off..len] else [])))
  }

  /** `update(int, int)`: a placeholder body that returns 0 whatever the register and the byte. */
  function Update(crc: int32, b: int32): (r: int32)
    ensures r == 0
  {
    0
  }

  // ---------------------------------------------------------------------
  // The static state: the cached table and the two methods that use it.
  // ---------------------------------------------------------------------

  /** The static field `cachedCrcTable` of the replacement class. */
  class CrcTableCache {
    var cachedCrcTable: array?<bv32>

    /** Once set, the cache holds the table. */
    ghost predicate Valid()
      reads this, cachedCrcTable
    {
      cachedCrcTable != null ==> IsCrcTable(cachedCrcTable[..])
    }

    /** The class as loaded: the cache is null. */
    constructor ()
      ensures Valid() && cachedCrcTable == null
    {
      cachedCrcTable := null;
    }

    /**
     * `makeCRCTable`: returns the cached table when there is one; otherwise
     * builds the table with two nested loops, caches it and returns it.
     */
    method MakeCRCTable() returns (t: array<bv32>)
      requires Valid()
      modifies this
      ensures Valid()
      ensures cachedCrcTable == t && IsCrcTable(t[..])
      ensures old(cachedCrcTable) != null ==> t == old(cachedCrcTable)
      ensures old(cachedCrcTable) == null ==> fresh(t)
    {
      if cachedCrcTable != null {
        return cachedCrcTable;
      }
      t := new bv32[256];
      var n := 0;
      while n < 256
        invariant 0 <= n <= 256
        invariant forall b: bv8 :: b as int < n ==> t[b as int] == TableEntry(b)
      {
        var c: bv32 := n as bv32;
        var k := 0;
        while k < 8
          invariant 0 <= k <= 8
          invariant c == Iterate(Round, n as bv32, k)
        {
          c := Round(c);
          k := k + 1;
        }
        ByteCast(n);
        assert c == TableEntry(n as bv8);
        t[n] := c;
        n := n + 1;
      }
      assert forall b: bv8 {:trigger TableEntry(b)} :: t[..][b as int] == TableEntry(b);
      cachedCrcTable := t;
    }

    /**
     * `updateBytes(crc, data, off, len)`: makes sure the table exists (filling
     * the cache), inverts the register, steps over `data[off..len)` and inverts
     * the result.
     */
    method UpdateBytes(crc: bv32, data: array<bv8>, off: int32, len: int32) returns (r: Result<bv32, Throwable>)
      requires Valid()
      modifies this
      ensures Valid() && cachedCrcTable != null
      ensures old(cachedCrcTable) != null ==> cachedCrcTable == old(cachedCrcTable)
      ensures r == UpdateBytesSpec(cachedCrcTable[..], crc, data[..], off as int, len as int)
    {
      var crcTable := cachedCrcTable;
      if crcTable == null {
        crcTable := MakeCRCTable();
      }
      ghost var bad := off < len && (off < 0 || len as int > data.Length);
      var reg := Invert(crc);
      var i := off;
      while i < len
        invariant off <= i
        invariant off < len ==> i <= len
        invariant off >= len || off < 0 ==> i == off
        invariant bad ==> i < len
        invariant !bad && off < len ==> i as int <= data.Length
        invariant !bad && off < len ==>
          Register(crcTable[..], reg, data[i..len]) == Register(crcTable[..], Invert(crc), data[off..len])
        invariant !bad && off >= len ==> reg == Invert(crc)
      {
        if i < 0 || i as int >= data.Length {
          return Failure(ArrayIndexOutOfBoundsException);
        }
        if !bad {
          assert data[i..len][0] == data[i] && data[i..len][1..] == data[i + 1..len];
        }
        reg := Xor(ShiftOut(reg), crcTable[StepIndex(reg, data[i]) as int]);
        i := i + 1;
      }
      if off < len {
        assert data[i..len] == [];
      }
      r := Success(Invert(reg));
    }
  }

  /** A table index below 256 names the same value as an `int`, a byte and a register. */
  lemma ByteCast(n: int)
    requires 0 <= n < 256
    ensures (n as bv8) as int == n && Widen(n as bv8) == n as bv32
  {
  }

  // ---------------------------------------------------------------------
  // The reference definition: the bit-at-a-time CRC of RFC 1952.
  // ---------------------------------------------------------------------

  /** Feeding one byte bit by bit: XOR it into the low end of the register, then eight rounds. */
  function BitwiseStep(reg: bv32, b: bv8): bv32
  {
    Iterate(Round, Xor(reg, Widen(b)), BITS)
  }

  /** The bit-at-a-time register after every byte of `bytes`. */
  function BitwiseRegister(reg: bv32, bytes: seq<bv8>): bv32
    decreases |bytes|
  {
    if bytes == [] then reg else BitwiseRegister(BitwiseStep(reg, bytes[0]), bytes[1..])
  }

  lemma RoundLinearOdd(a: bv32, b: bv32)
    requires a & 1 == 1 && b & 1 == 1
    ensures Round(a ^ b) == Round(a) ^ Round(b)
  {
  }

  lemma RoundLinearMixed(a: bv32, b: bv32)
    requires a & 1 == 1 && b & 1 == 0
    ensures Round(a ^ b) == Round(a) ^ Round(b) && Round(b ^ a) == Round(b) ^ Round(a)
  {
  }

  lemma RoundLinearEven(a: bv32, b: bv32)
    requires a & 1 == 0 && b & 1 == 0
    ensures Round(a ^ b) == Round(a) ^ Round(b)
  {
  }

  lemma LowBit(a: bv32)
    ensures a & 1 == 0 || a & 1 == 1
  {
  }

  /** A round is linear over GF(2): it distributes over XOR. */
  lemma RoundLinear(a: bv32, b: bv32)
    ensures Round(a ^ b) == Round(a) ^ Round(b)
  {
    LowBit(a);
    LowBit(b);
    if a & 1 == 1 {
      if b & 1 == 1 { RoundLinearOdd(a, b); } else { RoundLinearMixed(a, b); }
    } else {
      if b & 1 == 1 { RoundLinearMixed(b, a); } else { RoundLinearEven(a, b); }
    }
  }

  lemma RoundDistributes()
    ensures Distributes(Round, Xor)
  {
    forall a: bv32, b: bv32
      ensures Round(Xor(a, b)) == Xor(Round(a), Round(b))
    {
      RoundLinear(a, b);
    }
  }

  /** So are eight rounds. */
  lemma RoundsLinear(x: bv32, y: bv32, z: bv32)
    requires z == Xor(x, y)
    ensures Iterate(Round, z, BITS) == Xor(Iterate(Round, x, BITS), Iterate(Round, y, BITS))
  {
    RoundDistributes();
    IterateDistributes(Round, Xor, x, y, BITS);
  }

  /** Two rounds of a value whose two low bits are clear shift it right by two. */
  lemma TwoRoundsOfEven(x: bv32)
    requires x & 3 == 0
    ensures Iterate(Round, x, 2) == x >> 2
  {
    assert Round(x) == x >> 1;
    assert Round(x >> 1) == (x >> 1) >> 1 == x >> 2;
  }

  lemma ShiftByPairs(x: bv32)
    requires LowByte(x) == 0
    ensures x & 3 == 0 && (x >> 2) & 3 == 0 && ((x >> 2) >> 2) & 3 == 0 && (((x >> 2) >> 2) >> 2) & 3 == 0
    ensures (((x >> 2) >> 2) >> 2) >> 2 == ShiftOut(x)
  {
  }

  /** Eight rounds of a value whose low byte is zero only shift it right by eight. */
  lemma HighPartShifts(x: bv32)
    requires LowByte(x) == 0
    ensures Iterate(Round, x, BITS) == ShiftOut(x)
  {
    ShiftByPairs(x);
    var x2 := x >> 2;
    var x4 := x2 >> 2;
    var x6 := x4 >> 2;
    TwoRoundsOfEven(x);
    TwoRoundsOfEven(x2);
    TwoRoundsOfEven(x4);
    TwoRoundsOfEven(x6);
    EightInPairs(Round, x, x2, x4, x6, ShiftOut(x));
  }

  /** A register is its low byte XOR the rest. */
  lemma SplitLowByte(x: bv32)
    ensures x == Xor(LowByte(x), HighBytes(x))
    ensures LowByte(HighBytes(x)) == 0
  {
  }

  /**
   * Eight rounds of any register: the rest shifted down a byte, XOR eight
   * rounds of the low byte alone.
   */
  lemma RoundsSplit(x: bv32)
    ensures Iterate(Round, x, BITS) == Xor(ShiftOut(HighBytes(x)), Iterate(Round, LowByte(x), BITS))
  {
    SplitLowByte(x);
    RoundsLinear(LowByte(x), HighBytes(x), x);
    HighPartShifts(HighBytes(x));
    XorCommutes(Iterate(Round, LowByte(x), BITS), ShiftOut(HighBytes(x)));
  }

  lemma XorCommutes(a: bv32, b: bv32)
    ensures Xor(a, b) == Xor(b, a)
  {
  }

  /** Mixing a byte into the register leaves everything above the low byte alone. */
  lemma HighBitsOfStep(reg: bv32, b: bv8)
    ensures ShiftOut(HighBytes(Xor(reg, Widen(b)))) == ShiftOut(reg)
  {
  }

  /** The entry the step looks up is eight rounds of the low byte of `reg ^ b`. */
  lemma LookedUpEntry(table: seq<bv32>, reg: bv32, b: bv8)
    requires IsCrcTable(table)
    ensures table[StepIndex(reg, b) as int] == Iterate(Round, LowByte(Xor(reg, Widen(b))), BITS)
  {
    var i := StepIndex(reg, b);
    assert table[i as int] == TableEntry(i);
  }

  /**
   * The table-driven step equals the bitwise step: the table entry accounts for
   * the low byte and the shift for the rest.
   */
  lemma StepIsBitwiseStep(table: seq<bv32>, reg: bv32, b: bv8)
    requires IsCrcTable(table)
    ensures Step(table, reg, b) == BitwiseStep(reg, b)
  {
    LookedUpEntry(table, reg, b);
    RoundsSplit(Xor(reg, Widen(b)));
    HighBitsOfStep(reg, b);
  }

  /** The table-driven update computes the RFC 1952 CRC register over any byte string. */
  lemma {:induction false} RegisterIsBitwise(table: seq<bv32>, reg: bv32, bytes: seq<bv8>)
    requires IsCrcTable(table)
    ensures Register(table, reg, bytes) == BitwiseRegister(reg, bytes)
    decreases |bytes|
  {
    if bytes != [] {
      StepIsBitwiseStep(table, reg, bytes[0]);
      RegisterIsBitwise(table, Step(table, reg, bytes[0]), bytes[1..]);
    }
  }

  /** Updating over a concatenation is updating over its parts in turn. */
  lemma {:induction false} RegisterAppend(table: seq<bv32>, reg: bv32, a: seq<bv8>, b: seq<bv8>)
    requires |table| == 256
    ensures Register(table, reg, a + b) == Register(table, Register(table, reg, a), b)
    decreases |a|
  {
    if a == [] {
      assert a + b == b;
    } else {
      assert (a + b)[0] == a[0] && (a + b)[1..] == a[1..] + b;
      RegisterAppend(table, Step(table, reg, a[0]), a[1..], b);
    }
  }

  /**
   * An in-bounds call returns the CRC-32 of `data[off..len)` continued from
   * `crc`, as the bitwise definition computes it.
   */
  lemma UpdateBytesComputesCrc(table: seq<bv32>, crc: bv32, data: seq<bv8>, off: int, len: int)
    requires IsCrcTable(table)
    requires 0 <= off <= len <= |data|
    ensures UpdateBytesSpec(table, crc, data, off, len) == Success(Invert(BitwiseRegister(Invert(crc), data[off..len])))
  {
    RegisterIsBitwise(table, Invert(crc), data[off..len]);
    if off == len {
      assert data[off..len] == [];
    }
  }

  /** The call fails exactly when the loop would reach an index outside `data`. */
  lemma UpdateBytesFailsOutOfBounds(table: seq<bv32>, crc: bv32, data: seq<bv8>, off: int, len: int)
    requires |table| == 256
    ensures UpdateBytesSpec(table, crc, data, off, len).Failure? <==> (off < len && !(0 <= off && len <= |data|))
    ensures UpdateBytesSpec(table, crc, data, off, len).Failure? ==>
      (off < 0 && !(0 <= off < |data|)) || (0 <= len - 1 && !(0 <= len - 1 < |data|))
  {
  }

  /** An empty range (`off >= len`) returns `crc` unchanged, whatever `data` holds. */
  lemma EmptyRangeKeepsCrc(table: seq<bv32>, crc: bv32, data: seq<bv8>, off: int, len: int)
    requires |table| == 256
    requires off >= len
    ensures UpdateBytesSpec(table, crc, data, off, len) == Success(crc)
  {
    InvertTwice(crc);
  }

  lemma InvertTwice(v: bv32)
    ensures Invert(Invert(v)) == v
  {
  }

  /**
   * Continuing a CRC: updating over `data[off..mid)` and then `data[mid..len)`
   * gives the same value as one update over `data[off..len)`.
   */
  lemma UpdateBytesSplits(table: seq<bv32>, crc: bv32, data: seq<bv8>, off: int, mid: int, len: int)
    requires |table| == 256
    requires 0 <= off <= mid <= len <= |data|
    ensures UpdateBytesSpec(table, crc, data, off, mid).Success?
    ensures UpdateBytesSpec(table, UpdateBytesSpec(table, crc, data, off, mid).value, data, mid, len)
         == UpdateBytesSpec(table, crc, data, off, len)
  {
    var reg := Invert(crc);
    var a, b := data[off..mid], data[mid..len];
    assert data[off..len] == a + b;
    RegisterAppend(table, reg, a, b);
    if off == mid {
      assert a == [];
    }
    if mid == len {
      assert b == [];
    }
    InvertTwice(Register(table, reg, a));
  }

  /** The standard check value: the CRC-32 of the ASCII string "123456789" is 0xCBF43926. */
  lemma CheckValue(table: seq<bv32>)
    requires IsCrcTable(table)
    ensures UpdateBytesSpec(table, 0, [0x31, 0x32, 0x33, 0x34, 0x35, 0x36, 0x37, 0x38, 0x39], 0, 9) == Success(0xCBF4_3926)
  {
    var data: seq<bv8> := [0x31, 0x32, 0x33, 0x34, 0x35, 0x36, 0x37, 0x38, 0x39];
    UpdateBytesComputesCrc(table, 0, data, 0, 9);
    assert data[0..9] == data;
    BitwiseCheck();
  }

  lemma BitwiseCheck()
    ensures BitwiseRegister(ONES, [0x31, 0x32, 0x33, 0x34, 0x35, 0x36, 0x37, 0x38, 0x39]) == 0x340bc6d9
  {
    KnownStep(0xffffffff, 0x31, 0xffffffce, 0x7c231048);
    KnownStep(0x7c231048, 0x32, 0x7c23107a, 0xb0acbb32);
    KnownStep(0xb0acbb32, 0x33, 0xb0acbb01, 0x77b79c2d);
    KnownStep(0x77b79c2d, 0x34, 0x77b79c19, 0x641c1f5c);
    KnownStep(0x641c1f5c, 0x35, 0x641c1f69, 0x340ac5e3);
    KnownStep(0x340ac5e3, 0x36, 0x340ac5d5, 0xf68d2c9e);
    KnownStep(0xf68d2c9e, 0x37, 0xf68d2ca9, 0xaffc9660);
    KnownStep(0xaffc9660, 0x38, 0xaffc9658, 0x651f2550);
    KnownStep(0x651f2550, 0x39, 0x651f2569, 0x340bc6d9);
  }

  // ---------------------------------------------------------------------
  // `len` is an end index here, but a count for the callers of `updateBytes`.
  // ---------------------------------------------------------------------

  /**
   * What `CRC32.update(byte[], int off, int len)` asks of `updateBytes`: the
   * CRC over the `len` bytes starting at `off`. A range outside `data` raises
   * ArrayIndexOutOfBoundsException.
   */
  function UpdateBytesCounted(table: seq<bv32>, crc: bv32, data: seq<bv8>, off: int, len: int): Result<bv32, Throwable>
    requires |table| == 256
  {
    if len > 0 && (off < 0 || off + len > |data|) then Failure(ArrayIndexOutOfBoundsException)
    else Success(Invert(Register(table, Invert(crc), if len > 0 then data[off..off + len] else [])))
  }

  /** The counted update computes the CRC-32 of `data[off..off + len)`, continued from `crc`. */
  lemma CountedComputesCrc(table: seq<bv32>, crc: bv32, data: seq<bv8>, off: int, len: int)
    requires IsCrcTable(table)
    requires 0 <= off && 0 <= len && off + len <= |data|
    ensures UpdateBytesCounted(table, crc, data, off, len) == Success(Invert(BitwiseRegister(Invert(crc), data[off..off + len])))
  {
    RegisterIsBitwise(table, Invert(crc), data[off..off + len]);
    if len == 0 {
      assert data[off..off + len] == [];
    }
  }

  /** The counted update fails exactly when a non-empty range leaves `data`. */
  lemma CountedFailsOutOfBounds(table: seq<bv32>, crc: bv32, data: seq<bv8>, off: int, len: int)
    requires |table| == 256
    ensures UpdateBytesCounted(table, crc, data, off, len).Failure? <==> (len > 0 && !(0 <= off && off + len <= |data|))
  {
  }

  /** From offset 0 an end index and a count are the same number: both readings agree. */
  lemma EndIndexAgreesFromZero(table: seq<bv32>, crc: bv32, data: seq<bv8>, len: int)
    requires |table| == 256
    ensures UpdateBytesSpec(table, crc, data, 0, len) == UpdateBytesCounted(table, crc, data, 0, len)
  {
    if len > 0 && len <= |data| {
      assert data[0..0 + len] == data[0..len];
    }
  }

  /**
   * From offset 1 they differ: on the bytes "123" with `off = 1, len = 2` the
   * code returns the CRC-32 of "2" (0x1AD5BE0D), where the caller asked for
   * that of "23" (0x13792798).
   */
  lemma EndIndexIsNotCount(table: seq<bv32>)
    requires IsCrcTable(table)
    ensures UpdateBytesSpec(table, 0, [0x31, 0x32, 0x33], 1, 2) == Success(0x1AD5_BE0D)
    ensures UpdateBytesCounted(table, 0, [0x31, 0x32, 0x33], 1, 2) == Success(0x1379_2798)
  {
    var data: seq<bv8> := [0x31, 0x32, 0x33];
    UpdateBytesComputesCrc(table, 0, data, 1, 2);
    CountedComputesCrc(table, 0, data, 1, 2);
    assert data[1..2] == [0x32];
    assert data[1..1 + 2] == [0x32, 0x33];
    BitwiseShortInputs();
  }

  lemma BitwiseShortInputs()
    ensures BitwiseRegister(ONES, [0x32]) == 0xe52a41f2
    ensures BitwiseRegister(ONES, [0x32, 0x33]) == 0xec86d867
  {
    KnownStep(0xffffffff, 0x32, 0xffffffcd, 0xe52a41f2);
    KnownStep(0xe52a41f2, 0x33, 0xe52a41c1, 0xec86d867);
  }

  lemma KnownStep(reg: bv32, b: bv8, x: bv32, next: bv32)
    requires Xor(reg, Widen(b)) == x && Iterate(Round, x, 8) == next
    ensures BitwiseStep(reg, b) == next
  {
  }
}
