/**
 * The CRC-32 of the stored-ZIP writer (src/export/xlsx.ts:181-197): a 256-entry
 * table and one lookup per byte, proved equal to the CRC that shifts the message
 * into the register one bit at a time (section 8 of RFC 1952).
 */
module Crc32 {
  import opened Bytes

  /** An unsigned 32-bit register. */
  datatype Word = Word(bits: bv32)

  const POLYNOMIAL := Word(0xEDB8_8320)
  const ALL_ONES := Word(0xFFFF_FFFF)
  const ZERO := Word(0)

  function Xor(x: Word, y: Word): Word {
    Word(x.bits ^ y.bits)
  }

  function OfByte(b: byte): Word {
    Word(b as bv32)
  }

  function LowBit(x: Word): Word {
    Word(x.bits & 1)
  }

  predicate Odd(x: Word) {
    LowBitSet(x.bits)
  }

  predicate LowBitSet(bits: bv32) {
    bits & 1 == 1
  }

  function LowByte(x: Word): Word {
    Word(x.bits & 0xFF)
  }

  function ShiftRight(x: Word): Word {
    Word(Half(x.bits))
  }

  function Half(bits: bv32): bv32 {
    bits >> 1
  }

  function ShiftRight8(x: Word): Word {
    Word(x.bits >> 8)
  }

  /** One shift of the reflected register: the bit that leaves it decides whether the polynomial is added. */
  function Shift(c: Word): Word {
    if Odd(c) then Xor(POLYNOMIAL, ShiftRight(c)) else ShiftRight(c)
  }

  function Shifts(c: Word, n: nat): Word
    decreases n
  {
    if n == 0 then c else Shifts(Shift(c), n - 1)
  }

  // ----- The reference: bit by bit, no table -----

  /** Feeds the n lowest bits of `message`, least significant first. */
  function Feed(c: Word, message: Word, n: nat): Word
    decreases n
  {
    if n == 0 then c else Feed(Shift(Xor(c, LowBit(message))), ShiftRight(message), n - 1)
  }

  function FeedByte(c: Word, b: byte): Word {
    Feed(c, OfByte(b), 8)
  }

  /** The register after `data`, started from c. */
  function Register(c: Word, data: seq<byte>): Word
    decreases |data|
  {
    if data == [] then c else FeedByte(Register(c, data[..|data| - 1]), data[|data| - 1])
  }

  function Crc(data: seq<byte>): Word {
    Xor(Register(ALL_ONES, data), ALL_ONES)
  }

  // ----- The table-driven code -----

  /** The register an index of the table stands for. */
  function OfIndex(n: nat): Word
    requires n < 256
  {
    Word(n as bv32)
  }

  ghost predicate IsCrcTable(table: seq<Word>) {
    |table| == 256 && forall n :: 0 <= n < 256 ==> table[n] == Shifts(OfIndex(n), 8)
  }

  method BuildTable() returns (table: array<Word>)
    ensures IsCrcTable(table[..])
  {
    hide Shift, OfIndex;
    table := new Word[256](_ => ZERO);
    for n := 0 to 256
      invariant forall m :: 0 <= m < n ==> table[m] == Shifts(OfIndex(m), 8)
    {
      var c := OfIndex(n);
      for k := 0 to 8
        invariant Shifts(c, 8 - k) == Shifts(OfIndex(n), 8)
      {
        c := Shift(c);
      }
      table[n] := c;
    }
  }

  method ComputeCrc(table: array<Word>, data: seq<byte>) returns (crc: Word)
    requires IsCrcTable(table[..])
    ensures crc == Crc(data)
  {
    hide *;
    crc := ALL_ONES;
    assert crc == Register(ALL_ONES, data[..0]) by { NothingFed(ALL_ONES); }
    for i := 0 to |data|
      invariant crc == Register(ALL_ONES, data[..i])
    {
      LookupFeeds(table[..], crc, data[i]);
      OneMoreByte(ALL_ONES, data, i);
      crc := Xor(table[Index(LowByte(Xor(crc, OfByte(data[i]))))], ShiftRight8(crc));
    }
    assert data[..|data|] == data;
    crc := Xor(crc, ALL_ONES);
    CrcIsRegister(data);
  }

  lemma NothingFed(c: Word)
    ensures Register(c, []) == c
  {
  }

  lemma OneMoreByte(c: Word, data: seq<byte>, i: nat)
    requires i < |data|
    ensures Register(c, data[..i + 1]) == FeedByte(Register(c, data[..i]), data[i])
  {
    hide FeedByte;
    assert data[..i + 1][..i] == data[..i];
  }

  lemma CrcIsRegister(data: seq<byte>)
    ensures Crc(data) == Xor(Register(ALL_ONES, data), ALL_ONES)
  {
    hide Xor, Register;
  }

  /** What the loop does with one byte: the table's entry for the masked register feeds it. */
  lemma LookupFeeds(table: seq<Word>, c: Word, b: byte)
    requires IsCrcTable(table)
    ensures |table| == 256
    ensures Xor(table[Index(LowByte(Xor(c, OfByte(b))))], ShiftRight8(c)) == FeedByte(c, b)
  {
    hide Xor, LowByte, OfByte, OfIndex, ShiftRight8, FeedByte, Shifts;
    var low := LowByte(Xor(c, OfByte(b)));
    LowByteIndex(Xor(c, OfByte(b)));
    assert table[Index(low)] == Shifts(low, 8);
    TableStep(c, b);
  }

  /** The table index a masked register selects. */
  function Index(x: Word): (i: nat)
    ensures i < 256
  {
    (x.bits & 0xFF) as int
  }

  lemma LowByteIndex(x: Word)
    ensures OfIndex(Index(LowByte(x))) == LowByte(x)
  {
    var low := x.bits & 0xFF;
    assert low & 0xFF == low;
    IntRoundTrip(low);
  }

  lemma IntRoundTrip(x: bv32)
    ensures (x as int) as bv32 == x
  {
  }

  // ----- Linearity of the update over xor -----

  lemma ShiftLinear(x: Word, y: Word)
    ensures Shift(Xor(x, y)) == Xor(Shift(x), Shift(y))
  {
    ShiftRightXor(x, y);
    hide Xor, ShiftRight, Odd;
    var p, a, b := POLYNOMIAL, ShiftRight(x), ShiftRight(y);
    XorAssociative(p, a, b);
    XorCommutative(Xor(p, a), Xor(p, b));
    XorAssociative(p, b, Xor(p, a));
    XorCommutative(b, Xor(p, a));
    XorCommutative(a, Xor(p, b));
    XorAssociative(p, b, a);
    XorAssociative(p, a, b);
    XorCommutative(a, b);
    XorCancels(p, Xor(a, b));
  }

  lemma ShiftRightXor(x: Word, y: Word)
    ensures ShiftRight(Xor(x, y)) == Xor(ShiftRight(x), ShiftRight(y))
    ensures Odd(Xor(x, y)) == (Odd(x) != Odd(y))
  {
  }

  lemma XorAssociative(p: Word, a: Word, b: Word)
    ensures Xor(Xor(p, a), b) == Xor(p, Xor(a, b))
  {
  }

  lemma XorCommutative(a: Word, b: Word)
    ensures Xor(a, b) == Xor(b, a)
  {
  }

  lemma XorCancels(p: Word, a: Word)
    ensures Xor(p, Xor(p, a)) == a
  {
  }

  lemma {:induction false} ShiftsLinear(x: Word, y: Word, n: nat)
    ensures Shifts(Xor(x, y), n) == Xor(Shifts(x, n), Shifts(y, n))
    decreases n
  {
    hide Shift, Xor;
    if n > 0 {
      ShiftLinear(x, y);
      ShiftsLinear(Shift(x), Shift(y), n - 1);
    }
  }

  /** A register shifted right n times, with nothing added. */
  function Drop(x: Word, n: nat): Word
    decreases n
  {
    if n == 0 then x else Drop(ShiftRight(x), n - 1)
  }

  /** The register after eight plain shifts. */
  function Down8(x: Word): (s: seq<Word>)
    ensures |s| == 9 && s[0] == x && forall i :: 0 <= i < 8 ==> s[i + 1] == ShiftRight(s[i])
  {
    var a, b := ShiftRight(x), ShiftRight(ShiftRight(x));
    var c, d := ShiftRight(b), ShiftRight(ShiftRight(b));
    var e, f := ShiftRight(d), ShiftRight(ShiftRight(d));
    [x, a, b, c, d, e, f, ShiftRight(f), ShiftRight(ShiftRight(f))]
  }

  lemma Drop8(x: Word)
    ensures Drop(x, 8) == ShiftRight8(x)
  {
    var s := Down8(x);
    EightShifts(x);
    hide *;
    assert s[0] == x;
    DropAlong(s, 8);
  }

  lemma {:induction false} DropAlong(s: seq<Word>, n: nat)
    requires n < |s| && forall i :: 0 <= i < n ==> s[i + 1] == ShiftRight(s[i])
    ensures Drop(s[0], n) == s[n]
  {
    hide ShiftRight;
    if n > 0 {
      assert s[0 + 1] == ShiftRight(s[0]);
      DropAlong(s[1..], n - 1);
    }
  }

  lemma EightShifts(x: Word)
    ensures Down8(x)[8] == ShiftRight8(x)
    ensures LowByte(x) == ZERO ==> forall i :: 0 <= i < 8 ==> !Odd(Down8(x)[i])
  {
  }

  /** A register whose low byte is 0 is only shifted: no polynomial is ever added. */
  lemma EvenShifts(x: Word)
    requires LowByte(x) == ZERO
    ensures Shifts(x, 8) == ShiftRight8(x)
  {
    hide *;
    var s := Down8(x);
    EightShifts(x);
    ShiftsAlong(s, 8);
  }

  lemma {:induction false} ShiftsAlong(s: seq<Word>, n: nat)
    requires n < |s| && forall i :: 0 <= i < n ==> s[i + 1] == ShiftRight(s[i]) && !Odd(s[i])
    ensures Shifts(s[0], n) == s[n]
  {
    hide Xor, ShiftRight, Odd;
    if n > 0 {
      assert s[0 + 1] == Shift(s[0]);
      ShiftsAlong(s[1..], n - 1);
    }
  }

  /** Feeding bits one at a time leaves what shifting their xor would, less the bits not reached yet. */
  lemma {:induction false} FeedIsShifts(c: Word, message: Word, n: nat)
    ensures Xor(Feed(c, message, n), Drop(message, n)) == Shifts(Xor(c, message), n)
    decreases n
  {
    hide Shift, Xor, LowBit, ShiftRight;
    if n > 0 {
      FeedStep(c, message);
      FeedIsShifts(Shift(Xor(c, LowBit(message))), ShiftRight(message), n - 1);
    }
  }

  lemma FeedStep(c: Word, message: Word)
    ensures Shift(Xor(c, message)) == Xor(Shift(Xor(c, LowBit(message))), ShiftRight(message))
  {
    hide *;
    XorRejoins(c, message, LowBit(message));
    ShiftLinear(Xor(c, LowBit(message)), Xor(message, LowBit(message)));
    ShiftWithoutLowBit(message);
  }

  /** With its low bit taken off a register is only shifted. */
  lemma ShiftWithoutLowBit(m: Word)
    ensures Shift(Xor(m, LowBit(m))) == ShiftRight(m)
  {
    hide *;
    EvenWithoutLowBit(m);
    ShiftEven(Xor(m, LowBit(m)));
  }

  lemma EvenWithoutLowBit(m: Word)
    ensures !Odd(Xor(m, LowBit(m))) && ShiftRight(Xor(m, LowBit(m))) == ShiftRight(m)
  {
    hide LowBitSet, Half, Cleared, Xor, LowBit;
    WithoutLowBit(m);
    LowBitCleared(m.bits);
  }

  /** The bits with the lowest one cleared. */
  function Cleared(bits: bv32): bv32 {
    bits ^ (bits & 1)
  }

  lemma WithoutLowBit(m: Word)
    ensures Xor(m, LowBit(m)) == Word(Cleared(m.bits))
  {
  }

  lemma ShiftEven(x: Word)
    requires !Odd(x)
    ensures Shift(x) == ShiftRight(x)
  {
    hide Odd, ShiftRight, Xor;
  }

  lemma XorRejoins(c: Word, m: Word, part: Word)
    ensures Xor(c, m) == Xor(Xor(c, part), Xor(m, part))
  {
    hide *;
    XorCommutative(m, part);
    XorAssociative(c, part, Xor(part, m));
    XorCancels(part, m);
  }

  lemma LowBitCleared(m: bv32)
    ensures !LowBitSet(Cleared(m)) && Half(Cleared(m)) == Half(m)
  {
  }

  /** One table lookup does the work of eight single-bit steps. */
  lemma TableStep(c: Word, b: byte)
    ensures Xor(Shifts(LowByte(Xor(c, OfByte(b))), 8), ShiftRight8(c)) == FeedByte(c, b)
  {
    var x := Xor(c, OfByte(b));
    var high := Word(x.bits & 0xFFFF_FF00);
    SplitByte(c, b);
    FeedByteIsShifts(c, b);
    hide *;
    ShiftsLinear(LowByte(x), high, 8);
    EvenShifts(high);
  }

  lemma SplitByte(c: Word, b: byte)
    ensures var x := Xor(c, OfByte(b));
            var high := Word(x.bits & 0xFFFF_FF00);
            x == Xor(LowByte(x), high) && LowByte(high) == ZERO && ShiftRight8(high) == ShiftRight8(c)
    ensures ShiftRight8(OfByte(b)) == ZERO
  {
  }

  lemma FeedByteIsShifts(c: Word, b: byte)
    ensures FeedByte(c, b) == Shifts(Xor(c, OfByte(b)), 8)
  {
    assert forall x :: Xor(x, ZERO) == x;
    SplitByte(c, b);
    hide Xor, ShiftRight8, OfByte, Feed, Shifts, Drop;
    FeedIsShifts(c, OfByte(b), 8);
    Drop8(OfByte(b));
  }

  // ----- What the checksum is for -----

  lemma ShiftInjective(x: Word, y: Word)
    requires x != y
    ensures Shift(x) != Shift(y)
  {
    HighBit(x, y);
    HighBit(y, x);
    XorCancels(POLYNOMIAL, ShiftRight(x));
    XorCancels(POLYNOMIAL, ShiftRight(y));
    hide Xor, ShiftRight, Odd;
  }

  lemma HighBit(x: Word, y: Word)
    ensures Xor(POLYNOMIAL, ShiftRight(x)) != ShiftRight(y)
    ensures Odd(x) == Odd(y) && ShiftRight(x) == ShiftRight(y) ==> x == y
  {
  }

  lemma {:induction false} ShiftsInjective(x: Word, y: Word, n: nat)
    requires x != y
    ensures Shifts(x, n) != Shifts(y, n)
    decreases n
  {
    hide Shift;
    if n > 0 {
      ShiftInjective(x, y);
      ShiftsInjective(Shift(x), Shift(y), n - 1);
    }
  }

  lemma FeedByteInjective(c: Word, d: Word, a: byte, b: byte)
    requires (c == d) != (a == b)
    ensures FeedByte(c, a) != FeedByte(d, b)
  {
    XorDiffers(c, d, a, b);
    hide *;
    FeedByteIsShifts(c, a);
    FeedByteIsShifts(d, b);
    ShiftsInjective(Xor(c, OfByte(a)), Xor(d, OfByte(b)), 8);
  }

  lemma XorDiffers(c: Word, d: Word, a: byte, b: byte)
    requires (c == d) != (a == b)
    ensures Xor(c, OfByte(a)) != Xor(d, OfByte(b))
  {
  }

  lemma {:induction false} RegisterInjective(c: Word, d: Word, data: seq<byte>)
    requires c != d
    ensures Register(c, data) != Register(d, data)
    decreases |data|
  {
    hide FeedByte;
    if data != [] {
      var n := |data| - 1;
      RegisterInjective(c, d, data[..n]);
      FeedByteInjective(Register(c, data[..n]), Register(d, data[..n]), data[n], data[n]);
    }
  }

  lemma {:induction false} RegisterConcat(c: Word, s: seq<byte>, t: seq<byte>)
    ensures Register(c, s + t) == Register(Register(c, s), t)
    decreases |t|
  {
    hide FeedByte;
    if t == [] {
      assert s + t == s;
    } else {
      var n := |t| - 1;
      assert (s + t)[..|s| + n] == s + t[..n];
      RegisterConcat(c, s, t[..n]);
    }
  }

  /** The register after the whole data, by way of the byte at i. */
  lemma RegisterAt(data: seq<byte>, i: nat)
    requires i < |data|
    ensures Register(ALL_ONES, data)
         == Register(FeedByte(Register(ALL_ONES, data[..i]), data[i]), data[i + 1..])
  {
    hide FeedByte;
    assert data == data[..i + 1] + data[i + 1..];
    RegisterConcat(ALL_ONES, data[..i + 1], data[i + 1..]);
    assert data[..i + 1][..i] == data[..i];
  }

  /** Changing one byte of the data, anywhere, always changes its CRC. */
  lemma OneByteChangeDetected(data: seq<byte>, i: nat, b: byte)
    requires i < |data| && b != data[i]
    ensures Crc(data[i := b]) != Crc(data)
  {
    hide Register, FeedByte;
    var changed := data[i := b];
    RegisterAt(data, i);
    RegisterAt(changed, i);
    assert changed[..i] == data[..i] && changed[i + 1..] == data[i + 1..];
    var c := Register(ALL_ONES, data[..i]);
    FeedByteInjective(c, c, data[i], b);
    RegisterInjective(FeedByte(c, data[i]), FeedByte(c, b), data[i + 1..]);
    forall r: Word
      ensures Xor(ALL_ONES, Xor(r, ALL_ONES)) == r
    {
      XorCommutative(r, ALL_ONES);
      XorCancels(ALL_ONES, r);
    }
  }

  // ----- Which CRC it is -----

  /** Bit 31 - e of the reflected polynomial stands for x^e. */
  predicate HasTerm(p: Word, e: nat)
    requires e < 32
  {
    LowBitSet(p.bits >> (31 - e))
  }

  /** The generator is x^32 + x^26 + x^23 + x^22 + x^16 + x^12 + x^11 + x^10 + x^8 + x^7 + x^5 + x^4 + x^2 + x + 1 (section 8 of RFC 1952). */
  lemma PolynomialTerms()
    ensures forall e :: 0 <= e < 32 ==> (HasTerm(POLYNOMIAL, e) <==> e in {26, 23, 22, 16, 12, 11, 10, 8, 7, 5, 4, 2, 1, 0})
  {
    forall e | 0 <= e < 32
      ensures HasTerm(POLYNOMIAL, e) <==> e in {26, 23, 22, 16, 12, 11, 10, 8, 7, 5, 4, 2, 1, 0}
    {
    }
  }

  function Shifted(bits: bv32): bv32 {
    if bits & 1 == 1 then POLYNOMIAL.bits ^ (bits >> 1) else bits >> 1
  }

  function Shifted4(bits: bv32): bv32 {
    Shifted(Shifted(Shifted(Shifted(bits))))
  }

  lemma ShiftOnBits(x: bv32)
    ensures Shift(Word(x)) == Word(Shifted(x))
  {
  }

  lemma FourShifts(x: bv32, n: nat)
    ensures Shifts(Word(x), n + 4) == Shifts(Word(Shifted4(x)), n)
  {
    hide Shift, Shifted;
    var y := Shifted(x);
    var z := Shifted(y);
    ShiftOnBits(x);
    ShiftOnBits(y);
    ShiftOnBits(z);
    ShiftOnBits(Shifted(z));
    assert Shifts(Word(x), n + 4) == Shifts(Word(y), n + 3);
    assert Shifts(Word(y), n + 3) == Shifts(Word(z), n + 2);
    assert Shifts(Word(z), n + 2) == Shifts(Word(Shifted(z)), n + 1);
  }

  lemma ShiftsOnBits(x: bv32)
    ensures Shifts(Word(x), 8) == Word(Shifted4(Shifted4(x)))
  {
    hide Shift, Shifted4;
    FourShifts(x, 4);
    FourShifts(Shifted4(x), 0);
    assert Shifts(Word(Shifted4(Shifted4(x))), 0) == Word(Shifted4(Shifted4(x)));
  }

  /** A register with a byte added to its lowest bits. */
  function Added(bits: bv32, b: byte): bv32 {
    bits ^ (b as bv32)
  }

  lemma AddedIsXor(bits: bv32, b: byte)
    ensures Xor(Word(bits), OfByte(b)) == Word(Added(bits, b))
  {
  }

  /** The register once a byte is fed. */
  lemma Fed(data: seq<byte>, n: nat, before: bv32, after: bv32)
    requires n < |data| && Register(ALL_ONES, data[..n]) == Word(before)
    requires after == Shifted4(Shifted4(Added(before, data[n])))
    ensures Register(ALL_ONES, data[..n + 1]) == Word(after)
  {
    hide *;
    OneMoreByte(ALL_ONES, data, n);
    FeedByteIsShifts(Word(before), data[n]);
    AddedIsXor(before, data[n]);
    ShiftsOnBits(Added(before, data[n]));
  }

  /** The standard's check value: the CRC of "123456789". */
  lemma CheckValue()
    ensures Crc([0x31, 0x32, 0x33, 0x34, 0x35, 0x36, 0x37, 0x38, 0x39]) == Word(0xCBF4_3926)
  {
    hide Register, FeedByte;
    var data: seq<byte> := [0x31, 0x32, 0x33, 0x34, 0x35, 0x36, 0x37, 0x38, 0x39];
    NothingFed(ALL_ONES);
    assert data[..0] == [] && data[..9] == data;
    Fed(data, 0, 0xFFFF_FFFF, 0x7C23_1048);
    Fed(data, 1, 0x7C23_1048, 0xB0AC_BB32);
    Fed(data, 2, 0xB0AC_BB32, 0x77B7_9C2D);
    Fed(data, 3, 0x77B7_9C2D, 0x641C_1F5C);
    Fed(data, 4, 0x641C_1F5C, 0x340A_C5E3);
    Fed(data, 5, 0x340A_C5E3, 0xF68D_2C9E);
    Fed(data, 6, 0xF68D_2C9E, 0xAFFC_9660);
    Fed(data, 7, 0xAFFC_9660, 0x651F_2550);
    Fed(data, 8, 0x651F_2550, 0x340B_C6D9);
  }
}
