/** The CRC-32 of a PNG chunk: the table-driven update of src/frame_io.rs, the
    bit-serial division it abbreviates, and which errors the checksum detects. */
module Crc32 {
  import opened Bits

  const POLYNOMIAL: u32 := 0xedb8_8320
  const INITIAL: u32 := 0xffff_ffff

  // ---------------------------------------------------------------- reference

  /** One step of dividing the message, least significant bit first, by the
      reflected generator polynomial. */
  function DivideBit(register: u32, bit: nat): u32 {
    XorFits32(register / 2, POLYNOMIAL);
    if register % 2 != bit then Xor(register / 2, POLYNOMIAL) else register / 2
  }

  /** Feed the `count` low bits of `bits` to the divider. */
  function DivideBits(register: u32, bits: nat, count: nat): u32
    decreases count
  {
    if count == 0 then register
    else DivideBits(DivideBit(register, bits % 2), bits / 2, count - 1)
  }

  /** The bit-at-a-time checksum register after a byte string. */
  function DivideBytes(register: u32, bytes: seq<byte>): u32
    decreases |bytes|
  {
    if bytes == [] then register
    else DivideBytes(DivideBits(register, bytes[0], 8), bytes[1..])
  }

  // -------------------------------------------------------------- table driven

  /** `0_u32.wrapping_sub(value & 1)`: no ones or all ones. */
  function Mask(value: u32): u32 {
    (0 - And(value, 1)) % 0x1_0000_0000
  }

  /** The body of the table's inner loop. */
  function Shift(value: u32): u32 {
    ShiftStaysInWord(value);
    Xor(value / 2, And(POLYNOMIAL, Mask(value)))
  }

  function Shifts(value: u32, count: nat): u32
    decreases count
  {
    if count == 0 then value else Shifts(Shift(value), count - 1)
  }

  function TableEntry(index: byte): u32 {
    Shifts(index, 8)
  }

  /** The contents of CRC32_TABLE. */
  function Table(): (table: seq<u32>)
    ensures |table| == 256
    ensures forall index :: 0 <= index < 256 ==> table[index] == TableEntry(index)
  {
    seq(256, index requires 0 <= index < 256 => TableEntry(index))
  }

  function UpdateByte(crc: u32, b: byte): u32 {
    LowByteMask(Xor(crc, b));
    XorFits32(crc / 256, Table()[And(Xor(crc, b), 255)]);
    Xor(crc / 256, Table()[And(Xor(crc, b), 255)])
  }

  /** The checksum register after a byte string, by table lookup. */
  function Update(crc: u32, bytes: seq<byte>): u32
    decreases |bytes|
  {
    if bytes == [] then crc else Update(UpdateByte(crc, bytes[0]), bytes[1..])
  }

  /** `crc32_table`: two nested loops fill the 256 entries. */
  method BuildTable() returns (table: array<u32>)
    ensures fresh(table) && table[..] == Table()
  {
    hide Shift, TableEntry;
    table := new u32[256](_ => 0);
    var index := 0;
    while index < table.Length
      invariant 0 <= index <= table.Length == 256
      invariant forall k :: 0 <= k < index ==> table[k] == TableEntry(k)
    {
      var value: u32 := index;
      var bit := 0;
      TableEntryIsShifts(index);
      while bit < 8
        invariant 0 <= bit <= 8
        invariant Shifts(value, 8 - bit) == TableEntry(index)
      {
        value := Shift(value);
        bit := bit + 1;
      }
      table[index] := value;
      index := index + 1;
    }
  }

  lemma TableEntryIsShifts(index: byte)
    ensures TableEntry(index) == Shifts(index, 8)
  {
    hide Shifts;
  }

  /** `crc32_update`: fold the bytes into the register, one table lookup each. */
  method Crc32Update(initial: u32, bytes: seq<byte>) returns (crc: u32)
    ensures crc == DivideBytes(initial, bytes)
    ensures crc == Update(initial, bytes)
  {
    crc := initial;
    var next := 0;
    while next < |bytes|
      invariant 0 <= next <= |bytes|
      invariant Update(crc, bytes[next..]) == Update(initial, bytes)
    {
      assert bytes[next..][1..] == bytes[next + 1..];
      crc := UpdateByte(crc, bytes[next]);
      next := next + 1;
    }
    TableDividesLikeBits(initial, bytes);
  }

  // ------------------------------------------------- the table form is division

  lemma MaskIsChoice(value: u32)
    ensures Mask(value) == if value % 2 == 0 then 0 else 0xffff_ffff
  {
    hide And;
    AndMask(value, 1);
    assert Double(1, 1) == 2;
  }

  lemma MaskedBy(value: nat)
    ensures And(value, 0) == 0
    ensures And(value, 0xffff_ffff) == value % 0x1_0000_0000
  {
    hide *;
    AndZero(value);
    AndMask(value, 32);
    Width(1);
  }

  lemma ShiftStaysInWord(value: u32)
    ensures And(POLYNOMIAL, Mask(value)) == Tap(value)
    ensures Xor(value / 2, And(POLYNOMIAL, Mask(value))) < 0x1_0000_0000
  {
    hide Xor, And, Mask;
    MaskIsChoice(value);
    MaskedBy(POLYNOMIAL);
    XorFits32(value / 2, Tap(value));
  }

  /** What the low digit shifted out feeds back into the register. */
  function Tap(value: nat): u32 {
    if value % 2 == 0 then 0 else POLYNOMIAL
  }

  lemma ShiftTaps(x: u32)
    ensures Shift(x) == Xor(x / 2, Tap(x))
  {
    ShiftStaysInWord(x);
  }

  lemma TapIsLinear(x: nat, y: nat)
    ensures Tap(x + y) == Xor(Tap(x), Tap(y))
  {
    hide Xor;
    XorZero(POLYNOMIAL);
    XorZero(0);
    XorVanishes(POLYNOMIAL, POLYNOMIAL);
  }

  lemma ShiftIsLinear(x: u32, y: u32)
    ensures Xor(x, y) < 0x1_0000_0000
    ensures Shift(Xor(x, y)) == Xor(Shift(x), Shift(y))
  {
    hide Xor, Shift;
    XorFits32(x, y);
    XorDigits(x, y);
    ShiftTaps(x);
    ShiftTaps(y);
    ShiftTaps(Xor(x, y));
    TapIsLinear(x, y);
    assert Tap(Xor(x, y)) == Tap(x + y);
    XorExchanges(x / 2, Tap(x), y / 2, Tap(y));
  }

  lemma {:induction false} ShiftsAreLinear(x: u32, y: u32, count: nat)
    ensures Xor(x, y) < 0x1_0000_0000
    ensures Shifts(Xor(x, y), count) == Xor(Shifts(x, count), Shifts(y, count))
    decreases count
  {
    hide Xor, Shift;
    ShiftIsLinear(x, y);
    if count > 0 {
      ShiftsAreLinear(Shift(x), Shift(y), count - 1);
    }
  }

  /** The polynomial's top bit is set and that of `x / 2` is not, so different
      registers stay different. */
  lemma ShiftIsInjective(x: u32, y: u32)
    requires Shift(x) == Shift(y)
    ensures x == y
  {
    hide Xor, Shift;
    var d := Xor(x, y);
    ShiftIsLinear(x, y);
    XorVanishes(Shift(x), Shift(y));
    ShiftTaps(d);
    XorVanishes(d / 2, Tap(d));
    XorVanishes(x, y);
  }

  lemma {:induction false} ShiftsAreInjective(x: u32, y: u32, count: nat)
    requires Shifts(x, count) == Shifts(y, count)
    ensures x == y
    decreases count
  {
    hide Xor, Shift;
    if count > 0 {
      ShiftsAreInjective(Shift(x), Shift(y), count - 1);
      ShiftIsInjective(x, y);
    }
  }

  /** Shifting a register whose low digits are zero only moves it down. */
  lemma {:induction false} ShiftsUndoDoubling(x: u32, count: nat)
    requires Double(x, count) < 0x1_0000_0000
    ensures Shifts(Double(x, count), count) == x
    decreases count
  {
    hide Xor, Shift;
    if count > 0 {
      var half := Double(x, count - 1);
      ShiftTaps(2 * half);
      XorZero(half);
      LastDigit(0, half);
      assert Shift(2 * half) == half;
      ShiftsUndoDoubling(x, count - 1);
    }
  }

  /** Eight shifts split a register into its high bytes and its low byte. */
  lemma ShiftsSplit(mixed: u32)
    ensures Shifts(mixed, 8) == Xor(mixed / 256, TableEntry(mixed % 256))
  {
    hide Xor, Shifts;
    var high, low := mixed / 256, mixed % 256;
    Width(1);
    Width(high);
    XorJoins(high, low, 8);
    ShiftsAreLinear(256 * high, low, 8);
    ShiftsUndoDoubling(high, 8);
  }

  /** One table lookup advances the register by eight shifts of register XOR byte. */
  lemma UpdateByteIsShifts(crc: u32, b: byte)
    ensures Xor(crc, b) < 0x1_0000_0000
    ensures UpdateByte(crc, b) == Shifts(Xor(crc, b), 8)
  {
    hide Xor, And, Shifts, TableEntry;
    XorFits32(crc, b);
    LowByteMask(Xor(crc, b));
    HighBytesSurvive(crc, b);
    ShiftsSplit(Xor(crc, b));
  }

  lemma LowByteMask(x: nat)
    ensures And(x, 255) == x % 256
  {
    AndMask(x, 8);
    Width(1);
  }

  lemma HighBytesSurvive(crc: nat, b: byte)
    ensures Xor(crc, b) / 256 == crc / 256
  {
    hide *;
    var high, low := crc / 256, crc % 256;
    Width(1);
    Width(high);
    XorJoins(high, low, 8);
    XorAssociates(256 * high, low, b);
    XorBelow(low, b, 8);
    XorJoins(high, Xor(low, b), 8);
  }

  lemma {:induction false} DivideBitsIsShifts(register: u32, bits: u32, count: nat)
    requires bits < Double(1, count)
    ensures Xor(register, bits) < 0x1_0000_0000
    ensures DivideBits(register, bits, count) == Shifts(Xor(register, bits), count)
    decreases count
  {
    hide Xor, Shift, DivideBit;
    XorFits32(register, bits);
    if count > 0 {
      DivideBitIsShift(register, bits);
      DivideBitsIsShifts(DivideBit(register, bits % 2), bits / 2, count - 1);
    } else {
      XorZero(register);
    }
  }

  lemma DivideBitIsShift(register: u32, bits: u32)
    ensures Xor(register, bits) < 0x1_0000_0000
    ensures Shift(Xor(register, bits)) == Xor(DivideBit(register, bits % 2), bits / 2)
  {
    hide *;
    XorFits32(register, bits);
    XorDigits(register, bits);
    ShiftTaps(Xor(register, bits));
    DivideBitTaps(register, bits);
    XorSwapsLast(register / 2, bits / 2, Tap(register + bits));
  }

  lemma DivideBitTaps(register: u32, bits: u32)
    ensures DivideBit(register, bits % 2) == Xor(register / 2, Tap(register + bits))
    ensures Tap(Xor(register, bits)) == Tap(register + bits)
  {
    hide Xor;
    XorDigits(register, bits);
    XorZero(register / 2);
  }

  lemma XorSwapsLast(a: nat, b: nat, c: nat)
    ensures Xor(Xor(a, b), c) == Xor(Xor(a, c), b)
  {
    hide *;
    XorAssociates(a, b, c);
    XorCommutes(b, c);
    XorAssociates(a, c, b);
  }

  /** Refinement: from every start value, over every byte string, the table form
      leaves the register that bit-at-a-time division leaves. */
  lemma {:induction false} TableDividesLikeBits(crc: u32, bytes: seq<byte>)
    ensures Update(crc, bytes) == DivideBytes(crc, bytes)
    decreases |bytes|
  {
    hide UpdateByte, Shifts, DivideBits;
    if bytes != [] {
      Width(1);
      UpdateByteIsShifts(crc, bytes[0]);
      DivideBitsIsShifts(crc, bytes[0], 8);
      TableDividesLikeBits(UpdateByte(crc, bytes[0]), bytes[1..]);
    }
  }

  /** The register can be carried across any split of the input. */
  lemma {:induction false} UpdateComposes(crc: u32, first: seq<byte>, second: seq<byte>)
    ensures Update(crc, first + second) == Update(Update(crc, first), second)
    decreases |first|
  {
    hide UpdateByte;
    if first == [] {
      assert first + second == second;
    } else {
      assert (first + second)[1..] == first[1..] + second;
      UpdateComposes(UpdateByte(crc, first[0]), first[1..], second);
    }
  }

  // ----------------------------------------------------------- error detection

  /** A byte string acts on the register injectively: no two registers meet. */
  lemma {:induction false} UpdateIsInjective(crc: u32, other: u32, bytes: seq<byte>)
    requires Update(crc, bytes) == Update(other, bytes)
    ensures crc == other
    decreases |bytes|
  {
    hide UpdateByte, Xor, Shifts;
    if bytes != [] {
      var b := bytes[0];
      UpdateIsInjective(UpdateByte(crc, b), UpdateByte(other, b), bytes[1..]);
      UpdateByteIsShifts(crc, b);
      UpdateByteIsShifts(other, b);
      ShiftsAreInjective(Xor(crc, b), Xor(other, b), 8);
      XorCancels(crc, b);
      XorCancels(other, b);
    }
  }

  /** Both have their top bit set, so it vanishes. */
  lemma TopBitVanishes(y: u32)
    requires y >= 0x8000_0000
    ensures Xor(y, POLYNOMIAL) < 0x8000_0000
  {
    var top: nat, low: nat, rest: nat := 0x8000_0000, y - 0x8000_0000, POLYNOMIAL - 0x8000_0000;
    hide Xor;
    Width(1);
    DoubleOnce(1, 31);
    XorJoins(1, low, 31);
    XorJoins(1, rest, 31);
    XorExchanges(top, low, top, rest);
    XorVanishes(top, top);
    XorZero(Xor(low, rest));
    XorBelow(low, rest, 31);
  }

  lemma DoubleOnce(x: nat, times: nat)
    ensures Double(x, times + 1) == 2 * Double(x, times)
  {
  }

  lemma ShiftIsSurjective(y: u32) returns (x: u32)
    ensures Shift(x) == y
  {
    hide Xor, Shift;
    if y < 0x8000_0000 {
      x := 2 * y;
      ShiftTaps(x);
      XorZero(y);
    } else {
      TopBitVanishes(y);
      x := 2 * Xor(y, POLYNOMIAL) + 1;
      ShiftTaps(x);
      XorCancels(y, POLYNOMIAL);
    }
  }

  lemma {:induction false} ShiftsAreSurjective(y: u32, count: nat) returns (x: u32)
    ensures Shifts(x, count) == y
    decreases count
  {
    hide Xor, Shift;
    x := y;
    if count > 0 {
      var shifted := ShiftsAreSurjective(y, count - 1);
      x := ShiftIsSurjective(shifted);
    }
  }

  /** A byte string acts on the register surjectively: every register is reached. */
  lemma {:induction false} UpdateIsSurjective(target: u32, bytes: seq<byte>) returns (crc: u32)
    ensures Update(crc, bytes) == target
    decreases |bytes|
  {
    hide UpdateByte, Xor, Shifts;
    crc := target;
    if bytes != [] {
      var b := bytes[0];
      var next := UpdateIsSurjective(target, bytes[1..]);
      var mixed := ShiftsAreSurjective(next, 8);
      XorFits32(mixed, b);
      crc := Xor(mixed, b);
      UpdateByteIsShifts(crc, b);
      XorCancels(mixed, b);
    }
  }

  /** A byte string permutes the registers: each is reached from exactly one. */
  lemma UpdateIsBijective(target: u32, bytes: seq<byte>)
    ensures exists crc: u32 :: Update(crc, bytes) == target
    ensures forall a: u32, b: u32 :: Update(a, bytes) == target && Update(b, bytes) == target ==> a == b
  {
    hide Update;
    var crc := UpdateIsSurjective(target, bytes);
    forall a: u32, b: u32 | Update(a, bytes) == target && Update(b, bytes) == target ensures a == b {
      UpdateIsInjective(a, b, bytes);
    }
  }

  /** The difference of two byte-updated registers, seen before the update: the
      updated difference moved up one byte. */
  lemma DifferenceMovesUp(crc: u32, other: u32, l: byte, r: byte)
    requires Xor(UpdateByte(crc, l), UpdateByte(other, r)) < 0x100_0000
    ensures Xor(Xor(crc, l), Xor(other, r)) == 0x100 * Xor(UpdateByte(crc, l), UpdateByte(other, r))
  {
    hide *;
    var d := Xor(UpdateByte(crc, l), UpdateByte(other, r));
    UpdateByteIsShifts(crc, l);
    UpdateByteIsShifts(other, r);
    ShiftsAreLinear(Xor(crc, l), Xor(other, r), 8);
    Width(d);
    ShiftsUndoDoubling(d, 8);
    ShiftsAreInjective(Xor(Xor(crc, l), Xor(other, r)), 0x100 * d, 8);
  }

  /** One byte window: the difference of the registers gains at most one byte, and
      equal registers leave no difference between the bytes. */
  lemma WindowHead(crc: u32, other: u32, l: byte, r: byte, difference: nat, width: nat)
    requires difference < Double(1, width)
    requires Xor(Xor(crc, l), Xor(other, r)) == 0x100 * difference
    ensures Xor(crc, other) < Double(1, width + 8)
    ensures crc == other ==> l == r && difference == 0
  {
    hide *;
    var e := Xor(l, r);
    XorExchanges(crc, l, other, r);
    Width(1);
    XorBelow(l, r, 8);
    Width(difference);
    XorJoins(difference, e, 8);
    XorCancels(Xor(crc, other), e);
    EightDoubles(1, width);
    if crc == other {
      XorVanishes(crc, other);
      XorZero(e);
      XorVanishes(l, r);
    }
  }

  lemma EightDoubles(x: nat, times: nat)
    ensures Double(x, times + 8) == 0x100 * Double(x, times)
  {
    FourDoubles(x, times);
    FourDoubles(x, times + 4);
  }

  /** Registers that a window of at most four bytes brings together differ only in
      as many low bytes as the window has; equal registers force equal windows. */
  lemma {:induction false} WindowSeparates(crc: u32, other: u32, left: seq<byte>, right: seq<byte>)
    requires |left| == |right| <= 4
    requires Update(crc, left) == Update(other, right)
    ensures Xor(crc, other) < Double(1, 8 * |left|)
    ensures crc == other ==> left == right
    decreases |left|
  {
    hide Xor, UpdateByte;
    if left == [] {
      XorVanishes(crc, other);
    } else {
      var l, r := left[0], right[0];
      WindowSeparates(UpdateByte(crc, l), UpdateByte(other, r), left[1..], right[1..]);
      WindowStep(crc, other, l, r, |left| - 1);
      assert left == [l] + left[1..] && right == [r] + right[1..];
    }
  }

  lemma WindowStep(crc: u32, other: u32, l: byte, r: byte, rest: nat)
    requires rest <= 3
    requires Xor(UpdateByte(crc, l), UpdateByte(other, r)) < Double(1, 8 * rest)
    ensures Xor(crc, other) < Double(1, 8 * rest + 8)
    ensures crc == other ==> l == r && UpdateByte(crc, l) == UpdateByte(other, r)
  {
    hide Xor, UpdateByte;
    var next, next' := UpdateByte(crc, l), UpdateByte(other, r);
    Width(1);
    assert 8 * rest in {0, 8, 16, 24};
    DifferenceMovesUp(crc, other, l, r);
    WindowHead(crc, other, l, r, Xor(next, next'), 8 * rest);
    XorVanishes(next, next');
  }

  /** Every error confined to four consecutive bytes changes the checksum. */
  lemma BurstIsDetected(crc: u32, before: seq<byte>, left: seq<byte>, right: seq<byte>, after: seq<byte>)
    requires |left| == |right| <= 4 && left != right
    ensures Update(crc, before + left + after) != Update(crc, before + right + after)
  {
    hide *;
    var start := Update(crc, before);
    UpdateComposes(crc, before, left);
    UpdateComposes(crc, before, right);
    UpdateComposes(crc, before + left, after);
    UpdateComposes(crc, before + right, after);
    if Update(crc, before + left + after) == Update(crc, before + right + after) {
      UpdateIsInjective(Update(start, left), Update(start, right), after);
      WindowSeparates(start, start, left, right);
    }
  }
}
