/** Machine words as numbers, bit by bit: a way to work checksums out. */
module Registers {
  import opened Bits
  import opened Crc32

  function Bit(x: bv32): nat {
    if x & 1 == 1 then 1 else 0
  }

  function Rest(x: bv32): bv32 {
    x >> 1
  }

  function Both(x: bv32, y: bv32): bv32 {
    x ^ y
  }

  /** The number that the low `n` bits of a machine word stand for. */
  function Number(x: bv32, n: nat): nat {
    if n == 0 then 0 else Bit(x) + 2 * Number(Rest(x), n - 1)
  }

  lemma BothDigits(x: bv32, y: bv32)
    ensures Bit(Both(x, y)) == (Bit(x) + Bit(y)) % 2 && Rest(Both(x, y)) == Both(Rest(x), Rest(y))
  {
  }

  lemma NumberDigits(x: bv32, n: nat)
    requires n > 0
    ensures Number(x, n) % 2 == Bit(x) && Number(x, n) / 2 == Number(Rest(x), n - 1)
  {
    hide Rest;
  }

  lemma XorFromDigits(a: nat, b: nat, c: nat)
    requires c % 2 == (a % 2 + b % 2) % 2 && c / 2 == Xor(a / 2, b / 2)
    ensures Xor(a, b) == c
  {
    hide Xor;
    XorDigits(a, b);
    FromDigits(Xor(a, b), c);
  }

  lemma {:induction false} BothIsXor(x: bv32, y: bv32, n: nat)
    ensures Xor(Number(x, n), Number(y, n)) == Number(Both(x, y), n)
    decreases n
  {
    hide Xor, Bit, Rest, Both;
    if n > 0 {
      BothDigits(x, y);
      BothIsXor(Rest(x), Rest(y), n - 1);
      NumberDigits(x, n);
      NumberDigits(y, n);
      NumberDigits(Both(x, y), n);
      XorFromDigits(Number(x, n), Number(y, n), Number(Both(x, y), n));
    } else {
      XorZero(0);
    }
  }

  /** Four bits of a word. */
  function Four(x: bv32): nat {
    Bit(x) + 2 * Bit(x >> 1) + 4 * Bit(x >> 2) + 8 * Bit(x >> 3)
  }

  lemma FourRests(x: bv32)
    ensures Rest(x) == x >> 1 && Rest(x >> 1) == x >> 2 && Rest(x >> 2) == x >> 3 && Rest(x >> 3) == x >> 4
  {
  }

  lemma FourBits(x: bv32, n: nat)
    ensures Number(x, n + 4) == Four(x) + 16 * Number(x >> 4, n)
  {
    FourRests(x);
    hide Bit, Rest;
    assert Number(x, n + 4) == Bit(x) + 2 * Number(x >> 1, n + 3);
    assert Number(x >> 1, n + 3) == Bit(x >> 1) + 2 * Number(x >> 2, n + 2);
    assert Number(x >> 2, n + 2) == Bit(x >> 2) + 2 * Number(x >> 3, n + 1);
    assert Number(x >> 3, n + 1) == Bit(x >> 3) + 2 * Number(x >> 4, n);
  }

  function Up(x: bv32): bv32 {
    x >> 4
  }

  function Sixteen(x: bv32): nat {
    Four(x) + 0x10 * Four(Up(x)) + 0x100 * Four(Up(Up(x))) + 0x1000 * Four(Up(Up(Up(x))))
  }

  lemma FourUp(x: bv32, n: nat)
    ensures Number(x, n + 4) == Four(x) + 16 * Number(Up(x), n)
  {
    FourBits(x, n);
  }

  lemma SixteenBits(x: bv32, n: nat)
    ensures Number(x, n + 16) == Sixteen(x) + 0x1_0000 * Number(Up(Up(Up(Up(x)))), n)
  {
    hide Number, Four, Up;
    FourUp(x, n + 12);
    FourUp(Up(x), n + 8);
    FourUp(Up(Up(x)), n + 4);
    FourUp(Up(Up(Up(x))), n);
    Collect(Number(x, n + 16), Four(x), Number(Up(x), n + 12), Four(Up(x)), Number(Up(Up(x)), n + 8), Four(Up(Up(x))),
            Number(Up(Up(Up(x))), n + 4), Four(Up(Up(Up(x)))), Number(Up(Up(Up(Up(x)))), n));
  }

  lemma Collect(n0: nat, f0: nat, n1: nat, f1: nat, n2: nat, f2: nat, n3: nat, f3: nat, n4: nat)
    requires n0 == f0 + 16 * n1 && n1 == f1 + 16 * n2 && n2 == f2 + 16 * n3 && n3 == f3 + 16 * n4
    ensures n0 == f0 + 0x10 * f1 + 0x100 * f2 + 0x1000 * f3 + 0x1_0000 * n4
  {
  }

  /** A word's number, from its bits at once. */
  function Value(x: bv32): nat {
    Sixteen(x) + 0x1_0000 * Sixteen(Up(Up(Up(Up(x)))))
  }

  lemma WordBits(x: bv32)
    ensures Number(x, 32) == Value(x)
  {
    hide Sixteen, Number, Up;
    var y := Up(Up(Up(Up(x))));
    SixteenBits(x, 16);
    SixteenBits(y, 0);
    NoBits(Up(Up(Up(Up(y)))));
  }

  lemma NoBits(x: bv32)
    ensures Number(x, 0) == 0
  {
  }

  lemma FourFits(x: bv32)
    ensures Four(x) < 0x10
  {
    assert forall y :: Bit(y) <= 1;
    hide Bit;
  }

  lemma ValueFits(x: bv32)
    ensures Value(x) < 0x1_0000_0000
  {
    hide Four, Up;
    SixteenFits(x);
    SixteenFits(Up(Up(Up(Up(x)))));
    hide Sixteen;
  }

  lemma SixteenFits(x: bv32)
    ensures Sixteen(x) < 0x1_0000
  {
    hide Four, Up;
    FourFits(x);
    FourFits(Up(x));
    FourFits(Up(Up(x)));
    FourFits(Up(Up(Up(x))));
  }

  // ------------------------------------------------------------------------ division

  lemma NothingAbove(x: bv32)
    ensures Number(x, 33) == Number(x, 32)
  {
    var y := Up(Up(Up(Up(x))));
    var z := Up(Up(Up(Up(y))));
    assert Bit(z) == 0;
    hide Sixteen, Up, Rest, Bit;
    SixteenBits(x, 16);
    SixteenBits(y, 0);
    SixteenBits(x, 17);
    SixteenBits(y, 1);
    NoBits(z);
    assert Number(z, 1) == Bit(z) + 2 * Number(Rest(z), 0);
    NoBits(Rest(z));
    hide Number;
  }

  /** The register as a number. */
  function Register(x: bv32): u32 {
    WordBits(x);
    ValueFits(x);
    Number(x, 32)
  }

  lemma HalfRegister(x: bv32)
    ensures Register(x) / 2 == Register(Rest(x)) && Register(x) % 2 == Bit(x)
  {
    NothingAbove(x);
    NumberDigits(x, 33);
    NumberDigits(x, 32);
    hide Number, Rest, Bit;
  }

  function Divided(x: bv32): bv32 {
    if x & 1 == 1 then (x >> 1) ^ 0xedb8_8320 else x >> 1
  }

  lemma DividedCases(x: bv32)
    ensures Divided(x) == if Bit(x) == 1 then Both(Rest(x), 0xedb8_8320) else Rest(x)
    ensures Bit(x) <= 1
  {
  }

  lemma PolynomialRegister()
    ensures Register(0xedb8_8320) == 0xedb8_8320
  {
    RegisterIs(0xedb8_8320, 0xedb8_8320);
  }

  lemma DividedIsShift(x: bv32)
    ensures Shift(Register(x)) == Register(Divided(x))
  {
    hide Number, Rest, Bit, Both, Divided, Shift, Xor, Value;
    DividedCases(x);
    PolynomialRegister();
    HalfRegister(x);
    ShiftTaps(Register(x));
    BothIsXor(Rest(x), 0xedb8_8320, 32);
    XorZero(Register(Rest(x)));
  }

  function FourTimes(x: bv32): bv32 {
    Divided(Divided(Divided(Divided(x))))
  }

  /** One byte of the message is divided. */
  function Fed(x: bv32, b: bv32): bv32 {
    FourTimes(FourTimes(Both(x, b)))
  }

  lemma FourDivided(x: bv32)
    ensures Shifts(Register(x), 4) == Register(FourTimes(x))
  {
    hide Divided, Shift, Register;
    DividedIsShift(x);
    DividedIsShift(Divided(x));
    DividedIsShift(Divided(Divided(x)));
    DividedIsShift(Divided(Divided(Divided(x))));
  }

  lemma {:induction false} ShiftsJoin(value: u32, first: nat, second: nat)
    ensures Shifts(value, first + second) == Shifts(Shifts(value, first), second)
    decreases first
  {
    hide Shift;
    if first > 0 {
      ShiftsJoin(Shift(value), first - 1, second);
    }
  }

  /** The number of a byte, from its bits at once. */
  function Small(b: bv32): nat {
    Four(b) + 0x10 * Four(Up(b))
  }

  lemma SmallIsNumber(b: bv32)
    requires b < 256
    ensures Register(b) == Small(b) && Small(b) < 256
  {
    WordBits(b);
    SmallFits(b);
    assert Four(Up(Up(b))) == 0 && Four(Up(Up(Up(b)))) == 0;
    var y := Up(Up(Up(Up(b))));
    assert Four(y) == 0 && Four(Up(y)) == 0 && Four(Up(Up(y))) == 0 && Four(Up(Up(Up(y)))) == 0;
    hide Four, Up, Number;
  }

  lemma SmallFits(b: bv32)
    ensures Small(b) < 256
  {
    hide Four, Up;
    FourFits(b);
    FourFits(Up(b));
  }

  lemma FedIsUpdate(x: bv32, b: bv32)
    requires b < 256
    ensures Small(b) < 256 && UpdateByte(Register(x), Small(b)) == Register(Fed(x, b))
  {
    SmallIsNumber(b);
    hide Both, Small, UpdateByte, Xor, Shifts, FourTimes, Value, Sixteen;
    BothIsXor(x, b, 32);
    UpdateByteIsShifts(Register(x), Small(b));
    FourDivided(Both(x, b));
    FourDivided(FourTimes(Both(x, b)));
    ShiftsJoin(Register(Both(x, b)), 4, 4);
    hide Number;
  }

  /** A byte in front of a message. */
  lemma FedFirst(x: bv32, b: bv32, bytes: seq<byte>)
    requires b < 256 && bytes != [] && bytes[0] == Small(b)
    ensures Update(Register(x), bytes) == Update(Register(Fed(x, b)), bytes[1..])
  {
    hide Register, Fed, UpdateByte, Small;
    FedIsUpdate(x, b);
  }

  /** Four more bytes of a message: each argument is a byte as a word. */
  lemma FeedFour(message: seq<byte>, x: bv32, a: bv32, b: bv32, c: bv32, d: bv32, bytes: seq<byte>, y: bv32)
    requires Update(INITIAL, message) == Register(x) && a < 256 && b < 256 && c < 256 && d < 256
    requires bytes == [Small(a), Small(b), Small(c), Small(d)]
    requires Fed(Fed(Fed(Fed(x, a), b), c), d) == y
    ensures Update(INITIAL, message + bytes) == Register(y)
  {
    hide Register, Fed, UpdateByte, Small;
    UpdateComposes(INITIAL, message, bytes);
    FedFirst(x, a, bytes);
    FedFirst(Fed(x, a), b, bytes[1..]);
    FedFirst(Fed(Fed(x, a), b), c, bytes[1..][1..]);
    FedFirst(Fed(Fed(Fed(x, a), b), c), d, bytes[1..][1..][1..]);
    assert bytes[1..][1..][1..][1..] == [];
  }

  lemma FeedOne(message: seq<byte>, x: bv32, a: bv32, bytes: seq<byte>, y: bv32)
    requires Update(INITIAL, message) == Register(x) && a < 256 && bytes == [Small(a)] && Fed(x, a) == y
    ensures Update(INITIAL, message + bytes) == Register(y)
  {
    hide Register, Fed, UpdateByte, Small;
    UpdateComposes(INITIAL, message, bytes);
    FedFirst(x, a, bytes);
    assert bytes[1..] == [];
  }

  /** The register that every message starts with. */
  lemma FeedNothing()
    ensures Update(INITIAL, []) == Register(0xffff_ffff)
  {
    WordBits(0xffff_ffff);
    hide Number;
  }

  lemma RegisterIs(x: bv32, value: nat)
    requires Value(x) == value
    ensures Register(x) == value
  {
    WordBits(x);
    hide Number, Value;
  }
}
