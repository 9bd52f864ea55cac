/** Fixed-width unsigned integers as bounded integers, with bitwise operators
    defined digit by digit. */
module Bits {

  type byte = x: int | 0 <= x < 0x100
  type u32 = x: int | 0 <= x < 0x1_0000_0000

  /** Bitwise exclusive or. */
  function Xor(a: nat, b: nat): nat
    decreases a + b
  {
    if a == 0 && b == 0 then 0 else (a + b) % 2 + 2 * Xor(a / 2, b / 2)
  }

  /** Bitwise and. */
  function And(a: nat, b: nat): nat
    decreases a
  {
    if a == 0 then 0 else (a % 2) * (b % 2) + 2 * And(a / 2, b / 2)
  }

  function Double(x: nat, times: nat): nat {
    if times == 0 then x else 2 * Double(x, times - 1)
  }

  lemma LastDigit(digit: nat, rest: nat)
    requires digit < 2
    ensures (digit + 2 * rest) % 2 == digit && (digit + 2 * rest) / 2 == rest
  {
  }

  lemma {:induction false} XorDigits(a: nat, b: nat)
    ensures Xor(a, b) % 2 == (a + b) % 2
    ensures Xor(a, b) / 2 == Xor(a / 2, b / 2)
  {
    if a + b > 0 {
      LastDigit((a + b) % 2, Xor(a / 2, b / 2));
    }
  }

  lemma FromDigits(a: nat, b: nat)
    requires a % 2 == b % 2 && a / 2 == b / 2
    ensures a == b
  {
  }

  lemma {:induction false} XorCommutes(a: nat, b: nat)
    ensures Xor(a, b) == Xor(b, a)
    decreases a + b
  {
    if a + b > 0 {
      XorCommutes(a / 2, b / 2);
    }
  }

  lemma {:induction false} XorAssociates(a: nat, b: nat, c: nat)
    ensures Xor(Xor(a, b), c) == Xor(a, Xor(b, c))
    decreases a + b + c
  {
    hide Xor;
    if a + b + c > 0 {
      XorAssociates(a / 2, b / 2, c / 2);
      XorDigits(a, b);
      XorDigits(b, c);
      XorDigits(Xor(a, b), c);
      XorDigits(a, Xor(b, c));
      Parity(a, b, c, Xor(a, b), Xor(b, c));
      FromDigits(Xor(Xor(a, b), c), Xor(a, Xor(b, c)));
    } else {
      XorZero(0);
    }
  }

  lemma Parity(a: nat, b: nat, c: nat, ab: nat, bc: nat)
    requires ab % 2 == (a + b) % 2 && bc % 2 == (b + c) % 2
    ensures (ab + c) % 2 == (a + bc) % 2
  {
  }

  lemma {:induction false} XorZero(a: nat)
    ensures Xor(a, 0) == a && Xor(0, a) == a
  {
    if a > 0 {
      XorZero(a / 2);
    }
  }

  lemma {:induction false} XorVanishes(a: nat, b: nat)
    ensures Xor(a, b) == 0 <==> a == b
    decreases a + b
  {
    if a + b > 0 {
      XorVanishes(a / 2, b / 2);
    }
  }

  lemma XorCancels(a: nat, b: nat)
    ensures Xor(Xor(a, b), b) == a && Xor(b, Xor(b, a)) == a
  {
    hide *;
    XorVanishes(b, b);
    XorAssociates(a, b, b);
    XorAssociates(b, b, a);
    XorZero(a);
  }

  /** Exchange the middle operands of two exclusive ors. */
  lemma XorExchanges(a: nat, b: nat, c: nat, d: nat)
    ensures Xor(Xor(a, b), Xor(c, d)) == Xor(Xor(a, c), Xor(b, d))
  {
    hide *;
    calc {
      Xor(Xor(a, b), Xor(c, d));
      { XorAssociates(a, b, Xor(c, d)); }
      Xor(a, Xor(b, Xor(c, d)));
      { XorAssociates(b, c, d); XorCommutes(b, c); XorAssociates(c, b, d); }
      Xor(a, Xor(c, Xor(b, d)));
      { XorAssociates(a, c, Xor(b, d)); }
      Xor(Xor(a, c), Xor(b, d));
    }
  }

  /** `Xor` never needs more digits than its wider operand. */
  lemma {:induction false} XorBelow(a: nat, b: nat, width: nat)
    requires a < Double(1, width) && b < Double(1, width)
    ensures Xor(a, b) < Double(1, width)
    decreases width
  {
    hide Xor;
    if width > 0 {
      XorBelow(a / 2, b / 2, width - 1);
      XorDigits(a, b);
    } else {
      XorZero(0);
    }
  }

  /** Low digits can be set beside high digits by exclusive or. */
  lemma {:induction false} XorJoins(high: nat, low: nat, width: nat)
    requires low < Double(1, width)
    ensures Xor(Double(high, width), low) == Double(high, width) + low
    decreases width
  {
    hide Xor;
    if width == 0 {
      XorZero(high);
    } else {
      XorJoins(high, low / 2, width - 1);
      XorDigits(Double(high, width), low);
      assert Double(high, width) / 2 == Double(high, width - 1);
    }
  }

  lemma Width(x: nat)
    ensures Double(x, 8) == 0x100 * x
    ensures Double(x, 16) == 0x1_0000 * x
    ensures Double(x, 24) == 0x100_0000 * x
    ensures Double(x, 32) == 0x1_0000_0000 * x
  {
    FourDoubles(x, 0);
    FourDoubles(x, 4);
    FourDoubles(x, 8);
    FourDoubles(x, 12);
    FourDoubles(x, 16);
    FourDoubles(x, 20);
    FourDoubles(x, 24);
    FourDoubles(x, 28);
  }

  lemma FourDoubles(x: nat, times: nat)
    ensures Double(x, times + 4) == 0x10 * Double(x, times)
  {
    assert Double(x, times + 2) == 2 * Double(x, times + 1);
    assert Double(x, times + 4) == 2 * Double(x, times + 3);
  }

  lemma DoubleIsPositive(times: nat)
    ensures Double(1, times) >= 1
  {
  }

  lemma XorFits32(a: u32, b: u32)
    ensures Xor(a, b) < 0x1_0000_0000
  {
    hide *;
    Width(1);
    XorBelow(a, b, 32);
  }

  /** A mask of ones keeps the low digits. */
  lemma {:induction false} AndMask(a: nat, width: nat)
    ensures Double(1, width) >= 1
    ensures And(a, Double(1, width) - 1) == a % Double(1, width)
    decreases width
  {
    hide And;
    DoubleIsPositive(width);
    if width == 0 {
      AndZero(a);
    } else {
      AndMask(a / 2, width - 1);
      AndDigits(a, Double(1, width) - 1);
      assert (Double(1, width) - 1) / 2 == Double(1, width - 1) - 1;
      ModByDouble(a, Double(1, width - 1));
    }
  }

  lemma AndDigits(a: nat, b: nat)
    ensures And(a, b) == (a % 2) * (b % 2) + 2 * And(a / 2, b / 2)
  {
  }

  lemma {:induction false} AndZero(a: nat)
    ensures And(a, 0) == 0
  {
    if a > 0 {
      AndZero(a / 2);
    }
  }

  lemma ModByDouble(a: nat, half: nat)
    requires half > 0
    ensures a % (2 * half) == a % 2 + 2 * ((a / 2) % half)
  {
    var q, r := (a / 2) / half, (a / 2) % half;
    assert a / 2 == half * q + r;
    assert a == (2 * half) * q + (a % 2 + 2 * r);
    ModIsUnique(a, 2 * half, q, a % 2 + 2 * r);
  }

  lemma ModIsUnique(a: int, divisor: int, quotient: int, remainder: int)
    requires divisor > 0 && 0 <= remainder < divisor
    requires a == divisor * quotient + remainder
    ensures a % divisor == remainder && a / divisor == quotient
  {
    var q, r := a / divisor, a % divisor;
    if q > quotient {
      MulAtLeast(divisor, q - quotient);
    } else if q < quotient {
      MulAtLeast(divisor, quotient - q);
    }
  }

  lemma MulAtLeast(x: int, y: int)
    requires x >= 0 && y >= 1
    ensures x * y >= x
  {
  }

  // ------------------------------------------------------------- byte order

  /** `u32::to_be_bytes`. */
  function BigEndian(n: u32): (bytes: seq<byte>)
    ensures |bytes| == 4
  {
    [n / 0x100_0000, n / 0x1_0000 % 0x100, n / 0x100 % 0x100, n % 0x100]
  }

  /** `u32::from_be_bytes`. */
  function Word(bytes: seq<byte>): u32
    requires |bytes| == 4
  {
    var b0: int, b1: int, b2: int, b3: int := bytes[0], bytes[1], bytes[2], bytes[3];
    0x100_0000 * b0 + 0x1_0000 * b1 + 0x100 * b2 + b3
  }

  lemma WordOfBigEndian(n: u32)
    ensures Word(BigEndian(n)) == n
  {
    var q1: int, q2: int, q3: int := n / 0x100, n / 0x1_0000, n / 0x100_0000;
    assert q2 == q1 / 0x100 && q3 == q2 / 0x100;
    assert n == 0x100 * q1 + n % 0x100;
    assert q1 == 0x100 * q2 + q1 % 0x100;
    assert q2 == 0x100 * q3 + q2 % 0x100;
  }

  lemma BigEndianOfWord(bytes: seq<byte>)
    requires |bytes| == 4
    ensures BigEndian(Word(bytes)) == bytes
  {
    var n := Word(bytes);
    var b0: int, b1: int, b2: int := bytes[0], bytes[1], bytes[2];
    assert n / 0x100 == 0x1_0000 * b0 + 0x100 * b1 + b2;
    assert n / 0x1_0000 == 0x100 * b0 + b1;
    assert n / 0x100_0000 == b0;
  }
}
