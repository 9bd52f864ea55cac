/** The exact clock of src/audio_analysis.rs: Euclid's algorithm, reduced rational times
    and their conversion to and from sample frames. */
module AudioClock {
  import Bits
  import opened Wrappers

  const MAXIMUM_SAFE_INTEGER := 9_007_199_254_740_991
  const MAXIMUM_SAMPLE_RATE := 768_000

  // ------------------------------------------------------------------- divisibility

  function Times(x: nat, y: nat): nat {
    x * y
  }

  ghost predicate Divides(d: nat, n: nat) {
    exists k: nat :: Times(d, k) == n
  }

  /** Euclid's recursion. */
  function Gcd(left: nat, right: nat): nat
    decreases right
  {
    if right == 0 then left else Gcd(right, left % right)
  }

  /** `gcd`: the same, in a loop over two variables. */
  method ComputeGcd(a: nat, b: nat) returns (divisor: nat)
    ensures divisor == Gcd(a, b)
    ensures Divides(divisor, a) && Divides(divisor, b)
    ensures forall d :: Divides(d, a) && Divides(d, b) ==> Divides(d, divisor)
  {
    var left, right := a, b;
    while right != 0
      invariant Gcd(left, right) == Gcd(a, b)
      decreases right
    {
      left, right := right, left % right;
    }
    divisor := left;
    GcdDivides(a, b);
    forall d | Divides(d, a) && Divides(d, b) ensures Divides(d, divisor) {
      GcdIsGreatest(a, b, d);
    }
  }

  lemma DividesSum(d: nat, a: nat, b: nat)
    requires Divides(d, a) && Divides(d, b)
    ensures Divides(d, a + b)
  {
    var i: nat :| Times(d, i) == a;
    var j: nat :| Times(d, j) == b;
    assert Times(d, i + j) == a + b;
  }

  lemma DividesMultiple(d: nat, a: nat, k: nat)
    requires Divides(d, a)
    ensures Divides(d, a * k)
  {
    var i: nat :| Times(d, i) == a;
    Associate(d, i, k);
    assert Times(d, i * k) == a * k;
  }

  lemma Associate(x: nat, y: nat, z: nat)
    ensures (x * y) * z == x * (y * z)
  {
  }

  lemma DividesDifference(d: nat, a: nat, b: nat)
    requires Divides(d, a) && Divides(d, b) && a <= b
    ensures Divides(d, b - a)
  {
    var i: nat :| Times(d, i) == a;
    var j: nat :| Times(d, j) == b;
    if i <= j {
      assert d * (j - i) == d * j - d * i;
      assert Times(d, j - i) == b - a;
    } else {
      assert d * (i - j) == d * i - d * j;
      assert Times(d, 0) == b - a;
    }
  }

  lemma Remainder(left: nat, right: nat)
    requires right > 0
    ensures left == right * (left / right) + left % right
  {
  }

  /** The result divides both arguments. */
  lemma {:induction false} GcdDivides(left: nat, right: nat)
    ensures Divides(Gcd(left, right), left) && Divides(Gcd(left, right), right)
    decreases right
  {
    var g := Gcd(left, right);
    if right == 0 {
      assert Times(left, 1) == left && Times(left, 0) == 0;
    } else {
      GcdDivides(right, left % right);
      Remainder(left, right);
      DividesMultiple(g, right, left / right);
      DividesSum(g, right * (left / right), left % right);
    }
  }

  /** Every common divisor divides the result. */
  lemma {:induction false} GcdIsGreatest(left: nat, right: nat, d: nat)
    requires Divides(d, left) && Divides(d, right)
    ensures Divides(d, Gcd(left, right))
    decreases right
  {
    if right != 0 {
      Remainder(left, right);
      DividesMultiple(d, right, left / right);
      DividesDifference(d, right * (left / right), left);
      GcdIsGreatest(right, left % right, d);
    }
  }

  lemma ScaledRemainder(left: nat, right: nat, k: nat)
    requires right > 0 && k > 0
    ensures k * right > 0 && (k * left) % (k * right) == k * (left % right)
  {
    var q, r := left / right, left % right;
    Positive(k, right);
    assert k * left == k * right * q + k * r by {
      assert k * left == k * (right * q + r) == k * (right * q) + k * r;
      assert k * (right * q) == k * right * q;
    }
    MulStrict(r, right, k);
    Bits.ModIsUnique(k * left, k * right, q, k * r);
  }

  lemma Positive(x: nat, y: nat)
    requires x > 0 && y > 0
    ensures x * y > 0
  {
  }

  lemma MulStrict(x: nat, y: nat, k: nat)
    requires x < y && k > 0
    ensures k * x < k * y
  {
  }

  lemma MulMonotone(x: nat, y: nat, k: nat)
    requires x <= y
    ensures k * x <= k * y
  {
  }

  /** A common factor comes out of the greatest common divisor. */
  lemma {:induction false} GcdScales(left: nat, right: nat, k: nat)
    requires k > 0
    ensures Gcd(k * left, k * right) == k * Gcd(left, right)
    decreases right
  {
    if right != 0 {
      ScaledRemainder(left, right, k);
      GcdScales(right, left % right, k);
      calc {
        Gcd(k * left, k * right);
        Gcd(k * right, (k * left) % (k * right));
        Gcd(k * right, k * (left % right));
        k * Gcd(right, left % right);
        k * Gcd(left, right);
      }
    }
  }

  lemma {:induction false} GcdIsPositive(left: nat, right: nat)
    requires left > 0 || right > 0
    ensures Gcd(left, right) > 0
    decreases right
  {
    if right != 0 {
      GcdIsPositive(right, left % right);
    }
  }

  /** Euclid's lemma: what is coprime to one factor divides the other. */
  lemma CoprimeDivides(a: nat, b: nat, c: nat)
    requires Gcd(a, b) == 1 && c > 0 && Divides(b, a * c)
    ensures Divides(b, c)
  {
    hide Gcd, Divides;
    GcdScales(a, b, c);
    assert c * a == a * c;
    FactorDivides(b, c);
    GcdIsGreatest(c * a, c * b, b);
  }

  lemma FactorDivides(b: nat, c: nat)
    ensures Divides(b, c * b)
  {
    assert Times(b, c) == c * b;
  }

  // --------------------------------------------------------------------------- times

  datatype Time = Time(numerator: int, denominator: nat)

  /** The fields of an audio source that its clock depends on. */
  datatype Source = Source(sampleRate: nat, frameCount: nat)

  datatype ClockError =
    | InvalidSource
    | FrameBeyondSource
    | NumeratorOverflow
    | DenominatorOverflow
    | InvalidTime
    | NegativeTime
    | ScaleOverflow
    | FractionalFrame
    | FrameOverflow
    | TimeBeyondSource

  function Magnitude(x: int): nat {
    if x < 0 then -x else x
  }

  /** `AudioRationalTime::validate`: reduced, bounded, positive denominator. */
  predicate ValidTime(t: Time) {
    && t.denominator != 0
    && Magnitude(t.numerator) <= MAXIMUM_SAFE_INTEGER
    && Gcd(Magnitude(t.numerator), t.denominator) == 1
  }

  /** The clock part of `AudioSource::validate`. */
  predicate ValidSource(s: Source) {
    1 <= s.sampleRate <= MAXIMUM_SAMPLE_RATE && 1 <= s.frameCount <= MAXIMUM_SAFE_INTEGER
  }

  /** `time_for_frame`. */
  function TimeForFrame(s: Source, frame: nat): Result<Time, ClockError> {
    if !ValidSource(s) then Failure(InvalidSource)
    else if frame > s.frameCount then Failure(FrameBeyondSource)
    else
      GcdIsPositive(frame, s.sampleRate);
      var divisor := Gcd(frame, s.sampleRate);
      if frame / divisor >= 0x8000_0000_0000_0000 then Failure(NumeratorOverflow)
      else if s.sampleRate / divisor >= 0x1_0000_0000 then Failure(DenominatorOverflow)
      else Success(Time(frame / divisor, s.sampleRate / divisor))
  }

  /** `frame_for_time`. */
  function FrameForTime(s: Source, t: Time): Result<nat, ClockError> {
    if !ValidSource(s) then Failure(InvalidSource)
    else if !ValidTime(t) then Failure(InvalidTime)
    else if t.numerator < 0 then Failure(NegativeTime)
    else
      var scaled := t.numerator * s.sampleRate;
      if scaled >= 0x1_0000_0000_0000_0000_0000_0000_0000_0000 then Failure(ScaleOverflow)
      else if scaled % t.denominator != 0 then Failure(FractionalFrame)
      else if scaled / t.denominator >= 0x1_0000_0000_0000_0000 then Failure(FrameOverflow)
      else if scaled / t.denominator > s.frameCount then Failure(TimeBeyondSource)
      else Success(scaled / t.denominator)
  }

  /** What a greatest common divisor leaves behind. */
  lemma Reduced(frame: nat, rate: nat) returns (divisor: nat, p: nat, q: nat)
    requires rate > 0
    ensures divisor == Gcd(frame, rate) && divisor > 0 && q > 0
    ensures frame == divisor * p && rate == divisor * q && Gcd(p, q) == 1
    ensures frame / divisor == p && rate / divisor == q
  {
    divisor := Gcd(frame, rate);
    GcdIsPositive(frame, rate);
    GcdDivides(frame, rate);
    p :| Times(divisor, p) == frame;
    q :| Times(divisor, q) == rate;
    Bits.ModIsUnique(frame, divisor, p, 0);
    Bits.ModIsUnique(rate, divisor, q, 0);
    GcdScales(p, q, divisor);
    CancelFactor(divisor, Gcd(p, q), 1);
  }

  lemma CancelFactor(k: nat, x: nat, y: nat)
    requires k > 0 && k * x == k * y
    ensures x == y
  {
  }

  /** Every boundary of a valid source has a time, and no overflow branch is taken. */
  lemma EveryFrameHasTime(s: Source, frame: nat)
    requires ValidSource(s) && frame <= s.frameCount
    ensures TimeForFrame(s, frame).Success?
    ensures var t := TimeForFrame(s, frame).value;
      && ValidTime(t) && t.numerator >= 0
      && t.numerator * s.sampleRate == frame * t.denominator
  {
    var g, p, q := Reduced(frame, s.sampleRate);
    MulMonotone(1, g, p);
    MulMonotone(1, g, q);
    assert p * (g * q) == (g * p) * q;
  }

  /** A frame is recovered from its time. */
  lemma TimeThenFrame(s: Source, frame: nat)
    requires ValidSource(s) && frame <= s.frameCount
    ensures TimeForFrame(s, frame).Success?
    ensures FrameForTime(s, TimeForFrame(s, frame).value) == Success(frame)
  {
    hide Gcd;
    EveryFrameHasTime(s, frame);
    var t := TimeForFrame(s, frame).value;
    ScaledFits(s, t.numerator);
    Bits.ModIsUnique(t.numerator * s.sampleRate, t.denominator, frame, 0);
  }

  lemma ScaledFits(s: Source, numerator: nat)
    requires ValidSource(s) && numerator <= MAXIMUM_SAFE_INTEGER
    ensures numerator * s.sampleRate <= MAXIMUM_SAFE_INTEGER * MAXIMUM_SAMPLE_RATE
  {
    MulMonotone(s.sampleRate, MAXIMUM_SAMPLE_RATE, numerator);
    MulMonotone(numerator, MAXIMUM_SAFE_INTEGER, MAXIMUM_SAMPLE_RATE);
  }

  /** A time is recovered from its frame: lowest terms are unique. */
  lemma FrameThenTime(s: Source, t: Time)
    requires FrameForTime(s, t).Success?
    ensures FrameForTime(s, t).value <= s.frameCount
    ensures TimeForFrame(s, FrameForTime(s, t).value) == Success(t)
  {
    hide Gcd;
    var p, q, frame := t.numerator, t.denominator, FrameForTime(s, t).value;
    Remainder(p * s.sampleRate, q);
    assert Times(q, frame) == p * s.sampleRate;
    CoprimeDivides(p, q, s.sampleRate);
    var k: nat :| Times(q, k) == s.sampleRate;
    assert p * (q * k) == q * (k * p);
    CancelFactor(q, k * p, frame);
    GcdScales(p, q, k);
    assert Gcd(frame, s.sampleRate) == k by {
      assert k * q == q * k;
    }
    Bits.ModIsUnique(frame, k, p, 0);
    Bits.ModIsUnique(s.sampleRate, k, q, 0);
    DenominatorFits(q, k, s.sampleRate);
  }

  lemma DenominatorFits(q: nat, k: nat, rate: nat)
    requires rate == q * k && rate > 0
    ensures q <= rate
  {
    MulMonotone(1, k, q);
  }

  /** The two conversions are inverse bijections between the boundaries of a source and
      the times that are one. */
  lemma ConversionsAreInverse(s: Source, frame: nat, t: Time)
    requires ValidSource(s)
    ensures FrameForTime(s, t) == Success(frame) <==>
      frame <= s.frameCount && TimeForFrame(s, frame) == Success(t)
  {
    hide FrameForTime, TimeForFrame;
    if FrameForTime(s, t) == Success(frame) {
      FrameThenTime(s, t);
    }
    if frame <= s.frameCount && TimeForFrame(s, frame) == Success(t) {
      TimeThenFrame(s, frame);
    }
  }

  predicate Earlier(a: Time, b: Time) {
    a.numerator * b.denominator < b.numerator * a.denominator
  }

  /** Later frames have strictly later times, and only they. */
  lemma TimesAreMonotone(s: Source, left: nat, right: nat)
    requires ValidSource(s) && left <= s.frameCount && right <= s.frameCount
    ensures TimeForFrame(s, left).Success? && TimeForFrame(s, right).Success?
    ensures left < right <==> Earlier(TimeForFrame(s, left).value, TimeForFrame(s, right).value)
  {
    hide TimeForFrame, Gcd;
    EveryFrameHasTime(s, left);
    EveryFrameHasTime(s, right);
    var a, b := TimeForFrame(s, left).value, TimeForFrame(s, right).value;
    var r, m := s.sampleRate, a.denominator * b.denominator;
    Positive(a.denominator, b.denominator);
    // r * a.num * b.den == left * m and r * b.num * a.den == right * m
    Spread(a.numerator, r, left, a.denominator, b.denominator);
    Spread(b.numerator, r, right, b.denominator, a.denominator);
    assert b.denominator * a.denominator == m;
    Compare(r, a.numerator * b.denominator, b.numerator * a.denominator, m, left, right);
  }

  lemma Spread(num: nat, r: nat, frame: nat, den: nat, other: nat)
    requires num * r == frame * den
    ensures r * (num * other) == (den * other) * frame
  {
    calc {
      r * (num * other);
      (num * r) * other;
      (frame * den) * other;
      (den * other) * frame;
    }
  }

  lemma Compare(r: nat, x: nat, y: nat, m: nat, left: nat, right: nat)
    requires r > 0 && m > 0 && r * x == m * left && r * y == m * right
    ensures x < y <==> left < right
  {
    if x < y {
      MulStrict(x, y, r);
      if right <= left {
        MulMonotone(right, left, m);
      }
    } else {
      MulMonotone(y, x, r);
      if left < right {
        MulStrict(left, right, m);
      }
    }
  }

  // ----------------------------------------------------------------- overflow branches

  /** On a valid source the 128-bit product never overflows; the 64-bit frame does exactly
      when the time is a frame boundary at or past 2^64. */
  lemma FrameOverflowExactly(s: Source, t: Time)
    requires ValidSource(s)
    ensures FrameForTime(s, t) != Failure(ScaleOverflow)
    ensures FrameForTime(s, t) == Failure(FrameOverflow) <==>
      && ValidTime(t) && t.numerator >= 0
      && t.numerator * s.sampleRate % t.denominator == 0
      && t.numerator * s.sampleRate >= 0x1_0000_0000_0000_0000 * t.denominator
  {
    hide Gcd;
    if ValidTime(t) && t.numerator >= 0 {
      ScaledFits(s, t.numerator);
      var scaled := t.numerator * s.sampleRate;
      Remainder(scaled, t.denominator);
      if scaled / t.denominator < 0x1_0000_0000_0000_0000 {
        MulMonotone(scaled / t.denominator + 1, 0x1_0000_0000_0000_0000, t.denominator);
      } else {
        MulMonotone(0x1_0000_0000_0000_0000, scaled / t.denominator, t.denominator);
      }
    }
  }

  /** The 64-bit overflow branch is reachable on a valid source: the largest admitted
      second at the highest sample rate. */
  lemma FrameOverflowIsReachable()
    ensures var s, t := Source(768_000, 1), Time(9_007_199_254_740_991, 1);
      ValidSource(s) && ValidTime(t) && FrameForTime(s, t) == Failure(FrameOverflow)
  {
    var s, t := Source(MAXIMUM_SAMPLE_RATE, 1), Time(MAXIMUM_SAFE_INTEGER, 1);
    assert Gcd(MAXIMUM_SAFE_INTEGER, 1) == Gcd(1, 0) == 1;
    FrameOverflowExactly(s, t);
  }
}
