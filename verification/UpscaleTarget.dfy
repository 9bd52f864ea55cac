/** Target-resolution policy of src/upscale_target.rs: exact aspect arithmetic, and a factor
    search that a closed form predicts. */
module UpscaleTarget {
  import opened Widths
  import opened Wrappers

  const MAXIMUM_FRAMES := 100_000

  datatype Mode = Exact | Minimum

  datatype Policy = Policy(width: nat, height: nat, mode: Mode, forceReprocess: bool)

  /** The geometry and length of an observed frame set. */
  datatype Input = Input(width: nat, height: nat, frameCount: nat)

  datatype Status = Disabled | AlreadyTarget | AboveTarget | Execute

  /** `keptInput` stands for the input identity that a bypass keeps as its authority. */
  datatype Decision = Decision(
    input: Input, policy: Option<Policy>, status: Status,
    effectiveWidth: nat, effectiveHeight: nat,
    outputScale: Option<nat>, keptInput: Option<Input>)

  datatype TargetError = InvalidInput | InvalidPolicy | AspectDiffers | Unreachable | Overflow

  /** The widths of the source's fields. */
  predicate Representable(input: Input, policy: Option<Policy>) {
    && input.width < U32_LIMIT && input.height < U32_LIMIT && input.frameCount < U64_LIMIT
    && (policy.Some? ==> policy.value.width < U32_LIMIT && policy.value.height < U32_LIMIT)
  }

  predicate ValidInput(input: Input) {
    1 <= input.frameCount <= MAXIMUM_FRAMES && input.width > 0 && input.height > 0
  }

  predicate ValidPolicy(policy: Policy) {
    policy.width > 0 && policy.height > 0
  }

  predicate SameAspect(width: nat, height: nat, policy: Policy) {
    width * policy.height == height * policy.width
  }

  // -------------------------------------------------------------------- closed form

  function CeilingOf(a: nat, b: nat): nat
    requires b > 0
  {
    (a + b - 1) / b
  }

  /** The only factor worth trying. */
  function NeededFactor(width: nat, target: nat): nat
    requires width > 0
  {
    if CeilingOf(target, width) < 2 then 2 else CeilingOf(target, width)
  }

  predicate Reachable(input: Input, policy: Policy)
    requires input.width > 0
  {
    var scale := NeededFactor(input.width, policy.width);
    && scale <= 4
    && input.width * scale < U32_LIMIT && input.height * scale < U32_LIMIT
    && (policy.mode.Exact? ==> input.width * scale == policy.width)
  }

  function Bypass(input: Input, policy: Option<Policy>, status: Status): Decision {
    Decision(input, policy, status, input.width, input.height, None, Some(input))
  }

  function Execution(input: Input, policy: Policy, scale: nat): Decision {
    Decision(input, Some(policy), Execute, input.width * scale, input.height * scale, Some(scale), None)
  }

  /** What `decide` returns, without a search and by widths alone once aspects agree. */
  function DecisionOf(input: Input, policy: Option<Policy>): Result<Decision, TargetError> {
    if !ValidInput(input) then Failure(InvalidInput)
    else if policy.None? then Success(Bypass(input, policy, Disabled))
    else if !ValidPolicy(policy.value) then Failure(InvalidPolicy)
    else if !SameAspect(input.width, input.height, policy.value) then Failure(AspectDiffers)
    else if !policy.value.forceReprocess && input.width == policy.value.width then
      Success(Bypass(input, policy, AlreadyTarget))
    else if !policy.value.forceReprocess && input.width > policy.value.width then
      Success(Bypass(input, policy, AboveTarget))
    else if !Reachable(input, policy.value) then Failure(Unreachable)
    else Success(Execution(input, policy.value, NeededFactor(input.width, policy.value.width)))
  }

  // --------------------------------------------------------------------- arithmetic

  lemma MulMonotone(a: nat, b: nat, c: nat)
    requires a <= b
    ensures a * c <= b * c
    ensures a < b && c > 0 ==> a * c < b * c
  {
  }

  /** With equal aspects, one dimension compares as the other does. */
  lemma DimensionsAgree(width: nat, height: nat, policy: Policy)
    requires width > 0 && height > 0 && ValidPolicy(policy) && SameAspect(width, height, policy)
    ensures width < policy.width <==> height < policy.height
    ensures width == policy.width <==> height == policy.height
  {
    var w, h, tw, th := width, height, policy.width, policy.height;
    if w < tw {
      MulMonotone(w, tw, th);
      if h >= th {
        MulMonotone(th, h, tw);
      }
    } else if w == tw {
      EqualFactor(th, h, w);
    } else {
      MulMonotone(tw, w, th);
      if h <= th {
        MulMonotone(h, th, tw);
      }
    }
  }

  lemma EqualFactor(a: nat, b: nat, c: nat)
    requires c > 0 && c * a == b * c
    ensures a == b
  {
    if a < b {
      MulMonotone(a, b, c);
    } else if b < a {
      MulMonotone(b, a, c);
    }
  }

  /** Scaling both dimensions keeps the aspect. */
  lemma ScaleKeepsAspect(width: nat, height: nat, scale: nat, policy: Policy)
    requires SameAspect(width, height, policy)
    ensures SameAspect(width * scale, height * scale, policy)
  {
    Exchange(width, scale, policy.height);
    Exchange(height, scale, policy.width);
  }

  lemma Exchange(a: nat, b: nat, c: nat)
    ensures (a * b) * c == (a * c) * b
  {
  }

  lemma CeilingIsLeast(a: nat, b: nat, k: nat)
    requires b > 0
    ensures b * k >= a <==> k >= CeilingOf(a, b)
  {
    var c := CeilingOf(a, b);
    assert b * c <= a + b - 1 < b * c + b;
    if k >= c {
      MulMonotone(c, k, b);
    } else {
      MulMonotone(k, c - 1, b);
      assert b * (c - 1) == b * c - b;
    }
  }

  /** A scale meets the policy, in the terms of the search. */
  predicate Meets(width: nat, height: nat, policy: Policy) {
    match policy.mode
    case Exact => width == policy.width && height == policy.height
    case Minimum => width >= policy.width && height >= policy.height
  }

  predicate Admits(input: Input, policy: Policy, scale: nat) {
    && 2 <= scale <= 4
    && input.width * scale < U32_LIMIT && input.height * scale < U32_LIMIT
    && Meets(input.width * scale, input.height * scale, policy)
  }

  /** Whether a scale would do is a matter of its place relative to the needed factor. */
  lemma ScaleDecided(input: Input, policy: Policy, scale: nat)
    requires ValidInput(input) && ValidPolicy(policy) && SameAspect(input.width, input.height, policy)
    requires 2 <= scale <= 4
    ensures Admits(input, policy, scale) ==>
      NeededFactor(input.width, policy.width) <= scale && Reachable(input, policy)
    ensures Admits(input, policy, scale) && policy.mode.Exact? ==> scale == NeededFactor(input.width, policy.width)
    ensures Reachable(input, policy) && scale == NeededFactor(input.width, policy.width) ==>
      Admits(input, policy, scale)
  {
    hide CeilingOf;
    var needed := NeededFactor(input.width, policy.width);
    SearchGeometry(input, policy, scale);
    if Admits(input, policy, scale) {
      Smaller(input.width, needed, scale);
      Smaller(input.height, needed, scale);
      if policy.mode.Exact? {
        ExactIsNeeded(input.width, policy.width, scale);
      }
    }
  }

  lemma Smaller(a: nat, small: nat, large: nat)
    requires small <= large
    ensures a * small <= a * large
  {
  }

  lemma ExactIsNeeded(width: nat, target: nat, scale: nat)
    requires width > 0 && scale >= 2 && width * scale == target
    ensures NeededFactor(width, target) == scale
  {
    CeilingIsLeast(target, width, scale);
    CeilingIsLeast(target, width, scale - 1);
  }

  lemma SearchGeometry(input: Input, policy: Policy, scale: nat)
    requires ValidInput(input) && ValidPolicy(policy) && SameAspect(input.width, input.height, policy)
    requires 2 <= scale <= 4
    ensures input.width * scale >= policy.width <==> input.height * scale >= policy.height
    ensures input.width * scale == policy.width <==> input.height * scale == policy.height
    ensures input.width * scale >= policy.width <==> scale >= NeededFactor(input.width, policy.width)
  {
    Positive(input.width, scale);
    Positive(input.height, scale);
    ScaleKeepsAspect(input.width, input.height, scale, policy);
    DimensionsAgree(input.width * scale, input.height * scale, policy);
    CeilingIsLeast(policy.width, input.width, scale);
  }

  lemma Positive(a: nat, b: nat)
    requires a > 0 && b > 0
    ensures a * b > 0
  {
  }

  // --------------------------------------------------------------------- the method

  /** `decide`: a record filled in by a search over factors, skipping those that leave 32
      bits. */
  method Decide(input: Input, policy: Option<Policy>) returns (r: Result<Decision, TargetError>)
    requires Representable(input, policy)
    ensures r == DecisionOf(input, policy)
  {
    hide CeilingOf, Reachable, Admits;
    if !(1 <= input.frameCount <= MAXIMUM_FRAMES) || input.width == 0 || input.height == 0 {
      return Failure(InvalidInput);
    }
    var decision := Decision(input, policy, Disabled, input.width, input.height, None, Some(input));
    if policy.None? {
      return Success(decision);
    }
    var p := policy.value;
    if p.width == 0 || p.height == 0 {
      return Failure(InvalidPolicy);
    }
    if input.width * p.height != input.height * p.width {
      return Failure(AspectDiffers);
    }
    DimensionsAgree(input.width, input.height, p);
    if !p.forceReprocess && input.width >= p.width && input.height >= p.height {
      if input.width == p.width && input.height == p.height {
        decision := decision.(status := AlreadyTarget);
      } else {
        decision := decision.(status := AboveTarget);
      }
      return Success(decision);
    }
    for scale := 2 to 5
      invariant forall s :: 2 <= s < scale ==> !Admits(input, p, s)
    {
      var width, height := CheckedMul(input.width, scale), CheckedMul(input.height, scale);
      AdmitsUnfolded(input, p, scale);
      if width.None? {
        continue;
      }
      if height.None? {
        continue;
      }
      var meetsTarget := match p.mode
        case Exact => width.value == p.width && height.value == p.height
        case Minimum => width.value >= p.width && height.value >= p.height;
      if meetsTarget {
        FirstIsNeeded(input, p, scale);
        decision := decision.(status := Execute);
        decision := decision.(effectiveWidth := width.value, effectiveHeight := height.value);
        decision := decision.(outputScale := Some(scale), keptInput := None);
        return Success(decision);
      }
    }
    NoneReaches(input, p);
    return Failure(Unreachable);
  }

  function CheckedMul(a: nat, b: nat): Option<nat> {
    if a * b < U32_LIMIT then Some(a * b) else None
  }

  lemma AdmitsUnfolded(input: Input, policy: Policy, scale: nat)
    requires 2 <= scale <= 4
    ensures Admits(input, policy, scale) <==>
      CheckedMul(input.width, scale).Some? && CheckedMul(input.height, scale).Some?
      && Meets(input.width * scale, input.height * scale, policy)
  {
  }

  lemma FirstIsNeeded(input: Input, policy: Policy, scale: nat)
    requires ValidInput(input) && ValidPolicy(policy) && SameAspect(input.width, input.height, policy)
    requires Admits(input, policy, scale)
    requires forall s :: 2 <= s < scale ==> !Admits(input, policy, s)
    ensures scale == NeededFactor(input.width, policy.width) && Reachable(input, policy)
  {
    hide CeilingOf, Reachable;
    var needed := NeededFactor(input.width, policy.width);
    assert 2 <= scale <= 4;
    hide Admits;
    ScaleDecided(input, policy, scale);
    ScaleDecided(input, policy, needed);
  }

  lemma NoneReaches(input: Input, policy: Policy)
    requires ValidInput(input) && ValidPolicy(policy) && SameAspect(input.width, input.height, policy)
    requires forall s :: 2 <= s < 5 ==> !Admits(input, policy, s)
    ensures !Reachable(input, policy)
  {
    var needed := NeededFactor(input.width, policy.width);
    if Reachable(input, policy) {
      ScaleDecided(input, policy, needed);
    }
  }

  // -------------------------------------------------------------------------- facts

  /** Refusal with a usable policy means that aspects differ, or that processing is needed
      and no factor admits it; execution takes the least factor that does. */
  lemma DecisionIsLeast(input: Input, policy: Policy)
    requires ValidInput(input) && ValidPolicy(policy)
    ensures var r := DecisionOf(input, Some(policy));
      && (r.Failure? <==>
            || !SameAspect(input.width, input.height, policy)
            || (&& (policy.forceReprocess || !(input.width >= policy.width && input.height >= policy.height))
                && forall s :: 2 <= s <= 4 ==> !Admits(input, policy, s)))
      && (r.Success? && r.value.status == Execute ==>
            && r.value.outputScale.Some?
            && Admits(input, policy, r.value.outputScale.value)
            && forall s :: 2 <= s < r.value.outputScale.value ==> !Admits(input, policy, s))
  {
    hide CeilingOf, Admits, Reachable;
    if SameAspect(input.width, input.height, policy) {
      DimensionsAgree(input.width, input.height, policy);
      forall s | 2 <= s <= 4
        ensures Admits(input, policy, s) ==>
          NeededFactor(input.width, policy.width) <= s && Reachable(input, policy)
      {
        ScaleDecided(input, policy, s);
      }
      if Reachable(input, policy) {
        NeededAdmits(input, policy);
      }
    }
  }

  lemma NeededAdmits(input: Input, policy: Policy)
    requires ValidInput(input) && ValidPolicy(policy) && SameAspect(input.width, input.height, policy)
    requires Reachable(input, policy)
    ensures Admits(input, policy, NeededFactor(input.width, policy.width))
  {
    ScaleDecided(input, policy, NeededFactor(input.width, policy.width));
  }

  /** Which refusal and which status, in the source's own terms: dimensions, aspect and whether
      reprocessing is forced. */
  lemma DecisionSays(input: Input, policy: Option<Policy>)
    ensures var r := DecisionOf(input, policy);
      && (r == Failure(InvalidInput) <==> !(1 <= input.frameCount <= 100_000 && input.width > 0 && input.height > 0))
      && (r.Success? ==> r.value.input == input && r.value.policy == policy)
      && (r.Success? ==> (r.value.status == Disabled <==> policy.None?))
      && (policy.None? && r.Failure? ==> r.error == InvalidInput)
      && (policy.Some? && r != Failure(InvalidInput) ==>
            var p := policy.value;
            && (r == Failure(InvalidPolicy) <==> p.width == 0 || p.height == 0)
            && (r == Failure(AspectDiffers) <==>
                  p.width > 0 && p.height > 0 && input.width * p.height != input.height * p.width)
            && (r.Success? && r.value.status == AlreadyTarget <==>
                  !p.forceReprocess && input.width == p.width && input.height == p.height)
            && (r.Success? && r.value.status == AboveTarget <==>
                  && !p.forceReprocess && p.width > 0 && p.height > 0
                  && input.width * p.height == input.height * p.width
                  && input.width > p.width && input.height > p.height))
  {
    hide Reachable, NeededFactor;
    if policy.Some? && ValidInput(input) && ValidPolicy(policy.value)
       && SameAspect(input.width, input.height, policy.value) {
      DimensionsAgree(input.width, input.height, policy.value);
    }
  }

  /** Every decision keeps the input's aspect exactly, grows both dimensions by one whole
      factor, and keeps the input as its authority exactly when it bypasses. */
  lemma GeometryIsExact(input: Input, policy: Option<Policy>)
    requires Representable(input, policy) && DecisionOf(input, policy).Success?
    ensures var d := DecisionOf(input, policy).value;
      && d.effectiveWidth * input.height == d.effectiveHeight * input.width
      && 0 < d.effectiveWidth < U32_LIMIT && 0 < d.effectiveHeight < U32_LIMIT
      && (d.keptInput == Some(input) <==> d.status != Execute)
      && (d.keptInput.Some? ==> d.effectiveWidth == input.width && d.effectiveHeight == input.height)
      && (policy.Some? ==> SameAspect(d.effectiveWidth, d.effectiveHeight, policy.value))
      && (policy.Some? && policy.value.mode.Minimum? ==>
            d.effectiveWidth >= policy.value.width && d.effectiveHeight >= policy.value.height)
      && (policy.Some? && policy.value.mode.Exact? && d.status != AboveTarget ==>
            d.effectiveWidth == policy.value.width && d.effectiveHeight == policy.value.height)
      && (d.status == AboveTarget ==>
            d.effectiveWidth > policy.value.width && d.effectiveHeight > policy.value.height)
  {
    hide CeilingOf;
    var d := DecisionOf(input, policy).value;
    if policy.Some? {
      DimensionsAgree(input.width, input.height, policy.value);
    }
    if d.status == Execute {
      var scale := d.outputScale.value;
      NeededAdmits(input, policy.value);
      Positive(input.width, scale);
      Positive(input.height, scale);
      ScaleKeepsAspect(input.width, input.height, scale, policy.value);
      Exchange(input.width, scale, input.height);
      Exchange(input.height, scale, input.width);
    }
  }

  /** The frame set that carrying out a decision leaves behind. */
  function Outcome(d: Decision): Input {
    Input(d.effectiveWidth, d.effectiveHeight, d.input.frameCount)
  }

  /** Deciding again on the outcome, without forcing, is always a bypass that changes
      nothing: exact targets are then met, and a frame set above its target stays above. */
  lemma DecisionConverges(input: Input, policy: Policy)
    requires Representable(input, Some(policy)) && DecisionOf(input, Some(policy)).Success?
    ensures var first := DecisionOf(input, Some(policy)).value;
      var calm := policy.(forceReprocess := false);
      var again := DecisionOf(Outcome(first), Some(calm));
      && again == Success(Bypass(Outcome(first), Some(calm),
           if first.effectiveWidth == policy.width then AlreadyTarget else AboveTarget))
      && Outcome(again.value) == Outcome(first)
      && (first.status == Execute && policy.mode.Exact? ==> again.value.status == AlreadyTarget)
      && (first.status == AlreadyTarget || first.status == AboveTarget ==> again.value.status == first.status)
  {
    GeometryIsExact(input, Some(policy));
    var first := DecisionOf(input, Some(policy)).value;
    hide CeilingOf, Reachable;
    assert ValidInput(Outcome(first));
  }

  /** Forcing does not converge: a forced exact target, once met, is refused. */
  lemma ForcedExactIsRefused(input: Input, policy: Policy)
    requires Representable(input, Some(policy)) && policy.mode.Exact? && policy.forceReprocess
    requires DecisionOf(input, Some(policy)).Success?
    ensures DecisionOf(Outcome(DecisionOf(input, Some(policy)).value), Some(policy)) == Failure(Unreachable)
  {
    GeometryIsExact(input, Some(policy));
    var next := Outcome(DecisionOf(input, Some(policy)).value);
    assert next.width == policy.width;
    CeilingIsLeast(policy.width, next.width, 1);
    assert NeededFactor(next.width, policy.width) == 2;
    assert next.width * 2 != policy.width;
  }

  /** Deciding again on the outcome under the same policy is a bypass exactly if the policy
      does not force reprocessing; a forced policy then executes again or is refused. */
  lemma SecondDecisionBypasses(input: Input, policy: Policy)
    requires Representable(input, Some(policy)) && DecisionOf(input, Some(policy)).Success?
    ensures var again := DecisionOf(Outcome(DecisionOf(input, Some(policy)).value), Some(policy));
      && (again.Success? && again.value.status != Execute <==> !policy.forceReprocess)
      && (policy.forceReprocess && again.Success? ==>
            again.value.outputScale.Some? && again.value.outputScale.value >= 2)
  {
    DecisionConverges(input, policy);
    var next := Outcome(DecisionOf(input, Some(policy)).value);
    if policy.forceReprocess && DecisionOf(next, Some(policy)).Success? {
      DecisionIsLeast(next, policy);
    }
  }

  // ---------------------------------------------------------------------- resources

  /** What `resources` reads of a neural configuration. */
  datatype Settings = Settings(nativeScale: nat, maximumOutputFrameBytes: nat)

  datatype Resources = Resources(
    inputPixels: nat, effectivePixels: nat, rgbBytes: nat, rgbTotal: nat,
    nativePixels: Option<nat>, maximumPngBytes: Option<nat>)

  function Checked64(a: nat, b: nat): Option<nat> {
    if a * b < U64_LIMIT then Some(a * b) else None
  }

  /** `resources`, of a decision that validates, in the order of its checked products. */
  function ResourcesOf(d: Decision, settings: Settings): Result<Resources, TargetError> {
    var pixels, inputPixels := d.effectiveWidth * d.effectiveHeight, d.input.width * d.input.height;
    match Checked64(pixels, 3)
    case None => Failure(Overflow)
    case Some(rgb) =>
      match Checked64(rgb, d.input.frameCount)
      case None => Failure(Overflow)
      case Some(total) =>
        if d.outputScale.None? then Success(Resources(inputPixels, pixels, rgb, total, None, None))
        else NeuralResources(d, settings, Resources(inputPixels, pixels, rgb, total, None, None))
  }

  function NeuralResources(d: Decision, settings: Settings, resources: Resources): Result<Resources, TargetError> {
    match Checked64(resources.inputPixels, settings.nativeScale)
    case None => Failure(Overflow)
    case Some(once) =>
      match Checked64(once, settings.nativeScale)
      case None => Failure(Overflow)
      case Some(native) =>
        match Checked64(d.input.frameCount, settings.maximumOutputFrameBytes)
        case None => Failure(Overflow)
        case Some(png) => Success(resources.(nativePixels := Some(native), maximumPngBytes := Some(png)))
  }

  /** The totals that must stay within 64 bits. */
  predicate ResourcesFit(d: Decision, settings: Settings) {
    && d.effectiveWidth * d.effectiveHeight * 3 * d.input.frameCount < U64_LIMIT
    && (d.status == Execute ==> NeuralFit(d, settings))
  }

  predicate NeuralFit(d: Decision, settings: Settings) {
    && d.input.width * d.input.height * settings.nativeScale * settings.nativeScale < U64_LIMIT
    && d.input.frameCount * settings.maximumOutputFrameBytes < U64_LIMIT
  }

  /** Only the final totals decide overflow, and effective pixels are input pixels times
      the square of the factor. */
  lemma ResourcesAddUp(d: Decision, settings: Settings)
    requires DecisionOf(d.input, d.policy) == Success(d)
    ensures ResourcesOf(d, settings).Success? <==> ResourcesFit(d, settings)
    ensures ResourcesOf(d, settings).Success? ==>
      var resources := ResourcesOf(d, settings).value;
      var scale := if d.status == Execute then d.outputScale.value else 1;
      && resources.effectivePixels == resources.inputPixels * scale * scale
      && resources.inputPixels == d.input.width * d.input.height
      && resources.rgbBytes == d.effectiveWidth * d.effectiveHeight * 3
      && resources.rgbTotal == d.effectiveWidth * d.effectiveHeight * 3 * d.input.frameCount
      && resources.nativePixels == (if d.status == Execute
           then Some(d.input.width * d.input.height * settings.nativeScale * settings.nativeScale) else None)
      && resources.maximumPngBytes == (if d.status == Execute
           then Some(d.input.frameCount * settings.maximumOutputFrameBytes) else None)
  {
    assert d.input.frameCount > 0;
    PixelsScale(d);
    hide DecisionOf, NeuralResources, NeuralFit;
    var pixels, inputPixels: nat := d.effectiveWidth * d.effectiveHeight, d.input.width * d.input.height;
    Grows(pixels * 3, d.input.frameCount);
    NeuralAddsUp(d, settings, Resources(inputPixels, pixels, pixels * 3, pixels * 3 * d.input.frameCount, None, None));
  }

  lemma NeuralAddsUp(d: Decision, settings: Settings, resources: Resources)
    requires resources.inputPixels == d.input.width * d.input.height
    ensures NeuralResources(d, settings, resources).Success? <==> NeuralFit(d, settings)
    ensures NeuralResources(d, settings, resources).Success? ==>
      var filled := NeuralResources(d, settings, resources).value;
      && filled.nativePixels == Some(resources.inputPixels * settings.nativeScale * settings.nativeScale)
      && filled.maximumPngBytes == Some(d.input.frameCount * settings.maximumOutputFrameBytes)
      && filled.(nativePixels := resources.nativePixels, maximumPngBytes := resources.maximumPngBytes) == resources
  {
    if settings.nativeScale > 0 {
      Grows(resources.inputPixels * settings.nativeScale, settings.nativeScale);
    }
  }

  lemma Grows(a: nat, b: nat)
    requires b > 0
    ensures a * b >= a
  {
  }

  lemma PixelsScale(d: Decision)
    requires DecisionOf(d.input, d.policy) == Success(d)
    ensures d.outputScale.Some? <==> d.status == Execute
    ensures var scale := if d.status == Execute then d.outputScale.value else 1;
      d.effectiveWidth * d.effectiveHeight == d.input.width * d.input.height * scale * scale
  {
    hide CeilingOf, Reachable;
    if d.status == Execute {
      Square(d.input.width, d.input.height, d.outputScale.value);
    }
  }

  lemma Square(a: nat, b: nat, s: nat)
    ensures (a * s) * (b * s) == a * b * s * s
  {
    calc {
      (a * s) * (b * s);
      ((a * s) * b) * s;
      { Exchange(a, s, b); }
      a * b * s * s;
    }
  }
}
