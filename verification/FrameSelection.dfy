/** Frame-range selection of src/frame_selection.rs: one sort and one sweep decide that
    inclusive ranges are disjoint, and partition the frame grid. */
module FrameSelection {
  import opened Wrappers
  import opened Sorting
  import opened Widths

  const MAXIMUM_RANGES := 1024

  /** One-based and inclusive. */
  datatype Range = Range(first: nat, last: nat)

  /** Exact seconds. */
  datatype Interval = Interval(start: real, end: real)

  /** What the selection reads of a frame index. */
  datatype Index = Index(filenames: seq<string>, times: seq<Interval>, period: real)

  datatype Selected = Selected(
    firstFrame: nat, lastFrame: nat,
    startOrdinal: nat, endOrdinal: nat,
    frameCount: nat,
    firstFilename: string, lastFilename: string,
    sourceTime: Interval)

  datatype Plan = Plan(sourceFrames: nat, selectedFrames: nat, unselectedFrames: nat, ranges: seq<Selected>)

  datatype SelectionError =
    | RangeCount
    | InvalidIndex
    | InvalidRange
    | BeyondSource
    | Overlap
    | NoTimeMapping
    | NoFilename
    | CountOverflow
    | EmptyTime

  // -------------------------------------------------------------------------- index

  /** The constant-rate, zero-origin, contiguous profile that `RifeFrameIndex::validate`
      admits, as far as selection depends on it. */
  ghost predicate ValidIndex(index: Index) {
    && 0 < |index.filenames| == |index.times| < U64_LIMIT
    && index.period > 0.0
    && index.times[0].start == 0.0
    && (forall i :: 0 <= i < |index.times| ==> index.times[i].end == index.times[i].start + index.period)
    && (forall i :: 0 <= i < |index.times| - 1 ==> index.times[i].end == index.times[i + 1].start)
  }

  /** On such an index every frame stands at its multiple of the period. */
  lemma {:induction false} FrameStands(index: Index, i: nat)
    requires ValidIndex(index) && i < |index.times|
    ensures index.times[i].start == i as real * index.period
    ensures index.times[i].end == (i + 1) as real * index.period
    decreases i
  {
    if i > 0 {
      FrameStands(index, i - 1);
      assert index.times[i - 1].end == index.times[i].start;
    }
    Distribute(i, index.period);
  }

  lemma Distribute(i: nat, period: real)
    ensures (i + 1) as real * period == i as real * period + period
  {
    assert (i + 1) as real == i as real + 1.0;
  }

  // ------------------------------------------------------------------ specification

  predicate RangeLeq(a: Range, b: Range) {
    a.first < b.first || (a.first == b.first && a.last <= b.last)
  }

  lemma RangeOrder()
    ensures TotalPreorder(RangeLeq)
    ensures forall s: seq<Range> :: NoTies(RangeLeq, s)
  {
  }

  /** The first refusal of the sweep over sorted ranges. */
  function SweepRefusal(ordered: seq<Range>, frames: nat, previousLast: nat): Option<SelectionError>
    decreases |ordered|
  {
    if ordered == [] then None
    else
      var r := ordered[0];
      if r.first == 0 || r.last < r.first then Some(InvalidRange)
      else if r.last > frames then Some(BeyondSource)
      else if r.first <= previousLast then Some(Overlap)
      else SweepRefusal(ordered[1..], frames, r.last)
  }

  predicate Fits(r: Range, frames: nat) {
    1 <= r.first <= r.last <= frames
  }

  function FrameCount(r: Range): int {
    r.last - r.first + 1
  }

  function Describe(index: Index, r: Range): Selected
    requires |index.filenames| == |index.times| && Fits(r, |index.filenames|)
  {
    Selected(r.first, r.last, r.first - 1, r.last, FrameCount(r),
             index.filenames[r.first - 1], index.filenames[r.last - 1],
             Interval(index.times[r.first - 1].start, index.times[r.last - 1].end))
  }

  function CountAll(ranges: seq<Range>): int {
    if ranges == [] then 0 else CountAll(ranges[..|ranges| - 1]) + FrameCount(ranges[|ranges| - 1])
  }

  predicate Separate(a: Range, b: Range) {
    a.last < b.first || b.last < a.first
  }

  /** What a caller must supply: 1 to 1024 ranges inside the source, no two sharing a
      frame. */
  predicate Selectable(ranges: seq<Range>, frames: nat) {
    && 1 <= |ranges| <= MAXIMUM_RANGES
    && (forall i :: 0 <= i < |ranges| ==> Fits(ranges[i], frames))
    && (forall i, j :: 0 <= i < j < |ranges| ==> Separate(ranges[i], ranges[j]))
  }

  lemma SelectableMeans(ranges: seq<Range>, frames: nat)
    ensures Selectable(ranges, frames) <==>
      && 1 <= |ranges| <= 1024
      && (forall i :: 0 <= i < |ranges| ==> 1 <= ranges[i].first <= ranges[i].last <= frames)
      && (forall i, j :: 0 <= i < j < |ranges| ==> ranges[i].last < ranges[j].first || ranges[j].last < ranges[i].first)
  {
  }

  /** The plan of selectable ranges: described in source order, with counts that add up
      to the source. */
  ghost function PlanOf(index: Index, ranges: seq<Range>): Plan
    requires ValidIndex(index) && Selectable(ranges, |index.filenames|)
  {
    SortedSelectable(ranges, |index.filenames|);
    CountFits(Sort(RangeLeq, ranges), |index.filenames|);
    var ordered, n := Sort(RangeLeq, ranges), |index.filenames|;
    Plan(n, CountAll(ordered), n - CountAll(ordered),
         seq(|ordered|, i requires 0 <= i < |ordered| => Describe(index, ordered[i])))
  }

  // -------------------------------------------------------------- the sweep decides

  /** In order, disjoint means each range ends before the next begins. */
  predicate Ascending(ordered: seq<Range>, frames: nat) {
    && (forall i :: 0 <= i < |ordered| ==> Fits(ordered[i], frames))
    && (forall i, j :: 0 <= i < j < |ordered| ==> ordered[i].last < ordered[j].first)
  }

  lemma {:induction false} SweepDecides(ordered: seq<Range>, frames: nat, previousLast: nat)
    ensures SweepRefusal(ordered, frames, previousLast).None? <==>
      Ascending(ordered, frames) && (ordered != [] ==> previousLast < ordered[0].first)
    decreases |ordered|
  {
    if ordered != [] {
      var rest := ordered[1..];
      SweepDecides(rest, frames, ordered[0].last);
      if Ascending(rest, frames) && Fits(ordered[0], frames) && (rest != [] ==> ordered[0].last < rest[0].first) {
        forall i, j | 0 <= i < j < |ordered| ensures ordered[i].last < ordered[j].first {
          if i > 0 {
            assert rest[i - 1].last < rest[j - 1].first;
          } else if j > 1 {
            assert rest[0].last < rest[j - 1].first && Fits(rest[0], frames);
          }
        }
        forall i | 0 <= i < |ordered| ensures Fits(ordered[i], frames) {
          if i > 0 {
            assert Fits(rest[i - 1], frames);
          }
        }
      }
      if Ascending(ordered, frames) {
        assert forall i :: 0 <= i < |rest| ==> rest[i] == ordered[i + 1];
      }
    }
  }

  lemma SortedSelectable(ranges: seq<Range>, frames: nat)
    requires 1 <= |ranges| <= MAXIMUM_RANGES
    ensures |Sort(RangeLeq, ranges)| == |ranges|
    ensures Selectable(ranges, frames) <==> Ascending(Sort(RangeLeq, ranges), frames)
  {
    hide Sort;
    RangeOrder();
    SortSorts(RangeLeq, ranges);
    var ordered := Sort(RangeLeq, ranges);
    SameElements(ranges, ordered);
    if Selectable(ranges, frames) {
      SelectableAscends(ranges, ordered, frames);
    }
    if Ascending(ordered, frames) {
      AscendingSelectable(ordered, ranges, frames);
    }
  }

  lemma SelectableAscends(ranges: seq<Range>, ordered: seq<Range>, frames: nat)
    requires multiset(ranges) == multiset(ordered) && SortedBy(RangeLeq, ordered)
    requires Selectable(ranges, frames)
    ensures Ascending(ordered, frames)
  {
    SameElements(ranges, ordered);
    forall i, j | 0 <= i < j < |ranges| ensures !Shares(ranges[i], ranges[j]) {
      assert Separate(ranges[i], ranges[j]) && Fits(ranges[i], frames) && Fits(ranges[j], frames);
    }
    PermutationKeepsApart(ranges, ordered, Shares);
    forall i | 0 <= i < |ordered| ensures Fits(ordered[i], frames) {
      assert ordered[i] in ranges;
    }
    forall i, j | 0 <= i < j < |ordered| ensures ordered[i].last < ordered[j].first {
      assert RangeLeq(ordered[i], ordered[j]) && !Shares(ordered[i], ordered[j]);
    }
  }

  /** Two ranges share a frame, or are the same range. */
  predicate Shares(a: Range, b: Range) {
    a == b || !Separate(a, b)
  }

  lemma AscendingSelectable(ordered: seq<Range>, ranges: seq<Range>, frames: nat)
    requires multiset(ordered) == multiset(ranges) && Ascending(ordered, frames)
    requires 1 <= |ranges| <= MAXIMUM_RANGES
    ensures Selectable(ranges, frames)
  {
    SameElements(ordered, ranges);
    forall i, j | 0 <= i < j < |ordered| ensures !Shares(ordered[i], ordered[j]) {
      assert Fits(ordered[i], frames) && Fits(ordered[j], frames);
    }
    PermutationKeepsApart(ordered, ranges, Shares);
    forall i | 0 <= i < |ranges| ensures Fits(ranges[i], frames) {
      assert ranges[i] in ordered;
    }
    forall i, j | 0 <= i < j < |ranges| ensures Separate(ranges[i], ranges[j]) {
      assert !Shares(ranges[i], ranges[j]);
    }
  }

  // -------------------------------------------------------------------------- counts

  lemma {:induction false} CountFits(ordered: seq<Range>, frames: nat)
    requires Ascending(ordered, frames)
    ensures 0 <= CountAll(ordered) <= if ordered == [] then 0 else ordered[|ordered| - 1].last
    decreases |ordered|
  {
    if ordered != [] {
      var front := ordered[..|ordered| - 1];
      CountFits(front, frames);
      assert Fits(ordered[|ordered| - 1], frames);
    }
  }

  predicate Holds(r: Range, frame: nat) {
    r.first <= frame <= r.last
  }

  predicate Covered(ranges: seq<Range>, frame: nat) {
    exists i :: 0 <= i < |ranges| && Holds(ranges[i], frame)
  }

  function CoveredFrames(ranges: seq<Range>, frames: nat): set<nat> {
    set frame: nat | 1 <= frame <= frames && Covered(ranges, frame)
  }

  function FramesOf(r: Range): set<nat> {
    set frame: nat | frame <= r.last && Holds(r, frame)
  }

  lemma {:induction false} FramesOfSize(r: Range)
    requires r.first <= r.last + 1
    ensures |FramesOf(r)| == FrameCount(r)
    decreases r.last + 1 - r.first
  {
    if r.first <= r.last {
      FramesOfSize(Range(r.first + 1, r.last));
      assert FramesOf(r) == FramesOf(Range(r.first + 1, r.last)) + {r.first};
    } else {
      assert FramesOf(r) == {};
    }
  }

  /** The selected count is the number of distinct frames selected: no frame is counted
      twice or missed. */
  lemma {:induction false} CountIsExact(ordered: seq<Range>, frames: nat)
    requires Ascending(ordered, frames)
    ensures |CoveredFrames(ordered, frames)| == CountAll(ordered)
    decreases |ordered|
  {
    if ordered == [] {
      assert CoveredFrames(ordered, frames) == {};
    } else {
      var last := |ordered| - 1;
      var front, r := ordered[..last], ordered[last];
      CountIsExact(front, frames);
      assert Fits(r, frames);
      FramesOfSize(r);
      CoveredOneMore(ordered, frames);
      assert CoveredFrames(front, frames) !! FramesOf(r);
    }
  }

  lemma CoveredOneMore(ordered: seq<Range>, frames: nat)
    requires ordered != [] && Ascending(ordered, frames)
    ensures CoveredFrames(ordered, frames)
      == CoveredFrames(ordered[..|ordered| - 1], frames) + FramesOf(ordered[|ordered| - 1])
  {
    var last := |ordered| - 1;
    var front, r := ordered[..last], ordered[last];
    assert Fits(r, frames);
    forall frame: nat ensures Covered(ordered, frame) <==> Covered(front, frame) || Holds(r, frame) {
      if Covered(front, frame) {
        var i :| 0 <= i < |front| && Holds(front[i], frame);
        assert ordered[i] == front[i];
      }
      if Covered(ordered, frame) {
        var i :| 0 <= i < |ordered| && Holds(ordered[i], frame);
        if i < last {
          assert front[i] == ordered[i];
        }
      }
    }
  }

  // ---------------------------------------------------------------------- the method

  /** The lookups of one range: on an admitted index none of the four refusals can happen. */
  method SelectRange(index: Index, range: Range, selectedFrames: nat) returns (r: Result<Selected, SelectionError>)
    requires ValidIndex(index) && Fits(range, |index.filenames|)
    requires selectedFrames + FrameCount(range) <= |index.filenames|
    ensures |index.filenames| == |index.times|
    ensures r == Success(Describe(index, range))
  {
    hide ValidIndex;
    IndexShape(index);
    var startOrdinal, endOrdinal := range.first - 1, range.last;
    var start, last := startOrdinal, range.last - 1;
    if start >= |index.times| || last >= |index.times| {
      return Failure(NoTimeMapping);
    }
    if start >= |index.filenames| || last >= |index.filenames| {
      return Failure(NoFilename);
    }
    var frameCount := endOrdinal - startOrdinal;
    if selectedFrames + frameCount >= U64_LIMIT {
      return Failure(CountOverflow);
    }
    TimeAdvances(index, start, last);
    if index.times[last].end <= index.times[start].start {
      return Failure(EmptyTime);
    }
    r := Success(Selected(
      range.first, range.last, startOrdinal, endOrdinal, frameCount,
      index.filenames[start], index.filenames[last],
      Interval(index.times[start].start, index.times[last].end)));
  }

  /** `plan_from_rife_index`. */
  method PlanSelection(index: Index, ranges: seq<Range>) returns (r: Result<Plan, SelectionError>)
    requires ValidIndex(index)
    ensures r.Success? <==> Selectable(ranges, |index.filenames|)
    ensures r.Success? <==>
      && 1 <= |ranges| <= 1024
      && (forall i :: 0 <= i < |ranges| ==> 1 <= ranges[i].first <= ranges[i].last <= |index.filenames|)
      && (forall i, j :: 0 <= i < j < |ranges| ==> ranges[i].last < ranges[j].first || ranges[j].last < ranges[i].first)
    ensures r.Success? ==> r.value == PlanOf(index, ranges) && Answers(index, ranges, r.value)
    ensures r.Failure? ==>
      if 1 <= |ranges| <= MAXIMUM_RANGES
      then SweepRefusal(Sort(RangeLeq, ranges), |index.filenames|, 0) == Some(r.error)
      else r.error == RangeCount
  {
    SelectableMeans(ranges, |index.filenames|);
    if |ranges| == 0 || |ranges| > MAXIMUM_RANGES {
      return Failure(RangeCount);
    }
    hide Answers, Sort, ValidIndex, Ascending, SweepRefusal, PlanOf, CountAll, Selectable, Described;
    IndexShape(index);
    var sourceFrames := |index.filenames|;
    var ordered := Sort(RangeLeq, ranges);
    SortedSelectable(ranges, sourceFrames);
    SweepDecides(ordered, sourceFrames, 0);
    SweepBegins(index, ordered, sourceFrames);
    var selected: seq<Selected> := [];
    var previousLast, selectedFrames: nat := 0, 0;
    for i := 0 to |ordered|
      invariant SweepRefusal(ordered, sourceFrames, 0) == SweepRefusal(ordered[i..], sourceFrames, previousLast)
      invariant Ascending(ordered[..i], sourceFrames)
      invariant previousLast == if i == 0 then 0 else ordered[i - 1].last
      invariant selectedFrames == CountAll(ordered[..i])
      invariant Described(index, ordered[..i], selected)
    {
      var range := ordered[i];
      SweepStep(ordered, i, sourceFrames, previousLast);
      if range.first == 0 || range.last < range.first {
        return Failure(InvalidRange);
      }
      if range.last > sourceFrames {
        return Failure(BeyondSource);
      }
      if range.first <= previousLast {
        return Failure(Overlap);
      }
      AscendingOneMore(ordered, i, sourceFrames);
      CountOneMore(ordered, i, sourceFrames);
      var next := SelectRange(index, range, selectedFrames);
      DescribedOneMore(index, ordered, i, selected, next.value);
      selectedFrames := selectedFrames + next.value.frameCount;
      selected := selected + [next.value];
      previousLast := range.last;
    }
    SweepEnds(index, ordered, sourceFrames, previousLast);
    r := Success(Plan(sourceFrames, selectedFrames, sourceFrames - selectedFrames, selected));
    PlanIsDescribed(index, ranges, r.value);
    PlanAnswers(index, ranges);
  }

  ghost predicate Described(index: Index, ordered: seq<Range>, selected: seq<Selected>) {
    && |index.filenames| == |index.times|
    && |selected| == |ordered|
    && forall k :: 0 <= k < |ordered| ==>
         Fits(ordered[k], |index.filenames|) && selected[k] == Describe(index, ordered[k])
  }

  lemma DescribedOneMore(index: Index, ordered: seq<Range>, i: nat, selected: seq<Selected>, next: Selected)
    requires i < |ordered| && Described(index, ordered[..i], selected)
    requires Fits(ordered[i], |index.filenames|) && next == Describe(index, ordered[i])
    ensures Described(index, ordered[..i + 1], selected + [next])
  {
    hide Describe, Fits;
    var longer, shorter := ordered[..i + 1], ordered[..i];
    forall k | 0 <= k < |longer|
      ensures Fits(longer[k], |index.filenames|) && (selected + [next])[k] == Describe(index, longer[k])
    {
      if k < i {
        assert longer[k] == shorter[k];
      }
    }
  }

  lemma PlanIsDescribed(index: Index, ranges: seq<Range>, plan: Plan)
    requires ValidIndex(index) && Selectable(ranges, |index.filenames|)
    requires Described(index, Sort(RangeLeq, ranges), plan.ranges)
    requires plan.sourceFrames == |index.filenames|
    requires plan.selectedFrames == CountAll(Sort(RangeLeq, ranges))
    requires plan.unselectedFrames == plan.sourceFrames - plan.selectedFrames
    ensures plan == PlanOf(index, ranges)
  {
    hide Sort, ValidIndex, Selectable, CountAll, Describe, Fits;
    assert plan.ranges == PlanOf(index, ranges).ranges;
  }

  lemma SweepStep(ordered: seq<Range>, i: nat, frames: nat, previousLast: nat)
    requires i < |ordered|
    ensures SweepRefusal(ordered[i..], frames, previousLast) ==
      if ordered[i].first == 0 || ordered[i].last < ordered[i].first then Some(InvalidRange)
      else if ordered[i].last > frames then Some(BeyondSource)
      else if ordered[i].first <= previousLast then Some(Overlap)
      else SweepRefusal(ordered[i + 1..], frames, ordered[i].last)
  {
    assert ordered[i..][1..] == ordered[i + 1..];
  }

  lemma SweepBegins(index: Index, ordered: seq<Range>, frames: nat)
    requires |index.filenames| == |index.times|
    ensures ordered[0..] == ordered && Ascending(ordered[..0], frames)
    ensures CountAll(ordered[..0]) == 0 && Described(index, ordered[..0], [])
    ensures Ascending(ordered, frames) && ordered != [] ==> 0 < ordered[0].first
  {
    assert ordered != [] && Ascending(ordered, frames) ==> Fits(ordered[0], frames);
  }

  lemma SweepEnds(index: Index, ordered: seq<Range>, frames: nat, previousLast: nat)
    ensures SweepRefusal(ordered[|ordered|..], frames, previousLast).None?
    ensures ordered[..|ordered|] == ordered
    ensures Ascending(ordered, frames) ==> CountAll(ordered) <= frames
  {
    if Ascending(ordered, frames) {
      CountFits(ordered, frames);
      assert forall i :: 0 <= i < |ordered| ==> Fits(ordered[i], frames);
    }
  }

  lemma CountOneMore(ordered: seq<Range>, i: nat, frames: nat)
    requires i < |ordered| && Ascending(ordered[..i + 1], frames)
    ensures CountAll(ordered[..i + 1]) == CountAll(ordered[..i]) + FrameCount(ordered[i])
    ensures CountAll(ordered[..i + 1]) <= frames
  {
    assert ordered[..i + 1][..i] == ordered[..i];
    CountFits(ordered[..i + 1], frames);
    assert Fits(ordered[..i + 1][i], frames);
  }

  lemma IndexShape(index: Index)
    requires ValidIndex(index)
    ensures 0 < |index.filenames| == |index.times| < U64_LIMIT
  {
  }

  lemma AscendingOneMore(ordered: seq<Range>, i: nat, frames: nat)
    requires i < |ordered| && Ascending(ordered[..i], frames) && Fits(ordered[i], frames)
    requires i > 0 ==> ordered[i - 1].last < ordered[i].first
    ensures Ascending(ordered[..i + 1], frames)
  {
    var longer, shorter := ordered[..i + 1], ordered[..i];
    forall a, b | 0 <= a < b < |longer| ensures longer[a].last < longer[b].first {
      if b < i {
        assert shorter[a].last < shorter[b].first;
      } else if a < i - 1 {
        assert shorter[a].last < shorter[i - 1].first && Fits(shorter[i - 1], frames);
      }
    }
    forall a | 0 <= a < |longer| ensures Fits(longer[a], frames) {
      if a < i {
        assert longer[a] == shorter[a];
      }
    }
  }

  /** A run of frames lasts its length in periods. */
  lemma TimeAdvances(index: Index, start: nat, last: nat)
    requires ValidIndex(index) && start <= last < |index.times|
    ensures index.times[last].end - index.times[start].start == (last + 1 - start) as real * index.period
    ensures index.times[start].start < index.times[last].end
  {
    FrameStands(index, start);
    FrameStands(index, last);
    var n := last + 1 - start;
    assert (last + 1) as real == start as real + n as real;
    Product(start as real, n as real, index.period);
    assert n as real >= 1.0;
    PositiveProduct(n as real, index.period);
  }

  lemma Product(x: real, y: real, z: real)
    ensures (x + y) * z == x * z + y * z
  {
  }

  lemma PositiveProduct(x: real, y: real)
    requires x >= 1.0 && y > 0.0
    ensures x * y > 0.0
  {
  }

  // -------------------------------------------------------------------------- facts

  predicate Lasts(s: Selected, period: real) {
    s.sourceTime.end - s.sourceTime.start == s.frameCount as real * period
  }

  /** Each interval lasts as many periods as it has frames, and intervals follow each
      other. */
  ghost predicate KeepsTime(described: seq<Selected>, period: real) {
    && (forall i :: 0 <= i < |described| ==> Lasts(described[i], period))
    && (forall i, j :: 0 <= i < j < |described| ==>
          described[i].sourceTime.end <= described[j].sourceTime.start)
  }

  /** Counts partition the source by the distinct frames selected, and intervals keep the
      source's time. */
  lemma PlanAddsUp(index: Index, ranges: seq<Range>)
    requires ValidIndex(index) && Selectable(ranges, |index.filenames|)
    ensures var plan := PlanOf(index, ranges);
      && plan.selectedFrames == |CoveredFrames(ranges, |index.filenames|)|
      && plan.selectedFrames + plan.unselectedFrames == |index.filenames|
      && |plan.ranges| == |ranges|
      && KeepsTime(plan.ranges, index.period)
  {
    assert 1 <= |ranges| <= MAXIMUM_RANGES;
    hide Sort, ValidIndex, CoveredFrames, Selectable, CountAll, PlanOf, Described, Ascending, KeepsTime;
    var n, ordered := |index.filenames|, Sort(RangeLeq, ranges);
    SortedSelectable(ranges, n);
    CountIsExact(ordered, n);
    SameCoverage(ranges, n);
    PlanParts(index, ranges);
    RangesKeepTime(index, ordered, PlanOf(index, ranges).ranges);
  }

  lemma PlanParts(index: Index, ranges: seq<Range>)
    requires ValidIndex(index) && Selectable(ranges, |index.filenames|)
    ensures var plan, ordered := PlanOf(index, ranges), Sort(RangeLeq, ranges);
      && Described(index, ordered, plan.ranges)
      && plan.selectedFrames == CountAll(ordered)
      && plan.selectedFrames + plan.unselectedFrames == |index.filenames|
      && |plan.ranges| == |ranges|
  {
    assert 1 <= |ranges| <= MAXIMUM_RANGES;
    hide Sort, ValidIndex, Selectable, CountAll, Ascending, Describe;
    IndexShape(index);
    SortedSelectable(ranges, |index.filenames|);
    AllFit(Sort(RangeLeq, ranges), |index.filenames|);
  }

  lemma AllFit(ordered: seq<Range>, frames: nat)
    requires Ascending(ordered, frames)
    ensures forall i :: 0 <= i < |ordered| ==> Fits(ordered[i], frames)
  {
  }

  lemma RangesKeepTime(index: Index, ordered: seq<Range>, described: seq<Selected>)
    requires ValidIndex(index) && Ascending(ordered, |index.filenames|) && Described(index, ordered, described)
    ensures KeepsTime(described, index.period)
  {
    hide ValidIndex, Lasts;
    forall i | 0 <= i < |described| ensures Lasts(described[i], index.period) {
      IntervalLasts(index, ordered[i]);
    }
    forall i, j | 0 <= i < j < |described|
      ensures described[i].sourceTime.end <= described[j].sourceTime.start
    {
      assert Fits(ordered[i], |index.filenames|) && Fits(ordered[j], |index.filenames|);
      Following(index, ordered[i].last - 1, ordered[j].first - 1);
    }
  }

  lemma IntervalLasts(index: Index, r: Range)
    requires ValidIndex(index) && |index.filenames| == |index.times| && Fits(r, |index.filenames|)
    ensures Lasts(Describe(index, r), index.period)
  {
    hide ValidIndex;
    TimeAdvances(index, r.first - 1, r.last - 1);
  }

  lemma Following(index: Index, last: nat, first: nat)
    requires ValidIndex(index) && last < first < |index.times|
    ensures index.times[last].end <= index.times[first].start
  {
    TimeAdvances(index, last, last);
    if last + 1 < first {
      TimeAdvances(index, last + 1, first - 1);
    }
    FrameStands(index, last);
    FrameStands(index, last + 1);
    FrameStands(index, first);
    FrameStands(index, first - 1);
  }

  lemma SameCoverage(ranges: seq<Range>, frames: nat)
    ensures CoveredFrames(Sort(RangeLeq, ranges), frames) == CoveredFrames(ranges, frames)
  {
    hide Sort;
    RangeOrder();
    SortSorts(RangeLeq, ranges);
    var ordered := Sort(RangeLeq, ranges);
    SameElements(ranges, ordered);
    forall frame: nat ensures Covered(ranges, frame) <==> Covered(ordered, frame) {
      if Covered(ranges, frame) {
        var i :| 0 <= i < |ranges| && Holds(ranges[i], frame);
        assert ranges[i] in ordered;
      }
      if Covered(ordered, frame) {
        var i :| 0 <= i < |ordered| && Holds(ordered[i], frame);
        assert ordered[i] in ranges;
      }
    }
  }

  /** A description of frames `first` to `last`: their ordinals, number, names and times. */
  ghost predicate Covers(index: Index, s: Selected, first: nat, last: nat) {
    && 1 <= first <= last <= |index.filenames|
    && s.firstFrame == first && s.lastFrame == last
    && s.startOrdinal == first - 1 && s.endOrdinal == last && s.frameCount == last - first + 1
    && s.firstFilename == index.filenames[first - 1] && s.lastFilename == index.filenames[last - 1]
    && s.sourceTime.start == (first - 1) as real * index.period && s.sourceTime.end == last as real * index.period
  }

  ghost predicate Describes(described: seq<Selected>, r: Range) {
    exists k :: 0 <= k < |described| && described[k].firstFrame == r.first && described[k].lastFrame == r.last
  }

  /** What a plan owes: every range described once, in source order, and the exact counts. */
  ghost predicate Answers(index: Index, ranges: seq<Range>, plan: Plan) {
    && plan.sourceFrames == |index.filenames| && |plan.ranges| == |ranges|
    && (forall k :: 0 <= k < |plan.ranges| ==>
          Covers(index, plan.ranges[k], plan.ranges[k].firstFrame, plan.ranges[k].lastFrame))
    && (forall i, j :: 0 <= i < j < |plan.ranges| ==> plan.ranges[i].lastFrame < plan.ranges[j].firstFrame)
    && (forall r :: r in ranges <==> Describes(plan.ranges, r))
    && plan.selectedFrames == |CoveredFrames(ranges, |index.filenames|)|
    && plan.unselectedFrames == plan.sourceFrames - plan.selectedFrames
  }

  lemma DescribeCovers(index: Index, r: Range)
    requires ValidIndex(index) && |index.filenames| == |index.times| && Fits(r, |index.filenames|)
    ensures Covers(index, Describe(index, r), r.first, r.last)
  {
    FrameStands(index, r.first - 1);
    FrameStands(index, r.last - 1);
    assert (r.last - 1 + 1) as real == r.last as real;
  }

  lemma AllCovered(index: Index, ordered: seq<Range>, described: seq<Selected>)
    requires ValidIndex(index) && Described(index, ordered, described)
    ensures forall k :: 0 <= k < |described| ==>
      && described[k].firstFrame == ordered[k].first && described[k].lastFrame == ordered[k].last
      && Covers(index, described[k], ordered[k].first, ordered[k].last)
    ensures forall r :: r in ordered <==> Describes(described, r)
  {
    IndexShape(index);
    hide ValidIndex, Describe, Covers;
    forall k | 0 <= k < |described|
      ensures described[k].firstFrame == ordered[k].first && described[k].lastFrame == ordered[k].last
      ensures Covers(index, described[k], ordered[k].first, ordered[k].last)
    {
      DescribeCovers(index, ordered[k]);
      CoversMeans(index, described[k], ordered[k].first, ordered[k].last);
    }
    forall r ensures r in ordered <==> Describes(described, r) {
      if r in ordered {
        var k :| 0 <= k < |ordered| && ordered[k] == r;
        assert described[k].firstFrame == r.first && described[k].lastFrame == r.last;
      }
      if k :| 0 <= k < |described| && described[k].firstFrame == r.first && described[k].lastFrame == r.last {
        assert ordered[k] == r && ordered[k] in ordered;
      }
    }
  }

  lemma PlanAnswers(index: Index, ranges: seq<Range>)
    requires ValidIndex(index) && Selectable(ranges, |index.filenames|)
    ensures Answers(index, ranges, PlanOf(index, ranges))
  {
    var n, ordered, plan := |index.filenames|, Sort(RangeLeq, ranges), PlanOf(index, ranges);
    assert plan.sourceFrames == n && 1 <= |ranges| <= MAXIMUM_RANGES;
    hide Sort, ValidIndex, Selectable, CountAll, PlanOf, CoveredFrames, KeepsTime, Describe, Covers, Describes;
    PlanAddsUp(index, ranges);
    PlanParts(index, ranges);
    SortedSelectable(ranges, n);
    RangeOrder();
    SortSorts(RangeLeq, ranges);
    SameElements(ranges, ordered);
    AllCovered(index, ordered, plan.ranges);
  }

  lemma CoversMeans(index: Index, s: Selected, first: nat, last: nat)
    requires Covers(index, s, first, last)
    ensures s.firstFrame == first && s.lastFrame == last
  {
  }

  /** Acceptance and plan do not depend on the order in which ranges are given. */
  lemma PlanIgnoresOrder(index: Index, ranges: seq<Range>, other: seq<Range>)
    requires ValidIndex(index) && multiset(ranges) == multiset(other)
    requires Selectable(ranges, |index.filenames|)
    ensures Selectable(other, |index.filenames|) && PlanOf(index, other) == PlanOf(index, ranges)
  {
    hide Sort;
    RangeOrder();
    SortForgetsOrder(RangeLeq, ranges, other);
    SameElements(ranges, other);
    SortedSelectable(ranges, |index.filenames|);
    SortedSelectable(other, |index.filenames|);
  }
}
