/** `normalize_events` of scripts/audio-midi-adapter.py: analyzer events with exact
    rational times become sorted, disjoint notes in microseconds. */
module NoteNormaliser {
  import Bits
  import opened Wrappers
  import opened Sorting
  import opened NotePairing
  import opened NoteSweep
  import NativeNotes

  /** A finite float, as `as_integer_ratio` gives it. */
  datatype RawRatio = Ratio(num: int, den: int)
  type Ratio = r: RawRatio | r.den > 0 witness RawRatio.Ratio(0, 1)

  /** An event of five fields with finite numbers, or anything else. */
  datatype NativeEvent =
    | Measured(start: Ratio, end: Ratio, pitch: Ratio, amplitude: Ratio, bends: bool)
    | Malformed

  predicate Less(a: Ratio, b: Ratio) {
    a.num * b.den < b.num * a.den
  }

  // --------------------------------------------------------------------- rounding

  /** `microseconds`: floor division of integers, so halves round up. */
  function Microseconds(value: Ratio): int {
    (2 * value.num * 1_000_000 + value.den) / (2 * value.den)
  }

  /** Python's `round`: ties go to the even neighbour. */
  function RoundHalfEven(num: int, den: int): int
    requires den > 0
  {
    var q, r := num / den, num % den;
    if 2 * r < den || (2 * r == den && q % 2 == 0) then q else q + 1
  }

  lemma FloorBounds(n: int, d: int)
    requires d > 0
    ensures d * (n / d) <= n < d * (n / d) + d
  {
  }

  /** The microsecond is a nearest one, and a tie goes up. */
  lemma MicrosecondsIsNearest(value: Ratio)
    ensures var error := 2 * value.den * Microseconds(value) - 2 * 1_000_000 * value.num;
      -value.den < error <= value.den
  {
    var d := 2 * value.den;
    FloorBounds(2 * value.num * 1_000_000 + value.den, d);
    assert d * Microseconds(value) == 2 * value.den * Microseconds(value);
  }

  lemma MulMono(a: int, b: int, c: int)
    requires a <= b && c >= 0
    ensures a * c <= b * c
  {
  }

  /** Rounding keeps order. */
  lemma MicrosecondsIsMonotone(a: Ratio, b: Ratio)
    requires !Less(b, a)
    ensures Microseconds(a) <= Microseconds(b)
  {
    var x, y := Microseconds(a), Microseconds(b);
    MicrosecondsIsNearest(a);
    MicrosecondsIsNearest(b);
    if y < x {
      // y + 1 <= x <= a + 1/2 and b < y + 1/2, each multiplied out.
      CrossBounds(a, b, x, y);
    }
  }

  lemma CrossBounds(a: Ratio, b: Ratio, x: int, y: int)
    requires 2 * a.den * x <= 2 * 1_000_000 * a.num + a.den
    requires 2 * b.den * y > 2 * 1_000_000 * b.num - b.den
    requires y + 1 <= x
    ensures Less(b, a)
  {
    MulMono(y + 1, x, 2 * b.den);
    assert 2 * b.den * (y + 1) == 2 * b.den * y + 2 * b.den && (y + 1) * (2 * b.den) == 2 * b.den * (y + 1);
    CrossMultiplied(a.den, b.den, 2_000_000 * a.num, 2_000_000 * b.num, x);
    assert 2_000_000 * b.num * a.den == 2_000_000 * (b.num * a.den);
    assert 2_000_000 * a.num * b.den == 2_000_000 * (a.num * b.den);
  }

  lemma CrossMultiplied(c: int, d: int, m: int, n: int, x: int)
    requires c > 0 && d > 0 && 2 * c * x <= m + c && n + d + 1 <= 2 * d * x
    ensures n * c < m * d
  {
    MulMono(2 * c * x, m + c, d);
    MulMono(n + d + 1, 2 * d * x, c);
    Commuted(c, d, x);
    assert (m + c) * d == m * d + c * d && (n + d + 1) * c == n * c + d * c + c && c * d == d * c;
  }

  lemma Commuted(c: int, d: int, x: int)
    ensures 2 * c * x * d == 2 * d * x * c
  {
  }

  // -------------------------------------------------------------------- conversion

  /** Inside the source, which lasts `frames` samples. */
  predicate InSource(e: NativeEvent, frames: nat)
    requires e.Measured?
  {
    && 0 <= e.start.num
    && Less(e.start, e.end)
    && e.end.num * NativeNotes.SAMPLE_RATE <= frames * e.end.den
  }

  /** The note of one event, or none where a check refuses it. */
  function Convert(e: NativeEvent, frames: nat): Option<Note> {
    if e.Malformed? || !InSource(e, frames) then None
    else if !(LOWEST_PITCH * e.pitch.den <= e.pitch.num <= HIGHEST_PITCH * e.pitch.den) then None
    else if e.pitch.num % e.pitch.den != 0 then None
    else if !(0 <= e.amplitude.num <= e.amplitude.den) || e.bends then None
    else
      var velocity := RoundHalfEven(127 * e.amplitude.num, e.amplitude.den);
      var start, end := Microseconds(e.start), Microseconds(e.end);
      if !(1 <= velocity <= 127) then None
      else if !(0 <= start < end <= NativeNotes.DurationMicroseconds(frames)) then None
      else
        PitchIsNatural(e.pitch);
        Some(Note(start, end, e.pitch.num / e.pitch.den, velocity))
  }

  lemma PitchIsNatural(pitch: Ratio)
    requires LOWEST_PITCH * pitch.den <= pitch.num <= HIGHEST_PITCH * pitch.den
    ensures LOWEST_PITCH <= pitch.num / pitch.den <= HIGHEST_PITCH
  {
    var q := pitch.num / pitch.den;
    FloorBounds(pitch.num, pitch.den);
    if q < LOWEST_PITCH {
      MulMono(q + 1, LOWEST_PITCH, pitch.den);
    } else if q > HIGHEST_PITCH {
      MulMono(HIGHEST_PITCH + 1, q, pitch.den);
    }
  }

  function ConvertAll(events: seq<NativeEvent>, frames: nat): Option<seq<Note>>
    decreases |events|
  {
    if events == [] then Some([])
    else
      var last := |events| - 1;
      var front, note := ConvertAll(events[..last], frames), Convert(events[last], frames);
      if front.None? || note.None? then None else Some(front.value + [note.value])
  }

  /** What the adapter returns: the converted notes, sorted, if none overlaps another on
      its pitch. */
  function Normalised(events: seq<NativeEvent>, frames: nat): Option<seq<Note>> {
    var notes := ConvertAll(events, frames);
    if |events| > MAXIMUM_NOTES || notes.None? || !PairwiseApart(notes.value) then None
    else Some(Sort(NoteLeq, notes.value))
  }

  lemma {:induction false} ConvertedOneByOne(events: seq<NativeEvent>, frames: nat)
    requires ConvertAll(events, frames).Some?
    ensures var notes := ConvertAll(events, frames).value;
      && |notes| == |events|
      && forall i :: 0 <= i < |events| ==> Convert(events[i], frames) == Some(notes[i])
    decreases |events|
  {
    hide Convert;
    if events != [] {
      var last := |events| - 1;
      ConvertedOneByOne(events[..last], frames);
      forall i | 0 <= i < |events| ensures Convert(events[i], frames) == Some(ConvertAll(events, frames).value[i]) {
        if i < last {
          assert events[..last][i] == events[i];
        }
      }
    }
  }

  lemma {:induction false} ConvertAllPrefix(events: seq<NativeEvent>, k: nat, frames: nat)
    requires k <= |events| && ConvertAll(events, frames).Some?
    ensures ConvertAll(events[..k], frames).Some?
    decreases |events|
  {
    hide Convert;
    if k < |events| {
      assert events[..|events| - 1][..k] == events[..k];
      ConvertAllPrefix(events[..|events| - 1], k, frames);
    } else {
      assert events[..k] == events;
    }
  }

  // ---------------------------------------------------------------- what a note says

  /** `v` is a nearest integer to `num / den`, the upper one on a tie. */
  predicate NearestUp(num: int, den: int, v: int) {
    -den < 2 * den * v - 2 * num <= den
  }

  /** `v` is a nearest integer to `num / den`, the even one on a tie. */
  predicate NearestEven(num: int, den: int, v: int) {
    && -den <= 2 * den * v - 2 * num <= den
    && (2 * den * v - 2 * num == den || 2 * den * v - 2 * num == -den ==> v % 2 == 0)
  }

  /** The note says what the event measured: the exact pitch, the nearest velocity out of 127,
      and the nearest microseconds, of an event that the profile admits in a source of so many
      samples at 22,050 a second. */
  predicate Tells(e: NativeEvent, frames: nat, n: Note) {
    && e.Measured? && !e.bends
    && 0 <= e.start.num && e.start.num * e.end.den < e.end.num * e.start.den
    && e.end.num * 22_050 <= frames * e.end.den
    && n.pitch * e.pitch.den == e.pitch.num && 21 <= n.pitch <= 108
    && 0 <= e.amplitude.num <= e.amplitude.den
    && NearestEven(127 * e.amplitude.num, e.amplitude.den, n.velocity) && 1 <= n.velocity <= 127
    && NearestUp(1_000_000 * e.start.num, e.start.den, n.start)
    && NearestUp(1_000_000 * e.end.num, e.end.den, n.end)
    && n.start < n.end && n.end * 22_050 <= frames * 1_000_000
  }

  lemma Spaced(den: int, v: int, w: int)
    requires den > 0 && v < w
    ensures 2 * den * v + 2 * den <= 2 * den * w
  {
    MulMono(v + 1, w, 2 * den);
  }

  lemma NearestUpIsOne(num: int, den: int, v: int, w: int)
    requires den > 0 && NearestUp(num, den, v) && NearestUp(num, den, w)
    ensures v == w
  {
    if v < w {
      Spaced(den, v, w);
    } else if w < v {
      Spaced(den, w, v);
    }
  }

  lemma NearestEvenIsOne(num: int, den: int, v: int, w: int)
    requires den > 0 && NearestEven(num, den, v) && NearestEven(num, den, w)
    ensures v == w
  {
    if v + 1 < w {
      Spaced(den, v, v + 1);
      Spaced(den, v + 1, w);
    } else if w + 1 < v {
      Spaced(den, w, w + 1);
      Spaced(den, w + 1, v);
    } else if v + 1 == w || w + 1 == v {
      Neighbours(num, den, v, w);
    }
  }

  lemma Neighbours(num: int, den: int, v: int, w: int)
    requires den > 0 && NearestEven(num, den, v) && NearestEven(num, den, w)
    ensures !(v + 1 == w || w + 1 == v)
  {
    assert 2 * den * (v + 1) == 2 * den * v + 2 * den;
    assert 2 * den * (w + 1) == 2 * den * w + 2 * den;
  }

  lemma RoundsEven(num: int, den: int)
    requires den > 0
    ensures NearestEven(num, den, RoundHalfEven(num, den))
  {
    var q, r := num / den, num % den;
    assert num == den * q + r;
    assert 2 * den * q - 2 * num == -2 * r;
    assert 2 * den * (q + 1) - 2 * num == 2 * den - 2 * r;
  }

  lemma MicrosecondsUp(value: Ratio)
    ensures NearestUp(1_000_000 * value.num, value.den, Microseconds(value))
  {
    MicrosecondsIsNearest(value);
  }

  lemma WholePitch(pitch: Ratio, n: int)
    ensures pitch.num % pitch.den == 0 && pitch.num / pitch.den == n <==> n * pitch.den == pitch.num
  {
    if n * pitch.den == pitch.num {
      Bits.ModIsUnique(pitch.num, pitch.den, n, 0);
    }
  }

  lemma FloorFits(frames: nat, end: nat)
    ensures end <= NativeNotes.DurationMicroseconds(frames) <==> end * 22_050 <= frames * 1_000_000
  {
  }

  lemma PitchBounds(pitch: Ratio, n: int)
    requires n * pitch.den == pitch.num
    ensures LOWEST_PITCH * pitch.den <= pitch.num <= HIGHEST_PITCH * pitch.den <==> 21 <= n <= 108
  {
    if n < 21 {
      MulMono(n + 1, 21, pitch.den);
    } else if n > 108 {
      MulMono(109, n, pitch.den);
    } else {
      MulMono(21, n, pitch.den);
      MulMono(n, 108, pitch.den);
    }
  }

  /** An event has exactly the note that tells it, and none where nothing can. */
  lemma ConvertTells(e: NativeEvent, frames: nat, n: Note)
    ensures Convert(e, frames) == Some(n) <==> Tells(e, frames, n)
  {
    hide Microseconds, RoundHalfEven, NativeNotes.DurationMicroseconds, NearestUp, NearestEven;
    if e.Measured? {
      WholePitch(e.pitch, n.pitch);
      WholePitch(e.pitch, e.pitch.num / e.pitch.den);
      if n.pitch * e.pitch.den == e.pitch.num {
        PitchBounds(e.pitch, n.pitch);
      }
      RoundsEven(127 * e.amplitude.num, e.amplitude.den);
      MicrosecondsUp(e.start);
      MicrosecondsUp(e.end);
      FloorFits(frames, n.end);
      if Tells(e, frames, n) {
        NearestEvenIsOne(127 * e.amplitude.num, e.amplitude.den, n.velocity,
                         RoundHalfEven(127 * e.amplitude.num, e.amplitude.den));
        NearestUpIsOne(1_000_000 * e.start.num, e.start.den, n.start, Microseconds(e.start));
        NearestUpIsOne(1_000_000 * e.end.num, e.end.den, n.end, Microseconds(e.end));
      }
    }
  }

  /** One note for each event. */
  ghost predicate TellsAll(events: seq<NativeEvent>, frames: nat, notes: seq<Note>) {
    |notes| == |events| && forall i :: 0 <= i < |events| ==> Tells(events[i], frames, notes[i])
  }

  lemma {:induction false} ConvertAllTells(events: seq<NativeEvent>, frames: nat, notes: seq<Note>)
    ensures ConvertAll(events, frames) == Some(notes) <==> TellsAll(events, frames, notes)
    decreases |events|
  {
    hide Convert, Tells;
    if events != [] && notes != [] {
      var last := |events| - 1;
      var front := notes[..|notes| - 1];
      ConvertAllTells(events[..last], frames, front);
      ConvertTells(events[last], frames, notes[|notes| - 1]);
      assert notes == front + [notes[|notes| - 1]];
      if TellsAll(events, frames, notes) {
        assert TellsAll(events[..last], frames, front);
      }
      if ConvertAll(events, frames) == Some(notes) {
        assert ConvertAll(events[..last], frames) == Some(front);
        forall i | 0 <= i < |events| ensures Tells(events[i], frames, notes[i]) {
          if i < last {
            assert events[..last][i] == events[i] && front[i] == notes[i];
          }
        }
      }
    }
  }

  /** Notes on one key do not overlap. */
  predicate NoOverlap(notes: seq<Note>) {
    forall i, j :: 0 <= i < j < |notes| && notes[i].pitch == notes[j].pitch ==>
      notes[i].end <= notes[j].start || notes[j].end <= notes[i].start
  }

  /** By start, then pitch, then end. */
  predicate InOrder(notes: seq<Note>) {
    forall i, j :: 0 <= i < j < |notes| ==>
      || notes[i].start < notes[j].start
      || (notes[i].start == notes[j].start && notes[i].pitch < notes[j].pitch)
      || (notes[i].start == notes[j].start && notes[i].pitch == notes[j].pitch && notes[i].end <= notes[j].end)
  }

  /** The answer that the adapter owes: at most 8192 events that each have their note, no two
      of which overlap on a key, give exactly these notes in order; anything else is refused. */
  ghost predicate Answers(events: seq<NativeEvent>, frames: nat, r: Option<seq<Note>>) {
    && (r.Some? <==> |events| <= 8192 && exists notes :: TellsAll(events, frames, notes) && NoOverlap(notes))
    && (r.Some? ==>
          && InOrder(r.value)
          && exists notes :: TellsAll(events, frames, notes) && multiset(r.value) == multiset(notes))
  }

  lemma NormalisedAnswers(events: seq<NativeEvent>, frames: nat)
    ensures Answers(events, frames, Normalised(events, frames))
  {
    hide ConvertAll, Sort, TellsAll;
    var notes := ConvertAll(events, frames);
    if notes.Some? {
      ConvertAllTells(events, frames, notes.value);
      assert PairwiseApart(notes.value) <==> NoOverlap(notes.value);
      NoteOrder();
      SortSorts(NoteLeq, notes.value);
    }
    forall other | TellsAll(events, frames, other) ensures notes == Some(other) {
      ConvertAllTells(events, frames, other);
    }
  }

  // ---------------------------------------------------------------------- the method

  /** A dictionary of previous ends, with zero where a pitch has none. */
  function EndOf(ends: map<nat, nat>): nat -> nat {
    (pitch: nat) => if pitch in ends then ends[pitch] else 0
  }

  /** Disjointness does not depend on the order of the notes. */
  lemma PermutedApart(notes: seq<Note>, other: seq<Note>)
    requires multiset(notes) == multiset(other) && PairwiseApart(notes)
    requires forall n :: n in notes ==> n.start < n.end
    ensures PairwiseApart(other)
  {
    SameElements(notes, other);
    forall i, j | 0 <= i < j < |notes| ensures notes[i] != notes[j] {
      assert notes[i] in notes && Apart(notes[i], notes[j]);
    }
    PermutationKeepsApart(notes, other, (m, n) => m == n);
    forall i, j | 0 <= i < j < |other| ensures Apart(other[i], other[j]) {
      assert other[i] in notes && other[j] in notes;
      var a :| 0 <= a < |notes| && notes[a] == other[i];
      var b :| 0 <= b < |notes| && notes[b] == other[j];
      assert Apart(notes[if a < b then a else b], notes[if a < b then b else a]);
    }
  }

  lemma ConvertedNotes(events: seq<NativeEvent>, frames: nat, n: Note)
    requires ConvertAll(events, frames).Some? && n in ConvertAll(events, frames).value
    ensures n.start < n.end <= NativeNotes.DurationMicroseconds(frames)
    ensures LOWEST_PITCH <= n.pitch <= HIGHEST_PITCH && 1 <= n.velocity <= 127
  {
    var notes := ConvertAll(events, frames).value;
    ConvertedOneByOne(events, frames);
    var i :| 0 <= i < |notes| && notes[i] == n;
    ConvertedNote(events[i], frames);
  }

  lemma ConvertedNote(e: NativeEvent, frames: nat)
    requires Convert(e, frames).Some?
    ensures var n := Convert(e, frames).value;
      && n.start < n.end <= NativeNotes.DurationMicroseconds(frames)
      && LOWEST_PITCH <= n.pitch <= HIGHEST_PITCH && 1 <= n.velocity <= 127
  {
    hide Microseconds, RoundHalfEven, NativeNotes.DurationMicroseconds;
    PitchIsNatural(e.pitch);
  }

  lemma SortedStarts(notes: seq<Note>)
    requires SortedBy(NoteLeq, notes)
    ensures forall i, j :: 0 <= i < j < |notes| ==> notes[i].start <= notes[j].start
  {
    forall i, j | 0 <= i < j < |notes| ensures notes[i].start <= notes[j].start {
      assert NoteLeq(notes[i], notes[j]);
    }
  }

  /** The sweep over sorted notes, with the dictionary of previous ends. */
  method Sweep(notes: seq<Note>) returns (ok: bool)
    requires SortedBy(NoteLeq, notes) && forall n :: n in notes ==> n.start < n.end
    ensures ok <==> PairwiseApart(notes)
  {
    hide LastEnds;
    SortedStarts(notes);
    var previousEnd: map<nat, nat> := map[];
    LastEndsStart(EndOf(previousEnd), notes);
    for k := 0 to |notes|
      invariant LastEnds(EndOf(previousEnd), notes, k)
      invariant forall i, j :: 0 <= i < j < k ==> Apart(notes[i], notes[j])
    {
      var note := notes[k];
      assert note in notes;
      LastEndDecides(EndOf(previousEnd), notes, k);
      if note.start < (if note.pitch in previousEnd then previousEnd[note.pitch] else 0) {
        return false;
      }
      LastEndsGrow(EndOf(previousEnd), EndOf(previousEnd[note.pitch := note.end]), notes, k);
      previousEnd := previousEnd[note.pitch := note.end];
    }
    return true;
  }

  /** `normalize_events`. */
  method NormalizeEvents(events: seq<NativeEvent>, frames: nat) returns (r: Option<seq<Note>>)
    ensures r == Normalised(events, frames)
    ensures Answers(events, frames, r)
  {
    NormalisedAnswers(events, frames);
    hide Convert, Sort, PairwiseApart, Answers;
    if |events| > MAXIMUM_NOTES {
      return None;
    }
    var notes: seq<Note> := [];
    assert events[..0] == [];
    for k := 0 to |events|
      invariant ConvertAll(events[..k], frames) == Some(notes)
    {
      assert events[..k + 1][..k] == events[..k];
      var note := Convert(events[k], frames);
      if note.None? {
        if ConvertAll(events, frames).Some? {
          ConvertAllPrefix(events, k + 1, frames);
        }
        return None;
      }
      notes := notes + [note.value];
    }
    assert events[..|events|] == events;
    forall n | n in notes ensures n.start < n.end {
      ConvertedNotes(events, frames, n);
    }
    NoteOrder();
    SortSorts(NoteLeq, notes);
    var sorted := Sort(NoteLeq, notes);
    SameElements(notes, sorted);
    var ok := Sweep(sorted);
    if PairwiseApart(notes) {
      PermutedApart(notes, sorted);
    }
    if !ok {
      return None;
    }
    PermutedApart(sorted, notes);
    return Some(sorted);
  }

  // ------------------------------------------------------------------------ properties

  /** Every accepted list is a sorted permutation of the converted notes, inside the
      source, and strictly ordered by start, pitch and end. */
  lemma NormalisedIsSortedPermutation(events: seq<NativeEvent>, frames: nat)
    requires Normalised(events, frames).Some?
    ensures ConvertAll(events, frames).Some?
    ensures var out := Normalised(events, frames).value;
      && multiset(out) == multiset(ConvertAll(events, frames).value)
      && (forall i :: 0 <= i < |out| ==> NativeNotes.InBounds(out[i], NativeNotes.DurationMicroseconds(frames)))
      && (forall i, j :: 0 <= i < j < |out| ==> NativeNotes.Precedes(out[i], out[j]))
      && PairwiseApart(out)
  {
    hide ConvertAll, Sort, PairwiseApart, NativeNotes.DurationMicroseconds;
    var notes, out := ConvertAll(events, frames).value, Normalised(events, frames).value;
    NoteOrder();
    SortSorts(NoteLeq, notes);
    SameElements(notes, out);
    forall n | n in notes
      ensures NativeNotes.InBounds(n, NativeNotes.DurationMicroseconds(frames))
    {
      ConvertedNotes(events, frames, n);
    }
    PermutedApart(notes, out);
    SortedApartIsStrict(out);
  }

  lemma SortedApartIsStrict(notes: seq<Note>)
    requires SortedBy(NoteLeq, notes) && PairwiseApart(notes)
    requires forall n :: n in notes ==> n.start < n.end
    ensures forall i, j :: 0 <= i < j < |notes| ==> NativeNotes.Precedes(notes[i], notes[j])
  {
    forall i, j | 0 <= i < j < |notes| ensures NativeNotes.Precedes(notes[i], notes[j]) {
      assert NoteLeq(notes[i], notes[j]) && Apart(notes[i], notes[j]);
      assert notes[i] in notes && notes[j] in notes;
    }
  }

  /** Two sounding intervals share an instant, in exact seconds. */
  predicate OverlapExactly(a: NativeEvent, b: NativeEvent)
    requires a.Measured? && b.Measured?
  {
    Less(a.start, b.end) && Less(b.start, a.end)
  }

  /** An overlap refusal is never an artefact of rounding: some two converted events of
      one pitch overlap in exact seconds. */
  lemma RefusedOverlapIsExact(events: seq<NativeEvent>, frames: nat)
    requires |events| <= MAXIMUM_NOTES && ConvertAll(events, frames).Some?
    requires Normalised(events, frames).None?
    ensures exists i, j ::
      && 0 <= i < j < |events|
      && events[i].Measured? && events[j].Measured?
      && Convert(events[i], frames).Some? && Convert(events[j], frames).Some?
      && Convert(events[i], frames).value.pitch == Convert(events[j], frames).value.pitch
      && OverlapExactly(events[i], events[j])
  {
    hide ConvertAll, Convert;
    var notes := ConvertAll(events, frames).value;
    ConvertedOneByOne(events, frames);
    var i, j :| 0 <= i < j < |notes| && !Apart(notes[i], notes[j]);
    OverlapReflected(events[i], events[j], frames);
  }

  lemma OverlapReflected(a: NativeEvent, b: NativeEvent, frames: nat)
    requires Convert(a, frames).Some? && Convert(b, frames).Some?
    requires !Apart(Convert(a, frames).value, Convert(b, frames).value)
    ensures a.Measured? && b.Measured? && OverlapExactly(a, b)
  {
    ConvertedTimes(a, frames);
    ConvertedTimes(b, frames);
    hide Convert, Microseconds;
    if !Less(a.start, b.end) {
      MicrosecondsIsMonotone(b.end, a.start);
    }
    if !Less(b.start, a.end) {
      MicrosecondsIsMonotone(a.end, b.start);
    }
  }

  lemma ConvertedTimes(e: NativeEvent, frames: nat)
    requires Convert(e, frames).Some?
    ensures e.Measured?
    ensures Convert(e, frames).value.start == Microseconds(e.start)
    ensures Convert(e, frames).value.end == Microseconds(e.end)
  {
    hide Microseconds, RoundHalfEven, NativeNotes.DurationMicroseconds;
  }

  // -------------------------------------------------------------- the end of the source

  /** The microseconds the floor of the duration cuts off are less than a half. */
  predicate EndRoundsDown(frames: nat) {
    2 * (frames * 1_000_000 % NativeNotes.SAMPLE_RATE) < NativeNotes.SAMPLE_RATE
  }

  function SourceEnd(frames: nat): Ratio {
    RawRatio.Ratio(frames, NativeNotes.SAMPLE_RATE)
  }

  /** Rounding never leaves the source, for every time inside it, exactly when the
      source's own end rounds down. */
  lemma RoundingStaysInside(frames: nat)
    ensures EndRoundsDown(frames) <==>
      forall end: Ratio :: end.num * NativeNotes.SAMPLE_RATE <= frames * end.den ==>
        Microseconds(end) <= NativeNotes.DurationMicroseconds(frames)
  {
    var last := SourceEnd(frames);
    EndRounds(frames);
    if EndRoundsDown(frames) {
      forall end: Ratio | end.num * NativeNotes.SAMPLE_RATE <= frames * end.den
        ensures Microseconds(end) <= NativeNotes.DurationMicroseconds(frames)
      {
        MicrosecondsIsMonotone(end, last);
      }
    } else {
      assert last.num * NativeNotes.SAMPLE_RATE <= frames * last.den;
    }
  }

  lemma EndRounds(frames: nat)
    ensures EndRoundsDown(frames) <==>
      Microseconds(SourceEnd(frames)) <= NativeNotes.DurationMicroseconds(frames)
  {
    var rate := NativeNotes.SAMPLE_RATE;
    var q, r := frames * 1_000_000 / rate, frames * 1_000_000 % rate;
    assert 2 * frames * 1_000_000 + rate == 2 * rate * q + (2 * r + rate);
  }

  /** A note that ends with a two-sample source is refused: 90.7 microseconds round to 91,
      and the source has 90. */
  lemma NoteAtSourceEndRefused()
    ensures var e := Measured(RawRatio.Ratio(0, 1), SourceEnd(2), RawRatio.Ratio(60, 1), RawRatio.Ratio(1, 2), false);
      InSource(e, 2) && Convert(e, 2) == None && !EndRoundsDown(2)
  {
  }

  // ------------------------------------------------------ the validator that follows it

  /** The Rust validator accepts the adapter's notes exactly when none collapses to a
      single tick: order, bounds and disjointness are already established. */
  lemma ValidatorAfterAdapter(events: seq<NativeEvent>, frames: nat)
    requires 1 <= frames <= NativeNotes.MAXIMUM_FRAMES && Normalised(events, frames).Some?
    ensures var out := Normalised(events, frames).value;
      NativeNotes.ValidNative(out, frames, NativeNotes.DurationMicroseconds(frames)) <==>
      forall i :: 0 <= i < |out| ==> !NativeNotes.Collapses(out[i])
  {
    hide Sort, Convert, NativeNotes.Collapses, NativeNotes.DurationMicroseconds;
    NormalisedIsSortedPermutation(events, frames);
    ConvertedOneByOne(events, frames);
    SameElements(Normalised(events, frames).value, ConvertAll(events, frames).value);
  }
}
