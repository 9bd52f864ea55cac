/** src/audio_midi/normalize.rs: validation of the analyzer's notes in microseconds, and
    their quantisation to MIDI ticks. Notes here have microsecond starts and ends. */
module NativeNotes {
  import opened Wrappers
  import opened NotePairing
  import opened NoteSweep
  import MidiReader

  const SAMPLE_RATE := 22_050
  const MAXIMUM_FRAMES := 2_646_000

  function DurationMicroseconds(frames: nat): nat {
    frames * 1_000_000 / SAMPLE_RATE
  }

  // -------------------------------------------------------------------------- ticks

  /** 960 ticks a quarter at 500,000 microseconds a quarter, halves rounded up. */
  function Tick(microseconds: nat): nat {
    (microseconds * 1920 + 500_000) / 1_000_000
  }

  /** `tick`: the same, refused where 64-bit or 32-bit arithmetic would overflow. */
  function CheckedTick(microseconds: nat): Option<nat> {
    if microseconds * 1920 + 500_000 >= 0x1_0000_0000_0000_0000 then None
    else if Tick(microseconds) >= 0x1_0000_0000 then None
    else Some(Tick(microseconds))
  }

  /** The tick is a nearest one: its error is at most half a tick. */
  lemma TickIsNearest(microseconds: nat)
    ensures -500_000 < Tick(microseconds) * 1_000_000 - microseconds * 1920 <= 500_000
  {
  }

  lemma TickIsMonotone(earlier: nat, later: nat)
    requires earlier <= later
    ensures Tick(earlier) <= Tick(later)
  {
  }

  /** Inside the 120-second profile no tick overflows, and none passes the reader's
      bound. */
  lemma ProfileTicks(frames: nat, microseconds: nat)
    requires frames <= MAXIMUM_FRAMES && microseconds <= DurationMicroseconds(frames)
    ensures CheckedTick(microseconds) == Some(Tick(microseconds))
    ensures Tick(microseconds) <= MidiReader.MAXIMUM_TICK
  {
    assert frames * 1_000_000 <= MAXIMUM_FRAMES * 1_000_000;
    assert DurationMicroseconds(frames) <= 120_000_000;
  }

  // --------------------------------------------------------------------- validation

  predicate InBounds(n: Note, duration: nat) {
    && n.start < n.end <= duration
    && LOWEST_PITCH <= n.pitch <= HIGHEST_PITCH
    && 1 <= n.velocity <= 127
  }

  /** Strict (start, pitch, end) order. */
  predicate Precedes(a: Note, b: Note) {
    if a.start != b.start then a.start < b.start
    else if a.pitch != b.pitch then a.pitch < b.pitch
    else a.end < b.end
  }

  predicate Collapses(n: Note) {
    Tick(n.start) >= Tick(n.end)
  }

  /** What validation accepts: bounded notes in strict order, disjoint on each pitch, none
      of which loses its length in ticks. Overlap in ticks needs no mention. */
  predicate ValidNative(notes: seq<Note>, frames: nat, duration: nat) {
    && 1 <= frames <= MAXIMUM_FRAMES
    && duration == DurationMicroseconds(frames)
    && |notes| <= MAXIMUM_NOTES
    && (forall i :: 0 <= i < |notes| ==> InBounds(notes[i], duration))
    && (forall i, j :: 0 <= i < j < |notes| ==> Precedes(notes[i], notes[j]))
    && PairwiseApart(notes)
    && (forall i :: 0 <= i < |notes| ==> !Collapses(notes[i]))
  }

  /** The same, spelled out: a note keeps its length if some instant half-way between two ticks
      lies between its start and its end. */
  lemma ValidNativeSays(notes: seq<Note>, frames: nat, duration: nat)
    ensures ValidNative(notes, frames, duration) <==>
      && 1 <= frames <= 2_646_000 && |notes| <= 8192
      && duration * 22_050 <= frames * 1_000_000 < (duration + 1) * 22_050
      && (forall i :: 0 <= i < |notes| ==>
            && notes[i].start < notes[i].end <= duration
            && 21 <= notes[i].pitch <= 108 && 1 <= notes[i].velocity <= 127
            && exists tick: nat :: Between(notes[i], tick))
      && (forall i, j :: 0 <= i < j < |notes| ==>
            && (notes[i].start < notes[j].start
                || (notes[i].start == notes[j].start
                    && (notes[i].pitch < notes[j].pitch
                        || (notes[i].pitch == notes[j].pitch && notes[i].end < notes[j].end))))
            && (notes[i].pitch == notes[j].pitch ==>
                  notes[i].end <= notes[j].start || notes[j].end <= notes[i].start))
  {
    forall i | 0 <= i < |notes| ensures !Collapses(notes[i]) <==> exists tick: nat :: Between(notes[i], tick) {
      CollapseSays(notes[i]);
    }
    hide Collapses, Between;
    DurationSays(frames, duration);
    hide DurationMicroseconds;
  }

  /** The note starts before the middle between this tick and the next, and not its end. */
  predicate Between(n: Note, tick: nat) {
    n.start * 1920 < tick * 1_000_000 + 500_000 <= n.end * 1920
  }

  lemma CollapseSays(n: Note)
    ensures !Collapses(n) <==> exists tick: nat :: Between(n, tick)
  {
    if !Collapses(n) {
      assert Between(n, Tick(n.start));
    }
    if tick: nat :| Between(n, tick) {
      assert Tick(n.start) <= tick < Tick(n.end);
    }
  }

  lemma DurationSays(frames: nat, duration: nat)
    ensures duration == DurationMicroseconds(frames) <==>
      duration * 22_050 <= frames * 1_000_000 < (duration + 1) * 22_050
  {
  }

  /** A table of last ends, read as a function of the pitch. */
  function Lookup(ends: seq<nat>): nat -> nat {
    (pitch: nat) => if pitch < |ends| then ends[pitch] else 0
  }

  /** The first `k` notes pass every check of the sweep. */
  predicate Passed(notes: seq<Note>, k: nat, duration: nat)
    requires k <= |notes|
  {
    && (forall i :: 0 <= i < k ==> InBounds(notes[i], duration) && !Collapses(notes[i]))
    && (forall i, j :: 0 <= i < j < k ==> Precedes(notes[i], notes[j]) && Apart(notes[i], notes[j]))
  }

  /** The checks on one note decide whether one more note passes. */
  lemma PassedOneMore(ends: seq<nat>, notes: seq<Note>, k: nat, duration: nat)
    requires k < |notes| && Passed(notes, k, duration) && |ends| == 128 && LastEnds(Lookup(ends), notes, k)
    ensures Passed(notes, k + 1, duration) <==>
      && InBounds(notes[k], duration)
      && (k > 0 ==> Precedes(notes[k - 1], notes[k]))
      && notes[k].start >= ends[notes[k].pitch]
      && !Collapses(notes[k])
  {
    hide Collapses;
    if InBounds(notes[k], duration) && (k > 0 ==> Precedes(notes[k - 1], notes[k])) {
      forall i | 0 <= i < k ensures Precedes(notes[i], notes[k]) {
        if i < k - 1 {
          assert Precedes(notes[i], notes[k - 1]);
        }
      }
      LastEndDecides(Lookup(ends), notes, k);
    }
    if Passed(notes, k + 1, duration) {
      assert InBounds(notes[k], duration);
    }
  }

  lemma ValidPasses(notes: seq<Note>, k: nat, frames: nat, duration: nat)
    requires k <= |notes|
    ensures ValidNative(notes, frames, duration) ==> Passed(notes, k, duration)
  {
    hide Collapses, InBounds;
  }

  lemma PassedIsValid(notes: seq<Note>, frames: nat, duration: nat)
    requires 1 <= frames <= MAXIMUM_FRAMES && duration == DurationMicroseconds(frames) && |notes| <= MAXIMUM_NOTES
    requires Passed(notes, |notes|, duration)
    ensures ValidNative(notes, frames, duration)
  {
    hide Collapses, InBounds;
  }

  /** `AudioMidiNativeObservation::validate`, without schema, clock and activation
      fields: one sweep with a table of last ends in microseconds and one in ticks. */
  method Validate(notes: seq<Note>, frames: nat, duration: nat) returns (ok: bool)
    ensures ok <==> ValidNative(notes, frames, duration)
  {
    if !(1 <= frames <= MAXIMUM_FRAMES) || duration != DurationMicroseconds(frames) || |notes| > MAXIMUM_NOTES {
      return false;
    }
    var pitchEnds: seq<nat> := seq(128, _ => 0);
    var tickEnds: seq<nat> := seq(128, _ => 0);
    hide Tick, ValidNative, Passed, LastEnds, CheckedTick;
    NothingPassed(notes, duration);
    for k := 0 to |notes|
      invariant |pitchEnds| == |tickEnds| == 128
      invariant LastEnds(Lookup(pitchEnds), notes, k) && Passed(notes, k, duration)
      invariant forall p :: 0 <= p < 128 ==> tickEnds[p] <= Tick(pitchEnds[p])
    {
      var note := notes[k];
      PassedOneMore(pitchEnds, notes, k, duration);
      ValidPasses(notes, k + 1, frames, duration);
      if note.start >= note.end || note.end > duration || !(21 <= note.pitch <= 108) || !(1 <= note.velocity <= 127) {
        return false;
      }
      if k > 0 && !Precedes(notes[k - 1], note) {
        return false;
      }
      if note.start < pitchEnds[note.pitch] {
        return false;
      }
      LastEndsGrow(Lookup(pitchEnds), Lookup(pitchEnds[note.pitch := note.end]), notes, k);
      TickIsMonotone(pitchEnds[note.pitch], note.start);
      ProfileTicks(frames, note.start);
      ProfileTicks(frames, note.end);
      pitchEnds := pitchEnds[note.pitch := note.end];
      var startTick, endTick := CheckedTick(note.start), CheckedTick(note.end);
      if startTick.None? || endTick.None? {
        return false;
      }
      if startTick.value >= endTick.value || startTick.value < tickEnds[note.pitch] {
        return false;
      }
      tickEnds := tickEnds[note.pitch := endTick.value];
    }
    PassedIsValid(notes, frames, duration);
    return true;
  }

  lemma NothingPassed(notes: seq<Note>, duration: nat)
    ensures Passed(notes, 0, duration)
    ensures LastEnds(Lookup(seq(128, _ => 0)), notes, 0)
  {
    LastEndsStart(Lookup(seq(128, _ => 0)), notes);
  }

  // -------------------------------------------------------------------- quantisation

  function Quantised(n: Note): Note {
    n.(start := Tick(n.start), end := Tick(n.end))
  }

  /** `from_native`: the notes of the observation, in ticks. */
  function FromNative(notes: seq<Note>): seq<Note> {
    seq(|notes|, i requires 0 <= i < |notes| => Quantised(notes[i]))
  }

  /** Notes apart in microseconds stay apart in ticks: the tick overlap check of the
      sweep never decides anything. */
  lemma QuantisedApart(m: Note, n: Note)
    requires Apart(m, n)
    ensures Apart(Quantised(m), Quantised(n))
  {
    hide Tick;
    if m.pitch == n.pitch {
      if m.end <= n.start {
        TickIsMonotone(m.end, n.start);
      } else {
        TickIsMonotone(n.end, m.start);
      }
    }
  }

  /** A valid observation quantises to notes the MIDI profile can carry. */
  lemma QuantisedInProfile(notes: seq<Note>, frames: nat, duration: nat)
    requires ValidNative(notes, frames, duration)
    ensures MidiReader.InProfile(FromNative(notes))
  {
    hide Tick;
    var ticks := FromNative(notes);
    forall i | 0 <= i < |ticks| ensures Playable(ticks[i]) && ticks[i].end <= MidiReader.MAXIMUM_TICK {
      assert InBounds(notes[i], duration) && !Collapses(notes[i]);
      ProfileTicks(frames, notes[i].end);
    }
    forall i, j | 0 <= i < j < |ticks| ensures Apart(ticks[i], ticks[j]) {
      QuantisedApart(notes[i], notes[j]);
    }
  }
}
