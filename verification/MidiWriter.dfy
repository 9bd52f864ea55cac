/** `encode_midi` of src/audio_midi/midi.rs: the writer, with its own read-back check. */
module MidiWriter {
  import opened Wrappers
  import opened Bits
  import opened Vlq
  import opened Sorting
  import opened NotePairing
  import opened MidiMessages
  import opened MidiFile
  import MidiReader
  import NativeNotes

  datatype WriteError = InvalidObservation | TooLarge | ReadBackDiffers

  /** The two events of every note, in the order the writer pushes them. */
  method PushEvents(notes: seq<Note>) returns (events: seq<Event>)
    ensures events == Events(notes)
  {
    events := [];
    for i := 0 to |notes|
      invariant |events| == 2 * i && events == Events(notes)[..2 * i]
    {
      var note := notes[i];
      events := events + [Event(note.start, true, note.pitch, note.velocity)];
      events := events + [Event(note.end, false, note.pitch, 0)];
    }
  }

  lemma {:induction false} TrackBytesOneMore(messages: seq<Timed>, t: Timed)
    requires AllRepresentable(messages + [t])
    ensures AllRepresentable(messages) && Representable(t)
    ensures TrackBytes(messages + [t]) == TrackBytes(messages) + TimedBytes(t)
  {
    hide TimedBytes, Representable;
    assert (messages + [t])[|messages|] == t;
    assert forall i :: 0 <= i < |messages| ==> (messages + [t])[i] == messages[i];
    TrackBytesJoin(messages, [t]);
    assert [t][1..] == [];
    assert TrackBytes([t]) == TimedBytes(t) + TrackBytes([t][1..]);
  }

  lemma {:induction false} DeltaAt(events: seq<Event>, tick: nat, i: nat)
    requires FollowTicks(events, tick) && i < |events|
    ensures (if i == 0 then tick else events[i - 1].tick) <= events[i].tick
    ensures Deltas(events, tick)[i] ==
      Timed(events[i].tick - (if i == 0 then tick else events[i - 1].tick),
            Sound(events[i].on, events[i].pitch, events[i].velocity))
    decreases i
  {
    if i > 0 {
      DeltaAt(events[1..], events[0].tick, i - 1);
    }
  }

  /** The loop that writes each event as a delta, a status and two bytes. */
  method WriteEvents(events: seq<Event>, prefix: seq<byte>) returns (track: seq<byte>)
    requires FollowTicks(events, 0) && AllRepresentable(Deltas(events, 0))
    ensures track == prefix + TrackBytes(Deltas(events, 0))
  {
    hide Quantity, Deltas, TrackBytes;
    ghost var deltas := Deltas(events, 0);
    track := prefix;
    var previous := 0;
    EmptyTrack();
    for i := 0 to |events|
      invariant previous == if i == 0 then 0 else events[i - 1].tick
      invariant AllRepresentable(deltas[..i]) && track == prefix + TrackBytes(deltas[..i])
    {
      var e := events[i];
      DeltaAt(events, 0, i);
      assert deltas[..i + 1] == deltas[..i] + [deltas[i]];
      TrackBytesOneMore(deltas[..i], deltas[i]);
      track := WriteVlq(e.tick - previous, track);
      assert InBytes(e);
      var status: byte, pitch: byte, velocity: byte := if e.on then 0x90 else 0x80, e.pitch, e.velocity;
      track := track + [status, pitch, velocity];
      previous := e.tick;
    }
    assert deltas[..|events|] == deltas;
  }

  lemma EmptyTrack()
    ensures TrackBytes([]) == []
  {
  }

  /** `encode_midi`. Neither the size bound nor the read-back check ever refuses: the
      writer succeeds on exactly the valid observations, with their one file. */
  method EncodeMidi(native: seq<Note>, frames: nat, duration: nat) returns (r: Result<seq<byte>, WriteError>)
    ensures r.Success? <==> NativeNotes.ValidNative(native, frames, duration)
    ensures r.Failure? ==> r.error == InvalidObservation
    ensures r.Success? ==>
      && MidiReader.InProfile(NativeNotes.FromNative(native))
      && r.value == MidiReader.FileFor(NativeNotes.FromNative(native))
  {
    hide NativeNotes.ValidNative, NativeNotes.FromNative, MidiReader.InProfile, MidiReader.ReadFile, Sort, BigEndian;
    hide Deltas, TrackBytes, FollowTicks, SmallGaps, ValidNotes, Events;
    var valid := NativeNotes.Validate(native, frames, duration);
    if !valid {
      return Failure(InvalidObservation);
    }
    var notes := NativeNotes.FromNative(native);
    NativeNotes.QuantisedInProfile(native, frames, duration);
    MidiReader.ReadsWhatIsWritten(notes);
    DeltasRepresentable(Schedule(notes), 0);
    var events := PushEvents(notes);
    events := Sort(EventLeq, events);
    var track := WriteEvents(events, TRACK_PREFIX);
    track := track + TRACK_TRAILER;
    var bytes := FILE_HEADER + BigEndian(|track|) + track;
    if |bytes| > MidiReader.MIDI_MAXIMUM_BYTES {
      return Failure(TooLarge);
    }
    var readback := MidiReader.ReadMidi(bytes);
    var expected := MidiReader.SortNotes(notes);
    if readback != Some(expected) {
      return Failure(ReadBackDiffers);
    }
    return Success(bytes);
  }
}
