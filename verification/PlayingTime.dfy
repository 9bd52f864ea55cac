/** When the notes of a written MIDI file sound, src/audio_midi/midi.rs: read with the division
    and the tempo that the file itself declares, every event is within half a tick of the
    microseconds it was written for. */
module PlayingTime {
  import opened Bits
  import opened Vlq
  import opened Sorting
  import opened NotePairing
  import opened MidiMessages
  import opened MidiFile
  import MidiReader
  import NativeNotes

  /** At `division` ticks a quarter and `tempo` microseconds a quarter, the tick is at most half
      a tick from the time, and the later one on a tie. */
  predicate InTime(tick: nat, microseconds: nat, division: nat, tempo: nat) {
    0 - tempo < 2 * (tick * tempo - microseconds * division) <= tempo
  }

  /** The event begins or ends the note in time. */
  predicate Sounds(e: Event, n: Note, division: nat, tempo: nat) {
    && e.pitch == n.pitch
    && if e.on then e.velocity == n.velocity && InTime(e.tick, n.start, division, tempo)
       else e.velocity == 0 && InTime(e.tick, n.end, division, tempo)
  }

  /** The events begin and end every note in time, and do nothing else. */
  ghost predicate Heard(notes: seq<Note>, events: seq<Event>, division: nat, tempo: nat) {
    && |events| == 2 * |notes|
    && (forall n :: n in notes ==>
          && (exists e :: e in events && e.on && Sounds(e, n, division, tempo))
          && (exists e :: e in events && !e.on && Sounds(e, n, division, tempo)))
    && (forall e :: e in events ==> exists n :: n in notes && Sounds(e, n, division, tempo))
  }

  /** The file is a header for one track, and the track's messages begin with its only tempo,
      play every note at its time, and play nothing else. */
  ghost predicate PlayedBy(notes: seq<Note>, file: seq<byte>, messages: seq<Timed>) {
    && |file| >= 22 && file[..12] == [77, 84, 104, 100, 0, 0, 0, 6, 0, 0, 0, 1]
    && file[14..18] == [77, 84, 114, 107] && Word(file[18..22]) == |file| - 22
    && AllRepresentable(messages) && file[22..] == TrackBytes(messages)
    && messages != [] && messages[0].delta == 0 && messages[0].message.Tempo?
    && (forall i :: 0 < i < |messages| ==> !messages[i].message.Tempo?)
    && messages[|messages| - 1].message.EndOfTrack?
    && var division: nat, tempo := 256 * (file[12] as int) + file[13] as int, messages[0].message.microseconds;
       Heard(notes, NoteEvents(messages, 0), division, tempo)
  }

  lemma {:induction false} NoteEventsOfDeltas(events: seq<Event>, tick: nat, rest: seq<Timed>)
    requires FollowTicks(events, tick) && forall i :: 0 <= i < |rest| ==> rest[i].message.EndOfTrack?
    ensures NoteEvents(Deltas(events, tick) + rest, tick) == events
    decreases |events|
  {
    if events == [] {
      assert Deltas(events, tick) + rest == rest;
      NoSounds(rest, tick);
    } else {
      var e := events[0];
      var whole := Deltas(events, tick) + rest;
      assert whole[1..] == Deltas(events[1..], e.tick) + rest;
      NoteEventsOfDeltas(events[1..], e.tick, rest);
    }
  }

  lemma {:induction false} NoSounds(rest: seq<Timed>, tick: nat)
    requires forall i :: 0 <= i < |rest| ==> rest[i].message.EndOfTrack?
    ensures NoteEvents(rest, tick) == []
    decreases |rest|
  {
    if rest != [] {
      NoSounds(rest[1..], tick + rest[0].delta);
    }
  }

  lemma EventsOfMessages(notes: seq<Note>)
    requires Writable(notes)
    ensures NoteEvents(Messages(notes), 0) == Schedule(notes)
  {
    hide Schedule, Deltas, SmallGaps, FollowTicks;
    var deltas := Deltas(Schedule(notes), 0);
    var messages := Messages(notes);
    assert messages[1..] == [PREAMBLE[1]] + (deltas + CLOSING) && messages[1..][1..] == deltas + CLOSING;
    NoteEventsOfDeltas(Schedule(notes), 0, CLOSING);
  }

  lemma TempoIsFirst(notes: seq<Note>)
    requires Writable(notes)
    ensures var messages := Messages(notes);
      && messages != [] && messages[0] == Timed(0, Tempo(500_000)) && messages[|messages| - 1] == Timed(0, EndOfTrack)
      && forall i :: 0 < i < |messages| ==> !messages[i].message.Tempo?
  {
    hide Schedule;
    DeltasAreSounds(Schedule(notes), 0);
  }

  lemma TickInTime(microseconds: nat)
    ensures InTime(NativeNotes.Tick(microseconds), microseconds, 960, 500_000)
  {
    NativeNotes.TickIsNearest(microseconds);
    hide NativeNotes.Tick;
  }

  lemma NoteSounds(n: Note)
    ensures Sounds(On(NativeNotes.Quantised(n)), n, 960, 500_000)
    ensures Sounds(Off(NativeNotes.Quantised(n)), n, 960, 500_000)
  {
    TickInTime(n.start);
    TickInTime(n.end);
    hide NativeNotes.Tick, InTime;
  }

  lemma EventsSound(native: seq<Note>, e: Event)
    requires ValidNotes(NativeNotes.FromNative(native)) && e in Schedule(NativeNotes.FromNative(native))
    ensures exists n :: n in native && Sounds(e, n, 960, 500_000)
  {
    var notes := NativeNotes.FromNative(native);
    ScheduleIsStrict(notes);
    hide Schedule, ValidNotes, Sounds, NativeNotes.Quantised;
    var m :| m in notes && (e == On(m) || e == Off(m));
    var i :| 0 <= i < |notes| && notes[i] == m;
    NoteSounds(native[i]);
    assert native[i] in native;
  }

  lemma NotesAreHeard(native: seq<Note>, n: Note)
    requires ValidNotes(NativeNotes.FromNative(native)) && n in native
    ensures var events := Schedule(NativeNotes.FromNative(native));
      && (exists e :: e in events && e.on && Sounds(e, n, 960, 500_000))
      && (exists e :: e in events && !e.on && Sounds(e, n, 960, 500_000))
  {
    var notes := NativeNotes.FromNative(native);
    var events := Schedule(notes);
    ScheduleIsStrict(notes);
    hide Schedule, ValidNotes, Sounds;
    var i :| 0 <= i < |native| && native[i] == n;
    NoteSounds(n);
    var m := NativeNotes.Quantised(n);
    assert notes[i] == m && m in notes;
    assert On(m) in events && On(m).on && Off(m) in events && !Off(m).on;
  }

  lemma NotesSound(native: seq<Note>)
    requires ValidNotes(NativeNotes.FromNative(native))
    ensures Heard(native, Schedule(NativeNotes.FromNative(native)), 960, 500_000)
  {
    hide Schedule, ValidNotes, Sounds;
    var events := Schedule(NativeNotes.FromNative(native));
    ScheduleIsStrict(NativeNotes.FromNative(native));
    forall e | e in events ensures exists n :: n in native && Sounds(e, n, 960, 500_000) {
      EventsSound(native, e);
    }
    forall n | n in native
      ensures exists e :: e in events && e.on && Sounds(e, n, 960, 500_000)
      ensures exists e :: e in events && !e.on && Sounds(e, n, 960, 500_000)
    {
      NotesAreHeard(native, n);
    }
  }

  lemma FileShape(track: seq<byte>, file: seq<byte>)
    requires |track| < 0x1_0000_0000 && file == FileOf(track)
    ensures |file| >= 22 && file[..12] == [77, 84, 104, 100, 0, 0, 0, 6, 0, 0, 0, 1]
    ensures file[12] == 3 && file[13] == 192 && file[14..18] == [77, 84, 114, 107]
    ensures Word(file[18..22]) == |file| - 22 && file[22..] == track
  {
    hide BigEndian, Word;
    WordOfBigEndian(|track|);
    assert file[18..22] == BigEndian(|track|);
  }

  /** Every valid observation's file plays its notes in time, by its own division and tempo. */
  lemma WrittenNotesPlayInTime(native: seq<Note>, frames: nat, duration: nat)
    requires NativeNotes.ValidNative(native, frames, duration)
    ensures MidiReader.InProfile(NativeNotes.FromNative(native))
    ensures exists messages :: PlayedBy(native, MidiReader.FileFor(NativeNotes.FromNative(native)), messages)
  {
    NativeNotes.QuantisedInProfile(native, frames, duration);
    var notes := NativeNotes.FromNative(native);
    assert ValidNotes(notes);
    hide Schedule, NativeNotes.FromNative, NativeNotes.ValidNative, ValidNotes, Messages, Track, Writable, NoteEvents;
    hide Heard, FileOf;
    MidiReader.ReadsWhatIsWritten(notes);
    TrackIsMessages(notes);
    EventsOfMessages(notes);
    TempoIsFirst(notes);
    NotesSound(native);
    TrackLength(notes);
    var file := MidiReader.FileFor(notes);
    FileShape(Track(notes), file);
    assert PlayedBy(native, file, Messages(notes));
  }

  // ---------------------------------------------------------------------- a whole file

  /** A quarter of middle C, at velocity 64. */
  const QUARTER := [Note(0, 960, 60, 64)]

  lemma QuarterSchedule()
    ensures Schedule(QUARTER) == [Event(0, true, 60, 64), Event(960, false, 60, 0)]
  {
    var events := [Event(0, true, 60, 64), Event(960, false, 60, 0)];
    assert Events(QUARTER) == events;
    assert ValidNotes(QUARTER);
    EventOrder();
    EventKeysDiffer(QUARTER);
    SortSorts(EventLeq, events);
    hide Sort, Events;
    assert SortedBy(EventLeq, events);
    SortedIsUnique(EventLeq, events, Sort(EventLeq, events));
  }

  lemma QuarterTrack()
    requires Writable(QUARTER)
    ensures Track(QUARTER) == [0, 0xff, 0x51, 3, 0x07, 0xa1, 0x20, 0, 0xc0, 0, 0, 0x90, 60, 64, 0x87, 0x40, 0x80, 60, 0,
      0, 0xff, 0x2f, 0]
  {
    QuarterSchedule();
    hide Schedule, Quantity;
    QuantityShape(0);
    QuantityShape(960);
    var events := Schedule(QUARTER);
    var deltas := Deltas(events, 0);
    assert deltas == [Timed(0, Sound(true, 60, 64)), Timed(960, Sound(false, 60, 0))];
    DeltasRepresentable(events, 0);
    var last := [Timed(960, Sound(false, 60, 0))];
    assert deltas[1..] == last && last[1..] == [];
    assert TrackBytes(last) == [0x87, 0x40, 0x80, 60, 0] + TrackBytes(last[1..]);
    assert TrackBytes(deltas) == [0, 0x90, 60, 64] + TrackBytes(last);
  }

  lemma QuarterFits()
    ensures MidiReader.InProfile(QUARTER) && Writable(QUARTER) && |Track(QUARTER)| < 0x1_0000_0000
  {
    assert MidiReader.InProfile(QUARTER);
    hide MidiReader.InProfile, Track, Writable, MidiReader.ReadFile, MidiReader.SortNotes, FileOf;
    MidiReader.ReadsWhatIsWritten(QUARTER);
  }

  /** Its file, byte for byte. */
  lemma QuarterFile()
    ensures MidiReader.InProfile(QUARTER)
    ensures MidiReader.FileFor(QUARTER) ==
      [77, 84, 104, 100, 0, 0, 0, 6, 0, 0, 0, 1, 3, 192, 77, 84, 114, 107, 0, 0, 0, 23]
      + [0, 0xff, 0x51, 3, 0x07, 0xa1, 0x20, 0, 0xc0, 0, 0, 0x90, 60, 64, 0x87, 0x40, 0x80, 60, 0, 0, 0xff, 0x2f, 0]
  {
    QuarterFits();
    assert BigEndian(23) == [0, 0, 0, 23];
    hide MidiReader.InProfile, BigEndian, Track, Writable, MidiReader.ReadFile, MidiReader.SortNotes;
    QuarterTrack();
    assert MidiReader.FileFor(QUARTER) == FileOf(Track(QUARTER));
  }
}
