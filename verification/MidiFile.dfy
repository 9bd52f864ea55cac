/** The bytes of a candidate MIDI file: the fixed header, tempo, program and end around
    the schedule of a note list. */
module MidiFile {
  import opened Bits
  import opened Vlq
  import opened Sorting
  import opened NotePairing
  import opened MidiMessages

  /** "MThd", length 6, type 0, one track, 960 ticks a quarter, "MTrk". */
  const FILE_HEADER: seq<byte> := [77, 84, 104, 100, 0, 0, 0, 6, 0, 0, 0, 1, 3, 192, 77, 84, 114, 107]
  const TRACK_PREFIX: seq<byte> := [0, 0xff, 0x51, 3, 0x07, 0xa1, 0x20, 0, 0xc0, 0]
  const TRACK_TRAILER: seq<byte> := [0, 0xff, 0x2f, 0]

  const TEMPO := 500_000
  const PREAMBLE: seq<Timed> := [Timed(0, Tempo(TEMPO)), Timed(0, Program(0))]
  const CLOSING: seq<Timed> := [Timed(0, EndOfTrack)]

  /** A header, the track length and the track. */
  function FileOf(track: seq<byte>): seq<byte>
    requires |track| < 0x1_0000_0000
  {
    FILE_HEADER + BigEndian(|track|) + track
  }

  /** The note list has a schedule whose gaps can be written. */
  predicate Writable(notes: seq<Note>) {
    && ValidNotes(notes)
    && FollowTicks(Schedule(notes), 0)
    && SmallGaps(Schedule(notes), 0)
  }

  function Messages(notes: seq<Note>): seq<Timed>
    requires Writable(notes)
  {
    PREAMBLE + Deltas(Schedule(notes), 0) + CLOSING
  }

  /** The track the writer emits for a note list. */
  function Track(notes: seq<Note>): seq<byte>
    requires Writable(notes)
  {
    DeltasRepresentable(Schedule(notes), 0);
    TRACK_PREFIX + TrackBytes(Deltas(Schedule(notes), 0)) + TRACK_TRAILER
  }

  lemma FixedMessages()
    ensures AllRepresentable(PREAMBLE) && TrackBytes(PREAMBLE) == TRACK_PREFIX
    ensures AllRepresentable(CLOSING) && TrackBytes(CLOSING) == TRACK_TRAILER
  {
    hide Quantity;
    SmallQuantities();
    assert TimedBytes(PREAMBLE[0]) == [0, 0xff, 0x51, 3, 0x07, 0xa1, 0x20];
    assert TimedBytes(PREAMBLE[1]) == [0, 0xc0, 0];
    assert TrackBytes(PREAMBLE[1..]) == TimedBytes(PREAMBLE[1]) + TrackBytes(PREAMBLE[1..][1..]);
    assert TrackBytes(CLOSING) == TimedBytes(CLOSING[0]) + TrackBytes(CLOSING[1..]);
  }

  /** The emitted track is the byte code of its messages. */
  lemma TrackIsMessages(notes: seq<Note>)
    requires Writable(notes)
    ensures AllRepresentable(Messages(notes)) && TrackBytes(Messages(notes)) == Track(notes)
  {
    hide TrackBytes, Representable, Schedule, Deltas;
    var deltas := Deltas(Schedule(notes), 0);
    FixedMessages();
    DeltasRepresentable(Schedule(notes), 0);
    TrackBytesJoin(PREAMBLE, deltas);
    TrackBytesJoin(PREAMBLE + deltas, CLOSING);
  }

  /** Valid notes that end within the quantity range are writable. */
  lemma BoundedNotesAreWritable(notes: seq<Note>, bound: nat)
    requires ValidNotes(notes) && bound <= VLQ_LIMIT
    requires forall n :: n in notes ==> n.end < bound
    ensures Writable(notes)
    ensures forall i :: 0 <= i < |Schedule(notes)| ==> Schedule(notes)[i].tick < bound
  {
    hide Schedule, ValidNotes;
    ScheduleIsStrict(notes);
    var events := Schedule(notes);
    forall i | 0 <= i < |events| ensures InBytes(events[i]) && events[i].tick < bound {
      assert events[i] in events;
      var n :| n in notes && (events[i] == On(n) || events[i] == Off(n));
      NotesArePlayable(notes, n);
    }
    SmallGapsBelow(events, 0, bound);
  }

  lemma NotesArePlayable(notes: seq<Note>, n: Note)
    requires ValidNotes(notes) && n in notes
    ensures Playable(n)
  {
  }

  /** At most seven bytes an event. */
  lemma {:induction false} TrackBytesLength(messages: seq<Timed>)
    requires AllRepresentable(messages)
    requires forall i :: 0 <= i < |messages| ==> messages[i].message.Sound?
    ensures |TrackBytes(messages)| <= 7 * |messages|
    decreases |messages|
  {
    hide Quantity;
    if messages != [] {
      DecodeOfQuantity(messages[0].delta, []);
      TrackBytesLength(messages[1..]);
    }
  }

  lemma {:induction false} DeltasAreSounds(events: seq<Event>, tick: nat)
    requires FollowTicks(events, tick)
    ensures forall i :: 0 <= i < |events| ==> Deltas(events, tick)[i].message.Sound?
    decreases |events|
  {
    if events != [] {
      DeltasAreSounds(events[1..], events[0].tick);
    }
  }

  lemma TrackLength(notes: seq<Note>)
    requires Writable(notes)
    ensures 14 <= |Track(notes)| <= 14 + 14 * |notes|
  {
    hide TrackBytes, Representable, Schedule, Deltas;
    ScheduleIsStrict(notes);
    var events := Schedule(notes);
    DeltasRepresentable(events, 0);
    DeltasAreSounds(events, 0);
    TrackBytesLength(Deltas(events, 0));
  }
}
