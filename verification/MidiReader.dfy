/** `read_midi` of src/audio_midi/midi.rs: the strict reader, proved to accept exactly
    the files the writer emits and to give back their notes. */
module MidiReader {
  import opened Wrappers
  import opened Bits
  import opened Vlq
  import opened Sorting
  import opened NotePairing
  import opened MidiMessages
  import opened MidiFile

  const MIDI_MAXIMUM_BYTES := 256 * 1024
  const MAXIMUM_TICK := 230_400

  function SortNotes(notes: seq<Note>): seq<Note> {
    Sort(NoteLeq, notes)
  }

  // --------------------------------------------------------------- specification

  /** The event loop, over the bytes not yet read. */
  function ReadEvents(rest: seq<byte>, tick: nat, previous: Option<Event>, p: Pairing, count: nat): Option<seq<Note>>
    decreases |rest|
  {
    if NextTimed(rest).None? then None
    else
      NextTimedAdvances(rest);
      var Read(t, size) := NextTimed(rest).value;
      var now := tick + t.delta;
      if now > MAXIMUM_TICK then None
      else
        match t.message
        case EndOfTrack =>
          if t.delta == 0 && size == |rest| && p.active == map[] then Some(SortNotes(p.notes)) else None
        case Sound(on, pitch, velocity) =>
          var e := Event(now, on, pitch, velocity);
          var next := Play(p, e);
          if next.None? || (previous.Some? && !Before(previous.value, e)) || count + 1 > 2 * MAXIMUM_NOTES then None
          else ReadEvents(rest[size..], now, Some(e), next.value, count + 1)
        case _ => None
  }

  function ReadTrack(track: seq<byte>): Option<seq<Note>> {
    if |track| < 10 || track[..10] != TRACK_PREFIX then None
    else ReadEvents(track[10..], 0, None, SILENCE, 0)
  }

  function ReadFile(bytes: seq<byte>): Option<seq<Note>> {
    if |bytes| < 36 || |bytes| > MIDI_MAXIMUM_BYTES || bytes[..18] != FILE_HEADER then None
    else if Word(bytes[18..22]) != |bytes| - 22 then None
    else ReadTrack(bytes[22..])
  }

  /** The notes the closed profile can carry. */
  predicate InProfile(notes: seq<Note>) {
    && ValidNotes(notes)
    && |notes| <= MAXIMUM_NOTES
    && forall n :: n in notes ==> n.end <= MAXIMUM_TICK
  }

  // ----------------------------------------------------------- reading what is written

  predicate FollowsPrevious(previous: Option<Event>, events: seq<Event>) {
    && StrictlyOrdered(events)
    && (previous.Some? && events != [] ==> Before(previous.value, events[0]))
  }

  /** One turn of the loop over an admitted note event. */
  lemma ReadSound(rest: seq<byte>, e: Event, tick: nat, previous: Option<Event>, p: Pairing, count: nat)
    requires InBytes(e) && tick <= e.tick <= MAXIMUM_TICK && count < 2 * MAXIMUM_NOTES
    requires NextTimed(rest).Some?
    requires NextTimed(rest).value.value == Timed(e.tick - tick, Sound(e.on, e.pitch, e.velocity))
    requires NextTimed(rest).value.size <= |rest|
    requires Play(p, e).Some? && (previous.Some? ==> Before(previous.value, e))
    ensures ReadEvents(rest, tick, previous, p, count)
      == ReadEvents(rest[NextTimed(rest).value.size..], e.tick, Some(e), Play(p, e).value, count + 1)
  {
    hide NextTimed, Play, SortNotes;
  }

  /** The last turn of the loop, over the trailer. */
  lemma ReadTrailer(tick: nat, previous: Option<Event>, p: Pairing, count: nat)
    requires tick <= MAXIMUM_TICK && p.active == map[]
    ensures ReadEvents(TRACK_TRAILER, tick, previous, p, count) == Some(SortNotes(p.notes))
  {
    hide NextTimed, TimedBytes, SortNotes;
    FixedMessages();
    assert TRACK_TRAILER == TrackBytes(CLOSING) + [];
    NextOfTrack(CLOSING, []);
    assert TrackBytes(CLOSING) == TimedBytes(CLOSING[0]) + TrackBytes(CLOSING[1..]);
  }

  /** The loop reads back any strictly ordered events that play to silence. */
  lemma {:induction false} ReadEventsOfDeltas(
    events: seq<Event>, tick: nat, previous: Option<Event>, p: Pairing, count: nat)
    requires FollowTicks(events, tick) && FollowsPrevious(previous, events)
    requires tick <= MAXIMUM_TICK && forall i :: 0 <= i < |events| ==> events[i].tick <= MAXIMUM_TICK
    requires count + |events| <= 2 * MAXIMUM_NOTES
    requires PlayAll(p, events).Some? && PlayAll(p, events).value.active == map[]
    requires AllRepresentable(Deltas(events, tick))
    ensures ReadEvents(TrackBytes(Deltas(events, tick)) + TRACK_TRAILER, tick, previous, p, count)
      == Some(SortNotes(PlayAll(p, events).value.notes))
    decreases |events|
  {
    hide NextTimed, TimedBytes, Play, SortNotes, Representable, ReadEvents, Before;
    var messages := Deltas(events, tick);
    if events == [] {
      assert TrackBytes(messages) + TRACK_TRAILER == TRACK_TRAILER;
      ReadTrailer(tick, previous, p, count);
    } else {
      var e := events[0];
      NextOfTrack(messages, TRACK_TRAILER);
      ReadSound(TrackBytes(messages) + TRACK_TRAILER, e, tick, previous, p, count);
      assert messages[1..] == Deltas(events[1..], e.tick);
      ReadEventsOfDeltas(events[1..], e.tick, Some(e), Play(p, e).value, count + 1);
    }
  }

  /** Every profile note list is read back, sorted, from the file the writer emits. */
  lemma ReadsWhatIsWritten(notes: seq<Note>)
    requires InProfile(notes)
    ensures Writable(notes) && |Track(notes)| < 0x1_0000_0000 && |FileOf(Track(notes))| <= MIDI_MAXIMUM_BYTES
    ensures ReadFile(FileOf(Track(notes))) == Some(SortNotes(notes))
  {
    hide Schedule, PlayAll, ValidNotes, ReadEvents, Deltas, TrackBytes, Representable, Word, BigEndian, SortNotes;
    BoundedNotesAreWritable(notes, MAXIMUM_TICK + 1);
    TrackLength(notes);
    var track := Track(notes);
    var file := FileOf(track);
    assert file[..18] == FILE_HEADER && file[18..22] == BigEndian(|track|) && file[22..] == track;
    WordOfBigEndian(|track|);
    var events := Schedule(notes);
    ScheduleIsStrict(notes);
    SchedulePlays(notes);
    DeltasRepresentable(events, 0);
    assert track[..10] == TRACK_PREFIX;
    assert track[10..] == TrackBytes(Deltas(events, 0)) + TRACK_TRAILER;
    ReadEventsOfDeltas(events, 0, None, SILENCE, 0);
    SortsAlike(PlayAll(SILENCE, events).value.notes, notes);
  }

  lemma SortsAlike(left: seq<Note>, right: seq<Note>)
    requires ValidNotes(right) && multiset(left) == multiset(right)
    ensures SortNotes(left) == SortNotes(right)
  {
    hide Sort;
    NoteOrder();
    ValidNotesHaveNoTies(right);
    SortForgetsOrder(NoteLeq, right, left);
  }

  lemma ValidNotesHaveNoTies(notes: seq<Note>)
    requires ValidNotes(notes)
    ensures NoTies(NoteLeq, notes)
  {
    forall m, n | m in notes && n in notes && NoteLeq(m, n) && NoteLeq(n, m) ensures m == n {
      if m != n {
        DistinctNotesApart(notes, m, n);
        NotesArePlayable(notes, m);
      }
    }
  }

  // ------------------------------------------------------- only what is written is read

  /** Bytes the loop accepts are the deltas of strictly ordered events that play to
      silence, and the trailer. */
  lemma {:induction false} ReadEventsFindsEvents(
    rest: seq<byte>, tick: nat, previous: Option<Event>, p: Pairing, count: nat) returns (events: seq<Event>)
    requires ReadEvents(rest, tick, previous, p, count).Some?
    ensures FollowTicks(events, tick) && FollowsPrevious(previous, events)
    ensures forall i :: 0 <= i < |events| ==> events[i].tick <= MAXIMUM_TICK
    ensures events != [] ==> count + |events| <= 2 * MAXIMUM_NOTES
    ensures PlayAll(p, events).Some? && PlayAll(p, events).value.active == map[]
    ensures ReadEvents(rest, tick, previous, p, count) == Some(SortNotes(PlayAll(p, events).value.notes))
    ensures AllRepresentable(Deltas(events, tick)) && rest == TrackBytes(Deltas(events, tick)) + TRACK_TRAILER
    decreases |rest|
  {
    hide NextTimed, TimedBytes, Play, SortNotes, Representable;
    NextTimedAdvances(rest);
    var Read(t, size) := NextTimed(rest).value;
    if t.message.EndOfTrack? {
      events := [];
      FixedMessages();
      assert t == CLOSING[0];
      assert TrackBytes(CLOSING) == TimedBytes(CLOSING[0]) + TrackBytes(CLOSING[1..]);
      assert rest[size..] == [];
    } else {
      var e := Event(tick + t.delta, t.message.on, t.message.pitch, t.message.velocity);
      var tail := ReadEventsFindsEvents(rest[size..], e.tick, Some(e), Play(p, e).value, count + 1);
      events := [e] + tail;
      assert events[1..] == tail;
      FollowOneMore(e, tail, tick);
      StrictOneMore(e, tail);
      assert Deltas(events, tick) == [t] + Deltas(tail, e.tick);
      assert Deltas(events, tick)[1..] == Deltas(tail, e.tick);
    }
  }

  lemma StrictOneMore(e: Event, tail: seq<Event>)
    requires FollowsPrevious(Some(e), tail)
    ensures StrictlyOrdered([e] + tail)
  {
    var events := [e] + tail;
    forall i, j | 0 <= i < j < |events| ensures Before(events[i], events[j]) {
      assert events[j] == tail[j - 1];
      if i > 0 {
        assert events[i] == tail[i - 1];
      } else if j > 1 {
        assert Before(tail[0], tail[j - 1]);
      }
    }
  }

  lemma ReadFileFindsNotes(bytes: seq<byte>) returns (notes: seq<Note>)
    requires ReadFile(bytes).Some?
    ensures InProfile(notes) && Writable(notes) && |Track(notes)| < 0x1_0000_0000
    ensures bytes == FileOf(Track(notes)) && ReadFile(bytes) == Some(SortNotes(notes))
  {
    hide Schedule, PlayAll, ValidNotes, ReadEvents, Deltas, TrackBytes, Representable, Word, BigEndian, SortNotes;
    var track := bytes[22..];
    var events := ReadEventsFindsEvents(track[10..], 0, None, SILENCE, 0);
    notes := PlayAll(SILENCE, events).value.notes;
    PlayedEventsAreSchedule(events);
    PlayedNotesAreValid(events);
    forall n | n in notes ensures n.end <= MAXIMUM_TICK {
      EventsAreExplained(events, Off(n));
    }
    BoundedNotesAreWritable(notes, MAXIMUM_TICK + 1);
    BigEndianOfWord(bytes[18..22]);
    assert track == track[..10] + track[10..] == Track(notes);
    assert bytes == bytes[..18] + bytes[18..22] + track;
  }

  /** The one file of a profile note list. */
  function FileFor(notes: seq<Note>): seq<byte>
    requires InProfile(notes)
  {
    ReadsWhatIsWritten(notes);
    FileOf(Track(notes))
  }

  /** The reader accepts exactly the writer's files: a byte string reads as `notes` if
      and only if `notes` is a sorted profile note list and the bytes are its file. */
  lemma ReaderInvertsWriter(bytes: seq<byte>, notes: seq<Note>)
    ensures ReadFile(bytes) == Some(notes) <==>
      InProfile(notes) && notes == SortNotes(notes) && bytes == FileFor(notes)
  {
    hide ReadFile, FileOf, Track, InProfile, Writable, SortNotes;
    if ReadFile(bytes) == Some(notes) {
      var found := ReadFileFindsNotes(bytes);
      SortedProfile(found);
    }
    if InProfile(notes) && notes == SortNotes(notes) {
      ReadsWhatIsWritten(notes);
    }
  }

  /** Two profile note lists share a file exactly when they hold the same notes. */
  lemma FilesSeparateNotes(left: seq<Note>, right: seq<Note>)
    requires InProfile(left) && InProfile(right)
    ensures FileFor(left) == FileFor(right) <==> multiset(left) == multiset(right)
  {
    hide ReadFile, FileOf, Track, Writable, Sort;
    ReadsWhatIsWritten(left);
    ReadsWhatIsWritten(right);
    NoteOrder();
    SortSorts(NoteLeq, left);
    SortSorts(NoteLeq, right);
    if multiset(left) == multiset(right) {
      SortsAlike(left, right);
      SortedProfile(left);
      SortedProfile(right);
    }
  }

  /** Sorting a profile note list changes neither its profile nor its file. */
  lemma SortedProfile(notes: seq<Note>)
    requires InProfile(notes)
    ensures InProfile(SortNotes(notes)) && SortNotes(SortNotes(notes)) == SortNotes(notes)
    ensures Writable(notes) && Writable(SortNotes(notes)) && Track(SortNotes(notes)) == Track(notes)
  {
    hide Sort, Schedule;
    NoteOrder();
    SortSorts(NoteLeq, notes);
    var sorted := SortNotes(notes);
    SameElements(notes, sorted);
    ReorderedStaysValid(notes, sorted);
    SortsAlike(sorted, notes);
    BoundedNotesAreWritable(notes, MAXIMUM_TICK + 1);
    BoundedNotesAreWritable(sorted, MAXIMUM_TICK + 1);
    SameSchedule(notes, sorted);
  }

  lemma ReorderedStaysValid(notes: seq<Note>, other: seq<Note>)
    requires ValidNotes(notes) && multiset(notes) == multiset(other)
    ensures ValidNotes(other)
  {
    SameElements(notes, other);
    ValidNotesDistinct(notes);
    PermutationKeepsApart(notes, other, (m, n) => m == n);
    forall i, j | 0 <= i < j < |other| ensures Apart(other[i], other[j]) {
      assert other[i] in other && other[j] in other;
      DistinctNotesApart(notes, other[i], other[j]);
    }
    forall i | 0 <= i < |other| ensures Playable(other[i]) {
      assert other[i] in other;
      NotesArePlayable(notes, other[i]);
    }
  }

  lemma SameSchedule(notes: seq<Note>, other: seq<Note>)
    requires ValidNotes(notes) && ValidNotes(other) && multiset(notes) == multiset(other)
    ensures Schedule(notes) == Schedule(other)
  {
    hide Schedule, ValidNotes;
    SameElements(notes, other);
    ScheduleIsStrict(notes);
    ScheduleIsStrict(other);
    forall e ensures e in Schedule(notes) <==> e in Schedule(other) {
    }
    DistinctMultiset(Schedule(notes), Schedule(other));
    EventOrder();
    SortedIsUnique(EventLeq, Schedule(notes), Schedule(other));
  }

  // ------------------------------------------------------------- imperative reader

  /** The table of sounding notes agrees with the pairing's map. */
  ghost predicate Tabulates(active: array<Option<(nat, nat)>>, p: Pairing)
    reads active
  {
    && active.Length == 128
    && (forall k :: k in p.active ==> k < 128 && active[k] == Some(p.active[k]))
    && (forall k :: 0 <= k < 128 && active[k].Some? ==> k in p.active)
  }

  predicate EndsTrack(bytes: seq<byte>) {
    |bytes| >= 3 && bytes[0] == 0xff && bytes[1] == 0x2f && bytes[2] == 0
  }

  /** What follows a delta: the end of track is exactly FF 2F 00, a note is a status
      and two bytes, and anything else is not admitted. */
  lemma MessageForms(bytes: seq<byte>)
    ensures EndsTrack(bytes) <==> NextMessage(bytes) == Some(Read(EndOfTrack, 3))
    ensures |bytes| >= 3 && bytes[0] in {0x80, 0x90} ==>
      NextMessage(bytes) == Some(Read(Sound(bytes[0] == 0x90, bytes[1], bytes[2]), 3))
    ensures NextMessage(bytes).Some? && NextMessage(bytes).value.value.Sound? ==>
      |bytes| >= 3 && bytes[0] in {0x80, 0x90}
    ensures NextMessage(bytes).Some? && NextMessage(bytes).value.value.EndOfTrack? ==>
      NextMessage(bytes).value.size == 3
  {
    hide Decode, Quantity;
    if EndsTrack(bytes) {
      assert bytes == MessageBytes(EndOfTrack) + bytes[3..];
      NextMessageOfBytes(EndOfTrack, bytes[3..]);
    }
    if NextMessage(bytes).Some? {
      BytesOfNextMessage(bytes);
    }
  }

  /** `read_midi`. */
  method ReadMidi(bytes: seq<byte>) returns (r: Option<seq<Note>>)
    ensures r == ReadFile(bytes)
  {
    if |bytes| < 36 || |bytes| > MIDI_MAXIMUM_BYTES || bytes[..18] != FILE_HEADER {
      return None;
    }
    if Word(bytes[18..22]) != |bytes| - 22 {
      return None;
    }
    var track := bytes[22..];
    if track[..10] != TRACK_PREFIX {
      return None;
    }
    r := ReadLoop(track);
  }

  /** Which timed message stands at the front of the bytes, by its first bytes. */
  lemma TimedForms(rest: seq<byte>)
    requires Decode(rest).Some?
    ensures Decode(rest).value.size <= |rest|
    ensures var Decoded(delta, size) := Decode(rest).value;
      var body, timed := rest[size..], NextTimed(rest);
      && (EndsTrack(body) ==> timed == Some(Read(Timed(delta, EndOfTrack), size + 3)))
      && (|body| >= 3 && body[0] in {0x80, 0x90} ==>
            timed == Some(Read(Timed(delta, Sound(body[0] == 0x90, body[1], body[2])), size + 3)))
      && (timed.Some? ==> timed.value.value.delta == delta)
      && (timed.Some? && timed.value.value.message.Sound? ==> |body| >= 3 && body[0] in {0x80, 0x90})
      && (timed.Some? && timed.value.value.message.EndOfTrack? ==> EndsTrack(body))
  {
    hide NextMessage, Decode, Quantity;
    QuantityOfDecode(rest);
    MessageForms(rest[Decode(rest).value.size..]);
  }

  /** The loop's turn by the bytes it meets. */
  lemma ReadTurn(rest: seq<byte>, tick: nat, previous: Option<Event>, p: Pairing, count: nat)
    ensures Decode(rest).None? ==> ReadEvents(rest, tick, previous, p, count) == None
    ensures Decode(rest).Some? ==> Decode(rest).value.size <= |rest|
    ensures Decode(rest).Some? ==>
      ReadEvents(rest, tick, previous, p, count)
        == ReadBody(rest[Decode(rest).value.size..], Decode(rest).value.value, tick, previous, p, count)
  {
    hide NextMessage, Decode, ReadEvents, ReadBody;
    if Decode(rest).None? {
      TurnUndecoded(rest, tick, previous, p, count);
    } else {
      hide NextTimed;
      TimedForms(rest);
      TurnDecoded(rest, tick, previous, p, count);
    }
  }

  lemma TurnUndecoded(rest: seq<byte>, tick: nat, previous: Option<Event>, p: Pairing, count: nat)
    requires Decode(rest).None?
    ensures ReadEvents(rest, tick, previous, p, count) == None
  {
    hide NextMessage, Decode, SortNotes, Before, Play;
  }

  lemma TurnDecoded(rest: seq<byte>, tick: nat, previous: Option<Event>, p: Pairing, count: nat)
    requires Decode(rest).Some? && Decode(rest).value.size <= |rest|
    ensures ReadEvents(rest, tick, previous, p, count)
      == ReadBody(rest[Decode(rest).value.size..], Decode(rest).value.value, tick, previous, p, count)
  {
    hide NextMessage, Decode, SortNotes, Before, Play, NextTimed;
    var Decoded(delta, size) := Decode(rest).value;
    var body := rest[size..];
    TimedForms(rest);
    if EndsTrack(body) {
      assert ReadBody(body, delta, tick, previous, p, count) ==
        if tick + delta <= MAXIMUM_TICK && delta == 0 && |body| == 3 && p.active == map[] then Some(SortNotes(p.notes))
        else None;
    } else if |body| >= 3 && body[0] in {0x80, 0x90} {
      assert rest[size + 3..] == body[3..];
    } else {
      assert ReadBody(body, delta, tick, previous, p, count) == None;
    }
  }

  /** The loop's turn once a delta has been read. */
  function ReadBody(body: seq<byte>, delta: nat, tick: nat, previous: Option<Event>, p: Pairing, count: nat)
    : Option<seq<Note>>
  {
    if tick + delta > MAXIMUM_TICK || body == [] then None
    else if body[0] == 0xff then
      if delta == 0 && |body| == 3 && EndsTrack(body) && p.active == map[] then Some(SortNotes(p.notes)) else None
    else if |body| < 3 || body[0] !in {0x80, 0x90} then None
    else
      var e := Event(tick + delta, body[0] == 0x90, body[1], body[2]);
      if Play(p, e).None? || (previous.Some? && !Before(previous.value, e)) || count + 1 > 2 * MAXIMUM_NOTES then None
      else ReadEvents(body[3..], e.tick, Some(e), Play(p, e).value, count + 1)
  }

  /** No slot of the table is taken. */
  method IsSilent(active: array<Option<(nat, nat)>>, ghost p: Pairing) returns (silent: bool)
    requires Tabulates(active, p)
    ensures silent <==> p.active == map[]
  {
    silent := true;
    for k := 0 to 128
      invariant silent <==> forall j :: 0 <= j < k ==> active[j].None?
    {
      if active[k].Some? {
        silent := false;
      }
    }
    if silent {
      assert p.active.Keys == {};
    }
  }

  /** One note event against the table: a retrigger, an unmatched off and an empty note
      are refused. */
  method Apply(active: array<Option<(nat, nat)>>, notes: seq<Note>, e: Event, ghost p: Pairing)
    returns (ok: bool, extended: seq<Note>)
    requires Tabulates(active, p) && p.notes == notes
    requires LOWEST_PITCH <= e.pitch <= HIGHEST_PITCH
    requires if e.on then 1 <= e.velocity <= 127 else e.velocity == 0
    modifies active
    ensures ok <==> Play(p, e).Some?
    ensures ok ==> Tabulates(active, Play(p, e).value) && Play(p, e).value.notes == extended
  {
    ok, extended := false, notes;
    if e.on {
      if active[e.pitch].Some? {
        return;
      }
      active[e.pitch] := Some((e.tick, e.velocity));
    } else {
      if active[e.pitch].None? {
        return;
      }
      var (start, startVelocity) := active[e.pitch].value;
      active[e.pitch] := None;
      if start >= e.tick {
        return;
      }
      extended := notes + [Note(start, e.tick, e.pitch, startVelocity)];
    }
    ok := true;
  }

  lemma PlayNeedsRanges(p: Pairing, e: Event)
    requires Play(p, e).Some?
    ensures LOWEST_PITCH <= e.pitch <= HIGHEST_PITCH
    ensures if e.on then 1 <= e.velocity <= 127 else e.velocity == 0
  {
  }

  /** The event loop of `read_midi`. */
  method ReadLoop(track: seq<byte>) returns (r: Option<seq<Note>>)
    requires |track| >= 10
    ensures r == ReadEvents(track[10..], 0, None, SILENCE, 0)
  {
    hide ReadEvents, Decode, SortNotes, Before, Play;
    ghost var goal := ReadEvents(track[10..], 0, None, SILENCE, 0);
    var index, absoluteTick: nat := 10, 0;
    var previousKey: Option<Event> := None;
    var active := new Option<(nat, nat)>[128](_ => None);
    var notes: seq<Note> := [];
    var events := 0;
    ghost var p := SILENCE;
    while true
      invariant 10 <= index <= |track|
      invariant Tabulates(active, p) && p.notes == notes
      invariant goal == ReadEvents(track[index..], absoluteTick, previousKey, p, events)
      decreases |track| - index
    {
      ReadTurn(track[index..], absoluteTick, previousKey, p, events);
      ghost var rest, before := track[index..], index;
      var delta, next, ok := ReadVlq(track, index);
      if !ok {
        return None;
      }
      index := next;
      ghost var body := rest[index - before..];
      assert body == track[index..];
      absoluteTick := absoluteTick + delta;
      if absoluteTick > MAXIMUM_TICK || index >= |track| {
        return None;
      }
      var status := track[index];
      index := index + 1;
      assert body[1..] == track[index..];
      if status == 0xff {
        if delta != 0 || index + 2 != |track| || track[index..index + 2] != [0x2f, 0] {
          return None;
        }
        var silent := IsSilent(active, p);
        if !silent {
          return None;
        }
        return Some(SortNotes(notes));
      }
      if index + 2 > |track| {
        return None;
      }
      var pitch, velocity := track[index], track[index + 1];
      index := index + 2;
      assert body[3..] == track[index..];
      var key := Event(absoluteTick, status == 0x90, pitch, velocity);
      if Play(p, key).Some? {
        PlayNeedsRanges(p, key);
      }
      if !(LOWEST_PITCH <= pitch <= HIGHEST_PITCH) || (status != 0x80 && status != 0x90)
         || (status == 0x80 && velocity != 0) || (status == 0x90 && !(1 <= velocity <= 127)) {
        return None;
      }
      if previousKey.Some? && !Before(previousKey.value, key) {
        return None;
      }
      previousKey := Some(key);
      ok, notes := Apply(active, notes, key, p);
      if !ok {
        return None;
      }
      p := Play(p, key).value;
      events := events + 1;
      if events > 2 * MAXIMUM_NOTES {
        return None;
      }
    }
  }
}
