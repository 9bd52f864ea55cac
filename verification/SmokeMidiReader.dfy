/** `read_midi` of scripts/smoke-audio-midi.py: the independent read-back of the exported
    subset, its exact grammar, and its agreement with the writer and the strict reader.
    A failed assertion of the script is a refusal. */
module SmokeMidiReader {
  import opened Wrappers
  import opened Bits
  import opened Vlq
  import opened Sorting
  import opened NotePairing
  import opened MidiMessages
  import opened MidiFile
  import MidiReader

  const SMOKE_MAXIMUM_BYTES := 1024 * 1024

  /** Values seen at absolute ticks. */
  type Marks = seq<(nat, nat)>

  /** The order of Python tuples (start, end, pitch, velocity). */
  predicate TupleLeq(a: Note, b: Note) {
    if a.start != b.start then a.start < b.start
    else if a.end != b.end then a.end < b.end
    else if a.pitch != b.pitch then a.pitch < b.pitch
    else a.velocity <= b.velocity
  }

  function Sorted(notes: seq<Note>): seq<Note> {
    Sort(TupleLeq, notes)
  }

  /** What the loop carries besides its cursor. */
  datatype State = State(tick: nat, pairing: Pairing, ended: bool, tempos: Marks, programs: Marks)

  const START := State(0, SILENCE, false, [], [])

  /** One message against the carried state. */
  function Take(s: State, t: Timed): Option<State> {
    var now := s.tick + t.delta;
    if s.ended then None
    else
      match t.message
      case Tempo(value) => Some(s.(tick := now, tempos := s.tempos + [(now, value)]))
      case Program(number) => Some(s.(tick := now, programs := s.programs + [(now, number as nat)]))
      case EndOfTrack => if s.pairing.active != map[] then None else Some(s.(tick := now, ended := true))
      case Sound(on, pitch, velocity) =>
        var next := Play(s.pairing, Event(now, on, pitch, velocity));
        if next.None? then None else Some(s.(tick := now, pairing := next.value))
  }

  predicate Finished(s: State) {
    && s.ended
    && s.pairing.active == map[]
    && s.tempos == [(0, TEMPO)]
    && s.programs == [(0, 0)]
  }

  /** The track loop, over the bytes not yet read. */
  function ReadMessages(rest: seq<byte>, s: State): Option<seq<Note>>
    decreases |rest|
  {
    if rest == [] then
      if Finished(s) then Some(Sorted(s.pairing.notes)) else None
    else if NextTimed(rest).None? then None
    else
      NextTimedAdvances(rest);
      var Read(t, size) := NextTimed(rest).value;
      var next := Take(s, t);
      if next.None? then None else ReadMessages(rest[size..], next.value)
  }

  function ReadContent(content: seq<byte>): Option<seq<Note>> {
    if |content| < 22 || |content| > SMOKE_MAXIMUM_BYTES || content[..18] != FILE_HEADER then None
    else if Word(content[18..22]) != |content| - 22 then None
    else ReadMessages(content[22..], START)
  }

  // ---------------------------------------------------------------------- grammar

  function TempoMarks(messages: seq<Timed>, tick: nat): Marks
    decreases |messages|
  {
    if messages == [] then []
    else
      var now := tick + messages[0].delta;
      (if messages[0].message.Tempo? then [(now, messages[0].message.microseconds)] else [])
      + TempoMarks(messages[1..], now)
  }

  function ProgramMarks(messages: seq<Timed>, tick: nat): Marks
    decreases |messages|
  {
    if messages == [] then []
    else
      var now := tick + messages[0].delta;
      (if messages[0].message.Program? then [(now, messages[0].message.number as nat)] else [])
      + ProgramMarks(messages[1..], now)
  }

  /** End of track stands last and nowhere else. */
  predicate EndsOnce(messages: seq<Timed>) {
    && messages != []
    && forall i :: 0 <= i < |messages| ==> (messages[i].message.EndOfTrack? <==> i == |messages| - 1)
  }

  /** A track of the subset: one end, one tempo and one program at tick zero, and note
      events that play to silence. */
  predicate SmokeTrack(messages: seq<Timed>) {
    && AllRepresentable(messages)
    && EndsOnce(messages)
    && TempoMarks(messages, 0) == [(0, TEMPO)]
    && ProgramMarks(messages, 0) == [(0, 0)]
    && var played := PlayAll(SILENCE, NoteEvents(messages, 0));
       played.Some? && played.value.active == map[]
  }

  function SmokeNotes(messages: seq<Timed>): seq<Note>
    requires SmokeTrack(messages)
  {
    Sorted(PlayAll(SILENCE, NoteEvents(messages, 0)).value.notes)
  }

  /** The rest of a track, seen from a carried state. */
  predicate Completes(s: State, messages: seq<Timed>) {
    && !s.ended
    && EndsOnce(messages)
    && s.tempos + TempoMarks(messages, s.tick) == [(0, TEMPO)]
    && s.programs + ProgramMarks(messages, s.tick) == [(0, 0)]
    && var played := PlayAll(s.pairing, NoteEvents(messages, s.tick));
       played.Some? && played.value.active == map[]
  }

  /** Taking one message leaves the rest to complete the track. */
  lemma {:induction false} CompletesStep(s: State, messages: seq<Timed>)
    requires messages != [] && !s.ended && !messages[0].message.EndOfTrack?
    ensures Completes(s, messages) <==>
      Take(s, messages[0]).Some? && Completes(Take(s, messages[0]).value, messages[1..])
    ensures Completes(s, messages) ==>
      PlayAll(s.pairing, NoteEvents(messages, s.tick))
        == PlayAll(Take(s, messages[0]).value.pairing, NoteEvents(messages[1..], Take(s, messages[0]).value.tick))
  {
    hide Play;
    var t, tail := messages[0], messages[1..];
    var now := s.tick + t.delta;
    EndsOnceTail(messages);
    match t.message
    case Tempo(value) =>
      assert s.tempos + ([(now, value)] + TempoMarks(tail, now)) == (s.tempos + [(now, value)]) + TempoMarks(tail, now);
    case Program(number) =>
      assert s.programs + ([(now, number as nat)] + ProgramMarks(tail, now))
        == (s.programs + [(now, number as nat)]) + ProgramMarks(tail, now);
    case Sound(on, pitch, velocity) =>
      var e := Event(now, on, pitch, velocity);
      assert ([e] + NoteEvents(tail, now))[1..] == NoteEvents(tail, now);
  }

  lemma {:induction false} EndsOnceTail(messages: seq<Timed>)
    requires messages != [] && !messages[0].message.EndOfTrack?
    ensures EndsOnce(messages) <==> EndsOnce(messages[1..])
  {
    var tail := messages[1..];
    if EndsOnce(tail) {
      forall i | 0 <= i < |messages| ensures messages[i].message.EndOfTrack? <==> i == |messages| - 1 {
        if i > 0 {
          assert messages[i] == tail[i - 1];
        }
      }
    }
    if EndsOnce(messages) {
      assert forall i :: 0 <= i < |tail| ==> tail[i] == messages[i + 1];
    }
  }

  lemma {:induction false} CompletesAtEnd(s: State, messages: seq<Timed>)
    requires messages != [] && !s.ended && messages[0].message.EndOfTrack?
    ensures Completes(s, messages) <==>
      |messages| == 1 && Take(s, messages[0]).Some? && Finished(Take(s, messages[0]).value)
    ensures Completes(s, messages) ==> NoteEvents(messages, s.tick) == []
  {
    if |messages| == 1 {
      assert messages[1..] == [];
      assert s.tempos + [] == s.tempos && s.programs + [] == s.programs;
      var now := s.tick + messages[0].delta;
      assert TempoMarks([], now) == [] && ProgramMarks([], now) == [];
      assert TempoMarks(messages, s.tick) == [];
      assert ProgramMarks(messages, s.tick) == [];
      assert EndsOnce(messages) && NoteEvents(messages, s.tick) == [];
    } else {
      assert !EndsOnce(messages);
    }
  }

  /** The loop reads exactly the byte codes of messages that complete the track. */
  lemma {:induction false} ReadMessagesFinds(rest: seq<byte>, s: State) returns (messages: seq<Timed>)
    requires !s.ended && ReadMessages(rest, s).Some?
    ensures AllRepresentable(messages) && rest == TrackBytes(messages) && Completes(s, messages)
    ensures PlayAll(s.pairing, NoteEvents(messages, s.tick)).Some?
    ensures ReadMessages(rest, s) == Some(Sorted(PlayAll(s.pairing, NoteEvents(messages, s.tick)).value.notes))
    decreases |rest|
  {
    hide NextTimed, TimedBytes, Sorted, Representable, Completes;
    NextTimedAdvances(rest);
    var Read(t, size) := NextTimed(rest).value;
    if t.message.EndOfTrack? {
      messages := [t];
      assert messages[1..] == [] && rest[size..] == [];
      CompletesAtEnd(s, messages);
    } else {
      var tail := ReadMessagesFinds(rest[size..], Take(s, t).value);
      messages := [t] + tail;
      assert messages[1..] == tail;
      CompletesStep(s, messages);
    }
  }

  lemma {:induction false} ReadMessagesAccepts(messages: seq<Timed>, s: State)
    requires AllRepresentable(messages) && Completes(s, messages)
    ensures ReadMessages(TrackBytes(messages), s)
      == Some(Sorted(PlayAll(s.pairing, NoteEvents(messages, s.tick)).value.notes))
    decreases |messages|
  {
    hide NextTimed, TimedBytes, Sorted, Representable, Completes;
    CompletesNonempty(s, messages);
    var rest := TrackBytes(messages);
    assert rest + [] == rest && TrackBytes(messages[1..]) + [] == TrackBytes(messages[1..]);
    NextOfTrack(messages, []);
    NextTimedAdvances(rest);
    if messages[0].message.EndOfTrack? {
      CompletesAtEnd(s, messages);
      assert TrackBytes(messages[1..]) == [];
      assert ReadMessages([], Take(s, messages[0]).value) == Some(Sorted(s.pairing.notes));
    } else {
      CompletesStep(s, messages);
      ReadMessagesAccepts(messages[1..], Take(s, messages[0]).value);
    }
  }

  lemma CompletesNonempty(s: State, messages: seq<Timed>)
    requires Completes(s, messages)
    ensures messages != [] && !s.ended
  {
  }

  lemma SmokeTrackCompletes(messages: seq<Timed>)
    requires AllRepresentable(messages)
    ensures SmokeTrack(messages) <==> Completes(START, messages)
  {
    hide PlayAll, NoteEvents, Representable;
    assert [] + TempoMarks(messages, 0) == TempoMarks(messages, 0);
    assert [] + ProgramMarks(messages, 0) == ProgramMarks(messages, 0);
  }

  /** `read_midi` accepts a byte string exactly when it is a file of at most 1 MiB around
      the byte code of a subset track, and returns that track's notes, sorted. */
  lemma SmokeReaderGrammar(content: seq<byte>, notes: seq<Note>)
    ensures ReadContent(content) == Some(notes) <==>
      |content| <= SMOKE_MAXIMUM_BYTES
      && exists messages ::
        SmokeTrack(messages) && |TrackBytes(messages)| < 0x1_0000_0000
        && content == FileOf(TrackBytes(messages)) && notes == SmokeNotes(messages)
  {
    hide ReadMessages, TrackBytes, PlayAll, NoteEvents, Sorted, Word, BigEndian, Completes, Representable;
    hide EndsOnce, TempoMarks, ProgramMarks;
    if ReadContent(content) == Some(notes) {
      var messages := ReadMessagesFinds(content[22..], START);
      SmokeTrackCompletes(messages);
      BigEndianOfWord(content[18..22]);
      assert content == content[..18] + content[18..22] + content[22..];
    }
    if |content| <= SMOKE_MAXIMUM_BYTES && exists messages ::
        SmokeTrack(messages) && |TrackBytes(messages)| < 0x1_0000_0000
        && content == FileOf(TrackBytes(messages)) && notes == SmokeNotes(messages)
    {
      var messages :| SmokeTrack(messages) && |TrackBytes(messages)| < 0x1_0000_0000
        && content == FileOf(TrackBytes(messages)) && notes == SmokeNotes(messages);
      SmokeFileIsRead(messages);
    }
  }

  lemma SmokeFileIsRead(messages: seq<Timed>)
    requires SmokeTrack(messages)
    requires |TrackBytes(messages)| + 22 <= SMOKE_MAXIMUM_BYTES
    ensures ReadContent(FileOf(TrackBytes(messages))) == Some(SmokeNotes(messages))
  {
    hide ReadMessages, TrackBytes, PlayAll, NoteEvents, Sorted, Word, BigEndian, Completes, Representable, EndsOnce;
    SmokeTrackCompletes(messages);
    ReadMessagesAccepts(messages, START);
    var track := TrackBytes(messages);
    var content := FileOf(track);
    assert content[..18] == FILE_HEADER && content[18..22] == BigEndian(|track|) && content[22..] == track;
    WordOfBigEndian(|track|);
  }

  // ------------------------------------------------- facts about every accepted file

  function OnCount(events: seq<Event>): nat {
    if events == [] then 0 else (if events[0].on then 1 else 0) + OnCount(events[1..])
  }

  lemma {:induction false} PlayBalances(p: Pairing, events: seq<Event>)
    requires PlayAll(p, events).Some?
    ensures var q := PlayAll(p, events).value;
      && |q.notes| + OnCount(events) == |p.notes| + |events|
      && |q.active| + |events| == |p.active| + 2 * OnCount(events)
    decreases |events|
  {
    if events != [] {
      var e := events[0];
      var next := Play(p, e).value;
      if e.on {
        assert next.active.Keys == p.active.Keys + {e.pitch};
        assert |next.active| == |p.active| + 1;
      } else {
        assert next.active.Keys == p.active.Keys - {e.pitch};
        assert |next.active| == |p.active| - 1;
      }
      PlayBalances(next, events[1..]);
    }
  }

  /** In every subset track, half of the note events are ons, and the notes are playable
      and disjoint on each pitch. */
  lemma SmokeTrackIsBalanced(messages: seq<Timed>)
    requires SmokeTrack(messages)
    ensures |SmokeNotes(messages)| == OnCount(NoteEvents(messages, 0))
    ensures |NoteEvents(messages, 0)| == 2 * OnCount(NoteEvents(messages, 0))
    ensures ValidNotes(SmokeNotes(messages))
  {
    hide PlayAll, NoteEvents, Sort, EndsOnce, TempoMarks, ProgramMarks, Representable;
    var events := NoteEvents(messages, 0);
    var played := PlayAll(SILENCE, events).value;
    PlayBalances(SILENCE, events);
    NoteEventsFollow(messages, 0);
    PlayedNotesAreValid(events);
    TupleOrder();
    SortSorts(TupleLeq, played.notes);
    MidiReader.ReorderedStaysValid(played.notes, Sorted(played.notes));
  }

  lemma TupleOrder()
    ensures TotalPreorder(TupleLeq)
  {
  }

  // ----------------------------------------------------------- reading the writer

  lemma {:induction false} DeltasComplete(events: seq<Event>, s: State)
    requires FollowTicks(events, s.tick) && !s.ended
    requires s.tempos == [(0, TEMPO)] && s.programs == [(0, 0)]
    requires PlayAll(s.pairing, events).Some? && PlayAll(s.pairing, events).value.active == map[]
    ensures Completes(s, Deltas(events, s.tick) + CLOSING)
    ensures PlayAll(s.pairing, NoteEvents(Deltas(events, s.tick) + CLOSING, s.tick)) == PlayAll(s.pairing, events)
    decreases |events|
  {
    hide Completes, Play;
    var messages := Deltas(events, s.tick) + CLOSING;
    if events == [] {
      assert messages == CLOSING;
      CompletesAtEnd(s, messages);
    } else {
      var e := events[0];
      var next := Take(s, messages[0]).value;
      assert messages[1..] == Deltas(events[1..], e.tick) + CLOSING;
      DeltasComplete(events[1..], next);
      CompletesStep(s, messages);
    }
  }

  /** Tempo and program in front leave the loop ready for the notes. */
  lemma PreambleCompletes(tail: seq<Timed>)
    ensures Completes(START, PREAMBLE + tail) <==>
      Completes(State(0, SILENCE, false, [(0, TEMPO)], [(0, 0)]), tail)
    ensures Completes(START, PREAMBLE + tail) ==>
      PlayAll(SILENCE, NoteEvents(PREAMBLE + tail, 0)) == PlayAll(SILENCE, NoteEvents(tail, 0))
  {
    hide Completes, PlayAll, NoteEvents, Take;
    var t0, t1 := Timed(0, Tempo(TEMPO)), Timed(0, Program(0));
    var messages := PREAMBLE + tail;
    assert messages[1..] == [t1] + tail;
    assert ([t1] + tail)[1..] == tail;
    TakeTempo(START, t0);
    var first := State(0, SILENCE, false, [(0, TEMPO)], []);
    TakeProgram(first, t1);
    CompletesStep(START, messages);
    CompletesStep(first, [t1] + tail);
  }

  lemma TakeTempo(s: State, t: Timed)
    requires t.message.Tempo? && !s.ended && s.tempos == []
    ensures var now := s.tick + t.delta;
      Take(s, t) == Some(State(now, s.pairing, false, [(now, t.message.microseconds)], s.programs))
  {
    var mark := (s.tick + t.delta, t.message.microseconds);
    assert s.tempos + [mark] == [mark];
  }

  lemma TakeProgram(s: State, t: Timed)
    requires t.message.Program? && !s.ended && s.programs == []
    ensures var now := s.tick + t.delta;
      Take(s, t) == Some(State(now, s.pairing, false, s.tempos, [(now, t.message.number as nat)]))
  {
    var mark := (s.tick + t.delta, t.message.number as nat);
    assert s.programs + [mark] == [mark];
  }

  lemma WrittenMessagesAreSmoke(notes: seq<Note>)
    requires Writable(notes)
    ensures SmokeTrack(Messages(notes)) && SmokeNotes(Messages(notes)) == Sorted(notes)
  {
    hide Completes, PlayAll, NoteEvents, Schedule, TrackBytes, Representable, EndsOnce, Deltas, Sort;
    hide TempoMarks, ProgramMarks;
    var events := Schedule(notes);
    var tail := Deltas(events, 0) + CLOSING;
    TrackIsMessages(notes);
    assert Messages(notes) == PREAMBLE + tail;
    SchedulePlays(notes);
    DeltasComplete(events, State(0, SILENCE, false, [(0, TEMPO)], [(0, 0)]));
    PreambleCompletes(tail);
    SmokeTrackCompletes(Messages(notes));
    TupleOrder();
    ValidNotesHaveNoTupleTies(notes);
    SortForgetsOrder(TupleLeq, notes, PlayAll(SILENCE, events).value.notes);
  }

  lemma ValidNotesHaveNoTupleTies(notes: seq<Note>)
    requires ValidNotes(notes)
    ensures NoTies(TupleLeq, notes)
  {
  }

  /** The script reads back, sorted, every writable note list whose file is within its
      size bound: no tick bound, and no bound on their number but the file's. */
  lemma SmokeReadsWhatIsWritten(notes: seq<Note>)
    requires Writable(notes) && |Track(notes)| + 22 <= SMOKE_MAXIMUM_BYTES
    ensures ReadContent(FileOf(Track(notes))) == Some(Sorted(notes))
  {
    hide SmokeTrack, ReadContent, TrackBytes;
    WrittenMessagesAreSmoke(notes);
    TrackIsMessages(notes);
    SmokeFileIsRead(Messages(notes));
  }

  /** Whatever the strict reader accepts the script accepts, with the same notes. */
  lemma ReadersAgree(bytes: seq<byte>, notes: seq<Note>)
    requires MidiReader.ReadFile(bytes) == Some(notes)
    ensures ReadContent(bytes) == Some(Sorted(notes))
  {
    hide ReadContent, Track, MidiReader.ReadFile;
    MidiReader.ReaderInvertsWriter(bytes, notes);
    MidiReader.ReadsWhatIsWritten(notes);
    SmokeReadsWhatIsWritten(notes);
  }

  // ------------------------------------------------------------- imperative reader

  /** One message of the loop body, with its own cursor moves and checks. */
  method ReadMessage(track: seq<byte>, start: nat) returns (ok: bool, message: Message, cursor: nat)
    requires start <= |track|
    ensures ok <==> NextMessage(track[start..]).Some?
    ensures ok ==> start < cursor <= |track| && NextMessage(track[start..]) == Some(Read(message, cursor - start))
  {
    hide Decode;
    ok, message, cursor := false, EndOfTrack, start;
    ghost var rest := track[start..];
    if cursor >= |track| {
      return;
    }
    var status := track[cursor];
    cursor := cursor + 1;
    if status == 0xff {
      if cursor >= |track| {
        return;
      }
      var kind := track[cursor];
      cursor := cursor + 1;
      assert rest[2..] == track[cursor..];
      var size, next, decoded := ReadVlq(track, cursor);
      cursor := next;
      if !decoded || cursor + size > |track| {
        return;
      }
      var payload := track[cursor..cursor + size];
      cursor := cursor + size;
      if kind == 0x51 {
        if size != 3 {
          return;
        }
        var b0: int, b1: int, b2: int := payload[0], payload[1], payload[2];
        message := Tempo(0x1_0000 * b0 + 0x100 * b1 + b2);
      } else if kind == 0x2f && size == 0 {
        message := EndOfTrack;
      } else {
        return;
      }
    } else if status == 0xc0 {
      if cursor >= |track| {
        return;
      }
      message := Program(track[cursor]);
      cursor := cursor + 1;
    } else {
      if (status != 0x80 && status != 0x90) || cursor + 2 > |track| {
        return;
      }
      message := Sound(status == 0x90, track[cursor], track[cursor + 1]);
      cursor := cursor + 2;
    }
    ok := true;
  }

  /** `read_midi`: the cursor, the tick, the table of active notes and the lists are the
      script's own variables. */
  method ReadMidi(content: seq<byte>) returns (r: Option<seq<Note>>)
    ensures r == ReadContent(content)
  {
    hide ReadMessages, NextMessage, Decode, Sort;
    if |content| < 22 || |content| > SMOKE_MAXIMUM_BYTES || content[..18] != FILE_HEADER {
      return None;
    }
    if Word(content[18..22]) != |content| - 22 {
      return None;
    }
    var track := content[22..];
    var cursor, tick: nat := 0, 0;
    var active: map<nat, (nat, nat)> := map[];
    var notes: seq<Note> := [];
    var ended := false;
    var tempos: Marks, programs: Marks := [], [];
    assert track[0..] == track;
    while cursor < |track|
      invariant cursor <= |track|
      invariant ReadContent(content)
        == ReadMessages(track[cursor..], State(tick, Pairing(active, notes), ended, tempos, programs))
    {
      ghost var rest, before := track[cursor..], cursor;
      ghost var s := State(tick, Pairing(active, notes), ended, tempos, programs);
      ReadMessagesTurn(rest, s);
      var delta, next, ok := ReadVlq(track, cursor);
      if !ok || ended {
        return None;
      }
      cursor := next;
      tick := tick + delta;
      assert rest[cursor - before..] == track[cursor..];
      var message;
      ok, message, cursor := ReadMessage(track, cursor);
      if !ok {
        return None;
      }
      assert rest[cursor - before..] == track[cursor..];
      match message
      case Tempo(value) =>
        tempos := tempos + [(tick, value)];
      case Program(number) =>
        programs := programs + [(tick, number as nat)];
      case EndOfTrack =>
        if active != map[] {
          return None;
        }
        ended := true;
      case Sound(on, pitch, velocity) =>
        if !(LOWEST_PITCH <= pitch <= HIGHEST_PITCH) || velocity > 127 {
          return None;
        }
        if on {
          if velocity == 0 || pitch in active {
            return None;
          }
          active := active[pitch as nat := (tick, velocity as nat)];
        } else {
          if velocity != 0 || pitch !in active {
            return None;
          }
          var (start, onVelocity) := active[pitch];
          active := active - {pitch as nat};
          if start >= tick {
            return None;
          }
          notes := notes + [Note(start, tick, pitch, onVelocity)];
        }
    }
    ReadMessagesEnd(State(tick, Pairing(active, notes), ended, tempos, programs));
    assert track[cursor..] == [];
    if !ended || active != map[] || tempos != [(0, TEMPO)] || programs != [(0, 0)] {
      return None;
    }
    return Some(Sorted(notes));
  }

  lemma ReadMessagesTurn(rest: seq<byte>, s: State)
    requires rest != []
    ensures NextTimed(rest).None? ==> ReadMessages(rest, s) == None
    ensures NextTimed(rest).Some? ==>
      && NextTimed(rest).value.size <= |rest|
      && ReadMessages(rest, s) ==
         if Take(s, NextTimed(rest).value.value).None? then None
         else ReadMessages(rest[NextTimed(rest).value.size..], Take(s, NextTimed(rest).value.value).value)
  {
    hide NextTimed, Take, Sorted;
    if NextTimed(rest).Some? {
      NextTimedAdvances(rest);
    }
  }

  lemma ReadMessagesEnd(s: State)
    ensures ReadMessages([], s) == if Finished(s) then Some(Sorted(s.pairing.notes)) else None
  {
  }
}
