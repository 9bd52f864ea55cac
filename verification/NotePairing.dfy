/** Pairing note-on with note-off events: the `active` table of both MIDI readers, and
    why playing a note list's sorted events gives the notes back. */
module NotePairing {
  import opened Wrappers
  import opened Sorting

  datatype Note = Note(start: nat, end: nat, pitch: nat, velocity: nat)

  /** A note-off carries velocity zero. */
  datatype Event = Event(tick: nat, on: bool, pitch: nat, velocity: nat)

  /** Sounding notes by pitch, each with its start and velocity; and finished notes. */
  datatype Pairing = Pairing(active: map<nat, (nat, nat)>, notes: seq<Note>)

  const SILENCE := Pairing(map[], [])

  const LOWEST_PITCH := 21
  const HIGHEST_PITCH := 108
  const MAXIMUM_NOTES := 8192

  /** The order in which notes are listed: start, pitch, end. */
  predicate NoteLeq(a: Note, b: Note) {
    if a.start != b.start then a.start < b.start
    else if a.pitch != b.pitch then a.pitch < b.pitch
    else a.end <= b.end
  }

  lemma NoteOrder()
    ensures TotalPreorder(NoteLeq)
  {
  }

  // ---------------------------------------------------------------- the automaton

  function Play(p: Pairing, e: Event): Option<Pairing> {
    if !(LOWEST_PITCH <= e.pitch <= HIGHEST_PITCH) || e.velocity > 127 then None
    else if e.on then
      if e.velocity == 0 || e.pitch in p.active then None
      else Some(Pairing(p.active[e.pitch := (e.tick, e.velocity)], p.notes))
    else
      if e.velocity != 0 || e.pitch !in p.active || p.active[e.pitch].0 >= e.tick then None
      else
        var (start, velocity) := p.active[e.pitch];
        Some(Pairing(p.active - {e.pitch}, p.notes + [Note(start, e.tick, e.pitch, velocity)]))
  }

  function PlayAll(p: Pairing, events: seq<Event>): Option<Pairing>
    decreases |events|
  {
    if events == [] then Some(p)
    else
      var next := Play(p, events[0]);
      if next.None? then None else PlayAll(next.value, events[1..])
  }

  lemma {:induction false} PlayOneMore(p: Pairing, events: seq<Event>, e: Event)
    ensures PlayAll(p, events + [e]) ==
      if PlayAll(p, events).None? then None else Play(PlayAll(p, events).value, e)
    decreases |events|
  {
    if events == [] {
      assert [e][1..] == [];
    } else {
      assert (events + [e])[1..] == events[1..] + [e];
      if Play(p, events[0]).Some? {
        PlayOneMore(Play(p, events[0]).value, events[1..], e);
      }
    }
  }

  // ------------------------------------------------------------------ valid notes

  predicate Playable(n: Note) {
    LOWEST_PITCH <= n.pitch <= HIGHEST_PITCH && 1 <= n.velocity <= 127 && n.start < n.end
  }

  predicate Apart(m: Note, n: Note) {
    m.pitch == n.pitch ==> m.end <= n.start || n.end <= m.start
  }

  predicate ValidNotes(notes: seq<Note>) {
    && (forall i :: 0 <= i < |notes| ==> Playable(notes[i]))
    && (forall i, j :: 0 <= i < j < |notes| ==> Apart(notes[i], notes[j]))
  }

  function On(n: Note): Event {
    Event(n.start, true, n.pitch, n.velocity)
  }

  function Off(n: Note): Event {
    Event(n.end, false, n.pitch, 0)
  }

  /** Two events a note, as the writer pushes them. */
  function Events(notes: seq<Note>): (events: seq<Event>)
    ensures |events| == 2 * |notes|
  {
    seq(2 * |notes|, k requires 0 <= k < 2 * |notes| => if k % 2 == 0 then On(notes[k / 2]) else Off(notes[k / 2]))
  }

  /** The writer's tuple order: tick, then off before on, then pitch, then velocity. */
  predicate EventLeq(a: Event, b: Event) {
    if a.tick != b.tick then a.tick < b.tick
    else if a.on != b.on then !a.on
    else if a.pitch != b.pitch then a.pitch < b.pitch
    else a.velocity <= b.velocity
  }

  /** The reader's strict order: tick, then off before on, then pitch. */
  predicate Before(a: Event, b: Event) {
    if a.tick != b.tick then a.tick < b.tick
    else if a.on != b.on then !a.on
    else a.pitch < b.pitch
  }

  predicate SameKey(a: Event, b: Event) {
    a.tick == b.tick && a.on == b.on && a.pitch == b.pitch
  }

  predicate StrictlyOrdered(events: seq<Event>) {
    forall i, j :: 0 <= i < j < |events| ==> Before(events[i], events[j])
  }

  lemma EventOrder()
    ensures TotalPreorder(EventLeq)
  {
  }

  function Schedule(notes: seq<Note>): seq<Event> {
    Sort(EventLeq, Events(notes))
  }

  lemma EventsOf(notes: seq<Note>, e: Event)
    ensures e in Events(notes) <==> exists n :: n in notes && (e == On(n) || e == Off(n))
  {
    var events := Events(notes);
    if e in events {
      var k :| 0 <= k < |events| && events[k] == e;
      assert notes[k / 2] in notes;
    }
    if exists n :: n in notes && (e == On(n) || e == Off(n)) {
      var n :| n in notes && (e == On(n) || e == Off(n));
      var i :| 0 <= i < |notes| && notes[i] == n;
      assert events[2 * i] == On(n) && events[2 * i + 1] == Off(n);
    }
  }

  /** No two events of a valid note list share tick, kind and pitch. */
  lemma EventKeysDiffer(notes: seq<Note>)
    requires ValidNotes(notes)
    ensures forall k, l :: 0 <= k < l < 2 * |notes| ==> !SameKey(Events(notes)[k], Events(notes)[l])
  {
    forall k, l | 0 <= k < l < 2 * |notes|
      ensures !SameKey(Events(notes)[k], Events(notes)[l])
    {
      var i, j := k / 2, l / 2;
      assert Playable(notes[i]) && Playable(notes[j]);
      if i < j {
        assert Apart(notes[i], notes[j]);
      } else {
        assert k % 2 == 0 && l % 2 == 1;
      }
    }
  }

  /** The sorted events of a valid note list are strictly ordered, and are exactly the
      notes' events. */
  lemma ScheduleIsStrict(notes: seq<Note>)
    requires ValidNotes(notes)
    ensures StrictlyOrdered(Schedule(notes)) && |Schedule(notes)| == 2 * |notes|
    ensures forall e :: e in Schedule(notes) <==> exists n :: n in notes && (e == On(n) || e == Off(n))
  {
    hide Sort, Events;
    EventOrder();
    SortSorts(EventLeq, Events(notes));
    EventKeysDiffer(notes);
    PermutationKeepsApart(Events(notes), Schedule(notes), SameKey);
    forall i, j | 0 <= i < j < |Schedule(notes)| ensures Before(Schedule(notes)[i], Schedule(notes)[j]) {
      assert EventLeq(Schedule(notes)[i], Schedule(notes)[j]);
      assert !SameKey(Schedule(notes)[i], Schedule(notes)[j]);
    }
    SameElements(Events(notes), Schedule(notes));
    forall e ensures e in Schedule(notes) <==> exists n :: n in notes && (e == On(n) || e == Off(n)) {
      EventsOf(notes, e);
    }
  }

  // ---------------------------------------------------- playing a schedule: forward

  /** `m` sounds just before event `e`: it has started and not ended. */
  predicate Sounding(m: Note, e: Event) {
    Before(On(m), e) && !Before(Off(m), e)
  }

  /** The pairing just before event `e` of the schedule of `notes`. */
  ghost predicate UpTo(p: Pairing, notes: seq<Note>, e: Event) {
    && (forall m :: m in notes && Sounding(m, e) ==>
          m.pitch in p.active && p.active[m.pitch] == (m.start, m.velocity))
    && (forall k :: k in p.active ==> exists m :: m in notes && m.pitch == k && Sounding(m, e))
    && (forall m :: m in p.notes <==> m in notes && Before(Off(m), e))
    && (forall i, j :: 0 <= i < j < |p.notes| ==> p.notes[i] != p.notes[j])
  }

  lemma DistinctNotesApart(notes: seq<Note>, m: Note, n: Note)
    requires ValidNotes(notes) && m in notes && n in notes && m != n
    ensures Apart(m, n)
  {
    var i :| 0 <= i < |notes| && notes[i] == m;
    var j :| 0 <= j < |notes| && notes[j] == n;
    if i < j {
      assert Apart(notes[i], notes[j]);
    } else {
      assert Apart(notes[j], notes[i]);
    }
  }

  ghost predicate NothingBetween(notes: seq<Note>, e: Event, next: Event) {
    && Before(e, next)
    && forall n :: n in notes ==>
         && (Before(On(n), next) ==> Before(On(n), e) || On(n) == e)
         && (Before(Off(n), next) ==> Before(Off(n), e) || Off(n) == e)
  }

  /** The next event of the schedule plays, and leads to the one after. */
  lemma PlayScheduled(p: Pairing, notes: seq<Note>, e: Event, next: Event)
    requires ValidNotes(notes) && UpTo(p, notes, e) && NothingBetween(notes, e, next)
    requires exists n :: n in notes && (e == On(n) || e == Off(n))
    ensures Play(p, e).Some? && UpTo(Play(p, e).value, notes, next)
  {
    hide Play, UpTo, NothingBetween, ValidNotes;
    var n :| n in notes && (e == On(n) || e == Off(n));
    if e == On(n) {
      PlayStart(p, notes, n, next);
    } else {
      PlayEnd(p, notes, n, next);
    }
  }

  lemma PlayStart(p: Pairing, notes: seq<Note>, n: Note, next: Event)
    requires ValidNotes(notes) && n in notes && UpTo(p, notes, On(n)) && NothingBetween(notes, On(n), next)
    ensures Play(p, On(n)).Some? && UpTo(Play(p, On(n)).value, notes, next)
  {
    assert forall m :: m in notes ==> Playable(m);
    if n.pitch in p.active {
      var m :| m in notes && m.pitch == n.pitch && Sounding(m, On(n));
      DistinctNotesApart(notes, m, n);
      assert false;
    }
    var q := Play(p, On(n)).value;
    forall m | m in notes && Sounding(m, next)
      ensures m.pitch in q.active && q.active[m.pitch] == (m.start, m.velocity)
    {
      if m != n {
        DistinctNotesApart(notes, m, n);
      }
    }
    assert Sounding(n, next);
    forall k | k in q.active ensures exists m :: m in notes && m.pitch == k && Sounding(m, next) {
      if k != n.pitch {
        var m :| m in notes && m.pitch == k && Sounding(m, On(n));
        assert Sounding(m, next);
      }
    }
  }

  lemma PlayEnd(p: Pairing, notes: seq<Note>, n: Note, next: Event)
    requires ValidNotes(notes) && n in notes && UpTo(p, notes, Off(n)) && NothingBetween(notes, Off(n), next)
    ensures Play(p, Off(n)).Some? && UpTo(Play(p, Off(n)).value, notes, next)
  {
    assert forall m :: m in notes ==> Playable(m);
    assert Sounding(n, Off(n));
    var q := Play(p, Off(n)).value;
    assert q.notes == p.notes + [n];
    forall m | m in notes && Sounding(m, next)
      ensures m.pitch in q.active && q.active[m.pitch] == (m.start, m.velocity)
    {
      if m != n {
        DistinctNotesApart(notes, m, n);
      }
    }
    forall k | k in q.active ensures exists m :: m in notes && m.pitch == k && Sounding(m, next) {
      var m :| m in notes && m.pitch == k && Sounding(m, Off(n));
      assert Sounding(m, next);
    }
    forall m ensures m in q.notes <==> m in notes && Before(Off(m), next) {
      if m in notes && Off(m) == Off(n) && m != n {
        DistinctNotesApart(notes, m, n);
      }
    }
  }

  /** The event at a position of the schedule, or one behind all of them. */
  function EventAt(events: seq<Event>, i: nat): Event
    requires i <= |events|
  {
    if i < |events| then events[i]
    else if events == [] then Event(0, true, 0, 0)
    else Event(events[|events| - 1].tick + 1, true, 0, 0)
  }

  lemma ScheduleNeighbours(notes: seq<Note>, i: nat)
    requires ValidNotes(notes) && i < |Schedule(notes)|
    ensures NothingBetween(notes, Schedule(notes)[i], EventAt(Schedule(notes), i + 1))
  {
    hide Schedule, ValidNotes;
    ScheduleIsStrict(notes);
    var events := Schedule(notes);
    var next := EventAt(events, i + 1);
    forall f | f in events && Before(f, next) ensures Before(f, events[i]) || f == events[i] {
      var j :| 0 <= j < |events| && events[j] == f;
    }
    forall n | n in notes ensures On(n) in events && Off(n) in events {
    }
  }

  lemma {:induction false} SchedulePrefixPlays(notes: seq<Note>, i: nat)
    requires ValidNotes(notes) && i <= |Schedule(notes)|
    ensures PlayAll(SILENCE, Schedule(notes)[..i]).Some?
    ensures UpTo(PlayAll(SILENCE, Schedule(notes)[..i]).value, notes, EventAt(Schedule(notes), i))
    decreases i
  {
    hide Schedule, ValidNotes, Play, NothingBetween;
    ScheduleIsStrict(notes);
    var events := Schedule(notes);
    if i == 0 {
      forall n | n in notes
        ensures !Before(On(n), EventAt(events, 0)) && !Before(Off(n), EventAt(events, 0))
      {
        assert On(n) in events && Off(n) in events;
      }
    } else {
      hide UpTo, PlayAll;
      SchedulePrefixPlays(notes, i - 1);
      ScheduleNeighbours(notes, i - 1);
      assert events[i - 1] in events;
      PlayScheduled(PlayAll(SILENCE, events[..i - 1]).value, notes, events[i - 1], EventAt(events, i));
      PlayOneMore(SILENCE, events[..i - 1], events[i - 1]);
      assert events[..i] == events[..i - 1] + [events[i - 1]];
    }
  }

  /** Playing the sorted events of a valid note list gives back those notes, each once,
      and leaves nothing sounding. */
  lemma SchedulePlays(notes: seq<Note>)
    requires ValidNotes(notes)
    ensures PlayAll(SILENCE, Schedule(notes)).Some?
    ensures var p := PlayAll(SILENCE, Schedule(notes)).value;
      p.active == map[] && multiset(p.notes) == multiset(notes)
  {
    hide Schedule, PlayAll;
    ScheduleIsStrict(notes);
    var events := Schedule(notes);
    SchedulePrefixPlays(notes, |events|);
    assert events[..|events|] == events;
    var p, end := PlayAll(SILENCE, events).value, EventAt(events, |events|);
    forall n | n in notes ensures Before(On(n), end) && Before(Off(n), end) {
      assert On(n) in events && Off(n) in events;
    }
    assert p.active.Keys == {};
    ValidNotesDistinct(notes);
    DistinctMultiset(p.notes, notes);
  }

  lemma ValidNotesDistinct(notes: seq<Note>)
    requires ValidNotes(notes)
    ensures forall i, j :: 0 <= i < j < |notes| ==> notes[i] != notes[j]
  {
    forall i, j | 0 <= i < j < |notes| ensures notes[i] != notes[j] {
      assert Playable(notes[i]) && Apart(notes[i], notes[j]);
    }
  }

  // -------------------------------------------------- playing any events: backward

  predicate TicksOrdered(events: seq<Event>) {
    forall i, j :: 0 <= i < j < |events| ==> events[i].tick <= events[j].tick
  }

  /** What a pairing reached by playing says about its finished and sounding notes. */
  ghost predicate Consistent(p: Pairing, tick: nat) {
    && ValidNotes(p.notes)
    && (forall n :: n in p.notes ==> n.end <= tick)
    && (forall k :: k in p.active ==>
          && LOWEST_PITCH <= k <= HIGHEST_PITCH
          && 1 <= p.active[k].1 <= 127
          && p.active[k].0 <= tick
          && forall n :: n in p.notes && n.pitch == k ==> n.end <= p.active[k].0)
  }

  lemma PlayKeepsConsistent(p: Pairing, tick: nat, e: Event)
    requires Consistent(p, tick) && tick <= e.tick && Play(p, e).Some?
    ensures Consistent(Play(p, e).value, e.tick)
    ensures var q := Play(p, e).value; 2 * |q.notes| + |q.active| == 2 * |p.notes| + |p.active| + 1
  {
    var q := Play(p, e).value;
    if e.on {
      assert q.active.Keys == p.active.Keys + {e.pitch};
      assert |q.active| == |p.active| + 1;
    } else {
      assert q.active.Keys == p.active.Keys - {e.pitch};
      assert |q.active| == |p.active| - 1;
      var n := q.notes[|p.notes|];
      forall i | 0 <= i < |p.notes| ensures Apart(p.notes[i], n) {
        assert p.notes[i] in p.notes;
      }
    }
  }

  /** Whatever events play in tick order: the finished notes are playable and disjoint
      on each pitch, and each costs two events. */
  lemma {:induction false} PlayedNotesAreValid(events: seq<Event>)
    requires TicksOrdered(events) && PlayAll(SILENCE, events).Some?
    ensures var p := PlayAll(SILENCE, events).value;
      && Consistent(p, if events == [] then 0 else events[|events| - 1].tick)
      && |events| == 2 * |p.notes| + |p.active|
    decreases |events|
  {
    hide Play, Consistent;
    if events == [] {
      SilenceIsConsistent();
    } else {
      var last := |events| - 1;
      assert events == events[..last] + [events[last]];
      PlayOneMore(SILENCE, events[..last], events[last]);
      PlayedNotesAreValid(events[..last]);
      PlayKeepsConsistent(PlayAll(SILENCE, events[..last]).value,
        if last == 0 then 0 else events[last - 1].tick, events[last]);
    }
  }

  lemma SilenceIsConsistent()
    ensures Consistent(SILENCE, 0)
  {
  }

  /** The events behind a pairing: both events of a finished note, the first of a
      sounding one. */
  ghost predicate Explains(p: Pairing, e: Event) {
    || (exists n :: n in p.notes && (e == On(n) || e == Off(n)))
    || (e.on && e.pitch in p.active && p.active[e.pitch] == (e.tick, e.velocity))
  }

  lemma PlayExplains(p: Pairing, e: Event, f: Event)
    requires Play(p, e).Some?
    ensures Explains(Play(p, e).value, f) <==> Explains(p, f) || f == e
  {
    var q := Play(p, e).value;
    if !e.on {
      var n := q.notes[|p.notes|];
      assert n in q.notes;
      assert Off(n) == e;
      assert On(n) == Event(p.active[e.pitch].0, true, e.pitch, p.active[e.pitch].1);
      if Explains(p, f) {
        if m :| m in p.notes && (f == On(m) || f == Off(m)) {
          assert m in q.notes;
        }
      }
    }
  }

  lemma {:induction false} EventsAreExplained(events: seq<Event>, f: Event)
    requires PlayAll(SILENCE, events).Some?
    ensures f in events <==> Explains(PlayAll(SILENCE, events).value, f)
    decreases |events|
  {
    hide Play;
    if events != [] {
      var last := |events| - 1;
      assert events == events[..last] + [events[last]];
      PlayOneMore(SILENCE, events[..last], events[last]);
      EventsAreExplained(events[..last], f);
      PlayExplains(PlayAll(SILENCE, events[..last]).value, events[last], f);
    }
  }

  /** Strictly ordered events that play to silence are the schedule of the notes they
      play: the writer has no choice left. */
  lemma PlayedEventsAreSchedule(events: seq<Event>)
    requires StrictlyOrdered(events) && PlayAll(SILENCE, events).Some?
    requires PlayAll(SILENCE, events).value.active == map[]
    ensures var notes := PlayAll(SILENCE, events).value.notes;
      ValidNotes(notes) && events == Schedule(notes)
  {
    hide PlayAll, ValidNotes, Schedule;
    var notes := PlayAll(SILENCE, events).value.notes;
    PlayedNotesAreValid(events);
    ScheduleIsStrict(notes);
    forall e ensures e in events <==> e in Schedule(notes) {
      EventsAreExplained(events, e);
    }
    DistinctMultiset(events, Schedule(notes));
    EventOrder();
    SortedIsUnique(EventLeq, events, Schedule(notes));
  }
}
