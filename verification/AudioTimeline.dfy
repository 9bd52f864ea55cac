/** The timeline loop of `AudioAnalysis::validate` in src/audio_analysis.rs: checks of
    neighbouring events that decide facts about all pairs of events. */
module AudioTimeline {

  const MAXIMUM_ITEMS := 10_000
  const MAXIMUM_TOKEN := 256

  datatype Kind = Markers | DisjointRegions | OverlappingRegions

  /** An event's identity and its half-open range of sample frames. */
  datatype Event = Event(id: string, start: nat, end: nat)

  // -------------------------------------------------------------------------- order

  /** `token`: a lowercase ASCII identifier. */
  predicate ValidToken(id: string) {
    && 0 < |id| <= MAXIMUM_TOKEN
    && 'a' <= id[0] <= 'z'
    && forall i :: 0 <= i < |id| ==> 'a' <= id[i] <= 'z' || '0' <= id[i] <= '9' || id[i] in ".-_"
  }

  /** Lexicographic order of strings. */
  predicate TextLess(a: string, b: string)
    decreases |a|
  {
    if b == "" then false
    else if a == "" then true
    else a[0] < b[0] || (a[0] == b[0] && TextLess(a[1..], b[1..]))
  }

  /** Lexicographic order of (start, end, id). */
  predicate Precedes(a: Event, b: Event) {
    if a.start != b.start then a.start < b.start
    else if a.end != b.end then a.end < b.end
    else TextLess(a.id, b.id)
  }

  lemma {:induction false} TextLessIsTransitive(a: string, b: string, c: string)
    requires TextLess(a, b) && TextLess(b, c)
    ensures TextLess(a, c)
    decreases |a|
  {
    if a != "" && a[0] == b[0] == c[0] {
      TextLessIsTransitive(a[1..], b[1..], c[1..]);
    }
  }

  /** The first difference decides, and a beginning comes before what continues it. */
  ghost predicate FirstDifference(a: string, b: string, n: nat) {
    && n <= |a| && n <= |b| && a[..n] == b[..n]
    && n < |b| && (n == |a| || a[n] < b[n])
  }

  lemma SameHead(a: string, b: string, n: nat)
    ensures FirstDifference(a, b, n) && n > 0 ==> a[0] == b[0]
  {
    if FirstDifference(a, b, n) && n > 0 {
      assert a[..n][0] == a[0] && b[..n][0] == b[0];
    }
  }

  lemma {:induction false} TextLessMeans(a: string, b: string)
    ensures TextLess(a, b) <==> exists n: nat :: FirstDifference(a, b, n)
    decreases |a|
  {
    if b != "" && a != "" && a[0] == b[0] {
      TextLessMeans(a[1..], b[1..]);
      if TextLess(a[1..], b[1..]) {
        var n: nat :| FirstDifference(a[1..], b[1..], n);
        assert a[..n + 1] == [a[0]] + a[1..][..n] && b[..n + 1] == [b[0]] + b[1..][..n];
        assert FirstDifference(a, b, n + 1);
      }
      if n: nat :| FirstDifference(a, b, n) {
        assert n > 0;
        assert a[1..][..n - 1] == a[..n][1..] && b[1..][..n - 1] == b[..n][1..];
        assert FirstDifference(a[1..], b[1..], n - 1);
      }
    } else if b != "" && TextLess(a, b) {
      assert FirstDifference(a, b, 0);
    } else if b != "" && a != "" {
      forall n: nat ensures FirstDifference(a, b, n) ==> n == 0 {
        SameHead(a, b, n);
      }
    }
  }

  lemma PrecedesIsTransitive(a: Event, b: Event, c: Event)
    requires Precedes(a, b) && Precedes(b, c)
    ensures Precedes(a, c)
  {
    hide TextLess;
    if a.start == b.start == c.start && a.end == b.end == c.end {
      TextLessIsTransitive(a.id, b.id, c.id);
    }
  }

  // --------------------------------------------------------------------- validation

  predicate InSource(e: Event, frameCount: nat) {
    e.start < e.end <= frameCount
  }

  /** What one event must satisfy by itself. */
  predicate Admissible(e: Event, kind: Kind, frameCount: nat) {
    && ValidToken(e.id)
    && InSource(e, frameCount)
    && (kind == Markers ==> e.end - e.start == 1)
  }

  /** A valid timeline, stated over all pairs: fresh distinct identifiers, strict order,
      and, unless overlap is declared, each event over before any later one starts. */
  predicate ValidTimeline(events: seq<Event>, kind: Kind, frameCount: nat, known: set<string>) {
    && 0 < |events| <= MAXIMUM_ITEMS
    && (forall i :: 0 <= i < |events| ==> Admissible(events[i], kind, frameCount) && events[i].id !in known)
    && (forall i, j :: 0 <= i < j < |events| ==> events[i].id != events[j].id)
    && (forall i, j :: 0 <= i < j < |events| ==> Precedes(events[i], events[j]))
    && (kind != OverlappingRegions ==> forall i, j :: 0 <= i < j < |events| ==> events[i].end <= events[j].start)
  }

  /** The same, spelled out. */
  lemma TimelineSays(events: seq<Event>, kind: Kind, frameCount: nat, known: set<string>)
    ensures ValidTimeline(events, kind, frameCount, known) <==>
      && 1 <= |events| <= 10_000
      && (forall i :: 0 <= i < |events| ==>
            && 1 <= |events[i].id| <= 256 && 'a' <= events[i].id[0] <= 'z'
            && (forall j :: 0 <= j < |events[i].id| ==>
                  || 'a' <= events[i].id[j] <= 'z' || '0' <= events[i].id[j] <= '9' || events[i].id[j] in ".-_")
            && events[i].id !in known && events[i].start < events[i].end <= frameCount
            && (kind == Markers ==> events[i].end == events[i].start + 1))
      && (forall i, j :: 0 <= i < j < |events| ==>
            && events[i].id != events[j].id
            && (events[i].start < events[j].start
                || (events[i].start == events[j].start
                    && (events[i].end < events[j].end
                        || (events[i].end == events[j].end && TextLess(events[i].id, events[j].id)))))
            && (kind != OverlappingRegions ==> events[i].end <= events[j].start))
  {
    hide TextLess;
  }

  function Ids(events: seq<Event>): set<string> {
    set e | e in events :: e.id
  }

  function KnownAfter(events: seq<Event>, k: nat, known: set<string>): set<string>
    requires k <= |events|
  {
    known + Ids(events[..k])
  }

  /** The first `k` events satisfy everything a timeline asks of them. */
  predicate Passed(events: seq<Event>, k: nat, kind: Kind, frameCount: nat, known: set<string>)
    requires k <= |events|
  {
    && (forall i :: 0 <= i < k ==> Admissible(events[i], kind, frameCount) && events[i].id !in known)
    && (forall i, j :: 0 <= i < j < k ==> events[i].id != events[j].id && Precedes(events[i], events[j]))
    && (kind != OverlappingRegions ==> forall i, j :: 0 <= i < j < k ==> events[i].end <= events[j].start)
  }

  /** Comparing an event with its neighbour decides its relation to all before it. */
  lemma PassedOneMore(events: seq<Event>, k: nat, kind: Kind, frameCount: nat, known: set<string>)
    requires k < |events| && Passed(events, k, kind, frameCount, known)
    ensures Passed(events, k + 1, kind, frameCount, known) <==>
      && Admissible(events[k], kind, frameCount)
      && events[k].id !in KnownAfter(events, k, known)
      && (k > 0 ==> Precedes(events[k - 1], events[k]))
      && (k > 0 && kind != OverlappingRegions ==> events[k - 1].end <= events[k].start)
  {
    hide Admissible, Precedes, Ids;
    IdIsFresh(events, k);
    if k > 0 && Precedes(events[k - 1], events[k]) {
      OrderReaches(events, k);
    }
    if k > 0 && kind != OverlappingRegions && events[k - 1].end <= events[k].start {
      EndsReach(events, k, kind, frameCount);
    }
  }

  lemma IdIsFresh(events: seq<Event>, k: nat)
    requires k < |events|
    ensures events[k].id !in Ids(events[..k]) <==> forall i :: 0 <= i < k ==> events[i].id != events[k].id
  {
    forall i | 0 <= i < k ensures events[i].id in Ids(events[..k]) {
      assert events[..k][i] in events[..k];
    }
  }

  lemma OrderReaches(events: seq<Event>, k: nat)
    requires 0 < k < |events| && Precedes(events[k - 1], events[k])
    requires forall i :: 0 <= i < k - 1 ==> Precedes(events[i], events[k - 1])
    ensures forall i :: 0 <= i < k ==> Precedes(events[i], events[k])
  {
    hide Precedes;
    forall i | 0 <= i < k - 1 ensures Precedes(events[i], events[k]) {
      PrecedesIsTransitive(events[i], events[k - 1], events[k]);
    }
  }

  lemma EndsReach(events: seq<Event>, k: nat, kind: Kind, frameCount: nat)
    requires 0 < k < |events| && events[k - 1].end <= events[k].start
    requires Admissible(events[k - 1], kind, frameCount)
    requires forall i :: 0 <= i < k - 1 ==> events[i].end <= events[k - 1].start
    ensures forall i :: 0 <= i < k ==> events[i].end <= events[k].start
  {
  }

  lemma ValidPasses(events: seq<Event>, k: nat, kind: Kind, frameCount: nat, known: set<string>)
    requires k <= |events|
    ensures ValidTimeline(events, kind, frameCount, known) ==> Passed(events, k, kind, frameCount, known)
    ensures 0 < |events| <= MAXIMUM_ITEMS && Passed(events, |events|, kind, frameCount, known) ==>
      ValidTimeline(events, kind, frameCount, known)
  {
    hide Admissible, Precedes;
  }

  /** The loop over one timeline's events: a growing set of identifiers and the previous
      event. Labels and provenance are checked elsewhere. */
  method ValidateTimeline(events: seq<Event>, kind: Kind, frameCount: nat, known: set<string>)
    returns (ok: bool, ids: set<string>)
    ensures ok <==> ValidTimeline(events, kind, frameCount, known)
    ensures ok ==> ids == known + Ids(events)
  {
    ids := known;
    if events == [] || |events| > MAXIMUM_ITEMS {
      return false, ids;
    }
    hide ValidToken, Precedes, Passed, ValidTimeline, Ids, KnownAfter;
    NothingPassed(events, kind, frameCount, known);
    for k := 0 to |events|
      invariant ids == KnownAfter(events, k, known)
      invariant Passed(events, k, kind, frameCount, known)
    {
      PassedOneMore(events, k, kind, frameCount, known);
      ValidPasses(events, k + 1, kind, frameCount, known);
      var event := events[k];
      if !ValidToken(event.id) || event.id in ids {
        return false, ids;
      }
      IdsOneMore(events, k, known);
      ids := ids + {event.id};
      if event.start >= event.end || event.end > frameCount {
        return false, ids;
      }
      if kind == Markers && event.end - event.start != 1 {
        return false, ids;
      }
      if k > 0 {
        var prior := events[k - 1];
        if !Precedes(prior, event) {
          return false, ids;
        }
        if kind != OverlappingRegions && event.start < prior.end {
          return false, ids;
        }
      }
    }
    AllKnown(events, known);
    ValidPasses(events, |events|, kind, frameCount, known);
    return true, ids;
  }

  lemma NothingPassed(events: seq<Event>, kind: Kind, frameCount: nat, known: set<string>)
    ensures Passed(events, 0, kind, frameCount, known) && KnownAfter(events, 0, known) == known
  {
  }

  lemma AllKnown(events: seq<Event>, known: set<string>)
    ensures KnownAfter(events, |events|, known) == known + Ids(events)
  {
    assert events[..|events|] == events;
  }

  lemma IdsOneMore(events: seq<Event>, k: nat, known: set<string>)
    requires k < |events|
    ensures KnownAfter(events, k + 1, known) == KnownAfter(events, k, known) + {events[k].id}
  {
    assert events[..k + 1] == events[..k] + [events[k]];
  }

  // -------------------------------------------------------------------------- facts

  function TotalLength(events: seq<Event>): int {
    if events == [] then 0
    else TotalLength(events[..|events| - 1]) + (events[|events| - 1].end - events[|events| - 1].start)
  }

  predicate Covers(e: Event, frame: nat) {
    e.start <= frame < e.end
  }

  lemma {:induction false} DisjointLengths(events: seq<Event>)
    requires forall i :: 0 <= i < |events| ==> events[i].start < events[i].end
    requires forall i, j :: 0 <= i < j < |events| ==> events[i].end <= events[j].start
    ensures |events| <= TotalLength(events)
    ensures TotalLength(events) <= if events == [] then 0 else events[|events| - 1].end
    decreases |events|
  {
    if events != [] {
      DisjointLengths(events[..|events| - 1]);
    }
  }

  /** Marker and disjoint timelines cover no frame twice, and no more frames than the
      source has: they have at most that many events. */
  lemma DisjointTimelineFits(events: seq<Event>, kind: Kind, frameCount: nat, known: set<string>)
    requires ValidTimeline(events, kind, frameCount, known) && kind != OverlappingRegions
    ensures |events| <= TotalLength(events) <= frameCount
    ensures forall i, j, frame: nat :: 0 <= i < j < |events| ==>
      !(Covers(events[i], frame) && Covers(events[j], frame))
    ensures kind == Markers ==> TotalLength(events) == |events|
  {
    hide ValidToken, Precedes;
    forall i | 0 <= i < |events| ensures events[i].start < events[i].end <= frameCount {
      assert Admissible(events[i], kind, frameCount);
    }
    DisjointLengths(events);
    if kind == Markers {
      forall i | 0 <= i < |events| ensures events[i].end - events[i].start == 1 {
        assert Admissible(events[i], kind, frameCount);
      }
      MarkerLengths(events);
    }
  }

  lemma {:induction false} MarkerLengths(events: seq<Event>)
    requires forall i :: 0 <= i < |events| ==> events[i].end - events[i].start == 1
    ensures TotalLength(events) == |events|
    decreases |events|
  {
    if events != [] {
      MarkerLengths(events[..|events| - 1]);
    }
  }
}
