/** The per-pitch sweep: comparing each note with the last end on its pitch decides
    whether all notes are pairwise disjoint. Shared by the analyzer adapter and the
    observation validator. */
module NoteSweep {
  import opened NotePairing

  predicate PairwiseApart(notes: seq<Note>) {
    forall i, j :: 0 <= i < j < |notes| ==> Apart(notes[i], notes[j])
  }

  ghost predicate EndsAt(notes: seq<Note>, k: nat, pitch: nat, end: nat)
    requires k <= |notes|
  {
    exists i :: 0 <= i < k && notes[i].pitch == pitch && notes[i].end == end
  }

  /** `last` gives, for each pitch, the end of some note behind position `k` and no less
      than any of them; zero where there is none. */
  ghost predicate LastEnds(last: nat -> nat, notes: seq<Note>, k: nat)
    requires k <= |notes|
  {
    && (forall i :: 0 <= i < k ==> notes[i].end <= last(notes[i].pitch))
    && (forall p :: last(p) == 0 || EndsAt(notes, k, p, last(p)))
  }

  lemma LastEndsStart(last: nat -> nat, notes: seq<Note>)
    requires forall p :: last(p) == 0
    ensures LastEnds(last, notes, 0)
  {
  }

  lemma LastEndsGrow(last: nat -> nat, grown: nat -> nat, notes: seq<Note>, k: nat)
    requires k < |notes| && LastEnds(last, notes, k)
    requires last(notes[k].pitch) <= notes[k].end == grown(notes[k].pitch)
    requires forall p :: p != notes[k].pitch ==> grown(p) == last(p)
    ensures LastEnds(grown, notes, k + 1)
  {
    forall p ensures grown(p) == 0 || EndsAt(notes, k + 1, p, grown(p)) {
      if p != notes[k].pitch && last(p) != 0 {
        assert EndsAt(notes, k, p, last(p));
      }
    }
  }

  /** Against notes that started no later, the comparison decides disjointness. */
  lemma LastEndDecides(last: nat -> nat, notes: seq<Note>, k: nat)
    requires k < |notes| && LastEnds(last, notes, k)
    requires notes[k].start < notes[k].end
    requires forall i :: 0 <= i < k ==> notes[i].start <= notes[k].start
    ensures notes[k].start >= last(notes[k].pitch) <==> forall i :: 0 <= i < k ==> Apart(notes[i], notes[k])
  {
    var end := last(notes[k].pitch);
    if notes[k].start < end {
      assert EndsAt(notes, k, notes[k].pitch, end);
    }
  }
}
