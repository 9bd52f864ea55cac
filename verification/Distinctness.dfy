/** Growing a set of known values decides that a list repeats none. */
module Distinctness {
  predicate Distinct<T(==)>(values: seq<T>) {
    forall i, j :: 0 <= i < j < |values| ==> values[i] != values[j]
  }

  ghost predicate SetOf<T(!new)>(known: set<T>, values: seq<T>) {
    forall x :: x in known <==> x in values
  }

  lemma NothingKnown<T(!new)>(values: seq<T>)
    ensures Distinct(values[..0]) && SetOf({}, values[..0])
  {
  }

  lemma RepeatedLater<T(!new)>(values: seq<T>, i: nat)
    requires i < |values| && values[i] in values[..i]
    ensures !Distinct(values)
  {
    var k :| 0 <= k < i && values[..i][k] == values[i];
    assert values[k] == values[i];
  }

  lemma DistinctOneMore<T(!new)>(values: seq<T>, x: T)
    requires Distinct(values)
    ensures Distinct(values + [x]) <==> x !in values
  {
    if x in values {
      var k :| 0 <= k < |values| && values[k] == x;
      assert (values + [x])[k] == (values + [x])[|values|];
    }
  }

  /** One insertion into the growing set: it fails exactly on a repetition. */
  lemma SetDecides<T(!new)>(known: set<T>, values: seq<T>, i: nat)
    requires i < |values| && SetOf(known, values[..i])
    ensures SetOf(known + {values[i]}, values[..i + 1])
    ensures values[i] in known ==> !Distinct(values)
    ensures values[i] !in known && Distinct(values[..i]) ==> Distinct(values[..i + 1])
  {
    assert values[..i + 1] == values[..i] + [values[i]];
    if values[i] in known {
      RepeatedLater(values, i);
    } else if Distinct(values[..i]) {
      DistinctOneMore(values[..i], values[i]);
    }
  }
}
