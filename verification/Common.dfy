/** Small shared vocabulary. */
module Common {

  datatype Option<+T> = None | Some(value: T)

  predicate NoDup<T(==)>(s: seq<T>) { forall i, j :: 0 <= i < j < |s| ==> s[i] != s[j] }

  /** The runs one after the other. */
  function Flat<T>(runs: seq<seq<T>>): seq<T> {
    if runs == [] then [] else Flat(runs[..|runs| - 1]) + runs[|runs| - 1]
  }

  lemma FlatSnoc<T>(runs: seq<seq<T>>, run: seq<T>)
    ensures Flat(runs + [run]) == Flat(runs) + run
  {
    assert (runs + [run])[..|runs|] == runs;
  }

  lemma FlatGrows<T>(runs: seq<seq<T>>, x: T)
    requires runs != []
    ensures var k := |runs| - 1; Flat(runs[..k] + [runs[k] + [x]]) == Flat(runs) + [x]
  {
    hide Flat;
    var k := |runs| - 1;
    var init, last := runs[..k], runs[k];
    assert runs == init + [last];
    FlatSnoc(init, last);
    FlatSnoc(init, last + [x]);
  }

  lemma FlatNothing<T>()
    ensures Flat<T>([]) == []
  {}
}
