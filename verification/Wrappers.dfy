/** The result types shared by the models. */
module Wrappers {

  /** A nullable column or an optional field. */
  datatype Option<+T> = None | Some(value: T)

  /** The outcome of a transaction: committed with a value, or rolled back. */
  datatype Outcome<+T> = Committed(value: T) | RolledBack

  ghost predicate Distinct<T(!new)>(s: seq<T>) {
    forall i, j | 0 <= i < j < |s| :: s[i] != s[j]
  }

  lemma DistinctSnoc<T(!new)>(s: seq<T>, x: T)
    ensures Distinct(s + [x]) <==> Distinct(s) && x !in s
  {
    var t := s + [x];
    if Distinct(t) {
      assert forall i | 0 <= i < |s| :: t[i] == s[i];
      assert t[|s|] == x;
    }
  }
}
