/** What several modules need about options, sequences and sets. */
module Collections {
  datatype Option<T> = None | Some(value: T)

  ghost predicate NoRepeats(s: seq<nat>) {
    forall i, j :: 0 <= i < j < |s| ==> s[i] != s[j]
  }

  /** Some element of a set; nothing depends on which. */
  method AnyOf<T>(s: set<T>) returns (x: T)
    requires s != {}
    ensures x in s
  {
    x :| x in s;
  }
}
