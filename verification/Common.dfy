/** Small types shared by the components. */
module Common {
  datatype Option<+T> = None | Some(value: T)

  datatype Result<+T, +E> = Ok(value: T) | Err(error: E)

  lemma HasMember(p: set<int>)
    requires p != {}
    ensures exists x :: x in p
  {
    assert (forall x :: x !in p) ==> p == {};
  }

  ghost predicate Ascending(s: seq<nat>) {
    forall i, j :: 0 <= i < j < |s| ==> s[i] < s[j]
  }
}
