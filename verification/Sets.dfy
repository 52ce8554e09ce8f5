/** Facts about finite sets of IDs that the loops over Go maps need. */
module Sets {

  lemma HasMember(s: set<int>)
    requires s != {}
    ensures exists x :: x in s
  {
    assert (forall x :: x !in s) ==> s == {};
  }

  lemma SameMembers(a: set<int>, b: set<int>)
    requires forall x :: x in a <==> x in b
    ensures a == b
  {
    assert (forall x :: x in a <==> x in b) ==> a == b;
  }
}
