/** Facts about finite sets of row ids that the table scans rely on. */
module Sets {

  /** A set of ids is either empty or has a member to pick. */
  lemma EmptyOrMember(s: set<int>)
    ensures s == {} || exists x :: x in s
  {
    if !exists x :: x in s {
      assert forall x :: x in s <==> x in {};
    }
  }
}
