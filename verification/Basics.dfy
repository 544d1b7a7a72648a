/** What every part of the model shares. */
module Basics {

  datatype Option<+T> = None | Some(value: T)

  lemma EmptyIfMemberless(s: set<int>)
    ensures (forall id :: id !in s) ==> s == {}
  {
    if forall id :: id !in s { assert s == {}; }
  }

  /** A loop over a set, in any order, can always pick the next member. */
  lemma SomeMember(s: set<int>)
    requires s != {}
    ensures exists id :: id in s
  {
    EmptyIfMemberless(s);
  }
}
