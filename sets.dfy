/** Facts about finite sets that the loops over set-valued key domains need. */
module Sets {

  /** A non-empty set has an element: the witness the `:|` choices over
      key sets need. */
  lemma HasElement<T>(s: set<T>)
    requires s != {}
    ensures exists x :: x in s
  {
  }

  /** The same for a set of integers, whose `:|` choices need the witness
      at type int. */
  lemma IntSetHasElement(s: set<int>)
    requires s != {}
    ensures exists x :: x in s
  {
    if forall x :: x !in s {
      assert false;
    }
  }
}
