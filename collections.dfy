/** Small facts about Dafny's finite collections shared by the models. */
module Collections {

  /** A non-empty set has an element; lets a loop pick the next key of a map it walks. */
  lemma HasElement<K>(s: set<K>)
    requires s != {}
    ensures exists k :: k in s
  {
    assert (forall k :: k !in s) ==> s == {};
  }

  /** A non-empty sequence is its front followed by its last element. */
  lemma FrontLast<T>(s: seq<T>)
    requires |s| >= 1
    ensures s[..|s| - 1] + [s[|s| - 1]] == s
  {
  }

  /** Appending a non-empty sequence is appending its front and then its last element. */
  lemma AppendFrontLast<T>(a: seq<T>, w: seq<T>)
    requires |w| >= 1
    ensures a + w[..|w| - 1] + [w[|w| - 1]] == a + w
  {
    FrontLast(w);
    assert a + (w[..|w| - 1] + [w[|w| - 1]]) == a + w;
  }
}
