/** What the lists of several components have in common. */
module Lists {
  /** No element occurs twice. */
  ghost predicate Distinct<T>(list: seq<T>) { forall i, j :: 0 <= i < j < |list| ==> list[i] != list[j] }
}
