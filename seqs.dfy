/** Facts about sequences shared by the aggregator and the scanner. */
module Seqs {

  /** No element is listed twice. */
  predicate NoDuplicates<T(==)>(s: seq<T>)
  {
    forall i, j :: 0 <= i < j < |s| ==> s[i] != s[j]
  }
}
