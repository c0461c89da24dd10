/** Small facts about index sequences shared by the list filters. */
module Seqs {

  /** `idx` lists positions in strictly ascending order. */
  predicate Increasing(idx: seq<nat>) {
    forall a, b :: 0 <= a < b < |idx| ==> idx[a] < idx[b]
  }
}
