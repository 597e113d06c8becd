/** Generic facts about sequences shared by the filters of the model. */
module Sequences {

  /** `r` can be obtained from `s` by deleting elements, keeping their order. */
  predicate Subsequence<T(==)>(r: seq<T>, s: seq<T>)
    decreases |s|
  {
    if r == [] then true
    else if s == [] then false
    else if r[0] == s[0] then Subsequence(r[1..], s[1..])
    else Subsequence(r, s[1..])
  }
}
