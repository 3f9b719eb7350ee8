/** A map whose entries are rewritten one after another, in whatever order. */
module Walks {
  /** Halfway: the keys of `left` as they were, the others as they end up. */
  function Midway<K, V>(before: map<K, V>, after: map<K, V>, left: set<K>): map<K, V>
    requires after.Keys == before.Keys
  {
    map k | k in before :: if k in left then before[k] else after[k]
  }

  lemma Begins<K, V>(before: map<K, V>, after: map<K, V>)
    requires after.Keys == before.Keys
    ensures Midway(before, after, before.Keys) == before
  {}

  /** Rewriting one more entry is one more step. */
  lemma GoesOn<K, V>(before: map<K, V>, after: map<K, V>, left: set<K>, key: K)
    requires after.Keys == before.Keys && key in before && key in left
    ensures Midway(before, after, left)[key] == before[key]
    ensures Midway(before, after, left - {key}) == Midway(before, after, left)[key := after[key]]
  {}

  lemma Finishes<K, V>(before: map<K, V>, after: map<K, V>)
    requires after.Keys == before.Keys
    ensures Midway(before, after, {}) == after
  {}
}
