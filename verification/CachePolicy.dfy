/** What the replayed cache policies have in common. */
module CachePolicy {

  const MAX_EVICTION_STEPS: nat := 256

  /** How a key came to be offered: freshly published, or found by an exact reuse. */
  datatype Admission = Published | ExactReuse

  datatype Outcome = Outcome(evictions: nat, steps: nat, rejected: bool)

  const UNCHANGED: Outcome := Outcome(0, 0, false)

  ghost predicate Distinct<T>(s: seq<T>) {
    forall i, j :: 0 <= i < j < |s| ==> s[i] != s[j]
  }
}
