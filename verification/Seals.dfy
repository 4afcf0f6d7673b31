/** Conditions that are kept closed until a proof opens them. */
module Seals {

  /** Always true. A condition stated under `Open(k)` for all `k` stays closed to the verifier
      until some proof names `Open(0)`; this keeps the large invariants out of small proofs. */
  ghost predicate Open(k: nat) {
    k >= 0
  }

  /** Always true, too: a key that fits one lock only. */
  ghost predicate Key(lock: nat, k: nat) {
    k >= 0
  }

  /** A closed condition is a `Seal`, not a boolean, so that it is proved as a whole or not at all. */
  datatype Seal = Kept | Broken
}
