/** Facts that proofs open only where they need them. The invariants of some components are
    conjunctions of quantifiers that feed each other; with all of them in the context of every
    method the solver gets lost. Such an invariant P() is stated as

        forall i {:trigger Unsealed(F, i)} :: Unsealed(F, i) ==> P()

    which says the same as P(), because Unsealed is always true, but tells the solver nothing
    until a proof mentions Unsealed(F, i) for some number: `assert Unsealed(F, 0);` opens it.
    A fact that is only passed on stays closed. F says which invariant it is. */
module Sealing {
  datatype Fact =
    | Coherence | Linkage | Consistency | Drafting | Conversion | BothHalves
    | Upkeep | Indexing | Handling | Peering | Telling | Reading

  ghost predicate Unsealed(fact: Fact, i: int) { true }
}
