/** How one call to a store ends, as its caller and the store see it. */
module Calls {
  /** Answered; failed without effect; or failed although it took effect. */
  datatype Call = Answered | Lost | Unanswered

  predicate AllAnswered(fates: seq<Call>) { forall c :: c in fates ==> c.Answered? }

  /** Every call but the `k`-th is answered. */
  predicate OnlyFails(fates: seq<Call>, k: nat) {
    k < |fates| && !fates[k].Answered? && forall i :: 0 <= i < |fates| && i != k ==> fates[i].Answered?
  }
}
