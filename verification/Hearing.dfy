/** Who has heard from whom, directly or through others, in a network of numbered nodes. */
module Hearing {

  /** At first each node has heard from itself. */
  function Selves(n: nat): seq<set<nat>> {
    seq(n, (i: nat) => {i})
  }

  ghost predicate FromAll(heard: set<nat>, n: nat) {
    forall k: nat :: k < n ==> k in heard
  }
}
