/**
  A way to carry a large fact without unfolding it. A predicate whose body is
  `forall z {:trigger Peek(z)} :: Peek(z) ==> Fact` is passed from state to state as one atom; the
  lemmas that need its content write `assert Peek(0)`. Logically it is the same as `Fact`.
*/
module Sealing {
  ghost predicate Peek(z: int) { true }

  /** The same for the invariant of a class, so that it can be opened without opening its parts. */
  ghost predicate Look(z: int) { true }
}
