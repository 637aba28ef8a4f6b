/**
 The set of test-case ids whose step breakdown is shown.
 */
module Expansion {

  /** `toggleTestCaseExpansion(id)`: remove `id` when present, add it when
      absent; every other id keeps its membership. */
  function Toggle(expanded: set<string>, id: string): (r: set<string>)
    ensures id in r <==> id !in expanded
    ensures forall x :: x != id ==> (x in r <==> x in expanded)
  {
    if id in expanded then expanded - {id} else expanded + {id}
  }

  /** Toggling the same id twice restores the set. */
  lemma ToggleTwice(expanded: set<string>, id: string)
    ensures Toggle(Toggle(expanded, id), id) == expanded
  {
  }

  /** Toggling two ids gives the same set in either order. */
  lemma TogglesCommute(expanded: set<string>, a: string, b: string)
    ensures Toggle(Toggle(expanded, a), b) == Toggle(Toggle(expanded, b), a)
  {
  }

  /** A toggle changes the set's size by exactly one. */
  lemma ToggleSize(expanded: set<string>, id: string)
    ensures |Toggle(expanded, id)| == if id in expanded then |expanded| - 1 else |expanded| + 1
  {
  }
}
