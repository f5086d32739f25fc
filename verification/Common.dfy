/** Small shared types: options, 32-bit counts, and the "lowest identity" relation. */
module Common {

  datatype Option<+T> = None | Some(value: T)

  /** The unsigned 32-bit values of the program; its counts and member numbers. */
  type u32 = n: nat | n < 0x1_0000_0000

  /** Whether `o` is the least element of `ids`, or absent exactly when there is none. */
  ghost predicate IsEarliest(o: Option<nat>, ids: set<nat>) {
    match o
    case None => ids == {}
    case Some(x) => x in ids && forall y :: y in ids ==> x <= y
  }

  lemma EarliestUnique(a: Option<nat>, b: Option<nat>, ids: set<nat>)
    requires IsEarliest(a, ids) && IsEarliest(b, ids)
    ensures a == b
  {
  }

  /** The least of a running minimum and one more id. */
  function KeepEarliest(destination: Option<nat>, candidate: nat): (r: Option<nat>)
    ensures forall ids: set<nat> :: IsEarliest(destination, ids) ==> IsEarliest(r, ids + {candidate})
  {
    if destination.None? || candidate < destination.value then Some(candidate) else destination
  }

  /** Combining a running minimum with a second set's minimum gives the minimum of the union. */
  function KeepEarliestOf(destination: Option<nat>, candidate: nat, ghost left: set<nat>, ghost right: set<nat>):
    (r: Option<nat>)
    requires IsEarliest(destination, left) && IsEarliest(Some(candidate), right)
    ensures IsEarliest(r, left + right)
  {
    KeepEarliest(destination, candidate)
  }

  /** A source range, compared as a whole; no coordinate arithmetic is modelled. */
  datatype SourceRange = SourceRange(startLine: int, startColumn: int, endLine: int, endColumn: int)
}
