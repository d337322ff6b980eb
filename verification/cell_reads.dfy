/** What a thread sees of a shared cell that others write while it tries to protect its content. */
module CellReads {

  /** The cell shows these contents in turn and then keeps the last. */
  function Look<T>(seen: seq<T>, i: nat): T
    requires seen != []
  {
    if i < |seen| then seen[i] else seen[|seen| - 1]
  }

  /** Where protect stops: at the first null, or the first content that the next read confirms. */
  function Stop<T(==)>(seen: seq<T>, none: T): (k: nat)
    requires seen != []
    ensures k < |seen| && (seen[k] == none || Look(seen, k + 1) == seen[k])
    ensures forall j :: 0 <= j < k ==> seen[j] != none && seen[j + 1] != seen[j]
  {
    if seen[0] == none || Look(seen, 1) == seen[0] then 0 else 1 + Stop(seen[1..], none)
  }

  /** There is no other such place. */
  lemma StopHere<T>(seen: seq<T>, none: T, k: nat)
    requires k < |seen| && (seen[k] == none || Look(seen, k + 1) == seen[k])
    requires forall j :: 0 <= j < k ==> seen[j] != none && seen[j + 1] != seen[j]
    ensures Stop(seen, none) == k
  {
  }
}
