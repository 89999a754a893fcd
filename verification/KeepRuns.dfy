/** The runs of a list that a delta keeps, of whatever is listed. */
module KeepRuns {

  function Min(a: nat, b: nat): nat {
    if a < b then a else b
  }

  /** The next keep elements from the cursor, or those there are. */
  function RunAt<T>(list: seq<T>, cursor: nat, keep: nat): seq<T> {
    list[Min(cursor, |list|)..Min(cursor + keep, |list|)]
  }
}
