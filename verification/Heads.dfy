/** The server's two mutable heads, profile and vault: one row each, replaced by compare-and-set. */
module Heads {
  import opened Prelude

  type BlobId = string

  datatype BlobRef = BlobRef(id: BlobId, size: nat)

  datatype Head = Head(blob: BlobRef, generation: int)

  datatype HeadError =
    | Unregistered(id: BlobId)
    | WrongSize(declared: nat, registered: nat)
    | Moved(expected: Option<int>, actual: Option<int>)

  /** The generation a writer must name: none while there is no head. */
  function Generation(row: Option<Head>): Option<int> {
    if row.None? then None else Some(row.value.generation)
  }

  /** Writes counted so far; a missing head is the zeroth. */
  function Count(row: Option<Head>): int {
    if row.None? then 0 else row.value.generation
  }

  class HeadTable {
    var registered: map<BlobId, nat>
    var row: Option<Head>
    /** Every head ever stored, oldest first. */
    ghost var past: seq<Head>

    /** The current row is the newest head, and head k carries generation k + 1. */
    ghost predicate Valid()
      reads this
    {
      && (forall k | 0 <= k < |past| :: past[k].generation == k + 1)
      && row == (if past == [] then None else Some(past[|past| - 1]))
    }

    constructor ()
      ensures Valid() && past == [] && registered == map[]
    {
      registered, row, past := map[], None, [];
    }

    method Register(blob: BlobRef)
      requires Valid()
      modifies this`registered
      ensures Valid() && registered == old(registered)[blob.id := blob.size]
    {
      registered := registered[blob.id := blob.size];
    }

    /**
      * Accepts a write exactly when it names the current generation and a registered blob; the
      * history then grows by one head, and otherwise nothing changes.
      */
    method Write(blob: BlobRef, expected: Option<int>) returns (r: Result<Head, HeadError>)
      requires Valid()
      modifies this`row, this`past
      ensures Valid()
      ensures r.Ok? <==>
                && Get(old(registered), blob.id) == Some(blob.size)
                && expected == (if old(past) == [] then None else Some(|old(past)|))
      ensures r.Ok? ==> r.value == Head(blob, |old(past)| + 1) && past == old(past) + [r.value]
      ensures r.Err? ==> past == old(past)
      ensures r.Err? && r.error.Moved? ==> r.error == Moved(expected, Generation(row))
      ensures r.Err? && r.error.Unregistered? ==> blob.id !in registered
      ensures r.Err? && r.error.WrongSize? ==> Get(registered, blob.id) == Some(r.error.registered) != Some(blob.size)
    {
      if blob.id !in registered { return Err(Unregistered(blob.id)); }
      if registered[blob.id] != blob.size { return Err(WrongSize(blob.size, registered[blob.id])); }
      var generation := if expected.None? then 1 else expected.value + 1;
      var updated: Option<Head> := None;
      if expected.None? {
        if row.None? { updated := Some(Head(blob, generation)); }
      } else if row.Some? && row.value.generation == expected.value {
        updated := Some(Head(blob, generation));
      }
      if updated.None? { return Err(Moved(expected, Generation(row))); }
      row := updated;
      past := past + [updated.value];
      r := Ok(updated.value);
    }
  }
}
