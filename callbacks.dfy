/** The process-wide callback handle table of `js/src/index.ts` (`handleToJsFuncMap` and the
    `_call_js` import through which the foreign engine calls back into the host). */
module Callbacks {
  import opened Wrappers

  /** A host closure, known by its identity: that it is called is observed, what it does is not
      part of this model. */
  datatype Callback = Callback(id: nat)

  /** The handle the engine answers with when a callback registration fails. */
  const NullHandle: nat := 0

  /** `handleToJsFuncMap.get(handle)` followed by the missing-handle check of `_call_js`. */
  function Lookup(entries: map<nat, Callback>, handle: nat): (r: Result<Callback>)
    ensures r.Ok? <==> handle in entries
    ensures r.Ok? ==> r.value == entries[handle]
    ensures r.Err? ==> r.error == NoSuchHandle
  {
    if handle in entries then Ok(entries[handle]) else Err(NoSuchHandle)
  }

  /** The reserved handle is never found in a table that only `Set` has filled. */
  lemma ReservedHandleUnknown(entries: map<nat, Callback>)
    requires NullHandle !in entries
    ensures Lookup(entries, NullHandle) == Err(NoSuchHandle)
  {
  }

  /** `handleToJsFuncMap`: one table shared by every dialogue context of the process. */
  class CallbackTable {
    var entries: map<nat, Callback>
    /** The host closures called through `_call_js`, in order. */
    ghost var invoked: seq<Callback>

    ghost predicate Valid()
      reads this
    {
      NullHandle !in entries
    }

    constructor ()
      ensures Valid() && entries == map[] && invoked == []
    {
      entries := map[];
      invoked := [];
    }

    /** `handleToJsFuncMap.set(handle, cb)`: adds the entry or overwrites the one for the same
        handle. Only non-reserved handles reach it. */
    method Set(handle: nat, cb: Callback)
      requires Valid() && handle != NullHandle
      modifies this
      ensures Valid()
      ensures entries == old(entries)[handle := cb] && invoked == old(invoked)
    {
      entries := entries[handle := cb];
    }

    /** `_call_js(handle)`: throws for an unknown handle, otherwise calls exactly the stored
        closure. */
    method CallJs(handle: nat) returns (r: Result<()>)
      requires Valid()
      modifies this
      ensures Valid() && entries == old(entries)
      ensures r.Err? <==> handle !in entries
      ensures r.Err? ==> r.error == NoSuchHandle && invoked == old(invoked)
      ensures r.Ok? ==> invoked == old(invoked) + [entries[handle]]
    {
      var jsFunc := Lookup(entries, handle);
      if jsFunc.Err? {
        return Err(jsFunc.error);
      }
      invoked := invoked + [jsFunc.value];
      r := Ok(());
    }
  }
}
