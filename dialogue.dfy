/** `makeDialogueContext` and the dialogue context object of `js/src/index.ts`: the host side of
    one running dialogue, with its step-result slot, its cache of marshalled strings and the
    foreign engine handle it drives. */
module Dialogue {
  import opened Wrappers
  import opened Bytes
  import opened Utf8
  import opened Wasm
  import opened Wire
  import opened Callbacks
  import opened Native

  /** One entry of `stringTable`: a host string and the wasm string holding its bytes. */
  datatype CacheEntry = CacheEntry(key: string, str: WasmStr)

  /** `stringTable.get(key)`; the table is kept in insertion order, as a `Map` iterates. */
  function Get(table: seq<CacheEntry>, key: string): (r: Option<WasmStr>)
    ensures r.None? <==> forall i :: 0 <= i < |table| ==> table[i].key != key
    ensures r.Some? ==> exists i :: 0 <= i < |table| && table[i].key == key && table[i].str == r.value
  {
    if table == [] then None
    else if table[0].key == key then Some(table[0].str)
    else Get(table[1..], key)
  }

  predicate DistinctKeys(table: seq<CacheEntry>)
  {
    forall i, j :: 0 <= i < j < |table| ==> table[i].key != table[j].key
  }

  /** With distinct keys, every entry is what `get` finds for its key. */
  lemma GetEntry(table: seq<CacheEntry>, i: nat)
    requires DistinctKeys(table) && i < |table|
    ensures Get(table, table[i].key) == Some(table[i].str)
  {
  }

  /** `stringTable.set(key, w)` for a key not yet present appends at the end and leaves every
      other lookup as it was. */
  lemma {:induction false} GetAppend(table: seq<CacheEntry>, e: CacheEntry, key: string)
    requires Get(table, e.key).None?
    ensures Get(table + [e], key) == (if key == e.key then Some(e.str) else Get(table, key))
  {
    if table != [] {
      assert (table + [e])[1..] == table[1..] + [e];
      GetAppend(table[1..], e, key);
    }
  }

  /** The entry `set` adds for `s` when `get` misses. */
  function Added(table: seq<CacheEntry>, s: string, w: WasmStr): (added: seq<CacheEntry>)
  {
    if Get(table, s).None? then [CacheEntry(s, w)] else []
  }

  function Ptrs(table: seq<CacheEntry>): (ptrs: set<nat>)
  {
    set e | e in table :: e.str.ptr
  }

  /** The regions `dispose` frees for the cached strings, in the map's iteration order. */
  function FreesOf(table: seq<CacheEntry>): (r: seq<Region>)
    ensures |r| == |table|
    ensures forall i :: 0 <= i < |table| ==> r[i] == Region(table[i].str.ptr, table[i].str.len)
  {
    if table == [] then [] else [Region(table[0].str.ptr, table[0].str.len)] + FreesOf(table[1..])
  }

  /** The entry's wasm string is live, has its own length and holds the key's UTF-8 bytes; its
      value is the key as `TextDecoder` reads it back. */
  ghost predicate EntryStored(e: CacheEntry, buffer: seq<byte>, live: map<nat, nat>)
  {
    && e.str.value == StripBom(e.key) && e.str.len == |Encode(e.key)|
    && e.str.ptr in live && live[e.str.ptr] == e.str.len
    && e.str.ptr + e.str.len <= |buffer| && buffer[e.str.ptr..e.str.ptr + e.str.len] == Encode(e.key)
  }

  /** What the string cache keeps: distinct keys, each stored in its own live region, none of
      them the step-result slot. */
  ghost predicate TableFacts(table: seq<CacheEntry>, buffer: seq<byte>, live: map<nat, nat>, stepPtr: nat)
  {
    && DistinctKeys(table)
    && (forall i :: 0 <= i < |table| ==> EntryStored(table[i], buffer, live) && table[i].str.ptr != stepPtr)
    && DistinctPtrs(table)
  }

  /** `TableFacts`, entry by entry in insertion order: each entry was new when it was added. */
  ghost predicate TableStored(table: seq<CacheEntry>, buffer: seq<byte>, live: map<nat, nat>, stepPtr: nat)
  {
    table == [] ||
    (var rest, e := table[..|table| - 1], table[|table| - 1];
     && TableStored(rest, buffer, live, stepPtr)
     && EntryStored(e, buffer, live) && e.str.ptr != stepPtr
     && Get(rest, e.key).None? && e.str.ptr !in Ptrs(rest))
  }

  lemma {:induction false} TableStoredFacts(table: seq<CacheEntry>, buffer: seq<byte>, live: map<nat, nat>, stepPtr: nat)
    requires TableStored(table, buffer, live, stepPtr)
    ensures TableFacts(table, buffer, live, stepPtr)
  {
    if table != [] {
      var rest, e := table[..|table| - 1], table[|table| - 1];
      TableStoredFacts(rest, buffer, live, stepPtr);
      forall i | 0 <= i < |rest|
        ensures table[i] == rest[i] && rest[i].key != e.key && rest[i].str.ptr != e.str.ptr
      {
        assert rest[i] in rest;
      }
      assert DistinctKeys(table);
      assert DistinctPtrs(table);
    }
  }

  lemma {:induction false} TableFactsStored(table: seq<CacheEntry>, buffer: seq<byte>, live: map<nat, nat>, stepPtr: nat)
    requires TableFacts(table, buffer, live, stepPtr)
    ensures TableStored(table, buffer, live, stepPtr)
  {
    if table != [] {
      var rest, e := table[..|table| - 1], table[|table| - 1];
      assert forall i :: 0 <= i < |rest| ==> rest[i] == table[i];
      TableFactsStored(rest, buffer, live, stepPtr);
      PtrsAvoid(rest, e.str.ptr);
    }
  }

  /** A write confined to a region disjoint from every entry keeps the cache. */
  lemma TableKeptOutside(table: seq<CacheEntry>, a: seq<byte>, b: seq<byte>, live: map<nat, nat>, stepPtr: nat, p: nat, n: nat)
    requires TableStored(table, a, live, stepPtr) && AgreeOutside(a, b, p, n)
    requires forall i :: 0 <= i < |table| ==> Disjoint(p, n, table[i].str.ptr, table[i].str.len)
    ensures TableStored(table, b, live, stepPtr)
  {
    TableStoredFacts(table, a, live, stepPtr);
    forall i | 0 <= i < |table|
      ensures EntryStored(table[i], b, live)
    {
      var w := table[i].str;
      AgreeOutsideKeeps(a, b, p, n, w.ptr, w.len);
    }
    TableFactsStored(table, b, live, stepPtr);
  }

  /** Creating another context on the same memory keeps the cache: the regions it adds, and
      the JSON string it frees again, are disjoint from every region live before, and bytes
      change only inside two of them. */
  lemma TableKeptByCreate(table: seq<CacheEntry>, b0: seq<byte>, b1: seq<byte>, l0: map<nat, nat>, l1: map<nat, nat>, stepPtr: nat, p: nat, n: nat, q: nat, k: nat)
    requires TableStored(table, b0, l0, stepPtr) && LiveKept(l0, l1) && AgreeOutsideTwo(b0, b1, p, n, q, k)
    requires forall r :: r in l0 ==> Disjoint(p, n, r, l0[r]) && Disjoint(q, k, r, l0[r])
    ensures TableStored(table, b1, l1, stepPtr)
  {
    TableStoredFacts(table, b0, l0, stepPtr);
    forall i | 0 <= i < |table|
      ensures EntryStored(table[i], b1, l1)
    {
      var w := table[i].str;
      AgreeOutsideTwoKeeps(b0, b1, p, n, q, k, w.ptr, w.len);
    }
    TableFactsStored(table, b1, l1, stepPtr);
  }

  /** The cache survives allocations that keep every live region. */
  lemma TableKeptByGrowth(table: seq<CacheEntry>, buffer: seq<byte>, live: map<nat, nat>, live': map<nat, nat>, stepPtr: nat)
    requires TableStored(table, buffer, live, stepPtr)
    requires forall q :: q in live ==> q in live' && live'[q] == live[q]
    ensures TableStored(table, buffer, live', stepPtr)
  {
    TableStoredFacts(table, buffer, live, stepPtr);
    TableFactsStored(table, buffer, live', stepPtr);
  }

  /** Marshalling a string the cache does not hold yet and appending it keeps the cache. */
  lemma InternFresh(table: seq<CacheEntry>, b0: seq<byte>, b1: seq<byte>, l0: map<nat, nat>, l1: map<nat, nat>, stepPtr: nat, s: string, w: WasmStr)
    requires TableStored(table, b0, l0, stepPtr) && Get(table, s).None? && stepPtr in l0
    requires w.value == StripBom(s) && w.len == |Encode(s)|
    requires w.ptr !in l0 && l1 == l0[w.ptr := w.len]
    requires forall q :: q in l0 ==> Disjoint(w.ptr, w.len, q, l0[q])
    requires w.ptr + w.len <= |b1| && b1[w.ptr..w.ptr + w.len] == Encode(s)
    requires AgreeOutside(b0, b1, w.ptr, w.len)
    ensures TableStored(table + [CacheEntry(s, w)], b1, l1, stepPtr)
    ensures Get(table + [CacheEntry(s, w)], s) == Some(w)
    ensures Grown(table, table + [CacheEntry(s, w)], l0, l1, b0, b1)
  {
    TableStoredFacts(table, b0, l0, stepPtr);
    forall i | 0 <= i < |table|
      ensures Disjoint(w.ptr, w.len, table[i].str.ptr, table[i].str.len)
    {
      assert table[i].str.ptr in l0;
    }
    TableKeptOutside(table, b0, b1, l0, stepPtr, w.ptr, w.len);
    TableKeptByGrowth(table, b1, l0, l1, stepPtr);
    TableAppend(table, CacheEntry(s, w), b1, l1, stepPtr);
    GetAppend(table, CacheEntry(s, w), s);
    GrownByOne(table, CacheEntry(s, w), l0, l1, b0, b1);
  }

  /** An entry stored in a fresh region of its own, under a new key, extends the cache. */
  lemma TableAppend(table: seq<CacheEntry>, e: CacheEntry, buffer: seq<byte>, live: map<nat, nat>, stepPtr: nat)
    requires TableStored(table, buffer, live, stepPtr) && EntryStored(e, buffer, live) && e.str.ptr != stepPtr
    requires Get(table, e.key).None?
    requires forall i :: 0 <= i < |table| ==> table[i].str.ptr != e.str.ptr
    ensures TableStored(table + [e], buffer, live, stepPtr)
  {
    var t := table + [e];
    assert t[..|t| - 1] == table && t[|t| - 1] == e;
    PtrsAvoid(table, e.str.ptr);
  }

  /** A pointer no entry uses is not among the table's pointers. */
  lemma PtrsAvoid(table: seq<CacheEntry>, p: nat)
    requires forall i :: 0 <= i < |table| ==> table[i].str.ptr != p
    ensures p !in Ptrs(table)
  {
    forall x | x in table
      ensures x.str.ptr != p
    {
      var i :| 0 <= i < |table| && table[i] == x;
    }
  }

  lemma GrownByOne(table: seq<CacheEntry>, e: CacheEntry, l0: map<nat, nat>, l1: map<nat, nat>, b0: seq<byte>, b1: seq<byte>)
    requires e.str.len >= 0 && e.str.ptr !in l0 && l1 == l0[e.str.ptr := e.str.len]
    requires AgreeOutside(b0, b1, e.str.ptr, e.str.len)
    ensures Grown(table, table + [e], l0, l1, b0, b1)
  {
    var t := table + [e];
    assert t[..|table|] == table;
    assert t[|table|..] == [e];
    assert Ptrs([e]) == {e.str.ptr};
    assert l1.Keys == l0.Keys + {e.str.ptr};
  }

  /** A step's record written into the step-result slot keeps the cache, and the tag it reads
      back is the record's first byte. */
  lemma StepWriteKeepsTable(table: seq<CacheEntry>, b0: seq<byte>, b1: seq<byte>, live: map<nat, nat>, stepPtr: nat, record: seq<byte>)
    requires TableStored(table, b0, live, stepPtr) && RegionsDisjoint(live)
    requires stepPtr in live && live[stepPtr] == StepResultSize && |record| == StepResultSize
    requires stepPtr + StepResultSize <= |b0| && b1 == Overwrite(b0, stepPtr, record)
    ensures TableStored(table, b1, live, stepPtr)
    ensures AgreeOutside(b0, b1, stepPtr, StepResultSize)
    ensures b1[stepPtr] == record[0]
  {
    TableStoredFacts(table, b0, live, stepPtr);
    forall j | 0 <= j < |table|
      ensures Disjoint(stepPtr, StepResultSize, table[j].str.ptr, table[j].str.len)
    {
      assert table[j].str.ptr in live;
    }
    TableKeptOutside(table, b0, b1, live, stepPtr, stepPtr, StepResultSize);
    assert b1[stepPtr] == b1[stepPtr..stepPtr + StepResultSize][0];
  }

  /** The cache only grows, and memory gains a live region for each new entry and nothing else;
      no byte outside the new entries' regions changes. */
  ghost predicate Grown(t0: seq<CacheEntry>, t1: seq<CacheEntry>, l0: map<nat, nat>, l1: map<nat, nat>, b0: seq<byte>, b1: seq<byte>)
  {
    && |t0| <= |t1| && t1[..|t0|] == t0
    && (forall q :: q in l0 ==> q in l1 && l1[q] == l0[q])
    && l1.Keys == l0.Keys + Ptrs(t1[|t0|..])
    && KeptOutside(b0, b1, t1[|t0|..])
    && (t1 == t0 ==> b1 == b0)
  }

  /** Byte `i` lies in none of the entries' regions. */
  predicate OutsideEntries(i: nat, entries: seq<CacheEntry>)
  {
    forall j :: 0 <= j < |entries| ==> !(entries[j].str.ptr <= i < entries[j].str.ptr + entries[j].str.len)
  }

  /** `b1` extends `b0` and agrees with it on every byte outside the entries' regions. */
  ghost predicate KeptOutside(b0: seq<byte>, b1: seq<byte>, entries: seq<CacheEntry>)
  {
    |b0| <= |b1| && forall i :: 0 <= i < |b0| && OutsideEntries(i, entries) ==> b1[i] == b0[i]
  }

  lemma OutsideEntriesAppend(i: nat, a: seq<CacheEntry>, b: seq<CacheEntry>)
    requires OutsideEntries(i, a + b)
    ensures OutsideEntries(i, a) && OutsideEntries(i, b)
  {
    forall j | 0 <= j < |a|
      ensures !(a[j].str.ptr <= i < a[j].str.ptr + a[j].str.len)
    {
      assert (a + b)[j] == a[j];
    }
    forall j | 0 <= j < |b|
      ensures !(b[j].str.ptr <= i < b[j].str.ptr + b[j].str.len)
    {
      assert (a + b)[|a| + j] == b[j];
    }
  }

  lemma GrownTrans(t0: seq<CacheEntry>, t1: seq<CacheEntry>, t2: seq<CacheEntry>, l0: map<nat, nat>, l1: map<nat, nat>, l2: map<nat, nat>,
                   b0: seq<byte>, b1: seq<byte>, b2: seq<byte>)
    requires Grown(t0, t1, l0, l1, b0, b1) && Grown(t1, t2, l1, l2, b1, b2)
    ensures Grown(t0, t2, l0, l2, b0, b2)
  {
    assert t2[|t0|..] == t1[|t0|..] + t2[|t1|..];
    assert Ptrs(t2[|t0|..]) == Ptrs(t1[|t0|..]) + Ptrs(t2[|t1|..]);
    forall i | 0 <= i < |b0| && OutsideEntries(i, t2[|t0|..])
      ensures b2[i] == b0[i]
    {
      OutsideEntriesAppend(i, t1[|t0|..], t2[|t1|..]);
    }
  }

  /** The object `makeDialogueContext` returns. */
  class DialogueContext {
    const engine: Engine
    const mem: Memory
    const callbacks: CallbackTable
    /** `nativeDlgCtx`, the engine's handle. */
    const nativeCtx: nat
    /** `stepResultPtr`, the slot every step writes its StepResult into. */
    const stepResultPtr: nat
    /** `stringTable`. */
    var stringTable: seq<CacheEntry>

    ghost predicate Valid()
      reads this, engine, mem, callbacks
    {
      && engine.mem == mem && engine.Valid() && callbacks.Valid()
      && stepResultPtr in mem.live && mem.live[stepResultPtr] == StepResultSize
      && TableStored(stringTable, mem.buffer, mem.live, stepResultPtr)
    }

    constructor (engine: Engine, callbacks: CallbackTable, nativeCtx: nat, stepResultPtr: nat)
      requires engine.Valid() && callbacks.Valid()
      requires stepResultPtr in engine.mem.live && engine.mem.live[stepResultPtr] == StepResultSize
      ensures Valid() && stringTable == []
      ensures this.engine == engine && this.mem == engine.mem && this.callbacks == callbacks
      ensures this.nativeCtx == nativeCtx && this.stepResultPtr == stepResultPtr
    {
      this.engine := engine;
      this.mem := engine.mem;
      this.callbacks := callbacks;
      this.nativeCtx := nativeCtx;
      this.stepResultPtr := stepResultPtr;
      stringTable := [];
    }

    /** The lookup-or-marshal sequence that `setCallback`, `setVariableBoolean` and
        `setVariableString` each open with: a string is marshalled at most once per context. */
    method Intern(s: string) returns (w: WasmStr)
      requires Valid()
      modifies this, mem
      ensures Valid() && w.value == StripBom(s) && Get(stringTable, s) == Some(w)
      ensures stringTable == old(stringTable) + Added(old(stringTable), s, w)
      ensures Get(old(stringTable), s).Some? ==> Get(old(stringTable), s) == Some(w) && stringTable == old(stringTable)
      ensures Get(old(stringTable), s).None? ==> stringTable == old(stringTable) + [CacheEntry(s, w)]
      ensures Grown(old(stringTable), stringTable, old(mem.live), mem.live, old(mem.buffer), mem.buffer)
      ensures mem.frees == old(mem.frees)
    {
      var cached := Get(stringTable, s);
      if cached.Some? {
        TableStoredFacts(stringTable, mem.buffer, mem.live, stepResultPtr);
        w := cached.value;
        return;
      }
      w := InternNew(s);
    }

    /** The miss branch of the lookup-or-marshal (`wasmName === undefined`): marshal `s` and
        cache the new string. */
    method InternNew(s: string) returns (w: WasmStr)
      requires Valid() && Get(stringTable, s).None?
      modifies this, mem
      ensures Valid() && w.value == StripBom(s) && Get(stringTable, s) == Some(w)
      ensures stringTable == old(stringTable) + [CacheEntry(s, w)]
      ensures Grown(old(stringTable), stringTable, old(mem.live), mem.live, old(mem.buffer), mem.buffer)
      ensures mem.frees == old(mem.frees)
    {
      ghost var b0, l0 := mem.buffer, mem.live;
      w := MarshalString(mem, s);
      InternFresh(stringTable, b0, mem.buffer, l0, mem.live, stepResultPtr, s, w);
      stringTable := stringTable + [CacheEntry(s, w)];
    }

    /** `step()`: calls the engine's `step` until the result is not FunctionCalled. Each call
        first runs the callback the engine asks for; an unknown handle throws out of `step`. */
    method Step() returns (r: Result<StepResult>, ghost n: nat)
      requires Valid()
      modifies mem, engine, callbacks
      ensures Valid()
      ensures r.Ok? ==> !r.value.FunctionCalled?
      ensures 1 <= n <= LeadingCalls(old(engine.steps)) + 1
      ensures engine.calls == old(engine.calls) + Repeat(StepCall(nativeCtx, stepResultPtr), n)
      ensures engine.steps == Advance(old(engine.steps), n)
      ensures callbacks.invoked == old(callbacks.invoked) + Invoked(old(engine.steps), callbacks.entries, n)
      ensures CallsOk(old(engine.steps), callbacks.entries, n - 1)
      ensures var last := NextStep(Advance(old(engine.steps), n - 1));
              if CallOk(last, callbacks.entries) then
                && n == LeadingCalls(old(engine.steps)) + 1
                && mem.buffer[stepResultPtr..stepResultPtr + StepResultSize] == last.record
                && r == StepResultAt(mem.buffer, stepResultPtr)
              else r == Err(NoSuchHandle)
      ensures callbacks.entries == old(callbacks.entries)
      ensures mem.live == old(mem.live) && mem.frees == old(mem.frees) && |mem.buffer| == |old(mem.buffer)|
      ensures AgreeOutside(old(mem.buffer), mem.buffer, stepResultPtr, StepResultSize)
      ensures engine.callbackHandles == old(engine.callbackHandles)
    {
      ghost var steps0, calls0, invoked0, entries0 := engine.steps, engine.calls, callbacks.invoked, callbacks.entries;
      ghost var buffer0, live0, frees0 := mem.buffer, mem.live, mem.frees;
      ghost var k := LeadingCalls(steps0);
      var i: nat := 0;
      while true
        invariant Valid() && i <= k && LeadingCalls(engine.steps) == k - i
        invariant engine.calls == calls0 + Repeat(StepCall(nativeCtx, stepResultPtr), i)
        invariant engine.steps == Advance(steps0, i)
        invariant callbacks.invoked == invoked0 + Invoked(steps0, entries0, i)
        invariant CallsOk(steps0, entries0, i)
        invariant callbacks.entries == entries0
        invariant mem.live == live0 && mem.frees == frees0 && |mem.buffer| == |buffer0|
        invariant AgreeOutside(buffer0, mem.buffer, stepResultPtr, StepResultSize)
        invariant engine.callbackHandles == old(engine.callbackHandles)
        decreases k - i
      {
        ghost var before := engine.steps;
        var ok;
        ok, r := StepOnce();
        RunOneMore(steps0, entries0, calls0, invoked0, i, StepCall(nativeCtx, stepResultPtr));
        i := i + 1;
        if !ok {
          n := i;
          return;
        }
        if r != Ok(FunctionCalled) {
          AdvanceTerminal(before);
          n := i;
          return;
        }
        AdvanceFunctionCalled(before);
      }
    }

    /** One pass of the `do … while` in `step()`: the foreign `step`, then decoding the slot.
        `ok` is false when the callback the engine asked for made `_call_js` throw. */
    method StepOnce() returns (ok: bool, r: Result<StepResult>)
      requires Valid()
      modifies mem, engine, callbacks
      ensures Valid()
      ensures var next := NextStep(old(engine.steps));
              && engine.calls == old(engine.calls) + [StepCall(nativeCtx, stepResultPtr)]
              && engine.steps == Advance(old(engine.steps), 1)
              && callbacks.invoked == old(callbacks.invoked) + CallsMade(next, callbacks.entries)
              && (ok <==> CallOk(next, callbacks.entries))
              && (!ok ==> r == Err(NoSuchHandle))
              && (ok ==> && mem.buffer[stepResultPtr..stepResultPtr + StepResultSize] == next.record
                         && r == StepResultAt(mem.buffer, stepResultPtr)
                         && (r == Ok(FunctionCalled) <==> IsFunctionCalledRecord(next.record)))
      ensures callbacks.entries == old(callbacks.entries)
      ensures mem.live == old(mem.live) && mem.frees == old(mem.frees) && |mem.buffer| == |old(mem.buffer)|
      ensures AgreeOutside(old(mem.buffer), mem.buffer, stepResultPtr, StepResultSize)
      ensures engine.callbackHandles == old(engine.callbackHandles)
    {
      ghost var b0 := mem.buffer;
      ghost var next := NextStep(engine.steps);
      var stepped := engine.Step(nativeCtx, stepResultPtr, callbacks);
      if stepped.Err? {
        return false, Err(stepped.error);
      }
      StepWriteKeepsTable(stringTable, b0, mem.buffer, mem.live, stepResultPtr, next.record);
      ok := true;
      r := StepResultAt(mem.buffer, stepResultPtr);
    }

    /** `reset()`. */
    method Reset()
      requires Valid()
      modifies engine
      ensures Valid() && engine.calls == old(engine.calls) + [ResetCall(nativeCtx)]
      ensures engine.steps == old(engine.steps) && engine.callbackHandles == old(engine.callbackHandles)
    {
      engine.Reset(nativeCtx);
    }

    /** `reply(replyId)`. */
    method Reply(replyId: nat)
      requires Valid()
      modifies engine
      ensures Valid() && engine.calls == old(engine.calls) + [ReplyCall(nativeCtx, replyId)]
      ensures engine.steps == old(engine.steps) && engine.callbackHandles == old(engine.callbackHandles)
    {
      engine.Reply(nativeCtx, replyId);
    }

    /** `setCallback(name, cb)`: registers `cb` under the handle the engine answers with; the
        reserved handle 0 throws and leaves the callback table alone. */
    method SetCallback(name: string, cb: Callback) returns (r: Result<()>)
      requires Valid()
      modifies this, mem, engine, callbacks
      ensures Valid() && Get(stringTable, name).Some?
      ensures var w, h := Get(stringTable, name).value, (if old(engine.callbackHandles) == [] then NullHandle else old(engine.callbackHandles)[0]);
              && stringTable == old(stringTable) + Added(old(stringTable), name, w)
              && engine.calls == old(engine.calls) + [SetCallbackJsCall(nativeCtx, w.ptr, w.len)]
              && (r.Err? <==> h == NullHandle)
              && (r.Err? ==> r.error == InvalidCallbackHandle && callbacks.entries == old(callbacks.entries))
              && (r.Ok? ==> callbacks.entries == old(callbacks.entries)[h := cb])
      ensures Grown(old(stringTable), stringTable, old(mem.live), mem.live, old(mem.buffer), mem.buffer)
      ensures mem.frees == old(mem.frees) && callbacks.invoked == old(callbacks.invoked)
      ensures engine.steps == old(engine.steps)
      ensures engine.callbackHandles == (if old(engine.callbackHandles) == [] then [] else old(engine.callbackHandles)[1..])
    {
      var wasmName := Intern(name);
      var handle := engine.SetCallbackJs(nativeCtx, wasmName.ptr, wasmName.len);
      if handle == NullHandle {
        return Err(InvalidCallbackHandle);
      }
      callbacks.Set(handle, cb);
      r := Ok(());
    }

    /** `setVariableBoolean(name, value)`: passes the flag as 1 or 0. */
    method SetVariableBoolean(name: string, value: bool)
      requires Valid()
      modifies this, mem, engine
      ensures Valid() && Get(stringTable, name).Some?
      ensures var w := Get(stringTable, name).value;
              && stringTable == old(stringTable) + Added(old(stringTable), name, w)
              && engine.calls == old(engine.calls) + [SetVariableBooleanCall(nativeCtx, w.ptr, w.len, if value then 1 else 0)]
      ensures Grown(old(stringTable), stringTable, old(mem.live), mem.live, old(mem.buffer), mem.buffer)
      ensures mem.frees == old(mem.frees)
      ensures engine.steps == old(engine.steps) && engine.callbackHandles == old(engine.callbackHandles)
    {
      var wasmName := Intern(name);
      engine.SetVariableBoolean(nativeCtx, wasmName.ptr, wasmName.len, if value then 1 else 0);
    }

    /** `setVariableString(name, value)`: the name is looked up (and cached) before the value,
        and a value equal to the name shares its entry. */
    method SetVariableString(name: string, value: string)
      requires Valid()
      modifies this, mem, engine
      ensures Valid() && Get(stringTable, name).Some? && Get(stringTable, value).Some?
      ensures var wn, wv := Get(stringTable, name).value, Get(stringTable, value).value;
              var mid := old(stringTable) + Added(old(stringTable), name, wn);
              && stringTable == mid + Added(mid, value, wv)
              && engine.calls == old(engine.calls) + [SetVariableStringCall(nativeCtx, wn.ptr, wn.len, wv.ptr, wv.len)]
      ensures Grown(old(stringTable), stringTable, old(mem.live), mem.live, old(mem.buffer), mem.buffer)
      ensures mem.frees == old(mem.frees)
      ensures engine.steps == old(engine.steps) && engine.callbackHandles == old(engine.callbackHandles)
    {
      var wasmName, wasmValue := InternBoth(name, value);
      engine.SetVariableString(nativeCtx, wasmName.ptr, wasmName.len, wasmValue.ptr, wasmValue.len);
    }

    /** The two lookups-or-marshals of `setVariableString`, name first. */
    method InternBoth(name: string, value: string) returns (wn: WasmStr, wv: WasmStr)
      requires Valid()
      modifies this, mem
      ensures Valid() && Get(stringTable, name) == Some(wn) && Get(stringTable, value) == Some(wv)
      ensures var mid := old(stringTable) + Added(old(stringTable), name, wn);
              stringTable == mid + Added(mid, value, wv)
      ensures Grown(old(stringTable), stringTable, old(mem.live), mem.live, old(mem.buffer), mem.buffer)
      ensures mem.frees == old(mem.frees)
    {
      ghost var t0, l0, b0 := stringTable, mem.live, mem.buffer;
      wn := Intern(name);
      ghost var t1, l1, b1 := stringTable, mem.live, mem.buffer;
      wv := Intern(value);
      GrownTrans(t0, t1, stringTable, l0, l1, mem.live, b0, b1, mem.buffer);
      if Get(t1, value).None? {
        GetAppend(t1, CacheEntry(value, wv), name);
      } else {
        assert stringTable == t1;
      }
    }

    /** `dispose()`: frees the step-result slot, destroys the engine context, then frees every
        cached string in insertion order. */
    method Dispose()
      requires Valid()
      modifies mem, engine
      ensures mem.Valid() && mem.buffer == old(mem.buffer)
      ensures engine.calls == old(engine.calls) + [DestroyCall(nativeCtx)]
      ensures engine.steps == old(engine.steps) && engine.callbackHandles == old(engine.callbackHandles)
      ensures mem.frees == old(mem.frees) + [Region(stepResultPtr, StepResultSize)] + FreesOf(stringTable)
      ensures mem.live == old(mem.live) - ({stepResultPtr} + Ptrs(stringTable))
    {
      TableStoredFacts(stringTable, mem.buffer, mem.live, stepResultPtr);
      mem.Free(stepResultPtr, StepResultSize);
      engine.Destroy(nativeCtx);
      FreeStrings(mem, stringTable);
    }
  }

  /** Every entry's wasm string is live with its own length. */
  ghost predicate EntriesLive(table: seq<CacheEntry>, live: map<nat, nat>)
  {
    forall i :: 0 <= i < |table| ==> table[i].str.ptr in live && live[table[i].str.ptr] == table[i].str.len
  }

  predicate DistinctPtrs(table: seq<CacheEntry>)
  {
    forall i, j :: 0 <= i < j < |table| ==> table[i].str.ptr != table[j].str.ptr
  }

  /** The loop at the end of `dispose()`: `wasmStr.free()` for every cached string, in order. */
  method FreeStrings(mem: Memory, table: seq<CacheEntry>)
    requires mem.Valid() && EntriesLive(table, mem.live) && DistinctPtrs(table)
    modifies mem
    ensures mem.Valid() && mem.buffer == old(mem.buffer)
    ensures mem.frees == old(mem.frees) + FreesOf(table)
    ensures mem.live == old(mem.live) - Ptrs(table)
  {
    var i := 0;
    while i < |table|
      invariant 0 <= i <= |table| && mem.Valid() && mem.buffer == old(mem.buffer)
      invariant mem.frees == old(mem.frees) + FreesOf(table[..i])
      invariant forall q :: q in mem.live <==> q in old(mem.live) && q !in Ptrs(table[..i])
      invariant forall q :: q in mem.live ==> mem.live[q] == old(mem.live)[q]
    {
      FreeNext(table, i, old(mem.live), mem.live);
      FreeString(mem, table[i].str);
      FreesOfAppend(table[..i], table[i]);
      AppendAssoc(old(mem.frees), FreesOf(table[..i]), [Region(table[i].str.ptr, table[i].str.len)]);
      i := i + 1;
    }
    assert table[..i] == table;
  }

  /** While the cache is walked, the next entry's region is still live with its length. */
  lemma FreeNext(table: seq<CacheEntry>, i: nat, live0: map<nat, nat>, live: map<nat, nat>)
    requires EntriesLive(table, live0) && DistinctPtrs(table) && i < |table|
    requires forall q :: q in live <==> q in live0 && q !in Ptrs(table[..i])
    requires forall q :: q in live ==> live[q] == live0[q]
    ensures table[i].str.ptr in live && live[table[i].str.ptr] == table[i].str.len
    ensures table[..i + 1] == table[..i] + [table[i]]
    ensures Ptrs(table[..i + 1]) == Ptrs(table[..i]) + {table[i].str.ptr}
  {
    assert table[..i + 1] == table[..i] + [table[i]];
  }

  lemma {:induction false} FreesOfAppend(table: seq<CacheEntry>, e: CacheEntry)
    ensures FreesOf(table + [e]) == FreesOf(table) + [Region(e.str.ptr, e.str.len)]
  {
    if table != [] {
      assert (table + [e])[1..] == table[1..] + [e];
      FreesOfAppend(table[1..], e);
    }
  }

  /** `makeDialogueContext(json, opts)`: marshals the JSON, zeroes a 4-byte error slot, allocates
      the step-result slot and asks the engine for a context. A nonzero error slot makes it throw
      with the engine's message, leaving all three regions allocated; otherwise the JSON string is
      freed and the new context returned. The seed reaches the engine as an `i64` and the
      interpolation flag as 1 or 0. */
  method MakeDialogueContext(engine: Engine, callbacks: CallbackTable, json: string, seed: int, noInterpolate: bool)
      returns (r: Result<DialogueContext>, ghost jsonStr: WasmStr, ghost errSlot: nat, ghost stepSlot: nat)
    requires engine.Valid() && callbacks.Valid()
    modifies engine, engine.mem
    ensures engine.Valid()
    ensures jsonStr.value == StripBom(json) && jsonStr.len == |Encode(json)|
    ensures engine.calls == old(engine.calls) + [CreateJsonCall(jsonStr.ptr, jsonStr.len, ToBigInt64(seed), if noInterpolate then 1 else 0, errSlot)]
    ensures engine.steps == old(engine.steps) && engine.callbackHandles == old(engine.callbackHandles)
    ensures r.Err? <==> engine.createError != 0
    ensures errSlot in engine.mem.live && errSlot + 4 <= |engine.mem.buffer|
    ensures U32At(engine.mem.buffer, errSlot) == engine.createError
    ensures jsonStr.ptr !in old(engine.mem.live) && errSlot !in old(engine.mem.live) && stepSlot !in old(engine.mem.live)
    ensures var grown := old(engine.mem.live)[jsonStr.ptr := |Encode(json)|][errSlot := 4][stepSlot := StepResultSize];
            engine.mem.live == if r.Ok? then grown - {jsonStr.ptr} else grown
    ensures LiveKept(old(engine.mem.live), engine.mem.live)
    ensures forall q :: q in old(engine.mem.live) ==> Disjoint(jsonStr.ptr, jsonStr.len, q, old(engine.mem.live)[q]) && Disjoint(errSlot, 4, q, old(engine.mem.live)[q])
    ensures AgreeOutsideTwo(old(engine.mem.buffer), engine.mem.buffer, jsonStr.ptr, |Encode(json)|, errSlot, 4)
    ensures r.Err? ==> && r.error == CreateFailed(CStringAt(engine.mem.buffer, engine.createError).value)
                       && engine.mem.frees == old(engine.mem.frees)
    ensures r.Ok? ==> && fresh(r.value) && r.value.Valid() && r.value.stringTable == []
                      && r.value.engine == engine && r.value.callbacks == callbacks
                      && r.value.nativeCtx == engine.createHandle && r.value.stepResultPtr == stepSlot
                      && engine.mem.frees == old(engine.mem.frees) + [Region(jsonStr.ptr, jsonStr.len)]
  {
    var mem := engine.mem;
    var w, slot, stepResultPtr := PrepareCreate(mem, json);
    jsonStr, errSlot, stepSlot := w, slot, stepResultPtr;
    ghost var b1 := mem.buffer;
    var flag := if noInterpolate then 1 else 0;
    var nativeCtx := engine.CreateJson(w.ptr, w.len, ToBigInt64(seed), flag, slot);
    var errPtr := U32At(mem.buffer, slot);
    if engine.createError != 0 {
      LE32RoundTrip(mem.buffer, slot, engine.createError);
    } else {
      LE32RoundTrip(mem.buffer, slot, 0);
    }
    AgreeOutsideTwoExtend(old(mem.buffer), b1, mem.buffer, w.ptr, w.len, slot, 4);
    ThreeFreshKept(old(mem.live), w.ptr, w.len, slot, stepResultPtr);
    if errPtr != 0 {
      var err := PtrToStr(mem, errPtr);
      return Err(CreateFailed(err.value)), jsonStr, errSlot, stepSlot;
    }
    var ctx := new DialogueContext(engine, callbacks, nativeCtx, stepResultPtr);
    FreeString(mem, w);
    r := Ok(ctx);
  }

  /** The module's one memory is shared by every context: creating another context keeps an
      existing one valid, with its cache, its step slot and its callbacks as they were. */
  method MakeContextBeside(a: DialogueContext, json: string, seed: int, noInterpolate: bool) returns (r: Result<DialogueContext>)
    requires a.Valid()
    modifies a.engine, a.mem
    ensures a.Valid()
    ensures r.Ok? ==> r.value.Valid() && r.value != a && r.value.mem == a.mem && r.value.stringTable == []
  {
    ghost var l0, b0 := a.mem.live, a.mem.buffer;
    ghost var jsonStr: WasmStr, errSlot: nat, stepSlot: nat;
    r, jsonStr, errSlot, stepSlot := MakeDialogueContext(a.engine, a.callbacks, json, seed, noInterpolate);
    TableKeptByCreate(a.stringTable, b0, a.mem.buffer, l0, a.mem.live, a.stepResultPtr, jsonStr.ptr, jsonStr.len, errSlot, 4);
  }

  /** Every region live in `l0` is live in `l1` with the same size. */
  ghost predicate LiveKept(l0: map<nat, nat>, l1: map<nat, nat>)
  {
    forall q :: q in l0 ==> q in l1 && l1[q] == l0[q]
  }

  /** Adding three fresh regions, and then perhaps releasing the first, keeps the old ones. */
  lemma ThreeFreshKept(l0: map<nat, nat>, p: nat, n: nat, s: nat, t: nat)
    requires p !in l0 && s !in l0 && t !in l0
    ensures var grown := l0[p := n][s := 4][t := StepResultSize];
            LiveKept(l0, grown) && LiveKept(l0, grown - {p})
  {
  }

  /** What `makeDialogueContext` does before calling the engine: marshal the JSON, then allocate
      the zeroed error slot and the step-result slot. */
  method PrepareCreate(mem: Memory, json: string) returns (w: WasmStr, slot: nat, stepResultPtr: nat)
    requires mem.Valid()
    modifies mem
    ensures mem.Valid() && mem.frees == old(mem.frees)
    ensures w.value == StripBom(json) && w.len == |Encode(json)|
    ensures w.ptr !in old(mem.live) && slot !in old(mem.live) && stepResultPtr !in old(mem.live)
    ensures mem.live == old(mem.live)[w.ptr := |Encode(json)|][slot := 4][stepResultPtr := StepResultSize]
    ensures w.ptr != slot && w.ptr != stepResultPtr && slot != stepResultPtr
    ensures forall q :: q in old(mem.live) ==> Disjoint(w.ptr, w.len, q, old(mem.live)[q]) && Disjoint(slot, 4, q, old(mem.live)[q])
    ensures slot + 4 <= |mem.buffer| && mem.buffer[slot..slot + 4] == LE32(0)
    ensures stepResultPtr + StepResultSize <= |mem.buffer|
    ensures AgreeOutsideTwo(old(mem.buffer), mem.buffer, w.ptr, |Encode(json)|, slot, 4)
  {
    ghost var b0 := mem.buffer;
    w := MarshalString(mem, json);
    ghost var b1, l1 := mem.buffer, mem.live;
    slot, stepResultPtr := CreateSlots(mem);
    assert forall q :: q in old(mem.live) ==> q in l1 && l1[q] == old(mem.live)[q];
    AgreeOutsideCompose(b0, b1, mem.buffer, w.ptr, w.len, slot, 4);
  }

  /** The two buffers `makeDialogueContext` allocates before calling the engine: the 4-byte error
      slot, zeroed, and the step-result slot. */
  method CreateSlots(mem: Memory) returns (slot: nat, stepResultPtr: nat)
    requires mem.Valid()
    modifies mem
    ensures mem.Valid() && mem.frees == old(mem.frees)
    ensures slot !in old(mem.live) && stepResultPtr !in old(mem.live) && slot != stepResultPtr
    ensures mem.live == old(mem.live)[slot := 4][stepResultPtr := StepResultSize]
    ensures slot + 4 <= |mem.buffer| && mem.buffer[slot..slot + 4] == LE32(0)
    ensures stepResultPtr + StepResultSize <= |mem.buffer|
    ensures forall q :: q in old(mem.live) ==> Disjoint(slot, 4, q, old(mem.live)[q])
    ensures AgreeOutside(old(mem.buffer), mem.buffer, slot, 4)
  {
    slot := mem.Malloc(4);
    mem.Write(slot, LE32(0));
    ghost var zeroed := mem.buffer;
    stepResultPtr := mem.Malloc(StepResultSize);
    assert mem.buffer[slot..slot + 4] == zeroed[slot..slot + 4] == LE32(0);
  }
}
