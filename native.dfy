/** The foreign dialogue engine, seen from the host: the exported functions the adapter calls.
    Its behaviour is not part of this model; each export is an oracle that replays what it was
    scripted to do and records that it was called. */
module Native {
  import opened Wrappers
  import opened Bytes
  import opened Wasm
  import opened Callbacks
  import opened Wire

  /** One call of an export, with its arguments. */
  datatype ForeignCall =
    | CreateJsonCall(jsonPtr: nat, jsonLen: int, seed: int, noInterpolate: nat, errSlot: nat)
    | DestroyCall(ctx: nat)
    | StepCall(ctx: nat, resultSlot: nat)
    | ResetCall(ctx: nat)
    | ReplyCall(ctx: nat, replyId: nat)
    | SetVariableBooleanCall(ctx: nat, name: nat, nameLen: int, value: nat)
    | SetVariableStringCall(ctx: nat, name: nat, nameLen: int, valuePtr: nat, valueLen: int)
    | SetCallbackJsCall(ctx: nat, name: nat, nameLen: int)

  /** What one call of the foreign `step` does: possibly call one host callback by handle, then
      write a StepResult record into the result slot. */
  datatype ScriptedStep = ScriptedStep(call: Option<nat>, record: seq<byte>)

  /** The record of a finished dialogue: tag Done, the rest zero. */
  function DoneRecord(): (r: seq<byte>)
    ensures |r| == StepResultSize && r[0] == TagDone
  {
    [TagDone] + Zeros(StepResultSize - 1)
  }

  /** The step the engine plays next; once the script is used up it reports Done. */
  function NextStep(steps: seq<ScriptedStep>): (next: ScriptedStep)
  {
    if steps == [] then ScriptedStep(None, DoneRecord()) else steps[0]
  }

  /** The script left after `n` more calls of `step`. */
  function Advance(steps: seq<ScriptedStep>, n: nat): (rest: seq<ScriptedStep>)
  {
    if n <= |steps| then steps[n..] else []
  }

  predicate IsFunctionCalledRecord(record: seq<byte>)
  {
    |record| > 0 && record[0] == TagFunctionCalled
  }

  /** How many scripted steps in a row, from the front, report FunctionCalled. */
  function LeadingCalls(steps: seq<ScriptedStep>): (k: nat)
    ensures k <= |steps|
    ensures forall i :: 0 <= i < k ==> IsFunctionCalledRecord(steps[i].record)
    ensures !IsFunctionCalledRecord(NextStep(Advance(steps, k)).record)
  {
    if steps == [] || !IsFunctionCalledRecord(steps[0].record) then 0
    else 1 + LeadingCalls(steps[1..])
  }

  /** The step's callback, if it has one, names a registered handle. */
  predicate CallOk(step: ScriptedStep, entries: map<nat, Callback>)
  {
    step.call.None? || step.call.value in entries
  }

  /** The host closure the step calls, if its handle is registered. */
  function CallsMade(step: ScriptedStep, entries: map<nat, Callback>): (made: seq<Callback>)
  {
    if step.call.Some? && step.call.value in entries then [entries[step.call.value]] else []
  }

  /** The host closures the first `n` steps of the script call. */
  function Invoked(steps: seq<ScriptedStep>, entries: map<nat, Callback>, n: nat): (invoked: seq<Callback>)
  {
    if n == 0 then [] else Invoked(steps, entries, n - 1) + CallsMade(NextStep(Advance(steps, n - 1)), entries)
  }

  /** Every one of the first `n` steps of the script names a registered callback, if any. */
  predicate CallsOk(steps: seq<ScriptedStep>, entries: map<nat, Callback>, n: nat)
  {
    n == 0 || (CallsOk(steps, entries, n - 1) && CallOk(NextStep(Advance(steps, n - 1)), entries))
  }

  lemma {:induction false} CallsOkEach(steps: seq<ScriptedStep>, entries: map<nat, Callback>, n: nat)
    requires CallsOk(steps, entries, n)
    ensures forall j :: 0 <= j < n ==> CallOk(NextStep(Advance(steps, j)), entries)
  {
    if n > 0 {
      CallsOkEach(steps, entries, n - 1);
    }
  }

  /** A step that reports FunctionCalled comes from the script, and takes one off the run of
      FunctionCalled steps in front. */
  lemma AdvanceFunctionCalled(steps: seq<ScriptedStep>)
    requires IsFunctionCalledRecord(NextStep(steps).record)
    ensures LeadingCalls(steps) >= 1 && LeadingCalls(Advance(steps, 1)) == LeadingCalls(steps) - 1
  {
  }

  /** A step that does not report FunctionCalled ends the run of FunctionCalled steps. */
  lemma AdvanceTerminal(steps: seq<ScriptedStep>)
    requires !IsFunctionCalledRecord(NextStep(steps).record)
    ensures LeadingCalls(steps) == 0
  {
  }

  lemma AdvanceAdvance(steps: seq<ScriptedStep>, n: nat)
    ensures Advance(Advance(steps, n), 1) == Advance(steps, n + 1)
  {
  }

  lemma AppendAssoc<T>(a: seq<T>, b: seq<T>, c: seq<T>)
    ensures (a + b) + c == a + (b + c)
  {
  }

  /** What one more step adds to a run of `i` steps: the script advances by one, the call log
      gains one `x`, the invoked closures gain the ones the step calls, and the run stays free
      of unknown handles exactly when the step names none. */
  lemma RunOneMore(steps: seq<ScriptedStep>, entries: map<nat, Callback>, calls: seq<ForeignCall>, invoked: seq<Callback>, i: nat, x: ForeignCall)
    ensures Advance(Advance(steps, i), 1) == Advance(steps, i + 1)
    ensures (calls + Repeat(x, i)) + [x] == calls + Repeat(x, i + 1)
    ensures (invoked + Invoked(steps, entries, i)) + CallsMade(NextStep(Advance(steps, i)), entries)
            == invoked + Invoked(steps, entries, i + 1)
    ensures CallsOk(steps, entries, i + 1) <==> CallsOk(steps, entries, i) && CallOk(NextStep(Advance(steps, i)), entries)
  {
    AdvanceAdvance(steps, i);
    AppendAssoc(calls, Repeat(x, i), [x]);
    AppendAssoc(invoked, Invoked(steps, entries, i), CallsMade(NextStep(Advance(steps, i)), entries));
  }

  /** `n` copies of `x`. */
  function Repeat<T>(x: T, n: nat): (r: seq<T>)
    ensures |r| == n && forall i :: 0 <= i < n ==> r[i] == x
  {
    if n == 0 then [] else Repeat(x, n - 1) + [x]
  }

  const Int64Range: int := 0x8000_0000_0000_0000
  const U64Limit: int := 0x1_0000_0000_0000_0000

  /** A `BigInt` passed to an `i64` parameter of an export, as the WebAssembly JavaScript
      interface converts it (ToBigInt64): wrapped into the signed 64-bit range. */
  function ToBigInt64(x: int): (r: int)
    ensures -Int64Range <= r < Int64Range
    ensures (x - r) % U64Limit == 0
  {
    var u := x % U64Limit;
    if u >= Int64Range then u - U64Limit else u
  }

  /** A seed already in the signed 64-bit range reaches the engine unchanged. */
  lemma ToBigInt64InRange(x: int)
    requires -Int64Range <= x < Int64Range
    ensures ToBigInt64(x) == x
  {
    if x < 0 {
      assert x % U64Limit == x + U64Limit;
    }
  }

  class Engine {
    const mem: Memory
    /** What the coming calls of `step` do. */
    var steps: seq<ScriptedStep>
    /** The diagnostic pointer `create` stores in the error slot; 0 means it succeeds. */
    const createError: nat
    /** The context handle `create` returns when it succeeds. */
    const createHandle: nat
    /** The answers of the coming callback registrations; 0 once they are used up. */
    var callbackHandles: seq<nat>
    /** Every call of an export, in order. */
    ghost var calls: seq<ForeignCall>

    ghost predicate Valid()
      reads this, mem
    {
      && mem.Valid()
      && createError < U32Limit
      && forall i :: 0 <= i < |steps| ==> |steps[i].record| == StepResultSize
    }

    constructor (mem: Memory, steps: seq<ScriptedStep>, createError: nat, createHandle: nat, callbackHandles: seq<nat>)
      requires mem.Valid() && createError < U32Limit
      requires forall i :: 0 <= i < |steps| ==> |steps[i].record| == StepResultSize
      ensures Valid() && this.mem == mem && this.steps == steps && this.createError == createError
      ensures this.createHandle == createHandle && this.callbackHandles == callbackHandles && calls == []
    {
      this.mem := mem;
      this.steps := steps;
      this.createError := createError;
      this.createHandle := createHandle;
      this.callbackHandles := callbackHandles;
      calls := [];
    }

    /** `ade_dialogue_ctx_create_json`: on failure stores the diagnostic pointer in the error
        slot and returns the null handle; on success leaves the slot alone. */
    method CreateJson(jsonPtr: nat, jsonLen: int, seed: int, noInterpolate: nat, errSlot: nat) returns (handle: nat)
      requires Valid() && errSlot + 4 <= |mem.buffer|
      modifies this, mem
      ensures Valid() && calls == old(calls) + [CreateJsonCall(jsonPtr, jsonLen, seed, noInterpolate, errSlot)]
      ensures steps == old(steps)
      ensures callbackHandles == old(callbackHandles)
      ensures mem.live == old(mem.live) && mem.frees == old(mem.frees)
      ensures createError == 0 ==> handle == createHandle && mem.buffer == old(mem.buffer)
      ensures createError != 0 ==> handle == 0 && mem.buffer == Overwrite(old(mem.buffer), errSlot, LE32(createError))
    {
      calls := calls + [CreateJsonCall(jsonPtr, jsonLen, seed, noInterpolate, errSlot)];
      if createError == 0 {
        handle := createHandle;
      } else {
        mem.Write(errSlot, LE32(createError));
        handle := 0;
      }
    }

    /** `ade_dialogue_ctx_step`: plays the next scripted step. A callback with an unknown handle
        makes `_call_js` throw, which aborts the step before the record is written. */
    method Step(ctx: nat, resultSlot: nat, table: CallbackTable) returns (r: Result<()>)
      requires Valid() && table.Valid() && resultSlot + StepResultSize <= |mem.buffer|
      modifies this, mem, table
      ensures Valid() && table.Valid() && calls == old(calls) + [StepCall(ctx, resultSlot)]
      ensures steps == Advance(old(steps), 1)
      ensures callbackHandles == old(callbackHandles)
      ensures table.entries == old(table.entries)
      ensures mem.live == old(mem.live) && mem.frees == old(mem.frees)
      ensures var next := NextStep(old(steps));
              && table.invoked == old(table.invoked) + CallsMade(next, table.entries)
              && (r.Err? <==> !CallOk(next, table.entries))
              && (r.Err? ==> r.error == NoSuchHandle && mem.buffer == old(mem.buffer))
              && (r.Ok? ==> mem.buffer == Overwrite(old(mem.buffer), resultSlot, next.record))
    {
      var next := NextStep(steps);
      steps := Advance(steps, 1);
      calls := calls + [StepCall(ctx, resultSlot)];
      if next.call.Some? {
        r := table.CallJs(next.call.value);
        if r.Err? {
          return;
        }
      }
      mem.Write(resultSlot, next.record);
      r := Ok(());
    }

    /** `ade_dialogue_ctx_reset`. */
    method Reset(ctx: nat)
      modifies this
      ensures calls == old(calls) + [ResetCall(ctx)]
      ensures steps == old(steps)
      ensures callbackHandles == old(callbackHandles)
    {
      calls := calls + [ResetCall(ctx)];
    }

    /** `ade_dialogue_ctx_reply`. */
    method Reply(ctx: nat, replyId: nat)
      modifies this
      ensures calls == old(calls) + [ReplyCall(ctx, replyId)]
      ensures steps == old(steps)
      ensures callbackHandles == old(callbackHandles)
    {
      calls := calls + [ReplyCall(ctx, replyId)];
    }

    /** `ade_dialogue_ctx_set_variable_boolean`. */
    method SetVariableBoolean(ctx: nat, name: nat, nameLen: int, value: nat)
      modifies this
      ensures calls == old(calls) + [SetVariableBooleanCall(ctx, name, nameLen, value)]
      ensures steps == old(steps)
      ensures callbackHandles == old(callbackHandles)
    {
      calls := calls + [SetVariableBooleanCall(ctx, name, nameLen, value)];
    }

    /** `ade_dialogue_ctx_set_variable_string`. */
    method SetVariableString(ctx: nat, name: nat, nameLen: int, valuePtr: nat, valueLen: int)
      modifies this
      ensures calls == old(calls) + [SetVariableStringCall(ctx, name, nameLen, valuePtr, valueLen)]
      ensures steps == old(steps)
      ensures callbackHandles == old(callbackHandles)
    {
      calls := calls + [SetVariableStringCall(ctx, name, nameLen, valuePtr, valueLen)];
    }

    /** `ade_dialogue_ctx_set_callback_js`: answers with the next scripted handle, or 0. */
    method SetCallbackJs(ctx: nat, name: nat, nameLen: int) returns (handle: nat)
      modifies this
      ensures calls == old(calls) + [SetCallbackJsCall(ctx, name, nameLen)]
      ensures handle == (if old(callbackHandles) == [] then NullHandle else old(callbackHandles)[0])
      ensures callbackHandles == (if old(callbackHandles) == [] then [] else old(callbackHandles)[1..])
      ensures steps == old(steps)
    {
      calls := calls + [SetCallbackJsCall(ctx, name, nameLen)];
      if callbackHandles == [] {
        handle := NullHandle;
      } else {
        handle := callbackHandles[0];
        callbackHandles := callbackHandles[1..];
      }
    }

    /** `ade_dialogue_ctx_destroy`. */
    method Destroy(ctx: nat)
      modifies this
      ensures calls == old(calls) + [DestroyCall(ctx)]
      ensures steps == old(steps)
      ensures callbackHandles == old(callbackHandles)
    {
      calls := calls + [DestroyCall(ctx)];
    }
  }
}
