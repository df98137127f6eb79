# Alternis JavaScript host adapter, modelled in Dafny

Alternis is a dialogue-graph engine that is compiled to WebAssembly. The TypeScript host adapter under
`js/src` drives the engine. Host and engine share no objects, only the engine's flat
linear memory and a handful of exported functions. This project models the adapter's three
parts and proves what each promises.

- **Memory bridge** (`js/src/wasm.ts`, module `Wasm`):
  - The foreign module's memory is a `Memory` object. It holds the byte buffer and a grow-only
    allocator with ghost bookkeeping: the live regions and the log of `free` calls.
  - `marshalString` copies the UTF-8 bytes of a host string into a freshly allocated region.
    `ptrAndLenToStr` / `unmarshalString` decode a known-length region.
  - `ptrToStr` scans for a terminating zero byte.
  - UTF-8 is modelled as Dafny functions over Unicode scalar values, in module `Utf8`:
    `TextEncoder`, and a non-fatal `TextDecoder` that drops a leading byte order mark (U+FEFF),
    since `ignoreBOM` is false by default.
- **Wire decoder** (`js/src/index.ts`, module `Wire`): the `Slice`, `StringSlice`, `USizeSlice`,
  `Line` and `StepResult` decoders are total functions from (memory bytes, offset) to a `Result`.
  A thrown `Error` or a `RangeError` from a `DataView` is an `Err`. Module `WireLayout` lays
  values out the way the C header `lib/headers-gen/alternis.h` describes. It proves that decoding
  such a layout gives the value back: that is the decoder's specification.
- **Dialogue context** (`js/src/index.ts`, module `Dialogue`):
  - `makeDialogueContext` and the object it returns are a `DialogueContext` class. Its fields are
    the engine handle, the reused step-result slot and the string table.
  - The process-wide `handleToJsFuncMap` and the `_call_js` import are the `CallbackTable` class
    (module `Callbacks`).
  - The foreign engine (module `Native`) is an oracle: it replays a script of step records and
    registration answers, and logs every export call with its arguments.

The model follows the code as written; where the C header declares something else, the code wins:
- The `step` trampoline has no iteration bound. It terminates here only because a script is
  finite.
- Options decoding does not compare the lengths of the lines slice and the ids slice. Extra ids
  are dropped, and a missing id is `undefined` (`None`).
- `ptrToStr` passes `i - 1` as the length, one less than the scan index.
- There is no disposed state:
  - `dispose` does not guard against a second call;
  - the 4-byte error slot is never freed;
  - on a failed creation, none of the JSON string, the error slot or the step-result slot is freed.
- `reset` takes only the context handle and `reply` the context handle and the reply id, with no
  dialogue id or node id. There is no `getNodeByLabel`.
- `marshalString(s).value`, and every string decoded off the wire, loses a leading U+FEFF: the
  round trip gives `s` back only for strings that do not start with a byte order mark.
- The seed is passed to the engine's `i64` parameter as a `BigInt`, which the WebAssembly
  JavaScript interface wraps into the signed 64-bit range.
- The header declares the create's last parameter as `Diagnostic* const c_diagnostic`
  (lib/headers-gen/alternis.h:152). That is a struct of a `zigbool`, an `int` and a
  `StringSlice` (lib/headers-gen/alternis.h:124-131), at least 16 bytes on wasm32. The code
  allocates a 4-byte slot instead, and reads it back as a pointer to a NUL-terminated string.
- The header declares the seed as `uint64_t`; the `i64` the code passes carries the same 64 bits.
- `index.ts` imports a free function `unmarshalString`, which `wasm.ts` does not export. It is
  taken to be the helper's `unmarshalString`, which is `ptrAndLenToStr`.

## Model

| member | source | states |
|---|---|---|
| Bytes.U32At | js/src/index.ts:15 | `getUint32(off, true)` yields an unsigned 32-bit value |
| Bytes.LE32 | js/src/index.ts:245 | `setUint32(off, x, true)` writes four bytes; `LE32RoundTrip` proves `getUint32` reads `x` back from them |
| Bytes.LE32RoundTrip | js/src/index.ts:245-251 | a u32 written little-endian by `setUint32` reads back as the same value with `getUint32` |
| Bytes.JsSlice | js/src/wasm.ts:55 | `buffer.slice(start, end)` within bounds is exactly bytes `[start, end)`, and never longer than memory |
| Bytes.AgreeOutsideCompose | js/src/index.ts:237-248 | a change outside one region followed by a change outside another leaves every byte outside both unchanged |
| Bytes.AgreeOutsideTwoKeeps | js/src/index.ts:237-254 | a region disjoint from two changed regions holds the same bytes afterwards |
| Utf8.Encode | js/src/wasm.ts:65 | the UTF-8 encoding of a string is between one and four bytes per scalar value |
| Utf8.EncodeChar | js/src/wasm.ts:65 | one to four bytes per scalar value; `DecodeOneEncodeChar` proves one decoder step reads it back |
| Utf8.DecodeOne | js/src/wasm.ts:57 | one decoder step consumes at least one byte and never more than remain |
| Utf8.Decode | js/src/wasm.ts:57 | the decoder never yields more scalar values than there are bytes |
| Utf8.TextDecode | js/src/wasm.ts:57 | `TextDecoder.decode` is the decoded scalar values, with a leading U+FEFF dropped and nothing else changed |
| Utf8.DecodeOneEncodeChar | js/src/wasm.ts:57 | one decoder step reads back exactly the scalar value one encoder step wrote, consuming its bytes |
| Utf8.DecodeEncode | js/src/wasm.ts:64-75 | decoding the encoding of any host string gives the string back |
| Utf8.TextDecodeEncode | js/src/wasm.ts:64-75 | `TextDecoder` reads back from `TextEncoder`'s bytes the string less a leading byte order mark, and exactly the string when it does not start with one |
| Utf8.TextDecodeDropsBom | js/src/wasm.ts:57 | a string starting with U+FEFF does not survive the round trip: the mark is lost |
| Utf8.EncodeAppend | js/src/wasm.ts:65 | encoding distributes over string concatenation |
| Utf8.EncodeInjective | js/src/wasm.ts:65 | distinct strings have distinct encodings, so the byte count and bytes identify the string |
| Utf8.DecodeAscii | js/src/wasm.ts:57 | all-ASCII bytes decode one character per byte, each with the byte's value |
| Wasm.Assert | js/src/wasm.ts:1-3 | fails exactly when the condition is falsy, with the given message or else the default one |
| Wasm.Memory.constructor | js/src/wasm.ts:7-13 | a memory holding the module's initial bytes, with nothing allocated and nothing freed |
| Wasm.Memory.Malloc | js/src/wasm.ts:10 | a non-null, in-bounds region disjoint from every live one; this allocator changes no existing byte |
| Wasm.Memory.Free | js/src/wasm.ts:11 | releases a live region with its own length, logs the call, and this allocator changes no byte |
| Wasm.Memory.SetUint8 | js/src/wasm.ts:69 | changes exactly one byte |
| Wasm.Memory.Write | js/src/index.ts:245 | stores bytes at an offset and changes no other byte |
| Wasm.PtrAndLenToStr | js/src/wasm.ts:54-62 | reports the pointer and length as given; in bounds, the value is `TextDecoder`'s reading of exactly bytes `[ptr, ptr + len)` |
| Wasm.UnmarshalString | js/src/wasm.ts:74-76 | the same read as `ptrAndLenToStr`: that pointer and length, and the decoding of that byte range |
| Wasm.PtrAndLenToStrClamps | js/src/wasm.ts:55 | a region that runs past the end of memory decodes only the bytes that exist |
| Wasm.FreeString | js/src/wasm.ts:60 | a `WasmStr`'s `free` releases exactly the pointer and length it reports |
| Wasm.MarshalString | js/src/wasm.ts:64-72 | fresh region of exactly the UTF-8 length, holding exactly the encoding; every other byte unchanged; the returned value is the input string less a leading byte order mark |
| Wasm.FirstZero | js/src/wasm.ts:47-50 | the index of the first zero byte, or the length when there is none |
| Wasm.CStringAt | js/src/wasm.ts:45-52 | the value `ptrToStr` returns: the given pointer, and a length from -1 up to one less than the bytes after the pointer |
| Wasm.PtrToStr | js/src/wasm.ts:45-52 | the scanning loop computes `CStringAt`: decoding with length one less than the first zero's index |
| Wasm.CStringDropsLastByte | js/src/wasm.ts:51 | for a zero-terminated byte string `b`, the reported length is one less than the length of `b` and the last byte before the terminator is lost |
| Wasm.FirstZeroAfterPrefix | js/src/wasm.ts:47-50 | the scan stops right after a zero-free prefix that is followed by a zero |
| Wasm.CStringAtNullWraps | js/src/wasm.ts:46-51 | at pointer 0 with a zero byte there, the length is -1 and all of memory but its last byte is decoded |
| Wasm.CStringExample | js/src/wasm.ts:45-52 | the bytes "hi" then a terminator read back as "h" |
| Wasm.MarshalSlice | js/src/wasm.ts:78-80 | always fails as unimplemented |
| Wasm.UnmarshalSlice | js/src/wasm.ts:82-84 | always fails as unimplemented |
| Callbacks.Lookup | js/src/index.ts:213-215 | finds the stored closure exactly when the handle is registered, else fails with "no such handle" |
| Callbacks.ReservedHandleUnknown | js/src/index.ts:284-287 | handle 0 is never found, because registration rejects it |
| Callbacks.CallbackTable.constructor | js/src/index.ts:205 | the process starts with an empty handle table |
| Callbacks.CallbackTable.Set | js/src/index.ts:287 | maps the handle to the closure, overwriting any earlier one; other handles unchanged |
| Callbacks.CallbackTable.CallJs | js/src/index.ts:213-216 | fails exactly for an unknown handle and calls nothing then; otherwise calls exactly the stored closure once |
| Wire.ReadU32 | js/src/index.ts:15-17 | `getUint32` succeeds exactly when four bytes exist at the offset, with their little-endian value; otherwise a RangeError |
| Wire.LineIsLargestPayload | js/src/index.ts:144-145 | the Line member is the largest union payload, and `StepResult.byteSize` is 4 + 24 = 28 |
| Wire.Items | js/src/index.ts:19-22 | succeeds exactly when every element decodes; then it has `count` elements, element `i` decoded at `base + i * size`; otherwise the error is that of a failing element (`ItemsFirstErr`: the first) |
| Wire.ItemsFirstErr | js/src/index.ts:19-22 | when decoding fails, the error is that of the first element that fails, every earlier one having decoded |
| Wire.FirstErrShift | js/src/index.ts:19-22 | after a successful first element, the first failure of the remaining elements is the first failure of the whole array |
| Wire.SliceAt | js/src/index.ts:10-29 | null data pointer gives `[]` without reading the count; otherwise `count` elements at stride `size`; reads out of bounds are range errors |
| Wire.StringSliceAt | js/src/index.ts:31-41 | null pointer is `undefined` without reading the count; otherwise `unmarshalString(ptr, len)`; fails only on out-of-bounds reads |
| Wire.USizeSliceAt | js/src/index.ts:43-63 | null pointer is `undefined`; otherwise `count` little-endian u32 values at stride 4 |
| Wire.MetadataOf | js/src/index.ts:86 | a null metadata slice is absent, not the empty string |
| Wire.LineAt | js/src/index.ts:72-88 | a null speaker or text is an error; a success reads speaker, text and metadata at offsets 0, 8 and 16 |
| Wire.ZipOptions | js/src/index.ts:127-131 | one option per line, carrying that line's fields and the id at the same index if there is one |
| Wire.OptionsAt | js/src/index.ts:121-132 | lines read at payload + 0, ids at payload + 8; a null ids slice counts as empty; a lines error is passed on |
| Wire.StepResultAt | js/src/index.ts:113-142 | tag 0 is Done without reading the payload; tags 1, 2 and 3 dispatch on the payload at +4; FunctionCalled exactly for tag 3; any other tag is an error |
| WireLayout.SliceRecordFields | js/src/index.ts:15-17 | a slice record laid out little-endian reads back as its pointer and count |
| WireLayout.Received | js/src/index.ts:83-87 | a Line as the host receives it: each string less a leading byte order mark, and absent metadata stays absent |
| WireLayout.ReceivedAll | js/src/index.ts:19-22 | every Line of an array as received, in order |
| WireLayout.ReceivedUnchanged | js/src/index.ts:83-87 | a Line none of whose strings starts with a byte order mark is received unchanged |
| WireLayout.StringSliceRoundTrip | js/src/index.ts:31-38 | a slice record pointing at the encoding of `s` decodes to `s` less a leading byte order mark, with its pointer and count |
| WireLayout.NullSliceRoundTrip | js/src/index.ts:34-35 | a null slice record decodes to `undefined` |
| WireLayout.LineRecordFields | js/src/index.ts:73-80 | the Line record's three slice records lie at offsets 0, 8 and 16 |
| WireLayout.LineRoundTrip | js/src/index.ts:72-88 | a stored Line, with absent metadata as a null slice, decodes to that Line as received |
| WireLayout.LineFieldsRoundTrip | js/src/index.ts:72-88 | three slice records pointing at the speaker, text and metadata bytes decode to that Line as received |
| WireLayout.LineOfSlices | js/src/index.ts:83-87 | a Line whose three slices decode is built from their values |
| WireLayout.StepLineRoundTrip | js/src/index.ts:135-136 | a buffer tagged Line whose payload is a stored Line decodes to that Line as received |
| WireLayout.StepOptionsRoundTrip | js/src/index.ts:121-132 | a buffer tagged Options with equally long stored lines and ids decodes to options pairing line `i`, as received, with id `i` |
| WireLayout.OptionsFieldsRoundTrip | js/src/index.ts:121-132 | the same, once both slice records are read back and both arrays decoded |
| WireLayout.ZipOptionsPairs | js/src/index.ts:128-131 | with as many ids as lines, option `i` is line `i` with id `ids[i]` |
| WireLayout.SliceOfItems | js/src/index.ts:15-24 | a non-null slice record whose elements decode gives exactly those elements |
| WireLayout.USizeSliceOfItems | js/src/index.ts:46-59 | a non-null ids slice record whose ids decode gives those ids |
| WireLayout.OptionsOfSlices | js/src/index.ts:122-131 | an Options payload whose two slices decode gives the zipped pairs |
| WireLayout.StepOptionsOf | js/src/index.ts:121-132 | a buffer tagged Options decodes to Options of its payload |
| WireLayout.LinesRoundTrip | js/src/index.ts:19-22 | an array of stored Lines decodes element by element to those Lines as received |
| WireLayout.IdsRoundTrip | js/src/index.ts:53-57 | an array of little-endian u32 ids decodes to those ids |
| WireLayout.ItemsOfElems | js/src/index.ts:19-22 | when every element decodes to `xs[i]`, the array decodes to `xs` |
| Native.LeadingCalls | js/src/index.ts:264-267 | counts the FunctionCalled records at the front of the script; the record after them is terminal |
| Native.CallsOkEach | js/src/index.ts:264-267 | a run free of unknown handles has every step's callback registered |
| Native.AdvanceFunctionCalled | js/src/index.ts:267 | a FunctionCalled step takes one off the run of FunctionCalled steps in front |
| Native.AdvanceTerminal | js/src/index.ts:267 | a terminal step means no FunctionCalled steps are left in front |
| Native.RunOneMore | js/src/index.ts:264-267 | one more loop pass adds one step call, advances the script by one and adds the closures that step calls |
| Native.ToBigInt64 | js/src/index.ts:250 | the seed reaching the `i64` parameter is in the signed 64-bit range and congruent to the `BigInt` modulo 2^64 |
| Native.ToBigInt64InRange | js/src/index.ts:250 | a seed already in the signed 64-bit range reaches the engine unchanged |
| Native.Engine.constructor | js/src/index.ts:163-197 | an engine over the given memory and script, with no calls made yet |
| Native.Engine.CreateJson | js/src/index.ts:164-170 | logs the call; failure stores the diagnostic pointer in the error slot and returns handle 0; success returns the handle and writes nothing. As an oracle it allocates nothing, unlike the real engine |
| Native.Engine.Step | js/src/index.ts:173 | plays the next scripted step: an unknown callback handle fails before anything is written; otherwise the record is written into the slot and nothing else changes. As an oracle it allocates nothing, unlike the real engine |
| Native.Engine.Reset | js/src/index.ts:174 | logs one reset call with the context handle |
| Native.Engine.Reply | js/src/index.ts:175 | logs one reply call with the context handle and the reply id |
| Native.Engine.SetVariableBoolean | js/src/index.ts:177-182 | logs one call with its arguments |
| Native.Engine.SetVariableString | js/src/index.ts:184-190 | logs one call with its arguments |
| Native.Engine.SetCallbackJs | js/src/index.ts:192-196 | logs the call and answers the next scripted handle, or 0 once the script runs out |
| Native.Engine.Destroy | js/src/index.ts:172 | logs one destroy call with the context handle |
| Dialogue.Get | js/src/index.ts:278 | absent exactly when no entry has the key; otherwise the string of an entry with that key |
| Dialogue.GetEntry | js/src/index.ts:278-282 | with distinct keys, every entry is what a lookup of its key finds |
| Dialogue.GetAppend | js/src/index.ts:281 | setting a new key finds the new string under that key and leaves every other lookup unchanged |
| Dialogue.FreesOf | js/src/index.ts:319-320 | one `free` per cached string, in insertion order, with that string's pointer and length |
| Dialogue.TableStoredFacts | js/src/index.ts:278-282 | a table built by adding only new keys has distinct keys and distinct pointers, and each entry is live, holds its key's bytes and is not the step slot |
| Dialogue.TableFactsStored | js/src/index.ts:278-282 | the converse: such a table is one built entry by entry with only new keys |
| Dialogue.TableKeptOutside | js/src/wasm.ts:67-70 | a write outside every cached region keeps every cached string intact |
| Dialogue.TableKeptByGrowth | js/src/wasm.ts:66 | an allocation that keeps the live regions keeps the cache |
| Dialogue.TableKeptByCreate | js/src/index.ts:236-254 | a cache stays stored when the live regions are kept and bytes change only in two regions disjoint from every region live before |
| Dialogue.InternFresh | js/src/index.ts:279-282 | marshalling a missing string and adding it keeps the cache, finds the new string, and grows memory by exactly that region |
| Dialogue.TableAppend | js/src/index.ts:281 | an entry under a new key, in a region of its own, extends the cache |
| Dialogue.GrownByOne | js/src/index.ts:279-282 | adding one entry with a fresh region, with memory changed only inside it, is growth by exactly that region |
| Dialogue.StepWriteKeepsTable | js/src/index.ts:265-266 | a record written into the step slot keeps the cache, and the tag read back is the record's first byte |
| Dialogue.GrownTrans | js/src/index.ts:300-311 | growth of the cache and of memory composes over two lookups, including the bytes kept outside the new regions |
| Dialogue.OutsideEntriesAppend | js/src/index.ts:300-311 | a byte outside the regions of two groups of new entries is outside those of each |
| Dialogue.DialogueContext.constructor | js/src/index.ts:259-322 | a context with an empty string table over the engine handle and the step-result slot |
| Dialogue.DialogueContext.Intern | js/src/index.ts:278-282 | a hit returns the cached string and changes nothing; a miss marshals once, appends, and changes no byte outside the new region; either way the result is the string that lookup now finds |
| Dialogue.DialogueContext.InternNew | js/src/index.ts:279-282 | the miss path: marshal, append one entry, grow memory by exactly that region and change no byte outside it |
| Dialogue.DialogueContext.Step | js/src/index.ts:262-269 | never returns FunctionCalled. With k FunctionCalled records in front, exactly k + 1 step calls into the same slot, each running the callback its step names, and the result is the decoding of the terminal record. An unknown handle stops the loop with an error. With the scripted engine, memory changes only inside the slot |
| Dialogue.DialogueContext.StepOnce | js/src/index.ts:265-266 | one foreign step followed by decoding the slot; FunctionCalled exactly when the record says so |
| Dialogue.DialogueContext.Reset | js/src/index.ts:270-272 | one engine reset call with the context handle |
| Dialogue.DialogueContext.Reply | js/src/index.ts:273-275 | one engine reply call with the context handle and the reply id |
| Dialogue.DialogueContext.SetCallback | js/src/index.ts:277-288 | caches the name, then registers, using up one scripted handle; a 0 handle fails and leaves the callback table unchanged; otherwise maps handle to callback; memory changes only in a new name region |
| Dialogue.DialogueContext.SetVariableBoolean | js/src/index.ts:290-298 | caches the name and passes the cached pointer and length with the flag as 1 or 0; memory changes only in a new name region |
| Dialogue.DialogueContext.SetVariableString | js/src/index.ts:300-314 | caches the name and then the value, and passes both cached pointers and lengths; memory changes only in the new regions |
| Dialogue.DialogueContext.InternBoth | js/src/index.ts:300-311 | the two lookups-or-marshals, name first; a value equal to the name shares its entry |
| Dialogue.DialogueContext.Dispose | js/src/index.ts:316-321 | frees the step slot with size 28 and then every cached string in insertion order, and destroys the engine context; the live regions afterwards are exactly the others, with their sizes; no byte changes, and the engine's script is untouched |
| Dialogue.FreeStrings | js/src/index.ts:319-320 | frees exactly the cached strings, in order, each with its own pointer and length; the live regions afterwards are exactly the others, with their sizes |
| Dialogue.FreeNext | js/src/index.ts:319-320 | the next entry to free is still live with its own length |
| Dialogue.FreesOfAppend | js/src/index.ts:319-320 | the frees of a table with one more entry end with that entry's free |
| Dialogue.CreateSlots | js/src/index.ts:242-248 | allocates a zeroed 4-byte error slot, disjoint from every region live before, and a separate 28-byte step-result slot, and changes no byte outside the error slot |
| Dialogue.PrepareCreate | js/src/index.ts:237-248 | marshals the JSON and allocates both slots: three fresh regions added to the live ones, the JSON string and the error slot disjoint from each earlier one, and bytes change only inside those two |
| Dialogue.ThreeFreshKept | js/src/index.ts:237-248 | adding the three fresh regions, and later freeing the JSON string, keeps every region that was live |
| Dialogue.MakeDialogueContext | js/src/index.ts:235-328 | marshals the JSON and passes the seed as an `i64` and the flag as 1 or 0. It fails exactly when the engine reports an error in the error slot, with the diagnostic `ptrToStr` decodes as the message and nothing freed. Otherwise it returns a fresh context with an empty table on the engine's handle and the new step slot, and frees the JSON string. Every region live before stays live with its size, the JSON string and the error slot are disjoint from each of them, and the error slot stays allocated holding the engine's report. With the scripted engine, the live regions are exactly these and bytes change only inside the JSON string and the error slot |
| Dialogue.MakeContextBeside | js/src/index.ts:206-236 | every context shares the module's one memory and callback map: creating another context keeps an existing one valid, its cache included, and a new one is valid, distinct and empty |

## Left out

- WebAssembly instantiation and logging are not modelled: `getNativeLib`, `initWasm`, the `_debug_print` import and `console.log` (js/src/index.ts:199-223). They are module loading and I/O.
- `makeWasmHelper` and `assertCompatibleWasmInstance` check the foreign instance's exports (js/src/wasm.ts:22-26, 39-43). They are not modelled. The model assumes `memory`, `malloc` and `free` exist. (The code checks for `alloc_string`/`free_string` but calls `malloc`/`free`.)
- The default random seed, `Math.random() * Number.MAX_SAFE_INTEGER`, is floating point. The seed is an integer parameter instead, and `noInterpolate` is a boolean parameter.
- Only the UTF-8 `encoding` of `ptrToStr`, `ptrAndLenToStr` and `unmarshalString` is modelled. Other `TextDecoder` encodings are not.
- Host strings are sequences of Unicode scalar values. `TextEncoder`'s replacement of lone surrogates cannot arise and is not modelled.
- The foreign engine's semantics are not modelled: document parsing, dialogue progression, reset, reply and variables. Its exports are a scripted oracle that logs its calls.
- Dialogue.DialogueContext.Step: the unchanged live map, the unchanged memory length and "bytes change only inside the step slot" hold for the scripted `Native.Engine.Step`, which allocates nothing and writes only the step record. The real engine may allocate its own strings (the Line slices point at them) and grow memory, which is why the code re-creates its `DataView`s (js/src/index.ts:243).
- Dialogue.MakeDialogueContext: the exact live map and the bytes frame outside the JSON string and the error slot hold for the scripted `Native.Engine.CreateJson`, which allocates nothing and writes only the error-slot pointer. The real `ade_dialogue_ctx_create_json` heap-allocates the context it returns and, on failure, the diagnostic that `ptrToStr` reads. The clauses that every earlier live region stays live and that the error slot holds the engine's report do not depend on this.
- Dialogue.DialogueContext.Dispose: `engine.calls` and `mem.frees` are separate logs, so the order of the destroy call relative to the frees is not stated.
- Callbacks do not re-enter the context, and they do not throw. A callback's own effects are not modelled: only which closure is called, in which order.
- Wasm.Memory.Malloc: the allocator belongs to the foreign module, and the model's one promises a fresh, in-bounds, non-null region disjoint from the live ones. It also promises that no existing byte changes. A real wasm allocator writes its chunk headers and free-list links into memory outside the live regions, and those bookkeeping writes are not modelled. Reuse of freed memory, allocation failure and the exact addresses are not modelled either.
- Wasm.Memory.Free: it changes no byte. The allocator's bookkeeping writes on a free are not modelled. So the byte frames that rest on these two (`Wasm.MarshalString`, `Dialogue.Grown`, `Dialogue.MakeDialogueContext`, and "no byte changes" for `Dialogue.DialogueContext.Dispose`) hold for this allocator. For a real one they hold only for the bytes of live regions.
- Wasm.Falsy: numbers are integers, so `NaN` and fractional numbers are not modelled; `assert` with `NaN` would throw.
- Dialogue.DialogueContext.Dispose: it does not re-establish `Valid()`, so the model cannot call it twice. The code would free the same regions again.
- The worker proxy (`js/src/worker-api.ts`, `js/src/worker.ts`) and the Godot and Unreal plugins are not part of this model.
- Only wasm32 is modelled: pointers and lengths are 4-byte unsigned values, as the code's `FIXME: support wasm64` notes.
