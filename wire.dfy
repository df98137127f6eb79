/** The wire decoder of `js/src/index.ts`: fixed-layout little-endian records read out of the
    foreign module's memory, following the C layout of `lib/headers-gen/alternis.h`. Every
    decoder is a function of the memory bytes and an absolute offset. */
module Wire {
  import opened Wrappers
  import opened Bytes
  import opened Wasm

  /** `Slice<T>.byteSize`, `StringSlice.byteSize`, `USizeSlice.byteSize`: pointer then count. */
  const SliceSize: nat := 8
  const StringSliceSize: nat := 8
  const USizeSliceSize: nat := 8
  /** The width of a wasm32 `usize` element. */
  const USizeSize: nat := 4
  /** `Line.byteSize`: speaker, text and metadata string slices. */
  const LineSize: nat := 3 * StringSliceSize
  /** The union payload starts at the next 4-byte boundary after the 1-byte tag. */
  const PayloadOffset: nat := 4
  /** `StepResult.byteSize`, sized for a Line payload. */
  const StepResultSize: nat := PayloadOffset + LineSize

  const TagDone: byte := 0
  const TagOptions: byte := 1
  const TagLine: byte := 2
  const TagFunctionCalled: byte := 3

  datatype Line = Line(speaker: string, text: string, metadata: Option<string>)

  /** One option of an Options result: the fields of its line and the id at the same index. */
  datatype DialogueOption = DialogueOption(speaker: string, text: string, metadata: Option<string>, id: Option<nat>)

  datatype StepResult =
    | Done
    | Options(options: seq<DialogueOption>)
    | LineResult(line: Line)
    | FunctionCalled

  /** The union payload is sized by its Line member, which is indeed the larger one. */
  lemma LineIsLargestPayload()
    ensures LineSize >= SliceSize + USizeSliceSize
    ensures StepResultSize == PayloadOffset + LineSize == 28
  {
  }

  /** `new DataView(buffer, off).getUint32(0, true)`: a RangeError unless four bytes exist. */
  function ReadU32(m: seq<byte>, off: nat): (r: Result<nat>)
    ensures r.Ok? <==> off + 4 <= |m|
    ensures r.Ok? ==> r.value == U32At(m, off) && r.value < U32Limit
    ensures r.Err? ==> r.error == RangeError
  {
    if off + 4 <= |m| then Ok(U32At(m, off)) else Err(RangeError)
  }

  /** The decoding of element `i` of an array starting at `base` with stride `size`. */
  function ElemAt<T>(m: seq<byte>, base: nat, size: nat, i: nat, elem: (seq<byte>, nat) -> Result<T>): (r: Result<T>)
  {
    elem(m, base + i * size)
  }

  lemma ElemAtShift<T>(m: seq<byte>, base: nat, next: nat, size: nat, elem: (seq<byte>, nat) -> Result<T>)
    requires next == base + size
    ensures forall i: nat :: ElemAt(m, next, size, i, elem) == ElemAt(m, base, size, i + 1, elem)
  {
    forall i: nat ensures next + i * size == base + (i + 1) * size {
      assert (i + 1) * size == i * size + size;
    }
  }

  /** The `for` loop of `Slice.unmarshal` and `USizeSlice.unmarshal`: decodes `count` elements
      in order and stops at the first one that throws. */
  function Items<T>(m: seq<byte>, base: nat, size: nat, count: nat, elem: (seq<byte>, nat) -> Result<T>): (r: Result<seq<T>>)
    ensures r.Ok? <==> forall i :: 0 <= i < count ==> ElemAt(m, base, size, i, elem).Ok?
    ensures r.Ok? ==> |r.value| == count
    ensures r.Ok? ==> forall i :: 0 <= i < count ==> ElemAt(m, base, size, i, elem) == Ok(r.value[i])
    ensures r.Err? ==> exists i :: 0 <= i < count && ElemAt(m, base, size, i, elem) == Err(r.error)
    decreases count
  {
    if count == 0 then Ok([])
    else
      var x :- ElemAt(m, base, size, 0, elem);
      var rest :- (ElemAtShift(m, base, base + size, size, elem); Items(m, base + size, size, count - 1, elem));
      assert forall i :: 1 <= i < count ==> ElemAt(m, base + size, size, i - 1, elem) == ElemAt(m, base, size, i, elem);
      Ok([x] + rest)
  }

  /** The loop stops at the first element that throws: its error is the array's, and every
      element before it decoded. */
  lemma {:induction false} ItemsFirstErr<T>(m: seq<byte>, base: nat, size: nat, count: nat, elem: (seq<byte>, nat) -> Result<T>)
    requires Items(m, base, size, count, elem).Err?
    ensures FirstErr(m, base, size, count, elem, Items(m, base, size, count, elem).error)
    decreases count
  {
    var head := ElemAt(m, base, size, 0, elem);
    if head.Err? {
      assert ElemAt(m, base, size, 0, elem) == Err(head.error);
    } else {
      ElemAtShift(m, base, base + size, size, elem);
      assert forall i :: 1 <= i < count ==> ElemAt(m, base + size, size, i - 1, elem) == ElemAt(m, base, size, i, elem);
      ItemsFirstErr(m, base + size, size, count - 1, elem);
      FirstErrShift(m, base, size, count, elem, Items(m, base, size, count, elem).error);
    }
  }

  /** Element `i` is the first of `count` that fails, and it fails with `e`. */
  ghost predicate FirstErr<T>(m: seq<byte>, base: nat, size: nat, count: nat, elem: (seq<byte>, nat) -> Result<T>, e: Error)
  {
    exists i :: 0 <= i < count && ElemAt(m, base, size, i, elem) == Err(e) && OkBefore(m, base, size, i, elem)
  }

  /** Elements `0` to `i - 1` decode. */
  ghost predicate OkBefore<T>(m: seq<byte>, base: nat, size: nat, i: nat, elem: (seq<byte>, nat) -> Result<T>)
  {
    forall j :: 0 <= j < i ==> ElemAt(m, base, size, j, elem).Ok?
  }

  /** A first failure after a successful element `0` is a first failure of the whole array. */
  lemma FirstErrShift<T>(m: seq<byte>, base: nat, size: nat, count: nat, elem: (seq<byte>, nat) -> Result<T>, e: Error)
    requires 0 < count && ElemAt(m, base, size, 0, elem).Ok?
    requires forall i :: 1 <= i < count ==> ElemAt(m, base + size, size, i - 1, elem) == ElemAt(m, base, size, i, elem)
    requires FirstErr(m, base + size, size, count - 1, elem, e)
    ensures FirstErr(m, base, size, count, elem, e)
  {
    var k :| 0 <= k < count - 1 && ElemAt(m, base + size, size, k, elem) == Err(e) && OkBefore(m, base + size, size, k, elem);
    assert ElemAt(m, base, size, k + 1, elem) == Err(e);
    forall j | 0 <= j < k + 1
      ensures ElemAt(m, base, size, j, elem).Ok?
    {
      if j > 0 {
        assert ElemAt(m, base + size, size, j - 1, elem).Ok?;
      }
    }
    assert OkBefore(m, base, size, k + 1, elem);
  }

  /** `Slice(elem).unmarshal`: a null data pointer gives `[]` without reading the count;
      otherwise exactly `count` elements, element `i` decoded at `dataPtr + i * size`. */
  function SliceAt<T>(m: seq<byte>, off: nat, size: nat, elem: (seq<byte>, nat) -> Result<T>): (r: Result<seq<T>>)
    ensures off + 4 > |m| ==> r == Err(RangeError)
    ensures off + 4 <= |m| && U32At(m, off) == 0 ==> r == Ok([])
    ensures off + 4 <= |m| && U32At(m, off) != 0 && off + 8 > |m| ==> r == Err(RangeError)
    ensures off + 8 <= |m| && U32At(m, off) != 0 && r.Ok? ==>
              && |r.value| == U32At(m, off + 4)
              && forall i :: 0 <= i < |r.value| ==> ElemAt(m, U32At(m, off), size, i, elem) == Ok(r.value[i])
  {
    var dataPtr :- ReadU32(m, off);
    if dataPtr == 0 then Ok([])
    else
      var len :- ReadU32(m, off + 4);
      Items(m, dataPtr, size, len, elem)
  }

  /** `StringSlice.unmarshal`: a null pointer is `undefined` (the count is not read); otherwise
      the string `unmarshalString(ptr, len)` reads. */
  function StringSliceAt(m: seq<byte>, off: nat): (r: Result<Option<WasmStr>>)
    ensures r.Err? <==> off + 4 > |m| || (U32At(m, off) != 0 && off + 8 > |m|)
    ensures r.Err? ==> r.error == RangeError
    ensures off + 4 <= |m| && U32At(m, off) == 0 ==> r == Ok(None)
    ensures off + 8 <= |m| && U32At(m, off) != 0 ==>
              r == Ok(Some(UnmarshalString(m, U32At(m, off), U32At(m, off + 4))))
  {
    var dataPtr :- ReadU32(m, off);
    if dataPtr == 0 then Ok(None)
    else
      var len :- ReadU32(m, off + 4);
      Ok(Some(UnmarshalString(m, dataPtr, len)))
  }

  /** `USizeSlice.unmarshal`: a null pointer is `undefined`; otherwise `count` little-endian
      u32 values at stride 4. */
  function USizeSliceAt(m: seq<byte>, off: nat): (r: Result<Option<seq<nat>>>)
    ensures off + 4 > |m| ==> r == Err(RangeError)
    ensures off + 4 <= |m| && U32At(m, off) == 0 ==> r == Ok(None)
    ensures r.Ok? && r.value.Some? ==>
              && off + 8 <= |m| && U32At(m, off) != 0
              && |r.value.value| == U32At(m, off + 4)
              && forall i :: 0 <= i < |r.value.value| ==>
                   ElemAt(m, U32At(m, off), USizeSize, i, ReadU32) == Ok(r.value.value[i])
  {
    var dataPtr :- ReadU32(m, off);
    if dataPtr == 0 then Ok(None)
    else
      var len :- ReadU32(m, off + 4);
      var ids :- Items(m, dataPtr, USizeSize, len, ReadU32);
      Ok(Some(ids))
  }

  /** The host value of a metadata slice: a null slice is absent, not the empty string. */
  function MetadataOf(s: Option<WasmStr>): (r: Option<string>)
    ensures r.None? <==> s.None?
  {
    if s.None? then None else Some(s.value.value)
  }

  /** `Line.unmarshal`: string slices at offsets 0, 8 and 16, read in that order; a null
      speaker or text throws, a null metadata is absent. */
  function LineAt(m: seq<byte>, off: nat): (r: Result<Line>)
    ensures StringSliceAt(m, off) == Ok(None) ==> r == Err(SpeakerNull)
    ensures (StringSliceAt(m, off).Ok? && StringSliceAt(m, off).value.Some? &&
             StringSliceAt(m, off + StringSliceSize) == Ok(None)) ==> r == Err(TextNull)
    ensures r.Ok? ==>
              && StringSliceAt(m, off).Ok? && StringSliceAt(m, off).value.Some?
              && StringSliceAt(m, off + StringSliceSize).Ok? && StringSliceAt(m, off + StringSliceSize).value.Some?
              && StringSliceAt(m, off + 2 * StringSliceSize).Ok?
              && r.value.speaker == StringSliceAt(m, off).value.value.value
              && r.value.text == StringSliceAt(m, off + StringSliceSize).value.value.value
              && r.value.metadata == MetadataOf(StringSliceAt(m, off + 2 * StringSliceSize).value)
  {
    var speaker :- StringSliceAt(m, off + 0 * StringSliceSize);
    if speaker.None? then Err(SpeakerNull)
    else
      var text :- StringSliceAt(m, off + 1 * StringSliceSize);
      if text.None? then Err(TextNull)
      else
        var metadata :- StringSliceAt(m, off + 2 * StringSliceSize);
        Ok(Line(speaker.value.value, text.value.value, MetadataOf(metadata)))
  }

  /** `strings.map((s, i) => ({...s, id: ids[i]}))`: one option per line, with no check that
      the two lengths agree; an index past the ids is `undefined`. */
  function ZipOptions(lines: seq<Line>, ids: seq<nat>): (r: seq<DialogueOption>)
    ensures |r| == |lines|
    ensures forall i :: 0 <= i < |r| ==>
              && r[i].speaker == lines[i].speaker && r[i].text == lines[i].text
              && r[i].metadata == lines[i].metadata
              && r[i].id == (if i < |ids| then Some(ids[i]) else None)
  {
    seq(|lines|, i requires 0 <= i < |lines| =>
      DialogueOption(lines[i].speaker, lines[i].text, lines[i].metadata, if i < |ids| then Some(ids[i]) else None))
  }

  /** The Options payload at `q`: the Line slice at `q`, then the ids slice at `q + 8`
      (a null ids slice counts as empty). */
  function OptionsAt(m: seq<byte>, q: nat): (r: Result<seq<DialogueOption>>)
    ensures r.Ok? ==> SliceAt(m, q, LineSize, LineAt).Ok? && USizeSliceAt(m, q + SliceSize).Ok?
    ensures r.Ok? ==> r.value == ZipOptions(SliceAt(m, q, LineSize, LineAt).value,
                                            USizeSliceAt(m, q + SliceSize).value.GetOr([]))
    ensures SliceAt(m, q, LineSize, LineAt).Err? ==> r == Err(SliceAt(m, q, LineSize, LineAt).error)
  {
    var lines :- SliceAt(m, q + 0, LineSize, LineAt);
    var ids :- USizeSliceAt(m, q + SliceSize);
    Ok(ZipOptions(lines, ids.GetOr([])))
  }

  /** `StepResult.unmarshal` on the view at `p`: dispatch on the tag byte. A Done tag returns
      before the payload view is made; every other tag needs the 4-byte header in bounds; an
      unknown tag throws. */
  function StepResultAt(m: seq<byte>, p: nat): (r: Result<StepResult>)
    ensures p >= |m| ==> r == Err(RangeError)
    ensures p < |m| && m[p] == TagDone ==> r == Ok(Done)
    ensures p < |m| && m[p] != TagDone && p + PayloadOffset > |m| ==> r == Err(RangeError)
    ensures r == Ok(FunctionCalled) <==> p + PayloadOffset <= |m| && m[p] == TagFunctionCalled
    ensures p + PayloadOffset <= |m| && m[p] == TagLine ==>
              r == (if LineAt(m, p + PayloadOffset).Ok? then Ok(LineResult(LineAt(m, p + PayloadOffset).value))
                    else Err(LineAt(m, p + PayloadOffset).error))
    ensures p + PayloadOffset <= |m| && m[p] == TagOptions ==>
              r == (if OptionsAt(m, p + PayloadOffset).Ok? then Ok(Options(OptionsAt(m, p + PayloadOffset).value))
                    else Err(OptionsAt(m, p + PayloadOffset).error))
    ensures p + PayloadOffset <= |m| && m[p] > TagFunctionCalled ==> r == Err(UnknownTag(m[p]))
  {
    if p >= |m| then Err(RangeError)
    else
      var tag := m[p];
      if tag == TagDone then Ok(Done)
      else if p + PayloadOffset > |m| then Err(RangeError)
      else if tag == TagOptions then
        var options :- OptionsAt(m, p + PayloadOffset);
        Ok(Options(options))
      else if tag == TagLine then
        var line :- LineAt(m, p + PayloadOffset);
        Ok(LineResult(line))
      else if tag == TagFunctionCalled then Ok(FunctionCalled)
      else Err(UnknownTag(tag))
  }
}
