/** The wire layout written out the other way round: how the foreign module lays a result into
    memory. Decoding a layout built this way gives back the value it describes, which is the
    specification the decoders of module Wire are proved against. */
module WireLayout {
  import opened Wrappers
  import opened Bytes
  import opened Utf8
  import opened Wasm
  import opened Wire

  /** The two fields of a slice record: data pointer and element count. */
  datatype SliceRef = SliceRef(ptr: nat, count: nat)

  predicate Fits(r: SliceRef)
  {
    r.ptr < U32Limit && r.count < U32Limit
  }

  /** The 8-byte record of a slice: little-endian pointer, then little-endian count. */
  function SliceRecord(r: SliceRef): (b: seq<byte>)
    requires Fits(r)
    ensures |b| == SliceSize
  {
    LE32(r.ptr) + LE32(r.count)
  }

  /** `r` points at the UTF-8 encoding of `s`. */
  ghost predicate Holds(m: seq<byte>, r: SliceRef, s: string)
  {
    r.ptr != 0 && r.count == |Encode(s)| && r.ptr + r.count <= |m| && m[r.ptr..r.ptr + r.count] == Encode(s)
  }

  datatype LineRefs = LineRefs(speaker: SliceRef, text: SliceRef, metadata: SliceRef)

  predicate LineFits(refs: LineRefs)
  {
    Fits(refs.speaker) && Fits(refs.text) && Fits(refs.metadata)
  }

  /** A Line as the host reads it back: `TextDecoder` drops a leading byte order mark from each
      of its strings, and an absent metadata stays absent. */
  function Received(line: Line): (r: Line)
    ensures r.metadata.None? <==> line.metadata.None?
    ensures |r.speaker| <= |line.speaker| && |r.text| <= |line.text|
  {
    Line(StripBom(line.speaker), StripBom(line.text),
         if line.metadata.None? then None else Some(StripBom(line.metadata.value)))
  }

  function ReceivedAll(lines: seq<Line>): (r: seq<Line>)
    ensures |r| == |lines| && forall i :: 0 <= i < |lines| ==> r[i] == Received(lines[i])
  {
    seq(|lines|, i requires 0 <= i < |lines| => Received(lines[i]))
  }

  /** Strings that do not start with a byte order mark. */
  predicate NoBom(s: string)
  {
    s == [] || s[0] != Bom
  }

  /** A Line none of whose strings starts with a byte order mark is received unchanged. */
  lemma ReceivedUnchanged(line: Line)
    requires NoBom(line.speaker) && NoBom(line.text)
    requires line.metadata.Some? ==> NoBom(line.metadata.value)
    ensures Received(line) == line
  {
  }

  /** The 24-byte Line record: speaker, text and metadata slices in that order. */
  function LineRecord(refs: LineRefs): (b: seq<byte>)
    requires LineFits(refs)
    ensures |b| == LineSize
  {
    SliceRecord(refs.speaker) + SliceRecord(refs.text) + SliceRecord(refs.metadata)
  }

  /** The Line record at `off` and the strings it points to describe `line`; an absent
      metadata is a null slice. */
  ghost predicate LineStored(m: seq<byte>, off: nat, refs: LineRefs, line: Line)
  {
    && LineFits(refs)
    && off + LineSize <= |m| && m[off..off + LineSize] == LineRecord(refs)
    && Holds(m, refs.speaker, line.speaker)
    && Holds(m, refs.text, line.text)
    && (if line.metadata.None? then refs.metadata.ptr == 0 else Holds(m, refs.metadata, line.metadata.value))
  }

  /** The slice record at `off` reads back as the pointer and count of `r`. */
  ghost predicate RefAt(m: seq<byte>, off: nat, r: SliceRef)
  {
    off + SliceSize <= |m| && U32At(m, off) == r.ptr && U32At(m, off + 4) == r.count
  }

  lemma SliceRecordFields(m: seq<byte>, off: nat, r: SliceRef)
    requires Fits(r) && off + SliceSize <= |m| && m[off..off + SliceSize] == SliceRecord(r)
    ensures RefAt(m, off, r)
  {
    assert m[off..off + 4] == SliceRecord(r)[..4] == LE32(r.ptr);
    assert m[off + 4..off + 8] == SliceRecord(r)[4..] == LE32(r.count);
    LE32RoundTrip(m, off, r.ptr);
    LE32RoundTrip(m, off + 4, r.count);
  }

  /** A slice record pointing at the encoding of `s` decodes to `s` (less a leading byte order
      mark), with its pointer and count. */
  lemma StringSliceRoundTrip(m: seq<byte>, off: nat, r: SliceRef, s: string)
    requires RefAt(m, off, r) && Holds(m, r, s)
    ensures StringSliceAt(m, off) == Ok(Some(WasmStr(StripBom(s), r.ptr, r.count)))
  {
    TextDecodeEncode(s);
    assert UnmarshalString(m, r.ptr, r.count) == WasmStr(StripBom(s), r.ptr, r.count);
  }

  /** A null slice record decodes to `undefined`. */
  lemma NullSliceRoundTrip(m: seq<byte>, off: nat, r: SliceRef)
    requires RefAt(m, off, r) && r.ptr == 0
    ensures StringSliceAt(m, off) == Ok(None)
  {
  }

  /** The Line record's three slice records, at offsets 0, 8 and 16. */
  lemma LineRecordFields(m: seq<byte>, off: nat, refs: LineRefs)
    requires LineFits(refs) && off + LineSize <= |m| && m[off..off + LineSize] == LineRecord(refs)
    ensures RefAt(m, off, refs.speaker) && RefAt(m, off + 8, refs.text) && RefAt(m, off + 16, refs.metadata)
  {
    var a, b, c := SliceRecord(refs.speaker), SliceRecord(refs.text), SliceRecord(refs.metadata);
    var rec := m[off..off + LineSize];
    assert rec == a + b + c;
    assert (a + b + c)[..8] == a && (a + b + c)[8..16] == b && (a + b + c)[16..] == c;
    SubSlice(m, off, off + LineSize, 0, 8);
    SubSlice(m, off, off + LineSize, 8, 16);
    SubSlice(m, off, off + LineSize, 16, 24);
    SliceRecordFields(m, off, refs.speaker);
    SliceRecordFields(m, off + 8, refs.text);
    SliceRecordFields(m, off + 16, refs.metadata);
  }

  /** Decoding a stored Line gives the Line as the host receives it. */
  lemma LineRoundTrip(m: seq<byte>, off: nat, refs: LineRefs, line: Line)
    requires LineStored(m, off, refs, line)
    ensures LineAt(m, off) == Ok(Received(line))
  {
    LineRecordFields(m, off, refs);
    LineFieldsRoundTrip(m, off, refs, line);
  }

  /** `LineRoundTrip` once the three slice records have been read back. */
  lemma LineFieldsRoundTrip(m: seq<byte>, off: nat, refs: LineRefs, line: Line)
    requires RefAt(m, off, refs.speaker) && RefAt(m, off + 8, refs.text) && RefAt(m, off + 16, refs.metadata)
    requires Holds(m, refs.speaker, line.speaker) && Holds(m, refs.text, line.text)
    requires if line.metadata.None? then refs.metadata.ptr == 0 else Holds(m, refs.metadata, line.metadata.value)
    ensures LineAt(m, off) == Ok(Received(line))
  {
    var textOff, metadataOff := off + StringSliceSize, off + 2 * StringSliceSize;
    assert textOff == off + 8 && metadataOff == off + 16;
    StringSliceRoundTrip(m, off, refs.speaker, line.speaker);
    StringSliceRoundTrip(m, textOff, refs.text, line.text);
    var speaker := WasmStr(StripBom(line.speaker), refs.speaker.ptr, refs.speaker.count);
    var text := WasmStr(StripBom(line.text), refs.text.ptr, refs.text.count);
    if line.metadata.None? {
      NullSliceRoundTrip(m, metadataOff, refs.metadata);
      LineOfSlices(m, off, speaker, text, None);
      assert Received(line) == Line(speaker.value, text.value, None);
    } else {
      StringSliceRoundTrip(m, metadataOff, refs.metadata, line.metadata.value);
      var metadata := WasmStr(StripBom(line.metadata.value), refs.metadata.ptr, refs.metadata.count);
      LineOfSlices(m, off, speaker, text, Some(metadata));
      assert Received(line) == Line(speaker.value, text.value, Some(metadata.value));
    }
  }

  /** A Line record whose three string slices decode gives the Line of their values. */
  lemma LineOfSlices(m: seq<byte>, off: nat, speaker: WasmStr, text: WasmStr, metadata: Option<WasmStr>)
    requires StringSliceAt(m, off) == Ok(Some(speaker))
    requires StringSliceAt(m, off + StringSliceSize) == Ok(Some(text))
    requires StringSliceAt(m, off + 2 * StringSliceSize) == Ok(metadata)
    ensures LineAt(m, off) == Ok(Line(speaker.value, text.value, MetadataOf(metadata)))
  {
  }

  /** A result buffer tagged Line with a stored Line payload decodes to that Line. */
  lemma StepLineRoundTrip(m: seq<byte>, p: nat, refs: LineRefs, line: Line)
    requires p + PayloadOffset <= |m| && m[p] == TagLine
    requires LineStored(m, p + PayloadOffset, refs, line)
    ensures StepResultAt(m, p) == Ok(LineResult(Received(line)))
  {
    LineRoundTrip(m, p + PayloadOffset, refs, line);
  }

  /** `ids[i]` is stored as a little-endian u32 at `base + 4 * i`. */
  ghost predicate IdsStored(m: seq<byte>, base: nat, ids: seq<nat>)
  {
    forall i :: 0 <= i < |ids| ==>
      ids[i] < U32Limit && base + i * USizeSize + 4 <= |m| && m[base + i * USizeSize..base + i * USizeSize + 4] == LE32(ids[i])
  }

  /** A result buffer tagged Options whose Line slice and ids slice describe `lines` and `ids`
      of equal length decodes to the options pairing line `i`, as received, with id `i`. */
  lemma StepOptionsRoundTrip(m: seq<byte>, p: nat, texts: SliceRef, refs: seq<LineRefs>, lines: seq<Line>,
                             idsRef: SliceRef, ids: seq<nat>)
    requires p + PayloadOffset + 2 * SliceSize <= |m| && m[p] == TagOptions
    requires Fits(texts) && texts.ptr != 0 && texts.count == |lines| == |refs|
    requires m[p + PayloadOffset..p + PayloadOffset + SliceSize] == SliceRecord(texts)
    requires forall i :: 0 <= i < |lines| ==> LineStored(m, texts.ptr + i * LineSize, refs[i], lines[i])
    requires Fits(idsRef) && idsRef.ptr != 0 && idsRef.count == |ids| == |lines|
    requires m[p + PayloadOffset + SliceSize..p + PayloadOffset + 2 * SliceSize] == SliceRecord(idsRef)
    requires IdsStored(m, idsRef.ptr, ids)
    ensures StepResultAt(m, p).Ok? && StepResultAt(m, p).value.Options?
    ensures var options := StepResultAt(m, p).value.options;
            |options| == |lines|
            && forall i :: 0 <= i < |lines| ==>
                 var line := Received(lines[i]);
                 options[i] == DialogueOption(line.speaker, line.text, line.metadata, Some(ids[i]))
  {
    var q := p + PayloadOffset;
    SliceRecordFields(m, q, texts);
    SliceRecordFields(m, q + SliceSize, idsRef);
    LinesRoundTrip(m, texts.ptr, refs, lines);
    IdsRoundTrip(m, idsRef.ptr, ids);
    OptionsFieldsRoundTrip(m, p, texts, ReceivedAll(lines), idsRef, ids);
  }

  /** `StepOptionsRoundTrip` once both slice records have been read back and both arrays
      decoded. */
  lemma OptionsFieldsRoundTrip(m: seq<byte>, p: nat, texts: SliceRef, lines: seq<Line>, idsRef: SliceRef, ids: seq<nat>)
    requires p + PayloadOffset + 2 * SliceSize <= |m| && m[p] == TagOptions
    requires RefAt(m, p + PayloadOffset, texts) && RefAt(m, p + PayloadOffset + SliceSize, idsRef)
    requires texts.ptr != 0 && texts.count == |lines| && idsRef.ptr != 0 && idsRef.count == |ids| == |lines|
    requires Items(m, texts.ptr, LineSize, |lines|, LineAt) == Ok(lines)
    requires Items(m, idsRef.ptr, USizeSize, |ids|, ReadU32) == Ok(ids)
    ensures StepResultAt(m, p).Ok? && StepResultAt(m, p).value.Options?
    ensures var options := StepResultAt(m, p).value.options;
            |options| == |lines|
            && forall i :: 0 <= i < |lines| ==>
                 options[i] == DialogueOption(lines[i].speaker, lines[i].text, lines[i].metadata, Some(ids[i]))
  {
    var q := p + PayloadOffset;
    SliceOfItems(m, q, texts, LineSize, LineAt, lines);
    USizeSliceOfItems(m, q + SliceSize, idsRef, ids);
    OptionsOfSlices(m, q, lines, ids);
    StepOptionsOf(m, p, ZipOptions(lines, ids));
    ZipOptionsPairs(lines, ids);
  }

  /** With as many ids as lines, option `i` is line `i` with id `i`. */
  lemma ZipOptionsPairs(lines: seq<Line>, ids: seq<nat>)
    requires |ids| == |lines|
    ensures var options := ZipOptions(lines, ids);
            |options| == |lines|
            && forall i :: 0 <= i < |lines| ==>
                 options[i] == DialogueOption(lines[i].speaker, lines[i].text, lines[i].metadata, Some(ids[i]))
  {
    var options := ZipOptions(lines, ids);
    forall i | 0 <= i < |lines|
      ensures options[i] == DialogueOption(lines[i].speaker, lines[i].text, lines[i].metadata, Some(ids[i]))
    {
      var o := options[i];
      assert o == DialogueOption(o.speaker, o.text, o.metadata, o.id);
    }
  }

  /** A non-null slice record whose elements decode gives those elements. */
  lemma SliceOfItems<T>(m: seq<byte>, off: nat, r: SliceRef, size: nat, elem: (seq<byte>, nat) -> Result<T>, xs: seq<T>)
    requires RefAt(m, off, r) && r.ptr != 0 && r.count == |xs|
    requires Items(m, r.ptr, size, |xs|, elem) == Ok(xs)
    ensures SliceAt(m, off, size, elem) == Ok(xs)
  {
  }

  /** A non-null ids slice record whose ids decode gives those ids. */
  lemma USizeSliceOfItems(m: seq<byte>, off: nat, r: SliceRef, ids: seq<nat>)
    requires RefAt(m, off, r) && r.ptr != 0 && r.count == |ids|
    requires Items(m, r.ptr, USizeSize, |ids|, ReadU32) == Ok(ids)
    ensures USizeSliceAt(m, off) == Ok(Some(ids))
  {
  }

  /** An Options payload whose two slices decode pairs the lines with the ids. */
  lemma OptionsOfSlices(m: seq<byte>, q: nat, lines: seq<Line>, ids: seq<nat>)
    requires SliceAt(m, q, LineSize, LineAt) == Ok(lines)
    requires USizeSliceAt(m, q + SliceSize) == Ok(Some(ids))
    ensures OptionsAt(m, q) == Ok(ZipOptions(lines, ids))
  {
  }

  /** A buffer tagged Options whose payload decodes to `options` is that Options result. */
  lemma StepOptionsOf(m: seq<byte>, p: nat, options: seq<DialogueOption>)
    requires p + PayloadOffset <= |m| && m[p] == TagOptions
    requires OptionsAt(m, p + PayloadOffset) == Ok(options)
    ensures StepResultAt(m, p) == Ok(Options(options))
  {
  }

  /** An array of stored Lines decodes element by element to those Lines, as received. */
  lemma LinesRoundTrip(m: seq<byte>, base: nat, refs: seq<LineRefs>, lines: seq<Line>)
    requires |refs| == |lines|
    requires forall i :: 0 <= i < |lines| ==> LineStored(m, base + i * LineSize, refs[i], lines[i])
    ensures Items(m, base, LineSize, |lines|, LineAt) == Ok(ReceivedAll(lines))
  {
    var received := ReceivedAll(lines);
    forall i | 0 <= i < |lines|
      ensures ElemAt(m, base, LineSize, i, LineAt) == Ok(received[i])
    {
      LineRoundTrip(m, base + i * LineSize, refs[i], lines[i]);
    }
    ItemsOfElems(m, base, LineSize, received, LineAt);
  }

  /** A stored array of ids decodes to those ids. */
  lemma IdsRoundTrip(m: seq<byte>, base: nat, ids: seq<nat>)
    requires IdsStored(m, base, ids)
    ensures Items(m, base, USizeSize, |ids|, ReadU32) == Ok(ids)
  {
    forall i | 0 <= i < |ids|
      ensures ElemAt(m, base, USizeSize, i, ReadU32) == Ok(ids[i])
    {
      LE32RoundTrip(m, base + i * USizeSize, ids[i]);
    }
    ItemsOfElems(m, base, USizeSize, ids, ReadU32);
  }

  /** When every element decodes to the corresponding `xs[i]`, the array decodes to `xs`. */
  lemma ItemsOfElems<T>(m: seq<byte>, base: nat, size: nat, xs: seq<T>, elem: (seq<byte>, nat) -> Result<T>)
    requires forall i :: 0 <= i < |xs| ==> ElemAt(m, base, size, i, elem) == Ok(xs[i])
    ensures Items(m, base, size, |xs|, elem) == Ok(xs)
  {
    var r := Items(m, base, size, |xs|, elem);
    assert r.Ok?;
    forall i | 0 <= i < |xs| ensures r.value[i] == xs[i] {
      assert ElemAt(m, base, size, i, elem) == Ok(r.value[i]);
    }
    assert r.value == xs;
  }
}
