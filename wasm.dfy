/** The memory bridge of `js/src/wasm.ts`: the foreign module's linear memory and allocator, and
    the helpers that move strings across it. */
module Wasm {
  import opened Wrappers
  import opened Bytes
  import opened Utf8

  /** The JavaScript values `assert` may be handed, as far as truthiness goes. */
  datatype JsValue =
    | Undefined
    | Null
    | Boolean(b: bool)
    | Number(n: int)
    | BigInt(i: int)
    | Str(s: string)
    | Object

  /** The falsy values of JavaScript (NaN aside: numbers here are integers). */
  predicate Falsy(v: JsValue)
  {
    v in {Undefined, Null, Boolean(false), Number(0), BigInt(0), Str("")}
  }

  const DefaultAssertMessage: string := "AssertionError: condition was falsey"

  /** `assert(condition, message?)`: throws exactly when the condition is falsy, with the given
      message or, when none is given, the default one. */
  function Assert(condition: JsValue, message: Option<string>): (r: Result<()>)
    ensures r.Ok? <==> !Falsy(condition)
    ensures r.Err? ==> r.error == AssertionError(message.GetOr(DefaultAssertMessage))
  {
    if Falsy(condition) then Err(AssertionError(message.GetOr(DefaultAssertMessage))) else Ok(())
  }

  /** A string that lives in foreign memory: the host copy and the (pointer, length) it was
      decoded from. `len` is a JavaScript number and can be -1 (see `CStringAt`). */
  datatype WasmStr = WasmStr(value: string, ptr: nat, len: int)

  /** The arguments of one call of the foreign `free(ptr, len)`. */
  datatype Region = Region(ptr: nat, len: int)

  /** No two live regions share a byte. */
  ghost predicate RegionsDisjoint(live: map<nat, nat>)
  {
    forall p, q :: p in live && q in live && p != q ==> Disjoint(p, live[p], q, live[q])
  }

  /** The foreign module's exported `memory`, `malloc` and `free`. The allocator belongs to the
      foreign module; here it is a grow-only allocator whose contract promises no more than a
      fresh, non-null, in-bounds region. */
  class Memory {
    /** `memory.buffer`, re-read at every access, so growth is always seen. */
    var buffer: seq<byte>
    /** The allocator's next free address. */
    var top: nat
    /** The regions grown and not yet freed, pointer to byte count. */
    ghost var live: map<nat, nat>
    /** Every call of `free`, in order. */
    ghost var frees: seq<Region>

    ghost predicate Valid()
      reads this
    {
      && 1 <= top <= |buffer|
      && (forall p :: p in live ==> 1 <= p < top && p + live[p] <= top)
      && RegionsDisjoint(live)
    }

    /** A memory whose first bytes are `initial` (data the foreign module placed there) and
        whose heap starts after them. */
    constructor (initial: seq<byte>)
      ensures Valid()
      ensures |buffer| >= |initial| && buffer[..|initial|] == initial
      ensures live == map[] && frees == []
    {
      top := if |initial| == 0 then 1 else |initial|;
      buffer := initial + Zeros(if |initial| == 0 then 1 else 0);
      live := map[];
      frees := [];
    }

    /** `malloc(n)`: a fresh region of `n` bytes, disjoint from every live one. Memory may grow;
        no byte that existed before changes. */
    method Malloc(n: nat) returns (p: nat)
      requires Valid()
      modifies this
      ensures Valid() && frees == old(frees)
      ensures p != 0 && p + n <= |buffer|
      ensures p !in old(live) && live == old(live)[p := n]
      ensures forall q :: q in old(live) ==> Disjoint(p, n, q, old(live)[q])
      ensures |old(buffer)| <= |buffer| && buffer[..|old(buffer)|] == old(buffer)
    {
      p := top;
      top := top + (if n == 0 then 1 else n);
      if top > |buffer| {
        buffer := buffer + Zeros(top - |buffer|);
      }
      live := live[p := n];
    }

    /** `free(ptr, len)`: the foreign allocator's contract demands a live region with its own
        length. */
    method Free(p: nat, n: int)
      requires Valid() && p in live && n == live[p]
      modifies this
      ensures Valid() && buffer == old(buffer)
      ensures live == old(live) - {p} && frees == old(frees) + [Region(p, n)]
    {
      live := live - {p};
      frees := frees + [Region(p, n)];
    }

    /** `DataView.setUint8`. */
    method SetUint8(at: nat, b: byte)
      requires Valid() && at < |buffer|
      modifies this
      ensures Valid() && live == old(live) && frees == old(frees)
      ensures buffer == old(buffer)[at := b]
    {
      buffer := buffer[at := b];
    }

    /** Stores `bytes` at `at`, as the foreign module or `DataView.setUint32` does. */
    method Write(at: nat, bytes: seq<byte>)
      requires Valid() && at + |bytes| <= |buffer|
      modifies this
      ensures Valid() && live == old(live) && frees == old(frees)
      ensures buffer == Overwrite(old(buffer), at, bytes)
    {
      buffer := Overwrite(buffer, at, bytes);
    }
  }

  /** `ptrAndLenToStr(ptr, len)`: decodes `buffer.slice(ptr, ptr + len)` as UTF-8. In bounds that
      is exactly the bytes `[ptr, ptr + len)`; the pointer and length are reported as given. */
  function PtrAndLenToStr(m: seq<byte>, ptr: nat, len: int): (w: WasmStr)
    ensures w.ptr == ptr && w.len == len
    ensures 0 <= len && ptr + len <= |m| ==> w.value == TextDecode(m[ptr..ptr + len])
  {
    WasmStr(TextDecode(JsSlice(m, ptr, ptr + len)), ptr, len)
  }

  /** `unmarshalString(ptr, len)`, which delegates to `ptrAndLenToStr`. */
  function UnmarshalString(m: seq<byte>, ptr: nat, len: int): (w: WasmStr)
    ensures w.ptr == ptr && w.len == len
    ensures 0 <= len && ptr + len <= |m| ==> w.value == TextDecode(m[ptr..ptr + len])
  {
    PtrAndLenToStr(m, ptr, len)
  }

  /** A `ptrAndLenToStr` result read past the end of memory decodes only what is there. */
  lemma PtrAndLenToStrClamps(m: seq<byte>, ptr: nat, len: nat)
    requires ptr <= |m| < ptr + len
    ensures PtrAndLenToStr(m, ptr, len).value == TextDecode(m[ptr..])
  {
    assert JsSlice(m, ptr, ptr + len) == m[ptr..];
  }

  /** The `free` of a `WasmStr`: releases exactly the pointer and length it reports. */
  method FreeString(mem: Memory, w: WasmStr)
    requires mem.Valid() && w.ptr in mem.live && w.len == mem.live[w.ptr]
    modifies mem
    ensures mem.Valid() && mem.buffer == old(mem.buffer)
    ensures mem.live == old(mem.live) - {w.ptr}
    ensures mem.frees == old(mem.frees) + [Region(w.ptr, w.len)]
  {
    mem.Free(w.ptr, w.len);
  }

  /** `marshalString(s)`: allocates exactly the UTF-8 length of `s`, copies the bytes in without
      a terminator, touches nothing else, and returns a `WasmStr` whose value is what
      `TextDecoder` reads back: `s`, less a leading byte order mark. */
  method MarshalString(mem: Memory, s: string) returns (w: WasmStr)
    requires mem.Valid()
    modifies mem
    ensures mem.Valid() && mem.frees == old(mem.frees)
    ensures w.value == StripBom(s) && w.len == |Encode(s)| && w.ptr != 0
    ensures w.ptr !in old(mem.live) && mem.live == old(mem.live)[w.ptr := w.len]
    ensures forall q :: q in old(mem.live) ==> Disjoint(w.ptr, w.len, q, old(mem.live)[q])
    ensures w.ptr + w.len <= |mem.buffer| && mem.buffer[w.ptr..w.ptr + w.len] == Encode(s)
    ensures AgreeOutside(old(mem.buffer), mem.buffer, w.ptr, w.len)
  {
    var bytes := Encode(s);
    var p := mem.Malloc(|bytes|);
    ghost var grown := mem.buffer;
    var i := 0;
    while i < |bytes|
      invariant 0 <= i <= |bytes|
      invariant mem.Valid() && mem.live == old(mem.live)[p := |bytes|] && mem.frees == old(mem.frees)
      invariant |mem.buffer| == |grown|
      invariant forall j :: 0 <= j < |grown| && !(p <= j < p + i) ==> mem.buffer[j] == grown[j]
      invariant forall j :: 0 <= j < i ==> mem.buffer[p + j] == bytes[j]
    {
      mem.SetUint8(p + i, bytes[i]);
      i := i + 1;
    }
    assert mem.buffer[p..p + |bytes|] == bytes;
    w := PtrAndLenToStr(mem.buffer, p, |bytes|);
    TextDecodeEncode(s);
  }

  /** The index of the first zero byte of `t`, or `|t|` when there is none. */
  function FirstZero(t: seq<byte>): (i: nat)
    ensures i <= |t|
    ensures forall j :: 0 <= j < i ==> t[j] != 0
    ensures i < |t| ==> t[i] == 0
  {
    if t == [] || t[0] == 0 then 0 else 1 + FirstZero(t[1..])
  }

  /** What `ptrToStr(ptr)` returns: it scans `buffer.slice(ptr)` for the first zero byte (or its
      end) and then decodes with length `i - 1`, one less than the scan index `i`. */
  function CStringAt(m: seq<byte>, ptr: nat): (w: WasmStr)
    ensures w.ptr == ptr && -1 <= w.len < |JsSlice(m, ptr, |m|)|
  {
    PtrAndLenToStr(m, ptr, FirstZero(JsSlice(m, ptr, |m|)) - 1)
  }

  /** `ptrToStr(ptr)`: the scanning loop, proved to compute `CStringAt`. */
  method PtrToStr(mem: Memory, ptr: nat) returns (w: WasmStr)
    ensures w == CStringAt(mem.buffer, ptr)
  {
    var slice := JsSlice(mem.buffer, ptr, |mem.buffer|);
    var i := 0;
    while i < |slice| && slice[i] != 0
      invariant 0 <= i <= |slice|
      invariant forall j :: 0 <= j < i ==> slice[j] != 0
    {
      i := i + 1;
    }
    w := PtrAndLenToStr(mem.buffer, ptr, i - 1);
  }

  /** For a terminated string of bytes `b` at a non-null pointer, `ptrToStr` reports length
      `|b| - 1` and drops the last byte before the terminator. */
  lemma CStringDropsLastByte(m: seq<byte>, ptr: nat, b: seq<byte>)
    requires 1 <= ptr && ptr + |b| < |m|
    requires m[ptr..ptr + |b|] == b && m[ptr + |b|] == 0
    requires forall j :: 0 <= j < |b| ==> b[j] != 0
    ensures CStringAt(m, ptr).len == |b| - 1
    ensures |b| == 0 ==> CStringAt(m, ptr).value == []
    ensures |b| > 0 ==> CStringAt(m, ptr).value == TextDecode(b[..|b| - 1])
  {
    var t := JsSlice(m, ptr, |m|);
    assert t == m[ptr..];
    assert t[..|b|] == b;
    FirstZeroAfterPrefix(t, b);
    if |b| == 0 {
      assert JsSlice(m, ptr, ptr - 1) == [];
    } else {
      assert m[ptr..ptr + (|b| - 1)] == b[..|b| - 1];
    }
  }

  /** The first zero of `t` is right after a zero-free prefix `b` followed by a zero. */
  lemma FirstZeroAfterPrefix(t: seq<byte>, b: seq<byte>)
    requires |b| < |t| && t[..|b|] == b && t[|b|] == 0
    requires forall j :: 0 <= j < |b| ==> b[j] != 0
    ensures FirstZero(t) == |b|
  {
  }

  /** At pointer 0 with a zero first byte the length is -1, which `buffer.slice` reads as "up to
      the last byte": the whole memory but its final byte is decoded. */
  lemma CStringAtNullWraps(m: seq<byte>)
    requires |m| > 0 && m[0] == 0
    ensures CStringAt(m, 0).len == -1
    ensures CStringAt(m, 0).value == TextDecode(m[..|m| - 1])
  {
    assert JsSlice(m, 0, |m|) == m;
  }

  /** "hi" followed by its terminator, at address 1, reads back as "h". */
  lemma CStringExample()
    ensures CStringAt([0, 0x68, 0x69, 0], 1).value == "h"
  {
    var m: seq<byte> := [0, 0x68, 0x69, 0];
    CStringDropsLastByte(m, 1, [0x68, 0x69]);
    assert [0x68, 0x69][..1] == [0x68];
    assert Decode([0x68]) == DecodeFrom([0x68]) == [0x68 as char] + Decode([]);
  }

  /** `marshalSlice`: not implemented, always throws. */
  function MarshalSlice(s: string): (r: Result<WasmStr>)
    ensures r == Err(Unimplemented)
  {
    Err(Unimplemented)
  }

  /** `unmarshalSlice`: not implemented, always throws. */
  function UnmarshalSlice(ptr: nat, len: int): (r: Result<WasmStr>)
    ensures r == Err(Unimplemented)
  {
    Err(Unimplemented)
  }
}
