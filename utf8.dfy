/** UTF-8 as `TextEncoder` writes it and `TextDecoder` (fatal = false, ignoreBOM = false) reads it.
    Host strings are sequences of Unicode scalar values (`char`). */
module Utf8 {
  import opened Bytes

  /** U+FFFD, produced by the decoder for every maximal ill-formed subsequence. */
  const Replacement: char := '�'

  /** The one to four bytes of a scalar value. */
  function EncodeChar(c: char): (r: seq<byte>)
    ensures 1 <= |r| <= 4
  {
    var n := c as int;
    if n < 0x80 then [n]
    else if n < 0x800 then [0xC0 + n / 0x40, 0x80 + n % 0x40]
    else if n < 0x1_0000 then [0xE0 + n / 0x1000, 0x80 + (n / 0x40) % 0x40, 0x80 + n % 0x40]
    else [0xF0 + n / 0x4_0000, 0x80 + (n / 0x1000) % 0x40, 0x80 + (n / 0x40) % 0x40, 0x80 + n % 0x40]
  }

  /** `new TextEncoder().encode(s)`: the encodings of the scalar values, in order. */
  function Encode(s: string): (r: seq<byte>)
    ensures |s| <= |r| <= 4 * |s|
    decreases |s|, 1
  {
    if s == [] then [] else EncodeFrom(s[0], s[1..])
  }

  /** The encoding of `[c] + rest`: the bytes of `c`, then those of `rest`. */
  function EncodeFrom(c: char, rest: string): (r: seq<byte>)
    ensures 1 + |rest| <= |r| <= 4 + 4 * |rest|
    decreases |rest| + 1, 0
  {
    EncodeChar(c) + Encode(rest)
  }

  predicate InRange(b: byte, lo: byte, hi: byte)
  {
    lo <= b <= hi
  }

  /** One step of the WHATWG UTF-8 decoder: the scalar value at the front of `b` and how many
      bytes it used. An ill-formed prefix yields U+FFFD and consumes the lead byte together with
      the continuation bytes that were still acceptable; the first unacceptable byte is left for
      the next step. */
  function DecodeOne(b: seq<byte>): (r: (char, nat))
    requires |b| > 0
    ensures 1 <= r.1 <= |b|
  {
    var b0: int := b[0];
    if b0 < 0x80 then (b0 as char, 1)
    else if 0xC2 <= b0 <= 0xDF then
      if |b| < 2 || !InRange(b[1], 0x80, 0xBF) then (Replacement, 1)
      else (((b0 - 0xC0) * 0x40 + (b[1] as int - 0x80)) as char, 2)
    else if 0xE0 <= b0 <= 0xEF then
      var lo := if b0 == 0xE0 then 0xA0 else 0x80;
      var hi := if b0 == 0xED then 0x9F else 0xBF;
      if |b| < 2 || !InRange(b[1], lo, hi) then (Replacement, 1)
      else if |b| < 3 || !InRange(b[2], 0x80, 0xBF) then (Replacement, 2)
      else (((b0 - 0xE0) * 0x1000 + (b[1] as int - 0x80) * 0x40 + (b[2] as int - 0x80)) as char, 3)
    else if 0xF0 <= b0 <= 0xF4 then
      var lo := if b0 == 0xF0 then 0x90 else 0x80;
      var hi := if b0 == 0xF4 then 0x8F else 0xBF;
      if |b| < 2 || !InRange(b[1], lo, hi) then (Replacement, 1)
      else if |b| < 3 || !InRange(b[2], 0x80, 0xBF) then (Replacement, 2)
      else if |b| < 4 || !InRange(b[3], 0x80, 0xBF) then (Replacement, 3)
      else
        var cp := (b0 - 0xF0) * 0x4_0000 + (b[1] as int - 0x80) * 0x1000
                  + (b[2] as int - 0x80) * 0x40 + (b[3] as int - 0x80);
        (cp as char, 4)
    else (Replacement, 1)
  }

  /** The scalar values the UTF-8 decoder produces from `b`: total, one per decoder step. */
  function Decode(b: seq<byte>): (s: string)
    ensures |s| <= |b|
    decreases |b|, 1
  {
    if b == [] then [] else DecodeFrom(b)
  }

  /** The decoding of a non-empty `b`: the scalar value at its front, then the rest. */
  function DecodeFrom(b: seq<byte>): (s: string)
    requires |b| > 0
    ensures 1 <= |s| <= |b|
    decreases |b|, 0
  {
    var (c, k) := DecodeOne(b);
    [c] + Decode(b[k..])
  }

  /** U+FEFF, the byte order mark. */
  const Bom: char := '\U{FEFF}'

  /** `s` without a leading byte order mark. */
  function StripBom(s: string): (r: string)
    ensures s != [] && s[0] == Bom ==> r == s[1..]
    ensures (s == [] || s[0] != Bom) ==> r == s
  {
    if s != [] && s[0] == Bom then s[1..] else s
  }

  /** `new TextDecoder("utf8").decode(b)`: the decoded scalar values, except that a leading
      U+FEFF is dropped, since `ignoreBOM` is false by default. */
  function TextDecode(b: seq<byte>): (s: string)
    ensures |s| <= |b|
    ensures Decode(b) != [] && Decode(b)[0] == Bom ==> s == Decode(b)[1..]
    ensures Decode(b) == [] || Decode(b)[0] != Bom ==> s == Decode(b)
  {
    StripBom(Decode(b))
  }

  lemma DecodeTwo(n: int, rest: seq<byte>)
    requires 0x80 <= n < 0x800
    ensures var b := [0xC0 + n / 0x40, 0x80 + n % 0x40] + rest;
            DecodeOne(b) == (n as char, 2)
  {
    var b := [0xC0 + n / 0x40, 0x80 + n % 0x40] + rest;
    assert b[0] == 0xC0 + n / 0x40 && b[1] == 0x80 + n % 0x40;
  }

  lemma DecodeThree(n: int, rest: seq<byte>)
    requires 0x800 <= n < 0x1_0000 && !(0xD800 <= n <= 0xDFFF)
    ensures var b := [0xE0 + n / 0x1000, 0x80 + (n / 0x40) % 0x40, 0x80 + n % 0x40] + rest;
            DecodeOne(b) == (n as char, 3)
  {
    var hi, mid, lo := n / 0x1000, (n / 0x40) % 0x40, n % 0x40;
    assert n / 0x40 == hi * 0x40 + mid;
    assert n == hi * 0x1000 + mid * 0x40 + lo;
    var b := [0xE0 + hi, 0x80 + mid, 0x80 + lo] + rest;
    assert b[0] == 0xE0 + hi && b[1] == 0x80 + mid && b[2] == 0x80 + lo;
  }

  lemma DecodeFour(n: int, rest: seq<byte>)
    requires 0x1_0000 <= n <= 0x10_FFFF
    ensures var b := [0xF0 + n / 0x4_0000, 0x80 + (n / 0x1000) % 0x40, 0x80 + (n / 0x40) % 0x40, 0x80 + n % 0x40] + rest;
            DecodeOne(b) == (n as char, 4)
  {
    var top, hi, mid, lo := n / 0x4_0000, (n / 0x1000) % 0x40, (n / 0x40) % 0x40, n % 0x40;
    assert n / 0x40 == (n / 0x1000) * 0x40 + mid;
    assert n / 0x1000 == top * 0x40 + hi;
    assert n == top * 0x4_0000 + hi * 0x1000 + mid * 0x40 + lo;
    var b := [0xF0 + top, 0x80 + hi, 0x80 + mid, 0x80 + lo] + rest;
    assert b[0] == 0xF0 + top && b[1] == 0x80 + hi && b[2] == 0x80 + mid && b[3] == 0x80 + lo;
  }

  /** The decoder reads back exactly the scalar value one encoder step wrote. */
  lemma DecodeOneEncodeChar(c: char, rest: seq<byte>)
    ensures DecodeOne(EncodeChar(c) + rest) == (c, |EncodeChar(c)|)
  {
    var n := c as int;
    if n < 0x80 {
    } else if n < 0x800 {
      DecodeTwo(n, rest);
    } else if n < 0x1_0000 {
      DecodeThree(n, rest);
    } else {
      DecodeFour(n, rest);
    }
  }

  /** Round trip: decoding the encoding of any host string gives the string back. */
  lemma {:induction false} DecodeEncode(s: string)
    ensures Decode(Encode(s)) == s
  {
    if s != [] {
      var head := EncodeChar(s[0]);
      var tail := Encode(s[1..]);
      assert Encode(s) == EncodeFrom(s[0], s[1..]) == head + tail;
      DecodeOneEncodeChar(s[0], tail);
      assert (head + tail)[|head|..] == tail;
      assert Decode(head + tail) == DecodeFrom(head + tail) == [s[0]] + Decode(tail);
      DecodeEncode(s[1..]);
    }
  }

  /** Encoding distributes over concatenation. */
  lemma {:induction false} EncodeAppend(s: string, t: string)
    ensures Encode(s + t) == Encode(s) + Encode(t)
  {
    if s != [] {
      assert (s + t)[1..] == s[1..] + t;
      assert Encode(s + t) == EncodeFrom(s[0], s[1..] + t);
      assert Encode(s) == EncodeFrom(s[0], s[1..]);
      EncodeAppend(s[1..], t);
    } else {
      assert s + t == t;
    }
  }

  /** Distinct host strings never share an encoding. */
  lemma EncodeInjective(s: string, t: string)
    requires Encode(s) == Encode(t)
    ensures s == t
  {
    DecodeEncode(s);
    DecodeEncode(t);
  }

  /** An all-ASCII byte string decodes byte for byte. */
  lemma {:induction false} DecodeAscii(b: seq<byte>)
    requires forall i :: 0 <= i < |b| ==> b[i] < 0x80
    ensures |Decode(b)| == |b|
    ensures forall i :: 0 <= i < |b| ==> Decode(b)[i] as int == b[i]
  {
    if b != [] {
      DecodeAscii(b[1..]);
      assert Decode(b) == DecodeFrom(b) == [b[0] as char] + Decode(b[1..]);
    }
  }

  /** What `TextDecoder` reads back from the `TextEncoder` bytes of `s`: `s` itself, except for a
      leading byte order mark, which is lost. */
  lemma TextDecodeEncode(s: string)
    ensures TextDecode(Encode(s)) == StripBom(s)
    ensures (s == [] || s[0] != Bom) ==> TextDecode(Encode(s)) == s
  {
    DecodeEncode(s);
  }

  /** A string that starts with U+FEFF does not survive the round trip: its mark is dropped. */
  lemma TextDecodeDropsBom(t: string)
    ensures TextDecode(Encode([Bom] + t)) == t
    ensures TextDecode(Encode([Bom] + t)) != [Bom] + t
  {
    TextDecodeEncode([Bom] + t);
    assert ([Bom] + t)[1..] == t;
  }
}
