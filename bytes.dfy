/** Bytes of the foreign module's linear memory and the primitive ways the host reads them. */
module Bytes {

  type byte = x: int | 0 <= x < 256

  /** One past the largest unsigned 32-bit value: pointers and lengths on the wire are u32. */
  const U32Limit: nat := 0x1_0000_0000

  /** `DataView.getUint32(off, true)`: the little-endian u32 stored at `off`. */
  function U32At(m: seq<byte>, off: nat): (r: nat)
    requires off + 4 <= |m|
    ensures r < U32Limit
  {
    var b0: int, b1: int, b2: int, b3: int := m[off], m[off + 1], m[off + 2], m[off + 3];
    b0 + 0x100 * b1 + 0x1_0000 * b2 + 0x100_0000 * b3
  }

  /** The four little-endian bytes of a u32, as `DataView.setUint32(off, x, true)` writes them. */
  function LE32(x: nat): (r: seq<byte>)
    requires x < U32Limit
    ensures |r| == 4
  {
    [x % 0x100, (x / 0x100) % 0x100, (x / 0x1_0000) % 0x100, x / 0x100_0000]
  }

  /** Reading back what `LE32` wrote gives the original value. */
  lemma LE32RoundTrip(m: seq<byte>, off: nat, x: nat)
    requires x < U32Limit
    requires off + 4 <= |m| && m[off..off + 4] == LE32(x)
    ensures U32At(m, off) == x
  {
    var b := LE32(x);
    var w := m[off..off + 4];
    assert m[off] == w[0] == b[0] && m[off + 1] == w[1] == b[1];
    assert m[off + 2] == w[2] == b[2] && m[off + 3] == w[3] == b[3];
    var q1 := x / 0x100;
    var q2 := q1 / 0x100;
    assert x == b[0] + 0x100 * q1;
    assert q1 == b[1] + 0x100 * q2;
    assert q2 == x / 0x1_0000;
    assert q2 == b[2] + 0x100 * (q2 / 0x100);
    assert q2 / 0x100 == x / 0x100_0000;
  }

  function Zeros(n: nat): (r: seq<byte>)
    ensures |r| == n && forall i :: 0 <= i < n ==> r[i] == 0
  {
    seq(n, _ => 0)
  }

  /** The index `ArrayBuffer.prototype.slice` derives from a relative index: negative values
      count from the end, and the result is clamped to `[0, len]`. */
  function Clamp(rel: int, len: nat): (r: nat)
    ensures r <= len
    ensures 0 <= rel <= len ==> r == rel
  {
    if rel < 0 then (if len + rel < 0 then 0 else len + rel)
    else if rel > len then len
    else rel
  }

  /** `buffer.slice(start, end)`: never throws; out-of-range indices are clamped, negative ones
      count from the end, and an end before the start gives the empty buffer. */
  function JsSlice(m: seq<byte>, start: int, end: int): (r: seq<byte>)
    ensures 0 <= start <= end <= |m| ==> r == m[start..end]
    ensures |r| <= |m|
  {
    var first := Clamp(start, |m|);
    var final := Clamp(end, |m|);
    if first <= final then m[first..final] else []
  }

  /** `m` with `bytes` stored from offset `off` on. */
  function Overwrite(m: seq<byte>, off: nat, bytes: seq<byte>): (r: seq<byte>)
    requires off + |bytes| <= |m|
    ensures |r| == |m| && r[off..off + |bytes|] == bytes
    ensures forall i :: 0 <= i < |m| && !(off <= i < off + |bytes|) ==> r[i] == m[i]
  {
    m[..off] + bytes + m[off + |bytes|..]
  }

  /** `b` extends `a` and agrees with it on every byte outside `[p, p + n)`. */
  ghost predicate AgreeOutside(a: seq<byte>, b: seq<byte>, p: nat, n: nat)
  {
    |a| <= |b| && forall i :: 0 <= i < |a| && !(p <= i < p + n) ==> b[i] == a[i]
  }

  /** `b` extends `a` and agrees with it on every byte outside `[p, p + n)` and `[q, q + k)`. */
  ghost predicate AgreeOutsideTwo(a: seq<byte>, b: seq<byte>, p: nat, n: nat, q: nat, k: nat)
  {
    |a| <= |b| && forall i :: 0 <= i < |a| && !(p <= i < p + n) && !(q <= i < q + k) ==> b[i] == a[i]
  }

  /** A change outside one region followed by a change outside another is a change outside
      both. */
  lemma AgreeOutsideCompose(a: seq<byte>, b: seq<byte>, c: seq<byte>, p: nat, n: nat, q: nat, k: nat)
    requires AgreeOutside(a, b, p, n) && AgreeOutside(b, c, q, k)
    ensures AgreeOutsideTwo(a, c, p, n, q, k)
  {
  }

  /** A further change inside the second region keeps the bytes outside both. */
  lemma AgreeOutsideTwoExtend(a: seq<byte>, b: seq<byte>, c: seq<byte>, p: nat, n: nat, q: nat, k: nat)
    requires AgreeOutsideTwo(a, b, p, n, q, k) && AgreeOutside(b, c, q, k)
    ensures AgreeOutsideTwo(a, c, p, n, q, k)
  {
  }

  /** The half-open regions `[p, p + n)` and `[q, q + k)` share no byte. */
  predicate Disjoint(p: nat, n: int, q: nat, k: int)
  {
    p + n <= q || q + k <= p
  }

  /** What a region holds is kept by any change confined to a disjoint region. */
  lemma AgreeOutsideKeeps(a: seq<byte>, b: seq<byte>, p: nat, n: nat, q: nat, k: nat)
    requires AgreeOutside(a, b, p, n) && Disjoint(p, n, q, k) && q + k <= |a|
    ensures b[q..q + k] == a[q..q + k]
  {
    var now, before := b[q..q + k], a[q..q + k];
    forall i | 0 <= i < k
      ensures now[i] == before[i]
    {
      assert now[i] == b[q + i] && before[i] == a[q + i];
    }
  }

  /** What a region holds is kept by changes confined to two regions disjoint from it. */
  lemma AgreeOutsideTwoKeeps(a: seq<byte>, b: seq<byte>, p: nat, n: nat, q: nat, k: nat, r: nat, m: nat)
    requires AgreeOutsideTwo(a, b, p, n, q, k) && Disjoint(p, n, r, m) && Disjoint(q, k, r, m) && r + m <= |a|
    ensures b[r..r + m] == a[r..r + m]
  {
    var now, before := b[r..r + m], a[r..r + m];
    forall i | 0 <= i < m
      ensures now[i] == before[i]
    {
      assert now[i] == b[r + i] && before[i] == a[r + i];
    }
  }

  /** A slice of a slice is a slice of the original. */
  lemma SubSlice(m: seq<byte>, a: nat, b: nat, c: nat, d: nat)
    requires a <= b <= |m| && c <= d <= b - a
    ensures m[a..b][c..d] == m[a + c..a + d]
  {
    var inner, direct := m[a..b][c..d], m[a + c..a + d];
    forall i | 0 <= i < d - c
      ensures inner[i] == direct[i]
    {
      assert inner[i] == m[a..b][c + i] == m[a + c + i];
    }
  }
}
