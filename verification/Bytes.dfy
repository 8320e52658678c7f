/** Bytes, byte strings and fixed-width integers, as the storage and wire code uses them.

    A file or a socket stream is a `seq<Byte>`. Integers are unbounded in Dafny, so the
    widths layer.rs and protocol.rs use (u16, u32, u64) appear as explicit bounds.
 */
module Bytes {

  type Byte = b: nat | b < 256

  function Min(a: nat, b: nat): nat { if a <= b then a else b }

  const U16: nat := 0x1_0000
  const U32: nat := 0x1_0000_0000
  const U64: nat := 0x1_0000_0000_0000_0000

  datatype Option<+T> = None | Some(value: T)

  function Zeros(n: nat): (r: seq<Byte>)
    ensures |r| == n
    ensures forall i :: 0 <= i < n ==> r[i] == 0
  {
    seq(n, _ => 0)
  }

  /** `v` with the bytes from `off` on replaced by `buf`: what a positioned write does to a flat array. */
  function Splice(v: seq<Byte>, off: nat, buf: seq<Byte>): (r: seq<Byte>)
    requires off + |buf| <= |v|
    ensures |r| == |v|
    ensures forall i :: 0 <= i < |v| ==> r[i] == if off <= i < off + |buf| then buf[i - off] else v[i]
  {
    v[..off] + buf + v[off + |buf|..]
  }

  lemma SpliceTwice(v: seq<Byte>, off: nat, a: seq<Byte>, b: seq<Byte>)
    requires off + |a| + |b| <= |v|
    ensures Splice(Splice(v, off, a), off + |a|, b) == Splice(v, off, a + b)
  {
  }

  lemma SliceOfSlice(v: seq<Byte>, at: nat, bs: nat, ib: nat, n: nat)
    requires ib + n <= bs && at + bs <= |v|
    ensures v[at..at + bs][ib..ib + n] == v[at + ib..at + ib + n]
  {
    var l, r := v[at..at + bs][ib..ib + n], v[at + ib..at + ib + n];
    assert |l| == |r|;
    forall k | 0 <= k < n
      ensures l[k] == r[k]
    {
    }
  }

  // ---- fixed-width integers -------------------------------------------------------------

  function Pow256(n: nat): (p: nat)
    ensures p > 0
  {
    if n == 0 then 1 else 256 * Pow256(n - 1)
  }

  lemma Widths()
    ensures Pow256(2) == U16 && Pow256(4) == U32 && Pow256(8) == U64
  {
  }

  /** The `width` low-order bytes of `v`, least significant first. */
  function LE(width: nat, v: nat): (r: seq<Byte>)
    ensures |r| == width
  {
    if width == 0 then [] else [v % 256] + LE(width - 1, v / 256)
  }

  function FromLE(s: seq<Byte>): (v: nat)
  {
    if s == [] then 0 else s[0] + 256 * FromLE(s[1..])
  }

  lemma {:induction false} LERoundTrip(width: nat, v: nat)
    requires v < Pow256(width)
    ensures FromLE(LE(width, v)) == v
  {
    if width > 0 {
      LERoundTrip(width - 1, v / 256);
      assert LE(width, v)[1..] == LE(width - 1, v / 256);
    }
  }

  /** The `width` low-order bytes of `v`, most significant first. */
  function BE(width: nat, v: nat): (r: seq<Byte>)
    ensures |r| == width
  {
    if width == 0 then [] else BE(width - 1, v / 256) + [v % 256]
  }

  function FromBE(s: seq<Byte>): (v: nat)
  {
    if s == [] then 0 else 256 * FromBE(s[..|s| - 1]) + s[|s| - 1]
  }

  lemma {:induction false} BERoundTrip(width: nat, v: nat)
    requires v < Pow256(width)
    ensures FromBE(BE(width, v)) == v
  {
    if width > 0 {
      BERoundTrip(width - 1, v / 256);
      assert BE(width, v)[..width - 1] == BE(width - 1, v / 256);
    }
  }

  lemma {:induction false} FromBEBound(s: seq<Byte>)
    ensures FromBE(s) < Pow256(|s|)
  {
    if s != [] { FromBEBound(s[..|s| - 1]); }
  }

  lemma {:induction false} FromLEBound(s: seq<Byte>)
    ensures FromLE(s) < Pow256(|s|)
  {
    if s != [] { FromLEBound(s[1..]); }
  }

  // ---- byte order -------------------------------------------------------------------------

  lemma DivTwice(v: nat, a: nat, b: nat)
    requires 0 < a && 0 < b
    ensures 0 < a * b && v / a / b == v / (a * b)
  {
    var q := v / a;
    var p := q / b;
    DivParts(v, a);
    DivParts(q, b);
    Regroup(a, b, p, q % b, v % a);
    Remainder(a, b, q % b, v % a);
    QuotientIs(v, a * b, p, a * (q % b) + v % a);
  }

  lemma DivParts(v: nat, d: nat)
    requires 0 < d
    ensures v == d * (v / d) + v % d && 0 <= v % d < d
  {
  }

  lemma Regroup(a: nat, b: nat, p: nat, t: nat, r: nat)
    ensures a * (b * p + t) + r == (a * b) * p + (a * t + r)
  {
    assert a * (b * p + t) == a * (b * p) + a * t;
    assert a * (b * p) == (a * b) * p;
  }

  lemma Remainder(a: nat, b: nat, t: nat, r: nat)
    requires r < a && t < b
    ensures a * t + r < a * b
  {
    MulAtMost(a, t + 1, b);
    assert a * (t + 1) == a * t + a;
  }

  lemma MulAtMost(a: nat, x: nat, y: nat)
    requires x <= y
    ensures a * x <= a * y
  {
  }

  lemma QuotientIs(v: nat, d: nat, q: nat, r: nat)
    requires r < d && v == d * q + r
    ensures v / d == q
  {
    var q', r' := v / d, v % d;
    assert v == d * q' + r';
    if q' < q { MulAtMost(d, q' + 1, q); }
    if q < q' { MulAtMost(d, q + 1, q'); }
  }

  /** Big-endian: byte `i` is the digit of weight 256^(width - 1 - i). */
  lemma {:induction false} BEAt(width: nat, v: nat, i: nat)
    requires i < width
    ensures BE(width, v)[i] == v / Pow256(width - 1 - i) % 256
  {
    if i < width - 1 {
      BEAt(width - 1, v / 256, i);
      DivTwice(v, 256, Pow256(width - 2 - i));
    }
  }

  /** Little-endian: byte `i` is the digit of weight 256^i. */
  lemma {:induction false} LEAt(width: nat, v: nat, i: nat)
    requires i < width
    ensures LE(width, v)[i] == v / Pow256(i) % 256
  {
    if i > 0 {
      LEAt(width - 1, v / 256, i - 1);
      DivTwice(v, 256, Pow256(i - 1));
    }
  }
}
