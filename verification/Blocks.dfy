/** Block arithmetic and layer shadowing, on values.

    A layer is a `BlockMap`: the blocks it populates. A stack is a bottom-first sequence
    of such maps. `Flatten` is the flat byte array a stack stands for; every operation of
    the layered disk is specified against it.
 */
module Blocks {
  import opened Bytes

  /** Virtual disk geometry shared by every layer in a stack. */
  datatype Geometry = Geometry(virtualSize: nat, blockSize: nat) {
    predicate Valid() {
      0 < blockSize < U32 && virtualSize < U64 && virtualSize % blockSize == 0
    }

    function BlockCount(): nat
      requires Valid()
    {
      virtualSize / blockSize
    }

    /** Where block `b` starts. */
    function Start(b: nat): nat { b * blockSize }

    /** The block that contains byte `pos`. */
    function BlockOf(pos: nat): (b: nat)
      requires 0 < blockSize
      ensures Start(b) <= pos < Start(b) + blockSize
    {
      DivMod(pos, blockSize);
      pos / blockSize
    }

    /** Byte offset of `pos` within the block that contains it. */
    function BlockOffset(pos: nat): (r: nat)
      requires 0 < blockSize
      ensures r < blockSize && pos == Start(BlockOf(pos)) + r
    {
      DivMod(pos, blockSize);
      pos % blockSize
    }

    predicate InRange(offset: nat, len: nat) {
      offset + len <= virtualSize
    }
  }

  /** Build a geometry: the block size must be non-zero and divide the virtual size. */
  function NewGeometry(virtualSize: nat, blockSize: nat): (r: Option<Geometry>)
    requires virtualSize < U64 && blockSize < U32
    ensures r.Some? ==> r.value.Valid() && r.value == Geometry(virtualSize, blockSize)
    ensures r.None? ==> !Geometry(virtualSize, blockSize).Valid()
  {
    if blockSize == 0 then None
    else if virtualSize % blockSize != 0 then None
    else Some(Geometry(virtualSize, blockSize))
  }

  type BlockMap = map<nat, seq<Byte>>

  predicate Sized(m: BlockMap, bs: nat) {
    forall b :: b in m ==> |m[b]| == bs
  }

  predicate AllSized(stack: seq<BlockMap>, bs: nat) {
    forall k :: 0 <= k < |stack| ==> Sized(stack[k], bs)
  }

  /** The block a stack shows: the highest layer that populates it wins, a hole is zeroes. */
  function Resolve(stack: seq<BlockMap>, b: nat, bs: nat): (r: seq<Byte>)
    requires AllSized(stack, bs)
    ensures |r| == bs
  {
    if stack == [] then Zeros(bs)
    else if b in stack[|stack| - 1] then stack[|stack| - 1][b]
    else Resolve(stack[..|stack| - 1], b, bs)
  }

  function ByteAt(stack: seq<BlockMap>, bs: nat, i: nat): Byte
    requires 0 < bs && AllSized(stack, bs)
  {
    Resolve(stack, i / bs, bs)[i % bs]
  }

  /** The flat byte array of a stack. */
  function Flatten(g: Geometry, stack: seq<BlockMap>): (v: seq<Byte>)
    requires g.Valid() && AllSized(stack, g.blockSize)
    ensures |v| == g.virtualSize
    ensures forall i :: 0 <= i < g.virtualSize ==> v[i] == ByteAt(stack, g.blockSize, i)
  {
    seq(g.virtualSize, i requires 0 <= i => ByteAt(stack, g.blockSize, i))
  }

  // ---- arithmetic --------------------------------------------------------------------------

  lemma MulMono(a: nat, b: nat, c: nat)
    requires a <= b
    ensures a * c <= b * c
  {
  }

  lemma DivMod(i: nat, bs: nat)
    requires 0 < bs
    ensures i == (i / bs) * bs + i % bs && 0 <= i % bs < bs
  {
  }

  // i lies in block b exactly when i / bs == b.
  lemma InBlock(i: nat, b: nat, bs: nat)
    requires 0 < bs
    ensures b * bs <= i < b * bs + bs <==> i / bs == b
    ensures i / bs == b ==> i % bs == i - b * bs
  {
    DivMod(i, bs);
    var q := i / bs;
    if q < b { MulMono(q + 1, b, bs); }
    if q > b { MulMono(b + 1, q, bs); }
  }

  // A block that starts inside the disk ends inside it.
  lemma BlockFits(g: Geometry, i: nat)
    requires g.Valid() && i < g.virtualSize
    ensures g.Start(g.BlockOf(i)) + g.blockSize <= g.virtualSize
    ensures g.BlockOf(i) < g.BlockCount()
  {
    hide Geometry.BlockOf;
    var b, c, bs := g.BlockOf(i), g.BlockCount(), g.blockSize;
    DivMod(g.virtualSize, bs);
    if c <= b { MulMono(c, b, bs); }
    MulMono(b + 1, c, bs);
  }

  // ---- a stack against its flat array --------------------------------------------------------

  lemma ByteInBlock(stack: seq<BlockMap>, bs: nat, b: nat, i: nat)
    requires 0 < bs && AllSized(stack, bs) && b * bs <= i < b * bs + bs
    ensures ByteAt(stack, bs, i) == Resolve(stack, b, bs)[i - b * bs]
  {
    InBlock(i, b, bs);
  }

  lemma BlockIsSlice(g: Geometry, stack: seq<BlockMap>, b: nat)
    requires g.Valid() && AllSized(stack, g.blockSize)
    requires b * g.blockSize + g.blockSize <= g.virtualSize
    ensures Resolve(stack, b, g.blockSize) == Flatten(g, stack)[b * g.blockSize..b * g.blockSize + g.blockSize]
  {
    hide Resolve, ByteAt, Flatten, AllSized;
    var bs, v := g.blockSize, Flatten(g, stack);
    var at := b * bs;
    forall k | 0 <= k < bs
      ensures Resolve(stack, b, bs)[k] == v[at + k]
    {
      ByteInBlock(stack, bs, b, at + k);
    }
  }

  // Changing one block of the top layer splices that block into the flat array.
  lemma TopBlockSplices(g: Geometry, lower: seq<BlockMap>, top: BlockMap, top': BlockMap, b: nat)
    requires g.Valid() && AllSized(lower, g.blockSize) && Sized(top, g.blockSize) && Sized(top', g.blockSize)
    requires b * g.blockSize + g.blockSize <= g.virtualSize
    requires top' - {b} == top - {b}
    ensures AllSized(lower + [top], g.blockSize) && AllSized(lower + [top'], g.blockSize)
    ensures Flatten(g, lower + [top']) ==
            Splice(Flatten(g, lower + [top]), b * g.blockSize, Resolve(lower + [top'], b, g.blockSize))
  {
    hide Resolve, ByteAt, Flatten;
    var bs := g.blockSize;
    var v, w := Flatten(g, lower + [top]), Flatten(g, lower + [top']);
    var at := b * bs;
    var s := Splice(v, at, Resolve(lower + [top'], b, bs));
    forall i | 0 <= i < g.virtualSize
      ensures w[i] == s[i]
    {
      if at <= i < at + bs {
        ByteInBlock(lower + [top'], bs, b, i);
      } else {
        TopByteElsewhere(lower, top, top', b, i, bs);
      }
    }
  }

  lemma TopByteElsewhere(lower: seq<BlockMap>, top: BlockMap, top': BlockMap, b: nat, i: nat, bs: nat)
    requires 0 < bs && AllSized(lower, bs) && Sized(top, bs) && Sized(top', bs)
    requires top' - {b} == top - {b} && !(b * bs <= i < b * bs + bs)
    ensures AllSized(lower + [top], bs) && AllSized(lower + [top'], bs)
    ensures ByteAt(lower + [top'], bs, i) == ByteAt(lower + [top], bs, i)
  {
    hide Resolve;
    InBlock(i, b, bs);
    TopBlockElsewhere(lower, top, top', b, i / bs, bs);
  }

  lemma TopBlockElsewhere(lower: seq<BlockMap>, top: BlockMap, top': BlockMap, b: nat, c: nat, bs: nat)
    requires AllSized(lower, bs) && Sized(top, bs) && Sized(top', bs)
    requires top' - {b} == top - {b}
    ensures AllSized(lower + [top], bs) && AllSized(lower + [top'], bs)
    ensures b != c ==> Resolve(lower + [top'], c, bs) == Resolve(lower + [top], c, bs)
  {
    assert (lower + [top])[..|lower|] == lower && (lower + [top'])[..|lower|] == lower;
    if b != c {
      assert c in top <==> c in top - {b};
      assert c in top' <==> c in top' - {b};
      if c in top { assert (top - {b})[c] == top[c] && (top' - {b})[c] == top'[c]; }
    }
  }

  lemma ResolveTop(lower: seq<BlockMap>, top: BlockMap, b: nat, bs: nat)
    requires AllSized(lower, bs) && Sized(top, bs)
    ensures AllSized(lower + [top], bs)
    ensures Resolve(lower + [top], b, bs) == if b in top then top[b] else Resolve(lower, b, bs)
  {
    assert (lower + [top])[..|lower|] == lower;
  }

  // Read-modify-write: storing the resolved block with `bytes` put in at `ib` writes exactly
  // those bytes.
  lemma StoreSplices(g: Geometry, lower: seq<BlockMap>, top: BlockMap, b: nat, ib: nat, bytes: seq<Byte>, blk: seq<Byte>)
    requires g.Valid() && AllSized(lower, g.blockSize) && Sized(top, g.blockSize)
    requires b * g.blockSize + g.blockSize <= g.virtualSize && ib + |bytes| <= g.blockSize
    requires AllSized(lower + [top], g.blockSize)
    requires blk == Splice(Resolve(lower + [top], b, g.blockSize), ib, bytes)
    ensures Sized(top[b := blk], g.blockSize) && AllSized(lower + [top[b := blk]], g.blockSize)
    ensures Flatten(g, lower + [top[b := blk]]) ==
            Splice(Flatten(g, lower + [top]), b * g.blockSize + ib, bytes)
  {
    hide Resolve, ByteAt, Flatten, Splice;
    var top' := top[b := blk];
    assert top' - {b} == top - {b};
    TopBlockSplices(g, lower, top, top', b);
    ResolveTop(lower, top', b, g.blockSize);
    BlockIsSlice(g, lower + [top], b);
    SpliceInside(Flatten(g, lower + [top]), b * g.blockSize, g.blockSize, ib, bytes);
  }

  lemma SpliceInside(v: seq<Byte>, at: nat, n: nat, ib: nat, bytes: seq<Byte>)
    requires at + n <= |v| && ib + |bytes| <= n
    ensures Splice(v, at, Splice(v[at..at + n], ib, bytes)) == Splice(v, at + ib, bytes)
  {
  }

  // Forgetting a block shows the lower layers through.
  lemma ForgetSplices(g: Geometry, lower: seq<BlockMap>, top: BlockMap, b: nat)
    requires g.Valid() && AllSized(lower, g.blockSize) && Sized(top, g.blockSize)
    requires b * g.blockSize + g.blockSize <= g.virtualSize
    ensures AllSized(lower + [top], g.blockSize) && AllSized(lower + [top - {b}], g.blockSize)
    ensures Flatten(g, lower + [top - {b}]) ==
            Splice(Flatten(g, lower + [top]), b * g.blockSize,
                   Flatten(g, lower)[b * g.blockSize..b * g.blockSize + g.blockSize])
  {
    assert (top - {b}) - {b} == top - {b};
    TopBlockSplices(g, lower, top, top - {b}, b);
    assert (lower + [top - {b}])[..|lower|] == lower;
    BlockIsSlice(g, lower, b);
  }

  /** `m` with `payload` stored in every block of `blocks`. */
  function StoreAll(m: BlockMap, blocks: set<nat>, payload: seq<Byte>): BlockMap {
    m + map b | b in blocks :: payload
  }

  /** The flat array `v` with `payload` put over every block of `blocks`. */
  function Overlaid(v: seq<Byte>, bs: nat, blocks: set<nat>, payload: seq<Byte>): (r: seq<Byte>)
    requires 0 < bs
    ensures |r| == |v|
    ensures blocks == {} ==> r == v
  {
    seq(|v|, i requires 0 <= i < |v| => if i / bs in blocks && i % bs < |payload| then payload[i % bs] else v[i])
  }

  // Storing one payload in several blocks overlays them in the flat array.
  lemma StoreAllOverlays(g: Geometry, lower: seq<BlockMap>, top: BlockMap, blocks: set<nat>, payload: seq<Byte>)
    requires g.Valid() && AllSized(lower, g.blockSize) && Sized(top, g.blockSize) && |payload| == g.blockSize
    ensures AllSized(lower + [top], g.blockSize) && AllSized(lower + [StoreAll(top, blocks, payload)], g.blockSize)
    ensures Flatten(g, lower + [StoreAll(top, blocks, payload)]) ==
            Overlaid(Flatten(g, lower + [top]), g.blockSize, blocks, payload)
  {
    hide Flatten, ByteAt, StoreAll;
    var bs, top' := g.blockSize, StoreAll(top, blocks, payload);
    StoreAllSized(top, blocks, payload, bs);
    var v, w := Flatten(g, lower + [top]), Flatten(g, lower + [top']);
    forall i | 0 <= i < g.virtualSize
      ensures w[i] == Overlaid(v, bs, blocks, payload)[i]
    {
      StoreAllByte(lower, top, blocks, payload, bs, i);
    }
  }

  lemma StoreAllSized(top: BlockMap, blocks: set<nat>, payload: seq<Byte>, bs: nat)
    requires Sized(top, bs) && |payload| == bs
    ensures Sized(StoreAll(top, blocks, payload), bs)
  {
  }

  lemma StoreAllByte(lower: seq<BlockMap>, top: BlockMap, blocks: set<nat>, payload: seq<Byte>, bs: nat, i: nat)
    requires 0 < bs && AllSized(lower, bs) && Sized(top, bs) && |payload| == bs
    ensures AllSized(lower + [top], bs) && AllSized(lower + [StoreAll(top, blocks, payload)], bs)
    ensures ByteAt(lower + [StoreAll(top, blocks, payload)], bs, i) ==
            if i / bs in blocks then payload[i % bs] else ByteAt(lower + [top], bs, i)
  {
    hide Resolve;
    var q, top' := i / bs, StoreAll(top, blocks, payload);
    ResolveTop(lower, top, q, bs);
    ResolveTop(lower, top', q, bs);
  }

  lemma OverlayOneMore(v: seq<Byte>, bs: nat, blocks: set<nat>, b: nat, payload: seq<Byte>)
    requires 0 < bs && |payload| == bs && b * bs + bs <= |v|
    ensures Overlaid(v, bs, blocks + {b}, payload) == Splice(Overlaid(v, bs, blocks, payload), b * bs, payload)
  {
    var l, r := Overlaid(v, bs, blocks + {b}, payload), Splice(Overlaid(v, bs, blocks, payload), b * bs, payload);
    forall i | 0 <= i < |v|
      ensures l[i] == r[i]
    {
      InBlock(i, b, bs);
      DivMod(i, bs);
    }
  }

  // An empty top layer shows the lower layers unchanged.
  lemma EmptyTop(g: Geometry, lower: seq<BlockMap>)
    requires g.Valid() && AllSized(lower, g.blockSize)
    ensures AllSized(lower + [map[]], g.blockSize)
    ensures Flatten(g, lower + [map[]]) == Flatten(g, lower)
  {
    assert (lower + [map[]])[..|lower|] == lower;
    forall i | 0 <= i < g.virtualSize
      ensures Flatten(g, lower + [map[]])[i] == Flatten(g, lower)[i]
    {
      assert ByteAt(lower + [map[]], g.blockSize, i) == ByteAt(lower, g.blockSize, i);
    }
  }

  // ---- trim ------------------------------------------------------------------------------------

  /** Block `q` lies wholly inside the trimmed range. */
  predicate Covered(bs: nat, offset: nat, len: nat, q: nat) {
    offset <= q * bs && q * bs + bs <= offset + len
  }

  /** The blocks that lie wholly inside a range. */
  function Covers(bs: nat, offset: nat, len: nat): (s: set<nat>)
    requires 0 < bs
    ensures forall q: nat :: q in s <==> Covered(bs, offset, len, q)
  {
    assert forall q: nat :: Covered(bs, offset, len, q) ==> q <= offset + len by { CoveredBound(bs, offset, len); }
    set q: nat | q <= offset + len && Covered(bs, offset, len, q)
  }

  lemma CoveredBound(bs: nat, offset: nat, len: nat)
    requires 0 < bs
    ensures forall q: nat :: Covered(bs, offset, len, q) ==> q <= offset + len
  {
    forall q: nat | Covered(bs, offset, len, q)
      ensures q <= offset + len
    {
      MulMono(1, bs, q);
    }
  }

  lemma CoveredMore(bs: nat, offset: nat, done: nat, b: nat, ib: nat, n: nat, q: nat)
    requires 0 < bs && offset + done == b * bs + ib && (done == 0 || ib == 0) && 0 < n <= bs - ib
    ensures Covered(bs, offset, done + n, q) <==> Covered(bs, offset, done, q) || (ib == 0 && n == bs && q == b)
  {
    if q < b { MulMono(q + 1, b, bs); } else if q > b { MulMono(b + 1, q, bs); }
  }

  // What one more piece adds to the covered blocks.
  lemma CoversMore(bs: nat, offset: nat, done: nat, b: nat, ib: nat, n: nat)
    requires 0 < bs && offset + done == b * bs + ib && (done == 0 || ib == 0) && 0 < n <= bs - ib
    ensures Covers(bs, offset, done + n) == if ib == 0 && n == bs then Covers(bs, offset, done) + {b} else Covers(bs, offset, done)
  {
    hide Covered, Covers;
    forall q: nat
      ensures q in Covers(bs, offset, done + n) <==> q in Covers(bs, offset, done) || (ib == 0 && n == bs && q == b)
    {
      CoveredMore(bs, offset, done, b, ib, n, q);
    }
  }

  lemma CoversNothing(bs: nat, offset: nat)
    requires 0 < bs
    ensures Covers(bs, offset, 0) == {}
  {
  }

  /** What a trim does to the flat array `v` of a stack whose lower layers show `base`: wholly
      covered blocks reveal the lower layers, the covered part of the others reads zero. */
  function Trimmed(v: seq<Byte>, base: seq<Byte>, bs: nat, offset: nat, len: nat): (r: seq<Byte>)
    requires 0 < bs && |v| == |base| && offset + len <= |v|
    ensures |r| == |v|
  {
    seq(|v|, i requires 0 <= i < |v| =>
      if !(offset <= i < offset + len) then v[i]
      else if Covered(bs, offset, len, i / bs) then base[i] else 0)
  }

  // One iteration of the trim loop, from a block boundary or from the very start.
  lemma TrimStep(v: seq<Byte>, base: seq<Byte>, bs: nat, offset: nat, done: nat, b: nat, ib: nat, n: nat)
    requires 0 < bs && |v| == |base| && offset + done + n <= |v|
    requires offset + done == b * bs + ib && (done == 0 || ib == 0) && n <= bs - ib
    ensures (ib == 0 && n == bs) ==> b * bs + bs <= |v|
    ensures Trimmed(v, base, bs, offset, done + n) ==
            Splice(Trimmed(v, base, bs, offset, done), offset + done,
                   if ib == 0 && n == bs then base[b * bs..b * bs + bs] else Zeros(n))
  {
    hide Covered;
    var before, after := Trimmed(v, base, bs, offset, done), Trimmed(v, base, bs, offset, done + n);
    var s := Splice(before, offset + done, if ib == 0 && n == bs then base[b * bs..b * bs + bs] else Zeros(n));
    forall i | 0 <= i < |v|
      ensures after[i] == s[i]
    {
      if offset <= i < offset + done + n { CoveredByte(bs, offset, done, b, ib, n, i); }
    }
  }

  // Whether a byte of the range lies in a covered block, one piece later.
  lemma CoveredByte(bs: nat, offset: nat, done: nat, b: nat, ib: nat, n: nat, i: nat)
    requires 0 < bs && offset + done == b * bs + ib && (done == 0 || ib == 0) && n <= bs - ib
    requires offset <= i < offset + done + n
    ensures i < offset + done ==> (Covered(bs, offset, done + n, i / bs) <==> Covered(bs, offset, done, i / bs))
    ensures offset + done <= i ==> (Covered(bs, offset, done + n, i / bs) <==> ib == 0 && n == bs)
  {
    var q := i / bs;
    InBlock(i, b, bs);
    if n > 0 { CoveredMore(bs, offset, done, b, ib, n, q); }
  }
}
