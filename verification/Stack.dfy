/** The composed virtual disk (stack.rs): read-only lower layers plus one writable scratch.

    Each operation is proved against the flat array `view`. An access past the end of the
    disk changes nothing. An access the medium fails part way leaves the effect of a prefix
    that ends on a block boundary.
 */
module Stack {
  import opened Bytes
  import opened Blocks
  import opened Layers

  /** `Panicked` is an index out of the bounds of the block buffer. */
  datatype Outcome = Ok | OutOfRange | IoError | Panicked

  /** What made a write fail: resolving a block it covers in part, storing one it covers wholly, or
      storing one it covers in part. */
  datatype Cause = NoCause | Unresolved | WholeStore | PartStore

  // ---- lower layers ----------------------------------------------------------------------------

  function LayerMaps(layers: seq<ImmutableLayer>): (r: seq<BlockMap>)
    ensures |r| == |layers|
    ensures forall k :: 0 <= k < |layers| ==> r[k] == layers[k].Blocks()
  {
    seq(|layers|, k requires 0 <= k < |layers| => layers[k].Blocks())
  }

  predicate SameGeometry(layers: seq<ImmutableLayer>, g: Geometry) {
    forall k :: 0 <= k < |layers| ==> layers[k].geometry == g
  }

  /** Every sealed payload lies inside its file, so reading it cannot fall off the end. */
  predicate Intact(layers: seq<ImmutableLayer>) {
    forall k :: 0 <= k < |layers| ==> IntactLayer(layers[k])
  }

  predicate IntactLayer(layer: ImmutableLayer) {
    layer.Sealed? ==> forall b :: b in layer.index ==> layer.index[b] + layer.geometry.blockSize <= |layer.file|
  }

  lemma LowerSized(layers: seq<ImmutableLayer>, g: Geometry)
    requires SameGeometry(layers, g)
    ensures AllSized(LayerMaps(layers), g.blockSize)
  {
  }

  // The lower layers, top down.
  method ResolveLower(lower: seq<ImmutableLayer>, g: Geometry, media: Media, block: nat)
    returns (ok: bool, out: seq<Byte>)
    requires SameGeometry(lower, g) && AllSized(LayerMaps(lower), g.blockSize)
    ensures ok ==> out == Resolve(LayerMaps(lower), block, g.blockSize)
    ensures media != MayFail && Intact(lower) ==> ok
  {
    var maps, found, k := LayerMaps(lower), false, |lower|;
    assert maps[..k] == maps;
    while k > 0
      invariant 0 <= k <= |lower|
      invariant AllSized(maps[..k], g.blockSize)
      invariant Resolve(maps, block, g.blockSize) == Resolve(maps[..k], block, g.blockSize)
    {
      k := k - 1;
      assert maps[..k + 1][..k] == maps[..k];
      ok, found, out := lower[k].ReadBlock(media, block);
      if !ok { assert IntactLayer(lower[k]) ==> media == MayFail; return; }
      if found { return; }
    }
    ok, out := true, Zeros(g.blockSize);
  }

  // ---- one access, block by block -----------------------------------------------------------------

  /** The bytes `pos..pos + n` are some bytes of one block of the disk. */
  predicate InOneBlock(g: Geometry, pos: nat, n: nat)
    requires g.Valid()
  {
    0 < n <= g.blockSize - g.BlockOffset(pos) && pos + n <= g.virtualSize
  }

  /** The piece is a whole block. */
  predicate WholePiece(g: Geometry, pos: nat, n: nat)
    requires g.Valid()
  {
    g.BlockOffset(pos) == 0 && n == g.blockSize
  }

  /** The bytes of block `b` in the flat array `v`. */
  function BlockBytes(g: Geometry, v: seq<Byte>, b: nat): (r: seq<Byte>)
    requires g.Start(b) + g.blockSize <= |v|
    ensures |r| == g.blockSize
  {
    v[g.Start(b)..g.Start(b) + g.blockSize]
  }

  /** The overlay after `bytes` were stored at `pos` within one block, of a disk that shows `v`. */
  function StoredPiece(g: Geometry, v: seq<Byte>, top: BlockMap, pos: nat, bytes: seq<Byte>): BlockMap
    requires g.Valid() && |v| == g.virtualSize && InOneBlock(g, pos, |bytes|)
  {
    BlockFits(g, pos);
    top[g.BlockOf(pos) := Splice(BlockBytes(g, v, g.BlockOf(pos)), g.BlockOffset(pos), bytes)]
  }

  /** The overlay after `n` bytes at `pos` within one block were trimmed. */
  function TrimmedPiece(g: Geometry, v: seq<Byte>, top: BlockMap, pos: nat, n: nat): BlockMap
    requires g.Valid() && |v| == g.virtualSize && InOneBlock(g, pos, n)
  {
    if WholePiece(g, pos, n) then top - {g.BlockOf(pos)} else StoredPiece(g, v, top, pos, Zeros(n))
  }

  lemma SliceAppend(v: seq<Byte>, i: nat, j: nat, k: nat)
    requires i <= j <= k <= |v|
    ensures v[i..j] + v[j..k] == v[i..k]
  {
  }

  lemma PieceOfBlock(g: Geometry, v: seq<Byte>, b: nat, ib: nat, n: nat)
    requires g.Start(b) + g.blockSize <= |v| && ib + n <= g.blockSize
    ensures BlockBytes(g, v, b)[ib..ib + n] == v[g.Start(b) + ib..g.Start(b) + ib + n]
  {
    SliceOfSlice(v, g.Start(b), g.blockSize, ib, n);
  }

  lemma WholeBlock(g: Geometry, v: seq<Byte>, pos: nat)
    requires g.Valid() && g.BlockOffset(pos) == 0 && pos + g.blockSize <= |v|
    ensures BlockBytes(g, v, g.BlockOf(pos)) == v[pos..pos + g.blockSize]
  {
  }

  // A piece that fills its block up ends on a block boundary.
  lemma NextBoundary(g: Geometry, pos: nat, n: nat)
    requires g.Valid() && n == g.blockSize - g.BlockOffset(pos)
    ensures g.BlockOffset(pos + n) == 0
  {
    var b, bs := g.BlockOf(pos), g.blockSize;
    InBlock(pos + n, b + 1, bs);
    MulMono(b, b + 1, bs);
  }

  /** How many of the `len` bytes at `pos` lie in the block of `pos`. */
  function PieceLen(g: Geometry, pos: nat, len: nat): (n: nat)
    requires g.Valid() && 0 < len && pos + len <= g.virtualSize
    ensures 0 < n <= len && InOneBlock(g, pos, n)
    ensures n == len || g.BlockOffset(pos + n) == 0
  {
    var n := Min(g.blockSize - g.BlockOffset(pos), len);
    if n == g.blockSize - g.BlockOffset(pos) then NextBoundary(g, pos, n); n else n
  }

  /** What trimming a piece leaves in it. */
  function AfterTrim(g: Geometry, base: seq<Byte>, pos: nat, n: nat): (r: seq<Byte>)
    requires g.Valid() && pos + n <= |base|
    ensures |r| == n
  {
    if g.BlockOffset(pos) == 0 && n == g.blockSize then base[pos..pos + n] else Zeros(n)
  }

  /** How far an access got: all of it, or, when the medium fails, a prefix that ends on a block
      boundary. */
  predicate Progress(g: Geometry, offset: nat, len: nat, ok: bool, done: nat)
    requires g.Valid()
  {
    && done <= len
    && (ok ==> done == len)
    && (!ok ==> done < len && (done == 0 || g.BlockOffset(offset + done) == 0))
  }

  /** The access stopped at the piece at `done`, which is a whole block exactly when storing it failed. */
  predicate Blamed(g: Geometry, offset: nat, len: nat, done: nat, cause: Cause)
    requires g.Valid() && offset + len <= g.virtualSize
  {
    done < len && (cause == WholeStore <==> WholePiece(g, offset + done, PieceLen(g, offset + done, len - done)))
  }

  predicate AlignedRange(g: Geometry, offset: nat, len: nat)
    requires g.Valid()
  {
    g.BlockOffset(offset) == 0 && g.BlockOffset(offset + len) == 0
  }

  lemma BlamedFacts(g: Geometry, offset: nat, len: nat, done: nat, cause: Cause)
    requires g.Valid() && offset + len <= g.virtualSize && Blamed(g, offset, len, done, cause)
    ensures done < len && (cause == WholeStore <==> WholePiece(g, offset + done, PieceLen(g, offset + done, len - done)))
  {
  }

  // A piece of an aligned range is a whole block.
  lemma AlignedPiece(g: Geometry, offset: nat, len: nat, done: nat)
    requires g.Valid() && offset + len <= g.virtualSize && AlignedRange(g, offset, len) && done < len && Progress(g, offset, len, false, done)
    ensures WholePiece(g, offset + done, PieceLen(g, offset + done, len - done))
  {
    var pos, end, bs := offset + done, offset + len, g.blockSize;
    assert g.BlockOffset(pos) == 0;
    var b, e := g.BlockOf(pos), g.BlockOf(end);
    assert pos == b * bs && end == e * bs;
    if e <= b { MulMono(e, b, bs); }
    MulMono(b + 1, e, bs);
  }

  // The same, in the middle of the loop.
  predicate Halfway(g: Geometry, offset: nat, len: nat, ok: bool, done: nat)
    requires g.Valid()
  {
    done <= len && (!ok ==> done < len) && (done == 0 || done == len || g.BlockOffset(offset + done) == 0)
  }

  lemma HalfwayStart(g: Geometry, offset: nat, len: nat)
    requires g.Valid()
    ensures Halfway(g, offset, len, true, 0)
  {
  }

  lemma HalfwayFails(g: Geometry, offset: nat, len: nat, done: nat)
    requires g.Valid() && done < len && Halfway(g, offset, len, true, done)
    ensures Halfway(g, offset, len, false, done)
  {
  }

  lemma HalfwayStep(g: Geometry, offset: nat, len: nat, done: nat, n: nat)
    requires g.Valid() && offset + len <= g.virtualSize && done < len
    requires n == PieceLen(g, offset + done, len - done)
    ensures Halfway(g, offset, len, true, done + n)
  {
    hide PieceLen;
  }

  lemma HalfwayDone(g: Geometry, offset: nat, len: nat, ok: bool, done: nat)
    requires g.Valid() && Halfway(g, offset, len, ok, done) && (ok ==> done == len)
    ensures Progress(g, offset, len, ok, done)
  {
  }

  lemma SpliceMore(v: seq<Byte>, offset: nat, buf: seq<Byte>, sent: nat, n: nat)
    requires sent + n <= |buf| && offset + |buf| <= |v|
    ensures Splice(Splice(v, offset, buf[..sent]), offset + sent, buf[sent..sent + n]) == Splice(v, offset, buf[..sent + n])
  {
    SpliceTwice(v, offset, buf[..sent], buf[sent..sent + n]);
    assert buf[..sent] + buf[sent..sent + n] == buf[..sent + n];
  }

  lemma SpliceWhole(v: seq<Byte>, b: seq<Byte>)
    requires |v| == |b|
    ensures Splice(v, 0, b) == b
  {
  }

  lemma SpliceNothing(v: seq<Byte>, offset: nat)
    requires offset <= |v|
    ensures Splice(v, offset, []) == v
  {
  }

  lemma TrimNothing(v: seq<Byte>, base: seq<Byte>, bs: nat, offset: nat)
    requires 0 < bs && |v| == |base| && offset <= |v|
    ensures Trimmed(v, base, bs, offset, 0) == v
  {
  }

  // One iteration of the trim loop, in terms of the position it is at.
  lemma TrimMore(g: Geometry, v: seq<Byte>, base: seq<Byte>, offset: nat, len: nat, done: nat, n: nat)
    requires g.Valid() && |v| == |base| == g.virtualSize && InOneBlock(g, offset + done, n)
    requires done < len && Halfway(g, offset, len, true, done)
    ensures Trimmed(v, base, g.blockSize, offset, done + n) ==
            Splice(Trimmed(v, base, g.blockSize, offset, done), offset + done, AfterTrim(g, base, offset + done, n))
  {
    hide Trimmed, Splice, Geometry.BlockOf, Geometry.BlockOffset;
    var pos := offset + done;
    TrimStep(v, base, g.blockSize, offset, done, g.BlockOf(pos), g.BlockOffset(pos), n);
  }

  /** The flat array `v` after `done` bytes of `buf` were stored at `offset`, where the blocks `hung` had
      been stored as nothing: they take on the first block stored. */
  function AfterWrite(bs: nat, v: seq<Byte>, hung: set<nat>, offset: nat, buf: seq<Byte>, done: nat): (r: seq<Byte>)
    requires 0 < bs && done <= |buf| && offset + |buf| <= |v|
    ensures |r| == |v|
    ensures hung == {} ==> r == Splice(v, offset, buf[..done])
  {
    if done == 0 then SpliceNothing(v, offset); v
    else Splice(Overlaid(v, bs, hung, buf[..Min(bs, |buf|)]), offset, buf[..done])
  }

  lemma AfterNothing(bs: nat, v: seq<Byte>, hung: set<nat>, offset: nat, buf: seq<Byte>)
    requires 0 < bs && offset + |buf| <= |v|
    ensures AfterWrite(bs, v, hung, offset, buf, 0) == v
  {
  }

  // One more piece of a write. Where blocks hang the first piece is a whole block.
  lemma AfterWriteMore(bs: nat, v: seq<Byte>, hung: set<nat>, offset: nat, buf: seq<Byte>, done: nat, n: nat)
    requires 0 < bs && 0 < n && done + n <= |buf| && offset + |buf| <= |v|
    requires hung == {} || done > 0 || n == bs
    ensures AfterWrite(bs, v, hung, offset, buf, done + n) ==
            Splice(Overlaid(AfterWrite(bs, v, hung, offset, buf, done), bs, if done == 0 then hung else {}, buf[done..done + n]),
                   offset + done, buf[done..done + n])
  {
    hide Overlaid, Splice;
    if done == 0 {
      assert buf[..n] == buf[0..n];
    } else {
      SpliceMore(Overlaid(v, bs, hung, buf[..Min(bs, |buf|)]), offset, buf, done, n);
    }
  }

  // What one more piece adds to the covered blocks.
  lemma CoversPiece(g: Geometry, offset: nat, len: nat, done: nat, n: nat)
    requires g.Valid() && InOneBlock(g, offset + done, n)
    requires done < len && Halfway(g, offset, len, true, done)
    ensures Covers(g.blockSize, offset, done + n) ==
            Covers(g.blockSize, offset, done) + if WholePiece(g, offset + done, n) then {g.BlockOf(offset + done)} else {}
  {
    hide Covers, Geometry.BlockOf, Geometry.BlockOffset;
    var pos := offset + done;
    CoversMore(g.blockSize, offset, done, g.BlockOf(pos), g.BlockOffset(pos), n);
  }

  lemma WholePieceLen(g: Geometry, pos: nat, n: nat)
    requires g.Valid() && WholePiece(g, pos, n)
    ensures n == g.blockSize
  {
  }

  lemma ProgressBound(g: Geometry, offset: nat, len: nat, ok: bool, done: nat)
    requires g.Valid() && Progress(g, offset, len, ok, done)
    ensures done <= len && (ok <==> done == len)
  {
  }

  /** How many bytes of a range lie in whole blocks before any block it covers in part. */
  function Lead(bs: nat, offset: nat, len: nat): (n: nat)
    requires 0 < bs
    ensures n <= len
  {
    DivMod(len, bs);
    if offset % bs == 0 then len - len % bs else 0
  }

  /** With the block buffer lost an access gets as far as its leading whole blocks, unless the medium fails. */
  predicate Led(bs: nat, offset: nat, len: nat, done: nat, failed: bool)
    requires 0 < bs
  {
    done <= Lead(bs, offset, len) && done % bs == 0 && (!failed ==> done == Lead(bs, offset, len))
  }

  lemma LedFacts(g: Geometry, offset: nat, len: nat, done: nat, failed: bool)
    requires g.Valid() && offset + len <= g.virtualSize && done <= len && (done == 0 || AlignedRange(g, offset, done))
    requires !failed && done < len ==> !WholePiece(g, offset + done, PieceLen(g, offset + done, len - done))
    ensures Led(g.blockSize, offset, len, done, failed)
  {
    hide Geometry.BlockOf;
    var bs := g.blockSize;
    var e := g.BlockOf(offset + done);
    if done == 0 {
      InBlock(done, 0, bs);
    } else {
      var b := g.BlockOf(offset);
      assert done == (e - b) * bs;
      InBlock(done, e - b, bs);
    }
    assert done % bs == 0;
    LeadAt(bs, len, done);
  }

  lemma LeadAt(bs: nat, len: nat, done: nat)
    requires 0 < bs && done % bs == 0 && done <= len
    ensures done <= len - len % bs && (len - done < bs ==> done == len - len % bs)
  {
    DivMod(len, bs);
    DivMod(done, bs);
    var q, d := len / bs, done / bs;
    if q < d { MulMono(q + 1, d, bs); }
    MulMono(d, q, bs);
    if d < q { MulMono(d + 1, q, bs); }
  }

  // Whole pieces make an aligned range.
  lemma AlignedMore(g: Geometry, offset: nat, done: nat, n: nat)
    requires g.Valid() && WholePiece(g, offset + done, n) && (done == 0 || AlignedRange(g, offset, done))
    ensures AlignedRange(g, offset, done + n)
  {
    hide Geometry.BlockOffset;
    NextBoundary(g, offset + done, n);
  }

  // ---- the disk ------------------------------------------------------------------------------------

  class LayeredDisk {
    const geometry: Geometry
    const lower: seq<ImmutableLayer>
    const scratch: ScratchLayer
    /** One block of scratch space; `[]` while it is borrowed. */
    var blockBuf: seq<Byte>
    /** The flat byte array this disk shows, and what the lower layers alone show. */
    ghost var view: seq<Byte>
    ghost const base: seq<Byte>

    /** What every disk keeps. A block that was stored as nothing is not in the view. */
    ghost predicate Framed()
      reads this`view, scratch
    {
      && geometry.Valid()
      && SameGeometry(lower, geometry)
      && AllSized(LayerMaps(lower), geometry.blockSize)
      && scratch.geometry == geometry
      && scratch.Loose()
      && view == Flatten(geometry, LayerMaps(lower) + [scratch.Contents()])
      && base == Flatten(geometry, LayerMaps(lower))
    }

    /** Everything but the block buffer, which a failed read-modify-write does not put back. */
    ghost predicate Sound()
      reads this`view, scratch
    {
      Framed() && scratch.Valid()
    }

    ghost predicate Valid()
      reads this`view, this`blockBuf, scratch
    {
      Sound() && |blockBuf| == geometry.blockSize
    }

    /** The block buffer is lost, and blocks may have been stored as nothing since. */
    ghost predicate Adrift()
      reads this`view, this`blockBuf, scratch
    {
      Framed() && Lost()
    }

    /** The states a disk can be in. */
    ghost predicate Usable()
      reads this`view, this`blockBuf, scratch
    {
      Valid() || Adrift()
    }

    /** No access to the backing files can fail. */
    ghost predicate Dependable() {
      scratch.media == Reliable && Intact(lower)
    }

    /** No read of the backing files can fail. */
    ghost predicate Readable() {
      scratch.media != MayFail && Intact(lower)
    }

    /** A failed write took the block buffer and did not put it back. */
    predicate Lost()
      reads this`blockBuf
    {
      blockBuf == []
    }

    lemma Shape()
      requires Framed()
      ensures geometry.Valid() && 0 < geometry.blockSize && |view| == |base| == geometry.virtualSize
    {
    }

    // A disk with its block buffer has no block stored as nothing.
    lemma Kept()
      requires Usable()
      ensures Framed() && (Valid() <==> !Lost()) && (Valid() ==> Sound() && scratch.Hung() == {})
    {
      if Valid() { scratch.Solid(); }
    }

    // Once the geometry check of `New` has passed.
    constructor (lower: seq<ImmutableLayer>, scratch: ScratchLayer)
      requires scratch.Valid() && SameGeometry(lower, scratch.geometry)
      ensures Valid()
      ensures geometry == scratch.geometry && this.lower == lower && this.scratch == scratch
      ensures scratch.Contents() == map[] ==> view == base
    {
      geometry := scratch.geometry;
      this.lower := lower;
      this.scratch := scratch;
      blockBuf := Zeros(scratch.geometry.blockSize);
      LowerSized(lower, scratch.geometry);
      view := Flatten(scratch.geometry, LayerMaps(lower) + [scratch.Contents()]);
      base := Flatten(scratch.geometry, LayerMaps(lower));
      new;
      EmptyTop(geometry, LayerMaps(lower));
    }

    /** Compose a stack, bottom layer first. Refused (null) unless every layer has the scratch's geometry. */
    static method New(lower: seq<ImmutableLayer>, scratch: ScratchLayer) returns (disk: LayeredDisk?)
      requires scratch.Valid()
      ensures disk != null <==> SameGeometry(lower, scratch.geometry)
      ensures disk != null ==> fresh(disk) && disk.Valid()
      ensures disk != null ==> disk.geometry == scratch.geometry && disk.lower == lower && disk.scratch == scratch
      ensures disk != null && scratch.Contents() == map[] ==> disk.view == disk.base
    {
      for i := 0 to |lower|
        invariant SameGeometry(lower[..i], scratch.geometry)
      {
        if lower[i].geometry != scratch.geometry { return null; }
      }
      assert lower[..|lower|] == lower;
      disk := new LayeredDisk(lower, scratch);
    }

    /** Resolve a full block: the scratch first, then the lower layers top down. */
    method ResolveBlock(block: nat) returns (ok: bool, out: seq<Byte>)
      requires Sound() && geometry.Start(block) + geometry.blockSize <= geometry.virtualSize
      ensures ok ==> out == BlockBytes(geometry, view, block)
      ensures Readable() ==> ok
    {
      hide Resolve, Flatten, SameGeometry, Regions, Indexed;
      var found;
      ok, found, out := scratch.ReadBlock(block);
      ResolveTop(LayerMaps(lower), scratch.Contents(), block, geometry.blockSize);
      if ok && !found { ok, out := ResolveLower(lower, geometry, scratch.media, block); }
      BlockIsSlice(geometry, LayerMaps(lower) + [scratch.Contents()], block);
    }

    // Resolve a block into a buffer of `n` bytes: the disk's block buffer or, when that is lost, an
    // empty one, into which nothing is read.
    method ResolveInto(block: nat, n: nat) returns (ok: bool, out: seq<Byte>)
      requires Framed() && geometry.Start(block) + geometry.blockSize <= geometry.virtualSize
      requires n == 0 || (n == geometry.blockSize && Sound())
      ensures ok ==> out == BlockBytes(geometry, view, block)[..n]
      ensures Readable() ==> ok
    {
      hide LayeredDisk.Framed, Geometry.Start, BlockBytes;
      Shape();
      if n == 0 {
        var fault := Faults(scratch.media);
        return !fault, [];
      }
      ok, out := ResolveBlock(block);
      assert ok ==> out[..n] == out;
    }

    // Store a payload that differs from the shown block in `bytes` at `ib`.
    method Store(block: nat, payload: seq<Byte>, ghost ib: nat, ghost bytes: seq<Byte>) returns (ok: bool)
      requires Sound() && block < geometry.BlockCount()
      requires geometry.Start(block) + geometry.blockSize <= geometry.virtualSize
      requires ib + |bytes| <= geometry.blockSize
      requires payload == Splice(BlockBytes(geometry, view, block), ib, bytes)
      modifies this`view, scratch
      ensures Sound()
      ensures ok ==> view == Splice(old(view), geometry.Start(block) + ib, bytes)
      ensures ok ==> scratch.Contents() == old(scratch.Contents())[block := payload]
      ensures !ok ==> view == old(view)
      ensures scratch.media == Reliable ==> ok
      ensures scratch.media == Full ==> !ok
    {
      hide Resolve, Flatten, SameGeometry, Regions, Indexed, LayerMaps, Splice, Below, Settled, Hanging;
      scratch.Solid();
      BlockIsSlice(geometry, LayerMaps(lower) + [scratch.Contents()], block);
      StoreSplices(geometry, LayerMaps(lower), scratch.Contents(), block, ib, bytes, payload);
      assert StoreAll(scratch.Contents(), {} + {block}, payload) == scratch.Contents()[block := payload];
      ok := scratch.WriteBlock(block, payload);
      if ok { view := Splice(view, geometry.Start(block) + ib, bytes); }
    }

    // Store a block with one payload, or with none when that comes from a lost block buffer.
    method StoreWhole(block: nat, payload: seq<Byte>) returns (ok: bool)
      requires Framed() && block < geometry.BlockCount() && (|payload| == geometry.blockSize || payload == [])
      requires geometry.Start(block) + geometry.blockSize <= geometry.virtualSize
      modifies this`view, scratch
      ensures Framed() && |old(view)| == geometry.virtualSize && 0 < geometry.blockSize
      ensures old(scratch.Valid()) ==> (scratch.Valid() <==> !ok || payload != [])
      ensures ok && payload != [] ==>
                && view == Splice(Overlaid(old(view), geometry.blockSize, old(scratch.Hung()), payload), geometry.Start(block), payload)
                && scratch.Hung() == {} && scratch.Contents() == StoreAll(old(scratch.Contents()), old(scratch.Hung()) + {block}, payload)
      ensures ok && payload == [] ==>
                && view == Splice(old(view), geometry.Start(block), BlockBytes(geometry, base, block))
                && scratch.Hung() == old(scratch.Hung()) + {block}
      ensures !ok ==> view == old(view) && scratch.Hung() == old(scratch.Hung())
      ensures scratch.media == Reliable ==> ok
      ensures scratch.media == Full ==> (ok <==> payload == [])
    {
      hide Resolve, Flatten, SameGeometry, Regions, Indexed, LayerMaps, Splice, Below, Settled, Hanging, StoreAll;
      hide Overlaid, ScratchLayer.Valid;
      ghost var maps, top, hung := LayerMaps(lower), scratch.Contents(), scratch.Hung();
      if payload == [] {
        ForgetSplices(geometry, maps, top, block);
      } else {
        StoreAllOverlays(geometry, maps, top, hung + {block}, payload);
        OverlayOneMore(view, geometry.blockSize, hung, block, payload);
      }
      ok := scratch.WriteBlock(block, payload);
      if ok {
        view := if payload == [] then Splice(view, geometry.Start(block), BlockBytes(geometry, base, block))
                else Splice(Overlaid(view, geometry.blockSize, hung, payload), geometry.Start(block), payload);
      }
    }

    // Drop a block of the overlay, so that the lower layers show through.
    method Forget(block: nat)
      requires Framed() && geometry.Start(block) + geometry.blockSize <= geometry.virtualSize
      modifies this`view, scratch
      ensures Framed() && (old(scratch.Valid()) ==> scratch.Valid())
      ensures view == Splice(old(view), geometry.Start(block), BlockBytes(geometry, base, block))
      ensures scratch.Contents() == old(scratch.Contents()) - {block} && scratch.Hung() == old(scratch.Hung()) - {block}
    {
      hide Resolve, Flatten, SameGeometry, Regions, Indexed, LayerMaps, Splice, Below, Settled, Hanging, ScratchLayer.Valid;
      ForgetSplices(geometry, LayerMaps(lower), scratch.Contents(), block);
      scratch.ForgetBlock(block);
      view := Splice(view, geometry.Start(block), BlockBytes(geometry, base, block));
    }

    /** The overlay is `top` with `bytes` stored at `pos`, on a disk that showed `v`. */
    ghost predicate PieceStored(v: seq<Byte>, top: BlockMap, pos: nat, bytes: seq<Byte>)
      reads scratch
    {
      geometry.Valid() && |v| == geometry.virtualSize && InOneBlock(geometry, pos, |bytes|)
      && scratch.Contents() == StoredPiece(geometry, v, top, pos, bytes)
    }

    /** Make prior scratch writes durable. */
    method Flush() returns (ok: bool)
      requires Usable()
      modifies scratch`synced
      ensures Usable() && scratch.Hung() == old(scratch.Hung()) && (Valid() <==> old(Valid()))
      ensures ok ==> scratch.synced == scratch.data
      ensures !ok ==> scratch.media == MayFail
    {
      hide Flatten, Indexed, Regions, Below, Settled, Hanging, SameGeometry, LayerMaps, AllSized;
      ok := scratch.Flush();
    }

    // ---- read ------------------------------------------------------------------------------------

    // The body of the read loop: borrow the block buffer, resolve the block into it, copy the part out.
    method ReadPiece(pos: nat, n: nat) returns (r: Outcome, piece: seq<Byte>)
      requires Usable() && InOneBlock(geometry, pos, n)
      modifies this`blockBuf
      ensures r == Panicked <==> old(Lost())
      ensures if r == Panicked then Adrift() else Valid()
      ensures r == Ok ==> piece == view[pos..pos + n]
      ensures r == Ok || r == IoError || r == Panicked
      ensures r == IoError ==> !Readable()
    {
      hide LayeredDisk.Framed, LayeredDisk.Readable, Geometry.Valid, Geometry.BlockOf, Geometry.BlockOffset;
      hide Geometry.Start, BlockBytes;
      hide ScratchLayer.Valid;
      Shape();
      var block, inBlock := geometry.BlockOf(pos), geometry.BlockOffset(pos);
      BlockFits(geometry, pos);
      var tmp := blockBuf;
      blockBuf := [];
      var ok, out := ResolveInto(block, |tmp|);
      if ok { tmp := out; }
      if inBlock + n > |tmp| { return Panicked, []; }
      PieceOfBlock(geometry, view, block, inBlock, n);
      assert ok ==> tmp == BlockBytes(geometry, view, block);
      piece := tmp[inBlock..inBlock + n];
      blockBuf := tmp;
      r := if ok then Ok else IoError;
    }

    /** Read `len` bytes at `offset`. With the block buffer lost, any non-empty read in range panics. */
    method ReadAt(offset: nat, len: nat) returns (r: Outcome, buf: seq<Byte>)
      requires Usable()
      modifies this`blockBuf
      ensures if old(Lost()) then Adrift() else Valid()
      ensures r == OutOfRange <==> !geometry.InRange(offset, len)
      ensures r == Panicked <==> old(Lost()) && geometry.InRange(offset, len) && len > 0
      ensures r == Ok ==> buf == view[offset..offset + len]
      ensures r == IoError ==> len > 0 && !Readable()
    {
      hide LayeredDisk.Framed, LayeredDisk.Readable, Geometry.Valid, PieceLen, InOneBlock, ScratchLayer.Valid;
      Kept();
      Shape();
      buf := [];
      if !geometry.InRange(offset, len) { return OutOfRange, []; }
      var done, pos := 0, offset;
      while done < len
        invariant 0 <= done <= len && pos == offset + done
        invariant (if old(Lost()) then Adrift() else Valid()) && (done > 0 ==> !old(Lost()))
        invariant buf == view[offset..offset + done]
      {
        var n := PieceLen(geometry, pos, len - done);
        var q, piece := ReadPiece(pos, n);
        if q != Ok { return q, []; }
        SliceAppend(view, offset, pos, pos + n);
        buf, done, pos := buf + piece, done + n, pos + n;
      }
      r := Ok;
    }

    // ---- write -----------------------------------------------------------------------------------

    // Read, modify and write part of a block, by way of the buffer `buf`. `tmp` is what that holds then.
    // An empty buffer cannot take the bytes.
    method Patch(pos: nat, bytes: seq<Byte>, buf: seq<Byte>) returns (resolved: bool, r: Outcome, tmp: seq<Byte>)
      requires Framed() && InOneBlock(geometry, pos, |bytes|)
      requires buf == [] || (|buf| == geometry.blockSize && Sound())
      modifies this`view, scratch
      ensures Framed() && |tmp| == |buf| && (r == Ok || r == IoError || r == Panicked)
      ensures buf == [] ==> unchanged(scratch) && (r == Panicked <==> resolved) && (r == IoError <==> !resolved)
      ensures buf != [] ==> Sound() && (r == Ok || r == IoError) && (r == Ok ==> resolved)
      ensures r == Ok ==> view == Splice(old(view), pos, bytes) && PieceStored(old(view), old(scratch.Contents()), pos, bytes)
      ensures r != Ok ==> view == old(view)
      ensures r == IoError ==> !Dependable()
      ensures (Readable() ==> resolved) && (scratch.media == Full ==> r != Ok)
    {
      hide LayeredDisk.Framed, Geometry.Valid, Geometry.BlockOf, Geometry.BlockOffset, Geometry.Start, Splice;
      hide BlockBytes, ScratchLayer.Valid;
      Shape();
      var block, inBlock := geometry.BlockOf(pos), geometry.BlockOffset(pos);
      BlockFits(geometry, pos);
      var ok;
      tmp := buf;
      resolved, tmp := ResolveInto(block, |buf|);
      if !resolved { return false, IoError, buf; }
      if inBlock + |bytes| > |tmp| { return true, Panicked, buf; }
      assert tmp == BlockBytes(geometry, view, block);
      tmp := Splice(tmp, inBlock, bytes);
      ok := Store(block, tmp, inBlock, bytes);
      r := if ok then Ok else IoError;
    }

    // Store a whole block without reading it. `bytes` is empty when it comes from a lost block buffer.
    method Replace(pos: nat, bytes: seq<Byte>) returns (ok: bool)
      requires Framed() && InOneBlock(geometry, pos, geometry.blockSize) && (|bytes| == geometry.blockSize || bytes == [])
      modifies this`view, scratch
      ensures Framed() && |old(view)| == |base| == geometry.virtualSize && geometry.Valid()
      ensures old(scratch.Valid()) ==> (scratch.Valid() <==> !ok || bytes != [])
      ensures ok && bytes != [] ==>
                && view == Splice(Overlaid(old(view), geometry.blockSize, old(scratch.Hung()), bytes), pos, bytes) && scratch.Hung() == {}
      ensures ok && bytes != [] && old(scratch.Hung()) == {} ==> PieceStored(old(view), old(scratch.Contents()), pos, bytes)
      ensures ok && bytes == [] ==>
                && view == Splice(old(view), pos, AfterTrim(geometry, base, pos, geometry.blockSize))
                && scratch.Hung() == old(scratch.Hung()) + {geometry.BlockOf(pos)}
      ensures !ok ==> view == old(view) && scratch.Hung() == old(scratch.Hung()) && !Dependable()
      ensures scratch.media == Full ==> (ok <==> bytes == [])
      ensures Readable() && bytes == [] ==> ok
    {
      hide LayeredDisk.Framed, Geometry.BlockOf, Geometry.BlockOffset, Geometry.Start, Splice, BlockBytes;
      hide ScratchLayer.Valid, Overlaid;
      Shape();
      var block := geometry.BlockOf(pos);
      BlockFits(geometry, pos);
      assert geometry.BlockOffset(pos) == 0;
      WholeBlock(geometry, base, pos);
      if bytes != [] { SpliceWhole(BlockBytes(geometry, view, block), bytes); }
      ghost var top := scratch.Contents();
      ok := StoreWhole(block, bytes);
      assert ok && bytes != [] && old(scratch.Hung()) == {} ==> scratch.Contents() == top[block := bytes];
    }

    // The body of the write loop. A failed store of a part does not put the block buffer back.
    method WritePiece(pos: nat, bytes: seq<Byte>) returns (r: Outcome, ghost cause: Cause)
      requires Usable() && InOneBlock(geometry, pos, |bytes|)
      modifies this`view, this`blockBuf, scratch
      ensures if old(Lost()) || cause == PartStore then Adrift() else Valid()
      ensures |old(view)| == geometry.virtualSize && 0 < geometry.blockSize && (old(scratch.Valid()) ==> scratch.Valid())
      ensures (r == Ok || r == IoError || r == Panicked) && (r == IoError <==> cause != NoCause)
      ensures r == Ok ==>
                view == Splice(Overlaid(old(view), geometry.blockSize, old(scratch.Hung()), bytes), pos, bytes) && scratch.Hung() == {}
      ensures r == Ok && !old(Lost()) ==> PieceStored(old(view), old(scratch.Contents()), pos, bytes)
      ensures r != Ok ==> view == old(view) && scratch.Hung() == old(scratch.Hung()) && (cause == WholeStore <==> WholePiece(geometry, pos, |bytes|))
      ensures if old(Lost()) then cause != PartStore && (r == Ok ==> WholePiece(geometry, pos, |bytes|)) else r != Panicked
      ensures r == IoError ==> !Dependable()
      ensures (Readable() ==> cause != Unresolved) && (scratch.media == Full ==> r != Ok)
    {
      hide LayeredDisk.Framed, LayeredDisk.Dependable, LayeredDisk.Readable, Geometry.BlockOf, Geometry.BlockOffset;
      hide Splice, ScratchLayer.Valid, Overlaid;
      Kept();
      Shape();
      if geometry.BlockOffset(pos) == 0 && |bytes| == geometry.blockSize {
        var ok := Replace(pos, bytes);
        r, cause := if ok then Ok else IoError, if ok then NoCause else WholeStore;
      } else {
        var buf := blockBuf;
        blockBuf := [];
        var resolved, tmp;
        resolved, r, tmp := Patch(pos, bytes, buf);
        cause := if r != IoError then NoCause else if resolved then PartStore else Unresolved;
        if resolved && r != Ok { StillSolid(old(scratch.Hung())); return; }
        blockBuf := tmp;
        StillSolid(old(scratch.Hung()));
      }
    }

    // A scratch in order has nothing hanging.
    lemma StillSolid(hung: set<nat>)
      ensures scratch.Valid() && hung == {} ==> scratch.Hung() == hung
    {
      if scratch.Valid() { scratch.Solid(); }
    }

    method WriteLoop(offset: nat, buf: seq<Byte>) returns (r: Outcome, ghost done: nat, ghost cause: Cause)
      requires Usable() && geometry.InRange(offset, |buf|)
      modifies this`view, this`blockBuf, scratch
      ensures if old(Lost()) || cause == PartStore then Adrift() else Valid()
      ensures geometry.Valid() && |old(view)| == geometry.virtualSize && (old(scratch.Valid()) ==> scratch.Valid())
      ensures (r == Ok || r == IoError || r == Panicked) && (r == IoError <==> cause != NoCause) && (r == IoError ==> !Dependable())
      ensures Progress(geometry, offset, |buf|, r == Ok, done)
      ensures view == AfterWrite(geometry.blockSize, old(view), old(scratch.Hung()), offset, buf, done)
      ensures scratch.Hung() == if done == 0 then old(scratch.Hung()) else {}
      ensures r != Ok ==> Blamed(geometry, offset, |buf|, done, cause)
      ensures if old(Lost()) then cause != PartStore && (done == 0 || AlignedRange(geometry, offset, done)) else r != Panicked
      ensures (Readable() ==> cause != Unresolved) && (scratch.media == Full && buf != [] ==> r != Ok && done == 0)
    {
      hide LayeredDisk.Framed, LayeredDisk.Dependable, LayeredDisk.Readable, Geometry.Valid, Geometry.BlockOffset;
      hide PieceLen, InOneBlock;
      hide Splice, Overlaid, AfterWrite, Halfway, Progress, WholePiece, AlignedRange, ScratchLayer.Valid;
      Kept();
      Shape();
      r, done, cause := Ok, 0, NoCause;
      var sent, pos := 0, offset;
      ghost var v, hung, lost := view, scratch.Hung(), Lost();
      AfterNothing(geometry.blockSize, v, hung, offset, buf);
      HalfwayStart(geometry, offset, |buf|);
      while r == Ok && sent < |buf|
        invariant 0 <= sent <= |buf| && pos == offset + sent && done == sent
        invariant if lost || cause == PartStore then Adrift() else Valid()
        invariant old(scratch.Valid()) ==> scratch.Valid()
        invariant (r == Ok || r == IoError || r == Panicked) && (r == IoError <==> cause != NoCause) && (r == IoError ==> !Dependable())
        invariant Halfway(geometry, offset, |buf|, r == Ok, done)
        invariant view == AfterWrite(geometry.blockSize, v, hung, offset, buf, sent)
        invariant scratch.Hung() == if sent == 0 then hung else {}
        invariant r != Ok ==> sent < |buf| && Blamed(geometry, offset, |buf|, done, cause)
        invariant if lost then cause != PartStore && (done == 0 || AlignedRange(geometry, offset, done)) else r != Panicked && hung == {}
        invariant (Readable() ==> cause != Unresolved) && (scratch.media == Full ==> done == 0)
      {
        var n := PieceLen(geometry, pos, |buf| - sent);
        r, cause := WritePiece(pos, buf[sent..sent + n]);
        if r == Ok {
          if lost {
            WholePieceLen(geometry, pos, n);
            AlignedMore(geometry, offset, done, n);
          }
          AfterWriteMore(geometry.blockSize, v, hung, offset, buf, sent, n);
          HalfwayStep(geometry, offset, |buf|, done, n);
          sent, pos, done := sent + n, pos + n, done + n;
        } else {
          HalfwayFails(geometry, offset, |buf|, done);
        }
      }
      HalfwayDone(geometry, offset, |buf|, r == Ok, done);
    }

    /** Write `buf` at `offset`. A write that fails loses the block buffer exactly when the store it
        failed at was of a block covered in part; an aligned write never does. With the buffer lost a write
        stores its leading whole blocks, the first of them in every hung block too, and then panics at
        a block it covers in part. */
    method WriteAt(offset: nat, buf: seq<Byte>) returns (r: Outcome, ghost done: nat, ghost cause: Cause)
      requires Usable()
      modifies this`view, this`blockBuf, scratch
      ensures geometry.Valid() && |old(view)| == geometry.virtualSize && (old(scratch.Valid()) ==> scratch.Valid())
      ensures (if old(Lost()) || cause == PartStore then Adrift() else Valid()) && (r == IoError <==> cause != NoCause)
      ensures r == OutOfRange <==> !geometry.InRange(offset, |buf|)
      ensures r == OutOfRange ==> view == old(view) && scratch.Hung() == old(scratch.Hung())
      ensures r != OutOfRange ==> Progress(geometry, offset, |buf|, r == Ok, done)
      ensures r != OutOfRange ==> view == AfterWrite(geometry.blockSize, old(view), old(scratch.Hung()), offset, buf, done)
      ensures r != OutOfRange ==> scratch.Hung() == if done == 0 then old(scratch.Hung()) else {}
      ensures r == IoError || r == Panicked ==> Blamed(geometry, offset, |buf|, done, cause)
      ensures r == IoError ==> !Dependable()
      ensures !old(Lost()) ==> r != Panicked && (r != OutOfRange ==> view == Splice(old(view), offset, buf[..done]))
      ensures !old(Lost()) && AlignedRange(geometry, offset, |buf|) ==> Valid()
      ensures old(Lost()) && (r == Ok || r == Panicked) ==> (r == Panicked <==> buf != [] && !AlignedRange(geometry, offset, |buf|))
      ensures old(Lost()) && r != OutOfRange ==> cause != PartStore && Led(geometry.blockSize, offset, |buf|, done, r == IoError)
      ensures scratch.media == Full && Readable() && geometry.InRange(offset, |buf|) && buf != [] ==>
                && done == 0
                && (if WholePiece(geometry, offset, PieceLen(geometry, offset, |buf|)) then r == IoError && (Valid() <==> !old(Lost()))
                    else if old(Lost()) then r == Panicked
                    else r == IoError && Lost())
    {
      hide LayeredDisk.Framed, LayeredDisk.Dependable, LayeredDisk.Readable, Geometry.Valid, Splice, Progress, Blamed;
      hide ScratchLayer.Valid;
      hide AlignedRange, WholePiece, PieceLen, AfterWrite, Led;
      Kept();
      Shape();
      if !geometry.InRange(offset, |buf|) { return OutOfRange, 0, NoCause; }
      r, done, cause := WriteLoop(offset, buf);
      ProgressBound(geometry, offset, |buf|, r == Ok, done);
      if r != Ok {
        BlamedFacts(geometry, offset, |buf|, done, cause);
        if AlignedRange(geometry, offset, |buf|) { AlignedPiece(geometry, offset, |buf|, done); }
      }
      if old(Lost()) { LedFacts(geometry, offset, |buf|, done, r == IoError); }
    }

    // ---- zero and trim -----------------------------------------------------------------------------

    // The body of the zeroing and partial-trim loops. The block buffer is put back, unless the thread
    // panics. A lost buffer stores a whole block as nothing.
    method ZeroPiece(pos: nat, n: nat) returns (r: Outcome)
      requires Usable() && InOneBlock(geometry, pos, n)
      modifies this`view, this`blockBuf, scratch
      ensures if old(Lost()) then Adrift() else Valid()
      ensures geometry.Valid() && |old(view)| == |base| == geometry.virtualSize && (r == Ok || r == IoError || r == Panicked)
      ensures old(scratch.Valid()) ==> (scratch.Valid() <==> !(old(Lost()) && r == Ok))
      ensures !old(Lost()) && r == Ok ==>
                view == Splice(old(view), pos, Zeros(n)) && PieceStored(old(view), old(scratch.Contents()), pos, Zeros(n))
      ensures old(Lost()) && r == Ok ==>
                && WholePiece(geometry, pos, n) && view == Splice(old(view), pos, AfterTrim(geometry, base, pos, n))
                && scratch.Hung() == old(scratch.Hung()) + {geometry.BlockOf(pos)}
      ensures r == Panicked ==> old(Lost()) && !WholePiece(geometry, pos, n)
      ensures r != Ok ==> view == old(view) && scratch.Hung() == old(scratch.Hung())
      ensures r == IoError ==> !Dependable() && (old(Lost()) ==> !Readable())
    {
      hide LayeredDisk.Framed, LayeredDisk.Dependable, LayeredDisk.Readable, Geometry.BlockOf, Geometry.BlockOffset;
      hide Splice, Zeros, ScratchLayer.Valid, Overlaid;
      Kept();
      Shape();
      var buf := blockBuf;
      blockBuf := [];
      if geometry.BlockOffset(pos) == 0 && n == geometry.blockSize {
        buf := Zeros(|buf|);
        var ok := Replace(pos, buf);
        r := if ok then Ok else IoError;
      } else {
        var resolved, tmp;
        resolved, r, tmp := Patch(pos, Zeros(n), buf);
        StillSolid(old(scratch.Hung()));
        if r == Panicked { return; }
        buf := tmp;
      }
      blockBuf := buf;
    }

    method ZeroLoop(offset: nat, len: nat) returns (r: Outcome, ghost done: nat)
      requires Usable() && geometry.InRange(offset, len)
      modifies this`view, this`blockBuf, scratch
      ensures if old(Lost()) then Adrift() else Valid()
      ensures geometry.Valid() && |old(view)| == |base| == geometry.virtualSize && (r == Ok || r == IoError || r == Panicked)
      ensures r == IoError ==> !Dependable() && (old(Lost()) ==> !Readable())
      ensures Progress(geometry, offset, len, r == Ok, done)
      ensures !old(Lost()) ==> r != Panicked && view == Splice(old(view), offset, Zeros(len)[..done])
      ensures old(Lost()) ==> view == Trimmed(old(view), base, geometry.blockSize, offset, done)
      ensures old(Lost()) ==> scratch.Hung() == old(scratch.Hung()) + Covers(geometry.blockSize, offset, done)
      ensures old(Lost()) ==> done == 0 || AlignedRange(geometry, offset, done)
      ensures r == Panicked ==> Blamed(geometry, offset, len, done, NoCause)
      ensures old(scratch.Valid()) ==> (scratch.Valid() <==> !(old(Lost()) && done > 0))
    {
      hide LayeredDisk.Framed, LayeredDisk.Dependable, LayeredDisk.Readable, Geometry.Valid, Geometry.BlockOf;
      hide Geometry.BlockOffset, PieceLen, InOneBlock;
      hide Splice, Halfway, Progress, ScratchLayer.Valid, WholePiece, AlignedRange, AfterTrim, Trimmed, Covers;
      Kept();
      Shape();
      r, done := Ok, 0;
      var remaining, pos := len, offset;
      ghost var v, hung, lost := view, scratch.Hung(), Lost();
      SpliceNothing(v, offset);
      TrimNothing(v, base, geometry.blockSize, offset);
      CoversNothing(geometry.blockSize, offset);
      HalfwayStart(geometry, offset, len);
      while r == Ok && remaining > 0
        invariant 0 <= remaining <= len && done == len - remaining && pos == offset + done
        invariant (r == Ok || r == IoError || r == Panicked) && (if lost then Adrift() else Valid())
        invariant r == IoError ==> !Dependable() && (lost ==> !Readable())
        invariant Halfway(geometry, offset, len, r == Ok, done)
        invariant !lost ==> r != Panicked && view == Splice(v, offset, Zeros(len)[..done])
        invariant lost ==> view == Trimmed(v, base, geometry.blockSize, offset, done)
        invariant lost ==> scratch.Hung() == hung + Covers(geometry.blockSize, offset, done)
        invariant lost ==> done == 0 || (AlignedRange(geometry, offset, done) && scratch.Hung() != {})
        invariant r == Panicked ==> Blamed(geometry, offset, len, done, NoCause)
        invariant old(scratch.Valid()) && !(lost && done > 0) ==> scratch.Valid()
      {
        var n := PieceLen(geometry, pos, remaining);
        TrimMore(geometry, v, base, offset, len, done, n);
        CoversPiece(geometry, offset, len, done, n);
        r := ZeroPiece(pos, n);
        if r == Ok {
          if lost {
            AlignedMore(geometry, offset, done, n);
          } else {
            assert Zeros(n) == Zeros(len)[done..done + n];
            SpliceMore(v, offset, Zeros(len), done, n);
          }
          HalfwayStep(geometry, offset, len, done, n);
          remaining, pos, done := remaining - n, pos + n, done + n;
        } else {
          HalfwayFails(geometry, offset, len, done);
        }
      }
      HalfwayDone(geometry, offset, len, r == Ok, done);
      if scratch.Valid() { scratch.Solid(); }
    }

    /** Zero `len` bytes at `offset`. With the block buffer lost, this reports success for whole blocks it
        stored as nothing: the view loses them, and the append log is no longer in order. */
    method WriteZeroes(offset: nat, len: nat) returns (r: Outcome, ghost done: nat)
      requires Usable()
      modifies this`view, this`blockBuf, scratch
      ensures geometry.Valid() && |old(view)| == |base| == geometry.virtualSize
      ensures if old(Lost()) then Adrift() else Valid()
      ensures r == OutOfRange <==> !geometry.InRange(offset, len)
      ensures r == OutOfRange ==> view == old(view) && scratch.Hung() == old(scratch.Hung()) && (old(scratch.Valid()) ==> scratch.Valid())
      ensures r != OutOfRange ==> Progress(geometry, offset, len, r == Ok, done)
      ensures !old(Lost()) ==> r != Panicked && (r != OutOfRange ==> view == Splice(old(view), offset, Zeros(len)[..done]))
      ensures old(Lost()) && r != OutOfRange ==>
                && view == Trimmed(old(view), base, geometry.blockSize, offset, done)
                && scratch.Hung() == old(scratch.Hung()) + Covers(geometry.blockSize, offset, done)
      ensures old(Lost()) && (r == Ok || r == Panicked) ==> (r == Panicked <==> len > 0 && !AlignedRange(geometry, offset, len))
      ensures old(Lost()) && r != OutOfRange ==> Led(geometry.blockSize, offset, len, done, r == IoError)
      ensures old(scratch.Valid()) && r != OutOfRange ==> (scratch.Valid() <==> !(old(Lost()) && done > 0))
      ensures r == Panicked ==> Blamed(geometry, offset, len, done, NoCause)
      ensures r == IoError ==> !Dependable() && (old(Lost()) ==> !Readable())
    {
      hide LayeredDisk.Framed, LayeredDisk.Dependable, LayeredDisk.Readable, Geometry.Valid, Splice, Progress;
      hide ScratchLayer.Valid, Blamed;
      hide AlignedRange, WholePiece, PieceLen, Trimmed, Covers, Led;
      Kept();
      Shape();
      if !geometry.InRange(offset, len) { return OutOfRange, 0; }
      r, done := ZeroLoop(offset, len);
      ProgressBound(geometry, offset, len, r == Ok, done);
      if r == Panicked {
        BlamedFacts(geometry, offset, len, done, NoCause);
        if AlignedRange(geometry, offset, len) { AlignedPiece(geometry, offset, len, done); }
      }
      if old(Lost()) { LedFacts(geometry, offset, len, done, r == IoError); }
    }

    // The body of the trim loop.
    method TrimPiece(pos: nat, n: nat) returns (r: Outcome)
      requires Usable() && InOneBlock(geometry, pos, n)
      modifies this`view, this`blockBuf, scratch
      ensures if old(Lost()) then Adrift() else Valid()
      ensures geometry.Valid() && |old(view)| == |base| == geometry.virtualSize && (r == Ok || r == IoError || r == Panicked)
      ensures old(scratch.Valid()) ==> scratch.Valid()
      ensures r == Ok ==> view == Splice(old(view), pos, AfterTrim(geometry, base, pos, n))
      ensures r == Ok ==> scratch.Hung() == old(scratch.Hung()) - if WholePiece(geometry, pos, n) then {geometry.BlockOf(pos)} else {}
      ensures r == Ok && !old(Lost()) ==> scratch.Contents() == TrimmedPiece(geometry, old(view), old(scratch.Contents()), pos, n)
      ensures r == Ok && old(Lost()) ==> WholePiece(geometry, pos, n)
      ensures r == Panicked ==> old(Lost()) && !WholePiece(geometry, pos, n)
      ensures r != Ok ==> view == old(view) && scratch.Hung() == old(scratch.Hung())
      ensures r == IoError ==> !Dependable() && (old(Lost()) ==> !Readable())
    {
      hide LayeredDisk.Framed, LayeredDisk.Dependable, LayeredDisk.Readable, Geometry.BlockOf, Geometry.BlockOffset;
      hide Geometry.Start, Splice, BlockBytes, ScratchLayer.Valid;
      Kept();
      Shape();
      var block, inBlock := geometry.BlockOf(pos), geometry.BlockOffset(pos);
      BlockFits(geometry, pos);
      if inBlock == 0 && n == geometry.blockSize {
        WholeBlock(geometry, base, pos);
        Forget(block);
        r := Ok;
      } else {
        r := ZeroPiece(pos, n);
        StillSolid(old(scratch.Hung()));
      }
    }

    method TrimLoop(offset: nat, len: nat) returns (r: Outcome, ghost done: nat)
      requires Usable() && geometry.InRange(offset, len)
      modifies this`view, this`blockBuf, scratch
      ensures if old(Lost()) then Adrift() else Valid()
      ensures geometry.Valid() && |old(view)| == |base| == geometry.virtualSize && (r == Ok || r == IoError || r == Panicked)
      ensures old(scratch.Valid()) ==> scratch.Valid()
      ensures r == IoError ==> !Dependable() && (old(Lost()) ==> !Readable())
      ensures Progress(geometry, offset, len, r == Ok, done)
      ensures view == Trimmed(old(view), base, geometry.blockSize, offset, done)
      ensures scratch.Hung() == old(scratch.Hung()) - Covers(geometry.blockSize, offset, done)
      ensures if old(Lost()) then done == 0 || AlignedRange(geometry, offset, done) else r != Panicked
      ensures r == Panicked ==> Blamed(geometry, offset, len, done, NoCause)
    {
      hide LayeredDisk.Framed, LayeredDisk.Dependable, LayeredDisk.Readable, Geometry.Valid, Geometry.BlockOf;
      hide Geometry.BlockOffset, PieceLen, InOneBlock;
      hide AfterTrim, Splice, Trimmed, Halfway, Progress, ScratchLayer.Valid, WholePiece, AlignedRange, Covers;
      Kept();
      Shape();
      r, done := Ok, 0;
      var remaining, pos := len, offset;
      ghost var v, hung, lost := view, scratch.Hung(), Lost();
      TrimNothing(v, base, geometry.blockSize, offset);
      CoversNothing(geometry.blockSize, offset);
      HalfwayStart(geometry, offset, len);
      while r == Ok && remaining > 0
        invariant 0 <= remaining <= len && done == len - remaining && pos == offset + done
        invariant (r == Ok || r == IoError || r == Panicked) && (if lost then Adrift() else Valid())
        invariant old(scratch.Valid()) ==> scratch.Valid()
        invariant r == IoError ==> !Dependable() && (lost ==> !Readable())
        invariant Halfway(geometry, offset, len, r == Ok, done)
        invariant view == Trimmed(v, base, geometry.blockSize, offset, done)
        invariant scratch.Hung() == hung - Covers(geometry.blockSize, offset, done)
        invariant if lost then done == 0 || AlignedRange(geometry, offset, done) else r != Panicked
        invariant r == Panicked ==> Blamed(geometry, offset, len, done, NoCause)
      {
        var n := PieceLen(geometry, pos, remaining);
        TrimMore(geometry, v, base, offset, len, done, n);
        CoversPiece(geometry, offset, len, done, n);
        r := TrimPiece(pos, n);
        if r == Ok {
          if lost { AlignedMore(geometry, offset, done, n); }
          HalfwayStep(geometry, offset, len, done, n);
          remaining, pos, done := remaining - n, pos + n, done + n;
        } else {
          HalfwayFails(geometry, offset, len, done);
        }
      }
      HalfwayDone(geometry, offset, len, r == Ok, done);
    }

    /** Discard `len` bytes at `offset` from the overlay: wholly covered blocks show the lower
        layers again, the covered part of the others reads zero, unless the block buffer is lost. */
    method Trim(offset: nat, len: nat) returns (r: Outcome, ghost done: nat)
      requires Usable()
      modifies this`view, this`blockBuf, scratch
      ensures geometry.Valid() && |old(view)| == |base| == geometry.virtualSize && (old(scratch.Valid()) ==> scratch.Valid())
      ensures if old(Lost()) then Adrift() else Valid()
      ensures r == OutOfRange <==> !geometry.InRange(offset, len)
      ensures r == OutOfRange ==> view == old(view) && scratch.Hung() == old(scratch.Hung())
      ensures r != OutOfRange ==> Progress(geometry, offset, len, r == Ok, done)
      ensures r != OutOfRange ==> view == Trimmed(old(view), base, geometry.blockSize, offset, done)
      ensures r != OutOfRange ==> scratch.Hung() == old(scratch.Hung()) - Covers(geometry.blockSize, offset, done)
      ensures if !old(Lost()) then r != Panicked
              else r == Ok || r == Panicked ==> (r == Panicked <==> len > 0 && !AlignedRange(geometry, offset, len))
      ensures old(Lost()) && r != OutOfRange ==> Led(geometry.blockSize, offset, len, done, r == IoError)
      ensures r == Panicked ==> Blamed(geometry, offset, len, done, NoCause)
      ensures r == IoError ==> !Dependable() && (old(Lost()) ==> !Readable())
    {
      hide LayeredDisk.Framed, LayeredDisk.Dependable, LayeredDisk.Readable, Geometry.Valid, Trimmed, Progress;
      hide ScratchLayer.Valid, Blamed;
      hide AlignedRange, WholePiece, PieceLen, Covers, Led;
      Kept();
      Shape();
      if !geometry.InRange(offset, len) { return OutOfRange, 0; }
      r, done := TrimLoop(offset, len);
      ProgressBound(geometry, offset, len, r == Ok, done);
      if r == Panicked {
        BlamedFacts(geometry, offset, len, done, NoCause);
        if AlignedRange(geometry, offset, len) { AlignedPiece(geometry, offset, len, done); }
      }
      if old(Lost()) { LedFacts(geometry, offset, len, done, r == IoError); }
    }
  }
}
