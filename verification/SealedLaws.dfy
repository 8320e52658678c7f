/** What sealing and reopening promise: a round trip on bytes, rejection of corrupted metadata,
    and a content-id pre-image that determines the layer. */
module SealedLaws {
  import opened Bytes
  import opened Blocks
  import opened Layers
  import opened Stack
  import opened Sealed
  import Crc

  /** Reopen a sealed layer file. */
  method OpenSealed(file: seq<Byte>) returns (r: Result<ImmutableLayer>)
    ensures r == OpenSpec(file)
  {
    hide DecodeMeta, Crc.CrcOf;
    if |file| < FOOTER_SIZE { return Failure(TooShort); }
    var end := |file| - FOOTER_SIZE;
    var footer := file[end..];
    if footer[16..24] != MAGIC { return Failure(BadMagic); }
    var version := FromLE(footer[12..14]);
    if version != FORMAT_VERSION { return Failure(BadVersion); }
    var metaLen, metaCrc := FromLE(footer[0..8]), FromLE(footer[8..12]);
    if metaLen > end { return Failure(LengthOverflow); }
    var bytes := file[end - metaLen..end];
    var crc := Crc.Crc32(bytes);
    if crc as nat != metaCrc { return Failure(ChecksumMismatch); }
    var meta, _ := ReadMeta(bytes);
    if meta.Failure? { return meta.PropagateFailure(); }
    var g := NewGeometry(meta.value.virtualSize, meta.value.blockSize);
    if g.None? { return Failure(BadGeometry); }
    r := Success(ImmutableLayer.Sealed(g.value, file, meta.value.index, meta.value.contentId, meta.value.parents));
  }

  // ---- round trip --------------------------------------------------------------------------------

  lemma {:induction false} IdsRoundTrip(bytes: seq<Byte>, pos: nat, ids: seq<Digest>)
    requires pos + 32 * |ids| <= |bytes| && bytes[pos..pos + 32 * |ids|] == ConcatIds(ids)
    ensures DecodeIds(bytes, pos, |ids|) == Success(ids)
  {
    if ids != [] {
      var n := |ids| - 1;
      SliceOfSlice(bytes, pos, 32 * n + 32, 0, 32 * n);
      SliceOfSlice(bytes, pos, 32 * n + 32, 32 * n, 32);
      assert (ConcatIds(ids[..n]) + ids[n])[0..32 * n] == ConcatIds(ids[..n]);
      assert (ConcatIds(ids[..n]) + ids[n])[32 * n..32 * n + 32] == ids[n];
      IdsRoundTrip(bytes, pos, ids[..n]);
      assert ids[..n] + [ids[n]] == ids;
    }
  }

  function Restrict(index: map<nat, nat>, keys: seq<nat>): map<nat, nat> {
    map k | k in keys && k in index :: index[k]
  }

  predicate Fits(index: map<nat, nat>) {
    |index| < U64 && forall k :: k in index ==> k < U64 && index[k] < U64
  }

  lemma {:induction false} EntriesRoundTrip(bytes: seq<Byte>, pos: nat, keys: seq<nat>, index: map<nat, nat>)
    requires Fits(index) && forall k :: k in keys ==> k in index
    requires pos + 16 * |keys| <= |bytes| && bytes[pos..pos + 16 * |keys|] == EncodeEntries(keys, index)
    ensures DecodeEntries(bytes, pos, |keys|) == Success(Restrict(index, keys))
  {
    hide LE, FromLE, Pow256;
    if keys == [] {
      assert Restrict(index, keys) == map[];
    } else {
      var n := |keys| - 1;
      var k := keys[n];
      assert k in keys;
      SliceOfSlice(bytes, pos, 16 * n + 16, 0, 16 * n);
      SliceOfSlice(bytes, pos, 16 * n + 16, 16 * n, 8);
      SliceOfSlice(bytes, pos, 16 * n + 16, 16 * n + 8, 8);
      var init, last := EncodeEntries(keys[..n], index), LE(8, k) + LE(8, index[k]);
      assert (init + last)[0..16 * n] == init;
      assert (init + last)[16 * n..16 * n + 8] == LE(8, k);
      assert (init + last)[16 * n + 8..16 * n + 16] == LE(8, index[k]);
      Widths();
      LERoundTrip(8, k);
      LERoundTrip(8, index[k]);
      EntriesRoundTrip(bytes, pos, keys[..n], index);
      RestrictSnoc(index, keys, n);
    }
  }

  lemma RestrictSnoc(index: map<nat, nat>, keys: seq<nat>, n: nat)
    requires |keys| == n + 1 && keys[n] in index
    ensures Restrict(index, keys) == Restrict(index, keys[..n])[keys[n] := index[keys[n]]]
  {
    assert forall k :: k in keys <==> k in keys[..n] || k == keys[n] by {
      assert keys == keys[..n] + [keys[n]];
    }
  }

  lemma RestrictAll(index: map<nat, nat>)
    ensures Restrict(index, Sorted(index.Keys)) == index
  {
  }

  lemma MetaSlices(g: Geometry, id: Digest, parents: seq<Digest>, index: map<nat, nat>, bytes: seq<Byte>)
    requires bytes == EncodeMeta(g, id, parents, index)
    ensures var p, n := 47 + 32 * |parents|, 16 * |Sorted(index.Keys)|;
            && |bytes| == p + 8 + n
            && bytes[0..4] == LE(4, g.blockSize) && bytes[4..12] == LE(8, g.virtualSize)
            && bytes[12..13] == [HASH_SHA256] && bytes[13..45] == id
            && bytes[45..47] == LE(2, |parents|) && bytes[47..p] == ConcatIds(parents)
            && bytes[p..p + 8] == LE(8, |index|)
            && bytes[p + 8..p + 8 + n] == EncodeEntries(Sorted(index.Keys), index)
  {
    hide LE, ConcatIds, EncodeEntries, Sorted;
    var head := MetaHead(g, id, parents);
    assert bytes[..47 + 32 * |parents|] == head;
    assert head[0..4] == LE(4, g.blockSize) && head[4..12] == LE(8, g.virtualSize);
    assert head[12..13] == [HASH_SHA256] && head[13..45] == id;
    assert head[45..47] == LE(2, |parents|) && head[47..] == ConcatIds(parents);
  }

  lemma OneByte(b: Byte)
    ensures FromLE([b]) == b
  {
    assert [b][1..] == [];
  }

  lemma MetaRoundTrip(g: Geometry, id: Digest, parents: seq<Digest>, index: map<nat, nat>)
    requires g.Valid() && |parents| < U16 && Fits(index)
    ensures DecodeMeta(EncodeMeta(g, id, parents, index)) ==
            Success(Meta(g.blockSize, g.virtualSize, id, parents, index))
  {
    hide LE, FromLE, ConcatIds, EncodeEntries, EncodeMeta, Sorted, DecodeIds, DecodeEntries, Restrict, Pow256;
    var bytes := EncodeMeta(g, id, parents, index);
    var p := 47 + 32 * |parents|;
    MetaSlices(g, id, parents, index, bytes);
    Widths();
    LERoundTrip(4, g.blockSize);
    LERoundTrip(8, g.virtualSize);
    OneByte(HASH_SHA256);
    LERoundTrip(2, |parents|);
    LERoundTrip(8, |index|);
    IdsRoundTrip(bytes, 47, parents);
    EntriesRoundTrip(bytes, p + 8, Sorted(index.Keys), index);
    RestrictAll(index);
  }

  // ---- the packed region ----------------------------------------------------------------------------

  /** A layer that sealing accepts: whole blocks inside the disk, and metadata that fits in memory. */
  predicate Sealable(sha: seq<Byte> -> Digest, g: Geometry, parents: seq<Digest>, m: BlockMap) {
    && g.Valid() && |parents| < U16
    && Sized(m, g.blockSize) && (forall b :: b in m ==> b < g.BlockCount())
    && |MetaOf(sha, g, parents, m)| < U64
  }

  /** The index of a fully populated disk fits a 64-bit length. */
  predicate IndexFits(g: Geometry)
    requires g.Valid()
  {
    55 + 32 * U16 + 16 * g.BlockCount() < U64
  }

  lemma KeysBelow(s: set<nat>, n: nat)
    requires forall k :: k in s ==> k < n
    ensures |s| <= n
  {
    hide Sorted;
    var keys := Sorted(s);
    if keys != [] {
      AscendingGrows(keys, |keys| - 1);
      assert keys[|keys| - 1] in keys;
    }
  }

  lemma ContentsSealable(sha: seq<Byte> -> Digest, g: Geometry, parents: seq<Digest>, m: BlockMap)
    requires g.Valid() && IndexFits(g) && |parents| < U16
    requires Sized(m, g.blockSize) && forall b :: b in m ==> b < g.BlockCount()
    ensures Sealable(sha, g, parents, m)
  {
    hide Sorted, PackedIndex, LE, EncodeEntries, ContentId;
    KeysBelow(m.Keys, g.BlockCount());
    PackedKeys(m, g.blockSize);
  }

  lemma {:induction false} PackedAt(keys: seq<nat>, m: BlockMap, bs: nat, i: nat)
    requires Sized(m, bs) && (forall k :: k in keys ==> k in m) && i < |keys|
    ensures i * bs + bs <= |keys| * bs == |Packed(keys, m)|
    ensures Packed(keys, m)[i * bs..i * bs + bs] == m[keys[i]]
  {
    var n := |keys| - 1;
    PackedLen(keys, m, bs);
    PackedLen(keys[..n], m, bs);
    MulSucc(n, bs);
    MulSucc(i, bs);
    var p := Packed(keys[..n], m);
    assert keys[n] in keys;
    if i < n {
      PackedAt(keys[..n], m, bs, i);
      MulMono(i + 1, n, bs);
      assert Packed(keys, m)[i * bs..i * bs + bs] == p[i * bs..i * bs + bs];
    } else {
      assert (p + m[keys[n]])[n * bs..n * bs + bs] == m[keys[n]];
    }
  }

  lemma {:induction false} PackedIndexAt(keys: seq<nat>, bs: nat, i: nat)
    requires Ascending(keys) && i < |keys|
    ensures PackedIndex(keys, bs)[keys[i]] == i * bs
  {
    if i < |keys| - 1 {
      assert keys[i] != keys[|keys| - 1];
      PackedIndexAt(keys[..|keys| - 1], bs, i);
    }
  }

  lemma PackedKeys(m: BlockMap, bs: nat)
    ensures PackedIndex(Sorted(m.Keys), bs).Keys == m.Keys
    ensures |PackedIndex(Sorted(m.Keys), bs)| == |m.Keys|
  {
    hide Sorted, PackedIndex;
    var index := PackedIndex(Sorted(m.Keys), bs);
    assert index.Keys == m.Keys;
    assert |index| == |index.Keys|;
  }

  lemma OffsetInDisk(g: Geometry, keys: seq<nat>, i: nat)
    requires g.Valid() && Ascending(keys) && i < |keys| && keys[i] < g.BlockCount()
    ensures keys[i] < U64 && i * g.blockSize < U64
  {
    AscendingGrows(keys, i);
    var c, bs := g.BlockCount(), g.blockSize;
    DivMod(g.virtualSize, bs);
    MulMono(i, c, bs);
    MulMono(1, bs, c);
  }

  lemma PackedFits(sha: seq<Byte> -> Digest, g: Geometry, parents: seq<Digest>, m: BlockMap)
    requires Sealable(sha, g, parents, m)
    ensures Fits(PackedIndex(Sorted(m.Keys), g.blockSize))
  {
    hide PackedIndex, Geometry.Valid, Geometry.BlockCount, LE, EncodeEntries, Sorted;
    var keys := Sorted(m.Keys);
    var index := PackedIndex(keys, g.blockSize);
    PackedKeys(m, g.blockSize);
    assert |EncodeEntries(Sorted(index.Keys), index)| == 16 * |keys|;
    forall k | k in index
      ensures k < U64 && index[k] < U64
    {
      var i :| 0 <= i < |keys| && keys[i] == k;
      PackedIndexAt(keys, g.blockSize, i);
      OffsetInDisk(g, keys, i);
    }
  }

  /** A sealed layer populates exactly the blocks it was sealed from, every payload inside the file. */
  lemma SealedBlocks(sha: seq<Byte> -> Digest, g: Geometry, parents: seq<Digest>, m: BlockMap)
    requires Sealable(sha, g, parents, m)
    ensures SealedLayer(sha, g, parents, m).Blocks() == m
    ensures IntactLayer(SealedLayer(sha, g, parents, m))
  {
    hide PackedIndex, Packed, Geometry.Valid, Geometry.BlockCount, Sorted, MetaOf, EncodeFooter, Crc.CrcOf;
    var keys, bs := Sorted(m.Keys), g.blockSize;
    var layer := SealedLayer(sha, g, parents, m);
    PackedKeys(m, bs);
    forall k | k in m
      ensures layer.index[k] + bs <= |layer.file|
      ensures ReadPadded(layer.file, layer.index[k], bs) == m[k]
    {
      var i :| 0 <= i < |keys| && keys[i] == k;
      PackedIndexAt(keys, bs, i);
      PackedAt(keys, m, bs, i);
      FileBlock(layer.file, Packed(keys, m), i * bs, bs);
    }
  }

  lemma FileBlock(file: seq<Byte>, packed: seq<Byte>, off: nat, bs: nat)
    requires |packed| <= |file| && file[..|packed|] == packed && off + bs <= |packed|
    ensures ReadPadded(file, off, bs) == packed[off..off + bs]
  {
    ReadWithin(file, off, bs);
    assert file[..|packed|][off..off + bs] == file[off..off + bs];
  }

  // ---- the footer -------------------------------------------------------------------------------------

  lemma FooterSlices(metaLen: nat, crc: bv32, footer: seq<Byte>)
    requires footer == EncodeFooter(metaLen, crc)
    ensures footer[0..8] == LE(8, metaLen) && footer[8..12] == LE(4, crc as nat)
    ensures footer[12..14] == LE(2, FORMAT_VERSION) && footer[16..24] == MAGIC
  {
    hide LE;
  }

  lemma FooterRoundTrip(metaLen: nat, crc: bv32)
    requires metaLen < U64
    ensures var footer := EncodeFooter(metaLen, crc);
            && FromLE(footer[0..8]) == metaLen && FromLE(footer[8..12]) == crc as nat
            && FromLE(footer[12..14]) == FORMAT_VERSION && footer[16..24] == MAGIC
  {
    FooterSlices(metaLen, crc, EncodeFooter(metaLen, crc));
    hide LE, FromLE, EncodeFooter, Pow256;
    Widths();
    LERoundTrip(8, metaLen);
    LERoundTrip(4, crc as nat);
    LERoundTrip(2, FORMAT_VERSION);
  }

  /** Sealing then reopening is the identity on layers: geometry, id, parents, index and payloads. */
  lemma SealOpenRoundTrip(sha: seq<Byte> -> Digest, g: Geometry, parents: seq<Digest>, m: BlockMap)
    requires Sealable(sha, g, parents, m)
    ensures OpenSpec(SealFile(sha, g, parents, m)) == Success(SealedLayer(sha, g, parents, m))
  {
    PackedFits(sha, g, parents, m);
    var meta := MetaOf(sha, g, parents, m);
    FooterRoundTrip(|meta|, Crc.CrcOf(meta));
    MetaRoundTrip(g, ContentId(sha, g, parents, m), parents, PackedIndex(Sorted(m.Keys), g.blockSize));
    hide PackedIndex, Packed, Sorted, EncodeMeta, EncodeFooter, Crc.CrcOf, FromLE, DecodeMeta, ContentId, Fits;
    var file := SealFile(sha, g, parents, m);
    var packed, footer := Packed(Sorted(m.Keys), m), EncodeFooter(|meta|, Crc.CrcOf(meta));
    var end := |file| - FOOTER_SIZE;
    assert file[end..] == footer;
    assert file[end - |meta|..end] == meta;
  }

  // ---- corruption ---------------------------------------------------------------------------------------

  /** The metadata region of a file that opens. */
  function MetaStart(file: seq<Byte>): (r: nat)
    requires OpenSpec(file).Success?
    ensures r <= |file| - FOOTER_SIZE
  {
    |file| - FOOTER_SIZE - FromLE(file[|file| - FOOTER_SIZE..][0..8])
  }

  /** Damage to at most four consecutive metadata bytes of a layer that opens is always rejected. */
  lemma CorruptionRejected(file: seq<Byte>, bad: seq<Byte>, i: nat, n: nat)
    requires OpenSpec(file).Success?
    requires |bad| == |file| && bad != file && n <= 4
    requires MetaStart(file) <= i && i + n <= |file| - FOOTER_SIZE
    requires bad[..i] == file[..i] && bad[i + n..] == file[i + n..]
    ensures OpenSpec(bad) == Failure(ChecksumMismatch)
  {
    hide DecodeMeta, FromLE, Crc.CrcOf, NewGeometry;
    var end, start := |file| - FOOTER_SIZE, MetaStart(file);
    SameSuffix(file, bad, i + n, end);
    var meta, meta' := file[start..end], bad[start..end];
    WindowInside(file, bad, start, end, i, n);
    Crc.WindowDetected(meta, meta', i - start, n);
    if Crc.CrcOf(meta') as nat == Crc.CrcOf(meta) as nat { Crc.CrcAsNat(Crc.CrcOf(meta'), Crc.CrcOf(meta)); }
  }

  lemma SameSuffix(a: seq<Byte>, b: seq<Byte>, i: nat, j: nat)
    requires |a| == |b| && i <= j <= |a| && a[i..] == b[i..]
    ensures a[j..] == b[j..]
  {
    assert a[j..] == a[i..][j - i..];
    assert b[j..] == b[i..][j - i..];
  }

  lemma WindowInside(a: seq<Byte>, b: seq<Byte>, start: nat, end: nat, i: nat, n: nat)
    requires |a| == |b| && start <= i && i + n <= end <= |a| && a != b
    requires a[..i] == b[..i] && a[i + n..] == b[i + n..]
    ensures a[start..end][..i - start] == b[start..end][..i - start]
    ensures a[start..end][i - start + n..] == b[start..end][i - start + n..]
    ensures a[start..end] != b[start..end]
  {
    assert a[start..end][..i - start] == a[..i][start..];
    assert b[start..end][..i - start] == b[..i][start..];
    assert a[start..end][i - start + n..] == a[i + n..][..end - i - n];
    assert b[start..end][i - start + n..] == b[i + n..][..end - i - n];
    if a[start..end] == b[start..end] { JoinWindow(a, b, start, end, i, n); }
  }

  lemma JoinWindow(a: seq<Byte>, b: seq<Byte>, start: nat, end: nat, i: nat, n: nat)
    requires |a| == |b| && start <= i && i + n <= end <= |a|
    requires a[..i] == b[..i] && a[i + n..] == b[i + n..] && a[start..end] == b[start..end]
    ensures a == b
  {
    SliceOfSlice(a, start, end - start, i - start, n);
    SliceOfSlice(b, start, end - start, i - start, n);
    assert a == a[..i] + a[i..i + n] + a[i + n..];
    assert b == b[..i] + b[i..i + n] + b[i + n..];
  }

  // ---- content identity -----------------------------------------------------------------------------------

  lemma LEInjective(w: nat, a: nat, b: nat)
    requires a < Pow256(w) && b < Pow256(w) && LE(w, a) == LE(w, b)
    ensures a == b
  {
    LERoundTrip(w, a);
    LERoundTrip(w, b);
  }

  lemma IdsInjective(a: seq<Digest>, b: seq<Digest>)
    requires |a| == |b| && ConcatIds(a) == ConcatIds(b)
    ensures a == b
  {
    var bytes := ConcatIds(a);
    assert bytes[0..0 + 32 * |a|] == bytes;
    IdsRoundTrip(bytes, 0, a);
    IdsRoundTrip(bytes, 0, b);
  }

  lemma {:induction false} DigestsInjective(keys: seq<nat>, d: map<nat, Digest>, keys': seq<nat>, d': map<nat, Digest>)
    requires (forall k :: k in keys ==> k in d && k < U64) && (forall k :: k in keys' ==> k in d' && k < U64)
    requires EncodeDigests(keys, d) == EncodeDigests(keys', d')
    ensures keys == keys'
    ensures forall k :: k in keys ==> d[k] == d'[k]
    decreases |keys|
  {
    hide LE, Pow256;
    if keys != [] {
      var n := |keys| - 1;
      var k, k' := keys[n], keys'[n];
      assert k in keys && k' in keys';
      var e, e' := EncodeDigests(keys[..n], d), EncodeDigests(keys'[..n], d');
      var whole := EncodeDigests(keys, d);
      assert whole[..40 * n] == e && whole[..40 * n] == e';
      assert whole[40 * n..40 * n + 8] == LE(8, k) && whole[40 * n..40 * n + 8] == LE(8, k');
      assert whole[40 * n + 8..] == d[k] && whole[40 * n + 8..] == d'[k'];
      Widths();
      LEInjective(8, k, k');
      DigestsInjective(keys[..n], d, keys'[..n], d');
      assert keys == keys[..n] + [k] && keys' == keys'[..n] + [k'];
    }
  }

  lemma PreImageSlices(g: Geometry, parents: seq<Digest>, d: map<nat, Digest>, bytes: seq<Byte>)
    requires bytes == PreImage(g, parents, d)
    ensures |bytes| >= 33 + 32 * |parents|
    ensures bytes[19..23] == LE(4, g.blockSize) && bytes[23..31] == LE(8, g.virtualSize)
    ensures bytes[31..33] == LE(2, |parents|) && bytes[33..33 + 32 * |parents|] == ConcatIds(parents)
    ensures bytes[33 + 32 * |parents|..] == EncodeDigests(Sorted(d.Keys), d)
  {
    hide LE, ConcatIds, EncodeDigests, Sorted;
    var head := PreHead(g, parents);
    assert bytes[..33 + 32 * |parents|] == head;
    assert head[19..23] == LE(4, g.blockSize) && head[23..31] == LE(8, g.virtualSize);
    assert head[31..33] == LE(2, |parents|) && head[33..] == ConcatIds(parents);
  }

  /** The hashed pre-image determines the geometry, the parents and every block's digest. */
  lemma PreImageInjective(g: Geometry, parents: seq<Digest>, d: map<nat, Digest>,
                          g': Geometry, parents': seq<Digest>, d': map<nat, Digest>)
    requires g.Valid() && g'.Valid() && |parents| < U16 && |parents'| < U16
    requires (forall k :: k in d ==> k < U64) && (forall k :: k in d' ==> k < U64)
    requires PreImage(g, parents, d) == PreImage(g', parents', d')
    ensures g == g' && parents == parents' && d == d'
  {
    hide LE, ConcatIds, EncodeDigests, Sorted, PreImage, Pow256;
    var bytes := PreImage(g, parents, d);
    PreImageSlices(g, parents, d, bytes);
    PreImageSlices(g', parents', d', bytes);
    Widths();
    LEInjective(4, g.blockSize, g'.blockSize);
    LEInjective(8, g.virtualSize, g'.virtualSize);
    LEInjective(2, |parents|, |parents'|);
    IdsInjective(parents, parents');
    DigestsInjective(Sorted(d.Keys), d, Sorted(d'.Keys), d');
    assert d.Keys == d'.Keys;
  }

  /** `sha` has no collision among the inputs `s`. */
  ghost predicate CollisionFree(sha: seq<Byte> -> Digest, s: set<seq<Byte>>) {
    forall x, y :: x in s && y in s && sha(x) == sha(y) ==> x == y
  }

  /** Everything hashed to name a layer. */
  function Hashed(sha: seq<Byte> -> Digest, g: Geometry, parents: seq<Digest>, m: BlockMap): set<seq<Byte>> {
    {PreImage(g, parents, Digests(sha, m))} + m.Values
  }

  /** Layers with one content id are one layer. */
  lemma SameIdSameLayer(sha: seq<Byte> -> Digest, g: Geometry, parents: seq<Digest>, m: BlockMap,
                        g': Geometry, parents': seq<Digest>, m': BlockMap)
    requires Sealable(sha, g, parents, m) && Sealable(sha, g', parents', m')
    requires CollisionFree(sha, Hashed(sha, g, parents, m) + Hashed(sha, g', parents', m'))
    requires ContentId(sha, g, parents, m) == ContentId(sha, g', parents', m')
    ensures g == g' && parents == parents' && m == m'
  {
    hide PreImage, MetaOf, Geometry.Valid;
    var d, d' := Digests(sha, m), Digests(sha, m');
    KeysFit(g, m);
    KeysFit(g', m');
    PreImageInjective(g, parents, d, g', parents', d');
    assert m.Keys == d.Keys == d'.Keys == m'.Keys;
    forall k | k in m
      ensures m[k] == m'[k]
    {
      assert d[k] == sha(m[k]) && d'[k] == sha(m'[k]);
      assert m[k] in m.Values && m'[k] in m'.Values;
    }
  }

  lemma KeysFit(g: Geometry, m: BlockMap)
    requires g.Valid() && forall b :: b in m ==> b < g.BlockCount()
    ensures forall b :: b in m ==> b < U64
  {
    DivMod(g.virtualSize, g.blockSize);
    MulMono(1, g.blockSize, g.BlockCount());
  }

  // ---- the file, byte by byte ------------------------------------------------------------------------

  lemma {:induction false} IdAt(ids: seq<Digest>, i: nat)
    requires i < |ids|
    ensures ConcatIds(ids)[32 * i..32 * i + 32] == ids[i]
  {
    var n := |ids| - 1;
    if i < n {
      IdAt(ids[..n], i);
      assert (ConcatIds(ids[..n]) + ids[n])[32 * i..32 * i + 32] == ConcatIds(ids[..n])[32 * i..32 * i + 32];
    }
  }

  lemma {:induction false} EntryAt(keys: seq<nat>, index: map<nat, nat>, i: nat)
    requires i < |keys| && forall k :: k in keys ==> k in index
    ensures EncodeEntries(keys, index)[16 * i..16 * i + 8] == LE(8, keys[i])
    ensures EncodeEntries(keys, index)[16 * i + 8..16 * i + 16] == LE(8, index[keys[i]])
  {
    hide LE;
    var n := |keys| - 1;
    var init, last := EncodeEntries(keys[..n], index), LE(8, keys[n]) + LE(8, index[keys[n]]);
    if i < n {
      EntryAt(keys[..n], index, i);
      assert (init + last)[16 * i..16 * i + 8] == init[16 * i..16 * i + 8];
      assert (init + last)[16 * i + 8..16 * i + 16] == init[16 * i + 8..16 * i + 16];
    }
  }

  lemma {:induction false} DigestAt(keys: seq<nat>, d: map<nat, Digest>, i: nat)
    requires i < |keys| && forall k :: k in keys ==> k in d
    ensures EncodeDigests(keys, d)[40 * i..40 * i + 8] == LE(8, keys[i])
    ensures EncodeDigests(keys, d)[40 * i + 8..40 * i + 40] == d[keys[i]]
  {
    hide LE;
    var n := |keys| - 1;
    var init, last := EncodeDigests(keys[..n], d), LE(8, keys[n]) + d[keys[n]];
    if i < n {
      DigestAt(keys[..n], d, i);
      assert (init + last)[40 * i..40 * i + 8] == init[40 * i..40 * i + 8];
      assert (init + last)[40 * i + 8..40 * i + 40] == init[40 * i + 8..40 * i + 40];
    }
  }

  /** The metadata blob, field by field, then parent by parent and entry by entry in ascending order of blocks. */
  lemma MetaLayout(g: Geometry, id: Digest, parents: seq<Digest>, index: map<nat, nat>, i: nat)
    ensures var bytes, keys, p := EncodeMeta(g, id, parents, index), Sorted(index.Keys), 47 + 32 * |parents|;
            && |bytes| == p + 8 + 16 * |keys| && |keys| == |index|
            && bytes[0..4] == LE(4, g.blockSize) && bytes[4..12] == LE(8, g.virtualSize) && bytes[12..13] == [1]
            && bytes[13..45] == id && bytes[45..47] == LE(2, |parents|) && bytes[p..p + 8] == LE(8, |index|)
            && (i < |parents| ==> bytes[47 + 32 * i..47 + 32 * i + 32] == parents[i])
            && (i < |keys| ==>
                  && bytes[p + 8 + 16 * i..p + 8 + 16 * i + 8] == LE(8, keys[i])
                  && bytes[p + 8 + 16 * i + 8..p + 8 + 16 * i + 16] == LE(8, index[keys[i]]))
  {
    hide LE, ConcatIds, EncodeEntries, EncodeMeta, Sorted;
    var bytes, keys, p := EncodeMeta(g, id, parents, index), Sorted(index.Keys), 47 + 32 * |parents|;
    MetaSlices(g, id, parents, index, bytes);
    if i < |parents| {
      IdAt(parents, i);
      SliceOfSlice(bytes, 47, 32 * |parents|, 32 * i, 32);
    }
    if i < |keys| {
      EntryAt(keys, index, i);
      SliceOfSlice(bytes, p + 8, 16 * |keys|, 16 * i, 8);
      SliceOfSlice(bytes, p + 8, 16 * |keys|, 16 * i + 8, 8);
    }
  }

  /** The parts of the file: the payloads, the metadata, and the footer with the metadata's length and CRC,
      version 2, two zero bytes and the magic "PNBDLYR" with a 2. */
  lemma FileLayout(sha: seq<Byte> -> Digest, g: Geometry, parents: seq<Digest>, m: BlockMap, file: seq<Byte>, at: nat, end: nat)
    requires Sized(m, g.blockSize) && file == SealFile(sha, g, parents, m)
    requires at == |m| * g.blockSize && end == |file| - 24
    ensures at <= end
    ensures file[at..end] == EncodeMeta(g, ContentId(sha, g, parents, m), parents, PackedIndex(Sorted(m.Keys), g.blockSize))
    ensures file[end..end + 8] == LE(8, end - at) && file[end + 8..end + 12] == LE(4, Crc.CrcOf(file[at..end]) as nat)
    ensures file[end + 12..end + 16] == [2, 0, 0, 0] && file[end + 16..] == [0x50, 0x4E, 0x42, 0x44, 0x4C, 0x59, 0x52, 2]
  {
    hide PackedIndex, Packed, Sorted, EncodeMeta, EncodeFooter, Crc.CrcOf, LE, ContentId;
    var keys := Sorted(m.Keys);
    var packed, meta := Packed(keys, m), MetaOf(sha, g, parents, m);
    var footer := EncodeFooter(|meta|, Crc.CrcOf(meta));
    PackedLen(keys, m, g.blockSize);
    KeyCount(m);
    assert file[at..end] == meta && file[end..end + 24] == footer;
    FooterLayout(|meta|, Crc.CrcOf(meta), footer);
    SliceOfSlice(file, end, 24, 0, 8);
    SliceOfSlice(file, end, 24, 8, 4);
    SliceOfSlice(file, end, 24, 12, 4);
    SliceOfSlice(file, end, 24, 16, 8);
    assert file[end + 16..] == file[end + 16..end + 24];
  }

  lemma KeyCount(m: BlockMap)
    ensures |Sorted(m.Keys)| == |m|
  {
    assert |m.Keys| == |m|;
  }

  /** The i-th block in ascending order has the i-th payload, and its index entry points there. */
  lemma PayloadLayout(sha: seq<Byte> -> Digest, g: Geometry, parents: seq<Digest>, m: BlockMap, i: nat, file: seq<Byte>, at: nat)
    requires Sized(m, g.blockSize) && i < |Sorted(m.Keys)|
    requires file == SealFile(sha, g, parents, m) && at == i * g.blockSize
    ensures at + g.blockSize <= |file|
    ensures file[at..at + g.blockSize] == m[Sorted(m.Keys)[i]]
    ensures PackedIndex(Sorted(m.Keys), g.blockSize)[Sorted(m.Keys)[i]] == at
  {
    hide PackedIndex, Packed, Sorted, MetaOf, EncodeFooter, Crc.CrcOf;
    var keys, bs := Sorted(m.Keys), g.blockSize;
    var packed := Packed(keys, m);
    PackedAt(keys, m, bs, i);
    PackedIndexAt(keys, bs, i);
    assert file[0..|packed|] == packed;
    SliceOfSlice(file, 0, |packed|, at, bs);
  }

  lemma FooterLayout(metaLen: nat, crc: bv32, footer: seq<Byte>)
    requires footer == EncodeFooter(metaLen, crc)
    ensures footer[0..8] == LE(8, metaLen) && footer[8..12] == LE(4, crc as nat)
    ensures footer[12..16] == [2, 0, 0, 0] && footer[16..24] == [0x50, 0x4E, 0x42, 0x44, 0x4C, 0x59, 0x52, 2]
  {
    assert LE(2, FORMAT_VERSION) == [2, 0] && LE(2, 0) == [0, 0] by { SmallLE(2); SmallLE(0); }
    hide LE;
    assert footer[12..16] == LE(2, FORMAT_VERSION) + LE(2, 0);
  }

  lemma SmallLE(b: Byte)
    ensures LE(2, b) == [b, 0]
  {
    assert LE(2, b) == [b] + LE(1, 0) && LE(1, 0) == [0] + LE(0, 0);
  }

  /** The hashed pre-image, field by field: the domain "petri-nbd-layer-v1" with its zero byte, the geometry, the
      parents, and each block in ascending order with its digest. */
  lemma PreImageLayout(g: Geometry, parents: seq<Digest>, d: map<nat, Digest>, i: nat)
    ensures var bytes, keys, p := PreImage(g, parents, d), Sorted(d.Keys), 33 + 32 * |parents|;
            && |bytes| == p + 40 * |keys|
            && bytes[..19] == [0x70, 0x65, 0x74, 0x72, 0x69, 0x2D, 0x6E, 0x62, 0x64, 0x2D, 0x6C, 0x61, 0x79, 0x65, 0x72, 0x2D, 0x76, 0x31, 0]
            && bytes[19..23] == LE(4, g.blockSize) && bytes[23..31] == LE(8, g.virtualSize) && bytes[31..33] == LE(2, |parents|)
            && (i < |parents| ==> bytes[33 + 32 * i..33 + 32 * i + 32] == parents[i])
            && (i < |keys| ==>
                  && bytes[p + 40 * i..p + 40 * i + 8] == LE(8, keys[i])
                  && bytes[p + 40 * i + 8..p + 40 * i + 40] == d[keys[i]])
  {
    PreImageDomain(g, parents, d);
    hide LE, ConcatIds, EncodeDigests, Sorted, PreImage;
    var bytes, keys, p := PreImage(g, parents, d), Sorted(d.Keys), 33 + 32 * |parents|;
    PreImageSlices(g, parents, d, bytes);
    assert bytes[p..p + 40 * |keys|] == bytes[p..];
    if i < |parents| {
      IdAt(parents, i);
      SliceOfSlice(bytes, 33, 32 * |parents|, 32 * i, 32);
    }
    if i < |keys| {
      DigestAt(keys, d, i);
      SliceOfSlice(bytes, p, 40 * |keys|, 40 * i, 8);
      SliceOfSlice(bytes, p, 40 * |keys|, 40 * i + 8, 32);
    }
  }

  lemma PreImageDomain(g: Geometry, parents: seq<Digest>, d: map<nat, Digest>)
    ensures |PreImage(g, parents, d)| == 33 + 32 * |parents| + 40 * |Sorted(d.Keys)|
    ensures PreImage(g, parents, d)[..19] == DOMAIN
  {
    hide LE, ConcatIds, EncodeDigests, Sorted;
    assert PreHead(g, parents)[..19] == DOMAIN;
  }

  /** A content id is the hash of the pre-image, in which each block stands with the hash of its payload. */
  lemma IdMeans(sha: seq<Byte> -> Digest, g: Geometry, parents: seq<Digest>, m: BlockMap)
    ensures exists d: map<nat, Digest> ::
              && d.Keys == m.Keys && (forall b :: b in m ==> d[b] == sha(m[b]))
              && ContentId(sha, g, parents, m) == sha(PreImage(g, parents, d))
  {
    var d := Digests(sha, m);
    assert d.Keys == m.Keys;
  }
}
