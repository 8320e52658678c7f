/** The sealed layer file (layer.rs): `[ packed payloads | metadata | 24-byte footer ]`.

    `SealFile` is the file as a function of what the layer means; `Seal` computes it from an
    append log. `OpenSpec` is what reopening any byte string yields; `OpenSealed` computes it.
    SHA-256 is a parameter `sha`.
 */
module Sealed {
  import opened Bytes
  import opened Blocks
  import opened Layers
  import opened Stack
  import Crc

  datatype LayerError =
    | TooManyParents | TooShort | BadMagic | BadVersion | LengthOverflow
    | ChecksumMismatch | UnsupportedHash | Truncated | BadGeometry | IoFailure

  datatype Result<+T> = Success(value: T) | Failure(error: LayerError) {
    predicate IsFailure() { Failure? }
    function PropagateFailure<U>(): Result<U>
      requires Failure?
    {
      Failure(error)
    }
    function Extract(): T
      requires Success?
    {
      value
    }
  }

  const MAGIC: seq<Byte> := [0x50, 0x4E, 0x42, 0x44, 0x4C, 0x59, 0x52, 2]
  /** "petri-nbd-layer-v1\0" */
  const DOMAIN: seq<Byte> :=
    [0x70, 0x65, 0x74, 0x72, 0x69, 0x2D, 0x6E, 0x62, 0x64, 0x2D, 0x6C, 0x61, 0x79, 0x65, 0x72, 0x2D, 0x76, 0x31, 0]
  const HASH_SHA256: Byte := 1
  const FORMAT_VERSION: nat := 2
  const FOOTER_SIZE: nat := 24

  // ---- ascending keys -------------------------------------------------------------------------

  predicate Ascending(keys: seq<nat>) {
    forall i, j :: 0 <= i < j < |keys| ==> keys[i] < keys[j]
  }

  predicate IsLeast(s: set<nat>, x: nat) {
    x in s && forall y :: y in s ==> x <= y
  }

  lemma {:induction false} LeastExists(s: set<nat>)
    requires s != {}
    ensures exists x :: IsLeast(s, x)
  {
    var y :| y in s;
    var t := s - {y};
    assert s == t + {y};
    if t == {} {
      assert IsLeast(s, y);
    } else {
      LeastExists(t);
      var z :| IsLeast(t, z);
      assert IsLeast(s, if y <= z then y else z);
    }
  }

  function Least(s: set<nat>): (x: nat)
    requires s != {}
    ensures IsLeast(s, x)
  {
    LeastExists(s);
    var x :| IsLeast(s, x);
    x
  }

  /** The elements of `s` in ascending order, as a B-tree map iterates its keys. */
  function Sorted(s: set<nat>): (keys: seq<nat>)
    ensures Ascending(keys)
    ensures forall k :: k in keys <==> k in s
    ensures |keys| == |s|
    decreases |s|
  {
    if s == {} then [] else
      var x := Least(s);
      var rest := Sorted(s - {x});
      assert forall k :: k in [x] + rest <==> k == x || k in rest;
      [x] + rest
  }

  lemma {:induction false} AscendingGrows(keys: seq<nat>, i: nat)
    requires Ascending(keys) && i < |keys|
    ensures i <= keys[i]
  {
    if i > 0 { AscendingGrows(keys, i - 1); }
  }

  // ---- the file -------------------------------------------------------------------------------

  /** Payloads in key order. */
  function Packed(keys: seq<nat>, m: BlockMap): (r: seq<Byte>)
    requires forall k :: k in keys ==> k in m
  {
    if keys == [] then [] else Packed(keys[..|keys| - 1], m) + m[keys[|keys| - 1]]
  }

  /** Each key at its place in the packed region. */
  function PackedIndex(keys: seq<nat>, bs: nat): (index: map<nat, nat>)
    ensures forall k :: k in index <==> k in keys
  {
    if keys == [] then map[] else
      PackedIndex(keys[..|keys| - 1], bs)[keys[|keys| - 1] := (|keys| - 1) * bs]
  }

  function ConcatIds(ids: seq<Digest>): (r: seq<Byte>)
    ensures |r| == 32 * |ids|
  {
    if ids == [] then [] else ConcatIds(ids[..|ids| - 1]) + ids[|ids| - 1]
  }

  function EncodeEntries(keys: seq<nat>, index: map<nat, nat>): (r: seq<Byte>)
    requires forall k :: k in keys ==> k in index
    ensures |r| == 16 * |keys|
  {
    if keys == [] then [] else
      var k := keys[|keys| - 1];
      EncodeEntries(keys[..|keys| - 1], index) + (LE(8, k) + LE(8, index[k]))
  }

  function EncodeMeta(g: Geometry, id: Digest, parents: seq<Digest>, index: map<nat, nat>): seq<Byte> {
    MetaHead(g, id, parents) + LE(8, |index|) + EncodeEntries(Sorted(index.Keys), index)
  }

  function MetaHead(g: Geometry, id: Digest, parents: seq<Digest>): (r: seq<Byte>)
    ensures |r| == 47 + 32 * |parents|
  {
    LE(4, g.blockSize) + LE(8, g.virtualSize) + [HASH_SHA256] + id + LE(2, |parents|) + ConcatIds(parents)
  }

  function EncodeFooter(metaLen: nat, crc: bv32): (r: seq<Byte>)
    ensures |r| == FOOTER_SIZE
  {
    LE(8, metaLen) + LE(4, crc as nat) + LE(2, FORMAT_VERSION) + LE(2, 0) + MAGIC
  }

  function EncodeDigests(keys: seq<nat>, d: map<nat, Digest>): (r: seq<Byte>)
    requires forall k :: k in keys ==> k in d
    ensures |r| == 40 * |keys|
  {
    if keys == [] then [] else
      var k := keys[|keys| - 1];
      EncodeDigests(keys[..|keys| - 1], d) + (LE(8, k) + d[k])
  }

  function PreHead(g: Geometry, parents: seq<Digest>): (r: seq<Byte>)
    ensures |r| == 33 + 32 * |parents|
  {
    DOMAIN + LE(4, g.blockSize) + LE(8, g.virtualSize) + LE(2, |parents|) + ConcatIds(parents)
  }

  /** The hashed pre-image of a content id: geometry, parents, and each block with its digest. */
  function PreImage(g: Geometry, parents: seq<Digest>, d: map<nat, Digest>): seq<Byte> {
    PreHead(g, parents) + EncodeDigests(Sorted(d.Keys), d)
  }

  function Digests(sha: seq<Byte> -> Digest, m: BlockMap): (d: map<nat, Digest>)
    ensures d.Keys == m.Keys
  {
    map k | k in m :: sha(m[k])
  }

  function ContentId(sha: seq<Byte> -> Digest, g: Geometry, parents: seq<Digest>, m: BlockMap): Digest {
    sha(PreImage(g, parents, Digests(sha, m)))
  }

  /** A layer's metadata blob. */
  function MetaOf(sha: seq<Byte> -> Digest, g: Geometry, parents: seq<Digest>, m: BlockMap): seq<Byte> {
    EncodeMeta(g, ContentId(sha, g, parents, m), parents, PackedIndex(Sorted(m.Keys), g.blockSize))
  }

  /** The sealed file of a layer with blocks `m` over `parents`. It depends on nothing else: not on
      the order or number of the writes and trims that produced `m`. */
  function SealFile(sha: seq<Byte> -> Digest, g: Geometry, parents: seq<Digest>, m: BlockMap): seq<Byte> {
    var meta := MetaOf(sha, g, parents, m);
    Packed(Sorted(m.Keys), m) + meta + EncodeFooter(|meta|, Crc.CrcOf(meta))
  }

  function SealedLayer(sha: seq<Byte> -> Digest, g: Geometry, parents: seq<Digest>, m: BlockMap): ImmutableLayer {
    ImmutableLayer.Sealed(g, SealFile(sha, g, parents, m), PackedIndex(Sorted(m.Keys), g.blockSize),
           ContentId(sha, g, parents, m), parents)
  }

  // ---- sealing an append log --------------------------------------------------------------------

  lemma MulSucc(n: nat, bs: nat)
    ensures (n + 1) * bs == n * bs + bs
  {
  }

  lemma {:induction false} PackedLen(keys: seq<nat>, m: BlockMap, bs: nat)
    requires Sized(m, bs) && forall k :: k in keys ==> k in m
    ensures |Packed(keys, m)| == |keys| * bs
  {
    if keys != [] {
      var init, last := keys[..|keys| - 1], keys[|keys| - 1];
      PackedLen(init, m, bs);
      assert last in keys;
      MulSucc(|init|, bs);
    }
  }

  // One block more.
  lemma PackedSnoc(keys: seq<nat>, i: nat, m: BlockMap, bs: nat)
    requires i < |keys| && Sized(m, bs) && forall k :: k in keys ==> k in m
    ensures Packed(keys[..i + 1], m) == Packed(keys[..i], m) + m[keys[i]]
    ensures PackedIndex(keys[..i + 1], bs) == PackedIndex(keys[..i], bs)[keys[i] := |Packed(keys[..i], m)|]
  {
    assert keys[..i + 1][..i] == keys[..i];
    PackedLen(keys[..i], m, bs);
  }

  lemma DigestsSnoc(keys: seq<nat>, i: nat, d: map<nat, Digest>)
    requires i < |keys| && forall k :: k in keys ==> k in d
    ensures EncodeDigests(keys[..i + 1], d) == EncodeDigests(keys[..i], d) + (LE(8, keys[i]) + d[keys[i]])
  {
    assert keys[..i + 1][..i] == keys[..i];
  }

  lemma EntriesSnoc(keys: seq<nat>, i: nat, index: map<nat, nat>)
    requires i < |keys| && forall k :: k in keys ==> k in index
    ensures EncodeEntries(keys[..i + 1], index) == EncodeEntries(keys[..i], index) + (LE(8, keys[i]) + LE(8, index[keys[i]]))
  {
    assert keys[..i + 1][..i] == keys[..i];
  }

  lemma IdsSnoc(ids: seq<Digest>, i: nat)
    requires i < |ids|
    ensures ConcatIds(ids[..i + 1]) == ConcatIds(ids[..i]) + ids[i]
  {
    assert ids[..i + 1][..i] == ids[..i];
  }

  method WriteIds(ids: seq<Digest>) returns (r: seq<Byte>)
    ensures r == ConcatIds(ids)
  {
    r := [];
    for i := 0 to |ids|
      invariant r == ConcatIds(ids[..i])
    {
      IdsSnoc(ids, i);
      r := r + ids[i];
    }
    assert ids[..|ids|] == ids;
  }

  method WriteMeta(g: Geometry, id: Digest, parents: seq<Digest>, index: map<nat, nat>) returns (m: seq<Byte>)
    ensures m == EncodeMeta(g, id, parents, index)
  {
    hide Sorted, LE, EncodeEntries, ConcatIds;
    m := LE(4, g.blockSize) + LE(8, g.virtualSize) + [HASH_SHA256] + id + LE(2, |parents|);
    var ids := WriteIds(parents);
    m := m + ids + LE(8, |index|);
    var keys := Sorted(index.Keys);
    ghost var head := m;
    assert EncodeEntries(keys[..0], index) == [];
    for i := 0 to |keys|
      invariant m == head + EncodeEntries(keys[..i], index)
    {
      EntriesSnoc(keys, i, index);
      m := m + (LE(8, keys[i]) + LE(8, index[keys[i]]));
    }
    assert keys[..|keys|] == keys;
  }

  // One live block of the scratch, wherever its index entry points.
  method ReadLive(scratch: ScratchLayer, block: nat) returns (ok: bool, buf: seq<Byte>)
    requires block in scratch.index
    ensures ok ==> buf == scratch.Readout()[block] && scratch.index[block] + scratch.geometry.blockSize <= |scratch.data|
    ensures scratch.media != MayFail && scratch.Whole() ==> ok
  {
    var fault := Faults(scratch.media);
    if fault || scratch.index[block] + scratch.geometry.blockSize > |scratch.data| { return false, []; }
    ok, buf := true, ReadPadded(scratch.data, scratch.index[block], scratch.geometry.blockSize);
  }

  /** Payloads, index and hash pre-image of the blocks `keys`. */
  predicate Compacted(sha: seq<Byte> -> Digest, m: BlockMap, bs: nat, head: seq<Byte>, keys: seq<nat>,
                      out: seq<Byte>, index: map<nat, nat>, content: seq<Byte>)
  {
    && (forall k :: k in keys ==> k in m)
    && out == Packed(keys, m) && index == PackedIndex(keys, bs) && content == head + EncodeDigests(keys, Digests(sha, m))
  }

  lemma CompactedMore(sha: seq<Byte> -> Digest, m: BlockMap, bs: nat, head: seq<Byte>, keys: seq<nat>, i: nat,
                      out: seq<Byte>, index: map<nat, nat>, content: seq<Byte>)
    requires i < |keys| && Sized(m, bs) && keys[i] in m && (forall k :: k in keys ==> k in m)
    requires Compacted(sha, m, bs, head, keys[..i], out, index, content)
    ensures Compacted(sha, m, bs, head, keys[..i + 1], out + m[keys[i]], index[keys[i] := |out|], content + (LE(8, keys[i]) + sha(m[keys[i]])))
  {
    hide Packed, PackedIndex, EncodeDigests, LE;
    PackedSnoc(keys, i, m, bs);
    DigestsSnoc(keys, i, Digests(sha, m));
  }

  // The compaction loop: payloads out, index and hash pre-image along.
  method Compact(scratch: ScratchLayer, sha: seq<Byte> -> Digest, head: seq<Byte>, dest: Media)
    returns (ok: bool, out: seq<Byte>, index: map<nat, nat>, content: seq<Byte>)
    requires scratch.Loose()
    ensures ok ==> Compacted(sha, scratch.Readout(), scratch.geometry.blockSize, head, Sorted(scratch.Readout().Keys), out, index, content)
    ensures !scratch.Whole() ==> !ok
    ensures scratch.media != MayFail && dest == Reliable && scratch.Whole() ==> ok
  {
    hide Compacted, Below, Settled, Sorted, LE, Geometry.Valid, ScratchLayer.Readout, ScratchLayer.Whole;
    hide ScratchLayer.Loose, Sized;
    var bs := scratch.geometry.blockSize;
    ghost var m := scratch.Readout();
    var keys := Sorted(scratch.index.Keys);
    ok, out, index, content := true, [], map[], head;
    NothingPacked(sha, m, bs, head);
    for i := 0 to |keys|
      invariant Compacted(sha, m, bs, head, keys[..i], out, index, content)
      invariant forall k :: 0 <= k < i ==> scratch.index[keys[k]] + bs <= |scratch.data|
    {
      CompactedMore(sha, m, bs, head, keys, i, out, index, content);
      var read, buf := ReadLive(scratch, keys[i]);
      var unwritten := WriteFaults(dest);
      if !read || unwritten { return false, [], map[], []; }
      index := index[keys[i] := |out|];
      out := out + buf;
      content := content + (LE(8, keys[i]) + sha(buf));
    }
    assert keys[..|keys|] == keys;
    AllRead(scratch, keys);
  }

  lemma AllRead(scratch: ScratchLayer, keys: seq<nat>)
    requires forall b :: b in scratch.index ==> b in keys
    requires forall k :: 0 <= k < |keys| ==> keys[k] in scratch.index && scratch.index[keys[k]] + scratch.geometry.blockSize <= |scratch.data|
    ensures scratch.Whole()
  {
  }

  lemma NothingPacked(sha: seq<Byte> -> Digest, m: BlockMap, bs: nat, head: seq<Byte>)
    ensures Compacted(sha, m, bs, head, [], [], map[], head)
  {
  }

  /** Compact the live blocks in key order, hash them, and append the metadata and the footer to a file
      on `dest`. A block that was stored as nothing is read from the append cursor. */
  method Seal(scratch: ScratchLayer, sha: seq<Byte> -> Digest, parents: seq<Digest>, dest: Media)
    returns (r: Result<ImmutableLayer>)
    requires scratch.Loose()
    ensures r == Failure(TooManyParents) <==> |parents| >= U16
    ensures r.Failure? ==> r.error == TooManyParents || r.error == IoFailure
    ensures scratch.media != MayFail && dest == Reliable && scratch.Whole() ==> r != Failure(IoFailure)
    ensures dest == Full || !scratch.Whole() ==> r.Failure?
    ensures r.Success? ==> r.value == SealedLayer(sha, scratch.geometry, parents, scratch.Readout())
  {
    hide Below, Sorted, Packed, PackedIndex, EncodeDigests, LE, Geometry.Valid, EncodeMeta, Crc.CrcOf;
    if |parents| >= U16 { return Failure(TooManyParents); }
    var g := scratch.geometry;
    var ok, out, index, content := Compact(scratch, sha, PreHead(g, parents), dest);
    if !ok { return Failure(IoFailure); }
    var id := sha(content);
    var meta := WriteMeta(g, id, parents, index);
    var crc := Crc.Crc32(meta);
    var unwritten := WriteFaults(dest);
    if unwritten { return Failure(IoFailure); }
    r := Success(ImmutableLayer.Sealed(g, out + meta + EncodeFooter(|meta|, crc), index, id, parents));
  }

  // ---- reopening -------------------------------------------------------------------------------

  datatype Meta = Meta(blockSize: nat, virtualSize: nat, contentId: Digest, parents: seq<Digest>, index: map<nat, nat>)

  /** The `n` bytes at `pos`, if the blob is that long. */
  function Take(bytes: seq<Byte>, pos: nat, n: nat): (r: Result<seq<Byte>>)
    ensures r.Success? ==> |r.value| == n
  {
    if pos + n <= |bytes| then Success(bytes[pos..pos + n]) else Failure(Truncated)
  }

  function TakeLE(bytes: seq<Byte>, pos: nat, n: nat): (r: Result<nat>)
    ensures r.Success? ==> pos + n <= |bytes| && r.value < Pow256(n)
  {
    var s :- Take(bytes, pos, n);
    FromLEBound(s);
    Success(FromLE(s))
  }

  function DecodeIds(bytes: seq<Byte>, pos: nat, count: nat): (r: Result<seq<Digest>>)
    ensures r.Success? ==> |r.value| == count && pos + 32 * count <= |bytes|
    decreases count
  {
    if count == 0 then (if pos <= |bytes| then Success([]) else Failure(Truncated)) else
      var init :- DecodeIds(bytes, pos, count - 1);
      var id :- Take(bytes, pos + 32 * (count - 1), 32);
      Success(init + [id])
  }

  function DecodeEntries(bytes: seq<Byte>, pos: nat, count: nat): (r: Result<map<nat, nat>>)
    ensures r.Success? ==> pos + 16 * count <= |bytes|
    decreases count
  {
    if count == 0 then (if pos <= |bytes| then Success(map[]) else Failure(Truncated)) else
      var init :- DecodeEntries(bytes, pos, count - 1);
      var block :- TakeLE(bytes, pos + 16 * (count - 1), 8);
      var offset :- TakeLE(bytes, pos + 16 * (count - 1) + 8, 8);
      Success(init[block := offset])
  }

  /** What decoding any byte string as a metadata blob yields. */
  function DecodeMeta(bytes: seq<Byte>): (r: Result<Meta>)
    ensures r.Success? ==> r.value.blockSize < U32 && r.value.virtualSize < U64
  {
    Widths();
    var blockSize :- TakeLE(bytes, 0, 4);
    var virtualSize :- TakeLE(bytes, 4, 8);
    var algo :- TakeLE(bytes, 12, 1);
    if algo != HASH_SHA256 then Failure(UnsupportedHash) else
    var id :- Take(bytes, 13, 32);
    var parentCount :- TakeLE(bytes, 45, 2);
    var parents :- DecodeIds(bytes, 47, parentCount);
    var indexCount :- TakeLE(bytes, 47 + 32 * parentCount, 8);
    var index :- DecodeEntries(bytes, 55 + 32 * parentCount, indexCount);
    Success(Meta(blockSize, virtualSize, id, parents, index))
  }

  /** What reopening any byte string as a sealed layer yields. */
  function OpenSpec(file: seq<Byte>): (r: Result<ImmutableLayer>)
    ensures r.Success? ==> r.value.Sealed? && r.value.file == file && r.value.geometry.Valid()
  {
    if |file| < FOOTER_SIZE then Failure(TooShort) else
    var end := |file| - FOOTER_SIZE;
    var footer := file[end..];
    if footer[16..24] != MAGIC then Failure(BadMagic)
    else if FromLE(footer[12..14]) != FORMAT_VERSION then Failure(BadVersion)
    else if FromLE(footer[0..8]) > end then Failure(LengthOverflow)
    else
      var bytes := file[end - FromLE(footer[0..8])..end];
      if Crc.CrcOf(bytes) as nat != FromLE(footer[8..12]) then Failure(ChecksumMismatch) else
      var meta :- DecodeMeta(bytes);
      match NewGeometry(meta.virtualSize, meta.blockSize)
      case None => Failure(BadGeometry)
      case Some(g) => Success(ImmutableLayer.Sealed(g, file, meta.index, meta.contentId, meta.parents))
  }

  /** Bounds-checked cursor over the metadata blob. */
  class MetaReader {
    const bytes: seq<Byte>
    var pos: nat

    constructor (bytes: seq<Byte>)
      ensures this.bytes == bytes && pos == 0
    {
      this.bytes := bytes;
      pos := 0;
    }

    method Next(n: nat) returns (r: Result<seq<Byte>>)
      modifies this
      ensures r == Take(bytes, old(pos), n)
      ensures pos == old(pos) + if r.Success? then n else 0
    {
      if pos + n <= |bytes| {
        r := Success(bytes[pos..pos + n]);
        pos := pos + n;
      } else {
        r := Failure(Truncated);
      }
    }

    method NextLE(n: nat) returns (r: Result<nat>)
      modifies this
      ensures r == TakeLE(bytes, old(pos), n)
      ensures pos == old(pos) + if r.Success? then n else 0
    {
      var s :- Next(n);
      FromLEBound(s);
      r := Success(FromLE(s));
    }
  }

  // A count that overruns the blob fails as soon as the blob ends, whatever the count claims.
  lemma {:induction false} IdsFail(bytes: seq<Byte>, pos: nat, i: nat, count: nat)
    requires i <= count && DecodeIds(bytes, pos, i).Failure?
    ensures DecodeIds(bytes, pos, count) == DecodeIds(bytes, pos, i)
  {
    if i < count { IdsFail(bytes, pos, i, count - 1); }
  }

  lemma {:induction false} EntriesFail(bytes: seq<Byte>, pos: nat, i: nat, count: nat)
    requires i <= count && DecodeEntries(bytes, pos, i).Failure?
    ensures DecodeEntries(bytes, pos, count) == DecodeEntries(bytes, pos, i)
  {
    if i < count { EntriesFail(bytes, pos, i, count - 1); }
  }

  method ReadIds(reader: MetaReader, count: nat) returns (r: Result<seq<Digest>>, ghost steps: nat)
    requires reader.pos <= |reader.bytes|
    modifies reader
    ensures r == DecodeIds(reader.bytes, old(reader.pos), count)
    ensures r.Success? ==> reader.pos == old(reader.pos) + 32 * count
    ensures 32 * steps <= |reader.bytes|
  {
    ghost var at := reader.pos;
    var ids: seq<Digest> := [];
    steps := 0;
    for i := 0 to count
      invariant DecodeIds(reader.bytes, at, i) == Success(ids)
      invariant reader.pos == at + 32 * i && steps == i
    {
      var id := reader.Next(32);
      if id.Failure? {
        IdsFail(reader.bytes, at, i + 1, count);
        return Failure(Truncated), steps;
      }
      ids := ids + [id.value];
      steps := steps + 1;
    }
    r := Success(ids);
  }

  method ReadEntries(reader: MetaReader, count: nat) returns (r: Result<map<nat, nat>>, ghost steps: nat)
    requires reader.pos <= |reader.bytes|
    modifies reader
    ensures r == DecodeEntries(reader.bytes, old(reader.pos), count)
    ensures 16 * steps <= |reader.bytes|
  {
    ghost var at := reader.pos;
    var index: map<nat, nat> := map[];
    steps := 0;
    for i := 0 to count
      invariant DecodeEntries(reader.bytes, at, i) == Success(index)
      invariant reader.pos == at + 16 * i && steps == i
    {
      var block := reader.NextLE(8);
      if block.Failure? {
        EntriesFail(reader.bytes, at, i + 1, count);
        return Failure(Truncated), steps;
      }
      var offset := reader.NextLE(8);
      if offset.Failure? {
        EntriesFail(reader.bytes, at, i + 1, count);
        return Failure(Truncated), steps;
      }
      index := index[block.value := offset.value];
      steps := steps + 1;
    }
    r := Success(index);
  }

  /** Decode a metadata blob. Total on arbitrary bytes; the loops take `steps` rounds in all,
      bounded by the blob's length. */
  method ReadMeta(bytes: seq<Byte>) returns (r: Result<Meta>, ghost steps: nat)
    ensures r == DecodeMeta(bytes)
    ensures 8 * steps <= |bytes|
  {
    hide DecodeIds, DecodeEntries;
    steps := 0;
    var reader := new MetaReader(bytes);
    var blockSize := reader.NextLE(4);
    if blockSize.Failure? { return blockSize.PropagateFailure(), 0; }
    var virtualSize := reader.NextLE(8);
    if virtualSize.Failure? { return virtualSize.PropagateFailure(), 0; }
    var algo := reader.NextLE(1);
    if algo.Failure? { return algo.PropagateFailure(), 0; }
    if algo.value != HASH_SHA256 { return Failure(UnsupportedHash), 0; }
    var id := reader.Next(32);
    if id.Failure? { return id.PropagateFailure(), 0; }
    var parentCount := reader.NextLE(2);
    if parentCount.Failure? { return parentCount.PropagateFailure(), 0; }
    var parents, n := ReadIds(reader, parentCount.value);
    steps := n;
    if parents.Failure? { return parents.PropagateFailure(), steps; }
    var indexCount := reader.NextLE(8);
    if indexCount.Failure? { return indexCount.PropagateFailure(), steps; }
    var index, k := ReadEntries(reader, indexCount.value);
    steps := n + k;
    if index.Failure? { return index.PropagateFailure(), steps; }
    r := Success(Meta(blockSize.value, virtualSize.value, id.value, parents.value, index.value));
  }
}
