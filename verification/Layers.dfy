/** Immutable lower layers and the writable append-log scratch overlay (layer.rs).

    A file is a byte sequence. On a `Full` medium every write fails and nothing else does; on a
    `MayFail` one anything may. A failed write leaves any prefix of its payload behind (a torn write).
 */
module Layers {
  import opened Bytes
  import opened Blocks

  datatype Media = Reliable | Full | MayFail

  /** A SHA-256 digest: a layer's content id. */
  type Digest = d: seq<Byte> | |d| == 32 witness seq(32, _ => 0)

  /** Whether the next read or sync of the backing file fails. */
  method Faults(media: Media) returns (fault: bool)
    ensures media != MayFail ==> !fault
  {
    fault := false;
    if media == MayFail { fault := *; }
  }

  /** Whether the next write to the backing file fails. */
  method WriteFaults(media: Media) returns (fault: bool)
    ensures media == Reliable ==> !fault
    ensures media == Full ==> fault
  {
    fault := media == Full;
    if media == MayFail { fault := *; }
  }

  /** The `n` bytes of `file` at `off`, zero past the end of the file. */
  function ReadPadded(file: seq<Byte>, off: nat, n: nat): (r: seq<Byte>)
    ensures |r| == n
    ensures forall k :: 0 <= k < n ==> r[k] == if off + k < |file| then file[off + k] else 0
  {
    seq(n, k requires 0 <= k => if off + k < |file| then file[off + k] else 0)
  }

  lemma ReadWithin(file: seq<Byte>, off: nat, n: nat)
    requires off + n <= |file|
    ensures ReadPadded(file, off, n) == file[off..off + n]
  {
  }

  lemma ReadAgrees(f: seq<Byte>, f': seq<Byte>, off: nat, n: nat, tail: nat)
    requires off + n <= tail <= |f| && tail <= |f'| && f[..tail] == f'[..tail]
    ensures ReadPadded(f, off, n) == ReadPadded(f', off, n)
  {
    var r, r' := ReadPadded(f, off, n), ReadPadded(f', off, n);
    forall k | 0 <= k < n
      ensures r[k] == r'[k]
    {
      assert f[..tail][off + k] == f'[..tail][off + k];
    }
  }

  /** `file` after writing `buf` at `off`. */
  function WriteOver(file: seq<Byte>, off: nat, buf: seq<Byte>): (r: seq<Byte>)
    requires off <= |file|
    ensures |r| >= off + |buf| && r[..off] == file[..off] && r[off..off + |buf|] == buf
  {
    file[..off] + buf + if off + |buf| < |file| then file[off + |buf|..] else []
  }

  // ---- immutable layers ---------------------------------------------------------------------

  datatype ImmutableLayer =
    | RawBase(geometry: Geometry, file: seq<Byte>, fileBlocks: nat)
    | Sealed(geometry: Geometry, file: seq<Byte>, index: map<nat, nat>, contentId: Digest, parents: seq<Digest>)
  {
    /** The blocks this layer populates. */
    function Blocks(): (m: BlockMap)
      ensures Sized(m, geometry.blockSize)
    {
      match this
      case RawBase(g, file, n) => map b: nat | b < n :: ReadPadded(file, b * g.blockSize, g.blockSize)
      case Sealed(g, file, index, _, _) => map b | b in index :: ReadPadded(file, index[b], g.blockSize)
    }

    /** Read block `block`. `found` is false for a hole; a sealed payload cut off by the end of
        the file is an error. */
    method ReadBlock(media: Media, block: nat) returns (ok: bool, found: bool, out: seq<Byte>)
      ensures ok ==> found == (block in Blocks())
      ensures ok && found ==> out == Blocks()[block]
      ensures media != MayFail ==> ok || (Sealed? && block in index && index[block] + geometry.blockSize > |file|)
    {
      ok, found, out := true, false, [];
      match this
      case RawBase(g, file, fileBlocks) =>
        if block >= fileBlocks { return; }
        var fault := Faults(media);
        if fault { return false, false, []; }
        found, out := true, ReadPadded(file, block * g.blockSize, g.blockSize);
      case Sealed(g, file, index, _, _) =>
        if block !in index { return; }
        var fault := Faults(media);
        if fault || index[block] + g.blockSize > |file| { return false, false, []; }
        found, out := true, ReadPadded(file, index[block], g.blockSize);
    }
  }

  /** A raw disk image as a base layer; a partial trailing block counts as present. */
  function OpenRawBase(file: seq<Byte>, g: Geometry): (layer: ImmutableLayer)
    requires g.Valid()
  {
    RawBase(g, file, (|file| + g.blockSize - 1) / g.blockSize)
  }

  /** A raw base shows its file, zero-extended (or cut) to the virtual size. */
  lemma RawBaseShowsFile(file: seq<Byte>, g: Geometry)
    requires g.Valid()
    ensures Flatten(g, [OpenRawBase(file, g).Blocks()]) == ReadPadded(file, 0, g.virtualSize)
  {
    var bs, layer := g.blockSize, OpenRawBase(file, g);
    var stack := [layer.Blocks()];
    var v := Flatten(g, stack);
    forall i | 0 <= i < g.virtualSize
      ensures v[i] == if i < |file| then file[i] else 0
    {
      RawBaseByte(file, g, i);
    }
  }

  lemma RawBaseByte(file: seq<Byte>, g: Geometry, i: nat)
    requires g.Valid()
    ensures ByteAt([OpenRawBase(file, g).Blocks()], g.blockSize, i) == if i < |file| then file[i] else 0
  {
    var bs, layer := g.blockSize, OpenRawBase(file, g);
    var b := i / bs;
    DivMod(i, bs);
    DivMod(|file| + bs - 1, bs);
    ResolveTop([], layer.Blocks(), b, bs);
    assert [] + [layer.Blocks()] == [layer.Blocks()];
    if b >= layer.fileBlocks { MulMono(layer.fileBlocks, b, bs); }
  }

  // ---- the scratch overlay ---------------------------------------------------------------------

  /** The payloads an index picks out of the data file. */
  function Indexed(index: map<nat, nat>, data: seq<Byte>, bs: nat): (m: BlockMap)
    ensures m.Keys == index.Keys && Sized(m, bs)
  {
    map b | b in index :: ReadPadded(data, index[b], bs)
  }

  /** Indexed payloads lie below the append cursor. */
  predicate Below(index: map<nat, nat>, bs: nat, tail: nat) {
    forall b :: b in index ==> index[b] + bs <= tail
  }

  /** Indexed payload regions lie below the append cursor and do not overlap. */
  predicate Regions(index: map<nat, nat>, bs: nat, tail: nat) {
    && Below(index, bs, tail)
    && (forall b, c :: b in index && c in index && b != c ==>
          index[b] + bs <= index[c] || index[c] + bs <= index[b])
  }

  /** The part of the index that has payloads. */
  function Settled(index: map<nat, nat>, tail: nat): (m: map<nat, nat>) {
    map b | b in index && index[b] != tail :: index[b]
  }

  /** The blocks that were stored as nothing: they point at the append cursor. */
  function Hanging(index: map<nat, nat>, tail: nat): (s: set<nat>) {
    set b | b in index && index[b] == tail
  }

  /** A write torn at any byte at or past the append cursor changes no indexed payload. */
  lemma TornWriteKeepsPayloads(index: map<nat, nat>, data: seq<Byte>, data': seq<Byte>, bs: nat, tail: nat)
    requires Below(index, bs, tail) && tail <= |data| && tail <= |data'|
    requires data'[..tail] == data[..tail]
    ensures Indexed(index, data', bs) == Indexed(index, data, bs)
  {
    forall b | b in index
      ensures ReadPadded(data, index[b], bs) == ReadPadded(data', index[b], bs)
    {
      ReadAgrees(data, data', index[b], bs, tail);
    }
  }

  // Appending a payload and pointing the index at it stores the block, and every block that was
  // stored as nothing takes on the same payload.
  lemma AppendStores(index: map<nat, nat>, data: seq<Byte>, bs: nat, tail: nat, block: nat, payload: seq<Byte>)
    requires 0 < bs && Below(Settled(index, tail), bs, tail) && tail <= |data| && |payload| == bs
    ensures Indexed(index[block := tail], WriteOver(data, tail, payload), bs) ==
            StoreAll(Indexed(Settled(index, tail), data, bs), Hanging(index, tail) + {block}, payload)
  {
    hide ReadPadded, WriteOver, Below;
    var data', solid, index' := WriteOver(data, tail, payload), Settled(index, tail), index[block := tail];
    TornWriteKeepsPayloads(solid, data, data', bs, tail);
    ReadWithin(data', tail, bs);
    var l, r := Indexed(index', data', bs), StoreAll(Indexed(solid, data, bs), Hanging(index, tail) + {block}, payload);
    forall b | b in l
      ensures b in r && l[b] == r[b]
    {
      if b != block && index[b] != tail { assert b in solid && l[b] == Indexed(solid, data', bs)[b]; }
    }
    assert l.Keys == r.Keys;
  }

  // After an append every payload lies below the cursor.
  lemma AppendSettles(index: map<nat, nat>, bs: nat, tail: nat, block: nat)
    requires 0 < bs && Below(Settled(index, tail), bs, tail)
    ensures var index' := index[block := tail];
            Below(index', bs, tail + bs) && Settled(index', tail + bs) == index' && Hanging(index', tail + bs) == {}
  {
    var index' := index[block := tail];
    forall b | b in index'
      ensures index'[b] + bs <= tail + bs
    {
      if b != block && index[b] != tail { assert b in Settled(index, tail); }
    }
    NothingHangs(index', bs, tail + bs);
  }

  lemma AppendRegions(index: map<nat, nat>, bs: nat, tail: nat, block: nat)
    requires Regions(index, bs, tail)
    ensures Regions(index[block := tail], bs, tail + bs)
  {
  }

  // Where every indexed payload lies below the cursor, nothing hangs.
  lemma NothingHangs(index: map<nat, nat>, bs: nat, tail: nat)
    requires 0 < bs && Below(index, bs, tail)
    ensures Settled(index, tail) == index && Hanging(index, tail) == {}
  {
  }

  // An empty payload leaves the block pointing at the cursor.
  lemma EmptyStore(index: map<nat, nat>, data: seq<Byte>, bs: nat, tail: nat, block: nat)
    requires 0 < bs && Below(Settled(index, tail), bs, tail) && tail <= |data|
    ensures var index' := index[block := tail];
            && WriteOver(data, tail, []) == data
            && Below(Settled(index', tail), bs, tail) && !Below(index', bs, tail)
            && Hanging(index', tail) == Hanging(index, tail) + {block}
            && Indexed(Settled(index', tail), data, bs) == Indexed(Settled(index, tail), data, bs) - {block}
  {
    hide ReadPadded;
    assert Settled(index[block := tail], tail) == Settled(index, tail) - {block};
    assert index[block := tail][block] + bs > tail;
  }

  class ScratchLayer {
    const geometry: Geometry
    const media: Media
    var data: seq<Byte>
    var index: map<nat, nat>
    var tail: nat
    /** The data file as the last successful sync left it on stable storage. */
    ghost var synced: seq<Byte>

    /** What every scratch keeps: the payloads that are there lie below the append cursor. */
    ghost predicate Loose()
      reads this
    {
      && geometry.Valid()
      && tail <= |data|
      && Below(Settled(index, tail), geometry.blockSize, tail)
      && forall b :: b in index ==> b < geometry.BlockCount()
    }

    /** Every indexed block has a payload region of its own below the append cursor. */
    ghost predicate Valid()
      reads this
    {
      Loose() && Regions(index, geometry.blockSize, tail)
    }

    ghost function Contents(): (m: BlockMap)
      reads this
      ensures Sized(m, geometry.blockSize)
    {
      Indexed(Settled(index, tail), data, geometry.blockSize)
    }

    /** The blocks that were stored as nothing. */
    ghost function Hung(): set<nat>
      reads this
    {
      Hanging(index, tail)
    }

    /** What the index picks out of the data file, at the append cursor too. */
    ghost function Readout(): (m: BlockMap)
      reads this
      ensures m.Keys == index.Keys && Sized(m, geometry.blockSize)
    {
      Indexed(index, data, geometry.blockSize)
    }

    /** No indexed payload is cut off by the end of the data file. */
    ghost predicate Whole()
      reads this
    {
      forall b :: b in index ==> index[b] + geometry.blockSize <= |data|
    }

    lemma Solid()
      requires Valid()
      ensures Hung() == {} && Readout() == Contents() && Contents().Keys == index.Keys && Whole()
    {
      NothingHangs(index, geometry.blockSize, tail);
    }

    // What the index picks out: the contents, and past the cursor for the blocks stored as nothing.
    lemma ReadoutIs()
      ensures Readout() == StoreAll(Contents(), Hung(), ReadPadded(data, tail, geometry.blockSize))
    {
      hide ReadPadded;
      var l, r := Readout(), StoreAll(Contents(), Hung(), ReadPadded(data, tail, geometry.blockSize));
      forall b | b in l
        ensures b in r && l[b] == r[b]
      {
      }
      assert l.Keys == r.Keys;
    }

    // A block stored as nothing is cut off, unless a torn write left a block's worth past the cursor.
    lemma HungCut()
      requires Loose() && |data| < tail + geometry.blockSize
      ensures Whole() <==> Hung() == {}
    {
      if Hung() != {} {
        var b :| b in Hung();
        assert index[b] == tail;
      } else {
        forall b | b in index
          ensures index[b] + geometry.blockSize <= |data|
        {
          assert b !in Hung() && b in Settled(index, tail);
        }
      }
    }

    constructor Create(geometry: Geometry, media: Media)
      requires geometry.Valid()
      ensures Valid() && this.geometry == geometry && this.media == media
      ensures Contents() == map[]
    {
      this.geometry := geometry;
      this.media := media;
      data, index, tail := [], map[], 0;
      synced := [];
    }

    method ReadBlock(block: nat) returns (ok: bool, found: bool, out: seq<Byte>)
      requires Valid()
      ensures ok ==> found == (block in Contents())
      ensures ok && found ==> out == Contents()[block]
      ensures media != MayFail ==> ok
    {
      Solid();
      ok, found, out := true, false, [];
      if block in index {
        var fault := Faults(media);
        if fault { return false, false, []; }
        found, out := true, ReadPadded(data, index[block], geometry.blockSize);
      }
    }

    /** Append the payload, then point the index at it. A failed write may leave part of the
        payload behind the cursor; the overlay's contents are unchanged by it. An empty payload, which
        a disk that has lost its block buffer passes, is written without fail, but leaves the block
        pointing at the cursor: it takes on whatever is appended next. */
    method WriteBlock(block: nat, payload: seq<Byte>) returns (ok: bool)
      requires Loose() && (|payload| == geometry.blockSize || payload == []) && block < geometry.BlockCount()
      modifies this
      ensures Loose() && old(tail) <= tail && data[..old(tail)] == old(data)[..old(tail)]
      ensures old(Valid()) ==> (Valid() <==> !ok || payload != [])
      ensures ok ==> tail == old(tail) + |payload|
      ensures ok && payload != [] ==> Hung() == {} && Contents() == StoreAll(old(Contents()), old(Hung()) + {block}, payload)
      ensures ok && payload == [] ==> Hung() == old(Hung()) + {block} && Contents() == old(Contents()) - {block}
      ensures !ok ==> Contents() == old(Contents()) && index == old(index) && tail == old(tail)
      ensures media == Reliable ==> ok
      ensures media == Full ==> (ok <==> payload == [])
    {
      hide ReadPadded, WriteOver, Indexed, Below, Regions, Settled, Hanging;
      var offset, bs := tail, geometry.blockSize;
      assert old(Valid()) ==> Regions(index, bs, tail);
      var fault := false;
      if payload == [] { fault := Faults(media); } else { fault := WriteFaults(media); }
      if fault {
        var torn :| 0 <= torn <= |payload|;
        data := WriteOver(data, offset, payload[..torn]);
        TornWriteKeepsPayloads(Settled(index, tail), old(data), data, bs, tail);
        return false;
      }
      if payload == [] {
        EmptyStore(index, data, bs, tail, block);
        assert !Regions(index[block := tail], bs, tail) by { NotRegions(index[block := tail], bs, tail); }
      } else {
        AppendStores(index, data, bs, tail, block, payload);
        AppendSettles(index, bs, tail, block);
        if Regions(index, bs, tail) { AppendRegions(index, bs, tail, block); }
      }
      data := WriteOver(data, offset, payload);
      tail := tail + |payload|;
      index := index[block := offset];
      ok := true;
    }

    /** Make prior writes durable. */
    method Flush() returns (ok: bool)
      modifies this`synced
      ensures ok ==> synced == data
      ensures !ok ==> synced == old(synced)
      ensures media != MayFail ==> ok
    {
      var fault := Faults(media);
      if fault { return false; }
      synced := data;
      ok := true;
    }

    method ForgetBlock(block: nat)
      requires Loose()
      modifies this
      ensures Loose() && (old(Valid()) ==> Valid())
      ensures Contents() == old(Contents()) - {block} && Hung() == old(Hung()) - {block}
      ensures data == old(data) && tail == old(tail)
    {
      hide ReadPadded;
      assert Settled(index - {block}, tail) == Settled(index, tail) - {block};
      assert Contents() - {block} == Indexed(Settled(index - {block}, tail), data, geometry.blockSize);
      index := index - {block};
    }
  }

  lemma NotRegions(index: map<nat, nat>, bs: nat, tail: nat)
    requires !Below(index, bs, tail)
    ensures !Regions(index, bs, tail)
  {
  }
}
