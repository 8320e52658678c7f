/** What becomes of a disk that has lost its block buffer (stack.rs, layer.rs).

    The buffer is lost when storing a block covered in part fails (`LayeredDisk.WriteAt`). Reads panic from
    then on, and so does every access that covers a block in part. Zeroing whole blocks is reported as
    done, but stores nothing. `debug_assert` checks are those of a release build: none.
 */
module Drift {
  import opened Bytes
  import opened Blocks
  import opened Layers
  import opened Stack
  import opened Sealed

  /** On every disk whose medium is full, a write that starts with a block covered in part fails and loses
      the block buffer. Zeroing whole blocks then succeeds, on the full medium, and the append log is out of
      order: exactly those blocks point at the cursor. */
  method ZeroOnFull(disk: LayeredDisk, offset: nat, buf: seq<Byte>, at: nat, len: nat) returns (write: Outcome, zero: Outcome)
    requires disk.Valid() && disk.scratch.media == Full && disk.Readable()
    requires disk.geometry.InRange(offset, |buf|) && buf != []
    requires !WholePiece(disk.geometry, offset, PieceLen(disk.geometry, offset, |buf|))
    requires disk.geometry.InRange(at, len) && len > 0 && AlignedRange(disk.geometry, at, len)
    modifies disk`view, disk`blockBuf, disk.scratch
    ensures write == IoError && zero == Ok
    ensures disk.Adrift() && 0 < disk.geometry.blockSize && disk.scratch.Hung() == Covers(disk.geometry.blockSize, at, len)
    ensures !disk.scratch.Valid()
  {
    hide LayeredDisk.Framed, LayeredDisk.Readable, Progress, Blamed, Trimmed, AfterWrite, Splice, Led;
    hide ScratchLayer.Valid, PieceLen, WholePiece, AlignedRange, Covers;
    ghost var done, cause;
    disk.Kept();
    write, done, cause := disk.WriteAt(offset, buf);
    zero, done := disk.WriteZeroes(at, len);
    ProgressBound(disk.geometry, at, len, zero == Ok, done);
  }

  /** One byte written to a full medium of one block, the block zeroed, and a byte read. */
  method LostBufferExample() returns (disk: LayeredDisk, write: Outcome, zero: Outcome, read: Outcome)
    ensures write == IoError && zero == Ok && read == Panicked
    ensures disk.Adrift() && disk.scratch.Hung() == {0} && !disk.scratch.Valid()
  {
    hide LayeredDisk.Framed, ScratchLayer.Valid, PieceLen, AlignedRange, Covers;
    var scratch := new ScratchLayer.Create(Geometry(16, 16), Full);
    disk := new LayeredDisk([], scratch);
    OneBlock();
    write, zero := ZeroOnFull(disk, 0, [1], 0, 16);
    var buf;
    read, buf := disk.ReadAt(0, 1);
  }

  lemma OneBlock()
    ensures var g := Geometry(16, 16);
            g.Valid() && AlignedRange(g, 0, 16) && PieceLen(g, 0, 1) == 1 && Covers(16, 0, 16) == {0}
  {
    forall q: nat
      ensures Covered(16, 0, 16, q) <==> q == 0
    {
    }
  }

  /** Zeroing whole blocks and then writing others, both reported as done: every block that was zeroed, and
      not written, shows the first block written. */
  method ZeroThenWrite(disk: LayeredDisk, offset: nat, len: nat, at: nat, buf: seq<Byte>)
    returns (zero: Outcome, write: Outcome)
    requires disk.Adrift()
    modifies disk`view, disk`blockBuf, disk.scratch
    ensures disk.Adrift() && 0 < disk.geometry.blockSize && |disk.view| == disk.geometry.virtualSize
    ensures zero == Ok && write == Ok && buf != [] ==>
              && disk.geometry.blockSize <= |buf| && disk.scratch.Hung() == {}
              && forall q :: q in Covers(disk.geometry.blockSize, offset, len) && q !in Covers(disk.geometry.blockSize, at, |buf|) ==>
                   && disk.geometry.Start(q) + disk.geometry.blockSize <= disk.geometry.virtualSize
                   && BlockBytes(disk.geometry, disk.view, q) == buf[..disk.geometry.blockSize]
  {
    hide LayeredDisk.Framed, Trimmed, Covers, AfterWrite;
    ghost var done, cause;
    zero, done := disk.WriteZeroes(offset, len);
    ghost var v, hung := disk.view, disk.scratch.Hung();
    write, done, cause := disk.WriteAt(at, buf);
    disk.Shape();
    if zero == Ok && write == Ok && buf != [] {
      assert done == |buf|;
      AlignedLength(disk.geometry, at, |buf|);
      forall q | q in Covers(disk.geometry.blockSize, offset, len) && q !in Covers(disk.geometry.blockSize, at, |buf|)
        ensures disk.geometry.Start(q) + disk.geometry.blockSize <= disk.geometry.virtualSize
        ensures BlockBytes(disk.geometry, disk.view, q) == buf[..disk.geometry.blockSize]
      {
        TakesOn(disk.geometry, v, hung, at, buf, q);
      }
    }
  }

  lemma AlignedLength(g: Geometry, offset: nat, len: nat)
    requires g.Valid() && AlignedRange(g, offset, len) && 0 < len
    ensures g.blockSize <= len
  {
    var bs, b, e := g.blockSize, g.BlockOf(offset), g.BlockOf(offset + len);
    assert offset == b * bs && offset + len == e * bs;
    if e <= b { MulMono(e, b, bs); }
    MulMono(b + 1, e, bs);
  }

  // A hung block that a write does not cover shows the first block written.
  lemma TakesOn(g: Geometry, v: seq<Byte>, hung: set<nat>, at: nat, buf: seq<Byte>, q: nat)
    requires g.Valid() && AlignedRange(g, at, |buf|) && g.blockSize <= |buf| && at + |buf| <= |v|
    requires q in hung && !Covered(g.blockSize, at, |buf|, q) && g.Start(q) + g.blockSize <= |v|
    ensures BlockBytes(g, AfterWrite(g.blockSize, v, hung, at, buf, |buf|), q) == buf[..g.blockSize]
  {
    var bs, r := g.blockSize, AfterWrite(g.blockSize, v, hung, at, buf, |buf|);
    forall k | 0 <= k < bs
      ensures r[q * bs + k] == buf[k]
    {
      InBlock(q * bs + k, q, bs);
      Apart(g, at, |buf|, q, k);
    }
  }

  // A block is covered by an aligned range, or apart from it.
  lemma Apart(g: Geometry, at: nat, len: nat, q: nat, k: nat)
    requires g.Valid() && AlignedRange(g, at, len) && !Covered(g.blockSize, at, len, q) && k < g.blockSize
    ensures !(at <= q * g.blockSize + k < at + len)
  {
    var bs, b, e := g.blockSize, g.BlockOf(at), g.BlockOf(at + len);
    assert at == b * bs && at + len == e * bs;
    hide Geometry.BlockOf;
    if q < b { MulMono(q + 1, b, bs); return; }
    if e <= q { MulMono(e, q, bs); return; }
    MulMono(b, q, bs);
    MulMono(q + 1, e, bs);
  }

  /** Zeroing whole blocks and then sealing: the seal fails, or files for every block that was zeroed what a
      torn write had left past the append cursor. */
  method ZeroThenSeal(disk: LayeredDisk, offset: nat, len: nat, sha: seq<Byte> -> Digest, parents: seq<Digest>, dest: Media)
    returns (zero: Outcome, sealed: Result<ImmutableLayer>)
    requires disk.Adrift()
    modifies disk`view, disk`blockBuf, disk.scratch
    ensures disk.Adrift() && 0 < disk.geometry.blockSize
    ensures zero == Ok && len > 0 ==>
              var scratch, bs := disk.scratch, disk.geometry.blockSize;
              && (|scratch.data| < scratch.tail + bs ==> sealed.Failure?)
              && (sealed.Success? ==>
                    && sealed.value == SealedLayer(sha, disk.geometry, parents, scratch.Readout())
                    && forall q :: q in Covers(bs, offset, len) ==> q in scratch.Readout() && scratch.Readout()[q] == ReadPadded(scratch.data, scratch.tail, bs))
  {
    hide Trimmed, Covers, SealedLayer;
    ghost var done;
    zero, done := disk.WriteZeroes(offset, len);
    if zero == Ok && len > 0 {
      FirstCovered(disk.geometry, offset, len);
      if |disk.scratch.data| < disk.scratch.tail + disk.geometry.blockSize { disk.scratch.HungCut(); }
    }
    sealed := Seal(disk.scratch, sha, parents, dest);
  }

  lemma FirstCovered(g: Geometry, offset: nat, len: nat)
    requires g.Valid() && AlignedRange(g, offset, len) && 0 < len
    ensures g.BlockOf(offset) in Covers(g.blockSize, offset, len)
  {
    AlignedLength(g, offset, len);
  }

  // ---- the append log over whole runs ---------------------------------------------------------------------

  /** What a scratch was told and reported as done: a block stored, stored as nothing, or forgotten. */
  datatype LogEvent = Put(block: nat, payload: seq<Byte>) | PutNothing(block: nat) | Drop(block: nat)

  /** What the scratch holds for a block. */
  datatype Fate = Absent | Holds(payload: seq<Byte>) | Hangs

  /** The fate of block `b` after a run, one event after the other. */
  function FateOf(events: seq<LogEvent>, b: nat): Fate {
    if events == [] then Absent else
      var before := FateOf(events[..|events| - 1], b);
      match events[|events| - 1]
      case Put(c, payload) => if c == b || before == Hangs then Holds(payload) else before
      case PutNothing(c) => if c == b then Hangs else before
      case Drop(c) => if c == b then Absent else before
  }

  /** What the client was told block `b` holds: a block stored as nothing was to be zero. */
  function Promised(events: seq<LogEvent>, bs: nat, b: nat): Fate {
    if events == [] then Absent else
      var e := events[|events| - 1];
      if e.block != b then Promised(events[..|events| - 1], bs, b)
      else match e
        case Put(_, payload) => Holds(payload)
        case PutNothing(_) => Holds(Zeros(bs))
        case Drop(_) => Absent
  }

  /** The last event on block `b`. */
  function LastOn(events: seq<LogEvent>, b: nat): (r: Option<nat>)
    ensures r.Some? ==> r.value < |events| && events[r.value].block == b
  {
    if events == [] then None
    else if events[|events| - 1].block == b then Some(|events| - 1)
    else LastOn(events[..|events| - 1], b)
  }

  /** The payload of the first block stored from event `i` on. */
  function NextPut(events: seq<LogEvent>, i: nat): (r: Option<seq<Byte>>)
    decreases |events| - i
  {
    if i >= |events| then None
    else if events[i].Put? then Some(events[i].payload)
    else NextPut(events, i + 1)
  }

  lemma {:induction false} NextPutSnoc(events: seq<LogEvent>, e: LogEvent, i: nat)
    requires i <= |events|
    ensures NextPut(events + [e], i) ==
            if NextPut(events, i).Some? then NextPut(events, i) else if e.Put? then Some(e.payload) else None
    decreases |events| - i
  {
    if i < |events| { NextPutSnoc(events, e, i + 1); }
  }

  // The fate of a block, told from its last event.
  lemma {:induction false} FateIs(events: seq<LogEvent>, b: nat)
    ensures FateOf(events, b) ==
            match LastOn(events, b)
            case None => Absent
            case Some(i) =>
              (match events[i]
               case Put(_, payload) => Holds(payload)
               case Drop(_) => Absent
               case PutNothing(_) => if NextPut(events, i + 1).Some? then Holds(NextPut(events, i + 1).value) else Hangs)
  {
    if events != [] {
      var n := |events| - 1;
      var init, e := events[..n], events[n];
      assert events == init + [e];
      FateIs(init, b);
      var last := LastOn(init, b);
      if e.block != b && last.Some? {
        assert init[last.value] == events[last.value];
        NextPutSnoc(init, e, last.value + 1);
      }
    }
  }

  lemma {:induction false} PromisedIs(events: seq<LogEvent>, bs: nat, b: nat)
    ensures Promised(events, bs, b) ==
            match LastOn(events, b)
            case None => Absent
            case Some(i) =>
              (match events[i]
               case Put(_, payload) => Holds(payload)
               case Drop(_) => Absent
               case PutNothing(_) => Holds(Zeros(bs)))
  {
    if events != [] && events[|events| - 1].block != b {
      PromisedIs(events[..|events| - 1], bs, b);
    }
  }

  /** After every run, the scratch holds for a block what it reported — unless the block was last stored as
      nothing, and the first block stored since, if any, was not one of zeroes. */
  lemma HoldsWhatItReported(events: seq<LogEvent>, bs: nat, b: nat)
    ensures FateOf(events, b) == Promised(events, bs, b) <==>
            !(var i := LastOn(events, b);
              i.Some? && events[i.value].PutNothing? && NextPut(events, i.value + 1) != Some(Zeros(bs)))
  {
    FateIs(events, b);
    PromisedIs(events, bs, b);
  }

  ghost function FateIn(scratch: ScratchLayer, b: nat): Fate
    reads scratch
  {
    if b in scratch.Hung() then Hangs else if b in scratch.Contents() then Holds(scratch.Contents()[b]) else Absent
  }

  /** The scratch is what a run of events has made of an empty one. */
  ghost predicate Replays(scratch: ScratchLayer, events: seq<LogEvent>)
    reads scratch
  {
    && scratch.Loose() && (forall b :: FateIn(scratch, b) == FateOf(events, b))
    && ((forall i :: 0 <= i < |events| ==> !events[i].PutNothing?) ==> scratch.Valid())
  }

  /** Every operation of the scratch that is reported as done extends the run; a failed one changes nothing.
      A run that stores nothing as nothing keeps the log in order. */
  method Extend(scratch: ScratchLayer, e: LogEvent, ghost events: seq<LogEvent>) returns (ok: bool)
    requires Replays(scratch, events) && e.block < scratch.geometry.BlockCount() && (e.Put? ==> |e.payload| == scratch.geometry.blockSize)
    modifies scratch
    ensures Replays(scratch, if ok then events + [e] else events)
    ensures scratch.media == Reliable ==> ok
  {
    hide Regions, Below, Settled, Hanging, Indexed, StoreAll;
    ghost var run, m, hung := events + [e], scratch.Contents(), scratch.Hung();
    assert run[..|events|] == events && run[|events|] == e && (forall i :: 0 <= i < |events| ==> run[i] == events[i]);
    assert forall b :: FateIn(scratch, b) == FateOf(events, b);
    match e {
      case Put(b, payload) =>
        ok := scratch.WriteBlock(b, payload);
        StoreAllAt(m, hung + {b}, payload);
      case PutNothing(b) => ok := scratch.WriteBlock(b, []);
      case Drop(b) =>
        scratch.ForgetBlock(b);
        ok := true;
    }
    assert ok ==> forall b :: FateIn(scratch, b) == FateOf(run, b);
    assert !ok ==> forall b :: FateIn(scratch, b) == FateOf(events, b);
  }

  lemma StoreAllAt(m: BlockMap, blocks: set<nat>, payload: seq<Byte>)
    ensures forall b :: b in StoreAll(m, blocks, payload) <==> b in m || b in blocks
    ensures forall b :: b in StoreAll(m, blocks, payload) ==> StoreAll(m, blocks, payload)[b] == if b in blocks then payload else m[b]
  {
  }
}
