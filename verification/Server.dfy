/** The transmission phase of the NBD server (server.rs) over a layered disk.

    `Exec` runs one command on a flat byte array. `Serve` runs the server on an arbitrary byte
    stream over such an array, and `ServeWith` does so on a medium that fails here and there.
    `Transmission` is the command loop over a `LayeredDisk`, proved equal to them. `WireRun` then
    says what `Serve` does to any encoded list of commands.
 */
module Server {
  import opened Bytes
  import opened Blocks
  import opened Layers
  import opened Stack
  import opened Wire

  const MAX_REQUEST_LEN: nat := 64 * 1024 * 1024

  /** Whether a disk has its block buffer; without it, the blocks that were stored as nothing. */
  datatype Buffer = Kept | Gone(hung: set<nat>) {
    function Hung(): set<nat> { if Gone? then hung else {} }
  }

  /** The reference disk: a flat array, what a trim reveals, and the block size. */
  datatype Flat = Flat(bytes: seq<Byte>, base: seq<Byte>, blockSize: nat, buffer: Buffer := Kept) {
    predicate Valid() { 0 < blockSize && |bytes| == |base| }
  }

  predicate OutOfBounds(offset: nat, length: nat, vsize: nat) {
    offset + length > vsize
  }

  /** One command on the reference disk: the error code, the data read, and the new array. */
  function Exec(flat: Flat, readOnly: bool, req: Request, payload: seq<Byte>): (r: (Reply, Flat))
    requires flat.Valid() && (req.cmd == CMD_WRITE ==> |payload| == req.length)
    ensures r.1.Valid() && |r.1.bytes| == |flat.bytes| && r.1.base == flat.base && r.1.blockSize == flat.blockSize
    ensures r.1.buffer == flat.buffer && r.0.handle == req.handle
  {
    var oob := OutOfBounds(req.offset, req.length, |flat.bytes|);
    if req.cmd == CMD_READ then
      if req.length > MAX_REQUEST_LEN || oob then (Reply(EINVAL, req.handle, []), flat)
      else (Reply(0, req.handle, flat.bytes[req.offset..req.offset + req.length]), flat)
    else if req.cmd == CMD_FLUSH then (Reply(0, req.handle, []), flat)
    else if req.cmd == CMD_WRITE || req.cmd == CMD_TRIM || req.cmd == CMD_WRITE_ZEROES then
      if readOnly then (Reply(EPERM, req.handle, []), flat)
      else if oob then (Reply(EINVAL, req.handle, []), flat)
      else (Reply(0, req.handle, []), Mutate(flat, req, payload))
    else (Reply(EINVAL, req.handle, []), flat)
  }

  function Mutate(flat: Flat, req: Request, payload: seq<Byte>): (r: Flat)
    requires flat.Valid() && !OutOfBounds(req.offset, req.length, |flat.bytes|)
    requires req.cmd == CMD_WRITE ==> |payload| == req.length
    ensures r.Valid() && |r.bytes| == |flat.bytes| && r.base == flat.base && r.blockSize == flat.blockSize && r.buffer == flat.buffer
  {
    if req.cmd == CMD_WRITE then flat.(bytes := Splice(flat.bytes, req.offset, payload))
    else if req.cmd == CMD_TRIM then
      flat.(bytes := Trimmed(flat.bytes, flat.base, flat.blockSize, req.offset, req.length))
    else flat.(bytes := Splice(flat.bytes, req.offset, Zeros(req.length)))
  }

  /** One command, code by code and byte by byte. A mutation of a read-only export is refused first; an
      unknown command, a range past the end and a read of more than 64 MiB are invalid; everything else
      succeeds. A read returns the bytes of its range. A write puts its payload there, a zeroing zeroes, and
      a trim leaves the base in the blocks it covers wholly and zeroes elsewhere in its range. */
  lemma ExecMeans(flat: Flat, readOnly: bool, req: Request, payload: seq<Byte>)
    requires flat.Valid() && (req.cmd == CMD_WRITE ==> |payload| == req.length)
    ensures var reply, after := Exec(flat, readOnly, req, payload).0, Exec(flat, readOnly, req, payload).1;
            var mutation := req.cmd == CMD_WRITE || req.cmd == CMD_TRIM || req.cmd == CMD_WRITE_ZEROES;
            && (reply.error == EPERM <==> mutation && readOnly)
            && (reply.error == EINVAL <==>
                  || (req.cmd != CMD_READ && req.cmd != CMD_FLUSH && !mutation)
                  || (req.cmd == CMD_READ && req.length > 64 * 1024 * 1024)
                  || (req.offset + req.length > |flat.bytes| && (req.cmd == CMD_READ || (mutation && !readOnly))))
            && (reply.error == 0 || reply.error == EPERM || reply.error == EINVAL) && reply.handle == req.handle
            && (if reply.error == 0 && req.cmd == CMD_READ
                then |reply.data| == req.length && forall i :: 0 <= i < req.length ==> reply.data[i] == flat.bytes[req.offset + i]
                else reply.data == [])
            && after.Valid() && |after.bytes| == |flat.bytes| && after.base == flat.base && after.blockSize == flat.blockSize
            && forall i :: 0 <= i < |flat.bytes| ==>
                 after.bytes[i] ==
                 if reply.error != 0 || !mutation || !(req.offset <= i < req.offset + req.length) then flat.bytes[i]
                 else if req.cmd == CMD_WRITE then payload[i - req.offset]
                 else if req.cmd == CMD_WRITE_ZEROES then 0
                 else
                   var start := i - i % flat.blockSize;
                   if req.offset <= start && start + flat.blockSize <= req.offset + req.length then flat.base[i] else 0
  {
    if req.cmd == CMD_TRIM {
      forall i | 0 <= i < |flat.bytes|
        ensures Covered(flat.blockSize, req.offset, req.length, i / flat.blockSize) <==>
                req.offset <= i - i % flat.blockSize && i - i % flat.blockSize + flat.blockSize <= req.offset + req.length
      {
        DivMod(i, flat.blockSize);
      }
    }
  }

  /** How a connection ends. `Oversized`, `Garbled` and `Cut` are errors. `Panic` is where the disk lacks
      its block buffer and the command needs it. */
  datatype Ending = Hangup | Disconnect | Oversized | Garbled | Cut | Panic

  datatype Transcript = Transcript(output: seq<Byte>, flat: Flat, consumed: nat, ending: Ending)

  /** What happens next on the stream: the connection ends, or a command with its payload is run. */
  datatype Next = Stop(consumed: nat, ending: Ending) | Run(req: Request, payload: seq<Byte>)

  function Parse(input: seq<Byte>): (n: Next)
    ensures n.Run? ==> n.req.Valid() && HEADER + |n.payload| <= |input|
    ensures n.Run? && n.req.cmd == CMD_WRITE ==> |n.payload| == n.req.length
    ensures n.Stop? ==> n.ending != Panic
  {
    match DecodeRequest(input)
    case Eof => Stop(0, Hangup)
    case BadMagic => Stop(0, Garbled)
    case Got(req) =>
      if req.cmd == CMD_DISC then Stop(HEADER, Disconnect)
      else if req.cmd != CMD_WRITE then Run(req, [])
      else if req.length > MAX_REQUEST_LEN then Stop(HEADER, Oversized)
      else if |input| < HEADER + req.length then Stop(HEADER, Cut)
      else Run(req, input[HEADER..HEADER + req.length])
  }

  /** The server on any byte stream, over the reference disk. */
  function Serve(flat: Flat, readOnly: bool, input: seq<Byte>): (s: Transcript)
    requires flat.Valid()
    ensures s.flat.Valid()
    decreases |input|
  {
    match Parse(input)
    case Stop(n, ending) => Transcript([], flat, n, ending)
    case Run(req, payload) =>
      var (reply, flat') := Exec(flat, readOnly, req, payload);
      var s := Serve(flat', readOnly, input[HEADER + |payload|..]);
      Transcript(EncodeReply(reply) + s.output, s.flat, HEADER + |payload| + s.consumed, s.ending)
  }

  // ---- a medium that fails ---------------------------------------------------------------------------

  /** How a command fares: as its disk lets it, or failed after `done` bytes took effect. */
  datatype Fault = Fine | Faulted(done: nat, lost: bool)

  predicate Mutates(cmd: nat) {
    cmd == CMD_WRITE || cmd == CMD_TRIM || cmd == CMD_WRITE_ZEROES
  }

  /** The command is not refused and accesses the array. */
  predicate Touches(flat: Flat, readOnly: bool, req: Request) {
    && !OutOfBounds(req.offset, req.length, |flat.bytes|)
    && (if req.cmd == CMD_READ then req.length <= MAX_REQUEST_LEN else Mutates(req.cmd) && !readOnly)
  }

  /** How far a mutation gets if the medium does not fail. */
  function Reach(flat: Flat, req: Request): (n: nat)
    requires flat.Valid()
    ensures n <= req.length
  {
    if flat.buffer.Kept? then req.length else Lead(flat.blockSize, req.offset, req.length)
  }

  /** A failure that can happen: a mutation stops at a block boundary, at once, or, when only the sync
      of a forced write fails, at the end; only a write can lose the block buffer. */
  predicate Possible(flat: Flat, readOnly: bool, req: Request, f: Fault)
    requires flat.Valid()
  {
    f.Faulted? ==>
      && (if Mutates(req.cmd)
          then Touches(flat, readOnly, req) && f.done <= Reach(flat, req)
               && (f.done == 0 || f.done == req.length || (req.offset + f.done) % flat.blockSize == 0)
          else f.done == 0 && (req.cmd == CMD_FLUSH || (Touches(flat, readOnly, req) && req.length > 0 && flat.buffer.Kept?)))
      && (f.lost ==> req.cmd == CMD_WRITE && f.done < req.length && flat.buffer.Kept?)
  }

  /** The reference disk after the first `done` bytes of a command. */
  function Partly(flat: Flat, req: Request, payload: seq<Byte>, done: nat): (r: Flat)
    requires flat.Valid() && (Mutates(req.cmd) ==> done <= req.length && !OutOfBounds(req.offset, req.length, |flat.bytes|))
    requires req.cmd == CMD_WRITE ==> |payload| == req.length
    ensures r.Valid() && |r.bytes| == |flat.bytes| && r.base == flat.base && r.blockSize == flat.blockSize
    ensures r.buffer.Kept? == flat.buffer.Kept?
  {
    if !Mutates(req.cmd) then flat
    else if flat.buffer.Gone? then Drifted(flat, req, payload, done)
    else Mutate(flat, req.(length := done), if req.cmd == CMD_WRITE then payload[..done] else [])
  }

  /** The same without the block buffer: a write is taken on by every hung block, and zeroing a block
      hangs it. */
  function Drifted(flat: Flat, req: Request, payload: seq<Byte>, done: nat): (r: Flat)
    requires flat.Valid() && flat.buffer.Gone? && done <= req.length && !OutOfBounds(req.offset, req.length, |flat.bytes|)
    requires req.cmd == CMD_WRITE ==> |payload| == req.length
    ensures r.Valid() && |r.bytes| == |flat.bytes| && r.base == flat.base && r.blockSize == flat.blockSize && r.buffer.Gone?
  {
    var hung, bs := flat.buffer.hung, flat.blockSize;
    if req.cmd == CMD_WRITE then
      flat.(bytes := AfterWrite(bs, flat.bytes, hung, req.offset, payload, done), buffer := Gone(if done == 0 then hung else {}))
    else
      var covered := Covers(bs, req.offset, done);
      flat.(bytes := Trimmed(flat.bytes, flat.base, bs, req.offset, done),
            buffer := Gone(if req.cmd == CMD_TRIM then hung - covered else hung + covered))
  }

  /** A command is answered, or panics. */
  datatype Effect = Done(reply: Reply, flat: Flat) | Died(flat: Flat)

  /** One command on the reference disk, faring as `f` says where that is possible. */
  function Act(flat: Flat, readOnly: bool, req: Request, payload: seq<Byte>, f: Fault): (e: Effect)
    requires flat.Valid() && (req.cmd == CMD_WRITE ==> |payload| == req.length)
    ensures e.flat.Valid() && |e.flat.bytes| == |flat.bytes| && e.flat.base == flat.base && e.flat.blockSize == flat.blockSize
    ensures e.Done? ==> e.reply.handle == req.handle
    ensures e.Died? ==> flat.buffer.Gone?
  {
    if f.Faulted? && Possible(flat, readOnly, req, f) then
      var flat' := Partly(flat, req, payload, f.done);
      Done(Reply(EIO, req.handle, []), if f.lost then flat'.(buffer := Gone({})) else flat')
    else if flat.buffer.Kept? || !Touches(flat, readOnly, req) then
      var (reply, flat') := Exec(flat, readOnly, req, payload);
      Done(reply, flat')
    else if req.cmd == CMD_READ then
      if req.length == 0 then Done(Reply(0, req.handle, []), flat) else Died(flat)
    else
      var flat' := Partly(flat, req, payload, Reach(flat, req));
      if Reach(flat, req) == req.length then Done(Reply(0, req.handle, []), flat') else Died(flat')
  }

  /** The server on any byte stream, the n-th command faring as `faults[n]` says (fine past the end). */
  function ServeWith(flat: Flat, readOnly: bool, input: seq<Byte>, faults: seq<Fault>): (s: Transcript)
    requires flat.Valid()
    ensures s.flat.Valid()
    decreases |input|
  {
    match Parse(input)
    case Stop(n, ending) => Transcript([], flat, n, ending)
    case Run(req, payload) =>
      var (f, rest) := if faults == [] then (Fine, []) else (faults[0], faults[1..]);
      var n := HEADER + |payload|;
      match Act(flat, readOnly, req, payload, f)
      case Died(flat') => Transcript([], flat', n, Panic)
      case Done(reply, flat') => After(EncodeReply(reply), n, ServeWith(flat', readOnly, input[n..], rest))
  }

  /** `s` with `output` sent and `consumed` bytes read before it. */
  function After(output: seq<Byte>, consumed: nat, s: Transcript): Transcript {
    Transcript(output + s.output, s.flat, consumed + s.consumed, s.ending)
  }

  lemma AfterAfter(o: seq<Byte>, c: nat, o': seq<Byte>, c': nat, s: Transcript)
    ensures After(o, c, After(o', c', s)) == After(o + o', c + c', s)
  {
    assert o + (o' + s.output) == (o + o') + s.output;
  }

  predicate AllFine(faults: seq<Fault>) {
    forall i :: 0 <= i < |faults| ==> faults[i].Fine?
  }

  /** Without failures, on a disk with its block buffer, the server is the one on the reference disk. */
  lemma {:induction false} NoFaults(flat: Flat, readOnly: bool, input: seq<Byte>, faults: seq<Fault>)
    requires flat.Valid() && flat.buffer.Kept? && AllFine(faults)
    ensures ServeWith(flat, readOnly, input, faults) == Serve(flat, readOnly, input)
    decreases |input|
  {
    hide Exec, EncodeReply, Touches;
    match Parse(input)
    case Stop(_, _) =>
    case Run(req, payload) =>
      var flat' := Exec(flat, readOnly, req, payload).1;
      NoFaults(flat', readOnly, input[HEADER + |payload|..], if faults == [] then [] else faults[1..]);
  }

  // ---- the implementation ---------------------------------------------------------------------------

  /** The reference disk a layered disk stands for. */
  ghost function FlatOf(disk: LayeredDisk): (flat: Flat)
    reads disk`view, disk`blockBuf, disk.scratch
  {
    Flat(disk.view, disk.base, disk.geometry.blockSize, if disk.Lost() then Gone(disk.scratch.Hung()) else Kept)
  }

  lemma FlatShape(disk: LayeredDisk)
    requires disk.Usable()
    ensures FlatOf(disk).Valid() && |disk.view| == disk.geometry.virtualSize && disk.geometry.Valid()
    ensures (FlatOf(disk).buffer.Kept? <==> disk.Valid()) && (disk.Valid() ==> disk.scratch.Hung() == {})
  {
    disk.Kept();
    disk.Shape();
  }

  // What the outcome of a mutation is on the reference disk.
  ghost predicate Mutated(flat: Flat, req: Request, payload: seq<Byte>, r: Outcome, f: Fault, flat': Flat)
    requires flat.Valid() && Mutates(req.cmd) && !OutOfBounds(req.offset, req.length, |flat.bytes|)
    requires req.cmd == CMD_WRITE ==> |payload| == req.length
  {
    match r
    case Ok => f.Fine? && Reach(flat, req) == req.length && flat' == Partly(flat, req, payload, req.length)
    case Panicked => f.Fine? && Reach(flat, req) < req.length && flat' == Partly(flat, req, payload, Reach(flat, req))
    case IoError => f.Faulted? && Possible(flat, false, req, f)
                    && flat' == (var p := Partly(flat, req, payload, f.done); if f.lost then p.(buffer := Gone({})) else p)
    case OutOfRange => false
  }

  method WriteCommand(disk: LayeredDisk, req: Request, payload: seq<Byte>) returns (r: Outcome, ghost fault: Fault)
    requires disk.Usable() && req.cmd == CMD_WRITE && |payload| == req.length
    requires !OutOfBounds(req.offset, req.length, disk.geometry.virtualSize)
    modifies disk`view, disk`blockBuf, disk.scratch
    ensures disk.Usable() && old(FlatOf(disk)).Valid() && |old(disk.view)| == disk.geometry.virtualSize
    ensures Mutated(old(FlatOf(disk)), req, payload, r, fault, FlatOf(disk)) && (fault.Faulted? ==> !disk.Dependable())
  {
    hide LayeredDisk.Framed, LayeredDisk.Dependable, Splice, Progress, Blamed, AlignedRange, WholePiece, PieceLen;
    hide AfterWrite, Lead, ScratchLayer.Valid;
    FlatShape(disk);
    ghost var done, cause;
    r, done, cause := disk.WriteAt(req.offset, payload);
    ProgressFacts(disk.geometry, req.offset, req.length, r == Ok, done);
    fault := if r == IoError then Faulted(done, cause == PartStore) else Fine;
    disk.Kept();
    WriteMutated(old(FlatOf(disk)), req, payload, r, done, cause == PartStore, FlatOf(disk));
  }

  lemma WriteMutated(flat: Flat, req: Request, payload: seq<Byte>, r: Outcome, done: nat, lost: bool, flat': Flat)
    requires flat.Valid() && req.cmd == CMD_WRITE && |payload| == req.length && !OutOfBounds(req.offset, req.length, |flat.bytes|)
    requires r != OutOfRange && done <= req.length && (r == Ok <==> done == req.length) && (lost ==> r == IoError)
    requires r == Ok || done == 0 || (req.offset + done) % flat.blockSize == 0
    requires flat.buffer.Kept? ==> r != Panicked && flat' == flat.(bytes := Splice(flat.bytes, req.offset, payload[..done]),
                                                                   buffer := if lost then Gone({}) else Kept)
    requires flat.buffer.Gone? ==>
               && !lost && Led(flat.blockSize, req.offset, req.length, done, r == IoError)
               && flat' == flat.(bytes := AfterWrite(flat.blockSize, flat.bytes, flat.buffer.hung, req.offset, payload, done),
                                 buffer := Gone(if done == 0 then flat.buffer.hung else {}))
    ensures Mutated(flat, req, payload, r, if r == IoError then Faulted(done, lost) else Fine, flat')
  {
    hide Splice, AfterWrite, Lead;
  }

  method TrimCommand(disk: LayeredDisk, req: Request) returns (r: Outcome, ghost fault: Fault)
    requires disk.Usable() && req.cmd == CMD_TRIM && !OutOfBounds(req.offset, req.length, disk.geometry.virtualSize)
    modifies disk`view, disk`blockBuf, disk.scratch
    ensures disk.Usable() && old(FlatOf(disk)).Valid() && |old(disk.view)| == disk.geometry.virtualSize
    ensures Mutated(old(FlatOf(disk)), req, [], r, fault, FlatOf(disk)) && (fault.Faulted? ==> !disk.Dependable())
  {
    hide LayeredDisk.Framed, LayeredDisk.Dependable, Trimmed, Progress, Blamed, AlignedRange, WholePiece, PieceLen;
    hide Lead, Covers, ScratchLayer.Valid;
    FlatShape(disk);
    ghost var done;
    r, done := disk.Trim(req.offset, req.length);
    ProgressFacts(disk.geometry, req.offset, req.length, r == Ok, done);
    fault := if r == IoError then Faulted(done, false) else Fine;
    disk.Kept();
  }

  method ZeroCommand(disk: LayeredDisk, req: Request) returns (r: Outcome, ghost fault: Fault)
    requires disk.Usable() && req.cmd == CMD_WRITE_ZEROES && !OutOfBounds(req.offset, req.length, disk.geometry.virtualSize)
    modifies disk`view, disk`blockBuf, disk.scratch
    ensures disk.Usable() && old(FlatOf(disk)).Valid() && |old(disk.view)| == disk.geometry.virtualSize
    ensures Mutated(old(FlatOf(disk)), req, [], r, fault, FlatOf(disk)) && (fault.Faulted? ==> !disk.Dependable())
  {
    hide LayeredDisk.Framed, LayeredDisk.Dependable, Splice, Trimmed, Progress, Blamed, AlignedRange, WholePiece;
    hide PieceLen, Lead, Covers, ScratchLayer.Valid;
    FlatShape(disk);
    ghost var done;
    r, done := disk.WriteZeroes(req.offset, req.length);
    ProgressFacts(disk.geometry, req.offset, req.length, r == Ok, done);
    fault := if r == IoError then Faulted(done, false) else Fine;
    disk.Kept();
    assert Zeros(req.length)[..done] == Zeros(done);
  }

  lemma ProgressFacts(g: Geometry, offset: nat, len: nat, ok: bool, done: nat)
    requires g.Valid() && Progress(g, offset, len, ok, done)
    ensures done <= len && (ok <==> done == len) && (ok || done == 0 || (offset + done) % g.blockSize == 0)
  {
  }

  // A write, trim or zeroing that was not refused, with the sync of a forced write.
  method Mutation(disk: LayeredDisk, req: Request, payload: seq<Byte>) returns (r: Outcome, ghost fault: Fault)
    requires disk.Usable() && Mutates(req.cmd)
    requires req.cmd == CMD_WRITE ==> |payload| == req.length
    requires !OutOfBounds(req.offset, req.length, disk.geometry.virtualSize)
    modifies disk`view, disk`blockBuf, disk.scratch
    ensures disk.Usable() && old(FlatOf(disk)).Valid() && |old(disk.view)| == disk.geometry.virtualSize
    ensures Mutated(old(FlatOf(disk)), req, payload, r, fault, FlatOf(disk)) && (fault.Faulted? ==> !disk.Dependable())
    ensures r == Ok && req.cmd == CMD_WRITE && req.flags % 2 == 1 ==> disk.scratch.synced == disk.scratch.data
  {
    hide LayeredDisk.Usable, LayeredDisk.Valid, Partly, Possible, Reach;
    FlatShape(disk);
    ghost var flat := FlatOf(disk);
    if req.cmd == CMD_WRITE {
      r, fault := WriteCommand(disk, req, payload);
      if r == Ok && req.flags % 2 == 1 {
        // Force unit access: flush before replying.
        var synced := disk.Flush();
        if !synced {
          ForcedFails(flat, req);
          r, fault := IoError, Faulted(req.length, false);
        }
      }
    } else if req.cmd == CMD_TRIM {
      r, fault := TrimCommand(disk, req);
      NoPayload(flat, req, payload, r, fault, FlatOf(disk));
    } else {
      r, fault := ZeroCommand(disk, req);
      NoPayload(flat, req, payload, r, fault, FlatOf(disk));
    }
  }

  lemma ForcedFails(flat: Flat, req: Request)
    requires flat.Valid() && req.cmd == CMD_WRITE && !OutOfBounds(req.offset, req.length, |flat.bytes|) && Reach(flat, req) == req.length
    ensures Possible(flat, false, req, Faulted(req.length, false))
  {
  }

  // Only a write has a payload.
  lemma NoPayload(flat: Flat, req: Request, payload: seq<Byte>, r: Outcome, f: Fault, flat': Flat)
    requires flat.Valid() && (req.cmd == CMD_TRIM || req.cmd == CMD_WRITE_ZEROES) && !OutOfBounds(req.offset, req.length, |flat.bytes|)
    requires Mutated(flat, req, [], r, f, flat')
    ensures Mutated(flat, req, payload, r, f, flat')
  {
  }

  // A mutation on the reference disk.
  lemma MutationActs(flat: Flat, req: Request, payload: seq<Byte>, r: Outcome, f: Fault, flat': Flat)
    requires flat.Valid() && Mutates(req.cmd) && !OutOfBounds(req.offset, req.length, |flat.bytes|)
    requires (req.cmd == CMD_WRITE ==> |payload| == req.length) && Mutated(flat, req, payload, r, f, flat')
    ensures Act(flat, false, req, payload, f) ==
            if r == Panicked then Died(flat') else Done(Reply(if r == Ok then 0 else EIO, req.handle, []), flat')
    ensures f.Faulted? ==> r == IoError && Possible(flat, false, req, f)
  {
    if r == Ok && flat.buffer.Kept? { AllOfIt(flat, req, payload); }
  }

  lemma AllOfIt(flat: Flat, req: Request, payload: seq<Byte>)
    requires flat.Valid() && flat.buffer.Kept? && Mutates(req.cmd) && !OutOfBounds(req.offset, req.length, |flat.bytes|)
    requires req.cmd == CMD_WRITE ==> |payload| == req.length
    ensures Exec(flat, false, req, payload) == (Reply(0, req.handle, []), Partly(flat, req, payload, req.length))
  {
    assert req.cmd == CMD_WRITE ==> payload[..req.length] == payload;
  }

  /** One command on the layered disk, with its block buffer or without it, on any medium. Reply and new
      contents, or the panic, are those of the reference disk, the command faring as `fault` says; on a
      medium that does not fail it fares well. A flush, or a write with forced unit access, that is
      answered with success has made the whole scratch durable. */
  method Command(disk: LayeredDisk, readOnly: bool, req: Request, payload: seq<Byte>)
    returns (reply: Option<Reply>, ghost fault: Fault)
    requires disk.Usable()
    requires req.cmd == CMD_WRITE ==> |payload| == req.length
    modifies disk`view, disk`blockBuf, disk.scratch
    ensures disk.Usable() && old(FlatOf(disk)).Valid()
    ensures Act(old(FlatOf(disk)), readOnly, req, payload, fault) ==
            if reply.Some? then Done(reply.value, FlatOf(disk)) else Died(FlatOf(disk))
    ensures fault.Faulted? ==>
              && !disk.Dependable() && Possible(old(FlatOf(disk)), readOnly, req, fault)
              && reply == Some(Reply(EIO, req.handle, []))
    ensures reply.Some? && reply.value.error == 0 && (req.cmd == CMD_FLUSH || (req.cmd == CMD_WRITE && req.flags % 2 == 1)) ==>
              disk.scratch.synced == disk.scratch.data
  {
    hide LayeredDisk.Usable, LayeredDisk.Valid, Intact, Act, Mutated, Possible;
    FlatShape(disk);
    var vsize := disk.geometry.virtualSize;
    fault := Fine;
    if req.cmd == CMD_READ {
      if req.length > MAX_REQUEST_LEN || OutOfBounds(req.offset, req.length, vsize) {
        RefusedActs(FlatOf(disk), readOnly, req, payload);
        return Some(Reply(EINVAL, req.handle, [])), Fine;
      }
      reply, fault := ReadCommand(disk, readOnly, req, payload);
    } else if req.cmd == CMD_FLUSH {
      var synced := disk.Flush();
      reply := Some(Reply(if synced then 0 else EIO, req.handle, []));
      if !synced { fault := Faulted(0, false); }
      FlushActs(FlatOf(disk), readOnly, req, payload, !synced);
    } else if req.cmd == CMD_WRITE || req.cmd == CMD_TRIM || req.cmd == CMD_WRITE_ZEROES {
      if readOnly || OutOfBounds(req.offset, req.length, vsize) { RefusedActs(FlatOf(disk), readOnly, req, payload); }
      if readOnly { return Some(Reply(EPERM, req.handle, [])), Fine; }
      if OutOfBounds(req.offset, req.length, vsize) { return Some(Reply(EINVAL, req.handle, [])), Fine; }
      var r;
      r, fault := Mutation(disk, req, payload);
      MutationActs(old(FlatOf(disk)), req, payload, r, fault, FlatOf(disk));
      reply := if r == Panicked then None else Some(Reply(if r == Ok then 0 else EIO, req.handle, []));
    } else {
      RefusedActs(FlatOf(disk), readOnly, req, payload);
      reply := Some(Reply(EINVAL, req.handle, []));
    }
  }

  lemma RefusedActs(flat: Flat, readOnly: bool, req: Request, payload: seq<Byte>)
    requires flat.Valid() && (req.cmd == CMD_WRITE ==> |payload| == req.length)
    requires req.cmd != CMD_FLUSH && !Touches(flat, readOnly, req)
    ensures Act(flat, readOnly, req, payload, Fine) == Done(Reply(if Mutates(req.cmd) && readOnly then EPERM else EINVAL, req.handle, []), flat)
  {
  }

  lemma FlushActs(flat: Flat, readOnly: bool, req: Request, payload: seq<Byte>, failed: bool)
    requires flat.Valid() && req.cmd == CMD_FLUSH
    ensures Possible(flat, readOnly, req, Faulted(0, false))
    ensures Act(flat, readOnly, req, payload, if failed then Faulted(0, false) else Fine) ==
            Done(Reply(if failed then EIO else 0, req.handle, []), flat)
  {
  }

  // A read that was not refused.
  method ReadCommand(disk: LayeredDisk, readOnly: bool, req: Request, payload: seq<Byte>) returns (reply: Option<Reply>, ghost fault: Fault)
    requires disk.Usable() && req.cmd == CMD_READ
    requires req.length <= MAX_REQUEST_LEN && !OutOfBounds(req.offset, req.length, disk.geometry.virtualSize)
    modifies disk`blockBuf
    ensures disk.Usable() && FlatOf(disk) == old(FlatOf(disk)) && FlatOf(disk).Valid()
    ensures Act(FlatOf(disk), readOnly, req, payload, fault) == if reply.Some? then Done(reply.value, FlatOf(disk)) else Died(FlatOf(disk))
    ensures fault.Faulted? ==>
              && !disk.Dependable() && Possible(FlatOf(disk), readOnly, req, fault) && reply == Some(Reply(EIO, req.handle, []))
  {
    hide LayeredDisk.Framed, Intact, ScratchLayer.Valid;
    FlatShape(disk);
    fault := Fine;
    var r, buf := disk.ReadAt(req.offset, req.length);
    if r == Panicked { return None, Fine; }
    reply := Some(if r == Ok then Reply(0, req.handle, buf) else Reply(EIO, req.handle, []));
    if r != Ok { fault := Faulted(0, false); }
  }

  /** With `output` sent, `consumed` bytes read, the disk at `flat` and the commands so far faring as
      `faults` says, the run is on track: whatever follows, it continues the run from the start. */
  ghost predicate OnTrack(flat0: Flat, readOnly: bool, input: seq<Byte>, faults: seq<Fault>, output: seq<Byte>, consumed: nat, flat: Flat) {
    && flat0.Valid() && flat.Valid() && consumed <= |input|
    && forall rest: seq<Fault> ::
         ServeWith(flat0, readOnly, input, faults + rest) == After(output, consumed, ServeWith(flat, readOnly, input[consumed..], rest))
  }

  // What one command adds.
  lemma OneCommand(flat: Flat, readOnly: bool, input: seq<Byte>, next: Next, f: Fault, rest: seq<Fault>)
    requires flat.Valid() && next.Run? && next == Parse(input)
    ensures var n, e := HEADER + |next.payload|, Act(flat, readOnly, next.req, next.payload, f);
            ServeWith(flat, readOnly, input, [f] + rest) ==
            if e.Died? then Transcript([], e.flat, n, Panic)
            else After(EncodeReply(e.reply), n, ServeWith(e.flat, readOnly, input[n..], rest))
  {
    hide Act, Parse, EncodeReply;
    assert ([f] + rest)[1..] == rest;
  }

  // One round of the loop.
  lemma TrackStep(flat0: Flat, readOnly: bool, input: seq<Byte>, faults: seq<Fault>, output: seq<Byte>, consumed: nat, flat: Flat,
                  next: Next, f: Fault, e: Effect)
    requires OnTrack(flat0, readOnly, input, faults, output, consumed, flat)
    requires next.Run? && next == Parse(input[consumed..]) && e == Act(flat, readOnly, next.req, next.payload, f)
    ensures var n := HEADER + |next.payload|;
            if e.Died?
            then ServeWith(flat0, readOnly, input, faults + [f]) == Transcript(output, e.flat, consumed + n, Panic)
            else OnTrack(flat0, readOnly, input, faults + [f], output + EncodeReply(e.reply), consumed + n, e.flat)
  {
    hide Act, Parse, EncodeReply, ServeWith;
    var n := HEADER + |next.payload|;
    forall rest: seq<Fault>
      ensures ServeWith(flat0, readOnly, input, faults + [f] + rest) ==
              After(output, consumed, ServeWith(flat, readOnly, input[consumed..], [f] + rest))
      ensures ServeWith(flat, readOnly, input[consumed..], [f] + rest) ==
              if e.Died? then Transcript([], e.flat, n, Panic)
              else After(EncodeReply(e.reply), n, ServeWith(e.flat, readOnly, input[consumed + n..], rest))
    {
      assert faults + [f] + rest == faults + ([f] + rest);
      assert input[consumed..][n..] == input[consumed + n..];
      OneCommand(flat, readOnly, input[consumed..], next, f, rest);
    }
    assert faults + [f] + [] == faults + [f];
    if e.Done? {
      forall rest: seq<Fault>
        ensures ServeWith(flat0, readOnly, input, faults + [f] + rest) ==
                After(output + EncodeReply(e.reply), consumed + n, ServeWith(e.flat, readOnly, input[consumed + n..], rest))
      {
        AfterAfter(output, consumed, EncodeReply(e.reply), n, ServeWith(e.flat, readOnly, input[consumed + n..], rest));
      }
    }
  }

  lemma TrackStop(flat0: Flat, readOnly: bool, input: seq<Byte>, faults: seq<Fault>, output: seq<Byte>, consumed: nat, flat: Flat, next: Next)
    requires OnTrack(flat0, readOnly, input, faults, output, consumed, flat)
    requires next.Stop? && next == Parse(input[consumed..])
    ensures ServeWith(flat0, readOnly, input, faults) == Transcript(output, flat, consumed + next.consumed, next.ending)
  {
    hide Parse;
    assert faults + [] == faults;
  }

  lemma TrackStart(flat: Flat, readOnly: bool, input: seq<Byte>)
    requires flat.Valid()
    ensures OnTrack(flat, readOnly, input, [], [], 0, flat)
  {
    hide ServeWith;
    assert input[0..] == input;
    assert forall rest: seq<Fault> :: [] + rest == rest;
  }

  /** The command loop over a layered disk, on any byte stream and any medium, with the block buffer or
      without it: each command fares as `faults` says, up to the end of the stream or a panic. On a medium
      that does not fail, with the buffer, that is the reference disk. */
  method Transmission(disk: LayeredDisk, readOnly: bool, input: seq<Byte>)
    returns (output: seq<Byte>, consumed: nat, ending: Ending, ghost faults: seq<Fault>)
    requires disk.Usable()
    modifies disk`view, disk`blockBuf, disk.scratch
    ensures disk.Usable() && old(FlatOf(disk)).Valid()
    ensures Transcript(output, FlatOf(disk), consumed, ending) == ServeWith(old(FlatOf(disk)), readOnly, input, faults)
    ensures disk.Dependable() ==> AllFine(faults)
    ensures disk.Dependable() && old(disk.Valid()) ==>
              Transcript(output, FlatOf(disk), consumed, ending) == Serve(old(FlatOf(disk)), readOnly, input)
  {
    hide LayeredDisk.Usable, LayeredDisk.Dependable, Act, Parse, Serve, ServeWith, EncodeReply, OnTrack, Possible;
    FlatShape(disk);
    output, consumed, faults := [], 0, [];
    ghost var flat := FlatOf(disk);
    ghost var flat0 := flat;
    TrackStart(flat, readOnly, input);
    var next, died := Parse(input), false;
    assert input[0..] == input;
    while next.Run? && !died
      invariant disk.Usable() && flat == FlatOf(disk) && flat.Valid() && consumed <= |input|
      invariant !died ==> next == Parse(input[consumed..]) && OnTrack(flat0, readOnly, input, faults, output, consumed, flat)
      invariant died ==> ServeWith(flat0, readOnly, input, faults) == Transcript(output, flat, consumed, Panic)
      invariant disk.Dependable() ==> AllFine(faults)
      decreases |input| - consumed, !died
    {
      ghost var fault;
      var reply;
      reply, fault := Command(disk, readOnly, next.req, next.payload);
      ghost var e := Act(flat, readOnly, next.req, next.payload, fault);
      TrackStep(flat0, readOnly, input, faults, output, consumed, flat, next, fault, e);
      flat := FlatOf(disk);
      faults := faults + [fault];
      consumed := consumed + (HEADER + |next.payload|);
      if reply.Some? {
        output := output + EncodeReply(reply.value);
        next := Parse(input[consumed..]);
      } else {
        died := true;
      }
    }
    if died {
      ending := Panic;
    } else {
      TrackStop(flat0, readOnly, input, faults, output, consumed, flat, next);
      consumed, ending := consumed + next.consumed, next.ending;
    }
    if AllFine(faults) && flat0.buffer.Kept? { NoFaults(flat0, readOnly, input, faults); }
  }

  // ---- encoded command lists ---------------------------------------------------------------------

  datatype WireCommand = WireCommand(req: Request, payload: seq<Byte>) {
    /** A command a client may send that the server answers: any but a disconnect or an oversized
        write, with a payload exactly when it is a write. */
    predicate Answerable() {
      && req.Valid() && req.cmd != CMD_DISC
      && (if req.cmd == CMD_WRITE then req.length <= MAX_REQUEST_LEN && |payload| == req.length else payload == [])
    }

    function Encode(): (s: seq<Byte>)
      ensures |s| == HEADER + |payload|
    {
      EncodeRequest(req) + payload
    }
  }

  predicate AllAnswerable(cmds: seq<WireCommand>) {
    forall i :: 0 <= i < |cmds| ==> cmds[i].Answerable()
  }

  function EncodeAll(cmds: seq<WireCommand>): seq<Byte> {
    if cmds == [] then [] else cmds[0].Encode() + EncodeAll(cmds[1..])
  }

  /** The commands run one after the other on the reference disk. */
  function FlatRun(flat: Flat, readOnly: bool, cmds: seq<WireCommand>): (r: (seq<Reply>, Flat))
    requires flat.Valid() && AllAnswerable(cmds)
    ensures r.1.Valid() && |r.0| == |cmds|
    ensures forall i :: 0 <= i < |cmds| ==> r.0[i].handle == cmds[i].req.handle
    decreases |cmds|
  {
    if cmds == [] then ([], flat) else
      var (reply, flat') := Exec(flat, readOnly, cmds[0].req, cmds[0].payload);
      var (replies, flat'') := FlatRun(flat', readOnly, cmds[1..]);
      ([reply] + replies, flat'')
  }

  lemma ParseCommand(c: WireCommand, rest: seq<Byte>)
    requires c.Answerable()
    ensures Parse(c.Encode() + rest) == Run(c.req, c.payload)
    ensures (c.Encode() + rest)[HEADER + |c.payload|..] == rest
  {
    hide EncodeRequest, DecodeRequest;
    var s := c.Encode() + rest;
    assert s == EncodeRequest(c.req) + (c.payload + rest);
    RequestRoundTrip(c.req, c.payload + rest);
    assert s[HEADER..HEADER + |c.payload|] == c.payload;
  }

  /** For every list of commands on the wire and whatever bytes follow, the server reads exactly the
      bytes of the commands, answers each once, in order and with its handle, with the error codes
      and data of the reference disk, and goes on with the bytes that follow. */
  lemma {:induction false} WireRun(flat: Flat, readOnly: bool, cmds: seq<WireCommand>, rest: seq<Byte>)
    requires flat.Valid() && AllAnswerable(cmds)
    ensures var run := FlatRun(flat, readOnly, cmds);
            Serve(flat, readOnly, EncodeAll(cmds) + rest) ==
            After(EncodeReplies(run.0), |EncodeAll(cmds)|, Serve(run.1, readOnly, rest))
    decreases |cmds|
  {
    hide Exec, EncodeReply, Parse, WireCommand.Encode;
    if cmds == [] {
      assert EncodeAll(cmds) + rest == rest;
    } else {
      var c := cmds[0];
      var tail := EncodeAll(cmds[1..]) + rest;
      var s := EncodeAll(cmds) + rest;
      assert s == c.Encode() + tail;
      ParseCommand(c, tail);
      var e := Exec(flat, readOnly, c.req, c.payload);
      WireRun(e.1, readOnly, cmds[1..], rest);
      var run' := FlatRun(e.1, readOnly, cmds[1..]);
      WireRunStep(flat, readOnly, s, c, tail);
      RepliesCons(e.0, run'.0);
      AfterAfter(EncodeReply(e.0), HEADER + |c.payload|, EncodeReplies(run'.0), |EncodeAll(cmds[1..])|,
                 Serve(run'.1, readOnly, rest));
    }
  }

  /** How many bytes of data each command asks for. */
  function Wants(cmds: seq<WireCommand>): (r: seq<nat>)
    ensures |r| == |cmds|
  {
    seq(|cmds|, i requires 0 <= i < |cmds| => if cmds[i].req.cmd == CMD_READ then cmds[i].req.length else 0)
  }

  lemma {:induction false} RunReplies(flat: Flat, readOnly: bool, cmds: seq<WireCommand>, i: nat)
    requires flat.Valid() && AllAnswerable(cmds) && i < |cmds|
    ensures Replies(FlatRun(flat, readOnly, cmds).0[i], Wants(cmds)[i])
    decreases |cmds|
  {
    hide Mutate;
    var e := Exec(flat, readOnly, cmds[0].req, cmds[0].payload);
    assert cmds[0].Answerable();
    if i > 0 {
      RunReplies(e.1, readOnly, cmds[1..], i - 1);
      assert Wants(cmds)[i] == Wants(cmds[1..])[i - 1];
    }
  }

  /** What the client of any command list reads off the wire: for each command its reply on the reference
      disk, in order, and nothing more. */
  lemma ClientSees(flat: Flat, readOnly: bool, cmds: seq<WireCommand>)
    requires flat.Valid() && AllAnswerable(cmds)
    ensures ClientReads(Serve(flat, readOnly, EncodeAll(cmds)).output, Wants(cmds)) == Some((FlatRun(flat, readOnly, cmds).0, []))
  {
    hide Serve, EncodeAll, FlatRun, EncodeReplies, ClientReads, Wants;
    var run := FlatRun(flat, readOnly, cmds);
    WireRun(flat, readOnly, cmds, []);
    assert EncodeAll(cmds) + [] == EncodeAll(cmds);
    assert Serve(run.1, readOnly, []).output == [] by { NothingSent(run.1, readOnly); }
    forall i | 0 <= i < |cmds|
      ensures Replies(run.0[i], Wants(cmds)[i])
    {
      RunReplies(flat, readOnly, cmds, i);
    }
    RepliesRoundTrip(run.0, Wants(cmds), []);
  }

  lemma NothingSent(flat: Flat, readOnly: bool)
    requires flat.Valid()
    ensures Serve(flat, readOnly, []).output == []
  {
    NothingToRead();
  }

  lemma WireRunStep(flat: Flat, readOnly: bool, s: seq<Byte>, c: WireCommand, tail: seq<Byte>)
    requires flat.Valid() && c.Answerable() && s == c.Encode() + tail
    ensures var e := Exec(flat, readOnly, c.req, c.payload);
            Serve(flat, readOnly, s) == After(EncodeReply(e.0), HEADER + |c.payload|, Serve(e.1, readOnly, tail))
  {
    hide Exec, EncodeReply, Parse, WireCommand.Encode;
    ParseCommand(c, tail);
  }

  /** What ends a run of commands: nothing more, a disconnect, or an oversized write; bytes after the
      last two are never read. */
  lemma WireEnds(flat: Flat, readOnly: bool, last: Request, junk: seq<Byte>)
    requires flat.Valid() && last.Valid()
    ensures Serve(flat, readOnly, []) == Transcript([], flat, 0, Hangup)
    ensures last.cmd == CMD_DISC ==>
              Serve(flat, readOnly, EncodeRequest(last) + junk) == Transcript([], flat, HEADER, Disconnect)
    ensures last.cmd == CMD_WRITE && last.length > MAX_REQUEST_LEN ==>
              Serve(flat, readOnly, EncodeRequest(last) + junk) == Transcript([], flat, HEADER, Oversized)
  {
    hide EncodeRequest, DecodeRequest;
    RequestRoundTrip(last, junk);
    assert DecodeRequest([]) == Eof by { NothingToRead(); }
  }

  lemma NothingToRead()
    ensures DecodeRequest([]) == Eof
  {
  }

  lemma ReadOnlyAct(flat: Flat, req: Request, payload: seq<Byte>, f: Fault)
    requires flat.Valid() && (req.cmd == CMD_WRITE ==> |payload| == req.length)
    ensures Act(flat, true, req, payload, f).flat == flat
  {
    hide Mutate, Drifted;
  }

  /** On a read-only export no byte stream changes the disk, whatever the medium does. */
  lemma {:induction false} ReadOnlyKeeps(flat: Flat, input: seq<Byte>, faults: seq<Fault>)
    requires flat.Valid()
    ensures ServeWith(flat, true, input, faults).flat == flat
    decreases |input|
  {
    hide Act, EncodeReply;
    match Parse(input)
    case Stop(_, _) =>
    case Run(req, payload) =>
      var (f, rest) := if faults == [] then (Fine, []) else (faults[0], faults[1..]);
      ReadOnlyAct(flat, req, payload, f);
      ReadOnlyKeeps(flat, input[HEADER + |payload|..], rest);
  }
}
