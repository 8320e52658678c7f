/** One disk behind a mutex, served to any number of connections and sealed live (server.rs).

    The steps are as fine as the code's: a request is parsed and bounds-checked without the lock,
    the lock is taken, the disk is changed one block at a time, the lock is dropped, the reply is
    written. The medium may fail at any block. A thread that panics poisons the lock, and every thread
    that asks for it afterwards panics too. `Linearizable` says that every interleaving of such steps is
    explained by one sequential order of the commands on a flat array.
 */
module Shared {
  import opened Bytes
  import opened Blocks
  import opened Layers
  import opened Stack
  import opened Sealed
  import opened SealedLaws
  import opened Wire
  import opened Server

  /** What does not change while the export is up. */
  datatype Config = Config(g: Geometry, lower: seq<BlockMap>, readOnly: bool, sha: seq<Byte> -> Digest) {
    ghost predicate Valid() {
      g.Valid() && IndexFits(g) && AllSized(lower, g.blockSize)
    }
  }

  datatype Job = Wire(cmd: WireCommand) | Snapshot(parents: seq<Digest>) {
    predicate Valid() {
      match this
      case Wire(cmd) => cmd.Answerable()
      case Snapshot(parents) => |parents| < U16
    }
  }

  datatype Answer = Replied(reply: Reply) | Frozen(file: seq<Byte>) | SealFailed | Panicking

  /** A thread that panics in the middle of a job is `Dead`; one that meets a poisoned lock is `Shut`. */
  datatype Pc =
    | Idle
    | Waiting(job: Job)
    | Holding(job: Job, done: nat, buf: seq<Byte>)
    | Replying(answer: Answer)
    | Dead
    | Shut(job: Job)

  /** A connection, or a caller of `seal_scratch`. */
  datatype Thread = Thread(todo: seq<Job>, pc: Pc, sent: seq<Answer>)

  /** A finished job and how it fared, in the order in which jobs took effect. */
  datatype Entry = Entry(thread: nat, job: Job, answer: Answer, fault: Fault)

  datatype World = World(top: BlockMap, buffer: Buffer, poisoned: bool, lock: Option<nat>, threads: map<nat, Thread>, log: seq<Entry>)

  /** `Fail` is a read, store or sync that fails; it may lose the block buffer. `Release` ends a job; `junk` is
      what a seal finds past the append cursor. */
  datatype Action = Start(t: nat) | Acquire(t: nat) | Work(t: nat) | Fail(t: nat, lost: bool) | Release(t: nat, junk: seq<Byte>) | Send(t: nat)

  // ---- the steps ------------------------------------------------------------------------------------

  /** Whether a job touches the disk; the others are refused without the lock. */
  predicate NeedsLock(c: Config, job: Job) {
    match job
    case Snapshot(_) => true
    case Wire(cmd) =>
      var oob := OutOfBounds(cmd.req.offset, cmd.req.length, c.g.virtualSize);
      if cmd.req.cmd == CMD_READ then cmd.req.length <= MAX_REQUEST_LEN && !oob
      else if cmd.req.cmd == CMD_FLUSH then true
      else Mutates(cmd.req.cmd) && !c.readOnly && !oob
  }

  function Refusal(c: Config, job: Job): Answer
    requires job.Wire?
  {
    var req := job.cmd.req;
    Replied(Reply(if Mutates(req.cmd) && c.readOnly then EPERM else EINVAL, req.handle, []))
  }

  /** How many bytes a job processes block by block under the lock. */
  function Len(job: Job): nat {
    match job
    case Snapshot(_) => 0
    case Wire(cmd) => if cmd.req.cmd == CMD_READ || Mutates(cmd.req.cmd) then cmd.req.length else 0
  }

  /** The bytes a mutation puts at `done..done + n` of its range. */
  function PieceBytes(c: Config, cmd: WireCommand, done: nat, n: nat): (r: seq<Byte>)
    requires c.g.Valid() && AllSized(c.lower, c.g.blockSize) && cmd.Answerable() && Mutates(cmd.req.cmd)
    requires done + n <= cmd.req.length && cmd.req.offset + cmd.req.length <= c.g.virtualSize
    ensures |r| == n
  {
    if cmd.req.cmd == CMD_WRITE then cmd.payload[done..done + n]
    else if cmd.req.cmd == CMD_TRIM then AfterTrim(c.g, Flatten(c.g, c.lower), cmd.req.offset + done, n)
    else Zeros(n)
  }

  /** The overlay after one block of a mutation, as the disk's own pieces leave it. */
  function PieceTop(c: Config, top: BlockMap, cmd: WireCommand, done: nat, n: nat): (r: BlockMap)
    requires c.g.Valid() && AllSized(c.lower, c.g.blockSize) && Sized(top, c.g.blockSize)
    requires cmd.Answerable() && Mutates(cmd.req.cmd) && done + n <= cmd.req.length
    requires cmd.req.offset + cmd.req.length <= c.g.virtualSize && InOneBlock(c.g, cmd.req.offset + done, n)
  {
    var pos, v := cmd.req.offset + done, Flatten(c.g, c.lower + [top]);
    if cmd.req.cmd == CMD_TRIM then TrimmedPiece(c.g, v, top, pos, n)
    else StoredPiece(c.g, v, top, pos, if cmd.req.cmd == CMD_WRITE then cmd.payload[done..done + n] else Zeros(n))
  }

  /** The overlay and the hung blocks after one whole block of a mutation without the block buffer. */
  function DriftPiece(c: Config, top: BlockMap, hung: set<nat>, cmd: WireCommand, done: nat, n: nat): (r: (BlockMap, set<nat>))
    requires c.g.Valid() && cmd.Answerable() && Mutates(cmd.req.cmd) && done + n <= cmd.req.length
  {
    var b := c.g.BlockOf(cmd.req.offset + done);
    if cmd.req.cmd == CMD_WRITE then (StoreAll(top, hung + {b}, cmd.payload[done..done + n]), {})
    else (top - {b}, if cmd.req.cmd == CMD_TRIM then hung - {b} else hung + {b})
  }

  /** The flat array the disk stands for. */
  function FlatNow(c: Config, top: BlockMap, buffer: Buffer): (flat: Flat)
    requires c.g.Valid() && AllSized(c.lower, c.g.blockSize) && Sized(top, c.g.blockSize)
    ensures flat.Valid() && |flat.bytes| == c.g.virtualSize && flat.blockSize == c.g.blockSize && flat.buffer == buffer
  {
    Flat(Flatten(c.g, c.lower + [top]), Flatten(c.g, c.lower), c.g.blockSize, buffer)
  }

  function Put(w: World, t: nat, th: Thread): World {
    w.(threads := w.threads[t := th])
  }

  /** Thread `t` panics with the lock held. */
  function Die(w: World, t: nat, job: Job): World
    requires t in w.threads
  {
    Put(w, t, w.threads[t].(pc := Dead)).(lock := None, poisoned := true, log := w.log + [Entry(t, job, Panicking, Fine)])
  }

  /** Thread `t` ends its job with this answer. */
  function Conclude(w: World, t: nat, job: Job, answer: Answer, fault: Fault): World
    requires t in w.threads
  {
    Put(w, t, w.threads[t].(pc := Replying(answer))).(lock := None, log := w.log + [Entry(t, job, answer, fault)])
  }

  /** One step of thread `t`; a step that is not enabled changes nothing. */
  function Apply(c: Config, w: World, a: Action): World
    requires c.g.Valid() && AllSized(c.lower, c.g.blockSize) && Sized(w.top, c.g.blockSize)
  {
    if a.t !in w.threads then w else
    var th := w.threads[a.t];
    match a
    case Start(t) =>
      if th.pc != Idle || th.todo == [] then w else
      var job := th.todo[0];
      if NeedsLock(c, job) then Put(w, t, Thread(th.todo[1..], Waiting(job), th.sent))
      else
        var answer := Refusal(c, job);
        Put(w, t, Thread(th.todo[1..], Replying(answer), th.sent)).(log := w.log + [Entry(t, job, answer, Fine)])
    case Acquire(t) =>
      if !th.pc.Waiting? || w.lock.Some? then w
      else if w.poisoned then Put(w, t, th.(pc := Shut(th.pc.job)))
      else Put(w, t, th.(pc := Holding(th.pc.job, 0, []))).(lock := Some(t))
    case Work(t) => if th.pc.Holding? then Worked(c, w, t) else w
    case Fail(t, lost) =>
      if !th.pc.Holding? then w else
      var Holding(job, done, buf) := th.pc;
      if job.Snapshot? then Conclude(w, t, job, SealFailed, Fine) else
      var f := Faulted(if Mutates(job.cmd.req.cmd) then done else 0, lost);
      if !Possible(FlatNow(c, w.top, w.buffer), c.readOnly, job.cmd.req, f) then w else
      Conclude(w, t, job, Replied(Reply(EIO, job.cmd.req.handle, [])), f).(buffer := if lost then Gone({}) else w.buffer)
    case Release(t, junk) =>
      if !th.pc.Holding? || th.pc.done < Len(th.pc.job) || |junk| != c.g.blockSize then w else
      Conclude(w, t, th.pc.job, Finish(c, w.top, w.buffer, junk, th.pc.job, th.pc.buf), Fine)
    case Send(t) =>
      if !th.pc.Replying? then w else
      Put(w, t, Thread(th.todo, Idle, th.sent + [th.pc.answer]))
  }

  /** One block of the job of thread `t`. */
  function Worked(c: Config, w: World, t: nat): World
    requires c.g.Valid() && AllSized(c.lower, c.g.blockSize) && Sized(w.top, c.g.blockSize)
    requires t in w.threads && w.threads[t].pc.Holding?
  {
    var th := w.threads[t];
    var Holding(job, done, buf) := th.pc;
    if !job.Wire? || done >= Len(job) || job.cmd.req.offset + job.cmd.req.length > c.g.virtualSize || !job.cmd.Answerable() then w else
    var pos := job.cmd.req.offset + done;
    var n := PieceLen(c.g, pos, Len(job) - done);
    if job.cmd.req.cmd == CMD_READ then
      if w.buffer.Gone? then Die(w, t, job)
      else Put(w, t, th.(pc := Holding(job, done + n, buf + Flatten(c.g, c.lower + [w.top])[pos..pos + n])))
    else if w.buffer.Kept? then
      Put(w, t, th.(pc := Holding(job, done + n, buf))).(top := PieceTop(c, w.top, job.cmd, done, n))
    else if !WholePiece(c.g, pos, n) then Die(w, t, job)
    else
      var (top', hung') := DriftPiece(c, w.top, w.buffer.hung, job.cmd, done, n);
      Put(w, t, th.(pc := Holding(job, done + n, buf))).(top := top', buffer := Gone(hung'))
  }

  function Finish(c: Config, top: BlockMap, buffer: Buffer, junk: seq<Byte>, job: Job, buf: seq<Byte>): Answer {
    match job
    case Snapshot(parents) => Frozen(SealFile(c.sha, c.g, parents, StoreAll(top, buffer.Hung(), junk)))
    case Wire(cmd) => Replied(Reply(0, cmd.req.handle, if cmd.req.cmd == CMD_READ then buf else []))
  }

  // ---- a piece of a mutation ---------------------------------------------------------------------------

  lemma PieceSplices(c: Config, top: BlockMap, cmd: WireCommand, done: nat, n: nat)
    requires c.Valid() && Sized(top, c.g.blockSize) && (forall b :: b in top ==> b < c.g.BlockCount())
    requires cmd.Answerable() && Mutates(cmd.req.cmd) && done + n <= cmd.req.length
    requires cmd.req.offset + cmd.req.length <= c.g.virtualSize && InOneBlock(c.g, cmd.req.offset + done, n)
    ensures var top' := PieceTop(c, top, cmd, done, n);
            && Sized(top', c.g.blockSize) && (forall b :: b in top' ==> b < c.g.BlockCount())
            && Flatten(c.g, c.lower + [top']) ==
               Splice(Flatten(c.g, c.lower + [top]), cmd.req.offset + done, PieceBytes(c, cmd, done, n))
  {
    hide Flatten, StoredPiece, Splice, Geometry.Valid, Geometry.BlockOf, Geometry.BlockOffset, Geometry.Start;
    hide IndexFits, BlockBytes, Geometry.BlockCount;
    var pos := cmd.req.offset + done;
    if cmd.req.cmd == CMD_TRIM && WholePiece(c.g, pos, n) {
      ForgottenSplices(c, top, pos);
    } else {
      StoredSplices(c, top, pos, if cmd.req.cmd == CMD_WRITE then cmd.payload[done..done + n] else Zeros(n));
    }
  }

  // A forgotten block splices the lower layers into the view.
  lemma ForgottenSplices(c: Config, top: BlockMap, pos: nat)
    requires c.Valid() && Sized(top, c.g.blockSize) && (forall b :: b in top ==> b < c.g.BlockCount())
    requires c.g.BlockOffset(pos) == 0 && pos + c.g.blockSize <= c.g.virtualSize
    ensures var top' := top - {c.g.BlockOf(pos)};
            && Sized(top', c.g.blockSize) && (forall b :: b in top' ==> b < c.g.BlockCount())
            && AllSized(c.lower + [top], c.g.blockSize) && AllSized(c.lower + [top'], c.g.blockSize)
            && Flatten(c.g, c.lower + [top']) ==
               Splice(Flatten(c.g, c.lower + [top]), pos, Flatten(c.g, c.lower)[pos..pos + c.g.blockSize])
  {
    hide Flatten, Splice, IndexFits, Geometry.BlockCount;
    assert pos == c.g.BlockOf(pos) * c.g.blockSize;
    hide Geometry.BlockOf;
    ForgetSplices(c.g, c.lower, top, c.g.BlockOf(pos));
  }

  // A stored piece splices its bytes into the view.
  lemma StoredSplices(c: Config, top: BlockMap, pos: nat, bytes: seq<Byte>)
    requires c.Valid() && Sized(top, c.g.blockSize) && (forall b :: b in top ==> b < c.g.BlockCount())
    requires InOneBlock(c.g, pos, |bytes|)
    ensures var v := Flatten(c.g, c.lower + [top]);
            var top' := StoredPiece(c.g, v, top, pos, bytes);
            && Sized(top', c.g.blockSize) && (forall b :: b in top' ==> b < c.g.BlockCount())
            && Flatten(c.g, c.lower + [top']) == Splice(v, pos, bytes)
  {
    hide Flatten, Resolve, Splice, Geometry.Valid, Geometry.BlockOf, Geometry.BlockOffset, IndexFits, BlockBytes;
    var b, ib := c.g.BlockOf(pos), c.g.BlockOffset(pos);
    BlockFits(c.g, pos);
    BlockIsSlice(c.g, c.lower + [top], b);
    BlockBytesIs(c.g, Flatten(c.g, c.lower + [top]), b);
    StoreSplices(c.g, c.lower, top, b, ib, bytes, Splice(Resolve(c.lower + [top], b, c.g.blockSize), ib, bytes));
  }

  lemma BlockBytesIs(g: Geometry, v: seq<Byte>, b: nat)
    requires g.Start(b) + g.blockSize <= |v|
    ensures BlockBytes(g, v, b) == v[b * g.blockSize..b * g.blockSize + g.blockSize]
  {
  }

  // ---- the sequential explanation --------------------------------------------------------------------------

  predicate JobsValid(log: seq<Entry>) {
    forall i :: 0 <= i < |log| ==> log[i].job.Valid()
  }

  /** The flat array after the finished jobs, one after the other. Snapshots change nothing. */
  function FlatAfter(c: Config, flat0: Flat, log: seq<Entry>): (flat: Flat)
    requires flat0.Valid() && JobsValid(log)
    ensures flat.Valid() && |flat.bytes| == |flat0.bytes| && flat.base == flat0.base && flat.blockSize == flat0.blockSize
  {
    if log == [] then flat0 else
      var flat := FlatAfter(c, flat0, log[..|log| - 1]);
      match log[|log| - 1].job
      case Wire(cmd) => Act(flat, c.readOnly, cmd.req, cmd.payload, log[|log| - 1].fault).flat
      case Snapshot(_) => flat
  }

  /** `file` is a layer over exactly these parents, under the content id of what it holds, that shows
      `bytes` when opened over the same lower layers. */
  ghost predicate SealShows(c: Config, file: seq<Byte>, parents: seq<Digest>, bytes: seq<Byte>)
    requires c.Valid()
  {
    var r := OpenSpec(file);
    && r.Success? && r.value.Sealed? && r.value.geometry == c.g && r.value.parents == parents
    && r.value.contentId == ContentId(c.sha, c.g, parents, r.value.Blocks())
    && Flatten(c.g, c.lower + [r.value.Blocks()]) == bytes
  }

  /** The job, run on `flat` at once and faring as `f` says, would have given the answer it was given. A
      snapshot is over the parents it was asked for and shows the array, except where blocks were stored
      as nothing. */
  ghost predicate Explains(c: Config, flat: Flat, job: Job, answer: Answer, f: Fault)
    requires c.Valid() && flat.Valid() && job.Valid()
  {
    match job
    case Wire(cmd) =>
      var e := Act(flat, c.readOnly, cmd.req, cmd.payload, f);
      answer == if e.Done? then Replied(e.reply) else Panicking
    case Snapshot(parents) =>
      answer == SealFailed
      || (answer.Frozen? && exists junk: seq<Byte> ::
            |junk| == flat.blockSize && SealShows(c, answer.file, parents, Overlaid(flat.bytes, flat.blockSize, flat.buffer.Hung(), junk)))
  }

  ghost predicate AllExplained(c: Config, flat0: Flat, log: seq<Entry>)
    requires c.Valid() && flat0.Valid() && JobsValid(log)
  {
    log != [] ==>
      && AllExplained(c, flat0, log[..|log| - 1])
      && Explains(c, FlatAfter(c, flat0, log[..|log| - 1]), log[|log| - 1].job, log[|log| - 1].answer, log[|log| - 1].fault)
  }

  /** The entries of one thread, in order. */
  function Of(log: seq<Entry>, t: nat): seq<Entry> {
    if log == [] then [] else
      Of(log[..|log| - 1], t) + if log[|log| - 1].thread == t then [log[|log| - 1]] else []
  }

  function Jobs(log: seq<Entry>): seq<Job> { seq(|log|, i requires 0 <= i < |log| => log[i].job) }
  function Answers(log: seq<Entry>): seq<Answer> { seq(|log|, i requires 0 <= i < |log| => log[i].answer) }

  function Current(pc: Pc): seq<Job> { if pc.Waiting? || pc.Holding? || pc.Shut? then [pc.job] else [] }

  function Pending(pc: Pc): seq<Answer> { if pc.Replying? then [pc.answer] else if pc.Dead? then [Panicking] else [] }

  /** A thread has finished exactly a prefix of its jobs, in its own order, and has sent (or is about
      to send) exactly their answers. */
  predicate Story(th0: Thread, th: Thread, mine: seq<Entry>) {
    && th0.todo == Jobs(mine) + Current(th.pc) + th.todo
    && Answers(mine) == th.sent + Pending(th.pc)
  }

  // ---- the invariant --------------------------------------------------------------------------------------

  function View(c: Config, top: BlockMap): seq<Byte>
    requires c.g.Valid() && AllSized(c.lower, c.g.blockSize) && Sized(top, c.g.blockSize)
  {
    Flatten(c.g, c.lower + [top])
  }

  function Flat0(c: Config, w0: World): (flat: Flat)
    requires c.g.Valid() && AllSized(c.lower, c.g.blockSize) && Sized(w0.top, c.g.blockSize)
    ensures flat.Valid() && |flat.bytes| == c.g.virtualSize && flat.base == Flatten(c.g, c.lower) && flat.blockSize == c.g.blockSize
  {
    FlatNow(c, w0.top, w0.buffer)
  }

  /** What a half-done job has made of the array `flat` it started from. */
  function Partial(flat: Flat, job: Job, done: nat): (r: Flat)
    requires flat.Valid() && job.Valid() && done <= Len(job)
    requires job.Wire? && Mutates(job.cmd.req.cmd) ==> job.cmd.req.offset + job.cmd.req.length <= |flat.bytes|
  {
    match job
    case Snapshot(_) => flat
    case Wire(cmd) => Partly(flat, cmd.req, cmd.payload, done)
  }

  ghost predicate Mid(c: Config, flat: Flat, top: BlockMap, buffer: Buffer, job: Job, done: nat, buf: seq<Byte>)
    requires c.Valid() && flat.Valid() && |flat.bytes| == c.g.virtualSize && Sized(top, c.g.blockSize)
  {
    && job.Valid() && NeedsLock(c, job) && done <= Len(job)
    && FlatNow(c, top, buffer) == Partial(flat, job, done)
    && (job.Wire? ==> Halfway(c.g, job.cmd.req.offset, Len(job), true, done))
    && (job.Wire? && Mutates(job.cmd.req.cmd) && buffer.Gone? ==> Led(c.g.blockSize, job.cmd.req.offset, Len(job), done, true))
    && (job.Wire? && job.cmd.req.cmd == CMD_READ ==>
          && buf == flat.bytes[job.cmd.req.offset..job.cmd.req.offset + done]
          && (buffer.Gone? ==> done == 0))
  }

  ghost predicate DiskOk(c: Config, flat0: Flat, w: World)
    requires c.Valid() && flat0.Valid() && |flat0.bytes| == c.g.virtualSize
    requires Sized(w.top, c.g.blockSize) && JobsValid(w.log)
  {
    var flat := FlatAfter(c, flat0, w.log);
    match w.lock
    case None => FlatNow(c, w.top, w.buffer) == flat
    case Some(t) =>
      && t in w.threads && w.threads[t].pc.Holding?
      && Mid(c, flat, w.top, w.buffer, w.threads[t].pc.job, w.threads[t].pc.done, w.threads[t].pc.buf)
  }

  predicate TopOk(c: Config, top: BlockMap, buffer: Buffer)
    requires c.g.Valid()
  {
    && Sized(top, c.g.blockSize) && (forall b :: b in top ==> b < c.g.BlockCount())
    && forall b :: b in buffer.Hung() ==> b < c.g.BlockCount()
  }

  predicate ThreadOk(c: Config, th0: Thread, th: Thread, log: seq<Entry>, lock: Option<nat>, t: nat) {
    && Story(th0, th, Of(log, t))
    && (th.pc.Holding? ==> lock == Some(t))
    && (th.pc.Waiting? ==> th.pc.job.Valid() && NeedsLock(c, th.pc.job))
    && (forall i :: 0 <= i < |th.todo| ==> th.todo[i].Valid())
  }

  ghost predicate LinearInv(c: Config, w0: World, w: World)
    requires c.Valid() && TopOk(c, w0.top, w0.buffer)
  {
    && TopOk(c, w.top, w.buffer) && JobsValid(w.log)
    && w.threads.Keys == w0.threads.Keys
    && DiskOk(c, Flat0(c, w0), w)
    && AllExplained(c, Flat0(c, w0), w.log)
    && forall t :: t in w.threads ==> ThreadOk(c, w0.threads[t], w.threads[t], w.log, w.lock, t)
  }

  ghost predicate Initial(c: Config, w: World)
    requires c.Valid()
  {
    && TopOk(c, w.top, w.buffer) && w.lock == None && !w.poisoned && w.log == []
    && forall t :: t in w.threads ==>
         && w.threads[t].pc == Idle && w.threads[t].sent == []
         && forall i :: 0 <= i < |w.threads[t].todo| ==> w.threads[t].todo[i].Valid()
  }

  // ---- the invariant is kept ----------------------------------------------------------------------------------

  lemma LogGrows(c: Config, flat0: Flat, log: seq<Entry>, e: Entry)
    requires c.Valid() && flat0.Valid() && JobsValid(log) && e.job.Valid()
    requires AllExplained(c, flat0, log) && Explains(c, FlatAfter(c, flat0, log), e.job, e.answer, e.fault)
    ensures JobsValid(log + [e]) && AllExplained(c, flat0, log + [e])
    ensures e.job.Snapshot? ==> FlatAfter(c, flat0, log + [e]) == FlatAfter(c, flat0, log)
    ensures e.job.Wire? ==>
              FlatAfter(c, flat0, log + [e]) == Act(FlatAfter(c, flat0, log), c.readOnly, e.job.cmd.req, e.job.cmd.payload, e.fault).flat
  {
    assert (log + [e])[..|log|] == log;
  }

  lemma OfGrows(log: seq<Entry>, e: Entry, t: nat)
    ensures Of(log + [e], t) == Of(log, t) + if e.thread == t then [e] else []
  {
    assert (log + [e])[..|log|] == log;
  }

  lemma StoryGrows(th0: Thread, th: Thread, mine: seq<Entry>, e: Entry, th': Thread)
    requires Story(th0, th, mine)
    requires Current(th.pc) + th.todo == [e.job] + (Current(th'.pc) + th'.todo)
    requires Pending(th.pc) == [] && Pending(th'.pc) == [e.answer] && th'.sent == th.sent
    ensures Story(th0, th', mine + [e])
  {
    assert Jobs(mine + [e]) == Jobs(mine) + [e.job];
    assert Answers(mine + [e]) == Answers(mine) + [e.answer];
    assert th0.todo == Jobs(mine) + (Current(th.pc) + th.todo);
    assert th0.todo == Jobs(mine) + [e.job] + (Current(th'.pc) + th'.todo);
  }

  // A step of one thread that logs at most one entry, of its own, leaves the other threads' stories alone.
  lemma OthersKept(c: Config, w0: World, w: World, log': seq<Entry>, lock': Option<nat>, t: nat, u: nat)
    requires u in w.threads && u in w0.threads && u != t
    requires ThreadOk(c, w0.threads[u], w.threads[u], w.log, w.lock, u)
    requires w.threads[u].pc.Holding? ==> lock' == Some(u)
    requires log' == w.log || (|log'| == |w.log| + 1 && log'[..|w.log|] == w.log && log'[|w.log|].thread == t)
    ensures ThreadOk(c, w0.threads[u], w.threads[u], log', lock', u)
  {
    if log' != w.log {
      assert log' == w.log + [log'[|w.log|]];
      OfGrows(w.log, log'[|w.log|], u);
    }
  }

  /** `w'` differs from `w` in thread `t`, in at most one new log entry of `t`, and in disk and lock. */
  predicate OnlyThread(w: World, w': World, t: nat) {
    && t in w.threads && t in w'.threads && w'.threads == w.threads[t := w'.threads[t]]
    && (w'.log == w.log || (|w'.log| == |w.log| + 1 && w'.log[..|w.log|] == w.log && w'.log[|w.log|].thread == t))
    && (forall u :: u in w.threads && u != t && w.threads[u].pc.Holding? ==> w'.lock == Some(u))
  }

  lemma Rebuild(c: Config, w0: World, w: World, w': World, t: nat)
    requires c.Valid() && TopOk(c, w0.top, w0.buffer) && LinearInv(c, w0, w) && OnlyThread(w, w', t)
    requires TopOk(c, w'.top, w'.buffer) && JobsValid(w'.log)
    requires ThreadOk(c, w0.threads[t], w'.threads[t], w'.log, w'.lock, t)
    requires DiskOk(c, Flat0(c, w0), w') && AllExplained(c, Flat0(c, w0), w'.log)
    ensures LinearInv(c, w0, w')
  {
    hide DiskOk, AllExplained, ThreadOk, Config.Valid, TopOk, JobsValid, Flat0;
    assert w'.threads.Keys == w.threads.Keys;
    forall u | u in w'.threads
      ensures ThreadOk(c, w0.threads[u], w'.threads[u], w'.log, w'.lock, u)
    {
      if u != t { OthersKept(c, w0, w, w'.log, w'.lock, t, u); }
    }
  }

  // ---- refusals -------------------------------------------------------------------------------------------------

  lemma RefusalExplained(c: Config, flat: Flat, job: Job)
    requires c.Valid() && flat.Valid() && |flat.bytes| == c.g.virtualSize && job.Valid() && !NeedsLock(c, job)
    ensures job.Wire? && Explains(c, flat, job, Refusal(c, job), Fine)
    ensures Act(flat, c.readOnly, job.cmd.req, job.cmd.payload, Fine).flat == flat
  {
    hide Act, Config.Valid;
    RefusedActs(flat, c.readOnly, job.cmd.req, job.cmd.payload);
  }

  // The lock holder, if any, is not disturbed when the log grows without changing the array.
  lemma DiskKept(c: Config, flat0: Flat, w: World, w': World)
    requires c.Valid() && flat0.Valid() && |flat0.bytes| == c.g.virtualSize
    requires Sized(w.top, c.g.blockSize) && JobsValid(w.log) && JobsValid(w'.log)
    requires DiskOk(c, flat0, w) && w'.top == w.top && w'.buffer == w.buffer && w'.lock == w.lock
    requires FlatAfter(c, flat0, w'.log) == FlatAfter(c, flat0, w.log)
    requires w.lock.Some? ==> w.lock.value in w'.threads && w'.threads[w.lock.value] == w.threads[w.lock.value]
    ensures DiskOk(c, flat0, w')
  {
    hide FlatAfter, Mid, FlatNow, Config.Valid;
  }

  lemma StartKeeps(c: Config, w0: World, w: World, t: nat)
    requires c.Valid() && TopOk(c, w0.top, w0.buffer) && LinearInv(c, w0, w)
    ensures LinearInv(c, w0, Apply(c, w, Start(t)))
  {
    hide LinearInv, Refusal, NeedsLock, IndexFits, Geometry.Valid, AllSized;
    InvTop(c, w0, w);
    if t in w.threads && w.threads[t].pc == Idle && w.threads[t].todo != [] {
      if NeedsLock(c, w.threads[t].todo[0]) {
        QueueKeeps(c, w0, w, t, Apply(c, w, Start(t)));
      } else {
        RefuseKeeps(c, w0, w, t, Apply(c, w, Start(t)));
      }
    }
  }

  lemma InvTop(c: Config, w0: World, w: World)
    requires c.Valid() && TopOk(c, w0.top, w0.buffer) && LinearInv(c, w0, w)
    ensures TopOk(c, w.top, w.buffer)
  {
  }

  lemma QueueKeeps(c: Config, w0: World, w: World, t: nat, w': World)
    requires c.Valid() && TopOk(c, w0.top, w0.buffer) && LinearInv(c, w0, w)
    requires t in w.threads && w.threads[t].pc == Idle && w.threads[t].todo != [] && NeedsLock(c, w.threads[t].todo[0])
    requires w' == Put(w, t, Thread(w.threads[t].todo[1..], Waiting(w.threads[t].todo[0]), w.threads[t].sent))
    ensures LinearInv(c, w0, w')
  {
    hide FlatAfter, AllExplained, Of, Story, FlatNow, Mid, NeedsLock, Flat0, IndexFits, Geometry.Valid, AllSized;
    var th, job := w.threads[t], w.threads[t].todo[0];
    assert ThreadOk(c, w0.threads[t], th, w.log, w.lock, t);
    assert th.todo == [job] + th.todo[1..];
    StoryMoves(w0.threads[t], th, Of(w.log, t), w'.threads[t]);
    DiskKept(c, Flat0(c, w0), w, w');
    Rebuild(c, w0, w, w', t);
  }

  lemma RefuseKeeps(c: Config, w0: World, w: World, t: nat, w': World)
    requires c.Valid() && TopOk(c, w0.top, w0.buffer) && LinearInv(c, w0, w)
    requires t in w.threads && w.threads[t].pc == Idle && w.threads[t].todo != []
    requires var th, job := w.threads[t], w.threads[t].todo[0];
             !NeedsLock(c, job) && w' == Put(w, t, Thread(th.todo[1..], Replying(Refusal(c, job)), th.sent)).(log := w.log + [Entry(t, job, Refusal(c, job), Fine)])
    ensures LinearInv(c, w0, w')
  {
    hide Explains, FlatAfter, AllExplained, Of, Story, FlatNow, Mid, Refusal, NeedsLock, Flat0, IndexFits;
    hide Geometry.Valid, AllSized, Act;
    var th, job, flat0 := w.threads[t], w.threads[t].todo[0], Flat0(c, w0);
    assert ThreadOk(c, w0.threads[t], th, w.log, w.lock, t);
    assert th.todo == [job] + th.todo[1..];
    RefusalExplained(c, FlatAfter(c, flat0, w.log), job);
    var e := Entry(t, job, Refusal(c, job), Fine);
    LogGrows(c, flat0, w.log, e);
    OfGrows(w.log, e, t);
    StoryGrows(w0.threads[t], th, Of(w.log, t), e, w'.threads[t]);
    DiskKept(c, flat0, w, w');
    Rebuild(c, w0, w, w', t);
  }

  lemma StoryMoves(th0: Thread, th: Thread, mine: seq<Entry>, th': Thread)
    requires Story(th0, th, mine)
    requires Current(th'.pc) + th'.todo == Current(th.pc) + th.todo
    requires th'.sent + Pending(th'.pc) == th.sent + Pending(th.pc)
    ensures Story(th0, th', mine)
  {
    assert Jobs(mine) + Current(th.pc) + th.todo == Jobs(mine) + (Current(th.pc) + th.todo);
    assert Jobs(mine) + Current(th'.pc) + th'.todo == Jobs(mine) + (Current(th'.pc) + th'.todo);
  }

  lemma SendKeeps(c: Config, w0: World, w: World, t: nat)
    requires c.Valid() && TopOk(c, w0.top, w0.buffer) && LinearInv(c, w0, w)
    ensures LinearInv(c, w0, Apply(c, w, Send(t)))
  {
    hide Explains, FlatAfter, AllExplained, Of, Story, FlatNow, Mid, Worked, Finish, Refusal, NeedsLock, Flat0;
    hide IndexFits, Geometry.Valid, AllSized, Act, Possible;
    var w' := Apply(c, w, Send(t));
    if t in w.threads && w.threads[t].pc.Replying? {
      var th := w.threads[t];
      assert ThreadOk(c, w0.threads[t], th, w.log, w.lock, t);
      assert (th.sent + [th.pc.answer]) + [] == th.sent + [th.pc.answer];
      StoryMoves(w0.threads[t], th, Of(w.log, t), w'.threads[t]);
      DiskKept(c, Flat0(c, w0), w, w');
      Rebuild(c, w0, w, w', t);
    }
  }

  lemma PartlyNothing(flat: Flat, req: Request, payload: seq<Byte>)
    requires flat.Valid() && !OutOfBounds(req.offset, req.length, |flat.bytes|) && (req.cmd == CMD_WRITE ==> |payload| == req.length)
    ensures Partly(flat, req, payload, 0) == flat
  {
    SpliceNothing(flat.bytes, req.offset);
    TrimNothing(flat.bytes, flat.base, flat.blockSize, req.offset);
    CoversNothing(flat.blockSize, req.offset);
  }

  lemma MidStarts(c: Config, flat: Flat, top: BlockMap, buffer: Buffer, job: Job)
    requires c.Valid() && flat.Valid() && |flat.bytes| == c.g.virtualSize && Sized(top, c.g.blockSize)
    requires job.Valid() && NeedsLock(c, job) && FlatNow(c, top, buffer) == flat
    ensures Mid(c, flat, top, buffer, job, 0, [])
  {
    hide FlatNow, Partly, IndexFits, Geometry.Valid;
    if job.Wire? {
      var req := job.cmd.req;
      HalfwayStart(c.g, req.offset, Len(job));
      if Mutates(req.cmd) { PartlyNothing(flat, req, job.cmd.payload); } else { Unchanging(flat, req, job.cmd.payload, 0); }
    }
  }

  lemma Unchanging(flat: Flat, req: Request, payload: seq<Byte>, done: nat)
    requires flat.Valid() && !Mutates(req.cmd)
    ensures Partly(flat, req, payload, done) == flat
  {
  }

  lemma AcquireKeeps(c: Config, w0: World, w: World, t: nat)
    requires c.Valid() && TopOk(c, w0.top, w0.buffer) && LinearInv(c, w0, w)
    ensures LinearInv(c, w0, Apply(c, w, Acquire(t)))
  {
    hide Explains, FlatAfter, AllExplained, Of, Story, FlatNow, Mid, Worked, Finish, Refusal, NeedsLock, Flat0;
    hide IndexFits, Geometry.Valid, AllSized, Act, Possible;
    var w' := Apply(c, w, Acquire(t));
    var flat0 := Flat0(c, w0);
    if t in w.threads && w.threads[t].pc.Waiting? && w.lock.None? {
      var th := w.threads[t];
      assert ThreadOk(c, w0.threads[t], th, w.log, w.lock, t);
      assert forall u :: u in w.threads ==> ThreadOk(c, w0.threads[u], w.threads[u], w.log, w.lock, u);
      StoryMoves(w0.threads[t], th, Of(w.log, t), w'.threads[t]);
      if w.poisoned {
        DiskKept(c, flat0, w, w');
      } else {
        MidStarts(c, FlatAfter(c, flat0, w.log), w.top, w.buffer, th.pc.job);
      }
      Rebuild(c, w0, w, w', t);
    }
  }

  // ---- work under the lock ------------------------------------------------------------------------------------------

  // With the block buffer: one more piece of a mutation on the flat array.
  lemma PartlyMore(c: Config, flat: Flat, cmd: WireCommand, done: nat, n: nat)
    requires c.Valid() && flat.Valid() && |flat.bytes| == c.g.virtualSize && flat.buffer.Kept?
    requires flat.base == Flatten(c.g, c.lower) && flat.blockSize == c.g.blockSize
    requires cmd.Answerable() && Mutates(cmd.req.cmd) && done < cmd.req.length && cmd.req.offset + cmd.req.length <= c.g.virtualSize
    requires n == PieceLen(c.g, cmd.req.offset + done, cmd.req.length - done)
    requires Halfway(c.g, cmd.req.offset, cmd.req.length, true, done)
    ensures Partly(flat, cmd.req, cmd.payload, done + n) ==
            var now := Partly(flat, cmd.req, cmd.payload, done);
            now.(bytes := Splice(now.bytes, cmd.req.offset + done, PieceBytes(c, cmd, done, n)))
  {
    hide Flatten, Splice, Trimmed, PieceLen, Halfway, IndexFits, Geometry.Valid, AllSized, AfterTrim;
    var req := cmd.req;
    if req.cmd == CMD_WRITE {
      SpliceMore(flat.bytes, req.offset, cmd.payload, done, n);
    } else if req.cmd == CMD_TRIM {
      TrimMore(c.g, flat.bytes, flat.base, req.offset, req.length, done, n);
    } else {
      ZerosMore(flat.bytes, req.offset, req.length, done, n);
    }
  }

  lemma ZerosMore(v: seq<Byte>, offset: nat, len: nat, done: nat, n: nat)
    requires done + n <= len && offset + len <= |v|
    ensures Splice(Splice(v, offset, Zeros(done)), offset + done, Zeros(n)) == Splice(v, offset, Zeros(done + n))
  {
    assert Zeros(len)[..done] == Zeros(done) && Zeros(len)[done..done + n] == Zeros(n) && Zeros(len)[..done + n] == Zeros(done + n);
    SpliceMore(v, offset, Zeros(len), done, n);
  }

  // Without it: the next piece is a whole block.
  lemma LeadPiece(g: Geometry, offset: nat, len: nat, done: nat)
    requires g.Valid() && offset + len <= g.virtualSize && done < len && Led(g.blockSize, offset, len, done, true)
    ensures var n := PieceLen(g, offset + done, len - done);
            && (WholePiece(g, offset + done, n) <==> done < Lead(g.blockSize, offset, len))
            && (WholePiece(g, offset + done, n) ==> Led(g.blockSize, offset, len, done + n, true))
  {
    var bs := g.blockSize;
    DivMod(offset, bs);
    DivMod(done, bs);
    DivMod(len, bs);
    if offset % bs == 0 {
      var b := offset / bs + done / bs;
      assert offset + done == b * bs;
      InBlock(offset + done, b, bs);
      assert g.BlockOffset(offset + done) == 0;
      LeadAt(bs, len, done);
      if len - done >= bs {
        InBlock(done + bs, done / bs + 1, bs);
        LeadAt(bs, len, done + bs);
      }
    } else {
      assert done == 0 && g.BlockOffset(offset + done) == offset % bs;
    }
  }

  // One whole block of a mutation without the block buffer, on the flat array.
  lemma DriftMore(c: Config, flat: Flat, cmd: WireCommand, done: nat, n: nat)
    requires c.Valid() && flat.Valid() && |flat.bytes| == c.g.virtualSize && flat.buffer.Gone?
    requires flat.base == Flatten(c.g, c.lower) && flat.blockSize == c.g.blockSize
    requires cmd.Answerable() && Mutates(cmd.req.cmd) && done + n <= cmd.req.length && cmd.req.offset + cmd.req.length <= c.g.virtualSize
    requires WholePiece(c.g, cmd.req.offset + done, n) && Halfway(c.g, cmd.req.offset, cmd.req.length, true, done)
    ensures var now, next := Partly(flat, cmd.req, cmd.payload, done), Partly(flat, cmd.req, cmd.payload, done + n);
            var pos, b := cmd.req.offset + done, c.g.BlockOf(cmd.req.offset + done);
            if cmd.req.cmd == CMD_WRITE then
              next == now.(bytes := Splice(Overlaid(now.bytes, c.g.blockSize, now.buffer.hung, cmd.payload[done..done + n]), pos, cmd.payload[done..done + n]),
                            buffer := Gone({}))
            else next == now.(bytes := Splice(now.bytes, pos, Flatten(c.g, c.lower)[pos..pos + n]),
                               buffer := Gone(if cmd.req.cmd == CMD_TRIM then now.buffer.hung - {b} else now.buffer.hung + {b}))
  {
    hide Flatten, Splice, Trimmed, Halfway, IndexFits, AllSized, AfterWrite, Overlaid, Covers, Geometry.BlockOf;
    hide Geometry.BlockOffset;
    var req := cmd.req;
    if req.cmd == CMD_WRITE {
      AfterWriteMore(c.g.blockSize, flat.bytes, flat.buffer.hung, req.offset, cmd.payload, done, n);
    } else {
      TrimMore(c.g, flat.bytes, flat.base, req.offset, req.length, done, n);
      CoversPiece(c.g, req.offset, req.length, done, n);
    }
  }

  // The same on the overlay.
  lemma DriftShows(c: Config, top: BlockMap, hung: set<nat>, cmd: WireCommand, done: nat, n: nat)
    requires c.Valid() && TopOk(c, top, Gone(hung))
    requires cmd.Answerable() && Mutates(cmd.req.cmd) && done + n <= cmd.req.length && cmd.req.offset + cmd.req.length <= c.g.virtualSize
    requires WholePiece(c.g, cmd.req.offset + done, n)
    ensures var (top', hung') := DriftPiece(c, top, hung, cmd, done, n);
            var pos, v := cmd.req.offset + done, Flatten(c.g, c.lower + [top]);
            && TopOk(c, top', Gone(hung'))
            && Flatten(c.g, c.lower + [top']) ==
               if cmd.req.cmd == CMD_WRITE then Splice(Overlaid(v, c.g.blockSize, hung, cmd.payload[done..done + n]), pos, cmd.payload[done..done + n])
               else Splice(v, pos, Flatten(c.g, c.lower)[pos..pos + n])
  {
    hide Flatten, Splice, Overlaid, IndexFits, Geometry.BlockCount, Geometry.BlockOf, StoreAll, AllSized;
    var pos := cmd.req.offset + done;
    BlockFits(c.g, pos);
    assert Gone(hung).Hung() == hung;
    if cmd.req.cmd == CMD_WRITE {
      DriftStores(c, top, hung, pos, cmd.payload[done..done + n]);
    } else {
      ForgottenSplices(c, top, pos);
      var r := DriftPiece(c, top, hung, cmd, done, n);
      assert forall q :: q in Gone(r.1).Hung() ==> q in Gone(hung).Hung() || q == c.g.BlockOf(pos);
    }
  }

  lemma DriftStores(c: Config, top: BlockMap, hung: set<nat>, pos: nat, payload: seq<Byte>)
    requires c.Valid() && TopOk(c, top, Gone(hung)) && WholePiece(c.g, pos, |payload|) && pos + |payload| <= c.g.virtualSize
    ensures var top' := StoreAll(top, hung + {c.g.BlockOf(pos)}, payload);
            && TopOk(c, top', Gone({})) && AllSized(c.lower + [top], c.g.blockSize)
            && Flatten(c.g, c.lower + [top']) == Splice(Overlaid(Flatten(c.g, c.lower + [top]), c.g.blockSize, hung, payload), pos, payload)
  {
    hide Flatten, Splice, Overlaid, IndexFits, Geometry.BlockCount, Geometry.BlockOf;
    var b := c.g.BlockOf(pos);
    BlockFits(c.g, pos);
    assert pos == b * c.g.blockSize;
    var top' := StoreAll(top, hung + {b}, payload);
    assert Gone(hung).Hung() == hung;
    assert forall q :: q in top' ==> q in top || q in Gone(hung).Hung() || q == b;
    StoreAllSized(top, hung + {b}, payload, c.g.blockSize);
    StoreAllOverlays(c.g, c.lower, top, hung + {b}, payload);
    OverlayOneMore(Flatten(c.g, c.lower + [top]), c.g.blockSize, hung, b, payload);
  }

  // A job in progress.
  lemma MidJob(c: Config, flat: Flat, top: BlockMap, buffer: Buffer, job: Job, done: nat, buf: seq<Byte>)
    requires c.Valid() && flat.Valid() && |flat.bytes| == c.g.virtualSize && Sized(top, c.g.blockSize)
    requires Mid(c, flat, top, buffer, job, done, buf)
    ensures job.Valid() && NeedsLock(c, job) && done <= Len(job) && (buffer.Kept? <==> flat.buffer.Kept?)
    ensures job.Wire? ==> job.cmd.Answerable() && Halfway(c.g, job.cmd.req.offset, Len(job), true, done)
    ensures job.Wire? && Len(job) > 0 ==> job.cmd.req.offset + job.cmd.req.length <= c.g.virtualSize && Len(job) == job.cmd.req.length
  {
    hide FlatNow, Mutate, Drifted;
  }

  lemma MidMutation(c: Config, flat: Flat, top: BlockMap, buffer: Buffer, job: Job, done: nat, buf: seq<Byte>)
    requires c.Valid() && flat.Valid() && |flat.bytes| == c.g.virtualSize && Sized(top, c.g.blockSize)
    requires job.Valid() && NeedsLock(c, job) && job.Wire? && Mutates(job.cmd.req.cmd) && done <= Len(job)
    ensures job.cmd.Answerable() && job.cmd.req.offset + job.cmd.req.length <= c.g.virtualSize && Len(job) == job.cmd.req.length
    ensures Mid(c, flat, top, buffer, job, done, buf) <==>
              && FlatNow(c, top, buffer) == Partly(flat, job.cmd.req, job.cmd.payload, done)
              && Halfway(c.g, job.cmd.req.offset, Len(job), true, done)
              && (buffer.Gone? ==> Led(c.g.blockSize, job.cmd.req.offset, Len(job), done, true))
  {
    hide FlatNow, Partly, Halfway, Led;
  }

  lemma MidReads(c: Config, flat: Flat, top: BlockMap, buffer: Buffer, job: Job, done: nat, buf: seq<Byte>)
    requires c.Valid() && flat.Valid() && |flat.bytes| == c.g.virtualSize && Sized(top, c.g.blockSize)
    requires Mid(c, flat, top, buffer, job, done, buf) && job.Wire? && job.cmd.req.cmd == CMD_READ && done < Len(job) && buffer.Kept?
    ensures var pos := job.cmd.req.offset + done;
            && job.cmd.req.offset + job.cmd.req.length <= c.g.virtualSize
            && var n := PieceLen(c.g, pos, Len(job) - done);
            Mid(c, flat, top, buffer, job, done + n, buf + View(c, top)[pos..pos + n])
  {
    hide Flatten, PieceLen, Halfway, IndexFits, Geometry.Valid, AllSized;
    var pos := job.cmd.req.offset + done;
    var n := PieceLen(c.g, pos, Len(job) - done);
    HalfwayStep(c.g, job.cmd.req.offset, Len(job), done, n);
    SliceAppend(flat.bytes, job.cmd.req.offset, pos, pos + n);
  }

  lemma MidMutates(c: Config, flat: Flat, top: BlockMap, job: Job, done: nat, buf: seq<Byte>)
    requires c.Valid() && TopOk(c, top, Kept) && flat.Valid() && |flat.bytes| == c.g.virtualSize
    requires flat.base == Flatten(c.g, c.lower) && flat.blockSize == c.g.blockSize
    requires Mid(c, flat, top, Kept, job, done, buf) && job.Wire? && Mutates(job.cmd.req.cmd) && done < Len(job)
    ensures var pos := job.cmd.req.offset + done;
            && job.cmd.Answerable() && job.cmd.req.offset + job.cmd.req.length <= c.g.virtualSize
            && var n := PieceLen(c.g, pos, Len(job) - done);
            var top' := PieceTop(c, top, job.cmd, done, n);
            TopOk(c, top', Kept) && Mid(c, flat, top', Kept, job, done + n, buf)
  {
    hide Mid, NeedsLock, Flatten, Splice, Trimmed, PieceLen, Halfway, PieceTop, PieceBytes, IndexFits, Geometry.Valid;
    hide AllSized, Partly, WireCommand.Answerable;
    MidJob(c, flat, top, Kept, job, done, buf);
    MidMutation(c, flat, top, Kept, job, done, buf);
    var req := job.cmd.req;
    var n := PieceLen(c.g, req.offset + done, Len(job) - done);
    HalfwayStep(c.g, req.offset, Len(job), done, n);
    PieceSplices(c, top, job.cmd, done, n);
    PartlyMore(c, flat, job.cmd, done, n);
    MidMutation(c, flat, PieceTop(c, top, job.cmd, done, n), Kept, job, done + n, buf);
  }

  lemma MidDrifts(c: Config, flat: Flat, top: BlockMap, hung: set<nat>, job: Job, done: nat, buf: seq<Byte>)
    requires c.Valid() && TopOk(c, top, Gone(hung)) && flat.Valid() && |flat.bytes| == c.g.virtualSize
    requires flat.base == Flatten(c.g, c.lower) && flat.blockSize == c.g.blockSize
    requires Mid(c, flat, top, Gone(hung), job, done, buf) && job.Wire? && Mutates(job.cmd.req.cmd) && done < Len(job)
    ensures var pos := job.cmd.req.offset + done;
            && job.cmd.Answerable() && job.cmd.req.offset + job.cmd.req.length <= c.g.virtualSize
            && var n := PieceLen(c.g, pos, Len(job) - done);
            WholePiece(c.g, pos, n) ==>
              var (top', hung') := DriftPiece(c, top, hung, job.cmd, done, n);
              TopOk(c, top', Gone(hung')) && Mid(c, flat, top', Gone(hung'), job, done + n, buf)
  {
    hide Mid, NeedsLock, Flatten, Splice, Trimmed, PieceLen, Halfway, IndexFits, Geometry.Valid, AllSized, Partly, Led;
    hide Overlaid, WholePiece, StoreAll, WireCommand.Answerable;
    MidJob(c, flat, top, Gone(hung), job, done, buf);
    MidMutation(c, flat, top, Gone(hung), job, done, buf);
    var req := job.cmd.req;
    var n := PieceLen(c.g, req.offset + done, Len(job) - done);
    if WholePiece(c.g, req.offset + done, n) {
      HalfwayStep(c.g, req.offset, Len(job), done, n);
      LeadPiece(c.g, req.offset, Len(job), done);
      DriftShows(c, top, hung, job.cmd, done, n);
      DriftMore(c, flat, job.cmd, done, n);
      var (top', hung') := DriftPiece(c, top, hung, job.cmd, done, n);
      MidMutation(c, flat, top', Gone(hung'), job, done + n, buf);
    }
  }

  // A job that needs the lost block buffer panics on the flat array too.
  lemma MidDies(c: Config, flat: Flat, top: BlockMap, buffer: Buffer, job: Job, done: nat, buf: seq<Byte>)
    requires c.Valid() && flat.Valid() && |flat.bytes| == c.g.virtualSize && Sized(top, c.g.blockSize)
    requires flat.base == Flatten(c.g, c.lower) && flat.blockSize == c.g.blockSize
    requires Mid(c, flat, top, buffer, job, done, buf) && job.Wire? && buffer.Gone? && done < Len(job)
    requires var pos := job.cmd.req.offset + done;
             && job.cmd.req.offset + job.cmd.req.length <= c.g.virtualSize
             && (job.cmd.req.cmd == CMD_READ || !WholePiece(c.g, pos, PieceLen(c.g, pos, Len(job) - done)))
    ensures Act(flat, c.readOnly, job.cmd.req, job.cmd.payload, Fine) == Died(FlatNow(c, top, buffer))
    ensures Explains(c, flat, job, Panicking, Fine)
  {
    MidJob(c, flat, top, buffer, job, done, buf);
    hide FlatNow, Halfway, PieceLen, IndexFits, WholePiece, Drifted, Mutate, Lead;
    if job.cmd.req.cmd != CMD_READ { LeadPiece(c.g, job.cmd.req.offset, Len(job), done); }
  }

  // The holder of the lock goes on with its job.
  lemma GoesOn(c: Config, w0: World, w: World, t: nat, w': World)
    requires c.Valid() && TopOk(c, w0.top, w0.buffer) && LinearInv(c, w0, w)
    requires t in w.threads && w.threads[t].pc.Holding? && t in w'.threads && w'.threads[t].pc.Holding? && w'.threads[t].pc.job == w.threads[t].pc.job
    requires w' == w.(threads := w.threads[t := w.threads[t].(pc := w'.threads[t].pc)], top := w'.top, buffer := w'.buffer)
    requires TopOk(c, w'.top, w'.buffer)
    requires Mid(c, FlatAfter(c, Flat0(c, w0), w.log), w'.top, w'.buffer, w'.threads[t].pc.job, w'.threads[t].pc.done, w'.threads[t].pc.buf)
    ensures LinearInv(c, w0, w')
  {
    hide FlatAfter, AllExplained, Of, Story, Mid, NeedsLock, IndexFits, Geometry.Valid, AllSized, FlatNow, TopOk;
    assert ThreadOk(c, w0.threads[t], w.threads[t], w.log, w.lock, t);
    StoryMoves(w0.threads[t], w.threads[t], Of(w.log, t), w'.threads[t]);
    Rebuild(c, w0, w, w', t);
  }

  lemma HolderMid(c: Config, w0: World, w: World, t: nat)
    requires c.Valid() && TopOk(c, w0.top, w0.buffer) && LinearInv(c, w0, w) && t in w.threads && w.threads[t].pc.Holding?
    ensures w.lock == Some(t) && TopOk(c, w.top, w.buffer) && JobsValid(w.log)
    ensures var flat, pc := FlatAfter(c, Flat0(c, w0), w.log), w.threads[t].pc;
            Mid(c, flat, w.top, w.buffer, pc.job, pc.done, pc.buf)
  {
    hide FlatAfter, AllExplained, Of, Story, Mid, NeedsLock, IndexFits, Geometry.Valid, AllSized, FlatNow, TopOk;
    assert ThreadOk(c, w0.threads[t], w.threads[t], w.log, w.lock, t);
  }

  lemma WorkKeeps(c: Config, w0: World, w: World, t: nat)
    requires c.Valid() && TopOk(c, w0.top, w0.buffer) && LinearInv(c, w0, w)
    ensures LinearInv(c, w0, Apply(c, w, Work(t)))
  {
    hide LinearInv, FlatAfter, Mid, PieceTop, DriftPiece, NeedsLock, IndexFits, Geometry.Valid, AllSized, Flatten;
    hide PieceLen, FlatNow, WholePiece, WireCommand.Answerable;
    if t in w.threads && w.threads[t].pc.Holding? {
      HolderMid(c, w0, w, t);
      var w', pc := Apply(c, w, Work(t)), w.threads[t].pc;
      var flat := FlatAfter(c, Flat0(c, w0), w.log);
      MidJob(c, flat, w.top, w.buffer, pc.job, pc.done, pc.buf);
      if pc.job.Wire? && pc.done < Len(pc.job) {
        var pos := pc.job.cmd.req.offset + pc.done;
        if w.buffer.Gone? && (pc.job.cmd.req.cmd == CMD_READ || !WholePiece(c.g, pos, PieceLen(c.g, pos, Len(pc.job) - pc.done))) {
          DieKeeps(c, w0, w, t);
        } else {
          if pc.job.cmd.req.cmd == CMD_READ {
            MidReads(c, flat, w.top, w.buffer, pc.job, pc.done, pc.buf);
          } else if w.buffer.Kept? {
            MidMutates(c, flat, w.top, pc.job, pc.done, pc.buf);
          } else {
            MidDrifts(c, flat, w.top, w.buffer.hung, pc.job, pc.done, pc.buf);
          }
          GoesOn(c, w0, w, t, w');
        }
      }
    }
  }

  // A job that ends, one way or another, takes its place in the order.
  lemma LogKeeps(c: Config, w0: World, w: World, t: nat, e: Entry, w': World)
    requires c.Valid() && TopOk(c, w0.top, w0.buffer) && LinearInv(c, w0, w)
    requires t in w.threads && w.threads[t].pc.Holding? && w.lock == Some(t) && e.thread == t && e.job == w.threads[t].pc.job && e.job.Valid()
    requires w'.log == w.log + [e] && w'.lock == None && t in w'.threads && w'.threads == w.threads[t := w'.threads[t]]
    requires TopOk(c, w'.top, w'.buffer)
    requires w'.threads[t] == w.threads[t].(pc := if e.answer == Panicking then Dead else Replying(e.answer))
    requires var flat := FlatAfter(c, Flat0(c, w0), w.log);
             && Explains(c, flat, e.job, e.answer, e.fault)
             && FlatNow(c, w'.top, w'.buffer) ==
                if e.job.Wire? then Act(flat, c.readOnly, e.job.cmd.req, e.job.cmd.payload, e.fault).flat else flat
    ensures LinearInv(c, w0, w')
  {
    hide Explains, FlatAfter, AllExplained, Of, Story, Mid, NeedsLock, IndexFits, Geometry.Valid, AllSized, Act, FlatNow, Flat0;
    var th := w.threads[t];
    assert ThreadOk(c, w0.threads[t], th, w.log, w.lock, t);
    assert forall u :: u in w.threads ==> ThreadOk(c, w0.threads[u], w.threads[u], w.log, w.lock, u);
    LogGrows(c, Flat0(c, w0), w.log, e);
    OfGrows(w.log, e, t);
    assert [e.job] + th.todo == [e.job] + ([] + th.todo);
    StoryGrows(w0.threads[t], th, Of(w.log, t), e, w'.threads[t]);
    assert w'.log[..|w.log|] == w.log;
    Rebuild(c, w0, w, w', t);
  }

  lemma DieKeeps(c: Config, w0: World, w: World, t: nat)
    requires c.Valid() && TopOk(c, w0.top, w0.buffer) && LinearInv(c, w0, w)
    requires t in w.threads && w.threads[t].pc.Holding? && w.buffer.Gone?
    requires var pc := w.threads[t].pc;
             && pc.job.Wire? && pc.done < Len(pc.job) && pc.job.cmd.req.offset + pc.job.cmd.req.length <= c.g.virtualSize
             && var pos := pc.job.cmd.req.offset + pc.done;
             (pc.job.cmd.req.cmd == CMD_READ || !WholePiece(c.g, pos, PieceLen(c.g, pos, Len(pc.job) - pc.done)))
    ensures LinearInv(c, w0, Die(w, t, w.threads[t].pc.job))
  {
    hide LinearInv, Explains, FlatAfter, Mid, NeedsLock, IndexFits, Geometry.Valid, AllSized, Act, FlatNow, WholePiece, PieceLen;
    var pc := w.threads[t].pc;
    HolderMid(c, w0, w, t);
    var flat := FlatAfter(c, Flat0(c, w0), w.log);
    MidJob(c, flat, w.top, w.buffer, pc.job, pc.done, pc.buf);
    MidDies(c, flat, w.top, w.buffer, pc.job, pc.done, pc.buf);
    LogKeeps(c, w0, w, t, Entry(t, pc.job, Panicking, Fine), Die(w, t, pc.job));
  }

  // ---- failures ------------------------------------------------------------------------------------------------------

  lemma MidFails(c: Config, flat: Flat, top: BlockMap, buffer: Buffer, job: Job, done: nat, buf: seq<Byte>, lost: bool)
    requires c.Valid() && flat.Valid() && |flat.bytes| == c.g.virtualSize && Sized(top, c.g.blockSize)
    requires flat.base == Flatten(c.g, c.lower) && flat.blockSize == c.g.blockSize
    requires Mid(c, flat, top, buffer, job, done, buf) && job.Wire?
    requires Possible(FlatNow(c, top, buffer), c.readOnly, job.cmd.req, Faulted(if Mutates(job.cmd.req.cmd) then done else 0, lost))
    ensures Act(flat, c.readOnly, job.cmd.req, job.cmd.payload, Faulted(if Mutates(job.cmd.req.cmd) then done else 0, lost)) ==
            Done(Reply(EIO, job.cmd.req.handle, []), FlatNow(c, top, if lost then Gone({}) else buffer))
  {
    MidJob(c, flat, top, buffer, job, done, buf);
    hide Flatten, Halfway, IndexFits, Drifted, Mutate, Led, Lead;
  }

  lemma FailKeeps(c: Config, w0: World, w: World, t: nat, lost: bool)
    requires c.Valid() && TopOk(c, w0.top, w0.buffer) && LinearInv(c, w0, w)
    ensures LinearInv(c, w0, Apply(c, w, Fail(t, lost)))
  {
    hide LinearInv, FlatAfter, Mid, NeedsLock, IndexFits, Geometry.Valid, AllSized, Act, FlatNow, Possible, SealShows;
    InvTop(c, w0, w);
    var w' := Apply(c, w, Fail(t, lost));
    if t in w.threads && w.threads[t].pc.Holding? && w' != w {
      var pc := w.threads[t].pc;
      HolderMid(c, w0, w, t);
      var flat := FlatAfter(c, Flat0(c, w0), w.log);
      MidJob(c, flat, w.top, w.buffer, pc.job, pc.done, pc.buf);
      if pc.job.Wire? {
        MidFails(c, flat, w.top, w.buffer, pc.job, pc.done, pc.buf, lost);
      } else {
        MidSnapshot(c, flat, w.top, w.buffer, pc.job, pc.done, pc.buf);
      }
      LogKeeps(c, w0, w, t, w'.log[|w.log|], w');
    }
  }

  lemma MidSnapshot(c: Config, flat: Flat, top: BlockMap, buffer: Buffer, job: Job, done: nat, buf: seq<Byte>)
    requires c.Valid() && flat.Valid() && |flat.bytes| == c.g.virtualSize && Sized(top, c.g.blockSize)
    requires Mid(c, flat, top, buffer, job, done, buf) && job.Snapshot?
    ensures FlatNow(c, top, buffer) == flat
  {
    hide FlatNow;
  }

  // ---- release -----------------------------------------------------------------------------------------------------

  lemma SnapshotShows(c: Config, top: BlockMap, parents: seq<Digest>)
    requires c.Valid() && TopOk(c, top, Kept) && |parents| < U16
    ensures SealShows(c, SealFile(c.sha, c.g, parents, top), parents, View(c, top))
  {
    hide Flatten, SealFile, Sealable, IndexFits, Geometry.Valid;
    ContentsSealable(c.sha, c.g, parents, top);
    SealOpenRoundTrip(c.sha, c.g, parents, top);
    SealedBlocks(c.sha, c.g, parents, top);
  }

  /** Sealing the scratch itself gives the file of the step: the overlay's blocks, and for each hung block what
      lies past the append cursor. */
  method SealLive(c: Config, scratch: ScratchLayer, parents: seq<Digest>, dest: Media) returns (r: Result<ImmutableLayer>)
    requires scratch.Loose() && scratch.geometry == c.g && |parents| < U16
    ensures r.Success? ==>
              exists junk: seq<Byte> ::
                |junk| == c.g.blockSize
                && Frozen(r.value.file) == Finish(c, scratch.Contents(), Gone(scratch.Hung()), junk, Snapshot(parents), [])
  {
    hide SealFile, ContentId, StoreAll, ReadPadded;
    r := Seal(scratch, c.sha, parents, dest);
    if r.Success? {
      scratch.ReadoutIs();
      ghost var junk := ReadPadded(scratch.data, scratch.tail, c.g.blockSize);
      assert Frozen(r.value.file) == Finish(c, scratch.Contents(), Gone(scratch.Hung()), junk, Snapshot(parents), []);
    }
  }

  lemma SnapshotExplained(c: Config, top: BlockMap, buffer: Buffer, junk: seq<Byte>, parents: seq<Digest>)
    requires c.Valid() && TopOk(c, top, buffer) && |parents| < U16 && |junk| == c.g.blockSize
    ensures Explains(c, FlatNow(c, top, buffer), Snapshot(parents), Finish(c, top, buffer, junk, Snapshot(parents), []), Fine)
  {
    hide Flatten, SealFile, SealShows, IndexFits, Geometry.Valid, Geometry.BlockCount, Overlaid;
    var all := StoreAll(top, buffer.Hung(), junk);
    assert TopOk(c, all, Kept);
    SnapshotShows(c, all, parents);
    StoreAllOverlays(c.g, c.lower, top, buffer.Hung(), junk);
  }

  lemma MidDone(c: Config, flat: Flat, top: BlockMap, buffer: Buffer, job: Job, done: nat, buf: seq<Byte>)
    requires c.Valid() && flat.Valid() && |flat.bytes| == c.g.virtualSize && Sized(top, c.g.blockSize)
    requires flat.base == Flatten(c.g, c.lower) && flat.blockSize == c.g.blockSize
    requires Mid(c, flat, top, buffer, job, done, buf) && done == Len(job) && job.Wire?
    ensures Act(flat, c.readOnly, job.cmd.req, job.cmd.payload, Fine) ==
            Done(Reply(0, job.cmd.req.handle, if job.cmd.req.cmd == CMD_READ then buf else []), FlatNow(c, top, buffer))
  {
    MidJob(c, flat, top, buffer, job, done, buf);
    hide FlatNow, Halfway, IndexFits, Drifted, Mutate, Lead, Geometry.Valid;
    var req := job.cmd.req;
    if Mutates(req.cmd) {
      MutationActs(flat, req, job.cmd.payload, Ok, Fine, FlatNow(c, top, buffer));
    }
  }

  lemma ReleaseKeeps(c: Config, w0: World, w: World, t: nat, junk: seq<Byte>)
    requires c.Valid() && TopOk(c, w0.top, w0.buffer) && LinearInv(c, w0, w)
    ensures LinearInv(c, w0, Apply(c, w, Release(t, junk)))
  {
    hide LinearInv, FlatAfter, Mid, NeedsLock, IndexFits, Geometry.Valid, AllSized, Act, FlatNow, SealShows, SealFile;
    hide StoreAll, Overlaid;
    InvTop(c, w0, w);
    var w' := Apply(c, w, Release(t, junk));
    if t in w.threads && w.threads[t].pc.Holding? && w.threads[t].pc.done >= Len(w.threads[t].pc.job) && |junk| == c.g.blockSize {
      var pc := w.threads[t].pc;
      HolderMid(c, w0, w, t);
      var flat := FlatAfter(c, Flat0(c, w0), w.log);
      MidJob(c, flat, w.top, w.buffer, pc.job, pc.done, pc.buf);
      if pc.job.Wire? {
        MidDone(c, flat, w.top, w.buffer, pc.job, pc.done, pc.buf);
      } else {
        MidSnapshot(c, flat, w.top, w.buffer, pc.job, pc.done, pc.buf);
        SnapshotExplained(c, w.top, w.buffer, junk, pc.job.parents);
      }
      LogKeeps(c, w0, w, t, w'.log[|w.log|], w');
    }
  }

  // ---- every run ---------------------------------------------------------------------------------------------------

  lemma StepKeeps(c: Config, w0: World, w: World, a: Action)
    requires c.Valid() && TopOk(c, w0.top, w0.buffer) && LinearInv(c, w0, w)
    ensures LinearInv(c, w0, Apply(c, w, a))
  {
    hide LinearInv, Apply;
    match a
    case Start(t) => StartKeeps(c, w0, w, t);
    case Acquire(t) => AcquireKeeps(c, w0, w, t);
    case Work(t) => WorkKeeps(c, w0, w, t);
    case Fail(t, lost) => FailKeeps(c, w0, w, t, lost);
    case Release(t, junk) => ReleaseKeeps(c, w0, w, t, junk);
    case Send(t) => SendKeeps(c, w0, w, t);
  }

  lemma InitialInv(c: Config, w: World)
    requires c.Valid() && Initial(c, w)
    ensures LinearInv(c, w, w)
  {
    hide Flatten, IndexFits, Geometry.Valid, AllSized;
  }

  /** `w` is reached from `w0` by the steps `run`, in that order. */
  ghost predicate Reaches(c: Config, w0: World, run: seq<Action>, w: World)
    requires c.Valid()
  {
    if run == [] then w == w0 else
      exists v: World :: Sized(v.top, c.g.blockSize) && Reaches(c, w0, run[..|run| - 1], v) && w == Apply(c, v, run[|run| - 1])
  }

  lemma {:induction false} EveryRun(c: Config, w0: World, run: seq<Action>, w: World)
    requires c.Valid() && Initial(c, w0) && Reaches(c, w0, run, w)
    ensures LinearInv(c, w0, w)
  {
    hide LinearInv, Apply, TopOk;
    if run == [] {
      InitialInv(c, w0);
    } else {
      var v: World :| Sized(v.top, c.g.blockSize) && Reaches(c, w0, run[..|run| - 1], v) && w == Apply(c, v, run[|run| - 1]);
      EveryRun(c, w0, run[..|run| - 1], v);
      StepKeeps(c, w0, v, run[|run| - 1]);
    }
  }

  /** Every interleaving of any number of connections and live seals, on any medium, is explained by the
      order in which jobs took effect: run one after the other on a flat array, in that order and each
      faring as the log says, they give exactly the answers given, every snapshot is over its own parents and shows the array at
      its place in the order, each thread's answers are those of a prefix of its own jobs in its own
      order, and whenever the lock is free the disk stands for the array. */
  lemma Linearizable(c: Config, w0: World, run: seq<Action>, w: World)
    requires c.Valid() && Initial(c, w0) && Reaches(c, w0, run, w)
    ensures JobsValid(w.log) && TopOk(c, w.top, w.buffer)
    ensures AllExplained(c, Flat0(c, w0), w.log)
    ensures w.threads.Keys == w0.threads.Keys
    ensures forall t :: t in w.threads ==> Story(w0.threads[t], w.threads[t], Of(w.log, t))
    ensures w.lock == None ==> FlatNow(c, w.top, w.buffer) == FlatAfter(c, Flat0(c, w0), w.log)
  {
    hide Story, AllExplained, FlatAfter, FlatNow, Mid, Flat0, IndexFits, Geometry.Valid, AllSized;
    EveryRun(c, w0, run, w);
    forall t | t in w.threads
      ensures Story(w0.threads[t], w.threads[t], Of(w.log, t))
    {
      assert ThreadOk(c, w0.threads[t], w.threads[t], w.log, w.lock, t);
    }
  }

  // ---- a medium that does not fail ---------------------------------------------------------------------------------

  /** Nothing has failed so far. */
  predicate Faultless(w: World) {
    && w.buffer.Kept? && !w.poisoned
    && forall i :: 0 <= i < |w.log| ==> w.log[i].fault.Fine? && w.log[i].answer != SealFailed
  }

  lemma FaultlessStep(c: Config, w: World, a: Action)
    requires c.Valid() && Sized(w.top, c.g.blockSize) && Faultless(w) && !a.Fail?
    ensures Faultless(Apply(c, w, a))
  {
    hide PieceTop, Flatten, PieceLen, SealFile, NeedsLock, IndexFits, Geometry.Valid, AllSized;
  }

  lemma {:induction false} FaultlessRun(c: Config, w0: World, run: seq<Action>, w: World)
    requires c.Valid() && Reaches(c, w0, run, w) && Faultless(w0) && (forall i :: 0 <= i < |run| ==> !run[i].Fail?)
    ensures Faultless(w)
  {
    hide Apply, Faultless;
    if run != [] {
      var v: World :| Sized(v.top, c.g.blockSize) && Reaches(c, w0, run[..|run| - 1], v) && w == Apply(c, v, run[|run| - 1]);
      FaultlessRun(c, w0, run[..|run| - 1], v);
      FaultlessStep(c, v, run[|run| - 1]);
    }
  }

  lemma {:induction false} ExplainedAt(c: Config, flat0: Flat, log: seq<Entry>, i: nat)
    requires c.Valid() && flat0.Valid() && JobsValid(log) && AllExplained(c, flat0, log) && i < |log|
    ensures JobsValid(log[..i]) && Explains(c, FlatAfter(c, flat0, log[..i]), log[i].job, log[i].answer, log[i].fault)
    decreases |log|
  {
    hide Explains, FlatAfter;
    if i < |log| - 1 {
      ExplainedAt(c, flat0, log[..|log| - 1], i);
      assert log[..|log| - 1][..i] == log[..i];
    }
  }

  lemma {:induction false} StaysKept(c: Config, flat0: Flat, log: seq<Entry>)
    requires flat0.Valid() && flat0.buffer.Kept? && JobsValid(log) && forall i :: 0 <= i < |log| ==> log[i].fault.Fine?
    ensures FlatAfter(c, flat0, log).buffer.Kept?
  {
    hide Exec, Touches;
    if log != [] { StaysKept(c, flat0, log[..|log| - 1]); }
  }

  /** Where nothing fails, the explanation is the plain one: every command is answered as the flat array
      with its block buffer answers it, and every snapshot is a layer over the parents it was asked for, under
      its content id, that shows exactly the array. */
  lemma LinearizableWithoutFaults(c: Config, w0: World, run: seq<Action>, w: World, i: nat)
    requires c.Valid() && Initial(c, w0) && w0.buffer.Kept? && Reaches(c, w0, run, w) && (forall k :: 0 <= k < |run| ==> !run[k].Fail?)
    requires i < |w.log|
    ensures JobsValid(w.log) && JobsValid(w.log[..i])
    ensures var flat, job := FlatAfter(c, Flat0(c, w0), w.log[..i]), w.log[i].job;
            match job
            case Wire(cmd) => w.log[i].answer == Replied(Exec(flat, c.readOnly, cmd.req, cmd.payload).0)
            case Snapshot(parents) => w.log[i].answer.Frozen? && SealShows(c, w.log[i].answer.file, parents, flat.bytes)
  {
    hide FlatAfter, AllExplained, Story, Of, Exec, Touches, SealShows, FlatNow, IndexFits, AllSized, Apply;
    Linearizable(c, w0, run, w);
    FaultlessRun(c, w0, run, w);
    ExplainedAt(c, Flat0(c, w0), w.log, i);
    StaysKept(c, Flat0(c, w0), w.log[..i]);
  }

  lemma {:induction false} ReadOnlyLog(c: Config, flat0: Flat, log: seq<Entry>)
    requires c.readOnly && flat0.Valid() && JobsValid(log)
    ensures FlatAfter(c, flat0, log) == flat0
  {
    hide Act;
    if log != [] {
      ReadOnlyLog(c, flat0, log[..|log| - 1]);
      var e := log[|log| - 1];
      if e.job.Wire? { ReadOnlyAct(flat0, e.job.cmd.req, e.job.cmd.payload, e.fault); }
    }
  }

  /** On a read-only export the disk shows its initial bytes in every reachable state, also in the
      middle of a command. */
  lemma ReadOnlyNeverChanges(c: Config, w0: World, run: seq<Action>, w: World)
    requires c.Valid() && c.readOnly && Initial(c, w0) && Reaches(c, w0, run, w)
    ensures TopOk(c, w.top, w.buffer) && View(c, w.top) == View(c, w0.top)
  {
    hide Flatten, IndexFits, Geometry.Valid, AllSized, FlatAfter, AllExplained, ThreadOk, Splice, Trimmed;
    EveryRun(c, w0, run, w);
    ReadOnlyLog(c, Flat0(c, w0), w.log);
  }

  // ---- real time -------------------------------------------------------------------------------------------------------

  /** Which of its thread's jobs entry `p` is. */
  function Nth(log: seq<Entry>, p: nat): nat
    requires p < |log|
  {
    |Of(log[..p], log[p].thread)|
  }

  lemma {:induction false} LogPrefix(c: Config, w1: World, run: seq<Action>, w2: World)
    requires c.Valid() && Reaches(c, w1, run, w2)
    ensures w1.log <= w2.log
  {
    hide Apply;
    if run != [] {
      var v: World :| Sized(v.top, c.g.blockSize) && Reaches(c, w1, run[..|run| - 1], v) && w2 == Apply(c, v, run[|run| - 1]);
      LogPrefix(c, w1, run[..|run| - 1], v);
      LogStep(c, v, run[|run| - 1]);
    }
  }

  lemma LogStep(c: Config, w: World, a: Action)
    requires c.Valid() && Sized(w.top, c.g.blockSize)
    ensures w.log <= Apply(c, w, a).log
  {
    hide PieceTop, Flatten, PieceLen, Finish, Refusal, NeedsLock, IndexFits, Geometry.Valid, AllSized;
  }

  lemma {:induction false} OfMore(log: seq<Entry>, t: nat, k: nat, m: nat)
    requires k <= m <= |log|
    ensures |Of(log[..k], t)| <= |Of(log[..m], t)|
    ensures k < m && log[k].thread == t ==> |Of(log[..k], t)| < |Of(log[..m], t)|
    decreases m
  {
    if k < m {
      OfMore(log, t, k, m - 1);
      assert log[..m][..m - 1] == log[..m - 1];
    }
  }

  // What a thread's place in its work says about the log.
  lemma StoryCounts(th0: Thread, th: Thread, mine: seq<Entry>)
    requires Story(th0, th, mine)
    ensures |th.sent| <= |mine| <= |th0.todo| - |th.todo|
  {
    assert |Answers(mine)| == |mine| && |Jobs(mine)| == |mine|;
  }

  /** A job takes effect between its start and the sending of its answer, so the order of effects
      respects real time: a command answered before another was begun comes before it. `w1` is any
      moment, `w2` any later one; entry `p` was answered by `w1`, entry `q` not yet begun. */
  lemma RealTime(c: Config, w0: World, run: seq<Action>, w1: World, later: seq<Action>, w2: World, p: nat, q: nat)
    requires c.Valid() && Initial(c, w0) && Reaches(c, w0, run, w1) && Reaches(c, w1, later, w2)
    requires p < |w2.log| && q < |w2.log| && w2.log[p].thread in w1.threads && w2.log[q].thread in w1.threads
    requires w2.log[q].thread in w0.threads
    requires Nth(w2.log, p) < |w1.threads[w2.log[p].thread].sent|
    requires Nth(w2.log, q) >= |w0.threads[w2.log[q].thread].todo| - |w1.threads[w2.log[q].thread].todo|
    ensures w1.log <= w2.log && p < |w1.log| <= q
  {
    hide Story, AllExplained, FlatAfter, View, Flat0, IndexFits, Geometry.Valid, AllSized, Of, Apply, TopOk;
    Linearizable(c, w0, run, w1);
    LogPrefix(c, w1, later, w2);
    var log, m := w2.log, |w1.log|;
    assert log[..m] == w1.log;
    var t, u := log[p].thread, log[q].thread;
    StoryCounts(w0.threads[t], w1.threads[t], Of(w1.log, t));
    StoryCounts(w0.threads[u], w1.threads[u], Of(w1.log, u));
    if p >= m { OfMore(log, t, m, p); }
    if q < m { OfMore(log, u, q, m); }
  }
}
