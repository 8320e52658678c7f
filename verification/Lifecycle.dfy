/** The instance lifecycle (instance.rs) and the per-instance lock protocol (backend.rs).

    Any number of drivers dispatch to, stop and tear down one instance. Each operation opens the
    lock file, waits for its `flock`, reads the persisted state, transitions it and acts. Teardown
    removes the directory, lock file included, so later drivers may lock a different file: locks
    are numbered by generation. A driver process may also die at any point.
 */
module Lifecycle {
  import opened Bytes

  datatype Life = Provisioning | Booting | Ready | RunningDispatch | Stopping | Failed | TornDown

  predicate CanTransition(from: Life, to: Life) {
    match from
    case Provisioning => to in {Booting, Failed, TornDown}
    case Booting => to in {Ready, Stopping, Failed, TornDown}
    case Ready => to in {Stopping, Failed, TornDown, RunningDispatch}
    case RunningDispatch => to in {Ready, Failed}
    case Stopping => to in {Failed, TornDown}
    case Failed => to == TornDown
    case TornDown => false
  }

  /** Only a running dispatch cannot be torn down, and nothing leaves `TornDown`. */
  lemma TransitionTable(from: Life, to: Life)
    ensures CanTransition(from, TornDown) <==> from !in {RunningDispatch, TornDown}
    ensures CanTransition(from, RunningDispatch) <==> from == Ready
    ensures CanTransition(from, to) ==> from != TornDown && from != to
  {
  }

  // ---- one operation, alone --------------------------------------------------------------------------

  /** How talking to the guest or its helper ended. */
  datatype GuestReply = Answered | Recoverable | Fatal

  /** The operations as one driver runs them while it holds the lock. `state` is the persisted file. */
  class Instance {
    var state: Option<Life>

    /** Rewrite the state, or refuse and leave it. */
    method Transition(to: Life) returns (ok: bool)
      requires state.Some?
      modifies this
      ensures ok <==> CanTransition(old(state).value, to)
      ensures state == if ok then Some(to) else old(state)
    {
      ok := CanTransition(state.value, to);
      if ok { state := Some(to); }
    }

    /** A dispatch is let in exactly on a ready instance, and never leaves it running. */
    method Dispatch(reply: GuestReply) returns (ok: bool, refused: bool)
      modifies this
      ensures refused <==> old(state).Some? && old(state).value != Ready
      ensures ok <==> old(state) == Some(Ready) && reply == Answered
      ensures old(state) == Some(Ready) ==> state == Some(if reply == Fatal then Failed else Ready)
      ensures old(state) != Some(Ready) ==> state == old(state)
    {
      if state.None? { return false, false; }
      var running := Transition(RunningDispatch);
      if !running { return false, true; }
      if reply == Answered {
        ok := Transition(Ready);
      } else {
        var back := Transition(if reply == Recoverable then Ready else Failed);
        ok := false;
      }
      refused := false;
    }

    /** A stop that cannot even reach the helper leaves the instance stopping. */
    method Stop(reached: bool, reply: GuestReply) returns (ok: bool, refused: bool)
      modifies this
      ensures refused <==> old(state).Some? && old(state).value !in {Booting, Ready}
      ensures refused || old(state).None? ==> state == old(state) && !ok
      ensures !refused && old(state).Some? ==>
                && state == Some(if !reached then Stopping else if reply == Answered then TornDown else Failed)
                && (ok <==> reached && reply == Answered)
    {
      if state.None? { return false, false; }
      var stopping := Transition(Stopping);
      if !stopping { return false, true; }
      if !reached { return false, false; }
      if reply == Answered {
        ok := Transition(TornDown);
      } else {
        var failed := Transition(Failed);
        ok := false;
      }
      refused := false;
    }

    /** Teardown removes the state from everywhere but a running dispatch. */
    method Teardown(reached: bool) returns (ok: bool, refused: bool)
      modifies this
      ensures refused <==> old(state) == Some(RunningDispatch)
      ensures refused ==> state == old(state) && !ok
      ensures !refused ==> state == if old(state).Some? && !reached then Some(TornDown) else None
      ensures ok <==> state.None?
    {
      if state.Some? {
        if state.value != TornDown {
          var torn := Transition(TornDown);
          if !torn { return false, true; }
        }
        if !reached { return false, false; }
      }
      state := None;
      ok, refused := true, false;
    }
  }

  // ---- all drivers at once ---------------------------------------------------------------------------------

  datatype Op = DispatchOp | StopOp | TeardownOp

  /** Where a driver is. From `Locked` on it holds the lock of its generation. */
  datatype Pc =
    | Idle
    | Want(op: Op, gen: nat)
    | Locked(op: Op, gen: nat)
    | Loaded(op: Op, gen: nat, seen: Option<Life>)
    | Dispatching(gen: nat)
    | StopSent(gen: nat)
    | Helping(gen: nat)
    | Removing(gen: nat)

  predicate Holding(pc: Pc) { !pc.Idle? && !pc.Want? }

  /** `file` is the persisted state, `lock` the generation of the lock file on disk; `refused` lists
      the lifecycle errors reported; `stranded` says a driver died in the middle of a dispatch. */
  datatype System = System(file: Option<Life>, lock: Option<nat>, nextGen: nat, holders: map<nat, nat>,
                           pcs: map<nat, Pc>, refused: seq<(Op, Life)>, stranded: bool)
  {
    function At(d: nat): Pc { if d in pcs then pcs[d] else Idle }

    function Go(d: nat, pc: Pc): System { this.(pcs := pcs[d := pc]) }

    function Release(d: nat, gen: nat): System { this.(holders := holders - {gen}, pcs := pcs[d := Idle]) }

    function Refuse(d: nat, gen: nat, op: Op, from: Life): System {
      Release(d, gen).(refused := refused + [(op, from)])
    }

    /** Nobody holds the lock file on disk. */
    predicate LockFree() { lock.Some? ==> lock.value !in holders }

    /** A state an operation could still move. */
    predicate Live() { file.Some? && file.value != TornDown }
  }

  datatype Action =
    | Open(op: Op)
    | Acquire
    | Load
    | Decide
    | Finish(reply: GuestReply)
    | StopEnds(reached: bool, reply: GuestReply)
    | HelpEnds(reached: bool)
    | UnlinkLock
    | UnlinkState
    | RemoveEnds
    | Die

  /** After reading the state: refuse, or write the new state and go on. */
  function Decided(s: System, d: nat, op: Op, gen: nat, seen: Option<Life>): System {
    match op
    case DispatchOp =>
      if seen.None? then s.Release(d, gen)
      else if CanTransition(seen.value, RunningDispatch) then s.Go(d, Dispatching(gen)).(file := Some(RunningDispatch))
      else s.Refuse(d, gen, op, seen.value)
    case StopOp =>
      if seen.None? then s.Release(d, gen)
      else if CanTransition(seen.value, Stopping) then s.Go(d, StopSent(gen)).(file := Some(Stopping))
      else s.Refuse(d, gen, op, seen.value)
    case TeardownOp =>
      if seen.None? then s.Go(d, Removing(gen))
      else if seen.value == TornDown then s.Go(d, Helping(gen))
      else if CanTransition(seen.value, TornDown) then s.Go(d, Helping(gen)).(file := Some(TornDown))
      else s.Refuse(d, gen, op, seen.value)
  }

  /** One step of driver `d`. A step that is not enabled does nothing. */
  function Step(s: System, d: nat, a: Action): System {
    var pc := s.At(d);
    match a
    case Open(op) =>
      if !pc.Idle? then s
      else if s.lock.Some? then s.Go(d, Want(op, s.lock.value))
      else s.Go(d, Want(op, s.nextGen)).(lock := Some(s.nextGen), nextGen := s.nextGen + 1)
    case Acquire =>
      if pc.Want? && pc.gen !in s.holders
      then s.Go(d, Locked(pc.op, pc.gen)).(holders := s.holders[pc.gen := d]) else s
    case Load =>
      if pc.Locked? then s.Go(d, Loaded(pc.op, pc.gen, s.file)) else s
    case Decide =>
      if pc.Loaded? then Decided(s, d, pc.op, pc.gen, pc.seen) else s
    case Finish(reply) =>
      if pc.Dispatching? then s.Release(d, pc.gen).(file := Some(if reply == Fatal then Failed else Ready)) else s
    case StopEnds(reached, reply) =>
      if !pc.StopSent? then s
      else if !reached then s.Release(d, pc.gen)
      else s.Release(d, pc.gen).(file := Some(if reply == Answered then TornDown else Failed))
    case HelpEnds(reached) =>
      if !pc.Helping? then s else if reached then s.Go(d, Removing(pc.gen)) else s.Release(d, pc.gen)
    case UnlinkLock => if pc.Removing? then s.(lock := None) else s
    case UnlinkState => if pc.Removing? then s.(file := None) else s
    case RemoveEnds => if pc.Removing? then s.Release(d, pc.gen) else s
    case Die =>
      if pc.Idle? then s
      else if pc.Want? then s.Go(d, Idle)
      else s.Release(d, pc.gen).(stranded := s.stranded || pc.Dispatching?)
  }

  /** The instance as `create` leaves it. */
  function Created(life: Life): System { System(Some(life), None, 0, map[], map[], [], false) }

  function RunFrom(s: System, steps: seq<(nat, Action)>): System {
    if steps == [] then s else
      var n := |steps| - 1;
      Step(RunFrom(s, steps[..n]), steps[n].0, steps[n].1)
  }

  // ---- the invariant ------------------------------------------------------------------------------------------

  /** Driver `d` holds generation `gen`, and while the state can still move that is the lock on disk. */
  predicate Owns(s: System, d: nat, gen: nat) {
    gen in s.holders && s.holders[gen] == d && (s.Live() ==> s.lock == Some(gen))
  }

  predicate DriverOk(s: System, d: nat) {
    match s.At(d)
    case Idle => true
    case Want(_, gen) => gen < s.nextGen && (s.Live() ==> s.lock == Some(gen))
    case Locked(_, gen) => Owns(s, d, gen)
    case Loaded(_, gen, seen) => Owns(s, d, gen) && (seen.Some? && seen.value != TornDown ==> s.file == seen) && (s.Live() ==> s.file == seen)
    case Dispatching(gen) => Owns(s, d, gen) && s.file == Some(RunningDispatch) && !s.stranded
    case StopSent(gen) => Owns(s, d, gen) && s.file == Some(Stopping)
    case Helping(gen) => Owns(s, d, gen) && !s.Live()
    case Removing(gen) => Owns(s, d, gen) && !s.Live()
  }

  ghost predicate LockInv(s: System) {
    && (s.lock.Some? ==> s.lock.value < s.nextGen)
    && (forall gen :: gen in s.holders ==> gen < s.nextGen && Holding(s.At(s.holders[gen])) && s.At(s.holders[gen]).gen == gen)
    && (forall d: nat :: DriverOk(s, d))
    && (s.stranded ==> s.file == Some(RunningDispatch))
    && (s.file == Some(RunningDispatch) && !s.stranded ==> exists d: nat :: s.At(d).Dispatching?)
    && (forall i :: 0 <= i < |s.refused| && s.refused[i].0 == TeardownOp ==> s.refused[i].1 == RunningDispatch && s.stranded)
  }

  // ---- every step keeps it ---------------------------------------------------------------------------------------

  // While the state can move, one driver at most is past the lock.
  lemma OneHolder(s: System, d: nat, e: nat)
    requires LockInv(s) && s.Live() && Holding(s.At(d)) && Holding(s.At(e))
    ensures d == e
  {
    assert DriverOk(s, d) && DriverOk(s, e);
  }

  // Someone is still dispatching after a step of a driver that is not.
  lemma OthersStay(s: System, s': System, d: nat)
    requires !s.At(d).Dispatching? && forall e: nat :: e != d ==> s'.At(e) == s.At(e)
    ensures (exists e: nat :: s.At(e).Dispatching?) ==> exists e: nat :: s'.At(e).Dispatching?
  {
    if exists e: nat :: s.At(e).Dispatching? {
      var e: nat :| s.At(e).Dispatching?;
      assert s'.At(e).Dispatching?;
    }
  }

  lemma OpenKeeps(s: System, d: nat, op: Op)
    requires LockInv(s) && s.At(d).Idle?
    ensures LockInv(Step(s, d, Open(op)))
  {
    var s' := Step(s, d, Open(op));
    forall e: nat
      ensures DriverOk(s', e)
    {
      assert DriverOk(s, e);
      if s.lock.None? && Holding(s.At(e)) { assert !s.Live(); }
    }
    OthersStay(s, s', d);
  }

  lemma AcquireKeeps(s: System, d: nat)
    requires LockInv(s) && s.At(d).Want? && s.At(d).gen !in s.holders
    ensures LockInv(Step(s, d, Acquire))
  {
    var s' := Step(s, d, Acquire);
    assert DriverOk(s, d);
    forall e: nat
      ensures DriverOk(s', e)
    {
      assert DriverOk(s, e);
    }
    OthersStay(s, s', d);
  }

  /** Driver `d` goes on with its lock to `pc`, having written `file`. */
  function Wrote(s: System, d: nat, pc: Pc, file: Option<Life>): System { s.Go(d, pc).(file := file) }

  // A holder that is not dispatching moves on without changing the file.
  lemma GoKeeps(s: System, d: nat, pc: Pc)
    requires LockInv(s) && Holding(s.At(d)) && !s.At(d).Dispatching? && Holding(pc) && !pc.Dispatching? && pc.gen == s.At(d).gen
    requires DriverOk(s.Go(d, pc), d)
    ensures LockInv(s.Go(d, pc))
  {
    var s' := s.Go(d, pc);
    assert DriverOk(s, d);
    forall e: nat
      ensures DriverOk(s', e)
    {
      assert DriverOk(s, e);
    }
    OthersStay(s, s', d);
  }

  // A holder writes a state that could still move.
  lemma WriteKeeps(s: System, d: nat, pc: Pc, life: Life)
    requires LockInv(s) && s.Live() && !s.stranded && Holding(s.At(d)) && Holding(pc) && pc.gen == s.At(d).gen
    requires DriverOk(Wrote(s, d, pc, Some(life)), d) && (life == RunningDispatch ==> pc.Dispatching?)
    ensures LockInv(Wrote(s, d, pc, Some(life)))
  {
    hide DriverOk;
    var s' := Wrote(s, d, pc, Some(life));
    forall e: nat
      ensures DriverOk(s', e)
    {
      if e != d { Bystander(s, s', d, e); }
    }
    HoldersMove(s, s', d);
    assert life == RunningDispatch ==> s'.At(d).Dispatching?;
  }

  // A driver other than the holder of a live state: idle or waiting for that same lock.
  lemma Bystander(s: System, s': System, d: nat, e: nat)
    requires LockInv(s) && s.Live() && Holding(s.At(d)) && e != d
    requires s'.At(e) == s.At(e) && s'.lock == s.lock && s'.nextGen == s.nextGen
    ensures DriverOk(s', e)
  {
    assert DriverOk(s, e);
    if Holding(s.At(e)) { OneHolder(s, d, e); }
  }

  lemma HoldersMove(s: System, s': System, d: nat)
    requires LockInv(s) && Holding(s.At(d)) && Holding(s'.At(d)) && s'.At(d).gen == s.At(d).gen
    requires s'.holders == s.holders && s'.nextGen == s.nextGen && forall e: nat :: e != d ==> s'.At(e) == s.At(e)
    ensures forall gen :: gen in s'.holders ==> gen < s'.nextGen && Holding(s'.At(s'.holders[gen])) && s'.At(s'.holders[gen]).gen == gen
  {
    hide DriverOk;
    assert forall gen :: gen in s.holders ==> gen < s.nextGen && Holding(s.At(s.holders[gen])) && s.At(s.holders[gen]).gen == gen;
  }

  // A holder lets go, having changed no more than what it reports.
  lemma ReleaseKeeps(s: System, d: nat, refused: seq<(Op, Life)>)
    requires LockInv(s) && Holding(s.At(d)) && !s.At(d).Dispatching?
    requires forall i :: 0 <= i < |refused| && refused[i].0 == TeardownOp ==> refused[i].1 == RunningDispatch && s.stranded
    ensures LockInv(s.Release(d, s.At(d).gen).(refused := refused))
  {
    hide Owns;
    var s' := s.Release(d, s.At(d).gen).(refused := refused);
    forall e: nat
      ensures DriverOk(s', e)
    {
      assert DriverOk(s, e);
      if e != d && Holding(s.At(e)) { OtherOwns(s, s', d, e); }
    }
    HoldersLeave(s, s', d);
    OthersStay(s, s', d);
  }

  lemma OtherOwns(s: System, s': System, d: nat, e: nat)
    requires LockInv(s) && Holding(s.At(d)) && Holding(s.At(e)) && e != d && s'.holders == s.holders - {s.At(d).gen}
    requires s'.lock == s.lock && s'.file == s.file
    ensures Owns(s', e, s.At(e).gen)
  {
    assert DriverOk(s, e) && DriverOk(s, d);
  }

  lemma HoldersLeave(s: System, s': System, d: nat)
    requires LockInv(s) && Holding(s.At(d)) && s'.holders == s.holders - {s.At(d).gen}
    requires s'.nextGen == s.nextGen && forall e: nat :: e != d ==> s'.At(e) == s.At(e)
    ensures forall gen :: gen in s'.holders ==> gen < s'.nextGen && Holding(s'.At(s'.holders[gen])) && s'.At(s'.holders[gen]).gen == gen
  {
    hide DriverOk;
    assert forall gen :: gen in s.holders ==> gen < s.nextGen && Holding(s.At(s.holders[gen])) && s.At(s.holders[gen]).gen == gen;
  }

  // A holder of a live state writes a final one and lets go.
  lemma WriteReleaseKeeps(s: System, d: nat, life: Life)
    requires LockInv(s) && s.Live() && !s.stranded && Holding(s.At(d)) && life != RunningDispatch
    ensures LockInv(s.Release(d, s.At(d).gen).(file := Some(life)))
  {
    hide DriverOk;
    var s' := s.Release(d, s.At(d).gen).(file := Some(life));
    forall e: nat
      ensures DriverOk(s', e)
    {
      if e != d { Bystander(s, s', d, e); } else { IdleOk(s', d); }
    }
    HoldersLeave(s, s', d);
  }

  lemma IdleOk(s: System, d: nat)
    requires s.At(d).Idle?
    ensures DriverOk(s, d)
  {
  }

  // What a driver knows after reading the state.
  lemma Seen(s: System, d: nat)
    requires LockInv(s) && s.At(d).Loaded?
    ensures Owns(s, d, s.At(d).gen)
    ensures s.At(d).seen.Some? && s.At(d).seen.value != TornDown ==> s.file == s.At(d).seen && s.Live()
    ensures s.At(d).seen.None? || s.At(d).seen.value == TornDown ==> !s.Live()
  {
    assert DriverOk(s, d);
  }

  lemma RunningIsStranded(s: System, d: nat)
    requires LockInv(s) && s.At(d).Loaded? && s.file == Some(RunningDispatch)
    ensures s.stranded
  {
    if !s.stranded {
      var e: nat :| s.At(e).Dispatching?;
      OneHolder(s, d, e);
    }
  }

  lemma DecideKeeps(s: System, d: nat)
    requires LockInv(s) && s.At(d).Loaded?
    ensures LockInv(Step(s, d, Decide))
  {
    hide LockInv, DriverOk;
    var op, gen, seen := s.At(d).op, s.At(d).gen, s.At(d).seen;
    Seen(s, d);
    var to := match op case DispatchOp => RunningDispatch case StopOp => Stopping case TeardownOp => TornDown;
    Facts(s);
    if seen.Some? && CanTransition(seen.value, to) {
      var pc := match op case DispatchOp => Dispatching(gen) case StopOp => StopSent(gen) case TeardownOp => Helping(gen);
      assert DriverOk(Wrote(s, d, pc, Some(to)), d) by { WroteOk(s, d, pc, to); }
      WriteKeeps(s, d, pc, to);
    } else if op == TeardownOp && (seen.None? || seen.value == TornDown) {
      var pc := if seen.None? then Removing(gen) else Helping(gen);
      assert DriverOk(s.Go(d, pc), d) by { WentOk(s, d, pc); }
      GoKeeps(s, d, pc);
    } else if seen.Some? {
      if op == TeardownOp { RunningIsStranded(s, d); }
      ReleaseKeeps(s, d, s.refused + [(op, seen.value)]);
    } else {
      ReleaseKeeps(s, d, s.refused);
    }
  }

  lemma Facts(s: System)
    requires LockInv(s)
    ensures s.stranded ==> s.file == Some(RunningDispatch)
    ensures forall i :: 0 <= i < |s.refused| && s.refused[i].0 == TeardownOp ==> s.refused[i].1 == RunningDispatch && s.stranded
  {
  }

  lemma WroteOk(s: System, d: nat, pc: Pc, to: Life)
    requires (pc.Dispatching? && to == RunningDispatch) || (pc.StopSent? && to == Stopping) || (pc.Helping? && to == TornDown)
    requires Owns(s, d, pc.gen) && s.Live() && !s.stranded
    ensures DriverOk(Wrote(s, d, pc, Some(to)), d)
  {
  }

  lemma WentOk(s: System, d: nat, pc: Pc)
    requires (pc.Removing? || pc.Helping?) && Owns(s, d, pc.gen) && !s.Live()
    ensures DriverOk(s.Go(d, pc), d)
  {
  }

  lemma LoadKeeps(s: System, d: nat)
    requires LockInv(s) && s.At(d).Locked?
    ensures LockInv(Step(s, d, Load))
  {
    var pc := Loaded(s.At(d).op, s.At(d).gen, s.file);
    assert DriverOk(s, d);
    assert DriverOk(s.Go(d, pc), d);
    hide LockInv, DriverOk;
    GoKeeps(s, d, pc);
  }

  lemma FinishKeeps(s: System, d: nat, reply: GuestReply)
    requires LockInv(s) && s.At(d).Dispatching?
    ensures LockInv(Step(s, d, Finish(reply)))
  {
    assert DriverOk(s, d);
    hide LockInv, DriverOk;
    WriteReleaseKeeps(s, d, if reply == Fatal then Failed else Ready);
  }

  lemma StopKeeps(s: System, d: nat, reached: bool, reply: GuestReply)
    requires LockInv(s) && s.At(d).StopSent?
    ensures LockInv(Step(s, d, StopEnds(reached, reply)))
  {
    assert DriverOk(s, d);
    Facts(s);
    hide LockInv, DriverOk;
    if reached {
      WriteReleaseKeeps(s, d, if reply == Answered then TornDown else Failed);
    } else {
      ReleaseKeeps(s, d, s.refused);
    }
  }

  lemma HelpKeeps(s: System, d: nat, reached: bool)
    requires LockInv(s) && s.At(d).Helping?
    ensures LockInv(Step(s, d, HelpEnds(reached)))
  {
    assert DriverOk(s, d);
    Facts(s);
    hide LockInv, DriverOk;
    if reached {
      WentOk(s, d, Removing(s.At(d).gen));
      GoKeeps(s, d, Removing(s.At(d).gen));
    } else {
      ReleaseKeeps(s, d, s.refused);
    }
  }

  // Removal happens only when the state can no longer move, and touches nothing a driver relies on then.
  lemma UnlinkKeeps(s: System, s': System, d: nat)
    requires LockInv(s) && s.At(d).Removing?
    requires s' == s.(lock := None) || s' == s.(file := None)
    ensures LockInv(s')
  {
    assert DriverOk(s, d);
    forall e: nat
      ensures DriverOk(s', e)
    {
      assert DriverOk(s, e);
    }
  }

  lemma DieKeeps(s: System, d: nat)
    requires LockInv(s) && !s.At(d).Idle?
    ensures LockInv(Step(s, d, Die))
  {
    assert DriverOk(s, d);
    Facts(s);
    var s' := Step(s, d, Die);
    if s.At(d).Dispatching? {
      hide DriverOk;
      forall e: nat
        ensures DriverOk(s', e)
      {
        if e != d { Bystander(s, s', d, e); } else { IdleOk(s', d); }
      }
      HoldersLeave(s, s', d);
    } else if s.At(d).Want? {
      forall e: nat
        ensures DriverOk(s', e)
      {
        assert DriverOk(s, e);
      }
      OthersStay(s, s', d);
    } else {
      hide LockInv, DriverOk;
      ReleaseKeeps(s, d, s.refused);
    }
  }

  lemma StepKeeps(s: System, d: nat, a: Action)
    requires LockInv(s)
    ensures LockInv(Step(s, d, a))
  {
    hide LockInv, Decided;
    var pc := s.At(d);
    match a
    case Open(op) => if pc.Idle? { OpenKeeps(s, d, op); }
    case Acquire => if pc.Want? && pc.gen !in s.holders { AcquireKeeps(s, d); }
    case Load => if pc.Locked? { LoadKeeps(s, d); }
    case Decide => if pc.Loaded? { DecideKeeps(s, d); }
    case Finish(reply) => if pc.Dispatching? { FinishKeeps(s, d, reply); }
    case StopEnds(reached, reply) => if pc.StopSent? { StopKeeps(s, d, reached, reply); }
    case HelpEnds(reached) => if pc.Helping? { HelpKeeps(s, d, reached); }
    case UnlinkLock => if pc.Removing? { UnlinkKeeps(s, s.(lock := None), d); }
    case UnlinkState => if pc.Removing? { UnlinkKeeps(s, s.(file := None), d); }
    case RemoveEnds => if pc.Removing? { Facts(s); ReleaseKeeps(s, d, s.refused); }
    case Die => if !pc.Idle? { DieKeeps(s, d); }
  }

  // ---- every run ------------------------------------------------------------------------------------------------------

  lemma {:induction false} EveryRun(life: Life, steps: seq<(nat, Action)>)
    requires life != RunningDispatch
    ensures LockInv(RunFrom(Created(life), steps))
    decreases |steps|
  {
    hide Step;
    if steps != [] {
      var n := |steps| - 1;
      EveryRun(life, steps[..n]);
      hide LockInv;
      StepKeeps(RunFrom(Created(life), steps[..n]), steps[n].0, steps[n].1);
    }
  }

  /** In every run: with the lock free, the state is a running dispatch exactly when a driver died in
      the middle of one. Unless that happened, no teardown was ever refused. */
  lemma FreeNeverRunning(life: Life, steps: seq<(nat, Action)>)
    requires life != RunningDispatch
    ensures var s := RunFrom(Created(life), steps);
            && (s.LockFree() ==> (s.file == Some(RunningDispatch) <==> s.stranded))
            && (!s.stranded ==> forall i :: 0 <= i < |s.refused| ==> s.refused[i].0 != TeardownOp)
  {
    hide Step, RunFrom;
    EveryRun(life, steps);
    var s := RunFrom(Created(life), steps);
    if s.file == Some(RunningDispatch) && !s.stranded {
      var d: nat :| s.At(d).Dispatching?;
      assert DriverOk(s, d);
    }
  }

  /** Only dying drivers strand an instance. */
  lemma {:induction false} NobodyDied(life: Life, steps: seq<(nat, Action)>)
    requires forall i :: 0 <= i < |steps| ==> !steps[i].1.Die?
    ensures !RunFrom(Created(life), steps).stranded
    decreases |steps|
  {
    if steps != [] { NobodyDied(life, steps[..|steps| - 1]); }
  }

  /** A stranded instance stays as it is: no step of any driver changes its state again. */
  lemma StrandedForever(s: System, d: nat, a: Action)
    requires LockInv(s) && s.stranded
    ensures Step(s, d, a).stranded && Step(s, d, a).file == Some(RunningDispatch)
  {
    hide LockInv;
    StepKeeps(s, d, a);
    Facts(Step(s, d, a));
    StrandedStays(s, d, a);
  }

  lemma StrandedStays(s: System, d: nat, a: Action)
    ensures s.stranded ==> Step(s, d, a).stranded
  {
  }

  /** The shortest way there, and what follows: stop and teardown are refused for good. */
  lemma StrandedExample()
    ensures var steps := [(0, Open(DispatchOp)), (0, Acquire), (0, Load), (0, Decide), (0, Die)];
            var s := RunFrom(Created(Ready), steps);
            s.stranded && s.LockFree() && s.file == Some(RunningDispatch)
    ensures !CanTransition(RunningDispatch, RunningDispatch) && !CanTransition(RunningDispatch, Stopping)
            && !CanTransition(RunningDispatch, TornDown)
  {
    var a: seq<(nat, Action)> := [(0, Open(DispatchOp)), (0, Acquire), (0, Load), (0, Decide), (0, Die)];
    var s0 := Created(Ready);
    hide Decided, CanTransition, Step;
    RunSnoc(s0, a[..4], a[4]);
    RunSnoc(s0, a[..3], a[3]);
    RunSnoc(s0, a[..2], a[2]);
    RunSnoc(s0, a[..1], a[1]);
    RunSnoc(s0, [], a[0]);
    assert a[..4] + [a[4]] == a && a[..3] + [a[3]] == a[..4] && a[..2] + [a[2]] == a[..3] && a[..1] + [a[1]] == a[..2]
           && [] + [a[0]] == a[..1];
    FiveSteps();
  }

  lemma RunSnoc(s: System, steps: seq<(nat, Action)>, last: (nat, Action))
    ensures RunFrom(s, steps + [last]) == Step(RunFrom(s, steps), last.0, last.1)
    ensures RunFrom(s, []) == s
  {
    assert (steps + [last])[..|steps|] == steps;
  }

  lemma FiveSteps()
    ensures var s4 := Step(Step(Step(Step(Created(Ready), 0, Open(DispatchOp)), 0, Acquire), 0, Load), 0, Decide);
            var s := Step(s4, 0, Die);
            s.stranded && s.LockFree() && s.file == Some(RunningDispatch)
    ensures !CanTransition(RunningDispatch, RunningDispatch) && !CanTransition(RunningDispatch, Stopping)
            && !CanTransition(RunningDispatch, TornDown)
  {
    ThreeSteps();
    var s3 := ReadyRead();
    assert Step(s3, 0, Decide) == s3.Go(0, Dispatching(0)).(file := Some(RunningDispatch));
  }

  /** One driver has locked and read a ready instance. */
  function ReadyRead(): System {
    System(Some(Ready), Some(0), 1, map[0 := 0], map[0 := Loaded(DispatchOp, 0, Some(Ready))], [], false)
  }

  lemma ThreeSteps()
    ensures Step(Step(Step(Created(Ready), 0, Open(DispatchOp)), 0, Acquire), 0, Load) == ReadyRead()
  {
    hide Decided;
    var s1 := System(Some(Ready), Some(0), 1, map[], map[0 := Want(DispatchOp, 0)], [], false);
    assert Step(Created(Ready), 0, Open(DispatchOp)) == s1;
    var s2 := System(Some(Ready), Some(0), 1, map[0 := 0], map[0 := Locked(DispatchOp, 0)], [], false);
    assert Step(s1, 0, Acquire) == s2;
  }

  /** `TornDown` is final until removal, and a removed state does not come back. */
  lemma TornDownFinal(s: System, d: nat, a: Action)
    requires LockInv(s) && !s.Live()
    ensures Step(s, d, a).file == s.file || Step(s, d, a).file.None?
  {
    hide CanTransition;
    assert DriverOk(s, d);
    if s.At(d).Loaded? && s.At(d).seen.Some? { TransitionTable(s.At(d).seen.value, RunningDispatch); }
    if s.At(d).Loaded? && s.At(d).seen.Some? { TransitionTable(s.At(d).seen.value, Stopping); }
    if s.At(d).Loaded? && s.At(d).seen.Some? { TransitionTable(s.At(d).seen.value, TornDown); }
  }

  // ---- concurrent dispatches --------------------------------------------------------------------------------------------

  /** Steps of drivers that only dispatch, to a guest that stays alive. */
  predicate OnlyDispatches(steps: seq<(nat, Action)>) {
    forall i :: 0 <= i < |steps| ==>
      !steps[i].1.Die? && steps[i].1 !in {Open(StopOp), Open(TeardownOp), Finish(Fatal)}
  }

  predicate DispatchPc(pc: Pc) {
    pc.Idle? || pc.Dispatching? || ((pc.Want? || pc.Locked? || pc.Loaded?) && pc.op == DispatchOp)
  }

  ghost predicate Dispatches(s: System) {
    && s.refused == [] && (forall d: nat :: DispatchPc(s.At(d)))
    && s.file in {Some(Ready), Some(RunningDispatch)}
  }

  /** Any number of concurrent dispatches on a ready instance: none ever sees a lifecycle error, and
      whenever the lock is free the instance is ready. */
  lemma {:induction false} ConcurrentDispatches(steps: seq<(nat, Action)>)
    requires OnlyDispatches(steps)
    ensures var s := RunFrom(Created(Ready), steps);
            LockInv(s) && Dispatches(s) && !s.stranded && (s.LockFree() ==> s.file == Some(Ready))
    decreases |steps|
  {
    EveryRun(Ready, steps);
    NobodyDied(Ready, steps);
    FreeNeverRunning(Ready, steps);
    hide LockInv;
    if steps != [] {
      hide Step, RunFrom;
      var n := |steps| - 1;
      ConcurrentDispatches(steps[..n]);
      RunSnoc(Created(Ready), steps[..n], steps[n]);
      assert steps[..n] + [steps[n]] == steps;
      DispatchStep(RunFrom(Created(Ready), steps[..n]), steps[n].0, steps[n].1);
    }
  }

  lemma DispatchStep(s: System, d: nat, a: Action)
    requires LockInv(s) && Dispatches(s) && !s.stranded
    requires !a.Die? && a !in {Open(StopOp), Open(TeardownOp), Finish(Fatal)}
    ensures Dispatches(Step(s, d, a))
  {
    assert DriverOk(s, d) && DispatchPc(s.At(d));
    if s.At(d).Loaded? && s.file == Some(RunningDispatch) { RunningIsStranded(s, d); }
    hide LockInv, DriverOk;
    var s' := Step(s, d, a);
    forall e: nat
      ensures DispatchPc(s'.At(e))
    {
      assert DispatchPc(s.At(e));
    }
  }

  // ---- the operations as uninterrupted steps -------------------------------------------------------------------------

  /** A driver goes from idle to its decision without interruption. */
  function Entered(s: System, d: nat, op: Op): System {
    Step(Step(Step(Step(s, d, Open(op)), d, Acquire), d, Load), d, Decide)
  }

  // With the lock free it gets in, having read the present state.
  lemma EntersDeciding(s: System, d: nat, op: Op) returns (s3: System, gen: nat)
    requires LockInv(s) && s.At(d).Idle? && s.LockFree()
    ensures s3.At(d) == Loaded(op, gen, s3.file) && s3.file == s.file && Entered(s, d, op) == Decided(s3, d, op, gen, s.file)
  {
    hide LockInv, Decided, DriverOk;
    var s1 := Step(s, d, Open(op));
    FreshGeneration(s);
    assert s1.At(d).Want? && s1.At(d).gen !in s1.holders;
    var s2 := Step(s1, d, Acquire);
    s3, gen := Step(s2, d, Load), s1.At(d).gen;
  }

  lemma FreshGeneration(s: System)
    requires LockInv(s)
    ensures s.nextGen !in s.holders
  {
    hide DriverOk;
  }

  /** Run alone, the steps of each operation leave the state that `Instance` promises. */
  lemma AloneAsInstance(s: System, d: nat, reached: bool, reply: GuestReply)
    requires LockInv(s) && s.At(d).Idle? && s.LockFree()
    ensures Step(Entered(s, d, DispatchOp), d, Finish(reply)).file ==
            if s.file == Some(Ready) then Some(if reply == Fatal then Failed else Ready) else s.file
    ensures Step(Entered(s, d, StopOp), d, StopEnds(reached, reply)).file ==
            if s.file.Some? && s.file.value in {Booting, Ready}
            then Some(if !reached then Stopping else if reply == Answered then TornDown else Failed) else s.file
    ensures Step(Step(Entered(s, d, TeardownOp), d, HelpEnds(reached)), d, UnlinkState).file ==
            if s.file == Some(RunningDispatch) then s.file
            else if s.file.Some? && !reached then Some(TornDown) else None
  {
    hide LockInv, Entered, Decided, Step;
    var s3, gen := EntersDeciding(s, d, DispatchOp);
    DispatchAlone(s3, d, gen, reply);
    s3, gen := EntersDeciding(s, d, StopOp);
    StopAlone(s3, d, gen, reached, reply);
    s3, gen := EntersDeciding(s, d, TeardownOp);
    TeardownAlone(s3, d, gen, reached);
  }

  lemma DispatchAlone(s: System, d: nat, gen: nat, reply: GuestReply)
    requires s.At(d) == Loaded(DispatchOp, gen, s.file)
    ensures Step(Decided(s, d, DispatchOp, gen, s.file), d, Finish(reply)).file ==
            if s.file == Some(Ready) then Some(if reply == Fatal then Failed else Ready) else s.file
  {
  }

  lemma StopAlone(s: System, d: nat, gen: nat, reached: bool, reply: GuestReply)
    requires s.At(d) == Loaded(StopOp, gen, s.file)
    ensures Step(Decided(s, d, StopOp, gen, s.file), d, StopEnds(reached, reply)).file ==
            if s.file.Some? && s.file.value in {Booting, Ready}
            then Some(if !reached then Stopping else if reply == Answered then TornDown else Failed) else s.file
  {
  }

  lemma TeardownAlone(s: System, d: nat, gen: nat, reached: bool)
    requires s.At(d) == Loaded(TeardownOp, gen, s.file)
    ensures Step(Step(Decided(s, d, TeardownOp, gen, s.file), d, HelpEnds(reached)), d, UnlinkState).file ==
            if s.file == Some(RunningDispatch) then s.file
            else if s.file.Some? && !reached then Some(TornDown) else None
  {
    hide Step;
    var s4 := Decided(s, d, TeardownOp, gen, s.file);
    HelpThenUnlink(s4, d, reached);
  }

  lemma HelpThenUnlink(s: System, d: nat, reached: bool)
    ensures Step(Step(s, d, HelpEnds(reached)), d, UnlinkState).file ==
            if s.At(d).Removing? || (s.At(d).Helping? && reached) then None else s.file
  {
  }
}
