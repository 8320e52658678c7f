/** The guest's dispatch server (guest server.rs, main.rs): a frame-driven state machine with a
    ceiling on each of two axes.

    A frame is modelled after JSON parsing. What the outside decides per frame — what the DNS proxy
    has put in the kernel's resolved sets by then, whether `nft` succeeds, whether the working
    directory resolves inside the workspace, how a process or a language server ends — comes in as
    `Env`.
 */
module Guest {
  import opened Bytes
  import opened Policy
  import opened Netfilter

  datatype Limits = Limits(timeoutMs: Option<nat>, maxOutputBytes: Option<nat>)

  /** Arguments by the shape they parse to; `Shapeless` parses to neither. */
  datatype Args = BashArgs(program: string) | ModeArgs(command: Option<string>, network: Option<string>) | Shapeless

  datatype Request = Request(version: nat, id: string, control: Option<string>, target: Option<string>,
                             tool: Option<string>, args: Option<Args>, limits: Option<Limits>)

  datatype Frame = EmptyLine | NotJson | NotObject | NotRequest | Dispatch(request: Request)

  datatype Status = Success | Failure | Rejected | TimedOut | Malformed

  datatype Code =
    | NoCode | MalformedFrame | InvalidRequest | UnsupportedVersion | PolicyDenied | UnknownTool
    | InternalError | GuestError | TimeoutExceeded | LspError

  /** How a started process ends. */
  datatype Exit = Exited(ok: bool) | RanOut | CouldNotRun

  datatype LspOutcome = Available | Unavailable | Refused | Broken

  datatype Env = Env(resolved: set<Addr>, nftOk: bool, cwdInside: bool, exit: Exit, lsp: LspOutcome)

  /** A process started for a command. */
  datatype Launch = Launch(command: string, timeoutMs: nat, outputCap: nat)

  const PROTOCOL_VERSION: nat := 1
  const LSP_TOOLS: set<string> := {"lsp_hover", "lsp_definition", "lsp_references", "lsp_diagnostics", "lsp_rename"}

  // ---- what a frame asks for, stated outright --------------------------------------------------------

  /** The request of a frame the server looks into. */
  predicate Addressed(frame: Frame) {
    frame.Dispatch? && frame.request.id != "" && frame.request.version == PROTOCOL_VERSION
  }

  /** Every axis named is a known level within its ceiling, and there is at least one. */
  predicate ModeWithin(policy: Policy, command: Option<string>, network: Option<string>) {
    && (command.Some? || network.Some?)
    && (command.Some? ==> exists l: CommandLevel :: l.Name() == command.value && l.Rank() <= policy.command.max.Rank())
    && (network.Some? ==> exists l: NetworkLevel :: l.Name() == network.value && l.Rank() <= policy.network.max.Rank())
  }

  /** A mode switch that takes effect. */
  predicate ModeAccepted(policy: Policy, frame: Frame, env: Env) {
    && Addressed(frame)
    && var r := frame.request;
    && r.control == Some("set_mode") && r.target.None? && r.tool.None? && r.args.Some? && r.args.value.ModeArgs?
    && ModeWithin(policy, r.args.value.command, r.args.value.network)
    && (r.args.value.network.Some? ==> env.nftOk)
  }

  predicate LimitsWithin(policy: Policy, limits: Option<Limits>) {
    limits.Some? ==>
      && (limits.value.timeoutMs.Some? ==> 0 < limits.value.timeoutMs.value <= policy.maxRuntimeSecs * 1000)
      && (limits.value.maxOutputBytes.Some? ==> 0 < limits.value.maxOutputBytes.value <= policy.maxOutputBytes)
  }

  /** A frame whose command is started at the active level. */
  predicate Launchable(policy: Policy, active: CommandLevel, frame: Frame, env: Env) {
    && Addressed(frame)
    && var r := frame.request;
    && r.control.None? && r.target.None? && r.tool == Some("bash_command") && LimitsWithin(policy, r.limits)
    && r.args.Some? && r.args.value.BashArgs? && ExecutableName(r.args.value.program)
    && policy.command.Allows(active, r.args.value.program) && env.cwdInside
  }

  // ---- limits -------------------------------------------------------------------------------------------

  function EffectiveTimeoutMs(policy: Policy, limits: Option<Limits>): nat {
    if limits.Some? && limits.value.timeoutMs.Some? then Min(limits.value.timeoutMs.value, policy.maxRuntimeSecs * 1000)
    else policy.maxRuntimeSecs * 1000
  }

  function EffectiveOutputCap(policy: Policy, limits: Option<Limits>): nat {
    if limits.Some? && limits.value.maxOutputBytes.Some? then Min(limits.value.maxOutputBytes.value, policy.maxOutputBytes)
    else policy.maxOutputBytes
  }

  // ---- one handled frame, for the record -------------------------------------------------------------------

  datatype Entry = Entry(command: CommandLevel, network: NetworkLevel, command': CommandLevel, network': NetworkLevel,
                         status: Status, launch: Option<Launch>)

  predicate Sound(policy: Policy, e: Entry) {
    && e.command'.Rank() <= policy.command.max.Rank() && e.network'.Rank() <= policy.network.max.Rank()
    && (e.status != Success ==> e.command' == e.command && e.network' == e.network)
    && (e.launch.Some? ==>
          && policy.command.Allows(e.command, e.launch.value.command)
          && policy.command.Allows(policy.command.max, e.launch.value.command)
          && ExecutableName(e.launch.value.command)
          && 0 < e.launch.value.timeoutMs <= policy.maxRuntimeSecs * 1000
          && 0 < e.launch.value.outputCap <= policy.maxOutputBytes)
  }

  class Server {
    const policy: Policy
    const lit: Literals
    /** The guest runs as root and its boot installed the ruleset of the default level. */
    const enforced: bool
    /** Shared by every connection. */
    var activeNetwork: NetworkLevel
    /** The kernel's ruleset, with whatever its resolved sets hold at the moment. */
    var table: Option<Table>
    ghost var history: seq<Entry>

    ghost predicate Valid()
      reads this
    {
      && policy.Valid()
      && activeNetwork.Rank() <= policy.network.max.Rank()
      && (enforced ==> table == Installed(lit, activeNetwork, policy.network.allowlist, SetsOf(table)))
      && (forall i :: 0 <= i < |history| ==> Sound(policy, history[i]))
      && (forall i :: 0 < i < |history| ==> history[i].network == history[i - 1].network')
      && (history != [] ==> history[|history| - 1].network' == activeNetwork)
    }

    constructor (policy: Policy, lit: Literals, enforced: bool, table: Option<Table>)
      requires policy.Valid() && (enforced ==> table == PlanOf(lit, policy.network.start, policy.network.allowlist).table)
      ensures Valid() && this.policy == policy && this.lit == lit && this.enforced == enforced
      ensures activeNetwork == policy.network.start && history == []
    {
      hide PlanOf, Installed;
      FreshSets(lit, policy.network.start, policy.network.allowlist);
      this.policy, this.lit, this.enforced := policy, lit, enforced;
      activeNetwork, this.table := policy.network.start, table;
      history := [];
    }

    /** Boot: install the default level's ruleset. Failing to install a required one is fatal (null). */
    static method Boot(policy: Policy, lit: Literals, root: bool, nftOk: bool) returns (server: Server?)
      requires policy.Valid()
      ensures server == null <==> policy.networkEnabled && root && !nftOk && policy.network.start != Full
      ensures server != null ==> fresh(server) && server.Valid() && server.policy == policy && server.history == []
      ensures server != null ==> server.enforced == (policy.networkEnabled && root) && server.activeNetwork == policy.network.start
    {
      hide Only, Chain;
      var table: Option<Table> := None;
      if policy.networkEnabled && root && policy.network.start != Full {
        if !nftOk { return null; }
        var plan := MakePlan(lit, policy.network.start, policy.network.allowlist);
        table := plan.table;
      }
      server := new Server(policy, lit, policy.networkEnabled && root, table);
    }

    /** What the DNS proxy and the kernel's clock do between frames: the resolved sets, if the ruleset has
        them, hold something else. */
    method ProxyActs(resolved: set<Addr>)
      requires Valid()
      modifies this`table
      ensures Valid()
      ensures SetsOf(table) == if table.Some? && table.value.resolved.Some? then resolved else {}
      ensures table.Some? == old(table).Some?
    {
      hide Only, Chain;
      if table.Some? && table.value.resolved.Some? {
        table := Some(table.value.(resolved := Some(resolved)));
      }
    }

    /** Move one or both levels. Both are checked before anything changes; the ruleset, which may
        fail to install, is replaced first. */
    method SetMode(request: Request, env: Env, active: CommandLevel) returns (status: Status, code: Code, active': CommandLevel)
      requires policy.Valid() && request.control == Some("set_mode")
      modifies this`activeNetwork, this`table
      ensures status == Success <==>
              && request.target.None? && request.tool.None? && request.args.Some? && request.args.value.ModeArgs?
              && ModeWithin(policy, request.args.value.command, request.args.value.network)
              && (request.args.value.network.Some? ==> env.nftOk)
      ensures status == Success || status == Rejected
      ensures code in {NoCode, InvalidRequest, PolicyDenied, InternalError} && (code == NoCode <==> status == Success)
      ensures code == InternalError <==>
              && request.target.None? && request.tool.None? && request.args.Some? && request.args.value.ModeArgs?
              && ModeWithin(policy, request.args.value.command, request.args.value.network)
              && request.args.value.network.Some? && !env.nftOk
      ensures status != Success ==> active' == active && activeNetwork == old(activeNetwork) && table == old(table)
      ensures status == Success ==>
                && (if request.args.value.command.Some? then active'.Name() == request.args.value.command.value else active' == active)
                && (if request.args.value.network.Some?
                    then activeNetwork.Name() == request.args.value.network.value
                         && table == PlanOf(lit, activeNetwork, policy.network.allowlist).table
                    else activeNetwork == old(activeNetwork) && table == old(table))
    {
      hide PlanOf;
      active' := active;
      if request.target.Some? || request.tool.Some? { return Rejected, InvalidRequest, active; }
      if request.args.None? || !request.args.value.ModeArgs? { return Rejected, InvalidRequest, active; }
      var command, network := request.args.value.command, request.args.value.network;
      if command.None? && network.None? { return Rejected, InvalidRequest, active; }
      var newCommand: Option<CommandLevel>, newNetwork: Option<NetworkLevel> := None, None;
      if command.Some? {
        newCommand := ParseCommandLevel(command.value);
        if newCommand.None? { return Rejected, InvalidRequest, active; }
        if newCommand.value.Rank() > policy.command.max.Rank() { return Rejected, PolicyDenied, active; }
      }
      if network.Some? {
        newNetwork := ParseNetworkLevel(network.value);
        if newNetwork.None? { return Rejected, InvalidRequest, active; }
        if newNetwork.value.Rank() > policy.network.max.Rank() { return Rejected, PolicyDenied, active; }
      }
      if newNetwork.Some? {
        var plan := MakePlan(lit, newNetwork.value, policy.network.allowlist);
        if !env.nftOk { return Rejected, InternalError, active; }
        table := plan.table;
      }
      if newCommand.Some? { active' := newCommand.value; }
      if newNetwork.Some? { activeNetwork := newNetwork.value; }
      status, code := Success, NoCode;
    }

    /** Gate and start a command. */
    method BashCommand(request: Request, env: Env, active: CommandLevel) returns (status: Status, code: Code, launch: Option<Launch>)
      ensures launch.Some? <==>
              && request.args.Some? && request.args.value.BashArgs? && ExecutableName(request.args.value.program)
              && policy.command.Allows(active, request.args.value.program) && env.cwdInside
      ensures launch.Some? ==> launch.value == Launch(request.args.value.program, EffectiveTimeoutMs(policy, request.limits),
                                                      EffectiveOutputCap(policy, request.limits))
      ensures if launch.None? then status == Rejected else status in {Success, Failure, TimedOut}
      ensures code in {NoCode, InvalidRequest, PolicyDenied, GuestError, TimeoutExceeded}
      ensures status == Success <==> launch.Some? && env.exit == Exited(true)
      ensures status == TimedOut <==> launch.Some? && env.exit == RanOut
      ensures code == PolicyDenied <==>
              && request.args.Some? && request.args.value.BashArgs? && ExecutableName(request.args.value.program)
              && !(policy.command.Allows(active, request.args.value.program) && env.cwdInside)
    {
      var timeout, cap := EffectiveTimeoutMs(policy, request.limits), EffectiveOutputCap(policy, request.limits);
      if request.args.None? || !request.args.value.BashArgs? { return Rejected, InvalidRequest, None; }
      var program := request.args.value.program;
      if !ExecutableName(program) { return Rejected, InvalidRequest, None; }
      if !policy.command.Allows(active, program) { return Rejected, PolicyDenied, None; }
      if !env.cwdInside { return Rejected, PolicyDenied, None; }
      launch := Some(Launch(program, timeout, cap));
      match env.exit
      case Exited(ok) => status, code := if ok then Success else Failure, NoCode;
      case RanOut => status, code := TimedOut, TimeoutExceeded;
      case CouldNotRun => status, code := Failure, GuestError;
    }

    /** Check the limits a request asks for against the policy. */
    method CheckLimits(limits: Option<Limits>) returns (error: Option<Code>)
      ensures error.None? <==> LimitsWithin(policy, limits)
      ensures error.Some? ==> error.value in {InvalidRequest, PolicyDenied}
    {
      if limits.None? { return None; }
      var timeout, output := limits.value.timeoutMs, limits.value.maxOutputBytes;
      if timeout == Some(0) || output == Some(0) { return Some(InvalidRequest); }
      if timeout.Some? && timeout.value > policy.maxRuntimeSecs * 1000 { return Some(PolicyDenied); }
      if output.Some? && output.value > policy.maxOutputBytes { return Some(PolicyDenied); }
      error := None;
    }

    // The checks of a frame, in the order of server.rs, up to the tool that handles it.
    method Route(frame: Frame, env: Env, active: CommandLevel)
      returns (status: Status, code: Code, active': CommandLevel, launch: Option<Launch>)
      requires policy.Valid()
      modifies this`activeNetwork, this`table
      ensures launch.Some? <==> Launchable(policy, active, frame, env)
      ensures launch.Some? ==> launch.value == Launch(frame.request.args.value.program,
                                                      EffectiveTimeoutMs(policy, frame.request.limits),
                                                      EffectiveOutputCap(policy, frame.request.limits))
      ensures !ModeAccepted(policy, frame, env) ==> active' == active && activeNetwork == old(activeNetwork) && table == old(table)
      ensures ModeAccepted(policy, frame, env) ==>
                && status == Success
                && (var args := frame.request.args.value;
                    && (if args.command.Some? then active'.Name() == args.command.value else active' == active)
                    && (if args.network.Some?
                        then activeNetwork.Name() == args.network.value
                             && table == PlanOf(lit, activeNetwork, policy.network.allowlist).table
                        else activeNetwork == old(activeNetwork) && table == old(table)))
      ensures status == Success ==> ModeAccepted(policy, frame, env) || launch.Some? || IsLsp(frame)
      ensures status == Malformed <==> frame.EmptyLine? || frame.NotJson? || frame.NotObject?
      ensures code == UnsupportedVersion <==> frame.Dispatch? && frame.request.id != "" && frame.request.version != PROTOCOL_VERSION
    {
      hide PlanOf, ExecutableName, ModeWithin, LimitsWithin;
      active', launch := active, None;
      if !frame.Dispatch? {
        status, code := if frame.NotRequest? then Rejected else Malformed, if frame.NotRequest? then InvalidRequest else MalformedFrame;
        return;
      }
      var request := frame.request;
      if request.id == "" { return Rejected, InvalidRequest, active, None; }
      if request.version != PROTOCOL_VERSION { return Rejected, UnsupportedVersion, active, None; }
      if request.control.Some? {
        if request.control.value != "set_mode" { return Rejected, InvalidRequest, active, None; }
        status, code, active' := SetMode(request, env, active);
        return;
      }
      if request.target.Some? { return Rejected, InvalidRequest, active, None; }
      var error := CheckLimits(request.limits);
      if error.Some? { return Rejected, error.value, active, None; }
      if request.tool == Some("bash_command") {
        status, code, launch := BashCommand(request, env, active);
      } else if request.tool.Some? && request.tool.value in LSP_TOOLS {
        match env.lsp {
          case Available => status, code := Success, NoCode;
          case Unavailable => status, code := Success, NoCode;
          case Refused => status, code := Rejected, LspError;
          case Broken => status, code := Failure, GuestError;
        }
      } else {
        status, code := Rejected, if request.tool.Some? then UnknownTool else InvalidRequest;
      }
    }

    /** Handle one frame of a connection whose active command level is `active`. */
    method HandleFrame(frame: Frame, env: Env, active: CommandLevel)
      returns (status: Status, code: Code, active': CommandLevel, launch: Option<Launch>)
      requires Valid() && active.Rank() <= policy.command.max.Rank()
      modifies this
      ensures Valid() && active'.Rank() <= policy.command.max.Rank()
      ensures history == old(history) + [Entry(active, old(activeNetwork), active', activeNetwork, status, launch)]
      ensures launch.Some? <==> Launchable(policy, active, frame, env)
      ensures launch.Some? ==> launch.value == Launch(frame.request.args.value.program,
                                                      EffectiveTimeoutMs(policy, frame.request.limits),
                                                      EffectiveOutputCap(policy, frame.request.limits))
      ensures launch.Some? ==>
                var limits := frame.request.limits;
                && launch.value.timeoutMs == (if limits.Some? && limits.value.timeoutMs.Some? then limits.value.timeoutMs.value
                                              else policy.maxRuntimeSecs * 1000)
                && launch.value.outputCap == (if limits.Some? && limits.value.maxOutputBytes.Some? then limits.value.maxOutputBytes.value
                                              else policy.maxOutputBytes)
      ensures !ModeAccepted(policy, frame, env) ==> active' == active && activeNetwork == old(activeNetwork) && table == old(table)
      ensures ModeAccepted(policy, frame, env) ==> status == Success && Moved(frame.request.args.value, active, old(activeNetwork), active', activeNetwork)
      ensures ModeAccepted(policy, frame, env) ==>
                table == if frame.request.args.value.network.Some? then PlanOf(lit, activeNetwork, policy.network.allowlist).table else old(table)
    {
      hide PlanOf, Installed, ExecutableName;
      ghost var network := activeNetwork;
      status, code, active', launch := Route(frame, env, active);
      ModeStaysWithin(policy, frame, env, active, network, active', activeNetwork);
      FreshSets(lit, activeNetwork, policy.network.allowlist);
      if launch.Some? { LaunchWithin(policy, active, frame, env); }
      history := history + [Entry(active, network, active', activeNetwork, status, launch)];
    }

    /** One connection: the command level starts at the policy's default. */
    method ServeLines(frames: seq<(Frame, Env)>) returns (statuses: seq<Status>)
      requires Valid()
      modifies this
      ensures Valid() && |statuses| == |frames|
      ensures old(history) <= history && |history| == |old(history)| + |frames|
      ensures forall i :: 0 <= i < |frames| ==> history[|old(history)| + i].status == statuses[i]
      ensures frames != [] ==> history[|old(history)|].command == policy.command.start
      ensures forall i :: |old(history)| < i < |history| ==> history[i].command == history[i - 1].command'
    {
      var active := policy.command.start;
      statuses := [];
      for i := 0 to |frames|
        invariant Valid() && active.Rank() <= policy.command.max.Rank() && |statuses| == i
        invariant old(history) <= history && |history| == |old(history)| + i
        invariant forall k :: 0 <= k < i ==> history[|old(history)| + k].status == statuses[k]
        invariant if i == 0 then active == policy.command.start else history[|old(history)|].command == policy.command.start
        invariant i > 0 ==> history[|history| - 1].command' == active
        invariant forall k :: |old(history)| < k < |history| ==> history[k].command == history[k - 1].command'
      {
        ProxyActs(frames[i].1.resolved);
        var status, code, launch;
        status, code, active, launch := HandleFrame(frames[i].0, frames[i].1, active);
        statuses := statuses + [status];
      }
    }

    /** Any run of frames over any number of successive connections: one record per frame, each sound,
        the network level carried from each to the next. */
    method ServeConnections(connections: seq<seq<(Frame, Env)>>)
      requires Valid()
      modifies this
      ensures Valid() && old(history) <= history && |history| == |old(history)| + FrameCount(connections)
    {
      assert connections[..|connections|] == connections;
      for i := 0 to |connections|
        invariant Valid() && old(history) <= history && |history| == |old(history)| + FrameCount(connections[..i])
      {
        assert connections[..i + 1][..i] == connections[..i];
        var statuses := ServeLines(connections[i]);
      }
    }
  }

  /** Enforced egress never exceeds what the network ceiling lets out with the resolved sets as they are. */
  lemma EgressWithinCeiling(server: Server, p: Packet)
    requires server.Valid() && server.enforced && Accepts(server.lit, server.table, p)
    ensures Lets(server.lit, server.policy.network.max, server.policy.network.allowlist, SetsOf(server.table), p)
  {
    hide Accepts, Lets, Installed, Policy.Valid, Sound;
    var lit, list, sets := server.lit, server.policy.network.allowlist, SetsOf(server.table);
    LevelsNest(lit, server.activeNetwork, server.policy.network.max, list, sets, p);
    PlanExact(lit, server.policy.network.max, list, sets, p);
  }

  // A ruleset just installed has empty resolved sets.
  lemma FreshSets(lit: Literals, level: NetworkLevel, allowlist: seq<string>)
    ensures var t := PlanOf(lit, level, allowlist).table;
            SetsOf(t) == {} && t == Installed(lit, level, allowlist, SetsOf(t))
  {
    hide Only, Chain;
  }

  function FrameCount(connections: seq<seq<(Frame, Env)>>): nat {
    if connections == [] then 0 else FrameCount(connections[..|connections| - 1]) + |connections[|connections| - 1]|
  }

  predicate IsLsp(frame: Frame) {
    Addressed(frame) && frame.request.control.None? && frame.request.tool.Some? && frame.request.tool.value in LSP_TOOLS
  }

  /** The levels after an accepted switch: those named, and the others as they were. */
  predicate Moved(args: Args, command: CommandLevel, network: NetworkLevel, command': CommandLevel, network': NetworkLevel)
    requires args.ModeArgs?
  {
    && (if args.command.Some? then command'.Name() == args.command.value else command' == command)
    && (if args.network.Some? then network'.Name() == args.network.value else network' == network)
  }

  // An accepted switch never passes a ceiling.
  lemma ModeStaysWithin(policy: Policy, frame: Frame, env: Env, command: CommandLevel, network: NetworkLevel,
                        command': CommandLevel, network': NetworkLevel)
    requires command.Rank() <= policy.command.max.Rank() && network.Rank() <= policy.network.max.Rank()
    requires ModeAccepted(policy, frame, env) ==> Moved(frame.request.args.value, command, network, command', network')
    requires !ModeAccepted(policy, frame, env) ==> command' == command && network' == network
    ensures command'.Rank() <= policy.command.max.Rank() && network'.Rank() <= policy.network.max.Rank()
  {
  }

  // A launched command would be allowed at the ceiling, within the policy's limits.
  lemma LaunchWithin(policy: Policy, active: CommandLevel, frame: Frame, env: Env)
    requires policy.Valid() && active.Rank() <= policy.command.max.Rank() && Launchable(policy, active, frame, env)
    ensures policy.command.Allows(policy.command.max, frame.request.args.value.program)
    ensures 0 < EffectiveTimeoutMs(policy, frame.request.limits) <= policy.maxRuntimeSecs * 1000
    ensures 0 < EffectiveOutputCap(policy, frame.request.limits) <= policy.maxOutputBytes
  {
    AllowsGrows(policy.command, active, policy.command.max, frame.request.args.value.program);
  }
}
