/** The guest's dispatch server and its DNS proxy together (guest server.rs, dnsproxy.rs).

    Frames of successive connections interleave with the proxy's steps and the kernel's clock. A mode
    switch is two steps of the server: the ruleset is replaced, then the level is published.
 */
module Enforcement {
  import opened Bytes
  import opened Policy
  import opened Netfilter
  import opened Dns
  import opened Guest

  /** `launched` lists the processes started, each with the level it was started at. */
  datatype Guarded = Guarded(net: State, command: CommandLevel, launched: seq<(CommandLevel, Launch)>)

  datatype Happening =
    | Connect
    | Handle(frame: Frame, env: Env)
    | Settle
    | Proxied(event: Dns.Event)

  /** The levels an accepted switch names; the present ones where it names none. */
  function NewCommand(args: Args, present: CommandLevel): CommandLevel
    requires args.ModeArgs?
  {
    if args.command.Some? && ParseCommandLevel(args.command.value).Some? then ParseCommandLevel(args.command.value).value else present
  }

  function NewNetwork(args: Args): Option<NetworkLevel>
    requires args.ModeArgs?
  {
    if args.network.Some? then ParseNetworkLevel(args.network.value) else None
  }

  function LaunchOf(policy: Policy, frame: Frame): Launch
    requires frame.Dispatch? && frame.request.args.Some? && frame.request.args.value.BashArgs?
  {
    Launch(frame.request.args.value.program, EffectiveTimeoutMs(policy, frame.request.limits),
           EffectiveOutputCap(policy, frame.request.limits))
  }

  /** One step. The server thread does nothing else between replacing a ruleset and publishing its level. */
  function Advance(policy: Policy, cfg: Config, g: Guarded, h: Happening): Guarded {
    match h
    case Connect => if g.net.switch.Quiet? then g.(command := policy.command.start) else g
    case Handle(frame, env) =>
      if !g.net.switch.Quiet? then g
      else if ModeAccepted(policy, frame, env) then
        var args := frame.request.args.value;
        var level := NewNetwork(args);
        g.(command := NewCommand(args, g.command),
           net := if level.Some? then Next(cfg, g.net, Apply(level.value, true)) else g.net)
      else if Launchable(policy, g.command, frame, env) then g.(launched := g.launched + [(g.command, LaunchOf(policy, frame))])
      else g
    case Settle => g.(net := Next(cfg, g.net, Publish))
    case Proxied(event) => if event.Apply? || event.Publish? then g else g.(net := Next(cfg, g.net, event))
  }

  /** A guest that booted as root with its network enabled. */
  function Booted(policy: Policy, cfg: Config): Guarded {
    Guarded(Boot(cfg, policy.network.start), policy.command.start, [])
  }

  function GuardedRun(policy: Policy, cfg: Config, hs: seq<Happening>): Guarded {
    if hs == [] then Booted(policy, cfg) else Advance(policy, cfg, GuardedRun(policy, cfg, hs[..|hs| - 1]), hs[|hs| - 1])
  }

  predicate LaunchSound(policy: Policy, at: CommandLevel, l: Launch) {
    && at.Rank() <= policy.command.max.Rank() && policy.command.Allows(at, l.command)
    && policy.command.Allows(policy.command.max, l.command)
    && ExecutableName(l.command) && 0 < l.timeoutMs <= policy.maxRuntimeSecs * 1000 && 0 < l.outputCap <= policy.maxOutputBytes
  }

  ghost predicate GuardedInv(policy: Policy, cfg: Config, g: Guarded) {
    && ProxyInv(cfg, g.net)
    && g.net.installed.Rank() <= policy.network.max.Rank() && g.net.active.Rank() <= policy.network.max.Rank()
    && g.command.Rank() <= policy.command.max.Rank()
    && forall i :: 0 <= i < |g.launched| ==> LaunchSound(policy, g.launched[i].0, g.launched[i].1)
  }

  lemma HandleKeeps(policy: Policy, cfg: Config, g: Guarded, frame: Frame, env: Env)
    requires policy.Valid() && cfg.Compiled() && GuardedInv(policy, cfg, g)
    ensures GuardedInv(policy, cfg, Advance(policy, cfg, g, Handle(frame, env)))
  {
    hide ProxyInv, Next, Config.Compiled, ExecutableName, LimitsWithin;
    if g.net.switch.Quiet? && ModeAccepted(policy, frame, env) {
      var level := NewNetwork(frame.request.args.value);
      if level.Some? {
        NextKeeps(cfg, g.net, Apply(level.value, true));
        ApplyInstalls(cfg, g.net, level.value);
      }
    } else if g.net.switch.Quiet? && Launchable(policy, g.command, frame, env) {
      LaunchWithin(policy, g.command, frame, env);
    }
  }

  lemma ApplyInstalls(cfg: Config, s: State, level: NetworkLevel)
    requires s.switch.Quiet?
    ensures Next(cfg, s, Apply(level, true)).installed == level && Next(cfg, s, Apply(level, true)).active == s.active
  {
  }

  lemma ProxyLevels(cfg: Config, s: State, e: Dns.Event)
    requires ProxyInv(cfg, s) && !e.Apply?
    ensures Next(cfg, s, e).installed == s.installed
    ensures Next(cfg, s, e).active == s.active || Next(cfg, s, e).active == s.installed
  {
    hide Timely, Installed, Vouched;
  }

  lemma AdvanceKeeps(policy: Policy, cfg: Config, g: Guarded, h: Happening)
    requires policy.Valid() && cfg.Compiled() && GuardedInv(policy, cfg, g)
    ensures GuardedInv(policy, cfg, Advance(policy, cfg, g, h))
  {
    hide ProxyInv, Next, Config.Compiled, LaunchSound;
    match h
    case Connect =>
    case Handle(frame, env) => HandleKeeps(policy, cfg, g, frame, env);
    case Settle =>
      NextKeeps(cfg, g.net, Publish);
      ProxyLevels(cfg, g.net, Publish);
    case Proxied(event) =>
      NextKeeps(cfg, g.net, event);
      if !event.Apply? { ProxyLevels(cfg, g.net, event); }
  }

  /** In every interleaving of frames, connections and proxy steps both published levels and the installed
      one stay within their ceilings, every launch is allowed at the ceiling within the policy's limits,
      and the resolved sets hold only what permitted answers vouched for. */
  lemma {:induction false} EveryGuardedRun(policy: Policy, cfg: Config, hs: seq<Happening>)
    requires policy.Valid() && cfg.Compiled()
    ensures GuardedInv(policy, cfg, GuardedRun(policy, cfg, hs))
    decreases |hs|
  {
    hide ProxyInv, Config.Compiled, Advance, Boot;
    if hs == [] {
      BootInv(cfg, policy.network.start);
      BootLevels(cfg, policy.network.start);
    } else {
      EveryGuardedRun(policy, cfg, hs[..|hs| - 1]);
      AdvanceKeeps(policy, cfg, GuardedRun(policy, cfg, hs[..|hs| - 1]), hs[|hs| - 1]);
    }
  }

  /** The step at `k` switches the command level to `level`. */
  predicate Switches(policy: Policy, cfg: Config, hs: seq<Happening>, k: nat, level: CommandLevel)
    requires k < |hs|
  {
    && hs[k].Handle? && GuardedRun(policy, cfg, hs[..k]).net.switch.Quiet? && ModeAccepted(policy, hs[k].frame, hs[k].env)
    && hs[k].frame.request.args.value.command == Some(level.Name())
  }

  /** The step at `k` opens a connection. */
  predicate Connects(policy: Policy, cfg: Config, hs: seq<Happening>, k: nat)
    requires k < |hs|
  {
    hs[k].Connect? && GuardedRun(policy, cfg, hs[..k]).net.switch.Quiet?
  }

  /** Where a run's command level comes from: it is the policy's default, or it was named by an accepted switch
      since the last connection was opened. */
  lemma {:induction false} LevelComesFrom(policy: Policy, cfg: Config, hs: seq<Happening>)
    ensures var level := GuardedRun(policy, cfg, hs).command;
            || level == policy.command.start
            || exists k :: 0 <= k < |hs| && Switches(policy, cfg, hs, k, level)
                           && forall j :: k < j < |hs| ==> !Connects(policy, cfg, hs, j)
    decreases |hs|
  {
    hide ModeWithin, Next, Launchable, LaunchOf;
    if hs != [] {
      var n := |hs| - 1;
      var init, g, level := hs[..n], GuardedRun(policy, cfg, hs[..n]), GuardedRun(policy, cfg, hs).command;
      LevelComesFrom(policy, cfg, init);
      assert forall k :: 0 <= k < n ==> init[..k] == hs[..k] && init[k] == hs[k];
      if level != policy.command.start {
        if Switches(policy, cfg, hs, n, level) {
        } else {
          assert level == g.command && !Connects(policy, cfg, hs, n) by { LevelMoves(policy, cfg, g, hs[n]); }
          var k :| 0 <= k < n && Switches(policy, cfg, init, k, level) && forall j :: k < j < n ==> !Connects(policy, cfg, init, j);
          assert Switches(policy, cfg, hs, k, level);
          assert forall j :: k < j < n ==> (Connects(policy, cfg, init, j) <==> Connects(policy, cfg, hs, j));
        }
      }
    }
  }

  // One step moves the command level only by connecting or by an accepted switch that names the new one.
  lemma LevelMoves(policy: Policy, cfg: Config, g: Guarded, h: Happening)
    ensures var g' := Advance(policy, cfg, g, h);
            && (h.Connect? && g.net.switch.Quiet? ==> g'.command == policy.command.start)
            && (g'.command != g.command && !h.Connect? ==>
                  && h.Handle? && g.net.switch.Quiet? && ModeAccepted(policy, h.frame, h.env)
                  && h.frame.request.args.value.command == Some(g'.command.Name()))
            && (h.Connect? && !g.net.switch.Quiet? ==> g'.command == g.command)
  {
    hide ModeWithin, Next, Launchable, LaunchOf;
  }

  /** In every such run every process was started at a level whose lists, as the policy document writes
      them, name it: at the read-only level only read-only commands, at the edit level those and the
      edit commands (or the flat list of a legacy document), at no level above the document's ceiling,
      and none at the level "none". */
  lemma LaunchedAsWritten(raw: RawPolicy, policy: Policy, cfg: Config, hs: seq<Happening>, i: nat)
    requires Loaded(raw, policy) && cfg.Compiled() && i < |GuardedRun(policy, cfg, hs).launched|
    ensures var (at, l) := GuardedRun(policy, cfg, hs).launched[i];
            && at != NoCommands
            && (at == ReadOnly ==> raw.command.Some? && l.command in raw.command.value.readOnly)
            && (at == Edit ==>
                  || (raw.allowedCommands.Some? && l.command in raw.allowedCommands.value)
                  || (raw.command.Some? && (l.command in raw.command.value.readOnly || l.command in raw.command.value.edit)))
            && (at == Yolo ==> raw.command.Some? && raw.command.value.max == "yolo")
            && 0 < l.timeoutMs <= raw.maxRuntimeSecs * 1000 && 0 < l.outputCap <= raw.maxOutputBytes
  {
    hide GuardedRun, ProxyInv, Config.Compiled, ExecutableName, CommandPolicy.Allows;
    EveryGuardedRun(policy, cfg, hs);
    var (at, l) := GuardedRun(policy, cfg, hs).launched[i];
    assert LaunchSound(policy, at, l);
    assert policy.command.Allows(at, l.command) <==> Written(raw, at, l.command);
  }

  lemma BootLevels(cfg: Config, level: NetworkLevel)
    ensures Boot(cfg, level).installed == level && Boot(cfg, level).active == level
  {
  }

  /** In every such interleaving the kernel accepts no more than the network ceiling lets out, the ceiling
      taken with the addresses vouched for since the present ruleset was installed. So below a full
      ceiling, a new flow of an unprivileged process leaves the machine only to a listed literal or a
      vouched address. */
  lemma GuardedEgress(policy: Policy, cfg: Config, hs: seq<Happening>, p: Packet)
    requires policy.Valid() && cfg.Compiled() && Accepts(cfg.lit, GuardedRun(policy, cfg, hs).net.table, p)
    ensures var s := GuardedRun(policy, cfg, hs).net;
            && Lets(cfg.lit, policy.network.max, cfg.allowlist, InSets(s), p)
            && (forall a :: a in InSets(s) ==> Vouched(cfg, s, a))
            && (policy.network.max != Full && !p.loopback && !p.established && p.uid != 0 ==>
                  policy.network.max == Allowlist && (Listed(cfg.lit, cfg.allowlist, p.dst) || Vouched(cfg, s, p.dst)))
  {
    hide GuardedRun, Accepts, Installed, Listed, HasDomains, Vouched, Config.Compiled, Timely;
    EveryGuardedRun(policy, cfg, hs);
    var s := GuardedRun(policy, cfg, hs).net;
    LevelsNest(cfg.lit, s.installed, policy.network.max, cfg.allowlist, InSets(s), p);
    PlanExact(cfg.lit, policy.network.max, cfg.allowlist, InSets(s), p);
  }

  // No frame both launches and switches.
  lemma LaunchOrSwitch(policy: Policy, active: CommandLevel, frame: Frame, env: Env)
    ensures !(ModeAccepted(policy, frame, env) && Launchable(policy, active, frame, env))
  {
  }

  /** A frame handled by the server is the two steps of the machine, with nothing in between. */
  method HandleAsSteps(server: Server, frame: Frame, env: Env, active: CommandLevel, cfg: Config, ghost g: Guarded)
    returns (status: Status, active': CommandLevel, launch: Option<Launch>)
    requires server.Valid() && active.Rank() <= server.policy.command.max.Rank()
    requires cfg.lit == server.lit && cfg.allowlist == server.policy.network.allowlist
    requires g.net.switch.Quiet? && g.command == active && g.net.active == server.activeNetwork && g.net.table == server.table
    modifies server
    ensures var g' := Advance(server.policy, cfg, Advance(server.policy, cfg, g, Handle(frame, env)), Settle);
            && g'.net.switch.Quiet? && g'.command == active' && g'.net.active == server.activeNetwork && g'.net.table == server.table
            && g'.launched == g.launched + if launch.Some? then [(active, launch.value)] else []
  {
    hide PlanOf, Installed, ExecutableName, LimitsWithin, Launchable;
    var code;
    LaunchOrSwitch(server.policy, active, frame, env);
    status, code, active', launch := server.HandleFrame(frame, env, active);
    assert g.launched + [] == g.launched;
  }
}
