/** The boot policy (petri-protocol policy.rs): two capability axes, each with a default level and a
    ceiling, built from a raw document that may be malformed.
 */
module Policy {
  import opened Bytes

  datatype CommandLevel = NoCommands | ReadOnly | Edit | Yolo {
    function Rank(): nat {
      match this case NoCommands => 0 case ReadOnly => 1 case Edit => 2 case Yolo => 3
    }

    function Name(): string {
      match this case NoCommands => "none" case ReadOnly => "read_only" case Edit => "edit" case Yolo => "yolo"
    }
  }

  datatype NetworkLevel = NoEgress | Allowlist | Full {
    function Rank(): nat {
      match this case NoEgress => 0 case Allowlist => 1 case Full => 2
    }

    function Name(): string {
      match this case NoEgress => "none" case Allowlist => "allowlist" case Full => "full"
    }
  }

  function ParseCommandLevel(name: string): (r: Option<CommandLevel>)
    ensures forall l: CommandLevel :: r == Some(l) <==> name == l.Name()
  {
    if name == "none" then Some(NoCommands)
    else if name == "read_only" then Some(ReadOnly)
    else if name == "edit" then Some(Edit)
    else if name == "yolo" then Some(Yolo)
    else None
  }

  function ParseNetworkLevel(name: string): (r: Option<NetworkLevel>)
    ensures forall l: NetworkLevel :: r == Some(l) <==> name == l.Name()
  {
    if name == "none" then Some(NoEgress)
    else if name == "allowlist" then Some(Allowlist)
    else if name == "full" then Some(Full)
    else None
  }

  datatype CommandPolicy = CommandPolicy(start: CommandLevel, max: CommandLevel, readOnly: set<string>, edit: set<string>) {
    /** Whether `command` may launch at `level`. */
    predicate Allows(level: CommandLevel, command: string) {
      match level
      case NoCommands => false
      case ReadOnly => command in readOnly
      case Edit => command in readOnly || command in edit
      case Yolo => true
    }

    predicate Valid() { start.Rank() <= max.Rank() }
  }

  /** Levels are cumulative: whatever a level allows, every higher one does. */
  lemma AllowsGrows(policy: CommandPolicy, low: CommandLevel, high: CommandLevel, command: string)
    requires low.Rank() <= high.Rank() && policy.Allows(low, command)
    ensures policy.Allows(high, command)
  {
  }

  datatype NetworkPolicy = NetworkPolicy(start: NetworkLevel, max: NetworkLevel, allowlist: seq<string>) {
    predicate Valid() { start.Rank() <= max.Rank() }
  }

  datatype Policy = Policy(networkEnabled: bool, network: NetworkPolicy, command: CommandPolicy,
                           maxRuntimeSecs: nat, maxOutputBytes: nat, dropPrivileges: bool) {
    /** What every loaded policy satisfies. */
    predicate Valid() {
      && command.Valid() && network.Valid() && 0 < maxRuntimeSecs && 0 < maxOutputBytes
      && (!networkEnabled ==> network == NetworkPolicy(NoEgress, NoEgress, []))
      && (forall c :: c in command.readOnly + command.edit ==> ExecutableName(c))
    }
  }

  // ---- names -------------------------------------------------------------------------------------------

  /** The Unicode `White_Space` property. */
  predicate IsWhitespace(ch: char) {
    var c := ch as int;
    || 0x09 <= c <= 0x0D || c == 0x20 || c == 0x85 || c == 0xA0 || c == 0x1680 || 0x2000 <= c <= 0x200A
    || c == 0x2028 || c == 0x2029 || c == 0x202F || c == 0x205F || c == 0x3000
  }

  predicate ShellChar(ch: char) { ch in {'/', '\\', '|', '&', ';', '<', '>'} }

  predicate ExecutableName(command: string) {
    command != "" && forall i :: 0 <= i < |command| ==> !IsWhitespace(command[i]) && !ShellChar(command[i])
  }

  predicate AllowlistEntry(entry: string) {
    entry != "" && forall i :: 0 <= i < |entry| ==> !IsWhitespace(entry[i])
  }

  /** A name with a path separator, a shell operator or white space anywhere in it is refused. */
  lemma ShellNamesRefused(a: string, c: char, b: string)
    requires c in {'/', '\\', '|', '&', ';', '<', '>', ' ', '\t', '\n', '\r'}
    ensures !ExecutableName(a + [c] + b)
    ensures c in {' ', '\t', '\n', '\r'} ==> !AllowlistEntry(a + [c] + b)
  {
    assert (a + [c] + b)[|a|] == c;
  }

  /** A name of ASCII letters, digits, dots, dashes and underscores is not. */
  lemma PlainNamesAccepted(name: string)
    requires name != ""
    requires forall i :: 0 <= i < |name| ==>
               || 'a' <= name[i] <= 'z' || 'A' <= name[i] <= 'Z' || '0' <= name[i] <= '9' || name[i] in {'.', '-', '_'}
    ensures ExecutableName(name) && AllowlistEntry(name)
  {
    forall i | 0 <= i < |name|
      ensures !IsWhitespace(name[i]) && !ShellChar(name[i])
    {
    }
  }

  predicate Distinct(names: seq<string>) {
    forall i, j :: 0 <= i < j < |names| ==> names[i] != names[j]
  }

  // ---- building -------------------------------------------------------------------------------------------

  datatype RawCommand = RawCommand(start: string, max: string, readOnly: seq<string>, edit: seq<string>)

  datatype RawNetwork = RawNetwork(start: string, max: string, allowlist: seq<string>)

  datatype RawPolicy = RawPolicy(networkEnabled: bool, allowedCommands: Option<seq<string>>, command: Option<RawCommand>,
                                 network: Option<RawNetwork>, maxRuntimeSecs: nat, maxOutputBytes: nat,
                                 workspaceAbsolute: bool, dropPrivileges: bool)

  predicate CommandSet(names: seq<string>) {
    Distinct(names) && forall i :: 0 <= i < |names| ==> ExecutableName(names[i])
  }

  /** A command list is accepted exactly when its entries are executable names without repetition. */
  method ValidateCommandSet(names: seq<string>) returns (r: Option<set<string>>)
    ensures r.Some? <==> CommandSet(names)
    ensures r.Some? ==> forall c :: c in r.value <==> c in names
  {
    var all := {};
    for i := 0 to |names|
      invariant CommandSet(names[..i])
      invariant forall c :: c in all <==> c in names[..i]
    {
      assert names[..i + 1] == names[..i] + [names[i]];
      if !ExecutableName(names[i]) { return None; }
      if names[i] in all { return None; }
      all := all + {names[i]};
    }
    assert names[..|names|] == names;
    r := Some(all);
  }

  predicate EntryList(entries: seq<string>) {
    Distinct(entries) && forall i :: 0 <= i < |entries| ==> AllowlistEntry(entries[i])
  }

  method ValidateAllowlist(entries: seq<string>) returns (r: Option<seq<string>>)
    ensures r == if EntryList(entries) then Some(entries) else None
  {
    var seen := {};
    for i := 0 to |entries|
      invariant EntryList(entries[..i])
      invariant forall e :: e in seen <==> e in entries[..i]
    {
      assert entries[..i + 1] == entries[..i] + [entries[i]];
      if !AllowlistEntry(entries[i]) { return None; }
      if entries[i] in seen { return None; }
      seen := seen + {entries[i]};
    }
    assert entries[..|entries|] == entries;
    r := Some(entries);
  }

  predicate CommandAxis(legacy: Option<seq<string>>, modern: Option<RawCommand>) {
    match (legacy, modern)
    case (Some(names), None) => CommandSet(names)
    case (None, Some(raw)) =>
      var start, max := ParseCommandLevel(raw.start), ParseCommandLevel(raw.max);
      start.Some? && max.Some? && start.value.Rank() <= max.value.Rank() && CommandSet(raw.readOnly) && CommandSet(raw.edit)
    case _ => false
  }

  method BuildCommandPolicy(legacy: Option<seq<string>>, modern: Option<RawCommand>) returns (r: Option<CommandPolicy>)
    ensures r.Some? <==> CommandAxis(legacy, modern)
    ensures r.Some? ==> r.value.Valid() && forall c :: c in r.value.readOnly || c in r.value.edit ==> ExecutableName(c)
    ensures r.Some? && legacy.Some? ==>
              r.value.start == r.value.max == Edit && forall c :: r.value.Allows(Edit, c) <==> c in legacy.value
    ensures r.Some? && legacy.Some? ==>
              forall c :: !r.value.Allows(NoCommands, c) && !r.value.Allows(ReadOnly, c) && r.value.Allows(Yolo, c)
    ensures r.Some? && modern.Some? ==>
              && r.value.start.Name() == modern.value.start && r.value.max.Name() == modern.value.max
              && (forall c :: c in r.value.readOnly <==> c in modern.value.readOnly)
              && (forall c :: c in r.value.edit <==> c in modern.value.edit)
    ensures r.Some? && modern.Some? ==>
              forall c ::
                && !r.value.Allows(NoCommands, c)
                && (r.value.Allows(ReadOnly, c) <==> c in modern.value.readOnly)
                && (r.value.Allows(Edit, c) <==> c in modern.value.readOnly || c in modern.value.edit)
                && r.value.Allows(Yolo, c)
  {
    hide ExecutableName;
    match (legacy, modern)
    case (Some(names), None) =>
      var edit := ValidateCommandSet(names);
      if edit.None? { return None; }
      return Some(CommandPolicy(Edit, Edit, {}, edit.value));
    case (None, Some(raw)) =>
      var start, max := ParseCommandLevel(raw.start), ParseCommandLevel(raw.max);
      if start.None? || max.None? { return None; }
      if start.value.Rank() > max.value.Rank() { return None; }
      var readOnly := ValidateCommandSet(raw.readOnly);
      if readOnly.None? { return None; }
      var edit := ValidateCommandSet(raw.edit);
      if edit.None? { return None; }
      return Some(CommandPolicy(start.value, max.value, readOnly.value, edit.value));
    case _ => return None;
  }

  predicate NetworkAxis(enabled: bool, modern: Option<RawNetwork>) {
    modern.Some? ==>
      var start, max := ParseNetworkLevel(modern.value.start), ParseNetworkLevel(modern.value.max);
      enabled && start.Some? && max.Some? && start.value.Rank() <= max.value.Rank() && EntryList(modern.value.allowlist)
  }

  method BuildNetworkPolicy(enabled: bool, modern: Option<RawNetwork>) returns (r: Option<NetworkPolicy>)
    ensures r.Some? <==> NetworkAxis(enabled, modern)
    ensures r.Some? ==> r.value.Valid() && (!enabled ==> r.value == NetworkPolicy(NoEgress, NoEgress, []))
    ensures r.Some? && modern.None? && enabled ==> r.value == NetworkPolicy(Full, Full, [])
    ensures r.Some? && modern.Some? ==>
              && r.value.start.Name() == modern.value.start && r.value.max.Name() == modern.value.max
              && r.value.allowlist == modern.value.allowlist
  {
    if modern.None? {
      return Some(if enabled then NetworkPolicy(Full, Full, []) else NetworkPolicy(NoEgress, NoEgress, []));
    }
    if !enabled { return None; }
    var start, max := ParseNetworkLevel(modern.value.start), ParseNetworkLevel(modern.value.max);
    if start.None? || max.None? { return None; }
    if start.value.Rank() > max.value.Rank() { return None; }
    var allowlist := ValidateAllowlist(modern.value.allowlist);
    if allowlist.None? { return None; }
    r := Some(NetworkPolicy(start.value, max.value, allowlist.value));
  }

  /** What a document lets launch at a level, in its own lists. The flat list of the legacy shape is for the
      edit level. */
  predicate Written(raw: RawPolicy, level: CommandLevel, command: string) {
    match level
    case NoCommands => false
    case ReadOnly => raw.command.Some? && command in raw.command.value.readOnly
    case Edit =>
      || (raw.allowedCommands.Some? && command in raw.allowedCommands.value)
      || (raw.command.Some? && (command in raw.command.value.readOnly || command in raw.command.value.edit))
    case Yolo => true
  }

  /** `policy` is what the document says. */
  ghost predicate Loaded(raw: RawPolicy, policy: Policy) {
    && policy.Valid() && policy.networkEnabled == raw.networkEnabled && policy.dropPrivileges == raw.dropPrivileges
    && policy.maxRuntimeSecs == raw.maxRuntimeSecs && policy.maxOutputBytes == raw.maxOutputBytes
    && (forall level: CommandLevel, c: string :: policy.command.Allows(level, c) <==> Written(raw, level, c))
    && policy.command.start.Name() == (if raw.command.Some? then raw.command.value.start else "edit")
    && policy.command.max.Name() == (if raw.command.Some? then raw.command.value.max else "edit")
    && (var (start, max, allowlist) :=
          if raw.network.Some? then (raw.network.value.start, raw.network.value.max, raw.network.value.allowlist)
          else if raw.networkEnabled then ("full", "full", []) else ("none", "none", []);
        policy.network.start.Name() == start && policy.network.max.Name() == max && policy.network.allowlist == allowlist)
  }

  /** A document loads exactly when its limits are positive, its workspace absolute and both axes are
      well formed; what loads is valid and says what the document says. */
  method Validate(raw: RawPolicy) returns (r: Option<Policy>)
    ensures r.Some? <==> && 0 < raw.maxRuntimeSecs && 0 < raw.maxOutputBytes && raw.workspaceAbsolute
                         && CommandAxis(raw.allowedCommands, raw.command) && NetworkAxis(raw.networkEnabled, raw.network)
    ensures r.Some? ==> Loaded(raw, r.value)
  {
    hide ExecutableName, CommandSet, NetworkAxis;
    if raw.maxRuntimeSecs == 0 || raw.maxOutputBytes == 0 || !raw.workspaceAbsolute { return None; }
    var command := BuildCommandPolicy(raw.allowedCommands, raw.command);
    if command.None? { return None; }
    var network := BuildNetworkPolicy(raw.networkEnabled, raw.network);
    if network.None? { return None; }
    r := Some(Policy(raw.networkEnabled, network.value, command.value, raw.maxRuntimeSecs, raw.maxOutputBytes, raw.dropPrivileges));
    forall level: CommandLevel, c: string
      ensures command.value.Allows(level, c) <==> Written(raw, level, c)
    {
      hide CommandPolicy.Allows;
      match level
      case NoCommands =>
      case ReadOnly =>
      case Edit =>
      case Yolo =>
    }
  }
}
