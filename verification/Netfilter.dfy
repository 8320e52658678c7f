/** The in-guest egress ruleset (netfilter.rs), as a rule list with first-match evaluation.

    Whether a string parses as an address, and which addresses a literal covers, are parameters
    (`Literals`). nftables script text is not modelled; the emitted sets and rules are.
 */
module Netfilter {
  import opened Bytes
  import opened Policy

  datatype Addr = V4(bits: nat) | V6(bits: nat)

  /** Address parsing: is this an IPv4 or IPv6 literal, and does an entry cover an address. */
  datatype Literals = Literals(is4: string -> bool, is6: string -> bool, covers: (string, Addr) -> bool)

  datatype Dest = DestV4 | DestV6 | Domain

  /** The part before any `/prefix`. */
  function AddrPart(entry: string): string {
    if entry == "" || entry[0] == '/' then "" else [entry[0]] + AddrPart(entry[1..])
  }

  function Classify(lit: Literals, entry: string): Dest {
    var addr := AddrPart(entry);
    if lit.is4(addr) then DestV4 else if lit.is6(addr) then DestV6 else Domain
  }

  /** An entry is classified by its address alone: a prefix length after a slash changes nothing. */
  lemma {:induction false} ClassifiedByAddress(lit: Literals, addr: string, prefix: string)
    requires '/' !in addr
    ensures AddrPart(addr) == addr && AddrPart(addr + "/" + prefix) == addr
    ensures Classify(lit, addr + "/" + prefix) == Classify(lit, addr)
    ensures Classify(lit, addr) == DestV4 <==> lit.is4(addr)
    ensures Classify(lit, addr) == DestV6 <==> !lit.is4(addr) && lit.is6(addr)
    decreases |addr|
  {
    var entry := addr + "/" + prefix;
    if addr != "" {
      ClassifiedByAddress(lit, addr[1..], prefix);
      assert entry[1..] == addr[1..] + "/" + prefix;
      assert [addr[0]] + addr[1..] == addr;
    }
  }

  /** The entries of one class, in order. */
  function Only(lit: Literals, entries: seq<string>, dest: Dest): (r: seq<string>)
    ensures forall e :: e in r <==> e in entries && Classify(lit, e) == dest
  {
    if entries == [] then [] else
      var last := entries[|entries| - 1];
      Only(lit, entries[..|entries| - 1], dest) + (if Classify(lit, last) == dest then [last] else [])
  }

  lemma OnlySnoc(lit: Literals, entries: seq<string>, i: nat, dest: Dest)
    requires i < |entries|
    ensures Only(lit, entries[..i + 1], dest) ==
            Only(lit, entries[..i], dest) + (if Classify(lit, entries[i]) == dest then [entries[i]] else [])
  {
    assert entries[..i + 1][..i] == entries[..i];
  }

  // ---- packets and rules -----------------------------------------------------------------------------

  datatype Proto = Udp | Tcp | OtherProto

  /** An outgoing packet. `established` covers the states established and related. */
  datatype Packet = Packet(loopback: bool, established: bool, uid: nat, proto: Proto, dport: nat, dst: Addr)

  predicate DnsPort(p: Packet) { p.proto in {Udp, Tcp} && p.dport in {53, 853} }

  datatype Rule =
    | AcceptLoopback
    | AcceptEstablished
    | AcceptRootDns(proto: Proto)
    | DropDns(proto: Proto)
    | AcceptAllow4
    | AcceptAllow6
    | AcceptResolved4
    | AcceptResolved6

  /** The sets the rules look destinations up in. */
  datatype Table = Table(rules: seq<Rule>, allow4: seq<string>, allow6: seq<string>, resolved: Option<set<Addr>>)

  predicate Covered(lit: Literals, entries: seq<string>, a: Addr) {
    exists i :: 0 <= i < |entries| && lit.covers(entries[i], a)
  }

  predicate Resolved(t: Table, a: Addr) { t.resolved.Some? && a in t.resolved.value }

  predicate Matches(lit: Literals, t: Table, rule: Rule, p: Packet) {
    match rule
    case AcceptLoopback => p.loopback
    case AcceptEstablished => p.established
    case AcceptRootDns(proto) => p.uid == 0 && p.proto == proto && p.dport in {53, 853}
    case DropDns(proto) => p.proto == proto && p.dport in {53, 853}
    case AcceptAllow4 => p.dst.V4? && Covered(lit, t.allow4, p.dst)
    case AcceptAllow6 => p.dst.V6? && Covered(lit, t.allow6, p.dst)
    case AcceptResolved4 => p.dst.V4? && Resolved(t, p.dst)
    case AcceptResolved6 => p.dst.V6? && Resolved(t, p.dst)
  }

  /** First match wins; the chain's policy is drop. */
  predicate FirstMatch(lit: Literals, t: Table, rules: seq<Rule>, p: Packet) {
    if rules == [] then false
    else if Matches(lit, t, rules[0], p) then !rules[0].DropDns?
    else FirstMatch(lit, t, rules[1..], p)
  }

  /** The kernel's verdict: without the table nothing is filtered. */
  predicate Accepts(lit: Literals, table: Option<Table>, p: Packet) {
    table.Some? ==> FirstMatch(lit, table.value, table.value.rules, p)
  }

  // ---- planning -----------------------------------------------------------------------------------------

  /** What a level installs: no table, or a table with fresh (empty) resolved sets. */
  datatype Plan = Plan(table: Option<Table>, skippedDomains: seq<string>)

  function Chain(has4: bool, has6: bool, hasDomains: bool): seq<Rule> {
    [AcceptLoopback, AcceptEstablished]
    + (if hasDomains then [AcceptRootDns(Udp), AcceptRootDns(Tcp), DropDns(Udp), DropDns(Tcp)] else [])
    + (if has4 then [AcceptAllow4] else []) + (if has6 then [AcceptAllow6] else [])
    + (if hasDomains then [AcceptResolved4, AcceptResolved6] else [])
  }

  function FreshTable(v4: seq<string>, v6: seq<string>, hasDomains: bool): Table {
    Table(Chain(v4 != [], v6 != [], hasDomains), v4, v6, if hasDomains then Some({}) else None)
  }

  /** Write the chain, rule by rule. */
  method Render(v4: seq<string>, v6: seq<string>, hasDomains: bool) returns (t: Table)
    ensures t == FreshTable(v4, v6, hasDomains)
  {
    var rules := [AcceptLoopback, AcceptEstablished];
    if hasDomains {
      rules := rules + [AcceptRootDns(Udp), AcceptRootDns(Tcp), DropDns(Udp), DropDns(Tcp)];
    }
    if v4 != [] { rules := rules + [AcceptAllow4]; }
    if v6 != [] { rules := rules + [AcceptAllow6]; }
    if hasDomains { rules := rules + [AcceptResolved4, AcceptResolved6]; }
    t := Table(rules, v4, v6, if hasDomains then Some({}) else None);
  }

  /** The plan of a level, stated outright. */
  function PlanOf(lit: Literals, level: NetworkLevel, allowlist: seq<string>): Plan {
    match level
    case Full => Plan(None, [])
    case NoEgress => Plan(Some(FreshTable([], [], false)), [])
    case Allowlist =>
      var domains := Only(lit, allowlist, Domain);
      Plan(Some(FreshTable(Only(lit, allowlist, DestV4), Only(lit, allowlist, DestV6), domains != [])), domains)
  }

  /** Sort the allowlist into literal sets and domains, and render the chain. */
  method MakePlan(lit: Literals, level: NetworkLevel, allowlist: seq<string>) returns (plan: Plan)
    ensures plan == PlanOf(lit, level, allowlist)
  {
    hide Classify, Only;
    match level
    case Full => return Plan(None, []);
    case NoEgress =>
      var t := Render([], [], false);
      return Plan(Some(t), []);
    case Allowlist =>
      var v4, v6, domains := [], [], [];
      NoneYet(lit, allowlist);
      for i := 0 to |allowlist|
        invariant v4 == Only(lit, allowlist[..i], DestV4)
        invariant v6 == Only(lit, allowlist[..i], DestV6)
        invariant domains == Only(lit, allowlist[..i], Domain)
      {
        OnlySnoc(lit, allowlist, i, DestV4);
        OnlySnoc(lit, allowlist, i, DestV6);
        OnlySnoc(lit, allowlist, i, Domain);
        match Classify(lit, allowlist[i])
        case DestV4 => v4 := v4 + [allowlist[i]];
        case DestV6 => v6 := v6 + [allowlist[i]];
        case Domain => domains := domains + [allowlist[i]];
      }
      assert allowlist[..|allowlist|] == allowlist;
      var t := Render(v4, v6, domains != []);
      plan := Plan(Some(t), domains);
  }

  lemma NoneYet(lit: Literals, entries: seq<string>)
    ensures forall dest :: Only(lit, entries[..0], dest) == []
  {
  }

  // ---- what the chain accepts ----------------------------------------------------------------------------

  /** A destination listed literally. */
  predicate Listed(lit: Literals, allowlist: seq<string>, a: Addr) {
    exists i :: 0 <= i < |allowlist| && lit.covers(allowlist[i], a)
                && Classify(lit, allowlist[i]) == if a.V4? then DestV4 else DestV6
  }

  predicate HasDomains(lit: Literals, allowlist: seq<string>) {
    exists i :: 0 <= i < |allowlist| && Classify(lit, allowlist[i]) == Domain
  }

  /** The table of a level, with `resolved` in its dynamic sets when it has them. */
  function Installed(lit: Literals, level: NetworkLevel, allowlist: seq<string>, resolved: set<Addr>): Option<Table> {
    var table := PlanOf(lit, level, allowlist).table;
    if table.Some? && table.value.resolved.Some? then Some(table.value.(resolved := Some(resolved))) else table
  }

  /** The addresses in a table's resolved sets. */
  function SetsOf(table: Option<Table>): set<Addr> {
    if table.Some? && table.value.resolved.Some? then table.value.resolved.value else {}
  }

  /** The intended verdict, without rules: what each level lets out. */
  predicate Lets(lit: Literals, level: NetworkLevel, allowlist: seq<string>, resolved: set<Addr>, p: Packet) {
    || level == Full
    || p.loopback || p.established
    || (level == Allowlist
        && if HasDomains(lit, allowlist) && DnsPort(p) then p.uid == 0
           else Listed(lit, allowlist, p.dst) || (HasDomains(lit, allowlist) && p.dst in resolved))
  }

  lemma CoveredListed(lit: Literals, allowlist: seq<string>, a: Addr)
    ensures Covered(lit, Only(lit, allowlist, if a.V4? then DestV4 else DestV6), a) <==> Listed(lit, allowlist, a)
  {
    hide Classify;
    var dest := if a.V4? then DestV4 else DestV6;
    var only := Only(lit, allowlist, dest);
    if Covered(lit, only, a) {
      var i :| 0 <= i < |only| && lit.covers(only[i], a);
      assert only[i] in only;
      var j :| 0 <= j < |allowlist| && allowlist[j] == only[i];
    }
    if Listed(lit, allowlist, a) {
      var i :| 0 <= i < |allowlist| && lit.covers(allowlist[i], a) && Classify(lit, allowlist[i]) == dest;
      assert allowlist[i] in only;
      var j :| 0 <= j < |only| && only[j] == allowlist[i];
    }
  }

  lemma DomainsSkipped(lit: Literals, allowlist: seq<string>)
    ensures HasDomains(lit, allowlist) <==> Only(lit, allowlist, Domain) != []
  {
    hide Classify;
    var only := Only(lit, allowlist, Domain);
    if only != [] {
      assert only[0] in only;
      var j :| 0 <= j < |allowlist| && allowlist[j] == only[0];
    }
    if HasDomains(lit, allowlist) {
      var i :| 0 <= i < |allowlist| && Classify(lit, allowlist[i]) == Domain;
      assert allowlist[i] in only;
    }
  }

  // The chain, whatever it holds, rule by rule.
  lemma ChainVerdict(lit: Literals, t: Table, has4: bool, has6: bool, hasDomains: bool, p: Packet)
    requires t.rules == Chain(has4, has6, hasDomains)
    ensures FirstMatch(lit, t, t.rules, p) <==>
            || p.loopback || p.established
            || (if hasDomains && DnsPort(p) then p.uid == 0
                else (has4 && p.dst.V4? && Covered(lit, t.allow4, p.dst)) || (has6 && p.dst.V6? && Covered(lit, t.allow6, p.dst))
                     || (hasDomains && Resolved(t, p.dst)))
  {
    hide Covered, Resolved;
    var tail := (if has4 then [AcceptAllow4] else []) + (if has6 then [AcceptAllow6] else [])
                + (if hasDomains then [AcceptResolved4, AcceptResolved6] else []);
    var dns := if hasDomains then [AcceptRootDns(Udp), AcceptRootDns(Tcp), DropDns(Udp), DropDns(Tcp)] else [];
    assert t.rules == [AcceptLoopback, AcceptEstablished] + dns + tail;
    TailVerdict(lit, t, has4, has6, hasDomains, p);
    DnsVerdict(lit, t, tail, p);
    FrontVerdict(lit, t, dns + tail, p);
    assert [AcceptLoopback, AcceptEstablished] + (dns + tail) == t.rules;
    if !hasDomains { assert dns + tail == tail; }
  }

  lemma FrontVerdict(lit: Literals, t: Table, rest: seq<Rule>, p: Packet)
    ensures FirstMatch(lit, t, [AcceptLoopback, AcceptEstablished] + rest, p) <==> p.loopback || p.established || FirstMatch(lit, t, rest, p)
  {
    var rules := [AcceptLoopback, AcceptEstablished] + rest;
    assert rules[1..] == [AcceptEstablished] + rest;
    assert rules[1..][1..] == rest;
  }

  lemma DnsVerdict(lit: Literals, t: Table, rest: seq<Rule>, p: Packet)
    ensures FirstMatch(lit, t, [AcceptRootDns(Udp), AcceptRootDns(Tcp), DropDns(Udp), DropDns(Tcp)] + rest, p) <==>
            if DnsPort(p) then p.uid == 0 else FirstMatch(lit, t, rest, p)
  {
    hide FirstMatch, Covered, Resolved;
    var r0 := [AcceptRootDns(Udp), AcceptRootDns(Tcp), DropDns(Udp), DropDns(Tcp)] + rest;
    var r1, r2, r3 := [AcceptRootDns(Tcp), DropDns(Udp), DropDns(Tcp)] + rest, [DropDns(Udp), DropDns(Tcp)] + rest, [DropDns(Tcp)] + rest;
    assert r0[1..] == r1 && r1[1..] == r2 && r2[1..] == r3 && r3[1..] == rest;
    Unfold(lit, t, r0, p);
    Unfold(lit, t, r1, p);
    Unfold(lit, t, r2, p);
    Unfold(lit, t, r3, p);
  }

  lemma Unfold(lit: Literals, t: Table, rules: seq<Rule>, p: Packet)
    requires rules != []
    ensures FirstMatch(lit, t, rules, p) <==>
            if Matches(lit, t, rules[0], p) then !rules[0].DropDns? else FirstMatch(lit, t, rules[1..], p)
  {
  }

  lemma TailVerdict(lit: Literals, t: Table, has4: bool, has6: bool, hasDomains: bool, p: Packet)
    ensures var tail := (if has4 then [AcceptAllow4] else []) + (if has6 then [AcceptAllow6] else [])
                        + (if hasDomains then [AcceptResolved4, AcceptResolved6] else []);
            FirstMatch(lit, t, tail, p) <==>
            || (has4 && p.dst.V4? && Covered(lit, t.allow4, p.dst)) || (has6 && p.dst.V6? && Covered(lit, t.allow6, p.dst))
            || (hasDomains && Resolved(t, p.dst))
  {
    hide Covered, Resolved;
    var resolved := if hasDomains then [AcceptResolved4, AcceptResolved6] else [];
    assert FirstMatch(lit, t, resolved, p) <==> hasDomains && Resolved(t, p.dst) by {
      if hasDomains {
        assert resolved[1..] == [AcceptResolved6] && [AcceptResolved6][1..] == [];
        Unfold(lit, t, resolved, p);
        Unfold(lit, t, [AcceptResolved6], p);
      }
    }
    var six := (if has6 then [AcceptAllow6] else []) + resolved;
    assert FirstMatch(lit, t, six, p) <==> (has6 && Matches(lit, t, AcceptAllow6, p)) || FirstMatch(lit, t, resolved, p) by {
      if has6 { assert six[1..] == resolved; } else { assert six == resolved; }
    }
    var four := (if has4 then [AcceptAllow4] else []) + six;
    assert FirstMatch(lit, t, four, p) <==> (has4 && Matches(lit, t, AcceptAllow4, p)) || FirstMatch(lit, t, six, p) by {
      if has4 { assert four[1..] == six; } else { assert four == six; }
    }
    assert (if has4 then [AcceptAllow4] else []) + (if has6 then [AcceptAllow6] else []) + resolved == four;
  }

  /** First-match evaluation of the planned rules accepts exactly the packets the level lets out, for
      every allowlist, packet and content of the resolved sets. */
  lemma PlanExact(lit: Literals, level: NetworkLevel, allowlist: seq<string>, resolved: set<Addr>, p: Packet)
    ensures Accepts(lit, Installed(lit, level, allowlist, resolved), p) <==> Lets(lit, level, allowlist, resolved, p)
  {
    hide Only, Classify, Covered, Listed, HasDomains, FirstMatch, Chain;
    match level
    case Full =>
    case NoEgress =>
      ChainVerdict(lit, FreshTable([], [], false), false, false, false, p);
    case Allowlist =>
      var v4, v6, domains := Only(lit, allowlist, DestV4), Only(lit, allowlist, DestV6), Only(lit, allowlist, Domain);
      var t := Installed(lit, level, allowlist, resolved).value;
      ChainVerdict(lit, t, v4 != [], v6 != [], domains != [], p);
      CoveredListed(lit, allowlist, p.dst);
      DomainsSkipped(lit, allowlist);
      NothingCovered(lit, p.dst);
  }

  lemma NothingCovered(lit: Literals, a: Addr)
    ensures !Covered(lit, [], a)
  {
  }

  /** Each level lets out at least what the one below does. */
  lemma LevelsNest(lit: Literals, low: NetworkLevel, high: NetworkLevel, allowlist: seq<string>, resolved: set<Addr>, p: Packet)
    requires low.Rank() <= high.Rank() && Accepts(lit, Installed(lit, low, allowlist, resolved), p)
    ensures Accepts(lit, Installed(lit, high, allowlist, resolved), p)
  {
    hide Accepts, Installed, Listed, HasDomains;
    PlanExact(lit, low, allowlist, resolved, p);
    PlanExact(lit, high, allowlist, resolved, p);
  }

  /** With domains listed, nobody but root opens a new flow to a resolver off the machine, not even to
      an allowlisted address. */
  lemma NoDnsAroundProxy(lit: Literals, allowlist: seq<string>, resolved: set<Addr>, p: Packet)
    requires HasDomains(lit, allowlist) && (p.proto == Udp || p.proto == Tcp) && (p.dport == 53 || p.dport == 853)
    requires !p.loopback && !p.established && p.uid != 0
    ensures !Accepts(lit, Installed(lit, Allowlist, allowlist, resolved), p)
  {
    hide Accepts, Installed, Listed, HasDomains;
    PlanExact(lit, Allowlist, allowlist, resolved, p);
  }
}
