/** The DNS proxy (dnsproxy.rs) and its interleaving with mode switches.

    The proxy reads the active level, asks upstream, and only then adds the answered addresses to the
    kernel's resolved sets; meanwhile mode switches may replace the ruleset any number of times.
    Message parsing is a parameter (`Parser`).
 */
module Dns {
  import opened Bytes
  import opened Policy
  import opened Netfilter

  // ---- names -----------------------------------------------------------------------------------------

  function TrimDots(s: string): string {
    if s != "" && s[|s| - 1] == '.' then TrimDots(s[..|s| - 1]) else s
  }

  function LowerChar(c: char): char {
    if 'A' <= c <= 'Z' then ((c as int) + 32) as char else c
  }

  function Lowered(s: string): (r: string)
    ensures |r| == |s|
  {
    seq(|s|, i requires 0 <= i < |s| => LowerChar(s[i]))
  }

  /** Wire names and policy entries compare without trailing dots and ASCII case. */
  function Normalize(name: string): string { Lowered(TrimDots(name)) }

  predicate EndsWith(s: string, suffix: string) {
    |suffix| <= |s| && s[|s| - |suffix|..] == suffix
  }

  predicate IsWildcard(name: string) { |name| >= 2 && name[..2] == "*." }

  // ---- the matcher -------------------------------------------------------------------------------------

  datatype DomainMatcher = DomainMatcher(exact: seq<string>, wildcard: seq<string>) {
    predicate Matches(name: string) {
      var n := Normalize(name);
      n in exact || exists i :: 0 <= i < |wildcard| && EndsWith(n, wildcard[i])
    }
  }

  /** What one domain entry stands for: itself, or for `*.suffix` every name below `suffix`. */
  predicate EntryMatches(entry: string, name: string) {
    var e, n := Normalize(entry), Normalize(name);
    if IsWildcard(e) then EndsWith(n, e[1..]) else n == e
  }

  /** Some domain entry of the allowlist stands for `name`. */
  predicate Permitted(lit: Literals, allowlist: seq<string>, name: string) {
    exists i :: 0 <= i < |allowlist| && Classify(lit, allowlist[i]) == Domain && EntryMatches(allowlist[i], name)
  }

  /** A matcher is built exactly when the allowlist has domains, and matches exactly the names some
      domain entry stands for. */
  method FromAllowlist(lit: Literals, allowlist: seq<string>) returns (r: Option<DomainMatcher>)
    ensures r.Some? <==> HasDomains(lit, allowlist)
    ensures r.Some? ==> forall name :: r.value.Matches(name) <==> Permitted(lit, allowlist, name)
  {
    hide Classify, DomainMatcher.Matches, EntryMatches, Permitted;
    NothingMatches(lit);
    var matcher := DomainMatcher([], []);
    for i := 0 to |allowlist|
      invariant (matcher.exact == [] && matcher.wildcard == []) <==> !HasDomains(lit, allowlist[..i])
      invariant forall name :: matcher.Matches(name) <==> Permitted(lit, allowlist[..i], name)
    {
      PermittedSnoc(lit, allowlist, i);
      if Classify(lit, allowlist[i]) == Domain {
        AddEntryMatches(matcher, allowlist[i]);
        matcher := AddEntry(matcher, allowlist[i]);
      }
    }
    assert allowlist[..|allowlist|] == allowlist;
    r := if matcher.exact == [] && matcher.wildcard == [] then None else Some(matcher);
  }

  lemma PermittedSnoc(lit: Literals, allowlist: seq<string>, i: nat)
    requires i < |allowlist|
    ensures HasDomains(lit, allowlist[..i + 1]) <==> HasDomains(lit, allowlist[..i]) || Classify(lit, allowlist[i]) == Domain
    ensures forall name :: Permitted(lit, allowlist[..i + 1], name) <==>
              Permitted(lit, allowlist[..i], name) || (Classify(lit, allowlist[i]) == Domain && EntryMatches(allowlist[i], name))
  {
    hide Classify, EntryMatches;
    var a, b := allowlist[..i], allowlist[..i + 1];
    assert b == a + [allowlist[i]];
    forall name
      ensures Permitted(lit, b, name) <==>
              Permitted(lit, a, name) || (Classify(lit, allowlist[i]) == Domain && EntryMatches(allowlist[i], name))
    {
      if Permitted(lit, a, name) {
        var k :| 0 <= k < |a| && Classify(lit, a[k]) == Domain && EntryMatches(a[k], name);
        assert b[k] == a[k];
      }
      if Classify(lit, allowlist[i]) == Domain && EntryMatches(allowlist[i], name) { assert b[i] == allowlist[i]; }
    }
    if HasDomains(lit, a) {
      var k :| 0 <= k < |a| && Classify(lit, a[k]) == Domain;
      assert b[k] == a[k];
    }
    assert b[i] == allowlist[i];
  }

  /** Compile one domain entry. */
  function AddEntry(m: DomainMatcher, entry: string): (r: DomainMatcher)
    ensures r.exact != [] || r.wildcard != []
  {
    var name := Normalize(entry);
    if IsWildcard(name) then m.(wildcard := m.wildcard + ["." + name[2..]]) else m.(exact := m.exact + [name])
  }

  lemma AddEntryMatches(m: DomainMatcher, entry: string)
    ensures forall name :: AddEntry(m, entry).Matches(name) <==> m.Matches(name) || EntryMatches(entry, name)
  {
    hide Normalize, EndsWith;
    var e := Normalize(entry);
    var m' := AddEntry(m, entry);
    if IsWildcard(e) { assert "." + e[2..] == e[1..]; }
    forall name
      ensures m'.Matches(name) <==> m.Matches(name) || EntryMatches(entry, name)
    {
      var n := Normalize(name);
      if IsWildcard(e) {
        assert m'.wildcard[|m.wildcard|] == e[1..];
        if exists i :: 0 <= i < |m.wildcard| && EndsWith(n, m.wildcard[i]) {
          var i :| 0 <= i < |m.wildcard| && EndsWith(n, m.wildcard[i]);
          assert m'.wildcard[i] == m.wildcard[i];
        }
      }
    }
  }

  lemma NothingMatches(lit: Literals)
    ensures forall name :: !DomainMatcher([], []).Matches(name)
    ensures forall name :: !Permitted(lit, [], name)
  {
  }

  // ---- what the names mean -------------------------------------------------------------------------------

  /** The same character, or the two cases of one ASCII letter. */
  predicate SameLetter(a: char, b: char) {
    || a == b
    || ('A' <= a <= 'Z' && b as int == a as int + 32)
    || ('A' <= b <= 'Z' && a as int == b as int + 32)
  }

  /** Equal up to ASCII case. */
  predicate SameName(s: string, t: string) {
    |s| == |t| && forall i :: 0 <= i < |s| ==> SameLetter(s[i], t[i])
  }

  function Dots(n: nat): (r: string)
    ensures |r| == n
  {
    seq(n, _ => '.')
  }

  predicate EndsInDot(s: string) { s != "" && s[|s| - 1] == '.' }

  lemma LowerSame(a: char, b: char)
    ensures LowerChar(a) == LowerChar(b) <==> SameLetter(a, b)
  {
  }

  lemma LoweredSame(s: string, t: string)
    ensures Lowered(s) == Lowered(t) <==> SameName(s, t)
  {
    hide LowerChar, SameLetter;
    if |s| == |t| {
      forall i | 0 <= i < |s|
        ensures Lowered(s)[i] == Lowered(t)[i] <==> SameLetter(s[i], t[i])
      {
        LowerSame(s[i], t[i]);
      }
      if Lowered(s) == Lowered(t) {
        assert forall i :: 0 <= i < |s| ==> Lowered(s)[i] == Lowered(t)[i];
      }
    }
  }

  lemma {:induction false} TrimAppend(s: string, n: nat)
    ensures TrimDots(s + Dots(n)) == TrimDots(s)
    decreases n
  {
    var t := s + Dots(n);
    if n == 0 {
      assert t == s;
    } else {
      assert t[|t| - 1] == '.' && t[..|t| - 1] == s + Dots(n - 1);
      TrimAppend(s, n - 1);
    }
  }

  // Every name is its trimmed form followed by dots.
  lemma {:induction false} TrimSplits(s: string) returns (n: nat)
    ensures s == TrimDots(s) + Dots(n) && !EndsInDot(TrimDots(s))
    decreases |s|
  {
    if EndsInDot(s) {
      var k := TrimSplits(s[..|s| - 1]);
      n := k + 1;
      assert s == s[..|s| - 1] + ['.'];
      assert Dots(n) == Dots(k) + ['.'];
    } else {
      n := 0;
    }
  }

  lemma NormalizeSplit(s: string, n: nat)
    requires !EndsInDot(s)
    ensures Normalize(s + Dots(n)) == Lowered(s)
  {
    TrimAppend(s, n);
  }

  /** Trailing dots make no difference to what is permitted: a name on the wire ends in one, a policy entry
      usually does not. */
  lemma DotsDoNotMatter(lit: Literals, allowlist: seq<string>, name: string, n: nat)
    ensures Permitted(lit, allowlist, name + Dots(n)) <==> Permitted(lit, allowlist, name)
  {
    hide Classify;
    TrimAppend(name, n);
    forall e: string
      ensures EntryMatches(e, name + Dots(n)) <==> EntryMatches(e, name)
    {
    }
  }

  /** Nor does ASCII case. */
  lemma CaseDoesNotMatter(lit: Literals, allowlist: seq<string>, name: string, other: string)
    requires SameName(name, other)
    ensures Permitted(lit, allowlist, name) <==> Permitted(lit, allowlist, other)
  {
    hide Classify, SameLetter, LowerChar;
    TrimSame(name, other);
    LoweredSame(TrimDots(name), TrimDots(other));
  }

  lemma {:induction false} TrimSame(s: string, t: string)
    requires SameName(s, t)
    ensures SameName(TrimDots(s), TrimDots(t))
    decreases |s|
  {
    if s != "" {
      var n := |s| - 1;
      assert SameLetter(s[n], t[n]);
      assert s[n] == '.' <==> t[n] == '.';
      if s[n] == '.' { TrimSame(s[..n], t[..n]); }
    }
  }

  /** `name` is `base`, up to ASCII case, followed by any number of dots. */
  ghost predicate IsName(name: string, base: string) {
    exists core: string, n: nat :: name == core + Dots(n) && SameName(core, base)
  }

  /** `name` lies below the domain `suffix`: it is anything, then a dot and `suffix` up to ASCII case, then any
      number of dots. */
  ghost predicate IsBelow(name: string, suffix: string) {
    exists front: string, core: string, n: nat :: name == front + core + Dots(n) && SameName(core, "." + suffix)
  }

  /** What an entry stands for, in its own characters. Every entry is some `base` that does not end in a dot,
      followed by dots. A base `*.suffix` stands for the names below `suffix`, any other for itself. */
  lemma EntryMeans(base: string, n: nat, name: string)
    requires !EndsInDot(base)
    ensures IsWildcard(base) ==> (EntryMatches(base + Dots(n), name) <==> IsBelow(name, base[2..]))
    ensures !IsWildcard(base) ==> (EntryMatches(base + Dots(n), name) <==> IsName(name, base))
  {
    hide Normalize, Lowered, EndsWith;
    NormalizeSplit(base, n);
    NormalizeTrims(name);
    LoweredWildcard(base);
    if IsWildcard(base) {
      BelowIff(name, base);
    } else {
      NameIff(name, base);
    }
  }

  lemma NormalizeTrims(name: string)
    ensures Normalize(name) == Lowered(TrimDots(name))
  {
  }

  lemma LoweredWildcard(base: string)
    ensures IsWildcard(Lowered(base)) <==> IsWildcard(base)
    ensures IsWildcard(base) ==> Lowered(base)[1..] == Lowered("." + base[2..])
  {
    if IsWildcard(base) {
      assert base[0] == base[..2][0] && base[1] == base[..2][1];
      assert base[1..] == "." + base[2..];
      assert Lowered(base)[..2] == "*.";
    }
    if IsWildcard(Lowered(base)) {
      assert Lowered(base)[..2][0] == '*' && Lowered(base)[..2][1] == '.';
      assert base[..2] == "*.";
    }
  }

  lemma NameIff(name: string, base: string)
    requires !EndsInDot(base)
    ensures Lowered(TrimDots(name)) == Lowered(base) <==> IsName(name, base)
  {
    hide Lowered, SameName;
    var n := TrimSplits(name);
    LoweredSame(TrimDots(name), base);
    if IsName(name, base) {
      var core: string, k: nat :| name == core + Dots(k) && SameName(core, base);
      SameEnds(core, base);
      TrimAppend(core, k);
    }
  }

  lemma SameEnds(s: string, t: string)
    requires SameName(s, t)
    ensures EndsInDot(s) <==> EndsInDot(t)
  {
    if s != "" { assert SameLetter(s[|s| - 1], t[|t| - 1]); }
  }

  lemma BelowIff(name: string, base: string)
    requires IsWildcard(base) && !EndsInDot(base)
    ensures EndsWith(Lowered(TrimDots(name)), Lowered("." + base[2..])) <==> IsBelow(name, base[2..])
  {
    hide SameName, LowerChar;
    var tail, core := "." + base[2..], TrimDots(name);
    assert base[|base| - 1] == tail[|tail| - 1] by { assert base[..2][1] == '.'; assert base[1..] == tail; }
    if EndsWith(Lowered(core), Lowered(tail)) {
      var n := TrimSplits(name);
      var at := |core| - |tail|;
      assert Lowered(core[at..]) == Lowered(core)[at..];
      LoweredSame(core[at..], tail);
      assert name == core[..at] + core[at..] + Dots(n);
    }
    if IsBelow(name, base[2..]) {
      var front: string, c: string, n: nat :| name == front + c + Dots(n) && SameName(c, tail);
      SameEnds(c, tail);
      LoweredSame(c, tail);
      TrimAppend(front + c, n);
      SameLength(c, tail);
      assert (front + c)[|front + c| - 1] == c[|c| - 1];
      assert core == front + c;
      assert Lowered(core)[|front|..] == Lowered(c);
    }
  }

  lemma SameLength(s: string, t: string)
    requires SameName(s, t)
    ensures |s| == |t|
  {
  }

  /** A wildcard does not match its own apex. */
  lemma ApexNotMatched(entry: string, name: string)
    requires IsWildcard(Normalize(entry)) && Normalize(name) == Normalize(entry)[2..]
    ensures !EntryMatches(entry, name)
  {
  }

  /** The proxy runs exactly when the allowlist plan had to skip domains. */
  lemma ProxyNeeded(lit: Literals, allowlist: seq<string>)
    ensures HasDomains(lit, allowlist) <==> PlanOf(lit, Allowlist, allowlist).skippedDomains != []
  {
    DomainsSkipped(lit, allowlist);
  }

  // ---- one query -----------------------------------------------------------------------------------------

  datatype Record = Address(addr: Addr, ttl: nat) | OtherRecord

  /** DNS message parsing: the names asked for, and the records answered; `None` when unparseable. */
  datatype Parser = Parser(questions: seq<Byte> -> Option<seq<string>>, answers: seq<Byte> -> Option<seq<Record>>)

  datatype DnsReply = FormErr | NxDomain | ServFail | Relayed(answer: seq<Byte>)

  datatype Resolution = Resolution(reply: DnsReply, add4: seq<(Addr, nat)>, add6: seq<(Addr, nat)>)

  predicate AsksPermitted(parser: Parser, matcher: DomainMatcher, raw: seq<Byte>) {
    var q := parser.questions(raw);
    q.Some? && q.value != [] && matcher.Matches(q.value[0])
  }

  /** The addresses an answer carries. */
  function AnsweredAddrs(parser: Parser, answer: seq<Byte>): set<Addr> {
    var records := parser.answers(answer);
    if records.None? then {} else set i | 0 <= i < |records.value| && records.value[i].Address? :: records.value[i].addr
  }

  function Addrs(adds: seq<(Addr, nat)>): set<Addr> {
    set i | 0 <= i < |adds| :: adds[i].0
  }

  /** The A and AAAA records of an answer, each with its TTL. */
  method ExtractAddrs(parser: Parser, answer: seq<Byte>) returns (v4: seq<(Addr, nat)>, v6: seq<(Addr, nat)>)
    ensures Addrs(v4) + Addrs(v6) == AnsweredAddrs(parser, answer)
    ensures (forall i :: 0 <= i < |v4| ==> v4[i].0.V4?) && (forall i :: 0 <= i < |v6| ==> v6[i].0.V6?)
    ensures forall x :: x in v4 || x in v6 ==>
              parser.answers(answer).Some? && Address(x.0, x.1) in parser.answers(answer).value
  {
    v4, v6 := [], [];
    var records := parser.answers(answer);
    if records.None? { return; }
    ghost var seen: set<Addr> := {};
    for k := 0 to |records.value|
      invariant seen == set i | 0 <= i < k && records.value[i].Address? :: records.value[i].addr
      invariant Addrs(v4) + Addrs(v6) == seen
      invariant (forall i :: 0 <= i < |v4| ==> v4[i].0.V4?) && (forall i :: 0 <= i < |v6| ==> v6[i].0.V6?)
      invariant forall x :: x in v4 || x in v6 ==> Address(x.0, x.1) in records.value
    {
      match records.value[k]
      case Address(addr, ttl) =>
        seen := seen + {addr};
        if addr.V4? {
          AddrsSnoc(v4, (addr, ttl));
          v4 := v4 + [(addr, ttl)];
        } else {
          AddrsSnoc(v6, (addr, ttl));
          v6 := v6 + [(addr, ttl)];
        }
      case OtherRecord =>
    }
  }

  lemma AddrsSnoc(adds: seq<(Addr, nat)>, x: (Addr, nat))
    ensures Addrs(adds + [x]) == Addrs(adds) + {x.0}
  {
    var all := adds + [x];
    assert forall i :: 0 <= i < |adds| ==> all[i] == adds[i];
    assert all[|adds|] == x;
    forall a | a in Addrs(adds)
      ensures a in Addrs(all)
    {
      var i :| 0 <= i < |adds| && adds[i].0 == a;
      assert all[i].0 == a;
    }
  }

  /** Handle one query at `level`; `upstream` is what the resolver would answer, if it does. */
  method HandleQuery(parser: Parser, matcher: DomainMatcher, level: NetworkLevel, raw: seq<Byte>, upstream: Option<seq<Byte>>)
    returns (r: Resolution)
    ensures r.reply.Relayed? <==>
              && parser.questions(raw).Some? && upstream.Some?
              && (level == Full || (level == Allowlist && AsksPermitted(parser, matcher, raw)))
    ensures r.reply.Relayed? ==> upstream == Some(r.reply.answer)
    ensures r.reply == ServFail <==>
              && parser.questions(raw).Some? && upstream.None?
              && (level == Full || (level == Allowlist && AsksPermitted(parser, matcher, raw)))
    ensures Addrs(r.add4) + Addrs(r.add6) == Admitted(parser, matcher, level, raw, upstream)
    ensures r.reply == FormErr <==> parser.questions(raw).None?
    ensures level == NoEgress ==> r.reply == FormErr || r.reply == NxDomain
  {
    var request := parser.questions(raw);
    if request.None? { return Resolution(FormErr, [], []); }
    var allowed := match level
      case Full => true
      case NoEgress => false
      case Allowlist => request.value != [] && matcher.Matches(request.value[0]);
    if !allowed { return Resolution(NxDomain, [], []); }
    if upstream.None? { return Resolution(ServFail, [], []); }
    var add4, add6 := [], [];
    if level == Allowlist { add4, add6 := ExtractAddrs(parser, upstream.value); }
    r := Resolution(Relayed(upstream.value), add4, add6);
  }

  /** The addresses a query may admit: those of the answer to a permitted question, asked at the
      allowlist level. */
  function Admitted(parser: Parser, matcher: DomainMatcher, level: NetworkLevel, raw: seq<Byte>, upstream: Option<seq<Byte>>): set<Addr> {
    if level == Allowlist && AsksPermitted(parser, matcher, raw) && upstream.Some? then AnsweredAddrs(parser, upstream.value) else {}
  }

  // ---- proxy and mode switches, interleaved -----------------------------------------------------------------

  datatype Config = Config(lit: Literals, allowlist: seq<string>, parser: Parser, matcher: DomainMatcher) {
    /** The matcher is the one compiled from the allowlist: it matches what some domain entry stands for. */
    ghost predicate Compiled() {
      forall name :: matcher.Matches(name) <==> Permitted(lit, allowlist, name)
    }

    /** The first question of a message is a name the allowlist permits. */
    predicate PermittedQuestion(raw: seq<Byte>) {
      var q := parser.questions(raw);
      q.Some? && q.value != [] && Permitted(lit, allowlist, q.value[0])
    }
  }

  /** Compile a configuration; without domains there is no proxy. */
  method Configure(lit: Literals, allowlist: seq<string>, parser: Parser) returns (cfg: Option<Config>)
    ensures cfg.Some? <==> HasDomains(lit, allowlist)
    ensures cfg.Some? ==> cfg.value.Compiled() && cfg.value.lit == lit && cfg.value.allowlist == allowlist && cfg.value.parser == parser
  {
    var matcher := FromAllowlist(lit, allowlist);
    cfg := if matcher.None? then None else Some(Config(lit, allowlist, parser, matcher.value));
  }

  /** Where the proxy thread is: waiting for a query; holding one together with the level it read;
      or holding the addresses of an answer it has relayed and is about to admit. Queries are numbered;
      `asked` is the number of rulesets installed when the query arrived. */
  datatype Proxy =
    | Waiting
    | Handling(query: nat, asked: nat, level: NetworkLevel, raw: seq<Byte>)
    | Admitting(query: nat, asked: nat, level: NetworkLevel, raw: seq<Byte>, answer: seq<Byte>)
  {
    /** The query in hand. */
    function InHand(): Option<nat> { if Waiting? then None else Some(query) }
  }

  /** Where a mode switch is: none under way, or the ruleset replaced and the level not yet published. */
  datatype Switch = Quiet | Switched(level: NetworkLevel)

  /** An admission into the resolved sets of ruleset `epoch`, of an answer to a query that arrived
      under ruleset `asked`. */
  datatype Admission = Admission(epoch: nat, asked: nat, query: nat, level: NetworkLevel, raw: seq<Byte>, answer: seq<Byte>) {
    /** The ruleset it entered is not the one its query arrived under. */
    predicate Stale() { asked < epoch }
  }

  /** `installs[n]` is the query the proxy had in hand when ruleset `n` was installed. */
  datatype State = State(active: NetworkLevel, installed: NetworkLevel, table: Option<Table>,
                         proxy: Proxy, switch: Switch, queries: nat, installs: seq<Option<nat>>, log: seq<Admission>)
  {
    /** The present ruleset's number. */
    function Epoch(): nat { if installs == [] then 0 else |installs| - 1 }
  }

  datatype Event =
    | Receive(raw: seq<Byte>)
    | Upstream(answer: Option<seq<Byte>>)
    | Admit(nftOk: bool)
    | Expire(addr: Addr)
    | Apply(level: NetworkLevel, nftOk: bool)
    | Publish

  predicate HasSets(s: State) { s.table.Some? && s.table.value.resolved.Some? }

  function InSets(s: State): set<Addr> { SetsOf(s.table) }

  function WithSets(s: State, resolved: set<Addr>): State
    requires HasSets(s)
  {
    s.(table := Some(s.table.value.(resolved := Some(resolved))))
  }

  /** One atomic step of either thread, or of the kernel's clock. A step that is not enabled does nothing. */
  function Next(cfg: Config, s: State, e: Event): State {
    match e
    case Receive(raw) =>
      if s.proxy.Waiting? then s.(proxy := Handling(s.queries, s.Epoch(), s.active, raw), queries := s.queries + 1) else s
    case Upstream(answer) =>
      if !s.proxy.Handling? then s
      else if Admitted(cfg.parser, cfg.matcher, s.proxy.level, s.proxy.raw, answer) == {} then s.(proxy := Waiting)
      else s.(proxy := Admitting(s.proxy.query, s.proxy.asked, s.proxy.level, s.proxy.raw, answer.value))
    case Admit(nftOk) =>
      if !s.proxy.Admitting? then s
      else if !nftOk || !HasSets(s) then s.(proxy := Waiting)
      else WithSets(s, InSets(s) + AnsweredAddrs(cfg.parser, s.proxy.answer)).(proxy := Waiting, log := s.log + [AdmissionOf(s)])
    case Expire(addr) =>
      if HasSets(s) then WithSets(s, InSets(s) - {addr}) else s
    case Apply(level, nftOk) =>
      if s.switch.Quiet? && nftOk
      then s.(table := PlanOf(cfg.lit, level, cfg.allowlist).table, installed := level, switch := Switched(level),
              installs := s.installs + [s.proxy.InHand()])
      else s
    case Publish =>
      if s.switch.Switched? then s.(active := s.switch.level, switch := Quiet) else s
  }

  function AdmissionOf(s: State): Admission
    requires s.proxy.Admitting?
  {
    Admission(s.Epoch(), s.proxy.asked, s.proxy.query, s.proxy.level, s.proxy.raw, s.proxy.answer)
  }

  function Boot(cfg: Config, level: NetworkLevel): State {
    State(level, level, PlanOf(cfg.lit, level, cfg.allowlist).table, Waiting, Quiet, 0, [None], [])
  }

  function RunFrom(cfg: Config, s: State, events: seq<Event>): State {
    if events == [] then s else Next(cfg, RunFrom(cfg, s, events[..|events| - 1]), events[|events| - 1])
  }

  /** The address came from the answer to a question the allowlist permits, handled at the allowlist
      level, and was admitted since the present ruleset was installed. */
  predicate Vouched(cfg: Config, s: State, a: Addr) {
    exists k :: 0 <= k < |s.log| && s.log[k].epoch == s.Epoch() && Vouches(cfg, s.log[k], a)
  }

  predicate Vouches(cfg: Config, ad: Admission, a: Addr) {
    ad.level == Allowlist && cfg.PermittedQuestion(ad.raw) && a in AnsweredAddrs(cfg.parser, ad.answer)
  }

  // ---- the invariant -------------------------------------------------------------------------------------------

  ghost predicate ProxyInv(cfg: Config, s: State) {
    && s.installs != []
    && s.table == Installed(cfg.lit, s.installed, cfg.allowlist, InSets(s))
    && (s.switch.Quiet? ==> s.installed == s.active)
    && (s.switch.Switched? ==> s.installed == s.switch.level)
    && (s.proxy.Admitting? ==> s.proxy.level == Allowlist && cfg.PermittedQuestion(s.proxy.raw))
    && (forall a :: a in InSets(s) ==> Vouched(cfg, s, a))
    && Timely(s)
  }

  /** Who asked when: the query in hand arrived under an earlier ruleset exactly when it was in hand at the
      present one's installation, and each admission records the same of its own. Queries are admitted in
      order, none before the one in hand at its ruleset's installation. */
  ghost predicate Timely(s: State) {
    && (forall n :: 0 <= n < |s.installs| && s.installs[n].Some? ==> s.installs[n].value < s.queries)
    && (!s.proxy.Waiting? ==> OnTime(s, s.Epoch(), s.proxy.asked, s.proxy.query) && s.proxy.query < s.queries)
    && (forall k :: 0 <= k < |s.log| ==> OnTime(s, s.log[k].epoch, s.log[k].asked, s.log[k].query) && s.log[k].query < s.queries)
    && (forall k :: 0 <= k < |s.log| && !s.proxy.Waiting? ==> s.log[k].query < s.proxy.query)
    && (forall j, k :: 0 <= j < k < |s.log| ==> s.log[j].query < s.log[k].query)
  }

  predicate OnTime(s: State, epoch: nat, asked: nat, query: nat) {
    && asked <= epoch < |s.installs|
    && (asked < epoch <==> s.installs[epoch] == Some(query))
    && (s.installs[epoch].Some? ==> s.installs[epoch].value <= query)
  }

  lemma CompiledAsks(cfg: Config, raw: seq<Byte>)
    requires cfg.Compiled()
    ensures AsksPermitted(cfg.parser, cfg.matcher, raw) <==> cfg.PermittedQuestion(raw)
  {
    hide DomainMatcher.Matches, Permitted;
  }

  lemma AdmitKeeps(cfg: Config, s: State)
    requires ProxyInv(cfg, s) && s.proxy.Admitting? && HasSets(s)
    ensures ProxyInv(cfg, Next(cfg, s, Admit(true)))
  {
    hide PlanOf, Config.PermittedQuestion, AnsweredAddrs;
    var s' := Next(cfg, s, Admit(true));
    var ad := AdmissionOf(s);
    forall a | a in InSets(s')
      ensures Vouched(cfg, s', a)
    {
      if a in InSets(s) {
        var k :| 0 <= k < |s.log| && s.log[k].epoch == s.Epoch() && Vouches(cfg, s.log[k], a);
        assert s'.log[k] == s.log[k];
      } else {
        assert s'.log[|s.log|] == ad && Vouches(cfg, ad, a);
      }
    }
    hide Vouched, Vouches, Timely;
    AdmitTimely(cfg, s);
  }

  lemma AdmitTimely(cfg: Config, s: State)
    requires Timely(s) && s.proxy.Admitting? && HasSets(s)
    ensures Timely(Next(cfg, s, Admit(true)))
  {
    hide AnsweredAddrs;
    var s' := Next(cfg, s, Admit(true));
    forall k | 0 <= k < |s'.log|
      ensures OnTime(s', s'.log[k].epoch, s'.log[k].asked, s'.log[k].query) && s'.log[k].query < s'.queries
    {
      if k < |s.log| { assert s'.log[k] == s.log[k]; }
    }
  }

  lemma ApplyTimely(cfg: Config, s: State, level: NetworkLevel)
    requires Timely(s) && s.installs != []
    ensures Timely(Next(cfg, s, Apply(level, true)))
  {
    hide PlanOf;
    var s' := Next(cfg, s, Apply(level, true));
    forall k | 0 <= k < |s.log|
      ensures OnTime(s', s.log[k].epoch, s.log[k].asked, s.log[k].query)
    {
      assert OnTime(s, s.log[k].epoch, s.log[k].asked, s.log[k].query);
    }
  }

  lemma NextTimely(cfg: Config, s: State, e: Event)
    requires Timely(s) && s.installs != []
    ensures Timely(Next(cfg, s, e)) && Next(cfg, s, e).installs != []
  {
    hide Admitted, AnsweredAddrs, PlanOf;
    match e
    case Admit(nftOk) => if nftOk && s.proxy.Admitting? && HasSets(s) { AdmitTimely(cfg, s); }
    case Apply(level, nftOk) => ApplyTimely(cfg, s, level);
    case _ =>
  }

  lemma NextKeeps(cfg: Config, s: State, e: Event)
    requires cfg.Compiled() && ProxyInv(cfg, s)
    ensures ProxyInv(cfg, Next(cfg, s, e))
  {
    hide Config.Compiled, AsksPermitted, Config.PermittedQuestion, AnsweredAddrs, Vouches, Only, Chain, Timely;
    NextTimely(cfg, s, e);
    match e
    case Admit(nftOk) => if nftOk && s.proxy.Admitting? && HasSets(s) { AdmitKeeps(cfg, s); }
    case Expire(addr) =>
      forall a | a in InSets(Next(cfg, s, e))
        ensures Vouched(cfg, Next(cfg, s, e), a)
      {
        assert Vouched(cfg, s, a);
      }
    case Upstream(answer) => if s.proxy.Handling? { CompiledAsks(cfg, s.proxy.raw); }
    case _ =>
  }

  /** The invariant holds after every interleaving, from any boot level. */
  lemma {:induction false} EveryRun(cfg: Config, level: NetworkLevel, events: seq<Event>)
    requires cfg.Compiled()
    ensures ProxyInv(cfg, RunFrom(cfg, Boot(cfg, level), events))
    decreases |events|
  {
    hide ProxyInv, Next, Boot, Config.Compiled;
    if events == [] {
      BootInv(cfg, level);
    } else {
      EveryRun(cfg, level, events[..|events| - 1]);
      NextKeeps(cfg, RunFrom(cfg, Boot(cfg, level), events[..|events| - 1]), events[|events| - 1]);
    }
  }

  lemma BootInv(cfg: Config, level: NetworkLevel)
    ensures ProxyInv(cfg, Boot(cfg, level))
  {
    hide Only, Chain;
  }

  // ---- what it says ------------------------------------------------------------------------------------------------

  /** Installing a ruleset empties the resolved sets, whatever was admitted before, and records what the
      proxy had in hand: nothing exactly when it was waiting. */
  lemma ApplyEmpties(cfg: Config, s: State, level: NetworkLevel)
    requires s.switch.Quiet?
    ensures InSets(Next(cfg, s, Apply(level, true))) == {}
    ensures Next(cfg, s, Apply(level, true)).installs == s.installs + [s.proxy.InHand()]
    ensures s.proxy.InHand().None? <==> s.proxy.Waiting?
  {
    hide Only, Chain;
  }

  /** In every reachable state, a packet that leaves the machine on a new flow of an unprivileged process
      goes to a listed literal, or to an address the answer to a permitted question vouched for since the
      present ruleset was installed — unless the installed level is full. And never to a resolver port
      while domains are enforced. */
  lemma EgressSound(cfg: Config, level: NetworkLevel, events: seq<Event>, p: Packet)
    requires cfg.Compiled() && !p.loopback && !p.established && p.uid != 0
    requires var s := RunFrom(cfg, Boot(cfg, level), events); s.installed != Full && Accepts(cfg.lit, s.table, p)
    ensures var s := RunFrom(cfg, Boot(cfg, level), events);
            && s.installed == Allowlist
            && (Listed(cfg.lit, cfg.allowlist, p.dst) || Vouched(cfg, s, p.dst))
            && (HasDomains(cfg.lit, cfg.allowlist) ==> !DnsPort(p))
  {
    hide RunFrom, Boot, Accepts, Installed, Listed, HasDomains, Vouched, Config.Compiled, Timely;
    EveryRun(cfg, level, events);
    var s := RunFrom(cfg, Boot(cfg, level), events);
    PlanExact(cfg.lit, s.installed, cfg.allowlist, InSets(s), p);
  }

  /** Between mode switches the installed ruleset is that of the published level. */
  lemma QuietMatches(cfg: Config, level: NetworkLevel, events: seq<Event>)
    requires cfg.Compiled() && RunFrom(cfg, Boot(cfg, level), events).switch.Quiet?
    ensures var s := RunFrom(cfg, Boot(cfg, level), events);
            s.table == Installed(cfg.lit, s.active, cfg.allowlist, InSets(s))
  {
    hide RunFrom, Boot, Installed, Config.Compiled, Timely;
    EveryRun(cfg, level, events);
  }

  /** In every run, an admission is stale if and only if its query was the one the proxy had in hand when
      the ruleset it entered was installed. So a ruleset installed while the proxy waits admits nothing
      stale; and any ruleset admits at most one stale answer, before all others it admits. */
  lemma StaleIff(cfg: Config, level: NetworkLevel, events: seq<Event>, k: nat)
    requires cfg.Compiled() && k < |RunFrom(cfg, Boot(cfg, level), events).log|
    ensures var s := RunFrom(cfg, Boot(cfg, level), events);
            var ad := s.log[k];
            && ad.epoch < |s.installs|
            && (ad.Stale() <==> s.installs[ad.epoch] == Some(ad.query))
            && (s.installs[ad.epoch].None? ==> !ad.Stale())
            && (ad.Stale() ==> forall j :: 0 <= j < |s.log| && j != k && s.log[j].epoch == ad.epoch ==> k < j && !s.log[j].Stale())
  {
    hide RunFrom, Boot, Config.Compiled, Installed, Vouched;
    EveryRun(cfg, level, events);
    var s := RunFrom(cfg, Boot(cfg, level), events);
    var ad := s.log[k];
    assert OnTime(s, ad.epoch, ad.asked, ad.query);
    forall j | 0 <= j < |s.log| && j != k && s.log[j].epoch == ad.epoch && ad.Stale()
      ensures k < j && !s.log[j].Stale()
    {
      assert OnTime(s, s.log[j].epoch, s.log[j].asked, s.log[j].query);
    }
  }

  /** Such an answer: asked for before a ruleset was replaced, admitted into the new one. */
  lemma StaleExample(cfg: Config, raw: seq<Byte>, answer: seq<Byte>, a: Addr)
    requires HasDomains(cfg.lit, cfg.allowlist) && AsksPermitted(cfg.parser, cfg.matcher, raw) && a in AnsweredAddrs(cfg.parser, answer)
    ensures var s := RunFrom(cfg, Boot(cfg, Allowlist), [Receive(raw), Upstream(Some(answer)), Apply(Allowlist, true), Admit(true)]);
            |s.log| == 1 && s.log[0].Stale() && a in InSets(s)
  {
    hide HasDomains, AsksPermitted, AnsweredAddrs, Only, Chain;
    DomainsSkipped(cfg.lit, cfg.allowlist);
    var e := [Receive(raw), Upstream(Some(answer)), Apply(Allowlist, true), Admit(true)];
    var s0 := Boot(cfg, Allowlist);
    assert e[..3] == [e[0], e[1], e[2]] && [e[0], e[1], e[2]][..2] == [e[0], e[1]] && [e[0], e[1]][..1] == [e[0]];
    var s1 := Next(cfg, s0, e[0]);
    assert RunFrom(cfg, s0, [e[0]]) == s1 by { assert [e[0]][..0] == []; }
    var s2 := Next(cfg, s1, e[1]);
    assert RunFrom(cfg, s0, [e[0], e[1]]) == s2;
    var s3 := Next(cfg, s2, e[2]);
    assert RunFrom(cfg, s0, [e[0], e[1], e[2]]) == s3;
    assert RunFrom(cfg, s0, e) == Next(cfg, s3, e[3]);
  }
}
