/** A whole NBD connection (server.rs): greeting, option haggling, then the transmission phase, as in
    the "Fixed newstyle negotiation" section of the NBD protocol document.
 */
module Handshake {
  import opened Bytes
  import opened Layers
  import opened Stack
  import opened Wire
  import opened Server

  const INIT_PASSWD: nat := 0x4e42_444d_4147_4943
  const IHAVEOPT: nat := 0x4948_4156_454f_5054
  const REP_MAGIC: nat := 0x0003_e889_0455_65a9
  const GREETING_FLAGS: nat := 3
  const OPT_EXPORT_NAME: nat := 1
  const OPT_ABORT: nat := 2
  const OPT_INFO: nat := 6
  const OPT_GO: nat := 7
  const REP_ACK: nat := 1
  const REP_INFO: nat := 3
  const REP_ERR_UNSUP: nat := 0x8000_0001
  const INFO_EXPORT: nat := 0

  /** Has-flags, flush, trim and write-zeroes; read-only on top. */
  function ExportFlags(readOnly: bool): nat { if readOnly then 1 + 4 + 32 + 64 + 2 else 1 + 4 + 32 + 64 }

  function Greeting(): seq<Byte> { BE(8, INIT_PASSWD) + BE(8, IHAVEOPT) + BE(2, GREETING_FLAGS) }

  /** What the server knows of the export while haggling. */
  datatype Export = Export(vsize: nat, readOnly: bool, noZeroes: bool)

  function OptReply(opt: nat, kind: nat, data: seq<Byte>): seq<Byte> {
    BE(8, REP_MAGIC) + BE(4, opt) + BE(4, kind) + BE(4, |data|) + data
  }

  /** The bytes sent for one option. */
  function OptionAnswer(x: Export, opt: nat): seq<Byte> {
    if opt == OPT_EXPORT_NAME then
      BE(8, x.vsize) + BE(2, ExportFlags(x.readOnly)) + (if x.noZeroes then [] else Zeros(124))
    else if opt == OPT_GO || opt == OPT_INFO then
      OptReply(opt, REP_INFO, BE(2, INFO_EXPORT) + BE(8, x.vsize) + BE(2, ExportFlags(x.readOnly))) + OptReply(opt, REP_ACK, [])
    else if opt == OPT_ABORT then OptReply(opt, REP_ACK, [])
    else OptReply(opt, REP_ERR_UNSUP, [])
  }

  // ---- what a client reads while haggling ------------------------------------------------------------------

  /** The fields of an option reply at their offsets: magic, option, kind, length, data. */
  lemma OptReplySlices(opt: nat, kind: nat, data: seq<Byte>, rest: seq<Byte>, s: seq<Byte>)
    requires s == OptReply(opt, kind, data) + rest
    ensures |s| >= 20 + |data| && s[0..8] == BE(8, REP_MAGIC) && s[8..12] == BE(4, opt) && s[12..16] == BE(4, kind)
    ensures s[16..20] == BE(4, |data|) && s[20..20 + |data|] == data && s[20 + |data|..] == rest
  {
    hide BE;
    var h := OptReply(opt, kind, data);
    assert s[0..8] == h[0..8] && s[8..12] == h[8..12] && s[12..16] == h[12..16] && s[16..20] == h[16..20];
    assert s[20..20 + |data|] == h[20..];
  }

  datatype ClientReply = ClientReply(kind: nat, data: seq<Byte>, rest: seq<Byte>)

  /** A client reads one reply to its option `opt`. */
  function ReadOptReply(s: seq<Byte>, opt: nat): Option<ClientReply> {
    if |s| < 20 || FromBE(s[0..8]) != REP_MAGIC || FromBE(s[8..12]) != opt then None else
      var len := FromBE(s[16..20]);
      if |s| < 20 + len then None else Some(ClientReply(FromBE(s[12..16]), s[20..20 + len], s[20 + len..]))
  }

  lemma OptReplyRead(opt: nat, kind: nat, data: seq<Byte>, rest: seq<Byte>)
    requires opt < U32 && kind < U32 && |data| < U32
    ensures ReadOptReply(OptReply(opt, kind, data) + rest, opt) == Some(ClientReply(kind, data, rest))
  {
    hide BE, FromBE, OptReply, Pow256;
    OptReplySlices(opt, kind, data, rest, OptReply(opt, kind, data) + rest);
    Widths();
    BERoundTrip(8, REP_MAGIC);
    BERoundTrip(4, opt);
    BERoundTrip(4, kind);
    BERoundTrip(4, |data|);
  }

  /** What a client learns from the answer to an option: the export, an acknowledgement, or that the option is
      not supported. */
  datatype Learnt = Exported(size: nat, flags: nat) | Acknowledged | Unsupported

  /** A client reads the answer to its option `opt`. It knows the protocol and whether it asked for the zero
      padding to be left out. */
  function ClientLearns(s: seq<Byte>, opt: nat, noZeroes: bool): (r: Option<(Learnt, seq<Byte>)>) {
    if opt == OPT_EXPORT_NAME then
      var pad := if noZeroes then 0 else 124;
      if |s| < 10 + pad || s[10..10 + pad] != Zeros(pad) then None
      else Some((Exported(FromBE(s[0..8]), FromBE(s[8..10])), s[10 + pad..]))
    else
      var first := ReadOptReply(s, opt);
      if first.None? then None
      else if first.value.kind == REP_ACK && first.value.data == [] then Some((Acknowledged, first.value.rest))
      else if first.value.kind == REP_ERR_UNSUP then Some((Unsupported, first.value.rest))
      else if first.value.kind == REP_INFO && |first.value.data| == 12 && FromBE(first.value.data[0..2]) == INFO_EXPORT then
        var second := ReadOptReply(first.value.rest, opt);
        if second.None? || second.value.kind != REP_ACK || second.value.data != [] then None
        else Some((Exported(FromBE(first.value.data[2..10]), FromBE(first.value.data[10..12])), second.value.rest))
      else None
  }

  lemma InfoSlices(x: Export, d: seq<Byte>)
    requires d == BE(2, INFO_EXPORT) + BE(8, x.vsize) + BE(2, ExportFlags(x.readOnly))
    ensures |d| == 12 && d[0..2] == BE(2, INFO_EXPORT) && d[2..10] == BE(8, x.vsize) && d[10..12] == BE(2, ExportFlags(x.readOnly))
  {
    hide BE;
  }

  /** Whatever follows, a client reads from the answer to any option exactly what it is told: the size and
      flags of the export for export-name, go and info, with 124 zero bytes after the first unless they
      were waived, an acknowledgement for abort, and for anything else that it is not supported. */
  lemma OptionAnswerRead(x: Export, opt: nat, rest: seq<Byte>)
    requires x.vsize < U64 && opt < U32
    ensures ClientLearns(OptionAnswer(x, opt) + rest, opt, x.noZeroes) ==
            Some((if opt == OPT_EXPORT_NAME || opt == OPT_GO || opt == OPT_INFO then Exported(x.vsize, ExportFlags(x.readOnly))
                  else if opt == OPT_ABORT then Acknowledged else Unsupported, rest))
  {
    hide BE, FromBE, OptReply, ReadOptReply, Pow256;
    Widths();
    BERoundTrip(8, x.vsize);
    BERoundTrip(2, ExportFlags(x.readOnly));
    BERoundTrip(2, INFO_EXPORT);
    var s := OptionAnswer(x, opt) + rest;
    if opt == OPT_EXPORT_NAME {
      var pad := if x.noZeroes then 0 else 124;
      assert s[0..8] == BE(8, x.vsize) && s[8..10] == BE(2, ExportFlags(x.readOnly)) && s[10..10 + pad] == Zeros(pad);
      assert s[10 + pad..] == rest;
    } else if opt == OPT_GO || opt == OPT_INFO {
      var info := BE(2, INFO_EXPORT) + BE(8, x.vsize) + BE(2, ExportFlags(x.readOnly));
      InfoSlices(x, info);
      assert s == OptReply(opt, REP_INFO, info) + (OptReply(opt, REP_ACK, []) + rest);
      OptReplyRead(opt, REP_INFO, info, OptReply(opt, REP_ACK, []) + rest);
      OptReplyRead(opt, REP_ACK, [], rest);
    } else if opt == OPT_ABORT {
      OptReplyRead(opt, REP_ACK, [], rest);
    } else {
      OptReplyRead(opt, REP_ERR_UNSUP, [], rest);
    }
  }

  /** The flags a client is told, bit by bit: flags are there, flush, trim and write-zeroes are supported, and
      the read-only bit is that of the export. */
  lemma FlagBits(readOnly: bool)
    ensures var f := ExportFlags(readOnly);
            && f % 2 == 1 && (f / 2 % 2 == 1 <==> readOnly) && f / 4 % 2 == 1 && f / 8 % 4 == 0
            && f / 32 % 2 == 1 && f / 64 % 2 == 1 && f / 128 == 0
  {
  }

  /** An option as a client sends it. */
  datatype NbdOption = NbdOption(code: nat, data: seq<Byte>) {
    predicate Valid() { code < U32 && |data| < U32 }

    function Encode(): (s: seq<Byte>)
      ensures |s| == 16 + |data|
    {
      BE(8, IHAVEOPT) + BE(4, code) + BE(4, |data|) + data
    }
  }

  datatype Haggle = CutOption | BadOption | Asked(option: NbdOption)

  /** The next option on the stream. The magic is checked before the rest is read. */
  function ParseOption(s: seq<Byte>): (h: Haggle)
    ensures h.Asked? ==> 16 + |h.option.data| <= |s|
  {
    if |s| < 8 then CutOption
    else if FromBE(s[0..8]) != IHAVEOPT then BadOption
    else if |s| < 16 then CutOption
    else
      var len := FromBE(s[12..16]);
      if |s| < 16 + len then CutOption else Asked(NbdOption(FromBE(s[8..12]), s[16..16 + len]))
  }

  datatype End = NoFlags | Aborted | Broken(why: Haggle) | Served(ending: Ending)

  datatype Dialogue = Dialogue(output: seq<Byte>, flat: Flat, consumed: nat, end: End)

  function Prefixed(output: seq<Byte>, consumed: nat, d: Dialogue): Dialogue {
    d.(output := output + d.output, consumed := consumed + d.consumed)
  }

  function Entered(s: Transcript): Dialogue { Dialogue(s.output, s.flat, s.consumed, Served(s.ending)) }

  /** Option haggling over the reference disk, on any byte stream; commands fare as `faults` says. */
  function Haggling(flat: Flat, x: Export, input: seq<Byte>, faults: seq<Fault>): (d: Dialogue)
    requires flat.Valid()
    decreases |input|
  {
    var h := ParseOption(input);
    if !h.Asked? then Dialogue([], flat, 0, Broken(h)) else
      var opt, n := h.option.code, 16 + |h.option.data|;
      Prefixed(OptionAnswer(x, opt), n,
               if opt == OPT_EXPORT_NAME || opt == OPT_GO then Entered(ServeWith(flat, x.readOnly, input[n..], faults))
               else if opt == OPT_ABORT then Dialogue([], flat, 0, Aborted)
               else Haggling(flat, x, input[n..], faults))
  }

  /** The whole connection over the reference disk. */
  function Converse(flat: Flat, readOnly: bool, input: seq<Byte>, faults: seq<Fault>): (d: Dialogue)
    requires flat.Valid()
  {
    if |input| < 4 then Dialogue(Greeting(), flat, 0, NoFlags) else
      var noZeroes := FromBE(input[0..4]) / 2 % 2 == 1;
      Prefixed(Greeting(), 4, Haggling(flat, Export(|flat.bytes|, readOnly, noZeroes), input[4..], faults))
  }

  // ---- the connection loop -----------------------------------------------------------------------------

  lemma PrefixedTwice(o: seq<Byte>, c: nat, o': seq<Byte>, c': nat, d: Dialogue)
    ensures Prefixed(o, c, Prefixed(o', c', d)) == Prefixed(o + o', c + c', d)
  {
    assert o + (o' + d.output) == (o + o') + d.output;
  }

  // One option more, when haggling goes on or ends.
  lemma HaggleStep(flat: Flat, x: Export, input: seq<Byte>, faults: seq<Fault>, at: nat, output: seq<Byte>, rest: Dialogue)
    requires flat.Valid() && at <= |input| && ParseOption(input[at..]).Asked?
    requires var o := ParseOption(input[at..]).option;
             var next := input[at + 16 + |o.data|..];
             rest == if o.code == OPT_EXPORT_NAME || o.code == OPT_GO then Entered(ServeWith(flat, x.readOnly, next, faults))
                     else if o.code == OPT_ABORT then Dialogue([], flat, 0, Aborted)
                     else Haggling(flat, x, next, faults)
    ensures var o := ParseOption(input[at..]).option;
            Prefixed(output, at, Haggling(flat, x, input[at..], faults)) ==
            Prefixed(output + OptionAnswer(x, o.code), at + (16 + |o.data|), rest)
  {
    hide ParseOption, OptionAnswer, ServeWith;
    var o := ParseOption(input[at..]).option;
    var n := 16 + |o.data|;
    assert input[at..][n..] == input[at + n..];
    PrefixedTwice(output, at, OptionAnswer(x, o.code), n, rest);
  }

  /** Serve one connection over a layered disk, on any byte stream and any medium: haggling is that of
      the reference disk, and each command fares as `faults` says (fine where the medium is), up to the end
      of the stream or a panic for want of the block buffer. */
  method ServeConnection(disk: LayeredDisk, readOnly: bool, input: seq<Byte>)
    returns (output: seq<Byte>, consumed: nat, end: End, ghost faults: seq<Fault>)
    requires disk.Usable()
    modifies disk`view, disk`blockBuf, disk.scratch
    ensures disk.Usable() && old(FlatOf(disk)).Valid()
    ensures Dialogue(output, FlatOf(disk), consumed, end) == Converse(old(FlatOf(disk)), readOnly, input, faults)
    ensures disk.Dependable() ==> AllFine(faults)
  {
    hide LayeredDisk.Usable, LayeredDisk.Dependable, ParseOption, OptionAnswer, ServeWith, FromBE, BE, Haggling;
    FlatShape(disk);
    ghost var flat := FlatOf(disk);
    output, consumed, faults := Greeting(), 0, [];
    if |input| < 4 { return output, consumed, NoFlags, []; }
    var x := Export(disk.geometry.virtualSize, readOnly, FromBE(input[0..4]) / 2 % 2 == 1);
    consumed := 4;
    var h := ParseOption(input[consumed..]);
    while h.Asked? && h.option.code != OPT_EXPORT_NAME && h.option.code != OPT_GO && h.option.code != OPT_ABORT
      invariant disk.Usable() && flat == FlatOf(disk) && flat.Valid() && consumed <= |input|
      invariant h == ParseOption(input[consumed..])
      invariant HagglesOn(flat, readOnly, x, input, output, consumed)
      decreases |input| - consumed
    {
      HaggleOn(flat, readOnly, x, input, output, consumed);
      output, consumed := output + OptionAnswer(x, h.option.code), consumed + (16 + |h.option.data|);
      h := ParseOption(input[consumed..]);
    }
    if !h.Asked? {
      Breaks(flat, x, input[consumed..]);
      return output, consumed, Broken(h), [];
    }
    var n := consumed + (16 + |h.option.data|);
    if h.option.code == OPT_ABORT {
      HaggleStep(flat, x, input, [], consumed, output, Dialogue([], flat, 0, Aborted));
      return output + OptionAnswer(x, OPT_ABORT), n, Aborted, [];
    }
    var sent, read, ending;
    sent, read, ending, faults := Transmission(disk, readOnly, input[n..]);
    HaggleStep(flat, x, input, faults, consumed, output, Entered(ServeWith(flat, readOnly, input[n..], faults)));
    output, consumed, end := output + OptionAnswer(x, h.option.code) + sent, n + read, Served(ending);
  }

  // So far the connection is on track, whatever becomes of the commands.
  ghost predicate HagglesOn(flat: Flat, readOnly: bool, x: Export, input: seq<Byte>, output: seq<Byte>, consumed: nat) {
    && flat.Valid() && consumed <= |input| && x.readOnly == readOnly
    && forall faults: seq<Fault> ::
         Converse(flat, readOnly, input, faults) == Prefixed(output, consumed, Haggling(flat, x, input[consumed..], faults))
  }

  lemma HaggleOn(flat: Flat, readOnly: bool, x: Export, input: seq<Byte>, output: seq<Byte>, at: nat)
    requires HagglesOn(flat, readOnly, x, input, output, at)
    requires var h := ParseOption(input[at..]); h.Asked? && h.option.code != OPT_EXPORT_NAME && h.option.code != OPT_GO && h.option.code != OPT_ABORT
    ensures var o := ParseOption(input[at..]).option;
            HagglesOn(flat, readOnly, x, input, output + OptionAnswer(x, o.code), at + (16 + |o.data|))
  {
    hide ParseOption, OptionAnswer, Haggling, Converse, Prefixed;
    var o := ParseOption(input[at..]).option;
    var n := at + (16 + |o.data|);
    forall faults: seq<Fault>
      ensures Converse(flat, readOnly, input, faults) == Prefixed(output + OptionAnswer(x, o.code), n, Haggling(flat, x, input[n..], faults))
    {
      HaggleStep(flat, x, input, faults, at, output, Haggling(flat, x, input[n..], faults));
    }
  }

  lemma Breaks(flat: Flat, x: Export, input: seq<Byte>)
    requires flat.Valid() && !ParseOption(input).Asked?
    ensures Haggling(flat, x, input, []) == Dialogue([], flat, 0, Broken(ParseOption(input)))
  {
  }

  // ---- a client that gets in ----------------------------------------------------------------------------------

  lemma OptionSlices(o: NbdOption, rest: seq<Byte>, s: seq<Byte>)
    requires s == o.Encode() + rest
    ensures |s| >= 16 + |o.data| && s[16 + |o.data|..] == rest && s[16..16 + |o.data|] == o.data
    ensures s[0..8] == BE(8, IHAVEOPT) && s[8..12] == BE(4, o.code) && s[12..16] == BE(4, |o.data|)
  {
    hide BE;
    var e := o.Encode();
    assert s[0..8] == e[0..8] && s[8..12] == e[8..12] && s[12..16] == e[12..16];
  }

  /** An option written on the wire is read back, whatever follows it. */
  lemma OptionRoundTrip(o: NbdOption, rest: seq<Byte>)
    requires o.Valid()
    ensures ParseOption(o.Encode() + rest) == Asked(o)
  {
    hide BE, FromBE, NbdOption.Encode, Pow256;
    OptionSlices(o, rest, o.Encode() + rest);
    Widths();
    BERoundTrip(8, IHAVEOPT);
    BERoundTrip(4, o.code);
    BERoundTrip(4, |o.data|);
  }

  predicate Lingers(o: NbdOption) { o.Valid() && o.code != OPT_EXPORT_NAME && o.code != OPT_GO && o.code != OPT_ABORT }

  function EncodeOptions(opts: seq<NbdOption>): seq<Byte> {
    if opts == [] then [] else opts[0].Encode() + EncodeOptions(opts[1..])
  }

  function OptionAnswers(x: Export, opts: seq<NbdOption>): seq<Byte> {
    if opts == [] then [] else OptionAnswer(x, opts[0].code) + OptionAnswers(x, opts[1..])
  }

  // One encoded option, with anything after it.
  lemma HaggleOne(flat: Flat, x: Export, o: NbdOption, tail: seq<Byte>, faults: seq<Fault>)
    requires flat.Valid() && o.Valid() && o.code != OPT_ABORT
    ensures Haggling(flat, x, o.Encode() + tail, faults) ==
            Prefixed(OptionAnswer(x, o.code), |o.Encode()|,
                     if o.code == OPT_EXPORT_NAME || o.code == OPT_GO then Entered(ServeWith(flat, x.readOnly, tail, faults))
                     else Haggling(flat, x, tail, faults))
  {
    hide OptionAnswer, ServeWith, NbdOption.Encode, ParseOption, Prefixed;
    var s := o.Encode() + tail;
    OptionRoundTrip(o, tail);
    assert s[16 + |o.data|..] == tail;
  }

  /** Any number of queries and unknown options, then entry: each is answered in turn, no byte of an
      option is mistaken for another, and the commands that follow are served. */
  lemma {:induction false} HaggleRun(flat: Flat, x: Export, opts: seq<NbdOption>, enter: NbdOption, rest: seq<Byte>, faults: seq<Fault>)
    requires flat.Valid() && (forall o :: o in opts ==> Lingers(o))
    requires enter.Valid() && (enter.code == OPT_GO || enter.code == OPT_EXPORT_NAME)
    ensures Haggling(flat, x, EncodeOptions(opts) + (enter.Encode() + rest), faults) ==
            Prefixed(OptionAnswers(x, opts) + OptionAnswer(x, enter.code), |EncodeOptions(opts)| + |enter.Encode()|,
                     Entered(ServeWith(flat, x.readOnly, rest, faults)))
    decreases |opts|
  {
    hide OptionAnswer, ServeWith, NbdOption.Encode, Haggling, Prefixed, Entered;
    var last := enter.Encode() + rest;
    if opts == [] {
      HaggleOne(flat, x, enter, rest, faults);
      assert EncodeOptions(opts) + last == last;
      assert OptionAnswers(x, opts) + OptionAnswer(x, enter.code) == OptionAnswer(x, enter.code);
    } else {
      var o, tail := opts[0], EncodeOptions(opts[1..]) + last;
      assert o in opts;
      HaggleOne(flat, x, o, tail, faults);
      HaggleRun(flat, x, opts[1..], enter, rest, faults);
      PrefixedTwice(OptionAnswer(x, o.code), |o.Encode()|, OptionAnswers(x, opts[1..]) + OptionAnswer(x, enter.code),
                    |EncodeOptions(opts[1..])| + |enter.Encode()|, Entered(ServeWith(flat, x.readOnly, rest, faults)));
      assert EncodeOptions(opts) + last == o.Encode() + tail;
      assert OptionAnswer(x, o.code) + (OptionAnswers(x, opts[1..]) + OptionAnswer(x, enter.code)) == OptionAnswers(x, opts) + OptionAnswer(x, enter.code);
    }
  }

  lemma FlagsRead(flat: Flat, readOnly: bool, flags: nat, rest: seq<Byte>, faults: seq<Fault>)
    requires flat.Valid() && flags < U32
    ensures Converse(flat, readOnly, BE(4, flags) + rest, faults) ==
            Prefixed(Greeting(), 4, Haggling(flat, Export(|flat.bytes|, readOnly, flags / 2 % 2 == 1), rest, faults))
  {
    hide BE, FromBE, Haggling, Prefixed, Pow256;
    var input := BE(4, flags) + rest;
    Widths();
    BERoundTrip(4, flags);
    assert input[0..4] == BE(4, flags) && input[4..] == rest;
  }

  lemma ServedRun(flat: Flat, readOnly: bool, cmds: seq<WireCommand>)
    requires flat.Valid() && AllAnswerable(cmds)
    ensures var run := FlatRun(flat, readOnly, cmds);
            Serve(flat, readOnly, EncodeAll(cmds)) == Transcript(EncodeReplies(run.0), run.1, |EncodeAll(cmds)|, Hangup)
  {
    hide Serve, EncodeAll, EncodeReplies, FlatRun;
    WireRun(flat, readOnly, cmds, []);
    assert EncodeAll(cmds) + [] == EncodeAll(cmds);
    HangsUp(FlatRun(flat, readOnly, cmds).1, readOnly);
  }

  /** The bytes of a client that gets in. */
  function Script(flags: nat, opts: seq<NbdOption>, enter: NbdOption, cmds: seq<WireCommand>): seq<Byte> {
    BE(4, flags) + (EncodeOptions(opts) + (enter.Encode() + EncodeAll(cmds)))
  }

  /** A whole connection of a well-behaved client: flags, options, entry, commands. The server sends
      the greeting, one answer per option, one reply per command — those of the flat array — and reads
      exactly what the client sent. */
  lemma WholeConnection(flat: Flat, readOnly: bool, flags: nat, opts: seq<NbdOption>, enter: NbdOption, cmds: seq<WireCommand>,
                        faults: seq<Fault>)
    requires flat.Valid() && flat.buffer.Kept? && AllFine(faults) && flags < U32 && (forall o :: o in opts ==> Lingers(o)) && AllAnswerable(cmds)
    requires enter.Valid() && (enter.code == OPT_GO || enter.code == OPT_EXPORT_NAME)
    ensures var x, run := Export(|flat.bytes|, readOnly, flags / 2 % 2 == 1), FlatRun(flat, readOnly, cmds);
            Converse(flat, readOnly, Script(flags, opts, enter, cmds), faults) ==
            Dialogue(Greeting() + (OptionAnswers(x, opts) + OptionAnswer(x, enter.code)) + EncodeReplies(run.0), run.1,
                     |Script(flags, opts, enter, cmds)|, Served(Hangup))
  {
    hide OptionAnswer, OptionAnswers, Serve, ServeWith, EncodeAll, EncodeOptions, EncodeReplies, FlatRun;
    hide NbdOption.Encode, Greeting, Haggling, Converse, BE;
    var x, run := Export(|flat.bytes|, readOnly, flags / 2 % 2 == 1), FlatRun(flat, readOnly, cmds);
    FlagsRead(flat, readOnly, flags, EncodeOptions(opts) + (enter.Encode() + EncodeAll(cmds)), faults);
    HaggleRun(flat, x, opts, enter, EncodeAll(cmds), faults);
    NoFaults(flat, readOnly, EncodeAll(cmds), faults);
    ServedRun(flat, readOnly, cmds);
    PrefixedTwice(Greeting(), 4, OptionAnswers(x, opts) + OptionAnswer(x, enter.code), |EncodeOptions(opts)| + |enter.Encode()|,
                  Entered(ServeWith(flat, readOnly, EncodeAll(cmds), faults)));
  }

  // ---- the same, as the client reads it --------------------------------------------------------------------------

  function Codes(opts: seq<NbdOption>): (r: seq<nat>)
    ensures |r| == |opts| && forall i :: 0 <= i < |opts| ==> r[i] == opts[i].code
  {
    seq(|opts|, i requires 0 <= i < |opts| => opts[i].code)
  }

  /** A client reads the answers to its options, one after the other. */
  function ClientHaggles(s: seq<Byte>, codes: seq<nat>, noZeroes: bool): (r: Option<(seq<Learnt>, seq<Byte>)>)
    decreases |codes|
  {
    if codes == [] then Some(([], s)) else
      var first := ClientLearns(s, codes[0], noZeroes);
      if first.None? then None else
      var more := ClientHaggles(first.value.1, codes[1..], noZeroes);
      if more.None? then None else Some(([first.value.0] + more.value.0, more.value.1))
  }

  /** What there is to learn from each option. */
  function Told(x: Export, codes: seq<nat>): (r: seq<Learnt>)
    ensures |r| == |codes|
  {
    seq(|codes|, i requires 0 <= i < |codes| =>
      if codes[i] == OPT_EXPORT_NAME || codes[i] == OPT_GO || codes[i] == OPT_INFO then Exported(x.vsize, ExportFlags(x.readOnly))
      else if codes[i] == OPT_ABORT then Acknowledged else Unsupported)
  }

  lemma {:induction false} AnswersRead(x: Export, opts: seq<NbdOption>, rest: seq<Byte>)
    requires x.vsize < U64 && forall o :: o in opts ==> o.Valid()
    ensures ClientHaggles(OptionAnswers(x, opts) + rest, Codes(opts), x.noZeroes) == Some((Told(x, Codes(opts)), rest))
    decreases |opts|
  {
    hide ClientLearns, OptionAnswer;
    if opts == [] {
      assert OptionAnswers(x, opts) + rest == rest;
    } else {
      var tail := OptionAnswers(x, opts[1..]) + rest;
      assert OptionAnswers(x, opts) + rest == OptionAnswer(x, opts[0].code) + tail;
      assert opts[0] in opts && opts[0].Valid();
      OptionAnswerRead(x, opts[0].code, tail);
      AnswersRead(x, opts[1..], rest);
      assert Codes(opts)[1..] == Codes(opts[1..]);
      assert Told(x, Codes(opts)) == [Told(x, Codes(opts))[0]] + Told(x, Codes(opts[1..]));
    }
  }

  lemma {:induction false} AnswersSnoc(x: Export, opts: seq<NbdOption>, enter: NbdOption)
    ensures OptionAnswers(x, opts + [enter]) == OptionAnswers(x, opts) + OptionAnswer(x, enter.code)
    decreases |opts|
  {
    hide OptionAnswer;
    if opts == [] {
      assert (opts + [enter])[1..] == [];
    } else {
      assert (opts + [enter])[1..] == opts[1..] + [enter];
      AnswersSnoc(x, opts[1..], enter);
    }
  }

  /** A whole connection as its client reads it, knowing only the protocol: the greeting, for each option what it
      asked, the export it enters, and for each command its reply on the flat array; then nothing more. */
  lemma ClientTalks(flat: Flat, readOnly: bool, flags: nat, opts: seq<NbdOption>, enter: NbdOption, cmds: seq<WireCommand>)
    requires flat.Valid() && flat.buffer.Kept? && |flat.bytes| < U64 && flags < U32
    requires (forall o :: o in opts ==> Lingers(o)) && AllAnswerable(cmds)
    requires enter.Valid() && (enter.code == OPT_GO || enter.code == OPT_EXPORT_NAME)
    ensures var out := Converse(flat, readOnly, Script(flags, opts, enter, cmds), []).output;
            var codes, noZeroes := Codes(opts + [enter]), flags / 2 % 2 == 1;
            && |out| >= 18 && out[0..8] == BE(8, INIT_PASSWD) && out[8..16] == BE(8, IHAVEOPT) && out[16..18] == BE(2, 3)
            && (var told := ClientHaggles(out[18..], codes, noZeroes);
                && told.Some? && told.value.0 == Told(Export(|flat.bytes|, readOnly, noZeroes), codes)
                && ClientReads(told.value.1, Wants(cmds)) == Some((FlatRun(flat, readOnly, cmds).0, [])))
  {
    hide OptionAnswer, OptionAnswers, EncodeAll, EncodeReplies, FlatRun, NbdOption.Encode, Converse, BE, ClientHaggles, ClientReads, Wants, Script, Codes, Told;
    var x, run := Export(|flat.bytes|, readOnly, flags / 2 % 2 == 1), FlatRun(flat, readOnly, cmds);
    var all := opts + [enter];
    WholeConnection(flat, readOnly, flags, opts, enter, cmds, []);
    var out := Converse(flat, readOnly, Script(flags, opts, enter, cmds), []).output;
    AnswersSnoc(x, opts, enter);
    assert out[18..] == OptionAnswers(x, all) + EncodeReplies(run.0);
    AnswersRead(x, all, EncodeReplies(run.0));
    ClientSees(flat, readOnly, cmds);
    ServedRun(flat, readOnly, cmds);
  }

  lemma HangsUp(flat: Flat, readOnly: bool)
    requires flat.Valid()
    ensures Serve(flat, readOnly, []) == Transcript([], flat, 0, Hangup)
  {
    WireEnds(flat, readOnly, Request(0, CMD_DISC, 0, 0, 0), []);
  }
}
