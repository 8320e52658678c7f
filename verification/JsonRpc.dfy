/** `Content-Length` framing of language-server messages (lsp/jsonrpc.rs), the "Base Protocol"
    section of the LSP 3.17 specification. A message is its body bytes; which bodies are JSON is a
    parameter `json`.
 */
module JsonRpc {
  import opened Bytes

  const CR: Byte := 13
  const LF: Byte := 10
  const COLON: Byte := 58
  const PLUS: Byte := 43
  const ZERO: Byte := 48
  /** "Content-Length" and its lower-case form */
  const NAME: seq<Byte> := [0x43, 0x6F, 0x6E, 0x74, 0x65, 0x6E, 0x74, 0x2D, 0x4C, 0x65, 0x6E, 0x67, 0x74, 0x68]
  const KEY: seq<Byte> := [0x63, 0x6F, 0x6E, 0x74, 0x65, 0x6E, 0x74, 0x2D, 0x6C, 0x65, 0x6E, 0x67, 0x74, 0x68]
  const MAX_MESSAGE_BYTES: nat := 64 * 1024 * 1024

  // ---- decimal ---------------------------------------------------------------------------------------

  predicate IsDigit(b: Byte) { ZERO <= b < ZERO + 10 }

  function Decimal(n: nat): (r: seq<Byte>)
    ensures r != [] && forall i :: 0 <= i < |r| ==> IsDigit(r[i])
  {
    if n < 10 then [ZERO + n] else Decimal(n / 10) + [ZERO + n % 10]
  }

  function DigitsValue(s: seq<Byte>): (r: Option<nat>) {
    if s == [] then Some(0) else
      var init := DigitsValue(s[..|s| - 1]);
      var b := s[|s| - 1];
      if init.Some? && IsDigit(b) then Some(10 * init.value + (b - ZERO)) else None
  }

  /** Parse an unsigned 64-bit number: an optional plus sign, then at least one digit. */
  function ParseUsize(s: seq<Byte>): (r: Option<nat>) {
    var digits := if s != [] && s[0] == PLUS then s[1..] else s;
    if digits == [] then None else
      var v := DigitsValue(digits);
      if v.Some? && v.value < U64 then v else None
  }

  lemma {:induction false} DecimalValue(n: nat)
    ensures DigitsValue(Decimal(n)) == Some(n)
  {
    var d := Decimal(n);
    if n < 10 {
      assert d[..0] == [];
    } else {
      DecimalValue(n / 10);
      assert d[..|d| - 1] == Decimal(n / 10);
    }
  }

  /** Printing then parsing a length gives it back. */
  lemma DecimalRoundTrip(n: nat)
    requires n < U64
    ensures ParseUsize(Decimal(n)) == Some(n)
  {
    assert Decimal(n)[0] != PLUS by { assert IsDigit(Decimal(n)[0]); }
    DecimalValue(n);
  }

  function ZeroDigits(k: nat): (r: seq<Byte>)
    ensures |r| == k
  {
    seq(k, _ => ZERO)
  }

  /** `s` is `n` in decimal, with any number of leading zeros and perhaps a plus sign. */
  ghost predicate Numeral(s: seq<Byte>, n: nat) {
    exists k: nat :: s == ZeroDigits(k) + Decimal(n) || s == [PLUS] + (ZeroDigits(k) + Decimal(n))
  }

  lemma {:induction false} ZerosValue(k: nat)
    ensures DigitsValue(ZeroDigits(k)) == Some(0)
  {
    if k > 0 {
      ZerosValue(k - 1);
      assert ZeroDigits(k)[..k - 1] == ZeroDigits(k - 1);
    }
  }

  lemma {:induction false} PaddedValue(k: nat, n: nat)
    ensures DigitsValue(ZeroDigits(k) + Decimal(n)) == Some(n)
    decreases n
  {
    var s, z := ZeroDigits(k) + Decimal(n), ZeroDigits(k);
    if n < 10 {
      ZerosValue(k);
      assert s[..|s| - 1] == z;
    } else {
      PaddedValue(k, n / 10);
      assert s[..|s| - 1] == z + Decimal(n / 10);
    }
  }

  lemma {:induction false} ValuePadded(s: seq<Byte>) returns (k: nat)
    requires s != [] && DigitsValue(s).Some?
    ensures s == ZeroDigits(k) + Decimal(DigitsValue(s).value)
    decreases |s|
  {
    var init, b := s[..|s| - 1], s[|s| - 1];
    if init == [] {
      k := 0;
      assert s == [b];
    } else {
      var j := ValuePadded(init);
      var m := DigitsValue(init).value;
      k := if m == 0 then j + 1 else j;
      assert s == init + [b];
      assert m == 0 ==> init == ZeroDigits(j + 1);
    }
  }

  /** A length parses to `n` exactly when it is a numeral of `n` and fits 64 bits. */
  lemma ParseUsizeMeans(s: seq<Byte>, n: nat)
    ensures ParseUsize(s) == Some(n) <==> n < U64 && Numeral(s, n)
  {
    hide Decimal, DigitsValue;
    if ParseUsize(s) == Some(n) {
      var digits := if s[0] == PLUS then s[1..] else s;
      var k := ValuePadded(digits);
      assert s[0] == PLUS ==> s == [PLUS] + digits;
    }
    if n < U64 && Numeral(s, n) {
      var k: nat :| s == ZeroDigits(k) + Decimal(n) || s == [PLUS] + (ZeroDigits(k) + Decimal(n));
      var d := ZeroDigits(k) + Decimal(n);
      PaddedValue(k, n);
      assert d[0] != PLUS by { assert k == 0 ==> IsDigit(Decimal(n)[0]); }
      assert ([PLUS] + d)[1..] == d;
    }
  }

  // ---- lines -------------------------------------------------------------------------------------------

  /** Where the line that starts at `pos` ends: after the first line feed, or at the end of input. */
  function LineEnd(input: seq<Byte>, pos: nat): (r: nat)
    requires pos <= |input|
    ensures pos <= r <= |input| && (pos < |input| ==> pos < r)
    decreases |input| - pos
  {
    if pos == |input| then pos
    else if input[pos] == LF then pos + 1
    else LineEnd(input, pos + 1)
  }

  predicate IsSpace(b: Byte) { b == 32 || 9 <= b <= 13 }

  predicate IsNewline(b: Byte) { b == CR || b == LF }

  /** Without trailing carriage returns and line feeds. */
  function Chomp(s: seq<Byte>): (r: seq<Byte>) {
    if s != [] && IsNewline(s[|s| - 1]) then Chomp(s[..|s| - 1]) else s
  }

  /** The UTF-8 form of a white-space character beyond ASCII. */
  predicate WideSpace(c: seq<Byte>) {
    || c == [0xC2, 0x85] || c == [0xC2, 0xA0] || c == [0xE1, 0x9A, 0x80] || c == [0xE2, 0x81, 0x9F] || c == [0xE3, 0x80, 0x80]
    || (|c| == 3 && c[..2] == [0xE2, 0x80] && (0x80 <= c[2] <= 0x8A || c[2] == 0xA8 || c[2] == 0xA9 || c[2] == 0xAF))
  }

  /** How many bytes the white-space character at the front of `s` takes; none if there is none. */
  function FrontSpace(s: seq<Byte>): (n: nat)
    ensures n <= |s|
  {
    if s != [] && IsSpace(s[0]) then 1
    else if |s| >= 2 && WideSpace(s[..2]) then 2
    else if |s| >= 3 && WideSpace(s[..3]) then 3
    else 0
  }

  function BackSpace(s: seq<Byte>): (n: nat)
    ensures n <= |s|
  {
    if s != [] && IsSpace(s[|s| - 1]) then 1
    else if |s| >= 2 && WideSpace(s[|s| - 2..]) then 2
    else if |s| >= 3 && WideSpace(s[|s| - 3..]) then 3
    else 0
  }

  function TrimStart(s: seq<Byte>): (r: seq<Byte>) {
    if FrontSpace(s) > 0 then TrimStart(s[FrontSpace(s)..]) else s
  }

  function TrimEnd(s: seq<Byte>): (r: seq<Byte>) {
    if BackSpace(s) > 0 then TrimEnd(s[..|s| - BackSpace(s)]) else s
  }

  function Trim(s: seq<Byte>): seq<Byte> { TrimEnd(TrimStart(s)) }

  /** The index of the first colon. */
  function Colon(s: seq<Byte>): (r: Option<nat>)
    ensures r.Some? ==> r.value < |s|
  {
    if s == [] then None
    else if s[0] == COLON then Some(0)
    else
      var r := Colon(s[1..]);
      if r.Some? then Some(r.value + 1) else None
  }

  function Lower(b: Byte): Byte { if 65 <= b <= 90 then b + 32 else b }

  predicate SameIgnoringCase(s: seq<Byte>, t: seq<Byte>) {
    |s| == |t| && forall i :: 0 <= i < |s| ==> Lower(s[i]) == Lower(t[i])
  }

  // ---- text -------------------------------------------------------------------------------------------------

  predicate Continues(b: Byte) { 0x80 <= b < 0xC0 }

  /** The length of the UTF-8 sequence `s` starts with (section 4 of RFC 3629), or 0. */
  function Utf8Lead(s: seq<Byte>): (n: nat)
    ensures n <= |s|
  {
    if s == [] then 0
    else if s[0] < 0x80 then 1
    else if |s| >= 2 && 0xC2 <= s[0] <= 0xDF && Continues(s[1]) then 2
    else if |s| >= 3 && 0xE0 <= s[0] <= 0xEF && Continues(s[1]) && Continues(s[2])
            && (s[0] == 0xE0 ==> s[1] >= 0xA0) && (s[0] == 0xED ==> s[1] < 0xA0) then 3
    else if |s| >= 4 && 0xF0 <= s[0] <= 0xF4 && Continues(s[1]) && Continues(s[2]) && Continues(s[3])
            && (s[0] == 0xF0 ==> s[1] >= 0x90) && (s[0] == 0xF4 ==> s[1] < 0x90) then 4
    else 0
  }

  predicate Utf8(s: seq<Byte>) {
    s == [] || (Utf8Lead(s) > 0 && Utf8(s[Utf8Lead(s)..]))
  }

  /** A Unicode scalar value: a code point that is not a surrogate. */
  predicate Scalar(c: nat) { c < 0xD800 || 0xE000 <= c < 0x11_0000 }

  /** The UTF-8 form of a scalar value (section 3 of RFC 3629). */
  function EncodeScalar(c: nat): (s: seq<Byte>)
    requires Scalar(c)
    ensures 1 <= |s| <= 4
  {
    if c < 0x80 then [c]
    else if c < 0x800 then [0xC0 + c / 64, 0x80 + c % 64]
    else if c < 0x1_0000 then [0xE0 + c / 4096, 0x80 + c / 64 % 64, 0x80 + c % 64]
    else [0xF0 + c / 262144, 0x80 + c / 4096 % 64, 0x80 + c / 64 % 64, 0x80 + c % 64]
  }

  function EncodeText(text: seq<nat>): seq<Byte>
    requires forall i :: 0 <= i < |text| ==> Scalar(text[i])
  {
    if text == [] then [] else EncodeScalar(text[0]) + EncodeText(text[1..])
  }

  /** The scalar value of the UTF-8 sequence `s` starts with. */
  function DecodeLead(s: seq<Byte>): (c: nat)
    requires Utf8Lead(s) > 0
  {
    var n := Utf8Lead(s);
    var b0: nat := s[0];
    if n == 1 then b0 else
    var b1: nat := s[1] - 0x80;
    if n == 2 then (b0 - 0xC0) * 64 + b1 else
    var b2: nat := s[2] - 0x80;
    if n == 3 then ((b0 - 0xE0) * 64 + b1) * 64 + b2 else
    var b3: nat := s[3] - 0x80;
    (((b0 - 0xF0) * 64 + b1) * 64 + b2) * 64 + b3
  }

  // A number in base 64.
  lemma Base64(x: nat, d: nat)
    requires d < 64
    ensures (x * 64 + d) / 64 == x && (x * 64 + d) % 64 == d
  {
  }

  lemma LeadDecodes(s: seq<Byte>)
    requires Utf8Lead(s) > 0
    ensures Scalar(DecodeLead(s)) && EncodeScalar(DecodeLead(s)) == s[..Utf8Lead(s)]
  {
    var n := Utf8Lead(s);
    var b0: nat := s[0];
    if n >= 2 {
      var b1: nat := s[1] - 0x80;
      if n == 2 {
        Base64(b0 - 0xC0, b1);
        assert s[..2] == [s[0], s[1]];
      } else {
        var b2: nat := s[2] - 0x80;
        if n == 3 { LeadOfThree(s, b0 - 0xE0, b1, b2); } else { LeadOfFour(s, b0 - 0xF0, b1, b2, s[3] - 0x80); }
      }
    } else {
      assert s[..1] == [s[0]];
    }
  }

  lemma LeadOfThree(s: seq<Byte>, a: nat, b: nat, c: nat)
    requires Utf8Lead(s) == 3 && s[0] == 0xE0 + a && s[1] == 0x80 + b && s[2] == 0x80 + c
    ensures Scalar((a * 64 + b) * 64 + c) && EncodeScalar((a * 64 + b) * 64 + c) == s[..3]
  {
    var v := (a * 64 + b) * 64 + c;
    Base64(a, b);
    Base64(a * 64 + b, c);
    DivTwice(v, 64, 64);
    assert s[..3] == [s[0], s[1], s[2]];
  }

  lemma LeadOfFour(s: seq<Byte>, a: nat, b: nat, c: nat, d: nat)
    requires Utf8Lead(s) == 4 && s[0] == 0xF0 + a && s[1] == 0x80 + b && s[2] == 0x80 + c && s[3] == 0x80 + d
    ensures Scalar(((a * 64 + b) * 64 + c) * 64 + d) && EncodeScalar(((a * 64 + b) * 64 + c) * 64 + d) == s[..4]
  {
    var v := ((a * 64 + b) * 64 + c) * 64 + d;
    Base64(a, b);
    Base64(a * 64 + b, c);
    Base64((a * 64 + b) * 64 + c, d);
    DivTwice(v, 64, 64);
    DivTwice(v, 4096, 64);
    assert s[..4] == [s[0], s[1], s[2], s[3]];
  }

  lemma LeadEncodes(c: nat, rest: seq<Byte>)
    requires Scalar(c)
    ensures Utf8Lead(EncodeScalar(c) + rest) == |EncodeScalar(c)|
  {
  }

  /** Bytes are text exactly when they are the UTF-8 form of some sequence of scalar values. */
  lemma TextMeans(s: seq<Byte>)
    ensures Utf8(s) <==> exists text: seq<nat> :: (forall i :: 0 <= i < |text| ==> Scalar(text[i])) && EncodeText(text) == s
  {
    hide Utf8, EncodeText;
    if Utf8(s) { var text := TextOf(s); }
    forall text: seq<nat> | (forall i :: 0 <= i < |text| ==> Scalar(text[i])) && EncodeText(text) == s
      ensures Utf8(s)
    {
      EncodedIsText(text);
    }
  }

  lemma {:induction false} TextOf(s: seq<Byte>) returns (text: seq<nat>)
    requires Utf8(s)
    ensures (forall i :: 0 <= i < |text| ==> Scalar(text[i])) && EncodeText(text) == s
    decreases |s|
  {
    hide Utf8Lead, EncodeScalar, Scalar, DecodeLead;
    if s == [] {
      text := [];
    } else {
      var n := Utf8Lead(s);
      var rest := TextOf(s[n..]);
      LeadDecodes(s);
      text := [DecodeLead(s)] + rest;
      assert text[1..] == rest;
      assert s == s[..n] + s[n..];
    }
  }

  lemma {:induction false} EncodedIsText(text: seq<nat>)
    requires forall i :: 0 <= i < |text| ==> Scalar(text[i])
    ensures Utf8(EncodeText(text))
    decreases |text|
  {
    hide Utf8Lead, EncodeScalar, Scalar;
    if text != [] {
      var head, tail := EncodeScalar(text[0]), EncodeText(text[1..]);
      LeadEncodes(text[0], tail);
      EncodedIsText(text[1..]);
      assert (head + tail)[|head|..] == tail;
    }
  }

  lemma {:induction false} AsciiIsText(s: seq<Byte>)
    requires forall i :: 0 <= i < |s| ==> s[i] < 0x80
    ensures Utf8(s)
  {
    if s != [] { AsciiIsText(s[1..]); }
  }

  // ---- the reader ----------------------------------------------------------------------------------------

  datatype Outcome = Message(body: seq<Byte>, next: nat) | EndOfStream | Failed(error: FrameError)

  datatype FrameError = MissingLength | TooLong | CutShort | NotText | NotJson

  datatype Headers = NoMore | Garbled | Done(length: Option<nat>, next: nat)

  /** What one header line does to the length seen so far. */
  function HeaderLine(length: Option<nat>, line: seq<Byte>): Option<nat> {
    var at := Colon(line);
    if at.Some? && SameIgnoringCase(Trim(line[..at.value]), KEY) then ParseUsize(Trim(line[at.value + 1..]))
    else length
  }

  /** Read header lines from `pos` up to an empty line. */
  function HeadersFrom(input: seq<Byte>, pos: nat, length: Option<nat>): (r: Headers)
    requires pos <= |input|
    ensures r.Done? ==> pos < r.next <= |input|
    decreases |input| - pos
  {
    if pos == |input| then NoMore else
      var next := LineEnd(input, pos);
      var line := Chomp(input[pos..next]);
      if !Utf8(input[pos..next]) then Garbled
      else if line == [] then Done(length, next) else HeadersFrom(input, next, HeaderLine(length, line))
  }

  function BodyAt(json: seq<Byte> -> bool, input: seq<Byte>, h: Headers): (r: Outcome)
    requires h.Done? ==> h.next <= |input|
  {
    if h.NoMore? then EndOfStream
    else if h.Garbled? then Failed(NotText)
    else if h.length.None? then Failed(MissingLength)
    else if h.length.value > MAX_MESSAGE_BYTES then Failed(TooLong)
    else if h.next + h.length.value > |input| then Failed(CutShort)
    else if !json(input[h.next..h.next + h.length.value]) then Failed(NotJson)
    else Message(input[h.next..h.next + h.length.value], h.next + h.length.value)
  }

  /** What reading one message at `pos` yields. */
  function ReadAt(json: seq<Byte> -> bool, input: seq<Byte>, pos: nat): (r: Outcome)
    requires pos <= |input|
    ensures r.Message? ==> pos < r.next <= |input|
  {
    BodyAt(json, input, HeadersFrom(input, pos, None))
  }

  class Reader {
    const input: seq<Byte>
    const json: seq<Byte> -> bool
    var pos: nat

    predicate Valid()
      reads this
    {
      pos <= |input|
    }

    constructor (input: seq<Byte>, json: seq<Byte> -> bool)
      ensures Valid() && this.input == input && this.json == json && pos == 0
    {
      this.input, this.json := input, json;
      pos := 0;
    }

    /** One line with its terminator; empty at the end of input. */
    method ReadLine() returns (line: seq<Byte>)
      requires Valid()
      modifies this
      ensures Valid() && pos == LineEnd(input, old(pos)) && line == input[old(pos)..pos]
    {
      var start := pos;
      var i := pos;
      while i < |input| && input[i] != LF
        invariant start <= i <= |input| && LineEnd(input, i) == LineEnd(input, start)
      {
        i := i + 1;
      }
      pos := if i < |input| then i + 1 else i;
      line := input[start..pos];
    }

    /** Read one framed message. */
    method ReadMessage() returns (r: Outcome)
      requires Valid()
      modifies this
      ensures Valid() && r == ReadAt(json, input, old(pos))
      ensures r.Message? ==> pos == r.next
      ensures r.EndOfStream? ==> pos == |input|
    {
      hide Chomp, HeaderLine, LineEnd, Utf8;
      var length: Option<nat> := None;
      var more := true;
      ghost var start := pos;
      while more
        invariant Valid()
        invariant more ==> HeadersFrom(input, start, None) == HeadersFrom(input, pos, length)
        invariant !more ==> HeadersFrom(input, start, None) == Done(length, pos)
        decreases more, |input| - pos
      {
        var line := ReadLine();
        if line == [] { return EndOfStream; }
        if !Utf8(line) { return Failed(NotText); }
        var trimmed := Chomp(line);
        if trimmed == [] {
          more := false;
        } else {
          length := HeaderLine(length, trimmed);
        }
      }
      r := BodyAt(json, input, Done(length, pos));
      if r.Message? { pos := r.next; }
    }
  }

  // ---- writing ---------------------------------------------------------------------------------------------

  /** The bytes written for one message. */
  function Frame(body: seq<Byte>): seq<Byte> {
    NAME + [COLON, 32] + Decimal(|body|) + [CR, LF] + [CR, LF] + body
  }

  function Stream(bodies: seq<seq<Byte>>): seq<Byte> {
    if bodies == [] then [] else Frame(bodies[0]) + Stream(bodies[1..])
  }

  datatype Received = Received(bodies: seq<seq<Byte>>, last: Outcome)

  /** Everything read from `pos` on, and how it ended. */
  function ReadFrom(json: seq<Byte> -> bool, input: seq<Byte>, pos: nat): (r: Received)
    requires pos <= |input|
    decreases |input| - pos
  {
    var r := ReadAt(json, input, pos);
    if !r.Message? then Received([], r)
    else
      var rest := ReadFrom(json, input, r.next);
      rest.(bodies := [r.body] + rest.bodies)
  }

  /** Append one message to the wire. */
  method WriteMessage(wire: seq<Byte>, body: seq<Byte>) returns (r: seq<Byte>)
    ensures r == wire + Frame(body)
  {
    r := wire + (NAME + [COLON, 32] + Decimal(|body|) + [CR, LF] + [CR, LF]);
    r := r + body;
  }

  method WriteAll(bodies: seq<seq<Byte>>) returns (wire: seq<Byte>)
    ensures wire == Stream(bodies)
  {
    hide Frame;
    wire := [];
    assert bodies[0..] == bodies;
    for i := 0 to |bodies|
      invariant wire + Stream(bodies[i..]) == Stream(bodies)
    {
      assert bodies[i..][1..] == bodies[i + 1..];
      wire := WriteMessage(wire, bodies[i]);
    }
  }

  /** Read messages until the stream ends or breaks. */
  method ReadAll(wire: seq<Byte>, json: seq<Byte> -> bool) returns (r: Received)
    ensures r == ReadFrom(json, wire, 0)
  {
    hide ReadAt, ReadFrom;
    var reader := new Reader(wire, json);
    var bodies := [];
    var last := reader.ReadMessage();
    ghost var at := 0;
    while last.Message?
      invariant fresh(reader) && reader.Valid() && reader.input == wire && reader.json == json && 0 <= at <= |wire|
      invariant last == ReadAt(json, wire, at) && (last.Message? ==> reader.pos == last.next)
      invariant ReadFrom(json, wire, 0).bodies == bodies + ReadFrom(json, wire, at).bodies
      invariant ReadFrom(json, wire, 0).last == ReadFrom(json, wire, at).last
      decreases |wire| - at
    {
      OneMore(json, wire, at, bodies);
      at := last.next;
      bodies := bodies + [last.body];
      last := reader.ReadMessage();
    }
    NothingMore(json, wire, at);
    r := Received(bodies, last);
  }

  lemma OneMore(json: seq<Byte> -> bool, wire: seq<Byte>, at: nat, bodies: seq<seq<Byte>>)
    requires at <= |wire| && ReadAt(json, wire, at).Message?
    ensures var r := ReadAt(json, wire, at);
            && ReadFrom(json, wire, at).last == ReadFrom(json, wire, r.next).last
            && bodies + ReadFrom(json, wire, at).bodies == bodies + [r.body] + ReadFrom(json, wire, r.next).bodies
  {
    hide ReadAt;
  }

  lemma NothingMore(json: seq<Byte> -> bool, wire: seq<Byte>, at: nat)
    requires at <= |wire| && !ReadAt(json, wire, at).Message?
    ensures ReadFrom(json, wire, at) == Received([], ReadAt(json, wire, at))
  {
    hide ReadAt;
  }

  /** Write the messages, then read until the stream ends: exactly the same messages. */
  method Exchange(bodies: seq<seq<Byte>>, json: seq<Byte> -> bool) returns (r: Received)
    requires forall b :: b in bodies ==> |b| <= MAX_MESSAGE_BYTES && json(b)
    ensures r == Received(bodies, EndOfStream)
  {
    hide Stream, ReadFrom;
    var wire := WriteAll(bodies);
    assert wire[0..] == wire;
    StreamRoundTrip(json, wire, 0, bodies);
    r := ReadAll(wire, json);
  }

  // ---- the round trip ------------------------------------------------------------------------------------------

  lemma {:induction false} LineEndAt(input: seq<Byte>, pos: nat, k: nat)
    requires pos <= k < |input| && input[k] == LF && forall i :: pos <= i < k ==> input[i] != LF
    ensures LineEnd(input, pos) == k + 1
    decreases k - pos
  {
    if pos < k { LineEndAt(input, pos + 1, k); }
  }

  lemma ChompOne(s: seq<Byte>, b: Byte)
    requires IsNewline(b)
    ensures Chomp(s + [b]) == Chomp(s)
  {
    var line := s + [b];
    assert line[|line| - 1] == b && line[..|line| - 1] == s;
  }

  lemma ChompCrlf(s: seq<Byte>)
    requires s == [] || !IsNewline(s[|s| - 1])
    ensures Chomp(s + [CR, LF]) == s
  {
    assert Chomp(s) == s;
    hide Chomp;
    ChompOne(s, CR);
    ChompOne(s + [CR], LF);
    assert s + [CR, LF] == s + [CR] + [LF];
  }

  // The header line a writer emits.
  function LengthLine(n: nat): seq<Byte> { NAME + [COLON, 32] + Decimal(n) }

  lemma NameColon(n: nat)
    ensures Colon(LengthLine(n)) == Some(14)
    ensures LengthLine(n)[..14] == NAME && LengthLine(n)[15..] == [32] + Decimal(n)
  {
    var d := [COLON, 32] + Decimal(n);
    assert LengthLine(n) == NAME + d;
    ColonAfter(NAME, d);
    assert Colon(d) == Some(0);
  }

  lemma {:induction false} ColonAfter(s: seq<Byte>, t: seq<Byte>)
    requires COLON !in s && Colon(t) == Some(0)
    ensures Colon(s + t) == Some(|s|)
    decreases |s|
  {
    if s == [] {
      assert s + t == t;
    } else {
      ColonAfter(s[1..], t);
      assert (s + t)[1..] == s[1..] + t;
    }
  }

  /** The emitted header line parses to the length, whatever was seen before it. */
  lemma LengthLineRead(n: nat, before: Option<nat>)
    requires n < U64
    ensures HeaderLine(before, LengthLine(n)) == Some(n)
  {
    hide Decimal, ParseUsize, Colon, Trim;
    NameColon(n);
    SpaceFree(NAME);
    assert SameIgnoringCase(NAME, KEY);
    var d := Decimal(n);
    assert IsDigit(d[0]) && IsDigit(d[|d| - 1]);
    LeadingSpace(d);
    DecimalRoundTrip(n);
  }

  lemma SpaceFree(s: seq<Byte>)
    requires s != [] && !IsSpace(s[0]) && !IsSpace(s[|s| - 1]) && s[0] < 0x80 && s[|s| - 1] < 0x80
    ensures Trim(s) == s
  {
    hide WideSpace;
    if |s| >= 2 { WideHigh(s[..2]); WideHigh(s[|s| - 2..]); }
    if |s| >= 3 { WideHigh(s[..3]); WideHigh(s[|s| - 3..]); }
    assert FrontSpace(s) == 0 && BackSpace(s) == 0;
  }

  predicate AllSpace(s: seq<Byte>) {
    forall i :: 0 <= i < |s| ==> IsSpace(s[i])
  }

  lemma {:induction false} TrimFront(a: seq<Byte>, s: seq<Byte>)
    requires AllSpace(a) && s != [] && 32 < s[0] < 0x7F
    ensures TrimStart(a + s) == s
    decreases |a|
  {
    hide WideSpace;
    if a == [] {
      assert a + s == s;
      if |s| >= 2 { WideHigh(s[..2]); }
      if |s| >= 3 { WideHigh(s[..3]); }
    } else {
      assert (a + s)[0] == a[0] && (a + s)[1..] == a[1..] + s;
      TrimFront(a[1..], s);
    }
  }

  lemma {:induction false} TrimBack(s: seq<Byte>, b: seq<Byte>)
    requires AllSpace(b) && s != [] && 32 < s[|s| - 1] < 0x7F
    ensures TrimEnd(s + b) == s
    decreases |b|
  {
    hide WideSpace;
    if b == [] {
      assert s + b == s;
      if |s| >= 2 { WideHigh(s[|s| - 2..]); }
      if |s| >= 3 { WideHigh(s[|s| - 3..]); }
    } else {
      var t, n := s + b, |b| - 1;
      assert t[|t| - 1] == b[n] && t[..|t| - 1] == s + b[..n];
      TrimBack(s, b[..n]);
    }
  }

  /** White space around a field is trimmed on both sides. */
  lemma TrimPadded(a: seq<Byte>, s: seq<Byte>, b: seq<Byte>)
    requires AllSpace(a) && AllSpace(b) && s != [] && 32 < s[0] < 0x7F && 32 < s[|s| - 1] < 0x7F
    ensures Trim(a + s + b) == s
  {
    hide TrimStart, TrimEnd;
    assert a + s + b == a + (s + b) && (s + b)[0] == s[0];
    TrimFront(a, s + b);
    TrimBack(s, b);
  }

  /** Every form of the length header: the name in any case, white space around name and value, and any numeral
      that fits. It sets the length, whatever was seen before. */
  lemma LengthForms(before: Option<nat>, name: seq<Byte>, value: seq<Byte>, n: nat, a: seq<Byte>, b: seq<Byte>, c: seq<Byte>, d: seq<Byte>)
    requires SameIgnoringCase(name, NAME) && Numeral(value, n) && n < U64
    requires AllSpace(a) && AllSpace(b) && AllSpace(c) && AllSpace(d)
    ensures HeaderLine(before, a + name + b + ([COLON] + (c + value + d))) == Some(n)
  {
    hide HeaderLine, Numeral, SameIgnoringCase, AllSpace, ParseUsize, Trim;
    NameBytes(name);
    NumeralEnds(value, n);
    NoColon(a, name, b);
    TrimPadded(a, name, b);
    TrimPadded(c, value, d);
    ParseUsizeMeans(value, n);
    LengthIs(before, a + name + b, c + value + d, n);
  }

  lemma NoColon(a: seq<Byte>, name: seq<Byte>, b: seq<Byte>)
    requires AllSpace(a) && AllSpace(b) && forall i :: 0 <= i < |name| ==> name[i] != COLON
    ensures COLON !in a + name + b
  {
    assert COLON !in a && COLON !in name && COLON !in b;
  }

  lemma LengthIs(before: Option<nat>, left: seq<Byte>, right: seq<Byte>, n: nat)
    requires COLON !in left && SameIgnoringCase(Trim(left), KEY) && ParseUsize(Trim(right)) == Some(n)
    ensures HeaderLine(before, left + ([COLON] + right)) == Some(n)
  {
    hide Colon, Trim, ParseUsize, SameIgnoringCase;
    var line := left + ([COLON] + right);
    ColonFirst([COLON] + right);
    ColonAfter(left, [COLON] + right);
    assert line[..|left|] == left && line[|left| + 1..] == right;
  }

  lemma NameBytes(name: seq<Byte>)
    requires SameIgnoringCase(name, NAME)
    ensures |name| == 14 && SameIgnoringCase(name, KEY)
    ensures forall i :: 0 <= i < |name| ==> 32 < name[i] < 0x7F && name[i] != COLON
  {
    forall i | 0 <= i < 14
      ensures Lower(NAME[i]) == KEY[i] == Lower(KEY[i]) && (KEY[i] == 45 || 97 <= KEY[i] <= 122)
    {
    }
  }

  lemma NumeralEnds(value: seq<Byte>, n: nat)
    requires Numeral(value, n)
    ensures value != [] && 32 < value[0] < 0x7F && 32 < value[|value| - 1] < 0x7F
  {
    hide Decimal;
    var k: nat :| value == ZeroDigits(k) + Decimal(n) || value == [PLUS] + (ZeroDigits(k) + Decimal(n));
    var d := Decimal(n);
    assert IsDigit(d[0]) && IsDigit(d[|d| - 1]);
    assert value[|value| - 1] == d[|d| - 1];
    assert value[0] == PLUS || value[0] == ZERO || value[0] == d[0];
  }

  lemma WideHigh(c: seq<Byte>)
    ensures WideSpace(c) ==> |c| >= 2 && c[0] >= 0x80 && c[|c| - 1] >= 0x80
  {
  }

  lemma LeadingSpace(s: seq<Byte>)
    requires s != [] && !IsSpace(s[0]) && !IsSpace(s[|s| - 1]) && s[0] < 0x80 && s[|s| - 1] < 0x80
    ensures Trim([32] + s) == s
  {
    hide WideSpace;
    assert ([32] + s)[1..] == s;
    if |s| >= 2 { WideHigh(s[..2]); }
    if |s| >= 3 { WideHigh(s[..3]); }
    assert TrimStart([32] + s) == TrimStart(s) == s;
    SpaceFree(s);
  }

  // ---- other headers -------------------------------------------------------------------------------------

  /** A header field as a server sends it. */
  datatype Field = Field(name: seq<Byte>, value: seq<Byte>) {
    function Line(): (line: seq<Byte>)
      ensures line != []
    {
      name + [COLON] + value
    }

    /** A well-formed field that is not the length: a name of visible ASCII characters other than the colon,
        which is not "Content-Length" in any case, and a value of text on one line. */
    predicate Other() {
      && name != [] && (forall i :: 0 <= i < |name| ==> 32 < name[i] < 0x7F && name[i] != COLON)
      && !SameIgnoringCase(name, KEY)
      && (forall i :: 0 <= i < |value| ==> !IsNewline(value[i])) && Utf8(Line() + [CR, LF])
    }
  }

  predicate AllOther(fields: seq<Field>) {
    forall i :: 0 <= i < |fields| ==> fields[i].Other()
  }

  function Lines(fields: seq<Field>): seq<Byte> {
    if fields == [] then [] else fields[0].Line() + [CR, LF] + Lines(fields[1..])
  }

  lemma OtherLine(length: Option<nat>, f: Field)
    requires f.Other()
    ensures HeaderLine(length, f.Line()) == length
  {
    hide Colon, Trim, ParseUsize, SameIgnoringCase, Utf8;
    var t := [COLON] + f.value;
    assert f.Line() == f.name + t;
    assert Colon(t) == Some(0) by { ColonFirst(t); }
    ColonAfter(f.name, t);
    assert f.Line()[..|f.name|] == f.name;
    SpaceFree(f.name);
  }

  lemma ColonFirst(t: seq<Byte>)
    requires t != [] && t[0] == COLON
    ensures Colon(t) == Some(0)
  {
  }

  // Reading past other headers keeps the length seen so far.
  lemma {:induction false} OthersSkipped(input: seq<Byte>, pos: nat, fields: seq<Field>, length: Option<nat>)
    requires AllOther(fields) && pos + |Lines(fields)| <= |input| && input[pos..pos + |Lines(fields)|] == Lines(fields)
    ensures HeadersFrom(input, pos, length) == HeadersFrom(input, pos + |Lines(fields)|, length)
    decreases |fields|
  {
    hide Field.Line, HeaderLine, Chomp, LineEnd, Utf8;
    if fields != [] {
      var f, rest := fields[0], Lines(fields[1..]);
      var line := f.Line();
      var all, next := Lines(fields), pos + |line| + 2;
      assert fields[0].Other();
      OtherNewlines(f);
      OneLine(input, pos, line, rest);
      LineEndAfter(input, pos, line);
      ChompCrlf(line);
      OtherLine(length, f);
      OthersSkipped(input, next, fields[1..], length);
    }
  }

  lemma OtherNewlines(f: Field)
    requires f.Other()
    ensures forall i :: 0 <= i < |f.Line()| ==> !IsNewline(f.Line()[i])
    ensures f.Line() != [] && Utf8(f.Line() + [CR, LF])
  {
    hide Utf8, SameIgnoringCase;
  }

  lemma OneLine(input: seq<Byte>, pos: nat, line: seq<Byte>, rest: seq<Byte>)
    requires pos + |line| + 2 + |rest| <= |input| && input[pos..pos + |line| + 2 + |rest|] == line + [CR, LF] + rest
    ensures input[pos..pos + |line| + 2] == line + [CR, LF]
    ensures input[pos + |line| + 2..pos + |line| + 2 + |rest|] == rest
  {
    var all := line + [CR, LF] + rest;
    SliceOfSlice(input, pos, |all|, 0, |line| + 2);
    SliceOfSlice(input, pos, |all|, |line| + 2, |rest|);
    assert all[0..|line| + 2] == line + [CR, LF] && all[|line| + 2..|line| + 2 + |rest|] == rest;
  }

  /** A message with other headers before and after its length. */
  function WithHeaders(before: seq<Field>, after: seq<Field>, body: seq<Byte>): seq<Byte> {
    Lines(before) + (LengthLine(|body|) + [CR, LF] + (Lines(after) + ([CR, LF] + body)))
  }

  /** It reads back as its body, whatever the other headers are. */
  lemma OtherHeadersIgnored(json: seq<Byte> -> bool, input: seq<Byte>, pos: nat, before: seq<Field>, after: seq<Field>, body: seq<Byte>)
    requires AllOther(before) && AllOther(after) && |body| <= MAX_MESSAGE_BYTES && json(body)
    requires pos + |WithHeaders(before, after, body)| <= |input|
    requires input[pos..pos + |WithHeaders(before, after, body)|] == WithHeaders(before, after, body)
    ensures ReadAt(json, input, pos) == Message(body, pos + |WithHeaders(before, after, body)|)
  {
    hide Lines, LengthLine, AllOther, HeadersFrom, WithHeaders;
    var n := |body|;
    var p1 := pos + |Lines(before)|;
    var p2 := p1 + |LengthLine(n)| + 2;
    SentParts(input, pos, before, after, body);
    OthersSkipped(input, pos, before, None);
    LengthSeen(input, p1, n);
    OthersSkipped(input, p2, after, Some(n));
    BlankSeen(input, p2 + |Lines(after)|, Some(n));
  }

  lemma SentParts(input: seq<Byte>, pos: nat, before: seq<Field>, after: seq<Field>, body: seq<Byte>)
    requires pos + |WithHeaders(before, after, body)| <= |input|
    requires input[pos..pos + |WithHeaders(before, after, body)|] == WithHeaders(before, after, body)
    ensures var p1 := pos + |Lines(before)|;
            var p2 := p1 + |LengthLine(|body|)| + 2;
            var p3 := p2 + |Lines(after)|;
            && |WithHeaders(before, after, body)| == p3 + 2 + |body| - pos
            && input[pos..p1] == Lines(before) && input[p1..p2] == LengthLine(|body|) + [CR, LF]
            && input[p2..p3] == Lines(after) && input[p3..p3 + 2] == [CR, LF] && input[p3 + 2..p3 + 2 + |body|] == body
  {
    hide Lines, LengthLine;
    HeadParts(input, pos, Lines(before), LengthLine(|body|), Lines(after) + ([CR, LF] + body));
    TailParts(input, pos + |Lines(before)| + |LengthLine(|body|)| + 2, Lines(after), body);
  }

  lemma HeadParts(input: seq<Byte>, pos: nat, a: seq<Byte>, line: seq<Byte>, rest: seq<Byte>)
    requires pos + |a + (line + [CR, LF] + rest)| <= |input| && input[pos..pos + |a + (line + [CR, LF] + rest)|] == a + (line + [CR, LF] + rest)
    ensures var p1 := pos + |a|;
            var p2 := p1 + |line| + 2;
            input[pos..p1] == a && input[p1..p2] == line + [CR, LF] && input[p2..p2 + |rest|] == rest
  {
    TwoParts(input, pos, a, line + [CR, LF] + rest);
    OneLine(input, pos + |a|, line, rest);
  }

  lemma TailParts(input: seq<Byte>, pos: nat, c: seq<Byte>, body: seq<Byte>)
    requires pos + |c + ([CR, LF] + body)| <= |input| && input[pos..pos + |c + ([CR, LF] + body)|] == c + ([CR, LF] + body)
    ensures var p := pos + |c|;
            input[pos..p] == c && input[p..p + 2] == [CR, LF] && input[p + 2..p + 2 + |body|] == body
  {
    TwoParts(input, pos, c, [CR, LF] + body);
    TwoParts(input, pos + |c|, [CR, LF], body);
  }

  lemma LengthSeen(input: seq<Byte>, pos: nat, n: nat)
    requires n < U64 && pos + |LengthLine(n)| + 2 <= |input| && input[pos..pos + |LengthLine(n)| + 2] == LengthLine(n) + [CR, LF]
    ensures HeadersFrom(input, pos, None) == HeadersFrom(input, pos + |LengthLine(n)| + 2, Some(n))
  {
    NotEmptyLine(n);
    hide Decimal, HeaderLine, Chomp, LineEnd, LengthLine, Utf8;
    NoNewline(n);
    LineEndAfter(input, pos, LengthLine(n));
    ChompCrlf(LengthLine(n));
    AsciiIsText(LengthLine(n) + [CR, LF]);
    LengthLineRead(n, None);
  }

  lemma NotEmptyLine(n: nat)
    ensures LengthLine(n) != []
  {
  }

  lemma BlankSeen(input: seq<Byte>, pos: nat, length: Option<nat>)
    requires pos + 2 <= |input| && input[pos..pos + 2] == [CR, LF]
    ensures HeadersFrom(input, pos, length) == Done(length, pos + 2)
  {
    hide Chomp, LineEnd, Utf8;
    assert [] + [CR, LF] == [CR, LF];
    LineEndAfter(input, pos, []);
    ChompCrlf([]);
    AsciiIsText([] + [CR, LF]);
  }

  lemma TwoParts(input: seq<Byte>, pos: nat, a: seq<Byte>, b: seq<Byte>)
    requires pos + |a + b| <= |input| && input[pos..pos + |a + b|] == a + b
    ensures input[pos..pos + |a|] == a && input[pos + |a|..pos + |a| + |b|] == b
  {
    SliceOfSlice(input, pos, |a + b|, 0, |a|);
    SliceOfSlice(input, pos, |a + b|, |a|, |b|);
    assert (a + b)[0..|a|] == a && (a + b)[|a|..|a| + |b|] == b;
  }

  // ---- one frame -----------------------------------------------------------------------------------------

  /** One frame, with anything after it. */
  lemma FrameRead(json: seq<Byte> -> bool, input: seq<Byte>, pos: nat, body: seq<Byte>)
    requires |body| <= MAX_MESSAGE_BYTES && json(body) && pos + |Frame(body)| <= |input|
    requires input[pos..pos + |Frame(body)|] == Frame(body)
    ensures ReadAt(json, input, pos) == Message(body, pos + |Frame(body)|)
  {
    hide Decimal, ReadAt;
    assert Frame(body) == WithHeaders([], [], body);
    OtherHeadersIgnored(json, input, pos, [], [], body);
  }

  lemma LineEndAfter(input: seq<Byte>, pos: nat, line: seq<Byte>)
    requires pos + |line| + 2 <= |input| && input[pos..pos + |line| + 2] == line + [CR, LF]
    requires forall i :: 0 <= i < |line| ==> !IsNewline(line[i])
    ensures LineEnd(input, pos) == pos + |line| + 2
  {
    hide LineEnd;
    var piece := input[pos..pos + |line| + 2];
    forall i | pos <= i < pos + |line| + 1
      ensures input[i] != LF
    {
      assert input[i] == piece[i - pos];
    }
    assert input[pos + |line| + 1] == piece[|line| + 1];
    LineEndAt(input, pos, pos + |line| + 1);
  }

  lemma NoNewline(n: nat)
    ensures forall i :: 0 <= i < |LengthLine(n)| ==> !IsNewline(LengthLine(n)[i]) && LengthLine(n)[i] < 0x80
  {
    hide Decimal;
    var line, d := LengthLine(n), Decimal(n);
    forall i | 0 <= i < |line|
      ensures !IsNewline(line[i]) && line[i] < 0x80
    {
      if i >= 16 { assert line[i] == d[i - 16] && IsDigit(d[i - 16]); }
    }
  }

  /** Any list of messages within the cap, written one after another, reads back as exactly that
      list and then the end of the stream. */
  lemma {:induction false} StreamRoundTrip(json: seq<Byte> -> bool, input: seq<Byte>, pos: nat, bodies: seq<seq<Byte>>)
    requires pos <= |input| && input[pos..] == Stream(bodies)
    requires forall b :: b in bodies ==> |b| <= MAX_MESSAGE_BYTES && json(b)
    ensures ReadFrom(json, input, pos) == Received(bodies, EndOfStream)
    decreases |bodies|
  {
    hide Frame, ReadAt;
    if bodies == [] {
      AtEnd(json, input);
    } else {
      var f, rest := Frame(bodies[0]), Stream(bodies[1..]);
      FrontSlice(input, pos, f, rest);
      FrameRead(json, input, pos, bodies[0]);
      StreamRoundTrip(json, input, pos + |f|, bodies[1..]);
      assert bodies == [bodies[0]] + bodies[1..];
    }
  }

  lemma FrontSlice(input: seq<Byte>, pos: nat, f: seq<Byte>, rest: seq<Byte>)
    requires pos <= |input| && input[pos..] == f + rest
    ensures pos + |f| <= |input| && input[pos..pos + |f|] == f && input[pos + |f|..] == rest
  {
    assert input[pos..pos + |f|] == (f + rest)[..|f|];
    assert input[pos + |f|..] == (f + rest)[|f|..];
  }

  lemma AtEnd(json: seq<Byte> -> bool, input: seq<Byte>)
    ensures ReadAt(json, input, |input|) == EndOfStream
  {
  }

  // ---- when the stream counts as ended ---------------------------------------------------------------------------

  predicate StartsLine(input: seq<Byte>, pos: nat, k: nat)
    requires pos <= k <= |input|
  {
    k == pos || input[k - 1] == LF
  }

  predicate BlankAt(input: seq<Byte>, k: nat)
    requires k <= |input|
  {
    forall i :: k <= i < LineEnd(input, k) ==> IsNewline(input[i])
  }

  /** Some line from `pos` on holds nothing but its terminator. */
  predicate HasBlankLine(input: seq<Byte>, pos: nat)
    requires pos <= |input|
  {
    exists k :: pos <= k < |input| && StartsLine(input, pos, k) && BlankAt(input, k)
  }

  lemma {:induction false} LineEndsAtFeed(input: seq<Byte>, pos: nat)
    requires pos <= |input|
    ensures forall i :: pos <= i < LineEnd(input, pos) - 1 ==> input[i] != LF
    ensures LineEnd(input, pos) < |input| ==> pos < LineEnd(input, pos) && input[LineEnd(input, pos) - 1] == LF
    decreases |input| - pos
  {
    if pos < |input| && input[pos] != LF { LineEndsAtFeed(input, pos + 1); }
  }

  lemma {:induction false} ChompEmpty(s: seq<Byte>)
    ensures Chomp(s) == [] <==> forall i :: 0 <= i < |s| ==> IsNewline(s[i])
  {
    if s != [] && IsNewline(s[|s| - 1]) { ChompEmpty(s[..|s| - 1]); }
  }

  lemma LineIsBlank(input: seq<Byte>, pos: nat)
    requires pos <= |input|
    ensures Chomp(input[pos..LineEnd(input, pos)]) == [] <==> BlankAt(input, pos)
  {
    hide LineEnd, Chomp;
    var line := input[pos..LineEnd(input, pos)];
    ChompEmpty(line);
    if forall i :: 0 <= i < |line| ==> IsNewline(line[i]) {
      forall i | pos <= i < LineEnd(input, pos)
        ensures IsNewline(input[i])
      {
        assert input[i] == line[i - pos];
      }
    }
  }

  /** Every line from `pos` on is UTF-8. */
  predicate TextLines(input: seq<Byte>, pos: nat)
    requires pos <= |input|
    decreases |input| - pos
  {
    pos == |input| || (Utf8(input[pos..LineEnd(input, pos)]) && TextLines(input, LineEnd(input, pos)))
  }

  /** A read reports the end of the stream exactly when what follows is text without a blank line. Headers
      cut off before their blank line are reported the same way as a stream that ends between messages. */
  lemma EndsWithoutBlankLine(json: seq<Byte> -> bool, input: seq<Byte>, pos: nat)
    requires pos <= |input|
    ensures ReadAt(json, input, pos) == EndOfStream <==> !HasBlankLine(input, pos) && TextLines(input, pos)
  {
    NoMoreHeaders(input, pos, None);
  }

  lemma {:induction false} NoMoreHeaders(input: seq<Byte>, pos: nat, length: Option<nat>)
    requires pos <= |input|
    ensures HeadersFrom(input, pos, length) == NoMore <==> !HasBlankLine(input, pos) && TextLines(input, pos)
    decreases |input| - pos
  {
    hide LineEnd, Chomp, HeaderLine, Utf8;
    if pos < |input| {
      var next := LineEnd(input, pos);
      LineIsBlank(input, pos);
      if BlankAt(input, pos) {
        assert StartsLine(input, pos, pos);
      } else {
        NoMoreHeaders(input, next, HeaderLine(length, Chomp(input[pos..next])));
        SkipLine(input, pos);
      }
    }
  }

  lemma SkipLine(input: seq<Byte>, pos: nat)
    requires pos < |input| && !BlankAt(input, pos)
    ensures HasBlankLine(input, pos) <==> HasBlankLine(input, LineEnd(input, pos))
  {
    hide LineEnd, BlankAt;
    LineEndsAtFeed(input, pos);
    var next := LineEnd(input, pos);
    if HasBlankLine(input, next) {
      var k :| next <= k < |input| && StartsLine(input, next, k) && BlankAt(input, k);
      assert StartsLine(input, pos, k);
    }
    if HasBlankLine(input, pos) {
      var k :| pos <= k < |input| && StartsLine(input, pos, k) && BlankAt(input, k);
      assert next <= k && StartsLine(input, next, k);
    }
  }

  /** A header without its blank line: data was there, yet the end of the stream is reported. */
  lemma CutHeaderExample(json: seq<Byte> -> bool)
    ensures ReadAt(json, NAME, 0) == EndOfStream && 0 < |NAME|
  {
    hide Chomp, Utf8, HasBlankLine, LineEnd;
    NoNewlinesNoBlank(NAME, 0);
    assert LineEnd(NAME, 0) == |NAME| by { NoFeed(NAME, 0); }
    assert NAME[0..|NAME|] == NAME;
    AsciiIsText(NAME);
    EndsWithoutBlankLine(json, NAME, 0);
  }

  lemma NoNewlinesNoBlank(input: seq<Byte>, pos: nat)
    requires pos <= |input| && forall i :: pos <= i < |input| ==> !IsNewline(input[i])
    ensures !HasBlankLine(input, pos)
  {
    hide LineEnd;
    forall k | pos <= k < |input|
      ensures !BlankAt(input, k)
    {
      assert k < LineEnd(input, k) && !IsNewline(input[k]);
    }
  }

  lemma {:induction false} NoFeed(input: seq<Byte>, pos: nat)
    requires pos <= |input| && forall i :: pos <= i < |input| ==> input[i] != LF
    ensures LineEnd(input, pos) == |input|
    decreases |input| - pos
  {
    if pos < |input| { NoFeed(input, pos + 1); }
  }
}
