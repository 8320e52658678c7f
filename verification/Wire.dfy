/** NBD transmission-phase framing (protocol.rs): big-endian request headers and simple replies,
    as in the "Transmission" section of the NBD protocol document. */
module Wire {
  import opened Bytes

  const REQUEST_MAGIC: nat := 0x2560_9513
  const SIMPLE_REPLY_MAGIC: nat := 0x6744_6698

  const CMD_READ: nat := 0
  const CMD_WRITE: nat := 1
  const CMD_DISC: nat := 2
  const CMD_FLUSH: nat := 3
  const CMD_TRIM: nat := 4
  const CMD_WRITE_ZEROES: nat := 6

  const EPERM: nat := 1
  const EIO: nat := 5
  const EINVAL: nat := 22

  const HEADER: nat := 28

  datatype Request = Request(flags: nat, cmd: nat, handle: nat, offset: nat, length: nat) {
    predicate Valid() {
      flags < U16 && cmd < U16 && handle < U64 && offset < U64 && length < U32
    }
  }

  datatype Reply = Reply(error: nat, handle: nat, data: seq<Byte>)

  function EncodeRequest(r: Request): (s: seq<Byte>)
    ensures |s| == HEADER
  {
    BE(4, REQUEST_MAGIC) + BE(2, r.flags) + BE(2, r.cmd) + BE(8, r.handle) + BE(8, r.offset) + BE(4, r.length)
  }

  function EncodeReply(r: Reply): (s: seq<Byte>)
    ensures |s| == 16 + |r.data|
  {
    BE(4, SIMPLE_REPLY_MAGIC) + BE(4, r.error) + BE(8, r.handle) + r.data
  }

  datatype Header = Eof | BadMagic | Got(req: Request)

  /** What reading a request header off a stream yields. The magic is checked before the rest is read. */
  function DecodeRequest(s: seq<Byte>): (h: Header)
    ensures h.Got? ==> |s| >= HEADER && h.req.Valid()
  {
    if |s| < 4 then Eof
    else if FromBE(s[0..4]) != REQUEST_MAGIC then BadMagic
    else if |s| < HEADER then Eof
    else
      FieldBounds(s);
      Got(Request(FromBE(s[4..6]), FromBE(s[6..8]), FromBE(s[8..16]), FromBE(s[16..24]), FromBE(s[24..28])))
  }

  lemma FieldBounds(s: seq<Byte>)
    requires |s| >= HEADER
    ensures FromBE(s[4..6]) < U16 && FromBE(s[6..8]) < U16 && FromBE(s[8..16]) < U64
    ensures FromBE(s[16..24]) < U64 && FromBE(s[24..28]) < U32
  {
    hide FromBE, Pow256;
    Widths();
    FromBEBound(s[4..6]);
    FromBEBound(s[6..8]);
    FromBEBound(s[8..16]);
    FromBEBound(s[16..24]);
    FromBEBound(s[24..28]);
  }

  lemma HeaderSlices(r: Request, rest: seq<Byte>, s: seq<Byte>)
    requires s == EncodeRequest(r) + rest
    ensures |s| >= HEADER && s[HEADER..] == rest
    ensures s[0..4] == BE(4, REQUEST_MAGIC) && s[4..6] == BE(2, r.flags) && s[6..8] == BE(2, r.cmd)
    ensures s[8..16] == BE(8, r.handle) && s[16..24] == BE(8, r.offset) && s[24..28] == BE(4, r.length)
  {
    hide BE;
    var h := EncodeRequest(r);
    assert s[0..4] == h[0..4] && s[4..6] == h[4..6] && s[6..8] == h[6..8];
    assert s[8..16] == h[8..16] && s[16..24] == h[16..24] && s[24..28] == h[24..28];
  }

  /** A request header written on the wire is read back, whatever follows it. */
  lemma RequestRoundTrip(r: Request, rest: seq<Byte>)
    requires r.Valid()
    ensures DecodeRequest(EncodeRequest(r) + rest) == Got(r)
  {
    hide BE, FromBE, EncodeRequest, Pow256;
    HeaderSlices(r, rest, EncodeRequest(r) + rest);
    Widths();
    BERoundTrip(4, REQUEST_MAGIC);
    BERoundTrip(2, r.flags);
    BERoundTrip(2, r.cmd);
    BERoundTrip(8, r.handle);
    BERoundTrip(8, r.offset);
    BERoundTrip(4, r.length);
  }

  // ---- what a client reads ----------------------------------------------------------------------

  function EncodeReplies(replies: seq<Reply>): seq<Byte> {
    if replies == [] then [] else EncodeReply(replies[0]) + EncodeReplies(replies[1..])
  }

  lemma RepliesCons(r: Reply, replies: seq<Reply>)
    ensures EncodeReplies([r] + replies) == EncodeReply(r) + EncodeReplies(replies)
  {
    assert ([r] + replies)[1..] == replies;
  }

  /** The fields of a reply at their offsets: magic, error, handle, then the data. */
  lemma ReplySlices(r: Reply, rest: seq<Byte>, s: seq<Byte>)
    requires s == EncodeReply(r) + rest
    ensures |s| >= 16 + |r.data| && s[0..4] == BE(4, SIMPLE_REPLY_MAGIC) && s[4..8] == BE(4, r.error)
    ensures s[8..16] == BE(8, r.handle) && s[16..16 + |r.data|] == r.data && s[16 + |r.data|..] == rest
  {
    hide BE;
    var h := EncodeReply(r);
    assert s[0..4] == h[0..4] && s[4..8] == h[4..8] && s[8..16] == h[8..16] && s[16..16 + |r.data|] == h[16..];
  }

  /** A reply to a request for `want` bytes of data: the data are there exactly if there was no error. */
  predicate Replies(r: Reply, want: nat) {
    r.error < U32 && r.handle < U64 && |r.data| == if r.error == 0 then want else 0
  }

  /** A client that asked for `wants[0]`, `wants[1]`, ... bytes of data reads its replies off the stream. It
      knows nothing but the protocol: a simple reply is magic, error and handle, followed by the data of a
      read that succeeded. */
  function ClientReads(s: seq<Byte>, wants: seq<nat>): (r: Option<(seq<Reply>, seq<Byte>)>)
    decreases |wants|
  {
    if wants == [] then Some(([], s))
    else if |s| < 16 || FromBE(s[0..4]) != SIMPLE_REPLY_MAGIC then None
    else
      var error, handle := FromBE(s[4..8]), FromBE(s[8..16]);
      var n := if error == 0 then wants[0] else 0;
      if |s| < 16 + n then None else
      var more := ClientReads(s[16 + n..], wants[1..]);
      if more.None? then None
      else Some(([Reply(error, handle, s[16..16 + n])] + more.value.0, more.value.1))
  }

  /** Whatever replies the server writes, a client reads exactly those, and then what follows them. */
  lemma {:induction false} RepliesRoundTrip(replies: seq<Reply>, wants: seq<nat>, rest: seq<Byte>)
    requires |replies| == |wants| && forall i :: 0 <= i < |replies| ==> Replies(replies[i], wants[i])
    ensures ClientReads(EncodeReplies(replies) + rest, wants) == Some((replies, rest))
    decreases |replies|
  {
    hide BE, FromBE, EncodeReply, Pow256;
    if replies == [] {
      assert EncodeReplies(replies) + rest == rest;
    } else {
      var r, tail := replies[0], EncodeReplies(replies[1..]) + rest;
      var s := EncodeReplies(replies) + rest;
      assert s == EncodeReply(r) + tail;
      assert Replies(r, wants[0]);
      ReplySlices(r, tail, s);
      Widths();
      BERoundTrip(4, SIMPLE_REPLY_MAGIC);
      BERoundTrip(4, r.error);
      BERoundTrip(8, r.handle);
      RepliesRoundTrip(replies[1..], wants[1..], rest);
      assert [r] + replies[1..] == replies;
    }
  }
}
