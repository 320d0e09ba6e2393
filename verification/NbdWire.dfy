/**
 The NBD wire format: big-endian fields, requests, simple replies and option
 replies, with the decoders that undo them.
 */
module NbdWire {
  import opened Basics

  // ---- Big-endian numbers ----

  function Power256(w: nat): nat {
    if w == 0 then 1 else 256 * Power256(w - 1)
  }

  function BE(n: nat, w: nat): (r: seq<byte>)
    ensures |r| == w
  {
    if w == 0 then [] else BE(n / 256, w - 1) + [(n % 256) as byte]
  }

  function FromBE(bs: seq<byte>): nat {
    if bs == [] then 0 else FromBE(bs[..|bs| - 1]) * 256 + bs[|bs| - 1] as nat
  }

  lemma {:induction false} FieldRoundTrip(n: nat, w: nat)
    requires n < Power256(w)
    ensures FromBE(BE(n, w)) == n
  {
    if w > 0 {
      FieldRoundTrip(n / 256, w - 1);
      assert BE(n, w)[..w - 1] == BE(n / 256, w - 1);
    }
  }

  lemma {:induction false} FieldBytes(bs: seq<byte>)
    ensures FromBE(bs) < Power256(|bs|) && BE(FromBE(bs), |bs|) == bs
  {
    if bs != [] {
      var front, last := bs[..|bs| - 1], bs[|bs| - 1];
      FieldBytes(front);
      assert FromBE(bs) / 256 == FromBE(front) && FromBE(bs) % 256 == last as nat;
      assert bs == front + [last];
    }
  }

  lemma Powers()
    ensures Power256(2) == 0x1_0000 && Power256(4) == 0x1_0000_0000 && Power256(8) == 0x1_0000_0000_0000_0000
  {
    assert Power256(2) == 256 * Power256(1);
    assert Power256(4) == 256 * Power256(3) && Power256(3) == 256 * Power256(2);
    assert Power256(8) == 256 * Power256(7) && Power256(7) == 256 * Power256(6)
        && Power256(6) == 256 * Power256(5) && Power256(5) == 256 * Power256(4);
  }

  // ---- Requests ----

  const REQ_MAGIC: nat := 0x2560_9513
  const REPLY_MAGIC: nat := 0x6744_6698

  const CMD_READ: nat := 0
  const CMD_WRITE: nat := 1
  const CMD_DISC: nat := 2
  const CMD_FLUSH: nat := 3

  // A request with its payload, which only a write has.
  datatype Request = Request(flags: nat, typ: nat, handle: nat, offset: nat, length: nat, payload: seq<byte>)

  ghost predicate WellFormed(q: Request) {
    && q.flags < 0x1_0000 && q.typ < 0x1_0000 && q.handle < 0x1_0000_0000_0000_0000
    && q.offset < 0x1_0000_0000_0000_0000 && q.length < 0x1_0000_0000
    && |q.payload| == if q.typ == CMD_WRITE then q.length else 0
  }

  function EncodeHeader(q: Request): (r: seq<byte>)
    ensures |r| == 28
  {
    BE(REQ_MAGIC, 4) + BE(q.flags, 2) + BE(q.typ, 2) + BE(q.handle, 8) + BE(q.offset, 8) + BE(q.length, 4)
  }

  function EncodeRequest(q: Request): seq<byte> {
    EncodeHeader(q) + q.payload
  }

  function EncodeRequests(qs: seq<Request>): seq<byte> {
    if qs == [] then [] else EncodeRequest(qs[0]) + EncodeRequests(qs[1..])
  }

  // The fields of a 28-byte header, if it carries the magic.
  function DecodeHeader(h: seq<byte>): Option<Request>
    requires |h| == 28
  {
    if FromBE(h[..4]) != REQ_MAGIC then None
    else Some(Request(FromBE(h[4..6]), FromBE(h[6..8]), FromBE(h[8..16]), FromBE(h[16..24]), FromBE(h[24..28]), []))
  }

  function PayloadLength(q: Request): nat {
    if q.typ == CMD_WRITE then q.length else 0
  }

  // The first request of a stream, if it is all there.
  function ParseRequest(s: seq<byte>): (r: Option<Request>)
    ensures r.Some? ==> 28 + PayloadLength(r.value) <= |s| && |r.value.payload| == PayloadLength(r.value)
  {
    if |s| < 28 then None
    else match DecodeHeader(s[..28])
      case None => None
      case Some(q) =>
        if |s| < 28 + PayloadLength(q) then None
        else Some(q.(payload := s[28..28 + PayloadLength(q)]))
  }

  lemma HeaderRoundTrip(q: Request)
    requires WellFormed(q)
    ensures DecodeHeader(EncodeHeader(q)) == Some(q.(payload := []))
  {
    Powers();
    Parts6(BE(REQ_MAGIC, 4), BE(q.flags, 2), BE(q.typ, 2), BE(q.handle, 8), BE(q.offset, 8), BE(q.length, 4));
    assert EncodeHeader(q)[24..] == EncodeHeader(q)[24..28];
    FieldRoundTrip(REQ_MAGIC, 4);
    FieldRoundTrip(q.flags, 2);
    FieldRoundTrip(q.typ, 2);
    FieldRoundTrip(q.handle, 8);
    FieldRoundTrip(q.offset, 8);
    FieldRoundTrip(q.length, 4);
  }

  // A header with the magic is the encoding of its fields.
  lemma HeaderBytes(h: seq<byte>)
    requires |h| == 28 && DecodeHeader(h).Some?
    ensures EncodeHeader(DecodeHeader(h).value) == h
    ensures DecodeHeader(h).value.length < 0x1_0000_0000
  {
    Powers();
    FieldBytes(h[..4]);
    FieldBytes(h[4..6]);
    FieldBytes(h[6..8]);
    FieldBytes(h[8..16]);
    FieldBytes(h[16..24]);
    FieldBytes(h[24..28]);
    assert h == h[..4] + h[4..6] + h[6..8] + h[8..16] + h[16..24] + h[24..28];
  }

  /** Parsing undoes encoding, whatever follows on the stream. */
  lemma RequestRoundTrip(q: Request, rest: seq<byte>)
    requires WellFormed(q)
    ensures ParseRequest(EncodeRequest(q) + rest) == Some(q)
  {
    Parts3(EncodeHeader(q), q.payload, rest);
    HeaderRoundTrip(q);
  }

  /** What is parsed off a stream is exactly what stands at its front. */
  lemma RequestBytes(s: seq<byte>)
    requires ParseRequest(s).Some?
    ensures EncodeRequest(ParseRequest(s).value) <= s
    ensures |EncodeRequest(ParseRequest(s).value)| == 28 + PayloadLength(ParseRequest(s).value)
  {
    HeaderBytes(s[..28]);
    var q := ParseRequest(s).value;
    assert EncodeHeader(q) == s[..28];
    assert EncodeRequest(q) == s[..28 + PayloadLength(q)];
  }

  // The requests a stream holds, up to a disconnect, a broken request or the end.
  function RequestsIn(s: seq<byte>): seq<Request>
    decreases |s|
  {
    match ParseRequest(s)
    case None => []
    case Some(q) =>
      if q.typ == CMD_DISC then [] else [q] + RequestsIn(s[28 + PayloadLength(q)..])
  }

  lemma RequestsCons(q: Request, tail: seq<byte>)
    requires WellFormed(q) && q.typ != CMD_DISC
    ensures RequestsIn(EncodeRequest(q) + tail) == [q] + RequestsIn(tail)
  {
    RequestRoundTrip(q, tail);
    Parts3(EncodeHeader(q), q.payload, tail);
  }

  /** Requests sent in order are the requests found, followed by those of the rest of the stream. */
  lemma {:induction false} RequestsRoundTrip(qs: seq<Request>, rest: seq<byte>)
    requires forall i :: 0 <= i < |qs| ==> WellFormed(qs[i]) && qs[i].typ != CMD_DISC
    ensures RequestsIn(EncodeRequests(qs) + rest) == qs + RequestsIn(rest)
    decreases |qs|
  {
    if qs == [] {
      NilLeft(rest);
      NilLeft(RequestsIn(rest));
    } else {
      RequestsRoundTrip(qs[1..], rest);
      RequestsCons(qs[0], EncodeRequests(qs[1..]) + rest);
      Assoc(EncodeRequest(qs[0]), EncodeRequests(qs[1..]), rest);
      Assoc([qs[0]], qs[1..], RequestsIn(rest));
      HeadTail(qs);
    }
  }

  // Whether the requests of a stream end in a disconnect, and not in bytes that make no sense.
  function Disconnects(s: seq<byte>): bool
    decreases |s|
  {
    match ParseRequest(s)
    case None => false
    case Some(q) => q.typ == CMD_DISC || Disconnects(s[28 + PayloadLength(q)..])
  }

  // A disconnect ends the stream.
  lemma DisconnectEnds(disc: Request, rest: seq<byte>)
    requires WellFormed(disc) && disc.typ == CMD_DISC
    ensures RequestsIn(EncodeRequest(disc) + rest) == [] && Disconnects(EncodeRequest(disc) + rest)
  {
    RequestRoundTrip(disc, rest);
  }

  /** A client that sends requests and then disconnects has sent exactly those, whatever comes after. */
  lemma {:induction false} RequestsThenDisconnect(qs: seq<Request>, disc: Request, rest: seq<byte>)
    requires forall i :: 0 <= i < |qs| ==> WellFormed(qs[i]) && qs[i].typ != CMD_DISC
    requires WellFormed(disc) && disc.typ == CMD_DISC
    ensures var s := EncodeRequests(qs) + (EncodeRequest(disc) + rest); RequestsIn(s) == qs && Disconnects(s)
  {
    var tail := EncodeRequest(disc) + rest;
    DisconnectEnds(disc, rest);
    RequestsRoundTrip(qs, tail);
    if qs == [] {
      NilLeft(tail);
    } else {
      RequestsThenDisconnect(qs[1..], disc, rest);
      Assoc(EncodeRequest(qs[0]), EncodeRequests(qs[1..]), tail);
      DisconnectsCons(qs[0], EncodeRequests(qs[1..]) + tail);
    }
  }

  lemma DisconnectsCons(q: Request, tail: seq<byte>)
    requires WellFormed(q) && q.typ != CMD_DISC
    ensures Disconnects(EncodeRequest(q) + tail) == Disconnects(tail)
  {
    RequestRoundTrip(q, tail);
    assert (EncodeRequest(q) + tail)[28 + PayloadLength(q)..] == tail;
  }

  // ---- Simple replies ----

  datatype Reply = Reply(error: nat, handle: nat, payload: seq<byte>)

  function EncodeReplyHeader(error: nat, handle: nat): (r: seq<byte>)
    ensures |r| == 16
  {
    BE(REPLY_MAGIC, 4) + BE(error, 4) + BE(handle, 8)
  }

  function EncodeReply(r: Reply): seq<byte> {
    EncodeReplyHeader(r.error, r.handle) + r.payload
  }

  function EncodeReplies(rs: seq<Reply>): seq<byte> {
    if rs == [] then [] else EncodeReply(rs[0]) + EncodeReplies(rs[1..])
  }

  lemma EncodeRepliesSnoc(rs: seq<Reply>, r: Reply)
    ensures EncodeReplies(rs + [r]) == EncodeReplies(rs) + EncodeReply(r)
  {
    if rs == [] {
      assert rs + [r] == [r];
    } else {
      assert (rs + [r])[1..] == rs[1..] + [r];
      EncodeRepliesSnoc(rs[1..], r);
      Assoc(EncodeReply(rs[0]), EncodeReplies(rs[1..]), EncodeReply(r));
    }
  }

  // What a client expects after the reply header to this request.
  function ExpectedPayload(q: Request, error: nat): nat {
    if q.typ == CMD_READ && error == 0 then q.length else 0
  }

  // A client that knows which requests it sent, reading one reply for each and keeping what is left over.
  function ClientDecode(qs: seq<Request>, s: seq<byte>): Option<(seq<Reply>, seq<byte>)> {
    if qs == [] then Some(([], s))
    else if |s| < 16 || FromBE(s[..4]) != REPLY_MAGIC || FromBE(s[8..16]) != qs[0].handle then None
    else
      var error := FromBE(s[4..8]);
      var n := ExpectedPayload(qs[0], error);
      if |s| < 16 + n then None
      else match ClientDecode(qs[1..], s[16 + n..])
        case None => None
        case Some((rs, rest)) => Some(([Reply(error, qs[0].handle, s[16..16 + n])] + rs, rest))
  }

  // The reply answers the request: same handle, and a payload exactly when the client expects one.
  ghost predicate Answers(q: Request, r: Reply) {
    && r.handle == q.handle < 0x1_0000_0000_0000_0000 && r.error < 0x1_0000_0000
    && |r.payload| == ExpectedPayload(q, r.error)
  }

  lemma PartsReply(a: seq<byte>, b: seq<byte>, c: seq<byte>, d: seq<byte>, e: seq<byte>)
    requires |a| == 4 && |b| == 4 && |c| == 8
    ensures var s := a + b + c + d + e;
            s[..4] == a && s[4..8] == b && s[8..16] == c && s[16..16 + |d|] == d && s[16 + |d|..] == e
  {
    Parts3(a, b, c);
    Parts3(a + b + c, d, e);
    var s := a + b + c + d + e;
    assert s[..16] == a + b + c;
    assert s[..4] == s[..16][..4] && s[4..8] == s[..16][4..8] && s[8..16] == s[..16][8..16];
  }

  lemma ReplyHeaderRoundTrip(r: Reply, rest: seq<byte>)
    requires r.error < 0x1_0000_0000 && r.handle < 0x1_0000_0000_0000_0000
    ensures var s := EncodeReply(r) + rest;
            && |s| >= 16 + |r.payload|
            && FromBE(s[..4]) == REPLY_MAGIC && FromBE(s[4..8]) == r.error && FromBE(s[8..16]) == r.handle
            && s[16..16 + |r.payload|] == r.payload && s[16 + |r.payload|..] == rest
  {
    Powers();
    PartsReply(BE(REPLY_MAGIC, 4), BE(r.error, 4), BE(r.handle, 8), r.payload, rest);
    FieldRoundTrip(REPLY_MAGIC, 4);
    FieldRoundTrip(r.error, 4);
    FieldRoundTrip(r.handle, 8);
  }

  lemma ClientDecodeFirst(qs: seq<Request>, r: Reply, tail: seq<byte>)
    requires qs != [] && Answers(qs[0], r)
    ensures ClientDecode(qs, EncodeReply(r) + tail) ==
            match ClientDecode(qs[1..], tail)
            case None => None
            case Some((rs, rest)) => Some(([r] + rs, rest))
  {
    ReplyHeaderRoundTrip(r, tail);
  }

  /** A client recovers the replies in order, and finds after them exactly what the server wrote after them. */
  lemma {:induction false} RepliesRoundTrip(qs: seq<Request>, rs: seq<Reply>, rest: seq<byte>)
    requires |qs| == |rs| && forall i :: 0 <= i < |qs| ==> Answers(qs[i], rs[i])
    ensures ClientDecode(qs, EncodeReplies(rs) + rest) == Some((rs, rest))
    decreases |qs|
  {
    if qs == [] {
      NilLeft(rest);
    } else {
      RepliesRoundTrip(qs[1..], rs[1..], rest);
      Assoc(EncodeReply(rs[0]), EncodeReplies(rs[1..]), rest);
      HeadTail(rs);
      assert Answers(qs[0], rs[0]);
      ClientDecodeFirst(qs, rs[0], EncodeReplies(rs[1..]) + rest);
    }
  }
}
