/**
 The transmission phase of the NBD server: `transmission`, `serve_read`,
 `drain` and `read_request_error` of diskimage-nbd/src/nbd_protocol.rs.
 */
module NbdServer {
  import opened Basics
  import opened NbdWire

  const READ_BUF_SIZE: nat := 1024 * 1024
  const MAX_READ_LENGTH: nat := 32 * 1024 * 1024

  const EPERM: nat := 1
  const EIO: nat := 5
  const EINVAL: nat := 22
  const ENOSYS: nat := 38

  // The client's connection: what it sends, how much of that was taken, what it was sent.
  class Stream {
    const input: seq<byte>
    var pos: nat
    var out: seq<byte>

    constructor (input: seq<byte>)
      ensures this.input == input && pos == 0 && out == [] && Ok()
    {
      this.input, pos, out := input, 0, [];
    }

    ghost predicate Ok()
      reads this
    {
      pos <= |input|
    }

    ghost function Unread(): seq<byte>
      requires Ok()
      reads this
    {
      input[pos..]
    }

    method ReadExact(n: nat) returns (r: Option<seq<byte>>)
      requires Ok()
      modifies this`pos
      ensures Ok()
      ensures r.Some? <==> n <= |old(Unread())|
      ensures r.Some? ==> r.value == old(Unread())[..n] && pos == old(pos) + n
    {
      if |input| - pos < n {
        pos := |input|;
        return None;
      }
      r := Some(input[pos..pos + n]);
      pos := pos + n;
    }

    method WriteAll(bytes: seq<byte>)
      modifies this`out
      ensures out == old(out) + bytes
    {
      out := out + bytes;
    }
  }

  // How the image answers the call-th read of `want` bytes at pos: with n of its bytes, or an error code.
  datatype Answer = Got(n: nat) | Failed(code: nat)

  datatype Image = Image(bytes: seq<byte>, answer: (nat, nat, nat) -> Answer)

  ghost predicate Honest(img: Image) {
    forall call: nat, pos: nat, want: nat ::
      match img.answer(call, pos, want)
      case Got(n) => n <= want
      case Failed(code) => 0 < code < 0x1_0000_0000
  }

  // Every read makes progress.
  ghost predicate Steady(img: Image) {
    forall call: nat, pos: nat, want: nat :: want > 0 ==>
      img.answer(call, pos, want).Got? && img.answer(call, pos, want).n > 0
  }

  // How much one read asks for when this much is left.
  function Ask(remaining: nat): nat {
    Min(remaining, READ_BUF_SIZE)
  }

  // Asked for so much at pos, the image gives this error code, or no bytes, which is reported as EIO.
  predicate StopsAt(img: Image, call: nat, pos: nat, want: nat, code: nat) {
    var answer := img.answer(call, pos, want);
    answer == Failed(code) || (answer == Got(0) && code == EIO)
  }

  ghost predicate Stops(img: Image, pos: nat, want: nat, code: nat) {
    exists call: nat :: StopsAt(img, call, pos, want, code)
  }

  ghost predicate CannotGoOn(img: Image, pos: nat, want: nat) {
    exists code: nat :: Stops(img, pos, want, code)
  }

  // The payload breaks off after so many bytes because the image does.
  ghost predicate BreaksOff(img: Image, q: Request, sent: nat) {
    && 0 < sent < q.length && q.offset + q.length <= |img.bytes|
    && CannotGoOn(img, q.offset + sent, Ask(q.length - sent))
  }

  /** `read_request_error` */
  function ReadRequestError(offset: nat, length: nat, size: nat): (r: Option<nat>)
    ensures r.None? <==> length <= MAX_READ_LENGTH && offset + length <= size
  {
    if length > MAX_READ_LENGTH then Some(EINVAL)
    else if offset > size || length > (if size < offset then 0 else size - offset) then Some(EINVAL)
    else None
  }

  // ---- What a reply must say ----

  ghost predicate RightRead(img: Image, q: Request, r: Reply) {
    if ReadRequestError(q.offset, q.length, |img.bytes|).Some? then r.error == EINVAL && r.payload == []
    else
      || (r.error == 0 && r.payload == img.bytes[q.offset..q.offset + q.length])
      || (0 < r.error < 0x1_0000_0000 && r.payload == [] && !Steady(img)
          && Stops(img, q.offset, Ask(q.length), r.error))
  }

  ghost predicate RightReply(img: Image, q: Request, r: Reply) {
    && r.handle == q.handle
    && (if q.typ == CMD_READ then RightRead(img, q, r)
        else r.payload == []
             && r.error == if q.typ == CMD_FLUSH then 0 else if q.typ == CMD_WRITE then EPERM else ENOSYS)
  }

  lemma RightReplyAnswers(img: Image, q: Request, r: Reply)
    requires RightReply(img, q, r) && q.handle < 0x1_0000_0000_0000_0000
    ensures Answers(q, r)
  {
  }

  // ---- serve_read ----

  // Either one whole reply, or a success header whose payload breaks off after `sent` bytes.
  datatype Served = Replied(r: Reply) | Cut(sent: nat)

  ghost function Wire(img: Image, q: Request, o: Served): seq<byte>
    requires o.Cut? ==> q.offset + o.sent <= |img.bytes|
  {
    match o
    case Replied(r) => EncodeReply(r)
    case Cut(sent) => EncodeReplyHeader(0, q.handle) + img.bytes[q.offset..q.offset + sent]
  }

  // What has gone out once the payload has been sent up to pos: nothing before the first byte.
  ghost function SentTo(img: Image, q: Request, pos: nat): seq<byte>
    requires q.offset <= pos <= |img.bytes|
  {
    if pos == q.offset then [] else EncodeReplyHeader(0, q.handle) + img.bytes[q.offset..pos]
  }

  // The next n bytes of payload, after the success header if it has not gone out yet.
  method SendChunk(st: Stream, img: Image, q: Request, pos: nat, n: nat)
    requires q.offset <= pos && 0 < n && pos + n <= |img.bytes|
    modifies st`out
    ensures forall out0 :: old(st.out) == out0 + SentTo(img, q, pos) ==> st.out == out0 + SentTo(img, q, pos + n)
  {
    if pos == q.offset {
      st.WriteAll(EncodeReplyHeader(0, q.handle));
    }
    st.WriteAll(img.bytes[pos..pos + n]);
    var sent, more := img.bytes[q.offset..pos], img.bytes[pos..pos + n];
    assert sent + more == img.bytes[q.offset..pos + n];
    Assoc(EncodeReplyHeader(0, q.handle), sent, more);
    forall out0 | old(st.out) == out0 + SentTo(img, q, pos) ensures st.out == out0 + SentTo(img, q, pos + n) {
      if pos == q.offset {
        Assoc(out0, EncodeReplyHeader(0, q.handle), more);
      } else {
        Assoc(out0, SentTo(img, q, pos), more);
      }
    }
  }

  // The image could not go on: an error reply if none was begun, otherwise nothing more at all.
  method GiveUp(st: Stream, img: Image, q: Request, pos: nat, code: nat) returns (o: Served)
    requires q.typ == CMD_READ && ReadRequestError(q.offset, q.length, |img.bytes|).None? && !Steady(img)
    requires q.offset <= pos < q.offset + q.length && 0 < code < 0x1_0000_0000
    requires Stops(img, pos, Ask(q.offset + q.length - pos), code)
    modifies st`out
    ensures o.Replied? ==> RightReply(img, q, o.r)
    ensures o.Cut? ==> BreaksOff(img, q, o.sent)
    ensures forall out0 :: old(st.out) == out0 + SentTo(img, q, pos) ==> st.out == out0 + Wire(img, q, o)
  {
    if pos > q.offset {
      return Cut(pos - q.offset);
    }
    st.WriteAll(EncodeReplyHeader(code, q.handle));
    o := Replied(Reply(code, q.handle, []));
  }

  /** `serve_read` */
  method ServeRead(st: Stream, img: Image, calls0: nat, q: Request) returns (o: Served, calls: nat)
    requires Honest(img) && q.typ == CMD_READ
    modifies st`out
    ensures o.Replied? ==> RightReply(img, q, o.r)
    ensures o.Cut? ==> BreaksOff(img, q, o.sent) && !Steady(img)
    ensures st.out == old(st.out) + Wire(img, q, o)
  {
    calls := calls0;
    var error := ReadRequestError(q.offset, q.length, |img.bytes|);
    if error.Some? {
      st.WriteAll(EncodeReplyHeader(error.value, q.handle));
      return Replied(Reply(error.value, q.handle, [])), calls;
    }
    var remaining: nat, pos: nat := q.length, q.offset;
    while remaining > 0
      invariant pos + remaining == q.offset + q.length && q.offset <= pos
      invariant st.out == old(st.out) + SentTo(img, q, pos)
    {
      var want := Ask(remaining);
      var answer := img.answer(calls, pos, want);
      assert forall code: nat :: StopsAt(img, calls, pos, want, code) ==> Stops(img, pos, want, code);
      calls := calls + 1;
      match answer {
        case Got(n) =>
          if n == 0 {
            o := GiveUp(st, img, q, pos, EIO);
            return;
          }
          SendChunk(st, img, q, pos, n);
          remaining, pos := remaining - n, pos + n;
        case Failed(code) =>
          o := GiveUp(st, img, q, pos, code);
          return;
      }
    }
    if q.length == 0 {
      st.WriteAll(EncodeReplyHeader(0, q.handle));
    }
    o := Replied(Reply(0, q.handle, img.bytes[q.offset..q.offset + q.length]));
  }

  /** `drain`: skip a rejected write's payload. */
  method Drain(st: Stream, n: nat) returns (ok: bool)
    requires st.Ok()
    modifies st`pos
    ensures st.Ok()
    ensures ok <==> n <= |old(st.Unread())|
    ensures ok ==> st.pos == old(st.pos) + n
  {
    var remaining: nat := n;
    while remaining > 0
      invariant st.Ok() && remaining <= n && st.pos == old(st.pos) + (n - remaining)
    {
      var want := Min(remaining, READ_BUF_SIZE);
      var skipped := st.ReadExact(want);
      if skipped.None? {
        return false;
      }
      remaining := remaining - want;
    }
    ok := true;
  }

  // ---- transmission ----

  // How a session ends: by request, because the input broke off or made no sense, or because
  // the image failed in the middle of a payload.
  datatype End = Disconnected | BadInput | Truncated(q: Request, sent: nat)

  // One request served off the front of the stream.
  datatype Turn = Served(q: Request, r: Reply) | Last(end: End)

  ghost predicate HandleFits(q: Request) {
    q.handle < 0x1_0000_0000_0000_0000
  }

  lemma HeaderHandle(h: seq<byte>)
    requires |h| == 28 && DecodeHeader(h).Some?
    ensures HandleFits(DecodeHeader(h).value)
  {
    Powers();
    FieldBytes(h[8..16]);
  }

  // The bytes of a broken-off payload, which nothing may follow.
  ghost function Leftover(img: Image, end: End): seq<byte>
    requires end.Truncated? ==> end.q.offset + end.sent <= |img.bytes|
  {
    if end.Truncated? then EncodeReplyHeader(0, end.q.handle) + img.bytes[end.q.offset..end.q.offset + end.sent] else []
  }

  // What one turn does: a request taken whole and answered rightly, or the end of the session.
  ghost predicate Turned(img: Image, unread: seq<byte>, out: seq<byte>, pos: nat, turn: Turn, unread': seq<byte>,
                         out': seq<byte>, pos': nat) {
    match turn
    case Served(q, r) =>
      && ParseRequest(unread) == Some(q) && q.typ != CMD_DISC && RightReply(img, q, r) && HandleFits(q)
      && pos' == pos + 28 + PayloadLength(q) && unread' == unread[28 + PayloadLength(q)..]
      && out' == out + EncodeReply(r)
    case Last(end) =>
      && EndsAt(img, unread, end) && out' == out + Leftover(img, end) && (!end.BadInput? ==> pos' == pos + 28)
  }

  // Why a session ends here.
  ghost predicate EndsAt(img: Image, unread: seq<byte>, end: End) {
    match end
    case Disconnected => ParseRequest(unread).Some? && ParseRequest(unread).value.typ == CMD_DISC
    case BadInput => ParseRequest(unread).None?
    case Truncated(q, sent) =>
      ParseRequest(unread) == Some(q) && q.typ == CMD_READ && !Steady(img) && BreaksOff(img, q, sent)
  }

  // The n bytes that follow in both, and what follows these.
  lemma SameTail(u: seq<byte>, at: nat, s: seq<byte>, pos: nat, n: nat)
    requires at <= |u| && pos + n <= |s| && s[pos..] == u[at..]
    ensures at + n <= |u| && u[at..at + n] == s[pos..pos + n] && s[pos + n..] == u[at + n..]
  {
    assert |s| - pos == |u| - at;
    assert forall i :: 0 <= i < n ==> u[at..][i] == s[pos..][i];
    assert s[pos + n..] == s[pos..][n..] && u[at + n..] == u[at..][n..];
  }

  // A write: its payload is skipped and the client told that the export is read-only.
  method RejectWrite(st: Stream, img: Image, q: Request, ghost unread: seq<byte>) returns (turn: Turn)
    requires st.Ok() && 28 <= st.pos && |unread| >= 28 && st.Unread() == unread[28..]
    requires DecodeHeader(unread[..28]) == Some(q) && q.typ == CMD_WRITE && HandleFits(q)
    modifies st
    ensures st.Ok() && Turned(img, unread, old(st.out), old(st.pos) - 28, turn, st.Unread(), st.out, st.pos)
  {
    var drained := Drain(st, q.length);
    if !drained {
      return Last(BadInput);
    }
    st.WriteAll(EncodeReplyHeader(EPERM, q.handle));
    SameTail(unread, 28, st.input, old(st.pos), q.length);
    turn := Served(q.(payload := st.input[st.pos - q.length..st.pos]), Reply(EPERM, q.handle, []));
  }

  /** One turn of the transmission loop. */
  method ServeOne(st: Stream, img: Image, calls0: nat) returns (turn: Turn, calls: nat)
    requires st.Ok() && Honest(img)
    modifies st
    ensures st.Ok()
    ensures Turned(img, old(st.Unread()), old(st.out), old(st.pos), turn, st.Unread(), st.out, st.pos)
  {
    calls := calls0;
    ghost var unread := st.Unread();
    var header := st.ReadExact(28);
    if header.None? {
      return Last(BadInput), calls;
    }
    var decoded := DecodeHeader(header.value);
    if decoded.None? {
      return Last(BadInput), calls;
    }
    var q := decoded.value;
    HeaderHandle(header.value);
    assert unread[..28] == header.value && unread[28..28] == [];
    if q.typ == CMD_READ {
      var o;
      o, calls := ServeRead(st, img, calls, q);
      match o {
        case Replied(r) => turn := Served(q, r);
        case Cut(sent) => turn := Last(Truncated(q, sent));
      }
    } else if q.typ == CMD_DISC {
      turn := Last(Disconnected);
    } else if q.typ == CMD_FLUSH {
      st.WriteAll(EncodeReplyHeader(0, q.handle));
      turn := Served(q, Reply(0, q.handle, []));
    } else if q.typ == CMD_WRITE {
      turn := RejectWrite(st, img, q, unread);
    } else {
      st.WriteAll(EncodeReplyHeader(ENOSYS, q.handle));
      turn := Served(q, Reply(ENOSYS, q.handle, []));
    }
  }

  ghost predicate Transcript(img: Image, qs: seq<Request>, rs: seq<Reply>) {
    |qs| == |rs| && forall i :: 0 <= i < |qs| ==> HandleFits(qs[i]) && RightReply(img, qs[i], rs[i])
  }

  // The requests still unread are those the session has yet to answer.
  ghost predicate Progress(img: Image, unread0: seq<byte>, qs: seq<Request>, rs: seq<Reply>, unread: seq<byte>) {
    && Transcript(img, qs, rs) && RequestsIn(unread0) == qs + RequestsIn(unread)
    && Disconnects(unread0) == Disconnects(unread)
  }

  // Between two turns: every request read so far is answered, and nothing else is on the wire.
  ghost predicate Going(img: Image, unread0: seq<byte>, out0: seq<byte>, pos0: nat, qs: seq<Request>, rs: seq<Reply>,
                        unread: seq<byte>, out: seq<byte>, pos: nat)
  {
    && Progress(img, unread0, qs, rs, unread)
    && out == out0 + EncodeReplies(rs) && pos == pos0 + |EncodeRequests(qs)|
  }

  lemma {:induction false} TranscriptMore(img: Image, qs: seq<Request>, rs: seq<Reply>, q: Request, r: Reply)
    requires Transcript(img, qs, rs) && HandleFits(q) && RightReply(img, q, r)
    ensures Transcript(img, qs + [q], rs + [r])
  {
    var qs', rs' := qs + [q], rs + [r];
    forall i | 0 <= i < |qs'| ensures HandleFits(qs'[i]) && RightReply(img, qs'[i], rs'[i]) {
      assert i < |qs| ==> qs'[i] == qs[i] && rs'[i] == rs[i];
    }
  }

  lemma {:induction false} NextProgress(img: Image, unread0: seq<byte>, qs: seq<Request>, rs: seq<Reply>,
        unread: seq<byte>, q: Request, r: Reply)
    requires Progress(img, unread0, qs, rs, unread) && ParseRequest(unread) == Some(q) && q.typ != CMD_DISC
    requires HandleFits(q) && RightReply(img, q, r)
    ensures Progress(img, unread0, qs + [q], rs + [r], unread[28 + PayloadLength(q)..])
  {
    TranscriptMore(img, qs, rs, q, r);
    Assoc(qs, [q], RequestsIn(unread[28 + PayloadLength(q)..]));
  }

  lemma {:induction false} NextTurn(img: Image, unread0: seq<byte>, out0: seq<byte>, pos0: nat, qs: seq<Request>,
        rs: seq<Reply>, unread: seq<byte>, out: seq<byte>, pos: nat, q: Request, r: Reply)
    requires Going(img, unread0, out0, pos0, qs, rs, unread, out, pos) && ParseRequest(unread) == Some(q)
    requires q.typ != CMD_DISC
    requires HandleFits(q) && RightReply(img, q, r)
    ensures Going(img, unread0, out0, pos0, qs + [q], rs + [r],
                  unread[28 + PayloadLength(q)..], out + EncodeReply(r), pos + 28 + PayloadLength(q))
  {
    NextProgress(img, unread0, qs, rs, unread, q, r);
    EncodeRepliesSnoc(rs, r);
    RequestBytes(unread);
    EncodeRequestsSnoc(qs, q);
    Assoc(out0, EncodeReplies(rs), EncodeReply(r));
  }

  // The requests answered are those of the stream: all of them, or those before the one whose payload broke off.
  ghost predicate Concludes(unread0: seq<byte>, qs: seq<Request>, end: End) {
    match end
    case Truncated(q, _) => qs + [q] <= RequestsIn(unread0)
    case _ => qs == RequestsIn(unread0) && (end.Disconnected? <==> Disconnects(unread0))
  }

  // What the session has come to when it ends.
  ghost predicate Ended(img: Image, unread0: seq<byte>, out0: seq<byte>, pos0: nat, qs: seq<Request>, rs: seq<Reply>,
                        end: End, out: seq<byte>, pos: nat)
  {
    && Transcript(img, qs, rs) && Concludes(unread0, qs, end)
    && (end.Truncated? ==> BreaksOff(img, end.q, end.sent) && !Steady(img) && end.q.typ == CMD_READ)
    && out == out0 + EncodeReplies(rs) + Leftover(img, end)
    && (!end.BadInput? ==> pos == pos0 + |EncodeRequests(qs)| + 28)
  }

  lemma {:induction false} LastTurn(img: Image, unread0: seq<byte>, out0: seq<byte>, pos0: nat, qs: seq<Request>,
        rs: seq<Reply>, unread: seq<byte>, out: seq<byte>, pos: nat, end: End, unread': seq<byte>, out': seq<byte>,
        pos': nat)
    requires Going(img, unread0, out0, pos0, qs, rs, unread, out, pos)
    requires Turned(img, unread, out, pos, Last(end), unread', out', pos')
    ensures Ended(img, unread0, out0, pos0, qs, rs, end, out', pos')
  {
  }

  // One turn, and what it adds to the transcript.
  method TakeTurn(st: Stream, img: Image, calls0: nat, ghost unread0: seq<byte>, ghost out0: seq<byte>, ghost pos0: nat,
                  ghost qs0: seq<Request>, ghost rs0: seq<Reply>)
    returns (last: Option<End>, calls: nat, ghost qs: seq<Request>, ghost rs: seq<Reply>)
    requires Honest(img) && st.Ok() && Going(img, unread0, out0, pos0, qs0, rs0, st.Unread(), st.out, st.pos)
    modifies st
    ensures st.Ok()
    ensures last.None? ==> Going(img, unread0, out0, pos0, qs, rs, st.Unread(), st.out, st.pos) && old(st.pos) < st.pos
    ensures last.Some? ==> Ended(img, unread0, out0, pos0, qs, rs, last.value, st.out, st.pos)
  {
    ghost var before, out1, pos1 := st.Unread(), st.out, st.pos;
    var turn;
    turn, calls := ServeOne(st, img, calls0);
    qs, rs := AfterTurn(img, unread0, out0, pos0, qs0, rs0, before, out1, pos1, turn, st.Unread(), st.out, st.pos);
    last := if turn.Last? then Some(turn.end) else None;
  }

  lemma {:induction false} AfterTurn(img: Image, unread0: seq<byte>, out0: seq<byte>, pos0: nat, qs0: seq<Request>,
        rs0: seq<Reply>, unread: seq<byte>, out: seq<byte>, pos: nat, turn: Turn, unread': seq<byte>, out': seq<byte>,
        pos': nat)
    returns (qs: seq<Request>, rs: seq<Reply>)
    requires Going(img, unread0, out0, pos0, qs0, rs0, unread, out, pos)
    requires Turned(img, unread, out, pos, turn, unread', out', pos')
    ensures turn.Served? ==> Going(img, unread0, out0, pos0, qs, rs, unread', out', pos') && pos < pos'
    ensures turn.Last? ==> Ended(img, unread0, out0, pos0, qs, rs, turn.end, out', pos')
  {
    qs, rs := qs0, rs0;
    match turn {
      case Last(e) =>
        LastTurn(img, unread0, out0, pos0, qs, rs, unread, out, pos, e, unread', out', pos');
      case Served(q, r) =>
        NextTurn(img, unread0, out0, pos0, qs, rs, unread, out, pos, q, r);
        qs, rs := qs + [q], rs + [r];
    }
  }

  /** `transmission`: one right reply per request of the stream, in order, and nothing else. */
  method Transmission(st: Stream, img: Image) returns (end: End, ghost qs: seq<Request>, ghost rs: seq<Reply>)
    requires st.Ok() && Honest(img)
    modifies st
    ensures st.Ok() && Ended(img, old(st.Unread()), old(st.out), old(st.pos), qs, rs, end, st.out, st.pos)
  {
    qs, rs := [], [];
    var calls := 0;
    ghost var out0, unread0, pos0 := st.out, st.Unread(), st.pos;
    while true
      invariant st.Ok() && Going(img, unread0, out0, pos0, qs, rs, st.Unread(), st.out, st.pos)
      decreases |st.input| - st.pos
    {
      var last;
      last, calls, qs, rs := TakeTurn(st, img, calls, unread0, out0, pos0, qs, rs);
      if last.Some? {
        return last.value, qs, rs;
      }
    }
  }

  lemma EncodeRequestsSnoc(qs: seq<Request>, q: Request)
    ensures EncodeRequests(qs + [q]) == EncodeRequests(qs) + EncodeRequest(q)
  {
    if qs == [] {
      assert qs + [q] == [q];
    } else {
      assert (qs + [q])[1..] == qs[1..] + [q];
      EncodeRequestsSnoc(qs[1..], q);
      Assoc(EncodeRequest(qs[0]), EncodeRequests(qs[1..]), EncodeRequest(q));
    }
  }

  /** A client reading the session's output recovers every reply, and then nothing but a broken-off payload. */
  lemma ClientRecovers(img: Image, qs: seq<Request>, rs: seq<Reply>, tail: seq<byte>)
    requires Transcript(img, qs, rs)
    ensures ClientDecode(qs, EncodeReplies(rs) + tail) == Some((rs, tail))
  {
    forall i | 0 <= i < |qs| ensures Answers(qs[i], rs[i]) {
      RightReplyAnswers(img, qs[i], rs[i]);
    }
    RepliesRoundTrip(qs, rs, tail);
  }
}
