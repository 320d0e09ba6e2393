/**
 A whole client session (diskimage-nbd/src/server.rs): the handshake, and on
 the same stream the transmission after it.
 */
module NbdSession {
  import opened Basics
  import opened NbdWire
  import opened NbdServer
  import opened NbdHandshake
  import B = NbdBytes

  // What a client sends: flags, options, requests, a disconnect, and whatever else.
  ghost predicate WellSent(flags: nat, os: seq<Opt>, qs: seq<Request>, disc: Request) {
    && FlagsOk(flags) && Settles(os) && Accepted(os)
    && (forall i :: 0 <= i < |qs| ==> WellFormed(qs[i]) && qs[i].typ != CMD_DISC)
    && WellFormed(disc) && disc.typ == CMD_DISC
  }

  function Sent(flags: nat, os: seq<Opt>, qs: seq<Request>, disc: Request, rest: seq<byte>): seq<byte> {
    BE(flags, 4) + (EncodeOpts(os) + (EncodeRequests(qs) + (EncodeRequest(disc) + rest)))
  }

  lemma Cut(a: seq<byte>, b: seq<byte>)
    ensures (a + b)[..|a|] == a && (a + b)[|a|..] == b
  {
  }

  lemma Cut3(a: seq<byte>, b: seq<byte>, c: seq<byte>)
    ensures var s := a + (b + c); s[..|a|] == a && s[|a|..] == b + c && s[|a| + |b|..] == c
  {
  }

  lemma {:induction false} SentParts(flags: nat, os: seq<Opt>, qs: seq<Request>, disc: Request, rest: seq<byte>)
    requires WellSent(flags, os, qs, disc)
    ensures var s := Sent(flags, os, qs, disc, rest);
            && |s| >= 4 + OptsLength(os) && FromBE(s[..4]) == flags && OptsIn(s[4..]) == os
            && s[4 + OptsLength(os)..] == EncodeRequests(qs) + (EncodeRequest(disc) + rest)
  {
    var requests := EncodeRequests(qs) + (EncodeRequest(disc) + rest);
    Powers();
    FieldRoundTrip(flags, 4);
    Cut3(BE(flags, 4), EncodeOpts(os), requests);
    OptsRoundTrip(os, requests);
    OptsLengthIs(os);
  }

  lemma {:induction false} SentRequests(flags: nat, os: seq<Opt>, qs: seq<Request>, disc: Request, rest: seq<byte>,
        os': seq<Opt>)
    requires WellSent(flags, os, qs, disc) && os' == OptsIn(Sent(flags, os, qs, disc, rest)[4..])
    ensures var s := Sent(flags, os, qs, disc, rest);
            && os' == os && FromBE(s[..4]) == flags && 4 + OptsLength(os') <= |s|
            && s[4 + OptsLength(os')..] == EncodeRequests(qs) + (EncodeRequest(disc) + rest)
  {
    SentParts(flags, os, qs, disc, rest);
  }

  // How a session ended, if the handshake was accepted.
  datatype Closed = NotAccepted | Finished(end: End)

  // The requests on the stream from here on were answered with rs, up to the end.
  ghost predicate Ran(img: Image, requests: seq<byte>, qs: seq<Request>, rs: seq<Reply>, end: End) {
    && Transcript(img, qs, rs) && Concludes(requests, qs, end)
    && (end.Truncated? ==> BreaksOff(img, end.q, end.sent) && !Steady(img) && end.q.typ == CMD_READ)
  }

  // What the client is sent before the first reply.
  function Hello(os: seq<Opt>, size: nat, flags: nat): seq<byte> {
    Greeting() + RespondAll(os, size, flags)
  }

  ghost predicate Admitted(input: seq<byte>) {
    |input| >= 4 && FlagsOk(FromBE(input[..4])) && Accepted(OptsIn(input[4..]))
  }

  // What a client whose handshake is not accepted is sent: the greeting, and the answers to the options it got to send.
  ghost function Refusal(input: seq<byte>, size: nat): seq<byte> {
    if |input| >= 4 && FlagsOk(FromBE(input[..4])) then Hello(OptsIn(input[4..]), size, FromBE(input[..4]))
    else Greeting()
  }

  // What has happened on a connection whose handshake was accepted.
  ghost predicate Happened(img: Image, input: seq<byte>, os: seq<Opt>, qs: seq<Request>, rs: seq<Reply>, end: End,
                           out: seq<byte>, pos: nat) {
    && Admitted(input) && os == OptsIn(input[4..]) && 4 + OptsLength(os) <= |input|
    && Ran(img, input[4 + OptsLength(os)..], qs, rs, end)
    && out == Hello(os, |img.bytes|, FromBE(input[..4])) + EncodeReplies(rs) + Leftover(img, end)
    && (!end.BadInput? ==> pos == 4 + OptsLength(os) + |EncodeRequests(qs)| + 28)
  }

  lemma BegunSo(input: seq<byte>, size: nat, accepted: bool, out: seq<byte>)
    requires accepted <==> Admitted(input)
    requires accepted ==> Hello(OptsIn(input[4..]), size, FromBE(input[..4])) <= out
    requires !accepted ==> out == Refusal(input, size)
    ensures B.Begun(input, size, accepted, out)
  {
    assert Greeting() + [] == Greeting();
    B.BegunInBytes(input, size, accepted, out);
  }

  // The handshake on a fresh connection.
  method OpenConnection(st: Stream, size: nat) returns (ok: bool, ghost os: seq<Opt>)
    requires st.Ok() && st.pos == 0 && st.out == []
    modifies st
    ensures st.Ok() && (ok <==> Admitted(st.input))
    ensures ok ==> os == OptsIn(st.input[4..]) && st.out == Hello(os, size, FromBE(st.input[..4]))
    ensures ok ==> st.pos == 4 + OptsLength(os) && st.Unread() == st.input[4 + OptsLength(os)..]
    ensures !ok ==> st.out == Refusal(st.input, size)
  {
    ghost var flags;
    assert st.Unread() == st.input;
    ok, flags, os := Handshake(st, size);
    NilLeft(Greeting());
    assert Greeting() + [] == Greeting();
  }

  /** `serve_connection`: the handshake, then requests from where it left off. */
  method ServeConnection(st: Stream, img: Image)
    returns (r: Closed, ghost os: seq<Opt>, ghost qs: seq<Request>, ghost rs: seq<Reply>)
    requires st.Ok() && Honest(img) && st.pos == 0 && st.out == []
    modifies st
    ensures r.Finished? <==> Admitted(st.input)
    ensures r.Finished? ==> Happened(img, st.input, os, qs, rs, r.end, st.out, st.pos)
    ensures r.NotAccepted? ==> st.out == Refusal(st.input, |img.bytes|)
    ensures B.Begun(st.input, |img.bytes|, r.Finished?, st.out)
  {
    qs, rs := [], [];
    var ok, end;
    ok, os := OpenConnection(st, |img.bytes|);
    if !ok {
      BegunSo(st.input, |img.bytes|, false, st.out);
      return NotAccepted, os, qs, rs;
    }
    end, qs, rs := Transmission(st, img);
    BegunSo(st.input, |img.bytes|, true, st.out);
    r := Finished(end);
  }

  // The requests answered are the first |rs| of those sent.
  lemma {:induction false} Answered(qs: seq<Request>, answered: seq<Request>, rs: seq<Reply>, end: End, s: seq<byte>)
    requires RequestsIn(s) == qs && Disconnects(s) && Concludes(s, answered, end) && |answered| == |rs|
    ensures |rs| <= |qs| && answered == qs[..|rs|]
    ensures if end.Truncated? then |rs| < |qs| && end.q == qs[|rs|] else |rs| == |qs| && end.Disconnected?
  {
    if end.Truncated? {
      assert (answered + [end.q])[|rs|] == end.q;
      assert answered == (answered + [end.q])[..|rs|];
    }
  }

  // A success header and a front part of the payload that should follow it.
  ghost predicate BrokenOff(img: Image, q: Request, left: seq<byte>) {
    && q.typ == CMD_READ && 16 < |left| && BreaksOff(img, q, |left| - 16)
    && left == EncodeReplyHeader(0, q.handle) + img.bytes[q.offset..q.offset + |left| - 16]
  }

  // A client that sent qs decodes right replies to the first of them; to all of them, or to those before a broken-off
  // payload.
  ghost predicate ReadsBack(img: Image, qs: seq<Request>, out: seq<byte>, rs: seq<Reply>, left: seq<byte>) {
    && |rs| <= |qs| && ClientDecode(qs[..|rs|], out) == Some((rs, left))
    && (forall i :: 0 <= i < |rs| ==> RightReply(img, qs[i], rs[i]))
    && if |rs| == |qs| then left == [] else !Steady(img) && BrokenOff(img, qs[|rs|], left)
  }

  lemma {:induction false} RanReadsBack(img: Image, requests: seq<byte>, qs: seq<Request>, answered: seq<Request>,
        rs: seq<Reply>, end: End)
    requires RequestsIn(requests) == qs && Disconnects(requests) && Ran(img, requests, answered, rs, end)
    ensures ReadsBack(img, qs, EncodeReplies(rs) + Leftover(img, end), rs, Leftover(img, end))
    ensures !end.Truncated? ==> end.Disconnected? && answered == qs
    ensures Steady(img) ==> !end.Truncated?
  {
    Answered(qs, answered, rs, end, requests);
    ClientRecovers(img, answered, rs, Leftover(img, end));
    if !end.Truncated? {
      assert qs[..|rs|] == qs;
    }
  }

  lemma {:induction false} HappenedRan(flags: nat, os: seq<Opt>, qs: seq<Request>, disc: Request, rest: seq<byte>,
        img: Image, os': seq<Opt>, answered: seq<Request>, rs: seq<Reply>, end: End, out: seq<byte>, pos: nat)
    requires WellSent(flags, os, qs, disc)
    requires Happened(img, Sent(flags, os, qs, disc, rest), os', answered, rs, end, out, pos)
    ensures os' == os && Ran(img, EncodeRequests(qs) + (EncodeRequest(disc) + rest), answered, rs, end)
    ensures out == Hello(os, |img.bytes|, flags) + EncodeReplies(rs) + Leftover(img, end)
  {
    var input := Sent(flags, os, qs, disc, rest);
    SentRequests(flags, os, qs, disc, rest, os');
    assert os' == os;
    assert input[4 + OptsLength(os')..] == EncodeRequests(qs) + (EncodeRequest(disc) + rest);
  }

  lemma {:induction false} HappenedReadsBack(flags: nat, os: seq<Opt>, qs: seq<Request>, disc: Request,
        rest: seq<byte>, img: Image, os': seq<Opt>, answered: seq<Request>, rs: seq<Reply>, end: End, out: seq<byte>,
        pos: nat)
    requires WellSent(flags, os, qs, disc)
    requires Happened(img, Sent(flags, os, qs, disc, rest), os', answered, rs, end, out, pos)
    ensures var hello := Hello(os, |img.bytes|, flags);
            hello <= out && ReadsBack(img, qs, out[|hello|..], rs, Leftover(img, end))
    ensures Steady(img) ==> |rs| == |qs| && pos == |Sent(flags, os, qs, disc, rest)| - |rest|
  {
    var hello, left := Hello(os, |img.bytes|, flags), Leftover(img, end);
    var requests := EncodeRequests(qs) + (EncodeRequest(disc) + rest);
    HappenedRan(flags, os, qs, disc, rest, img, os', answered, rs, end, out, pos);
    RequestsThenDisconnect(qs, disc, rest);
    RanReadsBack(img, requests, qs, answered, rs, end);
    Assoc(hello, EncodeReplies(rs), left);
    Cut(hello, EncodeReplies(rs) + left);
    SentLength(flags, os, qs, disc, rest);
  }

  /**
   A client that negotiates, sends requests and disconnects reads back one right reply to each, in order, and nothing
   more; if the image fails in the middle of a payload, the replies before it and then what there is of that payload.
   */
  method WholeSession(flags: nat, os: seq<Opt>, qs: seq<Request>, disc: Request, rest: seq<byte>, img: Image)
    returns (st: Stream, ghost rs: seq<Reply>, ghost left: seq<byte>)
    requires WellSent(flags, os, qs, disc) && Honest(img)
    ensures st.input == Sent(flags, os, qs, disc, rest)
    ensures var hello := Hello(os, |img.bytes|, flags);
            hello <= st.out && ReadsBack(img, qs, st.out[|hello|..], rs, left)
    ensures Steady(img) ==> |rs| == |qs| && st.pos == |st.input| - |rest|
  {
    st := new Stream(Sent(flags, os, qs, disc, rest));
    SentParts(flags, os, qs, disc, rest);
    var r;
    ghost var os', answered;
    r, os', answered, rs := ServeConnection(st, img);
    HappenedReadsBack(flags, os, qs, disc, rest, img, os', answered, rs, r.end, st.out, st.pos);
    left := Leftover(img, r.end);
  }

  lemma SentLength(flags: nat, os: seq<Opt>, qs: seq<Request>, disc: Request, rest: seq<byte>)
    requires WellSent(flags, os, qs, disc)
    ensures |Sent(flags, os, qs, disc, rest)| == 4 + OptsLength(os) + |EncodeRequests(qs)| + 28 + |rest|
  {
    OptsLengthIs(os);
  }
}
