/**
 The NBD session byte by byte: what the fields, options, requests and answers
 are on the wire. Everything is written out here in literal bytes and numbers,
 independently of the encoders and decoders that the server is built on.
 */
module NbdBytes {
  import opened Basics
  import opened NbdWire
  import opened NbdServer
  import opened NbdHandshake

  // ---- Fields ----

  // High byte first.
  ghost function Bytes4(n: nat): seq<byte> {
    [(n / 16777216 % 256) as byte, (n / 65536 % 256) as byte, (n / 256 % 256) as byte, (n % 256) as byte]
  }

  ghost function Bytes8(n: nat): seq<byte> {
    Bytes4(n / 4294967296) + Bytes4(n)
  }

  ghost function Number4(s: seq<byte>, at: nat): nat
    requires at + 4 <= |s|
  {
    16777216 * s[at] as nat + 65536 * s[at + 1] as nat + 256 * s[at + 2] as nat + s[at + 3] as nat
  }

  ghost function Number8(s: seq<byte>, at: nat): nat
    requires at + 8 <= |s|
  {
    4294967296 * Number4(s, at) + Number4(s, at + 4)
  }

  lemma BETwo(n: nat, w: nat)
    ensures BE(n, w + 2) == BE(n / 65536, w) + [(n / 256 % 256) as byte, (n % 256) as byte]
  {
    assert BE(n, w + 2) == BE(n / 256, w + 1) + [(n % 256) as byte];
    assert BE(n / 256, w + 1) == BE(n / 256 / 256, w) + [(n / 256 % 256) as byte];
    assert n / 256 / 256 == n / 65536;
    Assoc(BE(n / 65536, w), [(n / 256 % 256) as byte], [(n % 256) as byte]);
  }

  /** Fields of two, four and eight bytes. */
  lemma FieldsAre(n: nat)
    ensures BE(n, 2) == [(n / 256 % 256) as byte, (n % 256) as byte]
    ensures BE(n, 4) == Bytes4(n) && BE(n, 8) == Bytes8(n)
  {
    BETwo(n, 0);
    Field4(n);
    BETwo(n, 6);
    BETwo(n / 65536, 4);
    Field4(n / 4294967296);
    var high := BE(n / 4294967296, 4);
    var (a, b) := (n / 16777216 % 256, n / 65536 % 256);
    assert n / 65536 / 65536 == n / 4294967296 && n / 65536 / 256 == n / 16777216;
    assert BE(n / 65536, 6) == high + [a as byte, b as byte];
    Assoc(high, [a as byte, b as byte], [(n / 256 % 256) as byte, (n % 256) as byte]);
  }

  lemma Field4(n: nat)
    ensures BE(n, 4) == Bytes4(n)
  {
    BETwo(n, 2);
    BETwo(n / 65536, 0);
    assert n / 65536 / 256 == n / 16777216;
  }

  lemma FromTwo(s: seq<byte>)
    requires |s| >= 2
    ensures FromBE(s) == FromBE(s[..|s| - 2]) * 65536 + 256 * s[|s| - 2] as nat + s[|s| - 1] as nat
  {
    var front := s[..|s| - 1];
    assert front[..|s| - 2] == s[..|s| - 2] && front[|s| - 2] == s[|s| - 2];
    assert FromBE(front) == FromBE(front[..|s| - 2]) * 256 + front[|s| - 2] as nat;
  }

  lemma FromFour(s: seq<byte>)
    requires |s| >= 4
    ensures FromBE(s) == FromBE(s[..|s| - 4]) * 4294967296 + Number4(s, |s| - 4)
  {
    var front := s[..|s| - 2];
    FromTwo(s);
    FromTwo(front);
    assert front[..|s| - 4] == s[..|s| - 4];
  }

  /** Fields read back: the number that the bytes of the field spell, high byte first. */
  lemma FieldsRead(s: seq<byte>)
    ensures |s| == 2 ==> FromBE(s) == 256 * s[0] as nat + s[1] as nat
    ensures |s| == 4 ==> FromBE(s) == Number4(s, 0)
    ensures |s| == 8 ==> FromBE(s) == Number8(s, 0)
  {
    if |s| == 2 {
      FromTwo(s);
    } else if |s| == 4 {
      FromFour(s);
    } else if |s| == 8 {
      FromFour(s);
      FromFour(s[..4]);
    }
  }

  // The field that these bytes spell.
  lemma Spelled(s: seq<byte>, n: nat)
    requires || (|s| == 8 && n == Number8(s, 0)) || (|s| == 4 && n == Number4(s, 0))
             || (|s| == 2 && n == 256 * s[0] as nat + s[1] as nat)
    ensures BE(n, |s|) == s
  {
    FieldBytes(s);
    FieldsRead(s);
  }

  // The same for a field that stands at a place in a stream.
  lemma FieldsReadAt(s: seq<byte>, at: nat)
    ensures at + 2 <= |s| ==> FromBE(s[at..at + 2]) == 256 * s[at] as nat + s[at + 1] as nat
    ensures at + 4 <= |s| ==> FromBE(s[at..at + 4]) == Number4(s, at)
    ensures at + 8 <= |s| ==> FromBE(s[at..at + 8]) == Number8(s, at)
  {
    if at + 2 <= |s| {
      FieldsRead(s[at..at + 2]);
    }
    if at + 4 <= |s| {
      FieldsRead(s[at..at + 4]);
    }
    if at + 8 <= |s| {
      FieldsRead(s[at..at + 8]);
    }
  }

  lemma HeaderFields(s: seq<byte>)
    requires |s| >= 28
    ensures var h := s[..28];
            && FromBE(h[4..6]) == 256 * s[4] as nat + s[5] as nat && FromBE(h[6..8]) == 256 * s[6] as nat + s[7] as nat
            && FromBE(h[8..16]) == Number8(s, 8) && FromBE(h[16..24]) == Number8(s, 16)
            && FromBE(h[24..28]) == Number4(s, 24)
  {
    var h := s[..28];
    assert h[4..6] == s[4..6] && h[6..8] == s[6..8];
    assert h[8..16] == s[8..16] && h[16..24] == s[16..24] && h[24..28] == s[24..28];
    FieldsReadAt(s, 4);
    FieldsReadAt(s, 6);
    FieldsReadAt(s, 8);
    FieldsReadAt(s, 16);
    FieldsReadAt(s, 24);
  }

  lemma RequestMagic(s: seq<byte>)
    requires |s| >= 28
    ensures FromBE(s[..28][..4]) == REQ_MAGIC <==> s[..4] == [0x25, 0x60, 0x95, 0x13]
  {
    assert s[..28][..4] == s[..4];
    Powers();
    ReadsAs(s[..4], REQ_MAGIC);
    Spelled([0x25, 0x60, 0x95, 0x13], REQ_MAGIC);
  }

  lemma ReadsAs(s: seq<byte>, n: nat)
    requires n < Power256(|s|)
    ensures FromBE(s) == n <==> s == BE(n, |s|)
  {
    FieldBytes(s);
    FieldRoundTrip(n, |s|);
  }

  // ---- Requests and replies ----

  /** A request: the magic 25 60 95 13, flags, type, handle, offset and length, and the payload if it is a write. */
  lemma RequestLayout(s: seq<byte>)
    requires |s| >= 28
    ensures ParseRequest(s).Some? <==>
            && s[..4] == [0x25, 0x60, 0x95, 0x13]
            && (256 * s[6] as nat + s[7] as nat == 1 ==> |s| >= 28 + Number4(s, 24))
    ensures ParseRequest(s).Some? ==> var q := ParseRequest(s).value;
            && q.flags == 256 * s[4] as nat + s[5] as nat && q.typ == 256 * s[6] as nat + s[7] as nat
            && q.handle == Number8(s, 8) && q.offset == Number8(s, 16) && q.length == Number4(s, 24)
            && q.payload == if q.typ == 1 then s[28..28 + q.length] else []
  {
    RequestMagic(s);
    HeaderFields(s);
  }

  /** A reply: the magic 67 44 66 98, the error code, the handle and the payload. */
  lemma ReplyLayout(r: Reply)
    ensures EncodeReply(r) == [0x67, 0x44, 0x66, 0x98] + Bytes4(r.error) + Bytes8(r.handle) + r.payload
  {
    Spelled([0x67, 0x44, 0x66, 0x98], REPLY_MAGIC);
    FieldsAre(r.error);
    FieldsAre(r.handle);
  }

  /**
   The codes of right replies: 22 for a read that is too long or out of range, 1 for a write, 0 for a flush and 38 for
   any type that is not known; a read in range fails only as the first part of it, at most a mebibyte, does: with the
   code the image gives, or with 5 if it gives no bytes.
   */
  lemma ReplyCodes(img: Image, q: Request, r: Reply)
    requires RightReply(img, q, r)
    ensures r.handle == q.handle && (r.error != 0 || q.typ != 0 ==> r.payload == [])
    ensures q.typ == 0 && (q.length > 33554432 || q.offset + q.length > |img.bytes|) ==> r.error == 22
    ensures q.typ == 0 && q.length <= 33554432 && q.offset + q.length <= |img.bytes| && r.error == 0 ==>
              r.payload == img.bytes[q.offset..q.offset + q.length]
    ensures q.typ == 0 && q.length <= 33554432 && q.offset + q.length <= |img.bytes| && r.error != 0 ==>
              var want := if q.length < 1048576 then q.length else 1048576;
              exists call: nat :: FailsWith(img, call, q.offset, want, r.error)
    ensures q.typ == 1 ==> r.error == 1
    ensures q.typ == 3 ==> r.error == 0
    ensures q.typ != 0 && q.typ != 1 && q.typ != 3 ==> r.error == 38
  {
    if q.typ == 0 && ReadRequestError(q.offset, q.length, |img.bytes|).None? && r.error != 0 {
      var call: nat :| StopsAt(img, call, q.offset, Ask(q.length), r.error);
      assert FailsWith(img, call, q.offset, Ask(q.length), r.error);
    }
  }

  ghost predicate FailsWith(img: Image, call: nat, pos: nat, want: nat, code: nat) {
    match img.answer(call, pos, want)
    case Failed(c) => c == code
    case Got(n) => n == 0 && code == 5
  }

  // ---- Options and their answers ----

  // An option: IHAVEOPT, its number, the length of its data and the data.
  ghost function OptionBytes(o: Opt): seq<byte> {
    [0x49, 0x48, 0x41, 0x56, 0x45, 0x4F, 0x50, 0x54] + Bytes4(o.opt) + Bytes4(|o.data|) + o.data
  }

  ghost function OptionsBytes(os: seq<Opt>): seq<byte> {
    if os == [] then [] else OptionBytes(os[0]) + OptionsBytes(os[1..])
  }

  // A framed answer: the magic, the option answered, the kind of answer, the length of its data and the data.
  ghost function FrameBytes(opt: nat, kind: nat, data: seq<byte>): seq<byte> {
    [0x00, 0x03, 0xe8, 0x89, 0x04, 0x55, 0x65, 0xa9] + Bytes4(opt) + Bytes4(kind) + Bytes4(|data|) + data
  }

  // The length-prefixed name "diskimage-nbd".
  ghost function NameBytes(): seq<byte> {
    [0, 0, 0, 13, 100, 105, 115, 107, 105, 109, 97, 103, 101, 45, 110, 98, 100]
  }

  // What an option is answered with.
  ghost function AnswerBytes(o: Opt, size: nat, flags: nat): seq<byte> {
    if o.opt == 1 then Bytes8(size) + [0, 3] + (if flags / 2 % 2 == 0 then Zeroes(124) else [])
    else if o.opt == 2 then FrameBytes(2, 1, [])
    else if o.opt == 3 then if o.data == [] then FrameBytes(3, 2, NameBytes()) + FrameBytes(3, 1, []) else []
    else if o.opt == 6 || o.opt == 7 then
      FrameBytes(o.opt, 3, [0, 0] + Bytes8(size) + [0, 3]) + FrameBytes(o.opt, 1, [])
    else FrameBytes(o.opt, 2147483649, [])
  }

  ghost function AnswersBytes(os: seq<Opt>, size: nat, flags: nat): seq<byte> {
    if os == [] then [] else AnswerBytes(os[0], size, flags) + AnswersBytes(os[1..], size, flags)
  }

  // An option after which negotiation goes on: not EXPORT_NAME, ABORT or GO, nor LIST with data.
  ghost predicate Open(o: Opt) {
    o.opt != 1 && o.opt != 2 && o.opt != 7 && (o.opt == 3 ==> o.data == [])
  }

  lemma SmallFields()
    ensures BE(0, 2) == [0, 0] && BE(3, 2) == [0, 3]
  {
    Spelled([0, 0], 0);
    Spelled([0, 3], 3);
  }

  lemma Magics()
    ensures BE(CLIENT_OPT_MAGIC, 8) == [0x49, 0x48, 0x41, 0x56, 0x45, 0x4F, 0x50, 0x54]
    ensures BE(OPT_REPLY_MAGIC, 8) == [0x00, 0x03, 0xe8, 0x89, 0x04, 0x55, 0x65, 0xa9]
  {
    Spelled([0x49, 0x48, 0x41, 0x56, 0x45, 0x4F, 0x50, 0x54], CLIENT_OPT_MAGIC);
    Spelled([0x00, 0x03, 0xe8, 0x89, 0x04, 0x55, 0x65, 0xa9], OPT_REPLY_MAGIC);
  }

  lemma OptionLayout(o: Opt)
    ensures EncodeOpt(o) == OptionBytes(o)
  {
    Magics();
    FieldsAre(o.opt);
    FieldsAre(|o.data|);
  }

  lemma {:induction false} OptionsLayout(os: seq<Opt>)
    ensures EncodeOpts(os) == OptionsBytes(os)
    decreases |os|
  {
    if os != [] {
      OptionLayout(os[0]);
      OptionsLayout(os[1..]);
    }
  }

  lemma FrameLayout(f: Frame)
    ensures EncodeFrame(f) == FrameBytes(f.opt, f.rtype, f.data)
  {
    Magics();
    FieldsAre(f.opt);
    FieldsAre(f.rtype);
    FieldsAre(|f.data|);
  }

  lemma FramesLayout(a: Frame, b: Frame)
    ensures EncodeFrames([a]) == FrameBytes(a.opt, a.rtype, a.data)
    ensures EncodeFrames([a, b]) == FrameBytes(a.opt, a.rtype, a.data) + FrameBytes(b.opt, b.rtype, b.data)
  {
    FrameLayout(a);
    FrameLayout(b);
    assert EncodeFrames([]) == [] && EncodeFrames([b]) == EncodeFrame(b) + [];
    assert [a, b][1..] == [b];
  }

  lemma InfoLayout(size: nat)
    ensures InfoData(size) == [0, 0] + Bytes8(size) + [0, 3]
    ensures BE(size, 8) + BE(TRANSMISSION_FLAGS, 2) == Bytes8(size) + [0, 3]
  {
    FieldsAre(size);
    SmallFields();
  }

  lemma FramedLayout(o: Opt, size: nat)
    requires o.opt != 1
    ensures EncodeFrames(Frames(o, size)) == AnswerBytes(o, size, 0)
  {
    var ack := Frame(o.opt, REP_ACK, []);
    if o.opt == 6 || o.opt == 7 {
      InfoLayout(size);
      FramesLayout(Frame(o.opt, REP_INFO, InfoData(size)), ack);
    } else if o.opt == 3 {
      assert LISTED_NAME == NameBytes();
      FramesLayout(Frame(3, REP_SERVER, LISTED_NAME), ack);
    } else if o.opt == 2 {
      FramesLayout(ack, ack);
    } else {
      FramesLayout(Frame(o.opt, REP_ERR_UNSUP, []), ack);
    }
  }

  /**
   The answers in bytes: 6 and 7 are answered by an info frame with the size and the flags 3, and an acknowledgement; 1
   by the same without framing, and 124 zeros unless the client waived them; 2 is acknowledged; 3 is answered by the
   one name there is if it has no data, and by nothing if it has; every other option is not supported.
   */
  lemma AnswerLayout(o: Opt, size: nat, flags: nat)
    requires FlagsOk(flags)
    ensures Respond(o, size, flags) == AnswerBytes(o, size, flags)
  {
    if o.opt == 1 {
      InfoLayout(size);
    } else {
      FramedLayout(o, size);
    }
  }

  lemma {:induction false} AnswersLayout(os: seq<Opt>, size: nat, flags: nat)
    requires FlagsOk(flags)
    ensures RespondAll(os, size, flags) == AnswersBytes(os, size, flags)
    decreases |os|
  {
    if os != [] {
      AnswerLayout(os[0], size, flags);
      AnswersLayout(os[1..], size, flags);
    }
  }

  // ---- The handshake ----

  ghost predicate Fits(o: Opt) {
    o.opt < 4294967296 && |o.data| <= 100000
  }

  ghost predicate NoOption(s: seq<byte>) {
    forall o: Opt :: Fits(o) ==> !(OptionBytes(o) <= s)
  }

  // These options stand at the front of the stream, all but the last leave negotiation open, and if the last does too
  // (or there is none) no option follows.
  ghost predicate Negotiated(s: seq<byte>, os: seq<Opt>) {
    && OptionsBytes(os) <= s && (forall i :: 0 <= i < |os| ==> Fits(os[i]))
    && (forall i :: 0 <= i < |os| - 1 ==> Open(os[i]))
    && (os == [] || Open(os[|os| - 1]) ==> NoOption(s[|OptionsBytes(os)|..]))
  }

  lemma ParsesAs(s: seq<byte>, o: Opt)
    requires Fits(o) && OptionBytes(o) <= s
    ensures ParseOpt(s) == Some(o) && |OptionBytes(o)| == 16 + |o.data|
  {
    OptionLayout(o);
    OptRoundTrip(o, s[|OptionBytes(o)|..]);
    assert s == OptionBytes(o) + s[|OptionBytes(o)|..];
  }

  lemma ParsedOpt(s: seq<byte>)
    requires ParseOpt(s).Some?
    ensures OptFits(ParseOpt(s).value) && EncodeOpt(ParseOpt(s).value) <= s
  {
    var n := |ParseOpt(s).value.data|;
    Powers();
    FieldBytes(s[..8]);
    FieldBytes(s[8..12]);
    FieldBytes(s[12..16]);
    Joined(s, 8, 12, 16, 16 + n);
  }

  lemma Joined(s: seq<byte>, i: nat, j: nat, k: nat, l: nat)
    requires i <= j <= k <= l <= |s|
    ensures s[..i] + s[i..j] + s[j..k] + s[k..l] == s[..l] && s[..l] <= s
  {
  }

  lemma ParsedBytes(s: seq<byte>)
    requires ParseOpt(s).Some?
    ensures Fits(ParseOpt(s).value) && OptionBytes(ParseOpt(s).value) <= s
  {
    ParsedOpt(s);
    OptionLayout(ParseOpt(s).value);
  }

  lemma NothingParsed(s: seq<byte>)
    ensures ParseOpt(s).None? <==> NoOption(s)
  {
    forall o: Opt | Fits(o) && OptionBytes(o) <= s ensures ParseOpt(s).Some? {
      ParsesAs(s, o);
    }
    if ParseOpt(s).Some? {
      ParsedBytes(s);
    }
  }

  lemma NegotiatedCons(s: seq<byte>, o: Opt, os: seq<Opt>)
    requires Fits(o) && OptionBytes(o) <= s && Open(o)
    ensures Negotiated(s, [o] + os) <==> Negotiated(s[|OptionBytes(o)|..], os)
  {
    var all, rest := [o] + os, s[|OptionBytes(o)|..];
    assert all[1..] == os && OptionsBytes(all) == OptionBytes(o) + OptionsBytes(os);
    assert s == OptionBytes(o) + rest;
    assert OptionsBytes(all) <= s <==> OptionsBytes(os) <= rest by {
      PrefixBehind(OptionBytes(o), OptionsBytes(os), rest);
    }
    if OptionsBytes(os) <= rest {
      assert s[|OptionsBytes(all)|..] == rest[|OptionsBytes(os)|..];
    }
    if forall i :: 0 <= i < |all| ==> Fits(all[i]) {
      assert forall i :: 0 <= i < |os| ==> os[i] == all[i + 1];
    }
    if forall i :: 0 <= i < |all| - 1 ==> Open(all[i]) {
      assert forall i :: 0 <= i < |os| - 1 ==> os[i] == all[i + 1];
    }
  }

  lemma PrefixBehind(a: seq<byte>, b: seq<byte>, rest: seq<byte>)
    ensures a + b <= a + rest <==> b <= rest
  {
    if a + b <= a + rest {
      assert (a + b)[|a|..] == b && (a + rest)[|a|..] == rest;
      assert forall i :: 0 <= i < |b| ==> (a + b)[|a| + i] == b[i] && (a + rest)[|a| + i] == rest[i];
    }
  }

  /** The options that the server finds on a stream are those that stand there in bytes. */
  lemma {:induction false} OptionsFound(s: seq<byte>, os: seq<Opt>)
    ensures Negotiated(s, os) <==> os == OptsIn(s)
    decreases |s|
  {
    NothingParsed(s);
    match ParseOpt(s) {
      case None =>
        if os != [] && Negotiated(s, os) {
          FirstOption(s, os);
        }
        assert Negotiated(s, []);
      case Some(o) =>
        ParsedBytes(s);
        ParsesAs(s, o);
        OptionsFoundAt(s, o, os);
    }
  }

  lemma FirstOption(s: seq<byte>, os: seq<Opt>)
    requires os != [] && Negotiated(s, os)
    ensures OptionBytes(os[0]) <= s && ParseOpt(s) == Some(os[0])
  {
    assert OptionsBytes(os) == OptionBytes(os[0]) + OptionsBytes(os[1..]);
    ParsesAs(s, os[0]);
  }

  lemma {:induction false} OptionsFoundAt(s: seq<byte>, o: Opt, os: seq<Opt>)
    requires ParseOpt(s) == Some(o) && Fits(o) && OptionBytes(o) <= s && |OptionBytes(o)| == 16 + |o.data|
    ensures Negotiated(s, os) <==> os == OptsIn(s)
    decreases |s|, 0
  {
    if Negotiated(s, os) && os != [] {
      FirstOption(s, os);
    }
    if Open(o) {
      var rest := s[16 + |o.data|..];
      OptionsFound(rest, OptsIn(rest));
      NegotiatedCons(s, o, OptsIn(rest));
      if os != [] && os[0] == o {
        OptionsFound(rest, os[1..]);
        NegotiatedCons(s, o, os[1..]);
        HeadTail(os);
      }
    } else {
      assert OptionsBytes([o]) == OptionBytes(o) + [];
      assert Negotiated(s, [o]);
      if Negotiated(s, os) && os != [] {
        assert !Open(os[0]);
      }
    }
    if os == [] {
      NothingParsed(s);
      assert s[0..] == s;
    }
  }

  lemma FlagsBytes(s: seq<byte>)
    requires |s| == 4
    ensures FlagsOk(FromBE(s)) <==> s == [0, 0, 0, 1] || s == [0, 0, 0, 3]
    ensures FromBE(s) == 1 <==> s == [0, 0, 0, 1]
    ensures FromBE(s) == 3 <==> s == [0, 0, 0, 3]
  {
    FieldsRead(s);
  }

  // What the client is sent first: NBDMAGIC, IHAVEOPT and the flags 3.
  ghost function GreetingBytes(): seq<byte> {
    [0x4E, 0x42, 0x44, 0x4D, 0x41, 0x47, 0x49, 0x43, 0x49, 0x48, 0x41, 0x56, 0x45, 0x4F, 0x50, 0x54, 0, 3]
  }

  // How a connection has begun: flags 1 or 3 and then options, each answered; accepted if the last one is 1 or 7.
  // Without such flags there is nothing but the greeting, and without acceptance nothing but the answers.
  ghost predicate Begun(input: seq<byte>, size: nat, accepted: bool, out: seq<byte>) {
    if |input| >= 4 && (input[..4] == [0, 0, 0, 1] || input[..4] == [0, 0, 0, 3]) then
      exists os :: Negotiated(input[4..], os) && BegunWith(os, size, input[3] as nat, accepted, out)
    else !accepted && out == GreetingBytes()
  }

  ghost predicate BegunWith(os: seq<Opt>, size: nat, flags: nat, accepted: bool, out: seq<byte>) {
    var hello := GreetingBytes() + AnswersBytes(os, size, flags);
    && (accepted <==> os != [] && (os[|os| - 1].opt == 1 || os[|os| - 1].opt == 7))
    && hello <= out && (!accepted ==> out == hello)
  }

  lemma GreetingLayout()
    ensures Greeting() == GreetingBytes()
  {
    Magics();
    SmallFields();
  }

  /** A handshake in terms of the options found has begun so in bytes. */
  lemma BegunInBytes(input: seq<byte>, size: nat, accepted: bool, out: seq<byte>)
    requires var ok := |input| >= 4 && FlagsOk(FromBE(input[..4]));
             var os := if ok then OptsIn(input[4..]) else [];
             var hello := Greeting() + if ok then RespondAll(os, size, FromBE(input[..4])) else [];
             && (accepted <==> ok && Accepted(os)) && hello <= out && (!accepted ==> out == hello)
    ensures Begun(input, size, accepted, out)
  {
    GreetingLayout();
    if |input| >= 4 {
      var flags := input[..4];
      FlagsBytes(flags);
      if FlagsOk(FromBE(flags)) {
        var os := OptsIn(input[4..]);
        assert flags[3] == input[3];
        OptionsFound(input[4..], os);
        AnswersLayout(os, size, FromBE(flags));
        assert BegunWith(os, size, input[3] as nat, accepted, out);
      }
    }
  }
}
