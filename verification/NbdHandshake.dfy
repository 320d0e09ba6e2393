/**
 Fixed newstyle negotiation: `handshake` and the option reply encoders of
 diskimage-nbd/src/nbd_protocol.rs.
 */
module NbdHandshake {
  import opened Basics
  import opened NbdWire
  import opened NbdServer

  const SERVER_MAGIC: seq<byte> := [0x4E, 0x42, 0x44, 0x4D, 0x41, 0x47, 0x49, 0x43]  // NBDMAGIC
  const CLIENT_OPT_MAGIC: nat := 0x4948_4156_454F_5054                              // IHAVEOPT
  const OPT_REPLY_MAGIC: nat := 0x0003_e889_0455_65a9

  const OPT_EXPORT_NAME: nat := 1
  const OPT_ABORT: nat := 2
  const OPT_LIST: nat := 3
  const OPT_INFO: nat := 6
  const OPT_GO: nat := 7

  const REP_ACK: nat := 1
  const REP_SERVER: nat := 2
  const REP_INFO: nat := 3
  const REP_ERR_UNSUP: nat := 0x8000_0001

  const MAX_OPT_LENGTH: nat := 100_000
  const FLAG_C_FIXED_NEWSTYLE: nat := 1
  const FLAG_C_NO_ZEROES: nat := 2
  const TRANSMISSION_FLAGS: nat := 3  // HAS_FLAGS | READ_ONLY

  // The length-prefixed export name "diskimage-nbd".
  const LISTED_NAME: seq<byte> :=
    [0, 0, 0, 0x0d, 0x64, 0x69, 0x73, 0x6b, 0x69, 0x6d, 0x61, 0x67, 0x65, 0x2d, 0x6e, 0x62, 0x64]

  // ---- Client options ----

  datatype Opt = Opt(opt: nat, data: seq<byte>)

  ghost predicate OptFits(o: Opt) {
    o.opt < 0x1_0000_0000 && |o.data| <= MAX_OPT_LENGTH
  }

  function EncodeOpt(o: Opt): seq<byte> {
    BE(CLIENT_OPT_MAGIC, 8) + BE(o.opt, 4) + BE(|o.data|, 4) + o.data
  }

  function ParseOpt(s: seq<byte>): (r: Option<Opt>)
    ensures r.Some? ==> 16 + |r.value.data| <= |s|
  {
    if |s| < 16 || FromBE(s[..8]) != CLIENT_OPT_MAGIC then None
    else
      var n := FromBE(s[12..16]);
      if n > MAX_OPT_LENGTH || |s| < 16 + n then None else Some(Opt(FromBE(s[8..12]), s[16..16 + n]))
  }

  lemma PartsOpt(a: seq<byte>, b: seq<byte>, c: seq<byte>, d: seq<byte>, e: seq<byte>)
    requires |a| == 8 && |b| == 4 && |c| == 4
    ensures var s := a + b + c + d + e;
            s[..8] == a && s[8..12] == b && s[12..16] == c && s[16..16 + |d|] == d && s[16 + |d|..] == e
  {
    Parts3(a, b, c);
    Parts3(a + b + c, d, e);
    var s := a + b + c + d + e;
    assert s[..16] == a + b + c;
    assert s[..8] == s[..16][..8] && s[8..12] == s[..16][8..12] && s[12..16] == s[..16][12..16];
  }

  /** Parsing an option undoes encoding it, whatever follows. */
  lemma OptRoundTrip(o: Opt, rest: seq<byte>)
    requires OptFits(o)
    ensures ParseOpt(EncodeOpt(o) + rest) == Some(o)
    ensures |EncodeOpt(o)| == 16 + |o.data|
  {
    Powers();
    PartsOpt(BE(CLIENT_OPT_MAGIC, 8), BE(o.opt, 4), BE(|o.data|, 4), o.data, rest);
    FieldRoundTrip(CLIENT_OPT_MAGIC, 8);
    FieldRoundTrip(o.opt, 4);
    FieldRoundTrip(|o.data|, 4);
  }

  // ---- Option replies ----

  datatype Frame = Frame(opt: nat, rtype: nat, data: seq<byte>)

  function EncodeFrame(f: Frame): seq<byte> {
    BE(OPT_REPLY_MAGIC, 8) + BE(f.opt, 4) + BE(f.rtype, 4) + BE(|f.data|, 4) + f.data
  }

  function EncodeFrames(fs: seq<Frame>): seq<byte> {
    if fs == [] then [] else EncodeFrame(fs[0]) + EncodeFrames(fs[1..])
  }

  datatype Verdict = Continue | Accept | Refuse

  function Judge(o: Opt): Verdict {
    if o.opt == OPT_EXPORT_NAME || o.opt == OPT_GO then Accept
    else if o.opt == OPT_ABORT || (o.opt == OPT_LIST && o.data != []) then Refuse
    else Continue
  }

  function InfoData(size: nat): seq<byte> {
    BE(0, 2) + BE(size, 8) + BE(TRANSMISSION_FLAGS, 2)
  }

  // The frames that answer an option. EXPORT_NAME is answered without framing.
  function Frames(o: Opt, size: nat): seq<Frame> {
    if o.opt == OPT_EXPORT_NAME || (o.opt == OPT_LIST && o.data != []) then []
    else if o.opt == OPT_ABORT then [Frame(o.opt, REP_ACK, [])]
    else if o.opt == OPT_LIST then [Frame(o.opt, REP_SERVER, LISTED_NAME), Frame(o.opt, REP_ACK, [])]
    else if o.opt == OPT_GO || o.opt == OPT_INFO then
      [Frame(o.opt, REP_INFO, InfoData(size)), Frame(o.opt, REP_ACK, [])]
    else [Frame(o.opt, REP_ERR_UNSUP, [])]
  }

  function Respond(o: Opt, size: nat, clientFlags: nat): seq<byte> {
    if o.opt == OPT_EXPORT_NAME then
      BE(size, 8) + BE(TRANSMISSION_FLAGS, 2)
      + (if clientFlags == FLAG_C_FIXED_NEWSTYLE then Zeroes(124) else [])
    else EncodeFrames(Frames(o, size))
  }

  // The last frame of an answer: an acknowledgement or an error.
  predicate Final(f: Frame) {
    f.rtype == REP_ACK || f.rtype >= 0x8000_0000
  }

  // A client reading the answer to one option: frames up to the final one.
  function ReadAnswer(s: seq<byte>): Option<(seq<Frame>, seq<byte>)>
    decreases |s|
  {
    if |s| < 20 || FromBE(s[..8]) != OPT_REPLY_MAGIC || |s| < 20 + FromBE(s[16..20]) then None
    else
      var n := FromBE(s[16..20]);
      var f := Frame(FromBE(s[8..12]), FromBE(s[12..16]), s[20..20 + n]);
      if Final(f) then Some(([f], s[20 + n..]))
      else match ReadAnswer(s[20 + n..])
        case None => None
        case Some((fs, rest)) => Some(([f] + fs, rest))
  }

  lemma ReadFrame(f: Frame, rest: seq<byte>)
    requires f.opt < 0x1_0000_0000 && f.rtype < 0x1_0000_0000 && |f.data| < 0x1_0000_0000
    ensures var s := EncodeFrame(f) + rest;
            && |s| >= 20 + |f.data| && FromBE(s[..8]) == OPT_REPLY_MAGIC && FromBE(s[8..12]) == f.opt
            && FromBE(s[12..16]) == f.rtype && FromBE(s[16..20]) == |f.data|
            && s[20..20 + |f.data|] == f.data && s[20 + |f.data|..] == rest
  {
    Powers();
    Parts6(BE(OPT_REPLY_MAGIC, 8), BE(f.opt, 4), BE(f.rtype, 4), BE(|f.data|, 4), f.data, rest);
    FieldRoundTrip(OPT_REPLY_MAGIC, 8);
    FieldRoundTrip(f.opt, 4);
    FieldRoundTrip(f.rtype, 4);
    FieldRoundTrip(|f.data|, 4);
  }

  // A whole answer: frames that fit, of which exactly the last is final.
  ghost predicate IsAnswer(fs: seq<Frame>) {
    && fs != [] && Final(fs[|fs| - 1])
    && (forall i :: 0 <= i < |fs| - 1 ==> !Final(fs[i]))
    && forall i :: 0 <= i < |fs| ==> FrameFits(fs[i])
  }

  ghost predicate FrameFits(f: Frame) {
    f.opt < 0x1_0000_0000 && f.rtype < 0x1_0000_0000 && |f.data| < 0x1_0000_0000
  }

  lemma ReadAnswerFirst(f: Frame, tail: seq<byte>)
    requires FrameFits(f)
    ensures ReadAnswer(EncodeFrame(f) + tail) ==
            if Final(f) then Some(([f], tail))
            else match ReadAnswer(tail)
                 case None => None
                 case Some((fs, rest)) => Some(([f] + fs, rest))
  {
    ReadFrame(f, tail);
  }

  lemma {:induction false} AnswerRoundTrip(fs: seq<Frame>, rest: seq<byte>)
    requires IsAnswer(fs)
    ensures ReadAnswer(EncodeFrames(fs) + rest) == Some((fs, rest))
    decreases |fs|
  {
    Assoc(EncodeFrame(fs[0]), EncodeFrames(fs[1..]), rest);
    HeadTail(fs);
    assert FrameFits(fs[0]);
    ReadAnswerFirst(fs[0], EncodeFrames(fs[1..]) + rest);
    if |fs| == 1 {
      assert fs[1..] == [] && fs == [fs[0]];
      NilLeft(rest);
    } else {
      assert IsAnswer(fs[1..]);
      AnswerRoundTrip(fs[1..], rest);
    }
  }

  /** Every framed answer reads back whole, each frame echoing the option it answers. */
  lemma OptionAnswered(o: Opt, size: nat, clientFlags: nat, rest: seq<byte>)
    requires OptFits(o) && o.opt != OPT_EXPORT_NAME && !(o.opt == OPT_LIST && o.data != [])
    ensures ReadAnswer(Respond(o, size, clientFlags) + rest) == Some((Frames(o, size), rest))
    ensures forall i :: 0 <= i < |Frames(o, size)| ==> Frames(o, size)[i].opt == o.opt
  {
    assert |InfoData(size)| == 12 && |LISTED_NAME| == 17;
    assert forall i :: 0 <= i < |Frames(o, size)| ==> FrameFits(Frames(o, size)[i]);
    AnswerRoundTrip(Frames(o, size), rest);
  }

  // ---- The negotiation loop ----

  // The options a stream holds, up to the first that settles the matter.
  function OptsIn(s: seq<byte>): seq<Opt>
    decreases |s|
  {
    match ParseOpt(s)
    case None => []
    case Some(o) => if Judge(o).Continue? then [o] + OptsIn(s[16 + |o.data|..]) else [o]
  }

  function RespondAll(os: seq<Opt>, size: nat, clientFlags: nat): seq<byte> {
    if os == [] then [] else Respond(os[0], size, clientFlags) + RespondAll(os[1..], size, clientFlags)
  }

  ghost predicate Accepted(os: seq<Opt>) {
    os != [] && Judge(os[|os| - 1]).Accept?
  }

  function Greeting(): seq<byte> {
    SERVER_MAGIC + BE(CLIENT_OPT_MAGIC, 8) + BE(3, 2)
  }

  predicate FlagsOk(flags: nat) {
    flags == FLAG_C_FIXED_NEWSTYLE || flags == FLAG_C_FIXED_NEWSTYLE + FLAG_C_NO_ZEROES
  }

  function EncodeOpts(os: seq<Opt>): seq<byte> {
    if os == [] then [] else EncodeOpt(os[0]) + EncodeOpts(os[1..])
  }

  // How many bytes of the stream the options take up.
  function OptsLength(os: seq<Opt>): nat {
    if os == [] then 0 else OptsLength(os[..|os| - 1]) + 16 + |os[|os| - 1].data|
  }

  // Options that negotiate until the last one settles the matter.
  ghost predicate Settles(os: seq<Opt>) {
    && os != [] && !Judge(os[|os| - 1]).Continue?
    && forall i :: 0 <= i < |os| ==> OptFits(os[i]) && (i < |os| - 1 ==> Judge(os[i]).Continue?)
  }

  /** Options sent in order are the options found, and they take up exactly their bytes. */
  lemma {:induction false} OptsRoundTrip(os: seq<Opt>, rest: seq<byte>)
    requires Settles(os)
    ensures OptsIn(EncodeOpts(os) + rest) == os
    decreases |os|
  {
    var tail := EncodeOpts(os[1..]) + rest;
    OptRoundTrip(os[0], tail);
    Assoc(EncodeOpt(os[0]), EncodeOpts(os[1..]), rest);
    HeadTail(os);
    if |os| > 1 {
      OptsRoundTrip(os[1..], rest);
      assert (EncodeOpt(os[0]) + tail)[16 + |os[0].data|..] == tail;
    }
  }

  lemma {:induction false} OptsLengthCons(o: Opt, os: seq<Opt>)
    ensures OptsLength([o] + os) == 16 + |o.data| + OptsLength(os)
    decreases |os|
  {
    if os != [] {
      OptsLengthCons(o, os[..|os| - 1]);
      assert ([o] + os)[..|os|] == [o] + os[..|os| - 1];
    } else {
      assert [o] + os == [o] && [o][..0] == [];
    }
  }

  lemma {:induction false} OptsLengthIs(os: seq<Opt>)
    requires forall i :: 0 <= i < |os| ==> OptFits(os[i])
    ensures |EncodeOpts(os)| == OptsLength(os)
    decreases |os|
  {
    if os != [] {
      OptsLengthIs(os[1..]);
      OptRoundTrip(os[0], []);
      OptsLengthCons(os[0], os[1..]);
      HeadTail(os);
    }
  }

  lemma RespondAllSnoc(os: seq<Opt>, o: Opt, size: nat, flags: nat)
    ensures RespondAll(os + [o], size, flags) == RespondAll(os, size, flags) + Respond(o, size, flags)
  {
    if os == [] {
      assert os + [o] == [o];
    } else {
      assert (os + [o])[1..] == os[1..] + [o];
      RespondAllSnoc(os[1..], o, size, flags);
      Assoc(Respond(os[0], size, flags), RespondAll(os[1..], size, flags), Respond(o, size, flags));
    }
  }

  // What one more option adds to the options found and to the answers given.
  lemma OptsStep(s: seq<byte>, o: Opt, os: seq<Opt>, size: nat, flags: nat, out0: seq<byte>)
    requires ParseOpt(s) == Some(o)
    ensures os + OptsIn(s) == (os + [o]) + if Judge(o).Continue? then OptsIn(s[16 + |o.data|..]) else []
    ensures out0 + RespondAll(os + [o], size, flags) == out0 + RespondAll(os, size, flags) + Respond(o, size, flags)
  {
    RespondAllSnoc(os, o, size, flags);
    Assoc(out0, RespondAll(os, size, flags), Respond(o, size, flags));
    Assoc(os, [o], if Judge(o).Continue? then OptsIn(s[16 + |o.data|..]) else []);
  }

  // Read one option off the stream.
  method TakeOpt(st: Stream) returns (r: Option<Opt>)
    requires st.Ok()
    modifies st`pos
    ensures st.Ok() && r == ParseOpt(old(st.Unread()))
    ensures r.Some? ==>
              st.Unread() == old(st.Unread())[16 + |r.value.data|..] && st.pos == old(st.pos) + 16 + |r.value.data|
  {
    ghost var s := st.Unread();
    var magic := st.ReadExact(8);
    if magic.None? || FromBE(magic.value) != CLIENT_OPT_MAGIC {
      return None;
    }
    var opt := st.ReadExact(4);
    if opt.None? {
      return None;
    }
    var len := st.ReadExact(4);
    assert len.Some? ==> s[12..16] == len.value;
    if len.None? || FromBE(len.value) > MAX_OPT_LENGTH {
      return None;
    }
    assert s[8..12] == opt.value;
    var data := st.ReadExact(FromBE(len.value));
    if data.None? {
      return None;
    }
    assert s[16..16 + |data.value|] == data.value;
    r := Some(Opt(FromBE(opt.value), data.value));
  }

  // Between two options: those read so far are answered and leave the matter open.
  ghost predicate Negotiating(unread0: seq<byte>, out0: seq<byte>, pos0: nat, size: nat, flags: nat, os: seq<Opt>,
                              unread: seq<byte>, out: seq<byte>, pos: nat)
  {
    && OptsIn(unread0) == os + OptsIn(unread) && (forall i :: 0 <= i < |os| ==> Judge(os[i]).Continue?)
    && out == out0 + RespondAll(os, size, flags) && pos == pos0 + OptsLength(os)
  }

  lemma {:induction false} NextOpt(unread0: seq<byte>, out0: seq<byte>, pos0: nat, size: nat, flags: nat, os: seq<Opt>,
                                   unread: seq<byte>, out: seq<byte>, pos: nat, o: Opt)
    requires Negotiating(unread0, out0, pos0, size, flags, os, unread, out, pos) && ParseOpt(unread) == Some(o)
    ensures out + Respond(o, size, flags) == out0 + RespondAll(os + [o], size, flags)
    ensures pos + 16 + |o.data| == pos0 + OptsLength(os + [o])
    ensures Judge(o).Continue? ==>
              Negotiating(unread0, out0, pos0, size, flags, os + [o],
                          unread[16 + |o.data|..], out + Respond(o, size, flags), pos + 16 + |o.data|)
    ensures !Judge(o).Continue? ==> OptsIn(unread0) == os + [o]
  {
    OptsStep(unread, o, os, size, flags, out0);
    assert (os + [o])[..|os|] == os;
  }

  // One option read and answered; nothing if the stream holds no further option.
  method AnswerOpt(st: Stream, size: nat, flags: nat, ghost unread0: seq<byte>, ghost out0: seq<byte>, ghost pos0: nat,
                   ghost os: seq<Opt>)
    returns (r: Option<Opt>)
    requires st.Ok() && Negotiating(unread0, out0, pos0, size, flags, os, st.Unread(), st.out, st.pos)
    modifies st
    ensures st.Ok()
    ensures r.None? ==> OptsIn(unread0) == os && st.out == out0 + RespondAll(os, size, flags)
    ensures r.Some? && Judge(r.value).Continue? ==>
              && Negotiating(unread0, out0, pos0, size, flags, os + [r.value], st.Unread(), st.out, st.pos)
              && old(st.pos) < st.pos
    ensures r.Some? && !Judge(r.value).Continue? ==>
              && OptsIn(unread0) == os + [r.value] && st.out == out0 + RespondAll(os + [r.value], size, flags)
              && st.pos == pos0 + OptsLength(os + [r.value])
  {
    ghost var before, out1, pos1 := st.Unread(), st.out, st.pos;
    r := TakeOpt(st);
    if r.Some? {
      NextOpt(unread0, out0, pos0, size, flags, os, before, out1, pos1, r.value);
      st.WriteAll(Respond(r.value, size, flags));
    }
  }

  // The negotiation loop.
  method Negotiate(st: Stream, size: nat, flags: nat) returns (ok: bool, ghost os: seq<Opt>)
    requires st.Ok()
    modifies st
    ensures st.Ok() && os == OptsIn(old(st.Unread())) && (ok <==> Accepted(os))
    ensures st.out == old(st.out) + RespondAll(os, size, flags) && (ok ==> st.pos == old(st.pos) + OptsLength(os))
  {
    os := [];
    ghost var unread0, out0, pos0 := st.Unread(), st.out, st.pos;
    while true
      invariant st.Ok() && Negotiating(unread0, out0, pos0, size, flags, os, st.Unread(), st.out, st.pos)
      decreases |st.input| - st.pos
    {
      var o := AnswerOpt(st, size, flags, unread0, out0, pos0, os);
      if o.None? {
        return false, os;
      }
      os := os + [o.value];
      match Judge(o.value) {
        case Continue =>
        case Accept => return true, os;
        case Refuse => return false, os;
      }
    }
  }

  /** `handshake` */
  method Handshake(st: Stream, size: nat) returns (ok: bool, ghost flags: nat, ghost os: seq<Opt>)
    requires st.Ok()
    modifies st
    ensures st.Ok()
    ensures ok <==> && |old(st.Unread())| >= 4 && FlagsOk(FromBE(old(st.Unread())[..4]))
                    && Accepted(OptsIn(old(st.Unread())[4..]))
    ensures |old(st.Unread())| >= 4 && FlagsOk(FromBE(old(st.Unread())[..4])) ==>
              && flags == FromBE(old(st.Unread())[..4]) && os == OptsIn(old(st.Unread())[4..])
    ensures !(|old(st.Unread())| >= 4 && FlagsOk(FromBE(old(st.Unread())[..4]))) ==> os == []
    ensures st.out == old(st.out) + Greeting() + RespondAll(os, size, flags)
    ensures ok ==> st.pos == old(st.pos) + 4 + OptsLength(os)
  {
    ghost var unread := st.Unread();
    flags, os := 0, [];
    st.WriteAll(Greeting());
    var f := st.ReadExact(4);
    if f.None? || !FlagsOk(FromBE(f.value)) {
      return false, flags, os;
    }
    flags := FromBE(f.value);
    assert unread[4..] == st.Unread();
    ok, os := Negotiate(st, size, FromBE(f.value));
  }
}
