/** The transport seen from outside (driver/apdu/at.c): the logical channel
    held in `logic_channel` and a modem that answers from a script of reads
    and keeps a log of what it was sent. Every operation is a function from
    the session before to its outcome and the session after; the class in
    driver.dfy is proved to compute exactly these. */
module Protocol {
  import opened Wire
  import opened Scanner
  import opened Commands

  /** `USE_AT_CSIM 1` selects `Csim`; `USE_AT_CSIM 0` the three-command
      dialect (+CCHO, +CCHC, +CGLA). */
  datatype Dialect = Csim | Cgla

  /** `logic_channel`, the reads the modem still has to deliver, and every
      character written to it so far. */
  datatype Session = Session(channel: int, pending: seq<string>, written: string)

  /** The return value of a transmit and what it leaves in `*rx`/`*rx_len`. */
  datatype Exchange = Exchange(fret: int, rx: seq<byte>)

  /** Every failure path: -1, `*rx == NULL`, `*rx_len == 0`. */
  const Failed: Exchange := Exchange(-1, [])

  // ---------------------------------------------------------------------
  // Transmit (`apdu_interface_transmit_atcsim`, `apdu_interface_transmit`).

  function TransmitTag(d: Dialect): string {
    if d == Csim then CsimTag else CglaTag
  }

  function TransmitCommand(d: Dialect, channel: int, tx: seq<byte>): string {
    if d == Csim then CsimCommand(tx) else CglaCommand(channel, tx)
  }

  /** What the transmit makes of the value `at_expect` returned: a failure
      unless the scan ended in OK with a tagged line whose field decodes. */
  function ReplyExchange(reply: Reply): (e: Exchange)
    ensures e.fret == 0 || e == Failed
    ensures e.fret == 0 <==>
      reply.code == 0 && reply.response.Some? && ParsePayload(reply.response.value).Some?
    ensures e.fret == 0 ==> e.rx == ParsePayload(reply.response.value).value
  {
    if reply.code != 0 || reply.response.None? then Failed
    else match ParsePayload(reply.response.value)
      case None => Failed
      case Some(rx) => Exchange(0, rx)
  }

  /** One transmit. With no channel it fails at once and sends nothing;
      with any other channel, -1 included, the command goes out and the
      reply is scanned for the dialect's tag. */
  function Transmit(d: Dialect, s: Session, tx: seq<byte>): (r: (Run<Exchange>, Session))
    ensures r.1.channel == s.channel
    ensures s.channel == 0 ==> r == (Returns(Failed), s)
    ensures s.channel != 0 ==>
      r.1.written == s.written + TransmitCommand(d, s.channel, tx)
      && r.1.pending == Expect(s.pending, Some(TransmitTag(d))).1
    ensures r.0.Returns? ==> r.0.value.fret == 0 || r.0.value == Failed
    ensures r.0.Returns? && r.0.value.fret == 0 ==> |r.1.pending| < |s.pending|
  {
    if s.channel == 0 then (Returns(Failed), s)
    else
      var (run, rest) := Expect(s.pending, Some(TransmitTag(d)));
      var t := Session(s.channel, rest, s.written + TransmitCommand(d, s.channel, tx));
      match run
      case Blocks => (Blocks, t)
      case Returns(reply) => (Returns(ReplyExchange(reply)), t)
  }

  /** What a modem answers to an APDU: the tag, the length of the hex text,
      the hex text in quotes, then OK, all in one read. */
  function Answer(tag: string, data: seq<byte>): string {
    CrLfLines([tag + FormatPayload(Decimal(2 * |data|), data), "OK"])
  }

  /** A modem that answers in one read hands the transmitted APDU's reply
      bytes back unchanged. */
  lemma TransmitReturnsAnswer(d: Dialect, s: Session, tx: seq<byte>, data: seq<byte>, rest: seq<string>)
    requires s.channel != 0
    requires s.pending == [Answer(TransmitTag(d), data)] + rest
    ensures Transmit(d, s, tx)
         == (Returns(Exchange(0, data)), Session(s.channel, rest, s.written + TransmitCommand(d, s.channel, tx)))
  {
    var tag := TransmitTag(d);
    var ident := Decimal(2 * |data|);
    var payload := FormatPayload(ident, data);
    AnswerLineClean(tag, ident, data);
    TaggedReplyInOneRead(tag, payload, rest);
    assert ident != [] && ',' !in ident by {
      forall i | 0 <= i < |ident| ensures ident[i] != ',' {
        assert IsDigit(ident[i]);
      }
    }
    ParsePayloadRoundTrip(ident, data);
  }

  /** The tagged answer line has no line break, no NUL, no ERROR and is
      not OK. */
  lemma AnswerLineClean(tag: string, ident: string, data: seq<byte>)
    requires tag == CsimTag || tag == CglaTag || tag == CchoTag
    requires forall i :: 0 <= i < |ident| ==> IsDigit(ident[i])
    ensures var line := tag + FormatPayload(ident, data);
      tag != [] && NoDelim(line) && NUL !in line && 'R' !in line
      && !Contains(line, "ERROR") && line != "OK"
  {
    var hex := HexEncode(data);
    var line := tag + FormatPayload(ident, data);
    assert line == tag + ident + ",\"" + hex + "\"";
    HexEncodeUpper(data);
    forall i | 0 <= i < |line|
      ensures !IsDelim(line[i]) && line[i] != NUL && line[i] != 'R'
    {
      if i < |tag| {
        assert line[i] == tag[i];
      } else if i < |tag| + |ident| {
        assert line[i] == ident[i - |tag|];
        assert IsDigit(ident[i - |tag|]);
      } else if |tag| + |ident| + 2 <= i < |line| - 1 {
        assert line[i] == hex[i - |tag| - |ident| - 2];
        assert IsUpperHex(hex[i - |tag| - |ident| - 2]);
      }
    }
    NoRNoError(line);
    assert line[0] == '+';
  }

  /** An ERROR reply makes the transmit fail. */
  lemma TransmitErrorFails(d: Dialect, s: Session, tx: seq<byte>, rest: seq<string>)
    requires s.channel != 0
    requires s.pending == [ErrorRead] + rest
    ensures Transmit(d, s, tx)
         == (Returns(Failed), Session(s.channel, rest, s.written + TransmitCommand(d, s.channel, tx)))
  {
    ExpectError(rest, Some(TransmitTag(d)));
  }

  const OkRead: string := "OK\r\n"
  const ErrorRead: string := "ERROR\r\n"

  /** A read holding just OK ends the scan with 0 and no response. */
  lemma ExpectOk(rest: seq<string>, expected: Option<string>)
    ensures Expect([OkRead] + rest, expected) == (Returns(Reply(0, None)), rest)
  {
    var ok: string := "OK";
    assert OkRead == CrLfLines([ok]);
    SegmentsOfCrLfLines([ok]);
    CStrNoNul(OkRead);
    NoRNoError(ok);
  }

  /** A read holding just ERROR ends the scan with -1 and no response. */
  lemma ExpectError(rest: seq<string>, expected: Option<string>)
    ensures Expect([ErrorRead] + rest, expected) == (Returns(Reply(-1, None)), rest)
  {
    var e: string := "ERROR";
    assert ErrorRead == CrLfLines([e]);
    SegmentsOfCrLfLines([e]);
    CStrNoNul(ErrorRead);
    assert Contains(e, "ERROR");
  }

  /** OK without a tagged line before it leaves no response: the transmit
      fails. */
  lemma TransmitOkWithoutDataFails(d: Dialect, s: Session, tx: seq<byte>, rest: seq<string>)
    requires s.channel != 0
    requires s.pending == [OkRead] + rest
    ensures Transmit(d, s, tx)
         == (Returns(Failed), Session(s.channel, rest, s.written + TransmitCommand(d, s.channel, tx)))
  {
    ExpectOk(rest, Some(TransmitTag(d)));
  }

  /** The command line of the three-command dialect carries the current
      logical channel, whatever it is, and the APDU. */
  lemma CglaTransmitCarriesChannel(s: Session, tx: seq<byte>)
    requires s.channel != 0 && |tx| < 0x8000_0000
    ensures var t := Transmit(Cgla, s, tx).1;
      |s.written| <= |t.written|
      && ReadCglaCommand(t.written[|s.written|..]) == Some((s.channel, 2 * |tx|, tx))
  {
    var t := Transmit(Cgla, s, tx).1;
    assert t.written[|s.written|..] == CglaCommand(s.channel, tx);
    CglaCommandRoundTrip(s.channel, tx);
  }

  /** The +CSIM line carries the APDU and its hex length. */
  lemma CsimTransmitCarriesApdu(s: Session, tx: seq<byte>)
    requires s.channel != 0 && |tx| < 0x8000_0000
    ensures var t := Transmit(Csim, s, tx).1;
      |s.written| <= |t.written|
      && ReadCsimCommand(t.written[|s.written|..]) == Some((2 * |tx|, tx))
  {
    var t := Transmit(Csim, s, tx).1;
    assert t.written[|s.written|..] == CsimCommand(tx);
    CsimCommandRoundTrip(tx);
  }

  // ---------------------------------------------------------------------
  // Status words and the APDUs of the channel open.

  datatype Sw = Sw(sw1: byte, sw2: byte)

  /** The status word of a successful exchange: its last two bytes; absent
      when the exchange failed or is shorter than a status word. */
  function StatusOf(e: Exchange): (r: Option<Sw>)
    ensures r.Some? <==> e.fret == 0 && |e.rx| >= 2
  {
    if e.fret == 0 && |e.rx| >= 2 then Some(Sw(e.rx[|e.rx| - 2], e.rx[|e.rx| - 1])) else None
  }

  /** The driver takes the status word apart as READU16 over the last two
      bytes split again by HIBYTE and LOBYTE; that gives the same SW1 and
      SW2 as `StatusOf`. */
  lemma StatusOfMacros(e: Exchange)
    requires e.fret == 0 && |e.rx| >= 2
    ensures var w := ReadU16(e.rx[|e.rx| - 2], e.rx[|e.rx| - 1]);
      StatusOf(e) == Some(Sw(HiByte(w), LoByte(w)))
  {
    StatusWordBytes(e.rx[|e.rx| - 2], e.rx[|e.rx| - 1]);
  }

  /** `(uint8_t)logic_channel` as the class byte. */
  function ToByte(i: int): (b: byte)
    ensures 0 <= i < 0x100 ==> b == i
  {
    i % 0x100
  }

  /** MANAGE CHANNEL (open), section 7.1.2 of ISO/IEC 7816-4. */
  const ManageChannelOpen: seq<byte> := [0x00, 0x70, 0x00, 0x00, 0x01]

  /** The ISD-R application identifier the CSIM open selects. */
  const IsdrAid: seq<byte> :=
    [0xA0, 0x00, 0x00, 0x05, 0x59, 0x10, 0x10, 0xFF, 0xFF, 0xFF, 0xFF, 0x89, 0x00, 0x00, 0x01, 0x00]

  /** SELECT by DF name of the ISD-R, with the given class byte. */
  function SelectIsdr(cla: byte): (apdu: seq<byte>)
    ensures |apdu| == 21 && apdu[0] == cla && apdu[4] as int == |IsdrAid| && apdu[5..] == IsdrAid
    ensures apdu[1] == 0xA4 && apdu[2] == 0x04 && apdu[3] == 0x00
  {
    [cla, 0xA4, 0x04, 0x00, 0x10] + IsdrAid
  }

  /** GET RESPONSE (section 7.6.1 of ISO/IEC 7816-4) for `le` bytes. */
  function GetResponse(cla: byte, le: byte): (apdu: seq<byte>)
    ensures |apdu| == 5 && apdu[0] == cla && apdu[1] == 0xC0 && apdu[4] == le
    ensures apdu[2] == 0x00 && apdu[3] == 0x00
  {
    [cla, 0xC0, 0x00, 0x00, le]
  }

  /** The do-while after a 61XX status: GET RESPONSE with the announced
      length while the latest SW1 is 0x61. A failed or short answer sets SW1
      to 0 and keeps SW2, which ends the loop. The class byte `cla` is the
      channel, which no transmit changes, so it is the same every round. */
  function GetResponseLoop(s: Session, cla: byte, le: byte): (r: (Run<Sw>, Session))
    ensures r.1.channel == s.channel
    ensures r.0.Returns? ==> r.0.value.sw1 != 0x61
    ensures s.channel != 0 ==> s.written + CsimCommand(GetResponse(cla, le)) <= r.1.written
    ensures s.channel == 0 ==> r == (Returns(Sw(0, le)), s)
    decreases |s.pending|
  {
    var (run, t) := Transmit(Csim, s, GetResponse(cla, le));
    match run
    case Blocks => (Blocks, t)
    case Returns(e) =>
      match StatusOf(e)
      case None => (Returns(Sw(0, le)), t)
      case Some(sw) =>
        if sw.sw1 != 0x61 then (Returns(sw), t)
        else
          GetResponseLoop(t, cla, sw.sw2)
  }

  /** The success test of the CSIM open exactly as written: `!` binds to
      the SW1 comparison only, so the open fails when SW1 is not 0x90 AND
      SW2 is 0x00. */
  predicate OpenFails(sw: Sw) {
    !(sw.sw1 == 0x90) && (sw.sw2 == 0x00)
  }

  /** `apdu_interface_logic_channel_open_atcsim`. The `aid` argument is not
      used: the ISD-R is selected on channel 1 whatever it is. */
  function OpenCsim(s: Session): (r: (Run<int>, Session))
    ensures s.channel != 0 ==> r == (Returns(s.channel), s)
    ensures r.0.Returns? ==> r.1.channel == r.0.value
    ensures s.channel == 0 && r.0.Returns? ==> r.0.value == 1 || r.0.value == -1
  {
    if s.channel != 0 then (Returns(s.channel), s)
    else
      var s1 := s.(channel := 1);
      var (manage, s2) := Transmit(Csim, s1, ManageChannelOpen);
      if manage.Blocks? then (Blocks, s2)
      else
        var (select, s3) := Transmit(Csim, s2, SelectIsdr(ToByte(s2.channel)));
        match select
        case Blocks => (Blocks, s3)
        case Returns(e) =>
          var (last, s4) := SelectStatus(e, s3);
          match last
          case Blocks => (Blocks, s4)
          case Returns(sw) =>
            var channel := if OpenFails(sw) then -1 else s4.channel;
            (Returns(channel), s4.(channel := channel))
  }

  /** The status the verdict is taken on: 0000 when SELECT failed or was
      short, the GET RESPONSE loop's when SELECT said 61XX, else SELECT's
      own. */
  function SelectStatus(e: Exchange, s: Session): (r: (Run<Sw>, Session))
    ensures r.1.channel == s.channel
    ensures r.0.Returns? ==> r.0.value.sw1 != 0x61
    ensures StatusOf(e).None? ==> r == (Returns(Sw(0, 0)), s)
    ensures StatusOf(e).Some? && StatusOf(e).value.sw1 != 0x61 ==> r == (Returns(StatusOf(e).value), s)
  {
    match StatusOf(e)
    case None => (Returns(Sw(0, 0)), s)
    case Some(sw) => if sw.sw1 == 0x61 then GetResponseLoop(s, ToByte(s.channel), sw.sw2) else (Returns(sw), s)
  }

  /** A CSIM open from a closed session whose MANAGE CHANNEL and SELECT
      exchanges both complete, SELECT with a final status (not 61XX): the
      verdict is the literal test on that status, the session is the one
      SELECT left, and SELECT goes out with class byte 1. */
  lemma OpenCsimVerdict(s: Session, m: Exchange, s2: Session, e: Exchange, s3: Session, sw: Sw)
    requires s.channel == 0
    requires Transmit(Csim, s.(channel := 1), ManageChannelOpen) == (Returns(m), s2)
    requires Transmit(Csim, s2, SelectIsdr(1)) == (Returns(e), s3)
    requires StatusOf(e) == Some(sw) && sw.sw1 != 0x61
    ensures var channel := if OpenFails(sw) then -1 else 1;
      OpenCsim(s) == (Returns(channel), s3.(channel := channel))
  {
    assert SelectStatus(e, s3) == (Returns(sw), s3);
  }

  /** Status 6A82 (file not found) does not fail the open: the channel
      stays 1. */
  lemma OpenCsimKeepsChannelOn6A82(s: Session, m: Exchange, s2: Session, e: Exchange, s3: Session)
    requires s.channel == 0
    requires Transmit(Csim, s.(channel := 1), ManageChannelOpen) == (Returns(m), s2)
    requires Transmit(Csim, s2, SelectIsdr(1)) == (Returns(e), s3)
    requires StatusOf(e) == Some(Sw(0x6A, 0x82))
    ensures OpenCsim(s) == (Returns(1), s3.(channel := 1))
  {
    OpenCsimVerdict(s, m, s2, e, s3, Sw(0x6A, 0x82));
  }

  /** Status 9000 opens channel 1; status 6D00 fails the open with -1. */
  lemma OpenCsimOutcomes(s: Session, m: Exchange, s2: Session, e: Exchange, s3: Session)
    requires s.channel == 0
    requires Transmit(Csim, s.(channel := 1), ManageChannelOpen) == (Returns(m), s2)
    requires Transmit(Csim, s2, SelectIsdr(1)) == (Returns(e), s3)
    ensures StatusOf(e) == Some(Sw(0x90, 0x00)) ==> OpenCsim(s) == (Returns(1), s3.(channel := 1))
    ensures StatusOf(e) == Some(Sw(0x6D, 0x00)) ==> OpenCsim(s) == (Returns(-1), s3.(channel := -1))
  {
    if StatusOf(e) == Some(Sw(0x90, 0x00)) {
      OpenCsimVerdict(s, m, s2, e, s3, Sw(0x90, 0x00));
    }
    if StatusOf(e) == Some(Sw(0x6D, 0x00)) {
      OpenCsimVerdict(s, m, s2, e, s3, Sw(0x6D, 0x00));
    }
  }

  /** A SELECT that yields no status word (the transmit failed, or fewer
      than two bytes came back) fails the open: the status is taken as
      0000, which `OpenFails` rejects. */
  lemma OpenCsimSelectFails(s: Session, m: Exchange, s2: Session, e: Exchange, s3: Session)
    requires s.channel == 0
    requires Transmit(Csim, s.(channel := 1), ManageChannelOpen) == (Returns(m), s2)
    requires Transmit(Csim, s2, SelectIsdr(1)) == (Returns(e), s3)
    requires StatusOf(e).None?
    ensures OpenCsim(s) == (Returns(-1), s3.(channel := -1))
  {
    assert SelectStatus(e, s3) == (Returns(Sw(0, 0)), s3);
  }

  /** A SELECT answered with ERROR leaves the status at 0000: the open
      fails. */
  lemma OpenCsimSelectErrorFails(s: Session, m: Exchange, s2: Session, rest: seq<string>)
    requires s.channel == 0
    requires Transmit(Csim, s.(channel := 1), ManageChannelOpen) == (Returns(m), s2)
    requires s2.pending == [ErrorRead] + rest
    ensures var select := SelectIsdr(ToByte(s2.channel));
      OpenCsim(s) == (Returns(-1), Session(-1, rest, s2.written + CsimCommand(select)))
  {
    var select := SelectIsdr(ToByte(s2.channel));
    var s3 := Session(1, rest, s2.written + CsimCommand(select));
    assert Transmit(Csim, s2, select) == (Returns(Failed), s3) by {
      TransmitErrorFails(Csim, s2, select, rest);
    }
    OpenCsimSelectFails(s, m, s2, Failed, s3);
  }

  /** One round of the loop whose answer does not say 61XX is the last. */
  lemma GetResponseLoopStops(s: Session, cla: byte, le: byte, e: Exchange, sw: Sw, t: Session)
    requires Transmit(Csim, s, GetResponse(cla, le)) == (Returns(e), t)
    requires StatusOf(e) == Some(sw) && sw.sw1 != 0x61
    ensures GetResponseLoop(s, cla, le) == (Returns(sw), t)
  {
  }

  /** A GET RESPONSE that yields no status word ends the loop with SW1 0
      and the requested length as SW2. */
  lemma GetResponseLoopFails(s: Session, cla: byte, le: byte, e: Exchange, t: Session)
    requires Transmit(Csim, s, GetResponse(cla, le)) == (Returns(e), t)
    requires StatusOf(e).None?
    ensures GetResponseLoop(s, cla, le) == (Returns(Sw(0, le)), t)
  {
  }

  /** GET RESPONSE answered with ERROR is such a case. */
  lemma GetResponseLoopError(s: Session, cla: byte, le: byte, rest: seq<string>)
    requires s.channel != 0
    requires s.pending == [ErrorRead] + rest
    ensures GetResponseLoop(s, cla, le) == (Returns(Sw(0, le)),
      Session(s.channel, rest, s.written + CsimCommand(GetResponse(cla, le))))
  {
    TransmitErrorFails(Csim, s, GetResponse(cla, le), rest);
    GetResponseLoopFails(s, cla, le, Failed,
      Session(s.channel, rest, s.written + CsimCommand(GetResponse(cla, le))));
  }

  /** SELECT answered 61XX, then a GET RESPONSE with no status word: the
      loop's 00XX decides, so the open fails exactly when XX is 0. */
  lemma OpenCsimGetResponseFails(s: Session, m: Exchange, s2: Session, e: Exchange, s3: Session,
                                 le: byte, g: Exchange, t: Session)
    requires s.channel == 0
    requires Transmit(Csim, s.(channel := 1), ManageChannelOpen) == (Returns(m), s2)
    requires Transmit(Csim, s2, SelectIsdr(1)) == (Returns(e), s3)
    requires StatusOf(e) == Some(Sw(0x61, le))
    requires Transmit(Csim, s3, GetResponse(1, le)) == (Returns(g), t)
    requires StatusOf(g).None?
    ensures var channel := if le == 0 then -1 else 1;
      OpenCsim(s) == (Returns(channel), t.(channel := channel))
  {
    assert s3.channel == 1 && ToByte(s3.channel) == 1;
    GetResponseLoopFails(s3, 1, le, g, t);
    var last := SelectStatus(e, s3);
    assert last == (Returns(Sw(0, le)), t);
    assert OpenFails(Sw(0, le)) <==> le == 0;
  }

  /** The open up to SELECT, when MANAGE CHANNEL and SELECT are answered:
      the verdict is taken on what `SelectStatus` makes of SELECT's bytes. */
  lemma OpenCsimThroughSelect(s: Session, manage: seq<byte>, select: seq<byte>, rest: seq<string>)
    requires s.channel == 0
    requires s.pending == [Answer(CsimTag, manage), Answer(CsimTag, select)] + rest
    ensures var s3 := Session(1, rest, s.written + CsimCommand(ManageChannelOpen) + CsimCommand(SelectIsdr(1)));
      var (last, s4) := SelectStatus(Exchange(0, select), s3);
      OpenCsim(s) == match last
        case Blocks => (Blocks, s4)
        case Returns(sw) =>
          var channel := if OpenFails(sw) then -1 else 1;
          (Returns(channel), s4.(channel := channel))
  {
    var s1 := s.(channel := 1);
    Unshift(Answer(CsimTag, manage), Answer(CsimTag, select), rest);
    TransmitReturnsAnswer(Csim, s1, ManageChannelOpen, manage, [Answer(CsimTag, select)] + rest);
    var s2 := Session(1, [Answer(CsimTag, select)] + rest, s.written + CsimCommand(ManageChannelOpen));
    TransmitReturnsAnswer(Csim, s2, SelectIsdr(1), select, rest);
  }

  /** SELECT answering 6112 and GET RESPONSE answering with 9000: exactly
      one GET RESPONSE goes out, for 0x12 bytes on class 1, and the channel
      opens. */
  lemma OpenCsimOneGetResponse(s: Session, manage: seq<byte>, body: seq<byte>, rest: seq<string>)
    requires s.channel == 0
    requires s.pending ==
      [Answer(CsimTag, manage), Answer(CsimTag, [0x61, 0x12]), Answer(CsimTag, body + [0x90, 0x00])] + rest
    ensures OpenCsim(s) == (Returns(1),
      Session(1, rest, s.written + CsimCommand(ManageChannelOpen) + CsimCommand(SelectIsdr(1))
                       + CsimCommand(GetResponse(1, 0x12))))
  {
    var a2 := Answer(CsimTag, body + [0x90, 0x00]);
    Unshift3(Answer(CsimTag, manage), Answer(CsimTag, [0x61, 0x12]), a2, rest);
    OpenCsimThroughSelect(s, manage, [0x61, 0x12], [a2] + rest);
    var s3 := Session(1, [a2] + rest, s.written + CsimCommand(ManageChannelOpen) + CsimCommand(SelectIsdr(1)));
    var data := body + [0x90, 0x00];
    assert data[|data| - 2] == 0x90 && data[|data| - 1] == 0x00;
    var t := Session(1, rest, s3.written + CsimCommand(GetResponse(1, 0x12)));
    TransmitReturnsAnswer(Csim, s3, GetResponse(1, 0x12), data, rest);
    GetResponseLoopStops(s3, 1, 0x12, Exchange(0, data), Sw(0x90, 0x00), t);
  }

  /** A GET RESPONSE that errors ends the loop with SW1 0 and the SW2 of
      the 61XX status: after 6100 the open fails, after 6112 it succeeds. */
  lemma GetResponseErrorVerdict(s: Session, manage: seq<byte>, le: byte, rest: seq<string>)
    requires s.channel == 0
    requires s.pending == [Answer(CsimTag, manage), Answer(CsimTag, [0x61, le]), ErrorRead] + rest
    ensures OpenCsim(s).0 == Returns(if le == 0 then -1 else 1)
  {
    Unshift3(Answer(CsimTag, manage), Answer(CsimTag, [0x61, le]), ErrorRead, rest);
    OpenCsimThroughSelect(s, manage, [0x61, le], [ErrorRead] + rest);
    var s3 := Session(1, [ErrorRead] + rest, s.written + CsimCommand(ManageChannelOpen) + CsimCommand(SelectIsdr(1)));
    GetResponseLoopError(s3, 1, le, rest);
  }

  // ---------------------------------------------------------------------
  // The three-command dialect: +CCHC pre-close, +CCHO open, +CCHC close.

  /** `AT+CCHC=i` for i from `i` to 4, each followed by `at_expect` with its
      result ignored. */
  function PreClose(s: Session, i: int): (r: (Run<()>, Session))
    requires 1 <= i <= 5
    ensures r.1.channel == s.channel
    ensures r.0.Returns? ==> r.1.written == s.written + PreCloseCommands(i)
    decreases 5 - i
  {
    if i > 4 then (Returns(()), s)
    else
      var (run, rest) := Expect(s.pending, None);
      var t := Session(s.channel, rest, s.written + CchcCommand(i));
      if run.Blocks? then (Blocks, t)
      else
        Reassociate(s.written, CchcCommand(i), PreCloseCommands(i + 1));
        PreClose(t, i + 1)
  }

  /** `apdu_interface_logic_channel_open`: after the pre-close, the channel
      is whatever `atoi` makes of the text after `+CCHO: `; an ERROR or a
      missing tag returns -1 and leaves the channel at 0. */
  function OpenCcho(s: Session, aid: seq<byte>): (r: (Run<int>, Session))
    ensures s.channel != 0 ==> r == (Returns(s.channel), s)
    ensures s.channel == 0 && r.0.Returns? ==>
      r.1.channel == r.0.value || (r.0.value == -1 && r.1.channel == 0)
  {
    if s.channel != 0 then (Returns(s.channel), s)
    else
      var (pre, s1) := PreClose(s, 1);
      if pre.Blocks? then (Blocks, s1)
      else
        RequestChannel(s1, aid)
  }

  /** `AT+CCHO="<aid>"` and the reply: -1 with the channel untouched on
      ERROR or when no `+CCHO: ` line came, else `atoi` of its text. */
  function RequestChannel(s: Session, aid: seq<byte>): (r: (Run<int>, Session))
    ensures r.0.Returns? ==> r.1.channel == r.0.value || (r.0.value == -1 && r.1.channel == s.channel)
    ensures r.1.written == s.written + CchoCommand(aid)
    ensures r.1.pending == Expect(s.pending, Some(CchoTag)).1
  {
    var (run, rest) := Expect(s.pending, Some(CchoTag));
    var t := Session(s.channel, rest, s.written + CchoCommand(aid));
    match run
    case Blocks => (Blocks, t)
    case Returns(reply) =>
      if reply.code != 0 || reply.response.None? then (Returns(-1), t)
      else
        var channel := Atoi(reply.response.value);
        (Returns(channel), t.(channel := channel))
  }

  /** A +CCHO answered with ERROR, or with an OK that carried no
      `+CCHO: ` line, returns -1 and leaves the channel as it was. */
  lemma RequestChannelFails(s: Session, aid: seq<byte>, reply: Reply, rest: seq<string>)
    requires Expect(s.pending, Some(CchoTag)) == (Returns(reply), rest)
    requires reply.code != 0 || reply.response.None?
    ensures RequestChannel(s, aid) == (Returns(-1), Session(s.channel, rest, s.written + CchoCommand(aid)))
  {
  }

  /** Four OKs to the pre-close, then `+CCHO: <n>` and OK: the channel is
      n, and the commands sent are the four +CCHC and the +CCHO with the
      AID in hex. */
  lemma OpenCchoAssignsChannel(s: Session, aid: seq<byte>, n: int, rest: seq<string>)
    requires s.channel == 0
    requires s.pending == [OkRead, OkRead, OkRead, OkRead, CrLfLines([CchoTag + SignedDecimal(n), "OK"])] + rest
    ensures OpenCcho(s, aid) == (Returns(n), Session(n, rest,
      s.written + CchcCommand(1) + CchcCommand(2) + CchcCommand(3) + CchcCommand(4) + CchoCommand(aid)))
  {
    var last := CrLfLines([CchoTag + SignedDecimal(n), "OK"]);
    var s1 := Session(0, [last] + rest,
      s.written + CchcCommand(1) + CchcCommand(2) + CchcCommand(3) + CchcCommand(4));
    assert PreClose(s, 1) == (Returns(()), s1) by {
      Unshift5(OkRead, OkRead, OkRead, OkRead, last, rest);
      PreCloseAllOk(s, [last] + rest);
    }
    RequestChannelAssigns(s1, aid, n, rest);
    assert OpenCcho(s, aid) == RequestChannel(s1, aid);
  }

  /** A `+CCHO: n` reply makes n the channel. */
  lemma RequestChannelAssigns(s: Session, aid: seq<byte>, n: int, rest: seq<string>)
    requires s.pending == [CrLfLines([CchoTag + SignedDecimal(n), "OK"])] + rest
    ensures RequestChannel(s, aid) == (Returns(n), Session(n, rest, s.written + CchoCommand(aid)))
  {
    ChannelLineClean(n);
    TaggedReplyInOneRead(CchoTag, SignedDecimal(n), rest);
    AtoiSignedDecimal(n);
  }

  /** `atoi` of a remainder that does not start with a number is 0: the
      open returns 0 and the channel is set to 0, which reads as "no
      channel". */
  lemma RequestChannelWithoutNumber(s: Session, aid: seq<byte>, junk: string, rest: seq<string>)
    requires junk != [] && !IsSpace(junk[0]) && !IsDigit(junk[0]) && junk[0] != '-' && junk[0] != '+'
    requires NoDelim(CchoTag + junk) && NUL !in CchoTag + junk && !Contains(CchoTag + junk, "ERROR")
    requires s.pending == [CrLfLines([CchoTag + junk, "OK"])] + rest
    ensures RequestChannel(s, aid) == (Returns(0), Session(0, rest, s.written + CchoCommand(aid)))
  {
    assert |CchoTag + junk| > 2;
    TaggedReplyInOneRead(CchoTag, junk, rest);
    assert Atoi(junk) == 0 by {
      assert SkipSpaces(junk) == junk;
      assert LeadingDigits(junk) == [];
    }
  }

  lemma ChannelLineClean(n: int)
    ensures var line := CchoTag + SignedDecimal(n);
      NoDelim(line) && NUL !in line && !Contains(line, "ERROR") && line != "OK"
  {
    var d := SignedDecimal(n);
    var line := CchoTag + d;
    forall i | 0 <= i < |line|
      ensures !IsDelim(line[i]) && line[i] != NUL && line[i] != 'R'
    {
      if i >= |CchoTag| {
        assert line[i] == d[i - |CchoTag|];
        if n < 0 && i > |CchoTag| {
          assert d[i - |CchoTag|] == Decimal(-n)[i - |CchoTag| - 1];
        }
      }
    }
    NoRNoError(line);
    assert line[0] == '+';
  }

  lemma PreCloseAllOk(s: Session, rest: seq<string>)
    requires s.pending == [OkRead, OkRead, OkRead, OkRead] + rest
    ensures PreClose(s, 1) == (Returns(()), Session(s.channel, rest,
      s.written + CchcCommand(1) + CchcCommand(2) + CchcCommand(3) + CchcCommand(4)))
  {
    assert OkReads(4) == [OkRead, OkRead, OkRead, OkRead];
    PreCloseOks(s, 1, rest);
    var c1, c2, c3, c4 := CchcCommand(1), CchcCommand(2), CchcCommand(3), CchcCommand(4);
    assert PreCloseCommands(1) == c1 + (c2 + (c3 + (c4 + "")));
    Chain(s.written, c1, c2, c3, c4);
  }

  /** `n` reads that each hold just OK. */
  function OkReads(n: nat): (r: seq<string>)
    ensures |r| == n
  {
    if n == 0 then [] else [OkRead] + OkReads(n - 1)
  }

  /** The +CCHC lines for channels `i` to 4, in order. */
  function PreCloseCommands(i: int): string
    requires 1 <= i <= 5
    decreases 5 - i
  {
    if i > 4 then "" else CchcCommand(i) + PreCloseCommands(i + 1)
  }

  /** Pre-closes from channel `i` on, each answered OK, write their lines in
      order and consume one read each. */
  lemma {:induction false} PreCloseOks(s: Session, i: int, rest: seq<string>)
    requires 1 <= i <= 5
    requires s.pending == OkReads(5 - i) + rest
    ensures PreClose(s, i) == (Returns(()), Session(s.channel, rest, s.written + PreCloseCommands(i)))
    decreases 5 - i
  {
    if i <= 4 {
      var tail := OkReads(4 - i) + rest;
      assert s.pending == [OkRead] + tail;
      ExpectOk(tail, None);
      var t := Session(s.channel, tail, s.written + CchcCommand(i));
      assert PreClose(s, i) == PreClose(t, i + 1);
      PreCloseOks(t, i + 1, rest);
      assert t.written + PreCloseCommands(i + 1) == s.written + PreCloseCommands(i) by {
        Reassociate(s.written, CchcCommand(i), PreCloseCommands(i + 1));
      }
    } else {
      assert s.pending == rest;
      assert s.written + PreCloseCommands(i) == s.written;
    }
  }

  /** After a CCHO open assigned channel n, the next transmit names n on
      its +CGLA line. */
  lemma TransmitAfterCchoNamesChannel(s: Session, aid: seq<byte>, n: int, tx: seq<byte>, rest: seq<string>)
    requires s.channel == 0 && n != 0 && |tx| < 0x8000_0000
    requires s.pending == [OkRead, OkRead, OkRead, OkRead, CrLfLines([CchoTag + SignedDecimal(n), "OK"])] + rest
    ensures var t := OpenCcho(s, aid).1;
      var u := Transmit(Cgla, t, tx).1;
      |t.written| <= |u.written| && ReadCglaCommand(u.written[|t.written|..]) == Some((n, 2 * |tx|, tx))
  {
    OpenCchoAssignsChannel(s, aid, n, rest);
    CglaTransmitCarriesChannel(OpenCcho(s, aid).1, tx);
  }

  /** An ERROR to +CCHO returns -1 and leaves the channel closed, so the
      next open tries again. */
  lemma OpenCchoErrorKeepsClosed(s: Session, aid: seq<byte>, rest: seq<string>)
    requires s.channel == 0
    requires s.pending == [OkRead, OkRead, OkRead, OkRead, ErrorRead] + rest
    ensures OpenCcho(s, aid) == (Returns(-1), Session(0, rest,
      s.written + CchcCommand(1) + CchcCommand(2) + CchcCommand(3) + CchcCommand(4) + CchoCommand(aid)))
  {
    var s1 := Session(0, [ErrorRead] + rest,
      s.written + CchcCommand(1) + CchcCommand(2) + CchcCommand(3) + CchcCommand(4));
    assert PreClose(s, 1) == (Returns(()), s1) by {
      Unshift5(OkRead, OkRead, OkRead, OkRead, ErrorRead, rest);
      PreCloseAllOk(s, [ErrorRead] + rest);
    }
    assert RequestChannel(s1, aid) == (Returns(-1), Session(0, rest, s1.written + CchoCommand(aid))) by {
      ExpectError(rest, Some(CchoTag));
    }
  }

  /** `apdu_interface_logic_channel_close[_atcsim]`: nothing for CSIM;
      `AT+CCHC=<logic_channel>` when a channel is set for the three-command
      dialect. The channel is never reset. */
  function Close(d: Dialect, s: Session): (r: (Run<()>, Session))
    ensures r.1.channel == s.channel
    ensures d == Csim || s.channel == 0 ==> r == (Returns(()), s)
    ensures d == Cgla && s.channel != 0 ==>
      r.1.written == s.written + CchcCommand(s.channel) && r.1.pending == Expect(s.pending, None).1
  {
    if d == Csim || s.channel == 0 then (Returns(()), s)
    else
      var (run, rest) := Expect(s.pending, None);
      (if run.Blocks? then Blocks else Returns(()), Session(s.channel, rest, s.written + CchcCommand(s.channel)))
  }

  /** Closing does not forget the channel: an open after a close returns
      the same channel and sends nothing. */
  lemma CloseThenOpen(d: Dialect, s: Session, aid: seq<byte>)
    requires s.channel != 0
    ensures var t := Close(d, s).1;
      t.channel == s.channel && Open(d, t, aid) == (Returns(s.channel), t)
  {
  }

  // ---------------------------------------------------------------------
  // The dispatch `libapduinterface_init` installs.

  function Open(d: Dialect, s: Session, aid: seq<byte>): (r: (Run<int>, Session))
    ensures s.channel != 0 ==> r == (Returns(s.channel), s)
    ensures r.0.Returns? ==> r.1.channel == r.0.value || (r.0.value == -1 && r.1.channel == 0)
  {
    if d == Csim then OpenCsim(s) else OpenCcho(s, aid)
  }

  /** Open is idempotent: once an open has left a channel set, a second
      one returns it and sends nothing. A CSIM open always leaves one set
      (1 or -1); a CCHO open that got ERROR leaves none and returns -1. */
  lemma OpenTwice(d: Dialect, s: Session, aid: seq<byte>, aid2: seq<byte>)
    ensures var (r1, s1) := Open(d, s, aid);
      r1.Returns? && s1.channel != 0 ==> Open(d, s1, aid2) == (Returns(r1.value), s1)
    ensures var (r1, s1) := Open(d, s, aid);
      d == Csim && r1.Returns? ==> s1.channel != 0
  {
    var (r1, s1) := Open(d, s, aid);
    if r1.Returns? {
      if d == Csim {
        assert s1.channel == r1.value;
      } else if s.channel == 0 {
        assert s1.channel == 0 || s1.channel == r1.value;
      }
    }
  }

  // ---------------------------------------------------------------------
  // Connect and disconnect.

  function Probes(d: Dialect): seq<string> {
    if d == Csim then [CsimProbe] else [CchoProbe, CchcProbe, CglaProbe]
  }

  /** Each probe is written and must be answered without ERROR; the first
      one that is not makes the connect fail. */
  function RunProbes(probes: seq<string>, s: Session): (r: (Run<int>, Session))
    ensures r.1.channel == s.channel
    ensures r.0.Returns? ==> r.0.value == 0 || r.0.value == -1
    decreases |probes|
  {
    if probes == [] then (Returns(0), s)
    else
      var (run, rest) := Expect(s.pending, None);
      var t := Session(s.channel, rest, s.written + probes[0]);
      match run
      case Blocks => (Blocks, t)
      case Returns(reply) =>
        if reply.code != 0 then (Returns(-1), t)
        else
          RunProbes(probes[1..], t)
  }

  /** A probe whose reply is ERROR makes the connect fail at once: -1,
      with that probe the last line written. */
  lemma ProbeRejected(probes: seq<string>, s: Session, reply: Reply, rest: seq<string>)
    requires probes != []
    requires Expect(s.pending, None) == (Returns(reply), rest)
    requires reply.code != 0
    ensures RunProbes(probes, s) == (Returns(-1), Session(s.channel, rest, s.written + probes[0]))
  {
  }

  /** A probe answered without ERROR moves on to the next one. */
  lemma ProbeAccepted(probes: seq<string>, s: Session, reply: Reply, rest: seq<string>)
    requires probes != []
    requires Expect(s.pending, None) == (Returns(reply), rest)
    requires reply.code == 0
    ensures RunProbes(probes, s) == RunProbes(probes[1..], Session(s.channel, rest, s.written + probes[0]))
  {
  }

  /** In particular, an ERROR read. */
  lemma ProbeError(probes: seq<string>, s: Session, rest: seq<string>)
    requires probes != []
    requires s.pending == [ErrorRead] + rest
    ensures RunProbes(probes, s) == (Returns(-1), Session(s.channel, rest, s.written + probes[0]))
  {
    ExpectError(rest, None);
    ProbeRejected(probes, s, Reply(-1, None), rest);
  }


  /** `apdu_interface_connect`: the channel is reset before anything else;
      `opens` says whether the device could be opened. */
  function Connect(d: Dialect, opens: bool, s: Session): (r: (Run<int>, Session))
    ensures r.1.channel == 0
    ensures !opens ==> r == (Returns(-1), s.(channel := 0))
  {
    var s0 := s.(channel := 0);
    if !opens then (Returns(-1), s0) else RunProbes(Probes(d), s0)
  }

  /** `apdu_interface_disconnect`. */
  function Disconnect(s: Session): (r: Session)
    ensures r.channel == 0 && r.pending == s.pending && r.written == s.written
  {
    s.(channel := 0)
  }

  /** A modem that answers the CSIM probe with OK: connect succeeds and
      writes only the probe. */
  lemma ConnectCsimOk(s: Session, rest: seq<string>)
    requires s.pending == [OkRead] + rest
    ensures Connect(Csim, true, s) == (Returns(0), Session(0, rest, s.written + CsimProbe))
  {
    var s0 := s.(channel := 0);
    var t := Session(0, rest, s.written + CsimProbe);
    ExpectOk(rest, None);
    assert Probes(Csim) == [CsimProbe];
    assert RunProbes([], t) == (Returns(0), t);
    assert RunProbes([CsimProbe], s0) == RunProbes([], t);
  }

  /** A failed CSIM channel (-1) is never retried by open. Disconnecting
      and connecting again (the probe answered OK) resets the channel, and
      the whole open sequence then runs again. */
  lemma ReopenAfterReconnect(s: Session, aid: seq<byte>, rest: seq<string>,
                             m: Exchange, s2: Session, e: Exchange, s3: Session)
    requires s.channel == -1
    requires s.pending == [OkRead] + rest
    requires Transmit(Csim, Session(1, rest, s.written + CsimProbe), ManageChannelOpen) == (Returns(m), s2)
    requires Transmit(Csim, s2, SelectIsdr(1)) == (Returns(e), s3)
    requires StatusOf(e) == Some(Sw(0x90, 0x00))
    ensures Open(Csim, s, aid) == (Returns(-1), s)
    ensures var c := Session(0, rest, s.written + CsimProbe);
      Connect(Csim, true, Disconnect(s)) == (Returns(0), c)
      && Open(Csim, c, aid) == (Returns(1), s3.(channel := 1))
  {
    var c := Session(0, rest, s.written + CsimProbe);
    ConnectCsimOk(Disconnect(s), rest);
    OpenCsimVerdict(c, m, s2, e, s3, Sw(0x90, 0x00));
  }
}
