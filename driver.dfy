/** The driver as driver/apdu/at.c runs it: the globals `logic_channel`
    and `buffer` become the fields of one object, the serial port becomes
    a script of reads and a log of writes, and each entry point is a
    method proved to compute what the function of the same name in
    protocol.dfy says. */
module Driver {
  import opened Wire
  import opened Scanner
  import opened Commands
  import opened Protocol

  class AtDriver {
    /** Which of the two `USE_AT_CSIM` builds this is. */
    const dialect: Dialect
    /** The receive buffer of `AT_BUFFER_SIZE` characters. */
    const buffer: array<char>
    /** `logic_channel`. */
    var logicChannel: int
    /** What the modem's next reads return, one string per `read`; an
        empty string is a read that timed out. */
    var pending: seq<string>
    /** Everything written to the modem so far. */
    var written: string

    /** Each read fits the buffer with room for its terminator. */
    ghost predicate Valid()
      reads this
    {
      buffer.Length > 0 && forall i :: 0 <= i < |pending| ==> |pending[i]| < buffer.Length
    }

    function State(): Session
      reads this
    {
      Session(logicChannel, pending, written)
    }

    /** `libapduinterface_init` with a receive buffer of `capacity`
        characters; `logic_channel` starts at 0. */
    constructor(dialect: Dialect, capacity: nat, script: seq<string>)
      requires capacity > 0 && forall i :: 0 <= i < |script| ==> |script[i]| < capacity
      ensures Valid() && fresh(buffer) && buffer.Length == capacity
      ensures this.dialect == dialect && State() == Session(0, script, "")
    {
      this.dialect := dialect;
      buffer := new char[capacity](_ => NUL);
      logicChannel := 0;
      pending := script;
      written := "";
    }

    /** `PosixModem_WriteCommand`: the whole string reaches the modem. */
    method Write(s: string)
      modifies this
      ensures written == old(written) + s
      ensures logicChannel == old(logicChannel) && pending == old(pending)
    {
      written := written + s;
    }

    /** `PosixModem_ReadResponse`: the next read lands at the start of the
        buffer; the rest of the buffer keeps its old contents. */
    method Read() returns (n: nat)
      requires Valid() && pending != []
      modifies this, buffer
      ensures Valid()
      ensures n == |old(pending[0])| && n < buffer.Length
      ensures buffer[..n] == old(pending[0]) && buffer[n..] == old(buffer[n..])
      ensures pending == old(pending[1..])
      ensures logicChannel == old(logicChannel) && written == old(written)
    {
      var chunk := pending[0];
      pending := pending[1..];
      n := |chunk|;
      for k := 0 to n
        invariant buffer[..k] == chunk[..k]
        invariant buffer[n..] == old(buffer[n..])
        invariant pending == old(pending[1..]) && logicChannel == old(logicChannel) && written == old(written)
      {
        buffer[k] := chunk[k];
      }
    }

    /** The inner loop of `at_expect` over the buffer as the last read left
        it: cut the next segment with a NUL, classify it, move past it. It
        visits exactly the segments `Segments` lists, and when it does not
        stop the buffer's C string is the first segment it cut. */
    method ScanBuffer(expected: Option<string>, response: Option<string>) returns (stop: Option<int>, resp: Option<string>)
      requires |CStr(buffer[..])| < buffer.Length
      modifies buffer
      ensures |CStr(buffer[..])| < buffer.Length
      ensures ScanSegments(Segments(old(CStr(buffer[..]))), expected, response)
           == if stop.Some? then Stop(stop.value, resp) else Go(resp)
      ensures stop.None? ==> CStr(buffer[..]) == FirstSegment(old(CStr(buffer[..])))
    {
      ghost var view := CStr(buffer[..]);
      ghost var rest := view;
      var start := 0;
      stop, resp := None, response;
      while buffer[start] != NUL
        invariant 0 <= start < buffer.Length
        invariant start + |rest| == |view| < buffer.Length && (start == 0 ==> rest == view)
        invariant CStr(buffer[..][start..]) == rest
        invariant start == 0 ==> CStr(buffer[..]) == view
        invariant start > 0 ==> CStr(buffer[..]) == FirstSegment(view) && |FirstSegment(view)| < start
        invariant ScanSegments(Segments(view), expected, response) == ScanSegments(Segments(rest), expected, resp)
        decreases |rest|
      {
        var len, pos, seg, next, later := CutSegment(start, view, rest);
        ScanStep(rest, expected, resp);
        match Classify(seg, expected) {
          case ErrorLine =>
            return Some(-1), resp;
          case OkLine =>
            return Some(0), resp;
          case DataLine(tail) =>
            resp := Some(tail);
          case Noise =>
        }
        if len > pos + 1 {
          start, rest := next, later;
        } else {
          break;
        }
      }
    }

    /** `strlen` and `strcspn` from `start`, then the NUL that ends the
        segment there. */
    method CutSegment(start: nat, ghost view: string, ghost rest: string)
      returns (len: nat, pos: nat, seg: string, next: nat, ghost later: string)
      requires start + |rest| == |view| < buffer.Length && (start == 0 ==> rest == view) && rest != []
      requires CStr(buffer[..][start..]) == rest
      requires start == 0 ==> CStr(buffer[..]) == view
      requires start > 0 ==> CStr(buffer[..]) == FirstSegment(view) && |FirstSegment(view)| < start
      modifies buffer
      ensures len == |rest| && pos == DelimPos(rest) && seg == FirstSegment(rest)
      ensures CStr(buffer[..]) == FirstSegment(view) && |CStr(buffer[..])| < buffer.Length
      ensures next == start + pos + 1 && later == if len > pos + 1 then rest[pos + 1..] else []
      ensures len > pos + 1 ==>
        next < buffer.Length && CStr(buffer[..][next..]) == later && |FirstSegment(view)| < next
    {
      var b := buffer[..];
      len := NulPos(b[start..]);
      pos := DelimPos(b[start..start + len]);
      CutBounds(b, start, len, pos, rest);
      seg := b[start..start + pos];
      buffer[start + pos] := NUL;
      next := start + pos + 1;
      later := if len > pos + 1 then rest[pos + 1..] else [];
      CutKeepsView(b, buffer[..], start, pos, view, rest);
      if len > pos + 1 {
        CutLater(b, buffer[..], start, pos, next, view, rest);
      }
    }

    /** `at_expect`: clear the buffer, then read and scan until a segment
        is OK or contains ERROR. When the script runs out the C loop would
        poll a silent modem for ever; the method reports that as `Blocks`. */
    method AtExpect(expected: Option<string>) returns (r: Run<Reply>)
      requires Valid()
      modifies this, buffer
      ensures Valid()
      ensures (r, pending) == Expect(old(pending), expected)
      ensures logicChannel == old(logicChannel) && written == old(written)
    {
      for k := 0 to buffer.Length
        invariant forall j :: 0 <= j < k ==> buffer[j] == NUL
        invariant pending == old(pending) && logicChannel == old(logicChannel) && written == old(written)
      {
        buffer[k] := NUL;
      }
      assert buffer[..][0] == NUL;
      assert CStr(buffer[..]) == "";
      var response: Option<string> := None;
      while true
        invariant Valid()
        invariant |CStr(buffer[..])| < buffer.Length
        invariant ExpectLoop(pending, expected, response, CStr(buffer[..])) == Expect(old(pending), expected)
        invariant logicChannel == old(logicChannel) && written == old(written)
        decreases |pending|
      {
        if pending == [] {
          return Blocks;
        }
        ghost var chunks := pending;
        ghost var before := buffer[..];
        var n := Read();
        assert |pending| < |chunks|;
        if n > 0 {
          ghost var read := buffer[..];
          buffer[n] := NUL;
          assert buffer[..] == read[n := NUL];
          CStrAfterRead(read, chunks[0]);
        } else {
          assert buffer[..] == before;
        }
        var stop, resp := ScanBuffer(expected, response);
        if stop.Some? {
          return Returns(Reply(stop.value, resp));
        }
        response := resp;
        assert |pending| < |chunks|;
      }
    }

    /** The `%02X` loop: each byte goes out as two upper-case hex digits,
        in order. */
    method WriteHex(bs: seq<byte>)
      modifies this
      ensures written == old(written) + HexEncode(bs)
      ensures logicChannel == old(logicChannel) && pending == old(pending)
    {
      for i := 0 to |bs|
        invariant written == old(written) + HexEncode(bs[..i])
        invariant logicChannel == old(logicChannel) && pending == old(pending)
      {
        Write(HexByte(bs[i]));
        HexEncodeSnoc(bs[..i], bs[i]);
        Reassociate(old(written), HexEncode(bs[..i]), HexByte(bs[i]));
        assert bs[..i + 1] == bs[..i] + [bs[i]];
      }
      assert bs[..|bs|] == bs;
    }

    /** `apdu_interface_transmit_atcsim` or `apdu_interface_transmit`, as
        the dialect says: with no channel it fails at once; otherwise it
        writes the command line piece by piece and scans the reply. */
    method Transmit(tx: seq<byte>) returns (r: Run<Exchange>)
      requires Valid()
      modifies this, buffer
      ensures Valid()
      ensures (r, State()) == Protocol.Transmit(dialect, old(State()), tx)
    {
      if logicChannel == 0 {
        return Returns(Failed);
      }
      var header := if dialect == Csim then CsimHeader(|tx|) else CglaHeader(logicChannel, |tx|);
      Write(header);
      WriteHex(tx);
      Write(Trailer);
      Reassociate(old(written), header, HexEncode(tx));
      Reassociate(old(written), header + HexEncode(tx), Trailer);
      var reply := AtExpect(Some(TransmitTag(dialect)));
      match reply
      case Blocks => r := Blocks;
      case Returns(rep) => r := Returns(ReplyExchange(rep));
    }

    /** `apdu_interface_logic_channel_open_atcsim`: MANAGE CHANNEL and
        SELECT of the ISD-R on channel 1, GET RESPONSE while SW1 says 61,
        then the verdict on the last status word. */
    method OpenCsimChannel() returns (r: Run<int>)
      requires Valid() && dialect == Csim
      modifies this, buffer
      ensures Valid()
      ensures (r, State()) == OpenCsim(old(State()))
    {
      if logicChannel != 0 {
        return Returns(logicChannel);
      }
      logicChannel := 1;
      var manage := Transmit(ManageChannelOpen);
      if manage.Blocks? {
        return Blocks;
      }
      ghost var s2 := State();
      var select := Transmit(SelectIsdr(ToByte(logicChannel)));
      if select.Blocks? {
        return Blocks;
      }
      ghost var s3 := State();
      var sw1, sw2: byte := 0, 0;
      if select.value.fret == 0 && |select.value.rx| >= 2 {
        sw1, sw2 := ReadStatus(select.value.rx);
        if sw1 == 0x61 {
          var last := GetResponses(sw2);
          if last.Blocks? {
            return Blocks;
          }
          sw1, sw2 := last.value.sw1, last.value.sw2;
        }
      }
      if !(sw1 == 0x90) && (sw2 == 0x00) {
        logicChannel := -1;
      }
      r := Returns(logicChannel);
    }

    /** The do-while after a 61XX status: GET RESPONSE on the current
        channel for the announced length until SW1 is no longer 0x61; a
        failed or short answer sets SW1 to 0 and keeps SW2. */
    method GetResponses(le: byte) returns (r: Run<Sw>)
      requires Valid() && dialect == Csim
      modifies this, buffer
      ensures Valid()
      ensures (r, State()) == GetResponseLoop(old(State()), ToByte(old(logicChannel)), le)
    {
      var sw1, sw2 := 0x61, le;
      ghost var goal := GetResponseLoop(State(), ToByte(logicChannel), le);
      while true
        invariant Valid() && logicChannel == old(logicChannel)
        invariant GetResponseLoop(State(), ToByte(logicChannel), sw2) == goal
        decreases |pending|
      {
        ghost var before := State();
        sw1 := 0;
        var rsp := Transmit(GetResponse(ToByte(logicChannel), sw2));
        if rsp.Blocks? {
          return Blocks;
        }
        if rsp.value.fret == 0 && |rsp.value.rx| >= 2 {
          sw1, sw2 := ReadStatus(rsp.value.rx);
        }
        if sw1 != 0x61 {
          return Returns(Sw(sw1, sw2));
        }
        assert |pending| < |before.pending|;
      }
    }

    /** `apdu_interface_logic_channel_open`: close channels 1 to 4,
        ignoring the answers, then ask for a channel with AT+CCHO and take
        the number after the tag. */
    method OpenCchoChannel(aid: seq<byte>) returns (r: Run<int>)
      requires Valid() && dialect == Cgla
      modifies this, buffer
      ensures Valid()
      ensures (r, State()) == OpenCcho(old(State()), aid)
    {
      if logicChannel != 0 {
        return Returns(logicChannel);
      }
      for i := 1 to 5
        invariant Valid() && logicChannel == 0
        invariant PreClose(State(), i) == PreClose(old(State()), 1)
      {
        Write(CchcCommand(i));
        var ignored := AtExpect(None);
        if ignored.Blocks? {
          return Blocks;
        }
      }
      ghost var s1 := State();
      Write(CchoPrefix);
      WriteHex(aid);
      Write(Trailer);
      Reassociate(s1.written, CchoPrefix, HexEncode(aid));
      Reassociate(s1.written, CchoPrefix + HexEncode(aid), Trailer);
      var reply := AtExpect(Some(CchoTag));
      match reply
      case Blocks =>
        r := Blocks;
      case Returns(rep) =>
        if rep.code != 0 || rep.response.None? {
          return Returns(-1);
        }
        logicChannel := Atoi(rep.response.value);
        r := Returns(logicChannel);
    }

    /** The `logic_channel_open` entry point of this build. */
    method Open(aid: seq<byte>) returns (r: Run<int>)
      requires Valid()
      modifies this, buffer
      ensures Valid()
      ensures (r, State()) == Protocol.Open(dialect, old(State()), aid)
    {
      if dialect == Csim {
        r := OpenCsimChannel();
      } else {
        r := OpenCchoChannel(aid);
      }
    }

    /** The `logic_channel_close` entry point: nothing for the CSIM build;
        AT+CCHC on the current channel otherwise, which stays set. */
    method Close() returns (r: Run<()>)
      requires Valid()
      modifies this, buffer
      ensures Valid()
      ensures (r, State()) == Protocol.Close(dialect, old(State()))
    {
      if dialect == Csim || logicChannel == 0 {
        return Returns(());
      }
      Write(CchcCommand(logicChannel));
      var reply := AtExpect(None);
      r := if reply.Blocks? then Blocks else Returns(());
    }

    /** `apdu_interface_connect`: the channel is reset first; `opens` is
        whether the device could be opened. Each capability probe must be
        answered without ERROR. */
    method Connect(opens: bool) returns (r: Run<int>)
      requires Valid()
      modifies this, buffer
      ensures Valid()
      ensures (r, State()) == Protocol.Connect(dialect, opens, old(State()))
    {
      logicChannel := 0;
      if !opens {
        return Returns(-1);
      }
      r := SendProbes(Probes(dialect));
    }

    /** Write each probe and wait for its answer; stop at the first one
        answered with ERROR. */
    method SendProbes(probes: seq<string>) returns (r: Run<int>)
      requires Valid()
      modifies this, buffer
      ensures Valid()
      ensures (r, State()) == RunProbes(probes, old(State()))
    {
      ghost var goal := RunProbes(probes, State());
      for i := 0 to |probes|
        invariant Valid() && logicChannel == old(logicChannel)
        invariant RunProbes(probes[i..], State()) == goal
      {
        Write(probes[i]);
        var reply := AtExpect(None);
        match reply
        case Blocks =>
          return Blocks;
        case Returns(rep) =>
          if rep.code != 0 {
            return Returns(-1);
          }
          assert probes[i..][1..] == probes[i + 1..];
      }
      r := Returns(0);
    }

    /** `apdu_interface_disconnect`: the channel is forgotten. */
    method Disconnect()
      requires Valid()
      modifies this
      ensures Valid()
      ensures State() == Protocol.Disconnect(old(State()))
    {
      logicChannel := 0;
    }

    /** READU16 over the last two bytes, split again by HIBYTE and LOBYTE:
        SW1 and SW2 are those two bytes. */
    method ReadStatus(rx: seq<byte>) returns (sw1: byte, sw2: byte)
      requires |rx| >= 2
      ensures Some(Sw(sw1, sw2)) == StatusOf(Exchange(0, rx))
    {
      var w := ReadU16(rx[|rx| - 2], rx[|rx| - 1]);
      sw1, sw2 := HiByte(w), LoByte(w);
      StatusWordBytes(rx[|rx| - 2], rx[|rx| - 1]);
    }
  }

  /** A read of `chunk` followed by its terminator reads back as the
      chunk up to its own first NUL. */
  lemma CStrAfterRead(b: seq<char>, chunk: string)
    requires |chunk| < |b| && b[..|chunk|] == chunk
    ensures CStr(b[|chunk| := NUL]) == CStr(chunk)
  {
    var c := b[|chunk| := NUL];
    assert c == chunk + [NUL] + c[|chunk| + 1..];
    CStrTerminated(chunk, c[|chunk| + 1..]);
  }

  /** The segments after the first one. */
  function LaterSegments(s: string): seq<string> {
    var p := DelimPos(s);
    if |s| > p + 1 then Segments(s[p + 1..]) else []
  }

  /** One step of the scan: the first segment decides whether it stops,
      and otherwise what it carries on with. */
  lemma ScanStep(s: string, expected: Option<string>, resp: Option<string>)
    requires s != []
    ensures Segments(s) == [FirstSegment(s)] + LaterSegments(s)
    ensures ScanSegments(Segments(s), expected, resp)
         == match Classify(FirstSegment(s), expected)
            case ErrorLine => Stop(-1, resp)
            case OkLine => Stop(0, resp)
            case DataLine(tail) => ScanSegments(LaterSegments(s), expected, Some(tail))
            case Noise => ScanSegments(LaterSegments(s), expected, resp)
    ensures ScanSegments([], expected, resp) == Go(resp)
    ensures |s| > DelimPos(s) + 1 ==> LaterSegments(s) == Segments(s[DelimPos(s) + 1..])
    ensures |s| <= DelimPos(s) + 1 ==> LaterSegments(s) == []
  {
    assert Segments(s) == [FirstSegment(s)] + LaterSegments(s);
    assert (Segments(s))[1..] == LaterSegments(s);
  }

  /** `strlen` from `start` is the length of the text there, and
      `strcspn` of it is where its first segment ends. */
  lemma CutBounds(b: seq<char>, start: nat, len: nat, pos: nat, rest: string)
    requires start <= |b| && len == NulPos(b[start..]) && CStr(b[start..]) == rest
    requires start + len <= |b| && pos == DelimPos(b[start..start + len])
    ensures len == |rest| && pos == DelimPos(rest) && b[start..start + pos] == FirstSegment(rest)
  {
    assert b[start..start + len] == rest by {
      assert b[start..][..len] == rest;
    }
    CStrSlice(b, start, pos, rest);
  }

  /** Cutting the segment at `start` with a NUL keeps the buffer's C
      string as the first segment of the read. */
  lemma CutKeepsView(b: seq<char>, c: seq<char>, start: nat, pos: nat, view: string, rest: string)
    requires start + |rest| < |b| && CStr(b[start..]) == rest && pos == DelimPos(rest)
    requires start + |rest| == |view| && (start == 0 ==> rest == view)
    requires start == 0 ==> CStr(b) == view
    requires start > 0 ==> CStr(b) == FirstSegment(view) && |FirstSegment(view)| < start
    requires c == b[start + pos := NUL]
    ensures CStr(c) == FirstSegment(view) && |CStr(c)| < |c|
  {
    if start == 0 {
      assert c == b[pos := NUL];
      CutFirst(b, pos, view);
    } else {
      CStrBeyond(b, start + pos, NUL);
    }
    assert |FirstSegment(view)| <= |view| < |c|;
  }

  /** After the cut, the text past the NUL is the rest of the read. */
  lemma CutLater(b: seq<char>, c: seq<char>, start: nat, pos: nat, next: nat, view: string, rest: string)
    requires start + |rest| < |b| && CStr(b[start..]) == rest && pos == DelimPos(rest)
    requires start + |rest| == |view| && |FirstSegment(view)| <= start + pos
    requires c == b[start + pos := NUL] && next == start + pos + 1 && |rest| > next - start
    ensures next < |c| && CStr(c[next..]) == rest[pos + 1..] && |FirstSegment(view)| < next
  {
    CutRest(b, start, pos, rest);
  }

  lemma CStrSlice(b: seq<char>, start: nat, pos: nat, rest: string)
    requires start <= |b| && CStr(b[start..]) == rest && pos <= |rest|
    ensures b[start..start + pos] == rest[..pos]
  {
    assert rest <= b[start..];
  }

  lemma CutFirst(b: seq<char>, pos: nat, view: string)
    requires CStr(b) == view && pos == DelimPos(view) && pos < |b|
    ensures CStr(b[pos := NUL]) == FirstSegment(view)
  {
    CStrCut(b, pos);
  }

  lemma CutRest(b: seq<char>, start: nat, pos: nat, rest: string)
    requires start + |rest| < |b| && CStr(b[start..]) == rest && pos + 1 < |rest|
    ensures CStr(b[start + pos := NUL][start + pos + 1..]) == rest[pos + 1..]
  {
    CStrSuffix(b[start..], pos + 1);
    assert b[start + pos := NUL][start + pos + 1..] == b[start..][pos + 1..];
  }
}
