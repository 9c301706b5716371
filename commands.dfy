/** The AT command lines the driver writes (3GPP TS 27.007 +CSIM, +CGLA,
    +CCHO, +CCHC), the parsing of the tagged reply field, and the status
    word arithmetic of driver/apdu/at.c. */
module Commands {
  import opened Wire

  // ---------------------------------------------------------------------
  // Capability probes written by `apdu_interface_connect`.

  const CsimProbe: string := "AT+CSIM=?\r\n"
  const CchoProbe: string := "AT+CCHO=?\r\n"
  const CchcProbe: string := "AT+CCHC=?\r\n"
  const CglaProbe: string := "AT+CGLA=?\r\n"

  // Tags that introduce the data line of a reply.
  const CsimTag: string := "+CSIM: "
  const CglaTag: string := "+CGLA:"
  const CchoTag: string := "+CCHO: "

  /** Closing quote and line end after the hex digits. */
  const Trailer: string := "\"\r\n"

  /** `AT+CSIM=%u,"` with the hex length `tx_len * 2` computed in 32 bits. */
  function CsimHeader(n: nat): string {
    CsimPrefix + Decimal(U32(2 * n)) + ",\""
  }

  function CsimCommand(tx: seq<byte>): string {
    CsimHeader(|tx|) + HexEncode(tx) + Trailer
  }

  /** `AT+CGLA=%d,%u,"` with the current logical channel first. */
  function CglaHeader(channel: int, n: nat): string {
    CglaPrefix + SignedDecimal(channel) + "," + Decimal(U32(2 * n)) + ",\""
  }

  function CglaCommand(channel: int, tx: seq<byte>): string {
    CglaHeader(channel, |tx|) + HexEncode(tx) + Trailer
  }

  /** `AT+CCHO="`, written before the hex digits of the AID. */
  const CchoPrefix: string := "AT+CCHO=\""

  function CchoCommand(aid: seq<byte>): string {
    CchoPrefix + HexEncode(aid) + Trailer
  }

  function CchcCommand(channel: int): string {
    "AT+CCHC=" + SignedDecimal(channel) + "\r\n"
  }

  /** The modem finds the AID, in hex, between `AT+CCHO="` and the
      trailer. */
  lemma CchoCommandCarriesAid(aid: seq<byte>)
    ensures var c := CchoCommand(aid);
      |c| == |CchoPrefix| + 2 * |aid| + 3 && c[..|CchoPrefix|] == CchoPrefix
      && HexDecode(c[|CchoPrefix|..|c| - 3]) == Some(aid) && c[|c| - 3..] == Trailer
  {
    var c := CchoCommand(aid);
    assert c[|CchoPrefix|..|c| - 3] == HexEncode(aid);
    HexRoundTrip(aid);
  }

  /** The modem reads the channel back from an `AT+CCHC=` line. */
  lemma CchcCommandNamesChannel(channel: int)
    ensures var c := CchcCommand(channel);
      |c| > 10 && c[..8] == "AT+CCHC=" && Atoi(c[8..|c| - 2]) == channel && c[|c| - 2..] == "\r\n"
  {
    var c := CchcCommand(channel);
    assert c[8..|c| - 2] == SignedDecimal(channel);
    AtoiSignedDecimal(channel);
  }

  // ---------------------------------------------------------------------
  // The command lines, read back the way a modem reads them.

  /** `strcspn(s, ",")`: where `strtok` cuts a token. */
  function CommaPos(s: string): (p: nat)
    ensures p <= |s|
    ensures ',' !in s[..p]
    ensures p < |s| ==> s[p] == ','
  {
    Span(s, {','})
  }

  predicate AllDigits(s: string) {
    forall i :: 0 <= i < |s| ==> IsDigit(s[i])
  }

  /** `<length>,"<hex>` : the announced length and the decoded bytes. */
  function ReadLengthAndData(body: string): (r: Option<(nat, seq<byte>)>)
  {
    var c := CommaPos(body);
    var field := body[..c];
    if c + 1 >= |body| || body[c + 1] != '"' || field == [] || !AllDigits(field) then None
    else match HexDecode(body[c + 2..])
      case None => None
      case Some(apdu) => Some((DigitsValue(field), apdu))
  }

  const CsimPrefix: string := "AT+CSIM="
  const CglaPrefix: string := "AT+CGLA="

  /** The text between an eight-character command prefix and the trailer. */
  function ReadFramed(prefix: string, cmd: string): (body: Option<string>)
    requires |prefix| == 8
    ensures body.Some? ==> cmd == prefix + body.value + Trailer
  {
    if |cmd| < 11 || cmd[..8] != prefix || cmd[|cmd| - 3..] != Trailer then None
    else
      var body := cmd[8..|cmd| - 3];
      assert cmd == cmd[..8] + body + cmd[|cmd| - 3..];
      Some(body)
  }

  /** The length and APDU a modem finds in an `AT+CSIM=` line. */
  function ReadCsimCommand(cmd: string): Option<(nat, seq<byte>)> {
    match ReadFramed(CsimPrefix, cmd)
    case None => None
    case Some(body) => ReadLengthAndData(body)
  }

  /** The channel, length and APDU a modem finds in an `AT+CGLA=` line. */
  function ReadCglaCommand(cmd: string): Option<(int, nat, seq<byte>)> {
    match ReadFramed(CglaPrefix, cmd)
    case None => None
    case Some(body) => ReadChannelLengthAndData(body)
  }

  /** `<channel>,<length>,"<hex>`. */
  function ReadChannelLengthAndData(body: string): Option<(int, nat, seq<byte>)> {
    var c := CommaPos(body);
    if c == |body| then None
    else match ReadLengthAndData(body[c + 1..])
      case None => None
      case Some((n, apdu)) => Some((Atoi(body[..c]), n, apdu))
  }

  lemma FramedRoundTrip(prefix: string, body: string)
    requires |prefix| == 8
    ensures ReadFramed(prefix, prefix + body + Trailer) == Some(body)
  {
    var cmd := prefix + body + Trailer;
    assert cmd[..8] == prefix && cmd[|cmd| - 3..] == Trailer && cmd[8..|cmd| - 3] == body;
  }

  lemma LengthAndDataRoundTrip(n: nat, data: seq<byte>)
    ensures ReadLengthAndData(Decimal(n) + ",\"" + HexEncode(data)) == Some((n, data))
  {
    var d := Decimal(n);
    var body := d + ",\"" + HexEncode(data);
    assert ',' !in d by {
      forall i | 0 <= i < |d| ensures d[i] != ',' {
        assert IsDigit(d[i]);
      }
    }
    assert body == d + (",\"" + HexEncode(data));
    SpanAt(d, ",\"" + HexEncode(data), {','});
    assert body[..|d|] == d;
    assert body[|d| + 2..] == HexEncode(data);
    HexRoundTrip(data);
    DecimalValue(n);
  }

  /** The modem recovers the APDU from an AT+CSIM line, and the length
      field counts its hex digits (`tx_len * 2` does not wrap below 2^31
      bytes). */
  lemma CsimCommandRoundTrip(tx: seq<byte>)
    requires |tx| < 0x8000_0000
    ensures ReadCsimCommand(CsimCommand(tx)) == Some((2 * |tx|, tx))
    ensures 2 * |tx| == |HexEncode(tx)|
  {
    var body := Decimal(2 * |tx|) + ",\"" + HexEncode(tx);
    CsimCommandFramed(tx);
    FramedRoundTrip(CsimPrefix, body);
    LengthAndDataRoundTrip(2 * |tx|, tx);
  }

  lemma CsimCommandFramed(tx: seq<byte>)
    requires |tx| < 0x8000_0000
    ensures CsimCommand(tx) == CsimPrefix + (Decimal(2 * |tx|) + ",\"" + HexEncode(tx)) + Trailer
  {
    assert U32(2 * |tx|) == 2 * |tx|;
    Regroup(CsimPrefix, Decimal(2 * |tx|), ",\"", HexEncode(tx), Trailer);
  }

  /** The modem recovers the logical channel, the length and the APDU from
      an AT+CGLA line. */
  lemma CglaCommandRoundTrip(channel: int, tx: seq<byte>)
    requires |tx| < 0x8000_0000
    ensures ReadCglaCommand(CglaCommand(channel, tx)) == Some((channel, 2 * |tx|, tx))
  {
    var body := SignedDecimal(channel) + "," + Decimal(2 * |tx|) + ",\"" + HexEncode(tx);
    CglaCommandFramed(channel, tx);
    FramedRoundTrip(CglaPrefix, body);
    ChannelLengthAndDataRoundTrip(channel, 2 * |tx|, tx);
  }

  lemma CglaCommandFramed(channel: int, tx: seq<byte>)
    requires |tx| < 0x8000_0000
    ensures CglaCommand(channel, tx)
         == CglaPrefix + (SignedDecimal(channel) + "," + Decimal(2 * |tx|) + ",\"" + HexEncode(tx)) + Trailer
  {
    assert U32(2 * |tx|) == 2 * |tx|;
    Regroup(CglaPrefix + SignedDecimal(channel) + ",", Decimal(2 * |tx|), ",\"", HexEncode(tx), Trailer);
    Regroup(CglaPrefix, SignedDecimal(channel), ",", Decimal(2 * |tx|) + ",\"" + HexEncode(tx), Trailer);
    Flatten(SignedDecimal(channel), ",", Decimal(2 * |tx|), ",\"", HexEncode(tx));
  }

  lemma ChannelLengthAndDataRoundTrip(channel: int, n: nat, tx: seq<byte>)
    ensures ReadChannelLengthAndData(SignedDecimal(channel) + "," + Decimal(n) + ",\"" + HexEncode(tx))
         == Some((channel, n, tx))
  {
    var ch := SignedDecimal(channel);
    var tail := Decimal(n) + ",\"" + HexEncode(tx);
    assert ch + "," + tail == SignedDecimal(channel) + "," + Decimal(n) + ",\"" + HexEncode(tx);
    SignedDecimalNoComma(channel);
    SplitAtComma(ch, tail);
    LengthAndDataRoundTrip(n, tx);
    AtoiSignedDecimal(channel);
  }

  /** A field without commas, a comma, and the rest: the first comma is the
      one after the field. */
  lemma SplitAtComma(head: string, tail: string)
    requires ',' !in head
    ensures var s := head + "," + tail;
      CommaPos(s) == |head| && s[..|head|] == head && s[|head| + 1..] == tail
  {
    var s := head + "," + tail;
    assert s == head + ("," + tail);
    SpanAt(head, "," + tail, {','});
  }

  lemma SignedDecimalNoComma(i: int)
    ensures ',' !in SignedDecimal(i)
  {
    var ch := SignedDecimal(i);
    forall k | 0 <= k < |ch| ensures ch[k] != ',' {
      if i < 0 && k > 0 {
        assert ch[k] == Decimal(-i)[k - 1];
      }
    }
  }

  /** The `AT+CSIM=%u,"` header always fits the 24-byte format buffer, so
      it is never truncated. */
  lemma CsimHeaderFits(n: nat)
    ensures |CsimHeader(n)| < 24
  {
    DecimalLength(U32(2 * n), 10, Pow10(10));
  }

  /** The `AT+CGLA=%d,%u,"` header fits the 24-byte format buffer for any
      channel from -9 to 99. */
  lemma CglaHeaderFits(channel: int, n: nat)
    requires -9 <= channel <= 99
    ensures |CglaHeader(channel, n)| < 24
  {
    DecimalLength(U32(2 * n), 10, Pow10(10));
    if channel < 0 {
      DecimalLength(-channel, 1, Pow10(1));
    } else {
      DecimalLength(channel, 2, Pow10(2));
    }
  }

  // ---------------------------------------------------------------------
  // The reply field after the tag: `ident,"HEX"`.

  /** Every character of `s` is a comma. */
  predicate OnlyCommas(s: string) {
    forall i :: 0 <= i < |s| ==> s[i] == ','
  }

  /** Leading commas, which `strtok` passes over. */
  function SkipCommas(s: string): (t: string)
    ensures |t| <= |s| && t == s[|s| - |t|..]
    ensures OnlyCommas(s[..|s| - |t|])
    ensures t != [] ==> t[0] != ','
  {
    if s != [] && s[0] == ',' then
      var t := SkipCommas(s[1..]);
      assert s[..|s| - |t|] == [','] + s[1..][..|s| - 1 - |t|];
      t
    else s
  }

  /** `s` is commas, then `tok`, then either nothing (and `rest` is empty)
      or a comma and `rest`. */
  predicate TokenOf(s: string, tok: string, rest: string) {
    var k1 := |s| - |tok|;
    var k2 := |s| - |tok| - 1 - |rest|;
    (0 <= k1 && OnlyCommas(s[..k1]) && s[k1..] == tok && rest == []) ||
    (0 <= k2 && OnlyCommas(s[..k2]) && s[k2..] == tok + [','] + rest)
  }

  /** `strtok(s, ",")`: the next non-empty run without commas, and the text
      after the comma that ends it. No token at all exactly when `s` is
      only commas. */
  function StrTok(s: string): (r: Option<(string, string)>)
    ensures r.None? <==> OnlyCommas(s)
    ensures r.Some? ==> r.value.0 != [] && ',' !in r.value.0
    ensures r.Some? ==> TokenOf(s, r.value.0, r.value.1)
  {
    var t := SkipCommas(s);
    if t == [] then
      OnlyCommasSkipped(s);
      None
    else
      var p := CommaPos(t);
      var tok := t[..p];
      var rest := if p < |t| then t[p + 1..] else [];
      NotOnlyCommas(s, |s| - |t|);
      TokenAfterCommas(s, t, tok, rest);
      Some((tok, rest))
  }

  lemma OnlyCommasSkipped(s: string)
    requires SkipCommas(s) == []
    ensures OnlyCommas(s)
  {
    assert s[..|s|] == s;
  }

  lemma NotOnlyCommas(s: string, k: int)
    requires 0 <= k < |s| && s[k] != ','
    ensures !OnlyCommas(s)
  {
  }

  /** The text after the leading commas, cut at its first comma: a
      non-empty token without commas, and what follows that comma. */
  lemma TokenAfterCommas(s: string, t: string, tok: string, rest: string)
    requires |t| <= |s| && t == s[|s| - |t|..] && OnlyCommas(s[..|s| - |t|])
    requires t != [] && t[0] != ','
    requires tok == t[..CommaPos(t)]
    requires rest == if CommaPos(t) < |t| then t[CommaPos(t) + 1..] else []
    ensures tok != [] && ',' !in tok
    ensures TokenOf(s, tok, rest)
  {
    var p := CommaPos(t);
    if p < |t| {
      assert t == t[..p] + [','] + t[p + 1..];
    } else {
      assert t[..p] == t;
    }
  }

  /** The token a second `strtok(NULL, ",")` returns. */
  function SecondToken(s: string): (r: Option<string>)
    ensures r.Some? ==> r.value != [] && ',' !in r.value
    ensures r.None? <==> StrTok(s).None? || OnlyCommas(StrTok(s).value.1)
  {
    match StrTok(s)
    case None => None
    case Some((_, rest)) =>
      match StrTok(rest)
      case None => None
      case Some((tok, _)) => Some(tok)
  }

  /** A reply field without a comma has no second token, so the transmit
      gets no payload. */
  lemma NoCommaNoPayload(s: string)
    requires ',' !in s
    ensures SecondToken(s).None? && ParsePayload(s).None?
  {
  }

  /** `strcspn(s, "\"")`. */
  function QuotePos(s: string): (p: nat)
    ensures p <= |s| && '"' !in s[..p]
    ensures p < |s| ==> s[p] == '"'
  {
    Span(s, {'"'})
  }

  /** One leading quote dropped, then cut at the next quote. */
  function HexField(tok: string): (h: string)
    ensures '"' !in h
    ensures var u := if tok != [] && tok[0] == '"' then tok[1..] else tok;
      h <= u && (|h| < |u| ==> u[|h|] == '"')
  {
    var u := if tok != [] && tok[0] == '"' then tok[1..] else tok;
    u[..QuotePos(u)]
  }

  /** The bytes a transmit returns for the text after the reply tag. */
  function ParsePayload(resp: string): Option<seq<byte>> {
    match SecondToken(resp)
    case None => None
    case Some(tok) => HexDecode(HexField(tok))
  }

  /** A reply field as a modem writes it. */
  function FormatPayload(ident: string, data: seq<byte>): string {
    ident + ",\"" + HexEncode(data) + "\""
  }

  lemma {:induction false} SkipCommasNone(s: string)
    requires s == [] || s[0] != ','
    ensures SkipCommas(s) == s
  {
  }

  /** The second field, unquoted and decoded, is the data the modem sent. */
  lemma ParsePayloadRoundTrip(ident: string, data: seq<byte>)
    requires ident != [] && ',' !in ident
    ensures ParsePayload(FormatPayload(ident, data)) == Some(data)
  {
    var hex := HexEncode(data);
    var quoted := "\"" + hex + "\"";
    var s := FormatPayload(ident, data);
    FormatPayloadFields(ident, data);
    HexNoPunctuation(data);
    StrTokField(ident, quoted);
    QuotedNoComma(hex);
    StrTokLast(quoted);
    assert SecondToken(s) == Some(quoted);
    HexFieldQuoted(hex);
    HexRoundTrip(data);
    assert ParsePayload(s) == HexDecode(hex);
  }

  lemma FormatPayloadFields(ident: string, data: seq<byte>)
    ensures FormatPayload(ident, data) == ident + "," + ("\"" + HexEncode(data) + "\"")
  {
    assert ",\"" == "," + "\"";
    Split(ident, ",", "\"", HexEncode(data), "\"");
  }

  lemma HexNoPunctuation(bs: seq<byte>)
    ensures ',' !in HexEncode(bs) && '"' !in HexEncode(bs)
  {
    var h := HexEncode(bs);
    HexEncodeUpper(bs);
    forall i | 0 <= i < |h| ensures h[i] != ',' && h[i] != '"' {
      assert IsUpperHex(h[i]);
    }
  }

  lemma QuotedNoComma(hex: string)
    requires ',' !in hex
    ensures ',' !in "\"" + hex + "\""
  {
    var q := "\"" + hex + "\"";
    forall i | 0 <= i < |q| ensures q[i] != ',' {
      if 0 < i < |q| - 1 {
        assert q[i] == hex[i - 1];
      }
    }
  }

  /** `strtok` returns a leading field that has no commas and splits off
      the text after its comma. */
  lemma StrTokField(head: string, tail: string)
    requires head != [] && ',' !in head
    ensures StrTok(head + "," + tail) == Some((head, tail))
  {
    var s := head + "," + tail;
    SkipCommasNone(s);
    SplitAtComma(head, tail);
  }

  /** A last token without commas is returned whole. */
  lemma StrTokLast(t: string)
    requires t != [] && ',' !in t
    ensures StrTok(t) == Some((t, []))
  {
    SkipCommasNone(t);
    SpanUnique(t, {','}, |t|);
    assert t[..|t|] == t;
  }

  lemma HexFieldQuoted(hex: string)
    requires '"' !in hex
    ensures HexField("\"" + hex + "\"") == hex
  {
    var q := "\"" + hex + "\"";
    assert q[1..] == hex + "\"";
    SpanAt(hex, "\"", {'"'});
    assert (hex + "\"")[..|hex|] == hex;
  }

  /** The example reply field `4,"9000"` yields the status word bytes
      90 00. */
  lemma ParsePayloadExample(s: string)
    requires s == "4,\"9000\""
    ensures ParsePayload(s) == Some([0x90, 0x00])
  {
    assert s == FormatPayload("4", [0x90, 0x00]);
    ParsePayloadRoundTrip("4", [0x90, 0x00]);
  }

  /** With no identifier before the comma, the quoted data is the FIRST
      token and there is no second one: the reply is rejected. */
  lemma EmptyIdentifierRejected(data: seq<byte>)
    ensures ParsePayload(FormatPayload("", data)).None?
  {
    var hex := HexEncode(data);
    var quoted := "\"" + hex + "\"";
    var s := FormatPayload("", data);
    assert s == "," + quoted;
    HexNoPunctuation(data);
    QuotedNoComma(hex);
    assert s[1..] == quoted;
    SkipCommasNone(quoted);
    assert SkipCommas(s) == quoted;
    StrTokLast(quoted);
    assert StrTok(s) == Some((quoted, []));
    assert StrTok([]).None?;
  }

  // ---------------------------------------------------------------------
  // Status words: READU16, HIBYTE and LOBYTE.

  /** Big-endian 16-bit value of two bytes. */
  function ReadU16(hi: byte, lo: byte): (w: nat)
    ensures w < 0x10000
  {
    hi * 256 + lo
  }

  function HiByte(w: nat): byte {
    (w / 256) % 256
  }

  function LoByte(w: nat): byte {
    w % 256
  }

  /** SW1 and SW2 come back out of the 16-bit status word unchanged. */
  lemma StatusWordBytes(hi: byte, lo: byte)
    ensures HiByte(ReadU16(hi, lo)) == hi
    ensures LoByte(ReadU16(hi, lo)) == lo
  {
    var w := ReadU16(hi, lo);
    assert w / 256 == hi;
  }
}
