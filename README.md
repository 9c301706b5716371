# AT-command APDU transport, modelled in Dafny

This project models the AT-command APDU transport of lpac (`driver/apdu/at.c`).
The transport tunnels ISO/IEC 7816-4 APDUs to a cellular modem over a serial line. It uses the
3GPP TS 27.007 commands +CSIM (section 8.17), +CGLA (section 8.43), +CCHO (section 8.45) and
+CCHC (section 8.46).

The serial port is replaced by a scripted modem:
- `pending` is the list of chunks that successive `read` calls return; `""` is a read of zero bytes.
- `written` is the log of every character sent to the modem.
- When the script runs out, the C code would poll forever. Such a run ends in `Blocks` (datatype `Run`)
  instead of returning a value.

Files and modules:
- `wire.dfy` (`Wire`): bytes, the `strcspn` search (`Span`) that `strlen`, the CR/LF cut, `strtok` and the quote cut share, C strings, upper-case hex encoding and decoding, `%u`/`%d`
  decimal formatting, and `atoi`.
- `scanner.dfy` (`Scanner`): `at_expect` as functions. `Segments` cuts a read at every CR or LF.
  `Classify` tests ERROR by substring before OK by exact match before the tag prefix. `ScanSegments`
  is the inner loop and `ExpectLoop`/`Expect` the outer loop over reads.
- `commands.dfy` (`Commands`): the command strings (`AT+CSIM=`, `AT+CGLA=`, `AT+CCHO=`, `AT+CCHC=`),
  decoders that read a command back, the `strtok`/quote-stripping response parser, and the
  `READU16`/`HIBYTE`/`LOBYTE` macros.
- `protocol.dfy` (`Protocol`): a `Session` (the global `logic_channel`, the pending reads, the write log)
  and one function per driver operation: transmit in both dialects, channel open with its GET RESPONSE
  loop, close, connect and disconnect, with the lemmas about them.
- `driver.dfy` (`Driver`): class `AtDriver`, the imperative driver. Its fields are the receive `buffer`
  (an array), `logicChannel`, the script and the write log. `AtExpect` cuts segments by writing NULs
  into the buffer in place, as the C code does. Every method is proved to produce exactly the result
  and new state of the corresponding `Protocol` function.

Behaviour of the code that the model reproduces as written:
- `at_expect` does not reassemble lines. Each read overwrites the buffer from offset 0, so a line
  split across two reads is classified as two fragments (`SplitLineIsNotReassembled`). A read of zero
  bytes rescans only the first, already NUL-cut segment of the previous read. A modem that delivers
  one byte per read never ends a scan (`ByteAtATimeNeverEnds`).
- The verdict at `at.c:666` is `!(sw1 == 0x90) && (sw2 == 0x00)`, so the open fails exactly when SW1 is
  not 0x90 and SW2 is 0x00. A status of 6A82 leaves the channel at 1 (`OpenCsimKeepsChannelOn6A82`).
- The CGLA-dialect close sends `AT+CCHC=<channel>` but does not reset `logic_channel`, so a later open
  returns the old channel without sending anything (`CloseThenOpen`).
- The CCHO open stores `atoi` of the `+CCHO: ` remainder. A remainder that is not a number gives
  channel 0 (`RequestChannelWithoutNumber`).
- `logic_channel == -1` does not make transmit fail fast; only 0 does.
- The CGLA tag is `+CGLA:` with no space after the colon.

## Model

| member | source | states |
|---|---|---|
| Wire.Span | driver/apdu/at.c:199 | `strcspn(s, stops)`: no stop character before the result; a stop character at it when it is inside the text |
| Wire.SpanUnique | driver/apdu/at.c:199 | the span is the only index with no stop before it and a stop or the end at it |
| Wire.NulPos | driver/apdu/at.c:198 | `strlen`: no NUL before the result; a NUL at the result when it is inside the buffer |
| Wire.CStr | driver/apdu/at.c:189-191 | the C string in a buffer is a NUL-free prefix that ends at a NUL or at the buffer end |
| Wire.CStrCut | driver/apdu/at.c:208 | writing a NUL at index k of a C string truncates it to its first k characters |
| Wire.HexByte | driver/apdu/at.c:416-421 | `%02X` of one byte is two upper-case hex digits |
| Wire.HexEncodeUpper | driver/apdu/at.c:413-425 | every character the hex loop writes is an upper-case hex digit |
| Wire.HexEncodeAppend | driver/apdu/at.c:413-425 | encoding a concatenation writes the encodings one after the other, two digits per byte in order |
| Wire.HexRoundTrip | driver/apdu/at.c:461 | the assumed hex decoder inverts the hex loop |
| Wire.HexEncode | driver/apdu/at.c:413-425 | the hex loop writes two characters per byte; `HexEncodeUpper` shows they are upper-case hex digits and `HexRoundTrip` that they decode back to the bytes |
| Wire.Decimal | driver/apdu/at.c:404-407 | `%u` prints a non-empty digit string with no leading zero |
| Wire.SignedDecimal | driver/apdu/at.c:500 | `%d`: a minus sign exactly when the number is negative, then only digits with no leading zero unless the number is 0; `AtoiSignedDecimal` reads the number back |
| Wire.Atoi | driver/apdu/at.c:724 | `atoi`: skips leading white space, takes an optional sign and the leading digits (no contract of its own; `AtoiSignedDecimal` and `Protocol.RequestChannelWithoutNumber` characterize it) |
| Wire.U32 | driver/apdu/at.c:407 | `tx_len * 2` is computed in 32 unsigned bits; small values are unchanged |
| Wire.AtoiSignedDecimal | driver/apdu/at.c:724 | `atoi` reads back the number that `%d` printed |
| Wire.DecimalValue | driver/apdu/at.c:724 | the digits of `%u` have the printed value |
| Wire.DecimalLength | driver/apdu/at.c:59 | a number below 10^k prints in at most k digits (used for the 24-byte buffers) |
| Scanner.DelimPos | driver/apdu/at.c:199 | `strcspn(start_p, "\r\n")`: no CR or LF before the result; one at it when inside |
| Scanner.Segments | driver/apdu/at.c:196-233 | the segments the scan visits contain no CR or LF; a non-empty read has at least one segment |
| Scanner.FirstSegment | driver/apdu/at.c:208 | the first segment is a delimiter-free prefix of the read |
| Scanner.Contains | driver/apdu/at.c:214 | `strstr(s, pat) != NULL` holds exactly when `pat` occurs in `s` at some offset |
| Scanner.Classify | driver/apdu/at.c:214-226 | ERROR iff the segment contains "ERROR"; OK iff it equals "OK" without ERROR; data iff neither and it starts with the tag, the data being the text after the tag |
| Scanner.ScanSegments | driver/apdu/at.c:196-233 | a scan that stops returns 0 or -1 |
| Scanner.ScanCharacterized | driver/apdu/at.c:196-233 | the scan stops at the first ERROR-or-OK segment, with -1 iff it contains ERROR; the response is the text after the tag in the last capturing segment before it, and is unchanged when none captures |
| Scanner.LastCaptureCons | driver/apdu/at.c:222-226 | a later capturing segment replaces the stored response |
| Scanner.ExpectLoop | driver/apdu/at.c:182-250 | each read is consumed from the script; a return consumes at least one read and yields 0 or -1; `Blocks` only when the script is exhausted |
| Scanner.Expect | driver/apdu/at.c:176-180 | the response starts empty: with no tag the result carries no response |
| Scanner.ScanNoTagNoResponse | driver/apdu/at.c:222 | without an expected tag no segment is captured |
| Scanner.ExpectNoTagNoResponse | driver/apdu/at.c:179-180 | without an expected tag `at_expect` returns with the response still NULL |
| Scanner.ExpectFirstRead | driver/apdu/at.c:185-233 | unfolding step of the outer loop: one read is scanned from its start, and a scan without a verdict goes on to the next read with the kept first segment (for a zero read) |
| Scanner.SegmentsOfCrLfLines | driver/apdu/at.c:196-233 | CRLF-terminated lines split into each line followed by an empty segment between CR and LF |
| Scanner.TaggedReplyInOneRead | driver/apdu/at.c:433-440 | a read holding a tagged line then OK returns 0 with the text after the tag |
| Scanner.ZeroReadRescans | driver/apdu/at.c:189-196 | a zero-byte read rescans the kept first segment: it captures again if tagged and never stops |
| Scanner.KeptSegmentNotTerminal | driver/apdu/at.c:228-233 | the segment left in the buffer after a scan without verdict is neither ERROR nor OK |
| Scanner.SplitLineIsNotReassembled | driver/apdu/at.c:185-191 | `+CSIM: 4,"90` and `00"` then OK in two reads returns the fragment `4,"90`, not `4,"9000"` |
| Scanner.SplitLineFirstRead | driver/apdu/at.c:222-233 | the first fragment is captured and the scan continues |
| Scanner.SplitLineSecondRead | driver/apdu/at.c:185-233 | the second read overwrites the buffer; its fragment is noise and OK ends the scan with the first capture |
| Scanner.ByteAtATimeNeverEnds | driver/apdu/at.c:182-250 | reads of at most one character never form "OK" or "ERROR": the scan blocks |
| Commands.CsimCommandRoundTrip | driver/apdu/at.c:404-431 | the CSIM command is `AT+CSIM=` + decimal(2n) + `,"` + hex of the APDU + `"\r\n`: reading it back gives 2n and the APDU |
| Commands.CsimCommandFramed | driver/apdu/at.c:404-431 | the CSIM command has exactly the prefix, length, quoted hex and trailer |
| Commands.CglaCommandRoundTrip | driver/apdu/at.c:498-525 | the CGLA command carries the channel as first parameter, then 2n and the APDU, and reads back to all three |
| Commands.CglaCommandFramed | driver/apdu/at.c:498-525 | the CGLA command has exactly the prefix, channel, length, quoted hex and trailer |
| Commands.ChannelLengthAndDataRoundTrip | driver/apdu/at.c:500-502 | the `%d,%u,"` parameters read back to channel, length and data |
| Commands.FramedRoundTrip | driver/apdu/at.c:427-431 | a command is its prefix, its parameters and the `"\r\n` trailer |
| Commands.CsimHeaderFits | driver/apdu/at.c:404-407 | the CSIM header always fits the 24-byte buffer |
| Commands.CglaHeaderFits | driver/apdu/at.c:498-502 | the CGLA header fits the 24-byte buffer for channels -9 to 99 |
| Commands.CsimHeader | driver/apdu/at.c:404-407 | `AT+CSIM=%u,"` with `tx_len * 2` in 32 bits (no contract of its own; `CsimHeaderFits` bounds it below 24 bytes) |
| Commands.CsimCommand | driver/apdu/at.c:404-431 | header, hex loop and `"\r\n` trailer (no contract of its own; `CsimCommandRoundTrip` shows a modem reads back 2n and the APDU) |
| Commands.CglaHeader | driver/apdu/at.c:498-502 | `AT+CGLA=%d,%u,"` with the channel first (no contract of its own; `CglaHeaderFits` bounds it) |
| Commands.CglaCommand | driver/apdu/at.c:498-525 | header, hex loop and trailer (no contract of its own; `CglaCommandRoundTrip` shows a modem reads back channel, 2n and the APDU) |
| Commands.CchoCommand | driver/apdu/at.c:698-716 | `AT+CCHO="`, the AID in hex and the trailer (no contract of its own; see `CchoCommandCarriesAid`) |
| Commands.CchoCommandCarriesAid | driver/apdu/at.c:698-716 | the CCHO line is the `AT+CCHO="` prefix, 2n hex digits that decode to the AID, and the trailer |
| Commands.CchcCommand | driver/apdu/at.c:686-689 | `AT+CCHC=%d\r\n` (no contract of its own; see `CchcCommandNamesChannel`) |
| Commands.CchcCommandNamesChannel | driver/apdu/at.c:747-750 | the CCHC line is `AT+CCHC=`, a number that `atoi` reads back as the channel, and CR LF |
| Commands.StrTok | driver/apdu/at.c:442-443 | no token exactly when the text is only commas; otherwise the token is non-empty and comma-free, and the text is leading commas, the token, and either nothing (the rest is then empty) or a comma and the rest |
| Commands.SkipCommas | driver/apdu/at.c:442 | the result is a suffix of the text that does not start with a comma, and everything skipped is a comma |
| Commands.SecondToken | driver/apdu/at.c:443 | the second `strtok` token is non-empty and comma-free, and it is missing exactly when there is no first token or only commas follow it |
| Commands.NoCommaNoPayload | driver/apdu/at.c:442-447 | a reply field without a comma has no second token, so parsing it fails |
| Commands.CommaPos | driver/apdu/at.c:442-443 | where `strtok(",")` cuts: no comma before the result; a comma at it when it is inside |
| Commands.QuotePos | driver/apdu/at.c:452 | `strcspn(hexstr, "\"")`: no quote before the cut; a quote at the cut when it is inside |
| Commands.HexField | driver/apdu/at.c:448-452 | the field is a quote-free prefix of the token with one leading quote dropped, and it ends at the next quote or at the end of the token |
| Commands.ParsePayloadRoundTrip | driver/apdu/at.c:442-466 | a reply `ident,"HEX"` with a non-empty identifier parses to the bytes that were hex-encoded |
| Commands.ParsePayloadExample | driver/apdu/at.c:442-466 | `4,"9000"` decodes to the bytes 0x90 0x00 |
| Commands.EmptyIdentifierRejected | driver/apdu/at.c:442-447 | a reply with no text before the comma has no second token and fails |
| Commands.StrTokField | driver/apdu/at.c:442-443 | `strtok` splits a non-empty head at the first comma |
| Commands.HexFieldQuoted | driver/apdu/at.c:448-452 | a quoted hex string yields the hex between the quotes |
| Commands.ParsePayload | driver/apdu/at.c:442-466 | second token, one quote dropped, cut at the next quote, hex-decoded (no contract of its own; `ParsePayloadRoundTrip` shows it inverts the modem's `ident,"HEX"` field) |
| Commands.ReadU16 | driver/apdu/at.c:52-53 | `READU16` builds a 16-bit word |
| Commands.StatusWordBytes | driver/apdu/at.c:37-53 | `HIBYTE`/`LOBYTE` of `READU16(hi, lo)` give back hi and lo |
| Commands.HiByte | driver/apdu/at.c:40-41 | `HIBYTE` (no contract of its own; `StatusWordBytes` shows it recovers the high byte of `READU16`) |
| Commands.LoByte | driver/apdu/at.c:37-38 | `LOBYTE` (no contract of its own; `StatusWordBytes` shows it recovers the low byte of `READU16`) |
| Protocol.ReplyExchange | driver/apdu/at.c:433-476 | success iff `at_expect` returned 0 with a response whose second token decodes; then rx is the decoded bytes; every other outcome is -1 with rx empty |
| Protocol.Transmit | driver/apdu/at.c:382-477 | with channel 0: -1, rx empty, nothing written, no read; otherwise the dialect's command is appended to the log, one `at_expect` consumes reads, and the channel is unchanged |
| Protocol.TransmitReturnsAnswer | driver/apdu/at.c:433-466 | a tagged answer then OK returns 0 and exactly the answered bytes |
| Protocol.TransmitErrorFails | driver/apdu/at.c:433-436 | an ERROR reply fails with rx empty after writing the command |
| Protocol.TransmitOkWithoutDataFails | driver/apdu/at.c:437-440 | OK with no tagged line fails with rx empty |
| Protocol.CglaTransmitCarriesChannel | driver/apdu/at.c:498-525 | the CGLA transmit appends a command that names the current channel, 2n and the APDU |
| Protocol.CsimTransmitCarriesApdu | driver/apdu/at.c:404-431 | the CSIM transmit appends a command that reads back to 2n and the APDU |
| Protocol.ExpectOk | driver/apdu/at.c:218-221 | a read holding only OK returns 0 with no response |
| Protocol.ExpectError | driver/apdu/at.c:214-217 | a read holding only ERROR returns -1 |
| Protocol.StatusOf | driver/apdu/at.c:621-629 | a status word exists iff the exchange succeeded with at least two bytes |
| Protocol.StatusOfMacros | driver/apdu/at.c:627-629 | the status word is `HIBYTE`/`LOBYTE` of `READU16` of the last two bytes |
| Protocol.SelectIsdr | driver/apdu/at.c:610-612 | SELECT is CLA = channel, INS A4, P1 04, P2 00, Lc 16 and the 16-byte ISD-R AID |
| Protocol.ToByte | driver/apdu/at.c:610 | the channel stored as the CLA byte is unchanged when it is within 0..255 |
| Protocol.GetResponse | driver/apdu/at.c:636 | GET RESPONSE is CLA = channel, INS C0, P1 00, P2 00, Le = the SW2 of the 61xx |
| Protocol.GetResponseLoop | driver/apdu/at.c:631-657 | the loop ends only with SW1 other than 0x61, sends at least one GET RESPONSE, and keeps the channel |
| Protocol.GetResponseLoopStops | driver/apdu/at.c:640-657 | a GET RESPONSE whose status is not 61xx ends the loop with that status |
| Protocol.GetResponseLoopFails | driver/apdu/at.c:631-657 | any GET RESPONSE that yields no status word (failed transmit or fewer than two bytes) ends the loop with SW1 = 0 and SW2 = the requested length, after that one exchange |
| Protocol.GetResponseLoopError | driver/apdu/at.c:631-657 | a GET RESPONSE answered ERROR ends the loop with SW1 = 0 and SW2 = the requested length |
| Protocol.SelectStatus | driver/apdu/at.c:617-663 | no status word gives 0000 with nothing sent; a status other than 61xx is taken as is; a continued status never has SW1 = 0x61; the channel is kept |
| Protocol.OpenCsim | driver/apdu/at.c:570-671 | an open channel (1 or -1) is returned unchanged with nothing sent; otherwise the result is 1 or -1 and equals the new channel |
| Protocol.OpenFails | driver/apdu/at.c:666 | the verdict `!(sw1 == 0x90) && sw2 == 0x00` (no contract of its own; `OpenCsimVerdict` and `OpenCsimKeepsChannelOn6A82` state its effect) |
| Protocol.OpenCsimVerdict | driver/apdu/at.c:666-670 | the channel becomes -1 iff the final SW1 is not 0x90 and SW2 is 0x00, else 1 |
| Protocol.OpenCsimKeepsChannelOn6A82 | driver/apdu/at.c:666 | status 6A82 leaves the channel at 1 |
| Protocol.OpenCsimOutcomes | driver/apdu/at.c:666-670 | 9000 opens channel 1; 6D00 fails with -1 |
| Protocol.OpenCsimSelectErrorFails | driver/apdu/at.c:614-670 | a SELECT answered ERROR leaves SW 0000, so the open returns -1 and stores -1 |
| Protocol.OpenCsimSelectFails | driver/apdu/at.c:614-670 | any SELECT that yields no status word (failed transmit or fewer than two bytes) makes the open return -1 and store -1 |
| Protocol.OpenCsimThroughSelect | driver/apdu/at.c:585-619 | the open sends MANAGE CHANNEL then SELECT with CLA 1 and continues from the SELECT status |
| Protocol.OpenCsimOneGetResponse | driver/apdu/at.c:631-670 | SELECT answered 6112, then 9000, sends one GET RESPONSE with Le 0x12 and opens channel 1 |
| Protocol.GetResponseErrorVerdict | driver/apdu/at.c:631-670 | after 61xx, a failed GET RESPONSE gives -1 exactly when xx was 00 |
| Protocol.OpenCsimGetResponseFails | driver/apdu/at.c:631-670 | after 61xx, any GET RESPONSE without a status word makes the status 00xx, so the open fails exactly when xx is 00 |
| Protocol.PreClose | driver/apdu/at.c:684-695 | the pre-close keeps the channel and, when it returns, has written `AT+CCHC=i` for i from the start to 4 in order, whatever the replies |
| Protocol.PreCloseOks | driver/apdu/at.c:684-695 | with OK replies the loop sends `AT+CCHC=i` for i from the start up to 4, consuming one read each |
| Protocol.PreCloseAllOk | driver/apdu/at.c:684-695 | the loop sends `AT+CCHC=1` to `AT+CCHC=4` in order |
| Protocol.OpenCcho | driver/apdu/at.c:674-727 | an open channel is returned unchanged with nothing sent; otherwise the result is the new channel, or -1 with the channel left at 0 |
| Protocol.RequestChannel | driver/apdu/at.c:697-726 | writes `AT+CCHO="<HEX(aid)>"\r\n` and consumes one `at_expect`; the result is the new channel, or -1 with the channel unchanged |
| Protocol.RequestChannelFails | driver/apdu/at.c:718-723 | an ERROR reply, or an OK without a `+CCHO: ` line, returns -1 with the channel unchanged after writing the command |
| Protocol.RequestChannelAssigns | driver/apdu/at.c:718-726 | a `+CCHO: n` reply sets the channel to n and returns n |
| Protocol.RequestChannelWithoutNumber | driver/apdu/at.c:724 | a `+CCHO: ` remainder that does not start with a number gives channel 0 |
| Protocol.OpenCchoAssignsChannel | driver/apdu/at.c:684-726 | the open sends four CCHC commands, then CCHO with the AID, and takes the channel from the reply |
| Protocol.OpenCchoErrorKeepsClosed | driver/apdu/at.c:718-720 | an ERROR to CCHO returns -1 and leaves the channel at 0 |
| Protocol.TransmitAfterCchoNamesChannel | driver/apdu/at.c:498-502 | after a CCHO open (channel set at at.c:724), the next CGLA transmit names the assigned channel |
| Protocol.Close | driver/apdu/at.c:732-757 | the close never changes the channel; CSIM sends nothing; CGLA sends `AT+CCHC=<channel>` when a channel is open |
| Protocol.CloseThenOpen | driver/apdu/at.c:739-757 | after a close the channel is still open, so a new open returns it without sending anything |
| Protocol.OpenTwice | driver/apdu/at.c:579-582 | a second open returns the first result unchanged; a CSIM open always leaves a non-zero channel |
| Protocol.Open | driver/apdu/at.c:768-775 | dispatch to the dialect's open: an open channel is returned unchanged; otherwise the result is the new channel or -1 with the channel left closed (0) or failed (-1) |
| Protocol.RunProbes | driver/apdu/at.c:316-362 | the probes keep the channel and return 0 or -1 (`ProbeRejected` and `ProbeAccepted` give each step) |
| Protocol.Probes | driver/apdu/at.c:316-362 | the probes of each dialect: `AT+CSIM=?`, or `AT+CCHO=?`, `AT+CCHC=?`, `AT+CGLA=?` in that order (no contract of its own) |
| Protocol.ProbeRejected | driver/apdu/at.c:316-362 | a probe whose reply is ERROR returns -1 at once, that probe being the last line written |
| Protocol.ProbeAccepted | driver/apdu/at.c:316-362 | a probe answered without ERROR is followed by the next probe, with the read consumed and the probe written |
| Protocol.ProbeError | driver/apdu/at.c:316-362 | an ERROR read in answer to the next probe makes the connect fail with -1 |
| Protocol.Connect | driver/apdu/at.c:254-367 | connect resets the channel to 0; a device that cannot be opened returns -1 |
| Protocol.ConnectCsimOk | driver/apdu/at.c:316-327 | OK to `AT+CSIM=?` connects with 0 after sending the probe |
| Protocol.Disconnect | driver/apdu/at.c:369-378 | disconnect resets the channel to 0 and leaves the script and the log alone (closing `s_fd` is left out) |
| Protocol.ReopenAfterReconnect | driver/apdu/at.c:254-378 | a failed channel (-1) blocks every open (at.c:579-582); a disconnect and a connect whose probe is answered OK reset it to 0, and the open then runs again |
| Driver.AtDriver.constructor | driver/apdu/at.c:82 | the driver starts with channel 0, the given script and an empty log |
| Driver.AtDriver.Write | driver/apdu/at.c:409 | a write appends to the log |
| Driver.AtDriver.Read | driver/apdu/at.c:185-191 | a read copies the next chunk to the buffer start and consumes it |
| Driver.AtDriver.CutSegment | driver/apdu/at.c:198-208 | measures the rest, finds the first CR or LF, writes a NUL there, and keeps the first segment of the read as the C string of the buffer |
| Driver.AtDriver.ScanBuffer | driver/apdu/at.c:193-234 | scanning the buffer in place gives `ScanSegments` of the read's segments |
| Driver.AtDriver.AtExpect | driver/apdu/at.c:176-252 | the in-place scan over reads gives exactly `Expect` of the script |
| Driver.AtDriver.WriteHex | driver/apdu/at.c:413-425 | the byte-by-byte loop appends the hex encoding |
| Driver.AtDriver.Transmit | driver/apdu/at.c:382-477 | the imperative transmit gives exactly `Protocol.Transmit` |
| Driver.AtDriver.ReadStatus | driver/apdu/at.c:627-629 | the status word taken with the macros is `StatusOf` of the response |
| Driver.AtDriver.GetResponses | driver/apdu/at.c:631-657 | the do-while loop gives exactly `GetResponseLoop` |
| Driver.AtDriver.OpenCsimChannel | driver/apdu/at.c:570-671 | the imperative CSIM open gives exactly `OpenCsim` |
| Driver.AtDriver.OpenCchoChannel | driver/apdu/at.c:674-727 | the imperative CCHO open gives exactly `OpenCcho` |
| Driver.AtDriver.Open | driver/apdu/at.c:570-727 | dispatches to the compiled-in open |
| Driver.AtDriver.Close | driver/apdu/at.c:732-757 | the imperative close gives exactly `Protocol.Close` |
| Driver.AtDriver.SendProbes | driver/apdu/at.c:316-362 | the probe sequence gives exactly `RunProbes` |
| Driver.AtDriver.Connect | driver/apdu/at.c:254-367 | the imperative connect gives exactly `Protocol.Connect` |
| Driver.AtDriver.Disconnect | driver/apdu/at.c:369-378 | the imperative disconnect gives exactly `Protocol.Disconnect` |

## Left out

- Serial plumbing (`open`, `fcntl`, termios, the `read`/`write` wrappers, `s_fd`, `FlushAll`, at.c:86-150, 277-301): replaced by the scripted modem. Whether the device opens is the `opens` parameter of `Connect`.
- The modem stays attached across `Disconnect`. The code closes `s_fd` (at.c:371-372), so an open or a transmit between a disconnect and the next connect writes to a closed descriptor and its reads fail. The model lets such a call run against the script; `ReopenAfterReconnect` reopens only after a new `Connect`.
- Write return values: the C code ignores them, so every write is modelled as successful.
- Read errors: `PosixModem_ReadResponse` (at.c:86-97) returns `read`'s -1 as a `size_t`, that is `SIZE_MAX`. `at_expect` then takes it for a non-empty read and writes its terminator far outside the buffer (at.c:189-190). The model has no failing read; a script can only give a read of zero bytes, which rescans the kept segment as the code does afterwards.
- Device enumeration and the command-line entry point (at.c:153-174, 786-806): directory listing and JSON output.
- Setup, environment variables and debug printing (at.c:62-74, 257, 760-784, 808): configuration and logging only. The dialect is a constructor parameter instead of `USE_AT_CSIM`.
- The `fgets`/`fprintf` branches (at.c:236-249 and the `fprintf` paths): they are compiled out by `USE_RAW_IO 1`.
- `euicc_hexutil_hex2bin_r` (at.c:461, 550) is not part of this model: `Wire.HexDecode` stands in for it. It accepts upper- and lower-case digit pairs and rejects other input; its odd-length behaviour is not claimed.
- Memory: the unfreed `strdup` results, `malloc` failure and the `free` calls.
- The write of `buffer[numBytesRead]` when a read fills all of `AT_BUFFER_SIZE` (at.c:190): `AtDriver.Valid` requires every chunk to be shorter than the buffer.
- The 24-byte `snprintf` buffers are modelled as strings. `CsimHeaderFits` and `CglaHeaderFits` show the headers fit, except for CGLA channels outside -9..99.
- `atoi` overflow on remainders too large for an `int`.
- Termination: the `while (1)` of `at_expect` and the 0x61 do-while do not terminate on a silent modem. A run that exhausts the script ends in `Blocks` instead of a value.
- Unused arguments: `apdu_interface_logic_channel_open_atcsim` ignores its `aid`, and both closes ignore their `channel` argument. `Protocol.OpenCsim` and `Protocol.Close` therefore take neither.
- Commands.CsimCommandRoundTrip, Commands.CglaCommandRoundTrip: stated only for APDUs shorter than 2^31 bytes. The commands themselves reproduce the 32-bit wrap of `tx_len * 2` (`Wire.U32`), but above that size the length field no longer reads back.
