/** The response scanner of the AT driver (`at_expect`, driver/apdu/at.c).

    Each read lands at offset 0 of the one scratch buffer and is scanned by
    itself: it is split at every single CR or LF, and each piece (segment)
    is classified. Nothing carries over from one read to the next except
    the first segment of the last non-empty read, which a read of zero
    bytes scans again. */
module Scanner {
  import opened Wire

  const CR: char := '\r'
  const LF: char := '\n'

  predicate IsDelim(c: char) {
    c == CR || c == LF
  }

  predicate NoDelim(s: string) {
    forall i :: 0 <= i < |s| ==> !IsDelim(s[i])
  }

  /** `strcspn(s, "\r\n")`. */
  function DelimPos(s: string): (p: nat)
    ensures p <= |s|
    ensures NoDelim(s[..p])
    ensures p < |s| ==> IsDelim(s[p])
  {
    Span(s, {CR, LF})
  }

  /** The segments one scan visits: the text up to each CR or LF, and the
      text after the last one when that is not empty. */
  function Segments(s: string): (segs: seq<string>)
    ensures forall k :: 0 <= k < |segs| ==> NoDelim(segs[k])
    ensures s == [] <==> segs == []
    decreases |s|
  {
    if s == [] then []
    else
      var p := DelimPos(s);
      [s[..p]] + (if |s| > p + 1 then Segments(s[p + 1..]) else [])
  }

  /** The segment a scan cuts first; it stays in the buffer afterwards. */
  function FirstSegment(s: string): (f: string)
    ensures f <= s && NoDelim(f)
    ensures s != [] ==> Segments(s)[0] == f
  {
    s[..DelimPos(s)]
  }

  /** `pat` occurs in `s` starting at offset `i`. */
  predicate OccursAt(s: string, pat: string, i: int) {
    0 <= i <= |s| - |pat| && s[i..i + |pat|] == pat
  }

  /** `strstr(s, pat) != NULL`: `pat` occurs in `s` at some offset. */
  predicate Contains(s: string, pat: string): (b: bool)
    ensures b <==> exists i :: OccursAt(s, pat, i)
    decreases |s|
  {
    if pat <= s then
      assert OccursAt(s, pat, 0);
      true
    else if s == [] then
      false
    else
      var t := s[1..];
      assert forall i :: OccursAt(s, pat, i) ==> i >= 1 && OccursAt(t, pat, i - 1) by {
        forall i | OccursAt(s, pat, i) ensures i >= 1 && OccursAt(t, pat, i - 1) {
          assert s[i..i + |pat|] == t[i - 1..i - 1 + |pat|];
        }
      }
      assert forall j :: OccursAt(t, pat, j) ==> OccursAt(s, pat, j + 1) by {
        forall j | OccursAt(t, pat, j) ensures OccursAt(s, pat, j + 1) {
          assert s[j + 1..j + 1 + |pat|] == t[j..j + |pat|];
        }
      }
      Contains(t, pat)
  }

  datatype Line = ErrorLine | OkLine | DataLine(rest: string) | Noise

  /** A segment that captures the response: it begins with the expected
      tag. */
  predicate Captures(seg: string, expected: Option<string>) {
    expected.Some? && expected.value <= seg
  }

  /** A segment that ends the scan. */
  predicate Terminal(seg: string) {
    Contains(seg, "ERROR") || seg == "OK"
  }

  /** ERROR anywhere in the segment wins over OK; OK must be the whole
      segment; a tagged segment yields the text after the tag. */
  function Classify(seg: string, expected: Option<string>): (l: Line)
    ensures l == ErrorLine <==> Contains(seg, "ERROR")
    ensures l == OkLine <==> seg == "OK" && !Contains(seg, "ERROR")
    ensures l.DataLine? <==> !Terminal(seg) && Captures(seg, expected)
    ensures l.DataLine? ==> seg == expected.value + l.rest
  {
    if Contains(seg, "ERROR") then ErrorLine
    else if seg == "OK" then OkLine
    else if expected.Some? && expected.value <= seg then DataLine(seg[|expected.value|..])
    else Noise
  }

  datatype Scan = Stop(code: int, response: Option<string>) | Go(response: Option<string>)

  /** The inner loop of one scan, segment by segment. */
  function ScanSegments(segs: seq<string>, expected: Option<string>, resp: Option<string>): (r: Scan)
    ensures r.Stop? ==> r.code == 0 || r.code == -1
    decreases |segs|
  {
    if segs == [] then Go(resp)
    else match Classify(segs[0], expected)
      case ErrorLine => Stop(-1, resp)
      case OkLine => Stop(0, resp)
      case DataLine(rest) => ScanSegments(segs[1..], expected, Some(rest))
      case Noise => ScanSegments(segs[1..], expected, resp)
  }

  datatype Reply = Reply(code: int, response: Option<string>)

  /** The outer loop of `at_expect` over the reads the modem delivers.
      `first` is what a zero-byte read would scan: the first segment of the
      last non-empty read. The result pairs the outcome with the reads left
      over. */
  function ExpectLoop(chunks: seq<string>, expected: Option<string>, resp: Option<string>, first: string)
    : (r: (Run<Reply>, seq<string>))
    ensures |r.1| <= |chunks| && r.1 == chunks[|chunks| - |r.1|..]
    ensures r.0.Returns? ==> |r.1| < |chunks|
    ensures r.0.Returns? ==> r.0.value.code == 0 || r.0.value.code == -1
    ensures r.0.Blocks? ==> r.1 == []
    decreases |chunks|
  {
    if chunks == [] then (Blocks, [])
    else
      var view := if |chunks[0]| > 0 then CStr(chunks[0]) else first;
      match ScanSegments(Segments(view), expected, resp)
      case Stop(code, r) => (Returns(Reply(code, r)), chunks[1..])
      case Go(r) => ExpectLoop(chunks[1..], expected, r, FirstSegment(view))
  }

  /** `at_expect(&response, expected)`: the buffer starts cleared and the
      response starts absent. */
  function Expect(chunks: seq<string>, expected: Option<string>): (r: (Run<Reply>, seq<string>))
    ensures r.0.Returns? ==> |r.1| < |chunks|
    ensures r.0.Returns? && expected.None? ==> r.0.value.response.None?
  {
    ExpectNoTagNoResponse(chunks, expected, None, "");
    ExpectLoop(chunks, expected, None, "")
  }

  lemma {:induction false} ScanNoTagNoResponse(segs: seq<string>, expected: Option<string>)
    ensures expected.None? ==> ScanSegments(segs, expected, None).response.None?
    decreases |segs|
  {
    if segs != [] && expected.None? {
      ScanNoTagNoResponse(segs[1..], expected);
    }
  }

  lemma {:induction false} ExpectNoTagNoResponse(chunks: seq<string>, expected: Option<string>, resp: Option<string>, first: string)
    ensures var r := ExpectLoop(chunks, expected, resp, first);
      expected.None? && resp.None? && r.0.Returns? ==> r.0.value.response.None?
    decreases |chunks|
  {
    if chunks != [] && expected.None? && resp.None? {
      var view := if |chunks[0]| > 0 then CStr(chunks[0]) else first;
      ScanNoTagNoResponse(Segments(view), expected);
      ExpectNoTagNoResponse(chunks[1..], expected, resp, FirstSegment(view));
    }
  }

  // ---------------------------------------------------------------------
  // What one scan decides, stated without the loop.

  /** Index of the first segment that ends the scan, or the count. */
  function FirstTerminal(segs: seq<string>): (k: nat)
    ensures k <= |segs|
    ensures forall j :: 0 <= j < k ==> !Terminal(segs[j])
    ensures k < |segs| ==> Terminal(segs[k])
  {
    if segs == [] || Terminal(segs[0]) then 0 else 1 + FirstTerminal(segs[1..])
  }

  /** The remainder of the LAST capturing segment, or `resp` when none
      captures. */
  function LastCapture(segs: seq<string>, expected: Option<string>, resp: Option<string>): Option<string>
  {
    if segs == [] then resp
    else
      var s := segs[|segs| - 1];
      if Captures(s, expected) then Some(s[|expected.value|..])
      else LastCapture(segs[..|segs| - 1], expected, resp)
  }

  lemma {:induction false} LastCaptureCons(s: string, segs: seq<string>, expected: Option<string>, resp: Option<string>)
    ensures LastCapture([s] + segs, expected, resp)
         == LastCapture(segs, expected, if Captures(s, expected) then Some(s[|expected.value|..]) else resp)
    decreases |segs|
  {
    if segs != [] {
      assert ([s] + segs)[..|segs|] == [s] + segs[..|segs| - 1];
      LastCaptureCons(s, segs[..|segs| - 1], expected, resp);
    }
  }

  /** One scan stops at the first segment holding ERROR (code -1) or equal
      to OK (code 0); the response is then the text after the tag in the
      last tagged segment before it. Without such a segment the scan goes
      on, carrying the last capture. */
  lemma {:induction false} ScanCharacterized(segs: seq<string>, expected: Option<string>, resp: Option<string>)
    ensures var k := FirstTerminal(segs);
      ScanSegments(segs, expected, resp) ==
        if k == |segs| then Go(LastCapture(segs, expected, resp))
        else Stop(if Contains(segs[k], "ERROR") then -1 else 0, LastCapture(segs[..k], expected, resp))
    decreases |segs|
  {
    if segs != [] {
      var s := segs[0];
      var resp' := if Captures(s, expected) then Some(s[|expected.value|..]) else resp;
      if Terminal(s) {
        assert segs[..0] == [];
      } else {
        ScanCharacterized(segs[1..], expected, resp');
        assert segs == [s] + segs[1..];
        LastCaptureCons(s, segs[1..], expected, resp);
        var k := FirstTerminal(segs);
        assert k == 1 + FirstTerminal(segs[1..]);
        if k < |segs| {
          assert segs[..k] == [s] + segs[1..][..k - 1];
          LastCaptureCons(s, segs[1..][..k - 1], expected, resp);
        }
      }
    }
  }

  // ---------------------------------------------------------------------
  // How modem output is cut into segments.

  /** Lines each followed by CR LF, as a modem sends them. */
  function CrLfLines(lines: seq<string>): string {
    if lines == [] then "" else lines[0] + "\r\n" + CrLfLines(lines[1..])
  }

  /** Each line followed by the empty segment between its CR and LF. */
  function WithGaps(lines: seq<string>): seq<string> {
    if lines == [] then [] else [lines[0], ""] + WithGaps(lines[1..])
  }

  /** Segments are cut at each CR and at each LF: a CR LF pair leaves an
      empty segment between the two. */
  lemma {:induction false} SegmentsOfCrLfLines(lines: seq<string>)
    requires forall k :: 0 <= k < |lines| ==> NoDelim(lines[k])
    ensures Segments(CrLfLines(lines)) == WithGaps(lines)
    decreases |lines|
  {
    if lines != [] {
      SegmentsOfCrLfLines(lines[1..]);
      SegmentsOfCrLfLine(lines[0], CrLfLines(lines[1..]));
    }
  }

  /** One line and its CR LF give the line and the empty segment. */
  lemma SegmentsOfCrLfLine(l: string, tail: string)
    requires NoDelim(l)
    ensures Segments(l + "\r\n" + tail) == [l, ""] + Segments(tail)
  {
    var u := "\n" + tail;
    calc {
      Segments(l + "\r\n" + tail);
      { assert l + "\r\n" + tail == l + ("\r" + u); }
      Segments(l + ("\r" + u));
      { SegmentsAtDelim(l, "\r" + u); assert ("\r" + u)[1..] == u; }
      [l] + Segments(u);
      { SegmentsAtDelim("", u); assert "" + u == u; assert u[1..] == tail; }
      [l] + ([""] + Segments(tail));
      { Unshift(l, "", Segments(tail)); }
      [l, ""] + Segments(tail);
    }
  }

  /** The text before a CR or LF is one segment; the scan then resumes
      after that character. */
  lemma SegmentsAtDelim(a: string, b: string)
    requires NoDelim(a) && b != [] && IsDelim(b[0])
    ensures Segments(a + b) == [a] + (if |b| > 1 then Segments(b[1..]) else [])
  {
    SpanAt(a, b, {CR, LF});
    assert (a + b)[..|a|] == a;
    assert (a + b)[|a| + 1..] == b[1..];
  }

  /** A segment without CR or LF is scanned whole. */
  lemma SegmentsOfLine(s: string)
    requires s != [] && NoDelim(s)
    ensures Segments(s) == [s]
  {
    SpanUnique(s, {CR, LF}, |s|);
    assert s[..|s|] == s;
  }

  lemma CStrNoNul(s: string)
    requires NUL !in s
    ensures CStr(s) == s
  {
    SpanUnique(s, {NUL}, |s|);
  }

  /** The outer loop after one non-empty read without a NUL. */
  lemma ExpectFirstRead(chunk: string, rest: seq<string>, expected: Option<string>, resp: Option<string>, first: string)
    requires chunk != [] && NUL !in chunk
    ensures ExpectLoop([chunk] + rest, expected, resp, first) ==
      match ScanSegments(Segments(chunk), expected, resp)
      case Stop(code, r) => (Returns(Reply(code, r)), rest)
      case Go(r) => ExpectLoop(rest, expected, r, FirstSegment(chunk))
  {
    CStrNoNul(chunk);
    assert ([chunk] + rest)[0] == chunk;
    assert ([chunk] + rest)[1..] == rest;
  }

  lemma SegmentsLineThenOk(line: string)
    requires NoDelim(line)
    ensures Segments(CrLfLines([line, "OK"])) == [line, "", "OK", ""]
  {
    assert [line, "OK"][1..] == ["OK"];
    assert ["OK"][1..] == [];
    assert forall k :: 0 <= k < 2 ==> NoDelim([line, "OK"][k]);
    SegmentsOfCrLfLines([line, "OK"]);
  }

  lemma ScanLineThenOk(line: string, expected: Option<string>, resp: Option<string>)
    requires !Terminal(line)
    requires expected.Some? ==> expected.value != []
    ensures ScanSegments([line, "", "OK", ""], expected, resp)
         == Stop(0, if Captures(line, expected) then Some(line[|expected.value|..]) else resp)
  {
    ContainsShort("", "ERROR");
    ContainsShort("OK", "ERROR");
    var segs := [line, "", "OK", ""];
    var r1 := if Captures(line, expected) then Some(line[|expected.value|..]) else resp;
    assert segs[0] == line && segs[1..] == ["", "OK", ""];
    assert ScanSegments(segs, expected, resp) == ScanSegments(segs[1..], expected, r1);
    assert Classify("", expected) == Noise;
    assert segs[1..][1..] == ["OK", ""];
    assert ScanSegments(segs[1..], expected, r1) == ScanSegments(["OK", ""], expected, r1);
    assert Classify("OK", expected) == OkLine;
  }

  lemma {:induction false} ContainsShort(s: string, pat: string)
    requires |s| < |pat|
    ensures !Contains(s, pat)
    decreases |s|
  {
    if s != [] {
      ContainsShort(s[1..], pat);
    }
  }

  /** A segment with no letter R cannot hold ERROR. */
  lemma {:induction false} NoRNoError(s: string)
    requires forall i :: 0 <= i < |s| ==> s[i] != 'R'
    ensures !Contains(s, "ERROR")
    decreases |s|
  {
    if s != [] {
      assert |s| >= 2 ==> s[1] != 'R';
      NoRNoError(s[1..]);
    }
  }

  // ---------------------------------------------------------------------
  // Consequences for whole exchanges.

  /** A complete reply in one read: the tagged line, then OK. The response
      is the text after the tag and exactly that read is consumed. */
  lemma TaggedReplyInOneRead(tag: string, payload: string, rest: seq<string>)
    requires tag != []
    requires NoDelim(tag + payload) && NUL !in tag + payload
    requires !Contains(tag + payload, "ERROR") && tag + payload != "OK"
    ensures Expect([CrLfLines([tag + payload, "OK"])] + rest, Some(tag))
         == (Returns(Reply(0, Some(payload))), rest)
  {
    var line := tag + payload;
    var chunk := CrLfLines([line, "OK"]);
    assert chunk == line + "\r\n" + ("OK\r\n" + "") by {
      assert [line, "OK"][1..] == ["OK"];
      assert ["OK"][1..] == [];
    }
    assert NUL !in chunk;
    SegmentsLineThenOk(line);
    ScanLineThenOk(line, Some(tag), None);
    assert line[|tag|..] == payload;
    ExpectFirstRead(chunk, rest, Some(tag), None, "");
    assert Expect([chunk] + rest, Some(tag)) == ExpectLoop([chunk] + rest, Some(tag), None, "");
  }

  /** A read of zero bytes scans the kept first segment again: it can
      re-capture that segment's text but never ends the scan, and it keeps
      the buffer as it was. A modem that falls silent therefore keeps the
      driver in its read loop for good, which the model reports as
      `Blocks`. */
  lemma ZeroReadRescans(first: string, expected: Option<string>, resp: Option<string>)
    requires NoDelim(first) && !Terminal(first)
    ensures ScanSegments(Segments(first), expected, resp)
         == Go(if first != [] && Captures(first, expected) then Some(first[|expected.value|..]) else resp)
    ensures FirstSegment(first) == first
  {
    SpanUnique(first, {CR, LF}, |first|);
    if first != [] {
      SegmentsOfLine(first);
      assert |[first][1..]| == 0;
    }
  }

  /** What the kept first segment is after any scan that did not stop. */
  lemma KeptSegmentNotTerminal(view: string, expected: Option<string>, resp: Option<string>)
    requires ScanSegments(Segments(view), expected, resp).Go?
    ensures NoDelim(FirstSegment(view)) && !Terminal(FirstSegment(view))
  {
    if view != [] {
      var segs := Segments(view);
      assert segs[0] == FirstSegment(view);
    }
  }

  /** A reply split inside its tagged line is not put back together: the
      first read captures a fragment and the rest of the line is noise. */
  lemma SplitLineIsNotReassembled(c0: string, c1: string)
    requires c0 == "+CSIM: 4,\"90" && c1 == "00\"\r\nOK\r\n"
    ensures Expect([c0, c1], Some("+CSIM: ")) == (Returns(Reply(0, Some("4,\"90"))), [])
  {
    SplitLineFirstRead(c0, [c1]);
    SplitLineSecondRead(c1, c0);
    assert [c0, c1] == [c0] + [c1];
    assert Expect([c0, c1], Some("+CSIM: ")) == ExpectLoop([c0, c1], Some("+CSIM: "), None, "");
  }

  lemma SplitLineFirstRead(c0: string, rest: seq<string>)
    requires c0 == "+CSIM: 4,\"90"
    ensures ExpectLoop([c0] + rest, Some("+CSIM: "), None, "")
         == ExpectLoop(rest, Some("+CSIM: "), Some("4,\"90"), c0)
  {
    var tag: string := "+CSIM: ";
    assert NoDelim(c0) && NUL !in c0;
    NoRNoError(c0);
    assert c0[|tag|..] == "4,\"90";
    ZeroReadRescans(c0, Some(tag), None);
    ExpectFirstRead(c0, rest, Some(tag), None, "");
  }

  lemma SplitLineSecondRead(c1: string, first: string)
    requires c1 == "00\"\r\nOK\r\n"
    ensures ExpectLoop([c1], Some("+CSIM: "), Some("4,\"90"), first)
         == (Returns(Reply(0, Some("4,\"90"))), [])
  {
    var tag: string := "+CSIM: ";
    var line: string := "00\"";
    assert Segments(c1) == [line, "", "OK", ""] by {
      assert c1 == CrLfLines([line, "OK"]) by {
        assert [line, "OK"][1..] == ["OK"];
        assert ["OK"][1..] == [];
      }
      assert NoDelim(line);
      SegmentsLineThenOk(line);
    }
    assert ScanSegments([line, "", "OK", ""], Some(tag), Some("4,\"90")) == Stop(0, Some("4,\"90")) by {
      ContainsShort(line, "ERROR");
      assert !Captures(line, Some(tag));
      ScanLineThenOk(line, Some(tag), Some("4,\"90"));
    }
    assert NUL !in c1;
    ExpectFirstRead(c1, [], Some(tag), Some("4,\"90"), first);
    assert [c1] + [] == [c1];
  }

  /** Delivered one byte per read, no reply ever ends: no segment can be
      "OK" or hold "ERROR", so the loop waits for good. */
  lemma {:induction false} ByteAtATimeNeverEnds(chunks: seq<string>, expected: Option<string>, resp: Option<string>, first: string)
    requires forall k :: 0 <= k < |chunks| ==> |chunks[k]| <= 1
    requires |first| <= 1
    ensures ExpectLoop(chunks, expected, resp, first).0 == Blocks
    decreases |chunks|
  {
    if chunks != [] {
      var view := if |chunks[0]| > 0 then CStr(chunks[0]) else first;
      assert |view| <= 1;
      var segs := Segments(view);
      assert |segs| <= 1 && forall k :: 0 <= k < |segs| ==> |segs[k]| <= 1 by {
        if view != [] {
          var p := DelimPos(view);
          assert !(|view| > p + 1);
        }
      }
      ScanCharacterized(segs, expected, resp);
      forall k | 0 <= k < |segs|
        ensures !Terminal(segs[k])
      {
        ContainsShort(segs[k], "ERROR");
      }
      ByteAtATimeNeverEnds(chunks[1..], expected, ScanSegments(segs, expected, resp).response, FirstSegment(view));
    }
  }
}
