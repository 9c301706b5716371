/** Bytes, C strings, hexadecimal and decimal text: the vocabulary the AT
    driver uses to put APDUs on a serial line and to read them back. */
module Wire {

  /** One octet of an APDU (`uint8_t`). */
  type byte = x: int | 0 <= x < 0x100

  datatype Option<T> = None | Some(value: T)

  /** How a call that waits for the modem ends: it returns a value, or the
      modem has nothing more to say and the call keeps polling forever. */
  datatype Run<T> = Returns(value: T) | Blocks

  const NUL: char := '\0'

  // ---------------------------------------------------------------------
  // Searching text for the first of a set of characters.

  /** `strcspn(s, stops)`: the length of the longest prefix of `s` that
      holds no character of `stops`. */
  function Span(s: seq<char>, stops: set<char>): (p: nat)
    ensures p <= |s|
    ensures forall i :: 0 <= i < p ==> s[i] !in stops
    ensures p < |s| ==> s[p] in stops
  {
    if s == [] || s[0] in stops then 0 else 1 + Span(s[1..], stops)
  }

  /** Only one index has no stop before it and a stop (or the end) at it. */
  lemma SpanUnique(s: seq<char>, stops: set<char>, n: nat)
    requires n <= |s|
    requires forall i :: 0 <= i < n ==> s[i] !in stops
    requires n < |s| ==> s[n] in stops
    ensures Span(s, stops) == n
  {
  }

  /** A stop-free prefix followed by a stop, or by nothing, is the span. */
  lemma SpanAt(a: seq<char>, b: seq<char>, stops: set<char>)
    requires forall i :: 0 <= i < |a| ==> a[i] !in stops
    requires b == [] || b[0] in stops
    ensures Span(a + b, stops) == |a|
  {
    SpanUnique(a + b, stops, |a|);
  }

  // ---------------------------------------------------------------------
  // C strings: a buffer is read up to its first NUL.

  /** `strlen`: the index of the first NUL, or the whole length. */
  function NulPos(b: seq<char>): (n: nat)
    ensures n <= |b|
    ensures forall i :: 0 <= i < n ==> b[i] != NUL
    ensures n < |b| ==> b[n] == NUL
  {
    Span(b, {NUL})
  }

  /** The C string that starts at the beginning of `b`. */
  function CStr(b: seq<char>): (s: string)
    ensures NUL !in s
    ensures s <= b
    ensures |s| < |b| ==> b[|s|] == NUL
  {
    b[..NulPos(b)]
  }

  /** A chunk copied into a buffer and terminated reads back as the chunk
      up to its own first NUL, whatever follows the terminator. */
  lemma CStrTerminated(a: seq<char>, t: seq<char>)
    ensures CStr(a + [NUL] + t) == CStr(a)
  {
    var b := a + [NUL] + t;
    SpanUnique(b, {NUL}, NulPos(a));
  }

  /** Starting `k` characters into a C string gives the rest of it. */
  lemma CStrSuffix(b: seq<char>, k: nat)
    requires k <= |CStr(b)|
    ensures CStr(b[k..]) == CStr(b)[k..]
  {
    SpanUnique(b[k..], {NUL}, NulPos(b) - k);
  }

  /** Writing a NUL inside a C string cuts it there. */
  lemma CStrCut(b: seq<char>, k: nat)
    requires k <= |CStr(b)| && k < |b|
    ensures CStr(b[k := NUL]) == CStr(b)[..k]
  {
    SpanUnique(b[k := NUL], {NUL}, k);
  }

  /** Writing past the terminator leaves a C string alone. */
  lemma CStrBeyond(b: seq<char>, k: nat, c: char)
    requires |CStr(b)| < k < |b|
    ensures CStr(b[k := c]) == CStr(b)
  {
    SpanUnique(b[k := c], {NUL}, NulPos(b));
  }

  // ---------------------------------------------------------------------
  // Hexadecimal: `%02X` per byte on the way out; the library decoder on
  // the way back.

  predicate IsUpperHex(c: char) {
    '0' <= c <= '9' || 'A' <= c <= 'F'
  }

  function HexDigit(n: nat): (c: char)
    requires n < 16
    ensures IsUpperHex(c)
  {
    if n < 10 then ('0' as int + n) as char else ('A' as int + n - 10) as char
  }

  /** `printf("%02X", b)`. */
  function HexByte(b: byte): (s: string)
    ensures |s| == 2 && IsUpperHex(s[0]) && IsUpperHex(s[1])
  {
    [HexDigit(b / 16), HexDigit(b % 16)]
  }

  /** Two upper-case digits per byte, in order, no separators. */
  function HexEncode(bs: seq<byte>): (s: string)
    ensures |s| == 2 * |bs|
  {
    if bs == [] then "" else HexByte(bs[0]) + HexEncode(bs[1..])
  }

  /** Every character of an encoding is an upper-case hex digit. */
  lemma {:induction false} HexEncodeUpper(bs: seq<byte>)
    ensures forall i :: 0 <= i < |HexEncode(bs)| ==> IsUpperHex(HexEncode(bs)[i])
  {
    if bs != [] {
      HexEncodeUpper(bs[1..]);
      var h := HexEncode(bs);
      forall i | 0 <= i < |h| ensures IsUpperHex(h[i]) {
        if i >= 2 {
          assert h[i] == HexEncode(bs[1..])[i - 2];
        }
      }
    }
  }

  /** The value of one hex digit, either case. */
  function HexValue(c: char): (r: Option<nat>)
    ensures r.Some? ==> r.value < 16
  {
    if '0' <= c <= '9' then Some(c as int - '0' as int)
    else if 'A' <= c <= 'F' then Some(c as int - 'A' as int + 10)
    else if 'a' <= c <= 'f' then Some(c as int - 'a' as int + 10)
    else None
  }

  /** The byte decoder the driver calls (a library routine): a pair of hex
      digits per byte, failing on anything else. */
  function HexDecode(h: string): (r: Option<seq<byte>>)
    ensures r.Some? ==> 2 * |r.value| == |h|
  {
    if h == [] then Some([])
    else if |h| == 1 || HexValue(h[0]).None? || HexValue(h[1]).None? then None
    else
      var rest := HexDecode(h[2..]);
      if rest.None? then None
      else Some([HexValue(h[0]).value * 16 + HexValue(h[1]).value] + rest.value)
  }

  lemma HexDigitValue(n: nat)
    requires n < 16
    ensures HexValue(HexDigit(n)) == Some(n)
  {
  }

  lemma {:induction false} HexEncodeAppend(a: seq<byte>, b: seq<byte>)
    ensures HexEncode(a + b) == HexEncode(a) + HexEncode(b)
  {
    if a == [] {
      assert a + b == b;
    } else {
      assert (a + b)[0] == a[0];
      assert (a + b)[1..] == a[1..] + b;
      HexEncodeAppend(a[1..], b);
    }
  }

  /** Encoding one more byte appends its two digits. */
  lemma HexEncodeSnoc(a: seq<byte>, b: byte)
    ensures HexEncode(a + [b]) == HexEncode(a) + HexByte(b)
  {
    HexEncodeAppend(a, [b]);
    assert [b][1..] == [];
  }

  /** Decoding what was encoded gives the bytes back. */
  lemma {:induction false} HexRoundTrip(bs: seq<byte>)
    ensures HexDecode(HexEncode(bs)) == Some(bs)
  {
    if bs != [] {
      var h := HexEncode(bs);
      HexDigitValue(bs[0] / 16);
      HexDigitValue(bs[0] % 16);
      assert h[2..] == HexEncode(bs[1..]);
      HexRoundTrip(bs[1..]);
      assert [bs[0]] + bs[1..] == bs;
    }
  }

  // ---------------------------------------------------------------------
  // Decimal text: `%u` and `%d` on the way out, `atoi` on the way back.

  predicate IsDigit(c: char) {
    '0' <= c <= '9'
  }

  function DigitChar(d: nat): (c: char)
    requires d < 10
    ensures IsDigit(c)
  {
    ('0' as int + d) as char
  }

  /** `%u`: the shortest decimal numeral of `n`. */
  function Decimal(n: nat): (s: string)
    ensures 1 <= |s|
    ensures forall i :: 0 <= i < |s| ==> IsDigit(s[i])
    ensures s[0] == '0' ==> n == 0
  {
    if n < 10 then [DigitChar(n)] else Decimal(n / 10) + [DigitChar(n % 10)]
  }

  /** `%d`: a minus sign exactly for negative numbers, then the shortest
      decimal numeral of the magnitude. */
  function SignedDecimal(i: int): (s: string)
    ensures 1 <= |s|
    ensures s[0] == '-' || IsDigit(s[0])
    ensures s[0] == '-' <==> i < 0
    ensures i < 0 ==> 2 <= |s|
    ensures forall k :: (if i < 0 then 1 else 0) <= k < |s| ==> IsDigit(s[k])
    ensures s[if i < 0 then 1 else 0] == '0' ==> i == 0
  {
    if i < 0 then "-" + Decimal(-i) else Decimal(i)
  }

  /** Conversion to `uint32_t`: the value modulo 2^32. */
  function U32(n: int): (r: nat)
    ensures r < 0x1_0000_0000
    ensures 0 <= n < 0x1_0000_0000 ==> r == n
  {
    n % 0x1_0000_0000
  }

  /** `isspace` in the C locale. */
  predicate IsSpace(c: char) {
    c == ' ' || '\t' <= c <= '\r'
  }

  function SkipSpaces(s: string): (t: string)
    ensures |t| <= |s| && t == s[|s| - |t|..]
    ensures t != [] ==> !IsSpace(t[0])
  {
    if s != [] && IsSpace(s[0]) then SkipSpaces(s[1..]) else s
  }

  /** The longest prefix made of digits. */
  function LeadingDigits(s: string): (d: string)
    ensures d <= s
    ensures forall i :: 0 <= i < |d| ==> IsDigit(d[i])
    ensures |d| < |s| ==> !IsDigit(s[|d|])
  {
    if s != [] && IsDigit(s[0]) then [s[0]] + LeadingDigits(s[1..]) else []
  }

  /** The number a string of digits denotes. */
  function DigitsValue(ds: string): nat
    requires forall i :: 0 <= i < |ds| ==> IsDigit(ds[i])
  {
    if ds == [] then 0
    else
      var last := ds[|ds| - 1];
      assert IsDigit(last);
      DigitsValue(ds[..|ds| - 1]) * 10 + (last as int - '0' as int)
  }

  /** `atoi`: optional white space, an optional sign, then digits up to the
      first non-digit; no digits gives 0. */
  function Atoi(s: string): int {
    var t := SkipSpaces(s);
    if t != [] && t[0] == '-' then 0 - DigitsValue(LeadingDigits(t[1..]))
    else if t != [] && t[0] == '+' then DigitsValue(LeadingDigits(t[1..]))
    else DigitsValue(LeadingDigits(t))
  }

  lemma {:induction false} LeadingDigitsAll(s: string)
    requires forall i :: 0 <= i < |s| ==> IsDigit(s[i])
    ensures LeadingDigits(s) == s
  {
    if s != [] {
      LeadingDigitsAll(s[1..]);
    }
  }

  lemma {:induction false} DecimalValue(n: nat)
    ensures DigitsValue(Decimal(n)) == n
  {
    if n >= 10 {
      var d := Decimal(n);
      assert d[..|d| - 1] == Decimal(n / 10);
      DecimalValue(n / 10);
    }
  }

  /** `atoi` reads back what `%d` wrote. */
  lemma AtoiSignedDecimal(i: int)
    ensures Atoi(SignedDecimal(i)) == i
  {
    var s := SignedDecimal(i);
    assert SkipSpaces(s) == s;
    if i < 0 {
      assert s[1..] == Decimal(-i);
      LeadingDigitsAll(Decimal(-i));
      DecimalValue(-i);
    } else {
      LeadingDigitsAll(s);
      DecimalValue(i);
    }
  }

  /** A numeral below 10^k has at most k digits. */
  lemma {:induction false} DecimalLength(n: nat, k: nat, bound: nat)
    requires bound == Pow10(k) && n < bound
    ensures |Decimal(n)| <= if k == 0 then 1 else k
  {
    if n >= 10 {
      assert Pow10(0) == 1 && Pow10(1) == 10;
      DecimalLength(n / 10, k - 1, Pow10(k - 1));
    }
  }

  function Pow10(k: nat): (p: nat)
    ensures p >= 1
  {
    if k == 0 then 1 else 10 * Pow10(k - 1)
  }

  // ---------------------------------------------------------------------
  // Regrouping concatenations: the shapes the command and script proofs
  // need, stated once for any element type.

  lemma Reassociate<T>(a: seq<T>, b: seq<T>, c: seq<T>)
    ensures a + b + c == a + (b + c)
  {
  }

  lemma Chain<T>(w: seq<T>, a: seq<T>, b: seq<T>, c: seq<T>, d: seq<T>)
    ensures w + (a + (b + (c + (d + [])))) == w + a + b + c + d
  {
  }

  lemma Flatten<T>(a: seq<T>, b: seq<T>, c: seq<T>, d: seq<T>, e: seq<T>)
    ensures a + b + (c + d + e) == a + b + c + d + e
  {
  }

  /** Concatenation regrouped around a prefix and a trailer. */
  lemma Regroup<T>(p: seq<T>, a: seq<T>, b: seq<T>, c: seq<T>, t: seq<T>)
    ensures p + a + b + c + t == p + (a + b + c) + t
  {
  }

  lemma Split<T>(a: seq<T>, b: seq<T>, c: seq<T>, h: seq<T>, d: seq<T>)
    ensures a + (b + c) + h + d == a + b + (c + h + d)
  {
  }

  /** Taking the head off a list of reads: two, three and five known heads. */
  lemma Unshift<T>(a: T, b: T, rest: seq<T>)
    ensures [a, b] + rest == [a] + ([b] + rest)
  {
  }

  lemma Unshift3<T>(a: T, b: T, c: T, rest: seq<T>)
    ensures [a, b, c] + rest == [a, b] + ([c] + rest)
  {
  }

  lemma Unshift5<T>(a: T, b: T, c: T, d: T, e: T, rest: seq<T>)
    ensures [a, b, c, d, e] + rest == [a, b, c, d] + ([e] + rest)
  {
  }
}
