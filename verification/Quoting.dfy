/** String quoting (`quote` in `src/codec.cpp`) against a decoder of TOML basic
    strings written from TOML v1.0.0, section "String". */
module Quoting {
  import opened Bytes
  import opened Utf8

  // ---------------------------------------------------------------------------
  // The reference decoder

  /** Control characters a TOML document may not hold unescaped; tab may. */
  predicate IsControl(b: Byte) {
    b <= 8 || 10 <= b <= 31 || b == DELETE
  }

  function HexValue(b: Byte): Option<nat> {
    if 48 <= b <= 57 then Some((b - 48) as nat)
    else if 65 <= b <= 70 then Some((b - 55) as nat)
    else if 97 <= b <= 102 then Some((b - 87) as nat)
    else None
  }

  function HexNumber(s: ByteString): Option<nat> {
    if s == [] then Some(0)
    else
      match (HexNumber(s[..|s| - 1]), HexValue(s[|s| - 1]))
      case (Some(high), Some(low)) => Some(high * 16 + low)
      case _ => None
  }

  function DecodeUnicode(s: ByteString, digits: nat): Option<(ByteString, nat)> {
    if |s| < 2 + digits then None
    else
      match HexNumber(s[2..2 + digits])
      case Some(cp) => if IsScalar(cp) then Some((Encode(cp), 2 + digits)) else None
      case None => None
  }

  /** The escape sequence at the head of `s`: its bytes and its length. */
  function DecodeEscape(s: ByteString): (r: Option<(ByteString, nat)>)
    requires s != []
    ensures r.Some? ==> 1 <= r.value.1 <= |s|
  {
    if |s| < 2 then None
    else if s[1] == 98 then Some(([BACKSPACE], 2))
    else if s[1] == 116 then Some(([TAB], 2))
    else if s[1] == 110 then Some(([NEWLINE], 2))
    else if s[1] == 102 then Some(([FORM_FEED], 2))
    else if s[1] == 114 then Some(([RETURN], 2))
    else if s[1] == QUOTE then Some(([QUOTE], 2))
    else if s[1] == BACKSLASH then Some(([BACKSLASH], 2))
    else if s[1] == 117 then DecodeUnicode(s, 4)
    else if s[1] == 85 then DecodeUnicode(s, 8)
    else None
  }

  /** The rest of a basic string after its opening quote: the decoded bytes and
      the length up to and including the closing quote. */
  function DecodeBody(s: ByteString): (r: Option<(ByteString, nat)>)
    ensures r.Some? ==> 1 <= r.value.1 <= |s|
    decreases |s|
  {
    if s == [] then None
    else if s[0] == QUOTE then Some(([], 1))
    else if s[0] == BACKSLASH then
      match DecodeEscape(s)
      case None => None
      case Some((bytes, n)) => Prepended(bytes, n, DecodeBody(s[n..]))
    else if IsControl(s[0]) then None
    else Prepended([s[0]], 1, DecodeBody(s[1..]))
  }

  function Prepended(bytes: ByteString, n: nat, rest: Option<(ByteString, nat)>): Option<(ByteString, nat)> {
    match rest
    case None => None
    case Some((tail, m)) => Some((bytes + tail, n + m))
  }

  /** The value of a whole document fragment that is one basic string. */
  ghost function DecodeBasic(text: ByteString): Option<ByteString> {
    if !IsUtf8(text) || text == [] || text[0] != QUOTE then None
    else
      match DecodeBody(text[1..])
      case Some((bytes, n)) => if n == |text| - 1 then Some(bytes) else None
      case None => None
  }

  // ---------------------------------------------------------------------------
  // quote

  function QuoteByte(b: Byte): (r: ByteString)
    ensures r == [b] || (|r| == 2 && r[0] == BACKSLASH)
  {
    if b == BACKSLASH then [BACKSLASH, BACKSLASH]
    else if b == QUOTE then [BACKSLASH, QUOTE]
    else if b == BACKSPACE then [BACKSLASH, 98]
    else if b == TAB then [BACKSLASH, 116]
    else if b == NEWLINE then [BACKSLASH, 110]
    else if b == FORM_FEED then [BACKSLASH, 102]
    else if b == RETURN then [BACKSLASH, 114]
    else [b]
  }

  function QuoteBytes(value: ByteString): ByteString {
    if value == [] then [] else QuoteByte(value[0]) + QuoteBytes(value[1..])
  }

  function QuoteOf(value: ByteString): ByteString {
    [QUOTE] + QuoteBytes(value) + [QUOTE]
  }

  lemma {:induction false} QuoteBytesAppend(a: ByteString, b: ByteString)
    ensures QuoteBytes(a + b) == QuoteBytes(a) + QuoteBytes(b)
  {
    if a == [] {
      assert a + b == b;
      assert [] + QuoteBytes(b) == QuoteBytes(b);
    } else {
      assert (a + b)[1..] == a[1..] + b && (a + b)[0] == a[0];
      QuoteBytesAppend(a[1..], b);
      Associative(QuoteByte(a[0]), QuoteBytes(a[1..]), QuoteBytes(b));
    }
  }

  lemma QuoteOneMore(value: ByteString, i: nat)
    requires i < |value|
    ensures QuoteBytes(value[..i + 1]) == QuoteBytes(value[..i]) + QuoteByte(value[i])
  {
    assert value[..i + 1] == value[..i] + [value[i]];
    QuoteBytesAppend(value[..i], [value[i]]);
    assert QuoteBytes([value[i]]) == QuoteByte(value[i]) + QuoteBytes([]);
  }

  method Quote(value: ByteString) returns (result: ByteString)
    ensures result == QuoteOf(value)
  {
    result := [QUOTE];
    for i := 0 to |value|
      invariant result == [QUOTE] + QuoteBytes(value[..i])
    {
      QuoteOneMore(value, i);
      var character := value[i];
      match character {
        case 92 => result := result + [BACKSLASH, BACKSLASH];
        case 34 => result := result + [BACKSLASH, QUOTE];
        case 8 => result := result + [BACKSLASH, 98];
        case 9 => result := result + [BACKSLASH, 116];
        case 10 => result := result + [BACKSLASH, 110];
        case 12 => result := result + [BACKSLASH, 102];
        case 13 => result := result + [BACKSLASH, 114];
        case _ => result := result + [character];
      }
    }
    assert value[..|value|] == value;
    result := result + [QUOTE];
  }

  // ---------------------------------------------------------------------------
  // Round trip

  /** `quote` writes this byte as it is although TOML forbids that. */
  predicate LeftRaw(b: Byte) {
    IsControl(b) && QuoteByte(b) == [b]
  }

  predicate Quotable(value: ByteString) {
    forall i :: 0 <= i < |value| ==> !LeftRaw(value[i])
  }

  lemma DecodeOne(b: Byte, rest: ByteString)
    ensures DecodeBody(QuoteByte(b) + rest)
         == if LeftRaw(b) then None else Prepended([b], |QuoteByte(b)|, DecodeBody(rest))
  {
    var s := QuoteByte(b) + rest;
    assert s[0] == QuoteByte(b)[0];
    assert s[|QuoteByte(b)|..] == rest;
  }

  /** Decoding the quoted bytes gives them back, or fails at the first raw control. */
  lemma {:induction false} DecodeQuoted(value: ByteString, after: ByteString)
    ensures DecodeBody(QuoteBytes(value) + [QUOTE] + after)
         == if Quotable(value) then Some((value, |QuoteBytes(value)| + 1)) else None
  {
    var s := QuoteBytes(value) + [QUOTE] + after;
    if value == [] {
      assert s[0] == QUOTE;
    } else {
      var rest := QuoteBytes(value[1..]) + [QUOTE] + after;
      assert s == QuoteByte(value[0]) + rest;
      DecodeOne(value[0], rest);
      DecodeQuoted(value[1..], after);
      assert value == [value[0]] + value[1..];
      assert Quotable(value) <==> !LeftRaw(value[0]) && Quotable(value[1..]) by {
        if Quotable(value[1..]) && !LeftRaw(value[0]) {
          forall i | 0 <= i < |value| ensures !LeftRaw(value[i]) {
            if i > 0 { assert value[i] == value[1..][i - 1]; }
          }
        }
        if Quotable(value) {
          assert forall i :: 0 <= i < |value[1..]| ==> value[1..][i] == value[i + 1];
        }
      }
    }
  }

  lemma AsciiPrefix(b: Byte, rest: ByteString)
    requires b < 0x80
    ensures Decode(QuoteByte(b) + rest).Some? <==> Decode(rest).Some?
  {
    var q := QuoteByte(b);
    DecodeAsciiHead(q[0], q[1..] + rest);
    assert q + rest == [q[0]] + (q[1..] + rest);
    if |q| == 2 {
      DecodeAsciiHead(q[1], rest);
      assert q[1..] + rest == [q[1]] + rest;
    } else {
      assert q[1..] + rest == rest;
    }
  }

  lemma {:induction false} HighBytesUnchanged(s: ByteString)
    requires forall i :: 0 <= i < |s| ==> s[i] >= 0x80
    ensures QuoteBytes(s) == s
  {
    if s != [] {
      HighBytesUnchanged(s[1..]);
    }
  }

  /** Where the run of continuation bytes after the first byte ends. */
  function RunEnd(s: ByteString, i: nat): (r: nat)
    requires 1 <= i <= |s|
    ensures i <= r <= |s|
    ensures forall j :: i <= j < r ==> IsContinuation(s[j])
    ensures r < |s| ==> !IsContinuation(s[r])
    decreases |s| - i
  {
    if i < |s| && IsContinuation(s[i]) then RunEnd(s, i + 1) else i
  }

  predicate StopsRun(x: ByteString) {
    x == [] || !IsContinuation(x[0])
  }

  lemma FirstNeedsRun(run: ByteString, x: ByteString)
    requires run != [] && StopsRun(x)
    ensures First(run + x) == First(run)
  {
    var s := run + x;
    assert s[0] == run[0];
    var n := LeadLength(run[0]);
    if n > |run| {
      if n <= |s| {
        assert x != [] && s[|run|] == x[0];
        assert !IsContinuation(s[1..n][|run| - 1]);
      }
    } else if n > 0 {
      assert s[1..n] == run[1..n];
    }
  }

  lemma DropInFront(run: ByteString, rest: ByteString, k: nat)
    requires k <= |run|
    ensures (run + rest)[k..] == run[k..] + rest
  {}

  /** A run of non-ASCII bytes is quoted as itself, from any point on. */
  lemma QuotedRun(run: ByteString, rest: ByteString, k: nat)
    requires k <= |run| && forall i :: 0 <= i < |run| ==> run[i] >= 0x80
    ensures QuoteBytes(run[k..] + rest) == run[k..] + QuoteBytes(rest)
  {
    HighBytesUnchanged(run[k..]);
    QuoteBytesAppend(run[k..], rest);
  }

  /** A string that starts with a lead byte: both it and its quoted form decode
      that sequence first, and go on with a string and its quoted form. */
  lemma HighSequence(value: ByteString) returns (k: nat)
    requires value != [] && value[0] >= 0x80
    ensures k <= |value| && k <= |QuoteBytes(value)|
    ensures First(value) == First(QuoteBytes(value))
    ensures First(value).Some? ==> k == First(value).value.1 && QuoteBytes(value)[k..] == QuoteBytes(value[k..])
  {
    var n := RunEnd(value, 1);
    var run, rest := value[..n], value[n..];
    assert value == run + rest && run[0..] == run;
    QuotedRun(run, rest, 0);
    FirstNeedsRun(run, rest);
    FirstNeedsRun(run, QuoteBytes(rest));
    k := 0;
    if First(run).Some? {
      k := First(run).value.1;
      QuotedRun(run, rest, k);
      DropInFront(run, rest, k);
      DropInFront(run, QuoteBytes(rest), k);
    }
  }

  lemma {:induction false} QuotingKeepsUtf8(value: ByteString)
    ensures Decode(QuoteBytes(value)).Some? <==> Decode(value).Some?
    decreases |value|
  {
    if value != [] {
      if value[0] < 0x80 {
        QuotingKeepsUtf8(value[1..]);
        AsciiPrefix(value[0], QuoteBytes(value[1..]));
        DecodeAsciiHead(value[0], value[1..]);
        assert value == [value[0]] + value[1..];
      } else {
        var k := HighSequence(value);
        if First(value).Some? {
          QuotingKeepsUtf8(value[k..]);
        }
      }
    }
  }

  lemma QuotedIsUtf8(value: ByteString)
    ensures IsUtf8(QuoteOf(value)) <==> IsUtf8(value)
  {
    var body := QuoteBytes(value);
    DecodesIffUtf8(QuoteOf(value));
    DecodesIffUtf8(value);
    QuotingKeepsUtf8(value);
    DecodeAsciiTail(body, QUOTE);
    DecodeAsciiHead(QUOTE, body + [QUOTE]);
    assert QuoteOf(value) == [QUOTE] + (body + [QUOTE]);
  }

  /** Quoting leaves no tab, line break, backspace or form feed raw: a quoted text stays
      on its line. */
  lemma QuotedStaysOnItsLine(value: ByteString)
    ensures forall b :: b in QuoteOf(value) ==> b != 8 && b != 9 && b != 10 && b != 12 && b != 13
  {
    hide QuoteBytes;
    QuotedBytesStay(value);
    assert forall b :: b in QuoteOf(value) ==> b == QUOTE || b in QuoteBytes(value);
  }

  lemma {:induction false} QuotedBytesStay(value: ByteString)
    ensures forall b :: b in QuoteBytes(value) ==> b != 8 && b != 9 && b != 10 && b != 12 && b != 13
  {
    if value != [] {
      QuotedBytesStay(value[1..]);
      assert forall b :: b in QuoteBytes(value) ==> b in QuoteByte(value[0]) || b in QuoteBytes(value[1..]);
    }
  }

  /** A TOML decoder recovers the quoted string exactly when the string is valid
      UTF-8 and has none of the control characters `quote` leaves alone. */
  lemma QuoteRoundTrip(value: ByteString)
    ensures DecodeBasic(QuoteOf(value)) == Some(value) <==> IsUtf8(value) && Quotable(value)
    ensures DecodeBasic(QuoteOf(value)).Some? ==> DecodeBasic(QuoteOf(value)) == Some(value)
  {
    QuotedIsUtf8(value);
    DecodeQuoted(value, []);
    assert QuoteOf(value)[1..] == QuoteBytes(value) + [QUOTE] + [];
  }

  /** The bell character is valid UTF-8 that quoting does not make readable. */
  lemma RawControlIsNotReadable()
    ensures IsUtf8([7]) && DecodeBasic(QuoteOf([7])).None?
  {
    assert EncodeAll([7]) == Encode(7) + EncodeAll([]);
    assert Encodes([7], [7]);
    assert LeftRaw([7][0]);
    QuoteRoundTrip([7]);
  }

  lemma QuoteByteDecides(a: Byte, b: Byte, x: ByteString, y: ByteString)
    requires QuoteByte(a) + x == QuoteByte(b) + y
    ensures a == b && x == y
  {
    var s, t := QuoteByte(a) + x, QuoteByte(b) + y;
    assert s[0] == QuoteByte(a)[0] && t[0] == QuoteByte(b)[0];
    if |QuoteByte(a)| == 2 && |QuoteByte(b)| == 2 {
      assert s[1] == QuoteByte(a)[1] && t[1] == QuoteByte(b)[1];
    }
    assert a == b;
    assert s[|QuoteByte(a)|..] == x && t[|QuoteByte(b)|..] == y;
  }

  lemma {:induction false} QuoteBytesInjective(a: ByteString, b: ByteString)
    requires QuoteBytes(a) == QuoteBytes(b)
    ensures a == b
    decreases |a| + |b|
  {
    if a != [] && b != [] {
      QuoteByteDecides(a[0], b[0], QuoteBytes(a[1..]), QuoteBytes(b[1..]));
      QuoteBytesInjective(a[1..], b[1..]);
      assert a == [a[0]] + a[1..] && b == [b[0]] + b[1..];
    }
  }

  /** Different byte strings, readable or not, are quoted differently. */
  lemma QuoteIsInjective(a: ByteString, b: ByteString)
    requires QuoteOf(a) == QuoteOf(b)
    ensures a == b
  {
    assert QuoteOf(a)[1..|QuoteOf(a)| - 1] == QuoteBytes(a);
    assert QuoteOf(b)[1..|QuoteOf(b)| - 1] == QuoteBytes(b);
    QuoteBytesInjective(a, b);
  }

  /** The byte at `i` follows a backslash that is not itself escaped. */
  predicate EscapedAt(text: ByteString, i: nat)
    requires i <= |text|
  {
    i > 0 && text[i - 1] == BACKSLASH && !EscapedAt(text, i - 1)
  }

  lemma {:induction false} EscapedInPrefix(text: ByteString, more: ByteString, i: nat)
    requires i <= |text|
    ensures EscapedAt(text + more, i) <==> EscapedAt(text, i)
  {
    if i > 0 {
      EscapedInPrefix(text, more, i - 1);
    }
  }

  lemma QuotedStep(before: ByteString, b: Byte)
    requires !EscapedAt(before, |before|)
    requires forall i :: 1 <= i < |before| && before[i] == QUOTE ==> EscapedAt(before, i)
    requires before != []
    ensures var text := before + QuoteByte(b);
      && !EscapedAt(text, |text|)
      && forall i :: 1 <= i < |text| && text[i] == QUOTE ==> EscapedAt(text, i)
  {
    var q := QuoteByte(b);
    var text := before + q;
    EscapedInPrefix(before, q, |before|);
    assert !EscapedAt(text, |before|);
    assert text[|before|] == q[0];
    if |q| == 2 {
      assert text[|before| + 1] == q[1];
      assert EscapedAt(text, |before| + 1);
    }
    forall i | 1 <= i < |text| && text[i] == QUOTE
      ensures EscapedAt(text, i)
    {
      if i < |before| {
        EscapedInPrefix(before, q, i);
      }
    }
  }

  lemma {:induction false} QuotedPrefix(value: ByteString, k: nat)
    requires k <= |value|
    ensures var text := [QUOTE] + QuoteBytes(value[..k]);
      && !EscapedAt(text, |text|)
      && forall i :: 1 <= i < |text| && text[i] == QUOTE ==> EscapedAt(text, i)
  {
    if k > 0 {
      QuotedPrefix(value, k - 1);
      QuoteOneMore(value, k - 1);
      var before := [QUOTE] + QuoteBytes(value[..k - 1]);
      var text := [QUOTE] + QuoteBytes(value[..k]);
      var q := QuoteByte(value[k - 1]);
      assert text == before + q;
      QuotedStep(before, value[k - 1]);
    } else {
      assert value[..0] == [];
    }
  }

  /** Between its two delimiters, a quoted string has no unescaped quote, and its
      closing delimiter is not escaped. */
  lemma OnlyTheLastQuoteCloses(value: ByteString)
    ensures var text := QuoteOf(value);
      forall i :: 1 <= i < |text| && text[i] == QUOTE ==> (EscapedAt(text, i) <==> i < |text| - 1)
  {
    var text := QuoteOf(value);
    var front := [QUOTE] + QuoteBytes(value);
    assert value[..|value|] == value;
    QuotedPrefix(value, |value|);
    assert text == front + [QUOTE];
    forall i | 1 <= i < |text| && text[i] == QUOTE
      ensures EscapedAt(text, i) <==> i < |text| - 1
    {
      EscapedInPrefix(front, [QUOTE], i);
    }
  }
}
