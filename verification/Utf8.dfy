/** UTF-8 acceptance and trimming, as `src/appearance.cpp` does them.

    The reference is the encoding of sections 3 and 4 of RFC 3629: a byte string
    is acceptable exactly when it is a concatenation of encodings of Unicode
    scalar values. */
module Utf8 {
  import opened Bytes

  predicate IsScalar(cp: int) {
    0 <= cp <= 0x10FFFF && !(0xD800 <= cp <= 0xDFFF)
  }

  type Scalar = cp: int | 0 <= cp <= 0x10FFFF && !(0xD800 <= cp <= 0xDFFF)

  predicate IsContinuation(b: Byte) {
    0x80 <= b < 0xC0
  }

  /** The encoding of one scalar value, section 3 of RFC 3629. */
  function Encode(cp: Scalar): (r: ByteString)
    ensures 1 <= |r| <= 4
    ensures !IsContinuation(r[0])
    ensures forall i :: 1 <= i < |r| ==> IsContinuation(r[i])
    ensures cp < 0x80 <==> r[0] < 0x80
    ensures cp < 0x80 ==> r == [cp]
  {
    var last: Byte := 0x80 + cp % 64;
    var third: Byte := 0x80 + cp / 64 % 64;
    var second: Byte := 0x80 + cp / 4096 % 64;
    if cp < 0x80 then var ascii: Byte := cp; [ascii]
    else if cp < 0x800 then var lead: Byte := 0xC0 + cp / 64; [lead, last]
    else if cp < 0x10000 then var lead: Byte := 0xE0 + cp / 4096; [lead, third, last]
    else var lead: Byte := 0xF0 + cp / 262144; [lead, second, third, last]
  }

  function EncodeAll(cps: seq<Scalar>): ByteString {
    if cps == [] then [] else Encode(cps[0]) + EncodeAll(cps[1..])
  }

  ghost predicate Encodes(s: ByteString, cps: seq<Scalar>) {
    s == EncodeAll(cps)
  }

  ghost predicate IsUtf8(s: ByteString) {
    exists cps: seq<Scalar> :: Encodes(s, cps)
  }

  // ---------------------------------------------------------------------------
  // The decoder the validating loop carries out

  /** Sequence length announced by a lead byte; 0 when no sequence starts so. */
  function LeadLength(first: Byte): nat {
    if first < 0x80 then 1
    else if 0xC0 <= first < 0xE0 then 2
    else if 0xE0 <= first < 0xF0 then 3
    else if 0xF0 <= first < 0xF8 then 4
    else 0
  }

  /** The payload of a lead byte: its value without the length marker. */
  function LeadBits(first: Byte): int {
    if first < 0x80 then first
    else if first < 0xE0 then first - 0xC0
    else if first < 0xF0 then first - 0xE0
    else first - 0xF0
  }

  /** Shifts the six payload bits of each continuation byte in below `head`. */
  function Accumulate(head: int, tail: ByteString): int {
    if tail == [] then head
    else Accumulate(head, tail[..|tail| - 1]) * 64 + tail[|tail| - 1] as int - 0x80
  }

  /** Smallest code point a sequence of this length may carry. */
  function Smallest(length: nat): nat {
    if length == 2 then 0x80 else if length == 3 then 0x800 else if length == 4 then 0x10000 else 0
  }

  predicate Continuations(tail: ByteString) {
    forall i :: 0 <= i < |tail| ==> IsContinuation(tail[i])
  }

  /** The scalar value at the head of `s` and the length of its sequence. */
  function First(s: ByteString): (r: Option<(Scalar, nat)>)
    requires s != []
    ensures r.Some? ==> 1 <= r.value.1 <= |s|
  {
    var length := LeadLength(s[0]);
    if length == 0 || length > |s| || !Continuations(s[1..length]) then None
    else
      var cp := Accumulate(LeadBits(s[0]), s[1..length]);
      if cp < Smallest(length) || !IsScalar(cp) then None else Some((cp, length))
  }

  function Decode(s: ByteString): Option<seq<Scalar>> {
    if s == [] then Some([])
    else
      match First(s)
      case None => None
      case Some((cp, n)) =>
        match Decode(s[n..])
        case None => None
        case Some(rest) => Some([cp] + rest)
  }

  lemma {:induction false} AccumulateUpToThree(head: int, tail: ByteString)
    requires |tail| <= 3
    ensures |tail| == 0 ==> Accumulate(head, tail) == head
    ensures |tail| == 1 ==> Accumulate(head, tail) == head * 64 + tail[0] as int - 0x80
    ensures |tail| == 2 ==>
      Accumulate(head, tail) == head * 4096 + (tail[0] as int - 0x80) * 64 + tail[1] as int - 0x80
    ensures |tail| == 3 ==>
      Accumulate(head, tail) ==
      head * 262144 + (tail[0] as int - 0x80) * 4096 + (tail[1] as int - 0x80) * 64 + tail[2] as int - 0x80
  {
    if |tail| > 0 {
      AccumulateUpToThree(head, tail[..|tail| - 1]);
    }
  }

  /** The base-64 digits of a code point. */
  lemma Digits(cp: nat)
    ensures cp == cp / 64 * 64 + cp % 64
    ensures cp / 64 == cp / 4096 * 64 + cp / 64 % 64
    ensures cp / 4096 == cp / 262144 * 64 + cp / 4096 % 64
  {}

  lemma FirstOfEncoding(cp: Scalar, rest: ByteString)
    ensures First(Encode(cp) + rest) == Some((cp, |Encode(cp)|))
  {
    var e := Encode(cp);
    var s := e + rest;
    Digits(cp);
    assert s[0] == e[0];
    assert LeadLength(s[0]) == |e|;
    assert s[1..|e|] == e[1..];
    AccumulateUpToThree(LeadBits(e[0]), e[1..]);
  }

  /** A number is determined by, and determines, its base-64 digits. */
  lemma DigitsUnique(a: nat, b: nat, c: nat, d: nat)
    requires b < 64 && c < 64 && d < 64
    ensures (((a * 64) + b) * 64 + c) * 64 + d == a * 262144 + b * 4096 + c * 64 + d
    ensures (a * 262144 + b * 4096 + c * 64 + d) % 64 == d
    ensures (a * 262144 + b * 4096 + c * 64 + d) / 64 % 64 == c
    ensures (a * 262144 + b * 4096 + c * 64 + d) / 4096 % 64 == b
    ensures (a * 262144 + b * 4096 + c * 64 + d) / 262144 == a
    ensures (a * 262144 + b * 4096 + c * 64 + d) / 64 == a * 4096 + b * 64 + c
    ensures (a * 262144 + b * 4096 + c * 64 + d) / 4096 == a * 64 + b
  {}

  lemma EncodingOfTwo(s: ByteString, cp: Scalar)
    requires |s| == 2 && LeadLength(s[0]) == 2 && IsContinuation(s[1])
    requires cp >= 0x80 && cp == (s[0] as int - 0xC0) * 64 + s[1] as int - 0x80
    ensures s == Encode(cp)
  {
    DigitsUnique(0, 0, s[0] as int - 0xC0, s[1] as int - 0x80);
  }

  lemma EncodingOfThree(s: ByteString, cp: Scalar)
    requires |s| == 3 && LeadLength(s[0]) == 3 && IsContinuation(s[1]) && IsContinuation(s[2])
    requires cp >= 0x800
    requires cp == (s[0] as int - 0xE0) * 4096 + (s[1] as int - 0x80) * 64 + s[2] as int - 0x80
    ensures s == Encode(cp)
  {
    DigitsUnique(0, s[0] as int - 0xE0, s[1] as int - 0x80, s[2] as int - 0x80);
  }

  lemma EncodingOfFour(s: ByteString, cp: Scalar)
    requires |s| == 4 && LeadLength(s[0]) == 4
    requires IsContinuation(s[1]) && IsContinuation(s[2]) && IsContinuation(s[3])
    requires cp >= 0x10000
    requires cp == (s[0] as int - 0xF0) * 262144 + (s[1] as int - 0x80) * 4096 + (s[2] as int - 0x80) * 64
                   + s[3] as int - 0x80
    ensures s == Encode(cp)
  {
    DigitsUnique(s[0] as int - 0xF0, s[1] as int - 0x80, s[2] as int - 0x80, s[3] as int - 0x80);
  }

  lemma EncodingOfFirst(s: ByteString)
    requires s != [] && First(s).Some?
    ensures s[..First(s).value.1] == Encode(First(s).value.0)
  {
    var (cp, n) := First(s).value;
    AccumulateUpToThree(LeadBits(s[0]), s[1..n]);
    var tail := s[1..n];
    assert Continuations(tail);
    if n == 2 {
      assert IsContinuation(tail[0]);
      EncodingOfTwo(s[..2], cp);
    } else if n == 3 {
      assert IsContinuation(tail[0]) && IsContinuation(tail[1]);
      EncodingOfThree(s[..3], cp);
    } else if n == 4 {
      assert IsContinuation(tail[0]) && IsContinuation(tail[1]) && IsContinuation(tail[2]);
      EncodingOfFour(s[..4], cp);
    }
  }

  /** Decoding is exactly the inverse of encoding, in both directions. */
  lemma {:induction false} DecodeInvertsEncode(s: ByteString, cps: seq<Scalar>)
    ensures Decode(s) == Some(cps) <==> s == EncodeAll(cps)
    decreases |s| + |cps|
  {
    if s == EncodeAll(cps) {
      if cps != [] {
        var rest := EncodeAll(cps[1..]);
        FirstOfEncoding(cps[0], rest);
        DecodeInvertsEncode(rest, cps[1..]);
        assert s[|Encode(cps[0])|..] == rest;
        assert [cps[0]] + cps[1..] == cps;
      }
      assert Decode(s) == Some(cps);
    }
    if Decode(s) == Some(cps) {
      if s == [] {
        assert cps == [];
      } else {
        var (cp, n) := First(s).value;
        EncodingOfFirst(s);
        assert cps[0] == cp && cps[1..] == Decode(s[n..]).value;
        DecodeInvertsEncode(s[n..], cps[1..]);
        assert s == s[..n] + s[n..];
      }
    }
  }

  /** No byte string is the encoding of two different scalar sequences. */
  lemma EncodingIsUnique(a: seq<Scalar>, b: seq<Scalar>)
    requires EncodeAll(a) == EncodeAll(b)
    ensures a == b
  {
    DecodeInvertsEncode(EncodeAll(a), a);
    DecodeInvertsEncode(EncodeAll(a), b);
  }

  lemma DecodesIffUtf8(s: ByteString)
    ensures Decode(s).Some? <==> IsUtf8(s)
  {
    if Decode(s).Some? {
      DecodeInvertsEncode(s, Decode(s).value);
      assert Encodes(s, Decode(s).value);
    }
    if IsUtf8(s) {
      var cps: seq<Scalar> :| Encodes(s, cps);
      DecodeInvertsEncode(s, cps);
    }
  }

  /** Valid from `index` on. */
  predicate ValidFrom(value: ByteString, index: nat)
    requires index <= |value|
  {
    Decode(value[index..]).Some?
  }

  lemma AsciiAt(value: ByteString, index: nat)
    requires index < |value| && value[index] < 0x80
    ensures ValidFrom(value, index) <==> ValidFrom(value, index + 1)
  {
    DecodeAsciiHead(value[index], value[index + 1..]);
    assert value[index..] == [value[index]] + value[index + 1..];
  }

  lemma BadLeadAt(value: ByteString, index: nat)
    requires index < |value|
    requires LeadLength(value[index]) == 0 || index + LeadLength(value[index]) > |value|
    ensures !ValidFrom(value, index)
  {}

  lemma BadContinuationAt(value: ByteString, index: nat, offset: nat)
    requires index < |value| && 1 <= offset < LeadLength(value[index])
    requires index + LeadLength(value[index]) <= |value|
    requires !IsContinuation(value[index + offset])
    ensures !ValidFrom(value, index)
  {
    var rest := value[index..];
    assert rest[1..LeadLength(rest[0])][offset - 1] == value[index + offset];
  }

  lemma SequenceAt(value: ByteString, index: nat, cp: int)
    requires index < |value| && 1 <= LeadLength(value[index])
    requires index + LeadLength(value[index]) <= |value|
    requires Continuations(value[index + 1..index + LeadLength(value[index])])
    requires cp == Accumulate(LeadBits(value[index]), value[index + 1..index + LeadLength(value[index])])
    ensures ValidFrom(value, index) <==>
      cp >= Smallest(LeadLength(value[index])) && IsScalar(cp) && ValidFrom(value, index + LeadLength(value[index]))
  {
    var length := LeadLength(value[index]);
    var rest := value[index..];
    assert rest[1..length] == value[index + 1..index + length];
    DropAgain(value, index, length);
  }

  lemma OneMoreByte(head: int, value: ByteString, from: nat, to: nat)
    requires from <= to < |value|
    ensures Accumulate(head, value[from..to + 1]) == Accumulate(head, value[from..to]) * 64 + value[to] as int - 0x80
    ensures Continuations(value[from..to + 1]) <==> Continuations(value[from..to]) && IsContinuation(value[to])
  {
    var tail := value[from..to];
    assert value[from..to + 1] == tail + [value[to]];
    assert (tail + [value[to]])[..|tail|] == tail;
    if Continuations(tail + [value[to]]) {
      assert forall i :: 0 <= i < |tail| ==> tail[i] == (tail + [value[to]])[i];
      assert (tail + [value[to]])[|tail|] == value[to];
    }
  }

  /** The validating loop accepts exactly the concatenations of scalar encodings. */
  method IsValidUtf8(value: ByteString) returns (valid: bool)
    ensures valid <==> IsUtf8(value)
  {
    DecodesIffUtf8(value);
    assert value[0..] == value;
    var index := 0;
    while index < |value|
      invariant 0 <= index <= |value|
      invariant IsUtf8(value) <==> ValidFrom(value, index)
    {
      var first := value[index];
      if first <= 0x7F {
        AsciiAt(value, index);
        index := index + 1;
        continue;
      }
      var length: nat := 0;
      var codePoint: int := 0;
      if 0xC0 <= first < 0xE0 {
        length := 2;
        codePoint := first - 0xC0;
      } else if 0xE0 <= first < 0xF0 {
        length := 3;
        codePoint := first - 0xE0;
      } else if 0xF0 <= first < 0xF8 {
        length := 4;
        codePoint := first - 0xF0;
      } else {
        BadLeadAt(value, index);
        return false;
      }
      if index + length > |value| {
        BadLeadAt(value, index);
        return false;
      }
      var offset := 1;
      while offset < length
        invariant 1 <= offset <= length
        invariant Continuations(value[index + 1..index + offset])
        invariant codePoint == Accumulate(LeadBits(first), value[index + 1..index + offset])
      {
        var continuation := value[index + offset];
        if !(0x80 <= continuation < 0xC0) {
          BadContinuationAt(value, index, offset);
          return false;
        }
        OneMoreByte(LeadBits(first), value, index + 1, index + offset);
        codePoint := codePoint * 64 + continuation as int - 0x80;
        offset := offset + 1;
      }
      SequenceAt(value, index, codePoint);
      if (length == 2 && codePoint < 0x80) || (length == 3 && codePoint < 0x800) ||
         (length == 4 && codePoint < 0x10000) || codePoint > 0x10FFFF ||
         0xD800 <= codePoint <= 0xDFFF
      {
        return false;
      }
      index := index + length;
    }
    return true;
  }

  // ---------------------------------------------------------------------------
  // Trimming

  /** `std::isspace` of the classic locale. */
  predicate IsSpace(b: Byte) {
    b == SPACE || 9 <= b <= 13
  }

  function TrimLeft(s: ByteString): (r: ByteString)
    ensures r != [] ==> !IsSpace(r[0])
  {
    if s != [] && IsSpace(s[0]) then TrimLeft(s[1..]) else s
  }

  function TrimRight(s: ByteString): (r: ByteString)
    ensures r <= s
    ensures r != [] ==> !IsSpace(r[|r| - 1])
  {
    if s != [] && IsSpace(s[|s| - 1]) then TrimRight(s[..|s| - 1]) else s
  }

  function Trim(s: ByteString): ByteString {
    TrimRight(TrimLeft(s))
  }

  lemma DecodeAsciiHead(b: Byte, s: ByteString)
    requires b < 0x80
    ensures Decode([b] + s).Some? <==> Decode(s).Some?
  {
    FirstOfEncoding(b, s);
    assert ([b] + s)[1..] == s;
  }

  /** The first sequence does not depend on an ASCII byte after the string. */
  lemma FirstBeforeAscii(s: ByteString, b: Byte)
    requires s != [] && b < 0x80
    ensures First(s + [b]) == First(s)
  {
    var t := s + [b];
    var n := LeadLength(s[0]);
    assert t[0] == s[0];
    if n > |s| {
      if n == |t| {
        assert !IsContinuation(t[1..n][|s| - 1]);
      } else if n < |t| {
        assert false;
      }
    } else if n > 0 {
      assert t[..|s|] == s;
      assert t[1..n] == t[..|s|][1..n] == s[1..n];
    }
  }

  lemma {:induction false} DecodeAsciiTail(s: ByteString, b: Byte)
    requires b < 0x80
    ensures Decode(s + [b]).Some? <==> Decode(s).Some?
  {
    if s == [] {
      DecodeAsciiHead(b, []);
      assert [b] + [] == [] + [b];
    } else {
      FirstBeforeAscii(s, b);
      if First(s).Some? {
        var n := First(s).value.1;
        DecodeAsciiTail(s[n..], b);
        assert (s + [b])[n..] == s[n..] + [b];
      }
    }
  }

  lemma {:induction false} TrimLeftKeepsUtf8(s: ByteString)
    ensures Decode(TrimLeft(s)).Some? <==> Decode(s).Some?
  {
    if s != [] && IsSpace(s[0]) {
      DecodeAsciiHead(s[0], s[1..]);
      assert s == [s[0]] + s[1..];
      TrimLeftKeepsUtf8(s[1..]);
    }
  }

  lemma {:induction false} TrimRightKeepsUtf8(s: ByteString)
    ensures Decode(TrimRight(s)).Some? <==> Decode(s).Some?
  {
    if s != [] && IsSpace(s[|s| - 1]) {
      var front := s[..|s| - 1];
      DecodeAsciiTail(front, s[|s| - 1]);
      assert s == front + [s[|s| - 1]];
      TrimRightKeepsUtf8(front);
    }
  }

  /** Trimming neither repairs nor breaks UTF-8: it removes ASCII only. */
  lemma TrimKeepsUtf8(s: ByteString)
    ensures IsUtf8(Trim(s)) <==> IsUtf8(s)
  {
    TrimLeftKeepsUtf8(s);
    TrimRightKeepsUtf8(TrimLeft(s));
    DecodesIffUtf8(s);
    DecodesIffUtf8(Trim(s));
  }

  lemma {:induction false} LeftIsTrimmed(left: ByteString, rest: ByteString)
    requires forall b :: b in left ==> IsSpace(b)
    requires rest != [] ==> !IsSpace(rest[0])
    ensures TrimLeft(left + rest) == rest
  {
    if left == [] {
      assert left + rest == rest;
    } else {
      assert left[0] in left;
      LeftIsTrimmed(left[1..], rest);
      assert (left + rest)[1..] == left[1..] + rest;
    }
  }

  lemma {:induction false} RightIsTrimmed(rest: ByteString, right: ByteString)
    requires forall b :: b in right ==> IsSpace(b)
    requires rest != [] ==> !IsSpace(rest[|rest| - 1])
    ensures TrimRight(rest + right) == rest
  {
    if right == [] {
      assert rest + right == rest;
    } else {
      var last := |right| - 1;
      assert right[last] in right;
      RightIsTrimmed(rest, right[..last]);
      assert (rest + right)[..|rest + right| - 1] == rest + right[..last];
    }
  }

  /** What `Trim` returns is the one way to write `s` as spaces, a middle that
      neither starts nor ends with a space, and spaces. */
  lemma TrimIsTheMiddle(s: ByteString, left: ByteString, middle: ByteString, right: ByteString)
    requires s == left + middle + right
    requires forall b :: b in left || b in right ==> IsSpace(b)
    requires middle != [] ==> !IsSpace(middle[0]) && !IsSpace(middle[|middle| - 1])
    ensures Trim(s) == middle
  {
    hide TrimLeft, TrimRight, IsSpace;
    if middle == [] {
      assert s == (left + right) + [];
      LeftIsTrimmed(left + right, []);
      RightIsTrimmed([], []);
      assert [] + [] == middle;
    } else {
      Associative(left, middle, right);
      LeftIsTrimmed(left, middle + right);
      RightIsTrimmed(middle, right);
    }
  }

  lemma TrimIsIdempotent(s: ByteString)
    ensures Trim(Trim(s)) == Trim(s)
  {
    var t := Trim(s);
    TrimHeadSurvives(TrimLeft(s));
    assert t == [] + t + [];
    TrimIsTheMiddle(t, [], t, []);
  }

  lemma TrimHeadSurvives(s: ByteString)
    ensures TrimRight(s) != [] ==> s != [] && TrimRight(s)[0] == s[0]
  {}
}
