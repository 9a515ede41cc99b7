/** Byte strings, the code's `std::string` and `std::string_view`, with the two
    searches every scanner in the program relies on. */
module Bytes {

  type Byte = b: int | 0 <= b < 256

  type ByteString = seq<Byte>

  /** Components of an absolute path; the root is empty. */
  type Path = seq<ByteString>

  const BACKSPACE: Byte := 8
  const TAB: Byte := 9
  const NEWLINE: Byte := 10
  const FORM_FEED: Byte := 12
  const RETURN: Byte := 13
  const SPACE: Byte := 32
  const QUOTE: Byte := 34
  const HASH: Byte := 35
  const APOSTROPHE: Byte := 39
  const COMMA: Byte := 44
  const DOT: Byte := 46
  const EQUALS: Byte := 61
  const OPEN_BRACKET: Byte := 91
  const BACKSLASH: Byte := 92
  const CLOSE_BRACKET: Byte := 93
  const OPEN_BRACE: Byte := 123
  const DELETE: Byte := 127

  datatype Option<+T> = None | Some(value: T)

  /** `find(c, from)`, with the size of the string standing for `npos`. */
  function Find(s: ByteString, c: Byte, from: nat): (r: nat)
    requires from <= |s|
    ensures from <= r <= |s|
    ensures forall i :: from <= i < r ==> s[i] != c
    ensures r < |s| ==> s[r] == c
    decreases |s| - from
  {
    if from == |s| || s[from] == c then from else Find(s, c, from + 1)
  }

  /** The start of the line after the one holding `from`, or the end of the string. */
  function NextLine(s: ByteString, from: nat): (r: nat)
    requires from <= |s|
    ensures from <= r <= |s|
    ensures from < |s| ==> from < r
  {
    var newline := Find(s, NEWLINE, from);
    if newline == |s| then |s| else newline + 1
  }

  /** Whether a line starts at `i`. */
  predicate LineStart(s: ByteString, i: nat)
    requires i <= |s|
  {
    i == 0 || s[i - 1] == NEWLINE
  }

  function Concat(parts: seq<ByteString>): ByteString {
    if parts == [] then [] else parts[0] + Concat(parts[1..])
  }

  lemma {:induction false} ConcatAppend(a: seq<ByteString>, b: seq<ByteString>)
    ensures Concat(a + b) == Concat(a) + Concat(b)
  {
    if a == [] {
      assert a + b == b;
      assert [] + Concat(b) == Concat(b);
    } else {
      ConcatAppend(a[1..], b);
      assert (a + b)[1..] == a[1..] + b && (a + b)[0] == a[0];
      Associative(a[0], Concat(a[1..]), Concat(b));
    }
  }

  lemma DropAgain<T>(s: seq<T>, i: nat, step: nat)
    requires i + step <= |s|
    ensures s[i..][step..] == s[i + step..]
  {}

  lemma Associative<T>(a: seq<T>, b: seq<T>, c: seq<T>)
    ensures (a + b) + c == a + (b + c)
  {}
}
