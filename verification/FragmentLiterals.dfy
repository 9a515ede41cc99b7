/** Printing a fragment value and reading it back, so that what a successful patch
    of the fragment realises is the requested value itself. */
module FragmentLiterals {
  import opened Bytes
  import opened Splice
  import opened Documents
  import opened Patch
  import opened PatchProperties
  import opened Fragment
  import opened FragmentLines
  import FragmentPatch
  import Quoting
  import Scanner
  import Utf8

  /** Values of the fragment; integers are 64-bit. */
  predicate Literal(value: Value) {
    InFragment(value) && (value.Integer? ==> -0x8000_0000_0000_0000 <= value.number < 0x8000_0000_0000_0000)
  }

  // ---------------------------------------------------------------------------
  // Text

  lemma HexPair(b: Byte)
    requires Quoting.LeftRaw(b)
    ensures Quoting.HexNumber([48, 48, HexDigit((b as int) / 16), HexDigit((b as int) % 16)]) == Some((b as int) as nat)
  {
    var high, low := HexDigit((b as int) / 16), HexDigit((b as int) % 16);
    var digits: ByteString := [48, 48, high, low];
    assert digits[..3] == [48, 48, high] && digits[..3][..2] == [48, 48] && digits[..3][..2][..1] == [48];
    assert Quoting.HexNumber([]) == Some(0);
    assert Quoting.HexNumber([48]) == Some(0) by {
      assert [48][..0] == [];
    }
    assert Quoting.HexNumber([48, 48]) == Some(0);
    assert Quoting.HexNumber([48, 48, high]) == Some((b as int) / 16);
  }

  /** One escaped byte decodes to the byte. */
  lemma EscapedByteDecodes(b: Byte, rest: ByteString)
    ensures Quoting.DecodeBody(EscapeByte(b) + rest) == Quoting.Prepended([b], |EscapeByte(b)|, Quoting.DecodeBody(rest))
  {
    hide Quoting.HexNumber, Quoting.HexValue;
    if Quoting.LeftRaw(b) {
      var s := EscapeByte(b) + rest;
      HexPair(b);
      assert s[2..6] == [48, 48, HexDigit((b as int) / 16), HexDigit((b as int) % 16)];
      assert s[6..] == rest;
      assert Utf8.Encode(b as int) == [b];
      assert Quoting.DecodeEscape(s) == Some(([b], 6));
    } else {
      Quoting.DecodeOne(b, rest);
    }
  }

  lemma {:induction false} EscapedBytesDecode(text: ByteString, after: ByteString)
    ensures Quoting.DecodeBody(EscapeBytes(text) + ([QUOTE] + after)) == Some((text, |EscapeBytes(text)| + 1))
  {
    if text == [] {
      assert EscapeBytes(text) + ([QUOTE] + after) == [QUOTE] + after;
    } else {
      EscapedBytesDecode(text[1..], after);
      Associative(EscapeByte(text[0]), EscapeBytes(text[1..]), [QUOTE] + after);
      EscapedByteDecodes(text[0], EscapeBytes(text[1..]) + ([QUOTE] + after));
      assert text == [text[0]] + text[1..];
    }
  }

  // ---------------------------------------------------------------------------
  // Integers and booleans

  lemma {:induction false} DigitsOfNat(n: nat)
    ensures Digits(PrintNat(n)) == Some(n)
  {
    var s := PrintNat(n);
    var last := |s| - 1;
    if n < 10 {
      assert s[..last] == [];
    } else {
      assert s[..last] == PrintNat(n / 10);
      DigitsOfNat(n / 10);
    }
  }

  lemma {:induction false} NoLeadingZero(n: nat)
    ensures |PrintNat(n)| > 1 ==> PrintNat(n)[0] != 48
  {
    if n >= 10 {
      NoLeadingZero(n / 10);
      if n / 10 < 10 {
        assert PrintNat(n / 10)[0] == 48 + n / 10;
      }
    }
  }

  lemma IntegerReadsBack(number: int)
    requires Literal(Integer(number))
    ensures IntegerOf(Print(Integer(number))) == Some(number)
  {
    hide PrintNat, Digits;
    var n: nat := if number < 0 then -number else number;
    PrintedDigits(n);
    DigitsOfNat(n);
    NoLeadingZero(n);
    assert number < 0 ==> ([45] + PrintNat(n))[1..] == PrintNat(n);
  }

  lemma PrintedDigits(n: nat)
    ensures PrintNat(n) != [] && forall i :: 0 <= i < |PrintNat(n)| ==> 48 <= PrintNat(n)[i] <= 57
  {}

  lemma {:induction false} AllBare(s: ByteString)
    requires forall i :: 0 <= i < |s| ==> IsBareKeyByte(s[i])
    ensures CountBare(s) == |s|
  {
    if s != [] {
      AllBare(s[1..]);
    }
  }

  lemma BareScalarReadsBack(value: Value)
    requires Literal(value) && !value.Text?
    ensures LexScalar(Print(value)) == Some((value, |Print(value)|))
    ensures Print(value) != [] && !IsSpaceOrTab(Print(value)[0])
  {
    hide CountBare, PrintNat, IntegerOf;
    var s := Print(value);
    if value.Integer? {
      var n: nat := if value.number < 0 then -value.number else value.number;
      PrintedDigits(n);
      IntegerReadsBack(value.number);
      assert !(s[0] == 116) && !(s[0] == 102);
    }
    AllBare(s);
    assert s[..|s|] == s;
  }

  lemma TextReadsBack(text: ByteString)
    ensures LexScalar(PrintText(text)) == Some((Text(text), |PrintText(text)|))
  {
    hide EscapeBytes, Quoting.DecodeBody;
    EscapedBytesDecode(text, []);
    assert PrintText(text)[1..] == EscapeBytes(text) + ([QUOTE] + []);
  }

  lemma ScalarReadsBack(value: Value)
    requires Literal(value)
    ensures LexScalar(Print(value)) == Some((value, |Print(value)|))
    ensures Print(value) != [] && !IsSpaceOrTab(Print(value)[0])
  {
    hide LexScalar, EscapeBytes;
    if value.Text? {
      TextReadsBack(value.text);
    } else {
      BareScalarReadsBack(value);
    }
  }

  // ---------------------------------------------------------------------------
  // The literal as a document

  lemma {:induction false} EscapedHasNoReturn(text: ByteString)
    ensures RETURN !in EscapeBytes(text)
  {
    if text != [] {
      EscapedHasNoReturn(text[1..]);
      assert RETURN !in EscapeByte(text[0]) by {
        if Quoting.LeftRaw(text[0]) {
          assert HexDigit((text[0] as int) / 16) >= 48 && HexDigit((text[0] as int) % 16) >= 48;
        }
      }
    }
  }

  lemma PrintHasNoReturn(value: Value)
    requires InFragment(value)
    ensures RETURN !in Print(value)
  {
    hide EscapeBytes;
    match value {
      case Text(text) => EscapedHasNoReturn(text);
      case _ =>
    }
  }

  lemma {:induction false} CountBareUnique(s: ByteString, n: nat)
    requires n < |s| && !IsBareKeyByte(s[n]) && forall i :: 0 <= i < n ==> IsBareKeyByte(s[i])
    ensures CountBare(s) == n
  {
    if n > 0 {
      CountBareUnique(s[1..], n - 1);
    }
  }

  lemma LiteralKey(lexeme: ByteString)
    ensures LexKey(VALUE_PREFIX + lexeme) == Some((VALUE_KEY[0], 5))
  {
    var t := VALUE_PREFIX + lexeme;
    CountBareUnique(t, 5);
    assert t[..5] == VALUE_KEY[0];
  }

  lemma LiteralAssign(value: Value)
    requires Literal(value)
    ensures ClassifyAssign(VALUE_PREFIX + Print(value)) == Assign(VALUE_KEY[0], value, 8, 8 + |Print(value)|)
  {
    hide LexKey, LexScalar, Print, Literal;
    var lexeme := Print(value);
    var t := VALUE_PREFIX + lexeme;
    ScalarReadsBack(value);
    LiteralKey(lexeme);
    assert t[5] == SPACE && t[6] == EQUALS && t[7] == SPACE && t[8] == lexeme[0];
    CountSpaceUnique(t[5..], 1);
    CountSpaceUnique(t[7..], 1);
    assert t[8..] == lexeme;
    assert t[8 + |lexeme|..] == [];
    EmptyTrail();
  }

  lemma EmptyTrail()
    ensures IsTrail([])
  {}

  lemma LiteralLine(value: Value)
    requires Literal(value)
    ensures var t := VALUE_PREFIX + Print(value);
      NEWLINE !in t && Classify(t) == Assign(VALUE_KEY[0], value, 8, |t|)
  {
    hide ClassifyAssign, ClassifyHeader, Print;
    var t := VALUE_PREFIX + Print(value);
    LiteralAssign(value);
    PrintIsInline(value);
    PrintHasNoReturn(value);
    StripUnterminated(t);
    CountSpaceUnique(t, 0);
    assert t[0..] == t;
    assert t[0] == 118;
  }

  /** The document `value = literal` binds just that value. */
  lemma LiteralReadsBack(value: Value)
    requires Literal(value)
    ensures Locate(VALUE_PREFIX + Print(value), 0, [])
         == Some([Located(VALUE_KEY, value, 0, Span(8, |VALUE_PREFIX + Print(value)|))])
  {
    hide Print, Classify;
    var t := VALUE_PREFIX + Print(value);
    LiteralLine(value);
    assert Bytes.Find(t, NEWLINE, 0) == |t|;
    assert NextLine(t, 0) == |t| && |t| > 0 && t[0..|t|] == t;
    assert Locate(t, |t|, []) == Some([]);
    var key: KeyPath := [];
    assert key + [VALUE_KEY[0]] == VALUE_KEY;
    var x := Located(VALUE_KEY, value, 0, Span(8, |t|));
    assert [x] + [] == [x];
    assert Classify(t[0..NextLine(t, 0)]) == Assign(VALUE_KEY[0], value, 8, |t|);
  }

  /** Normalizing keeps every literal of the fragment. */
  lemma NormalizedLiteral(edit: Edit)
    requires edit.pending.Some? ==> Literal(edit.pending.value)
    requires NormalizeOne(TOML, edit).Some?
    ensures NormalizeOne(TOML, edit) == Some(edit)
  {
    hide Print, Locate, EntryOf, Literal;
    if edit.pending.Some? {
      LiteralReadsBack(edit.pending.value);
      var t := VALUE_PREFIX + Print(edit.pending.value);
      var all := Locate(t, 0, []).value;
      var literal := ParseDocument(TOML, t, None).snapshot;
      var x := FragmentPatch.LiteralBinding(literal, all);
    }
  }

  lemma LiteralParses(value: Value)
    requires Literal(value)
    ensures Parse(VALUE_PREFIX + Print(value)).Some?
    ensures Parse(VALUE_PREFIX + Print(value)).value.Keys == {VALUE_KEY}
  {
    hide Print, Classify, EntryOf, Literal;
    var t := VALUE_PREFIX + Print(value);
    LiteralReadsBack(value);
    LiteralHasNoHeader(value);
    var all := Locate(t, 0, []).value;
    assert KeysOf(all) == [VALUE_KEY];
    assert MapOf(t, all).Keys == {VALUE_KEY};
  }

  lemma LiteralHasNoHeader(value: Value)
    requires Literal(value)
    ensures HeadersFrom(VALUE_PREFIX + Print(value), 0) == []
  {
    hide Print, Classify, Literal;
    var t := VALUE_PREFIX + Print(value);
    LiteralLine(value);
    assert Bytes.Find(t, NEWLINE, 0) == |t|;
    assert NextLine(t, 0) == |t| && |t| > 0 && t[0..|t|] == t;
    assert HeadersFrom(t, |t|) == [];
    assert Classify(t[0..NextLine(t, 0)]) == Assign(VALUE_KEY[0], value, 8, |t|);
  }

  /** A literal that is not too long is normalized to itself. */
  lemma NormalizesLiteral(edit: Edit)
    requires edit.pending.Some? ==>
      Literal(edit.pending.value) && |VALUE_PREFIX + Print(edit.pending.value)| <= MAXIMUM_DOCUMENT_BYTES
    ensures NormalizeOne(TOML, edit) == Some(edit)
  {
    hide Print, Parse, Literal;
    if edit.pending.Some? {
      LiteralParses(edit.pending.value);
      var overrides := Parse(VALUE_PREFIX + Print(edit.pending.value)).value;
      assert |overrides| == |overrides.Keys| == 1;
      NormalizedLiteral(edit);
    }
  }

  /** Success binds every edited key to exactly the requested value, or to nothing
      where removal was requested, and leaves every other key as it was, wherever
      insertions share a place. */
  lemma PatchOverlaysRequest(current: Snapshot, edits: seq<Edit>, schema: Schema, key: KeyPath)
    requires Parse(current.revision.bytes) == Some(current.overrides)
    requires forall k :: 0 <= k < |edits| && edits[k].pending.Some? ==> Literal(edits[k].pending.value)
    requires PatchOf(TOML, current, edits, schema).status == Success
    ensures PatchOf(TOML, current, edits, schema).snapshot.Some?
    ensures var after := PatchOf(TOML, current, edits, schema).snapshot.value;
      && (forall k :: 0 <= k < |edits| && edits[k].key == key ==> after.ValueAt(key) == edits[k].pending)
      && (!KeyUsed(edits, key) ==> after.ValueAt(key) == current.ValueAt(key))
  {
    hide PatchOf, Parse, Literal, NormalizeOne;
    FragmentPatch.PatchOverlaysBatch(current, edits, schema, key);
    var batch := Normalize(TOML, edits).value;
    forall k | 0 <= k < |edits| ensures batch[k] == edits[k] {
      assert NormalizeOne(TOML, edits[k]) == Some(batch[k]);
      NormalizedLiteral(edits[k]);
    }
    assert batch == edits;
  }
}
