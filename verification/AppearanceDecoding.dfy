/** Which appearance documents decode, to what, and with which warnings, said of the
    parsed tree alone. */
module AppearanceDecoding {
  import opened Bytes
  import opened Documents
  import opened Appearance
  import opened AppearanceMeaning
  import Utf8

  // ---------------------------------------------------------------------------
  // One field

  /** White space of the C locale. */
  predicate IsWhite(b: Byte) {
    b == SPACE || 9 <= b <= 13
  }

  predicate AllWhite(text: ByteString) {
    forall b :: b in text ==> IsWhite(b)
  }

  /** The text is `middle` between white space, and neither starts nor ends with any. */
  predicate Surrounds(text: ByteString, left: ByteString, middle: ByteString, right: ByteString) {
    && text == left + middle + right && AllWhite(left) && AllWhite(right)
    && (middle != [] ==> !IsWhite(middle[0]) && !IsWhite(middle[|middle| - 1]))
  }

  ghost predicate MiddleOf(text: ByteString, middle: ByteString) {
    exists left, right :: Surrounds(text, left, middle, right)
  }

  predicate IsNumeric(format: Format, name: FieldName) {
    name !in format.fields || format.fields[name].default.Float?
  }

  /** The node is a scalar that stands for `value` in the field: numbers for numbers, an
      integer for the same number; an integer or a text for itself, or for what is left
      of it without surrounding white space. */
  ghost predicate StandsFor(format: Format, name: FieldName, node: Node, value: Value) {
    node.Scalar? &&
    if IsNumeric(format, name) then
      || (node.value.Integer? && value == Float(Number(node.value.number as real)))
      || (node.value.Float? && value == node.value)
    else if format.fields[name].default.Integer? then node.value.Integer? && value == node.value
    else
      && node.value.Text? && value.Text?
      && if format.fields[name].trimmed then MiddleOf(node.value.text, value.text) else value == node.value
  }

  lemma {:induction false} LeftBlanks(s: ByteString) returns (left: ByteString)
    ensures s == left + Utf8.TrimLeft(s) && AllWhite(left)
  {
    if s != [] && Utf8.IsSpace(s[0]) {
      left := LeftBlanks(s[1..]);
      assert s == [s[0]] + s[1..];
      Associative([s[0]], left, Utf8.TrimLeft(s));
      left := [s[0]] + left;
    } else {
      left := [];
    }
  }

  lemma {:induction false} RightBlanks(s: ByteString) returns (right: ByteString)
    ensures s == Utf8.TrimRight(s) + right && AllWhite(right)
  {
    if s != [] && Utf8.IsSpace(s[|s| - 1]) {
      right := RightBlanks(s[..|s| - 1]);
      assert s == s[..|s| - 1] + [s[|s| - 1]];
      Associative(Utf8.TrimRight(s), right, [s[|s| - 1]]);
      right := right + [s[|s| - 1]];
    } else {
      right := [];
    }
  }

  lemma TrimmedIsMiddle(text: ByteString, middle: ByteString)
    ensures MiddleOf(text, middle) <==> middle == Utf8.Trim(text)
  {
    hide Utf8.Trim;
    if MiddleOf(text, middle) {
      var left, right :| Surrounds(text, left, middle, right);
      Utf8.TrimIsTheMiddle(text, left, middle, right);
    }
    if middle == Utf8.Trim(text) {
      TrimSplits(text);
    }
  }

  lemma TrimSplits(text: ByteString)
    ensures MiddleOf(text, Utf8.Trim(text))
  {
    var rest := Utf8.TrimLeft(text);
    var left := LeftBlanks(text);
    var right := RightBlanks(rest);
    var middle := Utf8.TrimRight(rest);
    Associative(left, middle, right);
    Utf8.TrimHeadSurvives(rest);
    assert middle != [] ==> !Utf8.IsSpace(rest[0]) && !Utf8.IsSpace(middle[|middle| - 1]);
    assert Surrounds(text, left, middle, right);
  }

  lemma FieldStandsFor(format: Format, root: Node, name: FieldName, value: Value)
    requires WellFormed(format) && Known(format, name) && GetField(root, name).Some?
    ensures FieldValue(format, root, name) == Some(value) <==> StandsFor(format, name, GetField(root, name).value, value)
  {
    hide MiddleOf, Utf8.Trim, GetField;
    var node := GetField(root, name).value;
    if node.Scalar? && node.value.Text? && value.Text? {
      TrimmedIsMiddle(node.value.text, value.text);
    }
  }

  // ---------------------------------------------------------------------------
  // Documents

  predicate HasVersion(root: Node, version: int) {
    root.Table? && VERSION in root.entries && root.entries[VERSION] == Scalar(Integer(version))
  }

  ghost predicate StandsAccepted(format: Format, name: FieldName, node: Node) {
    exists value :: StandsFor(format, name, node, value)
      && if name in format.fields then format.fields[name].accepts(value)
         else name in format.optionals && format.optionals[name](value)
  }

  /** Every field there is of the format stands for a value its check accepts. */
  ghost predicate FieldsStand(format: Format, root: Node) {
    forall name: FieldName :: Known(format, name) && GetField(root, name).Some? ==>
      StandsAccepted(format, name, GetField(root, name).value)
  }

  /** What stands under the name of one of the format's tables is a table. */
  ghost predicate TablesAreTables(format: Format, root: Node) {
    forall name: FieldName :: name in format.fields && Get(root, name.0).Some? ==> Get(root, name.0).value.Table?
  }

  ghost predicate EveryFieldThere(format: Format, root: Node) {
    forall name :: name in format.fields ==> GetField(root, name).Some?
  }

  lemma StandsIsValue(format: Format, root: Node, name: FieldName)
    requires WellFormed(format) && Known(format, name) && GetField(root, name).Some?
    ensures StandsAccepted(format, name, GetField(root, name).value) <==>
      FieldValue(format, root, name).Some? && Accepted(format, name, FieldValue(format, root, name).value)
  {
    hide FieldValue, StandsFor, GetField, WellFormed;
    if FieldValue(format, root, name).Some? {
      FieldStandsFor(format, root, name, FieldValue(format, root, name).value);
    }
    if StandsAccepted(format, name, GetField(root, name).value) {
      var value :| StandsFor(format, name, GetField(root, name).value, value)
        && if name in format.fields then format.fields[name].accepts(value)
           else name in format.optionals && format.optionals[name](value);
      FieldStandsFor(format, root, name, value);
    }
  }

  lemma StrictExactly(format: Format, root: Node)
    requires WellFormed(format) && root.Table?
    ensures AllTables(format, root) && Complete(format, root) <==> EveryFieldThere(format, root) && FieldsStand(format, root)
  {
    hide FieldValue, StandsAccepted, WellFormed, Accepted;
    forall name: FieldName | Known(format, name) && GetField(root, name).Some?
      ensures StandsAccepted(format, name, GetField(root, name).value) <==>
        FieldValue(format, root, name).Some? && Accepted(format, name, FieldValue(format, root, name).value)
    {
      StandsIsValue(format, root, name);
    }
    forall name: FieldName | GetField(root, name).None? ensures FieldValue(format, root, name).None? {
      NoFieldNoValue(format, root, name);
    }
  }

  lemma NoFieldNoValue(format: Format, root: Node, name: FieldName)
    requires GetField(root, name).None?
    ensures FieldValue(format, root, name).None?
  {}

  lemma OverlayExactly(format: Format, root: Node)
    requires WellFormed(format) && root.Table?
    ensures WellTypedDocument(format, root) && AllAccepted(format, root) <==>
      TablesAreTables(format, root) && FieldsStand(format, root)
  {
    hide FieldValue, StandsAccepted, WellTyped, GetField, Get;
    forall name: FieldName | Known(format, name) && GetField(root, name).Some?
      ensures WellTyped(format, name, GetField(root, name).value) <==> FieldValue(format, root, name).Some?
      ensures StandsAccepted(format, name, GetField(root, name).value) <==>
        FieldValue(format, root, name).Some? && Accepted(format, name, FieldValue(format, root, name).value)
    {
      TypedHasValue(format, root, name);
      StandsIsValue(format, root, name);
    }
    forall name: FieldName | Known(format, name) && GetField(root, name).None?
      ensures EffectiveValue(format, root, name)
           == if name in format.fields then Some(format.fields[name].default) else None
      ensures name in format.fields ==> Accepted(format, name, format.fields[name].default)
    {
      AbsentIsDefault(format, root, name);
    }
    TableNamed(format, root);
  }

  lemma TypedHasValue(format: Format, root: Node, name: FieldName)
    requires Known(format, name) && GetField(root, name).Some?
    ensures WellTyped(format, name, GetField(root, name).value) <==> FieldValue(format, root, name).Some?
  {
    hide Normalized, GetField;
  }

  lemma AbsentIsDefault(format: Format, root: Node, name: FieldName)
    requires WellFormed(format) && Known(format, name) && GetField(root, name).None?
    ensures EffectiveValue(format, root, name) == if name in format.fields then Some(format.fields[name].default) else None
    ensures name in format.fields ==> Accepted(format, name, format.fields[name].default)
  {
    hide GetField;
  }

  lemma TableNamed(format: Format, root: Node)
    ensures TablesAreTables(format, root) <==>
      forall table :: table in TableNames(format) && Get(root, table).Some? ==> Get(root, table).value.Table?
  {
    hide Get;
    if TablesAreTables(format, root) {
      forall table | table in TableNames(format) && Get(root, table).Some? ensures Get(root, table).value.Table? {
        var name :| name in format.fields && name.0 == table;
      }
    }
    forall name: FieldName | name in format.fields ensures name.0 in TableNames(format) {}
  }

  /** A key of the root that is no table of the format, or a key of one of its tables
      that is no field. */
  ghost predicate UnknownIn(format: Format, root: Node, path: KeyPath) {
    || (|path| == 1 && path[0] != VERSION && Get(root, path[0]).Some? && !HasTable(format, path[0]))
    || (|path| == 2 && HasTable(format, path[0]) && GetField(root, (path[0], path[1])).Some?
        && !Known(format, (path[0], path[1])))
  }

  ghost predicate NothingUnknown(format: Format, root: Node) {
    forall path :: !UnknownIn(format, root, path)
  }

  lemma KnownExactly(format: Format, root: Node)
    requires WellFormed(format) && root.Table? && VersionOf(root).Some?
    ensures OnlyKnown(format, root) <==> NothingUnknown(format, root)
  {
    hide HasTable;
    if NothingUnknown(format, root) {
      forall key | Get(root, key).Some? ensures key == VERSION || HasTable(format, key) {
        assert !UnknownIn(format, root, [key]);
      }
      forall name: FieldName | GetField(root, name).Some? ensures Known(format, name) {
        assert !UnknownIn(format, root, [name.0]) && !UnknownIn(format, root, [name.0, name.1]);
      }
    }
  }

  /** A version 1 document decodes exactly when it has just the format's tables and keys,
      every field is there, and every field stands for an accepted value; a version 2
      document when its known tables are tables and the known fields it has stand for
      accepted values. Another version is not supported, and anything else is an error. */
  lemma DecodesExactly(format: Format, root: Node)
    requires WellFormed(format) && root.Table?
    ensures Decode(format, Some(root)).Decoded? <==>
      || (HasVersion(root, 1) && NothingUnknown(format, root) && EveryFieldThere(format, root) && FieldsStand(format, root))
      || (HasVersion(root, 2) && TablesAreTables(format, root) && FieldsStand(format, root))
    ensures Decode(format, Some(root)).Decoded? ==> HasVersion(root, Decode(format, Some(root)).version)
    ensures Decode(format, Some(root)).Undecodable? ==>
      (Decode(format, Some(root)).code == UnsupportedVersion <==>
        exists version :: HasVersion(root, version) && version != 1 && version != 2)
  {
    hide OnlyKnown, NothingUnknown, EveryFieldThere, FieldsStand, TablesAreTables, WellFormed, Overlaid, Template, Notes,
      AllTables, Complete, WellTypedDocument, AllAccepted, EffectiveValues, ValuesOf;
    StrictExactly(format, root);
    OverlayExactly(format, root);
    if VersionOf(root) == Some(EDITING_VERSION) {
      Version2Meaning(format, root);
    }
    if VersionOf(root).Some? {
      KnownExactly(format, root);
      assert HasVersion(root, VersionOf(root).value);
    }
  }

  /** Whatever the version: a decoded appearance has only known fields; each field of the
      document has the value it stands for, and a missing one its default, if any. */
  lemma DecodedValues(format: Format, root: Node, name: FieldName)
    requires WellFormed(format) && root.Table? && Decode(format, Some(root)).Decoded?
    ensures var values := Decode(format, Some(root)).values;
      && (name in values ==> Known(format, name))
      && (Known(format, name) && GetField(root, name).Some? ==>
           name in values && StandsFor(format, name, GetField(root, name).value, values[name]))
      && (Known(format, name) && GetField(root, name).None? ==>
           if name in format.fields then name in values && values[name] == format.fields[name].default
           else name !in values)
  {
    hide StandsFor, GetField, WellFormed, Overlaid, Template, Notes, FieldValue, EffectiveValue, WellTyped;
    var decoded := Decode(format, Some(root));
    if decoded.version == EDITING_VERSION {
      Version2Meaning(format, root);
    }
    if Known(format, name) && GetField(root, name).Some? {
      TypedHasValue(format, root, name);
      OwnIsEffective(format, root, name);
      if FieldValue(format, root, name).Some? {
        FieldStandsFor(format, root, name, FieldValue(format, root, name).value);
      }
    }
    if Known(format, name) && GetField(root, name).None? {
      NoFieldNoValue(format, root, name);
      AbsentIsDefault(format, root, name);
    }
  }

  lemma OwnIsEffective(format: Format, root: Node, name: FieldName)
    requires Known(format, name) && GetField(root, name).Some? && WellTyped(format, name, GetField(root, name).value)
    ensures EffectiveValue(format, root, name) == FieldValue(format, root, name)
  {
    hide GetField, WellTyped, FieldValue;
  }

  /** A missing file decodes to version 2 and the defaults, without warnings. */
  lemma MissingIsDefaults(format: Format, name: FieldName)
    ensures var decoded := Decode(format, None);
      && decoded.Decoded? && decoded.version == 2 && decoded.notes == {}
      && (name in decoded.values <==> name in format.fields)
      && (name in format.fields ==> decoded.values[name] == format.fields[name].default)
  {}

  // ---------------------------------------------------------------------------
  // Warnings

  lemma TableIsNamed(format: Format, table: Key)
    ensures HasTable(format, table) <==> table in TableNames(format)
  {}

  lemma KeyWarning(format: Format, table: Key, node: Node, key: Key, note: Note)
    requires WellFormed(format) && HasTable(format, table) && node.Table? && key in node.entries && note.UnknownField?
    ensures note in NotesAt(format, TemplateTable(format, table), node, [table], key) <==>
      !Known(format, (table, key)) && note.path == [table, key]
  {
    hide NotesAt, WellTyped, WellFormed, TemplateTable;
    TableIsNamed(format, table);
    KeyNotes(format, table, node, key);
    assert [table] + [key] == [table, key];
  }

  lemma TableWarnings(format: Format, table: Key, node: Node, note: Note)
    requires WellFormed(format) && HasTable(format, table) && node.Table? && note.UnknownField?
    ensures note in Notes(format, TemplateTable(format, table), node, [table]) <==>
      |note.path| == 2 && note.path[0] == table && note.path[1] in node.entries && !Known(format, (table, note.path[1]))
  {
    hide NotesAt, WellFormed, TemplateTable, Known, HasTable;
    var effective := TemplateTable(format, table);
    forall key | key in node.entries
      ensures note in NotesAt(format, effective, node, [table], key) <==>
        !Known(format, (table, key)) && note.path == [table, key]
    {
      KeyWarning(format, table, node, key, note);
    }
    if |note.path| == 2 && note.path[0] == table && note.path[1] in node.entries
       && !Known(format, (table, note.path[1])) {
      assert note in NotesAt(format, effective, node, [table], note.path[1]);
    }
  }

  /** The warnings about one key of the root. */
  lemma RootWarnings(format: Format, root: Node, key: Key, note: Note)
    requires WellFormed(format) && root.Table? && key in root.entries && note.UnknownField? && NotesByTable(format, root)
    ensures note in NotesAt(format, Template(format), root, [], key) <==>
      UnknownIn(format, root, note.path) && note.path != [] && note.path[0] == key
  {
    hide NotesAt, Notes, Template, TemplateTable, Known, HasTable;
    TableIsNamed(format, key);
    VersionIsNoTable(format);
    assert note == UnknownField([key]) <==> |note.path| == 1 && note.path[0] == key;
    if HasTable(format, key) && root.entries[key].Table? {
      TableWarnings(format, key, root.entries[key], note);
    }
  }

  /** A decoded document carries one warning for each unknown key of its root and of its
      known tables, and no other; in version 1 there is none. */
  lemma WarningsExactly(format: Format, root: Node, note: Note)
    requires WellFormed(format) && root.Table? && Decode(format, Some(root)).Decoded?
    ensures note in Decode(format, Some(root)).notes <==> note.UnknownField? && UnknownIn(format, root, note.path)
  {
    hide WellFormed, Overlaid, Template, NotesAt, ParseV1, NotesByTable, UnknownIn, HasTable;
    DecodedByVersion(format, root);
    if VersionOf(root) == Some(EDITING_VERSION) {
      Version2Meaning(format, root);
      NotesAreByTable(format, root);
      if note.UnknownField? {
        forall key | key in root.entries
          ensures note in NotesAt(format, Template(format), root, [], key) <==>
            UnknownIn(format, root, note.path) && note.path != [] && note.path[0] == key
        {
          RootWarnings(format, root, key, note);
        }
        if UnknownIn(format, root, note.path) {
          UnknownIsInRoot(format, root, note.path);
        }
      }
    }
  }

  lemma UnknownIsInRoot(format: Format, root: Node, path: KeyPath)
    requires UnknownIn(format, root, path)
    ensures path != [] && root.Table? && path[0] in root.entries
  {}

  lemma DecodedByVersion(format: Format, root: Node)
    requires WellFormed(format) && root.Table? && Decode(format, Some(root)).Decoded?
    ensures VersionOf(root) == Some(DOCUMENT_VERSION) || VersionOf(root) == Some(EDITING_VERSION)
    ensures VersionOf(root) == Some(DOCUMENT_VERSION) ==>
      Decode(format, Some(root)).notes == {} && forall path :: !UnknownIn(format, root, path)
    ensures VersionOf(root) == Some(EDITING_VERSION) ==>
      Decode(format, Some(root)).notes == Notes(format, Template(format), root, [])
  {
    hide Overlaid, Template, Notes, Complete, AllTables, ValuesOf;
  }
}
