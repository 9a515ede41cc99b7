/** Documents, edits and schemas (`include/holonight/config/document.h`), and
    schema validation (`src/document.cpp:254-277`). */
module Documents {
  import opened Bytes
  import opened Splice

  type Key = ByteString

  type KeyPath = seq<Key>

  /** A C++ double as far as equality goes; rounding plays no part here. */
  datatype Double = NaN | Infinite(negative: bool) | Number(value: real)

  datatype Value =
    | Boolean(truth: bool)
    | Integer(number: int)
    | Float(double: Double)
    | Text(text: ByteString)
    | Aggregate(toml: ByteString)

  /** C++ equality of optional values: a NaN differs even from itself. */
  predicate Same(a: Option<Value>, b: Option<Value>) {
    a == b && a != Some(Float(NaN))
  }

  predicate SameKind(v: Value, w: Value) {
    match v
    case Boolean(_) => w.Boolean?
    case Integer(_) => w.Integer?
    case Float(_) => w.Float?
    case Text(_) => w.Text?
    case Aggregate(_) => w.Aggregate?
  }

  datatype Entry = Entry(value: Value, source: Span, assignment: Option<Span>)

  datatype Revision = Revision(present: bool, bytes: ByteString)

  const MISSING := Revision(false, [])

  /** `path` is `None` for the empty path. */
  datatype Snapshot = Snapshot(path: Option<Path>, revision: Revision, overrides: map<KeyPath, Entry>) {
    function ValueAt(key: KeyPath): Option<Value> {
      if key in overrides then Some(overrides[key].value) else None
    }
  }

  datatype Severity = Info | Warning | Error

  datatype Code = ValidationError | SyntaxError | TooLarge | IoError | AtomicWriteError | UnsupportedVersion

  datatype Diagnostic = Diagnostic(code: Code, severity: Severity)

  function Failed(code: Code): Diagnostic {
    Diagnostic(code, Error)
  }

  predicate HasErrors(diagnostics: seq<Diagnostic>) {
    exists i :: 0 <= i < |diagnostics| && diagnostics[i].severity == Error
  }

  datatype Edit = Edit(key: KeyPath, baseline: Option<Value>, pending: Option<Value>)

  datatype Conflict = Conflict(key: KeyPath, baseline: Option<Value>, disk: Option<Value>, pending: Option<Value>)

  datatype Status =
    | Success
    | Conflicted
    | Invalid
    | UnsupportedPatch
    | StorageFailure
    | DurabilityFailure
    | RevisionChanged

  datatype SaveResult = SaveResult(
    status: Status,
    snapshot: Option<Snapshot>,
    conflicts: seq<Conflict>,
    diagnostics: seq<Diagnostic>)

  // ---------------------------------------------------------------------------
  // Parsing, with the TOML library as a parameter

  /** The TOML library: a deterministic parser, and the text it prints for a value. */
  datatype Toml = Toml(parse: ByteString -> Option<map<KeyPath, Entry>>, encode: Value -> ByteString)

  const MAXIMUM_DOCUMENT_BYTES: nat := 65536

  datatype ParseResult = Parsed(snapshot: Snapshot) | Rejected(code: Code)

  function ParseDocument(toml: Toml, bytes: ByteString, path: Option<Path>): ParseResult {
    if |bytes| > MAXIMUM_DOCUMENT_BYTES then Rejected(TooLarge)
    else
      match toml.parse(bytes)
      case None => Rejected(SyntaxError)
      case Some(overrides) => Parsed(Snapshot(path, Revision(true, bytes), overrides))
  }

  // ---------------------------------------------------------------------------
  // Schemas

  datatype Field = Field(key: KeyPath, default: Option<Value>, validate: Option<Value -> seq<Diagnostic>>)

  datatype Schema = Schema(fields: seq<Field>, domain: Option<Snapshot -> seq<Diagnostic>>)

  function FieldDiagnostics(snapshot: Snapshot, field: Field): seq<Diagnostic> {
    var own := snapshot.ValueAt(field.key);
    var value := if own.Some? then own else field.default;
    if value.None? then []
    else if
      && field.default.Some?
      && !SameKind(value.value, field.default.value)
      && !(field.default.value.Float? && value.value.Integer?)
    then [Failed(ValidationError)]
    else if field.validate.Some? then field.validate.value(value.value)
    else []
  }

  function FieldsDiagnostics(snapshot: Snapshot, fields: seq<Field>): seq<Diagnostic> {
    if fields == [] then []
    else FieldsDiagnostics(snapshot, fields[..|fields| - 1]) + FieldDiagnostics(snapshot, fields[|fields| - 1])
  }

  function DiagnosticsOf(snapshot: Snapshot, schema: Schema): seq<Diagnostic> {
    FieldsDiagnostics(snapshot, schema.fields)
    + if schema.domain.Some? then schema.domain.value(snapshot) else []
  }

  predicate Valid(snapshot: Snapshot, schema: Schema) {
    !HasErrors(DiagnosticsOf(snapshot, schema))
  }

  /** No diagnostic is an error. */
  predicate NoError(diagnostics: seq<Diagnostic>) {
    forall d :: d in diagnostics ==> d.severity != Error
  }

  lemma NoErrorMeaning(diagnostics: seq<Diagnostic>)
    ensures NoError(diagnostics) <==> !HasErrors(diagnostics)
  {
    if HasErrors(diagnostics) {
      var i :| 0 <= i < |diagnostics| && diagnostics[i].severity == Error;
      assert diagnostics[i] in diagnostics;
    }
  }

  /** The values are of one kind. */
  predicate BothAre(v: Value, w: Value) {
    || (v.Boolean? && w.Boolean?) || (v.Integer? && w.Integer?) || (v.Float? && w.Float?)
    || (v.Text? && w.Text?) || (v.Aggregate? && w.Aggregate?)
  }

  /** A value of the default's kind, or an integer for a float. */
  predicate RightKind(field: Field, value: Value) {
    field.default.Some? ==> BothAre(value, field.default.value) || (value.Integer? && field.default.value.Float?)
  }

  /** The value is of the right kind and the field's validator reports no error. */
  predicate Admits(field: Field, value: Value) {
    RightKind(field, value) && (field.validate.Some? ==> NoError(field.validate.value(value)))
  }

  /** The field's own value is admitted; without one its default is, if it has any. */
  predicate FieldHolds(snapshot: Snapshot, field: Field) {
    if field.key in snapshot.overrides then Admits(field, snapshot.overrides[field.key].value)
    else field.default.Some? ==> Admits(field, field.default.value)
  }

  predicate DocumentHolds(snapshot: Snapshot, schema: Schema) {
    && (forall i :: 0 <= i < |schema.fields| ==> FieldHolds(snapshot, schema.fields[i]))
    && (schema.domain.Some? ==> NoError(schema.domain.value(snapshot)))
  }

  method ValidateDocument(snapshot: Snapshot, schema: Schema) returns (diagnostics: seq<Diagnostic>)
    ensures diagnostics == DiagnosticsOf(snapshot, schema)
    ensures NoError(diagnostics) <==> DocumentHolds(snapshot, schema)
  {
    ValidityIsFieldwise(snapshot, schema);
    NoErrorMeaning(DiagnosticsOf(snapshot, schema));
    diagnostics := [];
    for i := 0 to |schema.fields|
      invariant diagnostics == FieldsDiagnostics(snapshot, schema.fields[..i])
    {
      var field := schema.fields[i];
      assert schema.fields[..i + 1][..i] == schema.fields[..i];
      var value := snapshot.ValueAt(field.key);
      if value.None? {
        value := field.default;
      }
      if value.None? {
        assert FieldDiagnostics(snapshot, field) == [];
        continue;
      }
      if field.default.Some? && !SameKind(value.value, field.default.value) &&
         !(field.default.value.Float? && value.value.Integer?)
      {
        diagnostics := diagnostics + [Failed(ValidationError)];
      } else if field.validate.Some? {
        var errors := field.validate.value(value.value);
        diagnostics := diagnostics + errors;
      }
    }
    assert schema.fields[..|schema.fields|] == schema.fields;
    if schema.domain.Some? {
      var errors := schema.domain.value(snapshot);
      diagnostics := diagnostics + errors;
    }
  }

  lemma {:induction false} FieldErrorsCount(snapshot: Snapshot, fields: seq<Field>)
    ensures HasErrors(FieldsDiagnostics(snapshot, fields)) <==>
      exists i :: 0 <= i < |fields| && HasErrors(FieldDiagnostics(snapshot, fields[i]))
  {
    if fields != [] {
      var last := |fields| - 1;
      FieldErrorsCount(snapshot, fields[..last]);
      ErrorsOfBoth(FieldsDiagnostics(snapshot, fields[..last]), FieldDiagnostics(snapshot, fields[last]));
      if i :| 0 <= i < |fields| && HasErrors(FieldDiagnostics(snapshot, fields[i])) {
        if i < last {
          assert fields[..last][i] == fields[i];
        }
      }
    }
  }

  lemma ErrorsOfBoth(a: seq<Diagnostic>, b: seq<Diagnostic>)
    ensures HasErrors(a + b) <==> HasErrors(a) || HasErrors(b)
  {
    if HasErrors(a) {
      var i :| 0 <= i < |a| && a[i].severity == Error;
      assert (a + b)[i] == a[i];
    }
    if HasErrors(b) {
      var i :| 0 <= i < |b| && b[i].severity == Error;
      assert (a + b)[|a| + i] == b[i];
    }
  }

  /** What a field reports: one error for a value of the wrong kind, else what its
      validator reports, and nothing for no value. */
  lemma FieldReports(snapshot: Snapshot, field: Field)
    ensures var own, found := field.key in snapshot.overrides, FieldDiagnostics(snapshot, field);
      if !own && field.default.None? then found == []
      else
        var value := if own then snapshot.overrides[field.key].value else field.default.value;
        && (!RightKind(field, value) ==> found == [Failed(ValidationError)])
        && (RightKind(field, value) ==> found == if field.validate.Some? then field.validate.value(value) else [])
    ensures HasErrors(FieldDiagnostics(snapshot, field)) <==> !FieldHolds(snapshot, field)
  {
    var found := FieldDiagnostics(snapshot, field);
    NoErrorMeaning(found);
    if found == [Failed(ValidationError)] {
      assert found[0].severity == Error;
    }
  }

  /** A document is valid exactly when every value, its own or a default, is of the
      default's kind, or an integer for a float, and no validator reports an error. */
  lemma ValidityIsFieldwise(snapshot: Snapshot, schema: Schema)
    ensures Valid(snapshot, schema) <==> DocumentHolds(snapshot, schema)
  {
    FieldErrorsCount(snapshot, schema.fields);
    forall i | 0 <= i < |schema.fields|
      ensures HasErrors(FieldDiagnostics(snapshot, schema.fields[i])) <==> !FieldHolds(snapshot, schema.fields[i])
    {
      FieldReports(snapshot, schema.fields[i]);
    }
    ErrorsOfBoth(FieldsDiagnostics(snapshot, schema.fields),
                 if schema.domain.Some? then schema.domain.value(snapshot) else []);
    if schema.domain.Some? {
      NoErrorMeaning(schema.domain.value(snapshot));
    }
  }
}
