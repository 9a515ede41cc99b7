/** The preserving three-way patch of `src/document.cpp`: plan byte-span
    replacements and insertions from baseline, disk and pending values, splice
    them, and reparse and check the candidate.

    The planning state the code passes by reference is the class `PatchPlan`;
    its methods are tied to the functions below, and the lemmas say what those
    mean. */
module Patch {
  import opened Bytes
  import opened Splice
  import opened Documents
  import Scanner

  // ---------------------------------------------------------------------------
  // Text pieces

  /** The text `value = `, the probe for one value literal. */
  const VALUE_PREFIX: ByteString := [118, 97, 108, 117, 101, 32, 61, 32]

  const VALUE_KEY: KeyPath := [[118, 97, 108, 117, 101]]

  /** A newline, the key `__hn_probe` in quotes, ` = 0` and a newline. */
  const PROBE_SUFFIX: ByteString :=
    [10, 34, 95, 95, 104, 110, 95, 112, 114, 111, 98, 101, 34, 32, 61, 32, 48, 10]

  const ASSIGN: ByteString := [SPACE, EQUALS, SPACE]

  predicate HasCrlf(bytes: ByteString) {
    exists i :: 0 <= i < |bytes| - 1 && bytes[i] == RETURN && bytes[i + 1] == NEWLINE
  }

  /** The line ending a document already uses. */
  function LineEnding(bytes: ByteString): ByteString {
    if HasCrlf(bytes) then [RETURN, NEWLINE] else [NEWLINE]
  }

  function KeyText(toml: Toml, path: KeyPath): ByteString {
    if path == [] then []
    else
      var front := KeyText(toml, path[..|path| - 1]);
      (if front != [] then front + [DOT] else front) + toml.encode(Text(path[|path| - 1]))
  }

  // ---------------------------------------------------------------------------
  // Insertions, keyed by parent table in `std::map` order

  type Insertions = seq<(KeyPath, ByteString)>

  predicate BytesLess(a: ByteString, b: ByteString) {
    b != [] && (a == [] || a[0] < b[0] || (a[0] == b[0] && BytesLess(a[1..], b[1..])))
  }

  predicate PathLess(a: KeyPath, b: KeyPath) {
    b != [] && (a == [] || BytesLess(a[0], b[0]) || (a[0] == b[0] && PathLess(a[1..], b[1..])))
  }

  /** `insertions[parent] += text`. */
  function Appended(insertions: Insertions, parent: KeyPath, text: ByteString): Insertions {
    if insertions == [] then [(parent, text)]
    else if insertions[0].0 == parent then [(parent, insertions[0].1 + text)] + insertions[1..]
    else if PathLess(parent, insertions[0].0) then [(parent, text)] + insertions
    else [insertions[0]] + Appended(insertions[1..], parent, text)
  }

  // ---------------------------------------------------------------------------
  // Planning

  datatype Plan = Plan(replacements: seq<Replacement>, insertions: Insertions, conflicts: seq<Conflict>)

  const EMPTY_PLAN := Plan([], [], [])

  /** The edited value is not on disk yet. */
  predicate Changes(current: Snapshot, edit: Edit) {
    !Same(current.ValueAt(edit.key), edit.pending)
  }

  /** Disk agrees with neither side of the edit. */
  predicate Conflicting(current: Snapshot, edit: Edit) {
    Changes(current, edit) && !Same(current.ValueAt(edit.key), edit.baseline)
  }

  function ConflictOf(current: Snapshot, edit: Edit): Conflict {
    Conflict(edit.key, edit.baseline, current.ValueAt(edit.key), edit.pending)
  }

  /** The edit must change an entry that has no assignment span of its own. */
  predicate Unsafe(current: Snapshot, edit: Edit) {
    && Changes(current, edit) && !Conflicting(current, edit)
    && edit.key in current.overrides && current.overrides[edit.key].assignment.None?
  }

  function InsertedLine(toml: Toml, bytes: ByteString, key: Key, value: Value): ByteString {
    KeyText(toml, [key]) + ASSIGN + toml.encode(value) + LineEnding(bytes)
  }

  /** The value text of an entry, or nothing when its span is outside the bytes. */
  function SourceText(bytes: ByteString, span: Span): ByteString {
    if span.begin <= span.end <= |bytes| then bytes[span.begin..span.end] else []
  }

  function ReplacementOf(toml: Toml, current: Snapshot, edit: Edit): Replacement
    requires edit.key in current.overrides && current.overrides[edit.key].assignment.Some?
  {
    var entry := current.overrides[edit.key];
    if edit.pending.Some? then Replacement(entry.source, toml.encode(edit.pending.value))
    else Replacement(entry.assignment.value, Scanner.RetainedOf(SourceText(current.revision.bytes, entry.source)))
  }

  /** Planning one edit; `None` when the patch is unsupported. */
  function PlanOne(toml: Toml, current: Snapshot, edit: Edit, plan: Plan): Option<Plan>
    requires edit.key != []
  {
    if !Changes(current, edit) then Some(plan)
    else if Conflicting(current, edit) then
      Some(plan.(conflicts := plan.conflicts + [ConflictOf(current, edit)]))
    else if edit.key !in current.overrides then
      if edit.pending.None? then Some(plan)
      else
        var last := |edit.key| - 1;
        var line := InsertedLine(toml, current.revision.bytes, edit.key[last], edit.pending.value);
        Some(plan.(insertions := Appended(plan.insertions, edit.key[..last], line)))
    else if current.overrides[edit.key].assignment.None? then None
    else Some(plan.(replacements := plan.replacements + [ReplacementOf(toml, current, edit)]))
  }

  predicate KeyUsed(batch: seq<Edit>, key: KeyPath) {
    exists i :: 0 <= i < |batch| && batch[i].key == key
  }

  function PlanAll(toml: Toml, current: Snapshot, batch: seq<Edit>): Option<Plan> {
    if batch == [] then Some(EMPTY_PLAN)
    else
      var front, edit := batch[..|batch| - 1], batch[|batch| - 1];
      match PlanAll(toml, current, front)
      case None => None
      case Some(plan) =>
        if edit.key == [] || KeyUsed(front, edit.key) then None else PlanOne(toml, current, edit, plan)
  }

  // ---------------------------------------------------------------------------
  // Insertion points

  predicate IsBlank(b: Byte) {
    b == SPACE || b == TAB || b == RETURN || b == NEWLINE
  }

  function SkipBlanks(s: ByteString): ByteString {
    if s != [] && IsBlank(s[0]) then SkipBlanks(s[1..]) else s
  }

  /** Whether the line is the header of table `parent`, as the TOML library reads it. */
  predicate HeaderMatches(toml: Toml, statement: ByteString, parent: KeyPath) {
    var rest := SkipBlanks(statement);
    if rest == [] || rest[0] != OPEN_BRACKET || [OPEN_BRACKET, OPEN_BRACKET] <= rest then false
    else
      match ParseDocument(toml, statement + PROBE_SUFFIX, None)
      case Rejected(_) => false
      case Parsed(probe) =>
        && |probe.overrides| == 1
        && exists path :: path in probe.overrides.Keys && path != [] && path[..|path| - 1] == parent
  }

  /** The line starts inside some multi-line value. */
  predicate InsideValue(current: Snapshot, line: nat) {
    exists key :: key in current.overrides.Keys
      && current.overrides[key].source.begin < line < current.overrides[key].source.end
  }

  function PointFrom(toml: Toml, current: Snapshot, parent: KeyPath, line: nat): (r: Option<nat>)
    requires line <= |current.revision.bytes|
    ensures r.Some? ==> line < r.value <= |current.revision.bytes|
    decreases |current.revision.bytes| - line
  {
    var original := current.revision.bytes;
    if line == |original| then None
    else
      var next := NextLine(original, line);
      if !InsideValue(current, line) && HeaderMatches(toml, original[line..next], parent) then Some(next)
      else PointFrom(toml, current, parent, next)
  }

  function PointOf(toml: Toml, current: Snapshot, parent: KeyPath): Option<nat> {
    if parent == [] then Some(0) else PointFrom(toml, current, parent, 0)
  }

  /** The bytes from `i` to `e` are one line, its newline included. */
  predicate SpansLine(bytes: ByteString, i: nat, e: nat) {
    && i < e <= |bytes| && (i == 0 || bytes[i - 1] == NEWLINE) && (e == |bytes| || bytes[e - 1] == NEWLINE)
    && forall k :: i <= k < e - 1 ==> bytes[k] != NEWLINE
  }

  ghost predicate BindsOneKeyOf(bound: map<KeyPath, Entry>, parent: KeyPath) {
    exists path :: path in bound && |path| == |parent| + 1 && path[..|parent|] == parent && bound.Keys == {path}
  }

  /** At `n` behind nothing but blanks is a bracket, and no second one. */
  predicate OneBracketAt(line: ByteString, n: nat) {
    && n < |line| && line[n] == OPEN_BRACKET && (n + 1 < |line| ==> line[n + 1] != OPEN_BRACKET)
    && forall k :: 0 <= k < n ==> line[k] == SPACE || line[k] == TAB || line[k] == RETURN || line[k] == NEWLINE
  }

  /** Behind blanks comes one bracket, and with a probing key behind it the line binds
      just a key of table `parent`. */
  ghost predicate HeaderText(toml: Toml, line: ByteString, parent: KeyPath) {
    && (exists n: nat :: OneBracketAt(line, n))
    && ParseDocument(toml, line + PROBE_SUFFIX, None).Parsed?
    && BindsOneKeyOf(ParseDocument(toml, line + PROBE_SUFFIX, None).snapshot.overrides, parent)
  }

  /** A line outside every value that is the header of `parent`. */
  ghost predicate ReceivesAt(toml: Toml, current: Snapshot, parent: KeyPath, i: nat, e: nat) {
    && SpansLine(current.revision.bytes, i, e)
    && (forall key :: key in current.overrides ==>
         !(current.overrides[key].source.begin < i < current.overrides[key].source.end))
    && HeaderText(toml, current.revision.bytes[i..e], parent)
  }

  /** The point is the end of the first such line, and there is none without one. */
  ghost predicate EndsFirstHeader(toml: Toml, current: Snapshot, parent: KeyPath, point: Option<nat>) {
    if point.Some? then
      exists i :: ReceivesAt(toml, current, parent, i, point.value)
               && forall j, e :: ReceivesAt(toml, current, parent, j, e) ==> i <= j
    else forall i, e :: !ReceivesAt(toml, current, parent, i, e)
  }

  lemma {:induction false} BlanksSkipped(s: ByteString) returns (n: nat)
    ensures n <= |s| && SkipBlanks(s) == s[n..]
    ensures forall k :: 0 <= k < n ==> IsBlank(s[k])
    ensures n < |s| ==> !IsBlank(s[n])
  {
    if s != [] && IsBlank(s[0]) {
      var m := BlanksSkipped(s[1..]);
      n := m + 1;
      assert forall k :: 1 <= k < n ==> s[k] == s[1..][k - 1];
    } else {
      n := 0;
    }
  }

  lemma BracketMeaning(line: ByteString, n: nat)
    requires n <= |line| && SkipBlanks(line) == line[n..] && (forall k :: 0 <= k < n ==> IsBlank(line[k]))
    requires n < |line| ==> !IsBlank(line[n])
    ensures var rest := SkipBlanks(line);
      (exists m: nat :: OneBracketAt(line, m)) <==>
        rest != [] && rest[0] == OPEN_BRACKET && !([OPEN_BRACKET, OPEN_BRACKET] <= rest)
  {
    hide SkipBlanks;
    TwoBrackets(line[n..]);
    assert OneBracketAt(line, n) <==>
      (n < |line| && line[n] == OPEN_BRACKET && !([OPEN_BRACKET, OPEN_BRACKET] <= line[n..])) by {
      hide OneBracketAt;
      BracketAt(line, n);
    }
    if m: nat :| OneBracketAt(line, m) {
      if m < n {
        assert IsBlank(line[m]);
      }
    }
  }

  lemma BracketAt(line: ByteString, n: nat)
    requires n <= |line| && forall k :: 0 <= k < n ==> IsBlank(line[k])
    ensures OneBracketAt(line, n) <==>
      n < |line| && line[n] == OPEN_BRACKET && (|line[n..]| >= 2 ==> line[n..][1] != OPEN_BRACKET)
  {}

  lemma TwoBrackets(s: ByteString)
    ensures [OPEN_BRACKET, OPEN_BRACKET] <= s <==> |s| >= 2 && s[0] == OPEN_BRACKET && s[1] == OPEN_BRACKET
  {
    var two := [OPEN_BRACKET, OPEN_BRACKET];
    if two <= s {
      assert s[0] == two[0] && s[1] == two[1];
    }
    if |s| >= 2 && s[0] == OPEN_BRACKET && s[1] == OPEN_BRACKET {
      assert s[..2] == two;
    }
  }

  lemma ProbeMeaning(toml: Toml, line: ByteString, parent: KeyPath)
    ensures HeaderMatches(toml, line, parent) <==> HeaderText(toml, line, parent)
  {
    hide SkipBlanks;
    var n := BlanksSkipped(line);
    BracketMeaning(line, n);
    var parsed := ParseDocument(toml, line + PROBE_SUFFIX, None);
    if HeaderMatches(toml, line, parent) {
      var path :| path in parsed.snapshot.overrides.Keys && path != [] && path[..|path| - 1] == parent;
      OnlyOne(parsed.snapshot.overrides, path);
    }
    if HeaderText(toml, line, parent) {
      var path :| path in parsed.snapshot.overrides && path[..|path| - 1] == parent
        && parsed.snapshot.overrides.Keys == {path};
      assert |parsed.snapshot.overrides| == |parsed.snapshot.overrides.Keys|;
    }
  }

  lemma OnlyOne<K, V>(m: map<K, V>, key: K)
    requires |m| == 1 && key in m
    ensures m.Keys == {key}
  {
    assert |m.Keys - {key}| == 0;
  }

  lemma LineFrom(bytes: ByteString, i: nat, e: nat)
    requires i < |bytes| && LineStart(bytes, i)
    ensures SpansLine(bytes, i, e) <==> e == NextLine(bytes, i)
  {
    var newline := Find(bytes, NEWLINE, i);
    if SpansLine(bytes, i, e) {
      assert newline == e - 1 || newline == |bytes|;
    }
  }

  lemma {:induction false} PointIsFirstHeader(toml: Toml, current: Snapshot, parent: KeyPath, line: nat)
    requires line <= |current.revision.bytes|
    requires line < |current.revision.bytes| ==> LineStart(current.revision.bytes, line)
    requires forall i, e :: ReceivesAt(toml, current, parent, i, e) ==> line <= i
    ensures EndsFirstHeader(toml, current, parent, PointFrom(toml, current, parent, line))
    decreases |current.revision.bytes| - line
  {
    hide HeaderMatches, HeaderText;
    var bytes := current.revision.bytes;
    if line < |bytes| {
      var next := NextLine(bytes, line);
      LineFrom(bytes, line, next);
      ProbeMeaning(toml, bytes[line..next], parent);
      if ReceivesAt(toml, current, parent, line, next) {
        return;
      }
      forall i, e | ReceivesAt(toml, current, parent, i, e) ensures next <= i {
        LineFrom(bytes, line, e);
      }
      PointIsFirstHeader(toml, current, parent, next);
    }
  }

  method InsertionPoint(toml: Toml, current: Snapshot, parent: KeyPath) returns (point: Option<nat>)
    ensures point == PointOf(toml, current, parent)
    ensures if parent == [] then point == Some(0) else EndsFirstHeader(toml, current, parent, point)
  {
    if parent == [] {
      return Some(0);
    }
    PointIsFirstHeader(toml, current, parent, 0);
    var original := current.revision.bytes;
    var line := 0;
    while line < |original|
      invariant line <= |original|
      invariant PointOf(toml, current, parent) == PointFrom(toml, current, parent, line)
    {
      var next := NextLine(original, line);
      if !InsideValue(current, line) && HeaderMatches(toml, original[line..next], parent) {
        return Some(next);
      }
      line := next;
    }
    return None;
  }

  function InsertionOf(toml: Toml, current: Snapshot, parent: KeyPath, text: ByteString): Replacement {
    var original := current.revision.bytes;
    var newline := LineEnding(original);
    match PointOf(toml, current, parent)
    case Some(point) =>
      Replacement(Span(point, point),
        (if point != 0 && original[point - 1] != NEWLINE then newline else []) + text)
    case None =>
      Replacement(Span(|original|, |original|),
        (if original != [] && original[|original| - 1] != NEWLINE then newline else [])
        + [OPEN_BRACKET] + KeyText(toml, parent) + [CLOSE_BRACKET] + newline + text)
  }

  function InsertionsOf(toml: Toml, current: Snapshot, insertions: Insertions): seq<Replacement> {
    if insertions == [] then []
    else
      InsertionsOf(toml, current, insertions[..|insertions| - 1])
      + [InsertionOf(toml, current, insertions[|insertions| - 1].0, insertions[|insertions| - 1].1)]
  }

  lemma InsertionsOfNext(toml: Toml, current: Snapshot, insertions: Insertions, i: nat)
    requires i < |insertions|
    ensures InsertionsOf(toml, current, insertions[..i + 1])
         == InsertionsOf(toml, current, insertions[..i])
            + [InsertionOf(toml, current, insertions[i].0, insertions[i].1)]
  {
    assert insertions[..i + 1][..i] == insertions[..i];
  }

  // ---------------------------------------------------------------------------
  // The whole patch

  /** Every value is replaced by what its literal parses to. */
  function NormalizeOne(toml: Toml, edit: Edit): Option<Edit> {
    if edit.pending.None? then Some(edit)
    else
      match ParseDocument(toml, VALUE_PREFIX + toml.encode(edit.pending.value), None)
      case Rejected(_) => None
      case Parsed(literal) =>
        if |literal.overrides| != 1 || VALUE_KEY !in literal.overrides then None
        else Some(edit.(pending := literal.ValueAt(VALUE_KEY)))
  }

  function Normalize(toml: Toml, edits: seq<Edit>): (r: Option<seq<Edit>>)
    ensures r.Some? ==> |r.value| == |edits|
    ensures r.Some? ==> forall i :: 0 <= i < |edits| ==> NormalizeOne(toml, edits[i]) == Some(r.value[i])
    ensures r.None? ==> exists i :: 0 <= i < |edits| && NormalizeOne(toml, edits[i]).None?
  {
    if edits == [] then Some([])
    else
      var last := |edits| - 1;
      match (Normalize(toml, edits[..last]), NormalizeOne(toml, edits[last]))
      case (Some(front), Some(edit)) => Some(front + [edit])
      case _ => None
  }

  predicate Realised(snapshot: Snapshot, batch: seq<Edit>) {
    forall i :: 0 <= i < |batch| ==> Same(snapshot.ValueAt(batch[i].key), batch[i].pending)
  }

  datatype Outcome = Applied(snapshot: Snapshot) | Failure(code: Code)

  /** Splicing, reparsing and checking the replacements: their simultaneous
      substitution, provided they are well formed and parse to what was asked. */
  ghost function Apply(toml: Toml, current: Snapshot, replacements: seq<Replacement>, batch: seq<Edit>): Outcome {
    var original := current.revision.bytes;
    if !WellFormed(|original|, replacements) then Failure(ValidationError)
    else
      match ParseDocument(toml, Substituted(original, replacements, 0), current.path)
      case Rejected(code) => Failure(code)
      case Parsed(snapshot) => if Realised(snapshot, batch) then Applied(snapshot) else Failure(ValidationError)
  }

  /** All replacements of a plan, insertions after replacements. */
  function AllReplacements(toml: Toml, current: Snapshot, plan: Plan): seq<Replacement> {
    plan.replacements + InsertionsOf(toml, current, plan.insertions)
  }

  function Refused(status: Status, diagnostics: seq<Diagnostic>): SaveResult {
    SaveResult(status, None, [], diagnostics)
  }

  ghost function PatchOf(toml: Toml, current: Snapshot, edits: seq<Edit>, schema: Schema): SaveResult {
    var notes := DiagnosticsOf(current, schema);
    if HasErrors(notes) then Refused(Invalid, notes)
    else
      match Normalize(toml, edits)
      case None => Refused(UnsupportedPatch, [Failed(ValidationError)])
      case Some(batch) =>
        match PlanAll(toml, current, batch)
        case None => SaveResult(UnsupportedPatch, None, ConflictsBeforeStop(toml, current, batch), notes + [Failed(ValidationError)])
        case Some(plan) =>
          if plan.conflicts != [] then SaveResult(Conflicted, None, plan.conflicts, notes)
          else
            match Apply(toml, current, AllReplacements(toml, current, plan), batch)
            case Failure(code) => Refused(UnsupportedPatch, [Failed(code)])
            case Applied(snapshot) =>
              var candidateNotes := DiagnosticsOf(snapshot, schema);
              if HasErrors(candidateNotes) then Refused(Invalid, candidateNotes)
              else SaveResult(Success, Some(snapshot), [], candidateNotes)
  }

  /** The conflicts collected before planning stopped at an unsupported edit. */
  function ConflictsBeforeStop(toml: Toml, current: Snapshot, batch: seq<Edit>): seq<Conflict> {
    if batch == [] then []
    else
      match PlanAll(toml, current, batch[..|batch| - 1])
      case None => ConflictsBeforeStop(toml, current, batch[..|batch| - 1])
      case Some(plan) => plan.conflicts
  }

  // ---------------------------------------------------------------------------
  // The planning state and its methods

  class PatchPlan {
    var replacements: seq<Replacement>
    var insertions: Insertions
    var conflicts: seq<Conflict>
    var diagnostics: seq<Diagnostic>

    ghost function State(): Plan
      reads this
    {
      Plan(replacements, insertions, conflicts)
    }

    constructor (notes: seq<Diagnostic>)
      ensures State() == EMPTY_PLAN && diagnostics == notes
    {
      replacements, insertions, conflicts, diagnostics := [], [], [], notes;
    }

    method PlanEdit(toml: Toml, current: Snapshot, edit: Edit) returns (ok: bool)
      requires edit.key != []
      modifies this
      ensures ok <==> PlanOne(toml, current, edit, old(State())).Some?
      ensures ok ==> Some(State()) == PlanOne(toml, current, edit, old(State())) && diagnostics == old(diagnostics)
      ensures !ok ==> State() == old(State()) && diagnostics == old(diagnostics) + [Failed(ValidationError)]
    {
      var disk := current.ValueAt(edit.key);
      if Same(disk, edit.pending) {
        return true;
      }
      if !Same(disk, edit.baseline) {
        conflicts := conflicts + [Conflict(edit.key, edit.baseline, disk, edit.pending)];
        return true;
      }
      if edit.key !in current.overrides {
        if edit.pending.Some? {
          var last := |edit.key| - 1;
          var parent := edit.key[..last];
          var newline := LineEnding(current.revision.bytes);
          var line := KeyText(toml, [edit.key[last]]) + ASSIGN + toml.encode(edit.pending.value) + newline;
          insertions := Appended(insertions, parent, line);
        }
        return true;
      }
      var selected := current.overrides[edit.key];
      if selected.assignment.None? {
        diagnostics := diagnostics + [Failed(ValidationError)];
        return false;
      }
      var originalValue := SourceText(current.revision.bytes, selected.source);
      var retained := Scanner.RetainedComments(originalValue);
      replacements := replacements + [Replacement(
        if edit.pending.Some? then selected.source else selected.assignment.value,
        if edit.pending.Some? then toml.encode(edit.pending.value) else retained)];
      return true;
    }

    method PlanEdits(toml: Toml, current: Snapshot, batch: seq<Edit>) returns (ok: bool)
      requires State() == EMPTY_PLAN
      modifies this
      ensures ok <==> PlanAll(toml, current, batch).Some?
      ensures ok ==> Some(State()) == PlanAll(toml, current, batch) && diagnostics == old(diagnostics)
      ensures !ok ==> conflicts == ConflictsBeforeStop(toml, current, batch)
      ensures !ok ==> diagnostics == old(diagnostics) + [Failed(ValidationError)]
    {
      var keys: seq<KeyPath> := [];
      for i := 0 to |batch|
        invariant |keys| == i && forall j :: 0 <= j < i ==> keys[j] == batch[j].key
        invariant PlanAll(toml, current, batch[..i]) == Some(State())
        invariant diagnostics == old(diagnostics)
      {
        var edit := batch[i];
        ghost var front := batch[..i + 1];
        assert front[..i] == batch[..i] && front[i] == edit;
        assert edit.key in keys <==> KeyUsed(batch[..i], edit.key) by {
          assert forall j :: 0 <= j < i ==> batch[..i][j].key == keys[j];
        }
        if edit.key == [] || edit.key in keys {
          diagnostics := diagnostics + [Failed(ValidationError)];
          StoppedPlan(toml, current, batch, i);
          return false;
        }
        keys := keys + [edit.key];
        var planned := PlanEdit(toml, current, edit);
        if !planned {
          StoppedPlan(toml, current, batch, i);
          return false;
        }
      }
      assert batch[..|batch|] == batch;
      return true;
    }

    method PlanInsertions(toml: Toml, current: Snapshot)
      modifies this
      ensures replacements == AllReplacements(toml, current, old(State()))
      ensures conflicts == old(conflicts) && diagnostics == old(diagnostics)
    {
      var original := current.revision.bytes;
      var newline := LineEnding(original);
      ghost var planned := replacements;
      for i := 0 to |insertions|
        invariant insertions == old(insertions) && conflicts == old(conflicts) && diagnostics == old(diagnostics)
        invariant replacements == planned + InsertionsOf(toml, current, insertions[..i])
      {
        var (parent, text) := insertions[i];
        InsertionsOfNext(toml, current, insertions, i);
        Associative(planned, InsertionsOf(toml, current, insertions[..i]), [InsertionOf(toml, current, parent, text)]);
        var point := InsertionPoint(toml, current, parent);
        if point.Some? {
          if point.value != 0 && original[point.value - 1] != NEWLINE {
            text := newline + text;
          } else {
            assert text == [] + text;
          }
          replacements := replacements + [Replacement(Span(point.value, point.value), text)];
        } else {
          var separator := if original != [] && original[|original| - 1] != NEWLINE then newline else [];
          var addition := separator + [OPEN_BRACKET] + KeyText(toml, parent) + [CLOSE_BRACKET] + newline + text;
          replacements := replacements + [Replacement(Span(|original|, |original|), addition)];
        }
      }
      assert insertions[..|insertions|] == insertions;
    }

    /** Merges insertions at one point, erasing in place. */
    method CoalesceInsertions()
      modifies this`replacements
      ensures replacements == Coalesced(old(replacements))
    {
      var i := 0;
      while i < |replacements|
        invariant i <= |replacements|
        invariant Finished(replacements, i) == Coalesced(old(replacements))
        decreases |replacements| - i
      {
        FinishedStep(replacements, i);
        if replacements[i].span.begin != replacements[i].span.end {
          i := i + 1;
          continue;
        }
        AbsorbInto(i);
        i := i + 1;
      }
    }

    /** The inner loop: moves the text of later insertions at the point of
        insertion `i` into it and erases them. */
    method AbsorbInto(i: nat)
      requires i < |replacements| && IsInsertion(replacements[i])
      modifies this`replacements
      ensures i < |replacements| <= |old(replacements)|
      ensures Finished(replacements, i + 1) == Absorbed(old(replacements), i)
    {
      ghost var front, head, tail := replacements[..i], replacements[i], replacements[i + 1..];
      ghost var kept: seq<Replacement>, rest := [], tail;
      var j := i + 1;
      while j < |replacements|
        invariant Layout(replacements, i, j, front, kept, rest)
        invariant |kept| + |rest| <= |tail|
        invariant Merging(head, tail, replacements[i], kept, rest)
        decreases |rest|
      {
        MergeStep(head, tail, replacements[i], kept, rest);
        LayoutStep(replacements, i, j, front, kept, rest);
        if replacements[j].span == replacements[i].span {
          var grown := replacements[i].(text := replacements[i].text + replacements[j].text);
          LayoutErase(replacements, i, j, front, kept, rest, grown);
          replacements := replacements[i := grown];
          replacements := replacements[..j] + replacements[j + 1..];
        } else {
          kept := kept + [replacements[j]];
          j := j + 1;
        }
        rest := rest[1..];
      }
      MergeDone(front, head, tail, replacements[i], kept, replacements);
    }

    /** Stands for the library sort: some descending order, ties as they fall. */
    method SortDescending()
      modifies this`replacements
      ensures multiset(replacements) == multiset(old(replacements)) && Descending(replacements)
    {
      var sorted: seq<Replacement> := [];
      for i := 0 to |replacements|
        invariant replacements == old(replacements)
        invariant multiset(sorted) == multiset(replacements[..i]) && Descending(sorted)
      {
        assert replacements[..i + 1] == replacements[..i] + [replacements[i]];
        sorted := Insert(sorted, replacements[i]);
      }
      assert replacements[..|replacements|] == replacements;
      replacements := sorted;
    }

    method ApplyReplacements(toml: Toml, current: Snapshot, batch: seq<Edit>) returns (outcome: Outcome)
      modifies this`replacements
      ensures outcome == Apply(toml, current, old(replacements), batch)
    {
      ghost var planned := replacements;
      CoalesceInsertions();
      SortDescending();
      ghost var original := current.revision.bytes;
      SpliceIsSimultaneousSubstitution(original, planned, replacements);
      var candidate := current.revision.bytes;
      var boundary: nat := |candidate|;
      for i := 0 to |replacements|
        invariant 0 <= boundary <= |candidate|
        invariant SpliceFrom(original, |original|, replacements) == SpliceFrom(candidate, boundary, replacements[i..])
      {
        var replacement := replacements[i];
        assert replacements[i..][0] == replacement && replacements[i..][1..] == replacements[i + 1..];
        if replacement.span.end > boundary || replacement.span.begin > replacement.span.end {
          return Failure(ValidationError);
        }
        candidate := candidate[..replacement.span.begin] + replacement.text + candidate[replacement.span.end..];
        boundary := replacement.span.begin;
      }
      assert replacements[|replacements|..] == [];
      var parsed := ParseDocument(toml, candidate, current.path);
      if parsed.Rejected? {
        return Failure(parsed.code);
      }
      for i := 0 to |batch|
        invariant forall j :: 0 <= j < i ==> Same(parsed.snapshot.ValueAt(batch[j].key), batch[j].pending)
      {
        if !Same(parsed.snapshot.ValueAt(batch[i].key), batch[i].pending) {
          return Failure(ValidationError);
        }
      }
      return Applied(parsed.snapshot);
    }
  }

  // ---------------------------------------------------------------------------
  // Steps of the coalescing loops

  /** The list with everything from `i` on coalesced. */
  function Finished(rs: seq<Replacement>, i: nat): seq<Replacement>
    requires i <= |rs|
  {
    rs[..i] + Coalesced(rs[i..])
  }

  /** The same, once insertion `i` has absorbed the later ones at its point. */
  function Absorbed(rs: seq<Replacement>, i: nat): seq<Replacement>
    requires i < |rs|
  {
    rs[..i] + ([Replacement(rs[i].span, rs[i].text + InsertText(rs[i + 1..], rs[i].span.begin))]
               + Coalesced(Elsewhere(rs[i + 1..], rs[i].span)))
  }

  lemma FinishedStep(rs: seq<Replacement>, i: nat)
    requires i < |rs|
    ensures Finished(rs, i) == if IsInsertion(rs[i]) then Absorbed(rs, i) else Finished(rs, i + 1)
  {
    assert rs[i..] == [rs[i]] + rs[i + 1..];
    assert rs[i..][1..] == rs[i + 1..];
    if !IsInsertion(rs[i]) {
      assert rs[..i + 1] == rs[..i] + [rs[i]];
      Associative(rs[..i], [rs[i]], Coalesced(rs[i + 1..]));
    }
  }

  /** `merged` has absorbed the insertions at its point met so far, `kept` the rest. */
  ghost predicate Merging(head: Replacement, tail: seq<Replacement>, merged: Replacement,
                          kept: seq<Replacement>, rest: seq<Replacement>) {
    && merged.span == head.span
    && kept + Elsewhere(rest, head.span) == Elsewhere(tail, head.span)
    && merged.text + InsertText(rest, head.span.begin) == head.text + InsertText(tail, head.span.begin)
  }

  lemma MergeStep(head: Replacement, tail: seq<Replacement>, merged: Replacement,
                  kept: seq<Replacement>, rest: seq<Replacement>)
    requires rest != [] && IsInsertion(head) && Merging(head, tail, merged, kept, rest)
    ensures rest[0].span == head.span ==>
      Merging(head, tail, merged.(text := merged.text + rest[0].text), kept, rest[1..])
    ensures rest[0].span != head.span ==> Merging(head, tail, merged, kept + [rest[0]], rest[1..])
  {
    if rest[0].span == head.span {
      Associative(merged.text, rest[0].text, InsertText(rest[1..], head.span.begin));
    } else {
      Associative(kept, [rest[0]], Elsewhere(rest[1..], head.span));
    }
  }

  /** The list is `front`, the element at `i`, `kept`, and `rest` from `j` on. */
  ghost predicate Layout(rs: seq<Replacement>, i: nat, j: nat, front: seq<Replacement>,
                         kept: seq<Replacement>, rest: seq<Replacement>) {
    && i < j <= |rs| && |front| == i && |kept| == j - i - 1
    && rs == front + [rs[i]] + kept + rest
  }

  lemma LayoutStep(rs: seq<Replacement>, i: nat, j: nat, front: seq<Replacement>,
                   kept: seq<Replacement>, rest: seq<Replacement>)
    requires Layout(rs, i, j, front, kept, rest) && j < |rs|
    ensures rest != [] && rs[j] == rest[0]
    ensures Layout(rs, i, j + 1, front, kept + [rs[j]], rest[1..])
  {
    assert rest == [rs[j]] + rest[1..];
    assert front + [rs[i]] + kept + rest == front + [rs[i]] + (kept + [rs[j]]) + rest[1..];
  }

  lemma LayoutErase(rs: seq<Replacement>, i: nat, j: nat, front: seq<Replacement>,
                    kept: seq<Replacement>, rest: seq<Replacement>, grown: Replacement)
    requires Layout(rs, i, j, front, kept, rest) && j < |rs| && rest != []
    ensures var erased := rs[i := grown][..j] + rs[i := grown][j + 1..];
      Layout(erased, i, j, front, kept, rest[1..]) && erased[i] == grown
  {
    var erased := rs[i := grown][..j] + rs[i := grown][j + 1..];
    assert rs[i := grown][..j] == front + [grown] + kept;
    assert rs[i := grown][j + 1..] == rest[1..];
  }

  lemma MergeDone(front: seq<Replacement>, head: Replacement, tail: seq<Replacement>, merged: Replacement,
                  kept: seq<Replacement>, all: seq<Replacement>)
    requires all == front + [merged] + kept && Merging(head, tail, merged, kept, [])
    ensures all[..|front| + 1] + Coalesced(all[|front| + 1..])
         == front + ([Replacement(head.span, head.text + InsertText(tail, head.span.begin))]
                     + Coalesced(Elsewhere(tail, head.span)))
  {
    assert all[..|front| + 1] == front + [merged];
    assert all[|front| + 1..] == kept == Elsewhere(tail, head.span);
    assert merged.text == head.text + InsertText(tail, head.span.begin);
    Associative(front, [merged], Coalesced(kept));
  }

  function Insert(sorted: seq<Replacement>, r: Replacement): (result: seq<Replacement>)
    requires Descending(sorted)
    ensures multiset(result) == multiset(sorted + [r])
    ensures Descending(result)
  {
    if sorted == [] then [r]
    else if NotBefore(r.span, sorted[0].span) then
      assert forall x, y :: 0 <= x < y < |[r] + sorted| ==> NotBefore(([r] + sorted)[x].span, ([r] + sorted)[y].span) by {
        InsertFirst(sorted, r);
      }
      [r] + sorted
    else
      var rest := Insert(sorted[1..], r);
      InsertLater(sorted, r, rest);
      [sorted[0]] + rest
  }

  lemma InsertFirst(sorted: seq<Replacement>, r: Replacement)
    requires Descending(sorted) && sorted != [] && NotBefore(r.span, sorted[0].span)
    ensures Descending([r] + sorted)
    ensures multiset([r] + sorted) == multiset(sorted + [r])
  {
    var all := [r] + sorted;
    forall i, j | 0 <= i < j < |all| ensures NotBefore(all[i].span, all[j].span) {
      if i == 0 {
        assert j == 1 || NotBefore(sorted[0].span, sorted[j - 1].span);
      } else {
        assert NotBefore(sorted[i - 1].span, sorted[j - 1].span);
      }
    }
  }

  lemma InsertLater(sorted: seq<Replacement>, r: Replacement, rest: seq<Replacement>)
    requires Descending(sorted) && sorted != [] && !NotBefore(r.span, sorted[0].span)
    requires multiset(rest) == multiset(sorted[1..] + [r]) && Descending(rest)
    ensures Descending([sorted[0]] + rest)
    ensures multiset([sorted[0]] + rest) == multiset(sorted + [r])
  {
    var all := [sorted[0]] + rest;
    assert sorted + [r] == [sorted[0]] + (sorted[1..] + [r]);
    SameMembers(rest, sorted[1..] + [r]);
    forall i, j | 0 <= i < j < |all| ensures NotBefore(all[i].span, all[j].span) {
      if i == 0 {
        assert all[j] == rest[j - 1] && rest[j - 1] in rest;
        if rest[j - 1] != r {
          assert rest[j - 1] in sorted[1..];
          var k :| 0 <= k < |sorted[1..]| && sorted[1..][k] == rest[j - 1];
          assert NotBefore(sorted[0].span, sorted[k + 1].span);
        }
      } else {
        assert NotBefore(rest[i - 1].span, rest[j - 1].span);
      }
    }
  }

  lemma {:induction false} StoppedPlan(toml: Toml, current: Snapshot, batch: seq<Edit>, i: nat)
    requires i < |batch| && PlanAll(toml, current, batch[..i]).Some?
    requires PlanAll(toml, current, batch[..i + 1]).None?
    ensures PlanAll(toml, current, batch).None?
    ensures ConflictsBeforeStop(toml, current, batch) == PlanAll(toml, current, batch[..i]).value.conflicts
    decreases |batch|
  {
    var last := |batch| - 1;
    if i < last {
      assert batch[..last][..i] == batch[..i] && batch[..last][..i + 1] == batch[..i + 1];
      StoppedPlan(toml, current, batch[..last], i);
    } else {
      assert batch[..i + 1] == batch;
    }
  }

  method NormalizeEdits(toml: Toml, edits: seq<Edit>) returns (batch: Option<seq<Edit>>)
    ensures batch == Normalize(toml, edits)
  {
    var result := edits;
    for i := 0 to |edits|
      invariant |result| == |edits| && result[i..] == edits[i..]
      invariant Normalize(toml, edits[..i]) == Some(result[..i])
    {
      assert result[i] == edits[i..][0] == edits[i];
      ghost var before := result;
      if result[i].pending.None? {
        NormalizeNext(toml, edits, i);
        assert result[..i + 1] == before[..i] + [edits[i]];
        assert result[i + 1..] == before[i..][1..] == edits[i..][1..] == edits[i + 1..];
        continue;
      }
      var literal := ParseDocument(toml, VALUE_PREFIX + toml.encode(result[i].pending.value), None);
      if literal.Rejected? || |literal.snapshot.overrides| != 1 || literal.snapshot.ValueAt(VALUE_KEY).None? {
        NormalizeStops(toml, edits, i);
        return None;
      }
      NormalizeNext(toml, edits, i);
      result := result[i := result[i].(pending := literal.snapshot.ValueAt(VALUE_KEY))];
      assert NormalizeOne(toml, edits[i]) == Some(result[i]);
      assert result[..i + 1] == before[..i] + [result[i]];
      assert result[i + 1..] == before[i..][1..] == edits[i..][1..] == edits[i + 1..];
    }
    assert edits[..|edits|] == edits && result[..|edits|] == result;
    return Some(result);
  }

  lemma NormalizeNext(toml: Toml, edits: seq<Edit>, i: nat)
    requires i < |edits| && Normalize(toml, edits[..i]).Some? && NormalizeOne(toml, edits[i]).Some?
    ensures Normalize(toml, edits[..i + 1])
         == Some(Normalize(toml, edits[..i]).value + [NormalizeOne(toml, edits[i]).value])
  {
    assert edits[..i + 1][..i] == edits[..i];
  }

  lemma {:induction false} NormalizeStops(toml: Toml, edits: seq<Edit>, i: nat)
    requires i < |edits| && NormalizeOne(toml, edits[i]).None?
    ensures Normalize(toml, edits).None?
  {
    var r := Normalize(toml, edits);
    if r.Some? {
      assert NormalizeOne(toml, edits[i]) == Some(r.value[i]);
    }
  }

  method PatchDocument(toml: Toml, current: Snapshot, edits: seq<Edit>, schema: Schema) returns (result: SaveResult)
    ensures result == PatchOf(toml, current, edits, schema)
  {
    var notes := ValidateDocument(current, schema);
    if HasErrors(notes) {
      return Refused(Invalid, notes);
    }
    var batch := NormalizeEdits(toml, edits);
    if batch.None? {
      return Refused(UnsupportedPatch, [Failed(ValidationError)]);
    }
    var plan := new PatchPlan(notes);
    var planned := plan.PlanEdits(toml, current, batch.value);
    if !planned {
      return SaveResult(UnsupportedPatch, None, plan.conflicts, plan.diagnostics);
    }
    if plan.conflicts != [] {
      return SaveResult(Conflicted, None, plan.conflicts, plan.diagnostics);
    }
    plan.PlanInsertions(toml, current);
    var outcome := plan.ApplyReplacements(toml, current, batch.value);
    if outcome.Failure? {
      return Refused(UnsupportedPatch, [Failed(outcome.code)]);
    }
    notes := ValidateDocument(outcome.snapshot, schema);
    if HasErrors(notes) {
      return Refused(Invalid, notes);
    }
    return SaveResult(Success, Some(outcome.snapshot), [], notes);
  }
}
