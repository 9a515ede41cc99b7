/** What a successful patch writes: each edit's own text stands where its entry was,
    the bytes around it where they were. */
module PatchText {
  import opened Bytes
  import opened Splice
  import opened Documents
  import opened Patch
  import opened PatchProperties
  import Scanner

  // ---------------------------------------------------------------------------
  // One replacement among others

  /** `whole` is `front`, `text` and `back`; what survives of the document before `span`
      is in `front`, and what survives behind it in `back`. */
  ghost predicate Stands(doc: ByteString, rs: seq<Replacement>, span: Span, text: ByteString,
                         front: ByteString, back: ByteString) {
    && Substituted(doc, rs, 0) == front + text + back
    && (forall i: nat :: i < span.begin && i < |doc| && Survives(rs, i) ==> NewIndex(doc, rs, i) < |front|)
    && (forall i: nat :: span.end <= i < |doc| && Survives(rs, i) ==> |front| + |text| <= NewIndex(doc, rs, i))
  }

  lemma BoundaryAtBegin(doc: ByteString, rs: seq<Replacement>, r: Replacement)
    requires WellFormed(|doc|, rs) && r in rs
    ensures Fits(|doc|, r.span) && Boundary(rs, r.span.begin)
  {
    var k :| 0 <= k < |rs| && rs[k] == r;
    assert Fits(|doc|, rs[k].span);
    forall x | x in rs ensures !(x.span.begin < r.span.begin < x.span.end) {
      if x != r {
        MembersApart(|doc|, rs, r, x);
      }
    }
  }

  lemma EarlierStays(doc: ByteString, rs: seq<Replacement>, i: nat, p: nat)
    requires WellFormed(|doc|, rs) && i < p <= |doc| && Survives(rs, i) && Boundary(rs, p)
    ensures NewIndex(doc, rs, i) < |Substituted(doc, rs, 0)| - |Substituted(doc, rs, p)|
  {
    SurvivorIsBoundary(rs, i);
    SuffixFrom(doc, rs, i + 1, p);
    PieceOfOriginal(doc, rs, i);
  }

  lemma LaterStays(doc: ByteString, rs: seq<Replacement>, i: nat, p: nat)
    requires WellFormed(|doc|, rs) && p <= i < |doc| && Survives(rs, i) && Boundary(rs, p)
    ensures |Substituted(doc, rs, 0)| - |Substituted(doc, rs, p)| <= NewIndex(doc, rs, i)
    ensures |Substituted(doc, rs, 0)| - |Onward(doc, rs, p)| <= NewIndex(doc, rs, i)
  {
    SurvivorIsBoundary(rs, i);
    SuffixFrom(doc, rs, p, i);
    SubstitutedStep(doc, rs, p);
    if p < i {
      match StartingAt(rs, p) {
        case Some(x) =>
          BoundaryAtEnd(doc, rs, x);
          SuffixFrom(doc, rs, x.span.end, i);
        case None =>
          BoundaryNext(rs, p);
          SuffixFrom(doc, rs, p + 1, i);
      }
    }
  }

  lemma {:induction false} InsertedAmongOthers(rs: seq<Replacement>, r: Replacement) returns (a: ByteString, b: ByteString)
    requires r in rs && IsInsertion(r)
    ensures InsertText(rs, r.span.begin) == a + r.text + b
  {
    var p := r.span.begin;
    if rs[0] == r {
      a, b := [], InsertText(rs[1..], p);
    } else {
      a, b := InsertedAmongOthers(rs[1..], r);
      if rs[0].span == Span(p, p) {
        assert rs[0].text + (a + r.text + b) == (rs[0].text + a) + r.text + b;
        a := rs[0].text + a;
      }
    }
  }

  lemma FoundAtBegin(doc: ByteString, rs: seq<Replacement>, r: Replacement)
    requires WellFormed(|doc|, rs) && r in rs && r.span.begin < r.span.end
    ensures StartingAt(rs, r.span.begin) == Some(r)
  {
    StartingAtFinds(rs, r);
    var x := StartingAt(rs, r.span.begin).value;
    if x != r {
      MembersApart(|doc|, rs, r, x);
    }
  }

  lemma ReplacementStands(doc: ByteString, rs: seq<Replacement>, r: Replacement)
    returns (front: ByteString, back: ByteString)
    requires WellFormed(|doc|, rs) && r in rs
    ensures Stands(doc, rs, r.span, r.text, front, back)
  {
    hide Substituted, InsertText, StartingAt, Onward, NewIndex, Survives, WellFormed, Boundary;
    BoundaryAtBegin(doc, rs, r);
    assert Boundary(rs, 0) by { BoundaryAtZero(rs); }
    var p, whole := r.span.begin, Substituted(doc, rs, 0);
    SuffixFrom(doc, rs, 0, p);
    var before := whole[..|whole| - |Substituted(doc, rs, p)|];
    assert whole == before + Substituted(doc, rs, p);
    if IsInsertion(r) {
      var a, b := InsertedAmongOthers(rs, r);
      SubstitutedStep(doc, rs, p);
      front, back := before + a, b + Onward(doc, rs, p);
      assert before + ((a + r.text + b) + Onward(doc, rs, p)) == (before + a) + r.text + (b + Onward(doc, rs, p));
    } else {
      BoundaryAtEnd(doc, rs, r);
      FoundAtBegin(doc, rs, r);
      PieceOfReplacement(doc, rs, p);
      front, back := before + InsertText(rs, p), Substituted(doc, rs, r.span.end);
      assert before + ((InsertText(rs, p) + r.text) + back) == (before + InsertText(rs, p)) + r.text + back;
    }
    forall i: nat | i < p && i < |doc| && Survives(rs, i) ensures NewIndex(doc, rs, i) < |front| {
      EarlierStays(doc, rs, i, p);
    }
    forall i: nat | r.span.end <= i < |doc| && Survives(rs, i) ensures |front| + |r.text| <= NewIndex(doc, rs, i) {
      LaterStays(doc, rs, i, r.span.end);
    }
  }

  lemma BoundaryAtZero(rs: seq<Replacement>)
    ensures Boundary(rs, 0)
  {}

  lemma OneSubstituted(doc: ByteString, r: Replacement)
    requires WellFormed(|doc|, [r])
    ensures Fits(|doc|, r.span)
    ensures Substituted(doc, [r], 0) == doc[..r.span.begin] + r.text + doc[r.span.end..]
  {
    assert Fits(|doc|, [r][0].span);
    assert [r][1..] == [];
    assert r.text + InsertText([], r.span.begin) == r.text;
    assert Coalesced([r]) == [r];
    SpliceIsSimultaneousSubstitution(doc, [r], [r]);
  }

  // ---------------------------------------------------------------------------
  // Removing a key

  /** The value text of the entry is rendered from the tokens. */
  predicate ValueTokens(current: Snapshot, key: KeyPath, tokens: seq<Scanner.Token>) {
    key in current.overrides &&
    var span := current.overrides[key].source;
    && Fits(|current.revision.bytes|, span) && Scanner.TokensOk(tokens)
    && current.revision.bytes[span.begin..span.end] == Scanner.Render(tokens)
  }

  /** The replacements of a batch that plans. */
  function PlannedFor(toml: Toml, current: Snapshot, batch: seq<Edit>): seq<Replacement> {
    if PlanAll(toml, current, batch).Some? then AllReplacements(toml, current, PlanAll(toml, current, batch).value) else []
  }

  lemma RemovalIsPlanned(toml: Toml, current: Snapshot, batch: seq<Edit>, k: nat, tokens: seq<Scanner.Token>)
    requires PlanAll(toml, current, batch).Some? && PlanAll(toml, current, batch).value.conflicts == []
    requires k < |batch| && batch[k].pending.None? && ValueTokens(current, batch[k].key, tokens)
    ensures batch[k].key in current.overrides
    ensures var entry := current.overrides[batch[k].key];
      && entry.assignment.Some?
      && Replacement(entry.assignment.value, Scanner.CommentsOf(tokens)) in PlannedFor(toml, current, batch)
      && Replacement(entry.assignment.value, Scanner.CommentsOf(tokens))
         == ReplacementOf(toml, current, batch[k])
  {
    hide PlanAll, BadKey, Collect, Scanner.RetainedOf, Scanner.Render, Scanner.CommentsOf, Scanner.TokensOk;
    NoConflictMeansSeen(toml, current, batch);
    PlanVerdict(toml, current, batch);
    Scanner.RetainedAreTheComments(tokens);
    assert !Unsafe(current, batch[k]);
    var r := ReplacementOf(toml, current, batch[k]);
    assert ReplacementFrom(toml, current)(batch[k]) == Some(r);
    CollectMembers(ReplacementFrom(toml, current), batch, r);
  }

  /** Removing a key keeps exactly the comments of its value: they stand, in order and
      nothing else with them, where the assignment was, whatever else the batch does. */
  lemma RemovalKeepsComments(toml: Toml, current: Snapshot, edits: seq<Edit>, schema: Schema, k: nat,
                             tokens: seq<Scanner.Token>) returns (front: ByteString, back: ByteString)
    requires PatchOf(toml, current, edits, schema).status == Success
    requires k < |edits| && edits[k].pending.None? && ValueTokens(current, edits[k].key, tokens)
    ensures Normalize(toml, edits).Some? && current.overrides[edits[k].key].assignment.Some?
    ensures var doc, rs := current.revision.bytes, PlannedFor(toml, current, Normalize(toml, edits).value);
      && WellFormed(|doc|, rs)
      && PatchOf(toml, current, edits, schema).snapshot.value.revision.bytes == front + Scanner.CommentsOf(tokens) + back
      && Stands(doc, rs, current.overrides[edits[k].key].assignment.value, Scanner.CommentsOf(tokens), front, back)
  {
    hide PatchOf, Apply, PlanAll, AllReplacements, Stands, ValueTokens, WellFormed, Scanner.CommentsOf, ReplacementOf;
    SuccessParts(toml, current, edits, schema);
    var batch := Normalize(toml, edits).value;
    NormalizedRemoval(toml, edits, k);
    RemovalIsPlanned(toml, current, batch, k, tokens);
    var rs := PlannedFor(toml, current, batch);
    AppliedParts(toml, current, rs, batch);
    front, back := ReplacementStands(current.revision.bytes, rs,
      Replacement(current.overrides[edits[k].key].assignment.value, Scanner.CommentsOf(tokens)));
    StandsWhole(current.revision.bytes, rs, current.overrides[edits[k].key].assignment.value, Scanner.CommentsOf(tokens),
                front, back);
  }

  lemma NormalizedRemoval(toml: Toml, edits: seq<Edit>, k: nat)
    requires Normalize(toml, edits).Some? && k < |edits| && edits[k].pending.None?
    ensures Normalize(toml, edits).value[k] == edits[k]
  {
    assert NormalizeOne(toml, edits[k]) == Some(Normalize(toml, edits).value[k]);
  }

  lemma StandsWhole(doc: ByteString, rs: seq<Replacement>, span: Span, text: ByteString, front: ByteString,
                    back: ByteString)
    requires Stands(doc, rs, span, text, front, back)
    ensures Substituted(doc, rs, 0) == front + text + back
  {}

  // ---------------------------------------------------------------------------
  // Literals

  /** The library reads the printed value back as `literal`, and nothing else with it. */
  predicate LiteralIs(toml: Toml, value: Value, literal: Value) {
    var parsed := ParseDocument(toml, VALUE_PREFIX + toml.encode(value), None);
    && parsed.Parsed? && parsed.snapshot.overrides.Keys == {VALUE_KEY}
    && parsed.snapshot.overrides[VALUE_KEY].value == literal
  }

  /** The same edit with its value as the library reads it. */
  predicate Literally(toml: Toml, edit: Edit, literal: Edit) {
    && literal.key == edit.key && literal.baseline == edit.baseline
    && (edit.pending.Some? <==> literal.pending.Some?)
    && (edit.pending.Some? ==> LiteralIs(toml, edit.pending.value, literal.pending.value))
  }

  lemma OneLiteral(toml: Toml, edit: Edit, literal: Edit)
    ensures NormalizeOne(toml, edit) == Some(literal) <==> Literally(toml, edit, literal)
  {
    if edit.pending.Some? {
      var parsed := ParseDocument(toml, VALUE_PREFIX + toml.encode(edit.pending.value), None);
      if parsed.Parsed? {
        var overrides := parsed.snapshot.overrides;
        if |overrides| == 1 && VALUE_KEY in overrides {
          OnlyOne(overrides, VALUE_KEY);
        }
        assert overrides.Keys == {VALUE_KEY} ==> |overrides.Keys| == 1;
      }
    }
  }

  /** Normalizing succeeds exactly when the library reads every value back, and then
      gives what it reads. */
  lemma NormalizeMeaning(toml: Toml, edits: seq<Edit>, batch: seq<Edit>)
    ensures Normalize(toml, edits) == Some(batch) <==>
      |batch| == |edits| && forall i :: 0 <= i < |edits| ==> Literally(toml, edits[i], batch[i])
  {
    hide Normalize, NormalizeOne, Literally;
    forall i | 0 <= i < |edits| && i < |batch|
      ensures NormalizeOne(toml, edits[i]) == Some(batch[i]) <==> Literally(toml, edits[i], batch[i])
    {
      OneLiteral(toml, edits[i], batch[i]);
    }
    NormalizeByOne(toml, edits, batch);
  }

  lemma {:induction false} NormalizeByOne(toml: Toml, edits: seq<Edit>, batch: seq<Edit>)
    ensures Normalize(toml, edits) == Some(batch) <==>
      |batch| == |edits| && forall i :: 0 <= i < |edits| ==> NormalizeOne(toml, edits[i]) == Some(batch[i])
  {
    hide NormalizeOne;
    var all := Normalize(toml, edits);
    if |batch| == |edits| && forall i :: 0 <= i < |edits| ==> NormalizeOne(toml, edits[i]) == Some(batch[i]) {
      if all.Some? {
        forall i | 0 <= i < |edits| ensures all.value[i] == batch[i] {}
        assert all.value == batch;
      }
    }
  }

  // ---------------------------------------------------------------------------
  // One edit

  lemma OneNormalized(toml: Toml, edit: Edit, literal: Edit)
    requires Literally(toml, edit, literal)
    ensures Normalize(toml, [edit]) == Some([literal])
  {
    hide Literally, Normalize;
    NormalizeMeaning(toml, [edit], [literal]);
  }

  lemma OnePlanned(toml: Toml, current: Snapshot, edit: Edit)
    requires edit.key != []
    ensures PlanAll(toml, current, [edit]) == PlanOne(toml, current, edit, EMPTY_PLAN)
  {
    hide PlanOne;
    assert [edit][..0] == [];
  }

  lemma OneApplied(toml: Toml, current: Snapshot, edit: Edit, literal: Edit, schema: Schema)
    requires PatchOf(toml, current, [edit], schema).status == Success && Literally(toml, edit, literal)
    ensures edit.key != [] && PlanAll(toml, current, [literal]).Some?
    ensures PlanAll(toml, current, [literal]) == PlanOne(toml, current, literal, EMPTY_PLAN)
    ensures PlanAll(toml, current, [literal]).value.conflicts == []
    ensures !BadBatch(current, [literal])
    ensures var rs := PlannedFor(toml, current, [literal]);
      && WellFormed(|current.revision.bytes|, rs)
      && PatchOf(toml, current, [edit], schema).snapshot.Some?
      && PatchOf(toml, current, [edit], schema).snapshot.value.revision.bytes == Substituted(current.revision.bytes, rs, 0)
  {
    hide PatchOf, Apply, PlanAll, PlanOne, Literally, WellFormed, AllReplacements, BadBatch;
    SuccessParts(toml, current, [edit], schema);
    OneNormalized(toml, edit, literal);
    NoConflictMeansSeen(toml, current, [literal]);
    AppliedParts(toml, current, PlannedFor(toml, current, [literal]), [literal]);
    KeyGiven(toml, current, edit, literal);
    OnePlanned(toml, current, literal);
  }

  lemma KeyGiven(toml: Toml, current: Snapshot, edit: Edit, literal: Edit)
    requires Literally(toml, edit, literal) && !BadBatch(current, [literal])
    ensures edit.key != [] && literal.key != []
  {
    hide LiteralIs;
    assert [literal][0].key == literal.key;
  }

  /** A batch with one removal cuts out the assignment and leaves its comments there. */
  lemma OneRemoval(toml: Toml, current: Snapshot, edit: Edit, schema: Schema, tokens: seq<Scanner.Token>)
    requires PatchOf(toml, current, [edit], schema).status == Success
    requires edit.pending.None? && ValueTokens(current, edit.key, tokens)
    ensures current.overrides[edit.key].assignment.Some?
    ensures var doc, cut := current.revision.bytes, current.overrides[edit.key].assignment.value;
      && Fits(|doc|, cut) && PatchOf(toml, current, [edit], schema).snapshot.Some?
      && PatchOf(toml, current, [edit], schema).snapshot.value.revision.bytes
         == doc[..cut.begin] + Scanner.CommentsOf(tokens) + doc[cut.end..]
  {
    hide PatchOf, PlanAll, WellFormed, Scanner.CommentsOf, Scanner.RetainedOf, Scanner.Render, Scanner.TokensOk, Fits;
    OneApplied(toml, current, edit, edit, schema);
    RemovalIsPlanned(toml, current, [edit], 0, tokens);
    assert current.ValueAt(edit.key).Some?;
    var r := Replacement(current.overrides[edit.key].assignment.value, Scanner.CommentsOf(tokens));
    assert PlannedFor(toml, current, [edit]) == [r];
    OneSubstituted(current.revision.bytes, r);
  }

  /** A batch that sets one existing key replaces the bytes of its value by the printed
      literal. */
  lemma OneSetting(toml: Toml, current: Snapshot, edit: Edit, literal: Edit, schema: Schema)
    requires PatchOf(toml, current, [edit], schema).status == Success && Literally(toml, edit, literal)
    requires edit.pending.Some? && edit.key in current.overrides
    requires current.overrides[edit.key].value != literal.pending.value
    ensures current.overrides[edit.key].assignment.Some?
    ensures edit.baseline == Some(current.overrides[edit.key].value)
    ensures var doc, span := current.revision.bytes, current.overrides[edit.key].source;
      && Fits(|doc|, span) && PatchOf(toml, current, [edit], schema).snapshot.Some?
      && PatchOf(toml, current, [edit], schema).snapshot.value.revision.bytes
         == doc[..span.begin] + toml.encode(literal.pending.value) + doc[span.end..]
  {
    hide PatchOf, PlanAll, WellFormed, LiteralIs, Fits;
    OneApplied(toml, current, edit, literal, schema);
    var r := Replacement(current.overrides[edit.key].source, toml.encode(literal.pending.value));
    assert !Unsafe(current, [literal][0]);
    assert PlannedFor(toml, current, [literal]) == [r];
    OneSubstituted(current.revision.bytes, r);
  }

  lemma FirstHeaderIsUnique(toml: Toml, current: Snapshot, parent: KeyPath, p: Option<nat>, q: Option<nat>)
    requires EndsFirstHeader(toml, current, parent, p) && EndsFirstHeader(toml, current, parent, q)
    ensures p == q
  {
    hide HeaderText;
    if p.Some? && q.Some? {
      var i :| ReceivesAt(toml, current, parent, i, p.value)
            && forall j, e :: ReceivesAt(toml, current, parent, j, e) ==> i <= j;
      var j :| ReceivesAt(toml, current, parent, j, q.value)
            && forall k, e :: ReceivesAt(toml, current, parent, k, e) ==> j <= k;
      LineFrom(current.revision.bytes, i, p.value);
      LineFrom(current.revision.bytes, i, q.value);
    }
  }

  /** The text of `parent`'s table goes to the front, or behind its first header. */
  ghost predicate GoesTo(toml: Toml, current: Snapshot, parent: KeyPath, point: Option<nat>) {
    if parent == [] then point == Some(0) else EndsFirstHeader(toml, current, parent, point)
  }

  lemma PointIsThere(toml: Toml, current: Snapshot, parent: KeyPath, point: Option<nat>)
    requires GoesTo(toml, current, parent, point)
    ensures PointOf(toml, current, parent) == point
  {
    hide EndsFirstHeader;
    if parent != [] {
      PointIsFirstHeader(toml, current, parent, 0);
      FirstHeaderIsUnique(toml, current, parent, point, PointOf(toml, current, parent));
    }
  }

  /** The line that adds a key, ended as the document ends its lines. */
  function AddedLine(toml: Toml, edit: Edit, newline: ByteString): ByteString
    requires edit.key != [] && edit.pending.Some?
  {
    toml.encode(Text(edit.key[|edit.key| - 1])) + [SPACE, EQUALS, SPACE] + toml.encode(edit.pending.value) + newline
  }

  /** What ends an unfinished line before position `i`. */
  function EndingBefore(doc: ByteString, i: nat, newline: ByteString): ByteString
    requires i <= |doc|
  {
    if i != 0 && doc[i - 1] != NEWLINE then newline else []
  }

  lemma AdditionIsPlanned(toml: Toml, current: Snapshot, edit: Edit, point: Option<nat>)
    requires edit.key != [] && edit.pending.Some? && edit.key !in current.overrides
    requires !Conflicting(current, edit)
    requires GoesTo(toml, current, edit.key[..|edit.key| - 1], point)
    ensures point.Some? ==> point.value <= |current.revision.bytes|
    ensures PlanOne(toml, current, edit, EMPTY_PLAN).Some?
    ensures var doc, newline, parent := current.revision.bytes, LineEnding(current.revision.bytes), edit.key[..|edit.key| - 1];
      AllReplacements(toml, current, PlanOne(toml, current, edit, EMPTY_PLAN).value)
      == [if point.Some? then
            Replacement(Span(point.value, point.value), EndingBefore(doc, point.value, newline) + AddedLine(toml, edit, newline))
          else
            Replacement(Span(|doc|, |doc|), EndingBefore(doc, |doc|, newline) + [OPEN_BRACKET] + KeyText(toml, parent)
                                            + [CLOSE_BRACKET] + newline + AddedLine(toml, edit, newline))]
  {
    hide GoesTo, PointOf;
    var doc, parent := current.revision.bytes, edit.key[..|edit.key| - 1];
    PointIsThere(toml, current, parent, point);
    assert PointOf(toml, current, parent).Some? ==> PointOf(toml, current, parent).value <= |doc| by {
      PointInside(toml, current, parent);
    }
    var key := edit.key[|edit.key| - 1];
    OneKeyText(toml, key);
    assert InsertedLine(toml, doc, key, edit.pending.value) == AddedLine(toml, edit, LineEnding(doc));
    assert PlanOne(toml, current, edit, EMPTY_PLAN).value.insertions == [(parent, AddedLine(toml, edit, LineEnding(doc)))];
    OneInsertion(toml, current, parent, AddedLine(toml, edit, LineEnding(doc)));
  }

  lemma OneKeyText(toml: Toml, key: Key)
    ensures KeyText(toml, [key]) == toml.encode(Text(key))
  {
    assert [key][..0] == [];
  }

  lemma PointInside(toml: Toml, current: Snapshot, parent: KeyPath)
    ensures PointOf(toml, current, parent).Some? ==> PointOf(toml, current, parent).value <= |current.revision.bytes|
  {}

  lemma OneInsertion(toml: Toml, current: Snapshot, parent: KeyPath, text: ByteString)
    ensures InsertionsOf(toml, current, [(parent, text)]) == [InsertionOf(toml, current, parent, text)]
  {
    hide InsertionOf;
    var one := [(parent, text)];
    assert one[..0] == [];
    assert InsertionsOf(toml, current, []) == [];
  }

  /** A batch that adds one key writes one line, behind the first header of its table,
      at the front for the root, or at the end behind a new header; it changes no other
      byte, and uses CRLF exactly if the document does somewhere. */
  lemma OneAddition(toml: Toml, current: Snapshot, edit: Edit, literal: Edit, schema: Schema, point: Option<nat>)
    returns (newline: ByteString)
    requires PatchOf(toml, current, [edit], schema).status == Success && Literally(toml, edit, literal)
    requires edit.key != [] && edit.pending.Some? && edit.key !in current.overrides
    requires GoesTo(toml, current, edit.key[..|edit.key| - 1], point)
    ensures edit.baseline == None && (point.Some? ==> point.value <= |current.revision.bytes|)
    ensures var doc := current.revision.bytes;
      newline == if exists i :: 0 <= i < |doc| - 1 && doc[i] == RETURN && doc[i + 1] == NEWLINE then [RETURN, NEWLINE]
                 else [NEWLINE]
    ensures var doc, parent := current.revision.bytes, edit.key[..|edit.key| - 1];
      && PatchOf(toml, current, [edit], schema).snapshot.Some?
      && PatchOf(toml, current, [edit], schema).snapshot.value.revision.bytes
         == if point.Some? then
              doc[..point.value] + (EndingBefore(doc, point.value, newline) + AddedLine(toml, literal, newline))
              + doc[point.value..]
            else
              doc + (EndingBefore(doc, |doc|, newline) + [OPEN_BRACKET] + KeyText(toml, parent) + [CLOSE_BRACKET]
                     + newline + AddedLine(toml, literal, newline))
  {
    newline := LineEnding(current.revision.bytes);
    hide PatchOf, PlanAll, PlanOne, WellFormed, LiteralIs, Fits, GoesTo, LineEnding, EndingBefore, AddedLine, KeyText,
      AllReplacements;
    OneApplied(toml, current, edit, literal, schema);
    NotConflicting(toml, current, literal);
    AdditionIsPlanned(toml, current, literal, point);
    var rs := PlannedFor(toml, current, [literal]);
    OneSubstituted(current.revision.bytes, rs[0]);
    assert rs == [rs[0]];
    AtTheEnd(current.revision.bytes, rs[0].text);
    NewlineUsed(current.revision.bytes);
  }

  lemma NewlineUsed(doc: ByteString)
    ensures LineEnding(doc) == if exists i :: 0 <= i < |doc| - 1 && doc[i] == RETURN && doc[i + 1] == NEWLINE
                               then [RETURN, NEWLINE] else [NEWLINE]
  {}

  lemma AtTheEnd(doc: ByteString, text: ByteString)
    ensures doc[..|doc|] + text + doc[|doc|..] == doc + text
  {}

  lemma NotConflicting(toml: Toml, current: Snapshot, edit: Edit)
    requires PlanAll(toml, current, [edit]).Some? && PlanAll(toml, current, [edit]).value.conflicts == []
    ensures !Conflicting(current, edit)
  {
    hide PlanAll;
    NoConflictMeansSeen(toml, current, [edit]);
    assert [edit][0] == edit;
  }
}
