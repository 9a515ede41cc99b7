/** What the planning verdict and a successful patch mean. */
module PatchProperties {
  import opened Bytes
  import opened Splice
  import opened Documents
  import opened Patch
  import Scanner

  // ---------------------------------------------------------------------------
  // Collecting per-edit results, and permutations of the batch

  function Collect<S, T>(f: S -> Option<T>, s: seq<S>): seq<T> {
    if s == [] then []
    else
      var last := |s| - 1;
      Collect(f, s[..last]) + match f(s[last]) case None => [] case Some(t) => [t]
  }

  lemma {:induction false} CollectAppend<S, T>(f: S -> Option<T>, a: seq<S>, b: seq<S>)
    ensures Collect(f, a + b) == Collect(f, a) + Collect(f, b)
  {
    if b == [] {
      assert a + b == a;
      assert Collect(f, a) + [] == Collect(f, a);
    } else {
      var last := |b| - 1;
      assert (a + b)[..|a + b| - 1] == a + b[..last] && (a + b)[|a + b| - 1] == b[last];
      CollectAppend(f, a, b[..last]);
      Associative(Collect(f, a), Collect(f, b[..last]), match f(b[last]) case None => [] case Some(t) => [t]);
    }
  }

  lemma {:induction false} CollectMembers<S, T>(f: S -> Option<T>, s: seq<S>, t: T)
    ensures t in Collect(f, s) <==> exists i :: 0 <= i < |s| && f(s[i]) == Some(t)
  {
    if s != [] {
      var last := |s| - 1;
      CollectMembers(f, s[..last], t);
      if i :| 0 <= i < |s| && f(s[i]) == Some(t) {
        if i < last {
          assert s[..last][i] == s[i];
        }
      }
    }
  }

  /** What one element contributes. */
  function Taken<S, T>(f: S -> Option<T>, x: S): multiset<T> {
    match f(x) case None => multiset{} case Some(t) => multiset{t}
  }

  lemma CollectOneMore<S, T>(f: S -> Option<T>, front: seq<S>, x: S)
    ensures multiset(Collect(f, front + [x])) == multiset(Collect(f, front)) + Taken(f, x)
  {
    assert (front + [x])[..|front|] == front;
  }

  lemma CollectInParts<S, T>(f: S -> Option<T>, front: seq<S>, x: S, back: seq<S>)
    ensures multiset(Collect(f, (front + [x]) + back)) == multiset(Collect(f, front + back)) + Taken(f, x)
  {
    CollectAppend(f, front + [x], back);
    CollectAppend(f, front, back);
    CollectOneMore(f, front, x);
  }

  /** The element sought, and what stands before and after it. */
  lemma FindPart<T>(s: seq<T>, x: T) returns (front: seq<T>, back: seq<T>)
    requires x in multiset(s)
    ensures s == (front + [x]) + back
    ensures multiset(front + back) == multiset(s) - multiset{x}
  {
    var k :| 0 <= k < |s| && s[k] == x;
    front, back := s[..k], s[k + 1..];
    assert s == (front + [x]) + back;
  }

  lemma {:induction false} CollectPermutes<S, T>(f: S -> Option<T>, a: seq<S>, b: seq<S>)
    requires multiset(a) == multiset(b)
    ensures multiset(Collect(f, a)) == multiset(Collect(f, b))
    decreases |a|
  {
    if a == [] {
      assert |multiset(b)| == 0;
      assert b == [];
    } else {
      hide *;
      var x := a[0];
      assert x in multiset(a);
      var front, back := FindPart(a, x);
      var front', back' := FindPart(b, x);
      CollectInParts(f, front, x, back);
      CollectInParts(f, front', x, back');
      CollectPermutes(f, front + back, front' + back');
    }
  }

  lemma CollectNothing<S, T>(f: S -> Option<T>, s: seq<S>)
    ensures Collect(f, s) == [] <==> forall i :: 0 <= i < |s| ==> f(s[i]).None?
  {
    var all := Collect(f, s);
    if all != [] {
      CollectMembers(f, s, all[0]);
    }
    forall i | 0 <= i < |s| && f(s[i]).Some? ensures all != [] {
      CollectMembers(f, s, f(s[i]).value);
    }
  }

  // ---------------------------------------------------------------------------
  // The planning verdict

  predicate BadKey(batch: seq<Edit>) {
    || (exists i :: 0 <= i < |batch| && batch[i].key == [])
    || (exists i, j :: 0 <= i < j < |batch| && batch[i].key == batch[j].key)
  }

  predicate AnyUnsafe(current: Snapshot, batch: seq<Edit>) {
    exists i :: 0 <= i < |batch| && Unsafe(current, batch[i])
  }

  predicate BadBatch(current: Snapshot, batch: seq<Edit>) {
    BadKey(batch) || AnyUnsafe(current, batch)
  }

  lemma AnyUnsafeFront(current: Snapshot, batch: seq<Edit>)
    requires batch != []
    ensures var last := |batch| - 1;
      AnyUnsafe(current, batch) <==> AnyUnsafe(current, batch[..last]) || Unsafe(current, batch[last])
  {
    var front := batch[..|batch| - 1];
    if AnyUnsafe(current, front) {
      var i :| 0 <= i < |front| && Unsafe(current, front[i]);
      assert Unsafe(current, batch[i]);
    }
    if i :| 0 <= i < |batch| && Unsafe(current, batch[i]) {
      assert i < |front| ==> front[i] == batch[i];
    }
  }

  function ConflictFrom(current: Snapshot): Edit -> Option<Conflict> {
    (edit: Edit) => if Conflicting(current, edit) then Some(ConflictOf(current, edit)) else None
  }

  /** The edit replaces bytes of an existing entry. */
  predicate Replaces(current: Snapshot, edit: Edit) {
    && Changes(current, edit) && !Conflicting(current, edit)
    && edit.key in current.overrides && current.overrides[edit.key].assignment.Some?
  }

  function ReplacementFrom(toml: Toml, current: Snapshot): Edit -> Option<Replacement> {
    (edit: Edit) => if Replaces(current, edit) then Some(ReplacementOf(toml, current, edit)) else None
  }

  lemma BadKeyFront(batch: seq<Edit>)
    requires batch != []
    ensures var last := |batch| - 1;
      BadKey(batch) <==> BadKey(batch[..last]) || batch[last].key == [] || KeyUsed(batch[..last], batch[last].key)
  {
    var last := |batch| - 1;
    var front := batch[..last];
    if KeyUsed(front, batch[last].key) {
      var i :| 0 <= i < |front| && front[i].key == batch[last].key;
      assert batch[i].key == batch[last].key;
    }
    if BadKey(front) {
      if i :| 0 <= i < |front| && front[i].key == [] {
        assert batch[i].key == [];
      } else {
        var i, j :| 0 <= i < j < |front| && front[i].key == front[j].key;
        assert batch[i].key == batch[j].key;
      }
    }
    if BadKey(batch) {
      if i :| 0 <= i < |batch| && batch[i].key == [] {
        assert i == last || front[i].key == [];
      } else {
        var i, j :| 0 <= i < j < |batch| && batch[i].key == batch[j].key;
        assert front[i] == batch[i];
        assert j == last || front[j] == batch[j];
      }
    }
  }

  /** Planning refuses exactly the batches with an empty, repeated or unsafe key;
      otherwise it reports exactly the edits whose disk value agrees with neither
      side, and replaces exactly the entries whose edit saw the disk value. */
  lemma {:induction false} PlanVerdict(toml: Toml, current: Snapshot, batch: seq<Edit>)
    ensures PlanAll(toml, current, batch).None? <==> BadBatch(current, batch)
    ensures PlanAll(toml, current, batch).Some? ==>
      PlanAll(toml, current, batch).value.conflicts == Collect(ConflictFrom(current), batch)
    ensures PlanAll(toml, current, batch).Some? ==>
      PlanAll(toml, current, batch).value.replacements == Collect(ReplacementFrom(toml, current), batch)
    decreases |batch|
  {
    if batch != [] {
      var last := |batch| - 1;
      var front := batch[..last];
      PlanVerdict(toml, current, front);
      BadKeyFront(batch);
      AnyUnsafeFront(current, batch);
    }
  }

  lemma BadBatchPermutes(current: Snapshot, a: seq<Edit>, b: seq<Edit>)
    requires multiset(a) == multiset(b) && BadBatch(current, a)
    ensures BadBatch(current, b)
  {
    SameMembers(a, b);
    if i :| 0 <= i < |a| && a[i].key == [] {
      assert a[i] in b;
    } else if i :| 0 <= i < |a| && Unsafe(current, a[i]) {
      assert a[i] in b;
    } else {
      var i, j :| 0 <= i < j < |a| && a[i].key == a[j].key;
      if a[i] == a[j] {
        TwoOccurrences(a, i, j);
        var k, l := FindTwoOccurrences(b, a[i]);
        assert b[k].key == b[l].key;
      } else {
        assert a[i] in b && a[j] in b;
        var k :| 0 <= k < |b| && b[k] == a[i];
        var l :| 0 <= l < |b| && b[l] == a[j];
        if k < l {
          assert b[k].key == b[l].key;
        } else {
          assert b[l].key == b[k].key;
        }
      }
    }
  }

  /** The disk has neither what the edit asks for nor what its caller saw. */
  predicate Disagrees(current: Snapshot, edit: Edit) {
    !Same(current.ValueAt(edit.key), edit.pending) && !Same(current.ValueAt(edit.key), edit.baseline)
  }

  /** The edit changes a value its caller saw, in an entry without an assignment span. */
  predicate NotAssigned(current: Snapshot, edit: Edit) {
    && edit.key in current.overrides && current.overrides[edit.key].assignment.None?
    && !Same(current.ValueAt(edit.key), edit.pending) && Same(current.ValueAt(edit.key), edit.baseline)
  }

  /** An empty key, a key edited twice, or an entry without an assignment span. */
  predicate Refusable(current: Snapshot, batch: seq<Edit>) {
    || (exists i :: 0 <= i < |batch| && (batch[i].key == [] || NotAssigned(current, batch[i])))
    || (exists i, j :: 0 <= i < j < |batch| && batch[i].key == batch[j].key)
  }

  lemma RefusableIsBad(current: Snapshot, batch: seq<Edit>)
    ensures Refusable(current, batch) <==> BadBatch(current, batch)
  {
    assert forall i :: 0 <= i < |batch| ==> (Unsafe(current, batch[i]) <==> NotAssigned(current, batch[i]));
  }

  /** The verdict of the whole patch on literal values. */
  lemma PatchVerdict(toml: Toml, current: Snapshot, edits: seq<Edit>, schema: Schema)
    requires DocumentHolds(current, schema) && Normalize(toml, edits).Some?
    ensures var batch := Normalize(toml, edits).value;
      var result := PatchOf(toml, current, edits, schema);
      && (Refusable(current, batch) ==> result.status == UnsupportedPatch)
      && (!Refusable(current, batch) ==>
           (result.status == Conflicted <==> exists i :: 0 <= i < |batch| && Disagrees(current, batch[i])))
      && (result.status == Conflicted ==>
           forall c :: c in result.conflicts <==>
             exists i :: 0 <= i < |batch| && Disagrees(current, batch[i])
               && c == Conflict(batch[i].key, batch[i].baseline, current.ValueAt(batch[i].key), batch[i].pending))
  {
    hide DiagnosticsOf, DocumentHolds, Normalize, Apply, Collect, BadBatch, Refusable;
    var batch := Normalize(toml, edits).value;
    ValidityIsFieldwise(current, schema);
    RefusableIsBad(current, batch);
    PlanVerdict(toml, current, batch);
    ConflictsExactly(current, batch);
  }

  lemma ConflictsExactly(current: Snapshot, batch: seq<Edit>)
    ensures var conflicts := Collect(ConflictFrom(current), batch);
      && (conflicts == [] <==> !exists i :: 0 <= i < |batch| && Disagrees(current, batch[i]))
      && forall c :: c in conflicts <==>
           exists i :: 0 <= i < |batch| && Disagrees(current, batch[i])
             && c == Conflict(batch[i].key, batch[i].baseline, current.ValueAt(batch[i].key), batch[i].pending)
  {
    var f := ConflictFrom(current);
    CollectNothing(f, batch);
    assert forall i :: 0 <= i < |batch| ==> (f(batch[i]).Some? <==> Disagrees(current, batch[i]));
    forall c
      ensures c in Collect(f, batch) <==>
        exists i :: 0 <= i < |batch| && Disagrees(current, batch[i])
          && c == Conflict(batch[i].key, batch[i].baseline, current.ValueAt(batch[i].key), batch[i].pending)
    {
      CollectMembers(f, batch, c);
      forall i | 0 <= i < |batch|
        ensures f(batch[i]) == Some(c) <==> (Disagrees(current, batch[i])
          && c == Conflict(batch[i].key, batch[i].baseline, current.ValueAt(batch[i].key), batch[i].pending))
      {}
    }
  }

  /** Whatever the batch: a snapshot is returned exactly with success, and only then is
      there no error; an invalid document is refused with its own diagnostics before
      anything else is looked at. */
  lemma PatchRefusals(toml: Toml, current: Snapshot, edits: seq<Edit>, schema: Schema)
    ensures var result := PatchOf(toml, current, edits, schema);
      && result.status in {Success, Conflicted, Invalid, UnsupportedPatch}
      && (result.status == Success <==> result.snapshot.Some?)
      && (result.status in {Success, Conflicted} <==> NoError(result.diagnostics))
      && (result.status in {Success, Invalid} ==> result.conflicts == [])
      && (!DocumentHolds(current, schema) ==>
           result.status == Invalid && result.diagnostics == DiagnosticsOf(current, schema))
      && (result.status == Conflicted ==> result.diagnostics == DiagnosticsOf(current, schema))
      && (DocumentHolds(current, schema) && Normalize(toml, edits).None? ==> result.status == UnsupportedPatch)
      && (result.status == Success ==>
           && DocumentHolds(result.snapshot.value, schema) && result.snapshot.value.path == current.path
           && result.diagnostics == DiagnosticsOf(result.snapshot.value, schema))
  {
    hide DiagnosticsOf, DocumentHolds, Normalize, PlanAll, ConflictsBeforeStop, WellFormed, Substituted, AllReplacements;
    ValidityIsFieldwise(current, schema);
    var result := PatchOf(toml, current, edits, schema);
    NoErrorMeaning(result.diagnostics);
    if result.status == UnsupportedPatch {
      assert result.diagnostics[|result.diagnostics| - 1].severity == Error;
    }
    if result.snapshot.Some? {
      ValidityIsFieldwise(result.snapshot.value, schema);
    }
  }

  // ---------------------------------------------------------------------------
  // Permuting the batch

  lemma NormalizeAsCollect(toml: Toml, edits: seq<Edit>)
    ensures Normalize(toml, edits).Some? ==>
      Normalize(toml, edits).value == Collect((edit: Edit) => NormalizeOne(toml, edit), edits)
  {
    if edits != [] && Normalize(toml, edits).Some? {
      NormalizeAsCollect(toml, edits[..|edits| - 1]);
    }
  }

  lemma NormalizePermutes(toml: Toml, a: seq<Edit>, b: seq<Edit>)
    requires multiset(a) == multiset(b) && Normalize(toml, a).Some?
    ensures Normalize(toml, b).Some?
    ensures multiset(Normalize(toml, a).value) == multiset(Normalize(toml, b).value)
  {
    SameMembers(a, b);
    forall i | 0 <= i < |b| ensures NormalizeOne(toml, b[i]).Some? {
      assert b[i] in a;
      var k :| 0 <= k < |a| && a[k] == b[i];
      assert NormalizeOne(toml, a[k]) == Some(Normalize(toml, a).value[k]);
    }
    NormalizeAsCollect(toml, a);
    NormalizeAsCollect(toml, b);
    CollectPermutes((edit: Edit) => NormalizeOne(toml, edit), a, b);
  }

  /** No edit of the batch adds a key that is not in the document yet. */
  predicate AddsNothing(current: Snapshot, batch: seq<Edit>) {
    forall i :: 0 <= i < |batch| && Changes(current, batch[i]) && !Conflicting(current, batch[i]) ==>
      batch[i].key in current.overrides
  }

  /** Entries occupy at least one byte. */
  predicate NonemptySpans(snapshot: Snapshot) {
    forall key :: key in snapshot.overrides.Keys ==>
      && snapshot.overrides[key].source.begin != snapshot.overrides[key].source.end
      && (snapshot.overrides[key].assignment.Some? ==>
           snapshot.overrides[key].assignment.value.begin != snapshot.overrides[key].assignment.value.end)
  }

  lemma {:induction false} PlanWithoutInsertions(toml: Toml, current: Snapshot, batch: seq<Edit>)
    requires AddsNothing(current, batch) && PlanAll(toml, current, batch).Some?
    ensures PlanAll(toml, current, batch).value.insertions == []
    decreases |batch|
  {
    if batch != [] {
      var last := |batch| - 1;
      assert forall i :: 0 <= i < last ==> batch[..last][i] == batch[i];
      PlanWithoutInsertions(toml, current, batch[..last]);
      assert Changes(current, batch[last]) && !Conflicting(current, batch[last]) ==>
        batch[last].key in current.overrides;
    }
  }

  lemma RealisedPermutes(snapshot: Snapshot, a: seq<Edit>, b: seq<Edit>)
    requires multiset(a) == multiset(b) && Realised(snapshot, a)
    ensures Realised(snapshot, b)
  {
    SameMembers(a, b);
    forall i | 0 <= i < |b| ensures Same(snapshot.ValueAt(b[i].key), b[i].pending) {
      assert b[i] in a;
      var k :| 0 <= k < |a| && a[k] == b[i];
      assert Same(snapshot.ValueAt(a[k].key), a[k].pending);
    }
  }

  lemma CollectedReplacementsAreNonempty(toml: Toml, current: Snapshot, batch: seq<Edit>)
    requires NonemptySpans(current)
    ensures forall r :: r in Collect(ReplacementFrom(toml, current), batch) ==> !IsInsertion(r)
  {
    forall r | r in Collect(ReplacementFrom(toml, current), batch) ensures !IsInsertion(r) {
      CollectMembers(ReplacementFrom(toml, current), batch, r);
      var i :| 0 <= i < |batch| && ReplacementFrom(toml, current)(batch[i]) == Some(r);
      assert Replaces(current, batch[i]) && r == ReplacementOf(toml, current, batch[i]);
    }
  }

  /** The outcome does not depend on the order of the batch: the status never
      does, the reported conflicts are the same, and without new keys the result
      is the same to the byte. */
  lemma PatchIgnoresBatchOrder(toml: Toml, current: Snapshot, a: seq<Edit>, b: seq<Edit>, schema: Schema)
    requires multiset(a) == multiset(b) && NonemptySpans(current)
    requires Normalize(toml, a).Some? ==> AddsNothing(current, Normalize(toml, a).value)
    ensures PatchOf(toml, current, a, schema).status == PatchOf(toml, current, b, schema).status
    ensures PatchOf(toml, current, a, schema).snapshot == PatchOf(toml, current, b, schema).snapshot
    ensures PatchOf(toml, current, a, schema).status == Conflicted ==>
      multiset(PatchOf(toml, current, a, schema).conflicts) == multiset(PatchOf(toml, current, b, schema).conflicts)
  {
    if Normalize(toml, b).Some? {
      NormalizePermutes(toml, b, a);
    }
    if Valid(current, schema) && Normalize(toml, a).Some? {
      NormalizePermutes(toml, a, b);
      var x, y := Normalize(toml, a).value, Normalize(toml, b).value;
      PlannedAlike(toml, current, x, y);
      if PlanAll(toml, current, x).Some? {
        var p, q := PlanAll(toml, current, x).value, PlanAll(toml, current, y).value;
        assert p.conflicts == [] <==> q.conflicts == [] by {
          assert |multiset(p.conflicts)| == |p.conflicts| && |multiset(q.conflicts)| == |q.conflicts|;
        }
        assert AllReplacements(toml, current, p) == p.replacements;
        assert AllReplacements(toml, current, q) == q.replacements;
        ReplacementsCommute(current.revision.bytes, p.replacements, q.replacements);
        AppliedAlike(toml, current, p.replacements, q.replacements, x, y);
      }
    }
  }

  /** Even with new keys, whether planning refuses the batch and which conflicts it
      reports do not depend on the order of the edits. */
  lemma VerdictIgnoresBatchOrder(toml: Toml, current: Snapshot, a: seq<Edit>, b: seq<Edit>, schema: Schema)
    requires multiset(a) == multiset(b) && Valid(current, schema) && Normalize(toml, a).Some?
    ensures Normalize(toml, b).Some?
    ensures BadBatch(current, Normalize(toml, a).value) <==> BadBatch(current, Normalize(toml, b).value)
    ensures PatchOf(toml, current, a, schema).status == Conflicted <==> PatchOf(toml, current, b, schema).status == Conflicted
    ensures PatchOf(toml, current, a, schema).status == Conflicted ==>
      multiset(PatchOf(toml, current, a, schema).conflicts) == multiset(PatchOf(toml, current, b, schema).conflicts)
  {
    hide Normalize, PlanAll, BadBatch, Apply, DiagnosticsOf, ConflictsBeforeStop, Collect;
    NormalizePermutes(toml, a, b);
    var x, y := Normalize(toml, a).value, Normalize(toml, b).value;
    PlanVerdict(toml, current, x);
    PlanVerdict(toml, current, y);
    if BadBatch(current, x) {
      BadBatchPermutes(current, x, y);
    }
    if BadBatch(current, y) {
      BadBatchPermutes(current, y, x);
    }
    CollectPermutes(ConflictFrom(current), x, y);
    SameEmptiness(Collect(ConflictFrom(current), x), Collect(ConflictFrom(current), y));
  }

  lemma SameEmptiness<T>(a: seq<T>, b: seq<T>)
    requires multiset(a) == multiset(b)
    ensures a == [] <==> b == []
  {
    assert |multiset(a)| == |a| && |multiset(b)| == |b|;
  }

  lemma PlannedAlike(toml: Toml, current: Snapshot, x: seq<Edit>, y: seq<Edit>)
    requires multiset(x) == multiset(y) && NonemptySpans(current) && AddsNothing(current, x)
    ensures PlanAll(toml, current, x).None? <==> PlanAll(toml, current, y).None?
    ensures PlanAll(toml, current, x).Some? ==>
      var p, q := PlanAll(toml, current, x).value, PlanAll(toml, current, y).value;
      && multiset(p.conflicts) == multiset(q.conflicts)
      && multiset(p.replacements) == multiset(q.replacements)
      && (forall r :: r in p.replacements ==> !IsInsertion(r))
      && p.insertions == q.insertions == []
  {
    PlanVerdict(toml, current, x);
    PlanVerdict(toml, current, y);
    if BadBatch(current, x) {
      BadBatchPermutes(current, x, y);
    }
    if BadBatch(current, y) {
      BadBatchPermutes(current, y, x);
    }
    CollectPermutes(ConflictFrom(current), x, y);
    CollectPermutes(ReplacementFrom(toml, current), x, y);
    CollectedReplacementsAreNonempty(toml, current, x);
    SameMembers(x, y);
    if PlanAll(toml, current, x).Some? {
      PlanWithoutInsertions(toml, current, x);
      forall i | 0 <= i < |y| && Changes(current, y[i]) && !Conflicting(current, y[i])
        ensures y[i].key in current.overrides
      {
        assert y[i] in x;
        var k :| 0 <= k < |x| && x[k] == y[i];
        assert x[k].key in current.overrides;
      }
      PlanWithoutInsertions(toml, current, y);
    }
  }

  lemma AppliedAlike(toml: Toml, current: Snapshot, p: seq<Replacement>, q: seq<Replacement>, x: seq<Edit>, y: seq<Edit>)
    requires multiset(x) == multiset(y)
    requires var doc := current.revision.bytes;
      && (WellFormed(|doc|, p) <==> WellFormed(|doc|, q))
      && (WellFormed(|doc|, p) ==> Substituted(doc, p, 0) == Substituted(doc, q, 0))
    ensures Apply(toml, current, p, x) == Apply(toml, current, q, y)
  {
    var doc := current.revision.bytes;
    if WellFormed(|doc|, p) {
      var parsed := ParseDocument(toml, Substituted(doc, p, 0), current.path);
      if parsed.Parsed? {
        if Realised(parsed.snapshot, x) {
          RealisedPermutes(parsed.snapshot, x, y);
        }
        if Realised(parsed.snapshot, y) {
          RealisedPermutes(parsed.snapshot, y, x);
        }
      }
    }
  }

  // ---------------------------------------------------------------------------
  // Success

  /** The parts of a successful patch. */
  lemma SuccessParts(toml: Toml, current: Snapshot, edits: seq<Edit>, schema: Schema)
    requires PatchOf(toml, current, edits, schema).status == Success
    ensures Normalize(toml, edits).Some?
    ensures var batch := Normalize(toml, edits).value;
      var result := PatchOf(toml, current, edits, schema);
      && PlanAll(toml, current, batch).Some? && PlanAll(toml, current, batch).value.conflicts == []
      && result.snapshot.Some? && result.conflicts == [] && Valid(result.snapshot.value, schema)
      && result.diagnostics == DiagnosticsOf(result.snapshot.value, schema)
      && Apply(toml, current, AllReplacements(toml, current, PlanAll(toml, current, batch).value), batch)
         == Applied(result.snapshot.value)
  {}

  lemma AppliedParts(toml: Toml, current: Snapshot, rs: seq<Replacement>, batch: seq<Edit>)
    requires Apply(toml, current, rs, batch).Applied?
    ensures var snapshot := Apply(toml, current, rs, batch).snapshot;
      && WellFormed(|current.revision.bytes|, rs)
      && snapshot.revision == Revision(true, Substituted(current.revision.bytes, rs, 0))
      && snapshot.path == current.path
      && ParseDocument(toml, snapshot.revision.bytes, snapshot.path) == Parsed(snapshot)
      && Realised(snapshot, batch)
  {}

  lemma NoConflictMeansSeen(toml: Toml, current: Snapshot, batch: seq<Edit>)
    requires PlanAll(toml, current, batch).Some? && PlanAll(toml, current, batch).value.conflicts == []
    ensures !BadBatch(current, batch)
    ensures forall i :: 0 <= i < |batch| && Changes(current, batch[i]) ==>
      Same(current.ValueAt(batch[i].key), batch[i].baseline)
  {
    PlanVerdict(toml, current, batch);
    CollectNothing(ConflictFrom(current), batch);
    forall i | 0 <= i < |batch| && Changes(current, batch[i])
      ensures Same(current.ValueAt(batch[i].key), batch[i].baseline)
    {
      assert ConflictFrom(current)(batch[i]).None?;
    }
  }

  /** A successful patch realises every requested value, and changed only values
      its caller had seen: no committed value is replaced blindly. */
  lemma SuccessMeansSeenAndRealised(toml: Toml, current: Snapshot, edits: seq<Edit>, schema: Schema)
    requires PatchOf(toml, current, edits, schema).status == Success
    ensures Normalize(toml, edits).Some? && PatchOf(toml, current, edits, schema).snapshot.Some?
    ensures var batch := Normalize(toml, edits).value;
      var snapshot := PatchOf(toml, current, edits, schema).snapshot.value;
      && ParseDocument(toml, snapshot.revision.bytes, snapshot.path) == Parsed(snapshot)
      && Valid(snapshot, schema) && Realised(snapshot, batch) && !BadBatch(current, batch)
      && forall i :: 0 <= i < |batch| ==>
           && batch[i].baseline == edits[i].baseline && batch[i].key == edits[i].key
           && (Changes(current, batch[i]) ==> Same(current.ValueAt(batch[i].key), batch[i].baseline))
  {
    SuccessParts(toml, current, edits, schema);
    var batch := Normalize(toml, edits).value;
    AppliedParts(toml, current, AllReplacements(toml, current, PlanAll(toml, current, batch).value), batch);
    NoConflictMeansSeen(toml, current, batch);
    NormalizedKeeps(toml, edits);
  }

  lemma NormalizedKeeps(toml: Toml, edits: seq<Edit>)
    requires Normalize(toml, edits).Some?
    ensures var batch := Normalize(toml, edits).value;
      forall i :: 0 <= i < |batch| ==> batch[i].baseline == edits[i].baseline && batch[i].key == edits[i].key
  {
    var batch := Normalize(toml, edits).value;
    forall i | 0 <= i < |batch| ensures batch[i].baseline == edits[i].baseline && batch[i].key == edits[i].key {
      assert NormalizeOne(toml, edits[i]) == Some(batch[i]);
    }
  }

  /** A NaN is never realised, so no batch that asks for one succeeds. */
  lemma NaNNeverSucceeds(toml: Toml, current: Snapshot, edits: seq<Edit>, schema: Schema, i: nat)
    requires Normalize(toml, edits).Some? && i < |edits|
    requires Normalize(toml, edits).value[i].pending == Some(Float(NaN))
    ensures PatchOf(toml, current, edits, schema).status != Success
  {
    if PatchOf(toml, current, edits, schema).status == Success {
      SuccessMeansSeenAndRealised(toml, current, edits, schema);
    }
  }

  /** A NaN on disk conflicts with every edit of its key, whatever the baseline. */
  lemma NaNOnDiskConflicts(current: Snapshot, edit: Edit)
    requires current.ValueAt(edit.key) == Some(Float(NaN))
    ensures Conflicting(current, edit)
  {
    assert !Same(current.ValueAt(edit.key), edit.pending);
  }

  lemma {:induction false} RealisedPlansNothing(toml: Toml, snapshot: Snapshot, batch: seq<Edit>)
    requires Realised(snapshot, batch) && !BadKey(batch)
    ensures PlanAll(toml, snapshot, batch) == Some(EMPTY_PLAN)
    decreases |batch|
  {
    if batch != [] {
      var last := |batch| - 1;
      BadKeyFront(batch);
      assert forall i :: 0 <= i < last ==> batch[..last][i] == batch[i];
      RealisedPlansNothing(toml, snapshot, batch[..last]);
    }
  }

  lemma {:induction false} NothingSubstituted(doc: ByteString, i: nat)
    requires i <= |doc|
    ensures Substituted(doc, [], i) == doc[i..]
    decreases |doc| - i
  {
    if i < |doc| {
      NothingSubstituted(doc, i + 1);
      assert doc[i..] == [doc[i]] + doc[i + 1..];
    }
  }

  /** A document that already holds every requested value is returned unchanged. */
  lemma RealisedIsIdentity(toml: Toml, current: Snapshot, edits: seq<Edit>, schema: Schema)
    requires ParseDocument(toml, current.revision.bytes, current.path) == Parsed(current)
    requires Valid(current, schema) && Normalize(toml, edits).Some?
    requires Realised(current, Normalize(toml, edits).value) && !BadKey(Normalize(toml, edits).value)
    ensures PatchOf(toml, current, edits, schema)
         == SaveResult(Success, Some(current), [], DiagnosticsOf(current, schema))
  {
    RealisedPlansNothing(toml, current, Normalize(toml, edits).value);
    var doc := current.revision.bytes;
    assert AllReplacements(toml, current, EMPTY_PLAN) == [];
    NothingSubstituted(doc, 0);
    assert doc[0..] == doc;
  }

  /** Applying a successful batch to its own result changes no byte. */
  lemma PatchIsIdempotent(toml: Toml, current: Snapshot, edits: seq<Edit>, schema: Schema)
    requires PatchOf(toml, current, edits, schema).status == Success
    ensures var result := PatchOf(toml, current, edits, schema);
      PatchOf(toml, result.snapshot.value, edits, schema) == result
  {
    SuccessParts(toml, current, edits, schema);
    SuccessMeansSeenAndRealised(toml, current, edits, schema);
    RealisedIsIdentity(toml, PatchOf(toml, current, edits, schema).snapshot.value, edits, schema);
  }

  /** The empty batch is the identity on a valid existing document. */
  lemma EmptyBatchIsIdentity(toml: Toml, current: Snapshot, schema: Schema)
    requires ParseDocument(toml, current.revision.bytes, current.path) == Parsed(current)
    requires Valid(current, schema)
    ensures PatchOf(toml, current, [], schema)
         == SaveResult(Success, Some(current), [], DiagnosticsOf(current, schema))
  {
    RealisedIsIdentity(toml, current, [], schema);
  }

  // ---------------------------------------------------------------------------
  // Bytes that survive, and where insertions land

  /** Position `i` lies in the value or assignment span of an edited key. */
  predicate Edited(current: Snapshot, batch: seq<Edit>, i: nat) {
    exists k :: 0 <= k < |batch| && Replaces(current, batch[k]) &&
      var entry := current.overrides[batch[k].key];
      var span := if batch[k].pending.Some? then entry.source else entry.assignment.value;
      span.begin <= i < span.end
  }

  lemma {:induction false} InsertionsAreInsertions(toml: Toml, current: Snapshot, insertions: Insertions)
    ensures forall r :: r in InsertionsOf(toml, current, insertions) ==> IsInsertion(r)
  {
    if insertions != [] {
      InsertionsAreInsertions(toml, current, insertions[..|insertions| - 1]);
    }
  }

  lemma UneditedSurvives(toml: Toml, current: Snapshot, batch: seq<Edit>, i: nat)
    requires PlanAll(toml, current, batch).Some? && !Edited(current, batch, i)
    ensures Survives(AllReplacements(toml, current, PlanAll(toml, current, batch).value), i)
  {
    var plan := PlanAll(toml, current, batch).value;
    PlanVerdict(toml, current, batch);
    InsertionsAreInsertions(toml, current, plan.insertions);
    forall r | r in AllReplacements(toml, current, plan) ensures !(r.span.begin <= i < r.span.end) {
      if r in plan.replacements {
        CollectMembers(ReplacementFrom(toml, current), batch, r);
        var k :| 0 <= k < |batch| && ReplacementFrom(toml, current)(batch[k]) == Some(r);
        assert Replaces(current, batch[k]) && r == ReplacementOf(toml, current, batch[k]);
      }
    }
  }

  /** Every original byte outside the edited keys' own spans is in the result,
      and two such bytes keep their order. */
  lemma UneditedBytesSurvive(toml: Toml, current: Snapshot, edits: seq<Edit>, schema: Schema, i: nat, j: nat)
    requires PatchOf(toml, current, edits, schema).status == Success
    requires i < j < |current.revision.bytes|
    requires !Edited(current, Normalize(toml, edits).value, i) && !Edited(current, Normalize(toml, edits).value, j)
    ensures var plan := PlanAll(toml, current, Normalize(toml, edits).value).value;
      var rs := AllReplacements(toml, current, plan);
      var doc := current.revision.bytes;
      var bytes := PatchOf(toml, current, edits, schema).snapshot.value.revision.bytes;
      && 0 <= NewIndex(doc, rs, i) < NewIndex(doc, rs, j) < |bytes|
      && bytes[NewIndex(doc, rs, i)] == doc[i]
      && bytes[NewIndex(doc, rs, j)] == doc[j]
  {
    var batch := Normalize(toml, edits).value;
    SuccessParts(toml, current, edits, schema);
    AppliedParts(toml, current, AllReplacements(toml, current, PlanAll(toml, current, batch).value), batch);
    UneditedSurvives(toml, current, batch, i);
    UneditedSurvives(toml, current, batch, j);
    SurvivorsKeepOrder(current.revision.bytes, AllReplacements(toml, current, PlanAll(toml, current, batch).value), i, j);
  }

  predicate EndsLine(text: ByteString) {
    text != [] && text[|text| - 1] == NEWLINE
  }

  predicate StartsWithNewline(text: ByteString) {
    [NEWLINE] <= text || [RETURN, NEWLINE] <= text
  }

  /** Inserted text is whole lines, and starts one. */
  predicate WholeLines(doc: ByteString, r: Replacement) {
    && r.span.begin <= |doc| && EndsLine(r.text)
    && (LineStart(doc, r.span.begin) || StartsWithNewline(r.text))
  }

  lemma {:induction false} AppendedEndsLine(insertions: Insertions, parent: KeyPath, text: ByteString)
    requires EndsLine(text) && forall i :: 0 <= i < |insertions| ==> EndsLine(insertions[i].1)
    ensures forall i :: 0 <= i < |Appended(insertions, parent, text)| ==> EndsLine(Appended(insertions, parent, text)[i].1)
  {
    if insertions != [] && insertions[0].0 != parent && !PathLess(parent, insertions[0].0) {
      AppendedEndsLine(insertions[1..], parent, text);
    }
  }

  lemma {:induction false} PlannedInsertionsEndLines(toml: Toml, current: Snapshot, batch: seq<Edit>)
    requires PlanAll(toml, current, batch).Some?
    ensures forall i :: 0 <= i < |PlanAll(toml, current, batch).value.insertions| ==>
      EndsLine(PlanAll(toml, current, batch).value.insertions[i].1)
    decreases |batch|
  {
    if batch != [] {
      var last := |batch| - 1;
      PlannedInsertionsEndLines(toml, current, batch[..last]);
      var edit := batch[last];
      if edit.key !in current.overrides && edit.pending.Some? && edit.key != [] {
        var line := InsertedLine(toml, current.revision.bytes, edit.key[|edit.key| - 1], edit.pending.value);
        assert EndsLine(line);
        AppendedEndsLine(PlanAll(toml, current, batch[..last]).value.insertions, edit.key[..|edit.key| - 1], line);
      }
    }
  }

  lemma {:induction false} PointIsLineStart(toml: Toml, current: Snapshot, parent: KeyPath, line: nat)
    requires line <= |current.revision.bytes|
    requires PointFrom(toml, current, parent, line).Some?
    ensures var doc, point := current.revision.bytes, PointFrom(toml, current, parent, line).value;
      doc[point - 1] == NEWLINE || point == |doc|
    decreases |current.revision.bytes| - line
  {
    var doc := current.revision.bytes;
    var next := NextLine(doc, line);
    if InsideValue(current, line) || !HeaderMatches(toml, doc[line..next], parent) {
      PointIsLineStart(toml, current, parent, next);
    }
  }

  /** One planned insertion is whole lines at a line start, CRLF files, files
      without a final newline and new tables included. */
  lemma InsertionIsWholeLines(toml: Toml, current: Snapshot, parent: KeyPath, text: ByteString)
    requires EndsLine(text)
    ensures WholeLines(current.revision.bytes, InsertionOf(toml, current, parent, text))
  {
    var doc := current.revision.bytes;
    var r := InsertionOf(toml, current, parent, text);
    assert r.text[|r.text| - |text|..] == text;
    assert StartsWithNewline(LineEnding(doc) + text);
    match PointOf(toml, current, parent) {
      case Some(point) =>
        if parent != [] {
          PointIsLineStart(toml, current, parent, 0);
        }
        if !LineStart(doc, point) {
          assert r.text == LineEnding(doc) + text;
        }
      case None =>
        if !LineStart(doc, |doc|) {
          assert LineEnding(doc) <= r.text;
        }
    }
  }

  lemma {:induction false} InsertionsAreWholeLines(toml: Toml, current: Snapshot, insertions: Insertions)
    requires forall i :: 0 <= i < |insertions| ==> EndsLine(insertions[i].1)
    ensures forall r :: r in InsertionsOf(toml, current, insertions) ==> WholeLines(current.revision.bytes, r)
  {
    if insertions != [] {
      var last := |insertions| - 1;
      InsertionsAreWholeLines(toml, current, insertions[..last]);
      InsertionIsWholeLines(toml, current, insertions[last].0, insertions[last].1);
    }
  }

  lemma {:induction false} JoinedWholeLines(doc: ByteString, rs: seq<Replacement>, point: nat)
    requires point <= |doc|
    requires forall r :: r in rs && IsInsertion(r) ==> WholeLines(doc, r)
    ensures InsertText(rs, point) == [] || WholeLines(doc, Replacement(Span(point, point), InsertText(rs, point)))
  {
    if rs != [] {
      assert forall r :: r in rs[1..] ==> r in rs;
      JoinedWholeLines(doc, rs[1..], point);
      var rest := InsertText(rs[1..], point);
      if rs[0].span == Span(point, point) {
        assert WholeLines(doc, rs[0]);
        var all := rs[0].text + rest;
        assert rest != [] ==> all[|all| - 1] == rest[|rest| - 1];
        assert rest == [] ==> all == rs[0].text;
      }
    }
  }

  /** Whatever shares a point, end of file included, the text inserted there is
      whole lines beginning at a line start. */
  lemma InsertedTextIsWholeLines(toml: Toml, current: Snapshot, batch: seq<Edit>, point: nat)
    requires PlanAll(toml, current, batch).Some? && NonemptySpans(current) && point <= |current.revision.bytes|
    ensures var rs := AllReplacements(toml, current, PlanAll(toml, current, batch).value);
      InsertText(rs, point) == []
      || WholeLines(current.revision.bytes, Replacement(Span(point, point), InsertText(rs, point)))
  {
    var plan := PlanAll(toml, current, batch).value;
    PlanVerdict(toml, current, batch);
    CollectedReplacementsAreNonempty(toml, current, batch);
    PlannedInsertionsEndLines(toml, current, batch);
    InsertionsAreWholeLines(toml, current, plan.insertions);
    JoinedWholeLines(current.revision.bytes, AllReplacements(toml, current, plan), point);
  }
}
