/** The edits of a plan never overlap, whatever the batch. */
module FragmentOverlap {
  import opened Bytes
  import opened Splice
  import opened Documents
  import opened Patch
  import opened PatchProperties
  import opened Fragment
  import opened FragmentLines
  import opened FragmentFrame
  import opened FragmentTally
  import opened FragmentPlan
  import opened FragmentPatch
  import opened FragmentLiterals
  import opened FragmentInsertion
  import opened FragmentReading
  import opened FragmentItems
  import opened FragmentCandidate

  /** The binding and the edit behind a planned replacement. */
  lemma EditBehind(current: Snapshot, all: seq<Located>, batch: seq<Edit>, r: Replacement) returns (x: Located, k: nat)
    requires FragmentPatch.Planned(current, all, batch) && r in PlanAll(TOML, current, batch).value.replacements
    ensures x in all && k < |batch| && batch[k].key == x.key && (Removes(x, r) || Sets(x, r))
  {
    hide PlanAll, BindingsOfDocument, ReplacementOf, Removes, Sets;
    PlanVerdict(TOML, current, batch);
    CollectMembers(ReplacementFrom(TOML, current), batch, r);
    k :| k < |batch| && ReplacementFrom(TOML, current)(batch[k]) == Some(r);
    assert Replaces(current, batch[k]) && r == ReplacementOf(TOML, current, batch[k]);
    x := BindingOfEntry(current, all, batch[k].key);
    ReplacementOfBinding(current, all, batch[k], x);
  }

  ghost predicate AllApart(rs: seq<Replacement>) {
    forall i, j :: 0 <= i < j < |rs| ==> Apart(rs[i].span, rs[j].span)
  }

  lemma AllApartMore(rs: seq<Replacement>, more: seq<Replacement>)
    requires AllApart(rs) && AllApart(more) && forall r, t :: r in rs && t in more ==> Apart(r.span, t.span)
    ensures AllApart(rs + more)
  {
    var all := rs + more;
    forall i, j | 0 <= i < j < |all| ensures Apart(all[i].span, all[j].span) {
      if j < |rs| {
        assert all[i] == rs[i] && all[j] == rs[j];
      } else if i >= |rs| {
        assert all[i] == more[i - |rs|] && all[j] == more[j - |rs|];
      } else {
        assert all[i] == rs[i] && all[j] == more[j - |rs|];
      }
    }
  }

  lemma OtherLinesApart(current: Snapshot, all: seq<Located>, x: Located, y: Located, r: Replacement, t: Replacement)
    requires BindingsOfDocument(current, all) && x in all && y in all && x != y
    requires (Removes(x, r) || Sets(x, r)) && (Removes(y, t) || Sets(y, t))
    ensures Apart(r.span, t.span)
  {
    hide BindingsOfDocument, OnLine, NextLine, LineStart;
    var doc := current.revision.bytes;
    BindingsOnLines(current, all);
    OnLineBounds(doc, x);
    OnLineBounds(doc, y);
    if x.line < y.line {
      LinesDoNotOverlap(doc, x.line, y.line);
    } else if y.line < x.line {
      LinesDoNotOverlap(doc, y.line, x.line);
    } else {
      SameLineSameBinding(current, all, x, y);
    }
  }

  lemma PlannedFront(current: Snapshot, all: seq<Located>, batch: seq<Edit>)
    requires FragmentPatch.Planned(current, all, batch) && batch != []
    ensures var last := |batch| - 1;
      && FragmentPatch.Planned(current, all, batch[..last])
      && !KeyUsed(batch[..last], batch[last].key) && batch[last].key != []
      && PlanOne(TOML, current, batch[last], PlanAll(TOML, current, batch[..last]).value) == PlanAll(TOML, current, batch)
  {
    hide PlanOne, KeyUsed, BindingsOfDocument;
    var last := |batch| - 1;
    ConflictsGrow(current, batch[last], PlanAll(TOML, current, batch[..last]).value);
  }

  lemma OneMoreReplacement(current: Snapshot, edit: Edit, plan: Patch.Plan)
    requires edit.key != [] && PlanOne(TOML, current, edit, plan).Some?
    ensures var after := PlanOne(TOML, current, edit, plan).value.replacements;
      after == plan.replacements || (|after| == |plan.replacements| + 1 && after[..|plan.replacements|] == plan.replacements)
  {
    hide ReplacementOf, Appended, InsertedLine;
  }

  lemma {:induction false} ReplacementsApart(current: Snapshot, all: seq<Located>, batch: seq<Edit>)
    requires FragmentPatch.Planned(current, all, batch)
    ensures AllApart(PlanAll(TOML, current, batch).value.replacements)
    decreases |batch|
  {
    hide PlanAll, PlanOne, BindingsOfDocument, FragmentBatch, Removes, Sets;
    if batch == [] {
      NothingPlanned(current);
    } else {
      var last := |batch| - 1;
      var front := batch[..last];
      PlannedFront(current, all, batch);
      ReplacementsApart(current, all, front);
      var before, after := PlanAll(TOML, current, front).value.replacements, PlanAll(TOML, current, batch).value.replacements;
      OneMoreReplacement(current, batch[last], PlanAll(TOML, current, front).value);
      if after != before {
        var r := after[|before|];
        assert after == before + [r];
        var y, l := EditBehind(current, all, batch, r);
        forall t | t in before ensures Apart(t.span, r.span) {
          LastIsOther(current, all, batch, t, r);
        }
        AllApartMore(before, [r]);
      }
    }
  }

  lemma NothingPlanned(current: Snapshot)
    ensures PlanAll(TOML, current, []) == Some(EMPTY_PLAN)
  {}

  /** The last edit's replacement is that of another binding than an earlier one's. */
  lemma LastIsOther(current: Snapshot, all: seq<Located>, batch: seq<Edit>, t: Replacement, r: Replacement)
    requires FragmentPatch.Planned(current, all, batch) && batch != []
    requires var last := |batch| - 1;
      && FragmentPatch.Planned(current, all, batch[..last]) && !KeyUsed(batch[..last], batch[last].key)
      && PlanOne(TOML, current, batch[last], PlanAll(TOML, current, batch[..last]).value) == PlanAll(TOML, current, batch)
      && batch[last].key != []
      && t in PlanAll(TOML, current, batch[..last]).value.replacements
      && PlanAll(TOML, current, batch).value.replacements == PlanAll(TOML, current, batch[..last]).value.replacements + [r]
    ensures Apart(t.span, r.span)
  {
    hide PlanAll, BindingsOfDocument, FragmentBatch, Removes, Sets, ReplacementOf, Appended, InsertedLine;
    var last := |batch| - 1;
    var front, edit := batch[..last], batch[last];
    var x, k := EditBehind(current, all, front, t);
    LastReplaces(current, edit, PlanAll(TOML, current, front).value, r);
    var y := BindingOfEntry(current, all, edit.key);
    PendingFits(batch, last);
    ReplacementOfBinding(current, all, edit, y);
    assert front[k].key == x.key;
    OtherLinesApart(current, all, x, y, t, r);
  }

  lemma PendingFits(batch: seq<Edit>, k: nat)
    requires FragmentBatch(batch) && k < |batch|
    ensures batch[k].pending.Some? ==> InFragment(batch[k].pending.value)
  {}

  lemma LastReplaces(current: Snapshot, edit: Edit, plan: Patch.Plan, r: Replacement)
    requires edit.key != [] && PlanOne(TOML, current, edit, plan).Some?
    requires PlanOne(TOML, current, edit, plan).value.replacements == plan.replacements + [r]
    ensures edit.key in current.overrides && current.overrides[edit.key].assignment.Some?
    ensures r == ReplacementOf(TOML, current, edit)
  {
    hide ReplacementOf, Appended, InsertedLine, Changes, Conflicting;
    var after := PlanOne(TOML, current, edit, plan).value.replacements;
    assert after[|plan.replacements|] == r;
    assert |after| == |plan.replacements| + 1;
  }

  lemma InsertionsApart(rs: seq<Replacement>)
    requires forall r :: r in rs ==> IsInsertion(r)
    ensures AllApart(rs)
  {
    forall i, j | 0 <= i < j < |rs| ensures Apart(rs[i].span, rs[j].span) {
      assert rs[i] in rs && rs[j] in rs;
    }
  }

  /** No insertion point is inside an edited line. */
  lemma {:induction false} InsertionsFit(current: Snapshot, all: seq<Located>, insertions: Insertions, r: Replacement)
    requires r in InsertionsOf(TOML, current, insertions)
    ensures IsInsertion(r) && r.span.begin <= |current.revision.bytes|
    ensures LineStart(current.revision.bytes, r.span.begin) || r.span.begin == |current.revision.bytes|
    decreases |insertions|
  {
    hide InsertionOf, PointOf, HeaderLine, LineEnding, LineStart;
    var last := |insertions| - 1;
    InsertionsLast(current, insertions);
    if r in InsertionsOf(TOML, current, insertions[..last]) {
      InsertionsFit(current, all, insertions[..last], r);
    } else {
      InsertionParts(current, insertions[last].0, insertions[last].1);
      PointInside(current, insertions[last].0);
    }
  }

  lemma EditApartFromInsertion(current: Snapshot, all: seq<Located>, x: Located, t: Replacement, r: Replacement)
    requires BindingsOfDocument(current, all) && x in all && (Removes(x, t) || Sets(x, t))
    requires IsInsertion(r) && r.span.begin <= |current.revision.bytes|
    requires LineStart(current.revision.bytes, r.span.begin) || r.span.begin == |current.revision.bytes|
    ensures Apart(t.span, r.span) && Fits(|current.revision.bytes|, t.span)
  {
    hide BindingsOfDocument, OnLine, NextLine, LineStart;
    var doc := current.revision.bytes;
    BindingsOnLines(current, all);
    OnLineBounds(doc, x);
    if x.line < r.span.begin < |doc| {
      LinesDoNotOverlap(doc, x.line, r.span.begin);
    }
  }

  /** Whatever the batch, its replacements and insertions never overlap, so splicing
      accepts them. */
  lemma PlanNeverOverlaps(current: Snapshot, all: seq<Located>, batch: seq<Edit>)
    requires FragmentPatch.Planned(current, all, batch)
    ensures WellFormed(|current.revision.bytes|, PlannedReplacements(current, batch))
  {
    hide PlanAll, BindingsOfDocument, FragmentBatch, Removes, Sets, InsertionsOf, LineStart, Apart, Fits;
    var doc, plan := current.revision.bytes, PlanAll(TOML, current, batch).value;
    var edits, insertions := plan.replacements, InsertionsOf(TOML, current, plan.insertions);
    ReplacementsApart(current, all, batch);
    forall r | r in insertions ensures IsInsertion(r) && Fits(|doc|, r.span) {
      InsertionsFit(current, all, plan.insertions, r);
      PointFits(|doc|, r);
    }
    InsertionsApart(insertions);
    forall t, r | t in edits && r in insertions ensures Apart(t.span, r.span) {
      var x, k := EditBehind(current, all, batch, t);
      InsertionsFit(current, all, plan.insertions, r);
      EditApartFromInsertion(current, all, x, t, r);
    }
    AllApartMore(edits, insertions);
    forall t | t in edits ensures Fits(|doc|, t.span) {
      var x, k := EditBehind(current, all, batch, t);
      EndPoint(doc);
      EditApartFromInsertion(current, all, x, t, Replacement(Span(|doc|, |doc|), []));
    }
    forall i | 0 <= i < |edits + insertions| ensures Fits(|doc|, (edits + insertions)[i].span) {
      assert (edits + insertions)[i] in edits || (edits + insertions)[i] in insertions;
    }
    assert PlannedReplacements(current, batch) == edits + insertions;
  }

  lemma PointFits(size: nat, r: Replacement)
    requires IsInsertion(r) && r.span.begin <= size
    ensures Fits(size, r.span)
  {}

  lemma EndPoint(doc: ByteString)
    ensures IsInsertion(Replacement(Span(|doc|, |doc|), []))
  {}
}
