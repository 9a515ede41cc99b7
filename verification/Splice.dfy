/** What a set of byte-span replacements means, and why the editor's way of
    applying them (coalesce insertions, sort descending, splice right to left
    under a moving boundary; `src/document.cpp:404-438`) computes it.

    The reference, `Substituted`, reads the original document once from left to
    right and never looks at the order of the replacement list, except among
    insertions at one point. */
module Splice {
  import opened Bytes

  datatype Span = Span(begin: nat, end: nat)

  datatype Replacement = Replacement(span: Span, text: ByteString)

  predicate IsInsertion(r: Replacement) {
    r.span.begin == r.span.end
  }

  // ---------------------------------------------------------------------------
  // Reference: simultaneous substitution

  /** The texts inserted at `point`, in list order. */
  function InsertText(rs: seq<Replacement>, point: nat): ByteString {
    if rs == [] then []
    else if rs[0].span == Span(point, point) then rs[0].text + InsertText(rs[1..], point)
    else InsertText(rs[1..], point)
  }

  /** The replacement of a nonempty span starting at `point`. */
  function StartingAt(rs: seq<Replacement>, point: nat): (r: Option<Replacement>)
    ensures r.Some? ==> r.value in rs && r.value.span.begin == point < r.value.span.end
  {
    if rs == [] then None
    else if rs[0].span.begin == point < rs[0].span.end then Some(rs[0])
    else StartingAt(rs[1..], point)
  }

  lemma {:induction false} StartingAtFinds(rs: seq<Replacement>, r: Replacement)
    requires r in rs && !IsInsertion(r) && r.span.begin < r.span.end
    ensures StartingAt(rs, r.span.begin).Some?
  {
    if !(rs[0].span.begin == r.span.begin < rs[0].span.end) {
      assert r in rs[1..];
      StartingAtFinds(rs[1..], r);
    }
  }

  /** The new text of `doc` from position `i` on. */
  function Substituted(doc: ByteString, rs: seq<Replacement>, i: nat): ByteString
    requires i <= |doc|
    decreases |doc| - i
  {
    InsertText(rs, i) +
    match StartingAt(rs, i)
    case Some(r) => r.text + if r.span.end <= |doc| then Substituted(doc, rs, r.span.end) else []
    case None => if i == |doc| then [] else [doc[i]] + Substituted(doc, rs, i + 1)
  }

  /** `Substituted` past the insertions at `i` itself. */
  function Onward(doc: ByteString, rs: seq<Replacement>, i: nat): ByteString
    requires i <= |doc|
  {
    match StartingAt(rs, i)
    case Some(r) => r.text + if r.span.end <= |doc| then Substituted(doc, rs, r.span.end) else []
    case None => if i == |doc| then [] else [doc[i]] + Substituted(doc, rs, i + 1)
  }

  lemma SubstitutedStep(doc: ByteString, rs: seq<Replacement>, i: nat)
    requires i <= |doc|
    ensures Substituted(doc, rs, i) == InsertText(rs, i) + Onward(doc, rs, i)
  {}

  /** Spans that share no byte; an insertion point may touch a span but not split it. */
  predicate Apart(a: Span, b: Span) {
    a.end <= b.begin || b.end <= a.begin
  }

  predicate Fits(size: nat, span: Span) {
    span.begin <= span.end <= size
  }

  /** Every span is well formed, inside the document, and apart from the others. */
  ghost predicate WellFormed(size: nat, rs: seq<Replacement>) {
    && (forall i :: 0 <= i < |rs| ==> Fits(size, rs[i].span))
    && (forall i, j :: 0 <= i < j < |rs| ==> Apart(rs[i].span, rs[j].span))
  }

  // ---------------------------------------------------------------------------
  // The editor's three passes, as functions

  function Elsewhere(rs: seq<Replacement>, span: Span): seq<Replacement> {
    if rs == [] then []
    else if rs[0].span == span then Elsewhere(rs[1..], span)
    else [rs[0]] + Elsewhere(rs[1..], span)
  }

  lemma {:induction false} ElsewhereShrinks(rs: seq<Replacement>, span: Span)
    ensures |Elsewhere(rs, span)| <= |rs|
  {
    if rs != [] {
      ElsewhereShrinks(rs[1..], span);
    }
  }

  function Coalesced(rs: seq<Replacement>): seq<Replacement>
    decreases |rs|
  {
    if rs == [] then []
    else if IsInsertion(rs[0]) then
      ElsewhereShrinks(rs[1..], rs[0].span);
      [Replacement(rs[0].span, rs[0].text + InsertText(rs[1..], rs[0].span.begin))]
      + Coalesced(Elsewhere(rs[1..], rs[0].span))
    else [rs[0]] + Coalesced(rs[1..])
  }

  /** The comparison of the descending sort, ties included. */
  predicate NotBefore(a: Span, b: Span) {
    a.begin > b.begin || (a.begin == b.begin && a.end >= b.end)
  }

  ghost predicate Descending(ds: seq<Replacement>) {
    forall i, j :: 0 <= i < j < |ds| ==> NotBefore(ds[i].span, ds[j].span)
  }

  /** The splice loop: `candidate` up to `boundary` is still the original text. */
  function SpliceFrom(candidate: ByteString, boundary: nat, ds: seq<Replacement>): Option<ByteString>
    requires boundary <= |candidate|
    decreases |ds|
  {
    if ds == [] then Some(candidate)
    else
      var span := ds[0].span;
      if span.end > boundary || span.begin > span.end then None
      else SpliceFrom(candidate[..span.begin] + ds[0].text + candidate[span.end..], span.begin, ds[1..])
  }

  // ---------------------------------------------------------------------------
  // Acceptance

  /** Each span ends where the previous one (to its right) begins, or earlier. */
  ghost predicate Chained(boundary: nat, ds: seq<Replacement>) {
    && (forall i :: 0 <= i < |ds| ==> Fits(boundary, ds[i].span))
    && (forall i, j :: 0 <= i < j < |ds| ==> ds[j].span.end <= ds[i].span.begin)
  }

  lemma ChainedTail(boundary: nat, ds: seq<Replacement>)
    requires ds != [] && Chained(boundary, ds)
    ensures Fits(boundary, ds[0].span) && Chained(ds[0].span.begin, ds[1..])
  {
    var rest := ds[1..];
    assert Fits(boundary, ds[0].span);
    forall i | 0 <= i < |rest| ensures Fits(ds[0].span.begin, rest[i].span) {
      assert Fits(boundary, ds[i + 1].span) && ds[i + 1].span.end <= ds[0].span.begin;
    }
    forall i, j | 0 <= i < j < |rest| ensures rest[j].span.end <= rest[i].span.begin {
      assert ds[j + 1].span.end <= ds[i + 1].span.begin;
    }
  }

  lemma ChainedCons(boundary: nat, ds: seq<Replacement>)
    requires ds != [] && Fits(boundary, ds[0].span) && Chained(ds[0].span.begin, ds[1..])
    ensures Chained(boundary, ds)
  {
    var rest := ds[1..];
    forall i | 0 <= i < |ds| ensures Fits(boundary, ds[i].span) {
      if i > 0 { assert Fits(ds[0].span.begin, rest[i - 1].span); }
    }
    forall i, j | 0 <= i < j < |ds| ensures ds[j].span.end <= ds[i].span.begin {
      assert Fits(ds[0].span.begin, rest[j - 1].span);
      if i > 0 { assert rest[j - 1].span.end <= rest[i - 1].span.begin; }
    }
  }

  lemma {:induction false} SpliceAcceptsChains(candidate: ByteString, boundary: nat, ds: seq<Replacement>)
    requires boundary <= |candidate|
    ensures SpliceFrom(candidate, boundary, ds).Some? <==> Chained(boundary, ds)
    decreases |ds|
  {
    if ds != [] {
      var span := ds[0].span;
      if Fits(boundary, span) {
        SpliceAcceptsChains(candidate[..span.begin] + ds[0].text + candidate[span.end..], span.begin, ds[1..]);
        if Chained(span.begin, ds[1..]) {
          ChainedCons(boundary, ds);
        }
      }
      if Chained(boundary, ds) {
        ChainedTail(boundary, ds);
      }
    }
  }

  lemma DescendingChains(size: nat, ds: seq<Replacement>)
    requires Descending(ds)
    ensures Chained(size, ds) <==> WellFormed(size, ds)
  {
    if WellFormed(size, ds) {
      forall i, j | 0 <= i < j < |ds| ensures ds[j].span.end <= ds[i].span.begin {
        assert NotBefore(ds[i].span, ds[j].span) && Apart(ds[i].span, ds[j].span);
        assert Fits(size, ds[i].span) && Fits(size, ds[j].span);
      }
    }
  }

  // ---------------------------------------------------------------------------
  // Reordering

  lemma TwoOccurrences<T>(s: seq<T>, i: nat, j: nat)
    requires i < j < |s| && s[i] == s[j]
    ensures multiset(s)[s[i]] >= 2
  {
    assert s == s[..j] + s[j..];
    assert s[i] == s[..j][i] && s[j] == s[j..][0];
    assert multiset(s) == multiset(s[..j]) + multiset(s[j..]);
  }

  lemma {:induction false} FindTwoOccurrences<T>(s: seq<T>, x: T) returns (i: nat, j: nat)
    requires multiset(s)[x] >= 2
    ensures i < j < |s| && s[i] == s[j] == x
  {
    assert s == [s[0]] + s[1..];
    if s[0] == x {
      assert multiset(s) == multiset([s[0]]) + multiset(s[1..]);
      assert x in s[1..];
      var k :| 0 <= k < |s[1..]| && s[1..][k] == x;
      i, j := 0, k + 1;
    } else {
      assert multiset(s) == multiset([s[0]]) + multiset(s[1..]);
      i, j := FindTwoOccurrences(s[1..], x);
      i, j := i + 1, j + 1;
    }
  }

  lemma SameMembers<T>(s: seq<T>, t: seq<T>)
    requires multiset(s) == multiset(t)
    ensures forall x :: x in s <==> x in t
  {
    forall x ensures x in s <==> x in t {
      assert x in s <==> x in multiset(s);
      assert x in t <==> x in multiset(t);
    }
  }

  lemma MembersApart(size: nat, rs: seq<Replacement>, a: Replacement, b: Replacement)
    requires WellFormed(size, rs) && a in rs && b in rs && a != b
    ensures Apart(a.span, b.span) && Fits(size, a.span) && Fits(size, b.span)
  {
    var k :| 0 <= k < |rs| && rs[k] == a;
    var l :| 0 <= l < |rs| && rs[l] == b;
    assert Fits(size, rs[k].span) && Fits(size, rs[l].span);
    if k < l {
      assert Apart(rs[k].span, rs[l].span);
    } else {
      assert Apart(rs[l].span, rs[k].span);
    }
  }

  lemma WellFormedReorders(size: nat, rs: seq<Replacement>, ds: seq<Replacement>)
    requires multiset(rs) == multiset(ds) && WellFormed(size, rs)
    ensures WellFormed(size, ds)
  {
    SameMembers(rs, ds);
    forall i | 0 <= i < |ds| ensures Fits(size, ds[i].span) {
      assert ds[i] in rs;
    }
    forall i, j | 0 <= i < j < |ds| ensures Apart(ds[i].span, ds[j].span) {
      if ds[i] == ds[j] {
        TwoOccurrences(ds, i, j);
        var k, l := FindTwoOccurrences(rs, ds[i]);
        assert Apart(rs[k].span, rs[l].span);
      } else {
        assert ds[i] in rs && ds[j] in rs;
        MembersApart(size, rs, ds[i], ds[j]);
      }
    }
  }

  /** At most one insertion per point: what coalescing establishes. */
  ghost predicate OneInsertionPerPoint(rs: seq<Replacement>) {
    forall i, j :: 0 <= i < j < |rs| && IsInsertion(rs[i]) ==> rs[i].span != rs[j].span
  }

  lemma {:induction false} NoInsertionAt(rs: seq<Replacement>, point: nat)
    requires forall x :: x in rs ==> x.span != Span(point, point)
    ensures InsertText(rs, point) == []
  {
    if rs != [] {
      assert rs[0] in rs;
      NoInsertionAt(rs[1..], point);
    }
  }

  lemma {:induction false} OnlyInsertionAt(rs: seq<Replacement>, r: Replacement)
    requires OneInsertionPerPoint(rs) && r in rs && IsInsertion(r)
    ensures InsertText(rs, r.span.begin) == r.text
  {
    if rs[0] == r {
      forall x | x in rs[1..] ensures x.span != r.span {
        var k :| 0 <= k < |rs[1..]| && rs[1..][k] == x;
        assert rs[k + 1] == x && rs[0].span != rs[k + 1].span;
      }
      NoInsertionAt(rs[1..], r.span.begin);
      assert rs[0].text + [] == rs[0].text;
    } else {
      var k :| 0 <= k < |rs| && rs[k] == r;
      assert rs[0].span != rs[k].span;
      assert r == rs[1..][k - 1];
      OnlyInsertionAt(rs[1..], r);
    }
  }

  /** The start function and insert text of a well-formed list do not depend on
      its order once each point has one insertion. */
  lemma LookupsReorder(size: nat, rs: seq<Replacement>, ds: seq<Replacement>, point: nat)
    requires multiset(rs) == multiset(ds) && WellFormed(size, rs)
    requires OneInsertionPerPoint(rs) && OneInsertionPerPoint(ds)
    ensures InsertText(rs, point) == InsertText(ds, point)
    ensures StartingAt(rs, point) == StartingAt(ds, point)
  {
    SameMembers(rs, ds);
    InsertTextReorders(rs, ds, point);
    StartingAtReorders(size, rs, ds, point);
  }

  lemma InsertTextReorders(rs: seq<Replacement>, ds: seq<Replacement>, point: nat)
    requires forall x :: x in rs <==> x in ds
    requires OneInsertionPerPoint(rs) && OneInsertionPerPoint(ds)
    ensures InsertText(rs, point) == InsertText(ds, point)
  {
    if r :| r in rs && r.span == Span(point, point) {
      OnlyInsertionAt(rs, r);
      OnlyInsertionAt(ds, r);
    } else {
      NoInsertionAt(rs, point);
      NoInsertionAt(ds, point);
    }
  }

  lemma StartingAtReorders(size: nat, rs: seq<Replacement>, ds: seq<Replacement>, point: nat)
    requires forall x :: x in rs <==> x in ds
    requires WellFormed(size, rs)
    ensures StartingAt(rs, point) == StartingAt(ds, point)
  {
    var a, b := StartingAt(rs, point), StartingAt(ds, point);
    if a.Some? {
      StartingAtFinds(ds, a.value);
    }
    if b.Some? {
      StartingAtFinds(rs, b.value);
    }
    if a.Some? && a.value != b.value {
      MembersApart(size, rs, a.value, b.value);
      assert false;
    }
  }

  lemma {:induction false} SubstitutedByLookups(doc: ByteString, rs: seq<Replacement>, ds: seq<Replacement>, i: nat)
    requires i <= |doc|
    requires forall p :: InsertText(rs, p) == InsertText(ds, p) && StartingAt(rs, p) == StartingAt(ds, p)
    ensures Substituted(doc, rs, i) == Substituted(doc, ds, i)
    decreases |doc| - i
  {
    match StartingAt(rs, i) {
      case Some(r) =>
        if r.span.end <= |doc| {
          SubstitutedByLookups(doc, rs, ds, r.span.end);
        }
      case None =>
        if i < |doc| {
          SubstitutedByLookups(doc, rs, ds, i + 1);
        }
    }
  }

  // ---------------------------------------------------------------------------
  // Coalescing

  lemma {:induction false} ElsewhereMembers(rs: seq<Replacement>, span: Span)
    ensures forall x :: x in Elsewhere(rs, span) <==> x in rs && x.span != span
  {
    if rs != [] {
      ElsewhereMembers(rs[1..], span);
      assert forall x :: x in rs <==> x == rs[0] || x in rs[1..];
      assert forall x :: x in [rs[0]] + Elsewhere(rs[1..], span) <==> x == rs[0] || x in Elsewhere(rs[1..], span);
    }
  }

  lemma {:induction false} ElsewhereLookups(rs: seq<Replacement>, span: Span, point: nat)
    requires span.begin == span.end
    ensures StartingAt(Elsewhere(rs, span), point) == StartingAt(rs, point)
    ensures span.begin != point ==> InsertText(Elsewhere(rs, span), point) == InsertText(rs, point)
    ensures span.begin == point ==> InsertText(Elsewhere(rs, span), point) == []
  {
    if rs != [] {
      ElsewhereLookups(rs[1..], span, point);
      var rest := Elsewhere(rs[1..], span);
      assert ([rs[0]] + rest)[1..] == rest;
    }
  }

  lemma {:induction false} CoalescedLookups(rs: seq<Replacement>, point: nat)
    ensures InsertText(Coalesced(rs), point) == InsertText(rs, point)
    ensures StartingAt(Coalesced(rs), point) == StartingAt(rs, point)
    decreases |rs|
  {
    if rs != [] {
      if IsInsertion(rs[0]) {
        ElsewhereShrinks(rs[1..], rs[0].span);
        var others := Elsewhere(rs[1..], rs[0].span);
        ElsewhereLookups(rs[1..], rs[0].span, point);
        CoalescedLookups(others, point);
        var head := Replacement(rs[0].span, rs[0].text + InsertText(rs[1..], rs[0].span.begin));
        assert Coalesced(rs) == [head] + Coalesced(others);
        assert Coalesced(rs)[1..] == Coalesced(others);
        if rs[0].span == Span(point, point) {
          assert head.text + [] == head.text;
        }
      } else {
        CoalescedLookups(rs[1..], point);
        assert Coalesced(rs)[1..] == Coalesced(rs[1..]);
      }
    }
  }

  ghost function Spans(rs: seq<Replacement>): set<Span> {
    if rs == [] then {} else {rs[0].span} + Spans(rs[1..])
  }

  lemma {:induction false} SpansAreMembers(rs: seq<Replacement>, span: Span)
    ensures span in Spans(rs) <==> exists x :: x in rs && x.span == span
  {
    if rs != [] {
      SpansAreMembers(rs[1..], span);
      if rs[0].span == span {
        assert rs[0] in rs;
      } else {
        assert forall x :: x in rs ==> x == rs[0] || x in rs[1..];
        assert forall x :: x in rs[1..] ==> x in rs;
      }
    }
  }

  lemma {:induction false} ElsewhereSpans(rs: seq<Replacement>, span: Span)
    ensures Spans(Elsewhere(rs, span)) == Spans(rs) - {span}
  {
    if rs != [] {
      ElsewhereSpans(rs[1..], span);
      var rest := Elsewhere(rs[1..], span);
      assert ([rs[0]] + rest)[1..] == rest;
    }
  }

  lemma {:induction false} CoalescedSpans(rs: seq<Replacement>)
    ensures Spans(Coalesced(rs)) == Spans(rs)
    ensures OneInsertionPerPoint(Coalesced(rs))
    decreases |rs|
  {
    if rs != [] {
      var rest := if IsInsertion(rs[0]) then Elsewhere(rs[1..], rs[0].span) else rs[1..];
      ElsewhereShrinks(rs[1..], rs[0].span);
      ElsewhereSpans(rs[1..], rs[0].span);
      CoalescedSpans(rest);
      var cs := Coalesced(rs);
      assert cs == [cs[0]] + Coalesced(rest) && cs[1..] == Coalesced(rest);
      forall i, j | 0 <= i < j < |cs| && IsInsertion(cs[i]) ensures cs[i].span != cs[j].span {
        assert cs[j] == Coalesced(rest)[j - 1];
        if i > 0 {
          assert cs[i] == Coalesced(rest)[i - 1];
        } else {
          SpansAreMembers(Coalesced(rest), cs[j].span);
          assert Coalesced(rest)[j - 1] in Coalesced(rest);
        }
      }
    }
  }

  ghost predicate ApartFromAll(span: Span, rs: seq<Replacement>) {
    forall s :: s in Spans(rs) ==> Apart(span, s)
  }

  lemma WellFormedHead(size: nat, r: Replacement, rs: seq<Replacement>)
    ensures WellFormed(size, [r] + rs) <==> Fits(size, r.span) && ApartFromAll(r.span, rs) && WellFormed(size, rs)
  {
    if WellFormed(size, [r] + rs) {
      WellFormedParts(size, r, rs);
    }
    if Fits(size, r.span) && ApartFromAll(r.span, rs) && WellFormed(size, rs) {
      WellFormedWhole(size, r, rs);
    }
  }

  lemma WellFormedParts(size: nat, r: Replacement, rs: seq<Replacement>)
    requires WellFormed(size, [r] + rs)
    ensures Fits(size, r.span) && ApartFromAll(r.span, rs) && WellFormed(size, rs)
  {
    var all := [r] + rs;
    assert Fits(size, all[0].span);
    forall s | s in Spans(rs) ensures Apart(r.span, s) {
      SpansAreMembers(rs, s);
      var x :| x in rs && x.span == s;
      var k :| 0 <= k < |rs| && rs[k] == x;
      assert Apart(all[0].span, all[k + 1].span);
    }
    forall i, j | 0 <= i < j < |rs| ensures Apart(rs[i].span, rs[j].span) {
      assert Apart(all[i + 1].span, all[j + 1].span);
    }
    forall i | 0 <= i < |rs| ensures Fits(size, rs[i].span) {
      assert Fits(size, all[i + 1].span);
    }
  }

  lemma WellFormedWhole(size: nat, r: Replacement, rs: seq<Replacement>)
    requires Fits(size, r.span) && ApartFromAll(r.span, rs) && WellFormed(size, rs)
    ensures WellFormed(size, [r] + rs)
  {
    var all := [r] + rs;
    forall i, j | 0 <= i < j < |all| ensures Apart(all[i].span, all[j].span) {
      assert all[j] == rs[j - 1];
      if i == 0 {
        SpansAreMembers(rs, all[j].span);
        assert rs[j - 1] in rs;
      } else {
        assert Apart(rs[i - 1].span, rs[j - 1].span);
      }
    }
    forall i | 0 <= i < |all| ensures Fits(size, all[i].span) {
      if i > 0 {
        assert Fits(size, rs[i - 1].span);
      }
    }
  }

  lemma {:induction false} ElsewhereWellFormed(size: nat, rs: seq<Replacement>, span: Span)
    requires span.begin == span.end && Fits(size, span) && ApartFromAll(span, rs)
    ensures WellFormed(size, Elsewhere(rs, span)) <==> WellFormed(size, rs)
  {
    if rs != [] {
      var rest := Elsewhere(rs[1..], span);
      ElsewhereWellFormed(size, rs[1..], span);
      ElsewhereSpans(rs[1..], span);
      assert rs == [rs[0]] + rs[1..];
      WellFormedHead(size, rs[0], rs[1..]);
      WellFormedHead(size, rs[0], rest);
      ApartWithOneMore(rs[0].span, span, rs[1..]);
    }
  }

  lemma ApartWithOneMore(a: Span, span: Span, rs: seq<Replacement>)
    requires Apart(span, a) && span.begin == span.end
    ensures ApartFromAll(a, Elsewhere(rs, span)) <==> ApartFromAll(a, rs)
  {
    ElsewhereSpans(rs, span);
  }

  lemma {:induction false} CoalescedWellFormed(size: nat, rs: seq<Replacement>)
    ensures WellFormed(size, Coalesced(rs)) <==> WellFormed(size, rs)
    decreases |rs|
  {
    if rs != [] {
      var r, tail := rs[0], rs[1..];
      var rest := if IsInsertion(r) then Elsewhere(tail, r.span) else tail;
      ElsewhereShrinks(tail, r.span);
      CoalescedWellFormed(size, rest);
      CoalescedSpans(rest);
      var cs := Coalesced(rs);
      assert cs == [cs[0]] + Coalesced(rest) && cs[0].span == r.span;
      assert rs == [r] + tail;
      WellFormedHead(size, cs[0], Coalesced(rest));
      WellFormedHead(size, r, tail);
      if IsInsertion(r) {
        ApartWithOneMore(r.span, r.span, tail);
        if Fits(size, r.span) && ApartFromAll(r.span, tail) {
          ElsewhereWellFormed(size, tail, r.span);
        }
      }
    }
  }

  // ---------------------------------------------------------------------------
  // Splicing

  lemma {:induction false} InsertTextAppend(rs: seq<Replacement>, r: Replacement, point: nat)
    ensures InsertText(rs + [r], point)
         == InsertText(rs, point) + if r.span == Span(point, point) then r.text else []
  {
    if rs != [] {
      InsertTextAppend(rs[1..], r, point);
      assert (rs + [r])[1..] == rs[1..] + [r];
    } else {
      assert rs + [r] == [r];
      assert [r][1..] == [];
    }
  }

  lemma {:induction false} StartingAtAppend(rs: seq<Replacement>, r: Replacement, point: nat)
    ensures StartingAt(rs + [r], point)
         == if StartingAt(rs, point).Some? then StartingAt(rs, point)
            else if r.span.begin == point < r.span.end then Some(r) else None
  {
    if rs != [] {
      StartingAtAppend(rs[1..], r, point);
      assert (rs + [r])[1..] == rs[1..] + [r];
    } else {
      assert rs + [r] == [r];
    }
  }

  /** A replacement that starts before `i` does not matter from `i` on. */
  lemma {:induction false} EarlierIgnored(doc: ByteString, rs: seq<Replacement>, r: Replacement, i: nat)
    requires r.span.begin < i <= |doc|
    ensures Substituted(doc, rs + [r], i) == Substituted(doc, rs, i)
    decreases |doc| - i
  {
    InsertTextAppend(rs, r, i);
    StartingAtAppend(rs, r, i);
    match StartingAt(rs, i) {
      case Some(x) =>
        if x.span.end <= |doc| {
          EarlierIgnored(doc, rs, r, x.span.end);
        }
      case None =>
        if i < |doc| {
          EarlierIgnored(doc, rs, r, i + 1);
        }
    }
  }

  /** Where no replacement starts, the document is copied. */
  lemma {:induction false} CopiedUpTo(doc: ByteString, rs: seq<Replacement>, i: nat, j: nat)
    requires i <= j <= |doc|
    requires forall x :: x in rs ==> !(i <= x.span.begin < j)
    ensures Substituted(doc, rs, i) == doc[i..j] + Substituted(doc, rs, j)
    decreases j - i
  {
    if i < j {
      NoInsertionAt(rs, i);
      CopiedUpTo(doc, rs, i + 1, j);
      assert doc[i..j] == [doc[i]] + doc[i + 1..j];
    }
  }

  /** Splicing one more replacement keeps "original prefix, then the substitution
      of what has been spliced so far". */
  lemma SpliceOne(doc: ByteString, done: seq<Replacement>, boundary: nat, r: Replacement)
    requires boundary <= |doc| && r.span.begin <= r.span.end <= boundary
    requires forall x :: x in done ==> x.span.begin >= boundary
    requires IsInsertion(r) ==> forall x :: x in done ==> x.span != r.span
    ensures var candidate := doc[..boundary] + Substituted(doc, done, boundary);
      candidate[..r.span.begin] + r.text + candidate[r.span.end..]
      == doc[..r.span.begin] + Substituted(doc, done + [r], r.span.begin)
  {
    var candidate := doc[..boundary] + Substituted(doc, done, boundary);
    var b, e := r.span.begin, r.span.end;
    assert candidate[..b] == doc[..b];
    assert candidate[e..] == doc[e..boundary] + Substituted(doc, done, boundary);
    CopiedUpTo(doc, done, e, boundary);
    assert candidate[e..] == Substituted(doc, done, e);
    InsertTextAppend(done, r, b);
    StartingAtAppend(done, r, b);
    if IsInsertion(r) {
      NoInsertionAt(done, b);
      assert InsertText(done + [r], b) == r.text;
      assert StartingAt(done + [r], b) == StartingAt(done, b);
      InsertionFirst(doc, done, r);
    } else {
      NoInsertionAt(done, b);
      assert StartingAt(done, b).None?;
      EarlierIgnored(doc, done, r, e);
    }
    assert r.text + candidate[e..] == Substituted(doc, done + [r], b);
  }

  /** An insertion precedes whatever else happens at its point. */
  lemma InsertionFirst(doc: ByteString, done: seq<Replacement>, r: Replacement)
    requires IsInsertion(r) && r.span.begin <= |doc|
    requires InsertText(done, r.span.begin) == []
    ensures Substituted(doc, done + [r], r.span.begin) == r.text + Substituted(doc, done, r.span.begin)
  {
    var p := r.span.begin;
    InsertTextAppend(done, r, p);
    OnwardIgnores(doc, done, r);
    SubstitutedStep(doc, done, p);
    SubstitutedStep(doc, done + [r], p);
    assert [] + r.text == r.text;
    assert [] + Onward(doc, done, p) == Onward(doc, done, p);
  }

  lemma OnwardIgnores(doc: ByteString, done: seq<Replacement>, r: Replacement)
    requires IsInsertion(r) && r.span.begin <= |doc|
    ensures Onward(doc, done + [r], r.span.begin) == Onward(doc, done, r.span.begin)
  {
    var p := r.span.begin;
    StartingAtAppend(done, r, p);
    match StartingAt(done, p) {
      case Some(x) =>
        if x.span.end <= |doc| {
          EarlierIgnored(doc, done, r, x.span.end);
        }
      case None =>
        if p < |doc| {
          EarlierIgnored(doc, done, r, p + 1);
        }
    }
  }

  lemma NewInsertionPoint(done: seq<Replacement>, todo: seq<Replacement>)
    requires todo != [] && OneInsertionPerPoint(done + todo)
    ensures IsInsertion(todo[0]) ==> forall x :: x in done ==> x.span != todo[0].span
  {
    var all := done + todo;
    forall x | x in done && IsInsertion(todo[0]) ensures x.span != todo[0].span {
      var k :| 0 <= k < |done| && done[k] == x;
      assert all[|done|] == todo[0] && all[k] == x;
      assert IsInsertion(all[k]) ==> all[k].span != all[|done|].span;
    }
  }

  lemma {:induction false} SpliceComputes(doc: ByteString, done: seq<Replacement>, boundary: nat, todo: seq<Replacement>)
    requires boundary <= |doc|
    requires forall x :: x in done ==> x.span.begin >= boundary
    requires OneInsertionPerPoint(done + todo)
    requires Chained(boundary, todo)
    ensures SpliceFrom(doc[..boundary] + Substituted(doc, done, boundary), boundary, todo)
         == Some(doc[..if todo == [] then boundary else todo[|todo| - 1].span.begin]
                 + Substituted(doc, done + todo, if todo == [] then boundary else todo[|todo| - 1].span.begin))
    decreases |todo|
  {
    if todo == [] {
      assert done + todo == done;
    } else {
      var r, rest := todo[0], todo[1..];
      ChainedTail(boundary, todo);
      assert done + todo == (done + [r]) + rest;
      NewInsertionPoint(done, todo);
      SpliceOne(doc, done, boundary, r);
      SpliceComputes(doc, done + [r], r.span.begin, rest);
      if rest != [] {
        assert rest[|rest| - 1] == todo[|todo| - 1];
      }
    }
  }

  /** For every way the sort may order the coalesced list, the splice accepts
      exactly the well-formed replacement lists, and then computes their
      simultaneous substitution. */
  lemma SpliceIsSimultaneousSubstitution(doc: ByteString, rs: seq<Replacement>, ds: seq<Replacement>)
    requires multiset(ds) == multiset(Coalesced(rs)) && Descending(ds)
    ensures SpliceFrom(doc, |doc|, ds)
         == if WellFormed(|doc|, rs) then Some(Substituted(doc, rs, 0)) else None
  {
    var cs := Coalesced(rs);
    CoalescedWellFormed(|doc|, rs);
    CoalescedSpans(rs);
    SpliceAcceptsChains(doc, |doc|, ds);
    DescendingChains(|doc|, ds);
    if WellFormed(|doc|, ds) {
      WellFormedReorders(|doc|, ds, cs);
    }
    if WellFormed(|doc|, rs) {
      WellFormedReorders(|doc|, cs, ds);
      OneInsertionReorders(cs, ds);
      SpliceDescending(doc, ds);
      forall p
        ensures InsertText(ds, p) == InsertText(rs, p)
        ensures StartingAt(ds, p) == StartingAt(rs, p)
      {
        LookupsReorder(|doc|, cs, ds, p);
        CoalescedLookups(rs, p);
      }
      SubstitutedByLookups(doc, ds, rs, 0);
    }
  }

  lemma MembersDiffer(cs: seq<Replacement>, a: Replacement, b: Replacement)
    requires OneInsertionPerPoint(cs) && a in cs && b in cs && a != b && IsInsertion(a)
    ensures a.span != b.span
  {
    var k :| 0 <= k < |cs| && cs[k] == a;
    var l :| 0 <= l < |cs| && cs[l] == b;
    if a.span == b.span {
      assert IsInsertion(cs[k]) && IsInsertion(cs[l]);
    }
  }

  lemma InsertionsOccurOnce(cs: seq<Replacement>, a: Replacement)
    requires OneInsertionPerPoint(cs) && IsInsertion(a)
    ensures multiset(cs)[a] <= 1
  {
    if multiset(cs)[a] >= 2 {
      var k, l := FindTwoOccurrences(cs, a);
      assert false;
    }
  }

  lemma OneInsertionReorders(cs: seq<Replacement>, ds: seq<Replacement>)
    requires multiset(cs) == multiset(ds) && OneInsertionPerPoint(cs)
    ensures OneInsertionPerPoint(ds)
  {
    SameMembers(cs, ds);
    forall i, j | 0 <= i < j < |ds| && IsInsertion(ds[i]) ensures ds[i].span != ds[j].span {
      InsertionsOccurOnce(cs, ds[i]);
      if ds[i] == ds[j] {
        TwoOccurrences(ds, i, j);
      } else {
        assert ds[i] in ds && ds[j] in ds;
        MembersDiffer(cs, ds[i], ds[j]);
      }
    }
  }

  lemma SpliceDescending(doc: ByteString, ds: seq<Replacement>)
    requires Chained(|doc|, ds) && OneInsertionPerPoint(ds)
    ensures SpliceFrom(doc, |doc|, ds) == Some(Substituted(doc, ds, 0))
  {
    assert [] + ds == ds;
    assert Substituted(doc, [], |doc|) == [];
    assert doc[..|doc|] + [] == doc;
    SpliceComputes(doc, [], |doc|, ds);
    var first := if ds == [] then |doc| else ds[|ds| - 1].span.begin;
    LastIsLeftmost(|doc|, ds);
    CopiedUpTo(doc, ds, 0, first);
    assert doc[0..first] == doc[..first];
  }

  lemma LastIsLeftmost(size: nat, ds: seq<Replacement>)
    requires Chained(size, ds)
    ensures ds != [] ==> ds[|ds| - 1].span.begin <= size
    ensures forall x :: x in ds ==> ds[|ds| - 1].span.begin <= x.span.begin
  {
    forall x | x in ds ensures ds[|ds| - 1].span.begin <= x.span.begin {
      var k :| 0 <= k < |ds| && ds[k] == x;
      assert Fits(size, ds[|ds| - 1].span);
      if k < |ds| - 1 {
        assert ds[|ds| - 1].span.end <= ds[k].span.begin;
      }
    }
    if ds != [] {
      assert Fits(size, ds[|ds| - 1].span);
    }
  }

  /** Without insertions, the order of the batch does not show in the bytes. */
  lemma ReplacementsCommute(doc: ByteString, rs: seq<Replacement>, ts: seq<Replacement>)
    requires multiset(rs) == multiset(ts)
    requires forall r :: r in rs ==> !IsInsertion(r)
    ensures WellFormed(|doc|, rs) <==> WellFormed(|doc|, ts)
    ensures WellFormed(|doc|, rs) ==> Substituted(doc, rs, 0) == Substituted(doc, ts, 0)
  {
    SameMembers(rs, ts);
    if WellFormed(|doc|, rs) {
      WellFormedReorders(|doc|, rs, ts);
      forall p
        ensures InsertText(rs, p) == InsertText(ts, p)
        ensures StartingAt(rs, p) == StartingAt(ts, p)
      {
        LookupsReorder(|doc|, rs, ts, p);
      }
      SubstitutedByLookups(doc, rs, ts, 0);
    }
    if WellFormed(|doc|, ts) {
      WellFormedReorders(|doc|, ts, rs);
    }
  }

  // ---------------------------------------------------------------------------
  // Survival of the bytes nobody replaced

  /** Position `i` is not inside a replaced span; a span may start or end there. */
  ghost predicate Boundary(rs: seq<Replacement>, i: nat) {
    forall r :: r in rs ==> !(r.span.begin < i < r.span.end)
  }

  ghost predicate Survives(rs: seq<Replacement>, i: nat) {
    forall r :: r in rs ==> !(r.span.begin <= i < r.span.end)
  }

  /** Where the byte at `i` ends up. */
  function NewIndex(doc: ByteString, rs: seq<Replacement>, i: nat): int
    requires i <= |doc|
  {
    |Substituted(doc, rs, 0)| - |Substituted(doc, rs, i)| + |InsertText(rs, i)|
  }

  ghost predicate IsSuffix(a: ByteString, b: ByteString) {
    |a| <= |b| && b[|b| - |a|..] == a
  }

  lemma SuffixExtends(a: ByteString, b: ByteString, front: ByteString, whole: ByteString)
    requires IsSuffix(a, b) && whole == front + b
    ensures IsSuffix(a, whole)
  {
    assert whole[|front|..] == b;
    assert whole[|whole| - |a|..] == b[|b| - |a|..];
  }

  lemma PieceOfReplacement(doc: ByteString, rs: seq<Replacement>, from: nat)
    requires from < |doc| && StartingAt(rs, from).Some? && StartingAt(rs, from).value.span.end <= |doc|
    ensures Substituted(doc, rs, from)
         == (InsertText(rs, from) + StartingAt(rs, from).value.text)
            + Substituted(doc, rs, StartingAt(rs, from).value.span.end)
  {
    SubstitutedStep(doc, rs, from);
    var r := StartingAt(rs, from).value;
    Associative(InsertText(rs, from), r.text, Substituted(doc, rs, r.span.end));
  }

  lemma PieceOfOriginal(doc: ByteString, rs: seq<Replacement>, from: nat)
    requires from < |doc| && StartingAt(rs, from).None?
    ensures Substituted(doc, rs, from) == (InsertText(rs, from) + [doc[from]]) + Substituted(doc, rs, from + 1)
  {
    SubstitutedStep(doc, rs, from);
    Associative(InsertText(rs, from), [doc[from]], Substituted(doc, rs, from + 1));
  }

  lemma BoundaryNext(rs: seq<Replacement>, from: nat)
    requires Boundary(rs, from) && StartingAt(rs, from).None?
    ensures Boundary(rs, from + 1)
  {
    forall x | x in rs ensures !(x.span.begin < from + 1 < x.span.end) {
      assert !(x.span.begin < from < x.span.end);
      if x.span.begin == from < x.span.end {
        StartingAtFinds(rs, x);
      }
    }
  }

  lemma {:induction false} SuffixFrom(doc: ByteString, rs: seq<Replacement>, from: nat, i: nat)
    requires WellFormed(|doc|, rs) && from <= i <= |doc|
    requires Boundary(rs, from) && Boundary(rs, i)
    ensures IsSuffix(Substituted(doc, rs, i), Substituted(doc, rs, from))
    decreases i - from
  {
    if from < i {
      var target, whole := Substituted(doc, rs, i), Substituted(doc, rs, from);
      match StartingAt(rs, from) {
        case Some(r) =>
          BoundaryAtEnd(doc, rs, r);
          SuffixFrom(doc, rs, r.span.end, i);
          PieceOfReplacement(doc, rs, from);
          SuffixExtends(target, Substituted(doc, rs, r.span.end), InsertText(rs, from) + r.text, whole);
        case None =>
          BoundaryNext(rs, from);
          SuffixFrom(doc, rs, from + 1, i);
          PieceOfOriginal(doc, rs, from);
          SuffixExtends(target, Substituted(doc, rs, from + 1), InsertText(rs, from) + [doc[from]], whole);
      }
    }
  }

  lemma BoundaryAtEnd(doc: ByteString, rs: seq<Replacement>, r: Replacement)
    requires WellFormed(|doc|, rs) && r in rs && r.span.begin < r.span.end
    ensures Boundary(rs, r.span.end) && r.span.end <= |doc|
  {
    var k :| 0 <= k < |rs| && rs[k] == r;
    assert Fits(|doc|, rs[k].span);
    forall x | x in rs ensures !(x.span.begin < r.span.end < x.span.end) {
      if x != r {
        MembersApart(|doc|, rs, r, x);
      }
    }
  }

  lemma SurvivorIsBoundary(rs: seq<Replacement>, i: nat)
    requires Survives(rs, i)
    ensures Boundary(rs, i) && Boundary(rs, i + 1) && StartingAt(rs, i).None?
  {
    forall x | x in rs
      ensures !(x.span.begin < i < x.span.end) && !(x.span.begin < i + 1 < x.span.end)
    {
      assert !(x.span.begin <= i < x.span.end);
    }
  }

  lemma SurvivorsAreCopied(doc: ByteString, rs: seq<Replacement>, i: nat)
    requires WellFormed(|doc|, rs) && i < |doc| && Survives(rs, i)
    ensures 0 <= NewIndex(doc, rs, i) < |Substituted(doc, rs, 0)|
    ensures Substituted(doc, rs, 0)[NewIndex(doc, rs, i)] == doc[i]
  {
    SurvivorIsBoundary(rs, i);
    SuffixFrom(doc, rs, 0, i);
    var whole, suffix := Substituted(doc, rs, 0), Substituted(doc, rs, i);
    assert suffix[|InsertText(rs, i)|] == doc[i];
    assert whole[|whole| - |suffix|..][|InsertText(rs, i)|] == whole[NewIndex(doc, rs, i)];
  }

  /** Every byte outside the replaced spans is in the result, and in order. */
  lemma SurvivorsKeepOrder(doc: ByteString, rs: seq<Replacement>, i: nat, j: nat)
    requires WellFormed(|doc|, rs) && i < j < |doc| && Survives(rs, i) && Survives(rs, j)
    ensures 0 <= NewIndex(doc, rs, i) < NewIndex(doc, rs, j) < |Substituted(doc, rs, 0)|
    ensures Substituted(doc, rs, 0)[NewIndex(doc, rs, i)] == doc[i]
    ensures Substituted(doc, rs, 0)[NewIndex(doc, rs, j)] == doc[j]
  {
    SurvivorsAreCopied(doc, rs, i);
    SurvivorsAreCopied(doc, rs, j);
    SurvivorIsBoundary(rs, i);
    SurvivorIsBoundary(rs, j);
    SuffixFrom(doc, rs, i + 1, j);
    PieceOfOriginal(doc, rs, i);
  }
}
