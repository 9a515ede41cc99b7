/** The size of a splice, before it is made. */
module SpliceSize {
  import opened Bytes
  import opened Splice

  /** By how much the replacements lengthen the document. */
  function Growth(rs: seq<Replacement>): int {
    if rs == [] then 0
    else
      var r := rs[|rs| - 1];
      Growth(rs[..|rs| - 1]) + |r.text| - (r.span.end as int - r.span.begin as int)
  }

  lemma WellFormedFront(size: nat, rs: seq<Replacement>, r: Replacement)
    requires WellFormed(size, rs + [r])
    ensures WellFormed(size, rs) && Fits(size, r.span)
    ensures forall t :: t in rs ==> Apart(t.span, r.span) && Fits(size, t.span)
  {
    var all := rs + [r];
    assert all[|rs|] == r;
    forall i | 0 <= i < |rs| ensures Apart(rs[i].span, r.span) && Fits(size, rs[i].span) {
      assert all[i] == rs[i];
    }
    forall i, j | 0 <= i < j < |rs| ensures Apart(rs[i].span, rs[j].span) {
      assert all[i] == rs[i] && all[j] == rs[j];
    }
  }

  /** Beyond the place of a replacement nothing depends on it. */
  lemma {:induction false} BeyondIsSame(doc: ByteString, rs: seq<Replacement>, r: Replacement, i: nat)
    requires r.span.begin < i <= |doc|
    ensures Substituted(doc, rs + [r], i) == Substituted(doc, rs, i)
    decreases |doc| - i
  {
    hide InsertText, StartingAt;
    InsertTextAppend(rs, r, i);
    StartingAtAppend(rs, r, i);
    assert InsertText(rs, i) + [] == InsertText(rs, i);
    match StartingAt(rs, i) {
      case Some(t) =>
        if t.span.end <= |doc| {
          BeyondIsSame(doc, rs, r, t.span.end);
        }
      case None =>
        if i < |doc| {
          BeyondIsSame(doc, rs, r, i + 1);
        }
    }
  }

  /** Bytes that nothing starts at are copied. */
  lemma OnwardCopied(doc: ByteString, rs: seq<Replacement>, i: nat, j: nat)
    requires i < j <= |doc| && StartingAt(rs, i).None?
    requires forall t :: t in rs ==> !(i < t.span.begin < j)
    ensures Onward(doc, rs, i) == doc[i..j] + Substituted(doc, rs, j)
  {
    hide InsertText, StartingAt, Substituted;
    CopiedUpTo(doc, rs, i + 1, j);
    OnwardOne(doc, rs, i);
    Associative([doc[i]], doc[i + 1..j], Substituted(doc, rs, j));
    assert doc[i..j] == [doc[i]] + doc[i + 1..j];
  }

  lemma {:induction false} OneMoreSize(doc: ByteString, rs: seq<Replacement>, r: Replacement, i: nat)
    requires WellFormed(|doc|, rs + [r]) && i <= r.span.begin
    ensures r.span.begin <= r.span.end <= |doc|
    ensures |Substituted(doc, rs + [r], i)| == |Substituted(doc, rs, i)| + |r.text| - (r.span.end - r.span.begin)
    decreases |doc| - i
  {
    hide InsertText, StartingAt, Substituted, Onward;
    WellFormedFront(|doc|, rs, r);
    InsertTextAppend(rs, r, i);
    StartingAtAppend(rs, r, i);
    SubstitutedStep(doc, rs, i);
    SubstitutedStep(doc, rs + [r], i);
    if i == r.span.begin < r.span.end {
      OnwardCopied(doc, rs, i, r.span.end);
      BeyondIsSame(doc, rs, r, r.span.end);
      OnwardOver(doc, rs + [r], i, r);
    } else if i < r.span.begin {
      match StartingAt(rs, i) {
        case Some(t) =>
          assert t in rs;
          OneMoreSize(doc, rs, r, t.span.end);
          OnwardOver(doc, rs, i, t);
          OnwardOver(doc, rs + [r], i, t);
        case None =>
          OneMoreSize(doc, rs, r, i + 1);
          OnwardOne(doc, rs, i);
          OnwardOne(doc, rs + [r], i);
      }
    } else {
      OnwardBeyond(doc, rs, r);
    }
  }

  lemma OnwardOver(doc: ByteString, rs: seq<Replacement>, i: nat, r: Replacement)
    requires i <= |doc| && StartingAt(rs, i) == Some(r) && r.span.end <= |doc|
    ensures Onward(doc, rs, i) == r.text + Substituted(doc, rs, r.span.end)
  {}

  lemma OnwardOne(doc: ByteString, rs: seq<Replacement>, i: nat)
    requires i < |doc| && StartingAt(rs, i).None?
    ensures Onward(doc, rs, i) == [doc[i]] + Substituted(doc, rs, i + 1)
  {}

  lemma OnwardBeyond(doc: ByteString, rs: seq<Replacement>, r: Replacement)
    requires IsInsertion(r) && r.span.begin <= |doc|
    ensures Onward(doc, rs + [r], r.span.begin) == Onward(doc, rs, r.span.begin)
  {
    hide StartingAt, Substituted;
    var i := r.span.begin;
    StartingAtAppend(rs, r, i);
    match StartingAt(rs, i) {
      case Some(t) =>
        if t.span.end <= |doc| {
          BeyondIsSame(doc, rs, r, t.span.end);
        }
      case None =>
        if i < |doc| {
          BeyondIsSame(doc, rs, r, i + 1);
        }
    }
  }

  /** The size of the result is that of the document and the growth of each
      replacement. */
  lemma {:induction false} SubstitutedSize(doc: ByteString, rs: seq<Replacement>)
    requires WellFormed(|doc|, rs)
    ensures |Substituted(doc, rs, 0)| == |doc| + Growth(rs)
  {
    hide Substituted;
    if rs == [] {
      UnchangedSize(doc, 0);
    } else {
      var last := |rs| - 1;
      assert rs == rs[..last] + [rs[last]];
      WellFormedFront(|doc|, rs[..last], rs[last]);
      SubstitutedSize(doc, rs[..last]);
      OneMoreSize(doc, rs[..last], rs[last], 0);
    }
  }

  lemma {:induction false} UnchangedSize(doc: ByteString, i: nat)
    requires i <= |doc|
    ensures |Substituted(doc, [], i)| == |doc| - i
    decreases |doc| - i
  {
    if i < |doc| {
      UnchangedSize(doc, i + 1);
    }
  }
}
