/** What a candidate binds, where each binding comes from, and its headers. */
module FragmentBindings {
  import opened Bytes
  import opened Splice
  import opened Documents
  import opened Patch
  import opened PatchProperties
  import opened Fragment
  import opened FragmentLines
  import opened FragmentFrame
  import opened FragmentTally
  import opened FragmentPlan
  import opened FragmentPatch
  import opened FragmentLiterals
  import opened FragmentInsertion
  import opened FragmentReading
  import opened FragmentItems
  import opened FragmentCandidate

  // ---------------------------------------------------------------------------
  // The headers of the candidate

  /** The headers the insertions bring, in the map's order. */
  function NewHeaders(current: Snapshot, insertions: Insertions): seq<KeyPath> {
    if insertions == [] then []
    else
      var last := |insertions| - 1;
      NewHeaders(current, insertions[..last])
      + if PointOf(TOML, current, insertions[last].0).None? then [insertions[last].0] else []
  }

  lemma {:induction false} EndHeaders(current: Snapshot, batch: seq<Edit>, insertions: Insertions, section: KeyPath)
    ensures EndReading(current, batch, insertions, section).headers == NewHeaders(current, insertions)
    decreases |insertions|
  {
    hide PointOf, RowsOf, Bound;
    if insertions != [] {
      EndHeaders(current, batch, insertions[..|insertions| - 1], section);
    }
  }

  lemma JoinedHeaders(current: Snapshot, batch: seq<Edit>, rows: seq<Row>, kind: LineKind, section: KeyPath, rest: Reading)
    ensures Joined(RowReading(section, rows), Joined(LineAfter(current, batch, kind, section), rest)).headers
         == HeaderOf(kind) + rest.headers
    ensures Joined(RowReading(section, rows), Joined(LineAfter(current, batch, kind, section), rest)).bindings
         == Bound(section, rows) + (LineAfter(current, batch, kind, section).bindings + rest.bindings)
  {
    hide After, Bound;
    assert [] + rest.headers == rest.headers;
    assert [] + (HeaderOf(kind) + rest.headers) == HeaderOf(kind) + rest.headers;
  }

  /** No header is lost, and each headerless table that receives keys gets one. */
  lemma {:induction false} ExpectedHeaders(current: Snapshot, batch: seq<Edit>, insertions: Insertions, i: nat, section: KeyPath)
    requires i <= |current.revision.bytes|
    ensures Expected(current, batch, insertions, i, section).headers
         == HeadersFrom(current.revision.bytes, i) + NewHeaders(current, insertions)
    decreases |current.revision.bytes| - i
  {
    hide *;
    var doc := current.revision.bytes;
    if i == |doc| {
      ExpectedEnd(current, batch, insertions, section);
      EndHeaders(current, batch, insertions, section);
      NoHeaders(doc);
      assert [] + NewHeaders(current, insertions) == NewHeaders(current, insertions);
    } else {
      var n, kind := NextLine(doc, i), Classify(doc[i..NextLine(doc, i)]);
      NextLineInside(doc, i);
      var later := SectionAfter(kind, section);
      ExpectedStep(current, batch, insertions, i, section);
      ExpectedHeaders(current, batch, insertions, n, later);
      JoinedHeaders(current, batch, RowsAt(current, batch, i, section), kind, section,
                    Expected(current, batch, insertions, n, later));
      HeadersStep(doc, i);
      Associative(HeaderOf(kind), HeadersFrom(doc, n), NewHeaders(current, insertions));
    }
  }

  lemma {:induction false} NewHeadersMeaning(current: Snapshot, insertions: Insertions)
    requires Sorted(insertions)
    ensures forall parent :: parent in NewHeaders(current, insertions) <==>
      HasTable(insertions, parent) && PointOf(TOML, current, parent).None?
    ensures Distinct(NewHeaders(current, insertions))
    decreases |insertions|
  {
    hide PointOf, PathLess, HasTable;
    if insertions == [] {
      EmptyTables([], []);
    } else {
      var last := |insertions| - 1;
      var front, name := insertions[..last], insertions[last].0;
      TextForLast(insertions, name);
      NewHeadersMeaning(current, front);
      TableAt(insertions, last);
      forall parent
        ensures parent in NewHeaders(current, insertions) <==>
          HasTable(insertions, parent) && PointOf(TOML, current, parent).None?
      {
        TextForLast(insertions, parent);
      }
      if PointOf(TOML, current, name).None? {
        assert name !in NewHeaders(current, front);
        DistinctMore(NewHeaders(current, front), name);
      } else {
        assert NewHeaders(current, front) + [] == NewHeaders(current, front);
      }
    }
  }

  lemma DistinctMore(s: seq<KeyPath>, x: KeyPath)
    requires Distinct(s) && x !in s
    ensures Distinct(s + [x])
  {}

  // ---------------------------------------------------------------------------
  // The bindings of the candidate

  lemma BoundMember(section: KeyPath, rows: seq<Row>, row: Row)
    requires row in rows
    ensures (section + [row.0], row.1) in Bound(section, rows)
  {
    var k :| 0 <= k < |rows| && rows[k] == row;
    assert Bound(section, rows)[k] == (section + [row.0], row.1);
  }

  lemma MemberBound(section: KeyPath, rows: seq<Row>, b: Binding) returns (row: Row)
    requires b in Bound(section, rows)
    ensures row in rows && b == (section + [row.0], row.1)
  {
    var k :| 0 <= k < |rows| && Bound(section, rows)[k] == b;
    row := rows[k];
  }

  /** The section in force at the end of the document. */
  function FinalSection(doc: ByteString, i: nat, section: KeyPath): KeyPath
    requires i <= |doc|
    decreases |doc| - i
  {
    if i == |doc| then section
    else FinalSection(doc, NextLine(doc, i), SectionAfter(Classify(doc[i..NextLine(doc, i)]), section))
  }

  lemma FinalStep(doc: ByteString, i: nat, section: KeyPath)
    requires i < |doc|
    ensures FinalSection(doc, i, section)
         == FinalSection(doc, NextLine(doc, i), SectionAfter(Classify(doc[i..NextLine(doc, i)]), section))
  {
    hide Classify, NextLine;
  }

  lemma {:induction false} FinalInSection(doc: ByteString, i: nat, section: KeyPath)
    requires i <= |doc| && (i == |doc| || LineStart(doc, i)) && InSection(doc, i, section)
    ensures InSection(doc, |doc|, FinalSection(doc, i, section))
    decreases |doc| - i
  {
    hide Classify, NextLine, InSection, LineStart;
    if i < |doc| {
      NextLineInside(doc, i);
      NextLineStarts(doc, i);
      InSectionNext(doc, i, section);
      FinalInSection(doc, NextLine(doc, i), SectionAfter(Classify(doc[i..NextLine(doc, i)]), section));
    }
  }

  /** One line of what is expected: its rows, its own binding, and the rest. */
  lemma ExpectedMembers(current: Snapshot, batch: seq<Edit>, insertions: Insertions, i: nat, section: KeyPath)
    requires i < |current.revision.bytes|
    ensures var doc := current.revision.bytes;
      var kind := Classify(doc[i..NextLine(doc, i)]);
      forall b :: b in Expected(current, batch, insertions, i, section).bindings <==>
        || b in Bound(section, RowsAt(current, batch, i, section))
        || b in LineAfter(current, batch, kind, section).bindings
        || b in Expected(current, batch, insertions, NextLine(doc, i), SectionAfter(kind, section)).bindings
  {
    hide *;
    var doc := current.revision.bytes;
    var kind := Classify(doc[i..NextLine(doc, i)]);
    ExpectedStep(current, batch, insertions, i, section);
    JoinedHeaders(current, batch, RowsAt(current, batch, i, section), kind, section,
                  Expected(current, batch, insertions, NextLine(doc, i), SectionAfter(kind, section)));
  }

  /** Everything bound at the end is bound. */
  lemma {:induction false} ExpectedHoldsEnd(current: Snapshot, batch: seq<Edit>, insertions: Insertions, i: nat,
                                            section: KeyPath, b: Binding)
    requires i <= |current.revision.bytes|
    requires b in EndReading(current, batch, insertions, FinalSection(current.revision.bytes, i, section)).bindings
    ensures b in Expected(current, batch, insertions, i, section).bindings
    decreases |current.revision.bytes| - i
  {
    hide *;
    var doc := current.revision.bytes;
    if i == |doc| {
      ExpectedEnd(current, batch, insertions, section);
      FinalEnd(doc, section);
    } else {
      NextLineInside(doc, i);
      FinalStep(doc, i, section);
      ExpectedMembers(current, batch, insertions, i, section);
      ExpectedHoldsEnd(current, batch, insertions, NextLine(doc, i),
                       SectionAfter(Classify(doc[i..NextLine(doc, i)]), section), b);
    }
  }

  lemma FinalEnd(doc: ByteString, section: KeyPath)
    ensures FinalSection(doc, |doc|, section) == section
  {}

  /** A binding of the document is bound to the value it should have. */
  lemma {:induction false} ExpectedHoldsKept(current: Snapshot, batch: seq<Edit>, insertions: Insertions, i: nat,
                                             section: KeyPath, x: Located, value: Value)
    requires i <= |current.revision.bytes| && Locate(current.revision.bytes, i, section).Some?
    requires x in Locate(current.revision.bytes, i, section).value
    requires After(current, batch, x.key) == Some(value)
    ensures (x.key, value) in Expected(current, batch, insertions, i, section).bindings
    decreases |current.revision.bytes| - i
  {
    hide *;
    var doc := current.revision.bytes;
    if i == |doc| {
      LocateEnd(doc, section);
    } else {
      var kind := Classify(doc[i..NextLine(doc, i)]);
      NextLineInside(doc, i);
      LocateStep(doc, i, section);
      ExpectedMembers(current, batch, insertions, i, section);
      if x in Locate(doc, NextLine(doc, i), SectionAfter(kind, section)).value {
        ExpectedHoldsKept(current, batch, insertions, NextLine(doc, i), SectionAfter(kind, section), x, value);
      } else {
        LineBinds(current, batch, kind, section, value);
      }
    }
  }

  lemma LineBinds(current: Snapshot, batch: seq<Edit>, kind: LineKind, section: KeyPath, value: Value)
    requires kind.Assign? && After(current, batch, section + [kind.key]) == Some(value)
    ensures (section + [kind.key], value) in LineAfter(current, batch, kind, section).bindings
  {
    hide After;
  }

  lemma StartsAfter(doc: ByteString, from: nat, h: nat)
    requires from < h < |doc| && LineStart(doc, h)
    ensures NextLine(doc, from) <= h && LineStart(doc, NextLine(doc, from))
  {
    LinesDoNotOverlap(doc, from, h);
    NextLineStarts(doc, from);
  }

  /** Rows inserted inside the document are bound under their table. */
  lemma {:induction false} ExpectedHoldsRow(current: Snapshot, batch: seq<Edit>, insertions: Insertions, i: nat,
                                            section: KeyPath, parent: KeyPath, row: Row)
    requires Parse(current.revision.bytes) == Some(current.overrides)
    requires i < |current.revision.bytes| && LineStart(current.revision.bytes, i)
    requires InSection(current.revision.bytes, i, section)
    requires var point := PointOf(TOML, current, parent);
      point.Some? && i <= point.value < |current.revision.bytes| && row in RowsOf(current, batch, parent)
    ensures (parent + [row.0], row.1) in Expected(current, batch, insertions, i, section).bindings
    decreases |current.revision.bytes| - i
  {
    hide *;
    var doc, p := current.revision.bytes, PointOf(TOML, current, parent).value;
    var kind := Classify(doc[i..NextLine(doc, i)]);
    ExpectedMembers(current, batch, insertions, i, section);
    if i == p {
      PointInSection(current, i, section, parent);
      RowsAtParts(current, batch, i, section);
      BoundMember(section, RowsOf(current, batch, parent), row);
    } else {
      PointInside(current, parent);
      StartsAfter(doc, i, p);
      NextLineInside(doc, i);
      InSectionNext(doc, i, section);
      ExpectedHoldsRow(current, batch, insertions, NextLine(doc, i), SectionAfter(kind, section), parent, row);
    }
  }

  /** Where a binding that is expected comes from. */
  lemma {:induction false} ExpectedOrigin(current: Snapshot, batch: seq<Edit>, insertions: Insertions, i: nat,
                                          section: KeyPath, b: Binding)
    returns (parent: KeyPath, row: Row)
    requires i <= |current.revision.bytes| && Locate(current.revision.bytes, i, section).Some?
    requires b in Expected(current, batch, insertions, i, section).bindings
    ensures var doc := current.revision.bytes;
      || (exists x :: x in Locate(doc, i, section).value && x.key == b.0)
      || (PointOf(TOML, current, parent).Some? && PointOf(TOML, current, parent).value < |doc|
          && row in RowsOf(current, batch, parent) && b == (parent + [row.0], row.1))
      || b in EndReading(current, batch, insertions, FinalSection(doc, i, section)).bindings
    decreases |current.revision.bytes| - i
  {
    hide *;
    var doc := current.revision.bytes;
    if i == |doc| {
      ExpectedEnd(current, batch, insertions, section);
      FinalEnd(doc, section);
      parent, row := [], ([], Boolean(true));
    } else {
      var kind := Classify(doc[i..NextLine(doc, i)]);
      NextLineInside(doc, i);
      LocateStep(doc, i, section);
      FinalStep(doc, i, section);
      ExpectedMembers(current, batch, insertions, i, section);
      if b in Bound(section, RowsAt(current, batch, i, section)) {
        parent := section;
        row := MemberBound(section, RowsAt(current, batch, i, section), b);
        RowsAtParts(current, batch, i, section);
      } else if b in LineAfter(current, batch, kind, section).bindings {
        parent, row := [], ([], Boolean(true));
        BoundByLine(current, batch, kind, section, b);
        var x := Located(section + [kind.key], kind.value, i, Span(i + kind.begin, i + kind.end));
        assert x in Locate(doc, i, section).value;
      } else {
        parent, row := ExpectedOrigin(current, batch, insertions, NextLine(doc, i), SectionAfter(kind, section), b);
        if x :| x in Locate(doc, NextLine(doc, i), SectionAfter(kind, section)).value && x.key == b.0 {
          assert x in Locate(doc, i, section).value;
        }
      }
    }
  }

  lemma BoundByLine(current: Snapshot, batch: seq<Edit>, kind: LineKind, section: KeyPath, b: Binding)
    requires b in LineAfter(current, batch, kind, section).bindings
    ensures kind.Assign? && b.0 == section + [kind.key]
  {
    hide After;
  }

  // ---------------------------------------------------------------------------
  // The bindings at the end

  lemma EndStep(current: Snapshot, batch: seq<Edit>, insertions: Insertions, section: KeyPath)
    requires insertions != []
    ensures var last := |insertions| - 1;
      var front := EndReading(current, batch, insertions[..last], section);
      var parent, all := insertions[last].0, EndReading(current, batch, insertions, section);
      var point, rows := PointOf(TOML, current, insertions[last].0), RowsOf(current, batch, insertions[last].0);
      && (point.None? ==> all.section == parent && all.bindings == front.bindings + Bound(parent, rows))
      && (point.Some? && point.value == |current.revision.bytes| ==>
           all.section == front.section && all.bindings == front.bindings + Bound(front.section, rows))
      && (point.Some? && point.value != |current.revision.bytes| ==> all == front)
  {
    hide PointOf, RowsOf, Bound;
  }

  /** The section in force is that of the last header brought along, if any. */
  lemma {:induction false} EndSection(current: Snapshot, batch: seq<Edit>, insertions: Insertions, section: KeyPath)
    ensures var later := EndReading(current, batch, insertions, section).section;
      || (later == section && forall other :: HasTable(insertions, other) ==> PointOf(TOML, current, other).Some?)
      || (HasTable(insertions, later) && PointOf(TOML, current, later).None?)
    decreases |insertions|
  {
    hide PointOf, EndReading, HasTable;
    if insertions == [] {
      EmptyTables([], []);
      EndNothing(current, batch, section);
    } else {
      var last := |insertions| - 1;
      EndStep(current, batch, insertions, section);
      EndSection(current, batch, insertions[..last], section);
      forall other ensures HasTable(insertions, other) <==> HasTable(insertions[..last], other) || other == insertions[last].0 {
        HasTableLast(insertions, other);
      }
    }
  }

  lemma EndNothing(current: Snapshot, batch: seq<Edit>, section: KeyPath)
    ensures EndReading(current, batch, [], section) == Reading([], [], section)
  {}

  lemma HasTableLast(insertions: Insertions, parent: KeyPath)
    requires insertions != []
    ensures var last := |insertions| - 1;
      HasTable(insertions, parent) <==> HasTable(insertions[..last], parent) || insertions[last].0 == parent
  {
    var front := insertions[..|insertions| - 1];
    if HasTable(front, parent) {
      var i :| 0 <= i < |front| && front[i].0 == parent;
      assert insertions[i].0 == parent;
    }
    if i :| 0 <= i < |insertions| && insertions[i].0 == parent {
      assert i < |front| ==> front[i] == insertions[i];
    }
  }

  /** No table without a header comes before this one. */
  ghost predicate NoneBefore(current: Snapshot, insertions: Insertions, parent: KeyPath) {
    forall other :: HasTable(insertions, other) && PathLess(other, parent) ==> PointOf(TOML, current, other).Some?
  }

  /** Rows at the end are bound under their table, unless another table's header has
      come in between. */
  lemma {:induction false} EndHoldsRow(current: Snapshot, batch: seq<Edit>, insertions: Insertions, section: KeyPath,
                                       parent: KeyPath, row: Row)
    requires Sorted(insertions) && HasTable(insertions, parent) && row in RowsOf(current, batch, parent)
    requires var point := PointOf(TOML, current, parent);
      || point.None?
      || (point.value == |current.revision.bytes| && parent == section && NoneBefore(current, insertions, parent))
    ensures (parent + [row.0], row.1) in EndReading(current, batch, insertions, section).bindings
    decreases |insertions|
  {
    hide PointOf, EndReading, HasTable, PathLess, RowsOf;
    if insertions == [] {
      EmptyTables([], []);
    } else {
      var last := |insertions| - 1;
      var front, name := insertions[..last], insertions[last].0;
      EndStep(current, batch, insertions, section);
      TextForLast(insertions, parent);
      forall other ensures HasTable(insertions, other) <==> HasTable(front, other) || other == name {
        HasTableLast(insertions, other);
      }
      if name == parent {
        EndSection(current, batch, front, section);
        var before := EndReading(current, batch, front, section).section;
        if PointOf(TOML, current, parent).Some? && before != section {
          FrontIsSmaller(insertions, before);
        }
        BoundMember(parent, RowsOf(current, batch, parent), row);
      } else {
        EndHoldsRow(current, batch, front, section, parent, row);
      }
    }
  }

  lemma FrontIsSmaller(insertions: Insertions, other: KeyPath)
    requires Sorted(insertions) && insertions != [] && HasTable(insertions[..|insertions| - 1], other)
    ensures PathLess(other, insertions[|insertions| - 1].0)
  {}

  /** When another header has come in between, the rows of the last table in the
      document are bound nowhere under it. */
  lemma {:induction false} EndLosesRow(current: Snapshot, batch: seq<Edit>, insertions: Insertions, section: KeyPath,
                                       parent: KeyPath, other: KeyPath, key: Key, value: Value)
    requires Sorted(insertions) && PathLess(other, parent)
    requires PointOf(TOML, current, parent) == Some(|current.revision.bytes|) && PointOf(TOML, current, other).None?
    requires HasTable(insertions, parent) ==> HasTable(insertions, other)
    requires forall table :: PointOf(TOML, current, table) == Some(|current.revision.bytes|) ==> table == parent
    ensures (parent + [key], value) !in EndReading(current, batch, insertions, section).bindings
    decreases |insertions|
  {
    hide PointOf, EndReading, HasTable, PathLess, RowsOf;
    if insertions == [] {
      EndNothing(current, batch, section);
    } else {
      var last := |insertions| - 1;
      var front, name := insertions[..last], insertions[last].0;
      EndStep(current, batch, insertions, section);
      TextForLast(insertions, parent);
      forall table ensures HasTable(insertions, table) <==> HasTable(front, table) || table == name {
        HasTableLast(insertions, table);
      }
      if HasTable(front, parent) && name == other {
        FrontIsSmaller(insertions, parent);
        PathOrder(other, parent);
      }
      EndLosesRow(current, batch, front, section, parent, other, key, value);
      var b := (parent + [key], value);
      if b in EndReading(current, batch, insertions, section).bindings {
        var before := EndReading(current, batch, front, section).section;
        var under := if name == parent then before else name;
        var row := MemberBound(under, RowsOf(current, batch, name), b);
        SameParent(under, row.0, parent, key);
        assert name == parent && before == parent;
        EndSection(current, batch, front, section);
        PathOrder(other, parent);
        assert false;
      }
    }
  }

  lemma SameParent(a: KeyPath, x: Key, b: KeyPath, y: Key)
    requires a + [x] == b + [y]
    ensures a == b && x == y
  {
    assert (a + [x])[..|a|] == a && (b + [y])[..|b|] == b;
    assert (a + [x])[|a|] == x && (b + [y])[|b|] == y;
  }
}
