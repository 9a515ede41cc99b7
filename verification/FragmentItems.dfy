/** What a plan inserts, table by table in the map's order, and where. */
module FragmentItems {
  import opened Bytes
  import opened Splice
  import opened Documents
  import opened Patch
  import opened PatchProperties
  import opened Fragment
  import opened FragmentLines
  import opened FragmentFrame
  import opened FragmentTally
  import opened FragmentPlan
  import opened FragmentLiterals
  import opened FragmentInsertion
  import opened FragmentReading

  // ---------------------------------------------------------------------------
  // The order of the map

  lemma {:induction false} BytesOrder(a: ByteString, b: ByteString)
    ensures a != b ==> BytesLess(a, b) || BytesLess(b, a)
    ensures BytesLess(a, b) ==> !BytesLess(b, a) && a != b
  {
    if a != [] && b != [] && a[0] == b[0] {
      BytesOrder(a[1..], b[1..]);
      assert a == [a[0]] + a[1..] && b == [b[0]] + b[1..];
    }
  }

  lemma {:induction false} BytesTransitive(a: ByteString, b: ByteString, c: ByteString)
    requires BytesLess(a, b) && BytesLess(b, c)
    ensures BytesLess(a, c)
  {
    if a != [] && a[0] == b[0] && b[0] == c[0] {
      BytesTransitive(a[1..], b[1..], c[1..]);
    }
  }

  /** The map's order is total and strict. */
  lemma {:induction false} PathOrder(a: KeyPath, b: KeyPath)
    ensures a != b ==> PathLess(a, b) || PathLess(b, a)
    ensures PathLess(a, b) ==> !PathLess(b, a) && a != b
  {
    hide BytesLess;
    if a != [] && b != [] {
      BytesOrder(a[0], b[0]);
      BytesOrder(b[0], a[0]);
      PathOrder(a[1..], b[1..]);
      assert a == [a[0]] + a[1..] && b == [b[0]] + b[1..];
    }
  }

  /** The byte strings agree up to `k`, where `a` ends or has the smaller byte. */
  predicate SmallerByte(a: ByteString, b: ByteString, k: nat) {
    k <= |a| && k < |b| && a[..k] == b[..k] && (k == |a| || a[k] < b[k])
  }

  lemma {:induction false} BytesAreLexicographic(a: ByteString, b: ByteString)
    ensures BytesLess(a, b) <==> exists k: nat :: SmallerByte(a, b, k)
  {
    if a != [] && b != [] && a[0] == b[0] {
      BytesAreLexicographic(a[1..], b[1..]);
      if k: nat :| SmallerByte(a[1..], b[1..], k) {
        assert a[..k + 1] == [a[0]] + a[1..][..k] && b[..k + 1] == [b[0]] + b[1..][..k];
        assert SmallerByte(a, b, k + 1);
      }
      if k: nat :| SmallerByte(a, b, k) {
        assert k > 0 && a[1..][..k - 1] == a[..k][1..] && b[1..][..k - 1] == b[..k][1..];
        assert SmallerByte(a[1..], b[1..], k - 1);
      }
    } else if BytesLess(a, b) {
      assert SmallerByte(a, b, 0);
    } else {
      forall k: nat ensures !SmallerByte(a, b, k) {
        if k > 0 && k <= |a| && k < |b| {
          assert a[..k][0] == a[0] && b[..k][0] == b[0];
        }
      }
    }
  }

  /** The paths agree up to component `k`, where `a` ends or has the smaller one. */
  ghost predicate SmallerKey(a: KeyPath, b: KeyPath, k: nat) {
    && k <= |a| && k < |b| && a[..k] == b[..k]
    && (k == |a| || exists n: nat :: SmallerByte(a[k], b[k], n))
  }

  /** Tables stand in the lexicographic order of their key paths, as in a `std::map`. */
  lemma {:induction false} PathsAreLexicographic(a: KeyPath, b: KeyPath)
    ensures PathLess(a, b) <==> exists k: nat :: SmallerKey(a, b, k)
  {
    hide BytesLess, SmallerByte;
    if a != [] && b != [] {
      BytesAreLexicographic(a[0], b[0]);
      BytesOrder(a[0], b[0]);
    }
    if a != [] && b != [] && a[0] == b[0] {
      PathsAreLexicographic(a[1..], b[1..]);
      if k: nat :| SmallerKey(a[1..], b[1..], k) {
        assert a[..k + 1] == [a[0]] + a[1..][..k] && b[..k + 1] == [b[0]] + b[1..][..k];
        assert SmallerKey(a, b, k + 1);
      }
      if k: nat :| SmallerKey(a, b, k) {
        assert k > 0 && a[1..][..k - 1] == a[..k][1..] && b[1..][..k - 1] == b[..k][1..];
        assert SmallerKey(a[1..], b[1..], k - 1);
      }
    } else if PathLess(a, b) {
      assert SmallerKey(a, b, 0);
    } else {
      forall k: nat ensures !SmallerKey(a, b, k) {
        if k > 0 && k <= |a| && k < |b| {
          assert a[..k][0] == a[0] && b[..k][0] == b[0];
        }
      }
    }
  }

  lemma {:induction false} PathTransitive(a: KeyPath, b: KeyPath, c: KeyPath)
    requires PathLess(a, b) && PathLess(b, c)
    ensures PathLess(a, c)
  {
    hide BytesLess;
    if a != [] {
      BytesOrder(a[0], a[0]);
      if a[0] == b[0] && b[0] == c[0] {
        PathTransitive(a[1..], b[1..], c[1..]);
      } else if a[0] != b[0] && b[0] != c[0] {
        BytesTransitive(a[0], b[0], c[0]);
      }
    }
  }

  // ---------------------------------------------------------------------------
  // Planned insertions

  ghost predicate Sorted(insertions: Insertions) {
    forall i, j :: 0 <= i < j < |insertions| ==> PathLess(insertions[i].0, insertions[j].0)
  }

  predicate HasTable(insertions: Insertions, parent: KeyPath) {
    exists i :: 0 <= i < |insertions| && insertions[i].0 == parent
  }

  /** The text planned for one table. */
  function TextFor(insertions: Insertions, parent: KeyPath): ByteString {
    if insertions == [] then []
    else if insertions[0].0 == parent then insertions[0].1
    else TextFor(insertions[1..], parent)
  }

  lemma SortedTail(insertions: Insertions)
    requires Sorted(insertions) && insertions != []
    ensures Sorted(insertions[1..])
    ensures forall i :: 0 < i < |insertions| ==> PathLess(insertions[0].0, insertions[i].0)
  {}

  lemma SortedCons(first: (KeyPath, ByteString), rest: Insertions)
    requires Sorted(rest) && forall i :: 0 <= i < |rest| ==> PathLess(first.0, rest[i].0)
    ensures Sorted([first] + rest)
  {
    var all := [first] + rest;
    forall i, j | 0 <= i < j < |all| ensures PathLess(all[i].0, all[j].0) {
      assert all[j] == rest[j - 1];
      if i > 0 {
        assert all[i] == rest[i - 1];
      }
    }
  }

  lemma HasTableCons(first: (KeyPath, ByteString), rest: Insertions, parent: KeyPath)
    ensures HasTable([first] + rest, parent) <==> first.0 == parent || HasTable(rest, parent)
    ensures TextFor([first] + rest, parent) == if first.0 == parent then first.1 else TextFor(rest, parent)
  {
    var all := [first] + rest;
    assert all[1..] == rest;
    if HasTable(rest, parent) {
      var i :| 0 <= i < |rest| && rest[i].0 == parent;
      assert all[i + 1].0 == parent;
    }
    if first.0 == parent {
      assert all[0].0 == parent;
    }
    if i :| 0 <= i < |all| && all[i].0 == parent {
      assert i == 0 || rest[i - 1] == all[i];
    }
  }

  lemma NoSuchTable(insertions: Insertions, parent: KeyPath)
    requires !HasTable(insertions, parent)
    ensures TextFor(insertions, parent) == []
  {
    if insertions != [] {
      assert insertions[0].0 != parent;
      HasTableCons(insertions[0], insertions[1..], parent);
      assert [insertions[0]] + insertions[1..] == insertions;
      NoSuchTable(insertions[1..], parent);
    }
  }

  /** Adding to one table's text keeps the order and the other tables. */
  lemma {:induction false} AppendedTables(insertions: Insertions, parent: KeyPath, text: ByteString)
    requires Sorted(insertions)
    ensures Sorted(Appended(insertions, parent, text))
    ensures forall other :: HasTable(Appended(insertions, parent, text), other) <==> HasTable(insertions, other) || other == parent
    ensures forall other :: TextFor(Appended(insertions, parent, text), other)
                         == TextFor(insertions, other) + if other == parent then text else []
  {
    hide PathLess, HasTable, TextFor;
    if insertions == [] {
      EmptyTables(parent, text);
    } else {
      var first, rest := insertions[0], insertions[1..];
      SortedTail(insertions);
      assert [first] + rest == insertions;
      if first.0 == parent {
        SortedCons((parent, first.1 + text), rest);
        forall other
          ensures HasTable(Appended(insertions, parent, text), other) <==> HasTable(insertions, other) || other == parent
          ensures TextFor(Appended(insertions, parent, text), other)
               == TextFor(insertions, other) + if other == parent then text else []
        {
          HasTableCons(first, rest, other);
          HasTableCons((parent, first.1 + text), rest, other);
        }
      } else if PathLess(parent, first.0) {
        SmallerThanAll(parent, insertions);
        SortedCons((parent, text), insertions);
        forall other
          ensures HasTable(Appended(insertions, parent, text), other) <==> HasTable(insertions, other) || other == parent
          ensures TextFor(Appended(insertions, parent, text), other)
               == TextFor(insertions, other) + if other == parent then text else []
        {
          HasTableCons((parent, text), insertions, other);
          if other == parent {
            NotAmongLarger(insertions, parent);
          }
        }
      } else {
        AppendedTables(rest, parent, text);
        var more := Appended(rest, parent, text);
        PathOrder(first.0, parent);
        forall i | 0 <= i < |more| ensures PathLess(first.0, more[i].0) {
          TableAt(more, i);
          if more[i].0 != parent {
            LargerThanFirst(insertions, more[i].0);
          }
        }
        SortedCons(first, more);
        forall other
          ensures HasTable(Appended(insertions, parent, text), other) <==> HasTable(insertions, other) || other == parent
          ensures TextFor(Appended(insertions, parent, text), other)
               == TextFor(insertions, other) + if other == parent then text else []
        {
          HasTableCons(first, rest, other);
          HasTableCons(first, more, other);
        }
      }
    }
  }

  lemma EmptyTables(parent: KeyPath, text: ByteString)
    ensures Sorted([(parent, text)])
    ensures forall other :: HasTable([(parent, text)], other) <==> other == parent
    ensures forall other :: TextFor([(parent, text)], other) == if other == parent then text else []
    ensures forall other :: !HasTable([], other) && TextFor([], other) == []
  {
    var one: Insertions, none: Insertions := [(parent, text)], [];
    assert one == [(parent, text)] + none;
    forall other
      ensures HasTable(one, other) <==> other == parent
      ensures TextFor(one, other) == if other == parent then text else []
    {
      HasTableCons((parent, text), none, other);
    }
  }

  lemma TableAt(insertions: Insertions, i: nat)
    requires i < |insertions|
    ensures HasTable(insertions, insertions[i].0)
  {}

  lemma LargerThanFirst(insertions: Insertions, parent: KeyPath)
    requires Sorted(insertions) && insertions != [] && HasTable(insertions[1..], parent)
    ensures PathLess(insertions[0].0, parent)
  {}

  lemma SmallerThanAll(parent: KeyPath, insertions: Insertions)
    requires Sorted(insertions) && insertions != [] && PathLess(parent, insertions[0].0)
    ensures forall i :: 0 <= i < |insertions| ==> PathLess(parent, insertions[i].0)
  {
    forall i | 0 <= i < |insertions| ensures PathLess(parent, insertions[i].0) {
      if i > 0 {
        PathTransitive(parent, insertions[0].0, insertions[i].0);
      }
    }
  }

  lemma NotAmongLarger(insertions: Insertions, parent: KeyPath)
    requires forall i :: 0 <= i < |insertions| ==> PathLess(parent, insertions[i].0)
    ensures !HasTable(insertions, parent) && TextFor(insertions, parent) == []
  {
    PathOrder(parent, parent);
    NoSuchTable(insertions, parent);
  }

  // ---------------------------------------------------------------------------
  // The rows of a table

  /** The edit adds a key to table `parent`. */
  predicate Adds(current: Snapshot, edit: Edit, parent: KeyPath) {
    && edit.pending.Some? && edit.key !in current.overrides
    && edit.key != [] && edit.key[..|edit.key| - 1] == parent
  }

  /** The table receives a new key. */
  predicate Receives(current: Snapshot, batch: seq<Edit>, parent: KeyPath) {
    exists k :: 0 <= k < |batch| && Adds(current, batch[k], parent)
  }

  /** The keys and values a table receives, in the order of the batch. */
  function RowsOf(current: Snapshot, batch: seq<Edit>, parent: KeyPath): seq<Row> {
    if batch == [] then []
    else
      var last := |batch| - 1;
      var edit := batch[last];
      RowsOf(current, batch[..last], parent)
      + if Adds(current, edit, parent) then [(edit.key[|edit.key| - 1], edit.pending.value)] else []
  }

  predicate LiteralEdits(edits: seq<Edit>) {
    forall k :: 0 <= k < |edits| && edits[k].pending.Some? ==> Literal(edits[k].pending.value)
  }

  lemma {:induction false} RowsAreLiteral(current: Snapshot, batch: seq<Edit>, parent: KeyPath)
    requires LiteralEdits(batch)
    ensures LiteralRows(RowsOf(current, batch, parent))
  {
    hide Literal;
    if batch != [] {
      RowsAreLiteral(current, batch[..|batch| - 1], parent);
    }
  }

  /** The rows of a table are its new keys with their pending values. */
  lemma {:induction false} RowsMeaning(current: Snapshot, batch: seq<Edit>, parent: KeyPath, key: Key, value: Value)
    ensures (key, value) in RowsOf(current, batch, parent) <==>
      exists k :: 0 <= k < |batch| && Adds(current, batch[k], parent)
        && batch[k].key == parent + [key] && batch[k].pending == Some(value)
  {
    hide Adds;
    if batch != [] {
      var last := |batch| - 1;
      var front, edit := batch[..last], batch[last];
      RowsMeaning(current, front, parent, key, value);
      if Adds(current, edit, parent) {
        AddsKey(current, edit, parent);
      }
      if (key, value) in RowsOf(current, front, parent) {
        var k :| 0 <= k < |front| && Adds(current, front[k], parent)
          && front[k].key == parent + [key] && front[k].pending == Some(value);
        assert batch[k] == front[k];
      } else if (key, value) in RowsOf(current, batch, parent) {
        assert Adds(current, batch[last], parent);
      }
      if k :| 0 <= k < |batch| && Adds(current, batch[k], parent)
              && batch[k].key == parent + [key] && batch[k].pending == Some(value)
      {
        if k < last {
          assert front[k] == batch[k];
        } else {
          assert (parent + [key])[|parent|] == key;
        }
      }
    }
  }

  lemma AddsKey(current: Snapshot, edit: Edit, parent: KeyPath)
    requires Adds(current, edit, parent)
    ensures edit.key != [] && edit.pending.Some? && edit.key == parent + [edit.key[|edit.key| - 1]]
    ensures edit.key[..|edit.key| - 1] == parent && edit.key !in current.overrides
  {}

  lemma LinesOfMore(doc: ByteString, rows: seq<Row>, row: Row)
    ensures LinesOf(doc, rows + [row]) == LinesOf(doc, rows) + InsertedLine(TOML, doc, row.0, row.1)
  {
    assert (rows + [row])[..|rows|] == rows;
  }

  lemma ReceivesMore(current: Snapshot, batch: seq<Edit>, parent: KeyPath)
    requires batch != []
    ensures var last := |batch| - 1;
      Receives(current, batch, parent) <==> Receives(current, batch[..last], parent) || Adds(current, batch[last], parent)
  {
    hide Adds;
    var front := batch[..|batch| - 1];
    if Receives(current, front, parent) {
      var k :| 0 <= k < |front| && Adds(current, front[k], parent);
      assert Adds(current, batch[k], parent);
    }
    if k :| 0 <= k < |batch| && Adds(current, batch[k], parent) {
      assert k < |front| ==> front[k] == batch[k];
    }
  }

  /** The plan inserts, in the map's order, exactly the tables that receive keys, each
      with one line per row. */
  ghost predicate Tables(current: Snapshot, batch: seq<Edit>, insertions: Insertions) {
    && Sorted(insertions)
    && (forall parent :: HasTable(insertions, parent) <==> Receives(current, batch, parent))
    && forall parent :: TextFor(insertions, parent) == LinesOf(current.revision.bytes, RowsOf(current, batch, parent))
  }

  lemma {:induction false} PlannedTables(current: Snapshot, batch: seq<Edit>)
    requires PlanAll(TOML, current, batch).Some? && PlanAll(TOML, current, batch).value.conflicts == []
    ensures Tables(current, batch, PlanAll(TOML, current, batch).value.insertions)
    decreases |batch|
  {
    hide PlanOne, KeyUsed, InsertedLine, Appended, Adds, HasTable, TextFor, Receives;
    if batch == [] {
      NoTables(current);
    } else {
      var last := |batch| - 1;
      var front, edit := batch[..last], batch[last];
      ConflictsGrow(current, edit, PlanAll(TOML, current, front).value);
      PlannedTables(current, front);
      TablesStep(current, batch, PlanAll(TOML, current, front).value.insertions,
                 PlanAll(TOML, current, batch).value.insertions);
    }
  }

  lemma NoTables(current: Snapshot)
    ensures Tables(current, [], [])
  {}

  lemma AddsParent(current: Snapshot, edit: Edit)
    requires edit.key != []
    ensures forall parent :: Adds(current, edit, parent) <==>
      edit.pending.Some? && edit.key !in current.overrides && edit.key[..|edit.key| - 1] == parent
  {}

  lemma TablesStep(current: Snapshot, batch: seq<Edit>, before: Insertions, after: Insertions)
    requires batch != [] && batch[|batch| - 1].key != []
    requires Tables(current, batch[..|batch| - 1], before)
    requires var edit := batch[|batch| - 1];
      after == if edit.key !in current.overrides && edit.pending.Some?
               then Appended(before, edit.key[..|edit.key| - 1],
                             InsertedLine(TOML, current.revision.bytes, edit.key[|edit.key| - 1], edit.pending.value))
               else before
    ensures Tables(current, batch, after)
  {
    hide *;
    var doc, last := current.revision.bytes, |batch| - 1;
    var front, edit := batch[..last], batch[last];
    TablesParts(current, front, before);
    AddsParent(current, edit);
    var adds := edit.key !in current.overrides && edit.pending.Some?;
    var parent := edit.key[..|edit.key| - 1];
    if adds {
      AppendedTables(before, parent, InsertedLine(TOML, doc, edit.key[|edit.key| - 1], edit.pending.value));
    }
    forall other
      ensures HasTable(after, other) <==> Receives(current, batch, other)
      ensures TextFor(after, other) == LinesOf(doc, RowsOf(current, batch, other))
    {
      ReceivesMore(current, batch, other);
      RowsMore(current, batch, other);
      if adds && other == parent {
        LinesOfMore(doc, RowsOf(current, front, other), (edit.key[|edit.key| - 1], edit.pending.value));
      }
    }
    TablesOf(current, batch, after);
  }

  lemma RowsMore(current: Snapshot, batch: seq<Edit>, parent: KeyPath)
    requires batch != [] && batch[|batch| - 1].key != []
    ensures var edit := batch[|batch| - 1];
      && (Adds(current, edit, parent) ==>
           && edit.pending.Some?
           && RowsOf(current, batch, parent)
              == RowsOf(current, batch[..|batch| - 1], parent) + [(edit.key[|edit.key| - 1], edit.pending.value)])
      && (!Adds(current, edit, parent) ==> RowsOf(current, batch, parent) == RowsOf(current, batch[..|batch| - 1], parent))
  {}

  lemma TablesParts(current: Snapshot, batch: seq<Edit>, insertions: Insertions)
    requires Tables(current, batch, insertions)
    ensures Sorted(insertions)
    ensures forall parent :: HasTable(insertions, parent) <==> Receives(current, batch, parent)
    ensures forall parent :: TextFor(insertions, parent) == LinesOf(current.revision.bytes, RowsOf(current, batch, parent))
  {}

  lemma TablesOf(current: Snapshot, batch: seq<Edit>, insertions: Insertions)
    requires Sorted(insertions)
    requires forall parent :: HasTable(insertions, parent) <==> Receives(current, batch, parent)
    requires forall parent :: TextFor(insertions, parent) == LinesOf(current.revision.bytes, RowsOf(current, batch, parent))
    ensures Tables(current, batch, insertions)
  {}

  // ---------------------------------------------------------------------------
  // The text at one point

  lemma {:induction false} TextForLast(insertions: Insertions, parent: KeyPath)
    requires Sorted(insertions) && insertions != []
    ensures var last := |insertions| - 1;
      && Sorted(insertions[..last])
      && (insertions[last].0 == parent ==>
           !HasTable(insertions[..last], parent) && TextFor(insertions, parent) == insertions[last].1)
      && (insertions[last].0 != parent ==>
           && TextFor(insertions, parent) == TextFor(insertions[..last], parent)
           && (HasTable(insertions, parent) <==> HasTable(insertions[..last], parent)))
    decreases |insertions|
  {
    hide PathLess;
    var last := |insertions| - 1;
    var front := insertions[..last];
    if insertions[last].0 == parent {
      forall i | 0 <= i < |front| ensures front[i].0 != parent {
        PathOrder(insertions[i].0, insertions[last].0);
      }
    }
    if last > 0 {
      SortedTail(insertions);
      TextForLast(insertions[1..], parent);
      assert insertions[1..][..last - 1] == front[1..];
    }
    forall i | 0 <= i < |front| ensures front[i] == insertions[i] {}
  }

  lemma InsertionAt(current: Snapshot, parent: KeyPath, text: ByteString, p: nat)
    requires p < |current.revision.bytes|
    ensures var r := InsertionOf(TOML, current, parent, text);
      && (r.span == Span(p, p) <==> PointOf(TOML, current, parent) == Some(p))
      && (r.span == Span(p, p) ==> r.text == text)
  {
    hide InsertionOf, PointOf, HeaderLine;
    InsertionParts(current, parent, text);
    PointInside(current, parent);
    assert [] + text == text;
  }

  /** At a line start inside the document, the text of the one table whose keys go
      there. */
  lemma {:induction false} MiddleText(current: Snapshot, insertions: Insertions, p: nat, section: KeyPath)
    requires Sorted(insertions) && p < |current.revision.bytes|
    requires forall parent :: PointOf(TOML, current, parent) == Some(p) ==> parent == section
    ensures InsertText(InsertionsOf(TOML, current, insertions), p)
         == if PointOf(TOML, current, section) == Some(p) then TextFor(insertions, section) else []
    decreases |insertions|
  {
    hide *;
    if insertions == [] {
      NothingInserted(current, p, section);
    } else {
      var last := |insertions| - 1;
      var front, parent, text := insertions[..last], insertions[last].0, insertions[last].1;
      TextForLast(insertions, section);
      MiddleText(current, front, p, section);
      InsertionsLast(current, insertions);
      InsertTextAppend(InsertionsOf(TOML, current, front), InsertionOf(TOML, current, parent, text), p);
      InsertionAt(current, parent, text, p);
      if parent == section {
        NoSuchTable(front, section);
      }
      if PointOf(TOML, current, section) == Some(p) && parent == section {
        assert [] + text == text;
      } else {
        var before := InsertText(InsertionsOf(TOML, current, front), p);
        assert before + [] == before;
      }
    }
  }

  lemma NothingInserted(current: Snapshot, p: nat, parent: KeyPath)
    ensures InsertText(InsertionsOf(TOML, current, []), p) == [] && TextFor([], parent) == []
  {}

  lemma InsertionsLast(current: Snapshot, insertions: Insertions)
    requires insertions != []
    ensures var last := |insertions| - 1;
      InsertionsOf(TOML, current, insertions)
      == InsertionsOf(TOML, current, insertions[..last]) + [InsertionOf(TOML, current, insertions[last].0, insertions[last].1)]
  {}

  // ---------------------------------------------------------------------------
  // The text at the end

  function RowReading(section: KeyPath, rows: seq<Row>): Reading {
    Reading(Bound(section, rows), [], section)
  }

  /** What the text inserted at the end leaves behind: a table whose header is the
      last line has its rows read in whatever section is in force, a table without a
      header brings its own. */
  function EndReading(current: Snapshot, batch: seq<Edit>, insertions: Insertions, section: KeyPath): Reading {
    if insertions == [] then Reading([], [], section)
    else
      var last := |insertions| - 1;
      var front := EndReading(current, batch, insertions[..last], section);
      var parent := insertions[last].0;
      var rows := RowsOf(current, batch, parent);
      match PointOf(TOML, current, parent)
      case None => Joined(front, Reading(Bound(parent, rows), [parent], parent))
      case Some(p) => if p == |current.revision.bytes| then Joined(front, RowReading(front.section, rows)) else front
  }

  lemma SeparatorRead(doc: ByteString, text: ByteString, section: KeyPath, r: Reading)
    requires Read(text, section) == Some(r)
    ensures Read(Separator(doc, |doc|) + text, section) == Some(r)
    ensures Whole(text) ==> Whole(Separator(doc, |doc|) + text)
  {
    hide Read, LineEnding, Joined;
    if LineStart(doc, |doc|) {
      assert [] + text == text;
    } else {
      BlankLineRead(doc, section);
      ReadJoin(LineEnding(doc), text, section, Reading([], [], section), r);
      NothingRead(section, r);
    }
  }

  lemma HeaderThenRows(doc: ByteString, parent: KeyPath, rows: seq<Row>, section: KeyPath)
    requires parent != [] && LiteralRows(rows)
    ensures Whole(HeaderLine(doc, parent) + LinesOf(doc, rows))
    ensures Read(HeaderLine(doc, parent) + LinesOf(doc, rows), section) == Some(Reading(Bound(parent, rows), [parent], parent))
  {
    hide Read, HeaderLine, LinesOf, LiteralRows;
    HeaderLineRead(doc, parent, section);
    RowsRead(doc, rows, parent);
    ReadJoin(HeaderLine(doc, parent), LinesOf(doc, rows), section, Reading([], [parent], parent), RowReading(parent, rows));
    assert [] + Bound(parent, rows) == Bound(parent, rows);
    assert [parent] + [] == [parent];
  }

  /** One table at the end. */
  lemma EndItem(current: Snapshot, batch: seq<Edit>, parent: KeyPath, text: ByteString, section: KeyPath)
    requires LiteralEdits(batch) && text == LinesOf(current.revision.bytes, RowsOf(current, batch, parent))
    requires PointOf(TOML, current, parent).None? || PointOf(TOML, current, parent).value == |current.revision.bytes|
    ensures var doc, r := current.revision.bytes, InsertionOf(TOML, current, parent, text);
      && r.span == Span(|doc|, |doc|) && Whole(r.text) && Separator(doc, |doc|) <= r.text
      && var rows := RowsOf(current, batch, parent);
      Read(r.text, section)
      == Some(if PointOf(TOML, current, parent).None? then Reading(Bound(parent, rows), [parent], parent)
              else RowReading(section, rows))
  {
    hide *;
    var doc, rows := current.revision.bytes, RowsOf(current, batch, parent);
    InsertionParts(current, parent, text);
    RowsAreLiteral(current, batch, parent);
    if PointOf(TOML, current, parent).None? {
      NoPointNotRoot(current, parent);
      HeaderThenRows(doc, parent, rows, section);
      SeparatorRead(doc, HeaderLine(doc, parent) + text, section, Reading(Bound(parent, rows), [parent], parent));
    } else {
      RowsRead(doc, rows, section);
      RowReadingOf(section, rows);
      SeparatorRead(doc, text, section, RowReading(section, rows));
    }
  }

  lemma RowReadingOf(section: KeyPath, rows: seq<Row>)
    ensures RowReading(section, rows) == Reading(Bound(section, rows), [], section)
  {}

  lemma NoPointNotRoot(current: Snapshot, parent: KeyPath)
    requires PointOf(TOML, current, parent).None?
    ensures parent != []
  {}

  lemma NotAtEnd(current: Snapshot, parent: KeyPath, text: ByteString)
    requires PointOf(TOML, current, parent).Some? && PointOf(TOML, current, parent).value != |current.revision.bytes|
    ensures InsertionOf(TOML, current, parent, text).span != Span(|current.revision.bytes|, |current.revision.bytes|)
  {
    hide PointOf, LineEnding;
  }

  ghost predicate EndTextReads(current: Snapshot, batch: seq<Edit>, insertions: Insertions, section: KeyPath,
                               text: ByteString) {
    && Whole(text) && (text == [] || Separator(current.revision.bytes, |current.revision.bytes|) <= text)
    && Read(text, section) == Some(EndReading(current, batch, insertions, section))
  }

  lemma {:induction false} EndTextIsRead(current: Snapshot, batch: seq<Edit>, insertions: Insertions, section: KeyPath)
    requires LiteralEdits(batch)
    requires forall i :: 0 <= i < |insertions| ==>
      insertions[i].1 == LinesOf(current.revision.bytes, RowsOf(current, batch, insertions[i].0))
    ensures EndTextReads(current, batch, insertions, section,
                         InsertText(InsertionsOf(TOML, current, insertions), |current.revision.bytes|))
    decreases |insertions|
  {
    hide *;
    var doc := current.revision.bytes;
    if insertions == [] {
      EmptyEnd(current, batch, section);
    } else {
      var last := |insertions| - 1;
      var front, parent, text := insertions[..last], insertions[last].0, insertions[last].1;
      EndTextIsRead(current, batch, front, section);
      InsertionsLast(current, insertions);
      var rs, r := InsertionsOf(TOML, current, front), InsertionOf(TOML, current, parent, text);
      InsertTextAppend(rs, r, |doc|);
      if PointOf(TOML, current, parent).Some? && PointOf(TOML, current, parent).value != |doc| {
        NotAtEnd(current, parent, text);
        EndSkips(current, batch, insertions, section, InsertText(rs, |doc|));
      } else {
        var sofar := EndReading(current, batch, front, section);
        EndItem(current, batch, parent, text, sofar.section);
        EndJoins(current, batch, insertions, section, InsertText(rs, |doc|), r.text);
      }
    }
  }

  lemma EmptyEnd(current: Snapshot, batch: seq<Edit>, section: KeyPath)
    ensures EndTextReads(current, batch, [], section, InsertText(InsertionsOf(TOML, current, []), |current.revision.bytes|))
  {}

  lemma EndSkips(current: Snapshot, batch: seq<Edit>, insertions: Insertions, section: KeyPath, text: ByteString)
    requires insertions != [] && EndTextReads(current, batch, insertions[..|insertions| - 1], section, text)
    requires var point := PointOf(TOML, current, insertions[|insertions| - 1].0);
      point.Some? && point.value != |current.revision.bytes|
    ensures EndTextReads(current, batch, insertions, section, text + [])
  {
    hide Read, Separator, PointOf, RowsOf;
    assert text + [] == text;
  }

  lemma EndJoins(current: Snapshot, batch: seq<Edit>, insertions: Insertions, section: KeyPath, text: ByteString,
                 more: ByteString)
    requires insertions != [] && EndTextReads(current, batch, insertions[..|insertions| - 1], section, text)
    requires var parent := insertions[|insertions| - 1].0;
      var sofar := EndReading(current, batch, insertions[..|insertions| - 1], section);
      var point, rows := PointOf(TOML, current, parent), RowsOf(current, batch, parent);
      && (point.None? || point.value == |current.revision.bytes|)
      && Whole(more) && Separator(current.revision.bytes, |current.revision.bytes|) <= more
      && Read(more, sofar.section)
         == Some(if point.None? then Reading(Bound(parent, rows), [parent], parent) else RowReading(sofar.section, rows))
    ensures EndTextReads(current, batch, insertions, section, text + more)
  {
    hide Read, Separator, PointOf, RowsOf, Joined, Bound, RowReading;
    var sofar := EndReading(current, batch, insertions[..|insertions| - 1], section);
    ReadJoin(text, more, section, sofar, Read(more, sofar.section).value);
    if text == [] {
      assert text + more == more;
    }
  }
}
