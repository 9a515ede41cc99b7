/** From parser positions to byte offsets (`offset` in `src/document.cpp`).

    The parser reports a 1-based line and a 1-based column counted in code
    points; the editor splices bytes. `Offset` walks the bytes; the reference
    is the decoded text, where a boundary before code point `k` has a line, a
    column and an encoded prefix. */
module Positions {
  import opened Bytes
  import opened Utf8

  datatype Position = Position(line: nat, column: nat)

  /** Lexicographic order of positions. */
  predicate Before(p: Position, q: Position) {
    p.line < q.line || (p.line == q.line && p.column < q.column)
  }

  // ---------------------------------------------------------------------------
  // The walk over bytes

  /** The end of the code point starting at `i`: past its continuation bytes. */
  function NextBoundary(bytes: ByteString, i: nat): (r: nat)
    requires i <= |bytes|
    ensures i <= r <= |bytes|
    decreases |bytes| - i
  {
    if i < |bytes| && IsContinuation(bytes[i]) then NextBoundary(bytes, i + 1) else i
  }

  function SkipLines(bytes: ByteString, result: nat, lines: nat): (r: nat)
    requires result <= |bytes|
    ensures r <= |bytes|
    decreases lines
  {
    if lines == 0 || result == |bytes| then result else SkipLines(bytes, NextLine(bytes, result), lines - 1)
  }

  function SkipColumns(bytes: ByteString, result: nat, columns: nat): (r: nat)
    requires result <= |bytes|
    ensures r <= |bytes|
    decreases columns
  {
    if columns == 0 || result == |bytes| then result
    else SkipColumns(bytes, NextBoundary(bytes, result + 1), columns - 1)
  }

  function OffsetOf(bytes: ByteString, position: Position): nat {
    var lines := if position.line == 0 then 0 else position.line - 1;
    var columns := if position.column == 0 then 0 else position.column - 1;
    SkipColumns(bytes, SkipLines(bytes, 0, lines), columns)
  }

  method Offset(bytes: ByteString, position: Position) returns (result: nat)
    ensures result == OffsetOf(bytes, position)
  {
    result := 0;
    var line := 1;
    while line < position.line && result < |bytes|
      invariant 1 <= line && result <= |bytes|
      invariant line <= position.line || (line == 1 && position.line == 0)
      invariant SkipLines(bytes, 0, if position.line == 0 then 0 else position.line - 1)
             == SkipLines(bytes, result, if position.line == 0 then 0 else position.line - line)
    {
      var newline := Find(bytes, NEWLINE, result);
      result := if newline == |bytes| then |bytes| else newline + 1;
      line := line + 1;
    }
    var column := 1;
    while column < position.column && result < |bytes|
      invariant 1 <= column && result <= |bytes|
      invariant column <= position.column || (column == 1 && position.column == 0)
      invariant OffsetOf(bytes, position)
             == SkipColumns(bytes, result, if position.column == 0 then 0 else position.column - column)
    {
      ghost var before := result;
      result := result + 1;
      while result < |bytes| && IsContinuation(bytes[result])
        invariant before < result <= |bytes|
        invariant NextBoundary(bytes, before + 1) == NextBoundary(bytes, result)
      {
        result := result + 1;
      }
      column := column + 1;
    }
  }

  // ---------------------------------------------------------------------------
  // Positions in decoded text

  /** Index of the first code point of the line holding boundary `k`. */
  function LineStartOf(cps: seq<Scalar>, k: nat): (r: nat)
    requires k <= |cps|
    ensures r <= k
    ensures forall i :: r <= i < k ==> cps[i] != NEWLINE
    ensures r == 0 || cps[r - 1] == NEWLINE
  {
    if k == 0 || cps[k - 1] == NEWLINE then k else LineStartOf(cps, k - 1)
  }

  function NewlinesBefore(cps: seq<Scalar>, k: nat): nat
    requires k <= |cps|
  {
    if k == 0 then 0 else NewlinesBefore(cps, k - 1) + if cps[k - 1] == NEWLINE then 1 else 0
  }

  /** The position a parser reports for the boundary before code point `k`. */
  function PositionOf(cps: seq<Scalar>, k: nat): Position
    requires k <= |cps|
  {
    Position(1 + NewlinesBefore(cps, k), 1 + (k - LineStartOf(cps, k)))
  }

  /** The byte offset of the boundary before code point `k`. */
  function ByteOf(cps: seq<Scalar>, k: nat): nat
    requires k <= |cps|
  {
    |EncodeAll(cps[..k])|
  }

  lemma {:induction false} EncodeAllAppend(a: seq<Scalar>, b: seq<Scalar>)
    ensures EncodeAll(a + b) == EncodeAll(a) + EncodeAll(b)
  {
    if a == [] {
      assert a + b == b;
    } else {
      assert (a + b)[1..] == a[1..] + b;
      EncodeAllAppend(a[1..], b);
    }
  }

  /** The bytes before and after a boundary. */
  lemma SplitAt(cps: seq<Scalar>, k: nat)
    requires k <= |cps|
    ensures EncodeAll(cps) == EncodeAll(cps[..k]) + EncodeAll(cps[k..])
    ensures ByteOf(cps, k) <= |EncodeAll(cps)|
  {
    assert cps == cps[..k] + cps[k..];
    EncodeAllAppend(cps[..k], cps[k..]);
  }

  /** One code point occupies exactly its encoding. */
  lemma StepAt(cps: seq<Scalar>, k: nat)
    requires k < |cps|
    ensures ByteOf(cps, k + 1) == ByteOf(cps, k) + |Encode(cps[k])|
    ensures ByteOf(cps, k + 1) <= |EncodeAll(cps)|
    ensures forall i :: ByteOf(cps, k) <= i < ByteOf(cps, k + 1) ==>
      EncodeAll(cps)[i] == Encode(cps[k])[i - ByteOf(cps, k)]
  {
    assert cps[..k + 1] == cps[..k] + [cps[k]];
    EncodeAllAppend(cps[..k], [cps[k]]);
    assert EncodeAll([cps[k]]) == Encode(cps[k]) + EncodeAll([]) == Encode(cps[k]);
    SplitAt(cps, k + 1);
    assert EncodeAll(cps[..k + 1]) == EncodeAll(cps[..k]) + Encode(cps[k]);
  }

  lemma {:induction false} BytesGrow(cps: seq<Scalar>, j: nat, k: nat)
    requires j <= k <= |cps|
    ensures ByteOf(cps, j) + (k - j) <= ByteOf(cps, k)
    decreases k - j
  {
    if j < k {
      BytesGrow(cps, j, k - 1);
      StepAt(cps, k - 1);
    }
  }

  lemma NextBoundaryIsNextCodePoint(cps: seq<Scalar>, k: nat)
    requires k < |cps|
    ensures ByteOf(cps, k) < |EncodeAll(cps)|
    ensures NextBoundary(EncodeAll(cps), ByteOf(cps, k) + 1) == ByteOf(cps, k + 1)
  {
    var bytes := EncodeAll(cps);
    StepAt(cps, k);
    var start, next := ByteOf(cps, k), ByteOf(cps, k + 1);
    if k + 1 < |cps| {
      StepAt(cps, k + 1);
    } else {
      assert cps[..k + 1] == cps;
    }
    SkipContinuations(bytes, start + 1, next);
  }

  lemma {:induction false} SkipContinuations(bytes: ByteString, i: nat, end: nat)
    requires i <= end <= |bytes|
    requires forall j :: i <= j < end ==> IsContinuation(bytes[j])
    requires end == |bytes| || !IsContinuation(bytes[end])
    ensures NextBoundary(bytes, i) == end
    decreases end - i
  {
    if i < end {
      SkipContinuations(bytes, i + 1, end);
    }
  }

  /** A byte is a newline exactly when it encodes the newline code point. */
  lemma {:induction false} FindNewline(cps: seq<Scalar>, k: nat, n: nat)
    requires k <= n <= |cps|
    requires forall i :: k <= i < n ==> cps[i] != NEWLINE
    requires n == |cps| || cps[n] == NEWLINE
    ensures ByteOf(cps, k) <= |EncodeAll(cps)|
    ensures Find(EncodeAll(cps), NEWLINE, ByteOf(cps, k)) == ByteOf(cps, n)
    decreases n - k
  {
    var bytes := EncodeAll(cps);
    SplitAt(cps, k);
    if k < n {
      FindNewline(cps, k + 1, n);
      StepAt(cps, k);
      FindSkips(bytes, ByteOf(cps, k), ByteOf(cps, k + 1));
    } else if n < |cps| {
      StepAt(cps, n);
    } else {
      assert cps[..n] == cps;
    }
  }

  lemma {:induction false} FindSkips(s: ByteString, i: nat, j: nat)
    requires i <= j <= |s|
    requires forall x :: i <= x < j ==> s[x] != NEWLINE
    ensures Find(s, NEWLINE, i) == Find(s, NEWLINE, j)
    decreases j - i
  {
    if i < j {
      FindSkips(s, i + 1, j);
    }
  }

  lemma NextLineIsNextLine(cps: seq<Scalar>, from: nat, n: nat)
    requires from <= n < |cps|
    requires cps[n] == NEWLINE && forall i :: from <= i < n ==> cps[i] != NEWLINE
    ensures ByteOf(cps, from) < |EncodeAll(cps)|
    ensures NextLine(EncodeAll(cps), ByteOf(cps, from)) == ByteOf(cps, n + 1)
  {
    FindNewline(cps, from, n);
    StepAt(cps, n);
    BytesGrow(cps, from, n);
  }

  /** Skipping one line more ends one line later. */
  lemma {:induction false} SkipOneLineMore(bytes: ByteString, result: nat, lines: nat)
    requires result <= |bytes|
    ensures SkipLines(bytes, result, lines + 1) == NextLine(bytes, SkipLines(bytes, result, lines))
    decreases lines
  {
    if lines > 0 && result < |bytes| {
      SkipOneLineMore(bytes, NextLine(bytes, result), lines - 1);
    }
  }

  /** Skipping as many lines as precede a boundary reaches the start of its line. */
  lemma {:induction false} SkipLinesReaches(cps: seq<Scalar>, k: nat)
    requires k <= |cps|
    ensures SkipLines(EncodeAll(cps), 0, NewlinesBefore(cps, k)) == ByteOf(cps, LineStartOf(cps, k))
  {
    if k == 0 {
      assert cps[..0] == [];
    } else {
      SkipLinesReaches(cps, k - 1);
      if cps[k - 1] == NEWLINE {
        SkipOneLineMore(EncodeAll(cps), 0, NewlinesBefore(cps, k - 1));
        NextLineIsNextLine(cps, LineStartOf(cps, k - 1), k - 1);
      }
    }
  }

  lemma {:induction false} SkipColumnsReaches(cps: seq<Scalar>, from: nat, k: nat)
    requires from <= k <= |cps|
    ensures ByteOf(cps, from) <= |EncodeAll(cps)|
    ensures SkipColumns(EncodeAll(cps), ByteOf(cps, from), k - from) == ByteOf(cps, k)
    decreases k - from
  {
    SplitAt(cps, from);
    if from < k {
      NextBoundaryIsNextCodePoint(cps, from);
      SkipColumnsReaches(cps, from + 1, k);
    } else {
      assert k - from == 0;
    }
  }

  lemma OffsetOfOneBased(bytes: ByteString, lines: nat, columns: nat)
    ensures OffsetOf(bytes, Position(1 + lines, 1 + columns))
         == SkipColumns(bytes, SkipLines(bytes, 0, lines), columns)
  {}

  lemma PositionParts(cps: seq<Scalar>, k: nat)
    requires k <= |cps|
    ensures LineStartOf(cps, k) <= k
    ensures PositionOf(cps, k) == Position(1 + NewlinesBefore(cps, k), 1 + (k - LineStartOf(cps, k)))
  {}

  /** On valid UTF-8, the walk inverts the position of every boundary. */
  lemma OffsetInvertsPosition(cps: seq<Scalar>, k: nat)
    requires k <= |cps|
    ensures OffsetOf(EncodeAll(cps), PositionOf(cps, k)) == ByteOf(cps, k)
  {
    hide *;
    PositionParts(cps, k);
    var start := LineStartOf(cps, k);
    OffsetOfOneBased(EncodeAll(cps), NewlinesBefore(cps, k), k - start);
    SkipLinesReaches(cps, k);
    SkipColumnsReaches(cps, start, k);
  }

  lemma {:induction false} NewlinesGrow(cps: seq<Scalar>, j: nat, k: nat)
    requires j <= k <= |cps|
    ensures NewlinesBefore(cps, j) <= NewlinesBefore(cps, k)
    ensures NewlinesBefore(cps, j) == NewlinesBefore(cps, k) ==> LineStartOf(cps, j) == LineStartOf(cps, k)
    decreases k - j
  {
    if j < k {
      NewlinesGrow(cps, j, k - 1);
    }
  }

  /** Position order, boundary order and byte order agree strictly. */
  lemma OffsetIsStrictlyMonotone(cps: seq<Scalar>, j: nat, k: nat)
    requires j <= |cps| && k <= |cps|
    ensures Before(PositionOf(cps, j), PositionOf(cps, k)) <==> j < k
    ensures OffsetOf(EncodeAll(cps), PositionOf(cps, j)) < OffsetOf(EncodeAll(cps), PositionOf(cps, k)) <==> j < k
  {
    OffsetInvertsPosition(cps, j);
    OffsetInvertsPosition(cps, k);
    if j < k {
      NewlinesGrow(cps, j, k);
      BytesGrow(cps, j, k);
    } else {
      NewlinesGrow(cps, k, j);
      BytesGrow(cps, k, j);
    }
  }

  /** Regions the parser reports apart from each other become byte spans apart
      from each other. */
  lemma DisjointRegionsStayDisjoint(cps: seq<Scalar>, begin1: nat, end1: nat, begin2: nat, end2: nat)
    requires begin1 <= end1 <= |cps| && begin2 <= end2 <= |cps|
    requires !Before(PositionOf(cps, begin2), PositionOf(cps, end1))
    ensures var bytes := EncodeAll(cps);
      OffsetOf(bytes, PositionOf(cps, begin1)) <= OffsetOf(bytes, PositionOf(cps, end1))
      <= OffsetOf(bytes, PositionOf(cps, begin2)) <= OffsetOf(bytes, PositionOf(cps, end2))
      <= |bytes|
  {
    OffsetIsStrictlyMonotone(cps, end1, begin1);
    OffsetIsStrictlyMonotone(cps, begin2, end1);
    OffsetIsStrictlyMonotone(cps, end2, begin2);
    OffsetInvertsPosition(cps, end2);
    SplitAt(cps, end2);
  }
}
