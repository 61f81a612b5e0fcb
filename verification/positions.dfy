/** Position recovery (`get_row_and_column` in src/main.rs): the row and
    column the scanner reports for the first occurrence of a reminder line at
    or after the search cursor. Row and column are cast to `u32` in the
    source; `AsU32` writes that truncation out. */
module Positions {
  import opened Strings

  const U32_MODULUS: nat := 0x1_0000_0000

  /** Rust's `as u32` cast of a `usize`: keeps the low 32 bits. */
  function AsU32(n: nat): (r: nat)
    ensures r < U32_MODULUS
    ensures n < U32_MODULUS ==> r == n
  {
    n % U32_MODULUS
  }

  datatype RowCol = RowCol(row: nat, col: nat)

  /** No line feed occurs among the first `off` characters. */
  ghost predicate NoNewlineBefore(s: String, off: nat)
    requires off <= |s|
  {
    forall i :: 0 <= i < off ==> s[i] != '\n'
  }

  /** `j` holds the last line feed among the first `off` characters. */
  ghost predicate LastNewlineBefore(s: String, off: nat, j: nat) {
    && j < off <= |s|
    && s[j] == '\n'
    && forall k :: j < k < off ==> s[k] != '\n'
  }

  /** The row and column computed for offset `off`: the line feeds among the
      first `off` characters, plus one, and `off` minus the index of the last
      of them (or minus 0 where there is none). */
  function PositionOf(contents: String, off: nat): RowCol
    requires off <= |contents|
  {
    var before := contents[..off];
    var last := match RFind(before, '\n') case Some(j) => j case None => 0;
    RowCol(AsU32(CountChar(before, '\n') + 1), AsU32(off - last))
  }

  /** What the row and column mean. The row is one more than the number of
      line feeds before the offset. The column is the distance from the last
      line feed before the offset, or the offset itself where there is none:
      so it counts from 0 on the first line and from 1 on every later line. */
  lemma PositionOfMeans(contents: String, off: nat)
    requires off <= |contents|
    ensures PositionOf(contents, off).row == AsU32(1 + multiset(contents[..off])['\n'])
    ensures NoNewlineBefore(contents, off) ==> PositionOf(contents, off).col == AsU32(off)
    ensures forall j: nat :: LastNewlineBefore(contents, off, j) ==>
      PositionOf(contents, off).col == AsU32(off - j)
  {
    var before := contents[..off];
    RFindMeans(before, '\n');
    CountCharMeans(before, '\n');
    assert forall k :: 0 <= k < off ==> before[k] == contents[k];
  }

  /** `get_row_and_column(contents, substr, from)`: the position of the first
      occurrence of `substr` at or after `from`. The source unwraps the search
      result, so an occurrence must exist. */
  function GetRowAndColumn(contents: String, substr: String, from: nat): (p: RowCol)
    requires from <= |contents| && OccursFrom(contents, substr, from)
    ensures forall occ: nat :: IsFirstOccurrenceFrom(contents, substr, from, occ) ==>
      p == PositionOf(contents, occ)
  {
    var occ := Occurrence(contents, substr, from);
    PositionOf(contents, occ)
  }

  /** For text shorter than `u32::MAX` characters the casts lose nothing: the
      row is one more than the line feeds before the offset (so at least 1),
      and past the first line the column is at least 1. */
  lemma PositionBounds(contents: String, off: nat)
    requires off <= |contents| && |contents| + 1 < U32_MODULUS
    ensures PositionOf(contents, off).row == 1 + multiset(contents[..off])['\n'] >= 1
    ensures NoNewlineBefore(contents, off) ==> PositionOf(contents, off).col == off
    ensures forall j: nat :: LastNewlineBefore(contents, off, j) ==>
      PositionOf(contents, off).col == off - j >= 1
  {
    PositionOfMeans(contents, off);
    assert multiset(contents[..off])['\n'] <= |multiset(contents[..off])| == off;
  }

  /** `a` comes strictly before `b` in reading order. */
  predicate Precedes(a: RowCol, b: RowCol) {
    a.row < b.row || (a.row == b.row && a.col < b.col)
  }

  /** Distinct offsets get distinct positions, in the same order: a later
      offset is on a later row, or on the same row with a larger column. */
  lemma PositionsIncrease(contents: String, a: nat, b: nat)
    requires a < b <= |contents| && |contents| + 1 < U32_MODULUS
    ensures Precedes(PositionOf(contents, a), PositionOf(contents, b))
  {
    PositionBounds(contents, a);
    PositionBounds(contents, b);
    assert contents[..b] == contents[..a] + contents[a..b];
    assert multiset(contents[..b])['\n'] ==
      multiset(contents[..a])['\n'] + multiset(contents[a..b])['\n'];
    if multiset(contents[a..b])['\n'] == 0 {
      NoNewlineBetween(contents, a, b);
      SameLineColumnsIncrease(contents, a, b);
    }
  }

  /** Between two offsets on the same line, the column grows with the offset. */
  lemma SameLineColumnsIncrease(contents: String, a: nat, b: nat)
    requires a < b <= |contents| && |contents| + 1 < U32_MODULUS
    requires forall k :: a <= k < b ==> contents[k] != '\n'
    ensures PositionOf(contents, a).col < PositionOf(contents, b).col
  {
    PositionBounds(contents, a);
    PositionBounds(contents, b);
    if !NoNewlineBefore(contents, a) {
      var j :| 0 <= j < a && contents[j] == '\n';
      var last := LastNewline(contents, a, j);
      assert LastNewlineBefore(contents, b, last);
    }
  }

  lemma NoNewlineBetween(contents: String, a: nat, b: nat)
    requires a <= b <= |contents| && multiset(contents[a..b])['\n'] == 0
    ensures forall k :: a <= k < b ==> contents[k] != '\n'
  {
    forall k | a <= k < b
      ensures contents[k] != '\n'
    {
      assert contents[a..b][k - a] == contents[k];
    }
  }

  /** Some line feed before `off` is followed by a last one. */
  lemma LastNewline(s: String, off: nat, j: nat) returns (last: nat)
    requires j < off <= |s| && s[j] == '\n'
    ensures j <= last && LastNewlineBefore(s, off, last)
    decreases off - j
  {
    var k := j + 1;
    while k < off && s[k] != '\n'
      invariant j < k <= off
      invariant forall i :: j < i < k ==> s[i] != '\n'
    {
      k := k + 1;
    }
    if k == off {
      last := j;
    } else {
      last := LastNewline(s, off, k);
    }
  }

  /** `off` is the first offset of a line: the start of the text or just
      past a line feed. */
  predicate AtLineStart(contents: String, off: nat)
    requires off <= |contents|
  {
    off == 0 || contents[off - 1] == '\n'
  }

  /** As written, the column of a line's first character is 0 on the first
      line of the text and 1 on every later line. */
  lemma LineStartColumn(contents: String, off: nat)
    requires off <= |contents| && AtLineStart(contents, off)
    ensures PositionOf(contents, off).col == if off == 0 then 0 else 1
  {
    PositionOfMeans(contents, off);
    if off > 0 {
      assert LastNewlineBefore(contents, off, off - 1);
    }
  }

  /** The position with a uniformly 1-based column: the row as before, and
      the column counted from the start of the line, its first character
      being column 1. */
  function PositionFromOne(contents: String, off: nat): RowCol
    requires off <= |contents|
  {
    var before := contents[..off];
    var start := match RFind(before, '\n') case Some(j) => j + 1 case None => 0;
    RowCol(AsU32(CountChar(before, '\n') + 1), AsU32(off - start + 1))
  }

  /** The corrected column is the same on every line: one more than the
      number of characters between the start of the line and the offset. It
      agrees with the column as written past the first line and exceeds it
      by one on the first. */
  lemma PositionFromOneUniform(contents: String, off: nat, start: nat)
    requires off <= |contents| && |contents| + 1 < U32_MODULUS
    requires start <= off && AtLineStart(contents, start)
    requires forall k :: start <= k < off ==> contents[k] != '\n'
    ensures PositionFromOne(contents, off).row == PositionOf(contents, off).row
    ensures PositionFromOne(contents, off).col == off - start + 1
    ensures PositionFromOne(contents, off).col ==
      PositionOf(contents, off).col + (if start == 0 then 1 else 0)
  {
    var before := contents[..off];
    RFindMeans(before, '\n');
    PositionOfMeans(contents, off);
    PositionBounds(contents, off);
    assert forall k :: 0 <= k < off ==> before[k] == contents[k];
    if start > 0 {
      assert LastNewlineBefore(contents, off, start - 1);
    }
  }
}
