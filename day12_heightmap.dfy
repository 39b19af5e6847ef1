/** Day 12: hill climbing, the height map. The input is a grid of
    letters `a`..`z` giving heights 0..25, with `S` (the start, height 0)
    and `E` (the end, height 25) marked on it. The map keeps the heights in
    row-major order; from a location one may step left, right, up or down
    onto a location at most one level higher. */
module Heightmap {
  import opened Common

  datatype Vector2 = Vector2(x: int, y: int)

  datatype Map = Map(rowMajor: seq<nat>, size: Vector2, start: Vector2, end: Vector2)

  /** The size covers no more cells than the map holds, so every location
      inside it can be read. Every map `FromStr` builds is of this kind. */
  predicate WellFormed(m: Map)
  {
    0 <= m.size.x && 0 <= m.size.y && m.size.y * m.size.x <= |m.rowMajor|
  }

  // ---------------------------------------------------------------------
  // Reading the map

  /** `Map::is_valid_loc`. */
  predicate IsValidLoc(m: Map, loc: Vector2)
  {
    0 <= loc.x < m.size.x && 0 <= loc.y < m.size.y
  }

  /** `Map::height`: the cell at `y * width + x`; an index outside the
      heights (a negative one wraps to a huge `usize`) panics. */
  function Height(m: Map, loc: Vector2): Outcome<nat>
  {
    var index := loc.y * m.size.x + loc.x;
    if 0 <= index < |m.rowMajor| then Returns(m.rowMajor[index]) else Panics
  }

  /** On a well-formed map every valid location can be read, and distinct
      valid locations are distinct cells. */
  lemma HeightOfValidLoc(m: Map, loc: Vector2)
    requires WellFormed(m) && IsValidLoc(m, loc)
    ensures Height(m, loc).Returns?
  {
    RowsBefore(loc.y, m.size.y, m.size.x);
  }

  /** The rows before row `y` and row `y` itself fit in `rows` rows. */
  lemma {:induction false} RowsBefore(y: nat, rows: nat, w: nat)
    requires y < rows
    ensures y * w + w <= rows * w
    decreases rows - y
  {
    if y + 1 < rows {
      RowsBefore(y + 1, rows, w);
    }
    assert (y + 1) * w == y * w + w;
  }

  // ---------------------------------------------------------------------
  // Neighbours

  /** The four candidate neighbours in the order `neighbours` lists them:
      left, right, up, down. */
  function Offset(loc: Vector2, i: nat): Vector2
    requires i < 4
  {
    if i == 0 then Vector2(loc.x - 1, loc.y)
    else if i == 1 then Vector2(loc.x + 1, loc.y)
    else if i == 2 then Vector2(loc.x, loc.y - 1)
    else Vector2(loc.x, loc.y + 1)
  }

  predicate Adjacent(a: Vector2, b: Vector2)
  {
    (a.y == b.y && (b.x == a.x - 1 || b.x == a.x + 1)) || (a.x == b.x && (b.y == a.y - 1 || b.y == a.y + 1))
  }

  /** One may step from `a` onto `b`: `b` is next to `a` and inside the map,
      and it is at most one level higher (any descent is allowed). */
  predicate CanStep(m: Map, a: Vector2, b: Vector2)
  {
    Adjacent(a, b) && IsValidLoc(m, b) && Height(m, a).Returns? && Height(m, b).Returns?
    && Height(m, b).value <= Height(m, a).value + 1
  }

  /** The closure `is_valid_neighbour`, applied to one candidate. */
  function Slot(m: Map, h: nat, n: Vector2): Outcome<Option<Vector2>>
  {
    if !IsValidLoc(m, n) then Returns(None)
    else match Height(m, n)
      case Panics => Panics
      case Returns(hn) => Returns(if hn <= h + 1 then Some(n) else None)
  }

  /** `Map::neighbours`: slot `i` holds the `i`-th candidate exactly when
      one may step onto it. */
  function Neighbours(m: Map, loc: Vector2): (r: Outcome<seq<Option<Vector2>>>)
    ensures r.Returns? ==> Height(m, loc).Returns? && |r.value| == 4
    ensures r.Returns? ==> forall i :: 0 <= i < 4 ==>
      r.value[i] == (if CanStep(m, loc, Offset(loc, i)) then Some(Offset(loc, i)) else None)
  {
    match Height(m, loc)
    case Panics => Panics
    case Returns(h) =>
      var left := Slot(m, h, Offset(loc, 0));
      var right := Slot(m, h, Offset(loc, 1));
      var up := Slot(m, h, Offset(loc, 2));
      var down := Slot(m, h, Offset(loc, 3));
      if left.Panics? || right.Panics? || up.Panics? || down.Panics? then Panics
      else Returns([left.value, right.value, up.value, down.value])
  }

  /** Every location one may step onto is one of the four candidates. */
  lemma AdjacentIsOffset(a: Vector2, b: Vector2) returns (i: nat)
    requires Adjacent(a, b)
    ensures i < 4 && b == Offset(a, i)
  {
    if b.x == a.x - 1 && a.y == b.y { i := 0; }
    else if b.x == a.x + 1 && a.y == b.y { i := 1; }
    else if b.y == a.y - 1 { i := 2; }
    else { i := 3; }
  }

  /** `neighbours` lists exactly the locations one may step onto. */
  lemma NeighboursAreSteps(m: Map, loc: Vector2, n: Vector2)
    requires Neighbours(m, loc).Returns?
    ensures Some(n) in Neighbours(m, loc).value <==> CanStep(m, loc, n)
  {
    var slots := Neighbours(m, loc).value;
    if CanStep(m, loc, n) {
      var i := AdjacentIsOffset(loc, n);
      assert slots[i] == Some(n);
    }
    if Some(n) in slots {
      var i :| 0 <= i < 4 && slots[i] == Some(n);
      assert n == Offset(loc, i);
    }
  }

  /** On a well-formed map `neighbours` of a valid location never panics. */
  lemma NeighboursOfValidLoc(m: Map, loc: Vector2)
    requires WellFormed(m) && IsValidLoc(m, loc)
    ensures Neighbours(m, loc).Returns?
  {
    HeightOfValidLoc(m, loc);
    forall i | 0 <= i < 4 && IsValidLoc(m, Offset(loc, i))
      ensures Height(m, Offset(loc, i)).Returns?
    {
      HeightOfValidLoc(m, Offset(loc, i));
    }
    assert Slot(m, Height(m, loc).value, Offset(loc, 0)).Returns?;
    assert Slot(m, Height(m, loc).value, Offset(loc, 1)).Returns?;
    assert Slot(m, Height(m, loc).value, Offset(loc, 2)).Returns?;
    assert Slot(m, Height(m, loc).value, Offset(loc, 3)).Returns?;
  }

  // ---------------------------------------------------------------------
  // Parsing

  /** The height of a map letter, or `None` for a character that makes
      the parser panic. */
  function CharHeight(c: char): (r: Option<nat>)
    ensures r.Some? ==> r.value <= 25
    ensures c == 'S' ==> r == Some(0)
    ensures c == 'E' ==> r == Some(25)
  {
    if 'a' <= c <= 'z' then Some(c as nat - 'a' as nat)
    else if c == 'S' then Some(0)
    else if c == 'E' then Some(25)
    else None
  }

  predicate KnownRow(row: string)
  {
    forall k :: 0 <= k < |row| ==> CharHeight(row[k]).Some?
  }

  predicate AllKnown(rows: seq<string>)
  {
    forall j :: 0 <= j < |rows| ==> KnownRow(rows[j])
  }

  /** The lines that are not empty, in order. */
  function NonEmpty(lines: seq<string>): (rows: seq<string>)
    ensures forall j :: 0 <= j < |rows| ==> |rows[j]| > 0
  {
    if lines == [] then []
    else
      var rest := NonEmpty(lines[..|lines| - 1]);
      if |lines[|lines| - 1]| > 0 then rest + [lines[|lines| - 1]] else rest
  }

  lemma {:induction false} NonEmptyAppend(a: seq<string>, b: seq<string>)
    ensures NonEmpty(a + b) == NonEmpty(a) + NonEmpty(b)
    decreases |b|
  {
    if b == [] {
      assert a + b == a;
    } else {
      NonEmptyAppend(a, b[..|b| - 1]);
      assert (a + b)[..|a + b| - 1] == a + b[..|b| - 1];
    }
  }

  lemma {:induction false} NonEmptyKeepsAll(lines: seq<string>)
    requires forall j :: 0 <= j < |lines| ==> |lines[j]| > 0
    ensures NonEmpty(lines) == lines
  {
    if lines != [] {
      NonEmptyKeepsAll(lines[..|lines| - 1]);
    }
  }

  /** The heights of one row, left to right. */
  function RowHeights(row: string): (hs: seq<nat>)
    requires KnownRow(row)
    ensures |hs| == |row|
    ensures forall k :: 0 <= k < |row| ==> hs[k] == CharHeight(row[k]).value
  {
    if row == [] then []
    else RowHeights(row[..|row| - 1]) + [CharHeight(row[|row| - 1]).value]
  }

  /** The heights of all rows, concatenated row after row. */
  function Heights(rows: seq<string>): (hs: seq<nat>)
    requires AllKnown(rows)
  {
    if rows == [] then []
    else Heights(rows[..|rows| - 1]) + RowHeights(rows[|rows| - 1])
  }

  /** The column of the last occurrence of `c` in `row`. */
  function LastIndex(row: string, c: char): (r: Option<nat>)
    ensures r.Some? ==> (r.value < |row| && row[r.value] == c
                         && forall k :: r.value < k < |row| ==> row[k] != c)
    ensures r.None? <==> c !in row
  {
    if row == [] then None
    else if row[|row| - 1] == c then Some(|row| - 1)
    else LastIndex(row[..|row| - 1], c)
  }

  /** Row-major order on positions. */
  predicate Later(p: Vector2, q: Vector2)
  {
    q.y > p.y || (q.y == p.y && q.x > p.x)
  }

  /** The position of the last occurrence of `c` in row-major order: where
      the parser's captured `start` (for `S`) or `end` (for `E`) is left. */
  function LastPos(rows: seq<string>, c: char): (r: Option<Vector2>)
    ensures r.Some? ==> (0 <= r.value.y < |rows| && 0 <= r.value.x < |rows[r.value.y]|
                         && rows[r.value.y][r.value.x] == c)
    ensures r.None? <==> forall j :: 0 <= j < |rows| ==> c !in rows[j]
  {
    if rows == [] then None
    else match LastIndex(rows[|rows| - 1], c)
      case Some(x) => Some(Vector2(x, |rows| - 1))
      case None => LastPos(rows[..|rows| - 1], c)
  }

  /** No occurrence of `c` comes after the one `LastPos` reports. */
  lemma {:induction false} LastPosIsLast(rows: seq<string>, c: char, q: Vector2)
    requires LastPos(rows, c).Some?
    requires 0 <= q.y < |rows| && 0 <= q.x < |rows[q.y]| && Later(LastPos(rows, c).value, q)
    ensures rows[q.y][q.x] != c
  {
    var last := rows[|rows| - 1];
    if LastIndex(last, c).None? {
      var init := rows[..|rows| - 1];
      if q.y < |rows| - 1 {
        LastPosIsLast(init, c, q);
      }
    }
  }

  /** `Map::from_str` on the lines of the input. Empty lines are skipped;
      an unknown character panics; the width is the length of the last row
      (no rows at all divide by zero); a missing `S` or `E` panics. */
  function Parse(lines: seq<string>): Outcome<Map>
  {
    var rows := NonEmpty(lines);
    if !AllKnown(rows) || rows == [] then Panics
    else
      var heights := Heights(rows);
      var width := |rows[|rows| - 1]|;
      match (LastPos(rows, 'S'), LastPos(rows, 'E'))
      case (Some(s), Some(e)) => Returns(Map(heights, Vector2(width, |heights| / width), s, e))
      case _ => Panics
  }

  /** Every map the parser returns is well formed: its size never covers
      more cells than it holds. */
  lemma ParseIsWellFormed(lines: seq<string>)
    requires Parse(lines).Returns?
    ensures WellFormed(Parse(lines).value)
  {
    var m := Parse(lines).value;
    DivTimesBelow(|m.rowMajor|, m.size.x);
  }

  lemma DivTimesBelow(n: nat, w: nat)
    requires w > 0
    ensures (n / w) * w <= n
  {
  }

  /** The row of heights read so far, with the row being read appended. */
  lemma HeightsSnoc(rows: seq<string>, row: string)
    requires AllKnown(rows) && KnownRow(row)
    ensures AllKnown(rows + [row])
    ensures Heights(rows + [row]) == Heights(rows) + RowHeights(row)
    ensures LastPos(rows + [row], 'S') == Located(LastIndex(row, 'S'), |rows|, LastPos(rows, 'S'))
    ensures LastPos(rows + [row], 'E') == Located(LastIndex(row, 'E'), |rows|, LastPos(rows, 'E'))
  {
    assert (rows + [row])[..|rows|] == rows;
  }

  /** Where a captured position is left after a row: at the last
      occurrence in row `y` if there is one, else where it was. */
  function Located(index: Option<nat>, y: nat, before: Option<Vector2>): Option<Vector2>
  {
    match index
    case Some(x) => Some(Vector2(x, y))
    case None => before
  }

  lemma RowPrefixStep(row: string, x: nat)
    requires x < |row|
    ensures LastIndex(row[..x + 1], 'S') == if row[x] == 'S' then Some(x) else LastIndex(row[..x], 'S')
    ensures LastIndex(row[..x + 1], 'E') == if row[x] == 'E' then Some(x) else LastIndex(row[..x], 'E')
    ensures KnownRow(row[..x]) && CharHeight(row[x]).Some? ==>
      KnownRow(row[..x + 1]) && RowHeights(row[..x + 1]) == RowHeights(row[..x]) + [CharHeight(row[x]).value]
  {
    assert row[..x + 1][..x] == row[..x];
  }

  /** The mapping closure over the characters of row `y`: the heights of
      the row, with `start` and `end` moved to any `S` or `E` in it; an
      unknown character panics. */
  method ReadRow(row: string, y: nat, start: Option<Vector2>, end: Option<Vector2>)
    returns (r: Outcome<(seq<nat>, Option<Vector2>, Option<Vector2>)>)
    ensures r.Panics? <==> !KnownRow(row)
    ensures r.Returns? ==> r.value.0 == RowHeights(row)
    ensures r.Returns? ==> r.value.1 == Located(LastIndex(row, 'S'), y, start)
    ensures r.Returns? ==> r.value.2 == Located(LastIndex(row, 'E'), y, end)
  {
    var heights: seq<nat> := [];
    var s := start;
    var e := end;
    for x := 0 to |row|
      invariant KnownRow(row[..x]) && heights == RowHeights(row[..x])
      invariant s == Located(LastIndex(row[..x], 'S'), y, start)
      invariant e == Located(LastIndex(row[..x], 'E'), y, end)
    {
      var c := row[x];
      RowPrefixStep(row, x);
      var heightChar: char;
      if 'a' <= c <= 'z' {
        heightChar := c;
      } else if c == 'S' {
        s := Some(Vector2(x, y));
        heightChar := 'a';
      } else if c == 'E' {
        e := Some(Vector2(x, y));
        heightChar := 'z';
      } else {
        return Panics;
      }
      heights := heights + [heightChar as nat - 'a' as nat];
    }
    assert row[..|row|] == row;
    return Returns((heights, s, e));
  }

  /** `Map::from_str`: the closures over the lines and characters assign
      the captured `start`, `end` and `width` as they go. */
  method FromStr(lines: seq<string>) returns (r: Outcome<Map>)
    ensures r == Parse(lines)
  {
    var width := 0;
    var start: Option<Vector2> := None;
    var end: Option<Vector2> := None;
    var rowMajor: seq<nat> := [];
    ghost var rows: seq<string> := [];
    var y := 0;
    for i := 0 to |lines|
      invariant rows == NonEmpty(lines[..i]) && AllKnown(rows) && y == |rows|
      invariant rowMajor == Heights(rows)
      invariant start == LastPos(rows, 'S') && end == LastPos(rows, 'E')
      invariant width == if rows == [] then 0 else |rows[|rows| - 1]|
    {
      var l := lines[i];
      assert lines[..i + 1][..i] == lines[..i];
      if |l| > 0 {
        var row := ReadRow(l, y, start, end);
        if row.Panics? {
          UnknownCharPanics(lines, i);
          return Panics;
        }
        HeightsSnoc(rows, l);
        rowMajor := rowMajor + row.value.0;
        start := row.value.1;
        end := row.value.2;
        rows := rows + [l];
        width := |l|;
        y := y + 1;
      }
    }
    assert lines[..|lines|] == lines;
    if width == 0 {
      return Panics;
    }
    var height := |rowMajor| / width;
    if start.None? || end.None? {
      return Panics;
    }
    return Returns(Map(rowMajor, Vector2(width, height), start.value, end.value));
  }

  /** A character the parser does not know anywhere in a non-empty line
      makes the whole parse panic. */
  lemma UnknownCharPanics(lines: seq<string>, i: nat)
    requires i < |lines| && |lines[i]| > 0 && !KnownRow(lines[i])
    ensures Parse(lines) == Panics
  {
    var rows := NonEmpty(lines);
    NonEmptyAppend(lines[..i + 1], lines[i + 1..]);
    assert lines[..i + 1] + lines[i + 1..] == lines;
    assert lines[..i + 1][..i] == lines[..i];
    var j := |NonEmpty(lines[..i])|;
    assert rows[j] == lines[i];
    assert !KnownRow(rows[j]);
  }

  // ---------------------------------------------------------------------
  // What a parsed map holds

  /** A parse succeeds exactly when some line is not empty, every character
      is a height letter, `S` or `E`, and both `S` and `E` occur. */
  lemma ParseSucceeds(lines: seq<string>)
    ensures Parse(lines).Returns? <==>
      var rows := NonEmpty(lines);
      rows != [] && AllKnown(rows)
      && (exists j :: 0 <= j < |rows| && 'S' in rows[j])
      && (exists j :: 0 <= j < |rows| && 'E' in rows[j])
  {
  }

  /** The start and the end are the last `S` and the last `E` of the
      input, in reading order. */
  lemma ParseStartEnd(lines: seq<string>, q: Vector2)
    requires Parse(lines).Returns?
    ensures var rows := NonEmpty(lines); var m := Parse(lines).value;
      rows[m.start.y][m.start.x] == 'S' && rows[m.end.y][m.end.x] == 'E'
      && (0 <= q.y < |rows| && 0 <= q.x < |rows[q.y]| && Later(m.start, q) ==> rows[q.y][q.x] != 'S')
      && (0 <= q.y < |rows| && 0 <= q.x < |rows[q.y]| && Later(m.end, q) ==> rows[q.y][q.x] != 'E')
  {
    var rows := NonEmpty(lines);
    if 0 <= q.y < |rows| && 0 <= q.x < |rows[q.y]| {
      if Later(Parse(lines).value.start, q) {
        LastPosIsLast(rows, 'S', q);
      }
      if Later(Parse(lines).value.end, q) {
        LastPosIsLast(rows, 'E', q);
      }
    }
  }

  predicate Rectangular(rows: seq<string>, w: nat)
  {
    forall j :: 0 <= j < |rows| ==> |rows[j]| == w
  }

  lemma {:induction false} HeightsLength(rows: seq<string>, w: nat)
    requires AllKnown(rows) && Rectangular(rows, w)
    ensures |Heights(rows)| == |rows| * w
  {
    if rows != [] {
      var init := rows[..|rows| - 1];
      HeightsLength(init, w);
      assert |rows| * w == |init| * w + w;
    }
  }

  lemma DivExact(a: nat, w: nat)
    requires w > 0
    ensures (a * w) / w == a
  {
    var q := (a * w) / w;
    var r := (a * w) % w;
    assert a * w == q * w + r && 0 <= r < w;
    MulAtLeast(a - q, w);
    MulAtLeast(q - a, w);
    assert (a - q) * w == r;
  }

  lemma {:induction false} MulAtLeast(k: int, w: nat)
    ensures k >= 1 ==> k * w >= w
    decreases if k > 0 then k else 0
  {
    if k > 1 {
      MulAtLeast(k - 1, w);
      assert k * w == (k - 1) * w + w;
    }
  }

  /** Cell (x, y) of a grid of rows of width `w` sits at `y * w + x`. */
  lemma {:induction false} HeightsAt(rows: seq<string>, w: nat, x: nat, y: nat)
    requires AllKnown(rows) && Rectangular(rows, w)
    requires x < w && y < |rows|
    ensures y * w + x < |Heights(rows)| && Heights(rows)[y * w + x] == CharHeight(rows[y][x]).value
  {
    var init := rows[..|rows| - 1];
    HeightsLength(init, w);
    if y < |init| {
      RowsBefore(y, |init|, w);
      HeightsAt(init, w, x, y);
    }
  }

  /** When every row has the same width, the parsed map's size is (that
      width, the number of rows), and the map is well formed. */
  lemma ParseRectangleSize(lines: seq<string>, w: nat)
    requires Parse(lines).Returns? && Rectangular(NonEmpty(lines), w)
    ensures Parse(lines).value.size == Vector2(w, |NonEmpty(lines)|) && WellFormed(Parse(lines).value)
  {
    var rows := NonEmpty(lines);
    HeightsLength(rows, w);
    DivExact(|rows|, w);
  }

  /** On such a map the valid locations are the cells of the grid, and each
      reads back the height of its letter. */
  lemma ParseRectangleCell(lines: seq<string>, w: nat, loc: Vector2)
    requires Parse(lines).Returns? && Rectangular(NonEmpty(lines), w)
    ensures var rows := NonEmpty(lines); var m := Parse(lines).value;
      (IsValidLoc(m, loc) <==> 0 <= loc.y < |rows| && 0 <= loc.x < |rows[loc.y]|)
      && (IsValidLoc(m, loc) ==> Height(m, loc) == Returns(CharHeight(rows[loc.y][loc.x]).value))
  {
    var rows := NonEmpty(lines);
    var m := Parse(lines).value;
    ParseRectangleSize(lines, w);
    if IsValidLoc(m, loc) {
      GridCell(m, rows, w, loc);
    }
  }

  lemma GridCell(m: Map, rows: seq<string>, w: nat, loc: Vector2)
    requires AllKnown(rows) && Rectangular(rows, w)
    requires m.rowMajor == Heights(rows) && m.size == Vector2(w, |rows|) && IsValidLoc(m, loc)
    ensures Height(m, loc) == Returns(CharHeight(rows[loc.y][loc.x]).value)
  {
    HeightsAt(rows, w, loc.x, loc.y);
    MulNonNegative(loc.y, w);
    HeightAtIndex(m, w, loc, loc.y * w + loc.x);
  }

  lemma MulNonNegative(a: nat, b: nat)
    ensures a * b >= 0
  {
  }

  lemma HeightAtIndex(m: Map, w: nat, loc: Vector2, index: int)
    requires m.size.x == w && index == loc.y * w + loc.x && 0 <= index < |m.rowMajor|
    ensures Height(m, loc) == Returns(m.rowMajor[index])
  {
  }

  /** On such a map the start reads height 0 and the end height 25. */
  lemma ParseRectangleStartEnd(lines: seq<string>, w: nat)
    requires Parse(lines).Returns? && Rectangular(NonEmpty(lines), w)
    ensures var m := Parse(lines).value;
      IsValidLoc(m, m.start) && IsValidLoc(m, m.end)
      && Height(m, m.start) == Returns(0) && Height(m, m.end) == Returns(25)
  {
    var m := Parse(lines).value;
    ParseRectangleCell(lines, w, m.start);
    ParseRectangleCell(lines, w, m.end);
  }

  /** The puzzle's example map parses to an 8 by 5 grid with one `S` and
      one `E`. */
  lemma ParseExample(lines: seq<string>)
    requires lines == ["Sabqponm", "abcryxxl", "accszExk", "acctuvwj", "abdefghi"]
    ensures Parse(lines).Returns?
    ensures Parse(lines).value.size == Vector2(8, 5)
  {
    NonEmptyKeepsAll(lines);
    ExampleRows(lines);
    ParseRectangleSize(lines, 8);
  }

  lemma ExampleRows(rows: seq<string>)
    requires rows == ["Sabqponm", "abcryxxl", "accszExk", "acctuvwj", "abdefghi"]
    ensures AllKnown(rows) && Rectangular(rows, 8) && 'S' in rows[0] && 'E' in rows[2]
  {
    assert KnownRow(rows[0]) && KnownRow(rows[1]) && KnownRow(rows[2]) && KnownRow(rows[3]) && KnownRow(rows[4]);
    assert rows[0][0] == 'S' && rows[2][5] == 'E';
  }
}
