/** Day 8: treetop tree house. A grid of digit heights is read line by
    line; the answer counts the trees on the border plus the interior trees
    that are strictly taller than every tree between them and the left or
    the right edge of their row. Columns are never looked at. */
module Trees {
  import opened Common

  // ---------------------------------------------------------------------
  // Visibility within one row

  /** Every tree to the left of `t` is strictly shorter. */
  predicate LeftVisible(row: seq<nat>, t: nat)
    requires t < |row|
  {
    forall k :: 0 <= k < t ==> row[k] < row[t]
  }

  /** Every tree to the right of `t` is strictly shorter. */
  predicate RightVisible(row: seq<nat>, t: nat)
    requires t < |row|
  {
    forall k :: t < k < |row| ==> row[k] < row[t]
  }

  predicate VisibleInRow(row: seq<nat>, t: nat)
    requires t < |row|
  {
    LeftVisible(row, t) || RightVisible(row, t)
  }

  /** The interior trees of a row that can be seen from its left or its
      right end, as positions `start + t` in the whole grid. */
  function RowCells(row: seq<nat>, start: nat): set<nat>
  {
    set t | 1 <= t < |row| - 1 && VisibleInRow(row, t) :: start + t
  }

  /** The interior trees before `t` seen from the left. */
  function LeftCells(row: seq<nat>, start: nat, t: nat): set<nat>
  {
    set k | 1 <= k < t && k < |row| - 1 && LeftVisible(row, k) :: start + k
  }

  /** The interior trees from `t` on seen from the right. */
  function RightCells(row: seq<nat>, start: nat, t: nat): set<nat>
  {
    set k | t <= k < |row| - 1 && RightVisible(row, k) :: start + k
  }

  lemma LeftCellsStep(row: seq<nat>, start: nat, t: nat)
    requires 1 <= t < |row| - 1
    ensures LeftCells(row, start, t + 1) ==
      LeftCells(row, start, t) + if LeftVisible(row, t) then {start + t} else {}
  {
  }

  lemma RightCellsStep(row: seq<nat>, start: nat, t: nat)
    requires t < |row| - 1
    ensures RightCells(row, start, t) ==
      RightCells(row, start, t + 1) + if RightVisible(row, t) then {start + t} else {}
  {
  }

  /** Once the left scan has found its last maximum at `lmi`, a tree left
      of `lmi` is hidden from the right by it, and `lmi` itself is already
      seen from the left: scanning from the right may stop after `lmi`. */
  lemma RowCellsSplit(row: seq<nat>, start: nat, lmi: nat)
    requires lmi < |row|
    requires forall k :: 0 <= k < |row| - 1 ==> row[k] <= row[lmi]
    requires lmi == 0 || LeftVisible(row, lmi)
    requires |row| < 2 || lmi < |row| - 1
    ensures RowCells(row, start) == LeftCells(row, start, |row| - 1) + RightCells(row, start, lmi + 1)
  {
    var left := LeftCells(row, start, |row| - 1);
    var right := RightCells(row, start, lmi + 1);
    forall x | x in RowCells(row, start)
      ensures x in left + right
    {
      var t :| 1 <= t < |row| - 1 && VisibleInRow(row, t) && x == start + t;
      if LeftVisible(row, t) {
        assert x in left;
      } else {
        assert t > lmi;
        assert x in right;
      }
    }
    forall x | x in left + right
      ensures x in RowCells(row, start)
    {
      if x in left {
        var t :| 1 <= t < |row| - 1 && LeftVisible(row, t) && x == start + t;
        assert VisibleInRow(row, t);
      } else {
        var t :| lmi + 1 <= t < |row| - 1 && RightVisible(row, t) && x == start + t;
        assert VisibleInRow(row, t);
      }
    }
  }

  /** One pass of the outer loop of `solve_part1`: the scan from the left
      remembers its last maximum, and the scan from the right stops just
      after it; every tree seen is inserted into `visible`. */
  method ScanRow(row: seq<nat>, start: nat, visible: set<nat>) returns (v: set<nat>)
    requires |row| >= 1
    ensures v == visible + RowCells(row, start)
  {
    var leftMaxIndex;
    v, leftMaxIndex := ScanFromLeft(row, start, visible);
    RowCellsSplit(row, start, leftMaxIndex);
    v := ScanFromRight(row, start, leftMaxIndex, v);
  }

  /** The scan from the left: every tree taller than all before it is
      inserted, and the position of the last one (or 0) is returned. */
  method ScanFromLeft(row: seq<nat>, start: nat, visible: set<nat>) returns (v: set<nat>, leftMaxIndex: nat)
    requires |row| >= 1
    ensures v == visible + LeftCells(row, start, |row| - 1)
    ensures leftMaxIndex < |row| && (|row| < 2 || leftMaxIndex < |row| - 1)
    ensures forall k :: 0 <= k < |row| - 1 ==> row[k] <= row[leftMaxIndex]
    ensures leftMaxIndex == 0 || LeftVisible(row, leftMaxIndex)
  {
    v := visible;
    var leftMax := row[0];
    leftMaxIndex := 0;
    var t := 1;
    while t < |row| - 1
      invariant 1 <= t && (t <= |row| - 1 || t == 1)
      invariant leftMaxIndex < t && leftMax == row[leftMaxIndex]
      invariant forall k :: 0 <= k < t ==> row[k] <= leftMax
      invariant leftMaxIndex == 0 || LeftVisible(row, leftMaxIndex)
      invariant v == visible + LeftCells(row, start, t)
    {
      LeftCellsStep(row, start, t);
      if row[t] > leftMax {
        v := v + {start + t};
        leftMaxIndex := t;
        leftMax := row[t];
      }
      t := t + 1;
    }
    assert LeftCells(row, start, t) == LeftCells(row, start, |row| - 1);
  }

  /** The scan from the right, down to just after `leftMaxIndex`: every
      tree taller than all after it is inserted. */
  method ScanFromRight(row: seq<nat>, start: nat, leftMaxIndex: nat, visible: set<nat>) returns (v: set<nat>)
    requires leftMaxIndex < |row|
    ensures v == visible + RightCells(row, start, leftMaxIndex + 1)
  {
    v := visible;
    var rightMax := row[|row| - 1];
    ghost var rightMaxIndex := |row| - 1;
    var t := |row| - 1;
    while t > leftMaxIndex + 1
      invariant leftMaxIndex + 1 <= t || t == |row| - 1
      invariant t <= rightMaxIndex < |row| && rightMax == row[rightMaxIndex]
      invariant forall k :: t <= k < |row| ==> row[k] <= rightMax
      invariant v == visible + RightCells(row, start, t)
    {
      t := t - 1;
      RightCellsStep(row, start, t);
      if row[t] > rightMax {
        v := v + {start + t};
        rightMax := row[t];
        rightMaxIndex := t;
      }
    }
    assert RightCells(row, start, t) == RightCells(row, start, leftMaxIndex + 1);
  }

  // ---------------------------------------------------------------------
  // The grid

  /** The lines that are not empty, in order. */
  function NonEmpty(lines: seq<string>): (rows: seq<string>)
    ensures |rows| <= |lines|
  {
    if lines == [] then []
    else
      var rest := NonEmpty(lines[..|lines| - 1]);
      if lines[|lines| - 1] == "" then rest else rest + [lines[|lines| - 1]]
  }

  /** `NonEmpty` keeps exactly the non-empty lines. */
  lemma {:induction false} NonEmptyKeeps(lines: seq<string>)
    ensures forall i :: 0 <= i < |NonEmpty(lines)| ==> NonEmpty(lines)[i] != "" && NonEmpty(lines)[i] in lines
    ensures forall i :: 0 <= i < |lines| && lines[i] != "" ==> lines[i] in NonEmpty(lines)
  {
    if lines != [] {
      var init := lines[..|lines| - 1];
      NonEmptyKeeps(init);
      assert forall i :: 0 <= i < |init| ==> init[i] == lines[i];
    }
  }

  lemma NonEmptyStep(lines: seq<string>, i: nat)
    requires i < |lines|
    ensures lines[i] == "" ==> NonEmpty(lines[..i + 1]) == NonEmpty(lines[..i])
    ensures lines[i] != "" ==> NonEmpty(lines[..i + 1]) == NonEmpty(lines[..i]) + [lines[i]]
  {
    assert lines[..i + 1][..i] == lines[..i];
  }

  predicate DigitRows(rows: seq<string>)
  {
    forall i :: 0 <= i < |rows| ==> AllDigits(rows[i])
  }

  lemma DigitRowsAppend(rows: seq<string>, line: string)
    requires DigitRows(rows) && AllDigits(line)
    ensures DigitRows(rows + [line]) && Flatten(rows + [line]) == Flatten(rows) + RowDigits(line)
  {
    assert (rows + [line])[..|rows|] == rows;
  }

  /** The heights of a line of digits. */
  function RowDigits(line: string): (row: seq<nat>)
    requires AllDigits(line)
    ensures |row| == |line|
    ensures forall i :: 0 <= i < |line| ==> row[i] == DigitValue(line[i])
  {
    if line == [] then []
    else RowDigits(line[..|line| - 1]) + [DigitValue(line[|line| - 1])]
  }

  /** The heights of all rows, one row after the other. */
  function Flatten(rows: seq<string>): seq<nat>
    requires DigitRows(rows)
  {
    if rows == [] then []
    else Flatten(rows[..|rows| - 1]) + RowDigits(rows[|rows| - 1])
  }

  lemma MulMono(a: nat, b: nat, c: nat)
    requires a <= b
    ensures a * c <= b * c
  {
  }

  lemma MulSucc(a: nat, b: nat)
    ensures (a + 1) * b == a * b + b
  {
  }

  /** The interior trees seen within their row, for the rows `1 .. hi - 1`
      of `trees` cut into rows of `stride` trees. */
  function RowsVisible(trees: seq<nat>, stride: nat, hi: nat): set<nat>
    requires hi * stride <= |trees|
  {
    if hi <= 1 then {}
    else
      MulMono(hi - 1, hi, stride);
      RowsVisible(trees, stride, hi - 1) + RowCells(trees[(hi - 1) * stride .. hi * stride], (hi - 1) * stride)
  }

  lemma RowsVisibleStep(trees: seq<nat>, stride: nat, hi: nat)
    requires 1 <= hi && hi * stride + stride <= |trees|
    ensures (hi + 1) * stride <= |trees|
    ensures RowsVisible(trees, stride, hi + 1) ==
      RowsVisible(trees, stride, hi) + RowCells(trees[hi * stride .. hi * stride + stride], hi * stride)
  {
    MulSucc(hi, stride);
  }

  /** The count of `solve_part1` for `trees` read as `width` rows, the rows
      being cut `stride` trees apart and `stride` trees long. The border
      trees are counted by formula; `height - 2` must not underflow and
      every row slice must lie within the trees. */
  function Answer(trees: seq<nat>, width: nat, stride: nat): Outcome<nat>
    requires width > 0
  {
    var height := |trees| / width;
    if height < 2 then Panics
    else if (width - 1) * stride > |trees| then Panics
    else Returns(width * 2 + (height - 2) * 2 + |RowsVisible(trees, stride, width - 1)|)
  }

  /** `solve_part1` as written: `width` counts the rows, yet also serves as
      the length of a row and the distance between two rows. A non-digit
      fails the assertion; no rows divides by zero. */
  function Part1(lines: seq<string>): Outcome<nat>
  {
    var rows := NonEmpty(lines);
    if !DigitRows(rows) || |rows| == 0 then Panics
    else Answer(Flatten(rows), |rows|, |rows|)
  }

  /** What `solve_part1` is meant to compute: rows are `height` trees long
      and `height` trees apart. */
  function Part1Fixed(lines: seq<string>): Outcome<nat>
  {
    var rows := NonEmpty(lines);
    if !DigitRows(rows) || |rows| == 0 then Panics
    else Answer(Flatten(rows), |rows|, |Flatten(rows)| / |rows|)
  }

  /** A non-empty line with a character other than a digit fails the
      assertion. */
  lemma NonDigitPanics(lines: seq<string>, i: nat, j: nat)
    requires i < |lines| && j < |lines[i]| && !IsDigit(lines[i][j])
    ensures !DigitRows(NonEmpty(lines))
    ensures Part1(lines) == Panics && Part1Fixed(lines) == Panics
  {
    assert lines[i] != "";
    NonEmptyKeeps(lines);
    var rows := NonEmpty(lines);
    var k :| 0 <= k < |rows| && rows[k] == lines[i];
    assert !AllDigits(rows[k]);
  }

  /** The digits of one line, or `None` at the first character that is
      not a digit (where the assertion fails). */
  method ReadRow(line: string) returns (row: Option<seq<nat>>)
    ensures AllDigits(line) ==> row == Some(RowDigits(line))
    ensures !AllDigits(line) ==> row.None?
  {
    var digits: seq<nat> := [];
    var j := 0;
    while j < |line|
      invariant j <= |line| && AllDigits(line[..j])
      invariant digits == RowDigits(line[..j])
    {
      if !IsDigit(line[j]) {
        return None;
      }
      assert line[..j + 1][..j] == line[..j];
      digits := digits + [DigitValue(line[j])];
      j := j + 1;
    }
    assert line[..j] == line;
    row := Some(digits);
  }

  /** The first half of `solve_part1`: the non-empty lines become rows of
      heights, laid end to end, and `width` counts them. */
  method ReadGrid(lines: seq<string>) returns (trees: Outcome<seq<nat>>, width: nat)
    ensures DigitRows(NonEmpty(lines)) ==> trees == Returns(Flatten(NonEmpty(lines))) && width == |NonEmpty(lines)|
    ensures !DigitRows(NonEmpty(lines)) ==> trees.Panics?
  {
    width := 0;
    var cells: seq<nat> := [];
    var i := 0;
    while i < |lines|
      invariant i <= |lines|
      invariant DigitRows(NonEmpty(lines[..i]))
      invariant width == |NonEmpty(lines[..i])|
      invariant cells == Flatten(NonEmpty(lines[..i]))
    {
      var line := lines[i];
      NonEmptyStep(lines, i);
      if |line| > 0 {
        var row := ReadRow(line);
        if row.None? {
          var j :| 0 <= j < |line| && !IsDigit(line[j]);
          NonDigitPanics(lines, i, j);
          return Panics, width;
        }
        DigitRowsAppend(NonEmpty(lines[..i]), line);
        width := width + 1;
        cells := cells + row.value;
      }
      i := i + 1;
    }
    assert lines[..i] == lines;
    trees := Returns(cells);
  }

  /** The second half of `solve_part1` as written: the border by formula,
      then the rows `1 .. width - 2`, each `width` trees long and `width`
      trees apart. */
  method CountVisible(trees: seq<nat>, width: nat) returns (r: Outcome<nat>)
    requires width > 0
    ensures r == Answer(trees, width, width)
  {
    var height := |trees| / width;
    if height < 2 {
      return Panics;
    }
    var border := width * 2 + (height - 2) * 2;
    MulMono(2, height, width);
    var visible := ScanRows(trees, width);
    if visible.Panics? {
      return Panics;
    }
    r := Returns(border + |visible.value|);
  }

  /** The loop over the rows `1 .. width - 2` of `solve_part1`, which fails
      at the first row slice that runs past the trees. */
  method ScanRows(trees: seq<nat>, width: nat) returns (visible: Outcome<set<nat>>)
    requires width > 0 && 2 * width <= |trees|
    ensures (width - 1) * width > |trees| ==> visible.Panics?
    ensures (width - 1) * width <= |trees| ==> visible == Returns(RowsVisible(trees, width, width - 1))
  {
    var seen: set<nat> := {};
    var rowIndex := 1;
    while rowIndex < width - 1
      invariant 1 <= rowIndex && (rowIndex <= width - 1 || rowIndex == 1)
      invariant rowIndex * width <= |trees|
      invariant seen == RowsVisible(trees, width, rowIndex)
    {
      var start := rowIndex * width;
      MulSucc(rowIndex, width);
      if start + width > |trees| {
        MulMono(rowIndex + 1, width - 1, width);
        return Panics;
      }
      RowsVisibleStep(trees, width, rowIndex);
      seen := ScanRow(trees[start..start + width], start, seen);
      rowIndex := rowIndex + 1;
    }
    if width >= 2 {
      assert rowIndex == width - 1;
    } else {
      assert (width - 1) * width == 0;
    }
    visible := Returns(seen);
  }

  /** `solve_part1`. */
  method SolvePart1(lines: seq<string>) returns (r: Outcome<nat>)
    ensures r == Part1(lines)
  {
    var trees, width := ReadGrid(lines);
    if trees.Panics? || width == 0 {
      return Panics;
    }
    r := CountVisible(trees.value, width);
  }

  // ---------------------------------------------------------------------
  // The row stride

  /** Every row is `h` trees long. */
  predicate Rectangular(rows: seq<string>, h: nat)
  {
    forall i :: 0 <= i < |rows| ==> |rows[i]| == h
  }

  lemma {:induction false} FlattenLength(rows: seq<string>, h: nat)
    requires DigitRows(rows) && Rectangular(rows, h)
    ensures |Flatten(rows)| == |rows| * h
  {
    if rows != [] {
      FlattenLength(rows[..|rows| - 1], h);
      MulSucc(|rows| - 1, h);
    }
  }

  /** In a rectangular grid, the trees `r * h .. r * h + h` are row `r`. */
  lemma {:induction false} FlattenRow(rows: seq<string>, h: nat, r: nat)
    requires DigitRows(rows) && Rectangular(rows, h) && r < |rows|
    ensures r * h + h <= |Flatten(rows)|
    ensures Flatten(rows)[r * h .. r * h + h] == RowDigits(rows[r])
    decreases |rows|, 1
  {
    if r < |rows| - 1 {
      FlattenRowBefore(rows, h, r);
    } else {
      FlattenRowLast(rows, h);
    }
  }

  lemma {:induction false} FlattenRowBefore(rows: seq<string>, h: nat, r: nat)
    requires DigitRows(rows) && Rectangular(rows, h) && r < |rows| - 1
    ensures r * h + h <= |Flatten(rows)|
    ensures Flatten(rows)[r * h .. r * h + h] == RowDigits(rows[r])
    decreases |rows|, 0
  {
    var init := rows[..|rows| - 1];
    assert DigitRows(init) && Rectangular(init, h);
    assert init[r] == rows[r];
    FlattenRow(init, h, r);
    SliceOfFront(Flatten(init), RowDigits(rows[|rows| - 1]), r * h, r * h + h);
  }

  lemma SliceOfFront<T>(front: seq<T>, back: seq<T>, a: nat, b: nat)
    requires a <= b <= |front|
    ensures (front + back)[a .. b] == front[a .. b]
  {
  }

  lemma FlattenRowLast(rows: seq<string>, h: nat)
    requires DigitRows(rows) && Rectangular(rows, h) && |rows| > 0
    ensures (|rows| - 1) * h + h <= |Flatten(rows)|
    ensures Flatten(rows)[(|rows| - 1) * h .. (|rows| - 1) * h + h] == RowDigits(rows[|rows| - 1])
  {
    var init := rows[..|rows| - 1];
    assert DigitRows(init) && Rectangular(init, h);
    var front := Flatten(init);
    var back := RowDigits(rows[|rows| - 1]);
    assert Flatten(rows) == front + back;
    FlattenLength(init, h);
    var a := (|rows| - 1) * h;
    assert (front + back)[a .. a + h] == back;
  }

  /** Every position recorded by `RowsVisible` lies before the end of row
      `hi - 1`. */
  lemma {:induction false} RowsVisibleBound(trees: seq<nat>, stride: nat, hi: nat)
    requires hi * stride <= |trees|
    ensures forall x :: x in RowsVisible(trees, stride, hi) ==> x < hi * stride
  {
    if hi > 1 {
      MulMono(hi - 1, hi, stride);
      RowsVisibleBound(trees, stride, hi - 1);
      MulSucc(hi - 1, stride);
    }
  }

  /** The tree in column `c` of row `r` is recorded exactly when it is an
      interior tree of its row, seen from the left or the right. */
  lemma {:induction false} RowsVisibleMember(trees: seq<nat>, stride: nat, hi: nat, r: nat, c: nat)
    requires hi * stride <= |trees|
    requires 1 <= r < hi && c < stride
    ensures r * stride + stride <= |trees|
    ensures r * stride + c in RowsVisible(trees, stride, hi) <==>
      1 <= c < stride - 1 && VisibleInRow(trees[r * stride .. r * stride + stride], c)
  {
    MulSucc(r, stride);
    MulMono(r + 1, hi, stride);
    MulMono(hi - 1, hi, stride);
    MulSucc(hi - 1, stride);
    var start := (hi - 1) * stride;
    var last := RowCells(trees[start .. hi * stride], start);
    if r == hi - 1 {
      RowsVisibleBound(trees, stride, hi - 1);
      if 1 <= c < stride - 1 && VisibleInRow(trees[r * stride .. r * stride + stride], c) {
        assert r * stride + c in last;
      }
    } else {
      MulMono(r + 1, hi - 1, stride);
      assert r * stride + c !in last;
      RowsVisibleMember(trees, stride, hi - 1, r, c);
    }
  }

  lemma DivOfProduct(w: nat, h: nat)
    requires w > 0
    ensures (w * h) / w == h
  {
    var q := (w * h) / w;
    OrderedProducts(q + 1, h, w);
    OrderedProducts(h + 1, q, w);
  }

  /** On a square grid, the one `solve_part1` is written for, the row
      count and the row length coincide and the code computes what is
      meant. */
  lemma SquareGridsAgree(lines: seq<string>)
    requires DigitRows(NonEmpty(lines)) && Rectangular(NonEmpty(lines), |NonEmpty(lines)|)
    ensures Part1(lines) == Part1Fixed(lines)
  {
    var rows := NonEmpty(lines);
    var w := |rows|;
    if w > 0 {
      FlattenLength(rows, w);
      DivOfProduct(w, w);
    }
  }

  /** On a rectangular grid of `h`-tree rows, the corrected count is the
      border of the grid plus the interior trees recorded per row. */
  lemma FixedCount(lines: seq<string>, h: nat)
    requires DigitRows(NonEmpty(lines)) && Rectangular(NonEmpty(lines), h)
    requires |NonEmpty(lines)| > 0 && h >= 2
    ensures (|NonEmpty(lines)| - 1) * h <= |Flatten(NonEmpty(lines))|
    ensures Part1Fixed(lines) ==
      Returns(|NonEmpty(lines)| * 2 + (h - 2) * 2 + |RowsVisible(Flatten(NonEmpty(lines)), h, |NonEmpty(lines)| - 1)|)
  {
    var rows := NonEmpty(lines);
    var w := |rows|;
    FlattenLength(rows, h);
    assert |Flatten(rows)| == w * h;
    DivOfProduct(w, h);
    MulMono(w - 1, w, h);
  }

  /** With the corrected stride, the tree in column `c` of interior row `r`
      is counted exactly when it is an interior tree strictly taller than
      all trees to its left or all trees to its right in that row. */
  lemma FixedSeesRow(lines: seq<string>, h: nat, r: nat, c: nat)
    requires DigitRows(NonEmpty(lines)) && Rectangular(NonEmpty(lines), h)
    requires 1 <= r < |NonEmpty(lines)| - 1 && c < h
    ensures (|NonEmpty(lines)| - 1) * h <= |Flatten(NonEmpty(lines))|
    ensures r * h + c in RowsVisible(Flatten(NonEmpty(lines)), h, |NonEmpty(lines)| - 1) <==>
      1 <= c < h - 1 && VisibleInRow(RowDigits(NonEmpty(lines)[r]), c)
  {
    var rows := NonEmpty(lines);
    var w := |rows|;
    FlattenLength(rows, h);
    MulMono(w - 1, w, h);
    FlattenRow(rows, h, r);
    RowsVisibleMember(Flatten(rows), h, w - 1, r, c);
  }

  lemma RowCellsOfThree(row: seq<nat>, start: nat)
    requires |row| == 3
    ensures RowCells(row, start) == if VisibleInRow(row, 1) then {start + 1} else {}
  {
    forall x | x in RowCells(row, start)
      ensures x == start + 1
    {
    }
  }

  lemma RowCellsOfFour(row: seq<nat>, start: nat)
    requires |row| == 4
    ensures RowCells(row, start) ==
      (if VisibleInRow(row, 1) then {start + 1} else {}) + (if VisibleInRow(row, 2) then {start + 2} else {})
  {
    forall x | x in RowCells(row, start)
      ensures x == start + 1 || x == start + 2
    {
    }
  }

  /** Three rows of four trees: the tall tree in the middle row is seen
      from the left, but as written the middle row is read from positions
      3 to 5, which straddle two lines, and the tree is missed. */
  lemma StrideMisreadsRectangle(lines: seq<string>)
    requires lines == ["1111", "1911", "1111"]
    ensures Part1(lines) == Returns(10)
    ensures Part1Fixed(lines) == Returns(11)
  {
    var trees := RectangleTrees(lines);
    assert |trees| / |lines| == 4;
    RectangleAsWritten(trees);
    RectangleFixed(trees);
  }

  lemma RectangleTrees(lines: seq<string>) returns (trees: seq<nat>)
    requires lines == ["1111", "1911", "1111"]
    ensures NonEmpty(lines) == lines && DigitRows(lines)
    ensures trees == Flatten(lines) == [1, 1, 1, 1, 1, 9, 1, 1, 1, 1, 1, 1]
  {
    RectangleLines(lines);
    RectangleFlatten(lines);
    trees := Flatten(lines);
  }

  lemma RectangleLines(lines: seq<string>)
    requires lines == ["1111", "1911", "1111"]
    ensures NonEmpty(lines) == lines && DigitRows(lines)
  {
    assert NonEmpty(lines[..1]) == ["1111"];
    assert lines[..2][..1] == lines[..1];
    assert NonEmpty(lines[..2]) == ["1111", "1911"];
    assert lines[..3][..2] == lines[..2];
  }

  lemma EdgeDigits()
    ensures AllDigits("1111") && RowDigits("1111") == [1, 1, 1, 1]
  {
    var row := RowDigits("1111");
    assert row[0] == 1 && row[1] == 1 && row[2] == 1 && row[3] == 1;
  }

  lemma MiddleDigits()
    ensures AllDigits("1911") && RowDigits("1911") == [1, 9, 1, 1]
  {
    var row := RowDigits("1911");
    assert row[0] == 1 && row[1] == 9 && row[2] == 1 && row[3] == 1;
  }

  lemma RectangleFlatten(lines: seq<string>)
    requires lines == ["1111", "1911", "1111"]
    requires DigitRows(lines)
    ensures Flatten(lines) == [1, 1, 1, 1, 1, 9, 1, 1, 1, 1, 1, 1]
  {
    EdgeDigits();
    MiddleDigits();
    assert DigitRows([]) && Flatten([]) == [];
    DigitRowsAppend([], "1111");
    assert [] + ["1111"] == ["1111"];
    DigitRowsAppend(["1111"], "1911");
    assert ["1111"] + ["1911"] == ["1111", "1911"];
    DigitRowsAppend(["1111", "1911"], "1111");
    assert ["1111", "1911"] + ["1111"] == lines;
  }

  lemma RectangleAsWritten(trees: seq<nat>)
    requires trees == [1, 1, 1, 1, 1, 9, 1, 1, 1, 1, 1, 1]
    ensures Answer(trees, 3, 3) == Returns(10)
  {
    var misread := trees[3..6];
    assert misread == [1, 1, 9];
    assert !LeftVisible(misread, 1) by { assert misread[0] >= misread[1]; }
    assert !RightVisible(misread, 1) by { assert misread[2] >= misread[1]; }
    RowCellsOfThree(misread, 3);
    assert RowsVisible(trees, 3, 2) == {};
  }

  lemma RectangleFixed(trees: seq<nat>)
    requires trees == [1, 1, 1, 1, 1, 9, 1, 1, 1, 1, 1, 1]
    ensures Answer(trees, 3, 4) == Returns(11)
  {
    var row := trees[4..8];
    assert row == [1, 9, 1, 1];
    assert LeftVisible(row, 1);
    assert !LeftVisible(row, 2) by { assert row[1] >= row[2]; }
    assert !RightVisible(row, 2) by { assert row[3] >= row[2]; }
    RowCellsOfFour(row, 4);
    assert RowsVisible(trees, 4, 2) == {5};
  }
}
