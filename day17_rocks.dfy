/** Day 17: pyroclastic flow. Rocks of five shapes fall one after the
    other into a chamber seven units wide, pushed one unit left or right
    by a cyclic stream of jets before every unit they fall. A rock is
    four 4-bit rows packed in a 16-bit word, bottom row first; a row of
    the chamber is an 8-bit word whose bit 0 stands for the right wall,
    so the seven columns are bits 7 down to 1. Row 0 is the floor. */
module FallingRocks {
  import opened Common

  // ---------------------------------------------------------------------
  // Jets

  datatype Push = Left | Right

  /** `Push::inverse`: the push in the other direction. */
  function Inverse(p: Push): (q: Push)
    ensures q != p
  {
    match p
    case Left => Right
    case Right => Left
  }

  lemma InverseInverse(p: Push)
    ensures Inverse(Inverse(p)) == p
  {
  }

  function PushOf(c: char): (r: Outcome<Push>)
    ensures r.Returns? <==> c == '<' || c == '>'
    ensures r.Returns? ==> (r.value == Left <==> c == '<')
  {
    if c == '<' then Returns(Left) else if c == '>' then Returns(Right) else Panics
  }

  /** One push per character; any character other than `<` and `>`
      panics. */
  function PushesOf(s: string): (r: Outcome<seq<Push>>)
    ensures r.Returns? <==> forall i :: 0 <= i < |s| ==> s[i] == '<' || s[i] == '>'
    ensures r.Returns? ==> |r.value| == |s| && forall i :: 0 <= i < |s| ==> (r.value[i] == Left <==> s[i] == '<')
  {
    if s == [] then Returns([])
    else
      match (PushOf(s[0]), PushesOf(s[1..]))
      case (Returns(p), Returns(ps)) => Returns([p] + ps)
      case _ =>
        assert s[1..] == s[1..|s|];
        Panics
  }

  /** `Push::from_str`: trailing whitespace is dropped first. */
  function PushesFromStr(s: string): Outcome<seq<Push>>
  {
    PushesOf(TrimEnd(s))
  }

  /** The jet pattern as the puzzle input writes it. */
  function PushesToStr(ps: seq<Push>): (s: string)
    ensures |s| == |ps|
    ensures forall i :: 0 <= i < |ps| ==> s[i] == (if ps[i] == Left then '<' else '>')
  {
    if ps == [] then "" else PushesToStr(ps[..|ps| - 1]) + (if ps[|ps| - 1] == Left then "<" else ">")
  }

  /** Reading back a written jet pattern, with or without the final
      newline, gives the same pushes. */
  lemma PushesRoundTrip(ps: seq<Push>)
    ensures PushesFromStr(PushesToStr(ps)) == Returns(ps)
    ensures PushesFromStr(PushesToStr(ps) + "\n") == Returns(ps)
  {
    var s := PushesToStr(ps);
    PushesOfToStr(ps);
    if s != [] {
      assert !IsWhitespace(s[|s| - 1]);
    }
    assert (s + "\n")[..|s|] == s;
  }

  lemma PushesOfToStr(ps: seq<Push>)
    ensures PushesOf(PushesToStr(ps)) == Returns(ps)
  {
    var r := PushesOf(PushesToStr(ps));
    assert r.value == ps;
  }

  // ---------------------------------------------------------------------
  // Rock shapes

  datatype RockKind = HorzLine | VertLine | Plus | RevL | Square

  /** The discriminant of each kind: row `i` of the picture, counted from
      the bottom, in bits `4i` to `4i + 3`, the leftmost column in the
      highest of the four bits. */
  function Shape(k: RockKind): bv16
  {
    match k
    case HorzLine => 0x000F  // ####
    case VertLine => 0x8888  // #, #, #, #
    case Plus => 0x04E4      // .#., ###, .#.
    case RevL => 0x022E      // ..#, ..#, ###
    case Square => 0x00CC    // ##, ##
  }

  /** `ROCK_KINDS`: the order in which the rocks fall. */
  const ROCK_KINDS: seq<RockKind> := [HorzLine, Plus, RevL, VertLine, Square]

  /** The bit offset `4i` of row `i` of a packed rock. */
  function RowShift(i: nat): bv16
    requires i < 4
  {
    if i == 0 then 0 else if i == 1 then 4 else if i == 2 then 8 else 12
  }

  /** Row `i` of a packed rock: bits `4i` to `4i + 3`. */
  function Nibble(rows: bv16, i: nat): (r: bv8)
    requires i < 4
    ensures r < 16
  {
    ((if i == 0 then rows else if i == 1 then rows >> 4 else if i == 2 then rows >> 8 else rows >> 12) & 0xF) as bv8
  }

  /** Row `i` moved back into place gives exactly bits `4i` to `4i + 3` of
      the rock. */
  lemma NibbleInPlace(rows: bv16, i: nat)
    requires i < 4
    ensures (Nibble(rows, i) as bv16) << RowShift(i) == rows & (0xF << RowShift(i))
  {
    if i == 0 {
    } else if i == 1 {
    } else if i == 2 {
    } else {
    }
  }

  /** The four rows put back together give the packed rock. */
  lemma NibblesRebuild(rows: bv16)
    ensures rows == (Nibble(rows, 0) as bv16) | ((Nibble(rows, 1) as bv16) << 4)
                    | ((Nibble(rows, 2) as bv16) << 8) | ((Nibble(rows, 3) as bv16) << 12)
  {
  }

  /** How many rows a rock spans: one more than its highest non-empty
      row, or 0 for an empty rock. */
  function RowsUsed(rows: bv16): (n: nat)
    ensures n <= 4
    ensures n > 0 ==> Nibble(rows, n - 1) != 0
    ensures forall i :: n <= i < 4 ==> Nibble(rows, i) == 0
    ensures n == 0 <==> rows == 0
  {
    if Nibble(rows, 3) != 0 then 4
    else if Nibble(rows, 2) != 0 then 3
    else if Nibble(rows, 1) != 0 then 2
    else if Nibble(rows, 0) != 0 then 1
    else
      NibblesRebuild(rows);
      0
  }

  lemma KindRowCounts()
    ensures RowsUsed(Shape(HorzLine)) == 1 && RowsUsed(Shape(VertLine)) == 4
    ensures RowsUsed(Shape(Plus)) == 3 && RowsUsed(Shape(RevL)) == 3 && RowsUsed(Shape(Square)) == 2
    ensures Nibble(Shape(Plus), 0) == 4 && Nibble(Shape(Plus), 1) == 14
    ensures Nibble(Shape(Plus), 2) == 4 && Nibble(Shape(Plus), 3) == 0
  {
  }

  /** The low `k` bits of a row. */
  function LowBits(k: nat): bv8
    requires k <= 8
  {
    (((1 as bv16) << (k as bv5)) - 1) as bv8
  }

  /** A rock row moved from the left wall `x` columns to the right: the
      4-bit row is first placed in the top four bits, then shifted right
      by `x`. It is `None` exactly when a bit of the row would land on
      bit 0 (the right wall) or beyond, and otherwise it keeps every bit
      of the row. */
  function Shifted(row: bv8, x: nat): (r: Option<bv8>)
    requires x < 7
  {
    var r8 := row << 4;
    var r16 := (r8 as bv16) << 7;
    if Shr(r16, x) & 0xFF == 0 then Some((Shr(r8 as bv16, x)) as bv8) else None
  }

  function Shr(v: bv16, x: nat): bv16
    requires x < 7
  {
    if x == 0 then v else if x == 1 then v >> 1 else if x == 2 then v >> 2 else if x == 3 then v >> 3
    else if x == 4 then v >> 4 else if x == 5 then v >> 5 else v >> 6
  }

  lemma ShiftedMeaning(row: bv8, x: nat)
    requires x < 7
    ensures Shifted(row, x).Some? <==> (row << 4) & LowBits(x + 1) == 0
    ensures Shifted(row, x).Some? ==> Shifted(row, x).value << (x as bv4) == row << 4 && Shifted(row, x).value & 1 == 0
  {
  }

  /** Every row of the rock lies between the walls when its left edge is
      at column `x`. */
  predicate InBounds(shape: bv16, x: nat)
  {
    forall r :: 0 <= r < RowsUsed(shape) ==> x < 7 && Shifted(Nibble(shape, r), x).Some?
  }

  /** The rows of a rock at column `x`, as chamber rows. */
  function RockRows(shape: bv16, x: nat): (rs: seq<bv8>)
    requires InBounds(shape, x)
    ensures |rs| == RowsUsed(shape)
  {
    seq(RowsUsed(shape), r requires 0 <= r < RowsUsed(shape) => Shifted(Nibble(shape, r), x).value)
  }

  lemma SpawnInBounds(k: RockKind)
    ensures InBounds(Shape(k), 2) && RowsUsed(Shape(k)) >= 1
  {
  }

  /** `Rock::apply_push`: one column left or right, staying within
      columns 0 to 6. */
  function Pushed(x: nat, p: Push): (x': nat)
    ensures x <= 6 ==> x' <= 6
    ensures x' == x || x' == x + 1 || x' + 1 == x
  {
    match p
    case Left => if x > 0 then x - 1 else x
    case Right => if x < 6 then x + 1 else x
  }

  /** A push that moved the rock is undone by the inverse push. */
  lemma PushUndone(x: nat, p: Push)
    requires x <= 6 && Pushed(x, p) != x
    ensures Pushed(Pushed(x, p), Inverse(p)) == x
  {
  }

  // ---------------------------------------------------------------------
  // The chamber

  /** The rows kept of a tower: `rows[k]` is row `yOffset + k`; rows below
      `yOffset` have been dropped. */
  datatype Chamber = Chamber(rows: seq<bv8>, yOffset: nat)

  /** `Tower::row_count`. */
  function Top(c: Chamber): nat
  {
    |c.rows| + c.yOffset
  }

  /** `Tower::row`: only kept rows can be read. */
  function RowAt(c: Chamber, y: nat): (r: Outcome<bv8>)
    ensures r.Returns? <==> c.yOffset <= y < Top(c)
  {
    if y < c.yOffset || y > |c.rows| + c.yOffset then Panics
    else if y - c.yOffset >= |c.rows| then Panics
    else Returns(c.rows[y - c.yOffset])
  }

  /** `Rock::overlaps_tower` from row `r` of the rock on: the first row
      outside the walls, or sharing a bit with the chamber row at its
      height, decides. */
  function CollidesFrom(shape: bv16, x: nat, y: nat, c: Chamber, r: nat): Outcome<bool>
    decreases 4 - r
  {
    if r >= RowsUsed(shape) then Returns(false)
    else if x >= 7 then Panics
    else
      match Shifted(Nibble(shape, r), x)
      case None => Returns(true)
      case Some(rockRow) =>
        if y + r >= Top(c) then CollidesFrom(shape, x, y, c, r + 1)
        else
          match RowAt(c, y + r)
          case Panics => Panics
          case Returns(towerRow) =>
            if towerRow & rockRow != 0 then Returns(true) else CollidesFrom(shape, x, y, c, r + 1)
  }

  function Collides(shape: bv16, x: nat, y: nat, c: Chamber): Outcome<bool>
  {
    if y == 0 then Panics else CollidesFrom(shape, x, y, c, 0)
  }

  /** Row `r` of the rock is outside the walls or meets a chamber bit. */
  predicate Clash(shape: bv16, x: nat, y: nat, c: Chamber, r: nat)
    requires x < 7 && c.yOffset <= y
  {
    r < RowsUsed(shape)
    && (Shifted(Nibble(shape, r), x).None?
        || (y + r < Top(c) && c.rows[y + r - c.yOffset] & Shifted(Nibble(shape, r), x).value != 0))
  }

  lemma {:induction false} CollidesFromMeaning(shape: bv16, x: nat, y: nat, c: Chamber, r: nat)
    requires x < 7 && c.yOffset <= y
    ensures CollidesFrom(shape, x, y, c, r) == Returns(exists j :: r <= j < 4 && Clash(shape, x, y, c, j))
    decreases 4 - r
  {
    if r < RowsUsed(shape) {
      CollidesFromMeaning(shape, x, y, c, r + 1);
      if Clash(shape, x, y, c, r) {
        assert r <= r < 4;
      }
    }
  }

  /** Where it does not read below the kept rows, the overlap test holds
      exactly when some row of the rock is outside the walls or meets a
      chamber bit. */
  lemma CollidesMeaning(shape: bv16, x: nat, y: nat, c: Chamber)
    requires 0 < y && x < 7 && c.yOffset <= y
    ensures Collides(shape, x, y, c) == Returns(exists j :: 0 <= j < 4 && Clash(shape, x, y, c, j))
  {
    CollidesFromMeaning(shape, x, y, c, 0);
  }

  /** Rows at or above the top of the tower never collide. */
  lemma AboveTopIsClear(shape: bv16, x: nat, y: nat, c: Chamber)
    requires 0 < y && Top(c) <= y && InBounds(shape, x)
    ensures Collides(shape, x, y, c) == Returns(false)
  {
    if x < 7 {
      CollidesMeaning(shape, x, y, c);
    } else {
      assert RowsUsed(shape) == 0;
    }
  }

  /** A rock that fits between the walls and does not collide lies at or
      above the lowest kept row. */
  lemma ClearIsAboveOffset(shape: bv16, x: nat, y: nat, c: Chamber)
    requires InBounds(shape, x) && RowsUsed(shape) >= 1
    requires Collides(shape, x, y, c) == Returns(false)
    ensures c.yOffset <= y
  {
    assert Shifted(Nibble(shape, 0), x).Some?;
  }

  // ---------------------------------------------------------------------
  // Adding a rock to the tower

  /** The bits of `v` or-ed into row `k`, or `v` appended as a new row when
      `k` is not a row yet. */
  function OrAt(rows: seq<bv8>, k: nat, v: bv8): seq<bv8>
  {
    if k < |rows| then rows[k := rows[k] | v] else rows + [v]
  }

  /** `Tower::add_rock`'s loop: rock row `r` is or-ed into row `base + r`
      when that row exists, and otherwise pushed onto the end. */
  function Stacked(rows: seq<bv8>, rock: seq<bv8>, base: nat): seq<bv8>
    decreases |rock|
  {
    if rock == [] then rows else Stacked(OrAt(rows, base, rock[0]), rock[1..], base + 1)
  }

  /** Row `k` of a stack of rows, empty above its top. */
  function RowOr0(rows: seq<bv8>, k: nat): bv8
  {
    if k < |rows| then rows[k] else 0
  }

  /** Row `k` of the chamber once rock row `k - base` is or-ed into it. */
  function PlacedRow(rows: seq<bv8>, rock: seq<bv8>, base: nat, k: nat): bv8
  {
    RowOr0(rows, k) | (if base <= k < base + |rock| then rock[k - base] else 0)
  }

  /** Rock row `r` or-ed into row `base + r`, with empty rows added up to
      the rock's top. */
  function Placed(rows: seq<bv8>, rock: seq<bv8>, base: nat): (p: seq<bv8>)
    ensures |p| == if rock != [] && |rows| < base + |rock| then base + |rock| else |rows|
    ensures forall k :: 0 <= k < |p| ==> p[k] == PlacedRow(rows, rock, base, k)
  {
    var n := if rock != [] && |rows| < base + |rock| then base + |rock| else |rows|;
    seq(n, k requires 0 <= k < n => PlacedRow(rows, rock, base, k))
  }

  /** A placed rock keeps every bit of the rows below and holds every bit
      of the rock at its own height. */
  lemma PlacedKeepsAndHolds(rows: seq<bv8>, rock: seq<bv8>, base: nat)
    ensures |Placed(rows, rock, base)| >= |rows|
    ensures forall k :: 0 <= k < |rows| ==> Placed(rows, rock, base)[k] & rows[k] == rows[k]
    ensures rock != [] ==> |Placed(rows, rock, base)| >= base + |rock|
    ensures forall r :: 0 <= r < |rock| ==> Placed(rows, rock, base)[base + r] & rock[r] == rock[r]
  {
    var p := Placed(rows, rock, base);
    forall r | 0 <= r < |rock|
      ensures p[base + r] & rock[r] == rock[r]
    {
      assert p[base + r] == RowOr0(rows, base + r) | rock[r];
    }
  }

  /** Or-ing the first rock row in and placing the rest one row higher
      gives the same row as placing the whole rock. */
  lemma PlacedRowStep(rows: seq<bv8>, rock: seq<bv8>, base: nat, k: nat)
    requires rock != [] && base <= |rows|
    ensures PlacedRow(OrAt(rows, base, rock[0]), rock[1..], base + 1, k) == PlacedRow(rows, rock, base, k)
  {
    if k == base {
      assert RowOr0(OrAt(rows, base, rock[0]), k) == RowOr0(rows, k) | rock[0];
    } else if base < k < base + |rock| {
      assert rock[1..][k - (base + 1)] == rock[k - base];
    }
  }

  lemma {:induction false} StackedPlaces(rows: seq<bv8>, rock: seq<bv8>, base: nat)
    requires base <= |rows|
    ensures Stacked(rows, rock, base) == Placed(rows, rock, base)
    decreases |rock|
  {
    if rock != [] {
      var rows1 := OrAt(rows, base, rock[0]);
      StackedPlaces(rows1, rock[1..], base + 1);
      var p, p1 := Placed(rows, rock, base), Placed(rows1, rock[1..], base + 1);
      forall k | 0 <= k < |p|
        ensures p[k] == p1[k]
      {
        PlacedRowStep(rows, rock, base, k);
      }
    }
  }

  lemma {:induction false} StackedOnTop(rows: seq<bv8>, rock: seq<bv8>)
    ensures Stacked(rows, rock, |rows| + 1) == rows + rock
    decreases |rock|
  {
    if rock != [] {
      StackedOnTop(rows + [rock[0]], rock[1..]);
      assert rows + [rock[0]] + rock[1..] == rows + rock;
    }
  }

  /** `Tower::add_rock` on a chamber, as written: it panics unless the
      rock's bottom is above the floor, at or above the lowest kept row
      and at most one row above the top, and unless every row of the rock
      fits between the walls. */
  function Added(c: Chamber, shape: bv16, x: nat, y: nat): (r: Outcome<Chamber>)
    ensures r.Returns? <==> 0 < y && c.yOffset <= y <= Top(c) + 1 && InBounds(shape, x)
    ensures r.Returns? ==> r.value.yOffset == c.yOffset
  {
    if y == 0 || y < c.yOffset || y - c.yOffset > |c.rows| + 1 then Panics
    else if !InBounds(shape, x) then Panics
    else Returns(Chamber(Stacked(c.rows, RockRows(shape, x), y - c.yOffset), c.yOffset))
  }

  /** `Tower::add_rock` as evidently intended: the rock is stacked at its
      own height, with an empty row under it when it lies one row above
      the top. */
  function AddedFixed(c: Chamber, shape: bv16, x: nat, y: nat): (r: Outcome<Chamber>)
    ensures r.Returns? <==> 0 < y && c.yOffset <= y <= Top(c) + 1 && InBounds(shape, x)
  {
    if y == 0 || y < c.yOffset || y - c.yOffset > |c.rows| + 1 then Panics
    else if !InBounds(shape, x) then Panics
    else Returns(Chamber(Placed(c.rows, RockRows(shape, x), y - c.yOffset), c.yOffset))
  }

  /** With the corrected stacking, every bit of the tower stays set, the
      top never comes down, and every bit of the rock is set at the row
      `y + r` it occupies. */
  lemma AddedFixedPlacesRock(c: Chamber, shape: bv16, x: nat, y: nat)
    requires AddedFixed(c, shape, x, y).Returns?
    ensures var c' := AddedFixed(c, shape, x, y).value;
      c'.yOffset == c.yOffset && Top(c') >= Top(c)
      && (forall k :: 0 <= k < |c.rows| ==> c'.rows[k] & c.rows[k] == c.rows[k])
      && forall r :: 0 <= r < RowsUsed(shape) ==>
           y + r < Top(c') && c'.rows[y + r - c.yOffset] & RockRows(shape, x)[r] == RockRows(shape, x)[r]
  {
    var rock := RockRows(shape, x);
    var c' := AddedFixed(c, shape, x, y).value;
    assert c'.rows == Placed(c.rows, rock, y - c.yOffset);
    PlacedKeepsAndHolds(c.rows, rock, y - c.yOffset);
  }

  /** Up to the top of the tower, the program's stacking is the intended
      one. */
  lemma AddedAgrees(c: Chamber, shape: bv16, x: nat, y: nat)
    requires y <= Top(c)
    ensures Added(c, shape, x, y) == AddedFixed(c, shape, x, y)
  {
    if Added(c, shape, x, y).Returns? {
      StackedPlaces(c.rows, RockRows(shape, x), y - c.yOffset);
    }
  }

  /** One row above the top the assertion lets the rock through, but the
      rock is stacked directly on the top row, one row lower than its `y`. */
  lemma AddedOneAboveTop(c: Chamber, shape: bv16, x: nat)
    requires InBounds(shape, x) && RowsUsed(shape) >= 1 && 0 < Top(c) + 1
    ensures Added(c, shape, x, Top(c) + 1) == Returns(Chamber(c.rows + RockRows(shape, x), c.yOffset))
    ensures AddedFixed(c, shape, x, Top(c) + 1) == Returns(Chamber(c.rows + [0] + RockRows(shape, x), c.yOffset))
  {
    var rock := RockRows(shape, x);
    StackedOnTop(c.rows, rock);
    var p, q := Placed(c.rows, rock, |c.rows| + 1), c.rows + [0] + rock;
    assert |p| == |q|;
    forall k | 0 <= k < |p|
      ensures p[k] == q[k]
    {
      assert p[k] == PlacedRow(c.rows, rock, |c.rows| + 1, k);
      if k < |c.rows| {
        assert q[k] == c.rows[k];
      } else if k > |c.rows| {
        assert q[k] == rock[k - |c.rows| - 1];
      }
    }
    assert p == q;
    assert AddedFixed(c, shape, x, Top(c) + 1) == Returns(Chamber(p, c.yOffset));
  }

  /** On the fresh tower, a horizontal line at column 2 whose bottom is at
      y = 2 ends up in row 1. */
  lemma AddRockOneRowLow(c: Chamber)
    requires c == Chamber([0xFF], 0)
    ensures Added(c, Shape(HorzLine), 2, 2) == Returns(Chamber([0xFF, 0x3C], 0))
    ensures AddedFixed(c, Shape(HorzLine), 2, 2) == Returns(Chamber([0xFF, 0, 0x3C], 0))
  {
    assert RockRows(Shape(HorzLine), 2) == [0x3C];
    AddedOneAboveTop(c, Shape(HorzLine), 2);
    assert c.rows + [0x3C] == [0xFF, 0x3C];
    assert c.rows + [0] + [0x3C] == [0xFF, 0, 0x3C];
  }

  // ---------------------------------------------------------------------
  // The falling rock

  class Rock {
    var x: nat
    var y: nat
    const rows: bv16

    /** `Rock::new`. */
    constructor (x: nat, y: nat, rows: bv16)
      ensures this.x == x && this.y == y && this.rows == rows
    {
      this.x, this.y, this.rows := x, y, rows;
    }

    /** `Rock::row`: rows 0 to 3 only. */
    function Row(i: nat): (r: Outcome<bv8>)
      ensures r.Returns? <==> i < 4
      ensures r.Returns? ==> r.value < 16 && (r.value as bv16) << RowShift(i) == rows & (0xF << RowShift(i))
    {
      if i < 4 then
        NibbleInPlace(rows, i);
        Returns(Nibble(rows, i))
      else Panics
    }

    /** `Rock::shifted_row`: panics unless the rock's column is 0 to 6. */
    function ShiftedRow(i: nat): (r: Outcome<Option<bv8>>)
      reads this
      ensures r.Returns? <==> x < 7 && i < 4
      ensures r.Returns? ==> r.value == Shifted(Nibble(rows, i), x)
      ensures r.Returns? ==> (r.value.Some? <==> (Nibble(rows, i) << 4) & LowBits(x + 1) == 0)
      ensures r.Returns? && r.value.Some? ==> r.value.value << (x as bv4) == Nibble(rows, i) << 4 && r.value.value & 1 == 0
    {
      if x >= 7 then Panics
      else
        match Row(i)
        case Panics => Panics
        case Returns(row) =>
          ShiftedMeaning(row, x);
          Returns(Shifted(row, x))
    }

    /** `Rock::apply_push`. */
    method ApplyPush(p: Push)
      modifies this
      ensures x == Pushed(old(x), p) && y == old(y)
    {
      match p
      case Left =>
        if x > 0 {
          x := x - 1;
        }
      case Right =>
        if x < 6 {
          x := x + 1;
        }
    }

    /** `Rock::row_count`: the rows are examined from the top down. */
    method RowCount() returns (n: nat)
      ensures n == RowsUsed(rows)
    {
      for i := 0 to 4
        invariant forall j :: 4 - i <= j < 4 ==> Nibble(rows, j) == 0
      {
        TopMask(rows, i);
        if (0xF000 >> (4 * i)) & rows != 0 {
          return 4 - i;
        }
      }
      return 0;
    }

    /** `Rock::overlaps_tower`. */
    method OverlapsTower(tower: Tower) returns (r: Outcome<bool>)
      ensures r == Collides(rows, x, y, tower.State())
    {
      if y == 0 {
        return Panics;
      }
      var n := RowCount();
      for i := 0 to n
        invariant CollidesFrom(rows, x, y, tower.State(), 0) == CollidesFrom(rows, x, y, tower.State(), i)
      {
        var shifted := ShiftedRow(i);
        if shifted.Panics? {
          return Panics;
        }
        if shifted.value.Some? {
          var ty := i + y;
          if ty >= tower.RowCount() {
            continue;
          }
          var towerRow := tower.Row(ty);
          if towerRow.Panics? {
            return Panics;
          }
          if towerRow.value & shifted.value.value != 0 {
            return Returns(true);
          }
        } else {
          return Returns(true);
        }
      }
      return Returns(false);
    }
  }

  /** The mask `row_count` tests at step `i` picks out row `3 - i`. */
  lemma TopMask(rows: bv16, i: nat)
    requires i < 4
    ensures (0xF000 >> (4 * i)) & rows != 0 <==> Nibble(rows, 3 - i) != 0
  {
  }

  // ---------------------------------------------------------------------
  // The tower

  class Tower {
    var rows: seq<bv8>
    var yOffset: nat

    function State(): Chamber
      reads this
    {
      Chamber(rows, yOffset)
    }

    /** `Tower::new`: the floor alone, a full row. */
    constructor ()
      ensures rows == [0xFF] && yOffset == 0
    {
      rows, yOffset := [0xFF], 0;
    }

    /** `Tower::row_count`. */
    function RowCount(): nat
      reads this
    {
      Top(State())
    }

    /** `Tower::height`: the highest row; an empty tower with no offset
        underflows. */
    function Height(): (h: Outcome<nat>)
      reads this
      ensures h.Returns? <==> RowCount() >= 1
      ensures h.Returns? ==> h.value + 1 == RowCount()
    {
      if RowCount() == 0 then Panics else Returns(RowCount() - 1)
    }

    /** `Tower::row`. */
    function Row(y: nat): Outcome<bv8>
      reads this
    {
      RowAt(State(), y)
    }

    /** `Tower::clone_top`: a new tower holding the top `rockCount` rows,
        based at `yOffset`. */
    method CloneTop(rockCount: nat, yOffset: nat) returns (r: Outcome<Tower>)
      ensures r.Returns? <==> rockCount <= |rows|
      ensures r.Returns? ==> fresh(r.value) && r.value.rows == rows[|rows| - rockCount..]
      ensures r.Returns? ==> r.value.yOffset == yOffset && r.value.RowCount() == rockCount + yOffset
    {
      if rockCount > |rows| {
        return Panics;
      }
      var top := new Tower();
      top.rows, top.yOffset := rows[|rows| - rockCount..], yOffset;
      return Returns(top);
    }

    /** `Tower::add_rock`. */
    method AddRock(rock: Rock) returns (ok: bool)
      modifies this
      ensures ok <==> Added(old(State()), rock.rows, rock.x, rock.y).Returns?
      ensures ok ==> State() == Added(old(State()), rock.rows, rock.x, rock.y).value
    {
      if rock.y == 0 || rock.y < yOffset || rock.y - yOffset > |rows| + 1 {
        return false;
      }
      ghost var rows0, base := rows, rock.y - yOffset;
      AddLoopFits(rows0, rock.rows, rock.x, base);
      var n := rock.RowCount();
      for r := 0 to n
        invariant yOffset == old(yOffset)
        invariant AddLoop(rows, rock.rows, rock.x, base, r) == AddLoop(rows0, rock.rows, rock.x, base, 0)
      {
        var shifted := rock.ShiftedRow(r);
        if shifted.Panics? || shifted.value.None? {
          AddLoopMisfit(rows, rock.rows, rock.x, base, r, r);
          return false;
        }
        var rockRow := shifted.value.value;
        var y := (r + rock.y) - yOffset;
        AddLoopStep(rows, rock.rows, rock.x, base, r, rockRow);
        if y < |rows| {
          rows := rows[y := rows[y] | rockRow];
        } else {
          rows := rows + [rockRow];
        }
      }
      return true;
    }
  }

  /** `Tower::add_rock`'s loop from rock row `r` on: each row is shifted
      into place (a row that does not fit panics) and or-ed into row
      `base + r`, or pushed when that row does not exist yet. */
  function AddLoop(rows: seq<bv8>, shape: bv16, x: nat, base: nat, r: nat): Outcome<seq<bv8>>
    decreases 4 - r
  {
    if r >= RowsUsed(shape) then Returns(rows)
    else if x >= 7 then Panics
    else match Shifted(Nibble(shape, r), x)
      case None => Panics
      case Some(v) => AddLoop(OrAt(rows, base + r, v), shape, x, base, r + 1)
  }

  /** A row that fits is or-ed in, and the loop goes on with the next. */
  lemma AddLoopStep(rows: seq<bv8>, shape: bv16, x: nat, base: nat, r: nat, v: bv8)
    requires r < RowsUsed(shape) && x < 7 && Shifted(Nibble(shape, r), x) == Some(v)
    ensures AddLoop(rows, shape, x, base, r) == AddLoop(OrAt(rows, base + r, v), shape, x, base, r + 1)
  {
  }

  /** A row past `r` that does not fit makes the loop panic. */
  lemma {:induction false} AddLoopMisfit(rows: seq<bv8>, shape: bv16, x: nat, base: nat, r: nat, j: nat)
    requires r <= j < RowsUsed(shape) && (x >= 7 || Shifted(Nibble(shape, j), x).None?)
    ensures AddLoop(rows, shape, x, base, r) == Panics
    decreases j - r
  {
    if r < j && x < 7 && Shifted(Nibble(shape, r), x).Some? {
      AddLoopMisfit(OrAt(rows, base + r, Shifted(Nibble(shape, r), x).value), shape, x, base, r + 1, j);
    }
  }

  /** When every row fits, the loop from `r` on stacks the remaining
      rows of the rock. */
  lemma {:induction false} AddLoopStacks(rows: seq<bv8>, shape: bv16, x: nat, base: nat, r: nat)
    requires InBounds(shape, x) && r <= RowsUsed(shape)
    ensures AddLoop(rows, shape, x, base, r) == Returns(Stacked(rows, RockRows(shape, x)[r..], base + r))
    decreases RowsUsed(shape) - r
  {
    var rest := RockRows(shape, x)[r..];
    if r < RowsUsed(shape) {
      var v := Shifted(Nibble(shape, r), x).value;
      AddLoopStacks(OrAt(rows, base + r, v), shape, x, base, r + 1);
      assert rest[0] == v && rest[1..] == RockRows(shape, x)[r + 1..];
    } else {
      assert rest == [];
    }
  }

  /** The whole loop panics exactly when some row of the rock does not
      fit, and otherwise stacks the rock from row `base` up. */
  lemma AddLoopFits(rows: seq<bv8>, shape: bv16, x: nat, base: nat)
    ensures AddLoop(rows, shape, x, base, 0) ==
      if InBounds(shape, x) then Returns(Stacked(rows, RockRows(shape, x), base)) else Panics
  {
    if InBounds(shape, x) {
      AddLoopStacks(rows, shape, x, base, 0);
    } else {
      var j :| 0 <= j < RowsUsed(shape) && !(x < 7 && Shifted(Nibble(shape, j), x).Some?);
      AddLoopMisfit(rows, shape, x, base, 0, j);
    }
  }

  /** The top `k` rows of a tower, cloned at the height they had, read the
      same as in the original. */
  lemma CloneTopReadsSame(c: Chamber, k: nat, y: nat)
    requires k <= |c.rows| && Top(c) - k <= y < Top(c)
    ensures RowAt(Chamber(c.rows[|c.rows| - k..], Top(c) - k), y) == RowAt(c, y)
  {
  }
}
