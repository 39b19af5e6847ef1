// Day 17, second half: dropping rocks into the tower, the height after a
// number of rocks, and the cycle detector that skips ahead.

module TowerHeight {
  import opened Common
  import opened FallingRocks

  // ---------------------------------------------------------------------
  // One falling rock

  /** Where a rock comes to rest, and the push index after its last push. */
  datatype Landing = Landing(x: nat, y: nat, next: nat)

  /** The sideways half of a step of `drop_rock`'s loop: the rock is
      pushed, and pushed back when it then overlaps. */
  function Sideways(shape: bv16, x: nat, y: nat, c: Chamber, p: Push): Outcome<nat>
  {
    var x1 := Pushed(x, p);
    match Collides(shape, x1, y, c)
    case Panics => Panics
    case Returns(hit) => Returns(if hit then Pushed(x1, Inverse(p)) else x1)
  }

  /** A clear rock stays clear and between the walls after the sideways
      step: a push into something is undone. */
  lemma SidewaysKeepsClear(shape: bv16, x: nat, y: nat, c: Chamber, p: Push)
    requires x <= 6 && Collides(shape, x, y, c) == Returns(false)
    requires Sideways(shape, x, y, c, p).Returns?
    ensures Sideways(shape, x, y, c, p).value <= 6
    ensures Collides(shape, Sideways(shape, x, y, c, p).value, y, c) == Returns(false)
  {
    if Collides(shape, Pushed(x, p), y, c).value {
      PushUndone(x, p);
    }
  }

  /** A rock above the floor and between the walls never makes the overlap
      test panic while the chamber keeps every row from the floor up. */
  lemma CollidesTotal(shape: bv16, x: nat, y: nat, c: Chamber)
    requires 0 < y && x <= 6 && c.yOffset == 0
    ensures Collides(shape, x, y, c).Returns?
  {
    CollidesMeaning(shape, x, y, c);
  }

  lemma SidewaysTotal(shape: bv16, x: nat, y: nat, c: Chamber, p: Push)
    requires 0 < y && x <= 6 && c.yOffset == 0
    ensures Sideways(shape, x, y, c, p).Returns? && Sideways(shape, x, y, c, p).value <= 6
  {
    CollidesTotal(shape, Pushed(x, p), y, c);
  }

  /** `drop_rock`'s loop for a rock at column `x` and height `y`, with the
      push at index `i` next: the sideways step, then one row down unless
      that reaches the floor level or overlaps, in which case the rock
      rests where it is. */
  function Fall(shape: bv16, x: nat, y: nat, c: Chamber, pushes: seq<Push>, i: nat): Outcome<Landing>
    decreases y
  {
    if i >= |pushes| then Panics
    else
      var next := (i + 1) % |pushes|;
      match Sideways(shape, x, y, c, pushes[i])
      case Panics => Panics
      case Returns(x2) =>
        if y <= 1 then Returns(Landing(x2, y, next))
        else
          match Collides(shape, x2, y - 1, c)
          case Panics => Panics
          case Returns(below) =>
            if below then Returns(Landing(x2, y, next)) else Fall(shape, x2, y - 1, c, pushes, next)
  }

  /** One step of the fall, given the outcome of the sideways step. */
  lemma FallUnfold(shape: bv16, x: nat, y: nat, c: Chamber, pushes: seq<Push>, i: nat, x2: nat)
    requires i < |pushes| && Sideways(shape, x, y, c, pushes[i]) == Returns(x2)
    ensures y <= 1 ==> Fall(shape, x, y, c, pushes, i) == Returns(Landing(x2, y, (i + 1) % |pushes|))
    ensures y > 1 && Collides(shape, x2, y - 1, c) == Returns(true) ==>
      Fall(shape, x, y, c, pushes, i) == Returns(Landing(x2, y, (i + 1) % |pushes|))
    ensures y > 1 && Collides(shape, x2, y - 1, c) == Returns(false) ==>
      Fall(shape, x, y, c, pushes, i) == Fall(shape, x2, y - 1, c, pushes, (i + 1) % |pushes|)
    ensures y > 1 && Collides(shape, x2, y - 1, c).Panics? ==> Fall(shape, x, y, c, pushes, i) == Panics
  {
  }

  /** One step down, given the outcome of the sideways step and of the
      overlap test one row lower. */
  lemma FallDown(shape: bv16, x: nat, y: nat, c: Chamber, pushes: seq<Push>, i: nat, x2: nat, below: Outcome<bool>)
    requires i < |pushes| && Sideways(shape, x, y, c, pushes[i]) == Returns(x2)
    requires y > 1 && Collides(shape, x2, y - 1, c) == below
    ensures Fall(shape, x, y, c, pushes, i) ==
      if below.Panics? then Panics
      else if below.value then Returns(Landing(x2, y, (i + 1) % |pushes|))
      else Fall(shape, x2, y - 1, c, pushes, (i + 1) % |pushes|)
  {
  }

  /** Just above the floor, the rock rests after its sideways step. */
  lemma FallAtFloor(shape: bv16, x: nat, y: nat, c: Chamber, pushes: seq<Push>, i: nat, x2: nat)
    requires i < |pushes| && Sideways(shape, x, y, c, pushes[i]) == Returns(x2) && y == 1
    ensures Fall(shape, x, y, c, pushes, i) == Returns(Landing(x2, y, (i + 1) % |pushes|))
  {
  }

  /** The fall panics on a push index past the end, on a sideways step
      that panics, and at the floor level itself. */
  lemma FallStops(shape: bv16, x: nat, y: nat, c: Chamber, pushes: seq<Push>, i: nat)
    ensures i >= |pushes| ==> Fall(shape, x, y, c, pushes, i) == Panics
    ensures i < |pushes| && Sideways(shape, x, y, c, pushes[i]).Panics? ==> Fall(shape, x, y, c, pushes, i) == Panics
    ensures y == 0 ==> Fall(shape, x, y, c, pushes, i) == Panics
  {
  }

  /** A fall that comes to rest starts with a valid push index and a
      sideways step that does not panic. */
  lemma FallStarts(shape: bv16, x: nat, y: nat, c: Chamber, pushes: seq<Push>, i: nat)
    requires Fall(shape, x, y, c, pushes, i).Returns?
    ensures i < |pushes| && Sideways(shape, x, y, c, pushes[i]).Returns?
  {
  }

  /** A rock at `l` lies between the walls, clear of the tower, and on
      the floor level or right on top of something it would overlap one
      row lower. */
  predicate Resting(shape: bv16, l: Landing, c: Chamber)
  {
    1 <= l.y && l.x <= 6 && Collides(shape, l.x, l.y, c) == Returns(false)
    && (l.y == 1 || Collides(shape, l.x, l.y - 1, c) == Returns(true))
  }

  /** A rock that is clear where it starts rests somewhere clear, no
      higher than it started, on the floor level or right on top of
      something it would overlap one row lower, between the walls, and the
      push index it hands on is a valid one. */
  lemma {:induction false} FallRests(shape: bv16, x: nat, y: nat, c: Chamber, pushes: seq<Push>, i: nat)
    requires x <= 6 && Collides(shape, x, y, c) == Returns(false)
    requires Fall(shape, x, y, c, pushes, i).Returns?
    ensures Fall(shape, x, y, c, pushes, i).value.y <= y
    ensures Fall(shape, x, y, c, pushes, i).value.next < |pushes|
    ensures Resting(shape, Fall(shape, x, y, c, pushes, i).value, c)
    decreases y
  {
    FallStarts(shape, x, y, c, pushes, i);
    var x2 := Sideways(shape, x, y, c, pushes[i]).value;
    SidewaysKeepsClear(shape, x, y, c, pushes[i]);
    var next := (i + 1) % |pushes|;
    if y <= 1 || Collides(shape, x2, y - 1, c) == Returns(true) {
      RestsHere(shape, x, y, c, pushes, i, x2);
    } else {
      FallDown(shape, x, y, c, pushes, i, x2, Collides(shape, x2, y - 1, c));
      FallRests(shape, x2, y - 1, c, pushes, next);
    }
  }

  /** A rock that stays clear after its sideways step, and is on the
      floor level or right on top of something, rests there. */
  lemma RestsHere(shape: bv16, x: nat, y: nat, c: Chamber, pushes: seq<Push>, i: nat, x2: nat)
    requires i < |pushes| && Sideways(shape, x, y, c, pushes[i]) == Returns(x2)
    requires 1 <= y && x2 <= 6 && Collides(shape, x2, y, c) == Returns(false)
    requires y <= 1 || Collides(shape, x2, y - 1, c) == Returns(true)
    ensures Fall(shape, x, y, c, pushes, i) == Returns(Landing(x2, y, (i + 1) % |pushes|))
    ensures Resting(shape, Landing(x2, y, (i + 1) % |pushes|), c)
  {
    if y > 1 {
      FallDown(shape, x, y, c, pushes, i, x2, Returns(true));
    } else {
      FallUnfold(shape, x, y, c, pushes, i, x2);
    }
  }

  /** On a chamber that keeps every row, a rock with a valid push index
      always comes to rest. */
  lemma {:induction false} FallTotal(shape: bv16, x: nat, y: nat, c: Chamber, pushes: seq<Push>, i: nat)
    requires c.yOffset == 0 && i < |pushes| && 0 < y && x <= 6
    ensures Fall(shape, x, y, c, pushes, i).Returns?
    decreases y
  {
    SidewaysTotal(shape, x, y, c, pushes[i]);
    var x2 := Sideways(shape, x, y, c, pushes[i]).value;
    FallUnfold(shape, x, y, c, pushes, i, x2);
    if y > 1 {
      CollidesTotal(shape, x2, y - 1, c);
      if !Collides(shape, x2, y - 1, c).value {
        FallTotal(shape, x2, y - 1, c, pushes, (i + 1) % |pushes|);
      }
    }
  }

  /** A rock falling onto a full top row rests right on it, wherever the
      pushes take it. */
  lemma {:induction false} FallOntoFullRow(shape: bv16, x: nat, y: nat, c: Chamber, pushes: seq<Push>, i: nat)
    requires c.yOffset == 0 && |c.rows| >= 1 && c.rows[|c.rows| - 1] == 0xFF
    requires i < |pushes| && Top(c) <= y && x <= 6
    requires InBounds(shape, x) && Nibble(shape, 0) != 0
    ensures Fall(shape, x, y, c, pushes, i).Returns?
    ensures Fall(shape, x, y, c, pushes, i).value.y == Top(c)
    decreases y
  {
    AboveTopIsClear(shape, x, y, c);
    SidewaysTotal(shape, x, y, c, pushes[i]);
    SidewaysKeepsClear(shape, x, y, c, pushes[i]);
    var x2 := Sideways(shape, x, y, c, pushes[i]).value;
    ClearIsInBounds(shape, x2, y, c);
    FallUnfold(shape, x, y, c, pushes, i, x2);
    if y > Top(c) {
      AboveTopIsClear(shape, x2, y - 1, c);
      FallOntoFullRow(shape, x2, y - 1, c, pushes, (i + 1) % |pushes|);
    } else if y > 1 {
      FullRowStops(shape, x2, y - 1, c);
    }
  }

  /** A clear rock lies between the walls. */
  lemma ClearIsInBounds(shape: bv16, x: nat, y: nat, c: Chamber)
    requires 0 < y && x < 7 && c.yOffset <= y && Collides(shape, x, y, c) == Returns(false)
    ensures InBounds(shape, x)
  {
    CollidesMeaning(shape, x, y, c);
    forall r | 0 <= r < RowsUsed(shape)
      ensures Shifted(Nibble(shape, r), x).Some?
    {
      assert !Clash(shape, x, y, c, r);
    }
  }

  /** A rock whose bottom row lies on a full chamber row overlaps it. */
  lemma FullRowStops(shape: bv16, x: nat, y: nat, c: Chamber)
    requires c.yOffset == 0 && 0 < y && y + 1 == Top(c) && c.rows[y] == 0xFF
    requires InBounds(shape, x) && Nibble(shape, 0) != 0
    ensures Collides(shape, x, y, c) == Returns(true)
  {
    var v := Shifted(Nibble(shape, 0), x).value;
    ShiftedMeaning(Nibble(shape, 0), x);
    NonzeroStaysNonzero(Nibble(shape, 0), v, x);
    CollidesMeaning(shape, x, y, c);
    assert Clash(shape, x, y, c, 0);
  }

  lemma NonzeroStaysNonzero(row: bv8, v: bv8, x: nat)
    requires row != 0 && row < 16 && x < 7 && v << (x as bv4) == row << 4
    ensures v != 0
  {
  }

  // ---------------------------------------------------------------------
  // Dropping a rock

  /** The tower after a rock has come to rest, where it rests, and the
      next push index. */
  datatype Dropped = Dropped(c: Chamber, x: nat, y: nat, next: nat)

  /** `drop_rock`: a rock of the given kind starts at column 2, three rows
      above the top, falls, and is added where it rests. */
  function Drop(c: Chamber, kind: RockKind, pushes: seq<Push>, i: nat): Outcome<Dropped>
  {
    match Fall(Shape(kind), 2, Top(c) + 3, c, pushes, i)
    case Panics => Panics
    case Returns(l) =>
      match Added(c, Shape(kind), l.x, l.y)
      case Panics => Panics
      case Returns(c') => Returns(Dropped(c', l.x, l.y, l.next))
  }

  /** Dropping onto a tower with a floor that keeps every row always
      succeeds: the rock rests at or below the top (so the stacking is the
      intended one), no bit of the tower is lost, the top never comes down,
      and the next push index is valid. */
  lemma DropOntoTower(c: Chamber, kind: RockKind, pushes: seq<Push>, i: nat)
    requires c.yOffset == 0 && |c.rows| >= 1 && i < |pushes|
    ensures Drop(c, kind, pushes, i).Returns?
    ensures var d := Drop(c, kind, pushes, i).value;
      1 <= d.y <= Top(c) && d.x <= 6 && d.next < |pushes|
      && Added(c, Shape(kind), d.x, d.y) == AddedFixed(c, Shape(kind), d.x, d.y)
      && d.c.yOffset == 0 && Top(d.c) >= Top(c)
      && forall k :: 0 <= k < |c.rows| ==> d.c.rows[k] & c.rows[k] == c.rows[k]
  {
    LandsOnTower(c, kind, pushes, i);
    var l := Fall(Shape(kind), 2, Top(c) + 3, c, pushes, i).value;
    AddsOnTower(c, Shape(kind), l.x, l.y);
  }

  /** On a tower with a floor that keeps every row, a new rock comes to
      rest clear of the tower, at or below its top, between the walls. */
  lemma LandsOnTower(c: Chamber, kind: RockKind, pushes: seq<Push>, i: nat)
    requires c.yOffset == 0 && |c.rows| >= 1 && i < |pushes|
    ensures Fall(Shape(kind), 2, Top(c) + 3, c, pushes, i).Returns?
    ensures var l := Fall(Shape(kind), 2, Top(c) + 3, c, pushes, i).value;
      1 <= l.y <= Top(c) && l.x <= 6 && l.next < |pushes| && Collides(Shape(kind), l.x, l.y, c) == Returns(false)
  {
    var shape := Shape(kind);
    SpawnInBounds(kind);
    AboveTopIsClear(shape, 2, Top(c) + 3, c);
    FallTotal(shape, 2, Top(c) + 3, c, pushes, i);
    FallRests(shape, 2, Top(c) + 3, c, pushes, i);
    var l := Fall(shape, 2, Top(c) + 3, c, pushes, i).value;
    assert Resting(shape, l, c);
    if l.y > Top(c) {
      ClearIsInBounds(shape, l.x, l.y, c);
      assert false;
    }
  }

  /** A rock clear of the tower and at or below its top is stacked as
      intended, no bit of the tower is lost and the top never comes
      down. */
  lemma AddsOnTower(c: Chamber, shape: bv16, x: nat, y: nat)
    requires c.yOffset == 0 && 1 <= y <= Top(c) && x <= 6 && Collides(shape, x, y, c) == Returns(false)
    ensures Added(c, shape, x, y).Returns? && Added(c, shape, x, y) == AddedFixed(c, shape, x, y)
    ensures var c' := Added(c, shape, x, y).value;
      c'.yOffset == 0 && Top(c') >= Top(c)
      && forall k :: 0 <= k < |c.rows| ==> c'.rows[k] & c.rows[k] == c.rows[k]
  {
    ClearIsInBounds(shape, x, y, c);
    AddedAgrees(c, shape, x, y);
    AddedFixedPlacesRock(c, shape, x, y);
  }

  /** `Drop` in terms of where the rock comes to rest. */
  lemma DropUnfold(c: Chamber, kind: RockKind, pushes: seq<Push>, i: nat)
    ensures var f := Fall(Shape(kind), 2, Top(c) + 3, c, pushes, i);
      Drop(c, kind, pushes, i) ==
        if f.Panics? || Added(c, Shape(kind), f.value.x, f.value.y).Panics? then Panics
        else Returns(Dropped(Added(c, Shape(kind), f.value.x, f.value.y).value, f.value.x, f.value.y, f.value.next))
  {
  }

  /** `drop_rock`. */
  method DropRock(kind: RockKind, tower: Tower, pushes: seq<Push>, start: nat) returns (r: Outcome<(Rock, nat)>)
    modifies tower
    ensures var d := Drop(old(tower.State()), kind, pushes, start);
      (r.Returns? <==> d.Returns?)
      && (r.Returns? ==>
            fresh(r.value.0) && r.value.0.rows == Shape(kind)
            && r.value.0.x == d.value.x && r.value.0.y == d.value.y
            && r.value.1 == d.value.next && tower.State() == d.value.c)
  {
    DropUnfold(tower.State(), kind, pushes, start);
    var rock := new Rock(2, tower.RowCount() + 3, Shape(kind));
    var landed := FallLoop(rock, tower, pushes, start);
    if landed.Panics? {
      return Panics;
    }
    var ok := tower.AddRock(rock);
    if !ok {
      return Panics;
    }
    return Returns((rock, landed.value));
  }

  /** The sideways step of `drop_rock`: the push is applied, and undone
      when the rock then overlaps the tower. `false` stands for a panic of
      the overlap test. */
  method PushSideways(rock: Rock, tower: Tower, push: Push) returns (moved: bool)
    modifies rock
    ensures var s := Sideways(rock.rows, old(rock.x), old(rock.y), tower.State(), push);
      (moved <==> s.Returns?) && (moved ==> rock.x == s.value) && rock.y == old(rock.y)
  {
    rock.ApplyPush(push);
    var hit := rock.OverlapsTower(tower);
    if hit.Panics? {
      return false;
    }
    if hit.value {
      rock.ApplyPush(Inverse(push));
    }
    return true;
  }

  /** One pass of the loop of `drop_rock`: a push, then one row down, or
      back up when the rock rests. The result says whether the rock came
      to rest and gives the next push index; the fall from the old
      position is the fall from the new one, or ends here. */
  method FallOneRow(rock: Rock, tower: Tower, pushes: seq<Push>, i: nat) returns (r: Outcome<(bool, nat)>)
    requires rock.y > 0
    modifies rock
    ensures var f := Fall(rock.rows, old(rock.x), old(rock.y), tower.State(), pushes, i);
      && (r.Panics? ==> f == Panics)
      && (r.Returns? && r.value.0 ==> f == Returns(Landing(rock.x, rock.y, r.value.1)))
      && (r.Returns? && !r.value.0 ==>
            rock.y < old(rock.y) && f == Fall(rock.rows, rock.x, rock.y, tower.State(), pushes, r.value.1))
  {
    ghost var c, shape := tower.State(), rock.rows;
    ghost var x0, y0 := rock.x, rock.y;
    FallStops(shape, x0, y0, c, pushes, i);
    if i >= |pushes| {
      return Panics;
    }
    var push := pushes[i];
    var next := (i + 1) % |pushes|;
    var moved := PushSideways(rock, tower, push);
    if !moved {
      return Panics;
    }
    ghost var x2 := rock.x;
    var rests := StepDown(rock, tower);
    if y0 == 1 {
      FallAtFloor(shape, x0, y0, c, pushes, i, x2);
    } else {
      FallDown(shape, x0, y0, c, pushes, i, x2, rests);
    }
    if rests.Panics? {
      return Panics;
    }
    return Returns((rests.value, next));
  }

  /** The downward half of a pass of `drop_rock`'s loop: the rock moves
      one row down, and back up when that reaches the floor level or
      overlaps. The result says whether the rock rests, or is a panic of
      the overlap test. */
  method StepDown(rock: Rock, tower: Tower) returns (rests: Outcome<bool>)
    requires rock.y > 0
    modifies rock
    ensures rock.x == old(rock.x)
    ensures rests == if old(rock.y) == 1 then Returns(true) else Collides(rock.rows, rock.x, old(rock.y) - 1, tower.State())
    ensures rests.Returns? ==> rock.y == if rests.value then old(rock.y) else old(rock.y) - 1
  {
    rock.y := rock.y - 1;
    if rock.y == 0 {
      rock.y := rock.y + 1;
      return Returns(true);
    }
    rests := rock.OverlapsTower(tower);
    if rests == Returns(true) {
      rock.y := rock.y + 1;
    }
  }

  /** The loop of `drop_rock` up to the point where the rock comes to
      rest: the rock ends where `Fall` says, and the push index after its
      last push is returned. */
  method FallLoop(rock: Rock, tower: Tower, pushes: seq<Push>, start: nat) returns (r: Outcome<nat>)
    modifies rock
    ensures var f := Fall(rock.rows, old(rock.x), old(rock.y), tower.State(), pushes, start);
      (r.Returns? <==> f.Returns?)
      && (r.Returns? ==> rock.x == f.value.x && rock.y == f.value.y && r.value == f.value.next)
  {
    ghost var c, shape := tower.State(), rock.rows;
    ghost var goal := Fall(shape, rock.x, rock.y, c, pushes, start);
    var pushIndex: nat := start;
    while rock.y > 0
      invariant tower.State() == c
      invariant Fall(shape, rock.x, rock.y, c, pushes, pushIndex) == goal
      decreases rock.y
    {
      var step := FallOneRow(rock, tower, pushes, pushIndex);
      if step.Panics? {
        return Panics;
      }
      pushIndex := step.value.1;
      if step.value.0 {
        return Returns(pushIndex);
      }
    }
    FallStops(shape, rock.x, rock.y, c, pushes, pushIndex);
    return Panics;
  }

  // ---------------------------------------------------------------------
  // Many rocks

  /** The kind of rock number `r`: the five kinds in turn. */
  function KindOf(r: nat): RockKind
  {
    ROCK_KINDS[r % 5]
  }

  /** The tower and push index after dropping rocks `r` up to `n`. */
  function Run(c: Chamber, pushes: seq<Push>, i: nat, r: nat, n: nat): Outcome<(Chamber, nat)>
    decreases n - r, 2
  {
    if r >= n then Returns((c, i)) else RunRock(c, pushes, i, r, n)
  }

  /** Drops rock `r`, of the kind its number gives, and then runs the
      rest. */
  function RunRock(c: Chamber, pushes: seq<Push>, i: nat, r: nat, n: nat): Outcome<(Chamber, nat)>
    requires r < n
    decreases n - r, 1
  {
    RunKind(c, KindOf(r), pushes, i, r, n)
  }

  /** Drops a rock of `kind` as rock `r`, and then runs the rest. */
  function RunKind(c: Chamber, kind: RockKind, pushes: seq<Push>, i: nat, r: nat, n: nat): Outcome<(Chamber, nat)>
    requires r < n
    decreases n - r, 0
  {
    match Drop(c, kind, pushes, i)
    case Panics => Panics
    case Returns(d) => Run(d.c, pushes, d.next, r + 1, n)
  }

  /** One more rock of a run. */
  lemma RunStep(c: Chamber, pushes: seq<Push>, i: nat, r: nat, n: nat)
    requires r < n
    ensures Run(c, pushes, i, r, n) ==
      if Drop(c, KindOf(r), pushes, i).Panics? then Panics
      else Run(Drop(c, KindOf(r), pushes, i).value.c, pushes, Drop(c, KindOf(r), pushes, i).value.next, r + 1, n)
  {
    assert Run(c, pushes, i, r, n) == RunKind(c, KindOf(r), pushes, i, r, n);
  }

  /** A run with no rocks left ends where it is. */
  lemma RunDone(c: Chamber, pushes: seq<Push>, i: nat, r: nat, n: nat)
    requires r >= n
    ensures Run(c, pushes, i, r, n) == Returns((c, i))
  {
  }

  /** `Tower::new`. */
  const FLOOR: Chamber := Chamber([0xFF], 0)

  /** The tower and push index after `n` rocks, from the floor alone. */
  function Simulate(pushes: seq<Push>, n: nat): Outcome<(Chamber, nat)>
  {
    Run(FLOOR, pushes, 0, 0, n)
  }

  /** `Tower::height` of the tower a run ends with. */
  function HeightOf(o: Outcome<(Chamber, nat)>): Outcome<nat>
  {
    if o.Panics? || Top(o.value.0) == 0 then Panics else Returns(Top(o.value.0) - 1)
  }

  /** From a tower with a floor that keeps every row, any number of rocks
      can be dropped: the run never panics, no bit is lost and the height
      never comes down. */
  lemma {:induction false} RunGrows(c: Chamber, pushes: seq<Push>, i: nat, r: nat, n: nat)
    requires c.yOffset == 0 && |c.rows| >= 1 && i < |pushes|
    ensures Run(c, pushes, i, r, n).Returns?
    ensures var c' := Run(c, pushes, i, r, n).value.0;
      c'.yOffset == 0 && Top(c') >= Top(c) && Run(c, pushes, i, r, n).value.1 < |pushes|
      && forall k :: 0 <= k < |c.rows| ==> c'.rows[k] & c.rows[k] == c.rows[k]
    decreases n - r
  {
    if r >= n {
      RunDone(c, pushes, i, r, n);
    }
    if r < n {
      RunStep(c, pushes, i, r, n);
      DropOntoTower(c, KindOf(r), pushes, i);
      var d := Drop(c, KindOf(r), pushes, i).value;
      RunGrows(d.c, pushes, d.next, r + 1, n);
      assert Run(c, pushes, i, r, n) == Run(d.c, pushes, d.next, r + 1, n);
      var c' := Run(c, pushes, i, r, n).value.0;
      forall k | 0 <= k < |c.rows|
        ensures c'.rows[k] & c.rows[k] == c.rows[k]
      {
        BitsKept(c.rows[k], d.c.rows[k], c'.rows[k]);
      }
    }
  }

  lemma BitsKept(a: bv8, b: bv8, c: bv8)
    requires b & a == a && c & b == b
    ensures c & a == a
  {
  }

  /** Running to `m` and then on to `n` is running to `n`. */
  lemma {:induction false} RunSplits(c: Chamber, pushes: seq<Push>, i: nat, r: nat, m: nat, n: nat)
    requires r <= m <= n && Run(c, pushes, i, r, m).Returns?
    ensures Run(c, pushes, i, r, n)
            == Run(Run(c, pushes, i, r, m).value.0, pushes, Run(c, pushes, i, r, m).value.1, m, n)
    decreases m - r
  {
    if r < m {
      RunStep(c, pushes, i, r, m);
      RunStep(c, pushes, i, r, n);
      var d := Drop(c, KindOf(r), pushes, i).value;
      RunSplits(d.c, pushes, d.next, r + 1, m, n);
    } else {
      RunDone(c, pushes, i, r, m);
    }
  }

  /** The tower only grows: after more rocks it is at least as high. */
  lemma HeightMonotone(pushes: seq<Push>, m: nat, n: nat)
    requires |pushes| > 0 && m <= n
    ensures HeightOf(Simulate(pushes, m)).Returns? && HeightOf(Simulate(pushes, n)).Returns?
    ensures HeightOf(Simulate(pushes, m)).value <= HeightOf(Simulate(pushes, n)).value
  {
    RunGrows(FLOOR, pushes, 0, 0, m);
    var s := Simulate(pushes, m).value;
    RunSplits(FLOOR, pushes, 0, 0, m, n);
    RunGrows(s.0, pushes, s.1, m, n);
    RunGrows(FLOOR, pushes, 0, 0, n);
  }

  /** With no pushes, the first rock already panics. */
  lemma NoPushesPanics(n: nat)
    requires n > 0
    ensures Simulate([], n) == Panics
  {
    RunStep(FLOOR, [], 0, 0, n);
  }

  /** Whatever the pushes, the first rock is a horizontal line resting on
      the floor, so the tower is one row high. */
  lemma FirstRockHeight(pushes: seq<Push>)
    requires |pushes| > 0
    ensures HeightOf(Simulate(pushes, 1)) == Returns(1)
  {
    FirstDrop(pushes);
    var d := Drop(FLOOR, HorzLine, pushes, 0).value;
    assert KindOf(0) == HorzLine;
    RunStep(FLOOR, pushes, 0, 0, 1);
    RunDone(d.c, pushes, d.next, 1, 1);
  }

  /** The first rock rests on the floor and makes the chamber two rows
      high. */
  lemma FirstDrop(pushes: seq<Push>)
    requires |pushes| > 0
    ensures Drop(FLOOR, HorzLine, pushes, 0).Returns? && Top(Drop(FLOOR, HorzLine, pushes, 0).value.c) == 2
  {
    var shape := Shape(HorzLine);
    SpawnInBounds(HorzLine);
    assert Nibble(shape, 0) != 0 && RowsUsed(shape) == 1;
    FallOntoFullRow(shape, 2, Top(FLOOR) + 3, FLOOR, pushes, 0);
    LandsOnTower(FLOOR, HorzLine, pushes, 0);
    var l := Fall(shape, 2, Top(FLOOR) + 3, FLOOR, pushes, 0).value;
    AddsOnTower(FLOOR, shape, l.x, l.y);
    LineOnFloor(l.x);
  }

  /** A horizontal line between the walls on the floor adds one row. */
  lemma LineOnFloor(x: nat)
    requires AddedFixed(FLOOR, Shape(HorzLine), x, 1).Returns?
    ensures Top(AddedFixed(FLOOR, Shape(HorzLine), x, 1).value) == 2
  {
    SpawnInBounds(HorzLine);
    assert RowsUsed(Shape(HorzLine)) == 1;
    AddedFixedPlacesRock(FLOOR, Shape(HorzLine), x, 1);
    PlacedLength(FLOOR.rows, RockRows(Shape(HorzLine), x), 1);
  }

  lemma PlacedLength(rows: seq<bv8>, rock: seq<bv8>, base: nat)
    requires base <= |rows| < base + |rock|
    ensures |Placed(rows, rock, base)| == base + |rock|
  {
  }

  /** `get_tower_height_from`: drops rocks `startR` up to `rockCount` and
      returns the height. */
  method GetTowerHeightFrom(tower: Tower, pushes: seq<Push>, pushIndex: nat, startR: nat, rockCount: nat)
    returns (h: Outcome<nat>)
    modifies tower
    ensures h == HeightOf(Run(old(tower.State()), pushes, pushIndex, startR, rockCount))
  {
    ghost var goal := Run(tower.State(), pushes, pushIndex, startR, rockCount);
    var r: nat, i: nat := startR, pushIndex;
    while r < rockCount
      invariant Run(tower.State(), pushes, i, r, rockCount) == goal
      decreases rockCount - r
    {
      var dropped := DropNext(tower, pushes, i, r, rockCount);
      if dropped.Panics? {
        return Panics;
      }
      assert Run(tower.State(), pushes, dropped.value.1, r + 1, rockCount) == goal;
      i := dropped.value.1;
      r := r + 1;
    }
    RunDone(tower.State(), pushes, i, r, rockCount);
    h := tower.Height();
  }

  /** `drop_rock` for rock `r` of a run to `n`: the rest of the run from
      the tower before is the rest of the run from the tower after, or a
      panic when the drop panics; a tower with a floor that keeps every
      row takes the rock, which rests between the walls, and keeps its
      floor and its height. */
  method DropNext(tower: Tower, pushes: seq<Push>, i: nat, r: nat, n: nat) returns (d: Outcome<(Rock, nat)>)
    requires r < n
    modifies tower
    ensures d.Panics? ==> Run(old(tower.State()), pushes, i, r, n) == Panics
    ensures d.Returns? ==> Run(old(tower.State()), pushes, i, r, n) == Run(tower.State(), pushes, d.value.1, r + 1, n)
    ensures old(tower.yOffset) == 0 && old(|tower.rows|) >= 1 && i < |pushes| ==>
      d.Returns? && d.value.0.x <= 6 && d.value.1 < |pushes|
      && tower.yOffset == 0 && |tower.rows| >= old(|tower.rows|)
  {
    ghost var c := tower.State();
    RunStep(c, pushes, i, r, n);
    if c.yOffset == 0 && |c.rows| >= 1 && i < |pushes| {
      DropOntoTower(c, KindOf(r), pushes, i);
    }
    d := DropRock(KindOf(r), tower, pushes, i);
  }

  // ---------------------------------------------------------------------
  // The cycle detector

  /** A column below 8 as three bits. */
  function Bits3(x: nat): bv16
    requires x < 8
  {
    if x == 0 then 0 else if x == 1 then 1 else if x == 2 then 2 else if x == 3 then 3
    else if x == 4 then 4 else if x == 5 then 5 else if x == 6 then 6 else 7
  }

  /** `x as u16 & 0b111` for a column below 8. */
  lemma Bits3Cast(x: nat)
    requires x < 8
    ensures (x as bv16) & 7 == Bits3(x)
  {
  }

  /** Different columns give different bits. */
  lemma Bits3Injective(a: nat, b: nat)
    requires a < 8 && b < 8 && Bits3(a) == Bits3(b)
    ensures a == b
  {
  }

  /** The three bits of `x` in slot `s` of a record key. */
  function KeySlot(x: nat, s: nat): bv16
    requires x < 8 && s < 5
  {
    var v := Bits3(x);
    if s == 0 then v else if s == 1 then v << 3 else if s == 2 then v << 6 else if s == 3 then v << 9 else v << 12
  }

  /** The three bits held in slot `s` of a record key. */
  function Field(key: bv16, s: nat): bv16
    requires s < 5
  {
    (if s == 0 then key else if s == 1 then key >> 3 else if s == 2 then key >> 6 else if s == 3 then key >> 9 else key >> 12) & 7
  }

  /** `add_x`'s shift by three bits per slot puts `x` in slot `s`. */
  lemma SlotShift(x: nat, s: nat)
    requires x < 8 && s < 5
    ensures ((x as bv16) & 7) << ((s * 3) as bv4) == KeySlot(x, s)
  {
    Bits3Cast(x);
    if s == 0 {
      assert (s * 3) as bv4 == 0;
    } else if s == 1 {
      assert (s * 3) as bv4 == 3;
    } else if s == 2 {
      assert (s * 3) as bv4 == 6;
    } else if s == 3 {
      assert (s * 3) as bv4 == 9;
    } else {
      assert (s * 3) as bv4 == 12;
    }
  }

  /** Slot `s` of a key made of one slot holds `x`; every other slot is
      empty. */
  lemma KeySlotReads(x: nat, s: nat, t: nat)
    requires x < 8 && s < 5 && t < 5
    ensures Field(KeySlot(x, s), t) == if s == t then Bits3(x) else 0
  {
  }

  /** Fields of or-ed keys are or-ed. */
  lemma FieldOr(a: bv16, b: bv16, t: nat)
    requires t < 5
    ensures Field(a | b, t) == Field(a, t) | Field(b, t)
  {
    if t == 0 {
    } else if t == 1 {
      assert (a | b) >> 3 == (a >> 3) | (b >> 3);
    } else if t == 2 {
      assert (a | b) >> 6 == (a >> 6) | (b >> 6);
    } else if t == 3 {
      assert (a | b) >> 9 == (a >> 9) | (b >> 9);
    } else {
      assert (a | b) >> 12 == (a >> 12) | (b >> 12);
    }
  }

  /** The key of a group of five rocks: column `xs[s]` in slot `s`. */
  function Key(xs: seq<nat>): bv16
    requires |xs| <= 5 && forall s :: 0 <= s < |xs| ==> xs[s] < 8
  {
    if xs == [] then 0 else Key(xs[..|xs| - 1]) | KeySlot(xs[|xs| - 1], |xs| - 1)
  }

  /** Each slot of a key holds the column it was given, and unused slots
      are empty. */
  lemma {:induction false} KeyFields(xs: seq<nat>, t: nat)
    requires |xs| <= 5 && (forall s :: 0 <= s < |xs| ==> xs[s] < 8) && t < 5
    ensures Field(Key(xs), t) == if t < |xs| then Bits3(xs[t]) else 0
    decreases |xs|
  {
    if xs != [] {
      var n := |xs| - 1;
      assert Key(xs) == Key(xs[..n]) | KeySlot(xs[n], n);
      KeyFields(xs[..n], t);
      KeySlotReads(xs[n], n, t);
      var a: bv16 := if t < n then Bits3(xs[..n][t]) else 0;
      OrOfFields(Key(xs[..n]), KeySlot(xs[n], n), t, n, a, Bits3(xs[n]));
      assert t < n ==> xs[..n][t] == xs[t];
    }
  }

  /** Or-ing a key whose slots below `n` hold something with a key that
      holds only slot `n`. */
  lemma OrOfFields(low: bv16, slot: bv16, t: nat, n: nat, a: bv16, b: bv16)
    requires t < 5
    requires Field(low, t) == (if t < n then a else 0)
    requires Field(slot, t) == (if t == n then b else 0)
    ensures Field(low | slot, t) == (if t < n then a else if t == n then b else 0)
  {
    FieldOr(low, slot, t);
  }

  /** Two groups of five rocks share a key only when they rested in the
      same columns. */
  lemma KeyDistinguishes(xs: seq<nat>, ys: seq<nat>)
    requires |xs| == 5 && |ys| == 5
    requires (forall s :: 0 <= s < 5 ==> xs[s] < 8) && (forall s :: 0 <= s < 5 ==> ys[s] < 8)
    requires Key(xs) == Key(ys)
    ensures xs == ys
  {
    forall t | 0 <= t < 5
      ensures xs[t] == ys[t]
    {
      KeyFields(xs, t);
      KeyFields(ys, t);
      Bits3Injective(xs[t], ys[t]);
    }
  }

  /** `HeightRecordKey`: the columns the last group of five rocks rested
      in. */
  class HeightRecordKey {
    var key: bv16

    /** `HeightRecordKey::new`. */
    constructor ()
      ensures key == 0
    {
      key := 0;
    }

    /** `HeightRecordKey::add_x`: panics unless the column is 0 to 6 and
        the index at most 5; otherwise the column goes into slot
        `rockIndex % 5`. */
    method AddX(x: nat, rockIndex: nat) returns (ok: bool)
      modifies this
      ensures ok <==> x < 7 && rockIndex <= 5
      ensures ok ==> key == old(key) | KeySlot(x, rockIndex % 5)
      ensures !ok ==> key == old(key)
    {
      if x >= 7 || rockIndex > 5 {
        return false;
      }
      var shift := rockIndex % 5;
      SlotShift(x, shift);
      key := key | (((x as bv16) & 7) << ((shift * 3) as bv4));
      return true;
    }
  }

  /** `RocksHeightRecord`: the last rock of a group, the height after it,
      the push index after it, and how far height and rock number moved
      since the previous group with the same key. */
  datatype Record = Record(r: nat, height: nat, pushIndex: nat, heightDiff: nat, rocksSinceLast: nat, matchCount: nat)

  /** `RocksHeightRecord::new`: the first group seen with its key. */
  function NewRecord(r: nat, height: nat, pushIndex: nat): (rec: Record)
    ensures rec.r == r && rec.height == height && rec.pushIndex == pushIndex
    ensures rec.heightDiff == 0 && rec.rocksSinceLast == 0 && rec.matchCount == 1
  {
    Record(r, height, pushIndex, 0, 0, 1)
  }

  /** `RocksHeightRecord::new_diff`: panics when rock number or height went
      back; counts one more match exactly when the height gained, the
      rocks dropped and the push index all repeat the previous record's. */
  function NewDiff(r: nat, height: nat, pushIndex: nat, prev: Record): (res: Outcome<Record>)
    ensures res.Returns? <==> prev.r <= r && prev.height <= height
    ensures res.Returns? ==>
      var rec := res.value;
      rec.r == r && rec.height == height && rec.pushIndex == pushIndex
      && prev.r + rec.rocksSinceLast == r && prev.height + rec.heightDiff == height
      && (rec.matchCount == prev.matchCount + 1 <==>
            (rec.heightDiff == prev.heightDiff && rec.rocksSinceLast == prev.rocksSinceLast
             && pushIndex == prev.pushIndex) || prev.matchCount == 0)
      && (rec.matchCount == 1 <==>
            !(rec.heightDiff == prev.heightDiff && rec.rocksSinceLast == prev.rocksSinceLast
              && pushIndex == prev.pushIndex) || prev.matchCount == 0)
  {
    if r < prev.r || height < prev.height then Panics
    else
      var rocksSinceLast := r - prev.r;
      var heightDiff := height - prev.height;
      var matchCount :=
        if heightDiff == prev.heightDiff && rocksSinceLast == prev.rocksSinceLast && pushIndex == prev.pushIndex
        then prev.matchCount + 1 else 1;
      Returns(Record(r, height, pushIndex, heightDiff, rocksSinceLast, matchCount))
  }

  /** What holds of every record `get_tower_height` keeps after `r`
      rocks: it belongs to an earlier last-of-group rock, its match count
      is at most the number of groups up to it, a repeated match spans at
      least one group, and its height has not been passed. */
  predicate Kept(rec: Record, r: nat, height: nat)
  {
    rec.r < r && rec.r % 5 == 4 && 1 <= rec.matchCount <= (rec.r + 1) / 5 && rec.height <= height
  }

  /** The record made for a group ending at rock `r` keeps its bounds:
      so a match count of ten needs fifty rocks, and a skip never divides
      by zero. */
  lemma NextRecordBounded(r: nat, height: nat, pushIndex: nat, prev: Record)
    requires r % 5 == 4 && Kept(prev, r, height)
    ensures NewDiff(r, height, pushIndex, prev).Returns?
    ensures var rec := NewDiff(r, height, pushIndex, prev).value;
      Kept(rec, r + 1, height) && rec.rocksSinceLast >= 5
  {
  }

  lemma NewRecordBounded(r: nat, height: nat, pushIndex: nat)
    requires r % 5 == 4
    ensures Kept(NewRecord(r, height, pushIndex), r + 1, height)
  {
  }

  /** The record `get_tower_height` makes for the group of five rocks
      ending at rock `r`: a difference against the record kept under the
      same key, or a first record. */
  function GroupRecord(records: map<nat, Record>, key: nat, r: nat, height: nat, pushIndex: nat): Outcome<Record>
  {
    if key in records then NewDiff(r, height, pushIndex, records[key]) else Returns(NewRecord(r, height, pushIndex))
  }

  /** While every kept record belongs to an earlier group, the record of
      a group never panics, is kept itself, and reaches ten matches only
      after fifty rocks, with a cycle of at least one group. */
  lemma GroupRecordKept(records: map<nat, Record>, key: nat, r: nat, height: nat, height': nat, pushIndex: nat)
    requires r % 5 == 4 && height <= height'
    requires forall k :: k in records ==> Kept(records[k], r, height)
    ensures GroupRecord(records, key, r, height', pushIndex).Returns?
    ensures var rec := GroupRecord(records, key, r, height', pushIndex).value;
      Kept(rec, r + 1, height') && (rec.matchCount >= 10 ==> r + 1 >= 50 && rec.rocksSinceLast >= 5)
  {
    if key in records {
      NextRecordBounded(r, height', pushIndex, records[key]);
    } else {
      NewRecordBounded(r, height', pushIndex);
    }
  }

  /** Every kept record stays kept after one more rock and a tower that
      did not come down. */
  lemma KeptLater(records: map<nat, Record>, r: nat, height: nat, height': nat)
    requires height <= height'
    requires forall k :: k in records ==> Kept(records[k], r, height)
    ensures forall k :: k in records ==> Kept(records[k], r + 1, height')
  {
  }

  /** Storing a record that is kept after rock `r` keeps every record
      kept. */
  lemma KeptStored(records: map<nat, Record>, r: nat, height: nat, height': nat, key: nat, rec: Record,
                   stored: map<nat, Record>)
    requires height <= height' && Kept(rec, r + 1, height') && stored == records[key := rec]
    requires forall k :: k in records ==> Kept(records[k], r, height)
    ensures forall k :: k in stored ==> Kept(stored[k], r + 1, height')
  {
    KeptLater(records, r, height, height');
    forall k | k in stored
      ensures Kept(stored[k], r + 1, height')
    {
      if k != key {
        assert stored[k] == records[k];
      } else {
        assert stored[k] == rec;
      }
    }
  }

  /** The tower a skip ahead goes on from: the top `heightDiff` rows of
      the tower of height `height`, lifted by `jumps` cycles that each add
      `heightDiff` rows. */
  function Skipped(rows: seq<bv8>, height: nat, heightDiff: nat, jumps: nat): (c: Chamber)
    requires heightDiff <= height && heightDiff <= |rows|
    ensures c.rows == rows[|rows| - heightDiff..]
    ensures Top(c) == height + 1 + jumps * heightDiff
  {
    Chamber(rows[|rows| - heightDiff..], (height - heightDiff) + jumps * heightDiff + 1)
  }

  /** The rock a skip resumes at: the one after rock `r`, moved on by as
      many whole cycles of `rocksSinceLast` rocks as fit into `rocksLeft`.
      It is never past `r + 1 + rocksLeft`, and less than one cycle short
      of it. */
  function ResumeAt(r: nat, rocksSinceLast: nat, rocksLeft: nat): (newR: nat)
    requires rocksSinceLast > 0
    ensures r + 1 <= newR <= r + 1 + rocksLeft < newR + rocksSinceLast
  {
    r + 1 + (rocksLeft / rocksSinceLast) * rocksSinceLast
  }

  /** The skip ahead of `get_tower_height` once a record has matched ten
      times: it panics where the subtraction or division of the source
      would, and otherwise the height is that of the run from the cloned
      top, starting right after the last whole cycle that fits. */
  method SkipCycles(tower: Tower, record: Record, r: nat, pushes: seq<Push>, pushIndex: nat, rockCount: nat)
    returns (h: Outcome<nat>)
    ensures r > rockCount || record.rocksSinceLast == 0 || tower.Height().Panics? ==> h == Panics
    ensures r <= rockCount && record.rocksSinceLast > 0 && tower.Height().Returns? ==>
      var height := tower.Height().value;
      var jumps := (rockCount - r) / record.rocksSinceLast;
      h == if record.heightDiff > height || record.heightDiff > |tower.rows| then Panics
           else HeightOf(Run(Skipped(tower.rows, height, record.heightDiff, jumps), pushes, pushIndex,
                             r + 1 + jumps * record.rocksSinceLast, rockCount))
  {
    var height := tower.Height();
    if r > rockCount || record.rocksSinceLast == 0 || height.Panics? || record.heightDiff > height.value {
      return Panics;
    }
    var rocksLeft: nat := rockCount - r;
    var jumps: nat := rocksLeft / record.rocksSinceLast;
    var newR: nat := ResumeAt(r, record.rocksSinceLast, rocksLeft);
    var yOffset: nat := (height.value - record.heightDiff) + jumps * record.heightDiff + 1;
    var top := tower.CloneTop(record.heightDiff, yOffset);
    if top.Panics? {
      return Panics;
    }
    assert top.value.State() == Skipped(tower.rows, height.value, record.heightDiff, jumps);
    h := GetTowerHeightFrom(top.value, pushes, pushIndex, newR, rockCount);
  }

  /** As written, the skip counts rock `r` among the rocks left, though it
      has already been dropped. When whole cycles fill `rockCount - r`
      exactly, it resumes at rock `rockCount + 1`: the run drops nothing,
      and the answer is the height after rock `r` lifted by `jumps`
      cycles, which stands for `r + 1 + jumps * rocksSinceLast`, that is
      `rockCount + 1` rocks. */
  lemma SkipOvershoots(rows: seq<bv8>, height: nat, record: Record, r: nat, pushes: seq<Push>, pushIndex: nat,
                       rockCount: nat)
    requires r < rockCount && record.rocksSinceLast > 0 && (rockCount - r) % record.rocksSinceLast == 0
    requires record.heightDiff <= height && record.heightDiff <= |rows|
    ensures var jumps := (rockCount - r) / record.rocksSinceLast;
      r + 1 + jumps * record.rocksSinceLast == rockCount + 1
      && ResumeAt(r, record.rocksSinceLast, rockCount - r) == rockCount + 1
      && HeightOf(Run(Skipped(rows, height, record.heightDiff, jumps), pushes, pushIndex, rockCount + 1, rockCount))
         == Returns(height + jumps * record.heightDiff)
  {
    var jumps := (rockCount - r) / record.rocksSinceLast;
    DivUnique(rockCount - r, record.rocksSinceLast, jumps, 0);
    RunDone(Skipped(rows, height, record.heightDiff, jumps), pushes, pushIndex, rockCount + 1, rockCount);
  }

  /** The skip as evidently intended, from the tower `c` left after rock
      `r`: `rockCount - r - 1` rocks are still to drop, so whole cycles of
      those are skipped and the run resumes at or before rock
      `rockCount`. Wherever whole cycles do not fill `rockCount - r`, it
      agrees with the skip as written. */
  function SkipFixed(c: Chamber, record: Record, r: nat, pushes: seq<Push>, pushIndex: nat, rockCount: nat)
    : Outcome<nat>
    requires r < rockCount && record.rocksSinceLast > 0
  {
    if Top(c) == 0 || record.heightDiff > Top(c) - 1 || record.heightDiff > |c.rows| then Panics
    else
      var jumps := (rockCount - r - 1) / record.rocksSinceLast;
      HeightOf(Run(Skipped(c.rows, Top(c) - 1, record.heightDiff, jumps), pushes, pushIndex,
                   ResumeAt(r, record.rocksSinceLast, rockCount - r - 1), rockCount))
  }

  /** Wherever whole cycles do not fill `rockCount - r`, the corrected
      skip gives what the skip as written gives. */
  lemma SkipFixedAgrees(c: Chamber, record: Record, r: nat, pushes: seq<Push>, pushIndex: nat, rockCount: nat)
    requires r < rockCount && record.rocksSinceLast > 0 && (rockCount - r) % record.rocksSinceLast != 0
    requires Top(c) > 0 && record.heightDiff <= Top(c) - 1 && record.heightDiff <= |c.rows|
    ensures var jumps := (rockCount - r) / record.rocksSinceLast;
      SkipFixed(c, record, r, pushes, pushIndex, rockCount)
      == HeightOf(Run(Skipped(c.rows, Top(c) - 1, record.heightDiff, jumps), pushes, pushIndex,
                      r + 1 + jumps * record.rocksSinceLast, rockCount))
  {
    SameJumps(rockCount - r, record.rocksSinceLast);
  }

  /** Leaving one rock out of `a` changes the number of whole `b`s in it
      only when they fill `a` exactly. */
  lemma SameJumps(a: nat, b: nat)
    requires a > 0 && b > 0
    ensures a % b != 0 ==> (a - 1) / b == a / b
    ensures a % b == 0 ==> (a - 1) / b + 1 == a / b
  {
    var q, m := a / b, a % b;
    if m != 0 {
      DivUnique(a - 1, b, q, m - 1);
    } else {
      assert q > 0;
      OrderedProducts(q, q, b);
      DivUnique(a - 1, b, q - 1, b - 1);
    }
  }

  /** With the rocks left counted after rock `r`, the skip resumes at or
      before rock `rockCount` and less than one cycle before it: the rocks
      up to `r`, the skipped cycles and the rest of the run add up to
      `rockCount`. On the exact fill where the program resumes at
      `rockCount + 1`, it resumes one whole cycle earlier. */
  lemma SkipFixedResumes(r: nat, rocksSinceLast: nat, rockCount: nat)
    requires r < rockCount && rocksSinceLast > 0
    ensures var newR := ResumeAt(r, rocksSinceLast, rockCount - r - 1);
      newR <= rockCount < newR + rocksSinceLast
      && (r + 1 + ((rockCount - r - 1) / rocksSinceLast) * rocksSinceLast) + (rockCount - newR) == rockCount
    ensures (rockCount - r) % rocksSinceLast == 0 ==>
      ResumeAt(r, rocksSinceLast, rockCount - r - 1) + rocksSinceLast == rockCount + 1
  {
    SameJumps(rockCount - r, rocksSinceLast);
    var q := (rockCount - r) / rocksSinceLast;
    if (rockCount - r) % rocksSinceLast == 0 {
      DivUnique(rockCount - r, rocksSinceLast, q, 0);
      OrderedProducts(q, q, rocksSinceLast);
    }
  }

  /** `get_tower_height`: drops rocks onto a fresh tower; after every
      fifth rock it records the height under the key of the group's
      columns, and once the same gain has repeated ten times it skips ahead
      by whole cycles and finishes with `get_tower_height_from`. */
  method GetTowerHeight(pushes: seq<Push>, rockCount: nat) returns (h: Outcome<nat>)
    ensures rockCount < 50 ==> h == HeightOf(Simulate(pushes, rockCount))
    ensures |pushes| == 0 && rockCount > 0 ==> h == Panics
  {
    var tower := new Tower();
    var pushIndex: nat := 0;
    var recordKey := new HeightRecordKey();
    // The records, keyed by the 16 bits of their key read as a number.
    var records: map<nat, Record> := map[];
    if |pushes| == 0 {
      if rockCount == 0 {
        return Returns(0);
      }
      NoPushesPanics(rockCount);
      return Panics;
    }
    var r: nat := 0;
    ghost var goal := Simulate(pushes, rockCount);
    while r < rockCount
      invariant r <= rockCount && fresh(tower) && fresh(recordKey)
      invariant pushIndex < |pushes| && tower.yOffset == 0 && |tower.rows| >= 1
      invariant Run(tower.State(), pushes, pushIndex, r, rockCount) == goal
      invariant forall k :: k in records ==> Kept(records[k], r, |tower.rows| - 1)
      decreases rockCount - r
    {
      var rockIndex := r % 5;
      ghost var rowsBefore := |tower.rows|;
      var dropped := DropNext(tower, pushes, pushIndex, r, rockCount);
      var rock := dropped.value.0;
      pushIndex := dropped.value.1;
      var ok := recordKey.AddX(rock.x, rockIndex);
      assert ok;
      if rockIndex == 4 {
        var height := tower.Height().value;
        var key := recordKey.key as nat;
        GroupRecordKept(records, key, r, rowsBefore - 1, height, pushIndex);
        var record := GroupRecord(records, key, r, height, pushIndex).value;
        if record.matchCount >= 10 {
          h := SkipCycles(tower, record, r, pushes, pushIndex, rockCount);
          return;
        }
        KeptStored(records, r, rowsBefore - 1, height, key, record, records[key := record]);
        records := records[key := record];
        recordKey := new HeightRecordKey();
      } else {
        KeptLater(records, r, rowsBefore - 1, |tower.rows| - 1);
      }
      r := r + 1;
    }
    RunDone(tower.State(), pushes, pushIndex, r, rockCount);
    h := tower.Height();
  }
}
