/** Day 9: rope bridge. The head of a two-knot rope is moved up, down,
    left and right one unit at a time; after each unit step the tail
    follows, and the answer counts the positions the tail has visited. */
module Rope {
  import opened Common

  // ---------------------------------------------------------------------
  // Vectors

  /** The sign of `a`: -1, 0 or 1. */
  function Sign(a: int): (s: int)
    ensures -1 <= s <= 1
    ensures s == 0 <==> a == 0
  {
    if a > 0 then 1 else if a == 0 then 0 else -1
  }

  /** The sign times the number is its magnitude. */
  lemma SignTimes(a: int)
    ensures Sign(a) * a == Abs(a)
  {
  }

  datatype Vector2 = Vector2(x: int, y: int)

  const Origin := Vector2(0, 0)

  function Add(v: Vector2, w: Vector2): Vector2
  {
    Vector2(v.x + w.x, v.y + w.y)
  }

  /** `v - w`: the vector that takes `w` to `v`. */
  function Diff(v: Vector2, w: Vector2): Vector2
  {
    Vector2(v.x - w.x, v.y - w.y)
  }

  /** Adding the difference undoes it. */
  lemma AddDiff(v: Vector2, w: Vector2)
    ensures Add(w, Diff(v, w)) == v
    ensures Diff(Add(w, v), w) == v
  {
  }

  /** The sign of each component: a unit step towards the vector. */
  function SignV(v: Vector2): (s: Vector2)
    ensures Abs(s.x) <= 1 && Abs(s.y) <= 1
  {
    Vector2(Sign(v.x), Sign(v.y))
  }

  function AbsV(v: Vector2): Vector2
  {
    Vector2(Abs(v.x), Abs(v.y))
  }

  function MinElement(v: Vector2): int
  {
    if v.x <= v.y then v.x else v.y
  }

  function MaxElement(v: Vector2): int
  {
    if v.x >= v.y then v.x else v.y
  }

  function Manhattan(v: Vector2): nat
  {
    Abs(v.x) + Abs(v.y)
  }

  /** `Vector2::from_move`: the vector of `count` steps in direction `dir`;
      a direction other than U, D, L or R panics. */
  function FromMove(dir: string, count: int): (r: Outcome<Vector2>)
    ensures r.Returns? <==> dir in ["U", "D", "L", "R"]
    ensures r.Returns? ==> Axis(r.value) && MaxElement(AbsV(r.value)) == Abs(count)
  {
    if dir == "U" then Returns(Vector2(0, 1 * count))
    else if dir == "D" then Returns(Vector2(0, -1 * count))
    else if dir == "L" then Returns(Vector2(-1 * count, 0))
    else if dir == "R" then Returns(Vector2(1 * count, 0))
    else Panics
  }

  /** A vector along one of the two axes. */
  predicate Axis(v: Vector2)
  {
    v.x == 0 || v.y == 0
  }

  // ---------------------------------------------------------------------
  // The follow rule

  /** Two knots touch when they are at most one apart on each axis. */
  predicate Touching(a: Vector2, b: Vector2)
  {
    Abs(a.x - b.x) <= 1 && Abs(a.y - b.y) <= 1
  }

  /** `Vector2::follow`: the new position of `tail` after `head` moved. */
  function Follow(tail: Vector2, head: Vector2): Vector2
  {
    var diff := Diff(head, tail);
    var diffAbs := AbsV(diff);
    var diffSign := SignV(diff);
    if MaxElement(diffAbs) >= 2 && MinElement(diffAbs) == 0 then Add(tail, diffSign)
    else if (head.x != tail.x || head.y != tail.y) && Manhattan(diffAbs) > 2 then Add(tail, diffSign)
    else tail
  }

  /** `Follow` with the vector operations spelled out on the components;
      the simulation uses this form. */
  function FollowXY(tail: Vector2, head: Vector2): Vector2
  {
    var dx := head.x - tail.x;
    var dy := head.y - tail.y;
    var ax := Abs(dx);
    var ay := Abs(dy);
    if (if ax >= ay then ax else ay) >= 2 && (if ax <= ay then ax else ay) == 0 then Vector2(tail.x + Sign(dx), tail.y + Sign(dy))
    else if (head.x != tail.x || head.y != tail.y) && ax + ay > 2 then Vector2(tail.x + Sign(dx), tail.y + Sign(dy))
    else tail
  }

  lemma FollowXYAgrees(tail: Vector2, head: Vector2)
    ensures FollowXY(tail, head) == Follow(tail, head)
  {
  }

  /** The tail stays put exactly when it touches the head; otherwise it
      takes one unit step towards the head on each axis where they differ. */
  lemma FollowRule(tail: Vector2, head: Vector2)
    ensures Touching(tail, head) ==> Follow(tail, head) == tail
    ensures !Touching(tail, head) ==> Follow(tail, head) == Add(tail, SignV(Diff(head, tail)))
    ensures Follow(tail, head) == tail <==> Touching(tail, head)
  {
  }

  /** The tail moves at most one unit along each axis. */
  lemma FollowMovesOneUnit(tail: Vector2, head: Vector2)
    ensures Touching(Follow(tail, head), tail)
  {
  }

  /** A tail at most two away from the head on each axis touches it after
      following. */
  lemma FollowCatchesUp(tail: Vector2, head: Vector2)
    requires Abs(head.x - tail.x) <= 2 && Abs(head.y - tail.y) <= 2
    ensures Touching(Follow(tail, head), head)
  {
  }

  // ---------------------------------------------------------------------
  // The simulation as functions of the moves

  datatype Knots = Knots(head: Vector2, tail: Vector2)

  /** One unit step of the head, after which the tail follows. */
  function Step(k: Knots, step: Vector2): Knots
  {
    var head := Add(k.head, step);
    Knots(head, FollowXY(k.tail, head))
  }

  /** The knots after `n` unit steps. */
  function Walk(k: Knots, step: Vector2, n: nat): Knots
  {
    if n == 0 then k else Step(Walk(k, step, n - 1), step)
  }

  /** The tail positions after each of `n` unit steps. */
  function WalkVisited(k: Knots, step: Vector2, n: nat): set<Vector2>
  {
    if n == 0 then {} else WalkVisited(k, step, n - 1) + {Walk(k, step, n).tail}
  }

  /** How many unit steps a move takes. */
  function StepCount(m: Vector2): nat
  {
    var a := MaxElement(AbsV(m));
    if a < 0 then 0 else a
  }

  /** The knots after all `moves`, both starting at the origin. */
  function Run(moves: seq<Vector2>): Knots
  {
    if moves == [] then Knots(Origin, Origin)
    else
      var m := moves[|moves| - 1];
      Walk(Run(moves[..|moves| - 1]), SignV(m), StepCount(m))
  }

  /** The origin and every tail position after a unit step. */
  function Visited(moves: seq<Vector2>): set<Vector2>
  {
    if moves == [] then {Origin}
    else
      var m := moves[|moves| - 1];
      var before := moves[..|moves| - 1];
      Visited(before) + WalkVisited(Run(before), SignV(m), StepCount(m))
  }

  /** The number of unit steps of all moves. */
  function TotalSteps(moves: seq<Vector2>): nat
  {
    if moves == [] then 0 else TotalSteps(moves[..|moves| - 1]) + StepCount(moves[|moves| - 1])
  }

  /** The vector sum of the moves. */
  function SumV(moves: seq<Vector2>): Vector2
  {
    if moves == [] then Origin else Add(SumV(moves[..|moves| - 1]), moves[|moves| - 1])
  }

  // ---------------------------------------------------------------------
  // Properties of the simulation

  /** A unit step of the head keeps the knots touching. */
  lemma StepKeepsTouching(k: Knots, step: Vector2)
    requires Touching(k.head, k.tail)
    requires Abs(step.x) <= 1 && Abs(step.y) <= 1
    ensures Touching(Step(k, step).head, Step(k, step).tail)
  {
    var head := Add(k.head, step);
    FollowCatchesUp(k.tail, head);
    FollowXYAgrees(k.tail, head);
  }

  /** A unit step along an axis, with the knots touching: the tail either
      stays or takes the place the head has just left. */
  lemma UnitStepTail(k: Knots, step: Vector2)
    requires Touching(k.head, k.tail)
    requires Abs(step.x) + Abs(step.y) == 1
    ensures Step(k, step).tail == if Touching(Add(k.head, step), k.tail) then k.tail else k.head
  {
  }

  lemma {:induction false} WalkKeepsTouching(k: Knots, step: Vector2, n: nat)
    requires Touching(k.head, k.tail)
    requires Abs(step.x) <= 1 && Abs(step.y) <= 1
    ensures Touching(Walk(k, step, n).head, Walk(k, step, n).tail)
  {
    if n > 0 {
      WalkKeepsTouching(k, step, n - 1);
      StepKeepsTouching(Walk(k, step, n - 1), step);
    }
  }

  /** After any number of moves the tail touches the head. */
  lemma {:induction false} RunKeepsTouching(moves: seq<Vector2>)
    ensures Touching(Run(moves).head, Run(moves).tail)
  {
    if moves != [] {
      var m := moves[|moves| - 1];
      RunKeepsTouching(moves[..|moves| - 1]);
      WalkKeepsTouching(Run(moves[..|moves| - 1]), SignV(m), StepCount(m));
    }
  }

  /** `n` unit steps move the head by `n` times the step. */
  lemma {:induction false} WalkMovesHead(k: Knots, step: Vector2, n: nat)
    ensures Walk(k, step, n).head == Vector2(k.head.x + n * step.x, k.head.y + n * step.y)
  {
    if n > 0 {
      WalkMovesHead(k, step, n - 1);
      assert (n - 1) * step.x + step.x == n * step.x;
      assert (n - 1) * step.y + step.y == n * step.y;
    }
  }

  /** Stepping along an axis by its sign, as often as it is long, covers
      the whole vector. */
  lemma AxisSteps(h: Vector2, m: Vector2)
    requires Axis(m)
    ensures Vector2(h.x + StepCount(m) * SignV(m).x, h.y + StepCount(m) * SignV(m).y) == Add(h, m)
  {
  }

  /** A move along an axis moves the head by exactly that vector. */
  lemma WalkMovesHeadBy(k: Knots, m: Vector2)
    requires Axis(m)
    ensures Walk(k, SignV(m), StepCount(m)).head == Add(k.head, m)
  {
    WalkMovesHead(k, SignV(m), StepCount(m));
    AxisSteps(k.head, m);
  }

  /** The head ends at the sum of the moves. */
  lemma {:induction false} RunMovesHead(moves: seq<Vector2>)
    requires forall i :: 0 <= i < |moves| ==> Axis(moves[i])
    ensures Run(moves).head == SumV(moves)
  {
    if moves != [] {
      var before := moves[..|moves| - 1];
      RunMovesHead(before);
      WalkMovesHeadBy(Run(before), moves[|moves| - 1]);
    }
  }

  lemma {:induction false} WalkVisitedBound(k: Knots, step: Vector2, n: nat)
    ensures |WalkVisited(k, step, n)| <= n
  {
    if n > 0 {
      WalkVisitedBound(k, step, n - 1);
      UnionBound(WalkVisited(k, step, n - 1), {Walk(k, step, n).tail});
    }
  }

  lemma UnionBound(a: set<Vector2>, b: set<Vector2>)
    ensures |a + b| <= |a| + |b|
  {
    var common := a * b;
    assert a + b == a + (b - common);
    assert a * (b - common) == {};
    assert |a + (b - common)| == |a| + |b - common|;
  }

  /** The origin is always counted, and each unit step adds at most one
      position. */
  lemma {:induction false} VisitedBounds(moves: seq<Vector2>)
    ensures Origin in Visited(moves)
    ensures 1 <= |Visited(moves)| <= 1 + TotalSteps(moves)
  {
    if moves != [] {
      var m := moves[|moves| - 1];
      var before := moves[..|moves| - 1];
      VisitedBounds(before);
      WalkVisitedBound(Run(before), SignV(m), StepCount(m));
      UnionBound(Visited(before), WalkVisited(Run(before), SignV(m), StepCount(m)));
    }
  }

  // ---------------------------------------------------------------------
  // Reading moves

  /** A match of `([UDRL]) (\d*)` starts at `i`. */
  predicate MatchAt(line: string, i: nat)
  {
    i + 1 < |line| && line[i] in "UDRL" && line[i + 1] == ' '
  }

  /** The leading run of decimal digits of `s` (what `\d*` matches). */
  function LeadingDigits(s: string): (d: string)
    ensures AllDigits(d) && d <= s
    ensures |d| < |s| ==> !IsDigit(s[|d|])
  {
    if s != [] && IsDigit(s[0]) then [s[0]] + LeadingDigits(s[1..]) else []
  }

  /** The leftmost match at or after `i`, if any. */
  function FirstMatch(line: string, i: nat): (r: Option<nat>)
    decreases |line| - i
    ensures r.Some? ==> i <= r.value && MatchAt(line, r.value)
    ensures r.Some? ==> forall j :: i <= j < r.value ==> !MatchAt(line, j)
    ensures r.None? ==> forall j :: i <= j ==> !MatchAt(line, j)
  {
    if i + 1 >= |line| then None
    else if MatchAt(line, i) then Some(i)
    else FirstMatch(line, i + 1)
  }

  /** One line of `read_moves`: the first match gives the direction and
      the count; no match, or a count that is empty or too large for an
      `isize`, panics. */
  function ReadMove(line: string): Outcome<Vector2>
  {
    match FirstMatch(line, 0)
    case None => Panics
    case Some(i) =>
      match ParseIsize(LeadingDigits(line[i + 2..]))
      case None => Panics
      case Some(count) => FromMove([line[i]], count)
  }

  /** `read_moves`: empty lines are skipped, every other line is read. */
  function ReadMoves(lines: seq<string>): (r: Outcome<seq<Vector2>>)
    ensures r.Returns? ==> forall i :: 0 <= i < |r.value| ==> Axis(r.value[i])
  {
    if lines == [] then Returns([])
    else
      var line := lines[|lines| - 1];
      match ReadMoves(lines[..|lines| - 1])
      case Panics => Panics
      case Returns(moves) =>
        if line == "" then Returns(moves)
        else
          match ReadMove(line)
          case Panics => Panics
          case Returns(m) => Returns(moves + [m])
  }

  /** Reading back a move written as its direction, a space and its count
      gives the vector of that move. */
  lemma ReadMoveOfDisplay(dir: char, count: nat)
    requires dir in "UDRL" && IsIsize(count)
    ensures ReadMove([dir] + " " + NatToString(count)) == FromMove([dir], count)
  {
    var digits := NatToString(count);
    var line := [dir] + " " + digits;
    assert MatchAt(line, 0);
    assert FirstMatch(line, 0) == Some(0);
    assert line[2..] == digits;
    LeadingDigitsOfDigits(digits);
    ParseIsizeOfDisplay(count);
    assert ParseIsize(digits) == Some(count);
    assert [line[0]] == [dir];
  }

  lemma {:induction false} LeadingDigitsOfDigits(s: string)
    requires AllDigits(s)
    ensures LeadingDigits(s) == s
  {
    if s != [] {
      LeadingDigitsOfDigits(s[1..]);
    }
  }

  /** `solve_part1`: the number of distinct tail positions. */
  function Part1(lines: seq<string>): Outcome<nat>
  {
    match ReadMoves(lines)
    case Panics => Panics
    case Returns(moves) => Returns(|Visited(moves)|)
  }

  // ---------------------------------------------------------------------
  // The simulation as written

  /** The loops of `solve_part1`: the head is stepped one unit at a time,
      the tail follows, and every tail position goes into a set. */
  method Simulate(moves: seq<Vector2>) returns (count: nat)
    ensures count == |Visited(moves)|
  {
    var head := Origin;
    var tail := Origin;
    var visited: set<Vector2> := {tail};
    for i := 0 to |moves|
      invariant Knots(head, tail) == Run(moves[..i])
      invariant visited == Visited(moves[..i])
    {
      var m := moves[i];
      head, tail, visited := MoveHead(head, tail, SignV(m), StepCount(m), visited);
      RunSnoc(moves, i);
    }
    assert moves[..|moves|] == moves;
    count := |visited|;
  }

  /** The inner loop of `solve_part1`: `n` unit steps of the head, the
      tail following each, and every tail position added to `visited`. */
  method MoveHead(head0: Vector2, tail0: Vector2, step: Vector2, n: nat, visited0: set<Vector2>)
    returns (head: Vector2, tail: Vector2, visited: set<Vector2>)
    ensures Knots(head, tail) == Walk(Knots(head0, tail0), step, n)
    ensures visited == visited0 + WalkVisited(Knots(head0, tail0), step, n)
  {
    head, tail, visited := head0, tail0, visited0;
    for j := 0 to n
      invariant Knots(head, tail) == Walk(Knots(head0, tail0), step, j)
      invariant visited == visited0 + WalkVisited(Knots(head0, tail0), step, j)
    {
      StepFollows(Knots(head, tail), step);
      head := Add(head, step);
      tail := Follow(tail, head);
      visited := visited + {tail};
    }
  }

  /** A unit step moves the head and lets the tail follow it. */
  lemma StepFollows(k: Knots, step: Vector2)
    ensures Step(k, step) == Knots(Add(k.head, step), Follow(k.tail, Add(k.head, step)))
  {
    FollowXYAgrees(k.tail, Add(k.head, step));
  }

  /** The run and the visited positions of one more move. */
  lemma RunSnoc(moves: seq<Vector2>, i: nat)
    requires i < |moves|
    ensures Run(moves[..i + 1]) == Walk(Run(moves[..i]), SignV(moves[i]), StepCount(moves[i]))
    ensures Visited(moves[..i + 1]) ==
      Visited(moves[..i]) + WalkVisited(Run(moves[..i]), SignV(moves[i]), StepCount(moves[i]))
  {
    assert moves[..i + 1][..i] == moves[..i];
  }

  method SolvePart1(lines: seq<string>) returns (r: Outcome<nat>)
    ensures r == Part1(lines)
  {
    var moves := ReadMoves(lines);
    if moves.Panics? {
      return Panics;
    }
    var count := Simulate(moves.value);
    r := Returns(count);
  }

  // ---------------------------------------------------------------------
  // Reading what was written

  /** The line `read_moves` expects for a move: direction, space, count. */
  function MoveLine(dir: char, count: nat): string
  {
    [dir] + " " + NatToString(count)
  }

  predicate ValidMove(m: (char, nat))
  {
    m.0 in "UDRL" && IsIsize(m.1)
  }

  function MoveLines(ms: seq<(char, nat)>): (lines: seq<string>)
    ensures |lines| == |ms|
  {
    if ms == [] then [] else MoveLines(ms[..|ms| - 1]) + [MoveLine(ms[|ms| - 1].0, ms[|ms| - 1].1)]
  }

  lemma ReadMovesAppend(lines: seq<string>, line: string, moves: seq<Vector2>, m: Vector2)
    requires ReadMoves(lines) == Returns(moves) && line != "" && ReadMove(line) == Returns(m)
    ensures ReadMoves(lines + [line]) == Returns(moves + [m])
  {
    assert (lines + [line])[..|lines|] == lines;
  }

  /** The vector of a move given by its direction letter and count. */
  function LetterVector(dir: char, count: nat): Vector2
  {
    match dir
    case 'U' => Vector2(0, count)
    case 'D' => Vector2(0, -(count as int))
    case 'L' => Vector2(-(count as int), 0)
    case _ => Vector2(count, 0)
  }

  lemma LetterMoves(dir: char, count: nat)
    requires dir in "UDRL"
    ensures FromMove([dir], count) == Returns(LetterVector(dir, count))
  {
  }

  lemma ReadOneMore(ms: seq<(char, nat)>, init: seq<Vector2>)
    requires |ms| > 0 && ValidMove(ms[|ms| - 1])
    requires ReadMoves(MoveLines(ms[..|ms| - 1])) == Returns(init)
    ensures ReadMoves(MoveLines(ms)) == Returns(init + [LetterVector(ms[|ms| - 1].0, ms[|ms| - 1].1)])
  {
    var last := ms[|ms| - 1];
    var line := MoveLine(last.0, last.1);
    assert MoveLines(ms) == MoveLines(ms[..|ms| - 1]) + [line];
    ReadMoveOfDisplay(last.0, last.1);
    LetterMoves(last.0, last.1);
    ReadMovesAppend(MoveLines(ms[..|ms| - 1]), line, init, LetterVector(last.0, last.1));
  }

  /** The vectors of a list of moves, in order. */
  function Letters(ms: seq<(char, nat)>): (vs: seq<Vector2>)
    ensures |vs| == |ms|
    ensures forall i :: 0 <= i < |ms| ==> vs[i] == LetterVector(ms[i].0, ms[i].1)
  {
    if ms == [] then []
    else
      var before := ms[..|ms| - 1];
      var vs := Letters(before) + [LetterVector(ms[|ms| - 1].0, ms[|ms| - 1].1)];
      assert forall i :: 0 <= i < |before| ==> ms[i] == before[i];
      vs
  }

  /** Reading the lines written for a list of moves gives, in order, the
      vector of each move. */
  lemma {:induction false} ReadMoveLines(ms: seq<(char, nat)>)
    requires forall i :: 0 <= i < |ms| ==> ValidMove(ms[i])
    ensures ReadMoves(MoveLines(ms)) == Returns(Letters(ms))
  {
    if ms != [] {
      ReadMoveLines(ms[..|ms| - 1]);
      ReadOneMore(ms, Letters(ms[..|ms| - 1]));
    }
  }
}
