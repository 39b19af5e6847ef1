/** Day 2: rock, paper, scissors. Each line names the opponent's pick (A-C)
    and the player's pick (X-Z); the answer is the player's total score. */
module Strategy {
  import opened Common

  datatype Pick = Rock | Paper | Scissors

  /** `Pick::new`: the letters A/X, B/Y and C/Z; any other string panics. */
  function NewPick(s: string): (r: Outcome<Pick>)
  {
    if s == "A" || s == "X" then Returns(Rock)
    else if s == "B" || s == "Y" then Returns(Paper)
    else if s == "C" || s == "Z" then Returns(Scissors)
    else Panics
  }

  /** The letter the opponent's column (A-C) or the player's column (X-Z)
      uses for a pick. */
  function Letter(p: Pick, player: bool): (s: string)
    ensures |s| == 1
  {
    match p
    case Rock => if player then "X" else "A"
    case Paper => if player then "Y" else "B"
    case Scissors => if player then "Z" else "C"
  }

  /** `Pick::new` reads back the letter of each pick in either column, and
      accepts nothing but those six letters. */
  lemma NewPickOfLetter(p: Pick, player: bool)
    ensures NewPick(Letter(p, player)) == Returns(p)
  {
  }

  lemma NewPickAcceptsOnlyLetters(s: string)
    ensures NewPick(s).Returns? <==> exists p, player :: s == Letter(p, player)
  {
    if NewPick(s).Returns? {
      var p := NewPick(s).value;
      assert s == Letter(p, true) || s == Letter(p, false);
    }
  }

  /** The score of a shape. */
  function ShapeValue(p: Pick): (v: nat)
    ensures 1 <= v <= 3
  {
    match p
    case Rock => 1
    case Paper => 2
    case Scissors => 3
  }

  /** Rock breaks scissors, scissors cut paper, paper wraps rock. */
  predicate Beats(a: Pick, b: Pick)
  {
    (a == Rock && b == Scissors) || (a == Scissors && b == Paper) || (a == Paper && b == Rock)
  }

  /** The score of a round's outcome: 6 for a win, 3 for a draw, 0 for a loss. */
  function OutcomeValue(a: Pick, b: Pick): (v: nat)
    ensures v == 6 <==> Beats(a, b)
    ensures v == 3 <==> a == b
    ensures v == 0 <==> Beats(b, a)
  {
    if Beats(a, b) then 6 else if a == b then 3 else 0
  }

  /** `Pick::play`: the score table, written out case by case. */
  function Play(self: Pick, other: Pick): (score: nat)
    ensures 1 <= score <= 9
  {
    match self
    case Rock => (match other case Rock => 1 + 3 case Paper => 1 case Scissors => 1 + 6)
    case Paper => (match other case Rock => 2 + 6 case Paper => 2 + 3 case Scissors => 2 + 0)
    case Scissors => (match other case Rock => 3 + 0 case Paper => 3 + 6 case Scissors => 3 + 3)
  }

  /** The table is the shape score plus the outcome score. */
  lemma PlayIsShapePlusOutcome(a: Pick, b: Pick)
    ensures Play(a, b) == ShapeValue(a) + OutcomeValue(a, b)
  {
  }

  /** A draw scores the shape plus 3, and the outcome scores of the two
      sides of a round always add up to 6. */
  lemma OutcomesAreComplementary(a: Pick, b: Pick)
    ensures Play(a, a) == ShapeValue(a) + 3
    ensures (Play(a, b) - ShapeValue(a)) + (Play(b, a) - ShapeValue(b)) == 6
  {
    PlayIsShapePlusOutcome(a, a);
    PlayIsShapePlusOutcome(a, b);
    PlayIsShapePlusOutcome(b, a);
  }

  // ---------------------------------------------------------------------
  // Reading the strategy guide

  /** The pattern `([A-C]) ([X-Z])` matches at offset k. */
  predicate MatchesAt(line: string, k: int)
  {
    0 <= k && k + 3 <= |line| && 'A' <= line[k] <= 'C' && line[k + 1] == ' ' && 'X' <= line[k + 2] <= 'Z'
  }

  /** The two captures of the leftmost match at or after offset `from`, if
      the pattern occurs in the line at all (it need not be anchored). */
  function FindPicks(line: string, from: nat): (r: Option<(char, char)>)
    ensures r.None? <==> forall k :: from <= k ==> !MatchesAt(line, k)
    ensures r.Some? ==> exists k :: (from <= k && MatchesAt(line, k)
      && (forall j :: from <= j < k ==> !MatchesAt(line, j))
      && r.value == (line[k], line[k + 2]))
    decreases |line| - from
  {
    if from + 3 > |line| then None
    else if MatchesAt(line, from) then Some((line[from], line[from + 2]))
    else FindPicks(line, from + 1)
  }

  /** What one line adds to the sum: the player's score for a matching line,
      nothing for a blank line, a panic for anything else. The captured
      letters are always valid picks, so `Pick::new` and `score > 0` cannot
      fail here. */
  function LineScore(line: string): (r: Outcome<nat>)
    ensures r.Returns? ==> r.value <= 9
  {
    match FindPicks(line, 0)
    case Some((theirs, mine)) =>
      var pick1 := NewPick([theirs]);
      var pick2 := NewPick([mine]);
      assert pick1.Returns? && pick2.Returns? by {
        assert theirs == 'A' || theirs == 'B' || theirs == 'C';
        assert mine == 'X' || mine == 'Y' || mine == 'Z';
      }
      Returns(Play(pick2.value, pick1.value))
    case None => if IsBlank(line) then Returns(0) else Panics
  }

  /** A line makes the program panic exactly when it is not blank and the
      pattern occurs nowhere in it. */
  lemma LineScorePanicsIff(line: string)
    ensures LineScore(line) == Panics <==> (forall k :: !MatchesAt(line, k)) && !IsBlank(line)
  {
  }

  /** The sum `solve_part1` reaches after `lines`, or a panic. */
  function Total(lines: seq<string>): Outcome<nat>
  {
    if lines == [] then Returns(0)
    else
      match Total(lines[..|lines| - 1])
      case Panics => Panics
      case Returns(sum) =>
        match LineScore(lines[|lines| - 1])
        case Panics => Panics
        case Returns(score) => Returns(sum + score)
  }

  lemma TotalStep(lines: seq<string>, i: nat)
    requires i < |lines|
    ensures Total(lines[..i + 1]) ==
      match Total(lines[..i])
      case Panics => Panics
      case Returns(sum) =>
        match LineScore(lines[i])
        case Panics => Panics
        case Returns(score) => Returns(sum + score)
  {
    assert lines[..i + 1][..i] == lines[..i];
  }

  /** `solve_part1`. */
  method SolvePart1(lines: seq<string>) returns (r: Outcome<nat>)
    ensures r == Total(lines)
  {
    var sum := 0;
    var i := 0;
    while i < |lines|
      invariant 0 <= i <= |lines|
      invariant Total(lines[..i]) == Returns(sum)
    {
      TotalStep(lines, i);
      var score := LineScore(lines[i]);
      if score.Panics? {
        TotalPanicsOnward(lines, i + 1);
        return Panics;
      }
      sum := sum + score.value;
      i := i + 1;
    }
    assert lines[..i] == lines;
    r := Returns(sum);
  }

  lemma {:induction false} TotalPanicsOnward(lines: seq<string>, i: nat)
    requires i <= |lines| && Total(lines[..i]) == Panics
    ensures Total(lines) == Panics
    decreases |lines| - i
  {
    if i < |lines| {
      TotalStep(lines, i);
      TotalPanicsOnward(lines, i + 1);
    } else {
      assert lines[..i] == lines;
    }
  }

  /** The program panics exactly when some line is neither blank nor holds
      a match; otherwise every line scores at most 9. */
  lemma {:induction false} TotalPanicsIff(lines: seq<string>)
    ensures Total(lines) == Panics <==> exists i :: 0 <= i < |lines| && LineScore(lines[i]) == Panics
    ensures Total(lines).Returns? ==> Total(lines).value <= 9 * |lines|
  {
    if lines != [] {
      var init := lines[..|lines| - 1];
      TotalPanicsIff(init);
      assert forall i :: 0 <= i < |init| ==> init[i] == lines[i];
    }
  }

  lemma ExampleScores()
    ensures LineScore("") == Returns(0)
    ensures LineScore("A Y") == Returns(8)
    ensures LineScore("B X") == Returns(1)
    ensures LineScore("C Z") == Returns(6)
  {
    assert MatchesAt("A Y", 0) && MatchesAt("B X", 0) && MatchesAt("C Z", 0);
  }

  /** The example guide (its first line is empty) scores 15. */
  lemma Example(lines: seq<string>)
    requires lines == ["", "A Y", "B X", "C Z"]
    ensures Total(lines) == Returns(15)
  {
    ExampleScores();
    assert lines[..0] == [];
    TotalStep(lines, 0);
    TotalStep(lines, 1);
    TotalStep(lines, 2);
    TotalStep(lines, 3);
    assert lines[..4] == lines;
  }
}
