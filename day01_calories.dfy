/** Day 1: calorie counting. The input lines are numbers grouped by
    separator lines; part 1 is the largest group sum, part 2 the sum of the
    three largest. */
module Calories {
  import opened Common

  /** Part 1 ends a group only at an empty line; part 2 ends one at any
      line that `trim`s to nothing. */
  predicate IsSeparator(line: string, trimmed: bool)
  {
    if trimmed then IsBlank(line) else |line| == 0
  }

  /** The sums of the groups closed so far and the running sum of the open
      group, after reading `lines`; a line that is not a separator and does
      not parse as a `usize` panics. */
  function Scan(lines: seq<string>, trimmed: bool): Outcome<(seq<nat>, nat)>
  {
    if lines == [] then Returns(([], 0))
    else ReadLine(Scan(lines[..|lines| - 1], trimmed), lines[|lines| - 1], trimmed)
  }

  /** One iteration of the loop over the lines. */
  function ReadLine(state: Outcome<(seq<nat>, nat)>, line: string, trimmed: bool): Outcome<(seq<nat>, nat)>
  {
    match state
    case Panics => Panics
    case Returns((closed, cals)) =>
      if IsSeparator(line, trimmed) then Returns((closed + [cals], 0))
      else
        match ParseUsize(line)
        case None => Panics
        case Some(n) => Returns((closed, cals + n))
  }

  /** Every group sum, in input order; the group still open at the end of
      the input is kept only when its sum is positive. */
  function GroupSums(lines: seq<string>, trimmed: bool): Outcome<seq<nat>>
  {
    match Scan(lines, trimmed)
    case Panics => Panics
    case Returns((closed, cals)) => Returns(closed + (if cals > 0 then [cals] else []))
  }

  /** Reading one more line extends the scan of the lines before it. */
  lemma ScanStep(lines: seq<string>, i: nat, trimmed: bool)
    requires i < |lines|
    ensures Scan(lines[..i + 1], trimmed) == ReadLine(Scan(lines[..i], trimmed), lines[i], trimmed)
  {
    assert lines[..i + 1][..i] == lines[..i];
  }

  /** The three ways one line moves a scan that has not panicked. */
  lemma ReadLineCases(closed: seq<nat>, cals: nat, line: string, trimmed: bool)
    ensures IsSeparator(line, trimmed) ==>
      ReadLine(Returns((closed, cals)), line, trimmed) == Returns((closed + [cals], 0))
    ensures !IsSeparator(line, trimmed) && ParseUsize(line).None? ==>
      ReadLine(Returns((closed, cals)), line, trimmed) == Panics
    ensures !IsSeparator(line, trimmed) && ParseUsize(line).Some? ==>
      ReadLine(Returns((closed, cals)), line, trimmed) == Returns((closed, cals + ParseUsize(line).value))
  {
  }

  /** Line `i` read after a scan that has not panicked: a separator
      closes the group, a number adds to it, anything else panics. */
  lemma ScanLine(lines: seq<string>, i: nat, trimmed: bool, closed: seq<nat>, cals: nat)
    requires i < |lines| && Scan(lines[..i], trimmed) == Returns((closed, cals))
    ensures IsSeparator(lines[i], trimmed) ==> Scan(lines[..i + 1], trimmed) == Returns((closed + [cals], 0))
    ensures !IsSeparator(lines[i], trimmed) && ParseUsize(lines[i]).None? ==> Scan(lines[..i + 1], trimmed) == Panics
    ensures !IsSeparator(lines[i], trimmed) && ParseUsize(lines[i]).Some? ==>
      Scan(lines[..i + 1], trimmed) == Returns((closed, cals + ParseUsize(lines[i]).value))
  {
    ScanStep(lines, i, trimmed);
    ReadLineCases(closed, cals, lines[i], trimmed);
  }

  /** Once a line panics, the whole input panics. */
  lemma {:induction false} ScanPanicsOnward(lines: seq<string>, i: nat, trimmed: bool)
    requires i <= |lines| && Scan(lines[..i], trimmed) == Panics
    ensures Scan(lines, trimmed) == Panics
    decreases |lines| - i
  {
    if i < |lines| {
      ScanStep(lines, i, trimmed);
      ScanPanicsOnward(lines, i + 1, trimmed);
    } else {
      assert lines[..i] == lines;
    }
  }

  /** The largest element, or 0 for the empty sequence. */
  function MaxOf(s: seq<nat>): (m: nat)
    ensures forall i :: 0 <= i < |s| ==> s[i] <= m
    ensures m == 0 || m in s
  {
    if s == [] then 0
    else
      var m := MaxOf(s[..|s| - 1]);
      assert forall i :: 0 <= i < |s| - 1 ==> s[i] == s[..|s| - 1][i];
      if s[|s| - 1] > m then s[|s| - 1] else m
  }

  lemma MaxOfAppend(s: seq<nat>, x: nat)
    ensures MaxOf(s + [x]) == if x > MaxOf(s) then x else MaxOf(s)
  {
    assert (s + [x])[..|s|] == s;
  }

  /** What `solve_part1` returns. */
  function Part1(lines: seq<string>): Outcome<nat>
  {
    match GroupSums(lines, false)
    case Panics => Panics
    case Returns(sums) => Returns(MaxOf(sums))
  }

  /** Part 1: one pass keeping only the running sum and the best sum. */
  method SolvePart1(lines: seq<string>) returns (r: Outcome<nat>)
    ensures r == Part1(lines)
  {
    var cals: nat := 0;
    var maxCals: nat := 0;
    ghost var closed: seq<nat> := [];
    var i := 0;
    while i < |lines|
      invariant 0 <= i <= |lines|
      invariant Scan(lines[..i], false) == Returns((closed, cals))
      invariant maxCals == MaxOf(closed)
    {
      ScanLine(lines, i, false, closed, cals);
      var line := lines[i];
      if |line| > 0 {
        var count := ParseUsize(line);
        if count.None? {
          ScanPanicsOnward(lines, i + 1, false);
          return Panics;
        }
        cals := cals + count.value;
      } else {
        MaxOfAppend(closed, cals);
        maxCals := if cals > maxCals then cals else maxCals;
        closed := closed + [cals];
        cals := 0;
      }
      i := i + 1;
    }
    assert lines[..i] == lines;
    if cals > 0 {
      MaxOfAppend(closed, cals);
      maxCals := if cals > maxCals then cals else maxCals;
    } else {
      assert closed + [] == closed;
    }
    r := Returns(maxCals);
  }

  // ---------------------------------------------------------------------
  // Part 2 sorts the group sums in descending order.

  predicate SortedDesc(s: seq<nat>)
  {
    forall i, j :: 0 <= i < j < |s| ==> s[i] >= s[j]
  }

  function InsertDesc(x: nat, s: seq<nat>): (r: seq<nat>)
    requires SortedDesc(s)
    ensures SortedDesc(r) && multiset(r) == multiset(s) + multiset{x}
  {
    if s == [] || x >= s[0] then [x] + s
    else
      var tail := InsertDesc(x, s[1..]);
      InsertBelowHead(x, s, tail);
      [s[0]] + tail
  }

  /** Putting the head back in front of the tail with `x` inserted keeps
      the order and the elements. */
  lemma InsertBelowHead(x: nat, s: seq<nat>, tail: seq<nat>)
    requires SortedDesc(s) && s != [] && x < s[0]
    requires SortedDesc(tail) && multiset(tail) == multiset(s[1..]) + multiset{x}
    ensures SortedDesc([s[0]] + tail) && multiset([s[0]] + tail) == multiset(s) + multiset{x}
  {
    assert s == [s[0]] + s[1..];
    forall k | 0 <= k < |tail|
      ensures s[0] >= tail[k]
    {
      assert tail[k] in multiset(tail);
      if tail[k] != x {
        assert tail[k] in multiset(s[1..]);
        var j :| 0 <= j < |s[1..]| && s[1..][j] == tail[k];
        assert s[j + 1] == tail[k];
      }
    }
  }

  /** `sort_unstable_by(|a, b| b.cmp(a))`: the sums, largest first. A
      multiset of numbers has exactly one descending arrangement, so any
      sorting algorithm yields this sequence. */
  function SortDesc(s: seq<nat>): (r: seq<nat>)
    ensures SortedDesc(r) && multiset(r) == multiset(s)
  {
    if s == [] then []
    else
      assert s == [s[0]] + s[1..];
      InsertDesc(s[0], SortDesc(s[1..]))
  }

  /** What `solve_part2` returns: the sum of the first (at most) three
      sorted group sums. */
  function Part2(lines: seq<string>): Outcome<nat>
  {
    match GroupSums(lines, true)
    case Panics => Panics
    case Returns(sums) =>
      var sorted := SortDesc(sums);
      Returns(SumNat(sorted[..if |sorted| < 3 then |sorted| else 3]))
  }

  /** Part 2: collect every group sum, sort, add the first three. */
  method SolvePart2(lines: seq<string>) returns (r: Outcome<nat>)
    ensures r == Part2(lines)
  {
    var cals: nat := 0;
    var calsList: seq<nat> := [];
    var i := 0;
    while i < |lines|
      invariant 0 <= i <= |lines|
      invariant Scan(lines[..i], true) == Returns((calsList, cals))
    {
      ScanLine(lines, i, true, calsList, cals);
      var line := lines[i];
      if !IsBlank(line) {
        var count := ParseUsize(line);
        if count.None? {
          ScanPanicsOnward(lines, i + 1, true);
          return Panics;
        }
        cals := cals + count.value;
      } else {
        calsList := calsList + [cals];
        cals := 0;
      }
      i := i + 1;
    }
    assert lines[..i] == lines;
    ghost var sums := GroupSums(lines, true).value;
    if cals > 0 {
      calsList := calsList + [cals];
    } else {
      assert calsList + [] == calsList;
    }
    assert calsList == sums;
    var sorted := SortDesc(calsList);
    var taken := if |sorted| < 3 then |sorted| else 3;
    r := Returns(SumNat(sorted[..taken]));
  }

  // ---------------------------------------------------------------------
  // Properties

  /** Part 1 is one of the group sums (or 0 when there is none) and no
      group sum exceeds it. */
  lemma Part1IsLargestGroup(lines: seq<string>)
    requires Part1(lines).Returns?
    ensures var sums := GroupSums(lines, false).value;
      (forall i :: 0 <= i < |sums| ==> sums[i] <= Part1(lines).value)
      && (Part1(lines).value == 0 || Part1(lines).value in sums)
  {
  }

  lemma {:induction false} SortedDescHeadIsMax(s: seq<nat>)
    requires s != []
    ensures SortDesc(s)[0] == MaxOf(s)
  {
    var r := SortDesc(s);
    assert r[0] in multiset(s);
    assert MaxOf(s) != 0 ==> MaxOf(s) in multiset(r);
    assert r[0] in s;
    if MaxOf(s) != 0 {
      var k :| 0 <= k < |r| && r[k] == MaxOf(s);
      assert r[0] >= r[k];
    } else {
      assert r[0] <= MaxOf(s);
    }
  }

  /** The three sums part 2 adds are the largest: every sum it leaves out
      is at most each of them, and the largest of all is among them. */
  lemma Part2TakesLargest(lines: seq<string>)
    requires Part2(lines).Returns?
    ensures var sorted := SortDesc(GroupSums(lines, true).value);
      forall i, j :: 0 <= i < 3 && 3 <= j < |sorted| ==> sorted[i] >= sorted[j]
  {
  }

  /** When no line consists only of whitespace, both parts split the input
      into the same groups, and the first sum part 2 adds is the answer of
      part 1. */
  lemma {:induction false} SameGroupsWithoutBlankLines(lines: seq<string>)
    requires forall i :: 0 <= i < |lines| ==> |lines[i]| == 0 || !IsBlank(lines[i])
    ensures Scan(lines, false) == Scan(lines, true)
  {
    if lines != [] {
      SameGroupsWithoutBlankLines(lines[..|lines| - 1]);
    }
  }

  lemma Part2StartsWithPart1(lines: seq<string>)
    requires forall i :: 0 <= i < |lines| ==> |lines[i]| == 0 || !IsBlank(lines[i])
    requires Part1(lines).Returns? && GroupSums(lines, false).value != []
    ensures GroupSums(lines, true) == GroupSums(lines, false)
    ensures SortDesc(GroupSums(lines, true).value)[0] == Part1(lines).value
  {
    SameGroupsWithoutBlankLines(lines);
    SortedDescHeadIsMax(GroupSums(lines, true).value);
  }

  /** A line holding only a space makes part 1 panic ... */
  lemma BlankLinePanicsPart1()
    ensures Part1(["1", " ", "2"]) == Panics
  {
    var lines := ["1", " ", "2"];
    assert ParseUsize("1") == Some(1) by { assert "1"[..0] == ""; }
    assert ParseUsize(" ") == None;
    ScanStep(lines, 0, false);
    ScanStep(lines, 1, false);
    assert lines[..0] == [];
    assert Scan(lines[..2], false) == Panics;
    ScanPanicsOnward(lines, 2, false);
  }

  /** ... but separates two groups in part 2. */
  lemma BlankLineSeparatesPart2()
    ensures GroupSums(["1", " ", "2"], true) == Returns([1, 2])
  {
    var lines := ["1", " ", "2"];
    var none: seq<nat> := [];
    var first: seq<nat> := [1];
    assert ParseUsize("1") == Some(1) by { assert "1"[..0] == ""; }
    assert ParseUsize("2") == Some(2) by { assert "2"[..0] == ""; }
    assert IsBlank(" ");
    assert !IsBlank("1") && !IsBlank("2");
    assert lines[..0] == [];
    ScanStep(lines, 0, true);
    ReadLineCases(none, 0, "1", true);
    assert Scan(lines[..1], true) == Returns((none, 1));
    ScanStep(lines, 1, true);
    ReadLineCases(none, 1, " ", true);
    assert none + [1] == first;
    assert Scan(lines[..2], true) == Returns((first, 0));
    ScanStep(lines, 2, true);
    ReadLineCases(first, 0, "2", true);
    assert lines[..3] == lines;
    assert Scan(lines, true) == Returns((first, 2));
    assert first + [2] == [1, 2];
  }

  lemma BlankLinePart2()
    ensures Part2(["1", " ", "2"]) == Returns(3)
  {
    BlankLineSeparatesPart2();
    SortOneTwo();
    assert [2, 1][..2] == [2, 1];
    assert SumNat([2, 1]) == 3 by { assert [2, 1][..1] == [2]; assert [2][..0] == []; }
  }

  lemma SortOneTwo()
    ensures SortDesc([1, 2]) == [2, 1]
  {
    assert [1, 2][1..] == [2] && [2][1..] == [];
    assert SortDesc([2]) == [2];
  }
}
