/** Day 3: rucksack priorities. Each letter has a priority; part 1 adds the
    priority of the item both compartments of a rucksack share, part 2 the
    priority of the badge each group of three rucksacks shares. */
module Rucksacks {
  import opened Common

  predicate IsLower(c: char) { 'a' <= c <= 'z' }
  predicate IsUpper(c: char) { 'A' <= c <= 'Z' }

  /** `get_value`: a-z are 1..26, A-Z are 27..52, anything else has none. */
  function GetValue(c: char): (r: Option<nat>)
    ensures r.Some? <==> IsLower(c) || IsUpper(c)
    ensures r.Some? ==> 1 <= r.value <= 52
    ensures IsLower(c) ==> r.value <= 26
  {
    var value := c as int;
    if 'a' as int <= value <= 'z' as int then Some(value - 'a' as int + 1)
    else if 'A' as int <= value <= 'Z' as int then Some(value - 'A' as int + 27)
    else None
  }

  /** The letter with a given priority. */
  function LetterOf(v: nat): (c: char)
    requires 1 <= v <= 52
    ensures IsLower(c) || IsUpper(c)
  {
    if v <= 26 then ('a' as int + v - 1) as char else ('A' as int + v - 27) as char
  }

  /** The priorities are exactly 1..52, one letter each: `get_value` and
      `LetterOf` are inverse to each other. */
  lemma GetValueOfLetter(v: nat)
    requires 1 <= v <= 52
    ensures GetValue(LetterOf(v)) == Some(v)
  {
  }

  lemma LetterOfValue(c: char)
    requires GetValue(c).Some?
    ensures LetterOf(GetValue(c).value) == c
  {
  }

  /** Hence no two letters share a priority. */
  lemma GetValueInjective(c: char, d: char)
    requires GetValue(c).Some? && GetValue(c) == GetValue(d)
    ensures c == d
  {
    LetterOfValue(c);
    LetterOfValue(d);
  }

  /** The first item of `a` (in order) that also occurs in `b`. */
  function FirstCommon(a: string, b: string): Option<char>
  {
    if a == [] then None
    else if a[0] in b then Some(a[0])
    else FirstCommon(a[1..], b)
  }

  /** `FirstCommon` finds nothing exactly when no item of `a` is in `b`,
      and otherwise the item at the first position of `a` that `b` holds. */
  lemma {:induction false} FirstCommonIsFirst(a: string, b: string)
    ensures FirstCommon(a, b).None? <==> forall i :: 0 <= i < |a| ==> a[i] !in b
    ensures FirstCommon(a, b).Some? ==> exists k :: (0 <= k < |a| && a[k] == FirstCommon(a, b).value
      && a[k] in b && forall i :: 0 <= i < k ==> a[i] !in b)
  {
    if a != [] && a[0] !in b {
      FirstCommonIsFirst(a[1..], b);
      assert forall i :: 1 <= i < |a| ==> a[i] == a[1..][i - 1];
      var r := FirstCommon(a[1..], b);
      if r.Some? {
        var k :| 0 <= k < |a[1..]| && a[1..][k] == r.value && a[1..][k] in b
          && forall i :: 0 <= i < k ==> a[1..][i] !in b;
        assert a[k + 1] == r.value;
      }
    }
  }

  /** What one rucksack adds in part 1: the compartments are the two halves
      of the line; the first item of the first half that the second half
      also holds gives its priority (a non-letter panics), and a rucksack
      whose halves share nothing adds 0. */
  function RucksackPriority(line: string): (r: Outcome<nat>)
    ensures r.Returns? ==> r.value <= 52
  {
    var half := |line| / 2;
    match FirstCommon(line[..half], line[half..])
    case None => Returns(0)
    case Some(c) =>
      match GetValue(c)
      case None => Panics
      case Some(v) => Returns(v)
  }

  /** A positive priority belongs to a letter both halves hold; halves
      with nothing in common add 0; a shared non-letter panics. */
  lemma RucksackPriorityIsShared(line: string)
    ensures var r := RucksackPriority(line);
      var half := |line| / 2;
      && (r.Returns? && r.value > 0 ==>
          exists c :: c in line[..half] && c in line[half..] && GetValue(c) == Some(r.value))
      && ((forall i :: 0 <= i < half ==> line[i] !in line[half..]) <==> r == Returns(0))
  {
    var half := |line| / 2;
    FirstCommonIsFirst(line[..half], line[half..]);
  }

  /** The lines `lines().filter(|l| l.trim().len() > 0)` yields. */
  function NonBlank(lines: seq<string>): (r: seq<string>)
    ensures |r| <= |lines|
  {
    if lines == [] then []
    else (if IsBlank(lines[0]) then [] else [lines[0]]) + NonBlank(lines[1..])
  }

  /** The filter keeps exactly the lines that are not blank. */
  lemma {:induction false} NonBlankKeeps(lines: seq<string>)
    ensures forall l :: l in NonBlank(lines) <==> l in lines && !IsBlank(l)
  {
    if lines != [] {
      NonBlankKeeps(lines[1..]);
      assert lines == [lines[0]] + lines[1..];
    }
  }

  /** Adding a running sum to an outcome. */
  function AddTo(sum: nat, o: Outcome<nat>): Outcome<nat>
  {
    match o
    case Panics => Panics
    case Returns(v) => Returns(sum + v)
  }

  /** The part 1 answer for a sequence of rucksacks. */
  function Priorities(rucksacks: seq<string>): (r: Outcome<nat>)
    ensures r.Returns? ==> r.value <= 52 * |rucksacks|
  {
    if rucksacks == [] then Returns(0)
    else
      match RucksackPriority(rucksacks[0])
      case Panics => Panics
      case Returns(v) => AddTo(v, Priorities(rucksacks[1..]))
  }

  lemma PrioritiesCons(line: string, rest: seq<string>)
    ensures Priorities([line] + rest) ==
      match RucksackPriority(line)
      case Panics => Panics
      case Returns(v) => AddTo(v, Priorities(rest))
  {
    assert ([line] + rest)[1..] == rest;
  }

  lemma AddToAssoc(a: nat, b: nat, o: Outcome<nat>)
    ensures AddTo(a, AddTo(b, o)) == AddTo(a + b, o)
  {
  }

  lemma NonBlankStep(lines: seq<string>, i: nat)
    requires i < |lines|
    ensures NonBlank(lines[i..]) ==
      (if IsBlank(lines[i]) then [] else [lines[i]]) + NonBlank(lines[i + 1..])
  {
    assert lines[i..][1..] == lines[i + 1..];
  }

  /** One rucksack taken off the front of the remaining ones: its
      priority is added to the sum, or the answer panics. */
  lemma LineStep(sum: nat, all: seq<string>, line: string, rest: seq<string>)
    requires all == [line] + rest
    ensures AddTo(sum, Priorities(all)) ==
      match RucksackPriority(line)
      case Panics => Panics
      case Returns(v) => AddTo(sum + v, Priorities(rest))
  {
    PrioritiesCons(line, rest);
    if RucksackPriority(line).Returns? {
      AddToAssoc(sum, RucksackPriority(line).value, Priorities(rest));
    }
  }

  /** The line at `i` is skipped when blank and otherwise adds its
      priority to the sum. */
  lemma LineAt(sum: nat, lines: seq<string>, i: nat)
    requires i < |lines|
    ensures AddTo(sum, Priorities(NonBlank(lines[i..]))) ==
      if IsBlank(lines[i]) then AddTo(sum, Priorities(NonBlank(lines[i + 1..])))
      else
        match RucksackPriority(lines[i])
        case Panics => Panics
        case Returns(v) => AddTo(sum + v, Priorities(NonBlank(lines[i + 1..])))
  {
    NonBlankStep(lines, i);
    if IsBlank(lines[i]) {
      assert [] + NonBlank(lines[i + 1..]) == NonBlank(lines[i + 1..]);
    } else {
      LineStep(sum, NonBlank(lines[i..]), lines[i], NonBlank(lines[i + 1..]));
    }
  }

  /** `solve_part1`. */
  method SolvePart1(lines: seq<string>) returns (r: Outcome<nat>)
    ensures r == Priorities(NonBlank(lines))
  {
    var sum: nat := 0;
    var i := 0;
    while i < |lines|
      invariant 0 <= i <= |lines|
      invariant Priorities(NonBlank(lines)) == AddTo(sum, Priorities(NonBlank(lines[i..])))
    {
      var line := lines[i];
      LineAt(sum, lines, i);
      if !IsBlank(line) {
        var compartmentSize := |line| / 2;
        var compartment1 := line[..compartmentSize];
        var compartment2 := line[compartmentSize..];
        var prio := 0;
        var common := FirstCommon(compartment1, compartment2);
        if common.Some? {
          var value := GetValue(common.value);
          if value.None? {
            return Panics;
          }
          prio := value.value;
        }
        assert RucksackPriority(line) == Returns(prio);
        sum := sum + prio;
      }
      i := i + 1;
    }
    r := Returns(sum);
  }

  // ---------------------------------------------------------------------
  // Part 2

  /** The badge of a group: the first item of the first rucksack that both
      others hold. */
  function Badge(line0: string, line1: string, line2: string): (r: Outcome<nat>)
    ensures r.Returns? ==> 1 <= r.value <= 52
  {
    match FirstCommon(line0, Common2(line1, line2))
    case None => Panics
    case Some(c) =>
      match GetValue(c)
      case None => Panics
      case Some(v) => Returns(v)
  }

  /** The items of `a` that `b` also holds. */
  function Common2(a: string, b: string): (r: string)
    ensures forall c :: c in r <==> c in a && c in b
  {
    if a == [] then []
    else (if a[0] in b then [a[0]] else []) + Common2(a[1..], b)
  }

  /** A badge is a letter all three rucksacks hold; a group with nothing
      in common panics. */
  lemma BadgeIsShared(line0: string, line1: string, line2: string)
    ensures var r := Badge(line0, line1, line2);
      && (r.Returns? ==> exists c :: c in line0 && c in line1 && c in line2 && GetValue(c) == Some(r.value))
      && ((forall i :: 0 <= i < |line0| ==> line0[i] !in line1 || line0[i] !in line2) ==> r == Panics)
  {
    FirstCommonIsFirst(line0, Common2(line1, line2));
  }

  /** The part 2 answer for a sequence of rucksacks, read three at a time;
      an incomplete last group panics. */
  function Badges(rucksacks: seq<string>): (r: Outcome<nat>)
    ensures r.Returns? ==> |rucksacks| % 3 == 0
    decreases |rucksacks|
  {
    if rucksacks == [] then Returns(0)
    else if |rucksacks| < 3 then Panics
    else
      match Badge(rucksacks[0], rucksacks[1], rucksacks[2])
      case Panics => Panics
      case Returns(v) => AddTo(v, Badges(rucksacks[3..]))
  }

  lemma BadgesOfGroup(line0: string, line1: string, line2: string, rest: seq<string>)
    ensures Badges([line0]) == Panics && Badges([line0, line1]) == Panics
    ensures Badges([line0, line1, line2] + rest) ==
      match Badge(line0, line1, line2)
      case Panics => Panics
      case Returns(v) => AddTo(v, Badges(rest))
  {
    assert ([line0, line1, line2] + rest)[3..] == rest;
  }

  /** Three rucksacks taken off the front of the remaining ones: the
      badge of the group is added to the rest, or the answer panics. */
  lemma GroupStep(all: seq<string>, after0: seq<string>, after1: seq<string>, rest: seq<string>,
                  line0: string, line1: string, line2: string)
    requires all == [line0] + after0 && after0 == [line1] + after1 && after1 == [line2] + rest
    ensures Badges(all) ==
      match Badge(line0, line1, line2)
      case Panics => Panics
      case Returns(v) => AddTo(v, Badges(rest))
  {
    assert all == [line0, line1, line2] + rest;
    BadgesOfGroup(line0, line1, line2, rest);
  }


  /** One or two rucksacks left over: the group is incomplete. */
  lemma OneLeft(all: seq<string>, line0: string, after0: seq<string>)
    requires all == [line0] + after0 && after0 == []
    ensures Badges(all) == Panics
  {
    assert all == [line0];
    BadgesOfGroup(line0, "", "", []);
  }

  lemma TwoLeft(all: seq<string>, line0: string, line1: string, after0: seq<string>, after1: seq<string>)
    requires all == [line0] + after0 && after0 == [line1] + after1 && after1 == []
    ensures Badges(all) == Panics
  {
    assert all == [line0, line1];
    BadgesOfGroup(line0, line1, "", []);
  }

  /** `lines_iter.next()`: the next non-blank line at or after `i`. */
  method NextRucksack(lines: seq<string>, i: nat) returns (line: Option<string>, next: nat)
    requires i <= |lines|
    ensures i <= next <= |lines|
    ensures line.Some? ==> i < next
    ensures line.None? ==> NonBlank(lines[i..]) == []
    ensures line.Some? ==> NonBlank(lines[i..]) == [line.value] + NonBlank(lines[next..])
  {
    next := i;
    while next < |lines| && IsBlank(lines[next])
      invariant i <= next <= |lines|
      invariant NonBlank(lines[i..]) == NonBlank(lines[next..])
    {
      NonBlankStep(lines, next);
      assert [] + NonBlank(lines[next + 1..]) == NonBlank(lines[next + 1..]);
      next := next + 1;
    }
    if next == |lines| {
      return None, next;
    }
    NonBlankStep(lines, next);
    line := Some(lines[next]);
    next := next + 1;
  }

  /** One turn of the `while let` in `solve_part2`: the next three
      rucksacks and the priority of their badge, or `None` once no rucksack
      is left. */
  method NextGroup(lines: seq<string>, i: nat) returns (badge: Option<Outcome<nat>>, next: nat)
    requires i <= |lines|
    ensures badge.None? ==> NonBlank(lines[i..]) == []
    ensures badge.Some? ==> i < next <= |lines|
    ensures badge == Some(Panics) ==> Badges(NonBlank(lines[i..])) == Panics
    ensures badge.Some? && badge.value.Returns? ==>
      Badges(NonBlank(lines[i..])) == AddTo(badge.value.value, Badges(NonBlank(lines[next..])))
  {
    var line0, i1 := NextRucksack(lines, i);
    if line0.None? {
      return None, i;
    }
    var line1, i2 := NextRucksack(lines, i1);
    if line1.None? {
      OneLeft(NonBlank(lines[i..]), line0.value, NonBlank(lines[i1..]));
      return Some(Panics), i1;
    }
    var line2, i3 := NextRucksack(lines, i2);
    if line2.None? {
      TwoLeft(NonBlank(lines[i..]), line0.value, line1.value, NonBlank(lines[i1..]), NonBlank(lines[i2..]));
      return Some(Panics), i2;
    }
    GroupStep(NonBlank(lines[i..]), NonBlank(lines[i1..]), NonBlank(lines[i2..]), NonBlank(lines[i3..]),
              line0.value, line1.value, line2.value);
    var b := Badge(line0.value, line1.value, line2.value);
    badge := Some(b);
    next := i3;
  }

  /** `solve_part2`. */
  method SolvePart2(lines: seq<string>) returns (r: Outcome<nat>)
    ensures r == Badges(NonBlank(lines))
  {
    var sum: nat := 0;
    var i: nat := 0;
    while true
      invariant i <= |lines|
      invariant Badges(NonBlank(lines)) == AddTo(sum, Badges(NonBlank(lines[i..])))
      decreases |lines| - i
    {
      var badge, next := NextGroup(lines, i);
      if badge.None? {
        return Returns(sum);
      }
      if badge.value.Panics? {
        return Panics;
      }
      AddToAssoc(sum, badge.value.value, Badges(NonBlank(lines[next..])));
      sum := sum + badge.value.value;
      i := next;
    }
  }

}
