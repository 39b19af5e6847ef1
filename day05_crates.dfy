/** Day 5: supply stacks. A drawing of crate stacks is read row by row,
    a list of moves rearranges the stacks, and the answer is the crate on
    top of each stack. Part 1's crane moves one crate at a time, part 2's
    moves a whole block at once. */
module Crates {
  import opened Common

  predicate IsUpper(c: char) { 'A' <= c <= 'Z' }

  // ---------------------------------------------------------------------
  // Rows of the drawing

  /** One row of the drawing: a crate letter or a gap per stack. */
  datatype Row = Row(row: seq<Option<char>>)
  {
    /** `Row::get`: the slot of stack `i`, a gap past the end of the row. */
    function Get(i: nat): (r: Option<char>)
      ensures i >= |row| ==> r.None?
      ensures i < |row| ==> r == row[i]
    {
      if i < |row| then row[i] else None
    }
  }

  /** A three-character chunk of a row line: its first upper-case letter,
      a gap for three spaces, and `None` (the row does not parse) for
      anything else. */
  function Chunk(chunk: string): (r: Option<Option<char>>)
    ensures r.Some? && r.value.Some? ==> IsUpper(r.value.value) && r.value.value in chunk
    ensures r == Some(None) <==> chunk == "   "
  {
    if exists k :: 0 <= k < |chunk| && IsUpper(chunk[k]) then Some(Some(FirstUpper(chunk)))
    else if chunk == "   " then Some(None)
    else None
  }

  /** The first upper-case letter of a chunk that has one. */
  function FirstUpper(s: string): (c: char)
    requires exists k :: 0 <= k < |s| && IsUpper(s[k])
    ensures IsUpper(c) && c in s
  {
    if IsUpper(s[0]) then s[0]
    else
      assert forall k :: 1 <= k < |s| ==> s[k] == s[1..][k - 1];
      FirstUpper(s[1..])
  }

  /** The slots read from the chunks at offsets `i`, `i + 4`, ... */
  function RowFrom(s: string, i: nat): (r: Option<seq<Option<char>>>)
    ensures r.Some? ==> |r.value| == if i + 3 <= |s| then (|s| - i + 1) / 4 else 0
    decreases |s| - i
  {
    if i + 3 > |s| then Some([])
    else
      match Chunk(s[i..i + 3])
      case None => None
      case Some(slot) =>
        match RowFrom(s, i + 4)
        case None => None
        case Some(rest) => Some([slot] + rest)
  }

  /** `Row::from_str`, as a function: one slot per chunk, the chunks being
      three characters wide and one apart. */
  function ParseRow(s: string): (r: Option<Row>)
    ensures r.Some? ==> |r.value.row| == (|s| + 1) / 4
  {
    match RowFrom(s, 0)
    case None => None
    case Some(slots) => Some(Row(slots))
  }

  /** `Row::from_str`: the while loop over the chunks. */
  method RowFromStr(s: string) returns (r: Option<Row>)
    ensures r == ParseRow(s)
  {
    var row: seq<Option<char>> := [];
    var i := 0;
    PrependEmpty(RowFrom(s, 0));
    while i + 3 <= |s|
      invariant RowFrom(s, 0) == Prepend(row, RowFrom(s, i))
      decreases |s| - i
    {
      var substr := s[i..i + 3];
      var slot := Chunk(substr);
      if slot.None? {
        return None;
      }
      PrependAppend(row, slot.value, RowFrom(s, i + 4));
      row := row + [slot.value];
      i := i + 4;
    }
    assert row + [] == row;
    return Some(Row(row));
  }

  function Prepend(prefix: seq<Option<char>>, r: Option<seq<Option<char>>>): Option<seq<Option<char>>>
  {
    match r
    case None => None
    case Some(rest) => Some(prefix + rest)
  }

  lemma PrependEmpty(r: Option<seq<Option<char>>>)
    ensures Prepend([], r) == r
  {
    if r.Some? {
      assert [] + r.value == r.value;
    }
  }

  lemma PrependAppend(prefix: seq<Option<char>>, slot: Option<char>, r: Option<seq<Option<char>>>)
    ensures Prepend(prefix, Prepend([slot], r)) == Prepend(prefix + [slot], r)
  {
    if r.Some? {
      assert prefix + ([slot] + r.value) == prefix + [slot] + r.value;
    }
  }

  /** A row of crates with gaps on both sides. */
  lemma RowExample(s: string)
    requires s == "    [D]    "
    ensures ParseRow(s) == Some(Row([None, Some('D'), None]))
  {
    assert Chunk("   ") == Some(None) by {
      assert forall k :: 0 <= k < 3 ==> !IsUpper("   "[k]);
    }
    assert RowFrom(s, 12) == Some([]);
    assert s[8..11] == "   ";
    var none: Option<char> := None;
    assert [none] + [] == [none];
    assert RowFrom(s, 8) == Some([none]);
    assert s[4..7] == "[D]";
    assert Chunk("[D]") == Some(Some('D')) by {
      assert IsUpper("[D]"[1]);
    }
    assert [Some('D')] + [none] == [Some('D'), none];
    assert RowFrom(s, 4) == Some([Some('D'), none]);
    assert s[0..3] == "   ";
    assert [none] + [Some('D'), none] == [none, Some('D'), none];
    assert RowFrom(s, 0) == Some([none, Some('D'), none]);
  }

  /** The line of stack numbers under the drawing is not a row. */
  lemma StackNumbersAreNoRow(s: string)
    requires s == " 1   2   3 "
    ensures ParseRow(s) == None
  {
    assert s[0..3] == " 1 ";
    assert Chunk(" 1 ") == None by {
      assert forall k :: 0 <= k < 3 ==> !IsUpper(" 1 "[k]);
    }
  }

  // ---------------------------------------------------------------------
  // Stacks

  /** Stack `i`: the crates of column `i`, bottom (last row) first. */
  function Column(rows: seq<Row>, i: nat): (s: string)
    ensures |s| <= |rows|
  {
    if rows == [] then []
    else Column(rows[1..], i) + (match rows[0].Get(i) case Some(c) => [c] case None => [])
  }

  /** `from_rows` panics unless there is a row and all rows are as wide. */
  predicate RowsAreRectangular(rows: seq<Row>)
  {
    |rows| > 0 && forall k :: 0 <= k < |rows| ==> |rows[k].row| == |rows[0].row|
  }

  /** The stacks `from_rows` builds. */
  function StacksOf(rows: seq<Row>): Outcome<seq<string>>
  {
    if RowsAreRectangular(rows) then Returns(seq(|rows[0].row|, i requires 0 <= i => Column(rows, i)))
    else Panics
  }

  /** The reversal of a string. */
  function Reverse(s: string): (r: string)
    ensures |r| == |s|
  {
    if s == [] then [] else [s[|s| - 1]] + Reverse(s[..|s| - 1])
  }

  lemma {:induction false} ReverseAt(s: string)
    ensures forall k :: 0 <= k < |s| ==> Reverse(s)[k] == s[|s| - 1 - k]
  {
    if s != [] {
      ReverseAt(s[..|s| - 1]);
    }
  }

  /** A move, with 0-based stack indices. */
  datatype Move = Move(count: nat, from: nat, to: nat)

  /** `Move::from_str` after the numbers are read: the stack numbers are
      1-based; a 0 underflows the `usize` subtraction and panics. */
  function MoveFromOneBased(count: nat, from: nat, to: nat): (r: Outcome<Move>)
    ensures r.Returns? <==> from > 0 && to > 0
    ensures r.Returns? ==> r.value.count == count && r.value.from + 1 == from && r.value.to + 1 == to
  {
    if from == 0 || to == 0 then Panics else Returns(Move(count, from - 1, to - 1))
  }

  /** "move 2 from 4 to 6". */
  lemma MoveExample()
    ensures MoveFromOneBased(2, 4, 6) == Returns(Move(2, 3, 5))
  {
  }

  /** The number of crates a move takes: all it asks for, or all there are. */
  function Taken(stacks: seq<string>, m: Move): nat
    requires m.from < |stacks|
  {
    if |stacks[m.from]| < m.count then |stacks[m.from]| else m.count
  }

  /** The stacks after `apply_move` (`reverse`) or `apply_move2`: `from`
      loses its top `Taken` crates and `to` gains `Moved`. A move from a
      stack onto itself changes nothing (the program appends the crates and
      then cuts the same number off again). */
  function AfterMove(stacks: seq<string>, m: Move, reverse: bool): (r: seq<string>)
    requires m.from < |stacks| && m.to < |stacks|
    ensures |r| == |stacks|
  {
    if m.from == m.to then stacks
    else
      stacks[m.to := stacks[m.to] + Moved(stacks, m, reverse)]
            [m.from := stacks[m.from][..|stacks[m.from]| - Taken(stacks, m)]]
  }

  /** The crates a move puts on `to`: the top `Taken` crates of `from`,
      top first for `apply_move`, in stack order for `apply_move2`. */
  function Moved(stacks: seq<string>, m: Move, reverse: bool): (moved: string)
    requires m.from < |stacks|
    ensures |moved| == Taken(stacks, m)
  {
    var source := stacks[m.from];
    var block := source[|source| - Taken(stacks, m)..];
    if reverse then Reverse(block) else block
  }

  /** The total number of crates. */
  function TotalCrates(stacks: seq<string>): nat
  {
    if stacks == [] then 0 else TotalCrates(stacks[..|stacks| - 1]) + |stacks[|stacks| - 1]|
  }

  lemma {:induction false} TotalCratesUpdate(stacks: seq<string>, i: nat, s: string)
    requires i < |stacks|
    ensures TotalCrates(stacks[i := s]) == TotalCrates(stacks) - |stacks[i]| + |s|
  {
    var n := |stacks| - 1;
    if i < n {
      TotalCratesUpdate(stacks[..n], i, s);
      assert stacks[i := s][..n] == stacks[..n][i := s];
    } else {
      assert stacks[i := s][..n] == stacks[..n];
    }
  }

  /** The two stacks a move touches, stated outright. */
  lemma AfterMoveStacks(stacks: seq<string>, m: Move, reverse: bool)
    requires m.from < |stacks| && m.to < |stacks| && m.from != m.to
    ensures AfterMove(stacks, m, reverse)[m.to] == stacks[m.to] + Moved(stacks, m, reverse)
    ensures AfterMove(stacks, m, reverse)[m.from] == stacks[m.from][..|stacks[m.from]| - Taken(stacks, m)]
  {
  }

  /** What a move does to each stack: `from` loses the taken crates from
      its top, `to` gains them, and nothing else changes. */
  lemma AfterMoveEffect(stacks: seq<string>, m: Move, reverse: bool)
    requires m.from < |stacks| && m.to < |stacks| && m.from != m.to
    ensures var r := AfterMove(stacks, m, reverse);
      && (forall i :: 0 <= i < |stacks| && i != m.from && i != m.to ==> r[i] == stacks[i])
      && |r[m.from]| == |stacks[m.from]| - Taken(stacks, m)
      && |r[m.to]| == |stacks[m.to]| + Taken(stacks, m)
      && r[m.to][..|stacks[m.to]|] == stacks[m.to]
  {
    AfterMoveStacks(stacks, m, reverse);
  }

  /** The crates `to` gains are the ones `from` lost: taken back off `to`
      (one at a time for `apply_move`, as a block for `apply_move2`) they
      restore `from`. */
  lemma AfterMoveRestores(stacks: seq<string>, m: Move, reverse: bool)
    requires m.from < |stacks| && m.to < |stacks| && m.from != m.to
    ensures var r := AfterMove(stacks, m, reverse);
      var gained := r[m.to][|stacks[m.to]|..];
      r[m.from] + (if reverse then Reverse(gained) else gained) == stacks[m.from]
  {
    AfterMoveStacks(stacks, m, reverse);
    var count := Taken(stacks, m);
    var source := stacks[m.from];
    var block := source[|source| - count..];
    var r := AfterMove(stacks, m, reverse);
    assert r[m.to][|stacks[m.to]|..] == Moved(stacks, m, reverse);
    if reverse {
      ReverseReverse(block);
    }
    assert source == source[..|source| - count] + block;
  }

  lemma ReverseReverse(s: string)
    ensures Reverse(Reverse(s)) == s
  {
    var r := Reverse(Reverse(s));
    ReverseAt(s);
    ReverseAt(Reverse(s));
    assert forall k :: 0 <= k < |s| ==> r[k] == s[k];
  }

  /** No move makes or loses a crate. */
  lemma AfterMoveKeepsCrates(stacks: seq<string>, m: Move, reverse: bool)
    requires m.from < |stacks| && m.to < |stacks|
    ensures TotalCrates(AfterMove(stacks, m, reverse)) == TotalCrates(stacks)
  {
    if m.from != m.to {
      var gained := stacks[m.to] + Moved(stacks, m, reverse);
      var cut := stacks[m.from][..|stacks[m.from]| - Taken(stacks, m)];
      TotalCratesTwoUpdates(stacks, m.to, gained, m.from, cut);
    }
  }

  lemma TotalCratesTwoUpdates(stacks: seq<string>, i: nat, s: string, j: nat, t: string)
    requires i < |stacks| && j < |stacks| && i != j
    ensures TotalCrates(stacks[i := s][j := t]) == TotalCrates(stacks) - |stacks[i]| + |s| - |stacks[j]| + |t|
  {
    TotalCratesUpdate(stacks, i, s);
    TotalCratesUpdate(stacks[i := s], j, t);
  }

  /** The one-at-a-time crane: take the top crate of `from`, put it on `to`;
      nothing happens when `from` is empty. */
  function MoveOneCrate(stacks: seq<string>, from: nat, to: nat): (r: seq<string>)
    requires from < |stacks| && to < |stacks|
    ensures |r| == |stacks|
  {
    var source := stacks[from];
    if source == [] then stacks
    else
      var s1 := stacks[from := source[..|source| - 1]];
      s1[to := s1[to] + [source[|source| - 1]]]
  }

  function MoveCrates(stacks: seq<string>, from: nat, to: nat, n: nat): (r: seq<string>)
    requires from < |stacks| && to < |stacks|
    ensures |r| == |stacks|
    decreases n
  {
    if n == 0 then stacks else MoveCrates(MoveOneCrate(stacks, from, to), from, to, n - 1)
  }

  lemma ReverseSnoc(s: string, c: char)
    ensures Reverse(s + [c]) == [c] + Reverse(s)
  {
    assert (s + [c])[..|s|] == s;
  }

  /** A move that takes no crate changes nothing. */
  lemma AfterMoveNothing(stacks: seq<string>, m: Move, reverse: bool)
    requires m.from < |stacks| && m.to < |stacks| && Taken(stacks, m) == 0
    ensures AfterMove(stacks, m, reverse) == stacks
  {
    if m.from != m.to {
      var source := stacks[m.from];
      assert source[|source|..] == [];
      assert Moved(stacks, m, reverse) == [];
      assert stacks[m.to] + [] == stacks[m.to];
      assert source[..|source|] == source;
    }
  }

  /** Moving `count` crates one at a time is moving the top crate, then
      `count - 1` more. */
  lemma AfterMoveFirstCrate(stacks: seq<string>, m: Move)
    requires m.from < |stacks| && m.to < |stacks| && m.from != m.to
    requires m.count > 0 && stacks[m.from] != []
    ensures AfterMove(stacks, m, true)
      == AfterMove(MoveOneCrate(stacks, m.from, m.to), Move(m.count - 1, m.from, m.to), true)
  {
    var s1 := MoveOneCrate(stacks, m.from, m.to);
    var m1 := Move(m.count - 1, m.from, m.to);
    var a := AfterMove(stacks, m, true);
    var b := AfterMove(s1, m1, true);
    FirstCrateStacks(stacks, m);
    assert forall i :: 0 <= i < |a| && i != m.from && i != m.to ==> a[i] == b[i] by {
      AfterMoveEffect(stacks, m, true);
      AfterMoveEffect(s1, m1, true);
    }
  }

  lemma FirstCrateStacks(stacks: seq<string>, m: Move)
    requires m.from < |stacks| && m.to < |stacks| && m.from != m.to
    requires m.count > 0 && stacks[m.from] != []
    ensures var b := AfterMove(MoveOneCrate(stacks, m.from, m.to), Move(m.count - 1, m.from, m.to), true);
      var a := AfterMove(stacks, m, true);
      a[m.to] == b[m.to] && a[m.from] == b[m.from]
  {
    var s1 := MoveOneCrate(stacks, m.from, m.to);
    var m1 := Move(m.count - 1, m.from, m.to);
    var source := stacks[m.from];
    var top := source[|source| - 1];
    FirstCrateMoved(stacks, m);
    AfterMoveStacks(stacks, m, true);
    AfterMoveStacks(s1, m1, true);
    assert stacks[m.to] + ([top] + Moved(s1, m1, true)) == stacks[m.to] + [top] + Moved(s1, m1, true);
  }

  lemma FirstCrateMoved(stacks: seq<string>, m: Move)
    requires m.from < |stacks| && m.to < |stacks| && m.from != m.to
    requires m.count > 0 && stacks[m.from] != []
    ensures var s1 := MoveOneCrate(stacks, m.from, m.to);
      var m1 := Move(m.count - 1, m.from, m.to);
      && s1[m.from] == stacks[m.from][..|stacks[m.from]| - 1]
      && s1[m.to] == stacks[m.to] + [stacks[m.from][|stacks[m.from]| - 1]]
      && Taken(s1, m1) == Taken(stacks, m) - 1
      && Moved(stacks, m, true) == [stacks[m.from][|stacks[m.from]| - 1]] + Moved(s1, m1, true)
  {
    var s1 := MoveOneCrate(stacks, m.from, m.to);
    var m1 := Move(m.count - 1, m.from, m.to);
    var source := stacks[m.from];
    var k := Taken(stacks, m);
    var rest := source[..|source| - 1];
    assert s1[m.from] == rest;
    assert Taken(s1, m1) == k - 1;
    var block := source[|source| - k..];
    var block1 := rest[|rest| - (k - 1)..];
    assert Moved(stacks, m, true) == Reverse(block);
    assert Moved(s1, m1, true) == Reverse(block1);
    SuffixSnoc(source, k);
    ReverseSnoc(block1, source[|source| - 1]);
  }

  lemma SuffixSnoc(s: string, k: nat)
    requires 1 <= k <= |s|
    ensures s[|s| - k..] == s[..|s| - 1][|s| - 1 - (k - 1)..] + [s[|s| - 1]]
  {
  }

  /** `apply_move` is `count` single-crate moves, one after the other. */
  lemma {:induction false} AfterMoveIsOneAtATime(stacks: seq<string>, m: Move)
    requires m.from < |stacks| && m.to < |stacks|
    ensures AfterMove(stacks, m, true) == MoveCrates(stacks, m.from, m.to, m.count)
    decreases m.count
  {
    if m.from == m.to {
      MoveCratesInPlace(stacks, m.from, m.count);
    } else if m.count == 0 {
      AfterMoveNothing(stacks, m, true);
    } else if stacks[m.from] == [] {
      AfterMoveNothing(stacks, m, true);
      MoveCratesEmpty(stacks, m.from, m.to, m.count);
    } else {
      AfterMoveFirstCrate(stacks, m);
      AfterMoveIsOneAtATime(MoveOneCrate(stacks, m.from, m.to), Move(m.count - 1, m.from, m.to));
    }
  }

  lemma {:induction false} MoveCratesInPlace(stacks: seq<string>, i: nat, n: nat)
    requires i < |stacks|
    ensures MoveCrates(stacks, i, i, n) == stacks
  {
    if n > 0 {
      var source := stacks[i];
      if source != [] {
        assert source[..|source| - 1] + [source[|source| - 1]] == source;
      }
      assert MoveOneCrate(stacks, i, i) == stacks;
      MoveCratesInPlace(stacks, i, n - 1);
    }
  }

  lemma {:induction false} MoveCratesEmpty(stacks: seq<string>, from: nat, to: nat, n: nat)
    requires from < |stacks| && to < |stacks| && stacks[from] == []
    ensures MoveCrates(stacks, from, to, n) == stacks
  {
    if n > 0 {
      MoveCratesEmpty(stacks, from, to, n - 1);
    }
  }

  /** The answer: the top crate of each stack, a space for an empty one. */
  function TopLetters(stacks: seq<string>): (r: string)
    ensures |r| == |stacks|
    ensures forall i :: 0 <= i < |stacks| ==>
      r[i] == if stacks[i] == [] then ' ' else stacks[i][|stacks[i]| - 1]
  {
    seq(|stacks|, i requires 0 <= i < |stacks| =>
      if stacks[i] == [] then ' ' else stacks[i][|stacks[i]| - 1])
  }

  /** The stacks after all the moves; a move naming a stack that does not
      exist panics. */
  function ApplyAll(stacks: seq<string>, moves: seq<Move>, reverse: bool): (r: Outcome<seq<string>>)
    ensures r.Returns? ==> |r.value| == |stacks|
  {
    if moves == [] then Returns(stacks)
    else
      match ApplyAll(stacks, moves[..|moves| - 1], reverse)
      case Panics => Panics
      case Returns(s) =>
        var m := moves[|moves| - 1];
        if m.from < |s| && m.to < |s| then Returns(AfterMove(s, m, reverse)) else Panics
  }

  /** No move makes or loses a crate. */
  lemma {:induction false} ApplyAllKeepsCrates(stacks: seq<string>, moves: seq<Move>, reverse: bool)
    requires ApplyAll(stacks, moves, reverse).Returns?
    ensures TotalCrates(ApplyAll(stacks, moves, reverse).value) == TotalCrates(stacks)
  {
    if moves != [] {
      ApplyAllKeepsCrates(stacks, moves[..|moves| - 1], reverse);
      var s := ApplyAll(stacks, moves[..|moves| - 1], reverse).value;
      AfterMoveKeepsCrates(s, moves[|moves| - 1], reverse);
    }
  }

  /** What `solve_part1` (`reverse`) and `solve_part2` return for the rows
      of the drawing and the moves. */
  function Rearrange(rows: seq<Row>, moves: seq<Move>, reverse: bool): Outcome<string>
  {
    match StacksOf(rows)
    case Panics => Panics
    case Returns(stacks) =>
      match ApplyAll(stacks, moves, reverse)
      case Panics => Panics
      case Returns(s) => Returns(TopLetters(s))
  }

  // ---------------------------------------------------------------------
  // The stacks as the program keeps them

  class Stacks {
    var stacks: seq<string>

    constructor (stacks: seq<string>)
      ensures this.stacks == stacks
    {
      this.stacks := stacks;
    }

    /** `Stacks::from_rows`. */
    static method FromRows(rows: seq<Row>) returns (r: Outcome<Stacks>)
      ensures r.Panics? <==> StacksOf(rows).Panics?
      ensures r.Returns? ==> fresh(r.value) && r.value.stacks == StacksOf(rows).value
    {
      if |rows| == 0 {
        return Panics;
      }
      var stackCount := |rows[0].row|;
      var j := 0;
      while j < |rows|
        invariant j <= |rows|
        invariant forall k :: 0 <= k < j ==> |rows[k].row| == stackCount
      {
        if |rows[j].row| != stackCount {
          return Panics;
        }
        j := j + 1;
      }
      var stacks: seq<string> := [];
      for i := 0 to stackCount
        invariant stacks == seq(i, k requires 0 <= k => Column(rows, k))
      {
        stacks := stacks + [Column(rows, i)];
      }
      var s := new Stacks(stacks);
      return Returns(s);
    }

    /** `Stacks::apply_move`; `false` when a stack index is out of range
        (the program panics). */
    method ApplyMove(m: Move) returns (ok: bool)
      modifies this
      ensures ok <==> m.from < |old(stacks)| && m.to < |old(stacks)|
      ensures ok ==> stacks == AfterMove(old(stacks), m, true)
      ensures !ok ==> stacks == old(stacks)
    {
      if !(m.from < |stacks|) || !(m.to < |stacks|) {
        return false;
      }
      var count := if |stacks[m.from]| < m.count then |stacks[m.from]| else m.count;
      var source := stacks[m.from];
      var moved := Reverse(source[|source| - count..]);
      stacks := stacks[m.to := stacks[m.to] + moved];
      var from := stacks[m.from];
      stacks := stacks[m.from := from[..|from| - count]];
      if m.from == m.to {
        assert from[..|from| - count] == old(stacks)[m.from];
      }
      return true;
    }

    /** `Stacks::apply_move2`. */
    method ApplyMove2(m: Move) returns (ok: bool)
      modifies this
      ensures ok <==> m.from < |old(stacks)| && m.to < |old(stacks)|
      ensures ok ==> stacks == AfterMove(old(stacks), m, false)
      ensures !ok ==> stacks == old(stacks)
    {
      if !(m.from < |stacks|) || !(m.to < |stacks|) {
        return false;
      }
      var count := if |stacks[m.from]| < m.count then |stacks[m.from]| else m.count;
      var fromLen := |stacks[m.from]|;
      var moved := stacks[m.from][fromLen - count..];
      stacks := stacks[m.to := stacks[m.to] + moved];
      var from := stacks[m.from];
      stacks := stacks[m.from := from[..|from| - count]];
      if m.from == m.to {
        assert from[..|from| - count] == old(stacks)[m.from];
      }
      return true;
    }
  }

  /** `solve_part1` (`reverse`) and `solve_part2`, from the rows of the
      drawing and the moves on. */
  method Solve(rows: seq<Row>, moves: seq<Move>, reverse: bool) returns (r: Outcome<string>)
    ensures r == Rearrange(rows, moves, reverse)
  {
    var built := Stacks.FromRows(rows);
    if built.Panics? {
      return Panics;
    }
    var stacks := built.value;
    var i := 0;
    while i < |moves|
      invariant i <= |moves|
      invariant ApplyAll(StacksOf(rows).value, moves[..i], reverse) == Returns(stacks.stacks)
    {
      assert moves[..i + 1][..i] == moves[..i];
      var ok;
      if reverse {
        ok := stacks.ApplyMove(moves[i]);
      } else {
        ok := stacks.ApplyMove2(moves[i]);
      }
      if !ok {
        ApplyAllPanicsOnward(StacksOf(rows).value, moves, i + 1, reverse);
        return Panics;
      }
      i := i + 1;
    }
    assert moves[..i] == moves;
    r := Returns(TopLetters(stacks.stacks));
  }

  lemma {:induction false} ApplyAllPanicsOnward(stacks: seq<string>, moves: seq<Move>, i: nat, reverse: bool)
    requires i <= |moves| && ApplyAll(stacks, moves[..i], reverse) == Panics
    ensures ApplyAll(stacks, moves, reverse) == Panics
    decreases |moves| - i
  {
    if i < |moves| {
      assert moves[..i + 1][..i] == moves[..i];
      ApplyAllPanicsOnward(stacks, moves, i + 1, reverse);
    } else {
      assert moves[..i] == moves;
    }
  }

  // ---------------------------------------------------------------------
  // The example drawing

  lemma ExampleStacks(rows: seq<Row>)
    requires rows == [
      Row([None, Some('D'), None]),
      Row([Some('N'), Some('C'), None]),
      Row([Some('Z'), Some('M'), Some('P')])]
    ensures StacksOf(rows) == Returns(["ZN", "MCD", "P"])
  {
    var r2 := rows[2..];
    var r1 := rows[1..];
    assert r2[1..] == [] && r1[1..] == r2 && rows[1..] == r1;
    assert Column(r2, 0) == "Z" && Column(r2, 1) == "M" && Column(r2, 2) == "P";
    assert Column(r1, 0) == "ZN" && Column(r1, 1) == "MC" && Column(r1, 2) == "P";
    assert Column(rows, 0) == "ZN";
    assert Column(rows, 1) == "MCD";
    assert Column(rows, 2) == "P";
    assert RowsAreRectangular(rows);
    var stacks := seq(|rows[0].row|, i requires 0 <= i => Column(rows, i));
    assert |stacks| == 3;
    assert stacks[0] == "ZN" && stacks[1] == "MCD" && stacks[2] == "P";
    assert stacks == ["ZN", "MCD", "P"];
  }

  /** Moving two crates from stack 2 to stack 3 one at a time. */
  lemma ExampleMove(stacks: seq<string>)
    requires stacks == ["ZN", "MCD", "P"]
    ensures AfterMove(stacks, Move(2, 1, 2), true) == ["ZN", "M", "PDC"]
  {
    assert Taken(stacks, Move(2, 1, 2)) == 2;
    assert stacks[1][1..] == "CD";
    assert Reverse("CD") == "DC";
    assert "P" + "DC" == "PDC";
    assert "MCD"[..1] == "M";
  }
}
