# Advent of Code 2022 solutions, days 1–10, 12–15 and 17, in Dafny

This project models the puzzle solutions of an Advent of Code 2022 repository
written in Rust, one module per day. For each day it models the parsing, the
data structures and the first part's computation that the Rust program
implements, and proves what each of them computes.

- Day 1: calorie groups.
- Day 2: rock–paper–scissors scores.
- Day 3: rucksack priorities and badges.
- Day 4: section ranges that contain each other.
- Day 5: crate stacks rearranged by a crane that moves one crate or a whole
  block at a time.
- Day 6: start-of-packet markers.
- Day 7: directory sizes from a shell transcript.
- Day 8: trees visible from outside the grid.
- Day 9: the rope's tail following its head.
- Day 10: parsing CPU instructions.
- Day 12: parsing the height map and an A* shortest-path search on it.
- Day 13: nested packet lists, their order, parsing and display.
- Day 14: parsing rock-path coordinates.
- Day 15: sensor ranges on one row.
- Day 17: falling rocks in a seven-wide chamber, with the cycle detection
  that skips repeated rounds.

How the model is built:

- A panic in the Rust program (`unwrap` on an error, `assert!`, an index out
  of range, an explicit `panic!`) is the `Panics` value of
  `Common.Outcome<T>`. A run that finishes is `Returns(value)`.
- The input text is given as its sequence of lines.
- `usize` and `isize` parsing (`str::parse`) is modelled exactly, including
  the range limits, with round-trip lemmas against decimal display.
- Where the Rust code works step by step (loops over lines, mutable vectors,
  sets and maps, the `Stacks`, `Rock`, `Tower` and `HeightRecordKey`
  objects), the model is an imperative Dafny method or class. Each is proved
  against a specification function, and the properties of the program are
  then proved about that function.
- Where the Rust code is an expression over values (scores, orderings,
  ranges, recursive packet comparison), the model is a function.

Files: `common.dfy` (Option, Outcome, integer parsing and display, whitespace),
then `day01_calories.dfy` … `day17_height.dfy`, one module per file: `Calories`,
`Strategy`, `Rucksacks`, `Cleanup`, `Crates`, `Marker`, `Directories`,
`Trees`, `Rope`, `Instructions`, `Heightmap`, `HillSearch`, `Packets`,
`Coordinates`, `Beacons`, `FallingRocks`, `TowerHeight`.

## Model

| member | source | states |
|---|---|---|
| Common.ParseUsize | day1/src/main.rs:9 | `str::parse::<usize>`: a parsed value is always below 2^64 |
| Common.ParseUsizeOfDisplay | day1/src/main.rs:9 | every `usize` round-trips through decimal display and `parse::<usize>` |
| Common.Abs | day9/src/main.rs:55-56 | the absolute value is the value or its negation, and never negative |
| Common.ParseIsize | day10/src/main.rs:19 | `str::parse::<isize>`: a parsed value is always within the `isize` range |
| Common.ParseIsizeOfDisplay | day10/src/main.rs:19 | every `isize` round-trips through display (with its sign) and `parse::<isize>` |
| Common.TrimEnd | day17/src/main.rs:16 | `trim_end` keeps a prefix, drops only whitespace, and what is kept does not end in whitespace |
| Calories.SolvePart1 | day1/src/main.rs:4-20 | the line loop computes exactly the group-maximum specification `Part1`, including its panic on a non-numeric line |
| Calories.Part1IsLargestGroup | day1/src/main.rs:4-20 | part 1's answer is at least every group's sum and is one of them (or 0 when there is no group) |
| Calories.MaxOf | day1/src/main.rs:12-17 | the running maximum bounds every element and is one of them, or 0 |
| Calories.BlankLinePanicsPart1 | day1/src/main.rs:8-9 | part 1 splits groups only on empty lines: a whitespace-only line reaches `parse().unwrap()` and panics |
| Calories.SolvePart2 | day1/src/main.rs:22-39 | the line loop with sort and `take(3)` computes exactly the specification `Part2` |
| Calories.InsertDesc | day1/src/main.rs:37 | inserting into a descending list keeps it descending and adds exactly that element |
| Calories.SortDesc | day1/src/main.rs:37 | `sort_unstable_by(b.cmp(a))` gives a descending permutation of the sums |
| Calories.SortedDescHeadIsMax | day1/src/main.rs:37 | the head of the descending sort is the maximum of the sums |
| Calories.Part2TakesLargest | day1/src/main.rs:37-38 | the three sums that part 2 adds are at least every sum it leaves out |
| Calories.SameGroupsWithoutBlankLines | day1/src/main.rs:8-26 | with no whitespace-only lines, both parts' tests for a separator split the input into the same groups |
| Calories.Part2StartsWithPart1 | day1/src/main.rs:8-37 | on such input the largest group of part 2 is part 1's answer |
| Calories.BlankLineSeparatesPart2 | day1/src/main.rs:26-31 | part 2 treats a whitespace-only line as a separator: `["1"," ","2"]` gives the groups 1 and 2 |
| Calories.BlankLinePart2 | day1/src/main.rs:26-38 | on `["1"," ","2"]` part 2 adds up both groups to 3 |
| Calories.ScanPanicsOnward | day1/src/main.rs:9-27 | once a line has panicked, the whole run panics, whatever follows |
| Calories.Part1 | day1/src/main.rs:4-20 | specification of part 1: the largest group sum, or a panic when a non-empty line is not a `usize`; its meaning is proved by `Part1IsLargestGroup` and `SolvePart1` |
| Calories.Part2 | day1/src/main.rs:22-39 | specification of part 2: the sum of the first three of the group sums sorted in descending order; its meaning is proved by `Part2TakesLargest` and `SolvePart2` |
| Strategy.NewPickOfLetter | day2/src/main.rs:16-23 | `Pick::new` reads each player's letter (A/B/C and X/Y/Z) back to its pick |
| Strategy.NewPickAcceptsOnlyLetters | day2/src/main.rs:16-23 | `Pick::new` returns exactly for the six letters and panics on anything else |
| Strategy.NewPick | day2/src/main.rs:16-23 | `Pick::new`: A/X is Rock, B/Y Paper, C/Z Scissors, anything else panics; proved by `NewPickOfLetter` and `NewPickAcceptsOnlyLetters` |
| Strategy.ShapeValue | day2/src/main.rs:25-43 | a shape scores 1 to 3 |
| Strategy.OutcomeValue | day2/src/main.rs:25-43 | 6 exactly when the pick beats the other, 3 exactly on a draw, 0 exactly when it loses |
| Strategy.Play | day2/src/main.rs:25-43 | a round scores between 1 and 9 |
| Strategy.PlayIsShapePlusOutcome | day2/src/main.rs:25-43 | a round's score is the shape's value plus the outcome's value |
| Strategy.OutcomesAreComplementary | day2/src/main.rs:25-43 | a draw gives 3 and the two players' outcome points always add up to 6 |
| Strategy.FindPicks | day2/src/main.rs:48-52 | the regex `([A-C]) ([X-Z])` matches at its leftmost position and captures those two letters, or there is no match anywhere |
| Strategy.LineScore | day2/src/main.rs:52-66 | one line scores at most 9 |
| Strategy.LineScorePanicsIff | day2/src/main.rs:52-66 | a line panics exactly when the regex matches nowhere and the line is not blank |
| Strategy.SolvePart1 | day2/src/main.rs:46-69 | the loop computes exactly the specification sum `Total` |
| Strategy.Total | day2/src/main.rs:46-69 | specification of part 1: the sum of the line scores, or a panic from the first line that panics; proved by `TotalPanicsIff`, `TotalPanicsOnward` and `SolvePart1` |
| Strategy.TotalPanicsIff | day2/src/main.rs:46-69 | the total panics exactly when some line panics, and is at most 9 per line |
| Strategy.TotalPanicsOnward | day2/src/main.rs:65 | a panic on a prefix of the lines is a panic on the whole input |
| Strategy.ExampleScores | day2/src/main.rs:101-104 | the example rounds score 8, 1 and 6, and the leading empty line scores 0 |
| Strategy.Example | day2/src/main.rs:101-104 | the example input totals 15 |
| Rucksacks.GetValue | day3/src/main.rs:9-18 | a value exists exactly for ASCII letters, 1–26 for lower case and 27–52 for upper case |
| Rucksacks.GetValueOfLetter | day3/src/main.rs:9-18 | every priority 1–52 is the value of a letter |
| Rucksacks.LetterOfValue | day3/src/main.rs:9-18 | a letter is recovered from its priority |
| Rucksacks.GetValueInjective | day3/src/main.rs:9-18 | two letters with the same priority are the same letter |
| Rucksacks.FirstCommon | day3/src/main.rs:27-30 | the first character of the first compartment, in order, that the second also holds, or none; proved by `FirstCommonIsFirst` |
| Rucksacks.FirstCommonIsFirst | day3/src/main.rs:27-30 | the first character of the first half that also occurs in the second half is the one taken, and none is taken when the halves share nothing |
| Rucksacks.RucksackPriority | day3/src/main.rs:23-32 | a rucksack's priority is at most 52 |
| Rucksacks.RucksackPriorityIsShared | day3/src/main.rs:23-32 | a nonzero priority is that of a character in both halves; it is 0 exactly when the halves share nothing |
| Rucksacks.NonBlank | day3/src/main.rs:22 | filtering keeps at most as many lines |
| Rucksacks.NonBlankKeeps | day3/src/main.rs:22-41 | the filter keeps exactly the lines that are not blank |
| Rucksacks.Priorities | day3/src/main.rs:20-37 | the sum is at most 52 per rucksack |
| Rucksacks.SolvePart1 | day3/src/main.rs:20-37 | the loop computes exactly the specification `Priorities` over the non-blank lines |
| Rucksacks.Common2 | day3/src/main.rs:45-48 | the characters kept are exactly those in both strings |
| Rucksacks.Badge | day3/src/main.rs:45-52 | a badge's priority is between 1 and 52 |
| Rucksacks.BadgeIsShared | day3/src/main.rs:45-52 | a badge is the priority of a character in all three rucksacks, and a group with no common character panics |
| Rucksacks.Badges | day3/src/main.rs:39-57 | a badge total exists only when the rucksacks come in whole groups of three |
| Rucksacks.BadgesOfGroup | day3/src/main.rs:42-44 | one or two leftover rucksacks panic (`unwrap` on `next()`); otherwise each group's badge is added to the rest |
| Rucksacks.NextRucksack | day3/src/main.rs:41 | the filtered iterator's `next` returns the next non-blank line, or none when only blank lines remain |
| Rucksacks.NextGroup | day3/src/main.rs:42-52 | taking three rucksacks advances the badge sum exactly as `Badges` does, or panics where it does |
| Rucksacks.SolvePart2 | day3/src/main.rs:39-57 | the loop computes exactly the specification `Badges` over the non-blank lines |
| Cleanup.ContainsIffEverySection | day4/src/main.rs:19-21 | `contains` holds exactly when every section of the other range is in this one |
| Cleanup.ContainsIsReflexive | day4/src/main.rs:19-21 | a range contains itself |
| Cleanup.ContainsIsTransitive | day4/src/main.rs:19-21 | containment is transitive |
| Cleanup.ContainsIsAntisymmetric | day4/src/main.rs:19-21 | two ranges that contain each other are equal |
| Cleanup.CountContained | day4/src/main.rs:52-59 | the count is at most the number of pairs |
| Cleanup.CountIsNumberOfContainedPairs | day4/src/main.rs:52-59 | the count is the number of pairs where one range contains the other |
| Cleanup.Swapped | day4/src/main.rs:52-59 | swapping each pair's ranges keeps the pairs in order |
| Cleanup.CountIsSymmetric | day4/src/main.rs:52-59 | the count does not depend on which elf is listed first |
| Cleanup.Example | day4/src/main.rs:96-99 | the six example pairs contain each other twice |
| Crates.Row.Get | day5/src/main.rs:26-32 | `Row::get` is the slot of the stack inside the row, and a gap past its end |
| Crates.Chunk | day5/src/main.rs:45-54 | a chunk gives a crate only for an upper-case letter it holds, and a gap exactly for three spaces |
| Crates.RowFrom | day5/src/main.rs:38-58 | a parsed row has one slot per four characters |
| Crates.ParseRow | day5/src/main.rs:38-58 | a line of width w that parses gives (w + 1) / 4 slots |
| Crates.RowFromStr | day5/src/main.rs:38-58 | the chunk loop computes exactly the specification `ParseRow` |
| Crates.RowExample | day5/src/main.rs:289-296 | `"    [D]    "` is a gap, crate D, gap |
| Crates.StackNumbersAreNoRow | day5/src/main.rs:297-300 | the stack-number line is not a row |
| Crates.Stacks.FromRows | day5/src/main.rs:72-92 | the stacks are the columns of the rows, bottom row first; rows of unequal width panic |
| Crates.ExampleStacks | day5/src/main.rs:302-313 | the example drawing gives the stacks ZN, MCD, P |
| Crates.Stacks.constructor | day5/src/main.rs:68-70 | `Stacks::new` holds the given stacks |
| Crates.MoveFromOneBased | day5/src/main.rs:171-174 | a move from stack numbers gives 0-based indices and panics exactly on a stack number 0 |
| Crates.MoveExample | day5/src/main.rs:285-287 | `move 2 from 4 to 6` is two crates from index 3 to index 5 |
| Crates.AfterMove | day5/src/main.rs:94-122 | a move keeps the number of stacks |
| Crates.Moved | day5/src/main.rs:94-122 | the crates moved are as many as asked, or all there are |
| Crates.AfterMoveStacks | day5/src/main.rs:94-122 | the target gains the moved crates on top and the source loses exactly that many from its top |
| Crates.AfterMoveEffect | day5/src/main.rs:94-122 | a move changes only the source and target stacks, keeps the target's old crates underneath, and moves counts consistently |
| Crates.AfterMoveRestores | day5/src/main.rs:94-122 | putting the moved crates back on the source (reversed for part 1) restores it: nothing is lost or invented |
| Crates.AfterMoveKeepsCrates | day5/src/main.rs:94-122 | a move keeps the total number of crates |
| Crates.AfterMoveIsOneAtATime | day5/src/main.rs:94-109 | part 1's move, which reverses the block, is the same as moving the crates one at a time |
| Crates.MoveCrates | day5/src/main.rs:94-109 | the reference crane that moves `n` crates one at a time; keeps the number of stacks, and `AfterMoveIsOneAtATime` proves `apply_move` equal to it |
| Crates.Stacks.ApplyMove | day5/src/main.rs:94-109 | `apply_move` updates the stacks as `AfterMove` with the block reversed; an index out of range panics and changes nothing |
| Crates.Stacks.ApplyMove2 | day5/src/main.rs:110-122 | `apply_move2` updates the stacks as `AfterMove` with the block in order |
| Crates.ExampleMove | day5/src/main.rs:315-328 | the example move gives ZN, M, PDC |
| Crates.TopLetters | day5/src/main.rs:205-209 | the answer has one character per stack: its top crate, or a space for an empty stack |
| Crates.ApplyAll | day5/src/main.rs:196-204 | applying moves keeps the number of stacks |
| Crates.ApplyAllKeepsCrates | day5/src/main.rs:196-204 | a whole rearrangement keeps the total number of crates |
| Crates.ApplyAllPanicsOnward | day5/src/main.rs:196-204 | a move that panics makes the whole rearrangement panic |
| Crates.Rearrange | day5/src/main.rs:178-244 | specification of both parts: stacks from the rows, the moves applied (reversed for part 1, in order for part 2), then the top letters; `Solve` is proved equal to it |
| Crates.Solve | day5/src/main.rs:178-244 | building the stacks, applying the moves and reading the tops computes exactly `Rearrange` |
| Marker.UniqueCount | day6/src/main.rs:13-20 | the count is the length of the prefix whose characters do not repeat later in the window, and it stops at the first that does |
| Marker.AllUniqueIsDistinct | day6/src/main.rs:13-20 | a window whose every character is unique within it has distinct characters |
| Marker.RepeatBlocksWindows | day6/src/main.rs:21-24 | a repeated character at offset u rules out every window that starts up to u positions later |
| Marker.SkipPastRepeat | day6/src/main.rs:21-24 | jumping past the repeat does not skip the first marker |
| Marker.FindMarker | day6/src/main.rs:4-27 | specification of `find_marker_pos` as written: 0 for a short input, else the first distinct window among the starts below `len - marker_len`; proved by `MarkerFromIsFirst` and `FindMarkerPos` |
| Marker.FindMarkerFixed | day6/src/main.rs:4-27 | the corrected search over every window start; proved by `FindMarkerFixedIsFirst` |
| Marker.MarkerFromIsFirst | day6/src/main.rs:4-27 | a result is the end of the first window of distinct characters, and 0 means no window up to the limit is distinct |
| Marker.FindMarkerPos | day6/src/main.rs:4-27 | the loop with its skip-ahead computes exactly the specification `FindMarker` |
| Marker.FindMarkerIsFixedExceptAtEnd | day6/src/main.rs:8-10 | the program's answer equals the first marker, except that a marker ending the input is reported as 0 |
| Marker.MarkerAtEndIsMissed | day6/src/main.rs:8-10 | `"abcd"` with length 4 gives 0, where the marker ends at 4 |
| Marker.FindMarkerFixedIsFirst | day6/src/main.rs:4-27 | with every window examined, the answer is the end of the first distinct window, and 0 exactly when there is none |
| Marker.Example1 | day6/src/main.rs:66 | the first example's marker is at 7 |
| Marker.Example2 | day6/src/main.rs:67 | the second example's marker is at 5 |
| Marker.Example3 | day6/src/main.rs:68 | the third example's marker is at 6 |
| Marker.Example4 | day6/src/main.rs:69 | the fourth example's marker is at 10 |
| Marker.Example5 | day6/src/main.rs:70 | the fifth example's marker is at 11 |
| Marker.EmptyHasNoMarker | day6/src/main.rs:4-27 | an empty input has no marker: the answer is 0 |
| Directories.Classify | day7/src/main.rs:12-48 | a line is blank exactly when empty; a `cd` names a lower-case directory and a file line has a digit size |
| Directories.Commands | day7/src/main.rs:24-49 | one command per line |
| Directories.Process | day7/src/main.rs:10-53 | specification of `process` from a line on: a walk returns at most to the end of the lines; its size, map and panics are proved by `ProcessRecords`, `ProcessSizeIsFileSum`, `ProcessCountsDirs` and `ProcessDir` |
| Directories.ProcessDir | day7/src/main.rs:10-53 | the recursive line walk computes exactly the specification `Process` |
| Directories.Descend | day7/src/main.rs:29-39 | `cd` into a child processes it recursively, adds its size and merges its map, and panics when a path repeats |
| Directories.MergeInto | day7/src/main.rs:36-38 | merging adds the child's map, and panics exactly when a key is already present |
| Directories.MergedIsUnion | day7/src/main.rs:36-38 | inserting each child entry into a map with none of its keys gives the union of the two maps |
| Directories.ProcessRecords | day7/src/main.rs:10-53 | a finished walk records every directory under its path, with the sizes that the walk computed |
| Directories.ScanRecordsOwnPath | day7/src/main.rs:51 | the directory's own path is in the map with its total size |
| Directories.ProcessKeysUnder | day7/src/main.rs:33-51 | every recorded path lies under the directory's own path |
| Directories.ProcessSizeIsFileSum | day7/src/main.rs:23-49 | a directory's size is the sum of the file sizes listed between its `cd` and its end, subdirectories included |
| Directories.ProcessCountsDirs | day7/src/main.rs:29-51 | the map holds one entry per `cd` into a directory plus the directory itself: each path is recorded once |
| Directories.SmallTotalRemove | day7/src/main.rs:57-61 | the total of the small sizes splits off any one entry |
| Directories.SmallTotalBound | day7/src/main.rs:57-61 | the total is at most 100000 per directory |
| Directories.Part1 | day7/src/main.rs:55-62 | specification of part 1: the sum of the recorded sizes of at most 100000 after the walk from `C:`; `SolvePart1` is proved equal to it |
| Directories.SolvePart1 | day7/src/main.rs:55-62 | part 1 computes exactly the sum of the sizes of at most 100000 over the directories of `process` |
| Trees.ReadRow | day8/src/main.rs:10-16 | a line of digits reads as its digit values, and any other character is refused |
| Trees.NonDigitPanics | day8/src/main.rs:13 | any non-digit character in a non-empty line makes the solution panic |
| Trees.ReadGrid | day8/src/main.rs:7-21 | the trees are the concatenated digit rows of the non-empty lines and `width` counts those lines; a non-digit panics |
| Trees.NonEmptyKeeps | day8/src/main.rs:9 | the filter keeps exactly the non-empty lines |
| Trees.RowDigits | day8/src/main.rs:12-16 | one height per character: its digit value |
| Trees.ScanFromLeft | day8/src/main.rs:29-37 | the left scan marks exactly the inner trees taller than all trees to their left, and returns the index of the tallest |
| Trees.ScanFromRight | day8/src/main.rs:39-45 | the right scan marks exactly the trees after that index that are taller than all trees to their right |
| Trees.RowCellsSplit | day8/src/main.rs:29-45 | the two scans together find every inner tree visible from the left or from the right |
| Trees.ScanRow | day8/src/main.rs:29-45 | scanning a row adds exactly the row's visible inner trees |
| Trees.ScanRows | day8/src/main.rs:26-46 | the row loop collects exactly the visible trees of the inner rows, and panics when the slice runs past the trees |
| Trees.Answer | day8/src/main.rs:22-48 | the count for given row count and stride: border trees by formula plus the visible inner trees, panicking on `height - 2` underflow or a row slice past the end; proved by `CountVisible` and `RowsVisibleMember` |
| Trees.CountVisible | day8/src/main.rs:22-48 | the answer is the border count plus the visible inner trees, as the specification computes it |
| Trees.Part1 | day8/src/main.rs:5-49 | specification of part 1 as written, the line count used as the stride; `SolvePart1` is proved equal to it |
| Trees.SolvePart1 | day8/src/main.rs:5-49 | the whole solution computes exactly the specification `Part1` |
| Trees.RowsVisibleMember | day8/src/main.rs:26-46 | a cell is counted exactly when it is inner in its row and taller than all to its left or all to its right |
| Trees.SquareGridsAgree | day8/src/main.rs:17-28 | on a square grid the program as written equals the row-length version |
| Trees.Part1Fixed | day8/src/main.rs:5-49 | the corrected part 1 with the row length as stride; proved by `FixedCount`, `FixedSeesRow` and `SquareGridsAgree` |
| Trees.FixedCount | day8/src/main.rs:22-48 | with the row length as stride, the answer is the border plus the visible inner trees of the rectangle |
| Trees.FixedSeesRow | day8/src/main.rs:26-46 | with the row length as stride, an inner cell is counted exactly when it is visible in its own row |
| Trees.StrideMisreadsRectangle | day8/src/main.rs:17-28 | on the 3×4 grid `1111/1911/1111` the program gives 10, where 11 trees are visible from the left or right |
| Rope.Sign | day9/src/main.rs:10-18 | the sign is -1, 0 or 1, and 0 exactly for 0 |
| Rope.SignTimes | day9/src/main.rs:10-18 | sign times value is the absolute value |
| Rope.AddDiff | day9/src/main.rs:42-50 | `add` and `diff` undo each other |
| Rope.SignV | day9/src/main.rs:51-54 | each component of a vector's sign is at most 1 in size |
| Rope.FromMove | day9/src/main.rs:31-39 | a move exists exactly for U, D, L, R, lies on one axis and has the count as its length |
| Rope.Follow | day9/src/main.rs:71-82 | `follow`: steps by the sign of the difference when the head is in line with the tail and two or more away, or not on the tail and more than two away in Manhattan distance, else stays; proved by `FollowRule`, `FollowMovesOneUnit` and `FollowCatchesUp` |
| Rope.FollowXYAgrees | day9/src/main.rs:71-82 | the component-wise follow rule equals the program's vector form |
| Rope.FollowRule | day9/src/main.rs:71-82 | the tail stays put exactly when it touches the head, and otherwise moves one step towards it on each axis |
| Rope.FollowMovesOneUnit | day9/src/main.rs:71-82 | the tail moves at most one square in each direction |
| Rope.FollowCatchesUp | day9/src/main.rs:71-82 | a tail at most two away on each axis touches the head after following |
| Rope.StepKeepsTouching | day9/src/main.rs:118-122 | a head step of one keeps head and tail touching |
| Rope.RunKeepsTouching | day9/src/main.rs:115-123 | after any list of moves, head and tail touch |
| Rope.RunMovesHead | day9/src/main.rs:115-123 | the head ends at the sum of the moves |
| Rope.Visited | day9/src/main.rs:112-124 | the origin and every tail position after each unit step of the moves; bounded by `VisitedBounds`, and `Simulate` is proved to count it |
| Rope.VisitedBounds | day9/src/main.rs:112-124 | the origin is visited, and at most one square per step plus the start |
| Rope.LeadingDigits | day9/src/main.rs:93 | `\d*` takes the longest run of digits |
| Rope.FirstMatch | day9/src/main.rs:93-99 | the regex matches at its leftmost position, or nowhere |
| Rope.ReadMoves | day9/src/main.rs:91-106 | every move read lies on one axis |
| Rope.ReadMoveOfDisplay | day9/src/main.rs:99-103 | a line `D n` written from a direction and an `isize` count reads back as that move |
| Rope.ReadMoveLines | day9/src/main.rs:91-106 | the lines written for a list of moves read back, in order, as the vector of each move's direction and count |
| Rope.Simulate | day9/src/main.rs:110-124 | the loop's visited set has exactly as many squares as the specification `Visited` |
| Rope.Part1 | day9/src/main.rs:108-125 | specification of part 1: the number of visited tail positions, or a panic from reading the moves; `SolvePart1` is proved equal to it |
| Rope.MoveHead | day9/src/main.rs:118-122 | after `n` unit steps the knots are where `Walk` puts them and the visited set gains exactly the tail positions of those steps |
| Rope.SolvePart1 | day9/src/main.rs:108-125 | the whole solution computes exactly the specification `Part1` |
| Instructions.FromStr | day10/src/main.rs:15-24 | `noop` exactly for "noop"; `addx` with the parsed `isize`; a panic exactly when the line is neither |
| Instructions.FromStrOfToStr | day10/src/main.rs:15-24 | every instruction round-trips through its text |
| Instructions.OperandOutOfRangePanics | day10/src/main.rs:19 | an operand outside the `isize` range panics |
| Instructions.Examples | day10/src/main.rs:79-86 | `addx 314` and `addx -7` parse, and `noop ` and `addx x` panic |
| Heightmap.HeightOfValidLoc | day12/src/main.rs:84-91 | every valid location of a well-formed map has a height |
| Heightmap.Neighbours | day12/src/main.rs:53-82 | the four slots hold exactly the adjacent locations that are valid and at most one higher |
| Heightmap.NeighboursAreSteps | day12/src/main.rs:53-82 | a location is among the neighbours exactly when a step to it is allowed |
| Heightmap.NeighboursOfValidLoc | day12/src/main.rs:53-82 | neighbours never panic for a valid location of a well-formed map |
| Heightmap.AdjacentIsOffset | day12/src/main.rs:53-82 | every adjacent location is one of the four offsets |
| Heightmap.CharHeight | day12/src/main.rs:144-156 | heights are at most 25, with S as a and E as z |
| Heightmap.LastPosIsLast | day12/src/main.rs:146-153 | the start and end recorded are the last S and E, because later ones overwrite them |
| Heightmap.ReadRow | day12/src/main.rs:139-161 | a row reads as its heights and updates the last S and E, and panics on an unknown character |
| Heightmap.FromStr | day12/src/main.rs:129-173 | the parsing loop computes exactly the specification `Parse` |
| Heightmap.UnknownCharPanics | day12/src/main.rs:154 | any unknown character in a non-empty line panics |
| Heightmap.ParseSucceeds | day12/src/main.rs:129-173 | parsing succeeds exactly when there is a row, every character is known, and an S and an E appear |
| Heightmap.ParseStartEnd | day12/src/main.rs:146-170 | the start is an S and the end an E, and no later cell holds one |
| Heightmap.ParseIsWellFormed | day12/src/main.rs:159-165 | a parsed map is well-formed: its width is positive and its size fits its heights |
| Heightmap.ParseRectangleSize | day12/src/main.rs:159-165 | a rectangle of width w parses to size (w, rows) |
| Heightmap.ParseRectangleCell | day12/src/main.rs:159-165 | in a rectangle, the valid locations are its cells and each has its character's height |
| Heightmap.ParseRectangleStartEnd | day12/src/main.rs:146-153 | in a rectangle, start and end are valid with heights 0 and 25 |
| Heightmap.ParseExample | day12/src/main.rs:348-352 | the example map parses to size 8 by 5 |
| HillSearch.PrecedesIsTotalOrder | day12/src/main.rs:236-262 | open nodes are totally ordered by total cost, then location |
| HillSearch.FirstExists | day12/src/main.rs:279 | a non-empty open set has a first element, so `pop_first` is defined |
| HillSearch.WalkExtend | day12/src/main.rs:284-303 | an allowed step extends a walk by one |
| HillSearch.NothingLeft | day12/src/main.rs:277-305 | with the open set empty, every walk from the start stays among the nodes reached, none of which is the end |
| HillSearch.Visit | day12/src/main.rs:285-302 | a neighbour seen for the first time is recorded with a walk to it and opened; a known one is skipped, tables unchanged, when its new total cost is not below the recorded node's, and otherwise only its open entry is replaced by one with the lower cost while the node table keeps the first-recorded node; every node already known is kept |
| HillSearch.Expand | day12/src/main.rs:284-303 | expanding a node reaches all its neighbours and keeps the search's invariants |
| HillSearch.ShortestPath | day12/src/main.rs:269-307 | a returned distance is the length of a walk from start to end; none means no walk reaches the end; no panic on a well-formed map from a valid start; 0 when start is the end |
| HillSearch.SolvePart1 | day12/src/main.rs:309-321 | a parse panic propagates; a positive answer is the length of a walk from S to E; a parsed map with a valid start never panics |
| HillSearch.UnseenShrinks | day12/src/main.rs:269-307 | recording a new node reduces the unseen cells, which bounds the search's iterations |
| HillSearch.PotentialDrops | day12/src/main.rs:269-307 | an iteration that reaches no new node lowers the open set's weighted potential |
| Packets.Push | day13/src/main.rs:16-22 | pushing appends to a list and panics on an integer |
| Packets.IsInOrder | day13/src/main.rs:24-98 | `is_in_order`: integers decide by `<` unless equal, an integer against a list is wrapped one level deeper; proved by `DepthIrrelevant`, `SwapFlips`, `SelfUndecided` and `WrapInvisible` |
| Packets.ListsInOrder | day13/src/main.rs:53-78 | the list case: the first pair that decides, else the shorter list is in order, equal lengths undecided below the top and in order at it; proved by `ListsAtTopLevel` and `CommonPrefix` |
| Packets.CloneAsList | day13/src/main.rs:100-109 | a list stays itself; an integer becomes the one-element list holding it |
| Packets.DepthIrrelevant | day13/src/main.rs:24-98 | below the top level the comparison does not depend on the depth |
| Packets.ListsAtTopLevel | day13/src/main.rs:53-78 | at the top level an undecided list comparison answers `Some(true)` |
| Packets.SelfUndecided | day13/src/main.rs:24-98 | below the top level a value compared with itself is undecided |
| Packets.SwapFlips | day13/src/main.rs:24-98 | swapping the two sides flips the answer |
| Packets.WrapInvisible | day13/src/main.rs:79-96 | wrapping either side with `clone_as_list` does not change the comparison |
| Packets.CommonPrefix | day13/src/main.rs:53-78 | a common prefix of two lists does not affect the comparison |
| Packets.PartialCmp | day13/src/main.rs:112-124 | Less exactly when `is_in_order` at depth 0 says in order, Greater exactly when it says out of order |
| Packets.PartialCmpSelfIsLess | day13/src/main.rs:73-124 | every list compares Less with itself, where the depth-1 comparison gives Equal |
| Packets.PartialCmpFixed | day13/src/main.rs:112-124 | the comparison with depth 1 is Less or Greater exactly as `is_in_order` decides |
| Packets.PartialCmpFixedIsConsistent | day13/src/main.rs:112-124 | the corrected comparison is reflexive and antisymmetric, and agrees with the program whenever it decides |
| Packets.Parse | day13/src/main.rs:126-164 | a parsed value is the single value left by the character loop |
| Packets.FromStr | day13/src/main.rs:126-164 | the character loop computes exactly the specification `Parse` |
| Packets.RunDigits | day13/src/main.rs:156-158 | digits accumulate in the integer buffer |
| Packets.ToStr | day13/src/main.rs:167-184 | `Display`: an integer in decimal, a list as its items joined by commas in brackets; `ParseToStr` proves that parsing undoes it |
| Packets.ItemsToStr | day13/src/main.rs:173-178 | the items of a list joined by commas; covered by `ParseToStr` |
| Packets.ParseToStr | day13/src/main.rs:126-184 | every list whose integers fit in a `usize` round-trips through `Display` and `from_str` |
| Packets.SurplusCloseIgnored | day13/src/main.rs:143-147 | a surplus closing bracket at the end is ignored |
| Packets.StrayCharacterPanics | day13/src/main.rs:157 | any character other than brackets, commas and digits panics |
| Packets.ParseLines | day13/src/main.rs:187-191 | at most one packet per line |
| Packets.Score | day13/src/main.rs:192-206 | the sum of `i + 1` over the pairs `i` that are in order; bounded by `ScoreBound` |
| Packets.Part1 | day13/src/main.rs:186-207 | specification of part 1: the score of the parsed packets paired two by two, or a panic from parsing; `Score` and `ScoreBound` state what the score is |
| Packets.ScoreBound | day13/src/main.rs:192-206 | the score is at most 1 + … + k, with equality exactly when every pair is in order |
| Packets.DividersParse | day13/src/main.rs:222 | the divider strings parse to `[[2]]` and `[[6]]` |
| Packets.FirstFollowing | day13/src/main.rs:225-241 | the position found is the first packet that follows the divider |
| Packets.PartitionedPosition | day13/src/main.rs:225-241 | on a sorted list the divider's position equals the number of packets before it |
| Packets.Part2Answer | day13/src/main.rs:243 | the product of the first divider's 1-based position and the second's, one further on; `PartitionedPosition` and `ExamplePart2` state where the dividers land |
| Packets.ExampleScore | day13/src/main.rs:292-295 | the example's packets, written out as values rather than parsed from its text, score 13 |
| Packets.ExamplePairs | day13/src/main.rs:362-436 | the eight example pairs are in order, in order, out, in, out, in, out, out |
| Packets.ParseExample1 | day13/src/main.rs:298-310 | `[1,1,3,1,1]` parses to that list |
| Packets.ParseExample2 | day13/src/main.rs:312-320 | `[[1],[2,3,4]]` parses to that nested list |
| Packets.CompareExamples | day13/src/main.rs:322-350 | the three comparison examples are in order |
| Packets.ExamplePart2 | day13/src/main.rs:437-440 | on the sorted example the divider positions give 140 |
| Coordinates.Split | day14/src/main.rs:27 | `split` gives at least one piece and no piece contains the separator |
| Coordinates.JoinSplit | day14/src/main.rs:27 | joining the pieces back with the separator gives the input |
| Coordinates.AsIsize | day14/src/main.rs:30-39 | `as isize` gives an `isize` congruent to the `usize` modulo 2^64 |
| Coordinates.FromStr | day14/src/main.rs:24-48 | never "No x"; coordinates are `isize`; errors are only "Failed to parse x", "Failed to parse y" and "No y" |
| Coordinates.FromStrOfToStr | day14/src/main.rs:24-48 | coordinates in the `isize` range round-trip through `x,y` |
| Coordinates.WithoutComma | day14/src/main.rs:29-45 | without a comma, a bad x fails as x, and a good one fails as "No y" |
| Coordinates.NegativeXRefused | day14/src/main.rs:28-33 | a leading minus sign fails the `usize` parse of x |
| Coordinates.ExtraFieldsIgnored | day14/src/main.rs:27-45 | fields after the second are ignored |
| Coordinates.LargeCoordinateWraps | day14/src/main.rs:29-46 | `9223372036854775808,0` gives x = -2^63, where the corrected version refuses it |
| Coordinates.FromStrFixed | day14/src/main.rs:24-48 | the corrected parse only gives coordinates from 0 to the `isize` maximum, with the same error messages |
| Coordinates.FixedAgrees | day14/src/main.rs:24-48 | the corrected parse agrees with the program wherever either gives non-negative coordinates |
| Coordinates.Example | day14/src/main.rs:109-111 | `498,4` parses to (498, 4) |
| Beacons.FromCenterAndDist | day15/src/main.rs:49-55 | the range is centred on the centre and is twice the distance wide |
| Beacons.Cmp | day15/src/main.rs:63-72 | ranges are ordered by min and then max, Equal exactly for equal ranges |
| Beacons.CmpIsTotalOrder | day15/src/main.rs:63-72 | the order is antisymmetric, transitive and total |
| Beacons.ManhattanDistance | day15/src/main.rs:93-96 | the distance is the Manhattan distance from sensor to beacon, and 0 exactly when they coincide |
| Beacons.RangeOnRow | day15/src/main.rs:98-105 | a row gets a range exactly when it is within the sensor's distance |
| Beacons.RangeOnRowCovers | day15/src/main.rs:98-105 | a point lies in the row's range exactly when it is no further from the sensor than the beacon |
| Beacons.DiamondRows | day15/src/main.rs:229-242 | a sensor at distance 3 gives the diamond's rows from y = 0 to 6 and nothing outside |
| Beacons.FarSensorMissesRow | day15/src/main.rs:244-249 | the example's far sensor has no range on row 10 |
| Beacons.RangesOnRow | day15/src/main.rs:140-150 | at most one range per sensor |
| Beacons.Insert | day15/src/main.rs:151 | insertion keeps the ranges sorted and adds exactly the one range |
| Beacons.SortRanges | day15/src/main.rs:151 | `sort_unstable` gives a sorted permutation of the ranges |
| Beacons.CellsOfPermutation | day15/src/main.rs:151 | sorting does not change the cells covered |
| Beacons.Sweep | day15/src/main.rs:154-164 | the sweep over sorted ranges counts exactly the cells the ranges cover |
| Beacons.CountKnownLocations | day15/src/main.rs:139-165 | the count equals the number of cells covered by the ranges on the row |
| Beacons.CellsOfRangesOnRow | day15/src/main.rs:139-165 | a cell is covered exactly when some sensor's range covers it |
| Beacons.CellsMissAPosition | day15/src/main.rs:158-164 | sensor (0,0) with beacon (0,1): the program counts 2 on row 0, where 3 positions cannot hold a beacon |
| Beacons.NoBeaconPositionsMeaning | day15/src/main.rs:139-165 | a position cannot hold a beacon exactly when some sensor reaches it and no beacon sits there |
| Beacons.NoBeaconPositionsSize | day15/src/main.rs:139-165 | their number is the points the sensors reach minus the beacons on the row |
| Beacons.CountKnownLocationsFixed | day15/src/main.rs:139-165 | the corrected count is the number of positions that cannot hold a beacon |
| FallingRocks.Inverse | day17/src/main.rs:30-35 | the inverse push is the other direction |
| FallingRocks.InverseInverse | day17/src/main.rs:30-35 | inverting twice gives the push back |
| FallingRocks.PushOf | day17/src/main.rs:18-26 | `<` is Left, `>` is Right, and any other character panics |
| FallingRocks.PushesOf | day17/src/main.rs:15-28 | the pushes are read character by character, and the input must hold only `<` and `>` |
| FallingRocks.PushesToStr | day17/src/main.rs:15-28 | one character per push, in the program's notation |
| FallingRocks.PushesRoundTrip | day17/src/main.rs:15-28 | pushes round-trip through their text, with or without a trailing newline |
| FallingRocks.Nibble | day17/src/main.rs:93-96 | a rock row is a four-bit value |
| FallingRocks.NibbleInPlace | day17/src/main.rs:93-96 | row i is the i-th nibble of the shape, in place |
| FallingRocks.Rock.Row | day17/src/main.rs:93-96 | `row` is defined for rows 0 to 3 and is the i-th nibble |
| FallingRocks.RowsUsed | day17/src/main.rs:143-150 | the row count is the number of rows up to the last non-empty one, and 0 only for the empty shape |
| FallingRocks.Rock.RowCount | day17/src/main.rs:143-150 | `row_count` computes `RowsUsed` |
| FallingRocks.KindRowCounts | day17/src/main.rs:38-66 | the five shapes use 1, 4, 3, 3 and 2 rows, and the plus's rows are 0100, 1110, 0100 |
| FallingRocks.ShiftedMeaning | day17/src/main.rs:98-107 | a shifted row exists exactly when no bit falls off the right wall, and it is the row moved to column x |
| FallingRocks.Shifted | day17/src/main.rs:98-107 | `shifted_row`'s arithmetic: the row placed in the top four bits then shifted right by x; `ShiftedMeaning` proves when it exists and that it keeps every bit |
| FallingRocks.Rock.ShiftedRow | day17/src/main.rs:98-107 | `shifted_row` is the shifted nibble and panics for x ≥ 7 or a row past 3 |
| FallingRocks.SpawnInBounds | day17/src/main.rs:319 | every shape fits at x = 2 and uses a row |
| FallingRocks.Pushed | day17/src/main.rs:109-122 | a push moves the rock by at most one column and keeps x within 0–6 |
| FallingRocks.PushUndone | day17/src/main.rs:109-122 | an effective push is undone by the inverse push |
| FallingRocks.Rock.ApplyPush | day17/src/main.rs:109-122 | `apply_push` sets x to the pushed column and keeps y |
| FallingRocks.Rock.constructor | day17/src/main.rs:85-87 | `Rock::new` holds its position and shape |
| FallingRocks.RowAt | day17/src/main.rs:185-189 | a tower row is readable exactly between its offset and its top |
| FallingRocks.CollidesFrom | day17/src/main.rs:126-140 | the `overlaps_tower` loop from rock row r on: a row past the wall or meeting a tower bit decides; proved by `CollidesMeaning` and `AboveTopIsClear` |
| FallingRocks.Collides | day17/src/main.rs:124-141 | `overlaps_tower`, panicking at y = 0; `CollidesMeaning` and `OverlapsTower` state its meaning and the loop |
| FallingRocks.CollidesMeaning | day17/src/main.rs:124-141 | the overlap test returns whether some rock row clashes with a tower row or a wall |
| FallingRocks.Rock.OverlapsTower | day17/src/main.rs:124-141 | `overlaps_tower` computes `Collides` on the tower's state |
| FallingRocks.AboveTopIsClear | day17/src/main.rs:124-141 | a rock in bounds above the tower's top does not overlap |
| FallingRocks.ClearIsAboveOffset | day17/src/main.rs:124-141 | a rock that does not overlap lies at or above the tower's offset |
| FallingRocks.Placed | day17/src/main.rs:191-204 | the tower grows to hold the rock, and each row is the old row OR the rock row |
| FallingRocks.PlacedKeepsAndHolds | day17/src/main.rs:191-204 | adding a rock keeps every old block and holds every block of the rock |
| FallingRocks.Stacked | day17/src/main.rs:195-203 | each rock row or-ed into its tower row, or pushed when that row does not exist yet; equal to `Placed` up to the top (`StackedPlaces`, `AddedAgrees`) and one row low just above it (`AddedOneAboveTop`) |
| FallingRocks.AddLoop | day17/src/main.rs:195-203 | `add_rock`'s loop with each row shifted into place, a misfit panicking; `AddLoopFits` proves it equal to `Stacked` when every row fits |
| FallingRocks.Added | day17/src/main.rs:191-204 | `add_rock` succeeds exactly when the rock is in bounds and its y is at most one above the top, and keeps the offset |
| FallingRocks.AddedFixed | day17/src/main.rs:191-204 | the corrected placement succeeds on the same inputs |
| FallingRocks.AddedFixedPlacesRock | day17/src/main.rs:191-204 | the corrected placement keeps all old blocks and puts each rock row at height y + r |
| FallingRocks.AddedAgrees | day17/src/main.rs:191-204 | for y up to the top, the program and the corrected placement agree |
| FallingRocks.AddedOneAboveTop | day17/src/main.rs:194-202 | at y = top + 1 the program appends the rock directly on the top row, where the corrected placement leaves a gap row |
| FallingRocks.AddRockOneRowLow | day17/src/main.rs:194-202 | on a fresh tower a line added at y = 2 lands at height 1 instead of 2 |
| FallingRocks.AddLoopFits | day17/src/main.rs:191-204 | the row loop stacks the rock's shifted rows, and panics when a row does not fit |
| FallingRocks.Tower.constructor | day17/src/main.rs:159-164 | a new tower is the floor row 0xFF at offset 0 |
| FallingRocks.Tower.Height | day17/src/main.rs:177-183 | the height is one below the row count, and panics (usize underflow) on a tower whose row count is 0 |
| FallingRocks.Tower.CloneTop | day17/src/main.rs:166-175 | the clone holds the top rows at the given offset, and panics when asked for more rows than exist |
| FallingRocks.CloneTopReadsSame | day17/src/main.rs:166-175 | the clone reads the same rows as the tower at every height it keeps |
| FallingRocks.Tower.AddRock | day17/src/main.rs:191-204 | `add_rock` changes the tower exactly as `Added`, and panics where `Added` does |
| TowerHeight.SidewaysKeepsClear | day17/src/main.rs:323-328 | a sideways push leaves a clear rock clear and within the walls |
| TowerHeight.Sideways | day17/src/main.rs:325-328 | the push, undone when the rock then overlaps; proved by `SidewaysKeepsClear`, and `PushSideways` is proved equal to it |
| TowerHeight.Fall | day17/src/main.rs:322-335 | the `drop_rock` loop: push sideways, then one row down unless that reaches 0 or overlaps; proved by `FallRests` and `FallTotal`, and `FallLoop` is proved equal to it |
| TowerHeight.Drop | day17/src/main.rs:313-338 | `drop_rock`: spawn at column 2 three rows above the top, fall, add; proved by `DropOntoTower`, and `DropRock` is proved equal to it |
| TowerHeight.FallRests | day17/src/main.rs:313-338 | a rock that falls comes to rest no higher than it started, on something below it |
| TowerHeight.FallTotal | day17/src/main.rs:313-338 | from above the floor with pushes left, the fall always finishes |
| TowerHeight.DropOntoTower | day17/src/main.rs:313-338 | a dropped rock lands at or below the top, where the program's placement equals the corrected one; the tower keeps its blocks and does not shrink |
| TowerHeight.LandsOnTower | day17/src/main.rs:313-338 | a rock spawned three above the top lands clear, at or below the top |
| TowerHeight.AddsOnTower | day17/src/main.rs:191-204 | a clear rock at or below the top is added without panic and keeps the tower's blocks |
| TowerHeight.DropRock | day17/src/main.rs:313-338 | `drop_rock` returns the resting rock and next push index and leaves the tower as the specification `Drop` |
| TowerHeight.PushSideways | day17/src/main.rs:325-328 | the sideways step leaves the rock where `Sideways` puts it, and reports a panicking overlap test |
| TowerHeight.FallOneRow | day17/src/main.rs:323-334 | one pass of the loop either panics with the fall, rests the rock where the fall lands, or lowers it to a position whose fall is the same |
| TowerHeight.StepDown | day17/src/main.rs:329-334 | the rock goes one row down, and back up, resting, exactly when that reaches row 0 or overlaps the tower; x is unchanged |
| TowerHeight.FallLoop | day17/src/main.rs:321-335 | the fall loop moves the rock to where the specification `Fall` rests it |
| TowerHeight.RunGrows | day17/src/main.rs:340-355 | any number of drops finishes, keeps every block and never lowers the tower |
| TowerHeight.Run | day17/src/main.rs:347-352 | the drops of rocks r up to n, each rock kind `r % 5`; proved by `RunGrows` and `DropNext` |
| TowerHeight.Simulate | day17/src/main.rs:357-366 | the drops of n rocks from the floor alone; `HeightMonotone` and `GetTowerHeight` are stated against it |
| TowerHeight.HeightMonotone | day17/src/main.rs:340-355 | with pushes given, more rocks never give a lower tower |
| TowerHeight.NoPushesPanics | day17/src/main.rs:323 | with no pushes the first drop panics |
| TowerHeight.FirstRockHeight | day17/src/main.rs:442 | one rock gives a tower of height 1 |
| TowerHeight.FirstDrop | day17/src/main.rs:313-338 | the first line lands on the floor |
| TowerHeight.GetTowerHeightFrom | day17/src/main.rs:340-355 | the drop loop returns the height of the specification `Run` from the tower's state |
| TowerHeight.DropNext | day17/src/main.rs:347-352 | one drop advances the run by one rock, without panic on a floored tower with pushes |
| TowerHeight.KeyDistinguishes | day17/src/main.rs:227-232 | five x positions below 8 are recovered from their key |
| TowerHeight.HeightRecordKey.constructor | day17/src/main.rs:223-225 | a new key is 0 |
| TowerHeight.HeightRecordKey.AddX | day17/src/main.rs:227-232 | `add_x` ORs x into the rock's 3-bit slot, and panics for x ≥ 7 or a rock index past 5 |
| TowerHeight.NewRecord | day17/src/main.rs:259-268 | a new record stores its position and starts with no difference and one match |
| TowerHeight.NewDiff | day17/src/main.rs:270-294 | the differences are taken from the previous record, panicking on underflow; the match count grows exactly when the difference repeats |
| TowerHeight.NextRecordBounded | day17/src/main.rs:270-294 | a record made at the end of a group spans at least five rocks |
| TowerHeight.GroupRecord | day17/src/main.rs:369-374 | the record for a group of five rocks: a diff against the record under the same key, else a first record; proved by `GroupRecordKept` |
| TowerHeight.GroupRecordKept | day17/src/main.rs:368-391 | the record kept for a group never panics, and reaching ten matches needs at least 50 rocks |
| TowerHeight.Skipped | day17/src/main.rs:375-387 | skipping cycles keeps the top rows and raises the top by one height difference per cycle |
| TowerHeight.ResumeAt | day17/src/main.rs:378 | the rock a skip resumes at lies after rock r, at most `rocks_left` further on and less than one cycle short of that |
| TowerHeight.SkipCycles | day17/src/main.rs:375-387 | the skip panics where the subtraction or division would, and otherwise computes the height of the run continued from the skipped tower at `r + 1 + jumps * rocks_since_last` |
| TowerHeight.SkipOvershoots | day17/src/main.rs:376-378 | as written, when whole cycles fill `rock_count - r`, the skip resumes at rock `rock_count + 1`, drops nothing, and answers the height after rock r lifted by `jumps` cycles, which stands for `rock_count + 1` rocks |
| TowerHeight.SkipFixed | day17/src/main.rs:375-387 | the corrected skip, counting `rock_count - r - 1` rocks left after rock r |
| TowerHeight.SkipFixedAgrees | day17/src/main.rs:375-387 | wherever whole cycles do not fill `rock_count - r`, the corrected skip gives the program's answer |
| TowerHeight.SkipFixedResumes | day17/src/main.rs:376-378 | the corrected skip resumes at or before rock `rock_count` and less than one cycle before it, so the rocks up to r, the skipped cycles and the rest of the run add up to `rock_count`; on an exact fill it resumes one cycle earlier than the program |
| TowerHeight.GetTowerHeight | day17/src/main.rs:357-396 | below 50 rocks the answer is the height of the full simulation; with no pushes it panics |

## Left out

- `main`, reading the input file, command-line arguments and `println!` output are not modelled. Each solution takes its input as a sequence of lines. `str::lines` itself is not modelled.
- The regexes of day 4 (`(\d*)-(\d*),(\d*)-(\d*)`), day 5 (`move … from … to …`, together with the `skip(row_count + 1)` / `map_while` split of the drawing) and day 15 (`parse_sensors`) are not modelled. Their parsed values are taken as given: `Cleanup` takes the pairs, `Crates.Solve` takes the rows and moves, and `Beacons` takes the sensors.
- Day 15's `solve_part1` only fixes the row to 2000000 and is not modelled.
- The day 2 and day 9 regexes are modelled as leftmost matches over the characters.
- Days 11 and 16 are not part of this model.
- Every `solve_part2` that is a stub is not modelled. The same goes for the `solve_part1` stubs of days 10 and 14.
- Day 1 part 2, day 3 part 2, day 5 part 2 (`apply_move2`), day 13 part 2 and day 17 part 2 are modelled. Day 17's is the cycle skip in `TowerHeight.GetTowerHeight`.
- Sums are unbounded integers: `usize` overflow of the totals (days 1–4, 7, 8, 15) is not modelled. Day 12's row-major index `y * width + x` is taken without overflow.
- HillSearch.ShortestPath: optimality is not claimed. The `f64` heuristic `cost_to` is an arbitrary function `costToEnd` from locations to reals, and the proved contract is soundness only. Floating-point rounding is not modelled.
- HillSearch.SolvePart1: follows the program, which reports 0 when no path exists, so a 0 answer is not tied to a walk.
- Packets: `sort_by` with `partial_cmp` in part 2 is not modelled, because the comparator is not a total order (every list is Less than itself). `Part2Answer` takes the already sorted list.
- TowerHeight.GetTowerHeight: only runs of fewer than 50 rocks are tied to the full simulation. The cycle-skipping branch is modelled step by step (`SkipCycles`), but it is not proved to equal the full simulation. The pushes always repeat, since the push index wraps around their number. What the skip needs, and the program never checks, is that the top of the tower repeats: it compares only the key of the resting columns, the height gained, the rocks dropped and the push index. The skip also counts one rock too many when whole cycles fill the rocks left (see Findings).
- Puzzle answers that are not proved, because evaluating the whole example symbolically is beyond the verifier:
  - day 1: 24000 and 45000;
  - day 3: 157 and 70;
  - day 5: "CMZ";
  - day 7: 95437;
  - day 8: 21;
  - day 9: 13;
  - day 12: 31;
  - day 13: 13 from the example's text (`ExampleScore` proves it on the packets written out as values);
  - day 15: 26;
  - day 17: 3068, 1514285714288, and the heights 4, 6, 7 and 9 after two to five rocks.
  
  Their components are proved instead: parse results, single moves, single comparisons and the first rock.
- Day 3 slices the string by byte length. The model slices by characters, which is the same for the ASCII input the puzzle uses.
- Crates.RowFrom, Crates.ParseRow and Crates.Chunk: `Row::from_str` steps through the line by byte length and slices it by byte offsets. The model steps and slices by characters. On a line with a multi-byte character the program can panic at a character boundary, and the model does not.
- Marker.FindMarker, Marker.FindMarkerPos and Marker.UniqueCount: `find_marker_pos` takes the input's byte length, slices windows by byte offsets, and slices a window at a character index used as a byte offset. The model uses character positions throughout. On non-ASCII input the program can panic at a character boundary or pick other windows, and the model does not.
- Directories.IsWordChar and Directories.DigitRun: the `\b` and `\d` classes of the day 7 regexes are Unicode classes in the `regex` crate. The model classifies by ASCII characters, so for example `$ lsé` counts as `ls` in the model but not in the program.
- Rope.LeadingDigits: the `\d` class of the day 9 regex is Unicode in the `regex` crate. The model accepts only ASCII digits. So a line such as `U 1١` panics in the program, because `parse::<isize>` refuses the captured `1١`, while the model reads the move U 1.

## Findings

| source | as written | input that shows it | evidently intended | confidence | as-written member | corrected member |
|---|---|---|---|---|---|---|
| day6/src/main.rs:8-10 | the window loop stops at `len - marker_len`, so the window that ends at the end of the input is never examined | `"abcd"` with marker length 4 gives 0 | 4, the end of the only window, which has distinct characters | not executed | Marker.MarkerAtEndIsMissed | Marker.FindMarkerFixedIsFirst |
| day8/src/main.rs:17-28 | `width` counts the rows, yet it is used as the row length and row stride | `["1111","1911","1111"]` gives 10 | 11: the border's 10 trees and the 9 | not executed | Trees.StrideMisreadsRectangle | Trees.FixedSeesRow |
| day13/src/main.rs:73-124 | `partial_cmp` compares at depth 0, where an undecided list comparison answers "in order", so every list is Less than itself | `[1]` compared with `[1]` gives Less | Equal, as `PartialOrd` requires for equal values | not executed | Packets.PartialCmpSelfIsLess | Packets.PartialCmpFixedIsConsistent |
| day14/src/main.rs:29-46 | a coordinate parsed as `usize` is cast with `as isize`, which wraps values above the `isize` maximum | `"9223372036854775808,0"` gives x = -9223372036854775808 | the error "Failed to parse x" | not executed | Coordinates.LargeCoordinateWraps | Coordinates.FixedAgrees |
| day15/src/main.rs:158-164 | the sweep counts the half-open cells `[min, max)` of the merged ranges, one point short per separate block of ranges, and does not subtract the beacons on the row; it is not the number of positions that cannot hold a beacon | sensor (0,0) with beacon (0,1), row 0, gives 2 | 3: the points -1, 0 and 1, with no beacon on the row | not executed | Beacons.CellsMissAPosition | Beacons.CountKnownLocationsFixed |
| day17/src/main.rs:194-202 | `add_rock` admits y = top + 1, but then appends the rock's rows directly on the top row, one row too low | a fresh tower, a horizontal line at x = 2, y = 2 gives rows `[0xFF, 0x3C]` | `[0xFF, 0x00, 0x3C]`, the rock at height 2; `drop_rock` never passes such a y (`TowerHeight.DropOntoTower`) | not executed | FallingRocks.AddRockOneRowLow | FallingRocks.AddedFixedPlacesRock |
| day17/src/main.rs:376-378 | `rocks_left = rock_count - r` is taken after rock r has been dropped, so rock r is counted among the rocks left; when `rocks_since_last` divides `rock_count - r`, `new_r` is `rock_count + 1` and the answer is extrapolated one rock too far | the earliest skip the program can take, at r = 54 with 5-rock cycles (the eleventh record under one key), and rock_count = 59: `new_r` = 60 = rock_count + 1, no rock is dropped, and the answer is the height after rock 54 plus one cycle, the height of 60 rocks on a periodic tower | `rocks_left = rock_count - r - 1`: `new_r` = 55 and rocks 55 to 58 are dropped | not executed | TowerHeight.SkipOvershoots | TowerHeight.SkipFixedResumes |
