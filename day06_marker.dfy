/** Day 6: tuning trouble. The answer is the position just after the first
    window of `m` pairwise distinct characters in the signal. */
module Marker {

  /** No character occurs twice in `w`. */
  predicate Distinct(w: string)
  {
    forall a, b :: 0 <= a < b < |w| ==> w[a] != w[b]
  }

  /** Two equal characters make a window not distinct. */
  lemma RepeatedIsNotDistinct(w: string, a: nat, b: nat)
    requires a < b < |w| && w[a] == w[b]
    ensures !Distinct(w)
  {
  }

  /** The window of `m` characters starting at `s`. */
  function Window(input: string, m: nat, s: nat): string
    requires s + m <= |input|
  {
    input[s..s + m]
  }

  /** The end of the first distinct window whose start lies in `[i, limit)`,
      or 0 when there is none. */
  function MarkerFrom(input: string, m: nat, i: nat, limit: nat): nat
    requires limit + m <= |input| + 1
    decreases limit - i
  {
    if i >= limit then 0
    else if Distinct(Window(input, m, i)) then i + m
    else MarkerFrom(input, m, i + 1, limit)
  }

  /** `find_marker_pos` as written: only the starts below `len - m` are
      examined, so the last window is never looked at. */
  function FindMarker(input: string, m: nat): nat
  {
    if |input| < m then 0 else MarkerFrom(input, m, 0, |input| - m)
  }

  /** What `find_marker_pos` is meant to compute: every window, the last one
      included, is examined. */
  function FindMarkerFixed(input: string, m: nat): nat
  {
    if |input| < m then 0 else MarkerFrom(input, m, 0, |input| - m + 1)
  }

  /** The result is 0 or the end of a distinct window with no distinct window
      before it; it is 0 when no window is distinct, and for a non-empty
      marker only then. */
  lemma {:induction false} MarkerFromIsFirst(input: string, m: nat, i: nat, limit: nat)
    requires limit + m <= |input| + 1
    ensures var r := MarkerFrom(input, m, i, limit);
      r == 0 || (i + m <= r < limit + m && Distinct(input[r - m..r])
                 && forall s :: i <= s < r - m ==> !Distinct(Window(input, m, s)))
    ensures (forall s :: i <= s < limit ==> !Distinct(Window(input, m, s))) ==> MarkerFrom(input, m, i, limit) == 0
    ensures m > 0 && MarkerFrom(input, m, i, limit) == 0 ==>
      forall s :: i <= s < limit ==> !Distinct(Window(input, m, s))
    decreases limit - i
  {
    if i < limit && !Distinct(Window(input, m, i)) {
      MarkerFromIsFirst(input, m, i + 1, limit);
    }
  }

  /** Windows that are known not to be distinct can be skipped. */
  lemma {:induction false} SkipWindows(input: string, m: nat, i: nat, j: nat, limit: nat)
    requires limit + m <= |input| + 1
    requires i <= j
    requires forall s :: i <= s < j && s < limit ==> !Distinct(Window(input, m, s))
    ensures MarkerFrom(input, m, i, limit) == MarkerFrom(input, m, j, limit)
    decreases j - i
  {
    if i < j && i < limit {
      SkipWindows(input, m, i + 1, j, limit);
    }
  }

  /** The inner loop of `find_marker_pos`: the number of leading characters
      of the candidate that do not occur again later in it. */
  method UniqueCount(candidate: string) returns (u: nat)
    ensures u <= |candidate|
    ensures forall j :: 0 <= j < u ==> candidate[j] !in candidate[j + 1..]
    ensures u < |candidate| ==> candidate[u] in candidate[u + 1..]
  {
    u := 0;
    while u < |candidate|
      invariant u <= |candidate|
      invariant forall j :: 0 <= j < u ==> candidate[j] !in candidate[j + 1..]
    {
      if candidate[u] in candidate[u + 1..] {
        break;
      }
      u := u + 1;
    }
  }

  /** A candidate whose every character is unique from there on is distinct. */
  lemma AllUniqueIsDistinct(w: string)
    requires forall j :: 0 <= j < |w| ==> w[j] !in w[j + 1..]
    ensures Distinct(w)
  {
    forall a, b | 0 <= a < b < |w|
      ensures w[a] != w[b]
    {
      assert w[b] == w[a + 1..][b - a - 1];
    }
  }

  /** When the character at offset `u` of the window at `i` occurs again
      later in that window, every window starting in `[i, i + u]` holds both
      occurrences. */
  lemma RepeatBlocksWindows(input: string, m: nat, i: nat, u: nat)
    requires i + m <= |input| && u < m
    requires input[i + u] in input[i..i + m][u + 1..]
    ensures forall s :: i <= s <= i + u && s + m <= |input| ==> !Distinct(Window(input, m, s))
  {
    var rest := input[i..i + m][u + 1..];
    var k :| 0 <= k < |rest| && rest[k] == input[i + u];
    var b := i + u + 1 + k;
    assert input[b] == input[i + u];
    forall s | i <= s <= i + u && s + m <= |input|
      ensures !Distinct(Window(input, m, s))
    {
      RepeatedIsNotDistinct(Window(input, m, s), i + u - s, b - s);
    }
  }

  /** The skip `i += unique_count + 1` of `find_marker_pos` passes over no
      distinct window. */
  lemma SkipPastRepeat(input: string, m: nat, i: nat, u: nat, limit: nat)
    requires i + m <= |input| && u < m && limit + m <= |input| + 1
    requires input[i + u] in input[i..i + m][u + 1..]
    ensures MarkerFrom(input, m, i, limit) == MarkerFrom(input, m, i + u + 1, limit)
  {
    RepeatBlocksWindows(input, m, i, u);
    SkipWindows(input, m, i, i + u + 1, limit);
  }

  /** `find_marker_pos`. The candidate slice is taken by byte offsets in the
      source; here the input is a sequence of characters. */
  method FindMarkerPos(input: string, m: nat) returns (p: nat)
    ensures p == FindMarker(input, m)
  {
    if |input| < m {
      return 0;
    }
    var processCount := |input| - m;
    var i := 0;
    while i < processCount
      invariant MarkerFrom(input, m, 0, processCount) == MarkerFrom(input, m, i, processCount)
      decreases processCount - i
    {
      var candidate := input[i..i + m];
      var uniqueCount := UniqueCount(candidate);
      if uniqueCount == m {
        AllUniqueIsDistinct(candidate);
        return i + uniqueCount;
      }
      assert candidate[uniqueCount] == input[i + uniqueCount];
      SkipPastRepeat(input, m, i, uniqueCount, processCount);
      i := i + uniqueCount + 1;
    }
    return 0;
  }

  /** The two definitions agree except when the first distinct window is
      the last one, which only the fixed version finds. */
  lemma {:induction false} FixedDiffersOnlyAtEnd(input: string, m: nat, i: nat)
    requires m <= |input|
    ensures MarkerFrom(input, m, i, |input| - m) ==
      var fixed := MarkerFrom(input, m, i, |input| - m + 1);
      if fixed == |input| then 0 else fixed
    decreases |input| - i
  {
    if i < |input| - m && !Distinct(Window(input, m, i)) {
      FixedDiffersOnlyAtEnd(input, m, i + 1);
    }
  }

  lemma FindMarkerIsFixedExceptAtEnd(input: string, m: nat)
    ensures FindMarker(input, m) ==
      if FindMarkerFixed(input, m) == |input| then 0 else FindMarkerFixed(input, m)
  {
    if m <= |input| {
      FixedDiffersOnlyAtEnd(input, m, 0);
    }
  }

  /** A signal that is a marker and nothing else: as written the answer is
      0, the fixed version gives 4. */
  lemma MarkerAtEndIsMissed(input: string)
    requires input == "abcd"
    ensures FindMarker(input, 4) == 0
    ensures FindMarkerFixed(input, 4) == 4
  {
    assert Window(input, 4, 0) == input;
    assert Distinct(input);
  }

  /** A non-zero answer ends a distinct window that lies in the input, and
      no window ending earlier is distinct. */
  lemma FindMarkerFixedIsFirst(input: string, m: nat)
    ensures var p := FindMarkerFixed(input, m);
      p == 0 || (m <= p <= |input| && Distinct(input[p - m..p])
                 && forall s :: 0 <= s < p - m ==> !Distinct(Window(input, m, s)))
    ensures m > 0 && m <= |input| ==>
      (FindMarkerFixed(input, m) == 0 <==> forall s :: 0 <= s <= |input| - m ==> !Distinct(Window(input, m, s)))
  {
    if m <= |input| {
      MarkerFromIsFirst(input, m, 0, |input| - m + 1);
    }
  }

  /** A window holding the same character twice is not distinct. */
  lemma NotDistinctAt(input: string, m: nat, s: nat, a: nat, b: nat)
    requires s + m <= |input| && a < b < m && input[s + a] == input[s + b]
    ensures !Distinct(Window(input, m, s))
  {
    RepeatedIsNotDistinct(Window(input, m, s), a, b);
  }

  /** A window of four different characters is distinct. */
  lemma DistinctAt4(input: string, s: nat)
    requires s + 4 <= |input|
    requires input[s] != input[s + 1] && input[s] != input[s + 2] && input[s] != input[s + 3]
    requires input[s + 1] != input[s + 2] && input[s + 1] != input[s + 3] && input[s + 2] != input[s + 3]
    ensures Distinct(Window(input, 4, s))
  {
  }

  /** Examples with a four-character marker. */
  lemma Example1(input: string)
    requires input == "mjqjpqmgbljsphdztnvjfqwrcgsmlb"
    ensures FindMarker(input, 4) == 7
  {
    assert input[..7] == "mjqjpqm";
    MarkerAfterPrefix1(input);
  }

  lemma MarkerAfterPrefix1(input: string)
    requires |input| > 7 && input[..7] == "mjqjpqm"
    ensures FindMarker(input, 4) == 7
  {
    var L := |input| - 4;
    assert input[1] == input[3];
    NotDistinctAt(input, 4, 0, 1, 3);
    assert MarkerFrom(input, 4, 0, L) == MarkerFrom(input, 4, 1, L);
    assert input[1] == input[3];
    NotDistinctAt(input, 4, 1, 0, 2);
    assert MarkerFrom(input, 4, 1, L) == MarkerFrom(input, 4, 2, L);
    assert input[2] == input[5];
    NotDistinctAt(input, 4, 2, 0, 3);
    assert MarkerFrom(input, 4, 2, L) == MarkerFrom(input, 4, 3, L);
    assert input[3] == 'j' && input[4] == 'p' && input[5] == 'q' && input[6] == 'm';
    DistinctAt4(input, 3);
    assert MarkerFrom(input, 4, 3, L) == 7;
  }

  lemma Example2(input: string)
    requires input == "bvwbjplbgvbhsrlpgdmjqwftvncz"
    ensures FindMarker(input, 4) == 5
  {
    assert input[..5] == "bvwbj";
    MarkerAfterPrefix2(input);
  }

  lemma MarkerAfterPrefix2(input: string)
    requires |input| > 5 && input[..5] == "bvwbj"
    ensures FindMarker(input, 4) == 5
  {
    var L := |input| - 4;
    assert input[0] == input[3];
    NotDistinctAt(input, 4, 0, 0, 3);
    assert MarkerFrom(input, 4, 0, L) == MarkerFrom(input, 4, 1, L);
    assert input[1] == 'v' && input[2] == 'w' && input[3] == 'b' && input[4] == 'j';
    DistinctAt4(input, 1);
    assert MarkerFrom(input, 4, 1, L) == 5;
  }

  lemma Example3(input: string)
    requires input == "nppdvjthqldpwncqszvftbrmjlhg"
    ensures FindMarker(input, 4) == 6
  {
    assert input[..6] == "nppdvj";
    MarkerAfterPrefix3(input);
  }

  lemma MarkerAfterPrefix3(input: string)
    requires |input| > 6 && input[..6] == "nppdvj"
    ensures FindMarker(input, 4) == 6
  {
    var L := |input| - 4;
    assert input[1] == input[2];
    NotDistinctAt(input, 4, 0, 1, 2);
    assert MarkerFrom(input, 4, 0, L) == MarkerFrom(input, 4, 1, L);
    assert input[1] == input[2];
    NotDistinctAt(input, 4, 1, 0, 1);
    assert MarkerFrom(input, 4, 1, L) == MarkerFrom(input, 4, 2, L);
    assert input[2] == 'p' && input[3] == 'd' && input[4] == 'v' && input[5] == 'j';
    DistinctAt4(input, 2);
    assert MarkerFrom(input, 4, 2, L) == 6;
  }

  lemma Example4(input: string)
    requires input == "nznrnfrfntjfmvfwmzdfjlvtqnbhcprsg"
    ensures FindMarker(input, 4) == 10
  {
    assert input[..10] == "nznrnfrfnt";
    MarkerAfterPrefix4(input);
  }

  lemma MarkerAfterPrefix4(input: string)
    requires |input| > 10 && input[..10] == "nznrnfrfnt"
    ensures FindMarker(input, 4) == 10
  {
    var L := |input| - 4;
    assert input[0] == input[2];
    NotDistinctAt(input, 4, 0, 0, 2);
    assert MarkerFrom(input, 4, 0, L) == MarkerFrom(input, 4, 1, L);
    assert input[2] == input[4];
    NotDistinctAt(input, 4, 1, 1, 3);
    assert MarkerFrom(input, 4, 1, L) == MarkerFrom(input, 4, 2, L);
    assert input[2] == input[4];
    NotDistinctAt(input, 4, 2, 0, 2);
    assert MarkerFrom(input, 4, 2, L) == MarkerFrom(input, 4, 3, L);
    assert input[3] == input[6];
    NotDistinctAt(input, 4, 3, 0, 3);
    assert MarkerFrom(input, 4, 3, L) == MarkerFrom(input, 4, 4, L);
    assert input[5] == input[7];
    NotDistinctAt(input, 4, 4, 1, 3);
    assert MarkerFrom(input, 4, 4, L) == MarkerFrom(input, 4, 5, L);
    assert input[5] == input[7];
    NotDistinctAt(input, 4, 5, 0, 2);
    assert MarkerFrom(input, 4, 5, L) == MarkerFrom(input, 4, 6, L);
    assert input[6] == 'r' && input[7] == 'f' && input[8] == 'n' && input[9] == 't';
    DistinctAt4(input, 6);
    assert MarkerFrom(input, 4, 6, L) == 10;
  }

  lemma Example5(input: string)
    requires input == "zcfzfwzzqfrljwzlrfnpqdbhtmscgvjw"
    ensures FindMarker(input, 4) == 11
  {
    assert input[..11] == "zcfzfwzzqfr";
    MarkerAfterPrefix5(input);
  }

  lemma MarkerAfterPrefix5(input: string)
    requires |input| > 11 && input[..11] == "zcfzfwzzqfr"
    ensures FindMarker(input, 4) == 11
  {
    var L := |input| - 4;
    assert input[0] == input[3];
    NotDistinctAt(input, 4, 0, 0, 3);
    assert MarkerFrom(input, 4, 0, L) == MarkerFrom(input, 4, 1, L);
    assert input[2] == input[4];
    NotDistinctAt(input, 4, 1, 1, 3);
    assert MarkerFrom(input, 4, 1, L) == MarkerFrom(input, 4, 2, L);
    assert input[2] == input[4];
    NotDistinctAt(input, 4, 2, 0, 2);
    assert MarkerFrom(input, 4, 2, L) == MarkerFrom(input, 4, 3, L);
    assert input[3] == input[6];
    NotDistinctAt(input, 4, 3, 0, 3);
    assert MarkerFrom(input, 4, 3, L) == MarkerFrom(input, 4, 4, L);
    assert input[6] == input[7];
    NotDistinctAt(input, 4, 4, 2, 3);
    assert MarkerFrom(input, 4, 4, L) == MarkerFrom(input, 4, 5, L);
    assert input[6] == input[7];
    NotDistinctAt(input, 4, 5, 1, 2);
    assert MarkerFrom(input, 4, 5, L) == MarkerFrom(input, 4, 6, L);
    assert input[6] == input[7];
    NotDistinctAt(input, 4, 6, 0, 1);
    assert MarkerFrom(input, 4, 6, L) == MarkerFrom(input, 4, 7, L);
    assert input[7] == 'z' && input[8] == 'q' && input[9] == 'f' && input[10] == 'r';
    DistinctAt4(input, 7);
    assert MarkerFrom(input, 4, 7, L) == 11;
  }

  /** An empty signal has no marker of fourteen characters. */
  lemma EmptyHasNoMarker()
    ensures FindMarker("", 14) == 0
  {
  }
}
