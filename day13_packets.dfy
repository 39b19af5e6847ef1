/** Day 13: distress signal. A packet is an integer or a list of
    packets; pairs of packets are compared element by element, with an
    integer promoted to a one-element list when it meets a list. */
module Packets {
  import opened Common

  datatype Value = Int(n: nat) | List(items: seq<Value>)

  /** Number of nodes, the measure the comparison recurses on. */
  function Size(v: Value): (s: nat)
    ensures s >= 1
  {
    match v
    case Int(_) => 1
    case List(xs) => 1 + SizeOf(xs)
  }

  function SizeOf(xs: seq<Value>): nat
  {
    if xs == [] then 0 else Size(xs[0]) + SizeOf(xs[1..])
  }

  /** `Value::push`: appends to a list; an integer cannot be a parent. */
  function Push(parent: Value, v: Value): (r: Outcome<Value>)
    ensures r.Returns? <==> parent.List?
    ensures r.Returns? ==> r.value.List? && r.value.items == parent.items + [v]
  {
    match parent
    case Int(_) => Panics
    case List(xs) => Returns(List(xs + [v]))
  }

  /** `Value::clone_as_list`: an integer wrapped in a one-element list,
      a list unchanged. */
  function CloneAsList(v: Value): (r: Value)
    ensures r.List?
    ensures v.List? ==> r == v
    ensures v.Int? ==> r.items == [v]
  {
    match v
    case Int(_) => List([v])
    case List(_) => v
  }

  // ---------------------------------------------------------------------
  // Comparison

  /** `Value::is_in_order`: `Some(true)` when the pair is in the right
      order, `Some(false)` when it is not, `None` when undecided. Only
      whether `depth` is zero matters. */
  function IsInOrder(l: Value, r: Value, depth: nat): Option<bool>
    decreases Size(l) + Size(r), 0
  {
    match (l, r)
    case (Int(a), Int(b)) => if a != b then Some(a < b) else None
    case (List(ls), List(rs)) => ListsInOrder(ls, rs, depth)
    case (Int(_), List(rs)) =>
      assert SizeOf([l]) == Size(l);
      ListsInOrder(CloneAsList(l).items, rs, depth + 1)
    case (List(ls), Int(_)) =>
      assert SizeOf([r]) == Size(r);
      ListsInOrder(ls, CloneAsList(r).items, depth + 1)
  }

  /** The list-against-list case, element by element: the first pair
      that decides, decides; otherwise the shorter list is in order, and
      lists of equal length are undecided below the top level and in
      order at the top. */
  function ListsInOrder(ls: seq<Value>, rs: seq<Value>, depth: nat): Option<bool>
    decreases SizeOf(ls) + SizeOf(rs), 1
  {
    if ls == [] || rs == [] then
      if |ls| != |rs| then Some(|ls| < |rs|)
      else if depth > 0 then None
      else Some(true)
    else
      match IsInOrder(ls[0], rs[0], depth + 1)
      case Some(b) => Some(b)
      case None => ListsInOrder(ls[1..], rs[1..], depth)
  }

  function Flip(o: Option<bool>): Option<bool>
  {
    match o
    case None => None
    case Some(b) => Some(!b)
  }

  /** Below the top level the depth makes no difference. */
  lemma {:induction false} DepthIrrelevant(l: Value, r: Value, d: nat, e: nat)
    requires d > 0 && e > 0
    ensures IsInOrder(l, r, d) == IsInOrder(l, r, e)
    decreases Size(l) + Size(r), 0
  {
    match (l, r)
    case (Int(_), Int(_)) =>
    case (List(ls), List(rs)) => ListsDepthIrrelevant(ls, rs, d, e);
    case (Int(_), List(rs)) =>
      assert SizeOf([l]) == Size(l);
      ListsDepthIrrelevant([l], rs, d + 1, e + 1);
    case (List(ls), Int(_)) =>
      assert SizeOf([r]) == Size(r);
      ListsDepthIrrelevant(ls, [r], d + 1, e + 1);
  }

  lemma {:induction false} ListsDepthIrrelevant(ls: seq<Value>, rs: seq<Value>, d: nat, e: nat)
    requires d > 0 && e > 0
    ensures ListsInOrder(ls, rs, d) == ListsInOrder(ls, rs, e)
    decreases SizeOf(ls) + SizeOf(rs), 1
  {
    if ls != [] && rs != [] {
      DepthIrrelevant(ls[0], rs[0], d + 1, e + 1);
      ListsDepthIrrelevant(ls[1..], rs[1..], d, e);
    }
  }

  /** At the top level a pair of lists is never undecided: where a nested
      comparison would answer `None`, the top level answers `Some(true)`. */
  lemma {:induction false} ListsAtTopLevel(ls: seq<Value>, rs: seq<Value>)
    ensures ListsInOrder(ls, rs, 0) == if ListsInOrder(ls, rs, 1).None? then Some(true) else ListsInOrder(ls, rs, 1)
    decreases |ls|
  {
    if ls != [] && rs != [] {
      DepthIrrelevant(ls[0], rs[0], 1, 2);
      ListsAtTopLevel(ls[1..], rs[1..]);
    }
  }

  /** Every packet is undecided against itself below the top level. */
  lemma {:induction false} SelfUndecided(v: Value, d: nat)
    requires d > 0
    ensures IsInOrder(v, v, d) == None
    decreases v
  {
    if v.List? {
      ItemsSelfUndecided(v.items, d);
    }
  }

  lemma {:induction false} ItemsSelfUndecided(xs: seq<Value>, d: nat)
    requires d > 0
    ensures ListsInOrder(xs, xs, d) == None
    decreases xs
  {
    if xs != [] {
      SelfUndecided(xs[0], d + 1);
      ItemsSelfUndecided(xs[1..], d);
    }
  }

  /** Swapping the sides flips the verdict, and an undecided pair stays
      undecided. */
  lemma {:induction false} SwapFlips(l: Value, r: Value, d: nat)
    requires d > 0
    ensures IsInOrder(r, l, d) == Flip(IsInOrder(l, r, d))
    decreases Size(l) + Size(r), 0
  {
    match (l, r)
    case (Int(_), Int(_)) =>
    case (List(ls), List(rs)) => ListsSwapFlips(ls, rs, d);
    case (Int(_), List(rs)) =>
      assert SizeOf([l]) == Size(l);
      ListsSwapFlips([l], rs, d + 1);
    case (List(ls), Int(_)) =>
      assert SizeOf([r]) == Size(r);
      ListsSwapFlips(ls, [r], d + 1);
  }

  lemma {:induction false} ListsSwapFlips(ls: seq<Value>, rs: seq<Value>, d: nat)
    requires d > 0
    ensures ListsInOrder(rs, ls, d) == Flip(ListsInOrder(ls, rs, d))
    decreases SizeOf(ls) + SizeOf(rs), 1
  {
    if ls != [] && rs != [] {
      SwapFlips(ls[0], rs[0], d + 1);
      ListsSwapFlips(ls[1..], rs[1..], d);
    }
  }

  /** Promoting a packet to a one-element list never changes a nested
      comparison: this is why the mixed case may retry after wrapping. */
  lemma WrapInvisible(l: Value, r: Value, d: nat)
    requires d > 0
    ensures IsInOrder(CloneAsList(l), r, d) == IsInOrder(l, r, d)
    ensures IsInOrder(l, CloneAsList(r), d) == IsInOrder(l, r, d)
  {
    match (l, r)
    case (Int(_), Int(_)) =>
      assert [l][1..] == [] && [r][1..] == [];
      assert IsInOrder(CloneAsList(l), r, d) == ListsInOrder([l], [r], d + 1);
      assert IsInOrder(l, CloneAsList(r), d) == ListsInOrder([l], [r], d + 1);
      assert ListsInOrder([l], [r], d + 1) == IsInOrder(l, r, d + 2);
    case (List(_), List(_)) =>
    case (Int(_), List(rs)) => ListsDepthIrrelevant([l], rs, d, d + 1);
    case (List(ls), Int(_)) => ListsDepthIrrelevant(ls, [r], d, d + 1);
  }

  // ---------------------------------------------------------------------
  // `PartialOrd`

  datatype Ordering = Less | Equal | Greater

  /** `partial_cmp`: the top-level verdict read as an ordering. Because
      the top level turns "undecided" into "in order", a list compares
      `Less` against itself. */
  function PartialCmp(l: Value, r: Value): (o: Ordering)
    ensures o == Less <==> IsInOrder(l, r, 0) == Some(true)
    ensures o == Greater <==> IsInOrder(l, r, 0) == Some(false)
  {
    match IsInOrder(l, r, 0)
    case Some(inOrder) => if inOrder then Less else Greater
    case None => Equal
  }

  /** As written, `partial_cmp` breaks the `PartialOrd` contract: a list
      equals itself but compares `Less` against itself, both ways round. */
  lemma PartialCmpSelfIsLess(xs: seq<Value>)
    ensures PartialCmp(List(xs), List(xs)) == Less
    ensures PartialCmpFixed(List(xs), List(xs)) == Equal
  {
    ItemsSelfUndecided(xs, 1);
    ListsAtTopLevel(xs, xs);
    SelfUndecided(List(xs), 1);
  }

  /** The evident intent: the nested verdict, in which equal packets are
      undecided, read as an ordering. */
  function PartialCmpFixed(l: Value, r: Value): (o: Ordering)
    ensures o == Less <==> IsInOrder(l, r, 1) == Some(true)
    ensures o == Greater <==> IsInOrder(l, r, 1) == Some(false)
  {
    match IsInOrder(l, r, 1)
    case Some(inOrder) => if inOrder then Less else Greater
    case None => Equal
  }

  function Reverse(o: Ordering): Ordering
  {
    match o
    case Less => Greater
    case Equal => Equal
    case Greater => Less
  }

  /** The corrected comparison is reflexive and antisymmetric, and it
      agrees with the written one wherever it decides. */
  lemma PartialCmpFixedIsConsistent(l: Value, r: Value)
    ensures PartialCmpFixed(l, l) == Equal
    ensures PartialCmpFixed(r, l) == Reverse(PartialCmpFixed(l, r))
    ensures PartialCmpFixed(l, r) != Equal ==> PartialCmp(l, r) == PartialCmpFixed(l, r)
  {
    SelfUndecided(l, 1);
    SwapFlips(l, r, 1);
    match (l, r)
    case (List(ls), List(rs)) => ListsAtTopLevel(ls, rs);
    case (Int(_), List(rs)) => ListsDepthIrrelevant([l], rs, 1, 2);
    case (List(ls), Int(_)) => ListsDepthIrrelevant(ls, [r], 1, 2);
    case (Int(_), Int(_)) =>
  }

  // ---------------------------------------------------------------------
  // Parsing: a character at a time over a stack of open lists

  /** The parser's state: the stack of lists still open, and the digits
      of an integer read but not yet stored. */
  datatype State = State(values: seq<Value>, digits: string)

  const START := State([], "")

  /** Stores a pending integer into the innermost open list. */
  function Flush(st: State): Outcome<State>
  {
    if st.digits == [] then Returns(st)
    else
      match ParseUsize(st.digits)
      case None => Panics
      case Some(n) =>
        if |st.values| == 0 then Panics
        else
          var last := |st.values| - 1;
          match Push(st.values[last], Int(n))
          case Panics => Panics
          case Returns(top) => Returns(State(st.values[..last] + [top], ""))
  }

  /** One character: `[` opens a list; `]` stores the pending integer and
      closes the innermost list into its parent, unless it is the only
      one; `,` stores the pending integer; a decimal digit is buffered;
      anything else panics. */
  function Step(st: State, c: char): Outcome<State>
  {
    if c == '[' then Returns(State(st.values + [List([])], st.digits))
    else if c == ']' then
      match Flush(st)
      case Panics => Panics
      case Returns(f) =>
        if |f.values| > 1 then
          var last := |f.values| - 1;
          match Push(f.values[last - 1], f.values[last])
          case Panics => Panics
          case Returns(parent) => Returns(State(f.values[..last - 1] + [parent], f.digits))
        else Returns(f)
    else if c == ',' then Flush(st)
    else if IsDigit(c) then Returns(State(st.values, st.digits + [c]))
    else Panics
  }

  function Run(s: string, st: State): Outcome<State>
  {
    if s == [] then Returns(st)
    else
      match Step(st, s[0])
      case Panics => Panics
      case Returns(next) => Run(s[1..], next)
  }

  function Then(o: Outcome<State>, s: string): Outcome<State>
  {
    match o
    case Panics => Panics
    case Returns(st) => Run(s, st)
  }

  /** `Value::from_str`: exactly one value must be left when the input
      ends. */
  function Parse(s: string): (r: Outcome<Value>)
    ensures r.Returns? ==> Run(s, START).Returns? && Run(s, START).value.values == [r.value]
  {
    match Run(s, START)
    case Panics => Panics
    case Returns(st) => if |st.values| == 1 then Returns(st.values[0]) else Panics
  }

  /** `Value::from_str` as the source writes it: a loop over the
      characters with the stack and the digit buffer in variables. */
  method FromStr(s: string) returns (r: Outcome<Value>)
    ensures r == Parse(s)
  {
    var values: seq<Value> := [];
    var integerStr: string := "";
    var i := 0;
    while i < |s|
      invariant 0 <= i <= |s|
      invariant Run(s[i..], State(values, integerStr)) == Run(s, START)
    {
      var c := s[i];
      ghost var st := State(values, integerStr);
      assert s[i..][0] == c && s[i..][1..] == s[i + 1..];
      if c == '[' {
        values := values + [List([])];
      } else if c == ']' || c == ',' {
        if integerStr != [] {
          var parsed := ParseUsize(integerStr);
          if parsed.None? || |values| == 0 {
            assert Flush(st) == Panics;
            return Panics;
          }
          var top := Push(values[|values| - 1], Int(parsed.value));
          if top.Panics? {
            assert Flush(st) == Panics;
            return Panics;
          }
          values := values[..|values| - 1] + [top.value];
          integerStr := "";
        }
        assert Flush(st) == Returns(State(values, integerStr));
        if c == ']' && |values| > 1 {
          var value := values[|values| - 1];
          var parent := Push(values[|values| - 2], value);
          if parent.Panics? {
            assert Step(st, c) == Panics;
            return Panics;
          }
          values := values[..|values| - 2] + [parent.value];
        }
      } else if IsDigit(c) {
        integerStr := integerStr + [c];
      } else {
        return Panics;
      }
      assert Step(st, c) == Returns(State(values, integerStr));
      i := i + 1;
    }
    if |values| != 1 {
      return Panics;
    }
    r := Returns(values[0]);
  }

  // ---------------------------------------------------------------------
  // `Display`, and parsing what it writes

  /** `Display`: an integer in decimal; a list as `[`, its items joined
      by `,`, then `]`. */
  function ToStr(v: Value): string
  {
    match v
    case Int(n) => NatToString(n)
    case List(xs) => "[" + ItemsToStr(xs) + "]"
  }

  function ItemsToStr(xs: seq<Value>): string
  {
    if xs == [] then ""
    else if |xs| == 1 then ToStr(xs[0])
    else ToStr(xs[0]) + "," + ItemsToStr(xs[1..])
  }

  /** Every integer in the packet fits in a `usize`. */
  predicate Fits(v: Value)
  {
    match v
    case Int(n) => IsUsize(n)
    case List(xs) => forall i :: 0 <= i < |xs| ==> Fits(xs[i])
  }

  lemma {:induction false} RunAppend(a: string, b: string, st: State)
    ensures Run(a + b, st) == Then(Run(a, st), b)
  {
    if a == [] {
      assert a + b == b;
    } else {
      assert a + b != [] && (a + b)[0] == a[0] && (a + b)[1..] == a[1..] + b;
      match Step(st, a[0])
      case Panics =>
      case Returns(next) =>
        RunAppend(a[1..], b, next);
        assert Run(a + b, st) == Run(a[1..] + b, next);
    }
  }

  /** Digits only accumulate in the buffer. */
  lemma {:induction false} RunDigits(d: string, st: State)
    requires AllDigits(d)
    ensures Run(d, st) == Returns(State(st.values, st.digits + d))
  {
    if d == [] {
      assert st.digits + d == st.digits;
    } else {
      assert IsDigit(d[0]);
      var next := State(st.values, st.digits + [d[0]]);
      assert Step(st, d[0]) == Returns(next);
      RunDigits(d[1..], next);
      assert st.digits + [d[0]] + d[1..] == st.digits + d;
    }
  }

  /** The state after the items of a list have been read into the open
      list `List(xs)` on top of `pre`: all items stored except a final
      integer, whose digits are still pending. */
  function AfterItems(pre: seq<Value>, xs: seq<Value>, ys: seq<Value>): State
  {
    if ys != [] && ys[|ys| - 1].Int? then
      State(pre + [List(xs + ys[..|ys| - 1])], NatToString(ys[|ys| - 1].n))
    else State(pre + [List(xs + ys)], "")
  }

  /** Closing the list stores the pending integer. */
  lemma FlushAfterItems(pre: seq<Value>, xs: seq<Value>, ys: seq<Value>)
    requires forall i :: 0 <= i < |ys| ==> Fits(ys[i])
    ensures Flush(AfterItems(pre, xs, ys)) == Returns(State(pre + [List(xs + ys)], ""))
  {
    if ys != [] && ys[|ys| - 1].Int? {
      var n := ys[|ys| - 1].n;
      assert Fits(ys[|ys| - 1]);
      ParseUsizeOfDisplay(n);
      assert xs + ys[..|ys| - 1] + [Int(n)] == xs + ys;
    }
  }

  /** Reading a nested packet pushes it into the innermost open list. */
  lemma {:induction false} RunNested(v: Value, pre: seq<Value>, xs: seq<Value>)
    requires v.List? && Fits(v)
    ensures Run(ToStr(v), State(pre + [List(xs)], "")) == Returns(State(pre + [List(xs + [v])], ""))
    decreases v, 1
  {
    var ys := v.items;
    var open := pre + [List(xs)];
    assert ToStr(v) == "[" + ItemsToStr(ys) + "]";
    RunAppend("[" + ItemsToStr(ys), "]", State(open, ""));
    RunAppend("[", ItemsToStr(ys), State(open, ""));
    assert Run("[", State(open, "")) == Returns(State(open + [List([])], ""));
    RunItems(ys, open, []);
    FlushAfterItems(open, [], ys);
    assert [] + ys == ys;
    CloseNested(AfterItems(open, [], ys), pre, xs, v);
  }

  /** The closing `]` of a nested list, once its items are read, stores
      the list as the last item of its parent. */
  lemma CloseNested(items: State, pre: seq<Value>, xs: seq<Value>, v: Value)
    requires Flush(items) == Returns(State(pre + [List(xs)] + [v], ""))
    ensures Run("]", items) == Returns(State(pre + [List(xs + [v])], ""))
  {
    var closed := pre + [List(xs)] + [v];
    assert closed[..|closed| - 2] == pre && closed[|closed| - 2] == List(xs) && closed[|closed| - 1] == v;
    assert Run("]", items) == Step(items, ']');
  }

  /** Reading the items of a list, separated by commas, into an open list. */
  lemma {:induction false} RunItems(ys: seq<Value>, pre: seq<Value>, xs: seq<Value>)
    requires forall i :: 0 <= i < |ys| ==> Fits(ys[i])
    ensures Run(ItemsToStr(ys), State(pre + [List(xs)], "")) == Returns(AfterItems(pre, xs, ys))
    decreases ys, 0
  {
    var st := State(pre + [List(xs)], "");
    if ys == [] {
      assert xs + ys == xs;
    } else {
      var y := ys[0];
      RunItem(y, pre, xs);
      if |ys| == 1 {
        assert ys == [y];
      } else {
        var rest := ys[1..];
        var afterFirst := AfterItems(pre, xs, [y]);
        assert ItemsToStr(ys) == ToStr(y) + ("," + ItemsToStr(rest));
        RunAppend(ToStr(y), "," + ItemsToStr(rest), st);
        RunAppend(",", ItemsToStr(rest), afterFirst);
        FlushAfterItems(pre, xs, [y]);
        assert Run(",", afterFirst) == Flush(afterFirst);
        RunItems(rest, pre, xs + [y]);
        AfterItemsShift(pre, xs, ys);
      }
    }
  }

  /** Reading one item into an open list. */
  lemma {:induction false} RunItem(y: Value, pre: seq<Value>, xs: seq<Value>)
    requires Fits(y)
    ensures Run(ToStr(y), State(pre + [List(xs)], "")) == Returns(AfterItems(pre, xs, [y]))
    decreases y, 2
  {
    var st := State(pre + [List(xs)], "");
    if y.Int? {
      RunDigits(NatToString(y.n), st);
      assert [y][..0] == [] && xs + [] == xs && "" + NatToString(y.n) == NatToString(y.n);
    } else {
      RunNested(y, pre, xs);
    }
  }

  lemma AfterItemsShift(pre: seq<Value>, xs: seq<Value>, ys: seq<Value>)
    requires |ys| >= 2
    ensures AfterItems(pre, xs + [ys[0]], ys[1..]) == AfterItems(pre, xs, ys)
  {
    var rest := ys[1..];
    assert xs + [ys[0]] + rest == xs + ys;
    assert xs + [ys[0]] + rest[..|rest| - 1] == xs + ys[..|ys| - 1];
  }

  /** Parsing what `Display` wrote for a list gives the list back. */
  lemma ParseToStr(v: Value)
    requires v.List? && Fits(v)
    ensures Parse(ToStr(v)) == Returns(v)
    ensures Run(ToStr(v), START) == Returns(State([v], ""))
  {
    var ys := v.items;
    assert ToStr(v) == "[" + ItemsToStr(ys) + "]";
    RunAppend("[" + ItemsToStr(ys), "]", START);
    RunAppend("[", ItemsToStr(ys), START);
    assert Run("[", START) == Returns(State([] + [List([])], ""));
    RunItems(ys, [], []);
    var items := AfterItems([], [], ys);
    FlushAfterItems([], [], ys);
    assert [] + ys == ys && [] + [v] == [v];
    assert Flush(items) == Returns(State([v], ""));
    assert Run("]", items) == Step(items, ']');
  }

  /** A surplus closing bracket after a complete packet is ignored; the
      dividers of part two, written `[[2]]]` and `[[6]]]`, rely on it. */
  lemma SurplusCloseIgnored(v: Value)
    requires v.List? && Fits(v)
    ensures Parse(ToStr(v) + "]") == Returns(v)
  {
    ParseToStr(v);
    RunAppend(ToStr(v), "]", START);
    assert Run("]", State([v], "")) == Returns(State([v], ""));
  }

  /** A character other than a bracket, a comma or a digit makes the
      parse panic, wherever it is. */
  lemma {:induction false} StrayCharacterPanics(s: string, st: State, k: nat)
    requires k < |s| && s[k] !in "[]," && !IsDigit(s[k])
    ensures Run(s, st) == Panics
  {
    if k > 0 {
      match Step(st, s[0])
      case Panics =>
      case Returns(next) => StrayCharacterPanics(s[1..], next, k - 1);
    }
  }

  // ---------------------------------------------------------------------
  // Part one: the sum of the 1-based indices of the pairs in order

  /** Parses the non-empty lines; a line that does not parse panics. */
  function ParseLines(lines: seq<string>): (r: Outcome<seq<Value>>)
    ensures r.Returns? ==> |r.value| <= |lines|
  {
    if lines == [] then Returns([])
    else
      match ParseLines(lines[..|lines| - 1])
      case Panics => Panics
      case Returns(vs) =>
        var line := lines[|lines| - 1];
        if |line| == 0 then Returns(vs)
        else
          match Parse(line)
          case Panics => Panics
          case Returns(v) => Returns(vs + [v])
  }

  predicate PairInOrder(values: seq<Value>, k: nat)
    requires 2 * k + 1 < |values|
  {
    IsInOrder(values[2 * k], values[2 * k + 1], 0) == Some(true)
  }

  /** The sum over the first `k` pairs of `i + 1` for each pair `i` in
      order. */
  function Score(values: seq<Value>, k: nat): nat
    requires 2 * k <= |values|
  {
    if k == 0 then 0
    else Score(values, k - 1) + (if PairInOrder(values, k - 1) then k else 0)
  }

  function Triangle(k: nat): nat
  {
    k * (k + 1) / 2
  }

  /** The score never exceeds 1 + 2 + ... + k, and reaches it exactly when
      every pair is in order. */
  lemma {:induction false} ScoreBound(values: seq<Value>, k: nat)
    requires 2 * k <= |values|
    ensures Score(values, k) <= Triangle(k)
    ensures Score(values, k) == Triangle(k) <==> forall i :: 0 <= i < k ==> PairInOrder(values, i)
  {
    if k > 0 {
      ScoreBound(values, k - 1);
      assert Triangle(k) == Triangle(k - 1) + k;
      if !PairInOrder(values, k - 1) {
        assert Score(values, k) < Triangle(k);
      }
    }
  }

  /** `solve_part1`: the packets pair up two by two; an odd one out is
      ignored. */
  function Part1(lines: seq<string>): Outcome<nat>
  {
    match ParseLines(lines)
    case Panics => Panics
    case Returns(values) => Returns(Score(values, |values| / 2))
  }

  // ---------------------------------------------------------------------
  // Part two: where the divider packets would go

  /** The divider packet `[[k]]`. */
  function Divider(k: nat): Value
  {
    List([List([Int(k)])])
  }

  /** The dividers are written with a surplus `]`, which parses to the
      divider all the same. */
  lemma DividersParse()
    ensures Parse("[[2]]]") == Returns(Divider(2))
    ensures Parse("[[6]]]") == Returns(Divider(6))
  {
    DividerParses(2);
    DividerParses(6);
  }

  lemma DividerParses(k: nat)
    requires k < 10
    ensures Parse(['[', '[', DigitChar(k), ']', ']', ']']) == Returns(Divider(k))
  {
    assert Fits(List([Int(k)]));
    assert NatToString(k) == [DigitChar(k)];
    assert ItemsToStr([Int(k)]) == [DigitChar(k)];
    assert ToStr(List([Int(k)])) == ['[', DigitChar(k), ']'];
    assert ItemsToStr([List([Int(k)])]) == ['[', DigitChar(k), ']'];
    assert ToStr(Divider(k)) == ['[', '[', DigitChar(k), ']', ']'];
    SurplusCloseIgnored(Divider(k));
    assert ToStr(Divider(k)) + "]" == ['[', '[', DigitChar(k), ']', ']', ']'];
  }

  predicate Follows(v: Value, div: Value)
  {
    IsInOrder(v, div, 0) == Some(false)
  }

  /** The `find_map` over the sorted packets: the index of the first one
      that is out of order against the divider, or the number of packets
      when there is none. */
  function FirstFollowing(values: seq<Value>, div: Value): (i: nat)
    ensures i <= |values|
    ensures i < |values| ==> Follows(values[i], div)
    ensures forall j :: 0 <= j < i ==> !Follows(values[j], div)
  {
    if values == [] then 0
    else if Follows(values[0], div) then 0
    else 1 + FirstFollowing(values[1..], div)
  }

  function CountPreceding(values: seq<Value>, div: Value): (c: nat)
    ensures c <= |values|
  {
    if values == [] then 0
    else CountPreceding(values[1..], div) + (if Follows(values[0], div) then 0 else 1)
  }

  /** The answer of `solve_part2` from the packets after sorting: the
      1-based positions the two dividers would take if inserted. */
  function Part2Answer(sorted: seq<Value>): nat
  {
    (FirstFollowing(sorted, Divider(2)) + 1) * (FirstFollowing(sorted, Divider(6)) + 2)
  }

  /** When every packet greater than the divider comes after every packet
      that is not, the search stops right after the packets that are not:
      the divider's place in the sorted order. */
  lemma {:induction false} PartitionedPosition(values: seq<Value>, div: Value)
    requires forall i, j :: 0 <= i < j < |values| && Follows(values[i], div) ==> Follows(values[j], div)
    ensures FirstFollowing(values, div) == CountPreceding(values, div)
  {
    if values != [] {
      if Follows(values[0], div) {
        AllFollow(values, div);
      } else {
        PartitionedPosition(values[1..], div);
      }
    }
  }

  lemma {:induction false} AllFollow(values: seq<Value>, div: Value)
    requires forall j :: 0 <= j < |values| ==> Follows(values[j], div)
    ensures CountPreceding(values, div) == 0
  {
    if values != [] {
      AllFollow(values[1..], div);
    }
  }

  // ---------------------------------------------------------------------
  // The puzzle's example

  function I(n: nat): Value { Int(n) }

  function ExamplePackets(): seq<Value>
  {
    [ List([I(1), I(1), I(3), I(1), I(1)]), List([I(1), I(1), I(5), I(1), I(1)]),
      List([List([I(1)]), List([I(2), I(3), I(4)])]), List([List([I(1)]), I(4)]),
      List([I(9)]), List([List([I(8), I(7), I(6)])]),
      List([List([I(4), I(4)]), I(4), I(4)]), List([List([I(4), I(4)]), I(4), I(4), I(4)]),
      List([I(7), I(7), I(7), I(7)]), List([I(7), I(7), I(7)]),
      List([]), List([I(3)]),
      List([List([List([])])]), List([List([])]),
      List([I(1), List([I(2), List([I(3), List([I(4), List([I(5), I(6), I(7)])])])]), I(8), I(9)]),
      List([I(1), List([I(2), List([I(3), List([I(4), List([I(5), I(6), I(0)])])])]), I(8), I(9)]) ]
  }

  /** Equal leading items never decide a comparison. */
  lemma {:induction false} CommonPrefix(p: seq<Value>, ls: seq<Value>, rs: seq<Value>, d: nat)
    ensures ListsInOrder(p + ls, p + rs, d) == ListsInOrder(ls, rs, d)
  {
    if p != [] {
      SelfUndecided(p[0], d + 1);
      assert (p + ls)[1..] == p[1..] + ls && (p + rs)[1..] == p[1..] + rs;
      CommonPrefix(p[1..], ls, rs, d);
    } else {
      assert p + ls == ls && p + rs == rs;
    }
  }

  lemma ExamplePair1()
    ensures PairInOrder(ExamplePackets(), 0)
  {
    CommonPrefix([I(1), I(1)], [I(3), I(1), I(1)], [I(5), I(1), I(1)], 0);
    assert [I(1), I(1), I(3), I(1), I(1)] == [I(1), I(1)] + [I(3), I(1), I(1)];
    assert [I(1), I(1), I(5), I(1), I(1)] == [I(1), I(1)] + [I(5), I(1), I(1)];
  }

  lemma ExamplePair2()
    ensures PairInOrder(ExamplePackets(), 1)
  {
    var one := List([I(1)]);
    CommonPrefix([one], [List([I(2), I(3), I(4)])], [I(4)], 0);
    assert [one, List([I(2), I(3), I(4)])] == [one] + [List([I(2), I(3), I(4)])];
    assert [one, I(4)] == [one] + [I(4)];
    assert IsInOrder(List([I(2), I(3), I(4)]), I(4), 1) == ListsInOrder([I(2), I(3), I(4)], [I(4)], 2);
  }

  lemma ExamplePair3()
    ensures !PairInOrder(ExamplePackets(), 2)
  {
    assert IsInOrder(I(9), List([I(8), I(7), I(6)]), 1) == ListsInOrder([I(9)], [I(8), I(7), I(6)], 2);
  }

  lemma ExamplePair4()
    ensures PairInOrder(ExamplePackets(), 3)
  {
    var p := [List([I(4), I(4)]), I(4), I(4)];
    CommonPrefix(p, [], [I(4)], 0);
    assert p + [] == p;
  }

  lemma ExamplePair5()
    ensures !PairInOrder(ExamplePackets(), 4)
  {
    var p := [I(7), I(7), I(7)];
    CommonPrefix(p, [I(7)], [], 0);
    assert p + [] == p;
  }

  lemma ExamplePair6()
    ensures PairInOrder(ExamplePackets(), 5)
  {
  }

  lemma ExamplePair7()
    ensures !PairInOrder(ExamplePackets(), 6)
  {
    assert IsInOrder(List([List([])]), List([]), 1) == ListsInOrder([List([])], [], 1);
  }

  function Nested(last: nat): Value
  {
    List([I(2), List([I(3), List([I(4), List([I(5), I(6), I(last)])])])])
  }

  /** A nesting level that starts with the same integer passes the
      verdict of its second item up. */
  lemma SameHead(k: nat, a: Value, b: Value, d: nat)
    ensures IsInOrder(List([I(k), a]), List([I(k), b]), d) ==
      match IsInOrder(a, b, d + 1)
      case Some(v) => Some(v)
      case None => ListsInOrder([], [], d)
  {
    CommonPrefix([I(k)], [a], [b], d);
    assert [I(k), a] == [I(k)] + [a] && [I(k), b] == [I(k)] + [b];
    assert [a][1..] == [] && [b][1..] == [];
  }

  lemma NestedDiffer()
    ensures IsInOrder(Nested(7), Nested(0), 1) == Some(false)
  {
    var l5 := [I(5), I(6), I(7)];
    var r5 := [I(5), I(6), I(0)];
    CommonPrefix([I(5), I(6)], [I(7)], [I(0)], 4);
    assert l5 == [I(5), I(6)] + [I(7)] && r5 == [I(5), I(6)] + [I(0)];
    assert IsInOrder(List(l5), List(r5), 4) == Some(false);
    SameHead(4, List(l5), List(r5), 3);
    var l4 := List([I(4), List(l5)]);
    var r4 := List([I(4), List(r5)]);
    SameHead(3, l4, r4, 2);
    SameHead(2, List([I(3), l4]), List([I(3), r4]), 1);
  }

  lemma ExamplePair8()
    ensures !PairInOrder(ExamplePackets(), 7)
  {
    NestedDiffer();
    var l2 := Nested(7);
    var r2 := Nested(0);
    assert ExamplePackets()[14] == List([I(1), l2, I(8), I(9)]);
    assert ExamplePackets()[15] == List([I(1), r2, I(8), I(9)]);
    CommonPrefix([I(1)], [l2, I(8), I(9)], [r2, I(8), I(9)], 0);
    assert [I(1), l2, I(8), I(9)] == [I(1)] + [l2, I(8), I(9)];
    assert [I(1), r2, I(8), I(9)] == [I(1)] + [r2, I(8), I(9)];
  }

  /** The verdicts the puzzle gives for its eight example pairs. */
  lemma ExamplePairs()
    ensures PairInOrder(ExamplePackets(), 0)
    ensures PairInOrder(ExamplePackets(), 1)
    ensures !PairInOrder(ExamplePackets(), 2)
    ensures PairInOrder(ExamplePackets(), 3)
    ensures !PairInOrder(ExamplePackets(), 4)
    ensures PairInOrder(ExamplePackets(), 5)
    ensures !PairInOrder(ExamplePackets(), 6)
    ensures !PairInOrder(ExamplePackets(), 7)
  {
    ExamplePair1(); ExamplePair2(); ExamplePair3(); ExamplePair4();
    ExamplePair5(); ExamplePair6(); ExamplePair7(); ExamplePair8();
  }

  lemma ExampleScore()
    ensures Score(ExamplePackets(), 8) == 13
  {
    ExamplePairs();
  }

  lemma ToStrDigit(k: nat)
    requires k < 10
    ensures ToStr(I(k)) == [DigitChar(k)]
  {
  }

  lemma ParseExample1()
    ensures Parse("[1,1,3,1,1]") == Returns(List([I(1), I(1), I(3), I(1), I(1)]))
  {
    var v := List([I(1), I(1), I(3), I(1), I(1)]);
    Example1Text(v);
    ParseToStr(v);
  }

  lemma Example1Text(v: Value)
    requires v == List([I(1), I(1), I(3), I(1), I(1)])
    ensures Fits(v) && ToStr(v) == "[1,1,3,1,1]"
  {
    var xs := v.items;
    ToStrDigit(1);
    ToStrDigit(3);
    assert ItemsToStr(xs[4..]) == "1";
    assert ItemsToStr(xs[3..]) == "1,1" by { assert xs[3..][1..] == xs[4..]; }
    assert ItemsToStr(xs[2..]) == "3,1,1" by { assert xs[2..][1..] == xs[3..]; }
    assert ItemsToStr(xs[1..]) == "1,3,1,1" by { assert xs[1..][1..] == xs[2..]; }
  }

  lemma ParseExample2()
    ensures Parse("[[1],[2,3,4]]") == Returns(List([List([I(1)]), List([I(2), I(3), I(4)])]))
  {
    var a := List([I(1)]);
    var b := List([I(2), I(3), I(4)]);
    var v := List([a, b]);
    Example2Inner(b);
    ToStrDigit(1);
    assert ToStr(a) == "[1]";
    assert ItemsToStr([b]) == "[2,3,4]";
    assert ItemsToStr([a, b]) == "[1],[2,3,4]" by { assert [a, b][1..] == [b]; }
    assert ToStr(v) == "[[1],[2,3,4]]";
    assert Fits(a);
    ParseToStr(v);
  }

  lemma Example2Inner(b: Value)
    requires b == List([I(2), I(3), I(4)])
    ensures Fits(b) && ToStr(b) == "[2,3,4]"
  {
    ToStrDigit(2); ToStrDigit(3); ToStrDigit(4);
    var ys := b.items;
    assert ItemsToStr(ys[2..]) == "4";
    assert ItemsToStr(ys[1..]) == "3,4" by { assert ys[1..][1..] == ys[2..]; }
    assert ItemsToStr(ys) == "2,3,4";
  }

  /** The single comparisons the tests check. */
  lemma CompareExamples()
    ensures IsInOrder(List([I(1)]), List([I(1)]), 0) == Some(true)
    ensures IsInOrder(List([List([I(1)])]), List([I(2)]), 0) == Some(true)
    ensures IsInOrder(List([I(1), I(2)]), List([I(3), I(4)]), 0) == Some(true)
  {
    assert IsInOrder(List([I(1)]), I(2), 1) == ListsInOrder([I(1)], [I(2)], 2);
  }

  /** The example packets in the order the puzzle sorts them. */
  function SortedExample(): seq<Value>
  {
    [ List([]), List([List([])]), List([List([List([])])]),
      List([I(1), I(1), I(3), I(1), I(1)]), List([I(1), I(1), I(5), I(1), I(1)]),
      List([List([I(1)]), List([I(2), I(3), I(4)])]),
      List([I(1), Nested(0), I(8), I(9)]), List([I(1), Nested(7), I(8), I(9)]),
      List([List([I(1)]), I(4)]), List([I(3)]),
      List([List([I(4), I(4)]), I(4), I(4)]), List([List([I(4), I(4)]), I(4), I(4), I(4)]),
      List([I(7), I(7), I(7)]), List([I(7), I(7), I(7), I(7)]),
      List([List([I(8), I(7), I(6)])]), List([I(9)]) ]
  }

  /** The search lands on `k` when nothing before `k` follows the divider
      and the packet at `k` does. */
  lemma FirstFollowingAt(values: seq<Value>, div: Value, k: nat)
    requires k < |values| && Follows(values[k], div)
    requires forall j :: 0 <= j < k ==> !Follows(values[j], div)
    ensures FirstFollowing(values, div) == k
  {
  }

  lemma SortedExampleAgainstTwo()
    ensures forall j :: 0 <= j < 9 ==> !Follows(SortedExample()[j], Divider(2))
    ensures Follows(SortedExample()[9], Divider(2))
  {
    var d := List([I(2)]);
    assert IsInOrder(List([]), d, 1) == Some(true);
    assert IsInOrder(List([List([])]), d, 1) == Some(true);
    assert IsInOrder(I(1), d, 1) == ListsInOrder([I(1)], [I(2)], 2);
    assert IsInOrder(List([I(1)]), d, 1) == Some(true);
    assert IsInOrder(I(3), d, 1) == ListsInOrder([I(3)], [I(2)], 2);
  }

  lemma SortedExampleAgainstSix()
    ensures forall j :: 0 <= j < 12 ==> !Follows(SortedExample()[j], Divider(6))
    ensures Follows(SortedExample()[12], Divider(6))
  {
    LowPacketsBeforeSix();
    HighPacketsBeforeSix();
    var d := List([I(6)]);
    assert IsInOrder(I(7), d, 1) == ListsInOrder([I(7)], [I(6)], 2);
  }

  lemma LowPacketsBeforeSix()
    ensures forall j :: 0 <= j < 6 ==> !Follows(SortedExample()[j], Divider(6))
  {
    var d := List([I(6)]);
    assert IsInOrder(List([]), d, 1) == Some(true);
    assert IsInOrder(List([List([])]), d, 1) == Some(true);
    assert IsInOrder(I(1), d, 1) == ListsInOrder([I(1)], [I(6)], 2);
    assert IsInOrder(List([I(1)]), d, 1) == Some(true);
  }

  lemma HighPacketsBeforeSix()
    ensures forall j :: 6 <= j < 12 ==> !Follows(SortedExample()[j], Divider(6))
  {
    var d := List([I(6)]);
    assert IsInOrder(I(1), d, 1) == ListsInOrder([I(1)], [I(6)], 2);
    assert IsInOrder(List([I(1)]), d, 1) == Some(true);
    assert IsInOrder(I(3), d, 1) == ListsInOrder([I(3)], [I(6)], 2);
    assert IsInOrder(List([I(4), I(4)]), d, 1) == Some(true);
  }

  /** The puzzle's answer for part two of the example. */
  lemma ExamplePart2(sorted: seq<Value>)
    requires sorted == SortedExample()
    ensures Part2Answer(sorted) == 140
  {
    var two := FirstFollowing(sorted, Divider(2));
    var six := FirstFollowing(sorted, Divider(6));
    ExampleDividerTwo(sorted);
    ExampleDividerSix(sorted);
    ExampleProduct(two, six);
  }

  lemma ExampleProduct(two: nat, six: nat)
    requires two == 9 && six == 12
    ensures (two + 1) * (six + 2) == 140
  {
  }

  lemma ExampleDividerTwo(sorted: seq<Value>)
    requires sorted == SortedExample()
    ensures FirstFollowing(sorted, Divider(2)) == 9
  {
    SortedExampleAgainstTwo();
    FirstFollowingAt(sorted, Divider(2), 9);
  }

  lemma ExampleDividerSix(sorted: seq<Value>)
    requires sorted == SortedExample()
    ensures FirstFollowing(sorted, Divider(6)) == 12
  {
    SortedExampleAgainstSix();
    FirstFollowingAt(sorted, Divider(6), 12);
  }
}
