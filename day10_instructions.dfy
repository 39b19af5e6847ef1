/** Day 10: cathode-ray tube. Only the instruction parser is modelled: a
    line is either `noop` or `addx` followed by a signed operand. */
module Instructions {
  import opened Common

  datatype Instr = Noop | Addx(operand: int)

  const ADDX_PREFIX: string := "addx "

  /** `Instr::from_str`: exactly `noop`, or `addx ` followed by a string
      that parses as an `isize`; anything else panics. */
  function FromStr(s: string): (r: Outcome<Instr>)
    ensures r == Returns(Noop) <==> s == "noop"
    ensures r.Returns? && r.value.Addx? ==> ADDX_PREFIX <= s && ParseIsize(s[|ADDX_PREFIX|..]) == Some(r.value.operand)
    ensures r.Panics? <==> s != "noop" && (!(ADDX_PREFIX <= s) || ParseIsize(s[|ADDX_PREFIX|..]).None?)
  {
    if s == "noop" then Returns(Noop)
    else if ADDX_PREFIX <= s then
      match ParseIsize(s[|ADDX_PREFIX|..])
      case Some(n) => Returns(Addx(n))
      case None => Panics
    else Panics
  }

  /** How an instruction is written in the puzzle input. */
  function ToStr(i: Instr): string
  {
    match i
    case Noop => "noop"
    case Addx(n) => ADDX_PREFIX + IntToString(n)
  }

  /** Parsing what was written gives the instruction back, for every
      operand in the `isize` range. */
  lemma FromStrOfToStr(i: Instr)
    requires i.Addx? ==> IsIsize(i.operand)
    ensures FromStr(ToStr(i)) == Returns(i)
  {
    if i.Addx? {
      var s := ToStr(i);
      ParseIsizeOfDisplay(i.operand);
      assert s[|ADDX_PREFIX|..] == IntToString(i.operand);
      assert s != "noop" by { assert s[0] != "noop"[0]; }
    }
  }

  /** An operand outside the `isize` range is refused. */
  lemma OperandOutOfRangePanics(n: int)
    requires !IsIsize(n)
    ensures FromStr(ADDX_PREFIX + IntToString(n)) == Panics
  {
    var s := ADDX_PREFIX + IntToString(n);
    var t := IntToString(n);
    assert s[|ADDX_PREFIX|..] == t;
    if n < 0 {
      DigitsValueOfDisplay(-n);
      assert t[0] == '-' && t[1..] == NatToString(-n);
    } else {
      DigitsValueOfDisplay(n);
      assert IsDigit(t[0]);
    }
    assert s != "noop" by { assert s[0] != "noop"[0]; }
  }

  lemma Examples()
    ensures FromStr("noop") == Returns(Noop)
    ensures FromStr("addx 314") == Returns(Addx(314))
    ensures FromStr("addx -7") == Returns(Addx(-7))
    ensures FromStr("addx x") == Panics
    ensures FromStr("noop ") == Panics
  {
    var s := "addx 314";
    assert s[5..] == "314";
    assert DigitsValue("314") == 314 by {
      assert "314"[..2] == "31" && "31"[..1] == "3";
    }
    var t := "addx -7";
    assert t[5..] == "-7" && t[5..][1..] == "7";
    var u := "addx x";
    assert u[5..] == "x";
  }
}
