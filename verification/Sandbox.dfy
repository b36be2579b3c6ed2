/**
The sandbox table of `seccompsandbox.c`: eight parallel arrays and four counters, the
calls that append a rule to it, and the emitter that turns it into a BPF program.
A call that hits `bug()` ends the process and leaves the table alone.
*/
module Sandbox {
  import opened Bpf
  import opened Common
  import opened FilterCompiler
  import opened Process

  /** A C `int`. */
  type CInt = v: int | -0x8000_0000 <= v < 0x8000_0000

  /** Conversion of a C `int` to the unsigned operand field of an instruction. */
  function ToWord(v: CInt): Word { if v < 0 then v + 0x1_0000_0000 else v }

  /** One line of the parallel arrays. */
  datatype Row = Row(syscall: CInt, errno: CInt, arg1: CInt, val1: CInt, arg2: CInt, val2: CInt, arg3: CInt, val3: CInt)

  predicate InRange(arg: int) { 1 <= arg <= 6 }

  predicate RowOk(r: Row) {
    0 <= r.syscall && 0 <= r.errno <= 255 &&
    (r.arg1 == 0 || InRange(r.arg1) || InRange(r.arg1 - 100)) &&
    (r.arg2 == 0 || (InRange(r.arg2) && r.arg1 != 0)) &&
    (r.arg3 == 0 || (InRange(r.arg3) && r.arg2 != 0))
  }

  /** The rule a line stands for: 100 added to the first argument number marks a mask. */
  function RuleOf(r: Row): (rule: Rule)
    requires RowOk(r)
    ensures ValidRule(rule)
  {
    var t1 :=
      if r.arg1 > 100 then Mask(r.arg1 - 100, ToWord(r.val1))
      else if r.arg1 == 0 then Exact(1, 0)
      else Exact(r.arg1, ToWord(r.val1));
    var tests := if r.arg3 != 0 then [t1, Exact(r.arg2, ToWord(r.val2)), Exact(r.arg3, ToWord(r.val3))]
                 else if r.arg2 != 0 then [t1, Exact(r.arg2, ToWord(r.val2))]
                 else if r.arg1 != 0 then [t1]
                 else [];
    Rule(r.syscall, r.errno, tests)
  }

  /** The lines that the calls with two and three tests write. */
  lemma TwoTestsRow(nr: CInt, arg1: CInt, val1: CInt, arg2: CInt, val2: CInt, val3: CInt)
    requires nr >= 0 && InRange(arg1) && InRange(arg2)
    ensures var r := Row(nr, 0, arg1, val1, arg2, val2, 0, val3);
      RowOk(r) && RuleOf(r) == Rule(nr, 0, [Exact(arg1, ToWord(val1)), Exact(arg2, ToWord(val2))])
    ensures var r := Row(nr, 0, 100 + arg1, val1, arg2, val2, 0, val3);
      RowOk(r) && RuleOf(r) == Rule(nr, 0, [Mask(arg1, ToWord(val1)), Exact(arg2, ToWord(val2))])
  {
  }

  lemma ThreeTestsRow(nr: CInt, arg1: CInt, val1: CInt, arg2: CInt, val2: CInt, arg3: CInt, val3: CInt)
    requires nr >= 0 && InRange(arg1) && InRange(arg2) && InRange(arg3)
    ensures var r := Row(nr, 0, arg1, val1, arg2, val2, arg3, val3);
      RowOk(r) && RuleOf(r) ==
        Rule(nr, 0, [Exact(arg1, ToWord(val1)), Exact(arg2, ToWord(val2)), Exact(arg3, ToWord(val3))])
  {
  }

  function RulesOf(rows: seq<Row>): (rules: seq<Rule>)
    requires forall i :: 0 <= i < |rows| ==> RowOk(rows[i])
    ensures |rules| == |rows| && ValidRules(rules)
    ensures forall i :: 0 <= i < |rows| ==> rules[i] == RuleOf(rows[i])
  {
    seq(|rows|, i requires 0 <= i < |rows| => RuleOf(rows[i]))
  }

  /** One of the seven calls that the setup functions make. */
  datatype Call =
    | AllowNr(nr: CInt)
    | RejectNr(nr: CInt, errcode: CInt)
    | Allow1Match(nr: CInt, arg1: CInt, val1: CInt)
    | Allow1Mask(nr: CInt, arg1: CInt, val1: CInt)
    | Allow2Match(nr: CInt, arg1: CInt, val1: CInt, arg2: CInt, val2: CInt)
    | Allow2MaskMatch(nr: CInt, arg1: CInt, val1: CInt, arg2: CInt, val2: CInt)
    | Allow3Match(nr: CInt, arg1: CInt, val1: CInt, arg2: CInt, val2: CInt, arg3: CInt, val3: CInt)

  predicate CallOk(c: Call) {
    c.nr >= 0 &&
    match c
    case AllowNr(_) => true
    case RejectNr(_, e) => 0 <= e <= 255
    case Allow1Match(_, a, _) => InRange(a)
    case Allow1Mask(_, a, _) => InRange(a)
    case Allow2Match(_, a, _, b, _) => InRange(a) && InRange(b)
    case Allow2MaskMatch(_, a, _, b, _) => InRange(a) && InRange(b)
    case Allow3Match(_, a, _, b, _, e, _) => InRange(a) && InRange(b) && InRange(e)
  }

  /** The rule a call asks for. */
  function RuleFor(c: Call): (r: Rule)
    requires CallOk(c)
    ensures ValidRule(r)
  {
    match c
    case AllowNr(n) => Rule(n, 0, [])
    case RejectNr(n, e) => Rule(n, e, [])
    case Allow1Match(n, a, v) => Rule(n, 0, [Exact(a, ToWord(v))])
    case Allow1Mask(n, a, v) => Rule(n, 0, [Mask(a, ToWord(v))])
    case Allow2Match(n, a, v, b, w) => Rule(n, 0, [Exact(a, ToWord(v)), Exact(b, ToWord(w))])
    case Allow2MaskMatch(n, a, v, b, w) => Rule(n, 0, [Mask(a, ToWord(v)), Exact(b, ToWord(w))])
    case Allow3Match(n, a, v, b, w, e, x) => Rule(n, 0, [Exact(a, ToWord(v)), Exact(b, ToWord(w)), Exact(e, ToWord(x))])
  }

  predicate CallsOk(calls: seq<Call>) {
    forall i :: 0 <= i < |calls| ==> CallOk(calls[i])
  }

  function RulesFor(calls: seq<Call>): (rules: seq<Rule>)
    requires CallsOk(calls)
    ensures |rules| == |calls| && ValidRules(rules)
    ensures forall i :: 0 <= i < |calls| ==> rules[i] == RuleFor(calls[i])
  {
    seq(|calls|, i requires 0 <= i < |calls| => RuleFor(calls[i]))
  }

  lemma RulesForGrows(was: seq<Rule>, calls: seq<Call>, i: nat)
    requires CallsOk(calls) && i < |calls|
    ensures was + RulesFor(calls[..i]) + [RuleFor(calls[i])] == was + RulesFor(calls[..i + 1])
  {
  }

  lemma {:induction false} CountShapeAppend(rules: seq<Rule>, r: Rule, n: nat)
    ensures CountShape(rules + [r], n) == CountShape(rules, n) + if |r.tests| == n then 1 else 0
  {
    if rules == [] {
      assert rules + [r] == [r];
    } else {
      CountShapeAppend(rules[1..], r, n);
      assert (rules + [r])[1..] == rules[1..] + [r];
    }
  }

  lemma {:induction false} BlocksAppend(rules: seq<Rule>, r: Rule)
    requires ValidRules(rules) && ValidRule(r)
    ensures ValidRules(rules + [r]) && Blocks(rules + [r]) == Blocks(rules) + Block(r)
  {
    if rules == [] {
      assert rules + [r] == [r];
      assert Blocks([r]) == Block(r) + Blocks([]);
    } else {
      BlocksAppend(rules[1..], r);
      assert (rules + [r])[1..] == rules[1..] + [r];
      Associative(Block(rules[0]), Blocks(rules[1..]), Block(r));
    }
  }

  class Table {
    var index: nat       // s_syscall_index
    var oneArg: nat      // s_1_arg_validations
    var twoArg: nat      // s_2_arg_validations
    var threeArg: nat    // s_3_arg_validations
    const syscalls: array<CInt>
    const errnos: array<CInt>
    const args1: array<CInt>
    const vals1: array<CInt>
    const args2: array<CInt>
    const vals2: array<CInt>
    const args3: array<CInt>
    const vals3: array<CInt>

    predicate Shaped() {
      syscalls.Length == errnos.Length == args1.Length == vals1.Length == MAX_RULES &&
      args2.Length == vals2.Length == args3.Length == vals3.Length == MAX_RULES &&
      syscalls !in {errnos, args1, vals1, args2, vals2, args3, vals3} &&
      errnos !in {args1, vals1, args2, vals2, args3, vals3} &&
      args1 !in {vals1, args2, vals2, args3, vals3} && vals1 !in {args2, vals2, args3, vals3} &&
      args2 !in {vals2, args3, vals3} && vals2 !in {args3, vals3} && args3 != vals3
    }

    function RowAt(i: nat): Row
      requires Shaped() && i < MAX_RULES
      reads syscalls, errnos, args1, vals1, args2, vals2, args3, vals3
    {
      Row(syscalls[i], errnos[i], args1[i], vals1[i], args2[i], vals2[i], args3[i], vals3[i])
    }

    ghost function Rows(n: nat): (rows: seq<Row>)
      requires Shaped() && n <= MAX_RULES
      reads syscalls, errnos, args1, vals1, args2, vals2, args3, vals3
      ensures |rows| == n && forall i :: 0 <= i < n ==> rows[i] == RowAt(i)
    {
      seq(n, i requires 0 <= i < n && Shaped()
               reads syscalls, errnos, args1, vals1, args2, vals2, args3, vals3 => RowAt(i))
    }

    /** The table holds well-formed lines, zeroes behind them, and counters that agree. */
    ghost predicate Valid()
      reads this, syscalls, errnos, args1, vals1, args2, vals2, args3, vals3
    {
      Shaped() && index <= MAX_RULES &&
      (forall i :: 0 <= i < index ==> RowOk(RowAt(i))) &&
      (forall i :: index <= i < MAX_RULES ==> args1[i] == args2[i] == args3[i] == 0) &&
      oneArg == CountShape(Rules(), 1) && twoArg == CountShape(Rules(), 2) && threeArg == CountShape(Rules(), 3)
    }

    /** The rules of the table, in order. */
    ghost function Rules(): (rules: seq<Rule>)
      requires Shaped() && index <= MAX_RULES && forall i :: 0 <= i < index ==> RowOk(RowAt(i))
      reads this, syscalls, errnos, args1, vals1, args2, vals2, args3, vals3
      ensures |rules| == index && ValidRules(rules)
      ensures forall i :: 0 <= i < index ==> rules[i] == RuleOf(RowAt(i))
    {
      RulesOf(Rows(index))
    }

    constructor ()
      ensures Valid() && Rules() == []
      ensures fresh(syscalls) && fresh(errnos) && fresh(args1) && fresh(vals1)
      ensures fresh(args2) && fresh(vals2) && fresh(args3) && fresh(vals3)
    {
      index, oneArg, twoArg, threeArg := 0, 0, 0, 0;
      syscalls, errnos := new CInt[MAX_RULES](_ => 0), new CInt[MAX_RULES](_ => 0);
      args1, vals1 := new CInt[MAX_RULES](_ => 0), new CInt[MAX_RULES](_ => 0);
      args2, vals2 := new CInt[MAX_RULES](_ => 0), new CInt[MAX_RULES](_ => 0);
      args3, vals3 := new CInt[MAX_RULES](_ => 0), new CInt[MAX_RULES](_ => 0);
    }

    /** One more line, nothing else touched: the rules grow by the rule of that line. */
    twostate lemma Grown(r: Rule)
      requires old(Valid()) && Shaped() && index == old(index) + 1 <= MAX_RULES
      requires forall i :: 0 <= i < old(index) ==> RowAt(i) == old(RowAt(i))
      requires RowOk(RowAt(old(index))) && RuleOf(RowAt(old(index))) == r
      requires forall i :: index <= i < MAX_RULES ==> args1[i] == args2[i] == args3[i] == 0
      requires oneArg == old(oneArg) + if |r.tests| == 1 then 1 else 0
      requires twoArg == old(twoArg) + if |r.tests| == 2 then 1 else 0
      requires threeArg == old(threeArg) + if |r.tests| == 3 then 1 else 0
      ensures Valid() && Rules() == old(Rules()) + [r]
    {
      assert forall i :: 0 <= i < index ==> RowOk(RowAt(i));
      assert Rules() == old(Rules()) + [r];
      CountShapeAppend(old(Rules()), r, 1);
      CountShapeAppend(old(Rules()), r, 2);
      CountShapeAppend(old(Rules()), r, 3);
    }

    method AllowNr(nr: CInt) returns (st: Status)
      requires Valid()
      modifies this, syscalls, errnos
      ensures Valid() && (st.Running? || st.Bug?) && st.Running? == (|old(Rules())| < MAX_RULES && nr >= 0)
      ensures Rules() == if st.Running? then old(Rules()) + [Rule(nr, 0, [])] else old(Rules())
    {
      if index >= MAX_RULES || nr < 0 { return Bug; }
      errnos[index] := 0;
      syscalls[index] := nr;
      index := index + 1;
      Grown(Rule(nr, 0, []));
      return Running;
    }

    method RejectNr(nr: CInt, errcode: CInt) returns (st: Status)
      requires Valid()
      modifies this, syscalls, errnos
      ensures Valid() && (st.Running? || st.Bug?)
      ensures st.Running? == (|old(Rules())| < MAX_RULES && nr >= 0 && 0 <= errcode <= 255)
      ensures Rules() == if st.Running? then old(Rules()) + [Rule(nr, errcode, [])] else old(Rules())
    {
      if index >= MAX_RULES || nr < 0 || errcode < 0 || errcode > 255 { return Bug; }
      errnos[index] := errcode;
      syscalls[index] := nr;
      index := index + 1;
      Grown(Rule(nr, errcode, []));
      return Running;
    }

    method AllowNr1ArgMatch(nr: CInt, arg: CInt, val: CInt) returns (st: Status)
      requires Valid()
      modifies this, syscalls, errnos, args1, vals1
      ensures Valid() && (st.Running? || st.Bug?)
      ensures st.Running? == (|old(Rules())| < MAX_RULES && nr >= 0 && InRange(arg))
      ensures Rules() == if st.Running? then old(Rules()) + [Rule(nr, 0, [Exact(arg, ToWord(val))])] else old(Rules())
    {
      if index >= MAX_RULES || nr < 0 || arg < 1 || arg > 6 { return Bug; }
      args1[index] := arg;
      vals1[index] := val;
      errnos[index] := 0;
      syscalls[index] := nr;
      index := index + 1;
      oneArg := oneArg + 1;
      Grown(Rule(nr, 0, [Exact(arg, ToWord(val))]));
      return Running;
    }

    method AllowNr1ArgMask(nr: CInt, arg: CInt, val: CInt) returns (st: Status)
      requires Valid()
      modifies this, syscalls, errnos, args1, vals1
      ensures Valid() && (st.Running? || st.Bug?)
      ensures st.Running? == (|old(Rules())| < MAX_RULES && nr >= 0 && InRange(arg))
      ensures Rules() == if st.Running? then old(Rules()) + [Rule(nr, 0, [Mask(arg, ToWord(val))])] else old(Rules())
    {
      if index >= MAX_RULES || nr < 0 || arg < 1 || arg > 6 { return Bug; }
      args1[index] := 100 + arg;
      vals1[index] := val;
      errnos[index] := 0;
      syscalls[index] := nr;
      index := index + 1;
      oneArg := oneArg + 1;
      Grown(Rule(nr, 0, [Mask(arg, ToWord(val))]));
      return Running;
    }

    method AllowNr2ArgMatch(nr: CInt, arg1: CInt, val1: CInt, arg2: CInt, val2: CInt) returns (st: Status)
      requires Valid()
      modifies this, syscalls, errnos, args1, vals1, args2, vals2
      ensures Valid() && (st.Running? || st.Bug?)
      ensures st.Running? == (|old(Rules())| < MAX_RULES && nr >= 0 && InRange(arg1) && InRange(arg2))
      ensures Rules() == if st.Running?
                         then old(Rules()) + [Rule(nr, 0, [Exact(arg1, ToWord(val1)), Exact(arg2, ToWord(val2))])]
                         else old(Rules())
    {
      if index >= MAX_RULES || nr < 0 || arg1 < 1 || arg1 > 6 || arg2 < 1 || arg2 > 6 { return Bug; }
      TwoTestsRow(nr, arg1, val1, arg2, val2, vals3[index]);
      hide RuleOf, RowOk, CountShape;
      args1[index] := arg1;
      vals1[index] := val1;
      args2[index] := arg2;
      vals2[index] := val2;
      errnos[index] := 0;
      syscalls[index] := nr;
      index := index + 1;
      twoArg := twoArg + 1;
      Grown(Rule(nr, 0, [Exact(arg1, ToWord(val1)), Exact(arg2, ToWord(val2))]));
      return Running;
    }

    method AllowNr2ArgMaskMatch(nr: CInt, arg1: CInt, val1: CInt, arg2: CInt, val2: CInt) returns (st: Status)
      requires Valid()
      modifies this, syscalls, errnos, args1, vals1, args2, vals2
      ensures Valid() && (st.Running? || st.Bug?)
      ensures st.Running? == (|old(Rules())| < MAX_RULES && nr >= 0 && InRange(arg1) && InRange(arg2))
      ensures Rules() == if st.Running?
                         then old(Rules()) + [Rule(nr, 0, [Mask(arg1, ToWord(val1)), Exact(arg2, ToWord(val2))])]
                         else old(Rules())
    {
      if index >= MAX_RULES || nr < 0 || arg1 < 1 || arg1 > 6 || arg2 < 1 || arg2 > 6 { return Bug; }
      TwoTestsRow(nr, arg1, val1, arg2, val2, vals3[index]);
      hide RuleOf, RowOk, CountShape;
      args1[index] := 100 + arg1;
      vals1[index] := val1;
      args2[index] := arg2;
      vals2[index] := val2;
      errnos[index] := 0;
      syscalls[index] := nr;
      index := index + 1;
      twoArg := twoArg + 1;
      Grown(Rule(nr, 0, [Mask(arg1, ToWord(val1)), Exact(arg2, ToWord(val2))]));
      return Running;
    }

    method AllowNr3ArgMatch(nr: CInt, arg1: CInt, val1: CInt, arg2: CInt, val2: CInt, arg3: CInt, val3: CInt)
        returns (st: Status)
      requires Valid()
      modifies this, syscalls, errnos, args1, vals1, args2, vals2, args3, vals3
      ensures Valid() && (st.Running? || st.Bug?) && st.Running? ==
               (|old(Rules())| < MAX_RULES && nr >= 0 && InRange(arg1) && InRange(arg2) && InRange(arg3))
      ensures Rules() == if st.Running? then old(Rules()) +
                [Rule(nr, 0, [Exact(arg1, ToWord(val1)), Exact(arg2, ToWord(val2)), Exact(arg3, ToWord(val3))])]
              else old(Rules())
    {
      if index >= MAX_RULES || nr < 0 || arg1 < 1 || arg1 > 6 || arg2 < 1 || arg2 > 6 || arg3 < 1 || arg3 > 6 {
        return Bug;
      }
      ThreeTestsRow(nr, arg1, val1, arg2, val2, arg3, val3);
      hide RuleOf, RowOk, CountShape;
      args1[index] := arg1;
      vals1[index] := val1;
      args2[index] := arg2;
      vals2[index] := val2;
      args3[index] := arg3;
      vals3[index] := val3;
      errnos[index] := 0;
      syscalls[index] := nr;
      index := index + 1;
      threeArg := threeArg + 1;
      Grown(Rule(nr, 0, [Exact(arg1, ToWord(val1)), Exact(arg2, ToWord(val2)), Exact(arg3, ToWord(val3))]));
      return Running;
    }

    method Perform(c: Call) returns (st: Status)
      requires Valid()
      modifies this, syscalls, errnos, args1, vals1, args2, vals2, args3, vals3
      ensures Valid() && (st.Running? || st.Bug?)
      ensures st.Running? == (|old(Rules())| < MAX_RULES && CallOk(c))
      ensures Rules() == if st.Running? then old(Rules()) + [RuleFor(c)] else old(Rules())
    {
      match c
      case AllowNr(nr) => st := AllowNr(nr);
      case RejectNr(nr, e) => st := RejectNr(nr, e);
      case Allow1Match(nr, a, v) => st := AllowNr1ArgMatch(nr, a, v);
      case Allow1Mask(nr, a, v) => st := AllowNr1ArgMask(nr, a, v);
      case Allow2Match(nr, a, v, b, w) => st := AllowNr2ArgMatch(nr, a, v, b, w);
      case Allow2MaskMatch(nr, a, v, b, w) => st := AllowNr2ArgMaskMatch(nr, a, v, b, w);
      case Allow3Match(nr, a, v, b, w, e, x) => st := AllowNr3ArgMatch(nr, a, v, b, w, e, x);
    }

    /** A setup function: its calls, one after the other. */
    method Setup(calls: seq<Call>) returns (st: Status)
      requires Valid() && CallsOk(calls)
      modifies this, syscalls, errnos, args1, vals1, args2, vals2, args3, vals3
      ensures Valid() && (st.Running? || st.Bug?)
      ensures st.Running? == (|old(Rules())| + |calls| <= MAX_RULES)
      ensures st.Running? ==> Rules() == old(Rules()) + RulesFor(calls)
    {
      ghost var was := Rules();
      assert RulesFor(calls[..0]) == [];
      for i := 0 to |calls|
        invariant Valid() && Rules() == was + RulesFor(calls[..i])
      {
        RulesForGrows(was, calls, i);
        :- Perform(calls[i]);
      }
      assert calls[..|calls|] == calls;
      return Running;
    }

    /** The emitter of `seccomp_sandbox_lockdown`: the buffer is allocated with the precomputed
        length and `p` walks through it; it ends filled exactly, with the compiled table. */
    method Lockdown() returns (filters: array<Insn>)
      requires Valid()
      ensures fresh(filters) && filters[..] == Compile(Rules())
      ensures Enforces(filters[..], Rules())
    {
      ghost var rules := Rules();
      CompiledIsAccepted(rules);
      var len := index * 2 + oneArg * 3 + twoArg * 5 + threeArg * 7 + 5;
      filters := new Insn[len](_ => Insn(0, 0, 0, 0));
      assert Valid() && Rules() == rules;
      EmitProgram(filters);
      CompiledEnforces(rules);
    }

    method EmitProgram(filters: array<Insn>)
      requires Valid() && filters.Length == |Compile(Rules())|
      modifies filters
      ensures filters[..] == Compile(Rules())
    {
      var p := EmitPrologue(filters);
      p := EmitBlocks(filters, p);
      p := Emit(filters, p, RET_K, 0, 0, 0);
      assert filters[..] == filters[..p];
    }

    /** The emitter's loop over the table. */
    method EmitBlocks(filters: array<Insn>, start: nat) returns (p: nat)
      requires Valid() && start + |Blocks(Rules())| < filters.Length
      modifies filters
      ensures p == start + |Blocks(Rules())|
      ensures filters[..p] == old(filters[..start]) + Blocks(Rules())
    {
      hide Block;
      ghost var rules, front := Rules(), filters[..start];
      p := start;
      var i := 0;
      while i < index
        invariant i <= index && p == start + |Blocks(rules[..i])| < filters.Length
        invariant filters[..p] == front + Blocks(rules[..i])
      {
        PrefixGrows(front, rules, i);
        p := EmitBlock(filters, p, RowAt(i));
        i := i + 1;
      }
      assert rules[..i] == rules;
    }
  }

  // ----- the emitter's pointer, as an index into the buffer

  /** Fill the instruction under the pointer and advance it. */
  method Emit(filters: array<Insn>, p: nat, code: nat, jt: nat, jf: nat, k: Word) returns (next: nat)
    requires p < filters.Length
    modifies filters
    ensures next == p + 1 && filters[..next] == old(filters[..p]) + [Insn(code, jt, jf, k)]
  {
    filters[p] := Insn(code, jt, jf, k);
    next := p + 1;
  }

  method EmitPrologue(filters: array<Insn>) returns (p: nat)
    requires filters.Length >= 4
    modifies filters
    ensures p == 4 && filters[..p] == Prologue()
  {
    p := Emit(filters, 0, LD_W_ABS, 0, 0, 4);
    p := Emit(filters, p, JMP_JEQ_K, 1, 0, 0xc000003e);
    p := Emit(filters, p, RET_K, 0, 0, 0);
    p := Emit(filters, p, LD_W_ABS, 0, 0, 0);
  }

  /** A load of argument `arg` followed by a jump on its value. */
  method EmitTest(filters: array<Insn>, p: nat, arg: CInt, code: nat, jt: nat, jf: nat, val: CInt) returns (next: nat)
    requires p + 1 < filters.Length && InRange(arg)
    modifies filters
    ensures next == p + 2
    ensures filters[..next] == old(filters[..p]) + [Ld(ArgOffset(arg)), Insn(code, jt, jf, ToWord(val))]
  {
    next := Emit(filters, p, LD_W_ABS, 0, 0, 16 + (arg - 1) * 8);
    next := Emit(filters, next, code, jt, jf, ToWord(val));
  }

  /** The tests of a line, in the emitter's order. */
  function TestCode(r: Row): seq<Insn>
    requires RowOk(r)
  {
    var t := RuleOf(r).tests;
    (if |t| > 2 then [LdArg(t[2]), TestJump(t[2], 5)] else []) +
    (if |t| > 1 then [LdArg(t[1]), TestJump(t[1], 3)] else []) +
    (if |t| > 0 then [LdArg(t[0]), FirstTestJump(t[0])] else [])
  }

  method EmitTests(filters: array<Insn>, start: nat, r: Row) returns (p: nat)
    requires RowOk(r) && start + |TestCode(r)| <= filters.Length
    modifies filters
    ensures p == start + |TestCode(r)| && filters[..p] == old(filters[..start]) + TestCode(r)
  {
    p := start;
    if r.arg3 != 0 {
      p := EmitTest(filters, p, r.arg3, JMP_JEQ_K, 0, 5, r.val3);
    }
    if r.arg2 != 0 {
      p := EmitTest(filters, p, r.arg2, JMP_JEQ_K, 0, 3, r.val2);
    }
    if r.arg1 != 0 {
      var arg, code, val, jt, jf := r.arg1, JMP_JEQ_K, r.val1, 0, 1;
      if arg > 100 {
        arg := arg - 100;
        code := JMP_JSET_K;
        val := -1 - val;
        jt := 1;
        jf := 0;
      }
      p := EmitTest(filters, p, arg, code, jt, jf, val);
    }
  }

  /** The body of the emitter's loop for the line `r`. */
  method EmitBlock(filters: array<Insn>, start: nat, r: Row) returns (p: nat)
    requires RowOk(r) && start + |Block(RuleOf(r))| <= filters.Length
    modifies filters
    ensures p == start + |Block(RuleOf(r))|
    ensures filters[..p] == old(filters[..start]) + Block(RuleOf(r))
  {
    BlockParts(r);
    var blockSize := 1;
    if r.arg3 != 0 {
      blockSize := 8;
    } else if r.arg2 != 0 {
      blockSize := 6;
    } else if r.arg1 != 0 {
      blockSize := 4;
    }
    p := Emit(filters, start, JMP_JEQ_K, 0, blockSize, ToWord(r.syscall));
    p := EmitTests(filters, p, r);
    p := Emit(filters, p, RET_K, 0, 0, if r.errno == 0 then 0x7fff0000 else 0x00050000 + r.errno);
    if r.arg1 != 0 {
      p := Emit(filters, p, LD_W_ABS, 0, 0, 0);
    }
    assert filters[..p] == old(filters[..start]) + Block(RuleOf(r));
  }

  lemma BlockParts(r: Row)
    requires RowOk(r)
    ensures var rule := RuleOf(r);
            Block(rule) ==
              [NumberJump(rule)] + TestCode(r) + [Ret(RuleVerdict(rule))] + if r.arg1 != 0 then [Ld(0)] else []
  {
  }

  lemma PrefixGrows(front: seq<Insn>, rules: seq<Rule>, i: nat)
    requires ValidRules(rules) && i < |rules|
    ensures front + Blocks(rules[..i]) + Block(rules[i]) == front + Blocks(rules[..i + 1])
    ensures |Blocks(rules[..i])| + |Block(rules[i])| == |Blocks(rules[..i + 1])| <= |Blocks(rules)|
  {
    Associative(front, Blocks(rules[..i]), Block(rules[i]));
    assert rules[..i + 1] == rules[..i] + [rules[i]];
    BlocksAppend(rules[..i], rules[i]);
    PrefixLength(rules, i + 1);
  }

  lemma {:induction false} PrefixLength(rules: seq<Rule>, i: nat)
    requires ValidRules(rules) && i <= |rules|
    ensures |Blocks(rules[..i])| <= |Blocks(rules)|
  {
    if i > 0 {
      PrefixLength(rules[1..], i - 1);
      assert rules[..i][1..] == rules[1..][..i - 1];
    }
  }

  /** A program the kernel accepts and that gives every record the verdict of the rules. */
  ghost predicate Enforces(prog: seq<Insn>, rules: seq<Rule>)
    requires ValidRules(rules)
  {
    Accepted(prog) &&
    forall d :: Run(prog, d, 0, 0) ==
      Return(if d.arch == AUDIT_ARCH_X86_64 then Verdict(rules, d) else SECCOMP_RET_KILL)
  }

  lemma CompiledEnforces(rules: seq<Rule>)
    requires ValidRules(rules) && |rules| <= MAX_RULES
    ensures Enforces(Compile(rules), rules)
  {
    CompiledIsAccepted(rules);
    forall d ensures Run(Compile(rules), d, 0, 0) ==
              Return(if d.arch == AUDIT_ARCH_X86_64 then Verdict(rules, d) else SECCOMP_RET_KILL) {
      CompilePreservesMeaning(rules, d);
    }
  }
}
