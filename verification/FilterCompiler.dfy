/**
Rules of the sandbox, their first-match meaning, and the translation of a rule table
into a BPF program. The main result is `CompilePreservesMeaning`: running the program
gives the verdict of the first matching rule.
*/
module FilterCompiler {
  import opened Bpf
  import opened Common

  const AUDIT_ARCH_X86_64: Word := 0xc000003e
  const SECCOMP_RET_KILL: Word := 0
  const SECCOMP_RET_ALLOW: Word := 0x7fff0000
  const SECCOMP_RET_ERRNO: Word := 0x00050000
  const MAX_RULES: nat := 100

  /** A condition on one of the six arguments, numbered from 1. */
  datatype Test = Exact(arg: Word, val: Word) | Mask(arg: Word, val: Word)

  /** `errno == 0` allows the call; any other value makes it fail with that error. */
  datatype Rule = Rule(nr: Word, errno: Word, tests: seq<Test>)

  predicate ArgOk(arg: Word) { 1 <= arg <= 6 }

  /** The shapes the table can hold: at most three tests, and only the first may be a mask. */
  predicate ValidRule(r: Rule) {
    |r.tests| <= 3 && r.errno <= 255 &&
    (forall i :: 0 <= i < |r.tests| ==> ArgOk(r.tests[i].arg)) &&
    (forall i :: 1 <= i < |r.tests| ==> r.tests[i].Exact?)
  }

  // ----- meaning of rules, independent of BPF

  /** The low 32 bits of argument `arg`. */
  function ArgLow(d: Record, arg: Word): Word
    requires ArgOk(arg)
  {
    if arg == 1 then d.a1.lo else if arg == 2 then d.a2.lo else if arg == 3 then d.a3.lo
    else if arg == 4 then d.a4.lo else if arg == 5 then d.a5.lo else d.a6.lo
  }

  /** Bit `i` of `x`. */
  predicate Bit(x: nat, i: nat) {
    if i == 0 then x % 2 == 1 else Bit(x / 2, i - 1)
  }

  /** Every one of the low `n` bits that is set in `x` is set in `v`. */
  predicate OnlyBitsOf(x: nat, v: nat, n: nat) {
    forall i :: 0 <= i < n && Bit(x, i) ==> Bit(v, i)
  }

  /** An exact test compares; a mask test demands that no bit outside the mask is set. */
  predicate Holds(t: Test, d: Record)
    requires ArgOk(t.arg)
  {
    match t
    case Exact(a, v) => ArgLow(d, a) == v
    case Mask(a, v) => OnlyBitsOf(ArgLow(d, a), v, 32)
  }

  predicate Matches(r: Rule, d: Record)
    requires ValidRule(r)
  {
    r.nr == d.nr && forall i :: 0 <= i < |r.tests| ==> Holds(r.tests[i], d)
  }

  predicate ValidRules(rules: seq<Rule>) {
    forall i :: 0 <= i < |rules| ==> ValidRule(rules[i])
  }

  function RuleVerdict(r: Rule): Word
    requires ValidRule(r)
  {
    if r.errno == 0 then SECCOMP_RET_ALLOW else SECCOMP_RET_ERRNO + r.errno
  }

  /** `k` is the verdict of the first rule that matches, or kill when none does. */
  ghost predicate IsVerdict(rules: seq<Rule>, d: Record, k: Word)
    requires ValidRules(rules)
  {
    (exists i :: 0 <= i < |rules| && Matches(rules[i], d) && k == RuleVerdict(rules[i]) &&
       forall j :: 0 <= j < i ==> !Matches(rules[j], d)) ||
    (k == SECCOMP_RET_KILL && forall j :: 0 <= j < |rules| ==> !Matches(rules[j], d))
  }

  /** The same, as a left-to-right scan. */
  function Verdict(rules: seq<Rule>, d: Record): Word
    requires ValidRules(rules)
  {
    if rules == [] then SECCOMP_RET_KILL
    else if Matches(rules[0], d) then RuleVerdict(rules[0])
    else Verdict(rules[1..], d)
  }

  lemma {:induction false} VerdictIsFirstMatch(rules: seq<Rule>, d: Record)
    requires ValidRules(rules)
    ensures IsVerdict(rules, d, Verdict(rules, d))
  {
    if rules != [] && !Matches(rules[0], d) {
      var rest := rules[1..];
      VerdictIsFirstMatch(rest, d);
      if exists i :: 0 <= i < |rest| && Matches(rest[i], d) {
        var i :| 0 <= i < |rest| && Matches(rest[i], d) && Verdict(rest, d) == RuleVerdict(rest[i]) &&
                 forall j :: 0 <= j < i ==> !Matches(rest[j], d);
        assert rules[i + 1] == rest[i];
        forall j | 0 <= j < i + 1 ensures !Matches(rules[j], d) {
          if j > 0 { assert rules[j] == rest[j - 1]; }
        }
      } else {
        forall j | 0 <= j < |rules| ensures !Matches(rules[j], d) {
          if j > 0 { assert rules[j] == rest[j - 1]; }
        }
      }
    }
  }

  // ----- translation

  function Ld(k: Word): Insn { Insn(LD_W_ABS, 0, 0, k) }
  function Ret(k: Word): Insn { Insn(RET_K, 0, 0, k) }
  function ArgOffset(arg: Word): Word
    requires ArgOk(arg)
  {
    16 + (arg - 1) * 8
  }

  /** The jump that follows the load of the first tested argument. */
  function FirstTestJump(t: Test): Insn {
    match t
    case Exact(_, v) => Insn(JMP_JEQ_K, 0, 1, v)
    case Mask(_, v) => Insn(JMP_JSET_K, 1, 0, Not(v))
  }

  function BlockSize(tests: nat): nat
    requires tests <= 3
  {
    if tests == 0 then 1 else 2 * tests + 2
  }

  /** Load of the argument named by `t`, for the comparison that follows. */
  function LdArg(t: Test): Insn
    requires ArgOk(t.arg)
  {
    Ld(ArgOffset(t.arg))
  }

  /** Exact comparison for test 3 or 2, which skips `skip` instructions on a mismatch. */
  function TestJump(t: Test, skip: nat): Insn { Insn(JMP_JEQ_K, 0, skip, t.val) }

  function NumberJump(r: Rule): Insn
    requires ValidRule(r)
  {
    Insn(JMP_JEQ_K, 0, BlockSize(|r.tests|), r.nr)
  }

  /** The instructions of one rule: number check, tests in the order 3, 2, 1, the verdict,
      and a reload of the syscall number when the tests have overwritten it. */
  function Block(r: Rule): seq<Insn>
    requires ValidRule(r)
  {
    var t := r.tests;
    if |t| == 0 then [NumberJump(r), Ret(RuleVerdict(r))]
    else if |t| == 1 then
      [NumberJump(r), LdArg(t[0]), FirstTestJump(t[0]), Ret(RuleVerdict(r)), Ld(0)]
    else if |t| == 2 then
      [NumberJump(r), LdArg(t[1]), TestJump(t[1], 3),
       LdArg(t[0]), FirstTestJump(t[0]), Ret(RuleVerdict(r)), Ld(0)]
    else
      [NumberJump(r), LdArg(t[2]), TestJump(t[2], 5), LdArg(t[1]), TestJump(t[1], 3),
       LdArg(t[0]), FirstTestJump(t[0]), Ret(RuleVerdict(r)), Ld(0)]
  }

  function Blocks(rules: seq<Rule>): seq<Insn>
    requires ValidRules(rules)
  {
    if rules == [] then [] else Block(rules[0]) + Blocks(rules[1..])
  }

  function Prologue(): seq<Insn> {
    [Ld(4), Insn(JMP_JEQ_K, 1, 0, AUDIT_ARCH_X86_64), Ret(SECCOMP_RET_KILL), Ld(0)]
  }

  function Compile(rules: seq<Rule>): seq<Insn>
    requires ValidRules(rules)
  {
    Prologue() + Blocks(rules) + [Ret(SECCOMP_RET_KILL)]
  }

  // ----- correctness of one block

  /** The offset computed for an argument addresses its low half. */
  lemma ArgOffsetLoads(d: Record, arg: Word)
    requires ArgOk(arg)
    ensures LoadWord(d, ArgOffset(arg)) == Some(ArgLow(d, arg))
  {
    if arg == 1 { assert ArgOffset(1) == 16; }
    else if arg == 2 { assert ArgOffset(2) == 24; }
    else if arg == 3 { assert ArgOffset(3) == 32; }
    else if arg == 4 { assert ArgOffset(4) == 40; }
    else if arg == 5 { assert ArgOffset(5) == 48; }
    else { assert arg == 6; assert ArgOffset(6) == 56; }
  }

  /** Testing against the complement of a mask finds exactly the bits outside it. */
  lemma MaskAsJset(x: Word, v: Word)
    ensures And(x, Not(v)) == 0 <==> OnlyBitsOf(x, v, 32)
  {
    assert Pow2(8) == 256 && Pow2(16) == 256 * Pow2(8);
    assert Pow2(24) == 256 * Pow2(16) && Pow2(32) == 256 * Pow2(24);
    AndComplement(x, v, 0xffff_ffff - v, 32);
  }

  /** Of two numbers that together have exactly the low `n` bits, the second is the complement. */
  lemma {:induction false} AndComplement(x: nat, v: nat, y: nat, n: nat)
    requires x < Pow2(n) && v + y + 1 == Pow2(n)
    ensures And(x, y) == 0 <==> OnlyBitsOf(x, v, n)
  {
    if n > 0 {
      HalvesOfComplement(v, y);
      HalvesOfAnd(x, y);
      BitsOfHalves(x, v, n);
      hide And, OnlyBitsOf;
      AndComplement(x / 2, v / 2, y / 2, n - 1);
    }
  }

  lemma HalvesOfComplement(v: nat, y: nat)
    requires (v + y) % 2 == 1
    ensures v / 2 + y / 2 == (v + y) / 2 && v % 2 + y % 2 == 1
  {
  }

  lemma HalvesOfAnd(x: nat, y: nat)
    ensures And(x, y) == 0 <==> !(x % 2 == 1 && y % 2 == 1) && And(x / 2, y / 2) == 0
  {
    if x % 2 == 0 || y % 2 == 0 { assert (x % 2) * (y % 2) == 0; }
  }

  function Pow2(n: nat): nat { if n == 0 then 1 else 2 * Pow2(n - 1) }

  lemma BitsOfHalves(x: nat, v: nat, n: nat)
    requires n > 0
    ensures OnlyBitsOf(x, v, n) <==> (x % 2 == 1 ==> v % 2 == 1) && OnlyBitsOf(x / 2, v / 2, n - 1)
  {
    if OnlyBitsOf(x, v, n) {
      assert Bit(x, 0) ==> Bit(v, 0);
      forall i | 0 <= i < n - 1 && Bit(x / 2, i) ensures Bit(v / 2, i) {
        assert Bit(x, i + 1) && Bit(v, i + 1);
      }
    } else {
      var i :| 0 <= i < n && Bit(x, i) && !Bit(v, i);
      if i > 0 { assert Bit(x / 2, i - 1) && !Bit(v / 2, i - 1); }
    }
  }

  /** A load-and-compare pair continues behind itself, or skips, as its test says. */
  lemma TestPairRuns(prog: seq<Insn>, d: Record, pc: nat, acc: Word, t: Test, skip: nat)
    requires ArgOk(t.arg) && t.Exact?
    requires pc + 1 < |prog| && prog[pc] == LdArg(t) && prog[pc + 1] == TestJump(t, skip)
    ensures Run(prog, d, pc, acc) ==
            Run(prog, d, if Holds(t, d) then pc + 2 else pc + 2 + skip, ArgLow(d, t.arg))
  {
    ArgOffsetLoads(d, t.arg);
    assert Run(prog, d, pc, acc) == Run(prog, d, pc + 1, ArgLow(d, t.arg));
  }

  /** First pair, verdict and reload, entered at the first pair or at the reload. */
  lemma TailRuns(prog: seq<Insn>, d: Record, pc: nat, acc: Word, t: Test, k: Word)
    requires ArgOk(t.arg)
    requires pc + 3 < |prog| && prog[pc] == LdArg(t) && prog[pc + 1] == FirstTestJump(t)
    requires prog[pc + 2] == Ret(k) && prog[pc + 3] == Ld(0)
    ensures Run(prog, d, pc, acc) == if Holds(t, d) then Return(k) else Run(prog, d, pc + 4, d.nr)
    ensures Run(prog, d, pc + 3, acc) == Run(prog, d, pc + 4, d.nr)
  {
    var x := ArgLow(d, t.arg);
    ArgOffsetLoads(d, t.arg);
    MaskAsJset(x, t.val);
    assert Run(prog, d, pc, acc) == Run(prog, d, pc + 1, x);
    assert Run(prog, d, pc + 1, x) == Run(prog, d, if Holds(t, d) then pc + 2 else pc + 3, x);
  }

  /** Entered with the syscall number in the accumulator, a block returns its verdict when
      the rule matches and otherwise continues behind itself with the number restored. */
  lemma BlockRuns(prog: seq<Insn>, d: Record, r: Rule)
    requires ValidRule(r) && Block(r) <= prog
    ensures Run(prog, d, 0, d.nr) ==
            if Matches(r, d) then Return(RuleVerdict(r)) else Run(prog, d, |Block(r)|, d.nr)
  {
    var t, k := r.tests, RuleVerdict(r);
    assert forall i :: 0 <= i < |Block(r)| ==> prog[i] == Block(r)[i];
    assert prog[0] == NumberJump(r);
    if r.nr == d.nr {
      assert Run(prog, d, 0, d.nr) == Run(prog, d, 1, d.nr);
      if |t| == 0 {
        assert prog[1] == Ret(k);
      } else if |t| == 1 {
        TailRuns(prog, d, 1, d.nr, t[0], k);
      } else if |t| == 2 {
        TestPairRuns(prog, d, 1, d.nr, t[1], 3);
        TailRuns(prog, d, 3, ArgLow(d, t[1].arg), t[0], k);
      } else {
        TestPairRuns(prog, d, 1, d.nr, t[2], 5);
        TestPairRuns(prog, d, 3, ArgLow(d, t[2].arg), t[1], 3);
        TailRuns(prog, d, 5, ArgLow(d, t[1].arg), t[0], k);
        TailRuns(prog, d, 5, ArgLow(d, t[2].arg), t[0], k);
      }
    }
  }

  // ----- correctness of the whole program

  /** Jumps are relative and forward: code runs the same behind any prefix. */
  lemma {:induction false} RunIsRelative(a: seq<Insn>, b: seq<Insn>, d: Record, pc: nat, acc: Word)
    ensures Run(a + b, d, |a| + pc, acc) == Run(b, d, pc, acc)
    decreases |b| - pc
  {
    if pc < |b| {
      var i := b[pc];
      assert (a + b)[|a| + pc] == i;
      if i.code == LD_W_ABS {
        if LoadWord(d, i.k).Some? { RunIsRelative(a, b, d, pc + 1, LoadWord(d, i.k).value); }
      } else {
        RunIsRelative(a, b, d, pc + 1 + i.jt, acc);
        RunIsRelative(a, b, d, pc + 1 + i.jf, acc);
      }
    }
  }

  /** The blocks of a table, followed by the final kill, compute the verdict of the table. */
  lemma {:induction false} BlocksRun(rules: seq<Rule>, d: Record)
    requires ValidRules(rules)
    ensures Run(Blocks(rules) + [Ret(SECCOMP_RET_KILL)], d, 0, d.nr) == Return(Verdict(rules, d))
  {
    if rules != [] {
      var rest := Blocks(rules[1..]) + [Ret(SECCOMP_RET_KILL)];
      BlocksRun(rules[1..], d);
      BlockRuns(Block(rules[0]) + rest, d, rules[0]);
      RunIsRelative(Block(rules[0]), rest, d, 0, d.nr);
      assert Blocks(rules) + [Ret(SECCOMP_RET_KILL)] == Block(rules[0]) + rest;
    }
  }

  /** Compilation preserves meaning: on a foreign architecture the filter kills, on x86-64
      it returns the verdict of the first matching rule, or kills when none matches. */
  lemma CompilePreservesMeaning(rules: seq<Rule>, d: Record)
    requires ValidRules(rules)
    ensures d.arch != AUDIT_ARCH_X86_64 ==> Run(Compile(rules), d, 0, 0) == Return(SECCOMP_RET_KILL)
    ensures d.arch == AUDIT_ARCH_X86_64 ==>
              Run(Compile(rules), d, 0, 0).Return? && IsVerdict(rules, d, Run(Compile(rules), d, 0, 0).k)
    ensures d.arch == AUDIT_ARCH_X86_64 ==> Run(Compile(rules), d, 0, 0) == Return(Verdict(rules, d))
  {
    var prog := Compile(rules);
    assert prog[0] == Ld(4) && prog[1] == Insn(JMP_JEQ_K, 1, 0, AUDIT_ARCH_X86_64);
    assert prog[2] == Ret(SECCOMP_RET_KILL) && prog[3] == Ld(0);
    assert Run(prog, d, 0, 0) == Run(prog, d, 1, d.arch);
    if d.arch == AUDIT_ARCH_X86_64 {
      assert Run(prog, d, 1, d.arch) == Run(prog, d, 3, d.arch) == Run(prog, d, 4, d.nr);
      var rest := Blocks(rules) + [Ret(SECCOMP_RET_KILL)];
      assert prog == Prologue() + rest;
      RunIsRelative(Prologue(), rest, d, 0, d.nr);
      BlocksRun(rules, d);
      VerdictIsFirstMatch(rules, d);
    } else {
      assert Run(prog, d, 1, d.arch) == Run(prog, d, 2, d.arch);
    }
  }

  // ----- the program is one the kernel accepts

  /** Number of rules with exactly `n` tests. */
  function CountShape(rules: seq<Rule>, n: nat): nat {
    if rules == [] then 0
    else (if |rules[0].tests| == n then 1 else 0) + CountShape(rules[1..], n)
  }

  /** The length formula of the emitter counts the program exactly. */
  lemma {:induction false} BlocksLength(rules: seq<Rule>)
    requires ValidRules(rules)
    ensures |Blocks(rules)| ==
      2 * |rules| + 3 * CountShape(rules, 1) + 5 * CountShape(rules, 2) + 7 * CountShape(rules, 3)
    ensures 2 * |rules| <= |Blocks(rules)| <= 9 * |rules|
  {
    if rules != [] {
      BlocksLength(rules[1..]);
    }
  }

  /** Code whose jumps, at most one instruction past its end, can be followed by anything. */
  ghost predicate Relocatable(code: seq<Insn>) {
    forall i :: 0 <= i < |code| ==>
      var c := code[i];
      (c.code == LD_W_ABS && forall d :: LoadWord(d, c.k).Some?) ||
      ((c.code == JMP_JEQ_K || c.code == JMP_JSET_K) &&
       c.jt < 256 && c.jf < 256 && i + 1 + c.jt <= |code| && i + 1 + c.jf <= |code|) ||
      c.code == RET_K
  }

  lemma RelocatableConcat(a: seq<Insn>, b: seq<Insn>)
    requires Relocatable(a) && Relocatable(b)
    ensures Relocatable(a + b)
  {
    forall i | 0 <= i < |a + b|
      ensures var c := (a + b)[i];
              (c.code == LD_W_ABS && forall d :: LoadWord(d, c.k).Some?) ||
              ((c.code == JMP_JEQ_K || c.code == JMP_JSET_K) && c.jt < 256 && c.jf < 256 &&
               i + 1 + c.jt <= |a + b| && i + 1 + c.jf <= |a + b|) ||
              c.code == RET_K
    {
      if i < |a| { assert (a + b)[i] == a[i]; } else { assert (a + b)[i] == b[i - |a|]; }
    }
  }

  lemma BlockRelocatable(r: Rule)
    requires ValidRule(r)
    ensures Relocatable(Block(r))
  {
    forall d: Record, i | 0 <= i < |r.tests| ensures LoadWord(d, ArgOffset(r.tests[i].arg)).Some? {
      ArgOffsetLoads(d, r.tests[i].arg);
    }
  }

  lemma {:induction false} BlocksRelocatable(rules: seq<Rule>)
    requires ValidRules(rules)
    ensures Relocatable(Blocks(rules))
  {
    if rules != [] {
      BlockRelocatable(rules[0]);
      BlocksRelocatable(rules[1..]);
      RelocatableConcat(Block(rules[0]), Blocks(rules[1..]));
    }
  }

  /** Every table the setup calls can build compiles to a program the kernel accepts: each
      jump lands inside it, each load inside the record, and its length is the one
      precomputed from the four counters and fits the 16-bit length field. */
  lemma CompiledIsAccepted(rules: seq<Rule>)
    requires ValidRules(rules) && |rules| <= MAX_RULES
    ensures Accepted(Compile(rules))
    ensures |Compile(rules)| == 2 * |rules| + 3 * CountShape(rules, 1) + 5 * CountShape(rules, 2) +
                                7 * CountShape(rules, 3) + 5 <= 905
  {
    var front := Prologue() + Blocks(rules);
    BlocksLength(rules);
    BlocksRelocatable(rules);
    assert Relocatable(Prologue());
    RelocatableConcat(Prologue(), Blocks(rules));
    var prog := Compile(rules);
    assert prog == front + [Ret(SECCOMP_RET_KILL)];
    forall pc | 0 <= pc < |prog| ensures InsnAccepted(prog, pc) {
      if pc < |front| { assert prog[pc] == front[pc]; }
    }
  }
}
