/**
The classic BPF machine that runs a seccomp filter: instructions as the kernel's
`struct sock_filter`, the 64-byte syscall record they inspect, an interpreter, and
the checks the kernel makes before it installs a filter.
*/
module Bpf {
  import opened Common

  /** An unsigned 32-bit machine word. */
  type Word = w: int | 0 <= w < 0x1_0000_0000

  /** Bitwise and, bit by bit from the least significant one. */
  function And(x: nat, y: nat): (r: nat)
    ensures r <= x && r <= y
  {
    if x == 0 || y == 0 then 0 else (x % 2) * (y % 2) + 2 * And(x / 2, y / 2)
  }

  /** Bitwise complement of a word. */
  function Not(x: Word): Word { 0xffff_ffff - x }

  /** One `struct sock_filter`: opcode, the two relative jump distances, the operand. */
  datatype Insn = Insn(code: nat, jt: nat, jf: nat, k: Word)

  const LD_W_ABS: nat := 0x20   // BPF_LD+BPF_W+BPF_ABS
  const JMP_JEQ_K: nat := 0x15  // BPF_JMP+BPF_JEQ+BPF_K
  const JMP_JSET_K: nat := 0x45 // BPF_JMP+BPF_JSET+BPF_K
  const RET_K: nat := 0x06      // BPF_RET+BPF_K

  /** A 64-bit field of the syscall record, as its two little-endian halves. */
  datatype Wide = Wide(lo: Word, hi: Word)

  /** `struct seccomp_data`: what a filter can see of one system call. */
  datatype Record = Record(nr: Word, arch: Word, ip: Wide,
                           a1: Wide, a2: Wide, a3: Wide, a4: Wide, a5: Wide, a6: Wide)

  /** The aligned 32-bit load at byte offset `k` of the record. */
  function LoadWord(d: Record, k: Word): Option<Word> {
    if k == 0 then Some(d.nr) else if k == 4 then Some(d.arch)
    else if k == 8 then Some(d.ip.lo) else if k == 12 then Some(d.ip.hi)
    else if k == 16 then Some(d.a1.lo) else if k == 20 then Some(d.a1.hi)
    else if k == 24 then Some(d.a2.lo) else if k == 28 then Some(d.a2.hi)
    else if k == 32 then Some(d.a3.lo) else if k == 36 then Some(d.a3.hi)
    else if k == 40 then Some(d.a4.lo) else if k == 44 then Some(d.a4.hi)
    else if k == 48 then Some(d.a5.lo) else if k == 52 then Some(d.a5.hi)
    else if k == 56 then Some(d.a6.lo) else if k == 60 then Some(d.a6.hi)
    else None
  }

  /** A run ends by returning a value, or faults: a bad opcode, a load outside the
      record, or control leaving the program. */
  datatype Outcome = Return(k: Word) | Fault

  function Run(prog: seq<Insn>, d: Record, pc: nat, acc: Word): Outcome
    decreases |prog| - pc
  {
    if pc >= |prog| then Fault
    else
      var i := prog[pc];
      if i.code == LD_W_ABS then
        match LoadWord(d, i.k)
        case Some(w) => Run(prog, d, pc + 1, w)
        case None => Fault
      else if i.code == JMP_JEQ_K then
        Run(prog, d, pc + 1 + (if acc == i.k then i.jt else i.jf), acc)
      else if i.code == JMP_JSET_K then
        Run(prog, d, pc + 1 + (if And(acc, i.k) != 0 then i.jt else i.jf), acc)
      else if i.code == RET_K then Return(i.k)
      else Fault
  }

  /** The kernel's conditions on the instruction at `pc`: loads are aligned and inside
      the record, jump distances fit their byte and land inside the program. */
  ghost predicate InsnAccepted(prog: seq<Insn>, pc: nat)
    requires pc < |prog|
  {
    var i := prog[pc];
    (i.code == LD_W_ABS && forall d :: LoadWord(d, i.k).Some?) ||
    ((i.code == JMP_JEQ_K || i.code == JMP_JSET_K) &&
     i.jt < 256 && i.jf < 256 && pc + 1 + i.jt < |prog| && pc + 1 + i.jf < |prog|) ||
    i.code == RET_K
  }

  /** What the kernel demands before it installs a filter: a non-empty program of at most
      BPF_MAXINSNS instructions, each accepted, ending in a return. */
  ghost predicate Accepted(prog: seq<Insn>) {
    0 < |prog| <= 4096 && prog[|prog| - 1].code == RET_K &&
    forall pc :: 0 <= pc < |prog| ==> InsnAccepted(prog, pc)
  }

  /** An accepted program returns on every record, whatever the accumulator holds. */
  lemma {:induction false} AcceptedReturns(prog: seq<Insn>, d: Record, pc: nat, acc: Word)
    requires Accepted(prog) && pc < |prog|
    ensures Run(prog, d, pc, acc).Return?
    decreases |prog| - pc
  {
    var i := prog[pc];
    assert InsnAccepted(prog, pc);
    if i.code == LD_W_ABS {
      assert pc != |prog| - 1;
      AcceptedReturns(prog, d, pc + 1, LoadWord(d, i.k).value);
    } else if i.code == JMP_JEQ_K {
      AcceptedReturns(prog, d, pc + 1 + (if acc == i.k then i.jt else i.jf), acc);
    } else if i.code == JMP_JSET_K {
      AcceptedReturns(prog, d, pc + 1 + (if And(acc, i.k) != 0 then i.jt else i.jf), acc);
    }
  }
}
