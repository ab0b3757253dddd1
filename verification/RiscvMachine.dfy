/**
 The RISC-V instructions found in exit regions, links and translation entries, with their execution on 64-bit
 registers (RISC-V Unprivileged ISA 20191213, sections 2.4, 2.5 and 5.2), and the small code sequences built from
 them in `arch/riscv/scanner_riscv.c`. Memory holds doublewords, one per address in use on the stack. A constant
 load stands for the sequence of `riscv_copy_to_reg`.
 */
module RiscvMachine {
  import opened Arith

  const S1: Reg := 9
  const SP: Reg := 2
  const A0: Reg := 10
  const A1: Reg := 11

  type Word = x: int | 0 <= x < M64
  type Reg = r: int | 0 <= r < 32
  type Imm20 = x: int | 0 <= x < 0x10_0000
  type Imm12 = x: int | 0 <= x < 4096
  type Pos = x: int | x > 0 witness 1
  type Regs = r: seq<Word> | |r| == 32 && r[0] == 0 witness seq(32, _ => 0)

  datatype Cond = Eq | Ne | Lt | Ge | Ltu | Geu

  function Signed(x: Word): int {
    if x < M64 / 2 then x else x - M64
  }

  predicate Holds(c: Cond, x: Word, y: Word) {
    match c
    case Eq => x == y
    case Ne => x != y
    case Lt => Signed(x) < Signed(y)
    case Ge => Signed(x) >= Signed(y)
    case Ltu => x < y
    case Geu => x >= y
  }

  /** `invert_cond`: the lowest bit of the function code. */
  function Invert(c: Cond): Cond {
    match c
    case Eq => Ne
    case Ne => Eq
    case Lt => Ge
    case Ge => Lt
    case Ltu => Geu
    case Geu => Ltu
  }

  lemma InvertHolds(c: Cond, x: Word, y: Word)
    ensures Holds(Invert(c), x, y) <==> !Holds(c, x, y)
    ensures Invert(Invert(c)) == c
  {
  }

  /** Offsets are in bytes; `upper` and `lower` are the 20-bit and 12-bit fields of AUIPC and JALR. */
  datatype Instr =
    | Addi(rd: Reg, rs: Reg, imm: int)
    | Branch(cond: Cond, rs1: Reg, rs2: Reg, offset: int)
    | Jal(offset: int)
    | Sd(rs: Reg, offset: int)
    | CLdsp(rd: Reg, offset: int)
    | CAddi16sp(imm: int)
    | Auipc(rd: Reg, upper: Imm20)
    | Jalr(rs: Reg, lower: Imm12)
    | Load(rd: Reg, value: Word, size: Pos)

  const NOP: Instr := Addi(0, 0, 0)

  function Size(i: Instr): Pos {
    match i
    case CLdsp(_, _) => 2
    case CAddi16sp(_) => 2
    case Load(_, _, size) => size
    case _ => 4
  }

  datatype Machine = Machine(pc: int, regs: Regs, mem: map<Word, Word>)

  function Wrap(x: int): Word {
    x % M64
  }

  function Set(regs: Regs, rd: Reg, v: Word): Regs {
    if rd == 0 then regs else regs[rd := v]
  }

  function Read(mem: map<Word, Word>, a: Word): Word {
    if a in mem then mem[a] else 0
  }

  function SextUpper(upper: Imm20): int {
    (if upper < 0x8_0000 then upper else upper - 0x10_0000) * 4096
  }

  function SextLower(lower: Imm12): int {
    if lower < 2048 then lower else lower - 4096
  }

  /** One instruction. */
  function Do(i: Instr, m: Machine): Machine {
    var r, next := m.regs, m.pc + Size(i);
    match i
    case Addi(rd, rs, imm) => m.(pc := next, regs := Set(r, rd, Wrap(r[rs] + imm)))
    case Branch(c, rs1, rs2, offset) => m.(pc := if Holds(c, r[rs1], r[rs2]) then m.pc + offset else next)
    case Jal(offset) => m.(pc := m.pc + offset)
    case Sd(rs, offset) => m.(pc := next, mem := m.mem[Wrap(r[SP] + offset) := r[rs]])
    case CLdsp(rd, offset) => m.(pc := next, regs := Set(r, rd, Read(m.mem, Wrap(r[SP] + offset))))
    case CAddi16sp(imm) => m.(pc := next, regs := Set(r, SP, Wrap(r[SP] + imm)))
    case Auipc(rd, upper) => m.(pc := next, regs := Set(r, rd, Wrap(m.pc + SextUpper(upper))))
    case Jalr(rs, lower) => m.(pc := Wrap(r[rs] + SextLower(lower)) / 2 * 2)
    case Load(rd, value, _) => m.(pc := next, regs := Set(r, rd, value))
  }

  type Code = map<int, Instr>

  function Step(code: Code, m: Machine): Machine {
    if m.pc in code then Do(code[m.pc], m) else m
  }

  function Run(code: Code, m: Machine, n: nat): Machine
    decreases n
  {
    if n == 0 then m else Run(code, Step(code, m), n - 1)
  }

  ghost predicate Reaches(code: Code, m: Machine, m': Machine) {
    exists n: nat :: Run(code, m, n) == m'
  }

  lemma {:induction false} RunAdd(code: Code, m: Machine, a: nat, b: nat)
    ensures Run(code, m, a + b) == Run(code, Run(code, m, a), b)
    decreases a
  {
    if a > 0 { RunAdd(code, Step(code, m), a - 1, b); }
  }

  lemma ReachesTrans(code: Code, a: Machine, b: Machine, c: Machine)
    requires Reaches(code, a, b) && Reaches(code, b, c)
    ensures Reaches(code, a, c)
  {
    var i: nat :| Run(code, a, i) == b;
    var j: nat :| Run(code, b, j) == c;
    RunAdd(code, a, i, j);
  }

  lemma ReachesStep(code: Code, a: Machine, c: Machine)
    requires a.pc in code && Reaches(code, Do(code[a.pc], a), c)
    ensures Reaches(code, a, c)
  {
    var b := Do(code[a.pc], a);
    assert Run(code, a, 1) == Run(code, b, 0);
    ReachesTrans(code, a, b, c);
  }

  lemma ReachesSelf(code: Code, a: Machine)
    ensures Reaches(code, a, a)
  {
    assert Run(code, a, 0) == a;
  }

  // ---------- Straight-line code ----------

  predicate Straight(i: Instr) {
    !i.Branch? && !i.Jal? && !i.Jalr?
  }

  function Length(code: seq<Instr>): nat {
    if code == [] then 0 else Size(code[0]) + Length(code[1..])
  }

  /** The instructions `s` stand one after the other from address `at` on. */
  predicate Laid(code: Code, at: int, s: seq<Instr>)
    decreases |s|
  {
    s == [] || (at in code && code[at] == s[0] && Laid(code, at + Size(s[0]), s[1..]))
  }

  /** Writing them there. */
  function Emit(code: Code, at: int, s: seq<Instr>): Code
    decreases |s|
  {
    if s == [] then code else Emit(code[at := s[0]], at + Size(s[0]), s[1..])
  }

  function Effect(s: seq<Instr>, m: Machine): Machine {
    if s == [] then m else Effect(s[1..], Do(s[0], m))
  }

  lemma {:induction false} RunStraight(code: Code, m: Machine, s: seq<Instr>)
    requires Laid(code, m.pc, s) && forall i | i in s :: Straight(i)
    ensures Reaches(code, m, Effect(s, m)) && Effect(s, m).pc == m.pc + Length(s)
    decreases |s|
  {
    if s == [] {
      ReachesSelf(code, m);
    } else {
      assert Straight(s[0]);
      RunStraight(code, Do(s[0], m), s[1..]);
      ReachesStep(code, m, Effect(s, m));
    }
  }

  lemma {:induction false} EmitFrame(code: Code, at: int, s: seq<Instr>, a: int)
    requires a < at || a >= at + Length(s)
    ensures (a in Emit(code, at, s) <==> a in code) && (a in code ==> Emit(code, at, s)[a] == code[a])
    decreases |s|
  {
    if s != [] { EmitFrame(code[at := s[0]], at + Size(s[0]), s[1..], a); }
  }

  lemma {:induction false} EmitLaid(code: Code, at: int, s: seq<Instr>)
    ensures Laid(Emit(code, at, s), at, s)
    decreases |s|
  {
    if s != [] {
      EmitLaid(code[at := s[0]], at + Size(s[0]), s[1..]);
      EmitFrame(code[at := s[0]], at + Size(s[0]), s[1..], at);
    }
  }

  /** What is laid only depends on the bytes it occupies. */
  lemma {:induction false} LaidFrame(code: Code, code': Code, at: int, s: seq<Instr>)
    requires Laid(code, at, s)
    requires forall a | at <= a < at + Length(s) && a in code :: a in code' && code'[a] == code[a]
    ensures Laid(code', at, s)
    decreases |s|
  {
    if s != [] { LaidFrame(code, code', at + Size(s[0]), s[1..]); }
  }

  lemma {:induction false} LaidSplit(code: Code, at: int, s: seq<Instr>, t: seq<Instr>)
    ensures Laid(code, at, s + t) <==> Laid(code, at, s) && Laid(code, at + Length(s), t)
    ensures Length(s + t) == Length(s) + Length(t)
    decreases |s|
  {
    if s == [] {
      assert s + t == t;
    } else {
      assert (s + t)[1..] == s[1..] + t;
      LaidSplit(code, at + Size(s[0]), s[1..], t);
    }
  }

  // ---------- Immediates ----------

  /** `riscv_jalr_helper`: the fields of AUIPC and JALR for a distance. */
  function Upper(offset: int): Imm20 {
    (offset + 0x800) / 4096 % 0x10_0000
  }

  function Lower(offset: int): Imm12 {
    offset % 4096
  }

  function FarJump(reg: Reg, offset: int): seq<Instr> {
    [Auipc(reg, Upper(offset)), Jalr(reg, Lower(offset))]
  }

  /** The two fields add up to the distance up to 2^31 - 0x801 and are off by 2^32 for the rest of the accepted range. */
  lemma SplitExact(offset: int)
    requires -0x8000_0000 <= offset < 0x8000_0000
    ensures SextUpper(Upper(offset)) + SextLower(Lower(offset)) ==
            if offset <= 0x8000_0000 - 0x801 then offset else offset - 0x1_0000_0000
  {
    var q := (offset + 0x800) / 4096;
    assert -0x8_0000 <= q <= 0x8_0000;
    assert offset == q * 4096 + SextLower(Lower(offset));
    assert Upper(offset) == if q < 0 then q + 0x10_0000 else q;
  }

  lemma WrapWrap(x: int, d: int)
    ensures Wrap(Wrap(x) + d) == Wrap(x + d)
  {
    var q := x / M64;
    assert x == q * M64 + Wrap(x);
    assert x + d == q * M64 + (Wrap(x) + d);
    WrapShift(Wrap(x) + d, q);
  }

  lemma WrapShift(x: int, q: int)
    ensures Wrap(q * M64 + x) == Wrap(x)
  {
    var p, r := x / M64, Wrap(x);
    assert q * M64 + x == (q + p) * M64 + r;
  }

  /** The pair jumps to the requested address exactly up to that distance. */
  lemma FarJumpExactIff(code: Code, m: Machine, reg: Reg, offset: int)
    requires 0 < reg && Laid(code, m.pc, FarJump(reg, offset)) && -0x8000_0000 <= offset < 0x8000_0000
    requires 0 <= m.pc + offset < M64 && (m.pc + offset) % 2 == 0
    ensures var m' := m.(pc := Run(code, m, 2).pc, regs := Run(code, m, 2).regs);
            && Run(code, m, 2) == m' && (forall r | 0 <= r < 32 && r != reg :: m'.regs[r] == m.regs[r])
            && (m'.pc == m.pc + offset <==> offset <= 0x8000_0000 - 0x801)
  {
    var s := FarJump(reg, offset);
    var a := Do(s[0], m);
    var b := Do(s[1], a);
    assert Laid(code, m.pc + 4, s[1..]);
    assert Run(code, m, 2) == Run(code, a, 1) == Run(code, b, 0);
    SplitExact(offset);
    WrapWrap(m.pc + SextUpper(Upper(offset)), SextLower(Lower(offset)));
    SmallWrap(m.pc + offset);
    WrapFar(m.pc + offset);
  }

  /** The largest even distance that is accepted ends 4 GiB too low. */
  lemma FarJumpMisses()
    ensures var code, m := Emit(map[], 0, FarJump(1, 0x7FFF_FFFE)), Machine(0, seq(32, _ => 0), map[]);
            Run(code, m, 2).pc == M64 + 0x7FFF_FFFE - 0x1_0000_0000
  {
    var code, m := Emit(map[], 0, FarJump(1, 0x7FFF_FFFE)), Machine(0, seq(32, _ => 0), map[]);
    var s := FarJump(1, 0x7FFF_FFFE);
    assert s[1..] == [s[1]] && s[1..][1..] == [];
    assert code == map[0 := s[0], 4 := s[1]];
    var a := Do(s[0], m);
    assert Run(code, m, 2) == Run(code, a, 1) == Run(code, Do(s[1], a), 0);
  }

  lemma SmallWrap(x: int)
    requires 0 <= x < M64
    ensures Wrap(x) == x
  {
  }

  lemma WrapFar(x: int)
    requires 0 <= x < M64
    ensures Wrap(x - 0x1_0000_0000) / 2 * 2 != x
  {
    if x < 0x1_0000_0000 { WrapShift(x - 0x1_0000_0000 + M64, -1); }
  }

  // ---------- Straight code in pieces ----------

  lemma {:induction false} EffectAdd(s: seq<Instr>, t: seq<Instr>, m: Machine)
    ensures Effect(s + t, m) == Effect(t, Effect(s, m))
    decreases |s|
  {
    if s == [] {
      assert s + t == t;
    } else {
      assert (s + t)[1..] == s[1..] + t;
      EffectAdd(s[1..], t, Do(s[0], m));
    }
  }

  lemma Single(i: Instr, m: Machine)
    ensures Effect([i], m) == Do(i, m) && Length([i]) == Size(i)
  {
    assert [i][1..] == [];
  }

  lemma LaidTwo(code: Code, at: int, i: Instr, j: Instr)
    ensures Laid(code, at, [i, j]) <==> at in code && code[at] == i && at + Size(i) in code && code[at + Size(i)] == j
    ensures Length([i, j]) == Size(i) + Size(j)
  {
    assert [i, j][1..] == [j] && [j][1..] == [];
    assert Laid(code, at + Size(i), [j]) <==> at + Size(i) in code && code[at + Size(i)] == j;
    assert Length([j]) == Size(j);
  }

  lemma WrapDistinct(x: int, d: int)
    requires 0 < d < M64
    ensures Wrap(x) != Wrap(x + d)
  {
    WrapWrap(x, d);
    var w := Wrap(x);
    if w + d >= M64 {
      WrapShift(w + d - M64, 1);
      SmallWrap(w + d - M64);
    } else {
      SmallWrap(w + d);
    }
  }

  // ---------- Saving and restoring registers ----------

  /** `riscv_push` of a0 and a1, and the `riscv_restore_context` at the start of every translation. */
  const PUSH: seq<Instr> := [Addi(SP, SP, -16), Sd(A0, 0), Sd(A1, 8)]
  const POP: seq<Instr> := [CLdsp(A0, 0), CLdsp(A1, 8), CAddi16sp(16)]

  /** `riscv_save_context`. */
  const SAVE: seq<Instr> := [Addi(SP, SP, -24), Sd(S1, 0), Sd(A0, 8), Sd(A1, 16)]

  /** The address `n` bytes below the stack pointer. */
  function Below(regs: Regs, n: int): Word {
    var sp: int := regs[SP];
    Wrap(sp - n)
  }

  /** Only the three doublewords below the stack pointer may differ. */
  ghost predicate SameAbove(mem: map<Word, Word>, mem': map<Word, Word>, regs: Regs) {
    forall a: Word | a != Below(regs, 8) && a != Below(regs, 16) && a != Below(regs, 24) ::
      (a in mem <==> a in mem') && (a in mem ==> mem[a] == mem'[a])
  }

  lemma Effect3(i: Instr, j: Instr, k: Instr, m: Machine)
    ensures Effect([i, j, k], m) == Do(k, Do(j, Do(i, m))) && Length([i, j, k]) == Size(i) + Size(j) + Size(k)
  {
    assert [i, j, k][1..] == [j, k] && [j, k][1..] == [k];
    Single(k, Do(j, Do(i, m)));
  }

  lemma PushEffect(m: Machine)
    ensures var r := Effect(PUSH, m);
            && r.pc == m.pc + 12 && r.regs == m.regs[SP := Below(m.regs, 16)]
            && Read(r.mem, Below(m.regs, 16)) == m.regs[A0] && Read(r.mem, Below(m.regs, 8)) == m.regs[A1]
            && SameAbove(m.mem, r.mem, m.regs)
    ensures Length(PUSH) == 12
  {
    var sp: int := m.regs[SP];
    Effect3(PUSH[0], PUSH[1], PUSH[2], m);
    WrapWrap(sp - 16, 0);
    WrapWrap(sp - 16, 8);
    WrapDistinct(sp - 16, 8);
  }

  /** Popping what was pushed gives back both registers and the stack pointer, whatever a0 and a1 held in between. */
  lemma PopEffect(m: Machine, regs: Regs)
    requires m.regs[SP] == Below(regs, 16) && Read(m.mem, Below(regs, 16)) == regs[A0] && Read(m.mem, Below(regs, 8)) == regs[A1]
    requires forall r | 0 <= r < 32 && r != SP && r != A0 && r != A1 :: m.regs[r] == regs[r]
    ensures Effect(POP, m) == m.(pc := m.pc + 6, regs := regs)
  {
    var sp: int := regs[SP];
    Effect3(POP[0], POP[1], POP[2], m);
    WrapWrap(sp - 16, 0);
    WrapWrap(sp - 16, 8);
    WrapWrap(sp - 16, 16);
    SmallWrap(sp);
    assert Effect(POP, m).regs == regs;
  }

  lemma SaveEffect(m: Machine)
    ensures var r := Effect(SAVE, m);
            && r.pc == m.pc + 16 && r.regs == m.regs[SP := Below(m.regs, 24)]
            && Read(r.mem, Below(m.regs, 24)) == m.regs[S1] && Read(r.mem, Below(m.regs, 16)) == m.regs[A0]
            && Read(r.mem, Below(m.regs, 8)) == m.regs[A1] && SameAbove(m.mem, r.mem, m.regs)
    ensures Length(SAVE) == 16
  {
    var sp: int := m.regs[SP];
    assert SAVE == [SAVE[0]] + [SAVE[1], SAVE[2], SAVE[3]];
    EffectAdd([SAVE[0]], [SAVE[1], SAVE[2], SAVE[3]], m);
    Single(SAVE[0], m);
    Effect3(SAVE[1], SAVE[2], SAVE[3], Do(SAVE[0], m));
    LaidSplit(map[], 0, [SAVE[0]], [SAVE[1], SAVE[2], SAVE[3]]);
    WrapWrap(sp - 24, 0);
    WrapWrap(sp - 24, 8);
    WrapWrap(sp - 24, 16);
    WrapDistinct(sp - 24, 8);
    WrapDistinct(sp - 16, 8);
    WrapDistinct(sp - 24, 16);
  }
}
