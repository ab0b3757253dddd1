/**
 Exit code of RISC-V fragments as it executes: the dispatcher calls emitted by `riscv_cond_branch` and `riscv_jump`
 (`arch/riscv/scanner_riscv.c`) and the three forms of link written by `riscv_link_to`
 (`arch/riscv/dispatcher_riscv.c`).
 */
module RiscvExits {
  import opened Arith
  import opened RiscvMachine
  import RiscvConstants

  /** The exit of a block. `at` is `exit_branch_addr`; `bb` is the block's id. */
  datatype Exit =
    | BranchExit(at: int, bb: Word, cond: Cond, rs1: Reg, rs2: Reg, taken: Word, skipped: Word)
    | JumpExit(at: int, bb: Word, taken: Word)

  /** The guest address control goes to. */
  function Successor(x: Exit, regs: Regs): Word {
    match x
    case BranchExit(_, _, cond, rs1, rs2, taken, skipped) => if Holds(cond, regs[rs1], regs[rs2]) then taken else skipped
    case JumpExit(_, _, taken) => taken
  }

  /** Within reach of every AUIPC/JALR pair in an exit region. */
  predicate Near(from: int, target: int) {
    -0x7000_0000 <= target - from <= 0x7000_0000 && 0 <= target < M64 && target % 2 == 0
  }

  // ---------- Calling the dispatcher ----------

  function LoadOf(rd: Reg, v: Word): Instr {
    RiscvConstants.CopySizePositive(v);
    Load(rd, v, RiscvConstants.CopySize(v))
  }

  lemma LoadSmall(rd: Reg, v: Word)
    ensures Size(LoadOf(rd, v)) <= 26
  {
    RiscvConstants.CopySizeBound(v);
  }

  /** An emitted instruction of a constant, on the machine. */
  function DoPart(i: RiscvConstants.Instr, rd: Reg, m: Machine): Machine {
    m.(pc := m.pc + RiscvConstants.Size(i), regs := Set(m.regs, rd, Wrap(RiscvConstants.Step(i, m.regs[rd]))))
  }

  function RunParts(s: seq<RiscvConstants.Instr>, rd: Reg, m: Machine): Machine {
    if s == [] then m else DoPart(s[|s| - 1], rd, RunParts(s[..|s| - 1], rd, m))
  }

  lemma {:induction false} PartsEffect(s: seq<RiscvConstants.Instr>, rd: Reg, m: Machine)
    requires rd != 0
    ensures RiscvConstants.Run(s, m.regs[rd]) < M64
    ensures RunParts(s, rd, m) == m.(pc := m.pc + RiscvConstants.TotalSize(s), regs := m.regs[rd := RiscvConstants.Run(s,
            m.regs[rd])])
  {
    if s == [] {
      assert m.regs[rd := m.regs[rd]] == m.regs;
    } else {
      PartsEffect(s[..|s| - 1], rd, m);
      StepIsWord(s[|s| - 1], RiscvConstants.Run(s[..|s| - 1], m.regs[rd]));
    }
  }

  lemma StepIsWord(i: RiscvConstants.Instr, reg: nat)
    ensures RiscvConstants.Step(i, reg) < M64
  {
  }

  /** The one instruction that stands for a constant does what the emitted sequence does, and is as long. */
  lemma LoadRefines(rd: Reg, v: Word, m: Machine)
    requires rd != 0
    ensures RunParts(RiscvConstants.Emit64(v), rd, m) == Do(LoadOf(rd, v), m)
  {
    PartsEffect(RiscvConstants.Emit64(v), rd, m);
    RiscvConstants.RunEmit64(v, m.regs[rd]);
  }

  /** What remains to be done in one arm once `done` instructions of save, load a1, load a0 were executed. */
  function Prepare(bb: Word, spc: Word): seq<Instr> {
    SAVE + [LoadOf(A1, bb), LoadOf(A0, spc)]
  }

  /** How much of it precedes the branch: nothing if sp is compared, not the load of a1 if a1 is. */
  function Early(x: Exit): nat
    requires x.BranchExit?
  {
    if x.rs1 == SP || x.rs2 == SP then 0 else if x.rs1 == A1 || x.rs2 == A1 then 4 else 5
  }

  /** What precedes the branch, and what follows it in the arm for `spc`. */
  function Head(x: Exit): seq<Instr>
    requires x.BranchExit?
  {
    Prepare(x.bb, x.skipped)[..Early(x)]
  }

  function Arm(x: Exit, spc: Word): seq<Instr>
    requires x.BranchExit?
  {
    Prepare(x.bb, spc)[Early(x)..]
  }

  /** Where the pieces of the dispatcher code of a branch exit start, six NOPs behind the exit address. */
  function BranchAt(x: Exit): int
    requires x.BranchExit?
  {
    x.at + 24 + Length(Head(x))
  }

  function TakenAt(x: Exit): int
    requires x.BranchExit?
  {
    BranchAt(x) + 4 + Length(Arm(x, x.skipped)) + 8
  }

  /** One arm at `at`, ending in the jump to the dispatcher. */
  predicate ArmLaid(code: Code, at: int, arm: seq<Instr>, dispatcher: int) {
    var jump := at + Length(arm);
    Laid(code, at, arm) && Laid(code, jump, FarJump(S1, dispatcher - jump))
  }

  /** The dispatcher code is in place. */
  predicate Intact(code: Code, x: Exit, dispatcher: int) {
    match x
    case BranchExit(at, bb, cond, rs1, rs2, taken, skipped) =>
      var branch := BranchAt(x);
      && Laid(code, at + 24, Head(x))
      && Laid(code, branch, [Branch(cond, rs1, rs2, TakenAt(x) - branch)])
      && ArmLaid(code, branch + 4, Arm(x, skipped), dispatcher)
      && ArmLaid(code, TakenAt(x), Arm(x, taken), dispatcher)
    case JumpExit(at, bb, taken) => ArmLaid(code, at, SAVE + [LoadOf(A0, taken), LoadOf(A1, bb)], dispatcher)
  }

  /**
   The dispatcher is entered with the block and the wanted address in a1 and a0, the old values of s1, a0 and a1 on
   the stack, and everything else as it was.
   */
  predicate IsCall(m: Machine, r: Machine, bb: Word, spc: Word) {
    && r.regs[A0] == spc && r.regs[A1] == bb && r.regs[SP] == Below(m.regs, 24)
    && (forall k | 0 <= k < 32 && k != S1 && k != A0 && k != A1 && k != SP :: r.regs[k] == m.regs[k])
    && Read(r.mem, Below(m.regs, 24)) == m.regs[S1] && Read(r.mem, Below(m.regs, 16)) == m.regs[A0]
    && Read(r.mem, Below(m.regs, 8)) == m.regs[A1]
  }

  ghost predicate CallsDispatcher(code: Code, m: Machine, dispatcher: int, bb: Word, spc: Word) {
    exists r :: Reaches(code, m, r) && r.pc == dispatcher && IsCall(m, r, bb, spc) && SameAbove(m.mem, r.mem, m.regs)
  }

  /** Control arrives at `pc` with every register unchanged. */
  ghost predicate ArrivesAt(code: Code, m: Machine, pc: int) {
    exists r :: Reaches(code, m, r) && r.pc == pc && r.regs == m.regs && SameAbove(m.mem, r.mem, m.regs)
  }

  /** The state before the jump to the dispatcher, in either order of the two loads. */
  predicate Prepared(m: Machine, r: Machine, bb: Word, spc: Word) {
    r.regs == m.regs[SP := Below(m.regs, 24)][A1 := bb][A0 := spc] && r.mem == Effect(SAVE, m).mem
  }

  lemma Effect2(i: Instr, j: Instr, m: Machine)
    ensures Effect([i, j], m) == Do(j, Do(i, m)) && Length([i, j]) == Size(i) + Size(j)
  {
    assert [i, j] == [i] + [j];
    EffectAdd([i], [j], m);
    Single(i, m);
    Single(j, Do(i, m));
    LaidTwo(map[], 0, i, j);
  }

  lemma PreparedEffect(m: Machine, bb: Word, spc: Word)
    ensures Prepared(m, Effect(Prepare(bb, spc), m), bb, spc)
    ensures Prepared(m, Effect(SAVE + [LoadOf(A0, spc), LoadOf(A1, bb)], m), bb, spc)
  {
    SaveEffect(m);
    var s := Effect(SAVE, m);
    EffectAdd(SAVE, [LoadOf(A1, bb), LoadOf(A0, spc)], m);
    EffectAdd(SAVE, [LoadOf(A0, spc), LoadOf(A1, bb)], m);
    Effect2(LoadOf(A1, bb), LoadOf(A0, spc), s);
    Effect2(LoadOf(A0, spc), LoadOf(A1, bb), s);
    assert s.regs[A1 := bb][A0 := spc] == s.regs[A0 := spc][A1 := bb];
  }

  lemma PrepareLength(bb: Word, spc: Word)
    ensures |Prepare(bb, spc)| == 6 && Length(Prepare(bb, spc)) <= 68
    ensures Length(SAVE + [LoadOf(A0, spc), LoadOf(A1, bb)]) <= 68
    ensures forall i | i in Prepare(bb, spc) :: Straight(i)
    ensures forall i | i in SAVE + [LoadOf(A0, spc), LoadOf(A1, bb)] :: Straight(i)
  {
    LoadSmall(A1, bb);
    LoadSmall(A0, spc);
    LaidSplit(map[], 0, SAVE, [LoadOf(A1, bb), LoadOf(A0, spc)]);
    LaidSplit(map[], 0, SAVE, [LoadOf(A0, spc), LoadOf(A1, bb)]);
    LaidTwo(map[], 0, LoadOf(A1, bb), LoadOf(A0, spc));
    LaidTwo(map[], 0, LoadOf(A0, spc), LoadOf(A1, bb));
    SaveEffect(Machine(0, seq(32, _ => 0), map[]));
  }

  /** The last two instructions of an arm. */
  lemma JumpToDispatcher(code: Code, m: Machine, a: Machine, dispatcher: int, bb: Word, spc: Word)
    requires Prepared(m, a, bb, spc) && Reaches(code, m, a)
    requires Laid(code, a.pc, FarJump(S1, dispatcher - a.pc)) && 0 <= dispatcher < M64 && dispatcher % 2 == 0
    requires -0x8000_0000 <= dispatcher - a.pc <= 0x8000_0000 - 0x801
    ensures CallsDispatcher(code, m, dispatcher, bb, spc)
  {
    FarJumpExactIff(code, a, S1, dispatcher - a.pc);
    var r := Run(code, a, 2);
    assert Reaches(code, a, r);
    ReachesTrans(code, m, a, r);
    SaveEffect(m);
    assert IsCall(m, r, bb, spc);
  }

  /** Straight code followed by the jump to the dispatcher. */
  lemma ArmCalls(code: Code, m: Machine, a: Machine, arm: seq<Instr>, dispatcher: int, bb: Word, spc: Word)
    requires Reaches(code, m, a) && ArmLaid(code, a.pc, arm, dispatcher) && forall i | i in arm :: Straight(i)
    requires Prepared(m, Effect(arm, a), bb, spc)
    requires -0x7800_0000 <= dispatcher - a.pc <= 0x7800_0000 && 0 <= dispatcher < M64 && dispatcher % 2 == 0 && Length(arm) <= 68
    ensures CallsDispatcher(code, m, dispatcher, bb, spc)
  {
    hide CallsDispatcher, Effect, Prepared, Laid, FarJump, Reaches;
    RunStraight(code, a, arm);
    ReachesTrans(code, m, a, Effect(arm, a));
    JumpToDispatcher(code, m, Effect(arm, a), dispatcher, bb, spc);
  }

  /** Moving the program counter does not change the rest of a straight effect. */
  lemma {:induction false} EffectMoved(s: seq<Instr>, m: Machine, pc: int)
    requires forall i | i in s :: Straight(i) && !i.Auipc?
    ensures Effect(s, m.(pc := pc)) == Effect(s, m).(pc := Effect(s, m).pc + (pc - m.pc))
    decreases |s|
  {
    if s != [] {
      assert Straight(s[0]) && !s[0].Auipc?;
      EffectMoved(s[1..], Do(s[0], m), pc + Size(s[0]));
      assert Do(s[0], m.(pc := pc)) == Do(s[0], m).(pc := pc + Size(s[0]));
    }
  }

  /** The compared registers still hold their values when the branch is reached. */
  lemma OperandsKept(x: Exit, m: Machine, spc: Word)
    requires x.BranchExit?
    ensures |Prepare(x.bb, spc)| == 6
    ensures var r := Effect(Prepare(x.bb, spc)[..Early(x)], m);
            r.regs[x.rs1] == m.regs[x.rs1] && r.regs[x.rs2] == m.regs[x.rs2]
    ensures Prepare(x.bb, spc)[..Early(x)] == Head(x)
  {
    var p := Prepare(x.bb, spc);
    SaveEffect(m);
    if Early(x) == 4 {
      assert p[..4] == SAVE;
    } else if Early(x) == 5 {
      assert p[..5] == SAVE + [LoadOf(A1, x.bb)];
      EffectAdd(SAVE, [LoadOf(A1, x.bb)], m);
      Single(LoadOf(A1, x.bb), Effect(SAVE, m));
    }
  }

  /** Whatever part precedes the branch, an arm completes the preparation. */
  lemma ArmCompletes(x: Exit, m: Machine, spc: Word, pc: int)
    requires x.BranchExit?
    ensures |Prepare(x.bb, spc)| == 6 && Length(Arm(x, spc)) <= 68 && Length(Prepare(x.bb, spc)[..Early(x)]) <= 68
    ensures Prepared(m, Effect(Arm(x, spc), Effect(Prepare(x.bb, spc)[..Early(x)], m).(pc := pc)), x.bb, spc)
    ensures forall i | i in Arm(x, spc) :: Straight(i)
    ensures forall i | i in Prepare(x.bb, spc)[..Early(x)] :: Straight(i)
  {
    var p, e := Prepare(x.bb, spc), Early(x);
    PrepareLength(x.bb, spc);
    assert p == p[..e] + p[e..];
    LaidSplit(map[], 0, p[..e], p[e..]);
    var a := Effect(p[..e], m);
    EffectAdd(p[..e], p[e..], m);
    PreparedEffect(m, x.bb, spc);
    EffectMoved(p[e..], a, pc);
  }

  /** From the dispatcher code to the first instruction of the selected arm. */
  lemma BranchTaken(code: Code, x: Exit, dispatcher: int, m: Machine)
    requires x.BranchExit? && Intact(code, x, dispatcher) && m.pc == x.at + 24
    ensures var a := Effect(Head(x), m);
            Reaches(code, m, a.(pc := if Successor(x, m.regs) == x.taken then TakenAt(x) else BranchAt(x) + 4))
            || (x.taken == x.skipped && Reaches(code, m, a.(pc := BranchAt(x) + 4)))
  {
    var head, branch := Head(x), BranchAt(x);
    ArmCompletes(x, m, x.skipped, 0);
    OperandsKept(x, m, x.skipped);
    hide Prepare, Arm, Head, Early, Holds, Effect;
    RunStraight(code, m, head);
    var a := Effect(head, m);
    assert a.pc == branch;
    var b := Do(code[branch], a);
    ReachesSelf(code, b);
    ReachesStep(code, a, b);
    ReachesTrans(code, m, a, b);
  }

  lemma BranchDispatchSelects(code: Code, x: Exit, dispatcher: int, m: Machine)
    requires x.BranchExit? && Intact(code, x, dispatcher) && Near(x.at, dispatcher) && m.pc == x.at + 24
    ensures CallsDispatcher(code, m, dispatcher, x.bb, Successor(x, m.regs))
  {
    var spc := Successor(x, m.regs);
    var head := Head(x);
    OperandsKept(x, m, spc);
    ArmCompletes(x, m, x.skipped, BranchAt(x) + 4);
    ArmCompletes(x, m, x.taken, TakenAt(x));
    ArmCompletes(x, m, spc, BranchAt(x) + 4);
    BranchTaken(code, x, dispatcher, m);
    hide Prepare, Head, Early, Holds, Effect, Reaches, CallsDispatcher, Prepared, Laid;
    var a := Effect(head, m);
    if Reaches(code, m, a.(pc := BranchAt(x) + 4)) && spc == x.skipped {
      ArmCalls(code, m, a.(pc := BranchAt(x) + 4), Arm(x, spc), dispatcher, x.bb, spc);
    } else {
      ArmCalls(code, m, a.(pc := TakenAt(x)), Arm(x, spc), dispatcher, x.bb, spc);
    }
  }

  /** Intact dispatcher code asks for exactly the successor that the guest would execute. */
  lemma DispatchSelects(code: Code, x: Exit, dispatcher: int, m: Machine)
    requires Intact(code, x, dispatcher) && Near(x.at, dispatcher)
    requires m.pc == if x.BranchExit? then x.at + 24 else x.at
    ensures CallsDispatcher(code, m, dispatcher, x.bb, Successor(x, m.regs))
  {
    match x {
      case BranchExit(_, _, _, _, _, _, _) =>
        BranchDispatchSelects(code, x, dispatcher, m);
      case JumpExit(at, bb, taken) =>
        PrepareLength(bb, taken);
        PreparedEffect(m, bb, taken);
        hide Prepared, Effect, Laid;
        ReachesSelf(code, m);
        ArmCalls(code, m, m, SAVE + [LoadOf(A0, taken), LoadOf(A1, bb)], dispatcher, bb, taken);
    }
  }

  // ---------- Links ----------

  /** Push, then AUIPC and JALR through a0. */
  predicate FarLink(code: Code, at: int, entry: int) {
    Laid(code, at, PUSH) && Laid(code, at + 12, FarJump(A0, entry - (at + 12)))
  }

  /** A translation starts by restoring a0 and a1. */
  predicate IsEntry(code: Code, entry: int) {
    Laid(code, entry, POP)
  }

  /** The pushed registers are restored by the translation. */
  lemma FarLinkArrives(code: Code, m: Machine, entry: int)
    requires FarLink(code, m.pc, entry) && IsEntry(code, entry) && Near(m.pc, entry)
    ensures ArrivesAt(code, m, entry + 6)
  {
    PushEffect(m);
    RunStraight(code, m, PUSH);
    var a := Effect(PUSH, m);
    FarJumpExactIff(code, a, A0, entry - a.pc);
    var b := Run(code, a, 2);
    assert Reaches(code, a, b);
    ReachesTrans(code, m, a, b);
    PopEffect(b, m.regs);
    RunStraight(code, b, POP);
    ReachesTrans(code, m, b, Effect(POP, b));
  }
}
