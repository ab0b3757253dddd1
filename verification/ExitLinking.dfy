/**
 Linking of exits (`riscv_link_to`, `riscv_link_branch`, `dispatcher_riscv` in `arch/riscv/dispatcher_riscv.c`):
 exit code is overwritten in place, in one of several forms that depend on distances and on which successors are
 translated. The JALs of trampoline links live in `Trampolines.Cache`, everything else in `own`; at an address
 written by both, `own` holds what was written last.
 */
module ExitLinking {
  import opened Arith
  import opened CacheLayout
  import opened RiscvMachine
  import opened RiscvExits
  import T = Trampolines

  const LINK: int := 20

  /** The code cache as it executes. */
  function Program(own: Code, jals: T.Code): Code {
    map a | a in own.Keys + jals.Keys :: if a in own then own[a] else Jal(jals[a] - a)
  }

  /** Written by `riscv_link_to`: one JAL behind the register restore, a chain of JALs, or push and far jump. */
  ghost predicate LinkedTo(own: Code, links: set<T.Link>, at: int, entry: int) {
    || Laid(own, at, [Jal(entry + 6 - at)])
    || (at !in own && exists l :: l in links && l.source == at && l.target == entry + 6)
    || FarLink(own, at, entry)
  }

  /** A translation of `spc` made since the last flush is linked at `at`. */
  ghost predicate Linked(own: Code, links: set<T.Link>, made: set<(Word, int)>, at: int, spc: Word) {
    exists entry :: (spc, entry) in made && LinkedTo(own, links, at, entry)
  }

  function Nops(n: nat): seq<Instr> {
    seq(n, _ => NOP)
  }

  /** The conditional branch at the exit goes straight to the translation of the taken successor. */
  ghost predicate DirectBranch(own: Code, made: set<(Word, int)>, x: Exit)
    requires x.BranchExit?
  {
    exists entry :: (x.taken, entry) in made && Laid(own, x.at, [Branch(x.cond, x.rs1, x.rs2, entry + 6 - x.at)])
  }

  /** Its successors: taken (`t`) or skipped. */
  function Side(x: Exit, t: bool): Word {
    if x.JumpExit? || t then x.taken else x.skipped
  }

  /** The branch skips the link to successor `t` when the other one is selected. */
  ghost predicate SkippingBranch(own: Code, links: set<T.Link>, made: set<(Word, int)>, x: Exit, t: bool)
    requires x.BranchExit?
  {
    && Laid(own, x.at, [Branch(if t then Invert(x.cond) else x.cond, x.rs1, x.rs2, 24)])
    && Linked(own, links, made, x.at + 4, Side(x, t))
  }

  /** Successor `t` is reached without the dispatcher. */
  ghost predicate DirectTo(own: Code, links: set<T.Link>, made: set<(Word, int)>, x: Exit, t: bool) {
    if x.JumpExit? then Linked(own, links, made, x.at, x.taken)
    else
      || (DirectBranch(own, made, x) && (t || Linked(own, links, made, x.at + 4, x.skipped)))
      || SkippingBranch(own, links, made, x, t)
      || (SkippingBranch(own, links, made, x, !t) && Linked(own, links, made, x.at + 24, Side(x, t)))
  }

  /** Neither, one or both successors are linked; where one is not, the dispatcher code is still in place. */
  ghost predicate ExitOk(own: Code, links: set<T.Link>, made: set<(Word, int)>, x: Exit, dispatcher: int) {
    if x.JumpExit? then Intact(own, x, dispatcher) || Linked(own, links, made, x.at, x.taken)
    else
      || (Laid(own, x.at, Nops(6)) && Intact(own, x, dispatcher))
      || (DirectBranch(own, made, x) && Laid(own, x.at + 4, Nops(5)) && Intact(own, x, dispatcher))
      || ((SkippingBranch(own, links, made, x, true) || SkippingBranch(own, links, made, x, false)) && Intact(own, x, dispatcher))
      || (DirectTo(own, links, made, x, true) && DirectTo(own, links, made, x, false))
  }

  // ---------- Execution ----------

  ghost predicate Apart(own: Code, metas: seq<T.Spare>) {
    forall a, i | a in own && 0 <= i < |metas| :: !T.InSpare(metas[i], a)
  }

  /** Everything lies in one code cache of 16 MiB, with the dispatcher not too far away. */
  predicate InWindow(lo: int, a: int) {
    0 <= lo <= a < lo + 0x100_0000 && lo + 0x100_0000 < M64 && a % 2 == 0
  }

  lemma {:induction false} ProgramLaid(own: Code, jals: T.Code, at: int, s: seq<Instr>)
    requires Laid(own, at, s)
    ensures Laid(Program(own, jals), at, s)
    decreases |s|
  {
    if s != [] { ProgramLaid(own, jals, at + Size(s[0]), s[1..]); }
  }

  /** A chain of JALs through cells that nothing else was written to. */
  lemma {:induction false} ChainRuns(own: Code, jals: T.Code, m: Machine, cells: seq<int>, target: int)
    requires T.Leads(jals, m.pc, cells, target) && m.pc !in own && forall c | c in cells :: c !in own
    ensures Reaches(Program(own, jals), m, m.(pc := target))
    decreases |cells|
  {
    var code := Program(own, jals);
    if cells == [] {
      ReachesSelf(code, m.(pc := target));
      ReachesStep(code, m, m.(pc := target));
    } else {
      var c := m.(pc := cells[0]);
      ChainRuns(own, jals, m, cells[1..], cells[0]);
      assert cells[0] !in own;
      ReachesSelf(code, m.(pc := target));
      ReachesStep(code, c, m.(pc := target));
      ReachesTrans(code, m, c, m.(pc := target));
    }
  }

  lemma UsedCellsApart(own: Code, metas: seq<T.Spare>, c: int)
    requires Apart(own, metas) && T.UsedCell(metas, c) && T.Layout(metas)
    ensures c !in own
  {
    var i, k: nat :| 0 <= i < |metas| && T.IsCell(metas[i], k, c);
    assert T.InSpare(metas[i], c);
  }

  lemma MovedPc(code: Code, m: Machine, pc: int)
    requires Reaches(code, m, m.(pc := pc))
    ensures ArrivesAt(code, m, pc)
  {
    var r := m.(pc := pc);
    assert Reaches(code, m, r) && r.regs == m.regs && SameAbove(m.mem, r.mem, m.regs);
  }

  /** Every form of link arrives behind the register restore of the translation with all registers unchanged. */
  lemma LinkArrives(own: Code, jals: T.Code, metas: seq<T.Spare>, links: set<T.Link>, m: Machine, entry: int)
    requires T.Sound(jals, metas, links) && Apart(own, metas)
    requires LinkedTo(own, links, m.pc, entry) && IsEntry(own, entry) && Near(m.pc, entry)
    ensures ArrivesAt(Program(own, jals), m, entry + 6)
  {
    var code := Program(own, jals);
    if Laid(own, m.pc, [Jal(entry + 6 - m.pc)]) {
      ReachesSelf(code, m.(pc := entry + 6));
      ReachesStep(code, m, m.(pc := entry + 6));
      MovedPc(code, m, entry + 6);
    } else if FarLink(own, m.pc, entry) {
      ProgramLaid(own, jals, m.pc, PUSH);
      ProgramLaid(own, jals, m.pc + 12, FarJump(A0, entry - (m.pc + 12)));
      ProgramLaid(own, jals, entry, POP);
      FarLinkArrives(code, m, entry);
    } else {
      var l :| l in links && l.source == m.pc && l.target == entry + 6;
      assert T.LinkOk(jals, metas, l);
      forall c | c in l.cells ensures c !in own { UsedCellsApart(own, metas, c); }
      ChainRuns(own, jals, m, l.cells, entry + 6);
      MovedPc(code, m, entry + 6);
    }
  }

  /** What executing an exit leads to: a translation of the successor the guest selects, with all registers as they were. */
  ghost predicate ReachesTranslation(code: Code, made: set<(Word, int)>, m: Machine, spc: Word) {
    exists entry :: (spc, entry) in made && ArrivesAt(code, m, entry + 6)
  }

  ghost predicate EntriesOk(own: Code, made: set<(Word, int)>, lo: int) {
    forall p | p in made :: IsEntry(own, p.1) && InWindow(lo, p.1)
  }

  lemma LinkedReaches(own: Code, jals: T.Code, metas: seq<T.Spare>, links: set<T.Link>, made: set<(Word, int)>, lo: int,
        m: Machine, spc: Word)
    requires T.Sound(jals, metas, links) && Apart(own, metas) && EntriesOk(own, made, lo) && InWindow(lo, m.pc)
    requires Linked(own, links, made, m.pc, spc)
    ensures ReachesTranslation(Program(own, jals), made, m, spc)
  {
    var entry :| (spc, entry) in made && LinkedTo(own, links, m.pc, entry);
    LinkArrives(own, jals, metas, links, m, entry);
  }

  /** A step that only moves the program counter. */
  lemma ReachesVia(code: Code, made: set<(Word, int)>, m: Machine, pc: int, spc: Word)
    requires m.pc in code && Do(code[m.pc], m) == m.(pc := pc) && ReachesTranslation(code, made, m.(pc := pc), spc)
    ensures ReachesTranslation(code, made, m, spc)
  {
    var entry :| (spc, entry) in made && ArrivesAt(code, m.(pc := pc), entry + 6);
    var r :| Reaches(code, m.(pc := pc), r) && r.pc == entry + 6 && r.regs == m.regs && SameAbove(m.mem, r.mem, m.regs);
    ReachesStep(code, m, r);
  }

  lemma CallsVia(code: Code, m: Machine, pc: int, dispatcher: int, bb: Word, spc: Word)
    requires Reaches(code, m, m.(pc := pc)) && CallsDispatcher(code, m.(pc := pc), dispatcher, bb, spc)
    ensures CallsDispatcher(code, m, dispatcher, bb, spc)
  {
    var a := m.(pc := pc);
    var r :| Reaches(code, a, r) && r.pc == dispatcher && IsCall(a, r, bb, spc) && SameAbove(a.mem, r.mem, a.regs);
    ReachesTrans(code, m, a, r);
  }

  lemma {:induction false} NopsRun(code: Code, m: Machine, n: nat)
    requires Laid(code, m.pc, Nops(n))
    ensures Reaches(code, m, m.(pc := m.pc + 4 * n))
    decreases n
  {
    if n == 0 {
      ReachesSelf(code, m);
    } else {
      var a := m.(pc := m.pc + 4);
      assert Nops(n)[1..] == Nops(n - 1);
      assert Do(NOP, m) == a;
      NopsRun(code, a, n - 1);
      ReachesStep(code, m, m.(pc := m.pc + 4 * n));
    }
  }

  /** A linked successor is reached without the dispatcher. */
  lemma DirectArrives(own: Code, jals: T.Code, metas: seq<T.Spare>, links: set<T.Link>, made: set<(Word, int)>, lo: int,
                      x: Exit, t: bool, m: Machine)
    requires T.Sound(jals, metas, links) && Apart(own, metas) && EntriesOk(own, made, lo) && InWindow(lo, x.at)
             && InWindow(lo, x.at + 24)
    requires m.pc == x.at && DirectTo(own, links, made, x, t)
    requires x.BranchExit? ==> t == Holds(x.cond, m.regs[x.rs1], m.regs[x.rs2])
    ensures ReachesTranslation(Program(own, jals), made, m, Successor(x, m.regs))
  {
    hide Linked, Reaches, ArrivesAt;
    var code, spc := Program(own, jals), Successor(x, m.regs);
    if x.JumpExit? {
      LinkedReaches(own, jals, metas, links, made, lo, m, spc);
    } else {
      assert spc == Side(x, t);
      InvertHolds(x.cond, m.regs[x.rs1], m.regs[x.rs2]);
      if DirectBranch(own, made, x) && (t || Linked(own, links, made, x.at + 4, x.skipped)) {
        if t {
          var entry :| (x.taken, entry) in made && Laid(own, x.at, [Branch(x.cond, x.rs1, x.rs2, entry + 6 - x.at)]);
          ReachesSelf(code, m.(pc := entry + 6));
          ReachesStep(code, m, m.(pc := entry + 6));
          MovedPc(code, m, entry + 6);
        } else {
          LinkedReaches(own, jals, metas, links, made, lo, m.(pc := x.at + 4), spc);
          ReachesVia(code, made, m, x.at + 4, spc);
        }
      } else if SkippingBranch(own, links, made, x, t) {
        LinkedReaches(own, jals, metas, links, made, lo, m.(pc := x.at + 4), spc);
        ReachesVia(code, made, m, x.at + 4, spc);
      } else {
        LinkedReaches(own, jals, metas, links, made, lo, m.(pc := x.at + 24), spc);
        ReachesVia(code, made, m, x.at + 24, spc);
      }
    }
  }

  lemma ProgramIntact(own: Code, jals: T.Code, x: Exit, dispatcher: int)
    requires Intact(own, x, dispatcher)
    ensures Intact(Program(own, jals), x, dispatcher)
  {
    hide Prepare, Arm, Head, Laid, FarJump, Program, ArmLaid, BranchAt, TakenAt, Length, LoadOf;
    if x.BranchExit? {
      ProgramLaid(own, jals, x.at + 24, Head(x));
      ProgramLaid(own, jals, BranchAt(x), [Branch(x.cond, x.rs1, x.rs2, TakenAt(x) - BranchAt(x))]);
      ProgramArm(own, jals, BranchAt(x) + 4, Arm(x, x.skipped), dispatcher);
      ProgramArm(own, jals, TakenAt(x), Arm(x, x.taken), dispatcher);
    } else {
      ProgramArm(own, jals, x.at, SAVE + [LoadOf(A0, x.taken), LoadOf(A1, x.bb)], dispatcher);
    }
  }

  lemma ProgramArm(own: Code, jals: T.Code, at: int, arm: seq<Instr>, dispatcher: int)
    requires ArmLaid(own, at, arm, dispatcher)
    ensures ArmLaid(Program(own, jals), at, arm, dispatcher)
  {
    ProgramLaid(own, jals, at, arm);
    ProgramLaid(own, jals, at + Length(arm), FarJump(S1, dispatcher - (at + Length(arm))));
  }

  /** From an exit that is not linked for the selected successor control reaches its dispatcher code. */
  lemma ReachesDispatchCode(own: Code, jals: T.Code, links: set<T.Link>, made: set<(Word, int)>, x: Exit,
        dispatcher: int, m: Machine)
    requires x.BranchExit? && ExitOk(own, links, made, x, dispatcher) && m.pc == x.at
    requires !DirectTo(own, links, made, x, Holds(x.cond, m.regs[x.rs1], m.regs[x.rs2]))
    ensures Intact(own, x, dispatcher) && Reaches(Program(own, jals), m, m.(pc := x.at + 24))
  {
    hide Intact, Linked, Reaches;
    var code, t := Program(own, jals), Holds(x.cond, m.regs[x.rs1], m.regs[x.rs2]);
    InvertHolds(x.cond, m.regs[x.rs1], m.regs[x.rs2]);
    if Laid(own, x.at, Nops(6)) {
      ProgramLaid(own, jals, x.at, Nops(6));
      NopsRun(code, m, 6);
    } else if DirectBranch(own, made, x) && Laid(own, x.at + 4, Nops(5)) {
      assert !t;
      ProgramLaid(own, jals, x.at + 4, Nops(5));
      NopsRun(code, m.(pc := x.at + 4), 5);
      ReachesStep(code, m, m.(pc := x.at + 24));
    } else {
      assert SkippingBranch(own, links, made, x, !t);
      ReachesSelf(code, m.(pc := x.at + 24));
      ReachesStep(code, m, m.(pc := x.at + 24));
    }
  }

  /**
   Whatever the form of an exit and whatever the registers hold: control reaches a translation of the successor the
   guest selects, with every register unchanged, or the dispatcher is called with that successor's address.
   */
  lemma ExitSelects(own: Code, jals: T.Code, metas: seq<T.Spare>, links: set<T.Link>, made: set<(Word, int)>, lo: int,
                    x: Exit, dispatcher: int, m: Machine)
    requires T.Sound(jals, metas, links) && Apart(own, metas) && EntriesOk(own, made, lo) && InWindow(lo, x.at)
             && InWindow(lo, x.at + 24)
    requires Near(x.at, dispatcher) && ExitOk(own, links, made, x, dispatcher) && m.pc == x.at
    ensures var code, spc := Program(own, jals), Successor(x, m.regs);
            ReachesTranslation(code, made, m, spc) || CallsDispatcher(code, m, dispatcher, x.bb, spc)
  {
    var code, spc := Program(own, jals), Successor(x, m.regs);
    var t := x.JumpExit? || Holds(x.cond, m.regs[x.rs1], m.regs[x.rs2]);
    if DirectTo(own, links, made, x, t) {
      DirectArrives(own, jals, metas, links, made, lo, x, t, m);
    } else if x.JumpExit? {
      ProgramIntact(own, jals, x, dispatcher);
      DispatchSelects(code, x, dispatcher, m);
    } else {
      ReachesDispatchCode(own, jals, links, made, x, dispatcher, m);
      ProgramIntact(own, jals, x, dispatcher);
      DispatchSelects(code, x, dispatcher, m.(pc := x.at + 24));
      CallsVia(code, m, x.at + 24, dispatcher, x.bb, spc);
    }
  }
}
