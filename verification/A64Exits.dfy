/**
 Exit regions on AArch64: the code emitted by `a64_branch_jump_cond` and `a64_branch_imm_reg`
 (`arch/aarch64/scanner_a64.c`), patched in place by `dispatcher_aarch64` (`arch/aarch64/dispatcher_aarch64.c`).
 Branches carry their target address; a move stands for the one to four words of `a64_copy_to_reg_64bits`.
 */
module A64Exits {
  import opened Arith

  type Word = x: int | 0 <= x < M64
  type Reg = r: int | 0 <= r < 32
  type CondCode = c: int | 0 <= c < 16
  type BitNo = b: int | 0 <= b < 64

  datatype Flags = Flags(n: bool, z: bool, c: bool, v: bool)

  /** `x[31]` is never written; read as an operand it is the zero register. */
  type Regs = r: seq<Word> | |r| == 32 && r[31] == 0 witness seq(32, _ => 0)

  datatype State = State(pc: int, x: Regs, sp: Word, flags: Flags, mem: map<Word, Word>)

  /** The test of a conditional branch: on the flags, on (the low half of) a register being nonzero, on a bit being set. */
  datatype Test = OnFlags(cond: CondCode) | OnZero(nonzero: bool, wide: bool, rt: Reg) | OnBit(isSet: bool, bit: BitNo, rt: Reg)

  predicate BaseCond(k: int, f: Flags) {
    if k == 0 then f.z
    else if k == 1 then f.c
    else if k == 2 then f.n
    else if k == 3 then f.v
    else if k == 4 then f.c && !f.z
    else if k == 5 then f.n == f.v
    else if k == 6 then f.n == f.v && !f.z
    else true
  }

  predicate CondHolds(cond: CondCode, f: Flags) {
    if cond % 2 == 1 && cond != 15 then !BaseCond(cond / 2, f) else BaseCond(cond / 2, f)
  }

  predicate Passes(t: Test, m: State) {
    match t
    case OnFlags(cond) => CondHolds(cond, m.flags)
    case OnZero(nonzero, wide, rt) => nonzero == ((if wide then m.x[rt] else m.x[rt] % 0x1_0000_0000) != 0)
    case OnBit(isSet, bit, rt) => isSet == (m.x[rt] / Pow2(bit) % 2 == 1)
  }

  /** `invert_cond` flips the lowest bit of whatever is kept as the condition. */
  function Inverse(t: Test): Test {
    match t
    case OnFlags(cond) => OnFlags(if cond % 2 == 0 then cond + 1 else cond - 1)
    case OnZero(nonzero, wide, rt) => OnZero(!nonzero, wide, rt)
    case OnBit(isSet, bit, rt) => OnBit(!isSet, bit, rt)
  }

  /** A condition that can fail: not AL or NV, both of which always hold. */
  predicate Genuine(t: Test) {
    t.OnFlags? ==> t.cond < 14
  }

  lemma InversePasses(t: Test, m: State)
    ensures Inverse(Inverse(t)) == t
    ensures if Genuine(t) then Passes(Inverse(t), m) <==> !Passes(t, m) else Passes(t, m) && Passes(Inverse(t), m)
  {
    if t.OnFlags? {
      var c := t.cond;
      assert (if c % 2 == 0 then c + 1 else c - 1) / 2 == c / 2;
    }
  }

  datatype Instr = Nop | Stp | Mov(rd: Reg, value: Word) | Branch(test: Test, target: int) | B(target: int)

  /** MOVZ and a MOVK for every nonzero upper halfword. */
  function Size(i: Instr): int
    ensures 4 <= Size(i) <= 16
  {
    if i.Mov? then
      4 + (if i.value / 0x1_0000 % 0x1_0000 > 0 then 4 else 0) + (if i.value / 0x1_0000_0000 % 0x1_0000 > 0 then 4 else 0)
      + (if i.value / 0x1_0000_0000_0000 % 0x1_0000 > 0 then 4 else 0)
    else 4
  }

  function Below(sp: int, n: int): Word {
    (sp - n) % M64
  }

  function Do(i: Instr, m: State): State {
    match i
    case Nop => m.(pc := m.pc + 4)
    case Stp =>
      m.(pc := m.pc + 4, sp := Below(m.sp, 16), mem := m.mem[Below(m.sp, 16) := m.x[0]][Below(m.sp, 8) := m.x[1]])
    case Mov(rd, value) => m.(pc := m.pc + Size(i), x := if rd == 31 then m.x else m.x[rd := value])
    case Branch(test, target) => m.(pc := if Passes(test, m) then target else m.pc + 4)
    case B(target) => m.(pc := target)
  }

  type Code = map<int, Instr>

  function Run(code: Code, m: State, n: nat): State
    decreases n
  {
    if n == 0 then m else Run(code, if m.pc in code then Do(code[m.pc], m) else m, n - 1)
  }

  ghost predicate Reaches(code: Code, m: State, r: State) {
    exists n: nat :: Run(code, m, n) == r
  }

  lemma Stay(code: Code, m: State)
    ensures Reaches(code, m, m)
  {
    assert Run(code, m, 0) == m;
  }

  lemma Next(code: Code, m: State, r: State)
    requires m.pc in code && Reaches(code, Do(code[m.pc], m), r)
    ensures Reaches(code, m, r)
  {
    var n: nat :| Run(code, Do(code[m.pc], m), n) == r;
    assert Run(code, m, n + 1) == r;
  }

  lemma {:induction false} Halted(code: Code, m: State, n: nat)
    requires m.pc !in code
    ensures Run(code, m, n) == m
    decreases n
  {
    if n > 0 { Halted(code, m, n - 1); }
  }

  lemma {:induction false} Deterministic(code: Code, m: State, i: nat, j: nat)
    requires i <= j && Run(code, m, i).pc !in code
    ensures Run(code, m, j) == Run(code, m, i)
    decreases i
  {
    if i == 0 { Halted(code, m, j); } else { Deterministic(code, if m.pc in code then Do(code[m.pc], m) else m, i - 1, j - 1); }
  }

  /** Outside the code execution stops, so at most one state is reached there. */
  lemma ReachedOnce(code: Code, m: State, r: State, s: State)
    requires Reaches(code, m, r) && Reaches(code, m, s) && r.pc !in code && s.pc !in code
    ensures r == s
  {
    var i: nat :| Run(code, m, i) == r;
    var j: nat :| Run(code, m, j) == s;
    if i <= j { Deterministic(code, m, i, j); } else { Deterministic(code, m, j, i); }
  }

  // ---------- Exit regions ----------

  /** The exit of a block that ends in a conditional branch. */
  datatype Exit = Exit(at: int, bb: Word, test: Test, taken: Word, skipped: Word)

  function Successor(x: Exit, m: State): Word {
    if Passes(x.test, m) then x.taken else x.skipped
  }

  function Side(x: Exit, t: bool): Word {
    if t then x.taken else x.skipped
  }

  predicate Laid(code: Code, at: int, s: seq<Instr>)
    decreases |s|
  {
    s == [] || (at in code && code[at] == s[0] && Laid(code, at + Size(s[0]), s[1..]))
  }

  function Length(s: seq<Instr>): int
    ensures Length(s) >= 0
  {
    if s == [] then 0 else Size(s[0]) + Length(s[1..])
  }

  /** The block id is loaded before the branch on flags, and in each arm otherwise. */
  function Arm(x: Exit, spc: Word, dispatcher: int): seq<Instr> {
    if x.test.OnFlags? then [Mov(0, spc), B(dispatcher)] else [Mov(0, spc), Mov(1, x.bb), B(dispatcher)]
  }

  function BranchAt(x: Exit): int {
    x.at + 12 + if x.test.OnFlags? then Size(Mov(1, x.bb)) else 0
  }

  function SkippedAt(x: Exit, dispatcher: int): int {
    BranchAt(x) + 4 + Length(Arm(x, x.taken, dispatcher))
  }

  /** Word 2 is still the STP that starts the dispatcher code. */
  predicate Intact(code: Code, x: Exit, dispatcher: int) {
    && x.at + 8 in code && code[x.at + 8] == Stp && Rest(code, x, dispatcher)
  }

  /** What follows word 2. */
  predicate Rest(code: Code, x: Exit, dispatcher: int) {
    && (x.test.OnFlags? ==> x.at + 12 in code && code[x.at + 12] == Mov(1, x.bb))
    && BranchAt(x) in code && code[BranchAt(x)] == Branch(Inverse(x.test), SkippedAt(x, dispatcher))
    && Laid(code, BranchAt(x) + 4, Arm(x, x.taken, dispatcher))
    && Laid(code, SkippedAt(x, dispatcher), Arm(x, x.skipped, dispatcher))
  }

  /** The dispatcher is entered with the block and the wanted address in x1 and x0, the old values of both on the stack. */
  predicate IsCall(m: State, r: State, dispatcher: int, bb: Word, spc: Word) {
    && r.pc == dispatcher && r.x == m.x[0 := spc][1 := bb] && r.sp == Below(m.sp, 16) && r.flags == m.flags
    && r.mem == m.mem[Below(m.sp, 16) := m.x[0]][Below(m.sp, 8) := m.x[1]]
  }

  ghost predicate Calls(code: Code, m: State, dispatcher: int, bb: Word, spc: Word) {
    exists r :: Reaches(code, m, r) && IsCall(m, r, dispatcher, bb, spc)
  }

  /** Which address the dispatcher code passes on. */
  function Asked(x: Exit, m: State): Word {
    if Passes(Inverse(x.test), m) then x.skipped else x.taken
  }

  lemma ArmRuns(code: Code, x: Exit, spc: Word, dispatcher: int, a: State)
    requires Laid(code, a.pc, Arm(x, spc, dispatcher))
    ensures var r := a.(pc := dispatcher, x := if x.test.OnFlags? then a.x[0 := spc] else a.x[0 := spc][1 := x.bb]);
            Reaches(code, a, r)
  {
    var arm := Arm(x, spc, dispatcher);
    var b := Do(arm[0], a);
    assert Laid(code, b.pc, arm[1..]);
    if x.test.OnFlags? {
      var c := Do(arm[1], b);
      assert arm[1..][0] == arm[1];
      Stay(code, c);
      Next(code, b, c);
      Next(code, a, c);
    } else {
      var c := Do(arm[1], b);
      assert arm[1..][0] == arm[1] && arm[1..][1..] == [arm[2]];
      assert Laid(code, c.pc, arm[1..][1..]);
      var d := Do(arm[2], c);
      Stay(code, d);
      Next(code, c, d);
      Next(code, b, d);
      Next(code, a, d);
    }
  }

  /** The tested registers are read before they are overwritten; the flags are not touched. */
  lemma StpKeepsTest(t: Test, m: State, bb: Word)
    ensures Passes(t, Do(Stp, m)) == Passes(t, m)
    ensures t.OnFlags? ==> Passes(t, Do(Mov(1, bb), Do(Stp, m))) == Passes(t, m)
  {
  }

  lemma DispatchCodeRuns(code: Code, x: Exit, dispatcher: int, m: State)
    requires Intact(code, x, dispatcher) && m.pc == x.at + 8
    ensures Calls(code, m, dispatcher, x.bb, Asked(x, m))
  {
    hide Passes, Laid, Arm, Length;
    var a := Do(Stp, m);
    var b := if x.test.OnFlags? then Do(Mov(1, x.bb), a) else a;
    StpKeepsTest(Inverse(x.test), m, x.bb);
    assert x.test.OnFlags? <==> Inverse(x.test).OnFlags?;
    assert b.pc == BranchAt(x);
    var c := Do(code[b.pc], b);
    ArmRuns(code, x, Asked(x, m), dispatcher, c);
    var r := c.(pc := dispatcher, x := if x.test.OnFlags? then c.x[0 := Asked(x, m)] else c.x[0 := Asked(x, m)][1 := x.bb]);
    Next(code, b, r);
    if x.test.OnFlags? { Next(code, a, r); }
    Next(code, m, r);
    assert r.x == m.x[0 := Asked(x, m)][1 := x.bb];
    assert IsCall(m, r, dispatcher, x.bb, Asked(x, m));
  }

  /** The emitted code asks for the selected successor in every state exactly when the condition is neither AL nor NV. */
  lemma DispatchCodeExactIff(code: Code, x: Exit, dispatcher: int)
    requires Intact(code, x, dispatcher) && dispatcher !in code && x.taken != x.skipped
    ensures (forall m: State | m.pc == x.at + 8 :: Calls(code, m, dispatcher, x.bb, Successor(x, m))) <==> Genuine(x.test)
  {
    hide Passes, Intact, Reaches, Inverse;
    if Genuine(x.test) {
      forall m: State | m.pc == x.at + 8 ensures Calls(code, m, dispatcher, x.bb, Successor(x, m)) {
        InversePasses(x.test, m);
        DispatchCodeRuns(code, x, dispatcher, m);
      }
    } else {
      var m := State(x.at + 8, seq(32, _ => 0), 0, Flags(false, false, false, false), map[]);
      InversePasses(x.test, m);
      DispatchCodeRuns(code, x, dispatcher, m);
      if Calls(code, m, dispatcher, x.bb, Successor(x, m)) {
        var r :| Reaches(code, m, r) && IsCall(m, r, dispatcher, x.bb, x.taken);
        var s :| Reaches(code, m, s) && IsCall(m, s, dispatcher, x.bb, x.skipped);
        assert r.x[0] == x.taken && s.x[0] == x.skipped;
        ReachedOnce(code, m, r, s);
      }
    }
  }

  // ---------- Linked regions ----------

  ghost predicate MadeAt(made: set<(Word, int)>, spc: Word, block: int) {
    (spc, block) in made
  }

  /** The word jumps behind the register restore of a translation of `spc`. */
  ghost predicate JumpsTo(code: Code, made: set<(Word, int)>, at: int, spc: Word) {
    at in code && exists block :: MadeAt(made, spc, block) && code[at] == B(block + 4)
  }

  /** Words 0 and 1 after the first dispatch, for successor `t`. */
  ghost predicate First(code: Code, made: set<(Word, int)>, x: Exit, t: bool) {
    && x.at in code && code[x.at] == Branch(if t then Inverse(x.test) else x.test, x.at + 8)
    && JumpsTo(code, made, x.at + 4, Side(x, t))
  }

  ghost predicate Direct(code: Code, made: set<(Word, int)>, x: Exit, t: bool) {
    First(code, made, x, t) || (First(code, made, x, !t) && JumpsTo(code, made, x.at + 8, Side(x, t)))
  }

  predicate Fresh(code: Code, x: Exit, dispatcher: int) {
    x.at in code && code[x.at] == Nop && x.at + 4 in code && code[x.at + 4] == Nop && Intact(code, x, dispatcher)
  }

  /** The form of a region after any number of dispatches. */
  ghost predicate RegionOk(code: Code, made: set<(Word, int)>, x: Exit, dispatcher: int) {
    || Fresh(code, x, dispatcher)
    || ((First(code, made, x, true) || First(code, made, x, false)) && Intact(code, x, dispatcher))
    || (Direct(code, made, x, true) && Direct(code, made, x, false))
  }

  /** Control is at a translation of `spc`, behind its register restore, with the state unchanged. */
  ghost predicate Arrives(code: Code, made: set<(Word, int)>, m: State, spc: Word) {
    exists block :: MadeAt(made, spc, block) && Reaches(code, m, m.(pc := block + 4))
  }

  lemma JumpArrives(code: Code, made: set<(Word, int)>, m: State, spc: Word)
    requires JumpsTo(code, made, m.pc, spc)
    ensures Arrives(code, made, m, spc)
  {
    var block :| MadeAt(made, spc, block) && code[m.pc] == B(block + 4);
    Stay(code, m.(pc := block + 4));
    Next(code, m, m.(pc := block + 4));
  }

  lemma ArrivesVia(code: Code, made: set<(Word, int)>, m: State, pc: int, spc: Word)
    requires m.pc in code && Do(code[m.pc], m) == m.(pc := pc) && Arrives(code, made, m.(pc := pc), spc)
    ensures Arrives(code, made, m, spc)
  {
    var block :| MadeAt(made, spc, block) && Reaches(code, m.(pc := pc), m.(pc := block + 4));
    Next(code, m, m.(pc := block + 4));
  }

  lemma CallsVia(code: Code, m: State, pc: int, dispatcher: int, bb: Word, spc: Word)
    requires m.pc in code && Do(code[m.pc], m) == m.(pc := pc) && Calls(code, m.(pc := pc), dispatcher, bb, spc)
    ensures Calls(code, m, dispatcher, bb, spc)
  {
    var r :| Reaches(code, m.(pc := pc), r) && IsCall(m.(pc := pc), r, dispatcher, bb, spc);
    Next(code, m, r);
  }

  lemma PassesAnywhere(t: Test, m: State, pc: int)
    ensures Passes(t, m.(pc := pc)) == Passes(t, m)
  {
  }

  lemma DirectRuns(code: Code, made: set<(Word, int)>, x: Exit, m: State)
    requires m.pc == x.at && Genuine(x.test) && Direct(code, made, x, Passes(x.test, m))
    ensures Arrives(code, made, m, Successor(x, m))
  {
    hide Passes, Reaches, Inverse;
    var t := Passes(x.test, m);
    InversePasses(x.test, m);
    if First(code, made, x, t) {
      JumpArrives(code, made, m.(pc := x.at + 4), Side(x, t));
      ArrivesVia(code, made, m, x.at + 4, Side(x, t));
    } else {
      JumpArrives(code, made, m.(pc := x.at + 8), Side(x, t));
      ArrivesVia(code, made, m, x.at + 8, Side(x, t));
    }
  }

  /**
   Whatever has been linked so far: executing the region reaches a translation of the selected successor with the
   state unchanged, or calls the dispatcher for exactly that successor.
   */
  lemma RegionSelects(code: Code, made: set<(Word, int)>, x: Exit, dispatcher: int, m: State)
    requires m.pc == x.at && Genuine(x.test) && RegionOk(code, made, x, dispatcher)
    ensures if Direct(code, made, x, Passes(x.test, m)) then Arrives(code, made, m, Successor(x, m))
            else Calls(code, m, dispatcher, x.bb, Successor(x, m))
  {
    hide Passes, Reaches, Inverse, Intact;
    var t, spc := Passes(x.test, m), Successor(x, m);
    if Direct(code, made, x, t) {
      DirectRuns(code, made, x, m);
    } else {
      var a := m.(pc := x.at + 8);
      InversePasses(x.test, m);
      PassesAnywhere(Inverse(x.test), m, x.at + 8);
      DispatchCodeRuns(code, x, dispatcher, a);
      if Fresh(code, x, dispatcher) {
        CallsVia(code, m.(pc := x.at + 4), x.at + 8, dispatcher, x.bb, spc);
        CallsVia(code, m, x.at + 4, dispatcher, x.bb, spc);
      } else {
        assert First(code, made, x, !t);
        CallsVia(code, m, x.at + 8, dispatcher, x.bb, spc);
      }
    }
  }

  // ---------- Frames ----------

  function End(x: Exit, dispatcher: int): int {
    SkippedAt(x, dispatcher) + Length(Arm(x, x.skipped, dispatcher))
  }

  predicate SameOn(code: Code, code': Code, from: int, to: int) {
    forall a | from <= a < to :: (a in code <==> a in code') && (a in code ==> code[a] == code'[a])
  }

  lemma {:induction false} LaidFrame(code: Code, code': Code, at: int, s: seq<Instr>, from: int, to: int)
    requires Laid(code, at, s) && SameOn(code, code', from, to) && from <= at && at + Length(s) <= to
    ensures Laid(code', at, s)
    decreases |s|
  {
    if s != [] { LaidFrame(code, code', at + Size(s[0]), s[1..], from, to); }
  }

  lemma RestFrame(code: Code, code': Code, x: Exit, dispatcher: int)
    requires Rest(code, x, dispatcher) && SameOn(code, code', x.at + 12, End(x, dispatcher))
    ensures Rest(code', x, dispatcher)
  {
    hide Laid, Arm;
    LaidFrame(code, code', BranchAt(x) + 4, Arm(x, x.taken, dispatcher), x.at + 12, End(x, dispatcher));
    LaidFrame(code, code', SkippedAt(x, dispatcher), Arm(x, x.skipped, dispatcher), x.at + 12, End(x, dispatcher));
  }

  lemma RegionNonempty(x: Exit, dispatcher: int)
    ensures End(x, dispatcher) >= x.at + 12
  {
    hide Arm;
  }

  /** A region whose words are left alone keeps its form; more translations do no harm. */
  lemma RegionFrame(code: Code, code': Code, made: set<(Word, int)>, made': set<(Word, int)>, x: Exit, dispatcher: int)
    requires SameOn(code, code', x.at, End(x, dispatcher)) && made <= made'
    ensures Fresh(code, x, dispatcher) ==> Fresh(code', x, dispatcher)
    ensures Intact(code, x, dispatcher) ==> Intact(code', x, dispatcher)
    ensures forall t :: First(code, made, x, t) ==> First(code', made', x, t)
    ensures forall t :: Direct(code, made, x, t) ==> Direct(code', made', x, t)
  {
    RegionNonempty(x, dispatcher);
    hide Rest, End;
    if Rest(code, x, dispatcher) { RestFrame(code, code', x, dispatcher); }
    forall t ensures JumpsTo(code, made, x.at + 4, Side(x, t)) ==> JumpsTo(code', made', x.at + 4, Side(x, t))
      ensures JumpsTo(code, made, x.at + 8, Side(x, t)) ==> JumpsTo(code', made', x.at + 8, Side(x, t))
    {
      JumpFrame(code, code', made, made', x.at + 4, Side(x, t));
      JumpFrame(code, code', made, made', x.at + 8, Side(x, t));
    }
  }

  lemma JumpFrame(code: Code, code': Code, made: set<(Word, int)>, made': set<(Word, int)>, at: int, spc: Word)
    requires SameOn(code, code', at, at + 1) && made <= made'
    ensures JumpsTo(code, made, at, spc) ==> JumpsTo(code', made', at, spc)
  {
    if JumpsTo(code, made, at, spc) {
      var block :| MadeAt(made, spc, block) && code[at] == B(block + 4);
      assert MadeAt(made', spc, block);
    }
  }

  // ---------- dispatcher_aarch64 ----------

  const FALLTHROUGH_LINKED: bv3 := 1
  const BRANCH_LINKED: bv3 := 2
  const BOTH_LINKED: bv3 := 4

  /** What `branch_cache_status` says about the words of a region. */
  ghost predicate StatusOk(code: Code, made: set<(Word, int)>, x: Exit, dispatcher: int, status: bv3) {
    if status == 0 then Fresh(code, x, dispatcher)
    else if status == BRANCH_LINKED then First(code, made, x, true) && Intact(code, x, dispatcher)
    else if status == FALLTHROUGH_LINKED then First(code, made, x, false) && Intact(code, x, dispatcher)
    else (First(code, made, x, true) || First(code, made, x, false)) && Direct(code, made, x, true) && Direct(code, made, x, false)
  }

  lemma StatusFrame(code: Code, code': Code, made: set<(Word, int)>, made': set<(Word, int)>, x: Exit, dispatcher: int, status: bv3)
    requires StatusOk(code, made, x, dispatcher, status) && SameOn(code, code', x.at, End(x, dispatcher)) && made <= made'
    ensures StatusOk(code', made', x, dispatcher, status)
  {
    hide Fresh, Intact, First, Direct;
    RegionFrame(code, code', made, made', x, dispatcher);
  }

  lemma StatusRegion(code: Code, made: set<(Word, int)>, x: Exit, dispatcher: int, status: bv3)
    requires StatusOk(code, made, x, dispatcher, status)
    ensures RegionOk(code, made, x, dispatcher)
  {
    hide Fresh, Intact, First, Direct;
  }

  /** Exit regions do not overlap. */
  ghost predicate Placed(exits: set<Exit>, dispatcher: int) {
    forall x, y | x in exits && y in exits && x != y :: End(x, dispatcher) <= y.at || End(y, dispatcher) <= x.at
  }

  /** The first dispatch, in word order. */
  function LinkFirst(code: Code, x: Exit, isTaken: bool, block: int): Code {
    code[x.at := Branch(if isTaken then Inverse(x.test) else x.test, x.at + 8)][x.at + 4 := B(block + 4)]
  }

  lemma FirstDispatch(code: Code, made: set<(Word, int)>, x: Exit, dispatcher: int, t: bool, block: int)
    requires Fresh(code, x, dispatcher) && (Side(x, t), block) in made
    ensures var code' := LinkFirst(code, x, t, block);
            First(code', made, x, t) && Intact(code', x, dispatcher) && Direct(code', made, x, t)
  {
    var code' := LinkFirst(code, x, t, block);
    assert MadeAt(made, Side(x, t), block);
    assert code'[x.at + 4] == B(block + 4);
    hide Rest;
    RestFrame(code, code', x, dispatcher);
  }

  /** Word 2 patched for the other successor. */
  lemma SecondDispatch(code: Code, made: set<(Word, int)>, x: Exit, t: bool, block: int)
    requires First(code, made, x, !t) && (Side(x, t), block) in made
    ensures var code' := code[x.at + 8 := B(block + 4)];
            First(code', made, x, !t) && Direct(code', made, x, t) && Direct(code', made, x, !t)
  {
    var code' := code[x.at + 8 := B(block + 4)];
    assert MadeAt(made, Side(x, t), block);
    assert code'[x.at + 8] == B(block + 4);
    var first :| MadeAt(made, Side(x, !t), first) && code[x.at + 4] == B(first + 4);
    assert code'[x.at + 4] == B(first + 4);
  }

  lemma OthersKept(code: Code, code': Code, made: set<(Word, int)>, exits: set<Exit>, status: map<Exit, bv3>, x: Exit,
        dispatcher: int)
    requires Placed(exits, dispatcher) && x in exits && (forall y | y in exits :: y in status && StatusOk(code, made, y, dispatcher, status[y]))
    requires forall a | a < x.at || a >= x.at + 12 :: (a in code <==> a in code') && (a in code ==> code[a] == code'[a])
    ensures forall y | y in exits && y != x :: StatusOk(code', made, y, dispatcher, status[y])
    ensures forall y, t | y in exits && y != x && Direct(code, made, y, t) :: Direct(code', made, y, t)
  {
    RegionNonempty(x, dispatcher);
    hide StatusOk, Direct, First, Fresh, End;
    forall y | y in exits && y != x
      ensures StatusOk(code', made, y, dispatcher, status[y])
      ensures forall t :: Direct(code, made, y, t) ==> Direct(code', made, y, t)
    {
      StatusFrame(code, code', made, made, y, dispatcher, status[y]);
      RegionFrame(code, code', made, made, y, dispatcher);
    }
  }

  /** What `a64_branch_jump_cond` and `a64_branch_imm_reg` emit. */
  function ExitCode(x: Exit, dispatcher: int): seq<Instr> {
    [Nop, Nop, Stp] + (if x.test.OnFlags? then [Mov(1, x.bb)] else [])
    + [Branch(Inverse(x.test), SkippedAt(x, dispatcher))] + Arm(x, x.taken, dispatcher) + Arm(x, x.skipped, dispatcher)
  }

  lemma {:induction false} LaidSplit(code: Code, at: int, s: seq<Instr>, t: seq<Instr>)
    ensures Laid(code, at, s + t) <==> Laid(code, at, s) && Laid(code, at + Length(s), t)
    ensures Length(s + t) == Length(s) + Length(t)
    decreases |s|
  {
    if s == [] {
      assert s + t == t;
    } else {
      assert (s + t)[1..] == s[1..] + t;
      LaidSplit(code, at + Size(s[0]), s[1..], t);
    }
  }

  /** Emitted code is a region with nothing linked, as long as `End` says. */
  lemma EmittedIsFresh(code: Code, x: Exit, dispatcher: int)
    requires Laid(code, x.at, ExitCode(x, dispatcher))
    ensures Fresh(code, x, dispatcher) && x.at + Length(ExitCode(x, dispatcher)) == End(x, dispatcher)
  {
    hide Arm, SkippedAt, Inverse, Size, Length;
    LengthParts(x, dispatcher);
    var mov := if x.test.OnFlags? then [Mov(1, x.bb)] else [];
    var head, branch := [Nop, Nop, Stp], [Branch(Inverse(x.test), SkippedAt(x, dispatcher))];
    var arm1, arm2 := Arm(x, x.taken, dispatcher), Arm(x, x.skipped, dispatcher);
    LaidSplit(code, x.at, head + mov + branch + arm1, arm2);
    LaidSplit(code, x.at, head + mov + branch, arm1);
    LaidSplit(code, x.at, head + mov, branch);
    LaidSplit(code, x.at, head, mov);
    assert head == [Nop] + ([Nop] + [Stp]);
    LaidSplit(code, x.at, [Nop], [Nop] + [Stp]);
    LaidSplit(code, x.at + 4, [Nop], [Stp]);
  }

  lemma LengthParts(x: Exit, dispatcher: int)
    ensures Length([]) == 0 && Length([Nop]) == 4 && Length([Stp]) == 4 && Length([Mov(1, x.bb)]) == Size(Mov(1, x.bb))
    ensures Length([Branch(Inverse(x.test), SkippedAt(x, dispatcher))]) == 4
    ensures SkippedAt(x, dispatcher) == BranchAt(x) + 4 + Length(Arm(x, x.taken, dispatcher))
  {
    hide Arm;
  }

  /** Instructions written one behind the other. */
  function Emitted(code: Code, at: int, s: seq<Instr>): Code
    decreases |s|
  {
    if s == [] then code else Emitted(code[at := s[0]], at + Size(s[0]), s[1..])
  }

  ghost predicate SameOutside(code: Code, code': Code, from: int, to: int) {
    forall a | a < from || a >= to :: (a in code <==> a in code') && (a in code ==> code[a] == code'[a])
  }

  lemma {:induction false} EmittedIsLaid(code: Code, at: int, s: seq<Instr>)
    ensures Laid(Emitted(code, at, s), at, s) && SameOutside(code, Emitted(code, at, s), at, at + Length(s))
    decreases |s|
  {
    if s != [] { EmittedIsLaid(code[at := s[0]], at + Size(s[0]), s[1..]); }
  }

  lemma OutsideSame(code: Code, code': Code, x: Exit, y: Exit, dispatcher: int)
    requires SameOutside(code, code', x.at, End(x, dispatcher)) && (End(x, dispatcher) <= y.at || End(y, dispatcher) <= x.at)
    ensures SameOn(code, code', y.at, End(y, dispatcher))
  {
    hide End;
  }

  lemma FreshUnlinked(code: Code, made: set<(Word, int)>, x: Exit, dispatcher: int)
    requires Fresh(code, x, dispatcher)
    ensures !Direct(code, made, x, true) && !Direct(code, made, x, false)
  {
  }

  /** The exit code of the blocks and what has been patched into it. */
  class Patcher {
    const dispatcher: int
    var words: Code
    /** `branch_cache_status`. */
    var status: map<Exit, bv3>
    var entry: map<Word, int>
    ghost var made: set<(Word, int)>
    ghost var exits: set<Exit>

    ghost predicate Valid()
      reads this
    {
      && Placed(exits, dispatcher)
      && (forall y | y in exits :: y in status && StatusOk(words, made, y, dispatcher, status[y]))
      && (forall spc | spc in entry :: (spc, entry[spc]) in made)
      && (forall p | p in made :: p.0 in entry)
    }

    /** Successor `t` of the region is linked. */
    ghost predicate Linked(x: Exit, t: bool)
      reads this
    {
      Direct(words, made, x, t)
    }

    constructor (dispatcher: int)
      ensures Valid() && exits == {} && entry == map[]
    {
      this.dispatcher := dispatcher;
      words, status, entry, made, exits := map[], map[], map[], {}, {};
    }

    /**
     `dispatcher_aarch64` for a conditional exit that asked for successor `t`, just translated to `block`. A second
     dispatch concerns the successor that is not linked yet and writes nothing but word 2.
     */
    method Dispatch(x: Exit, ghost t: bool, target: Word, block: int)
      requires Valid() && x in exits && target == Side(x, t) && target in entry && entry[target] == block && !Linked(x, t)
      modifies this`words, this`status
      ensures Valid()
      ensures (x.taken in entry ==> Linked(x, true)) && (x.skipped in entry ==> Linked(x, false))
      ensures forall y, u | y in exits && y != x && old(Linked(y, u)) :: Linked(y, u)
      ensures old(status[x]) != 0 ==> old(First(words, made, x, !t)) && words == old(words)[x.at + 8 := B(block + 4)]
    {
      hide Fresh, Intact, First, Direct, Placed, End;
      ghost var before := words;
      var isTaken := target == x.taken;
      if status[x] == 0 {
        var other := if isTaken then x.skipped else x.taken;
        FirstDispatch(words, made, x, dispatcher, isTaken, block);
        words := LinkFirst(words, x, isTaken, block);
        status := status[x := if isTaken then BRANCH_LINKED else FALLTHROUGH_LINKED];
        if other in entry {
          SecondDispatch(words, made, x, !isTaken, entry[other]);
          words := words[x.at + 8 := B(entry[other] + 4)];
          status := status[x := status[x] | BOTH_LINKED];
        }
      } else {
        UnlinkedIsOther(words, made, x, dispatcher, status[x], t);
        SecondDispatch(words, made, x, t, block);
        words := words[x.at + 8 := B(block + 4)];
        status := status[x := status[x] | BOTH_LINKED];
      }
      OthersKept(before, words, made, exits, old(status), x, dispatcher);
    }

    /** A block's exit region is emitted behind the code of the block. The other regions are left alone. */
    method AddExit(x: Exit)
      requires Valid() && forall y | y in exits :: End(x, dispatcher) <= y.at || End(y, dispatcher) <= x.at
      modifies this`words, this`status, this`exits
      ensures Valid() && exits == old(exits) + {x} && Fresh(words, x, dispatcher) && !Linked(x, true) && !Linked(x, false)
      ensures forall y, u | y in old(exits) && old(Linked(y, u)) :: Linked(y, u)
      ensures SameOutside(old(words), words, x.at, End(x, dispatcher))
    {
      hide StatusOk, End, ExitCode, Laid, Direct, Fresh, Length, SameOn;
      ghost var before := words;
      words := Emitted(words, x.at, ExitCode(x, dispatcher));
      EmittedIsLaid(before, x.at, ExitCode(x, dispatcher));
      EmittedIsFresh(words, x, dispatcher);
      NoStatus(words, made, x, dispatcher);
      FreshUnlinked(words, made, x, dispatcher);
      forall y | y in exits
        ensures StatusOk(words, made, y, dispatcher, status[y])
        ensures forall u :: Direct(before, made, y, u) ==> Direct(words, made, y, u)
      {
        OutsideSame(before, words, x, y, dispatcher);
        StatusFrame(before, words, made, made, y, dispatcher, status[y]);
        RegionFrame(before, words, made, made, y, dispatcher);
      }
      RegionNonempty(x, dispatcher);
      assert x !in exits;
      status, exits := status[x := 0], exits + {x};
    }

    /** A translation is published. */
    method Publish(spc: Word, block: int)
      requires Valid()
      modifies this`entry, this`made
      ensures Valid() && entry == old(entry)[spc := block] && made == old(made) + {(spc, block)}
    {
      hide StatusOk, Placed;
      forall y | y in exits ensures StatusOk(words, made + {(spc, block)}, y, dispatcher, status[y]) {
        StatusFrame(words, words, made, made + {(spc, block)}, y, dispatcher, status[y]);
      }
      entry, made := entry[spc := block], made + {(spc, block)};
    }

    /** `flush_code_cache`: no exit and no translation is left; the words stay where they are. */
    method Flush()
      modifies this`status, this`entry, this`made, this`exits
      ensures Valid() && exits == {} && entry == map[] && made == {}
      ensures status.Keys == old(status).Keys && forall y | y in status :: status[y] == 0
    {
      status := map y | y in status :: 0;
      entry, made, exits := map[], {}, {};
    }

    /** After any sequence of emissions, publications, dispatches and flushes: see `RegionSelects`. */
    lemma Executes(x: Exit, m: State)
      requires Valid() && x in exits && m.pc == x.at && Genuine(x.test)
      ensures if Linked(x, Passes(x.test, m)) then Arrives(words, made, m, Successor(x, m))
              else Calls(words, m, dispatcher, x.bb, Successor(x, m))
    {
      hide StatusOk, RegionOk, Direct, Passes, Arrives, Calls;
      StatusRegion(words, made, x, dispatcher, status[x]);
      RegionSelects(words, made, x, dispatcher, m);
    }
  }

  lemma NoStatus(code: Code, made: set<(Word, int)>, x: Exit, dispatcher: int)
    requires Fresh(code, x, dispatcher)
    ensures StatusOk(code, made, x, dispatcher, 0)
  {
  }

  /** An unlinked successor of a region that was dispatched before is the other one. */
  lemma UnlinkedIsOther(code: Code, made: set<(Word, int)>, x: Exit, dispatcher: int, status: bv3, t: bool)
    requires StatusOk(code, made, x, dispatcher, status) && status != 0 && !Direct(code, made, x, t)
    ensures First(code, made, x, !t) && (status == BRANCH_LINKED || status == FALLTHROUGH_LINKED)
  {
    hide First, Intact, Fresh;
  }
}
