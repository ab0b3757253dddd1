/** The dispatcher's view of the code cache: translations, exits and the links between them, updated in place. */
module LinkedCache {
  import opened Arith
  import opened CacheLayout
  import opened RiscvMachine
  import opened RiscvExits
  import opened ExitLinking
  import T = Trampolines

  /** The end of the code of an exit. */
  function End(x: Exit): int {
    if x.BranchExit? then TakenAt(x) + Length(Arm(x, x.taken)) + 8
    else x.at + Length(SAVE + [LoadOf(A0, x.taken), LoadOf(A1, x.bb)]) + 8
  }

  /** There is room for two links behind the branch. */
  lemma EndBound(x: Exit)
    ensures x.at + (if x.BranchExit? then 24 + LINK else LINK) <= End(x) <= x.at + 300
    ensures x.BranchExit? ==> x.at + 24 <= BranchAt(x)
  {
    if x.BranchExit? {
      PrepareLength(x.bb, x.skipped);
      var p := Prepare(x.bb, x.skipped);
      assert p == p[..Early(x)] + p[Early(x)..];
      LaidSplit(map[], 0, p[..Early(x)], p[Early(x)..]);
      LaidSplit(map[], 0, SAVE, [LoadOf(A1, x.bb), LoadOf(A0, x.skipped)]);
      SaveEffect(Machine(0, seq(32, _ => 0), map[]));
      ArmCompletes(x, Machine(0, seq(32, _ => 0), map[]), x.taken, 0);
    } else {
      PrepareLength(x.bb, x.taken);
      LaidSplit(map[], 0, SAVE, [LoadOf(A0, x.taken), LoadOf(A1, x.bb)]);
      SaveEffect(Machine(0, seq(32, _ => 0), map[]));
    }
  }

  ghost predicate SameOn(own: Code, own': Code, from: int, to: int) {
    forall a | from <= a < to :: (a in own <==> a in own') && (a in own ==> own[a] == own'[a])
  }

  ghost predicate SameOutside(own: Code, own': Code, from: int, to: int) {
    forall a | a < from || a >= to :: (a in own <==> a in own') && (a in own ==> own[a] == own'[a])
  }

  /** Links from inside `[from, to)` are kept. */
  ghost predicate KeepsLinks(links: set<T.Link>, links': set<T.Link>, from: int, to: int) {
    forall l | l in links && from <= l.source < to :: l in links'
  }

  lemma LinkedFrame(own: Code, own': Code, links: set<T.Link>, links': set<T.Link>, made: set<(Word, int)>, made': set<(Word, int)>,
                    at: int, spc: Word)
    requires Linked(own, links, made, at, spc) && SameOn(own, own', at, at + LINK)
             && KeepsLinks(links, links', at, at + LINK) && made <= made'
    ensures Linked(own', links', made', at, spc)
  {
    var entry :| (spc, entry) in made && LinkedTo(own, links, at, entry);
    assert LinkedTo(own', links', at, entry) by {
      if Laid(own, at, [Jal(entry + 6 - at)]) {
      } else if FarLink(own, at, entry) {
        PushEffect(Machine(0, seq(32, _ => 0), map[]));
        LaidTwo(own, at + 12, Auipc(A0, Upper(entry - (at + 12))), Jalr(A0, Lower(entry - (at + 12))));
        LaidFrame(own, own', at, PUSH);
        LaidFrame(own, own', at + 12, FarJump(A0, entry - (at + 12)));
      }
    }
  }

  lemma ArmFrame(own: Code, own': Code, at: int, arm: seq<Instr>, dispatcher: int)
    requires ArmLaid(own, at, arm, dispatcher) && SameOn(own, own', at, at + Length(arm) + 8)
    ensures ArmLaid(own', at, arm, dispatcher)
  {
    hide Laid, Length, Upper, Lower;
    var jump := at + Length(arm);
    LaidTwo(own, jump, Auipc(S1, Upper(dispatcher - jump)), Jalr(S1, Lower(dispatcher - jump)));
    LaidFrame(own, own', at, arm);
    LaidFrame(own, own', jump, FarJump(S1, dispatcher - jump));
  }

  lemma IntactFrame(own: Code, own': Code, x: Exit, dispatcher: int)
    requires Intact(own, x, dispatcher) && SameOn(own, own', if x.BranchExit? then x.at + 24 else x.at, End(x))
    ensures Intact(own', x, dispatcher)
  {
    EndBound(x);
    hide Prepare, Arm, Head, Laid, FarJump, ArmLaid, LoadOf;
    if x.BranchExit? {
      LaidFrame(own, own', x.at + 24, Head(x));
      LaidFrame(own, own', BranchAt(x), [Branch(x.cond, x.rs1, x.rs2, TakenAt(x) - BranchAt(x))]);
      ArmFrame(own, own', BranchAt(x) + 4, Arm(x, x.skipped), dispatcher);
      ArmFrame(own, own', TakenAt(x), Arm(x, x.taken), dispatcher);
    } else {
      ArmFrame(own, own', x.at, SAVE + [LoadOf(A0, x.taken), LoadOf(A1, x.bb)], dispatcher);
    }
  }

  lemma {:induction false} NopsLength(n: nat)
    ensures Length(Nops(n)) == 4 * n
  {
    if n > 0 {
      assert Nops(n)[1..] == Nops(n - 1);
      NopsLength(n - 1);
    }
  }

  /** The parts of a branch exit in front of its dispatcher code. */
  lemma BranchFrame(own: Code, own': Code, made: set<(Word, int)>, made': set<(Word, int)>, x: Exit)
    requires x.BranchExit? && SameOn(own, own', x.at, End(x)) && made <= made'
    ensures Laid(own, x.at, Nops(6)) ==> Laid(own', x.at, Nops(6))
    ensures Laid(own, x.at + 4, Nops(5)) ==> Laid(own', x.at + 4, Nops(5))
    ensures DirectBranch(own, made, x) ==> DirectBranch(own', made', x)
  {
    hide End, Laid, Length;
    EndBound(x);
    NopsLength(6);
    NopsLength(5);
    if Laid(own, x.at, Nops(6)) { LaidFrame(own, own', x.at, Nops(6)); }
    if Laid(own, x.at + 4, Nops(5)) { LaidFrame(own, own', x.at + 4, Nops(5)); }
    if DirectBranch(own, made, x) {
      var entry :| (x.taken, entry) in made && Laid(own, x.at, [Branch(x.cond, x.rs1, x.rs2, entry + 6 - x.at)]);
      InstrFrame(own, own', x.at, Branch(x.cond, x.rs1, x.rs2, entry + 6 - x.at));
    }
  }

  lemma InstrFrame(own: Code, own': Code, at: int, i: Instr)
    requires Laid(own, at, [i]) && SameOn(own, own', at, at + 1)
    ensures Laid(own', at, [i])
  {
    assert at in own;
  }

  /** The links to successor `t` of a branch exit. */
  lemma SideFrame(own: Code, own': Code, links: set<T.Link>, links': set<T.Link>, made: set<(Word, int)>, made': set<(Word, int)>,
                  x: Exit, t: bool)
    requires x.BranchExit? && SameOn(own, own', x.at, End(x)) && KeepsLinks(links, links', x.at, End(x)) && made <= made'
    ensures Linked(own, links, made, x.at + 4, Side(x, t)) ==> Linked(own', links', made', x.at + 4, Side(x, t))
    ensures Linked(own, links, made, x.at + 24, Side(x, t)) ==> Linked(own', links', made', x.at + 24, Side(x, t))
    ensures SkippingBranch(own, links, made, x, t) ==> SkippingBranch(own', links', made', x, t)
  {
    hide Linked, End;
    EndBound(x);
    var branch := [Branch(if t then Invert(x.cond) else x.cond, x.rs1, x.rs2, 24)];
    if Laid(own, x.at, branch) {
      Single(branch[0], Machine(0, seq(32, _ => 0), map[]));
      LaidFrame(own, own', x.at, branch);
    }
    if Linked(own, links, made, x.at + 4, Side(x, t)) { LinkedFrame(own, own', links, links', made, made', x.at + 4, Side(x, t)); }
    if Linked(own, links, made, x.at + 24, Side(x, t)) { LinkedFrame(own, own', links, links', made, made', x.at + 24, Side(x, t)); }
  }

  /** An exit whose bytes and links are left alone keeps its form and its linked successors. */
  lemma ExitFrame(own: Code, own': Code, links: set<T.Link>, links': set<T.Link>, made: set<(Word, int)>, made': set<(Word, int)>,
                  x: Exit, dispatcher: int)
    requires SameOn(own, own', x.at, End(x)) && KeepsLinks(links, links', x.at, End(x)) && made <= made'
    ensures ExitOk(own, links, made, x, dispatcher) ==> ExitOk(own', links', made', x, dispatcher)
    ensures forall t :: DirectTo(own, links, made, x, t) ==> DirectTo(own', links', made', x, t)
  {
    hide Intact, Linked, End, DirectBranch, SkippingBranch, Laid, SameOn, KeepsLinks;
    if x.JumpExit? {
      JumpFrame(own, own', links, links', made, made', x, dispatcher);
    } else {
      if Intact(own, x, dispatcher) { IntactFrameAll(own, own', x, dispatcher); }
      SideFrame(own, own', links, links', made, made', x, true);
      SideFrame(own, own', links, links', made, made', x, false);
      BranchFrame(own, own', made, made', x);
      assert Side(x, true) == x.taken && Side(x, false) == x.skipped;
      assert DirectTo(own, links, made, x, true) ==> DirectTo(own', links', made', x, true);
      assert DirectTo(own, links, made, x, false) ==> DirectTo(own', links', made', x, false);
      forall t ensures DirectTo(own, links, made, x, t) ==> DirectTo(own', links', made', x, t) {
        assert t == true || t == false;
      }
    }
  }

  lemma IntactFrameAll(own: Code, own': Code, x: Exit, dispatcher: int)
    requires Intact(own, x, dispatcher) && SameOn(own, own', x.at, End(x))
    ensures Intact(own', x, dispatcher)
  {
    EndBound(x);
    hide End;
    IntactFrame(own, own', x, dispatcher);
  }

  lemma JumpFrame(own: Code, own': Code, links: set<T.Link>, links': set<T.Link>, made: set<(Word, int)>, made': set<(Word, int)>,
                  x: Exit, dispatcher: int)
    requires SameOn(own, own', x.at, End(x)) && KeepsLinks(links, links', x.at, End(x)) && made <= made' && x.JumpExit?
    ensures ExitOk(own, links, made, x, dispatcher) ==> ExitOk(own', links', made', x, dispatcher)
    ensures forall t :: DirectTo(own, links, made, x, t) ==> DirectTo(own', links', made', x, t)
  {
    EndBound(x);
    if Intact(own, x, dispatcher) { IntactFrame(own, own', x, dispatcher); }
    hide Intact, Linked, End;
    if Linked(own, links, made, x.at, x.taken) { LinkedFrame(own, own', links, links', made, made', x.at, x.taken); }
  }

  // ---------- The whole cache ----------

  /** Exits, translations and spare areas do not overlap. */
  ghost predicate Placed(exits: set<Exit>, made: set<(Word, int)>, metas: seq<T.Spare>, lo: int, dispatcher: int) {
    && (forall x | x in exits :: Roomy(x, metas, lo, dispatcher))
    && (forall x, y | x in exits && y in exits && x != y :: End(x) <= y.at || End(y) <= x.at)
    && (forall x, p | x in exits && p in made :: p.1 + 6 <= x.at || End(x) <= p.1)
  }

  ghost predicate Roomy(x: Exit, metas: seq<T.Spare>, lo: int, dispatcher: int) {
    InWindow(lo, x.at) && InWindow(lo, x.at + 24) && Near(x.at, dispatcher) && NoSpareIn(metas, x.at, End(x))
  }

  ghost predicate Consistent(own: Code, metas: seq<T.Spare>, links: set<T.Link>, made: set<(Word, int)>, exits: set<Exit>,
                             lo: int, dispatcher: int) {
    && Apart(own, metas) && EntriesOk(own, made, lo) && Placed(exits, made, metas, lo, dispatcher)
    && forall x | x in exits :: ExitOk(own, links, made, x, dispatcher)
  }

  lemma AreasKept(own: Code, metas: seq<T.Spare>, metas': seq<T.Spare>, made: set<(Word, int)>, exits: set<Exit>,
        lo: int, dispatcher: int)
    requires T.SameAreas(metas, metas')
    ensures Apart(own, metas) ==> Apart(own, metas')
    ensures Placed(exits, made, metas, lo, dispatcher) ==> Placed(exits, made, metas', lo, dispatcher)
  {
    assert forall i, a | 0 <= i < |metas| :: T.InSpare(metas'[i], a) == T.InSpare(metas[i], a);
  }

  lemma OtherExit(own: Code, own': Code, metas: seq<T.Spare>, links: set<T.Link>, links': set<T.Link>,
                  made: set<(Word, int)>, exits: set<Exit>, lo: int, dispatcher: int, x: Exit, y: Exit)
    requires Placed(exits, made, metas, lo, dispatcher) && x in exits && y in exits && y != x
    requires ExitOk(own, links, made, y, dispatcher) && SameOutside(own, own', x.at, End(x))
    requires forall l | l in links && !(x.at <= l.source < End(x)) :: l in links'
    ensures ExitOk(own', links', made, y, dispatcher)
    ensures forall t :: DirectTo(own, links, made, y, t) ==> DirectTo(own', links', made, y, t)
  {
    hide ExitOk, DirectTo, End;
    ExitFrame(own, own', links, links', made, made, y, dispatcher);
  }

  lemma EntriesKept(own: Code, own': Code, metas: seq<T.Spare>, made: set<(Word, int)>, exits: set<Exit>, lo: int,
        dispatcher: int, x: Exit)
    requires Placed(exits, made, metas, lo, dispatcher) && x in exits && EntriesOk(own, made, lo)
             && SameOutside(own, own', x.at, End(x))
    ensures EntriesOk(own', made, lo)
  {
    hide End;
    forall p | p in made ensures IsEntry(own', p.1) {
      Effect3(POP[0], POP[1], POP[2], Machine(0, seq(32, _ => 0), map[]));
      LaidFrame(own, own', p.1, POP);
    }
  }

  /** Rewriting one exit leaves the rest of the cache consistent. */
  lemma OthersKept(own: Code, own': Code, metas: seq<T.Spare>, metas': seq<T.Spare>, links: set<T.Link>, links': set<T.Link>,
                   made: set<(Word, int)>, exits: set<Exit>, lo: int, dispatcher: int, x: Exit)
    requires Consistent(own, metas, links, made, exits, lo, dispatcher) && x in exits && T.SameAreas(metas, metas')
    requires SameOutside(own, own', x.at, End(x)) && Apart(own', metas')
    requires forall l | l in links && !(x.at <= l.source < End(x)) :: l in links'
    requires ExitOk(own', links', made, x, dispatcher)
    ensures Consistent(own', metas', links', made, exits, lo, dispatcher)
    ensures forall y, t | y in exits && y != x && DirectTo(own, links, made, y, t) :: DirectTo(own', links', made, y, t)
  {
    AreasKept(own, metas, metas', made, exits, lo, dispatcher);
    EntriesKept(own, own', metas, made, exits, lo, dispatcher, x);
    hide ExitOk, DirectTo, End, Placed, EntriesOk, Apart, SameOutside, T.SameAreas;
    forall y | y in exits && y != x
      ensures ExitOk(own', links', made, y, dispatcher)
      ensures forall t :: DirectTo(own, links, made, y, t) ==> DirectTo(own', links', made, y, t)
    {
      OtherExit(own, own', metas, links, links', made, exits, lo, dispatcher, x, y);
    }
  }

  ghost predicate NoSpareIn(metas: seq<T.Spare>, from: int, to: int) {
    forall a, i | from <= a < to && 0 <= i < |metas| :: !T.InSpare(metas[i], a)
  }

  lemma NoSpareKept(metas: seq<T.Spare>, metas': seq<T.Spare>, from: int, to: int)
    requires T.SameAreas(metas, metas') && NoSpareIn(metas, from, to)
    ensures forall a, b | from <= a <= b <= to :: NoSpareIn(metas', a, b)
    ensures from < to ==> forall i | 0 <= i < |metas| :: !T.InSpare(metas[i], from)
    ensures T.SameAreas(metas, metas)
  {
    forall a, i | from <= a < to && 0 <= i < |metas'| ensures !T.InSpare(metas'[i], a) {
      assert !T.InSpare(metas[i], a);
    }
  }

  lemma WriteApart(own: Code, metas: seq<T.Spare>, at: int, s: seq<Instr>)
    requires Apart(own, metas) && NoSpareIn(metas, at, at + Length(s))
    ensures var own' := Emit(own, at, s);
            Apart(own', metas) && Laid(own', at, s) && SameOutside(own, own', at, at + Length(s))
  {
    var own' := Emit(own, at, s);
    EmitLaid(own, at, s);
    forall a | a < at || a >= at + Length(s)
      ensures (a in own <==> a in own') && (a in own ==> own[a] == own'[a])
    {
      EmitFrame(own, at, s, a);
    }
  }

  /** The one-JAL form with its padding. */
  function DirectCode(at: int, target: int): seq<Instr> {
    [Jal(target + 6 - at)] + Nops(4)
  }

  function FarCode(at: int, target: int): seq<Instr> {
    PUSH + FarJump(A0, target - (at + 12))
  }

  lemma LinkSizes(at: int, target: int)
    ensures Length(DirectCode(at, target)) == Length(FarCode(at, target)) == LINK && Length(Nops(4)) == 16
  {
    NopsLength(4);
    LaidSplit(map[], at, [Jal(target + 6 - at)], Nops(4));
    Single(Jal(target + 6 - at), Machine(0, seq(32, _ => 0), map[]));
    LaidSplit(map[], at, PUSH, FarJump(A0, target - (at + 12)));
    PushEffect(Machine(0, seq(32, _ => 0), map[]));
    LaidTwo(map[], at + 12, Auipc(A0, Upper(target - (at + 12))), Jalr(A0, Lower(target - (at + 12))));
  }

  lemma DirectForm(own: Code, links: set<T.Link>, at: int, target: int)
    requires Laid(own, at, DirectCode(at, target))
    ensures LinkedTo(own, links, at, target)
  {
    LaidSplit(own, at, [Jal(target + 6 - at)], Nops(4));
  }

  lemma FarForm(own: Code, links: set<T.Link>, at: int, target: int)
    requires Laid(own, at, FarCode(at, target))
    ensures LinkedTo(own, links, at, target)
  {
    LaidSplit(own, at, PUSH, FarJump(A0, target - (at + 12)));
    PushEffect(Machine(0, seq(32, _ => 0), map[]));
  }

  lemma HopForm(own: Code, metas: seq<T.Spare>, links: set<T.Link>, code': T.Code, links': set<T.Link>, at: int, target: int)
    requires T.Linked(metas, links, code', links', at, target + 6)
    ensures LinkedTo(Emit(own - {at}, at + 4, Nops(4)), links', at, target)
  {
    var cells :| T.Link(at, cells, target + 6) in links';
    NopsLength(4);
    EmitFrame(own - {at}, at + 4, Nops(4), at);
    assert T.Link(at, cells, target + 6).source == at;
  }

  /** The trampoline form leaves the first word to the JAL in `Trampolines.Cache`. */
  lemma HopWrite(own: Code, metas: seq<T.Spare>, at: int)
    requires Apart(own, metas) && NoSpareIn(metas, at, at + LINK)
    ensures var own' := Emit(own - {at}, at + 4, Nops(4));
            Apart(own', metas) && SameOutside(own, own', at, at + LINK)
  {
    NopsLength(4);
    WriteApart(own - {at}, metas, at + 4, Nops(4));
  }

  lemma HopLinks(metas: seq<T.Spare>, links: set<T.Link>, code': T.Code, links': set<T.Link>, source: int, target: int)
    requires T.Linked(metas, links, code', links', source, target)
    ensures forall l | l in links && l.source != source :: l in links'
    ensures forall l | l in links' :: l in links || l.source == source
  {
  }

  lemma SameMetas(metas: seq<T.Spare>)
    ensures T.SameAreas(metas, metas)
  {
  }

  // ---------- riscv_link_branch ----------

  /**
   While a successor is not linked, the dispatcher code is in place, and the exit is either untouched or linked to
   a translation of the other successor: on a second dispatch both successors are translated.
   */
  lemma SecondDispatch(own: Code, links: set<T.Link>, made: set<(Word, int)>, x: Exit, dispatcher: int, t: bool)
    requires x.BranchExit? && ExitOk(own, links, made, x, dispatcher) && !DirectTo(own, links, made, x, t)
    ensures Intact(own, x, dispatcher)
    ensures Laid(own, x.at, Nops(6)) || exists p :: p in made && p.0 == Side(x, !t)
  {
    hide Intact, LinkedTo, Laid;
    if DirectBranch(own, made, x) {
      var entry :| (x.taken, entry) in made && Laid(own, x.at, [Branch(x.cond, x.rs1, x.rs2, entry + 6 - x.at)]);
      assert (x.taken, entry).0 == x.taken;
    } else if SkippingBranch(own, links, made, x, !t) {
      var entry :| (Side(x, !t), entry) in made && LinkedTo(own, links, x.at + 4, entry);
      assert (Side(x, !t), entry).0 == Side(x, !t);
    }
  }

  /** The second arm: with the target absent its "address" is the odd number 2^32 + 5, otherwise the first arm has just failed. */
  lemma SecondArmNeverFires(x: Exit, lo: int, takenIn: bool, target: int)
    requires InWindow(lo, x.at) && (if takenIn then !BranchOffset(target + 6 - x.at) else target == UINT_MAX)
    ensures !BranchOffset(target + 6 - x.at)
  {
  }

  lemma OutsideTrans(a: Code, b: Code, c: Code, from1: int, to1: int, from2: int, to2: int, from: int, to: int)
    requires SameOutside(a, b, from1, to1) && SameOutside(b, c, from2, to2)
    requires from <= from1 && from <= from2 && to1 <= to && to2 <= to
    ensures SameOutside(a, c, from, to)
  {
  }

  lemma AreasTrans(a: seq<T.Spare>, b: seq<T.Spare>, c: seq<T.Spare>)
    requires T.SameAreas(a, b) && T.SameAreas(b, c)
    ensures T.SameAreas(a, c)
  {
  }

  lemma LinkedToKept(a: Code, b: Code, links: set<T.Link>, links': set<T.Link>, at: int, target: int, from: int, to: int)
    requires LinkedTo(a, links, at, target) && SameOutside(a, b, from, to) && (at + LINK <= from || to <= at)
    requires at < from || at >= to
    requires forall l | l in links && (l.source < from || l.source >= to) :: l in links'
    ensures LinkedTo(b, links', at, target)
  {
    if Laid(a, at, [Jal(target + 6 - at)]) {
      InstrKept(a, b, at, Jal(target + 6 - at), from, to);
    } else if FarLink(a, at, target) {
      LinkSizes(at, target);
      LaidSplit(a, at, PUSH, FarJump(A0, target - (at + 12)));
      PushEffect(Machine(0, seq(32, _ => 0), map[]));
      LaidFrame(a, b, at, FarCode(at, target));
      FarForm(b, links', at, target);
    }
  }

  /** What `riscv_link_branch` can rely on. */
  lemma Ready(own: Code, metas: seq<T.Spare>, links: set<T.Link>, made: set<(Word, int)>, exits: set<Exit>, lo: int,
        dispatcher: int,
              x: Exit, t: bool)
    requires Consistent(own, metas, links, made, exits, lo, dispatcher) && x in exits && x.BranchExit?
    requires !DirectTo(own, links, made, x, t)
    ensures Intact(own, x, dispatcher) && Apart(own, metas) && InWindow(lo, x.at) && x.at + 44 <= End(x)
    ensures Laid(own, x.at, Nops(6)) || exists p :: p in made && p.0 == Side(x, !t)
    ensures NoSpareIn(metas, x.at, End(x)) && T.SameAreas(metas, metas)
  {
    EndBound(x);
    hide End, Apart;
    SecondDispatch(own, links, made, x, dispatcher, t);
  }

  lemma InstrKept(a: Code, b: Code, at: int, i: Instr, from: int, to: int)
    requires Laid(a, at, [i]) && SameOutside(a, b, from, to) && (at < from || at >= to)
    ensures Laid(b, at, [i])
  {
  }

  lemma MadeLinked(own: Code, links: set<T.Link>, made: set<(Word, int)>, at: int, spc: Word, entry: int)
    requires (spc, entry) in made && LinkedTo(own, links, at, entry)
    ensures Linked(own, links, made, at, spc)
  {
  }

  lemma NopsTail(own: Code, at: int)
    requires Laid(own, at, Nops(6))
    ensures Laid(own, at + 4, Nops(5))
  {
    assert Nops(6)[1..] == Nops(5);
  }

  /** The first arm, with only the taken successor translated. */
  lemma BranchOnly(own: Code, own': Code, links: set<T.Link>, made: set<(Word, int)>, x: Exit, dispatcher: int, entry: int)
    requires x.BranchExit? && Laid(own, x.at, Nops(6)) && Intact(own, x, dispatcher) && (x.taken, entry) in made
    requires Laid(own', x.at, [Branch(x.cond, x.rs1, x.rs2, entry + 6 - x.at)]) && SameOutside(own, own', x.at, x.at + 4)
    ensures ExitOk(own', links, made, x, dispatcher) && DirectTo(own', links, made, x, true)
  {
    hide Intact, Linked, Laid, End, Nops, Length;
    IntactFrame(own, own', x, dispatcher);
    NopsTail(own, x.at);
    NopsLength(5);
    LaidFrame(own, own', x.at + 4, Nops(5));
    assert DirectBranch(own', made, x);
  }

  /** The first arm, with both translated. */
  lemma BranchAndLink(own: Code, links: set<T.Link>, made: set<(Word, int)>, x: Exit, dispatcher: int, entry: int)
    requires x.BranchExit? && Laid(own, x.at, [Branch(x.cond, x.rs1, x.rs2, entry + 6 - x.at)]) && (x.taken, entry) in made
    requires Linked(own, links, made, x.at + 4, x.skipped)
    ensures ExitOk(own, links, made, x, dispatcher)
    ensures DirectTo(own, links, made, x, true) && DirectTo(own, links, made, x, false)
  {
    hide Linked, Intact;
    assert DirectBranch(own, made, x);
  }

  /** The last arm, linking successor `t` and, when it is translated too, the other one. */
  lemma SkipOne(own: Code, own': Code, links: set<T.Link>, made: set<(Word, int)>, x: Exit, dispatcher: int, t: bool)
    requires x.BranchExit? && Intact(own, x, dispatcher) && SameOutside(own, own', x.at, x.at + 24)
    requires Laid(own', x.at, [Branch(if t then Invert(x.cond) else x.cond, x.rs1, x.rs2, 24)])
    requires Linked(own', links, made, x.at + 4, Side(x, t))
    ensures ExitOk(own', links, made, x, dispatcher) && DirectTo(own', links, made, x, t)
  {
    hide Linked, Intact, DirectBranch;
    IntactFrame(own, own', x, dispatcher);
    assert SkippingBranch(own', links, made, x, t);
  }

  lemma SkipBoth(own: Code, links: set<T.Link>, made: set<(Word, int)>, x: Exit, dispatcher: int, t: bool)
    requires x.BranchExit? && Laid(own, x.at, [Branch(if t then Invert(x.cond) else x.cond, x.rs1, x.rs2, 24)])
    requires Linked(own, links, made, x.at + 4, Side(x, t)) && Linked(own, links, made, x.at + 24, Side(x, !t))
    ensures ExitOk(own, links, made, x, dispatcher)
    ensures DirectTo(own, links, made, x, true) && DirectTo(own, links, made, x, false)
  {
    hide Linked, Intact, DirectBranch;
    assert SkippingBranch(own, links, made, x, t);
  }

  /** The first arm with both successors translated: the state before, after the branch and after the link. */
  lemma NearBoth(own0: Code, own1: Code, own2: Code, links: set<T.Link>, made: set<(Word, int)>, x: Exit,
        dispatcher: int, target: int, other: int)
    requires x.BranchExit? && (x.taken, target) in made && (x.skipped, other) in made
    requires Laid(own1, x.at, [Branch(x.cond, x.rs1, x.rs2, target + 6 - x.at)]) && SameOutside(own0, own1, x.at, x.at + 4)
    requires LinkedTo(own2, links, x.at + 4, other) && SameOutside(own1, own2, x.at + 4, x.at + 24)
    ensures ExitOk(own2, links, made, x, dispatcher) && SameOutside(own0, own2, x.at, End(x))
    ensures DirectTo(own2, links, made, x, true) && DirectTo(own2, links, made, x, false)
  {
    hide ExitOk, DirectTo, End, Linked, LinkedTo;
    EndBound(x);
    InstrKept(own1, own2, x.at, Branch(x.cond, x.rs1, x.rs2, target + 6 - x.at), x.at + 4, x.at + 24);
    MadeLinked(own2, links, made, x.at + 4, x.skipped, other);
    BranchAndLink(own2, links, made, x, dispatcher, target);
    OutsideTrans(own0, own1, own2, x.at, x.at + 4, x.at + 4, x.at + 24, x.at, End(x));
  }

  lemma NearOne(own0: Code, own1: Code, links: set<T.Link>, made: set<(Word, int)>, x: Exit, dispatcher: int, target: int)
    requires x.BranchExit? && Laid(own0, x.at, Nops(6)) && Intact(own0, x, dispatcher) && (x.taken, target) in made
    requires Laid(own1, x.at, [Branch(x.cond, x.rs1, x.rs2, target + 6 - x.at)]) && SameOutside(own0, own1, x.at, x.at + 4)
    ensures ExitOk(own1, links, made, x, dispatcher) && DirectTo(own1, links, made, x, true)
    ensures SameOutside(own0, own1, x.at, End(x))
  {
    hide ExitOk, DirectTo, End, Intact;
    EndBound(x);
    BranchOnly(own0, own1, links, made, x, dispatcher, target);
  }

  /** The last arm: after the link and after the branch around it. */
  lemma AroundOne(own0: Code, own1: Code, own2: Code, links: set<T.Link>, made: set<(Word, int)>, x: Exit,
        dispatcher: int, t: bool, target: int)
    requires x.BranchExit? && Intact(own0, x, dispatcher) && (Side(x, t), target) in made
    requires LinkedTo(own1, links, x.at + 4, target) && SameOutside(own0, own1, x.at + 4, x.at + 24)
    requires Laid(own2, x.at, [Branch(if t then Invert(x.cond) else x.cond, x.rs1, x.rs2, 24)])
             && SameOutside(own1, own2, x.at, x.at + 4)
    ensures ExitOk(own2, links, made, x, dispatcher) && DirectTo(own2, links, made, x, t)
    ensures LinkedTo(own2, links, x.at + 4, target) && SameOutside(own0, own2, x.at, x.at + 24)
            && SameOutside(own0, own2, x.at, End(x))
  {
    hide ExitOk, DirectTo, End, Linked, LinkedTo, Intact;
    EndBound(x);
    LinkedToKept(own1, own2, links, links, x.at + 4, target, x.at, x.at + 4);
    OutsideTrans(own0, own1, own2, x.at + 4, x.at + 24, x.at, x.at + 4, x.at, x.at + 24);
    OutsideTrans(own0, own1, own2, x.at + 4, x.at + 24, x.at, x.at + 4, x.at, End(x));
    MadeLinked(own2, links, made, x.at + 4, Side(x, t), target);
    SkipOne(own0, own2, links, made, x, dispatcher, t);
  }

  /** Then the link to the other successor. */
  lemma AroundBoth(own0: Code, own2: Code, own3: Code, links2: set<T.Link>, links3: set<T.Link>, made: set<(Word, int)>,
                   x: Exit, dispatcher: int, target: int, other: int)
    requires x.BranchExit? && (x.taken, target) in made && (x.skipped, other) in made && SameOutside(own0, own2, x.at, x.at + 24)
    requires LinkedTo(own2, links2, x.at + 4, target) && Laid(own2, x.at, [Branch(Invert(x.cond), x.rs1, x.rs2, 24)])
    requires LinkedTo(own3, links3, x.at + 24, other) && SameOutside(own2, own3, x.at + 24, x.at + 44)
    requires forall l | l in links2 && l.source != x.at + 24 :: l in links3
    ensures ExitOk(own3, links3, made, x, dispatcher) && SameOutside(own0, own3, x.at, End(x))
    ensures DirectTo(own3, links3, made, x, true) && DirectTo(own3, links3, made, x, false)
  {
    hide ExitOk, DirectTo, End, Linked, LinkedTo;
    EndBound(x);
    LinkedToKept(own2, own3, links2, links3, x.at + 4, target, x.at + 24, x.at + 44);
    InstrKept(own2, own3, x.at, Branch(Invert(x.cond), x.rs1, x.rs2, 24), x.at + 24, x.at + 44);
    MadeLinked(own3, links3, made, x.at + 4, x.taken, target);
    MadeLinked(own3, links3, made, x.at + 24, x.skipped, other);
    SkipBoth(own3, links3, made, x, dispatcher, true);
    OutsideTrans(own0, own2, own3, x.at, x.at + 24, x.at + 24, x.at + 44, x.at, End(x));
  }

  // ---------- New code ----------

  function ArmCode(at: int, arm: seq<Instr>, dispatcher: int): seq<Instr> {
    arm + FarJump(S1, dispatcher - (at + Length(arm)))
  }

  /** What `riscv_cond_branch` and `riscv_jump` emit. */
  function ExitCode(x: Exit, dispatcher: int): seq<Instr> {
    if x.BranchExit? then
      Nops(6) + (Head(x) + ([Branch(x.cond, x.rs1, x.rs2, TakenAt(x) - BranchAt(x))]
      + (ArmCode(BranchAt(x) + 4, Arm(x, x.skipped), dispatcher) + ArmCode(TakenAt(x), Arm(x, x.taken), dispatcher))))
    else ArmCode(x.at, SAVE + [LoadOf(A0, x.taken), LoadOf(A1, x.bb)], dispatcher)
  }

  lemma ArmCodeLaid(code: Code, at: int, arm: seq<Instr>, dispatcher: int)
    ensures Laid(code, at, ArmCode(at, arm, dispatcher)) <==> ArmLaid(code, at, arm, dispatcher)
    ensures Length(ArmCode(at, arm, dispatcher)) == Length(arm) + 8
  {
    var jump := at + Length(arm);
    LaidSplit(code, at, arm, FarJump(S1, dispatcher - jump));
    LaidTwo(code, jump, Auipc(S1, Upper(dispatcher - jump)), Jalr(S1, Lower(dispatcher - jump)));
  }

  /** The emitted code is an exit with nothing linked. */
  lemma ExitCodeOk(code: Code, x: Exit, dispatcher: int)
    requires Laid(code, x.at, ExitCode(x, dispatcher))
    ensures Intact(code, x, dispatcher) && (x.BranchExit? ==> Laid(code, x.at, Nops(6)))
  {
    hide Laid, Prepare, Arm, Head, LoadOf, ArmLaid, ArmCode, Length;
    if x.BranchExit? {
      var branch := [Branch(x.cond, x.rs1, x.rs2, TakenAt(x) - BranchAt(x))];
      var a, b := ArmCode(BranchAt(x) + 4, Arm(x, x.skipped), dispatcher), ArmCode(TakenAt(x), Arm(x, x.taken), dispatcher);
      NopsLength(6);
      LaidSplit(code, x.at, Nops(6), Head(x) + (branch + (a + b)));
      LaidSplit(code, x.at + 24, Head(x), branch + (a + b));
      LaidSplit(code, BranchAt(x), branch, a + b);
      Single(branch[0], Machine(0, seq(32, _ => 0), map[]));
      LaidSplit(code, BranchAt(x) + 4, a, b);
      ArmCodeLaid(code, BranchAt(x) + 4, Arm(x, x.skipped), dispatcher);
      ArmCodeLaid(code, TakenAt(x), Arm(x, x.taken), dispatcher);
    } else {
      ArmCodeLaid(code, x.at, SAVE + [LoadOf(A0, x.taken), LoadOf(A1, x.bb)], dispatcher);
    }
  }

  lemma ExitCodeLength(x: Exit, dispatcher: int)
    ensures x.at + Length(ExitCode(x, dispatcher)) == End(x)
  {
    hide Laid, Prepare, Arm, Head, LoadOf, ArmLaid, ArmCode, Length;
    if x.BranchExit? {
      var branch := [Branch(x.cond, x.rs1, x.rs2, TakenAt(x) - BranchAt(x))];
      var a, b := ArmCode(BranchAt(x) + 4, Arm(x, x.skipped), dispatcher), ArmCode(TakenAt(x), Arm(x, x.taken), dispatcher);
      NopsLength(6);
      LaidSplit(map[], 0, Nops(6), Head(x) + (branch + (a + b)));
      LaidSplit(map[], 0, Head(x), branch + (a + b));
      LaidSplit(map[], 0, branch, a + b);
      Single(branch[0], Machine(0, seq(32, _ => 0), map[]));
      LaidSplit(map[], 0, a, b);
      ArmCodeLaid(map[], BranchAt(x) + 4, Arm(x, x.skipped), dispatcher);
      ArmCodeLaid(map[], TakenAt(x), Arm(x, x.taken), dispatcher);
    } else {
      ArmCodeLaid(map[], x.at, SAVE + [LoadOf(A0, x.taken), LoadOf(A1, x.bb)], dispatcher);
    }
  }

  lemma Parts(own: Code, metas: seq<T.Spare>, links: set<T.Link>, made: set<(Word, int)>, exits: set<Exit>, lo: int,
        dispatcher: int)
    requires Consistent(own, metas, links, made, exits, lo, dispatcher)
    ensures Apart(own, metas)
  {
  }

  /** New code in a place of its own disturbs no exit and no translation. */
  ghost predicate Clear(exits: set<Exit>, made: set<(Word, int)>, from: int, to: int) {
    && (forall y | y in exits :: to <= y.at || End(y) <= from)
    && (forall p | p in made :: p.1 + 6 <= from || to <= p.1)
  }

  lemma NewCode(own: Code, own': Code, metas: seq<T.Spare>, links: set<T.Link>, made: set<(Word, int)>, exits: set<Exit>,
                lo: int, dispatcher: int, from: int, to: int)
    requires Consistent(own, metas, links, made, exits, lo, dispatcher) && Clear(exits, made, from, to)
    requires SameOutside(own, own', from, to) && Apart(own', metas)
    ensures Consistent(own', metas, links, made, exits, lo, dispatcher)
    ensures forall y, t | y in exits && DirectTo(own, links, made, y, t) :: DirectTo(own', links, made, y, t)
  {
    hide ExitOk, DirectTo, End, IsEntry;
    forall y | y in exits
      ensures ExitOk(own', links, made, y, dispatcher)
      ensures forall t :: DirectTo(own, links, made, y, t) ==> DirectTo(own', links, made, y, t)
    {
      ExitFrame(own, own', links, links, made, made, y, dispatcher);
    }
    forall p | p in made ensures IsEntry(own', p.1) { EntryFrame(own, own', p.1, from, to); }
  }

  lemma EntryFrame(own: Code, own': Code, entry: int, from: int, to: int)
    requires IsEntry(own, entry) && SameOutside(own, own', from, to) && (entry + 6 <= from || to <= entry)
    ensures IsEntry(own', entry)
  {
    Effect3(POP[0], POP[1], POP[2], Machine(0, seq(32, _ => 0), map[]));
    LaidFrame(own, own', entry, POP);
  }

  lemma NewExit(own: Code, metas: seq<T.Spare>, links: set<T.Link>, made: set<(Word, int)>, exits: set<Exit>, lo: int,
        dispatcher: int, x: Exit)
    requires Consistent(own, metas, links, made, exits, lo, dispatcher) && Roomy(x, metas, lo, dispatcher)
    requires Clear(exits, made, x.at, End(x)) && ExitOk(own, links, made, x, dispatcher)
    ensures Consistent(own, metas, links, made, exits + {x}, lo, dispatcher)
  {
    hide ExitOk, DirectTo, End, Roomy, EntriesOk, Apart;
  }

  lemma NewEntry(own: Code, metas: seq<T.Spare>, links: set<T.Link>, made: set<(Word, int)>, exits: set<Exit>, lo: int,
        dispatcher: int,
                 spc: Word, at: int)
    requires Consistent(own, metas, links, made, exits, lo, dispatcher) && Clear(exits, made, at, at + 6)
    requires InWindow(lo, at) && IsEntry(own, at)
    ensures Consistent(own, metas, links, made + {(spc, at)}, exits, lo, dispatcher)
    ensures forall y, t | y in exits && DirectTo(own, links, made, y, t) :: DirectTo(own, links, made + {(spc, at)}, y, t)
  {
    hide ExitOk, DirectTo, End, Roomy, IsEntry, InWindow, Apart;
    forall y | y in exits
      ensures ExitOk(own, links, made + {(spc, at)}, y, dispatcher)
      ensures forall t :: DirectTo(own, links, made, y, t) ==> DirectTo(own, links, made + {(spc, at)}, y, t)
    {
      ExitFrame(own, own, links, links, made, made + {(spc, at)}, y, dispatcher);
    }
  }

  lemma HopMade(metas: seq<T.Spare>, links: set<T.Link>, code': T.Code, links': set<T.Link>, source: int, target: int)
    requires T.Linked(metas, links, code', links', source, target)
    ensures exists l :: l in links' && l.source == source && l.target == target
  {
    var cells :| T.Link(source, cells, target) in links';
    assert T.Link(source, cells, target).source == source;
  }

  /** What `riscv_link_branch` records, newest first: links to both successors as far as they are translated. */
  function BranchRecords(x: Exit, entry: map<Word, int>): seq<(int, int)>
    requires x.BranchExit? && (x.taken in entry || x.skipped in entry)
  {
    if x.taken !in entry then [(x.at + 4, entry[x.skipped])]
    else
      var near := BranchOffset(entry[x.taken] + 6 - x.at);
      (if x.skipped in entry then [(x.at + if near then 4 else 24, entry[x.skipped])] else [])
      + [if near then (x.at, entry[x.taken] + 6) else (x.at + 4, entry[x.taken])]
  }

  /** Whoever replaces the translation of a successor finds the link to it in the list of the old translation's block. */
  lemma SuccessorsRecorded(x: Exit, entry: map<Word, int>, t: bool)
    requires x.BranchExit? && Side(x, t) in entry && entry[Side(x, t)] % BLOCK_BYTES == 0
    requires 0 <= entry[Side(x, t)] < CODE_CACHE_SIZE * BLOCK_BYTES
    ensures exists k :: 0 <= k < |BranchRecords(x, entry)|
                        && x.at <= BranchRecords(x, entry)[k].0 < End(x)
                              && BbId(BranchRecords(x, entry)[k].1) == BbId(entry[Side(x, t)])
  {
    EndBound(x);
    hide End;
    var entryAt := entry[Side(x, t)];
    assert BbId(entryAt + 6) == BbId(entryAt);
    var r := BranchRecords(x, entry);
    var k := if Side(x, t) == x.taken && x.taken in entry then |r| - 1 else 0;
    assert 0 <= k < |r| && x.at <= r[k].0 < End(x) && BbId(r[k].1) == BbId(entryAt);
  }

  /** Every link by trampolines starts in an exit. */
  ghost predicate LinksInside(links: set<T.Link>, exits: set<Exit>) {
    forall l | l in links :: exists x :: x in exits && x.at <= l.source < End(x)
  }

  lemma InsideKept(links: set<T.Link>, links': set<T.Link>, exits: set<Exit>, exits': set<Exit>, x: Exit)
    requires LinksInside(links, exits) && exits <= exits' && x in exits' && forall l | l in links' :: l in links || x.at <= l.source < End(x)
    ensures LinksInside(links', exits')
  {
    hide End;
  }

  /** Spare cells at the end of a freshly scanned block, apart from everything else. */
  ghost predicate Vacant(own: Code, metas: seq<T.Spare>, exits: set<Exit>, spare: T.Spare) {
    && T.Layout(metas + [spare]) && (spare.Spare? ==> spare.used == 0)
    && (forall a | a in own :: !T.InSpare(spare, a))
    && (forall x, a | x in exits && x.at <= a < End(x) :: !T.InSpare(spare, a))
  }

  lemma NewSpare(own: Code, metas: seq<T.Spare>, links: set<T.Link>, made: set<(Word, int)>, exits: set<Exit>, lo: int,
        dispatcher: int,
                 spare: T.Spare)
    requires Consistent(own, metas, links, made, exits, lo, dispatcher) && LinksInside(links, exits)
             && Vacant(own, metas, exits, spare)
    ensures Consistent(own, metas + [spare], links, made, exits, lo, dispatcher)
    ensures forall l | l in links :: !T.InSpare(spare, l.source)
  {
    hide End, ExitOk, EntriesOk, T.Layout, T.InSpare, InWindow, Near;
    var metas' := metas + [spare];
    forall x | x in exits ensures Roomy(x, metas', lo, dispatcher) { assert Roomy(x, metas, lo, dispatcher); }
  }

  class Linker {
    const cache: T.Cache
    const lo: int
    const dispatcher: int
    var own: Code
    /** `entry_address`, the translations found by `cc_lookup`. */
    var entry: map<Word, int>
    /** The calls of `record_cc_link` since the last flush, newest first. */
    var records: seq<(int, int)>
    ghost var made: set<(Word, int)>
    ghost var exits: set<Exit>

    ghost predicate Valid()
      reads this, cache
    {
      && cache.Valid() && Consistent(own, cache.metas, cache.links, made, exits, lo, dispatcher) && LinksInside(cache.links, exits)
      && (forall spc | spc in entry :: (spc, entry[spc]) in made)
      && (forall p | p in made :: p.0 in entry)
    }

    /** Successor `t` of an exit is linked. */
    ghost predicate Direct(x: Exit, t: bool)
      reads this, cache
    {
      DirectTo(own, cache.links, made, x, t)
    }

    constructor (lo: int, dispatcher: int)
      ensures Valid() && fresh(cache) && entry == map[] && exits == {} && records == []
    {
      cache := new T.Cache();
      this.lo, this.dispatcher := lo, dispatcher;
      own, entry, records, made, exits := map[], map[], [], {}, {};
    }

    /** `flush_code_cache`: no translation or exit survives. */
    method Flush()
      requires Valid()
      modifies this, cache
      ensures Valid() && entry == map[] && exits == {} && made == {} && records == []
    {
      cache.Flush();
      own, entry, records, made, exits := map[], map[], [], {}, {};
    }

    /** The end of `scan_riscv`: a block with room behind its code offers its cells to later links. */
    method AddSpare(spare: T.Spare)
      requires Valid() && Vacant(own, cache.metas, exits, spare)
      modifies cache
      ensures Valid() && cache.metas == old(cache.metas) + [spare]
      ensures forall y, u | y in exits && old(Direct(y, u)) :: Direct(y, u)
    {
      hide Consistent, LinksInside, DirectTo, End;
      NewSpare(own, cache.metas, cache.links, made, exits, lo, dispatcher, spare);
      cache.AddBlock(spare);
    }

    /** `riscv_link_to` when the target is out of reach: trampolines if they lead there, otherwise push and far jump. */
    method LinkBeyond(at: int, target: int)
      requires cache.Valid() && Apart(own, cache.metas) && NoSpareIn(cache.metas, at, at + LINK)
      modifies this`own, cache
      ensures cache.Valid() && Apart(own, cache.metas) && T.SameAreas(old(cache.metas), cache.metas)
      ensures LinkedTo(own, cache.links, at, target) && SameOutside(old(own), own, at, at + LINK)
      ensures forall l | l in old(cache.links) && l.source != at :: l in cache.links
      ensures forall l | l in cache.links :: l in old(cache.links) || l.source == at
      ensures if old(T.CanHop(cache.metas, at, target + 6)) then exists l :: l in cache.links && l.source == at && l.target == target + 6
              else Laid(own, at, FarCode(at, target))
    {
      hide Apart, Laid, Emit, FarCode, Nops, LinkedTo, SameOutside, NoSpareIn, T.Linked, T.Sound, T.CanHop, T.SameAreas, T.InSpare;
      ghost var before, metas, links := own, cache.metas, cache.links;
      LinkSizes(at, target);
      SameMetas(metas);
      NoSpareKept(metas, metas, at, at + LINK);
      var hops := cache.TryJump(at, target + 6);
      AreasKept(before, metas, cache.metas, {}, {}, 0, 0);
      if hops {
        NoSpareKept(metas, cache.metas, at, at + LINK);
        HopWrite(before, cache.metas, at);
        HopForm(before, metas, links, cache.code, cache.links, at, target);
        HopLinks(metas, links, cache.code, cache.links, at, target + 6);
        HopMade(metas, links, cache.code, cache.links, at, target + 6);
        own := Emit(own - {at}, at + 4, Nops(4));
      } else {
        WriteApart(own, cache.metas, at, FarCode(at, target));
        own := Emit(own, at, FarCode(at, target));
        FarForm(own, cache.links, at, target);
      }
    }

    /** `riscv_link_to`; exactly 20 bytes are written at `at`, and only JALs in free slots elsewhere. */
    method LinkTo(at: int, target: int)
      requires cache.Valid() && Apart(own, cache.metas) && NoSpareIn(cache.metas, at, at + LINK)
      modifies this`own, this`records, cache
      ensures cache.Valid() && Apart(own, cache.metas) && T.SameAreas(old(cache.metas), cache.metas)
      ensures LinkedTo(own, cache.links, at, target) && SameOutside(old(own), own, at, at + LINK)
      ensures forall l | l in old(cache.links) && l.source != at :: l in cache.links
      ensures forall l | l in cache.links :: l in old(cache.links) || l.source == at
      ensures records == [(at, target)] + old(records)
      ensures if JalOffset(target + 6 - at) then Laid(own, at, DirectCode(at, target))
              else if old(T.CanHop(cache.metas, at, target + 6)) then exists l :: l in cache.links && l.source == at && l.target == target + 6
              else Laid(own, at, FarCode(at, target))
    {
      hide Apart, Laid, Emit, DirectCode, FarCode, LinkedTo, SameOutside, NoSpareIn, T.Sound, T.SameAreas, T.CanHop, JalOffset;
      if JalOffset(target + 6 - at) {
        LinkSizes(at, target);
        SameMetas(cache.metas);
        WriteApart(own, cache.metas, at, DirectCode(at, target));
        own := Emit(own, at, DirectCode(at, target));
        DirectForm(own, cache.links, at, target);
      } else {
        LinkBeyond(at, target);
      }
      records := [(at, target)] + records;
    }

    /** One instruction overwritten. */
    method Put(at: int, i: Instr)
      requires Apart(own, cache.metas) && NoSpareIn(cache.metas, at, at + Size(i))
      modifies this`own
      ensures Apart(own, cache.metas) && Laid(own, at, [i]) && SameOutside(old(own), own, at, at + Size(i))
    {
      Single(i, Machine(0, seq(32, _ => 0), map[]));
      WriteApart(own, cache.metas, at, [i]);
      own := Emit(own, at, [i]);
    }

    /** `dispatcher_riscv` for a direct jump. */
    method LinkJump(x: Exit)
      requires Valid() && x in exits && x.JumpExit? && x.taken in entry
      modifies this`own, this`records, cache
      ensures Valid() && Direct(x, true) && records == [(x.at, entry[x.taken])] + old(records)
      ensures forall y, u | y in exits && y != x && old(Direct(y, u)) :: Direct(y, u)
    {
      EndBound(x);
      NoSpareKept(cache.metas, cache.metas, x.at, End(x));
      ghost var own0, metas0, links0 := own, cache.metas, cache.links;
      LinkTo(x.at, entry[x.taken]);
      MadeLinked(own, cache.links, made, x.at, x.taken, entry[x.taken]);
      hide Linked, LinkedTo, Intact, Apart, Placed, EntriesOk, T.Sound;
      OthersKept(own0, own, metas0, cache.metas, links0, cache.links, made, exits, lo, dispatcher, x);
      InsideKept(links0, cache.links, exits, exits, x);
    }

    /** The first arm of `riscv_link_branch`: the branch itself reaches the taken translation. */
    method LinkNear(x: Exit, target: int, ghost t: bool)
      requires Valid() && x in exits && x.BranchExit? && Side(x, t) in entry && !Direct(x, t)
      requires x.taken in entry && target == entry[x.taken]
      modifies this`own, this`records, cache
      ensures cache.Valid() && Apart(own, cache.metas) && T.SameAreas(old(cache.metas), cache.metas)
      ensures SameOutside(old(own), own, x.at, End(x)) && forall l | l in old(cache.links) && !(x.at <= l.source < End(x)) :: l in cache.links
      ensures forall l | l in cache.links :: l in old(cache.links) || x.at <= l.source < End(x)
      ensures ExitOk(own, cache.links, made, x, dispatcher)
      ensures (x.taken in entry ==> Direct(x, true)) && (x.skipped in entry ==> Direct(x, false))
      ensures records == (if x.skipped in entry then [(x.at + 4, entry[x.skipped])] else []) + [(x.at, target + 6)] + old(records)
    {
      hide Consistent, Linked, LinkedTo, Intact, Apart, Placed, EntriesOk, ExitOk, DirectTo, LinksInside;
      hide T.Sound, T.Layout, T.LinkOk, End, Laid, SameOutside, NoSpareIn, T.SameAreas, InWindow;
      ghost var own0, metas0 := own, cache.metas;
      Ready(own, cache.metas, cache.links, made, exits, lo, dispatcher, x, t);
      NoSpareKept(metas0, metas0, x.at, End(x));
      Put(x.at, Branch(x.cond, x.rs1, x.rs2, target + 6 - x.at));
      records := [(x.at, target + 6)] + records;
      if x.skipped in entry {
        ghost var own1 := own;
        LinkTo(x.at + 4, entry[x.skipped]);
        NearBoth(own0, own1, own, cache.links, made, x, dispatcher, target, entry[x.skipped]);
      } else {
        NearOne(own0, own, cache.links, made, x, dispatcher, target);
      }
    }

    /** The last arm: a branch around the link to one successor, then the link to the other. */
    method LinkAround(x: Exit, ghost t: bool)
      requires Valid() && x in exits && x.BranchExit? && Side(x, t) in entry && !Direct(x, t)
      modifies this`own, this`records, cache
      ensures cache.Valid() && Apart(own, cache.metas) && T.SameAreas(old(cache.metas), cache.metas)
      ensures SameOutside(old(own), own, x.at, End(x)) && forall l | l in old(cache.links) && !(x.at <= l.source < End(x)) :: l in cache.links
      ensures forall l | l in cache.links :: l in old(cache.links) || x.at <= l.source < End(x)
      ensures ExitOk(own, cache.links, made, x, dispatcher)
      ensures (x.taken in entry ==> Direct(x, true)) && (x.skipped in entry ==> Direct(x, false))
      ensures var t := x.taken in entry;
              records == (if t && x.skipped in entry then [(x.at + 24, entry[x.skipped])] else [])
                         + [(x.at + 4, entry[Side(x, t)])] + old(records)
    {
      hide Consistent, Linked, LinkedTo, Intact, Apart, Placed, EntriesOk, ExitOk, DirectTo, LinksInside;
      hide T.Sound, T.Layout, T.LinkOk, End, Laid, SameOutside, NoSpareIn, T.SameAreas, InWindow;
      ghost var own0, metas0 := own, cache.metas;
      Ready(own, cache.metas, cache.links, made, exits, lo, dispatcher, x, t);
      NoSpareKept(metas0, metas0, x.at, End(x));
      var target, cond, linkSkipped := 0, Invert(x.cond), x.skipped in entry;
      if x.taken in entry {
        target := entry[x.taken];
      } else {
        target, cond, linkSkipped := entry[x.skipped], Invert(cond), false;
      }
      InvertHolds(x.cond, 0, 0);
      ghost var u := x.taken in entry;
      LinkTo(x.at + 4, target);
      ghost var own1 := own;
      NoSpareKept(metas0, cache.metas, x.at, End(x));
      Put(x.at, Branch(cond, x.rs1, x.rs2, 24));
      AroundOne(own0, own1, own, cache.links, made, x, dispatcher, u, target);
      if linkSkipped {
        ghost var own2, links2, metas2 := own, cache.links, cache.metas;
        LinkTo(x.at + 24, entry[x.skipped]);
        AroundBoth(own0, own2, own, links2, cache.links, made, x, dispatcher, target, entry[x.skipped]);
        AreasTrans(metas0, metas2, cache.metas);
      }
    }

    /**
     `riscv_link_branch`, called because the exit asked for successor `t`. Afterwards every translated successor is
     reached without the dispatcher; the second arm is never taken.
     */
    method LinkBranch(x: Exit, ghost t: bool)
      requires Valid() && x in exits && x.BranchExit? && Side(x, t) in entry && !Direct(x, t)
      modifies this`own, this`records, cache
      ensures Valid()
      ensures (x.taken in entry ==> Direct(x, true)) && (x.skipped in entry ==> Direct(x, false))
      ensures records == BranchRecords(x, entry) + old(records)
      ensures forall y, u | y in exits && y != x && old(Direct(y, u)) :: Direct(y, u)
    {
      hide Consistent, Linked, LinkedTo, Intact, Apart, Placed, EntriesOk, ExitOk, DirectTo, LinksInside;
      hide T.Sound, T.Layout, T.LinkOk, End, Laid, SameOutside, NoSpareIn, T.SameAreas, InWindow;
      ghost var own0, metas0, links0 := own, cache.metas, cache.links;
      Ready(own, cache.metas, cache.links, made, exits, lo, dispatcher, x, t);
      var takenIn, skippedIn := x.taken in entry, x.skipped in entry;
      var target := if takenIn then entry[x.taken] else UINT_MAX;
      if !(takenIn && BranchOffset(target + 6 - x.at)) { SecondArmNeverFires(x, lo, takenIn, target); }

      if takenIn && BranchOffset(target + 6 - x.at) {
        LinkNear(x, target, t);
      } else if skippedIn && BranchOffset(target + 6 - x.at) {
        assert false;
      } else {
        LinkAround(x, t);
      }
      OthersKept(own0, own, metas0, cache.metas, links0, cache.links, made, exits, lo, dispatcher, x);
      InsideKept(links0, cache.links, exits, exits, x);
    }

    /** A block's exit is emitted. */
    method AddExit(x: Exit)
      requires Valid() && Roomy(x, cache.metas, lo, dispatcher) && Clear(exits, made, x.at, End(x))
      modifies this`own, this`exits
      ensures Valid() && exits == old(exits) + {x}
      ensures forall y, u | y in old(exits) && old(Direct(y, u)) :: Direct(y, u)
    {
      hide Consistent, Apart, Intact, Linked, DirectTo, End, ExitCode, Laid, SameOutside, Clear, T.Sound, LinksInside;
      ExitCodeLength(x, dispatcher);
      Parts(own, cache.metas, cache.links, made, exits, lo, dispatcher);
      WriteApart(own, cache.metas, x.at, ExitCode(x, dispatcher));
      NewCode(own, Emit(own, x.at, ExitCode(x, dispatcher)), cache.metas, cache.links, made, exits, lo, dispatcher, x.at, End(x));
      own := Emit(own, x.at, ExitCode(x, dispatcher));
      ExitCodeOk(own, x, dispatcher);
      NewExit(own, cache.metas, cache.links, made, exits, lo, dispatcher, x);
      InsideKept(cache.links, cache.links, exits, exits + {x}, x);
      exits := exits + {x};
    }

    /** A translation is emitted and published under its guest address. */
    method Publish(spc: Word, at: int)
      requires Valid() && InWindow(lo, at) && Clear(exits, made, at, at + 6) && NoSpareIn(cache.metas, at, at + 6)
      modifies this`own, this`entry, this`made
      ensures Valid() && entry == old(entry)[spc := at] && made == old(made) + {(spc, at)}
      ensures forall y, u | y in exits && old(Direct(y, u)) :: Direct(y, u)
    {
      hide Consistent, Apart, DirectTo, Laid, SameOutside, Clear, T.Sound, InWindow, LinksInside;
      Effect3(POP[0], POP[1], POP[2], Machine(0, seq(32, _ => 0), map[]));
      Parts(own, cache.metas, cache.links, made, exits, lo, dispatcher);
      WriteApart(own, cache.metas, at, POP);
      NewCode(own, Emit(own, at, POP), cache.metas, cache.links, made, exits, lo, dispatcher, at, at + 6);
      own := Emit(own, at, POP);
      NewEntry(own, cache.metas, cache.links, made, exits, lo, dispatcher, spc, at);
      entry, made := entry[spc := at], made + {(spc, at)};
    }

    /**
     In every state these operations lead to, executing any exit with any registers reaches a translation of the
     successor the guest selects, all registers unchanged, or calls the dispatcher for that successor; and it is the
     translation if that successor has been linked.
     */
    lemma Executes(x: Exit, m: Machine)
      requires Valid() && x in exits && m.pc == x.at
      ensures var code, spc := Program(own, cache.code), Successor(x, m.regs);
              ReachesTranslation(code, made, m, spc) || CallsDispatcher(code, m, dispatcher, x.bb, spc)
      ensures var t := x.JumpExit? || Holds(x.cond, m.regs[x.rs1], m.regs[x.rs2]);
              Direct(x, t) ==> ReachesTranslation(Program(own, cache.code), made, m, Successor(x, m.regs))
    {
      hide ExitOk, DirectTo, EntriesOk, Apart, End, Program, T.Sound, ReachesTranslation, CallsDispatcher;
      ExitSelects(own, cache.code, cache.metas, cache.links, made, lo, x, dispatcher, m);
      var t := x.JumpExit? || Holds(x.cond, m.regs[x.rs1], m.regs[x.rs2]);
      if Direct(x, t) { DirectArrives(own, cache.code, cache.metas, cache.links, made, lo, x, t, m); }
    }
  }
}
