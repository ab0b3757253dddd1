/**
 What rewriting the links to a trace's head can break, and exactly when: a jump that takes more room than the one it
 replaces destroys what stands behind it, and a lookup that flushes the cache leaves nothing to be rewritten.
 */
module TracePatches {
  import opened CacheLayout
  import opened TraceModel
  import opened TraceSafety
  import opened TraceCode
  import opened TraceMeaning

  const RESERVED: nat := CODE_CACHE_SIZE - CODE_CACHE_OVERP

  // ---------- Jumps in traces ----------

  /** A rewritten jump fits unless a JAL has to be replaced by the longer form. */
  lemma FitsIff(at: nat, was: nat, target: nat)
    ensures Fits(at, was, target) <==> JalOffset(target + 6 - at) || !JalOffset(was + 6 - at)
  {
  }

  /** The stub behind a rewritten one is overwritten exactly if that does not fit. */
  lemma {:induction false} OverwritesNextStub(exits: seq<Exit>, w: nat, i: nat, target: nat)
    requires i + 1 < |exits|
    ensures StubAt(exits, w, i) < StubAt(exits, w, i + 1)
    ensures StubAt(exits, w, i + 1) < StubAt(exits, w, i) + JumpSize(StubAt(exits, w, i), target)
            <==> !Fits(StubAt(exits, w, i), exits[i].to.addr, target)
    decreases i
  {
    if i > 0 {
      var w' := w + JumpSize(w, exits[0].to.addr);
      assert exits[1..][i - 1] == exits[i];
      OverwritesNextStub(exits[1..], w', i - 1, target);
      assert StubAt(exits, w, i + 1) == StubAt(exits[1..], w', i);
    }
  }

  /** The trace cache is longer than a JAL can span: a stub for one of the last blocks, and a later trace. */
  lemma StubMayNotFit()
    ensures var at, block, head := TRACES + 1000, (RESERVED - 1) * BLOCK_BYTES, TRACES + 1600000;
            !Fits(at, block, head) && head < CACHE_END - TRACE_LIMIT_OFFSET
  {
    FitsIff(TRACES + 1000, (RESERVED - 1) * BLOCK_BYTES, TRACES + 1600000);
  }

  /** The next fragment stands behind `f`, so that no jump is needed there. */
  predicate FallsThrough(t: Thread, f: nat, at: nat, spc: nat) {
    f + 1 < t.traceId && f + 1 in t.frags && t.frags[f + 1].tpc == at && t.frags[f + 1].source == spc
  }

  /** The words that fragment `f` depends on: the branch to its stub, the stub, and the jump behind it. */
  function NeededBy(t: Thread, f: nat): set<nat>
    requires f in t.frags
  {
    var m := t.frags[f];
    match m.exit.kind
    case Branch =>
      if m.exitAddr in t.code && t.code[m.exitAddr].Leave? then
        var c := t.code[m.exitAddr];
        {m.exitAddr, c.stub}
        + (if FallsThrough(t, f, m.exitAddr + 4, if c.whenTaken then m.exit.skipped else m.exit.taken) then {} else {m.exitAddr + 4})
      else {m.exitAddr}
    case Jal => if FallsThrough(t, f, m.exitAddr, m.exit.taken) then {} else {m.exitAddr}
    case _ => {}
  }

  /** The room the word at `a` takes once the jumps at `done` have been rewritten for the new trace. */
  function Width(t: Thread, done: set<nat>, a: nat): nat
    requires a in t.code
  {
    if a in done then JumpSize(a, t.active.entry.addr) else WordSize(a, t.code[a])
  }

  /**
   The jump to the new trace written at `at`, for `spc`, leaves the word at `a` complete: it replaces a jump for the same
   address, or does not touch the word.
   */
  predicate Spares(t: Thread, done: set<nat>, pend: nat, at: nat, spc: nat, a: nat) {
    var size := JumpSize(at, t.active.entry.addr);
    && a in t.code
    && if a == at then t.code[a].Jump? && t.code[a].spc == spc && (at + size <= t.traceNext || 0 < at == pend)
       else a + Width(t, done, a) <= at || at + size <= a
  }

  /** It does not reach into the code of a fragment. */
  predicate Misses(t: Thread, at: nat, m: FragMeta) {
    at + JumpSize(at, t.active.entry.addr) <= m.tpc || m.exitAddr <= at
  }

  /** It destroys neither a word that fragment `f` depends on nor the fragment itself. */
  predicate HarmlessTo(t: Thread, done: set<nat>, pend: nat, at: nat, spc: nat, f: nat)
    requires f in t.frags
  {
    (forall a | a in NeededBy(t, f) :: Spares(t, done, pend, at, spc, a)) && Misses(t, at, t.frags[f])
  }

  predicate Harmless(t: Thread, done: set<nat>, pend: nat, at: nat, spc: nat) {
    forall f | CODE_CACHE_SIZE <= f < t.traceId && f in t.frags :: HarmlessTo(t, done, pend, at, spc, f)
  }

  /** Writing a jump to the new trace, anywhere, keeps the installed traces right if and only if it is harmless. */
  lemma PatchKeepsIff(t: Thread, at: nat, spc: nat, pend: nat, end: nat)
    requires Installed(t, pend, end) && At(t, end, spc, t.active.entry)
    ensures Installed(PatchTrace(t, at, spc), pend, end) <==> Harmless(t, {}, pend, at, spc)
  {
    hide Right, At, NeededBy, Sits, HarmlessTo, PatchTrace;
    var r := PatchTrace(t, at, spc);
    PatchFields(t, at, spc);
    forall f | CODE_CACHE_SIZE <= f < t.traceId
      ensures f in t.frags
      ensures Right(r, pend, end, f) && Sits(r.code, r.frags[f], r.traceNext) <==> HarmlessTo(t, {}, pend, at, spc, f)
    {
      assert Right(t, pend, end, f) && Sits(t.code, t.frags[f], t.traceNext);
      FragmentKeptIff(t, at, spc, f, pend, end);
    }
    if Installed(r, pend, end) {
      forall f | CODE_CACHE_SIZE <= f < t.traceId && f in t.frags ensures HarmlessTo(t, {}, pend, at, spc, f) {
        assert Right(r, pend, end, f) && Sits(r.code, r.frags[f], r.traceNext);
      }
    }
  }

  lemma FragmentKeptIff(t: Thread, at: nat, spc: nat, f: nat, pend: nat, end: nat)
    requires f in t.frags && Right(t, pend, end, f) && At(t, end, spc, t.active.entry)
             && Sits(t.code, t.frags[f], t.traceNext)
    ensures var r := PatchTrace(t, at, spc);
            f in r.frags && (Right(r, pend, end, f) && Sits(r.code, r.frags[f], r.traceNext) <==> HarmlessTo(t, {}, pend, at, spc, f))
  {
    PatchFields(t, at, spc);
    PatchKeepsRightIff(t, at, spc, f, pend, end);
    hide Right, At, Spares, NeededBy, WordSize, JumpSize;
    ClearIff(t.code, at, Jump(t.active.entry, spc), t.frags[f]);
    JumpWord(at, t.active.entry, spc);
  }

  lemma JumpWord(at: nat, to: Loc, spc: nat)
    ensures WordSize(at, Jump(to, spc)) == JumpSize(at, to.addr)
  {
  }

  lemma ClearIff(code: map<nat, Patched>, at: nat, word: Patched, m: FragMeta)
    requires Clear(code, m)
    ensures Clear(Written(code, at, word), m) <==> at + WordSize(at, word) <= m.tpc || m.exitAddr <= at
  {
    hide WordSize;
    var r := Written(code, at, word);
    assert at in r && r[at] == word;
  }

  lemma PatchKeepsRightIff(t: Thread, at: nat, spc: nat, f: nat, pend: nat, end: nat)
    requires f in t.frags && Right(t, pend, end, f) && At(t, end, spc, t.active.entry)
    ensures Right(PatchTrace(t, at, spc), pend, end, f) <==> forall a | a in NeededBy(t, f) :: Spares(t, {}, pend, at, spc, a)
  {
    hide At, Spares, PatchTrace, Jumps, Whole;
    var r, m := PatchTrace(t, at, spc), t.frags[f];
    PatchFields(t, at, spc);
    if m.exit.kind == Branch {
      WholeKnown(t, pend, m.exitAddr);
      var c := t.code[m.exitAddr];
      LeaveSpared(t, at, spc, m.exitAddr, pend);
      JumpSpared(t, at, spc, c.stub, if c.whenTaken then m.exit.taken else m.exit.skipped, pend, end);
      OnwardSpared(t, at, spc, f, m.exitAddr + 4, if c.whenTaken then m.exit.skipped else m.exit.taken, pend, end);
    } else if m.exit.kind == Jal {
      OnwardSpared(t, at, spc, f, m.exitAddr, m.exit.taken, pend, end);
    }
  }

  lemma WholeKnown(t: Thread, pend: nat, a: nat)
    requires Whole(t, pend, a)
    ensures a in t.code
  {
  }

  lemma PatchFields(t: Thread, at: nat, spc: nat)
    ensures var r := PatchTrace(t, at, spc); r == t.(code := r.code, intact := r.intact)
  {
    hide Written, Fits;
  }

  lemma OnwardSpared(t: Thread, at: nat, spc: nat, f: nat, a: nat, s: nat, pend: nat, end: nat)
    requires Onward(t, pend, end, f, a, s) && At(t, end, spc, t.active.entry)
    ensures Onward(PatchTrace(t, at, spc), pend, end, f, a, s) <==> FallsThrough(t, f, a, s) || Spares(t, {}, pend, at, spc, a)
  {
    hide At, Spares, PatchTrace, Jumps;
    PatchFields(t, at, spc);
    if !FallsThrough(t, f, a, s) { JumpSpared(t, at, spc, a, s, pend, end); }
  }

  lemma LeaveSpared(t: Thread, at: nat, spc: nat, a: nat, pend: nat)
    requires Whole(t, pend, a) && t.code[a].Leave?
    ensures var r := PatchTrace(t, at, spc);
            && (Whole(r, pend, a) && r.code[a].Leave? <==> Spares(t, {}, pend, at, spc, a))
            && (Spares(t, {}, pend, at, spc, a) ==> r.code[a] == t.code[a])
  {
    WordSpared(t, at, spc, a, pend);
  }

  lemma JumpSpared(t: Thread, at: nat, spc: nat, a: nat, s: nat, pend: nat, end: nat)
    requires Jumps(t, pend, end, a, s) && At(t, end, spc, t.active.entry)
    ensures Jumps(PatchTrace(t, at, spc), pend, end, a, s) <==> Spares(t, {}, pend, at, spc, a)
  {
    WordSpared(t, at, spc, a, pend);
    PatchFields(t, at, spc);
    var r := PatchTrace(t, at, spc);
    AtPatched(t, r, end, spc, t.active.entry);
    if At(r, end, s, t.code[a].to) { AtPatched(r, t, end, s, t.code[a].to); }
    AtPatched(t, r, end, s, t.code[a].to);
    hide PatchTrace, JumpSize, At;
  }

  /** The code written into traces does not matter to where translations are. */
  lemma AtPatched(t: Thread, r: Thread, end: nat, spc: nat, l: Loc)
    requires r == t.(code := r.code, intact := r.intact) && At(t, end, spc, l)
    ensures At(r, end, spc, l)
  {
  }

  lemma WordSpared(t: Thread, at: nat, spc: nat, a: nat, pend: nat)
    requires Whole(t, pend, a)
    ensures var r := PatchTrace(t, at, spc);
            if a == at then
              && at in r.code && r.code[at] == Jump(t.active.entry, spc)
              && (Whole(r, pend, at) <==> at + JumpSize(at, t.active.entry.addr) <= t.traceNext || 0 < at == pend)
            else
              && (Whole(r, pend, a) <==> Spares(t, {}, pend, at, spc, a))
              && (a in r.code ==> r.code[a] == t.code[a])
  {
  }

  // ---------- When nothing goes wrong ----------

  /** The successor of a branch that is looked up, and scanned if need be: the one beside a trace. */
  function Beside(t: Thread, x: ExitInfo): seq<nat> {
    if ActiveLookup(t, x.taken).Found? then [x.skipped]
    else if ActiveLookup(t, x.skipped).Found? then [x.taken]
    else []
  }

  /** The address looked up for a link, if any. */
  function Sought(t: Thread, link: Loc): seq<nat> {
    var id := Owner(t.actual, link.addr / BLOCK_BYTES);
    if link.addr < TRACES && id in t.bbs && t.bbs[id].exit.kind == Branch then Beside(t, t.bbs[id].exit) else []
  }

  predicate Known(t: Thread, spc: nat) {
    IsActiveHead(t, spc) || spc in t.entry
  }

  /** The link comes from code that still exists, for a trace that still exists, and a jump in a trace has room. */
  predicate Sane(t: Thread, link: Loc) {
    link.gen == t.gen == t.active.entry.gen && (link.addr >= TRACES ==> FitsAt(t, link.addr))
  }

  predicate FitsAt(t: Thread, at: nat) {
    at in t.code && t.code[at].Jump? && Fits(at, t.code[at].to.addr, t.active.entry.addr)
  }

  /** The lookups for `links` do not flush, with `free` the next free block and `scanned` translated in the meantime. */
  predicate Room(t: Thread, env: Env, links: seq<Loc>, free: nat, scanned: set<nat>)
    decreases |links|
  {
    links == []
    || var s := Sought(t, links[0]);
       if s == [] || Known(t, s[0]) || s[0] in scanned then Room(t, env, links[1..], free, scanned)
       else free < RESERVED && Room(t, env, links[1..], free + 1 + env.bb(s[0]).overflow, scanned + {s[0]})
  }

  /** Before the loop: all links can be rewritten. */
  predicate Ready(t: Thread, env: Env, links: seq<Loc>) {
    (forall k | 0 <= k < |links| :: Sane(t, links[k])) && Room(t, env, links, t.freeBlock, {})
  }

  predicate NoFlush(t: Thread, sought: seq<nat>) {
    sought == [] || Known(t, sought[0]) || t.freeBlock < RESERVED
  }

  /** One link: the guard on the state before is exactly what keeps the history clean. */
  lemma LinkIntactIff(t: Thread, env: Env, link: Loc, spc: nat)
    ensures InstallLink(t, env, link, spc).intact <==> t.intact && Ready(t, env, [link])
  {
    hide PatchTrace, PatchBlock, Sought, NoFlush, FitsAt, InstallLink, Ready, Judged;
    var sane := link.gen == t.gen == t.active.entry.gen;
    var a := Judged(t, t.intact && sane);
    LinkShape(t, env, link, spc);
    ReadyOne(t, env, link);
    JudgedGuard(t, t.intact && sane, link);
    if link.addr >= TRACES {
      NothingSought(t, link);
      TraceIntact(a, link.addr, spc);
    } else {
      BlockIntact(a, env, link);
    }
  }

  lemma JudgedGuard(t: Thread, intact: bool, link: Loc)
    ensures var a := Judged(t, intact);
            && a.intact == intact && (FitsAt(a, link.addr) <==> FitsAt(t, link.addr))
            && (NoFlush(a, Sought(a, link)) <==> NoFlush(t, Sought(t, link)))
  {
    hide Fits;
  }

  lemma ReadyOne(t: Thread, env: Env, link: Loc)
    ensures Ready(t, env, [link]) <==> Sane(t, link) && NoFlush(t, Sought(t, link))
  {
    hide Sought, Known, Sane;
    assert Room(t, env, [link], t.freeBlock, {}) <==> NoFlush(t, Sought(t, link));
    assert [link][0] == link;
  }

  lemma NothingSought(t: Thread, link: Loc)
    requires link.addr >= TRACES
    ensures Sought(t, link) == [] && NoFlush(t, [])
  {
  }

  lemma TraceIntact(t: Thread, at: nat, spc: nat)
    ensures PatchTrace(t, at, spc).intact <==> t.intact && FitsAt(t, at)
  {
    hide Written, Fits;
  }

  lemma BlockIntact(t: Thread, env: Env, link: Loc)
    requires link.addr < TRACES
    ensures PatchBlock(t, env, link).intact <==> t.intact && NoFlush(t, Sought(t, link))
  {
    hide Beside, PatchBranch, NoFlush, Sought, PatchBlock;
    var id := Owner(t.actual, link.addr / BLOCK_BYTES);
    BlockCases(t, env, link, id);
    if id in t.bbs && t.bbs[id].exit.kind == Branch { BranchIntact(t, env, link, id); } else { NothingLooked(t); }
  }

  lemma NothingLooked(t: Thread)
    ensures NoFlush(t, [])
  {
  }

  lemma BlockCases(t: Thread, env: Env, link: Loc, id: nat)
    requires link.addr < TRACES && id == Owner(t.actual, link.addr / BLOCK_BYTES)
    ensures if id in t.bbs && t.bbs[id].exit.kind == Branch
            then Sought(t, link) == Beside(t, t.bbs[id].exit) && PatchBlock(t, env, link) == PatchBranch(t, env, link, id)
            else Sought(t, link) == [] && PatchBlock(t, env, link).intact == t.intact
  {
    hide Beside, PatchBranch;
  }

  lemma BranchIntact(t: Thread, env: Env, link: Loc, id: nat)
    requires id in t.bbs
    ensures PatchBranch(t, env, link, id).intact <==> t.intact && NoFlush(t, Beside(t, t.bbs[id].exit))
  {
    hide ActiveLookup, ActiveLookupOrScan, Relinked, PatchBranch, Known;
    var x := t.bbs[id].exit;
    PatchBranchShape(t, env, link, id);
    var onTaken := ActiveLookup(t, x.taken).Found?;
    var s := if onTaken then x.skipped else x.taken;
    LookupKeepsIff(t, env, s);
    var (a, l) := ActiveLookupOrScan(t, env, s);
    RelinkedFields(t, env, a, id, onTaken, l, link);
  }

  lemma LookupKeepsIff(t: Thread, env: Env, spc: nat)
    ensures var a := ActiveLookupOrScan(t, env, spc).0;
            a.intact == t.intact && (a.gen == t.gen <==> Known(t, spc) || t.freeBlock < RESERVED)
  {
    hide MarkOverflow, Forgotten, KeptLinks;
  }

  // ---------- The whole loop ----------

  /** The state later in the loop as far as its lookups depend on it; `scanned` has been translated in the meantime. */
  ghost predicate Alike(t: Thread, r: Thread, scanned: set<nat>) {
    && SameBlocks(t, r) && r.active == t.active && (forall id | id in r.bbs && id < t.freeBlock :: id in t.bbs)
    && (forall s :: Known(r, s) <==> Known(t, s) || s in scanned)
    && (forall s :: ActiveLookup(r, s).Found? <==> ActiveLookup(t, s).Found?)
  }

  /** The same, and the same jumps in traces have room. */
  ghost predicate Later(t: Thread, r: Thread, scanned: set<nat>) {
    Alike(t, r, scanned) && forall at :: FitsAt(r, at) <==> FitsAt(t, at)
  }

  /** What looking up `sought` translates, and the next free block then. */
  function ScannedFor(t: Thread, sought: seq<nat>): set<nat> {
    if sought == [] || Known(t, sought[0]) then {} else {sought[0]}
  }

  function FreeAfter(t: Thread, env: Env, sought: seq<nat>): nat {
    if sought == [] || Known(t, sought[0]) then t.freeBlock else t.freeBlock + 1 + env.bb(sought[0]).overflow
  }

  lemma LookupLater(t: Thread, env: Env, spc: nat)
    requires Core(t) && Scanner(env) && Live(t, t.active.sourceBb) && NoFlush(t, [spc])
    ensures var a := ActiveLookupOrScan(t, env, spc).0; Later(t, a, ScannedFor(t, [spc])) && a.freeBlock == FreeAfter(t, env, [spc])
  {
    if !Known(t, spc) {
      PlaceLater(t, env, spc);
    }
  }

  lemma PlaceLater(t: Thread, env: Env, spc: nat)
    requires Core(t) && Scanner(env) && Live(t, t.active.sourceBb) && t.freeBlock < RESERVED && !Known(t, spc)
    ensures var a := Place(t, env, spc).0; Later(t, a, {spc}) && a.freeBlock == t.freeBlock + 1 + env.bb(spc).overflow
  {
    hide BlocksOwned, Sorted, Disjoint, MarkOverflow, Fits, Scanner;
    PlaceGrows(t, env, spc);
  }

  lemma LaterFields(t: Thread, a: Thread, r: Thread, scanned: set<nat>)
    requires Later(t, a, scanned) && r == a.(linked := r.linked, links := r.links, intact := r.intact, asserted := r.asserted)
    ensures Later(t, r, scanned)
  {
    hide Fits;
  }

  lemma LaterSelf(t: Thread)
    ensures Later(t, t, {})
  {
  }

  /** Rewriting a jump that fits leaves room for the next ones. */
  lemma TraceLater(t: Thread, at: nat, spc: nat)
    requires Disjoint(t.code) && FitsAt(t, at)
    ensures Later(t, PatchTrace(t, at, spc), {})
  {
    RewrittenInPlace(t.code, at, Jump(t.active.entry, spc));
    hide Written, JumpSize, Disjoint;
  }

  lemma TraceFree(t: Thread, at: nat, spc: nat)
    ensures PatchTrace(t, at, spc).freeBlock == t.freeBlock
  {
    hide Written, Fits;
  }

  lemma BranchLater(t: Thread, env: Env, link: Loc, id: nat)
    requires Core(t) && Scanner(env) && Live(t, t.active.sourceBb) && id in t.bbs && NoFlush(t, Beside(t, t.bbs[id].exit))
    ensures var r, s := PatchBranch(t, env, link, id), Beside(t, t.bbs[id].exit);
            Later(t, r, ScannedFor(t, s)) && r.freeBlock == FreeAfter(t, env, s)
  {
    hide ActiveLookup, ActiveLookupOrScan, Relinked, PatchBranch, Known, Core, Scanner, Live, Later;
    var x := t.bbs[id].exit;
    PatchBranchShape(t, env, link, id);
    var onTaken := ActiveLookup(t, x.taken).Found?;
    if !onTaken && ActiveLookup(t, x.skipped).Missing? {
      LaterSelf(t);
      LaterFields(t, t, t.(asserted := false), {});
    } else {
      var s := if onTaken then x.skipped else x.taken;
      LookupLater(t, env, s);
      var (a, l) := ActiveLookupOrScan(t, env, s);
      RelinkedFields(t, env, a, id, onTaken, l, link);
      LaterFields(t, a, Relinked(t, env, a, id, onTaken, l, link), ScannedFor(t, [s]));
    }
  }

  lemma BlockLater(t: Thread, env: Env, link: Loc)
    requires Core(t) && Scanner(env) && Live(t, t.active.sourceBb) && link.addr < TRACES && NoFlush(t, Sought(t, link))
    ensures var r, s := PatchBlock(t, env, link), Sought(t, link);
            Later(t, r, ScannedFor(t, s)) && r.freeBlock == FreeAfter(t, env, s)
  {
    hide Beside, PatchBranch, NoFlush, Sought, Core, Scanner, Live, Later;
    var id := Owner(t.actual, link.addr / BLOCK_BYTES);
    BlockCases(t, env, link, id);
    if id in t.bbs && t.bbs[id].exit.kind == Branch {
      BranchLater(t, env, link, id);
    } else {
      LaterSelf(t);
      LaterFields(t, t, t.(linked := t.linked[id := Through(t.active.entry)]), {});
    }
  }

  /** One link rewritten without a flush. */
  lemma LinkLater(t: Thread, env: Env, link: Loc, spc: nat)
    requires Core(t) && Scanner(env) && Live(t, t.active.sourceBb) && t.intact && Ready(t, env, [link])
    ensures var r, s := InstallLink(t, env, link, spc), Sought(t, link);
            Later(t, r, ScannedFor(t, s)) && r.freeBlock == FreeAfter(t, env, s)
  {
    hide PatchTrace, PatchBlock, Sought, NoFlush, FitsAt, InstallLink, Ready, Core, Scanner, Later, Live, Known;
    LinkShape(t, env, link, spc);
    ReadyOne(t, env, link);
    assert Judged(t, true) == t;
    if link.addr >= TRACES {
      NothingSought(t, link);
      CoreDisjoint(t);
      TraceLater(t, link.addr, spc);
      TraceFree(t, link.addr, spc);
    } else {
      BlockLater(t, env, link);
    }
  }

  /** What is looked up for a link of a block allocated before does not change. */
  lemma SoughtLater(t: Thread, r: Thread, scanned: set<nat>, link: Loc)
    requires Alike(t, r, scanned) && Allocated(t, link)
    ensures Sought(r, link) == Sought(t, link)
  {
    hide Known, ActiveLookup;
  }

  /** The link's block and its owner are allocated. */
  predicate Allocated(t: Thread, link: Loc) {
    var block := link.addr / BLOCK_BYTES;
    link.addr < TRACES ==> block < t.freeBlock && Owner(t.actual, block) < t.freeBlock
  }

  predicate Below(t: Thread, links: seq<Loc>) {
    forall k | 0 <= k < |links| :: Allocated(t, links[k])
  }

  lemma KnownSince(t: Thread, r: Thread, scanned: set<nat>, spc: nat)
    requires Alike(t, r, scanned)
    ensures Known(r, spc) <==> Known(t, spc) || spc in scanned
  {
  }

  lemma {:induction false} RoomLater(t: Thread, r: Thread, scanned: set<nat>, env: Env, links: seq<Loc>, free: nat, more: set<nat>)
    requires Later(t, r, scanned) && Below(t, links)
    ensures Room(r, env, links, free, more) <==> Room(t, env, links, free, more + scanned)
    decreases |links|
  {
    hide Sought, Known, Allocated, Alike;
    if links != [] {
      assert Below(t, links[1..]) by { forall k | 0 <= k < |links[1..]| ensures links[1..][k] == links[k + 1] { } }
      SoughtLater(t, r, scanned, links[0]);
      var s := Sought(t, links[0]);
      RoomLater(t, r, scanned, env, links[1..], free, more);
      if s != [] {
        KnownSince(t, r, scanned, s[0]);
        RoomLater(t, r, scanned, env, links[1..], free + 1 + env.bb(s[0]).overflow, more + {s[0]});
        assert more + {s[0]} + scanned == more + scanned + {s[0]};
      }
    }
  }

  /** From a history that is not clean it never becomes clean again. */
  lemma {:induction false} NeverMended(t: Thread, env: Env, links: seq<Loc>, spc: nat)
    requires !t.intact
    ensures !InstallLinks(t, env, links, spc).intact
    decreases |links|
  {
    hide InstallLink;
    if links != [] {
      LinkIntactIff(t, env, links[0], spc);
      NeverMended(InstallLink(t, env, links[0], spc), env, links[1..], spc);
    }
  }

  /** A step that keeps the history clean has not flushed. */
  lemma LinkNoFlush(t: Thread, env: Env, link: Loc, spc: nat)
    requires Core(t) && Scanner(env) && Live(t, t.active.sourceBb) && t.intact && InstallLink(t, env, link, spc).intact
    ensures var r := InstallLink(t, env, link, spc);
            && Core(r) && r.gen == t.gen && r.wasFlushed == t.wasFlushed && Live(r, r.active.sourceBb) && r.active == t.active
  {
    hide InstallLink, Core, Ready, Scanner;
    LinkIntactIff(t, env, link, spc);
    LinkLater(t, env, link, spc);
    InstallLinkFollows(t, env, link, spc);
    FollowsFlush(t, InstallLink(t, env, link, spc));
  }

  lemma ReadyFirst(t: Thread, env: Env, links: seq<Loc>)
    requires links != []
    ensures Ready(t, env, links) <==>
            && Ready(t, env, [links[0]]) && (forall k | 1 <= k < |links| :: Sane(t, links[k]))
            && (var s := Sought(t, links[0]); Room(t, env, links[1..], FreeAfter(t, env, s), ScannedFor(t, s)))
  {
    hide Sane, Sought, Known;
    ReadyOne(t, env, links[0]);
    var s := Sought(t, links[0]);
    if s != [] { assert {} + {s[0]} == {s[0]}; }
  }

  lemma SaneLater(t: Thread, r: Thread, scanned: set<nat>, link: Loc)
    requires Later(t, r, scanned)
    ensures Sane(r, link) <==> Sane(t, link)
  {
    hide FitsAt, Known, ActiveLookup;
  }

  /** The guard for the rest of the links, evaluated before or after the first one. */
  lemma ReadyRest(t: Thread, r: Thread, env: Env, links: seq<Loc>)
    requires links != [] && Below(t, links) && Ready(t, env, [links[0]])
    requires var s := Sought(t, links[0]); Later(t, r, ScannedFor(t, s)) && r.freeBlock == FreeAfter(t, env, s)
    ensures Ready(t, env, links) <==> Ready(r, env, links[1..])
  {
    hide Sane, Sought, Known, Later, Room, Allocated, ScannedFor, FreeAfter;
    var s, rest := Sought(t, links[0]), links[1..];
    ReadyFirst(t, env, links);
    assert Below(t, rest) by { forall k | 0 <= k < |rest| ensures Allocated(t, rest[k]) { assert rest[k] == links[k + 1]; } }
    RoomLater(t, r, ScannedFor(t, s), env, rest, r.freeBlock, {});
    assert {} + ScannedFor(t, s) == ScannedFor(t, s);
    forall k | 0 <= k < |rest| ensures Sane(r, rest[k]) <==> Sane(t, links[k + 1]) {
      assert rest[k] == links[k + 1];
      SaneLater(t, r, ScannedFor(t, s), rest[k]);
    }
    if Ready(r, env, rest) { forall k | 1 <= k < |links| ensures Sane(t, links[k]) { assert Sane(r, rest[k - 1]); } }
  }

  /** A link of discarded code, or for a discarded trace. */
  lemma {:induction false} OldLinkBreaks(t: Thread, env: Env, links: seq<Loc>, spc: nat, k: nat)
    requires Core(t) && Scanner(env) && Live(t, t.active.sourceBb) && t.intact && !t.wasFlushed
    requires k < |links| && !(links[k].gen == t.gen == t.active.entry.gen)
    ensures !InstallLinks(t, env, links, spc).intact
    decreases |links|
  {
    hide Core, Scanner, InstallLink, Live, Ready, FitsAt;
    var r := InstallLink(t, env, links[0], spc);
    if !r.intact {
      NeverMended(r, env, links[1..], spc);
    } else {
      LinkIntactIff(t, env, links[0], spc);
      ReadyOne(t, env, links[0]);
      LinkNoFlush(t, env, links[0], spc);
      assert links[1..][k - 1] == links[k];
      OldLinkBreaks(r, env, links[1..], spc, k - 1);
    }
  }

  /** The loop keeps the history clean if and only if all links can be rewritten. */
  lemma {:induction false} LinksIntactIff(t: Thread, env: Env, links: seq<Loc>, spc: nat)
    requires Core(t) && Scanner(env) && Live(t, t.active.sourceBb) && !t.wasFlushed
    requires t.intact ==> forall k | 0 <= k < |links| && links[k].gen == t.gen :: Allocated(t, links[k])
    ensures InstallLinks(t, env, links, spc).intact <==> t.intact && Ready(t, env, links)
    decreases |links|
  {
    hide Core, Scanner, InstallLink, Live, Ready, FitsAt, Allocated, Later, Room;
    if !t.intact {
      NeverMended(t, env, links, spc);
    } else if k: nat :| k < |links| && !(links[k].gen == t.gen == t.active.entry.gen) {
      OldLinkBreaks(t, env, links, spc, k);
      OldLinkNotReady(t, env, links, k);
    } else if links == [] {
      ReadyNone(t, env);
    } else {
      var r, rest := InstallLink(t, env, links[0], spc), links[1..];
      LinkIntactIff(t, env, links[0], spc);
      if r.intact {
        LinkLater(t, env, links[0], spc);
        LinkNoFlush(t, env, links[0], spc);
        ReadyRest(t, r, env, links);
        BelowLater(t, r, ScannedFor(t, Sought(t, links[0])), links);
        LinksIntactIff(r, env, rest, spc);
      } else {
        NeverMended(r, env, rest, spc);
        ReadyFirst(t, env, links);
      }
    }
  }

  lemma OldLinkNotReady(t: Thread, env: Env, links: seq<Loc>, k: nat)
    requires k < |links| && !(links[k].gen == t.gen == t.active.entry.gen)
    ensures !Ready(t, env, links)
  {
    hide Room, FitsAt;
    assert !Sane(t, links[k]);
  }

  lemma ReadyNone(t: Thread, env: Env)
    ensures Ready(t, env, [])
  {
  }

  lemma BelowLater(t: Thread, r: Thread, scanned: set<nat>, links: seq<Loc>)
    requires links != [] && Below(t, links) && Later(t, r, scanned)
    ensures Below(r, links[1..])
  {
    hide FitsAt, Known, ActiveLookup;
    forall k | 0 <= k < |links[1..]| ensures Allocated(r, links[1..][k]) { assert Allocated(t, links[k + 1]); }
  }

  // ---------- install_trace ----------

  /** The guard on a state about to install its trace. */
  predicate CanInstall(t: Thread, env: Env) {
    Ready(t, env, LinksOf(t, t.active.sourceBb))
  }

  /** Installing keeps the history clean if and only if the guard holds when it starts. */
  lemma InstallIntactIff(t: Thread, env: Env)
    requires Core(t) && Scanner(env) && t.active.on
    requires Dead(t) || (Installable(t) && Finished(t) && CacheTo(t, Pending(t), t.active.id))
    ensures InstallTrace(t, env).intact <==> t.intact && CanInstall(t, env)
  {
    hide Core, Scanner, InstallLinks, Commit, Installable, Finished, CacheTo, Live, Source, Ready, At, CodeOk;
    var a := t.(active := t.active.(on := false));
    var spc := if t.active.sourceBb in t.bbs then t.bbs[t.active.sourceBb].source else 0;
    var links := LinksOf(a, t.active.sourceBb);
    CoreOff(t);
    CommitFields(InstallLinks(a, env, links, spc), spc);
    ReadyOff(t, a, env, links);
    if Dead(t) {
      DeadIntactIff(a, env, links, spc);
    } else {
      InstallLive(t);
      HeadAllocated(t, a, links);
      LinksIntactIff(a, env, links, spc);
    }
  }

  lemma ReadyOff(t: Thread, a: Thread, env: Env, links: seq<Loc>)
    requires a == t.(active := t.active.(on := false))
    ensures Ready(a, env, links) <==> Ready(t, env, links)
  {
    hide Room;
    forall l ensures Sane(a, l) <==> Sane(t, l) { }
    RoomOff(t, a, env, links, t.freeBlock, {});
  }

  lemma {:induction false} RoomOff(t: Thread, a: Thread, env: Env, links: seq<Loc>, free: nat, scanned: set<nat>)
    requires a == t.(active := t.active.(on := false))
    ensures Room(a, env, links, free, scanned) <==> Room(t, env, links, free, scanned)
    decreases |links|
  {
    if links != [] {
      SoughtOff(t, a, links[0]);
      var s := Sought(t, links[0]);
      hide Sought, Known;
      RoomOff(t, a, env, links[1..], free, scanned);
      if s != [] { RoomOff(t, a, env, links[1..], free + 1 + env.bb(s[0]).overflow, scanned + {s[0]}); }
    }
  }

  lemma SoughtOff(t: Thread, a: Thread, link: Loc)
    requires a == t.(active := t.active.(on := false))
    ensures Sought(a, link) == Sought(t, link) && forall s :: Known(a, s) <==> Known(t, s)
  {
  }

  /** A discarded trace: the first link, if there is one, already breaks the history. */
  lemma DeadIntactIff(t: Thread, env: Env, links: seq<Loc>, spc: nat)
    requires t.active.entry.gen < t.gen
    ensures InstallLinks(t, env, links, spc).intact <==> t.intact && Ready(t, env, links)
  {
    hide InstallLink, Ready, FitsAt;
    if links == [] {
      ReadyNone(t, env);
    } else {
      LinkIntactIff(t, env, links[0], spc);
      ReadyOne(t, env, links[0]);
      OldLinkNotReady(t, env, links, 0);
      NeverMended(InstallLink(t, env, links[0], spc), env, links[1..], spc);
    }
  }

  /** What is recorded for the head's block lies in allocated blocks. */
  lemma HeadAllocated(t: Thread, a: Thread, links: seq<Loc>)
    requires CacheTo(t, Pending(t), t.active.id) && Live(t, t.active.sourceBb) && t.active.sourceBb < CODE_CACHE_SIZE
    requires a == t.(active := t.active.(on := false)) && links == LinksOf(a, t.active.sourceBb)
    ensures t.intact ==> forall k | 0 <= k < |links| && links[k].gen == t.gen :: Allocated(a, links[k])
    ensures Live(a, a.active.sourceBb)
  {
    CodeLinks(t, Pending(t));
    hide CodeOk, CacheTo;
    if t.intact {
      forall k | 0 <= k < |links| && links[k].gen == t.gen ensures Allocated(a, links[k]) {
        HeadLinks(t, Pending(t), k);
        assert Source(t, Pending(t), t.active.id, links[k], t.bbs[t.active.sourceBb].source);
      }
    }
  }

  lemma {:induction false} LinksNoFlush(t: Thread, env: Env, links: seq<Loc>, spc: nat)
    requires Core(t) && Scanner(env) && Live(t, t.active.sourceBb) && !t.wasFlushed && t.intact
    requires InstallLinks(t, env, links, spc).intact
    ensures var r := InstallLinks(t, env, links, spc); !r.wasFlushed && r.gen == t.gen
    decreases |links|
  {
    hide Core, Scanner, InstallLink, Live;
    if links != [] {
      var r := InstallLink(t, env, links[0], spc);
      if !r.intact { NeverMended(r, env, links[1..], spc); }
      LinkNoFlush(t, env, links[0], spc);
      LinksNoFlush(r, env, links[1..], spc);
    }
  }

  /** If all links can be rewritten, the loop runs to its end and leaves everything going where the guest goes. */
  lemma LinksRight(t: Thread, env: Env, links: seq<Loc>, spc: nat, pend: nat)
    requires Core(t) && Scanner(env) && CacheTo(t, pend, t.active.id) && HeadOk(t) && Live(t, t.active.sourceBb)
             && !t.wasFlushed
    requires t.frags[t.traceId].source == spc && t.intact && Ready(t, env, links)
    requires forall k | 0 <= k < |links| && links[k].gen == t.gen :: Source(t, pend, t.active.id, links[k], spc)
    ensures var r := InstallLinks(t, env, links, spc);
            !r.wasFlushed && r.gen == t.gen && r.asserted && CodeOk(r, pend, t.active.id)
  {
    hide Core, Scanner, InstallLinks, Live, HeadOk, CodeOk, Entries, At, Ready, Source, Allocated, Advances;
    forall k | 0 <= k < |links| && links[k].gen == t.gen ensures Allocated(t, links[k]) {
      SourceAllocatedAt(t, pend, links[k], spc);
    }
    LinksIntactIff(t, env, links, spc);
    LinksNoFlush(t, env, links, spc);
    InstallLinksMean(t, env, links, spc, pend);
  }

  lemma SourceAllocatedAt(t: Thread, pend: nat, link: Loc, spc: nat)
    requires Source(t, pend, t.active.id, link, spc)
    ensures Allocated(t, link)
  {
  }

  /** If the guard holds, the trace is published, and everything installed goes where the guest goes. */
  lemma InstallRight(t: Thread, env: Env)
    requires Core(t) && Scanner(env) && Installable(t) && Finished(t) && CacheTo(t, Pending(t), t.active.id)
    requires t.intact && CanInstall(t, env)
    ensures var r := InstallTrace(t, env);
            !r.wasFlushed && Committed(t, r) && r.asserted && CodeOk(r, 0, r.traceId)
  {
    hide Core, Scanner, InstallLinks, Commit, Installable, Finished, Live, CodeOk, Entries, At, CanInstall, Dead, Source;
    InstallLive(t);
    InstallIntactIff(t, env);
    InstallSafe(t, env);
    InstallMeans(t, env);
    InstalledUnflushed(t, env);
  }

  lemma InstalledUnflushed(t: Thread, env: Env)
    requires Core(t) && Scanner(env) && Live(t, t.active.sourceBb) && !t.wasFlushed && t.intact
             && InstallTrace(t, env).intact
             && t.active.on
    ensures !InstallTrace(t, env).wasFlushed
  {
    hide Core, Scanner, InstallLinks, Live, Commit;
    var a := t.(active := t.active.(on := false));
    CoreOff(t);
    LiveOff(t, a);
    var spc := if t.active.sourceBb in t.bbs then t.bbs[t.active.sourceBb].source else 0;
    var b := InstallLinks(a, env, LinksOf(a, t.active.sourceBb), spc);
    CommitFields(b, spc);
    LinksNoFlush(a, env, LinksOf(a, t.active.sourceBb), spc);
    CommitUnflushed(b, spc);
  }

  lemma LiveOff(t: Thread, a: Thread)
    requires a == t.(active := t.active.(on := false)) && Live(t, t.active.sourceBb)
    ensures Live(a, a.active.sourceBb)
  {
  }

  lemma CommitUnflushed(t: Thread, spc: nat)
    ensures Commit(t, spc).wasFlushed == t.wasFlushed
  {
    hide StubCode, StubLinks, StubsEnd, AllReach;
  }

  // ---------- The assertions of the loop ----------

  /** The successor found to be a trace. */
  function FoundOne(t: Thread, x: ExitInfo): nat {
    if ActiveLookup(t, x.taken).Found? then x.taken else x.skipped
  }

  /** After a flush the trace in progress is still found under its head's address, unless its block has been reused. */
  predicate StillHead(t: Thread, spc: nat) {
    t.active.sourceBb != t.first && IsActiveHead(t, spc)
  }

  /**
   The assertions hold if and only if a successor of the linking block is a trace and, should the lookup for the other
   one flush, that trace is still found or the jump to an absent translation reaches its target.
   */
  lemma AssertedIff(t: Thread, env: Env, link: Loc, id: nat)
    requires Core(t) && Scanner(env) && Live(t, t.active.sourceBb) && id in t.bbs
    ensures var x := t.bbs[id].exit;
            PatchBranch(t, env, link, id).asserted <==>
            && t.asserted && Beside(t, x) != []
            && (NoFlush(t, Beside(t, x)) || env.absentNear || StillHead(t, FoundOne(t, x)))
  {
    hide ActiveLookup, ActiveLookupOrScan, Relinked, PatchBranch, Known, Core, Scanner, Live, StillHead, Rewritten;
    var x := t.bbs[id].exit;
    PatchBranchShape(t, env, link, id);
    var onTaken := ActiveLookup(t, x.taken).Found?;
    if onTaken || ActiveLookup(t, x.skipped).Found? {
      var s, f := if onTaken then x.skipped else x.taken, FoundOne(t, x);
      LookupKeepsIff(t, env, s);
      var (a, l) := ActiveLookupOrScan(t, env, s);
      RelinkedFields(t, env, a, id, onTaken, l, link);
      LookupAsserted(t, env, s);
      if a.gen == t.gen { FoundStays(t, env, s, f); } else { FoundAfterFlush(t, env, s, f); }
    }
  }

  /** If that lookup flushes, the link is recorded for the block just scanned although its own block is gone. */
  lemma InstallMayRecordStaleLink(t: Thread, env: Env, link: Loc, id: nat)
    requires Core(t) && Scanner(env) && id in t.bbs && link.gen == t.gen && !NoFlush(t, Beside(t, t.bbs[id].exit))
    ensures var r, spc := PatchBranch(t, env, link, id), Beside(t, t.bbs[id].exit)[0];
            && r.gen == t.gen + 1 && Live(r, t.first) && r.bbs[t.first].source == spc
            && r.links == KeptLinks(t.links)[t.first := [link]]
  {
    hide ActiveLookup, Relinked, PatchBranch, Scanner, MarkOverflow, Sorted, BlocksOwned, Disjoint, KeptLinks,
         Forgotten, AddLink;
    var x := t.bbs[id].exit;
    PatchBranchShape(t, env, link, id);
    var onTaken, s := ActiveLookup(t, x.taken).Found?, Beside(t, x)[0];
    var (a, l) := ActiveLookupOrScan(t, env, s);
    RelinkedFields(t, env, a, id, onTaken, l, link);
    RelinkedLinks(t, env, a, id, onTaken, l, link);
    NoListKept(t.links, t.first, link, l);
  }

  lemma NoListKept(links: map<nat, seq<Loc>>, id: nat, from: Loc, to: Loc)
    requires id < CODE_CACHE_SIZE && to.addr == id * BLOCK_BYTES
    ensures AddLink(KeptLinks(links), from, to) == KeptLinks(links)[id := [from]]
  {
    assert BbId(to.addr) == id;
    assert [from] + [] == [from];
  }

  lemma RelinkedLinks(t: Thread, env: Env, a: Thread, id: nat, onTaken: bool, l: Loc, link: Loc)
    requires id in t.bbs && l.addr < TRACES
    ensures Relinked(t, env, a, id, onTaken, l, link).links == AddLink(a.links, link, l)
  {
    hide Rewritten, AddLink;
    RewrittenFields(t, env, a, id, onTaken, l);
  }

  lemma LookupAsserted(t: Thread, env: Env, spc: nat)
    ensures ActiveLookupOrScan(t, env, spc).0.asserted == t.asserted
  {
    hide MarkOverflow, Forgotten, KeptLinks;
  }

  lemma FoundAfterFlush(t: Thread, env: Env, s: nat, f: nat)
    requires Core(t) && ActiveLookupOrScan(t, env, s).0.gen != t.gen && ActiveLookup(t, f).Found?
    ensures ActiveLookup(ActiveLookupOrScan(t, env, s).0, f).Found? <==> StillHead(t, f)
  {
    hide MarkOverflow, BlocksOwned, Sorted, Disjoint, KeptLinks;
  }
}
