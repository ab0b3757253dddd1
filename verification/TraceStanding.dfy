/**
 When installed traces stay right, whatever the history: nothing but an installation can harm them, and it does exactly
 if it writes a jump over something they need.
 */
module TraceStanding {
  import opened CacheLayout
  import opened TraceModel
  import opened TraceSafety
  import opened TraceRuns
  import opened TraceCode
  import opened TraceMeaning
  import opened TracePatches
  import opened TraceTranslation
  import opened TraceHistory

  // ---------- What leaves installed traces alone ----------

  /** Everything that installed traces depend on is as before. */
  predicate Undisturbed(t: Thread, r: Thread) {
    && Carries(t, t.traceId, r, t.traceId) && r.traceId == t.traceId && t.traceNext <= r.traceNext
    && (forall a | a in t.code && Whole(t, 0, a) :: a in r.code && r.code[a] == t.code[a])
    && Apart(t.code, r.code, t.traceNext)
  }

  /** That, or a flush has left no installed trace. */
  predicate Calm(t: Thread, r: Thread) {
    r.traceId == CODE_CACHE_SIZE || Undisturbed(t, r)
  }

  lemma CalmTrans(t: Thread, r: Thread, s: Thread)
    requires Calm(t, r) && Calm(r, s)
    ensures Calm(t, s)
  {
    hide WordSize;
  }

  /** Installed traces and nothing else pending. */
  predicate Standing(t: Thread) {
    Installed(t, 0, t.traceId)
  }

  lemma CalmStands(t: Thread, r: Thread)
    requires Standing(t) && Calm(t, r)
    ensures Standing(r)
  {
    hide Installed, Carries, Apart;
    if r.traceId == CODE_CACHE_SIZE {
      NothingInstalled(r, 0, r.traceId);
    } else {
      InstalledCarried(t, 0, t.traceId, r, 0, r.traceId);
    }
  }

  lemma NothingInstalled(t: Thread, pend: nat, end: nat)
    requires t.traceId == CODE_CACHE_SIZE
    ensures Installed(t, pend, end)
  {
  }

  lemma CalmSelf(t: Thread)
    ensures Calm(t, t)
  {
  }

  /** What differs is neither code nor fragments nor blocks nor where the installed traces end. */
  lemma CalmFields(t: Thread, r: Thread)
    requires r == t.(ok := r.ok, asserted := r.asserted, intact := r.intact, wasFlushed := r.wasFlushed, entry := r.entry,
                     links := r.links, linked := r.linked, fragCount := r.fragCount, active := r.active)
    ensures Calm(t, r)
  {
  }

  lemma PlaceCalm(t: Thread, env: Env, spc: nat)
    requires Core(t) && Scanner(env) && t.freeBlock < RESERVED
    ensures Calm(t, Place(t, env, spc).0)
  {
    PlaceGrows(t, env, spc);
    hide Place, Core, Scanner;
  }

  lemma FlushCalm(t: Thread, r: Thread)
    ensures Calm(r, Flush(t))
  {
  }

  lemma LookupCalm(t: Thread, env: Env, spc: nat)
    requires Core(t) && Scanner(env)
    ensures Calm(t, LookupOrScan(t, env, spc).0) && Calm(t, ActiveLookupOrScan(t, env, spc).0)
  {
    hide Core, Scanner, Place, Flush, Calm;
    CalmSelf(t);
    if spc !in t.entry {
      FlushCalm(t, t);
      CoreFlush(t);
      FlushedFree(t);
      PlaceCalm(MakeRoom(t), env, spc);
      CalmTrans(t, MakeRoom(t), Place(MakeRoom(t), env, spc).0);
    }
  }

  lemma FlushedFree(t: Thread)
    requires Core(t)
    ensures Flush(t).freeBlock < RESERVED
  {
  }

  lemma ScanCalm(t: Thread, env: Env, spc: nat, prefix: nat)
    requires Scanner(env) && t.traceId <= t.active.id && t.traceNext <= t.active.writeP
    ensures Calm(t, ScanTrace(t, env, spc, prefix).0)
  {
    hide Flush, ScanTrace, NewFragment, Calm, Longer, Scanner;
    var a, n := NewFragment(t, env, spc, prefix), ScanTrace(t, env, spc, prefix).0.fragCount;
    ScanShape(t, env, spc, prefix);
    FragmentCalm(t, env, spc, prefix);
    FlushCalm(a, t);
    var b := if env.trace(spc).flushes then Flush(a) else a;
    CalmFields(b, b.(fragCount := n));
    CalmTrans(t, b, b.(fragCount := n));
  }

  lemma FragmentCalm(t: Thread, env: Env, spc: nat, prefix: nat)
    requires t.traceId <= t.active.id && t.traceNext <= t.active.writeP
    ensures Calm(t, NewFragment(t, env, spc, prefix))
  {
    var m := NewFragment(t, env, spc, prefix).frags[t.active.id];
    ErasedBeyond(t, m.tpc, m.end);
    hide Erased, WordSize;
  }

  lemma WrittenCalm(t: Thread, at: nat, word: Patched)
    requires t.traceNext <= at
    ensures Calm(t, t.(code := Written(t.code, at, word)))
  {
    WrittenBeyond(t, at, word);
    hide Written, WordSize;
  }

  // ---------- One iteration of the loop ----------

  /** Nothing has been harmed so far: the installed traces stand, and the trace being installed is complete. */
  predicate Stands(t: Thread) {
    LastDone(t) && Chained(t) && Installed(t, Pending(t), t.active.id)
  }

  /** The closing jump, if there is one, stays complete in front of the stubs and leads where it should. */
  predicate SparesClosing(t: Thread, done: set<nat>, at: nat, spc: nat) {
    var p, size := Pending(t), JumpSize(at, t.active.entry.addr);
    LastExit(t) == Branch || LastExit(t) == Jal ==>
      && p in t.code
      && if at == p then GoesTo(t, t.active.id - 1, spc) && p + size <= t.active.writeP
         else p + Width(t, done, p) <= at || at + size <= p
  }

  /** A jump to the new trace written at `at` harms neither the installed traces nor the one being installed. */
  predicate HarmsNothing(t: Thread, done: set<nat>, at: nat, spc: nat) {
    && Harmless(t, done, Pending(t), at, spc) && SparesClosing(t, done, at, spc)
    && forall f | t.traceId <= f < t.active.id && f in t.frags :: Misses(t, at, t.frags[f])
  }

  lemma PatchStandsIff(t: Thread, at: nat, spc: nat)
    requires Stands(t) && At(t, t.active.id, spc, t.active.entry)
    ensures Stands(PatchTrace(t, at, spc)) <==> HarmsNothing(t, {}, at, spc)
  {
    hide Installed, LastDone, Chained, PatchTrace, At, Harmless, SparesClosing, Misses;
    PatchFields(t, at, spc);
    PatchKeepsIff(t, at, spc, Pending(t), t.active.id);
    ClosingSparedIff(t, at, spc);
    ChainSparedIff(t, at, spc);
    SamePending(t, at, spc);
  }

  lemma SamePending(t: Thread, at: nat, spc: nat)
    ensures Pending(PatchTrace(t, at, spc)) == Pending(t) && LastExit(PatchTrace(t, at, spc)) == LastExit(t)
  {
    hide PatchTrace;
    PatchFields(t, at, spc);
  }

  lemma ChainSparedIff(t: Thread, at: nat, spc: nat)
    requires Chained(t)
    ensures Chained(PatchTrace(t, at, spc)) <==> forall f | t.traceId <= f < t.active.id && f in t.frags :: Misses(t, at, t.frags[f])
  {
    hide Clear, WordSize, JumpSize;
    var r, word := PatchTrace(t, at, spc), Jump(t.active.entry, spc);
    PatchFields(t, at, spc);
    JumpWord(at, t.active.entry, spc);
    forall f | t.traceId <= f < t.active.id
      ensures f in t.frags && (Clear(r.code, t.frags[f]) <==> Misses(t, at, t.frags[f])) { ClearIff(t.code, at, word, t.frags[f]); }
  }

  lemma ClosingSparedIff(t: Thread, at: nat, spc: nat)
    requires LastDone(t) && At(t, t.active.id, spc, t.active.entry)
    ensures LastDone(PatchTrace(t, at, spc)) <==> SparesClosing(t, {}, at, spc)
  {
    hide At, PatchTrace, Ordered, GoesTo;
    var r := PatchTrace(t, at, spc);
    PatchFields(t, at, spc);
    SamePending(t, at, spc);
    GoesPatched(t, at, spc);
    forall s, l | At(t, t.active.id, s, l) ensures At(r, t.active.id, s, l) { AtPatched(t, r, t.active.id, s, l); }
    if LastExit(t) == Branch || LastExit(t) == Jal { WordSpared(t, at, spc, Pending(t), Pending(t)); }
  }

  lemma GoesPatched(t: Thread, at: nat, spc: nat)
    ensures forall f, s :: GoesTo(PatchTrace(t, at, spc), f, s) <==> GoesTo(t, f, s)
  {
    hide PatchTrace;
    PatchFields(t, at, spc);
  }

  /** Blocks and code are as before, apart from new blocks. */
  predicate OnlyGrown(t: Thread, r: Thread) {
    SameTrace(t, r) && SameBlocks(t, r) && r.code == t.code
  }

  lemma LookupOnlyGrows(t: Thread, env: Env, spc: nat)
    requires Core(t) && Scanner(env) && ActiveLookupOrScan(t, env, spc).0.gen == t.gen
    ensures OnlyGrown(t, ActiveLookupOrScan(t, env, spc).0)
  {
    hide Core, Scanner, Place, SameTrace, SameExits;
    GrownSelf(t);
    if !IsActiveHead(t, spc) && spc !in t.entry {
      LookupKeepsIff(t, env, spc);
      PlaceGrows(t, env, spc);
    }
  }

  lemma BranchOnlyGrows(t: Thread, env: Env, link: Loc, id: nat)
    requires Core(t) && Scanner(env) && id in t.bbs && PatchBranch(t, env, link, id).gen == t.gen
    ensures OnlyGrown(t, PatchBranch(t, env, link, id))
  {
    hide ActiveLookup, ActiveLookupOrScan, Relinked, PatchBranch, Core, Scanner, AssertedAfter, OnlyGrown;
    var x := t.bbs[id].exit;
    PatchBranchShape(t, env, link, id);
    var onTaken := ActiveLookup(t, x.taken).Found?;
    if !onTaken && ActiveLookup(t, x.skipped).Missing? {
      OnlySelf(t);
      FieldsOnlyGrow(t, t, t.(asserted := false));
    } else {
      var s := if onTaken then x.skipped else x.taken;
      var (a, l) := ActiveLookupOrScan(t, env, s);
      RelinkedFields(t, env, a, id, onTaken, l, link);
      LookupOnlyGrows(t, env, s);
      FieldsOnlyGrow(t, a, Relinked(t, env, a, id, onTaken, l, link));
    }
  }

  lemma OnlySelf(t: Thread)
    ensures OnlyGrown(t, t)
  {
  }

  lemma FieldsOnlyGrow(t: Thread, a: Thread, r: Thread)
    requires OnlyGrown(t, a) && r == a.(linked := r.linked, links := r.links, intact := r.intact, asserted := r.asserted)
    ensures OnlyGrown(t, r)
  {
  }

  lemma BlockOnlyGrows(t: Thread, env: Env, link: Loc)
    requires Core(t) && Scanner(env) && PatchBlock(t, env, link).gen == t.gen
    ensures OnlyGrown(t, PatchBlock(t, env, link))
  {
    hide PatchBranch, Core, Scanner;
    var id := Owner(t.actual, link.addr / BLOCK_BYTES);
    if id in t.bbs && t.bbs[id].exit.kind == Branch { BranchOnlyGrows(t, env, link, id); }
  }

  lemma GrownStands(t: Thread, r: Thread)
    requires OnlyGrown(t, r) && Stands(t) && t.traceId <= t.active.id
    ensures Stands(r)
  {
    SameFields(t, r);
    GrownPending(t, r);
    hide SameTrace, Installed, At, Ordered, Clear;
    var end := t.active.id;
    forall s, l | At(t, end, s, l) ensures At(r, end, s, l) { AtCarried(t, end, r, end, s, l); }
    InstalledCarried(t, Pending(t), end, r, Pending(t), end);
    GrownGoes(t, r);
  }

  lemma GrownPending(t: Thread, r: Thread)
    requires r.frags == t.frags && r.active == t.active
    ensures Pending(r) == Pending(t) && LastExit(r) == LastExit(t)
  {
  }

  lemma GrownGoes(t: Thread, r: Thread)
    requires r.frags == t.frags && r.active == t.active
    ensures forall f, s :: GoesTo(r, f, s) <==> GoesTo(t, f, s)
  {
  }

  /** The history does not matter. */
  lemma HistoryStands(t: Thread, r: Thread)
    requires r == t.(intact := r.intact) && t.traceId <= t.active.id
    ensures Stands(t) <==> Stands(r)
  {
    hide Stands, OnlyGrown;
    OnlyHistory(t, r);
    OnlyHistory(r, t);
    if Stands(t) { GrownStands(t, r); }
    if Stands(r) { GrownStands(r, t); }
  }

  lemma OnlyHistory(t: Thread, r: Thread)
    requires r == t.(intact := r.intact)
    ensures OnlyGrown(t, r)
  {
  }

  /** A link in the trace area, whatever code it comes from: one jump is written. */
  lemma LinkPatches(t: Thread, env: Env, link: Loc, spc: nat)
    requires link.addr >= TRACES
    ensures var r := InstallLink(t, env, link, spc); r == PatchTrace(t, link.addr, spc).(intact := r.intact)
  {
    hide Written, Fits;
    LinkShape(t, env, link, spc);
  }

  /** A link to a block; apart from the history, `a` is the state before. */
  lemma LinkBlocks(t: Thread, env: Env, link: Loc, spc: nat) returns (a: Thread)
    requires link.addr < TRACES && Core(t)
    ensures a == t.(intact := a.intact) && InstallLink(t, env, link, spc) == PatchBlock(a, env, link) && Core(a)
  {
    hide PatchBlock, Core, Follows;
    LinkShape(t, env, link, spc);
    a := Judged(t, t.intact && link.gen == t.gen == t.active.entry.gen);
    JudgedFollows(t, t.intact && link.gen == t.gen == t.active.entry.gen);
  }

  /**
   One iteration, for any link and any history: where it writes a jump into a trace, nothing is harmed if and only if the
   guard holds of the state before; rewriting a block harms nothing, unless a flush shows and no trace is left.
   */
  lemma LinkStandsIff(t: Thread, env: Env, link: Loc, spc: nat)
    requires Core(t) && Scanner(env) && HeadOk(t) && !t.wasFlushed && t.frags[t.traceId].source == spc && Stands(t)
    ensures var r := InstallLink(t, env, link, spc);
            if link.addr >= TRACES then !r.wasFlushed && (Stands(r) <==> HarmsNothing(t, {}, link.addr, spc))
            else if r.wasFlushed then r.traceId == CODE_CACHE_SIZE else Stands(r)
  {
    hide Core, Scanner, Stands, HarmsNothing, InstallLink, PatchTrace, PatchBlock, OnlyGrown, At, Judged;
    var r := InstallLink(t, env, link, spc);
    HeadIds(t);
    InstallLinkFollows(t, env, link, spc);
    FollowsWiped(t, r);
    if link.addr >= TRACES {
      TraceHeadAt(t);
      LinkPatches(t, env, link, spc);
      PatchFields(t, link.addr, spc);
      PatchStandsIff(t, link.addr, spc);
      HistoryStands(PatchTrace(t, link.addr, spc), r);
    } else if !r.wasFlushed {
      BlockKeepsStanding(t, env, link, spc);
    }
  }

  lemma BlockKeepsStanding(t: Thread, env: Env, link: Loc, spc: nat)
    requires Core(t) && Scanner(env) && Stands(t) && t.traceId <= t.active.id && link.addr < TRACES
    requires InstallLink(t, env, link, spc).gen == t.gen
    ensures Stands(InstallLink(t, env, link, spc))
  {
    hide Core, Scanner, Stands, InstallLink, PatchBlock, OnlyGrown;
    var a := LinkBlocks(t, env, link, spc);
    HistoryStands(t, a);
    BlockOnlyGrows(a, env, link);
    GrownStands(a, InstallLink(t, env, link, spc));
  }

  lemma HeadIds(t: Thread)
    requires HeadOk(t)
    ensures t.traceId <= t.active.id && t.traceId in t.frags && t.active.entry.gen == t.gen
  {
  }

  lemma FollowsWiped(t: Thread, r: Thread)
    requires Follows(t, r) && !t.wasFlushed
    ensures if r.wasFlushed then r.traceId == CODE_CACHE_SIZE else r.gen == t.gen
    ensures Core(r)
  {
  }

  /** The same for the installed traces alone. */
  lemma LinkKeepsIff(t: Thread, env: Env, link: Loc, spc: nat, pend: nat)
    requires HeadOk(t) && t.frags[t.traceId].source == spc && Installed(t, pend, t.active.id) && link.addr >= TRACES
    ensures Installed(InstallLink(t, env, link, spc), pend, t.active.id) <==> Harmless(t, {}, pend, link.addr, spc)
  {
    hide Installed, InstallLink, PatchTrace, Harmless, At;
    TraceHeadAt(t);
    HeadIds(t);
    LinkPatches(t, env, link, spc);
    PatchFields(t, link.addr, spc);
    PatchKeepsIff(t, link.addr, spc, pend, t.active.id);
    var p, r := PatchTrace(t, link.addr, spc), InstallLink(t, env, link, spc);
    if Installed(p, pend, t.active.id) { HistoryInstalled(p, r, pend, t.active.id); }
    if Installed(r, pend, t.active.id) { HistoryInstalled(r, p, pend, t.active.id); }
  }

  lemma HistoryInstalled(t: Thread, r: Thread, pend: nat, end: nat)
    requires r == t.(intact := r.intact) && Installed(t, pend, end) && t.traceId <= end
    ensures Installed(r, pend, end)
  {
    hide Installed, At;
    forall s, l | At(t, end, s, l) ensures At(r, end, s, l) { AtPatched(t, r, end, s, l); }
    InstalledCarried(t, pend, end, r, pend, end);
  }

  // ---------- The whole loop ----------

  /** In every iteration, up to the one in which a flush shows, nothing is harmed. */
  ghost predicate LoopStands(t: Thread, env: Env, links: seq<Loc>, spc: nat)
    decreases |links|
  {
    Stands(t) && (links == [] || var r := InstallLink(t, env, links[0], spc); r.wasFlushed || LoopStands(r, env, links[1..], spc))
  }

  /** The guard of every iteration. */
  ghost predicate LoopHarmless(t: Thread, env: Env, links: seq<Loc>, spc: nat)
    decreases |links|
  {
    links == []
    || ((links[0].addr >= TRACES ==> HarmsNothing(t, {}, links[0].addr, spc))
        && var r := InstallLink(t, env, links[0], spc); r.wasFlushed || LoopHarmless(r, env, links[1..], spc))
  }

  /** The state of a loop in progress. */
  ghost predicate Looping(t: Thread, spc: nat) {
    Core(t) && HeadOk(t) && Live(t, t.active.sourceBb) && !t.wasFlushed && t.frags[t.traceId].source == spc
  }

  lemma {:induction false} LoopStandsIff(t: Thread, env: Env, links: seq<Loc>, spc: nat)
    requires Looping(t, spc) && Scanner(env) && Stands(t)
    ensures LoopStands(t, env, links, spc) <==> LoopHarmless(t, env, links, spc)
    ensures var r := InstallLinks(t, env, links, spc);
            LoopHarmless(t, env, links, spc) ==> if r.wasFlushed then r.traceId == CODE_CACHE_SIZE else Stands(r)
    decreases |links|
  {
    hide Core, Scanner, Stands, HarmsNothing, InstallLink, HeadOk, Live;
    if links != [] {
      var r := InstallLink(t, env, links[0], spc);
      LinkStandsIff(t, env, links[0], spc);
      NextLooping(t, env, links[0], spc);
      if !r.wasFlushed {
        if Stands(r) { LoopStandsIff(r, env, links[1..], spc); }
      } else {
        assert InstallLinks(t, env, links, spc) == r;
      }
    }
  }

  lemma NextLooping(t: Thread, env: Env, link: Loc, spc: nat)
    requires Looping(t, spc) && Scanner(env)
    ensures var r := InstallLink(t, env, link, spc); if r.wasFlushed then r.traceId == CODE_CACHE_SIZE else Looping(r, spc)
  {
    hide Core, Scanner, InstallLink, HeadOk, Live;
    InstallLinkFollows(t, env, link, spc);
    FollowsWiped(t, InstallLink(t, env, link, spc));
    HeadIds(t);
    if !InstallLink(t, env, link, spc).wasFlushed { AfterOne(t, InstallLink(t, env, link, spc)); }
  }

  // ---------- The guard on the state before the loop ----------

  /** `free` is the next free block, `scanned` has been translated, and the jumps at `done` rewritten in the meantime. */
  predicate AllHarmless(t: Thread, env: Env, links: seq<Loc>, spc: nat, free: nat, scanned: set<nat>, done: set<nat>)
    decreases |links|
  {
    links == []
    || if links[0].addr >= TRACES then
         && HarmsNothing(t, done, links[0].addr, spc)
         && AllHarmless(t, env, links[1..], spc, free, scanned, done + {links[0].addr})
       else
         var s := Sought(t, links[0]);
         if s == [] || Known(t, s[0]) || s[0] in scanned then AllHarmless(t, env, links[1..], spc, free, scanned, done)
         else
           free >= RESERVED
           || AllHarmless(t, env, links[1..], spc, free + 1 + env.bb(s[0]).overflow, scanned + {s[0]}, done)
  }

  /** The word at `a` is as it was, or has been rewritten for the new trace. */
  predicate Renewed(t: Thread, r: Thread, done: set<nat>, spc: nat, a: nat) {
    a in t.code && a in r.code && r.code[a] == if a in done then Jump(t.active.entry, spc) else t.code[a]
  }

  /** So is a word that an installed trace needs; what has been rewritten led to the same address. */
  predicate RenewedWord(t: Thread, r: Thread, done: set<nat>, spc: nat, a: nat) {
    Renewed(t, r, done, spc, a) && (a in done ==> t.code[a].Jump? && t.code[a].spc == spc)
  }

  predicate RenewedFor(t: Thread, r: Thread, done: set<nat>, spc: nat, f: nat)
    requires f in t.frags && f in r.frags
  {
    NeededBy(r, f) == NeededBy(t, f) && forall a | a in NeededBy(t, f) :: RenewedWord(t, r, done, spc, a)
  }

  /** The words of `r`, later in the loop that started in `t`. */
  predicate Since(t: Thread, r: Thread, done: set<nat>, spc: nat) {
    && r.frags == t.frags && r.active == t.active && r.traceId == t.traceId && r.traceNext == t.traceNext
    && (forall f | CODE_CACHE_SIZE <= f < t.traceId && f in t.frags :: RenewedFor(t, r, done, spc, f))
    && (LastExit(t) == Branch || LastExit(t) == Jal ==> Renewed(t, r, done, spc, Pending(t)))
  }

  lemma SparesSince(t: Thread, r: Thread, done: set<nat>, pend: nat, at: nat, spc: nat, a: nat)
    requires RenewedWord(t, r, done, spc, a) && r.active == t.active && r.traceNext == t.traceNext
    ensures Spares(r, {}, pend, at, spc, a) <==> Spares(t, done, pend, at, spc, a)
  {
    hide JumpSize;
  }

  lemma HarmlessToSince(t: Thread, r: Thread, done: set<nat>, pend: nat, at: nat, spc: nat, f: nat)
    requires f in t.frags && f in r.frags && r.frags[f] == t.frags[f] && RenewedFor(t, r, done, spc, f)
    requires r.active == t.active && r.traceNext == t.traceNext
    ensures HarmlessTo(r, {}, pend, at, spc, f) <==> HarmlessTo(t, done, pend, at, spc, f)
  {
    hide Spares, NeededBy, RenewedWord, JumpSize;
    forall a | a in NeededBy(t, f) ensures Spares(r, {}, pend, at, spc, a) <==> Spares(t, done, pend, at, spc, a) {
      SparesSince(t, r, done, pend, at, spc, a);
    }
  }

  lemma ClosingSince(t: Thread, r: Thread, done: set<nat>, at: nat, spc: nat)
    requires Since(t, r, done, spc)
    ensures SparesClosing(r, {}, at, spc) <==> SparesClosing(t, done, at, spc)
  {
    hide RenewedFor, JumpSize;
    GrownPending(t, r);
    GrownGoes(t, r);
    hide GoesTo;
  }

  lemma HarmsSince(t: Thread, r: Thread, done: set<nat>, at: nat, spc: nat)
    requires Since(t, r, done, spc)
    ensures HarmsNothing(r, {}, at, spc) <==> HarmsNothing(t, done, at, spc)
  {
    hide SparesClosing, HarmlessTo, RenewedFor, JumpSize;
    GrownPending(t, r);
    ClosingSince(t, r, done, at, spc);
    forall f | CODE_CACHE_SIZE <= f < t.traceId && f in t.frags
      ensures HarmlessTo(r, {}, Pending(t), at, spc, f) <==> HarmlessTo(t, done, Pending(t), at, spc, f) {
      HarmlessToSince(t, r, done, Pending(t), at, spc, f);
    }
  }

  lemma SinceSelf(t: Thread, spc: nat)
    requires Stands(t)
    ensures Since(t, t, {}, spc)
  {
    hide At, GoesTo, Ordered, Sits;
    forall f | CODE_CACHE_SIZE <= f < t.traceId && f in t.frags ensures RenewedFor(t, t, {}, spc, f) {
      assert Right(t, Pending(t), t.active.id, f);
      NeededKnown(t, Pending(t), t.active.id, f);
    }
  }

  lemma NeededKnown(t: Thread, pend: nat, end: nat, f: nat)
    requires f in t.frags && Right(t, pend, end, f)
    ensures forall a | a in NeededBy(t, f) :: a in t.code
  {
    hide At;
  }

  /** A word that the patch replaces or does not touch. */
  lemma PatchedWord(r: Thread, at: nat, spc: nat, a: nat)
    requires a in r.code && (a == at || a + WordSize(a, r.code[a]) <= at || at + JumpSize(at, r.active.entry.addr) <= a)
    ensures var p := PatchTrace(r, at, spc); a in p.code && p.code[a] == if a == at then Jump(r.active.entry, spc) else r.code[a]
  {
    WrittenThere(r.code, at, Jump(r.active.entry, spc));
    JumpWord(at, r.active.entry, spc);
    if a != at { WrittenFrame(r.code, at, Jump(r.active.entry, spc), a); }
  }

  /** What a spared word holds after the patch. */
  lemma SparedWord(r: Thread, pend: nat, at: nat, spc: nat, a: nat)
    requires Spares(r, {}, pend, at, spc, a)
    ensures var p := PatchTrace(r, at, spc); a in p.code && p.code[a] == if a == at then Jump(r.active.entry, spc) else r.code[a]
  {
    PatchedWord(r, at, spc, a);
  }

  lemma NeededSpared(r: Thread, pend: nat, end: nat, at: nat, spc: nat, f: nat)
    requires f in r.frags && Right(r, pend, end, f) && HarmlessTo(r, {}, pend, at, spc, f)
    ensures NeededBy(PatchTrace(r, at, spc), f) == NeededBy(r, f)
  {
    var m := r.frags[f];
    PatchFields(r, at, spc);
    if m.exit.kind == Branch {
      assert m.exitAddr in NeededBy(r, f);
      SparedWord(r, pend, at, spc, m.exitAddr);
    }
    hide PatchTrace, At;
  }

  lemma PatchedSince(t: Thread, r: Thread, done: set<nat>, at: nat, spc: nat)
    requires Since(t, r, done, spc) && Stands(r) && HarmsNothing(r, {}, at, spc)
    ensures Since(t, PatchTrace(r, at, spc), done + {at}, spc)
  {
    hide PatchTrace, At, GoesTo, Ordered, Sits, Right, Chained, RenewedFor, HarmlessTo, Misses;
    var p := PatchTrace(r, at, spc);
    PatchFields(r, at, spc);
    GrownPending(t, r);
    forall f | CODE_CACHE_SIZE <= f < t.traceId && f in t.frags ensures RenewedFor(t, p, done + {at}, spc, f) {
      assert Right(r, Pending(r), r.active.id, f);
      RenewedPatched(t, r, done, Pending(r), r.active.id, at, spc, f);
    }
    if LastExit(t) == Branch || LastExit(t) == Jal { PatchedWord(r, at, spc, Pending(r)); }
  }

  lemma RenewedPatched(t: Thread, r: Thread, done: set<nat>, pend: nat, end: nat, at: nat, spc: nat, f: nat)
    requires f in t.frags && f in r.frags && RenewedFor(t, r, done, spc, f) && r.active == t.active
    requires Right(r, pend, end, f) && HarmlessTo(r, {}, pend, at, spc, f)
    ensures f in PatchTrace(r, at, spc).frags && RenewedFor(t, PatchTrace(r, at, spc), done + {at}, spc, f)
  {
    hide PatchTrace, Right, NeededBy, WordSize, JumpSize;
    PatchFields(r, at, spc);
    NeededSpared(r, pend, end, at, spc, f);
    forall a | a in NeededBy(t, f) ensures RenewedWord(t, PatchTrace(r, at, spc), done + {at}, spc, a) {
      assert Spares(r, {}, pend, at, spc, a);
      SparedWord(r, pend, at, spc, a);
      assert RenewedWord(t, r, done, spc, a);
    }
  }

  lemma GrownSince(t: Thread, r: Thread, s: Thread, done: set<nat>, spc: nat)
    requires Since(t, r, done, spc) && OnlyGrown(r, s)
    ensures Since(t, s, done, spc)
  {
    SameFields(r, s);
    hide SameTrace, SameBlocks, Pending, LastExit;
    forall f | CODE_CACHE_SIZE <= f < t.traceId && f in t.frags ensures RenewedFor(t, s, done, spc, f) {
      assert RenewedFor(t, r, done, spc, f);
      NeededGrown(r, s, f);
    }
  }

  lemma NeededGrown(r: Thread, s: Thread, f: nat)
    requires f in r.frags && s.frags == r.frags && s.code == r.code && s.traceId == r.traceId
    ensures NeededBy(s, f) == NeededBy(r, f)
  {
  }

  lemma AlikeTrans(t: Thread, r: Thread, s: Thread, one: set<nat>, two: set<nat>)
    requires Alike(t, r, one) && Alike(r, s, two)
    ensures Alike(t, s, one + two)
  {
    hide Known, ActiveLookup;
  }

  lemma AlikeFields(t: Thread, r: Thread)
    requires r == t.(code := r.code, intact := r.intact)
    ensures Alike(t, r, {})
  {
  }

  lemma LaterAlike(t: Thread, r: Thread, scanned: set<nat>)
    requires Later(t, r, scanned)
    ensures Alike(t, r, scanned)
  {
  }

  lemma AllocatedLater(t: Thread, r: Thread, scanned: set<nat>, link: Loc)
    requires Alike(t, r, scanned) && Allocated(t, link)
    ensures Allocated(r, link)
  {
    hide Known, ActiveLookup;
  }

  /** One link to a block: what it scans, or the flush. */
  lemma BlockStep(r: Thread, env: Env, link: Loc, spc: nat)
    requires Looping(r, spc) && Scanner(env) && link.addr < TRACES
    ensures var n, s := InstallLink(r, env, link, spc), Sought(r, link);
            if NoFlush(r, s) then !n.wasFlushed && OnlyGrown(r, n) && Alike(r, n, ScannedFor(r, s)) && n.freeBlock == FreeAfter(r, env, s)
            else n.wasFlushed
  {
    hide Core, Scanner, HeadOk, PatchBlock, InstallLink, OnlyGrown, Alike, Sought, Judged, NoFlush, Live, Follows,
         ScannedFor, FreeAfter;
    var a := LinkBlocks(r, env, link, spc);
    SoughtHistory(r, a, link, env);
    InstallLinkFollows(r, env, link, spc);
    FlushShows(r, a, env, link);
    LiveHistory(r, a);
    if NoFlush(a, Sought(a, link)) { BlockStepGrown(r, a, env, link); }
  }

  lemma FlushShows(r: Thread, a: Thread, env: Env, link: Loc)
    requires a == r.(intact := a.intact) && link.addr < TRACES && Follows(r, PatchBlock(a, env, link)) && !r.wasFlushed
    ensures PatchBlock(a, env, link).wasFlushed <==> !NoFlush(a, Sought(a, link))
  {
    hide PatchBlock, Sought, NoFlush, Core, SameTrace;
    BlockFlush(a, env, link);
  }

  lemma BlockStepGrown(r: Thread, a: Thread, env: Env, link: Loc)
    requires a == r.(intact := a.intact) && Core(a) && Scanner(env) && Live(a, a.active.sourceBb) && link.addr < TRACES
    requires NoFlush(a, Sought(a, link))
    ensures var n, s := PatchBlock(a, env, link), Sought(a, link);
            OnlyGrown(r, n) && Alike(r, n, ScannedFor(a, s)) && n.freeBlock == FreeAfter(a, env, s)
  {
    hide Core, Scanner, PatchBlock, OnlyGrown, Alike, Sought, NoFlush, Live, Later, ScannedFor, FreeAfter;
    var n, found := PatchBlock(a, env, link), ScannedFor(a, Sought(a, link));
    BlockFlush(a, env, link);
    BlockOnlyGrows(a, env, link);
    OnlyHistory(r, a);
    OnlyGrownTrans(r, a, n);
    BlockLater(a, env, link);
    LaterAlike(a, n, found);
    AlikeFields(r, a);
    AlikeTrans(r, a, n, {}, found);
    assert {} + found == found;
  }

  lemma LiveHistory(r: Thread, a: Thread)
    requires a == r.(intact := a.intact) && Live(r, r.active.sourceBb)
    ensures Live(a, a.active.sourceBb)
  {
  }

  lemma SoughtHistory(r: Thread, a: Thread, link: Loc, env: Env)
    requires a == r.(intact := a.intact)
    ensures var s := Sought(r, link);
            && Sought(a, link) == s && (NoFlush(a, s) <==> NoFlush(r, s)) && ScannedFor(a, s) == ScannedFor(r, s)
            && FreeAfter(a, env, s) == FreeAfter(r, env, s)
  {
  }

  lemma OnlyGrownTrans(t: Thread, r: Thread, s: Thread)
    requires OnlyGrown(t, r) && OnlyGrown(r, s)
    ensures OnlyGrown(t, s)
  {
  }

  /** A flush in the lookup is the only way to a new generation. */
  lemma BlockFlush(t: Thread, env: Env, link: Loc)
    requires link.addr < TRACES
    ensures PatchBlock(t, env, link).gen == t.gen <==> NoFlush(t, Sought(t, link))
  {
    hide Beside, PatchBranch, NoFlush, Sought, PatchBlock;
    var id := Owner(t.actual, link.addr / BLOCK_BYTES);
    BlockCases(t, env, link, id);
    if id in t.bbs && t.bbs[id].exit.kind == Branch {
      BranchFlush(t, env, link, id);
    } else {
      NothingLooked(t);
      UnbranchedGen(t, env, link, id);
    }
  }

  lemma UnbranchedGen(t: Thread, env: Env, link: Loc, id: nat)
    requires id == Owner(t.actual, link.addr / BLOCK_BYTES) && !(id in t.bbs && t.bbs[id].exit.kind == Branch)
    ensures PatchBlock(t, env, link).gen == t.gen
  {
    hide PatchBranch;
  }

  lemma BranchFlush(t: Thread, env: Env, link: Loc, id: nat)
    requires id in t.bbs
    ensures PatchBranch(t, env, link, id).gen == t.gen <==> NoFlush(t, Beside(t, t.bbs[id].exit))
  {
    hide ActiveLookup, ActiveLookupOrScan, Relinked, PatchBranch, Known, AssertedAfter;
    var x := t.bbs[id].exit;
    PatchBranchShape(t, env, link, id);
    var onTaken := ActiveLookup(t, x.taken).Found?;
    var s := if onTaken then x.skipped else x.taken;
    LookupKeepsIff(t, env, s);
    var (a, l) := ActiveLookupOrScan(t, env, s);
    RelinkedFields(t, env, a, id, onTaken, l, link);
  }

  lemma {:induction false} GuardSince(t: Thread, r: Thread, env: Env, links: seq<Loc>, spc: nat, scanned: set<nat>, done: set<nat>)
    requires Looping(r, spc) && Scanner(env) && Stands(r) && Since(t, r, done, spc) && Alike(t, r, scanned)
             && Below(t, links)
    ensures LoopHarmless(r, env, links, spc) <==> AllHarmless(t, env, links, spc, r.freeBlock, scanned, done)
    decreases |links|
  {
    hide Looping, Scanner, Stands, Since, Alike, Sought, Known, InstallLink, HarmsNothing, Allocated;
    if links != [] {
      var l, rest := links[0], links[1..];
      assert Below(t, rest) by { forall k | 0 <= k < |rest| ensures Allocated(t, rest[k]) { assert rest[k] == links[k + 1]; } }
      var n := InstallLink(r, env, l, spc);
      NextLooping(r, env, l, spc);
      LoopingStands(r, env, l, spc);
      if l.addr >= TRACES {
        HarmsSince(t, r, done, l.addr, spc);
        if HarmsNothing(r, {}, l.addr, spc) {
          PatchStep(t, r, env, l, spc, scanned, done);
          GuardSince(t, n, env, rest, spc, scanned, done + {l.addr});
        }
      } else {
        BlockStepSince(t, r, env, l, spc, scanned, done);
        var s := Sought(t, l);
        if !n.wasFlushed { GuardSince(t, n, env, rest, spc, scanned + ScannedFor(r, s), done); }
        if s != [] { KnownSince(t, r, scanned, s[0]); }
        assert scanned + {} == scanned;
      }
    }
  }

  lemma LoopingStands(t: Thread, env: Env, link: Loc, spc: nat)
    requires Looping(t, spc) && Scanner(env) && Stands(t)
    ensures var r := InstallLink(t, env, link, spc);
            if link.addr >= TRACES then !r.wasFlushed && (Stands(r) <==> HarmsNothing(t, {}, link.addr, spc))
            else if r.wasFlushed then r.traceId == CODE_CACHE_SIZE else Stands(r)
  {
    hide Core, Scanner, Stands, HarmsNothing, InstallLink, HeadOk, Live;
    LinkStandsIff(t, env, link, spc);
  }

  lemma PatchStep(t: Thread, r: Thread, env: Env, link: Loc, spc: nat, scanned: set<nat>, done: set<nat>)
    requires link.addr >= TRACES && Stands(r) && Since(t, r, done, spc) && Alike(t, r, scanned)
             && HarmsNothing(r, {}, link.addr, spc)
    ensures var n := InstallLink(r, env, link, spc);
            Since(t, n, done + {link.addr}, spc) && Alike(t, n, scanned) && n.freeBlock == r.freeBlock
  {
    hide Stands, Alike, HarmsNothing, InstallLink, PatchTrace, Since;
    var p, n := PatchTrace(r, link.addr, spc), InstallLink(r, env, link, spc);
    LinkPatches(r, env, link, spc);
    PatchFields(r, link.addr, spc);
    PatchedSince(t, r, done, link.addr, spc);
    OnlyHistory(p, n);
    GrownSince(t, p, n, done + {link.addr}, spc);
    AlikeFields(r, n);
    AlikeTrans(t, r, n, scanned, {});
    assert scanned + {} == scanned;
  }

  lemma BlockStepSince(t: Thread, r: Thread, env: Env, link: Loc, spc: nat, scanned: set<nat>, done: set<nat>)
    requires Looping(r, spc) && Scanner(env) && link.addr < TRACES && Allocated(t, link)
    requires Since(t, r, done, spc) && Alike(t, r, scanned)
    ensures var n, s := InstallLink(r, env, link, spc), Sought(t, link);
            if NoFlush(r, s) then
              && !n.wasFlushed && Since(t, n, done, spc) && Alike(t, n, scanned + ScannedFor(r, s))
              && n.freeBlock == FreeAfter(r, env, s)
            else n.wasFlushed
  {
    hide Looping, Scanner, Alike, InstallLink, Since, OnlyGrown, Sought, NoFlush, Allocated;
    SoughtLater(t, r, scanned, link);
    BlockStep(r, env, link, spc);
    var n, s := InstallLink(r, env, link, spc), Sought(t, link);
    if NoFlush(r, s) {
      GrownSince(t, r, n, done, spc);
      AlikeTrans(t, r, n, scanned, ScannedFor(r, s));
    }
  }

  /** The guard can be evaluated before the loop, if the links to blocks lie in allocated ones. */
  lemma LoopGuardIff(t: Thread, env: Env, links: seq<Loc>, spc: nat)
    requires Looping(t, spc) && Scanner(env) && Stands(t) && Below(t, links)
    ensures LoopStands(t, env, links, spc) <==> AllHarmless(t, env, links, spc, t.freeBlock, {}, {})
  {
    hide Looping, Scanner, Stands, Below, LoopStands, LoopHarmless, AllHarmless, Since, Alike;
    LoopStandsIff(t, env, links, spc);
    SinceSelf(t, spc);
    LaterSelf(t);
    LaterAlike(t, t, {});
    GuardSince(t, t, env, links, spc, {}, {});
  }

  // ---------- install_trace ----------

  function Off(t: Thread): Thread {
    t.(active := t.active.(on := false))
  }

  function HeadSource(t: Thread): nat {
    if t.active.sourceBb in t.bbs then t.bbs[t.active.sourceBb].source else 0
  }

  /** In no iteration is anything harmed, as the guard says in each of them. */
  ghost predicate InstallHarmless(t: Thread, env: Env) {
    LoopHarmless(Off(t), env, LinksOf(t, t.active.sourceBb), HeadSource(t))
  }

  ghost predicate InstallStands(t: Thread, env: Env) {
    LoopStands(Off(t), env, LinksOf(t, t.active.sourceBb), HeadSource(t))
  }

  /** A trace ready to be installed next to installed ones that are right. */
  ghost predicate ReadyToInstall(t: Thread) {
    Core(t) && Installable(t) && Finished(t) && Stands(t)
  }

  lemma OffStands(t: Thread)
    requires Stands(t) && t.traceId <= t.active.id
    ensures Stands(Off(t))
  {
    var a, pend, end := Off(t), Pending(t), t.active.id;
    hide Installed, At, Ordered, Clear;
    forall s, l | At(t, end, s, l) ensures At(a, end, s, l) { AtSame(t, a, end, end, s, l); }
    InstalledCarried(t, pend, end, a, pend, end);
    OffGoes(t, a);
  }

  lemma OffGoes(t: Thread, a: Thread)
    requires a == Off(t)
    ensures (forall f, s :: GoesTo(a, f, s) <==> GoesTo(t, f, s)) && Pending(a) == Pending(t) && LastExit(a) == LastExit(t)
  {
  }

  lemma OffLooping(t: Thread)
    requires ReadyToInstall(t)
    ensures Looping(Off(t), HeadSource(t)) && Stands(Off(t)) && Finished(Off(t)) && t.traceId <= t.active.id
  {
    hide ExitsOk, Stands, At, LastDone, Chained, Ordered, BlocksOwned, Sorted, Disjoint, Leaves, Continues;
    CoreOff(t);
    IdsOrdered(t);
    FinishedFacts(t);
    InstallLive(t);
    OffStands(t);
    LiveOff(t, Off(t));
    FaithfulSame(t, Off(t));
    StandsComplete(Off(t));
  }

  lemma StandsComplete(t: Thread)
    requires Stands(t)
    ensures LastDone(t) && Chained(t) && Installed(t, Pending(t), t.active.id)
  {
  }

  lemma FinishedLater(a: Thread, b: Thread)
    requires Core(a) && Finished(a) && Follows(a, b) && !b.wasFlushed && Live(a, a.active.sourceBb) && Stands(b)
    ensures Finished(b) && b.traceId == a.traceId && b.active == a.active && 0 < b.traceNext
  {
    hide Stands, At, LastDone, Chained, Ordered, Leaves, Continues, HeadOk, BlocksOwned, Sorted, SameTrace;
    SameFields(a, b);
    FaithfulGrows(a, b);
    StandsComplete(b);
  }

  /** If nothing is harmed in the loop, all installed traces are right afterwards, the new one included. */
  lemma InstallKeepsStanding(t: Thread, env: Env)
    requires ReadyToInstall(t) && Scanner(env) && InstallHarmless(t, env)
    ensures Standing(InstallTrace(t, env))
  {
    hide Core, Scanner, Installable, Finished, Stands, Installed, InstallLinks, Commit, HeadOk, Live, LoopHarmless,
         Follows;
    OffLooping(t);
    var a, links, spc := Off(t), LinksOf(t, t.active.sourceBb), HeadSource(t);
    InstallLive(t);
    LoopStandsIff(a, env, links, spc);
    InstallLinksFollow(a, env, links, spc);
    var b := InstallLinks(a, env, links, spc);
    if b.wasFlushed {
      NothingInstalled(b, 0, b.traceId);
    } else {
      FinishedLater(a, b);
      StandsComplete(b);
      IdsOrdered(a);
      CommitInstalled(b, spc);
      CommitFields(b, spc);
    }
  }

  /** With a clean history the guard can be evaluated before the installation starts. */
  lemma InstallGuardIff(t: Thread, env: Env)
    requires ReadyToInstall(t) && Scanner(env) && t.intact && CacheTo(t, Pending(t), t.active.id)
    ensures InstallStands(t, env)
            <==> AllHarmless(Off(t), env, LinksOf(t, t.active.sourceBb), HeadSource(t), t.freeBlock, {}, {})
  {
    hide Core, Scanner, Installable, Finished, Stands, CacheTo, LoopStands, AllHarmless, Looping, Live;
    OffLooping(t);
    InstallLive(t);
    HeadBelow(t);
    LoopGuardIff(Off(t), env, LinksOf(t, t.active.sourceBb), HeadSource(t));
  }

  lemma HeadBelow(t: Thread)
    requires CacheTo(t, Pending(t), t.active.id) && t.intact && Live(t, t.active.sourceBb)
             && t.active.sourceBb < CODE_CACHE_SIZE
    ensures Below(Off(t), LinksOf(t, t.active.sourceBb))
  {
    var links := LinksOf(t, t.active.sourceBb);
    CodeLinks(t, Pending(t));
    HeadAllocated(t, Off(t), links);
    hide CodeOk, CacheTo, Source, Allocated;
    forall k | 0 <= k < |links| ensures Allocated(Off(t), links[k]) {
      assert Incoming(t, Pending(t), t.active.id, t.active.sourceBb, links[k]);
      if links[k].gen != t.gen { TracesAllocated(Off(t), links[k]); }
    }
  }

  lemma TracesAllocated(t: Thread, link: Loc)
    requires link.addr >= TRACES
    ensures Allocated(t, link)
  {
  }

  /** A loop that keeps the history clean harms nothing. */
  lemma {:induction false} CleanLoopStands(t: Thread, env: Env, links: seq<Loc>, spc: nat)
    requires Looping(t, spc) && Scanner(env) && Stands(t) && t.intact && CacheTo(t, Pending(t), t.active.id)
    requires forall k | 0 <= k < |links| && links[k].gen == t.gen :: Source(t, Pending(t), t.active.id, links[k], spc)
    requires InstallLinks(t, env, links, spc).intact
    ensures LoopStands(t, env, links, spc)
    decreases |links|
  {
    hide Core, Scanner, Stands, InstallLink, HeadOk, Live, CacheTo, Source, Advances;
    if links != [] {
      var r, rest := InstallLink(t, env, links[0], spc), links[1..];
      if !r.intact { NeverMended(r, env, rest, spc); }
      LinkNoFlush(t, env, links[0], spc);
      NextLooping(t, env, links[0], spc);
      InstallLinkMeans(t, env, links[0], spc, Pending(t));
      CleanStands(t, r);
      SourcesKept(t, r, links, spc, Pending(t));
      assert forall k | 0 <= k < |rest| :: rest[k] == links[k + 1];
      CleanLoopStands(r, env, rest, spc);
    }
  }

  lemma CleanStands(t: Thread, r: Thread)
    requires Stands(t) && Advances(t, r, Pending(t)) && r.intact && CacheTo(r, Pending(t), t.active.id)
    ensures Stands(r) && Pending(r) == Pending(t) && r.active == t.active
  {
    AdvancesIntact(t, r, Pending(t));
    AdvancesShrunk(t, r, Pending(t));
    AdvancedFields(t, r);
    hide Advances, Installed, LastDone, Chained, Shrunk, Entries;
    GrownPending(t, r);
    LastDoneAdvances(t, r);
    ChainedShrunk(t, r);
  }

  lemma AdvancedFields(t: Thread, r: Thread)
    requires Advances(t, r, Pending(t))
    ensures r.frags == t.frags && r.active == t.active && r.traceId == t.traceId
  {
  }

  /** The guard that keeps the history clean is sufficient. */
  lemma CanInstallHarmless(t: Thread, env: Env)
    requires ReadyToInstall(t) && Scanner(env) && t.intact && CacheTo(t, Pending(t), t.active.id) && CanInstall(t, env)
    ensures InstallHarmless(t, env)
  {
    hide Core, Scanner, Installable, Finished, Stands, CacheTo, LoopStands, LoopHarmless, HeadOk, Live, Source, Ready,
         InstallLinks;
    var a, links, spc := Off(t), LinksOf(t, t.active.sourceBb), HeadSource(t);
    OffLooping(t);
    InstallLive(t);
    OffFinished(t);
    ReadyOff(t, a, env, links);
    HeadAllocated(t, a, links);
    LinksIntactIff(a, env, links, spc);
    forall k | 0 <= k < |links| && links[k].gen == a.gen ensures Source(a, Pending(a), a.active.id, links[k], spc) {
      HeadLinks(a, Pending(a), k);
    }
    CleanLoopStands(a, env, links, spc);
    LoopStandsIff(a, env, links, spc);
  }

  // ---------- One call ----------

  /** Whatever the call installs, it harms nothing. */
  ghost predicate PointHarmless(p: Point, env: Env) {
    p.Before? && !p.state.wasFlushed ==> InstallHarmless(p.state, env)
  }

  /** The same of what really happens in the loop. */
  ghost predicate PointStands(p: Point, env: Env) {
    p.Before? && !p.state.wasFlushed ==> InstallStands(p.state, env)
  }

  /** Unless a flush has already discarded it, the trace is complete and the installed ones are right. */
  ghost predicate PointReady(p: Point) {
    p.Before? && !p.state.wasFlushed ==> ReadyToInstall(p.state)
  }

  lemma PointStandsIff(p: Point, env: Env)
    requires PointReady(p) && Scanner(env)
    ensures PointStands(p, env) <==> PointHarmless(p, env)
  {
    hide Core, Scanner, Installable, Finished, Stands, Looping, LoopStands, LoopHarmless;
    if p.Before? && !p.state.wasFlushed {
      OffLooping(p.state);
      LoopStandsIff(Off(p.state), env, LinksOf(p.state, p.state.active.sourceBb), HeadSource(p.state));
    }
  }

  lemma DeadStands(t: Thread, env: Env)
    requires Core(t) && Scanner(env) && t.wasFlushed && t.traceId == CODE_CACHE_SIZE && t.active.on
    ensures Standing(InstallTrace(t, env)) && InstallTrace(t, env).wasFlushed
  {
    hide Core, Scanner, InstallLinks, Commit, Installed;
    var a := Off(t);
    CoreOff(t);
    var b := InstallLinks(a, env, LinksOf(t, t.active.sourceBb), HeadSource(t));
    InstallLinksFollow(a, env, LinksOf(t, t.active.sourceBb), HeadSource(t));
    DeadFollows(a, b);
    NothingInstalled(b, 0, b.traceId);
  }

  lemma DeadFollows(t: Thread, r: Thread)
    requires Follows(t, r) && t.wasFlushed && t.traceId == CODE_CACHE_SIZE
    ensures r.wasFlushed && r.traceId == CODE_CACHE_SIZE
  {
  }

  lemma FinishStands(t: Thread, env: Env, target: nat, addr: Loc)
    requires Core(t) && Scanner(env) && Standing(t)
    ensures Standing(Finish(t, env, target, addr).0)
  {
    hide Core, Scanner, Standing, LookupOrScan, Calm;
    if t.wasFlushed {
      LookupCalm(t, env, target);
      CalmStands(t, LookupOrScan(t, env, target).0);
    }
  }

  /** The installed traces seen from a trace about to be installed, its closing jump just written. */
  lemma ClosedStands(t: Thread, target: nat, writeP: nat, addr: Loc)
    requires Standing(t) && t.traceNext <= writeP && t.traceId <= t.active.id
    ensures Installed(Closed(t, writeP, addr, target), writeP, t.active.id)
  {
    var r := Closed(t, writeP, addr, target);
    WrittenBeyond(t, writeP, Jump(addr, target));
    hide Installed, At, JumpSize, Written, WordSize, Apart;
    forall s, l | At(t, t.traceId, s, l) ensures At(r, t.active.id, s, l) { AtSame(t, r, t.traceId, t.active.id, s, l); }
    InstalledCarried(t, 0, t.traceId, r, writeP, t.active.id);
  }

  lemma EarlyStands(t: Thread, env: Env, target: nat, writeP: nat, addr: Loc)
    requires Core(t) && Scanner(env) && Closable(t, target, writeP, addr) && Standing(t)
    requires Dead(t) ==> t.traceId == CODE_CACHE_SIZE
    ensures PointReady(Before(Closed(t, writeP, addr, target)))
    ensures PointHarmless(Before(Closed(t, writeP, addr, target)), env)
            ==> Standing(Finish(EarlyTraceExit(t, env, writeP, addr, target), env, target, addr).0)
  {
    hide Core, Cache, CanClose, Installable, At, Open, Finished, Scanner, InstallTrace, CacheTo, Finish, InstallHarmless, Standing,
         LastDone, Chained, Installed, Closed;
    var c := Closed(t, writeP, addr, target);
    ClosableCases(t, target, writeP, addr);
    EarlyReady(t, writeP, addr, target);
    IdsOrdered(t);
    EarlyIsInstalled(t, env, writeP, addr, target);
    if Dead(t) {
      DeadStands(c, env);
    } else {
      JumpFinishes(t, target, writeP, addr);
      ClosedStands(t, target, writeP, addr);
      InstallLive(c);
      if InstallHarmless(c, env) { InstallKeepsStanding(c, env); }
    }
    InstalledCore(c, env);
    if Standing(InstallTrace(c, env)) { FinishStands(InstallTrace(c, env), env, target, addr); }
  }

  lemma EarlyIsInstalled(t: Thread, env: Env, writeP: nat, addr: Loc, spc: nat)
    ensures var c := Closed(t, writeP, addr, spc);
            && EarlyTraceExit(t, env, writeP, addr, spc) == InstallTrace(c, env) && c.traceId == t.traceId && c.active.id == t.active.id
            && c.wasFlushed == t.wasFlushed
  {
    hide InstallTrace, Written, JumpSize;
  }

  lemma InstalledCore(t: Thread, env: Env)
    requires Core(t) && Scanner(env) && t.active.on && (Installable(t) || Dead(t))
    ensures Core(InstallTrace(t, env))
  {
    hide Core, Scanner, Installable, Dead, InstallTrace;
    InstallSafe(t, env);
    CoreOf(InstallTrace(t, env));
  }

  /** A lookup before the closing jump. */
  lemma CloseStands(t: Thread, env: Env, target: nat, writeP: nat)
    requires Core(t) && Scanner(env) && Cache(t) && CanClose(t, writeP) && Open(t, target, writeP) && Standing(t)
    ensures PointReady(Before(ClosePoint(t, env, target, writeP)))
    ensures PointHarmless(Before(ClosePoint(t, env, target, writeP)), env) ==> Standing(CloseTrace(t, env, target, writeP).0)
  {
    hide Core, Cache, CanClose, Open, Scanner, ActiveLookupOrScan, EarlyTraceExit, Finish, Closable, Dead, PointHarmless, PointReady, Closed,
         Standing, Calm;
    CloseLookup(t, env, target, writeP);
    LookupCalm(t, env, target);
    var (r, addr) := ActiveLookupOrScan(t, env, target);
    CalmStands(t, r);
    DeadWiped(t, env, target);
    EarlyStands(r, env, target, writeP, addr);
  }

  lemma DeadWiped(t: Thread, env: Env, target: nat)
    requires Core(t) && Scanner(env)
    ensures var r := ActiveLookupOrScan(t, env, target).0; r.gen > t.gen ==> r.traceId == CODE_CACHE_SIZE
  {
    hide Core, Scanner, ActiveLookupOrScan;
    ActiveLookupFollows(t, env, target);
    if ActiveLookupOrScan(t, env, target).0.gen > t.gen { GenWiped(t, ActiveLookupOrScan(t, env, target).0); }
  }

  lemma GenWiped(t: Thread, r: Thread)
    requires Follows(t, r) && r.gen > t.gen
    ensures r.traceId == CODE_CACHE_SIZE
  {
  }

  lemma RecordedStands(t: Thread, from: Loc, to: Loc)
    requires Standing(t)
    ensures Standing(RecordLink(t, from, to))
  {
    hide Standing, Calm, AddLink;
    CalmFields(t, RecordLink(t, from, to));
    CalmStands(t, RecordLink(t, from, to));
  }

  lemma RecordedDead(t: Thread, from: Loc, to: Loc)
    ensures var r := RecordLink(t, from, to); Dead(r) == Dead(t) && r.traceId == t.traceId
  {
    hide AddLink;
  }

  lemma CloseLinkedStands(t: Thread, env: Env, target: nat, writeP: nat)
    requires Core(t) && Scanner(env) && Cache(t) && CanClose(t, writeP) && Open(t, target, writeP) && Standing(t)
    ensures PointReady(Before(CloseLinkedPoint(t, env, target, writeP)))
    ensures PointHarmless(Before(CloseLinkedPoint(t, env, target, writeP)), env)
            ==> Standing(CloseTraceLinked(t, env, target, writeP).0)
  {
    hide Core, Cache, CanClose, Open, Scanner, ActiveLookupOrScan, EarlyTraceExit, Finish, Closable, Dead, PointHarmless, PointReady, Closed,
         Standing, Calm, ActiveLookup, RecordLink;
    InTraces(t, writeP);
    match ActiveLookup(t, target) {
      case Found(l) =>
        CloseFound(t, target, writeP);
        NotDead(t);
        EarlyStands(t, env, target, writeP, l);
      case Missing =>
        CloseLookup(t, env, target, writeP);
        LookupCalm(t, env, target);
        DeadWiped(t, env, target);
        var (r, l) := ActiveLookupOrScan(t, env, target);
        CalmStands(t, r);
        ClosableRecorded(r, target, writeP, l, t.gen);
        RecordedStands(r, Loc(writeP, t.gen), l);
        RecordedDead(r, Loc(writeP, t.gen), l);
        EarlyStands(RecordLink(r, Loc(writeP, t.gen), l), env, target, writeP, l);
    }
  }

  lemma NotDead(t: Thread)
    requires !t.wasFlushed
    ensures !Dead(t)
  {
  }

  /** A trace that ends in an indirect exit, installed without a closing jump. */
  lemma IndirectStands(e: Thread, env: Env, target: nat, writeP: nat)
    requires Core(e) && Installable(e) && Scanner(env) && Finished(e) && Pending(e) == 0 && LastDone(e) && Chained(e)
             && Standing(e)
    ensures ReadyToInstall(e)
    ensures var s := InstallTrace(e, env);
            InstallHarmless(e, env) ==> Standing(if s.wasFlushed then LookupOrScan(s, env, target).0 else Returning(s, s.active.writeP, writeP))
  {
    hide Core, Finished, Scanner, InstallTrace, LookupOrScan, Installable, InstallHarmless, Standing, LastDone, Chained, Calm,
         Written, Installed, Committed;
    IdsOrdered(e);
    Widened(e);
    InstallLive(e);
    InstalledCore(e, env);
    InstallSafe(e, env);
    var s := InstallTrace(e, env);
    LookupCalm(s, env, target);
    if InstallHarmless(e, env) {
      InstallKeepsStanding(e, env);
      if s.wasFlushed {
        CalmStands(s, LookupOrScan(s, env, target).0);
      } else {
        CommittedEnd(e, s);
        WrittenCalm(s, s.active.writeP, Bounce(writeP));
        CalmStands(s, Returning(s, s.active.writeP, writeP));
      }
    }
  }

  lemma CommittedEnd(t: Thread, r: Thread)
    requires Committed(t, r) && !r.wasFlushed
    ensures r.traceNext == r.active.writeP
  {
  }

  lemma Widened(t: Thread)
    requires Standing(t) && t.traceId <= t.active.id
    ensures Installed(t, 0, t.active.id)
  {
    hide Installed, At;
    forall s, l | At(t, t.traceId, s, l) ensures At(t, t.active.id, s, l) { PublishedAt(t, s, l); }
    InstalledCarried(t, 0, t.traceId, t, 0, t.active.id);
  }

  lemma ExtendStands(t: Thread, env: Env, target: nat, writeP: nat)
    requires Core(t) && Scanner(env) && Resumed(t, writeP) && t.fragCount <= MAX_TRACE_FRAGMENTS && Cache(t)
             && Open(t, target, writeP) && Standing(t)
    ensures PointReady(ExtendPoint(t, env, target, writeP))
    ensures PointHarmless(ExtendPoint(t, env, target, writeP), env) ==> Standing(ExtendTrace(t, env, target, writeP).0)
  {
    hide Core, Resumed, Appended, Inv, Installable, CanClose, WellShaped, Cache, Open, Meaning, Finished, Longer, FragAt, Calm,
         Standing, LastDone, Chained;
    hide ScanTrace, InstallTrace, LookupOrScan, CloseTraceLinked, CloseTrace, StubsFit, InstallHarmless, ClosePoint,
         CloseLinkedPoint, Written, ReadyToInstall;
    ScanReady(t, writeP);
    OpenBehind(t, target, writeP);
    IdsOrdered(t);
    ScanTraceSafe(t, env, target, 0);
    ScanMeans(t, env, target, 0);
    ScanCalm(t, env, target, 0);
    var (r, len, id) := ScanTrace(t, env, target, 0);
    CalmStands(t, r);
    if r.wasFlushed {
      CoreOf(r);
      LookupCalm(r, env, target);
      CalmStands(r, LookupOrScan(r, env, target).0);
    } else {
      AppendedFacts(t, r, id);
      AppendedCore(t, r, id);
      UndoAppend(t, r, id, writeP);
      UndoMeans(t, r, target, writeP);
      var u := r.(active := t.active);
      CacheMoved(r, u);
      MovedStands(r, u);
      if len == 0 {
        CloseLinkedStands(u, env, target, writeP);
      } else {
        var e := r.(active := r.active.(writeP := writeP + 2 * len));
        MovedStands(r, e);
        LongerMeans(t, r, target, writeP);
        LongerFacts(t, r, target, writeP);
        if !StubsFit(e.active.exits, e.active.writeP) {
          CloseStands(u, env, target, writeP);
        } else if r.frags[id].exit.kind == Jalr {
          InstallAppended(t, r, id, writeP);
          IndirectFinished(r, writeP + 2 * len);
          NotFlushedYet(e);
          IndirectStands(e, env, target, writeP);
        } else {
          WrittenCalm(e, e.active.writeP, Bounce(writeP));
          CalmStands(e, Returning(e, e.active.writeP, writeP));
        }
      }
    }
  }

  lemma MovedStands(t: Thread, r: Thread)
    requires Standing(t) && r == t.(active := r.active)
    ensures Standing(r)
  {
    hide Standing, Calm;
    CalmFields(t, r);
    CalmStands(t, r);
  }

  lemma NotFlushedYet(t: Thread)
    requires Installable(t)
    ensures !t.wasFlushed
  {
  }

  lemma DecideStands(r: Thread, env: Env, target: nat, writeP: nat)
    requires Scanner(env) && Core(r) && Cache(r) && Standing(r)
    requires !r.wasFlushed ==> Resumed(r, writeP) && Open(r, target, writeP)
    ensures PointReady(DecidePoint(r, env, target, writeP))
    ensures PointHarmless(DecidePoint(r, env, target, writeP), env) ==> Standing(Decide(r, env, target, writeP).0)
  {
    hide Core, Resumed, CanClose, Cache, Open, LookupOrScan, CloseTraceLinked, ExtendTrace, EarlyTraceExit, Scanner,
         Standing, Calm;
    hide Finish, ActiveLookup, InstallHarmless, ReadyToInstall, ExtendPoint, CloseLinkedPoint, Closable, Closed, Dead;
    if r.wasFlushed {
      LookupCalm(r, env, target);
      CalmStands(r, LookupOrScan(r, env, target).0);
    } else {
      ResumedClose(r, writeP);
      if r.fragCount > MAX_TRACE_FRAGMENTS {
        CloseLinkedStands(r, env, target, writeP);
      } else if ActiveLookup(r, target).Found? {
        CloseFound(r, target, writeP);
        NotDead(r);
        EarlyStands(r, env, target, writeP, ActiveLookup(r, target).loc);
      } else {
        ExtendStands(r, env, target, writeP);
      }
    }
  }

  lemma TakeExitStands(t: Thread, env: Env, target: nat, src: nat)
    requires Core(t) && Scanner(env) && Standing(t) && src in t.frags
    ensures Standing(TakeExit(t, env, target, src))
  {
    hide Core, Scanner, LookupOrScan, ActiveLookup, Standing, Calm;
    var m, a := t.frags[src], t.(wasFlushed := false);
    ClearFlagCore(t);
    LookupCalm(a, env, m.exit.taken);
    LookupCalm(a, env, m.exit.skipped);
    var r := TakeExit(t, env, target, src);
    var b := if m.exit.kind == Branch then
               var spc := if m.exit.taken == target then m.exit.skipped else m.exit.taken;
               if ActiveLookup(a, spc).Found? then a else LookupOrScan(a, env, spc).0
             else a;
    CalmFields(t, a);
    CalmSelf(a);
    CalmTrans(t, a, b);
    CalmFields(b, r);
    CalmTrans(t, b, r);
    CalmStands(t, r);
  }

  lemma TraceStands(t: Thread, env: Env, target: nat)
    requires Sound(t) && Scanner(env) && LiveActive(t) && Standing(t)
    requires DirectExit(LastFrag(t).exit.kind) && IsSuccessor(LastFrag(t).exit, target)
    ensures var p := DecidePoint(TakeExit(t, env, target, t.active.id - 1), env, target, ResumeAt(LastFrag(t)));
            PointReady(p) && (PointHarmless(p, env) ==> Standing(TraceDispatcher(t, env, target, t.active.id - 1).0))
  {
    hide Core, Inv, Resumed, Cache, Open, TakeExit, StubsFit, TraceDispatcher, Decide, DecidePoint, LiveActive, Meaning,
         PointHarmless, PointReady, Standing;
    LastBehind(t);
    AtOpenExit(t);
    CoreOf(t);
    TakeExitSafe(t, env, target);
    FirstGuardHolds(t, env, target);
    TakeExitMeans(t, env, target);
    TakeExitStands(t, env, target, t.active.id - 1);
    DispatcherDecides(t, env, target, t.active.id - 1);
    DecideStands(TakeExit(t, env, target, t.active.id - 1), env, target, ResumeAt(LastFrag(t)));
  }

  lemma LookupStands(t: Thread, env: Env, target: nat)
    requires Core(t) && Scanner(env) && Standing(t)
    ensures Standing(LookupOrScan(t, env, target).0)
  {
    hide Core, Scanner, Standing, LookupOrScan, Calm;
    LookupCalm(t, env, target);
    CalmStands(t, LookupOrScan(t, env, target).0);
  }

  lemma CreateStands(t: Thread, env: Env, bb: nat)
    requires Sound(t) && Scanner(env) && bb in t.bbs && t.bbs[bb].gen == t.gen && Standing(t)
    ensures Standing(CreateTrace(t, env, bb).0)
  {
    hide Core, Inv, Cache, Standing, LookupOrScan, ScanTrace, AlignUp, Meaning, LiveActive, Flush, Calm, Appended;
    var spc, next := t.bbs[bb].source, AlignUp(t.traceNext);
    var a := t.(fragCount := 0, traceNext := next);
    AlignUpEven(t.traceNext);
    FurtherStands(t, next);
    if TraceCacheFull(a) {
      FlushedInv(t, next);
      CoreOf(Flush(a));
      FlushCalm(a, a);
      CalmStands(a, Flush(a));
      LookupStands(Flush(a), env, spc);
    } else {
      NewTraceCore(t, bb);
      CoreOf(t);
      IdsOrdered(t);
      var n := NewTrace(t, bb);
      CalmFields(a, n);
      CalmStands(a, n);
      ScanTraceSafe(n, env, spc, RESTORE_CONTEXT);
      ScanCalm(n, env, spc, RESTORE_CONTEXT);
      var (r, len, id) := ScanTrace(n, env, spc, RESTORE_CONTEXT);
      CalmStands(n, r);
      if r.wasFlushed {
        CoreOf(r);
        LookupStands(r, env, spc);
      }
    }
  }

  lemma FurtherStands(t: Thread, next: nat)
    requires Standing(t) && t.traceNext <= next
    ensures Standing(t.(fragCount := 0, traceNext := next))
  {
    hide Standing, WordSize;
    CalmStands(t, t.(fragCount := 0, traceNext := next));
  }

  lemma FlagStands(t: Thread)
    requires Standing(t)
    ensures Standing(t.(wasFlushed := false))
  {
    hide Standing, Calm;
    CalmFields(t, t.(wasFlushed := false));
    CalmStands(t, t.(wasFlushed := false));
  }

  lemma LinkedStands(t: Thread, src: nat, l: Loc, ps: seq<Patch>)
    requires Inv(t) && Standing(t) && src in t.bbs
    ensures Standing(RecordPatches(LinkExit(t, src, l), ps))
  {
    hide Standing, Calm, LinkExit, RecordPatches, Inv;
    var a := LinkExit(t, src, l);
    LinkExitShape(t, src, l);
    LinkExitInv(t, src, l);
    RecordPatchesInv(a, ps);
    CalmFields(t, RecordPatches(a, ps));
    CalmStands(t, RecordPatches(a, ps));
  }

  lemma DispatcherStands(t: Thread, env: Env, target: nat, src: nat)
    requires Inv(t) && Scanner(env) && (src != 0 ==> src in t.bbs) && Standing(t)
    ensures Standing(Dispatcher(t, env, target, src).0)
  {
    hide Core, Inv, Standing, LookupOrScan, LinkExit, RecordPatches, Patches, Scanner;
    var a := t.(wasFlushed := false);
    ClearFlag(t);
    CoreOf(a);
    FlagStands(t);
    LookupStands(a, env, target);
    LookupDone(a, env, target);
    var (r, l) := LookupOrScan(a, env, target);
    if src in r.bbs { LinkedStands(r, src, l, Patches(r, src, l)); }
  }

  lemma IndirectCalled(t: Thread, env: Env, target: nat, src: nat)
    requires src in t.frags && t.frags[src].exit.kind == Jalr && Core(t) && Scanner(env) && Standing(t)
    ensures Standing(TraceDispatcher(t, env, target, src).0)
  {
    hide Core, Scanner, Standing, LookupOrScan, TakeExit;
    ClearFlagCore(t);
    FlagStands(t);
    LookupStands(t.(wasFlushed := false), env, target);
  }

  /**
   One call, whatever has happened before: its installation harms nothing if and only if the guard holds in every
   iteration, and then installed traces are right after the call.
   */
  lemma ApplyStandsIff(t: Thread, e: Event)
    requires Sound(t) && FromGuest(t, e) && Standing(t)
    ensures PointStands(InstallPoint(t, e), e.env) <==> PointHarmless(InstallPoint(t, e), e.env)
    ensures PointHarmless(InstallPoint(t, e), e.env) ==> Standing(Apply(t, e).0)
  {
    hide Sound, PointStands, PointHarmless, PointReady, Standing, Apply, InstallPoint, Scanner;
    ApplyReady(t, e);
    PointStandsIff(InstallPoint(t, e), e.env);
  }

  lemma ApplyReady(t: Thread, e: Event)
    requires Sound(t) && FromGuest(t, e) && Standing(t)
    ensures PointReady(InstallPoint(t, e)) && Scanner(e.env)
    ensures PointHarmless(InstallPoint(t, e), e.env) ==> Standing(Apply(t, e).0)
  {
    hide Sound, Inv, CreateTrace, TraceDispatcher, Dispatcher, LiveActive, LookupOrScan, DecidePoint, InstallHarmless,
         ReadyToInstall, TakeExit, Standing;
    CoreOfSound(t);
    match e {
      case Create(env, bb) => CreateStands(t, env, bb);
      case Trace(env, target, src) =>
        if t.frags[src].exit.kind == Jalr { IndirectCalled(t, env, target, src); } else { TraceStands(t, env, target); }
      case Dispatch(env, target, src) =>
        SoundInv(t);
        DispatcherStands(t, env, target, src);
    }
  }

  lemma SoundInv(t: Thread)
    requires Sound(t)
    ensures Inv(t)
  {
  }

  // ---------- Runs ----------

  /** No installation of the run writes a jump over anything that is needed. */
  ghost predicate HarmlessRun(t: Thread, events: seq<Event>)
    requires ValidRun(t, events)
    decreases |events|
  {
    events == [] || (PointHarmless(InstallPoint(t, events[0]), events[0].env) && HarmlessRun(Apply(t, events[0]).0, events[1..]))
  }

  /** In no installation of the run anything is harmed. */
  ghost predicate StandingRun(t: Thread, events: seq<Event>)
    requires ValidRun(t, events)
    decreases |events|
  {
    events == [] || (PointStands(InstallPoint(t, events[0]), events[0].env) && StandingRun(Apply(t, events[0]).0, events[1..]))
  }

  lemma {:induction false} RunStandsIff(t: Thread, events: seq<Event>)
    requires Sound(t) && Standing(t) && ValidRun(t, events) && GuestRun(t, events)
    ensures StandingRun(t, events) <==> HarmlessRun(t, events)
    ensures HarmlessRun(t, events) ==> Standing(After(t, events))
    decreases |events|
  {
    hide Sound, FromGuest, Apply, Enabled, InstallPoint, PointHarmless, PointStands, Standing;
    if events != [] {
      ApplyStandsIff(t, events[0]);
      StepTranslates(t, events[0]);
      TranslatedSound(t, events[0]);
      if PointHarmless(InstallPoint(t, events[0]), events[0].env) { RunStandsIff(Apply(t, events[0]).0, events[1..]); }
    }
  }

  /**
   Every run from initialisation: its installations harm neither the installed traces nor the one being installed if and
   only if none of them writes a jump over anything needed; and then all installed traces leave each of their fragments
   for where the guest goes, and no fragment is overwritten, whatever links have gone stale.
   */
  lemma EveryRunStandsIff(first: nat, events: seq<Event>)
    requires 0 < first < CODE_CACHE_SIZE - CODE_CACHE_OVERP && ValidRun(Initial(first), events)
             && GuestRun(Initial(first), events)
    ensures StandingRun(Initial(first), events) <==> HarmlessRun(Initial(first), events)
    ensures var t := After(Initial(first), events); HarmlessRun(Initial(first), events) ==> Installed(t, 0, t.traceId)
  {
    InitialSound(first);
    NothingInstalled(Initial(first), 0, CODE_CACHE_SIZE);
    RunStandsIff(Initial(first), events);
  }
}
