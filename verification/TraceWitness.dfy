/**
 Runs of a small guest program that fill the code cache and reach what the guard of `TracePatches` excludes: an exit stub
 overwritten by a longer jump, links recorded from discarded code, and an assertion that such a link makes fail.
 */
module TraceWitness {
  import opened CacheLayout
  import opened TraceModel
  import opened TraceSafety
  import opened TraceRuns
  import opened TraceCode
  import opened TraceMeaning
  import opened TracePatches
  import opened TraceTranslation
  import opened TraceStanding

  // ---------- The guest program ----------

  const FIRST: nat := 8
  const LOOPS: nat := 1000
  const LONG_BLOCK: nat := CODE_CACHE_OVERP + 1
  const LONG_TRACE: nat := 120000

  /** A few blocks with other successors; every other block is a loop that jumps to itself. */
  function ExitOf(spc: nat): ExitInfo {
    match spc
    case 10 => ExitInfo(Branch, 20, 30)
    case 40 => ExitInfo(Jal, 50, 50)
    case 60 => ExitInfo(Branch, 70, 80)
    case 90 => ExitInfo(Branch, 92, 94)
    case _ => ExitInfo(Jal, spc, spc)
  }

  /** From `LOOPS` on the loops are as long as a block fragment can be. */
  function BlockOf(spc: nat): BbScan {
    BbScan(if spc >= LOOPS then CODE_CACHE_OVERP else 0, ExitOf(spc))
  }

  function FragmentOf(spc: nat): TraceScan {
    if spc >= LOOPS then TraceScan(60010, 119990, ExitOf(spc), false) else TraceScan(107, 190, ExitOf(spc), false)
  }

  function Guest(): Env {
    Env((spc: nat) => BlockOf(spc), (spc: nat) => FragmentOf(spc), false)
  }

  lemma GuestScans()
    ensures Scanner(Guest())
    ensures forall spc: nat :: Guest().bb(spc) == BlockOf(spc) && Guest().trace(spc) == FragmentOf(spc)
  {
  }

  // ---------- Runs, piece by piece ----------

  /** A run of the guest from `t` to `r`. */
  ghost predicate Leads(t: Thread, events: seq<Event>, r: Thread) {
    ValidRun(t, events) && GuestRun(t, events) && After(t, events) == r
  }

  lemma LeadsNowhere(t: Thread)
    ensures Leads(t, [], t)
  {
  }

  lemma LeadsOn(t: Thread, e: Event)
    requires FromGuest(t, e)
    ensures Leads(t, [e], Apply(t, e).0)
  {
    hide Apply, Enabled;
    var r := Apply(t, e).0;
    assert [e][1..] == [];
    assert ValidRun(r, []) && After(r, []) == r && GuestRun(r, []);
  }

  lemma {:induction false} LeadsTo(t: Thread, a: seq<Event>, r: Thread, b: seq<Event>, s: Thread)
    requires Leads(t, a, r) && Leads(r, b, s)
    ensures Leads(t, a + b, s)
    decreases |a|
  {
    hide Apply, Enabled, FromGuest;
    if a == [] {
      assert a + b == b;
    } else {
      LeadsTo(Apply(t, a[0]).0, a[1..], r, b, s);
      assert (a + b)[0] == a[0] && (a + b)[1..] == a[1..] + b;
    }
  }

  lemma LeadsTwo(t: Thread, e: Event, f: Event)
    requires FromGuest(t, e) && FromGuest(Apply(t, e).0, f)
    ensures Leads(t, [e, f], Apply(Apply(t, e).0, f).0)
  {
    hide Leads, Apply, Enabled;
    var r := Apply(t, e).0;
    LeadsOn(t, e);
    LeadsOn(r, f);
    LeadsTo(t, [e], r, [f], Apply(r, f).0);
    assert [e] + [f] == [e, f];
  }

  // ---------- Filling the cache ----------

  /** `n` long loops, from number `i` on, reached one after the other. */
  function FillRun(i: nat, n: nat): seq<Event> {
    if n == 0 then [] else FillRun(i, n - 1) + [Dispatch(Guest(), LOOPS + i + n - 1, 0)]
  }

  /** The state afterwards. */
  ghost predicate Filled(t: Thread, i: nat, n: nat, r: Thread) {
    && r == t.(freeBlock := t.freeBlock + LONG_BLOCK * n, entry := r.entry, bbs := r.bbs, actual := r.actual, linked := r.linked)
    && (forall spc | spc < LOOPS + i || spc >= LOOPS + i + n ::
          (spc in r.entry <==> spc in t.entry) && (spc in t.entry ==> r.entry[spc] == t.entry[spc]))
    && (forall id | id < t.freeBlock :: (id in r.bbs <==> id in t.bbs) && (id in t.bbs ==> r.bbs[id] == t.bbs[id]))
    && (forall k | 0 <= k < n ::
          t.freeBlock + LONG_BLOCK * k in r.bbs && r.bbs[t.freeBlock + LONG_BLOCK * k] == LongBlock(i + k, t.gen))
    && (forall b | b < t.freeBlock :: b in r.actual <==> b in t.actual)
  }

  function LongBlock(k: nat, gen: nat): BbMeta {
    BbMeta(LOOPS + k, ExitOf(LOOPS + k), gen, LONG_BLOCK)
  }

  /** A block of the guest is scanned without a flush. */
  lemma Scanned(t: Thread, spc: nat)
    requires !t.wasFlushed && t.freeBlock < RESERVED && spc !in t.entry
    ensures FromGuest(t, Dispatch(Guest(), spc, 0)) && Apply(t, Dispatch(Guest(), spc, 0)).0 == Place(t, Guest(), spc).0
  {
    hide MarkOverflow, Place, ExitOf, Scanner;
    GuestScans();
    assert t.(wasFlushed := false) == t;
  }

  lemma LongPlaced(t: Thread, i: nat)
    requires !t.wasFlushed && t.freeBlock < RESERVED
    ensures Filled(t, i, 1, Place(t, Guest(), LOOPS + i).0)
  {
    GuestScans();
    hide MarkOverflow, ExitOf, Scanner;
    forall b: nat ensures b in MarkOverflow(t.actual, t.freeBlock, CODE_CACHE_OVERP)
                          <==> b in t.actual || t.freeBlock < b <= t.freeBlock + CODE_CACHE_OVERP {
      MarkedOverflow(t.actual, t.freeBlock, CODE_CACHE_OVERP, b);
    }
  }

  lemma FilledMore(t: Thread, i: nat, n: nat, r: Thread, s: Thread)
    requires Filled(t, i, n, r) && Filled(r, i + n, 1, s)
    ensures Filled(t, i, n + 1, s)
  {
    hide LongBlock;
    FilledBlocks(t, i, n, r, s);
  }

  lemma FilledBlocks(t: Thread, i: nat, n: nat, r: Thread, s: Thread)
    requires Filled(t, i, n, r) && Filled(r, i + n, 1, s)
    ensures forall k | 0 <= k < n + 1 ::
              t.freeBlock + LONG_BLOCK * k in s.bbs && s.bbs[t.freeBlock + LONG_BLOCK * k] == LongBlock(i + k, t.gen)
  {
    hide LongBlock;
    forall k | 0 <= k < n + 1
      ensures t.freeBlock + LONG_BLOCK * k in s.bbs && s.bbs[t.freeBlock + LONG_BLOCK * k] == LongBlock(i + k, t.gen)
    {
      if k < n {
        assert t.freeBlock + LONG_BLOCK * k < r.freeBlock && r.bbs[t.freeBlock + LONG_BLOCK * k] == LongBlock(i + k, t.gen);
      } else {
        assert s.bbs[r.freeBlock + LONG_BLOCK * 0] == LongBlock(i + n + 0, r.gen);
      }
    }
  }

  lemma FilledSelf(t: Thread, i: nat)
    ensures Filled(t, i, 0, t)
  {
    hide LongBlock;
  }

  lemma FilledRoom(t: Thread, i: nat, n: nat, a: Thread)
    requires Filled(t, i, n, a)
    ensures a.wasFlushed == t.wasFlushed && a.freeBlock == t.freeBlock + LONG_BLOCK * n
    ensures LOOPS + i + n !in t.entry ==> LOOPS + i + n !in a.entry
  {
    hide LongBlock;
  }

  lemma {:induction false} Fill(t: Thread, i: nat, n: nat) returns (r: Thread)
    requires !t.wasFlushed && (n > 0 ==> t.freeBlock + LONG_BLOCK * (n - 1) < RESERVED)
    requires forall spc | LOOPS + i <= spc < LOOPS + i + n :: spc !in t.entry
    ensures Leads(t, FillRun(i, n), r) && Filled(t, i, n, r)
    decreases n
  {
    hide Leads, Apply, FromGuest, Place, Filled;
    if n == 0 {
      r := t;
      LeadsNowhere(t);
      FilledSelf(t, i);
    } else {
      var spc := LOOPS + i + n - 1;
      var a := Fill(t, i, n - 1);
      FilledRoom(t, i, n - 1, a);
      Scanned(a, spc);
      LeadsOn(a, Dispatch(Guest(), spc, 0));
      r := Place(a, Guest(), spc).0;
      LongPlaced(a, i + n - 1);
      FilledMore(t, i, n - 1, a, r);
      LeadsTo(t, FillRun(i, n - 1), a, [Dispatch(Guest(), spc, 0)], r);
    }
  }

  // ---------- Traces ----------

  /** The first fragment of a trace for block `bb`. */
  function FirstFrag(t: Thread, spc: nat): FragMeta {
    var next, s := AlignUp(t.traceNext), FragmentOf(spc);
    FragMeta(spc, next, s.exit, next + RESTORE_CONTEXT + s.exitOffset, next + RESTORE_CONTEXT + 2 * s.halfwords, t.gen)
  }

  /** The state after `create_trace`. */
  function Started(t: Thread, bb: nat): Thread
    requires bb in t.bbs
  {
    var m := FirstFrag(t, t.bbs[bb].source);
    t.(fragCount := 1, traceNext := m.tpc, wasFlushed := false, frags := t.frags[t.traceId := m],
       active := Active(true, t.traceId + 1, bb, m.tpc, Loc(m.tpc, t.gen), []), code := Erased(t.code, m.tpc, m.end))
  }

  /** A trace can be started at `bb`. */
  predicate HotBlock(t: Thread, bb: nat) {
    && bb in t.bbs && t.bbs[bb].gen == t.gen && DirectExit(t.bbs[bb].exit.kind) && t.ok
    && AlignUp(t.traceNext) < CACHE_END - TRACE_LIMIT_OFFSET && t.traceId < CODE_CACHE_SIZE + TRACE_FRAGMENT_NO - TRACE_FRAGMENT_OVERP
  }

  lemma Start(t: Thread, bb: nat)
    requires HotBlock(t, bb)
    ensures FromGuest(t, Create(Guest(), bb)) && Apply(t, Create(Guest(), bb)).0 == Started(t, bb)
  {
    GuestScans();
    hide AlignUp, Erased, ExitOf, Scanner, LookupOrScan, Flush;
    var spc := t.bbs[bb].source;
    assert !TooLong(0, 0);
  }

  /** The trace in progress jumps back to its own start: what `install_trace` finds. */
  function Ended(s: Thread): Thread
    requires s.active.id > 0 && s.active.id - 1 in s.frags
  {
    var m := LastFrag(s);
    Closed(s, m.exitAddr, s.active.entry, m.source)
  }

  /** A self-loop as the first fragment: at its exit the trace is closed. */
  lemma End(t: Thread, bb: nat)
    requires HotBlock(t, bb) && ExitOf(t.bbs[bb].source) == ExitInfo(Jal, t.bbs[bb].source, t.bbs[bb].source)
    ensures var s, spc := Started(t, bb), t.bbs[bb].source;
            && FromGuest(s, Trace(Guest(), spc, t.traceId))
            && Apply(s, Trace(Guest(), spc, t.traceId)).0 == Finish(InstallTrace(Ended(s), Guest()), Guest(), spc, s.active.entry).0
  {
    GuestScans();
    hide AlignUp, Erased, Written, ExitOf, Scanner, LookupOrScan, InstallTrace, JumpSize, BranchReach;
    var s, spc := Started(t, bb), t.bbs[bb].source;
    assert s.frags[t.traceId] == FirstFrag(t, spc);
  }

  // ---------- Installation ----------

  /** The trace in progress published, with no exits recorded. */
  function Published(e: Thread, spc: nat): Thread {
    e.(entry := e.entry[spc := e.active.entry], traceId := e.active.id, traceNext := e.active.writeP)
  }

  lemma InstallUnlinked(e: Thread, env: Env, spc: nat)
    requires e.active.on && !e.wasFlushed && LinksOf(e, e.active.sourceBb) == []
    requires e.active.sourceBb in e.bbs && e.bbs[e.active.sourceBb].source == spc
    ensures InstallTrace(e, env) == Commit(e.(active := e.active.(on := false)), spc)
  {
    hide Commit, InstallLink;
  }

  lemma InstallAlone(e: Thread, env: Env, spc: nat)
    requires e.active.on && e.active.exits == [] && !e.wasFlushed && LinksOf(e, e.active.sourceBb) == []
    requires e.active.sourceBb in e.bbs && e.bbs[e.active.sourceBb].source == spc
    ensures InstallTrace(e, env) == Published(e.(active := e.active.(on := false)), spc)
  {
    hide Commit, InstallTrace;
    InstallUnlinked(e, env, spc);
    CommitNoExits(e.(active := e.active.(on := false)), spc);
  }

  lemma InstallOne(e: Thread, env: Env, spc: nat, link: Loc)
    requires e.active.on && e.active.exits == [] && LinksOf(e, e.active.sourceBb) == [link]
    requires e.active.sourceBb in e.bbs && e.bbs[e.active.sourceBb].source == spc
    ensures var r := InstallLink(e.(active := e.active.(on := false)), env, link, spc);
            InstallTrace(e, env) == if r.wasFlushed then r else Commit(r, spc)
  {
    hide InstallLink, Commit;
    var a := e.(active := e.active.(on := false));
    var r := InstallLink(a, env, link, spc);
    assert [link][1..] == [];
    assert InstallLinks(r, env, [], spc) == r;
  }

  lemma CommitNoExits(r: Thread, spc: nat)
    requires r.active.exits == []
    ensures Commit(r, spc) == Published(r, spc)
  {
  }

  // ---------- An exit stub overwritten ----------

  /** The loops up to number `n` become traces of their own, one behind the other. */
  function LoopRun(n: nat): seq<Event> {
    if n == 0 then []
    else LoopRun(n - 1) + [Create(Guest(), LoopId(n - 1)), Trace(Guest(), LOOPS + n - 1, CODE_CACHE_SIZE + n)]
  }

  function LoopId(k: nat): nat {
    FIRST + LONG_BLOCK * k
  }

  /** What the traces of `n` loops leave behind: what has been written before is still there. */
  ghost predicate Looped(t: Thread, n: nat, r: Thread) {
    && r == t.(wasFlushed := false, traceNext := t.traceNext + LONG_TRACE * n, traceId := t.traceId + n,
               fragCount := r.fragCount, active := r.active, entry := r.entry, frags := r.frags, code := r.code)
    && (forall f | f in t.frags && f < t.traceId :: f in r.frags && r.frags[f] == t.frags[f])
    && (forall a | a in t.code && a + WordSize(a, t.code[a]) <= t.traceNext :: a in r.code && r.code[a] == t.code[a])
  }

  /** One loop. */
  lemma LoopOnce(t: Thread, k: nat) returns (r: Thread)
    requires HotBlock(t, LoopId(k)) && t.bbs[LoopId(k)] == LongBlock(k, t.gen) && LinksOf(t, LoopId(k)) == []
    requires t.traceNext % 4 == 0 && k < 60
    ensures Leads(t, [Create(Guest(), LoopId(k)), Trace(Guest(), LOOPS + k, t.traceId)], r) && Looped(t, 1, r)
  {
    hide Leads, InstallTrace, Erased, Written, WordSize, Looped;
    var bb, spc := LoopId(k), LOOPS + k;
    Start(t, bb);
    End(t, bb);
    LeadsTwo(t, Create(Guest(), bb), Trace(Guest(), spc, t.traceId));
    var e := Ended(Started(t, bb));
    InstallAlone(e, Guest(), spc);
    r := Published(e.(active := e.active.(on := false)), spc);
    LoopFrame(t, k);
  }

  lemma LoopFrame(t: Thread, k: nat)
    requires HotBlock(t, LoopId(k)) && t.bbs[LoopId(k)] == LongBlock(k, t.gen) && t.traceNext % 4 == 0
    ensures var e := Ended(Started(t, LoopId(k))); Looped(t, 1, Published(e.(active := e.active.(on := false)), LOOPS + k))
  {
    hide Erased, Written, WordSize;
    var m := FirstFrag(t, LOOPS + k);
    var c := Erased(t.code, m.tpc, m.end);
    forall a | a in t.code && a + WordSize(a, t.code[a]) <= t.traceNext
      ensures a in Written(c, m.exitAddr, Jump(Loc(m.tpc, t.gen), LOOPS + k))
              && Written(c, m.exitAddr, Jump(Loc(m.tpc, t.gen), LOOPS + k))[a] == t.code[a]
    {
      ErasedFrame(t.code, m.tpc, m.end, a);
      WrittenFrame(c, m.exitAddr, Jump(Loc(m.tpc, t.gen), LOOPS + k), a);
    }
  }

  lemma ErasedFrame(code: map<nat, Patched>, from: nat, to: nat, a: nat)
    requires a in code && a + WordSize(a, code[a]) <= from
    ensures a in Erased(code, from, to) && Erased(code, from, to)[a] == code[a]
  {
    hide WordSize;
  }

  lemma LoopedMore(t: Thread, n: nat, r: Thread, s: Thread)
    requires Looped(t, n, r) && Looped(r, 1, s)
    ensures Looped(t, n + 1, s)
  {
    hide WordSize;
  }

  lemma LoopedSelf(t: Thread)
    requires !t.wasFlushed
    ensures Looped(t, 0, t)
  {
  }

  /** The long loops are there, and nothing has been linked to them. */
  predicate LoopsReady(t: Thread, n: nat) {
    && !t.wasFlushed && t.ok && t.traceId == CODE_CACHE_SIZE + 1 && t.traceNext % 4 == 0
    && t.traceNext + LONG_TRACE * n < CACHE_END - TRACE_LIMIT_OFFSET && n < 60
    && forall k | 0 <= k < n :: LoopId(k) in t.bbs && t.bbs[LoopId(k)] == LongBlock(k, t.gen) && LinksOf(t, LoopId(k)) == []
  }

  lemma {:induction false} Loops(t: Thread, n: nat) returns (r: Thread)
    requires LoopsReady(t, n)
    ensures Leads(t, LoopRun(n), r) && Looped(t, n, r)
    decreases n
  {
    hide Leads, Apply, FromGuest, WordSize;
    if n == 0 {
      r := t;
      LeadsNowhere(t);
      LoopedSelf(t);
    } else {
      var a := Loops(t, n - 1);
      LoopHot(t, n, a);
      r := LoopOnce(a, n - 1);
      LoopedMore(t, n - 1, a, r);
      LeadsTo(t, LoopRun(n - 1), a, [Create(Guest(), LoopId(n - 1)), Trace(Guest(), LOOPS + n - 1, a.traceId)], r);
    }
  }

  lemma LoopHot(t: Thread, n: nat, a: Thread)
    requires n > 0 && LoopsReady(t, n) && Looped(t, n - 1, a)
    ensures HotBlock(a, LoopId(n - 1)) && a.bbs[LoopId(n - 1)] == LongBlock(n - 1, a.gen)
            && LinksOf(a, LoopId(n - 1)) == []
    ensures a.traceNext % 4 == 0 && a.traceId == CODE_CACHE_SIZE + n
  {
    hide WordSize;
    assert LoopId(n - 1) in t.bbs;
  }

  /** Where the closing jump of the first trace stands, with an exit stub right behind it. */
  const CLOSING: nat := TRACES + 200

  /** The first trace: a branch to the stub, the closing jump and the stub, both to blocks a JAL reaches. */
  predicate FirstTrace(r: Thread, x: nat, b: nat) {
    && CODE_CACHE_SIZE in r.frags && r.frags[CODE_CACHE_SIZE] == FirstFrag(Initial(FIRST), 10)
    && r.traceId == CODE_CACHE_SIZE + 1 && r.traceNext == CLOSING + 8 && r.gen == 0 && r.intact && r.ok && !r.wasFlushed
    && CLOSING - 4 in r.code && r.code[CLOSING - 4] == Leave(false, CLOSING + 4)
    && CLOSING in r.code && r.code[CLOSING] == Jump(Loc(b * BLOCK_BYTES, 0), 20)
    && CLOSING + 4 in r.code && r.code[CLOSING + 4] == Jump(Loc(x * BLOCK_BYTES, 0), 30)
  }

  /** Nothing has been traced yet; block `a` ends in the branch to 20 and 30, the next two are free. */
  predicate AtBranch(t: Thread, a: nat) {
    && t.code == map[] && t.frags == map[] && t.links == map[] && t.traceNext == TRACES && t.traceId == CODE_CACHE_SIZE
    && t.gen == 0 && t.ok && t.intact && !t.wasFlushed && t.freeBlock == a + 1 && 51000 <= a && a + 2 < RESERVED
    && a in t.bbs && t.bbs[a] == BbMeta(10, ExitOf(10), 0, 1) && 20 !in t.entry && 30 !in t.entry
  }

  /** The exit of its first fragment taken: block `a + 1` is scanned for the successor not taken. */
  function Branched(t: Thread, a: nat): Thread
    requires a in t.bbs
  {
    var s := Started(t, a);
    Place(s, Guest(), 30).0.(
      active := s.active.(writeP := CLOSING, exits := [Exit(CLOSING - 4, Loc((a + 1) * BLOCK_BYTES, 0), 30, CODE_CACHE_SIZE, true)]))
  }

  lemma TakesBranch(t: Thread, a: nat)
    requires AtBranch(t, a)
    ensures HotBlock(t, a) && CODE_CACHE_SIZE in Started(t, a).frags
    ensures TakeExit(Started(t, a), Guest(), 20, CODE_CACHE_SIZE) == Branched(t, a)
  {
    GuestScans();
    hide Scanner, MarkOverflow;
    assert AlignUp(TRACES) == TRACES;
    var s := Started(t, a);
    assert ActiveLookup(s, 30).Missing?;
  }

  /** The second fragment is cut off; only what it would have become is left behind the last used id. */
  function CutShort(t: Thread, a: nat): Thread
    requires a in t.bbs
  {
    var b := Branched(t, a);
    var n := NewFragment(b, Guest(), 20, 0);
    n.(active := b.active)
  }

  lemma CutsOff(t: Thread, a: nat)
    requires AtBranch(t, a)
    ensures var s := Started(t, a);
            CODE_CACHE_SIZE in s.frags && TraceDispatcher(s, Guest(), 20, CODE_CACHE_SIZE) == CloseTraceLinked(CutShort(t, a), Guest(), 20, CLOSING)
  {
    TakesBranch(t, a);
    GuestScans();
    hide Scanner, MarkOverflow, Erased, CloseTraceLinked, TakeExit, Place;
    BranchedFacts(t, a);
    var s, b := Started(t, a), Branched(t, a);
    assert TooLong(200, 1);
    assert ScanTrace(b, Guest(), 20, 0) == (NewFragment(b, Guest(), 20, 0), 0, CODE_CACHE_SIZE + 1);
    assert StubsFit(b.active.exits, CLOSING + STUB_MAX);
  }

  lemma BranchedFacts(t: Thread, a: nat)
    requires AtBranch(t, a)
    ensures var b := Branched(t, a);
            && b.fragCount == 1 && !b.wasFlushed && b.active == Active(true, CODE_CACHE_SIZE + 1, a, CLOSING, Loc(TRACES, 0),
                 [Exit(CLOSING - 4, Loc((a + 1) * BLOCK_BYTES, 0), 30, CODE_CACHE_SIZE, true)])
            && a in b.bbs && b.bbs[a].source == 10 && 20 !in b.entry && b.ok && b.gen == 0 && b.freeBlock == a + 2 && b.intact
            && b.links == map[] && b.code == map[] && b.traceNext == TRACES && b.traceId == CODE_CACHE_SIZE
            && b.frags == map[CODE_CACHE_SIZE := FirstFrag(Initial(FIRST), 10)]
            && (forall id | id in t.bbs && id <= a :: id in b.bbs && b.bbs[id] == t.bbs[id])
  {
    GuestScans();
    hide Scanner, MarkOverflow;
    assert AlignUp(TRACES) == TRACES;
    assert Erased(map[], TRACES, FirstFrag(t, 10).end) == map[];
  }

  /** The closing jump leads to block `a + 2`, and its link is recorded. */
  function Linking(t: Thread, a: nat): Thread
    requires a in t.bbs
  {
    var (p, l) := Place(CutShort(t, a), Guest(), 20);
    Closed(RecordLink(p, Loc(CLOSING, 0), l), CLOSING, l, 20)
  }

  lemma CutFacts(t: Thread, a: nat)
    requires AtBranch(t, a)
    ensures var u := CutShort(t, a);
            && u.active == Active(true, CODE_CACHE_SIZE + 1, a, CLOSING, Loc(TRACES, 0),
                 [Exit(CLOSING - 4, Loc((a + 1) * BLOCK_BYTES, 0), 30, CODE_CACHE_SIZE, true)])
            && a in u.bbs && u.bbs[a].source == 10 && 20 !in u.entry && u.ok && u.gen == 0 && u.freeBlock == a + 2 && u.intact
            && !u.wasFlushed && u.links == map[] && u.code == map[] && u.traceId == CODE_CACHE_SIZE
            && CODE_CACHE_SIZE in u.frags && u.frags[CODE_CACHE_SIZE] == FirstFrag(Initial(FIRST), 10)
            && (forall id | id in t.bbs && id <= a :: id in u.bbs && u.bbs[id] == t.bbs[id])
  {
    hide Branched;
    BranchedFacts(t, a);
    var m := NewFragment(Branched(t, a), Guest(), 20, 0).frags[CODE_CACHE_SIZE + 1];
    assert Erased(map[], m.tpc, m.end) == map[];
  }

  /** A short block scanned without a flush. */
  lemma ShortPlaced(t: Thread, spc: nat)
    requires spc < LOOPS
    ensures var (r, l) := Place(t, Guest(), spc);
            && l == Loc(t.freeBlock * BLOCK_BYTES, t.gen)
            && r == t.(freeBlock := t.freeBlock + 1, entry := t.entry[spc := l], linked := t.linked - {t.freeBlock},
                       bbs := t.bbs[t.freeBlock := BbMeta(spc, ExitOf(spc), t.gen, 1)])
  {
    hide ExitOf;
  }

  lemma ClosesLinked(t: Thread, a: nat)
    requires AtBranch(t, a)
    ensures var l := Loc((a + 2) * BLOCK_BYTES, 0);
            CloseTraceLinked(CutShort(t, a), Guest(), 20, CLOSING) == Finish(InstallTrace(Linking(t, a), Guest()), Guest(), 20, l)
  {
    CutFacts(t, a);
    hide Place, CutShort, InstallTrace, RecordLink, Closed, Finish, ActiveLookup, ActiveLookupOrScan, FirstFrag;
    var u := CutShort(t, a);
    ShortPlaced(u, 20);
    ScansNext(u, 20);
    var (p, l) := Place(u, Guest(), 20);
    EarlyIsInstall(RecordLink(p, Loc(CLOSING, 0), l), CLOSING, l, 20);
  }

  lemma ScansNext(u: Thread, spc: nat)
    requires u.freeBlock < RESERVED && spc !in u.entry && !IsActiveHead(u, spc)
    ensures ActiveLookup(u, spc).Missing? && ActiveLookupOrScan(u, Guest(), spc) == Place(u, Guest(), spc)
  {
    hide Place;
  }

  lemma EarlyIsInstall(t: Thread, writeP: nat, l: Loc, spc: nat)
    ensures EarlyTraceExit(t, Guest(), writeP, l, spc) == InstallTrace(Closed(t, writeP, l, spc), Guest())
  {
    hide InstallTrace, Written, JumpSize;
  }

  lemma LinkingFacts(t: Thread, a: nat)
    requires AtBranch(t, a)
    ensures var e := Linking(t, a);
            && e.active == Active(true, CODE_CACHE_SIZE + 1, a, CLOSING + 4, Loc(TRACES, 0),
                 [Exit(CLOSING - 4, Loc((a + 1) * BLOCK_BYTES, 0), 30, CODE_CACHE_SIZE, true)])
            && a in e.bbs && e.bbs[a].source == 10 && e.ok && e.gen == 0 && e.intact && !e.wasFlushed
            && e.links == map[a + 2 := [Loc(CLOSING, 0)]] && e.code == map[CLOSING := Jump(Loc((a + 2) * BLOCK_BYTES, 0), 20)]
            && CODE_CACHE_SIZE in e.frags && e.frags[CODE_CACHE_SIZE] == FirstFrag(Initial(FIRST), 10)
            && (forall id | id in t.bbs && id <= a :: id in e.bbs && e.bbs[id] == t.bbs[id])
            && a + 2 in e.bbs && e.bbs[a + 2] == BbMeta(20, ExitOf(20), 0, 1)
  {
    CutFacts(t, a);
    hide Place, CutShort, Written, JumpSize, AddLink, FirstFrag, ExitOf;
    var u := CutShort(t, a);
    ShortPlaced(u, 20);
    var (p, l) := Place(u, Guest(), 20);
    NearJump(a + 2);
    FirstLink(a + 2);
    OneWord(CLOSING, Jump(l, 20));
    var v := RecordLink(p, Loc(CLOSING, 0), l);
    assert v.links == map[a + 2 := [Loc(CLOSING, 0)]];
    assert v.code == map[] && v.active == u.active;
  }

  lemma NearJump(id: nat)
    requires 51000 <= id < RESERVED
    ensures forall at | CLOSING <= at <= CLOSING + 4 && at % 4 == 0 :: JumpSize(at, id * BLOCK_BYTES) == 4
  {
  }

  lemma FirstLink(id: nat)
    requires id < RESERVED
    ensures forall from :: AddLink(map[], from, Loc(id * BLOCK_BYTES, 0)) == map[id := [from]]
  {
    forall from ensures AddLink(map[], from, Loc(id * BLOCK_BYTES, 0)) == map[id := [from]] { SecondLink(map[], id, from); }
  }

  lemma OneWord(at: nat, word: Patched)
    ensures Written(map[], at, word) == map[at := word]
  {
  }

  /** The two events that make the first trace. */
  lemma TraceBranch(t: Thread, a: nat) returns (r: Thread)
    requires AtBranch(t, a)
    ensures Leads(t, [Create(Guest(), a), Trace(Guest(), 20, CODE_CACHE_SIZE)], r) && FirstTrace(r, a + 1, a + 2)
    ensures r.links == map[a + 2 := [Loc(CLOSING, 0)], a + 1 := [Loc(CLOSING + 4, 0)]]
    ensures forall id | id in t.bbs && id <= a :: id in r.bbs && r.bbs[id] == t.bbs[id]
    ensures a + 2 in r.bbs && r.bbs[a + 2] == BbMeta(20, ExitOf(20), 0, 1)
  {
    hide Leads, Linking, Started, Commit, Scanner, FirstTrace, FromGuest, Apply, ExitOf;
    TakesBranch(t, a);
    Start(t, a);
    LinkingFacts(t, a);
    var e := Linking(t, a);
    var off := e.(active := e.active.(on := false));
    r := Commit(off, 10);
    CommitsBranch(off, a);
    StartedTakes(t, a);
    BranchTaken(t, a);
    LeadsTwo(t, Create(Guest(), a), Trace(Guest(), 20, CODE_CACHE_SIZE));
  }

  lemma BranchTaken(t: Thread, a: nat)
    requires AtBranch(t, a) && FromGuest(Started(t, a), Trace(Guest(), 20, CODE_CACHE_SIZE))
    ensures var e := Linking(t, a);
            Apply(Started(t, a), Trace(Guest(), 20, CODE_CACHE_SIZE)).0 == Commit(e.(active := e.active.(on := false)), 10)
  {
    hide InstallTrace, Linking, CutShort, CloseTraceLinked, TraceDispatcher, Started, Commit, FromGuest, ExitOf,
         StubCode, StubLinks;
    CutsOff(t, a);
    ClosesLinked(t, a);
    LinkingFacts(t, a);
    var e := Linking(t, a);
    InstallUnlinked(e, Guest(), 10);
    var off := e.(active := e.active.(on := false));
    CommitUnflushed(off, 10);
    AppliesTrace(Started(t, a));
  }

  lemma AppliesTrace(s: Thread)
    requires FromGuest(s, Trace(Guest(), 20, CODE_CACHE_SIZE))
    ensures CODE_CACHE_SIZE in s.frags
    ensures Apply(s, Trace(Guest(), 20, CODE_CACHE_SIZE)).0 == TraceDispatcher(s, Guest(), 20, CODE_CACHE_SIZE).0
  {
    hide TraceDispatcher;
  }

  lemma StartedTakes(t: Thread, a: nat)
    requires AtBranch(t, a)
    ensures FromGuest(Started(t, a), Trace(Guest(), 20, CODE_CACHE_SIZE))
  {
    GuestScans();
    hide Scanner, Erased;
  }

  lemma CommitsBranch(e: Thread, a: nat)
    requires 51000 <= a && a + 2 < RESERVED
    requires e.active == Active(false, CODE_CACHE_SIZE + 1, a, CLOSING + 4, Loc(TRACES, 0),
                                [Exit(CLOSING - 4, Loc((a + 1) * BLOCK_BYTES, 0), 30, CODE_CACHE_SIZE, true)])
    requires e.ok && e.gen == 0 && e.intact && !e.wasFlushed
    requires e.links == map[a + 2 := [Loc(CLOSING, 0)]] && e.code == map[CLOSING := Jump(Loc((a + 2) * BLOCK_BYTES, 0), 20)]
    requires CODE_CACHE_SIZE in e.frags && e.frags[CODE_CACHE_SIZE] == FirstFrag(Initial(FIRST), 10)
    ensures var r := Commit(e, 10);
            && FirstTrace(r, a + 1, a + 2) && r.links == map[a + 2 := [Loc(CLOSING, 0)], a + 1 := [Loc(CLOSING + 4, 0)]]
            && r.bbs == e.bbs && !r.active.on
  {
    hide FirstFrag, AddLink, JumpSize, Written, StubCode, StubLinks, StubsEnd, AllReach;
    NearJump(a + 1);
    NearJump(a + 2);
    OneStub(e.code, e.links, 0, e.active.exits[0], CLOSING + 4);
    var left := Written(e.code, CLOSING - 4, Leave(false, CLOSING + 4));
    var right := Jump(Loc((a + 1) * BLOCK_BYTES, 0), 30);
    WrittenThere(e.code, CLOSING - 4, Leave(false, CLOSING + 4));
    WrittenFrame(e.code, CLOSING - 4, Leave(false, CLOSING + 4), CLOSING);
    WrittenThere(left, CLOSING + 4, right);
    WrittenFrame(left, CLOSING + 4, right, CLOSING - 4);
    WrittenFrame(left, CLOSING + 4, right, CLOSING);
    SecondLink(e.links, a + 1, Loc(CLOSING + 4, 0));
  }

  lemma SecondLink(links: map<nat, seq<Loc>>, id: nat, from: Loc)
    requires id < RESERVED && id !in links
    ensures AddLink(links, from, Loc(id * BLOCK_BYTES, 0)) == links[id := [from]]
  {
    assert id * BLOCK_BYTES / BLOCK_BYTES == id;
    assert BbId(id * BLOCK_BYTES) == id;
    assert [from] + [] == [from];
  }

  /** What committing a trace with one recorded exit writes. */
  lemma OneStub(code: map<nat, Patched>, links: map<nat, seq<Loc>>, gen: nat, x: Exit, w: nat)
    ensures StubCode(code, [x], w) == Written(Written(code, x.from, Leave(!x.taken, w)), w, Jump(x.to, x.spc))
    ensures StubLinks(links, gen, [x], w) == AddLink(links, Loc(w, gen), x.to)
    ensures StubsEnd([x], w) == w + JumpSize(w, x.to.addr) && (AllReach([x], w) <==> BranchReach(x.from, w))
  {
    hide AddLink, JumpSize, Written, BranchReach;
    assert [x][1..] == [];
  }

  const BRANCH_BLOCK: nat := FIRST + LONG_BLOCK * 100

  /** A hundred long loops, the block that ends in a branch, its trace, nine traces of loops, and a trace for block 20. */
  function OverwriteRun(): seq<Event> {
    FillRun(0, 100) + [Dispatch(Guest(), 10, 0)] + [Create(Guest(), BRANCH_BLOCK), Trace(Guest(), 20, CODE_CACHE_SIZE)] + LoopRun(9)
    + [Create(Guest(), BRANCH_BLOCK + 2), Trace(Guest(), 20, CODE_CACHE_SIZE + 10)]
  }

  predicate LoopBlocks(t: Thread, n: nat) {
    forall k | 0 <= k < n :: LoopId(k) in t.bbs && t.bbs[LoopId(k)] == LongBlock(k, 0)
  }

  lemma ReachesBranch() returns (t: Thread)
    ensures Leads(Initial(FIRST), FillRun(0, 100) + [Dispatch(Guest(), 10, 0)], t) && AtBranch(t, BRANCH_BLOCK)
            && LoopBlocks(t, 9)
  {
    hide Leads, Place, FromGuest, Apply;
    var i := Initial(FIRST);
    var f := Fill(i, 0, 100);
    FilledLoops(i, 100, f);
    Scanned(f, 10);
    LeadsOn(f, Dispatch(Guest(), 10, 0));
    ShortPlaced(f, 10);
    t := Place(f, Guest(), 10).0;
    LeadsTo(i, FillRun(0, 100), f, [Dispatch(Guest(), 10, 0)], t);
  }

  lemma FilledLoops(t: Thread, n: nat, f: Thread)
    requires t == Initial(FIRST) && n >= 9 && Filled(t, 0, n, f)
    ensures LoopBlocks(f, 9)
  {
    hide LongBlock;
    forall k | 0 <= k < 9 ensures LoopId(k) in f.bbs && f.bbs[LoopId(k)] == LongBlock(k, 0) {
      assert f.bbs[t.freeBlock + LONG_BLOCK * k] == LongBlock(0 + k, t.gen);
    }
  }

  /** The words of the first trace. */
  predicate FirstWords(t: Thread) {
    && CODE_CACHE_SIZE in t.frags && t.frags[CODE_CACHE_SIZE] == FirstFrag(Initial(FIRST), 10)
    && CLOSING - 4 in t.code && t.code[CLOSING - 4] == Leave(false, CLOSING + 4)
    && CLOSING in t.code && CLOSING + 4 in t.code
  }

  /** A self-loop traced far behind the first trace, just before its installation. */
  lemma FirstWordsKept(t: Thread, b: nat)
    requires FirstWords(t) && HotBlock(t, b) && t.traceNext >= CLOSING + 100 && t.traceId > CODE_CACHE_SIZE
    requires ExitOf(t.bbs[b].source).kind == Jal
    ensures FirstWords(Ended(Started(t, b)))
  {
    hide Erased, Written;
    var m := FirstFrag(t, t.bbs[b].source);
    var c, word := Erased(t.code, m.tpc, m.end), Jump(Loc(m.tpc, t.gen), t.bbs[b].source);
    forall a | a in {CLOSING - 4, CLOSING, CLOSING + 4}
      ensures a in Written(c, m.exitAddr, word) && Written(c, m.exitAddr, word)[a] == t.code[a]
    {
      assert WordSize(a, t.code[a]) <= STUB_MAX;
      ErasedFrame(t.code, m.tpc, m.end, a);
      WrittenFrame(c, m.exitAddr, word, a);
    }
  }

  /** The branch of the first trace leads to a stub that is gone. */
  predicate StubGone(t: Thread) {
    && CODE_CACHE_SIZE in t.frags && t.frags[CODE_CACHE_SIZE] == FirstFrag(Initial(FIRST), 10)
    && CLOSING - 4 in t.code && t.code[CLOSING - 4] == Leave(false, CLOSING + 4) && CLOSING + 4 !in t.code
  }

  lemma GoneNotInstalled(t: Thread)
    requires StubGone(t) && t.traceId > CODE_CACHE_SIZE
    ensures !Installed(t, 0, t.traceId)
  {
    assert t.frags[CODE_CACHE_SIZE].exitAddr == CLOSING - 4;
    assert !Right(t, 0, t.traceId, CODE_CACHE_SIZE);
  }

  /** A long jump at `CLOSING` destroys the stub. */
  lemma LongJumpDestroys(e: Thread, spc: nat)
    requires FirstWords(e) && e.active.entry.addr >= CLOSING + 1048576
    ensures StubGone(PatchTrace(e, CLOSING, spc))
  {
    assert JumpSize(CLOSING, e.active.entry.addr) == STUB_MAX;
    WrittenFrame(e.code, CLOSING, Jump(e.active.entry, spc), CLOSING - 4);
  }

  /** The trace for block 20 rewrites the closing jump of the first trace, and with it the stub behind that. */
  lemma RewritesClosing(t: Thread, b: nat) returns (r: Thread)
    requires FirstWords(t) && HotBlock(t, b) && t.bbs[b] == BbMeta(20, ExitOf(20), 0, 1)
             && LinksOf(t, b) == [Loc(CLOSING, 0)]
    requires t.traceId == CODE_CACHE_SIZE + 10 && t.traceNext == CLOSING + 8 + LONG_TRACE * 9 && t.gen == 0
    ensures Leads(t, [Create(Guest(), b), Trace(Guest(), 20, CODE_CACHE_SIZE + 10)], r)
    ensures !Installed(r, 0, r.traceId) && r.gen == 0 && !r.wasFlushed
  {
    hide Leads, InstallTrace, InstallLink, PatchTrace, Erased, Written, WordSize, FirstWords, StubGone, Installed,
         Fits, Commit;
    var e1, e2 := Create(Guest(), b), Trace(Guest(), 20, CODE_CACHE_SIZE + 10);
    Start(t, b);
    End(t, b);
    LeadsTwo(t, e1, e2);
    r := Apply(Started(t, b), e2).0;
    var e := Ended(Started(t, b));
    FirstWordsKept(t, b);
    InstallOne(e, Guest(), 20, Loc(CLOSING, 0));
    var off := e.(active := e.active.(on := false));
    WordsOff(e, off);
    ClosingPatched(off);
    CommitNoExits(InstallLink(off, Guest(), Loc(CLOSING, 0), 20), 20);
    GoneNotInstalled(r);
  }

  lemma WordsOff(e: Thread, off: Thread)
    requires FirstWords(e) && off == e.(active := off.active)
    ensures FirstWords(off)
  {
  }

  lemma ClosingPatched(off: Thread)
    requires FirstWords(off) && off.active.entry.addr >= CLOSING + 1048576 && off.gen == 0
    ensures var p := InstallLink(off, Guest(), Loc(CLOSING, 0), 20);
            p == off.(code := p.code, intact := p.intact) && StubGone(p) && StubGone(Published(p, 20))
  {
    hide Written, WordSize, Fits, PatchTrace, PatchBlock, FirstFrag;
    LinkShape(off, Guest(), Loc(CLOSING, 0), 20);
    var a := Judged(off, off.intact && 0 == off.gen == off.active.entry.gen);
    PatchFields(a, CLOSING, 20);
    LongJumpDestroys(a, 20);
  }

  lemma ReadyForLoops(t: Thread, r: Thread)
    requires LoopBlocks(t, 9) && FirstTrace(r, BRANCH_BLOCK + 1, BRANCH_BLOCK + 2)
    requires r.links == map[BRANCH_BLOCK + 2 := [Loc(CLOSING, 0)], BRANCH_BLOCK + 1 := [Loc(CLOSING + 4, 0)]]
    requires forall id | id in t.bbs && id <= BRANCH_BLOCK :: id in r.bbs && r.bbs[id] == t.bbs[id]
    ensures LoopsReady(r, 9)
  {
    hide LongBlock, FirstFrag;
    forall k | 0 <= k < 9 ensures LoopId(k) in r.bbs && r.bbs[LoopId(k)] == LongBlock(k, r.gen) && LinksOf(r, LoopId(k)) == [] {
      assert LoopId(k) in t.bbs;
    }
  }

  lemma FirstWordsLooped(r: Thread, s: Thread)
    requires FirstTrace(r, BRANCH_BLOCK + 1, BRANCH_BLOCK + 2) && Looped(r, 9, s)
    ensures FirstWords(s)
  {
    hide FirstFrag;
    NearJump(BRANCH_BLOCK + 1);
    NearJump(BRANCH_BLOCK + 2);
    forall a | a in {CLOSING - 4, CLOSING, CLOSING + 4} ensures a in s.code && s.code[a] == r.code[a] {
      assert WordSize(a, r.code[a]) == 4;
    }
  }

  /** At the end of this run, without any flush, an installed trace leaves for a stub that has been overwritten. */
  lemma StubOverwritten()
    ensures ValidRun(Initial(FIRST), OverwriteRun()) && GuestRun(Initial(FIRST), OverwriteRun())
    ensures var t := After(Initial(FIRST), OverwriteRun()); t.gen == 0 && !Installed(t, 0, t.traceId)
  {
    hide ValidRun, GuestRun, After, FillRun, LoopRun, Installed, FirstTrace, FirstWords, Looped, LoopsReady,
         LoopBlocks, AtBranch;
    var i := Initial(FIRST);
    var t := ReachesBranch();
    var r := TraceBranch(t, BRANCH_BLOCK);
    ReadyForLoops(t, r);
    var s := Loops(r, 9);
    FirstWordsLooped(r, s);
    HotAgain(r, s);
    var u := RewritesClosing(s, BRANCH_BLOCK + 2);
    var e1 := [Create(Guest(), BRANCH_BLOCK), Trace(Guest(), 20, CODE_CACHE_SIZE)];
    var e2 := [Create(Guest(), BRANCH_BLOCK + 2), Trace(Guest(), 20, CODE_CACHE_SIZE + 10)];
    var start := FillRun(0, 100) + [Dispatch(Guest(), 10, 0)];
    LeadsTo(i, start, t, e1, r);
    LeadsTo(i, start + e1, r, LoopRun(9), s);
    LeadsTo(i, start + e1 + LoopRun(9), s, e2, u);
  }

  /** Some installation of that run writes a jump over something needed. */
  lemma OverwriteHarms()
    ensures ValidRun(Initial(FIRST), OverwriteRun()) && !HarmlessRun(Initial(FIRST), OverwriteRun())
  {
    hide ValidRun, GuestRun, After, OverwriteRun, Installed, HarmlessRun, StandingRun;
    StubOverwritten();
    EveryRunStandsIff(FIRST, OverwriteRun());
  }

  lemma HotAgain(r: Thread, s: Thread)
    requires FirstTrace(r, BRANCH_BLOCK + 1, BRANCH_BLOCK + 2) && Looped(r, 9, s)
    requires r.links == map[BRANCH_BLOCK + 2 := [Loc(CLOSING, 0)], BRANCH_BLOCK + 1 := [Loc(CLOSING + 4, 0)]]
    requires BRANCH_BLOCK + 2 in r.bbs && r.bbs[BRANCH_BLOCK + 2] == BbMeta(20, ExitOf(20), 0, 1)
    ensures HotBlock(s, BRANCH_BLOCK + 2) && s.bbs[BRANCH_BLOCK + 2] == BbMeta(20, ExitOf(20), 0, 1)
    ensures LinksOf(s, BRANCH_BLOCK + 2) == [Loc(CLOSING, 0)] && s.gen == 0
    ensures s.traceId == CODE_CACHE_SIZE + 10 && s.traceNext == CLOSING + 8 + LONG_TRACE * 9
  {
    hide FirstFrag, WordSize;
  }

  // ---------- A link recorded from discarded code ----------

  const JUMP_BLOCK: nat := FIRST + LONG_BLOCK

  /** Block 40 jumps to 50, which has never been reached when the cache is full. */
  function StaleRun(): seq<Event> {
    FillRun(0, 1) + [Dispatch(Guest(), 40, 0)] + FillRun(1, 106)
    + [Create(Guest(), JUMP_BLOCK), Trace(Guest(), 50, CODE_CACHE_SIZE)]
  }

  /** Nothing has been traced or linked, block `JUMP_BLOCK` jumps to 50, and the next block scanned flushes the cache. */
  predicate AtJump(t: Thread) {
    && t.links == map[] && t.traceNext == TRACES && t.traceId == CODE_CACHE_SIZE && t.first == FIRST
    && t.gen == 0 && t.ok && t.intact && t.asserted && !t.wasFlushed && t.freeBlock >= RESERVED
    && JUMP_BLOCK in t.bbs && t.bbs[JUMP_BLOCK] == BbMeta(40, ExitOf(40), 0, 1) && 50 !in t.entry
  }

  lemma ReachesJump() returns (t: Thread)
    ensures Leads(Initial(FIRST), FillRun(0, 1) + [Dispatch(Guest(), 40, 0)] + FillRun(1, 106), t) && AtJump(t)
  {
    hide Leads, Place, FromGuest, Apply, FillRun, LongBlock;
    var i := Initial(FIRST);
    var f := Fill(i, 0, 1);
    Scanned(f, 40);
    LeadsOn(f, Dispatch(Guest(), 40, 0));
    ShortPlaced(f, 40);
    var g := Place(f, Guest(), 40).0;
    LeadsTo(i, FillRun(0, 1), f, [Dispatch(Guest(), 40, 0)], g);
    t := Fill(g, 1, 106);
    LeadsTo(i, FillRun(0, 1) + [Dispatch(Guest(), 40, 0)], g, FillRun(1, 106), t);
  }

  /** The trace of block 40 at its exit, with the second fragment cut off. */
  function JumpCut(t: Thread): Thread
    requires JUMP_BLOCK in t.bbs
  {
    var s := Started(t, JUMP_BLOCK);
    var b := s.(active := s.active.(writeP := CLOSING - 4));
    NewFragment(b, Guest(), 50, 0).(active := b.active)
  }

  lemma JumpCutsOff(t: Thread)
    requires AtJump(t)
    ensures HotBlock(t, JUMP_BLOCK) && FromGuest(Started(t, JUMP_BLOCK), Trace(Guest(), 50, CODE_CACHE_SIZE))
    ensures TraceDispatcher(Started(t, JUMP_BLOCK), Guest(), 50, CODE_CACHE_SIZE)
            == CloseTraceLinked(JumpCut(t), Guest(), 50, CLOSING - 4)
  {
    GuestScans();
    hide Scanner, Erased, CloseTraceLinked;
    assert AlignUp(TRACES) == TRACES;
    assert TooLong(196, 1);
  }

  lemma JumpCutFacts(t: Thread)
    requires AtJump(t)
    ensures var u := JumpCut(t);
            && u.links == map[] && u.first == FIRST && u.gen == 0 && u.intact && u.asserted && u.freeBlock >= RESERVED
            && u.active.on && u.active.sourceBb == JUMP_BLOCK && ActiveLookup(u, 50).Missing? && 50 !in u.entry
  {
    GuestScans();
    hide Scanner, Erased;
  }

  /** A lookup in a full cache without recorded links: the block is the first one of the next generation. */
  lemma Flushing(u: Thread, spc: nat)
    requires u.first == FIRST && u.freeBlock >= RESERVED && spc !in u.entry && !IsActiveHead(u, spc) && spc < LOOPS
    requires CODE_CACHE_SIZE !in u.links
    ensures var (p, l) := ActiveLookupOrScan(u, Guest(), spc);
            && l == Loc(FIRST * BLOCK_BYTES, u.gen + 1) && p.entry == map[spc := l] && p.links == map[] && p.freeBlock == FIRST + 1
            && p.gen == u.gen + 1 && p.wasFlushed && p.intact == u.intact && p.asserted == u.asserted && p.first == u.first
            && p.active == u.active.(id := CODE_CACHE_SIZE) && p.traceId == CODE_CACHE_SIZE && p.traceNext == TRACES
            && p.bbs == Forgotten(u.bbs)[FIRST := BbMeta(spc, ExitOf(spc), u.gen + 1, 1)] && p.actual == map[] && p.ok == u.ok
  {
    hide Place, Forgotten, ExitOf;
    ShortPlaced(Flush(u), spc);
  }

  /** The lookup for the closing jump flushes: the link is recorded all the same. */
  lemma FlushingClose(u: Thread, w: nat)
    requires u.links == map[] && u.first == FIRST && u.gen == 0 && u.intact && u.freeBlock >= RESERVED
    requires u.active.on && u.active.sourceBb == JUMP_BLOCK && ActiveLookup(u, 50).Missing? && 50 !in u.entry
    ensures var r := CloseTraceLinked(u, Guest(), 50, w).0;
            && r.gen == 1 && LinksOf(r, FIRST) == [Loc(w, 0)] && r.intact && r.freeBlock == FIRST + 1
            && FIRST in r.bbs && r.bbs[FIRST] == BbMeta(50, ExitOf(50), 1, 1)
  {
    hide ActiveLookupOrScan, AddLink, Written, JumpSize, Forgotten, InstallTrace;
    Flushing(u, 50);
    var (p, l) := ActiveLookupOrScan(u, Guest(), 50);
    FirstLink1(Loc(w, 0));
    var c := Closed(RecordLink(p, Loc(w, 0), l), w, l, 50);
    InstallFlushed(c);
  }

  lemma InstallFlushed(c: Thread)
    requires c.wasFlushed && c.active.on && LinksOf(c, c.active.sourceBb) == []
    ensures InstallTrace(c, Guest()) == c.(active := c.active.(on := false))
  {
  }

  lemma FirstLink1(from: Loc)
    ensures AddLink(map[], from, Loc(FIRST * BLOCK_BYTES, 1)) == map[FIRST := [from]]
  {
    assert [from] + [] == [from];
  }

  /** At the end of this run the list of a block of the second generation holds a jump in discarded code. */
  lemma ClosingLinkMayBeStale()
    ensures ValidRun(Initial(FIRST), StaleRun()) && GuestRun(Initial(FIRST), StaleRun())
    ensures var t := After(Initial(FIRST), StaleRun());
            && t.gen == 1 && Live(t, FIRST) && LinksOf(t, FIRST) == [Loc(CLOSING - 4, 0)] && t.intact
  {
    hide ValidRun, GuestRun, After, FillRun, AtJump, CloseTraceLinked, TraceDispatcher, JumpCut;
    var i := Initial(FIRST);
    var t := ReachesJump();
    JumpCutsOff(t);
    Start(t, JUMP_BLOCK);
    JumpCutFacts(t);
    FlushingClose(JumpCut(t), CLOSING - 4);
    var e, f := Create(Guest(), JUMP_BLOCK), Trace(Guest(), 50, CODE_CACHE_SIZE);
    LeadsTwo(t, e, f);
    LeadsTo(i, FillRun(0, 1) + [Dispatch(Guest(), 40, 0)] + FillRun(1, 106), t, [e, f], Apply(Apply(t, e).0, f).0);
  }

  // ---------- An assertion that fails ----------

  const LINKING: nat := FIRST + 2
  const HEAD: nat := FIRST + 3

  /** Block `LINKING` is linked to block `HEAD`, and the cache is filled. */
  function HeadRun(): seq<Event> {
    [Dispatch(Guest(), 30, 0), Dispatch(Guest(), 20, 0)] + [Dispatch(Guest(), 60, 0), Dispatch(Guest(), 70, LINKING)] + FillRun(0, 107)
  }

  /** The trace of `HEAD` is closed: the lookup for the other successor of `LINKING` flushes. */
  function FlushRun(): seq<Event> {
    HeadRun() + [Create(Guest(), HEAD), Trace(Guest(), 70, CODE_CACHE_SIZE)]
  }

  /** A block with other successors takes the place of `LINKING`, and a trace is made of the first block. */
  function AssertRun(): seq<Event> {
    FlushRun() + [Dispatch(Guest(), 90, 0)] + [Create(Guest(), FIRST), Trace(Guest(), 80, CODE_CACHE_SIZE)]
  }

  const LINK: Loc := Loc(LINKING * BLOCK_BYTES, 0)

  /** Block `LINKING` ends in a branch to 70, which is linked, and 80, which has never been reached. */
  predicate HeadLinked(t: Thread) {
    && t.gen == 0 && t.ok && t.intact && t.asserted && !t.wasFlushed && t.first == FIRST
    && t.traceNext == TRACES && t.traceId == CODE_CACHE_SIZE
    && LINKING in t.bbs && t.bbs[LINKING] == BbMeta(60, ExitOf(60), 0, 1) && LINKING !in t.actual
    && HEAD in t.bbs && t.bbs[HEAD] == BbMeta(70, ExitOf(70), 0, 1)
    && t.links == map[HEAD := [LINK]] && 80 !in t.entry
  }

  /** Two short blocks. */
  lemma ShortTwo(t: Thread, spc: nat, spc': nat)
    requires !t.wasFlushed && t.freeBlock + 1 < RESERVED && spc !in t.entry && spc' !in t.entry && spc != spc'
             && spc < LOOPS && spc' < LOOPS
    ensures Leads(t, [Dispatch(Guest(), spc, 0), Dispatch(Guest(), spc', 0)], Place(Place(t, Guest(), spc).0, Guest(), spc').0)
  {
    hide Leads, Place, Apply, FromGuest;
    ShortPlaced(t, spc);
    Scanned(t, spc);
    Scanned(Place(t, Guest(), spc).0, spc');
    LeadsTwo(t, Dispatch(Guest(), spc, 0), Dispatch(Guest(), spc', 0));
  }

  /** The first call for 70 comes from block `LINKING`, which is linked to the new block. */
  lemma LinksToHead(t: Thread) returns (r: Thread)
    requires t == Initial(FIRST).(freeBlock := LINKING, entry := t.entry, bbs := t.bbs, linked := t.linked)
    requires t.entry.Keys == {30, 20}
    ensures Leads(t, [Dispatch(Guest(), 60, 0), Dispatch(Guest(), 70, LINKING)], r) && HeadLinked(r)
            && r.freeBlock == HEAD + 1
    ensures r.entry.Keys == {30, 20, 60, 70} && r.actual == map[]
  {
    hide Leads, Place, Apply, FromGuest, Dispatcher;
    Scanned(t, 60);
    ShortPlaced(t, 60);
    var p := Place(t, Guest(), 60).0;
    r := HeadScanned(p);
    LeadsTwo(t, Dispatch(Guest(), 60, 0), Dispatch(Guest(), 70, LINKING));
  }

  lemma HeadScanned(p: Thread) returns (r: Thread)
    requires p == Initial(FIRST).(freeBlock := HEAD, entry := p.entry, bbs := p.bbs, linked := p.linked)
    requires LINKING in p.bbs && p.bbs[LINKING] == BbMeta(60, ExitOf(60), 0, 1) && p.entry.Keys == {30, 20, 60}
    ensures FromGuest(p, Dispatch(Guest(), 70, LINKING)) && r == Apply(p, Dispatch(Guest(), 70, LINKING)).0
    ensures HeadLinked(r) && r.freeBlock == HEAD + 1 && r.entry.Keys == {30, 20, 60, 70} && r.actual == map[]
  {
    hide Place, AddLink, Scanner;
    GuestScans();
    assert p.(wasFlushed := false) == p;
    ShortPlaced(p, 70);
    var (q, l) := Place(p, Guest(), 70);
    SecondLink(map[], HEAD, LINK);
    var from := Loc(LINKING * BLOCK_BYTES, 0);
    assert Patches(q, LINKING, l) == [Patch(from, l)];
    var k := LinkExit(q, LINKING, l);
    assert [Patch(from, l)][1..] == [];
    assert RecordPatches(k, [Patch(from, l)]) == RecordLink(k, from, l);
    r := RecordLink(k, from, l);
  }

  lemma ReachesHead() returns (t: Thread)
    ensures Leads(Initial(FIRST), HeadRun(), t)
    ensures HeadLinked(t) && t.freeBlock >= RESERVED
  {
    hide Leads, Place, Apply, FromGuest, FillRun, LongBlock, ExitOf;
    var i := Initial(FIRST);
    var e := [Dispatch(Guest(), 30, 0), Dispatch(Guest(), 20, 0)];
    var f := [Dispatch(Guest(), 60, 0), Dispatch(Guest(), 70, LINKING)];
    ShortTwo(i, 30, 20);
    ShortPlaced(i, 30);
    var a := Place(i, Guest(), 30).0;
    ShortPlaced(a, 20);
    var b := Place(a, Guest(), 20).0;
    var c := LinksToHead(b);
    LeadsTo(i, e, b, f, c);
    assert forall spc | LOOPS <= spc < LOOPS + 107 :: spc !in c.entry;
    t := Fill(c, 0, 107);
    LeadsTo(i, e + f, c, FillRun(0, 107), t);
  }

  /** The lookup for block `LINKING`'s other successor flushes, and the link is recorded for the block scanned then. */
  lemma HeadInstalled(t: Thread) returns (r: Thread)
    requires HeadLinked(t) && t.freeBlock >= RESERVED
    ensures Leads(t, [Create(Guest(), HEAD), Trace(Guest(), 70, CODE_CACHE_SIZE)], r)
    ensures r.gen == 1 && r.links == map[FIRST := [LINK]] && r.freeBlock == LINKING && r.actual == map[] && r.ok && r.asserted
    ensures FIRST in r.bbs && r.bbs[FIRST] == BbMeta(80, ExitOf(80), 1, 1) && r.entry.Keys == {80, 70}
    ensures r.traceNext == TRACES && r.traceId == CODE_CACHE_SIZE && r.first == FIRST
  {
    hide Leads, Place, Apply, FromGuest, InstallTrace, ExitOf, InstallLink, Erased, Written, JumpSize;
    HeadExits();
    Start(t, HEAD);
    End(t, HEAD);
    var e := Ended(Started(t, HEAD));
    LeadsTwo(t, Create(Guest(), HEAD), Trace(Guest(), 70, CODE_CACHE_SIZE));
    InstallOne(e, Guest(), 70, LINK);
    var off := e.(active := e.active.(on := false));
    var p := HeadRelinked(off);
    ShortPlaced(p, 70);
    r := Place(p, Guest(), 70).0;
  }

  lemma HeadExits()
    ensures ExitOf(60) == ExitInfo(Branch, 70, 80) && ExitOf(70) == ExitInfo(Jal, 70, 70)
            && ExitOf(80) == ExitInfo(Jal, 80, 80)
    ensures ExitOf(90) == ExitInfo(Branch, 92, 94)
  {
  }

  lemma ForgottenHead(bbs: map<nat, BbMeta>)
    ensures HEAD in bbs ==> HEAD in Forgotten(bbs) && Forgotten(bbs)[HEAD].source == bbs[HEAD].source
  {
  }

  lemma HeadRelinked(off: Thread) returns (p: Thread)
    requires HeadLinked(off.(traceNext := TRACES)) && off.freeBlock >= RESERVED && off.active.sourceBb == HEAD
    ensures p == InstallLink(off, Guest(), LINK, 70)
    ensures p.gen == 1 && p.links == map[FIRST := [LINK]] && p.freeBlock == FIRST + 1 && p.actual == map[] && p.ok && p.asserted
    ensures FIRST in p.bbs && p.bbs[FIRST] == BbMeta(80, ExitOf(80), 1, 1) && p.entry.Keys == {80} && p.wasFlushed
    ensures p.traceNext == TRACES && p.traceId == CODE_CACHE_SIZE && p.first == FIRST
  {
    hide PatchBranch, Relinked, ActiveLookupOrScan, ExitOf, Forgotten, AddLink, InstallLink, PatchTrace;
    HeadExits();
    var j := off.intact && LINK.gen == off.gen == off.active.entry.gen;
    var a := Judged(off, j);
    LinkShape(off, Guest(), LINK, 70);
    BlockCases(a, Guest(), LINK, LINKING);
    PatchBranchShape(a, Guest(), LINK, LINKING);
    Flushing(a, 80);
    var (q, l) := ActiveLookupOrScan(a, Guest(), 80);
    RelinkedFields(a, Guest(), q, LINKING, true, l, LINK);
    RelinkedLinks(a, Guest(), q, LINKING, true, l, LINK);
    ForgottenHead(a.bbs);
    FirstLink1(LINK);
    p := InstallLink(off, Guest(), LINK, 70);
  }

  /** A block with other successors takes the place of block `LINKING`. */
  predicate Replaced(t: Thread) {
    && t.gen == 1 && t.links == map[FIRST := [LINK]] && t.actual == map[] && t.ok && !t.wasFlushed
    && t.traceNext == TRACES && t.traceId == CODE_CACHE_SIZE
    && FIRST in t.bbs && t.bbs[FIRST] == BbMeta(80, ExitOf(80), 1, 1)
    && LINKING in t.bbs && t.bbs[LINKING] == BbMeta(90, ExitOf(90), 1, 1) && 92 !in t.entry && 94 !in t.entry
  }

  lemma Replaces(t: Thread) returns (r: Thread)
    requires t.gen == 1 && t.links == map[FIRST := [LINK]] && t.freeBlock == LINKING && t.actual == map[] && t.ok
    requires FIRST in t.bbs && t.bbs[FIRST] == BbMeta(80, ExitOf(80), 1, 1) && t.entry.Keys == {80, 70}
    requires t.traceNext == TRACES && t.traceId == CODE_CACHE_SIZE && t.first == FIRST
    ensures Leads(t, [Dispatch(Guest(), 90, 0)], r) && Replaced(r)
  {
    hide Leads, Place, FromGuest, Apply, ExitOf;
    var a := t.(wasFlushed := false);
    Scanned(a, 90);
    SameCall(t, 90);
    LeadsOn(t, Dispatch(Guest(), 90, 0));
    ShortPlaced(a, 90);
    r := Place(a, Guest(), 90).0;
  }

  /** Whether the latest call flushed does not matter to the next one. */
  lemma SameCall(t: Thread, spc: nat)
    ensures var a, e := t.(wasFlushed := false), Dispatch(Guest(), spc, 0);
            (FromGuest(t, e) <==> FromGuest(a, e)) && (FromGuest(t, e) ==> Apply(t, e) == Apply(a, e))
  {
    hide LookupOrScan, Scanner;
  }

  /** The link now belongs to a branch none of whose successors is a trace. */
  lemma AssertionHit(t: Thread) returns (r: Thread)
    requires Replaced(t)
    ensures Leads(t, [Create(Guest(), FIRST), Trace(Guest(), 80, CODE_CACHE_SIZE)], r) && !r.asserted && r.ok
  {
    hide Leads, Apply, FromGuest, InstallTrace, ExitOf, InstallLink, Erased, Written, JumpSize;
    HeadExits();
    Start(t, FIRST);
    End(t, FIRST);
    var e := Ended(Started(t, FIRST));
    LeadsTwo(t, Create(Guest(), FIRST), Trace(Guest(), 80, CODE_CACHE_SIZE));
    r := Apply(Started(t, FIRST), Trace(Guest(), 80, CODE_CACHE_SIZE)).0;
    InstallOne(e, Guest(), 80, LINK);
    var off := e.(active := e.active.(on := false));
    NoneFound(off);
    CommitNoExits(InstallLink(off, Guest(), LINK, 80), 80);
  }

  lemma NoneFound(off: Thread)
    requires Replaced(off.(traceNext := TRACES)) && off.active.sourceBb == FIRST
    ensures var p := InstallLink(off, Guest(), LINK, 80); p == off.(intact := p.intact, asserted := false)
  {
    hide PatchBranch, ExitOf, InstallLink, PatchTrace;
    HeadExits();
    var a := Judged(off, off.intact && LINK.gen == off.gen == off.active.entry.gen);
    LinkShape(off, Guest(), LINK, 80);
    BlockCases(a, Guest(), LINK, LINKING);
    PatchBranchShape(a, Guest(), LINK, LINKING);
  }

  /** Rewriting a block's exit may record a link whose source is discarded code. */
  lemma BlockLinkMayBeStale()
    ensures ValidRun(Initial(FIRST), FlushRun()) && GuestRun(Initial(FIRST), FlushRun())
    ensures var t := After(Initial(FIRST), FlushRun()); t.gen == 1 && Live(t, FIRST) && LinksOf(t, FIRST) == [Loc(LINKING * BLOCK_BYTES, 0)]
  {
    hide ValidRun, GuestRun, After, HeadRun, HeadLinked;
    var t := ReachesHead();
    var r := HeadInstalled(t);
    LeadsTo(Initial(FIRST), HeadRun(), t, [Create(Guest(), HEAD), Trace(Guest(), 70, CODE_CACHE_SIZE)], r);
  }

  /** At the end of this run such a link has made an assertion of `install_trace` fail. */
  lemma AssertionMayFail()
    ensures ValidRun(Initial(FIRST), AssertRun()) && GuestRun(Initial(FIRST), AssertRun())
    ensures !After(Initial(FIRST), AssertRun()).asserted
  {
    hide ValidRun, GuestRun, After, HeadRun, HeadLinked, Replaced;
    var i := Initial(FIRST);
    var t := ReachesHead();
    var a := HeadInstalled(t);
    var b := Replaces(a);
    var r := AssertionHit(b);
    var e := [Create(Guest(), FIRST), Trace(Guest(), 80, CODE_CACHE_SIZE)];
    LeadsTo(i, HeadRun(), t, [Create(Guest(), HEAD), Trace(Guest(), 70, CODE_CACHE_SIZE)], a);
    LeadsTo(i, FlushRun(), a, [Dispatch(Guest(), 90, 0)], b);
    LeadsTo(i, FlushRun() + [Dispatch(Guest(), 90, 0)], b, e, r);
  }
}
