/** Whole runs of the trace builder: every operation from every reachable state is safe. */
module TraceRuns {
  import opened CacheLayout
  import opened TraceModel
  import opened TraceSafety

  lemma ResumedClose(r: Thread, writeP: nat)
    requires Core(r) && Resumed(r, writeP)
    ensures CanClose(r, writeP)
  {
  }

  lemma FoundIsLive(r: Thread, writeP: nat, spc: nat)
    requires Core(r) && Resumed(r, writeP)
    ensures ActiveLookup(r, spc).Found? ==> LiveLoc(r, ActiveLookup(r, spc).loc)
  {
  }

  /** What is left of `trace_dispatcher` once the exit is recorded. */
  function Decide(r: Thread, env: Env, target: nat, writeP: nat): (Thread, Loc) {
    if r.wasFlushed then LookupOrScan(r, env, target)
    else if r.fragCount > MAX_TRACE_FRAGMENTS then CloseTraceLinked(r, env, target, writeP)
    else
      match ActiveLookup(r, target)
      case Found(addr) => Finish(EarlyTraceExit(r, env, writeP, addr, target), env, target, addr)
      case Missing => ExtendTrace(r, env, target, writeP)
  }

  lemma DecideSafe(r: Thread, env: Env, target: nat, writeP: nat)
    requires Scanner(env) && Core(r) && if r.wasFlushed then Inv(r) else Resumed(r, writeP)
    ensures var (s, l) := Decide(r, env, target, writeP); Done(r, s, l)
  {
    hide Core, Inv, Resumed, CanClose, LiveLoc;
    if r.wasFlushed {
      LookupDone(r, env, target);
    } else {
      ResumedClose(r, writeP);
      FoundIsLive(r, writeP, target);
      if r.fragCount > MAX_TRACE_FRAGMENTS {
        CloseLinkedSafe(r, env, target, writeP);
      } else if ActiveLookup(r, target).Found? {
        CloseWith(r, env, target, writeP, ActiveLookup(r, target).loc);
      } else {
        ExtendSafe(r, env, target, writeP);
      }
    }
  }

  lemma TraceSafe(t: Thread, env: Env, target: nat)
    requires Inv(t) && Scanner(env) && LiveActive(t) && DirectExit(LastFrag(t).exit.kind)
    ensures var (r, l) := TraceDispatcher(t, env, target, t.active.id - 1); Done(t, r, l)
  {
    var src, writeP := t.active.id - 1, ResumeAt(LastFrag(t));
    AtOpenExit(t);
    TakeExitSafe(t, env, target);
    FirstGuardHolds(t, env, target);
    hide Core, Inv, Resumed, LiveLoc, LiveActive, TakeExit, StubsFit, TraceDispatcher, Decide;
    DispatcherDecides(t, env, target, src);
    DecideSafe(TakeExit(t, env, target, src), env, target, writeP);
  }

  lemma DispatcherDecides(t: Thread, env: Env, target: nat, src: nat)
    requires src in t.frags && DirectExit(t.frags[src].exit.kind)
    requires var r := TakeExit(t, env, target, src); r.wasFlushed || StubsFit(r.active.exits, ResumeAt(t.frags[src]) + STUB_MAX)
    ensures TraceDispatcher(t, env, target, src) == Decide(TakeExit(t, env, target, src), env, target, ResumeAt(t.frags[src]))
  {
    hide TakeExit, StubsFit, LookupOrScan, CloseTraceLinked, ActiveLookup, Finish, EarlyTraceExit, ExtendTrace,
         CloseTrace;
  }

  predicate DirectExit(kind: ExitType) {
    kind == Jal || kind == Branch
  }

  lemma ClearFlag(t: Thread)
    requires Inv(t)
    ensures Inv(t.(wasFlushed := false))
  {
    ClearFlagCore(t);
    hide Core, ExitsOk, WellShaped;
  }

  // ---------- create_trace ----------

  /** The fresh trace, before its first fragment is scanned. */
  function NewTrace(t: Thread, bb: nat): Thread {
    var next := AlignUp(t.traceNext);
    t.(fragCount := 0, traceNext := next, wasFlushed := false,
       active := Active(true, t.traceId, bb, next, Loc(next, t.gen), []))
  }

  lemma NewTraceCore(t: Thread, bb: nat)
    requires Inv(t) && !TraceCacheFull(t.(traceNext := AlignUp(t.traceNext))) && t.gen >= 0
    ensures var r := NewTrace(t, bb);
            && Core(r) && r.active.writeP == r.traceNext && r.traceNext % 2 == 0 && r.traceNext >= TRACES
            && (r.active.writeP == TRACES <==> r.active.id == CODE_CACHE_SIZE)
            && r.active.id < CODE_CACHE_SIZE + TRACE_FRAGMENT_NO - TRACE_FRAGMENT_OVERP
            && forall id | CODE_CACHE_SIZE <= id < r.active.id && id in r.frags :: r.frags[id].tpc <= r.active.writeP
  {
    AlignUpEven(t.traceNext);
    hide AlignUp;
  }

  lemma AlignUpEven(a: nat)
    ensures AlignUp(a) >= a && AlignUp(a) % 2 == 0 && (a >= TRACES ==> (AlignUp(a) == TRACES <==> a == TRACES))
  {
  }

  /** The size cut-off never applies to the first fragment. */
  lemma NotCutOff(n: Thread, env: Env, spc: nat)
    requires n.active.writeP == n.active.entry.addr && n.fragCount == 0
    ensures ScanTrace(n, env, spc, RESTORE_CONTEXT).0.fragCount == 1
  {
  }

  lemma FirstFragment(t: Thread, bb: nat, r: Thread, id: nat)
    requires bb in t.bbs && t.bbs[bb].gen == t.gen && r.fragCount == 1
    requires Core(NewTrace(t, bb)) && Appended(NewTrace(t, bb), r, id)
             && r.frags[id].exitAddr >= r.active.writeP + RESTORE_CONTEXT
    requires t.traceId < CODE_CACHE_SIZE + TRACE_FRAGMENT_NO - TRACE_FRAGMENT_OVERP
    ensures Inv(r)
  {
  }

  lemma FlushedInv(t: Thread, next: nat)
    requires Inv(t) && next == AlignUp(t.traceNext)
    ensures Inv(Flush(t.(fragCount := 0, traceNext := next)))
  {
    AlignUpEven(t.traceNext);
    FlushCore(t.(fragCount := 0, traceNext := next));
  }

  lemma CreateSafe(t: Thread, env: Env, bb: nat)
    requires Inv(t) && Scanner(env) && bb in t.bbs && t.bbs[bb].gen == t.gen
    ensures var (r, l) := CreateTrace(t, env, bb); Done(t, r, l)
  {
    hide Core, Inv, Appended, WellShaped, LiveLoc, LookupOrScan, ScanTrace, AlignUp;
    var spc, next := t.bbs[bb].source, AlignUp(t.traceNext);
    var a := t.(fragCount := 0, traceNext := next);
    if TraceCacheFull(a) {
      FlushedInv(t, next);
      LookupDone(Flush(a), env, spc);
    } else {
      NewTraceCore(t, bb);
      var n := NewTrace(t, bb);
      ScanTraceSafe(n, env, spc, RESTORE_CONTEXT);
      var (r, len, id) := ScanTrace(n, env, spc, RESTORE_CONTEXT);
      if r.wasFlushed {
        LookupDone(r, env, spc);
      } else {
        NotCutOff(n, env, spc);
        AppendedFacts(n, r, id);
        FirstFragment(t, bb, r, id);
        InTraceArea(r, next);
      }
    }
  }

  // ---------- dispatcher ----------

  predicate PatchesLive(t: Thread, ps: seq<Patch>) {
    forall i | 0 <= i < |ps| :: LiveLoc(t, ps[i].from) && LiveLoc(t, ps[i].to)
  }

  lemma {:induction false} RecordPatchesInv(t: Thread, ps: seq<Patch>)
    requires Inv(t)
    ensures var r := RecordPatches(t, ps); r == t.(links := r.links) && Inv(r)
    decreases |ps|
  {
    if ps != [] {
      var s := RecordLink(t, ps[0].from, ps[0].to);
      RecordLinkFollows(t, ps[0].from, ps[0].to);
      InvFollows(t, s);
      RecordPatchesInv(s, ps[1..]);
    }
  }

  /** A source that survived the lookup is as live as before, and so is every jump written to it. */
  lemma PatchesAreLive(t: Thread, r: Thread, l: Loc, src: nat)
    requires Core(r) && LiveLoc(r, l) && Follows(t, r) && !r.wasFlushed && src in r.bbs
    requires Core(t) && src in t.bbs && t.bbs[src].gen == t.gen && src != 0
    ensures PatchesLive(r, Patches(r, src, l))
  {
    assert r.bbs[src] == t.bbs[src];
    forall spc | spc in r.entry ensures LiveLoc(r, r.entry[spc]) { }
    assert LiveLoc(r, Loc(src * BLOCK_BYTES, r.gen));
  }

  /** Neither link lists nor the exits of blocks occur in any of the invariants. */
  predicate SameButLinks(t: Thread, r: Thread) {
    r == t.(links := r.links, linked := r.linked, asserted := r.asserted)
  }

  lemma PatchesKept(t: Thread, ps: seq<Patch>, r: Thread)
    requires PatchesLive(t, ps) && SameButLinks(t, r)
    ensures PatchesLive(r, ps)
  {
  }

  lemma LinkExitShape(t: Thread, src: nat, l: Loc)
    requires src in t.bbs
    ensures var r := LinkExit(t, src, l); r == t.(linked := r.linked, asserted := r.asserted)
  {
    hide Translation;
  }

  lemma LinkExitInv(t: Thread, src: nat, l: Loc)
    requires Inv(t) && src in t.bbs
    ensures Inv(LinkExit(t, src, l)) && SameButLinks(t, LinkExit(t, src, l))
  {
    hide Inv, Core, Follows, LinkExit;
    var r := LinkExit(t, src, l);
    LinkExitShape(t, src, l);
    CoreOf(t);
    HistoryFollows(t, r.linked, r.asserted, t.intact);
    InvFollows(t, r);
  }

  lemma DispatcherSafe(t: Thread, env: Env, target: nat, src: nat)
    requires Inv(t) && Scanner(env) && (src != 0 ==> src in t.bbs && t.bbs[src].gen == t.gen)
    ensures var (r, l, ps) := Dispatcher(t, env, target, src); Done(t, r, l) && PatchesLive(r, ps)
  {
    hide Core, Inv, LiveLoc, Follows, Patches, PatchesLive, LookupOrScan, LinkExit, RecordPatches;
    var a := t.(wasFlushed := false);
    ClearFlag(t);
    CoreOf(a);
    LookupFollows(a, env, target);
    LookupDone(a, env, target);
    var (r, l) := LookupOrScan(a, env, target);
    CoreOf(r);
    NoPatches(r);
    if src != 0 && !r.wasFlushed && src in r.bbs {
      LinkedSafe(a, r, l, src);
      assert Dispatcher(t, env, target, src) == (RecordPatches(LinkExit(r, src, l), Patches(r, src, l)), l, Patches(r, src, l));
    } else {
      assert Dispatcher(t, env, target, src) == (r, l, []);
    }
  }

  /** Linking after a lookup that did not flush. */
  lemma LinkedSafe(a: Thread, r: Thread, l: Loc, src: nat)
    requires Core(a) && Inv(r) && LiveLoc(r, l) && Follows(a, r) && !r.wasFlushed && src in r.bbs
    requires src in a.bbs && a.bbs[src].gen == a.gen && src != 0
    ensures var s := RecordPatches(LinkExit(r, src, l), Patches(r, src, l));
            Done(r, s, l) && PatchesLive(s, Patches(r, src, l)) && SameButLinks(r, s)
  {
    hide Core, Inv, LiveLoc, Follows, Patches, PatchesLive, LinkExit, RecordPatches;
    CoreOf(r);
    var ps := Patches(r, src, l);
    PatchesAreLive(a, r, l, src);
    LinkExitInv(r, src, l);
    RecordPatchesInv(LinkExit(r, src, l), ps);
    var s := RecordPatches(LinkExit(r, src, l), ps);
    PatchesKept(r, ps, s);
    LiveKept(r, s, l);
  }

  lemma CoreOf(t: Thread)
    requires Inv(t)
    ensures Core(t)
  {
  }

  lemma NoPatches(t: Thread)
    ensures PatchesLive(t, [])
  {
  }

  lemma LiveKept(t: Thread, r: Thread, l: Loc)
    requires LiveLoc(t, l) && SameButLinks(t, r)
    ensures LiveLoc(r, l) && r.gen == t.gen
  {
  }

  // ---------- Runs ----------

  /** One call from the code cache into the translator, with the scanner's answers during that call. */
  datatype Event =
    | Create(env: Env, bb: nat)
    | Trace(env: Env, target: nat, src: nat)
    | Dispatch(env: Env, target: nat, src: nat)

  /**
   The caller is live code: a block hot enough to head a trace, the open exit of the trace in progress, an
   indirect exit of any fragment, or a block's exit.
   */
  ghost predicate Enabled(t: Thread, e: Event) {
    Scanner(e.env) &&
    match e
    case Create(_, bb) => bb in t.bbs && t.bbs[bb].gen == t.gen && DirectExit(t.bbs[bb].exit.kind)
    case Trace(_, _, src) =>
      && src in t.frags
      && (t.frags[src].exit.kind == Jalr || (DirectExit(t.frags[src].exit.kind) && LiveActive(t) && src == t.active.id - 1))
    case Dispatch(_, _, src) => src != 0 ==> src in t.bbs && t.bbs[src].gen == t.gen
  }

  ghost function Apply(t: Thread, e: Event): (Thread, Loc, seq<Patch>)
    requires Enabled(t, e)
  {
    match e
    case Create(env, bb) => var (r, l) := CreateTrace(t, env, bb); (r, l, [])
    case Trace(env, target, src) => var (r, l) := TraceDispatcher(t, env, target, src); (r, l, [])
    case Dispatch(env, target, src) => Dispatcher(t, env, target, src)
  }

  lemma ApplySafe(t: Thread, e: Event)
    requires Inv(t) && Enabled(t, e)
    ensures var (r, l, ps) := Apply(t, e); Done(t, r, l) && PatchesLive(r, ps)
  {
    hide Inv, Core, LiveLoc, LiveActive, CreateTrace, Dispatcher, PatchesLive;
    match e {
      case Create(env, bb) =>
        CreateSafe(t, env, bb);
        NoPatches(Apply(t, e).0);
      case Trace(env, target, src) =>
        IndirectSafe(t, env, target);
        if t.frags[src].exit.kind != Jalr { TraceSafe(t, env, target); }
        NoPatches(Apply(t, e).0);
      case Dispatch(env, target, src) => DispatcherSafe(t, env, target, src);
    }
  }

  lemma IndirectSafe(t: Thread, env: Env, target: nat)
    requires Inv(t) && Scanner(env)
    ensures var (r, l) := LookupOrScan(t.(wasFlushed := false), env, target); Done(t, r, l)
  {
    ClearFlag(t);
    LookupDone(t.(wasFlushed := false), env, target);
  }

  /** The thread right after initialisation. */
  function Initial(first: nat): Thread {
    Thread(true, true, true, 0, false, first, first, map[], map[], map[], map[], map[], TRACES, CODE_CACHE_SIZE, 0,
           Active(false, CODE_CACHE_SIZE, 0, 0, Loc(0, 0), []), map[], map[])
  }

  ghost predicate ValidRun(t: Thread, events: seq<Event>)
    decreases |events|
  {
    events == [] || (Enabled(t, events[0]) && ValidRun(Apply(t, events[0]).0, events[1..]))
  }

  ghost function After(t: Thread, events: seq<Event>): Thread
    requires ValidRun(t, events)
    decreases |events|
  {
    if events == [] then t else After(Apply(t, events[0]).0, events[1..])
  }

  lemma {:induction false} RunKeepsInv(t: Thread, events: seq<Event>)
    requires Inv(t) && ValidRun(t, events)
    ensures Inv(After(t, events))
    decreases |events|
  {
    if events != [] {
      ApplySafe(t, events[0]);
      RunKeepsInv(Apply(t, events[0]).0, events[1..]);
    }
  }

  lemma InitialInv(first: nat)
    requires 0 < first < CODE_CACHE_SIZE - CODE_CACHE_OVERP
    ensures Inv(Initial(first))
  {
  }

  /**
   Every run from initialisation: no assertion has failed, every published translation is live, and whatever the
   next call returns or patches is live as well.
   */
  lemma EveryRunSafe(first: nat, events: seq<Event>, e: Event)
    requires 0 < first < CODE_CACHE_SIZE - CODE_CACHE_OVERP && ValidRun(Initial(first), events)
    requires Enabled(After(Initial(first), events), e)
    ensures var t := After(Initial(first), events);
            var (r, l, ps) := Apply(t, e);
            && t.ok && (forall spc | spc in t.entry :: LiveLoc(t, t.entry[spc]))
            && r.ok && LiveLoc(r, l) && PatchesLive(r, ps)
  {
    hide Enabled, Apply, LiveLoc, PatchesLive, InProgress, Sorted, BlocksOwned, LiveActive;
    InitialInv(first);
    RunKeepsInv(Initial(first), events);
    ApplySafe(After(Initial(first), events), e);
  }

  /** In every reachable state at most 21 exits are recorded for the trace in progress, and the fragment ids suffice. */
  lemma ExitsAndIdsBounded(first: nat, events: seq<Event>)
    requires 0 < first < CODE_CACHE_SIZE - CODE_CACHE_OVERP && ValidRun(Initial(first), events)
    ensures var t := After(Initial(first), events);
            && (LiveActive(t) ==> (
                  && |t.active.exits| < MAX_TRACE_REC_EXITS && t.active.id - 1 in t.frags
                  && StubsFit(t.active.exits, LastFrag(t).end)))
            && t.active.id <= CODE_CACHE_SIZE + TRACE_FRAGMENT_NO - TRACE_FRAGMENT_OVERP + MAX_TRACE_REC_EXITS
  {
    RunKeepsInv(Initial(first), events);
  }

  /** A trace discarded by a flush, before or during its installation, is not published. */
  lemma NoCommitAfterFlush(t: Thread, env: Env)
    requires Core(t) && Scanner(env) && t.active.on && (Installable(t) || Dead(t))
    ensures var r := InstallTrace(t, env);
            if r.wasFlushed then t.active.entry !in r.entry.Values && r.traceId == r.active.id
            else t.active.entry in r.entry.Values && r.gen == t.gen && r.traceId == t.active.id
  {
    InstallSafe(t, env);
    var r := InstallTrace(t, env);
    if r.wasFlushed {
      forall spc | spc in r.entry ensures r.entry[spc] != t.active.entry { assert LiveLoc(r, r.entry[spc]); }
    }
  }

  /**
   Where a trace is closed at the fragment limit (or after the scanner gave up), the link recorded for the closing
   jump comes from live code exactly when the lookup before it did not flush. After a flush the recorded source is
   an address of discarded code.
   */
  lemma ClosingLinkLiveIff(t: Thread, env: Env, target: nat, writeP: nat)
    requires Core(t) && Scanner(env) && LiveActive(t) && ActiveLookup(t, target).Missing?
    ensures var (r, l) := ActiveLookupOrScan(t, env, target);
            var s := RecordLink(r, Loc(writeP, t.gen), l);
            && LinksOf(s, BbId(l.addr)) == [Loc(writeP, t.gen)] + LinksOf(r, BbId(l.addr))
            && (LinksOf(s, BbId(l.addr))[0].gen == s.gen <==>
                target in t.entry || t.freeBlock < CODE_CACHE_SIZE - CODE_CACHE_OVERP)
  {
    LookupFollows(t, env, target);
  }
}
