/**
 Which calls install a trace, and in what state: in a run whose installations all pass the guard of `TracePatches`,
 installed traces and linked blocks go where the guest goes.
 */
module TraceHistory {
  import opened CacheLayout
  import opened TraceModel
  import opened TraceSafety
  import opened TraceRuns
  import opened TraceCode
  import opened TraceMeaning
  import opened TracePatches
  import opened TraceTranslation

  /** The state in which a call reaches `install_trace`, if it does. */
  datatype Point = Nowhere | Before(state: Thread)

  function ClosePoint(t: Thread, env: Env, target: nat, writeP: nat): Thread {
    var (r, addr) := ActiveLookupOrScan(t, env, target);
    Closed(r, writeP, addr, target)
  }

  function CloseLinkedPoint(t: Thread, env: Env, target: nat, writeP: nat): Thread {
    match ActiveLookup(t, target)
    case Found(l) => Closed(t, writeP, l, target)
    case Missing =>
      var (r, l) := ActiveLookupOrScan(t, env, target);
      Closed(RecordLink(r, Loc(writeP, t.gen), l), writeP, l, target)
  }

  function ExtendPoint(t: Thread, env: Env, target: nat, writeP: nat): Point {
    var (r, len, id) := ScanTrace(t, env, target, 0);
    if r.wasFlushed then Nowhere
    else
      var e, u := r.(active := r.active.(writeP := r.active.writeP + 2 * len)), r.(active := t.active.(writeP := writeP));
      if len == 0 then Before(CloseLinkedPoint(u, env, target, writeP))
      else if !StubsFit(e.active.exits, e.active.writeP) then Before(ClosePoint(u, env, target, writeP))
      else if r.frags[id].exit.kind == Jalr then Before(e)
      else Nowhere
  }

  function DecidePoint(r: Thread, env: Env, target: nat, writeP: nat): Point {
    if r.wasFlushed then Nowhere
    else if r.fragCount > MAX_TRACE_FRAGMENTS then Before(CloseLinkedPoint(r, env, target, writeP))
    else
      match ActiveLookup(r, target)
      case Found(addr) => Before(Closed(r, writeP, addr, target))
      case Missing => ExtendPoint(r, env, target, writeP)
  }

  /** Only `trace_dispatcher` installs traces. */
  function InstallPoint(t: Thread, e: Event): Point {
    if e.Trace? && e.src in t.frags && t.frags[e.src].exit.kind != Jalr then
      DecidePoint(TakeExit(t, e.env, e.target, e.src), e.env, e.target, ResumeAt(t.frags[e.src]))
    else Nowhere
  }

  /** The call installs nothing, or its trace can be installed. */
  predicate Guarded(p: Point, env: Env) {
    p.Before? ==> CanInstall(p.state, env)
  }

  // ---------- One call ----------

  lemma LookupIntact(t: Thread, env: Env, spc: nat)
    ensures LookupOrScan(t, env, spc).0.intact == t.intact && ActiveLookupOrScan(t, env, spc).0.intact == t.intact
  {
    hide MarkOverflow, Forgotten, KeptLinks;
  }

  lemma FinishIntact(t: Thread, env: Env, target: nat, addr: Loc)
    ensures Finish(t, env, target, addr).0.intact == t.intact
  {
    hide LookupOrScan;
    LookupIntact(t, env, target);
  }

  lemma EarlyIntactIff(t: Thread, env: Env, target: nat, writeP: nat, addr: Loc)
    requires Core(t) && Scanner(env) && Closable(t, target, writeP, addr)
    ensures Finish(EarlyTraceExit(t, env, writeP, addr, target), env, target, addr).0.intact
            <==> t.intact && CanInstall(Closed(t, writeP, addr, target), env)
  {
    hide Core, Cache, CanClose, Installable, At, Open, Finished, Scanner, InstallTrace, CacheTo, Finish, CanInstall, Dead;
    var c := Closed(t, writeP, addr, target);
    ClosableCases(t, target, writeP, addr);
    EarlyReady(t, writeP, addr, target);
    IdsOrdered(t);
    if !Dead(t) { JumpFinishes(t, target, writeP, addr); }
    InstallIntactIff(c, env);
    FinishIntact(InstallTrace(c, env), env, target, addr);
    ClosedIntact(t, writeP, addr, target);
  }

  lemma ClosedIntact(t: Thread, writeP: nat, addr: Loc, spc: nat)
    ensures Closed(t, writeP, addr, spc).intact == t.intact
  {
  }

  lemma CloseIntactIff(t: Thread, env: Env, target: nat, writeP: nat)
    requires Core(t) && Scanner(env) && Cache(t) && CanClose(t, writeP) && Open(t, target, writeP)
    ensures CloseTrace(t, env, target, writeP).0.intact <==> t.intact && CanInstall(ClosePoint(t, env, target, writeP), env)
  {
    hide Core, Cache, CanClose, Open, Scanner, ActiveLookupOrScan, EarlyTraceExit, Finish, Closable, Dead, CanInstall,
         Closed;
    CloseLookup(t, env, target, writeP);
    LookupIntact(t, env, target);
    var (r, addr) := ActiveLookupOrScan(t, env, target);
    EarlyIntactIff(r, env, target, writeP, addr);
  }

  lemma RecordedIntact(t: Thread, from: Loc, to: Loc)
    ensures RecordLink(t, from, to).intact == t.intact
  {
    hide AddLink;
  }

  lemma CloseLinkedIntactIff(t: Thread, env: Env, target: nat, writeP: nat)
    requires Core(t) && Scanner(env) && Cache(t) && CanClose(t, writeP) && Open(t, target, writeP)
    ensures CloseTraceLinked(t, env, target, writeP).0.intact <==> t.intact && CanInstall(CloseLinkedPoint(t, env, target, writeP), env)
  {
    hide Core, Cache, CanClose, Open, Scanner, ActiveLookupOrScan, EarlyTraceExit, Finish, Closable, Dead, CanInstall,
         Closed;
    hide ActiveLookup, RecordLink;
    InTraces(t, writeP);
    match ActiveLookup(t, target) {
      case Found(l) =>
        CloseFound(t, target, writeP);
        EarlyIntactIff(t, env, target, writeP, l);
      case Missing =>
        CloseLookup(t, env, target, writeP);
        LookupIntact(t, env, target);
        var (r, l) := ActiveLookupOrScan(t, env, target);
        ClosableRecorded(r, target, writeP, l, t.gen);
        RecordedIntact(r, Loc(writeP, t.gen), l);
        EarlyIntactIff(RecordLink(r, Loc(writeP, t.gen), l), env, target, writeP, l);
    }
  }

  lemma ScanIntact(t: Thread, env: Env, spc: nat, prefix: nat)
    ensures ScanTrace(t, env, spc, prefix).0.intact == t.intact
  {
    hide NewFragment, Flush, TooLong;
    FragmentIntact(t, env, spc, prefix);
    FlushIntact(NewFragment(t, env, spc, prefix));
  }

  lemma FragmentIntact(t: Thread, env: Env, spc: nat, prefix: nat)
    ensures NewFragment(t, env, spc, prefix).intact == t.intact
  {
    hide Erased;
  }

  lemma FlushIntact(t: Thread)
    ensures Flush(t).intact == t.intact
  {
    hide Forgotten, KeptLinks;
  }

  lemma InstalledIntact(e: Thread, env: Env, target: nat, writeP: nat)
    requires Core(e) && Installable(e) && Scanner(env) && Cache(e) && Finished(e) && Pending(e) == 0
    ensures InstallTrace(e, env).intact <==> e.intact && CanInstall(e, env)
    ensures forall s: Thread :: LookupOrScan(s, env, target).0.intact == s.intact
  {
    hide Core, Cache, Finished, Scanner, InstallTrace, LookupOrScan, CanInstall;
    InstallableOn(e);
    IdsOrdered(e);
    CacheWider(e);
    InstallIntactIff(e, env);
    forall s: Thread ensures LookupOrScan(s, env, target).0.intact == s.intact { LookupIntact(s, env, target); }
  }

  lemma ExtendIntactIff(t: Thread, env: Env, target: nat, writeP: nat)
    requires Core(t) && Scanner(env) && Resumed(t, writeP) && t.fragCount <= MAX_TRACE_FRAGMENTS && Cache(t)
             && Open(t, target, writeP)
    ensures ExtendTrace(t, env, target, writeP).0.intact <==> t.intact && Guarded(ExtendPoint(t, env, target, writeP), env)
  {
    hide Core, Resumed, Appended, Inv, Installable, CanClose, WellShaped, Cache, Open, Meaning, Finished, Longer, FragAt;
    hide ScanTrace, InstallTrace, LookupOrScan, CloseTraceLinked, CloseTrace, StubsFit, CanInstall, ClosePoint,
         CloseLinkedPoint, Written;
    ScanReady(t, writeP);
    OpenBehind(t, target, writeP);
    IdsOrdered(t);
    ScanTraceSafe(t, env, target, 0);
    ScanMeans(t, env, target, 0);
    ScanIntact(t, env, target, 0);
    var (r, len, id) := ScanTrace(t, env, target, 0);
    if r.wasFlushed {
      LookupIntact(r, env, target);
    } else {
      AppendedFacts(t, r, id);
      UndoAppend(t, r, id, writeP);
      UndoMeans(t, r, target, writeP);
      var u := r.(active := t.active);
      CacheMoved(r, u);
      if len == 0 {
        CloseLinkedIntactIff(u, env, target, writeP);
      } else {
        var e := r.(active := r.active.(writeP := writeP + 2 * len));
        CacheMoved(r, e);
        if !StubsFit(e.active.exits, e.active.writeP) {
          CloseIntactIff(u, env, target, writeP);
        } else if r.frags[id].exit.kind == Jalr {
          InstallAppended(t, r, id, writeP);
          LongerMeans(t, r, target, writeP);
          LongerFacts(t, r, target, writeP);
          IndirectFinished(r, writeP + 2 * len);
          InstalledIntact(e, env, target, writeP);
        }
      }
    }
  }

  lemma DecideIntactIff(r: Thread, env: Env, target: nat, writeP: nat)
    requires Scanner(env) && Core(r) && Cache(r)
    requires !r.wasFlushed ==> Resumed(r, writeP) && Open(r, target, writeP)
    ensures Decide(r, env, target, writeP).0.intact <==> r.intact && Guarded(DecidePoint(r, env, target, writeP), env)
  {
    hide Core, Resumed, CanClose, Cache, Open, LookupOrScan, CloseTraceLinked, ExtendTrace, EarlyTraceExit, Scanner;
    hide Finish, ActiveLookup, CanInstall, ExtendPoint, CloseLinkedPoint, Closable, Closed;
    if r.wasFlushed {
      LookupIntact(r, env, target);
    } else {
      ResumedClose(r, writeP);
      if r.fragCount > MAX_TRACE_FRAGMENTS {
        CloseLinkedIntactIff(r, env, target, writeP);
      } else if ActiveLookup(r, target).Found? {
        CloseFound(r, target, writeP);
        EarlyIntactIff(r, env, target, writeP, ActiveLookup(r, target).loc);
      } else {
        ExtendIntactIff(r, env, target, writeP);
      }
    }
  }

  lemma TakeExitIntact(t: Thread, env: Env, target: nat, src: nat)
    requires src in t.frags
    ensures TakeExit(t, env, target, src).intact == t.intact
  {
    hide LookupOrScan, ActiveLookup;
    var m, a := t.frags[src], t.(wasFlushed := false);
    LookupIntact(a, env, m.exit.taken);
    LookupIntact(a, env, m.exit.skipped);
  }

  lemma TraceIntactIff(t: Thread, env: Env, target: nat)
    requires Sound(t) && Scanner(env) && LiveActive(t)
    requires DirectExit(LastFrag(t).exit.kind) && IsSuccessor(LastFrag(t).exit, target)
    ensures TraceDispatcher(t, env, target, t.active.id - 1).0.intact
            <==> t.intact && Guarded(DecidePoint(TakeExit(t, env, target, t.active.id - 1), env, target, ResumeAt(LastFrag(t))), env)
  {
    hide Core, Inv, Resumed, Cache, Open, TakeExit, StubsFit, TraceDispatcher, Decide, DecidePoint, LiveActive,
         Meaning, CanInstall;
    LastBehind(t);
    AtOpenExit(t);
    TakeExitSafe(t, env, target);
    FirstGuardHolds(t, env, target);
    TakeExitMeans(t, env, target);
    TakeExitIntact(t, env, target, t.active.id - 1);
    DispatcherDecides(t, env, target, t.active.id - 1);
    DecideIntactIff(TakeExit(t, env, target, t.active.id - 1), env, target, ResumeAt(LastFrag(t)));
  }

  lemma CreateIntact(t: Thread, env: Env, bb: nat)
    requires bb in t.bbs
    ensures CreateTrace(t, env, bb).0.intact == t.intact
  {
    hide LookupOrScan, ScanTrace, AlignUp, Forgotten, KeptLinks;
    var spc, next := t.bbs[bb].source, AlignUp(t.traceNext);
    var a := t.(fragCount := 0, traceNext := next);
    LookupIntact(Flush(a), env, spc);
    var n := NewTrace(t, bb);
    ScanIntact(n, env, spc, RESTORE_CONTEXT);
    LookupIntact(ScanTrace(n, env, spc, RESTORE_CONTEXT).0, env, spc);
  }

  lemma {:induction false} PatchesIntact(t: Thread, ps: seq<Patch>)
    ensures RecordPatches(t, ps).intact == t.intact
    decreases |ps|
  {
    hide AddLink;
    if ps != [] { PatchesIntact(RecordLink(t, ps[0].from, ps[0].to), ps[1..]); }
  }

  lemma DispatcherIntact(t: Thread, env: Env, target: nat, src: nat)
    requires src != 0 ==> src in t.bbs
    ensures Dispatcher(t, env, target, src).0.intact == t.intact
  {
    hide LookupOrScan, LinkExit, RecordPatches, Patches;
    var a := t.(wasFlushed := false);
    LookupIntact(a, env, target);
    var (r, l) := LookupOrScan(a, env, target);
    if src in r.bbs {
      LinkExitShape(r, src, l);
      PatchesIntact(LinkExit(r, src, l), Patches(r, src, l));
    }
  }

  /** One call keeps the history clean if and only if the guard holds where it reaches `install_trace`. */
  lemma ApplyIntactIff(t: Thread, e: Event)
    requires Sound(t) && FromGuest(t, e)
    ensures Apply(t, e).0.intact <==> t.intact && Guarded(InstallPoint(t, e), e.env)
  {
    hide Sound, CreateTrace, TraceDispatcher, Dispatcher, LiveActive, LookupOrScan, DecidePoint, CanInstall, TakeExit;
    match e {
      case Create(env, bb) => CreateIntact(t, env, bb);
      case Trace(env, target, src) =>
        if t.frags[src].exit.kind == Jalr { IndirectIntact(t, env, target, src); } else { TraceIntactIff(t, env, target); }
      case Dispatch(env, target, src) => DispatcherIntact(t, env, target, src);
    }
  }

  lemma IndirectIntact(t: Thread, env: Env, target: nat, src: nat)
    requires src in t.frags && t.frags[src].exit.kind == Jalr
    ensures TraceDispatcher(t, env, target, src).0.intact == t.intact
  {
    hide LookupOrScan, TakeExit;
    LookupIntact(t.(wasFlushed := false), env, target);
  }

  // ---------- Runs ----------

  /** In every call of the run that installs a trace the guard holds. */
  ghost predicate Careful(t: Thread, events: seq<Event>)
    requires ValidRun(t, events)
    decreases |events|
  {
    events == [] || (Guarded(InstallPoint(t, events[0]), events[0].env) && Careful(Apply(t, events[0]).0, events[1..]))
  }

  lemma {:induction false} RunIntactIff(t: Thread, events: seq<Event>)
    requires Sound(t) && ValidRun(t, events) && GuestRun(t, events)
    ensures After(t, events).intact <==> t.intact && Careful(t, events)
    decreases |events|
  {
    hide Sound, FromGuest, Apply, Enabled, InstallPoint, CanInstall;
    if events != [] {
      ApplyIntactIff(t, events[0]);
      StepTranslates(t, events[0]);
      TranslatedSound(t, events[0]);
      RunIntactIff(Apply(t, events[0]).0, events[1..]);
    }
  }

  /**
   Every run from initialisation: each published address translates the guest address it is published under, and the
   next call returns a translation of the address it asks for and patches in translations of successors only. The
   history is clean exactly if the guard has held in every call that reached `install_trace`, and then every installed
   trace leaves each of its fragments, and every linked block its exit, for translations of the right successors, and
   no assertion on links has failed.
   */
  lemma EveryRunTranslates(first: nat, events: seq<Event>, e: Event)
    requires 0 < first < CODE_CACHE_SIZE - CODE_CACHE_OVERP && ValidRun(Initial(first), events)
             && GuestRun(Initial(first), events)
    requires FromGuest(After(Initial(first), events), e)
    ensures var t := After(Initial(first), events);
            var (r, l, ps) := Apply(t, e);
            && (forall spc | spc in t.entry :: At(t, t.traceId, spc, t.entry[spc]))
            && (Careful(Initial(first), events) ==> t.asserted && Installed(t, 0, t.traceId) && ExitsRight(t, t.traceId))
            && (t.intact <==> Careful(Initial(first), events))
            && Lands(r, Wanted(t, e), l) && (ps != [] ==> e.Dispatch? && PatchesMean(r, e.src, ps))
  {
    InitialSound(first);
    RunKeepsSound(Initial(first), events);
    RunIntactIff(Initial(first), events);
    StepTranslates(After(Initial(first), events), e);
  }
}
