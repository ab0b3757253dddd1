/**
 Every operation of the trace builder, and with it every run, keeps the cache right: what is handed to the guest
 translates the address it asked for, and what is patched translates a successor of the patched block.
 */
module TraceTranslation {
  import opened CacheLayout
  import opened TraceModel
  import opened TraceSafety
  import opened TraceRuns
  import opened TraceCode
  import opened TraceMeaning

  /** Where control can go from an exit; indirect exits go anywhere. */
  predicate IsSuccessor(x: ExitInfo, target: nat) {
    DirectExit(x.kind) ==> DirectSuccessor(x, target)
  }

  /** Execution from `l` runs a translation of `spc`, at once or by way of the jump back from the dispatcher. */
  predicate Lands(t: Thread, spc: nat, l: Loc) {
    || At(t, t.active.id, spc, l)
    || (l.gen == t.gen && l.addr in t.code && t.code[l.addr].Bounce?
        && FragAt(t.frags, t.active.id, spc, Loc(t.code[l.addr].start, t.gen)))
  }

  /** The cache is right, and so is the trace in progress. */
  ghost predicate Sound(t: Thread) {
    Inv(t) && Cache(t) && (LiveActive(t) ==> Meaning(t))
  }

  /** The outcome of an operation asked for `spc`. */
  ghost predicate Translated(t: Thread, spc: nat, l: Loc) {
    Sound(t) && Lands(t, spc, l)
  }

  // ---------- Lookups outside a live trace ----------

  lemma LookupLands(t: Thread, env: Env, spc: nat)
    requires Inv(t) && Scanner(env) && Cache(t) && !LiveActive(t)
    ensures var (r, l) := LookupOrScan(t, env, spc); Translated(r, spc, l)
  {
    hide Core, Cache, At, LookupOrScan, Follows;
    CoreOf(t);
    LookupDone(t, env, spc);
    LookupFollows(t, env, spc);
    LookupCache(t, env, spc);
    var (r, l) := LookupOrScan(t, env, spc);
    StaysDead(t, r);
  }

  lemma LookupCache(t: Thread, env: Env, spc: nat)
    requires Core(t) && Scanner(env) && Cache(t)
    ensures var (r, l) := LookupOrScan(t, env, spc); Cache(r) && At(r, r.traceId, spc, l)
  {
    hide Core, CodeOk, Entries, At, LookupOrScan, Grown;
    LookupMeans(t, env, spc, 0, t.traceId);
    LookupFollows(t, env, spc);
    var (r, l) := LookupOrScan(t, env, spc);
    if r.gen == t.gen { GrownGen(t, r); } else { FollowsFlush(t, r); }
  }

  lemma StaysDead(t: Thread, r: Thread)
    requires Inv(t) && Follows(t, r) && !LiveActive(t)
    ensures !LiveActive(r) && (Inv(r) ==> r.active.id == r.traceId)
  {
  }

  // ---------- Closing a trace ----------

  lemma OpenGrows(t: Thread, r: Thread, target: nat, writeP: nat)
    requires Open(t, target, writeP) && SameTrace(t, r) && t.active.sourceBb < t.freeBlock && r.code == t.code
    ensures Open(r, target, writeP)
  {
    SameFields(t, r);
    FaithfulGrows(t, r);
    ChainedShrunk(t, r);
    hide Faithful, SameTrace, Ordered, Chained;
  }

  lemma OpenSame(t: Thread, r: Thread, target: nat, writeP: nat)
    requires Open(t, target, writeP) && SameBuild(t, r) && r.code == t.code
    ensures Open(r, target, writeP)
  {
    FaithfulSame(t, r);
    ChainedShrunk(t, r);
    hide Faithful, Ordered, Chained;
  }

  /** Every fragment of the trace in progress ends at or before the exit of the last one. */
  lemma EndsBefore(t: Thread)
    requires Chained(t) && t.traceId < t.active.id && t.active.id - 1 in t.frags
    ensures forall f | t.traceId <= f < t.active.id && f in t.frags :: t.frags[f].exitAddr <= t.frags[t.active.id - 1].exitAddr
  {
    hide Clear;
    var last := t.active.id - 1;
    forall f | t.traceId <= f < t.active.id && f in t.frags ensures t.frags[f].exitAddr <= t.frags[last].exitAddr {
      if f < last { assert ResumeAt(t.frags[f]) <= t.frags[last].tpc; }
    }
  }

  /** A word written behind the last exit leaves the fragments alone. */
  lemma ChainedWritten(t: Thread, at: nat, word: Patched)
    requires Chained(t) && t.traceId < t.active.id && t.active.id - 1 in t.frags
             && t.frags[t.active.id - 1].exitAddr <= at
    ensures Chained(t.(code := Written(t.code, at, word)))
  {
    EndsBefore(t);
    hide Clear, Written;
    forall f | t.traceId <= f < t.active.id ensures Clear(Written(t.code, at, word), t.frags[f]) {
      WrittenClear(t.code, at, word, t.frags[f]);
    }
  }

  lemma OpenWritten(t: Thread, target: nat, writeP: nat, word: Patched)
    requires Open(t, target, writeP)
    ensures Open(t.(code := Written(t.code, writeP, word)), target, writeP)
  {
    ChainedWritten(t, writeP, word);
    FaithfulSame(t, t.(code := Written(t.code, writeP, word)));
    hide Faithful, Ordered, Chained, Written;
  }

  /** The trace in progress with the closing jump at `writeP` written. */
  function Closed(t: Thread, writeP: nat, addr: Loc, spc: nat): Thread {
    t.(code := Written(t.code, writeP, Jump(addr, spc)), active := t.active.(writeP := writeP + JumpSize(writeP, addr.addr)))
  }

  /** A jump behind the last exit to a translation of where the guest goes finishes the trace. */
  lemma JumpFinishes(t: Thread, target: nat, writeP: nat, addr: Loc)
    requires Open(t, target, writeP) && At(t, t.active.id, target, addr) && writeP > 0
    ensures var r := Closed(t, writeP, addr, target); Finished(r) && Pending(r) == writeP && LastDone(r) && Chained(r)
  {
    hide At, Faithful, Ordered, JumpSize, Written, Chained;
    WrittenThere(t.code, writeP, Jump(addr, target));
    var r := Closed(t, writeP, addr, target);
    JumpSizes(writeP, addr.addr);
    var b := t.(active := r.active);
    OpenSame(t, b, target, writeP);
    OpenWritten(b, target, writeP, Jump(addr, target));
    AtSame(t, r, t.active.id, r.active.id, target, addr);
    OrderedMore(r.active.exits, r.traceNext, writeP, r.active.writeP);
    OpenLast(r, target, writeP);
    assert Jumps(r, writeP, r.active.id, writeP, target);
  }

  lemma JumpSizes(at: nat, target: nat)
    ensures JumpSize(at, target) == 4 || JumpSize(at, target) == STUB_MAX
  {
  }

  lemma OrderedMore(exits: seq<Exit>, start: nat, limit: nat, limit': nat)
    requires Ordered(exits, start, limit) && limit <= limit'
    ensures Ordered(exits, start, limit')
  {
  }

  lemma OpenLast(t: Thread, target: nat, writeP: nat)
    requires Open(t, target, writeP)
    ensures Pending(t) == writeP && (LastExit(t) == Branch || LastExit(t) == Jal) && t.active.id > 0
  {
  }

  /** A word written behind the installed traces leaves their words alone. */
  lemma WrittenBeyond(t: Thread, at: nat, word: Patched)
    requires t.traceNext <= at
    ensures forall a | a in t.code && Whole(t, 0, a) :: a in Written(t.code, at, word) && Written(t.code, at, word)[a] == t.code[a]
    ensures Apart(t.code, Written(t.code, at, word), t.traceNext)
  {
    hide WordSize, Written, Apart;
    WrittenApart(t.code, at, word, t.traceNext);
    forall a: nat | a in t.code && Whole(t, 0, a)
      ensures a in Written(t.code, at, word)
              && Written(t.code, at, word)[a] == t.code[a] { WrittenFrame(t.code, at, word, a); }
  }

  /** Nothing installed depends on what stands at `writeP`. */
  lemma ClosedCache(t: Thread, target: nat, writeP: nat, addr: Loc)
    requires Cache(t) && t.traceNext <= writeP && t.traceId <= t.active.id
    ensures CacheTo(Closed(t, writeP, addr, target), writeP, t.active.id) && Cache(Closed(t, writeP, addr, target))
  {
    var r := Closed(t, writeP, addr, target);
    WrittenBeyond(t, writeP, Jump(addr, target));
    CacheKept(t, r);
    hide CodeOk, At, JumpSize, Written;
    if t.intact { CodeCarried(t, 0, t.traceId, r, writeP, t.active.id, -1); }
  }

  /** Ready to be closed by a jump to `addr`, or discarded by a flush. */
  predicate Closable(t: Thread, target: nat, writeP: nat, addr: Loc) {
    && t.traceNext <= writeP
    && ((Dead(t) && Cache(t))
        || (CanClose(t, writeP) && Open(t, target, writeP) && At(t, t.active.id, target, addr)
            && CacheTo(Closed(t, writeP, addr, target), writeP, t.active.id)))
  }

  lemma EarlyReady(t: Thread, writeP: nat, addr: Loc, spc: nat)
    requires Core(t) && (Dead(t) || CanClose(t, writeP))
    ensures var c := Closed(t, writeP, addr, spc); Core(c) && c.active.on && (if Dead(t) then Dead(c) else Installable(c))
  {
    hide Core, ExitsOk, CanClose, Dead, Installable, JumpSize, Written;
    var size := JumpSize(writeP, addr.addr);
    var d := t.(code := Written(t.code, writeP, Jump(addr, spc)));
    JumpSizes(writeP, addr.addr);
    SetCode(t, writeP, Jump(addr, spc), writeP);
    SetWriteP(d, writeP + size);
    if Dead(t) { DeadKept(d, writeP + size); } else { CloseInstallable(d, writeP, size); }
  }

  lemma ClosableCases(t: Thread, target: nat, writeP: nat, addr: Loc)
    requires Closable(t, target, writeP, addr)
    ensures t.traceNext <= writeP
    ensures if Dead(t) then Cache(t)
            else CanClose(t, writeP) && Open(t, target, writeP) && At(t, t.active.id, target, addr)
                 && CacheTo(Closed(t, writeP, addr, target), writeP, t.active.id)
  {
    hide ExitsOk, Open, At, CacheTo, Cache, Closed;
  }

  lemma NotOn(t: Thread)
    requires Inv(t) && !t.active.on
    ensures !LiveActive(t) && t.active.id == t.traceId
  {
  }

  /** What the trace in progress could reach can still be reached once it is installed. */
  lemma StillAt(t: Thread, r: Thread, spc: nat, l: Loc)
    requires At(t, t.active.id, spc, l) && Keeps(t, r)
    ensures At(r, r.active.id, spc, l)
  {
  }

  lemma EarlyExitMeans(t: Thread, env: Env, target: nat, writeP: nat, addr: Loc)
    requires Core(t) && Scanner(env) && Closable(t, target, writeP, addr)
    ensures var (r, l) := Finish(EarlyTraceExit(t, env, writeP, addr, target), env, target, addr); Translated(r, target, l)
  {
    hide Core, Cache, CanClose, Installable, At, Open, Finished, Inv, LookupOrScan, InstallTrace, Keeps, LiveActive,
         FragAt, JumpSize;
    hide Meaning, Committed, CacheTo;
    EarlyExitSafe(t, env, writeP, addr, target);
    IdsOrdered(t);
    var c, r := Closed(t, writeP, addr, target), EarlyTraceExit(t, env, writeP, addr, target);
    ClosableCases(t, target, writeP, addr);
    EarlyReady(t, writeP, addr, target);
    if Dead(t) { ClosedCache(t, target, writeP, addr); } else { JumpFinishes(t, target, writeP, addr); }
    InstallMeans(c, env);
    NotOn(r);
    if r.wasFlushed {
      LookupLands(r, env, target);
    } else {
      KeepsCodeOf(t, writeP, addr, target, r);
      StillAt(t, r, target, addr);
    }
  }

  lemma KeepsCodeOf(t: Thread, writeP: nat, addr: Loc, spc: nat, r: Thread)
    requires Keeps(Closed(t, writeP, addr, spc), r)
    ensures Keeps(t, r)
  {
  }

  lemma CloseLookup(t: Thread, env: Env, target: nat, writeP: nat)
    requires Core(t) && Scanner(env) && Cache(t) && CanClose(t, writeP) && Open(t, target, writeP)
    ensures var (r, addr) := ActiveLookupOrScan(t, env, target);
            Core(r) && Closable(r, target, writeP, addr) && (if Dead(r) then r.gen > t.gen else r.gen == t.gen)
  {
    hide Core, Cache, CacheTo, At, Faithful, ActiveLookupOrScan, Ordered, ExitsOk, SameTrace, GoesTo, Grown, Closed;
    ActiveLookupFollows(t, env, target);
    var (r, addr) := ActiveLookupOrScan(t, env, target);
    FollowsCore(t, r);
    CanCloseFollows(t, r, writeP);
    SourceLive(t, writeP);
    ActiveKeeps(t, env, target);
    IdsOrdered(r);
    if !r.wasFlushed {
      GrownTrace(t, r);
      OpenGrows(t, r, target, writeP);
      ClosedCache(r, target, writeP, addr);
    }
  }

  lemma SourceLive(t: Thread, writeP: nat)
    requires Core(t) && CanClose(t, writeP)
    ensures Live(t, t.active.sourceBb)
  {
  }

  lemma CloseMeans(t: Thread, env: Env, target: nat, writeP: nat)
    requires Core(t) && Scanner(env) && Cache(t) && CanClose(t, writeP) && Open(t, target, writeP)
    ensures var (r, l) := CloseTrace(t, env, target, writeP); Translated(r, target, l)
  {
    hide Core, Cache, At, CanClose, Open, ActiveLookupOrScan, EarlyTraceExit, Finish, Translated, Closable, Dead;
    CloseLookup(t, env, target, writeP);
    var (r, addr) := ActiveLookupOrScan(t, env, target);
    EarlyExitMeans(r, env, target, writeP, addr);
  }

  /** The link to the block that the closing jump leads to. */
  lemma ClosableRecorded(t: Thread, target: nat, writeP: nat, addr: Loc, gen: nat)
    requires Core(t) && Closable(t, target, writeP, addr) && writeP >= TRACES
             && (if Dead(t) then gen < t.gen else gen == t.gen)
    ensures var r := RecordLink(t, Loc(writeP, gen), addr); Core(r) && Closable(r, target, writeP, addr)
  {
    var from := Loc(writeP, gen);
    var r := RecordLink(t, from, addr);
    RecordLinkFollows(t, from, addr);
    FollowsCore(t, r);
    BoundsOf(t);
    ClosableCases(t, target, writeP, addr);
    if Dead(t) {
      hide Core, CodeOk, At, Entries, AddLink, Closed, CanClose, Open;
      StaleLink(t, from, addr);
    } else {
      hide Core, CodeOk, Open, At, ExitsOk, AddLink, Entries;
      OpenSame(t, r, target, writeP);
      AtSame(t, r, t.active.id, t.active.id, target, addr);
      ClosedRecorded(t, target, writeP, addr);
    }
  }

  lemma StaleLink(t: Thread, from: Loc, to: Loc)
    requires Cache(t) && from.gen < t.gen && from.addr >= TRACES
    ensures Cache(RecordLink(t, from, to))
  {
    var r := RecordLink(t, from, to);
    hide Source, Right, ExitRight;
    LinkLists(t, r, 0, t.traceId);
    if t.intact {
      forall id, k | id in r.links && id < CODE_CACHE_SIZE && 0 <= k < |r.links[id]|
        ensures Incoming(r, 0, t.traceId, id, r.links[id][k]) {
        if id == BbId(to.addr) {
          if k > 0 { assert Incoming(t, 0, t.traceId, id, t.links[id][k - 1]); }
        } else {
          assert Incoming(t, 0, t.traceId, id, t.links[id][k]);
        }
      }
    }
  }

  lemma ClosedRecorded(t: Thread, target: nat, writeP: nat, addr: Loc)
    requires CacheTo(Closed(t, writeP, addr, target), writeP, t.active.id) && At(t, t.active.id, target, addr)
             && Bounds(t) && writeP >= TRACES
    ensures CacheTo(Closed(RecordLink(t, Loc(writeP, t.gen), addr), writeP, addr, target), writeP, t.active.id)
  {
    var c, from := Closed(t, writeP, addr, target), Loc(writeP, t.gen);
    AtSame(t, c, t.active.id, t.active.id, target, addr);
    hide CacheTo, At, AddLink, JumpSize;
    assert Jumps(c, writeP, t.active.id, writeP, target);
    LinkMeans(c, writeP, t.active.id, from, addr, target);
    assert RecordLink(c, from, addr) == Closed(RecordLink(t, from, addr), writeP, addr, target);
  }

  lemma CloseLinkedMeans(t: Thread, env: Env, target: nat, writeP: nat)
    requires Core(t) && Scanner(env) && Cache(t) && CanClose(t, writeP) && Open(t, target, writeP)
    ensures var (r, l) := CloseTraceLinked(t, env, target, writeP); Translated(r, target, l)
  {
    hide Core, Cache, At, CanClose, Open, ActiveLookupOrScan, EarlyTraceExit, Finish, Translated, ActiveLookup,
         Closable, AddLink;
    InTraces(t, writeP);
    match ActiveLookup(t, target) {
      case Found(l) =>
        CloseFound(t, target, writeP);
        EarlyExitMeans(t, env, target, writeP, l);
      case Missing =>
        CloseLookup(t, env, target, writeP);
        var (r, l) := ActiveLookupOrScan(t, env, target);
        ClosableRecorded(r, target, writeP, l, t.gen);
        EarlyExitMeans(RecordLink(r, Loc(writeP, t.gen), l), env, target, writeP, l);
    }
  }

  lemma InTraces(t: Thread, writeP: nat)
    requires CanClose(t, writeP)
    ensures writeP >= TRACES && !t.wasFlushed
  {
  }

  lemma CloseFound(t: Thread, target: nat, writeP: nat)
    requires Core(t) && Cache(t) && Open(t, target, writeP) && CanClose(t, writeP) && ActiveLookup(t, target).Found?
    ensures Closable(t, target, writeP, ActiveLookup(t, target).loc)
  {
    hide CodeOk, Ordered, ExitsOk, Closed, Sorted, BlocksOwned;
    FoundMeans(t, target);
    IdsOrdered(t);
    ClosedCache(t, target, writeP, ActiveLookup(t, target).loc);
  }

  // ---------- Taking an exit ----------

  /** Recording the exit of the last fragment leaves for the successor not taken and goes on with the taken one. */
  lemma RecordMeans(t: Thread, to: Loc, src: nat, taken: bool)
    requires Meaning(t) && src == t.active.id - 1 && t.frags[src].exit.kind == Branch
    requires t.traceNext <= t.frags[src].tpc <= t.frags[src].exitAddr
             && At(t, t.active.id, NotFollowed(t.frags[src].exit, taken), to)
    ensures var m := t.frags[src];
            Open(RecordExit(t, m.exitAddr, to, NotFollowed(m.exit, taken), src, taken), Followed(m.exit, taken), m.exitAddr + 4)
  {
    hide At;
    var m := t.frags[src];
    var spc := NotFollowed(m.exit, taken);
    var r := RecordExit(t, m.exitAddr, to, spc, src, taken);
    var exits := r.active.exits;
    forall i | 0 <= i < |exits| ensures Leaves(r, exits[i]) {
      if i < |t.active.exits| { assert Leaves(t, exits[i]); }
      AtSame(t, r, t.active.id, r.active.id, exits[i].spc, exits[i].to);
    }
    forall f | r.traceId <= f < r.active.id - 1 ensures Continues(r, f) {
      assert Continues(t, f);
      GoesOn(t, r, f, t.frags[f + 1].source);
    }
    assert exits[|t.active.exits|] == Exit(m.exitAddr, to, spc, src, taken);
  }

  /** What is recorded stays recorded. */
  lemma GoesOn(t: Thread, r: Thread, f: nat, spc: nat)
    requires GoesTo(t, f, spc) && f in r.frags && r.frags[f] == t.frags[f] && t.active.exits <= r.active.exits
    ensures GoesTo(r, f, spc)
  {
    if t.frags[f].exit.kind == Branch {
      var i :| 0 <= i < |t.active.exits| && t.active.exits[i].fragment == f && Followed(t.frags[f].exit, t.active.exits[i].taken) == spc;
      assert r.active.exits[i] == t.active.exits[i];
    }
  }

  lemma MeaningGrows(t: Thread, r: Thread)
    requires Meaning(t) && SameTrace(t, r) && t.active.sourceBb < t.freeBlock && r.code == t.code
    ensures Meaning(r)
  {
    FaithfulGrows(t, r);
    SameFields(t, r);
    ChainedShrunk(t, r);
    hide Faithful, Ordered, SameTrace, Chained;
  }

  lemma MeaningSame(t: Thread, r: Thread)
    requires Meaning(t) && SameBuild(t, r) && r.code == t.code
    ensures Meaning(r)
  {
    FaithfulSame(t, r);
    ChainedShrunk(t, r);
    hide Faithful, Ordered, Chained;
  }

  /** The last fragment lies behind the installed traces. */
  lemma LastBehind(t: Thread)
    requires Inv(t) && LiveActive(t) && Meaning(t)
    ensures t.active.id - 1 in t.frags && t.traceNext <= LastFrag(t).tpc <= LastFrag(t).exitAddr
    ensures t.active.sourceBb in t.bbs && t.bbs[t.active.sourceBb].gen == t.gen && t.active.entry.gen == t.gen
  {
  }

  lemma PlaceholderMeans(t: Thread, env: Env, src: nat, taken: bool)
    requires Inv(t) && Scanner(env) && Cache(t) && LiveActive(t) && Meaning(t) && !t.wasFlushed
    requires src == t.active.id - 1 && t.frags[src].exit.kind == Branch
    ensures var r := Placeholder(t, env, src, taken);
            && Cache(r)
            && if r.wasFlushed then !LiveActive(r) else Open(r, Followed(t.frags[src].exit, taken), t.frags[src].exitAddr + 4)
  {
    hide Inv, Core, Cache, At, Faithful, Ordered, LookupOrScan, Open, ActiveLookup, SameTrace, Grown, RecordExit,
         LiveActive, Meaning, Follows;
    LastBehind(t);
    var m := t.frags[src];
    var spc := NotFollowed(m.exit, taken);
    CoreOf(t);
    SourceAllocated(t);
    MeaningFaithful(t);
    FoundHere(t, spc);
    match ActiveLookup(t, spc) {
      case Found(l) =>
        assert Placeholder(t, env, src, taken) == RecordExit(t, m.exitAddr, l, spc, src, taken);
        RecordMeans(t, l, src, taken);
        RecordKept(t, m.exitAddr, l, spc, src, taken);
      case Missing =>
        LookupKeeps(t, env, spc);
        LookupFollows(t, env, spc);
        var (r, l) := LookupOrScan(t, env, spc);
        assert Placeholder(t, env, src, taken) == RecordExit(r, m.exitAddr, l, spc, src, taken);
        RecordKept(r, m.exitAddr, l, spc, src, taken);
        if r.wasFlushed {
          FlushFollows(t, r);
        } else {
          GrownTrace(t, r);
          SameFields(t, r);
          MeaningGrows(t, r);
          RecordMeans(r, l, src, taken);
        }
    }
  }

  lemma MeaningFaithful(t: Thread)
    requires Meaning(t)
    ensures Faithful(t) && t.active.id - 1 in t.frags
  {
  }

  lemma RecordKept(t: Thread, from: nat, to: Loc, spc: nat, src: nat, taken: bool)
    ensures var r := RecordExit(t, from, to, spc, src, taken);
            (Cache(t) ==> Cache(r)) && LiveActive(r) == LiveActive(t) && r.wasFlushed == t.wasFlushed
  {
    hide Cache;
    if Cache(t) { CacheKept(t, RecordExit(t, from, to, spc, src, taken)); }
  }

  /** A flush that shows has discarded the trace in progress. */
  lemma FlushFollows(t: Thread, r: Thread)
    requires Core(t) && Follows(t, r) && !t.wasFlushed && r.wasFlushed
    ensures !LiveActive(r)
  {
  }

  lemma FoundHere(t: Thread, spc: nat)
    requires Cache(t) && Faithful(t)
    ensures ActiveLookup(t, spc).Found? ==> At(t, t.active.id, spc, ActiveLookup(t, spc).loc)
  {
    FoundMeans(t, spc);
  }

  lemma TakeExitMeans(t: Thread, env: Env, target: nat)
    requires Inv(t) && Scanner(env) && Cache(t) && LiveActive(t) && Meaning(t)
    requires DirectExit(LastFrag(t).exit.kind) && IsSuccessor(LastFrag(t).exit, target)
    ensures var r := TakeExit(t, env, target, t.active.id - 1);
            Cache(r) && if r.wasFlushed then !LiveActive(r) else Open(r, target, ResumeAt(LastFrag(t)))
  {
    hide Inv, Core, Cache, Open, Placeholder, Meaning;
    LastBehind(t);
    var m, src := LastFrag(t), t.active.id - 1;
    var a, w := t.(wasFlushed := false), ResumeAt(LastFrag(t));
    ClearFlag(t);
    CacheKept(t, a);
    MeaningSame(t, a);
    if m.exit.kind == Branch {
      PlaceholderMeans(a, env, src, m.exit.taken == target);
      var r := Placeholder(a, env, src, m.exit.taken == target);
      var s := r.(active := r.active.(writeP := w));
      CacheKept(r, s);
      if !r.wasFlushed { OpenSame(r, s, target, w); }
    } else {
      var s := a.(active := a.active.(writeP := w));
      CacheKept(a, s);
      MeaningSame(a, s);
      JalOpen(s, target);
    }
  }

  lemma JalOpen(t: Thread, target: nat)
    requires Meaning(t) && t.frags[t.active.id - 1].exit.kind == Jal && t.frags[t.active.id - 1].exit.taken == target
    requires t.traceNext <= t.frags[t.active.id - 1].tpc <= t.frags[t.active.id - 1].exitAddr
    ensures Open(t, target, t.frags[t.active.id - 1].exitAddr)
  {
    hide Faithful;
  }

  // ---------- Appending a fragment ----------

  /** `r` is `t` with one more fragment at the write pointer, translating `spc`. */
  predicate Longer(t: Thread, r: Thread, spc: nat) {
    var id := t.active.id;
    && id in r.frags && r == t.(active := t.active.(id := id + 1), frags := t.frags[id := r.frags[id]], ok := r.ok,
          fragCount := r.fragCount, code := Erased(t.code, r.frags[id].tpc, r.frags[id].end))
    && r.frags[id].source == spc && r.frags[id].tpc == t.active.writeP && r.frags[id].gen == t.gen
    && r.frags[id].tpc <= r.frags[id].exitAddr <= r.frags[id].end
  }

  lemma ScanMeans(t: Thread, env: Env, spc: nat, prefix: nat)
    requires Core(t) && Scanner(env) && Cache(t) && !t.wasFlushed && t.traceId <= t.active.id
             && t.traceNext <= t.active.writeP
    ensures var (r, _, id) := ScanTrace(t, env, spc, prefix);
            Cache(r) && if r.wasFlushed then !LiveActive(r) else Longer(t, r, spc) && id == t.active.id
  {
    hide Cache, Core, ScanTrace, Longer, LiveActive, Flush, NewFragment;
    var a, n := NewFragment(t, env, spc, prefix), ScanTrace(t, env, spc, prefix).0.fragCount;
    ScanShape(t, env, spc, prefix);
    if env.trace(spc).flushes { ScanFlushed(t, a, n, spc); } else { ScanKept(t, a, n, spc); }
  }

  lemma ScanShape(t: Thread, env: Env, spc: nat, prefix: nat)
    requires Scanner(env)
    ensures var a, r := NewFragment(t, env, spc, prefix), ScanTrace(t, env, spc, prefix);
            && r.0 == (if env.trace(spc).flushes then Flush(a) else a).(fragCount := r.0.fragCount)
                  && r.2 == t.active.id && Longer(t, a, spc)
  {
    hide TooLong, Flush, NewFragment, Longer, Scanner;
    FragmentLonger(t, env, spc, prefix);
  }

  lemma FragmentLonger(t: Thread, env: Env, spc: nat, prefix: nat)
    requires Scanner(env)
    ensures Longer(t, NewFragment(t, env, spc, prefix), spc)
  {
    hide Erased;
    var s := env.trace(spc);
    assert s.exitOffset + ExitRegion(s.exit.kind) <= 2 * s.halfwords;
  }

  lemma ScanFlushed(t: Thread, a: Thread, n: nat, spc: nat)
    requires Core(t) && Cache(t) && Longer(t, a, spc)
    ensures var r := Flush(a).(fragCount := n); Cache(r) && !LiveActive(r) && r.wasFlushed
  {
    EntryOld(t);
    hide CodeOk, Entries, Erased;
    FlushCache(a, 0, CODE_CACHE_SIZE);
    CacheKept(Flush(a), Flush(a).(fragCount := n));
  }

  lemma ScanKept(t: Thread, a: Thread, n: nat, spc: nat)
    requires Cache(t) && t.traceId <= t.active.id && t.traceNext <= t.active.writeP && Longer(t, a, spc)
    ensures var r := a.(fragCount := n); Cache(r) && Longer(t, r, spc) && r.wasFlushed == t.wasFlushed
  {
    ErasedBeyond(t, t.active.writeP, a.frags[t.active.id].end);
    hide Erased, WordSize;
    CacheKept(t, a.(fragCount := n));
  }

  lemma ErasedBeyond(t: Thread, from: nat, to: nat)
    requires t.traceNext <= from
    ensures forall a | a in t.code && Whole(t, 0, a) :: a in Erased(t.code, from, to) && Erased(t.code, from, to)[a] == t.code[a]
    ensures Shrunk(t.code, Erased(t.code, from, to))
  {
    hide WordSize;
  }

  lemma EntryOld(t: Thread)
    requires Core(t)
    ensures t.active.entry.gen <= t.gen
  {
  }

  lemma AtLonger(t: Thread, r: Thread, head: nat, spc: nat, l: Loc)
    requires Longer(t, r, head) && At(t, t.active.id, spc, l)
    ensures At(r, t.active.id, spc, l) && At(r, r.active.id, spc, l)
  {
    if l.addr >= TRACES {
      var k :| CODE_CACHE_SIZE <= k < t.active.id && k in t.frags && t.frags[k].tpc == l.addr && t.frags[k].source == spc && t.frags[k].gen == l.gen;
      assert k in r.frags && r.frags[k] == t.frags[k];
    }
  }

  /** The fragments of the trace in progress with one more, at the write pointer. */
  lemma ChainedLonger(t: Thread, r: Thread, head: nat)
    requires Chained(t) && Longer(t, r, head) && t.traceId <= t.active.id
    requires forall f | t.traceId <= f < t.active.id && f in t.frags :: ResumeAt(t.frags[f]) <= t.active.writeP
    ensures Chained(r)
  {
    hide WordSize;
    var m := r.frags[t.active.id];
    forall f | t.traceId <= f < t.active.id ensures Clear(r.code, r.frags[f]) {
      assert Clear(t.code, t.frags[f]);
    }
    assert Clear(r.code, m);
    hide Clear;
  }

  lemma ResumesBefore(t: Thread, target: nat, writeP: nat)
    requires Open(t, target, writeP)
    ensures forall f | t.traceId <= f < t.active.id && f in t.frags :: ResumeAt(t.frags[f]) <= writeP
    ensures t.traceId <= t.active.id
  {
    hide Clear, Leaves, Continues, Ordered, GoesTo;
    var last := t.active.id - 1;
    forall f | t.traceId <= f < t.active.id && f in t.frags ensures ResumeAt(t.frags[f]) <= writeP {
      if f < last { assert ResumeAt(t.frags[f]) <= t.frags[last].tpc; }
    }
  }

  /** The appended fragment continues the last one. */
  lemma LongerMeans(t: Thread, r: Thread, target: nat, writeP: nat)
    requires Open(t, target, writeP) && Longer(t, r, target) && t.active.writeP == writeP
    ensures Meaning(r)
  {
    hide At, Ordered, Chained, Erased, ResumeAt;
    ResumesBefore(t, target, writeP);
    ChainedLonger(t, r, target);
    forall i | 0 <= i < |r.active.exits| ensures Leaves(r, r.active.exits[i]) {
      var e := r.active.exits[i];
      assert Leaves(t, e);
      AtLonger(t, r, target, e.spc, e.to);
    }
    forall f | r.traceId <= f < r.active.id - 1 ensures Continues(r, f) {
      if f < t.active.id - 1 { assert Continues(t, f); }
    }
  }

  /** Dropping the appended fragment again leaves the exit open. */
  lemma UndoMeans(t: Thread, r: Thread, target: nat, writeP: nat)
    requires Open(t, target, writeP) && Longer(t, r, target)
    ensures Open(r.(active := t.active), target, writeP)
  {
    hide At, Ordered, Chained, Erased;
    var u := r.(active := t.active);
    UndoChained(t, r, target);
    forall i | 0 <= i < |u.active.exits| ensures Leaves(u, u.active.exits[i]) {
      var e := u.active.exits[i];
      assert Leaves(t, e);
      AtLonger(t, r, target, e.spc, e.to);
      AtUndone(r, u, t.active.id, e.spc, e.to);
    }
    forall f | u.traceId <= f < u.active.id - 1 ensures Continues(u, f) { assert Continues(t, f); }
  }

  lemma UndoChained(t: Thread, r: Thread, head: nat)
    requires Chained(t) && Longer(t, r, head)
    ensures Chained(r.(active := t.active))
  {
    hide WordSize;
    forall f | t.traceId <= f < t.active.id ensures Clear(r.code, r.frags[f]) { assert Clear(t.code, t.frags[f]); }
    hide Clear;
  }

  lemma AtUndone(r: Thread, u: Thread, end: nat, spc: nat, l: Loc)
    requires At(r, end, spc, l) && SameSpace(r, u)
    ensures At(u, end, spc, l)
  {
  }

  /** On return from the dispatcher, the jump written at `at` leads to the fragment that starts at `start`. */
  function Returning(t: Thread, at: nat, start: nat): Thread {
    t.(code := Written(t.code, at, Bounce(start)))
  }

  lemma BounceLands(t: Thread, at: nat, start: nat, spc: nat)
    requires FragAt(t.frags, t.active.id, spc, Loc(start, t.gen))
    ensures Lands(Returning(t, at, start), spc, Loc(at, t.gen))
  {
  }

  lemma LongerFrag(t: Thread, r: Thread, spc: nat)
    requires Longer(t, r, spc) && CODE_CACHE_SIZE <= t.active.id
    ensures FragAt(r.frags, r.active.id, spc, Loc(t.active.writeP, r.gen))
  {
    assert r.frags[t.active.id].tpc == t.active.writeP;
  }

  lemma MeaningWritten(t: Thread, at: nat, word: Patched)
    requires Meaning(t) && t.frags[t.active.id - 1].exitAddr <= at
    ensures Meaning(t.(code := Written(t.code, at, word)))
  {
    hide Faithful, Ordered, Chained, Written, At;
    FaithfulHead(t);
    ChainedWritten(t, at, word);
    FaithfulSame(t, t.(code := Written(t.code, at, word)));
  }

  /** A trace that goes on: the temporary jump lies behind everything installed. */
  lemma ContinueMeans(e: Thread, target: nat, writeP: nat)
    requires Inv(e) && Cache(e) && Meaning(e) && e.traceNext <= e.active.writeP
             && FragAt(e.frags, e.active.id, target, Loc(writeP, e.gen)) && e.frags[e.active.id - 1].exitAddr <= e.active.writeP
    ensures Translated(Returning(e, e.active.writeP, writeP), target, Loc(e.active.writeP, e.gen))
  {
    var r := Returning(e, e.active.writeP, writeP);
    hide Inv, Cache, Meaning, FragAt, At, Written;
    SetCode(e, e.active.writeP, Bounce(writeP), 0);
    WrittenBeyond(e, e.active.writeP, Bounce(writeP));
    CacheKept(e, r);
    MeaningWritten(e, e.active.writeP, Bounce(writeP));
    BounceLands(e, e.active.writeP, writeP, target);
  }

  /** An indirect exit ends the trace: it needs no jump. */
  lemma IndirectFinished(t: Thread, limit: nat)
    requires Meaning(t) && t.frags[t.active.id - 1].exit.kind == Jalr
             && t.traceNext <= t.frags[t.active.id - 1].tpc && t.frags[t.active.id - 1].exitAddr <= limit && t.active.id > 0
    ensures var r := t.(active := t.active.(writeP := limit)); Finished(r) && Pending(r) == 0 && LastDone(r) && Chained(r)
  {
    var r := t.(active := t.active.(writeP := limit));
    FaithfulSame(t, r);
    ChainedShrunk(t, r);
    EndsBefore(t);
    hide Faithful, Clear;
  }

  lemma InstalledReturns(e: Thread, env: Env, target: nat, writeP: nat)
    requires Core(e) && Installable(e) && Scanner(env) && Cache(e) && Finished(e) && Pending(e) == 0
    requires FragAt(e.frags, e.active.id, target, Loc(writeP, e.gen))
    ensures var s := InstallTrace(e, env);
            var (r, l) := if s.wasFlushed then LookupOrScan(s, env, target) else (Returning(s, s.active.writeP, writeP), Loc(s.active.writeP, s.gen));
            Translated(r, target, l)
  {
    hide Core, Cache, Finished, FragAt, Inv, At, LookupOrScan, InstallTrace, Meaning, Written;
    InstallableOn(e);
    IdsOrdered(e);
    CacheWider(e);
    InstallSafe(e, env);
    InstallMeans(e, env);
    var s := InstallTrace(e, env);
    NotOn(s);
    if s.wasFlushed {
      LookupLands(s, env, target);
    } else {
      var r := Returning(s, s.active.writeP, writeP);
      SetCode(s, s.active.writeP, Bounce(writeP), 0);
      WrittenBeyond(s, s.active.writeP, Bounce(writeP));
      CacheKept(s, r);
      BounceLands(s, s.active.writeP, writeP, target);
    }
  }

  lemma CacheWider(t: Thread)
    requires Cache(t) && t.traceId <= t.active.id
    ensures CacheTo(t, 0, t.active.id)
  {
    hide CodeOk, At;
    if t.intact { CodeCarried(t, 0, t.traceId, t, 0, t.active.id, -1); }
  }

  lemma InstallableOn(t: Thread)
    requires Installable(t)
    ensures t.active.on
  {
  }

  /** The cache does not depend on where the trace in progress stands. */
  lemma CacheMoved(t: Thread, r: Thread)
    requires Cache(t) && r == t.(active := r.active)
    ensures Cache(r)
  {
    hide Cache;
    CacheKept(t, r);
  }

  lemma ExtendMeans(t: Thread, env: Env, target: nat, writeP: nat)
    requires Core(t) && Scanner(env) && Resumed(t, writeP) && t.fragCount <= MAX_TRACE_FRAGMENTS && Cache(t)
             && Open(t, target, writeP)
    ensures var (r, l) := ExtendTrace(t, env, target, writeP); Translated(r, target, l)
  {
    hide Core, Resumed, Appended, Inv, Installable, CanClose, WellShaped, LiveActive, Cache, Open, Meaning, Finished,
         Longer, FragAt;
    hide ScanTrace, InstallTrace, LookupOrScan, CloseTraceLinked, CloseTrace, StubsFit, Translated;
    ScanReady(t, writeP);
    IdsOrdered(t);
    OpenBehind(t, target, writeP);
    ScanTraceSafe(t, env, target, 0);
    ScanMeans(t, env, target, 0);
    var (r, len, id) := ScanTrace(t, env, target, 0);
    if r.wasFlushed {
      LookupLands(r, env, target);
    } else {
      AppendedFacts(t, r, id);
      UndoAppend(t, r, id, writeP);
      UndoMeans(t, r, target, writeP);
      LongerMeans(t, r, target, writeP);
      LongerFrag(t, r, target);
      LongerFacts(t, r, target, writeP);
      var u := r.(active := t.active);
      CacheMoved(r, u);
      if len == 0 {
        CloseLinkedMeans(u, env, target, writeP);
      } else {
        var e := r.(active := r.active.(writeP := writeP + 2 * len));
        CacheMoved(r, e);
        if !StubsFit(e.active.exits, e.active.writeP) {
          CloseMeans(u, env, target, writeP);
        } else if r.frags[id].exit.kind == Jalr {
          InstallAppended(t, r, id, writeP);
          IndirectFinished(r, writeP + 2 * len);
          InstalledReturns(e, env, target, writeP);
        } else {
          ContinueAppended(t, r, id, writeP);
          MeaningSame(r, e);
          ContinueMeans(e, target, writeP);
        }
      }
    }
  }

  lemma OpenBehind(t: Thread, target: nat, writeP: nat)
    requires Open(t, target, writeP)
    ensures t.traceNext <= writeP
  {
  }

  lemma LongerFacts(t: Thread, r: Thread, target: nat, writeP: nat)
    requires Open(t, target, writeP) && Longer(t, r, target) && t.active.writeP == writeP
    ensures r.traceNext <= r.frags[t.active.id].tpc == writeP && r.active.id == t.active.id + 1
    ensures r.frags[t.active.id].exitAddr <= r.frags[t.active.id].end
  {
  }

  // ---------- The three entry points ----------

  lemma DecideMeans(r: Thread, env: Env, target: nat, writeP: nat)
    requires Scanner(env) && Core(r) && Cache(r)
    requires if r.wasFlushed then Inv(r) && !LiveActive(r) else Resumed(r, writeP) && Open(r, target, writeP)
    ensures var (s, l) := Decide(r, env, target, writeP); Translated(s, target, l)
  {
    hide Core, Inv, Resumed, CanClose, LiveActive, Cache, At, Open, Translated, LookupOrScan, CloseTraceLinked,
         ExtendTrace, EarlyTraceExit;
    hide Finish, ActiveLookup;
    if r.wasFlushed {
      LookupLands(r, env, target);
    } else {
      ResumedClose(r, writeP);
      if r.fragCount > MAX_TRACE_FRAGMENTS {
        CloseLinkedMeans(r, env, target, writeP);
      } else if ActiveLookup(r, target).Found? {
        CloseFound(r, target, writeP);
        EarlyExitMeans(r, env, target, writeP, ActiveLookup(r, target).loc);
      } else {
        ExtendMeans(r, env, target, writeP);
      }
    }
  }

  /** `trace_dispatcher` at a direct exit: execution goes on with the successor it was called for. */
  lemma TraceMeans(t: Thread, env: Env, target: nat)
    requires Sound(t) && Scanner(env) && LiveActive(t)
    requires DirectExit(LastFrag(t).exit.kind) && IsSuccessor(LastFrag(t).exit, target)
    ensures var (r, l) := TraceDispatcher(t, env, target, t.active.id - 1); Translated(r, target, l)
  {
    hide Core, Inv, Resumed, Cache, Open, Translated, TakeExit, StubsFit, TraceDispatcher, Decide, LiveActive, Meaning;
    LastBehind(t);
    AtOpenExit(t);
    TakeExitSafe(t, env, target);
    FirstGuardHolds(t, env, target);
    TakeExitMeans(t, env, target);
    DispatcherDecides(t, env, target, t.active.id - 1);
    DecideMeans(TakeExit(t, env, target, t.active.id - 1), env, target, ResumeAt(LastFrag(t)));
  }

  /** A lookup from any state, with or without a trace in progress. */
  lemma IndirectMeans(t: Thread, env: Env, target: nat)
    requires Sound(t) && Scanner(env)
    ensures var a := t.(wasFlushed := false); Sound(a) && var (r, l) := LookupOrScan(a, env, target);
            && Translated(r, target, l) && At(r, r.traceId, target, l) && Cache(r) && Follows(a, r) && Core(a) && Core(r)
            && target in r.entry && r.entry[target] == l
  {
    hide Core, Cache, At, Meaning, LookupOrScan, SameTrace, Inv;
    LookupCode(t.(wasFlushed := false), env, target);
    var a := t.(wasFlushed := false);
    ClearFlag(t);
    CoreOf(a);
    CacheKept(t, a);
    if LiveActive(t) { MeaningSame(t, a); }
    LookupFollows(a, env, target);
    LookupDone(a, env, target);
    LookupCache(a, env, target);
    var (r, l) := LookupOrScan(a, env, target);
    CoreOf(r);
    IdsOrdered(r);
    PublishedAt(r, target, l);
    if LiveActive(a) {
      LastBehind(a);
      SourceAllocated(a);
      if r.gen == a.gen { MeaningGrows(a, r); } else { Outlived(a, r); }
    } else {
      StaysDead(a, r);
    }
  }

  lemma LookupCode(t: Thread, env: Env, spc: nat)
    ensures LookupOrScan(t, env, spc).0.code == t.code
  {
    hide MarkOverflow, Forgotten, KeptLinks;
  }

  lemma Outlived(t: Thread, r: Thread)
    requires Core(t) && Follows(t, r) && r.gen != t.gen
    ensures !LiveActive(r)
  {
  }

  /** `create_trace`: what is returned translates the head block's source. */
  lemma CreateMeans(t: Thread, env: Env, bb: nat)
    requires Sound(t) && Scanner(env) && bb in t.bbs && t.bbs[bb].gen == t.gen
    ensures var (r, l) := CreateTrace(t, env, bb); Translated(r, t.bbs[bb].source, l)
  {
    hide Core, Inv, Cache, At, Appended, WellShaped, LiveLoc, LookupOrScan, ScanTrace, AlignUp, Translated, Meaning,
         LiveActive, Flush, Longer;
    var spc, next := t.bbs[bb].source, AlignUp(t.traceNext);
    var a := t.(fragCount := 0, traceNext := next);
    CreateSafe(t, env, bb);
    if TraceCacheFull(a) {
      FlushedInv(t, next);
      FlushedCache(t, next);
      FlushedDead(t, a);
      LookupLands(Flush(a), env, spc);
    } else {
      NewTraceCore(t, bb);
      CoreOf(t);
      IdsOrdered(t);
      var n := NewTrace(t, bb);
      AlignUpEven(t.traceNext);
      CacheKept(t, n);
      ScanTraceSafe(n, env, spc, RESTORE_CONTEXT);
      ScanMeans(n, env, spc, RESTORE_CONTEXT);
      var (r, len, id) := ScanTrace(n, env, spc, RESTORE_CONTEXT);
      if r.wasFlushed {
        LookupLands(r, env, spc);
      } else {
        FirstMeans(t, bb, r);
      }
    }
  }

  lemma FlushedCache(t: Thread, next: nat)
    requires Inv(t) && Cache(t)
    ensures Cache(Flush(t.(fragCount := 0, traceNext := next)))
  {
    hide CodeOk, Entries;
    FlushCache(t.(fragCount := 0, traceNext := next), 0, CODE_CACHE_SIZE);
  }

  lemma FlushedDead(t: Thread, a: Thread)
    requires Inv(t) && a.gen == t.gen && a.active == t.active
    ensures !LiveActive(Flush(a))
  {
  }

  lemma FirstMeans(t: Thread, bb: nat, r: Thread)
    requires Inv(r) && Cache(r) && bb in t.bbs && t.bbs[bb].gen == t.gen && Longer(NewTrace(t, bb), r, t.bbs[bb].source)
    requires CODE_CACHE_SIZE <= t.traceId && AlignUp(t.traceNext) >= TRACES
    ensures Translated(r, t.bbs[bb].source, Loc(AlignUp(t.traceNext), t.gen))
  {
    hide Inv, Cache, AlignUp, Erased, Clear;
    LongerFrag(NewTrace(t, bb), r, t.bbs[bb].source);
    ChainedLonger(NewTrace(t, bb), r, t.bbs[bb].source);
  }

  /** A patch of block `src` jumps to the translation of a successor. */
  ghost predicate PatchMeans(t: Thread, src: nat, p: Patch) {
    Live(t, src) && p.from == Loc(src * BLOCK_BYTES, t.gen) && exists spc :: DirectSuccessor(t.bbs[src].exit, spc) && At(t, t.traceId, spc, p.to)
  }

  ghost predicate PatchesMean(t: Thread, src: nat, ps: seq<Patch>) {
    forall i | 0 <= i < |ps| :: PatchMeans(t, src, ps[i])
  }

  /** `dispatcher`: the target is translated, and whatever it patches leads to translations of the block's successors. */
  lemma DispatcherMeans(t: Thread, env: Env, target: nat, src: nat)
    requires Sound(t) && Scanner(env) && (src != 0 ==> src in t.bbs && t.bbs[src].gen == t.gen && IsSuccessor(t.bbs[src].exit, target))
    ensures var (r, l, ps) := Dispatcher(t, env, target, src); Translated(r, target, l) && PatchesMean(r, src, ps)
  {
    hide Core, Inv, Cache, At, Meaning, LookupOrScan, Sound, Patches, PatchMeans, LiveActive, Lands, LinkExit,
         RecordPatches, Translated, Follows;
    IndirectMeans(t, env, target);
    var a := t.(wasFlushed := false);
    var (r, l) := LookupOrScan(a, env, target);
    if src != 0 && !r.wasFlushed && src in r.bbs {
      CoreOfSound(a);
      SourceKept(a, r, src);
      LinkedMeans(r, l, target, src);
    }
  }

  lemma CoreOfSound(t: Thread)
    requires Sound(t)
    ensures Core(t)
  {
    CoreOf(t);
  }

  lemma SourceKept(t: Thread, r: Thread, src: nat)
    requires Core(t) && Follows(t, r) && !r.wasFlushed && src in t.bbs && t.bbs[src].gen == t.gen
    ensures src in r.bbs && r.bbs[src] == t.bbs[src] && Live(r, src)
  {
  }

  /** Linking the exit of `src`, whose successor `target` has just been translated to `l`. */
  lemma LinkedMeans(r: Thread, l: Loc, target: nat, src: nat)
    requires Translated(r, target, l) && At(r, r.traceId, target, l) && target in r.entry && r.entry[target] == l
    requires Live(r, src) && IsSuccessor(r.bbs[src].exit, target)
    ensures var s := RecordPatches(LinkExit(r, src, l), Patches(r, src, l));
            Translated(s, target, l) && PatchesMean(s, src, Patches(r, src, l))
  {
    hide Inv, Core, Cache, At, Meaning, Patches, PatchMeans, LinkExit, RecordPatches;
    var ps, a := Patches(r, src, l), LinkExit(r, src, l);
    CoreOfSound(r);
    LinkExitInv(r, src, l);
    LinkExitMeans(r, src, l, target);
    PatchesTranslate(r, src, l, target);
    PatchesFrame(r, a, src, ps);
    RecordPatchesInv(a, ps);
    CoreOf(a);
    BoundsOf(a);
    RecordPatchesMean(a, src, ps);
    var s := RecordPatches(a, ps);
    PatchesFrame(a, s, src, ps);
    LinksLand(r, s, target, l);
  }

  /** Meaning and location do not depend on links and exits of blocks. */
  lemma LinksLand(r: Thread, s: Thread, target: nat, l: Loc)
    requires Sound(r) && Lands(r, target, l) && s == r.(links := s.links, linked := s.linked, asserted := s.asserted)
             && Inv(s) && Cache(s)
    ensures Translated(s, target, l)
  {
    hide Inv, Cache, Meaning;
    if LiveActive(r) { MeaningSame(r, s); }
    if At(r, r.active.id, target, l) { AtSame(r, s, r.active.id, s.active.id, target, l); }
  }

  lemma PatchesFrame(r: Thread, s: Thread, src: nat, ps: seq<Patch>)
    requires PatchesMean(r, src, ps) && s == r.(links := s.links, linked := s.linked, asserted := s.asserted)
    ensures PatchesMean(s, src, ps)
  {
    hide At;
    forall i | 0 <= i < |ps| ensures PatchMeans(s, src, ps[i]) {
      assert PatchMeans(r, src, ps[i]);
      var spc :| DirectSuccessor(r.bbs[src].exit, spc) && At(r, r.traceId, spc, ps[i].to);
      AtSame(r, s, r.traceId, s.traceId, spc, ps[i].to);
    }
  }

  lemma EntryAt(r: Thread, spc: nat)
    requires Cache(r)
    ensures Reached(r, r.traceId, spc, Translation(r, spc))
  {
    hide CodeOk, At;
  }

  lemma ExitLinked(r: Thread, src: nat, l: Loc, target: nat)
    requires Cache(r) && At(r, r.traceId, target, l) && target in r.entry && Live(r, src)
             && IsSuccessor(r.bbs[src].exit, target)
    requires DirectExit(r.bbs[src].exit.kind)
    ensures var a := LinkExit(r, src, l);
            && a == r.(linked := r.linked[src := a.linked[src]], asserted := r.asserted)
                  && ExitRight(r, r.traceId, r.bbs[src].exit, a.linked[src])
  {
    hide CodeOk, At;
    EntryAt(r, r.bbs[src].exit.taken);
    EntryAt(r, r.bbs[src].exit.skipped);
  }

  lemma NoExitLinked(r: Thread, src: nat, l: Loc)
    requires src in r.bbs && !DirectExit(r.bbs[src].exit.kind)
    ensures LinkExit(r, src, l) == r
  {
  }

  /** The rewritten exit is right, and one of the successors is translated, as the code asserts. */
  lemma LinkExitMeans(r: Thread, src: nat, l: Loc, target: nat)
    requires Cache(r) && At(r, r.traceId, target, l) && target in r.entry && Live(r, src)
             && IsSuccessor(r.bbs[src].exit, target)
    ensures Cache(LinkExit(r, src, l))
  {
    hide CodeOk, At, LinkExit, IsSuccessor;
    if DirectExit(r.bbs[src].exit.kind) {
      ExitLinked(r, src, l, target);
      var a := LinkExit(r, src, l);
      CacheRewritten(r, src, a.linked[src]);
    } else {
      NoExitLinked(r, src, l);
    }
  }

  lemma CacheRewritten(r: Thread, src: nat, j: Linked)
    requires Cache(r) && Live(r, src) && ExitRight(r, r.traceId, r.bbs[src].exit, j)
    ensures Cache(r.(linked := r.linked[src := j]))
  {
    var a := r.(linked := r.linked[src := j]);
    forall e, s, k | At(r, e, s, k) ensures At(a, e, s, k) { }
    hide CodeOk, At;
    if r.intact { CodeCarried(r, 0, r.traceId, a, 0, a.traceId, src); }
  }

  lemma PatchesTranslate(r: Thread, src: nat, l: Loc, target: nat)
    requires Live(r, src) && Cache(r) && At(r, r.traceId, target, l) && IsSuccessor(r.bbs[src].exit, target)
    ensures PatchesMean(r, src, Patches(r, src, l))
  {
    hide At, CodeOk;
    var ps, x := Patches(r, src, l), r.bbs[src].exit;
    forall i | 0 <= i < |ps| ensures PatchMeans(r, src, ps[i]) {
      if x.kind == Branch && x.taken in r.entry { assert At(r, r.traceId, x.taken, r.entry[x.taken]); }
      if x.kind == Branch && x.skipped in r.entry { assert At(r, r.traceId, x.skipped, r.entry[x.skipped]); }
    }
  }

  lemma {:induction false} RecordPatchesMean(t: Thread, src: nat, ps: seq<Patch>)
    requires Core(t) && Cache(t) && PatchesMean(t, src, ps)
    ensures Cache(RecordPatches(t, ps))
    decreases |ps|
  {
    hide Core, Cache, At, PatchMeans;
    if ps != [] {
      var p := ps[0];
      var s := RecordLink(t, p.from, p.to);
      assert PatchMeans(t, src, p);
      PatchRecorded(t, src, p);
      RecordLinkFollows(t, p.from, p.to);
      FollowsCore(t, s);
      PatchesFrame(t, s, src, ps);
      assert PatchesMean(s, src, ps[1..]) by {
        forall i | 0 <= i < |ps[1..]| ensures PatchMeans(s, src, ps[1..][i]) { assert PatchMeans(s, src, ps[i + 1]); }
      }
      RecordPatchesMean(s, src, ps[1..]);
    }
  }

  lemma PatchRecorded(t: Thread, src: nat, p: Patch)
    requires Core(t) && Cache(t) && PatchMeans(t, src, p)
    ensures Cache(RecordLink(t, p.from, p.to))
  {
    var spc :| DirectSuccessor(t.bbs[src].exit, spc) && At(t, t.traceId, spc, p.to);
    assert src * BLOCK_BYTES / BLOCK_BYTES == src;
    OwnBlock(t, src);
    hide Core, CodeOk, At, AddLink, Entries, Live;
    assert Source(t, 0, t.traceId, p.from, spc);
    BoundsIn(t);
    LinkMeans(t, 0, t.traceId, p.from, p.to, spc);
  }

  lemma BoundsIn(t: Thread)
    requires Core(t)
    ensures Bounds(t)
  {
  }

  /** The first block of a fragment is its own owner. */
  lemma OwnBlock(t: Thread, src: nat)
    requires Core(t) && Live(t, src)
    ensures Owner(t.actual, src) == src && src < t.freeBlock && src * BLOCK_BYTES < TRACES
  {
  }

  // ---------- Runs ----------

  /** The guest address a call asks for. */
  function Wanted(t: Thread, e: Event): nat
    requires e.Create? ==> e.bb in t.bbs
  {
    match e
    case Create(_, bb) => t.bbs[bb].source
    case Trace(_, target, _) => target
    case Dispatch(_, target, _) => target
  }

  /** The call comes from live code, with a target to which the guest can go from there. */
  ghost predicate FromGuest(t: Thread, e: Event) {
    && Enabled(t, e)
    && match e
       case Create(_, _) => true
       case Trace(_, target, src) => IsSuccessor(t.frags[src].exit, target)
       case Dispatch(_, target, src) => src != 0 ==> IsSuccessor(t.bbs[src].exit, target)
  }

  ghost predicate GuestRun(t: Thread, events: seq<Event>)
    requires ValidRun(t, events)
    decreases |events|
  {
    events == [] || (FromGuest(t, events[0]) && GuestRun(Apply(t, events[0]).0, events[1..]))
  }

  lemma InitialSound(first: nat)
    requires 0 < first < CODE_CACHE_SIZE - CODE_CACHE_OVERP
    ensures Sound(Initial(first))
  {
  }

  /** One call: the cache stays right, the result translates what was asked for, and patches lead to successors. */
  lemma StepTranslates(t: Thread, e: Event)
    requires Sound(t) && FromGuest(t, e)
    ensures var (r, l, ps) := Apply(t, e);
            Translated(r, Wanted(t, e), l) && (ps != [] ==> e.Dispatch? && PatchesMean(r, e.src, ps))
  {
    hide Sound, Translated, PatchesMean, CreateTrace, Dispatcher, LookupOrScan, LiveActive;
    match e {
      case Create(env, bb) => CreateMeans(t, env, bb);
      case Trace(env, target, src) =>
        if t.frags[src].exit.kind == Jalr { IndirectMeans(t, env, target); } else { TraceMeans(t, env, target); }
      case Dispatch(env, target, src) => DispatcherMeans(t, env, target, src);
    }
  }

  lemma {:induction false} RunKeepsSound(t: Thread, events: seq<Event>)
    requires Sound(t) && ValidRun(t, events) && GuestRun(t, events)
    ensures Sound(After(t, events))
    decreases |events|
  {
    hide Sound, FromGuest, Apply, Enabled;
    if events != [] {
      StepTranslates(t, events[0]);
      TranslatedSound(t, events[0]);
      RunKeepsSound(Apply(t, events[0]).0, events[1..]);
    }
  }

  lemma TranslatedSound(t: Thread, e: Event)
    requires Enabled(t, e) && var (r, l, _) := Apply(t, e); Translated(r, Wanted(t, e), l)
    ensures Sound(Apply(t, e).0)
  {
  }
}
