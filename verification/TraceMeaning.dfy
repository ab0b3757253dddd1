/**
 The meaning of a trace in progress, and of its installation: a finished trace leaves each of its fragments where the
 guest would go, and the jumps rewritten on the way lead where they led before.
 */
module TraceMeaning {
  import opened CacheLayout
  import opened TraceModel
  import opened TraceSafety
  import opened TraceCode

  // ---------- The trace in progress ----------

  /** The successor a recorded exit leaves for, and the one the trace goes on with. */
  function NotFollowed(x: ExitInfo, taken: bool): nat {
    if taken then x.skipped else x.taken
  }

  function Followed(x: ExitInfo, taken: bool): nat {
    if taken then x.taken else x.skipped
  }

  /** The entry of the trace is its first fragment, a translation of the head block's source. */
  predicate HeadOk(t: Thread) {
    && CODE_CACHE_SIZE <= t.traceId < t.active.id && t.traceId in t.frags && t.active.entry.gen == t.gen
          && t.active.entry.addr >= TRACES
    && t.frags[t.traceId].tpc == t.active.entry.addr && t.frags[t.traceId].gen == t.gen
    && t.active.sourceBb in t.bbs && t.bbs[t.active.sourceBb].source == t.frags[t.traceId].source
  }

  /** A recorded exit belongs to a fragment that ends in a branch, and leaves for a translation of its other successor. */
  predicate Leaves(t: Thread, e: Exit) {
    && t.traceId <= e.fragment < t.active.id && e.fragment in t.frags
    && var m := t.frags[e.fragment];
       && m.exit.kind == Branch && e.from == m.exitAddr && e.spc == NotFollowed(m.exit, e.taken) && At(t, t.active.id, e.spc, e.to)
  }

  /** Fragment `f` is set up to go on with `spc`. */
  predicate GoesTo(t: Thread, f: nat, spc: nat) {
    && f in t.frags
    && match t.frags[f].exit.kind
       case Branch =>
         exists i | 0 <= i < |t.active.exits| ::
           t.active.exits[i].fragment == f && Followed(t.frags[f].exit, t.active.exits[i].taken) == spc
       case Jal => t.frags[f].exit.taken == spc
       case _ => false
  }

  /** The next fragment stands right behind the exit of `f` and translates what `f` goes on with. */
  predicate Continues(t: Thread, f: nat) {
    f in t.frags && f + 1 in t.frags && t.frags[f + 1].tpc == ResumeAt(t.frags[f]) && GoesTo(t, f, t.frags[f + 1].source)
  }

  /** Exits are recorded in the order of their addresses, apart from each other and between `start` and `limit`. */
  predicate Ordered(exits: seq<Exit>, start: nat, limit: nat) {
    && (forall i, j | 0 <= i < j < |exits| :: exits[i].from + 4 <= exits[j].from)
    && (forall i | 0 <= i < |exits| :: start <= exits[i].from && exits[i].from + 4 <= limit)
  }

  predicate Faithful(t: Thread) {
    && HeadOk(t)
    && (forall i | 0 <= i < |t.active.exits| :: Leaves(t, t.active.exits[i]))
    && (forall f | t.traceId <= f < t.active.id - 1 :: Continues(t, f))
  }

  /** The fragments of the trace in progress lie one behind the other, and no word reaches into their code. */
  predicate Chained(t: Thread) {
    && (forall f | t.traceId <= f < t.active.id :: f in t.frags && t.frags[f].tpc <= t.frags[f].exitAddr && Clear(t.code, t.frags[f]))
    && (forall f, g | t.traceId <= f < g < t.active.id && f in t.frags && g in t.frags :: ResumeAt(t.frags[f]) <= t.frags[g].tpc)
  }

  /** No word has been added or made longer. */
  predicate Shrunk(code: map<nat, Patched>, code': map<nat, Patched>) {
    forall a | a in code' :: a in code && WordSize(a, code'[a]) <= WordSize(a, code[a])
  }

  lemma ChainedShrunk(t: Thread, r: Thread)
    requires Chained(t) && Shrunk(t.code, r.code) && r.frags == t.frags && r.traceId == t.traceId
             && r.active.id == t.active.id
    ensures Chained(r)
  {
    hide WordSize;
  }

  /** Between two operations, with the last exit still open. */
  predicate Meaning(t: Thread) {
    Faithful(t) && Chained(t) && t.active.id - 1 in t.frags && Ordered(t.active.exits, t.traceNext, t.frags[t.active.id - 1].tpc)
  }

  /** Behind the exit of the last fragment, which has been recorded to go on with `target`. */
  predicate Open(t: Thread, target: nat, writeP: nat) {
    && Faithful(t) && Chained(t) && t.active.id - 1 in t.frags && ResumeAt(t.frags[t.active.id - 1]) == writeP
    && GoesTo(t, t.active.id - 1, target) && Ordered(t.active.exits, t.traceNext, writeP) && t.traceNext <= writeP
  }

  lemma AtGrows(t: Thread, r: Thread, end: nat, end': nat, spc: nat, l: Loc)
    requires At(t, end, spc, l) && SameTrace(t, r) && end <= end'
    ensures At(r, end', spc, l)
  {
  }

  lemma SameFields(t: Thread, r: Thread)
    requires SameTrace(t, r)
    ensures r.frags == t.frags && r.traceId == t.traceId && r.traceNext == t.traceNext && r.active == t.active
            && r.gen == t.gen
    ensures r.freeBlock >= t.freeBlock
  {
  }

  /** Lookups do not disturb the trace in progress. */
  lemma FaithfulGrows(t: Thread, r: Thread)
    requires Faithful(t) && SameTrace(t, r) && t.active.sourceBb < t.freeBlock
    ensures Faithful(r)
  {
    HeadGrows(t, r);
    hide At, SameTrace, HeadOk;
    SameFields(t, r);
    forall i | 0 <= i < |r.active.exits| ensures Leaves(r, r.active.exits[i]) {
      var e := r.active.exits[i];
      assert Leaves(t, e);
      AtGrows(t, r, t.active.id, r.active.id, e.spc, e.to);
    }
    forall f | r.traceId <= f < r.active.id - 1 ensures Continues(r, f) { assert Continues(t, f); }
  }

  lemma HeadGrows(t: Thread, r: Thread)
    requires HeadOk(t) && SameTrace(t, r) && t.active.sourceBb < t.freeBlock
    ensures HeadOk(r)
  {
  }

  /** The trace in progress and the published ones are found under the right addresses. */
  lemma FoundMeans(t: Thread, spc: nat)
    requires Entries(t) && HeadOk(t)
    ensures ActiveLookup(t, spc).Found? ==> At(t, t.active.id, spc, ActiveLookup(t, spc).loc)
  {
    if IsActiveHead(t, spc) {
      assert FragAt(t.frags, t.active.id, spc, t.active.entry);
    }
  }

  lemma PublishedAt(t: Thread, spc: nat, l: Loc)
    requires At(t, t.traceId, spc, l) && t.traceId <= t.active.id
    ensures At(t, t.active.id, spc, l)
  {
  }

  /** The source block of a live trace is an allocated one. */
  lemma SourceAllocated(t: Thread)
    requires Core(t) && t.active.sourceBb in t.bbs && t.bbs[t.active.sourceBb].gen == t.gen
    ensures t.active.sourceBb < t.freeBlock && t.traceId <= t.active.id
  {
  }

  lemma LookupKeeps(t: Thread, env: Env, spc: nat)
    requires Core(t) && Scanner(env) && Cache(t) && Faithful(t) && t.active.sourceBb in t.bbs
             && t.bbs[t.active.sourceBb].gen == t.gen
    requires !t.wasFlushed
    ensures var (r, l) := LookupOrScan(t, env, spc);
            Cache(r) && At(r, r.traceId, spc, l) && (!r.wasFlushed ==> Grown(t, r) && Faithful(r) && At(r, r.active.id, spc, l))
  {
    hide CodeOk, At, Faithful, LookupOrScan, Core, SameTrace, SameBlocks, SameExits;
    LookupFollows(t, env, spc);
    SourceAllocated(t);
    IdsOrdered(t);
    LookupMeans(t, env, spc, 0, t.traceId);
    var (r, l) := LookupOrScan(t, env, spc);
    if !r.wasFlushed {
      SameFields(t, r);
      FaithfulGrows(t, r);
      PublishedAt(r, spc, l);
    }
  }

  lemma IdsOrdered(t: Thread)
    requires Core(t)
    ensures CODE_CACHE_SIZE <= t.traceId <= t.active.id && 0 < TRACES <= t.traceNext && t.active.entry.gen <= t.gen
  {
  }

  /** The same, and the trace in progress is found under its head's address. */
  lemma ActiveMeans(t: Thread, env: Env, spc: nat, pend: nat, end: nat)
    requires Core(t) && Scanner(env) && CacheTo(t, pend, end) && t.traceId <= end && HeadOk(t)
             && Live(t, t.active.sourceBb)
    ensures var (r, l) := ActiveLookupOrScan(t, env, spc);
            && Core(r) && Follows(t, r) && Entries(r) && (r.gen > t.gen ==> Cache(r))
            && (r.gen == t.gen ==> Grown(t, r) && CacheTo(r, pend, end) && HeadOk(r) && At(r, r.active.id, spc, l))
  {
    hide Core, CodeOk, At, LookupOrScan, Grown, SameTrace;
    ActiveLookupFollows(t, env, spc);
    IdsOrdered(t);
    var (r, l) := ActiveLookupOrScan(t, env, spc);
    FollowsCore(t, r);
    if IsActiveHead(t, spc) {
      GrownSelf(t);
      FoundMeans(t, spc);
    } else {
      LookupMeans(t, env, spc, pend, end);
      if r.gen == t.gen {
        GrownTrace(t, r);
        HeadGrows(t, r);
        SameFields(t, r);
        PublishedAt(r, spc, l);
      }
    }
  }

  lemma GrownTrace(t: Thread, r: Thread)
    requires Grown(t, r)
    ensures SameTrace(t, r) && r.wasFlushed == t.wasFlushed && r.gen == t.gen && r.intact == t.intact
            && r.asserted == t.asserted
            && r.code == t.code
  {
  }

  lemma ActiveKeeps(t: Thread, env: Env, spc: nat)
    requires Core(t) && Scanner(env) && Cache(t) && Faithful(t) && Live(t, t.active.sourceBb) && !t.wasFlushed
    ensures var (r, l) := ActiveLookupOrScan(t, env, spc);
            Cache(r) && (!r.wasFlushed ==> Grown(t, r) && Faithful(r) && At(r, r.active.id, spc, l))
  {
    hide Core, At, LookupOrScan, Leaves, Continues, CodeOk, SameBlocks, SameExits, HeadOk, Entries;
    FaithfulHead(t);
    IdsOrdered(t);
    ActiveMeans(t, env, spc, 0, t.traceId);
    var (r, l) := ActiveLookupOrScan(t, env, spc);
    if !r.wasFlushed {
      SameFields(t, r);
      FaithfulGrows(t, r);
    }
  }

  lemma FaithfulHead(t: Thread)
    requires Faithful(t)
    ensures HeadOk(t)
  {
  }

  // ---------- The links to the head of the new trace ----------

  /** One more link rewritten: everything depended on so far is kept. */
  predicate Advances(t: Thread, r: Thread, pend: nat) {
    && t.intact && t.wasFlushed == r.wasFlushed && SameTrace(t, r) && KeepsAll(t, pend, t.active.id, r, pend, t.active.id)
    && Shrunk(t.code, r.code)
  }

  /** A word that takes no more room than the one it replaces destroys nothing else. */
  lemma RewrittenInPlace(code: map<nat, Patched>, at: nat, word: Patched)
    requires Disjoint(code) && at in code && WordSize(at, word) <= WordSize(at, code[at])
    ensures Written(code, at, word) == code[at := word]
  {
    assert WordSize(at, word) > 0;
    hide WordSize;
  }

  lemma PatchTraceMeans(t: Thread, at: nat, spc: nat, pend: nat)
    requires Disjoint(t.code) && CacheTo(t, pend, t.active.id) && t.traceId <= t.active.id
             && At(t, t.active.id, spc, t.active.entry)
    requires t.intact ==> Jumps(t, pend, t.active.id, at, spc)
    ensures var r := PatchTrace(t, at, spc);
            CacheTo(r, pend, t.active.id) && (r.intact ==> Advances(t, r, pend)) && r.wasFlushed == t.wasFlushed
  {
    var r, end := PatchTrace(t, at, spc), t.active.id;
    var word := Jump(t.active.entry, spc);
    if r.intact { RewrittenInPlace(t.code, at, word); }
    hide CodeOk, JumpSize, Disjoint, Written;
    forall s, l, e | At(t, e, s, l) ensures At(r, e, s, l) { }
    if r.intact {
      assert KeptAt(t, r, end, at);
      assert Shrunk(t.code, r.code);
      hide At;
      CodeCarried(t, pend, end, r, pend, end, -1);
    }
  }

  /** A jump at the end of block `id`, whose only successor is the head's address. */
  lemma PatchJumpMeans(t: Thread, id: nat, spc: nat, pend: nat)
    requires CacheTo(t, pend, t.active.id) && t.traceId <= t.active.id && At(t, t.active.id, spc, t.active.entry)
    requires t.intact ==> Live(t, id) && t.bbs[id].exit.kind != Branch && DirectSuccessor(t.bbs[id].exit, spc)
    ensures var r := t.(linked := t.linked[id := Through(t.active.entry)]);
            CacheTo(r, pend, t.active.id) && (r.intact ==> Advances(t, r, pend))
  {
    var r, end := t.(linked := t.linked[id := Through(t.active.entry)]), t.active.id;
    hide CodeOk;
    forall s, l, e | At(t, e, s, l) ensures At(r, e, s, l) { }
    if r.intact {
      hide At;
      CodeCarried(t, pend, end, r, pend, end, id);
    }
  }

  /** What is left when nothing is claimed about code any more: publication. */
  lemma OnlyEntries(t: Thread, pend: nat, end: nat)
    requires Entries(t) && !t.intact
    ensures CacheTo(t, pend, end) && Cache(t)
  {
  }

  /** The exit of block `id` is rewritten for both of its successors. */
  lemma BothRight(t: Thread, end: nat, id: nat, j: Linked, intact: bool, pend: nat)
    requires CacheTo(t, pend, end) && t.traceId <= end && id in t.bbs && t.bbs[id].exit.kind == Branch
    requires ExitRight(t, end, t.bbs[id].exit, j) && (intact ==> t.intact)
    ensures var r := t.(linked := t.linked[id := j], intact := intact);
            CacheTo(r, pend, end) && (r.intact ==> KeepsAll(t, pend, end, r, pend, end))
            && forall e, s, l :: At(t, e, s, l) ==> At(r, e, s, l)
  {
    var r := t.(linked := t.linked[id := j], intact := intact);
    forall e, s, l | At(t, e, s, l) ensures At(r, e, s, l) { }
    hide CodeOk, At;
    if r.intact { CodeCarried(t, pend, end, r, pend, end, id); }
  }

  lemma SourceOfBlock(t: Thread, pend: nat, end: nat, link: Loc, id: nat, spc: nat)
    requires Source(t, pend, end, link, spc) && link.addr < TRACES && id == Owner(t.actual, link.addr / BLOCK_BYTES)
    ensures Live(t, id) && DirectSuccessor(t.bbs[id].exit, spc)
  {
  }

  lemma BlockOfSource(t: Thread, pend: nat, end: nat, link: Loc, id: nat, spc: nat)
    requires link.addr < TRACES && id == Owner(t.actual, link.addr / BLOCK_BYTES) && link.addr / BLOCK_BYTES < t.freeBlock
    requires Live(t, id) && DirectSuccessor(t.bbs[id].exit, spc)
    ensures Source(t, pend, end, link, spc)
  {
  }

  /** The assertion of `install_trace`: at least one successor of a linking branch is a trace. */
  lemma HeadIsFound(t: Thread, x: ExitInfo, spc: nat)
    requires HeadOk(t) && t.frags[t.traceId].source == spc && DirectSuccessor(x, spc) && x.kind == Branch
    ensures ActiveLookup(t, x.taken).Found? || ActiveLookup(t, x.skipped).Found?
  {
  }

  /** What `PatchBranch` does once `l` has been found. */
  function Rewritten(t: Thread, env: Env, a: Thread, id: nat, onTaken: bool, l: Loc): Thread
    requires id in t.bbs
  {
    var x := t.bbs[id].exit;
    var taken := ActiveLookup(a, if onTaken then x.taken else x.skipped);
    a.(linked := a.linked[id := if onTaken then Select(taken, Found(l)) else Select(Found(l), taken)],
       intact := a.intact && a.gen == t.gen, asserted := a.asserted && (taken.Found? || env.absentNear))
  }

  /** What it becomes with the link recorded. */
  function Relinked(t: Thread, env: Env, a: Thread, id: nat, onTaken: bool, l: Loc, link: Loc): Thread
    requires id in t.bbs
  {
    var b := Rewritten(t, env, a, id, onTaken, l);
    if l.addr < TRACES then RecordLink(b, link, l) else b
  }

  lemma PatchBranchShape(t: Thread, env: Env, link: Loc, id: nat)
    requires id in t.bbs
    ensures var x := t.bbs[id].exit;
            var onTaken := ActiveLookup(t, x.taken).Found?;
            var (a, l) := ActiveLookupOrScan(t, env, if onTaken then x.skipped else x.taken);
            PatchBranch(t, env, link, id) ==
              if !onTaken && ActiveLookup(t, x.skipped).Missing? then t.(asserted := false)
              else Relinked(t, env, a, id, onTaken, l, link)
  {
    hide ActiveLookup, ActiveLookupOrScan, AddLink;
  }

  predicate AssertedAfter(t: Thread, env: Env, a: Thread, id: nat, onTaken: bool)
    requires id in t.bbs
  {
    a.asserted && (ActiveLookup(a, if onTaken then t.bbs[id].exit.taken else t.bbs[id].exit.skipped).Found? || env.absentNear)
  }

  lemma RewrittenFields(t: Thread, env: Env, a: Thread, id: nat, onTaken: bool, l: Loc)
    requires id in t.bbs
    ensures var r := Rewritten(t, env, a, id, onTaken, l);
            r == a.(linked := r.linked, intact := a.intact && a.gen == t.gen, asserted := AssertedAfter(t, env, a, id, onTaken))
  {
    hide ActiveLookup;
  }

  lemma RelinkedFields(t: Thread, env: Env, a: Thread, id: nat, onTaken: bool, l: Loc, link: Loc)
    requires id in t.bbs
    ensures var r := Relinked(t, env, a, id, onTaken, l, link);
            r == a.(linked := r.linked, links := r.links, intact := a.intact && a.gen == t.gen,
                    asserted := AssertedAfter(t, env, a, id, onTaken))
  {
    hide Rewritten, AddLink, AssertedAfter;
    RewrittenFields(t, env, a, id, onTaken, l);
  }

  lemma PatchBranchMeans(t: Thread, env: Env, link: Loc, id: nat, spc: nat, pend: nat)
    requires Core(t) && Scanner(env) && CacheTo(t, pend, t.active.id) && HeadOk(t) && Live(t, t.active.sourceBb)
             && !t.wasFlushed
    requires t.frags[t.traceId].source == spc && id in t.bbs && t.bbs[id].exit.kind == Branch
    requires t.intact ==> link.addr < TRACES && id == Owner(t.actual, link.addr / BLOCK_BYTES) && Source(t, pend, t.active.id, link, spc)
    requires t.intact ==> link.gen == t.gen
    ensures var r := PatchBranch(t, env, link, id);
            if r.wasFlushed then Cache(r) else CacheTo(r, pend, t.active.id) && (r.intact ==> Advances(t, r, pend))
  {
    hide Core, CodeOk, At, ActiveLookup, ActiveLookupOrScan, AddLink, Source, Grown, KeepsAll, SameTrace, Entries,
         Live, HeadOk;
    hide Follows, CacheTo, Owner, DirectSuccessor, PatchBranch, Relinked;
    PatchBranchShape(t, env, link, id);
    var x, end := t.bbs[id].exit, t.active.id;
    CacheEntries(t, pend, end);
    IdsOrdered(t);
    if t.intact {
      SourceOfBlock(t, pend, end, link, id, spc);
      HeadIsFound(t, x, spc);
    }
    var onTaken := ActiveLookup(t, x.taken).Found?;
    if !onTaken && ActiveLookup(t, x.skipped).Missing? {
      AssertedOnly(t);
      OnlyEntries(PatchBranch(t, env, link, id), pend, end);
    } else {
      var s := if onTaken then x.skipped else x.taken;
      ActiveMeans(t, env, s, pend, end);
      var (a, l) := ActiveLookupOrScan(t, env, s);
      FollowsFlush(t, a);
      if a.gen == t.gen {
        GrownTrace(t, a);
        SameFields(t, a);
        SourceBlock(t, pend, link, id, spc);
        FoundStays(t, env, s, if onTaken then x.taken else x.skipped);
        BranchPatched(t, env, a, link, id, onTaken, l, pend);
      } else {
        BranchFlushed(t, env, a, link, id, onTaken, l);
      }
    }
  }

  lemma SourceBlock(t: Thread, pend: nat, link: Loc, id: nat, spc: nat)
    requires t.intact ==> link.addr < TRACES && id == Owner(t.actual, link.addr / BLOCK_BYTES) && Source(t, pend, t.active.id, link, spc)
    ensures t.intact ==> Live(t, id) && link.addr / BLOCK_BYTES < t.freeBlock
  {
  }

  lemma AssertedOnly(t: Thread)
    requires Entries(t)
    ensures Entries(t.(asserted := false))
  {
  }

  lemma FollowsFlush(t: Thread, r: Thread)
    requires Follows(t, r)
    ensures r.gen >= t.gen && (r.gen > t.gen ==> r.wasFlushed) && (r.gen == t.gen ==> r.wasFlushed == t.wasFlushed) && (Core(t) ==> Core(r))
  {
  }

  lemma BranchFlushed(t: Thread, env: Env, a: Thread, link: Loc, id: nat, onTaken: bool, l: Loc)
    requires id in t.bbs && Entries(a) && a.gen != t.gen
    ensures var r := Relinked(t, env, a, id, onTaken, l, link);
            !r.intact && Entries(r) && Cache(r) && r.wasFlushed == a.wasFlushed
  {
    hide At, CodeOk, Entries, Relinked, AssertedAfter;
    var r := Relinked(t, env, a, id, onTaken, l, link);
    RelinkedFields(t, env, a, id, onTaken, l, link);
    Elsewhere(a, r);
    OnlyEntries(r, 0, r.traceId);
  }

  lemma KnownLater(t: Thread, a: Thread, id: nat, link: Loc)
    requires Grown(t, a) && Live(t, id) && link.addr / BLOCK_BYTES < t.freeBlock
    ensures Live(a, id) && a.bbs[id] == t.bbs[id] && link.addr / BLOCK_BYTES < a.freeBlock
    ensures Owner(a.actual, link.addr / BLOCK_BYTES) == Owner(t.actual, link.addr / BLOCK_BYTES)
  {
  }

  lemma CacheEntries(t: Thread, pend: nat, end: nat)
    requires CacheTo(t, pend, end)
    ensures Entries(t)
  {
  }

  /** What has been found is found again after a lookup that did not flush. */
  lemma FoundStays(t: Thread, env: Env, s: nat, spc: nat)
    requires Core(t) && Live(t, t.active.sourceBb) && ActiveLookup(t, spc).Found?
             && ActiveLookupOrScan(t, env, s).0.gen == t.gen
    ensures ActiveLookup(ActiveLookupOrScan(t, env, s).0, spc).Found?
  {
    hide BlocksOwned, MarkOverflow, Disjoint, Sorted;
  }

  /** Neither link lists, nor exits of blocks, nor the history matter to where translations are. */
  lemma Elsewhere(a: Thread, r: Thread)
    requires r == a.(linked := r.linked, links := r.links, intact := r.intact, asserted := r.asserted)
    ensures Entries(a) ==> Entries(r)
    ensures forall e, s, l :: At(a, e, s, l) ==> At(r, e, s, l)
  {
  }

  lemma AdvanceRewritten(t: Thread, a: Thread, r: Thread, pend: nat)
    requires t.intact && KeepsAll(t, pend, t.active.id, a, pend, t.active.id) && SameTrace(t, a)
             && t.wasFlushed == a.wasFlushed
             && a.code == t.code
    requires r == a.(linked := r.linked, links := r.links, intact := r.intact, asserted := r.asserted)
    ensures Advances(t, r, pend)
  {
    Elsewhere(a, r);
    hide At, Entries;
    forall x | x in t.code && Whole(t, pend, x)
      ensures KeptAt(t, r, t.active.id, x) { assert KeptAt(t, a, t.active.id, x); }
  }

  lemma BranchPatched(t: Thread, env: Env, a: Thread, link: Loc, id: nat, onTaken: bool, l: Loc, pend: nat)
    requires Core(a) && CacheTo(a, pend, t.active.id) && HeadOk(a) && Grown(t, a) && !t.wasFlushed
             && t.traceId <= t.active.id
    requires id in t.bbs && t.bbs[id].exit.kind == Branch
    requires var x := t.bbs[id].exit; At(a, t.active.id, if onTaken then x.skipped else x.taken, l)
    requires t.intact ==> Live(t, id) && link.addr < TRACES && id == Owner(t.actual, link.addr / BLOCK_BYTES) && link.addr / BLOCK_BYTES < t.freeBlock
    requires var x := t.bbs[id].exit; ActiveLookup(a, if onTaken then x.taken else x.skipped).Found?
    requires t.intact ==> link.gen == t.gen
    ensures var r := Relinked(t, env, a, id, onTaken, l, link);
            !r.wasFlushed && CacheTo(r, pend, t.active.id) && (r.intact ==> Advances(t, r, pend))
  {
    hide Core, CodeOk, At, ActiveLookup, AddLink, Source, Entries, Grown, SameTrace, KeepsAll, Live, HeadOk;
    var x, end := t.bbs[id].exit, t.active.id;
    var s, s' := if onTaken then x.skipped else x.taken, if onTaken then x.taken else x.skipped;
    var b := Rewritten(t, env, a, id, onTaken, l);
    var r := Relinked(t, env, a, id, onTaken, l, link);
    GrownTrace(t, a);
    SameFields(t, a);
    CacheEntries(a, pend, end);
    Elsewhere(a, r);
    if t.intact {
      KnownLater(t, a, id, link);
      FoundMeans(a, s');
      BothRight(a, end, id, b.linked[id], b.intact, pend);
      BoundsOf(a);
      if l.addr < TRACES {
        BlockOfSource(b, pend, end, link, id, s);
        LinkMeans(b, pend, end, link, l, s);
      }
      GrownKeeps(t, a, pend, end);
      AdvanceRewritten(t, a, r, pend);
    }
  }

  lemma BoundsOf(t: Thread)
    requires Core(t)
    ensures Bounds(t)
  {
  }

  /** A link of discarded code, or for a discarded trace: nothing is claimed about code from then on. */
  lemma BrokenLinkMeans(t: Thread, env: Env, link: Loc, spc: nat)
    requires Core(t) && Scanner(env) && Entries(t) && !(t.intact && link.gen == t.gen == t.active.entry.gen)
    ensures var r := InstallLink(t, env, link, spc); Entries(r) && !r.intact
  {
    hide Core, At, ActiveLookup, LookupOrScan, AddLink, CodeOk, Grown, Scanner;
    var a := t.(intact := false);
    Elsewhere(t, a);
    IntactCore(t);
    IdsOrdered(t);
    var block := link.addr / BLOCK_BYTES;
    var id := if block in t.actual then t.actual[block] else block;
    if link.addr >= TRACES {
      PatchEntries(a, link.addr, spc);
    } else if id in t.bbs && t.bbs[id].exit.kind == Branch {
      BrokenBranch(a, env, link, id);
    } else {
      Elsewhere(a, a.(linked := a.linked[id := Through(a.active.entry)]));
    }
  }

  lemma IntactCore(t: Thread)
    requires Core(t)
    ensures Core(t.(intact := false))
  {
  }

  lemma PatchEntries(t: Thread, at: nat, spc: nat)
    requires Entries(t)
    ensures Entries(PatchTrace(t, at, spc))
  {
  }

  lemma BrokenBranch(t: Thread, env: Env, link: Loc, id: nat)
    requires Core(t) && Scanner(env) && Entries(t) && !t.intact && id in t.bbs
    ensures var r := PatchBranch(t, env, link, id); Entries(r) && !r.intact
  {
    hide Core, At, ActiveLookup, LookupOrScan, AddLink, CodeOk, Scanner, Entries;
    var x := t.bbs[id].exit;
    var onTaken := ActiveLookup(t, x.taken).Found?;
    IdsOrdered(t);
    AssertedOnly(t);
    LookupEntries(t, env, if onTaken then x.skipped else x.taken);
    var (a, l) := ActiveLookupOrScan(t, env, if onTaken then x.skipped else x.taken);
    Elsewhere(a, RecordLink(Rewritten(t, env, a, id, onTaken, l), link, l));
    Elsewhere(a, Rewritten(t, env, a, id, onTaken, l));
  }

  lemma LookupEntries(t: Thread, env: Env, spc: nat)
    requires Core(t) && Scanner(env) && Entries(t) && !t.intact
    ensures var r := ActiveLookupOrScan(t, env, spc).0; Entries(r) && !r.intact
  {
    hide Core, At, Place, Scanner;
    IdsOrdered(t);
    LookupMeans(t, env, spc, 0, t.traceId);
    LookupFollows(t, env, spc);
    LookupIntact(t, env, spc);
  }

  lemma LookupIntact(t: Thread, env: Env, spc: nat)
    ensures LookupOrScan(t, env, spc).0.intact == t.intact
  {
  }

  lemma InstallLinkMeans(t: Thread, env: Env, link: Loc, spc: nat, pend: nat)
    requires Core(t) && Scanner(env) && CacheTo(t, pend, t.active.id) && HeadOk(t) && Live(t, t.active.sourceBb)
             && !t.wasFlushed
    requires t.frags[t.traceId].source == spc && (t.intact && link.gen == t.gen ==> Source(t, pend, t.active.id, link, spc))
    ensures var r := InstallLink(t, env, link, spc);
            if r.wasFlushed then Cache(r) else CacheTo(r, pend, t.active.id) && (r.intact ==> Advances(t, r, pend))
  {
    hide Core, CodeOk, At, Source, Scanner, PatchBranch, PatchTrace, Advances, Live, HeadOk, Entries;
    IdsOrdered(t);
    CacheEntries(t, pend, t.active.id);
    EntryHead(t);
    if t.intact && link.gen == t.gen {
      assert t.(intact := true) == t;
      TraceHeadAt(t);
      var block := link.addr / BLOCK_BYTES;
      var id := if block in t.actual then t.actual[block] else block;
      if link.addr >= TRACES {
        SourceJumps(t, pend, link, spc);
        CoreDisjoint(t);
        PatchTraceMeans(t, link.addr, spc, pend);
      } else if id in t.bbs && t.bbs[id].exit.kind == Branch {
        PatchBranchMeans(t, env, link, id, spc, pend);
      } else {
        SourceOfBlock(t, pend, t.active.id, link, id, spc);
        PatchJumpMeans(t, id, spc, pend);
      }
    } else {
      BrokenLinkMeans(t, env, link, spc);
      OnlyEntries(InstallLink(t, env, link, spc), pend, t.active.id);
    }
  }

  lemma EntryHead(t: Thread)
    requires HeadOk(t)
    ensures t.active.entry.gen == t.gen && t.traceId in t.frags
  {
  }

  lemma TraceHeadAt(t: Thread)
    requires HeadOk(t)
    ensures At(t, t.active.id, t.frags[t.traceId].source, t.active.entry)
  {
    assert FragAt(t.frags, t.active.id, t.frags[t.traceId].source, t.active.entry);
  }

  lemma SourceJumps(t: Thread, pend: nat, link: Loc, spc: nat)
    requires Source(t, pend, t.active.id, link, spc) && link.addr >= TRACES
    ensures Jumps(t, pend, t.active.id, link.addr, spc)
  {
  }

  lemma AdvancesTrans(t: Thread, r: Thread, s: Thread, pend: nat)
    requires Advances(t, r, pend) && Advances(r, s, pend)
    ensures Advances(t, s, pend)
  {
    var end := t.active.id;
    SameFields(t, r);
    TransTrace(t, r, s);
    hide At, SameTrace;
    forall a | a in t.code && Whole(t, pend, a) ensures KeptAt(t, s, end, a) {
      assert KeptAt(t, r, end, a);
      assert Whole(r, pend, a) && KeptAt(r, s, end, a);
      if r.code[a].Jump? && At(r, end, r.code[a].spc, r.code[a].to) { AtCarried(r, end, s, end, r.code[a].spc, r.code[a].to); }
    }
  }

  lemma TransTrace(t: Thread, r: Thread, s: Thread)
    requires SameTrace(t, r) && SameTrace(r, s)
    ensures SameTrace(t, s)
  {
  }

  lemma AdvancesSelf(t: Thread, pend: nat)
    requires t.intact && t.traceId <= t.active.id
    ensures Advances(t, t, pend)
  {
  }

  lemma AdvancesIntact(t: Thread, r: Thread, pend: nat)
    requires Advances(t, r, pend)
    ensures t.intact
  {
  }

  /** The trace being installed is still in place, unless a flush shows. */
  lemma AfterOne(t: Thread, r: Thread)
    requires Follows(t, r) && !r.wasFlushed && HeadOk(t) && Live(t, t.active.sourceBb)
    ensures Core(r) && HeadOk(r) && Live(r, r.active.sourceBb) && r.active == t.active && r.frags == t.frags
            && r.traceId == t.traceId
    ensures r.gen == t.gen
  {
  }

  lemma SourcesKept(t: Thread, r: Thread, links: seq<Loc>, spc: nat, pend: nat)
    requires Advances(t, r, pend) && forall k | 0 <= k < |links| && links[k].gen == t.gen :: Source(t, pend, t.active.id, links[k], spc)
    ensures forall k | 0 <= k < |links| && links[k].gen == t.gen :: Source(r, pend, t.active.id, links[k], spc)
  {
    hide Source, KeepsAll, SameTrace;
    forall k | 0 <= k < |links| && links[k].gen == t.gen ensures Source(r, pend, t.active.id, links[k], spc) {
      SourceCarried(t, pend, t.active.id, r, pend, t.active.id, links[k], spc);
    }
  }

  /** All links to the head's block are rewritten; what they and the installed traces depend on is kept. */
  lemma {:induction false} InstallLinksMean(t: Thread, env: Env, links: seq<Loc>, spc: nat, pend: nat)
    requires Core(t) && Scanner(env) && CacheTo(t, pend, t.active.id) && HeadOk(t) && Live(t, t.active.sourceBb)
             && !t.wasFlushed
    requires t.frags[t.traceId].source == spc
    requires t.intact ==> forall k | 0 <= k < |links| && links[k].gen == t.gen :: Source(t, pend, t.active.id, links[k], spc)
    ensures var r := InstallLinks(t, env, links, spc);
            if r.wasFlushed then Cache(r) else CacheTo(r, pend, t.active.id) && (r.intact ==> Advances(t, r, pend))
    decreases |links|
  {
    hide Core, CodeOk, At, Source, Scanner, InstallLink, Advances, Live, HeadOk, Entries, Follows, Cache, CacheTo;
    IdsOrdered(t);
    EntryHead(t);
    if links == [] {
      if t.intact { AdvancesSelf(t, pend); }
    } else {
      InstallLinkMeans(t, env, links[0], spc, pend);
      InstallLinkFollows(t, env, links[0], spc);
      var r := InstallLink(t, env, links[0], spc);
      if !r.wasFlushed {
        AfterOne(t, r);
        var rest := links[1..];
        if r.intact {
          AdvancesIntact(t, r, pend);
          SourcesKept(t, r, links, spc, pend);
          assert forall k | 0 <= k < |rest| :: rest[k] == links[k + 1];
        }
        InstallLinksMean(r, env, rest, spc, pend);
        var s := InstallLinks(r, env, rest, spc);
        if !s.wasFlushed && s.intact {
          AdvancesIntact(r, s, pend);
          AdvancesTrans(t, r, s, pend);
        }
      }
    }
  }

  // ---------- install_trace ----------

  function LastExit(t: Thread): ExitType {
    if t.active.id > 0 && t.active.id - 1 in t.frags then t.frags[t.active.id - 1].exit.kind else Unknown
  }

  /** Where the closing jump of the trace in progress stands, if it needs one. */
  function Pending(t: Thread): nat {
    if LastExit(t) == Branch || LastExit(t) == Jal then ResumeAt(t.frags[t.active.id - 1]) else 0
  }

  /** The last fragment needs no exit, or its closing jump has been written. */
  predicate LastDone(t: Thread) {
    && t.active.id > 0 && t.active.id - 1 in t.frags && t.frags[t.active.id - 1].exitAddr <= t.active.writeP
    && (LastExit(t) == Branch || LastExit(t) == Jal ==>
          var p := Pending(t);
          && t.traceNext <= p && Ordered(t.active.exits, t.traceNext, p)
          && p in t.code && t.code[p].Jump? && p + WordSize(p, t.code[p]) <= t.active.writeP && Jumps(t, p, t.active.id, p, t.code[p].spc)
                && GoesTo(t, t.active.id - 1, t.code[p].spc))
  }

  /** Everything in place for the commit. */
  predicate Finished(t: Thread) {
    && Faithful(t) && Ordered(t.active.exits, t.traceNext, t.active.writeP) && t.traceNext <= t.active.writeP
    && (t.intact ==> LastDone(t) && Chained(t))
  }

  /** A word that stands apart from the branches to stubs and in front of the stubs is kept. */
  lemma {:induction false} StubCodeFrame(code: map<nat, Patched>, exits: seq<Exit>, w: nat, a: nat)
    requires a in code && a + WordSize(a, code[a]) <= w
    requires forall i | 0 <= i < |exits| :: exits[i].from + 4 <= a || a + WordSize(a, code[a]) <= exits[i].from
    ensures var r := StubCode(code, exits, w); a in r && r[a] == code[a]
    decreases |exits|
  {
    hide JumpSize, Written, WordSize;
    if exits != [] {
      var e := exits[0];
      var next := Written(Written(code, e.from, Leave(!e.taken, w)), w, Jump(e.to, e.spc));
      LeaveSize(e.from, !e.taken, w);
      WrittenFrame(code, e.from, Leave(!e.taken, w), a);
      WrittenFrame(Written(code, e.from, Leave(!e.taken, w)), w, Jump(e.to, e.spc), a);
      StubCodeFrame(next, exits[1..], w + JumpSize(w, e.to.addr), a);
    }
  }

  lemma LeaveSize(at: nat, whenTaken: bool, stub: nat)
    ensures WordSize(at, Leave(whenTaken, stub)) == 4
  {
  }

  lemma WrittenFrame(code: map<nat, Patched>, at: nat, word: Patched, a: nat)
    requires a in code && (a + WordSize(a, code[a]) <= at || at + WordSize(at, word) <= a)
    ensures var r := Written(code, at, word); a in r && r[a] == code[a]
  {
    assert WordSize(at, word) > 0 && WordSize(a, code[a]) > 0;
    hide WordSize;
  }

  /** The place of stub `i`. */
  function StubAt(exits: seq<Exit>, w: nat, i: nat): nat
    requires i < |exits|
    decreases i
  {
    if i == 0 then w else StubAt(exits[1..], w + JumpSize(w, exits[0].to.addr), i - 1)
  }

  /** The branch of exit `i` leads to its stub on the outcome the trace does not follow. */
  lemma {:induction false} StubOf(code: map<nat, Patched>, exits: seq<Exit>, start: nat, w: nat, i: nat)
    requires i < |exits| && Ordered(exits, start, w)
    ensures var r, stub := StubCode(code, exits, w), StubAt(exits, w, i);
            && exits[i].from in r && r[exits[i].from] == Leave(!exits[i].taken, stub)
            && stub in r && r[stub] == Jump(exits[i].to, exits[i].spc)
            && w <= stub && stub + JumpSize(stub, exits[i].to.addr) <= StubsEnd(exits, w)
    decreases |exits|
  {
    hide JumpSize, Written;
    var e, size, rest := exits[0], JumpSize(w, exits[0].to.addr), exits[1..];
    var left := Written(code, e.from, Leave(!e.taken, w));
    var first := Written(left, w, Jump(e.to, e.spc));
    StubsGrow(rest, w + size);
    OrderedRest(exits, start, w, size);
    if i == 0 {
      WrittenThere(code, e.from, Leave(!e.taken, w));
      WrittenThere(left, w, Jump(e.to, e.spc));
      WrittenFrame(left, w, Jump(e.to, e.spc), e.from);
      StubCodeFrame(first, rest, w + size, e.from);
      StubCodeFrame(first, rest, w + size, w);
    } else {
      StubOf(first, rest, start, w + size, i - 1);
    }
  }

  lemma WrittenApart(code: map<nat, Patched>, at: nat, word: Patched, limit: nat)
    requires limit <= at
    ensures Apart(code, Written(code, at, word), limit)
  {
    hide WordSize;
  }

  lemma WrittenClear(code: map<nat, Patched>, at: nat, word: Patched, m: FragMeta)
    requires Clear(code, m) && (at + WordSize(at, word) <= m.tpc || m.exitAddr <= at)
    ensures Clear(Written(code, at, word), m)
  {
    hide WordSize;
  }

  lemma ApartTrans(a: map<nat, Patched>, b: map<nat, Patched>, c: map<nat, Patched>, limit: nat)
    requires Apart(a, b, limit) && Apart(b, c, limit)
    ensures Apart(a, c, limit)
  {
    hide WordSize;
  }

  /** Stubs and the branches to them lie behind the installed traces. */
  lemma {:induction false} StubCodeApart(code: map<nat, Patched>, exits: seq<Exit>, w: nat, limit: nat)
    requires limit <= w && forall i | 0 <= i < |exits| :: limit <= exits[i].from
    ensures Apart(code, StubCode(code, exits, w), limit)
    decreases |exits|
  {
    hide JumpSize, Written, WordSize, Apart;
    if exits == [] {
      ApartSelf(code, limit);
    } else {
      var e := exits[0];
      var left := Written(code, e.from, Leave(!e.taken, w));
      var next := Written(left, w, Jump(e.to, e.spc));
      WrittenApart(code, e.from, Leave(!e.taken, w), limit);
      WrittenApart(left, w, Jump(e.to, e.spc), limit);
      ApartTrans(code, left, next, limit);
      StubCodeApart(next, exits[1..], w + JumpSize(w, e.to.addr), limit);
      ApartTrans(code, next, StubCode(next, exits[1..], w + JumpSize(w, e.to.addr)), limit);
    }
  }

  lemma ApartSelf(code: map<nat, Patched>, limit: nat)
    ensures Apart(code, code, limit)
  {
  }

  /** They leave a fragment alone if all branches lie in front of it or behind its exit. */
  lemma {:induction false} StubCodeClear(code: map<nat, Patched>, exits: seq<Exit>, w: nat, m: FragMeta)
    requires Clear(code, m) && m.exitAddr <= w && forall i | 0 <= i < |exits| :: exits[i].from + 4 <= m.tpc || m.exitAddr <= exits[i].from
    ensures Clear(StubCode(code, exits, w), m)
    decreases |exits|
  {
    hide JumpSize, Written, WordSize, Clear;
    if exits != [] {
      var e := exits[0];
      var left := Written(code, e.from, Leave(!e.taken, w));
      LeaveSize(e.from, !e.taken, w);
      WrittenClear(code, e.from, Leave(!e.taken, w), m);
      WrittenClear(left, w, Jump(e.to, e.spc), m);
      StubCodeClear(Written(left, w, Jump(e.to, e.spc)), exits[1..], w + JumpSize(w, e.to.addr), m);
    }
  }

  lemma WrittenThere(code: map<nat, Patched>, at: nat, word: Patched)
    ensures at in Written(code, at, word) && Written(code, at, word)[at] == word
  {
  }

  lemma OrderedRest(exits: seq<Exit>, start: nat, w: nat, size: nat)
    requires exits != [] && Ordered(exits, start, w)
    ensures Ordered(exits[1..], start, w + size) && exits[0].from + 4 <= w
    ensures forall k | 0 <= k < |exits[1..]| :: exits[0].from + 4 <= exits[1..][k].from && exits[1..][k].from + 4 <= w
  {
    var rest := exits[1..];
    forall k | 0 <= k < |rest| ensures exits[0].from + 4 <= rest[k].from && rest[k].from + 4 <= w { assert rest[k] == exits[k + 1]; }
    forall k, j | 0 <= k < j < |rest| ensures rest[k].from + 4 <= rest[j].from { assert exits[k + 1].from + 4 <= exits[j + 1].from; }
  }

  lemma {:induction false} StubsGrow(exits: seq<Exit>, w: nat)
    ensures StubsEnd(exits, w) >= w
    decreases |exits|
  {
    if exits != [] { StubsGrow(exits[1..], w + JumpSize(w, exits[0].to.addr)); }
  }

  /** The state between the stubs and the publication. */
  function Stubbed(t: Thread): Thread {
    t.(code := StubCode(t.code, t.active.exits, t.active.writeP))
  }

  /** The closing jump, if one is needed, stands complete in front of the stubs. */
  predicate PendingFits(t: Thread) {
    var p, code := Pending(t), Stubbed(t).code;
    p != 0 ==> p in code && p + WordSize(p, code[p]) <= t.active.writeP
  }

  /** What the installed traces and recorded links depend on survives the stubs, the closing jump included. */
  lemma StubbedCode(t: Thread)
    requires Finished(t) && LastDone(t) && t.traceId <= t.active.id && 0 < t.traceNext
    ensures KeepsAll(t, Pending(t), t.active.id, Stubbed(t), Pending(t), t.active.id) && PendingFits(t)
    ensures var p := Pending(t); p in t.code && p != 0 ==> p in Stubbed(t).code && Stubbed(t).code[p] == t.code[p]
  {
    hide Faithful, At, GoesTo, StubCode, WordSize, Apart, Chained;
    StubCodeApart(t.code, t.active.exits, t.active.writeP, t.traceNext);
    var r, pend := Stubbed(t), Pending(t);
    forall a: nat | a in t.code && Whole(t, pend, a) ensures a in r.code && r.code[a] == t.code[a] {
      StubCodeFrame(t.code, t.active.exits, t.active.writeP, a);
    }
  }

  lemma StubbedKeeps(t: Thread)
    requires Finished(t) && LastDone(t) && CodeOk(t, Pending(t), t.active.id) && t.traceId <= t.active.id
             && 0 < t.traceNext
    ensures CodeOk(Stubbed(t), Pending(t), t.active.id) && PendingFits(t)
  {
    hide CodeOk, Finished, LastDone, KeepsAll, StubCode, PendingFits;
    StubbedCode(t);
    CodeCarried(t, Pending(t), t.active.id, Stubbed(t), Pending(t), t.active.id, -1);
  }

  lemma CommitFields(t: Thread, spc: nat)
    ensures var r := Commit(t, spc);
            && r.gen == t.gen && r.first == t.first && r.freeBlock == t.freeBlock && r.bbs == t.bbs
                  && r.actual == t.actual && r.frags == t.frags
            && r.linked == t.linked && r.asserted == t.asserted && r.intact == t.intact && r.code == Stubbed(t).code
            && r.traceId == t.active.id == r.active.id && r.entry == t.entry[spc := t.active.entry]
            && r.traceNext == StubsEnd(t.active.exits, t.active.writeP)
            && r.links == StubLinks(t.links, t.active.entry.gen, t.active.exits, t.active.writeP)
  {
  }

  /** Publishing the trace turns everything known about its end into something known about installed traces. */
  lemma JumpsSettle(t: Thread, spc: nat, at: nat, s: nat)
    requires Jumps(Stubbed(t), Pending(t), t.active.id, at, s) && t.traceNext <= t.active.writeP && PendingFits(t)
    ensures Jumps(Commit(t, spc), 0, t.active.id, at, s)
  {
    CommitFields(t, spc);
    StubsGrow(t.active.exits, t.active.writeP);
    hide Commit, StubCode, StubLinks, StubsEnd;
  }

  lemma WholeSettles(t: Thread, spc: nat, a: nat)
    requires Whole(Stubbed(t), Pending(t), a) && t.traceNext <= t.active.writeP && PendingFits(t)
    ensures Whole(Commit(t, spc), 0, a) && Commit(t, spc).code[a] == Stubbed(t).code[a]
  {
    CommitFields(t, spc);
    StubsGrow(t.active.exits, t.active.writeP);
    hide Commit, StubCode, StubLinks, StubsEnd, WordSize;
  }

  /** A recorded exit, once its stub is written. */
  lemma StubJumps(t: Thread, spc: nat, i: nat)
    requires Finished(t) && i < |t.active.exits|
    ensures var r, e, stub := Commit(t, spc), t.active.exits[i], StubAt(t.active.exits, t.active.writeP, i);
            && e.fragment in r.frags && e.from in r.code && r.code[e.from] == Leave(!e.taken, stub) && Whole(r, 0, e.from)
            && e.spc == NotFollowed(r.frags[e.fragment].exit, e.taken) && At(r, t.active.id, e.spc, e.to)
                  && Jumps(r, 0, t.active.id, stub, e.spc)
  {
    var e := t.active.exits[i];
    hide At, Continues, HeadOk, StubCode, StubsEnd, LastDone;
    assert Leaves(t, e);
    CommitFields(t, spc);
    StubsGrow(t.active.exits, t.active.writeP);
    StubOf(t.code, t.active.exits, t.traceNext, t.active.writeP, i);
    CommitAt(t, spc, e.spc, e.to);
  }

  lemma CommitAt(t: Thread, spc: nat, s: nat, l: Loc)
    requires At(t, t.active.id, s, l)
    ensures At(Commit(t, spc), t.active.id, s, l)
  {
    CommitFields(t, spc);
  }

  /** A fragment of the committed trace leaves and goes on as recorded. */
  lemma CommittedRight(t: Thread, spc: nat, f: nat, onward: nat)
    requires Finished(t) && f in t.frags && GoesTo(t, f, onward) && t.traceId <= f < t.active.id
    requires Onward(Commit(t, spc), 0, t.active.id, f, ResumeAt(t.frags[f]), onward)
    ensures f in Commit(t, spc).frags && Right(Commit(t, spc), 0, t.active.id, f)
  {
    var m := t.frags[f];
    CommitFields(t, spc);
    if m.exit.kind == Branch {
      var i :| 0 <= i < |t.active.exits| && t.active.exits[i].fragment == f && Followed(m.exit, t.active.exits[i].taken) == onward;
      var e := t.active.exits[i];
      assert Leaves(t, e);
      StubJumps(t, spc, i);
      hide Jumps, Onward, Commit, Finished;
    } else {
      hide Onward, Commit, Finished;
    }
  }

  /** Behind an inner fragment stands the next one, behind the last one its closing jump. */
  lemma CommittedOnward(t: Thread, spc: nat, f: nat) returns (onward: nat)
    requires Finished(t) && LastDone(t) && t.traceId <= f < t.active.id && f in t.frags && 0 < t.traceNext
             && (t.frags[f].exit.kind == Branch || t.frags[f].exit.kind == Jal)
    ensures GoesTo(t, f, onward) && Onward(Commit(t, spc), 0, t.active.id, f, ResumeAt(t.frags[f]), onward)
  {
    CommitFields(t, spc);
    hide Commit, At, Leaves, HeadOk, Ordered, KeepsAll;
    if f < t.active.id - 1 {
      assert Continues(t, f);
      onward := t.frags[f + 1].source;
    } else {
      var p := Pending(t);
      onward := t.code[p].spc;
      StubbedCode(t);
      AtStubbed(t, onward, t.code[p].to);
      JumpsSettle(t, spc, p, onward);
    }
  }

  lemma AtStubbed(t: Thread, spc: nat, l: Loc)
    requires At(t, t.active.id, spc, l)
    ensures At(Stubbed(t), t.active.id, spc, l)
  {
  }

  lemma CommittedFragment(t: Thread, spc: nat, f: nat)
    requires Finished(t) && LastDone(t) && t.traceId <= f < t.active.id && 0 < t.traceNext
    ensures f in Commit(t, spc).frags && Right(Commit(t, spc), 0, t.active.id, f)
  {
    hide Right, Onward, GoesTo, Ordered, Leaves, At;
    assert f in t.frags by { if f < t.active.id - 1 { assert Continues(t, f); } }
    CommitFields(t, spc);
    if t.frags[f].exit.kind == Branch || t.frags[f].exit.kind == Jal {
      var onward := CommittedOnward(t, spc, f);
      CommittedRight(t, spc, f, onward);
    } else {
      NothingToDo(Commit(t, spc), f);
    }
  }

  lemma NothingToDo(t: Thread, f: nat)
    requires f in t.frags && t.frags[f].exit.kind != Branch && t.frags[f].exit.kind != Jal
    ensures Right(t, 0, t.traceId, f)
  {
  }

  /** A fragment installed earlier is as right as before. */
  lemma EarlierRight(t: Thread, spc: nat, f: nat)
    requires Installed(Stubbed(t), Pending(t), t.active.id) && CODE_CACHE_SIZE <= f < t.traceId <= t.active.id
             && 0 < t.traceNext <= t.active.writeP && PendingFits(t)
    ensures f in Commit(t, spc).frags && Right(Commit(t, spc), 0, t.active.id, f)
  {
    var b := Stubbed(t);
    assert f in b.frags && Right(b, Pending(t), t.active.id, f);
    CommitFields(t, spc);
    StubsGrow(t.active.exits, t.active.writeP);
    hide Jumps, Commit, StubCode, StubsEnd, StubLinks;
    if b.frags[f].exit.kind == Branch { WholeSettles(t, spc, b.frags[f].exitAddr); }
    hide Whole;
    forall at, s | Jumps(b, Pending(t), t.active.id, at, s)
      ensures Jumps(Commit(t, spc), 0, t.active.id, at, s) { JumpsSettle(t, spc, at, s); }
  }

  lemma EarlierSits(t: Thread, spc: nat, f: nat)
    requires Installed(Stubbed(t), Pending(t), t.active.id) && CODE_CACHE_SIZE <= f < t.traceId
             && t.traceNext <= t.active.writeP
    ensures f in t.frags && Sits(Commit(t, spc).code, t.frags[f], Commit(t, spc).traceNext)
  {
    CommitFields(t, spc);
    StubsGrow(t.active.exits, t.active.writeP);
    hide Right, Commit, StubCode, StubsEnd, Clear;
  }

  /** Before the links of the stubs are recorded. */
  lemma LinksSettle(t: Thread, spc: nat)
    requires LinksOk(Stubbed(t), Pending(t), t.active.id) && ExitsRight(Stubbed(t), t.active.id)
             && 0 < t.traceNext <= t.active.writeP && PendingFits(t)
    ensures LinksOk(Commit(t, spc).(links := t.links), 0, t.active.id) && ExitsRight(Commit(t, spc), t.active.id)
  {
    var b, r, c := Stubbed(t), Commit(t, spc), Commit(t, spc).(links := t.links);
    CommitFields(t, spc);
    hide Commit, StubCode, StubsEnd, StubLinks, Jumps, At;
    forall s, l | At(b, t.active.id, s, l) ensures At(r, t.active.id, s, l) { StubbedAt(t, spc, s, l); }
    forall at, s | Jumps(b, Pending(t), t.active.id, at, s) ensures Jumps(c, 0, t.active.id, at, s) {
      JumpsSettle(t, spc, at, s);
      JumpsLinks(r, t.links, t.active.id, at, s);
    }
    forall id, k | id in c.links && id < CODE_CACHE_SIZE && 0 <= k < |c.links[id]|
      ensures Incoming(c, 0, t.active.id, id, c.links[id][k]) {
      assert Incoming(b, Pending(t), t.active.id, id, b.links[id][k]);
    }
  }

  lemma StubbedAt(t: Thread, spc: nat, s: nat, l: Loc)
    requires At(Stubbed(t), t.active.id, s, l)
    ensures At(Commit(t, spc), t.active.id, s, l)
  {
    CommitFields(t, spc);
  }

  lemma JumpsLinks(t: Thread, links: map<nat, seq<Loc>>, end: nat, at: nat, s: nat)
    requires Jumps(t, 0, end, at, s)
    ensures Jumps(t.(links := links), 0, end, at, s)
  {
  }

  /** Recording the links of the stubs. */
  lemma {:induction false} StubLinksOk(t: Thread, links: map<nat, seq<Loc>>, end: nat, exits: seq<Exit>, w: nat)
    requires LinksOk(t.(links := links), 0, end) && Bounds(t) && w >= TRACES
    requires forall i | 0 <= i < |exits| :: Jumps(t, 0, end, StubAt(exits, w, i), exits[i].spc) && At(t, end, exits[i].spc, exits[i].to)
    ensures LinksOk(t.(links := StubLinks(links, t.gen, exits, w)), 0, end)
    decreases |exits|
  {
    hide LinksOk, At, AddLink, JumpSize, Jumps;
    if exits != [] {
      var a, from, e := t.(links := links), Loc(w, t.gen), exits[0];
      var size := JumpSize(w, e.to.addr);
      assert StubAt(exits, w, 0) == w;
      JumpsLinks(t, links, end, w, e.spc);
      AtLinks(t, links, end, e.spc, e.to);
      LinkAdded(a, 0, end, from, e.to, e.spc);
      assert RecordLink(a, from, e.to) == t.(links := AddLink(links, from, e.to));
      forall i | 0 <= i < |exits[1..]|
        ensures Jumps(t, 0, end, StubAt(exits[1..], w + size, i), exits[1..][i].spc)
                && At(t, end, exits[1..][i].spc, exits[1..][i].to)
      {
        assert StubAt(exits, w, i + 1) == StubAt(exits[1..], w + size, i) && exits[1..][i] == exits[i + 1];
      }
      StubLinksOk(t, AddLink(links, from, e.to), end, exits[1..], w + size);
    }
  }

  lemma AtLinks(t: Thread, links: map<nat, seq<Loc>>, end: nat, spc: nat, l: Loc)
    requires At(t, end, spc, l)
    ensures At(t.(links := links), end, spc, l)
  {
  }

  lemma CommitLinks(t: Thread, spc: nat)
    requires Finished(t) && LinksOk(Commit(t, spc).(links := t.links), 0, t.active.id) && Bounds(Commit(t, spc))
             && t.active.writeP >= TRACES
    requires t.active.entry.gen == t.gen
    ensures LinksOk(Commit(t, spc), 0, t.active.id)
  {
    var r := Commit(t, spc);
    CommitFields(t, spc);
    hide Commit, LinksOk, StubLinks, StubCode, StubsEnd, At, Jumps, Finished;
    forall i | 0 <= i < |t.active.exits|
      ensures Jumps(r, 0, t.active.id, StubAt(t.active.exits, t.active.writeP, i), t.active.exits[i].spc)
      ensures At(r, t.active.id, t.active.exits[i].spc, t.active.exits[i].to)
    {
      StubJumps(t, spc, i);
    }
    StubLinksOk(r, t.links, t.active.id, t.active.exits, t.active.writeP);
    assert r == r.(links := StubLinks(t.links, r.gen, t.active.exits, t.active.writeP));
  }

  /** Publishing a complete trace: its fragments are right, and the installed ones stay so. */
  lemma CommitInstalled(t: Thread, spc: nat)
    requires Finished(t) && LastDone(t) && Chained(t) && Installed(t, Pending(t), t.active.id)
    requires CODE_CACHE_SIZE <= t.traceId <= t.active.id && 0 < t.traceNext
    ensures Installed(Commit(t, spc), 0, t.active.id)
  {
    StubbedCode(t);
    CommitFields(t, spc);
    FinishedBehind(t);
    hide Commit, PendingFits, At, Right, Finished, LastDone, Stubbed, Sits, Chained, KeepsAll;
    var r := Commit(t, spc);
    InstalledCarried(t, Pending(t), t.active.id, Stubbed(t), Pending(t), t.active.id);
    forall f | CODE_CACHE_SIZE <= f < r.traceId
      ensures f in r.frags && Right(r, 0, t.active.id, f) && Sits(r.code, r.frags[f], r.traceNext)
    {
      if f < t.traceId {
        EarlierRight(t, spc, f);
        EarlierSits(t, spc, f);
      } else {
        CommittedFragment(t, spc, f);
        CommittedSits(t, spc, f);
      }
    }
  }

  lemma FinishedBehind(t: Thread)
    requires Finished(t)
    ensures t.traceNext <= t.active.writeP
  {
  }

  /** The committed trace is right, and published under its head's address. */
  lemma CommitMeans(t: Thread, spc: nat)
    requires CacheTo(t, Pending(t), t.active.id) && Finished(t) && spc == t.frags[t.traceId].source && Bounds(t)
             && Bounds(Commit(t, spc))
    ensures Cache(Commit(t, spc))
  {
    var r := Commit(t, spc);
    CommitFields(t, spc);
    CommitEntries(t, spc);
    if t.intact {
      StubbedKeeps(t);
      hide Commit, PendingFits, At, Right, Finished, LastDone, Stubbed, CacheTo, Sits, Installed;
      CommitInstalled(t, spc);
      LinksSettle(t, spc);
      CommitLinks(t, spc);
      AllRight(r);
    }
  }

  lemma CommitEntries(t: Thread, spc: nat)
    requires Entries(t) && HeadOk(t) && spc == t.frags[t.traceId].source
    ensures Entries(Commit(t, spc))
  {
    var r := Commit(t, spc);
    CommitFields(t, spc);
    TraceHeadAt(t);
    hide At, Commit;
    forall s | s in r.entry ensures At(r, r.traceId, s, r.entry[s]) {
      if s != spc { PublishedAt(t, s, t.entry[s]); }
      CommitAt(t, spc, s, r.entry[s]);
    }
  }

  lemma AllRight(t: Thread)
    requires Entries(t) && t.asserted && LinksOk(t, 0, t.traceId) && ExitsRight(t, t.traceId)
             && Installed(t, 0, t.traceId)
    ensures Cache(t)
  {
    hide Entries, LinksOk, ExitsRight, Installed;
  }

  /** No branch to a stub, and no stub, lies in a fragment of the committed trace. */
  lemma CommittedSits(t: Thread, spc: nat, f: nat)
    requires Finished(t) && LastDone(t) && Chained(t) && t.traceId <= f < t.active.id
    ensures f in t.frags && Sits(Commit(t, spc).code, t.frags[f], Commit(t, spc).traceNext)
  {
    CommitFields(t, spc);
    StubsGrow(t.active.exits, t.active.writeP);
    ExitsBetween(t, f);
    hide Commit, StubCode, StubsEnd, Clear, HeadOk, Leaves, Continues, Ordered;
    StubCodeClear(t.code, t.active.exits, t.active.writeP, t.frags[f]);
  }

  /** The exits of the other fragments lie in front of `f` or behind its exit. */
  lemma ExitsBetween(t: Thread, f: nat)
    requires Faithful(t) && LastDone(t) && Chained(t) && t.traceId <= f < t.active.id
    ensures f in t.frags && t.frags[f].exitAddr <= t.active.writeP
    ensures forall i | 0 <= i < |t.active.exits| ::
              t.active.exits[i].from + 4 <= t.frags[f].tpc || t.frags[f].exitAddr <= t.active.exits[i].from
  {
    hide Clear, HeadOk, Continues, Ordered, At, Jumps, GoesTo;
    var m := t.frags[f];
    if f < t.active.id - 1 { assert ResumeAt(m) <= t.frags[t.active.id - 1].tpc; }
    forall i | 0 <= i < |t.active.exits| ensures t.active.exits[i].from + 4 <= m.tpc || m.exitAddr <= t.active.exits[i].from {
      var e := t.active.exits[i];
      assert Leaves(t, e);
      var g := e.fragment;
      if g < f { assert ResumeAt(t.frags[g]) <= m.tpc; }
      if f < g { assert ResumeAt(m) <= t.frags[g].tpc; }
    }
  }

  // ---------- Installing as a whole ----------

  /** Fields on which translations depend, with published traces up to `r.traceId`. */
  predicate SameSpace(t: Thread, r: Thread) {
    r.gen == t.gen && r.first == t.first && r.freeBlock == t.freeBlock && r.bbs == t.bbs && r.frags == t.frags
  }

  lemma AtSame(t: Thread, r: Thread, end: nat, end': nat, spc: nat, l: Loc)
    requires At(t, end, spc, l) && SameSpace(t, r) && end <= end'
    ensures At(r, end', spc, l)
  {
  }

  /** Only the write pointer, the active flag, the code, counters and published translations may differ. */
  predicate SameBuild(t: Thread, r: Thread) {
    SameSpace(t, r) && r.traceId == t.traceId && r.traceNext == t.traceNext
    && r.active == t.active.(on := r.active.on, writeP := r.active.writeP)
  }

  lemma FaithfulSame(t: Thread, r: Thread)
    requires Faithful(t) && SameBuild(t, r)
    ensures Faithful(r)
  {
    hide At;
    forall i | 0 <= i < |r.active.exits| ensures Leaves(r, r.active.exits[i]) {
      var e := r.active.exits[i];
      assert Leaves(t, e);
      AtSame(t, r, t.active.id, r.active.id, e.spc, e.to);
    }
    forall f | r.traceId <= f < r.active.id - 1 ensures Continues(r, f) { assert Continues(t, f); }
  }

  lemma LastDoneAdvances(t: Thread, r: Thread)
    requires LastDone(t) && Advances(t, r, Pending(t))
    ensures LastDone(r)
  {
    SameFields(t, r);
    hide At, SameTrace, Ordered;
    if LastExit(t) == Branch || LastExit(t) == Jal {
      var p := Pending(t);
      JumpsCarried(t, p, t.active.id, r, p, t.active.id, p, t.code[p].spc);
      assert KeptAt(t, r, t.active.id, p);
      assert GoesTo(r, r.active.id - 1, r.code[p].spc);
    }
  }

  lemma OffSame(t: Thread, pend: nat)
    requires (LastDone(t) || !t.intact) && t.traceId <= t.active.id
    ensures var a := t.(active := t.active.(on := false)); (t.intact ==> LastDone(a)) && (CacheTo(t, pend, t.active.id) ==> CacheTo(a, pend, a.active.id))
  {
    var a := t.(active := t.active.(on := false));
    forall e, s, l | At(t, e, s, l) ensures At(a, e, s, l) { }
    hide At, Ordered;
    if CacheTo(t, pend, t.active.id) {
      if t.intact { CodeOff(t, a, pend); }
    }
  }

  lemma CodeOff(t: Thread, a: Thread, pend: nat)
    requires a == t.(active := t.active.(on := false)) && CodeOk(t, pend, t.active.id) && t.traceId <= t.active.id
    ensures CodeOk(a, pend, t.active.id)
  {
    hide CodeOk, At;
    CodeCarried(t, pend, t.active.id, a, pend, t.active.id, -1);
  }

  lemma CoreOff(t: Thread)
    requires Core(t)
    ensures Core(t.(active := t.active.(on := false)))
  {
  }

  /** No translation is lost, and every fragment is kept. */
  predicate Keeps(t: Thread, r: Thread) {
    && r.gen == t.gen && r.first == t.first && r.freeBlock >= t.freeBlock && r.frags == t.frags && r.active.id == t.active.id
    && forall id | id in t.bbs && id < t.freeBlock :: id in r.bbs && r.bbs[id] == t.bbs[id]
  }

  /** Installing a trace that a flush has discarded: at most one link is looked at. */
  lemma InstallDead(t: Thread, env: Env)
    requires Core(t) && Scanner(env) && Dead(t) && Cache(t)
    ensures var r := InstallTrace(t, env); r.wasFlushed && Cache(r)
  {
    hide Core, Scanner, CodeOk, At, InstallLink, Commit, Follows;
    var a := t.(active := t.active.(on := false));
    var spc := if t.active.sourceBb in t.bbs then t.bbs[t.active.sourceBb].source else 0;
    var links := LinksOf(a, t.active.sourceBb);
    CoreOff(t);
    IdsOrdered(t);
    CacheKept(t, a);
    if links != [] {
      BrokenLinkMeans(a, env, links[0], spc);
      InstallLinkFollows(a, env, links[0], spc);
      StaysFlushed(a, InstallLink(a, env, links[0], spc));
      OnlyEntries(InstallLink(a, env, links[0], spc), 0, a.traceId);
    }
  }

  lemma StaysFlushed(t: Thread, r: Thread)
    requires Follows(t, r)
    ensures t.wasFlushed ==> r.wasFlushed
  {
  }

  /** What is recorded for the head's block comes from jumps for its address. */
  lemma HeadLinks(t: Thread, pend: nat, k: nat)
    requires LinksOk(t, pend, t.active.id) && Live(t, t.active.sourceBb) && t.active.sourceBb < CODE_CACHE_SIZE
    requires k < |LinksOf(t, t.active.sourceBb)| && LinksOf(t, t.active.sourceBb)[k].gen == t.gen
    ensures Source(t, pend, t.active.id, LinksOf(t, t.active.sourceBb)[k], t.bbs[t.active.sourceBb].source)
  {
    assert Incoming(t, pend, t.active.id, t.active.sourceBb, t.links[t.active.sourceBb][k]);
  }

  lemma InstallLive(t: Thread)
    requires Core(t) && Installable(t)
    ensures Live(t, t.active.sourceBb) && t.active.sourceBb < CODE_CACHE_SIZE && !t.wasFlushed && t.active.on
  {
  }

  /** After the links have been rewritten the trace is still finished. */
  lemma StillFinished(t: Thread, b: Thread)
    requires Finished(t) && Follows(t, b) && !b.wasFlushed && t.active.sourceBb < t.freeBlock && (b.intact ==> Advances(t, b, Pending(t)))
    ensures Finished(b) && Pending(b) == Pending(t) && b.active == t.active && b.frags == t.frags
            && b.traceId == t.traceId && SameTrace(t, b)
  {
    hide Core, Faithful, LastDone, Ordered, Advances, SameTrace, Chained, Shrunk;
    SameFields(t, b);
    FaithfulGrows(t, b);
    if b.intact {
      AdvancesIntact(t, b, Pending(t));
      LastDoneAdvances(t, b);
      AdvancesShrunk(t, b, Pending(t));
      ChainedShrunk(t, b);
    }
  }

  lemma AdvancesShrunk(t: Thread, r: Thread, pend: nat)
    requires Advances(t, r, pend)
    ensures Shrunk(t.code, r.code)
  {
  }

  /** A finished trace is installed as it was built, unless a flush intervenes; then nothing of it is left. */
  lemma InstallMeans(t: Thread, env: Env)
    requires Core(t) && Scanner(env) && t.active.on
    requires (Dead(t) && Cache(t)) || (Installable(t) && Finished(t) && CacheTo(t, Pending(t), t.active.id))
    ensures var r := InstallTrace(t, env); Cache(r) && (!r.wasFlushed ==> Keeps(t, r))
  {
    hide Core, Scanner, CodeOk, At, InstallLinks, Commit, Follows, Installable, Dead, Finished, Source, Live, LastDone,
         Advances, SameTrace, Entries, Cache;
    if Dead(t) && Cache(t) {
      InstallDead(t, env);
    } else {
      InstallLive(t);
      FinishedFacts(t);
      var a, pend := t.(active := t.active.(on := false)), Pending(t);
      CoreOff(t);
      OffFinished(t);
      var spc := t.bbs[t.active.sourceBb].source;
      var links := LinksOf(a, t.active.sourceBb);
      if a.intact {
        forall k | 0 <= k < |links| && links[k].gen == a.gen
          ensures Source(a, pend, a.active.id, links[k], spc) { HeadLinks(a, pend, k); }
      }
      InstallLinksMean(a, env, links, spc, pend);
      InstallLinksFollow(a, env, links, spc);
      var b := InstallLinks(a, env, links, spc);
      if !b.wasFlushed {
        StillFinished(a, b);
        InstallSafe(t, env);
        CommittedBounds(t, a, b, env, spc);
        FinishedFacts(b);
        CommitMeans(b, spc);
        KeptAfterAll(t, b, spc);
      }
    }
  }

  lemma FinishedFacts(t: Thread)
    requires Finished(t)
    ensures HeadOk(t) && t.active.sourceBb in t.bbs && t.bbs[t.active.sourceBb].source == t.frags[t.traceId].source
  {
  }

  lemma OffFinished(t: Thread)
    requires Finished(t) && CacheTo(t, Pending(t), t.active.id) && Live(t, t.active.sourceBb)
    ensures var a := t.(active := t.active.(on := false));
            && Finished(a) && CacheTo(a, Pending(t), a.active.id) && Pending(a) == Pending(t) && HeadOk(a)
                  && Live(a, a.active.sourceBb)
            && a.bbs[a.active.sourceBb].source == a.frags[a.traceId].source && a.active.sourceBb < a.freeBlock
            && (a.intact ==> LinksOk(a, Pending(t), a.active.id))
  {
    hide At, CodeOk, LastDone, Ordered;
    OffSame(t, Pending(t));
    FaithfulSame(t, t.(active := t.active.(on := false)));
    CodeLinks(t.(active := t.active.(on := false)), Pending(t));
  }

  lemma CodeLinks(t: Thread, pend: nat)
    requires CacheTo(t, pend, t.active.id)
    ensures t.intact ==> LinksOk(t, pend, t.active.id)
  {
  }

  lemma CommittedBounds(t: Thread, a: Thread, b: Thread, env: Env, spc: nat)
    requires Core(a) && a == t.(active := t.active.(on := false)) && t.active.sourceBb in t.bbs
             && spc == t.bbs[t.active.sourceBb].source
    requires b == InstallLinks(a, env, LinksOf(a, t.active.sourceBb), spc) && !b.wasFlushed && Follows(a, b)
             && Inv(InstallTrace(t, env))
    requires t.active.on
    ensures Bounds(b) && Bounds(Commit(b, spc)) && InstallTrace(t, env) == Commit(b, spc)
  {
    hide InstallLinks, Commit, Sorted, BlocksOwned, Fresh, SameTrace;
    BoundsOf(b);
  }

  lemma KeptAfterAll(t: Thread, b: Thread, spc: nat)
    requires SameTrace(t.(active := t.active.(on := false)), b)
    ensures Keeps(t, Commit(b, spc))
  {
    CommitFields(b, spc);
    hide Commit;
  }
}
