/**
 The trace builder and dispatcher as code that updates one thread's data in place (`arch/riscv/riscv_traces.c`,
 `traces_common.c`, `dispatcher.c`, `dbm.c`). Every method is tied to the function of `TraceModel` whose runs
 `TraceRuns` proves safe.
 */
module TraceBuilder {
  import opened CacheLayout
  import opened TraceModel
  import opened TraceSafety
  import opened TraceRuns

  /** A flush leaves the entry of the trace in progress and its fragment count alone. */
  lemma FlushKeeps(t: Thread)
    ensures Flush(t).active.entry == t.active.entry && Flush(t).fragCount == t.fragCount
  {
  }

  lemma NewFragmentKeeps(t: Thread, env: Env, spc: nat, prefix: nat)
    ensures var a := NewFragment(t, env, spc, prefix);
            a.active.entry == t.active.entry && a.fragCount == t.fragCount && a.active.writeP == t.active.writeP
  {
  }

  lemma StubStep(exits: seq<Exit>, i: nat, w: nat, links: map<nat, seq<Loc>>, gen: nat)
    requires i < |exits|
    ensures var e := exits[i];
            var w' := w + JumpSize(w, e.to.addr);
            && (AllReach(exits[i..], w) <==> BranchReach(e.from, w) && AllReach(exits[i + 1..], w'))
            && StubsEnd(exits[i..], w) == StubsEnd(exits[i + 1..], w')
            && StubLinks(links, gen, exits[i..], w) == StubLinks(AddLink(links, Loc(w, gen), e.to), gen, exits[i + 1..], w')
  {
    hide AddLink, JumpSize, BranchReach;
    assert exits[i..][0] == exits[i] && exits[i..][1..] == exits[i + 1..];
  }

  lemma CodeStep(exits: seq<Exit>, i: nat, w: nat, code: map<nat, Patched>)
    requires i < |exits|
    ensures var e := exits[i];
            StubCode(code, exits[i..], w)
            == StubCode(Written(Written(code, e.from, Leave(!e.taken, w)), w, Jump(e.to, e.spc)), exits[i + 1..],
                        w + JumpSize(w, e.to.addr))
  {
    hide JumpSize, Written;
    assert exits[i..][0] == exits[i] && exits[i..][1..] == exits[i + 1..];
  }

  lemma NoStubs(exits: seq<Exit>, w: nat, links: map<nat, seq<Loc>>, gen: nat, code: map<nat, Patched>)
    requires exits == []
    ensures AllReach(exits, w) && StubsEnd(exits, w) == w && StubLinks(links, gen, exits, w) == links
            && StubCode(code, exits, w) == code
  {
  }

  lemma ScannedIsKnown(t: Thread, env: Env, spc: nat)
    ensures t.active.id in ScanTrace(t, env, spc, 0).0.frags && ScanTrace(t, env, spc, 0).2 == t.active.id
  {
  }

  /** One thread's `dbm_thread`. */
  class ThreadData {
    const first: nat
    /** False once an assertion has failed. */
    var ok: bool
    /** False once an assertion on the links to be made has failed. */
    var asserted: bool
    /** History: no installation has rewritten a jump where it should not. */
    var intact: bool
    var gen: nat
    var wasFlushed: bool
    var freeBlock: nat
    var entry: map<nat, Loc>
    var bbs: map<nat, BbMeta>
    var actual: map<nat, nat>
    var links: map<nat, seq<Loc>>
    /** What the exits of blocks have been rewritten to. */
    var linked: map<nat, Linked>
    var traceNext: nat
    var traceId: nat
    var fragCount: nat
    var active: Active
    var frags: map<nat, FragMeta>
    /** What has been written into traces besides the fragments. */
    var code: map<nat, Patched>

    function State(): Thread
      reads this
    {
      Thread(ok, asserted, intact, gen, wasFlushed, first, freeBlock, entry, bbs, actual, links, linked, traceNext, traceId, fragCount,
             active, frags, code)
    }

    constructor (first: nat)
      ensures State() == Initial(first)
    {
      this.first := first;
      ok, asserted, intact, gen, wasFlushed, freeBlock := true, true, true, 0, false, first;
      entry, bbs, actual, links, linked := map[], map[], map[], map[], map[];
      traceNext, traceId, fragCount := TRACES, CODE_CACHE_SIZE, 0;
      active, frags, code := Active(false, CODE_CACHE_SIZE, 0, 0, Loc(0, 0), []), map[], map[];
    }

    // ---------- dbm.c, traces_common.c ----------

    /** The hash table and the exit types of the blocks. */
    method ResetBlocks()
      modifies this`freeBlock, this`entry, this`bbs
      ensures var t := old(State()); State() == t.(freeBlock := first, entry := map[], bbs := Forgotten(t.bbs))
    {
      hide Forgotten;
      freeBlock, entry, bbs := first, map[], Forgotten(bbs);
    }

    /** Link lists and `actual_id`. */
    method ResetLinks()
      modifies this`links, this`actual
      ensures var t := old(State()); State() == t.(links := KeptLinks(t.links), actual := map[])
    {
      hide KeptLinks;
      links, actual := KeptLinks(links), map[];
    }

    method FlushCodeCache()
      modifies this`gen, this`wasFlushed, this`freeBlock, this`entry, this`bbs, this`links, this`actual
      modifies this`traceNext, this`traceId, this`active
      ensures State() == Flush(old(State()))
    {
      hide Forgotten, KeptLinks;
      ResetBlocks();
      ResetLinks();
      gen, wasFlushed := gen + 1, true;
      traceNext, traceId, active := TRACES, CODE_CACHE_SIZE, active.(id := CODE_CACHE_SIZE);
    }

    method AllocateBb() returns (id: nat)
      modifies this
      ensures var r := MakeRoom(old(State())); id == r.freeBlock && State() == r.(freeBlock := id + 1)
    {
      hide Flush;
      if freeBlock >= CODE_CACHE_SIZE - CODE_CACHE_OVERP { FlushCodeCache(); }
      id := freeBlock;
      freeBlock := freeBlock + 1;
    }

    /** `scan`: the scanner takes its overflow blocks one by one. */
    method ScanBlock(env: Env, spc: nat) returns (l: Loc)
      modifies this
      ensures (State(), l) == Scan(old(State()), env, spc)
    {
      hide MakeRoom, Flush;
      var id := AllocateBb();
      ghost var room := MakeRoom(old(State()));
      var s := env.bb(spc);
      l := Loc(id * BLOCK_BYTES, gen);
      entry := entry[spc := l];
      bbs := bbs[id := BbMeta(spc, s.exit, gen, 1 + s.overflow)];
      linked := linked - {id};
      TakeOverflow(id, s.overflow);
    }

    /** `allocate_bb_overflow`, `count` times for the fragment of block `id`. */
    method TakeOverflow(id: nat, count: nat)
      requires freeBlock == id + 1
      modifies this`ok, this`freeBlock, this`actual
      ensures var t := old(State());
              State() == t.(freeBlock := id + 1 + count, actual := MarkOverflow(t.actual, id, count),
                            ok := t.ok && (count == 0 || id + 1 + count <= CODE_CACHE_SIZE))
    {
      var n := 0;
      while n < count
        invariant n <= count && freeBlock == id + 1 + n && actual == MarkOverflow(old(actual), id, n)
        invariant ok == (old(ok) && (n == 0 || id + 1 + n <= CODE_CACHE_SIZE))
      {
        if freeBlock >= CODE_CACHE_SIZE { ok := false; }
        freeBlock := freeBlock + 1;
        n := n + 1;
        actual := actual[id + n := id];
      }
    }

    method LookupOrScanBlock(env: Env, spc: nat) returns (l: Loc)
      modifies this
      ensures (State(), l) == LookupOrScan(old(State()), env, spc)
    {
      if spc in entry { l := entry[spc]; } else { l := ScanBlock(env, spc); }
    }

    method RecordCcLink(from: Loc, to: Loc)
      modifies this`links
      ensures State() == RecordLink(old(State()), from, to)
    {
      var id := BbId(to.addr);
      if id >= 0 { links := links[id := [from] + (if id in links then links[id] else [])]; }
    }

    method ActiveTraceLookupOrScan(env: Env, spc: nat) returns (l: Loc)
      modifies this
      ensures (State(), l) == ActiveLookupOrScan(old(State()), env, spc)
    {
      if active.sourceBb in bbs && bbs[active.sourceBb].source == spc {
        l := active.entry;
      } else {
        l := LookupOrScanBlock(env, spc);
      }
    }

    // ---------- riscv_traces.c ----------

    /** `trace_exit_stubs_fit`. */
    method TraceExitStubsFit(start: nat) returns (fit: bool)
      ensures fit == StubsFit(active.exits, start)
    {
      var i, stub := 0, start;
      while i < |active.exits|
        invariant 0 <= i <= |active.exits| && stub == start + STUB_MAX * i
        invariant forall k | 0 <= k < i :: BranchReach(active.exits[k].from, start + STUB_MAX * k)
      {
        if !BranchReach(active.exits[i].from, stub) { return false; }
        stub := stub + STUB_MAX;
        i := i + 1;
      }
      return true;
    }

    /** `set_up_trace_exit_branch_placeholder` with `trace_record_exit`. */
    method SetUpPlaceholder(env: Env, src: nat, isTaken: bool)
      requires src in frags
      modifies this
      ensures State() == Placeholder(old(State()), env, src, isTaken)
    {
      var m := frags[src];
      var spc := if isTaken then m.exit.skipped else m.exit.taken;
      var to;
      match ActiveLookup(State(), spc) {
        case Found(l) => to := l;
        case Missing => to := LookupOrScanBlock(env, spc);
      }
      if |active.exits| >= MAX_TRACE_REC_EXITS { ok := false; }
      active := active.(exits := active.exits + [Exit(m.exitAddr, to, spc, src, isTaken)]);
    }

    method ScanFragment(env: Env, spc: nat, prefix: nat) returns (len: nat, id: nat)
      modifies this
      ensures (State(), len, id) == ScanTrace(old(State()), env, spc, prefix)
    {
      hide Flush, TooLong, NewFragment, Erased;
      var writeP := active.writeP;
      id := AllocateFragment(env, spc, prefix);
      FlushKeeps(State());
      NewFragmentKeeps(old(State()), env, spc, prefix);
      if env.trace(spc).flushes { FlushCodeCache(); }
      if TooLong(writeP - active.entry.addr, fragCount) { return 0, id; }
      fragCount := fragCount + 1;
      len := env.trace(spc).halfwords;
    }

    /** `allocate_trace_fragment` and the metadata that `scan_trace` and the scanner leave. */
    method AllocateFragment(env: Env, spc: nat, prefix: nat) returns (id: nat)
      modifies this`active, this`ok, this`frags, this`code
      ensures State() == NewFragment(old(State()), env, spc, prefix) && id == old(active.id)
    {
      hide Erased;
      var writeP := active.writeP;
      id := active.id;
      active := active.(id := id + 1);
      if id >= CODE_CACHE_SIZE + TRACE_FRAGMENT_NO { ok := false; }
      var s := env.trace(spc);
      EmitFragment(id, FragMeta(spc, writeP, s.exit, writeP + prefix + s.exitOffset, writeP + prefix + 2 * s.halfwords, gen));
    }

    /** The fragment's code destroys what has been written there before. */
    method EmitFragment(id: nat, m: FragMeta)
      modifies this`frags, this`code
      ensures var t := old(State()); State() == t.(frags := t.frags[id := m], code := Erased(t.code, m.tpc, m.end))
    {
      hide Erased;
      frags, code := frags[id := m], Erased(code, m.tpc, m.end);
    }

    /** One iteration over the incoming links. */
    method UpdateLink(env: Env, link: Loc, spc: nat)
      modifies this
      ensures State() == InstallLink(old(State()), env, link, spc)
    {
      hide PatchBlock, PatchTrace;
      intact := intact && link.gen == gen == active.entry.gen;
      if link.addr >= TRACES {
        UpdateTraceLink(link.addr, spc);
        return;
      }
      UpdateBlock(env, link);
    }

    method UpdateBlock(env: Env, link: Loc)
      modifies this
      ensures State() == PatchBlock(old(State()), env, link)
    {
      hide PatchBranch;
      var id := link.addr / BLOCK_BYTES;
      if id in actual { id := actual[id]; }
      if id in bbs && bbs[id].exit.kind == Branch {
        UpdateBranch(env, link, id);
      } else {
        linked := linked[id := Through(active.entry)];
      }
    }

    /** `patch_trace_branches`. */
    method UpdateTraceLink(at: nat, spc: nat)
      modifies this`code, this`intact
      ensures State() == PatchTrace(old(State()), at, spc)
    {
      hide Fits, Written;
      if !(at in code && code[at].Jump? && Fits(at, code[at].to.addr, active.entry.addr)) { intact := false; }
      code := Written(code, at, Jump(active.entry, spc));
    }

    /** A block that ends in a branch: jumps to both successors. */
    method UpdateBranch(env: Env, link: Loc, id: nat)
      requires id in bbs
      modifies this
      ensures State() == PatchBranch(old(State()), env, link, id)
    {
      hide ActiveLookup, ActiveLookupOrScan, AddLink;
      var exit, before := bbs[id].exit, gen;
      var onTaken := ActiveLookup(State(), exit.taken).Found?;
      if !onTaken && ActiveLookup(State(), exit.skipped).Missing? {
        asserted := false;
        return;
      }
      var notTaken := ActiveTraceLookupOrScan(env, if onTaken then exit.skipped else exit.taken);
      var taken := ActiveLookup(State(), if onTaken then exit.taken else exit.skipped);
      linked := linked[id := if onTaken then Select(taken, Found(notTaken)) else Select(Found(notTaken), taken)];
      intact := intact && gen == before;
      if taken.Missing? && !env.absentNear { asserted := false; }
      if notTaken.addr < TRACES { RecordCcLink(link, notTaken); }
    }

    /** The loop over the incoming links. */
    method UpdateLinks(env: Env, links: seq<Loc>, spc: nat)
      modifies this
      ensures State() == InstallLinks(old(State()), env, links, spc)
    {
      hide InstallLink;
      var todo := links;
      ghost var target := InstallLinks(State(), env, todo, spc);
      while todo != []
        invariant InstallLinks(State(), env, todo, spc) == target
        decreases |todo|
      {
        UpdateLink(env, todo[0], spc);
        if wasFlushed { return; }
        todo := todo[1..];
      }
    }

    /** `install_trace`. */
    method Install(env: Env)
      modifies this
      ensures State() == InstallTrace(old(State()), env)
    {
      hide InstallLinks, Commit;
      var spc := if active.sourceBb in bbs then bbs[active.sourceBb].source else 0;
      if !active.on { ok := false; }
      active := active.(on := false);
      UpdateLinks(env, if active.sourceBb in links then links[active.sourceBb] else [], spc);
      if wasFlushed { return; }
      WriteStubs(spc);
    }

    /** The end of `install_trace`: the trace becomes visible, and every placeholder branches to a stub behind it. */
    method WriteStubs(spc: nat)
      modifies this`ok, this`entry, this`links, this`code, this`active, this`traceId, this`traceNext
      ensures State() == Commit(old(State()), spc)
    {
      hide AddLink, JumpSize, BranchReach, AllReach, StubsEnd, StubLinks, StubCode;
      entry := entry[spc := active.entry];
      WriteJumps();
      traceId, traceNext := active.id, active.writeP;
    }

    /** The loop over the recorded exits. */
    method WriteJumps()
      modifies this`ok, this`links, this`code, this`active
      ensures var t, w := old(State()), old(active.writeP);
              State() == t.(ok := t.ok && AllReach(t.active.exits, w), links := StubLinks(t.links, t.active.entry.gen, t.active.exits, w),
                            code := StubCode(t.code, t.active.exits, w), active := t.active.(writeP := StubsEnd(t.active.exits, w)))
    {
      hide AddLink, JumpSize, BranchReach, AllReach, StubsEnd, StubLinks, StubCode, Written;
      ghost var w0, links0, code0, gen0 := active.writeP, links, code, active.entry.gen;
      var exits := active.exits;
      var i := 0;
      while i < |exits|
        invariant 0 <= i <= |exits| && active == old(active).(writeP := active.writeP)
        invariant ok && AllReach(exits[i..], active.writeP) <==> old(ok) && AllReach(exits, w0)
        invariant StubsEnd(exits[i..], active.writeP) == StubsEnd(exits, w0)
        invariant StubLinks(links, gen0, exits[i..], active.writeP) == StubLinks(links0, gen0, exits, w0)
        invariant StubCode(code, exits[i..], active.writeP) == StubCode(code0, exits, w0)
      {
        StubStep(exits, i, active.writeP, links, gen0);
        CodeStep(exits, i, active.writeP, code);
        WriteJump(exits[i]);
        i := i + 1;
      }
      NoStubs(exits[i..], active.writeP, links, gen0, code);
    }

    /** One placeholder turned into a branch to a stub, and the stub. */
    method WriteJump(e: Exit)
      modifies this`ok, this`links, this`code, this`active
      ensures var w := old(active).writeP;
              && ok == (old(ok) && BranchReach(e.from, w)) && links == AddLink(old(links), Loc(w, old(active).entry.gen), e.to)
              && code == Written(Written(old(code), e.from, Leave(!e.taken, w)), w, Jump(e.to, e.spc))
              && active == old(active).(writeP := w + JumpSize(w, e.to.addr))
    {
      hide JumpSize, BranchReach, Written;
      if !BranchReach(e.from, active.writeP) { ok := false; }
      code := Written(Written(code, e.from, Leave(!e.taken, active.writeP)), active.writeP, Jump(e.to, e.spc));
      RecordCcLink(Loc(active.writeP, active.entry.gen), e.to);
      active := active.(writeP := active.writeP + JumpSize(active.writeP, e.to.addr));
    }

    /** `early_trace_exit`, and the address its callers return. */
    method LeaveTrace(env: Env, target: nat, writeP: nat, addr: Loc) returns (next: Loc)
      modifies this
      ensures (State(), next) == Finish(EarlyTraceExit(old(State()), env, writeP, addr, target), env, target, addr)
    {
      hide InstallTrace, LookupOrScan, JumpSize, Written;
      code := Written(code, writeP, Jump(addr, target));
      active := active.(writeP := writeP + JumpSize(writeP, addr.addr));
      Install(env);
      next := addr;
      if wasFlushed { next := LookupOrScanBlock(env, target); }
    }

    method CloseAt(env: Env, target: nat, writeP: nat) returns (next: Loc)
      modifies this
      ensures (State(), next) == CloseTrace(old(State()), env, target, writeP)
    {
      hide ActiveLookupOrScan, EarlyTraceExit, Finish;
      var addr := ActiveTraceLookupOrScan(env, target);
      next := LeaveTrace(env, target, writeP, addr);
    }

    method CloseLinkedAt(env: Env, target: nat, writeP: nat) returns (next: Loc)
      modifies this
      ensures (State(), next) == CloseTraceLinked(old(State()), env, target, writeP)
    {
      hide ActiveLookup, ActiveLookupOrScan, RecordLink, EarlyTraceExit, Finish;
      var from := Loc(writeP, gen);
      var addr;
      match ActiveLookup(State(), target) {
        case Found(l) =>
          addr := l;
        case Missing =>
          addr := ActiveTraceLookupOrScan(env, target);
          RecordCcLink(from, addr);
      }
      next := LeaveTrace(env, target, writeP, addr);
    }

    /** `create_trace`. */
    method StartTrace(env: Env, bb: nat) returns (next: Loc)
      requires bb in bbs
      modifies this
      ensures (State(), next) == CreateTrace(old(State()), env, bb)
    {
      hide Flush, LookupOrScan, ScanTrace, AlignUp;
      var spc := bbs[bb].source;
      fragCount := 0;
      traceNext := AlignUp(traceNext);
      if TraceCacheFull(State()) {
        FlushCodeCache();
        next := LookupOrScanBlock(env, spc);
        return;
      }
      next := Loc(traceNext, gen);
      active, wasFlushed := Active(true, traceId, bb, traceNext, next, []), false;
      var len, id := ScanFragment(env, spc, RESTORE_CONTEXT);
      if wasFlushed { next := LookupOrScanBlock(env, spc); }
    }

    /** The end of `trace_dispatcher`: a further fragment, kept, undone or installed. */
    method AppendFragment(env: Env, target: nat, writeP: nat) returns (next: Loc)
      modifies this
      ensures (State(), next) == ExtendTrace(old(State()), env, target, writeP)
    {
      hide LookupOrScan, ScanTrace, CloseTrace, CloseTraceLinked, InstallTrace, StubsFit, Written;
      var idStart, exitsStart := active.id, active.exits;
      var len, id := ScanFragment(env, target, 0);
      if wasFlushed {
        next := LookupOrScanBlock(env, target);
        return;
      }
      ScannedIsKnown(old(State()), env, target);
      if len == 0 {
        active := active.(writeP := writeP, id := idStart, exits := exitsStart);
        next := CloseLinkedAt(env, target, writeP);
        return;
      }
      active := active.(writeP := active.writeP + 2 * len);
      var fit := TraceExitStubsFit(active.writeP);
      if !fit {
        active := active.(writeP := writeP, id := idStart, exits := exitsStart);
        next := CloseAt(env, target, writeP);
        return;
      }
      if frags[id].exit.kind == Jalr { Install(env); }
      if wasFlushed {
        next := LookupOrScanBlock(env, target);
      } else {
        code := Written(code, active.writeP, Bounce(writeP));
        next := Loc(active.writeP, gen);
      }
    }

    /** `trace_dispatcher`. */
    method DispatchTrace(env: Env, target: nat, src: nat) returns (next: Loc)
      requires src in frags
      modifies this
      ensures (State(), next) == TraceDispatcher(old(State()), env, target, src)
    {
      hide LookupOrScan, Placeholder, StubsFit, CloseTrace, CloseTraceLinked, ActiveLookup, Finish, EarlyTraceExit,
           ExtendTrace;
      wasFlushed := false;
      var m := frags[src];
      if m.exit.kind == Jalr {
        next := LookupOrScanBlock(env, target);
        return;
      }
      if m.exit.kind == Branch { SetUpPlaceholder(env, src, m.exit.taken == target); }
      var writeP := ResumeAt(m);
      active := active.(writeP := writeP);
      if wasFlushed {
        next := LookupOrScanBlock(env, target);
        return;
      }
      var fit := TraceExitStubsFit(writeP + STUB_MAX);
      if !fit {
        next := CloseAt(env, target, writeP);
      } else if fragCount > MAX_TRACE_FRAGMENTS {
        next := CloseLinkedAt(env, target, writeP);
      } else {
        match ActiveLookup(State(), target) {
          case Found(addr) => next := LeaveTrace(env, target, writeP, addr);
          case Missing => next := AppendFragment(env, target, writeP);
        }
      }
    }

    /** `dispatcher_riscv`: the exit is rewritten, and the links are recorded. */
    method LinkBlock(src: nat, ret: Loc)
      requires src in bbs
      modifies this`linked, this`asserted
      ensures State() == LinkExit(old(State()), src, ret)
    {
      var x := bbs[src].exit;
      if x.kind == Jal {
        linked := linked[src := Through(ret)];
      } else if x.kind == Branch {
        if x.taken !in entry && x.skipped !in entry { asserted := false; }
        linked := linked[src := Select(Translation(State(), x.taken), Translation(State(), x.skipped))];
      }
    }

    /** `dispatcher` for an exit in the basic-block area. */
    method DispatchBlock(env: Env, target: nat, src: nat) returns (next: Loc, patches: seq<Patch>)
      requires src != 0 ==> src in bbs
      modifies this
      ensures (State(), next, patches) == Dispatcher(old(State()), env, target, src)
    {
      hide LookupOrScan, Patches, RecordLink, LinkExit;
      wasFlushed := false;
      patches := [];
      next := LookupOrScanBlock(env, target);
      if src == 0 || wasFlushed || src !in bbs { return; }
      patches := Patches(State(), src, next);
      LinkBlock(src, next);
      var todo := patches;
      ghost var goal := RecordPatches(State(), todo);
      while todo != []
        invariant RecordPatches(State(), todo) == goal
        modifies this`links
        decreases |todo|
      {
        RecordCcLink(todo[0].from, todo[0].to);
        todo := todo[1..];
      }
    }

    /**
     One call from the code cache, from any reachable state: no assertion fails, what is returned and what is patched
     refers to code that exists, and the next call starts from a reachable state again.
     */
    method Handle(e: Event) returns (next: Loc, patches: seq<Patch>)
      requires Inv(State()) && Enabled(State(), e)
      modifies this
      ensures (State(), next, patches) == Apply(old(State()), e)
      ensures Inv(State()) && ok && LiveLoc(State(), next) && PatchesLive(State(), patches)
      ensures gen >= old(gen) && forall spc | spc in entry :: LiveLoc(State(), entry[spc])
    {
      hide CreateTrace, TraceDispatcher, Dispatcher, LiveLoc, PatchesLive;
      ApplySafe(State(), e);
      patches := [];
      match e {
        case Create(env, bb) => next := StartTrace(env, bb);
        case Trace(env, target, src) => next := DispatchTrace(env, target, src);
        case Dispatch(env, target, src) => next, patches := DispatchBlock(env, target, src);
      }
    }
  }
}
