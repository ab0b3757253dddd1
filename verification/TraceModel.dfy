/**
 The RISC-V trace builder with a flush possible inside every lookup: `arch/riscv/riscv_traces.c`,
 `traces_common.c`, `dispatcher.c` and the allocation side of `dbm.c`, as functions on one thread's state.

 Addresses are relative to the start of the code cache. A location carries the number of flushes that preceded
 its allocation (`gen`); the program never looks at it. `ok` becomes false when one of the assertions on trace
 exits, branch reach, fragment ids or the active flag fails, `asserted` when one on the links to be made fails.
 `intact` is history: it becomes false when an installation rewrites a link recorded from, or for, discarded code,
 rewrites a branch after a flush in its own lookup, or replaces a jump by a longer one.
 */
module TraceModel {
  import opened CacheLayout

  const TRACE_FRAGMENT_NO: nat := 60000
  const TRACE_FRAGMENT_OVERP: nat := 50
  const TRACES: nat := CODE_CACHE_SIZE * BLOCK_BYTES
  const CACHE_END: nat := 16 * 1024 * 1024
  const TRACE_LIMIT_OFFSET: nat := 1024 * 1024
  const MAX_TRACE_FRAGMENTS: nat := 20
  const MAX_TRACE_REC_EXITS: nat := MAX_TRACE_FRAGMENTS + 1
  const STUB_MAX: nat := 20
  const TRACE_EXIT: nat := 15
  const RESTORE_CONTEXT: nat := 6
  const WHOLE_TRACE: nat := 4000
  const TRACE_PADDING: nat := 1000

  datatype Loc = Loc(addr: nat, gen: nat)

  datatype Lookup = Missing | Found(loc: Loc)

  datatype ExitType = Jal | Branch | Jalr | Other | Unknown

  /** What the scanner reports about the end of a fragment. */
  datatype ExitInfo = ExitInfo(kind: ExitType, taken: nat, skipped: nat)

  /** `code_cache_meta` of a basic block; `blocks` counts the block and its overflow blocks. */
  datatype BbMeta = BbMeta(source: nat, exit: ExitInfo, gen: nat, blocks: nat)

  /** `code_cache_meta` of a trace fragment, with the end of its code. */
  datatype FragMeta = FragMeta(source: nat, tpc: nat, exit: ExitInfo, exitAddr: nat, end: nat, gen: nat)

  /** A recorded exit; `taken` says that the trace goes on with the taken successor, `to` translates the other one, `spc`. */
  datatype Exit = Exit(from: nat, to: Loc, spc: nat, fragment: nat, taken: bool)

  /**
   Code written into traces besides the fragments: a branch that leaves for its stub on one outcome, a jump written
   for guest address `spc`, and the temporary jump to the start of a fragment on which the dispatcher returns.
   */
  datatype Patched = Leave(whenTaken: bool, stub: nat) | Jump(to: Loc, spc: nat) | Bounce(start: nat)

  /** What the exit of a block has been rewritten to: a jump, or one jump for each outcome of its branch. */
  datatype Linked = Through(to: Loc) | Select(onTaken: Lookup, onSkipped: Lookup)

  datatype Active = Active(on: bool, id: nat, sourceBb: nat, writeP: nat, entry: Loc, exits: seq<Exit>)

  datatype Thread = Thread(
    ok: bool, asserted: bool, intact: bool, gen: nat, wasFlushed: bool, first: nat, freeBlock: nat,
    entry: map<nat, Loc>, bbs: map<nat, BbMeta>, actual: map<nat, nat>, links: map<nat, seq<Loc>>, linked: map<nat, Linked>,
    traceNext: nat, traceId: nat, fragCount: nat, active: Active, frags: map<nat, FragMeta>, code: map<nat, Patched>)

  /** Results of scanning a guest address: a basic block, or a fragment of a trace. */
  datatype BbScan = BbScan(overflow: nat, exit: ExitInfo)
  datatype TraceScan = TraceScan(halfwords: nat, exitOffset: nat, exit: ExitInfo, flushes: bool)

  /** `absentNear`: the code cache lies within 2 GiB of the address 2^32 - 1 that stands for an absent translation. */
  datatype Env = Env(bb: nat -> BbScan, trace: nat -> TraceScan, absentNear: bool)

  /** The code the scanner leaves behind the exit address: six NOPs for a branch, a full exit for a jump. */
  function ExitRegion(kind: ExitType): nat {
    match kind
    case Branch => 24
    case Jal => 20
    case _ => 0
  }

  /** What is assumed of the scanner. */
  ghost predicate Scanner(env: Env) {
    && (forall spc: nat :: env.bb(spc).overflow <= CODE_CACHE_OVERP)
    && (forall spc: nat ::
          var s := env.trace(spc);
          && s.halfwords > 0 && s.exitOffset % 2 == 0
          && s.exitOffset + ExitRegion(s.exit.kind) <= 2 * s.halfwords)
  }

  // ---------- dbm.c ----------

  /** The exit types of all blocks become `unknown`. */
  function Forgotten(bbs: map<nat, BbMeta>): map<nat, BbMeta> {
    map id | id in bbs :: bbs[id].(exit := bbs[id].exit.(kind := Unknown))
  }

  /** The list of the entry just past the last block is never reset. */
  function KeptLinks(links: map<nat, seq<Loc>>): map<nat, seq<Loc>> {
    if CODE_CACHE_SIZE in links then map[CODE_CACHE_SIZE := links[CODE_CACHE_SIZE]] else map[]
  }

  function Flush(t: Thread): Thread {
    t.(gen := t.gen + 1, wasFlushed := true, freeBlock := t.first, entry := map[], bbs := Forgotten(t.bbs),
       links := KeptLinks(t.links), actual := map[],
       traceNext := TRACES, traceId := CODE_CACHE_SIZE, active := t.active.(id := CODE_CACHE_SIZE))
  }

  /** `allocate_bb` without the increment. */
  function MakeRoom(t: Thread): Thread {
    if t.freeBlock >= CODE_CACHE_SIZE - CODE_CACHE_OVERP then Flush(t) else t
  }

  /** `scan` for a basic block once there is room: take a block, publish it, emit (taking `overflow` further blocks). */
  function Place(t: Thread, env: Env, spc: nat): (Thread, Loc) {
    var id := t.freeBlock;
    var s := env.bb(spc);
    var loc := Loc(id * BLOCK_BYTES, t.gen);
    (t.(freeBlock := id + 1 + s.overflow,
        entry := t.entry[spc := loc],
        bbs := t.bbs[id := BbMeta(spc, s.exit, t.gen, 1 + s.overflow)],
        actual := MarkOverflow(t.actual, id, s.overflow), linked := t.linked - {id},
        ok := t.ok && (s.overflow == 0 || id + 1 + s.overflow <= CODE_CACHE_SIZE)), loc)
  }

  function Scan(t: Thread, env: Env, spc: nat): (Thread, Loc) {
    Place(MakeRoom(t), env, spc)
  }

  /** `actual_id` of the overflow blocks `id + 1 .. id + n`. */
  function MarkOverflow(actual: map<nat, nat>, id: nat, n: nat): map<nat, nat> {
    if n == 0 then actual else MarkOverflow(actual, id, n - 1)[id + n := id]
  }

  function LookupOrScan(t: Thread, env: Env, spc: nat): (Thread, Loc) {
    if spc in t.entry then (t, t.entry[spc]) else Scan(t, env, spc)
  }

  /** `record_cc_link`: newest first, nothing for targets outside the basic blocks. */
  function AddLink(links: map<nat, seq<Loc>>, from: Loc, to: Loc): map<nat, seq<Loc>> {
    var id := BbId(to.addr);
    if id < 0 then links else links[id := [from] + (if id in links then links[id] else [])]
  }

  function RecordLink(t: Thread, from: Loc, to: Loc): Thread {
    t.(links := AddLink(t.links, from, to))
  }

  // ---------- traces_common.c ----------

  /** `get_active_trace_spc` is read from the metadata of the source block, whatever that now describes. */
  predicate IsActiveHead(t: Thread, spc: nat) {
    t.active.sourceBb in t.bbs && t.bbs[t.active.sourceBb].source == spc
  }

  function ActiveLookup(t: Thread, spc: nat): Lookup {
    if IsActiveHead(t, spc) then Found(t.active.entry)
    else if spc in t.entry && t.entry[spc].addr >= TRACES then Found(t.entry[spc])
    else Missing
  }

  function ActiveLookupOrScan(t: Thread, env: Env, spc: nat): (Thread, Loc) {
    if IsActiveHead(t, spc) then (t, t.active.entry) else LookupOrScan(t, env, spc)
  }

  // ---------- riscv_traces.c ----------

  predicate BranchReach(from: nat, target: nat) {
    BranchOffset(target - from)
  }

  /** `riscv_jump_to` and `set_up_trace_exit`: one JAL, or a push of two registers with AUIPC and JALR. */
  function JumpSize(at: nat, target: nat): nat {
    if JalOffset(target + 6 - at) then 4 else STUB_MAX
  }

  /** The bytes a written word takes; a bounce pops two registers and jumps. */
  function WordSize(at: nat, word: Patched): nat {
    match word
    case Leave(_, _) => 4
    case Jump(to, _) => JumpSize(at, to.addr)
    case Bounce(_) => 10
  }

  /** No word reaches into another one. */
  predicate Disjoint(code: map<nat, Patched>) {
    forall a, b | a in code && b in code && a < b :: a + WordSize(a, code[a]) <= b
  }

  /** Writing code between two addresses destroys every word that reaches into it. */
  function Erased(code: map<nat, Patched>, from: nat, to: nat): map<nat, Patched> {
    map a | a in code && !(a < to && from < a + WordSize(a, code[a])) :: code[a]
  }

  function Written(code: map<nat, Patched>, at: nat, word: Patched): map<nat, Patched> {
    Erased(code, at, at + WordSize(at, word))[at := word]
  }

  /** `trace_exit_stubs_fit`. */
  predicate StubsFit(exits: seq<Exit>, start: nat) {
    forall i | 0 <= i < |exits| :: BranchReach(exits[i].from, start + STUB_MAX * i)
  }

  /** `trace_record_exit`, with the assertion of its caller. */
  function RecordExit(t: Thread, from: nat, to: Loc, spc: nat, fragment: nat, taken: bool): Thread {
    t.(active := t.active.(exits := t.active.exits + [Exit(from, to, spc, fragment, taken)]),
       ok := t.ok && |t.active.exits| < MAX_TRACE_REC_EXITS)
  }

  /** `set_up_trace_exit_branch_placeholder` without the write pointer. */
  function Placeholder(t: Thread, env: Env, src: nat, isTaken: bool): Thread
    requires src in t.frags
  {
    var m := t.frags[src];
    var spc := if isTaken then m.exit.skipped else m.exit.taken;
    var (r, to) := match ActiveLookup(t, spc)
      case Found(l) => (t, l)
      case Missing => LookupOrScan(t, env, spc);
    RecordExit(r, m.exitAddr, to, spc, src, isTaken)
  }

  /**
   `scan_trace`; the size comparison goes through `uint8_t` in two places. The first fragment of a trace starts
   with `prefix` bytes that restore a0 and a1.
   */
  predicate TooLong(size: int, fragCount: nat) {
    size + (fragCount + 1) * TRACE_EXIT % 256 >= (WHOLE_TRACE - TRACE_PADDING) % 256
  }

  predicate SizeCutOff(t: Thread) {
    TooLong(t.active.writeP - t.active.entry.addr, t.fragCount)
  }

  /** `allocate_trace_fragment` and the metadata of the new fragment. */
  function NewFragment(t: Thread, env: Env, spc: nat, prefix: nat): Thread {
    var id, s, w := t.active.id, env.trace(spc), t.active.writeP;
    var m := FragMeta(spc, w, s.exit, w + prefix + s.exitOffset, w + prefix + 2 * s.halfwords, t.gen);
    t.(active := t.active.(id := id + 1), frags := t.frags[id := m], code := Erased(t.code, m.tpc, m.end),
       ok := t.ok && id < CODE_CACHE_SIZE + TRACE_FRAGMENT_NO)
  }

  function ScanTrace(t: Thread, env: Env, spc: nat, prefix: nat): (Thread, nat, nat) {
    var a := NewFragment(t, env, spc, prefix);
    var r := if env.trace(spc).flushes then Flush(a) else a;
    if SizeCutOff(t) then (r, 0, t.active.id) else (r.(fragCount := t.fragCount + 1), env.trace(spc).halfwords, t.active.id)
  }

  /** A jump can be rewritten in place: the new one takes no more room than the one it replaces. */
  predicate Fits(at: nat, was: nat, target: nat) {
    JumpSize(at, target) <= JumpSize(at, was)
  }

  /** An exit stub or a closing jump of a trace now leads to the trace being installed, whatever stands behind it. */
  function PatchTrace(t: Thread, at: nat, spc: nat): Thread {
    t.(code := Written(t.code, at, Jump(t.active.entry, spc)),
       intact := t.intact && at in t.code && t.code[at].Jump? && Fits(at, t.code[at].to.addr, t.active.entry.addr))
  }

  /** Both successors of the branch at the end of block `id`, at least one of which is a trace, are jumped to. */
  function PatchBranch(t: Thread, env: Env, link: Loc, id: nat): Thread
    requires id in t.bbs
  {
    var exit := t.bbs[id].exit;
    var onTaken := ActiveLookup(t, exit.taken).Found?;
    if !onTaken && ActiveLookup(t, exit.skipped).Missing? then t.(asserted := false)
    else
      var (r, notTaken) := ActiveLookupOrScan(t, env, if onTaken then exit.skipped else exit.taken);
      var taken := ActiveLookup(r, if onTaken then exit.taken else exit.skipped);
      var linked := if onTaken then Select(taken, Found(notTaken)) else Select(Found(notTaken), taken);
      var r := r.(linked := r.linked[id := linked], intact := r.intact && r.gen == t.gen,
                  asserted := r.asserted && (taken.Found? || env.absentNear));
      if notTaken.addr < TRACES then RecordLink(r, link, notTaken) else r
  }

  function PatchBlock(t: Thread, env: Env, link: Loc): Thread {
    var id := link.addr / BLOCK_BYTES;
    var id := if id in t.actual then t.actual[id] else id;
    if id in t.bbs && t.bbs[id].exit.kind == Branch then PatchBranch(t, env, link, id)
    else t.(linked := t.linked[id := Through(t.active.entry)])
  }

  /** One iteration of the loop over incoming links. */
  function InstallLink(t: Thread, env: Env, link: Loc, spc: nat): Thread {
    var a := t.(intact := t.intact && link.gen == t.gen == t.active.entry.gen);
    if link.addr >= TRACES then PatchTrace(a, link.addr, spc) else PatchBlock(a, env, link)
  }

  /** The loop stops after the iteration in which a flush shows. */
  function InstallLinks(t: Thread, env: Env, links: seq<Loc>, spc: nat): Thread
    decreases |links|
  {
    if links == [] then t
    else
      var r := InstallLink(t, env, links[0], spc);
      if r.wasFlushed then r else InstallLinks(r, env, links[1..], spc)
  }

  /** Where the stubs end when the first one is written at `w`. */
  function StubsEnd(exits: seq<Exit>, w: nat): nat
    decreases |exits|
  {
    if exits == [] then w else StubsEnd(exits[1..], w + JumpSize(w, exits[0].to.addr))
  }

  /** Every branch reaches the stub that is really written for it. */
  predicate AllReach(exits: seq<Exit>, w: nat)
    decreases |exits|
  {
    exits == [] || (BranchReach(exits[0].from, w) && AllReach(exits[1..], w + JumpSize(w, exits[0].to.addr)))
  }

  /** The links recorded by the stubs. */
  function StubLinks(links: map<nat, seq<Loc>>, gen: nat, exits: seq<Exit>, w: nat): map<nat, seq<Loc>>
    decreases |exits|
  {
    if exits == [] then links
    else StubLinks(AddLink(links, Loc(w, gen), exits[0].to), gen, exits[1..], w + JumpSize(w, exits[0].to.addr))
  }

  /** The stubs, and the branches to them: the recorded condition is inverted once more. */
  function StubCode(code: map<nat, Patched>, exits: seq<Exit>, w: nat): map<nat, Patched>
    decreases |exits|
  {
    if exits == [] then code
    else StubCode(Written(Written(code, exits[0].from, Leave(!exits[0].taken, w)), w, Jump(exits[0].to, exits[0].spc)),
                  exits[1..], w + JumpSize(w, exits[0].to.addr))
  }

  /** The end of `install_trace`: publish the trace, turn each placeholder into a branch to its stub, and keep the code. */
  function Commit(t: Thread, spc: nat): Thread {
    var w, exits := t.active.writeP, t.active.exits;
    t.(entry := t.entry[spc := t.active.entry],
       ok := t.ok && AllReach(exits, w),
       links := StubLinks(t.links, t.active.entry.gen, exits, w),
       code := StubCode(t.code, exits, w), active := t.active.(writeP := StubsEnd(exits, w)),
       traceId := t.active.id, traceNext := StubsEnd(exits, w))
  }

  function LinksOf(t: Thread, id: nat): seq<Loc> {
    if id in t.links then t.links[id] else []
  }

  function InstallTrace(t: Thread, env: Env): Thread {
    var spc := if t.active.sourceBb in t.bbs then t.bbs[t.active.sourceBb].source else 0;
    var r := t.(ok := t.ok && t.active.on, active := t.active.(on := false));
    var r := InstallLinks(r, env, LinksOf(r, t.active.sourceBb), spc);
    if r.wasFlushed then r else Commit(r, spc)
  }

  function EarlyTraceExit(t: Thread, env: Env, writeP: nat, target: Loc, spc: nat): Thread {
    InstallTrace(t.(code := Written(t.code, writeP, Jump(target, spc)),
                    active := t.active.(writeP := writeP + JumpSize(writeP, target.addr))), env)
  }

  /** What all early exits return: the address jumped to, or a fresh lookup after a flush. */
  function Finish(t: Thread, env: Env, target: nat, addr: Loc): (Thread, Loc) {
    if t.wasFlushed then LookupOrScan(t, env, target) else (t, addr)
  }

  function AlignUp(a: nat): nat {
    (a + 3) / 4 * 4
  }

  predicate TraceCacheFull(t: Thread) {
    t.traceNext >= CACHE_END - TRACE_LIMIT_OFFSET || t.traceId >= CODE_CACHE_SIZE + TRACE_FRAGMENT_NO - TRACE_FRAGMENT_OVERP
  }

  /** `create_trace` for a block whose exit is a direct jump or a branch. */
  function CreateTrace(t: Thread, env: Env, bb: nat): (Thread, Loc)
    requires bb in t.bbs
  {
    var spc := t.bbs[bb].source;
    var r := t.(fragCount := 0, traceNext := AlignUp(t.traceNext));
    if TraceCacheFull(r) then LookupOrScan(Flush(r), env, spc)
    else
      var entry := Loc(r.traceNext, r.gen);
      var r := r.(active := Active(true, r.traceId, bb, r.traceNext, entry, []), wasFlushed := false);
      var (r, _, _) := ScanTrace(r, env, spc, RESTORE_CONTEXT);
      if r.wasFlushed then LookupOrScan(r, env, spc) else (r, entry)
  }

  /** The paths of `trace_dispatcher` that close the trace at `writeP`, with a link recorded or not. */
  function CloseTrace(t: Thread, env: Env, target: nat, writeP: nat): (Thread, Loc) {
    var (r, addr) := ActiveLookupOrScan(t, env, target);
    Finish(EarlyTraceExit(r, env, writeP, addr, target), env, target, addr)
  }

  function CloseTraceLinked(t: Thread, env: Env, target: nat, writeP: nat): (Thread, Loc) {
    var (r, addr) := match ActiveLookup(t, target)
      case Found(l) => (t, l)
      case Missing =>
        var (r, l) := ActiveLookupOrScan(t, env, target);
        (RecordLink(r, Loc(writeP, t.gen), l), l);
    Finish(EarlyTraceExit(r, env, writeP, addr, target), env, target, addr)
  }

  /** The step that appends a fragment. */
  function ExtendTrace(t: Thread, env: Env, target: nat, writeP: nat): (Thread, Loc) {
    var (r, len, id) := ScanTrace(t, env, target, 0);
    if r.wasFlushed then LookupOrScan(r, env, target)
    else
      var undone := r.active.(writeP := writeP, id := t.active.id, exits := t.active.exits);
      if len == 0 then CloseTraceLinked(r.(active := undone), env, target, writeP)
      else
        var r := r.(active := r.active.(writeP := r.active.writeP + 2 * len));
        if !StubsFit(r.active.exits, r.active.writeP) then CloseTrace(r.(active := undone), env, target, writeP)
        else
          var r := if r.frags[id].exit.kind == Jalr then InstallTrace(r, env) else r;
          if r.wasFlushed then LookupOrScan(r, env, target)
          else (r.(code := Written(r.code, r.active.writeP, Bounce(writeP))), Loc(r.active.writeP, r.gen))
  }

  /** The write pointer after the exit of the source fragment has been replaced by a placeholder, or not. */
  function ResumeAt(m: FragMeta): nat {
    if m.exit.kind == Branch then m.exitAddr + 4 else m.exitAddr
  }

  /** `trace_dispatcher` up to the guard: a branch exit is recorded, the write pointer moves to the exit. */
  function TakeExit(t: Thread, env: Env, target: nat, src: nat): Thread
    requires src in t.frags
  {
    var m := t.frags[src];
    var r := t.(wasFlushed := false);
    var r := if m.exit.kind == Branch then Placeholder(r, env, src, m.exit.taken == target) else r;
    r.(active := r.active.(writeP := ResumeAt(m)))
  }

  function TraceDispatcher(t: Thread, env: Env, target: nat, src: nat): (Thread, Loc)
    requires src in t.frags
  {
    var m := t.frags[src];
    if m.exit.kind == Jalr then LookupOrScan(t.(wasFlushed := false), env, target)
    else
      var r := TakeExit(t, env, target, src);
      var writeP := ResumeAt(m);
      if r.wasFlushed then LookupOrScan(r, env, target)
      else if !StubsFit(r.active.exits, writeP + STUB_MAX) then CloseTrace(r, env, target, writeP)
      else if r.fragCount > MAX_TRACE_FRAGMENTS then CloseTraceLinked(r, env, target, writeP)
      else
        match ActiveLookup(r, target)
        case Found(addr) => Finish(EarlyTraceExit(r, env, writeP, addr, target), env, target, addr)
        case Missing => ExtendTrace(r, env, target, writeP)
  }

  // ---------- dispatcher.c ----------

  /** A jump written by `dispatcher`: from an exit of the source block to a translation. */
  datatype Patch = Patch(from: Loc, to: Loc)

  function Successor(t: Thread, from: Loc, spc: nat): seq<Patch> {
    if spc in t.entry then [Patch(from, t.entry[spc])] else []
  }

  /** `dispatcher_riscv`: the exit of `src` is linked to whatever is translated. */
  function Patches(t: Thread, src: nat, ret: Loc): seq<Patch>
    requires src in t.bbs
  {
    var m := t.bbs[src];
    var from := Loc(src * BLOCK_BYTES, m.gen);
    match m.exit.kind
    case Jal => [Patch(from, ret)]
    case Branch => Successor(t, from, m.exit.taken) + Successor(t, from, m.exit.skipped)
    case _ => []
  }

  function RecordPatches(t: Thread, ps: seq<Patch>): Thread
    decreases |ps|
  {
    if ps == [] then t else RecordPatches(RecordLink(t, ps[0].from, ps[0].to), ps[1..])
  }

  function Translation(t: Thread, spc: nat): Lookup {
    if spc in t.entry then Found(t.entry[spc]) else Missing
  }

  /** The exit of `src` after linking; a branch must have at least one translated successor. */
  function LinkExit(t: Thread, src: nat, ret: Loc): Thread
    requires src in t.bbs
  {
    var x := t.bbs[src].exit;
    match x.kind
    case Jal => t.(linked := t.linked[src := Through(ret)])
    case Branch =>
      t.(linked := t.linked[src := Select(Translation(t, x.taken), Translation(t, x.skipped))],
         asserted := t.asserted && (x.taken in t.entry || x.skipped in t.entry))
    case _ => t
  }

  /** `dispatcher` for a source in the basic-block area; block 0 is never linked. */
  function Dispatcher(t: Thread, env: Env, target: nat, src: nat): (Thread, Loc, seq<Patch>)
    requires src != 0 ==> src in t.bbs
  {
    var (r, ret) := LookupOrScan(t.(wasFlushed := false), env, target);
    if src == 0 || r.wasFlushed || src !in r.bbs then (r, ret, [])
    else
      var ps := Patches(r, src, ret);
      (RecordPatches(LinkExit(r, src, ret), ps), ret, ps)
  }
}
