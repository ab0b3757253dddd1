/**
 What the code in the cache means: where translations are, that installed traces leave each fragment where the guest
 would go, and that every recorded link comes from a jump to the block it is recorded for.
 */
module TraceCode {
  import opened CacheLayout
  import opened TraceModel
  import opened TraceSafety

  /** The start of a basic block for guest address `spc`. */
  predicate BlockAt(bbs: map<nat, BbMeta>, gen: nat, spc: nat, l: Loc) {
    var id := l.addr / BLOCK_BYTES;
    l.addr == id * BLOCK_BYTES && id in bbs && bbs[id].source == spc && bbs[id].gen == gen
  }

  /** The start of a trace fragment with an id below `end`. */
  predicate FragAt(frags: map<nat, FragMeta>, end: nat, spc: nat, l: Loc) {
    exists id | CODE_CACHE_SIZE <= id < end ::
      id in frags && frags[id].tpc == l.addr && frags[id].source == spc && frags[id].gen == l.gen
  }

  /** `l` is live and translates `spc`; trace fragments count up to `end`. */
  predicate At(t: Thread, end: nat, spc: nat, l: Loc) {
    LiveLoc(t, l) && if l.addr < TRACES then BlockAt(t.bbs, t.gen, spc, l) else FragAt(t.frags, end, spc, l)
  }

  /** `entry_address` maps guest addresses to their translations; only installed traces are published. */
  predicate Entries(t: Thread) {
    forall spc | spc in t.entry :: At(t, t.traceId, spc, t.entry[spc])
  }

  // While a trace is being installed, jumps may lead to its fragments (`end` is then their end, otherwise that of the
  // installed ones), and its closing jump at `pend` already counts (`pend` is 0 otherwise).

  /** A word that stands complete in an installed trace, or as the closing jump. */
  predicate Whole(t: Thread, pend: nat, a: nat) {
    a in t.code && (a + WordSize(a, t.code[a]) <= t.traceNext || 0 < a == pend)
  }

  /** At `at` a jump for `spc` has been written, to a translation of it. */
  predicate Jumps(t: Thread, pend: nat, end: nat, at: nat, spc: nat) {
    Whole(t, pend, at) && t.code[at].Jump? && t.code[at].spc == spc && At(t, end, spc, t.code[at].to)
  }

  /** Control that arrives at `at` behind fragment `f` goes on with a translation of `spc`. */
  predicate Onward(t: Thread, pend: nat, end: nat, f: nat, at: nat, spc: nat) {
    || Jumps(t, pend, end, at, spc)
    || (f + 1 < t.traceId && f + 1 in t.frags && t.frags[f + 1].tpc == at && t.frags[f + 1].source == spc)
  }

  /**
   A fragment that ends in a branch leaves through a stub on one outcome and goes on with the other one; a jump goes
   on with its target. Indirect jumps look their target up.
   */
  predicate Right(t: Thread, pend: nat, end: nat, f: nat)
    requires f in t.frags
  {
    var m := t.frags[f];
    match m.exit.kind
    case Branch =>
      && Whole(t, pend, m.exitAddr) && t.code[m.exitAddr].Leave?
      && var c := t.code[m.exitAddr];
         && Jumps(t, pend, end, c.stub, if c.whenTaken then m.exit.taken else m.exit.skipped)
         && Onward(t, pend, end, f, m.exitAddr + 4, if c.whenTaken then m.exit.skipped else m.exit.taken)
    case Jal => Onward(t, pend, end, f, m.exitAddr, m.exit.taken)
    case _ => true
  }

  /** No word reaches into the code of a fragment, from its start to its exit. */
  predicate Clear(code: map<nat, Patched>, m: FragMeta) {
    forall a | a in code :: a + WordSize(a, code[a]) <= m.tpc || m.exitAddr <= a
  }

  /** The fragment is as it was emitted, in front of `limit`. */
  predicate Sits(code: map<nat, Patched>, m: FragMeta, limit: nat) {
    m.exitAddr <= limit && Clear(code, m)
  }

  /** The fragments of installed traces are unharmed, and go on where the guest does. */
  predicate Installed(t: Thread, pend: nat, end: nat) {
    forall f | CODE_CACHE_SIZE <= f < t.traceId :: f in t.frags && Right(t, pend, end, f) && Sits(t.code, t.frags[f], t.traceNext)
  }

  /** A block allocated since the latest flush. */
  predicate Live(t: Thread, id: nat) {
    id in t.bbs && t.bbs[id].gen == t.gen && id < t.freeBlock
  }

  predicate DirectSuccessor(x: ExitInfo, spc: nat) {
    match x.kind
    case Branch => spc == x.taken || spc == x.skipped
    case Jal => spc == x.taken
    case _ => false
  }

  /** `l` is a jump for `spc`, or lies in a block with successor `spc`. */
  predicate Source(t: Thread, pend: nat, end: nat, l: Loc, spc: nat) {
    if l.addr >= TRACES then Jumps(t, pend, end, l.addr, spc)
    else
      var o := Owner(t.actual, l.addr / BLOCK_BYTES);
      l.addr / BLOCK_BYTES < t.freeBlock && Live(t, o) && DirectSuccessor(t.bbs[o].exit, spc)
  }

  /** A link recorded for block `id`; those from discarded code lie in the trace area and mean nothing. */
  predicate Incoming(t: Thread, pend: nat, end: nat, id: nat, l: Loc) {
    if l.gen == t.gen then Live(t, id) && Source(t, pend, end, l, t.bbs[id].source) else l.addr >= TRACES
  }

  /** A link to a translation of `spc` may come from `l`. */
  predicate Recordable(t: Thread, pend: nat, end: nat, l: Loc, spc: nat) {
    if l.gen == t.gen then Source(t, pend, end, l, spc) else l.addr >= TRACES
  }

  predicate LinksOk(t: Thread, pend: nat, end: nat) {
    forall id, k | id in t.links && id < CODE_CACHE_SIZE && 0 <= k < |t.links[id]| :: Incoming(t, pend, end, id, t.links[id][k])
  }

  predicate Reached(t: Thread, end: nat, spc: nat, l: Lookup) {
    l.Found? ==> At(t, end, spc, l.loc)
  }

  /** The exit of a block has been rewritten to jumps to translations of its successors. */
  predicate ExitRight(t: Thread, end: nat, x: ExitInfo, j: Linked) {
    match x.kind
    case Jal => j.Through? && At(t, end, x.taken, j.to)
    case Branch => j.Select? && Reached(t, end, x.taken, j.onTaken) && Reached(t, end, x.skipped, j.onSkipped)
    case _ => true
  }

  predicate ExitsRight(t: Thread, end: nat) {
    forall id | id in t.linked && Live(t, id) :: ExitRight(t, end, t.bbs[id].exit, t.linked[id])
  }

  predicate CodeOk(t: Thread, pend: nat, end: nat) {
    Installed(t, pend, end) && LinksOk(t, pend, end) && ExitsRight(t, end)
  }

  predicate CacheTo(t: Thread, pend: nat, end: nat) {
    Entries(t) && (t.intact ==> t.asserted && CodeOk(t, pend, end))
  }

  /** Between two operations. */
  predicate Cache(t: Thread) {
    CacheTo(t, 0, t.traceId)
  }

  // ---------- What is kept ----------

  predicate SameBlocks(t: Thread, r: Thread) {
    && r.gen == t.gen && r.first == t.first && r.freeBlock >= t.freeBlock
    && (forall id | id in t.bbs && id < t.freeBlock :: id in r.bbs && r.bbs[id] == t.bbs[id])
    && (forall b | 0 <= b < t.freeBlock :: Owner(r.actual, b) == Owner(t.actual, b))
  }

  predicate SameFrags(t: Thread, r: Thread, end: nat) {
    forall k | k in t.frags && k < end :: k in r.frags && r.frags[k] == t.frags[k]
  }

  /** Nothing that a jump can lead to gets lost. */
  predicate Carries(t: Thread, end: nat, r: Thread, end': nat) {
    SameBlocks(t, r) && SameFrags(t, r, end) && end <= end'
  }

  lemma AtCarried(t: Thread, end: nat, r: Thread, end': nat, spc: nat, l: Loc)
    requires At(t, end, spc, l) && Carries(t, end, r, end')
    ensures At(r, end', spc, l)
  {
    if l.addr >= TRACES {
      var k :| CODE_CACHE_SIZE <= k < end && k in t.frags && t.frags[k].tpc == l.addr && t.frags[k].source == spc && t.frags[k].gen == l.gen;
      assert k in r.frags && r.frags[k] == t.frags[k];
    }
  }

  /** The word is the same, or a jump for the same address that takes no more room. */
  predicate KeptAt(t: Thread, r: Thread, end': nat, a: nat)
    requires a in t.code
  {
    && a in r.code
    && (r.code[a] == t.code[a]
        || (t.code[a].Jump? && r.code[a].Jump? && r.code[a].spc == t.code[a].spc && At(r, end', r.code[a].spc, r.code[a].to)
            && WordSize(a, r.code[a]) <= WordSize(a, t.code[a])))
  }

  predicate KeepsCode(t: Thread, pend: nat, r: Thread, end': nat) {
    forall a | a in t.code && Whole(t, pend, a) :: KeptAt(t, r, end', a)
  }

  /** In front of `limit` no word has been added or made longer. */
  predicate Apart(code: map<nat, Patched>, code': map<nat, Patched>, limit: nat) {
    forall a | a in code' :: limit <= a || (a in code && WordSize(a, code'[a]) <= WordSize(a, code[a]))
  }

  /** Everything the installed traces and recorded links depend on is kept. */
  predicate KeepsAll(t: Thread, pend: nat, end: nat, r: Thread, pend': nat, end': nat) {
    && Carries(t, end, r, end') && KeepsCode(t, pend, r, end') && r.traceId == t.traceId && t.traceNext <= r.traceNext
    && (pend == pend' || pend == 0) && t.traceId <= end && Apart(t.code, r.code, t.traceNext)
  }

  lemma JumpsCarried(t: Thread, pend: nat, end: nat, r: Thread, pend': nat, end': nat, at: nat, spc: nat)
    requires Jumps(t, pend, end, at, spc) && KeepsAll(t, pend, end, r, pend', end')
    ensures Jumps(r, pend', end', at, spc)
  {
    hide At, Carries;
    AtCarried(t, end, r, end', spc, t.code[at].to);
    assert KeptAt(t, r, end', at);
  }

  lemma RightCarried(t: Thread, pend: nat, end: nat, r: Thread, pend': nat, end': nat, f: nat)
    requires f in t.frags && f < t.traceId && Right(t, pend, end, f) && KeepsAll(t, pend, end, r, pend', end')
    ensures f in r.frags && Right(r, pend', end', f)
  {
    FragKept(t, end, r, end', f);
    if f + 1 in t.frags && f + 1 < t.traceId { FragKept(t, end, r, end', f + 1); }
    hide At, Jumps, Carries;
    forall at, spc | Jumps(t, pend, end, at, spc) ensures Jumps(r, pend', end', at, spc) {
      JumpsCarried(t, pend, end, r, pend', end', at, spc);
    }
    var m := t.frags[f];
    if m.exit.kind == Branch { assert KeptAt(t, r, end', m.exitAddr); }
  }

  lemma FragKept(t: Thread, end: nat, r: Thread, end': nat, f: nat)
    requires f in t.frags && f < end && Carries(t, end, r, end')
    ensures f in r.frags && r.frags[f] == t.frags[f]
  {
  }

  lemma InstalledCarried(t: Thread, pend: nat, end: nat, r: Thread, pend': nat, end': nat)
    requires Installed(t, pend, end) && KeepsAll(t, pend, end, r, pend', end')
    ensures Installed(r, pend', end')
  {
    hide Right, KeepsCode, Carries, Sits, Apart;
    forall f | CODE_CACHE_SIZE <= f < r.traceId
      ensures f in r.frags && Right(r, pend', end', f) && Sits(r.code, r.frags[f], r.traceNext)
    {
      RightCarried(t, pend, end, r, pend', end', f);
      FragKept(t, end, r, end', f);
      SitsCarried(t.code, r.code, t.frags[f], t.traceNext, r.traceNext);
    }
  }

  lemma SitsCarried(code: map<nat, Patched>, code': map<nat, Patched>, m: FragMeta, limit: nat, limit': nat)
    requires Sits(code, m, limit) && Apart(code, code', limit) && limit <= limit'
    ensures Sits(code', m, limit')
  {
    hide WordSize;
  }

  lemma SourceCarried(t: Thread, pend: nat, end: nat, r: Thread, pend': nat, end': nat, l: Loc, spc: nat)
    requires Source(t, pend, end, l, spc) && KeepsAll(t, pend, end, r, pend', end')
    ensures Source(r, pend', end', l, spc)
  {
    if l.addr >= TRACES {
      JumpsCarried(t, pend, end, r, pend', end', l.addr, spc);
    }
  }

  lemma IncomingCarried(t: Thread, pend: nat, end: nat, r: Thread, pend': nat, end': nat, id: nat, l: Loc)
    requires Incoming(t, pend, end, id, l) && KeepsAll(t, pend, end, r, pend', end')
    ensures Incoming(r, pend', end', id, l)
  {
    hide Source, KeepsCode;
    if l.gen == t.gen { SourceCarried(t, pend, end, r, pend', end', l, t.bbs[id].source); }
  }

  lemma LinksCarried(t: Thread, pend: nat, end: nat, r: Thread, pend': nat, end': nat)
    requires LinksOk(t, pend, end) && KeepsAll(t, pend, end, r, pend', end') && r.links == t.links
    ensures LinksOk(r, pend', end')
  {
    hide Incoming, KeepsAll;
    forall id, k | id in r.links && id < CODE_CACHE_SIZE && 0 <= k < |r.links[id]|
      ensures Incoming(r, pend', end', id, r.links[id][k]) {
      IncomingCarried(t, pend, end, r, pend', end', id, t.links[id][k]);
    }
  }

  lemma ExitCarried(t: Thread, end: nat, r: Thread, end': nat, x: ExitInfo, j: Linked)
    requires ExitRight(t, end, x, j) && Carries(t, end, r, end')
    ensures ExitRight(r, end', x, j)
  {
    hide At, Carries;
    forall spc, l | At(t, end, spc, l) ensures At(r, end', spc, l) { AtCarried(t, end, r, end', spc, l); }
  }

  /** No exit has been rewritten, except perhaps that of block `other`. */
  predicate SameExits(t: Thread, r: Thread, other: int) {
    forall id | id in r.linked && Live(r, id) && id != other :: id in t.linked && Live(t, id) && r.linked[id] == t.linked[id]
  }

  lemma ExitsCarried(t: Thread, end: nat, r: Thread, end': nat, other: int)
    requires ExitsRight(t, end) && Carries(t, end, r, end') && SameExits(t, r, other)
    requires other in r.linked && Live(r, other) ==> ExitRight(r, end', r.bbs[other].exit, r.linked[other])
    ensures ExitsRight(r, end')
  {
    hide ExitRight;
    forall id | id in r.linked && Live(r, id) ensures ExitRight(r, end', r.bbs[id].exit, r.linked[id]) {
      if id != other { ExitCarried(t, end, r, end', t.bbs[id].exit, t.linked[id]); }
    }
  }

  lemma CodeCarried(t: Thread, pend: nat, end: nat, r: Thread, pend': nat, end': nat, other: int)
    requires CodeOk(t, pend, end) && KeepsAll(t, pend, end, r, pend', end') && r.links == t.links
             && SameExits(t, r, other)
    requires other in r.linked && Live(r, other) ==> ExitRight(r, end', r.bbs[other].exit, r.linked[other])
    ensures CodeOk(r, pend', end')
  {
    hide Installed, LinksOk, ExitsRight, KeepsCode, ExitRight, Live, SameExits;
    InstalledCarried(t, pend, end, r, pend', end');
    LinksCarried(t, pend, end, r, pend', end');
    ExitsCarried(t, end, r, end', other);
  }

  /** The cache does not depend on the trace in progress or on counters. */
  predicate Beyond(t: Thread, r: Thread) {
    && SameBlocks(t, r) && r.bbs == t.bbs && r.freeBlock == t.freeBlock && r.entry == t.entry
          && r.traceId == t.traceId && t.traceNext <= r.traceNext
    && r.links == t.links && r.linked == t.linked && r.asserted == t.asserted && r.intact == t.intact
    && SameFrags(t, r, t.traceId) && (forall a | a in t.code && Whole(t, 0, a) :: a in r.code && r.code[a] == t.code[a])
    && Apart(t.code, r.code, t.traceNext)
  }

  lemma CacheKept(t: Thread, r: Thread)
    requires Cache(t) && Beyond(t, r)
    ensures Cache(r)
  {
    hide At, CodeOk, Live;
    forall spc | spc in r.entry ensures At(r, r.traceId, spc, r.entry[spc]) { AtCarried(t, t.traceId, r, r.traceId, spc,
          t.entry[spc]); }
    if t.intact {
      SameLive(t, r);
      CodeCarried(t, 0, t.traceId, r, 0, r.traceId, -1);
    }
  }

  lemma SameLive(t: Thread, r: Thread)
    requires r.bbs == t.bbs && r.gen == t.gen && r.freeBlock == t.freeBlock && r.linked == t.linked
    ensures SameExits(t, r, -1)
  {
  }

  // ---------- Lookups ----------

  /** Translations were only added, none of their exits rewritten. */
  predicate Grown(t: Thread, r: Thread) {
    && SameTrace(t, r) && SameBlocks(t, r) && SameExits(t, r, -1)
    && r.code == t.code && r.links == t.links && r.asserted == t.asserted && r.intact == t.intact && r.wasFlushed == t.wasFlushed
  }

  lemma GrownKeeps(t: Thread, r: Thread, pend: nat, end: nat)
    requires Grown(t, r) && t.traceId <= end
    ensures KeepsAll(t, pend, end, r, pend, end)
  {
  }

  lemma GrownCode(t: Thread, r: Thread, pend: nat, end: nat)
    requires Grown(t, r) && t.traceId <= end && CodeOk(t, pend, end)
    ensures CodeOk(r, pend, end)
  {
    GrownKeeps(t, r, pend, end);
    hide CodeOk, KeepsAll, SameExits, Live;
    CodeCarried(t, pend, end, r, pend, end, -1);
  }

  lemma OwnersKept(actual: map<nat, nat>, id: nat, n: nat)
    ensures forall b: nat | b < id :: Owner(MarkOverflow(actual, id, n), b) == Owner(actual, b)
  {
    hide MarkOverflow;
    forall b: nat | b < id ensures Owner(MarkOverflow(actual, id, n), b) == Owner(actual, b) { MarkedOverflow(actual, id, n, b); }
  }

  lemma PlaceGrows(t: Thread, env: Env, spc: nat)
    requires Core(t) && Scanner(env) && t.freeBlock < CODE_CACHE_SIZE - CODE_CACHE_OVERP
    ensures Grown(t, Place(t, env, spc).0)
  {
    PlaceFollows(t, env, spc);
    OwnersKept(t.actual, t.freeBlock, env.bb(spc).overflow);
    hide MarkOverflow, BlocksOwned, Sorted, Scanner, Owner;
  }

  lemma PlaceAt(t: Thread, env: Env, spc: nat)
    requires Core(t) && Scanner(env) && t.freeBlock < CODE_CACHE_SIZE - CODE_CACHE_OVERP
    ensures var (r, l) := Place(t, env, spc); At(r, r.traceId, spc, l) && r.entry == t.entry[spc := l]
  {
    PlaceFollows(t, env, spc);
    hide Core, SameTrace, MarkOverflow;
    assert t.freeBlock * BLOCK_BYTES / BLOCK_BYTES == t.freeBlock;
  }

  lemma PlaceMeans(t: Thread, env: Env, spc: nat, pend: nat, end: nat)
    requires Core(t) && Scanner(env) && CacheTo(t, pend, end) && t.traceId <= end
             && t.freeBlock < CODE_CACHE_SIZE - CODE_CACHE_OVERP
    ensures var (r, l) := Place(t, env, spc); CacheTo(r, pend, end) && At(r, r.traceId, spc, l) && Grown(t, r)
  {
    PlaceGrows(t, env, spc);
    PlaceAt(t, env, spc);
    hide Core, At, Place, CodeOk, Scanner;
    var (r, l) := Place(t, env, spc);
    if t.intact { GrownCode(t, r, pend, end); }
    GrownKeeps(t, r, pend, t.traceId);
    hide Grown, SameBlocks, SameFrags;
    forall s | s in r.entry ensures At(r, r.traceId, s, r.entry[s]) {
      if s != spc { AtCarried(t, t.traceId, r, r.traceId, s, t.entry[s]); }
    }
  }

  /** A flush leaves no live block, no installed trace and no link to a block. */
  lemma FlushCache(t: Thread, pend: nat, end: nat)
    requires (t.intact ==> t.asserted) && forall id | id in t.bbs :: t.bbs[id].gen <= t.gen
    ensures CacheTo(Flush(t), pend, end)
  {
  }

  lemma MakeRoomMeans(t: Thread, pend: nat, end: nat)
    requires Core(t) && CacheTo(t, pend, end)
    ensures var r := MakeRoom(t);
            && Core(r) && CacheTo(r, pend, end) && r.freeBlock < CODE_CACHE_SIZE - CODE_CACHE_OVERP
            && (r != t ==> r == Flush(t) && r.gen > t.gen && r.traceId == CODE_CACHE_SIZE && Cache(r))
  {
    CoreFlush(t);
    FlushCache(t, pend, end);
    FlushCache(t, 0, CODE_CACHE_SIZE);
    hide CacheTo, Sorted, BlocksOwned;
  }

  /** A lookup returns a translation of the address looked up; nothing is lost unless a flush shows. */
  lemma LookupMeans(t: Thread, env: Env, spc: nat, pend: nat, end: nat)
    requires Core(t) && Scanner(env) && CacheTo(t, pend, end) && t.traceId <= end
    ensures var (r, l) := LookupOrScan(t, env, spc);
            && At(r, r.traceId, spc, l) && Entries(r) && (r.gen == t.gen ==> Grown(t, r) && CacheTo(r, pend, end)) && (r.gen > t.gen ==> Cache(r))
  {
    if spc in t.entry {
      GrownSelf(t);
      assert At(t, t.traceId, spc, t.entry[spc]);
    } else {
      hide Core, CodeOk, At, Place, Flush, Grown, SameTrace;
      MakeRoomMeans(t, pend, end);
      var a := MakeRoom(t);
      if a == t {
        PlaceMeans(t, env, spc, pend, end);
        GrownGen(t, Place(t, env, spc).0);
      } else {
        PlaceMeans(a, env, spc, 0, a.traceId);
        GrownGen(a, Place(a, env, spc).0);
      }
    }
  }

  lemma GrownSelf(t: Thread)
    ensures Grown(t, t)
  {
  }

  lemma GrownGen(t: Thread, r: Thread)
    requires Grown(t, r)
    ensures r.gen == t.gen && r.traceId == t.traceId
  {
  }

  // ---------- Recorded links ----------

  /** A link from code that jumps for `spc` to a translation of `spc`. */
  lemma LinkMeans(t: Thread, pend: nat, end: nat, from: Loc, to: Loc, spc: nat)
    requires CacheTo(t, pend, end) && At(t, end, spc, to) && (t.intact ==> Recordable(t, pend, end, from, spc))
    requires Bounds(t)
    ensures CacheTo(RecordLink(t, from, to), pend, end)
  {
    var r := RecordLink(t, from, to);
    hide Entries, Installed, ExitsRight, Source, AddLink;
    LinkLists(t, r, pend, end);
    if t.intact { LinkAdded(t, pend, end, from, to, spc); }
  }

  /** Only the lists themselves depend on the lists. */
  lemma LinkLists(t: Thread, r: Thread, pend: nat, end: nat)
    requires r == t.(links := r.links)
    ensures (Entries(t) ==> Entries(r)) && (Installed(t, pend, end) ==> Installed(r, pend, end)) && (ExitsRight(t, end) ==> ExitsRight(r, end))
    ensures forall id, l :: Incoming(t, pend, end, id, l) ==> Incoming(r, pend, end, id, l)
  {
    if Installed(t, pend, end) { InstalledLinks(t, r, pend, end); }
  }

  lemma InstalledLinks(t: Thread, r: Thread, pend: nat, end: nat)
    requires r == t.(links := r.links) && Installed(t, pend, end)
    ensures Installed(r, pend, end)
  {
    hide Right, Sits;
    forall f | CODE_CACHE_SIZE <= f < r.traceId
      ensures f in r.frags && Right(r, pend, end, f)
              && Sits(r.code, r.frags[f], r.traceNext) { RightLinks(t, r, pend, end, f); }
  }

  lemma RightLinks(t: Thread, r: Thread, pend: nat, end: nat, f: nat)
    requires r == t.(links := r.links) && f in t.frags && Right(t, pend, end, f)
    ensures Right(r, pend, end, f)
  {
  }

  lemma LinkAdded(t: Thread, pend: nat, end: nat, from: Loc, to: Loc, spc: nat)
    requires LinksOk(t, pend, end) && At(t, end, spc, to) && Bounds(t) && Recordable(t, pend, end, from, spc)
    ensures LinksOk(RecordLink(t, from, to), pend, end)
  {
    hide Source, Entries, Installed, ExitsRight;
    var r, target := RecordLink(t, from, to), BbId(to.addr);
    LinkLists(t, r, pend, end);
    forall id, k | id in r.links && id < CODE_CACHE_SIZE && 0 <= k < |r.links[id]|
      ensures Incoming(r, pend, end, id, r.links[id][k]) {
      if id == target {
        if k == 0 {
          TargetBlock(t, end, spc, to);
          assert Incoming(t, pend, end, id, from);
        } else {
          assert Incoming(t, pend, end, id, t.links[id][k - 1]);
        }
      } else {
        assert Incoming(t, pend, end, id, t.links[id][k]);
      }
    }
  }

  lemma TargetBlock(t: Thread, end: nat, spc: nat, to: Loc)
    requires At(t, end, spc, to) && Bounds(t) && 0 <= BbId(to.addr) < CODE_CACHE_SIZE
    ensures Live(t, BbId(to.addr)) && t.bbs[BbId(to.addr)].source == spc
  {
  }
}
