/**
 What every run of the trace builder keeps: the assertions on exits, branch reach and fragment ids never fail, and
 nothing handed out, published or patched refers to code from before the latest flush.
 */
module TraceSafety {
  import opened CacheLayout
  import opened TraceModel

  /** Allocated since the latest flush; for the basic-block area, in an allocated block. */
  predicate LiveLoc(t: Thread, l: Loc) {
    && l.gen == t.gen
    && (l.addr < TRACES ==> BLOCK_BYTES * t.first <= l.addr < BLOCK_BYTES * t.freeBlock)
  }

  predicate LiveActive(t: Thread) {
    t.active.on && t.active.entry.gen == t.gen
  }

  /** Fragment start addresses do not decrease with the fragment id; the first fragment alone starts at the very start. */
  predicate Sorted(t: Thread) {
    && (forall id | CODE_CACHE_SIZE <= id < t.active.id :: id in t.frags && t.frags[id].gen == t.gen && t.frags[id].tpc >= TRACES)
    && (forall id | CODE_CACHE_SIZE <= id < t.active.id && id in t.frags :: t.frags[id].tpc == TRACES <==> id == CODE_CACHE_SIZE)
    && (forall i, j | CODE_CACHE_SIZE <= i <= j < t.active.id && i in t.frags && j in t.frags :: t.frags[i].tpc <= t.frags[j].tpc)
    && (forall id | CODE_CACHE_SIZE <= id < t.traceId && id in t.frags :: t.frags[id].tpc < t.traceNext)
  }

  predicate Bounds(t: Thread) {
    && 0 < t.first < CODE_CACHE_SIZE - CODE_CACHE_OVERP && t.first <= t.freeBlock <= CODE_CACHE_SIZE
    && CODE_CACHE_SIZE <= t.traceId <= t.active.id <= CODE_CACHE_SIZE + TRACE_FRAGMENT_NO - TRACE_FRAGMENT_OVERP + MAX_TRACE_REC_EXITS
    && t.traceNext >= TRACES && t.traceNext % 2 == 0 && (t.traceNext == TRACES <==> t.traceId == CODE_CACHE_SIZE)
    && t.active.entry.gen <= t.gen
  }

  predicate Fresh(t: Thread) {
    && (forall spc | spc in t.entry :: LiveLoc(t, t.entry[spc]))
    && (forall id | id in t.bbs :: t.bbs[id].gen <= t.gen && (t.bbs[id].gen == t.gen ==> t.first <= id < t.freeBlock))
  }

  /** The block that owns `b`: itself, unless it was taken as an overflow block. */
  function Owner(actual: map<nat, nat>, b: nat): nat {
    if b in actual then actual[b] else b
  }

  /** Every allocated block belongs to a block fragment that spans it. */
  predicate BlocksOwned(bbs: map<nat, BbMeta>, actual: map<nat, nat>, first: nat, freeBlock: nat, gen: nat) {
    && (forall b | b in actual :: b < freeBlock && (b in bbs ==> bbs[b].gen != gen))
    && (forall b | first <= b < freeBlock ::
          var o := Owner(actual, b); first <= o <= b && o in bbs && bbs[o].gen == gen && b < o + bbs[o].blocks)
  }

  /** What holds at every point of every operation. */
  predicate Core(t: Thread) {
    && t.ok && Bounds(t) && Fresh(t) && Sorted(t) && BlocksOwned(t.bbs, t.actual, t.first, t.freeBlock, t.gen)
    && Disjoint(t.code)
  }

  lemma {:induction false} MarkedOverflow(actual: map<nat, nat>, id: nat, n: nat, b: nat)
    ensures (b in MarkOverflow(actual, id, n) <==> b in actual || id < b <= id + n)
    ensures id < b <= id + n ==> b in MarkOverflow(actual, id, n) && MarkOverflow(actual, id, n)[b] == id
    ensures !(id < b <= id + n) && b in actual ==> b in MarkOverflow(actual, id, n) && MarkOverflow(actual, id, n)[b] == actual[b]
    decreases n
  {
    if n > 0 { MarkedOverflow(actual, id, n - 1, b); }
  }

  /** A new fragment owns its block and its overflow blocks; the others keep their owners. */
  lemma BlocksScanned(bbs: map<nat, BbMeta>, actual: map<nat, nat>, first: nat, id: nat, gen: nat, m: BbMeta, n: nat)
    requires BlocksOwned(bbs, actual, first, id, gen) && m.gen == gen && m.blocks == 1 + n && first <= id
    requires forall b | b in bbs && b >= id :: bbs[b].gen != gen
    ensures BlocksOwned(bbs[id := m], MarkOverflow(actual, id, n), first, id + 1 + n, gen)
  {
    var actual' := MarkOverflow(actual, id, n);
    hide MarkOverflow;
    forall b: nat | b in actual' ensures b < id + 1 + n && (b in bbs[id := m] ==> bbs[id := m][b].gen != gen) {
      MarkedOverflow(actual, id, n, b);
    }
    forall b: nat | first <= b < id + 1 + n
      ensures var o := Owner(actual', b);
              first <= o <= b && o in bbs[id := m] && bbs[id := m][o].gen == gen && b < o + bbs[id := m][o].blocks
    {
      MarkedOverflow(actual, id, n, b);
      if b < id { assert Owner(actual', b) == Owner(actual, b); }
    }
  }

  /** The fragment whose exit is still open. */
  function LastFrag(t: Thread): FragMeta
    requires t.active.id - 1 in t.frags
  {
    t.frags[t.active.id - 1]
  }

  predicate WellShaped(m: FragMeta) {
    && m.tpc % 2 == 0 && m.exitAddr % 2 == 0 && m.end % 2 == 0
    && m.tpc <= m.exitAddr && m.exitAddr + ExitRegion(m.exit.kind) <= m.end && m.tpc < m.end
  }

  /** Recorded exits lie below `limit`, jump to live code and reach the stub they would get with stubs from `start` on. */
  predicate ExitsOk(exits: seq<Exit>, gen: nat, limit: nat, start: nat) {
    forall i | 0 <= i < |exits| ::
      exits[i].from % 2 == 0 && exits[i].from <= limit && exits[i].to.gen == gen && BranchReach(exits[i].from, start + STUB_MAX * i)
  }

  /** The trace in progress, between two operations. */
  predicate InProgress(t: Thread) {
    && 1 <= t.fragCount <= MAX_TRACE_REC_EXITS && t.active.id == t.traceId + t.fragCount
    && t.traceId < CODE_CACHE_SIZE + TRACE_FRAGMENT_NO - TRACE_FRAGMENT_OVERP
    && t.active.entry.addr >= t.traceNext && (t.fragCount == 1 ==> t.active.exits == [])
    && t.active.sourceBb in t.bbs && t.bbs[t.active.sourceBb].gen == t.gen
    && t.active.id - 1 in t.frags
    && var last := LastFrag(t);
       && WellShaped(last) && (last.tpc == TRACES ==> last.exitAddr > TRACES)
       && |t.active.exits| < t.fragCount
       && ExitsOk(t.active.exits, t.gen, last.tpc, last.end)
  }

  predicate Inv(t: Thread) {
    && Core(t)
    && (!LiveActive(t) ==> t.active.id == t.traceId)
    && (LiveActive(t) ==> InProgress(t))
  }

  // ---------- Lookups ----------

  /** Nothing about the trace in progress changed; translations were only added. */
  predicate SameTrace(t: Thread, r: Thread) {
    && r.ok == t.ok && r.gen == t.gen && r.first == t.first && r.freeBlock >= t.freeBlock
    && r.traceNext == t.traceNext && r.traceId == t.traceId && r.fragCount == t.fragCount
    && r.active == t.active && r.frags == t.frags
    && (forall id | id in t.bbs && id < t.freeBlock :: id in r.bbs && r.bbs[id] == t.bbs[id])
  }

  /** The effect of a step that may have looked something up: either nothing was lost, or a flush shows. */
  predicate Follows(t: Thread, r: Thread) {
    && Core(r) && r.gen >= t.gen && r.first == t.first && (t.wasFlushed ==> r.wasFlushed)
    && r.active == t.active.(id := r.active.id)
    && (r.gen == t.gen ==> SameTrace(t, r) && r.wasFlushed == t.wasFlushed)
    && (r.gen > t.gen ==> r.wasFlushed && r.active.id == r.traceId && r.traceNext == TRACES)
  }

  lemma FollowsTrans(t: Thread, r: Thread, s: Thread)
    requires Follows(t, r) && Follows(r, s)
    ensures Follows(t, s)
  {
  }

  lemma FlushCore(t: Thread)
    requires t.ok && Bounds(t) && Disjoint(t.code) && forall id | id in t.bbs :: t.bbs[id].gen <= t.gen
    ensures Core(Flush(t)) && Inv(Flush(t))
  {
  }

  lemma LookupFollows(t: Thread, env: Env, spc: nat)
    requires Core(t) && Scanner(env)
    ensures var (r, l) := LookupOrScan(t, env, spc); Follows(t, r) && LiveLoc(r, l) && spc in r.entry && r.entry[spc] == l
  {
    hide BlocksOwned, MarkOverflow, Place;
    if spc !in t.entry {
      FlushCore(t);
      PlaceFollows(MakeRoom(t), env, spc);
    }
  }

  /** The scanned block is live, and nothing else changes. */
  lemma PlaceFollows(t: Thread, env: Env, spc: nat)
    requires Core(t) && Scanner(env) && t.freeBlock < CODE_CACHE_SIZE - CODE_CACHE_OVERP
    ensures var (r, l) := Place(t, env, spc);
            Core(r) && SameTrace(t, r) && r.wasFlushed == t.wasFlushed && LiveLoc(r, l) && spc in r.entry && r.entry[spc] == l
  {
    hide BlocksOwned, MarkOverflow;
    var s := env.bb(spc);
    assert s.overflow <= CODE_CACHE_OVERP;
    BlocksScanned(t.bbs, t.actual, t.first, t.freeBlock, t.gen, BbMeta(spc, s.exit, t.gen, 1 + s.overflow), s.overflow);
  }

  /** The link lists occur in none of the invariants. */
  lemma LinksFollow(t: Thread, links: map<nat, seq<Loc>>)
    requires Core(t)
    ensures Follows(t, t.(links := links))
  {
  }

  lemma RecordLinkFollows(t: Thread, from: Loc, to: Loc)
    requires Core(t)
    ensures Follows(t, RecordLink(t, from, to))
  {
    LinksFollow(t, AddLink(t.links, from, to));
  }

  lemma ActiveLookupFollows(t: Thread, env: Env, spc: nat)
    requires Core(t) && Scanner(env)
    ensures var (r, l) := ActiveLookupOrScan(t, env, spc);
            Follows(t, r) && (LiveActive(t) ==> LiveActive(r) || r.wasFlushed)
            && (LiveLoc(r, l) || l == t.active.entry)
  {
    LookupFollows(t, env, spc);
  }

  // ---------- install_trace ----------

  /** Neither do the exits of blocks and the history. */
  lemma HistoryFollows(t: Thread, linked: map<nat, Linked>, asserted: bool, intact: bool)
    requires Core(t)
    ensures Follows(t, t.(linked := linked, asserted := asserted, intact := intact))
  {
  }

  /** Of the code written into traces it only matters that no word reaches into another one. */
  lemma CodeFollows(t: Thread, code: map<nat, Patched>, intact: bool)
    requires Core(t) && Disjoint(code)
    ensures Follows(t, t.(code := code, intact := intact))
  {
  }

  lemma ErasedDisjoint(code: map<nat, Patched>, from: nat, to: nat)
    requires Disjoint(code)
    ensures Disjoint(Erased(code, from, to))
  {
    hide WordSize;
  }

  lemma WrittenDisjoint(code: map<nat, Patched>, at: nat, word: Patched)
    requires Disjoint(code)
    ensures Disjoint(Written(code, at, word))
  {
    var r := Written(code, at, word);
    assert WordSize(at, word) > 0;
    hide WordSize;
    forall a, b | a in r && b in r && a < b ensures a + WordSize(a, r[a]) <= b {
      if b == at { assert a in Erased(code, at, at + WordSize(at, word)); }
    }
  }

  lemma {:induction false} StubCodeDisjoint(code: map<nat, Patched>, exits: seq<Exit>, w: nat)
    requires Disjoint(code)
    ensures Disjoint(StubCode(code, exits, w))
    decreases |exits|
  {
    hide Disjoint, Written, JumpSize;
    if exits != [] {
      var e := exits[0];
      var left := Written(code, e.from, Leave(!e.taken, w));
      WrittenDisjoint(code, e.from, Leave(!e.taken, w));
      WrittenDisjoint(left, w, Jump(e.to, e.spc));
      StubCodeDisjoint(Written(left, w, Jump(e.to, e.spc)), exits[1..], w + JumpSize(w, e.to.addr));
    }
  }

  lemma PatchBranchFollows(t: Thread, env: Env, link: Loc, id: nat)
    requires Core(t) && Scanner(env) && id in t.bbs
    ensures Follows(t, PatchBranch(t, env, link, id))
  {
    hide Core, Follows, ActiveLookupOrScan, ActiveLookup, AddLink;
    var exit := t.bbs[id].exit;
    var onTaken := ActiveLookup(t, exit.taken).Found?;
    if !onTaken && ActiveLookup(t, exit.skipped).Missing? {
      HistoryFollows(t, t.linked, false, t.intact);
    } else {
      var spc := if onTaken then exit.skipped else exit.taken;
      ActiveLookupFollows(t, env, spc);
      var (r, notTaken) := ActiveLookupOrScan(t, env, spc);
      FollowsCore(t, r);
      var taken := ActiveLookup(r, if onTaken then exit.taken else exit.skipped);
      var linked := r.linked[id := if onTaken then Select(taken, Found(notTaken)) else Select(Found(notTaken), taken)];
      var asserted, intact := r.asserted && (taken.Found? || env.absentNear), r.intact && r.gen == t.gen;
      HistoryFollows(r, linked, asserted, intact);
      var s := r.(linked := linked, asserted := asserted, intact := intact);
      FollowsTrans(t, r, s);
      FollowsCore(r, s);
      RecordLinkFollows(s, link, notTaken);
      FollowsTrans(t, s, RecordLink(s, link, notTaken));
    }
  }

  /** The history alone. */
  function Judged(t: Thread, intact: bool): Thread {
    t.(intact := intact)
  }

  lemma JudgedFollows(t: Thread, intact: bool)
    requires Core(t)
    ensures Follows(t, Judged(t, intact)) && Core(Judged(t, intact))
  {
    hide Core, Follows;
    HistoryFollows(t, t.linked, t.asserted, intact);
    FollowsCore(t, Judged(t, intact));
  }

  lemma InstallLinkFollows(t: Thread, env: Env, link: Loc, spc: nat)
    requires Core(t) && Scanner(env)
    ensures Follows(t, InstallLink(t, env, link, spc))
  {
    hide Core, Follows, PatchBlock, PatchTrace, Scanner, Judged;
    var intact := t.intact && link.gen == t.gen == t.active.entry.gen;
    JudgedFollows(t, intact);
    var a := Judged(t, intact);
    PatchTraceFollows(a, link.addr, spc);
    PatchBlockFollows(a, env, link);
    FollowsTrans(t, a, PatchTrace(a, link.addr, spc));
    FollowsTrans(t, a, PatchBlock(a, env, link));
    LinkShape(t, env, link, spc);
  }

  lemma LinkShape(t: Thread, env: Env, link: Loc, spc: nat)
    ensures var a := Judged(t, t.intact && link.gen == t.gen == t.active.entry.gen);
            InstallLink(t, env, link, spc) == if link.addr >= TRACES then PatchTrace(a, link.addr, spc) else PatchBlock(a, env, link)
  {
    hide PatchBlock, PatchTrace;
  }

  lemma PatchBlockFollows(t: Thread, env: Env, link: Loc)
    requires Core(t) && Scanner(env)
    ensures Follows(t, PatchBlock(t, env, link))
  {
    hide Core, Follows, PatchBranch, Scanner;
    var block := link.addr / BLOCK_BYTES;
    var id := if block in t.actual then t.actual[block] else block;
    HistoryFollows(t, t.linked[id := Through(t.active.entry)], t.asserted, t.intact);
    if id in t.bbs { PatchBranchFollows(t, env, link, id); }
  }

  lemma PatchTraceFollows(t: Thread, at: nat, spc: nat)
    requires Core(t)
    ensures Follows(t, PatchTrace(t, at, spc))
  {
    var r := PatchTrace(t, at, spc);
    CoreDisjoint(t);
    WrittenDisjoint(t.code, at, Jump(t.active.entry, spc));
    hide Core, Follows, Disjoint, Written, Fits;
    CodeFollows(t, r.code, r.intact);
  }

  lemma CoreDisjoint(t: Thread)
    requires Core(t)
    ensures Disjoint(t.code)
  {
  }

  lemma FollowsCore(t: Thread, r: Thread)
    requires Follows(t, r)
    ensures Core(r)
  {
  }

  lemma {:induction false} InstallLinksFollow(t: Thread, env: Env, links: seq<Loc>, spc: nat)
    requires Core(t) && Scanner(env)
    ensures Follows(t, InstallLinks(t, env, links, spc))
    decreases |links|
  {
    if links != [] {
      var r := InstallLink(t, env, links[0], spc);
      InstallLinkFollows(t, env, links[0], spc);
      if !r.wasFlushed {
        InstallLinksFollow(r, env, links[1..], spc);
        FollowsTrans(t, r, InstallLinks(r, env, links[1..], spc));
      }
    }
  }

  /** Behind the first exit the grid of stubs starts one stub later. */
  lemma ExitsOkTail(exits: seq<Exit>, gen: nat, limit: nat, start: nat)
    requires exits != [] && ExitsOk(exits, gen, limit, start)
    ensures ExitsOk(exits[1..], gen, limit, start + STUB_MAX)
    ensures exits[0].from % 2 == 0 && exits[0].from <= limit && BranchReach(exits[0].from, start)
  {
    hide BranchReach;
    assert BranchReach(exits[0].from, start + STUB_MAX * 0);
    forall i | 0 <= i < |exits[1..]| ensures BranchReach(exits[1..][i].from, start + STUB_MAX + STUB_MAX * i) {
      assert BranchReach(exits[i + 1].from, start + STUB_MAX * (i + 1));
    }
  }

  /** Stubs of at most 20 bytes each: a branch that reaches its place in the 20-byte grid reaches its actual stub. */
  lemma {:induction false} StubsReach(exits: seq<Exit>, gen: nat, w: nat, start: nat, limit: nat)
    requires w % 2 == 0 && start % 2 == 0 && limit <= w <= start && ExitsOk(exits, gen, limit, start)
    ensures AllReach(exits, w) && StubsEnd(exits, w) % 2 == 0 && StubsEnd(exits, w) >= w
    decreases |exits|
  {
    hide ExitsOk;
    if exits != [] {
      ExitsOkTail(exits, gen, limit, start);
      StubsReach(exits[1..], gen, w + JumpSize(w, exits[0].to.addr), start + STUB_MAX, limit);
    }
  }

  /** Ready to be installed: every exit reaches its stub with stubs from the write pointer on. */
  predicate Installable(t: Thread) {
    && LiveActive(t) && !t.wasFlushed && t.active.entry.addr >= TRACES && t.active.writeP % 2 == 0 && t.active.writeP > TRACES
    && t.traceId < t.active.id
    && t.active.sourceBb in t.bbs && t.bbs[t.active.sourceBb].gen == t.gen
    && (forall id | CODE_CACHE_SIZE <= id < t.active.id && id in t.frags :: t.frags[id].tpc < t.active.writeP)
    && ExitsOk(t.active.exits, t.gen, t.active.writeP, t.active.writeP)
  }

  /** A flush has already discarded the trace in progress. */
  predicate Dead(t: Thread) {
    t.wasFlushed && t.active.entry.gen < t.gen && t.active.id == t.traceId && t.active.on
  }

  lemma CommitSafe(t: Thread, spc: nat)
    requires Core(t.(active := t.active.(on := true))) && Installable(t.(active := t.active.(on := true)))
    ensures var r := Commit(t, spc);
            Core(r) && r.active.id == r.traceId && r.gen == t.gen && r.wasFlushed == t.wasFlushed && r.active.on == t.active.on
            && r.first == t.first && r.freeBlock == t.freeBlock && r.entry == t.entry[spc := t.active.entry]
            && r.traceId == t.active.id && r.traceNext == r.active.writeP >= t.active.writeP
  {
    StubsReach(t.active.exits, t.gen, t.active.writeP, t.active.writeP, t.active.writeP);
    StubCodeDisjoint(t.code, t.active.exits, t.active.writeP);
    hide StubCode, StubLinks, StubsEnd, AllReach, Disjoint, BlocksOwned;
  }

  lemma InstallSafe(t: Thread, env: Env)
    requires Core(t) && Scanner(env) && t.active.on && (Installable(t) || Dead(t))
    ensures var r := InstallTrace(t, env);
            && Inv(r) && !r.active.on && r.gen >= t.gen && (t.wasFlushed ==> r.wasFlushed)
            && (r.wasFlushed <==> r.gen > t.gen || t.wasFlushed)
            && (!r.wasFlushed ==> r.first == t.first && r.freeBlock >= t.freeBlock)
    ensures Committed(t, InstallTrace(t, env))
  {
    hide Sorted, BlocksOwned, InstallLinks, Commit, ExitsOk;
    var a := t.(active := t.active.(on := false));
    SetOn(t, false);
    var links := LinksOf(a, t.active.sourceBb);
    var spc := if t.active.sourceBb in t.bbs then t.bbs[t.active.sourceBb].source else 0;
    InstallLinksFollow(a, env, links, spc);
    var b := InstallLinks(a, env, links, spc);
    if !b.wasFlushed {
      SetOn(b, true);
      CommitSafe(b, t.bbs[t.active.sourceBb].source);
    }
  }

  lemma SetOn(t: Thread, on: bool)
    requires Core(t)
    ensures Core(t.(active := t.active.(on := on)))
  {
  }

  /** The only publication of a trace: under the source address of its head, and only if nothing was flushed. */
  predicate Committed(t: Thread, r: Thread) {
    !r.wasFlushed ==>
      && t.active.sourceBb in t.bbs && t.bbs[t.active.sourceBb].source in r.entry
      && r.entry[t.bbs[t.active.sourceBb].source] == t.active.entry
      && r.traceId == t.active.id && r.traceNext == r.active.writeP >= t.active.writeP
  }

  // ---------- Closing a trace ----------

  /** A completed operation: the invariant holds and the returned location is live. */
  predicate Done(t: Thread, r: Thread, l: Loc) {
    Inv(r) && LiveLoc(r, l) && r.gen >= t.gen
  }

  lemma InvFollows(t: Thread, r: Thread)
    requires Inv(t) && Follows(t, r)
    ensures Inv(r)
  {
  }

  lemma LookupDone(t: Thread, env: Env, spc: nat)
    requires Scanner(env) && Inv(t)
    ensures var (r, l) := LookupOrScan(t, env, spc); Done(t, r, l)
  {
    LookupFollows(t, env, spc);
    InvFollows(t, LookupOrScan(t, env, spc).0);
  }

  /** The trace in progress can be ended by a jump at `writeP`: all exits reach their stubs behind the largest jump. */
  predicate CanClose(t: Thread, writeP: nat) {
    && LiveActive(t) && !t.wasFlushed && t.active.entry.addr >= TRACES && writeP % 2 == 0 && writeP >= TRACES
    && t.traceId < t.active.id
    && t.active.sourceBb in t.bbs && t.bbs[t.active.sourceBb].gen == t.gen
    && (forall id | CODE_CACHE_SIZE <= id < t.active.id && id in t.frags :: t.frags[id].tpc <= writeP)
    && ExitsOk(t.active.exits, t.gen, writeP, writeP + STUB_MAX)
  }

  lemma ExitsOkCloser(exits: seq<Exit>, gen: nat, limit: nat, start: nat, start': nat)
    requires ExitsOk(exits, gen, limit, start) && limit <= start' <= start && start' % 2 == 0
    ensures ExitsOk(exits, gen, limit, start') && ExitsOk(exits, gen, start', start')
  {
    forall i | 0 <= i < |exits| ensures BranchReach(exits[i].from, start' + STUB_MAX * i) {
      assert BranchReach(exits[i].from, start + STUB_MAX * i);
    }
  }

  lemma CloseInstallable(t: Thread, writeP: nat, size: nat)
    requires CanClose(t, writeP) && 0 < size <= STUB_MAX && size % 2 == 0
    ensures var a := t.(active := t.active.(writeP := writeP + size)); Installable(a) && a.active.on
  {
    hide ExitsOk;
    ExitsOkCloser(t.active.exits, t.gen, writeP, writeP + STUB_MAX, writeP + size);
  }

  lemma DeadKept(t: Thread, writeP: nat)
    requires Dead(t)
    ensures var a := t.(active := t.active.(writeP := writeP)); Dead(a) && a.active.on
  {
  }

  /** One more word is written into the trace in progress. */
  lemma SetCode(t: Thread, at: nat, word: Patched, writeP: nat)
    ensures var r := t.(code := Written(t.code, at, word));
            && (Core(t) ==> Core(r)) && (Inv(t) ==> Inv(r)) && (Dead(t) ==> Dead(r)) && (CanClose(t, writeP) ==> CanClose(r, writeP))
  {
    hide Core, WellShaped, ExitsOk, Written;
    SetCodeCore(t, at, word);
  }

  lemma SetCodeCore(t: Thread, at: nat, word: Patched)
    ensures Core(t) ==> Core(t.(code := Written(t.code, at, word)))
  {
    hide Disjoint, Written, BlocksOwned;
    if Core(t) { WrittenDisjoint(t.code, at, word); }
  }

  lemma EarlyExitSafe(t: Thread, env: Env, writeP: nat, target: Loc, spc: nat)
    requires Core(t) && Scanner(env) && (CanClose(t, writeP) || Dead(t))
    ensures var r := EarlyTraceExit(t, env, writeP, target, spc);
            && Inv(r) && r.gen >= t.gen && (t.wasFlushed ==> r.wasFlushed) && (r.gen > t.gen ==> r.wasFlushed)
            && (!r.wasFlushed ==> r.first == t.first && r.freeBlock >= t.freeBlock) && !r.active.on
  {
    hide Core, Inv, CanClose, Dead, Installable, InstallTrace, Written;
    var size := JumpSize(writeP, target.addr);
    var c := t.(code := Written(t.code, writeP, Jump(target, spc)));
    SetCode(t, writeP, Jump(target, spc), writeP);
    SetWriteP(c, writeP + size);
    if CanClose(c, writeP) { CloseInstallable(c, writeP, size); } else { DeadKept(c, writeP + size); }
    InstallSafe(c.(active := c.active.(writeP := writeP + size)), env);
  }

  lemma FinishSafe(t: Thread, env: Env, target: nat, addr: Loc)
    requires Inv(t) && Scanner(env) && (!t.wasFlushed ==> LiveLoc(t, addr))
    ensures var (r, l) := Finish(t, env, target, addr); Done(t, r, l)
  {
    LookupDone(t, env, target);
  }

  lemma CloseWith(t: Thread, env: Env, target: nat, writeP: nat, addr: Loc)
    requires Core(t) && Scanner(env) && ((CanClose(t, writeP) && LiveLoc(t, addr)) || Dead(t))
    ensures var (r, l) := Finish(EarlyTraceExit(t, env, writeP, addr, target), env, target, addr); Done(t, r, l)
  {
    EarlyExitSafe(t, env, writeP, addr, target);
    FinishSafe(EarlyTraceExit(t, env, writeP, addr, target), env, target, addr);
  }

  /** After a lookup the trace can still be closed, unless a flush has discarded it. */
  lemma CanCloseFollows(t: Thread, r: Thread, writeP: nat)
    requires Core(t) && CanClose(t, writeP) && Follows(t, r)
    ensures CanClose(r, writeP) || Dead(r)
    ensures CanClose(r, writeP) ==> LiveLoc(r, t.active.entry)
  {
  }

  lemma CloseSafe(t: Thread, env: Env, target: nat, writeP: nat)
    requires Core(t) && Scanner(env) && CanClose(t, writeP)
    ensures var (r, l) := CloseTrace(t, env, target, writeP); Done(t, r, l)
  {
    ActiveLookupFollows(t, env, target);
    var (r, addr) := ActiveLookupOrScan(t, env, target);
    CanCloseFollows(t, r, writeP);
    CloseWith(r, env, target, writeP, addr);
  }

  lemma CloseLinkedSafe(t: Thread, env: Env, target: nat, writeP: nat)
    requires Core(t) && Scanner(env) && CanClose(t, writeP)
    ensures var (r, l) := CloseTraceLinked(t, env, target, writeP); Done(t, r, l)
  {
    match ActiveLookup(t, target) {
      case Found(l) =>
        CloseWith(t, env, target, writeP, l);
      case Missing =>
        ActiveLookupFollows(t, env, target);
        var (r, l) := ActiveLookupOrScan(t, env, target);
        var s := RecordLink(r, Loc(writeP, t.gen), l);
        RecordLinkFollows(r, Loc(writeP, t.gen), l);
        FollowsTrans(t, r, s);
        CanCloseFollows(t, s, writeP);
        CloseWith(s, env, target, writeP, l);
    }
  }

  // ---------- trace_dispatcher ----------

  /** The trace can be resumed at `writeP`, with at most `room` exits recorded. */
  predicate CanResume(t: Thread, writeP: nat, room: int) {
    && CanClose(t, writeP) && writeP > TRACES
    && 1 <= t.fragCount <= MAX_TRACE_REC_EXITS && t.active.id == t.traceId + t.fragCount
    && t.traceId < CODE_CACHE_SIZE + TRACE_FRAGMENT_NO - TRACE_FRAGMENT_OVERP
    && t.active.entry.addr >= t.traceNext && |t.active.exits| <= room
  }

  /** The state behind the exit of the last fragment: the exit is recorded, nothing is appended yet. */
  predicate Resumed(t: Thread, writeP: nat) {
    CanResume(t, writeP, t.fragCount) && t.active.writeP == writeP
  }

  /** The largest jump or the placeholder and the jump fit into the exit code of the last fragment. */
  lemma RoomAtExit(m: FragMeta, exits: seq<Exit>, gen: nat)
    requires WellShaped(m) && ExitsOk(exits, gen, m.tpc, m.end) && (m.exit.kind == Branch || m.exit.kind == Jal)
    ensures ExitsOk(exits, gen, ResumeAt(m), ResumeAt(m) + STUB_MAX)
  {
    ExitsOkCloser(exits, gen, m.tpc, m.end, ResumeAt(m) + STUB_MAX);
  }

  /** One more exit, recorded at the placeholder, is within reach of its stub: at most 20 stubs precede it. */
  lemma OneMoreExit(exits: seq<Exit>, gen: nat, writeP: nat, e: Exit)
    requires ExitsOk(exits, gen, writeP, writeP + STUB_MAX) && |exits| < MAX_TRACE_REC_EXITS
    requires e.from == writeP - 4 && e.from % 2 == 0 && e.to.gen == gen
    ensures ExitsOk(exits + [e], gen, writeP, writeP + STUB_MAX)
  {
  }

  lemma AtOpenExit(t: Thread)
    requires Inv(t) && LiveActive(t) && (LastFrag(t).exit.kind == Branch || LastFrag(t).exit.kind == Jal)
    ensures var a := t.(wasFlushed := false); Core(a) && CanResume(a, ResumeAt(LastFrag(t)), t.fragCount - 1)
    ensures t.fragCount <= MAX_TRACE_REC_EXITS && t.active.id - 1 in t.frags
  {
    hide Core, ExitsOk;
    assert InProgress(t);
    CoreKnown(t);
    ClearFlagCore(t);
    EarlierStarts(t);
    RoomAtExit(LastFrag(t), t.active.exits, t.gen);
  }

  lemma CoreKnown(t: Thread)
    requires Inv(t)
    ensures Core(t)
  {
  }

  lemma ClearFlagCore(t: Thread)
    requires Core(t)
    ensures Core(t.(wasFlushed := false))
  {
  }

  /** Every fragment starts at or before the last one. */
  lemma EarlierStarts(t: Thread)
    requires Core(t) && LiveActive(t) && InProgress(t)
    ensures LastFrag(t).tpc >= TRACES && ResumeAt(LastFrag(t)) >= LastFrag(t).tpc && t.traceNext >= TRACES
    ensures forall id | CODE_CACHE_SIZE <= id < t.active.id && id in t.frags :: t.frags[id].tpc <= LastFrag(t).tpc
  {
  }

  lemma ResumeFollows(t: Thread, r: Thread, writeP: nat, room: int)
    requires Core(t) && CanResume(t, writeP, room) && Follows(t, r)
    ensures if r.wasFlushed then Inv(r) && Dead(r) && |r.active.exits| <= room else CanResume(r, writeP, room) && r.gen == t.gen
    ensures Core(r) && r.gen >= t.gen && (!r.wasFlushed ==> r.fragCount == t.fragCount)
  {
  }

  lemma ActiveFound(t: Thread, writeP: nat, room: int, spc: nat)
    requires Core(t) && CanResume(t, writeP, room)
    ensures ActiveLookup(t, spc).Found? ==> ActiveLookup(t, spc).loc.gen == t.gen
    ensures writeP >= 4 && !t.wasFlushed
  {
  }

  lemma RecordExitSafe(t: Thread, writeP: nat, to: Loc, spc: nat, src: nat, taken: bool)
    requires Core(t) && CanResume(t, writeP, t.fragCount - 1) && writeP >= 4 && to.gen == t.gen
    ensures var r := RecordExit(t, writeP - 4, to, spc, src, taken);
            && Core(r) && CanResume(r, writeP, t.fragCount) && r.wasFlushed == t.wasFlushed && r.gen == t.gen
            && r.fragCount == t.fragCount
  {
    OneMoreExit(t.active.exits, t.gen, writeP, Exit(writeP - 4, to, spc, src, taken));
  }

  /** Nothing but installation depends on the write pointer. */
  lemma SetWriteP(t: Thread, writeP: nat)
    ensures Core(t) ==> Core(t.(active := t.active.(writeP := writeP)))
  {
  }

  lemma SetWritePInv(t: Thread, writeP: nat)
    requires Inv(t)
    ensures Inv(t.(active := t.active.(writeP := writeP)))
  {
    SetWriteP(t, writeP);
    hide Core, ExitsOk, WellShaped;
  }

  lemma SetWritePResume(t: Thread, writeP: nat, room: int)
    requires CanResume(t, writeP, room)
    ensures CanResume(t.(active := t.active.(writeP := writeP)), writeP, room)
  {
    hide ExitsOk;
  }

  /** After a flush inside the placeholder's lookup the exit is still recorded, in a trace that no longer matters. */
  lemma RecordDead(t: Thread, from: nat, to: Loc, spc: nat, src: nat, taken: bool)
    requires Inv(t) && Dead(t) && |t.active.exits| < MAX_TRACE_REC_EXITS
    ensures var r := RecordExit(t, from, to, spc, src, taken); Inv(r) && Core(r) && r.wasFlushed && r.gen == t.gen
  {
  }

  lemma PlaceholderSafe(t: Thread, env: Env, writeP: nat, src: nat, isTaken: bool)
    requires Core(t) && Scanner(env) && CanResume(t, writeP, t.fragCount - 1) && t.fragCount <= MAX_TRACE_REC_EXITS
    requires src in t.frags && t.frags[src].exitAddr + 4 == writeP
    ensures var r := Placeholder(t, env, src, isTaken);
            Core(r) && r.gen >= t.gen && if r.wasFlushed then Inv(r) else CanResume(r, writeP, r.fragCount)
  {
    hide Core, Inv, CanResume, Follows, Dead, LiveLoc, LookupOrScan, RecordExit;
    var m := t.frags[src];
    var spc := if isTaken then m.exit.skipped else m.exit.taken;
    ActiveFound(t, writeP, t.fragCount - 1, spc);
    LookupFollows(t, env, spc);
    var (r, to) := LookupOrScan(t, env, spc);
    ResumeFollows(t, r, writeP, t.fragCount - 1);
    assert to.gen == r.gen by { LookupGen(r, to); }
    match ActiveLookup(t, spc) {
      case Found(l) =>
        assert Placeholder(t, env, src, isTaken) == RecordExit(t, m.exitAddr, l, spc, src, isTaken);
        RecordExitSafe(t, writeP, l, spc, src, isTaken);
      case Missing =>
        assert Placeholder(t, env, src, isTaken) == RecordExit(r, m.exitAddr, to, spc, src, isTaken);
        if r.wasFlushed { RecordDead(r, m.exitAddr, to, spc, src, isTaken); } else { RecordExitSafe(r, writeP, to, spc, src, isTaken); }
    }
  }

  lemma LookupGen(t: Thread, l: Loc)
    requires LiveLoc(t, l)
    ensures l.gen == t.gen
  {
  }

  lemma MoreRoom(t: Thread, writeP: nat)
    requires CanResume(t, writeP, t.fragCount - 1)
    ensures CanResume(t, writeP, t.fragCount) && !t.wasFlushed
  {
  }

  lemma TakeExitSafe(t: Thread, env: Env, target: nat)
    requires Inv(t) && Scanner(env) && LiveActive(t)
    requires LastFrag(t).exit.kind == Branch || LastFrag(t).exit.kind == Jal
    ensures var r := TakeExit(t, env, target, t.active.id - 1);
            Core(r) && r.gen >= t.gen && if r.wasFlushed then Inv(r) else Resumed(r, ResumeAt(LastFrag(t)))
  {
    AtOpenExit(t);
    var m, src := LastFrag(t), t.active.id - 1;
    var a, w := t.(wasFlushed := false), ResumeAt(LastFrag(t));
    hide Core, CanResume, Inv, CanClose, Placeholder;
    if m.exit.kind == Branch {
      PlaceholderSafe(a, env, w, src, m.exit.taken == target);
      var r := Placeholder(a, env, src, m.exit.taken == target);
      assert TakeExit(t, env, target, src) == r.(active := r.active.(writeP := w));
      SetWriteP(r, w);
      if r.wasFlushed { SetWritePInv(r, w); } else { SetWritePResume(r, w, r.fragCount); }
    } else {
      assert TakeExit(t, env, target, src) == a.(active := a.active.(writeP := w));
      SetWriteP(a, w);
      MoreRoom(a, w);
      SetWritePResume(a, w, a.fragCount);
    }
  }

  /** The first guard of `trace_dispatcher` never fails: the exit code it looks past was already within reach. */
  lemma FirstGuardHolds(t: Thread, env: Env, target: nat)
    requires Inv(t) && Scanner(env) && LiveActive(t)
    requires LastFrag(t).exit.kind == Branch || LastFrag(t).exit.kind == Jal
    ensures var r := TakeExit(t, env, target, t.active.id - 1);
            r.wasFlushed || StubsFit(r.active.exits, ResumeAt(LastFrag(t)) + STUB_MAX)
  {
    TakeExitSafe(t, env, target);
  }

  // ---------- Appending a fragment ----------

  /** The state after `scan_trace` without a flush. */
  predicate Appended(t: Thread, r: Thread, id: nat) {
    && Core(r) && r.gen == t.gen && r.wasFlushed == t.wasFlushed && r.first == t.first && r.freeBlock == t.freeBlock
    && r.entry == t.entry && r.bbs == t.bbs && r.traceNext == t.traceNext && r.traceId == t.traceId
    && id == t.active.id && r.active == t.active.(id := t.active.id + 1) && id in r.frags
    && (forall k | k in t.frags && k != id :: k in r.frags && r.frags[k] == t.frags[k])
    && WellShaped(r.frags[id]) && r.frags[id].tpc == t.active.writeP
  }

  lemma AppendCore(t: Thread, m: FragMeta)
    requires Core(t) && m.gen == t.gen && m.tpc >= TRACES && (m.tpc == TRACES <==> t.active.id == CODE_CACHE_SIZE)
    requires t.active.id < CODE_CACHE_SIZE + TRACE_FRAGMENT_NO - TRACE_FRAGMENT_OVERP + MAX_TRACE_REC_EXITS
    requires forall id | CODE_CACHE_SIZE <= id < t.active.id && id in t.frags :: t.frags[id].tpc <= m.tpc
    ensures Core(t.(active := t.active.(id := t.active.id + 1), frags := t.frags[t.active.id := m], code := Erased(t.code, m.tpc, m.end)))
  {
    hide BlocksOwned, Disjoint, Erased;
    ErasedDisjoint(t.code, m.tpc, m.end);
  }

  lemma SetFragCount(t: Thread, n: nat)
    ensures Core(t) ==> Core(t.(fragCount := n))
    ensures Inv(t) && !LiveActive(t) ==> Inv(t.(fragCount := n))
  {
  }

  lemma CoreFlush(t: Thread)
    requires Core(t)
    ensures Core(Flush(t)) && Inv(Flush(t)) && !LiveActive(Flush(t))
  {
    FlushCore(t);
  }

  /** The scanner emits the fragment at the write pointer. */
  lemma FragmentAppended(t: Thread, env: Env, spc: nat, prefix: nat)
    requires Core(t) && Scanner(env) && prefix % 2 == 0
    requires t.active.writeP % 2 == 0 && t.active.writeP >= TRACES && (t.active.writeP == TRACES <==> t.active.id == CODE_CACHE_SIZE)
    requires t.active.id < CODE_CACHE_SIZE + TRACE_FRAGMENT_NO - TRACE_FRAGMENT_OVERP + MAX_TRACE_REC_EXITS
    requires forall id | CODE_CACHE_SIZE <= id < t.active.id && id in t.frags :: t.frags[id].tpc <= t.active.writeP
    ensures var r, id := NewFragment(t, env, spc, prefix), t.active.id;
            && Appended(t, r, id) && r.fragCount == t.fragCount && env.trace(spc).halfwords != 0
            && r.frags[id].end == t.active.writeP + prefix + 2 * env.trace(spc).halfwords
            && r.frags[id].exitAddr >= t.active.writeP + prefix
  {
    hide Core, Erased;
    var s, w := env.trace(spc), t.active.writeP;
    assert s.halfwords > 0 && s.exitOffset % 2 == 0 && s.exitOffset + ExitRegion(s.exit.kind) <= 2 * s.halfwords;
    var m := FragMeta(spc, w, s.exit, w + prefix + s.exitOffset, w + prefix + 2 * s.halfwords, t.gen);
    AppendCore(t, m);
    CoreOk(t);
  }

  lemma CoreOk(t: Thread)
    requires Core(t)
    ensures t.ok
  {
  }

  lemma ScanTraceSafe(t: Thread, env: Env, spc: nat, prefix: nat)
    requires Core(t) && Scanner(env) && !t.wasFlushed && prefix % 2 == 0
    requires t.active.writeP % 2 == 0 && t.active.writeP >= TRACES && (t.active.writeP == TRACES <==> t.active.id == CODE_CACHE_SIZE)
    requires t.active.id < CODE_CACHE_SIZE + TRACE_FRAGMENT_NO - TRACE_FRAGMENT_OVERP + MAX_TRACE_REC_EXITS
    requires forall id | CODE_CACHE_SIZE <= id < t.active.id && id in t.frags :: t.frags[id].tpc <= t.active.writeP
    ensures var (r, len, id) := ScanTrace(t, env, spc, prefix);
            if r.wasFlushed then Inv(r) && r.gen == t.gen + 1
            else
              && Appended(t, r, id) && r.fragCount == (if len == 0 then t.fragCount else t.fragCount + 1)
              && (len != 0 ==> r.frags[id].end == t.active.writeP + prefix + 2 * len)
              && r.frags[id].exitAddr >= t.active.writeP + prefix
  {
    hide Core, Inv, NewFragment, Flush, TooLong, ExitRegion, WellShaped;
    var s, id := env.trace(spc), t.active.id;
    var a := NewFragment(t, env, spc, prefix);
    FragmentAppended(t, env, spc, prefix);
    AppendedCore(t, a, id);
    CoreFlush(a);
    FlushShape(a);
    SetFragCount(a, t.fragCount + 1);
    SetFragCount(Flush(a), t.fragCount + 1);
    if SizeCutOff(t) {
      assert ScanTrace(t, env, spc, prefix) == (if s.flushes then Flush(a) else a, 0, id);
    } else {
      assert ScanTrace(t, env, spc, prefix) == ((if s.flushes then Flush(a) else a).(fragCount := t.fragCount + 1), s.halfwords, id);
    }
  }

  lemma FlushShape(t: Thread)
    ensures Flush(t).gen == t.gen + 1 && Flush(t).wasFlushed
  {
  }

  lemma AppendedCore(t: Thread, r: Thread, id: nat)
    requires Appended(t, r, id)
    ensures Core(r) && r.gen == t.gen && r.wasFlushed == t.wasFlushed
  {
  }

  /** Undoing an append restores a trace that can be closed where it was resumed. */
  lemma UndoAppend(t: Thread, r: Thread, id: nat, writeP: nat)
    requires Core(t) && Resumed(t, writeP) && Appended(t, r, id)
    ensures r.active.(writeP := writeP, id := t.active.id, exits := t.active.exits) == t.active
    ensures var u := r.(active := t.active); Core(u) && CanClose(u, writeP)
  {
  }

  lemma InstallAppended(t: Thread, r: Thread, id: nat, writeP: nat)
    requires Core(t) && Resumed(t, writeP) && Appended(t, r, id)
    requires StubsFit(r.active.exits, r.frags[id].end)
    ensures var e := r.(active := r.active.(writeP := r.frags[id].end)); Core(e) && Installable(e)
  {
    var m := r.frags[id];
    assert ExitsOk(r.active.exits, r.gen, m.end, m.end) by {
      forall i | 0 <= i < |r.active.exits| ensures BranchReach(r.active.exits[i].from, m.end + STUB_MAX * i) { }
    }
  }

  lemma ContinueAppended(t: Thread, r: Thread, id: nat, writeP: nat)
    requires Core(t) && Resumed(t, writeP) && Appended(t, r, id) && t.fragCount <= MAX_TRACE_FRAGMENTS
    requires StubsFit(r.active.exits, r.frags[id].end) && r.fragCount == t.fragCount + 1
    ensures Inv(r.(active := r.active.(writeP := r.frags[id].end)))
  {
    var m := r.frags[id];
    assert ExitsOk(r.active.exits, r.gen, m.tpc, m.end) by {
      forall i | 0 <= i < |r.active.exits| ensures BranchReach(r.active.exits[i].from, m.end + STUB_MAX * i) { }
    }
  }

  lemma InTraceArea(t: Thread, a: nat)
    requires a >= TRACES
    ensures LiveLoc(t, Loc(a, t.gen))
  {
  }

  lemma ExtendInstalled(e: Thread, env: Env, target: nat, start: nat)
    requires Core(e) && Installable(e) && Scanner(env)
    ensures var s := InstallTrace(e, env);
            var kept := s.(code := Written(s.code, s.active.writeP, Bounce(start)));
            var (r, l) := if s.wasFlushed then LookupOrScan(s, env, target) else (kept, Loc(s.active.writeP, s.gen));
            Done(e, r, l)
  {
    hide Core, Inv, InstallTrace, Written, Done, LookupOrScan, ExitsOk, LiveLoc;
    var s := InstallTrace(e, env);
    SetCode(s, s.active.writeP, Bounce(start), 0);
    InstallSafe(e, env);
    LookupDone(s, env, target);
    var kept := s.(code := Written(s.code, s.active.writeP, Bounce(start)));
    var (r, l) := LookupOrScan(s, env, target);
    if s.wasFlushed {
      DoneLater(e, s, r, l);
    } else {
      InTraceArea(kept, s.active.writeP);
      DoneAt(e, kept, Loc(s.active.writeP, s.gen));
    }
  }

  lemma DoneAt(t: Thread, r: Thread, l: Loc)
    requires Inv(r) && LiveLoc(r, l) && r.gen >= t.gen
    ensures Done(t, r, l)
  {
  }

  lemma DoneLater(t: Thread, s: Thread, r: Thread, l: Loc)
    requires s.gen >= t.gen && Done(s, r, l)
    ensures Done(t, r, l)
  {
  }

  lemma ScanReady(t: Thread, writeP: nat)
    requires Core(t) && Resumed(t, writeP) && t.fragCount <= MAX_TRACE_FRAGMENTS
    ensures !t.wasFlushed && t.active.writeP == writeP && writeP % 2 == 0 && writeP > TRACES
            && t.active.id > CODE_CACHE_SIZE
    ensures t.active.id < CODE_CACHE_SIZE + TRACE_FRAGMENT_NO - TRACE_FRAGMENT_OVERP + MAX_TRACE_REC_EXITS
    ensures forall id | CODE_CACHE_SIZE <= id < t.active.id && id in t.frags :: t.frags[id].tpc <= t.active.writeP
  {
  }

  lemma AppendedFacts(t: Thread, r: Thread, id: nat)
    requires Appended(t, r, id)
    ensures r.gen == t.gen && id in r.frags && r.active.exits == t.active.exits && r.active.writeP == t.active.writeP
  {
  }

  lemma ExtendSafe(t: Thread, env: Env, target: nat, writeP: nat)
    requires Core(t) && Scanner(env) && Resumed(t, writeP) && t.fragCount <= MAX_TRACE_FRAGMENTS
    ensures var (r, l) := ExtendTrace(t, env, target, writeP); Done(t, r, l)
  {
    hide Core, Resumed, Appended, Inv, Installable, CanClose, LiveLoc, WellShaped;
    hide ScanTrace, InstallTrace, LookupOrScan, CloseTraceLinked, CloseTrace, StubsFit, Written;
    ScanReady(t, writeP);
    ScanTraceSafe(t, env, target, 0);
    var (r, len, id) := ScanTrace(t, env, target, 0);
    if r.wasFlushed {
      LookupDone(r, env, target);
    } else {
      AppendedFacts(t, r, id);
      UndoAppend(t, r, id, writeP);
      var u := r.(active := t.active);
      if len == 0 {
        CloseLinkedSafe(u, env, target, writeP);
      } else {
        var e := r.(active := r.active.(writeP := writeP + 2 * len));
        if !StubsFit(e.active.exits, e.active.writeP) {
          CloseSafe(u, env, target, writeP);
        } else if r.frags[id].exit.kind == Jalr {
          InstallAppended(t, r, id, writeP);
          ExtendInstalled(e, env, target, writeP);
        } else {
          ContinueAppended(t, r, id, writeP);
          SetCode(e, e.active.writeP, Bounce(writeP), 0);
          InTraceArea(e.(code := Written(e.code, e.active.writeP, Bounce(writeP))), e.active.writeP);
        }
      }
    }
  }
}
