/**
 Jump trampolines (`arch/riscv/dispatcher_riscv.c`): a jump that a single JAL cannot span is routed through
 spare JAL slots left at the end of other blocks. The search works backwards from the target and always takes
 the eligible slot nearest to the source.
 */
module Trampolines {
  import opened CacheLayout

  const MAX_HOPS: nat := 8
  const MAX_DISTANCE: int := 3 * 1024 * 1024
  const SLOTS: nat := 6
  const CELL: int := 4

  /** A block's spare area: `base` is `trampoline_addr`, absent when the block has no room for slots. */
  datatype Spare = NoSpare | Spare(base: int, used: nat)

  predicate HasFree(m: Spare) {
    m.Spare? && m.used < SLOTS
  }

  /** The first unused slot of a block. */
  function FreeSlot(m: Spare): int
    requires HasFree(m)
  {
    m.base + CELL * m.used
  }

  /** `riscv_jal_can_reach`, which is also the success condition of `riscv_jal_helper`. */
  predicate CanReach(from: int, target: int) {
    JalOffset(target - from)
  }

  predicate Between(source: int, target: int, a: int) {
    if source < target then source < a < target else target < a < source
  }

  predicate Eligible(m: Spare, source: int, target: int) {
    HasFree(m) && Between(source, target, FreeSlot(m)) && CanReach(FreeSlot(m), target)
  }

  /** `a` is at least as near to the source as `b`. */
  predicate Nearer(source: int, target: int, a: int, b: int) {
    if source < target then a <= b else b <= a
  }

  // ---------- riscv_find_trampoline_slot ----------

  /** The slot chosen among the first `n` blocks, or -1. */
  function BestSlot(metas: seq<Spare>, n: nat, source: int, target: int): (r: int)
    requires n <= |metas|
    ensures -1 <= r < n
    ensures r == -1 ==> forall i | 0 <= i < n :: !Eligible(metas[i], source, target)
    ensures r >= 0 ==>
      && Eligible(metas[r], source, target)
      && forall i | 0 <= i < n && Eligible(metas[i], source, target) ::
           Nearer(source, target, FreeSlot(metas[r]), FreeSlot(metas[i]))
  {
    if n == 0 then -1
    else
      var best := BestSlot(metas, n - 1, source, target);
      var m := metas[n - 1];
      if !Eligible(m, source, target) then best
      else if best == -1 || !Nearer(source, target, FreeSlot(metas[best]), FreeSlot(m)) then n - 1
      else best
  }

  method FindSlot(metas: seq<Spare>, source: int, target: int) returns (best: int, slotAddr: int)
    ensures best == BestSlot(metas, |metas|, source, target)
    ensures best >= 0 ==> slotAddr == FreeSlot(metas[best])
  {
    var forward := source < target;
    best, slotAddr := -1, 0;
    for i := 0 to |metas|
      invariant best == BestSlot(metas, i, source, target)
      invariant best >= 0 ==> slotAddr == FreeSlot(metas[best])
    {
      if metas[i].Spare? && metas[i].used < SLOTS {
        var candidate := metas[i].base + CELL * metas[i].used;
        var between := if forward then candidate > source && candidate < target
                       else candidate < source && candidate > target;
        if between && CanReach(candidate, target) {
          if best == -1 || (if forward then candidate < slotAddr else candidate > slotAddr) {
            best, slotAddr := i, candidate;
          }
        }
      }
    }
  }

  // ---------- Chains and the greedy search ----------

  /** A monotone chain: `slots[0]` jumps to the target, each further slot to the one before, the source to the last. */
  predicate Chain(metas: seq<Spare>, source: int, target: int, slots: seq<int>)
    decreases |slots|
  {
    if slots == [] then CanReach(source, target)
    else
      && 0 <= slots[0] < |metas| && Eligible(metas[slots[0]], source, target)
      && Chain(metas, source, FreeSlot(metas[slots[0]]), slots[1..])
  }

  datatype Search = Failed | Found(slots: seq<int>)

  function Greedy(metas: seq<Spare>, source: int, target: int, hops: nat): (r: Search)
    ensures r.Found? ==> |r.slots| <= hops && Chain(metas, source, target, r.slots)
    decreases hops
  {
    if CanReach(source, target) then Found([])
    else if hops == 0 then Failed
    else
      var best := BestSlot(metas, |metas|, source, target);
      if best == -1 then Failed
      else
        var rest := Greedy(metas, source, FreeSlot(metas[best]), hops - 1);
        if rest.Failed? then Failed else Found([best] + rest.slots)
  }

  lemma {:induction false} MoreHops(metas: seq<Spare>, source: int, target: int, hops: nat, more: nat)
    requires hops <= more && Greedy(metas, source, target, hops).Found?
    ensures Greedy(metas, source, target, more) == Greedy(metas, source, target, hops)
    decreases hops
  {
    hide CanReach;
    if !CanReach(source, target) {
      MoreHops(metas, source, FreeSlot(metas[BestSlot(metas, |metas|, source, target)]), hops - 1, more - 1);
    }
  }

  /** `t'` lies on the way from `t` to the source. */
  predicate OnTheWay(source: int, t': int, t: int) {
    (t - t') % 2 == 0 && (if source < t then source < t' <= t else if t < source then t <= t' < source else t' == t)
  }

  /** A target on the way is at least as easy to reach. */
  lemma EligibleCloser(m: Spare, source: int, t': int, t: int)
    requires Eligible(m, source, t) && OnTheWay(source, t', t) && Between(source, t', FreeSlot(m))
    ensures Eligible(m, source, t')
  {
  }

  lemma ReachEven(a: int, b: int)
    requires CanReach(a, b)
    ensures (b - a) % 2 == 0
  {
  }

  lemma ReachCloser(source: int, t': int, t: int)
    requires CanReach(source, t) && OnTheWay(source, t', t)
    ensures CanReach(source, t')
  {
  }

  /** From any point on the way, the greedy search needs no more slots than any chain from further out. */
  lemma {:induction false} GreedyDominates(metas: seq<Spare>, source: int, t': int, t: int, slots: seq<int>)
    requires Chain(metas, source, t, slots) && OnTheWay(source, t', t)
    ensures var g := Greedy(metas, source, t', |slots|); g.Found? && |g.slots| <= |slots|
    decreases |slots|
  {
    hide CanReach;
    if slots == [] {
      ReachCloser(source, t', t);
    } else if !CanReach(source, t') {
      var c := FreeSlot(metas[slots[0]]);
      ReachEven(c, t);
      if Between(source, t', c) {
        EligibleCloser(metas[slots[0]], source, t', t);
        var best := BestSlot(metas, |metas|, source, t');
        ReachEven(FreeSlot(metas[best]), t');
        GreedyDominates(metas, source, FreeSlot(metas[best]), c, slots[1..]);
      } else {
        GreedyDominates(metas, source, t', c, slots[1..]);
        MoreHops(metas, source, t', |slots| - 1, |slots|);
      }
    }
  }

  /** The search fails only when no chain within the hop limit exists, and uses the fewest hops otherwise. */
  lemma GreedyOptimal(metas: seq<Spare>, source: int, target: int, hops: nat)
    ensures Greedy(metas, source, target, hops).Found? <==>
            exists slots :: |slots| <= hops && Chain(metas, source, target, slots)
    ensures forall slots | Chain(metas, source, target, slots) && |slots| <= hops ::
              |Greedy(metas, source, target, hops).slots| <= |slots|
  {
    forall slots | Chain(metas, source, target, slots) && |slots| <= hops
      ensures Greedy(metas, source, target, hops).Found? && |Greedy(metas, source, target, hops).slots| <= |slots|
    {
      GreedyDominates(metas, source, target, target, slots);
      MoreHops(metas, source, target, |slots|, hops);
    }
  }

  // ---------- Writing a chain into the code ----------

  /** JAL instructions in the cache: address to destination. */
  type Code = map<int, int>

  predicate AllFree(metas: seq<Spare>, slots: seq<int>) {
    forall i | 0 <= i < |slots| :: 0 <= slots[i] < |metas| && HasFree(metas[slots[i]])
  }

  function Cells(metas: seq<Spare>, slots: seq<int>): seq<int>
    requires AllFree(metas, slots)
  {
    if slots == [] then [] else [FreeSlot(metas[slots[0]])] + Cells(metas, slots[1..])
  }

  /** Slot cells in order, each jumping to its predecessor, then the source. */
  function Write(code: Code, cells: seq<int>, source: int, target: int): Code
    decreases |cells|
  {
    if cells == [] then code[source := target]
    else Write(code[cells[0] := target], cells[1..], source, cells[0])
  }

  function Bump(metas: seq<Spare>, slots: seq<int>): (r: seq<Spare>)
    requires forall i | 0 <= i < |slots| :: 0 <= slots[i] < |metas| && metas[slots[i]].Spare?
    ensures |r| == |metas|
    ensures forall i | 0 <= i < |metas| :: r[i].Spare? == metas[i].Spare? && (r[i].Spare? ==> r[i].base == metas[i].base)
    decreases |slots|
  {
    if slots == [] then metas
    else
      var m := metas[slots[0]];
      Bump(metas[slots[0] := m.(used := m.used + 1)], slots[1..])
  }

  /** Following `n` jumps from `a`. */
  function Follow(code: Code, a: int, n: nat): int
    decreases n
  {
    if n == 0 || a !in code then a else Follow(code, code[a], n - 1)
  }

  /** The path from `source` through `cells` (last cell first) to `target`, all by in-range JALs. */
  predicate Leads(code: Code, source: int, cells: seq<int>, target: int)
    decreases |cells|
  {
    if cells == [] then source in code && code[source] == target && CanReach(source, target)
    else
      && cells[0] in code && code[cells[0]] == target && CanReach(cells[0], target)
      && Leads(code, source, cells[1..], cells[0])
  }

  /** Cells lie strictly between the source and the target, each nearer to the source than the one before. */
  predicate Descending(source: int, target: int, cells: seq<int>)
    decreases |cells|
  {
    cells == [] || (Between(source, target, cells[0]) && Descending(source, cells[0], cells[1..]))
  }

  lemma {:induction false} DescendingBetween(source: int, target: int, cells: seq<int>, c: int)
    requires Descending(source, target, cells) && c in cells
    ensures Between(source, target, c)
    decreases |cells|
  {
    if c != cells[0] { DescendingBetween(source, cells[0], cells[1..], c); }
  }

  lemma {:induction false} ChainCells(metas: seq<Spare>, source: int, target: int, slots: seq<int>)
    requires Chain(metas, source, target, slots)
    ensures AllFree(metas, slots)
    ensures |Cells(metas, slots)| == |slots|
    ensures forall i | 0 <= i < |slots| :: Cells(metas, slots)[i] == FreeSlot(metas[slots[i]])
    ensures Descending(source, target, Cells(metas, slots))
    decreases |slots|
  {
    if slots != [] {
      ChainCells(metas, source, FreeSlot(metas[slots[0]]), slots[1..]);
    }
  }

  lemma {:induction false} WriteFrames(code: Code, cells: seq<int>, source: int, target: int, a: int)
    requires a != source && a !in cells
    ensures (a in Write(code, cells, source, target)) == (a in code)
    ensures a in code ==> Write(code, cells, source, target)[a] == code[a]
    decreases |cells|
  {
    if cells != [] { WriteFrames(code[cells[0] := target], cells[1..], source, cells[0], a); }
  }

  lemma {:induction false} WriteLeads(code: Code, metas: seq<Spare>, slots: seq<int>, source: int, target: int)
    requires Chain(metas, source, target, slots)
    requires AllFree(metas, slots)
    ensures Leads(Write(code, Cells(metas, slots), source, target), source, Cells(metas, slots), target)
    decreases |slots|
  {
    if slots != [] {
      var cells := Cells(metas, slots);
      var c := cells[0];
      WriteLeads(code[c := target], metas, slots[1..], source, c);
      ChainCells(metas, source, target, slots);
      assert c !in cells[1..] by {
        if c in cells[1..] { DescendingBetween(source, c, cells[1..], c); }
      }
      WriteFrames(code[c := target], cells[1..], source, c, c);
    }
  }

  lemma {:induction false} LeadsFollow(code: Code, source: int, cells: seq<int>, target: int)
    requires Leads(code, source, cells, target)
    ensures Follow(code, source, |cells| + 1) == target
    decreases |cells|
  {
    if cells != [] {
      LeadsFollow(code, source, cells[1..], cells[0]);
      FollowSplit(code, source, |cells|, 1);
    } else {
      assert Follow(code, code[source], 0) == target;
    }
  }

  lemma {:induction false} FollowSplit(code: Code, a: int, m: nat, n: nat)
    ensures Follow(code, a, m + n) == Follow(code, Follow(code, a, m), n)
    decreases m
  {
    if m > 0 && a in code { FollowSplit(code, code[a], m - 1, n); }
  }

  // ---------- The cache with all its links ----------

  /** A link made through trampolines: source JAL, slot cells, final target. */
  datatype Link = Link(source: int, cells: seq<int>, target: int)

  predicate IsCell(m: Spare, k: nat, a: int) {
    m.Spare? && k < m.used && a == m.base + CELL * k
  }

  ghost predicate UsedCell(metas: seq<Spare>, a: int) {
    exists i, k: nat :: 0 <= i < |metas| && IsCell(metas[i], k, a)
  }

  predicate InSpare(m: Spare, a: int) {
    m.Spare? && m.base - CELL < a < m.base + CELL * SLOTS
  }

  /** Spare areas are disjoint and no more than `SLOTS` cells of one are in use. */
  predicate Layout(metas: seq<Spare>) {
    && (forall i | 0 <= i < |metas| :: metas[i].Spare? ==> metas[i].used <= SLOTS)
    && (forall i, j | 0 <= i < j < |metas| && metas[i].Spare? && metas[j].Spare? ::
          metas[i].base + CELL * SLOTS <= metas[j].base || metas[j].base + CELL * SLOTS <= metas[i].base)
  }

  ghost predicate LinkOk(code: Code, metas: seq<Spare>, l: Link) {
    && Leads(code, l.source, l.cells, l.target)
    && (forall c | c in l.cells :: UsedCell(metas, c))
    && (forall i | 0 <= i < |metas| :: !InSpare(metas[i], l.source))
  }

  lemma FreeIsNotUsed(metas: seq<Spare>, i: int)
    requires Layout(metas) && 0 <= i < |metas| && HasFree(metas[i])
    ensures !UsedCell(metas, FreeSlot(metas[i]))
  {
    forall j, k: nat | 0 <= j < |metas| ensures !IsCell(metas[j], k, FreeSlot(metas[i])) {
    }
  }

  lemma {:induction false} LeadsFrames(code: Code, code': Code, source: int, cells: seq<int>, target: int)
    requires Leads(code, source, cells, target)
    requires forall a | a == source || a in cells :: a in code ==> a in code' && code'[a] == code[a]
    ensures Leads(code', source, cells, target)
    decreases |cells|
  {
    if cells != [] { LeadsFrames(code, code', source, cells[1..], cells[0]); }
  }

  /** Each chosen slot of a chain belongs to a different block, so bumping uses up exactly the chosen cells. */
  lemma {:induction false} BumpUses(metas: seq<Spare>, slots: seq<int>, a: int)
    requires AllFree(metas, slots)
    requires forall i, j | 0 <= i < j < |slots| :: slots[i] != slots[j]
    requires UsedCell(metas, a) || exists i :: 0 <= i < |slots| && a == FreeSlot(metas[slots[i]])
    ensures UsedCell(Bump(metas, slots), a)
    decreases |slots|
  {
    if slots != [] {
      var s := slots[0];
      var metas' := metas[s := metas[s].(used := metas[s].used + 1)];
      assert forall i | 0 < i < |slots| :: slots[i] != s && metas'[slots[i]] == metas[slots[i]];
      if a == FreeSlot(metas[s]) {
        assert IsCell(metas'[s], metas[s].used, a);
      } else if UsedCell(metas, a) {
        var i, k: nat :| 0 <= i < |metas| && IsCell(metas[i], k, a);
        assert IsCell(metas'[i], k, a);
      } else {
        var i :| 0 <= i < |slots| && a == FreeSlot(metas[slots[i]]);
        assert slots[1..][i - 1] == slots[i];
      }
      BumpUses(metas', slots[1..], a);
    }
  }

  lemma {:induction false} BumpLayout(metas: seq<Spare>, slots: seq<int>)
    requires Layout(metas)
    requires AllFree(metas, slots)
    requires forall i, j | 0 <= i < j < |slots| :: slots[i] != slots[j]
    ensures Layout(Bump(metas, slots))
    decreases |slots|
  {
    if slots != [] {
      var s := slots[0];
      var metas' := metas[s := metas[s].(used := metas[s].used + 1)];
      assert forall i | 0 < i < |slots| :: slots[i] != s && metas'[slots[i]] == metas[slots[i]];
      BumpLayout(metas', slots[1..]);
    }
  }

  lemma {:induction false} DescendingDistinct(source: int, target: int, cells: seq<int>)
    requires Descending(source, target, cells)
    ensures forall i, j | 0 <= i < j < |cells| :: cells[i] != cells[j]
    ensures source !in cells
    decreases |cells|
  {
    if cells != [] {
      DescendingDistinct(source, cells[0], cells[1..]);
      forall j | 0 < j < |cells| ensures cells[0] != cells[j] {
        DescendingBetween(source, cells[0], cells[1..], cells[1..][j - 1]);
      }
    }
  }

  lemma ChainDistinct(metas: seq<Spare>, source: int, target: int, slots: seq<int>)
    requires Chain(metas, source, target, slots)
    ensures forall i, j | 0 <= i < j < |slots| :: slots[i] != slots[j]
  {
    ChainCells(metas, source, target, slots);
    DescendingDistinct(source, target, Cells(metas, slots));
    var cells := Cells(metas, slots);
    assert forall i, j | 0 <= i < j < |slots| :: cells[i] != cells[j];
  }

  /** A new chain disturbs no link with another source. */
  lemma EarlierLinksIntact(code: Code, metas: seq<Spare>, slots: seq<int>, source: int, target: int, l: Link)
    requires Layout(metas) && Chain(metas, source, target, slots)
    requires AllFree(metas, slots)
    requires forall i | 0 <= i < |metas| :: !InSpare(metas[i], source)
    requires LinkOk(code, metas, l) && l.source != source
    ensures LinkOk(Write(code, Cells(metas, slots), source, target), Bump(metas, slots), l)
  {
    var cells := Cells(metas, slots);
    var code' := Write(code, cells, source, target);
    ChainCells(metas, source, target, slots);
    ChainDistinct(metas, source, target, slots);
    forall a | a == l.source || a in l.cells ensures a in code ==> a in code' && code'[a] == code[a] {
      assert a != source && a !in cells by {
        OffTheChain(metas, slots, source, target, l, a, code);
      }
      WriteFrames(code, cells, source, target, a);
    }
    LeadsFrames(code, code', l.source, l.cells, l.target);
    forall c | c in l.cells ensures UsedCell(Bump(metas, slots), c) { BumpUses(metas, slots, c); }
  }

  lemma OffTheChain(metas: seq<Spare>, slots: seq<int>, source: int, target: int, l: Link, a: int, code: Code)
    requires Layout(metas) && Chain(metas, source, target, slots)
    requires AllFree(metas, slots)
    requires forall i | 0 <= i < |metas| :: !InSpare(metas[i], source)
    requires LinkOk(code, metas, l) && l.source != source && (a == l.source || a in l.cells)
    ensures a != source && a !in Cells(metas, slots)
  {
    ChainCells(metas, source, target, slots);
    if a in l.cells {
      var i, k: nat :| 0 <= i < |metas| && IsCell(metas[i], k, a);
      assert !InSpare(metas[i], source);
    }
    forall k | 0 <= k < |slots| ensures a != Cells(metas, slots)[k] {
      FreeIsNotUsed(metas, slots[k]);
      if a == l.source { assert !InSpare(metas[slots[k]], a); }
    }
  }

  /** The new link itself is in order and its cells were unused before. */
  lemma NewLinkOk(code: Code, metas: seq<Spare>, slots: seq<int>, source: int, target: int)
    requires Layout(metas) && Chain(metas, source, target, slots)
    requires AllFree(metas, slots)
    requires forall i | 0 <= i < |metas| :: !InSpare(metas[i], source)
    ensures var cells := Cells(metas, slots);
            && LinkOk(Write(code, cells, source, target), Bump(metas, slots), Link(source, cells, target))
            && forall c | c in cells :: !UsedCell(metas, c)
  {
    var cells := Cells(metas, slots);
    ChainCells(metas, source, target, slots);
    ChainDistinct(metas, source, target, slots);
    WriteLeads(code, metas, slots, source, target);
    forall c | c in cells ensures UsedCell(Bump(metas, slots), c) && !UsedCell(metas, c) {
      var k :| 0 <= k < |cells| && cells[k] == c;
      assert slots[k] in slots;
      BumpUses(metas, slots, c);
      FreeIsNotUsed(metas, slots[k]);
    }
  }

  ghost predicate Sound(code: Code, metas: seq<Spare>, links: set<Link>) {
    Layout(metas) && forall l | l in links :: LinkOk(code, metas, l)
  }

  /** What a successful call leaves behind: the fewest possible fresh slots lead to the target, other links stay. */
  ghost predicate Linked(metas: seq<Spare>, links: set<Link>, code': Code, links': set<Link>, source: int, target: int) {
    exists cells ::
      && Link(source, cells, target) in links'
      && Follow(code', source, |cells| + 1) == target
      && (forall c | c in cells :: !UsedCell(metas, c))
      && (forall slots | Chain(metas, source, target, slots) && |slots| <= MAX_HOPS :: |cells| <= |slots|)
      && (forall l | l in links && l.source != source :: l in links')
      && (forall l | l in links' :: l in links || l.source == source)
  }

  ghost function Relinked(links: set<Link>, l: Link): set<Link> {
    (set k | k in links && k.source != l.source) + {l}
  }

  lemma LinkMade(code: Code, metas: seq<Spare>, links: set<Link>, slots: seq<int>, source: int, target: int)
    requires Greedy(metas, source, target, MAX_HOPS) == Found(slots) && AllFree(metas, slots)
    requires forall i | 0 <= i < |metas| :: !InSpare(metas[i], source)
    requires Sound(code, metas, links)
    ensures var cells := Cells(metas, slots);
            var code', links' := Write(code, cells, source, target), Relinked(links, Link(source, cells, target));
            Sound(code', Bump(metas, slots), links') && Linked(metas, links, code', links', source, target)
  {
    hide Greedy, Chain, Layout, LinkOk, Write, Bump, Cells, Leads, InSpare, UsedCell;
    var cells := Cells(metas, slots);
    GreedyOptimal(metas, source, target, MAX_HOPS);
    ChainCells(metas, source, target, slots);
    ChainDistinct(metas, source, target, slots);
    NewLinkOk(code, metas, slots, source, target);
    forall l | l in links && l.source != source
      ensures LinkOk(Write(code, cells, source, target), Bump(metas, slots), l)
    {
      EarlierLinksIntact(code, metas, slots, source, target, l);
    }
    BumpLayout(metas, slots);
    LeadsFollow(Write(code, cells, source, target), source, cells, target);
    assert Link(source, cells, target) in Relinked(links, Link(source, cells, target));
  }

  /** Spare areas stay where they are. */
  predicate SameAreas(metas: seq<Spare>, metas': seq<Spare>) {
    && |metas| == |metas'|
    && forall i | 0 <= i < |metas| :: metas[i].Spare? == metas'[i].Spare? && (metas[i].Spare? ==> metas[i].base == metas'[i].base)
  }

  /** The target is not too far away, and free slots lead there in at most eight hops. */
  ghost predicate CanHop(metas: seq<Spare>, source: int, target: int) {
    && (if source >= target then source - target else target - source) < MAX_DISTANCE
    && exists slots :: |slots| <= MAX_HOPS && Chain(metas, source, target, slots)
  }

  /** The blocks' spare areas, the JALs in the cache and, for the specification, the links made so far. */
  class Cache {
    var metas: seq<Spare>
    var code: Code
    ghost var links: set<Link>

    ghost predicate Valid()
      reads this
    {
      Sound(code, metas, links)
    }

    constructor ()
      ensures Valid() && metas == [] && links == {}
    {
      metas, code, links := [], map[], {};
    }

    /** `flush_code_cache`: every spare area is forgotten together with the code. */
    method Flush()
      modifies this
      ensures Valid() && links == {} && |metas| == old(|metas|) && forall i | 0 <= i < |metas| :: metas[i] == NoSpare
    {
      metas := seq(|metas|, _ => NoSpare);
      links := {};
    }

    /** The end of `scan_riscv`: a block with room left gets six slots. */
    method AddBlock(spare: Spare)
      requires Valid() && spare.Spare? ==> spare.used == 0
      requires Valid() && Layout(metas + [spare]) && forall l | l in links :: !InSpare(spare, l.source)
      modifies this
      ensures Valid() && metas == old(metas) + [spare] && links == old(links) && code == old(code)
    {
      metas := metas + [spare];
      forall l | l in links ensures LinkOk(code, metas, l) {
        forall c | c in l.cells ensures UsedCell(metas, c) {
          assert UsedCell(old(metas), c);
          var i, k: nat :| 0 <= i < |old(metas)| && IsCell(old(metas)[i], k, c);
          assert IsCell(metas[i], k, c);
        }
      }
    }

    /** `riscv_try_jump_trampolines`. */
    method TryJump(source: int, target: int) returns (ok: bool)
      requires Valid() && forall i | 0 <= i < |metas| :: !InSpare(metas[i], source)
      modifies this
      ensures Valid()
      ensures ok <==> old(CanHop(metas, source, target))
      ensures !ok ==> metas == old(metas) && code == old(code) && links == old(links)
      ensures ok ==> Linked(old(metas), old(links), code, links, source, target)
      ensures SameAreas(old(metas), metas)
    {
      GreedyOptimal(metas, source, target, MAX_HOPS);
      if (if source >= target then source - target else target - source) >= MAX_DISTANCE { return false; }

      var slots, addrs;
      ok, slots, addrs := FindChain(metas, source, target);
      if !ok { return; }

      LinkMade(code, metas, links, slots, source, target);
      code, metas := WriteChain(code, metas, slots, addrs, source, target);
      links := Relinked(links, Link(source, addrs, target));
    }
  }

  /** A search result behind the slots already chosen. */
  function After(done: seq<int>, r: Search): Search {
    if r.Failed? then Failed else Found(done + r.slots)
  }

  lemma GreedyStep(metas: seq<Spare>, source: int, next: int, hops: nat, done: seq<int>)
    requires !CanReach(source, next) && hops > 0 && BestSlot(metas, |metas|, source, next) >= 0
    ensures var best := BestSlot(metas, |metas|, source, next);
            After(done, Greedy(metas, source, next, hops))
            == After(done + [best], Greedy(metas, source, FreeSlot(metas[best]), hops - 1))
  {
    var best := BestSlot(metas, |metas|, source, next);
    var rest := Greedy(metas, source, FreeSlot(metas[best]), hops - 1);
    if rest.Found? {
      assert done + ([best] + rest.slots) == (done + [best]) + rest.slots;
    }
  }

  lemma {:induction false} CellsAre(metas: seq<Spare>, slots: seq<int>, addrs: seq<int>)
    requires AllFree(metas, slots) && |addrs| == |slots|
    requires forall i | 0 <= i < |slots| :: addrs[i] == FreeSlot(metas[slots[i]])
    ensures Cells(metas, slots) == addrs
  {
    if slots != [] { CellsAre(metas, slots[1..], addrs[1..]); }
  }

  /** The search loop of `riscv_try_jump_trampolines`. */
  method FindChain(metas: seq<Spare>, source: int, target: int) returns (ok: bool, slots: seq<int>, addrs: seq<int>)
    ensures var g := Greedy(metas, source, target, MAX_HOPS);
            ok == g.Found? && (ok ==> slots == g.slots && AllFree(metas, slots) && addrs == Cells(metas, slots) && |addrs| == |slots|)
  {
    ok, slots, addrs := false, [], [];
    var next := target;
    ghost var left: nat := MAX_HOPS;
    ghost var g := Greedy(metas, source, target, left);
    while !CanReach(source, next)
      invariant |slots| == |addrs| <= MAX_HOPS && left == MAX_HOPS - |slots| && !ok
      invariant g == After(slots, Greedy(metas, source, next, left))
      invariant AllFree(metas, slots) && forall i | 0 <= i < |slots| :: addrs[i] == FreeSlot(metas[slots[i]])
      decreases MAX_HOPS - |slots|
    {
      if |slots| >= MAX_HOPS { return; }
      var best, addr := FindSlot(metas, source, next);
      if best == -1 { return; }
      GreedyStep(metas, source, next, left, slots);
      left := left - 1;
      slots, addrs, next := slots + [best], addrs + [addr], addr;
    }
    ok := true;
    assert slots + [] == slots;
    CellsAre(metas, slots, addrs);
  }

  /** The write loop: slot JALs first, the source JAL last. */
  method WriteChain(code: Code, metas: seq<Spare>, slots: seq<int>, addrs: seq<int>, source: int, target: int)
    returns (code': Code, metas': seq<Spare>)
    requires AllFree(metas, slots) && |addrs| == |slots|
    ensures code' == Write(code, addrs, source, target) && metas' == Bump(metas, slots)
  {
    code', metas' := code, metas;
    var i := 0;
    while i < |slots|
      invariant 0 <= i <= |slots|
      invariant Write(code', addrs[i..], source, if i == 0 then target else addrs[i - 1]) == Write(code, addrs, source, target)
      invariant |metas'| == |metas| && forall k | 0 <= k < |slots| :: 0 <= slots[k] < |metas'| && metas'[slots[k]].Spare?
      invariant Bump(metas', slots[i..]) == Bump(metas, slots)
    {
      assert addrs[i..][1..] == addrs[i + 1..] && slots[i..][1..] == slots[i + 1..];
      code' := code'[addrs[i] := if i == 0 then target else addrs[i - 1]];
      var m := metas'[slots[i]];
      metas' := metas'[slots[i] := m.(used := m.used + 1)];
      i := i + 1;
    }
    assert addrs[i..] == [] && slots[i..] == [];
    code' := code'[source := if |slots| == 0 then target else addrs[|slots| - 1]];
  }
}
