/** From a code-cache address to the fragment it lies in (`addr_to_fragment_id` in `dbm.c`). */
module FragmentIndex {
  import opened CacheLayout
  import opened TraceModel
  import opened TraceSafety

  /** The last trace fragment that starts at or before `addr`. */
  predicate Containing(t: Thread, addr: nat, id: int) {
    && CODE_CACHE_SIZE <= id < t.active.id && id in t.frags && t.frags[id].tpc <= addr
    && forall k | id < k < t.active.id && k in t.frags :: addr < t.frags[k].tpc
  }

  /** The owner of an allocated block. */
  lemma BlockFacts(t: Thread, addr: nat)
    requires Core(t) && BLOCK_BYTES * t.first <= addr < BLOCK_BYTES * t.freeBlock
    ensures var b := addr / BLOCK_BYTES;
            var o := Owner(t.actual, b);
            && t.first <= b < t.freeBlock && t.first <= o <= b && o in t.bbs && t.bbs[o].gen == t.gen && b < o + t.bbs[o].blocks
  {
    var b := addr / BLOCK_BYTES;
    assert BLOCK_BYTES * b <= addr < BLOCK_BYTES * (b + 1);
    var o := Owner(t.actual, b);
  }

  /** `addr_to_fragment_id`; without any trace the search looks at the last basic block, which starts below the traces. */
  method AddrToFragmentId(t: Thread, addr: nat) returns (id: int)
    requires Core(t) && addr < CACHE_END
    ensures BLOCK_BYTES * t.first <= addr < BLOCK_BYTES * t.freeBlock ==>
              && 0 < id <= addr / BLOCK_BYTES && id in t.bbs && t.bbs[id].gen == t.gen
              && addr / BLOCK_BYTES < id + t.bbs[id].blocks
    ensures addr >= TRACES && t.active.id > CODE_CACHE_SIZE ==> Containing(t, addr, id)
  {
    id := BbId(addr);
    if id >= 0 {
      if id in t.actual { id := t.actual[id]; }
      if BLOCK_BYTES * t.first <= addr < BLOCK_BYTES * t.freeBlock { BlockFacts(t, addr); }
      return;
    }
    var first, last := CODE_CACHE_SIZE, t.active.id - 1;
    if last < CODE_CACHE_SIZE { return last; }
    if addr >= t.frags[last].tpc { return last; }
    while first <= last
      invariant CODE_CACHE_SIZE <= first <= last + 1 <= t.active.id
      invariant addr < t.frags[if last + 1 < t.active.id then last + 1 else last].tpc
      invariant first < t.active.id && t.frags[first].tpc <= addr
      decreases last + 1 - first
    {
      var pivot := (first + last) / 2;
      if addr < t.frags[pivot].tpc {
        last := pivot - 1;
      } else if addr >= t.frags[pivot + 1].tpc {
        first := pivot + 1;
      } else {
        return pivot;
      }
    }
    id := -1;
  }
}
