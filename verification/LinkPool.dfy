/**
 The pool of link records (`linked_list_init`, `linked_list_alloc` in `common.c`) and the lists of incoming links
 kept for each basic block (`record_cc_link`, `flush_code_cache` in `dbm.c`). Pool cells are numbered; -1 is NULL.
 */
module LinkPool {
  import opened CacheLayout

  /** Cell `k` of the list is a pool cell and points to cell `k + 1`. */
  predicate LinkedAt(next: seq<int>, cells: seq<int>, k: nat)
    requires k < |cells|
  {
    0 <= cells[k] < |next| && next[cells[k]] == if k + 1 < |cells| then cells[k + 1] else -1
  }

  /** A NULL-terminated list of cells laid out by `next`. */
  predicate Chain(next: seq<int>, head: int, cells: seq<int>) {
    && head == (if cells == [] then -1 else cells[0])
    && (forall k | 0 <= k < |cells| :: LinkedAt(next, cells, k))
  }

  /** Which list a cell is on: -1 the free list, otherwise the list of that block. */
  type Owners = seq<int>

  /** Exactly the cells owned by `id`, each once; `height` counts from the end of the list. */
  predicate Owns(owner: Owners, height: seq<int>, id: int, cells: seq<int>)
    requires |owner| == |height|
  {
    && (forall k | 0 <= k < |cells| :: 0 <= cells[k] < |owner| && owner[cells[k]] == id && height[cells[k]] == |cells| - 1 - k)
    && (forall c | 0 <= c < |owner| && owner[c] == id :: 0 <= height[c] < |cells| && cells[|cells| - 1 - height[c]] == c)
  }

  /** One well-formed list. */
  predicate IsList(next: seq<int>, owner: Owners, height: seq<int>, head: int, id: int, cells: seq<int>) {
    |owner| == |height| == |next| && Chain(next, head, cells) && Owns(owner, height, id, cells)
  }

  /** Writing a cell that `id` does not own, and handing it to another list, leaves the list alone. */
  lemma ListFrames(next: seq<int>, owner: Owners, height: seq<int>, head: int, id: int, cells: seq<int>, c: nat, n: int,
        to: int, h: int)
    requires IsList(next, owner, height, head, id, cells)
    requires c < |next| && owner[c] != id && to != id
    ensures IsList(next[c := n], owner[c := to], height[c := h], head, id, cells)
  {
    var next' := next[c := n];
    forall k | 0 <= k < |cells| ensures LinkedAt(next', cells, k) {
      assert LinkedAt(next, cells, k);
    }
  }

  /** Taking the first cell off a list. */
  lemma ListPop(next: seq<int>, owner: Owners, height: seq<int>, head: int, id: int, cells: seq<int>, n: int, to: int, h: int)
    requires IsList(next, owner, height, head, id, cells) && cells != [] && to != id
    ensures IsList(next[head := n], owner[head := to], height[head := h], next[head], id, cells[1..])
  {
    assert LinkedAt(next, cells, 0);
    var rest, next' := cells[1..], next[head := n];
    forall k | 0 <= k < |rest| ensures LinkedAt(next', rest, k) {
      assert LinkedAt(next, cells, k + 1) && height[cells[k + 1]] != height[head];
    }
  }

  /** Putting a foreign cell in front of a list. */
  lemma ListPush(next: seq<int>, owner: Owners, height: seq<int>, head: int, id: int, cells: seq<int>, c: nat)
    requires IsList(next, owner, height, head, id, cells) && c < |next| && owner[c] != id
    ensures IsList(next[c := head], owner[c := id], height[c := |cells|], c, id, [c] + cells)
  {
    var longer, next' := [c] + cells, next[c := head];
    forall k | 0 <= k < |longer| ensures LinkedAt(next', longer, k) {
      if k > 0 { assert LinkedAt(next, cells, k - 1) && owner[cells[k - 1]] == id; }
    }
  }

  /** Lists of different owners share no cell. */
  lemma ListsDisjoint(next: seq<int>, owner: Owners, height: seq<int>, h1: int, id1: int, a: seq<int>, h2: int, id2: int,
        b: seq<int>)
    requires IsList(next, owner, height, h1, id1, a) && IsList(next, owner, height, h2, id2, b) && id1 != id2
    ensures forall c | c in a :: c !in b
  {
  }

  /** A well-formed list has no repeated cell, so following `next` from its head ends. */
  lemma ListAcyclic(next: seq<int>, owner: Owners, height: seq<int>, head: int, id: int, cells: seq<int>)
    requires IsList(next, owner, height, head, id, cells)
    ensures forall i, j | 0 <= i < j < |cells| :: cells[i] != cells[j]
  {
  }

  /** The recorded link sources along a list. */
  function Data(data: seq<int>, cells: seq<int>): (r: seq<int>)
    ensures |r| == |cells|
  {
    seq(|cells|, k requires 0 <= k < |cells| => if 0 <= cells[k] < |data| then data[cells[k]] else 0)
  }

  /** The free list and the lists of all basic blocks. */
  predicate Pool(next: seq<int>, owner: Owners, height: seq<int>, freeList: int, free: seq<int>, heads: seq<int>, lists: seq<seq<int>>) {
    && |heads| == CODE_CACHE_SIZE + 1 && |lists| == CODE_CACHE_SIZE
    && IsList(next, owner, height, freeList, -1, free)
    && (forall id | 0 <= id < CODE_CACHE_SIZE :: IsList(next, owner, height, heads[id], id, lists[id]))
  }

  /** The height given to a cell pushed on list `id`. */
  function PushHeight(lists: seq<seq<int>>, id: int): nat {
    if 0 <= id < |lists| then |lists[id]| else 0
  }

  lemma PoolRecord(next: seq<int>, owner: Owners, height: seq<int>, freeList: int, free: seq<int>, heads: seq<int>,
        lists: seq<seq<int>>, id: nat)
    requires Pool(next, owner, height, freeList, free, heads, lists) && free != [] && id <= CODE_CACHE_SIZE
    ensures 0 <= freeList < |next|
    ensures Pool(next[freeList := heads[id]], owner[freeList := id], height[freeList := PushHeight(lists, id)],
                 next[freeList], free[1..], heads[id := freeList],
                 if id < CODE_CACHE_SIZE then lists[id := [freeList] + lists[id]] else lists)
  {
    var c, h := freeList, PushHeight(lists, id);
    ListPop(next, owner, height, c, -1, free, heads[id], id, h);
    var lists' := if id < CODE_CACHE_SIZE then lists[id := [c] + lists[id]] else lists;
    forall k | 0 <= k < CODE_CACHE_SIZE
      ensures IsList(next[c := heads[id]], owner[c := id], height[c := h], heads[id := c][k], k, lists'[k])
    {
      if k == id {
        ListPush(next, owner, height, heads[id], id, lists[id], c);
      } else {
        ListFrames(next, owner, height, heads[k], k, lists[k], c, heads[id], id, h);
      }
    }
  }

  lemma PoolFacts(next: seq<int>, owner: Owners, height: seq<int>, freeList: int, free: seq<int>, heads: seq<int>,
        lists: seq<seq<int>>)
    requires Pool(next, owner, height, freeList, free, heads, lists)
    ensures |owner| == |height| == |next| && |heads| == CODE_CACHE_SIZE + 1 && |lists| == CODE_CACHE_SIZE
    ensures freeList == -1 <==> free == []
    ensures freeList != -1 ==> 0 <= freeList < |next|
  {
    if free != [] { assert LinkedAt(next, free, 0); }
  }

  /** A store to a cell outside the list does not change its data. */
  lemma DataFrames(next: seq<int>, owner: Owners, height: seq<int>, head: int, id: int, cells: seq<int>, data: seq<int>,
        c: nat, d: int)
    requires IsList(next, owner, height, head, id, cells) && c < |data| == |next| && owner[c] != id
    ensures Data(data[c := d], cells) == Data(data, cells)
    ensures Data(data[c := d], [c] + cells) == [d] + Data(data, cells)
  {
  }

  /** The data of all lists after a record. */
  lemma PoolData(next: seq<int>, owner: Owners, height: seq<int>, freeList: int, free: seq<int>, heads: seq<int>,
        lists: seq<seq<int>>,
                 data: seq<int>, id: nat, d: int)
    requires Pool(next, owner, height, freeList, free, heads, lists) && free != [] && |data| == |next| && id <= CODE_CACHE_SIZE
    ensures 0 <= freeList < |data|
    ensures var lists' := if id < CODE_CACHE_SIZE then lists[id := [freeList] + lists[id]] else lists;
            forall k: nat | k < CODE_CACHE_SIZE ::
              Data(data[freeList := d], lists'[k]) == if k == id then [d] + Data(data, lists[k]) else Data(data, lists[k])
  {
    assert LinkedAt(next, free, 0);
    forall k: nat | k < CODE_CACHE_SIZE
      ensures Data(data[freeList := d], lists[k]) == Data(data, lists[k])
      ensures Data(data[freeList := d], [freeList] + lists[k]) == [d] + Data(data, lists[k])
    {
      DataFrames(next, owner, height, heads[k], k, lists[k], data, freeList, d);
    }
  }

  // ---------- Runs ----------

  /** A recorded link, or a flush of the code cache. */
  datatype Event = Record(linkedFrom: int, linkedTo: int) | Flush

  /** The links to block `id` recorded since the last flush, newest first. */
  function Recorded(events: seq<Event>, id: int): seq<int> {
    if events == [] then []
    else
      var before := Recorded(events[..|events| - 1], id);
      match events[|events| - 1]
      case Flush => []
      case Record(linkedFrom, linkedTo) => if BbId(linkedTo) == id then [linkedFrom] + before else before
  }

  /** How many pool cells have been taken since the last flush. */
  function Taken(events: seq<Event>): nat {
    if events == [] then 0
    else
      match events[|events| - 1]
      case Flush => 0
      case Record(_, linkedTo) => Taken(events[..|events| - 1]) + if BbId(linkedTo) >= 0 then 1 else 0
  }

  class Links {
    const size: nat
    var next: seq<int>
    var data: seq<int>
    var freeList: int
    /** `code_cache_meta[id].linked_from`, including the entry just past the basic blocks. */
    var heads: seq<int>
    ghost var owner: Owners
    ghost var height: seq<int>
    ghost var free: seq<int>
    ghost var lists: seq<seq<int>>

    ghost predicate Valid()
      reads this
    {
      size == |next| == |data| && Pool(next, owner, height, freeList, free, heads, lists)
    }

    /** The links stored for a basic block. */
    ghost function LinksOf(id: nat): seq<int>
      requires Valid() && id < CODE_CACHE_SIZE
      reads this
    {
      Data(data, lists[id])
    }

    constructor (size: nat)
      requires size >= 1
      ensures Valid() && |free| == size && this.size == size && forall id: nat | id < CODE_CACHE_SIZE :: LinksOf(id) == []
    {
      this.size := size;
      next, data := seq(size, _ => -1), seq(size, _ => 0);
      freeList, heads := -1, seq(CODE_CACHE_SIZE + 1, _ => -1);
      new;
      Reset();
    }

    /** `linked_list_init`. */
    method PoolInit()
      requires |next| == size >= 1
      modifies this`next, this`freeList, this`owner, this`height, this`free
      ensures IsList(next, owner, height, freeList, -1, free) && |free| == |next| == size
      ensures forall c | 0 <= c < size :: owner[c] == -1
    {
      freeList := 0;
      var i := 0;
      while i < size - 1
        invariant 0 <= i <= size - 1 && |next| == size && freeList == 0
        invariant forall k | 0 <= k < i :: next[k] == k + 1
      {
        next := next[i := i + 1];
        i := i + 1;
      }
      next := next[size - 1 := -1];
      owner, free := seq(size, _ => -1), seq(size, k => k);
      height := seq(size, k => size - 1 - k);
      forall k | 0 <= k < size ensures LinkedAt(next, free, k) { }
    }

    /** The part of `flush_code_cache` that concerns links: basic blocks only, then the pool. */
    method Reset()
      requires |next| == |data| == size >= 1 && |heads| == CODE_CACHE_SIZE + 1
      modifies this
      ensures Valid() && |free| == size && forall id: nat | id < CODE_CACHE_SIZE :: LinksOf(id) == []
      ensures heads[CODE_CACHE_SIZE] == old(heads[CODE_CACHE_SIZE])
    {
      var i := 0;
      while i < CODE_CACHE_SIZE
        invariant 0 <= i <= CODE_CACHE_SIZE && |heads| == CODE_CACHE_SIZE + 1 && |next| == |data| == size
        invariant forall id | 0 <= id < i :: heads[id] == -1
        invariant heads[CODE_CACHE_SIZE] == old(heads[CODE_CACHE_SIZE])
      {
        heads := heads[i := -1];
        i := i + 1;
      }
      lists := seq(CODE_CACHE_SIZE, _ => []);
      PoolInit();
    }

    /**
     `record_cc_link`; `ok == false` is the assertion that the pool is not exhausted. A target that is not in the
     basic-block area records nothing. The entry just past the basic blocks gets a list that a flush never resets.
     */
    method RecordLink(linkedFrom: int, linkedTo: int) returns (ok: bool)
      requires Valid()
      modifies this
      ensures Valid()
      ensures ok <==> BbId(linkedTo) < 0 || old(free) != []
      ensures !ok ==> unchanged(this)
      ensures ok ==> |free| == old(|free|) - if BbId(linkedTo) >= 0 then 1 else 0
      ensures ok ==> forall id: nat | id < CODE_CACHE_SIZE ::
                LinksOf(id) == if id == BbId(linkedTo) then [linkedFrom] + old(LinksOf(id)) else old(LinksOf(id))
    {
      hide Pool, Data, PushHeight;
      PoolFacts(next, owner, height, freeList, free, heads, lists);
      var id := BbId(linkedTo);
      if id < 0 { return true; }
      if freeList == -1 { return false; }
      PoolRecord(next, owner, height, freeList, free, heads, lists, id);
      PoolData(next, owner, height, freeList, free, heads, lists, data, id, linkedFrom);
      var entry := freeList;
      owner, height := owner[entry := id], height[entry := PushHeight(lists, id)];
      lists := if id < CODE_CACHE_SIZE then lists[id := [entry] + lists[id]] else lists;
      free := free[1..];

      freeList := next[entry];
      data := data[entry := linkedFrom];
      next := next[entry := heads[id]];
      heads := heads[id := entry];
      ok := true;
    }

    /**
     Any run of link records and flushes on a fresh pool: each block's list holds exactly its links since the last
     flush, newest first, and the run stops only when more links than pool cells are recorded between flushes.
     */
    method Replay(events: seq<Event>) returns (done: nat)
      requires Valid() && |free| == size >= 1 && forall id: nat | id < CODE_CACHE_SIZE :: LinksOf(id) == []
      modifies this
      ensures Valid() && done <= |events|
      ensures forall id: nat | id < CODE_CACHE_SIZE :: LinksOf(id) == Recorded(events[..done], id)
      ensures |free| == size - Taken(events[..done])
      ensures done < |events| ==> Taken(events[..done + 1]) > size
    {
      done := 0;
      while done < |events|
        invariant done <= |events| && Valid() && |free| == size - Taken(events[..done])
        invariant forall id: nat | id < CODE_CACHE_SIZE :: LinksOf(id) == Recorded(events[..done], id)
      {
        assert events[..done + 1][..done] == events[..done];
        match events[done] {
          case Flush => Reset();
          case Record(linkedFrom, linkedTo) =>
            var ok := RecordLink(linkedFrom, linkedTo);
            if !ok { return; }
        }
        done := done + 1;
      }
    }
  }
}
