/**
 The interval map of `common.c`: an unordered array of half-open address ranges with optional duplicated file
 descriptors, deletion by moving the last entry into the hole.
 */
module IntervalMap {

  datatype Interval = Interval(start: int, end: int, fd: int)

  predicate Holds(x: Interval, a: int) {
    x.start <= a < x.end
  }

  ghost predicate Covers(s: seq<Interval>, a: int) {
    exists i :: 0 <= i < |s| && Holds(s[i], a)
  }

  /** The overlap test of all three loops. */
  predicate Hits(x: Interval, start: int, end: int) {
    start < x.end && end > x.start
  }

  function Min(a: int, b: int): int { if a < b then a else b }
  function Max(a: int, b: int): int { if a > b then a else b }

  // ---------- Duplicated descriptors ----------

  function Keeps(x: Interval, f: int): nat {
    if f >= 0 && x.fd == f then 1 else 0
  }

  /** How many entries keep descriptor `f`. */
  function CountFd(s: seq<Interval>, f: int): nat {
    if s == [] then 0 else Keeps(s[0], f) + CountFd(s[1..], f)
  }

  lemma {:induction false} CountConcat(a: seq<Interval>, b: seq<Interval>, f: int)
    ensures CountFd(a + b, f) == CountFd(a, f) + CountFd(b, f)
  {
    if a == [] {
      assert a + b == b;
    } else {
      CountConcat(a[1..], b, f);
      assert (a + b)[1..] == a[1..] + b;
    }
  }

  lemma {:induction false} CountUpdate(s: seq<Interval>, i: nat, x: Interval, f: int)
    requires i < |s|
    ensures CountFd(s[i := x], f) == CountFd(s, f) - Keeps(s[i], f) + Keeps(x, f)
  {
    if i > 0 {
      CountUpdate(s[1..], i - 1, x, f);
      assert s[i := x][1..] == s[1..][i - 1 := x];
    } else {
      assert s[i := x][1..] == s[1..];
    }
  }

  lemma CountDropLast(s: seq<Interval>, f: int)
    requires s != []
    ensures CountFd(s[..|s| - 1], f) == CountFd(s, f) - Keeps(s[|s| - 1], f)
  {
    var last := s[|s| - 1];
    CountConcat(s[..|s| - 1], [last], f);
    assert s == s[..|s| - 1] + [last];
    assert CountFd([last], f) == Keeps(last, f) by { assert [last][1..] == []; }
  }

  /** The open duplicates are exactly the descriptors kept by the entries. */
  ghost predicate FdsMatch(open: multiset<int>, s: seq<Interval>) {
    forall f :: open[f] == CountFd(s, f)
  }

  function FdOf(x: Interval): multiset<int> {
    if x.fd >= 0 then multiset{x.fd} else multiset{}
  }

  /** The live entries after moving the last one into slot `i`. */
  function SwapOut(s: seq<Interval>, i: nat): seq<Interval>
    requires i < |s|
  {
    s[i := s[|s| - 1]][..|s| - 1]
  }

  lemma FdsSwapOut(open: multiset<int>, s: seq<Interval>, i: nat)
    requires FdsMatch(open, s) && i < |s|
    ensures FdsMatch(open - FdOf(s[i]), SwapOut(s, i))
  {
    forall f ensures (open - FdOf(s[i]))[f] == CountFd(SwapOut(s, i), f) {
      CountUpdate(s, i, s[|s| - 1], f);
      CountDropLast(s[i := s[|s| - 1]], f);
      assert open[f] == CountFd(s, f);
    }
  }

  lemma FdsUpdate(open: multiset<int>, s: seq<Interval>, i: nat, x: Interval)
    requires FdsMatch(open, s) && i < |s| && x.fd == s[i].fd
    ensures FdsMatch(open, s[i := x])
  {
    forall f ensures open[f] == CountFd(s[i := x], f) { CountUpdate(s, i, x, f); }
  }

  lemma FdsAppend(open: multiset<int>, s: seq<Interval>, x: Interval)
    requires FdsMatch(open, s)
    ensures FdsMatch(open + FdOf(x), s + [x])
  {
    forall f ensures (open + FdOf(x))[f] == CountFd(s + [x], f) {
      CountConcat(s, [x], f);
      assert CountFd([x], f) == Keeps(x, f) by { assert [x][1..] == []; }
    }
  }

  // ---------- interval_map_delete ----------

  predicate Inside(x: Interval, start: int, end: int) {
    start <= x.start && end >= x.end
  }

  /** The entry reaches the last `else`: split, or straddled over one of its edges. */
  predicate Splits(x: Interval, start: int, end: int) {
    && Hits(x, start, end) && !Inside(x, start, end)
    && !(start == x.start && end < x.end) && !(end == x.end && start > x.start)
  }

  /** Entries left after processing the indices from `p` on. */
  function LeftAfter(e: seq<Interval>, p: nat, start: int, end: int): int
    requires p <= |e|
    decreases |e| - p
  {
    if p == |e| then |e|
    else
      LeftAfter(e, p + 1, start, end)
      + (if Hits(e[p], start, end) && Inside(e[p], start, end) then -1 else 0)
      + (if Splits(e[p], start, end) then 1 else 0)
  }

  /** What the assertions demand of entry `p`: room for its right part, and a right part at all. */
  predicate Deletable(e: seq<Interval>, p: nat, start: int, end: int, memSize: nat)
    requires p < |e|
  {
    Splits(e[p], start, end) ==> end < e[p].end && LeftAfter(e, p + 1, start, end) < memSize
  }

  lemma CoversConcat(a: seq<Interval>, b: seq<Interval>, x: int)
    ensures Covers(a + b, x) <==> Covers(a, x) || Covers(b, x)
  {
    if Covers(a, x) {
      var i :| 0 <= i < |a| && Holds(a[i], x);
      assert Holds((a + b)[i], x);
    }
    if Covers(b, x) {
      var i :| 0 <= i < |b| && Holds(b[i], x);
      assert Holds((a + b)[|a| + i], x);
    }
    if Covers(a + b, x) {
      var i :| 0 <= i < |a + b| && Holds((a + b)[i], x);
      if i < |a| { assert Holds(a[i], x); } else { assert Holds(b[i - |a|], x); }
    }
  }

  lemma CoversOne(y: Interval, x: int)
    ensures Covers([y], x) <==> Holds(y, x)
  {
    if Holds(y, x) { assert Holds([y][0], x); }
  }

  /** What the loop leaves in place of entry `x` and the already processed entries behind it. */
  function NewTail(x: Interval, tail: seq<Interval>, start: int, end: int, fd: int): seq<Interval> {
    if !Hits(x, start, end) then [x] + tail
    else if Inside(x, start, end) then Rotate(tail)
    else if start == x.start && end < x.end then [x.(start := end)] + tail
    else if end == x.end && start > x.start then [x.(end := start)] + tail
    else [x.(end := start)] + tail + [Interval(end, x.end, fd)]
  }

  function Rotate(tail: seq<Interval>): seq<Interval> {
    if tail == [] then [] else [tail[|tail| - 1]] + tail[..|tail| - 1]
  }

  /** A range that reaches past the right end of an entry, and one that splits the entry of a full map. */
  lemma DeleteMayAbort()
    ensures !Deletable([Interval(0, 10, -1)], 0, 5, 15, 8)
    ensures !Deletable([Interval(0, 10, -1)], 0, 3, 5, 1)
  {
    assert LeftAfter([Interval(0, 10, -1)], 1, 3, 5) == 1;
  }

  /** A range that reaches past the left end of an entry leaves an inverted entry behind. */
  lemma DeleteMayInvert()
    ensures Deletable([Interval(5, 15, -1)], 0, 0, 10, 8)
    ensures NewTail(Interval(5, 15, -1), [], 0, 10, -1) == [Interval(5, 0, -1), Interval(10, 15, -1)]
  {
    assert LeftAfter([Interval(5, 15, -1)], 1, 0, 10) == 1;
  }

  /** Deleting in front of `tail` brings its last entry to the front. */
  lemma SwapOutRotates(s: seq<Interval>, i: nat)
    requires i < |s|
    ensures SwapOut(s, i) == s[..i] + Rotate(s[i + 1..])
  {
    var t := SwapOut(s, i);
    assert t[..i] == s[..i];
    assert t[i..] == Rotate(s[i + 1..]);
    assert t == t[..i] + t[i..];
  }

  lemma UpdateSplits(s: seq<Interval>, i: nat, y: Interval)
    requires i < |s|
    ensures s[i := y] == s[..i] + ([y] + s[i + 1..])
  {
  }

  lemma NewTailCovers(x: Interval, tail: seq<Interval>, start: int, end: int, fd: int, a: int)
    requires start < end && (Splits(x, start, end) ==> end < x.end)
    ensures Covers(NewTail(x, tail, start, end, fd), a) <==> Covers(tail, a) || (Holds(x, a) && !(start <= a < end))
  {
    if !Hits(x, start, end) {
      CoversConcat([x], tail, a);
      CoversOne(x, a);
    } else if Inside(x, start, end) {
      if tail != [] {
        var n := |tail| - 1;
        assert tail == tail[..n] + [tail[n]];
        CoversConcat(tail[..n], [tail[n]], a);
        CoversConcat([tail[n]], tail[..n], a);
      }
    } else {
      var first := if start == x.start && end < x.end then x.(start := end) else x.(end := start);
      CoversConcat([first], tail, a);
      CoversOne(first, a);
      if Splits(x, start, end) {
        CoversConcat([first] + tail, [Interval(end, x.end, fd)], a);
        CoversOne(Interval(end, x.end, fd), a);
      }
    }
  }

  // ---------- interval_map_add ----------

  /** Entries are nonempty and pairwise disjoint. */
  ghost predicate Separate(e: seq<Interval>) {
    && (forall i | 0 <= i < |e| :: e[i].start < e[i].end)
    && (forall i, j | 0 <= i < j < |e| :: !Hits(e[i], e[j].start, e[j].end))
  }

  /** How many entries from index `i` on are hit. */
  function Rank(e: seq<Interval>, i: nat, start: int, end: int): nat
    requires i <= |e|
    decreases |e| - i
  {
    if i == |e| then 0 else Rank(e, i + 1, start, end) + if Hits(e[i], start, end) then 1 else 0
  }

  /** The entries from index `i` on that are not hit, in the same order. */
  function Missed(e: seq<Interval>, i: nat, start: int, end: int): seq<Interval>
    requires i <= |e|
    decreases |e| - i
  {
    if i == |e| then []
    else (if Hits(e[i], start, end) then [] else [e[i]]) + Missed(e, i + 1, start, end)
  }

  function Join(h: (int, int), x: Interval): (int, int) {
    (Min(h.0, x.start), Max(h.1, x.end))
  }

  /** The merged range: the new one joined with the hit entries from index `i` on, except those ranked above `quota`. */
  function Hull(e: seq<Interval>, i: nat, start: int, end: int, quota: int): (int, int)
    requires i <= |e|
    decreases |e| - i
  {
    if i == |e| then (start, end)
    else
      var h := Hull(e, i + 1, start, end, quota);
      if Hits(e[i], start, end) && Rank(e, i, start, end) <= quota then Join(h, e[i]) else h
  }

  /** `j` is the highest index of a hit entry. */
  predicate IsHighest(e: seq<Interval>, j: int, start: int, end: int) {
    0 <= j < |e| && Hits(e[j], start, end) && forall x | j < x < |e| :: !Hits(e[x], start, end)
  }

  /**
   Entry `x` is hit but dropped without being merged: by the time it is processed the merged entry `j` has
   itself been moved away by a swap-deletion.
   */
  predicate Lost(e: seq<Interval>, x: int, j: int, start: int, end: int)
    requires 0 <= x < |e|
  {
    Hits(e[x], start, end) && Rank(e, x, start, end) > |e| - j
  }

  lemma {:induction false} RankMono(e: seq<Interval>, i: nat, k: nat, start: int, end: int)
    requires i <= k <= |e|
    ensures Rank(e, k, start, end) <= Rank(e, i, start, end) <= Rank(e, k, start, end) + (k - i)
    decreases k - i
  {
    if i < k { RankMono(e, i + 1, k, start, end); }
  }

  lemma {:induction false} NoHitsAbove(e: seq<Interval>, i: nat, start: int, end: int)
    requires i <= |e| && forall x | i <= x < |e| :: !Hits(e[x], start, end)
    ensures Rank(e, i, start, end) == 0 && Missed(e, i, start, end) == e[i..]
    decreases |e| - i
  {
    if i < |e| {
      NoHitsAbove(e, i + 1, start, end);
      assert e[i..] == [e[i]] + e[i + 1..];
    }
  }

  lemma {:induction false} RankPositive(e: seq<Interval>, i: nat, x: int, start: int, end: int)
    requires i <= x < |e| && Hits(e[x], start, end)
    ensures Rank(e, i, start, end) > 0
    decreases |e| - i
  {
    if i < x { RankPositive(e, i + 1, x, start, end); }
  }

  /** The merged range holds exactly the new addresses and those of the merged entries. */
  lemma {:induction false} HullExact(e: seq<Interval>, i: nat, start: int, end: int, quota: int, a: int)
    requires i <= |e| && start < end
    ensures var h := Hull(e, i, start, end, quota);
            && h.0 <= start && end <= h.1
            && (h.0 <= a < h.1 <==>
                start <= a < end
                || exists x :: i <= x < |e| && Hits(e[x], start, end) && Rank(e, x, start, end) <= quota && Holds(e[x], a))
    decreases |e| - i
  {
    if i < |e| {
      HullExact(e, i + 1, start, end, quota, a);
    }
  }

  lemma {:induction false} MissedMembers(e: seq<Interval>, i: nat, start: int, end: int, y: Interval)
    requires i <= |e|
    ensures y in Missed(e, i, start, end) <==> exists x :: i <= x < |e| && e[x] == y && !Hits(y, start, end)
    decreases |e| - i
  {
    if i < |e| { MissedMembers(e, i + 1, start, end, y); }
  }

  lemma {:induction false} MissedSeparate(e: seq<Interval>, i: nat, start: int, end: int)
    requires i <= |e| && Separate(e)
    ensures Separate(Missed(e, i, start, end))
    decreases |e| - i
  {
    if i < |e| {
      MissedSeparate(e, i + 1, start, end);
      var rest := Missed(e, i + 1, start, end);
      forall k | 0 <= k < |rest| ensures !Hits(e[i], rest[k].start, rest[k].end) {
        MissedMembers(e, i + 1, start, end, rest[k]);
        var x :| i + 1 <= x < |e| && e[x] == rest[k];
      }
    }
  }

  lemma OneHolder(e: seq<Interval>, x: int, a: int)
    requires Separate(e) && 0 <= x < |e|
    ensures Holds(e[x], a) ==> forall y | 0 <= y < |e| && y != x :: !Holds(e[y], a)
  {
    forall y | 0 <= y < |e| && y != x ensures !(Holds(e[x], a) && Holds(e[y], a)) {
      if y < x { assert !Hits(e[y], e[x].start, e[x].end); } else { assert !Hits(e[x], e[y].start, e[y].end); }
    }
  }

  lemma HullMissesMissed(e: seq<Interval>, start: int, end: int, quota: int, x: int)
    requires Separate(e) && start < end && 0 <= x < |e| && !Hits(e[x], start, end)
    ensures var h := Hull(e, 0, start, end, quota); !Hits(e[x], h.0, h.1)
  {
    var h := Hull(e, 0, start, end, quota);
    var a := Max(h.0, e[x].start);
    HullExact(e, 0, start, end, quota, a);
    OneHolder(e, x, a);
  }

  // Disjointness only depends on the entries, not on their order.

  lemma {:induction false} MultisetPair(s: seq<Interval>, i: nat, j: nat)
    requires i < j < |s| && s[i] == s[j]
    ensures multiset(s)[s[i]] >= 2
  {
    assert s == s[..j] + s[j..];
    assert s[i] in s[..j] && s[j] in s[j..];
    assert multiset(s) == multiset(s[..j]) + multiset(s[j..]);
  }

  lemma {:induction false} SeparateOnce(s: seq<Interval>, v: Interval)
    requires Separate(s)
    ensures multiset(s)[v] <= 1
  {
    if s != [] {
      var n := |s| - 1;
      SeparateOnce(s[..n], v);
      assert s == s[..n] + [s[n]];
      forall i | 0 <= i < n ensures s[i] != s[n] { assert !Hits(s[i], s[n].start, s[n].end); }
    }
  }

  lemma SeparatePermuted(a: seq<Interval>, b: seq<Interval>)
    requires multiset(a) == multiset(b) && Separate(b)
    ensures Separate(a)
  {
    forall i | 0 <= i < |a| ensures a[i] in b { assert a[i] in multiset(a); }
    forall i, j | 0 <= i < j < |a| ensures !Hits(a[i], a[j].start, a[j].end) {
      if a[i] == a[j] {
        MultisetPair(a, i, j);
        SeparateOnce(b, a[i]);
        assert false;
      }
      var x :| 0 <= x < |b| && b[x] == a[i];
      var y :| 0 <= y < |b| && b[y] == a[j];
    }
  }

  lemma CoversPermuted(a: seq<Interval>, b: seq<Interval>, x: int)
    requires multiset(a) == multiset(b) && Covers(a, x)
    ensures Covers(b, x)
  {
    var i :| 0 <= i < |a| && Holds(a[i], x);
    assert a[i] in multiset(b);
    var k :| 0 <= k < |b| && b[k] == a[i];
    assert Holds(b[k], x);
  }

  /** The outcome of the merge loop, as addresses and as a well-formed map. */
  lemma MergeOutcome(e: seq<Interval>, e': seq<Interval>, j: int, start: int, end: int)
    requires Separate(e) && start < end && IsHighest(e, j, start, end)
    requires var h := Hull(e, 0, start, end, |e| - j);
             multiset(e') == multiset(Missed(e, 0, start, end) + [Interval(h.0, h.1, e[j].fd)])
    ensures Separate(e')
    ensures forall a :: Covers(e', a) <==> start <= a < end || exists x :: 0 <= x < |e| && Holds(e[x], a) && !Lost(e, x, j, start, end)
  {
    var quota := |e| - j;
    var h := Hull(e, 0, start, end, quota);
    var missed := Missed(e, 0, start, end);
    var m := Interval(h.0, h.1, e[j].fd);
    var b := missed + [m];
    MissedSeparate(e, 0, start, end);
    forall k | 0 <= k < |missed| ensures !Hits(missed[k], m.start, m.end) {
      MissedMembers(e, 0, start, end, missed[k]);
      var x :| 0 <= x < |e| && e[x] == missed[k] && !Hits(e[x], start, end);
      HullMissesMissed(e, start, end, quota, x);
    }
    HullExact(e, 0, start, end, quota, start);
    SeparatePermuted(e', b);
    forall a ensures Covers(e', a) <==> start <= a < end || exists x :: 0 <= x < |e| && Holds(e[x], a) && !Lost(e, x, j, start, end) {
      MergedCovers(e, b, j, start, end, a);
      if Covers(e', a) { CoversPermuted(e', b, a); }
      if Covers(b, a) { CoversPermuted(b, e', a); }
    }
  }

  lemma MergedCovers(e: seq<Interval>, b: seq<Interval>, j: int, start: int, end: int, a: int)
    requires start < end && IsHighest(e, j, start, end)
    requires var h := Hull(e, 0, start, end, |e| - j); b == Missed(e, 0, start, end) + [Interval(h.0, h.1, e[j].fd)]
    ensures Covers(b, a) <==> start <= a < end || exists x :: 0 <= x < |e| && Holds(e[x], a) && !Lost(e, x, j, start, end)
  {
    var quota := |e| - j;
    var h := Hull(e, 0, start, end, quota);
    var missed := Missed(e, 0, start, end);
    var m := Interval(h.0, h.1, e[j].fd);
    CoversConcat(missed, [m], a);
    CoversOne(m, a);
    HullExact(e, 0, start, end, quota, a);
    if Covers(missed, a) {
      var k :| 0 <= k < |missed| && Holds(missed[k], a);
      MissedMembers(e, 0, start, end, missed[k]);
      var x :| 0 <= x < |e| && e[x] == missed[k] && !Hits(e[x], start, end);
      assert !Lost(e, x, j, start, end);
    }
    if x :| 0 <= x < |e| && Holds(e[x], a) && !Lost(e, x, j, start, end) {
      if !Hits(e[x], start, end) {
        MissedMembers(e, 0, start, end, e[x]);
        var k :| 0 <= k < |missed| && missed[k] == e[x];
        assert Holds(missed[k], a);
      }
    }
  }

  /** Two ranges with the second one last: adding a range that bridges them drops the first. */
  lemma BridgingAddLosesARange()
    ensures var e := [Interval(0, 10, -1), Interval(20, 30, -1)];
            Separate(e) && LostOnAdd(e, 0, 5, 25) && !Inside(e[0], 5, 25)
  {
    var e := [Interval(0, 10, -1), Interval(20, 30, -1)];
    assert IsHighest(e, 1, 5, 25);
    assert Rank(e, 2, 5, 25) == 0;
    assert Rank(e, 1, 5, 25) == 1;
    assert Rank(e, 0, 5, 25) == 2;
    assert Lost(e, 0, 1, 5, 25);
  }

  // The merge loop, step by step. `start` and `end` are the grown bounds, `start0` and `end0` the given ones.

  /** A grown bound is the bound of an entry already hit. */
  ghost predicate Grown(e: seq<Interval>, i: nat, start0: int, end0: int, start: int, end: int) {
    && (start == start0 || (start < start0 && exists x :: i <= x < |e| && Hits(e[x], start0, end0) && e[x].start == start))
    && (end == end0 || (end0 < end && exists x :: i <= x < |e| && Hits(e[x], start0, end0) && e[x].end == end))
  }

  function MergedEntry(e: seq<Interval>, i: nat, j: nat, start0: int, end0: int): Interval
    requires i <= |e| && j < |e|
  {
    var h := Hull(e, i, start0, end0, |e| - j);
    Interval(h.0, h.1, e[j].fd)
  }

  /** The live entries from an index on: the missed ones in some order, and the merged one. */
  ghost predicate TailIs(tail: seq<Interval>, missed: seq<Interval>, m: Interval) {
    multiset(tail) == multiset(missed) + multiset{m}
  }

  ghost predicate MergeShape(e: seq<Interval>, s: seq<Interval>, i: nat, j: nat, start0: int, end0: int, start: int, end: int) {
    && i <= j < |e| && IsHighest(e, j, start0, end0) && Grown(e, i, start0, end0, start, end)
    && |s| == |e| - Rank(e, i, start0, end0) + 1 && i < |s| && s[..i] == e[..i]
  }

  /** The merged entry `m` sits at index `k` of the tail, if that is a live slot, and contains the grown bounds. */
  ghost predicate MergeTail(tail: seq<Interval>, missed: seq<Interval>, m: Interval, k: nat, start: int, end: int) {
    TailIs(tail, missed, m) && (k < |tail| ==> tail[k] == m && m.start <= start && end <= m.end)
  }

  /** The loop invariant once an entry has been hit. */
  ghost predicate MergeInv(e: seq<Interval>, s: seq<Interval>, i: nat, j: nat, start0: int, end0: int, start: int, end: int) {
    && MergeShape(e, s, i, j, start0, end0, start, end)
    && MergeTail(s[i..], Missed(e, i, start0, end0), MergedEntry(e, i, j, start0, end0), j - i, start, end)
  }

  lemma GrownHits(e: seq<Interval>, i: nat, start0: int, end0: int, start: int, end: int)
    requires Separate(e) && i < |e| && start0 < end0 && Grown(e, i + 1, start0, end0, start, end)
    ensures Hits(e[i], start, end) <==> Hits(e[i], start0, end0)
  {
    forall x | i < x < |e| ensures !Hits(e[i], e[x].start, e[x].end) { }
  }

  lemma GrownStep(e: seq<Interval>, i: nat, start0: int, end0: int, start: int, end: int)
    requires i < |e| && Grown(e, i + 1, start0, end0, start, end) && Hits(e[i], start0, end0)
    ensures Grown(e, i, start0, end0, Min(e[i].start, start), Max(e[i].end, end))
  {
  }

  lemma {:induction false} HullUntouched(e: seq<Interval>, i: nat, start: int, end: int, quota: int)
    requires i <= |e| && forall x | i <= x < |e| :: !Hits(e[x], start, end)
    ensures Hull(e, i, start, end, quota) == (start, end)
    decreases |e| - i
  {
    if i < |e| { HullUntouched(e, i + 1, start, end, quota); }
  }

  lemma TailHit(tail: seq<Interval>, missed: seq<Interval>, m: Interval, k: nat, y: Interval)
    requires TailIs(tail, missed, m)
    ensures TailIs(Rotate(tail), missed, m)
    ensures k < |tail| && Rotate(tail)[k] == m ==> TailIs(Rotate(tail)[k := y], missed, y)
  {
    if tail != [] {
      var n := |tail| - 1;
      assert tail == tail[..n] + [tail[n]];
    }
  }

  lemma MergeFirst(e: seq<Interval>, i: nat, start: int, end: int)
    requires i < |e| && start < end && IsHighest(e, i, start, end)
    ensures MergeInv(e, e[i := Interval(Min(e[i].start, start), Max(e[i].end, end), e[i].fd)], i, i, start, end, start, end)
  {
    hide IsHighest, Hull, TailIs, Grown;
    FirstMerged(e, i, start, end);
    var m := Interval(Min(e[i].start, start), Max(e[i].end, end), e[i].fd);
    var s := e[i := m];
    assert s[i..] == [m] + e[i + 1..];
    assert s[..i] == e[..i];
    FirstTail(e[i + 1..], m);
  }

  lemma FirstMerged(e: seq<Interval>, i: nat, start: int, end: int)
    requires i < |e| && start < end && IsHighest(e, i, start, end)
    ensures MergedEntry(e, i, i, start, end) == Interval(Min(e[i].start, start), Max(e[i].end, end), e[i].fd)
    ensures Missed(e, i, start, end) == e[i + 1..] && Rank(e, i, start, end) == 1 && Grown(e, i, start, end, start, end)
  {
    NoHitsAbove(e, i + 1, start, end);
    HullUntouched(e, i + 1, start, end, |e| - i);
  }

  lemma FirstTail(rest: seq<Interval>, m: Interval)
    ensures TailIs([m] + rest, rest, m)
  {
  }

  lemma MergeSkip(e: seq<Interval>, s: seq<Interval>, i: nat, j: nat, start0: int, end0: int, start: int, end: int)
    requires MergeInv(e, s, i + 1, j, start0, end0, start, end) && !Hits(e[i], start0, end0)
    ensures MergeInv(e, s, i, j, start0, end0, start, end)
  {
    hide Grown, IsHighest, TailIs, MergedEntry, Rank, Missed, Hits;
    GrownSkip(e, i, start0, end0, start, end);
    MergedSkip(e, i, j, start0, end0);
    assert s[..i] == s[..i + 1][..i] && e[..i] == e[..i + 1][..i];
    assert s[i] == s[..i + 1][i] == e[..i + 1][i] == e[i];
    assert s[i..] == [e[i]] + s[i + 1..];
    TailGrows(s[i + 1..], Missed(e, i + 1, start0, end0), MergedEntry(e, i + 1, j, start0, end0), e[i]);
  }

  lemma TailGrows(tail: seq<Interval>, missed: seq<Interval>, m: Interval, x: Interval)
    requires TailIs(tail, missed, m)
    ensures TailIs([x] + tail, [x] + missed, m)
  {
  }

  lemma GrownSkip(e: seq<Interval>, i: nat, start0: int, end0: int, start: int, end: int)
    requires i < |e| && Grown(e, i + 1, start0, end0, start, end)
    ensures Grown(e, i, start0, end0, start, end)
  {
  }

  lemma MergedSkip(e: seq<Interval>, i: nat, j: nat, start0: int, end0: int)
    requires i < j < |e| && !Hits(e[i], start0, end0)
    ensures MergedEntry(e, i, j, start0, end0) == MergedEntry(e, i + 1, j, start0, end0)
    ensures Missed(e, i, start0, end0) == [e[i]] + Missed(e, i + 1, start0, end0)
    ensures Rank(e, i, start0, end0) == Rank(e, i + 1, start0, end0)
  {
  }

  /** A further hit: after the entry is swapped out slot `j` is widened, if it is still a live slot. */
  function Widened(s: seq<Interval>, j: nat, start: int, end: int): seq<Interval> {
    if j < |s| then s[j := s[j].(start := Min(s[j].start, start), end := Max(s[j].end, end))] else s
  }

  lemma MergedStep(e: seq<Interval>, i: nat, j: nat, start0: int, end0: int)
    requires i < j < |e| && Hits(e[i], start0, end0)
    ensures var m := MergedEntry(e, i + 1, j, start0, end0);
            MergedEntry(e, i, j, start0, end0) == if Rank(e, i + 1, start0, end0) < |e| - j then Widen(m, e[i]) else m
    ensures Missed(e, i, start0, end0) == Missed(e, i + 1, start0, end0)
  {
  }

  lemma HitShape(e: seq<Interval>, s: seq<Interval>, i: nat, j: nat, start0: int, end0: int, start: int, end: int)
    requires MergeShape(e, s, i + 1, j, start0, end0, start, end) && Hits(e[i], start0, end0)
    ensures i + 1 < |s|
    ensures var start', end' := Min(e[i].start, start), Max(e[i].end, end);
            var s' := Widened(SwapOut(s, i), j, start', end');
            && MergeShape(e, s', i, j, start0, end0, start', end')
            && s'[i..] == Widened(Rotate(s[i + 1..]), j - i, start', end')
  {
    RankMono(e, i + 1, |e|, start0, end0);
    SwapOutRotates(s, i);
    assert s[..i] == s[..i + 1][..i] && e[..i] == e[..i + 1][..i];
    GrownStep(e, i, start0, end0, start, end);
    var s' := Widened(SwapOut(s, i), j, Min(e[i].start, start), Max(e[i].end, end));
    assert s'[..i] == s[..i];
    assert s'[i..] == Widened(Rotate(s[i + 1..]), j - i, Min(e[i].start, start), Max(e[i].end, end));
  }

  /** The rotated tail with its merged entry widened by a further entry `x`, when that is still a live slot. */
  lemma HitTail(tail: seq<Interval>, missed: seq<Interval>, m: Interval, k: nat, start: int, end: int, x: Interval)
    requires MergeTail(tail, missed, m, k, start, end)
    ensures var start', end' := Min(x.start, start), Max(x.end, end);
            var m' := if k + 1 < |tail| then Widen(m, x) else m;
            MergeTail(Widened(Rotate(tail), k + 1, start', end'), missed, m', k + 1, start', end')
  {
    hide TailIs, Rotate;
    TailHit(tail, missed, m, k + 1, Widen(m, x));
    RotateAt(tail, k);
  }

  lemma RotateAt(tail: seq<Interval>, k: nat)
    ensures |Rotate(tail)| == if tail == [] then 0 else |tail|
    ensures k + 1 < |tail| && k + 1 < |Rotate(tail)| ==> Rotate(tail)[k + 1] == tail[k]
  {
  }

  function Widen(m: Interval, x: Interval): Interval {
    m.(start := Min(m.start, x.start), end := Max(m.end, x.end))
  }

  lemma MergeBounds(e: seq<Interval>, s: seq<Interval>, i: nat, j: nat, start0: int, end0: int, start: int, end: int)
    requires MergeShape(e, s, i, j, start0, end0, start, end)
    ensures i <= j < |e| && i < |s| == |e| - Rank(e, i, start0, end0) + 1
  {
  }

  /** The entry to be looked at next is still the original one. */
  lemma MergeNext(e: seq<Interval>, s: seq<Interval>, i: nat, j: nat, start0: int, end0: int, start: int, end: int)
    requires MergeInv(e, s, i + 1, j, start0, end0, start, end)
    ensures i < |s| && i < |e| && s[i] == e[i] && Grown(e, i + 1, start0, end0, start, end)
  {
    hide MergeTail, Grown, IsHighest;
    assert s[..i + 1][i] == e[..i + 1][i];
  }

  lemma MergeHit(e: seq<Interval>, s: seq<Interval>, i: nat, j: nat, start0: int, end0: int, start: int, end: int)
    requires MergeInv(e, s, i + 1, j, start0, end0, start, end) && Hits(e[i], start0, end0)
    ensures i + 1 < |s|
    ensures var start', end' := Min(e[i].start, start), Max(e[i].end, end);
            MergeInv(e, Widened(SwapOut(s, i), j, start', end'), i, j, start0, end0, start', end')
  {
    hide MergeShape, MergeTail, Missed, Rank, SwapOut, MergedEntry, Rotate, Widened, Hits;
    MergeBounds(e, s, i + 1, j, start0, end0, start, end);
    var tail, m := s[i + 1..], MergedEntry(e, i + 1, j, start0, end0);
    HitShape(e, s, i, j, start0, end0, start, end);
    HitTail(tail, Missed(e, i + 1, start0, end0), m, j - i - 1, start, end, e[i]);
    MergedStep(e, i, j, start0, end0);
  }

  /** `x` is lost when the range is added to `e`. */
  ghost predicate LostOnAdd(e: seq<Interval>, x: int, start: int, end: int)
    requires 0 <= x < |e|
  {
    exists j :: IsHighest(e, j, start, end) && Lost(e, x, j, start, end)
  }

  /** The addresses after an addition: the new ones and those of every entry that is not lost. */
  ghost predicate AddedTo(e: seq<Interval>, e': seq<Interval>, start: int, end: int) {
    forall a :: Covers(e', a) <==> start <= a < end || exists x :: 0 <= x < |e| && Holds(e[x], a) && !LostOnAdd(e, x, start, end)
  }

  /** Exactly when an addition yields the union: no lost entry reaches outside the new range. */
  lemma UnionIff(e: seq<Interval>, e': seq<Interval>, start: int, end: int)
    requires Separate(e) && start < end && AddedTo(e, e', start, end)
    ensures (forall a :: Covers(e', a) <==> start <= a < end || Covers(e, a)) <==>
            forall x | 0 <= x < |e| && LostOnAdd(e, x, start, end) :: Inside(e[x], start, end)
  {
    if x :| 0 <= x < |e| && LostOnAdd(e, x, start, end) && !Inside(e[x], start, end) {
      var a := if e[x].start < start then e[x].start else e[x].end - 1;
      assert Holds(e[x], a) && Covers(e, a);
      OneHolder(e, x, a);
      assert !Covers(e', a);
    } else {
      forall a ensures Covers(e', a) <==> start <= a < end || Covers(e, a) {
        if Covers(e, a) {
          var x :| 0 <= x < |e| && Holds(e[x], a);
          assert LostOnAdd(e, x, start, end) ==> Inside(e[x], start, end);
        }
      }
    }
  }

  /** With `k` hit entries, the highest at index `j`, nothing is lost exactly when `k + j <= entry_count`. */
  lemma NothingLostIff(e: seq<Interval>, j: int, start: int, end: int)
    requires IsHighest(e, j, start, end)
    ensures (forall x | 0 <= x < |e| :: !LostOnAdd(e, x, start, end)) <==> Rank(e, 0, start, end) + j <= |e|
  {
    assert forall j' | IsHighest(e, j', start, end) :: j' == j;
    if Rank(e, 0, start, end) + j <= |e| {
      forall x | 0 <= x < |e| ensures !LostOnAdd(e, x, start, end) { RankMono(e, 0, x, start, end); }
    } else {
      var x := LowestHit(e, 0, start, end);
      assert Lost(e, x, j, start, end);
      assert LostOnAdd(e, x, start, end);
    }
  }

  /** The last hit entry the loop reaches has the full rank. */
  lemma {:induction false} LowestHit(e: seq<Interval>, i: nat, start: int, end: int) returns (x: nat)
    requires i <= |e| && Rank(e, i, start, end) > 0
    ensures i <= x < |e| && Hits(e[x], start, end) && Rank(e, x, start, end) == Rank(e, i, start, end)
    decreases |e| - i
  {
    if Hits(e[i], start, end) { x := i; } else { x := LowestHit(e, i + 1, start, end); }
  }

  /** The assertions met by an addition: room for a new entry, or no descriptors among the merged ranges. */
  ghost predicate Addable(e: seq<Interval>, start: int, end: int, fd: int, memSize: nat) {
    if forall x | 0 <= x < |e| :: !Hits(e[x], start, end) then |e| < memSize
    else forall x | 0 <= x < |e| && Hits(e[x], start, end) :: fd < 0 && e[x].fd < 0
  }

  lemma AppendOutcome(e: seq<Interval>, y: Interval)
    requires Separate(e) && y.start < y.end && forall x | 0 <= x < |e| :: !Hits(e[x], y.start, y.end)
    ensures Separate(e + [y]) && AddedTo(e, e + [y], y.start, y.end)
  {
    forall a ensures Covers(e + [y], a) <==> Holds(y, a) || Covers(e, a) {
      CoversConcat(e, [y], a);
      CoversOne(y, a);
    }
    assert forall x | 0 <= x < |e| :: !LostOnAdd(e, x, y.start, y.end);
  }

  lemma MergeEnd(e: seq<Interval>, s: seq<Interval>, j: nat, start0: int, end0: int, start: int, end: int)
    requires Separate(e) && start0 < end0 && MergeInv(e, s, 0, j, start0, end0, start, end)
    ensures Separate(s) && AddedTo(e, s, start0, end0) && j < |e| && Hits(e[j], start0, end0)
  {
    assert s[0..] == s;
    MergeOutcome(e, s, j, start0, end0);
    forall x | 0 <= x < |e| ensures LostOnAdd(e, x, start0, end0) == Lost(e, x, j, start0, end0) {
      forall j' | IsHighest(e, j', start0, end0) ensures j' == j { }
    }
  }

  // ---------- The map ----------

  class Map {
    const memSize: nat
    var entries: seq<Interval>
    ghost var open: multiset<int>

    ghost predicate Valid()
      reads this
    {
      |entries| <= memSize && FdsMatch(open, entries)
    }

    /** `interval_map_init`. */
    constructor (size: nat)
      requires size > 0
      ensures Valid() && entries == [] && memSize == size
    {
      memSize, entries, open := size, [], multiset{};
    }

    /** `dup`: some descriptor, counted as open from now on. */
    method Dup(fd: int) returns (d: int)
      modifies this`open
      ensures d >= 0 && open == old(open) + multiset{d}
    {
      d :| d >= 0;
      open := open + multiset{d};
    }

    /** `interval_map_delete_entry`. */
    method DeleteEntry(index: int) returns (ret: int)
      requires Valid()
      modifies this
      ensures Valid()
      ensures ret == if 0 <= index < old(|entries|) then 0 else -1
      ensures entries == if ret == 0 then SwapOut(old(entries), index) else old(entries)
    {
      if index < 0 || index >= |entries| { return -1; }
      FdsSwapOut(open, entries, index);
      open := open - FdOf(entries[index]);
      if |entries| >= 2 {
        entries := entries[index := entries[|entries| - 1]];
      }
      entries := entries[..|entries| - 1];
      ret := 0;
    }

    /** `interval_map_add_entry`; `fd` has been duplicated by the caller. */
    method AddEntry(start: int, end: int, fd: int) returns (ret: int)
      requires |entries| <= memSize && exists before :: FdsMatch(before, entries) && open == before + FdOf(Interval(start, end, fd))
      modifies this`entries
      ensures ret == if old(|entries|) >= memSize || start >= end then -1 else 0
      ensures ret == 0 ==> Valid() && entries == old(entries) + [Interval(start, end, fd)]
      ensures ret != 0 ==> entries == old(entries)
    {
      if |entries| >= memSize || start >= end { return -1; }
      ghost var before :| FdsMatch(before, entries) && open == before + FdOf(Interval(start, end, fd));
      FdsAppend(before, entries, Interval(start, end, fd));
      entries := entries + [Interval(start, end, fd)];
      ret := 0;
    }

    /** `interval_map_search_by_addr`. */
    method SearchByAddr(addr: int) returns (found: bool, entry: Interval)
      ensures found <==> Covers(entries, addr)
      ensures found ==> entry in entries && Holds(entry, addr)
    {
      found, entry := false, Interval(0, 0, -1);
      var i := |entries| - 1;
      while i >= 0 && !found
        invariant -1 <= i < |entries|
        invariant !found ==> forall k | i < k < |entries| :: !Holds(entries[k], addr)
        invariant found ==> entry in entries && Holds(entry, addr)
      {
        if addr >= entries[i].start && addr < entries[i].end {
          entry, found := entries[i], true;
        }
        i := i - 1;
      }
    }

    /** The last `else` of `interval_map_delete`: shorten entry `i` and append its right part. */
    method Split(i: nat, start: int, end: int) returns (ok: bool, fd: int)
      requires Valid() && i < |entries|
      modifies this
      ensures ok <==> end < old(entries)[i].end && old(|entries|) < memSize
      ensures ok ==> Valid() && entries == old(entries)[i := old(entries)[i].(end := start)] + [Interval(end, old(entries)[i].end, fd)]
    {
      var tmp := entries[i].end;
      FdsUpdate(open, entries, i, entries[i].(end := start));
      entries := entries[i := entries[i].(end := start)];
      fd := entries[i].fd;
      ghost var before := open;
      if fd >= 0 { fd := Dup(fd); }
      assert open == before + FdOf(Interval(end, tmp, fd));
      var r := AddEntry(end, tmp, fd);
      ok := r == 0;
    }

    /** The body of the loop in `interval_map_delete`, for entry `i`. */
    method DeleteStep(i: nat, start: int, end: int) returns (ok: bool, ghost fd: int)
      requires Valid() && i < |entries|
      modifies this
      ensures var x := old(entries)[i];
              ok <==> (Splits(x, start, end) ==> end < x.end && old(|entries|) < memSize)
      ensures ok ==> Valid() && entries == old(entries)[..i] + NewTail(old(entries)[i], old(entries)[i + 1..], start, end, fd)
    {
      var x := entries[i];
      ok, fd := true, x.fd;
      UpdateSplits(entries, i, x);
      if start < x.end && end > x.start {
        if start <= x.start && end >= x.end {
          SwapOutRotates(entries, i);
          var r := DeleteEntry(i);
        } else if start == x.start && end < x.end {
          FdsUpdate(open, entries, i, x.(start := end));
          UpdateSplits(entries, i, x.(start := end));
          entries := entries[i := x.(start := end)];
        } else if end == x.end && start > x.start {
          FdsUpdate(open, entries, i, x.(end := start));
          UpdateSplits(entries, i, x.(end := start));
          entries := entries[i := x.(end := start)];
        } else {
          UpdateSplits(entries, i, x.(end := start));
          ghost var left, right := entries[..i], [x.(end := start)] + entries[i + 1..];
          ok, fd := Split(i, start, end);
          assert (left + right) + [Interval(end, x.end, fd)] == left + (right + [Interval(end, x.end, fd)]);
        }
      }
    }

    /**
     `interval_map_delete`. A failing assertion ends the process, here `ok == false`; that happens exactly when
     an entry is straddled past its right end or there is no room for the right part of a split entry.
     */
    method Delete(start: int, end: int) returns (ok: bool, status: int)
      requires Valid()
      modifies this
      ensures start >= end ==> ok && status == -1 && entries == old(entries) && Valid()
      ensures start < end ==> (ok <==> forall p | 0 <= p < old(|entries|) :: Deletable(old(entries), p, start, end, memSize))
      ensures start < end && ok ==>
        && Valid() && status == Rank(old(entries), 0, start, end)
        && forall a :: Covers(entries, a) <==> Covers(old(entries), a) && !(start <= a < end)
    {
      if start >= end { return true, -1; }
      ok, status := true, 0;
      ghost var e := entries;
      ghost var tail: seq<Interval> := [];
      assert e[|e|..] == [];
      var i := |entries| - 1;
      while i >= 0
        invariant -1 <= i < |e| && ok && Valid()
        invariant entries == e[..i + 1] + tail && |entries| == LeftAfter(e, i + 1, start, end)
        invariant status == Rank(e, i + 1, start, end)
        invariant forall a :: Covers(tail, a) <==> Covers(e[i + 1..], a) && !(start <= a < end)
        invariant forall p | i < p < |e| :: Deletable(e, p, start, end, memSize)
      {
        if start < entries[i].end && end > entries[i].start { status := status + 1; }
        assert entries[..i] == e[..i] && entries[i + 1..] == tail;
        var stepOk, fd := DeleteStep(i, start, end);
        if !stepOk {
          assert !Deletable(e, i, start, end, memSize);
          return false, status;
        }
        forall a ensures Covers(NewTail(e[i], tail, start, end, fd), a) <==> Covers(e[i..], a) && !(start <= a < end) {
          NewTailCovers(e[i], tail, start, end, fd, a);
          assert e[i..] == [e[i]] + e[i + 1..];
          CoversConcat([e[i]], e[i + 1..], a);
          CoversOne(e[i], a);
        }
        tail := NewTail(e[i], tail, start, end, fd);
        i := i - 1;
      }
      assert e[0..] == e && entries == tail;
    }

    /**
     `interval_map_add`. `ok == false` stands for a failed assertion: a descriptor on an overlapping range, or a
     full map. Overlapped entries are merged into the one with the highest index, except those lost to a
     swap-deletion that moves the merged entry itself.
     */
    method Add(start: int, end: int, fd: int) returns (ok: bool, ret: int)
      requires Valid() && Separate(entries)
      modifies this
      ensures start >= end ==> ok && ret == -1 && entries == old(entries) && Valid()
      ensures start < end ==> (ok <==> Addable(old(entries), start, end, fd, memSize))
      ensures start < end && ok ==> ret == 0 && Valid() && Separate(entries) && AddedTo(old(entries), entries, start, end)
    {
      if start >= end { return true, -1; }
      ret := 0;
      var newFd := fd;
      ghost var before := open;
      if fd >= 0 { newFd := Dup(fd); }
      ghost var e := entries;
      var overlapInd;
      ok, overlapInd := Merge(start, end, newFd);
      if ok && overlapInd == -1 {
        assert open == before + FdOf(Interval(start, end, newFd));
        var r := AddEntry(start, end, newFd);
        ok := r == 0;
        AppendOutcome(e, Interval(start, end, newFd));
      }
    }

    /** Drops a further hit entry; the store to slot `j` is dead once fewer than `j + 1` entries are left. */
    method Absorb(i: nat, j: nat, start: int, end: int)
      requires Valid() && i < |entries|
      modifies this
      ensures Valid() && entries == Widened(SwapOut(old(entries), i), j, start, end)
    {
      var r := DeleteEntry(i);
      if j < |entries| {
        var y := entries[j].(start := Min(entries[j].start, start), end := Max(entries[j].end, end));
        FdsUpdate(open, entries, j, y);
        entries := entries[j := y];
      }
    }

    /** One iteration of the loop in `interval_map_add` for entry `i`, with `overlap_ind == j`. */
    method MergeStep(i: nat, j: int, start: int, end: int, fd: int, ghost e: seq<Interval>, ghost start0: int, ghost end0: int)
      returns (ok: bool, j': int, start': int, end': int)
      requires i < |e| && i < |entries| && entries[i] == e[i] && (fd < 0 ==> Valid()) && start0 < end0
      requires Hits(e[i], start, end) <==> Hits(e[i], start0, end0)
      requires j == -1 ==> entries == e && start == start0 && end == end0 && forall x | i < x < |e| :: !Hits(e[x], start0, end0)
      requires j != -1 ==> j > i && fd < 0 && MergeInv(e, entries, i + 1, j, start0, end0, start, end)
      modifies this
      ensures ok <==> (Hits(e[i], start0, end0) ==> fd < 0 && e[i].fd < 0)
      ensures ok ==> |entries| <= old(|entries|) && (fd < 0 ==> Valid())
      ensures ok && j' == -1 ==> entries == e && open == old(open) && start' == start && end' == end && !Hits(e[i], start0, end0) && j == -1
      ensures ok && j' != -1 ==> j' >= i && fd < 0 && MergeInv(e, entries, i, j', start0, end0, start', end')
    {
      ok, j', start', end' := true, j, start, end;
      var x := entries[i];
      if start < x.end && end > x.start {
        if !(fd < 0 && x.fd < 0) { ok := false; return; }
        if j == -1 {
          j' := i;
          MergeFirst(e, i, start, end);
          var y := x.(start := Min(x.start, start), end := Max(x.end, end));
          FdsUpdate(open, entries, i, y);
          entries := entries[i := y];
        } else {
          MergeHit(e, entries, i, j, start0, end0, start, end);
          start', end' := Min(x.start, start), Max(x.end, end);
          Absorb(i, j, start', end');
        }
      } else if j != -1 {
        MergeSkip(e, entries, i, j, start0, end0, start, end);
      }
    }

    /** The loop of `interval_map_add`; `overlapInd` is -1 when nothing is hit, and nothing changes then. */
    method Merge(start0: int, end0: int, fd: int) returns (ok: bool, overlapInd: int)
      requires |entries| <= memSize && Separate(entries) && start0 < end0 && (fd < 0 ==> Valid())
      modifies this
      ensures ok <==> forall x | 0 <= x < old(|entries|) && Hits(old(entries)[x], start0, end0) :: fd < 0 && old(entries)[x].fd < 0
      ensures ok ==> (overlapInd == -1 <==> forall x | 0 <= x < old(|entries|) :: !Hits(old(entries)[x], start0, end0))
      ensures ok && overlapInd == -1 ==> entries == old(entries) && open == old(open)
      ensures ok && overlapInd != -1 ==> Valid() && Separate(entries) && AddedTo(old(entries), entries, start0, end0)
    {
      hide MergeInv, AddedTo, Hits;
      ghost var e := entries;
      ok, overlapInd := true, -1;
      var start, end := start0, end0;
      var i := |entries| - 1;
      while i >= 0
        invariant -1 <= i < |e| && |entries| <= memSize && ok && (fd < 0 ==> Valid())
        invariant overlapInd == -1 ==>
          entries == e && open == old(open) && start == start0 && end == end0 && forall x | i < x < |e| :: !Hits(e[x], start0, end0)
        invariant overlapInd != -1 ==> overlapInd > i && fd < 0 && MergeInv(e, entries, i + 1, overlapInd, start0, end0, start, end)
        invariant forall x | i < x < |e| && Hits(e[x], start0, end0) :: fd < 0 && e[x].fd < 0
      {
        if overlapInd != -1 { MergeNext(e, entries, i, overlapInd, start0, end0, start, end); }
        GrownHits(e, i, start0, end0, start, end);
        ok, overlapInd, start, end := MergeStep(i, overlapInd, start, end, fd, e, start0, end0);
        if !ok { return; }
        i := i - 1;
      }
      if overlapInd != -1 { MergeEnd(e, entries, overlapInd, start0, end0, start, end); }
    }
  }
}
