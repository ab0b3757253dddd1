/**
 The plugin API's hash table (`api/hash_table.c`): open addressing with wrap-around linear probing and
 resizing by doubling. Key 0 marks an empty slot. Sizes are powers of two, so `x & (size - 1)` is `x % size`.
 */
module PluginTable {
  import opened Arith

  datatype Entry = Entry(key: nat, value: nat)

  const Empty := Entry(0, 0)

  // ---------- Probe sequences ----------

  /** The slot `d` places after `h`, wrapping around. */
  function At(h: nat, d: nat, n: nat): (r: nat)
    requires h < n && d < n
    ensures r < n
  {
    if h + d < n then h + d else h + d - n
  }

  /** `key >> shift`. */
  function Shr(key: nat, shift: nat): nat {
    if shift == 0 then key else Shr(key / 2, shift - 1)
  }

  /** `x & (n - 1)` for a power of two `n`: the remainder. */
  function Wrap(x: nat, n: nat): (r: nat)
    requires n > 0
    ensures r < n
  {
    if x < n then x else Wrap(x - n, n)
  }

  /** `(key >> index_shift) & index_max`. */
  function Home(key: nat, shift: nat, n: nat): (r: nat)
    requires n > 0
    ensures r < n
  {
    Wrap(Shr(key, shift), n)
  }

  lemma {:induction false} WrapIsMod(x: nat, n: nat)
    requires n > 0
    ensures Wrap(x, n) == x % n
  {
    if x < n {
      SmallMod(x, n);
    } else {
      WrapIsMod(x - n, n);
      var q := (x - n) / n;
      Distribute(q, 1, n);
      DivModUnique(x, n, q + 1, (x - n) % n);
    }
  }

  lemma {:induction false} ShrIsDiv(key: nat, shift: nat)
    ensures Shr(key, shift) == key / Pow2(shift)
  {
    if shift > 0 {
      ShrIsDiv(key / 2, shift - 1);
      DivTwice(key, Pow2(shift - 1));
    }
  }

  /** The home slot in closed form. */
  lemma HomeIsMasked(key: nat, shift: nat, n: nat)
    requires n > 0
    ensures Home(key, shift, n) == key / Pow2(shift) % n
  {
    ShrIsDiv(key, shift);
    WrapIsMod(Shr(key, shift), n);
  }

  lemma WrapStep(h: nat, d: nat, n: nat)
    requires h < n && d + 1 < n
    ensures (At(h, d, n) + 1) % n == At(h, d + 1, n)
  {
    var i := At(h, d, n);
    if i + 1 == n {
      DivModUnique(i + 1, n, 1, 0);
    } else {
      SmallMod(i + 1, n);
    }
  }

  /** The first `d` slots of the probe sequence from `h` are taken. */
  predicate Occupied(e: seq<Entry>, h: nat, d: nat)
    requires h < |e| && d <= |e|
  {
    forall k | 0 <= k < d :: e[At(h, k, |e|)].key != 0
  }

  /** How far slot `i` lies after `h` in probe order. */
  function Dist(h: nat, i: nat, n: nat): (r: nat)
    requires h < n && i < n
    ensures r < n && At(h, r, n) == i
  {
    if i >= h then i - h else i - h + n
  }

  /** `key` sits in slot `i` with `value`, and probing from its home slot gets there. */
  predicate Stored(e: seq<Entry>, shift: nat, key: nat, value: nat, i: nat) {
    i < |e| && e[i] == Entry(key, value) && Occupied(e, Home(key, shift, |e|), Dist(Home(key, shift, |e|), i, |e|))
  }

  /** The slots hold exactly the bindings of `m`; `pos` gives the slot of each key. */
  ghost predicate Represents(e: seq<Entry>, shift: nat, m: map<nat, nat>, pos: map<nat, nat>) {
    && (forall k | k in m :: k != 0 && k in pos && Stored(e, shift, k, m[k], pos[k]))
    && (forall i | 0 <= i < |e| && e[i].key != 0 :: e[i].key in m && pos[e[i].key] == i)
  }

  /** Where probing for `key` from `h` stops: `d` taken slots with other keys, then a free slot or the key. */
  predicate StopsAt(e: seq<Entry>, h: nat, key: nat, d: nat)
    requires h < |e| && d < |e|
  {
    && (forall k | 0 <= k < d :: e[At(h, k, |e|)].key != 0 && e[At(h, k, |e|)].key != key)
    && (e[At(h, d, |e|)].key == 0 || e[At(h, d, |e|)].key == key)
  }

  /** A probe that stops on the key finds its value; one that stops on a free slot proves the key absent. */
  lemma ProbeFinds(e: seq<Entry>, shift: nat, m: map<nat, nat>, pos: map<nat, nat>, key: nat, d: nat)
    requires Represents(e, shift, m, pos) && key != 0 && d < |e| && StopsAt(e, Home(key, shift, |e|), key, d)
    ensures var slot := e[At(Home(key, shift, |e|), d, |e|)];
            (slot.key == key) == (key in m) && (key in m ==> slot.value == m[key])
  {
    if key in m {
      var p := Dist(Home(key, shift, |e|), pos[key], |e|);
      assert e[At(Home(key, shift, |e|), p, |e|)].key == key;
      assert p == d;
    }
  }

  /** Storing at the stopping slot updates the represented map. */
  lemma StoreRepresents(e: seq<Entry>, shift: nat, m: map<nat, nat>, pos: map<nat, nat>, key: nat, value: nat, d: nat)
    requires Represents(e, shift, m, pos) && key != 0 && d < |e| && StopsAt(e, Home(key, shift, |e|), key, d)
    ensures var r := At(Home(key, shift, |e|), d, |e|);
            Represents(e[r := Entry(key, value)], shift, m[key := value], pos[key := r])
  {
    var h, n := Home(key, shift, |e|), |e|;
    var r := At(h, d, n);
    var e' := e[r := Entry(key, value)];
    ProbeFinds(e, shift, m, pos, key, d);
    assert Dist(h, r, n) == d;
    forall k | k in m && k != key ensures Stored(e', shift, k, m[k], pos[k]) {
      assert Stored(e, shift, k, m[k], pos[k]);
    }
  }

  // ---------- There is always a free slot ----------

  lemma {:induction false} SubsetSize<T>(a: set<T>, b: set<T>)
    requires a <= b
    ensures |a| <= |b|
    decreases |a|
  {
    if a != {} {
      var x :| x in a;
      SubsetSize(a - {x}, b - {x});
    }
  }

  /** Keys of the first `n` slots. */
  function KeysOf(e: seq<Entry>, n: nat): set<nat>
    requires n <= |e|
  {
    if n == 0 then {} else KeysOf(e, n - 1) + {e[n - 1].key}
  }

  lemma {:induction false} FullTable(e: seq<Entry>, shift: nat, m: map<nat, nat>, pos: map<nat, nat>, n: nat)
    requires Represents(e, shift, m, pos) && n <= |e| && forall i | 0 <= i < |e| :: e[i].key != 0
    ensures |KeysOf(e, n)| == n && KeysOf(e, n) <= m.Keys
    ensures forall k | k in KeysOf(e, n) :: pos[k] < n
  {
    if n > 0 { FullTable(e, shift, m, pos, n - 1); }
  }

  /** Probing ends: with fewer keys than slots some slot of every probe sequence is free. */
  lemma ProbeEnds(e: seq<Entry>, shift: nat, m: map<nat, nat>, pos: map<nat, nat>, h: nat) returns (d: nat)
    requires Represents(e, shift, m, pos) && |m| < |e| && h < |e|
    ensures d < |e| && e[At(h, d, |e|)].key == 0
  {
    if forall i | 0 <= i < |e| :: e[i].key != 0 {
      FullTable(e, shift, m, pos, |e|);
      SubsetSize(KeysOf(e, |e|), m.Keys);
      assert false;
    }
    var z :| 0 <= z < |e| && e[z].key == 0;
    d := Dist(h, z, |e|);
  }

  // ---------- The entries re-added so far by a resize ----------

  /** The bindings stored in the first `i` slots. */
  ghost function Prefix(m: map<nat, nat>, pos: map<nat, nat>, i: nat): (r: map<nat, nat>)
    requires forall k | k in m :: k in pos
    ensures forall k | k in r :: k in m
  {
    map k | k in m && pos[k] < i :: m[k]
  }

  lemma PrefixStep(e: seq<Entry>, shift: nat, m: map<nat, nat>, pos: map<nat, nat>, i: nat)
    requires Represents(e, shift, m, pos) && i < |e|
    ensures e[i].key == 0 ==> Prefix(m, pos, i + 1) == Prefix(m, pos, i)
    ensures e[i].key != 0 ==>
            Prefix(m, pos, i + 1) == Prefix(m, pos, i)[e[i].key := e[i].value] && |Prefix(m, pos, i)| < |m|
  {
    forall k | k in m && pos[k] == i ensures e[i].key == k { assert Stored(e, shift, k, m[k], pos[k]); }
    var k := e[i].key;
    if k != 0 {
      assert Stored(e, shift, k, m[k], pos[k]);
      SubsetSize(Prefix(m, pos, i).Keys, m.Keys - {k});
    }
  }

  lemma PrefixAll(e: seq<Entry>, shift: nat, m: map<nat, nat>, pos: map<nat, nat>)
    requires Represents(e, shift, m, pos)
    ensures Prefix(m, pos, |e|) == m
  {
    forall k | k in m ensures pos[k] < |e| { assert Stored(e, shift, k, m[k], pos[k]); }
  }

  /** The loop shared by lookup and insertion; `end` is a free slot of the probe sequence. */
  method Probe(e: seq<Entry>, key: nat, h: nat, ghost end: nat) returns (index: nat, ghost d: nat)
    requires h < |e| && end < |e| && e[At(h, end, |e|)].key == 0
    ensures d <= end && index == At(h, d, |e|) && StopsAt(e, h, key, d)
  {
    d := 0;
    index := h;
    while e[index].key != 0 && e[index].key != key
      invariant d <= end && index == At(h, d, |e|)
      invariant forall k | 0 <= k < d :: e[At(h, k, |e|)].key != 0 && e[At(h, k, |e|)].key != key
      decreases end - d
    {
      WrapStep(h, d, |e|);
      index := (index + 1) % |e|;
      d := d + 1;
    }
  }

  method Store(e: seq<Entry>, shift: nat, key: nat, value: nat, ghost m: map<nat, nat>, ghost pos: map<nat, nat>)
    returns (e': seq<Entry>, isNew: bool, ghost pos': map<nat, nat>)
    requires Represents(e, shift, m, pos) && |m| < |e| && key != 0
    ensures |e'| == |e| && Represents(e', shift, m[key := value], pos')
    ensures isNew == (key !in m)
  {
    var h := Home(key, shift, |e|);
    ghost var end := ProbeEnds(e, shift, m, pos, h);
    var index, d := Probe(e, key, h, end);
    ProbeFinds(e, shift, m, pos, key, d);
    StoreRepresents(e, shift, m, pos, key, value, d);
    isNew := e[index].key == 0;
    e' := e[index := Entry(key, value)];
    pos' := pos[key := index];
  }

  // ---------- The table ----------

  /** `size * fill_factor / 100`: below the size for every accepted fill factor. */
  function Threshold(size: nat, fill: nat): (r: nat)
    requires fill <= 90
    ensures size > 0 ==> r < size
  {
    MulMono(fill, 90, size);
    assert fill * size == size * fill;
    size * fill / 100
  }

  class Table {
    var entries: seq<Entry>
    var entryCount: nat
    var size: nat
    var threshold: nat
    var allowResize: bool
    var fillFactor: nat
    var indexShift: nat
    ghost var contents: map<nat, nat>
    ghost var pos: map<nat, nat>
    ghost var log2: nat

    ghost predicate Valid()
      reads this
    {
      && size == |entries| == Pow2(log2)
      && 10 <= fillFactor <= 90 && indexShift <= 20
      && threshold == Threshold(size, fillFactor)
      && Represents(entries, indexShift, contents, pos)
      && entryCount == |contents| < size
    }

    constructor ()
    {
    }

    /** `mambo_ht_init`. */
    method Init(initialSize: nat, shift: int, fill: int, resizable: bool) returns (ret: int)
      modifies this
      ensures ret == if 10 <= fill <= 90 && 0 <= shift <= 20 then 0 else -1
      ensures ret == 0 ==> Valid() && contents == map[] && allowResize == resizable
      ensures ret == 0 ==> size >= initialSize && (size == 1 || size < 2 * initialSize)
    {
      if fill < 10 || fill > 90 { return -1; }
      if shift < 0 || shift > 20 { return -1; }
      var s := 1;
      ghost var l := 0;
      while s < initialSize
        invariant s == Pow2(l) && (s == 1 || s < 2 * initialSize)
        decreases initialSize - s
      {
        s := 2 * s;
        l := l + 1;
      }
      entries, entryCount, size, allowResize := seq(s, _ => Empty), 0, s, resizable;
      fillFactor, indexShift := fill, shift;
      threshold := Threshold(s, fill);
      contents, pos, log2 := map[], map[], l;
      ret := 0;
    }

    /** `mambo_ht_get_nolock`. */
    method Get(key: nat) returns (ret: int, value: nat)
      requires Valid()
      ensures ret == if key in contents then 0 else -1
      ensures key in contents ==> value == contents[key]
    {
      value := 0;
      if key == 0 { return -1, 0; }
      var h := Home(key, indexShift, size);
      ghost var end := ProbeEnds(entries, indexShift, contents, pos, h);
      var index, d := Probe(entries, key, h, end);
      ProbeFinds(entries, indexShift, contents, pos, key, d);
      if entries[index].key == key {
        return 0, entries[index].value;
      }
      return -1, 0;
    }

    /** `mambo_ht_add_nolock`. */
    method Add(key: nat, value: nat) returns (ret: int)
      requires Valid()
      modifies this
      ensures Valid() && allowResize == old(allowResize)
      ensures ret == if key == 0 || (old(entryCount) >= old(threshold) && !allowResize) then -1 else 0
      ensures contents == if ret == 0 then old(contents)[key := value] else old(contents)
      ensures size >= old(size)
      decreases entryCount, 1
    {
      if key == 0 { return -1; }
      if entryCount >= threshold {
        if allowResize {
          var r := Resize();
          assert r == 0;
        } else {
          return -1;
        }
      }
      ret := 0;
      Insert(key, value);
    }

    /** The second half of `mambo_ht_add_nolock`: probing and storing. */
    method Insert(key: nat, value: nat)
      requires Valid() && key != 0 && entryCount + 1 < size
      modifies this`entries, this`entryCount, this`contents, this`pos
      ensures Valid() && contents == old(contents)[key := value]
    {
      hide Represents, Pow2, Threshold;
      var isNew;
      entries, isNew, pos := Store(entries, indexShift, key, value, contents, pos);
      if isNew {
        entryCount := entryCount + 1;
      }
      contents := contents[key := value];
    }

    /** The fresh, doubled, empty table a resize starts from. */
    method Reallocate()
      requires Valid()
      modifies this`entries, this`entryCount, this`size, this`threshold, this`contents, this`pos, this`log2
      ensures Valid() && contents == map[] && size == 2 * old(size)
    {
      var newSize := 2 * size;
      entries, entryCount, size := seq(newSize, _ => Empty), 0, newSize;
      threshold := Threshold(size, fillFactor);
      contents, pos, log2 := map[], map[], log2 + 1;
    }

    /** `__mambo_ht_resize`: re-adding may itself resize, but only with fewer entries stored than before. */
    method Resize() returns (ret: int)
      requires Valid() && allowResize
      modifies this
      ensures Valid() && allowResize && ret == 0
      ensures contents == old(contents) && entryCount == old(entryCount) && size >= 2 * old(size)
      decreases entryCount, 0
    {
      var prev, prevSize := entries, size;
      ghost var all, allPos, shift := contents, pos, indexShift;
      Reallocate();
      assert Prefix(all, allPos, 0) == map[];
      var i := 0;
      while i < prevSize
        invariant 0 <= i <= prevSize && Valid() && allowResize
        invariant contents == Prefix(all, allPos, i) && size >= 2 * old(size)
      {
        PrefixStep(prev, shift, all, allPos, i);
        if prev[i].key != 0 {
          var r := Add(prev[i].key, prev[i].value);
          assert r == 0;
        }
        i := i + 1;
      }
      PrefixAll(prev, shift, all, allPos);
      ret := 0;
    }

    /** Any sequence of additions to a resizable table leaves the last value of every nonzero key. */
    method AddAll(pairs: seq<(nat, nat)>)
      requires Valid() && allowResize
      modifies this
      ensures Valid() && contents == Fold(old(contents), pairs)
    {
      var i := 0;
      while i < |pairs|
        invariant 0 <= i <= |pairs| && Valid() && allowResize
        invariant contents == Fold(old(contents), pairs[..i])
      {
        var r := Add(pairs[i].0, pairs[i].1);
        assert pairs[..i + 1][..i] == pairs[..i];
        i := i + 1;
      }
      assert pairs[..i] == pairs;
    }
  }
}
