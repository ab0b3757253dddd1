/**
 The translation table `entry_address` (`common.c`, `common.h`) and the lookup loops that the scanners emit
 into the code cache (`arch/riscv/scanner_riscv.c`, `arch/aarch64/scanner_a64.c`). Probing does not wrap
 around; a few slots past the hashed range absorb collisions and the last slot is never written, so an emitted
 loop needs no bound check.
 */
module CodeCacheTable {
  import opened Arith

  datatype Entry = Entry(key: nat, value: nat)

  const HASH_SIZE: nat := 0x7FFFF
  const OVERP: nat := 10
  const SIZE: nat := HASH_SIZE + OVERP
  const LAST: nat := SIZE - 1
  const ENTRY_BYTES: nat := 16

  /** `HT_SHIFT`: 1 with compressed RISC-V instructions, 2 on AArch64. `GET_INDEX` masks with 0x7FFFF. */
  function Index(key: nat, shift: nat): (r: nat)
    requires 1 <= shift <= 2
    ensures r <= HASH_SIZE
  {
    (if shift == 1 then key / 2 else key / 4) % 0x80000
  }

  /** `key` is stored in slot `i`, with no free slot between its home slot and `i`. */
  predicate Stored(e: seq<Entry>, shift: nat, key: nat, value: nat, i: nat)
    requires 1 <= shift <= 2
  {
    && Index(key, shift) <= i < LAST && i < |e| && e[i] == Entry(key, value)
    && forall j | Index(key, shift) <= j < i :: e[j].key != 0
  }

  ghost predicate Represents(e: seq<Entry>, shift: nat, m: map<nat, nat>, pos: map<nat, nat>) {
    && 1 <= shift <= 2 && |e| == SIZE && e[LAST].key == 0
    && (forall k | k in m :: k != 0 && k in pos && Stored(e, shift, k, m[k], pos[k]))
    && (forall i | 0 <= i < |e| && e[i].key != 0 :: e[i].key in m && pos[e[i].key] == i)
  }

  /** Linear probing from the home slot of `key` passes over taken slots with other keys up to `i`. */
  predicate Passed(e: seq<Entry>, key: nat, from: nat, i: nat) {
    from <= i <= |e| && forall j | from <= j < i :: e[j].key != 0 && e[j].key != key
  }

  /** A search that stops at a free slot or at the end has missed nothing; one that stops at the key has its value. */
  lemma SearchExact(e: seq<Entry>, shift: nat, m: map<nat, nat>, pos: map<nat, nat>, key: nat, i: nat)
    requires Represents(e, shift, m, pos) && key != 0 && i < SIZE && Passed(e, key, Index(key, shift), i)
    ensures e[i].key == key ==> key in m && m[key] == e[i].value
    ensures e[i].key == 0 || i == LAST ==> key !in m
  {
    if key in m {
      assert Stored(e, shift, key, m[key], pos[key]);
    }
  }

  lemma StoreRepresents(e: seq<Entry>, shift: nat, m: map<nat, nat>, pos: map<nat, nat>, key: nat, value: nat, i: nat)
    requires Represents(e, shift, m, pos) && key != 0 && i < LAST && Passed(e, key, Index(key, shift), i)
    requires e[i].key == 0 || e[i].key == key
    ensures Represents(e[i := Entry(key, value)], shift, m[key := value], pos[key := i])
  {
    SearchExact(e, shift, m, pos, key, i);
    var e' := e[i := Entry(key, value)];
    forall k | k in m && k != key ensures Stored(e', shift, k, m[k], pos[k]) {
      assert Stored(e, shift, k, m[k], pos[k]);
    }
  }

  /** Writing the empty key into a free slot changes no binding. */
  lemma BlankRepresents(e: seq<Entry>, shift: nat, m: map<nat, nat>, pos: map<nat, nat>, value: nat, i: nat)
    requires Represents(e, shift, m, pos) && i < LAST && e[i].key == 0
    ensures Represents(e[i := Entry(0, value)], shift, m, pos)
  {
    var e' := e[i := Entry(0, value)];
    forall k | k in m ensures Stored(e', shift, k, m[k], pos[k]) {
      assert Stored(e, shift, k, m[k], pos[k]);
    }
  }

  /** `hash_lookup`. */
  method Lookup(e: array<Entry>, shift: nat, key: nat, ghost m: map<nat, nat>, ghost pos: map<nat, nat>)
    returns (entry: nat)
    requires Represents(e[..], shift, m, pos) && key != 0
    ensures entry == if key in m then m[key] else UINT_MAX
  {
    var index := Index(key, shift);
    var found := false;
    entry := UINT_MAX;
    ghost var s := e[..];
    // The body of the do-while runs once unconditionally.
    var cKey := e[index].key;
    if cKey == key { entry, found := e[index].value, true; } else { index := index + 1; }
    while !found && index < SIZE - 1 && cKey != 0
      invariant Index(key, shift) <= index < SIZE && e[..] == s
      invariant found ==> e[index] == Entry(key, entry)
      invariant !found ==> entry == UINT_MAX && index > Index(key, shift) && e[index - 1].key == cKey != key
      invariant Passed(s, key, Index(key, shift), if found || cKey != 0 then index else index - 1)
      decreases !found, SIZE - index
    {
      cKey := e[index].key;
      if cKey == key { entry, found := e[index].value, true; } else { index := index + 1; }
    }
    SearchExact(s, shift, m, pos, key, if found || cKey != 0 then index else index - 1);
  }

  /** `hash_add`; running into the reserved slot stops the process, here `ok == false`. */
  method Add(e: array<Entry>, shift: nat, key: nat, value: nat, ghost m: map<nat, nat>, ghost pos: map<nat, nat>)
    returns (ok: bool, isNew: bool, collisions: nat, ghost pos': map<nat, nat>)
    requires Represents(e[..], shift, m, pos)
    modifies e
    ensures Represents(e[..], shift, if ok && key != 0 then m[key := value] else m, pos')
    ensures ok && key != 0 ==> isNew == (key !in m)
    ensures !ok ==> e[..] == old(e[..]) && key !in m && forall j | Index(key, shift) <= j < LAST :: e[j].key != 0
  {
    var index := Index(key, shift);
    ok, isNew, collisions, pos' := false, false, 0, pos;
    ghost var s := e[..];
    while index < SIZE - 1
      invariant Index(key, shift) <= index <= LAST && e[..] == s && pos' == pos && !ok
      invariant Passed(s, key, Index(key, shift), index)
    {
      if e[index].key == 0 || e[index].key == key {
        isNew := e[index].key == 0;
        if key == 0 {
          BlankRepresents(s, shift, m, pos, value, index);
        } else {
          SearchExact(s, shift, m, pos, key, index);
          StoreRepresents(s, shift, m, pos, key, value, index);
          pos' := pos[key := index];
        }
        e[index] := Entry(key, value);
        assert e[..] == s[index := Entry(key, value)];
        ok := true;
        return;
      }
      index := index + 1;
      if index < SIZE - 1 { collisions := collisions + 1; }
    }
    if key != 0 { SearchExact(s, shift, m, pos, key, LAST); }
  }

  // ---------- The emitted lookup loops ----------

  /** A 64-bit load from the table at `base`; only the table's own bytes may be read. */
  function Load(e: seq<Entry>, base: nat, addr: nat): nat
    requires base <= addr < base + ENTRY_BYTES * |e|
    requires (addr - base) % 8 == 0
  {
    var i := (addr - base) / ENTRY_BYTES;
    if (addr - base) % ENTRY_BYTES == 0 then e[i].key else e[i].value
  }

  /** RISC-V: `srli tmp, spc, 1; and tmp, tmp, 0x7FFFF; slli tmp, tmp, 4; add a0, base, tmp`. */
  function RiscvStart(base: nat, spc: nat): nat {
    base + spc / 2 % 0x80000 * 16
  }

  /** AArch64: `and tmp, spc, 0x1FFFFC; add x0, base, tmp, lsl 2`. */
  function A64Start(base: nat, spc: nat): nat {
    base + (spc % 0x200000 - spc % 4) * 4
  }

  /** The AArch64 logical immediate keeps bits 2 to 20. */
  lemma A64MaskIsRemainder(spc: bv64)
    ensures spc & 0x1FFFFC == spc % 0x200000 - spc % 4
  {
  }

  lemma StartsAtHomeSlot(base: nat, spc: nat)
    ensures RiscvStart(base, spc) == base + ENTRY_BYTES * Index(spc, 1)
    ensures A64Start(base, spc) == base + ENTRY_BYTES * Index(spc, 2)
  {
    assert spc % 0x200000 == spc / 4 % 0x80000 * 4 + spc % 4;
  }

  lemma LoadSlot(e: seq<Entry>, base: nat, i: nat)
    requires i < |e|
    ensures var a := base + ENTRY_BYTES * i;
            && a + 8 < base + ENTRY_BYTES * |e| && (a + 8 - base) % 8 == 0 && (a - base) % 8 == 0
            && Load(e, base, a) == e[i].key && Load(e, base, a + 8) == e[i].value
  {
  }

  lemma SubtractCompares(a: nat, b: nat)
    requires a < M64 && b < M64
    ensures (a - b) % M64 == 0 <==> a == b
  {
  }

  /**
   The loop emitted on both architectures, from the start address on: load a key and step past the entry,
   leave on zero, compare by subtraction, and on equality load the value behind the pointer. It has no bound
   check, every load stays inside the table and it agrees with `hash_lookup`.
   */
  method EmittedLookup(e: array<Entry>, shift: nat, base: nat, spc: nat, ghost m: map<nat, nat>, ghost pos: map<nat, nat>)
    returns (found: bool, a0: nat)
    requires Represents(e[..], shift, m, pos) && 0 < spc < M64
    requires forall i | 0 <= i < e.Length :: e[i].key < M64
    ensures found == (spc in m)
    ensures found ==> a0 == m[spc]
  {
    StartsAtHomeSlot(base, spc);
    a0 := if shift == 1 then RiscvStart(base, spc) else A64Start(base, spc);
    ghost var s, home := e[..], Index(spc, shift);
    ghost var i := home;
    assert a0 == base + ENTRY_BYTES * i;
    found := false;
    while true
      invariant e[..] == s && home <= i <= LAST && Passed(s, spc, home, i)
      invariant a0 == base + ENTRY_BYTES * i
      decreases SIZE - i
    {
      LoadSlot(s, base, i);
      var tmp := Load(e[..], base, a0);
      a0 := a0 + ENTRY_BYTES;
      SearchExact(s, shift, m, pos, spc, i);
      if tmp == 0 { return; }
      SubtractCompares(s[i].key, spc);
      tmp := (tmp - spc) % M64;
      if tmp == 0 {
        found, a0 := true, Load(e[..], base, a0 - 8);
        return;
      }
      i := i + 1;
    }
  }

  /** The table with its counters. */
  class Table {
    const entries: array<Entry>
    const shift: nat
    var count: nat
    var collisions: nat
    ghost var contents: map<nat, nat>
    ghost var pos: map<nat, nat>

    ghost predicate Valid()
      reads this, entries
    {
      Represents(entries[..], shift, contents, pos)
    }

    /** Every slot from the home slot of `key` to the reserved one is taken. */
    ghost predicate NoRoom(key: nat)
      requires 1 <= shift <= 2 && entries.Length == SIZE
      reads entries
    {
      forall j | Index(key, shift) <= j < LAST :: entries[j].key != 0
    }

    /** `hash_init`. */
    constructor (shift: nat)
      requires 1 <= shift <= 2
      ensures Valid() && contents == map[] && fresh(entries) && this.shift == shift
    {
      this.shift := shift;
      entries := new Entry[SIZE](_ => Entry(0, 0));
      count, collisions := 0, 0;
      contents, pos := map[], map[];
    }

    method HashAdd(key: nat, value: nat) returns (ok: bool)
      requires Valid()
      modifies this, entries
      ensures Valid()
      ensures contents == if ok && key != 0 then old(contents)[key := value] else old(contents)
      ensures ok && key != 0 ==> count == old(count) + if key in old(contents) then 0 else 1
      ensures !ok ==> key !in contents && NoRoom(key)
    {
      var isNew, c;
      ok, isNew, c, pos := Add(entries, shift, key, value, contents, pos);
      if ok && key != 0 { contents := contents[key := value]; }
      if isNew { count := count + 1; }
      collisions := collisions + c;
    }

    /**
     Any sequence of additions, up to the one that stops the process because it runs into the reserved slot: the table
     holds the last value of every nonzero key added.
     */
    method AddAll(pairs: seq<(nat, nat)>) returns (n: nat)
      requires Valid()
      modifies this, entries
      ensures Valid() && n <= |pairs| && contents == Fold(old(contents), pairs[..n])
      ensures n < |pairs| ==> pairs[n].0 !in contents && NoRoom(pairs[n].0)
    {
      n := 0;
      while n < |pairs|
        invariant 0 <= n <= |pairs| && Valid() && contents == Fold(old(contents), pairs[..n])
      {
        var ok := HashAdd(pairs[n].0, pairs[n].1);
        if !ok { return; }
        assert pairs[..n + 1][..n] == pairs[..n];
        n := n + 1;
      }
    }

    /** Both ways of looking up the same nonzero key agree with the last value added for it. */
    method LookupBothWays(key: nat, base: nat) returns (viaC: nat, found: bool, viaCode: nat)
      requires Valid() && 0 < key < M64 && forall i | 0 <= i < entries.Length :: entries[i].key < M64
      ensures found == (key in contents)
      ensures viaC == if found then contents[key] else UINT_MAX
      ensures found ==> viaCode == contents[key]
    {
      viaC := Lookup(entries, shift, key, contents, pos);
      found, viaCode := EmittedLookup(entries, shift, base, key, contents, pos);
    }
  }
}
