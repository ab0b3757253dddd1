/** Powers of two and division facts shared by the word-level models. */
module Arith {

  const M64: nat := 0x1_0000_0000_0000_0000
  const UINT_MAX: nat := 0xFFFF_FFFF

  function Pow2(n: nat): (r: nat)
    ensures r >= 1
  {
    if n == 0 then 1 else 2 * Pow2(n - 1)
  }

  lemma MulMono(a: int, b: int, d: nat)
    requires a <= b
    ensures a * d <= b * d
  {
  }

  lemma Distribute(a: int, b: int, d: int)
    ensures (a + b) * d == a * d + b * d
  {
  }

  lemma DivModUnique(v: int, d: nat, q: int, r: int)
    requires d > 0 && v == q * d + r && 0 <= r < d
    ensures v / d == q && v % d == r
  {
    var q' := v / d;
    assert v == q' * d + v % d;
    if q' < q {
      MulMono(q' + 1, q, d);
      Distribute(q', 1, d);
    } else if q < q' {
      MulMono(q + 1, q', d);
      Distribute(q, 1, d);
    }
  }

  lemma SmallMod(v: nat, m: nat)
    requires v < m
    ensures v % m == v && v / m == 0
  {
    DivModUnique(v, m, 0, v);
  }

  lemma {:induction false} Pow2Add(a: nat, b: nat)
    ensures Pow2(a + b) == Pow2(a) * Pow2(b)
  {
    if a > 0 {
      Pow2Add(a - 1, b);
      assert 2 * (Pow2(a - 1) * Pow2(b)) == (2 * Pow2(a - 1)) * Pow2(b);
    }
  }

  lemma {:induction false} Pow2Mono(a: nat, b: nat)
    requires a <= b
    ensures Pow2(a) <= Pow2(b)
  {
    if a < b { Pow2Mono(a, b - 1); }
  }

  /** The low `k + 1` bits are bit `k` above the low `k` bits. */
  lemma ModSplit(v: nat, k: nat)
    ensures v % Pow2(k + 1) == (v / Pow2(k) % 2) * Pow2(k) + v % Pow2(k)
  {
    var m := Pow2(k);
    var q := v / m;
    var bit := q % 2;
    assert v == q * m + v % m;
    Distribute(2 * (q / 2), bit, m);
    assert 2 * (q / 2) * m == (q / 2) * (2 * m);
    DivModUnique(v, 2 * m, q / 2, bit * m + v % m);
  }

  /** Halving first and dividing by `d` is dividing by `2 * d`. */
  lemma DivTwice(v: nat, d: nat)
    requires d > 0
    ensures v / 2 / d == v / (2 * d)
  {
    var q, r := v / 2 / d, v / 2 % d;
    assert v / 2 == q * d + r;
    calc {
      v;
      2 * (v / 2) + v % 2;
      2 * (q * d + r) + v % 2;
      { assert 2 * (q * d) == q * (2 * d); }
      q * (2 * d) + (2 * r + v % 2);
    }
    DivModUnique(v, 2 * d, q, 2 * r + v % 2);
  }

  lemma Pow2Of52()
    ensures Pow2(52) == 0x10_0000_0000_0000
  {
    assert Pow2(4) == 16;
    Pow2Add(4, 4);
    Pow2Add(8, 4);
    Pow2Add(1, 12);
    Pow2Add(13, 13);
    Pow2Add(26, 26);
  }

  /** What a sequence of additions leaves in a table: the last value of every nonzero key. */
  function Fold(m: map<nat, nat>, pairs: seq<(nat, nat)>): map<nat, nat> {
    if pairs == [] then m
    else
      var last := pairs[|pairs| - 1];
      var before := Fold(m, pairs[..|pairs| - 1]);
      if last.0 == 0 then before else before[last.0 := last.1]
  }
}
