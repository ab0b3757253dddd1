/**
 Constant materialisation on RV64 (`riscv_copy_to_reg_32bits`, `riscv_copy_to_reg_64bits` in
 `arch/riscv/scanner_riscv.c`). Instruction semantics follow sections 2.4 and 5.2 of the RISC-V
 Unprivileged ISA (20191213); register values are naturals below 2^64.
 */
module RiscvConstants {
  import opened Arith

  const M32: nat := 0x1_0000_0000

  /** The instructions used, all with the same destination register. `Addiw` may read x0 instead of it. */
  datatype Instr = Lui(imm20: nat) | Addiw(fromZero: bool, imm12: int) | CSlli(shamt: nat) | Addi(imm12: int)

  /** Bytes occupied; the shift is emitted in its compressed form. */
  function Size(i: Instr): nat {
    if i.CSlli? then 2 else 4
  }

  function TotalSize(code: seq<Instr>): nat {
    if code == [] then 0 else TotalSize(code[..|code| - 1]) + Size(code[|code| - 1])
  }

  /** Sign extension of a 32-bit result to 64 bits. */
  function Sext32(v: nat): nat
    requires v < M32
  {
    if v < 0x8000_0000 then v else v + M64 - M32
  }

  function Step(i: Instr, reg: nat): nat {
    match i
    case Lui(imm) => Sext32(imm * 4096 % M32)
    case Addiw(fromZero, imm) => Sext32(((if fromZero then 0 else reg) + imm) % M32)
    case CSlli(shamt) => reg * Pow2(shamt) % M64
    case Addi(imm) => (reg + imm) % M64
  }

  function Run(code: seq<Instr>, reg: nat): nat {
    if code == [] then reg else Step(code[|code| - 1], Run(code[..|code| - 1], reg))
  }

  /** Encodable: 20-bit upper immediates, signed 12-bit lower ones, shift amounts 1 to 63. */
  predicate Encodable(i: Instr) {
    match i
    case Lui(imm) => 0 < imm < 0x10_0000
    case Addiw(_, imm) => -2048 <= imm < 2048
    case CSlli(shamt) => 0 < shamt < 64
    case Addi(imm) => -2048 <= imm < 2048
  }

  // ---------- The emitters ----------

  function SignExtend12(v: nat): int {
    if v % 4096 < 2048 then v % 4096 else v % 4096 - 4096
  }

  function Emit32(value: nat): seq<Instr>
    requires value < M32
  {
    var low12 := SignExtend12(value);
    var hi20 := (value + 0x800) % M32 / 4096;
    (if hi20 != 0 then [Lui(hi20)] else [])
    + (if low12 != 0 || hi20 == 0 then [Addiw(hi20 == 0, low12)] else [])
  }

  /** The 64-bit pattern is a sign-extended 32-bit one, i.e. lies in INT_MIN .. INT_MAX. */
  predicate FitsInt32(value: nat) {
    value < 0x8000_0000 || M64 - 0x8000_0000 <= value < M64
  }

  /** `ffsll(n) - 1`. */
  function TrailingZeros(n: nat): nat
    requires n > 0
  {
    if n % 2 == 1 then 0 else 1 + TrailingZeros(n / 2)
  }

  function OddPart(n: nat): nat
    requires n > 0
  {
    n / Pow2(TrailingZeros(n))
  }

  function Hi52(value: nat): nat {
    (value + 0x800) % M64 / 4096
  }

  function Emit64(value: nat): seq<Instr>
    requires value < M64
    decreases value
  {
    if FitsInt32(value) then Emit32(value % M32)
    else
      Hi52Shrinks(value);
      var hi52 := Hi52(value);
      OddPartBound(hi52);
      var lo12 := SignExtend12(value);
      Emit64(OddPart(hi52)) + [CSlli(12 + TrailingZeros(hi52))] + (if lo12 != 0 then [Addi(lo12)] else [])
  }

  lemma {:induction false} OddPartFactors(n: nat)
    requires n > 0
    ensures n == OddPart(n) * Pow2(TrailingZeros(n))
  {
    var t := TrailingZeros(n);
    var q := OddTimes(n);
    DivModUnique(n, Pow2(t), q, 0);
  }

  lemma {:induction false} OddTimes(n: nat) returns (q: nat)
    requires n > 0
    ensures n == q * Pow2(TrailingZeros(n)) && q >= 1
  {
    if n % 2 == 1 {
      q := n;
    } else {
      q := OddTimes(n / 2);
      assert n == 2 * (n / 2);
      assert 2 * (q * Pow2(TrailingZeros(n / 2))) == q * (2 * Pow2(TrailingZeros(n / 2)));
    }
  }

  lemma OddPartBound(n: nat)
    requires n > 0
    ensures 1 <= OddPart(n) <= n
  {
    OddPartFactors(n);
    var t := Pow2(TrailingZeros(n));
    assert OddPart(n) * t >= OddPart(n) * 1 by { MulMono(1, t, OddPart(n)); }
  }

  lemma Hi52Shrinks(value: nat)
    requires value < M64 && !FitsInt32(value)
    ensures 0 < Hi52(value) < value && Hi52(value) < 0x10_0000_0000_0000
    ensures Hi52(value) <= value / 4096 + 1
  {
  }

  // ---------- Exactness ----------

  /** The rounded upper part and the signed lower part add up to the value, modulo 2^32. */
  lemma Recompose32(value: nat)
    requires value < M32
    ensures ((value + 0x800) % M32 / 4096 * 4096 + SignExtend12(value)) % M32 == value
  {
  }

  lemma RunSingle(i: Instr, reg: nat)
    ensures Run([i], reg) == Step(i, reg)
    ensures TotalSize([i]) == Size(i)
  {
    assert [i] == [] + [i];
    RunConcat([], i, reg);
  }

  /** The 32-bit sequence leaves the sign extension of its argument. */
  lemma RunEmit32(value: nat, reg: nat)
    requires value < M32
    ensures Run(Emit32(value), reg) == Sext32(value)
    ensures forall i | i in Emit32(value) :: Encodable(i)
  {
    var low12 := SignExtend12(value);
    var hi20 := (value + 0x800) % M32 / 4096;
    Recompose32(value);
    if hi20 == 0 {
      assert Emit32(value) == [Addiw(true, low12)];
      RunSingle(Addiw(true, low12), reg);
    } else {
      RunSingle(Lui(hi20), reg);
      if low12 == 0 {
        assert Emit32(value) == [Lui(hi20)];
      } else {
        assert Emit32(value) == [Lui(hi20)] + [Addiw(false, low12)];
        RunConcat([Lui(hi20)], Addiw(false, low12), reg);
        LuiThenAddiw(hi20, low12);
      }
    }
  }

  lemma LuiThenAddiw(hi20: nat, low12: int)
    requires hi20 < 0x10_0000 && -2048 <= low12 < 2048
    ensures (Sext32(hi20 * 4096 % M32) + low12) % M32 == (hi20 * 4096 + low12) % M32
  {
  }

  lemma RunConcat(a: seq<Instr>, i: Instr, reg: nat)
    ensures Run(a + [i], reg) == Step(i, Run(a, reg))
    ensures TotalSize(a + [i]) == TotalSize(a) + Size(i)
  {
    assert (a + [i])[..|a|] == a;
  }

  /** Shifting the odd part back gives the upper part in place. */
  lemma ShiftBack(h: nat)
    requires 0 < h < 0x10_0000_0000_0000
    ensures Step(CSlli(12 + TrailingZeros(h)), OddPart(h)) == 4096 * h
  {
    var odd, t := OddPart(h), TrailingZeros(h);
    OddPartFactors(h);
    Pow2Add(12, t);
    assert Pow2(12) == 4096;
    hide OddPart, TrailingZeros, Pow2;
    assert odd * Pow2(12 + t) == 4096 * h by { Reassociate(odd, Pow2(t)); }
    SmallMod(4096 * h, M64);
  }

  lemma Reassociate(a: nat, b: nat)
    ensures a * (4096 * b) == 4096 * (a * b)
  {
  }

  /** The rounded upper part and the signed lower part add up to the value, modulo 2^64. */
  lemma AddBack(value: nat)
    requires value < M64 && !FitsInt32(value)
    ensures Step(Addi(SignExtend12(value)), 4096 * Hi52(value)) == value
    ensures SignExtend12(value) == 0 ==> 4096 * Hi52(value) == value
  {
    var q, r := value / 4096, value % 4096;
    if r < 2048 {
      DivModUnique(value + 0x800, 4096, q, r + 0x800);
      SmallMod(value + 0x800, M64);
    } else {
      assert 4096 * (q + 1) < M64;
      SmallMod(value + 0x800, M64);
      DivModUnique(value + 0x800, 4096, q + 1, r - 2048);
    }
    SmallMod(value, M64);
  }

  lemma {:induction false} TrailingZerosBound(n: nat, k: nat)
    requires 0 < n < Pow2(k)
    ensures TrailingZeros(n) < k
  {
    if k > 0 && n % 2 == 0 { TrailingZerosBound(n / 2, k - 1); }
  }

  lemma ShiftEncodable(h: nat)
    requires 0 < h < 0x10_0000_0000_0000
    ensures Encodable(CSlli(12 + TrailingZeros(h)))
  {
    Pow2Of52();
    TrailingZerosBound(h, 52);
  }

  /** The last one or two instructions, applied to the odd part of the upper 52 bits. */
  lemma RunTail(upper: seq<Instr>, value: nat, reg: nat)
    requires value < M64 && !FitsInt32(value) && Hi52(value) > 0
    requires Run(upper, reg) == OddPart(Hi52(value))
    ensures var lo12 := SignExtend12(value);
            Run(upper + [CSlli(12 + TrailingZeros(Hi52(value)))] + (if lo12 != 0 then [Addi(lo12)] else []), reg) == value
  {
    Hi52Shrinks(value);
    ShiftBack(Hi52(value));
    AddBack(value);
    hide Hi52, TrailingZeros, OddPart, SignExtend12, Run, Step;
    var lo12 := SignExtend12(value);
    RunPair(upper, CSlli(12 + TrailingZeros(Hi52(value))), Addi(lo12), lo12 != 0, reg);
  }

  lemma RunPair(upper: seq<Instr>, shift: Instr, low: Instr, useLow: bool, reg: nat)
    ensures var r := Step(shift, Run(upper, reg));
            Run(upper + [shift] + (if useLow then [low] else []), reg) == if useLow then Step(low, r) else r
  {
    hide Step, Run;
    RunConcat(upper, shift, reg);
    RunConcat(upper + [shift], low, reg);
    assert upper + [shift] + [] == upper + [shift];
  }

  lemma FitsSext(value: nat)
    requires FitsInt32(value)
    ensures Sext32(value % M32) == value
  {
  }

  /** The emitted sequence leaves exactly the requested value, whatever the register held. */
  lemma {:induction false} RunEmit64(value: nat, reg: nat)
    requires value < M64
    ensures Run(Emit64(value), reg) == value
    decreases value
  {
    if FitsInt32(value) {
      FitsSext(value);
      RunEmit32(value % M32, reg);
    } else {
      Hi52Shrinks(value);
      OddPartBound(Hi52(value));
      RunEmit64(OddPart(Hi52(value)), reg);
      RunTail(Emit64(OddPart(Hi52(value))), value, reg);
    }
  }

  /** Every immediate and shift amount of the sequence fits its instruction field. */
  lemma {:induction false} Emit64Encodable(value: nat, i: Instr)
    requires value < M64 && i in Emit64(value)
    ensures Encodable(i)
    decreases value
  {
    if FitsInt32(value) {
      RunEmit32(value % M32, 0);
    } else {
      Hi52Shrinks(value);
      OddPartBound(Hi52(value));
      ShiftEncodable(Hi52(value));
      if i in Emit64(OddPart(Hi52(value))) { Emit64Encodable(OddPart(Hi52(value)), i); }
    }
  }

  // ---------- Size ----------

  /** Bytes emitted for `value`. */
  function CopySize(value: nat): nat
    requires value < M64
  {
    TotalSize(Emit64(value))
  }

  lemma Emit32Size(value: nat)
    requires value < M32
    ensures TotalSize(Emit32(value)) <= 8
  {
    var code := Emit32(value);
    if |code| == 2 {
      assert code == [code[0]] + [code[1]];
      RunSingle(code[0], 0);
      RunConcat([code[0]], code[1], 0);
    } else {
      assert code == [code[0]];
      RunSingle(code[0], 0);
    }
  }

  /** Something is emitted for every value. */
  lemma CopySizePositive(value: nat)
    requires value < M64
    ensures CopySize(value) > 0
  {
  }

  lemma CopySizeStep(value: nat)
    requires value < M64 && !FitsInt32(value)
    ensures Hi52(value) > 0 && OddPart(Hi52(value)) < M64
    ensures CopySize(value) <= CopySize(OddPart(Hi52(value))) + 6
  {
    Hi52Shrinks(value);
    var h := Hi52(value);
    OddPartBound(h);
    var upper := Emit64(OddPart(h));
    var shift := CSlli(12 + TrailingZeros(h));
    RunConcat(upper, shift, 0);
    var lo12 := SignExtend12(value);
    if lo12 == 0 {
      assert Emit64(value) == upper + [shift];
    } else {
      RunConcat(upper + [shift], Addi(lo12), 0);
      assert Emit64(value) == upper + [shift] + [Addi(lo12)];
    }
  }

  /** At most 26 bytes for any value, 20 up to 2^52 (so in particular for addresses below 2^47), 14 up to 2^40. */
  lemma {:induction false} CopySizeBound(value: nat)
    requires value < M64
    ensures FitsInt32(value) ==> CopySize(value) <= 8
    ensures value <= 0x100_0000_0000 ==> CopySize(value) <= 14
    ensures value <= 0x10_0000_0000_0000 ==> CopySize(value) <= 20
    ensures CopySize(value) <= 26
    decreases value
  {
    if FitsInt32(value) {
      Emit32Size(value % M32);
    } else {
      Hi52Shrinks(value);
      OddPartBound(Hi52(value));
      CopySizeStep(value);
      CopySizeBound(OddPart(Hi52(value)));
    }
  }

  // ---------- The emitter over a code buffer ----------

  /** A code buffer with a write position, in instruction slots. */
  class Emitter {
    var code: seq<Instr>

    constructor ()
      ensures code == []
    {
      code := [];
    }

    method Put(i: Instr)
      modifies this
      ensures code == old(code) + [i]
    {
      code := code + [i];
    }

    method CopyToReg32(value: nat)
      requires value < M32
      modifies this
      ensures code == old(code) + Emit32(value)
    {
      var low12 := SignExtend12(value);
      var hi20 := (value + 0x800) % M32 / 4096;
      if hi20 != 0 { Put(Lui(hi20)); }
      if low12 != 0 || hi20 == 0 { Put(Addiw(hi20 == 0, low12)); }
    }

    method CopyToReg64(value: nat)
      requires value < M64
      modifies this
      ensures code == old(code) + Emit64(value)
      decreases value
    {
      if FitsInt32(value) {
        CopyToReg32(value % M32);
        return;
      }
      Hi52Shrinks(value);
      var lo12 := SignExtend12(value);
      var hi52 := Hi52(value);
      OddPartBound(hi52);
      var shift := 12 + TrailingZeros(hi52);
      CopyToReg64(hi52 / Pow2(shift - 12));
      Put(CSlli(shift));
      if lo12 != 0 { Put(Addi(lo12)); }
    }
  }
}
