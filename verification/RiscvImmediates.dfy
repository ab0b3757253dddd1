/**
 Scattered immediates (`arch/riscv/scanner_riscv.c`): what the encoding helpers of branches and JALs compute, and the
 decoders used when scanning. Layouts follow section 2.5 of the RISC-V Unprivileged ISA (20191213). A bit field of a
 two's complement number is a floored quotient and remainder.
 */
module RiscvImmediates {
  import opened Arith
  import opened CacheLayout

  /** `extr`: `count` values above the weight `unit`. */
  function Extr(count: int, unit: int, v: int): int
    requires count > 0 && unit > 0
  {
    v / unit % count
  }

  /** `sign_extend` for a field of weight below `2 * half`. */
  function SignExtend(half: int, v: int): int {
    if v >= half then v - 2 * half else v
  }

  /** The next higher field. */
  lemma NextField(v: int, unit: nat, count: nat)
    requires unit > 0 && count > 0
    ensures unit * count > 0 && v / unit == Extr(count, unit, v) + count * (v / (unit * count))
  {
    var q := v / unit;
    MulMono(1, unit, count);
    assert v == q * unit + v % unit;
    assert q == (q / count) * count + q % count;
    Distribute((q / count) * count, q % count, unit);
    assert (q / count) * count * unit == (q / count) * (unit * count);
    MulMono(q % count + 1, count, unit);
    Distribute(q % count, 1, unit);
    DivModUnique(v, unit * count, q / count, (q % count) * unit + v % unit);
  }

  /** The 20-bit field built by `riscv_jal_helper`. */
  function EncodeJ(offset: int): int {
    Extr(1024, 2, offset) * 512 + Extr(2, 2048, offset) * 256 + Extr(256, 4096, offset) + Extr(2, 0x10_0000, offset) * 0x8_0000
  }

  /** `riscv_decode_j_imm`. */
  function DecodeJ(imm: int): int {
    SignExtend(0x10_0000, Extr(1024, 512, imm) * 2 + Extr(2, 256, imm) * 2048 + Extr(256, 1, imm) * 4096 + Extr(2, 0x8_0000, imm) * 0x10_0000)
  }

  lemma FieldsJ(a: int, b: int, c: int, d: int)
    requires 0 <= a < 1024 && 0 <= b < 2 && 0 <= c < 256 && 0 <= d < 2
    ensures var imm := a * 512 + b * 256 + c + d * 0x8_0000;
            && 0 <= imm < 0x10_0000 && Extr(1024, 512, imm) == a && Extr(2, 256, imm) == b
            && Extr(256, 1, imm) == c && Extr(2, 0x8_0000, imm) == d
  {
    var imm := a * 512 + b * 256 + c + d * 0x8_0000;
    assert imm / 512 == a + d * 1024;
    assert imm / 256 == a * 2 + b + d * 2048;
    assert imm / 0x8_0000 == d;
  }

  /** The sign of the top field decides, whatever lies above it. */
  lemma ExtendJ(offset: int, odd: int, low: int, top: int, rest: int)
    requires offset == odd + 2 * low + 0x10_0000 * top + 0x20_0000 * rest && 0 <= odd < 2 && 0 <= low < 0x8_0000 && 0 <= top < 2
    ensures SignExtend(0x10_0000, 2 * low + 0x10_0000 * top) == offset <==> offset % 2 == 0 && -0x10_0000 <= offset < 0x10_0000
  {
    assert offset % 2 == odd;
  }

  lemma ExtendB(offset: int, odd: int, low: int, top: int, rest: int)
    requires offset == odd + 2 * low + 0x1000 * top + 0x2000 * rest && 0 <= odd < 2 && 0 <= low < 0x800 && 0 <= top < 2
    ensures SignExtend(0x1000, 2 * low + 0x1000 * top) == offset <==> offset % 2 == 0 && -0x1000 <= offset < 0x1000
  {
    assert offset % 2 == odd;
  }

  /** Decoding gives the offset back exactly when the helper accepts it. */
  lemma JalRoundTripIff(offset: int)
    ensures 0 <= EncodeJ(offset) < 0x10_0000
    ensures DecodeJ(EncodeJ(offset)) == offset <==> JalOffset(offset)
  {
    var a, b, c, d := Extr(1024, 2, offset), Extr(2, 2048, offset), Extr(256, 4096, offset), Extr(2, 0x10_0000, offset);
    FieldsJ(a, b, c, d);
    NextField(offset, 1, 2);
    NextField(offset, 2, 1024);
    NextField(offset, 2048, 2);
    NextField(offset, 4096, 256);
    NextField(offset, 0x10_0000, 2);
    ExtendJ(offset, Extr(2, 1, offset), a + 1024 * b + 2048 * c, d, offset / 0x20_0000);
  }

  /** The pair built by `riscv_create_b_imm_pair`. */
  function EncodeB(offset: int): (int, int) {
    (Extr(64, 32, offset) + Extr(2, 4096, offset) * 64, Extr(2, 2048, offset) + Extr(16, 2, offset) * 2)
  }

  /** `riscv_decode_b_imm`. */
  function DecodeB(immhi: int, immlo: int): int {
    SignExtend(0x1000, Extr(16, 2, immlo) * 2 + Extr(64, 1, immhi) * 32 + Extr(2, 1, immlo) * 2048 + Extr(2, 64, immhi) * 4096)
  }

  /** The offset from its fields, and the fields from the two halves of the immediate. */
  lemma PartsB(offset: int)
    ensures var a, b, c, d := Extr(16, 2, offset), Extr(64, 32, offset), Extr(2, 2048, offset), Extr(2, 4096, offset);
            && offset == Extr(2, 1, offset) + 2 * (a + 16 * b + 1024 * c) + 0x1000 * d + 0x2000 * (offset / 0x2000)
            && 0 <= Extr(2, 1, offset) < 2 && 0 <= a < 16 && 0 <= b < 64 && 0 <= c < 2 && 0 <= d < 2
  {
    NextField(offset, 1, 2);
    NextField(offset, 2, 16);
    NextField(offset, 32, 64);
    NextField(offset, 2048, 2);
    NextField(offset, 4096, 2);
  }

  lemma BranchRoundTripIff(offset: int)
    ensures var (hi, lo) := EncodeB(offset);
            0 <= hi < 128 && 0 <= lo < 32 && (DecodeB(hi, lo) == offset <==> BranchOffset(offset))
  {
    var a, b, c, d := Extr(16, 2, offset), Extr(64, 32, offset), Extr(2, 2048, offset), Extr(2, 4096, offset);
    PartsB(offset);
    FieldsB(a, b, c, d);
    ExtendB(offset, Extr(2, 1, offset), a + 16 * b + 1024 * c, d, offset / 0x2000);
  }

  lemma FieldsB(a: int, b: int, c: int, d: int)
    requires 0 <= a < 16 && 0 <= b < 64 && 0 <= c < 2 && 0 <= d < 2
    ensures var hi, lo := b + d * 64, c + a * 2;
            && 0 <= hi < 128 && 0 <= lo < 32
            && Extr(16, 2, lo) == a && Extr(64, 1, hi) == b && Extr(2, 1, lo) == c && Extr(2, 64, hi) == d
  {
  }
}
