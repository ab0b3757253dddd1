/**
 The space discipline of the RISC-V scanner (`arch/riscv/scanner_riscv.c`): before every translation enough bytes are
 reserved in front of `data_p`, and a fragment grows over the blocks that follow its first one (`allocate_bb`,
 `allocate_bb_overflow` in `dbm.c`). Basic-block fragments without plugins; guest and table addresses are below 2^47.
 */
module ScanSpace {
  import opened Arith
  import opened CacheLayout
  import RiscvConstants
  import R = RiscvMachine

  const MIN_FSPACE: nat := 56
  const BRANCH_FSPACE: nat := 152
  const REG_JUMP_FSPACE: nat := 196
  const CODE_CACHE_HASH_SIZE: nat := 0x7_FFFF
  const FAR: nat := 8
  const TRAMPOLINE_SLOTS: nat := 6

  const ZERO: nat := 0
  const RA: nat := 1

  type Address = a: nat | a < 0x8000_0000_0000
  type Word = v: nat | v < M64

  /** A decoded guest instruction, with the addresses its translation materialises. */
  datatype Inst =
    | Copied(size: nat)
    | Auipc(value: Word)
    | Ecall(next: Address)
    | Jump(compressed: bool, rd: nat, next: Address, target: Address)
    | Branch(rs1: nat, rs2: nat, next: Address, target: Address)
    | JumpReg(rd: nat, rs1: nat, next: Address)

  predicate Ends(i: Inst) {
    i.Jump? || i.Branch? || i.JumpReg?
  }

  /** Instructions are copied whole; a compressed jump, or the jump emitted for an unknown instruction, links nothing. */
  predicate Decodable(i: Inst) {
    && (i.Copied? ==> i.size == 2 || i.size == 4)
    && (i.Jump? && i.compressed ==> i.rd == ZERO)
  }

  // ---------- Bytes emitted ----------

  function Copy(value: Word): nat {
    RiscvConstants.CopySize(value)
  }

  /** `riscv_push` and `riscv_pop`: the stack adjustment of a pop is compressed if it is a multiple of 16. */
  function Push(n: nat): nat {
    4 + 4 * n
  }

  function Pop(n: nat): nat {
    2 * n + if 8 * n % 16 == 0 then 2 else 4
  }

  function RestoreContext(): nat {
    Pop(2)
  }

  /** The call of the trace-head counter in blocks that may head a trace. */
  function HeadCode(bb: nat, near: bool): nat
    requires bb < CODE_CACHE_SIZE
  {
    Push(2) + Push(1) + Copy(bb) + (if near then 4 else FAR) + Pop(1) + Pop(2)
  }

  /** `riscv_jump`. */
  function JumpCode(rd: nat, next: Address, target: Address, bb: nat): nat
    requires bb < CODE_CACHE_SIZE
  {
    (if rd != ZERO then Copy(next) else 0) + Push(3) + Copy(target) + Copy(bb) + FAR
  }

  /** `riscv_cond_branch`. */
  function BranchCode(rs1: nat, rs2: nat, next: Address, target: Address, bb: nat): nat
    requires bb < CODE_CACHE_SIZE
  {
    24 +
    if rs1 == R.SP || rs2 == R.SP then
      4 + (Push(3) + Copy(bb) + Copy(next) + FAR) + (Push(3) + Copy(bb) + Copy(target) + FAR)
    else if rs1 == R.A1 || rs2 == R.A1 then
      Push(3) + 4 + (Copy(bb) + Copy(next) + FAR) + (Copy(bb) + Copy(target) + FAR)
    else
      Push(3) + Copy(bb) + 4 + (Copy(next) + FAR) + (Copy(target) + FAR)
  }

  /** `riscv_inline_hash_lookup`; the return address is materialised up to three times. */
  function LookupCode(rd: nat, rs1: nat, next: Address, entries: Address, bb: nat): nat
    requires bb < CODE_CACHE_SIZE
  {
    var useA2 := rs1 == R.A0 || rs1 == R.A1 || (rd == RA && rs1 == RA);
    var ret := if rd != ZERO then Copy(next) else 0;
    var popA2 := if useA2 then Pop(1) else 0;
    Push(2)
    + (if useA2 then Push(1) + (if rs1 != R.A1 then 4 else 0) else 4)
    + Copy(CODE_CACHE_HASH_SIZE) + 4 + 4 + Copy(entries) + 4 + 4
    + 4 + 4 + 2 + 4 + 4 + 4
    + popA2 + ret + 2
    + 4 + ret + Copy(bb) + popA2 + ret + Push(1) + FAR
  }

  function EmitSize(i: Inst, entries: Address, bb: nat): nat
    requires bb < CODE_CACHE_SIZE
  {
    match i
    case Copied(size) => size
    case Auipc(value) => Copy(value)
    case Ecall(next) => Push(3) + Copy(next) + FAR + RestoreContext()
    case Jump(_, rd, next, target) => JumpCode(rd, next, target, bb)
    case Branch(rs1, rs2, next, target) => BranchCode(rs1, rs2, next, target, bb)
    case JumpReg(rd, rs1, next) => LookupCode(rd, rs1, next, entries, bb)
  }

  /** The space checked right before the translation, if any; what remains from the previous check is `MIN_FSPACE`. */
  function Checked(i: Inst): nat {
    match i
    case Jump(compressed, _, _, _) => if compressed then 0 else BRANCH_FSPACE
    case Branch(_, _, _, _) => BRANCH_FSPACE
    case JumpReg(_, _, _) => REG_JUMP_FSPACE
    case _ => 0
  }

  function Reserve(i: Inst): nat {
    if Checked(i) == 0 then MIN_FSPACE else Checked(i)
  }

  lemma ReserveIs(i: Inst)
    ensures Reserve(i) == if Checked(i) > 0 then Checked(i) else MIN_FSPACE
  {
  }

  lemma CopyBounds(a: Address, bb: nat, v: Word)
    requires bb < CODE_CACHE_SIZE
    ensures Copy(a) <= 20 && Copy(bb) <= 8 && Copy(v) <= 26 && Copy(CODE_CACHE_HASH_SIZE) <= 8
  {
    RiscvConstants.CopySizeBound(a);
    RiscvConstants.CopySizeBound(bb);
    RiscvConstants.CopySizeBound(v);
    RiscvConstants.CopySizeBound(CODE_CACHE_HASH_SIZE);
  }

  /** No translation is longer than what is reserved for it; the margins are at most 4, 20 and 4 bytes. */
  lemma EmitFits(i: Inst, entries: Address, bb: nat)
    requires Decodable(i) && bb < CODE_CACHE_SIZE
    ensures EmitSize(i, entries, bb) <= Reserve(i)
    ensures i.JumpReg? ==> EmitSize(i, entries, bb) <= 192
    ensures i.Branch? ==> EmitSize(i, entries, bb) <= if i.rs1 == R.SP || i.rs2 == R.SP then 132 else 116
    ensures i.Jump? && i.rd == ZERO ==> EmitSize(i, entries, bb) <= 52
    ensures i.Ecall? ==> EmitSize(i, entries, bb) <= 50
  {
    hide Copy;
    CopyBounds(entries, bb, 0);
    match i {
      case Copied(_) =>
      case Auipc(value) => CopyBounds(0, bb, value);
      case Ecall(next) => CopyBounds(next, bb, 0);
      case Jump(_, _, next, target) => CopyBounds(next, bb, 0); CopyBounds(target, bb, 0);
      case Branch(_, _, next, target) => CopyBounds(next, bb, 0); CopyBounds(target, bb, 0);
      case JumpReg(_, _, next) => CopyBounds(next, bb, 0);
    }
  }

  /** The code in front of the first translation, with or without the trace-head call. */
  function Prologue(bb: nat, head: bool, near: bool): nat
    requires bb < CODE_CACHE_SIZE
  {
    RestoreContext() + if head then HeadCode(bb, near) else 0
  }

  lemma PrologueFits(bb: nat, head: bool, near: bool)
    requires bb < CODE_CACHE_SIZE
    ensures Prologue(bb, head, near) <= 54
  {
    hide Copy;
    CopyBounds(0, bb, 0);
  }

  // ---------- The loop ----------

  /** Everything emitted for the first `n` instructions. */
  function Emitted(insts: seq<Inst>, n: nat, entries: Address, bb: nat, prologue: nat): nat
    requires n <= |insts| && bb < CODE_CACHE_SIZE
  {
    if n == 0 then prologue else Emitted(insts, n - 1, entries, bb, prologue) + EmitSize(insts[n - 1], entries, bb)
  }

  lemma {:induction false} EmittedMono(insts: seq<Inst>, m: nat, n: nat, entries: Address, bb: nat, prologue: nat)
    requires m <= n <= |insts| && bb < CODE_CACHE_SIZE
    ensures Emitted(insts, m, entries, bb, prologue) <= Emitted(insts, n, entries, bb, prologue)
  {
    if m < n { EmittedMono(insts, m, n - 1, entries, bb, prologue); }
  }

  /** One thread's allocation of blocks, and the fragment being written. */
  class Scanner {
    var freeBlock: nat
    var writeP: nat
    var dataP: nat

    /** The fragment owns the blocks from `bb` to the last allocated one, without a gap, and ends in front of `dataP`. */
    ghost predicate Owns(bb: nat)
      reads this
    {
      bb < freeBlock <= CODE_CACHE_SIZE && dataP == freeBlock * BLOCK_BYTES && bb * BLOCK_BYTES <= writeP < dataP
    }

    /**
     `riscv_check_free_space`; `ok == false` is the assertion in `allocate_bb_overflow`. The new block always follows
     the last one, so no jump to it is ever emitted.
     */
    method CheckFreeSpace(size: nat, ghost bb: nat) returns (ok: bool)
      requires Owns(bb) && size <= BLOCK_BYTES
      modifies this`freeBlock, this`dataP
      ensures ok <==> old(writeP + size < dataP) || old(freeBlock) < CODE_CACHE_SIZE
      ensures Owns(bb)
      ensures ok ==> writeP + size < dataP && freeBlock == old(freeBlock) + if old(writeP + size < dataP) then 0 else 1
      ensures !ok ==> freeBlock == old(freeBlock)
    {
      ok := true;
      if writeP + size >= dataP {
        if freeBlock >= CODE_CACHE_SIZE { return false; }
        var block := freeBlock;
        freeBlock := freeBlock + 1;
        if block * BLOCK_BYTES != dataP { assert false; }
        dataP := block * BLOCK_BYTES + BLOCK_BYTES;
      }
    }

    /**
     The loop of `scan_riscv` over the instructions of a fragment. Every byte goes in front of `dataP`, inside the
     contiguous blocks of the fragment; the blocks can only run out in a fragment of more than 512 overflow blocks.
     Room for six trampoline slots behind the code becomes the block's spare area.
     */
    method Scan(insts: seq<Inst>, entries: Address, bb: nat, head: bool, near: bool) returns (ok: bool, spare: int)
      requires bb < CODE_CACHE_SIZE - CODE_CACHE_OVERP && freeBlock == bb + 1
      requires forall i | i in insts :: Decodable(i)
      requires forall k | 0 <= k < |insts| :: Ends(insts[k]) ==> k == |insts| - 1
      modifies this
      ensures Owns(bb)
      ensures ok ==> writeP == bb * BLOCK_BYTES + Emitted(insts, |insts|, entries, bb, Prologue(bb, head, near))
      ensures ok ==> (spare == -1 || spare == writeP) && (spare != -1 <==> writeP + TRAMPOLINE_SLOTS * 4 <= dataP)
      ensures ok ==> (freeBlock - bb - 2) * BLOCK_BYTES < writeP - bb * BLOCK_BYTES + REG_JUMP_FSPACE
      ensures !ok ==> freeBlock == CODE_CACHE_SIZE > bb + CODE_CACHE_OVERP
      ensures Emitted(insts, |insts|, entries, bb, Prologue(bb, head, near)) + REG_JUMP_FSPACE < CODE_CACHE_OVERP * BLOCK_BYTES ==> ok
    {
      hide Prologue, EmitSize, Reserve;
      spare := -1;
      writeP, dataP := bb * BLOCK_BYTES, bb * BLOCK_BYTES + BLOCK_BYTES;
      PrologueFits(bb, head, near);
      var prologue := Prologue(bb, head, near);
      writeP := writeP + prologue;
      var k := 0;
      while k < |insts|
        invariant 0 <= k <= |insts| && Owns(bb) && freeBlock >= bb + 1
        invariant writeP == bb * BLOCK_BYTES + Emitted(insts, k, entries, bb, prologue)
        invariant k < |insts| ==> writeP + MIN_FSPACE < dataP
        invariant (freeBlock - bb - 2) * BLOCK_BYTES < writeP - bb * BLOCK_BYTES + REG_JUMP_FSPACE
      {
        var i := insts[k];
        EmitFits(i, entries, bb);
        ReserveIs(i);
        if Checked(i) > 0 {
          ok := CheckFreeSpace(Checked(i), bb);
          if !ok {
            EmittedMono(insts, k, |insts|, entries, bb, prologue);
            return;
          }
        }
        writeP := writeP + EmitSize(i, entries, bb);
        k := k + 1;
        if !Ends(i) {
          ok := CheckFreeSpace(MIN_FSPACE, bb);
          if !ok {
            EmittedMono(insts, k, |insts|, entries, bb, prologue);
            return;
          }
        }
      }
      ok := true;
      if dataP - writeP >= TRAMPOLINE_SLOTS * 4 { spare := writeP; }
    }
  }
}
