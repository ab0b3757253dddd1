/** The layout of the code cache (`dbm.h`) and the distances its jumps can span, shared by several components. */
module CacheLayout {

  const CODE_CACHE_SIZE: nat := 55000
  const CODE_CACHE_OVERP: nat := 512
  const BLOCK_BYTES: nat := 256

  /** `addr_to_bb_id` for an address relative to the start of the code cache; note the inclusive upper bound. */
  function BbId(addr: int): int {
    if addr < 0 || addr > CODE_CACHE_SIZE * BLOCK_BYTES then -1 else addr / BLOCK_BYTES
  }

  /** The distance of a RISC-V conditional branch (`riscv_create_b_imm_pair`, `riscv_b_branch_can_reach`). */
  predicate BranchOffset(offset: int) {
    offset % 2 == 0 && -4096 <= offset < 4096
  }

  /** The distance of a JAL (`riscv_jal_helper`, `riscv_jal_can_reach`). */
  predicate JalOffset(offset: int) {
    offset % 2 == 0 && -1048576 <= offset < 1048576
  }
}
