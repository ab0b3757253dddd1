# MAMBO: a Dafny model of the translator's machinery

MAMBO is a dynamic binary translator. It copies basic blocks of a guest program into a code cache, links the copies
to each other, and combines hot ones into traces. This project models the mechanisms around the instruction scanners
and proves what they promise:

- the RISC-V trace builder together with the block allocator and the dispatcher, with a cache flush possible inside
  every lookup: it never fails or hands out discarded code (`TraceModel`, `TraceSafety`, `TraceRuns`, `TraceBuilder`),
  and what it hands out, publishes and patches translates the right guest address (`TraceCode`, `TraceMeaning`,
  `TraceTranslation`); exactly when installing a trace harms other code (`TracePatches`, `TraceHistory`,
  `TraceStanding`), and runs in which it does (`TraceWitness`); and the index from addresses to fragments (`FragmentIndex`);
- links between fragments: the RISC-V exit code and its in-place patching, executed on a small machine
  (`RiscvMachine`, `RiscvImmediates`, `RiscvExits`, `ExitLinking`, `LinkedCache`), the greedy chains of jump trampolines
  (`Trampolines`), and the exit regions on AArch64 (`A64Exits`);
- what the RISC-V scanner emits: constants in registers (`RiscvConstants`) and the space it needs (`ScanSpace`);
- the PIE generators of decoders, encoders and field decoders (`PieDecoder`, `PieConditions`, `PieEncoder`);
- hash tables, the interval map and the pool of link records (`CodeCacheTable`, `PluginTable`, `IntervalMap`,
  `LinkPool`);
- the binary log of the xtrace plugin (`XtraceEvents`, `XtraceLog`, `XtraceFile`, `XtraceText`,
  `XtraceStream`).

`Arith` holds shared arithmetic and the map that a sequence of additions leaves. `dafny verify dfyconfig.toml` checks everything.

Code that updates a structure in place appears as a class or a method whose postcondition equates the new state with a
function of the old one; what that function means is proved in lemmas. Sequences stand for the source's arrays where a
field is replaced as a whole. Each operation is atomic, and one thread's data is touched by that thread only.

## What the code does not promise

These are places where the code, followed exactly, falls short of the obvious statement. Each has a lemma with the
exact condition, or a concrete input, or both.

- PIE: a table in which a 16-bit and a 32-bit pattern agree on the first halfword, and the 32-bit one fixes a bit of
  the second, makes decoder generation crash, and only such a table does. Several patterns that fix no bit at all and
  match together give the generated code's INVALID result. A field condition that admits no value is ignored.
  Encoder and field decoder are inverse to each other exactly when every field is contiguous.
- `interval_map_add` can lose entries: adding a range over two others when the second is last drops the first, because
  swap-deletion moves the merged entry. Nothing is lost exactly when the number of overlapped entries plus the index
  of the highest one does not exceed the entry count.
- `interval_map_delete` aborts exactly when an entry is straddled past its right end or a split finds no room; a range
  that straddles an entry's left end leaves an empty, inverted entry behind.
- The link pool gives the address just past the last basic block a list of its own, which a flush never resets.
- `riscv_jalr_helper` accepts distances up to 2^31 - 1 but reaches the target only up to 2^31 - 0x801.
- The second arm of `riscv_link_branch` never fires: an absent target has the odd address 2^32 + 5.
- The first guard of `trace_dispatcher` never fails.
- A link recorded when a trace is closed at its fragment limit or size cut-off, after a lookup that flushed the cache,
  has a source in discarded code. `TraceWitness.StaleRun` is a run that ends so.
- `install_trace` rewrites the jumps that lead to the new trace's head block without asking what stands behind them. A
  4-byte jump of an earlier trace is replaced by a 20-byte one when the new trace is further away than a JAL reaches,
  and destroys what stands behind it; `TraceWitness.OverwriteRun` ends with an installed trace whose exit stub is gone.
  The exact condition: a jump written by an installation leaves the installed traces, and the one being installed, right
  if and only if it reaches neither into another word they need nor into a fragment, and replaces only jumps for the same
  address (`TraceStanding.LinkStandsIff`, for any link and any history). In every run no installation harms them if and
  only if this holds of each jump written, and then all installed traces are right (`TraceStanding.EveryRunStandsIff`).
- When the lookup for a linking branch flushes the cache, the branch is rewritten in, and its link recorded from, code
  that is gone (`TraceWitness.FlushRun`); such a link can fail the assertion that one successor is a trace
  (`TraceWitness.AssertRun`). `TracePatches.AssertedIff` gives the exact condition of the assertions in the loop.
- A simpler guard on each state in which `install_trace` is called is sufficient for linked blocks and assertions too
  (`TracePatches.CanInstall`): all links of the head's block come from code that still exists, the jumps in traces fit,
  and the lookups do not flush. The flag `intact` of the model, called the history below, records whether it has always
  held; "exactly" and "if and only if" at this guard refer to that flag. In a run that keeps to it, installed traces and
  linked blocks always go where the guest goes, no installed fragment is overwritten, and the assertions hold
  (`TraceHistory.EveryRunTranslates`).
- AArch64 exit regions of B.AL and B.NV always ask for the fall-through successor.
- xtrace: sizes and instruction numbers that do not fit their 32-bit fields are the only way in which a decoded log
  differs from text mode; thread numbers above 2^20 are rejected by the decoder.

## Model

| member | source | states |
|---|---|---|
| `TraceSafety.FirstGuardHolds` | arch/riscv/riscv_traces.c:458-468 | Behind a recorded exit every stub is still within reach, so the first size guard of `trace_dispatcher` never fails. |
| `TraceSafety.StubsReach` | arch/riscv/riscv_traces.c:85-98 | Exits that reach a grid of 20-byte stubs reach the stubs that are really written, which are never longer. |
| `TraceSafety.TakeExitSafe` | arch/riscv/riscv_traces.c:414-457 | Replacing the open exit by a placeholder never exceeds 21 recorded exits and leaves a trace that can be closed, or a flush shows. |
| `TraceSafety.PlaceholderSafe` | arch/riscv/riscv_traces.c:234-253 | A recorded exit points to code allocated since the latest flush, also when finding it scans a block. |
| `TraceSafety.RecordExitSafe` | arch/riscv/riscv_traces.c:46-59 | The new exit reaches its place behind all earlier stubs and there is a record for it. |
| `TraceSafety.ScanTraceSafe` | arch/riscv/riscv_traces.c:255-282 | Appending a fragment keeps the invariant, ids included, or the flush inside the scan shows. |
| `TraceSafety.UndoAppend` | arch/riscv/riscv_traces.c:486-514 | Rolling back an appended fragment restores exactly the trace that was resumed, ready to be closed. |
| `TraceSafety.ContinueAppended` | arch/riscv/riscv_traces.c:506-531 | A fragment is kept only if every exit reaches its stub behind it; the trace in progress stays well formed. |
| `TraceSafety.InstallSafe` | arch/riscv/riscv_traces.c:119-232 | Installing publishes the trace under its head's address exactly when no flush happened, with every branch in reach of its stub. |
| `TraceSafety.EarlyExitSafe` | arch/riscv/riscv_traces.c:284-298 | Closing a trace early keeps all exits in reach behind the closing jump, whichever form that takes. |
| `TraceSafety.ExtendSafe` | arch/riscv/riscv_traces.c:486-545 | Every path behind the lookup returns live code: appended, rolled back, installed or re-resolved after a flush. |
| `TraceSafety.LookupFollows` | dbm.c:145-219 | A lookup returns live code that is published; either nothing else changed or the flush shows. |
| `TraceSafety.FlushCore` | dbm.c:104-138 | A flush establishes the whole invariant, whatever was in progress. |
| `TraceSafety.BlocksScanned` | dbm.c:205-215 | A new block fragment owns its block and its overflow blocks, and no block changes owner. |
| `TraceSafety.InstallLinksFollow` | arch/riscv/riscv_traces.c:130-192 | The loop over incoming links ends with nothing lost, or stops after the iteration in which a flush shows. |
| `TraceRuns.CreateSafe` | arch/riscv/riscv_traces.c:300-372 | Starting a trace returns live code on all paths: full cache, flush during the scan, new trace. |
| `TraceRuns.TraceSafe` | arch/riscv/riscv_traces.c:414-545 | One call of `trace_dispatcher` for the open exit keeps the invariant and returns live code. |
| `TraceRuns.DispatcherSafe` | dispatcher.c:47-99 | One call of `dispatcher` keeps the invariant; the address returned and both ends of every patch are live. |
| `TraceRuns.EveryRunSafe` | arch/riscv/riscv_traces.c:300-545 | In every run no assertion on exits, reach or fragment ids fails, and no entry, returned address or patch refers to code from before the latest flush. |
| `TraceRuns.ExitsAndIdsBounded` | arch/riscv/riscv_traces.c:46-98 | In every reachable state at most 21 exits are recorded, all stubs fit behind the last fragment, and fragment ids are left. |
| `TraceRuns.NoCommitAfterFlush` | arch/riscv/riscv_traces.c:194-210 | `install_trace` publishes and keeps the trace if and only if nothing was flushed meanwhile. |
| `TraceRuns.ClosingLinkLiveIff` | arch/riscv/riscv_traces.c:470-480 | The link recorded for the closing jump has a live source exactly when the lookup before it found the target or had room to scan it. |
| `TraceWitness.ClosingLinkMayBeStale` | arch/riscv/riscv_traces.c:506-518 | A run of a small guest program from initialisation: after one call of `trace_dispatcher` the list of a block scanned after the flush holds a jump in discarded code. |
| `TraceRuns.NewTraceCore` | arch/riscv/riscv_traces.c:313-337 | A fresh trace starts at an aligned address behind all fragments. |
| `TraceCode.LookupMeans` | dbm.c:145-219 | A lookup returns a translation of the address looked up, and all published translations, installed traces, recorded links and linked exits stay as they are, or a flush shows. |
| `TraceCode.LinkMeans` | dbm.c:640-653 | A link recorded from a jump for an address to a translation of it stays one; the lists of all blocks keep that property. |
| `TraceMeaning.InstallLinksMean` | arch/riscv/riscv_traces.c:130-192 | The loop over incoming links redirects jumps for the head's address to the new trace and block exits to both of their successors; nothing else that installed traces depend on changes as long as the history stays clean, and publication is right in any case. |
| `TracePatches.LinkIntactIff` | arch/riscv/riscv_traces.c:130-187 | One link keeps the history clean if and only if, in the state before, link and trace are of the current generation, a jump in a trace is there and fits its new target, and the other successor of a linking branch is known or there is room to scan it. |
| `TracePatches.LinksIntactIff` | arch/riscv/riscv_traces.c:130-192 | The whole loop does if and only if that holds of all links in the state before the loop, with room for all the blocks it will scan. |
| `TracePatches.LinksRight` | arch/riscv/riscv_traces.c:130-192 | Then it runs to its end without a flush, and installed traces, recorded links and linked exits are right afterwards. |
| `TracePatches.PatchKeepsIff` | arch/riscv/riscv_traces.c:114-117 | A jump to a new trace written anywhere in the trace area keeps the installed traces right if and only if it replaces only a jump for the same address, where it has room in front of the free space, and otherwise reaches neither into a word that they need nor into a fragment. |
| `TraceStanding.LinkKeepsIff` | arch/riscv/riscv_traces.c:130-139 | The same of one iteration over the incoming links, for the trace being installed and any link into the trace area. |
| `TraceStanding.LinkStandsIff` | arch/riscv/riscv_traces.c:130-192 | One iteration, for any link and any history, harms neither the installed traces nor the closing jump and the fragments of the one being installed if and only if the jump it writes is harmless in the state before; links to blocks harm nothing, or a flush leaves no trace. |
| `TraceStanding.LoopGuardIff` | arch/riscv/riscv_traces.c:130-192 | The loop harms nothing in any iteration if and only if all jumps it will write are harmless in the state before it, counted with the sizes of those rewritten earlier, up to the first lookup that flushes. |
| `TraceMeaning.HeadIsFound` | arch/riscv/riscv_traces.c:150-176 | For a link from a block with the head's address as a successor, the assertion that one successor is a trace holds. |
| `TracePatches.AssertedIff` | arch/riscv/riscv_traces.c:150-183 | The assertions for a linking branch hold if and only if one successor is a trace and, should the lookup of the other one flush, the head of the trace in progress is still found or a jump reaches the address that stands for an absent translation. |
| `TracePatches.InstallMayRecordStaleLink` | arch/riscv/riscv_traces.c:159-187 | If the successor looked up, in either arm, is not translated and the cache is full, the link is recorded for the first block of the next generation although its own block is gone. |
| `TraceWitness.BlockLinkMayBeStale` | arch/riscv/riscv_traces.c:159-187 | A run that ends with such a link. |
| `TraceWitness.AssertionMayFail` | arch/riscv/riscv_traces.c:150-176 | Its continuation, in which that link makes the assertion fail. |
| `TracePatches.FitsIff` | arch/riscv/riscv_traces.c:61-68 | A rewritten jump takes no more room than before exactly if a JAL reaches the new target or did not reach the old one. |
| `TracePatches.OverwritesNextStub` | arch/riscv/riscv_traces.c:114-117 | Rewriting an exit stub overwrites the stub behind it exactly if it does not fit its new target. |
| `TracePatches.StubMayNotFit` | arch/riscv/riscv_traces.c:114-117 | A stub for the last block that can start a fragment, and a later trace, for which this happens. |
| `TraceWitness.StubOverwritten` | arch/riscv/riscv_traces.c:114-117 | A run without any flush at whose end an installed trace branches to a stub that has been overwritten. |
| `TraceMeaning.CommitMeans` | arch/riscv/riscv_traces.c:194-226 | Committing a finished trace: each fragment leaves through a stub for one successor and goes on with the other, the trace is published under its head's address, and the links of its stubs are recorded. |
| `TraceMeaning.InstallMeans` | arch/riscv/riscv_traces.c:119-232 | Installing a finished trace, or one that a flush has discarded, keeps all publications right and, with a clean history, all installed code; without a flush no translation is lost. |
| `TracePatches.InstallIntactIff` | arch/riscv/riscv_traces.c:119-232 | Installing keeps the history clean if and only if the guard holds of the state in which it starts. |
| `TracePatches.InstallRight` | arch/riscv/riscv_traces.c:119-232 | If the guard holds, the trace is published, all installed traces, the new one included, leave each fragment for where the guest goes, and so do all linked blocks. |
| `TraceStanding.InstallGuardIff` | arch/riscv/riscv_traces.c:119-192 | With a clean history that guard can be evaluated before `install_trace` starts. |
| `TraceStanding.InstallKeepsStanding` | arch/riscv/riscv_traces.c:119-232 | If nothing is harmed in the loop, all installed traces are right after `install_trace`, the new one included. |
| `TraceStanding.CanInstallHarmless` | arch/riscv/riscv_traces.c:119-192 | The guard that keeps the history clean is sufficient for that. |
| `TraceTranslation.TakeExitMeans` | arch/riscv/riscv_traces.c:234-253 | The recorded exit leaves for a translation of the successor not taken, and the trace goes on with the one taken. |
| `TraceTranslation.EarlyExitMeans` | arch/riscv/riscv_traces.c:284-298 | A trace closed by a jump to a translation of the wanted address is finished; what is returned translates that address, also after a flush. |
| `TraceTranslation.ExtendMeans` | arch/riscv/riscv_traces.c:486-545 | Appended, rolled back, installed or re-resolved: execution goes on with a translation of the wanted address, if need be through the temporary jump. |
| `TraceTranslation.CreateMeans` | arch/riscv/riscv_traces.c:300-372 | Starting a trace returns a translation of the hot block's source. |
| `TraceTranslation.TraceMeans` | arch/riscv/riscv_traces.c:414-545 | `trace_dispatcher` called for a successor of the open exit returns a translation of it and keeps the cache and the trace right. |
| `TraceTranslation.DispatcherMeans` | dispatcher.c:47-99 | `dispatcher` returns a translation of its target, and every jump it patches in leads from the block to a translation of one of its successors. |
| `TraceHistory.ApplyIntactIff` | arch/riscv/riscv_traces.c:414-545 | A call keeps the history clean if and only if it installs no trace or the guard holds where it reaches `install_trace`. |
| `TraceHistory.RunIntactIff` | arch/riscv/riscv_traces.c:300-545 | So does a run, if and only if the guard holds in each of its installations. |
| `TraceHistory.EveryRunTranslates` | arch/riscv/riscv_traces.c:300-545 | In every run each published address and whatever the next call returns or patches translates the right guest address; and if the guard has held in each installation, all installed traces and linked blocks go where the guest goes, no fragment is overwritten and no assertion on links has failed. |
| `TraceStanding.ApplyStandsIff` | arch/riscv/riscv_traces.c:414-545 | Whatever has happened before, a call's installation harms nothing if and only if the guard holds in each iteration, and then installed traces are right after the call; calls that install nothing never harm them. |
| `TraceStanding.EveryRunStandsIff` | arch/riscv/riscv_traces.c:300-545 | In every run no installation harms an installed trace or the one being installed if and only if no jump is written over anything needed; then all installed traces go where the guest goes and no fragment is overwritten. |
| `TraceWitness.OverwriteHarms` | arch/riscv/riscv_traces.c:114-117 | The run that loses a stub breaks this guard. |
| `TraceBuilder.ThreadData.FlushCodeCache` | dbm.c:104-138 | The flush in place equals the model's flush: table, exit types, `actual_id` and link lists of the blocks are reset, the list of the entry past the last block is not. |
| `TraceBuilder.ThreadData.AllocateBb` | dbm.c:195-203 | Takes the next free block, flushing first if fewer than 512 are left. |
| `TraceBuilder.ThreadData.TakeOverflow` | dbm.c:205-215 | The overflow blocks follow the fragment's block one by one and are marked with its id. |
| `TraceBuilder.ThreadData.ScanBlock` | dbm.c:269-333 | Allocates, publishes and emits a block exactly as the model does. |
| `TraceBuilder.ThreadData.ActiveTraceLookupOrScan` | traces_common.c:25-31 | Returns the trace in progress for its own head, and looks everything else up. |
| `TraceBuilder.ThreadData.TraceExitStubsFit` | arch/riscv/riscv_traces.c:85-98 | True exactly if every recorded exit reaches its stub in a grid of 20 bytes. |
| `TraceBuilder.ThreadData.SetUpPlaceholder` | arch/riscv/riscv_traces.c:234-253 | Records the exit for the successor not followed; more than 21 records fail the assertion. |
| `TraceBuilder.ThreadData.ScanFragment` | arch/riscv/riscv_traces.c:255-282 | Emits one fragment at the write pointer and reports its length, or 0 at the size cut-off. |
| `TraceBuilder.ThreadData.UpdateLink` | arch/riscv/riscv_traces.c:130-187 | One incoming link: which jump or block exit is rewritten to what, which words that destroys, what is looked up, scanned and recorded for it, and whether the assertions hold. |
| `TraceBuilder.ThreadData.Install` | arch/riscv/riscv_traces.c:119-232 | Rewrites the incoming links, gives up after a flush, and otherwise commits. |
| `TraceBuilder.ThreadData.WriteJumps` | arch/riscv/riscv_traces.c:212-226 | Writes the stubs one behind the other, records their links and fails exactly if some branch does not reach its stub. |
| `TraceBuilder.ThreadData.StartTrace` | arch/riscv/riscv_traces.c:300-372 | `create_trace` in place. |
| `TraceBuilder.ThreadData.AppendFragment` | arch/riscv/riscv_traces.c:486-545 | Appends, undoes or installs a fragment as the model does. |
| `TraceBuilder.ThreadData.DispatchTrace` | arch/riscv/riscv_traces.c:414-545 | `trace_dispatcher` in place. |
| `TraceBuilder.ThreadData.DispatchBlock` | dispatcher.c:47-99 | `dispatcher` for a block's exit: what the exit becomes, the patches and the links recorded for them. |
| `TraceBuilder.ThreadData.Handle` | dispatcher.c:47-99 | Any call from the code cache in any reachable state: the assertions hold, all results are live, and the state stays reachable. |
| `FragmentIndex.AddrToFragmentId` | dbm.c:591-637 | For an address in the trace area the last fragment starting at or before it, for an address in an allocated block the fragment that spans it. |
| `LinkPool.PoolRecord` | dbm.c:640-653 | Moving a cell from the free list to a block's list keeps all lists well formed and disjoint. |
| `LinkPool.ListAcyclic` | common.c:122-142 | No list visits a cell twice. |
| `LinkPool.ListsDisjoint` | common.c:122-142 | Two lists share no cell. |
| `LinkPool.Links.PoolInit` | common.c:122-132 | The free list holds every cell of the pool. |
| `LinkPool.Links.Reset` | dbm.c:117-137 | After a flush every block's list is empty and the pool is full again; the entry past the last block keeps its stale list. |
| `LinkPool.Links.RecordLink` | dbm.c:640-653 | Puts the link in front of its block's list and changes no other list; fails exactly on an empty pool. |
| `LinkPool.Links.Replay` | dbm.c:117-137 | After any sequence of links and flushes each list holds the links since the last flush, newest first. |
| `Trampolines.FindSlot` | arch/riscv/dispatcher_riscv.c:100-133 | The eligible first-unused slot nearest to the source, or none. |
| `Trampolines.GreedyOptimal` | arch/riscv/dispatcher_riscv.c:135-184 | The greedy search succeeds exactly if some chain within eight slots exists, and uses the fewest slots. |
| `Trampolines.FindChain` | arch/riscv/dispatcher_riscv.c:135-165 | The search loop computes the greedy chain. |
| `Trampolines.WriteChain` | arch/riscv/dispatcher_riscv.c:166-184 | The JALs written in the slots and at the source. |
| `Trampolines.EarlierLinksIntact` | arch/riscv/dispatcher_riscv.c:166-184 | Chains made earlier still lead to their targets. |
| `Trampolines.Cache.TryJump` | arch/riscv/dispatcher_riscv.c:135-184 | On success following the JALs from the source arrives at the target through fresh slots, as few as possible, and all earlier chains stay; within the distance limit it fails only if no chain of eight slots exists. |
| `RiscvConstants.RunEmit64` | arch/riscv/scanner_riscv.c:257-310 | The emitted sequence leaves exactly the requested value in the register, for all 2^64 values and whatever it held. |
| `RiscvConstants.Emit64Encodable` | arch/riscv/scanner_riscv.c:257-310 | All immediates and shift amounts fit their fields. |
| `RiscvConstants.CopySizeBound` | arch/riscv/scanner_riscv.c:257-310 | At most 26 bytes are emitted, 20 up to 2^52 and 8 for 32-bit values. |
| `RiscvConstants.Emitter.CopyToReg64` | arch/riscv/scanner_riscv.c:291-310 | The recursive emitter appends that sequence; it terminates. |
| `RiscvConstants.Emitter.CopyToReg32` | arch/riscv/scanner_riscv.c:257-289 | The 32-bit emitter appends LUI and ADDIW as needed. |
| `RiscvImmediates.JalRoundTripIff` | arch/riscv/scanner_riscv.c:376-388 | Decoding a JAL immediate gives the offset back exactly when the encoder accepts it. |
| `RiscvImmediates.BranchRoundTripIff` | arch/riscv/scanner_riscv.c:114-126 | The same for branches. |
| `RiscvMachine.FarJumpExactIff` | arch/riscv/scanner_riscv.c:363-374 | AUIPC with JALR reaches its target exactly for offsets up to 2^31 - 0x801, and changes one register. |
| `RiscvMachine.FarJumpMisses` | arch/riscv/scanner_riscv.c:363-374 | The largest accepted even offset lands 4 GiB too low. |
| `RiscvMachine.PopEffect` | arch/riscv/scanner_riscv.c:186-237 | Popping what was pushed restores a0, a1 and sp. |
| `RiscvMachine.PushEffect` | arch/riscv/scanner_riscv.c:158-184 | A push stores the registers below the stack pointer and touches nothing above it. |
| `RiscvExits.DispatchSelects` | arch/riscv/scanner_riscv.c:715-780 | From any registers the emitted code calls the dispatcher for the successor the branch selects, with the block id, also if a1 or sp is compared. |
| `RiscvExits.FarLinkArrives` | arch/riscv/dispatcher_riscv.c:198-219 | Push, AUIPC and JALR arrive behind the translation's register restore with all registers unchanged. |
| `RiscvExits.LoadRefines` | arch/riscv/scanner_riscv.c:257-310 | The single load that stands for a constant in executed exit code has the effect and the length of the emitted sequence. |
| `ExitLinking.LinkArrives` | arch/riscv/dispatcher_riscv.c:198-219 | So do the direct and the trampoline form. |
| `ExitLinking.DirectArrives` | arch/riscv/dispatcher_riscv.c:221-267 | A linked successor is reached without the dispatcher. |
| `ExitLinking.ExitSelects` | arch/riscv/dispatcher_riscv.c:221-267 | Whatever an exit has become, it leads to a translation of the selected successor with all registers unchanged, or to the dispatcher with that successor's address. |
| `LinkedCache.ExitCodeOk` | arch/riscv/scanner_riscv.c:715-780 | Freshly emitted exit code is an exit with nothing linked. |
| `LinkedCache.SecondDispatch` | arch/riscv/dispatcher_riscv.c:221-231 | While a successor is unlinked the dispatcher code is intact, and on a second dispatch both successors are translated. |
| `LinkedCache.SecondArmNeverFires` | arch/riscv/dispatcher_riscv.c:239-246 | The middle arm of `riscv_link_branch` is dead code. |
| `LinkedCache.Linker.LinkTo` | arch/riscv/dispatcher_riscv.c:187-219 | Writes one JAL if that reaches, a shortest trampoline chain if there is one, and push with a far jump otherwise, in exactly 20 bytes; outside them only free trampoline slots change; the link is recorded. |
| `LinkedCache.Linker.LinkBranch` | arch/riscv/dispatcher_riscv.c:221-267 | Afterwards every translated successor is linked and recorded, and no other exit loses a link. |
| `LinkedCache.Linker.LinkJump` | arch/riscv/dispatcher_riscv.c:278-286 | The same for an unconditional jump. |
| `LinkedCache.Linker.AddSpare` | arch/riscv/scanner_riscv.c:1485-1490 | Offering the room behind a scanned block to trampolines disturbs no exit and no link. |
| `LinkedCache.SuccessorsRecorded` | arch/riscv/dispatcher_riscv.c:221-267 | For every successor that is linked a link from inside the exit is recorded for its translation's block, although one arm records the address behind the register restore. |
| `LinkedCache.Linker.AddExit` | arch/riscv/scanner_riscv.c:715-780 | Emitting an exit disturbs no translation and no other exit. |
| `LinkedCache.Linker.Executes` | arch/riscv/dispatcher_riscv.c:221-288 | In every state reached by flushes, emissions, new spare areas, publications and links, every exit selects correctly. |
| `A64Exits.DispatchCodeExactIff` | arch/aarch64/scanner_a64.c:178-308 | The emitted region asks for the selected successor in every state exactly when its condition is not AL or NV. |
| `A64Exits.RegionSelects` | arch/aarch64/dispatcher_aarch64.c:60-127 | A patched region transfers to the selected successor, or to the dispatcher with its address if that is not linked. |
| `A64Exits.EmittedIsFresh` | arch/aarch64/scanner_a64.c:178-308 | The emitted words are a region with nothing linked. |
| `A64Exits.FirstDispatch` | arch/aarch64/dispatcher_aarch64.c:90-115 | Words 0 and 1 select and reach the dispatched successor; word 2 still starts the dispatcher code. |
| `A64Exits.SecondDispatch` | arch/aarch64/dispatcher_aarch64.c:107-121 | Patching word 2 links the other successor and keeps the first. |
| `A64Exits.Patcher.Dispatch` | arch/aarch64/dispatcher_aarch64.c:60-127 | Afterwards every translated successor is linked; a second dispatch concerns the other successor and writes only word 2. |
| `A64Exits.Patcher.AddExit` | arch/aarch64/scanner_a64.c:178-308 | Emitting a region leaves it unlinked and every other region and link as it was. |
| `A64Exits.Patcher.Flush` | dbm.c:104-138 | Afterwards no region and no translation is left, and every status is unlinked. |
| `A64Exits.Patcher.Executes` | arch/aarch64/dispatcher_aarch64.c:60-127 | After any sequence of emissions, publications, dispatches and flushes every region selects correctly. |
| `ScanSpace.EmitFits` | arch/riscv/scanner_riscv.c:985-1478 | The longest translation of every instruction class fits its reserve of 56, 152 or 196 bytes. |
| `ScanSpace.PrologueFits` | arch/riscv/scanner_riscv.c:957-975 | The code in front of a block takes at most 54 bytes. |
| `ScanSpace.Scanner.CheckFreeSpace` | arch/riscv/scanner_riscv.c:782-798 | Afterwards the reserve lies in front of `data_p`; an overflow block always follows directly, so no jump to it is emitted. |
| `ScanSpace.Scanner.Scan` | arch/riscv/scanner_riscv.c:928-1493 | On every instruction stream `write_p` stays below `data_p` inside contiguous blocks, and the cache lasts for every fragment of up to 512 overflow blocks. |
| `PieDecoder.SelectBitLoop` | pie/generate_decoder.rb:52-77 | The bit fixed by the most patterns, the lowest one on ties. |
| `PieDecoder.WalkIsVerdict` | pie/generate_decoder.rb:79-149 | Walking the tree with any word gives a matching pattern with the most fixed bits, the earliest on ties, and INVALID when nothing matches. |
| `PieDecoder.GenerationFailsIff` | pie/generate_decoder.rb:79-149 | Building the tree of a mixed table crashes exactly if two patterns clash across the halfword border. |
| `PieDecoder.ClashingTableAborts` | pie/generate_decoder.rb:79-149 | A table of two instructions whose generation crashes. |
| `PieDecoder.BuildTreeOrdered` | pie/generate_decoder.rb:79-149 | No path tests a first-halfword bit after a second-halfword bit. |
| `PieDecoder.MixedDecoderCorrect` | pie/generate_decoder.rb:157-182 | The code generated for a mixed table advances at most once, tests only bits of the loaded halfword, and returns the verdict. |
| `PieDecoder.FixedDecoderCorrect` | pie/generate_decoder.rb:157-182 | The code for a table of one width never advances and returns the verdict. |
| `PieConditions.SetFieldInPlace` | pie/generate_decoder.rb:188-194 | Overwrites the occurrences of a field with the bits of a value, most significant first. |
| `PieConditions.SetFieldMatches` | pie/generate_decoder.rb:184-194 | The result matches exactly the words that hold the value in that field. |
| `PieConditions.ExpansionExact` | pie/generate_decoder.rb:196-240 | The expansion of a conditional pattern matches exactly the words that meet its conditions. |
| `PieConditions.MeetsAll` | pie/generate_decoder.rb:196-240 | If each condition admits some value, that means all conditions. |
| `PieConditions.UnsatisfiableConditionIsIgnored` | pie/generate_decoder.rb:196-240 | A condition that admits no value is dropped: a one-bit example. |
| `PieConditions.FlattenExact` | pie/generate_decoder.rb:242-262 | The flattened table matches under a name exactly what the instructions of that name accept. |
| `PieConditions.DecoderSound` | pie/generate_decoder.rb:242-290 | The whole generated decoder never returns an instruction that rejects the word, and returns INVALID exactly if none accepts it or only wholly open patterns compete. |
| `PieEncoder.DecodeAfterEncode` | pie/generate_field-decoder.rb:40-65 | Decoding an encoded field gives the argument modulo its width. |
| `PieEncoder.EncodeMatches` | pie/generate_encoder.rb:47-77 | The encoded word matches its pattern. |
| `PieEncoder.EncodeAfterDecode` | pie/generate_encoder.rb:47-77 | Encoding the decoded fields gives back every matching word. |
| `PieEncoder.FaithfulIffContiguous` | pie/generate_common.rb:125-132 | The pair works for all arguments exactly if every field is contiguous. |
| `PieEncoder.LoadAfterStore` | pie/generate_encoder.rb:62-77 | The field decoder loads what the encoder stored, in either halfword order. |
| `PieEncoder.SwapPreservesMatch` | pie/generate_common.rb:31-34 | Swapping the halves of pattern and word keeps the match. |
| `PieEncoder.StoredInstructionIsDecoded` | pie/generate_encoder.rb:47-77 | What the encoder stores the tree decoder recognises, with and without halfword swap. |
| `CodeCacheTable.Lookup` | common.c:67-84 | `hash_lookup` returns the last value stored for a nonzero key. |
| `CodeCacheTable.Add` | common.c:86-109 | `hash_add` stores a pair, and runs into the reserved slot exactly as described. |
| `CodeCacheTable.StartsAtHomeSlot` | common.h:26-50 | The emitted code starts at 16 times the table index of its key. |
| `CodeCacheTable.A64MaskIsRemainder` | arch/aarch64/scanner_a64.c:507-541 | The logical immediate keeps exactly the index bits. |
| `CodeCacheTable.EmittedLookup` | arch/riscv/scanner_riscv.c:530-567 | The emitted loop, which has no bound check, stays in the table and finds exactly what is stored. |
| `CodeCacheTable.Table.AddAll` | common.c:86-109 | After any sequence of additions the table holds the last value of every nonzero key, up to the addition that stops the process because all slots from its home slot on are taken. |
| `CodeCacheTable.Table.LookupBothWays` | common.c:67-84 | The C lookup and the emitted lookup agree. |
| `PluginTable.ProbeFinds` | api/hash_table.c:117-130 | A probe stops on the key exactly if it is in the table. |
| `PluginTable.ProbeEnds` | api/hash_table.c:83-108 | Some slot of every probe sequence is free, so probing ends. |
| `PluginTable.HomeIsMasked` | api/hash_table.c:83-90 | Shift and mask give the home slot. |
| `PluginTable.Table.Init` | api/hash_table.c:27-49 | The smallest power of two that is large enough, empty; parameters out of range are refused. |
| `PluginTable.Table.Get` | api/hash_table.c:117-130 | Finds exactly the stored value. |
| `PluginTable.Table.Add` | api/hash_table.c:83-108 | Adds the pair, resizing on the way if needed, or reports a full table. |
| `PluginTable.Table.Resize` | api/hash_table.c:61-81 | Keeps all pairs in a table at least twice as large; the recursion with `Add` ends. |
| `PluginTable.Table.AddAll` | api/hash_table.c:61-108 | After any sequence of adds the table is the map with the last value of every nonzero key. |
| `IntervalMap.UnionIff` | common.c:199-245 | Adding a range gives the exact union if and only if every lost entry lies inside it. |
| `IntervalMap.NothingLostIff` | common.c:199-245 | Nothing is lost if and only if overlapped entries plus highest overlapped index are at most the entry count. |
| `IntervalMap.BridgingAddLosesARange` | common.c:199-245 | Two ranges and a bridge that loses one of them. |
| `IntervalMap.MergeOutcome` | common.c:199-245 | After a merge the entries are separate and cover the new range and every entry that was not lost. |
| `IntervalMap.NewTailCovers` | common.c:289-333 | One step of a deletion removes exactly the range from its entry. |
| `IntervalMap.Map.DeleteEntry` | common.c:154-167 | Swap-deletion; the closed descriptors are those of entries that have one. |
| `IntervalMap.Map.AddEntry` | common.c:169-181 | Appends if there is room and the range is not empty. |
| `IntervalMap.Map.SearchByAddr` | common.c:268-287 | Finds an entry that holds the address exactly if the map covers it. |
| `IntervalMap.Map.Delete` | common.c:289-333 | Removes exactly the range from the covered set, for every map; aborts exactly on a right straddle or a full map. |
| `IntervalMap.DeleteMayAbort` | common.c:289-333 | A right straddle and a split in a full map. |
| `IntervalMap.DeleteMayInvert` | common.c:289-333 | A left straddle that leaves an inverted entry. |
| `IntervalMap.Map.Add` | common.c:199-245 | Adds the range, with the outcome described by the lemmas above, and keeps open descriptors equal to those stored. |
| `XtraceEvents.TrailProperties` | plugins/xtrace.c:1621-1729 | With timestamps on, every thread's first instruction carries a sample. |
| `XtraceLog.BlockRoundTrip` | plugins/xtrace.c:1557-1600 | A flushed block passes the reader's checks and gives back its events, compressed or not. |
| `XtraceLog.LogIsRecorded` | plugins/xtrace.c:1557-1729 | In every interleaving each thread's blocks and buffer hold exactly what it recorded, in order. |
| `XtraceLog.ReaderReplays` | plugins/xtrace.c:2098-2232 | The reader accepts the file of every run with thread numbers up to 2^20, and no other, and replays each thread's events in order. |
| `XtraceLog.NeverSplits` | plugins/xtrace.c:1627-1633 | Every block of a thread that records at most a load and a store per instruction starts with an instruction. |
| `XtraceFile.HeaderAcceptedIff` | plugins/xtrace.c:2106-2137 | A log's header is accepted exactly on machines with the writer's byte order, pointer size and architecture (or none known), whatever the options. |
| `XtraceFile.TruncatedIsRejected` | plugins/xtrace.c:2139-2151 | A log that ends before its EOF block is never accepted. |
| `XtraceFile.FileReplays` | plugins/xtrace.c:2098-2232 | Header, blocks and EOF block as written are accepted on such a machine, and the reader finds each thread's events in order. |
| `XtraceText.DecoderAcceptsRuns` | plugins/xtrace.c:2019-2096 | The decoder prints every such file to the end, with timestamps on or off. |
| `XtraceText.SameTextIff` | plugins/xtrace.c:1621-1729 | For one thread without timestamps the decoded lines are those of text mode if and only if all sizes and instruction numbers fit 32 bits. |
| `XtraceText.SameValue` | plugins/xtrace.c:1983-2010 | The value decoded from an event is the one text mode reads from memory. |
| `XtraceStream.Recorder.RecordInst` | plugins/xtrace.c:1621-1650 | Records an instruction in place, flushing first if its accesses might not fit. |
| `XtraceStream.Recorder.RecordAccessPre` | plugins/xtrace.c:1676-1704 | Records a load, remembers a store. |
| `XtraceStream.Recorder.RecordStorePost` | plugins/xtrace.c:1706-1729 | Records the remembered store. |
| `XtraceStream.Recorder.FlushThread` | plugins/xtrace.c:1557-1600 | Moves the buffer into a block of the file. |
| `XtraceStream.DecodeStream` | plugins/xtrace.c:2098-2232 | One pass over the file, header and EOF block included, accepts and prints exactly what reading and decoding it in two steps does. |
| `XtraceStream.ClosedLogDecodes` | plugins/xtrace.c:2098-2232 | The closed log of every run decodes, with the options taken from its header, to the lines its events stand for. |

## Left out

- `LinkedCache.Linker.LinkBranch`: stated for calls made because the exit asked for a successor that is not linked yet, which is how the dispatcher comes to be called; a call out of nowhere could overwrite a link.
- `CodeCacheTable.EmittedLookup`: stated for immediate 0; `riscv_inline_hash_lookup` adds a nonzero immediate to the jump register itself.
- `TraceBuilder.ThreadData.UpdateLink`: the assertions that jumps and branches inside the code cache reach their targets, which are at most 16 MiB away.
- Where the code cache is mapped: the environment says whether a jump reaches the address 2^32 - 1, which stands for an absent translation.
- `XtraceStream.DecodeStream`: headers with cycle timestamps, which the recorder never writes.
- `XtraceText.SameTextIff`: timestamps are off; in text mode every line reads the clock again, in the log one sample serves 256 instructions.
- `A64Exits.RegionSelects`: needs a condition that can fail, since `DispatchCodeExactIff` shows the code to be wrong for the two others.
- Per-instruction copying in the scanners: every instruction is translated or copied by a fixed case, and only the sizes matter here.
- The Arm (32-bit and 64-bit) trace builder in traces.c: the same shape as the RISC-V one without its later flush checks.
- Plugin callbacks, watched functions, stub blocks and return-target prediction: foreign code or optional builds.
- Signals, system calls, ELF loading, mapping of memory, thread creation and exit, locks, cache maintenance.
- The loops marked `while(1)` after an error: the run ends there.
- Size and exit address of a trace fragment: chosen freely by the environment, with room for the exit code behind the exit address.
- Encodings of instructions other than the scattered branch and JAL immediates: instructions carry their operands.
- The sequence that loads a constant is one instruction in the executed exit code; `RiscvExits.LoadRefines` shows that it stands for the sequence.
- Memory other than stack slots, and overlapping stack slots: the executed code only pushes and pops whole doublewords.
- The range of B and B.cond on AArch64: the code cache is assumed to lie within it.
- Wrap-around of addresses at 2^64 in the hash table and allocation failure: table sizes are far below.
- `hash_delete` and `mambo_ht_delete_nolock`: they have no behaviour.
- Zstandard: any compressor that decompresses to what was compressed, or gives up.
- printf formatting: a line is the tuple of values that are printed.
- Failing writes to the trace file.
