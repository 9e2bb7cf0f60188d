# Verified models of the RISC-V ISA simulator

A Dafny model of the parts of the RISC-V ISA simulator and of its bundled flattened
device tree library whose behaviour is hardest to get right, with proofs of what they
promise. `dafny verify dfyconfig.toml` checks the whole project.

## What is modelled

**The flattened device tree (`fdt/`).** A blob is a byte buffer and the header fields. Its
structure block is read as tokens, the tokens without no-ops as items, and the items as a
tree (`FdtFormat`, `FdtTree`); `Denotes(b, toks, t)` says that blob `b` holds tree `t`. Every
function of the library appears twice: as a function on the blob that takes the same
branches as the C code (`FdtRead`, `FdtEdit`, `FdtInPlace`, `FdtBuild`, `FdtOverlay`,
`FdtRenumber`, `FdtReferences`, `FdtFragments`), and as a method that works in place on a
`class Fdt` with an array and header fields, proved to compute that function
(`FdtWalkers`, `FdtReaders`, `FdtEditors`, `FdtSwWriter`, `FdtOverlayWriter`,
`FdtOverlayApplier`, `FdtPathWriter`, `FdtMove`). The theorems then say what the functions
mean for the tree.

| part | files |
|---|---|
| bytes, blocks, tokens, trees | `Bytes`, `FdtFormat`, `FdtRead`, `FdtTree` |
| editing | `FdtEdit`, `FdtEditBlocks`, `FdtEditTheorems`, `FdtEditResults`, `FdtRoom`, `FdtInPlace`, `FdtEditors` |
| building and checking | `FdtBuild`, `FdtCheck`, `FdtLife`, `FdtSize`, `FdtSwWriter` |
| reading and paths | `FdtWalkers`, `FdtReaders`, `FdtPath`, `FdtPathWriter`, `FdtAlias` |
| overlays | `FdtOverlay`, `FdtMerge`, `FdtUnion`, `FdtOverlayWriter`, `FdtPhandles`, `FdtFixups`, `FdtShape`, `FdtRenumber`, `FdtReferences`, `FdtWild`, `FdtRenumbering`, `FdtFragments`, `FdtOverlayApplier` |
| moves | `FdtMove` |

**Physical memory protection (`riscv/csrs.cc`).** Address matching on 64-bit words
(`PmpMatch`) and the lock rules over runs of register writes (`PmpLock`), after section 3.7
of the RISC-V Privileged Specification and Smepmp.

**The debug module (`riscv/debug_module.cc`).** The program generator with a small hart
that runs its words (`DebugHart`, `DebugProgram`), the busy/go/halted protocol as a state
machine over events (`DebugModule`), and the device object itself (`DebugDevice`).

**The step loop and instruction cache (`riscv/execute.cc`, `riscv/mmu.h`).** `StepLoop`:
execution and fetch are functions of an abstract machine state; a run is lawful when it
never fetches from an address whose instruction has changed since the last flush.

**Cache simulator, chunked and sparse memory, wide arithmetic, disassembler index.**
`CacheModel` and `CacheSim`, `Memif`, `Arith`, `Disasm`.

## Properties that do not hold as one would wish

Six promises are kept by the code only under a condition. Each has an input that shows the
failure and the exact condition.

- **fdt_check_full accepts only well-formed blobs.** A property length near 2^32 wraps the
  offset in fdt_next_tag (`fdt/fdt.c:161`), and the walk goes on inside the property.
  `FdtCheck.ShortcutAccepted` is such a block; by `FdtCheck.CheckFullTheorem` an accepted
  blob is well-formed if and only if no such length was met.
- **A partial set refuses what does not fit the value.** `idx + len` is a 32-bit sum
  (`fdt/fdt_wip.c:25`). `FdtInPlace.SetPartialTheorem` gives the refusal exactly, and calls
  the write outside the value WILD. `FdtWild.FarSet` is the input, for any property;
  `FdtWild.FarFixup` and `FdtWild.FarExists` show an overlay whose fixups cause it.
- **Merging an overlay is the union of the trees.** A name without unit address also
  answers for `name@unit` (`fdt/fdt_ro.c:13-32`). `FdtUnion.AmbiguousMerge` loses a node;
  `FdtUnion.MergeUnionIff` is the exact condition on the names.
- **fdt_pack keeps the blocks.** `FdtMove.CrowdedLoses` is a blob that the probe accepts and
  packing damages; `FdtMove.PackSafeIff` is the exact condition on the layout, and
  `FdtMove.PackInsideIff` says when packing stays inside the buffer at all.
- **subset_match is exact.** For a TOR entry whose base is not below its top it can call a
  page mixed that it does not touch: `PmpMatch.EmptyRangeCalledMixed`. `PmpMatch.SubsetExact`
  is the exact condition.
- **An accepted register transfer moves the value.** Not for dscratch0, which the program
  itself uses: `DebugProgram.ScratchClash`. `DebugProgram.CarriesIff` says that it is the
  only such register.

## Model

| member | source | states |
|---|---|---|
| `FdtEditResults.SetPropTheorem` | riscv-isa-sim/fdt/fdt_rw.c:170-274 | On a blob that denotes a tree, fdt_setprop either makes it denote exactly that tree with this one value set (added in front, or replaced where it is), every other node, name and value and the block order kept, or fails with -NOSPACE and leaves the denoted tree and every node offset as they were, also when the new string has to be rolled back |
| `FdtEditResults.AppendPropTheorem` | riscv-isa-sim/fdt/fdt_rw.c:276-301 | fdt_appendprop puts the new bytes after the old value, or adds the property, and changes nothing else; its only failure is -NOSPACE, which changes nothing |
| `FdtEditResults.DelPropTheorem` | riscv-isa-sim/fdt/fdt_rw.c:303-316 | fdt_delprop succeeds if and only if the node has the property, and then exactly that property is gone; otherwise -NOTFOUND and the very same blob |
| `FdtEditResults.AddSubnodeTheorem` | riscv-isa-sim/fdt/fdt_rw.c:318-357 | fdt_add_subnode gives -EXISTS exactly when some child answers to the name; else the node gains an empty first child whose offset is the result, or -NOSPACE and nothing changes |
| `FdtEditResults.DelNodeTheorem` | riscv-isa-sim/fdt/fdt_rw.c:364-376 | fdt_del_node always succeeds below the root and removes exactly the subtree; no token in front of it changes, so offsets in front of it stay valid |
| `FdtEditResults.NopPropTheorem` | riscv-isa-sim/fdt/fdt_wip.c:51-71 | fdt_nop_property gives the tree that fdt_delprop gives and changes no byte outside the property |
| `FdtEditResults.NopNodeTheorem` | riscv-isa-sim/fdt/fdt_wip.c:73-94 | fdt_nop_node gives the tree that fdt_del_node gives and changes no byte outside the node |
| `FdtRoom.SetPropRoom` | riscv-isa-sim/fdt/fdt_rw.c:52-65 | fdt_setprop succeeds if and only if the bytes that the edit needs, found from the node and the strings block alone, are at most the free bytes behind the data |
| `FdtRoom.AppendPropRoom` | riscv-isa-sim/fdt/fdt_rw.c:276-301 | The same exact condition for fdt_appendprop |
| `FdtRoom.AddSubnodeRoom` | riscv-isa-sim/fdt/fdt_rw.c:318-357 | The same exact condition for fdt_add_subnode of a new name: eight bytes and the padded name |
| `FdtInPlace.SetPartialTheorem` | riscv-isa-sim/fdt/fdt_wip.c:13-31 | The partial set overwrites exactly the bytes at idx of the value when they lie inside it; beyond the value it gives -NOSPACE exactly when the 32-bit sum idx + len still shows that, and otherwise it writes outside the value, the outcome WILD |
| `FdtInPlace.SetInPlaceTheorem` | riscv-isa-sim/fdt/fdt_wip.c:33-49 | fdt_setprop_inplace is fdt_setprop for a value of the same length and refuses every other length without a change |
| `FdtBuffer.Memmove` | riscv-isa-sim/fdt/fdt_rw.c:60-63 | The overlapping move, run away from the overlap, copies the bytes that were there before |
| `FdtEditors.Splice` | riscv-isa-sim/fdt/fdt_rw.c:52-65 | The tail of the data moves by newlen - oldlen, or an error and no byte changes |
| `FdtEditors.AddString` | riscv-isa-sim/fdt/fdt_rw.c:115-139 | An existing string, or a string suffix, is shared; else the string is appended at the end of the strings block |
| `FdtEditors.PlaceProperty` | riscv-isa-sim/fdt/fdt_rw.c:243-259 | The property resized, or added with the string rolled back when it does not fit: state and result of the specification that SetPropTheorem is about |
| `FdtEditors.SetProperty` | riscv-isa-sim/fdt/fdt_rw.c:261-274 | The in-place code computes the blob and the error that SetPropTheorem is about |
| `FdtEditors.AppendProperty` | riscv-isa-sim/fdt/fdt_rw.c:276-301 | The same for AppendPropTheorem |
| `FdtEditors.DeleteProperty` | riscv-isa-sim/fdt/fdt_rw.c:303-316 | The same for DelPropTheorem |
| `FdtEditors.InsertSubnode` | riscv-isa-sim/fdt/fdt_rw.c:318-357 | The same for AddSubnodeTheorem |
| `FdtEditors.DeleteNode` | riscv-isa-sim/fdt/fdt_rw.c:364-376 | The same for DelNodeTheorem |
| `FdtEditors.NopProperty` | riscv-isa-sim/fdt/fdt_wip.c:59-71 | The same for NopPropTheorem |
| `FdtEditors.NopNodeOut` | riscv-isa-sim/fdt/fdt_wip.c:83-94 | The same for NopNodeTheorem |
| `FdtBuild.FinishTheorem` | riscv-isa-sim/fdt/fdt_sw.c:329-376 | fdt_finish relocates the string table that grew downwards: afterwards every name offset reads the name that the calls gave, and the blob passes the read-write probe; or -NOSPACE and no change |
| `FdtLife.BuildTheorem` | riscv-isa-sim/fdt/fdt_sw.c:105-376 | Whatever calls are made, if all of them return 0 the finished blob holds exactly those calls in order, with their names and values, and exactly the given reservations |
| `FdtLife.TreeRoundTrip` | riscv-isa-sim/fdt/fdt_sw.c:211-376 | For every tree, if the writer takes it without an error, the finished blob denotes that tree and fdt_check_full accepts it |
| `FdtSize.CallsFit` | riscv-isa-sim/fdt/fdt_sw.c:90-103 | A run of calls returns 0 throughout if and only if the buffer holds the bytes that the calls need, shared names counted once |
| `FdtSize.BuildIff` | riscv-isa-sim/fdt/fdt_sw.c:105-376 | The writer takes reservations and calls, from the creation to the end, if and only if the flags are known and the buffer holds exactly their bytes |
| `FdtSize.TreeFits` | riscv-isa-sim/fdt/fdt_sw.c:105-376 | So the round trip holds for every tree and every buffer that is large enough for it |
| `FdtTree.SerUnique` | riscv-isa-sim/fdt/fdt.c:131-182 | Two trees with the same sequence of begin, property and end items are equal: the tags of a structure block determine its tree |
| `FdtSwWriter.CreateTree` | riscv-isa-sim/fdt/fdt_sw.c:105-137 | A cleared buffer in the reservation state, or the error for a small buffer or unknown flags |
| `FdtSwWriter.AddReserve` | riscv-isa-sim/fdt/fdt_sw.c:180-198 | One more reservation entry, refused in any other state or without room |
| `FdtSwWriter.FinishReserves` | riscv-isa-sim/fdt/fdt_sw.c:200-209 | The terminating entry, after which the structure block may begin |
| `FdtSwWriter.BeginNode` | riscv-isa-sim/fdt/fdt_sw.c:211-226 | The begin tag and the padded name at the end of the structure block |
| `FdtSwWriter.EndNode` | riscv-isa-sim/fdt/fdt_sw.c:228-240 | The end tag at the end of the structure block |
| `FdtSwWriter.AddName` | riscv-isa-sim/fdt/fdt_sw.c:242-283 | The name in the table that grows down from the end of the buffer, shared if found |
| `FdtSwWriter.WriteProperty` | riscv-isa-sim/fdt/fdt_sw.c:285-327 | One property, its name rolled back if the value does not fit |
| `FdtSwWriter.CorrectNames` | riscv-isa-sim/fdt/fdt_sw.c:348-365 | The walk that rewrites every name offset of the structure block |
| `FdtSwWriter.FinishTree` | riscv-isa-sim/fdt/fdt_sw.c:329-376 | The in-place fdt_finish computes the blob of FinishTheorem |
| `FdtCheck.NextTagExact` | riscv-isa-sim/fdt/fdt.c:131-182 | The 32-bit tag step differs from the step in exact integers if and only if the tag is a property whose length wraps the offset |
| `FdtCheck.WalkExact` | riscv-isa-sim/fdt/fdt_ro.c:837-898 | The structure walk in 32-bit arithmetic is the one in exact integers on every block without a wrapping length on the way |
| `FdtCheck.ExactVerdict` | riscv-isa-sim/fdt/fdt_ro.c:837-898 | In exact integers fdt_check_full accepts if and only if the header is in order and the structure block is a token sequence with balanced nodes and readable names |
| `FdtCheck.CheckFullTheorem` | riscv-isa-sim/fdt/fdt_ro.c:837-898 | With the 32-bit step every well-formed blob is accepted, and an accepted blob is well-formed if and only if the walk has met no wrapping property length |
| `FdtCheck.ShortcutAccepted` | riscv-isa-sim/fdt/fdt.c:155-164 | A block with a property of length -4 is accepted and is no token sequence: why the condition of CheckFullTheorem is needed |
| `FdtCheck.ShortcutExists` | riscv-isa-sim/fdt/fdt.c:155-164 | Such a block exists |
| `FdtWalkers.WalkTag` | riscv-isa-sim/fdt/fdt.c:131-182 | The tag step of the specification |
| `FdtWalkers.WalkNode` | riscv-isa-sim/fdt/fdt.c:202-240 | The next node and its depth, or the error |
| `FdtWalkers.WalkFirstSubnode` | riscv-isa-sim/fdt/fdt.c:242-251 | The first child or -NOTFOUND |
| `FdtWalkers.WalkNextSubnode` | riscv-isa-sim/fdt/fdt.c:253-268 | The next sibling, past everything below the node |
| `FdtWalkers.WalkNodeEnd` | riscv-isa-sim/fdt/fdt_wip.c:73-81 | The offset behind the end tag of a node |
| `FdtReaders.VerifyHeader` | riscv-isa-sim/fdt/fdt.c:73-112 | The verdict of the header checks |
| `FdtReaders.VerifyFull` | riscv-isa-sim/fdt/fdt_ro.c:837-898 | The loop gives the exact-integer verdict of ExactVerdict on every block without wrapping lengths |
| `FdtReaders.GetString` | riscv-isa-sim/fdt/fdt_ro.c:34-87 | The string up to its NUL, or the error of an offset outside the block or a missing NUL |
| `FdtReaders.NodeNameEq` | riscv-isa-sim/fdt/fdt_ro.c:13-32 | A name matches a node whose name it is, or whose name it is up to the unit address |
| `FdtReaders.FindSubnode` | riscv-isa-sim/fdt/fdt_ro.c:211-228 | The first child that answers to the name |
| `FdtReaders.FindProperty` | riscv-isa-sim/fdt/fdt_ro.c:379-406 | The first property of that name |
| `FdtReaders.ResolvePath` | riscv-isa-sim/fdt/fdt_ro.c:236-284 | The node that a path names, from the root or through an alias, whose value is a path again |
| `FdtReaders.WalkPath` | riscv-isa-sim/fdt/fdt_ro.c:256-276 | The component loop from any node and any character on |
| `FdtReaders.FindAlias` | riscv-isa-sim/fdt/fdt_ro.c:504-514 | The property of that name of /aliases, or an error |
| `FdtReaders.CountRsv` | riscv-isa-sim/fdt/fdt_ro.c:175-185 | The number of reservations, or -TRUNCATED without a terminator |
| `FdtPath.GetPathTheorem` | riscv-isa-sim/fdt/fdt_ro.c:521-571 | fdt_get_path of a node writes exactly its path, and gives -NOSPACE exactly when the path and its NUL exceed the buffer |
| `FdtPath.PathRoundTrip` | riscv-isa-sim/fdt/fdt_ro.c:236-279 | Resolving the path that fdt_get_path writes leads back to the same node offset |
| `FdtPathWriter.WritePath` | riscv-isa-sim/fdt/fdt_ro.c:521-571 | The pushing and popping loop over the caller's buffer computes the path of GetPathTheorem |
| `FdtMerge.ApplyNodeTheorem` | riscv-isa-sim/fdt/fdt_overlay.c:556-601 | overlay_apply_node makes the base denote its tree with the overlay node merged into the target; through all nested insertions the saved target offset still finds the target; the only failure is -NOSPACE |
| `FdtUnion.MergeIsUnion` | riscv-isa-sim/fdt/fdt_overlay.c:556-601 | Seen through name paths, with unambiguous names, the merge is the recursive union in which the overlay's value wins |
| `FdtUnion.MergeUnionIff` | riscv-isa-sim/fdt/fdt_overlay.c:556-601 | For an overlay that names nothing twice the merge is that union, whatever its properties, if and only if, on every level, the first sibling that answers to an overlay child's name carries exactly that name |
| `FdtUnion.OwnNameIff` | riscv-isa-sim/fdt/fdt_overlay.c:580-598 | After one overlay child has been joined it is found under its own name if and only if its name was unambiguous or already there |
| `FdtUnion.AmbiguousMerge` | riscv-isa-sim/fdt/fdt_ro.c:13-32 | Merging c into a tree with c@0 adds nothing called c |
| `FdtOverlayWriter.MergeProperties` | riscv-isa-sim/fdt/fdt_overlay.c:561-577 | The property loop on the buffers |
| `FdtOverlayWriter.MergeNode` | riscv-isa-sim/fdt/fdt_overlay.c:556-601 | The recursive code on the buffers computes the blob of ApplyNodeTheorem and leaves the overlay alone |
| `FdtRenumber.AddOffsetTheorem` | riscv-isa-sim/fdt/fdt_overlay.c:116-139 | One phandle property is shifted, or -BADPHANDLE, -NOPHANDLES or -NOTFOUND, as in the tree |
| `FdtRenumber.AdjustNodeTheorem` | riscv-isa-sim/fdt/fdt_overlay.c:156-177 | Shifting on the blob is shifting every phandle of the tree, with the same failures |
| `FdtPhandles.RunsOutIff` | riscv-isa-sim/fdt/fdt_overlay.c:116-177 | With four-byte valid phandles the shift fails with -NOPHANDLES if and only if some phandle of the tree would reach the invalid range |
| `FdtRenumber.NoPhandlesIff` | riscv-isa-sim/fdt/fdt_overlay.c:116-177 | The same on the blob |
| `FdtReferences.CellsTheorem` | riscv-isa-sim/fdt/fdt_overlay.c:253-281 | The loop over the listed cells changes the value as in the tree and stops exactly at the first cell outside the value: wild if the read leaves the buffer or the 32-bit end is inside the value again, else with -BADOVERLAY |
| `FdtReferences.BumpPropTheorem` | riscv-isa-sim/fdt/fdt_overlay.c:229-282 | One fixup property shifts exactly the listed cells of the property that it names; -BADOVERLAY for a bad list or a missing property; otherwise exactly the outcome of CellsTheorem |
| `FdtReferences.UpdateNodeTheorem` | riscv-isa-sim/fdt/fdt_overlay.c:220-305 | The recursion over the fixups does this in the whole tree |
| `FdtWild.FarSet` | riscv-isa-sim/fdt/fdt_wip.c:25-28 | Four bytes set at offset 2^32 - 4 of any property pass the length check |
| `FdtWild.FarFixup` | riscv-isa-sim/fdt/fdt_overlay.c:253-281 | A fixup that lists that offset makes the loop write outside the value of any property |
| `FdtWild.FarExists` | riscv-isa-sim/fdt/fdt_overlay.c:324-342 | There is an overlay blob with such local fixups |
| `FdtRenumbering.ReferencesTheorem` | riscv-isa-sim/fdt/fdt_overlay.c:324-342 | Without local fixups nothing changes; with them the whole tree is updated by them |
| `FdtFixups.ReferenceFollows` | riscv-isa-sim/fdt/fdt_overlay.c:156-305 | A cell that held the phandle of an overlay node, and is listed exactly once while no other listed cell overlaps it, holds, after both passes, the shifted phandle, and that names the same node |
| `FdtRenumbering.FindMaxTheorem` | riscv-isa-sim/fdt/fdt_ro.c:103-129 | fdt_find_max_phandle gives the largest valid phandle of the tree |
| `FdtRenumbering.PhandleTheorem` | riscv-isa-sim/fdt/fdt_ro.c:487-502 | fdt_get_phandle gives the phandle of the node, under either property name |
| `FdtRenumbering.RenumberTheorem` | riscv-isa-sim/fdt/fdt_overlay.c:829-848 | The first passes of fdt_overlay_apply turn the overlay into the renumbered overlay, in place and with no offset moved, or fail as the tree does |
| `FdtRenumbering.RenumberedApart` | riscv-isa-sim/fdt/fdt_overlay.c:193-199 | After renumbering no phandle of the overlay is a phandle of the base, and each is the old one plus the base's largest |
| `FdtFragments.NodeByPhandleTheorem` | riscv-isa-sim/fdt/fdt_ro.c:657-680 | fdt_node_offset_by_phandle finds the first node with the phandle, or -NOTFOUND if there is none |
| `FdtAlias.WalkTheorem` | riscv-isa-sim/fdt/fdt_ro.c:256-276 | The component loop on the blob is the walk in the tree, from any node |
| `FdtAlias.AliasTheorem` | riscv-isa-sim/fdt/fdt_ro.c:504-514 | An alias is found on the blob if and only if /aliases of the tree has it, with the same value |
| `FdtAlias.LookupTheorem` | riscv-isa-sim/fdt/fdt_ro.c:236-284 | fdt_path_offset finds the node that the path names in the tree, through any chain of aliases, with the same errors; nothing is said only where a string on the way has no NUL |
| `FdtFragments.TargetTheorem` | riscv-isa-sim/fdt/fdt_overlay.c:28-100 | The target of a fragment is the node that its phandle, its path or an alias names in the base tree, with the same errors |
| `FdtFragments.MergeFromTheorem` | riscv-isa-sim/fdt/fdt_overlay.c:618-648 | overlay_merge merges every fragment that has an __overlay__ node, in order, or stops at the first that has no target |
| `FdtFragments.ApplyOverlayTheorem` | riscv-isa-sim/fdt/fdt_overlay.c:829-881 | fdt_overlay_apply, from the two input blobs to the result: the base denotes the tree with every fragment of the renumbered overlay merged; every failure is a failure of the tree, lack of room, a wild listed offset, or a string without a NUL |
| `FdtOverlayApplier.OverwritePartial` | riscv-isa-sim/fdt/fdt_wip.c:13-31 | The copy into the buffer computes the blob of SetPartialTheorem |
| `FdtOverlayApplier.AdjustPhandles` | riscv-isa-sim/fdt/fdt_overlay.c:156-177 | The recursive code computes the blob of AdjustNodeTheorem |
| `FdtOverlayApplier.UpdateLocalNode` | riscv-isa-sim/fdt/fdt_overlay.c:220-305 | The recursive code computes the blob of UpdateNodeTheorem |
| `FdtOverlayApplier.FindMaxPhandle` | riscv-isa-sim/fdt/fdt_ro.c:103-129 | The loop computes the value of FindMaxTheorem |
| `FdtOverlayApplier.FindNodeByPhandle` | riscv-isa-sim/fdt/fdt_ro.c:657-680 | The loop computes the offset of NodeByPhandleTheorem |
| `FdtOverlayApplier.RenumberOverlay` | riscv-isa-sim/fdt/fdt_overlay.c:829-848 | The first passes compute the blob of RenumberTheorem and leave the base alone |
| `FdtOverlayApplier.GetTarget` | riscv-isa-sim/fdt/fdt_overlay.c:58-100 | The code computes the offset of TargetTheorem |
| `FdtOverlayApplier.MergeOverlay` | riscv-isa-sim/fdt/fdt_overlay.c:618-648 | The loop computes the blob of MergeFromTheorem |
| `FdtOverlayApplier.Apply` | riscv-isa-sim/fdt/fdt_overlay.c:829-881 | The whole function: the blob of ApplyOverlayTheorem, the overlay's magic always destroyed and the base's on failure |
| `FdtMove.PackSafeIff` | riscv-isa-sim/fdt/fdt_rw.c:378-398 | The three moves of fdt_packblocks_ in place keep the bytes of all blocks, for every buffer, if and only if no move runs over a block that is still to be moved |
| `FdtMove.PackKeepsTree` | riscv-isa-sim/fdt/fdt_rw.c:464-476 | With the reservation block ahead of the structure block a packed blob denotes the same tree and is no longer than before |
| `FdtMove.PackInsideIff` | riscv-isa-sim/fdt/fdt_rw.c:464-476 | fdt_pack stays inside the buffer if and only if the reservation list ends and the blocks, packed, fit |
| `FdtMove.CrowdedLoses` | riscv-isa-sim/fdt/fdt_rw.c:464-476 | Packing such a blob, with the one reservation that is counted, changes its structure block: its list terminator lies in there |
| `FdtMove.CrowdedPasses` | riscv-isa-sim/fdt/fdt_rw.c:25-38 | The probe accepts such a blob |
| `FdtMove.CrowdedExists` | riscv-isa-sim/fdt/fdt_rw.c:13-23 | There is such a blob |
| `FdtMove.PackBlocks` | riscv-isa-sim/fdt/fdt_rw.c:378-398 | The moves and the new header offsets |
| `FdtMove.Pack` | riscv-isa-sim/fdt/fdt_rw.c:464-476 | The probe's error and no change, or a packed blob as in PackKeepsTree |
| `FdtMove.Resize` | riscv-isa-sim/fdt/fdt_sw.c:144-178 | Into a buffer that may overlap the old one on either side: the error of the state, or -NOSPACE exactly when the data does not fit, and then no byte changes; else whatever calls have built the old tree have built the new one |
| `FdtMove.ResizeKeepsBuilt` | riscv-isa-sim/fdt/fdt_sw.c:144-178 | A tree under construction is the same construction after the move |
| `FdtMove.OpenInto` | riscv-isa-sim/fdt/fdt_rw.c:400-462 | Whether to reorder is computed from the header; the buffer may overlap the old tree anywhere; an error changes no byte; else whatever tree the old blob denotes the new one denotes, and it passes the read-write probe |
| `FdtMove.OpenedDenotes` | riscv-isa-sim/fdt/fdt_rw.c:400-462 | Equal block bytes at the offsets of the new header denote the same tree |
| `PmpMatch.NoSubsetMeansConstant` | riscv-isa-sim/riscv/csrs.cc:153-181 | When subset_match says no, match4 is constant on the whole aligned power-of-two page |
| `PmpMatch.SubsetIffMixed` | riscv-isa-sim/riscv/csrs.cc:138-181 | For NA4, NAPOT and every TOR entry with base below top, subset_match holds if and only if match4 is not constant on the page |
| `PmpMatch.SubsetExact` | riscv-isa-sim/riscv/csrs.cc:161-181 | For every entry that equivalence holds if and only if the entry is not TOR, or base is below top, or base lies outside the page or the page does not start below top |
| `PmpMatch.EmptyRangeVerdict` | riscv-isa-sim/riscv/csrs.cc:161-181 | For an empty TOR range subset_match holds exactly when base is in the page and the page starts below top |
| `PmpMatch.EmptyRangeCalledMixed` | riscv-isa-sim/riscv/csrs.cc:161-181 | One such entry, in numbers |
| `PmpLock.LockedForever` | riscv-isa-sim/riscv/csrs.cc:109-136 | Over every run of pmpaddr, pmpcfg and mseccfg writes an entry that is locked while RLB is clear keeps its configuration, its address, for TOR its lower bound, its matched addresses, its lock, and RLB stays clear |
| `PmpLock.StickyForever` | riscv-isa-sim/riscv/csrs.cc:315-353 | Over every run MML and MMWP never clear |
| `PmpLock.Pmp.SetAddr` | riscv-isa-sim/riscv/csrs.cc:109-128 | The method writes exactly what the step of LockedForever writes |
| `PmpLock.Pmp.SetCfg` | riscv-isa-sim/riscv/csrs.cc:239-279 | The loop over the eight entries of one register does the same |
| `PmpLock.Pmp.SetSec` | riscv-isa-sim/riscv/csrs.cc:315-353 | The same for mseccfg |
| `DebugHart.EncodeDecode` | riscv-isa-sim/riscv/debug_module.cc:660-808 | Every emitted word is read back as the instruction that was meant |
| `DebugProgram.ProgramFits` | riscv-isa-sim/riscv/debug_module.cc:635-818 | No program exceeds the twelve words of the buffer |
| `DebugProgram.ProgramMoves` | riscv-isa-sim/riscv/debug_module.cc:635-818 | Run on a hart the emitted words move exactly the requested value and leave s0 and mstatus (unless they are the target), all other integer, floating-point and non-scratch control registers as they were |
| `DebugProgram.CarriesIff` | riscv-isa-sim/riscv/debug_module.cc:674-710 | An emitted transfer of either width moves the requested value from every hart state if and only if its register is not dscratch0 |
| `DebugProgram.ScratchClash` | riscv-isa-sim/riscv/debug_module.cc:674-710 | What a transfer of dscratch0 does instead: it reads s0, or leaves the value in s0 |
| `DebugProgram.ProgramLeaves` | riscv-isa-sim/riscv/debug_module.cc:801-808 | A command without a transfer only leaves the hart for the program buffer or the debug ROM |
| `DebugModule.CommandMoves` | riscv-isa-sim/riscv/debug_module.cc:635-818 | From the command register to the hart: the words found in the device's buffer after an accepted command do what ProgramMoves says |
| `DebugModule.PerformStarts` | riscv-isa-sim/riscv/debug_module.cc:635-657 | An accepted command starts exactly its program; any other starts nothing |
| `DebugModule.BusyClearsAfterHalt` | riscv-isa-sim/riscv/debug_module.cc:166-250 | Over every run without reselection or reset while busy, busy clears only after the selected hart has consumed GO and then reported HALTED |
| `DebugModule.ErrorsStick` | riscv-isa-sim/riscv/debug_module.cc:384-413 | While cmderr is nonzero no command starts, by a write, a read or automatic execution, and only an abstractcs write or a module reset changes it |
| `DebugModule.AbstractCsClears` | riscv-isa-sim/riscv/debug_module.cc:905-927 | An abstractcs write clears exactly the error bits that it names |
| `DebugDevice.Device.EmitTransfer` | riscv-isa-sim/riscv/debug_module.cc:659-799 | The emitting code writes into the byte buffer exactly the program of ProgramMoves |
| `DebugDevice.Device.PerformCommand` | riscv-isa-sim/riscv/debug_module.cc:635-818 | perform_abstract_command is the step of the model, buffer bytes included |
| `DebugDevice.Device.StoreHalted` | riscv-isa-sim/riscv/debug_module.cc:202-224 | A hart's HALTED report |
| `DebugDevice.Device.StoreGoing` | riscv-isa-sim/riscv/debug_module.cc:226-230 | A hart's GOING report consumes GO |
| `DebugDevice.Device.StoreResuming` | riscv-isa-sim/riscv/debug_module.cc:232-238 | A hart's RESUMING report |
| `DebugDevice.Device.StoreException` | riscv-isa-sim/riscv/debug_module.cc:240-245 | An exception sets the error only where none is set |
| `DebugDevice.Device.RunTestIdle` | riscv-isa-sim/riscv/debug_module.cc:601-627 | The idle cycles and the one place where busy clears |
| `DebugDevice.Device.ReadDataRegister` | riscv-isa-sim/riscv/debug_module.cc:384-413 | A data register read, which may start a command automatically |
| `DebugDevice.Device.WriteCommandRegister` | riscv-isa-sim/riscv/debug_module.cc:905-927 | A command register write |
| `DebugDevice.Device.WriteDmcontrol` | riscv-isa-sim/riscv/debug_module.cc:855-903 | A dmcontrol write: reset, selection, resume requests |
| `StepLoop.Processor.Step` | riscv-isa-sim/riscv/execute.cc:212-377 | The chained instruction cache retires, from every core and cache state and for every run that never fetches an address changed since the last flush, exactly the sequence of plain fetch and execute: same core and pc, same retired addresses, and minstret bumped by exactly n |
| `StepLoop.Processor.RunFast` | riscv-isa-sim/riscv/execute.cc:299-318 | One turn of the fast loop: at most n instructions, and what is left to run is unchanged |
| `StepLoop.Processor.Access` | riscv-isa-sim/riscv/mmu.h:334-340 | A cache hit or refill delivers the instruction that a fetch would |
| `StepLoop.Processor.Refill` | riscv-isa-sim/riscv/mmu.h:298-332 | A refilled entry is coherent, also where it is left untagged for a tracer |
| `StepLoop.Processor.Flush` | riscv-isa-sim/riscv/mmu.cc:31-35 | Every entry loses its tag |
| `StepLoop.RunSplit` | riscv-isa-sim/riscv/execute.cc:223-377 | Plain execution of n + m instructions is that of n and then of m: how the loop may cut its runs |
| `CacheModel.RunKeeps` | riscv-isa-sim/riscv/cachesim.cc:100-182 | Over every run of accesses and clean_invalidates valid tags sit in their own set without duplicates, and lines marked dirty equal writebacks plus resident dirty lines plus dirty lines discarded |
| `CacheModel.RunFromEmpty` | riscv-isa-sim/riscv/cachesim.cc:40-61 | The same from a new cache |
| `CacheModel.NextLevelSees` | riscv-isa-sim/riscv/cachesim.cc:121-157 | Over every such mixed run the reads asked of the next level are one whole line per miss, in order, and the i-th write is the i-th dirty victim's own line |
| `CacheModel.WritebacksAre` | riscv-isa-sim/riscv/cachesim.cc:121-182 | The writeback counter is the dirty evictions plus the lines cleaned by clean_invalidate |
| `CacheModel.HitAfterAccess` | riscv-isa-sim/riscv/cachesim.cc:100-157 | A line that has been accessed hits on the next access, and is dirty after a store |
| `CacheSim.ServeCounts` | riscv-isa-sim/riscv/cachesim.cc:121-157 | A next level counts exactly the requests of the level above |
| `CacheSim.CacheLevel.CheckTag` | riscv-isa-sim/riscv/cachesim.cc:100-110 | The loop finds the slot that holds the line |
| `CacheSim.CacheLevel.Access` | riscv-isa-sim/riscv/cachesim.cc:121-157 | The method changes every level of the chain as the model says |
| `CacheSim.CacheLevel.CleanInvalidate` | riscv-isa-sim/riscv/cachesim.cc:159-182 | The loop does, on every level |
| `Memif.Memif.Read` | riscv-isa-sim/fesvr/memif.cc:9-40 | Exactly the bytes at the address, through chunks that are all aligned in address and length |
| `Memif.Memif.Write` | riscv-isa-sim/fesvr/memif.cc:42-84 | Exactly the bytes at the address are replaced, through aligned chunks, for every alignment and every maximum that is a multiple of it |
| `Memif.Chunks.ClearChunk` | riscv-isa-sim/fesvr/htif.cc:237-244 | Clearing is writing zeros |
| `Memif.Mem.Contents` | riscv-isa-sim/riscv/devices.cc:94-105 | The page of an address, allocated as zeros: the flat memory stays |
| `Memif.Mem.Store` | riscv-isa-sim/riscv/devices.cc:73-92 | A store across pages replaces exactly its bytes of the flat memory, or is refused out of range without a change |
| `Memif.Mem.Load` | riscv-isa-sim/riscv/devices.cc:73-92 | A load across pages gives exactly the bytes of the flat memory |
| `Arith.MulHU` | riscv-isa-sim/riscv/arith.h:12-30 | The high word of the product of any two 64-bit words |
| `Arith.MulH` | riscv-isa-sim/riscv/arith.h:32-37 | The floor of the signed product over 2^64, for all operands |
| `Arith.MulHSU` | riscv-isa-sim/riscv/arith.h:39-45 | The same with an unsigned second factor |
| `Arith.SatAdd` | riscv-isa-sim/riscv/arith.h:47-66 | The clamped sum, and the flag exactly when it is out of range |
| `Arith.SatAdd3` | riscv-isa-sim/riscv/arith.h:68-87 | The clamped sum of three operands, and the flag exactly when that sum is out of range |
| `Arith.SatSub` | riscv-isa-sim/riscv/arith.h:89-108 | The clamped difference and its flag |
| `Arith.SatAddU` | riscv-isa-sim/riscv/arith.h:110-120 | The unsigned sum clamped at the top |
| `Arith.SatSubU` | riscv-isa-sim/riscv/arith.h:122-132 | The unsigned difference clamped at zero |
| `Disasm.LookupIffMatch` | riscv-isa-sim/disasm/disasm.cc:2304-2313 | lookup returns an entry if and only if some registered entry matches |
| `Disasm.LookupHasPriority` | riscv-isa-sim/disasm/disasm.cc:2295-2313 | The returned entry matches and nothing of higher priority in its chain does: added ones first, latest first, then the constructor's in order |
| `Disasm.Disassembler.constructor` | riscv-isa-sim/disasm/disasm.cc:2274-2293 | The chains hold the entries in reversed order |
| `Disasm.Disassembler.AddInsn` | riscv-isa-sim/disasm/disasm.cc:2315-2323 | One more entry, at the back of its chain |
| `Disasm.Disassembler.ProbeOnce` | riscv-isa-sim/disasm/disasm.cc:2295-2302 | The loop from the back finds the first of the chain in order of priority |
| `Disasm.Disassembler.Lookup` | riscv-isa-sim/disasm/disasm.cc:2304-2313 | The three probes compute the lookup of LookupIffMatch |

## Left out

Weaker than the source in one respect:

- FdtWalkers.WalkTag: adds a property length in exact integers, where fdt/fdt.c:161 wraps at 2^32; `FdtCheck.NextTagExact` says exactly where the two differ, and `FdtCheck.CheckFullTheorem` is about the wrapping walk. The other readers and editors are proved on blobs that denote a tree, which hold no such length.
- FdtReaders.VerifyFull: is the loop in exact integers, so it asks for a block without wrapping lengths, and like all the walkers for one whose size is a multiple of four.
- FdtInPlace.SetPartialTheorem: the outcome WILD stands for a write outside the value; which bytes it hits is not described.
- FdtReferences.UpdateNodeTheorem: says only when the outcome WILD is impossible, where CellsTheorem and BumpPropTheorem say exactly when it occurs, because the place of a value in the buffer is no property of the tree; the same holds for ReferencesTheorem, RenumberTheorem and ApplyOverlayTheorem. Local fixups that list their own cells are excluded, because the pass would read a list that it is changing.
- FdtFragments.ApplyOverlayTheorem: for overlays without `__fixups__` and `__symbols__` nodes, whose passes (fdt/fdt_overlay.c:367-535 and 694-827) are not modelled. A chain of aliases longer than `fuel`, which the source follows without end if it is circular, has an outcome of its own. After a failed overlay the partly edited blobs are not described beyond their magic numbers.
- FdtOverlayApplier.Apply: the same restriction, checked on the blob; the base has to have its blocks in order, as every blob that a probe for writing accepts.
- FdtMerge.ApplyNodeTheorem: after -NOSPACE the properties and nodes merged so far stay in the base; that tree is not described.
- FdtEditResults.AppendPropTheorem: the appended length and the blob together stay below 2^32.
- FdtFixups.ReferenceFollows: for a cell in the first property of its name that is no phandle property, and fixups that list no phandle property; RenumberedApart asks for the latter too.
- FdtUnion.MergeIsUnion: the overlay names no child and no property of a node twice; MergeUnionIff asks for that too.
- FdtEditResults.DelNodeTheorem: not for the root, whose removal leaves no tree. The same holds for NopNodeTheorem.
- FdtSwWriter.AddName: fdt/fdt_sw.c:251 compares unsigned sums; a string table and name longer than totalsize together would wrap there, where the model answers that there is no room.
- FdtLife.BuildTheorem: reservations of size zero are excluded, because such an entry ends the list for every reader.
- FdtPathWriter.WritePath: once the walk has left the root the model stops, where fdt/fdt_ro.c:521-571 pops below the start of the buffer; no node offset inside the root leads there.
- FdtPath.PathRoundTrip: for names without slashes that are not empty, and for nodes that no earlier sibling answers for; the root name is empty.
- FdtMove.Pack: the ranges that are moved have to lie inside the buffer; `FdtMove.PackInsideIff` says when they do.
- FdtMove.OpenInto: the reservation list has to end and the blocks have to lie inside the tree; boot_cpuid_phys is not modelled, because the source may read it after overwriting it.
- FdtEditors.NopProperty: the structure block has to lie inside the blob and the blob has to pass the probe for reading; NopNodeOut asks for the former.
- FdtEditors.InsertSubnode: a negative parent offset is not modelled.
- StepLoop.Processor.Step: traps, triggers, single-stepping, wait for interrupt, pending interrupts, mcycle and the slow path are left out; executing one instruction is an abstract function.
- CacheSim.CacheLevel.Access: tag words are records of line, valid and dirty, and masking with the number of sets minus one is a remainder.
- DebugModule.CommandMoves: the control registers of the hart are plain cells, without side effects of their own.

Not modelled:

- versions of the device tree format other than 17, boot_cpuid_phys, fdt_move, reading an unfinished tree with fdt_get_string
- fdt_set_name, fdt_add_mem_rsv and fdt_del_mem_rsv, supernode and parent offsets, string lists, compatible strings: they would repeat the proofs of the other editors and scans
- access_ok, register reads and the TLB flush of the protection registers: small tables
- halt groups, halt requests, system bus access, dmstatus, the hart array window encoding and the authentication challenge of the debug module
- the fully associative cache, whose tag check ignores the valid bit (riscv/cachesim.cc:189-193)
- the condition on a base under which it has room for a whole overlay: the single edits have theirs in FdtRoom
- the bus lookup of devices.cc, the hex writer, and host input and output everywhere
- rotates, leading and trailing zero counts, xperm and extract64 of arith.h
- instruction names and arguments of the disassembler, which are an identity here
