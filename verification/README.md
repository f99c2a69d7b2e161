# libpack in Dafny

libpack (namespace `farc`) packs and unpacks MPI derived datatypes. A datatype is a tree; `compile`
rewrites the tree with `compress`, then lowers it to LLVM IR loops that gather the tree's bytes into a
buffer (pack) or scatter a buffer into them (unpack). This project models that compiler and proves it
correct, and then the other parts of the repository that speak about the same types: the printer and
the ddtplayer parser, two hand-written kernels, the hand-written pack loops of two benchmarks, and the MPI
interposer's tables.

The specification is the MPI typemap (MPI 3.0, sections 4.1 and 4.2): the byte offsets of a type in pack
order, at the extents MPI defines from the offsets themselves and from the markers of resized types.
`Mpi.MpiMap` gives it for one item, `Mpi.MpiCopies` for n items; nothing in `Mpi` looks at the numbers the C++
constructors store. `Typemap.Map` and `Typemap.Copies` are the typemap at the stored extents, which is what the
generated code can follow; `MpiTrees` says exactly when the two are one. What a pack or unpack does to
memory is a list of byte transfers (`Transfers.Moves`) done in order (`Transfers.Copy`).

## How it is built

- `Datatypes`, `Typemap`, `Wellformed`, `Bounds`, `Compress`: trees, the size and bounds the constructors
  store, typemaps, and the optimiser.
- `Mpi`, `MpiOffsets`: MPI's typemap and bounds, and each offset written out.
- `MpiBounds`, `MpiTrees`, `NegativeStrides`: MPI's typemap and bounds, and the stored ones against them, node
  by node and for whole trees.
- `Machine`: the fragment of LLVM IR the generators emit, with phi nodes, 64-bit wrap-around addresses
  and a step semantics. A run gets stuck on an undefined register, an unmapped address, an overlapping
  memcpy, a phi without an entry for the block it is entered from, or an unterminated block. A theorem
  that says a run returns therefore says that none of these happens.
- `Builder`, `Emit`: the code generators as functions from builder to builder. `IRBuilder`, `Codegen`: the
  generators as the program runs them, methods with loops on a mutable builder, each proved to leave exactly
  the blocks of the function.
- `Routes`: from which byte to which byte the code of each generator moves data, right or wrong, read off the
  generators' arguments. `Exec`, `ExecPrimitive`, `Calls`, `ExecContiguous`, `ExecVector`, `ExecIndexed`,
  `ExecTable`, `ExecResized`, `ExecTypes`: running the emitted code; it does its route.
- `Supported`, `Correct`, `Compile`, `RoundTrip`: where the route is the typemap's, and what the compiled
  functions then do. `Steps`, `Defects`: exactly when it is not. `Visible`: that a wrong route shows in memory, and
  where it does not. `Structure`: the emitted control-flow graphs; `Stuck`: where a run ends in a broken one.
  `ZeroCount`, `Silent`: calls with a count of zero. `Addressed`: one item of a struct of absolute addresses.
- `Objects`: the trees as heap objects, with clone, compress and the destructor.
- `Kernels`: the two kernels under `benchmarks/llkernels`, as programs of the same machine.
- `TypeLanguage`, `TypeRoundTrip`, `TypeActions`: printer, lexer, grammar and range expansion; `TypeText`, `Expansion`:
  the words, texts and lists written out.
- `Elements`, `Nas`, `Wrf`, `WrfExchange`: the manual benchmark loops against their datatypes; `WrfIndices`: which
  elements these are; `WrfCompiled`: the compiled functions against the loops.
- `Handles`, `Requests`: the interposer's handle table and request list over whole runs; `HandleOrder`, `Completion`:
  what each call gives out, starts and completes; `Interposition`: both halves together.

`dafny verify dfyconfig.toml` checks everything.

## What the code needs, and what it does otherwise

The emitted loops test at the bottom, so every count, block length and item count that reaches a loop is at
least one, strides and resized extents are positive (`Wellformed.Positive`), and every C++ `int` fits in 32
bits (`Wellformed.Fits`). The call's buffers are mapped where the typemap needs them and do not alias, as the
program itself declares to LLVM (`Compilation.Callable`).

Beyond that, these things in the source are not what MPI or its own comments say. The model follows the code
(`Compilation.FunctionPerforms` says what every emitted function does) and says exactly when it is right, in terms
of the transfers and, in `Visible`, of the memory they leave:

- `IndexedBlockDatatype` leaves the block length out of its size (ddt_jit.cpp:738): `Bounds.SizeIsMapLength`. On
  whole trees whose blocks lie where they should, `Steps.StepsExact` says for which trees and counts the code is
  still right, and `Steps.GoodIsNeeded` that the shape condition `Good` is exactly what two items need; the
  `Exact` lemmas of `Defects` spell it out for each kind of parent.
- It starts its bounds from the unscaled first displacement (ddt_jit.cpp:742-743), `StructDatatype`
  starts both bounds at zero (ddt_jit.cpp:1002-1005), and both it and `HIndexedDatatype` count blocks of length zero:
  `MpiBounds.IndexedBlockExact`, `MpiBounds.HIndexedExact`, `MpiBounds.StructExact`. Items and parents of such a type
  are laid out at the wrong extent: `MpiTrees.IndexedNodesExact`, `Compilation.BoundsAreNeeded`.
- The unrolled indexed-block generator scales displacements by the size of the base, the typemap by its extent
  (codegen_indexed.cpp:131): `Defects.ShortExact`.
- The looped one zero-extends 32-bit displacements and compares its packed pointer with a total that omits
  the block length (codegen_indexed.cpp:34-35, 65): `Defects.TableExact`, `Defects.TableGoesOnFor`. It also records
  the wrong latch when its base has more than one block (codegen_indexed.cpp:79-80): `Structure.EmitClosedExact`,
  `Stuckness.TableSticks`.
- `ResizedDatatype` emits nothing over indexed, struct and resized types, and its unpack code for primitives
  and contiguous types is pack code (ddt_jit.cpp:1167-1178, 1184-1195): `Defects.ResizedOverOthersDoesNothing`,
  `Defects.ResizedUnpackExact`, `Visibility.ResizedUnpackShows`.
- The loops test at the bottom, so a call with count zero, which MPI allows, moves a first item:
  `ZeroCount.ZeroExact`.
- A request is taken for a receive if its user buffer is not NULL (interposer_common.cpp:36-38), but MPI_BOTTOM is
  NULL: the data of MPI_Irecv at MPI_BOTTOM are never unpacked, those of MPI_Recv are: `Requests.ReceivedExact`,
  `Requests.ReceiveAtBottom`. MPI_Test completes a request that has not finished (interposer_common.cpp:391-393):
  `Requests.TestExact`.
- A pending receive looks its type up by handle when it completes (interposer_common.cpp:318). If the program has
  freed the type by then, as MPI allows, the object is deleted, and the handle may belong to another type:
  `Interposition.ReceiveUses`, `Interposition.FreedWhilePending`.
- The grammar cuts numbers to `int`, the printer prints 64-bit displacements (ddtplayer/lexer.flex:27):
  `TypeRoundTrip.TruncatedExact`.
- `interposer_buffer_free` marks the scratch buffer as in use when it is given back
  (interposer_common.cpp:272-279), and a new handle can collide with a live one
  (interposer_common.cpp:62-65): `Requests.ScratchServesOnce`, `Handles.CreateIsFresh`.

## Model

| member | source | states |
|---|---|---|
| Bounds.SizeIsMapLength | ddt_jit.cpp:729-738 | the size a tree stores never exceeds the number of bytes it packs, and equals it if and only if every indexed-block node has block length one |
| Bounds.VectorEncloses | ddt_jit.cpp:416-439 | every offset of a vector lies in [lb, ub); the stored bounds are the exact MPI bounds whenever the base's are |
| Bounds.HVectorEncloses | ddt_jit.cpp:569-598 | the same for a byte stride |
| Bounds.BoundsEnclose | ddt_jit.cpp:301-314 | every offset of a tree lies between its stored bounds, if it has no resized node and the children of its indexed and struct nodes have lower bound zero |
| Bounds.PackReadsWithin | ddt_jit.cpp:450-456 | for such trees a pack of n items touches only [lb, (n-1) * extent + ub) of the data |
| Bounds.IndexedBlockBoundsCounterexample | ddt_jit.cpp:740-744 | idxb(1:10)[double] stores lower bound 10 although its first byte is 80 |
| MpiOffsets.PrimitiveOffsets | ddt_jit.cpp:196-213 | the bytes, sizes and extents of the primitives: one for BYTE and CHAR, four for INT and FLOAT, eight for DOUBLE |
| MpiOffsets.ContiguousOffsets | ddt_jit.cpp:301-314 | MPI's typemap of a contiguous type: item k lies k extents on |
| MpiOffsets.ItemOffsets | ddt_jit.cpp:86-87 | n items lie an extent apart |
| MpiOffsets.VectorOffsets | ddt_jit.cpp:416-439 | item k of block i lies i strides and k items on; a vector's stride counts extents, an hvector's bytes |
| MpiOffsets.IndexedBlockOffsets | ddt_jit.cpp:729-757 | item k of block i lies displs[i] extents and k items on |
| MpiOffsets.HIndexedOffsets | ddt_jit.cpp:873-909 | a last entry adds its items from its byte displacement on, behind what was before |
| MpiOffsets.StructOffsets | ddt_jit.cpp:1000-1022 | so does a last field, with items of its own type |
| MpiOffsets.EmptyOffsets | ddt_jit.cpp:873-909 | blocks of no items add nothing |
| MpiOffsets.ResizedOffsets | ddt_jit.cpp:1116-1125 | resizing moves no byte and sets the bounds |
| MpiBounds.ContiguousExtentExact | ddt_jit.cpp:301-314 | a contiguous type has MPI's extent, and MPI's bounds, if and only if its base has |
| MpiBounds.ContiguousMapExact | ddt_jit.cpp:303-311 | and MPI's typemap if and only if its count is one or its base's extent is right |
| MpiBounds.VectorExtentExact | ddt_jit.cpp:416-439 | the same for the extent and bounds of vectors and hvectors |
| MpiBounds.VectorMapExact | ddt_jit.cpp:416-439 | and their typemap is MPI's if and only if the base's extent is, or nothing is repeated at it |
| MpiBounds.IndexedBlockExact | ddt_jit.cpp:740-757 | over a base of the right extent an indexed block stores MPI's extent if and only if the unscaled first displacement lies between the scaled ones, and MPI's bounds if and only if also the base starts at zero |
| MpiBounds.IndexedBlockMapExact | ddt_jit.cpp:740-757 | its typemap is MPI's if and only if the base's extent is, or its blocks are single and all at zero |
| MpiBounds.HIndexedExact | ddt_jit.cpp:873-909 | an hindexed type stores MPI's extent if and only if a nonempty block attains each stored bound, and MPI's bounds if and only if also the base starts at zero; blocks of length zero included |
| MpiBounds.HIndexedMapExact | ddt_jit.cpp:873-909 | its typemap is MPI's if and only if the base's extent is, or no block repeats it |
| MpiBounds.StructExact | ddt_jit.cpp:1000-1022 | struct bounds are MPI's if and only if the fields that determine MPI's (nonempty, and with markers if any has) lie between them and reach both |
| MpiBounds.StructExtentExact | ddt_jit.cpp:1000-1022 | where all fields start at zero, the extent is right exactly if the bounds are: some such field starts at the stored lower and some ends at the stored upper bound |
| MpiBounds.ResizedExact | ddt_jit.cpp:1116-1125 | a resized type has MPI's bounds whatever its base stores |
| NegativeStrides.VectorDownExact | ddt_jit.cpp:429-434 | for a stride of zero or less a vector stores its lower bound a block too high and its upper bound off by its base's lower bound, so never MPI's |
| NegativeStrides.HVectorDownExact | ddt_jit.cpp:582-587 | an hvector's stored lower bound is MPI's if and only if the scaled stride and block length cancel |
| NegativeStrides.EmptyBounds | ddt_jit.cpp:589-594 | types of no blocks store zero bounds, but a vector of no blocks does not |
| MpiTrees.ExtentOkIsRight | ddt_jit.cpp:740-757 | a tree whose nodes meet these conditions stores MPI's extent |
| MpiTrees.MapOkIsRight | ddt_jit.cpp:740-757 | and its typemap is MPI's |
| MpiTrees.MpiMetIsRight | ddt_jit.cpp:740-757 | so are its n items |
| MpiTrees.IndexedNodesExact | ddt_jit.cpp:740-757 | over a right base, n items of an indexed block or hindexed type are MPI's if and only if n is one or the node meets its condition |
| MpiTrees.StructNodeExact | ddt_jit.cpp:1000-1022 | over right fields, n items of a struct are MPI's if and only if n is one or its extent is |
| MpiTrees.IndexedBlockCounterexample | ddt_jit.cpp:740-744 | idxb(1:10)[double] has stored extent 78 and MPI extent 8, so its second item starts at 158 instead of 88 |
| MpiTrees.StructCounterexample | ddt_jit.cpp:1002-1005 | a struct of one double at displacement 8 has stored extent 16 and MPI extent 8 |
| MpiTrees.UnmarkedBounds | ddt_jit.cpp:301-314 | MPI's bounds of a tree without resized nodes are its least offset and its greatest plus one |
| Bounds.CopiesDistinct | ddt_jit.cpp:450-464 | a stride of at least the block length (in bytes for hvec), or blocks and fields apart, over bases that start at zero and have no resized node: n items touch no byte twice |
| Compression.CompressKeepsMeaning | ddt_jit.cpp:466-499 | compress changes neither typemap nor size, lower and upper bound, for every well-formed tree |
| Compression.CompressNormalizes | ddt_jit.cpp:620-653 | its result has no foldable contiguous base and no gap-free vector or hvector outside struct children |
| Compression.FixedPointsAreNormal | ddt_jit.cpp:336-356 | a tree that compress leaves alone is in normal form |
| Compression.CompressIdempotent | ddt_jit.cpp:336-356 | compressing twice is compressing once |
| Compression.CompressShrinks | ddt_jit.cpp:789-793 | compress never adds nodes |
| Compression.GapFreeCollapses | ddt_jit.cpp:486-493 | a tree of contiguous and gap-free vector and hvector nodes over a primitive becomes that primitive or one contiguous node with the product of the counts |
| Compression.FoldsExactly | ddt_jit.cpp:341-350 | a contiguous base is folded into the count if and only if its extent is its size |
| Compression.VectorFoldsExactly | ddt_jit.cpp:470-485 | under a vector into block length and stride |
| Compression.HVectorFoldsExactly | ddt_jit.cpp:624-639 | under an hvector into the block length, its byte stride stays |
| Compression.PromotesExactly | ddt_jit.cpp:487-493 | a vector becomes contiguous if and only if its stride is its block length, in bytes for an hvector |
| Compression.CompressFits | ddt_jit.cpp:341-350 | the products it forms overflow no int |
| Builders.StartLoopRuns | codegen_vector.cpp:45-57 | entering a loop sets all phis to their initial values at once |
| Builders.EndLoopExits | codegen_vector.cpp:104-107 | a true exit test leaves the loop with registers and memory unchanged |
| Builders.EndLoopRepeats | codegen_vector.cpp:104-111 | a false one goes back to the head with the phis at their next values, if the latch is the branching block |
| Machine.WordSizes | codegen_common.hpp:18-22 | sums and products wrap around at 2^64, counters at 2^32 |
| ExecPrimitive.CopyLoopPasses | codegen_primitive.cpp:93-131 | the copy loop, which has no counter, leaves after exactly the intended number of passes and has then copied every byte once, with wrap-around addresses |
| ExecPrimitive.PostambleMovesAll | codegen_primitive.cpp:133-142 | the halving moves add up to all the remaining bytes |
| ExecPrimitive.CopyConstantRuns | codegen_primitive.cpp:71-142 | for every constant count the vector code has the effect of copying count * size bytes |
| ExecPrimitive.CopyRuntimeRuns | codegen_primitive.cpp:30-33 | the memcpy branch has the same effect |
| ExecPrimitive.CopyLoopExact | codegen_primitive.cpp:62-93 | the copy loop is used from 512 bytes on and takes the largest multiple of 256 bytes |
| ExecPrimitive.PostambleLength | codegen_primitive.cpp:134-142 | the postamble is three instructions for each of its moves |
| ExecPrimitive.PostambleIsShort | codegen_primitive.cpp:85-142 | it never has more than 31 + log2(16 / size) moves, however large the count, and some count needs that many |
| ExecIndexed.CounterFits | codegen_indexed.cpp:144-145 | the byte counter meets count * extent after the last item and not before, without wrapping |
| ExecVector.ExitTest | codegen_vector.cpp:94-101 | a packed pointer meets the end address after the last block and not before, although addresses wrap |
| ExecContiguous.ContiguousRuns | codegen_contiguous.cpp:19-73 | the contiguous loop does exactly n rounds of its base's route, whatever blocks the base consists of and whatever the increments |
| ExecVector.InnerRuns | codegen_vector.cpp:71-111 | the counterless inner loop does all blocks of one item and no more |
| ExecVector.VectorRuns | codegen_vector.cpp:31-138 | the two loops do n items of `count` blocks, for pack and unpack, whatever the strides on the data side |
| ExecIndexed.IndexedRuns | codegen_indexed.cpp:103-157 | the unrolled indexed generator does the placed blocks of n items, in order, with the compact pointer carried along |
| ExecTable.TableStops | codegen_indexed.cpp:25-102 | if the packed pointer first meets the exit address after m passes, the loop over the displacement table does exactly m items |
| ExecTable.TableGoesOn | codegen_indexed.cpp:64-98 | as long as it has not, the run comes back to the loop head with exactly the items of its passes done |
| ExecTable.StopsAtExact | codegen_indexed.cpp:33-35 | after k passes it has if and only if k * blocklen is the count, as long as k passes do not fill the address space |
| ExecResized.PrimitiveResizedRuns | codegen_primitive.cpp:331-377 | the resized loop packs n primitives `extent` apart |
| ExecTypes.EmitRuns | ddt_jit.cpp:450-464 | wherever the code of any tree without a miscounting table loop stands in a program, running it moves exactly the bytes of its route, in order, and keeps all older registers; by induction over the tree through all generators |
| Correctness.GoodRoute | ddt_jit.cpp:450-464 | under the shape condition that route is the typemap's, for any number of items and both directions |
| Compilation.FunctionPerforms | ddt_jit.cpp:124-136 | what every emitted function does, right or wrong: it returns with the transfers of its route done |
| Steps.StepsExact | ddt_jit.cpp:729-738 | on whole trees whose blocks are placed right, the code is right for n items if and only if the packed pointer keeps up: only the last nonempty block of the last item may have a wrong size |
| Steps.GoodExact | ddt_jit.cpp:729-738 | the shape condition asks for exactly that: blocks placed right, and a second item that follows right |
| Steps.GoodIsNeeded | ddt_jit.cpp:729-738 | on such trees the code is right for two items if and only if the shape condition holds, and then it is for every number |
| Compilation.EmittedFunctionRuns | ddt_jit.cpp:124-136 | the uncompressed function does too, called with its three arguments |
| Compilation.SupportedIsCompilable | ddt_jit.cpp:112-116 | compression keeps every shape condition the generators need |
| Compilation.CompiledFunctionPerforms | ddt_jit.cpp:109-188 | the function compile installs returns with memory changed by exactly the transfers of the original tree's typemap at the stored extents |
| Compilation.CompiledFunctionRuns | ddt_jit.cpp:109-188 | where the stored bounds meet MPI's these are the transfers of the MPI typemap, for every call with a count of at least one (of any count for a primitive); for a count of zero see `ZeroCount.ZeroExact` |
| Compilation.BoundsAreNeeded | ddt_jit.cpp:740-744 | otherwise they are not: idxb(1:10)[double] compiles and its second item is taken from the wrong bytes |
| Compilation.CompiledFunctionDeterministic | ddt_jit.cpp:109-188 | it stops in no other way |
| Compilation.CompressionIsInvisible | ddt_jit.cpp:109-116 | compiled and uncompressed code leave the same memory |
| RoundTrip.StoredPackGathers | ddt_jit.cpp:1294-1299 | out[p] == in[typemap[p]] for every p, and no other byte of memory changes, with the typemap at the stored extents |
| RoundTrip.CompiledPrimitive | ddt_jit.cpp:196-227 | the compiled pack and unpack functions of n BYTEs or CHARs copy n bytes in order, of n INTs or FLOATs 4n, of n DOUBLEs 8n, and write no other |
| RoundTrip.StoredUnpackScatters | ddt_jit.cpp:1307-1312 | out[typemap[p]] == in[p] for the last p that hits each address, and no other byte changes |
| RoundTrip.StoredUnpackUndoesPack | ddt_jit.cpp:1294-1312 | unpacking a pack restores every byte of that typemap in any buffer, repeated offsets or not |
| RoundTrip.StoredPackUndoesUnpack | ddt_jit.cpp:1294-1312 | packing an unpack returns the packed bytes if and only if positions that share an address hold equal bytes |
| RoundTrip.CompiledPackGathers | ddt_jit.cpp:1294-1299 | where the stored bounds meet MPI's, the compiled pack function gathers MPI's typemap |
| RoundTrip.CompiledUnpackScatters | ddt_jit.cpp:1307-1312 | the compiled unpack function scatters it |
| RoundTrip.UnpackUndoesPack | ddt_jit.cpp:1294-1312 | unpacking a pack restores every byte of MPI's typemap |
| RoundTrip.PackUndoesUnpack | ddt_jit.cpp:1294-1312 | packing an unpack is exact for MPI's typemap if and only if positions that share an address hold equal bytes |
| RoundTrip.NonOverlappingIsSeparate | ddt_jit.cpp:608-618 | for non-overlapping trees, structs included, no address is shared, so that round trip is exact |
| RoundTrip.WindowsSuffice | ddt_jit.cpp:82-86 | for packing and unpacking, mapping the window given by the stored bounds and n * size packed bytes apart from it is enough for a legal call, if every offset lies between the bounds (`Bounds.BoundsEnclose`) |
| RoundTrip.MpiWindowsSuffice | ddt_jit.cpp:82-86 | so is MPI's window, for every tree without resized nodes whose bounds meet MPI's |
| Defects.ContiguousExact | codegen_contiguous.cpp:46-56 | a contiguous type over a rightly compiled base is right if and only if there is one item or no indexed block below has a block length above one |
| Defects.VectorExact | codegen_vector.cpp:89-125 | a vector or hvector if and only if there is one block of one item, or the same of the base |
| Defects.HIndexedStepsExact | codegen_indexed.cpp:160-217 | an hindexed type if and only if there is a single nonempty block of one item, or the same |
| Defects.StructStepsExact | codegen_indexed.cpp:221-284 | a struct if and only if no nonempty field with such a block is followed by another, in its item or the next |
| Defects.VectorCounterexample | codegen_vector.cpp:89-125 | vec(2 1 3)[idxb(2:0)[int]] is packed into eight bytes instead of sixteen |
| Defects.ShortExact | codegen_indexed.cpp:128-143 | a short indexed block over a rightly compiled base is right if and only if the base's size is its extent or all displacements are zero, and the base has the right size or there is one block of one item |
| Defects.SixteenAreRight | codegen_indexed.cpp:25 | an indexed block of at most sixteen displacements over a gap-free base is right for every count in both directions, whatever its block length |
| Defects.SeventeenAreWrong | codegen_indexed.cpp:25-102 | with seventeen or more over primitives and a block length above one it is right for no count |
| Defects.NegativeWord | codegen_indexed.cpp:63-66 | the loop reads a negative displacement 2^32 bytes further on |
| Defects.UnrolledCounterexample | codegen_indexed.cpp:131-132 | idxb(1:1)[vec(2 1 2)[char]] is packed from byte 2 instead of byte 3 |
| Defects.TablePerforms | codegen_indexed.cpp:35-98 | asked for blocklen * m items, the table loop does m |
| Defects.TableGoesOnFor | codegen_indexed.cpp:64-98 | asked for any other number, it is back at its head after every pass, also past the last item |
| Defects.StopsAfterExact | codegen_indexed.cpp:33-35 | its exit test succeeds after pass k if and only if k * blocklen is the count |
| Defects.TableOverruns | codegen_indexed.cpp:33-98 | with 17 displacements and block length two, one item is asked for and pass after pass done |
| Defects.TableExact | codegen_indexed.cpp:57-73 | for any count whose bytes fit the address space, the table loop does as many items as asked, and these as the typemap says, if and only if the block length is one and no displacement is negative |
| Defects.TableExactForAll | codegen_indexed.cpp:57-73 | so it is right for every count if and only if that holds |
| Defects.FormsAgree | codegen_indexed.cpp:25-157 | where the looped form is right, the functions made with the looped and with the unrolled form leave the same memory, that of the typemap |
| Defects.ResizedOverOthersDoesNothing | ddt_jit.cpp:1167-1178 | the function for a resized indexed, struct or resized type returns with memory unchanged although there is something to pack |
| Defects.ResizedSameFunction | ddt_jit.cpp:1136-1195 | over a primitive or contiguous type the pack and the unpack function are the same |
| Defects.ResizedPerforms | ddt_jit.cpp:1184-1195 | both pack |
| Defects.ResizedUnpackExact | ddt_jit.cpp:1184-1195 | that is unpacking if and only if the base is a run of bytes and there is one item or the extent is the size |
| Defects.ResizedCounterexample | ddt_jit.cpp:1189-1195 | resized(0, 24)[ctg(2)[double]]: one item is unpacked, two are not |
| Visibility.VisibleExact | ddt_jit.cpp:94-98 | two lists of transfers differ in the memory they leave if and only if some address takes its byte from elsewhere |
| Visibility.LagShows | ddt_jit.cpp:729-738 | a route whose packed pointer never runs ahead leaves the memory of a typemap, in every memory, if and only if its transfers are the typemap's |
| Visibility.PlacedShows | ddt_jit.cpp:729-738 | so the condition of `Steps.StepsExact` is exact for memory: where the packed pointer lags, some memory shows it |
| Visibility.MisplacedShows | codegen_indexed.cpp:57-73 | and those of `Defects.ShortExact` and `Defects.TableExact` on blocks at a wrong place |
| Visibility.WrongFails | ddt_jit.cpp:109-188 | where memory can tell, some legal call of the emitted function returns with wrong memory |
| Visibility.PackIsUnpack | ddt_jit.cpp:1189-1195 | pack code unpacks a typemap if and only if the typemap, as a map of positions, undoes itself |
| Visibility.ResizedUnpackShows | ddt_jit.cpp:1189-1195 | so the unpack function of a resized primitive or contiguous type leaves the right memory if and only if the typemap of its n items undoes itself |
| Visibility.InterleavedExample | ddt_jit.cpp:1189-1195 | resized(0,1)[ctg(2)[resized(0,2)[char]]]: two items are unpacked rightly, by other transfers than the typemap's |
| ZeroCount.FirstItemMoved | codegen_contiguous.cpp:46-66 | the code of every type but a primitive comes to a state with exactly the first item moved, whatever the count |
| ZeroCount.ZeroPrimitive | codegen_primitive.cpp:30-142 | a primitive's function returns with memory unchanged for count zero |
| ZeroCount.ZeroExact | codegen_contiguous.cpp:46-66 | a call with count zero changes some memory if and only if the type is not a primitive and some block of it ends in a type for which code is emitted |
| Silence.RouteSilent | ddt_jit.cpp:1136-1178 | no byte is moved if and only if all blocks end in resized indexed, struct or resized types |
| Silence.SilentIsQuiet | ddt_jit.cpp:1136-1178 | the code of such a tree has no instruction that writes memory |
| Addressed.StructIsBlocks | ddt_jit.cpp:1039-1047 | a struct compiles to the indexed loop over its fields, with its extent as a constant |
| Addressed.OneItemCompiled | codegen_indexed.cpp:221-284 | one item of a struct at any 64-bit displacements is packed and unpacked by its typemap, whatever extent is stored |
| Structure.StartLoopClosed | codegen_vector.cpp:45-57 | opening a loop keeps: every other block terminated, every branch target present, one phi entry per predecessor |
| Structure.EndLoopClosed | codegen_vector.cpp:103-111 | so does closing it, with the current block as latch |
| Structure.StraightStays | codegen_primitive.cpp:30-142 | exactly which trees and counts are emitted without a new block |
| Structure.TableInnerSound | codegen_indexed.cpp:79-86 | the table loop keeps its phis right if and only if its base stays in one block |
| Structure.EmitClosedExact | codegen_vector.cpp:45-137 | emission from any closed builder is closed if and only if every table loop in the tree has a straight-line base |
| Structure.FunctionComplete | ddt_jit.cpp:124-136 | every emitted function is a complete control-flow graph under exactly that condition |
| Structure.BranchFailsExact | ddt_jit.cpp:94-98 | in a complete function a branch that is taken fails if and only if a register is undefined |
| Stuckness.TableSticks | codegen_indexed.cpp:79-86 | a long indexed block over a type that leaves its block ends every call, whatever the count, in a phi without entry at its second displacement |
| Structure.EmittableStays | codegen_indexed.cpp:25-102 | every tree whose table loops copy single primitives satisfies it |
| Building.IRBuilder.CreatePhi | codegen_vector.cpp:52-57 | a phi with its first entry is added to the insertion block |
| Building.IRBuilder.AddBackEdge | codegen_vector.cpp:109-111 | one more entry for one phi; nothing else changes |
| Building.IRBuilder.Compute | codegen_vector.cpp:63-68 | one instruction is appended and its result is a new register |
| Building.IRBuilder.Loop | codegen_vector.cpp:45-57 | block, branch and phis together open a loop |
| Building.IRBuilder.Close | codegen_vector.cpp:103-111 | block, branch and back edges together close it |
| Codegen.Unroll | codegen_primitive.cpp:111-119 | the unrolling loop emits the moves of the specification |
| Codegen.CodegenPostamble | codegen_primitive.cpp:133-142 | so does the halving loop |
| Codegen.CodegenCopyLoop | codegen_primitive.cpp:93-131 | the emitted copy loop |
| Codegen.CodegenPrimitive | codegen_primitive.cpp:25-142 | both branches, on the mutable builder |
| Codegen.CodegenPrimitiveResized | codegen_primitive.cpp:331-377 | the resized primitive |
| Codegen.CodegenContiguous | codegen_contiguous.cpp:19-73 | the contiguous generator |
| Codegen.CodegenVector | codegen_vector.cpp:31-138 | the outer loop |
| Codegen.CodegenVectorInner | codegen_vector.cpp:71-111 | the inner loop, which compares the other pointer when unpacking |
| Codegen.CodegenBlocks | codegen_indexed.cpp:128-143 | the generation-time loop over the blocks, with the compact pointer carried along |
| Codegen.CodegenIndexed | codegen_indexed.cpp:103-157 | the loop around it, shared by codegenHindexed and codegenStruct |
| Codegen.BuildTable | ddt_jit.cpp:795-809 | the displacement table of a long indexed block |
| Codegen.CodegenTable | codegen_indexed.cpp:25-102 | the loops over it |
| Codegen.CodegenTableInner | codegen_indexed.cpp:50-86 | the inner of these, with its first block recorded as latch |
| Codegen.CodegenDatatype | ddt_jit.cpp:779-787 | the packCodegen and unpackCodegen dispatch of every class |
| Codegen.CodegenStrided | ddt_jit.cpp:450-464 | strides and increments change places for unpack |
| Codegen.CodegenResized | ddt_jit.cpp:1136-1226 | the dispatch on the base of a resized type |
| Codegen.Generate | ddt_jit.cpp:124-136 | a fresh function, its code and its return |
| Objects.Measure | ddt_jit.cpp:416-439 | every constructor stores the size and bounds of the tree it builds |
| Objects.ShapesMean | ddt_jit.hpp:103-345 | the fields of each class and the tree they stand for |
| Objects.IndexedBlockBounds | ddt_jit.cpp:740-757 | the loop over displacements ends with the least and greatest of the initial and scaled values |
| Objects.HIndexedNumbers | ddt_jit.cpp:873-903 | the same for blocks with their own lengths, and their total size |
| Objects.StructNumbers | ddt_jit.cpp:1007-1022 | the same for entries with their own types |
| Objects.New | ddt_jit.cpp:301-314 | a constructor returns a tree of new objects, whatever its arguments share |
| Objects.Node.Clone | ddt_jit.cpp:320-322 | so does clone, with the same meaning |
| Objects.Node.Delete | ddt_jit.cpp:316-318 | the destructor frees every object of the tree |
| Objects.CompressNode | ddt_jit.cpp:336-356 | compress returns new objects that mean the compressed tree and leaves its receiver alone |
| Objects.FoldedVector | ddt_jit.cpp:466-484 | the folding half for vectors, which frees the compressed base if and only if it has folded it |
| Objects.PromotedVector | ddt_jit.cpp:486-493 | the promoting half, which frees the vector if it replaces it |
| Objects.PromotedHVector | ddt_jit.cpp:640-647 | the same for hvectors |
| Objects.CompileNode | ddt_jit.cpp:109-187 | compile generates from the compressed tree, frees every object of it, and changes no object that existed before |
| Objects.FreeAfterUse | ddt_jit.cpp:185-187 | freeing the types another was built from, any number for a struct, leaves it and all others as they were |
| Kernels.OptimisedPacks | benchmarks/llkernels/vector_double_32_5_180.ll:2-58 | the unrolled pointer-exit kernel packs n items of vec(32 5 180)[double] for every n >= 1 |
| Kernels.ReferencePacks | benchmarks/llkernels/vector_double_32_5_180_old.ll:2-32 | so does the counting kernel |
| Kernels.KernelsAgree | benchmarks/llkernels/vector_double_32_5_180.ll:8-58 | both, and the code the compiler emits for the type, leave identical memory, that of the MPI typemap |
| Kernels.KernelBytes | benchmarks/llkernels/vector_double_32_5_180.ll:1-40 | byte b of block i of item q is taken from 44680 q + 1440 i + b |
| TypeLanguage.PrintDispls | ddt_jit.cpp:859-867 | the printing loop of indexed blocks |
| TypeLanguage.PrintEntries | ddt_jit.cpp:978-990 | the printing loop of hindexed types |
| TypeText.Words | ddtplayer/lexer.flex:11-23 | every word of the language, printed and read |
| TypeText.Signs | ddtplayer/lexer.flex:25-32 | blanks, punctuation and a lone minus |
| TypeText.Comments | ddtplayer/lexer.flex:34 | a comment ends with its line |
| TypeText.NumbersBeyondLong | ddtplayer/lexer.flex:27-27 | numbers beyond 64 bits are cut to -1 or 0, ints are kept, others not |
| TypeText.VectorText | ddtplayer/parser.ypp:168-199 | the text of a vec or hvec gives count, block length and stride in this order |
| TypeText.IndexedText | ddtplayer/parser.ypp:201-336 | the texts of idxb, hidx and resized, and the order of their numbers |
| TypeText.CommaDispls | ddtplayer/parser.ypp:207-225 | displacements may be separated by commas |
| TypeText.SummaryIndexedBlock | ddt_jit.cpp:853-872 | the summary of an indexed block shows the number of displacements and the block length |
| TypeText.StructHead | ddt_jit.cpp:1100-1112 | a struct shows its number of fields first |
| TypeText.StructField | ddt_jit.cpp:1100-1112 | then displacement, block length and type of each |
| TypeRoundTrip.LexNum | ddtplayer/lexer.flex:27-27 | a printed number lexes to its value cut to an int, also when negative |
| TypeRoundTrip.LexKeyword | ddtplayer/lexer.flex:11-23 | a printed keyword lexes to itself, whatever follows |
| TypeRoundTrip.ParsePrinted | ddtplayer/parser.ypp:81-336 | the printed form of a tree parses to exactly that tree, its numbers cut to int, if it has no struct and no empty index list (and no indexed block in the summary form), and is a syntax error otherwise |
| TypeRoundTrip.TruncatedExact | ddtplayer/lexer.flex:27-27 | that is the tree itself if and only if all its numbers are ints |
| TypeRoundTrip.ParsePrintedFile | ddtplayer/parser.ypp:69-79 | a file of printed types reads back as the list of these types if and only if their numbers are ints |
| TypeActions.ContiguousAction | ddtplayer/parser.ypp:145-164 | the nested loops of the contiguous action push the expansion in order |
| TypeActions.CreateVecs | ddtplayer/parser.ypp:345-382 | so do the four nested loops of createVecs |
| Expansion.ValuesInOrder | ddtplayer/parser.ypp:133-143 | the values of a range are start + k * stride, in this order, up to the last that does not exceed stop |
| Expansion.AllContiguousAt | ddtplayer/parser.ypp:145-165 | ctg makes one type for each subtype and count, in this nesting |
| Expansion.VecsAt | ddtplayer/parser.ypp:345-378 | vec and hvec one for each subtype, count, block length and stride, in this nesting |
| Expansion.RangeText | ddtplayer/parser.ypp:133-143 | a:b:c is start, stride, stop |
| Expansion.ContiguousRangeText | ddtplayer/parser.ypp:145-165 | the text ctg(a:b:c)[primitive] denotes ctg(a), ctg(a + b), ... up to c, in this order |
| Expansion.ContiguousEndless | ddtplayer/parser.ypp:152-159 | its action does not end if and only if the stride is not positive and the range not empty |
| Expansion.VecsEndless | ddtplayer/parser.ypp:356-358 | createVecs does not end if and only if a stuck loop is entered |
| TypeActions.ValuesExact | ddtplayer/parser.ypp:133-155 | a range denotes start, start + stride, ... up to stop and nothing else |
| TypeActions.VecsExact | ddtplayer/parser.ypp:354-378 | createVecs makes every combination of its ranges and subtypes, and nothing else |
| Nas.FacesAreTypemaps | benchmarks/ddtbench/src_c/timing_nas.c:579-584 | the elements each manual loop visits are, in order, the bytes of the datatype built for the face, for all dimensions |
| Nas.FacesInOrder | benchmarks/ddtbench/src_c/timing_nas.c:662-695 | the faces are the inner points of their planes, the first dimension innermost |
| Nas.FacesAreMpi | benchmarks/ddtbench/src_c/timing_nas.c:579-584 | these typemaps are MPI's |
| Nas.PackFaceX | benchmarks/ddtbench/src_c/timing_nas.c:665-670 | the x loop fills the buffer with the face |
| Nas.UnpackFaceX | benchmarks/ddtbench/src_c/timing_nas.c:675-680 | its counterpart writes the face and nothing else |
| Nas.PackFaceY | benchmarks/ddtbench/src_c/timing_nas.c:925-930 | the y loop |
| Nas.UnpackFaceY | benchmarks/ddtbench/src_c/timing_nas.c:935-940 | its counterpart |
| Nas.PackFaceZ | benchmarks/ddtbench/src_c/timing_nas.c:1177-1182 | the z loop |
| Nas.UnpackFaceZ | benchmarks/ddtbench/src_c/timing_nas.c:1187-1192 | its counterpart |
| Nas.FacesRoundTrip | benchmarks/ddtbench/src_c/timing_nas.c:665-680 | packing and unpacking a face undo each other for all dimensions and contents |
| Wrf.LowerDimensions | benchmarks/ddtbench/src_c/timing_wrf.c:140-155 | the index functions of two and three dimensions are the four-dimensional one at zero, so the loops below index as the program's do |
| Wrf.PackArea | benchmarks/ddtbench/src_c/timing_wrf.c:140-146 | the loops over a two-dimensional sub-array, from its own first index |
| Wrf.PackBox | benchmarks/ddtbench/src_c/timing_wrf.c:147-155 | over a three-dimensional one |
| Wrf.PackHyper | benchmarks/ddtbench/src_c/timing_wrf.c:156-166 | over a four-dimensional one |
| Wrf.UnpackHyper | benchmarks/ddtbench/src_c/timing_wrf.c:190-200 | the unpack loops of the same shape |
| WrfExchange.ElementNumber | benchmarks/ddtbench/src_c/timing_wrf.c:119-125 | element_number is the number of elements the loops visit |
| WrfIndices.IndicesAt2D | benchmarks/ddtbench/src_c/timing_wrf.c:140-146 | the elements of a two-dimensional array in the order of the loops, by the inclusive bounds |
| WrfIndices.IndicesAt3D | benchmarks/ddtbench/src_c/timing_wrf.c:147-155 | of a three-dimensional one |
| WrfIndices.IndicesAt4D | benchmarks/ddtbench/src_c/timing_wrf.c:156-166 | of a four-dimensional one, for the scalars from the first one on below the array's limit |
| WrfIndices.IndicesExact | benchmarks/ddtbench/src_c/timing_wrf.c:140-166 | an element is exchanged if and only if it lies in the sub-box and, in four dimensions, its scalar in that range |
| WrfIndices.CountExact | benchmarks/ddtbench/src_c/timing_wrf.c:119-125 | how many elements each array adds to the buffer |
| WrfIndices.FirstElementAt | benchmarks/ddtbench/src_c/timing_wrf.c:432-458 | the element whose address is the struct's displacement |
| WrfExchange.PackAll | benchmarks/ddtbench/src_c/timing_wrf.c:139-166 | the packing loops fill the buffer, array after array, and end with counter == element_number |
| WrfExchange.UnpackAll | benchmarks/ddtbench/src_c/timing_wrf.c:173-200 | the unpack loops scatter each array's segment and change nothing else |
| WrfExchange.UnpackInvertsPack | benchmarks/ddtbench/src_c/timing_wrf.c:139-200 | unpack inverts pack and pack inverts unpack, array by array |
| WrfExchange.LoopsAreTypemap | benchmarks/ddtbench/src_c/timing_wrf.c:429-461 | the bytes the loops visit are, in order, the typemap of the struct of vectors and hvectors, for all dimensions, bounds and addresses |
| WrfExchange.LoopsAreMpi | benchmarks/ddtbench/src_c/timing_wrf.c:429-461 | it is MPI's |
| WrfCompilation.CompiledPacksLikeLoops | benchmarks/ddtbench/src_c/timing_wrf.c:139-166 | the compiled pack function of the struct, called once at MPI_BOTTOM, leaves in the packed buffer the elements that the packing loops leave in theirs |
| WrfCompilation.CompiledUnpacksLikeLoops | benchmarks/ddtbench/src_c/timing_wrf.c:173-200 | the compiled unpack function, called once at MPI_BOTTOM, leaves every array as the unpack loops leave it, if no two bytes of the arrays share an address |
| Handles.HandleTable.constructor | interposer_common.cpp:124-135 | all fast numbers are queued |
| Handles.HandleTable.HandleCreate | interposer_common.cpp:55-68 | a queued fast number, or fifty plus the size of the map |
| Handles.HandleTable.HandleFree | interposer_common.cpp:70-79 | the number is queued or leaves the map |
| Handles.HandleTable.HandleStore | interposer_common.cpp:81-90 | the entry of this handle becomes the new type and no other changes |
| Handles.HandleTable.HandleRetrieve | interposer_common.cpp:113-122 | the stored type; looking up an unknown overflow handle inserts it |
| Handles.HandleTable.MakeType | interposer_common.cpp:151-159 | a handle first, then the type behind it |
| Handles.CreateIsFresh | interposer_common.cpp:57-66 | the next handle is unused if and only if a fast number is queued or fifty plus the map's size is not taken |
| HandleOrder.CreatesCount | interposer_common.cpp:55-68 | from initialisation, creates give out 0, 1, 2, ... |
| HandleOrder.FreedIsLast | interposer_common.cpp:70-73 | a freed fast handle is given out again after all that were free before it |
| HandleOrder.LookUpExact | interposer_common.cpp:113-122 | looking up an unknown overflow handle raises the next number by one; other look-ups change nothing |
| Handles.DropStaysGapless | interposer_common.cpp:75-77 | the overflow numbers stay gapless if and only if the newest is freed |
| Handles.RunIsConsistent | interposer_common.cpp:55-122 | over every legal run queue and live fast handles partition 0..49, live handles retrieve their last type, and the next handle is new |
| Handles.RunFromBegin | interposer_common.cpp:124-135 | so it is in every state a legal run reaches from initialisation |
| Handles.CollisionCounterexample | interposer_common.cpp:62-66 | a legal run from initialisation, 52 creates, reaches a state in which freeing overflow handles oldest first makes two users share one |
| Requests.Interposer.BufferAlloc | interposer_common.cpp:260-270 | scratch if it fits and is free, else a new heap buffer |
| Requests.Interposer.BufferFree | interposer_common.cpp:272-279 | the buffer is released; scratch is marked in use |
| Requests.Interposer.RequestRegister | interposer_common.cpp:295-309 | a request joins the end of the list |
| Requests.Interposer.RequestFree | interposer_common.cpp:311-328 | the first request with this address is unpacked if its user buffer is not NULL, released and removed |
| Requests.Interposer.Wait | interposer_common.cpp:334-346 | a non-null request is completed |
| Requests.Interposer.Waitall | interposer_common.cpp:348-382 | every request that was not null is completed |
| Requests.Interposer.Testall | interposer_common.cpp:419-454 | every request that became null is completed |
| Requests.Interposer.Test | interposer_common.cpp:387-414 | a non-null request is completed, finished or not |
| Requests.TestExact | interposer_common.cpp:387-414 | MPI_Test does what MPI_Testall does if and only if the request was null, has finished, or is not in the list |
| Completion.WaitsExact | interposer_common.cpp:348-363 | MPI_Waitall completes exactly the pending requests named by an entry that was not null, in the order of the entries; the others stay in their order |
| Completion.TestsExact | interposer_common.cpp:419-433 | MPI_Testall exactly those whose entry also became null |
| Completion.StartsExactly | interposer_common.cpp:260-309 | a nonblocking call gets a buffer by its own size, scratch up to two mebibytes, and joins the list at its end |
| Completion.BlockingExactly | interposer.c:100-137 | a blocking call is over when it returns, its buffer unpacked if it receives and given back |
| Requests.RunKeeps | interposer_common.cpp:260-328 | over every legal run the list holds exactly the started and uncompleted requests (what each call completes is `Completion.WaitsExact`), each completed one's buffer was treated once and in order, and no buffer is given out twice |
| Requests.RunFromBegin | interposer_common.cpp:260-328 | so it is in every state a legal run reaches from initialisation |
| Requests.BufferHistory | interposer_common.cpp:295-328 | a completed receive's buffer was unpacked exactly once if the receive blocked or its user buffer is not NULL, and never otherwise; a send's never; then it was freed once; an outstanding request's is untouched and its own |
| Requests.ReceivedExact | interposer_common.cpp:36-38 | over every legal run a completed receive has had its data unpacked if and only if it blocked or its user buffer is not NULL |
| Requests.ReceiveAtBottom | interposer.c:118-166 | MPI_Irecv at MPI_BOTTOM and MPI_Wait release the buffer and never unpack it; MPI_Recv unpacks it |
| Requests.ScratchServesOnce | interposer_common.cpp:260-279 | at any point of a legal run the scratch buffer is handed out if and only if the size fits and no request was ever given it; once used, it never is again |
| Interposition.HandleKeeps | interposer_common.cpp:55-122 | over every legal run of both halves a handle leads to the object it had, undeleted, if and only if the program has not freed it |
| Interposition.ReceiveUses | interposer_common.cpp:311-328 | a pending receive, waited for, is unpacked once, and with the type object it was posted with if and only if the program did not free its type meanwhile |
| Interposition.FreedWhilePending | interposer_common.cpp:311-328 | a legal run from initialisation in which the type of a pending receive is freed and its handle then leads to another type |

## Left out

- LLVM itself: optimisation passes, machine code, the execution engine and function pointers are foreign code; the emitted IR is run by the step semantics of `Machine`.
- Casts between pointers and integers are not instructions of the model; a pointer is its address.
- The displacement table is a constant of the instruction that loads from it, not a global of the module.
- The two code variants of codegenPrimitive that are not built by default (PACKVAR 2 and 3).
- Vectors with a stride of zero or less, which the source marks as unsupported, and zero counts inside a tree above a loop.
- True bounds, which the source marks as unfinished.
- The second half of the doubled lists inside `StructDatatype`, which only its printer reads; a printed struct is a syntax error either way.
- Compilation.CompiledFunctionRuns: the shape condition is exact on trees whose blocks are placed right (`Steps.GoodIsNeeded`) and the condition on bounds at each node (`MpiTrees.IndexedNodesExact`); for misplaced blocks and wrong extents in several nested nodes at once both are sufficient only, as their errors could cancel.
- ExecTypes.EmitRuns: excludes long indexed blocks over other types than single primitives; alone, `Defects.TablePerforms`, `Defects.TableGoesOnFor` and `Stuckness.TableSticks` run them, inside other types they are not run.
- Addressed.OneItemCompiled: the extent that a struct of 64-bit displacements stores, cut to an int, is any number here; several items of such a struct are not run.
- Interposition.HandleKeeps: as in `Handles`, legal runs free overflow handles newest first; any other order makes handles collide (`Handles.CollisionCounterexample`).
- Mpi.MpiExtent: MPI lets an implementation pad extents to an alignment; the constructors never do, and here the padding is none.
- Bounds.BoundsEnclose: trees with resized nodes, or with indexed and struct nodes over types that do not start at zero, whose stored bounds need not enclose their offsets.
- Objects.CompressNode: the compressed children that `StructDatatype::compress` makes and drops are not allocated, so the memory leak there is not modelled.
- The grammar is a recursive-descent parser with the same alternatives, not bison's automaton; a syntax error drops the types read before it, and the loops over ranges do not wrap around at the ends of int.
- Requests.RunKeeps: malloc is modelled as numbering its buffers, so reuse of a freed address is not visible; packing into the buffer at the start of a send is the compiler's part.
- MPI_Pack and MPI_Unpack ignore their position argument, as their source comments say; no call sequences of them are modelled.
- Handles of the five primitive types, which the retrieve function answers before it looks at the table.
- The NAS LU y and MILC loops, whose bounds or order differ from their datatypes.
- Communication, timing and debug output of the benchmarks; only their pack and unpack loops are modelled.
