/** Structs of addresses.  MPI programs put absolute addresses into a struct and send one item of it from MPI_BOTTOM.
    The displacements of structs and hindexed types are 64-bit numbers, so the code reaches them, although the bounds
    such a type stores do not fit the `int`s that hold them: for one item the loop is left after one round, whatever
    number stands for the extent. */
module Addressed {
  import opened Datatypes
  import opened Typemap
  import opened Wellformed
  import opened Machine
  import opened Builders
  import opened Transfers
  import opened Emission
  import opened Routes
  import opened Execution
  import opened Support
  import opened Compression
  import opened Calls
  import opened ExecIndexed
  import opened ExecTypes
  import opened Correctness
  import opened Compilation

  /** The function for these blocks when the extent is stored as `extent`. */
  function BlocksFunction(fields: seq<Field>, pack: bool, extent: int): seq<Block> {
    Finish(EmitIndexed(ENTRY, pack, Reg(0), Reg(1), Reg(2), extent, fields))
  }

  lemma StructIsBlocks(fields: seq<Field>, pack: bool)
    ensures Compile(Struct(fields), pack) == BlocksFunction(fields, pack, Extent(Struct(fields)))
  {
    hide EmitIndexed, Finish, Extent;
    EmitUnrolledCase(Struct(fields), pack, ENTRY, Reg(0), Reg(1), Reg(2));
  }

  /** ONE ITEM AT ANY ADDRESSES, whatever the extent: the displacements and the bounds are not limited. */
  lemma OneItemCompiled(fields: seq<Field>, pack: bool, extent: int, mem: Memory, inbuf: int, outbuf: int)
    requires PositiveFields(fields) && FieldsFit(fields) && GoodFields(fields, pack)
    requires 0 <= inbuf < W && 0 <= outbuf < W && Ready(mem, Moves(pack, FieldsMap(fields), inbuf, outbuf))
    ensures Reaches(BlocksFunction(fields, pack, extent), Call(mem, inbuf, 1, outbuf),
                    Returned(Copy(mem, Moves(pack, FieldsMap(fields), inbuf, outbuf))))
  {
    hide Ready, Moves, Copy, Along, FieldsRoute, EmitIndexed, Finish, Le, Start, Args, FieldsMap, FieldsRun,
         Done, Reaches, BlockRight, FieldsSize, Way;
    var b := EmitIndexed(ENTRY, pack, Reg(0), Reg(1), Reg(2), extent, fields);
    var conf := Start(mem, inbuf, 1, outbuf);
    StructRight(fields, pack);
    FieldsWay(fields, pack);
    WayMoves(pack, FieldsMap(fields), inbuf, outbuf);
    GoodAreEmittable(fields, pack);
    StructRuns(Finish(b), fields, pack);
    FinishContains(b);
    StartArgs(mem, inbuf, 1, outbuf);
    StartMemory(mem, inbuf, 1, outbuf);
    var conf' := OneItemRuns(Finish(b), ENTRY, pack, Reg(0), Reg(1), Reg(2), extent, fields, conf);
    FinishReturns(b, mem, inbuf, 1, outbuf, conf', Moves(pack, FieldsMap(fields), inbuf, outbuf));
  }
}
