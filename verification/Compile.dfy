/** Datatype::compile: compress the tree, emit a pack or unpack function, return. */
module Compilation {
  import opened Datatypes
  import opened Typemap
  import opened Wellformed
  import opened Bounds
  import opened Mpi
  import opened MpiTrees
  import opened Compression
  import opened Machine
  import opened Builders
  import opened Transfers
  import opened Emission
  import opened ExecPrimitive
  import opened Execution
  import opened Support
  import opened Routes
  import opened Calls
  import opened ExecTypes
  import opened Correctness

  /** The arguments are registers 0, 1 and 2; the entry block is empty. */
  const ENTRY := Builder([Block([], [], Open)], 0, 3)

  /** The blocks of a builder, returning where it inserts. */
  function Finish(b: Builder): seq<Block>
    requires Ok(b)
  {
    b.blocks[b.cur := b.blocks[b.cur].(term := Ret)]
  }

  /** The function emitted for t, without compression. */
  function Function(t: Datatype, pack: bool): seq<Block> {
    Finish(Emit(t, pack, ENTRY, Reg(0), Reg(1), Reg(2)))
  }

  /** The function compile() installs. */
  function Compile(t: Datatype, pack: bool): seq<Block> { Function(Compress(t), pack) }

  function Call(mem: Memory, inbuf: int, count: int, outbuf: int): State {
    Running(Conf(map[0 := inbuf, 1 := count, 2 := outbuf], mem), 0, 0)
  }

  /** Two addresses and a count that fits. */
  predicate Passable(t: Datatype, inbuf: int, n: int, outbuf: int) {
    0 <= inbuf < W && 0 <= outbuf < W && 0 <= n < W32 && CountOk(t, n)
  }

  /** A call that the library's user may make: the count fits, the buffers are mapped where the
      typemap needs them and do not alias. */
  ghost predicate Callable(t: Datatype, pack: bool, mem: Memory, inbuf: int, n: int, outbuf: int) {
    Passable(t, inbuf, n, outbuf) && Ready(mem, Moves(pack, Copies(t, n), inbuf, outbuf))
  }

  function Start(mem: Memory, inbuf: int, n: int, outbuf: int): Conf {
    Conf(map[0 := inbuf, 1 := n, 2 := outbuf], mem)
  }

  /** The run of a function from what its code does. */
  lemma FinishReturns(b: Builder, mem: Memory, inbuf: int, n: int, outbuf: int, conf': Conf, ts: seq<Transfer>)
    requires Ok(b) && Done(Finish(b), 3, ENTRY, b, Start(mem, inbuf, n, outbuf), conf', ts)
    ensures Reaches(Finish(b), Call(mem, inbuf, n, outbuf), Returned(Copy(mem, ts)))
  {
    hide Copy, Keeps;
    OneStep(Finish(b), At(b, conf'));
    Chain(Finish(b), At(ENTRY, Start(mem, inbuf, n, outbuf)), At(b, conf'), Returned(conf'.mem));
  }

  lemma FinishContains(b: Builder)
    requires Ok(b)
    ensures Le(b.blocks, Finish(b))
  {
    forall id | 0 <= id < |b.blocks| ensures BlockLe(b.blocks[id], Finish(b)[id]) {}
  }

  lemma StartArgs(mem: Memory, inbuf: int, n: int, outbuf: int)
    requires 0 <= inbuf < W && 0 <= outbuf < W && 0 <= n < W32
    ensures var regs := Start(mem, inbuf, n, outbuf).regs;
      && Args(regs, 3, Reg(0), Reg(1), Reg(2)) && Ok(ENTRY)
      && Ev(regs, Reg(0)) == inbuf && Ev(regs, Reg(1)) == n && Ev(regs, Reg(2)) == outbuf
  {}

  /** WHAT THE EMITTED FUNCTION DOES, right or wrong: called on memory in which its route is mapped and reads
      no byte that it writes, it returns with exactly the transfers of the route done in order. */
  lemma FunctionPerforms(t: Datatype, pack: bool, mem: Memory, inbuf: int, n: int, outbuf: int)
    requires Emittable(t) && Passable(t, inbuf, n, outbuf)
    requires Ready(mem, Along(RouteCopies(t, pack, n), inbuf, outbuf))
    ensures Reaches(Function(t, pack), Call(mem, inbuf, n, outbuf),
                    Returned(Copy(mem, Along(RouteCopies(t, pack, n), inbuf, outbuf))))
  {
    hide Emittable, Ready, Along, RouteCopies, Copy, Emit, Done, Le, Finish, Args, Ok, Start, Runs;
    var p, b := Function(t, pack), Emit(t, pack, ENTRY, Reg(0), Reg(1), Reg(2));
    var conf := Start(mem, inbuf, n, outbuf);
    FinishContains(b);
    StartArgs(mem, inbuf, n, outbuf);
    StartMemory(mem, inbuf, n, outbuf);
    EmitRuns(p, t, pack);
    var conf' := RunBase(p, t, pack, ENTRY, Reg(0), Reg(1), Reg(2), conf);
    FinishReturns(b, mem, inbuf, n, outbuf, conf', Along(RouteCopies(t, pack, n), inbuf, outbuf));
  }

  lemma StartMemory(mem: Memory, inbuf: int, n: int, outbuf: int)
    ensures Start(mem, inbuf, n, outbuf).mem == mem
  {}

  /** Where the shape condition holds, that is what the typemap asks for. */
  lemma EmittedFunctionRuns(t: Datatype, pack: bool, mem: Memory, inbuf: int, n: int, outbuf: int)
    requires Supported(t, pack) && Callable(t, pack, mem, inbuf, n, outbuf)
    ensures Reaches(Function(t, pack), Call(mem, inbuf, n, outbuf),
                    Returned(Copy(mem, Moves(pack, Copies(t, n), inbuf, outbuf))))
  {
    hide Ready, Moves, Copies, Copy, Along, RouteCopies, Function, Good, TablesSingle, Positive, Fits, Passable;
    GoodRoute(t, pack, n, inbuf, outbuf);
    GoodIsEmittable(t, pack);
    FunctionPerforms(t, pack, mem, inbuf, n, outbuf);
  }

  // ----- compression keeps trees supported -----

  /** unpackCodegen hands packing arguments to resized primitives and contiguous types, so for
      unpacking a resized base must still be a vector after compression, or have no gaps and keep
      its extent. */
  predicate ResizedStays(t: Datatype)
    decreases t, 0
  {
    match t
    case Primitive(_) => true
    case Struct(_) => true
    case Resized(_, extent, base) =>
      && ResizedStays(base)
      && (Compress(base).Vector? || Compress(base).HVector? || (GapFree(base) && extent == Size(base)))
    case _ => ResizedStays(t.base)
  }

  lemma CompressKeepsSized(t: Datatype)
    requires Positive(t)
    ensures Sized(Compress(t)) <==> Sized(t)
  {
    CompressKeepsMeaning(t);
    SizeIsMapLength(t);
    SizeIsMapLength(Compress(t));
  }

  /** Compression keeps what the generators need. */
  lemma {:induction false} CompressKeepsGood(t: Datatype, pack: bool)
    requires Positive(t) && Good(t, pack) && (pack || ResizedStays(t))
    ensures Good(Compress(t), pack)
    decreases t
  {
    hide Positive, Size, Extent, Lb, Ub, Map, SameMeaning;
    match t
    case Primitive(_) =>
    case Struct(_) =>
    case Contiguous(_, base) => BaseKeepsGood(t, pack); CompressKeepsGood(base, pack);
    case Vector(_, _, _, base) => BaseKeepsGood(t, pack); CompressKeepsGood(base, pack);
    case HVector(_, _, _, base) => BaseKeepsGood(t, pack); CompressKeepsGood(base, pack);
    case IndexedBlock(_, displs, base) =>
      if |displs| <= IDXB_LOOP_THRESHOLD { BaseKeepsGood(t, pack); CompressKeepsGood(base, pack); }
    case HIndexed(_, base) => BaseKeepsGood(t, pack); CompressKeepsGood(base, pack);
    case Resized(_, _, _) => ResizedKeepsGood(t, pack);
  }

  lemma BaseKeepsGood(t: Datatype, pack: bool)
    requires Positive(t) && !t.Primitive? && !t.Struct? && !t.Resized?
    requires Sized(t.base)
    ensures Positive(t.base) && Sized(Compress(t.base))
    ensures Size(Compress(t.base)) == Size(t.base) && Extent(Compress(t.base)) == Extent(t.base)
    ensures t.base.Primitive? ==> Compress(t.base) == t.base
  {
    CompressKeepsSized(t.base);
    CompressKeepsMeaning(t.base);
  }

  lemma ResizedKeepsGood(t: Datatype, pack: bool)
    requires t.Resized? && Positive(t) && Good(t, pack) && (pack || ResizedStays(t))
    ensures Good(Compress(t), pack)
    decreases t, 0
  {
    var base := t.base;
    CompressKeepsMeaning(base);
    if !pack && GapFree(base) && t.extent == Size(base) {
      GapFreeCollapses(base);
    } else if base.Vector? || base.HVector? {
      CompressKeepsGood(base, pack);
      CompressedStrided(base);
    } else if base.Contiguous? {
      CompressKeepsGood(base, true);
      CompressedStrided(base);
    }
  }

  /** A compressed contiguous, vector or hvector type is again one of these. */
  lemma CompressedStrided(t: Datatype)
    ensures t.Contiguous? ==> Compress(t).Contiguous?
    ensures t.Vector? ==> Compress(t).Vector? || Compress(t).Contiguous?
    ensures t.HVector? ==> Compress(t).HVector? || Compress(t).Contiguous?
  {}

  /** The trees that compile() compiles correctly, a condition on the tree and on its compressed form. */
  predicate Compilable(t: Datatype, pack: bool) {
    Positive(t) && Fits(t) && Good(Compress(t), pack)
  }

  lemma SupportedIsCompilable(t: Datatype, pack: bool)
    requires Supported(t, pack) && (pack || ResizedStays(t))
    ensures Compilable(t, pack)
  {
    CompressKeepsGood(t, pack);
  }

  /** On such a tree the compiled function does what the typemap of the stored extents asks for. */
  lemma CompiledFunctionPerforms(t: Datatype, pack: bool, mem: Memory, inbuf: int, n: int, outbuf: int)
    requires Compilable(t, pack) && Callable(t, pack, mem, inbuf, n, outbuf)
    ensures Reaches(Compile(t, pack), Call(mem, inbuf, n, outbuf),
                    Returned(Copy(mem, Moves(pack, Copies(t, n), inbuf, outbuf))))
  {
    hide Ready, Moves, Copy, Emit, Rep, Good, Route, RouteCopies;
    CompressKeepsMeaning(t);
    CompressFits(t);
    assert Copies(Compress(t), n) == Copies(t, n);
    EmittedFunctionRuns(Compress(t), pack, mem, inbuf, n, outbuf);
  }

  /** A call that MPI allows. */
  ghost predicate MpiCallable(t: Datatype, pack: bool, mem: Memory, inbuf: int, n: int, outbuf: int) {
    Passable(t, inbuf, n, outbuf) && Ready(mem, Moves(pack, MpiCopies(t, n), inbuf, outbuf))
  }

  /** Where the stored bounds meet MPI's, the two notions of a call and of its transfers are one. */
  lemma MpiCalls(t: Datatype, pack: bool, mem: Memory, inbuf: int, n: int, outbuf: int)
    requires Positive(t) && MpiMet(t, n) && Passable(t, inbuf, n, outbuf)
    ensures Copies(t, n) == MpiCopies(t, n)
    ensures MpiCallable(t, pack, mem, inbuf, n, outbuf) <==> Callable(t, pack, mem, inbuf, n, outbuf)
  {
    hide Positive, MpiMet, Copies, MpiCopies, Ready, Moves;
    MpiMetIsRight(t, n);
  }

  /** THE COMPILER IS CORRECT.  For every such tree whose indexed and struct nodes store bounds that meet MPI's,
      and every call that MPI allows, the compiled function returns, and memory is the old memory with
      exactly the transfers of t's MPI typemap done in order: no other byte is written, none outside the
      typemap is read, and no phi, register or address is ever undefined. */
  lemma CompiledFunctionRuns(t: Datatype, pack: bool, mem: Memory, inbuf: int, n: int, outbuf: int)
    requires Compilable(t, pack) && MpiMet(t, n) && MpiCallable(t, pack, mem, inbuf, n, outbuf)
    ensures Reaches(Compile(t, pack), Call(mem, inbuf, n, outbuf),
                    Returned(Copy(mem, Moves(pack, MpiCopies(t, n), inbuf, outbuf))))
  {
    hide Positive, Fits, Good, MpiMet, Copies, MpiCopies, Ready, Moves, Copy, Compile, Reaches;
    MpiCalls(t, pack, mem, inbuf, n, outbuf);
    CompiledFunctionPerforms(t, pack, mem, inbuf, n, outbuf);
  }

  /** Whatever way the compiled function stops, it stops there. */
  lemma CompiledFunctionDeterministic(t: Datatype, pack: bool, mem: Memory, inbuf: int, n: int, outbuf: int, s: State)
    requires Compilable(t, pack) && MpiMet(t, n) && MpiCallable(t, pack, mem, inbuf, n, outbuf)
    requires Reaches(Compile(t, pack), Call(mem, inbuf, n, outbuf), s) && !s.Running?
    ensures s == Returned(Copy(mem, Moves(pack, MpiCopies(t, n), inbuf, outbuf)))
  {
    hide Compilable, MpiCallable, MpiMet, Moves, Copy, Compile, MpiCopies;
    CompiledFunctionRuns(t, pack, mem, inbuf, n, outbuf);
    FinalStateUnique(Compile(t, pack), Call(mem, inbuf, n, outbuf), s,
                     Returned(Copy(mem, Moves(pack, MpiCopies(t, n), inbuf, outbuf))));
  }

  /** Without the condition on bounds it fails: idxb(1:10)[double] compiles, and two items of it are packed from
      the bytes 80 and 158, where MPI's second item starts at 88. */
  lemma BoundsAreNeeded(pack: bool, inbuf: int, outbuf: int)
    ensures var t := IndexedBlock(1, [10], Primitive(DOUBLE));
      && Compilable(t, pack) && !MpiMet(t, 2)
      && Moves(pack, Copies(t, 2), inbuf, outbuf) != Moves(pack, MpiCopies(t, 2), inbuf, outbuf)
  {
    hide Copies, MpiCopies, MpiMet;
    var t := IndexedBlock(1, [10], Primitive(DOUBLE));
    IndexedBlockCounterexample();
    if MpiMet(t, 2) { MpiMetIsRight(t, 2); }
    ExampleFits(t);
    assert Compress(t) == t;
    OffsetsShow(pack, Copies(t, 2), MpiCopies(t, 2), 8, inbuf, outbuf);
  }

  /** Different offsets, less than an address space apart, are different transfers. */
  lemma OffsetsShow(pack: bool, tm: seq<int>, um: seq<int>, i: int, inbuf: int, outbuf: int)
    requires 0 <= i < |tm| && i < |um| && 0 < tm[i] - um[i] < W
    ensures Moves(pack, tm, inbuf, outbuf) != Moves(pack, um, inbuf, outbuf)
  {
    var a, b := Moves(pack, tm, inbuf, outbuf), Moves(pack, um, inbuf, outbuf);
    if a == b {
      assert a[i] == b[i];
      WrapInjective(um[i] + if pack then inbuf else outbuf, tm[i] - um[i], 0);
    }
  }

  lemma ExampleFits(t: Datatype)
    requires t == IndexedBlock(1, [10], Primitive(DOUBLE)) && Lb(t) == 10 && Extent(t) == 78
    ensures Fits(t) && forall pack :: Good(t, pack)
  {
    assert Fits(t.base) && Size(t.base) == 8 && Extent(t.base) == 8;
    assert Ub(t) == Lb(t) + Extent(t);
  }

  /** The uncompressed code reaches the same memory: compression changes speed only. */
  lemma CompressionIsInvisible(t: Datatype, pack: bool, mem: Memory, inbuf: int, n: int, outbuf: int, s: State)
    requires Supported(t, pack) && Compilable(t, pack) && Callable(t, pack, mem, inbuf, n, outbuf)
    requires Reaches(Function(t, pack), Call(mem, inbuf, n, outbuf), s) && !s.Running?
    ensures Reaches(Compile(t, pack), Call(mem, inbuf, n, outbuf), s)
  {
    hide Supported, Compilable, Callable, Moves, Copy, Compile, Copies, Function;
    EmittedFunctionRuns(t, pack, mem, inbuf, n, outbuf);
    CompiledFunctionPerforms(t, pack, mem, inbuf, n, outbuf);
    FinalStateUnique(Function(t, pack), Call(mem, inbuf, n, outbuf), s,
                     Returned(Copy(mem, Moves(pack, Copies(t, n), inbuf, outbuf))));
  }
}
