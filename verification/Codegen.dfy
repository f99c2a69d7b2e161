/** The code generators as the program runs them: they advance a mutable IR builder, rebind their
    pointers in loops, and recurse through the tree.  Each is proved to leave exactly the blocks of
    the emission function of the same name, about which modules ExecTypes and Structure speak. */
module Codegen {
  import opened Datatypes
  import opened Typemap
  import opened Compression
  import opened Machine
  import opened Builders
  import opened Emission
  import opened Compilation
  import opened Building

  // ----- codegen_primitive.cpp -----

  /** n vector moves, each followed by its two pointer increments. */
  method Unroll(b: IRBuilder, inbuf: Operand, outbuf: Operand, bytes: nat, n: nat)
    returns (inbuf': Operand, outbuf': Operand)
    requires b.Valid()
    modifies b
    ensures b.Valid() && Cursor(b.State(), inbuf', outbuf')
         == UnrollMoves(Cursor(old(b.State()), inbuf, outbuf), bytes, n)
  {
    hide Append, Bind, Extends;
    inbuf', outbuf' := inbuf, outbuf;
    for i := 0 to n
      invariant b.Valid()
      invariant UnrollMoves(Cursor(b.State(), inbuf', outbuf'), bytes, n - i)
             == UnrollMoves(Cursor(old(b.State()), inbuf, outbuf), bytes, n)
    {
      b.Insert(VMove(outbuf', inbuf', bytes));
      inbuf' := b.Compute(Add64(inbuf', Imm(bytes)));
      outbuf' := b.Compute(Add64(outbuf', Imm(bytes)));
    }
  }

  method CodegenPostamble(b: IRBuilder, inbuf: Operand, outbuf: Operand, size: nat, n: nat, vectorSize: nat)
    requires b.Valid()
    modifies b
    ensures b.Valid() && b.State() == Postamble(Cursor(old(b.State()), inbuf, outbuf), size, n, vectorSize).b
  {
    hide UnrollMoves, Extends;
    var inbuf', outbuf' := inbuf, outbuf;
    var left, vecsize := n, vectorSize;
    while vecsize > 0
      invariant b.Valid()
      invariant Postamble(Cursor(b.State(), inbuf', outbuf'), size, left, vecsize)
             == Postamble(Cursor(old(b.State()), inbuf, outbuf), size, n, vectorSize)
      decreases vecsize
    {
      var veccount := Quotient(left, vecsize);
      inbuf', outbuf' := Unroll(b, inbuf', outbuf', Product(size, vecsize), veccount);
      left := Remainder(left, vecsize);
      vecsize := vecsize / 2;
    }
  }

  method CodegenCopyLoop(b: IRBuilder, inbuf: Operand, outbuf: Operand, vectors: nat)
    returns (inbuf': Operand, outbuf': Operand)
    requires b.Valid()
    modifies b
    ensures b.Valid() && Cursor(b.State(), inbuf', outbuf') == CopyLoop(old(b.State()), inbuf, outbuf, vectors)
  {
    hide Append, Bind, StartLoop, EndLoop, UnrollMoves, Extends;
    var exitval := b.Compute(Add64(inbuf, Imm(vectors * SIMD_BYTES)));
    ghost var b1 := b.State();
    var first := b.next;
    var copyloop := b.Loop([inbuf, outbuf]);
    ghost var b2 := b.State();
    inbuf', outbuf' := Unroll(b, Reg(first), Reg(first + 1), SIMD_BYTES, COPY_LOOP_UNROLL);
    ghost var b3 := b.State();
    var exitcond := b.Compute(Equal(inbuf', exitval));
    ExtendsTransitive(b2, b3, b.State());
    LoopExtends(b1, [inbuf, outbuf], b.State(), b.cur, exitcond, [inbuf', outbuf']);
    b.Close(copyloop, b.cur, exitcond, [inbuf', outbuf']);
  }

  method CodegenPrimitive(b: IRBuilder, inbuf: Operand, n: Operand, outbuf: Operand, size: int)
    requires b.Valid() && ElementSize(size)
    modifies b
    ensures b.Valid() && b.State() == EmitPrimitive(old(b.State()), inbuf, n, outbuf, size)
  {
    hide Append, Bind, CopyLoop, Postamble, Extends;
    if n.Imm? {
      var incount := if n.value >= 0 then n.value else 0;
      var inbuf', outbuf' := inbuf, outbuf;
      if UsesCopyLoop(incount, size) {
        var vectors := VectorsToCopy(incount, size);
        inbuf', outbuf' := CodegenCopyLoop(b, inbuf, outbuf, vectors);
        incount := incount - vectors * VectorSize(size);
      }
      CodegenPostamble(b, inbuf', outbuf', size, incount, VectorSize(size));
    } else {
      var count := b.Compute(ZExt(n));
      var bytes := b.Compute(Mul64(Imm(size), count));
      b.Insert(MemCpy(outbuf, inbuf, bytes));
    }
  }

  method CodegenPrimitiveResized(b: IRBuilder, inbuf: Operand, n: Operand, outbuf: Operand, size: int, extent: int)
    requires b.Valid()
    modifies b
    ensures b.Valid() && b.State() == EmitPrimitiveResized(old(b.State()), inbuf, n, outbuf, size, extent)
  {
    hide Append, Bind, StartLoop, EndLoop, Extends;
    ghost var b0 := b.State();
    var first := b.next;
    var loop := b.Loop([inbuf, outbuf, n]);
    ghost var b1 := b.State();
    var in1, out1, count1 := Reg(first), Reg(first + 1), Reg(first + 2);
    b.Insert(MemCpy(out1, in1, Imm(size)));
    ghost var b2 := b.State();
    var nextin := b.Compute(Add64(in1, Imm(extent)));
    ghost var b3 := b.State();
    var nextout := b.Compute(Add64(out1, Imm(size)));
    ghost var b4 := b.State();
    var nextcount := b.Compute(Sub32(count1, Imm(1)));
    ghost var b5 := b.State();
    var test := b.Compute(Equal(nextcount, Imm(0)));
    ExtendsTransitive(b1, b2, b3); ExtendsTransitive(b1, b3, b4); ExtendsTransitive(b1, b4, b5);
    ExtendsTransitive(b1, b5, b.State());
    LoopExtends(b0, [inbuf, outbuf, n], b.State(), b.cur, test, [nextin, nextout, nextcount]);
    b.Close(loop, b.cur, test, [nextin, nextout, nextcount]);
  }

  // ----- codegen_contiguous.cpp -----

  method CodegenContiguous(b: IRBuilder, pack: bool, inbuf: Operand, n: Operand, outbuf: Operand,
                           base: Datatype, inInc: int, outInc: int, count: int)
    requires b.Valid()
    modifies b
    ensures b.Valid() && b.State() == EmitContiguous(old(b.State()), pack, inbuf, n, outbuf, base, inInc, outInc, count)
    decreases Height(base), 1, 0
  {
    hide Append, Bind, StartLoop, EndLoop, Emit, Extends;
    ghost var b0 := b.State();
    var first := b.next;
    var loop := b.Loop([outbuf, inbuf, Imm(0)]);
    ghost var b1 := b.State();
    var out1, in1, i := Reg(first), Reg(first + 1), Reg(first + 2);
    CodegenDatatype(base, pack, b, in1, Imm(count), out1);
    ghost var b2 := b.State();
    var nextout := b.Compute(Add64(out1, Imm(outInc)));
    ghost var b3 := b.State();
    var nextin := b.Compute(Add64(in1, Imm(inInc)));
    ghost var b4 := b.State();
    var nexti := b.Compute(Add32(i, Imm(1)));
    ghost var b5 := b.State();
    var test := b.Compute(Equal(nexti, n));
    ExtendsTransitive(b1, b2, b3); ExtendsTransitive(b1, b3, b4); ExtendsTransitive(b1, b4, b5);
    ExtendsTransitive(b1, b5, b.State());
    LoopExtends(b0, [outbuf, inbuf, Imm(0)], b.State(), b.cur, test, [nextout, nextin, nexti]);
    b.Close(loop, b.cur, test, [nextout, nextin, nexti]);
  }

  // ----- codegen_vector.cpp -----

  method CodegenVector(b: IRBuilder, pack: bool, inbuf: Operand, n: Operand, outbuf: Operand, base: Datatype,
                       blocklen: int, inStride: int, outStride: int, inInc: int, outInc: int)
    requires b.Valid()
    modifies b
    ensures b.Valid()
    ensures b.State() == EmitVector(old(b.State()), pack, inbuf, n, outbuf, base, blocklen, inStride, outStride,
                                    inInc, outInc)
    decreases Height(base), 2, 0
  {
    hide Append, Bind, StartLoop, EndLoop, VectorInner, Extends;
    ghost var b0 := b.State();
    var first := b.next;
    var outer := b.Loop([outbuf, inbuf, Imm(0)]);
    ghost var b1 := b.State();
    var out1, in1, i := Reg(first), Reg(first + 1), Reg(first + 2);
    var nextout1, nextin1 := out1, in1;
    var limit := b.Compute(if pack then Add64(out1, Imm(outInc)) else Add64(in1, Imm(inInc)));
    if pack { nextout1 := limit; } else { nextin1 := limit; }
    ghost var b2 := b.State();
    CodegenVectorInner(b, pack, out1, in1, limit, base, blocklen, inStride, outStride);
    ghost var b3 := b.State();
    var other := b.Compute(if pack then Add64(in1, Imm(inInc)) else Add64(out1, Imm(outInc)));
    if pack { nextin1 := other; } else { nextout1 := other; }
    ghost var b4 := b.State();
    var nexti := b.Compute(Add32(i, Imm(1)));
    ghost var b5 := b.State();
    var test := b.Compute(Equal(nexti, n));
    ExtendsTransitive(b1, b2, b3); ExtendsTransitive(b1, b3, b4); ExtendsTransitive(b1, b4, b5);
    ExtendsTransitive(b1, b5, b.State());
    LoopExtends(b0, [outbuf, inbuf, Imm(0)], b.State(), b.cur, test, [nextout1, nextin1, nexti]);
    b.Close(outer, b.cur, test, [nextout1, nextin1, nexti]);
  }

  method CodegenVectorInner(b: IRBuilder, pack: bool, out1: Operand, in1: Operand, limit: Operand,
                            base: Datatype, blocklen: int, inStride: int, outStride: int)
    requires b.Valid()
    modifies b
    ensures b.Valid()
    ensures b.State() == VectorInner(old(b.State()), pack, out1, in1, limit, base, blocklen, inStride, outStride)
    decreases Height(base), 1, 0
  {
    hide Append, Bind, StartLoop, EndLoop, Emit, Extends;
    ghost var b0 := b.State();
    var first := b.next;
    var inner := b.Loop([out1, in1]);
    ghost var b1 := b.State();
    var out2, in2 := Reg(first), Reg(first + 1);
    CodegenDatatype(base, pack, b, in2, Imm(blocklen), out2);
    ghost var b2 := b.State();
    var nextout2 := b.Compute(Add64(out2, Imm(outStride)));
    ghost var b3 := b.State();
    var nextin2 := b.Compute(Add64(in2, Imm(inStride)));
    ghost var b4 := b.State();
    var test := b.Compute(Equal(if pack then nextout2 else nextin2, limit));
    ExtendsTransitive(b1, b2, b3); ExtendsTransitive(b1, b3, b4); ExtendsTransitive(b1, b4, b.State());
    LoopExtends(b0, [out1, in1], b.State(), b.cur, test, [nextout2, nextin2]);
    b.Close(inner, b.cur, test, [nextout2, nextin2]);
  }

  // ----- codegen_indexed.cpp -----

  /** The generation-time loop over the blocks; compact_addr is rebound after each. */
  method CodegenBlocks(b: IRBuilder, pack: bool, compact: Operand, scattered: Operand, fields: seq<Field>)
    returns (nextcompact: Operand)
    requires b.Valid()
    modifies b
    ensures b.Valid() && (b.State(), nextcompact) == EmitBlocks(old(b.State()), pack, compact, scattered, fields)
    decreases FieldsHeight(fields), 1, |fields|
  {
    hide Append, Bind, Emit, Extends;
    nextcompact := compact;
    for i := 0 to |fields|
      invariant b.Valid()
      invariant EmitBlocks(b.State(), pack, nextcompact, scattered, fields[i..])
             == EmitBlocks(old(b.State()), pack, compact, scattered, fields)
      invariant FieldsHeight(fields[i..]) <= FieldsHeight(fields)
    {
      assert fields[i..][0] == fields[i] && fields[i..][1..] == fields[i + 1..];
      var f := fields[i];
      var here := b.Compute(Add64(scattered, Imm(f.displ)));
      CodegenDatatype(f.typ, pack, b, if pack then here else nextcompact, Imm(f.blocklen),
                      if pack then nextcompact else here);
      nextcompact := b.Compute(Add64(nextcompact, Imm(Size(f.typ) * f.blocklen)));
    }
  }

  method CodegenIndexed(b: IRBuilder, pack: bool, inbuf: Operand, n: Operand, outbuf: Operand,
                        extent: int, fields: seq<Field>)
    requires b.Valid()
    modifies b
    ensures b.Valid() && b.State() == EmitIndexed(old(b.State()), pack, inbuf, n, outbuf, extent, fields)
    decreases FieldsHeight(fields), 2, 0
  {
    hide Append, Bind, StartLoop, EndLoop, EmitBlocks, Extends;
    var compactbuf := if pack then outbuf else inbuf;
    var scatteredbuf := if pack then inbuf else outbuf;
    var incount := b.Compute(ZExt(n));
    var expanded := b.Compute(Mul64(incount, Imm(extent)));
    ghost var b2 := b.State();
    var first := b.next;
    var loop := b.Loop([compactbuf, Imm(0)]);
    ghost var b3 := b.State();
    var compact, i := Reg(first), Reg(first + 1);
    var scattered := b.Compute(Add64(scatteredbuf, i));
    ghost var b4 := b.State();
    var nextcompact := CodegenBlocks(b, pack, compact, scattered, fields);
    ghost var b5 := b.State();
    var nexti := b.Compute(Add64(i, Imm(extent)));
    ghost var b6 := b.State();
    var test := b.Compute(Equal(nexti, expanded));
    ExtendsTransitive(b3, b4, b5); ExtendsTransitive(b3, b5, b6); ExtendsTransitive(b3, b6, b.State());
    LoopExtends(b2, [compactbuf, Imm(0)], b.State(), b.cur, test, [nextcompact, nexti]);
    b.Close(loop, b.cur, test, [nextcompact, nexti]);
  }

  /** globalCodegen's loop over the displacements. */
  method BuildTable(displs: seq<int>, base: Datatype) returns (table: seq<int>)
    ensures table == DisplacementTable(displs, base)
  {
    table := [];
    for i := 0 to |displs|
      invariant |table| == i && forall k :: 0 <= k < i ==> table[k] == Wrap32(displs[k] * Extent(base))
    {
      table := table + [Wrap32(displs[i] * Extent(base))];
    }
  }

  method CodegenTable(b: IRBuilder, pack: bool, inbuf: Operand, n: Operand, outbuf: Operand, extent: int,
                      size: int, blocklen: int, base: Datatype, table: seq<int>)
    requires b.Valid()
    modifies b
    ensures b.Valid()
    ensures b.State() == EmitTable(old(b.State()), pack, inbuf, n, outbuf, extent, size, blocklen, base, table)
    decreases Height(base), 3, 0
  {
    hide Append, Bind, StartLoop, EndLoop, TableInner, Extends;
    var compactbuf := if pack then outbuf else inbuf;
    var scatteredbuf := if pack then inbuf else outbuf;
    var incount := b.Compute(ZExt(n));
    var bytestocopy := b.Compute(Mul64(incount, Imm(size)));
    var exitcond := b.Compute(Add64(compactbuf, bytestocopy));
    ghost var b0 := b.State();
    var first := b.next;
    var outer := b.Loop([compactbuf, scatteredbuf]);
    ghost var b1 := b.State();
    var contig1, noncontig1 := Reg(first), Reg(first + 1);
    var nextcontig := CodegenTableInner(b, pack, contig1, noncontig1, blocklen, base, table);
    ghost var b2 := b.State();
    var nextnoncontig := b.Compute(Add64(noncontig1, Imm(extent)));
    ghost var b3 := b.State();
    var test := b.Compute(Equal(nextcontig, exitcond));
    ExtendsTransitive(b1, b2, b3); ExtendsTransitive(b1, b3, b.State());
    LoopExtends(b0, [compactbuf, scatteredbuf], b.State(), b.cur, test, [nextcontig, nextnoncontig]);
    b.Close(outer, b.cur, test, [nextcontig, nextnoncontig]);
  }

  /** Load the entry, widen it, add it to the address. */
  method CodegenEntryAddress(b: IRBuilder, noncontig1: Operand, table: seq<int>, i: Operand)
    returns (noncontig2: Operand)
    requires b.Valid()
    modifies b
    ensures b.Valid() && noncontig2 == Reg(old(b.next) + 2)
    ensures var b1 := Bind(old(b.State()), Element(table, i));
      b.State() == Bind(Bind(b1, ZExt(Reg(old(b.next)))), Add64(noncontig1, Reg(old(b.next) + 1)))
    ensures Extends(old(b.State()), b.State())
  {
    hide Append, Bind, Extends;
    ghost var b1 := b.State();
    var displ := b.Compute(Element(table, i));
    ghost var b2 := b.State();
    var displ64 := b.Compute(ZExt(displ));
    ghost var b3 := b.State();
    noncontig2 := b.Compute(Add64(noncontig1, displ64));
    ExtendsTransitive(b1, b2, b3); ExtendsTransitive(b1, b3, b.State());
  }

  /** The two increments and the exit test. */
  method CodegenEntryTest(b: IRBuilder, contig2: Operand, bytes: int, i: Operand, count: int)
    returns (nextcontig: Operand, nexti: Operand, test: Operand)
    requires b.Valid()
    modifies b
    ensures b.Valid() && nextcontig == Reg(old(b.next)) && nexti == Reg(old(b.next) + 1) && test == Reg(old(b.next) + 2)
    ensures b.State() == Bind(Bind(Bind(old(b.State()), Add64(contig2, Imm(bytes))), Add64(i, Imm(1))),
                              Equal(nexti, Imm(count)))
    ensures Extends(old(b.State()), b.State())
  {
    hide Append, Bind, Extends;
    ghost var b1 := b.State();
    nextcontig := b.Compute(Add64(contig2, Imm(bytes)));
    ghost var b2 := b.State();
    nexti := b.Compute(Add64(i, Imm(1)));
    ghost var b3 := b.State();
    test := b.Compute(Equal(nexti, Imm(count)));
    ExtendsTransitive(b1, b2, b3); ExtendsTransitive(b1, b3, b.State());
  }

  /** The back edges are recorded as coming from the loop's first block, whatever block the base's
      code ends in. */
  method CodegenTableInner(b: IRBuilder, pack: bool, contig1: Operand, noncontig1: Operand,
                           blocklen: int, base: Datatype, table: seq<int>) returns (nextcontig: Operand)
    requires b.Valid()
    modifies b
    ensures b.Valid()
    ensures (b.State(), nextcontig) == TableInner(old(b.State()), pack, contig1, noncontig1, blocklen, base, table)
    decreases Height(base), 1, 0
  {
    hide Append, Bind, StartLoop, EndLoop, Emit, Extends, Size, Extent, Lb, Ub, CanEndLoop, Heads;
    ghost var b0 := b.State();
    var first := b.next;
    var inner := b.Loop([Imm(0), contig1]);
    ghost var b1 := b.State();
    var i, contig2 := Reg(first), Reg(first + 1);
    var noncontig2 := CodegenEntryAddress(b, noncontig1, table, i);
    ghost var b4 := b.State();
    CodegenDatatype(base, pack, b, if pack then noncontig2 else contig2, Imm(blocklen),
                    if pack then contig2 else noncontig2);
    ghost var b5 := b.State();
    var nexti, test;
    nextcontig, nexti, test := CodegenEntryTest(b, contig2, blocklen * Extent(base), i, |table|);
    ExtendsTransitive(b1, b4, b5); ExtendsTransitive(b1, b5, b.State());
    LoopExtends(b0, [Imm(0), contig1], b.State(), inner, test, [nexti, nextcontig]);
    b.Close(inner, inner, test, [nexti, nextcontig]);
  }

  // ----- ddt_jit.cpp -----

  /** packCodegen and unpackCodegen. */
  method CodegenDatatype(t: Datatype, pack: bool, b: IRBuilder, inbuf: Operand, n: Operand, outbuf: Operand)
    requires b.Valid()
    modifies b
    ensures b.Valid() && b.State() == Emit(t, pack, old(b.State()), inbuf, n, outbuf)
    decreases Height(t), 0, 0
  {
    hide EmitPrimitive, EmitContiguous, EmitVector, EmitIndexed, EmitTable, EmitPrimitiveResized, Extends;
    var dataInc, packedInc := Extent(t), Size(t);
    var inInc, outInc := if pack then dataInc else packedInc, if pack then packedInc else dataInc;
    match t
    case Primitive(p) => CodegenPrimitive(b, inbuf, n, outbuf, PrimitiveSize(p));
    case Contiguous(count, base) => CodegenContiguous(b, pack, inbuf, n, outbuf, base, inInc, outInc, count);
    case Vector(_, blocklen, stride, base) =>
      CodegenStrided(b, pack, inbuf, n, outbuf, base, blocklen, Extent(base) * stride, inInc, outInc);
    case HVector(_, blocklen, stride, base) =>
      CodegenStrided(b, pack, inbuf, n, outbuf, base, blocklen, stride, inInc, outInc);
    case IndexedBlock(blocklen, displs, base) =>
      if |displs| > IDXB_LOOP_THRESHOLD {
        var table := BuildTable(displs, base);
        CodegenTable(b, pack, inbuf, n, outbuf, dataInc, packedInc, blocklen, base, table);
      } else {
        UniformFieldsHeight(UnrolledFields(blocklen, displs, base), base);
        CodegenIndexed(b, pack, inbuf, n, outbuf, dataInc, UnrolledFields(blocklen, displs, base));
      }
    case HIndexed(entries, base) =>
      UniformFieldsHeight(EntryFields(entries, base), base);
      CodegenIndexed(b, pack, inbuf, n, outbuf, dataInc, EntryFields(entries, base));
    case Struct(fields) => CodegenIndexed(b, pack, inbuf, n, outbuf, dataInc, fields);
    case Resized(_, _, _) => CodegenResized(t, pack, b, inbuf, n, outbuf);
  }

  method CodegenStrided(b: IRBuilder, pack: bool, inbuf: Operand, n: Operand, outbuf: Operand, base: Datatype,
                        blocklen: int, dataStride: int, inInc: int, outInc: int)
    requires b.Valid()
    modifies b
    ensures b.Valid()
    ensures b.State() == EmitStrided(old(b.State()), pack, inbuf, n, outbuf, base, blocklen, dataStride, inInc, outInc)
    decreases Height(base), 3, 0
  {
    hide EmitVector, Extends;
    var packedStride := Size(base) * blocklen;
    CodegenVector(b, pack, inbuf, n, outbuf, base, blocklen,
                  if pack then dataStride else packedStride,
                  if pack then packedStride else dataStride, inInc, outInc);
  }

  method CodegenResized(t: Datatype, pack: bool, b: IRBuilder, inbuf: Operand, n: Operand, outbuf: Operand)
    requires b.Valid() && t.Resized?
    modifies b
    ensures b.Valid() && b.State() == EmitResized(old(b.State()), pack, inbuf, n, outbuf, t.extent, t.base)
    decreases Height(t.base), 4, 0
  {
    hide EmitContiguous, EmitStrided, EmitPrimitiveResized, Extends;
    var size, extent := Size(t.base), t.extent;
    var inInc, outInc := if pack then extent else size, if pack then size else extent;
    match t.base
    case Primitive(_) => CodegenPrimitiveResized(b, inbuf, n, outbuf, size, extent);
    case Contiguous(count, inner) => CodegenContiguous(b, true, inbuf, n, outbuf, inner, extent, size, count);
    case Vector(_, blocklen, stride, inner) =>
      CodegenStrided(b, pack, inbuf, n, outbuf, inner, blocklen, Extent(inner) * stride, inInc, outInc);
    case HVector(_, blocklen, stride, inner) =>
      CodegenStrided(b, pack, inbuf, n, outbuf, inner, blocklen, stride, inInc, outInc);
    case _ =>
  }

  /** The function generated for a tree as it is. */
  method Generate(t: Datatype, pack: bool) returns (p: seq<Block>)
    ensures p == Function(t, pack)
  {
    hide Emit, Extends;
    var b := new IRBuilder();
    CodegenDatatype(t, pack, b, Reg(0), Reg(1), Reg(2));
    b.CreateTerminator(Ret);
    p := b.blocks;
  }
}
