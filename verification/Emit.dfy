/** The code generators (codegen_*.cpp and the packCodegen/unpackCodegen dispatch of ddt_jit.cpp) as
    functions from builder to builder.  `pack` selects packCodegen or unpackCodegen; sizes and
    addresses are emitted exactly as the C++ passes them. */
module Emission {
  import opened Datatypes
  import opened Typemap
  import opened Machine
  import opened Builders

  const SIMD_BYTES: int := 16
  const COPY_LOOP_THRESHOLD: int := 512
  const COPY_LOOP_UNROLL: int := 16
  const IDXB_LOOP_THRESHOLD: int := 16

  // ----- termination measure -----

  function Height(t: Datatype): nat
    decreases t, 0
  {
    match t
    case Primitive(_) => 0
    case Contiguous(_, base) => 1 + Height(base)
    case Vector(_, _, _, base) => 1 + Height(base)
    case HVector(_, _, _, base) => 1 + Height(base)
    case IndexedBlock(_, _, base) => 1 + Height(base)
    case HIndexed(_, base) => 1 + Height(base)
    case Struct(fields) => 1 + FieldsHeight(fields)
    case Resized(_, _, base) => 1 + Height(base)
  }

  function FieldsHeight(fields: seq<Field>): nat
    decreases fields, 0
  {
    if fields == [] then 0
    else
      var f := fields[0];
      assert f.typ < f;
      var rest := FieldsHeight(fields[1..]);
      if Height(f.typ) >= rest then Height(f.typ) else rest
  }

  lemma {:induction false} UniformFieldsHeight(fields: seq<Field>, base: Datatype)
    requires forall i :: 0 <= i < |fields| ==> fields[i].typ == base
    ensures FieldsHeight(fields) <= Height(base)
  {
    if fields != [] { UniformFieldsHeight(fields[1..], base); }
  }

  // ----- codegen_primitive.cpp -----

  /** The builder together with the operands a generator keeps reassigning. */
  datatype Cursor = Cursor(b: Builder, inbuf: Operand, outbuf: Operand)

  /** n vector moves of `bytes` bytes, each followed by the two pointer increments. */
  function UnrollMoves(c: Cursor, bytes: nat, n: nat): (r: Cursor)
    requires Ok(c.b)
    ensures Ok(r.b) && Extends(c.b, r.b) && r.b.cur == c.b.cur
    decreases n, c
  {
    if n == 0 then c
    else
      var b1 := Append(c.b, VMove(c.outbuf, c.inbuf, bytes));
      var b2 := Bind(b1, Add64(c.inbuf, Imm(bytes)));
      var b3 := Bind(b2, Add64(c.outbuf, Imm(bytes)));
      UnrollMoves(Cursor(b3, Reg(b1.next), Reg(b2.next)), bytes, n - 1)
  }

  // Named so that proofs about the emitted code can keep nonlinear terms out of sight.
  function Product(a: nat, b: nat): nat { a * b }
  function Quotient(n: nat, d: nat): nat requires d >= 1 { n / d }
  function Remainder(n: nat, d: nat): (r: nat) requires d >= 1 ensures r < d { n % d }

  /** The postamble: what is left, in vectors of halving size. */
  function Postamble(c: Cursor, size: nat, n: nat, vecsize: nat): (r: Cursor)
    requires Ok(c.b)
    ensures Ok(r.b) && Extends(c.b, r.b) && r.b.cur == c.b.cur
    decreases vecsize, c
  {
    if vecsize == 0 then c
    else
      var r := UnrollMoves(c, Product(size, vecsize), Quotient(n, vecsize));
      Postamble(r, size, Remainder(n, vecsize), vecsize / 2)
  }

  predicate ElementSize(size: int) { size == 1 || size == 4 || size == 8 }

  function VectorSize(size: int): (v: nat)
    requires ElementSize(size)
    ensures v * size == SIMD_BYTES && (v == 2 || v == 4 || v == 16)
  {
    SIMD_BYTES / size
  }

  /** Vectors copied by the loop: a multiple of the unroll factor. */
  function VectorsToCopy(n: nat, size: int): (v: nat)
    requires ElementSize(size)
    ensures v % COPY_LOOP_UNROLL == 0
    ensures 0 <= n - v * VectorSize(size) < COPY_LOOP_UNROLL * VectorSize(size)
  {
    ((n / VectorSize(size)) / COPY_LOOP_UNROLL) * COPY_LOOP_UNROLL
  }

  predicate UsesCopyLoop(n: nat, size: int)
    requires ElementSize(size)
  {
    VectorsToCopy(n, size) > 0 && n >= COPY_LOOP_THRESHOLD / size
  }

  /** The unrolled copy loop, which exits when the input pointer reaches its final value. */
  function CopyLoop(b: Builder, inbuf: Operand, outbuf: Operand, vectors: nat): (r: Cursor)
    requires Ok(b)
    ensures Ok(r.b) && Extends(b, r.b)
  {
    var b1 := Bind(b, Add64(inbuf, Imm(vectors * SIMD_BYTES)));
    var b2 := StartLoop(b1, [inbuf, outbuf]);
    var c := UnrollMoves(Cursor(b2, Reg(b1.next), Reg(b1.next + 1)), SIMD_BYTES, COPY_LOOP_UNROLL);
    var b3 := Bind(c.b, Equal(c.inbuf, Reg(b.next)));
    LoopExtends(b1, [inbuf, outbuf], b3, b3.cur, Reg(c.b.next), [c.inbuf, c.outbuf]);
    Cursor(EndLoop(b3, b2.cur, b3.cur, Reg(c.b.next), [c.inbuf, c.outbuf]), c.inbuf, c.outbuf)
  }

  /** codegenPrimitive for a count known at compile time. */
  function CopyConstant(b: Builder, inbuf: Operand, outbuf: Operand, size: int, n: nat): (r: Builder)
    requires Ok(b) && ElementSize(size)
    ensures Ok(r) && Extends(b, r)
  {
    if UsesCopyLoop(n, size) then
      var vectors := VectorsToCopy(n, size);
      var c := CopyLoop(b, inbuf, outbuf, vectors);
      Postamble(c, size, n - vectors * VectorSize(size), VectorSize(size)).b
    else Postamble(Cursor(b, inbuf, outbuf), size, n, VectorSize(size)).b
  }

  function EmitPrimitive(b: Builder, inbuf: Operand, n: Operand, outbuf: Operand, size: int): (r: Builder)
    requires Ok(b) && ElementSize(size)
    ensures Ok(r) && Extends(b, r)
  {
    if n.Imm? then CopyConstant(b, inbuf, outbuf, size, if n.value >= 0 then n.value else 0)
    else
      var b1 := Bind(b, ZExt(n));
      var b2 := Bind(b1, Mul64(Imm(size), Reg(b.next)));
      Append(b2, MemCpy(outbuf, inbuf, Reg(b1.next)))
  }

  function EmitPrimitiveResized(b: Builder, inbuf: Operand, n: Operand, outbuf: Operand,
                                size: int, extent: int): (r: Builder)
    requires Ok(b)
    ensures Ok(r) && Extends(b, r)
  {
    var inits := [inbuf, outbuf, n];
    var b1 := StartLoop(b, inits);
    var in1, out1, count1 := Reg(b.next), Reg(b.next + 1), Reg(b.next + 2);
    var b2 := Append(b1, MemCpy(out1, in1, Imm(size)));
    var b3 := Bind(b2, Add64(in1, Imm(extent)));
    var b4 := Bind(b3, Add64(out1, Imm(size)));
    var b5 := Bind(b4, Sub32(count1, Imm(1)));
    var b6 := Bind(b5, Equal(Reg(b4.next), Imm(0)));
    var nexts := [Reg(b2.next), Reg(b3.next), Reg(b4.next)];
    LoopExtends(b, inits, b6, b6.cur, Reg(b5.next), nexts);
    EndLoop(b6, b1.cur, b6.cur, Reg(b5.next), nexts)
  }

  // ----- codegen_contiguous.cpp -----

  function EmitContiguous(b: Builder, pack: bool, inbuf: Operand, n: Operand, outbuf: Operand,
                          base: Datatype, inInc: int, outInc: int, count: int): (r: Builder)
    requires Ok(b)
    ensures Ok(r) && Extends(b, r)
    decreases Height(base), 1, 0
  {
    var inits := [outbuf, inbuf, Imm(0)];
    var b1 := StartLoop(b, inits);
    var out1, in1, i := Reg(b.next), Reg(b.next + 1), Reg(b.next + 2);
    var b2 := Emit(base, pack, b1, in1, Imm(count), out1);
    var b3 := Bind(b2, Add64(out1, Imm(outInc)));
    var b4 := Bind(b3, Add64(in1, Imm(inInc)));
    var b5 := Bind(b4, Add32(i, Imm(1)));
    var b6 := Bind(b5, Equal(Reg(b4.next), n));
    var nexts := [Reg(b2.next), Reg(b3.next), Reg(b4.next)];
    LoopExtends(b, inits, b6, b6.cur, Reg(b5.next), nexts);
    EndLoop(b6, b1.cur, b6.cur, Reg(b5.next), nexts)
  }

  // ----- codegen_vector.cpp -----

  /** The inner loop: it has no counter and exits when the packed pointer meets `limit`. */
  function VectorInner(b: Builder, pack: bool, out1: Operand, in1: Operand, limit: Operand,
                       base: Datatype, blocklen: int, inStride: int, outStride: int): (r: Builder)
    requires Ok(b)
    ensures Ok(r) && Extends(b, r)
    decreases Height(base), 1, 0
  {
    var inits := [out1, in1];
    var b1 := StartLoop(b, inits);
    var out2, in2 := Reg(b.next), Reg(b.next + 1);
    var b2 := Emit(base, pack, b1, in2, Imm(blocklen), out2);
    var b3 := Bind(b2, Add64(out2, Imm(outStride)));
    var b4 := Bind(b3, Add64(in2, Imm(inStride)));
    var b5 := Bind(b4, Equal(if pack then Reg(b2.next) else Reg(b3.next), limit));
    var nexts := [Reg(b2.next), Reg(b3.next)];
    LoopExtends(b, inits, b5, b5.cur, Reg(b4.next), nexts);
    EndLoop(b5, b1.cur, b5.cur, Reg(b4.next), nexts)
  }

  function EmitVector(b: Builder, pack: bool, inbuf: Operand, n: Operand, outbuf: Operand, base: Datatype,
                      blocklen: int, inStride: int, outStride: int, inInc: int, outInc: int): (r: Builder)
    requires Ok(b)
    ensures Ok(r) && Extends(b, r)
    decreases Height(base), 2, 0
  {
    hide Append, StartLoop, EndLoop, VectorInner, Extends, Height;
    var inits := [outbuf, inbuf, Imm(0)];
    var b1 := StartLoop(b, inits);
    var out1, in1, i := Reg(b.next), Reg(b.next + 1), Reg(b.next + 2);
    var b2 := Bind(b1, if pack then Add64(out1, Imm(outInc)) else Add64(in1, Imm(inInc)));
    var b3 := VectorInner(b2, pack, out1, in1, Reg(b1.next), base, blocklen, inStride, outStride);
    var b4 := Bind(b3, if pack then Add64(in1, Imm(inInc)) else Add64(out1, Imm(outInc)));
    var b5 := Bind(b4, Add32(i, Imm(1)));
    var b6 := Bind(b5, Equal(Reg(b4.next), n));
    var nexts := if pack then [Reg(b1.next), Reg(b3.next), Reg(b4.next)]
                 else [Reg(b3.next), Reg(b1.next), Reg(b4.next)];
    ExtendsTransitive(b1, b2, b3);
    ExtendsTransitive(b1, b3, b4);
    ExtendsTransitive(b1, b4, b5);
    ExtendsTransitive(b1, b5, b6);
    LoopExtends(b, inits, b6, b6.cur, Reg(b5.next), nexts);
    EndLoop(b6, b1.cur, b6.cur, Reg(b5.next), nexts)
  }

  // ----- codegen_indexed.cpp -----

  /** The generation-time loop over the blocks, shared by the unrolled indexed-block generator,
      codegenHindexed and codegenStruct: each block's code, then the compact pointer's increment. */
  function EmitBlocks(b: Builder, pack: bool, compact: Operand, scattered: Operand,
                      fields: seq<Field>): (r: (Builder, Operand))
    requires Ok(b)
    ensures Ok(r.0) && Extends(b, r.0)
    decreases FieldsHeight(fields), 1, |fields|
  {
    if fields == [] then (b, compact)
    else
      var f := fields[0];
      var b1 := Bind(b, Add64(scattered, Imm(f.displ)));
      var here := Reg(b.next);
      var b2 := Emit(f.typ, pack, b1, if pack then here else compact, Imm(f.blocklen),
                     if pack then compact else here);
      var b3 := Bind(b2, Add64(compact, Imm(Size(f.typ) * f.blocklen)));
      EmitBlocks(b3, pack, Reg(b2.next), scattered, fields[1..])
  }

  function EmitIndexed(b: Builder, pack: bool, inbuf: Operand, n: Operand, outbuf: Operand,
                       extent: int, fields: seq<Field>): (r: Builder)
    requires Ok(b)
    ensures Ok(r) && Extends(b, r)
    decreases FieldsHeight(fields), 2, 0
  {
    hide Append, StartLoop, EndLoop, EmitBlocks, Extends, FieldsHeight;
    var compactbuf := if pack then outbuf else inbuf;
    var scatteredbuf := if pack then inbuf else outbuf;
    var b1 := Bind(b, ZExt(n));
    var b2 := Bind(b1, Mul64(Reg(b.next), Imm(extent)));
    var inits := [compactbuf, Imm(0)];
    var b3 := StartLoop(b2, inits);
    var compact, i := Reg(b2.next), Reg(b2.next + 1);
    var b4 := Bind(b3, Add64(scatteredbuf, i));
    var (b5, nextcompact) := EmitBlocks(b4, pack, compact, Reg(b3.next), fields);
    var b6 := Bind(b5, Add64(i, Imm(extent)));
    var b7 := Bind(b6, Equal(Reg(b5.next), Reg(b1.next)));
    var nexts := [nextcompact, Reg(b5.next)];
    ExtendsTransitive(b3, b4, b5);
    ExtendsTransitive(b3, b5, b6);
    ExtendsTransitive(b3, b6, b7);
    LoopExtends(b2, inits, b7, b7.cur, Reg(b6.next), nexts);
    var r := EndLoop(b7, b3.cur, b7.cur, Reg(b6.next), nexts);
    ExtendsTransitive(b, b1, b2);
    ExtendsTransitive(b, b2, r);
    r
  }

  /** The displacement table that globalCodegen writes for a long indexed-block type: an array of
      i32 words. */
  function DisplacementTable(displs: seq<int>, base: Datatype): seq<int> {
    seq(|displs|, i requires 0 <= i < |displs| => Wrap32(displs[i] * Extent(base)))
  }

  /** The inner loop over the table.  Its phis get their second entry from the loop's first block,
      not from the block where the base's code ended. */
  function TableInner(b: Builder, pack: bool, contig1: Operand, noncontig1: Operand,
                      blocklen: int, base: Datatype, table: seq<int>): (r: (Builder, Operand))
    requires Ok(b)
    ensures Ok(r.0) && Extends(b, r.0)
    decreases Height(base), 1, 0
  {
    var inits := [Imm(0), contig1];
    var b1 := StartLoop(b, inits);
    var i, contig2 := Reg(b.next), Reg(b.next + 1);
    var b2 := Bind(b1, Element(table, i));
    var b3 := Bind(b2, ZExt(Reg(b1.next)));
    var b4 := Bind(b3, Add64(noncontig1, Reg(b2.next)));
    var noncontig2 := Reg(b3.next);
    var b5 := Emit(base, pack, b4, if pack then noncontig2 else contig2, Imm(blocklen),
                   if pack then contig2 else noncontig2);
    var b6 := Bind(b5, Add64(contig2, Imm(blocklen * Extent(base))));
    var b7 := Bind(b6, Add64(i, Imm(1)));
    var b8 := Bind(b7, Equal(Reg(b6.next), Imm(|table|)));
    var nexts := [Reg(b6.next), Reg(b5.next)];
    LoopExtends(b, inits, b8, b1.cur, Reg(b7.next), nexts);
    (EndLoop(b8, b1.cur, b1.cur, Reg(b7.next), nexts), Reg(b5.next))
  }

  function EmitTable(b: Builder, pack: bool, inbuf: Operand, n: Operand, outbuf: Operand, extent: int,
                     size: int, blocklen: int, base: Datatype, table: seq<int>): (r: Builder)
    requires Ok(b)
    ensures Ok(r) && Extends(b, r)
    decreases Height(base), 3, 0
  {
    var compactbuf := if pack then outbuf else inbuf;
    var scatteredbuf := if pack then inbuf else outbuf;
    var b1 := Bind(b, ZExt(n));
    var b2 := Bind(b1, Mul64(Reg(b.next), Imm(size)));
    var b3 := Bind(b2, Add64(compactbuf, Reg(b1.next)));
    assert Extends(b, b3);
    var r := TableOuter(b3, pack, compactbuf, scatteredbuf, Reg(b2.next), extent, blocklen, base, table);
    ExtendsTransitive(b, b3, r);
    r
  }

  function TableOuter(b: Builder, pack: bool, contig: Operand, noncontig: Operand, exit: Operand,
                      extent: int, blocklen: int, base: Datatype, table: seq<int>): (r: Builder)
    requires Ok(b)
    ensures Ok(r) && Extends(b, r)
    decreases Height(base), 2, 0
  {
    hide Append, StartLoop, EndLoop, TableInner, Extends, Height;
    var inits := [contig, noncontig];
    var b1 := StartLoop(b, inits);
    var contig1, noncontig1 := Reg(b.next), Reg(b.next + 1);
    var (b2, nextcontig) := TableInner(b1, pack, contig1, noncontig1, blocklen, base, table);
    var b3 := Bind(b2, Add64(noncontig1, Imm(extent)));
    var b4 := Bind(b3, Equal(nextcontig, exit));
    var nexts := [nextcontig, Reg(b2.next)];
    ExtendsTransitive(b1, b2, b3);
    ExtendsTransitive(b1, b3, b4);
    LoopExtends(b, inits, b4, b4.cur, Reg(b3.next), nexts);
    EndLoop(b4, b1.cur, b4.cur, Reg(b3.next), nexts)
  }

  // ----- ddt_jit.cpp: packCodegen and unpackCodegen -----

  /** The unrolled generator scales displacements by the base's SIZE, unlike the table. */
  function UnrolledFields(blocklen: int, displs: seq<int>, base: Datatype): seq<Field> {
    BlockFields(displs, Size(base), blocklen, base)
  }

  function Emit(t: Datatype, pack: bool, b: Builder, inbuf: Operand, n: Operand, outbuf: Operand): (r: Builder)
    requires Ok(b)
    ensures Ok(r) && Extends(b, r)
    decreases Height(t), 0, 0
  {
    var dataInc, packedInc := Extent(t), Size(t);
    var inInc, outInc := if pack then dataInc else packedInc, if pack then packedInc else dataInc;
    match t
    case Primitive(p) => EmitPrimitive(b, inbuf, n, outbuf, PrimitiveSize(p))
    case Contiguous(count, base) => EmitContiguous(b, pack, inbuf, n, outbuf, base, inInc, outInc, count)
    case Vector(count, blocklen, stride, base) =>
      EmitStrided(b, pack, inbuf, n, outbuf, base, blocklen, Extent(base) * stride, inInc, outInc)
    case HVector(count, blocklen, stride, base) =>
      EmitStrided(b, pack, inbuf, n, outbuf, base, blocklen, stride, inInc, outInc)
    case IndexedBlock(blocklen, displs, base) =>
      if |displs| > IDXB_LOOP_THRESHOLD then
        EmitTable(b, pack, inbuf, n, outbuf, Extent(t), Size(t), blocklen, base, DisplacementTable(displs, base))
      else
        UniformFieldsHeight(UnrolledFields(blocklen, displs, base), base);
        EmitIndexed(b, pack, inbuf, n, outbuf, Extent(t), UnrolledFields(blocklen, displs, base))
    case HIndexed(entries, base) =>
      UniformFieldsHeight(EntryFields(entries, base), base);
      EmitIndexed(b, pack, inbuf, n, outbuf, Extent(t), EntryFields(entries, base))
    case Struct(fields) => EmitIndexed(b, pack, inbuf, n, outbuf, Extent(t), fields)
    case Resized(_, extent, base) => EmitResized(b, pack, inbuf, n, outbuf, extent, base)
  }

  /** The argument lists of the vector classes: strides and increments change places for unpack. */
  function EmitStrided(b: Builder, pack: bool, inbuf: Operand, n: Operand, outbuf: Operand, base: Datatype,
                       blocklen: int, dataStride: int, inInc: int, outInc: int): (r: Builder)
    requires Ok(b)
    ensures Ok(r) && Extends(b, r)
    decreases Height(base), 3, 0
  {
    var packedStride := Size(base) * blocklen;
    EmitVector(b, pack, inbuf, n, outbuf, base, blocklen,
               if pack then dataStride else packedStride,
               if pack then packedStride else dataStride, inInc, outInc)
  }

  /** ResizedDatatype reuses the generator of its base with its own extent.  Over primitives and
      contiguous types unpackCodegen passes PACKING arguments; over indexed, struct and resized
      types no code is emitted. */
  function EmitResized(b: Builder, pack: bool, inbuf: Operand, n: Operand, outbuf: Operand,
                       extent: int, base: Datatype): (r: Builder)
    requires Ok(b)
    ensures Ok(r) && Extends(b, r)
    decreases Height(base), 4, 0
  {
    var size := Size(base);
    var inInc, outInc := if pack then extent else size, if pack then size else extent;
    match base
    case Primitive(_) => EmitPrimitiveResized(b, inbuf, n, outbuf, size, extent)
    case Contiguous(count, inner) =>
      EmitContiguous(b, true, inbuf, n, outbuf, inner, extent, size, count)
    case Vector(_, blocklen, stride, inner) =>
      EmitStrided(b, pack, inbuf, n, outbuf, inner, blocklen, Extent(inner) * stride, inInc, outInc)
    case HVector(_, blocklen, stride, inner) =>
      EmitStrided(b, pack, inbuf, n, outbuf, inner, blocklen, stride, inInc, outInc)
    case _ => b
  }
}
