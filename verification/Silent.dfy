/** Trees without a byte in their route: all their blocks end in resized types for which no code is emitted.  Their
    code, loops and all, contains no instruction that writes memory. */
module Silence {
  import opened Arithmetic
  import opened Datatypes
  import opened Typemap
  import opened Wellformed
  import opened Machine
  import opened Builders
  import opened Emission
  import opened Transfers
  import opened Routes
  import opened ExecTypes

  predicate Silent(t: Datatype)
    decreases t, 0
  {
    match t
    case Primitive(_) => false
    case Struct(fields) => SilentFields(fields)
    case Resized(_, _, base) =>
      Indexed(base) || base.Resized? || ((base.Contiguous? || base.Vector? || base.HVector?) && Silent(base.base))
    case _ => Silent(t.base)
  }

  predicate SilentFields(fields: seq<Field>)
    decreases fields, 0
  {
    if fields == [] then true
    else
      var f := fields[0];
      assert f.typ < f;
      (f.blocklen == 0 || Silent(f.typ)) && SilentFields(fields[1..])
  }

  // ----- the routes -----

  lemma LapsEmpty(r: seq<Hop>, to: int, from: int, n: int)
    ensures Laps(r, to, from, n) == [] <==> r == [] || n <= 0
  {
    if r == [] { EmptyLaps(to, from, n); }
  }

  lemma CopiesEmpty(t: Datatype, pack: bool, n: int)
    ensures RouteCopies(t, pack, n) == [] <==> Route(t, pack) == [] || n <= 0
  {
    hide Route, OutPitch, InPitch;
    LapsEmpty(Route(t, pack), OutPitch(t, pack), InPitch(t, pack), n);
  }

  lemma StridesEmpty(base: Datatype, pack: bool, blocklen: int, data: int, count: int)
    requires blocklen >= 1 && count >= 1
    ensures Strides(base, pack, blocklen, data, count) == [] <==> Route(base, pack) == []
  {
    hide Route, RouteCopies, Size;
    CopiesEmpty(base, pack, blocklen);
    LapsEmpty(RouteCopies(base, pack, blocklen), OutStep(pack, data, Size(base) * blocklen),
              InStep(pack, data, Size(base) * blocklen), count);
  }

  lemma {:induction false} FieldsRouteEmpty(fields: seq<Field>, pack: bool)
    ensures FieldsRoute(fields, pack) == [] <==>
      forall i :: 0 <= i < |fields| ==> Route(fields[i].typ, pack) == [] || fields[i].blocklen <= 0
    decreases |fields|
  {
    hide Route, RouteCopies, Size, Height, FieldsHeight;
    if fields != [] {
      var f := fields[0];
      CopiesEmpty(f.typ, pack, f.blocklen);
      FieldsRouteEmpty(fields[1..], pack);
      assert forall i :: 0 < i < |fields| ==> fields[i] == fields[1..][i - 1];
    }
  }

  lemma {:induction false} RouteSilent(t: Datatype, pack: bool)
    requires Positive(t)
    ensures Route(t, pack) == [] <==> Silent(t)
    decreases t, 1
  {
    hide Positive, Size, Extent, Lb, Ub, FieldsOf, Route, RouteCopies, Strides, DataStride;
    PositiveParts(t);
    if t.Primitive? {
      RouteOfPrimitive(t, pack);
    } else if t.Struct? {
      FieldsSilent(t.fields, pack);
      FieldsRouteEmpty(t.fields, pack);
      RouteOfFields(t, pack);
    } else if t.Resized? {
      RouteOfResized(t, pack);
      PositiveParts(t.base);
      if t.base.Primitive? {
        RouteOfPrimitive(t.base, pack);
      } else if t.base.Contiguous? {
        RouteSilent(t.base.base, true);
        CopiesEmpty(t.base.base, true, t.base.count);
      } else if t.base.Vector? || t.base.HVector? {
        RouteSilent(t.base.base, pack);
        StridesEmpty(t.base.base, pack, t.base.blocklen, DataStride(t.base), t.base.count);
      }
    } else {
      RouteSilent(t.base, pack);
      if t.Contiguous? {
        RouteOfContiguous(t, pack);
        CopiesEmpty(t.base, pack, t.count);
      } else if t.Vector? || t.HVector? {
        RouteOfVector(t, pack);
        StridesEmpty(t.base, pack, t.blocklen, DataStride(t), t.count);
      } else {
        RouteOfFields(t, pack);
        FieldsRouteEmpty(FieldsOf(t), pack);
        UniformBlocks(t);
      }
    }
  }

  lemma RouteOfPrimitive(t: Datatype, pack: bool)
    requires t.Primitive?
    ensures Route(t, pack) == Dense(PrimitiveSize(t.prim)) != []
  {}

  lemma RouteOfContiguous(t: Datatype, pack: bool)
    requires t.Contiguous?
    ensures Route(t, pack) == RouteCopies(t.base, pack, t.count)
  {
    hide RouteCopies;
  }

  lemma RouteOfVector(t: Datatype, pack: bool)
    requires t.Vector? || t.HVector?
    ensures Route(t, pack) == Strides(t.base, pack, t.blocklen, DataStride(t), t.count)
  {
    hide Strides, Extent;
  }

  lemma RouteOfFields(t: Datatype, pack: bool)
    requires Indexed(t)
    ensures Route(t, pack) == FieldsRoute(FieldsOf(t), pack) && (t.Struct? ==> FieldsOf(t) == t.fields)
  {
    hide FieldsRoute;
  }

  lemma PositiveParts(t: Datatype)
    requires Positive(t)
    ensures !t.Primitive? && !t.Struct? ==> Positive(t.base)
    ensures t.Contiguous? ==> t.count >= 1
    ensures t.Vector? || t.HVector? ==> t.count >= 1 && t.blocklen >= 1
    ensures t.Struct? ==> PositiveFields(t.fields)
  {}

  lemma UniformBlocks(t: Datatype)
    requires (t.IndexedBlock? || t.HIndexed?) && Positive(t)
    ensures forall i :: 0 <= i < |FieldsOf(t)| ==> FieldsOf(t)[i].typ == t.base
    ensures exists i :: 0 <= i < |FieldsOf(t)| && FieldsOf(t)[i].blocklen >= 1
  {
    hide Size, Extent;
    if t.IndexedBlock? {
      assert FieldsOf(t)[0].blocklen == t.blocklen;
    } else {
      var k :| 0 <= k < |t.entries| && t.entries[k].blocklen >= 1;
      assert FieldsOf(t)[k].blocklen >= 1;
    }
  }

  lemma {:induction false} FieldsSilent(fields: seq<Field>, pack: bool)
    requires PositiveFields(fields)
    ensures SilentFields(fields) <==>
      forall i :: 0 <= i < |fields| ==> Route(fields[i].typ, pack) == [] || fields[i].blocklen <= 0
    decreases fields, 0
  {
    hide Route;
    if fields != [] {
      var f := fields[0];
      assert f.typ < f;
      assert Positive(f.typ) && f.blocklen >= 0;
      RouteSilent(f.typ, pack);
      FieldsSilent(fields[1..], pack);
      assert forall i :: 0 < i < |fields| ==> fields[i] == fields[1..][i - 1];
    }
  }

  // ----- the code -----

  predicate Harmless(instrs: seq<Instr>) { forall i :: 0 <= i < |instrs| ==> instrs[i].Let? }

  /** No instruction writes memory. */
  predicate Inert(blocks: seq<Block>) { forall id :: 0 <= id < |blocks| ==> Harmless(blocks[id].instrs) }

  lemma BindInert(b: Builder, e: Expr)
    requires Ok(b) && Inert(b.blocks)
    ensures Inert(Bind(b, e).blocks)
  {
    var r := Bind(b, e);
    assert Harmless(b.blocks[b.cur].instrs);
    forall id | 0 <= id < |r.blocks| ensures Harmless(r.blocks[id].instrs) {
      if id != b.cur { assert Harmless(b.blocks[id].instrs); }
    }
  }

  lemma StartInert(b: Builder, inits: seq<Operand>)
    requires Ok(b) && Inert(b.blocks)
    ensures Inert(StartLoop(b, inits).blocks)
  {
    var r := StartLoop(b, inits);
    forall id | 0 <= id < |r.blocks| ensures Harmless(r.blocks[id].instrs) {
      if id < |b.blocks| { assert Harmless(b.blocks[id].instrs); }
    }
  }

  lemma EndInert(b: Builder, loop: nat, latch: nat, cond: Operand, nexts: seq<Operand>)
    requires CanEndLoop(b, loop, nexts) && Inert(b.blocks)
    ensures Inert(EndLoop(b, loop, latch, cond, nexts).blocks)
  {
    var r := EndLoop(b, loop, latch, cond, nexts);
    forall id | 0 <= id < |r.blocks| ensures Harmless(r.blocks[id].instrs) {
      if id < |b.blocks| { assert Harmless(b.blocks[id].instrs); }
    }
  }

  /** Two increments and a test, then the end of the loop. */
  lemma LoopInert(b: Builder, inits: seq<Operand>, body: Builder, cond: Operand, nexts: seq<Operand>)
    requires Ok(b) && Extends(StartLoop(b, inits), body) && |inits| == |nexts| && Inert(body.blocks)
    ensures CanEndLoop(body, |b.blocks|, nexts)
    ensures Inert(EndLoop(body, |b.blocks|, body.cur, cond, nexts).blocks)
  {
    hide Inert, StartLoop, EndLoop, Extends;
    LoopExtends(b, inits, body, body.cur, cond, nexts);
    EndInert(body, |b.blocks|, body.cur, cond, nexts);
  }

  /** The code of t writes nothing, wherever it is emitted. */
  ghost predicate Quiet(t: Datatype, pack: bool) {
    forall b, inbuf, n, outbuf :: Ok(b) && Inert(b.blocks) ==> Inert(Emit(t, pack, b, inbuf, n, outbuf).blocks)
  }

  lemma ContiguousInert(b: Builder, pack: bool, inbuf: Operand, n: Operand, outbuf: Operand,
                        base: Datatype, inInc: int, outInc: int, count: int)
    requires Ok(b) && Inert(b.blocks) && Quiet(base, pack)
    ensures Inert(EmitContiguous(b, pack, inbuf, n, outbuf, base, inInc, outInc, count).blocks)
  {
    hide Inert, StartLoop, EndLoop, Emit, Bind, Extends;
    var inits := [outbuf, inbuf, Imm(0)];
    var b1 := StartLoop(b, inits);
    var out1, in1, i := Reg(b.next), Reg(b.next + 1), Reg(b.next + 2);
    var b2 := Emit(base, pack, b1, in1, Imm(count), out1);
    var b3 := Bind(b2, Add64(out1, Imm(outInc)));
    var b4 := Bind(b3, Add64(in1, Imm(inInc)));
    var b5 := Bind(b4, Add32(i, Imm(1)));
    var b6 := Bind(b5, Equal(Reg(b4.next), n));
    StartInert(b, inits);
    BindInert(b2, Add64(out1, Imm(outInc)));
    BindInert(b3, Add64(in1, Imm(inInc)));
    BindInert(b4, Add32(i, Imm(1)));
    BindInert(b5, Equal(Reg(b4.next), n));
    ExtendsTransitive(b1, b2, b3); ExtendsTransitive(b1, b3, b4);
    ExtendsTransitive(b1, b4, b5); ExtendsTransitive(b1, b5, b6);
    LoopInert(b, inits, b6, Reg(b5.next), [Reg(b2.next), Reg(b3.next), Reg(b4.next)]);
  }

  lemma InnerInert(b: Builder, pack: bool, out1: Operand, in1: Operand, limit: Operand,
                   base: Datatype, blocklen: int, inStride: int, outStride: int)
    requires Ok(b) && Inert(b.blocks) && Quiet(base, pack)
    ensures Inert(VectorInner(b, pack, out1, in1, limit, base, blocklen, inStride, outStride).blocks)
  {
    hide Inert, StartLoop, EndLoop, Emit, Bind, Extends;
    var inits := [out1, in1];
    var b1 := StartLoop(b, inits);
    var out2, in2 := Reg(b.next), Reg(b.next + 1);
    var b2 := Emit(base, pack, b1, in2, Imm(blocklen), out2);
    var b3 := Bind(b2, Add64(out2, Imm(outStride)));
    var b4 := Bind(b3, Add64(in2, Imm(inStride)));
    var e5 := Equal(if pack then Reg(b2.next) else Reg(b3.next), limit);
    var b5 := Bind(b4, e5);
    StartInert(b, inits);
    BindInert(b2, Add64(out2, Imm(outStride)));
    BindInert(b3, Add64(in2, Imm(inStride)));
    BindInert(b4, e5);
    ExtendsTransitive(b1, b2, b3); ExtendsTransitive(b1, b3, b4); ExtendsTransitive(b1, b4, b5);
    LoopInert(b, inits, b5, Reg(b4.next), [Reg(b2.next), Reg(b3.next)]);
  }

  lemma VectorInert(b: Builder, pack: bool, inbuf: Operand, n: Operand, outbuf: Operand, base: Datatype,
                    blocklen: int, inStride: int, outStride: int, inInc: int, outInc: int)
    requires Ok(b) && Inert(b.blocks) && Quiet(base, pack)
    ensures Inert(EmitVector(b, pack, inbuf, n, outbuf, base, blocklen, inStride, outStride, inInc, outInc).blocks)
  {
    hide Inert, StartLoop, EndLoop, VectorInner, Bind, Extends, Quiet;
    var inits := [outbuf, inbuf, Imm(0)];
    var b1 := StartLoop(b, inits);
    var out1, in1, i := Reg(b.next), Reg(b.next + 1), Reg(b.next + 2);
    var e2 := if pack then Add64(out1, Imm(outInc)) else Add64(in1, Imm(inInc));
    var e4 := if pack then Add64(in1, Imm(inInc)) else Add64(out1, Imm(outInc));
    var b2 := Bind(b1, e2);
    var b3 := VectorInner(b2, pack, out1, in1, Reg(b1.next), base, blocklen, inStride, outStride);
    var b4 := Bind(b3, e4);
    var b5 := Bind(b4, Add32(i, Imm(1)));
    var b6 := Bind(b5, Equal(Reg(b4.next), n));
    StartInert(b, inits);
    BindInert(b1, e2);
    InnerInert(b2, pack, out1, in1, Reg(b1.next), base, blocklen, inStride, outStride);
    BindInert(b3, e4);
    BindInert(b4, Add32(i, Imm(1)));
    BindInert(b5, Equal(Reg(b4.next), n));
    ExtendsTransitive(b1, b2, b3); ExtendsTransitive(b1, b3, b4);
    ExtendsTransitive(b1, b4, b5); ExtendsTransitive(b1, b5, b6);
    LoopInert(b, inits, b6, Reg(b5.next),
              if pack then [Reg(b1.next), Reg(b3.next), Reg(b4.next)] else [Reg(b3.next), Reg(b1.next), Reg(b4.next)]);
  }

  lemma StridedInert(b: Builder, pack: bool, inbuf: Operand, n: Operand, outbuf: Operand, base: Datatype,
                     blocklen: int, dataStride: int, inInc: int, outInc: int)
    requires Ok(b) && Inert(b.blocks) && Quiet(base, pack)
    ensures Inert(EmitStrided(b, pack, inbuf, n, outbuf, base, blocklen, dataStride, inInc, outInc).blocks)
  {
    hide Inert, EmitVector, Quiet;
    var packed := Size(base) * blocklen;
    VectorInert(b, pack, inbuf, n, outbuf, base, blocklen, InStep(pack, dataStride, packed),
                OutStep(pack, dataStride, packed), inInc, outInc);
  }

  ghost predicate QuietFields(fields: seq<Field>, pack: bool) {
    forall i :: 0 <= i < |fields| ==>
      Quiet(fields[i].typ, pack) || (fields[i].typ.Primitive? && fields[i].blocklen == 0)
  }

  lemma {:induction false} BlocksInert(b: Builder, pack: bool, compact: Operand, scattered: Operand,
                                       fields: seq<Field>)
    requires Ok(b) && Inert(b.blocks) && QuietFields(fields, pack)
    ensures Inert(EmitBlocks(b, pack, compact, scattered, fields).0.blocks)
    decreases |fields|
  {
    hide Inert, Emit, Bind, Extends, Height, FieldsHeight, Size;
    if fields != [] {
      var f := fields[0];
      var b1 := Bind(b, Add64(scattered, Imm(f.displ)));
      var here := Reg(b.next);
      var x, y := if pack then here else compact, if pack then compact else here;
      var b2 := Emit(f.typ, pack, b1, x, Imm(f.blocklen), y);
      BindInert(b, Add64(scattered, Imm(f.displ)));
      if f.typ.Primitive? && f.blocklen == 0 { NoPrimitives(f.typ, pack, b1, x, y); }
      BindInert(b2, Add64(compact, Imm(Size(f.typ) * f.blocklen)));
      assert forall i :: 0 < i < |fields| ==> fields[i] == fields[1..][i - 1];
      BlocksInert(Bind(b2, Add64(compact, Imm(Size(f.typ) * f.blocklen))), pack, Reg(b2.next), scattered, fields[1..]);
    }
  }

  /** Zero primitives, known when the code is emitted, are no instructions. */
  lemma NoPrimitives(t: Datatype, pack: bool, b: Builder, inbuf: Operand, outbuf: Operand)
    requires t.Primitive? && Ok(b)
    ensures Emit(t, pack, b, inbuf, Imm(0), outbuf) == b
  {
    hide Append;
    PostambleOfNone(Cursor(b, inbuf, outbuf), PrimitiveSize(t.prim), VectorSize(PrimitiveSize(t.prim)));
  }

  lemma {:induction false} PostambleOfNone(c: Cursor, size: nat, vecsize: nat)
    requires Ok(c.b)
    ensures Postamble(c, size, 0, vecsize) == c
    decreases vecsize
  {
    if vecsize > 0 { PostambleOfNone(c, size, vecsize / 2); }
  }

  lemma IndexedInert(b: Builder, pack: bool, inbuf: Operand, n: Operand, outbuf: Operand,
                     extent: int, fields: seq<Field>)
    requires Ok(b) && Inert(b.blocks) && QuietFields(fields, pack)
    ensures Inert(EmitIndexed(b, pack, inbuf, n, outbuf, extent, fields).blocks)
  {
    hide Inert, StartLoop, EndLoop, EmitBlocks, Bind, Extends, QuietFields, FieldsHeight;
    var compactbuf, scatteredbuf := if pack then outbuf else inbuf, if pack then inbuf else outbuf;
    var b1 := Bind(b, ZExt(n));
    var b2 := Bind(b1, Mul64(Reg(b.next), Imm(extent)));
    var inits := [compactbuf, Imm(0)];
    var b3 := StartLoop(b2, inits);
    var compact, i := Reg(b2.next), Reg(b2.next + 1);
    var b4 := Bind(b3, Add64(scatteredbuf, i));
    var (b5, nextcompact) := EmitBlocks(b4, pack, compact, Reg(b3.next), fields);
    var b6 := Bind(b5, Add64(i, Imm(extent)));
    var b7 := Bind(b6, Equal(Reg(b5.next), Reg(b1.next)));
    BindInert(b, ZExt(n));
    BindInert(b1, Mul64(Reg(b.next), Imm(extent)));
    StartInert(b2, inits);
    BindInert(b3, Add64(scatteredbuf, i));
    BlocksInert(b4, pack, compact, Reg(b3.next), fields);
    BindInert(b5, Add64(i, Imm(extent)));
    BindInert(b6, Equal(Reg(b5.next), Reg(b1.next)));
    ExtendsTransitive(b3, b4, b5); ExtendsTransitive(b3, b5, b6); ExtendsTransitive(b3, b6, b7);
    LoopInert(b2, inits, b7, Reg(b6.next), [nextcompact, Reg(b5.next)]);
  }

  /** The code of a silent tree writes nothing. */
  lemma {:induction false} SilentIsQuiet(t: Datatype, pack: bool)
    requires Silent(t) && Positive(t) && TablesSingle(t)
    ensures Quiet(t, pack)
    decreases t, 1
  {
    hide Inert, Quiet, Size, Extent, Lb, Ub;
    if t.Struct? {
      FieldsAreQuiet(t.fields, pack);
    } else if t.Resized? {
      if t.base.Contiguous? || t.base.Vector? || t.base.HVector? {
        SilentIsQuiet(t.base.base, t.base.Contiguous? || pack);
      }
    } else {
      SilentIsQuiet(t.base, pack);
      if Indexed(t) { UniformQuiet(t, pack); }
    }
    QuietFromBases(t, pack);
  }

  lemma UniformQuiet(t: Datatype, pack: bool)
    requires (t.IndexedBlock? || t.HIndexed?) && Quiet(t.base, pack)
    ensures QuietFields(FieldsOf(t), pack)
  {
    hide Quiet, Size, Extent;
  }

  /** From the bases to the tree. */
  lemma QuietFromBases(t: Datatype, pack: bool)
    requires Silent(t) && TablesSingle(t)
    requires Indexed(t) ==> QuietFields(FieldsOf(t), pack)
    requires t.Contiguous? || t.Vector? || t.HVector? ==> Quiet(t.base, pack)
    requires t.Resized? && t.base.Contiguous? ==> Quiet(t.base.base, true)
    requires t.Resized? && (t.base.Vector? || t.base.HVector?) ==> Quiet(t.base.base, pack)
    ensures Quiet(t, pack)
  {
    hide Inert, Emit, Quiet, QuietFields, EmitContiguous, EmitStrided, EmitIndexed, FieldsOf, DataStride;
    forall b, inbuf, n, outbuf | Ok(b) && Inert(b.blocks) ensures Inert(Emit(t, pack, b, inbuf, n, outbuf).blocks) {
      InertFromBases(t, pack, b, inbuf, n, outbuf);
    }
    IsQuiet(t, pack);
  }

  lemma IsQuiet(t: Datatype, pack: bool)
    requires forall b, inbuf, n, outbuf :: Ok(b) && Inert(b.blocks) ==> Inert(Emit(t, pack, b, inbuf, n, outbuf).blocks)
    ensures Quiet(t, pack)
  {}

  lemma InertFromBases(t: Datatype, pack: bool, b: Builder, inbuf: Operand, n: Operand, outbuf: Operand)
    requires Ok(b) && Inert(b.blocks) && Silent(t) && TablesSingle(t)
    requires Indexed(t) ==> QuietFields(FieldsOf(t), pack)
    requires t.Contiguous? || t.Vector? || t.HVector? ==> Quiet(t.base, pack)
    requires t.Resized? && t.base.Contiguous? ==> Quiet(t.base.base, true)
    requires t.Resized? && (t.base.Vector? || t.base.HVector?) ==> Quiet(t.base.base, pack)
    ensures Inert(Emit(t, pack, b, inbuf, n, outbuf).blocks)
  {
    hide Inert, Emit, Quiet, QuietFields, EmitContiguous, EmitStrided, EmitIndexed, FieldsOf, DataStride, Size, Extent;
    if t.Contiguous? {
      EmitContiguousCase(t, pack, b, inbuf, n, outbuf);
      ContiguousInert(b, pack, inbuf, n, outbuf, t.base, InPitch(t, pack), OutPitch(t, pack), t.count);
    } else if t.Vector? || t.HVector? {
      StridedTreeInert(t, pack, b, inbuf, n, outbuf);
    } else if t.Resized? {
      EmitOfResized(t, pack, b, inbuf, n, outbuf);
      if t.base.Contiguous? {
        ContiguousInert(b, true, inbuf, n, outbuf, t.base.base, t.extent, Size(t.base), t.base.count);
      } else if t.base.Vector? || t.base.HVector? {
        StridedInert(b, pack, inbuf, n, outbuf, t.base.base, t.base.blocklen, DataStride(t.base),
                     InStep(pack, t.extent, Size(t.base)), OutStep(pack, t.extent, Size(t.base)));
      }
    } else {
      EmitUnrolledCase(t, pack, b, inbuf, n, outbuf);
      IndexedInert(b, pack, inbuf, n, outbuf, Extent(t), FieldsOf(t));
    }
  }

  lemma StridedTreeInert(t: Datatype, pack: bool, b: Builder, inbuf: Operand, n: Operand, outbuf: Operand)
    requires Ok(b) && Inert(b.blocks) && (t.Vector? || t.HVector?) && Quiet(t.base, pack)
    ensures Inert(Emit(t, pack, b, inbuf, n, outbuf).blocks)
  {
    hide Inert, Emit, Quiet, EmitStrided, DataStride, Size, Extent;
    EmitVectorCase(t, pack, b, inbuf, n, outbuf);
    StridedInert(b, pack, inbuf, n, outbuf, t.base, t.blocklen, DataStride(t),
                 InStep(pack, Extent(t), Size(t)), OutStep(pack, Extent(t), Size(t)));
  }

  lemma {:induction false} FieldsAreQuiet(fields: seq<Field>, pack: bool)
    requires SilentFields(fields) && PositiveFields(fields) && FieldsSingle(fields)
    ensures QuietFields(fields, pack)
    decreases fields, 0
  {
    hide Quiet;
    if fields != [] {
      var f := fields[0];
      assert f.typ < f;
      if f.blocklen != 0 { SilentIsQuiet(f.typ, pack); }
      FieldsAreQuiet(fields[1..], pack);
      assert forall i :: 0 < i < |fields| ==> fields[i] == fields[1..][i - 1];
    }
  }

  // ----- running it -----

  /** The memory of a state that has one. */
  predicate Holds(s: State, mem: Memory) { (s.Running? ==> s.conf.mem == mem) && (s.Returned? ==> s.mem == mem) }

  lemma InertStep(p: seq<Block>, s: State, mem: Memory)
    requires Inert(p) && Holds(s, mem)
    ensures Holds(Step(p, s), mem)
  {
    if s.Running? && s.block < |p| && s.pc < |p[s.block].instrs| {
      assert Harmless(p[s.block].instrs);
      assert p[s.block].instrs[s.pc].Let?;
    }
  }

  lemma {:induction false} InertRun(p: seq<Block>, s: State, mem: Memory, n: nat)
    requires Inert(p) && Holds(s, mem)
    ensures Holds(Run(p, s, n), mem)
    decreases n
  {
    hide Inert, Step, Holds;
    if n > 0 {
      InertStep(p, s, mem);
      InertRun(p, Step(p, s), mem, n - 1);
    }
  }
}
