/** Running the code emitted for a datatype: packCodegen and unpackCodegen of every class, by induction on
    the tree.  Nothing here asks whether the code is right: it does its route, whatever the tree. */
module ExecTypes {
  import opened Arithmetic
  import opened Datatypes
  import opened Typemap
  import opened Wellformed
  import opened Machine
  import opened Builders
  import opened Transfers
  import opened Emission
  import opened Routes
  import opened ExecPrimitive
  import opened Execution
  import opened Calls
  import opened ExecContiguous
  import opened ExecVector
  import opened ExecIndexed
  import opened ExecTable
  import opened ExecResized

  /** Every table loop that is emitted copies single primitives.  The others may miss their exit or record
      the wrong latch (modules Defects and Structure). */
  predicate TablesSingle(t: Datatype)
    decreases t, 0
  {
    match t
    case Primitive(_) => true
    case IndexedBlock(blocklen, displs, base) =>
      if |displs| > IDXB_LOOP_THRESHOLD then blocklen == 1 && base.Primitive? else TablesSingle(base)
    case Struct(fields) => FieldsSingle(fields)
    case Resized(_, _, base) => Indexed(base) || base.Resized? || TablesSingle(base)
    case _ => TablesSingle(t.base)
  }

  predicate FieldsSingle(fields: seq<Field>)
    decreases fields, 0
  {
    if fields == [] then true
    else
      var f := fields[0];
      assert f.typ < f;
      TablesSingle(f.typ) && FieldsSingle(fields[1..])
  }

  predicate Emittable(t: Datatype) { Positive(t) && Fits(t) && TablesSingle(t) }

  // ----- what each class hands to its generator -----

  lemma PrimitiveRuns(p: seq<Block>, t: Datatype, pack: bool, b: Builder, inbuf: Operand, n: Operand, outbuf: Operand,
                      conf: Conf)
    returns (conf': Conf)
    requires Called(p, t, pack, b, inbuf, n, outbuf, conf) && t.Primitive?
    ensures Answered(p, t, pack, b, inbuf, n, outbuf, conf, conf')
  {
    hide Ready, Copy, Reaches, Le, Along, CopyConstant, Keeps, At, RouteCopies;
    var size, count := PrimitiveSize(t.prim), Ev(conf.regs, n);
    var x, y := Ev(conf.regs, inbuf), Ev(conf.regs, outbuf);
    DenseCopies(t, pack, count, x, y);
    if n.Imm? {
      conf' := CopyConstantRuns(p, b, inbuf, outbuf, size, n.value, conf);
    } else {
      conf' := CopyRuntimeRuns(p, b, inbuf, n, outbuf, size, conf);
    }
  }

  /** n primitives are one run of bytes. */
  lemma DenseCopies(t: Datatype, pack: bool, n: nat, x: int, y: int)
    requires t.Primitive?
    ensures n * PrimitiveSize(t.prim) >= 0
    ensures Along(RouteCopies(t, pack, n), x, y) == Bytes(n * PrimitiveSize(t.prim), x, y)
  {
    var size := PrimitiveSize(t.prim);
    DenseIsWay(true, size);
    RepIota(size, n);
    WayRep(true, Iota(size), size, n);
    WayMoves(true, Iota(n * size), x, y);
  }

  lemma EmitContiguousCase(t: Datatype, pack: bool, b: Builder, inbuf: Operand, n: Operand, outbuf: Operand)
    requires Ok(b) && t.Contiguous?
    ensures Emit(t, pack, b, inbuf, n, outbuf)
         == EmitContiguous(b, pack, inbuf, n, outbuf, t.base, InPitch(t, pack), OutPitch(t, pack), t.count)
    ensures Route(t, pack) == RouteCopies(t.base, pack, t.count)
  {
    hide EmitContiguous, Size, Extent, RouteCopies;
  }

  lemma ContiguousCase(p: seq<Block>, t: Datatype, pack: bool, b: Builder, inbuf: Operand, n: Operand, outbuf: Operand,
                       conf: Conf)
    returns (conf': Conf)
    requires Called(p, t, pack, b, inbuf, n, outbuf, conf) && t.Contiguous? && Emittable(t) && Runs(p, t.base, pack)
    ensures Answered(p, t, pack, b, inbuf, n, outbuf, conf, conf')
  {
    hide Ready, Copy, Reaches, Le, Extends, Along, Emit, EmitContiguous, Done, Laps, Route, OutPitch, InPitch, Args,
         Runs;
    EmitContiguousCase(t, pack, b, inbuf, n, outbuf);
    ArgsOf(conf.regs, b.next, inbuf, n, outbuf);
    conf' := ContiguousRuns(p, b, pack, inbuf, n, outbuf, t.base, InPitch(t, pack), OutPitch(t, pack), t.count, conf);
  }

  /** The data stride of a vector in bytes. */
  function DataStride(v: Datatype): int
    requires v.Vector? || v.HVector?
  {
    if v.Vector? then Extent(v.base) * v.stride else v.stride
  }

  /** The arguments the vector classes pass: an item is `count` packed strides. */
  lemma StridesPitched(v: Datatype, pack: bool, extent: int)
    requires (v.Vector? || v.HVector?) && Positive(v) && Fits(v)
    ensures Positive(v.base) && 1 <= v.blocklen <= INT32_MAX && v.count >= 1
    ensures var packed, data := Size(v.base) * v.blocklen, DataStride(v);
      Pitched(pack, v.count, InStep(pack, data, packed), OutStep(pack, data, packed),
              InStep(pack, extent, Size(v)), OutStep(pack, extent, Size(v)))
  {
    hide Times;
    SizeAndExtentPositive(v.base);
    MulPositive(v.blocklen, Size(v.base));
    TimesIsProduct(Size(v.base) * v.blocklen, v.count);
  }

  lemma StridedCase(p: seq<Block>, v: Datatype, pack: bool, b: Builder, inbuf: Operand, n: Operand, outbuf: Operand,
                    extent: int, conf: Conf)
    returns (conf': Conf)
    requires (v.Vector? || v.HVector?) && Positive(v) && Fits(v) && Ok(b) && Runs(p, v.base, pack)
    requires Args(conf.regs, b.next, inbuf, n, outbuf) && Ev(conf.regs, n) >= 1
    requires Le(EmitStrided(b, pack, inbuf, n, outbuf, v.base, v.blocklen, DataStride(v),
                            InStep(pack, extent, Size(v)), OutStep(pack, extent, Size(v))).blocks, p)
    requires Ready(conf.mem, Along(Laps(Strides(v.base, pack, v.blocklen, DataStride(v), v.count),
                                        OutStep(pack, extent, Size(v)), InStep(pack, extent, Size(v)),
                                        Ev(conf.regs, n)),
                                   Ev(conf.regs, inbuf), Ev(conf.regs, outbuf)))
    ensures Done(p, b.next, b,
                 EmitStrided(b, pack, inbuf, n, outbuf, v.base, v.blocklen, DataStride(v),
                             InStep(pack, extent, Size(v)), OutStep(pack, extent, Size(v))), conf, conf',
                 Along(Laps(Strides(v.base, pack, v.blocklen, DataStride(v), v.count),
                            OutStep(pack, extent, Size(v)), InStep(pack, extent, Size(v)), Ev(conf.regs, n)),
                       Ev(conf.regs, inbuf), Ev(conf.regs, outbuf)))
  {
    hide Ready, Copy, Reaches, Le, Extends, Along, EmitVector, Done, Laps, RouteCopies, Size, DataStride, Args, Pitched,
         Runs, Positive, Fits;
    ArgsOf(conf.regs, b.next, inbuf, n, outbuf);
    StridesPitched(v, pack, extent);
    var packed, data := Size(v.base) * v.blocklen, DataStride(v);
    conf' := VectorRuns(p, b, pack, inbuf, n, outbuf, v.base, v.blocklen,
                        InStep(pack, data, packed), OutStep(pack, data, packed),
                        InStep(pack, extent, Size(v)), OutStep(pack, extent, Size(v)), v.count, conf);
  }

  lemma EmitVectorCase(t: Datatype, pack: bool, b: Builder, inbuf: Operand, n: Operand, outbuf: Operand)
    requires Ok(b) && (t.Vector? || t.HVector?)
    ensures Emit(t, pack, b, inbuf, n, outbuf)
         == EmitStrided(b, pack, inbuf, n, outbuf, t.base, t.blocklen, DataStride(t),
                        InStep(pack, Extent(t), Size(t)), OutStep(pack, Extent(t), Size(t)))
    ensures Route(t, pack) == Strides(t.base, pack, t.blocklen, DataStride(t), t.count)
    ensures OutPitch(t, pack) == OutStep(pack, Extent(t), Size(t))
      && InPitch(t, pack) == InStep(pack, Extent(t), Size(t))
  {
    hide EmitStrided, Strides, Size, Extent;
  }

  lemma VectorCase(p: seq<Block>, t: Datatype, pack: bool, b: Builder, inbuf: Operand, n: Operand, outbuf: Operand,
                   conf: Conf)
    returns (conf': Conf)
    requires Called(p, t, pack, b, inbuf, n, outbuf, conf) && (t.Vector? || t.HVector?)
    requires Emittable(t) && Runs(p, t.base, pack)
    ensures Answered(p, t, pack, b, inbuf, n, outbuf, conf, conf')
  {
    hide Ready, Copy, Reaches, Le, Extends, Along, Emit, EmitStrided, Done, Laps, Strides, Size, Extent, Args, Runs,
         Positive, Fits, OutPitch, InPitch, Route;
    ArgsOf(conf.regs, b.next, inbuf, n, outbuf);
    EmitVectorCase(t, pack, b, inbuf, n, outbuf);
    conf' := StridedCase(p, t, pack, b, inbuf, n, outbuf, Extent(t), conf);
  }

  /** Indexed types advance the data by their extent and the packed side by the sizes of their blocks. */
  lemma IndexedCopies(t: Datatype, pack: bool, n: int)
    requires Indexed(t)
    ensures RouteCopies(t, pack, n)
         == ExecIndexed.Items(FieldsRoute(FieldsOf(t), pack), pack, Extent(t), FieldsSize(FieldsOf(t)), n)
  {
    hide FieldsRoute, FieldsOf, FieldsSize, Extent, Laps;
  }

  lemma EmitUnrolledCase(t: Datatype, pack: bool, b: Builder, inbuf: Operand, n: Operand, outbuf: Operand)
    requires Ok(b) && Indexed(t) && !Tabled(t)
    ensures Emit(t, pack, b, inbuf, n, outbuf) == EmitIndexed(b, pack, inbuf, n, outbuf, Extent(t), FieldsOf(t))
  {
    hide EmitIndexed;
  }

  lemma ExtentInRange(t: Datatype)
    requires Positive(t) && Fits(t)
    ensures 1 <= Extent(t) <= INT32_MAX && 1 <= Size(t) <= INT32_MAX
  {
    SizeAndExtentPositive(t);
  }

  lemma UnrolledCase(p: seq<Block>, t: Datatype, pack: bool, b: Builder, inbuf: Operand, n: Operand, outbuf: Operand,
                     conf: Conf)
    returns (conf': Conf)
    requires Called(p, t, pack, b, inbuf, n, outbuf, conf) && Indexed(t) && !Tabled(t)
    requires Emittable(t) && FieldsRun(p, FieldsOf(t), pack)
    ensures Answered(p, t, pack, b, inbuf, n, outbuf, conf, conf')
  {
    hide Ready, Copy, Reaches, Le, Extends, Along, Emit, EmitIndexed, Done, ExecIndexed.Items, FieldsRoute, RouteCopies,
         FieldsSize, Extent, Args, FieldsOf, FieldsRun, Positive, Fits;
    EmitUnrolledCase(t, pack, b, inbuf, n, outbuf);
    ExtentInRange(t);
    ArgsOf(conf.regs, b.next, inbuf, n, outbuf);
    IndexedCopies(t, pack, Ev(conf.regs, n));
    conf' := IndexedRuns(p, b, pack, inbuf, n, outbuf, Extent(t), FieldsOf(t), conf);
  }

  lemma {:induction false} TableFieldsSize(table: seq<int>, blocklen: int, base: Datatype)
    ensures FieldsSize(TableFields(table, blocklen, base)) == |table| * (blocklen * Size(base))
  {
    if table != [] {
      TableFieldsSize(table[1..], blocklen, base);
      assert TableFields(table, blocklen, base)[1..] == TableFields(table[1..], blocklen, base);
      MulDistributes(|table|, 1, blocklen * Size(base));
    }
  }

  /** A row of a long indexed block is blocklen times its stored size. */
  lemma RowIsBlocks(t: Datatype)
    requires Tabled(t)
    ensures RowSize(DisplacementTable(t.displs, t.base), t.blocklen, t.base) == t.blocklen * Size(t)
  {
    TableFieldsSize(DisplacementTable(t.displs, t.base), t.blocklen, t.base);
    MulAssoc(|t.displs|, t.blocklen, Size(t.base));
    MulAssoc(t.blocklen, |t.displs|, Size(t.base));
  }

  lemma EmitTableCase(t: Datatype, pack: bool, b: Builder, inbuf: Operand, n: Operand, outbuf: Operand)
    requires Ok(b) && Tabled(t)
    ensures Emit(t, pack, b, inbuf, n, outbuf)
         == EmitTable(b, pack, inbuf, n, outbuf, Extent(t), Size(t), t.blocklen, t.base,
                      DisplacementTable(t.displs, t.base))
    ensures FieldsOf(t) == TableFields(DisplacementTable(t.displs, t.base), t.blocklen, t.base)
  {
    hide EmitTable;
  }

  lemma TableCopies(t: Datatype, pack: bool, m: int)
    requires Tabled(t)
    ensures RouteCopies(t, pack, m)
         == ExecTable.Items(DisplacementTable(t.displs, t.base), t.blocklen, t.base, pack, Extent(t), m)
  {
    hide FieldsRoute, FieldsSize, Extent, Laps;
    IndexedCopies(t, pack, m);
  }

  lemma TableIsOk(t: Datatype)
    requires Emittable(t) && Tabled(t)
    ensures t.blocklen == 1 && t.base.Primitive? && TableOk(t.base, 1, DisplacementTable(t.displs, t.base))
  {
    SingleNeedsNoLoop(PrimitiveSize(t.base.prim));
  }

  /** With block length one the test succeeds after the nth pass and not before. */
  lemma StopsAfterCount(c: int, size: nat, n: nat)
    requires 1 <= size <= INT32_MAX && 1 <= n < W32
    ensures StopsAt(c, size, size, n, n)
    ensures forall k: nat :: 1 <= k < n ==> !StopsAt(c, size, size, n, k)
  {
    hide StopsAt, Times;
    forall k: nat | 1 <= k <= n ensures StopsAt(c, size, size, n, k) <==> k == n {
      TotalFits(size, k);
      StopsAtExact(c, 1, size, n, k);
    }
  }

  lemma TableCase(p: seq<Block>, t: Datatype, pack: bool, b: Builder, inbuf: Operand, n: Operand, outbuf: Operand,
                  conf: Conf)
    returns (conf': Conf)
    requires Called(p, t, pack, b, inbuf, n, outbuf, conf) && Tabled(t) && Emittable(t) && Runs(p, t.base, pack)
    ensures Answered(p, t, pack, b, inbuf, n, outbuf, conf, conf')
  {
    hide Ready, Copy, Reaches, Le, Extends, Along, Emit, EmitTable, Done, RouteCopies, Size, Extent,
         Args, TableOk, StopsAt, Emittable, Runs, ExecTable.Items, RowSize, DisplacementTable;
    ArgsOf(conf.regs, b.next, inbuf, n, outbuf);
    var total, c := Ev(conf.regs, n), Ev(conf.regs, CompactOf(pack, inbuf, outbuf));
    TableIsOk(t);
    EmitTableCase(t, pack, b, inbuf, n, outbuf);
    TableCopies(t, pack, total);
    ExtentInRangeOf(t);
    RowIsBlocks(t);
    StopsAfterCount(c, Size(t), total);
    conf' := TableStops(p, b, pack, inbuf, n, outbuf, Extent(t), Size(t), 1, t.base,
                        DisplacementTable(t.displs, t.base), total, conf);
  }

  lemma ExtentInRangeOf(t: Datatype)
    requires Emittable(t)
    ensures 1 <= Extent(t) <= INT32_MAX && 1 <= Size(t) <= INT32_MAX
  {
    ExtentInRange(t);
  }

  // ----- resized types -----

  lemma EmitOfResized(t: Datatype, pack: bool, b: Builder, inbuf: Operand, n: Operand, outbuf: Operand)
    requires Ok(b) && t.Resized?
    ensures t.base.Primitive? ==>
      Emit(t, pack, b, inbuf, n, outbuf) == EmitPrimitiveResized(b, inbuf, n, outbuf, Size(t.base), t.extent)
    ensures t.base.Contiguous? ==>
      Emit(t, pack, b, inbuf, n, outbuf)
      == EmitContiguous(b, true, inbuf, n, outbuf, t.base.base, t.extent, Size(t.base), t.base.count)
    ensures t.base.Vector? || t.base.HVector? ==>
      Emit(t, pack, b, inbuf, n, outbuf)
      == EmitStrided(b, pack, inbuf, n, outbuf, t.base.base, t.base.blocklen, DataStride(t.base),
                     InStep(pack, t.extent, Size(t.base)), OutStep(pack, t.extent, Size(t.base)))
    ensures Indexed(t.base) || t.base.Resized? ==> Emit(t, pack, b, inbuf, n, outbuf) == b
  {
    hide EmitPrimitiveResized, EmitContiguous, EmitStrided;
  }

  lemma RouteOfResized(t: Datatype, pack: bool)
    requires t.Resized?
    ensures OutPitch(t, pack) == OutStep(Packs(t, pack), t.extent, Size(t.base))
    ensures InPitch(t, pack) == InStep(Packs(t, pack), t.extent, Size(t.base))
    ensures t.base.Primitive? ==> Route(t, pack) == Dense(PrimitiveSize(t.base.prim))
    ensures t.base.Contiguous? ==> Route(t, pack) == RouteCopies(t.base.base, true, t.base.count)
    ensures t.base.Vector? || t.base.HVector? ==>
      Route(t, pack) == Strides(t.base.base, pack, t.base.blocklen, DataStride(t.base), t.base.count)
    ensures Indexed(t.base) || t.base.Resized? ==> Route(t, pack) == []
  {
    hide RouteCopies, Strides;
    ExtentOfResized(t);
  }

  lemma ResizedPrimitiveCase(p: seq<Block>, t: Datatype, pack: bool, b: Builder, inbuf: Operand, n: Operand,
                             outbuf: Operand, conf: Conf)
    returns (conf': Conf)
    requires Called(p, t, pack, b, inbuf, n, outbuf, conf) && t.Resized? && t.base.Primitive?
    ensures Answered(p, t, pack, b, inbuf, n, outbuf, conf, conf')
  {
    hide Ready, Copy, Reaches, Le, Extends, Along, Emit, EmitPrimitiveResized, Done, Laps, Args, OutPitch, InPitch,
         Route;
    EmitOfResized(t, pack, b, inbuf, n, outbuf);
    RouteOfResized(t, pack);
    ArgsOf(conf.regs, b.next, inbuf, n, outbuf);
    conf' := PrimitiveResizedRuns(p, b, inbuf, n, outbuf, Size(t.base), t.extent, conf);
  }

  lemma ResizedContiguousCase(p: seq<Block>, t: Datatype, pack: bool, b: Builder, inbuf: Operand, n: Operand,
                              outbuf: Operand, conf: Conf)
    returns (conf': Conf)
    requires Called(p, t, pack, b, inbuf, n, outbuf, conf) && t.Resized? && t.base.Contiguous?
    requires Emittable(t) && Runs(p, t.base.base, true)
    ensures Answered(p, t, pack, b, inbuf, n, outbuf, conf, conf')
  {
    hide Ready, Copy, Reaches, Le, Extends, Along, Emit, EmitContiguous, Done, Laps, Args, OutPitch, InPitch, Route,
         RouteCopies, Size, Extent, Lb, Ub, Runs;
    EmitOfResized(t, pack, b, inbuf, n, outbuf);
    RouteOfResized(t, pack);
    ArgsOf(conf.regs, b.next, inbuf, n, outbuf);
    ResizedCopies(t, pack, Ev(conf.regs, n));
    ContiguousCounts(t.base);
    conf' := ContiguousRuns(p, b, true, inbuf, n, outbuf, t.base.base, t.extent, Size(t.base), t.base.count, conf);
  }

  lemma ContiguousCounts(t: Datatype)
    requires t.Contiguous? && Positive(t) && Fits(t)
    ensures CountOk(t.base, t.count) && t.count <= INT32_MAX
  {}

  lemma ResizedCopies(t: Datatype, pack: bool, n: int)
    ensures RouteCopies(t, pack, n) == Laps(Route(t, pack), OutPitch(t, pack), InPitch(t, pack), n)
  {}

  lemma ResizedVectorCase(p: seq<Block>, t: Datatype, pack: bool, b: Builder, inbuf: Operand, n: Operand,
                          outbuf: Operand, conf: Conf)
    returns (conf': Conf)
    requires Called(p, t, pack, b, inbuf, n, outbuf, conf) && t.Resized? && (t.base.Vector? || t.base.HVector?)
    requires Emittable(t) && Runs(p, t.base.base, pack)
    ensures Answered(p, t, pack, b, inbuf, n, outbuf, conf, conf')
  {
    hide Ready, Copy, Reaches, Le, Extends, Along, Emit, EmitStrided, Done, Laps, Args, OutPitch, InPitch, Route,
         RouteCopies, Strides, Size, Extent, Lb, Ub, Runs, DataStride;
    EmitOfResized(t, pack, b, inbuf, n, outbuf);
    RouteOfResized(t, pack);
    ArgsOf(conf.regs, b.next, inbuf, n, outbuf);
    ResizedCopies(t, pack, Ev(conf.regs, n));
    conf' := StridedCase(p, t.base, pack, b, inbuf, n, outbuf, t.extent, conf);
  }

  lemma ResizedNothingCase(p: seq<Block>, t: Datatype, pack: bool, b: Builder, inbuf: Operand, n: Operand,
                           outbuf: Operand, conf: Conf)
    requires Called(p, t, pack, b, inbuf, n, outbuf, conf) && t.Resized? && (Indexed(t.base) || t.base.Resized?)
    ensures Answered(p, t, pack, b, inbuf, n, outbuf, conf, conf)
  {
    hide Ready, Copy, Reaches, Le, Extends, Emit, Args, OutPitch, InPitch, Route, Done;
    EmitOfResized(t, pack, b, inbuf, n, outbuf);
    RouteOfResized(t, pack);
    ArgsOf(conf.regs, b.next, inbuf, n, outbuf);
    ResizedCopies(t, pack, Ev(conf.regs, n));
    EmptyLaps(OutPitch(t, pack), InPitch(t, pack), Ev(conf.regs, n));
    assert Along([], Ev(conf.regs, inbuf), Ev(conf.regs, outbuf)) == [];
    DoneNothing(p, b, conf);
  }

  lemma {:induction false} EmptyLaps(to: int, from: int, n: int)
    ensures Laps([], to, from, n) == []
    decreases n
  {
    if n > 0 { EmptyLaps(to, from, n - 1); }
  }

  // ----- the dispatch -----

  /** What the generator of t assumes about the code of its bases. */
  ghost predicate BasesRun(p: seq<Block>, t: Datatype, pack: bool) {
    match t
    case Primitive(_) => true
    case IndexedBlock(_, displs, base) => Runs(p, base, pack) && FieldsRun(p, FieldsOf(t), pack)
    case HIndexed(_, _) => FieldsRun(p, FieldsOf(t), pack)
    case Struct(_) => FieldsRun(p, FieldsOf(t), pack)
    case Resized(_, _, base) =>
      && (base.Contiguous? ==> Runs(p, base.base, true))
      && (base.Vector? || base.HVector? ==> Runs(p, base.base, pack))
    case _ => Runs(p, t.base, pack)
  }

  lemma Dispatch(p: seq<Block>, t: Datatype, pack: bool, b: Builder, inbuf: Operand, n: Operand, outbuf: Operand,
                 conf: Conf)
    returns (conf': Conf)
    requires Emittable(t) && BasesRun(p, t, pack) && Called(p, t, pack, b, inbuf, n, outbuf, conf)
    ensures Answered(p, t, pack, b, inbuf, n, outbuf, conf, conf')
  {
    hide Emittable, Called, Answered, Runs, FieldsRun, FieldsOf;
    match t
    case Primitive(_) => conf' := PrimitiveRuns(p, t, pack, b, inbuf, n, outbuf, conf);
    case Contiguous(_, _) => conf' := ContiguousCase(p, t, pack, b, inbuf, n, outbuf, conf);
    case Vector(_, _, _, _) => conf' := VectorCase(p, t, pack, b, inbuf, n, outbuf, conf);
    case HVector(_, _, _, _) => conf' := VectorCase(p, t, pack, b, inbuf, n, outbuf, conf);
    case IndexedBlock(_, displs, _) =>
      if Tabled(t) {
        conf' := TableCase(p, t, pack, b, inbuf, n, outbuf, conf);
      } else {
        conf' := UnrolledCase(p, t, pack, b, inbuf, n, outbuf, conf);
      }
    case HIndexed(_, _) => conf' := UnrolledCase(p, t, pack, b, inbuf, n, outbuf, conf);
    case Struct(_) => conf' := UnrolledCase(p, t, pack, b, inbuf, n, outbuf, conf);
    case Resized(_, _, base) =>
      if base.Primitive? {
        conf' := ResizedPrimitiveCase(p, t, pack, b, inbuf, n, outbuf, conf);
      } else if base.Contiguous? {
        conf' := ResizedContiguousCase(p, t, pack, b, inbuf, n, outbuf, conf);
      } else if base.Vector? || base.HVector? {
        conf' := ResizedVectorCase(p, t, pack, b, inbuf, n, outbuf, conf);
      } else {
        conf' := conf;
        ResizedNothingCase(p, t, pack, b, inbuf, n, outbuf, conf);
      }
  }

  lemma UniformFieldsRun(p: seq<Block>, t: Datatype, pack: bool)
    requires Emittable(t) && (t.IndexedBlock? || t.HIndexed?) && Runs(p, t.base, pack)
    ensures FieldsRun(p, FieldsOf(t), pack)
  {
    hide Runs, Size, Extent;
  }

  lemma EmittableBase(t: Datatype)
    requires Emittable(t) && !t.Primitive? && !t.Struct?
    ensures Tabled(t) ==> t.base.Primitive?
    ensures !t.Resized? || !(Indexed(t.base) || t.base.Resized?) ==> Emittable(t.base)
  {
    hide Size, Extent, Lb, Ub;
  }

  /** EVERY GENERATOR DOES ITS ROUTE.  Wherever the code of an emittable tree stands in a program, running it
      with any operands moves exactly the bytes of the tree's route, in order, keeps all older registers and
      never gets stuck. */
  lemma {:induction false} EmitRuns(p: seq<Block>, t: Datatype, pack: bool)
    requires Emittable(t)
    ensures Runs(p, t, pack)
    decreases t, 1
  {
    hide Emittable, Called, Answered, FieldsRun, BasesRun;
    BasesOf(p, t, pack);
    forall b, inbuf, n, outbuf, conf | Called(p, t, pack, b, inbuf, n, outbuf, conf)
      ensures exists conf' :: Answered(p, t, pack, b, inbuf, n, outbuf, conf, conf')
    {
      var conf' := Dispatch(p, t, pack, b, inbuf, n, outbuf, conf);
    }
  }

  lemma {:induction false} BasesOf(p: seq<Block>, t: Datatype, pack: bool)
    requires Emittable(t)
    ensures BasesRun(p, t, pack)
    decreases t, 0
  {
    hide Emittable, Runs, FieldsRun, FieldsOf;
    if t.Struct? {
      StructParts(t);
      StructRuns(p, t.fields, pack);
    } else if !t.Primitive? {
      EmittableBase(t);
      if t.Resized? {
        if t.base.Contiguous? || t.base.Vector? || t.base.HVector? {
          EmittableBase(t.base);
          EmitRuns(p, t.base.base, t.base.Contiguous? || pack);
        }
      } else {
        EmitRuns(p, t.base, pack);
        if t.IndexedBlock? || t.HIndexed? { UniformFieldsRun(p, t, pack); }
      }
    }
  }

  lemma StructParts(t: Datatype)
    requires Emittable(t) && t.Struct?
    ensures PositiveFields(t.fields) && FieldsFit(t.fields) && FieldsSingle(t.fields) && FieldsOf(t) == t.fields
  {}

  lemma {:induction false} StructRuns(p: seq<Block>, fields: seq<Field>, pack: bool)
    requires PositiveFields(fields) && FieldsFit(fields) && FieldsSingle(fields)
    ensures FieldsRun(p, fields, pack)
    decreases fields, 0
  {
    hide Runs;
    if fields != [] {
      var f := fields[0];
      assert f.typ < f;
      EmitRuns(p, f.typ, pack);
      StructRuns(p, fields[1..], pack);
      forall i | 0 <= i < |fields|
        ensures Runs(p, fields[i].typ, pack) && CountOk(fields[i].typ, fields[i].blocklen)
          && fields[i].blocklen <= INT32_MAX
      {
        if i > 0 { assert fields[i] == fields[1..][i - 1]; }
      }
    }
  }
}
