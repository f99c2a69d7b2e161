/** Where the shape condition holds, the route of the emitted code is the typemap's. */
module Correctness {
  import opened Arithmetic
  import opened Datatypes
  import opened Typemap
  import opened Wellformed
  import opened Bounds
  import opened Compression
  import opened Machine
  import opened Transfers
  import opened Emission
  import opened Routes
  import opened Support
  import opened ExecTypes

  /** One item's route and both pitches are those of the typemap. */
  predicate Faithful(t: Datatype, pack: bool) {
    && Route(t, pack) == Way(pack, Map(t))
    && OutPitch(t, pack) == OutStep(pack, Extent(t), |Map(t)|)
    && InPitch(t, pack) == InStep(pack, Extent(t), |Map(t)|)
  }

  lemma FaithfulCopies(t: Datatype, pack: bool, n: int)
    requires Faithful(t, pack)
    ensures RouteCopies(t, pack, n) == Way(pack, Copies(t, n))
  {
    hide Route, OutPitch, InPitch, Map, Extent;
    WayRep(pack, Map(t), Extent(t), n);
  }

  // ----- blocks -----

  /** Items of a sized, rightly compiled base are right as a block. */
  predicate BlockRight(f: Field, pack: bool) {
    && RouteCopies(f.typ, pack, f.blocklen) == Way(pack, Copies(f.typ, f.blocklen))
    && Size(f.typ) * f.blocklen == |Copies(f.typ, f.blocklen)|
  }

  lemma SizedBlock(f: Field, pack: bool)
    requires Faithful(f.typ, pack) && Positive(f.typ) && Sized(f.typ) && f.blocklen >= 0
    ensures BlockRight(f, pack)
  {
    hide Faithful, Sized, Positive, RouteCopies, Copies, Size;
    FaithfulCopies(f.typ, pack, f.blocklen);
    SizedLength(f.typ, f.blocklen);
    assert Size(f.typ) * f.blocklen == f.blocklen * Size(f.typ);
  }

  lemma {:induction false} FieldsWay(fields: seq<Field>, pack: bool)
    requires forall i :: 0 <= i < |fields| ==> BlockRight(fields[i], pack)
    ensures FieldsRoute(fields, pack) == Way(pack, FieldsMap(fields)) && FieldsSize(fields) == |FieldsMap(fields)|
  {
    hide BlockRight, RouteCopies, Copies, Size, Height, FieldsHeight, Way, Slide, Shift;
    if fields != [] {
      var f := fields[0];
      FieldsWay(fields[1..], pack);
      assert BlockRight(fields[0], pack);
      FirstWay(f, FieldsMap(fields[1..]), FieldsRoute(fields[1..], pack), pack);
    } else {
      NoWay(pack);
    }
  }

  lemma NoWay(pack: bool)
    ensures Way(pack, []) == []
  {}

  lemma FirstWay(f: Field, rest: seq<int>, r: seq<Hop>, pack: bool)
    requires BlockRight(f, pack) && r == Way(pack, rest)
    ensures var packed := Size(f.typ) * f.blocklen;
      Slide(RouteCopies(f.typ, pack, f.blocklen), OutStep(pack, f.displ, 0), InStep(pack, f.displ, 0))
      + Slide(r, OutStep(pack, 0, packed), InStep(pack, 0, packed))
      == Way(pack, Shift(Copies(f.typ, f.blocklen), f.displ) + rest)
    ensures |Shift(Copies(f.typ, f.blocklen), f.displ)| == Size(f.typ) * f.blocklen
  {
    hide RouteCopies, Copies, Size;
    var block := Copies(f.typ, f.blocklen);
    WayShift(pack, block, f.displ);
    WayConcat(pack, Shift(block, f.displ), rest);
  }

  /** An indexed type whose blocks are right and lie where its typemap says. */
  lemma IndexedFaithful(t: Datatype, pack: bool)
    requires Indexed(t) && FieldsMap(FieldsOf(t)) == Map(t)
    requires forall i :: 0 <= i < |FieldsOf(t)| ==> BlockRight(FieldsOf(t)[i], pack)
    ensures Faithful(t, pack)
  {
    hide BlockRight, FieldsMap, FieldsRoute, FieldsSize, Extent, FieldsOf;
    FieldsWay(FieldsOf(t), pack);
  }

  // ----- where the blocks lie -----

  /** Scaling by the size of the base instead of its extent is harmless when they are equal or all
      displacements are zero. */
  lemma ScaleIrrelevant(t: Datatype)
    requires t.IndexedBlock? && (Size(t.base) == Extent(t.base) || forall d <- t.displs :: d == 0)
    ensures UnrolledFields(t.blocklen, t.displs, t.base)
         == BlockFields(t.displs, Extent(t.base), t.blocklen, t.base)
  {
    hide Size, Extent;
    forall i | 0 <= i < |t.displs| ensures t.displs[i] * Size(t.base) == t.displs[i] * Extent(t.base) {
      assert t.displs[i] in t.displs;
    }
  }

  /** Non-negative displacements are their own 32-bit words. */
  lemma WordsAreScaled(t: Datatype)
    requires t.IndexedBlock? && Extent(t.base) >= 0
    requires forall d <- t.displs :: d >= 0 && Int32(d * Extent(t.base))
    ensures TableFields(DisplacementTable(t.displs, t.base), t.blocklen, t.base)
         == BlockFields(t.displs, Extent(t.base), t.blocklen, t.base)
  {
    hide Extent;
    forall i | 0 <= i < |t.displs| ensures Wrap32(t.displs[i] * Extent(t.base)) == t.displs[i] * Extent(t.base) {
      assert t.displs[i] in t.displs;
      MulNonNegative(t.displs[i], Extent(t.base));
    }
  }

  lemma GoodFieldsMap(t: Datatype, pack: bool)
    requires Indexed(t) && Positive(t) && Fits(t) && Good(t, pack)
    ensures FieldsMap(FieldsOf(t)) == Map(t)
  {
    hide Sized, Size;
    match t
    case IndexedBlock(blocklen, displs, base) =>
      BlockFieldsMap(displs, Extent(base), blocklen, base);
      if Tabled(t) {
        SizeAndExtentPositive(base);
        WordsAreScaled(t);
      } else {
        ScaleIrrelevant(t);
      }
    case HIndexed(entries, base) => EntryFieldsMap(entries, base);
    case Struct(_) =>
  }

  // ----- vectors -----

  lemma StridedFaithful(v: Datatype, pack: bool)
    requires (v.Vector? || v.HVector?) && Positive(v) && Sized(v.base) && Faithful(v.base, pack)
    ensures Strides(v.base, pack, v.blocklen, DataStride(v), v.count) == Way(pack, Map(v)) && |Map(v)| == Size(v)
  {
    hide Faithful, Route, OutPitch, InPitch, RouteCopies;
    SizeIsMapLength(v);
    FaithfulCopies(v.base, pack, v.blocklen);
    SizedLength(v.base, v.blocklen);
    WayRep(pack, Copies(v.base, v.blocklen), DataStride(v), v.count);
    assert Size(v.base) * v.blocklen == |Copies(v.base, v.blocklen)|;
    assert v.Vector? ==> v.stride * Extent(v.base) == DataStride(v);
  }

  // ----- resized types -----

  /** The typemap of a gap-free tree is a run of consecutive bytes. */
  lemma {:induction false} GapFreeMap(t: Datatype)
    requires Positive(t) && GapFree(t)
    ensures Size(t) >= 1 && Map(t) == Iota(Size(t)) && Extent(t) == Size(t)
    decreases t
  {
    match t
    case Primitive(_) =>
    case Contiguous(count, base) =>
      GapFreeMap(base);
      ContiguousExtent(count, base);
      MulPositive(count, Size(base));
      RepIota(Size(base), count);
    case Vector(count, blocklen, _, base) =>
      GapFreeMap(base);
      PromoteVectorMeaning(count, blocklen, base);
      GapFreeRun(count, blocklen, base);
    case HVector(count, blocklen, stride, base) =>
      GapFreeMap(base);
      SizeAndExtentPositive(base);
      PromoteHVectorMeaning(count, blocklen, stride, base);
      GapFreeRun(count, blocklen, base);
  }

  lemma GapFreeRun(count: int, blocklen: int, base: Datatype)
    requires count >= 1 && blocklen >= 1 && Size(base) >= 1
    requires Map(base) == Iota(Size(base)) && Extent(base) == Size(base)
    ensures var c := Contiguous(count * blocklen, base);
      Size(c) >= 1 && Map(c) == Iota(Size(c)) && Extent(c) == Size(c)
  {
    MulPositive(count, blocklen);
    MulPositive(count * blocklen, Size(base));
    ContiguousExtent(count * blocklen, base);
    RepIota(Size(base), count * blocklen);
  }

  /** The route of a resized contiguous type is that of packing its base. */
  lemma ResizedContiguousRoute(t: Datatype, pack: bool)
    requires t.Resized? && t.base.Contiguous? && Positive(t)
    requires Sized(t.base.base) && Faithful(t.base.base, true)
    ensures Route(t, pack) == Way(true, Map(t)) && |Map(t)| == Size(t.base)
    ensures OutPitch(t, pack) == Size(t.base) && InPitch(t, pack) == t.extent
  {
    hide Faithful, Strides, RouteCopies, Sized, Size, OutPitch, InPitch;
    RouteOfResized(t, pack);
    FaithfulCopies(t.base.base, true, t.base.count);
    SizedBase(t.base);
    SizeIsMapLength(t.base);
  }

  lemma SizedBase(t: Datatype)
    requires t.Contiguous?
    ensures Sized(t) == Sized(t.base)
  {}

  lemma ResizedFaithful(t: Datatype, pack: bool)
    requires t.Resized? && Positive(t) && Good(t, pack)
    requires t.base.Contiguous? ==> Faithful(t.base.base, true)
    requires t.base.Vector? || t.base.HVector? ==> Faithful(t.base.base, pack)
    ensures Faithful(t, pack)
  {
    hide Strides, RouteCopies, OutPitch, InPitch, Route, Sized;
    RouteOfResized(t, pack);
    ExtentOfResized(t);
    if t.base.Primitive? {
      DenseIsWay(pack, Size(t.base));
    } else if t.base.Contiguous? {
      ResizedContiguousRoute(t, pack);
      if !pack {
        GapFreeMap(t.base);
        DenseIsWay(true, Size(t.base));
        DenseIsWay(false, Size(t.base));
      }
    } else {
      StridedFaithful(t.base, pack);
    }
  }

  // ----- whole trees -----

  lemma {:induction false} GoodIsFaithful(t: Datatype, pack: bool)
    requires Positive(t) && Fits(t) && Good(t, pack)
    ensures Faithful(t, pack)
    decreases t, 1
  {
    hide Faithful, Size, Extent, Lb, Ub, Map, Route;
    match t
    case Primitive(p) => PrimitiveFaithful(t, pack);
    case Contiguous(_, base) =>
      GoodIsFaithful(base, pack);
      ContiguousFaithful(t, pack);
    case Vector(_, _, _, base) =>
      GoodIsFaithful(base, pack);
      VectorFaithful(t, pack);
    case HVector(_, _, _, base) =>
      GoodIsFaithful(base, pack);
      VectorFaithful(t, pack);
    case IndexedBlock(_, _, base) =>
      GoodFieldsMap(t, pack);
      GoodBase(t, pack);
      GoodIsFaithful(base, pack);
      UniformRight(t, pack);
      IndexedFaithful(t, pack);
    case HIndexed(_, base) =>
      GoodFieldsMap(t, pack);
      GoodIsFaithful(base, pack);
      UniformRight(t, pack);
      IndexedFaithful(t, pack);
    case Struct(fields) =>
      GoodFieldsMap(t, pack);
      StructRight(fields, pack);
      IndexedFaithful(t, pack);
    case Resized(_, _, base) =>
      if base.Contiguous? { GoodIsFaithful(base.base, true); }
      if base.Vector? || base.HVector? { GoodIsFaithful(base.base, pack); }
      ResizedFaithful(t, pack);
  }

  lemma GoodBase(t: Datatype, pack: bool)
    requires (t.IndexedBlock? || t.HIndexed?) && Positive(t) && Fits(t) && Good(t, pack)
    ensures Positive(t.base) && Fits(t.base) && Good(t.base, pack) && Sized(t.base)
  {}

  lemma PrimitiveFaithful(t: Datatype, pack: bool)
    requires t.Primitive?
    ensures Faithful(t, pack)
  {
    DenseIsWay(pack, PrimitiveSize(t.prim));
    assert Map(t) == Iota(PrimitiveSize(t.prim));
  }

  lemma ContiguousFaithful(t: Datatype, pack: bool)
    requires t.Contiguous? && Positive(t) && Sized(t.base) && Faithful(t.base, pack)
    ensures Faithful(t, pack)
  {
    hide Sized, RouteCopies;
    FaithfulCopies(t.base, pack, t.count);
    SizedBase(t);
    SizeIsMapLength(t);
  }

  lemma VectorFaithful(t: Datatype, pack: bool)
    requires (t.Vector? || t.HVector?) && Positive(t) && Sized(t.base) && Faithful(t.base, pack)
    ensures Faithful(t, pack)
  {
    hide Strides, Size, Extent, Map;
    StridedFaithful(t, pack);
  }

  lemma UniformRight(t: Datatype, pack: bool)
    requires (t.IndexedBlock? || t.HIndexed?) && Positive(t) && Sized(t.base) && Faithful(t.base, pack)
    ensures forall i :: 0 <= i < |FieldsOf(t)| ==> BlockRight(FieldsOf(t)[i], pack)
  {
    hide Faithful, BlockRight, Sized, Size, Extent;
    forall i | 0 <= i < |FieldsOf(t)| ensures BlockRight(FieldsOf(t)[i], pack) {
      SizedBlock(FieldsOf(t)[i], pack);
    }
  }

  lemma {:induction false} StructRight(fields: seq<Field>, pack: bool)
    requires PositiveFields(fields) && FieldsFit(fields) && GoodFields(fields, pack)
    ensures forall i :: 0 <= i < |fields| ==> BlockRight(fields[i], pack)
    decreases fields, 0
  {
    hide Faithful, BlockRight, Sized, Size, Extent;
    if fields != [] {
      var f := fields[0];
      assert f.typ < f;
      GoodIsFaithful(f.typ, pack);
      SizedBlock(f, pack);
      StructRight(fields[1..], pack);
      forall i | 0 <= i < |fields| ensures BlockRight(fields[i], pack) {
        if i > 0 { assert fields[i] == fields[1..][i - 1]; }
      }
    }
  }

  /** The route of n items is the typemap's. */
  lemma GoodRoute(t: Datatype, pack: bool, n: int, inbuf: int, outbuf: int)
    requires Positive(t) && Fits(t) && Good(t, pack)
    ensures RouteCopies(t, pack, n) == Way(pack, Copies(t, n))
    ensures Along(RouteCopies(t, pack, n), inbuf, outbuf) == Moves(pack, Copies(t, n), inbuf, outbuf)
  {
    hide Faithful, Good, Positive, Fits, RouteCopies, Copies;
    GoodIsFaithful(t, pack);
    FaithfulCopies(t, pack, n);
    WayMoves(pack, Copies(t, n), inbuf, outbuf);
  }

  // ----- the shape condition covers what the generators need -----

  lemma {:induction false} GoodIsEmittable(t: Datatype, pack: bool)
    requires Good(t, pack)
    ensures TablesSingle(t)
    decreases t, 1
  {
    match t
    case Primitive(_) =>
    case IndexedBlock(_, displs, base) => if !Tabled(t) { GoodIsEmittable(base, pack); }
    case Struct(fields) => GoodAreEmittable(fields, pack);
    case Resized(_, _, base) =>
      if base.Contiguous? { GoodIsEmittable(base.base, true); }
      if base.Vector? || base.HVector? { GoodIsEmittable(base.base, pack); }
    case _ => GoodIsEmittable(t.base, pack);
  }

  lemma {:induction false} GoodAreEmittable(fields: seq<Field>, pack: bool)
    requires GoodFields(fields, pack)
    ensures FieldsSingle(fields)
    decreases fields, 0
  {
    if fields != [] {
      var f := fields[0];
      assert f.typ < f;
      GoodIsEmittable(f.typ, pack);
      GoodAreEmittable(fields[1..], pack);
    }
  }
}
