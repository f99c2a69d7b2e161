/** The optimiser: Datatype::compress() of every class, and what it keeps. */
module Compression {
  import opened Arithmetic
  import opened Datatypes
  import opened Typemap
  import opened Wellformed

  /** A contiguous base that may be folded into the count or block length above it. */
  predicate Foldable(t: Datatype) { t.Contiguous? && Extent(t) == Size(t) }

  function Compress(t: Datatype): Datatype
    decreases t
  {
    match t
    case Primitive(_) => t
    case Contiguous(count, base) =>
      var cbase := Compress(base);
      if Foldable(cbase) then Contiguous(count * cbase.count, cbase.base)
      else Contiguous(count, cbase)
    case Vector(count, blocklen, stride, base) =>
      var cbase := Compress(base);
      PromoteVector(
        if Foldable(cbase)
        then Vector(count, blocklen * cbase.count, stride * cbase.count, cbase.base)
        else Vector(count, blocklen, stride, cbase))
    case HVector(count, blocklen, stride, base) =>
      var cbase := Compress(base);
      PromoteHVector(
        if Foldable(cbase) then HVector(count, blocklen * cbase.count, stride, cbase.base)
        else HVector(count, blocklen, stride, cbase))
    case IndexedBlock(blocklen, displs, base) => IndexedBlock(blocklen, displs, Compress(base))
    case HIndexed(entries, base) => HIndexed(entries, Compress(base))
    // StructDatatype::compress compresses its children and then rebuilds from the originals
    case Struct(_) => t
    case Resized(lb, extent, base) => Resized(lb, extent, Compress(base))
  }

  function PromoteVector(v: Datatype): Datatype
    requires v.Vector?
  {
    if v.stride == v.blocklen then Contiguous(v.count * v.blocklen, v.base) else v
  }

  function PromoteHVector(v: Datatype): Datatype
    requires v.HVector?
  {
    if v.stride == v.blocklen * Extent(v.base) then Contiguous(v.count * v.blocklen, v.base) else v
  }

  // ----- meaning -----

  /** Everything a parent, the code generator or a caller can see of a datatype. */
  ghost predicate SameMeaning(t: Datatype, u: Datatype) {
    && Map(t) == Map(u) && Size(t) == Size(u) && Lb(t) == Lb(u) && Ub(t) == Ub(u)
    && (Positive(t) ==> Positive(u)) && (t.Primitive? ==> t == u)
  }

  lemma ContiguousBound(count: int, m: int, e: int)
    ensures m * e + (m * e) * (count - 1) == e + e * (count * m - 1)
  {
    MulDistributes(count, 1, m * e);
    MulDistributes(count * m, 1, e);
    MulAssoc(count, m, e);
  }

  lemma VectorBound(count: int, blocklen: int, stride: int, m: int, e: int)
    ensures m * e + (stride * (count - 1) + blocklen - 1) * (m * e)
         == e + ((stride * m) * (count - 1) + blocklen * m - 1) * e
  {
    var k := stride * (count - 1);
    MulDistributes(k + blocklen, 1, m * e);
    MulDistributes(k, blocklen, m);
    MulAssoc(k + blocklen, m, e);
    MulDistributes((k + blocklen) * m, 1, e);
    MulAssoc(stride, count - 1, m);
    MulAssoc(stride, m, count - 1);
  }

  lemma HVectorBound(blocklen: int, m: int, e: int)
    ensures m * e + (blocklen - 1) * (m * e) == e + (blocklen * m - 1) * e
  {
    MulDistributes(blocklen, 1, m * e);
    MulAssoc(blocklen, m, e);
    MulDistributes(blocklen * m, 1, e);
  }

  lemma ContiguousExtent(m: int, base: Datatype)
    ensures Extent(Contiguous(m, base)) == m * Extent(base)
    ensures Ub(Contiguous(m, base)) == Lb(base) + m * Extent(base)
  {
    MulDistributes(m, 1, Extent(base));
  }

  /** Copies of a contiguous type are copies of its base. */
  lemma FoldCopies(n: int, m: int, base: Datatype)
    requires n >= 0 && m >= 0
    ensures Copies(Contiguous(m, base), n) == Copies(base, n * m)
  {
    var inner, e := Contiguous(m, base), Extent(base);
    ContiguousExtent(m, base);
    assert Map(inner) == Copies(base, m) == Rep(Map(base), e, m);
    assert Copies(inner, n) == Rep(Rep(Map(base), e, m), m * e, n);
    RepRep(Map(base), e, m, n);
  }

  lemma FoldContiguousBounds(count: int, m: int, base: Datatype)
    ensures Ub(Contiguous(count, Contiguous(m, base))) == Ub(Contiguous(count * m, base))
  {
    var inner := Contiguous(m, base);
    ContiguousExtent(m, base);
    ContiguousBound(count, m, Extent(base));
    assert Ub(Contiguous(count, inner)) == (Lb(inner) + Extent(inner)) + Extent(inner) * (count - 1);
  }

  lemma FoldContiguous(count: int, m: int, base: Datatype)
    requires count >= 1 && m >= 1 && Positive(base)
    ensures SameMeaning(Contiguous(count, Contiguous(m, base)), Contiguous(count * m, base))
  {
    MulPositive(count, m);
    FoldContiguousBounds(count, m, base);
    FoldCopies(count, m, base);
    MulAssoc(count, m, Size(base));
  }

  lemma FoldVectorBounds(count: int, blocklen: int, stride: int, m: int, base: Datatype)
    requires stride >= 1 && stride * m >= 1
    ensures Ub(Vector(count, blocklen, stride, Contiguous(m, base)))
         == Ub(Vector(count, blocklen * m, stride * m, base))
  {
    var e := Extent(base);
    ContiguousExtent(m, base);
    VectorBound(count, blocklen, stride, m, e);
    var t := Vector(count, blocklen, stride, Contiguous(m, base));
    assert Ub(t) == Lb(base) + m * e + (stride * (count - 1) + blocklen - 1) * (m * e);
  }

  lemma FoldVector(count: int, blocklen: int, stride: int, m: int, base: Datatype)
    requires count >= 1 && blocklen >= 1 && stride >= 1 && m >= 1 && Positive(base)
    ensures SameMeaning(Vector(count, blocklen, stride, Contiguous(m, base)),
                        Vector(count, blocklen * m, stride * m, base))
  {
    MulPositive(blocklen, m);
    MulPositive(stride, m);
    FoldCopies(blocklen, m, base);
    ContiguousExtent(m, base);
    MulAssoc(stride, m, Extent(base));
    FoldVectorBounds(count, blocklen, stride, m, base);
    MulAssoc(blocklen, m, Size(base));
  }

  lemma FoldHVectorBounds(count: int, blocklen: int, stride: int, m: int, base: Datatype)
    requires stride >= 1
    ensures Ub(HVector(count, blocklen, stride, Contiguous(m, base)))
         == Ub(HVector(count, blocklen * m, stride, base))
  {
    ContiguousExtent(m, base);
    HVectorBound(blocklen, m, Extent(base));
    var t := HVector(count, blocklen, stride, Contiguous(m, base));
    assert count != 0 ==>
      Ub(t) == Lb(base) + m * Extent(base) + stride * (count - 1) + (blocklen - 1) * (m * Extent(base));
  }

  lemma FoldHVector(count: int, blocklen: int, stride: int, m: int, base: Datatype)
    requires count >= 1 && blocklen >= 1 && stride >= 1 && m >= 1 && Positive(base)
    ensures SameMeaning(HVector(count, blocklen, stride, Contiguous(m, base)),
                        HVector(count, blocklen * m, stride, base))
  {
    MulPositive(blocklen, m);
    FoldCopies(blocklen, m, base);
    FoldHVectorBounds(count, blocklen, stride, m, base);
    MulAssoc(blocklen, m, Size(base));
  }

  lemma PromoteVectorMeaning(count: int, blocklen: int, base: Datatype)
    requires count >= 1 && blocklen >= 1 && Positive(base)
    ensures SameMeaning(Vector(count, blocklen, blocklen, base), Contiguous(count * blocklen, base))
  {
    MulPositive(count, blocklen);
    RepRep(Map(base), Extent(base), blocklen, count);
    assert Map(Vector(count, blocklen, blocklen, base)) == Copies(base, count * blocklen);
    MulAssoc(count, blocklen, Size(base));
    PromoteVectorBounds(count, blocklen, base);
  }

  lemma PromoteVectorBounds(count: int, blocklen: int, base: Datatype)
    requires blocklen >= 1
    ensures Ub(Vector(count, blocklen, blocklen, base)) == Ub(Contiguous(count * blocklen, base))
  {
    VectorGapFreeBound(count, blocklen, Extent(base));
  }

  lemma VectorGapFreeBound(count: int, blocklen: int, e: int)
    ensures (blocklen * (count - 1) + blocklen - 1) * e == e * (count * blocklen - 1)
  {
    MulDistributes(count, 1, blocklen);
  }

  lemma GapFreeBound(count: int, blocklen: int, e: int)
    ensures blocklen * e * (count - 1) + (blocklen - 1) * e == e * (count * blocklen - 1)
  {
    MulDistributes(count, 1, blocklen * e);
    MulAssoc(count, blocklen, e);
    MulDistributes(blocklen, 1, e);
    MulDistributes(count * blocklen, 1, e);
  }

  lemma PromoteHVectorBounds(count: int, blocklen: int, stride: int, base: Datatype)
    requires count >= 1 && stride >= 1 && stride == blocklen * Extent(base)
    ensures Ub(HVector(count, blocklen, stride, base)) == Ub(Contiguous(count * blocklen, base))
  {
    GapFreeBound(count, blocklen, Extent(base));
  }

  lemma PromoteHVectorMeaning(count: int, blocklen: int, stride: int, base: Datatype)
    requires count >= 1 && blocklen >= 1 && Positive(base)
    requires stride >= 1 && stride == blocklen * Extent(base)
    ensures SameMeaning(HVector(count, blocklen, stride, base), Contiguous(count * blocklen, base))
  {
    MulPositive(count, blocklen);
    RepRep(Map(base), Extent(base), blocklen, count);
    assert Map(HVector(count, blocklen, stride, base)) == Copies(base, count * blocklen);
    MulAssoc(count, blocklen, Size(base));
    PromoteHVectorBounds(count, blocklen, stride, base);
  }

  lemma PromoteMeaning(v: Datatype)
    requires Positive(v)
    ensures v.Vector? ==> SameMeaning(v, PromoteVector(v))
    ensures v.HVector? ==> SameMeaning(v, PromoteHVector(v))
  {
    if v.Vector? && v.stride == v.blocklen {
      PromoteVectorMeaning(v.count, v.blocklen, v.base);
    }
    if v.HVector? && v.stride == v.blocklen * Extent(v.base) {
      PromoteHVectorMeaning(v.count, v.blocklen, v.stride, v.base);
    }
  }

  /** A parent cannot tell two bases of the same meaning apart. */
  lemma ContiguousCongruence(base: Datatype, cbase: Datatype, count: int)
    requires SameMeaning(base, cbase)
    ensures SameMeaning(Contiguous(count, base), Contiguous(count, cbase))
  {
    assert Extent(base) == Extent(cbase);
  }

  lemma VectorCongruence(base: Datatype, cbase: Datatype, count: int, blocklen: int, stride: int)
    requires SameMeaning(base, cbase)
    ensures SameMeaning(Vector(count, blocklen, stride, base), Vector(count, blocklen, stride, cbase))
  {
    assert Extent(base) == Extent(cbase);
    assert Copies(base, blocklen) == Copies(cbase, blocklen);
  }

  lemma HVectorCongruence(base: Datatype, cbase: Datatype, count: int, blocklen: int, stride: int)
    requires SameMeaning(base, cbase)
    ensures SameMeaning(HVector(count, blocklen, stride, base), HVector(count, blocklen, stride, cbase))
  {
    assert Extent(base) == Extent(cbase);
    assert Copies(base, blocklen) == Copies(cbase, blocklen);
  }

  /** compress() changes neither the typemap nor the size nor the bounds. */
  lemma {:induction false} CompressKeepsMeaning(t: Datatype)
    requires Positive(t)
    ensures SameMeaning(t, Compress(t))
  {
    match t
    case Primitive(_) =>
    case Contiguous(count, base) =>
      CompressKeepsMeaning(base);
      var cbase := Compress(base);
      ContiguousCongruence(base, cbase, count);
      if Foldable(cbase) { FoldContiguous(count, cbase.count, cbase.base); }
    case Vector(count, blocklen, stride, base) =>
      CompressKeepsMeaning(base);
      var cbase := Compress(base);
      VectorCongruence(base, cbase, count, blocklen, stride);
      if Foldable(cbase) {
        FoldVector(count, blocklen, stride, cbase.count, cbase.base);
        PromoteMeaning(Vector(count, blocklen * cbase.count, stride * cbase.count, cbase.base));
      } else {
        PromoteMeaning(Vector(count, blocklen, stride, cbase));
      }
    case HVector(count, blocklen, stride, base) =>
      CompressKeepsMeaning(base);
      var cbase := Compress(base);
      HVectorCongruence(base, cbase, count, blocklen, stride);
      if Foldable(cbase) {
        FoldHVector(count, blocklen, stride, cbase.count, cbase.base);
        PromoteMeaning(HVector(count, blocklen * cbase.count, stride, cbase.base));
      } else {
        PromoteMeaning(HVector(count, blocklen, stride, cbase));
      }
    case IndexedBlock(_, _, base) => CompressKeepsMeaning(base);
    case HIndexed(entries, base) =>
      CompressKeepsMeaning(base);
      assert forall e <- entries :: CountOk(base, e.blocklen) ==> CountOk(Compress(base), e.blocklen);
    case Struct(_) =>
    case Resized(_, _, base) => CompressKeepsMeaning(base);
  }

  // ----- normal form -----

  predicate Normal(t: Datatype)
    decreases t
  {
    match t
    case Primitive(_) => true
    case Contiguous(_, base) => !Foldable(base) && Normal(base)
    case Vector(_, blocklen, stride, base) => !Foldable(base) && stride != blocklen && Normal(base)
    case HVector(_, blocklen, stride, base) =>
      !Foldable(base) && stride != blocklen * Extent(base) && Normal(base)
    case IndexedBlock(_, _, base) => Normal(base)
    case HIndexed(_, base) => Normal(base)
    case Struct(_) => true
    case Resized(_, _, base) => Normal(base)
  }

  /** The result of compress() is in normal form. */
  lemma {:induction false} CompressNormalizes(t: Datatype)
    requires Positive(t)
    ensures Normal(Compress(t))
  {
    match t
    case Primitive(_) =>
    case Struct(_) =>
    case Contiguous(_, base) => CompressNormalizes(base);
    case Vector(_, _, _, base) => CompressNormalizes(base);
    case HVector(_, _, _, base) => CompressNormalizes(base);
    case IndexedBlock(_, _, base) => CompressNormalizes(base);
    case HIndexed(_, base) => CompressNormalizes(base);
    case Resized(_, _, base) => CompressNormalizes(base);
  }

  /** The trees compress() leaves alone are exactly the normal ones; with CompressNormalizes,
      compress() is idempotent. */
  lemma {:induction false} FixedPointsAreNormal(t: Datatype)
    requires Positive(t)
    ensures Compress(t) == t <==> Normal(t)
  {
    match t
    case Primitive(_) =>
    case Struct(_) =>
    case Contiguous(_, base) => FixedPointsAreNormal(base); CompressNormalizes(t);
    case Vector(_, _, _, base) => FixedPointsAreNormal(base); CompressNormalizes(t);
    case HVector(_, _, _, base) => FixedPointsAreNormal(base); CompressNormalizes(t);
    case IndexedBlock(_, _, base) => FixedPointsAreNormal(base);
    case HIndexed(_, base) => FixedPointsAreNormal(base);
    case Resized(_, _, base) => FixedPointsAreNormal(base);
  }

  lemma CompressIdempotent(t: Datatype)
    requires Positive(t)
    ensures Compress(Compress(t)) == Compress(t)
  {
    CompressKeepsMeaning(t);
    CompressNormalizes(t);
    FixedPointsAreNormal(Compress(t));
  }

  function Nodes(t: Datatype): nat
    decreases t, 0
  {
    match t
    case Primitive(_) => 1
    case Contiguous(_, base) => 1 + Nodes(base)
    case Vector(_, _, _, base) => 1 + Nodes(base)
    case HVector(_, _, _, base) => 1 + Nodes(base)
    case IndexedBlock(_, _, base) => 1 + Nodes(base)
    case HIndexed(_, base) => 1 + Nodes(base)
    case Struct(fields) => 1 + FieldNodes(fields)
    case Resized(_, _, base) => 1 + Nodes(base)
  }

  function FieldNodes(fields: seq<Field>): nat
    decreases fields, 0
  {
    if fields == [] then 0
    else
      var f := fields[0];
      assert f.typ < f;
      Nodes(f.typ) + FieldNodes(fields[1..])
  }

  /** compress() never adds nodes, and a tree it leaves as large as it was kept every level. */
  lemma {:induction false} CompressShrinks(t: Datatype)
    ensures Nodes(Compress(t)) <= Nodes(t)
  {
    match t
    case Primitive(_) =>
    case Struct(_) =>
    case Contiguous(_, base) => CompressShrinks(base);
    case Vector(_, _, _, base) => CompressShrinks(base);
    case HVector(_, _, _, base) => CompressShrinks(base);
    case IndexedBlock(_, _, base) => CompressShrinks(base);
    case HIndexed(_, base) => CompressShrinks(base);
    case Resized(_, _, base) => CompressShrinks(base);
  }

  // ----- gap-free trees -----

  /** Contiguous types and gap-free vectors over a primitive: layouts without holes. */
  predicate GapFree(t: Datatype)
    decreases t
  {
    match t
    case Primitive(_) => true
    case Contiguous(_, base) => GapFree(base)
    case Vector(_, blocklen, stride, base) => stride == blocklen && GapFree(base)
    case HVector(_, blocklen, stride, base) => stride == blocklen * Extent(base) && GapFree(base)
    case _ => false
  }

  function Leaf(t: Datatype): Datatype
    requires GapFree(t)
    decreases t
  {
    if t.Primitive? then t else Leaf(t.base)
  }

  /** Number of primitive elements: the product of the counts and block lengths. */
  function Elements(t: Datatype): int
    requires GapFree(t)
    decreases t
  {
    match t
    case Primitive(_) => 1
    case Contiguous(count, base) => count * Elements(base)
    case Vector(count, blocklen, _, base) => count * (blocklen * Elements(base))
    case HVector(count, blocklen, _, base) => count * (blocklen * Elements(base))
  }

  /** However deep, a gap-free tree collapses to its primitive or to one contiguous type. */
  lemma {:induction false} GapFreeCollapses(t: Datatype)
    requires Positive(t) && GapFree(t)
    ensures Compress(t) == if t.Primitive? then t else Contiguous(Elements(t), Leaf(t))
    ensures Leaf(t).Primitive?
  {
    if !t.Primitive? {
      var base := t.base;
      GapFreeCollapses(base);
      CompressKeepsMeaning(base);
      var cbase := Compress(base);
      assert Leaf(t) == Leaf(base);
      if cbase.Contiguous? {
        PrimitiveRunIsFoldable(cbase.count, cbase.base);
        MulAssoc(t.count, if t.Contiguous? then 1 else t.blocklen, cbase.count);
        if t.HVector? { MulAssoc(t.blocklen, cbase.count, Extent(cbase.base)); }
      }
    }
  }

  lemma PrimitiveRunIsFoldable(count: int, base: Datatype)
    requires base.Primitive?
    ensures Foldable(Contiguous(count, base))
    ensures Extent(Contiguous(count, base)) == count * Extent(base)
  {
    ContiguousExtent(count, base);
  }

  // ----- int32 -----

  lemma Int32Factor(a: int, b: int)
    requires a >= 0 && b >= 1 && Int32(a * b)
    ensures Int32(a)
  {
    assert a * (b - 1) >= 0;
  }

  lemma FoldFits(m: int, base: Datatype, blocklen: int)
    requires Positive(Contiguous(m, base)) && blocklen >= 1
    requires Int32(blocklen * Size(Contiguous(m, base)))
    ensures Int32(blocklen * m)
  {
    SizeAndExtentPositive(base);
    MulAssoc(blocklen, m, Size(base));
    MulPositive(blocklen, m);
    Int32Factor(blocklen * m, Size(base));
  }

  /** The products compress() forms overflow no C++ int. */
  lemma {:induction false} CompressFits(t: Datatype)
    requires Positive(t) && Fits(t)
    ensures Fits(Compress(t))
  {
    hide Size, Lb, Ub, Map, Foldable;
    match t
    case Primitive(_) =>
    case Struct(_) =>
    case Contiguous(_, base) => CompressFits(base); ContiguousFits(t);
    case Vector(_, _, _, base) => CompressFits(base); VectorFits(t);
    case HVector(_, _, _, base) => CompressFits(base); HVectorFits(t);
    case IndexedBlock(_, _, base) => CompressFits(base); CompressKeepsMeaning(base); CompressKeepsMeaning(t);
    case HIndexed(_, base) => CompressFits(base); CompressKeepsMeaning(t);
    case Resized(_, _, base) => CompressFits(base); CompressKeepsMeaning(t);
  }

  lemma ContiguousFits(t: Datatype)
    requires t.Contiguous? && Positive(t) && Fits(t) && Fits(Compress(t.base))
    ensures Fits(Compress(t))
  {
    hide Map;
    CompressKeepsMeaning(t);
    CompressKeepsMeaning(t.base);
    var cbase := Compress(t.base);
    if Foldable(cbase) { FoldFits(cbase.count, cbase.base, t.count); }
  }

  lemma VectorFits(t: Datatype)
    requires t.Vector? && Positive(t) && Fits(t) && Fits(Compress(t.base))
    ensures Fits(Compress(t))
  {
    hide Map;
    CompressKeepsMeaning(t);
    CompressKeepsMeaning(t.base);
    var cbase := Compress(t.base);
    BlockFits(t.count, t.blocklen, cbase);
    VectorCountFits(t.count, t.blocklen, cbase);
    if Foldable(cbase) { FoldedVectorFits(t.count, t.blocklen, t.stride, cbase.count, cbase.base); }
  }

  lemma HVectorFits(t: Datatype)
    requires t.HVector? && Positive(t) && Fits(t) && Fits(Compress(t.base))
    ensures Fits(Compress(t))
  {
    hide Map;
    CompressKeepsMeaning(t);
    CompressKeepsMeaning(t.base);
    var cbase := Compress(t.base);
    BlockFits(t.count, t.blocklen, cbase);
    VectorCountFits(t.count, t.blocklen, cbase);
    if Foldable(cbase) { FoldedVectorFits(t.count, t.blocklen, 1, cbase.count, cbase.base); }
  }

  lemma BlockFits(count: int, blocklen: int, base: Datatype)
    requires count >= 1 && blocklen >= 1 && Positive(base)
    ensures Int32(count * (blocklen * Size(base))) ==> Int32(blocklen * Size(base))
  {
    SizeAndExtentPositive(base);
    MulPositive(blocklen, Size(base));
    MulPositive(count, blocklen * Size(base));
  }

  lemma VectorCountFits(count: int, blocklen: int, base: Datatype)
    requires count >= 1 && blocklen >= 1 && Positive(base)
    ensures Int32(count * (blocklen * Size(base))) ==> Int32(count * blocklen)
  {
    SizeAndExtentPositive(base);
    MulAssoc(count, blocklen, Size(base));
    MulPositive(count, blocklen);
    if Int32(count * (blocklen * Size(base))) { Int32Factor(count * blocklen, Size(base)); }
  }

  lemma FoldedVectorFits(count: int, blocklen: int, stride: int, m: int, base: Datatype)
    requires count >= 1 && blocklen >= 1 && stride >= 1 && m >= 1 && Positive(base)
    requires Int32(count * (blocklen * Size(Contiguous(m, base))))
    ensures Int32(blocklen * m) && Int32(count * (blocklen * m))
    ensures Int32(stride * Extent(Contiguous(m, base))) ==> Int32(stride * m)
    ensures stride * Extent(Contiguous(m, base)) == stride * m * Extent(base)
  {
    BlockFits(count, blocklen, Contiguous(m, base));
    FoldFits(m, base, blocklen);
    MulAssoc(blocklen, m, Size(base));
    MulPositive(blocklen, m);
    VectorCountFits(count, blocklen * m, base);
    ContiguousExtent(m, base);
    MulAssoc(stride, m, Extent(base));
    MulPositive(stride, m);
    SizeAndExtentPositive(base);
    if Int32(stride * Extent(Contiguous(m, base))) { Int32Factor(stride * m, Extent(base)); }
  }

  // ----- the rules, on the smallest trees -----

  /** A contiguous base is folded if and only if its items leave no gap between each other. */
  lemma FoldsExactly(n: int, m: int, u: Datatype)
    requires Compress(u) == u && !u.Contiguous? && m >= 1
    ensures Compress(Contiguous(n, Contiguous(m, u)))
         == if Extent(u) == Size(u) then Contiguous(n * m, u) else Contiguous(n, Contiguous(m, u))
  {
    hide Size, Extent;
    FoldableExactly(m, u);
  }

  lemma FoldableExactly(m: int, u: Datatype)
    requires !u.Contiguous? && m >= 1
    ensures Foldable(Contiguous(m, u)) <==> Extent(u) == Size(u)
    ensures !Foldable(u)
  {
    ContiguousExtent(m, u);
    MulDistributes(Extent(u), Size(u), m);
    MulPositive(if Extent(u) > Size(u) then Extent(u) - Size(u) else 1, m);
    MulDistributes(Size(u), Extent(u), m);
    MulPositive(if Size(u) > Extent(u) then Size(u) - Extent(u) else 1, m);
  }

  /** Under a vector the folded count goes to the block length, and to the stride that counts items. */
  lemma VectorFoldsExactly(n: int, b: int, s: int, m: int, u: Datatype)
    requires Compress(u) == u && !u.Contiguous? && m >= 1 && s != b
    ensures Compress(Vector(n, b, s, Contiguous(m, u)))
         == if Extent(u) == Size(u) then Vector(n, b * m, s * m, u) else Vector(n, b, s, Contiguous(m, u))
  {
    hide Size, Extent;
    FoldableExactly(m, u);
    MulDistributes(s, b, m);
    MulPositive(if s > b then s - b else 1, m);
    MulDistributes(b, s, m);
    MulPositive(if b > s then b - s else 1, m);
  }

  /** The stride of an hvector counts bytes and stays. */
  lemma HVectorFoldsExactly(n: int, b: int, s: int, m: int, u: Datatype)
    requires Compress(u) == u && !u.Contiguous? && m >= 1 && s != b * (m * Extent(u))
    ensures Compress(HVector(n, b, s, Contiguous(m, u)))
         == if Extent(u) == Size(u) then HVector(n, b * m, s, u) else HVector(n, b, s, Contiguous(m, u))
  {
    hide Size, Extent;
    FoldableExactly(m, u);
    ContiguousExtent(m, u);
    MulAssoc(b, m, Extent(u));
  }

  /** A vector without gaps is promoted. */
  lemma PromotesExactly(n: int, b: int, s: int, u: Datatype)
    requires Compress(u) == u && !u.Contiguous?
    ensures Compress(Vector(n, b, s, u)) == if s == b then Contiguous(n * b, u) else Vector(n, b, s, u)
    ensures Compress(HVector(n, b, s, u)) == if s == b * Extent(u) then Contiguous(n * b, u) else HVector(n, b, s, u)
  {
    hide Size, Extent;
  }
}
