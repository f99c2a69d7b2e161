/** The numbers the constructors store, against the typemap: when getSize() is the number of bytes,
    when the bounds enclose every offset, when they are the exact (MPI) bounds, and when no byte
    is touched twice. */
module Bounds {
  import opened Arithmetic
  import opened Datatypes
  import opened Typemap
  import opened Wellformed

  // ----- size -----

  /** IndexedBlockDatatype leaves the block length out of its size. */
  predicate Sized(t: Datatype)
    decreases t, 0
  {
    match t
    case Primitive(_) => true
    case Contiguous(_, base) => Sized(base)
    case Vector(_, _, _, base) => Sized(base)
    case HVector(_, _, _, base) => Sized(base)
    case IndexedBlock(blocklen, _, base) => blocklen == 1 && Sized(base)
    case HIndexed(_, base) => Sized(base)
    case Struct(fields) => SizedFields(fields)
    case Resized(_, _, base) => Sized(base)
  }

  predicate SizedFields(fields: seq<Field>)
    decreases fields, 0
  {
    if fields == [] then true
    else
      var f := fields[0];
      assert f.typ < f;
      Sized(f.typ) && SizedFields(fields[1..])
  }

  lemma ScaledComparison(n: int, a: int, b: int)
    requires n >= 1 && a <= b
    ensures n * a <= n * b && (n * a == n * b <==> a == b)
  {
    MulNonNegative(n, b - a);
    if a < b { MulPositive(n, b - a); }
  }

  lemma CopiesLength(t: Datatype, n: int)
    requires n >= 0
    ensures |Copies(t, n)| == n * |Map(t)|
  {
    RepLength(Map(t), Extent(t), n);
  }

  /** getSize() never exceeds the number of bytes packed, and equals it exactly for the trees whose
      indexed-block nodes all have block length one. */
  lemma {:induction false} SizeIsMapLength(t: Datatype)
    requires Positive(t)
    ensures Size(t) <= |Map(t)|
    ensures Size(t) == |Map(t)| <==> Sized(t)
    decreases t, 0
  {
    match t
    case Primitive(_) =>
    case Contiguous(count, base) =>
      SizeIsMapLength(base);
      CopiesLength(base, count);
      ScaledComparison(count, Size(base), |Map(base)|);
    case Vector(count, blocklen, stride, base) =>
      SizeIsMapLength(base);
      BlockedLength(base, count, blocklen, stride * Extent(base));
    case HVector(count, blocklen, stride, base) =>
      SizeIsMapLength(base);
      BlockedLength(base, count, blocklen, stride);
    case IndexedBlock(blocklen, displs, base) =>
      SizeIsMapLength(base);
      SizeAndExtentPositive(base);
      CopiesLength(base, blocklen);
      BlocksMapLength(displs, Extent(base), Copies(base, blocklen));
      MulPositive(blocklen, |Map(base)|);
      ScaledComparison(|displs|, Size(base), blocklen * |Map(base)|);
      if blocklen > 1 { MulPositive(blocklen - 1, |Map(base)|); MulDistributes(blocklen, 1, |Map(base)|); }
    case HIndexed(entries, base) =>
      SizeIsMapLength(base);
      EntriesMapLength(entries, base);
    case Struct(fields) => FieldsSizeIsMapLength(fields);
    case Resized(_, _, base) => SizeIsMapLength(base);
  }

  lemma BlockedLength(base: Datatype, count: int, blocklen: int, step: int)
    requires count >= 1 && blocklen >= 1 && Size(base) <= |Map(base)|
    ensures count * (blocklen * Size(base)) <= |Rep(Copies(base, blocklen), step, count)|
    ensures count * (blocklen * Size(base)) == |Rep(Copies(base, blocklen), step, count)|
       <==> Size(base) == |Map(base)|
  {
    CopiesLength(base, blocklen);
    RepLength(Copies(base, blocklen), step, count);
    ScaledComparison(blocklen, Size(base), |Map(base)|);
    ScaledComparison(count, blocklen * Size(base), blocklen * |Map(base)|);
  }

  lemma {:induction false} BlocksMapLength(displs: seq<int>, scale: int, block: seq<int>)
    ensures |BlocksMap(displs, scale, block)| == |displs| * |block|
  {
    if displs != [] {
      BlocksMapLength(displs[1..], scale, block);
      MulDistributes(|displs|, 1, |block|);
    }
  }

  lemma {:induction false} EntriesMapLength(entries: seq<Entry>, base: Datatype)
    requires Size(base) <= |Map(base)|
    requires forall e <- entries :: e.blocklen >= 0
    ensures EntriesSize(entries, Size(base)) <= |EntriesMap(entries, Map(base), Extent(base))|
    ensures (exists e <- entries :: e.blocklen >= 1) ==>
      (EntriesSize(entries, Size(base)) == |EntriesMap(entries, Map(base), Extent(base))|
       <==> Size(base) == |Map(base)|)
    ensures Size(base) == |Map(base)| ==>
      EntriesSize(entries, Size(base)) == |EntriesMap(entries, Map(base), Extent(base))|
  {
    if entries != [] {
      var n := entries[0].blocklen;
      EntriesMapLength(entries[1..], base);
      CopiesLength(base, n);
      if n >= 1 { ScaledComparison(n, Size(base), |Map(base)|); }
    }
  }

  lemma {:induction false} FieldsSizeIsMapLength(fields: seq<Field>)
    requires PositiveFields(fields)
    ensures FieldsSize(fields) <= |FieldsMap(fields)|
    ensures FieldsSize(fields) == |FieldsMap(fields)| <==> SizedFields(fields)
    decreases fields, 0
  {
    if fields != [] {
      var f := fields[0];
      assert f.typ < f;
      SizeIsMapLength(f.typ);
      FieldsSizeIsMapLength(fields[1..]);
      CopiesLength(f.typ, f.blocklen);
      if f.blocklen >= 1 { ScaledComparison(f.blocklen, Size(f.typ), |Map(f.typ)|); }
    }
  }

  // ----- enclosing bounds -----

  ghost predicate Within(tm: seq<int>, lo: int, hi: int) {
    forall i :: 0 <= i < |tm| ==> lo <= tm[i] < hi
  }

  /** lo and hi are the least offset and one past the greatest: MPI's bounds of a typemap. */
  ghost predicate IsBounds(tm: seq<int>, lo: int, hi: int) {
    Within(tm, lo, hi) && lo in tm && hi - 1 in tm
  }

  /** No resized node, and the children of indexed and struct nodes start at offset zero. */
  predicate Plain(t: Datatype)
    decreases t, 0
  {
    match t
    case Primitive(_) => true
    case Contiguous(_, base) => Plain(base)
    case Vector(_, _, _, base) => Plain(base)
    case HVector(_, _, _, base) => Plain(base)
    case IndexedBlock(_, _, base) => Plain(base) && Lb(base) == 0
    case HIndexed(_, base) => Plain(base) && Lb(base) == 0
    case Struct(fields) => PlainFields(fields)
    case Resized(_, _, _) => false
  }

  predicate PlainFields(fields: seq<Field>)
    decreases fields, 0
  {
    if fields == [] then true
    else
      var f := fields[0];
      assert f.typ < f;
      Plain(f.typ) && Lb(f.typ) == 0 && PlainFields(fields[1..])
  }

  lemma ShiftWithin(tm: seq<int>, lo: int, hi: int, d: int)
    requires Within(tm, lo, hi)
    ensures Within(Shift(tm, d), lo + d, hi + d)
  {}

  lemma ConcatWithin(a: seq<int>, b: seq<int>, lo: int, hi: int)
    requires Within(a, lo, hi) && Within(b, lo, hi)
    ensures Within(a + b, lo, hi)
  {}

  lemma {:induction false} RepWithin(tm: seq<int>, step: int, n: int, lo: int, hi: int)
    requires Within(tm, lo, hi) && step >= 0 && n >= 1
    ensures Within(Rep(tm, step, n), lo, hi + step * (n - 1))
  {
    MulNonNegative(step, n - 1);
    if n == 1 {
      RepOne(tm, step);
    } else {
      var rest, top := Rep(tm, step, n - 1), hi + step * (n - 2);
      RepWithin(tm, step, n - 1, lo, hi);
      assert top + step == hi + step * (n - 1);
      ShiftWithin(rest, lo, top, step);
      ConcatWithin(tm, Shift(rest, step), lo, top + step);
    }
  }

  lemma {:induction false} RepIsBounds(tm: seq<int>, step: int, n: int, lo: int, hi: int)
    requires IsBounds(tm, lo, hi) && step >= 0 && n >= 1
    ensures IsBounds(Rep(tm, step, n), lo, hi + step * (n - 1))
  {
    RepWithin(tm, step, n, lo, hi);
    var i :| 0 <= i < |tm| && tm[i] == lo;
    var j :| 0 <= j < |tm| && tm[j] == hi - 1;
    RepAt(tm, step, n, 0, i);
    RepAt(tm, step, n, n - 1, j);
    assert (n - 1) * step == step * (n - 1);
  }

  /** Bounds of a vector or hvector: `mid` ends a block of the base, `top` ends the last block. */
  lemma BlockedBounds(tm: seq<int>, lo: int, hi: int, blocklen: int, step: int, count: int, mid: int, top: int)
    requires blocklen >= 1 && count >= 1 && step >= 0 && hi - lo >= 0 && Within(tm, lo, hi)
    requires mid == hi + (hi - lo) * (blocklen - 1) && top == mid + step * (count - 1)
    ensures Within(Rep(Rep(tm, hi - lo, blocklen), step, count), lo, top)
    ensures IsBounds(tm, lo, hi) ==> IsBounds(Rep(Rep(tm, hi - lo, blocklen), step, count), lo, top)
  {
    hide Rep, Within;
    var block := Rep(tm, hi - lo, blocklen);
    RepWithin(tm, hi - lo, blocklen, lo, hi);
    RepWithin(block, step, count, lo, mid);
    if IsBounds(tm, lo, hi) {
      RepIsBounds(tm, hi - lo, blocklen, lo, hi);
      RepIsBounds(block, step, count, lo, mid);
    }
  }

  lemma VectorUb(hi: int, e: int, stride: int, count: int, blocklen: int)
    ensures hi + (stride * (count - 1) + blocklen - 1) * e
         == hi + e * (blocklen - 1) + (stride * e) * (count - 1)
  {
    MulDistributes(stride * (count - 1), blocklen - 1, e);
    MulAssoc(stride, count - 1, e);
    MulAssoc(stride, e, count - 1);
  }

  /** n items packed side by side from offset zero. */
  lemma RunWithin(tm: seq<int>, e: int, n: int)
    requires Within(tm, 0, e) && e >= 0 && n >= 0
    ensures Within(Rep(tm, e, n), 0, n * e)
  {
    if n >= 1 {
      RepWithin(tm, e, n, 0, e);
      MulDistributes(n, 1, e);
      assert e + e * (n - 1) == n * e;
    }
  }

  /** Bounds of a list of placed blocks, each starting at offset zero. */
  ghost predicate Enclosed(f: Field) {
    f.blocklen >= 0 && Extent(f.typ) >= 0 && Within(Map(f.typ), 0, Extent(f.typ))
  }

  lemma BlockWithin(f: Field, lo: int, hi: int)
    requires Enclosed(f) && lo <= f.displ && FieldEnd(f) <= hi
    ensures Within(Shift(Copies(f.typ, f.blocklen), f.displ), lo, hi)
  {
    var length := f.blocklen * Extent(f.typ);
    RunWithin(Map(f.typ), Extent(f.typ), f.blocklen);
    ShiftWithin(Copies(f.typ, f.blocklen), 0, length, f.displ);
  }

  lemma {:induction false} FieldsWithin(fields: seq<Field>, lo: int, hi: int)
    requires forall i :: 0 <= i < |fields| ==>
      Enclosed(fields[i]) && lo <= fields[i].displ && FieldEnd(fields[i]) <= hi
    ensures Within(FieldsMap(fields), lo, hi)
  {
    if fields != [] {
      BlockWithin(fields[0], lo, hi);
      FieldsWithin(fields[1..], lo, hi);
    }
  }

  lemma IndexedBlockEncloses(blocklen: int, displs: seq<int>, base: Datatype)
    requires blocklen >= 0 && |displs| >= 1 && Extent(base) >= 0 && Within(Map(base), 0, Extent(base))
    ensures Within(Map(IndexedBlock(blocklen, displs, base)),
                   IndexedBlockLb(displs, Extent(base)), IndexedBlockUb(displs, blocklen, Extent(base)))
  {
    var e := Extent(base);
    var fields := BlockFields(displs, e, blocklen, base);
    BlockFieldsMap(displs, e, blocklen, base);
    forall i | 0 <= i < |fields|
      ensures IndexedBlockLb(displs, e) <= fields[i].displ
      ensures FieldEnd(fields[i]) <= IndexedBlockUb(displs, blocklen, e)
    {
      BlockWithinBounds(displs, blocklen, e, i);
    }
    FieldsWithin(fields, IndexedBlockLb(displs, e), IndexedBlockUb(displs, blocklen, e));
  }

  lemma HIndexedEncloses(entries: seq<Entry>, base: Datatype)
    requires Extent(base) >= 0 && Within(Map(base), 0, Extent(base))
    requires forall x <- entries :: x.blocklen >= 0
    ensures Within(Map(HIndexed(entries, base)), HIndexedLb(entries), HIndexedUb(entries, Extent(base)))
  {
    var fields := EntryFields(entries, base);
    EntryFieldsMap(entries, base);
    forall i | 0 <= i < |fields|
      ensures HIndexedLb(entries) <= fields[i].displ
      ensures FieldEnd(fields[i]) <= HIndexedUb(entries, Extent(base))
    {
      EntryWithinBounds(entries, Extent(base), i);
    }
    FieldsWithin(fields, HIndexedLb(entries), HIndexedUb(entries, Extent(base)));
  }

  lemma {:induction false} FieldsEnclosed(fields: seq<Field>)
    requires PositiveFields(fields) && PlainFields(fields)
    ensures forall i :: 0 <= i < |fields| ==> Enclosed(fields[i])
    decreases fields, 0
  {
    if fields != [] {
      var f := fields[0];
      assert f.typ < f;
      BoundsEnclose(f.typ);
      SizeAndExtentPositive(f.typ);
      FieldsEnclosed(fields[1..]);
    }
  }

  lemma StructEncloses(fields: seq<Field>)
    requires forall i :: 0 <= i < |fields| ==> Enclosed(fields[i])
    ensures Within(FieldsMap(fields), StructLb(fields), StructUb(fields))
  {
    forall i | 0 <= i < |fields|
      ensures StructLb(fields) <= fields[i].displ && FieldEnd(fields[i]) <= StructUb(fields)
    {
      FieldWithinBounds(fields, i);
    }
    FieldsWithin(fields, StructLb(fields), StructUb(fields));
  }

  lemma VectorEncloses(count: int, blocklen: int, stride: int, base: Datatype)
    requires count >= 1 && blocklen >= 1 && stride >= 1 && Extent(base) >= 0
    requires Within(Map(base), Lb(base), Ub(base))
    ensures Within(Map(Vector(count, blocklen, stride, base)), Lb(base),
                   Ub(Vector(count, blocklen, stride, base)))
    ensures IsBounds(Map(base), Lb(base), Ub(base)) ==>
      IsBounds(Map(Vector(count, blocklen, stride, base)), Lb(base),
               Ub(Vector(count, blocklen, stride, base)))
  {
    hide Rep, Within, IsBounds;
    var e := Extent(base);
    MulNonNegative(stride, e);
    VectorUb(Ub(base), e, stride, count, blocklen);
    var mid := Ub(base) + e * (blocklen - 1);
    BlockedBounds(Map(base), Lb(base), Ub(base), blocklen, stride * e, count, mid, mid + stride * e * (count - 1));
  }

  lemma HVectorEncloses(count: int, blocklen: int, stride: int, base: Datatype)
    requires count >= 1 && blocklen >= 1 && stride >= 1 && Extent(base) >= 0
    requires Within(Map(base), Lb(base), Ub(base))
    ensures Within(Map(HVector(count, blocklen, stride, base)), Lb(base),
                   Ub(HVector(count, blocklen, stride, base)))
    ensures IsBounds(Map(base), Lb(base), Ub(base)) ==>
      IsBounds(Map(HVector(count, blocklen, stride, base)), Lb(base),
               Ub(HVector(count, blocklen, stride, base)))
  {
    hide Rep, Within, IsBounds;
    var e := Extent(base);
    var mid := Ub(base) + e * (blocklen - 1);
    BlockedBounds(Map(base), Lb(base), Ub(base), blocklen, stride, count, mid, mid + stride * (count - 1));
    HVectorUb(Ub(base), e, stride * (count - 1), blocklen);
  }

  lemma HVectorUb(hi: int, e: int, spread: int, blocklen: int)
    ensures hi + spread + (blocklen - 1) * e == hi + e * (blocklen - 1) + spread
  {}

  /** Every byte a resized-free tree touches lies between its bounds. */
  lemma {:induction false} BoundsEnclose(t: Datatype)
    requires Positive(t) && Plain(t)
    ensures Within(Map(t), Lb(t), Ub(t))
    decreases t, 0
  {
    match t
    case Primitive(_) =>
    case Contiguous(count, base) =>
      BoundsEnclose(base); SizeAndExtentPositive(base);
      RepWithin(Map(base), Extent(base), count, Lb(base), Ub(base));
    case Vector(count, blocklen, stride, base) =>
      BoundsEnclose(base); SizeAndExtentPositive(base);
      VectorEncloses(count, blocklen, stride, base);
    case HVector(count, blocklen, stride, base) =>
      BoundsEnclose(base); SizeAndExtentPositive(base);
      HVectorEncloses(count, blocklen, stride, base);
    case IndexedBlock(blocklen, displs, base) =>
      BoundsEnclose(base); SizeAndExtentPositive(base);
      IndexedBlockEncloses(blocklen, displs, base);
    case HIndexed(entries, base) =>
      BoundsEnclose(base); SizeAndExtentPositive(base);
      HIndexedEncloses(entries, base);
    case Struct(fields) =>
      FieldsEnclosed(fields);
      StructEncloses(fields);
  }

  /** A pack of n items reads only [lb, (n - 1) * extent + ub). */
  lemma PackReadsWithin(t: Datatype, n: int)
    requires Positive(t) && Plain(t) && n >= 1
    ensures Within(Copies(t, n), Lb(t), Ub(t) + Extent(t) * (n - 1))
  {
    BoundsEnclose(t);
    SizeAndExtentPositive(t);
    RepWithin(Map(t), Extent(t), n, Lb(t), Ub(t));
  }

  /** idxb(1:10)[double] starts at byte 80, but its lower bound is stored as 10. */
  lemma IndexedBlockBoundsCounterexample()
    ensures var t := IndexedBlock(1, [10], Primitive(DOUBLE));
      Positive(t) && Map(t) == [80, 81, 82, 83, 84, 85, 86, 87] && Lb(t) == 10 && Ub(t) == 88
  {
    var t := IndexedBlock(1, [10], Primitive(DOUBLE));
    assert Scaled([10], 8) == [80];
    assert ScaledEnds([10], 1, 8) == [88];
    assert MinFrom(10, [80][..0]) == 10 && MaxFrom(18, [88][..0]) == 18;
    RepOne(Map(Primitive(DOUBLE)), 8);
    assert BlocksMap([10][1..], 8, Copies(Primitive(DOUBLE), 1)) == [];
  }

  // ----- no byte twice -----

  ghost predicate Distinct(tm: seq<int>) {
    forall i, j :: 0 <= i < j < |tm| ==> tm[i] != tm[j]
  }

  lemma ConcatDistinct(a: seq<int>, b: seq<int>)
    requires Distinct(a) && Distinct(b)
    requires forall i, j :: 0 <= i < |a| && 0 <= j < |b| ==> a[i] != b[j]
    ensures Distinct(a + b)
  {
    var c := a + b;
    forall i, j | 0 <= i < j < |c| ensures c[i] != c[j] {
      if j < |a| {
      } else if i < |a| {
        assert c[i] == a[i] && c[j] == b[j - |a|];
      } else {
        assert c[i] == b[i - |a|] && c[j] == b[j - |a|];
      }
    }
  }

  ghost predicate AtLeast(tm: seq<int>, lo: int) {
    forall i :: 0 <= i < |tm| ==> lo <= tm[i]
  }

  /** Copies a full window apart share no byte. */
  lemma {:induction false} RepDistinct(tm: seq<int>, step: int, n: int, lo: int, hi: int)
    requires Distinct(tm) && Within(tm, lo, hi) && step >= hi - lo && step >= 0
    ensures Distinct(Rep(tm, step, n))
    ensures AtLeast(Rep(tm, step, n), lo)
  {
    if n > 0 {
      var rest := Rep(tm, step, n - 1);
      RepDistinct(tm, step, n - 1, lo, hi);
      assert Distinct(Shift(rest, step)) && AtLeast(Shift(rest, step), lo + step);
      ConcatDistinct(tm, Shift(rest, step));
    }
  }

  /** Vectors whose stride spans their blocks, and indexed and struct types whose blocks lie apart. */
  predicate NonOverlapping(t: Datatype)
    decreases t, 0
  {
    match t
    case Primitive(_) => true
    case Contiguous(_, base) => NonOverlapping(base)
    case Vector(_, blocklen, stride, base) => stride >= blocklen && NonOverlapping(base)
    case HVector(_, blocklen, stride, base) => stride >= blocklen * Extent(base) && NonOverlapping(base)
    case IndexedBlock(_, displs, base) =>
      NonOverlapping(base) && Lb(base) == 0 && BlocksApart(BlockFields(displs, Extent(base), t.blocklen, base))
    case HIndexed(entries, base) =>
      NonOverlapping(base) && Lb(base) == 0 && BlocksApart(EntryFields(entries, base))
    case Struct(fields) => FieldsNonOverlapping(fields) && BlocksApart(fields)
    case Resized(_, _, _) => false
  }

  predicate FieldsNonOverlapping(fields: seq<Field>)
    decreases fields, 0
  {
    if fields == [] then true
    else
      var f := fields[0];
      assert f.typ < f;
      NonOverlapping(f.typ) && FieldsNonOverlapping(fields[1..])
  }

  /** The byte ranges of the blocks are pairwise disjoint. */
  predicate BlocksApart(fields: seq<Field>) {
    forall i, j :: 0 <= i < j < |fields| ==>
      FieldEnd(fields[i]) <= fields[j].displ || FieldEnd(fields[j]) <= fields[i].displ
  }

  lemma {:induction false} FieldsDistinct(fields: seq<Field>)
    requires forall i :: 0 <= i < |fields| ==> Enclosed(fields[i]) && Distinct(Map(fields[i].typ))
    requires BlocksApart(fields)
    ensures Distinct(FieldsMap(fields))
  {
    if fields != [] {
      var f, rest := fields[0], fields[1..];
      FieldsDistinct(rest);
      var block := Shift(Copies(f.typ, f.blocklen), f.displ);
      RepDistinct(Map(f.typ), Extent(f.typ), f.blocklen, 0, Extent(f.typ));
      BlockWithin(f, f.displ, FieldEnd(f));
      forall i, j | 0 <= i < |block| && 0 <= j < |FieldsMap(rest)| ensures block[i] != FieldsMap(rest)[j] {
        FieldsAvoid(rest, block[i], f);
      }
      ConcatDistinct(block, FieldsMap(rest));
    }
  }

  /** A byte of a block is in no block that lies apart from it. */
  lemma {:induction false} FieldsAvoid(fields: seq<Field>, x: int, f: Field)
    requires forall i :: 0 <= i < |fields| ==> Enclosed(fields[i])
    requires f.displ <= x < FieldEnd(f)
    requires forall i :: 0 <= i < |fields| ==>
      FieldEnd(f) <= fields[i].displ || FieldEnd(fields[i]) <= f.displ
    ensures x !in FieldsMap(fields)
  {
    if fields != [] {
      BlockWithin(fields[0], fields[0].displ, FieldEnd(fields[0]));
      FieldsAvoid(fields[1..], x, f);
    }
  }

  /** Under NonOverlapping, any number of items touches every byte at most once. */
  lemma {:induction false} CopiesDistinct(t: Datatype, n: int)
    requires Positive(t) && Plain(t) && NonOverlapping(t)
    ensures Distinct(Copies(t, n))
    decreases t, 1
  {
    MapDistinct(t);
    BoundsEnclose(t);
    SizeAndExtentPositive(t);
    RepDistinct(Map(t), Extent(t), n, Lb(t), Ub(t));
  }

  lemma {:induction false} MapDistinct(t: Datatype)
    requires Positive(t) && Plain(t) && NonOverlapping(t)
    ensures Distinct(Map(t))
    decreases t, 0
  {
    if t.Struct? {
      FieldsEnclosed(t.fields);
      FieldMapsDistinct(t.fields);
      FieldsDistinct(t.fields);
    } else if !t.Primitive? {
      var base := t.base;
      CopiesDistinct(base, if t.Contiguous? then t.count else if t.HIndexed? then 1 else t.blocklen);
      MapDistinct(base);
      BoundsEnclose(base);
      SizeAndExtentPositive(base);
      match t
      case Contiguous(_, _) =>
      case Vector(count, blocklen, stride, _) =>
        ScaledComparison(Extent(base), blocklen, stride);
        StridedDistinct(base, blocklen, stride * Extent(base), count);
      case HVector(count, blocklen, stride, _) =>
        StridedDistinct(base, blocklen, stride, count);
      case IndexedBlock(blocklen, displs, _) =>
        BlockFieldsMap(displs, Extent(base), blocklen, base);
        FieldsDistinct(BlockFields(displs, Extent(base), blocklen, base));
      case HIndexed(entries, _) =>
        EntryFieldsMap(entries, base);
        FieldsDistinct(EntryFields(entries, base));
    }
  }

  lemma {:induction false} FieldMapsDistinct(fields: seq<Field>)
    requires PositiveFields(fields) && PlainFields(fields) && FieldsNonOverlapping(fields)
    ensures forall i :: 0 <= i < |fields| ==> Distinct(Map(fields[i].typ))
    decreases fields, 0
  {
    if fields != [] {
      var f := fields[0];
      assert f.typ < f;
      MapDistinct(f.typ);
      FieldMapsDistinct(fields[1..]);
      assert forall i :: 0 < i < |fields| ==> fields[i] == fields[1..][i - 1];
    }
  }

  lemma StridedDistinct(base: Datatype, blocklen: int, step: int, count: int)
    requires Distinct(Copies(base, blocklen)) && Within(Map(base), Lb(base), Ub(base))
    requires blocklen >= 1 && Extent(base) >= 0 && step >= blocklen * Extent(base) && step >= 0
    ensures Distinct(Rep(Copies(base, blocklen), step, count))
  {
    var e := Extent(base);
    RepWithin(Map(base), e, blocklen, Lb(base), Ub(base));
    assert Ub(base) + e * (blocklen - 1) - Lb(base) == blocklen * e;
    RepDistinct(Copies(base, blocklen), step, count, Lb(base), Ub(base) + e * (blocklen - 1));
  }
}
