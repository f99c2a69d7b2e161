/** What the compiler demands of the trees it is given.  The emitted loops test at the bottom, so
    every count and block length that reaches a loop is at least one; strides and resized extents
    are positive; and every C++ `int` the constructors compute fits in 32 bits. */
module Wellformed {
  import opened Arithmetic
  import opened Datatypes
  import opened Typemap

  const INT32_MAX: int := 0x7fff_ffff

  predicate Int32(x: int) { -0x8000_0000 <= x <= INT32_MAX }

  /** n items of type t can be handed to t's code: only a primitive copies zero items. */
  predicate CountOk(t: Datatype, n: int) { n >= 1 || (n == 0 && t.Primitive?) }

  predicate Positive(t: Datatype)
    decreases t, 0
  {
    match t
    case Primitive(_) => true
    case Contiguous(count, base) => count >= 1 && Positive(base)
    case Vector(count, blocklen, stride, base) =>
      count >= 1 && blocklen >= 1 && stride >= 1 && Positive(base)
    case HVector(count, blocklen, stride, base) =>
      count >= 1 && blocklen >= 1 && stride >= 1 && Positive(base)
    case IndexedBlock(blocklen, displs, base) => blocklen >= 1 && |displs| >= 1 && Positive(base)
    case HIndexed(entries, base) =>
      && Positive(base)
      && (forall e <- entries :: CountOk(base, e.blocklen))
      && (exists e <- entries :: e.blocklen >= 1)
    case Struct(fields) =>
      && PositiveFields(fields)
      && (exists f <- fields :: f.blocklen >= 1)
    case Resized(_, extent, base) => extent >= 1 && Positive(base)
  }

  predicate PositiveFields(fields: seq<Field>)
    decreases fields, 0
  {
    if fields == [] then true
    else
      var f := fields[0];
      assert f.typ < f;
      CountOk(f.typ, f.blocklen) && Positive(f.typ) && PositiveFields(fields[1..])
  }

  /** No C++ `int` overflows while the tree is built, compressed or compiled. */
  predicate Fits(t: Datatype)
    decreases t, 0
  {
    && Int32(Size(t)) && Int32(Lb(t)) && Int32(Ub(t)) && Int32(Extent(t))
    && match t
       case Primitive(_) => true
       case Contiguous(count, base) => Int32(count) && Fits(base)
       case Vector(count, blocklen, stride, base) =>
         && Int32(count) && Int32(blocklen) && Int32(stride) && Int32(stride * Extent(base))
         && Fits(base)
       case HVector(count, blocklen, stride, base) =>
         Int32(count) && Int32(blocklen) && Int32(stride) && Fits(base)
       case IndexedBlock(blocklen, displs, base) =>
         && Int32(blocklen) && Int32(|displs|) && Int32(blocklen * Size(base))
         && (forall d <- displs :: Int32(d) && Int32(d * Extent(base)))
         && Fits(base)
       case HIndexed(entries, base) =>
         Int32(|entries|) && (forall e <- entries :: Int32(e.blocklen)) && Fits(base)
       case Struct(fields) => Int32(|fields|) && FieldsFit(fields)
       case Resized(_, _, base) => Fits(base)
  }

  predicate FieldsFit(fields: seq<Field>)
    decreases fields, 0
  {
    if fields == [] then true
    else
      var f := fields[0];
      assert f.typ < f;
      Int32(f.blocklen) && Fits(f.typ) && FieldsFit(fields[1..])
  }

  /** Sizes and extents of well-formed trees are positive. */
  lemma {:induction false} SizeAndExtentPositive(t: Datatype)
    requires Positive(t)
    ensures Size(t) >= 1 && Extent(t) >= 1
    decreases t, 0
  {
    match t
    case Primitive(_) =>
    case Contiguous(count, base) =>
      SizeAndExtentPositive(base);
      MulPositive(count, Size(base));
      MulNonNegative(Extent(base), count - 1);
    case Vector(count, blocklen, stride, base) =>
      SizeAndExtentPositive(base);
      MulPositive(blocklen, Size(base));
      MulPositive(count, blocklen * Size(base));
      MulNonNegative(stride, count - 1);
      MulNonNegative(stride * (count - 1) + blocklen - 1, Extent(base));
    case HVector(count, blocklen, stride, base) =>
      SizeAndExtentPositive(base);
      MulPositive(blocklen, Size(base));
      MulPositive(count, blocklen * Size(base));
      MulNonNegative(stride, count - 1);
      MulNonNegative(blocklen - 1, Extent(base));
    case IndexedBlock(blocklen, displs, base) =>
      SizeAndExtentPositive(base);
      MulPositive(Size(base), |displs|);
      MulPositive(blocklen, Extent(base));
      BlockWithinBounds(displs, blocklen, Extent(base), 0);
    case HIndexed(entries, base) =>
      SizeAndExtentPositive(base);
      EntriesSizePositive(entries, Size(base));
      var i :| 0 <= i < |entries| && entries[i].blocklen >= 1;
      MulPositive(entries[i].blocklen, Extent(base));
      EntryWithinBounds(entries, Extent(base), i);
    case Struct(fields) =>
      FieldsSizePositive(fields);
      var i :| 0 <= i < |fields| && fields[i].blocklen >= 1;
      PositiveField(fields, i);
      SizeAndExtentPositive(fields[i].typ);
      MulPositive(fields[i].blocklen, Extent(fields[i].typ));
      FieldWithinBounds(fields, i);
    case Resized(_, _, base) => SizeAndExtentPositive(base);
  }

  lemma {:induction false} EntriesSizePositive(entries: seq<Entry>, size: int)
    requires size >= 1
    requires forall e <- entries :: e.blocklen >= 0
    ensures EntriesSize(entries, size) >= 0
    ensures (exists e <- entries :: e.blocklen >= 1) ==> EntriesSize(entries, size) >= 1
  {
    if entries != [] {
      MulNonNegative(entries[0].blocklen, size);
      EntriesSizePositive(entries[1..], size);
      if entries[0].blocklen >= 1 { MulPositive(entries[0].blocklen, size); }
    }
  }

  lemma {:induction false} FieldsSizePositive(fields: seq<Field>)
    requires PositiveFields(fields)
    ensures FieldsSize(fields) >= 0
    ensures (exists f <- fields :: f.blocklen >= 1) ==> FieldsSize(fields) >= 1
    decreases fields, 1
  {
    if fields != [] {
      var f := fields[0];
      assert f.typ < f;
      SizeAndExtentPositive(f.typ);
      MulNonNegative(f.blocklen, Size(f.typ));
      FieldsSizePositive(fields[1..]);
      if f.blocklen >= 1 { MulPositive(f.blocklen, Size(f.typ)); }
    }
  }

  lemma {:induction false} PositiveField(fields: seq<Field>, i: int)
    requires PositiveFields(fields) && 0 <= i < |fields|
    ensures Positive(fields[i].typ) && CountOk(fields[i].typ, fields[i].blocklen)
    ensures fields[i].typ < fields[i]
  {
    if i > 0 { PositiveField(fields[1..], i - 1); }
  }

  lemma EntryWithinBounds(entries: seq<Entry>, extent: int, i: int)
    requires 0 <= i < |entries|
    ensures HIndexedLb(entries) <= entries[i].displ
    ensures EntryEnd(entries[i], extent) <= HIndexedUb(entries, extent)
  {
    MinFromIsLeast(entries[0].displ, EntryDispls(entries));
    MaxFromIsGreatest(EntryEnd(entries[0], extent), EntryEnds(entries, extent));
    assert EntryDispls(entries)[i] in EntryDispls(entries);
    assert EntryEnds(entries, extent)[i] in EntryEnds(entries, extent);
  }

  lemma BlockWithinBounds(displs: seq<int>, blocklen: int, extent: int, i: int)
    requires 0 <= i < |displs|
    ensures IndexedBlockLb(displs, extent) <= displs[i] * extent
    ensures displs[i] * extent + blocklen * extent <= IndexedBlockUb(displs, blocklen, extent)
  {
    MinFromIsLeast(displs[0], Scaled(displs, extent));
    MaxFromIsGreatest(displs[0] + blocklen * extent, ScaledEnds(displs, blocklen, extent));
    assert Scaled(displs, extent)[i] in Scaled(displs, extent);
    assert ScaledEnds(displs, blocklen, extent)[i] in ScaledEnds(displs, blocklen, extent);
    MulDistributes(displs[i], blocklen, extent);
  }

  lemma {:induction false} FieldWithinBounds(fields: seq<Field>, i: int)
    requires 0 <= i < |fields|
    ensures StructLb(fields) <= fields[i].displ
    ensures FieldEnd(fields[i]) <= StructUb(fields)
  {
    if i < |fields| - 1 { FieldWithinBounds(fields[..|fields| - 1], i); }
  }
}
