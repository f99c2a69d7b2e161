/** The typemap computed from stored extents against MPI's, for whole trees and any number of items. */
module MpiTrees {
  import opened Arithmetic
  import opened Datatypes
  import opened Typemap
  import opened Wellformed
  import opened Bounds
  import opened Mpi
  import opened MpiBounds

  /** The node conditions under which the stored extent is MPI's. */
  ghost predicate ExtentOk(t: Datatype)
    decreases t
  {
    match t
    case Primitive(_) => true
    case IndexedBlock(_, displs, base) => ExtentOk(base) && |displs| >= 1 && IndexedBlockBoundsOk(displs, Extent(base))
    case HIndexed(entries, base) => ExtentOk(base) && HIndexedBoundsOk(entries, Extent(base))
    case Struct(fields) => FieldsReach(fields, StructLb(fields), StructUb(fields))
    case Resized(_, _, _) => true
    case _ => ExtentOk(t.base)
  }

  /** And those under which one item is: the extent of a base matters where it is repeated. */
  ghost predicate MapOk(t: Datatype)
    decreases t, 0
  {
    match t
    case Primitive(_) => true
    case Contiguous(count, base) => MapOk(base) && (count == 1 || ExtentOk(base))
    case Vector(count, blocklen, _, base) => MapOk(base) && (ExtentOk(base) || (blocklen == 1 && count == 1))
    case HVector(_, blocklen, _, base) => MapOk(base) && (ExtentOk(base) || blocklen == 1)
    case IndexedBlock(blocklen, displs, base) =>
      MapOk(base) && (ExtentOk(base) || (blocklen == 1 && forall d <- displs :: d == 0))
    case HIndexed(entries, base) => MapOk(base) && (ExtentOk(base) || forall x <- entries :: x.blocklen <= 1)
    case Struct(fields) => FieldsMapOk(fields)
    case Resized(_, _, base) => MapOk(base)
  }

  ghost predicate FieldsMapOk(fields: seq<Field>)
    decreases fields, 0
  {
    if fields == [] then true
    else
      var f := fields[0];
      assert f.typ < f;
      && (f.blocklen == 0 || (MapOk(f.typ) && (f.blocklen == 1 || ExtentOk(f.typ))))
      && FieldsMapOk(fields[1..])
  }

  /** n items are as MPI says. */
  ghost predicate MpiMet(t: Datatype, n: int) { MapOk(t) && (n <= 1 || ExtentOk(t)) }

  lemma {:induction false} ExtentOkIsRight(t: Datatype)
    requires Positive(t) && ExtentOk(t)
    ensures ExtentRight(t)
    decreases t
  {
    hide Meaning, Extent, Lb, Ub, MpiExtent, MpiLb, MpiUb, FieldsReach, HIndexedBoundsOk, IndexedBlockBoundsOk;
    match t
    case Primitive(p) => PrimitiveRight(t);
    case Contiguous(_, base) => ExtentOkIsRight(base); ContiguousExtentExact(t);
    case Vector(_, _, _, base) => ExtentOkIsRight(base); VectorExtentExact(t);
    case HVector(_, _, _, base) => ExtentOkIsRight(base); VectorExtentExact(t);
    case IndexedBlock(_, _, base) => ExtentOkIsRight(base); IndexedBlockExact(t);
    case HIndexed(_, base) => ExtentOkIsRight(base); HIndexedExact(t);
    case Struct(_) => StructExact(t); RightBounds(t);
    case Resized(_, _, _) => ResizedExact(t);
  }

  lemma RightBounds(t: Datatype)
    requires BoundsRight(t)
    ensures ExtentRight(t)
  {}

  lemma PrimitiveRight(t: Datatype)
    requires t.Primitive?
    ensures MapRight(t) && ExtentRight(t) && BoundsRight(t)
  {
    LowsOfRun(PrimitiveSize(t.prim));
  }

  /** THE TYPEMAP IS MPI'S for every tree whose nodes meet their conditions. */
  lemma {:induction false} MapOkIsRight(t: Datatype)
    requires Positive(t) && MapOk(t)
    ensures MapRight(t)
    decreases t, 0
  {
    hide MapRight, ExtentRight, ExtentOk;
    match t
    case Primitive(p) => PrimitiveRight(t);
    case Contiguous(_, base) => BaseRight(base); ContiguousMapExact(t);
    case Vector(_, _, _, base) => BaseRight(base); VectorMapExact(t);
    case HVector(_, _, _, base) => BaseRight(base); VectorMapExact(t);
    case IndexedBlock(_, _, base) => BaseRight(base); IndexedBlockMapExact(t);
    case HIndexed(_, base) => BaseRight(base); HIndexedMapExact(t);
    case Struct(fields) => FieldsOkAreRight(fields); StructMapExact(t);
    case Resized(_, _, base) => BaseRight(base); ResizedExact(t);
  }

  lemma {:induction false} BaseRight(t: Datatype)
    requires Positive(t) && MapOk(t)
    ensures MapRight(t) && (ExtentOk(t) ==> ExtentRight(t))
    decreases t, 1
  {
    hide MapRight, ExtentRight, ExtentOk;
    MapOkIsRight(t);
    if ExtentOk(t) { ExtentOkIsRight(t); }
  }

  lemma {:induction false} FieldsOkAreRight(fields: seq<Field>)
    requires PositiveFields(fields) && FieldsMapOk(fields)
    ensures forall i :: 0 <= i < |fields| && fields[i].blocklen >= 1 ==> MapRight(fields[i].typ)
    ensures forall i :: 0 <= i < |fields| ==> fields[i].blocklen <= 1 || ExtentRight(fields[i].typ)
    decreases fields, 0
  {
    hide MapRight, ExtentRight, ExtentOk;
    if fields != [] {
      var f := fields[0];
      assert f.typ < f;
      if f.blocklen >= 1 { BaseRight(f.typ); }
      FieldsOkAreRight(fields[1..]);
      assert forall i :: 0 < i < |fields| ==> fields[i] == fields[1..][i - 1];
    }
  }

  lemma MpiMetIsRight(t: Datatype, n: int)
    requires Positive(t) && MpiMet(t, n) && n >= 0
    ensures Copies(t, n) == MpiCopies(t, n)
  {
    hide MapOk, ExtentOk, Positive;
    MapOkIsRight(t);
    if n >= 2 { ExtentOkIsRight(t); }
    if n == 0 { NoItems(t); } else { ItemsExact(t, n); }
  }

  lemma NoItems(t: Datatype)
    ensures Copies(t, 0) == [] == MpiCopies(t, 0)
  {}

  /** Without indexed and struct nodes every condition holds. */
  predicate Unindexed(t: Datatype)
    decreases t
  {
    match t
    case Primitive(_) => true
    case IndexedBlock(_, _, _) => false
    case HIndexed(_, _) => false
    case Struct(_) => false
    case _ => Unindexed(t.base)
  }

  lemma {:induction false} UnindexedIsMet(t: Datatype, n: int)
    requires Unindexed(t)
    ensures MpiMet(t, n) && ExtentOk(t)
    decreases t
  {
    if !t.Primitive? { UnindexedIsMet(t.base, n); }
  }

  /** The condition of one indexed node is exact: over a base of the right typemap and extent, n items are MPI's
      if and only if there is one item or the node's stored bounds meet it. */
  lemma IndexedNodesExact(t: Datatype, n: int)
    requires (t.IndexedBlock? || t.HIndexed?) && Positive(t) && MapRight(t.base) && ExtentRight(t.base) && n >= 1
    ensures Copies(t, n) == MpiCopies(t, n) <==>
      n == 1 || (if t.IndexedBlock? then IndexedBlockBoundsOk(t.displs, Extent(t.base))
                 else HIndexedBoundsOk(t.entries, Extent(t.base)))
  {
    hide Copies, MpiCopies, MapRight, ExtentRight, IndexedBlockBoundsOk, HIndexedBoundsOk;
    if t.IndexedBlock? {
      IndexedBlockExact(t);
      IndexedBlockMapExact(t);
    } else {
      HIndexedExact(t);
      HIndexedMapExact(t);
    }
    ItemsExact(t, n);
  }

  lemma StructNodeExact(t: Datatype, n: int)
    requires t.Struct? && Positive(t) && n >= 1
    requires forall i :: 0 <= i < |t.fields| ==> MapRight(t.fields[i].typ) && ExtentRight(t.fields[i].typ)
    ensures Copies(t, n) == MpiCopies(t, n) <==> n == 1 || ExtentRight(t)
    ensures BoundsRight(t) ==> ExtentRight(t)
  {
    hide Copies, MpiCopies, MapRight, ExtentRight, BoundsRight;
    StructMapExact(t);
    ItemsExact(t, n);
    if BoundsRight(t) { RightBounds(t); }
  }

  /** idxb(1:10)[double] is stored with extent 78; MPI's is 8. */
  lemma IndexedBlockCounterexample()
    ensures var t := IndexedBlock(1, [10], Primitive(DOUBLE));
      && Positive(t) && MapRight(t) && Lb(t) == 10 && Extent(t) == 78 && MpiLb(t) == 80 && MpiExtent(t) == 8
      && |Copies(t, 2)| == |MpiCopies(t, 2)| == 16 && Copies(t, 2)[8] == 158 && MpiCopies(t, 2)[8] == 88
  {
    hide Rep, Meaning, Map;
    var base := Primitive(DOUBLE);
    var t := IndexedBlock(1, [10], base);
    PrimitiveRight(base);
    IndexedBlockMapExact(t);
    IndexedBlockBoundsCounterexample();
    IndexedBlockMpi(t);
    assert Scaled([10], 8) == [80];
    LeastIs([80], 80);
    GreatestIs([80], 80);
    RepAt(Map(t), 78, 2, 1, 0); RepAt(Map(t), 8, 2, 1, 0);
    RepLength(Map(t), 78, 2); RepLength(Map(t), 8, 2);
  }

  /** A struct of one double at displacement 8 is stored with extent 16; MPI's is 8. */
  lemma StructCounterexample()
    ensures var t := Struct([Field(8, 1, Primitive(DOUBLE))]);
      && Positive(t) && MapRight(t) && Extent(t) == 16 && MpiExtent(t) == 8
      && |Copies(t, 2)| == |MpiCopies(t, 2)| == 16 && Copies(t, 2)[8] == 24 && MpiCopies(t, 2)[8] == 16
  {
    hide Rep, Meaning, Map, PositiveFields, FieldsMap, StructLb, StructUb, MpiLb, MpiExtent, MpiUb, FieldCounts;
    var f := Field(8, 1, Primitive(DOUBLE));
    var t := Struct([f]);
    OneField(f);
    PrimitiveRight(f.typ);
    StructMapExact(t);
    StructMpi(t, 8, 16);
    StructExtent(t);
    RepAt(Map(t), 16, 2, 1, 0); RepAt(Map(t), 8, 2, 1, 0);
    RepLength(Map(t), 16, 2); RepLength(Map(t), 8, 2);
  }

  lemma OneField(f: Field)
    requires f == Field(8, 1, Primitive(DOUBLE))
    ensures Positive(Struct([f])) && Map(Struct([f])) == [8, 9, 10, 11, 12, 13, 14, 15]
    ensures StructLb([f]) == 0 && StructUb([f]) == 16
    ensures FieldCounts([f], 0) && FieldStart(f) == 8 && FieldFinish(f) == 16
  {
    hide Meaning, Low, High;
    var rest := [f][1..];
    assert rest == [] && [f][..0] == [] && f in [f];
    PrimitiveRight(f.typ);
    assert Map(f.typ) == [0, 1, 2, 3, 4, 5, 6, 7];
    RepOne(Map(f.typ), 8);
    assert FieldsMap(rest) == [] && PositiveFields(rest) && !MarkedFields(rest);
    assert StructLb([f][..0]) == 0 && StructUb([f][..0]) == 0;
    var t := Struct([f]);
    assert PositiveFields([f]) && t.fields[0] == f && f in t.fields && f.blocklen >= 1;
    assert Positive(t);
    assert Map(t) == FieldsMap([f]) == Shift(Copies(f.typ, 1), 8) + FieldsMap(rest);
    assert Copies(f.typ, 1) == [0, 1, 2, 3, 4, 5, 6, 7];
  }

  // ----- bytes and bounds -----

  /** Without markers, the bounds are the least offset and the greatest plus one. */
  lemma UnmarkedBounds(t: Datatype)
    requires Positive(t) && !Marked(t)
    ensures IsBounds(MpiMap(t), MpiLb(t), MpiUb(t))
  {
    hide Low, High, Least, Greatest, Meaning, Marked;
    var m := Meaning(t);
    MarksAre(t);
    MpiSpans(t);
    LowOf(m);
    assert IsLeast(m.bytes, Low(m)) && IsGreatest(Shift(m.bytes, 1), High(m));
    ShiftMember(m.bytes, 1, High(m));
    forall i | 0 <= i < |m.bytes| ensures Low(m) <= m.bytes[i] < High(m) {
      assert m.bytes[i] in m.bytes;
      ShiftMember(m.bytes, 1, m.bytes[i] + 1);
    }
  }

  /** n items lie in MPI's window. */
  lemma MpiReadsWithin(t: Datatype, n: int)
    requires Positive(t) && !Marked(t) && n >= 1
    ensures Within(MpiCopies(t, n), MpiLb(t), MpiUb(t) + MpiExtent(t) * (n - 1))
  {
    hide Low, High, Meaning, Marked, Rep, Within;
    UnmarkedBounds(t);
    MpiSpans(t);
    RepIsBounds(MpiMap(t), MpiExtent(t), n, MpiLb(t), MpiUb(t));
    BoundsAreWithin(MpiCopies(t, n), MpiLb(t), MpiUb(t) + MpiExtent(t) * (n - 1));
  }

  lemma BoundsAreWithin(tm: seq<int>, lo: int, hi: int)
    requires IsBounds(tm, lo, hi)
    ensures Within(tm, lo, hi)
  {}
}
