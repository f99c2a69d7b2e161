/** MPI's typemap written out, offset by offset (MPI 3.0, sections 4.1.2 and 4.1.7): where byte j of item k of block i
    lies, for every constructor, in terms of the base's own offsets and extent. */
module MpiOffsets {
  import opened Arithmetic
  import opened Datatypes
  import opened Typemap
  import opened Wellformed
  import opened Bounds
  import opened Mpi
  import opened MpiBounds

  /** What each primitive type is, and what its constructor stores. */
  lemma PrimitiveOffsets()
    ensures MpiMap(Primitive(BYTE)) == [0] && MpiMap(Primitive(CHAR)) == [0]
    ensures MpiMap(Primitive(INT)) == [0, 1, 2, 3] && MpiMap(Primitive(FLOAT)) == [0, 1, 2, 3]
    ensures MpiMap(Primitive(DOUBLE)) == [0, 1, 2, 3, 4, 5, 6, 7]
    ensures Size(Primitive(BYTE)) == 1 && Size(Primitive(CHAR)) == 1
    ensures Size(Primitive(INT)) == 4 && Size(Primitive(FLOAT)) == 4 && Size(Primitive(DOUBLE)) == 8
    ensures forall p :: MpiLb(Primitive(p)) == Lb(Primitive(p)) == 0
    ensures forall p :: MpiExtent(Primitive(p)) == Extent(Primitive(p)) == |MpiMap(Primitive(p))|
  {
    forall p ensures MpiLb(Primitive(p)) == 0 && MpiExtent(Primitive(p)) == |MpiMap(Primitive(p))| {
      LowsOfRun(PrimitiveSize(p));
    }
  }

  // ----- repeated items -----

  /** Item k of a contiguous type lies k extents on. */
  lemma ContiguousOffsets(t: Datatype, k: int, j: int)
    requires t.Contiguous? && 0 <= k < t.count && 0 <= j < |MpiMap(t.base)|
    ensures var n := |MpiMap(t.base)|;
      && |MpiMap(t)| == t.count * n && 0 <= k * n + j < t.count * n
      && MpiMap(t)[k * n + j] == MpiMap(t.base)[j] + k * MpiExtent(t.base)
  {
    RepAt(MpiMap(t.base), MpiExtent(t.base), t.count, k, j);
    RepLength(MpiMap(t.base), MpiExtent(t.base), t.count);
  }

  /** n items lie an extent apart. */
  lemma ItemOffsets(t: Datatype, n: int, k: int, j: int)
    requires 0 <= k < n && 0 <= j < |MpiMap(t)|
    ensures |MpiCopies(t, n)| == n * |MpiMap(t)| && 0 <= k * |MpiMap(t)| + j < n * |MpiMap(t)|
    ensures MpiCopies(t, n)[k * |MpiMap(t)| + j] == MpiMap(t)[j] + k * MpiExtent(t)
  {
    RepAt(MpiMap(t), MpiExtent(t), n, k, j);
    RepLength(MpiMap(t), MpiExtent(t), n);
  }

  lemma NestedAt(tm: seq<int>, e: int, blocklen: int, pitch: int, count: int, i: int, k: int, j: int)
    requires 0 <= i < count && 0 <= k < blocklen && 0 <= j < |tm|
    ensures var r, at := Rep(Rep(tm, e, blocklen), pitch, count), i * (blocklen * |tm|) + (k * |tm| + j);
      |r| == count * (blocklen * |tm|) && 0 <= at < |r| && r[at] == tm[j] + k * e + i * pitch
  {
    hide Rep;
    RepAt(tm, e, blocklen, k, j);
    RepLength(tm, e, blocklen);
    RepAt(Rep(tm, e, blocklen), pitch, count, i, k * |tm| + j);
    RepLength(Rep(tm, e, blocklen), pitch, count);
  }

  lemma VectorBytes(t: Datatype)
    requires t.Vector? || t.HVector?
    ensures MpiMap(t) == Rep(Rep(MpiMap(t.base), MpiExtent(t.base), t.blocklen),
                             if t.Vector? then t.stride * MpiExtent(t.base) else t.stride, t.count)
  {
    hide Rep, Low, High;
  }

  /** Item k of block i of a vector lies i strides and k items on: the stride counts extents, for an hvector bytes. */
  lemma VectorOffsets(t: Datatype, i: int, k: int, j: int)
    requires (t.Vector? || t.HVector?) && 0 <= i < t.count && 0 <= k < t.blocklen && 0 <= j < |MpiMap(t.base)|
    ensures var n, e := |MpiMap(t.base)|, MpiExtent(t.base);
      var at := i * (t.blocklen * n) + (k * n + j);
      && 0 <= at < |MpiMap(t)| == t.count * (t.blocklen * n)
      && MpiMap(t)[at] == MpiMap(t.base)[j] + k * e + i * (if t.Vector? then t.stride * e else t.stride)
  {
    hide Rep, Meaning, Span;
    VectorBytes(t);
    NestedAt(MpiMap(t.base), MpiExtent(t.base), t.blocklen,
             if t.Vector? then t.stride * MpiExtent(t.base) else t.stride, t.count, i, k, j);
  }

  // ----- placed blocks -----

  lemma BlockOffsets(m: Entries, blocklen: int, d: int, k: int, j: int)
    requires 0 <= k < blocklen && 0 <= j < |m.bytes|
    ensures |Block(m, blocklen, d).bytes| == blocklen * |m.bytes| && 0 <= k * |m.bytes| + j < blocklen * |m.bytes|
    ensures Block(m, blocklen, d).bytes[k * |m.bytes| + j] == m.bytes[j] + k * Span(m) + d
  {
    RepAt(m.bytes, Span(m), blocklen, k, j);
    RepLength(m.bytes, Span(m), blocklen);
  }

  lemma {:induction false} LaidLength(ms: seq<Entries>, len: int)
    requires forall i :: 0 <= i < |ms| ==> |ms[i].bytes| == len
    ensures |Laid(ms).bytes| == |ms| * len
  {
    if ms != [] {
      LaidLength(ms[1..], len);
      MulDistributes(|ms|, 1, len);
    }
  }

  lemma {:induction false} LaidAt(ms: seq<Entries>, len: int, i: int, x: int)
    requires (forall q :: 0 <= q < |ms| ==> |ms[q].bytes| == len) && 0 <= i < |ms| && 0 <= x < len
    ensures 0 <= i * len + x < |Laid(ms).bytes| && Laid(ms).bytes[i * len + x] == ms[i].bytes[x]
    decreases |ms|
  {
    LaidLength(ms, len);
    LaidLength(ms[1..], len);
    MulNonNegative(i, len);
    MulNonNegative(|ms| - 1 - i, len);
    MulDistributes(|ms|, i + 1, len);
    MulDistributes(i, -1, len);
    if i > 0 {
      LaidAt(ms[1..], len, i - 1, x);
      MulDistributes(i, 1, len);
      MulNonNegative(i - 1, len);
    }
  }

  /** Item k of block i of an indexed block lies displs[i] extents and k items on. */
  lemma IndexedBlockOffsets(t: Datatype, i: int, k: int, j: int)
    requires t.IndexedBlock? && 0 <= i < |t.displs| && 0 <= k < t.blocklen && 0 <= j < |MpiMap(t.base)|
    ensures var n, e := |MpiMap(t.base)|, MpiExtent(t.base);
      var at := i * (t.blocklen * n) + (k * n + j);
      && 0 <= at < |MpiMap(t)| == |t.displs| * (t.blocklen * n)
      && MpiMap(t)[at] == MpiMap(t.base)[j] + k * e + t.displs[i] * e
  {
    hide Rep, Laid, Block, Low, High;
    var m := Meaning(t.base);
    var ms := IndexedBlocks(t.displs, t.blocklen, m);
    var len := t.blocklen * |m.bytes|;
    forall q | 0 <= q < |ms| ensures |ms[q].bytes| == len {
      BlockOffsets(m, t.blocklen, t.displs[q] * Span(m), k, j);
    }
    BlockOffsets(m, t.blocklen, t.displs[i] * Span(m), k, j);
    LaidAt(ms, len, i, k * |m.bytes| + j);
    LaidLength(ms, len);
  }

  lemma {:induction false} LaidOneMore(ms: seq<Entries>, m: Entries)
    ensures Laid(ms + [m]) == Joined(Laid(ms), m)
  {
    if ms == [] {
      assert ms + [m] == [m] && [m][1..] == [];
    } else {
      assert (ms + [m])[1..] == ms[1..] + [m];
      LaidOneMore(ms[1..], m);
    }
  }

  /** A last entry adds its items, from its displacement on; what is before them stays. */
  lemma HIndexedOffsets(entries: seq<Entry>, e: Entry, base: Datatype, k: int, j: int)
    requires 0 <= k < e.blocklen && 0 <= j < |MpiMap(base)|
    ensures var before, after := MpiMap(HIndexed(entries, base)), MpiMap(HIndexed(entries + [e], base));
      var n := |MpiMap(base)|;
      && before <= after && |after| == |before| + e.blocklen * n && 0 <= k * n + j < e.blocklen * n
      && after[|before| + (k * n + j)] == MpiMap(base)[j] + k * MpiExtent(base) + e.displ
  {
    hide Rep, Laid, Block, Low, High;
    var m := Meaning(base);
    assert EntryBlocks(entries + [e], m) == EntryBlocks(entries, m) + [Block(m, e.blocklen, e.displ)];
    LaidOneMore(EntryBlocks(entries, m), Block(m, e.blocklen, e.displ));
    BlockOffsets(m, e.blocklen, e.displ, k, j);
  }

  lemma {:induction false} FieldBlocksOneMore(fields: seq<Field>, f: Field)
    ensures FieldBlocks(fields + [f]) == FieldBlocks(fields) + [Block(Meaning(f.typ), f.blocklen, f.displ)]
    decreases |fields|
  {
    hide Block, Meaning;
    if fields == [] {
      assert fields + [f] == [f] && FieldBlocks([f][1..]) == [];
    } else {
      assert (fields + [f])[1..] == fields[1..] + [f];
      FieldBlocksOneMore(fields[1..], f);
    }
  }

  /** A last field adds its items, of its own type, from its displacement on. */
  lemma StructOffsets(fields: seq<Field>, f: Field, k: int, j: int)
    requires 0 <= k < f.blocklen && 0 <= j < |MpiMap(f.typ)|
    ensures var before, after := MpiMap(Struct(fields)), MpiMap(Struct(fields + [f]));
      var n := |MpiMap(f.typ)|;
      && before <= after && |after| == |before| + f.blocklen * n && 0 <= k * n + j < f.blocklen * n
      && after[|before| + (k * n + j)] == MpiMap(f.typ)[j] + k * MpiExtent(f.typ) + f.displ
  {
    hide Rep, Laid, Block, Low, High;
    var m := Meaning(f.typ);
    FieldBlocksOneMore(fields, f);
    LaidOneMore(FieldBlocks(fields), Block(m, f.blocklen, f.displ));
    BlockOffsets(m, f.blocklen, f.displ, k, j);
  }

  /** Nothing is laid out by types of no blocks, or by blocks of no items. */
  lemma EmptyOffsets(entries: seq<Entry>, fields: seq<Field>, d: int, u: Datatype)
    ensures MpiMap(HIndexed([], u)) == [] && MpiMap(Struct([])) == []
    ensures MpiMap(HIndexed(entries + [Entry(d, 0)], u)) == MpiMap(HIndexed(entries, u))
    ensures MpiMap(Struct(fields + [Field(d, 0, u)])) == MpiMap(Struct(fields))
  {
    hide Laid, Low, High;
    var m := Meaning(u);
    assert EntryBlocks(entries + [Entry(d, 0)], m) == EntryBlocks(entries, m) + [Block(m, 0, d)];
    LaidOneMore(EntryBlocks(entries, m), Block(m, 0, d));
    FieldBlocksOneMore(fields, Field(d, 0, u));
    LaidOneMore(FieldBlocks(fields), Block(m, 0, d));
    assert Block(m, 0, d).bytes == [];
    NoBlocks(m);
  }

  lemma NoBlocks(m: Entries)
    ensures Laid([]) == NOTHING && EntryBlocks([], m) == [] && FieldBlocks([]) == []
  {}

  /** Resizing moves no byte; it sets the bounds. */
  lemma ResizedOffsets(lb: int, extent: int, base: Datatype)
    ensures MpiMap(Resized(lb, extent, base)) == MpiMap(base)
    ensures MpiLb(Resized(lb, extent, base)) == lb && MpiExtent(Resized(lb, extent, base)) == extent
  {
    LeastIs([lb], lb);
    GreatestIs([lb + extent], lb + extent);
  }
}
