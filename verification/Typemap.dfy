/** The meaning of a datatype: its typemap (MPI 3.0, section 4.1), here the sequence of byte offsets
    in pack order.  It is the specification of packing, of compression and of the bounds. */
module Typemap {
  import opened Arithmetic
  import opened Datatypes

  function Shift(tm: seq<int>, d: int): seq<int> {
    seq(|tm|, i requires 0 <= i < |tm| => tm[i] + d)
  }

  /** n copies of tm, each one `step` bytes after the previous one. */
  function Rep(tm: seq<int>, step: int, n: int): seq<int>
    decreases n
  {
    if n <= 0 then [] else tm + Shift(Rep(tm, step, n - 1), step)
  }

  function Map(t: Datatype): seq<int>
    decreases t, 0
  {
    match t
    case Primitive(p) => seq(PrimitiveSize(p), i => i)
    case Contiguous(count, base) => Copies(base, count)
    case Vector(count, blocklen, stride, base) =>
      Rep(Copies(base, blocklen), stride * Extent(base), count)
    case HVector(count, blocklen, stride, base) => Rep(Copies(base, blocklen), stride, count)
    case IndexedBlock(blocklen, displs, base) =>
      BlocksMap(displs, Extent(base), Copies(base, blocklen))
    case HIndexed(entries, base) => EntriesMap(entries, Map(base), Extent(base))
    case Struct(fields) => FieldsMap(fields)
    case Resized(_, _, base) => Map(base)
  }

  /** The typemap of `n` consecutive items of type t: what a pack of n items touches. */
  function Copies(t: Datatype, n: int): seq<int>
    decreases t, 1
  {
    Rep(Map(t), Extent(t), n)
  }

  function BlocksMap(displs: seq<int>, scale: int, block: seq<int>): seq<int>
  {
    if displs == [] then []
    else Shift(block, displs[0] * scale) + BlocksMap(displs[1..], scale, block)
  }

  function EntriesMap(entries: seq<Entry>, tm: seq<int>, extent: int): seq<int>
  {
    if entries == [] then []
    else
      Shift(Rep(tm, extent, entries[0].blocklen), entries[0].displ)
      + EntriesMap(entries[1..], tm, extent)
  }

  function FieldsMap(fields: seq<Field>): seq<int>
    decreases fields, 0
  {
    if fields == [] then []
    else
      var f := fields[0];
      assert f.typ < f;
      Shift(Copies(f.typ, f.blocklen), f.displ) + FieldsMap(fields[1..])
  }

  // ----- algebra of Shift and Rep -----

  lemma ShiftZero(tm: seq<int>)
    ensures Shift(tm, 0) == tm
  {}

  lemma ShiftShift(tm: seq<int>, d: int, e: int)
    ensures Shift(Shift(tm, d), e) == Shift(tm, d + e)
  {}

  lemma ShiftConcat(a: seq<int>, b: seq<int>, d: int)
    ensures Shift(a + b, d) == Shift(a, d) + Shift(b, d)
  {}

  lemma {:induction false} RepLength(tm: seq<int>, step: int, n: int)
    requires 0 <= n
    ensures |Rep(tm, step, n)| == n * |tm|
  {
    if n > 0 { RepLength(tm, step, n - 1); MulDistributes(n, 1, |tm|); }
  }

  lemma RepOne(tm: seq<int>, step: int)
    ensures Rep(tm, step, 1) == tm
  {
    assert Rep(tm, step, 0) == [];
  }

  lemma {:induction false} RepSplit(tm: seq<int>, step: int, m: int, n: int)
    requires 0 <= m && 0 <= n
    ensures Rep(tm, step, m + n) == Rep(tm, step, m) + Shift(Rep(tm, step, n), m * step)
  {
    if m == 0 {
      ShiftZero(Rep(tm, step, n));
    } else {
      RepSplit(tm, step, m - 1, n);
      var x, y := Rep(tm, step, m - 1), Rep(tm, step, n);
      ShiftConcat(x, Shift(y, (m - 1) * step), step);
      ShiftShift(y, (m - 1) * step, step);
      MulDistributes(m, 1, step);
    }
  }

  /** Repeating a block of m copies n times, at the block's own pitch, is n * m copies. */
  lemma {:induction false} RepRep(tm: seq<int>, step: int, m: int, n: int)
    requires 0 <= m && 0 <= n
    ensures Rep(Rep(tm, step, m), m * step, n) == Rep(tm, step, n * m)
  {
    if n > 0 {
      RepRep(tm, step, m, n - 1);
      MulDistributes(n, 1, m);
      MulNonNegative(n - 1, m);
      RepSplit(tm, step, m, (n - 1) * m);
    }
  }

  /** Element k * |tm| + j of n copies is element j of the kth copy. */
  lemma {:induction false} RepAt(tm: seq<int>, step: int, n: int, k: int, j: int)
    requires 0 <= k < n && 0 <= j < |tm|
    ensures 0 <= k * |tm| + j < |Rep(tm, step, n)|
    ensures Rep(tm, step, n)[k * |tm| + j] == tm[j] + k * step
  {
    RepLength(tm, step, n - 1);
    if k > 0 {
      RepAt(tm, step, n - 1, k - 1, j);
      MulDistributes(k, 1, |tm|);
      MulDistributes(k, 1, step);
    }
  }

  /** Every element of n copies is an element of tm in some copy. */
  lemma {:induction false} RepMember(tm: seq<int>, step: int, n: int, x: int) returns (k: int, j: int)
    requires x in Rep(tm, step, n)
    ensures 0 <= k < n && 0 <= j < |tm| && x == tm[j] + k * step
  {
    if x in tm {
      k := 0;
      j :| 0 <= j < |tm| && tm[j] == x;
    } else {
      assert x - step in Rep(tm, step, n - 1);
      k, j := RepMember(tm, step, n - 1, x - step);
      k := k + 1;
    }
  }

  // ----- indexed types as lists of fields -----

  /** The blocks of an indexed-block type as struct fields, displacements scaled by `scale`. */
  function BlockFields(displs: seq<int>, scale: int, blocklen: int, base: Datatype): seq<Field> {
    seq(|displs|, i requires 0 <= i < |displs| => Field(displs[i] * scale, blocklen, base))
  }

  function EntryFields(entries: seq<Entry>, base: Datatype): seq<Field> {
    seq(|entries|, i requires 0 <= i < |entries| => Field(entries[i].displ, entries[i].blocklen, base))
  }

  lemma {:induction false} BlockFieldsMap(displs: seq<int>, scale: int, blocklen: int, base: Datatype)
    ensures FieldsMap(BlockFields(displs, scale, blocklen, base))
         == BlocksMap(displs, scale, Copies(base, blocklen))
  {
    if displs != [] {
      BlockFieldsMap(displs[1..], scale, blocklen, base);
      assert BlockFields(displs, scale, blocklen, base)[1..] == BlockFields(displs[1..], scale, blocklen, base);
    }
  }

  lemma {:induction false} EntryFieldsMap(entries: seq<Entry>, base: Datatype)
    ensures FieldsMap(EntryFields(entries, base)) == EntriesMap(entries, Map(base), Extent(base))
  {
    if entries != [] {
      EntryFieldsMap(entries[1..], base);
      assert EntryFields(entries, base)[1..] == EntryFields(entries[1..], base);
    }
  }
}
