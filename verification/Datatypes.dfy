/** The datatype tree of ddt_jit.cpp: one constructor per C++ class, and the size and bounds
    that each C++ constructor stores in its object.

    The fields of the C++ objects are written by their constructors only, so an object is a value
    here.  `int` is unbounded; `Fits` (module Wellformed) says when the C++ `int`s do not overflow. */
module Datatypes {
  datatype PrimitiveType = BYTE | CHAR | DOUBLE | FLOAT | INT

  /** One entry of an hindexed type: a byte displacement and a block length. */
  datatype Entry = Entry(displ: int, blocklen: int)

  /** One entry of a struct type. */
  datatype Field = Field(displ: int, blocklen: int, typ: Datatype)

  datatype Datatype =
    | Primitive(prim: PrimitiveType)
    | Contiguous(count: int, base: Datatype)
    | Vector(count: int, blocklen: int, stride: int, base: Datatype)
    | HVector(count: int, blocklen: int, stride: int, base: Datatype)
    | IndexedBlock(blocklen: int, displs: seq<int>, base: Datatype)
    | HIndexed(entries: seq<Entry>, base: Datatype)
    | Struct(fields: seq<Field>)
    | Resized(lb: int, extent: int, base: Datatype)

  function Min(a: int, b: int): int { if a <= b then a else b }

  function Max(a: int, b: int): int { if a >= b then a else b }

  function PrimitiveSize(p: PrimitiveType): (size: int)
    ensures size == 1 || size == 4 || size == 8
  {
    match p
    case BYTE => 1
    case CHAR => 1
    case DOUBLE => 8
    case FLOAT => 4
    case INT => 4
  }

  // ----- size -----

  function Size(t: Datatype): int
    decreases t, 0
  {
    match t
    case Primitive(p) => PrimitiveSize(p)
    case Contiguous(count, base) => count * Size(base)
    case Vector(count, blocklen, _, base) => count * (blocklen * Size(base))
    case HVector(count, blocklen, _, base) => count * (blocklen * Size(base))
    case IndexedBlock(_, displs, base) => Size(base) * |displs|
    case HIndexed(entries, base) => EntriesSize(entries, Size(base))
    case Struct(fields) => FieldsSize(fields)
    case Resized(_, _, base) => Size(base)
  }

  function EntriesSize(entries: seq<Entry>, baseSize: int): int
  {
    if entries == [] then 0
    else entries[0].blocklen * baseSize + EntriesSize(entries[1..], baseSize)
  }

  function FieldsSize(fields: seq<Field>): int
    decreases fields
  {
    if fields == [] then 0
    else
      var f := fields[0];
      assert f.typ < f;
      f.blocklen * Size(f.typ) + FieldsSize(fields[1..])
  }

  // ----- bounds -----

  function Lb(t: Datatype): int
    decreases t, 0
  {
    match t
    case Primitive(_) => 0
    case Contiguous(_, base) => Lb(base)
    case Vector(count, blocklen, stride, base) =>
      if stride > 0 then Lb(base)
      else Ub(base) + (stride * (count - 1) + blocklen - 1) * Extent(base)
    case HVector(count, blocklen, stride, base) =>
      if count == 0 then 0
      else if stride > 0 then Lb(base)
      else Ub(base) + (stride * (count - 1) + blocklen - 1) * Extent(base)
    case IndexedBlock(_, displs, base) => IndexedBlockLb(displs, Extent(base))
    case HIndexed(entries, base) => HIndexedLb(entries)
    case Struct(fields) => StructLb(fields)
    case Resized(lb, _, _) => lb
  }

  function Ub(t: Datatype): int
    decreases t, 0
  {
    match t
    case Primitive(p) => PrimitiveSize(p)
    case Contiguous(count, base) => (Lb(base) + Extent(base)) + Extent(base) * (count - 1)
    case Vector(count, blocklen, stride, base) =>
      if stride > 0 then Ub(base) + (stride * (count - 1) + blocklen - 1) * Extent(base)
      else blocklen * Extent(base)
    case HVector(count, blocklen, stride, base) =>
      if count == 0 then 0
      else if stride > 0 then Ub(base) + stride * (count - 1) + (blocklen - 1) * Extent(base)
      else blocklen * Extent(base)
    case IndexedBlock(blocklen, displs, base) => IndexedBlockUb(displs, blocklen, Extent(base))
    case HIndexed(entries, base) => HIndexedUb(entries, Extent(base))
    case Struct(fields) => StructUb(fields)
    case Resized(lb, extent, _) => lb + extent
  }

  /** getExtent() of every class. */
  function Extent(t: Datatype): int
    decreases t, 1
  {
    Ub(t) - Lb(t)
  }

  /** The running minimum and maximum of the constructor loops. */
  function MinFrom(init: int, xs: seq<int>): int
  {
    if xs == [] then init else Min(MinFrom(init, xs[..|xs| - 1]), xs[|xs| - 1])
  }

  function MaxFrom(init: int, xs: seq<int>): int
  {
    if xs == [] then init else Max(MaxFrom(init, xs[..|xs| - 1]), xs[|xs| - 1])
  }

  function Scaled(xs: seq<int>, factor: int): seq<int> {
    seq(|xs|, i requires 0 <= i < |xs| => xs[i] * factor)
  }

  function ScaledEnds(xs: seq<int>, blocklen: int, factor: int): seq<int> {
    seq(|xs|, i requires 0 <= i < |xs| => (xs[i] + blocklen) * factor)
  }

  /** The IndexedBlockDatatype constructor starts from displ[0] and displ[0] + blocklen * extent:
      the first displacement is NOT scaled by the extent there. */
  function IndexedBlockLb(displs: seq<int>, extent: int): int
  {
    if displs == [] then 0 else MinFrom(displs[0], Scaled(displs, extent))
  }

  function IndexedBlockUb(displs: seq<int>, blocklen: int, extent: int): int
  {
    if displs == [] then 0
    else MaxFrom(displs[0] + blocklen * extent, ScaledEnds(displs, blocklen, extent))
  }

  function EntryDispls(entries: seq<Entry>): seq<int> {
    seq(|entries|, i requires 0 <= i < |entries| => entries[i].displ)
  }

  function EntryEnd(x: Entry, extent: int): int { x.displ + x.blocklen * extent }

  function EntryEnds(entries: seq<Entry>, extent: int): seq<int> {
    seq(|entries|, i requires 0 <= i < |entries| => EntryEnd(entries[i], extent))
  }

  /** The HIndexedDatatype constructor starts from the first block. */
  function HIndexedLb(entries: seq<Entry>): int
  {
    if entries == [] then 0 else MinFrom(entries[0].displ, EntryDispls(entries))
  }

  function HIndexedUb(entries: seq<Entry>, extent: int): int
  {
    if entries == [] then 0 else MaxFrom(EntryEnd(entries[0], extent), EntryEnds(entries, extent))
  }

  /** The StructDatatype constructor starts both bounds at zero. */
  function StructLb(fields: seq<Field>): int
    decreases fields
  {
    if fields == [] then 0
    else Min(StructLb(fields[..|fields| - 1]), fields[|fields| - 1].displ)
  }

  function StructUb(fields: seq<Field>): int
    decreases fields
  {
    if fields == [] then 0
    else Max(StructUb(fields[..|fields| - 1]), FieldEnd(fields[|fields| - 1]))
  }

  function FieldEnd(f: Field): int
    decreases f
  {
    assert f.typ < f;
    f.displ + f.blocklen * Extent(f.typ)
  }

  lemma {:induction false} MinFromIsLeast(init: int, xs: seq<int>)
    ensures MinFrom(init, xs) <= init
    ensures forall x <- xs :: MinFrom(init, xs) <= x
    ensures MinFrom(init, xs) == init || MinFrom(init, xs) in xs
  {
    if xs != [] {
      MinFromIsLeast(init, xs[..|xs| - 1]);
      assert xs == xs[..|xs| - 1] + [xs[|xs| - 1]];
    }
  }

  lemma {:induction false} MaxFromIsGreatest(init: int, xs: seq<int>)
    ensures init <= MaxFrom(init, xs)
    ensures forall x <- xs :: x <= MaxFrom(init, xs)
    ensures MaxFrom(init, xs) == init || MaxFrom(init, xs) in xs
  {
    if xs != [] {
      MaxFromIsGreatest(init, xs[..|xs| - 1]);
      assert xs == xs[..|xs| - 1] + [xs[|xs| - 1]];
    }
  }
}
