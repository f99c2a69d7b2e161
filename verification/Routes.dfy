/** The route of emitted code: from which offset of the input to which offset of the output each byte goes,
    in the order the code moves them.  `Route` reads the code generators, not the typemap: strides, increments
    and displacements are the numbers the generators are given, right or wrong. */
module Routes {
  import opened Arithmetic
  import opened Datatypes
  import opened Typemap
  import opened Machine
  import opened Transfers
  import opened Emission

  /** One byte, to an offset of the output from an offset of the input. */
  datatype Hop = Hop(to: int, from: int)

  /** The route with both buffers advanced. */
  function Slide(r: seq<Hop>, to: int, from: int): seq<Hop> {
    seq(|r|, i requires 0 <= i < |r| => Hop(r[i].to + to, r[i].from + from))
  }

  /** n rounds of r, each advancing the output by `to` and the input by `from`. */
  function Laps(r: seq<Hop>, to: int, from: int, n: int): seq<Hop>
    decreases n
  {
    if n <= 0 then [] else r + Slide(Laps(r, to, from, n - 1), to, from)
  }

  /** The transfers along r from `inbuf` to `outbuf`. */
  function Along(r: seq<Hop>, inbuf: int, outbuf: int): seq<Transfer> {
    seq(|r|, i requires 0 <= i < |r| => Transfer(Addr(outbuf, r[i].to), Addr(inbuf, r[i].from)))
  }

  /** The route that packs or unpacks a typemap. */
  function Way(pack: bool, tm: seq<int>): seq<Hop> {
    seq(|tm|, p requires 0 <= p < |tm| => if pack then Hop(p, tm[p]) else Hop(tm[p], p))
  }

  // ----- the routes of the generators -----

  /** Blocks at the entries of a displacement table. */
  function TableFields(table: seq<int>, blocklen: int, base: Datatype): seq<Field> {
    seq(|table|, j requires 0 <= j < |table| => Field(table[j], blocklen, base))
  }

  predicate Indexed(t: Datatype) { t.IndexedBlock? || t.HIndexed? || t.Struct? }

  predicate Tabled(t: Datatype) { t.IndexedBlock? && |t.displs| > IDXB_LOOP_THRESHOLD }

  /** The blocks that the code of an indexed or struct type visits. */
  function FieldsOf(t: Datatype): seq<Field>
    requires Indexed(t)
  {
    match t
    case IndexedBlock(blocklen, displs, base) =>
      if |displs| > IDXB_LOOP_THRESHOLD then TableFields(DisplacementTable(displs, base), blocklen, base)
      else UnrolledFields(blocklen, displs, base)
    case HIndexed(entries, base) => EntryFields(entries, base)
    case Struct(fields) => fields
  }

  lemma FieldsOfHeight(t: Datatype)
    requires Indexed(t)
    ensures FieldsHeight(FieldsOf(t)) < Height(t)
  {
    if !t.Struct? { UniformFieldsHeight(FieldsOf(t), t.base); }
  }

  /** Over primitives and contiguous types the unpack code of a resized type is pack code. */
  predicate Packs(t: Datatype, pack: bool) {
    pack || (t.Resized? && (t.base.Primitive? || t.base.Contiguous?))
  }

  /** Packed bytes from one item to the next. */
  function PackedPitch(t: Datatype): int { if Indexed(t) then FieldsSize(FieldsOf(t)) else Size(t) }

  function OutPitch(t: Datatype, pack: bool): int { OutStep(Packs(t, pack), Extent(t), PackedPitch(t)) }

  function InPitch(t: Datatype, pack: bool): int { InStep(Packs(t, pack), Extent(t), PackedPitch(t)) }

  function Dense(n: nat): seq<Hop> { seq(n, k => Hop(k, k)) }

  function Route(t: Datatype, pack: bool): seq<Hop>
    decreases Height(t), 0, 0
  {
    match t
    case Primitive(p) => Dense(PrimitiveSize(p))
    case Contiguous(count, base) => RouteCopies(base, pack, count)
    case Vector(count, blocklen, stride, base) => Strides(base, pack, blocklen, Extent(base) * stride, count)
    case HVector(count, blocklen, stride, base) => Strides(base, pack, blocklen, stride, count)
    case Resized(_, _, base) => ResizedRoute(base, pack)
    case _ =>
      FieldsOfHeight(t);
      FieldsRoute(FieldsOf(t), pack)
  }

  /** The generators that a resized type borrows from its base; over other bases no code is emitted. */
  function ResizedRoute(base: Datatype, pack: bool): seq<Hop>
    decreases Height(base), 4, 0
  {
    match base
    case Primitive(p) => Dense(PrimitiveSize(p))
    case Contiguous(count, inner) => RouteCopies(inner, true, count)
    case Vector(count, blocklen, stride, inner) => Strides(inner, pack, blocklen, Extent(inner) * stride, count)
    case HVector(count, blocklen, stride, inner) => Strides(inner, pack, blocklen, stride, count)
    case _ => []
  }

  /** n items. */
  function RouteCopies(t: Datatype, pack: bool, n: int): seq<Hop>
    decreases Height(t), 1, 0
  {
    Laps(Route(t, pack), OutPitch(t, pack), InPitch(t, pack), n)
  }

  /** `count` blocks, the data side advancing by `data` and the packed side by a block's stored size. */
  function Strides(base: Datatype, pack: bool, blocklen: int, data: int, count: int): seq<Hop>
    decreases Height(base), 2, 0
  {
    Laps(RouteCopies(base, pack, blocklen), OutStep(pack, data, Size(base) * blocklen),
         InStep(pack, data, Size(base) * blocklen), count)
  }

  /** Placed blocks: the data side at the displacement, the packed side after the blocks before. */
  function FieldsRoute(fields: seq<Field>, pack: bool): seq<Hop>
    decreases FieldsHeight(fields), 3, |fields|
  {
    if fields == [] then []
    else
      var f, rest := fields[0], FieldsRoute(fields[1..], pack);
      var packed := Size(f.typ) * f.blocklen;
      Slide(RouteCopies(f.typ, pack, f.blocklen), OutStep(pack, f.displ, 0), InStep(pack, f.displ, 0))
      + Slide(rest, OutStep(pack, 0, packed), InStep(pack, 0, packed))
  }

  /** A resized type's extent is the one it is given. */
  lemma ExtentOfResized(t: Datatype)
    requires t.Resized?
    ensures Extent(t) == t.extent && !Indexed(t) && Map(t) == Map(t.base) && Size(t) == Size(t.base)
  {
    hide Map, Size;
    assert Lb(t) == t.lb;
    assert Ub(t) == t.lb + t.extent;
    SameBytes(t);
  }

  lemma SameBytes(t: Datatype)
    requires t.Resized?
    ensures Map(t) == Map(t.base) && Size(t) == Size(t.base)
  {}

  // ----- algebra -----

  lemma AlongConcat(a: seq<Hop>, b: seq<Hop>, inbuf: int, outbuf: int)
    ensures Along(a + b, inbuf, outbuf) == Along(a, inbuf, outbuf) + Along(b, inbuf, outbuf)
  {}

  /** Sliding the route is advancing the pointers, which wrap around. */
  lemma AlongSlide(r: seq<Hop>, to: int, from: int, inbuf: int, outbuf: int)
    ensures Along(Slide(r, to, from), inbuf, outbuf) == Along(r, Wrap(inbuf + from), Wrap(outbuf + to))
  {
    forall i | 0 <= i < |r|
      ensures Along(Slide(r, to, from), inbuf, outbuf)[i] == Along(r, Wrap(inbuf + from), Wrap(outbuf + to))[i]
    {
      WrapWrap(inbuf + from, r[i].from);
      WrapWrap(outbuf + to, r[i].to);
    }
  }

  lemma WayMoves(pack: bool, tm: seq<int>, inbuf: int, outbuf: int)
    ensures Along(Way(pack, tm), inbuf, outbuf) == Moves(pack, tm, inbuf, outbuf)
  {}

  lemma WayConcat(pack: bool, a: seq<int>, b: seq<int>)
    ensures Way(pack, a + b) == Way(pack, a) + Slide(Way(pack, b), OutStep(pack, 0, |a|), InStep(pack, 0, |a|))
  {}

  lemma WayShift(pack: bool, tm: seq<int>, d: int)
    ensures Way(pack, Shift(tm, d)) == Slide(Way(pack, tm), OutStep(pack, d, 0), InStep(pack, d, 0))
  {}

  lemma SlideSlide(r: seq<Hop>, a: int, b: int, c: int, d: int)
    ensures Slide(Slide(r, a, b), c, d) == Slide(r, a + c, b + d)
  {}

  /** n items of a typemap are n rounds of one, if the packed side advances by an item's bytes. */
  lemma {:induction false} WayRep(pack: bool, tm: seq<int>, step: int, n: int)
    ensures Way(pack, Rep(tm, step, n)) == Laps(Way(pack, tm), OutStep(pack, step, |tm|), InStep(pack, step, |tm|), n)
    decreases n
  {
    if n > 0 {
      var rest := Rep(tm, step, n - 1);
      WayRep(pack, tm, step, n - 1);
      WayConcat(pack, tm, Shift(rest, step));
      WayShift(pack, rest, step);
      SlideSlide(Way(pack, rest), OutStep(pack, step, 0), InStep(pack, step, 0),
                 OutStep(pack, 0, |tm|), InStep(pack, 0, |tm|));
    }
  }

  lemma DenseIsWay(pack: bool, n: nat)
    ensures Dense(n) == Way(pack, Iota(n))
  {}

  /** One round, then the others from the advanced pointers. */
  lemma OneLap(r: seq<Hop>, to: int, from: int, n: nat, inbuf: int, outbuf: int)
    requires n >= 1
    ensures Along(Laps(r, to, from, n), inbuf, outbuf)
         == Along(r, inbuf, outbuf) + Along(Laps(r, to, from, n - 1), Wrap(inbuf + from), Wrap(outbuf + to))
    ensures n == 1 ==> Along(Laps(r, to, from, n), inbuf, outbuf) == Along(r, inbuf, outbuf)
  {
    var rest := Laps(r, to, from, n - 1);
    AlongConcat(r, Slide(rest, to, from), inbuf, outbuf);
    AlongSlide(rest, to, from, inbuf, outbuf);
    if n == 1 { assert rest == []; }
  }
}
