/** The effect of sizes that omit a block length, on whole trees.  Where every block lies where its typemap
    says, the emitted code moves the right data bytes in the right order; what can be wrong is how far the
    packed pointer has advanced.  It never advances too far, and `StepsRight` says exactly when it keeps up. */
module Steps {
  import opened Arithmetic
  import opened Datatypes
  import opened Typemap
  import opened Wellformed
  import opened Bounds
  import opened Compression
  import opened Machine
  import opened Transfers
  import opened Emission
  import opened Routes
  import opened Support
  import opened ExecTypes
  import opened Correctness

  /** The transfers of n items are those of the typemap. */
  predicate Right(t: Datatype, pack: bool, n: int, inbuf: int, outbuf: int) {
    Along(RouteCopies(t, pack, n), inbuf, outbuf) == Moves(pack, Copies(t, n), inbuf, outbuf)
  }

  /** The generators put every block at its place: `Good` without its conditions on sizes. */
  predicate WellPlaced(t: Datatype, pack: bool)
    decreases t, 0
  {
    match t
    case Primitive(_) => true
    case IndexedBlock(blocklen, displs, base) =>
      if |displs| > IDXB_LOOP_THRESHOLD then
        blocklen == 1 && base.Primitive? && forall d <- displs :: d >= 0
      else
        WellPlaced(base, pack) && (Size(base) == Extent(base) || forall d <- displs :: d == 0)
    case Struct(fields) => FieldsPlaced(fields, pack)
    case Resized(_, extent, base) =>
      (match base
       case Primitive(_) => pack || extent == Size(base)
       case Contiguous(_, inner) => WellPlaced(inner, true) && (pack || (GapFree(base) && extent == Size(base)))
       case Vector(_, _, _, inner) => WellPlaced(inner, pack)
       case HVector(_, _, _, inner) => WellPlaced(inner, pack)
       case _ => false)
    case _ => WellPlaced(t.base, pack)
  }

  predicate FieldsPlaced(fields: seq<Field>, pack: bool)
    decreases fields, 0
  {
    if fields == [] then true
    else
      var f := fields[0];
      assert f.typ < f;
      WellPlaced(f.typ, pack) && FieldsPlaced(fields[1..], pack)
  }

  // ----- the exact condition -----

  predicate AllEmpty(fields: seq<Field>) { forall i :: 0 <= i < |fields| ==> fields[i].blocklen == 0 }

  /** The packed pointer is where the next item's bytes belong. */
  predicate PitchRight(t: Datatype) { if t.IndexedBlock? then Sized(t.base) else Sized(t) }

  /** The packed pointer keeps up inside one item. */
  predicate ItemRight(t: Datatype)
    decreases Height(t), 0, 0
  {
    match t
    case Primitive(_) => true
    case Contiguous(count, base) => StepsRight(base, count)
    case Vector(count, blocklen, _, base) => StepsRight(base, blocklen) && (count == 1 || Sized(base))
    case HVector(count, blocklen, _, base) => StepsRight(base, blocklen) && (count == 1 || Sized(base))
    case Resized(_, _, base) => ItemRight(base)
    case _ =>
      FieldsOfHeight(t);
      FieldsRight(FieldsOf(t))
  }

  /** And from item to item. */
  predicate StepsRight(t: Datatype, n: int)
    decreases Height(t), 1, 0
  {
    ItemRight(t) && (n == 1 || PitchRight(t))
  }

  /** And from block to block: only the last nonempty block may have a wrong size. */
  predicate FieldsRight(fields: seq<Field>)
    decreases FieldsHeight(fields), 3, |fields|
  {
    if fields == [] then true
    else
      var f := fields[0];
      && (f.blocklen == 0 || (StepsRight(f.typ, f.blocklen) && (Sized(f.typ) || AllEmpty(fields[1..]))))
      && FieldsRight(fields[1..])
  }

  // ----- lagging routes -----

  function Packed(pack: bool, h: Hop): int { if pack then h.to else h.from }
  function Data(pack: bool, h: Hop): int { if pack then h.from else h.to }

  /** The data side of r is tm, and its packed side never runs ahead. */
  ghost predicate Behind(pack: bool, r: seq<Hop>, tm: seq<int>) {
    && |r| == |tm|
    && forall i :: 0 <= i < |r| ==> Data(pack, r[i]) == tm[i] && 0 <= Packed(pack, r[i]) <= i
  }

  ghost predicate Exact(pack: bool, r: seq<Hop>) {
    forall i :: 0 <= i < |r| ==> Packed(pack, r[i]) == i
  }

  lemma WayBehind(pack: bool, tm: seq<int>)
    ensures Behind(pack, Way(pack, tm), tm) && Exact(pack, Way(pack, tm))
  {}

  /** A route that lags is the typemap's, address by address, if and only if it never does. */
  lemma BehindExact(pack: bool, r: seq<Hop>, tm: seq<int>, inbuf: int, outbuf: int)
    requires Behind(pack, r, tm) && |tm| <= W
    ensures Along(r, inbuf, outbuf) == Moves(pack, tm, inbuf, outbuf) <==> Exact(pack, r)
  {
    var a, b := Along(r, inbuf, outbuf), Moves(pack, tm, inbuf, outbuf);
    if Exact(pack, r) {
      forall i | 0 <= i < |r| ensures a[i] == b[i] { assert Packed(pack, r[i]) == i; }
    }
    if a == b {
      forall i | 0 <= i < |r| ensures Packed(pack, r[i]) == i {
        assert a[i] == b[i];
        WrapInjective(if pack then outbuf else inbuf, Packed(pack, r[i]), i);
      }
    }
  }

  /** A block followed by the others, `packed` bytes later. */
  lemma BehindConcat(pack: bool, a: seq<Hop>, ta: seq<int>, b: seq<Hop>, tb: seq<int>, packed: int)
    requires Behind(pack, a, ta) && Behind(pack, b, tb) && 0 <= packed <= |ta|
    ensures var r := a + Slide(b, OutStep(pack, 0, packed), InStep(pack, 0, packed));
      && Behind(pack, r, ta + tb)
      && (Exact(pack, r) <==> Exact(pack, a) && (tb == [] || (packed == |ta| && Exact(pack, b))))
  {
    var s := Slide(b, OutStep(pack, 0, packed), InStep(pack, 0, packed));
    var r := a + s;
    assert forall i :: 0 <= i < |b| ==> Packed(pack, s[i]) == Packed(pack, b[i]) + packed && Data(pack, s[i]) == tb[i];
    assert forall i :: 0 <= i < |a| ==> r[i] == a[i];
    assert forall i :: 0 <= i < |b| ==> r[|a| + i] == s[i];
    if Exact(pack, r) && tb != [] {
      assert Packed(pack, r[|a|]) == |a|;
      assert Packed(pack, b[0]) == 0;
      forall i | 0 <= i < |b| ensures Packed(pack, b[i]) == i { assert Packed(pack, r[|a| + i]) == |a| + i; }
      forall i | 0 <= i < |a| ensures Packed(pack, a[i]) == i { assert Packed(pack, r[i]) == i; }
    }
    if Exact(pack, a) && (tb == [] || (packed == |ta| && Exact(pack, b))) {
      forall i | 0 <= i < |r| ensures Packed(pack, r[i]) == i {
        if i < |a| { assert Packed(pack, a[i]) == i; } else { assert Packed(pack, b[i - |a|]) == i - |a|; }
      }
    }
    if Exact(pack, r) {
      forall i | 0 <= i < |a| ensures Packed(pack, a[i]) == i { assert Packed(pack, r[i]) == i; }
    }
  }

  lemma BehindShift(pack: bool, r: seq<Hop>, tm: seq<int>, d: int)
    requires Behind(pack, r, tm)
    ensures Behind(pack, Slide(r, OutStep(pack, d, 0), InStep(pack, d, 0)), Shift(tm, d))
    ensures Exact(pack, Slide(r, OutStep(pack, d, 0), InStep(pack, d, 0))) <==> Exact(pack, r)
  {
    var s := Slide(r, OutStep(pack, d, 0), InStep(pack, d, 0));
    assert forall i :: 0 <= i < |r| ==> Packed(pack, s[i]) == Packed(pack, r[i]) && Data(pack, s[i]) == tm[i] + d;
  }

  /** n rounds lag behind unless there is one, or a round advances the packed side by all its bytes. */
  lemma {:induction false} BehindLaps(pack: bool, r: seq<Hop>, tm: seq<int>, data: int, packed: int, n: int)
    requires Behind(pack, r, tm) && tm != [] && 0 <= packed <= |tm| && n >= 0
    ensures var rs := Laps(r, OutStep(pack, data, packed), InStep(pack, data, packed), n);
      && Behind(pack, rs, Rep(tm, data, n))
      && (n >= 1 ==> (Exact(pack, rs) <==> Exact(pack, r) && (n == 1 || packed == |tm|)))
      && (n >= 1 ==> Rep(tm, data, n) != [])
    decreases n
  {
    hide Behind, Exact;
    if n == 0 {
      WayBehind(pack, []);
      NoWay(pack);
    } else {
      var rest, ts := Laps(r, OutStep(pack, data, packed), InStep(pack, data, packed), n - 1), Rep(tm, data, n - 1);
      BehindLaps(pack, r, tm, data, packed, n - 1);
      BehindShift(pack, rest, ts, data);
      SlideSlide(rest, OutStep(pack, data, 0), InStep(pack, data, 0), OutStep(pack, 0, packed),
                 InStep(pack, 0, packed));
      BehindConcat(pack, r, tm, Slide(rest, OutStep(pack, data, 0), InStep(pack, data, 0)), Shift(ts, data), packed);
    }
  }

  // ----- blocks -----

  /** What is known of the code of a block. */
  ghost predicate BlockBehind(f: Field, pack: bool) {
    var r, tm, packed := RouteCopies(f.typ, pack, f.blocklen), Copies(f.typ, f.blocklen), Size(f.typ) * f.blocklen;
    && Behind(pack, r, tm) && 0 <= packed <= |tm| && (tm == [] <==> f.blocklen == 0)
    && (packed == |tm| <==> f.blocklen == 0 || Sized(f.typ))
    && (Exact(pack, r) <==> f.blocklen == 0 || StepsRight(f.typ, f.blocklen))
  }

  lemma {:induction false} FieldsBehind(fields: seq<Field>, pack: bool)
    requires forall i :: 0 <= i < |fields| ==> BlockBehind(fields[i], pack)
    ensures Behind(pack, FieldsRoute(fields, pack), FieldsMap(fields))
    ensures Exact(pack, FieldsRoute(fields, pack)) <==> FieldsRight(fields)
    ensures FieldsMap(fields) == [] <==> AllEmpty(fields)
    ensures 0 <= FieldsSize(fields) <= |FieldsMap(fields)|
    ensures FieldsSize(fields) == |FieldsMap(fields)| <==>
      forall i :: 0 <= i < |fields| ==> fields[i].blocklen == 0 || Sized(fields[i].typ)
  {
    hide Behind, Exact, RouteCopies, Copies, StepsRight, Sized, Size, Height, FieldsHeight;
    if fields == [] {
      WayBehind(pack, []);
      NoWay(pack);
    } else {
      var f, rest := fields[0], fields[1..];
      FieldsBehind(rest, pack);
      assert BlockBehind(fields[0], pack);
      var r, tm := RouteCopies(f.typ, pack, f.blocklen), Copies(f.typ, f.blocklen);
      BehindShift(pack, r, tm, f.displ);
      BehindConcat(pack, Slide(r, OutStep(pack, f.displ, 0), InStep(pack, f.displ, 0)), Shift(tm, f.displ),
                   FieldsRoute(rest, pack), FieldsMap(rest), Size(f.typ) * f.blocklen);
      assert forall i :: 0 < i < |fields| ==> fields[i] == rest[i - 1];
    }
  }

  // ----- whole trees -----

  /** What is known of the code of one item. */
  ghost predicate Lags(t: Datatype, pack: bool) {
    && Behind(pack, Route(t, pack), Map(t)) && (Exact(pack, Route(t, pack)) <==> ItemRight(t))
    && OutPitch(t, pack) == OutStep(pack, Extent(t), PackedPitch(t))
    && InPitch(t, pack) == InStep(pack, Extent(t), PackedPitch(t))
    && 0 <= PackedPitch(t) <= |Map(t)| && (PackedPitch(t) == |Map(t)| <==> PitchRight(t))
  }

  /** n items. */
  lemma LagsCopies(t: Datatype, pack: bool, n: int)
    requires Lags(t, pack) && Positive(t) && n >= 0
    ensures Behind(pack, RouteCopies(t, pack, n), Copies(t, n))
    ensures n >= 1 ==> (Exact(pack, RouteCopies(t, pack, n)) <==> StepsRight(t, n))
    ensures Copies(t, n) == [] <==> n == 0
  {
    hide Behind, Exact, Route, Map, ItemRight, OutPitch, InPitch, PackedPitch, PitchRight, Size, Extent, Positive;
    MapNotEmpty(t);
    BehindLaps(pack, Route(t, pack), Map(t), Extent(t), PackedPitch(t), n);
  }

  lemma MapNotEmpty(t: Datatype)
    requires Positive(t)
    ensures Map(t) != []
  {
    SizeAndExtentPositive(t);
    SizeIsMapLength(t);
  }

  lemma LagsBlock(f: Field, pack: bool)
    requires Lags(f.typ, pack) && Positive(f.typ) && f.blocklen >= 0
    ensures BlockBehind(f, pack)
  {
    hide Lags, Behind, Exact, RouteCopies, Copies, StepsRight, Positive, Sized;
    LagsCopies(f.typ, pack, f.blocklen);
    BlockSize(f.typ, f.blocklen);
    if f.blocklen == 0 { NothingBehind(f.typ, pack); }
  }

  lemma NothingBehind(t: Datatype, pack: bool)
    ensures Exact(pack, RouteCopies(t, pack, 0)) && Copies(t, 0) == []
  {}

  lemma BlockSize(t: Datatype, n: int)
    requires Positive(t) && n >= 0
    ensures 0 <= Size(t) * n <= |Copies(t, n)|
    ensures Size(t) * n == |Copies(t, n)| <==> n == 0 || Sized(t)
  {
    SizeIsMapLength(t);
    SizeAndExtentPositive(t);
    CopiesLength(t, n);
    MulNonNegative(Size(t), n);
    if n >= 1 { ScaledComparison(n, Size(t), |Map(t)|); }
    assert Size(t) * n == n * Size(t);
  }

  lemma IndexedLags(t: Datatype, pack: bool)
    requires Indexed(t) && FieldsMap(FieldsOf(t)) == Map(t)
    requires forall i :: 0 <= i < |FieldsOf(t)| ==> BlockBehind(FieldsOf(t)[i], pack)
    requires (forall i :: 0 <= i < |FieldsOf(t)| ==>
                FieldsOf(t)[i].blocklen == 0 || Sized(FieldsOf(t)[i].typ)) <==> PitchRight(t)
    ensures Lags(t, pack)
  {
    hide Behind, Exact, BlockBehind, FieldsMap, FieldsRoute, FieldsRight, FieldsSize, FieldsOf, Extent, Sized;
    FieldsBehind(FieldsOf(t), pack);
  }

  lemma StridedLags(v: Datatype, pack: bool)
    requires (v.Vector? || v.HVector?) && Positive(v) && Lags(v.base, pack)
    ensures Behind(pack, Strides(v.base, pack, v.blocklen, DataStride(v), v.count), Map(v))
    ensures Exact(pack, Strides(v.base, pack, v.blocklen, DataStride(v), v.count)) <==> ItemRight(v)
    ensures 0 <= Size(v) <= |Map(v)| && (Size(v) == |Map(v)| <==> Sized(v))
  {
    hide Lags, Behind, Exact, RouteCopies, Route, StepsRight, PitchRight;
    LagsCopies(v.base, pack, v.blocklen);
    BlockSize(v.base, v.blocklen);
    BehindLaps(pack, RouteCopies(v.base, pack, v.blocklen), Copies(v.base, v.blocklen), DataStride(v),
               Size(v.base) * v.blocklen, v.count);
    SizeAndExtentPositive(v);
    SizeIsMapLength(v);
    assert v.Vector? ==> v.stride * Extent(v.base) == DataStride(v);
  }

  lemma VectorLags(t: Datatype, pack: bool)
    requires (t.Vector? || t.HVector?) && Positive(t) && Lags(t.base, pack)
    ensures Lags(t, pack)
  {
    hide Behind, Exact, Strides, Size, Extent, Map, ItemRight, Positive;
    StridedLags(t, pack);
  }

  lemma ContiguousLags(t: Datatype, pack: bool)
    requires t.Contiguous? && Positive(t) && Lags(t.base, pack)
    ensures Lags(t, pack)
  {
    hide Behind, Exact, RouteCopies, StepsRight;
    LagsCopies(t.base, pack, t.count);
    SizeAndExtentPositive(t);
    SizeIsMapLength(t);
  }

  /** A tree whose code is right in one direction does not lag. */
  lemma FaithfulLags(t: Datatype, pack: bool)
    requires Faithful(t, pack) && ItemRight(t) && PitchRight(t) && |Map(t)| == PackedPitch(t)
    requires OutPitch(t, pack) == OutStep(pack, Extent(t), PackedPitch(t))
    ensures Lags(t, pack)
  {
    hide Route, Map, Extent, PackedPitch;
    WayBehind(pack, Map(t));
  }

  lemma {:induction false} GapFreeSteps(t: Datatype)
    requires Positive(t) && GapFree(t)
    ensures Sized(t) && ItemRight(t)
    decreases t
  {
    if !t.Primitive? { GapFreeSteps(t.base); }
  }

  /** Unpacking a gap-free resized contiguous type with packing code. */
  lemma ResizedBackLags(t: Datatype)
    requires t.Resized? && t.base.Contiguous? && Positive(t) && WellPlaced(t, false)
    requires Lags(t.base.base, true)
    ensures Lags(t, false)
  {
    hide Behind, Exact, RouteCopies, PitchRight, ItemRight, OutPitch, InPitch;
    var size := Size(t.base);
    GapFreeSteps(t.base);
    GapFreeMap(t.base);
    LagsCopies(t.base.base, true, t.base.count);
    ContiguousItem(t.base);
    RouteOfResized(t, false);
    SameBothWays(RouteCopies(t.base.base, true, t.base.count), size);
    ResizedItem(t);
  }

  lemma ContiguousItem(t: Datatype)
    requires t.Contiguous? && Positive(t)
    ensures ItemRight(t) <==> StepsRight(t.base, t.count)
    ensures Map(t) == Copies(t.base, t.count) && t.count >= 1
  {}

  lemma SameBothWays(r: seq<Hop>, n: nat)
    requires Behind(true, r, Iota(n)) && Exact(true, r)
    ensures Behind(false, r, Iota(n)) && Exact(false, r)
  {}

  lemma ResizedItem(t: Datatype)
    requires t.Resized? && Positive(t)
    ensures ItemRight(t) <==> ItemRight(t.base)
    ensures PitchRight(t) <==> Sized(t.base)
    ensures PackedPitch(t) == Size(t.base) && Map(t) == Map(t.base) && Extent(t) == t.extent
    ensures 0 <= PackedPitch(t) <= |Map(t)| && (PackedPitch(t) == |Map(t)| <==> PitchRight(t))
  {
    SizeAndExtentPositive(t.base);
    SizeIsMapLength(t.base);
    assert !Indexed(t);
  }

  lemma ResizedLags(t: Datatype, pack: bool)
    requires t.Resized? && Positive(t) && WellPlaced(t, pack)
    requires t.base.Contiguous? ==> Lags(t.base.base, true)
    requires t.base.Vector? || t.base.HVector? ==> Lags(t.base.base, pack)
    ensures Lags(t, pack)
  {
    hide Behind, Exact, Strides, RouteCopies, OutPitch, InPitch, Route, Sized, ItemRight, PackedPitch, PitchRight;
    RouteOfResized(t, pack);
    ResizedItem(t);
    if t.base.Primitive? {
      PrimitiveLags(t.base, pack);
    } else if t.base.Contiguous? {
      if pack {
        LagsCopies(t.base.base, true, t.base.count);
        ContiguousItem(t.base);
      } else {
        ResizedBackLags(t);
      }
    } else {
      StridedLags(t.base, pack);
    }
  }

  lemma PrimitiveLags(t: Datatype, pack: bool)
    requires t.Primitive?
    ensures Lags(t, pack) && ItemRight(t) && Route(t, pack) == Dense(PrimitiveSize(t.prim))
  {
    PrimitiveFaithful(t, pack);
    FaithfulLags(t, pack);
  }

  /** WRONG SIZES SHOW, for every emittable tree whose blocks are placed right: the packed pointer lags or is right. */
  lemma {:induction false} PlacedLags(t: Datatype, pack: bool)
    requires Positive(t) && Fits(t) && WellPlaced(t, pack)
    ensures Lags(t, pack)
    decreases t, 1
  {
    hide Lags, Size, Extent, Lb, Ub, Map, Sized;
    match t
    case Primitive(_) => PrimitiveLags(t, pack);
    case Contiguous(_, base) =>
      PlacedLags(base, pack);
      ContiguousLags(t, pack);
    case Vector(_, _, _, base) =>
      PlacedLags(base, pack);
      VectorLags(t, pack);
    case HVector(_, _, _, base) =>
      PlacedLags(base, pack);
      VectorLags(t, pack);
    case IndexedBlock(_, _, base) =>
      PlacedBase(t, pack);
      PlacedLags(base, pack);
      UniformLags(t, pack);
    case HIndexed(_, base) =>
      PlacedLags(base, pack);
      UniformLags(t, pack);
    case Struct(fields) =>
      FieldsLag(fields, pack);
      StructLags(t, pack);
    case Resized(_, _, base) =>
      if base.Contiguous? { PlacedLags(base.base, true); }
      if base.Vector? || base.HVector? { PlacedLags(base.base, pack); }
      ResizedLags(t, pack);
  }

  lemma PlacedBase(t: Datatype, pack: bool)
    requires t.IndexedBlock? && Positive(t) && Fits(t) && WellPlaced(t, pack)
    ensures Positive(t.base) && Fits(t.base) && WellPlaced(t.base, pack)
  {}

  lemma PlacedFieldsMap(t: Datatype, pack: bool)
    requires Indexed(t) && Positive(t) && Fits(t) && WellPlaced(t, pack)
    ensures FieldsMap(FieldsOf(t)) == Map(t)
  {
    hide Sized, Size;
    match t
    case IndexedBlock(blocklen, displs, base) =>
      BlockFieldsMap(displs, Extent(base), blocklen, base);
      if Tabled(t) {
        SizeAndExtentPositive(base);
        WordsAreScaled(t);
      } else {
        ScaleIrrelevant(t);
      }
    case HIndexed(entries, base) => EntryFieldsMap(entries, base);
    case Struct(_) =>
  }

  lemma UniformLags(t: Datatype, pack: bool)
    requires (t.IndexedBlock? || t.HIndexed?) && Positive(t) && Fits(t) && WellPlaced(t, pack) && Lags(t.base, pack)
    ensures Lags(t, pack)
  {
    hide Lags, BlockBehind, Size, Extent, FieldsMap, Map, StepsRight, Fits, WellPlaced;
    PlacedFieldsMap(t, pack);
    var fields := FieldsOf(t);
    forall i | 0 <= i < |fields| ensures BlockBehind(fields[i], pack) { LagsBlock(fields[i], pack); }
    SomeBlock(t);
    IndexedLags(t, pack);
  }

  /** Some block is not empty, so all sizes are right if and only if the base's is. */
  lemma SomeBlock(t: Datatype)
    requires (t.IndexedBlock? || t.HIndexed?) && Positive(t)
    ensures (forall i :: 0 <= i < |FieldsOf(t)| ==>
               FieldsOf(t)[i].blocklen == 0 || Sized(FieldsOf(t)[i].typ)) <==> Sized(t.base)
    ensures PitchRight(t) <==> Sized(t.base)
  {
    var fields := FieldsOf(t);
    assert forall i :: 0 <= i < |fields| ==> fields[i].typ == t.base;
    if t.HIndexed? {
      var k :| 0 <= k < |t.entries| && t.entries[k].blocklen >= 1;
      assert fields[k].blocklen >= 1;
    } else {
      assert fields[0].blocklen == t.blocklen >= 1;
    }
  }

  lemma {:induction false} FieldsLag(fields: seq<Field>, pack: bool)
    requires PositiveFields(fields) && FieldsFit(fields) && FieldsPlaced(fields, pack)
    ensures forall i :: 0 <= i < |fields| ==> BlockBehind(fields[i], pack)
    ensures forall i :: 0 <= i < |fields| ==> fields[i].blocklen == 0 ==> Sized(fields[i].typ)
    ensures SizedFields(fields) <==> forall i :: 0 <= i < |fields| ==> Sized(fields[i].typ)
    decreases fields, 0
  {
    hide Lags, BlockBehind, Size, Extent;
    if fields != [] {
      var f := fields[0];
      assert f.typ < f;
      PlacedLags(f.typ, pack);
      LagsBlock(f, pack);
      FieldsLag(fields[1..], pack);
      assert forall i :: 0 < i < |fields| ==> fields[i] == fields[1..][i - 1];
      assert f.blocklen == 0 ==> Sized(f.typ);
    }
  }

  lemma StructLags(t: Datatype, pack: bool)
    requires t.Struct? && forall i :: 0 <= i < |t.fields| ==> BlockBehind(t.fields[i], pack)
    requires forall i :: 0 <= i < |t.fields| ==> t.fields[i].blocklen == 0 ==> Sized(t.fields[i].typ)
    requires SizedFields(t.fields) <==> forall i :: 0 <= i < |t.fields| ==> Sized(t.fields[i].typ)
    ensures Lags(t, pack)
  {
    hide Lags, BlockBehind, FieldsMap, SizedFields;
    assert FieldsOf(t) == t.fields && Map(t) == FieldsMap(t.fields) && (PitchRight(t) <==> SizedFields(t.fields));
    IndexedLags(t, pack);
  }

  /** SIZES ARE THE ONLY FAULT OF A PLACED TREE: for any number of items, its code does the transfers of the
      typemap if and only if the packed pointer keeps up. */
  lemma StepsExact(t: Datatype, pack: bool, n: int, inbuf: int, outbuf: int)
    requires Positive(t) && Fits(t) && WellPlaced(t, pack) && n >= 1 && |Copies(t, n)| <= W
    ensures Right(t, pack, n, inbuf, outbuf) <==> StepsRight(t, n)
  {
    hide Lags, Positive, Fits, WellPlaced, RouteCopies, Copies, StepsRight, Behind, Exact;
    PlacedLags(t, pack);
    LagsCopies(t, pack, n);
    BehindExact(pack, RouteCopies(t, pack, n), Copies(t, n), inbuf, outbuf);
  }

  // ----- the shape condition is exact -----

  /** With no block length above one below, no size is wrong. */
  lemma {:induction false} SizedIsGood(t: Datatype, pack: bool)
    requires Positive(t) && Sized(t) && WellPlaced(t, pack)
    ensures Good(t, pack)
    decreases t, 1
  {
    hide Size, Extent, Lb, Ub;
    match t
    case Primitive(_) =>
    case Struct(fields) => SizedFieldsAreGood(fields, pack);
    case Resized(_, _, base) =>
      if base.Contiguous? { SizedIsGood(base.base, true); }
      if base.Vector? || base.HVector? { SizedIsGood(base.base, pack); }
    case IndexedBlock(_, displs, base) =>
      if |displs| <= IDXB_LOOP_THRESHOLD { SizedIsGood(base, pack); }
    case Contiguous(_, base) => SizedIsGood(base, pack);
    case Vector(_, _, _, base) => SizedIsGood(base, pack);
    case HVector(_, _, _, base) => SizedIsGood(base, pack);
    case HIndexed(_, base) => SizedIsGood(base, pack);
  }

  lemma {:induction false} SizedFieldsAreGood(fields: seq<Field>, pack: bool)
    requires PositiveFields(fields) && SizedFields(fields) && FieldsPlaced(fields, pack)
    ensures GoodFields(fields, pack)
    decreases fields, 0
  {
    if fields != [] {
      var f := fields[0];
      assert f.typ < f;
      SizedIsGood(f.typ, pack);
      SizedFieldsAreGood(fields[1..], pack);
    }
  }

  lemma {:induction false} GoodIsPlaced(t: Datatype, pack: bool)
    requires Good(t, pack)
    ensures WellPlaced(t, pack)
    decreases t, 1
  {
    hide Size, Extent, Lb, Ub;
    match t
    case Primitive(_) =>
    case Struct(fields) => GoodFieldsArePlaced(fields, pack);
    case Resized(_, _, base) =>
      if base.Contiguous? { GoodIsPlaced(base.base, true); }
      if base.Vector? || base.HVector? { GoodIsPlaced(base.base, pack); }
    case IndexedBlock(_, displs, base) =>
      if |displs| <= IDXB_LOOP_THRESHOLD { GoodIsPlaced(base, pack); }
    case Contiguous(_, base) => GoodIsPlaced(base, pack);
    case Vector(_, _, _, base) => GoodIsPlaced(base, pack);
    case HVector(_, _, _, base) => GoodIsPlaced(base, pack);
    case HIndexed(_, base) => GoodIsPlaced(base, pack);
  }

  lemma {:induction false} GoodFieldsArePlaced(fields: seq<Field>, pack: bool)
    requires GoodFields(fields, pack)
    ensures FieldsPlaced(fields, pack)
    decreases fields, 0
  {
    if fields != [] {
      var f := fields[0];
      assert f.typ < f;
      GoodIsPlaced(f.typ, pack);
      GoodFieldsArePlaced(fields[1..], pack);
    }
  }

  /** Good asks for every block to be placed right, and for the next item to follow right; then the packed
      pointer keeps up inside the item as well. */
  lemma GoodExact(t: Datatype, pack: bool)
    requires Positive(t) && Fits(t)
    ensures Good(t, pack) <==> WellPlaced(t, pack) && PitchRight(t)
    ensures Good(t, pack) ==> forall n :: StepsRight(t, n)
  {
    hide Fits, Size, Extent, Lb, Ub, Map, Behind, Route, OutPitch, InPitch, PackedPitch, Exact;
    if Good(t, pack) {
      GoodIsPlaced(t, pack);
      GoodIsFaithful(t, pack);
      PlacedLags(t, pack);
      WayBehind(pack, Map(t));
      PitchFromSteps(pack, Extent(t), |Map(t)|, PackedPitch(t));
    } else if WellPlaced(t, pack) && PitchRight(t) {
      PitchIsGood(t, pack);
    }
  }

  lemma PitchFromSteps(pack: bool, e: int, a: int, b: int)
    requires OutStep(pack, e, a) == OutStep(pack, e, b) && InStep(pack, e, a) == InStep(pack, e, b)
    ensures a == b
  {}

  lemma PitchIsGood(t: Datatype, pack: bool)
    requires Positive(t) && WellPlaced(t, pack) && PitchRight(t)
    ensures Good(t, pack)
  {
    if t.IndexedBlock? {
      if |t.displs| <= IDXB_LOOP_THRESHOLD { SizedIsGood(t.base, pack); }
    } else {
      SizedIsGood(t, pack);
    }
  }

  /** GOOD IS EXACT ON PLACED TREES: the code is right for two items if and only if Good holds, and then it
      is right for every number of items. */
  lemma GoodIsNeeded(t: Datatype, pack: bool, inbuf: int, outbuf: int)
    requires Positive(t) && Fits(t) && WellPlaced(t, pack) && |Copies(t, 2)| <= W
    ensures Right(t, pack, 2, inbuf, outbuf) <==> Good(t, pack)
    ensures Good(t, pack) ==> forall n, x, y :: Right(t, pack, n, x, y)
  {
    hide Positive, Fits, WellPlaced, RouteCopies, Copies, Right, Good, PitchRight, ItemRight;
    StepsExact(t, pack, 2, inbuf, outbuf);
    GoodExact(t, pack);
    if Good(t, pack) {
      forall n, x, y ensures Right(t, pack, n, x, y) { GoodIsRight(t, pack, n, x, y); }
    }
  }

  lemma GoodIsRight(t: Datatype, pack: bool, n: int, inbuf: int, outbuf: int)
    requires Positive(t) && Fits(t) && Good(t, pack)
    ensures Right(t, pack, n, inbuf, outbuf)
  {
    GoodRoute(t, pack, n, inbuf, outbuf);
  }
}
