/** The trees that Good shuts out.  `Compilation.FunctionPerforms` says what their code really does; here is,
    family by family, exactly when that is what the typemap asks for. */
module Defects {
  import opened Arithmetic
  import opened Datatypes
  import opened Typemap
  import opened Wellformed
  import opened Bounds
  import opened Machine
  import opened Builders
  import opened Transfers
  import opened Emission
  import opened Routes
  import opened ExecPrimitive
  import opened Execution
  import opened Support
  import opened Calls
  import opened ExecIndexed
  import opened ExecTable
  import opened ExecTypes
  import opened Correctness
  import opened Steps
  import opened Compilation

  ghost predicate Buffers(inbuf: int, n: int, outbuf: int) {
    0 <= inbuf < W && 0 <= outbuf < W && 1 <= n < W32
  }

  predicate AllZero(displs: seq<int>) { forall i :: 0 <= i < |displs| ==> displs[i] == 0 }

  predicate NoneNegative(displs: seq<int>) { forall i :: 0 <= i < |displs| ==> displs[i] >= 0 }

  // ----- bases whose size omits a block length -----

  lemma GoodBaseSteps(base: Datatype, pack: bool, n: int)
    requires Positive(base) && Fits(base) && Good(base, pack)
    ensures WellPlaced(base, pack) && StepsRight(base, n)
  {
    hide StepsRight, WellPlaced, Good, PitchRight;
    GoodExact(base, pack);
  }

  /** A contiguous type over a base that is compiled rightly: one item, or a base with the right size. */
  lemma ContiguousExact(t: Datatype, pack: bool, n: int, inbuf: int, outbuf: int)
    requires t.Contiguous? && Positive(t) && Fits(t) && Good(t.base, pack) && n >= 1 && |Copies(t, n)| <= W
    ensures Right(t, pack, n, inbuf, outbuf) <==> n == 1 || Sized(t.base)
  {
    hide Good, Right, Copies, Size, Extent, Lb, Ub;
    GoodBaseSteps(t.base, pack, t.count);
    StepsExact(t, pack, n, inbuf, outbuf);
  }

  /** A vector or hvector: one block of one item, or a base with the right size. */
  lemma VectorExact(t: Datatype, pack: bool, n: int, inbuf: int, outbuf: int)
    requires (t.Vector? || t.HVector?) && Positive(t) && Fits(t) && Good(t.base, pack)
    requires n >= 1 && |Copies(t, n)| <= W
    ensures Right(t, pack, n, inbuf, outbuf) <==> Sized(t.base) || (t.count == 1 && n == 1)
  {
    hide Good, Right, Copies, Size, Extent, Lb, Ub;
    GoodBaseSteps(t.base, pack, t.blocklen);
    StepsExact(t, pack, n, inbuf, outbuf);
  }

  /** At most one block is not empty. */
  predicate OneBlock(fields: seq<Field>) {
    forall i, j :: 0 <= i < j < |fields| ==> fields[i].blocklen == 0 || fields[j].blocklen == 0
  }

  lemma {:induction false} UniformSteps(fields: seq<Field>, base: Datatype)
    requires forall i :: 0 <= i < |fields| ==> fields[i].typ == base
    requires forall i :: 0 <= i < |fields| ==> StepsRight(base, fields[i].blocklen)
    ensures FieldsRight(fields) <==> Sized(base) || OneBlock(fields)
  {
    hide Sized, StepsRight, Height, FieldsHeight;
    if fields != [] {
      UniformSteps(fields[1..], base);
      assert forall i :: 0 < i < |fields| ==> fields[i] == fields[1..][i - 1];
      assert StepsRight(base, fields[0].blocklen);
      if AllEmpty(fields[1..]) { assert forall i :: 0 < i < |fields| ==> fields[i].blocklen == 0; }
      if OneBlock(fields) && fields[0].blocklen != 0 {
        forall i | 0 <= i < |fields[1..]| ensures fields[1..][i].blocklen == 0 { assert fields[i + 1].blocklen == 0; }
      }
      if OneBlock(fields) {
        forall i, j | 0 <= i < j < |fields[1..]| ensures fields[1..][i].blocklen == 0 || fields[1..][j].blocklen == 0 {
          assert fields[i + 1].blocklen == 0 || fields[j + 1].blocklen == 0;
        }
      }
    }
  }

  /** An hindexed type: a single nonempty block of one item, or a base with the right size. */
  lemma HIndexedStepsExact(t: Datatype, pack: bool, n: int, inbuf: int, outbuf: int)
    requires t.HIndexed? && Positive(t) && Fits(t) && Good(t.base, pack) && n >= 1 && |Copies(t, n)| <= W
    ensures Right(t, pack, n, inbuf, outbuf)
       <==> Sized(t.base) || (n == 1 && OneBlock(EntryFields(t.entries, t.base)))
  {
    hide Good, Right, Copies, Size, Extent, Lb, Ub, StepsRight, FieldsRight, Height, FieldsHeight;
    var fields := FieldsOf(t);
    GoodBaseSteps(t.base, pack, 1);
    forall i | 0 <= i < |fields| ensures StepsRight(t.base, fields[i].blocklen) {
      GoodBaseSteps(t.base, pack, fields[i].blocklen);
    }
    UniformSteps(fields, t.base);
    StepsExact(t, pack, n, inbuf, outbuf);
    IndexedSteps(t, n);
  }

  lemma IndexedSteps(t: Datatype, n: int)
    requires Indexed(t)
    ensures StepsRight(t, n) <==> FieldsRight(FieldsOf(t)) && (n == 1 || PitchRight(t))
  {
    hide FieldsRight, FieldsOf, PitchRight;
  }

  /** A struct of rightly compiled types: no nonempty block of a type with a wrong size is followed by
      another block, in its item or in the next. */
  predicate WrongSizeLast(fields: seq<Field>, n: int) {
    forall i :: 0 <= i < |fields| && fields[i].blocklen != 0 && !Sized(fields[i].typ) ==>
      n == 1 && AllEmpty(fields[i + 1..])
  }

  lemma {:induction false} StructSteps(fields: seq<Field>, pack: bool)
    requires PositiveFields(fields) && FieldsFit(fields)
    requires forall i :: 0 <= i < |fields| ==> Good(fields[i].typ, pack)
    ensures FieldsPlaced(fields, pack) && (FieldsRight(fields) <==> WrongSizeLast(fields, 1))
    ensures FieldsRight(fields) && SizedFields(fields) <==> WrongSizeLast(fields, 2)
    decreases fields
  {
    hide Good, Sized, StepsRight, Height, FieldsHeight, WellPlaced, Size, Extent, WrongSizeLast, AllEmpty,
         Positive, Fits;
    if fields != [] {
      var f, rest := fields[0], fields[1..];
      GoodBaseSteps(f.typ, pack, f.blocklen);
      assert forall i :: 0 <= i < |rest| ==> rest[i] == fields[i + 1];
      StructSteps(rest, pack);
      EmptyIsSized(f);
      FirstWrongSize(fields, 1);
      FirstWrongSize(fields, 2);
    } else {
      NoWrongSize();
    }
  }

  lemma NoWrongSize()
    ensures WrongSizeLast([], 1) && WrongSizeLast([], 2)
  {}

  /** The condition, field by field. */
  lemma FirstWrongSize(fields: seq<Field>, n: int)
    requires fields != []
    ensures var f, rest := fields[0], fields[1..];
      WrongSizeLast(fields, n) <==>
        WrongSizeLast(rest, n) && (f.blocklen != 0 && !Sized(f.typ) ==> n == 1 && AllEmpty(rest))
  {
    hide Sized, AllEmpty;
    var f, rest := fields[0], fields[1..];
    forall i | 0 < i < |fields| ensures fields[i] == rest[i - 1] && fields[i + 1..] == rest[i..] {}
    if WrongSizeLast(fields, n) {
      forall i | 0 <= i < |rest| && rest[i].blocklen != 0 && !Sized(rest[i].typ)
        ensures n == 1 && AllEmpty(rest[i + 1..])
      {
        assert fields[i + 1] == rest[i] && fields[i + 2..] == rest[i + 1..];
      }
    }
  }

  lemma EmptyIsSized(f: Field)
    requires CountOk(f.typ, f.blocklen)
    ensures f.blocklen == 0 ==> Sized(f.typ)
  {}

  lemma StructStepsExact(t: Datatype, pack: bool, n: int, inbuf: int, outbuf: int)
    requires t.Struct? && Positive(t) && Fits(t) && n >= 1 && |Copies(t, n)| <= W
    requires forall i :: 0 <= i < |t.fields| ==> Good(t.fields[i].typ, pack)
    ensures Right(t, pack, n, inbuf, outbuf) <==> WrongSizeLast(t.fields, n)
  {
    hide Good, Right, Copies, Size, Extent, Lb, Ub, StepsRight, FieldsRight, FieldsPlaced, Height, FieldsHeight,
         SizedFields, FieldsFit, PositiveFields;
    StructSteps(t.fields, pack);
    StepsExact(t, pack, n, inbuf, outbuf);
    IndexedSteps(t, n);
    if n > 1 { assert WrongSizeLast(t.fields, n) <==> WrongSizeLast(t.fields, 2); }
  }

  /** vec(2 1 3)[idxb(2: 0)[int]]: each block has eight bytes, the packed pointer advances by four. */
  lemma VectorCounterexample(inbuf: int, outbuf: int)
    ensures var t := Vector(2, 1, 3, IndexedBlock(2, [0], Primitive(INT)));
      && Positive(t) && Fits(t) && WellPlaced(t, true) && !Good(t, true) && Size(t) == 8 && |Map(t)| == 16
      && !Right(t, true, 1, inbuf, outbuf)
  {
    hide Right;
    var int4 := Primitive(INT);
    var base := IndexedBlock(2, [0], int4);
    var t := Vector(2, 1, 3, base);
    assert Map(int4) == [0, 1, 2, 3];
    CopiesLength(int4, 2);
    BlocksMapLength([0], 4, Copies(int4, 2));
    CopiesLength(base, 1);
    RepLength(Copies(base, 1), 24, 2);
    assert Scaled([0], 4) == [0] && ScaledEnds([0], 2, 4) == [8];
    assert MinFrom(0, [0][..0]) == 0 && MaxFrom(8, [8][..0]) == 8;
    assert Extent(base) == 8;
    CopiesLength(t, 1);
    assert forall d <- base.displs :: d == 0;
    VectorExact(t, true, 1, inbuf, outbuf);
  }

  // ----- blocks at the wrong place -----

  lemma {:induction false} BlocksAt(displs: seq<int>, scale: int, block: seq<int>, q: int)
    requires 0 <= q < |displs| && block != []
    ensures 0 <= q * |block| < |BlocksMap(displs, scale, block)|
    ensures BlocksMap(displs, scale, block)[q * |block|] == block[0] + displs[q] * scale
  {
    BlocksMapLength(displs[1..], scale, block);
    if q > 0 {
      BlocksAt(displs[1..], scale, block, q - 1);
      MulDistributes(q, 1, |block|);
    }
  }

  /** Where the transfers agree, the data side agrees address by address. */
  lemma DataAgrees(pack: bool, r: seq<Hop>, walk: seq<int>, tm: seq<int>, inbuf: int, outbuf: int, i: int)
    requires Behind(pack, r, walk) && Along(r, inbuf, outbuf) == Moves(pack, tm, inbuf, outbuf)
    requires 0 <= i < |walk|
    ensures |walk| == |tm| && (if pack then Addr(inbuf, walk[i]) == Addr(inbuf, tm[i])
                               else Addr(outbuf, walk[i]) == Addr(outbuf, tm[i]))
  {
    var a, b := Along(r, inbuf, outbuf), Moves(pack, tm, inbuf, outbuf);
    assert |a| == |r| && |b| == |tm|;
    assert a[i] == b[i];
  }

  /** Offsets less than an address space apart are equal if they give the same address. */
  lemma NearAddresses(z: int, a: int, b: int)
    requires Addr(z, a) == Addr(z, b) && -W < a - b < W
    ensures a == b
  {
    if a >= b { WrapInjective(z + b, a - b, 0); } else { WrapInjective(z + a, b - a, 0); }
  }

  lemma FirstItem(tm: seq<int>, step: int, n: int, i: int)
    requires n >= 1 && 0 <= i < |tm|
    ensures i < |Rep(tm, step, n)| && Rep(tm, step, n)[i] == tm[i]
  {
    RepAt(tm, step, n, 0, i);
  }

  /** Blocks of the same base placed at `places` instead of displs * scale: if n items are right, all the
      places are. */
  lemma WrongPlace(pack: bool, r: seq<Hop>, places: seq<int>, displs: seq<int>, scale: int, block: seq<int>,
                   extent: int, n: int, inbuf: int, outbuf: int, q: int)
    requires n >= 1 && block != [] && |places| == |displs| && 0 <= q < |displs|
    requires Behind(pack, r, Rep(BlocksMap(places, 1, block), extent, n))
    requires Along(r, inbuf, outbuf) == Moves(pack, Rep(BlocksMap(displs, scale, block), extent, n), inbuf, outbuf)
    requires -W < places[q] - displs[q] * scale < W
    ensures places[q] == displs[q] * scale
  {
    hide Behind, Along, Moves, Rep;
    var i := q * |block|;
    BlocksAt(places, 1, block, q);
    BlocksAt(displs, scale, block, q);
    FirstItem(BlocksMap(places, 1, block), extent, n, i);
    FirstItem(BlocksMap(displs, scale, block), extent, n, i);
    DataAgrees(pack, r, Rep(BlocksMap(places, 1, block), extent, n), Rep(BlocksMap(displs, scale, block), extent, n),
               inbuf, outbuf, i);
    NearAddresses(if pack then inbuf else outbuf, block[0] + places[q], block[0] + displs[q] * scale);
  }

  /** The route of an indexed type over a rightly compiled base, wherever its blocks are. */
  lemma UniformWalk(t: Datatype, pack: bool, places: seq<int>, n: int)
    requires t.IndexedBlock? && Positive(t) && Fits(t) && Good(t.base, pack) && n >= 1
    requires FieldsOf(t) == BlockFields(places, 1, t.blocklen, t.base) && |places| >= 1
    ensures Behind(pack, RouteCopies(t, pack, n), Rep(BlocksMap(places, 1, Copies(t.base, t.blocklen)), Extent(t), n))
    ensures Copies(t.base, t.blocklen) != []
  {
    hide Good, Behind, Exact, Extent, Size, BlocksMap, StepsRight, FieldsRight, Copies, FieldsRoute, BlockBehind, Lags,
         FieldsMap, Fits;
    BaseParts(t);
    GoodIsPlaced(t.base, pack);
    PlacedLags(t.base, pack);
    var fields := FieldsOf(t);
    forall i | 0 <= i < |fields| ensures BlockBehind(fields[i], pack) { LagsBlock(fields[i], pack); }
    FieldsBehind(fields, pack);
    BlockFieldsMap(places, 1, t.blocklen, t.base);
    LagsCopies(t.base, pack, t.blocklen);
    SomePlace(places, t.blocklen, t.base);
    IndexedPitch(t, pack, n);
    BehindLaps(pack, FieldsRoute(fields, pack), FieldsMap(fields), Extent(t), FieldsSize(fields), n);
  }

  lemma IndexedBlockCopies(t: Datatype, n: int)
    requires t.IndexedBlock?
    ensures Copies(t, n) == Rep(BlocksMap(t.displs, Extent(t.base), Copies(t.base, t.blocklen)), Extent(t), n)
  {
    hide Rep, BlocksMap;
  }

  lemma BaseParts(t: Datatype)
    requires t.IndexedBlock? && Positive(t) && Fits(t)
    ensures Positive(t.base) && Fits(t.base) && t.blocklen >= 1
  {}

  lemma SomePlace(places: seq<int>, blocklen: int, base: Datatype)
    requires blocklen >= 1 && |places| >= 1
    ensures !AllEmpty(BlockFields(places, 1, blocklen, base))
  {
    assert BlockFields(places, 1, blocklen, base)[0].blocklen == blocklen;
  }

  lemma IndexedPitch(t: Datatype, pack: bool, n: int)
    requires Indexed(t)
    ensures RouteCopies(t, pack, n)
         == Laps(FieldsRoute(FieldsOf(t), pack), OutStep(pack, Extent(t), FieldsSize(FieldsOf(t))),
                 InStep(pack, Extent(t), FieldsSize(FieldsOf(t))), n)
  {
    hide FieldsRoute, FieldsOf, FieldsSize, Extent, Laps;
  }

  // ----- short indexed blocks: displacements scaled by the size -----

  predicate Short(t: Datatype) { t.IndexedBlock? && |t.displs| <= IDXB_LOOP_THRESHOLD }

  lemma UnrolledPlaces(t: Datatype)
    requires Short(t)
    ensures FieldsOf(t) == BlockFields(Scaled(t.displs, Size(t.base)), 1, t.blocklen, t.base)
  {}

  lemma FactorsAgree(d: int, a: int, b: int)
    ensures d * a == d * b <==> a == b || d == 0
  {
    MulDistributes(a, b, d);
    MulPositive(if a > b then a - b else 1, if d > 0 then d else 1);
    MulPositive(if a < b then b - a else 1, if d > 0 then d else 1);
    MulPositive(if a > b then a - b else 1, if d < 0 then -d else 1);
    MulPositive(if a < b then b - a else 1, if d < 0 then -d else 1);
  }

  lemma BoundedProduct(d: int, s: int, e: int)
    requires Int32(d) && 1 <= s <= INT32_MAX && 1 <= e <= INT32_MAX
    ensures -W < d * s - d * e < W
  {
    MulNonNegative(d + 0x8000_0000, s); MulNonNegative(INT32_MAX - d, s);
    MulNonNegative(d + 0x8000_0000, e); MulNonNegative(INT32_MAX - d, e);
    MulDistributes(d, -0x8000_0000, s); MulDistributes(INT32_MAX, d, s);
    MulDistributes(d, -0x8000_0000, e); MulDistributes(INT32_MAX, d, e);
  }

  lemma ShortParts(t: Datatype)
    requires Short(t) && Positive(t) && Fits(t)
    ensures 1 <= Size(t.base) <= INT32_MAX && 1 <= Extent(t.base) <= INT32_MAX && |t.displs| >= 1
    ensures forall q :: 0 <= q < |t.displs| ==> Int32(t.displs[q])
    ensures t.blocklen >= 1 && Positive(t.base) && Fits(t.base)
  {
    SizeAndExtentPositive(t.base);
    assert forall q :: 0 <= q < |t.displs| ==> t.displs[q] in t.displs;
  }

  /** A misplaced block shows, for any number of items. */
  lemma WrongScale(t: Datatype, pack: bool, n: int, inbuf: int, outbuf: int)
    requires Short(t) && Positive(t) && Fits(t) && Good(t.base, pack) && n >= 1 && Right(t, pack, n, inbuf, outbuf)
    ensures Size(t.base) == Extent(t.base) || AllZero(t.displs)
  {
    hide Good, Extent, Size, Positive, Fits, BlocksMap, RouteCopies, FieldsOf, Along, Moves, Behind;
    ShortParts(t);
    UnrolledPlaces(t);
    var places := Scaled(t.displs, Size(t.base));
    UniformWalk(t, pack, places, n);
    IndexedBlockCopies(t, n);
    forall q | 0 <= q < |t.displs| ensures t.displs[q] == 0 || Size(t.base) == Extent(t.base) {
      BoundedProduct(t.displs[q], Size(t.base), Extent(t.base));
      WrongPlace(pack, RouteCopies(t, pack, n), places, t.displs, Extent(t.base), Copies(t.base, t.blocklen),
                 Extent(t), n, inbuf, outbuf, q);
      FactorsAgree(t.displs[q], Size(t.base), Extent(t.base));
    }
  }

  /** A short indexed block over a rightly compiled base is right if and only if its blocks are placed right,
      that is the base's size is its extent or all displacements are zero, and their sizes are right: the base
      has the right size, or there is one block and one item. */
  lemma ShortExact(t: Datatype, pack: bool, n: int, inbuf: int, outbuf: int)
    requires Short(t) && Positive(t) && Fits(t) && Good(t.base, pack) && n >= 1 && |Copies(t, n)| <= W
    ensures Right(t, pack, n, inbuf, outbuf)
       <==> (Size(t.base) == Extent(t.base) || AllZero(t.displs)) && (Sized(t.base) || (n == 1 && |t.displs| == 1))
  {
    hide Good, Right, Copies, Size, Extent, Lb, Ub, StepsRight, FieldsRight, Height, FieldsHeight;
    if Size(t.base) == Extent(t.base) || AllZero(t.displs) {
      var fields := FieldsOf(t);
      GoodBaseSteps(t.base, pack, t.blocklen);
      assert WellPlaced(t, pack);
      UniformSteps(fields, t.base);
      StepsExact(t, pack, n, inbuf, outbuf);
      IndexedSteps(t, n);
      assert OneBlock(fields) <==> |t.displs| == 1 by {
        if |t.displs| > 1 { assert fields[0].blocklen != 0 && fields[1].blocklen != 0; }
      }
    } else if Right(t, pack, n, inbuf, outbuf) {
      WrongScale(t, pack, n, inbuf, outbuf);
    }
  }

  /** idxb(1: 1)[vec(2 1 2)[char]]: the block lies at byte 3, the code looks at byte 2. */
  lemma UnrolledCounterexample(pack: bool, inbuf: int, outbuf: int)
    ensures var t := IndexedBlock(1, [1], Vector(2, 1, 2, Primitive(CHAR)));
      && Positive(t) && Fits(t) && Map(t) == [3, 5] && RouteCopies(t, pack, 1) == Way(pack, [2, 4])
      && !Right(t, pack, 1, inbuf, outbuf)
  {
    hide Right, Positive, Fits, Good, Size, Extent, Lb, Ub, Map, Route, RouteCopies;
    var v := Vector(2, 1, 2, Primitive(CHAR));
    var t := IndexedBlock(1, [1], v);
    EveryOtherChar(v, pack);
    OneBlockOfThem(t, pack);
    RepOne(Map(t), Extent(t));
    assert Copies(t, 1) == Map(t);
    ShortExact(t, pack, 1, inbuf, outbuf);
    assert t.displs[0] == 1;
  }

  lemma EveryOtherChar(v: Datatype, pack: bool)
    requires v == Vector(2, 1, 2, Primitive(CHAR))
    ensures Positive(v) && Fits(v) && Good(v, pack) && Size(v) == 2 && Extent(v) == 3 && Lb(v) == 0 && Ub(v) == 3
    ensures Map(v) == [0, 2] && Copies(v, 1) == [0, 2] && RouteCopies(v, pack, 1) == Way(pack, [0, 2])
  {
    hide Route, RouteCopies, Map, Lb, Ub, Copies, Good, Fits, Positive;
    TwoChars(v, pack);
    GoodIsFaithful(v, pack);
    FaithfulCopies(v, pack, 1);
  }

  lemma TwoChars(v: Datatype, pack: bool)
    requires v == Vector(2, 1, 2, Primitive(CHAR))
    ensures Positive(v) && Fits(v) && Good(v, pack) && Size(v) == 2 && Extent(v) == 3 && Lb(v) == 0 && Ub(v) == 3
    ensures Map(v) == [0, 2] && Copies(v, 1) == [0, 2]
  {
    hide Rep, Positive, Fits, Good, Map, Size, Extent, Lb, Ub, Copies;
    OneChar();
    TwoOf(v, pack);
    assert Copies(v, 1) == Rep(Map(v), 3, 1) by { ItemsAreRep(v, 1); }
    RepOne([0, 2], 3);
  }

  lemma ItemsAreRep(t: Datatype, n: int)
    ensures Copies(t, n) == Rep(Map(t), Extent(t), n)
  {}

  lemma OneChar()
    ensures var c := Primitive(CHAR);
      && Positive(c) && Fits(c) && Size(c) == 1 && Lb(c) == 0 && Ub(c) == 1 && Extent(c) == 1 && Map(c) == [0]
      && Sized(c) && forall pack :: Good(c, pack)
  {}

  lemma TwoOf(v: Datatype, pack: bool)
    requires v.Vector? && v.count == 2 && v.blocklen == 1 && v.stride == 2 && Positive(v.base) && Fits(v.base)
    requires Size(v.base) == 1 && Lb(v.base) == 0 && Ub(v.base) == 1 && Map(v.base) == [0] && Sized(v.base)
    requires Good(v.base, pack)
    ensures Positive(v) && Fits(v) && Good(v, pack) && Size(v) == 2 && Extent(v) == 3 && Lb(v) == 0 && Ub(v) == 3
    ensures Map(v) == [0, 2]
  {
    hide Rep;
    RepOne([0], 1);
    RepTwo([0], 2);
  }

  lemma RepTwo(tm: seq<int>, step: int)
    ensures Rep(tm, step, 2) == tm + Shift(tm, step)
  {
    RepOne(tm, step);
  }

  lemma OneBlockOfThem(t: Datatype, pack: bool)
    requires t == IndexedBlock(1, [1], Vector(2, 1, 2, Primitive(CHAR)))
    ensures Positive(t) && Fits(t) && Map(t) == [3, 5] && RouteCopies(t, pack, 1) == Way(pack, [2, 4])
  {
    hide Good, Route, Laps;
    EveryOtherChar(t.base, pack);
    OneBlockFits(t);
    var field := Field(2, 1, t.base);
    assert FieldsOf(t) == [field] by { assert Scaled([1], 2) == [2]; }
    OneFieldRoute(field, pack);
    WayShift(pack, [0, 2], 2);
    assert Shift([0, 2], 2) == [2, 4];
    RouteOfOneItem(t, pack);
  }

  lemma OneBlockFits(t: Datatype)
    requires t.IndexedBlock? && t.blocklen == 1 && t.displs == [1] && Positive(t.base) && Fits(t.base)
    requires Size(t.base) == 2 && Extent(t.base) == 3 && Copies(t.base, 1) == [0, 2]
    ensures Positive(t) && Fits(t) && Map(t) == [3, 5]
  {
    hide Copies;
    assert BlocksMap([1][1..], 3, [0, 2]) == [];
    assert Scaled([1], 3) == [3] && ScaledEnds([1], 1, 3) == [6];
    assert MinFrom(1, [3][..0]) == 1 && MaxFrom(4, [6][..0]) == 4;
  }

  lemma OneFieldRoute(f: Field, pack: bool)
    ensures FieldsRoute([f], pack)
         == Slide(RouteCopies(f.typ, pack, f.blocklen), OutStep(pack, f.displ, 0), InStep(pack, f.displ, 0))
  {
    hide RouteCopies, Size;
    assert FieldsRoute([f][1..], pack) == [];
  }

  lemma RouteOfOneItem(t: Datatype, pack: bool)
    requires Indexed(t)
    ensures RouteCopies(t, pack, 1) == FieldsRoute(FieldsOf(t), pack)
  {
    hide FieldsRoute, FieldsOf, OutPitch, InPitch;
    var r, to, from := Route(t, pack), OutPitch(t, pack), InPitch(t, pack);
    assert Laps(r, to, from, 0) == [];
    assert Laps(r, to, from, 1) == r;
  }

  // ----- long indexed blocks: zero-extended displacements, and an exit test without block length -----

  predicate Long(t: Datatype) {
    && Tabled(t) && t.base.Primitive?
    && !UsesCopyLoop(if t.blocklen >= 0 then t.blocklen else 0, PrimitiveSize(t.base.prim))
  }

  /** Packed bytes of one pass. */
  function PassSize(t: Datatype): int
    requires Tabled(t)
  {
    t.blocklen * Size(t)
  }

  lemma LongParts(t: Datatype)
    requires Long(t) && Positive(t) && Fits(t)
    ensures TableOk(t.base, t.blocklen, DisplacementTable(t.displs, t.base)) && Emittable(t.base)
    ensures RowSize(DisplacementTable(t.displs, t.base), t.blocklen, t.base) == PassSize(t)
    ensures 1 <= Size(t) <= INT32_MAX && 1 <= Extent(t) <= INT32_MAX && 1 <= t.blocklen <= INT32_MAX
    ensures 1 <= PassSize(t) < W
  {
    RowIsBlocks(t);
    ExtentInRange(t);
    MulPositive(t.blocklen, Size(t));
    BelowW(t.blocklen, Size(t));
  }

  lemma BelowW(a: int, b: int)
    requires 1 <= a <= INT32_MAX && 1 <= b <= INT32_MAX
    ensures a * b < W
  {
    MulNonNegative(INT32_MAX - a, b);
    MulDistributes(INT32_MAX, a, b);
  }

  /** The exit test of the outer loop succeeds after pass k. */
  predicate StopsAfter(t: Datatype, c: int, n: nat, k: nat)
    requires Tabled(t) && PassSize(t) >= 0 && Size(t) >= 0
  {
    StopsAt(c, PassSize(t), Size(t), n, k)
  }

  /** After k passes the test succeeds if and only if k * blocklen is the count, as long as the bytes of k passes
      do not fill the address space. */
  lemma StopsAfterExact(t: Datatype, c: int, n: nat, k: nat)
    requires Long(t) && Positive(t) && Fits(t) && n < W32 && k * PassSize(t) < W
    ensures PassSize(t) >= 0 && Size(t) >= 0
    ensures StopsAfter(t, c, n, k) <==> k * t.blocklen == n
  {
    hide Long, Positive, Fits, StopsAt, Size, Times;
    LongIsTabled(t);
    LongParts(t);
    TimesIsProduct(PassSize(t), k);
    StopsAtExact(c, t.blocklen, Size(t), n, k);
  }

  lemma PassesBelow(s: int, k: int, m: int)
    requires 0 <= k <= m && s >= 0 && m * s < W
    ensures k * s < W
  {
    MulNonNegative(m - k, s);
    MulDistributes(m, k, s);
  }

  /** What a call of the table code for m of its items needs. */
  lemma TableCall(t: Datatype, pack: bool, mem: Memory, inbuf: int, n: int, outbuf: int, m: nat) returns (conf: Conf)
    requires Long(t) && Positive(t) && Fits(t) && Buffers(inbuf, n, outbuf)
    requires Ready(mem, Along(RouteCopies(t, pack, m), inbuf, outbuf))
    ensures conf == Start(mem, inbuf, n, outbuf) && conf.mem == mem
    ensures Extent(t) >= 0 && Size(t) >= 0
    ensures TableCalled(Function(t, pack), ENTRY, pack, Reg(0), Reg(1), Reg(2), Extent(t), Size(t), t.blocklen, t.base,
                        DisplacementTable(t.displs, t.base), m, conf)
    ensures Def(conf.regs, Reg(0)) && Def(conf.regs, Reg(1)) && Def(conf.regs, Reg(2))
    ensures Ev(conf.regs, Reg(0)) == inbuf && Ev(conf.regs, Reg(1)) == n && Ev(conf.regs, Reg(2)) == outbuf
    ensures RouteCopies(t, pack, m)
         == ExecTable.Items(DisplacementTable(t.displs, t.base), t.blocklen, t.base, pack, Extent(t), m)
    ensures Emit(t, pack, ENTRY, Reg(0), Reg(1), Reg(2))
         == EmitTable(ENTRY, pack, Reg(0), Reg(1), Reg(2), Extent(t), Size(t), t.blocklen, t.base,
                      DisplacementTable(t.displs, t.base))
  {
    hide Long, Positive, Fits, Ready, Along, RouteCopies, Emit, EmitTable, Finish, Le, Runs, TableOk, RowSize, Size,
         Extent, DisplacementTable, Emittable, ExecTable.Items, Start, Args, Usable;
    conf := Start(mem, inbuf, n, outbuf);
    LongParts(t);
    LongIsTabled(t);
    EmitTableCase(t, pack, ENTRY, Reg(0), Reg(1), Reg(2));
    TableCopies(t, pack, m);
    FinishContains(Emit(t, pack, ENTRY, Reg(0), Reg(1), Reg(2)));
    StartArgs(mem, inbuf, n, outbuf);
    ArgsOf(conf.regs, 3, Reg(0), Reg(1), Reg(2));
    StartMemory(mem, inbuf, n, outbuf);
    EmitRuns(Function(t, pack), t.base, pack);
  }

  lemma LongIsTabled(t: Datatype)
    requires Long(t)
    ensures Tabled(t)
  {}

  /** Asked for blocklen * m items, the table loop stops after m. */
  lemma TablePerforms(t: Datatype, pack: bool, mem: Memory, inbuf: int, n: int, outbuf: int, m: int)
    requires Long(t) && Positive(t) && Fits(t) && Buffers(inbuf, n, outbuf) && m >= 1 && m * t.blocklen == n
    requires Ready(mem, Along(RouteCopies(t, pack, m), inbuf, outbuf))
    ensures Reaches(Function(t, pack), Call(mem, inbuf, n, outbuf),
                    Returned(Copy(mem, Along(RouteCopies(t, pack, m), inbuf, outbuf))))
  {
    hide Long, Positive, Fits, Ready, Along, RouteCopies, Emit, EmitTable, TableCalled, Size, Extent, StopsAt,
         DisplacementTable, ExecTable.Items, Start, RowSize, Copy, Finish, Done;
    LongParts(t);
    LongIsTabled(t);
    var conf := TableCall(t, pack, mem, inbuf, n, outbuf, m);
    var c := Ev(conf.regs, CompactOf(pack, Reg(0), Reg(2)));
    PassesOfCount(t, m, n);
    forall k: nat | 1 <= k <= m ensures StopsAt(c, PassSize(t), Size(t), n, k) <==> k == m {
      PassesBelow(PassSize(t), k, m);
      StopsAfterExact(t, c, n, k);
      if k < m { MulPositive(m - k, t.blocklen); MulDistributes(m, k, t.blocklen); }
    }
    var conf' := TableStops(Function(t, pack), ENTRY, pack, Reg(0), Reg(1), Reg(2), Extent(t), Size(t), t.blocklen,
                            t.base, DisplacementTable(t.displs, t.base), m, conf);
    FinishReturns(Emit(t, pack, ENTRY, Reg(0), Reg(1), Reg(2)), mem, inbuf, n, outbuf, conf',
                  Along(RouteCopies(t, pack, m), inbuf, outbuf));
  }

  /** m passes of b items of s bytes stay below the size of the address space. */
  lemma PassesOfCount(t: Datatype, m: int, n: int)
    requires Tabled(t) && 1 <= Size(t) <= INT32_MAX && 0 <= n < W32 && m * t.blocklen == n
    ensures m * PassSize(t) < W
  {
    MulAssoc(m, t.blocklen, Size(t));
    MulNonNegative(W32 - 1 - n, Size(t));
    MulDistributes(W32 - 1, n, Size(t));
  }

  /** Asked for n items, the run is back at the head of the outer loop after every pass k with exactly k items
      transferred, as long as no k * blocklen has been the count: it has missed its exit if k exceeds n. */
  lemma TableGoesOnFor(t: Datatype, pack: bool, mem: Memory, inbuf: int, n: int, outbuf: int, m: nat)
    returns (conf': Conf)
    requires Long(t) && Positive(t) && Fits(t) && Buffers(inbuf, n, outbuf) && m * PassSize(t) < W
    requires forall k: nat :: 1 <= k <= m ==> k * t.blocklen != n
    requires Ready(mem, Along(RouteCopies(t, pack, m), inbuf, outbuf))
    ensures Reaches(Function(t, pack), Call(mem, inbuf, n, outbuf),
                    At(TableHead(ENTRY, pack, Reg(0), Reg(1), Reg(2), Size(t)), conf'))
    ensures conf'.mem == Copy(mem, Along(RouteCopies(t, pack, m), inbuf, outbuf))
  {
    hide Long, Positive, Fits, Ready, Along, RouteCopies, Emit, EmitTable, TableCalled, Size, Extent, StopsAt,
         DisplacementTable, ExecTable.Items, Start, RowSize, Copy, Finish, TableHead, Reaches;
    LongParts(t);
    LongIsTabled(t);
    var conf := TableCall(t, pack, mem, inbuf, n, outbuf, m);
    var c := Ev(conf.regs, CompactOf(pack, Reg(0), Reg(2)));
    forall k: nat | 1 <= k <= m ensures !StopsAt(c, PassSize(t), Size(t), n, k) {
      assert k * t.blocklen != n;
      PassesBelow(PassSize(t), k, m);
      StopsAfterExact(t, c, n, k);
    }
    conf' := TableGoesOn(Function(t, pack), ENTRY, pack, Reg(0), Reg(1), Reg(2), Extent(t), Size(t), t.blocklen,
                         t.base, DisplacementTable(t.displs, t.base), m, conf);
    StartIsCall(mem, inbuf, n, outbuf);
  }

  lemma StartIsCall(mem: Memory, inbuf: int, n: int, outbuf: int)
    ensures At(ENTRY, Start(mem, inbuf, n, outbuf)) == Call(mem, inbuf, n, outbuf)
  {}

  /** idxb with seventeen displacements and block length two, over double: asked for one item, the loop waits for
      its pointer to meet byte 136 and advances it by 272 each time. */
  lemma TableOverruns(displs: seq<int>, pack: bool, mem: Memory, inbuf: int, outbuf: int, m: nat) returns (conf': Conf)
    requires |displs| == 17 && forall i :: 0 <= i < |displs| ==> displs[i] == 2 * i
    requires m * 272 < W && 0 <= inbuf < W && 0 <= outbuf < W
    requires Ready(mem, Along(RouteCopies(IndexedBlock(2, displs, Primitive(DOUBLE)), pack, m), inbuf, outbuf))
    ensures var t := IndexedBlock(2, displs, Primitive(DOUBLE));
      && Positive(t) && Fits(t)
      && Reaches(Function(t, pack), Call(mem, inbuf, 1, outbuf),
                 At(TableHead(ENTRY, pack, Reg(0), Reg(1), Reg(2), Size(t)), conf'))
      && conf'.mem == Copy(mem, Along(RouteCopies(t, pack, m), inbuf, outbuf))
  {
    hide Ready, Along, RouteCopies, Emit, Finish, TableHead, Reaches, Copy;
    var t := IndexedBlock(2, displs, Primitive(DOUBLE));
    SeventeenFits(t);
    forall k: nat | 1 <= k <= m ensures k * 2 != 1 {}
    conf' := TableGoesOnFor(t, pack, mem, inbuf, 1, outbuf, m);
  }

  lemma SeventeenFits(t: Datatype)
    requires t.IndexedBlock? && t.blocklen == 2 && t.base == Primitive(DOUBLE) && |t.displs| == 17
    requires forall i :: 0 <= i < |t.displs| ==> t.displs[i] == 2 * i
    ensures Positive(t) && Fits(t) && Long(t) && PassSize(t) == 272
  {
    var s, e := Scaled(t.displs, 8), ScaledEnds(t.displs, 2, 8);
    MinFromIsLeast(t.displs[0], s);
    MaxFromIsGreatest(t.displs[0] + 16, e);
    assert forall i :: 0 <= i < |s| ==> 0 <= s[i] <= 256;
    assert forall i :: 0 <= i < |e| ==> 0 <= e[i] <= 272;
    assert Extent(t.base) == 8;
    assert 0 <= Lb(t) <= 256 && 0 <= Ub(t) <= 272;
  }

  lemma TablePlaces(t: Datatype)
    requires Tabled(t)
    ensures FieldsOf(t) == BlockFields(DisplacementTable(t.displs, t.base), 1, t.blocklen, t.base)
  {}

  lemma WordOfNegative(d: int, e: int)
    requires e >= 1 && Int32(d * e)
    ensures Wrap32(d * e) == d * e <==> d >= 0
  {
    if d >= 0 { MulNonNegative(d, e); } else { MulPositive(-d, e); assert (-d) * e == -(d * e); }
  }

  /** A block at a zero-extended displacement shows, for any number of items. */
  lemma WrongWord(t: Datatype, pack: bool, n: int, inbuf: int, outbuf: int)
    requires Long(t) && Positive(t) && Fits(t) && n >= 1 && Right(t, pack, n, inbuf, outbuf)
    ensures NoneNegative(t.displs)
  {
    hide Extent, Size, BlocksMap, RouteCopies, Along, Moves, Behind, FieldsOf;
    TablePlaces(t);
    SizeAndExtentPositive(t.base);
    var places := DisplacementTable(t.displs, t.base);
    UniformWalk(t, pack, places, n);
    IndexedBlockCopies(t, n);
    forall q | 0 <= q < |t.displs| ensures t.displs[q] >= 0 {
      assert t.displs[q] in t.displs;
      WrongPlace(pack, RouteCopies(t, pack, n), places, t.displs, Extent(t.base), Copies(t.base, t.blocklen),
                 Extent(t), n, inbuf, outbuf, q);
      WordOfNegative(t.displs[q], Extent(t.base));
    }
  }

  /** Asked for n items, the table loop does n. */
  ghost predicate DoesAll(t: Datatype, c: int, n: nat)
    requires Tabled(t) && PassSize(t) >= 0 && Size(t) >= 0
  {
    StopsAfter(t, c, n, n) && forall k: nat :: 1 <= k < n ==> !StopsAfter(t, c, n, k)
  }

  /** And as the typemap says. */
  ghost predicate TableRight(t: Datatype, pack: bool, n: nat, inbuf: int, outbuf: int)
    requires Tabled(t) && PassSize(t) >= 0 && Size(t) >= 0
  {
    DoesAll(t, if pack then outbuf else inbuf, n) && Right(t, pack, n, inbuf, outbuf)
  }

  /** The table code does n items as the typemap says if and only if the block length is one and no
      displacement is negative, whatever n. */
  lemma TableExact(t: Datatype, pack: bool, n: nat, inbuf: int, outbuf: int)
    requires Long(t) && Positive(t) && Fits(t) && 1 <= n < W32 && n * PassSize(t) < W
    ensures PassSize(t) >= 0 && Size(t) >= 0
    ensures TableRight(t, pack, n, inbuf, outbuf) <==> t.blocklen == 1 && NoneNegative(t.displs)
  {
    hide Positive, Fits, Right, Size, Extent, Lb, Ub, Long;
    var c := if pack then outbuf else inbuf;
    LongParts(t);
    LongIsTabled(t);
    if DoesAll(t, c, n) && Right(t, pack, n, inbuf, outbuf) {
      StopsAfterExact(t, c, n, n);
      CountItself(n, t.blocklen);
      WrongWord(t, pack, n, inbuf, outbuf);
    }
    if t.blocklen == 1 && NoneNegative(t.displs) {
      forall k: nat | 1 <= k <= n ensures StopsAfter(t, c, n, k) <==> k == n {
        PassesBelow(PassSize(t), k, n);
        StopsAfterExact(t, c, n, k);
      }
      LongGood(t, pack);
      GoodIsRight(t, pack, n, inbuf, outbuf);
    }
  }

  lemma CountItself(n: int, b: int)
    requires n >= 1 && b >= 1 && n * b == n
    ensures b == 1
  {
    MulPositive(n, if b > 1 then b - 1 else 1);
  }

  lemma LongGood(t: Datatype, pack: bool)
    requires Long(t) && t.blocklen == 1 && NoneNegative(t.displs)
    ensures Good(t, pack)
  {}

  /** So it is right for every count if and only if that holds; one item shows it otherwise. */
  lemma TableExactForAll(t: Datatype, pack: bool, inbuf: int, outbuf: int)
    requires Long(t) && Positive(t) && Fits(t)
    ensures PassSize(t) >= 0 && Size(t) >= 0
    ensures (forall n: nat :: 1 <= n < W32 ==> TableRight(t, pack, n, inbuf, outbuf))
       <==> t.blocklen == 1 && NoneNegative(t.displs)
  {
    hide Positive, Fits, Size, Long, TableRight;
    LongParts(t);
    LongIsTabled(t);
    if forall n: nat :: 1 <= n < W32 ==> TableRight(t, pack, n, inbuf, outbuf) {
      assert TableRight(t, pack, 1, inbuf, outbuf);
      TableExact(t, pack, 1, inbuf, outbuf);
    }
    if t.blocklen == 1 && NoneNegative(t.displs) {
      forall n: nat | 1 <= n < W32 ensures TableRight(t, pack, n, inbuf, outbuf) {
        PassesOfCount(t, n, n);
        TableExact(t, pack, n, inbuf, outbuf);
      }
    }
  }

  /** The other form of the generator, for the same tree. */
  function UnrolledForm(t: Datatype, pack: bool): seq<Block>
    requires t.IndexedBlock?
  {
    Finish(EmitIndexed(ENTRY, pack, Reg(0), Reg(1), Reg(2), Extent(t), UnrolledFields(t.blocklen, t.displs, t.base)))
  }

  /** Where the looped form is right, both forms of the generator leave the same memory. */
  lemma FormsAgree(t: Datatype, pack: bool, mem: Memory, inbuf: int, n: int, outbuf: int)
    requires Long(t) && Positive(t) && Fits(t) && t.blocklen == 1 && NoneNegative(t.displs)
    requires Buffers(inbuf, n, outbuf) && Ready(mem, Moves(pack, Copies(t, n), inbuf, outbuf))
    ensures Reaches(Function(t, pack), Call(mem, inbuf, n, outbuf),
                    Returned(Copy(mem, Moves(pack, Copies(t, n), inbuf, outbuf))))
    ensures Reaches(UnrolledForm(t, pack), Call(mem, inbuf, n, outbuf),
                    Returned(Copy(mem, Moves(pack, Copies(t, n), inbuf, outbuf))))
  {
    hide Ready, Moves, Copies, Copy, Function, UnrolledForm, Reaches, Size, Extent, Lb, Ub;
    LongGood(t, pack);
    EmittedFunctionRuns(t, pack, mem, inbuf, n, outbuf);
    UnrolledFormRuns(t, pack, mem, inbuf, n, outbuf);
  }

  /** The blocks the unrolled form visits are those of the table. */
  lemma SameBlocks(t: Datatype)
    requires Long(t) && Positive(t) && Fits(t) && NoneNegative(t.displs)
    ensures UnrolledFields(t.blocklen, t.displs, t.base) == FieldsOf(t)
  {
    hide Positive;
    assert Size(t.base) == Extent(t.base) >= 0;
    WordsAreScaled(t);
  }

  lemma UnrolledFormRuns(t: Datatype, pack: bool, mem: Memory, inbuf: int, n: int, outbuf: int)
    requires Long(t) && Positive(t) && Fits(t) && t.blocklen == 1 && NoneNegative(t.displs)
    requires Buffers(inbuf, n, outbuf) && Ready(mem, Moves(pack, Copies(t, n), inbuf, outbuf))
    ensures Reaches(UnrolledForm(t, pack), Call(mem, inbuf, n, outbuf),
                    Returned(Copy(mem, Moves(pack, Copies(t, n), inbuf, outbuf))))
  {
    hide Long, Positive, Fits, Ready, Moves, Copies, Copy, Along, RouteCopies, EmitIndexed, Finish, Le, Start, Args,
         Usable, Runs, Size, Extent, FieldsOf, FieldsRoute, FieldsSize, ExecIndexed.Items, UnrolledFields, Emittable,
         FieldsRun, Done, Reaches, Good;
    LongIsTabled(t);
    var fields := UnrolledFields(t.blocklen, t.displs, t.base);
    var b := EmitIndexed(ENTRY, pack, Reg(0), Reg(1), Reg(2), Extent(t), fields);
    var conf := Start(mem, inbuf, n, outbuf);
    LongParts(t);
    SameBlocks(t);
    LongGood(t, pack);
    GoodRoute(t, pack, n, inbuf, outbuf);
    IndexedCopies(t, pack, n);
    FinishContains(b);
    StartArgs(mem, inbuf, n, outbuf);
    StartMemory(mem, inbuf, n, outbuf);
    EmitRuns(Finish(b), t.base, pack);
    PrimitiveFieldsRun(Finish(b), t, pack);
    var conf' := IndexedRuns(Finish(b), ENTRY, pack, Reg(0), Reg(1), Reg(2), Extent(t), fields, conf);
    FinishReturns(b, mem, inbuf, n, outbuf, conf', Moves(pack, Copies(t, n), inbuf, outbuf));
  }

  lemma PrimitiveFieldsRun(p: seq<Block>, t: Datatype, pack: bool)
    requires Tabled(t) && 1 <= t.blocklen <= INT32_MAX && Runs(p, t.base, pack)
    ensures FieldsRun(p, FieldsOf(t), pack)
  {
    hide Runs;
  }

  // ----- resized types -----

  /** Over indexed, struct and resized types no code is emitted: nothing is ever packed, although
      there is at least one byte to pack. */
  lemma ResizedOverOthersDoesNothing(t: Datatype, pack: bool, mem: Memory, inbuf: int, n: int, outbuf: int)
    requires t.Resized? && (Indexed(t.base) || t.base.Resized?) && Buffers(inbuf, n, outbuf)
    ensures Reaches(Function(t, pack), Call(mem, inbuf, n, outbuf), Returned(mem))
    ensures Positive(t) ==> Copies(t, n) != []
  {
    hide Copies, Positive, Rep, Map, Emit, Finish;
    EmitOfResized(t, pack, ENTRY, Reg(0), Reg(1), Reg(2));
    StartMemory(mem, inbuf, n, outbuf);
    DoneNothing(Function(t, pack), ENTRY, Start(mem, inbuf, n, outbuf));
    FinishReturns(ENTRY, mem, inbuf, n, outbuf, Start(mem, inbuf, n, outbuf), []);
    if Positive(t) { ItemsNotEmpty(t, n); }
  }

  lemma ItemsNotEmpty(t: Datatype, n: int)
    requires Positive(t) && n >= 1
    ensures Copies(t, n) != []
  {
    MapNotEmpty(t);
    CopiesLength(t, n);
    MulPositive(n, |Map(t)|);
  }

  predicate Resizes(t: Datatype) { t.Resized? && (t.base.Primitive? || t.base.Contiguous?) }

  /** Over primitives and contiguous types the two functions are the same. */
  lemma ResizedSameFunction(t: Datatype)
    requires Resizes(t)
    ensures Function(t, false) == Function(t, true)
    ensures forall n :: RouteCopies(t, false, n) == RouteCopies(t, true, n)
  {
    hide Finish, EmitContiguous, EmitPrimitiveResized, Laps, RouteCopies, Route;
    EmitOfResized(t, false, ENTRY, Reg(0), Reg(1), Reg(2));
    EmitOfResized(t, true, ENTRY, Reg(0), Reg(1), Reg(2));
    forall n ensures RouteCopies(t, false, n) == RouteCopies(t, true, n) { ResizedSameRoute(t, n); }
  }

  lemma ResizedSameRoute(t: Datatype, n: int)
    requires Resizes(t)
    ensures RouteCopies(t, false, n) == RouteCopies(t, true, n)
  {
    hide Laps, Route, OutPitch, InPitch;
    RouteOfResized(t, false);
    RouteOfResized(t, true);
    ResizedCopies(t, false, n);
    ResizedCopies(t, true, n);
  }

  /** Both pack. */
  lemma ResizedPerforms(t: Datatype, pack: bool, mem: Memory, inbuf: int, n: int, outbuf: int)
    requires Resizes(t) && Positive(t) && Fits(t) && Good(t, true) && Buffers(inbuf, n, outbuf)
    requires Ready(mem, Moves(true, Copies(t, n), inbuf, outbuf))
    ensures Reaches(Function(t, pack), Call(mem, inbuf, n, outbuf),
                    Returned(Copy(mem, Moves(true, Copies(t, n), inbuf, outbuf))))
  {
    hide Ready, Moves, Copies, Copy, Function, Reaches, Good, Positive, Fits, RouteCopies;
    ResizedSameFunction(t);
    EmittedFunctionRuns(t, true, mem, inbuf, n, outbuf);
  }

  /** The typemap is, address by address, the bytes 0, 1, 2, ... */
  ghost predicate IsRun(tm: seq<int>) { forall p :: 0 <= p < |tm| ==> Wrap(tm[p]) == p }

  lemma RunBothWays(tm: seq<int>, inbuf: int, outbuf: int)
    requires |tm| <= W
    ensures Moves(true, tm, inbuf, outbuf) == Moves(false, tm, inbuf, outbuf) <==> IsRun(tm)
  {
    var a, b := Moves(true, tm, inbuf, outbuf), Moves(false, tm, inbuf, outbuf);
    if IsRun(tm) {
      forall p | 0 <= p < |tm| ensures a[p] == b[p] {
        assert Wrap(tm[p]) == p;
        WrapWrap(tm[p], inbuf); WrapWrap(tm[p], outbuf);
      }
    }
    if a == b {
      forall p | 0 <= p < |tm| ensures Wrap(tm[p]) == p {
        assert a[p] == b[p];
        WrapWrap(tm[p], outbuf);
        WrapInjective(outbuf, Wrap(tm[p]), p);
      }
    }
  }

  /** n copies of a typemap are a run if and only if one is, and the next begins where it ends. */
  lemma RepIsRun(tm: seq<int>, extent: int, n: int)
    requires n >= 1 && tm != [] && n * |tm| <= W && 1 <= extent < W
    ensures IsRun(Rep(tm, extent, n)) <==> IsRun(tm) && (n == 1 || extent == |tm|)
  {
    RepLength(tm, extent, n);
    if IsRun(Rep(tm, extent, n)) {
      forall p | 0 <= p < |tm| ensures Wrap(tm[p]) == p { FirstItem(tm, extent, n, p); }
      if n >= 2 {
        RepAt(tm, extent, n, 1, 0);
        MulNonNegative(n - 2, |tm|);
        MulDistributes(n, 2, |tm|);
        WrapWrap(tm[0], extent);
        assert Wrap(tm[0]) == 0;
        assert Wrap(extent) == extent;
      }
    }
    if IsRun(tm) && (n == 1 || extent == |tm|) {
      if n == 1 { RepOne(tm, extent); } else { RunRepeats(tm, n); }
    }
  }

  lemma RunGrows(tm: seq<int>, rest: seq<int>)
    requires IsRun(tm) && IsRun(rest) && |tm| + |rest| <= W
    ensures IsRun(tm + Shift(rest, |tm|))
  {
    var r := tm + Shift(rest, |tm|);
    forall p | 0 <= p < |r| ensures Wrap(r[p]) == p {
      if p < |tm| {
        assert Wrap(tm[p]) == p;
      } else {
        assert Wrap(rest[p - |tm|]) == p - |tm|;
        WrapWrap(rest[p - |tm|], |tm|);
      }
    }
  }

  lemma {:induction false} RunRepeats(tm: seq<int>, n: int)
    requires IsRun(tm) && n >= 0 && n * |tm| <= W
    ensures IsRun(Rep(tm, |tm|, n))
    decreases n
  {
    RepLength(tm, |tm|, n);
    if n > 0 {
      var rest := Rep(tm, |tm|, n - 1);
      MulDistributes(n, 1, |tm|);
      RunRepeats(tm, n - 1);
      RepLength(tm, |tm|, n - 1);
      RunGrows(tm, rest);
    }
  }

  /** Where packing is right, unpacking is right if and only if the base is a run of bytes and there is one
      item or the resizing changes nothing. */
  lemma ResizedUnpackExact(t: Datatype, n: int, inbuf: int, outbuf: int)
    requires Resizes(t) && Positive(t) && Fits(t) && Good(t, true) && n >= 1 && |Copies(t, n)| <= W
    ensures Right(t, false, n, inbuf, outbuf) <==> IsRun(Map(t.base)) && (n == 1 || t.extent == Size(t.base))
  {
    hide Along, Moves, Good, Rep, Size, IsRun, RouteCopies, Lb, Ub;
    GoodRoute(t, true, n, inbuf, outbuf);
    ResizedSameFunction(t);
    ResizedBase(t);
    CopiesLength(t, n);
    RunBothWays(Copies(t, n), inbuf, outbuf);
    RepIsRun(Map(t.base), t.extent, n);
  }

  lemma ResizedBase(t: Datatype)
    requires Resizes(t) && Positive(t) && Fits(t) && Good(t, true)
    ensures Map(t) == Map(t.base) && Map(t) != [] && |Map(t)| == Size(t.base) && Extent(t) == t.extent
    ensures 1 <= t.extent < W
  {
    MapNotEmpty(t.base);
    if t.base.Contiguous? { SizedBase(t.base); }
    SizeIsMapLength(t.base);
  }

  /** resized(0, 24)[ctg(2)[double]]: one item is unpacked, two are not. */
  lemma ResizedCounterexample(inbuf: int, outbuf: int)
    ensures var t := Resized(0, 24, Contiguous(2, Primitive(DOUBLE)));
      && Positive(t) && Fits(t) && Good(t, true) && !Good(t, false)
      && Right(t, false, 1, inbuf, outbuf) && !Right(t, false, 2, inbuf, outbuf)
  {
    hide Right, IsRun, Map, Copies, Good, Positive, Fits, Size, Extent, Resizes;
    var t := Resized(0, 24, Contiguous(2, Primitive(DOUBLE)));
    ResizedIsGood(t);
    ResizedItems(t);
    IotaIsRun(16);
    ResizedUnpackExact(t, 1, inbuf, outbuf);
    ResizedUnpackExact(t, 2, inbuf, outbuf);
  }

  lemma ResizedIsGood(t: Datatype)
    requires t == Resized(0, 24, Contiguous(2, Primitive(DOUBLE)))
    ensures Positive(t) && Fits(t) && Good(t, true) && !Good(t, false) && Resizes(t)
  {
    hide Map, Positive, Fits, Size, Extent, Lb, Ub, Good;
    TwoDoubles(t.base);
    ExtentOfResized(t);
    BoundsOfResized(t);
    ResizedIsWell(t);
    ResizedShape(t);
  }

  lemma BoundsOfResized(t: Datatype)
    requires t.Resized?
    ensures Lb(t) == t.lb && Ub(t) == t.lb + t.extent
  {}

  lemma ResizedShape(t: Datatype)
    requires Resizes(t) && t.base.Contiguous? && t.base.base.Primitive? && t.extent != Size(t.base)
    ensures Good(t, true) && !Good(t, false)
  {
    hide Size, Extent, Lb, Ub;
  }

  lemma ResizedIsWell(t: Datatype)
    requires t.Resized? && t.extent == Extent(t) == 24 && Size(t) == 16 && Lb(t) == 0 && Ub(t) == 24
    requires Positive(t.base) && Fits(t.base)
    ensures Positive(t) && Fits(t)
  {
    hide Map, Extent, Lb, Ub, Size;
  }

  lemma ResizedItems(t: Datatype)
    requires t == Resized(0, 24, Contiguous(2, Primitive(DOUBLE)))
    ensures Size(t.base) == 16 && Map(t.base) == Iota(16) && |Copies(t, 1)| == 16 && |Copies(t, 2)| == 32
  {
    hide Map, Copies, Positive, Fits, Size, Extent;
    TwoDoubles(t.base);
    ExtentOfResized(t);
    CopiesLength(t, 1);
    CopiesLength(t, 2);
  }

  lemma TwoDoubles(t: Datatype)
    requires t == Contiguous(2, Primitive(DOUBLE))
    ensures Positive(t) && Fits(t) && Size(t) == 16 && Map(t) == Iota(16)
  {
    assert Size(t.base) == 8 && Extent(t.base) == 8 && Lb(t.base) == 0;
    GapFreeMap(t);
  }

  lemma IotaIsRun(n: nat)
    requires n <= W
    ensures IsRun(Iota(n))
  {}

  // ----- sixteen displacements -----

  /** INDEXED BLOCKS OF AT MOST SIXTEEN DISPLACEMENTS are unrolled, and right for every number of items in both
      directions, whatever the block length and the displacements, if their base has no gaps outside or inside. */
  lemma SixteenAreRight(t: Datatype, pack: bool, n: int, inbuf: int, outbuf: int)
    requires t.IndexedBlock? && 1 <= |t.displs| <= 16 && Positive(t) && Fits(t)
    requires Good(t.base, pack) && Sized(t.base) && Size(t.base) == Extent(t.base)
    ensures Good(t, pack) && Right(t, pack, n, inbuf, outbuf)
  {
    hide Positive, Fits, Right, Size, Extent;
    GoodIsRight(t, pack, n, inbuf, outbuf);
  }

  /** From seventeen on they are looped over, and over primitives with a block length above one the loop is right for
      no number of items. */
  lemma SeventeenAreWrong(t: Datatype, pack: bool, n: nat, inbuf: int, outbuf: int)
    requires t.IndexedBlock? && |t.displs| >= 17 && Positive(t) && Fits(t) && t.base.Primitive? && t.blocklen >= 2
    requires !UsesCopyLoop(t.blocklen, PrimitiveSize(t.base.prim)) && 1 <= n < W32
    requires n * (t.blocklen * Size(t)) < W
    ensures Tabled(t) && PassSize(t) >= 0 && Size(t) >= 0 && !TableRight(t, pack, n, inbuf, outbuf)
    ensures !Good(t, pack)
  {
    hide Positive, Fits, TableRight, Size;
    LongParts(t);
    TableExact(t, pack, n, inbuf, outbuf);
  }

  /** A negative displacement is read 2^32 bytes further on. */
  lemma NegativeWord(t: Datatype, i: int)
    requires Tabled(t) && Positive(t) && Fits(t) && 0 <= i < |t.displs|
    ensures |FieldsOf(t)| == |t.displs|
    ensures FieldsOf(t)[i].displ
         == t.displs[i] * Extent(t.base) + (if t.displs[i] < 0 then 4294967296 else 0)
  {
    hide Positive, Fits, Extent, Wrap32, Int32;
    var d, e := t.displs[i], Extent(t.base);
    ScaledFits(t, i);
    if d < 0 { MulPositive(-d, e); assert (-d) * e == -(d * e); } else { MulNonNegative(d, e); }
    SmallWord(d * e);
    TablePlaces(t);
  }

  lemma ScaledFits(t: Datatype, i: int)
    requires Tabled(t) && Positive(t) && Fits(t) && 0 <= i < |t.displs|
    ensures Int32(t.displs[i] * Extent(t.base)) && Extent(t.base) >= 1
  {
    hide Size, Lb, Ub, Extent;
    assert t.displs[i] in t.displs;
    SizeAndExtentPositive(t.base);
  }

  lemma SmallWord(x: int)
    requires Int32(x)
    ensures Wrap32(x) == if x < 0 then x + 4294967296 else x
  {}
}
